/** The imperative form of src/aiConversationState.ts: every transition copies the
    published state into a mutable draft, edits it in place and bounds it with the
    loops of `enforceBounds`. Each method computes what its function says. */
module ConversationDraft {
  import opened Text
  import opened ConversationKeys
  import opened ConversationModel
  import opened ConversationBounds
  import BoundsOf = ConversationBounds
  import opened ConversationStore
  import StoreOf = ConversationStore

  lemma CapAllFails(scopes: seq<Scope>, protectedTargets: set<string>, i: nat)
    requires i < |scopes| && CapConversations(TrimScope(scopes[i]), protectedTargets).None?
    ensures CapAll(scopes, protectedTargets).None?
  {
    hide CapConversations, TrimScope, CapAll;
  }

  class Draft {
    var activeScopeKey: string
    var scopes: seq<Scope>
    var revision: nat

    /** `toMutable` */
    constructor (st: State)
      ensures activeScopeKey == st.activeScopeKey && scopes == st.scopes && revision == st.revision
    {
      activeScopeKey := st.activeScopeKey;
      scopes := st.scopes;
      revision := st.revision;
    }

    /** Phase 1 for one scope: splice its messages, then drop conversations. */
    method CapScope(i: nat, protectedTargets: set<string>) returns (ok: bool)
      requires i < |scopes|
      modifies this`scopes
      ensures ok <==> CapConversations(TrimScope(old(scopes[i])), protectedTargets).Some?
      ensures ok ==> scopes == old(scopes)[i := CapConversations(TrimScope(old(scopes[i])), protectedTargets).value]
    {
      var s := scopes[i];
      var cs := s.conversations;
      for j := 0 to |cs|
        invariant |cs| == |s.conversations|
        invariant forall k :: 0 <= k < j ==> cs[k] == TrimMessages(s.conversations[k])
        invariant forall k :: j <= k < |cs| ==> cs[k] == s.conversations[k]
      {
        if |cs[j].messages| > MAX_MESSAGES {
          cs := cs[j := cs[j].(messages := cs[j].messages[|cs[j].messages| - MAX_MESSAGES..])];
        }
      }
      assert s.(conversations := cs) == TrimScope(s);
      s := s.(conversations := cs);
      while |s.conversations| > MAX_CONVERSATIONS
        invariant CapConversations(s, protectedTargets) == CapConversations(TrimScope(old(scopes[i])), protectedTargets)
        decreases |s.conversations|
      {
        var removable := Candidates(s.key, s.conversations, protectedTargets + {TargetKey(s.key, s.activeId)});
        if removable == [] {
          return false;
        }
        s := Drop(s, Oldest(removable).conversationId);
      }
      scopes := scopes[i := s];
      ok := true;
    }

    /** Phase 1 for every scope. */
    method CapConversationLists(protectedTargets: set<string>) returns (ok: bool)
      modifies this`scopes
      ensures ok <==> CapAll(old(scopes), protectedTargets).Some?
      ensures ok ==> CapAll(old(scopes), protectedTargets) == Some(scopes)
    {
      hide CapConversations, TrimScope, CapAll;
      for i := 0 to |scopes|
        invariant |scopes| == |old(scopes)|
        invariant forall k :: i <= k < |scopes| ==> scopes[k] == old(scopes)[k]
        invariant forall k :: 0 <= k < i ==>
          CapConversations(TrimScope(old(scopes)[k]), protectedTargets) == Some(scopes[k])
      {
        ok := CapScope(i, protectedTargets);
        if !ok {
          CapAllFails(old(scopes), protectedTargets, i);
          return;
        }
      }
      ok := true;
      CapAllIs(old(scopes), protectedTargets, scopes);
    }

    /** Phase 2. */
    method CapScopeList(protectedTargets: set<string>) returns (ok: bool)
      modifies this`scopes
      ensures ok <==> CapScopes(old(scopes), activeScopeKey, protectedTargets).Some?
      ensures ok ==> CapScopes(old(scopes), activeScopeKey, protectedTargets) == Some(scopes)
    {
      while |scopes| > MAX_SCOPES
        invariant CapScopes(scopes, activeScopeKey, protectedTargets)
          == CapScopes(old(scopes), activeScopeKey, protectedTargets)
        decreases |scopes|
      {
        var removable := ScopeCandidates(scopes, activeScopeKey, protectedTargets);
        if removable == [] {
          return false;
        }
        var victim := Oldest(removable);
        assert victim in removable && HasKey(scopes, victim.scopeKey);
        scopes := WithoutScope(scopes, victim.scopeKey);
      }
      ok := true;
    }

    /** Phase 3. */
    method EvictConversations(protectedTargets: set<string>)
      requires Shape(scopes)
      modifies this`scopes
      ensures Shape(old(scopes)) && scopes == EvictText(old(scopes), activeScopeKey, protectedTargets)
    {
      while TextBytes(scopes) > MAX_TEXT_BYTES
        invariant Shape(scopes)
        invariant EvictText(scopes, activeScopeKey, protectedTargets)
          == EvictText(old(scopes), activeScopeKey, protectedTargets)
        decreases ConversationCount(scopes)
      {
        var keep := Kept(scopes, activeScopeKey, protectedTargets);
        var removable := AllCandidates(scopes, keep);
        if removable == [] {
          break;
        }
        var victim := Oldest(removable);
        EvictionStep(scopes, keep, victim);
        scopes := BoundsOf.RemoveConversation(scopes, victim.scopeKey, victim.conversationId);
      }
    }

    /** Phase 4. */
    method TruncateMessages()
      modifies this`scopes
      ensures scopes == TruncateText(old(scopes))
    {
      while TextBytes(scopes) > MAX_TEXT_BYTES
        invariant TruncateText(scopes) == TruncateText(old(scopes))
        decreases MessageCount(scopes)
      {
        var orders := AllFirstOrders(scopes);
        if orders == [] {
          break;
        }
        ShiftScopesCount(scopes, Least(orders));
        scopes := ShiftScopes(scopes, Least(orders));
      }
    }

    /** Phase 5. */
    method DropImageBodies()
      modifies this`scopes
      ensures scopes == DropImages(old(scopes))
    {
      var retained := Bodies(scopes);
      while |retained| > MAX_IMAGES || BodyBytes(retained) > MAX_IMAGE_BYTES
        invariant retained == Bodies(scopes)
        invariant DropImages(scopes) == DropImages(old(scopes))
        decreases |retained|
      {
        if retained == [] {
          break;
        }
        var order := OldestBody(retained);
        BodiesDrop(scopes, order);
        scopes := DropFromScopes(scopes, order);
        retained := Bodies(scopes);
      }
    }

    /** `enforceBounds`; false stands for its throw, which abandons the draft. */
    method EnforceBounds(protectedTargets: set<string>) returns (ok: bool)
      requires Shape(scopes)
      modifies this`scopes
      ensures Shape(old(scopes))
      ensures ok <==> BoundsOf.EnforceBounds(old(scopes), activeScopeKey, protectedTargets).Some?
      ensures ok ==> BoundsOf.EnforceBounds(old(scopes), activeScopeKey, protectedTargets) == Some(scopes)
    {
      CapAllShape(scopes, protectedTargets);
      ok := CapConversationLists(protectedTargets);
      if !ok {
        return;
      }
      CapScopesMembers(scopes, activeScopeKey, protectedTargets);
      ok := CapScopeList(protectedTargets);
      if !ok {
        return;
      }
      EvictConversations(protectedTargets);
      TruncateMessages();
      if TextBytes(scopes) > MAX_TEXT_BYTES {
        return false;
      }
      DropImageBodies();
    }

    /** `finish` */
    method Finish(protectedTargets: set<string>) returns (r: Result<State>)
      requires Shape(scopes)
      modifies this`scopes
      ensures Shape(old(scopes)) && r == StoreOf.Finish(activeScopeKey, old(scopes), revision, protectedTargets)
    {
      var ok := EnforceBounds(protectedTargets);
      if ok {
        return Ok(State(activeScopeKey, scopes, revision, TextBytes(scopes)));
      }
      return Err(BoundInvariant);
    }
  }

  /** `activateAiConversationScope` */
  method Activate(st: State, terminal: Option<TerminalScope>, conversationId: string, inFlight: seq<Target>)
    returns (r: Result<State>)
    requires Shape(st.scopes)
    ensures r == Apply(st, Op.Activate(terminal, conversationId, inFlight))
  {
    hide ScopeKey, IsOpaqueText, ProtectedKeys, Shape, BoundsOf.EnforceBounds, StoreOf.Finish;
    var scopeKey := ScopeKey(terminal);
    if scopeKey.Err? {
      return Err(scopeKey.error);
    }
    var key := scopeKey.value;
    var existing := FindScope(st.scopes, key);
    if existing.Some? && st.activeScopeKey == key {
      return Ok(st);
    }
    var draft := new Draft(st);
    draft.revision := draft.revision + 1;
    draft.activeScopeKey := key;
    if existing.Some? {
      draft.scopes := draft.scopes[existing.value := draft.scopes[existing.value].(updatedOrder := draft.revision)];
    } else {
      if !IsOpaqueId(conversationId) {
        return Err(IdInvalid);
      }
      draft.scopes := draft.scopes + [NewScope(key, conversationId, draft.revision)];
    }
    var protectedTargets := ProtectedKeys(inFlight);
    if protectedTargets.Err? {
      return Err(protectedTargets.error);
    }
    assert draft.scopes == ActivateDraft(st, key, conversationId);
    r := draft.Finish(protectedTargets.value);
  }

  /** `createAiConversation` */
  method Create(st: State, scopeKey: string, conversationId: string) returns (r: Result<State>)
    requires Shape(st.scopes)
    ensures r == Apply(st, Op.Create(scopeKey, conversationId))
  {
    if !IsScopeKey(scopeKey) {
      return Err(ScopeKeyInvalid);
    }
    if !IsOpaqueId(conversationId) {
      return Err(IdInvalid);
    }
    if FindTarget(st.scopes, Target(scopeKey, conversationId)).Some? {
      return Err(IdDuplicate);
    }
    var draft := new Draft(st);
    draft.revision := draft.revision + 1;
    draft.activeScopeKey := scopeKey;
    var existing := FindScope(st.scopes, scopeKey);
    if existing.Some? {
      var s := draft.scopes[existing.value];
      s := s.(conversations := s.conversations + [NewConversation(conversationId, draft.revision)]);
      s := s.(activeId := conversationId);
      s := s.(updatedOrder := draft.revision);
      draft.scopes := draft.scopes[existing.value := s];
    } else {
      draft.scopes := draft.scopes + [NewScope(scopeKey, conversationId, draft.revision)];
    }
    assert draft.scopes == CreateDraft(st, scopeKey, conversationId);
    r := draft.Finish({TargetKey(scopeKey, conversationId)});
  }

  lemma SwitchedTo(st: State, p: Place, target: Target, draft: seq<Scope>)
    requires Shape(st.scopes) && PlaceOf(st.scopes, p, target)
    requires var s, order := st.scopes[p.scope], st.revision + 1;
      draft == st.scopes[p.scope := s.(activeId := target.conversationId, updatedOrder := order, conversations :=
        s.conversations[p.conversation := s.conversations[p.conversation].(updatedOrder := order)])]
    ensures draft == SwitchDraft(st, p)
  {
    hide Shape;
  }

  /** `switchAiConversation` */
  method Switch(st: State, target: Target) returns (r: Result<State>)
    requires Shape(st.scopes)
    ensures r == Apply(st, Op.Switch(target))
  {
    hide FindTarget, IsOpaqueText, BoundsOf.EnforceBounds, StoreOf.Finish, Shape, SwitchDraft;
    if !IsOpaqueTarget(target) {
      return Err(TargetError(target));
    }
    var place := FindTarget(st.scopes, target);
    if place.None? {
      return Ok(st);
    }
    var p := place.value;
    if st.activeScopeKey == target.scopeKey && st.scopes[p.scope].activeId == target.conversationId {
      return Ok(st);
    }
    var draft := new Draft(st);
    draft.revision := draft.revision + 1;
    draft.activeScopeKey := target.scopeKey;
    var s := draft.scopes[p.scope];
    s := s.(activeId := target.conversationId);
    s := s.(updatedOrder := draft.revision);
    var c := s.conversations[p.conversation];
    s := s.(conversations := s.conversations[p.conversation := c.(updatedOrder := draft.revision)]);
    draft.scopes := draft.scopes[p.scope := s];
    SwitchedTo(st, p, target, draft.scopes);
    r := draft.Finish({TargetKey(target.scopeKey, target.conversationId)});
  }

  /** What a deletion comes to, case by case. */
  lemma DeleteEnds(st: State, target: Target, replacementId: string)
    requires Shape(st.scopes)
    ensures !IsOpaqueTarget(target) ==> Apply(st, Op.Delete(target, replacementId)) == Err(TargetError(target))
    ensures var found := FindTarget(st.scopes, target);
      IsOpaqueTarget(target) ==>
        if found.None? then Apply(st, Op.Delete(target, replacementId)) == Ok(st)
        else DeletesAt(st, target, replacementId, found.value, Apply(st, Op.Delete(target, replacementId)))
  {
    hide FindTarget, IsOpaqueText, BoundsOf.EnforceBounds, StoreOf.Finish, Shape, DeleteFrom, WithoutScope;
    if FindTarget(st.scopes, target).Some? {
      PutDeletedShape(st.scopes, FindTarget(st.scopes, target).value.scope, target.conversationId, replacementId, st.revision + 1);
      WithoutScopeShape(st.scopes, target.scopeKey);
    }
  }

  ghost predicate DeletesAt(st: State, target: Target, replacementId: string, p: Place, r: Result<State>)
    requires p.scope < |st.scopes|
  {
    var s, order := st.scopes[p.scope], st.revision + 1;
    var s' := DeleteFrom(s, target.conversationId, replacementId, order);
    var emptied := Without(s.conversations, target.conversationId) == [];
    if emptied && st.activeScopeKey != target.scopeKey then
      var draft := WithoutScope(st.scopes, target.scopeKey);
      Shape(draft) && r == StoreOf.Finish(st.activeScopeKey, draft, order, {})
    else if emptied && !IsOpaqueId(replacementId) then r == Err(IdInvalid)
    else
      var draft := st.scopes[p.scope := s'];
      Shape(draft) && r == StoreOf.Finish(st.activeScopeKey, draft, order, {TargetKey(s'.key, s'.activeId)})
  }

  /** The end of a deletion within its scope: an emptied scope gets a replacement, and a
      scope that lost its active conversation activates its newest one. */
  method Refill(left: Scope, ghost s: Scope, id: string, replacementId: string, order: nat) returns (s': Scope)
    requires left == s.(conversations := Without(s.conversations, id))
    ensures s' == DeleteFrom(s, id, replacementId, order)
  {
    s' := left;
    if s'.conversations == [] {
      s' := s'.(conversations := [NewConversation(replacementId, order)], activeId := replacementId);
    } else if s'.activeId == id {
      s' := s'.(activeId := Newest(s'.conversations).id);
    }
    s' := s'.(updatedOrder := order);
  }

  /** `deleteAiConversation` */
  method Delete(st: State, target: Target, replacementId: string) returns (r: Result<State>)
    requires Shape(st.scopes)
    ensures r == Apply(st, Op.Delete(target, replacementId))
  {
    hide FindTarget, IsOpaqueText, BoundsOf.EnforceBounds, StoreOf.Finish, Shape, DeleteFrom, WithoutScope, Apply;
    DeleteEnds(st, target, replacementId);
    if !IsOpaqueTarget(target) {
      return Err(TargetError(target));
    }
    var place := FindTarget(st.scopes, target);
    if place.None? {
      return Ok(st);
    }
    var p := place.value;
    var draft := new Draft(st);
    draft.revision := draft.revision + 1;
    var s := draft.scopes[p.scope];
    s := s.(conversations := Without(s.conversations, target.conversationId));
    if s.conversations == [] {
      if draft.activeScopeKey != target.scopeKey {
        draft.scopes := WithoutScope(draft.scopes, target.scopeKey);
        r := draft.Finish({});
        return;
      }
      if !IsOpaqueId(replacementId) {
        return Err(IdInvalid);
      }
    }
    s := Refill(s, st.scopes[p.scope], target.conversationId, replacementId, draft.revision);
    draft.scopes := draft.scopes[p.scope := s];
    r := draft.Finish({TargetKey(s.key, s.activeId)});
  }

  lemma PutDeletedShape(scopes: seq<Scope>, i: nat, id: string, replacementId: string, order: nat)
    requires Shape(scopes) && i < |scopes|
    ensures Shape(scopes[i := DeleteFrom(scopes[i], id, replacementId, order)])
  {
    assert ScopeShape(scopes[i]);
    hide ScopeShape, UniqueKeys, DeleteFrom;
    DeleteFromShape(scopes[i], id, replacementId, order);
    PutScopeShape(scopes, i, DeleteFrom(scopes[i], id, replacementId, order));
  }

  /** The end of every message edit: stamp, put back, finish. */
  method Publish(st: State, target: Target, p: Place, c: Conversation) returns (r: Result<State>)
    requires Shape(st.scopes) && ValidPlace(st.scopes, p) && c.id == st.scopes[p.scope].conversations[p.conversation].id
    requires c.updatedOrder == st.revision + 1
    ensures Shape(CommitConversation(st, target, p, c).draft)
    ensures var call := CommitConversation(st, target, p, c);
      r == StoreOf.Finish(call.activeKey, call.draft, st.revision + 1, call.protectedTargets)
  {
    hide UniqueIds, UniqueKeys, HasId, BoundsOf.EnforceBounds, StoreOf.Finish;
    var draft := new Draft(st);
    draft.revision := draft.revision + 1;
    var s := draft.scopes[p.scope];
    s := s.(conversations := s.conversations[p.conversation := c]);
    s := s.(updatedOrder := draft.revision);
    draft.scopes := draft.scopes[p.scope := s];
    PutConversationShape(st.scopes, p, c, st.revision + 1);
    assert draft.scopes == PutConversation(st.scopes, p, c, st.revision + 1);
    r := draft.Finish({TargetKey(target.scopeKey, target.conversationId)});
  }

  /** `appendAiConversationMessage` */
  method Append(st: State, target: Target, input: MessageInput, nfkc: string -> string) returns (r: Result<State>)
    requires Shape(st.scopes)
    ensures r == Apply(st, Op.Append(target, input, nfkc))
  {
    hide Shape, CommitConversation, CheckMessage, FindMessage, FindTarget, IsOpaqueText, DeriveTitle, Utf8Prefix, BoundsOf.EnforceBounds, StoreOf.Finish;
    if !IsOpaqueTarget(target) {
      return Err(TargetError(target));
    }
    var place := FindTarget(st.scopes, target);
    if place.None? {
      return Ok(st);
    }
    var c := st.scopes[place.value.scope].conversations[place.value.conversation];
    if FindMessage(c.messages, input.id).Some? {
      return Ok(st);
    }
    var attachments := CheckMessage(input);
    if attachments.Err? {
      return Err(attachments.error);
    }
    var order := st.revision + 1;
    var content := TakeUtf8Prefix(input.content, MAX_MESSAGE_BYTES);
    ghost var before := c;
    c := c.(messages := c.messages + [Message(input.id, input.role, content, attachments.value, input.tool, order)]);
    if input.role == UserRole && !c.titleInitialized {
      c := c.(title := DeriveTitle(nfkc, content));
      c := c.(titleInitialized := true);
    }
    c := c.(updatedOrder := order);
    assert c == Appended(before, input, attachments.value, order, nfkc);
    r := Publish(st, target, place.value, c);
  }

  /** The checks and edits of one message; nothing to do is `Ok(None)`. */
  method EditMessage(c: Conversation, messageId: string, change: MessageUpdate, order: nat)
    returns (r: Result<Option<Conversation>>)
    ensures r == UpdateIn(c, messageId, change, order)
  {
    hide FindMessage, Utf8Prefix, CheckToolActivity;
    var found := FindMessage(c.messages, messageId);
    if found.None? {
      return Ok(None);
    }
    var m := c.messages[found.value];
    var role := if change.role.Some? then change.role.value else m.role;
    if role == OtherRole {
      return Err(RoleInvalid);
    }
    var content := TakeUtf8Prefix(if change.content.Some? then change.content.value else m.content, MAX_MESSAGE_BYTES);
    var tool := m.tool;
    if change.tool.Some? {
      var checked := CheckToolActivity(change.tool.value);
      if checked.Err? {
        return Err(checked.error);
      }
      tool := change.tool;
    }
    if tool.Some? && role != AssistantRole {
      return Err(ToolActivityInvalid);
    }
    if m.role == role && m.content == content && m.tool == tool {
      return Ok(None);
    }
    m := m.(role := role);
    m := m.(content := content);
    m := m.(tool := tool);
    var edited := c.(messages := c.messages[found.value := m]);
    edited := edited.(updatedOrder := order);
    r := Ok(Some(edited));
  }

  /** `updateAiConversationMessage` */
  method Update(st: State, target: Target, messageId: string, change: MessageUpdate) returns (r: Result<State>)
    requires Shape(st.scopes)
    ensures r == Apply(st, Op.Update(target, messageId, change))
  {
    hide Shape, CommitConversation, FindTarget, UpdateIn, IsOpaqueText, BoundsOf.EnforceBounds, StoreOf.Finish;
    if !IsOpaqueTarget(target) {
      return Err(TargetError(target));
    }
    if !IsOpaqueId(messageId) {
      return Err(IdInvalid);
    }
    var place := FindTarget(st.scopes, target);
    if place.None? {
      return Ok(st);
    }
    var edited := EditMessage(
      st.scopes[place.value.scope].conversations[place.value.conversation], messageId, change, st.revision + 1);
    if edited.Err? {
      return Err(edited.error);
    }
    if edited.value.None? {
      return Ok(st);
    }
    r := Publish(st, target, place.value, edited.value.value);
  }

  /** `deleteAiConversationMessage` */
  method DeleteMessage(st: State, target: Target, messageId: string) returns (r: Result<State>)
    requires Shape(st.scopes)
    ensures r == Apply(st, Op.DeleteMessage(target, messageId))
  {
    hide Shape, CommitConversation, FindMessage, FindTarget, IsOpaqueText, WithoutMessage, BoundsOf.EnforceBounds, StoreOf.Finish;
    if !IsOpaqueTarget(target) {
      return Err(TargetError(target));
    }
    if !IsOpaqueId(messageId) {
      return Err(IdInvalid);
    }
    var place := FindTarget(st.scopes, target);
    if place.None? {
      return Ok(st);
    }
    var c := st.scopes[place.value.scope].conversations[place.value.conversation];
    if FindMessage(c.messages, messageId).None? {
      return Ok(st);
    }
    c := c.(messages := WithoutMessage(c.messages, messageId));
    c := c.(updatedOrder := st.revision + 1);
    r := Publish(st, target, place.value, c);
  }
}
