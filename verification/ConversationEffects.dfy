/** What each exported transition of src/aiConversationState.ts does to the store, from one
    published state to the next: what changes, what stays, and what becomes active. */
module ConversationEffects {
  import opened Text
  import opened ConversationKeys
  import opened ConversationModel
  import opened ConversationBounds
  import opened ConversationIdle
  import opened ConversationStore
  import opened ConversationRuns
  import opened ConversationHistory
  import opened ConversationDiscipline

  // ----- calls after which every limit still holds -----

  lemma {:induction false} PutLighter(scopes: seq<Scope>, i: nat, s': Scope)
    requires i < |scopes| && LighterIn(s'.conversations, scopes[i].conversations) && NonNegative(Bodies(scopes))
    ensures Lighter(scopes[i := s'], scopes)
  {
    hide LighterBodies, BodyBytes, ConversationBodies, ConversationsBytes;
    var head, rest := ConversationBodies(scopes[0].conversations), Bodies(scopes[1..]);
    NonNegativeConcat(head, rest);
    if i == 0 {
      assert scopes[0 := s'][1..] == scopes[1..];
      LighterSame(rest);
      LighterPair(ConversationBodies(s'.conversations), rest, head, rest);
    } else {
      PutLighter(scopes[1..], i - 1, s');
      assert scopes[i := s'][1..] == scopes[1..][i - 1 := s'];
      LighterSame(head);
      LighterPair(head, Bodies(scopes[1..][i - 1 := s']), head, rest);
    }
  }

  lemma InvIsLight(st: State)
    requires Inv(st)
    ensures Light(st.scopes) && NonNegative(Bodies(st.scopes)) && Shape(st.scopes)
    ensures |st.scopes| <= 12 && forall s :: s in st.scopes ==> |s.conversations| <= 8
    ensures forall s, c :: Holds(st.scopes, s, c) ==> |c.messages| <= 63
  {
    BodySizes(st.scopes, st.revision);
  }

  lemma FinishIdle(activeKey: string, draft: seq<Scope>, order: nat, protectedTargets: set<string>)
    requires Shape(draft) && Light(draft)
    requires |draft| <= 12 && forall s :: s in draft ==> |s.conversations| <= 8
    requires forall s, c :: Holds(draft, s, c) ==> |c.messages| <= 63
    ensures Finish(activeKey, draft, order, protectedTargets) == Ok(State(activeKey, draft, order, TextBytes(draft)))
  {
    hide Shape, Light, EnforceBounds;
    PassIdle(draft, activeKey, protectedTargets);
  }

  /** A rewritten scope that is no heavier is published as it is. */
  lemma PutPublished(st: State, op: Op, i: nat, s': Scope, activeKey: string, protectedTargets: set<string>)
    requires Inv(st) && i < |st.scopes| && Shape(st.scopes[i := s'])
    requires |s'.conversations| <= 8 && forall c :: c in s'.conversations ==> |c.messages| <= 63
    requires LighterIn(s'.conversations, st.scopes[i].conversations)
    requires Shape(st.scopes) && CallOf(st, op) == Ok(Commit(activeKey, st.scopes[i := s'], protectedTargets))
    ensures var draft := st.scopes[i := s'];
      Apply(st, op) == Ok(State(activeKey, draft, st.revision + 1, TextBytes(draft)))
  {
    hide Inv, Shape, CallOf, Apply, Finish, Light, Bodies, TextBytes, LighterIn;
    var draft := st.scopes[i := s'];
    InvIsLight(st);
    PutLighter(st.scopes, i, s');
    LighterIsLight(draft, st.scopes);
    PutCounts(st.scopes, i, s', draft);
    ApplyIsFinish(st, op, Commit(activeKey, draft, protectedTargets));
    FinishIdle(activeKey, draft, st.revision + 1, protectedTargets);
  }

  lemma PutCounts(scopes: seq<Scope>, i: nat, s': Scope, draft: seq<Scope>)
    requires i < |scopes| && |s'.conversations| <= 8 && forall c :: c in s'.conversations ==> |c.messages| <= 63
    requires forall s :: s in scopes ==> |s.conversations| <= 8
    requires forall s, c :: Holds(scopes, s, c) ==> |c.messages| <= 63
    requires draft == scopes[i := s']
    ensures forall s :: s in draft ==> |s.conversations| <= 8
    ensures forall s, c :: Holds(draft, s, c) ==> |c.messages| <= 63
  {
    forall s, c | Holds(draft, s, c)
      ensures |c.messages| <= 63
    {
      assert s == s' || Holds(scopes, s, c);
    }
  }

  lemma {:induction false} SameTextAndBodies(scopes: seq<Scope>, i: nat, s': Scope)
    requires i < |scopes|
    requires ConversationsBytes(s'.conversations) == ConversationsBytes(scopes[i].conversations)
    ensures TextBytes(scopes[i := s']) == TextBytes(scopes)
  {
    hide ConversationsBytes;
    if i > 0 {
      assert scopes[i := s'][1..] == scopes[1..][i - 1 := s'];
      SameTextAndBodies(scopes[1..], i - 1, s');
    } else {
      assert scopes[0 := s'][1..] == scopes[1..];
    }
  }

  lemma ScopeBodies(scopes: seq<Scope>, i: nat)
    requires i < |scopes| && NonNegative(Bodies(scopes))
    ensures NonNegative(ConversationBodies(scopes[i].conversations))
  {
    hide ConversationBodies;
    NonNegativeConcat(ConversationBodies(scopes[0].conversations), Bodies(scopes[1..]));
    if i > 0 {
      ScopeBodies(scopes[1..], i - 1);
    }
  }

  lemma SameIsLighter(cs: seq<Conversation>)
    requires NonNegative(ConversationBodies(cs))
    ensures LighterIn(cs, cs)
  {
  }

  // ----- activating an existing scope -----

  /** Activating the scope that is active changes nothing; activating another existing
      one makes it the active scope, marks it as used, and changes nothing else. */
  lemma ActivateExisting(st: State, op: Op, i: nat)
    requires Inv(st) && op.Activate? && i < |st.scopes| && ScopeKey(op.terminal) == Ok(st.scopes[i].key)
    ensures Shape(st.scopes)
    ensures st.activeScopeKey == st.scopes[i].key ==> Apply(st, op) == Ok(st)
    ensures st.activeScopeKey != st.scopes[i].key && ProtectedKeys(op.inFlight).Ok? ==>
      Apply(st, op) == Ok(State(
        st.scopes[i].key, st.scopes[i := st.scopes[i].(updatedOrder := st.revision + 1)], st.revision + 1, st.totalTextBytes))
    ensures st.activeScopeKey != st.scopes[i].key && ProtectedKeys(op.inFlight).Err? ==> Apply(st, op).Err?
  {
    hide Inv, Shape, ScopeKey, ProtectedKeys, UniqueKeys, CallOf, Apply, LighterIn, ConversationBodies;
    InvIsLight(st);
    var key, s' := st.scopes[i].key, st.scopes[i].(updatedOrder := st.revision + 1);
    ActivateExistingCall(st, op, i);
    if st.activeScopeKey != key && ProtectedKeys(op.inFlight).Ok? {
      StampShape(st.scopes, i, s');
      ScopeBodies(st.scopes, i);
      SameIsLighter(st.scopes[i].conversations);
      assert forall c :: c in s'.conversations ==> Holds(st.scopes, st.scopes[i], c);
      PutPublished(st, op, i, s', key, ProtectedKeys(op.inFlight).value);
      SameTextAndBodies(st.scopes, i, s');
      InvText(st);
    }
  }

  lemma InvText(st: State)
    requires Inv(st)
    ensures st.totalTextBytes == TextBytes(st.scopes)
  {
  }

  lemma StampShape(scopes: seq<Scope>, i: nat, s': Scope)
    requires Shape(scopes) && i < |scopes| && s' == scopes[i].(updatedOrder := s'.updatedOrder)
    ensures Shape(scopes[i := s'])
  {
    assert ScopeShape(scopes[i]);
    assert ScopeShape(s');
    hide ScopeShape;
  }

  lemma FoundScope(scopes: seq<Scope>, i: nat)
    requires Shape(scopes) && i < |scopes|
    ensures FindScope(scopes, scopes[i].key) == Some(i)
  {
    assert scopes[i] in scopes;
    hide ScopeShape;
  }

  lemma ActivateExistingCall(st: State, op: Op, i: nat)
    requires Shape(st.scopes) && op.Activate? && i < |st.scopes| && ScopeKey(op.terminal) == Ok(st.scopes[i].key)
    ensures st.activeScopeKey == st.scopes[i].key ==> Apply(st, op) == Ok(st)
    ensures st.activeScopeKey != st.scopes[i].key && ProtectedKeys(op.inFlight).Err? ==> Apply(st, op).Err?
    ensures st.activeScopeKey != st.scopes[i].key && ProtectedKeys(op.inFlight).Ok? ==>
      CallOf(st, op) == Ok(Commit(
        st.scopes[i].key, st.scopes[i := st.scopes[i].(updatedOrder := st.revision + 1)], ProtectedKeys(op.inFlight).value))
  {
    hide Shape, ScopeKey, ProtectedKeys, FindScope, Finish, IsOpaqueText, ActivateDraft;
    FoundScope(st.scopes, i);
    RestampedDraft(st, i, op.conversationId);
  }

  lemma RestampedDraft(st: State, i: nat, id: string)
    requires Shape(st.scopes) && i < |st.scopes|
    ensures ActivateDraft(st, st.scopes[i].key, id) == st.scopes[i := st.scopes[i].(updatedOrder := st.revision + 1)]
  {
    hide Shape, FindScope;
    FoundScope(st.scopes, i);
  }

  // ----- switching -----

  ghost predicate LighterConversation(c': Conversation, c: Conversation) {
    && Bytes(c'.title) + MessagesBytes(c'.messages) <= Bytes(c.title) + MessagesBytes(c.messages)
    && LighterBodies(MessageBodies(c'.messages), MessageBodies(c.messages))
  }

  lemma {:induction false} ReplaceLighter(cs: seq<Conversation>, j: nat, c': Conversation)
    requires j < |cs| && LighterConversation(c', cs[j]) && NonNegative(ConversationBodies(cs))
    ensures LighterIn(cs[j := c'], cs)
  {
    hide LighterBodies, BodyBytes, MessageBodies, MessagesBytes;
    var head, rest := MessageBodies(cs[0].messages), ConversationBodies(cs[1..]);
    NonNegativeConcat(head, rest);
    if j == 0 {
      assert cs[0 := c'][1..] == cs[1..];
      LighterSame(rest);
      LighterPair(MessageBodies(c'.messages), rest, head, rest);
    } else {
      ReplaceLighter(cs[1..], j - 1, c');
      assert cs[j := c'][1..] == cs[1..][j - 1 := c'];
      LighterSame(head);
      LighterPair(head, ConversationBodies(cs[1..][j - 1 := c']), head, rest);
    }
  }

  lemma {:induction false} SameConversationText(cs: seq<Conversation>, j: nat, c': Conversation)
    requires j < |cs| && c'.title == cs[j].title && c'.messages == cs[j].messages
    ensures ConversationsBytes(cs[j := c']) == ConversationsBytes(cs)
  {
    hide MessagesBytes, Bytes;
    if j > 0 {
      assert cs[j := c'][1..] == cs[1..][j - 1 := c'];
      SameConversationText(cs[1..], j - 1, c');
    } else {
      assert cs[0 := c'][1..] == cs[1..];
    }
  }

  lemma {:induction false} ConversationBodiesAt(cs: seq<Conversation>, j: nat)
    requires j < |cs| && NonNegative(ConversationBodies(cs))
    ensures NonNegative(MessageBodies(cs[j].messages))
  {
    hide MessageBodies;
    NonNegativeConcat(MessageBodies(cs[0].messages), ConversationBodies(cs[1..]));
    if j > 0 {
      ConversationBodiesAt(cs[1..], j - 1);
    }
  }

  /** What is found is the place of the target. */
  lemma FoundPlace(scopes: seq<Scope>, t: Target)
    requires Shape(scopes)
    ensures FindTarget(scopes, t).None? <==> forall s, c :: Holds(scopes, s, c) ==> !(s.key == t.scopeKey && c.id == t.conversationId)
  {
    if FindTarget(scopes, t).Some? {
      var p := FindTarget(scopes, t).value;
      assert Holds(scopes, scopes[p.scope], scopes[p.scope].conversations[p.conversation]);
    } else {
      forall s, c | Holds(scopes, s, c) && s.key == t.scopeKey
        ensures c.id != t.conversationId
      {
        var i := FindScope(scopes, t.scopeKey).value;
        SameKeySameScope(scopes, s, scopes[i]);
      }
    }
  }

  /** Switching to another conversation makes it and its scope active and marks both as
      used; switching to the active one or to none changes nothing; only a malformed
      target throws. */
  lemma SwitchEffect(st: State, op: Op)
    requires Inv(st) && op.Switch?
    ensures Shape(st.scopes)
    ensures Apply(st, op).Err? <==> !IsOpaqueTarget(op.to)
    ensures IsOpaqueTarget(op.to) ==>
      var found := FindTarget(st.scopes, op.to);
      if found.None? || (st.activeScopeKey == op.to.scopeKey && st.scopes[found.value.scope].activeId == op.to.conversationId)
      then Apply(st, op) == Ok(st)
      else Apply(st, op) == Ok(State(op.to.scopeKey, SwitchedTo(st, op.to, found.value), st.revision + 1, st.totalTextBytes))
  {
    hide Inv, Shape, UniqueKeys, CallOf, Apply, FindTarget, SwitchedTo, IsOpaqueTarget;
    InvIsLight(st);
    SwitchCall(st, op);
    var found := FindTarget(st.scopes, op.to);
    if IsOpaqueTarget(op.to) && found.Some? {
      var p := found.value;
      if !(st.activeScopeKey == op.to.scopeKey && st.scopes[p.scope].activeId == op.to.conversationId) {
        SwitchPublished(st, op, p);
      }
    }
  }

  ghost function SwitchedTo(st: State, t: Target, p: Place): seq<Scope>
    requires PlaceOf(st.scopes, p, t)
  {
    var s, order := st.scopes[p.scope], st.revision + 1;
    var c := s.conversations[p.conversation];
    st.scopes[p.scope := s.(
      activeId := t.conversationId, updatedOrder := order,
      conversations := s.conversations[p.conversation := c.(updatedOrder := order)])]
  }

  lemma SwitchCall(st: State, op: Op)
    requires Shape(st.scopes) && op.Switch?
    ensures !IsOpaqueTarget(op.to) ==> Apply(st, op).Err?
    ensures IsOpaqueTarget(op.to) ==>
      var found := FindTarget(st.scopes, op.to);
      if found.None? || (st.activeScopeKey == op.to.scopeKey && st.scopes[found.value.scope].activeId == op.to.conversationId)
      then Apply(st, op) == Ok(st)
      else CallOf(st, op) == Ok(Commit(
        op.to.scopeKey, SwitchedTo(st, op.to, found.value), {TargetKey(op.to.scopeKey, op.to.conversationId)}))
  {
    hide Shape, FindTarget, Finish, IsOpaqueTarget;
  }

  lemma SwitchPublished(st: State, op: Op, p: Place)
    requires Inv(st) && op.Switch? && PlaceOf(st.scopes, p, op.to) && Shape(st.scopes)
    requires CallOf(st, op) == Ok(Commit(
      op.to.scopeKey, SwitchedTo(st, op.to, p), {TargetKey(op.to.scopeKey, op.to.conversationId)}))
    ensures Apply(st, op) == Ok(State(op.to.scopeKey, SwitchedTo(st, op.to, p), st.revision + 1, st.totalTextBytes))
  {
    hide Inv, Shape, CallOf, Apply, LighterConversation, ConversationBodies, ConversationsBytes, LighterIn;
    InvIsLight(st);
    var s, order := st.scopes[p.scope], st.revision + 1;
    var c := s.conversations[p.conversation];
    var c' := c.(updatedOrder := order);
    var cs := s.conversations[p.conversation := c'];
    var s' := s.(activeId := op.to.conversationId, updatedOrder := order, conversations := cs);
    ScopeBodies(st.scopes, p.scope);
    ConversationBodiesAt(s.conversations, p.conversation);
    SameIsLighterConversation(c', c);
    ReplaceLighter(s.conversations, p.conversation, c');
    SameConversationText(s.conversations, p.conversation, c');
    SameTextAndBodies(st.scopes, p.scope, s');
    ShortMessages(st, p.scope);
    ReplacedShort(s.conversations, p.conversation, c');
    PutPublished(st, op, p.scope, s', op.to.scopeKey, {TargetKey(op.to.scopeKey, op.to.conversationId)});
    InvText(st);
  }

  lemma ShortMessages(st: State, i: nat)
    requires Inv(st) && i < |st.scopes|
    ensures |st.scopes[i].conversations| <= 8 && forall c :: c in st.scopes[i].conversations ==> |c.messages| <= 63
  {
    InvIsLight(st);
    hide Inv;
    assert forall c :: c in st.scopes[i].conversations ==> Holds(st.scopes, st.scopes[i], c);
  }

  lemma ReplacedShort(cs: seq<Conversation>, j: nat, c': Conversation)
    requires j < |cs| && |c'.messages| <= |cs[j].messages| && forall c :: c in cs ==> |c.messages| <= 63
    ensures forall c :: c in cs[j := c'] ==> |c.messages| <= 63
  {
    assert cs[j] in cs;
  }

  lemma SameIsLighterConversation(c': Conversation, c: Conversation)
    requires c'.title == c.title && c'.messages == c.messages && NonNegative(MessageBodies(c.messages))
    ensures LighterConversation(c', c)
  {
  }

  // ----- deleting a message -----

  /** The store with another conversation at `p`, its scope marked as used. */
  ghost function Rewritten(st: State, p: Place, c: Conversation): seq<Scope>
    requires ValidPlace(st.scopes, p)
  {
    var s := st.scopes[p.scope];
    st.scopes[p.scope := s.(conversations := s.conversations[p.conversation := c], updatedOrder := st.revision + 1)]
  }

  /** Everything but the element at `k`. */
  function Cut<T>(xs: seq<T>, k: nat): seq<T>
    requires k < |xs|
  {
    xs[..k] + xs[k + 1..]
  }

  lemma PlaceIsFound(scopes: seq<Scope>, p: Place, t: Target)
    requires Shape(scopes) && PlaceOf(scopes, p, t)
    ensures FindTarget(scopes, t) == Some(p)
  {
    var s := scopes[p.scope];
    FoundPlace(scopes, t);
    assert Holds(scopes, s, s.conversations[p.conversation]) && ScopeShape(s);
  }

  lemma {:induction false} WithoutMessageIsCut(ms: seq<Message>, k: nat)
    requires k < |ms| && forall i, j :: 0 <= i < j < |ms| ==> ms[i].id != ms[j].id
    ensures WithoutMessage(ms, ms[k].id) == Cut(ms, k)
  {
    if k == 0 {
      assert Cut(ms, 0) == ms[1..];
      NoSuchMessage(ms[1..], ms[0].id);
    } else {
      assert Cut(ms, k) == [ms[0]] + Cut(ms[1..], k - 1);
      WithoutMessageIsCut(ms[1..], k - 1);
    }
  }

  lemma {:induction false} NoSuchMessage(ms: seq<Message>, id: string)
    requires forall i :: 0 <= i < |ms| ==> ms[i].id != id
    ensures WithoutMessage(ms, id) == ms
  {
    if ms != [] {
      NoSuchMessage(ms[1..], id);
    }
  }

  lemma {:induction false} CutLighter(ms: seq<Message>, k: nat)
    requires k < |ms| && NonNegative(MessageBodies(ms))
    ensures MessagesBytes(Cut(ms, k)) <= MessagesBytes(ms)
    ensures LighterBodies(MessageBodies(Cut(ms, k)), MessageBodies(ms))
  {
    hide LighterBodies, BodyBytes, AttachmentBodies;
    var head, rest := AttachmentBodies(ms[0].createdOrder, ms[0].attachments), MessageBodies(ms[1..]);
    NonNegativeConcat(head, rest);
    if k == 0 {
      assert Cut(ms, 0) == ms[1..];
      LighterSame(rest);
      LighterRest(head, rest, rest);
    } else {
      assert Cut(ms, k)[0] == ms[0] && Cut(ms, k)[1..] == Cut(ms[1..], k - 1);
      CutLighter(ms[1..], k - 1);
      LighterSame(head);
      LighterPair(head, MessageBodies(Cut(ms[1..], k - 1)), head, rest);
    }
  }

  /** Deleting a message takes it out of its conversation and marks that conversation and
      its scope as used; nothing else changes. */
  lemma DeleteMessageEffect(st: State, op: Op, p: Place, k: nat)
    requires Inv(st) && op.DeleteMessage? && IsOpaqueTarget(op.from) && IsOpaqueId(op.deletedId)
    requires PlaceOf(st.scopes, p, op.from)
    requires var ms := st.scopes[p.scope].conversations[p.conversation].messages; k < |ms| && ms[k].id == op.deletedId
    ensures Shape(st.scopes)
    ensures var c := st.scopes[p.scope].conversations[p.conversation];
      var draft := Rewritten(st, p, c.(messages := Cut(c.messages, k), updatedOrder := st.revision + 1));
      Apply(st, op) == Ok(State(st.activeScopeKey, draft, st.revision + 1, TextBytes(draft)))
  {
    hide Inv, Shape, CallOf, Apply, IsOpaqueText, ConversationBodies, ConversationsBytes, LighterIn, LighterBodies;
    hide MessagesBytes, MessageBodies, Cut, TextBytes;
    InvIsLight(st);
    var s := st.scopes[p.scope];
    var c := s.conversations[p.conversation];
    var c' := c.(messages := Cut(c.messages, k), updatedOrder := st.revision + 1);
    var s' := s.(conversations := s.conversations[p.conversation := c'], updatedOrder := st.revision + 1);
    ScopeBodies(st.scopes, p.scope);
    ConversationBodiesAt(s.conversations, p.conversation);
    CutLighter(c.messages, k);
    ReplaceLighter(s.conversations, p.conversation, c');
    ShortMessages(st, p.scope);
    CutLength(c.messages, k);
    ReplacedShort(s.conversations, p.conversation, c');
    DeleteMessageCall(st, op, p, k);
    PutPublished(st, op, p.scope, s', st.activeScopeKey, {TargetKey(op.from.scopeKey, op.from.conversationId)});
  }

  lemma CutLength<T>(xs: seq<T>, k: nat)
    requires k < |xs|
    ensures |Cut(xs, k)| == |xs| - 1
  {
  }

  lemma DistinctMessages(st: State, p: Place)
    requires Inv(st) && ValidPlace(st.scopes, p)
    ensures var ms := st.scopes[p.scope].conversations[p.conversation].messages;
      forall i, j :: 0 <= i < j < |ms| ==> ms[i].id != ms[j].id && ms[i].createdOrder < ms[j].createdOrder
  {
    var s := st.scopes[p.scope];
    assert Holds(st.scopes, s, s.conversations[p.conversation]);
    assert ConversationOk(s.conversations[p.conversation], st.revision);
  }

  lemma MessageFound(ms: seq<Message>, k: nat)
    requires k < |ms| && forall i, j :: 0 <= i < j < |ms| ==> ms[i].id != ms[j].id
    ensures FindMessage(ms, ms[k].id) == Some(k)
  {
  }

  lemma DeleteMessageCall(st: State, op: Op, p: Place, k: nat)
    requires Inv(st) && op.DeleteMessage? && IsOpaqueTarget(op.from) && IsOpaqueId(op.deletedId)
    requires PlaceOf(st.scopes, p, op.from) && Shape(st.scopes)
    requires var ms := st.scopes[p.scope].conversations[p.conversation].messages; k < |ms| && ms[k].id == op.deletedId
    ensures var c := st.scopes[p.scope].conversations[p.conversation];
      var draft := Rewritten(st, p, c.(messages := Cut(c.messages, k), updatedOrder := st.revision + 1));
      && Shape(draft)
      && CallOf(st, op) == Ok(Commit(st.activeScopeKey, draft, {TargetKey(op.from.scopeKey, op.from.conversationId)}))
  {
    hide Inv, Shape, IsOpaqueText, FindTarget, FindMessage, Cut, WithoutMessage;
    var c := st.scopes[p.scope].conversations[p.conversation];
    PlaceIsFound(st.scopes, p, op.from);
    DistinctMessages(st, p);
    MessageFound(c.messages, k);
    WithoutMessageIsCut(c.messages, k);
    PutConversationShape(st.scopes, p, c.(messages := Cut(c.messages, k), updatedOrder := st.revision + 1), st.revision + 1);
  }

  /** Where there is no such message, or no such target, nothing changes; malformed ids
      throw. */
  lemma DeleteMessageElse(st: State, op: Op)
    requires Inv(st) && op.DeleteMessage?
    ensures Shape(st.scopes)
    ensures Apply(st, op).Err? <==> !IsOpaqueTarget(op.from) || !IsOpaqueId(op.deletedId)
    ensures Apply(st, op).Ok? && Apply(st, op) != Ok(st) ==>
      var found := FindTarget(st.scopes, op.from);
      found.Some? && HasMessage(st.scopes[found.value.scope].conversations[found.value.conversation].messages, op.deletedId)
  {
    hide Inv, Shape, Apply, CallOf, IsOpaqueText, FindTarget, FindMessage;
    InvIsLight(st);
    DeleteMessageNot(st, op);
    if IsOpaqueTarget(op.from) && IsOpaqueId(op.deletedId) && FindTarget(st.scopes, op.from).Some? {
      var p := FindTarget(st.scopes, op.from).value;
      var c := st.scopes[p.scope].conversations[p.conversation];
      if FindMessage(c.messages, op.deletedId).Some? {
        var k := FindMessage(c.messages, op.deletedId).value;
        DeleteMessageEffect(st, op, p, k);
        assert c.messages[k] in c.messages;
      }
    }
  }

  ghost predicate HasMessage(ms: seq<Message>, id: string) {
    exists m :: m in ms && m.id == id
  }

  lemma DeleteMessageNot(st: State, op: Op)
    requires Shape(st.scopes) && op.DeleteMessage?
    ensures !IsOpaqueTarget(op.from) || !IsOpaqueId(op.deletedId) ==> Apply(st, op).Err?
    ensures IsOpaqueTarget(op.from) && IsOpaqueId(op.deletedId) ==>
      var found := FindTarget(st.scopes, op.from);
      (found.None?
       || FindMessage(st.scopes[found.value.scope].conversations[found.value.conversation].messages, op.deletedId).None?) ==>
        Apply(st, op) == Ok(st)
  {
    hide Shape, IsOpaqueText, FindTarget, FindMessage, CallDeleteMessage, CallOf, Apply;
    DeleteMessageCallElse(st, op.from, op.deletedId);
    CallOfEdits(st, op);
    ApplyOfCall(st, op);
  }

  lemma CallOfEdits(st: State, op: Op)
    requires Shape(st.scopes)
    ensures op.Append? ==> CallOf(st, op) == CallAppend(st, op.at, op.input, op.nfkc)
    ensures op.Update? ==> CallOf(st, op) == CallUpdate(st, op.within, op.messageId, op.change)
    ensures op.DeleteMessage? ==> CallOf(st, op) == CallDeleteMessage(st, op.from, op.deletedId)
  {
    hide Shape, CallActivate, CallCreate, CallSwitch, CallDelete, CallAppend, CallUpdate, CallDeleteMessage;
  }

  lemma ApplyOfCall(st: State, op: Op)
    requires Shape(st.scopes)
    ensures CallOf(st, op).Err? ==> Apply(st, op).Err?
    ensures CallOf(st, op) == Ok(Same) ==> Apply(st, op) == Ok(st)
  {
    hide Shape, CallOf, Finish;
  }

  lemma DeleteMessageCallElse(st: State, t: Target, id: string)
    requires Shape(st.scopes)
    ensures !IsOpaqueTarget(t) || !IsOpaqueId(id) ==> CallDeleteMessage(st, t, id).Err?
    ensures IsOpaqueTarget(t) && IsOpaqueId(id) && FindTarget(st.scopes, t).None? ==> CallDeleteMessage(st, t, id) == Ok(Same)
    ensures IsOpaqueTarget(t) && IsOpaqueId(id) && FindTarget(st.scopes, t).Some? ==>
      var p := FindTarget(st.scopes, t).value;
      FindMessage(st.scopes[p.scope].conversations[p.conversation].messages, id).None? ==>
        CallDeleteMessage(st, t, id) == Ok(Same)
  {
    hide Shape, IsOpaqueText, FindTarget, FindMessage, DeleteIn, CommitConversation;
    if FindTarget(st.scopes, t).Some? {
      var p := FindTarget(st.scopes, t).value;
      DeleteInNone(st.scopes[p.scope].conversations[p.conversation], id, st.revision + 1);
    }
  }

  lemma DeleteInNone(c: Conversation, id: string, order: nat)
    ensures FindMessage(c.messages, id).None? ==> DeleteIn(c, id, order) == Ok(None)
  {
  }

  // ----- deleting a conversation -----

  lemma CutCons<T>(xs: seq<T>, k: nat)
    requires k < |xs|
    ensures Cut(xs, k) == if k == 0 then xs[1..] else [xs[0]] + Cut(xs[1..], k - 1)
  {
  }

  lemma WithoutCons(cs: seq<Conversation>, id: string)
    requires cs != []
    ensures Without(cs, id) == if cs[0].id == id then Without(cs[1..], id) else [cs[0]] + Without(cs[1..], id)
  {
  }

  lemma WithoutNone(cs: seq<Conversation>, id: string)
    requires forall c :: c in cs ==> c.id != id
    ensures Without(cs, id) == cs
  {
  }

  lemma {:induction false} WithoutIsCut(cs: seq<Conversation>, j: nat)
    requires UniqueIds(cs) && j < |cs|
    ensures Without(cs, cs[j].id) == Cut(cs, j)
  {
    hide UniqueIds, Without, Cut;
    UniqueTail(cs);
    WithoutCons(cs, cs[j].id);
    CutCons(cs, j);
    if j == 0 {
      WithoutNone(cs[1..], cs[0].id);
    } else {
      assert cs[j] == cs[1..][j - 1] && cs[1..][j - 1] in cs[1..];
      WithoutIsCut(cs[1..], j - 1);
    }
  }

  lemma WithoutScopeCons(scopes: seq<Scope>, key: string)
    requires scopes != []
    ensures WithoutScope(scopes, key) ==
      if scopes[0].key == key then WithoutScope(scopes[1..], key) else [scopes[0]] + WithoutScope(scopes[1..], key)
  {
  }

  lemma WithoutScopeNone(scopes: seq<Scope>, key: string)
    requires forall s :: s in scopes ==> s.key != key
    ensures WithoutScope(scopes, key) == scopes
  {
  }

  lemma {:induction false} WithoutScopeIsCut(scopes: seq<Scope>, i: nat)
    requires UniqueKeys(scopes) && i < |scopes|
    ensures WithoutScope(scopes, scopes[i].key) == Cut(scopes, i)
  {
    hide UniqueKeys, WithoutScope, Cut;
    UniqueKeysTail(scopes);
    WithoutScopeCons(scopes, scopes[i].key);
    CutCons(scopes, i);
    if i == 0 {
      WithoutScopeNone(scopes[1..], scopes[0].key);
    } else {
      assert scopes[i] == scopes[1..][i - 1] && scopes[1..][i - 1] in scopes[1..];
      WithoutScopeIsCut(scopes[1..], i - 1);
    }
  }

  /** An unused conversation of this id. */
  ghost function Fresh(id: string, order: nat): Conversation {
    Conversation(id, "", false, [], order, order)
  }

  /** The one that was active, or one used as lately as any if that one is gone. */
  ghost predicate StaysActive(activeId: string, was: string, cs: seq<Conversation>) {
    if HasId(cs, was) then activeId == was
    else exists a :: a in cs && a.id == activeId && forall c :: c in cs ==> c.updatedOrder <= a.updatedOrder
  }

  /** Deleting a conversation next to others takes it out and marks its scope as used; if
      it was the scope's active one, one used as lately as any becomes active. */
  lemma DeleteEffect(st: State, op: Op, p: Place) returns (activeId: string)
    requires Inv(st) && op.Delete? && IsOpaqueTarget(op.gone) && PlaceOf(st.scopes, p, op.gone)
    requires |st.scopes[p.scope].conversations| > 1
    ensures Shape(st.scopes)
    ensures var s, order := st.scopes[p.scope], st.revision + 1;
      var cs := Cut(s.conversations, p.conversation);
      var draft := st.scopes[p.scope := s.(conversations := cs, activeId := activeId, updatedOrder := order)];
      StaysActive(activeId, s.activeId, cs) && Apply(st, op) == Ok(State(st.activeScopeKey, draft, order, TextBytes(draft)))
  {
    hide Inv, Shape, CallOf, Apply, IsOpaqueText, ConversationBodies, ConversationsBytes, LighterIn, TextBytes, StaysActive;
    InvIsLight(st);
    var s, order := st.scopes[p.scope], st.revision + 1;
    ScopeIds(st, p.scope);
    activeId := DropEffect(s, p.conversation);
    WithoutIsCut(s.conversations, p.conversation);
    ScopeBodies(st.scopes, p.scope);
    WithoutLighter(s.conversations, op.gone.conversationId);
    ShortMessages(st, p.scope);
    CutShort(s.conversations, p.conversation);
    var s' := s.(conversations := Cut(s.conversations, p.conversation), activeId := activeId, updatedOrder := order);
    DeleteCallIs(st, op, p, s');
    PutPublished(st, op, p.scope, s', st.activeScopeKey, {TargetKey(s.key, activeId)});
  }

  lemma ScopeIds(st: State, i: nat)
    requires Inv(st) && i < |st.scopes|
    ensures ScopeShape(st.scopes[i]) && UniqueIds(st.scopes[i].conversations)
  {
    assert ScopeShape(st.scopes[i]);
  }

  lemma CutShort(cs: seq<Conversation>, j: nat)
    requires j < |cs| && forall c :: c in cs ==> |c.messages| <= 63
    ensures |Cut(cs, j)| == |cs| - 1 && forall c :: c in Cut(cs, j) ==> |c.messages| <= 63
  {
  }

  lemma DropEffect(s: Scope, j: nat) returns (activeId: string)
    requires ScopeShape(s) && j < |s.conversations| && |s.conversations| > 1
    ensures Drop(s, s.conversations[j].id) == s.(conversations := Cut(s.conversations, j), activeId := activeId)
    ensures StaysActive(activeId, s.activeId, Cut(s.conversations, j))
  {
    var id, cs := s.conversations[j].id, Cut(s.conversations, j);
    WithoutIsCut(s.conversations, j);
    assert |cs| == |s.conversations| - 1;
    activeId := if s.activeId == id then Newest(cs).id else s.activeId;
    assert HasId(cs, s.activeId) <==> s.activeId != id;
  }

  lemma DeleteCallIs(st: State, op: Op, p: Place, s': Scope)
    requires Shape(st.scopes) && op.Delete? && IsOpaqueTarget(op.gone) && PlaceOf(st.scopes, p, op.gone)
    requires var s := st.scopes[p.scope];
      && Drop(s, op.gone.conversationId) == s'.(updatedOrder := s.updatedOrder) && s'.updatedOrder == st.revision + 1
      && s'.conversations != [] && s'.key == s.key
    ensures CallOf(st, op) ==
      Ok(Commit(st.activeScopeKey, st.scopes[p.scope := s'], {TargetKey(st.scopes[p.scope].key, s'.activeId)}))
    ensures Shape(st.scopes[p.scope := s'])
  {
    hide Shape, IsOpaqueText, FindTarget, Drop, WithoutScope, DeleteFrom;
    PlaceIsFound(st.scopes, p, op.gone);
    DeleteFromDropped(st.scopes[p.scope], op.gone.conversationId, op.replacementId, s');
  }

  lemma DeleteFromDropped(s: Scope, id: string, replacementId: string, s': Scope)
    requires Drop(s, id) == s'.(updatedOrder := s.updatedOrder) && s'.conversations != []
    ensures DeleteFrom(s, id, replacementId, s'.updatedOrder) == s'
  {
  }

  /** Deleting the last conversation of a scope that is not active drops the scope; in the
      active scope an unused conversation takes its place, for which a malformed id throws. */
  lemma DeleteLastEffect(st: State, op: Op, p: Place)
    requires Inv(st) && op.Delete? && IsOpaqueTarget(op.gone) && PlaceOf(st.scopes, p, op.gone)
    requires |st.scopes[p.scope].conversations| == 1
    ensures Shape(st.scopes)
    ensures st.activeScopeKey != op.gone.scopeKey ==>
      var draft := Cut(st.scopes, p.scope);
      Apply(st, op) == Ok(State(st.activeScopeKey, draft, st.revision + 1, TextBytes(draft)))
    ensures st.activeScopeKey == op.gone.scopeKey && IsOpaqueId(op.replacementId) ==>
      var order := st.revision + 1;
      var draft := st.scopes[p.scope := st.scopes[p.scope].(
        conversations := [Fresh(op.replacementId, order)], activeId := op.replacementId, updatedOrder := order)];
      Apply(st, op) == Ok(State(st.activeScopeKey, draft, order, TextBytes(draft)))
    ensures st.activeScopeKey == op.gone.scopeKey && !IsOpaqueId(op.replacementId) ==> Apply(st, op).Err?
  {
    hide Inv, Shape, CallOf, Apply, IsOpaqueText, ConversationBodies, ConversationsBytes, LighterIn, TextBytes;
    InvIsLight(st);
    ScopeIds(st, p.scope);
    DeleteLastCall(st, op, p);
    if st.activeScopeKey != op.gone.scopeKey {
      CutPublished(st, op, p);
    } else if IsOpaqueId(op.replacementId) {
      var s, order := st.scopes[p.scope], st.revision + 1;
      var s' := s.(conversations := [Fresh(op.replacementId, order)], activeId := op.replacementId, updatedOrder := order);
      ScopeBodies(st.scopes, p.scope);
      FreshIsLighter(s.conversations, op.replacementId, order);
      PutPublished(st, op, p.scope, s', st.activeScopeKey, {TargetKey(s.key, op.replacementId)});
    }
  }

  lemma FreshIsLighter(cs: seq<Conversation>, id: string, order: nat)
    requires NonNegative(ConversationBodies(cs))
    ensures LighterIn([Fresh(id, order)], cs)
  {
    BodyBytesConcat(ConversationBodies(cs), []);
    assert [Fresh(id, order)][1..] == [];
  }

  lemma DeleteLastCall(st: State, op: Op, p: Place)
    requires Shape(st.scopes) && op.Delete? && IsOpaqueTarget(op.gone) && PlaceOf(st.scopes, p, op.gone)
    requires |st.scopes[p.scope].conversations| == 1
    ensures st.activeScopeKey != op.gone.scopeKey ==>
      Shape(Cut(st.scopes, p.scope)) && CallOf(st, op) == Ok(Commit(st.activeScopeKey, Cut(st.scopes, p.scope), {}))
    ensures st.activeScopeKey == op.gone.scopeKey && IsOpaqueId(op.replacementId) ==>
      var s, order := st.scopes[p.scope], st.revision + 1;
      var s' := s.(conversations := [Fresh(op.replacementId, order)], activeId := op.replacementId, updatedOrder := order);
      && CallOf(st, op) == Ok(Commit(st.activeScopeKey, st.scopes[p.scope := s'], {TargetKey(s.key, op.replacementId)}))
      && Shape(st.scopes[p.scope := s'])
    ensures st.activeScopeKey == op.gone.scopeKey && !IsOpaqueId(op.replacementId) ==> Apply(st, op).Err?
  {
    hide Shape, IsOpaqueText, FindTarget, Drop, WithoutScope, DeleteFrom, UniqueKeys, Finish;
    PlaceIsFound(st.scopes, p, op.gone);
    OnlyOneDropped(st.scopes[p.scope], op.gone.conversationId, op.replacementId, st.revision + 1);
    ShapeKeys(st.scopes);
    WithoutScopeIsCut(st.scopes, p.scope);
    WithoutScopeShape(st.scopes, op.gone.scopeKey);
  }

  lemma ShapeKeys(scopes: seq<Scope>)
    requires Shape(scopes)
    ensures UniqueKeys(scopes)
  {
  }

  lemma OnlyOneDropped(s: Scope, id: string, replacementId: string, order: nat)
    requires |s.conversations| == 1 && s.conversations[0].id == id
    ensures Drop(s, id).conversations == []
    ensures DeleteFrom(s, id, replacementId, order) ==
      s.(conversations := [Fresh(replacementId, order)], activeId := replacementId, updatedOrder := order)
  {
    WithoutCons(s.conversations, id);
    WithoutNone(s.conversations[1..], id);
  }

  /** A store that lost one scope is published as it is. */
  lemma CutPublished(st: State, op: Op, p: Place)
    requires Inv(st) && p.scope < |st.scopes| && Shape(st.scopes) && Shape(Cut(st.scopes, p.scope))
    requires CallOf(st, op) == Ok(Commit(st.activeScopeKey, Cut(st.scopes, p.scope), {}))
    ensures var draft := Cut(st.scopes, p.scope);
      Apply(st, op) == Ok(State(st.activeScopeKey, draft, st.revision + 1, TextBytes(draft)))
  {
    hide Inv, Shape, CallOf, Apply, Finish, Light, Bodies, TextBytes, ScopeShape;
    var draft := Cut(st.scopes, p.scope);
    InvIsLight(st);
    InvParts(st);
    WithoutScopeIsCut(st.scopes, p.scope);
    WithoutScopeLighter(st.scopes, st.scopes[p.scope].key);
    LighterIsLight(draft, st.scopes);
    forall s, c | Holds(draft, s, c)
      ensures |c.messages| <= 63
    {
      assert Holds(st.scopes, s, c);
    }
    ApplyIsFinish(st, op, Commit(st.activeScopeKey, draft, {}));
    FinishIdle(st.activeScopeKey, draft, st.revision + 1, {});
  }

  /** A target that is not there leaves the store as it is; a malformed one throws. */
  lemma DeleteElse(st: State, op: Op)
    requires Shape(st.scopes) && op.Delete?
    ensures !IsOpaqueTarget(op.gone) ==> Apply(st, op).Err?
    ensures IsOpaqueTarget(op.gone) && FindTarget(st.scopes, op.gone).None? ==> Apply(st, op) == Ok(st)
  {
    hide Shape, IsOpaqueText, FindTarget, Finish, DeleteFrom, WithoutScope;
  }

  // ----- opening a scope -----

  ghost function FreshScope(key: string, id: string, order: nat): Scope {
    Scope(key, id, [Fresh(id, order)], order, order)
  }

  /** The store with a scope that holds one unused conversation, in place of the scope at
      `i` if there were twelve. */
  ghost function Opened(scopes: seq<Scope>, i: nat, added: Scope): seq<Scope> {
    (if |scopes| == 12 && i < 12 then Cut(scopes, i) else scopes) + [added]
  }

  lemma {:induction false} PushedFresh(scopes: seq<Scope>, added: Scope, id: string, order: nat)
    requires added == FreshScope(added.key, id, order)
    ensures TextBytes(scopes + [added]) == TextBytes(scopes) && Bodies(scopes + [added]) == Bodies(scopes)
  {
    hide ConversationBodies, ConversationsBytes;
    if scopes == [] {
      FreshWeighsNothing(id, order);
      assert [added][1..] == [] && [] + [added] == [added];
    } else {
      PushedFresh(scopes[1..], added, id, order);
      assert (scopes + [added])[1..] == scopes[1..] + [added];
    }
  }

  lemma FreshWeighsNothing(id: string, order: nat)
    ensures ConversationsBytes([Fresh(id, order)]) == 0 && ConversationBodies([Fresh(id, order)]) == []
  {
    assert [Fresh(id, order)][1..] == [];
  }

  lemma PushedCounts(scopes: seq<Scope>, added: Scope, id: string, order: nat, draft: seq<Scope>)
    requires added == FreshScope(added.key, id, order) && draft == scopes + [added]
    requires forall s :: s in scopes ==> |s.conversations| <= 8
    requires forall s, c :: Holds(scopes, s, c) ==> |c.messages| <= 63
    ensures forall s :: s in draft ==> |s.conversations| <= 8
    ensures forall s, c :: Holds(draft, s, c) ==> |c.messages| <= 63
  {
    forall s, c | Holds(draft, s, c)
      ensures |c.messages| <= 63
    {
      assert s == added || Holds(scopes, s, c);
    }
  }

  /** Older than every other scope the predicate does not keep. */
  ghost predicate OldestUnkept(scopes: seq<Scope>, i: nat, kept: set<string>) {
    && i < |scopes| && !ScopeProtected(kept, scopes[i].key)
    && forall j :: 0 <= j < |scopes| && j != i && !ScopeProtected(kept, scopes[j].key) ==>
      scopes[i].updatedOrder < scopes[j].updatedOrder
  }

  /** The scope the cap takes, of thirteen. */
  lemma VictimScope(draft: seq<Scope>, activeKey: string, protectedTargets: set<string>) returns (i: nat)
    requires |draft| == 13 && UniqueKeys(draft) && CapScopes(draft, activeKey, protectedTargets).Some?
    ensures i < |draft| && draft[i].key != activeKey && !ScopeProtected(protectedTargets, draft[i].key)
    ensures CapScopes(draft, activeKey, protectedTargets) == Some(Cut(draft, i))
    ensures ScopeCandidates(draft, activeKey, protectedTargets) != []
    ensures Oldest(ScopeCandidates(draft, activeKey, protectedTargets))
      == Candidate(draft[i].key, "", draft[i].updatedOrder, draft[i].createdOrder)
  {
    hide UniqueKeys, ScopeProtected;
    var victim := Oldest(ScopeCandidates(draft, activeKey, protectedTargets));
    var v :| v in draft && v.key != activeKey && !ScopeProtected(protectedTargets, v.key)
      && victim == Candidate(v.key, "", v.updatedOrder, v.createdOrder);
    i :| 0 <= i < |draft| && draft[i] == v;
    WithoutScopeIsCut(draft, i);
    CutLength(draft, i);
  }

  lemma CapOneScopeOff(
    scopes: seq<Scope>, added: Scope, protectedTargets: set<string>, draft: seq<Scope>) returns (i: nat)
    requires |scopes| == 12 && draft == scopes + [added] && UniqueKeys(draft) && DistinctScopes(draft)
    requires CapScopes(draft, added.key, protectedTargets).Some?
    ensures OldestUnkept(scopes, i, protectedTargets)
    ensures CapScopes(draft, added.key, protectedTargets) == Some(Opened(scopes, i, added))
  {
    hide UniqueKeys, DistinctScopes, CapScopes, ScopeCandidates, Oldest, ScopeProtected;
    i := VictimScope(draft, added.key, protectedTargets);
    assert i < 12 && Cut(draft, i) == Cut(scopes, i) + [added];
    forall j | 0 <= j < |scopes| && j != i && !ScopeProtected(protectedTargets, scopes[j].key)
      ensures scopes[i].updatedOrder < scopes[j].updatedOrder
    {
      LastKey(scopes, added, draft, j);
      OlderVictim(draft, added.key, protectedTargets, i, j);
    }
  }

  lemma LastKey(scopes: seq<Scope>, added: Scope, draft: seq<Scope>, j: nat)
    requires draft == scopes + [added] && UniqueKeys(draft) && j < |scopes|
    ensures draft[j] == scopes[j] && scopes[j].key != added.key
  {
    assert draft[|scopes|] == added;
  }

  lemma OlderVictim(draft: seq<Scope>, activeKey: string, protectedTargets: set<string>, i: nat, j: nat)
    requires UniqueKeys(draft) && DistinctScopes(draft) && i < |draft| && j < |draft| && i != j
    requires draft[j].key != activeKey && !ScopeProtected(protectedTargets, draft[j].key)
    requires ScopeCandidates(draft, activeKey, protectedTargets) != []
    requires Oldest(ScopeCandidates(draft, activeKey, protectedTargets))
      == Candidate(draft[i].key, "", draft[i].updatedOrder, draft[i].createdOrder)
    ensures draft[i].updatedOrder < draft[j].updatedOrder
  {
    assert draft[j] in draft && draft[i] in draft;
    assert !Before(Candidate(draft[j].key, "", draft[j].updatedOrder, draft[j].createdOrder),
                   Candidate(draft[i].key, "", draft[i].updatedOrder, draft[i].createdOrder));
    assert draft[i].key != draft[j].key;
  }

  lemma NewScopeIs(key: string, id: string, order: nat)
    ensures NewScope(key, id, order) == FreshScope(key, id, order)
  {
  }

  lemma DraftDistinctScopes(draft: seq<Scope>, revision: nat)
    requires Content(draft, revision)
    ensures DistinctScopes(draft)
  {
    forall a, b | a in draft && b in draft && a.updatedOrder == b.updatedOrder
      ensures a.key == b.key
    {
      assert Slot(a.key, "", a.updatedOrder) in ScopeSlots(draft) && Slot(b.key, "", b.updatedOrder) in ScopeSlots(draft);
    }
  }

  /** Publishing a new scope takes the oldest one that is not kept, if there are twelve,
      and nothing else. */
  lemma OpenedPublished(st: State, op: Op, key: string, id: string, protectedTargets: set<string>) returns (i: nat)
    requires Inv(st) && Shape(st.scopes) && IsScopeKey(key) && IsOpaqueId(id) && !HasKey(st.scopes, key)
    requires CallOf(st, op) == Ok(Commit(key, st.scopes + [NewScope(key, id, st.revision + 1)], protectedTargets))
    requires Apply(st, op).Ok?
    ensures |st.scopes| == 12 ==> OldestUnkept(st.scopes, i, protectedTargets)
    ensures var scopes := Opened(st.scopes, i, FreshScope(key, id, st.revision + 1));
      Apply(st, op) == Ok(State(key, scopes, st.revision + 1, TextBytes(scopes)))
  {
    hide Inv, Shape, CallOf, Apply, Finish, Bodies, TextBytes, IsOpaqueText, HasKey, DraftReady, OldestUnkept, UniqueKeys;
    hide EnforceBounds;
    var order, added := st.revision + 1, FreshScope(key, id, st.revision + 1);
    var draft := st.scopes + [added];
    NewScopeIs(key, id, order);
    InvIsLight(st);
    PushedFresh(st.scopes, added, id, order);
    PushedCounts(st.scopes, added, id, order, draft);
    ReadyDraft(st, op, Commit(key, draft, protectedTargets));
    ApplyIsFinish(st, op, Commit(key, draft, protectedTargets));
    if |st.scopes| < 12 {
      i := 0;
      FinishIdle(key, draft, order, protectedTargets);
    } else {
      i := OneScopeOff(st.scopes, added, draft, order, protectedTargets);
    }
  }

  lemma ReadyFacts(draft: seq<Scope>, activeKey: string, protectedTargets: set<string>, order: nat)
    requires DraftReady(draft, activeKey, protectedTargets, order)
    ensures Content(draft, order) && UniqueKeys(draft) && DistinctScopes(draft)
  {
    DraftDistinctScopes(draft, order);
  }

  lemma OneScopeOff(scopes: seq<Scope>, added: Scope, draft: seq<Scope>, order: nat, protectedTargets: set<string>)
    returns (i: nat)
    requires |scopes| == 12 && draft == scopes + [added] && DraftReady(draft, added.key, protectedTargets, order)
    requires Shape(draft) && Light(draft) && NonNegative(Bodies(draft))
    requires forall s :: s in draft ==> |s.conversations| <= 8
    requires forall s, c :: Holds(draft, s, c) ==> |c.messages| <= 63
    requires EnforceBounds(draft, added.key, protectedTargets).Some?
    ensures OldestUnkept(scopes, i, protectedTargets)
    ensures EnforceBounds(draft, added.key, protectedTargets) == Some(Opened(scopes, i, added))
  {
    hide DraftReady, Shape, Light, NonNegative, Bodies, UniqueKeys, DistinctScopes, CapAll, CapScopes, EnforceBounds, OldestUnkept;
    ReadyFacts(draft, added.key, protectedTargets, order);
    PassOnlyCaps(draft, added.key, protectedTargets);
    CapAllIdle(draft, protectedTargets);
    i := CapOneScopeOff(scopes, added, protectedTargets, draft);
  }

  lemma CapAllIdle(draft: seq<Scope>, protectedTargets: set<string>)
    requires forall s :: s in draft ==> |s.conversations| <= 8
    requires forall s, c :: Holds(draft, s, c) ==> |c.messages| <= 63
    ensures CapAll(draft, protectedTargets) == Some(draft)
  {
    hide CapAll;
    forall i | 0 <= i < |draft|
      ensures CapConversations(TrimScope(draft[i]), protectedTargets) == Some(draft[i])
    {
      forall c | c in draft[i].conversations ensures |c.messages| <= MAX_MESSAGES {
        assert Holds(draft, draft[i], c);
      }
      TrimIdle(draft[i]);
    }
    CapAllIs(draft, protectedTargets, draft);
  }

  /** Named by a request in flight. */
  ghost predicate InFlight(targets: seq<Target>, key: string) {
    exists i :: 0 <= i < |targets| && targets[i].scopeKey == key
  }

  /** Activating a new scope adds it, active and with one unused conversation. Of twelve
      scopes the oldest without a request in flight goes; nothing else changes. */
  lemma ActivateNewEffect(st: State, op: Op) returns (i: nat)
    requires Inv(st) && op.Activate? && ScopeKey(op.terminal).Ok? && !HasKey(st.scopes, ScopeKey(op.terminal).value)
    requires IsOpaqueId(op.conversationId) && ProtectedKeys(op.inFlight).Ok?
    requires |st.scopes| == 12 ==> exists s :: s in st.scopes && !InFlight(op.inFlight, s.key)
    ensures Shape(st.scopes)
    ensures |st.scopes| == 12 ==> i < 12 && !InFlight(op.inFlight, st.scopes[i].key)
    ensures |st.scopes| == 12 ==>
      forall j :: 0 <= j < 12 && j != i && !InFlight(op.inFlight, st.scopes[j].key) ==>
        st.scopes[i].updatedOrder < st.scopes[j].updatedOrder
    ensures var key := ScopeKey(op.terminal).value;
      var scopes := Opened(st.scopes, i, FreshScope(key, op.conversationId, st.revision + 1));
      Apply(st, op) == Ok(State(key, scopes, st.revision + 1, TextBytes(scopes)))
  {
    hide Inv, Shape, CallOf, Apply, IsOpaqueText, HasKey, OldestUnkept, UniqueKeys, ScopeKey, ProtectedKeys, TextBytes, Opened;
    InvIsLight(st);
    var key, kept := ScopeKey(op.terminal).value, ProtectedKeys(op.inFlight).value;
    NewActivationCall(st, op);
    NewActivationAccepted(st, op);
    ValidKey(op.terminal);
    i := OpenedPublished(st, op, key, op.conversationId, kept);
    if |st.scopes| == 12 {
      KeptInFlight(st, i, op.inFlight);
    }
  }

  lemma ValidKey(terminal: Option<TerminalScope>)
    requires ScopeKey(terminal).Ok?
    ensures IsScopeKey(ScopeKey(terminal).value)
  {
    NoTerminalKeyIsValid();
  }

  lemma KeptInFlight(st: State, i: nat, targets: seq<Target>)
    requires Inv(st) && ProtectedKeys(targets).Ok? && OldestUnkept(st.scopes, i, ProtectedKeys(targets).value)
    ensures i < |st.scopes| && !InFlight(targets, st.scopes[i].key)
    ensures forall j :: 0 <= j < |st.scopes| && j != i && !InFlight(targets, st.scopes[j].key) ==>
      st.scopes[i].updatedOrder < st.scopes[j].updatedOrder
  {
    forall j | 0 <= j < |st.scopes|
      ensures ScopeProtected(ProtectedKeys(targets).value, st.scopes[j].key) <==> InFlight(targets, st.scopes[j].key)
    {
      assert ScopeOk(st.scopes[j], st.revision);
      ProtectedKeysExact(targets, st.scopes[j].key);
    }
    hide Inv, ProtectedKeys, ScopeProtected;
  }

  lemma NewActivationCall(st: State, op: Op)
    requires Shape(st.scopes) && op.Activate? && ScopeKey(op.terminal).Ok?
    requires !HasKey(st.scopes, ScopeKey(op.terminal).value)
    requires IsOpaqueId(op.conversationId) && ProtectedKeys(op.inFlight).Ok?
    ensures var key := ScopeKey(op.terminal).value;
      CallOf(st, op) == Ok(Commit(
        key, st.scopes + [NewScope(key, op.conversationId, st.revision + 1)], ProtectedKeys(op.inFlight).value))
  {
    hide Shape, IsOpaqueText, ScopeKey, ProtectedKeys, NewScope;
  }

  lemma NewActivationAccepted(st: State, op: Op)
    requires Inv(st) && Shape(st.scopes) && op.Activate? && CallOf(st, op).Ok? && CallOf(st, op).value.Commit?
    requires |st.scopes| == 12 ==> exists s :: s in st.scopes && !InFlight(op.inFlight, s.key)
    ensures Apply(st, op).Ok?
  {
    ActivationThrows(st, op);
    hide Inv, Shape, Apply, CallOf, Finish, ScopeKey, IsOpaqueText, HasKey, ProtectedKeys;
    ReadyDraft(st, op, CallOf(st, op).value);
    ApplyIsFinish(st, op, CallOf(st, op).value);
    InvParts(st);
    SomeIdle(st.scopes, op.inFlight);
    hide AllInFlight;
  }

  lemma SomeIdle(scopes: seq<Scope>, targets: seq<Target>)
    ensures AllInFlight(scopes, targets) <==> !exists s :: s in scopes && !InFlight(targets, s.key)
  {
    forall s | s in scopes
      ensures InFlight(targets, s.key) <==> exists i :: 0 <= i < |targets| && targets[i].scopeKey == s.key
    {
    }
  }

  /** Otherwise activation throws: for an invalid terminal, an invalid id of a new scope's
      conversation, or an invalid target in flight. */
  lemma ActivateRefused(st: State, op: Op)
    requires Shape(st.scopes) && op.Activate?
    requires || ScopeKey(op.terminal).Err?
      || (!HasKey(st.scopes, ScopeKey(op.terminal).value) && (!IsOpaqueId(op.conversationId) || ProtectedKeys(op.inFlight).Err?))
    ensures Apply(st, op).Err?
  {
    hide Shape, IsOpaqueText, ScopeKey, ProtectedKeys, Finish;
  }

  // ----- creating a conversation -----

  lemma CommitAccepted(st: State, op: Op, call: Step)
    requires Inv(st) && Shape(st.scopes) && !op.Activate? && CallOf(st, op) == Ok(call) && call.Commit?
    ensures Apply(st, op).Ok?
  {
    hide Inv, Shape, Apply, CallOf, DraftReady;
    ReadyDraft(st, op, call);
    hide Finish;
    ApplyIsFinish(st, op, call);
    CommitNeverThrows(st, op, call);
  }

  /** Creating in a new scope adds it, active and with the one new conversation. Of twelve
      scopes the oldest goes; nothing else changes. */
  lemma CreateNewEffect(st: State, op: Op) returns (i: nat)
    requires Inv(st) && op.Create? && IsScopeKey(op.scopeKey) && IsOpaqueId(op.newId) && !HasKey(st.scopes, op.scopeKey)
    ensures Shape(st.scopes)
    ensures |st.scopes| == 12 ==> i < 12
    ensures |st.scopes| == 12 ==>
      forall j :: 0 <= j < 12 && j != i ==> st.scopes[i].updatedOrder < st.scopes[j].updatedOrder
    ensures var scopes := Opened(st.scopes, i, FreshScope(op.scopeKey, op.newId, st.revision + 1));
      Apply(st, op) == Ok(State(op.scopeKey, scopes, st.revision + 1, TextBytes(scopes)))
  {
    hide Inv, Shape, CallOf, Apply, IsOpaqueText, HasKey, OldestUnkept, UniqueKeys, TextBytes, Opened;
    InvIsLight(st);
    NewCreationCall(st, op);
    CommitAccepted(st, op, CallOf(st, op).value);
    i := OpenedPublished(st, op, op.scopeKey, op.newId, {TargetKey(op.scopeKey, op.newId)});
    if |st.scopes| == 12 {
      OnlyNewKept(st, i, op.scopeKey, op.newId);
    }
  }

  lemma NewCreationCall(st: State, op: Op)
    requires Shape(st.scopes) && op.Create? && IsScopeKey(op.scopeKey) && IsOpaqueId(op.newId) && !HasKey(st.scopes, op.scopeKey)
    ensures CallOf(st, op) == Ok(Commit(
      op.scopeKey, st.scopes + [NewScope(op.scopeKey, op.newId, st.revision + 1)], {TargetKey(op.scopeKey, op.newId)}))
  {
    hide Shape, IsOpaqueText, NewScope, FindConversation;
  }

  lemma OnlyNewKept(st: State, i: nat, key: string, id: string)
    requires Inv(st) && IsScopeKey(key) && !HasKey(st.scopes, key) && OldestUnkept(st.scopes, i, {TargetKey(key, id)})
    ensures i < |st.scopes|
    ensures forall j :: 0 <= j < |st.scopes| && j != i ==> st.scopes[i].updatedOrder < st.scopes[j].updatedOrder
  {
    forall j | 0 <= j < |st.scopes|
      ensures !ScopeProtected({TargetKey(key, id)}, st.scopes[j].key)
    {
      assert ScopeOk(st.scopes[j], st.revision) && st.scopes[j] in st.scopes;
      ProtectionPrefixExact(key, id, st.scopes[j].key);
    }
    hide Inv, ScopeProtected;
  }

  /** The conversations with one unused one added, in place of the one at `k` if there
      were eight. */
  ghost function Extended(cs: seq<Conversation>, k: nat, added: Conversation): seq<Conversation> {
    (if |cs| == 8 && k < 8 then Cut(cs, k) else cs) + [added]
  }

  /** Creating in an existing scope adds the conversation and makes it and the scope
      active. Of eight conversations the oldest goes; nothing else changes. */
  lemma CreateInEffect(st: State, op: Op, i: nat) returns (k: nat)
    requires Inv(st) && op.Create? && IsScopeKey(op.scopeKey) && IsOpaqueId(op.newId)
    requires i < |st.scopes| && st.scopes[i].key == op.scopeKey && !HasId(st.scopes[i].conversations, op.newId)
    ensures Shape(st.scopes)
    ensures var cs := st.scopes[i].conversations;
      |cs| == 8 ==> k < 8 && forall j :: 0 <= j < 8 && j != k ==> cs[k].updatedOrder < cs[j].updatedOrder
    ensures var s, order := st.scopes[i], st.revision + 1;
      var cs := Extended(s.conversations, k, Fresh(op.newId, order));
      var scopes := st.scopes[i := s.(conversations := cs, activeId := op.newId, updatedOrder := order)];
      Apply(st, op) == Ok(State(op.scopeKey, scopes, order, TextBytes(scopes)))
  {
    hide Inv, Shape, CallOf, Apply, Finish, IsOpaqueText, UniqueKeys, TextBytes, Bodies, ConversationBodies, ConversationsBytes;
    hide HasId, EnforceBounds, ScopeShape, UniqueIds;
    InvIsLight(st);
    var s, order := st.scopes[i], st.revision + 1;
    var all := s.(conversations := s.conversations + [Fresh(op.newId, order)], activeId := op.newId, updatedOrder := order);
    var draft, kept := st.scopes[i := all], {TargetKey(op.scopeKey, op.newId)};
    CreateInCall(st, op, i, all);
    CommitAccepted(st, op, CallOf(st, op).value);
    ApplyIsFinish(st, op, Commit(op.scopeKey, draft, kept));
    ReadyDraft(st, op, Commit(op.scopeKey, draft, kept));
    PushedConversation(s.conversations, op.newId, order);
    SameTextAndBodies(st.scopes, i, all);
    SameBodies(st.scopes, i, all);
    ShortMessages(st, i);
    if |s.conversations| < 8 {
      k := 0;
      PutCounts(st.scopes, i, all, draft);
      FinishIdle(op.scopeKey, draft, order, kept);
    } else {
      k := OneConversationOff(st, i, all, op.newId, kept);
    }
  }

  /** An invalid scope key or id, or an id the scope has already, throws. */
  lemma CreateRefused(st: State, op: Op)
    requires Shape(st.scopes) && op.Create?
    ensures !IsScopeKey(op.scopeKey) || !IsOpaqueId(op.newId) ==> Apply(st, op).Err?
    ensures forall i :: 0 <= i < |st.scopes| && st.scopes[i].key == op.scopeKey && HasId(st.scopes[i].conversations, op.newId) ==>
      Apply(st, op).Err?
  {
    forall i | 0 <= i < |st.scopes| && st.scopes[i].key == op.scopeKey
      ensures FindScope(st.scopes, op.scopeKey) == Some(i)
    {
      FoundScope(st.scopes, i);
    }
    hide Shape, IsOpaqueText, Finish, FindScope, FindConversation, CreateDraft;
  }

  lemma {:induction false} SameBodies(scopes: seq<Scope>, i: nat, s': Scope)
    requires i < |scopes| && ConversationBodies(s'.conversations) == ConversationBodies(scopes[i].conversations)
    ensures Bodies(scopes[i := s']) == Bodies(scopes)
  {
    hide ConversationBodies;
    if i > 0 {
      assert scopes[i := s'][1..] == scopes[1..][i - 1 := s'];
      SameBodies(scopes[1..], i - 1, s');
    } else {
      assert scopes[0 := s'][1..] == scopes[1..];
    }
  }

  lemma {:induction false} PushedConversation(cs: seq<Conversation>, id: string, order: nat)
    ensures ConversationsBytes(cs + [Fresh(id, order)]) == ConversationsBytes(cs)
    ensures ConversationBodies(cs + [Fresh(id, order)]) == ConversationBodies(cs)
  {
    hide MessagesBytes, MessageBodies, Fresh;
    if cs == [] {
      FreshWeighsNothing(id, order);
      assert [] + [Fresh(id, order)] == [Fresh(id, order)];
    } else {
      PushedConversation(cs[1..], id, order);
      assert (cs + [Fresh(id, order)])[1..] == cs[1..] + [Fresh(id, order)];
    }
  }

  lemma CreateInCall(st: State, op: Op, i: nat, all: Scope)
    requires Shape(st.scopes) && op.Create? && IsScopeKey(op.scopeKey) && IsOpaqueId(op.newId)
    requires i < |st.scopes| && st.scopes[i].key == op.scopeKey && !HasId(st.scopes[i].conversations, op.newId)
    requires var s := st.scopes[i];
      all == s.(conversations := s.conversations + [Fresh(op.newId, st.revision + 1)], activeId := op.newId,
                updatedOrder := st.revision + 1)
    ensures CallOf(st, op) == Ok(Commit(op.scopeKey, st.scopes[i := all], {TargetKey(op.scopeKey, op.newId)}))
    ensures Shape(st.scopes[i := all])
  {
    hide Shape, IsOpaqueText, FindScope, FindConversation, HasId, HasKey;
    FoundScope(st.scopes, i);
  }

  lemma OneConversationOff(st: State, i: nat, all: Scope, id: string, kept: set<string>) returns (k: nat)
    requires Inv(st) && i < |st.scopes| && |st.scopes[i].conversations| == 8
    requires var s := st.scopes[i];
      && all == s.(conversations := s.conversations + [Fresh(id, st.revision + 1)], activeId := id, updatedOrder := st.revision + 1)
      && kept == {TargetKey(s.key, id)}
    requires Shape(st.scopes[i := all]) && DraftReady(st.scopes[i := all], all.key, kept, st.revision + 1)
    requires TextBytes(st.scopes[i := all]) == TextBytes(st.scopes) && Bodies(st.scopes[i := all]) == Bodies(st.scopes)
    requires EnforceBounds(st.scopes[i := all], all.key, kept).Some?
    ensures var cs := st.scopes[i].conversations;
      && k < 8 && (forall j :: 0 <= j < 8 && j != k ==> cs[k].updatedOrder < cs[j].updatedOrder)
      && EnforceBounds(st.scopes[i := all], all.key, kept)
        == Some(st.scopes[i := all.(conversations := Extended(cs, k, Fresh(id, st.revision + 1)))])
  {
    hide Inv, Shape, DraftReady, EnforceBounds, TextBytes, Bodies, UniqueKeys, ScopeShape, UniqueIds, Extended, CapAll, CapScopes;
    hide Light, NonNegative, CapConversations;
    InvIsLight(st);
    var draft := st.scopes[i := all];
    ShortMessages(st, i);
    PutShort(st.scopes, i, all, draft);
    SameIsLight(draft, st.scopes);
    PassOnlyCaps(draft, all.key, kept);
    k := CapNine(st, i, all, id, kept);
    var capped := all.(conversations := Extended(st.scopes[i].conversations, k, Fresh(id, st.revision + 1)));
    CapAllAt(draft, kept, i, capped);
    FewScopesStay(draft[i := capped], all.key, kept);
    assert draft[i := capped] == st.scopes[i := capped];
  }

  lemma PutShort(scopes: seq<Scope>, i: nat, s': Scope, draft: seq<Scope>)
    requires i < |scopes| && draft == scopes[i := s'] && forall c :: c in s'.conversations ==> |c.messages| <= 63
    requires forall s, c :: Holds(scopes, s, c) ==> |c.messages| <= 63
    ensures forall s, c :: Holds(draft, s, c) ==> |c.messages| <= 63
  {
    forall s, c | Holds(draft, s, c)
      ensures |c.messages| <= 63
    {
      assert s == s' || Holds(scopes, s, c);
    }
  }

  lemma SameIsLight(a: seq<Scope>, b: seq<Scope>)
    requires TextBytes(a) == TextBytes(b) && Bodies(a) == Bodies(b) && Light(b)
    ensures Light(a)
  {
  }

  lemma FewScopesStay(scopes: seq<Scope>, activeKey: string, kept: set<string>)
    requires |scopes| <= 12
    ensures CapScopes(scopes, activeKey, kept) == Some(scopes)
  {
  }

  lemma CapAllAt(draft: seq<Scope>, kept: set<string>, i: nat, capped: Scope)
    requires i < |draft| && CapConversations(draft[i], kept) == Some(capped)
    requires forall j :: 0 <= j < |draft| && j != i ==> |draft[j].conversations| <= 8
    requires forall s, c :: Holds(draft, s, c) ==> |c.messages| <= 63
    ensures CapAll(draft, kept) == Some(draft[i := capped])
  {
    hide CapAll;
    forall j | 0 <= j < |draft|
      ensures CapConversations(TrimScope(draft[j]), kept) == Some(draft[i := capped][j])
    {
      forall c | c in draft[j].conversations ensures |c.messages| <= MAX_MESSAGES {
        assert Holds(draft, draft[j], c);
      }
      TrimIdle(draft[j]);
    }
    CapAllIs(draft, kept, draft[i := capped]);
  }

  /** Of nine conversations the cap takes the oldest, which is not the new one. */
  lemma CapNine(st: State, i: nat, all: Scope, id: string, kept: set<string>) returns (k: nat)
    requires Inv(st) && i < |st.scopes| && |st.scopes[i].conversations| == 8 && Shape(st.scopes[i := all])
    requires var s := st.scopes[i];
      && all == s.(conversations := s.conversations + [Fresh(id, st.revision + 1)], activeId := id, updatedOrder := st.revision + 1)
      && kept == {TargetKey(s.key, id)}
    ensures var cs := st.scopes[i].conversations;
      && k < 8 && (forall j :: 0 <= j < 8 && j != k ==> cs[k].updatedOrder < cs[j].updatedOrder)
      && CapConversations(all, kept) == Some(all.(conversations := Extended(cs, k, Fresh(id, st.revision + 1))))
  {
    hide Inv, Shape, UniqueIds, ScopeShape, CapConversations, Extended;
    NineIds(st, i, all);
    DistinctConversations(st, i);
    k := CapNineAt(st.scopes[i].conversations, all, Fresh(id, st.revision + 1), kept);
  }

  lemma CapNineAt(cs: seq<Conversation>, all: Scope, added: Conversation, kept: set<string>) returns (k: nat)
    requires |cs| == 8 && all.conversations == cs + [added] && all.activeId == added.id && kept == {TargetKey(all.key, added.id)}
    requires ScopeShape(all) && UniqueIds(all.conversations)
    requires forall i, j :: 0 <= i < 8 && 0 <= j < 8 && i != j ==> cs[i].updatedOrder != cs[j].updatedOrder
    ensures k < 8 && forall j :: 0 <= j < 8 && j != k ==> cs[k].updatedOrder < cs[j].updatedOrder
    ensures CapConversations(all, kept) == Some(all.(conversations := Extended(cs, k, added)))
  {
    hide UniqueIds, ScopeShape, CapConversations, Drop, TargetKey, CapsMore, IsSpared;
    forall j | 0 <= j < 8
      ensures all.conversations[j] == cs[j] && cs[j] in all.conversations && !IsSpared(all, cs[j].id, kept)
    {
      NotKept(all, cs, added, kept, j);
    }
    NineCapsMore(all, kept, cs[0]);
    var v := CapVictim(all, kept);
    k := VictimPlace(all, cs, added, kept, v);
    NineLessOne(all, k);
    EightStay(Drop(all, v.id), kept);
    assert Cut(all.conversations, k) == Cut(cs, k) + [added];
  }

  lemma EightStay(d: Scope, kept: set<string>)
    requires |d.conversations| == 8
    ensures !CapsMore(d, kept) && CapConversations(d, kept) == Some(d)
  {
  }

  lemma VictimPlace(all: Scope, cs: seq<Conversation>, added: Conversation, kept: set<string>, v: Conversation)
    returns (k: nat)
    requires |cs| == 8 && all.conversations == cs + [added] && all.activeId == added.id
    requires v in all.conversations && !IsSpared(all, v.id, kept)
    ensures k < 8 && cs[k] == v && all.conversations[k] == v && v.id != all.activeId
  {
    k :| 0 <= k < 9 && all.conversations[k] == v;
  }

  lemma NotKept(all: Scope, cs: seq<Conversation>, added: Conversation, kept: set<string>, j: nat)
    requires |cs| == 8 && all.conversations == cs + [added] && all.activeId == added.id && kept == {TargetKey(all.key, added.id)}
    requires UniqueIds(all.conversations) && j < 8
    ensures all.conversations[j] == cs[j] && cs[j] in all.conversations && !IsSpared(all, cs[j].id, kept)
  {
    assert all.conversations[j].id != all.conversations[8].id;
    TargetKeyOfSameScope(all.key, cs[j].id, added.id);
  }

  lemma NineIds(st: State, i: nat, all: Scope)
    requires i < |st.scopes| && Shape(st.scopes[i := all])
    ensures ScopeShape(all) && UniqueIds(all.conversations)
  {
    assert st.scopes[i := all][i] == all;
    assert all in st.scopes[i := all];
  }

  lemma DistinctConversations(st: State, i: nat)
    requires Inv(st) && i < |st.scopes|
    ensures var cs := st.scopes[i].conversations;
      forall j, k :: 0 <= j < |cs| && 0 <= k < |cs| && j != k ==> cs[j].updatedOrder != cs[k].updatedOrder
  {
    var s := st.scopes[i];
    ScopeIds(st, i);
    forall j, k | 0 <= j < |s.conversations| && 0 <= k < |s.conversations| && j != k
      ensures s.conversations[j].updatedOrder != s.conversations[k].updatedOrder
    {
      var a, b := s.conversations[j], s.conversations[k];
      assert a in s.conversations && b in s.conversations && s in st.scopes;
      assert Slot(s.key, a.id, a.updatedOrder) in ConversationSlots(st.scopes);
      assert Slot(s.key, b.id, b.updatedOrder) in ConversationSlots(st.scopes);
      assert a.id != b.id;
    }
  }

  lemma NineCapsMore(s: Scope, kept: set<string>, c: Conversation)
    requires |s.conversations| == 9 && c in s.conversations && !IsSpared(s, c.id, kept)
    ensures CapsMore(s, kept)
  {
    TargetKeyOfSameScope(s.key, c.id, s.activeId);
    assert AsCandidate(s.key, c) in Candidates(s.key, s.conversations, kept + {TargetKey(s.key, s.activeId)});
  }

  lemma NineLessOne(s: Scope, k: nat)
    requires UniqueIds(s.conversations) && |s.conversations| == 9 && k < 9 && s.conversations[k].id != s.activeId
    ensures Drop(s, s.conversations[k].id) == s.(conversations := Cut(s.conversations, k))
    ensures |Cut(s.conversations, k)| == 8
  {
    WithoutIsCut(s.conversations, k);
  }
}
