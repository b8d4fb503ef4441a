/** The exported transitions of src/aiConversationState.ts as functions from one
    published state to the next. A thrown error is `Err`, after which the caller
    still has the old state. */
module ConversationStore {
  import opened Text
  import opened ConversationKeys
  import opened ConversationModel
  import opened ConversationBounds

  datatype AttachmentInput = AttachmentInput(id: string, name: string, mimeType: MimeType, size: int, data: string)

  datatype MessageInput = MessageInput(
    id: string, role: Role, content: string, attachments: seq<AttachmentInput>, tool: Option<ToolActivity>)

  datatype MessageUpdate = MessageUpdate(role: Option<Role>, content: Option<string>, tool: Option<ToolActivity>)

  /** One call; conversation ids are the caller's or the generated one. `nfkc`
      stands for Unicode normalisation. */
  datatype Op =
    | Activate(terminal: Option<TerminalScope>, conversationId: string, inFlight: seq<Target>)
    | Create(scopeKey: string, newId: string)
    | Switch(to: Target)
    | Delete(gone: Target, replacementId: string)
    | Append(at: Target, input: MessageInput, nfkc: string -> string)
    | Update(within: Target, messageId: string, change: MessageUpdate)
    | DeleteMessage(from: Target, deletedId: string)

  // ----- lookups: `find` returns the first match -----

  function FindScope(scopes: seq<Scope>, key: string): (r: Option<nat>)
    ensures r.Some? ==> r.value < |scopes| && scopes[r.value].key == key
    ensures r.Some? <==> HasKey(scopes, key)
  {
    if scopes == [] then None
    else if scopes[0].key == key then
      assert scopes[0] in scopes;
      Some(0)
    else
      assert forall s :: s in scopes ==> s == scopes[0] || s in scopes[1..];
      match FindScope(scopes[1..], key)
      case None => None
      case Some(i) => Some(i + 1)
  }

  function FindConversation(cs: seq<Conversation>, id: string): (r: Option<nat>)
    ensures r.Some? ==> r.value < |cs| && cs[r.value].id == id
    ensures r.Some? <==> HasId(cs, id)
  {
    if cs == [] then None
    else if cs[0].id == id then
      assert cs[0] in cs;
      Some(0)
    else
      assert forall c :: c in cs ==> c == cs[0] || c in cs[1..];
      match FindConversation(cs[1..], id)
      case None => None
      case Some(i) => Some(i + 1)
  }

  function FindMessage(ms: seq<Message>, id: string): (r: Option<nat>)
    ensures r.Some? ==> r.value < |ms| && ms[r.value].id == id
    ensures r.None? ==> forall i :: 0 <= i < |ms| ==> ms[i].id != id
  {
    if ms == [] then None
    else if ms[0].id == id then Some(0)
    else
      match FindMessage(ms[1..], id)
      case None =>
        assert forall i :: 0 < i < |ms| ==> ms[i] == ms[1..][i - 1];
        None
      case Some(i) => Some(i + 1)
  }

  datatype Place = Place(scope: nat, conversation: nat)

  predicate ValidPlace(scopes: seq<Scope>, p: Place) {
    p.scope < |scopes| && p.conversation < |scopes[p.scope].conversations|
  }

  predicate PlaceOf(scopes: seq<Scope>, p: Place, t: Target) {
    && ValidPlace(scopes, p)
    && scopes[p.scope].key == t.scopeKey
    && scopes[p.scope].conversations[p.conversation].id == t.conversationId
  }

  function FindTarget(scopes: seq<Scope>, t: Target): (r: Option<Place>)
    ensures r.Some? ==> PlaceOf(scopes, r.value, t)
  {
    match FindScope(scopes, t.scopeKey)
    case None => None
    case Some(i) =>
      match FindConversation(scopes[i].conversations, t.conversationId)
      case None => None
      case Some(j) => Some(Place(i, j))
  }

  // ----- input validation -----

  predicate IsOpaqueTarget(t: Target) {
    IsScopeKey(t.scopeKey) && IsOpaqueId(t.conversationId)
  }

  function TargetError(t: Target): Error {
    if !IsScopeKey(t.scopeKey) then ScopeKeyInvalid else IdInvalid
  }

  /** `protectedTargetKeys` */
  function ProtectedKeys(targets: seq<Target>): Result<set<string>> {
    if targets == [] then Ok({})
    else if !IsOpaqueTarget(targets[0]) then Err(TargetError(targets[0]))
    else
      match ProtectedKeys(targets[1..])
      case Err(e) => Err(e)
      case Ok(keys) => Ok({TargetKey(targets[0].scopeKey, targets[0].conversationId)} + keys)
  }

  predicate IsErrorCodeChar(c: char) {
    'A' <= c <= 'Z' || '0' <= c <= '9' || c == '_'
  }

  predicate IsToolActivity(t: ToolActivity) {
    && t.name == TerminalExecute
    && Trim(t.command) != ""
    && Bytes(t.command) <= MAX_COMMAND_BYTES
    && (forall i :: 0 <= i < |t.command| ==> IsControl(t.command[i]) ==> t.command[i] == '\n' || t.command[i] == '\t')
    && t.status != OtherStatus
    && (t.errorCode.Some? ==>
      && t.errorCode.value != "" && Bytes(t.errorCode.value) <= 128
      && forall i :: 0 <= i < |t.errorCode.value| ==> IsErrorCodeChar(t.errorCode.value[i]))
  }

  /** `normalizeToolActivity`, which returns its argument when it does not throw. */
  function CheckToolActivity(t: ToolActivity): (r: Result<ToolActivity>)
    ensures r.Ok? ==> r.value == t && Bytes(t.command) <= MAX_COMMAND_BYTES
  {
    if !IsOpaqueId(t.id) then Err(IdInvalid)
    else if !IsToolActivity(t) then Err(ToolActivityInvalid)
    else Ok(t)
  }

  predicate IsBase64Char(c: char) {
    'A' <= c <= 'Z' || 'a' <= c <= 'z' || '0' <= c <= '9' || c == '+' || c == '/'
  }

  /** `/^[A-Za-z0-9+/]+={0,2}$/` (section 4 of RFC 4648) */
  predicate IsBase64(s: string) {
    PaddedBase64(s, 0) || PaddedBase64(s, 1) || PaddedBase64(s, 2)
  }

  predicate PaddedBase64(s: string, pad: nat) {
    && pad < |s|
    && (forall i :: 0 <= i < |s| - pad ==> IsBase64Char(s[i]))
    && (forall i :: |s| - pad <= i < |s| ==> s[i] == '=')
  }

  predicate IsImage(a: AttachmentInput) {
    && a.mimeType != OtherMime
    && 0 < a.size <= MAX_ATTACHMENT_BYTES
    && |a.data| == (a.size + 2) / 3 * 4
    && IsBase64(a.data)
  }

  function CheckAttachments(inputs: seq<AttachmentInput>): (r: Result<seq<Attachment>>)
    ensures r.Ok? ==> |r.value| == |inputs| && forall i :: 0 <= i < |inputs| ==> AttachmentOk(r.value[i])
  {
    if inputs == [] then Ok([])
    else
      var a := inputs[0];
      if !IsOpaqueId(a.id) then Err(IdInvalid)
      else if !IsOpaqueText(a.name, 512) then Err(AttachmentNameInvalid)
      else if !IsImage(a) then Err(AttachmentsInvalid)
      else
        match CheckAttachments(inputs[1..])
        case Err(e) => Err(e)
        case Ok(rest) => Ok([Attachment(a.id, a.name, a.mimeType, a.size, Some(a.data))] + rest)
  }

  // ----- drafts -----

  /** `newConversation` after its id check */
  function NewConversation(id: string, order: nat): Conversation {
    Conversation(id, "", false, [], order, order)
  }

  function NewScope(key: string, id: string, order: nat): Scope {
    Scope(key, id, [NewConversation(id, order)], order, order)
  }

  /** Replace the conversation at a place and stamp its scope. */
  function PutConversation(scopes: seq<Scope>, p: Place, c: Conversation, order: nat): seq<Scope>
    requires ValidPlace(scopes, p)
  {
    var s := scopes[p.scope];
    scopes[p.scope := s.(conversations := s.conversations[p.conversation := c], updatedOrder := order)]
  }

  lemma PutConversationShape(scopes: seq<Scope>, p: Place, c: Conversation, order: nat)
    requires Shape(scopes) && ValidPlace(scopes, p) && c.id == scopes[p.scope].conversations[p.conversation].id
    ensures Shape(PutConversation(scopes, p, c, order))
  {
    var s := scopes[p.scope];
    var cs := s.conversations[p.conversation := c];
    assert ScopeShape(s);
    var a :| a in s.conversations && a.id == s.activeId;
    var j :| 0 <= j < |s.conversations| && s.conversations[j] == a;
    assert cs[j] in cs && cs[j].id == s.activeId;
    PutScopeShape(scopes, p.scope, s.(conversations := cs, updatedOrder := order));
  }

  lemma PutScopeShape(scopes: seq<Scope>, i: nat, s: Scope)
    requires Shape(scopes) && i < |scopes| && s.key == scopes[i].key && ScopeShape(s)
    ensures Shape(scopes[i := s])
  {
  }

  lemma PushScopeShape(scopes: seq<Scope>, key: string, id: string, order: nat)
    requires Shape(scopes) && !HasKey(scopes, key)
    ensures Shape(scopes + [NewScope(key, id, order)])
  {
    var s := NewScope(key, id, order);
    assert s.conversations[0] in s.conversations;
    assert ScopeShape(s);
  }

  /** What a call hands to `finish`, unless it returns its argument. */
  datatype Step = Same | Commit(activeKey: string, draft: seq<Scope>, protectedTargets: set<string>)

  /** `finish`: bound the draft and publish it. */
  function Finish(activeKey: string, scopes: seq<Scope>, revision: nat, protectedTargets: set<string>): (r: Result<State>)
    requires Shape(scopes)
    ensures r.Ok? <==> EnforceBounds(scopes, activeKey, protectedTargets).Some?
    ensures r.Ok? ==> EnforceBounds(scopes, activeKey, protectedTargets) == Some(r.value.scopes)
    ensures r.Ok? ==> r.value == State(activeKey, r.value.scopes, revision, TextBytes(r.value.scopes))
    ensures r.Err? ==> r.error == BoundInvariant
  {
    match EnforceBounds(scopes, activeKey, protectedTargets)
    case None => Err(BoundInvariant)
    case Some(kept) => Ok(State(activeKey, kept, revision, TextBytes(kept)))
  }

  // ----- transitions -----

  /** `createAiConversationState` */
  const INITIAL: State := State(NO_TERMINAL_SCOPE_KEY, [], 0, 0)

  function ActivateDraft(st: State, key: string, conversationId: string): (r: seq<Scope>)
    requires Shape(st.scopes)
    ensures Shape(r)
  {
    var order := st.revision + 1;
    match FindScope(st.scopes, key)
    case Some(i) =>
      assert ScopeShape(st.scopes[i]);
      st.scopes[i := st.scopes[i].(updatedOrder := order)]
    case None =>
      PushScopeShape(st.scopes, key, conversationId, order);
      st.scopes + [NewScope(key, conversationId, order)]
  }

  /** `activateAiConversationScope` up to its `finish` */
  function CallActivate(
    st: State, terminal: Option<TerminalScope>, conversationId: string, inFlight: seq<Target>): (r: Result<Step>)
    requires Shape(st.scopes)
    ensures r.Ok? && r.value.Commit? ==> Shape(r.value.draft)
  {
    match ScopeKey(terminal)
    case Err(e) => Err(e)
    case Ok(key) =>
      if FindScope(st.scopes, key).Some? && st.activeScopeKey == key then Ok(Same)
      else if FindScope(st.scopes, key).None? && !IsOpaqueId(conversationId) then Err(IdInvalid)
      else
        match ProtectedKeys(inFlight)
        case Err(e) => Err(e)
        case Ok(protectedTargets) =>
          Ok(Commit(key, ActivateDraft(st, key, conversationId), protectedTargets))
  }

  function CreateDraft(st: State, key: string, id: string): (r: seq<Scope>)
    requires Shape(st.scopes)
    requires FindTarget(st.scopes, Target(key, id)).None?
    ensures Shape(r)
  {
    var order := st.revision + 1;
    match FindScope(st.scopes, key)
    case Some(i) =>
      var s := st.scopes[i];
      var s' := s.(conversations := s.conversations + [NewConversation(id, order)], activeId := id, updatedOrder := order);
      assert ScopeShape(s);
      assert s'.conversations[|s.conversations|] in s'.conversations;
      assert forall c :: c in s.conversations ==> c.id != id;
      assert ScopeShape(s');
      st.scopes[i := s']
    case None =>
      PushScopeShape(st.scopes, key, id, order);
      st.scopes + [NewScope(key, id, order)]
  }

  /** `createAiConversation` up to its `finish` */
  function CallCreate(st: State, key: string, id: string): (r: Result<Step>)
    requires Shape(st.scopes)
    ensures r.Ok? && r.value.Commit? ==> Shape(r.value.draft)
  {
    if !IsScopeKey(key) then Err(ScopeKeyInvalid)
    else if !IsOpaqueId(id) then Err(IdInvalid)
    else if FindTarget(st.scopes, Target(key, id)).Some? then Err(IdDuplicate)
    else Ok(Commit(key, CreateDraft(st, key, id), {TargetKey(key, id)}))
  }

  function SwitchDraft(st: State, p: Place): (r: seq<Scope>)
    requires Shape(st.scopes) && ValidPlace(st.scopes, p)
    ensures Shape(r)
  {
    var order := st.revision + 1;
    var s := st.scopes[p.scope];
    var c := s.conversations[p.conversation];
    var s' := s.(conversations := s.conversations[p.conversation := c.(updatedOrder := order)],
                 activeId := c.id, updatedOrder := order);
    assert ScopeShape(s);
    assert s'.conversations[p.conversation] in s'.conversations;
    assert ScopeShape(s');
    st.scopes[p.scope := s']
  }

  /** `switchAiConversation` up to its `finish` */
  function CallSwitch(st: State, t: Target): (r: Result<Step>)
    requires Shape(st.scopes)
    ensures r.Ok? && r.value.Commit? ==> Shape(r.value.draft)
  {
    if !IsOpaqueTarget(t) then Err(TargetError(t))
    else
      match FindTarget(st.scopes, t)
      case None => Ok(Same)
      case Some(p) =>
        if st.activeScopeKey == t.scopeKey && st.scopes[p.scope].activeId == t.conversationId then Ok(Same)
        else
          Ok(Commit(t.scopeKey, SwitchDraft(st, p), {TargetKey(t.scopeKey, t.conversationId)}))
  }

  /** The scope after a conversation of it was deleted; `replacementId` fills an
      active scope that would be empty. */
  function DeleteFrom(s: Scope, id: string, replacementId: string, order: nat): Scope {
    var d := Drop(s, id);
    if d.conversations == [] then
      s.(conversations := [NewConversation(replacementId, order)], activeId := replacementId, updatedOrder := order)
    else d.(updatedOrder := order)
  }

  lemma DeleteFromShape(s: Scope, id: string, replacementId: string, order: nat)
    requires ScopeShape(s)
    ensures ScopeShape(DeleteFrom(s, id, replacementId, order))
  {
    DropShape(s, id);
    var r := DeleteFrom(s, id, replacementId, order);
    if Drop(s, id).conversations == [] {
      assert r.conversations[0] in r.conversations;
    }
  }

  lemma WithoutScopeShape(scopes: seq<Scope>, key: string)
    requires Shape(scopes)
    ensures Shape(WithoutScope(scopes, key))
  {
    hide ScopeShape;
  }

  /** `deleteAiConversation` up to its `finish` */
  function CallDelete(st: State, t: Target, replacementId: string): (r: Result<Step>)
    requires Shape(st.scopes)
    ensures r.Ok? && r.value.Commit? ==> Shape(r.value.draft)
  {
    hide ScopeShape, Drop, DeleteFrom, UniqueKeys, IsOpaqueText;
    if !IsOpaqueTarget(t) then Err(TargetError(t))
    else
      match FindTarget(st.scopes, t)
      case None => Ok(Same)
      case Some(p) =>
        var order := st.revision + 1;
        var s := st.scopes[p.scope];
        var emptied := Drop(s, t.conversationId).conversations == [];
        WithoutScopeShape(st.scopes, t.scopeKey);
        if emptied && st.activeScopeKey != t.scopeKey then
          Ok(Commit(st.activeScopeKey, WithoutScope(st.scopes, t.scopeKey), {}))
        else if emptied && !IsOpaqueId(replacementId) then Err(IdInvalid)
        else
          var s' := DeleteFrom(s, t.conversationId, replacementId, order);
          DeleteFromShape(s, t.conversationId, replacementId, order);
          PutScopeShape(st.scopes, p.scope, s');
          Ok(Commit(st.activeScopeKey, st.scopes[p.scope := s'], {TargetKey(s'.key, s'.activeId)}))
  }

  /** Publish a rewritten conversation, protecting it from eviction. */
  function CommitConversation(st: State, t: Target, p: Place, c: Conversation): (step: Step)
    requires Shape(st.scopes) && ValidPlace(st.scopes, p) && c.id == st.scopes[p.scope].conversations[p.conversation].id
    ensures step.Commit? && Shape(step.draft)
  {
    PutConversationShape(st.scopes, p, c, st.revision + 1);
    Commit(st.activeScopeKey, PutConversation(st.scopes, p, c, st.revision + 1), {TargetKey(t.scopeKey, t.conversationId)})
  }

  /** Publish what became of the conversation found at `p`. */
  function Rewrite(st: State, t: Target, p: Place, outcome: Result<Option<Conversation>>): (r: Result<Step>)
    requires Shape(st.scopes) && ValidPlace(st.scopes, p)
    requires outcome.Ok? && outcome.value.Some? ==>
      outcome.value.value.id == st.scopes[p.scope].conversations[p.conversation].id
    ensures r.Ok? && r.value.Commit? ==> Shape(r.value.draft)
  {
    match outcome
    case Err(e) => Err(e)
    case Ok(None) => Ok(Same)
    case Ok(Some(c)) => Ok(CommitConversation(st, t, p, c))
  }

  /** The conversation after a message was appended. */
  function Appended(
    c: Conversation, input: MessageInput, attachments: seq<Attachment>, order: nat, nfkc: string -> string): Conversation
  {
    var content := Utf8Prefix(input.content, MAX_MESSAGE_BYTES);
    var message := Message(input.id, input.role, content, attachments, input.tool, order);
    var titled :=
      if input.role == UserRole && !c.titleInitialized then
        c.(title := DeriveTitle(nfkc, content), titleInitialized := true)
      else c;
    titled.(messages := c.messages + [message], updatedOrder := order)
  }

  /** The checks of `appendAiConversationMessage` after the target was found. */
  function CheckMessage(input: MessageInput): (r: Result<seq<Attachment>>)
    ensures r.Ok? ==> |r.value| <= MAX_ATTACHMENTS && forall i :: 0 <= i < |r.value| ==> AttachmentOk(r.value[i])
    ensures r.Ok? && input.tool.Some? ==>
      input.role == AssistantRole && Bytes(input.tool.value.command) <= MAX_COMMAND_BYTES
  {
    if !IsOpaqueId(input.id) then Err(IdInvalid)
    else if input.role == OtherRole then Err(RoleInvalid)
    else if |input.attachments| > MAX_ATTACHMENTS then Err(AttachmentsInvalid)
    else if |input.attachments| > 0 && input.role != UserRole then Err(AttachmentsInvalid)
    else if input.tool.Some? && input.role != AssistantRole then Err(ToolActivityInvalid)
    else if input.tool.Some? && CheckToolActivity(input.tool.value).Err? then
      Err(CheckToolActivity(input.tool.value).error)
    else CheckAttachments(input.attachments)
  }

  /** Appending to one conversation; a known message id changes nothing. */
  function AppendTo(c: Conversation, input: MessageInput, order: nat, nfkc: string -> string)
    : (r: Result<Option<Conversation>>)
    ensures r.Ok? && r.value.Some? ==> r.value.value.id == c.id
  {
    if FindMessage(c.messages, input.id).Some? then Ok(None)
    else
      match CheckMessage(input)
      case Err(e) => Err(e)
      case Ok(attachments) => Ok(Some(Appended(c, input, attachments, order, nfkc)))
  }

  /** `appendAiConversationMessage` up to its `finish` */
  function CallAppend(st: State, t: Target, input: MessageInput, nfkc: string -> string): (r: Result<Step>)
    requires Shape(st.scopes)
    ensures r.Ok? && r.value.Commit? ==> Shape(r.value.draft)
  {
    if !IsOpaqueTarget(t) then Err(TargetError(t))
    else
      match FindTarget(st.scopes, t)
      case None => Ok(Same)
      case Some(p) =>
        Rewrite(st, t, p, AppendTo(st.scopes[p.scope].conversations[p.conversation], input, st.revision + 1, nfkc))
  }

  function UpdatedMessage(m: Message, change: MessageUpdate): Message {
    m.(role := if change.role.Some? then change.role.value else m.role,
       content := Utf8Prefix(if change.content.Some? then change.content.value else m.content, MAX_MESSAGE_BYTES),
       tool := if change.tool.Some? then change.tool else m.tool)
  }

  /** Updating one message of a conversation; an equal message changes nothing. */
  function UpdateIn(c: Conversation, messageId: string, change: MessageUpdate, order: nat): (r: Result<Option<Conversation>>)
    ensures r.Ok? && r.value.Some? ==> r.value.value.id == c.id && r.value.value.updatedOrder == order
  {
    match FindMessage(c.messages, messageId)
    case None => Ok(None)
    case Some(k) =>
      var m' := UpdatedMessage(c.messages[k], change);
      if m'.role == OtherRole then Err(RoleInvalid)
      else if change.tool.Some? && CheckToolActivity(change.tool.value).Err? then
        Err(CheckToolActivity(change.tool.value).error)
      else if m'.tool.Some? && m'.role != AssistantRole then Err(ToolActivityInvalid)
      else if m' == c.messages[k] then Ok(None)
      else Ok(Some(c.(messages := c.messages[k := m'], updatedOrder := order)))
  }

  /** `updateAiConversationMessage` up to its `finish` */
  function CallUpdate(st: State, t: Target, messageId: string, change: MessageUpdate): (r: Result<Step>)
    requires Shape(st.scopes)
    ensures r.Ok? && r.value.Commit? ==> Shape(r.value.draft)
  {
    if !IsOpaqueTarget(t) then Err(TargetError(t))
    else if !IsOpaqueId(messageId) then Err(IdInvalid)
    else
      match FindTarget(st.scopes, t)
      case None => Ok(Same)
      case Some(p) =>
        Rewrite(st, t, p, UpdateIn(st.scopes[p.scope].conversations[p.conversation], messageId, change, st.revision + 1))
  }

  function WithoutMessage(ms: seq<Message>, id: string): seq<Message> {
    if ms == [] then []
    else (if ms[0].id == id then [] else [ms[0]]) + WithoutMessage(ms[1..], id)
  }

  function DeleteIn(c: Conversation, messageId: string, order: nat): (r: Result<Option<Conversation>>)
    ensures r.Ok? && r.value.Some? ==> r.value.value.id == c.id
  {
    if FindMessage(c.messages, messageId).None? then Ok(None)
    else Ok(Some(c.(messages := WithoutMessage(c.messages, messageId), updatedOrder := order)))
  }

  /** `deleteAiConversationMessage` up to its `finish` */
  function CallDeleteMessage(st: State, t: Target, messageId: string): (r: Result<Step>)
    requires Shape(st.scopes)
    ensures r.Ok? && r.value.Commit? ==> Shape(r.value.draft)
  {
    if !IsOpaqueTarget(t) then Err(TargetError(t))
    else if !IsOpaqueId(messageId) then Err(IdInvalid)
    else
      match FindTarget(st.scopes, t)
      case None => Ok(Same)
      case Some(p) =>
        Rewrite(st, t, p, DeleteIn(st.scopes[p.scope].conversations[p.conversation], messageId, st.revision + 1))
  }

  function CallOf(st: State, op: Op): (r: Result<Step>)
    requires Shape(st.scopes)
    ensures r.Ok? && r.value.Commit? ==> Shape(r.value.draft)
  {
    match op
    case Activate(terminal, id, inFlight) => CallActivate(st, terminal, id, inFlight)
    case Create(key, id) => CallCreate(st, key, id)
    case Switch(t) => CallSwitch(st, t)
    case Delete(t, id) => CallDelete(st, t, id)
    case Append(t, input, nfkc) => CallAppend(st, t, input, nfkc)
    case Update(t, id, change) => CallUpdate(st, t, id, change)
    case DeleteMessage(t, id) => CallDeleteMessage(st, t, id)
  }

  /** One call of the store's interface. */
  function Apply(st: State, op: Op): Result<State>
    requires Shape(st.scopes)
  {
    match CallOf(st, op)
    case Err(e) => Err(e)
    case Ok(Same) => Ok(st)
    case Ok(Commit(activeKey, draft, protectedTargets)) => Finish(activeKey, draft, st.revision + 1, protectedTargets)
  }
}
