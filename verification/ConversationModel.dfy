/** Data of the bounded AI conversation store (src/aiConversationState.ts), its
    byte and image measures, and the invariant every published state keeps. */
module ConversationModel {
  import opened Text
  import opened ConversationKeys

  const MAX_SCOPES: nat := 12
  const MAX_CONVERSATIONS: nat := 8
  const MAX_MESSAGES: nat := 63
  const MAX_MESSAGE_BYTES: nat := 128 * 1024
  const MAX_COMMAND_BYTES: nat := 32 * 1024 - 1
  const MAX_TEXT_BYTES: nat := 384 * 1024
  const MAX_ATTACHMENTS: nat := 4
  const MAX_ATTACHMENT_BYTES: nat := 5 * 1024 * 1024
  const MAX_IMAGES: nat := 4
  const MAX_IMAGE_BYTES: nat := 10 * 1024 * 1024

  datatype Role = UserRole | AssistantRole | SystemRole | ErrorRole | OtherRole

  datatype MimeType = Png | Jpeg | Webp | OtherMime

  datatype Attachment = Attachment(id: string, name: string, mimeType: MimeType, size: int, data: Option<string>)

  datatype ToolName = TerminalExecute | OtherTool

  datatype ToolStatus = Running | Completed | TimedOut | Failed | Rejected | Cancelled | OtherStatus

  datatype ToolActivity = ToolActivity(
    id: string, name: ToolName, command: string, status: ToolStatus, errorCode: Option<string>)

  datatype Message = Message(
    id: string, role: Role, content: string, attachments: seq<Attachment>,
    tool: Option<ToolActivity>, createdOrder: nat)

  datatype Conversation = Conversation(
    id: string, title: string, titleInitialized: bool, messages: seq<Message>,
    createdOrder: nat, updatedOrder: nat)

  datatype Scope = Scope(
    key: string, activeId: string, conversations: seq<Conversation>,
    createdOrder: nat, updatedOrder: nat)

  datatype State = State(activeScopeKey: string, scopes: seq<Scope>, revision: nat, totalTextBytes: nat)

  datatype Target = Target(scopeKey: string, conversationId: string)

  // ----- measures -----

  function MessageBytes(m: Message): nat {
    Bytes(m.content) + if m.tool.Some? then Bytes(m.tool.value.command) else 0
  }

  function MessagesBytes(ms: seq<Message>): nat {
    if ms == [] then 0 else MessageBytes(ms[0]) + MessagesBytes(ms[1..])
  }

  function ConversationsBytes(cs: seq<Conversation>): nat {
    if cs == [] then 0
    else Bytes(cs[0].title) + MessagesBytes(cs[0].messages) + ConversationsBytes(cs[1..])
  }

  /** `textBytes` */
  function TextBytes(scopes: seq<Scope>): nat {
    if scopes == [] then 0 else ConversationsBytes(scopes[0].conversations) + TextBytes(scopes[1..])
  }

  /** One image body still held in memory. */
  datatype Body = Body(order: nat, size: int)

  predicate HasBody(a: Attachment) {
    a.data.Some? && a.data.value != ""
  }

  function AttachmentBodies(order: nat, attachments: seq<Attachment>): seq<Body> {
    if attachments == [] then []
    else
      (if HasBody(attachments[0]) then [Body(order, attachments[0].size)] else [])
      + AttachmentBodies(order, attachments[1..])
  }

  function MessageBodies(ms: seq<Message>): seq<Body> {
    if ms == [] then [] else AttachmentBodies(ms[0].createdOrder, ms[0].attachments) + MessageBodies(ms[1..])
  }

  function ConversationBodies(cs: seq<Conversation>): seq<Body> {
    if cs == [] then [] else MessageBodies(cs[0].messages) + ConversationBodies(cs[1..])
  }

  /** `retainedImageContent`, in the order the arrays list the bodies. */
  function Bodies(scopes: seq<Scope>): seq<Body> {
    if scopes == [] then [] else ConversationBodies(scopes[0].conversations) + Bodies(scopes[1..])
  }

  function BodyBytes(bs: seq<Body>): int {
    if bs == [] then 0 else bs[0].size + BodyBytes(bs[1..])
  }

  // ----- the invariant -----

  ghost predicate UniqueIds(cs: seq<Conversation>) {
    forall i, j :: 0 <= i < j < |cs| ==> cs[i].id != cs[j].id
  }

  ghost predicate UniqueKeys(scopes: seq<Scope>) {
    forall i, j :: 0 <= i < j < |scopes| ==> scopes[i].key != scopes[j].key
  }

  ghost predicate HasId(cs: seq<Conversation>, id: string) {
    exists c :: c in cs && c.id == id
  }

  ghost predicate HasKey(scopes: seq<Scope>, key: string) {
    exists s :: s in scopes && s.key == key
  }

  ghost predicate ScopeShape(s: Scope) {
    UniqueIds(s.conversations) && HasId(s.conversations, s.activeId)
  }

  ghost predicate Shape(scopes: seq<Scope>) {
    UniqueKeys(scopes) && forall s :: s in scopes ==> ScopeShape(s)
  }

  ghost predicate Holds(scopes: seq<Scope>, s: Scope, c: Conversation) {
    s in scopes && c in s.conversations
  }

  ghost predicate HoldsMessage(scopes: seq<Scope>, s: Scope, c: Conversation, m: Message) {
    Holds(scopes, s, c) && m in c.messages
  }

  ghost predicate AttachmentOk(a: Attachment) {
    0 < a.size <= MAX_ATTACHMENT_BYTES && (a.data.Some? ==> a.data.value != "")
  }

  ghost predicate MessageOk(m: Message, order: nat) {
    && m.createdOrder <= order
    && Bytes(m.content) <= MAX_MESSAGE_BYTES
    && (m.tool.Some? ==> m.role == AssistantRole && Bytes(m.tool.value.command) <= MAX_COMMAND_BYTES)
    && |m.attachments| <= MAX_ATTACHMENTS
    && forall i :: 0 <= i < |m.attachments| ==> AttachmentOk(m.attachments[i])
  }

  ghost predicate Ascending(ms: seq<Message>) {
    forall i, j :: 0 <= i < j < |ms| ==> ms[i].createdOrder < ms[j].createdOrder && ms[i].id != ms[j].id
  }

  ghost predicate ConversationOk(c: Conversation, revision: nat) {
    && IsOpaqueId(c.id)
    && Bytes(c.title) <= MAX_TITLE_BYTES
    && c.createdOrder <= c.updatedOrder <= revision
    && Ascending(c.messages)
    && forall i :: 0 <= i < |c.messages| ==> MessageOk(c.messages[i], c.updatedOrder)
  }

  ghost predicate ScopeOk(s: Scope, revision: nat) {
    IsScopeKey(s.key) && s.createdOrder <= s.updatedOrder <= revision
  }

  /** Where an LRU order is in use; scopes leave the conversation id empty. */
  datatype Slot = Slot(key: string, id: string, order: nat)

  ghost function ScopeSlots(scopes: seq<Scope>): set<Slot> {
    set s | s in scopes :: Slot(s.key, "", s.updatedOrder)
  }

  ghost function ConversationSlots(scopes: seq<Scope>): set<Slot> {
    set s, c | s in scopes && c in s.conversations :: Slot(s.key, c.id, c.updatedOrder)
  }

  ghost function MessageSlots(scopes: seq<Scope>): set<Slot> {
    set s, c, m | s in scopes && c in s.conversations && m in c.messages :: Slot(s.key, c.id, m.createdOrder)
  }

  ghost predicate OrdersDistinct(slots: set<Slot>) {
    forall a, b :: a in slots && b in slots && a.order == b.order ==> a == b
  }

  /** What eviction can only preserve: every part is well formed and every LRU
      order is used once. */
  ghost predicate Content(scopes: seq<Scope>, revision: nat) {
    && (forall s :: s in scopes ==> ScopeOk(s, revision))
    && (forall s, c :: Holds(scopes, s, c) ==> ConversationOk(c, revision))
    && OrdersDistinct(ScopeSlots(scopes))
    && OrdersDistinct(ConversationSlots(scopes))
    && OrdersDistinct(MessageSlots(scopes))
  }

  ghost predicate CountsBounded(scopes: seq<Scope>) {
    && |scopes| <= MAX_SCOPES
    && (forall s :: s in scopes ==> |s.conversations| <= MAX_CONVERSATIONS)
    && (forall s, c :: Holds(scopes, s, c) ==> |c.messages| <= MAX_MESSAGES)
  }

  ghost predicate Bounded(scopes: seq<Scope>) {
    && CountsBounded(scopes)
    && TextBytes(scopes) <= MAX_TEXT_BYTES
    && |Bodies(scopes)| <= MAX_IMAGES
    && BodyBytes(Bodies(scopes)) <= MAX_IMAGE_BYTES
  }

  ghost predicate Inv(st: State) {
    && Shape(st.scopes)
    && Content(st.scopes, st.revision)
    && Bounded(st.scopes)
    && st.totalTextBytes == TextBytes(st.scopes)
    && IsScopeKey(st.activeScopeKey)
    && (st.scopes != [] ==> HasKey(st.scopes, st.activeScopeKey))
  }

  // ----- what eviction may do to a part -----

  /** The same message; only image bodies may have vanished. */
  ghost predicate Strips(m': Message, m: Message) {
    && m' == m.(attachments := m'.attachments)
    && |m'.attachments| == |m.attachments|
    && forall i :: 0 <= i < |m.attachments| ==>
      m'.attachments[i] == m.attachments[i] || m'.attachments[i] == m.attachments[i].(data := None)
  }

  ghost predicate SuffixFrom(ms': seq<Message>, ms: seq<Message>) {
    && |ms'| <= |ms|
    && forall i :: 0 <= i < |ms'| ==> Strips(ms'[i], ms[|ms| - |ms'| + i])
  }

  ghost predicate ConversationFrom(c': Conversation, c: Conversation) {
    c' == c.(messages := c'.messages) && SuffixFrom(c'.messages, c.messages)
  }

  ghost predicate ScopeFrom(s': Scope, s: Scope) {
    && s'.key == s.key && s'.createdOrder == s.createdOrder && s'.updatedOrder == s.updatedOrder
    && forall c' :: c' in s'.conversations ==> exists c :: c in s.conversations && ConversationFrom(c', c)
  }

  /** Every part of `scopes'` is what is left of a part of `scopes`. */
  ghost predicate From(scopes': seq<Scope>, scopes: seq<Scope>) {
    forall s' :: s' in scopes' ==> exists s :: s in scopes && ScopeFrom(s', s)
  }

  lemma StripsTransitive(a: Message, b: Message, c: Message)
    requires Strips(a, b) && Strips(b, c)
    ensures Strips(a, c)
  {
  }

  lemma SuffixTransitive(a: seq<Message>, b: seq<Message>, c: seq<Message>)
    requires SuffixFrom(a, b) && SuffixFrom(b, c)
    ensures SuffixFrom(a, c)
  {
    forall i | 0 <= i < |a|
      ensures Strips(a[i], c[|c| - |a| + i])
    {
      var j := |b| - |a| + i;
      assert Strips(a[i], b[j]) && Strips(b[j], c[|c| - |b| + j]);
      StripsTransitive(a[i], b[j], c[|c| - |b| + j]);
    }
  }

  lemma TailIsSuffix(ms: seq<Message>, d: nat)
    requires d <= |ms|
    ensures SuffixFrom(ms[d..], ms)
  {
    forall i | 0 <= i < |ms| - d
      ensures Strips(ms[d..][i], ms[d + i])
    {
      assert ms[d..][i] == ms[d + i];
    }
  }

  lemma ConversationFromReflexive(c: Conversation)
    ensures ConversationFrom(c, c)
  {
  }

  lemma ConversationFromTransitive(a: Conversation, b: Conversation, c: Conversation)
    requires ConversationFrom(a, b) && ConversationFrom(b, c)
    ensures ConversationFrom(a, c)
  {
    SuffixTransitive(a.messages, b.messages, c.messages);
  }

  lemma ScopeFromReflexive(s: Scope)
    ensures ScopeFrom(s, s)
  {
    forall c | c in s.conversations
      ensures exists d :: d in s.conversations && ConversationFrom(c, d)
    {
      ConversationFromReflexive(c);
    }
  }

  lemma ScopeFromTransitive(a: Scope, b: Scope, c: Scope)
    requires ScopeFrom(a, b) && ScopeFrom(b, c)
    ensures ScopeFrom(a, c)
  {
    forall x | x in a.conversations
      ensures exists z :: z in c.conversations && ConversationFrom(x, z)
    {
      var y :| y in b.conversations && ConversationFrom(x, y);
      var z :| z in c.conversations && ConversationFrom(y, z);
      ConversationFromTransitive(x, y, z);
    }
  }

  lemma FromReflexive(scopes: seq<Scope>)
    ensures From(scopes, scopes)
  {
    forall s | s in scopes
      ensures exists t :: t in scopes && ScopeFrom(s, t)
    {
      ScopeFromReflexive(s);
    }
  }

  lemma FromTransitive(a: seq<Scope>, b: seq<Scope>, c: seq<Scope>)
    requires From(a, b) && From(b, c)
    ensures From(a, c)
  {
    forall x | x in a
      ensures exists z :: z in c && ScopeFrom(x, z)
    {
      var y :| y in b && ScopeFrom(x, y);
      var z :| z in c && ScopeFrom(y, z);
      ScopeFromTransitive(x, y, z);
    }
  }

  lemma FromHolds(scopes': seq<Scope>, scopes: seq<Scope>, s': Scope, c': Conversation)
    returns (s: Scope, c: Conversation)
    requires From(scopes', scopes) && Holds(scopes', s', c')
    ensures Holds(scopes, s, c) && s.key == s'.key && ConversationFrom(c', c)
  {
    s :| s in scopes && ScopeFrom(s', s);
    c :| c in s.conversations && ConversationFrom(c', c);
  }

  lemma FromHoldsMessage(scopes': seq<Scope>, scopes: seq<Scope>, s': Scope, c': Conversation, m': Message)
    returns (s: Scope, c: Conversation, m: Message)
    requires From(scopes', scopes) && HoldsMessage(scopes', s', c', m')
    ensures HoldsMessage(scopes, s, c, m) && s.key == s'.key && c.id == c'.id && Strips(m', m)
  {
    s, c := FromHolds(scopes', scopes, s', c');
    var i :| 0 <= i < |c'.messages| && c'.messages[i] == m';
    m := c.messages[|c.messages| - |c'.messages| + i];
  }

  lemma StrippedMessageOk(m': Message, m: Message, order: nat)
    requires MessageOk(m, order) && Strips(m', m)
    ensures MessageOk(m', order)
  {
    forall i | 0 <= i < |m'.attachments|
      ensures AttachmentOk(m'.attachments[i])
    {
      assert AttachmentOk(m.attachments[i]);
    }
  }

  lemma ConversationFromOk(c': Conversation, c: Conversation, revision: nat)
    requires ConversationOk(c, revision) && ConversationFrom(c', c)
    ensures ConversationOk(c', revision)
  {
    var ms', ms := c'.messages, c.messages;
    var d := |ms| - |ms'|;
    forall i | 0 <= i < |ms'|
      ensures MessageOk(ms'[i], c'.updatedOrder)
    {
      assert MessageOk(ms[d + i], c.updatedOrder);
      StrippedMessageOk(ms'[i], ms[d + i], c.updatedOrder);
    }
    forall i, j | 0 <= i < j < |ms'|
      ensures ms'[i].createdOrder < ms'[j].createdOrder && ms'[i].id != ms'[j].id
    {
      assert Strips(ms'[i], ms[d + i]) && Strips(ms'[j], ms[d + j]);
    }
  }

  /** Eviction cannot break a part or make two LRU orders collide. */
  lemma ContentFrom(scopes': seq<Scope>, scopes: seq<Scope>, revision: nat)
    requires Content(scopes, revision) && From(scopes', scopes)
    ensures Content(scopes', revision)
  {
    forall s' | s' in scopes'
      ensures ScopeOk(s', revision)
    {
      var s :| s in scopes && ScopeFrom(s', s);
    }
    forall s', c' | Holds(scopes', s', c')
      ensures ConversationOk(c', revision)
    {
      var s, c := FromHolds(scopes', scopes, s', c');
      ConversationFromOk(c', c, revision);
    }
    SlotsFrom(scopes', scopes);
  }

  lemma SlotsFrom(scopes': seq<Scope>, scopes: seq<Scope>)
    requires From(scopes', scopes)
    ensures ScopeSlots(scopes') <= ScopeSlots(scopes)
    ensures ConversationSlots(scopes') <= ConversationSlots(scopes)
    ensures MessageSlots(scopes') <= MessageSlots(scopes)
  {
    forall x | x in ConversationSlots(scopes')
      ensures x in ConversationSlots(scopes)
    {
      var s', c' :| s' in scopes' && c' in s'.conversations && x == Slot(s'.key, c'.id, c'.updatedOrder);
      var s, c := FromHolds(scopes', scopes, s', c');
    }
    forall x | x in MessageSlots(scopes')
      ensures x in MessageSlots(scopes)
    {
      var s', c', m' :| s' in scopes' && c' in s'.conversations && m' in c'.messages
        && x == Slot(s'.key, c'.id, m'.createdOrder);
      var s, c, m := FromHoldsMessage(scopes', scopes, s', c', m');
    }
  }

  lemma SameKeySameScope(scopes: seq<Scope>, s: Scope, t: Scope)
    requires UniqueKeys(scopes) && s in scopes && t in scopes && s.key == t.key
    ensures s == t
  {
  }

  lemma SameIdSameConversation(cs: seq<Conversation>, c: Conversation, d: Conversation)
    requires UniqueIds(cs) && c in cs && d in cs && c.id == d.id
    ensures c == d
  {
  }
}
