/** What appending and updating a message do (src/aiConversationState.ts): which inputs
    are accepted, and what the conversation then holds. */
module ConversationEdits {
  import opened Text
  import opened ConversationKeys
  import opened ConversationModel
  import opened ConversationBounds
  import opened ConversationEviction
  import opened ConversationPasses
  import opened ConversationExact
  import opened ConversationIdle
  import opened ConversationPass
  import opened ConversationStore
  import opened ConversationRuns
  import opened ConversationHistory
  import opened ConversationDiscipline
  import opened ConversationEffects

  // ----- a rewritten conversation -----

  /** Publishing a rewritten conversation keeps it, up to its oldest messages and image
      bodies, and publishes exactly that rewrite if it breaks no limit. */
  lemma RewriteLands(st: State, op: Op, t: Target, p: Place, c: Conversation) returns (s': Scope, c': Conversation)
    requires Inv(st) && Shape(st.scopes) && !op.Activate? && PlaceOf(st.scopes, p, t) && c.id == t.conversationId
    requires CallOf(st, op) == Ok(Commit(
      st.activeScopeKey, Rewritten(st, p, c), {TargetKey(t.scopeKey, t.conversationId)}))
    ensures Apply(st, op).Ok? && Holds(Apply(st, op).value.scopes, s', c')
    ensures s'.key == t.scopeKey && ConversationFrom(c', c)
    ensures Apply(st, op).value.activeScopeKey == st.activeScopeKey && Apply(st, op).value.revision == st.revision + 1
    ensures |c.messages| <= 63 && Light(Rewritten(st, p, c)) ==>
      Apply(st, op) == Ok(State(
        st.activeScopeKey, Rewritten(st, p, c), st.revision + 1, TextBytes(Rewritten(st, p, c))))
  {
    hide Inv, Shape, CallOf, Apply, EnforceBounds, Light, TextBytes, ConversationFrom, DraftReady;
    var draft, kept := Rewritten(st, p, c), {TargetKey(t.scopeKey, t.conversationId)};
    var call := Commit(st.activeScopeKey, draft, kept);
    CommitAccepted(st, op, call);
    ReadyDraft(st, op, call);
    ReadyFacts(draft, st.activeScopeKey, kept, st.revision + 1);
    ApplyIsFinish(st, op, call);
    var s := RewrittenHolds(st, p, c);
    hide Rewritten, Content;
    s', c' := PassSpares(draft, st.activeScopeKey, kept, st.revision + 1, s, c);
    if |c.messages| <= 63 && Light(draft) {
      RewrittenCounts(st, p, c);
      FinishIdle(st.activeScopeKey, draft, st.revision + 1, kept);
    }
  }

  lemma RewrittenHolds(st: State, p: Place, c: Conversation) returns (s: Scope)
    requires ValidPlace(st.scopes, p)
    ensures Holds(Rewritten(st, p, c), s, c) && s.key == st.scopes[p.scope].key
  {
    s := Rewritten(st, p, c)[p.scope];
    assert s in Rewritten(st, p, c) && s.conversations[p.conversation] in s.conversations;
  }

  lemma RewrittenCounts(st: State, p: Place, c: Conversation)
    requires Inv(st) && ValidPlace(st.scopes, p) && |c.messages| <= 63
    ensures |Rewritten(st, p, c)| <= 12 && forall s :: s in Rewritten(st, p, c) ==> |s.conversations| <= 8
    ensures forall s, d :: Holds(Rewritten(st, p, c), s, d) ==> |d.messages| <= 63
  {
    InvIsLight(st);
    ShortMessages(st, p.scope);
    hide Inv;
    var s := st.scopes[p.scope];
    PutCounts(st.scopes, p.scope, Rewritten(st, p, c)[p.scope], Rewritten(st, p, c));
  }

  // ----- which messages are accepted -----

  ghost predicate Opaque(s: string, bytes: nat) {
    s != "" && Bytes(s) <= bytes && forall c :: c in s ==> !IsControl(c) && !IsFormat(c)
  }

  /** An activity of the terminal tool, with a visible command. */
  ghost predicate ValidTool(t: ToolActivity) {
    && Opaque(t.id, 256) && t.name == TerminalExecute && t.status != OtherStatus
    && (exists c :: c in t.command && !IsSpace(c))
    && Bytes(t.command) <= 32 * 1024 - 1
    && (forall c :: c in t.command && IsControl(c) ==> c == '\n' || c == '\t')
    && (t.errorCode.Some? ==>
          && t.errorCode.value != "" && Bytes(t.errorCode.value) <= 128
          && forall c :: c in t.errorCode.value ==> 'A' <= c <= 'Z' || '0' <= c <= '9' || c == '_')
  }

  /** Base64 text of `size` bytes with at most two padding characters. */
  ghost predicate EncodesBytes(data: string, size: int) {
    && |data| == (size + 2) / 3 * 4
    && exists n :: 0 < n <= |data| && |data| - n <= 2 && PaddedFrom(data, n)
  }

  /** Characters of the alphabet up to `n`, padding from there. */
  ghost predicate PaddedFrom(data: string, n: nat) {
    && (forall i :: 0 <= i < |data| && i < n ==>
          var c := data[i]; 'A' <= c <= 'Z' || 'a' <= c <= 'z' || '0' <= c <= '9' || c == '+' || c == '/')
    && forall i :: n <= i < |data| ==> data[i] == '='
  }

  ghost predicate ValidImage(a: AttachmentInput) {
    && Opaque(a.id, 256) && Opaque(a.name, 512) && a.mimeType != OtherMime
    && 0 < a.size <= 5 * 1024 * 1024 && EncodesBytes(a.data, a.size)
  }

  /** An assistant message may carry a tool activity, a user message up to four images. */
  ghost predicate ValidInput(input: MessageInput) {
    && Opaque(input.id, 256) && input.role != OtherRole
    && |input.attachments| <= 4 && (input.attachments != [] ==> input.role == UserRole)
    && (input.tool.Some? ==> input.role == AssistantRole && ValidTool(input.tool.value))
    && forall a :: a in input.attachments ==> ValidImage(a)
  }

  lemma OpaqueExactly(s: string, bytes: nat)
    ensures IsOpaqueText(s, bytes) <==> Opaque(s, bytes)
  {
    hide IsControl, IsFormat, Bytes;
  }

  /** A terminal has a key if and only if its route is opaque, its generation a safe integer
      and the key itself opaque; the key is the route, a colon and the decimal generation. */
  lemma ScopeKeyExactly(t: TerminalScope)
    ensures ScopeKey(Some(t)).Ok? <==>
      && Opaque(t.routeId, 2048) && 0 <= t.generation <= 9007199254740991
      && Opaque(t.routeId + ":" + Decimal(t.generation), 2048)
    ensures ScopeKey(Some(t)).Ok? ==> ScopeKey(Some(t)).value == t.routeId + ":" + Decimal(t.generation)
    ensures ScopeKey(None) == Ok("no-terminal")
  {
    OpaqueExactly(t.routeId, 2048);
    if t.generation >= 0 {
      OpaqueExactly(t.routeId + ":" + Decimal(t.generation), 2048);
    }
    hide IsOpaqueText, Opaque, Decimal;
  }

  lemma TrimEmpty(s: string)
    ensures Trim(s) == "" <==> forall c :: c in s ==> IsSpace(c)
  {
    TrimExactly(s);
    VisibleTrim(Trim(s), s);
    hide Trim, IsSpace;
  }

  lemma CommandControls(s: string)
    ensures (forall i :: 0 <= i < |s| ==> IsControl(s[i]) ==> s[i] == '\n' || s[i] == '\t')
      <==> forall c :: c in s && IsControl(c) ==> c == '\n' || c == '\t'
  {
    hide IsControl;
  }

  lemma ErrorCodeChars(s: string)
    ensures (forall i :: 0 <= i < |s| ==> IsErrorCodeChar(s[i]))
      <==> forall c :: c in s ==> 'A' <= c <= 'Z' || '0' <= c <= '9' || c == '_'
  {
    if forall i :: 0 <= i < |s| ==> IsErrorCodeChar(s[i]) {
      forall c | c in s ensures 'A' <= c <= 'Z' || '0' <= c <= '9' || c == '_' {
        var i :| 0 <= i < |s| && s[i] == c;
        assert IsErrorCodeChar(s[i]);
      }
    } else {
      var i :| 0 <= i < |s| && !IsErrorCodeChar(s[i]);
      assert s[i] in s;
    }
  }

  lemma ActivityExactly(t: ToolActivity)
    ensures IsToolActivity(t) && Opaque(t.id, 256) <==> ValidTool(t)
  {
    hide Opaque, Trim, IsSpace, IsControl, Bytes, IsErrorCodeChar;
    TrimEmpty(t.command);
    CommandControls(t.command);
    if t.errorCode.Some? {
      ErrorCodeChars(t.errorCode.value);
    }
  }

  lemma ToolExactly(t: ToolActivity)
    ensures CheckToolActivity(t).Ok? <==> ValidTool(t)
    ensures CheckToolActivity(t).Ok? ==> CheckToolActivity(t).value == t
  {
    hide IsOpaqueText, Opaque, IsToolActivity, ValidTool;
    OpaqueExactly(t.id, 256);
    ActivityExactly(t);
  }

  lemma Base64Exactly(s: string, size: int)
    requires |s| == (size + 2) / 3 * 4
    ensures IsBase64(s) <==> EncodesBytes(s, size)
  {
    hide IsBase64Char;
    forall pad: nat | pad < |s|
      ensures PaddedBase64(s, pad) <==> PaddedFrom(s, |s| - pad)
    {
      PaddedExactly(s, pad);
    }
    hide PaddedBase64, PaddedFrom;
    if IsBase64(s) {
      var pad: nat :| pad <= 2 && pad < |s| && PaddedBase64(s, pad);
      assert PaddedFrom(s, |s| - pad);
    }
    if EncodesBytes(s, size) {
      var n :| 0 < n <= |s| && |s| - n <= 2 && PaddedFrom(s, n);
      assert PaddedBase64(s, |s| - n);
    }
  }

  lemma PaddedExactly(s: string, pad: nat)
    requires pad < |s|
    ensures PaddedBase64(s, pad) <==> PaddedFrom(s, |s| - pad)
  {
    if PaddedFrom(s, |s| - pad) {
      forall i | 0 <= i < |s| - pad ensures IsBase64Char(s[i]) {
      }
    }
  }

  lemma ImageExactly(a: AttachmentInput)
    ensures IsOpaqueId(a.id) && IsOpaqueText(a.name, 512) && IsImage(a) <==> ValidImage(a)
  {
    OpaqueExactly(a.id, 256);
    OpaqueExactly(a.name, 512);
    if |a.data| == (a.size + 2) / 3 * 4 {
      Base64Exactly(a.data, a.size);
    }
    hide IsOpaqueText, Opaque, IsBase64;
  }

  /** The attachments as they are stored. */
  ghost function Attached(inputs: seq<AttachmentInput>): seq<Attachment> {
    seq(|inputs|, i requires 0 <= i < |inputs| =>
      Attachment(inputs[i].id, inputs[i].name, inputs[i].mimeType, inputs[i].size, Some(inputs[i].data)))
  }

  lemma {:induction false} AttachmentsExactly(inputs: seq<AttachmentInput>)
    ensures CheckAttachments(inputs).Ok? <==> forall a :: a in inputs ==> ValidImage(a)
    ensures CheckAttachments(inputs).Ok? ==> CheckAttachments(inputs).value == Attached(inputs)
  {
    hide ValidImage, IsImage, IsOpaqueText;
    if inputs != [] {
      ImageExactly(inputs[0]);
      AttachmentsExactly(inputs[1..]);
      assert inputs == [inputs[0]] + inputs[1..];
    }
  }

  lemma InputExactly(input: MessageInput)
    ensures CheckMessage(input).Ok? <==> ValidInput(input)
    ensures CheckMessage(input).Ok? ==> CheckMessage(input).value == Attached(input.attachments)
  {
    hide IsOpaqueText, Opaque, CheckAttachments, CheckToolActivity, ValidTool, ValidImage, Attached;
    OpaqueExactly(input.id, 256);
    AttachmentsExactly(input.attachments);
    if input.tool.Some? {
      ToolExactly(input.tool.value);
    }
  }

  // ----- appending -----

  /** The message an accepted input becomes. */
  ghost function Appending(input: MessageInput, order: nat): Message {
    Message(input.id, input.role, Utf8Prefix(input.content, 128 * 1024), Attached(input.attachments), input.tool, order)
  }

  /** The first user message names its conversation. */
  ghost function Titled(c: Conversation, input: MessageInput, nfkc: string -> string): Conversation {
    if input.role == UserRole && !c.titleInitialized then
      c.(title := DeriveTitle(nfkc, Utf8Prefix(input.content, 128 * 1024)), titleInitialized := true)
    else c
  }

  /** The conversation behind an append. */
  ghost function Longer(c: Conversation, input: MessageInput, nfkc: string -> string, order: nat): Conversation {
    Titled(c, input, nfkc).(messages := c.messages + [Appending(input, order)], updatedOrder := order)
  }

  /** Appending a valid message to a conversation that has none of its id ends the
      conversation with that message and names it after its first user message; apart from
      the oldest messages and image bodies of the store, which the limits may take, nothing
      else changes. */
  lemma AppendEffect(st: State, op: Op, p: Place) returns (s': Scope, c': Conversation)
    requires Inv(st) && op.Append? && IsOpaqueTarget(op.at) && PlaceOf(st.scopes, p, op.at) && ValidInput(op.input)
    requires !HasMessage(st.scopes[p.scope].conversations[p.conversation].messages, op.input.id)
    ensures Shape(st.scopes)
    ensures Apply(st, op).Ok? && Holds(Apply(st, op).value.scopes, s', c') && s'.key == op.at.scopeKey
    ensures var c := st.scopes[p.scope].conversations[p.conversation];
      ConversationFrom(c', Longer(c, op.input, op.nfkc, st.revision + 1))
    ensures Apply(st, op).value.activeScopeKey == st.activeScopeKey && Apply(st, op).value.revision == st.revision + 1
    ensures var c := st.scopes[p.scope].conversations[p.conversation];
      var draft := Rewritten(st, p, Longer(c, op.input, op.nfkc, st.revision + 1));
      |c.messages| < 63 && Light(draft) ==>
        Apply(st, op) == Ok(State(st.activeScopeKey, draft, st.revision + 1, TextBytes(draft)))
  {
    hide Inv, Shape, CallOf, Apply, Light, TextBytes, ConversationFrom, IsOpaqueText, Rewritten, ValidInput, Titled, Appending;
    InvIsLight(st);
    AppendCall(st, op, p);
    var c := st.scopes[p.scope].conversations[p.conversation];
    LongerIs(c, op.input, op.nfkc, st.revision + 1);
    s', c' := RewriteLands(st, op, op.at, p, Longer(c, op.input, op.nfkc, st.revision + 1));
  }

  lemma LongerIs(c: Conversation, input: MessageInput, nfkc: string -> string, order: nat)
    ensures var r := Longer(c, input, nfkc, order); r.id == c.id && |r.messages| == |c.messages| + 1
  {
  }

  lemma AppendedIsLonger(c: Conversation, input: MessageInput, order: nat, nfkc: string -> string)
    ensures Appended(c, input, Attached(input.attachments), order, nfkc) == Longer(c, input, nfkc, order)
  {
    hide DeriveTitle, Utf8Prefix, Attached;
  }

  lemma NoMessageFound(ms: seq<Message>, id: string)
    ensures FindMessage(ms, id).None? <==> !HasMessage(ms, id)
  {
    if FindMessage(ms, id).Some? {
      assert ms[FindMessage(ms, id).value] in ms;
    }
    hide FindMessage;
  }

  lemma AppendCall(st: State, op: Op, p: Place)
    requires Shape(st.scopes) && op.Append? && IsOpaqueTarget(op.at) && PlaceOf(st.scopes, p, op.at) && ValidInput(op.input)
    requires !HasMessage(st.scopes[p.scope].conversations[p.conversation].messages, op.input.id)
    ensures var c := st.scopes[p.scope].conversations[p.conversation];
      CallOf(st, op) == Ok(Commit(
        st.activeScopeKey, Rewritten(st, p, Longer(c, op.input, op.nfkc, st.revision + 1)),
        {TargetKey(op.at.scopeKey, op.at.conversationId)}))
  {
    hide Shape, IsOpaqueText, FindTarget, FindMessage, CheckMessage, ValidInput, Appended, Longer, HasMessage, Attached;
    var c := st.scopes[p.scope].conversations[p.conversation];
    PlaceIsFound(st.scopes, p, op.at);
    NoMessageFound(c.messages, op.input.id);
    InputExactly(op.input);
    AppendedIsLonger(c, op.input, st.revision + 1, op.nfkc);
  }

  /** Appending to no conversation, or a message whose id is known there, changes nothing;
      an invalid target or message throws. */
  lemma AppendElse(st: State, op: Op)
    requires Shape(st.scopes) && op.Append?
    ensures !IsOpaqueTarget(op.at) ==> Apply(st, op).Err?
    ensures IsOpaqueTarget(op.at) ==>
      var found := FindTarget(st.scopes, op.at);
      if found.None? || HasMessage(st.scopes[found.value.scope].conversations[found.value.conversation].messages, op.input.id)
      then Apply(st, op) == Ok(st)
      else !ValidInput(op.input) ==> Apply(st, op).Err?
  {
    hide Shape, IsOpaqueText, CallAppend, CallOf, Apply;
    AppendCallElse(st, op.at, op.input, op.nfkc);
    CallOfEdits(st, op);
    ApplyOfCall(st, op);
  }

  lemma AppendCallElse(st: State, t: Target, input: MessageInput, nfkc: string -> string)
    requires Shape(st.scopes)
    ensures !IsOpaqueTarget(t) ==> CallAppend(st, t, input, nfkc).Err?
    ensures IsOpaqueTarget(t) ==>
      var found := FindTarget(st.scopes, t);
      if found.None? || HasMessage(st.scopes[found.value.scope].conversations[found.value.conversation].messages, input.id)
      then CallAppend(st, t, input, nfkc) == Ok(Same)
      else !ValidInput(input) ==> CallAppend(st, t, input, nfkc).Err?
  {
    hide Shape, IsOpaqueText, FindTarget, FindMessage, CheckMessage, ValidInput, Appended, CommitConversation, HasMessage;
    InputExactly(input);
    if FindTarget(st.scopes, t).Some? {
      var p := FindTarget(st.scopes, t).value;
      NoMessageFound(st.scopes[p.scope].conversations[p.conversation].messages, input.id);
    }
  }

  // ----- updating -----

  /** The message behind an update: what the update leaves out stays, and so do id,
      attachments and order. */
  ghost function Edited(m: Message, change: MessageUpdate): Message {
    Message(
      m.id, if change.role.Some? then change.role.value else m.role,
      Utf8Prefix(if change.content.Some? then change.content.value else m.content, 128 * 1024),
      m.attachments, if change.tool.Some? then change.tool else m.tool, m.createdOrder)
  }

  ghost predicate ValidEdit(m: Message, change: MessageUpdate) {
    && Edited(m, change).role != OtherRole
    && (change.tool.Some? ==> ValidTool(change.tool.value))
    && (Edited(m, change).tool.Some? ==> Edited(m, change).role == AssistantRole)
  }

  /** A valid update that changes a message puts it in the place of the old one; apart from
      the oldest messages and image bodies of the store, which the limits may take, nothing
      else changes. An update that changes nothing leaves the store as it is. */
  lemma UpdateEffect(st: State, op: Op, p: Place, k: nat) returns (s': Scope, c': Conversation)
    requires Inv(st) && op.Update? && IsOpaqueTarget(op.within) && IsOpaqueId(op.messageId) && PlaceOf(st.scopes, p, op.within)
    requires var ms := st.scopes[p.scope].conversations[p.conversation].messages; k < |ms| && ms[k].id == op.messageId
    requires ValidEdit(st.scopes[p.scope].conversations[p.conversation].messages[k], op.change)
    ensures Shape(st.scopes)
    ensures var m := st.scopes[p.scope].conversations[p.conversation].messages[k];
      Edited(m, op.change) == m ==> Apply(st, op) == Ok(st)
    ensures Apply(st, op).Ok? && Holds(Apply(st, op).value.scopes, s', c') && s'.key == op.within.scopeKey
    ensures var c := st.scopes[p.scope].conversations[p.conversation];
      Edited(c.messages[k], op.change) != c.messages[k] ==>
        && ConversationFrom(
          c', c.(messages := c.messages[k := Edited(c.messages[k], op.change)], updatedOrder := st.revision + 1))
        && Apply(st, op).value.activeScopeKey == st.activeScopeKey && Apply(st, op).value.revision == st.revision + 1
    ensures var c := st.scopes[p.scope].conversations[p.conversation];
      var draft := Rewritten(
        st, p, c.(messages := c.messages[k := Edited(c.messages[k], op.change)], updatedOrder := st.revision + 1));
      Edited(c.messages[k], op.change) != c.messages[k] && Light(draft) ==>
        Apply(st, op) == Ok(State(st.activeScopeKey, draft, st.revision + 1, TextBytes(draft)))
  {
    hide Inv, Shape, CallOf, Apply, Light, TextBytes, ConversationFrom, IsOpaqueText, Rewritten, ValidEdit, Edited;
    InvIsLight(st);
    ShortMessages(st, p.scope);
    var s := st.scopes[p.scope];
    var c := s.conversations[p.conversation];
    assert c in s.conversations;
    UpdateCallIs(st, op, p, k);
    if Edited(c.messages[k], op.change) == c.messages[k] {
      s', c' := s, c;
      ApplyOfCall(st, op);
    } else {
      s', c' := RewriteLands(st, op, op.within, p,
        c.(messages := c.messages[k := Edited(c.messages[k], op.change)], updatedOrder := st.revision + 1));
    }
  }

  lemma UpdateCallIs(st: State, op: Op, p: Place, k: nat)
    requires Inv(st) && op.Update? && IsOpaqueTarget(op.within) && IsOpaqueId(op.messageId) && PlaceOf(st.scopes, p, op.within)
    requires var ms := st.scopes[p.scope].conversations[p.conversation].messages; k < |ms| && ms[k].id == op.messageId
    requires ValidEdit(st.scopes[p.scope].conversations[p.conversation].messages[k], op.change) && Shape(st.scopes)
    ensures var c := st.scopes[p.scope].conversations[p.conversation];
      var m := Edited(c.messages[k], op.change);
      CallOf(st, op) ==
        if m == c.messages[k] then Ok(Same)
        else Ok(Commit(
          st.activeScopeKey, Rewritten(st, p, c.(messages := c.messages[k := m], updatedOrder := st.revision + 1)),
          {TargetKey(op.within.scopeKey, op.within.conversationId)}))
  {
    hide Inv, Shape, IsOpaqueText, FindTarget, FindMessage, UpdateIn, ValidEdit, Edited;
    var c := st.scopes[p.scope].conversations[p.conversation];
    PlaceIsFound(st.scopes, p, op.within);
    DistinctMessages(st, p);
    MessageFound(c.messages, k);
    UpdateInIs(c, op.messageId, op.change, st.revision + 1, k);
  }

  lemma UpdateInIs(c: Conversation, id: string, change: MessageUpdate, order: nat, k: nat)
    requires FindMessage(c.messages, id) == Some(k)
    ensures var m := Edited(c.messages[k], change);
      UpdateIn(c, id, change, order).Ok? <==> ValidEdit(c.messages[k], change)
    ensures var m := Edited(c.messages[k], change);
      ValidEdit(c.messages[k], change) ==>
        UpdateIn(c, id, change, order) ==
          Ok(if m == c.messages[k] then None else Some(c.(messages := c.messages[k := m], updatedOrder := order)))
  {
    hide FindMessage, Utf8Prefix, CheckToolActivity, ValidTool;
    if change.tool.Some? {
      ToolExactly(change.tool.value);
    }
  }

  /** Of the conversation after an update, the message of that id is the edited one and
      every other one an old one, up to image bodies. */
  lemma UpdatedMessages(c': Conversation, c: Conversation, k: nat, m: Message, order: nat, m': Message)
    requires k < |c.messages| && m.id == c.messages[k].id
    requires forall i, j :: 0 <= i < j < |c.messages| ==> c.messages[i].id != c.messages[j].id
    requires ConversationFrom(c', c.(messages := c.messages[k := m], updatedOrder := order)) && m' in c'.messages
    ensures m'.id == m.id ==> Strips(m', m)
    ensures m'.id != m.id ==> exists j :: 0 <= j < |c.messages| && j != k && Strips(m', c.messages[j])
  {
    var i :| 0 <= i < |c'.messages| && c'.messages[i] == m';
    var j := |c.messages| - |c'.messages| + i;
    assert Strips(m', c.messages[k := m][j]);
  }

  /** After an update, whatever the target still shows under that id is the edited message,
      and everything else it shows it showed before, up to image bodies. */
  lemma UpdateShows(st: State, op: Op, p: Place, k: nat) returns (s': Scope, c': Conversation)
    requires Inv(st) && op.Update? && IsOpaqueTarget(op.within) && IsOpaqueId(op.messageId) && PlaceOf(st.scopes, p, op.within)
    requires var ms := st.scopes[p.scope].conversations[p.conversation].messages; k < |ms| && ms[k].id == op.messageId
    requires var m := st.scopes[p.scope].conversations[p.conversation].messages[k];
      ValidEdit(m, op.change) && Edited(m, op.change) != m
    ensures Shape(st.scopes) && Apply(st, op).Ok? && Holds(Apply(st, op).value.scopes, s', c')
    ensures s'.key == op.within.scopeKey && c'.id == op.within.conversationId
    ensures forall m' :: m' in c'.messages && m'.id == op.messageId ==>
      Strips(m', Edited(st.scopes[p.scope].conversations[p.conversation].messages[k], op.change))
    ensures forall m' :: m' in c'.messages && m'.id != op.messageId ==>
      exists j :: 0 <= j < |st.scopes[p.scope].conversations[p.conversation].messages| && j != k
        && Strips(m', st.scopes[p.scope].conversations[p.conversation].messages[j])
  {
    hide Inv, Shape, CallOf, Apply, IsOpaqueText, Rewritten, ValidEdit, Strips, Light;
    s', c' := UpdateEffect(st, op, p, k);
    DistinctMessages(st, p);
    var c := st.scopes[p.scope].conversations[p.conversation];
    forall m' | m' in c'.messages
      ensures m'.id == op.messageId ==> Strips(m', Edited(c.messages[k], op.change))
      ensures m'.id != op.messageId ==> exists j :: 0 <= j < |c.messages| && j != k && Strips(m', c.messages[j])
    {
      UpdatedMessages(c', c, k, Edited(c.messages[k], op.change), st.revision + 1, m');
    }
  }

  /** Updating no message changes nothing; an invalid target, id or change throws. */
  lemma UpdateElse(st: State, op: Op)
    requires Shape(st.scopes) && op.Update?
    ensures !IsOpaqueTarget(op.within) || !IsOpaqueId(op.messageId) ==> Apply(st, op).Err?
    ensures IsOpaqueTarget(op.within) && IsOpaqueId(op.messageId) ==>
      var found := FindTarget(st.scopes, op.within);
      && (found.None? ==> Apply(st, op) == Ok(st))
      && (found.Some? ==>
            var ms := st.scopes[found.value.scope].conversations[found.value.conversation].messages;
            var k := FindMessage(ms, op.messageId);
            if k.None? then Apply(st, op) == Ok(st) else !ValidEdit(ms[k.value], op.change) ==> Apply(st, op).Err?)
  {
    hide Shape, IsOpaqueText, FindTarget, FindMessage, CallUpdate, ValidEdit, CallOf, Apply;
    UpdateCallElse(st, op.within, op.messageId, op.change);
    CallOfEdits(st, op);
    ApplyOfCall(st, op);
  }

  lemma UpdateCallElse(st: State, t: Target, id: string, change: MessageUpdate)
    requires Shape(st.scopes)
    ensures !IsOpaqueTarget(t) || !IsOpaqueId(id) ==> CallUpdate(st, t, id, change).Err?
    ensures IsOpaqueTarget(t) && IsOpaqueId(id) ==>
      var found := FindTarget(st.scopes, t);
      && (found.None? ==> CallUpdate(st, t, id, change) == Ok(Same))
      && (found.Some? ==>
            var ms := st.scopes[found.value.scope].conversations[found.value.conversation].messages;
            var k := FindMessage(ms, id);
            if k.None? then CallUpdate(st, t, id, change) == Ok(Same)
            else !ValidEdit(ms[k.value], change) ==> CallUpdate(st, t, id, change).Err?)
  {
    hide Shape, IsOpaqueText, FindTarget, FindMessage, UpdateIn, CommitConversation, ValidEdit;
    if FindTarget(st.scopes, t).Some? {
      var p := FindTarget(st.scopes, t).value;
      var c := st.scopes[p.scope].conversations[p.conversation];
      if FindMessage(c.messages, id).Some? {
        UpdateInIs(c, id, change, st.revision + 1, FindMessage(c.messages, id).value);
      } else {
        UpdateInNone(c, id, change, st.revision + 1);
      }
    }
  }

  lemma UpdateInNone(c: Conversation, id: string, change: MessageUpdate, order: nat)
    requires FindMessage(c.messages, id).None?
    ensures UpdateIn(c, id, change, order) == Ok(None)
  {
  }

  // ----- images after a call -----

  /** Of the messages a call leaves, with the image bodies they had, exactly the bodies not
      in excess stay. */
  lemma CallImages(st: State, op: Op, call: Step) returns (base: seq<Scope>)
    requires Inv(st) && Shape(st.scopes) && CallOf(st, op) == Ok(call) && call.Commit? && Apply(st, op).Ok?
    ensures Frame(Apply(st, op).value.scopes, base)
    ensures Bodies(Apply(st, op).value.scopes) == Fitting(Bodies(base), |Bodies(base)|)
    ensures forall s, c, m :: HoldsMessage(base, s, c, m) ==>
      exists t, d :: HoldsMessage(call.draft, t, d, m) && t.key == s.key && d.id == c.id
  {
    hide Inv, Shape, CallOf, Apply, EnforceBounds, DraftReady, Content, DropImages, TruncateText, EvictText, CapAll, CapScopes, Fitting;
    ReadyDraft(st, op, call);
    ReadyFacts(call.draft, call.activeKey, call.protectedTargets, st.revision + 1);
    ApplyIsFinish(st, op, call);
    base := PassImages(call.draft, call.activeKey, call.protectedTargets, st.revision + 1);
  }

  lemma PassImages(draft: seq<Scope>, activeKey: string, protectedTargets: set<string>, order: nat) returns (base: seq<Scope>)
    requires Shape(draft) && Content(draft, order) && EnforceBounds(draft, activeKey, protectedTargets).Some?
    ensures var r := EnforceBounds(draft, activeKey, protectedTargets).value;
      Frame(r, base) && Bodies(r) == Fitting(Bodies(base), |Bodies(base)|)
    ensures forall s, c, m :: HoldsMessage(base, s, c, m) ==>
      exists t, d :: HoldsMessage(draft, t, d, m) && t.key == s.key && d.id == c.id
  {
    hide Shape, Content, DropImages, TruncateText, EvictText, CapAll, CapScopes, Fitting, EnforceBounds, Bodies;
    var e := SomeStages(draft, activeKey, protectedTargets, order);
    base := e.truncated;
    DropImagesFrame(base);
    TruncatedSizes(e.evicted, order);
    ImagesExactly(base);
    forall s, c, m | HoldsMessage(base, s, c, m)
      ensures exists t, d :: HoldsMessage(draft, t, d, m) && t.key == s.key && d.id == c.id
    {
      var t, x := TruncatedTail(e.evicted, s, c);
      TailHas(c, x, m);
      var t0, d := BeforeTruncation(draft, activeKey, protectedTargets, e, t, x);
      TrimHas(d, m);
      TrimKeepsId(d);
      assert HoldsMessage(draft, t0, d, m);
    }
  }

  lemma TruncatedSizes(evicted: seq<Scope>, order: nat)
    requires Shape(evicted) && Content(evicted, order)
    ensures forall j :: 0 <= j < |Bodies(TruncateText(evicted))| ==> Bodies(TruncateText(evicted))[j].size >= 0
  {
    TruncateFrame(evicted);
    FrameFrom(TruncateText(evicted), evicted);
    ContentFrom(TruncateText(evicted), evicted, order);
    BodySizes(TruncateText(evicted), order);
  }
}
