/** The bound error of src/aiConversationState.ts is within reach of ordinary calls. */
module ConversationThrow {
  import opened Text
  import opened ConversationKeys
  import opened ConversationModel
  import opened ConversationPass
  import opened ConversationStore
  import opened ConversationRuns
  import opened ConversationHistory

  /** A request in flight in the active conversation of every scope. */
  function ActiveTargets(scopes: seq<Scope>): (targets: seq<Target>)
    ensures |targets| == |scopes|
    ensures forall i :: 0 <= i < |scopes| ==> targets[i] == Target(scopes[i].key, scopes[i].activeId)
  {
    seq(|scopes|, i requires 0 <= i < |scopes| => Target(scopes[i].key, scopes[i].activeId))
  }

  lemma {:induction false} OpaqueTargets(targets: seq<Target>)
    requires forall i :: 0 <= i < |targets| ==> IsOpaqueTarget(targets[i])
    ensures ProtectedKeys(targets).Ok?
  {
    hide IsOpaqueTarget;
    if targets != [] {
      OpaqueTargets(targets[1..]);
    }
  }

  lemma ActiveConversation(st: State, s: Scope) returns (c: Conversation)
    requires Inv(st) && s in st.scopes
    ensures Holds(st.scopes, s, c) && c.id == s.activeId && IsOpaqueTarget(Target(s.key, c.id))
  {
    assert ScopeShape(s) && ScopeOk(s, st.revision);
    c :| c in s.conversations && c.id == s.activeId;
    assert Holds(st.scopes, s, c) && ConversationOk(c, st.revision);
  }

  lemma ActiveTargetsProtect(st: State)
    requires Inv(st)
    ensures ProtectedKeys(ActiveTargets(st.scopes)).Ok? && AllInFlight(st.scopes, ActiveTargets(st.scopes))
  {
    var targets := ActiveTargets(st.scopes);
    forall i | 0 <= i < |targets|
      ensures IsOpaqueTarget(targets[i])
    {
      var c := ActiveConversation(st, st.scopes[i]);
    }
    hide Inv, IsOpaqueTarget, ProtectedKeys;
    OpaqueTargets(targets);
    forall s | s in st.scopes
      ensures exists i :: 0 <= i < |targets| && targets[i].scopeKey == s.key
    {
      var i :| 0 <= i < |st.scopes| && st.scopes[i] == s;
      assert targets[i].scopeKey == s.key;
    }
  }

  /** The call that opens a new scope while every other one has a request in flight. */
  function Opening(scopes: seq<Scope>, terminal: TerminalScope): Op {
    Activate(Some(terminal), "c", ActiveTargets(scopes))
  }

  lemma OpeningCommits(st: State, terminal: TerminalScope) returns (call: Step)
    requires Inv(st) && ScopeKey(Some(terminal)).Ok? && !HasKey(st.scopes, ScopeKey(Some(terminal)).value)
    ensures Shape(st.scopes) && CallOf(st, Opening(st.scopes, terminal)) == Ok(call)
    ensures ProtectedKeys(ActiveTargets(st.scopes)).Ok?
    ensures var key := ScopeKey(Some(terminal)).value;
      call == Commit(key, st.scopes + [NewScope(key, "c", st.revision + 1)], ProtectedKeys(ActiveTargets(st.scopes)).value)
  {
    hide Inv, Shape, IsOpaqueText, ScopeKey, ProtectedKeys, CallOf;
    InvParts(st);
    ActiveTargetsProtect(st);
    PlainTextIsOpaque("c", MAX_OPAQUE_ID_BYTES);
    NewActivation(st, Some(terminal), "c", ActiveTargets(st.scopes));
    call := CallOf(st, Opening(st.scopes, terminal)).value;
  }

  lemma NewActivation(st: State, terminal: Option<TerminalScope>, id: string, inFlight: seq<Target>)
    requires Shape(st.scopes) && ScopeKey(terminal).Ok? && !HasKey(st.scopes, ScopeKey(terminal).value)
    requires IsOpaqueId(id) && ProtectedKeys(inFlight).Ok?
    ensures var key := ScopeKey(terminal).value;
      CallOf(st, Activate(terminal, id, inFlight)) ==
        Ok(Commit(key, st.scopes + [NewScope(key, id, st.revision + 1)], ProtectedKeys(inFlight).value))
  {
    hide Shape, IsOpaqueText, ScopeKey, ProtectedKeys, NewScope;
  }

  /** The scopes left are those of the draft: what is in flight or active stays. */
  lemma OpeningKeys(st: State, terminal: TerminalScope, call: Step)
    requires Inv(st) && Shape(st.scopes) && CallOf(st, Opening(st.scopes, terminal)) == Ok(call) && call.Commit?
    requires call.activeKey == ScopeKey(Some(terminal)).value
    requires call.draft == st.scopes + [NewScope(call.activeKey, "c", st.revision + 1)]
    requires DraftReady(call.draft, call.activeKey, call.protectedTargets, st.revision + 1)
    requires Apply(st, Opening(st.scopes, terminal)).Ok? && Shape(call.draft)
    requires Apply(st, Opening(st.scopes, terminal)) ==
      Finish(call.activeKey, call.draft, st.revision + 1, call.protectedTargets)
    ensures ScopeKeys(Apply(st, Opening(st.scopes, terminal)).value.scopes) == ScopeKeys(st.scopes) + {call.activeKey}
  {
    hide Inv, CallOf, Apply, ScopeKey, Shape, NewScope;
    var op, r := Opening(st.scopes, terminal), Apply(st, Opening(st.scopes, terminal)).value.scopes;
    FinishFrom(call.activeKey, call.draft, st.revision + 1, call.protectedTargets);
    hide Finish, DraftReady;
    FromKeys(r, call.draft);
    OpenedStays(st, call);
    forall s | s in st.scopes
      ensures s.key in ScopeKeys(r)
    {
      InFlightStays(st, op, s);
    }
    NewKey(st.scopes, call.activeKey, "c", st.revision + 1);
  }

  lemma NewKey(scopes: seq<Scope>, key: string, id: string, order: nat)
    ensures ScopeKeys(scopes + [NewScope(key, id, order)]) == ScopeKeys(scopes) + {key}
  {
    var draft := scopes + [NewScope(key, id, order)];
    assert draft[|scopes|] in draft;
    assert forall s :: s in scopes ==> s in draft;
  }

  lemma FromKeys(scopes': seq<Scope>, scopes: seq<Scope>)
    requires From(scopes', scopes)
    ensures ScopeKeys(scopes') <= ScopeKeys(scopes)
  {
  }

  lemma InFlightStays(st: State, op: Op, s: Scope)
    requires Inv(st) && s in st.scopes && op.Activate? && op.inFlight == ActiveTargets(st.scopes)
    requires Shape(st.scopes) && Apply(st, op).Ok?
    ensures s.key in ScopeKeys(Apply(st, op).value.scopes)
  {
    hide Inv, Shape, Apply, ConversationFrom;
    var c := ActiveConversation(st, s);
    var i :| 0 <= i < |st.scopes| && st.scopes[i] == s;
    assert op.inFlight[i] == Target(s.key, c.id);
    var s', c' := ActivationSparesInFlight(st, op, s, c);
  }

  lemma OpenedStays(st: State, call: Step)
    requires call.Commit? && DraftReady(call.draft, call.activeKey, call.protectedTargets, st.revision + 1)
    requires Shape(call.draft) && Finish(call.activeKey, call.draft, st.revision + 1, call.protectedTargets).Ok?
    requires call.draft == st.scopes + [NewScope(call.activeKey, "c", st.revision + 1)]
    ensures call.activeKey in
      ScopeKeys(Finish(call.activeKey, call.draft, st.revision + 1, call.protectedTargets).value.scopes)
  {
    hide Shape, Content, Finish;
    var s := NewScope(call.activeKey, "c", st.revision + 1);
    assert call.draft[|st.scopes|] == s;
    var s' := PassKeepsActive(call.draft, call.activeKey, call.protectedTargets, st.revision + 1, s);
  }

  /** Below the cap such a call adds its scope and evicts none. */
  lemma OpeningAdds(st: State, terminal: TerminalScope)
    requires Inv(st) && |st.scopes| < MAX_SCOPES
    requires ScopeKey(Some(terminal)).Ok? && !HasKey(st.scopes, ScopeKey(Some(terminal)).value)
    ensures Shape(st.scopes)
    ensures var r := Apply(st, Opening(st.scopes, terminal));
      && r.Ok? && |r.value.scopes| == |st.scopes| + 1
      && ScopeKeys(r.value.scopes) == ScopeKeys(st.scopes) + {ScopeKey(Some(terminal)).value}
  {
    var op := Opening(st.scopes, terminal);
    hide Inv, Shape, CallOf, Apply, IsOpaqueText, ScopeKey, ProtectedKeys, Finish, DraftReady, UniqueKeys;
    var call := OpeningCommits(st, terminal);
    ReadyDraft(st, op, call);
    ApplyIsFinish(st, op, call);
    ActivationThrows(st, op);
    OpeningKeys(st, terminal, call);
    ApplyInv(st, op);
    InvParts(st);
    InvParts(Apply(st, op).value);
    ScopeKeysSize(st.scopes);
    ScopeKeysSize(Apply(st, op).value.scopes);
  }

  /** The terminal of the given generation on one route. */
  function Terminal(generation: nat): TerminalScope {
    TerminalScope("r", generation)
  }

  lemma TerminalKey(generation: nat)
    requires generation <= MAX_SCOPES
    ensures ScopeKey(Some(Terminal(generation))).Ok?
  {
    var key := "r" + [':'] + Decimal(generation);
    assert |Decimal(generation)| <= 2;
    PlainTextIsOpaque("r", MAX_SCOPE_KEY_BYTES);
    PlainTextIsOpaque(key, MAX_SCOPE_KEY_BYTES);
    hide IsOpaqueText;
  }

  ghost function Keys(n: nat): set<string>
    requires n <= MAX_SCOPES + 1
  {
    set g: nat | g < n && ScopeKey(Some(Terminal(g))).Ok? :: ScopeKey(Some(Terminal(g))).value
  }

  lemma NextKeyIsNew(scopes: seq<Scope>, n: nat)
    requires n <= MAX_SCOPES && ScopeKeys(scopes) == Keys(n)
    ensures ScopeKey(Some(Terminal(n))).Ok? && !HasKey(scopes, ScopeKey(Some(Terminal(n))).value)
    ensures Keys(n + 1) == Keys(n) + {ScopeKey(Some(Terminal(n))).value}
  {
    TerminalKey(n);
    hide ScopeKey;
    forall s | s in scopes
      ensures s.key != ScopeKey(Some(Terminal(n))).value
    {
      assert s.key in Keys(n);
      var g: nat :| g < n && ScopeKey(Some(Terminal(g))).Ok? && s.key == ScopeKey(Some(Terminal(g))).value;
      ScopeKeyInjective(Some(Terminal(g)), Some(Terminal(n)));
    }
  }

  lemma RunOneMore(ops: seq<Op>, op: Op)
    requires Shape(Run(ops).scopes) && Apply(Run(ops), op).Ok?
    ensures Run(ops + [op]) == Apply(Run(ops), op).value
  {
    hide Inv, Apply, Shape;
    assert (ops + [op])[..|ops|] == ops;
  }

  lemma OneMoreScope(before: seq<Op>, n: nat) returns (ops: seq<Op>)
    requires n < MAX_SCOPES && |Run(before).scopes| == n && ScopeKeys(Run(before).scopes) == Keys(n)
    ensures |Run(ops).scopes| == n + 1 && ScopeKeys(Run(ops).scopes) == Keys(n + 1)
  {
    hide Inv, Shape, Apply, ScopeKey, Run, Keys, ScopeKeys, Opening, Terminal;
    var st := Run(before);
    NextKeyIsNew(st.scopes, n);
    OpeningAdds(st, Terminal(n));
    ops := before + [Opening(st.scopes, Terminal(n))];
    RunOneMore(before, Opening(st.scopes, Terminal(n)));
  }

  lemma {:induction false} Fill(n: nat) returns (ops: seq<Op>)
    requires n <= MAX_SCOPES
    ensures |Run(ops).scopes| == n && ScopeKeys(Run(ops).scopes) == Keys(n)
  {
    hide Inv, Apply, ScopeKey;
    if n == 0 {
      ops := [];
    } else {
      ops := Fill(n - 1);
      hide Run, Keys, ScopeKeys;
      ops := OneMoreScope(ops, n - 1);
    }
  }

  /** Ordinary calls reach a state in which activating a terminal throws the bound
      error: twelve terminals, each with a request in flight, and one more. */
  lemma ThrowReached() returns (ops: seq<Op>, op: Op)
    ensures Shape(Run(ops).scopes) && Apply(Run(ops), op) == Err(BoundInvariant)
  {
    hide Inv, Apply, ScopeKey, Run, ProtectedKeys, IsOpaqueText;
    ops := Fill(MAX_SCOPES);
    var st := Run(ops);
    op := Opening(st.scopes, Terminal(MAX_SCOPES));
    InvParts(st);
    NextKeyIsNew(st.scopes, MAX_SCOPES);
    ActiveTargetsProtect(st);
    PlainTextIsOpaque("c", MAX_OPAQUE_ID_BYTES);
    ActivationThrows(st, op);
  }
}
