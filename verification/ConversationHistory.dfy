/** The main results on the conversation store: safety of every run, the exact
    condition of the bound throw, and the fate of each history in one call. */
module ConversationHistory {
  import opened Text
  import opened ConversationKeys
  import opened ConversationModel
  import opened ConversationBounds
  import opened ConversationPass
  import opened ConversationStore
  import opened ConversationRuns

  // ----- every draft handed to `finish` is ready -----

  /** The only conversation a call may create or rewrite. */
  ghost function Touched(op: Op): Target {
    match op
    case Activate(terminal, id, _) => Target(if ScopeKey(terminal).Ok? then ScopeKey(terminal).value else "", id)
    case Create(key, id) => Target(key, id)
    case Switch(t) => t
    case Delete(t, id) => Target(t.scopeKey, id)
    case Append(t, _, _) => t
    case Update(t, _, _) => t
    case DeleteMessage(t, _) => t
  }

  ghost predicate StepReady(st: State, step: Step, key: string, id: string) {
    step.Commit? ==>
      && DraftReady(step.draft, step.activeKey, step.protectedTargets, st.revision + 1)
      && Keeps(step.draft, st.scopes, key, id)
  }

  ghost predicate CallReady(st: State, op: Op)
    requires Shape(st.scopes)
  {
    CallOf(st, op).Ok? ==> StepReady(st, CallOf(st, op).value, Touched(op).scopeKey, Touched(op).conversationId)
  }

  lemma ActivateCall(st: State, terminal: Option<TerminalScope>, id: string, inFlight: seq<Target>)
    returns (key: string, protectedTargets: set<string>)
    requires Shape(st.scopes) && CallActivate(st, terminal, id, inFlight).Ok?
    requires CallActivate(st, terminal, id, inFlight).value.Commit?
    ensures ScopeKey(terminal) == Ok(key) && IsScopeKey(key) && ProtectedKeys(inFlight) == Ok(protectedTargets)
    ensures HasKey(st.scopes, key) || IsOpaqueId(id)
    ensures CallActivate(st, terminal, id, inFlight).value == Commit(key, ActivateDraft(st, key, id), protectedTargets)
  {
    hide Shape, ActivateDraft, IsOpaqueText;
    NoTerminalKeyIsValid();
    key := ScopeKey(terminal).value;
    protectedTargets := ProtectedKeys(inFlight).value;
  }

  lemma ActivateCallReady(st: State, op: Op)
    requires Inv(st) && op.Activate?
    ensures CallReady(st, op)
  {
    if CallOf(st, op).Ok? && CallOf(st, op).value.Commit? {
      var key, protectedTargets := ActivateCall(st, op.terminal, op.conversationId, op.inFlight);
      ActivateReady(st, key, op.conversationId, protectedTargets);
    }
  }

  lemma CreateCallReady(st: State, op: Op)
    requires Inv(st) && op.Create?
    ensures CallReady(st, op)
  {
    if CallOf(st, op).Ok? && CallOf(st, op).value.Commit? {
      CreateReady(st, op.scopeKey, op.newId);
    }
  }

  lemma SwitchCallReady(st: State, op: Op)
    requires Inv(st) && op.Switch?
    ensures CallReady(st, op)
  {
    if CallOf(st, op).Ok? && CallOf(st, op).value.Commit? {
      SwitchReady(st, FindTarget(st.scopes, op.to).value, CallOf(st, op).value.protectedTargets);
    }
  }

  /** The two drafts a deletion may leave. */
  lemma DeleteCall(st: State, t: Target, replacementId: string) returns (p: Place)
    requires Shape(st.scopes) && CallDelete(st, t, replacementId).Ok?
    requires CallDelete(st, t, replacementId).value.Commit?
    ensures PlaceOf(st.scopes, p, t)
    ensures var s := st.scopes[p.scope];
      var s' := DeleteFrom(s, t.conversationId, replacementId, st.revision + 1);
      var call := CallDelete(st, t, replacementId).value;
      || (t.scopeKey != st.activeScopeKey && call == Commit(st.activeScopeKey, WithoutScope(st.scopes, t.scopeKey), {}))
      || ((Drop(s, t.conversationId).conversations != [] || IsOpaqueId(replacementId))
          && call == Commit(st.activeScopeKey, st.scopes[p.scope := s'], {TargetKey(s'.key, s'.activeId)}))
  {
    hide Shape, Drop, WithoutScope, IsOpaqueTarget, IsOpaqueText, FindTarget;
    p := FindTarget(st.scopes, t).value;
  }

  lemma DeleteStepReady(st: State, t: Target, replacementId: string, p: Place, step: Step)
    requires Inv(st) && PlaceOf(st.scopes, p, t)
    requires var s := st.scopes[p.scope];
      var s' := DeleteFrom(s, t.conversationId, replacementId, st.revision + 1);
      || (t.scopeKey != st.activeScopeKey && step == Commit(st.activeScopeKey, WithoutScope(st.scopes, t.scopeKey), {}))
      || ((Drop(s, t.conversationId).conversations != [] || IsOpaqueId(replacementId))
          && step == Commit(st.activeScopeKey, st.scopes[p.scope := s'], {TargetKey(s'.key, s'.activeId)}))
    ensures StepReady(st, step, t.scopeKey, replacementId)
  {
    var s := st.scopes[p.scope];
    assert s in st.scopes;
    if t.scopeKey != st.activeScopeKey && step == Commit(st.activeScopeKey, WithoutScope(st.scopes, t.scopeKey), {}) {
      DropInactiveReady(st, t.scopeKey, replacementId);
    } else {
      DeleteReady(st, p, replacementId);
    }
  }

  lemma DeleteCallReady(st: State, op: Op)
    requires Inv(st) && op.Delete?
    ensures CallReady(st, op)
  {
    if CallOf(st, op).Ok? && CallOf(st, op).value.Commit? {
      var p := DeleteCall(st, op.gone, op.replacementId);
      DeleteStepReady(st, op.gone, op.replacementId, p, CallOf(st, op).value);
    }
  }

  ghost predicate OutcomeFresh(st: State, t: Target, outcome: Result<Option<Conversation>>) {
    outcome.Ok? && outcome.value.Some? ==>
      Fresh(outcome.value.value, st.scopes, t.scopeKey, t.conversationId, st.revision + 1)
  }

  lemma SameReady(st: State, t: Target)
    ensures StepReady(st, Same, t.scopeKey, t.conversationId)
  {
  }

  lemma CommitReady(st: State, t: Target, p: Place, c: Conversation)
    requires Inv(st) && PlaceOf(st.scopes, p, t)
    requires Fresh(c, st.scopes, t.scopeKey, t.conversationId, st.revision + 1)
    ensures c.id == t.conversationId
    ensures StepReady(st, CommitConversation(st, t, p, c), t.scopeKey, t.conversationId)
  {
    InvParts(st);
    hide Inv, Shape, Fresh, DraftReady, Keeps, PutConversation, TargetKey;
    FreshId(c, st.scopes, t.scopeKey, t.conversationId, st.revision + 1);
    PutReady(st, p, c, {TargetKey(t.scopeKey, t.conversationId)});
    hide CommitConversation;
    CommitIs(st, t, p, c);
  }

  lemma CommitIs(st: State, t: Target, p: Place, c: Conversation)
    requires Shape(st.scopes) && ValidPlace(st.scopes, p)
    requires c.id == st.scopes[p.scope].conversations[p.conversation].id
    ensures CommitConversation(st, t, p, c) == Commit(st.activeScopeKey, PutConversation(st.scopes, p, c, st.revision + 1),
      {TargetKey(t.scopeKey, t.conversationId)})
  {
    hide Shape, PutConversation;
  }

  lemma FreshId(c: Conversation, scopes: seq<Scope>, key: string, id: string, order: nat)
    requires Fresh(c, scopes, key, id, order)
    ensures c.id == id
  {
  }

  /** A draft that rewrites one conversation in place. */
  lemma RewriteReady(st: State, t: Target, p: Place, outcome: Result<Option<Conversation>>)
    requires Inv(st) && PlaceOf(st.scopes, p, t) && OutcomeFresh(st, t, outcome)
    ensures Rewrite(st, t, p, outcome).Ok? ==>
      StepReady(st, Rewrite(st, t, p, outcome).value, t.scopeKey, t.conversationId)
  {
    hide Inv, Fresh, StepReady;
    match outcome
    case Err(_) =>
    case Ok(None) => SameReady(st, t);
    case Ok(Some(c)) => CommitReady(st, t, p, c);
  }

  lemma AppendCallReady(st: State, op: Op)
    requires Inv(st) && op.Append?
    ensures CallReady(st, op)
  {
    hide DraftReady, Keeps, Inv;
    if FindTarget(st.scopes, op.at).Some? {
      var p := FindTarget(st.scopes, op.at).value;
      var c := st.scopes[p.scope].conversations[p.conversation];
      AppendOutcome(st, op.at, p, op.input, op.nfkc);
      hide AppendTo, Rewrite, FindTarget, IsOpaqueText;
      RewriteReady(st, op.at, p, AppendTo(c, op.input, st.revision + 1, op.nfkc));
    }
  }

  lemma AppendOutcome(st: State, t: Target, p: Place, input: MessageInput, nfkc: string -> string)
    requires Inv(st) && PlaceOf(st.scopes, p, t)
    ensures OutcomeFresh(st, t, AppendTo(st.scopes[p.scope].conversations[p.conversation], input, st.revision + 1, nfkc))
  {
    var s := st.scopes[p.scope];
    var c := s.conversations[p.conversation];
    if FindMessage(c.messages, input.id).None? && CheckMessage(input).Ok? {
      AppendedFresh(st, s, c, input, CheckMessage(input).value, nfkc);
    }
  }

  lemma UpdateCall(st: State, op: Op) returns (p: Place)
    requires Shape(st.scopes) && op.Update? && CallOf(st, op).Ok? && CallOf(st, op).value.Commit?
    ensures PlaceOf(st.scopes, p, op.within)
    ensures CallOf(st, op) == Rewrite(st, op.within, p,
      UpdateIn(st.scopes[p.scope].conversations[p.conversation], op.messageId, op.change, st.revision + 1))
  {
    hide Shape, UpdateIn, Rewrite, FindTarget, IsOpaqueText;
    p := FindTarget(st.scopes, op.within).value;
  }

  lemma UpdateCallReady(st: State, op: Op)
    requires Inv(st) && op.Update?
    ensures CallReady(st, op)
  {
    hide Inv, Shape, Fresh, StepReady, UpdateIn, Rewrite, CallOf, OutcomeFresh, Content, UniqueKeys, IsOpaqueText, HasKey;
    InvParts(st);
    if CallOf(st, op).Ok? {
      if CallOf(st, op).value.Commit? {
        var p := UpdateCall(st, op);
        var c := st.scopes[p.scope].conversations[p.conversation];
        UpdateOutcome(st, op.within, p, op.messageId, op.change);
        RewriteReady(st, op.within, p, UpdateIn(c, op.messageId, op.change, st.revision + 1));
      } else {
        SameReady(st, op.within);
      }
    }
  }

  lemma UpdateOutcome(st: State, t: Target, p: Place, id: string, change: MessageUpdate)
    requires Inv(st) && PlaceOf(st.scopes, p, t)
    ensures OutcomeFresh(st, t, UpdateIn(st.scopes[p.scope].conversations[p.conversation], id, change, st.revision + 1))
  {
    var s := st.scopes[p.scope];
    var c := s.conversations[p.conversation];
    var outcome := UpdateIn(c, id, change, st.revision + 1);
    if outcome.Ok? && outcome.value.Some? {
      var k := FindMessage(c.messages, id).value;
      var m' := UpdatedMessage(c.messages[k], change);
      assert Holds(st.scopes, s, c) && ConversationOk(c, st.revision);
      UpdatedMessageOk(c, st.revision, k, change);
      UpdatedFresh(st, s, c, k, m');
    }
  }

  lemma DeleteMessageCallReady(st: State, op: Op)
    requires Inv(st) && op.DeleteMessage?
    ensures CallReady(st, op)
  {
    hide DraftReady, Keeps, Inv;
    if FindTarget(st.scopes, op.from).Some? {
      var p := FindTarget(st.scopes, op.from).value;
      var s := st.scopes[p.scope];
      var c := s.conversations[p.conversation];
      DeletedFresh(st, s, c, op.deletedId);
      hide Fresh, Rewrite, FindTarget, IsOpaqueText;
      RewriteReady(st, op.from, p, DeleteIn(c, op.deletedId, st.revision + 1));
    }
  }

  lemma EveryCallReady(st: State, op: Op)
    requires Inv(st)
    ensures CallReady(st, op)
  {
    match op
    case Activate(_, _, _) => ActivateCallReady(st, op);
    case Create(_, _) => CreateCallReady(st, op);
    case Switch(_) => SwitchCallReady(st, op);
    case Delete(_, _) => DeleteCallReady(st, op);
    case Append(_, _, _) => AppendCallReady(st, op);
    case Update(_, _, _) => UpdateCallReady(st, op);
    case DeleteMessage(_, _) => DeleteMessageCallReady(st, op);
  }

  // ----- safety of every run -----

  lemma FinishInv(activeKey: string, draft: seq<Scope>, order: nat, protectedTargets: set<string>)
    requires DraftReady(draft, activeKey, protectedTargets, order)
    requires Finish(activeKey, draft, order, protectedTargets).Ok?
    ensures Inv(Finish(activeKey, draft, order, protectedTargets).value)
  {
    PassBounds(draft, activeKey, protectedTargets, order);
    var r := EnforceBounds(draft, activeKey, protectedTargets).value;
    if draft != [] {
      var s :| s in draft && s.key == activeKey;
      var s' := PassKeepsActive(draft, activeKey, protectedTargets, order, s);
    }
  }

  lemma ReadyDraft(st: State, op: Op, call: Step)
    requires Inv(st) && CallOf(st, op) == Ok(call) && call.Commit?
    ensures DraftReady(call.draft, call.activeKey, call.protectedTargets, st.revision + 1) && Shape(call.draft)
  {
    InvParts(st);
    hide Inv, Shape, CallOf, CallReady, DraftReady;
    EveryCallReady(st, op);
    ReadyStep(st, op, call);
    ShapeOfReady(call.draft, call.activeKey, call.protectedTargets, st.revision + 1);
  }

  lemma ReadyStep(st: State, op: Op, call: Step)
    requires Shape(st.scopes) && CallOf(st, op) == Ok(call) && call.Commit? && CallReady(st, op)
    ensures DraftReady(call.draft, call.activeKey, call.protectedTargets, st.revision + 1)
  {
    hide Shape, CallOf, DraftReady, Keeps, Touched;
  }

  lemma ShapeOfReady(draft: seq<Scope>, activeKey: string, protectedTargets: set<string>, order: nat)
    requires DraftReady(draft, activeKey, protectedTargets, order)
    ensures Shape(draft)
  {
  }

  lemma ApplyIsFinish(st: State, op: Op, call: Step)
    requires Shape(st.scopes) && CallOf(st, op) == Ok(call) && call.Commit?
    requires Shape(call.draft)
    ensures Apply(st, op) == Finish(call.activeKey, call.draft, st.revision + 1, call.protectedTargets)
  {
    hide Shape, CallOf, EnforceBounds, Finish;
  }

  lemma ApplyCases(st: State, op: Op)
    requires Shape(st.scopes) && Apply(st, op).Ok?
    ensures CallOf(st, op).Ok? && (CallOf(st, op).value.Commit? || Apply(st, op).value == st)
  {
    hide Shape, CallOf, Finish;
  }

  /** Every call that does not throw keeps all six limits and the rest of the
      invariant. */
  lemma ApplyInv(st: State, op: Op)
    requires Inv(st) && Apply(st, op).Ok?
    ensures Inv(Apply(st, op).value)
  {
    InvParts(st);
    hide Inv, Shape, CallOf, Apply;
    ApplyCases(st, op);
    if CallOf(st, op).value.Commit? {
      CommitInv(st, op, CallOf(st, op).value);
    }
  }

  lemma CommitInv(st: State, op: Op, call: Step)
    requires Inv(st) && Apply(st, op).Ok? && CallOf(st, op) == Ok(call) && call.Commit?
    ensures Inv(Apply(st, op).value)
  {
    InvParts(st);
    hide Inv, Shape, DraftReady, CallOf, Finish, Apply;
    ReadyDraft(st, op, call);
    ApplyIsFinish(st, op, call);
    FinishInv(call.activeKey, call.draft, st.revision + 1, call.protectedTargets);
  }

  lemma InitialInv()
    ensures Inv(INITIAL)
  {
    NoTerminalKeyIsValid();
    EmptyInv(INITIAL);
  }

  lemma EmptyInv(st: State)
    requires st.scopes == [] && st.totalTextBytes == 0 && IsScopeKey(st.activeScopeKey)
    ensures Inv(st)
  {
  }

  /** The state after any run of calls from the empty store; a call that throws
      leaves the state as it was. */
  ghost function Run(ops: seq<Op>): (st: State)
    ensures Inv(st)
  {
    if ops == [] then
      InitialInv();
      INITIAL
    else
      var before := Run(ops[..|ops| - 1]);
      var op := ops[|ops| - 1];
      match Apply(before, op)
      case Err(_) => before
      case Ok(after) =>
        ApplyInv(before, op);
        after
  }

  // ----- the bound throw -----

  /** The in-flight targets name every scope there is. */
  ghost predicate AllInFlight(scopes: seq<Scope>, inFlight: seq<Target>) {
    forall s :: s in scopes ==> exists i :: 0 <= i < |inFlight| && inFlight[i].scopeKey == s.key
  }

  lemma {:induction false} ProtectedKeysExact(targets: seq<Target>, key: string)
    requires ProtectedKeys(targets).Ok? && IsScopeKey(key)
    ensures ScopeProtected(ProtectedKeys(targets).value, key)
      <==> exists i :: 0 <= i < |targets| && targets[i].scopeKey == key
  {
    if targets != [] {
      var t, rest := targets[0], targets[1..];
      var keys := ProtectedKeys(rest).value;
      var own := TargetKey(t.scopeKey, t.conversationId);
      ProtectedKeysExact(rest, key);
      ProtectionPrefixExact(t.scopeKey, t.conversationId, key);
      assert ProtectedKeys(targets).value == {own} + keys;
      if t.scopeKey == key {
        assert own in ProtectedKeys(targets).value && targets[0].scopeKey == key;
      } else if ScopeProtected(keys, key) {
        var p :| p in keys && key + ['\0'] <= p;
        assert p in ProtectedKeys(targets).value;
        var i :| 0 <= i < |rest| && rest[i].scopeKey == key;
        assert targets[i + 1].scopeKey == key;
      } else {
        forall i | 0 <= i < |targets|
          ensures targets[i].scopeKey != key
        {
          assert i > 0 ==> targets[i] == rest[i - 1];
        }
      }
    }
  }

  lemma FinishThrows(activeKey: string, draft: seq<Scope>, order: nat, protectedTargets: set<string>)
    requires DraftReady(draft, activeKey, protectedTargets, order)
    ensures Finish(activeKey, draft, order, protectedTargets).Err?
      <==> |draft| == MAX_SCOPES + 1 && AllSpared(draft, activeKey, protectedTargets)
  {
    PassDefined(draft, activeKey, protectedTargets, order);
  }

  /** An activation that commits no draft does not throw the bound error. */
  lemma ActivateDeclines(st: State, op: Op)
    requires Shape(st.scopes) && op.Activate? && !(CallOf(st, op).Ok? && CallOf(st, op).value.Commit?)
    ensures Apply(st, op) != Err(BoundInvariant)
    ensures !(ScopeKey(op.terminal).Ok? && !HasKey(st.scopes, ScopeKey(op.terminal).value)
            && IsOpaqueId(op.conversationId) && ProtectedKeys(op.inFlight).Ok?)
  {
    hide Shape, IsOpaqueText, TargetKey, Finish;
    ProtectedKeysError(op.inFlight);
  }

  lemma ActivateCommitThrows(st: State, op: Op)
    requires Inv(st) && op.Activate? && CallOf(st, op).Ok? && CallOf(st, op).value.Commit?
    ensures ScopeKey(op.terminal).Ok? && ProtectedKeys(op.inFlight).Ok?
    ensures HasKey(st.scopes, ScopeKey(op.terminal).value) || IsOpaqueId(op.conversationId)
    ensures Apply(st, op) == Err(BoundInvariant) <==>
      !HasKey(st.scopes, ScopeKey(op.terminal).value) && |st.scopes| == MAX_SCOPES && AllInFlight(st.scopes, op.inFlight)
  {
    InvParts(st);
    hide Inv, DraftReady, Keeps, Shape, AllInFlight, ScopeKey, IsOpaqueText, ProtectedKeys, EnforceBounds, CallOf, Finish;
    var key, protectedTargets := ActivateCall(st, op.terminal, op.conversationId, op.inFlight);
    ActivateReady(st, key, op.conversationId, protectedTargets);
    ActivateDraftThrows(st, key, op.conversationId, op.inFlight);
    ApplyIsFinish(st, op, CallOf(st, op).value);
  }

  /** Activation hits AI_CONVERSATION_BOUND_INVARIANT exactly when it would add a
      thirteenth scope while the in-flight targets name all twelve existing ones. */
  lemma ActivationThrows(st: State, op: Op)
    requires Inv(st) && op.Activate?
    ensures Apply(st, op) == Err(BoundInvariant) <==>
      && ScopeKey(op.terminal).Ok? && !HasKey(st.scopes, ScopeKey(op.terminal).value)
      && IsOpaqueId(op.conversationId) && ProtectedKeys(op.inFlight).Ok?
      && |st.scopes| == MAX_SCOPES && AllInFlight(st.scopes, op.inFlight)
  {
    InvParts(st);
    hide Inv, Shape, AllInFlight, ScopeKey, IsOpaqueText, ProtectedKeys, EnforceBounds;
    if CallOf(st, op).Ok? && CallOf(st, op).value.Commit? {
      ActivateCommitThrows(st, op);
    } else {
      ActivateDeclines(st, op);
    }
  }

  lemma ActivateDraftThrows(st: State, key: string, id: string, inFlight: seq<Target>)
    requires Inv(st) && ProtectedKeys(inFlight).Ok?
    requires DraftReady(ActivateDraft(st, key, id), key, ProtectedKeys(inFlight).value, st.revision + 1)
    ensures Finish(key, ActivateDraft(st, key, id), st.revision + 1, ProtectedKeys(inFlight).value).Err?
      <==> !HasKey(st.scopes, key) && |st.scopes| == MAX_SCOPES && AllInFlight(st.scopes, inFlight)
  {
    var draft := ActivateDraft(st, key, id);
    FinishThrows(key, draft, st.revision + 1, ProtectedKeys(inFlight).value);
    if !HasKey(st.scopes, key) {
      PushedSpared(st, key, id, inFlight);
    }
  }

  lemma {:induction false} ProtectedKeysError(targets: seq<Target>)
    ensures ProtectedKeys(targets).Err? ==> ProtectedKeys(targets).error != BoundInvariant
  {
    if targets != [] {
      ProtectedKeysError(targets[1..]);
    }
  }

  lemma PushedSpared(st: State, key: string, id: string, inFlight: seq<Target>)
    requires Inv(st) && !HasKey(st.scopes, key) && ProtectedKeys(inFlight).Ok?
    ensures AllSpared(st.scopes + [NewScope(key, id, st.revision + 1)], key, ProtectedKeys(inFlight).value)
      <==> AllInFlight(st.scopes, inFlight)
  {
    var draft := st.scopes + [NewScope(key, id, st.revision + 1)];
    forall s | s in st.scopes
      ensures s in draft && s.key != key
      ensures ScopeProtected(ProtectedKeys(inFlight).value, s.key)
        <==> exists i :: 0 <= i < |inFlight| && inFlight[i].scopeKey == s.key
    {
      assert ScopeOk(s, st.revision);
      ProtectedKeysExact(inFlight, s.key);
    }
  }

  lemma CreatedLength(st: State, key: string, id: string, step: Step)
    requires Shape(st.scopes) && CallCreate(st, key, id) == Ok(step) && step.Commit?
    ensures IsScopeKey(key)
    ensures |step.draft| <= |st.scopes| || (!HasKey(st.scopes, key) && step.activeKey == key
      && step.draft == st.scopes + [NewScope(key, id, st.revision + 1)] && step.protectedTargets == {TargetKey(key, id)})
  {
    hide Shape, IsOpaqueText, HasKey, NewScope, TargetKey, FindTarget;
  }

  lemma SwitchedLength(st: State, t: Target, step: Step)
    requires Shape(st.scopes) && CallSwitch(st, t) == Ok(step) && step.Commit?
    ensures |step.draft| <= |st.scopes|
  {
    hide Shape, IsOpaqueText, FindTarget;
  }

  lemma DeletedLength(st: State, t: Target, replacementId: string, step: Step)
    requires Shape(st.scopes) && CallDelete(st, t, replacementId) == Ok(step) && step.Commit?
    ensures |step.draft| <= |st.scopes|
  {
    hide Shape, IsOpaqueText, FindTarget, Drop, DeleteFrom;
  }

  lemma RewriteLength(st: State, op: Op)
    requires Shape(st.scopes) && (op.Append? || op.Update? || op.DeleteMessage?)
    requires CallOf(st, op).Ok? && CallOf(st, op).value.Commit?
    ensures |CallOf(st, op).value.draft| <= |st.scopes|
  {
    hide Shape, Appended, AppendTo, UpdateIn, DeleteIn, IsOpaqueText, FindTarget;
  }

  /** Only creating or activating a new scope adds one. */
  lemma DraftLength(st: State, op: Op, step: Step)
    requires Shape(st.scopes) && !op.Activate? && CallOf(st, op) == Ok(step) && step.Commit?
    ensures op.Create? ==> IsScopeKey(op.scopeKey)
    ensures |step.draft| <= |st.scopes| || (op.Create? && !HasKey(st.scopes, op.scopeKey)
      && step.activeKey == op.scopeKey && step.draft == st.scopes + [NewScope(op.scopeKey, op.newId, st.revision + 1)]
      && step.protectedTargets == {TargetKey(op.scopeKey, op.newId)})
  {
    hide Shape, HasKey, IsOpaqueText, NewScope, TargetKey;
    hide CallCreate, CallSwitch, CallDelete, CallAppend, CallUpdate, CallDeleteMessage;
    match op
    case Create(key, id) => CreatedLength(st, key, id, step);
    case Switch(t) => SwitchedLength(st, t, step);
    case Delete(t, id) => DeletedLength(st, t, id, step);
    case Append(_, _, _) => RewriteLength(st, op);
    case Update(_, _, _) => RewriteLength(st, op);
    case DeleteMessage(_, _) => RewriteLength(st, op);
  }

  lemma CommitNeverThrows(st: State, op: Op, call: Step)
    requires Inv(st) && !op.Activate? && CallOf(st, op) == Ok(call) && call.Commit?
    requires DraftReady(call.draft, call.activeKey, call.protectedTargets, st.revision + 1)
    ensures Finish(call.activeKey, call.draft, st.revision + 1, call.protectedTargets).Ok?
  {
    InvParts(st);
    hide Inv, Shape, CallOf, Finish, DraftReady, AllSpared, NewScope, HasKey, TargetKey, IsOpaqueText;
    DraftLength(st, op, call);
    FinishThrows(call.activeKey, call.draft, st.revision + 1, call.protectedTargets);
    if |call.draft| > MAX_SCOPES {
      CreatedNotSpared(st, op.scopeKey, op.newId);
    }
  }

  /** No other call can hit the throw: its author was right for all six of them. */
  lemma OthersNeverThrow(st: State, op: Op)
    requires Inv(st) && !op.Activate?
    ensures Apply(st, op) != Err(BoundInvariant)
  {
    InvParts(st);
    hide Inv, Shape, CallOf, Finish, DraftReady;
    if CallOf(st, op).Ok? && CallOf(st, op).value.Commit? {
      var call := CallOf(st, op).value;
      ReadyDraft(st, op, call);
      CommitNeverThrows(st, op, call);
      ApplyIsFinish(st, op, call);
    } else {
      ErrorsAreInputErrors(st, op);
    }
  }

  lemma CreatedNotSpared(st: State, key: string, id: string)
    requires Inv(st) && IsScopeKey(key) && !HasKey(st.scopes, key) && |st.scopes| == MAX_SCOPES
    ensures !AllSpared(st.scopes + [NewScope(key, id, st.revision + 1)], key, {TargetKey(key, id)})
  {
    var s := st.scopes[0];
    assert s in st.scopes && ScopeOk(s, st.revision);
    ProtectionPrefixExact(key, id, s.key);
    assert s in st.scopes + [NewScope(key, id, st.revision + 1)];
  }

  lemma {:induction false} AttachmentErrors(inputs: seq<AttachmentInput>)
    ensures CheckAttachments(inputs).Err? ==> CheckAttachments(inputs).error != BoundInvariant
  {
    if inputs != [] {
      AttachmentErrors(inputs[1..]);
    }
  }

  lemma ErrorsAreInputErrors(st: State, op: Op)
    requires Shape(st.scopes) && !op.Activate?
    ensures CallOf(st, op).Err? ==> CallOf(st, op).error != BoundInvariant
  {
    hide Shape, Appended, UpdatedMessage, WithoutMessage, IsOpaqueText, IsToolActivity, FindTarget, FindMessage, IsImage;
    if op.Append? {
      AttachmentErrors(op.input.attachments);
    }
  }

  // ----- pigeonhole: few targets cannot name twelve scopes -----

  ghost function ScopeKeys(scopes: seq<Scope>): set<string> {
    set s | s in scopes :: s.key
  }

  lemma {:induction false} ScopeKeysSize(scopes: seq<Scope>)
    requires UniqueKeys(scopes)
    ensures |ScopeKeys(scopes)| == |scopes|
  {
    if scopes != [] {
      ScopeKeysSize(scopes[1..]);
      assert ScopeKeys(scopes) == {scopes[0].key} + ScopeKeys(scopes[1..]);
      assert scopes[0].key !in ScopeKeys(scopes[1..]);
    }
  }

  lemma SubsetSize(a: set<string>, b: set<string>)
    requires a <= b
    ensures |a| <= |b|
  {
    assert b == a + (b - a);
  }

  /** The scopes the in-flight targets name, other than the one being activated. */
  ghost function NamedOthers(op: Op): set<string>
    requires op.Activate?
  {
    set t | t in op.inFlight && ScopeKey(op.terminal) != Ok(t.scopeKey) :: t.scopeKey
  }

  /** While the in-flight targets name fewer than twelve other scopes no call ever hits
      the throw. */
  lemma FewInFlightNeverThrow(st: State, op: Op)
    requires Inv(st) && (op.Activate? ==> |NamedOthers(op)| < MAX_SCOPES)
    ensures Apply(st, op) != Err(BoundInvariant)
  {
    InvParts(st);
    if op.Activate? {
      ActivationThrows(st, op);
      hide Apply, Inv;
      if ScopeKey(op.terminal).Ok? && !HasKey(st.scopes, ScopeKey(op.terminal).value)
        && |st.scopes| == MAX_SCOPES && AllInFlight(st.scopes, op.inFlight)
      {
        ScopeKeysSize(st.scopes);
        forall k | k in ScopeKeys(st.scopes) ensures k in NamedOthers(op) {
          var s :| s in st.scopes && s.key == k;
          var i :| 0 <= i < |op.inFlight| && op.inFlight[i].scopeKey == k;
          assert op.inFlight[i] in op.inFlight;
        }
        SubsetSize(ScopeKeys(st.scopes), NamedOthers(op));
      }
    } else {
      OthersNeverThrow(st, op);
    }
  }

  // ----- what one call may do to a history -----

  lemma HistoriesShrink(st: State, op: Op, s': Scope, c': Conversation) returns (s: Scope, c: Conversation)
    requires Inv(st) && Apply(st, op).Ok? && Holds(Apply(st, op).value.scopes, s', c')
    requires Target(s'.key, c'.id) != Touched(op)
    ensures Holds(st.scopes, s, c) && s.key == s'.key && ConversationFrom(c', c)
  {
    InvParts(st);
    hide Inv, Shape, CallOf, Finish, Apply, DraftReady, Keeps, Touched, ConversationFrom;
    ApplyCases(st, op);
    var call := CallOf(st, op).value;
    if call.Commit? {
      var r := Apply(st, op).value;
      EveryCallReady(st, op);
      ReadyDraft(st, op, call);
      ApplyIsFinish(st, op, call);
      FinishFrom(call.activeKey, call.draft, st.revision + 1, call.protectedTargets);
      s, c := DraftHistory(st, op, call.draft, r.scopes, s', c');
    } else {
      s, c := s', c';
      ConversationFromReflexive(c);
    }
  }

  /** The conversation a call creates or rewrites in this state, if any: activating an
      existing scope touches none, and a deletion only the replacement it needs. */
  ghost function TouchedIn(st: State, op: Op): Option<Target> {
    match op
    case Activate(terminal, _, _) =>
      if ScopeKey(terminal).Ok? && FindScope(st.scopes, ScopeKey(terminal).value).Some? then None else Some(Touched(op))
    case Delete(t, _) => if Replaces(st, t) then Some(Touched(op)) else None
    case _ => Some(Touched(op))
  }

  /** Deleting this target empties its scope. */
  ghost predicate Replaces(st: State, t: Target) {
    var p := FindTarget(st.scopes, t);
    p.Some? && Drop(st.scopes[p.value.scope], t.conversationId).conversations == []
  }

  /** The same call with another unused id. */
  ghost function WithOtherId(op: Op, id: string): Op {
    match op
    case Activate(_, _, _) => op.(conversationId := id)
    case Delete(_, _) => op.(replacementId := id)
    case _ => op
  }

  lemma UnusedId(st: State, op: Op, id: string)
    requires Shape(st.scopes) && TouchedIn(st, op).None?
    ensures CallOf(st, WithOtherId(op, id)) == CallOf(st, op)
    ensures Touched(WithOtherId(op, id)).conversationId == id
  {
    hide Shape, Drop, WithoutScope, IsOpaqueText, ScopeKey;
  }

  lemma SameCallSameResult(st: State, op: Op, op': Op)
    requires Shape(st.scopes) && CallOf(st, op) == CallOf(st, op')
    ensures Apply(st, op) == Apply(st, op')
  {
    hide Shape, CallOf, Finish;
  }

  /** Every conversation of the result but the touched one was there before, and
      its messages are a suffix of what they were, up to image bodies. */
  lemma HistoriesOnlyShrink(st: State, op: Op, s': Scope, c': Conversation) returns (s: Scope, c: Conversation)
    requires Inv(st) && Apply(st, op).Ok? && Holds(Apply(st, op).value.scopes, s', c')
    requires TouchedIn(st, op) != Some(Target(s'.key, c'.id))
    ensures Holds(st.scopes, s, c) && s.key == s'.key && ConversationFrom(c', c)
  {
    InvParts(st);
    if Target(s'.key, c'.id) == Touched(op) {
      var other := WithOtherId(op, c'.id + "*");
      assert TouchedIn(st, op).None?;
      UnusedId(st, op, c'.id + "*");
      SameCallSameResult(st, op, other);
      hide Inv, Shape, Apply, CallOf, TouchedIn, Touched, WithOtherId, ConversationFrom;
      s, c := HistoriesShrink(st, other, s', c');
    } else {
      hide Inv, Shape, Apply, CallOf, TouchedIn, Touched, ConversationFrom;
      s, c := HistoriesShrink(st, op, s', c');
    }
  }

  lemma DeletedFromDraft(st: State, op: Op, step: Step, s: Scope, c: Conversation)
    requires Inv(st) && op.Delete? && CallOf(st, op) == Ok(step) && step.Commit?
    requires op.replacementId != op.gone.conversationId && Holds(step.draft, s, c) && s.key == op.gone.scopeKey
    ensures c.id != op.gone.conversationId
  {
    InvParts(st);
    var p := DeleteCall(st, op.gone, op.replacementId);
    var t := st.scopes[p.scope];
    var t' := DeleteFrom(t, op.gone.conversationId, op.replacementId, st.revision + 1);
    hide Inv, CallOf;
    if step.draft == st.scopes[p.scope := t'] && s.key == t.key {
      ScopePut(st.scopes, p.scope, t', s);
    }
  }

  lemma ScopePut(scopes: seq<Scope>, i: nat, s': Scope, s: Scope)
    requires UniqueKeys(scopes) && i < |scopes| && s in scopes[i := s'] && s.key == scopes[i].key
    ensures s == s'
  {
    var j :| 0 <= j < |scopes| && scopes[i := s'][j] == s;
    assert i < j ==> scopes[i].key != scopes[j].key;
  }

  /** A deleted conversation is gone from the result. */
  lemma DeletedIsGone(st: State, op: Op, s': Scope, c': Conversation)
    requires Inv(st) && op.Delete? && op.replacementId != op.gone.conversationId && Apply(st, op).Ok?
    requires Holds(Apply(st, op).value.scopes, s', c')
    ensures Target(s'.key, c'.id) != op.gone
  {
    hide Inv, Shape, CallOf, Finish, Apply, DraftReady, From, ConversationFrom, Content, UniqueKeys, IsOpaqueText;
    InvParts(st);
    ApplyCases(st, op);
    var call := CallOf(st, op).value;
    if call.Commit? {
      ReadyDraft(st, op, call);
      ApplyIsFinish(st, op, call);
      FinishFrom(call.activeKey, call.draft, st.revision + 1, call.protectedTargets);
      var t, d := FromHolds(Apply(st, op).value.scopes, call.draft, s', c');
      if t.key == op.gone.scopeKey {
        DeletedFromDraft(st, op, call, t, d);
      }
    } else {
      NothingToDelete(st, op, s', c');
    }
  }

  lemma NothingToDelete(st: State, op: Op, s: Scope, c: Conversation)
    requires Shape(st.scopes) && op.Delete? && CallOf(st, op) == Ok(Same) && Holds(st.scopes, s, c)
    ensures Target(s.key, c.id) != op.gone
  {
    assert UniqueKeys(st.scopes);
    hide Shape, Drop, WithoutScope, IsOpaqueText;
    NotThere(st.scopes, op.gone, s, c);
  }

  lemma NotThere(scopes: seq<Scope>, t: Target, s: Scope, c: Conversation)
    requires FindTarget(scopes, t).None? && Holds(scopes, s, c)
    requires UniqueKeys(scopes)
    ensures Target(s.key, c.id) != t
  {
  }

  lemma FinishFrom(activeKey: string, draft: seq<Scope>, order: nat, protectedTargets: set<string>)
    requires DraftReady(draft, activeKey, protectedTargets, order)
    requires Finish(activeKey, draft, order, protectedTargets).Ok?
    ensures From(Finish(activeKey, draft, order, protectedTargets).value.scopes, draft)
  {
    PassBounds(draft, activeKey, protectedTargets, order);
  }

  lemma DraftHistory(st: State, op: Op, draft: seq<Scope>, r: seq<Scope>, s': Scope, c': Conversation)
    returns (s: Scope, c: Conversation)
    requires From(r, draft) && Holds(r, s', c') && Target(s'.key, c'.id) != Touched(op)
    requires Keeps(draft, st.scopes, Touched(op).scopeKey, Touched(op).conversationId)
    ensures Holds(st.scopes, s, c) && s.key == s'.key && ConversationFrom(c', c)
  {
    var t;
    t, c := FromHolds(r, draft, s', c');
    assert !(t.key == Touched(op).scopeKey && c.id == Touched(op).conversationId);
    s :| Holds(st.scopes, s, c) && s.key == t.key;
  }

  /** The message an accepted append stores. */
  ghost function Stored(input: MessageInput, order: nat): Message
    requires CheckMessage(input).Ok?
  {
    Message(input.id, input.role, Utf8Prefix(input.content, MAX_MESSAGE_BYTES), CheckMessage(input).value, input.tool, order)
  }

  /** An accepted message is never lost: whatever the store held before, the call
      succeeds and the target conversation ends with that message. */
  lemma AppendKeepsMessage(st: State, op: Op, p: Place) returns (s': Scope, c': Conversation)
    requires Inv(st) && op.Append? && IsOpaqueTarget(op.at) && FindTarget(st.scopes, op.at) == Some(p)
    requires FindMessage(st.scopes[p.scope].conversations[p.conversation].messages, op.input.id).None?
    requires CheckMessage(op.input).Ok?
    ensures Apply(st, op).Ok? && Holds(Apply(st, op).value.scopes, s', c')
    ensures s'.key == op.at.scopeKey && c'.id == op.at.conversationId && c'.messages != []
    ensures Strips(c'.messages[|c'.messages| - 1], Stored(op.input, st.revision + 1))
  {
    var call, s, c := AppendedHolds(st, op, p);
    s', c' := AppendLands(st, op, call, s, c);
  }

  lemma AppendedHolds(st: State, op: Op, p: Place) returns (call: Step, s: Scope, c: Conversation)
    requires Shape(st.scopes) && op.Append? && IsOpaqueTarget(op.at) && FindTarget(st.scopes, op.at) == Some(p)
    requires FindMessage(st.scopes[p.scope].conversations[p.conversation].messages, op.input.id).None?
    requires CheckMessage(op.input).Ok?
    ensures CallOf(st, op) == Ok(call) && call.Commit? && Shape(call.draft)
    ensures Holds(call.draft, s, c) && s.key == op.at.scopeKey && c.id == op.at.conversationId
    ensures TargetKey(s.key, c.id) in call.protectedTargets
    ensures c.messages != [] && c.messages[|c.messages| - 1] == Stored(op.input, st.revision + 1)
  {
    hide Shape, CheckMessage, Appended, FindTarget, FindMessage, IsOpaqueTarget, Stored, CallOf;
    var c0 := st.scopes[p.scope].conversations[p.conversation];
    call := AppendCommits(st, op.at, op.input, op.nfkc, p);
    c := Appended(c0, op.input, CheckMessage(op.input).value, st.revision + 1, op.nfkc);
    AppendedLast(c0, op.input, st.revision + 1, op.nfkc);
    s := PutHolds(st.scopes, p, c, st.revision + 1);
  }

  /** The committed draft of a rewrite keeps its newest message. */
  lemma AppendLands(st: State, op: Op, call: Step, s: Scope, c: Conversation) returns (s': Scope, c': Conversation)
    requires Inv(st) && op.Append? && CallOf(st, op) == Ok(call) && call.Commit? && Shape(call.draft)
    requires Holds(call.draft, s, c) && TargetKey(s.key, c.id) in call.protectedTargets
    requires c.messages != [] && c.messages[|c.messages| - 1].createdOrder == st.revision + 1
    ensures Apply(st, op).Ok? && Holds(Apply(st, op).value.scopes, s', c')
    ensures s'.key == s.key && c'.id == c.id && c'.messages != []
    ensures Strips(c'.messages[|c'.messages| - 1], c.messages[|c.messages| - 1])
  {
    hide Inv, CallOf, EnforceBounds, Apply, Content, Shape, Strips, Finish, Keeps, Cappable;
    InvParts(st);
    ReadyDraft(st, op, call);
    AppliedFinish(st, op, call);
    s', c' := PassKeepsNewest(call.draft, call.activeKey, call.protectedTargets, st.revision + 1, s, c);
  }

  lemma AppendedLast(c: Conversation, input: MessageInput, order: nat, nfkc: string -> string)
    requires CheckMessage(input).Ok?
    ensures var ms := Appended(c, input, CheckMessage(input).value, order, nfkc).messages;
      |ms| == |c.messages| + 1 && ms[|c.messages|] == Stored(input, order)
    ensures Appended(c, input, CheckMessage(input).value, order, nfkc).id == c.id
  {
  }

  lemma AppliedFinish(st: State, op: Op, call: Step)
    requires Inv(st) && CallOf(st, op) == Ok(call) && call.Commit? && !op.Activate?
    requires Shape(call.draft)
    ensures Apply(st, op).Ok? && EnforceBounds(call.draft, call.activeKey, call.protectedTargets).Some?
    ensures EnforceBounds(call.draft, call.activeKey, call.protectedTargets) == Some(Apply(st, op).value.scopes)
  {
    InvParts(st);
    hide Inv, Shape, CallOf, EnforceBounds, Finish, Apply;
    OthersNeverThrow(st, op);
    ApplyIsFinish(st, op, call);
  }

  lemma AppendCommits(st: State, t: Target, input: MessageInput, nfkc: string -> string, p: Place) returns (call: Step)
    requires Shape(st.scopes) && IsOpaqueTarget(t) && FindTarget(st.scopes, t) == Some(p)
    requires FindMessage(st.scopes[p.scope].conversations[p.conversation].messages, input.id).None?
    requires CheckMessage(input).Ok?
    ensures CallOf(st, Append(t, input, nfkc)) == Ok(call) && call.Commit? && Shape(call.draft)
    ensures call == CommitConversation(st, t, p,
      Appended(st.scopes[p.scope].conversations[p.conversation], input, CheckMessage(input).value, st.revision + 1, nfkc))
  {
    hide Shape, DeriveTitle, Utf8Prefix, CheckMessage, IsOpaqueTarget, FindMessage, FindTarget, CommitConversation;
    var c := st.scopes[p.scope].conversations[p.conversation];
    var c' := Appended(c, input, CheckMessage(input).value, st.revision + 1, nfkc);
    call := CommitConversation(st, t, p, c');
    assert AppendTo(c, input, st.revision + 1, nfkc) == Ok(Some(c'));
  }

  lemma PutHolds(scopes: seq<Scope>, p: Place, c: Conversation, order: nat) returns (s: Scope)
    requires ValidPlace(scopes, p)
    ensures Holds(PutConversation(scopes, p, c, order), s, c) && s.key == scopes[p.scope].key
  {
    var r := PutConversation(scopes, p, c, order);
    s := r[p.scope];
    assert r[p.scope] in r && s.conversations[p.conversation] in s.conversations;
  }

  /** Activating another scope keeps every in-flight conversation. */
  lemma ActivationSparesInFlight(st: State, op: Op, s: Scope, c: Conversation) returns (s': Scope, c': Conversation)
    requires Inv(st) && op.Activate? && Apply(st, op).Ok? && Holds(st.scopes, s, c)
    requires Target(s.key, c.id) in op.inFlight
    ensures Holds(Apply(st, op).value.scopes, s', c') && s'.key == s.key && ConversationFrom(c', c)
  {
    hide Inv, Shape, Content, UniqueKeys, Apply, CallActivate, IsOpaqueText, ScopeKey, ProtectedKeys, ActivateDraft;
    hide ConversationFrom, EnforceBounds, Keeps, Cappable;
    InvParts(st);
    ApplyCases(st, op);
    if CallOf(st, op).value.Commit? {
      var key, protectedTargets := ActivateCall(st, op.terminal, op.conversationId, op.inFlight);
      ApplyIsFinish(st, op, CallOf(st, op).value);
      ActivateReady(st, key, op.conversationId, protectedTargets);
      ProtectedKeysHas(op.inFlight, Target(s.key, c.id));
      var t := ActivateDraftHolds(st, key, op.conversationId, s, c);
      s', c' := PassSpares(ActivateDraft(st, key, op.conversationId), key, protectedTargets, st.revision + 1, t, c);
    } else {
      s', c' := s, c;
      ConversationFromReflexive(c);
    }
  }

  lemma {:induction false} ProtectedKeysHas(targets: seq<Target>, t: Target)
    requires ProtectedKeys(targets).Ok? && t in targets
    ensures TargetKey(t.scopeKey, t.conversationId) in ProtectedKeys(targets).value
  {
    if targets[0] != t {
      ProtectedKeysHas(targets[1..], t);
    }
  }

  lemma ActivateDraftHolds(st: State, key: string, id: string, s: Scope, c: Conversation) returns (t: Scope)
    requires Shape(st.scopes) && Holds(st.scopes, s, c)
    ensures Holds(ActivateDraft(st, key, id), t, c) && t.key == s.key
  {
    var draft := ActivateDraft(st, key, id);
    var i :| 0 <= i < |st.scopes| && st.scopes[i] == s;
    t := draft[i];
    assert draft[i] in draft;
  }
}
