/** The two crossing selection queues of src/aiWorkspace.tsx: a provider selection
    runs after the previous provider selection and then waits for the model queue
    as it was at selection time, and the other way round. */
module SelectionQueues {
  import opened Text

  datatype Kind = Provider | Model

  /** `Queued` until its own queue reaches it, `Entered` until the captured tail of
      the other queue settles, `Writing` until its settings write settles. */
  datatype Status = Queued | Entered | Writing | Settled

  datatype Selection = Selection(kind: Kind, previous: Option<nat>, crossed: Option<nat>, status: Status)

  /** Selections by issue order; the tails are the two queue refs. */
  datatype Queues = Queues(selections: seq<Selection>, providerTail: Option<nat>, modelTail: Option<nat>)

  function Other(kind: Kind): Kind {
    if kind == Provider then Model else Provider
  }

  function Tail(q: Queues, kind: Kind): Option<nat> {
    if kind == Provider then q.providerTail else q.modelTail
  }

  /** A promise of the chain has resolved; no promise is the resolved initial one. */
  predicate Resolved(selections: seq<Selection>, p: Option<nat>) {
    p.Some? ==> p.value < |selections| && selections[p.value].status == Settled
  }

  datatype Event = Issue(kind: Kind) | Enter(n: nat) | Begin(n: nat) | Settle(n: nat)

  predicate Enabled(q: Queues, e: Event) {
    match e
    case Issue(_) => true
    case Enter(n) => n < |q.selections| && q.selections[n].status == Queued && Resolved(q.selections, q.selections[n].previous)
    case Begin(n) => n < |q.selections| && q.selections[n].status == Entered && Resolved(q.selections, q.selections[n].crossed)
    case Settle(n) => n < |q.selections| && q.selections[n].status == Writing
  }

  /** `selectProvider` and `selectProviderModel` capture both tails and become the
      tail of their own queue. */
  function Issued(q: Queues, kind: Kind): Queues {
    var n := |q.selections|;
    var s := Selection(kind, Tail(q, kind), Tail(q, Other(kind)), Queued);
    if kind == Provider then Queues(q.selections + [s], Some(n), q.modelTail)
    else Queues(q.selections + [s], q.providerTail, Some(n))
  }

  function Step(q: Queues, e: Event): Queues
    requires Enabled(q, e)
  {
    match e
    case Issue(kind) => Issued(q, kind)
    case Enter(n) => q.(selections := q.selections[n := q.selections[n].(status := Entered)])
    case Begin(n) => q.(selections := q.selections[n := q.selections[n].(status := Writing)])
    case Settle(n) => q.(selections := q.selections[n := q.selections[n].(status := Settled)])
  }

  // ----- the invariant -----

  /** `p` is the last selection of the kind among the first `n`. */
  ghost predicate LastOf(selections: seq<Selection>, n: nat, kind: Kind, p: Option<nat>)
    requires n <= |selections|
  {
    && (p.Some? ==> p.value < n && selections[p.value].kind == kind)
    && forall i :: (if p.Some? then p.value + 1 else 0) <= i < n ==> selections[i].kind != kind
  }

  ghost predicate Started(s: Selection) {
    s.status == Writing || s.status == Settled
  }

  ghost predicate SettledBelow(selections: seq<Selection>, n: nat)
    requires n <= |selections|
  {
    forall m :: 0 <= m < n ==> selections[m].status == Settled
  }

  /** What selection `n` captured when it was issued. */
  ghost predicate Captured(selections: seq<Selection>, n: nat)
    requires n < |selections|
  {
    && LastOf(selections, n, selections[n].kind, selections[n].previous)
    && LastOf(selections, n, Other(selections[n].kind), selections[n].crossed)
    && (selections[n].status != Queued ==> Resolved(selections, selections[n].previous))
  }

  ghost predicate Inv(q: Queues) {
    && (forall kind :: LastOf(q.selections, |q.selections|, kind, Tail(q, kind)))
    && (forall n :: 0 <= n < |q.selections| ==> Captured(q.selections, n))
    && (forall n :: 0 <= n < |q.selections| && Started(q.selections[n]) ==> SettledBelow(q.selections, n))
  }

  /** The two captured tails include the selection issued just before. */
  lemma CapturedTailsCover(q: Queues, n: nat)
    requires Inv(q) && n < |q.selections|
    requires Resolved(q.selections, q.selections[n].previous) && Resolved(q.selections, q.selections[n].crossed)
    ensures SettledBelow(q.selections, n)
  {
    if n > 0 {
      var s, before := q.selections[n], q.selections[n - 1];
      assert Captured(q.selections, n);
      assert before.kind == s.kind ==> s.previous == Some(n - 1);
      assert before.kind == Other(s.kind) ==> s.crossed == Some(n - 1);
      assert Started(before) && SettledBelow(q.selections, n - 1);
    }
  }

  /** The captured tails depend on the kinds issued before only. */
  lemma LastOfKinds(a: seq<Selection>, b: seq<Selection>, n: nat, kind: Kind, p: Option<nat>)
    requires n <= |a| && n <= |b| && LastOf(a, n, kind, p)
    requires forall i :: 0 <= i < n ==> a[i].kind == b[i].kind
    ensures LastOf(b, n, kind, p)
  {
  }

  lemma LastOfPush(a: seq<Selection>, b: seq<Selection>, kind: Kind, p: Option<nat>)
    requires |b| == |a| + 1 && LastOf(a, |a|, kind, p)
    requires forall i :: 0 <= i < |a| ==> a[i].kind == b[i].kind
    ensures LastOf(b, |b|, kind, if b[|a|].kind == kind then Some(|a|) else p)
  {
  }

  lemma CapturedStays(a: seq<Selection>, b: seq<Selection>, n: nat)
    requires n < |a| <= |b| && Captured(a, n)
    requires forall i :: 0 <= i < |a| ==> b[i] == a[i].(status := b[i].status)
    requires forall i :: 0 <= i < |a| && a[i].status == Settled ==> b[i].status == Settled
    requires b[n].status != Queued ==> Resolved(a, a[n].previous)
    ensures Captured(b, n)
  {
    LastOfKinds(a, b, n, a[n].kind, a[n].previous);
    LastOfKinds(a, b, n, Other(a[n].kind), a[n].crossed);
    hide LastOf;
  }

  lemma IssueInv(q: Queues, kind: Kind)
    requires Inv(q)
    ensures Inv(Issued(q, kind))
  {
    var q' := Issued(q, kind);
    var n := |q.selections|;
    forall k
      ensures LastOf(q'.selections, n + 1, k, Tail(q', k))
    {
      LastOfPush(q.selections, q'.selections, k, Tail(q, k));
      assert Tail(q', k) == if kind == k then Some(n) else Tail(q, k);
    }
    forall i | 0 <= i < |q'.selections|
      ensures Captured(q'.selections, i)
    {
      if i == n {
        LastOfKinds(q.selections, q'.selections, n, kind, Tail(q, kind));
        LastOfKinds(q.selections, q'.selections, n, Other(kind), Tail(q, Other(kind)));
      } else {
        assert Captured(q.selections, i);
        CapturedStays(q.selections, q'.selections, i);
      }
    }
    hide LastOf, Captured;
    forall i | 0 <= i < |q'.selections| && Started(q'.selections[i])
      ensures SettledBelow(q'.selections, i)
    {
      assert SettledBelow(q.selections, i);
    }
  }

  /** Changing one status forward keeps the captured tails. */
  lemma AdvanceInv(q: Queues, n: nat, status: Status)
    requires Inv(q) && n < |q.selections| && status != Queued
    requires q.selections[n].status != Settled && Resolved(q.selections, q.selections[n].previous)
    requires status == Entered || SettledBelow(q.selections, n)
    ensures Inv(q.(selections := q.selections[n := q.selections[n].(status := status)]))
  {
    var q' := q.(selections := q.selections[n := q.selections[n].(status := status)]);
    forall k
      ensures LastOf(q'.selections, |q'.selections|, k, Tail(q', k))
    {
      assert Tail(q', k) == Tail(q, k);
      LastOfKinds(q.selections, q'.selections, |q.selections|, k, Tail(q, k));
    }
    hide LastOf;
    forall i | 0 <= i < |q'.selections|
      ensures Captured(q'.selections, i)
    {
      assert Captured(q.selections, i);
      CapturedStays(q.selections, q'.selections, i);
    }
    hide Captured;
    forall i | 0 <= i < |q'.selections| && Started(q'.selections[i])
      ensures SettledBelow(q'.selections, i)
    {
      if i != n {
        assert SettledBelow(q.selections, i);
      }
    }
  }

  lemma StepInv(q: Queues, e: Event)
    requires Inv(q) && Enabled(q, e)
    ensures Inv(Step(q, e))
  {
    match e
    case Issue(kind) => IssueInv(q, kind);
    case Enter(n) => AdvanceInv(q, n, Entered);
    case Begin(n) =>
      assert Captured(q.selections, n);
      CapturedTailsCover(q, n);
      AdvanceInv(q, n, Writing);
    case Settle(n) =>
      assert Captured(q.selections, n) && Started(q.selections[n]);
      AdvanceInv(q, n, Settled);
  }

  const INITIAL: Queues := Queues([], None, None)

  /** The queues after any run; an event that is not enabled does not happen. */
  ghost function Run(events: seq<Event>): (q: Queues)
    ensures Inv(q)
  {
    if events == [] then INITIAL
    else
      var before := Run(events[..|events| - 1]);
      var e := events[|events| - 1];
      if Enabled(before, e) then
        StepInv(before, e);
        Step(before, e)
      else before
  }

  /** Settings writes of both kinds run one at a time and in issue order: a write
      begins only when every selection issued before it has settled. */
  lemma WritesInIssueOrder(events: seq<Event>, m: nat, n: nat)
    requires var q := Run(events); m < n < |q.selections| && Started(q.selections[n])
    ensures Run(events).selections[m].status == Settled
  {
    assert SettledBelow(Run(events).selections, n);
  }

  lemma OneWriteAtATime(events: seq<Event>, m: nat, n: nat)
    requires m < |Run(events).selections| && n < |Run(events).selections|
    requires Run(events).selections[m].status == Writing && Run(events).selections[n].status == Writing
    ensures m == n
  {
    if m < n {
      WritesInIssueOrder(events, m, n);
    } else if n < m {
      WritesInIssueOrder(events, n, m);
    }
  }

  // ----- no deadlock -----

  /** The earliest selection that has not settled can always take its next step. */
  ghost function NextEvent(q: Queues, n: nat): Event
    requires n < |q.selections| && q.selections[n].status != Settled
  {
    match q.selections[n].status
    case Queued => Enter(n)
    case Entered => Begin(n)
    case _ => Settle(n)
  }

  lemma EarliestEnabled(q: Queues, n: nat)
    requires Inv(q) && n < |q.selections| && q.selections[n].status != Settled && SettledBelow(q.selections, n)
    ensures Enabled(q, NextEvent(q, n))
  {
    assert Captured(q.selections, n);
  }

  ghost function StatusCost(s: Status): nat {
    match s
    case Queued => 3
    case Entered => 2
    case Writing => 1
    case Settled => 0
  }

  ghost function Work(selections: seq<Selection>): nat {
    if selections == [] then 0 else StatusCost(selections[0].status) + Work(selections[1..])
  }

  lemma {:induction false} WorkUpdate(selections: seq<Selection>, n: nat, s: Selection)
    requires n < |selections|
    ensures Work(selections[n := s]) == Work(selections) - StatusCost(selections[n].status) + StatusCost(s.status)
  {
    if n == 0 {
      assert selections[0 := s][1..] == selections[1..];
    } else {
      assert selections[n := s][1..] == selections[1..][n - 1 := s];
      WorkUpdate(selections[1..], n - 1, s);
    }
  }

  lemma {:induction false} Earliest(selections: seq<Selection>, n: nat) returns (m: nat)
    requires n < |selections| && selections[n].status != Settled
    ensures m <= n && selections[m].status != Settled && SettledBelow(selections, m)
    decreases n
  {
    if SettledBelow(selections, n) {
      m := n;
    } else {
      var k :| 0 <= k < n && selections[k].status != Settled;
      m := Earliest(selections, k);
    }
  }

  /** No run deadlocks as long as each write settles: from any reachable state a
      finite sequence of enabled events, none of them a new selection, settles
      every selection there is. */
  lemma {:induction false} EveryoneSettles(events: seq<Event>) returns (more: seq<Event>)
    ensures forall i :: 0 <= i < |more| ==> !more[i].Issue?
    ensures var q := Run(events + more);
      |q.selections| == |Run(events).selections| && SettledBelow(q.selections, |q.selections|)
    decreases Work(Run(events).selections)
  {
    hide Inv, Run, LastOf;
    more := [];
    assert events + [] == events;
    if !SettledBelow(Run(events).selections, |Run(events).selections|) {
      var e := OneStepFurther(events);
      var rest := EveryoneSettles(events + [e]);
      more := [e] + rest;
      assert events + more == events + [e] + rest;
    }
  }

  lemma OneStepFurther(events: seq<Event>) returns (e: Event)
    requires !SettledBelow(Run(events).selections, |Run(events).selections|)
    ensures !e.Issue? && Enabled(Run(events), e)
    ensures |Run(events + [e]).selections| == |Run(events).selections|
    ensures Work(Run(events + [e]).selections) < Work(Run(events).selections)
  {
    var q := Run(events);
    var n: nat :| 0 <= n < |q.selections| && q.selections[n].status != Settled;
    var m := Earliest(q.selections, n);
    EarliestEnabled(q, m);
    e := NextEvent(q, m);
    hide Inv;
    assert (events + [e])[..|events|] == events;
    assert Run(events + [e]) == Step(q, e);
    WorkUpdate(q.selections, m, Step(q, e).selections[m]);
  }

  /** Every step but a new selection brings the end nearer by one, so every schedule
      of such steps ends, */
  lemma EveryStepCounts(q: Queues, e: Event)
    requires Enabled(q, e) && !e.Issue?
    ensures Work(Step(q, e).selections) == Work(q.selections) - 1
  {
    WorkUpdate(q.selections, e.n, Step(q, e).selections[e.n]);
  }

  /** and it ends only with every selection settled. */
  lemma OnlyDoneIsStuck(events: seq<Event>)
    requires forall e :: Enabled(Run(events), e) ==> e.Issue?
    ensures SettledBelow(Run(events).selections, |Run(events).selections|)
  {
    hide Inv, Run, LastOf;
    if !SettledBelow(Run(events).selections, |Run(events).selections|) {
      var e := OneStepFurther(events);
      assert false;
    }
  }

  // ----- the queues as an object -----

  lemma RunPushed(events: seq<Event>, e: Event)
    requires Enabled(Run(events), e)
    ensures Run(events + [e]) == Step(Run(events), e)
  {
    hide Enabled, Step, Inv;
    assert (events + [e])[..|events|] == events;
  }

  class SelectionRefs {
    var selections: seq<Selection>
    var providerQueue: Option<nat>
    var modelQueue: Option<nat>
    /** Everything that happened so far. */
    ghost var trace: seq<Event>

    function State(): Queues
      reads this
    {
      Queues(selections, providerQueue, modelQueue)
    }

    ghost predicate Valid()
      reads this
    {
      State() == Run(trace)
    }

    constructor ()
      ensures Valid() && selections == []
    {
      selections, providerQueue, modelQueue, trace := [], None, None, [];
    }

    /** A provider selection waits for the last provider selection before it, and then
        for the last model selection before it. */
    method SelectProvider()
      requires Valid()
      modifies this
      ensures Valid() && trace == old(trace) + [Issue(Provider)]
      ensures |selections| == |old(selections)| + 1 && selections[..|old(selections)|] == old(selections)
      ensures var s := selections[|old(selections)|];
        && s.kind == Provider && s.status == Queued
        && LastOf(old(selections), |old(selections)|, Provider, s.previous)
        && LastOf(old(selections), |old(selections)|, Model, s.crossed)
    {
      hide Run, Captured, LastOf;
      RunPushed(trace, Issue(Provider));
      trace := trace + [Issue(Provider)];
      var modelQueueAtSelection := modelQueue;
      var queued := |selections|;
      selections := selections + [Selection(Provider, providerQueue, modelQueueAtSelection, Queued)];
      providerQueue := Some(queued);
    }

    /** A model selection waits for the last model selection before it, and then for
        the last provider selection before it. */
    method SelectProviderModel()
      requires Valid()
      modifies this
      ensures Valid() && trace == old(trace) + [Issue(Model)]
      ensures |selections| == |old(selections)| + 1 && selections[..|old(selections)|] == old(selections)
      ensures var s := selections[|old(selections)|];
        && s.kind == Model && s.status == Queued
        && LastOf(old(selections), |old(selections)|, Model, s.previous)
        && LastOf(old(selections), |old(selections)|, Provider, s.crossed)
    {
      hide Run, Captured, LastOf;
      RunPushed(trace, Issue(Model));
      trace := trace + [Issue(Model)];
      var providerQueueAtSelection := providerQueue;
      var queued := |selections|;
      selections := selections + [Selection(Model, modelQueue, providerQueueAtSelection, Queued)];
      modelQueue := Some(queued);
    }

    /** `persistSelection` is entered once the promise it was chained to resolved. */
    method Entered(n: nat)
      requires Valid() && Enabled(State(), Enter(n))
      modifies this
      ensures Valid() && trace == old(trace) + [Enter(n)]
    {
      RunPushed(trace, Enter(n));
      trace := trace + [Enter(n)];
      selections := selections[n := selections[n].(status := Status.Entered)];
    }

    /** Past the captured tail the settings write begins: everything issued before has
        settled, nothing issued after has begun, and no other write is under way. */
    method BeginWrite(n: nat)
      requires Valid() && Enabled(State(), Begin(n))
      modifies this
      ensures Valid() && trace == old(trace) + [Begin(n)]
      ensures n < |selections| && SettledBelow(selections, n)
      ensures forall m :: 0 <= m < |selections| && selections[m].status == Writing ==> m == n
      ensures forall m :: n < m < |selections| ==> !Started(selections[m])
    {
      hide Run, LastOf, Captured;
      RunPushed(trace, Begin(n));
      trace := trace + [Begin(n)];
      selections := selections[n := selections[n].(status := Writing)];
      assert selections == Run(trace).selections && Inv(Run(trace));
      assert SettledBelow(selections, n);
      assert forall m :: n < m < |selections| && Started(selections[m]) ==> SettledBelow(selections, m);
    }

    /** The write settles, accepted or rejected. */
    method Settled(n: nat)
      requires Valid() && Enabled(State(), Settle(n))
      modifies this
      ensures Valid() && trace == old(trace) + [Settle(n)]
      ensures n < |selections| && SettledBelow(selections, n + 1)
      ensures forall m :: 0 <= m < |selections| ==> selections[m].status != Writing
    {
      hide Run, LastOf, Captured;
      assert Inv(Run(trace));
      RunPushed(trace, Settle(n));
      trace := trace + [Settle(n)];
      assert SettledBelow(selections, n);
      assert forall m :: n < m < |selections| && Started(selections[m]) ==> SettledBelow(selections, m);
      selections := selections[n := selections[n].(status := Status.Settled)];
    }
  }
}
