/** What the workspace of src/ConnectionLogsWorkspace.tsx shows over a run: its revision
    only grows exactly as long as no refresh begins while a mutation may still install a
    list, as a remount under another `refreshKey` can make happen. */
module ShownCatalog {
  import opened Text
  import opened ConnectionLogs

  ghost function Shown(s: System): int {
    if s.client.catalog.Some? then s.client.catalog.value.revision else -1
  }

  // ----- one event -----

  /** A refresh that nothing newer outdated ends with an older list. */
  ghost predicate RefreshOvertaken(s: System, e: Event) {
    && e.RefreshEnds? && e.i < |s.refreshes| && s.refreshes[e.i].seen.Some?
    && MayInstall(s.client, s.refreshes[e.i]) && s.refreshes[e.i].seen.value.revision < Shown(s)
  }

  ghost function Key(a: Active): (nat, nat)
    requires a.phase.Committing?
  {
    (a.call, a.phase.attempt)
  }

  ghost predicate IsAccepted(s: System, a: Active) {
    a.phase.Committing? && Key(a) in s.replies && s.replies[Key(a)].Accepted?
  }

  ghost predicate IsRefused(s: System, a: Active) {
    a.phase.Committing? && Key(a) in s.replies && s.replies[Key(a)].Conflict?
  }

  /** An accepted commit is applied over a newer list. */
  ghost predicate ReplyOvertaken(s: System, e: Event) {
    && e.ReplyArrives? && s.active.Some? && IsAccepted(s, s.active.value) && s.client.mounted
    && s.replies[Key(s.active.value)].revision < |s.contents|
    && s.replies[Key(s.active.value)].revision < Shown(s)
  }

  /** The list a mutation awaited is applied over a newer one: a second list whenever the
      workspace is there, a first one if the mutation changes nothing in it. */
  ghost predicate ListOvertaken(s: System, e: Event) {
    && e.ListReturns? && s.active.Some? && !s.active.value.phase.Committing?
    && Readable(s, s.active.value.phase.since, e.read) && e.read < Shown(s)
    && s.active.value.call < |s.calls|
    && if s.active.value.phase.Relisting? then s.client.mounted
       else s.calls[s.active.value.call].same(s.contents[e.read])
  }

  lemma ShownGoesBack(s: System, e: Event)
    requires Inv(s)
    ensures Shown(Step(s, e)) < Shown(s) <==> RefreshOvertaken(s, e) || ReplyOvertaken(s, e) || ListOvertaken(s, e)
  {
    assert RefsSafe(s);
    hide Inv, RefsSafe;
  }

  // ----- when a refresh may be overtaken -----

  /** The commit request of the call that can still make it install something. */
  ghost predicate Promising(s: System, a: Active, r: Request) {
    && a.phase.Committing? && (r.call, r.attempt) == Key(a)
    && (a.phase.attempt == 0 || r.expected == |s.contents| - 1)
  }

  /** The running call may still install a list in this workspace: it awaits a list, its
      commit was accepted, or was refused or is on its way and is accepted or retried. */
  ghost predicate Exposed(s: System) {
    s.client.mounted && s.active.Some? && StillInstalls(s, s.active.value)
  }

  ghost predicate StillInstalls(s: System, a: Active) {
    || !a.phase.Committing?
    || IsAccepted(s, a)
    || (IsRefused(s, a) && a.phase.attempt == 0)
    || (Key(a) !in s.replies && exists r :: r in s.network && Promising(s, a, r))
  }

  /** No refresh begins while a mutation may still install a list. */
  ghost predicate Quiet(logs: Logs, events: seq<Event>) {
    forall n :: 0 <= n < |events| && events[n].RefreshBegins? ==> !Exposed(Run(logs, events[..n]))
  }

  /** The shown revision never goes back. */
  ghost predicate Forward(logs: Logs, events: seq<Event>) {
    forall n :: 0 <= n < |events| ==> Shown(Run(logs, events[..n])) <= Shown(Run(logs, events[..n + 1]))
  }

  // ----- the invariant of quiet runs -----

  ghost predicate RefreshesOrdered(s: System) {
    && (forall i, j :: 0 <= i < j < |s.refreshes| ==> s.refreshes[i].sequence != s.refreshes[j].sequence)
    && (Exposed(s) ==> forall i :: 0 <= i < |s.refreshes| ==> s.refreshes[i].sequence < s.client.loadSequence)
    && (s.client.mounted ==> forall i :: 0 <= i < |s.refreshes| ==> NewestSeesShown(s, s.refreshes[i]))
  }

  ghost predicate NewestSeesShown(s: System, r: Refresh) {
    r.sequence == s.client.loadSequence && r.seen.Some? ==> Shown(s) <= r.seen.value.revision
  }

  ghost predicate CallOrdered(s: System) {
    s.active.Some? ==>
      var a := s.active.value;
      match a.phase
      case Listing(_) => s.client.catalog.None?
      case Relisting(since) => s.client.mounted ==> Shown(s) <= since
      case Committing(_) => Exposed(s) ==> BaseShown(s, a)
  }

  /** What is shown is the base of the commit, and the commit is of the next revision. */
  ghost predicate BaseShown(s: System, a: Active)
    requires a.phase.Committing?
  {
    && s.client.catalog == Some(a.base)
    && (forall r :: r in s.network && r.call == a.call ==> r.expected == a.base.revision)
    && (IsAccepted(s, a) ==> s.replies[Key(a)].revision == a.base.revision + 1)
  }

  ghost predicate Ordered(s: System) {
    RefreshesOrdered(s) && CallOrdered(s)
  }

  lemma ForwardStep(s: System, e: Event)
    requires Inv(s) && Ordered(s)
    ensures Shown(s) <= Shown(Step(s, e))
  {
    ShownGoesBack(s, e);
    hide Step, Inv;
  }

  // ----- every event keeps it -----

  /** An event that leaves the refreshes on their way. */
  lemma RefreshesKept(s: System, s': System)
    requires RefsSafe(s) && RefreshesOrdered(s)
    requires s'.refreshes == s.refreshes && s.client.loadSequence <= s'.client.loadSequence
    requires Exposed(s') ==> Exposed(s) || s.client.loadSequence < s'.client.loadSequence
    requires s'.client.mounted ==> s.client.mounted
    requires s'.client.mounted ==> Shown(s') == Shown(s) || Exposed(s) || s.client.loadSequence < s'.client.loadSequence
    ensures RefreshesOrdered(s')
  {
    hide Exposed;
    forall i | s'.client.mounted && 0 <= i < |s'.refreshes|
      ensures NewestSeesShown(s', s'.refreshes[i])
    {
      assert NewestSeesShown(s, s.refreshes[i]);
    }
  }

  lemma RefreshBeginsOrdered(s: System)
    requires Inv(s) && Ordered(s) && !Exposed(s)
    ensures Ordered(Step(s, RefreshBegins))
  {
    var s' := Step(s, RefreshBegins);
    assert RefsSafe(s);
    hide Inv, RefsSafe;
    ExposedKept(s, s');
    forall i | s'.client.mounted && 0 <= i < |s'.refreshes|
      ensures NewestSeesShown(s', s'.refreshes[i])
    {
    }
  }

  /** An event that touches only the refs and the refreshes. */
  lemma ExposedKept(s: System, s': System)
    requires s' == s.(client := s'.client, refreshes := s'.refreshes)
    requires s'.client.mounted == s.client.mounted
    ensures Exposed(s') == Exposed(s)
    ensures CallOrdered(s) && s'.client.catalog == s.client.catalog ==> CallOrdered(s')
  {
    if s.active.Some? {
      forall r
        ensures Promising(s', s.active.value, r) == Promising(s, s.active.value, r)
      {
      }
    }
  }

  lemma RefreshListsOrdered(s: System, i: nat)
    requires Inv(s) && Ordered(s)
    ensures Ordered(Step(s, RefreshLists(i)))
  {
    var s' := Step(s, RefreshLists(i));
    assert RefsSafe(s);
    hide Inv, RefsSafe;
    ExposedKept(s, s');
    forall j | s'.client.mounted && 0 <= j < |s'.refreshes|
      ensures NewestSeesShown(s', s'.refreshes[j])
    {
      assert NewestSeesShown(s, s.refreshes[j]);
    }
  }

  lemma RefreshEndsOrdered(s: System, i: nat)
    requires Inv(s) && Ordered(s)
    ensures Ordered(Step(s, RefreshEnds(i)))
  {
    assert s.contents != [];
    hide Inv;
    if i < |s.refreshes| {
      var s' := Step(s, RefreshEnds(i));
      ExposedKept(s, s');
      RestOrdered(s, s', i);
    }
  }

  lemma RestOrdered(s: System, s': System, i: nat)
    requires RefreshesOrdered(s) && i < |s.refreshes| && Exposed(s') == Exposed(s)
    requires s' == s.(client := RefreshEnded(s.client, s.refreshes[i]), refreshes := Remove(s.refreshes, i))
    ensures RefreshesOrdered(s')
  {
    hide Exposed;
    forall j | 0 <= j < |s'.refreshes|
      ensures s'.refreshes[j] == s.refreshes[if j < i then j else j + 1]
      ensures s.refreshes[if j < i then j else j + 1].sequence != s.refreshes[i].sequence
      ensures s'.client.mounted ==> NewestSeesShown(s', s'.refreshes[j])
    {
      assert s.client.mounted ==> NewestSeesShown(s, s.refreshes[if j < i then j else j + 1]);
    }
  }

  // A mutation that takes the lock outdates every refresh, so only the call is left.

  lemma MutateOrdered(s: System, m: Mutation)
    requires Inv(s) && Ordered(s)
    ensures Ordered(Step(s, MutateCalled(m)))
  {
    var s' := Step(s, MutateCalled(m));
    if !s.client.locked {
      assert RefsSafe(s);
      MutateCallOrdered(s, m);
      hide Inv, RefsSafe, Exposed;
      RefreshesKept(s, s');
    }
  }

  lemma MutateCallOrdered(s: System, m: Mutation)
    requires Inv(s) && !s.client.locked
    ensures CallOrdered(Mutate(s, m))
  {
    var s' := Mutate(s, m);
    if s.client.catalog.Some? && s'.active.Some? {
      var call := |s.calls|;
      assert Unspent(s, call) && Budget(s, call) == 0;
      NoRequests(s.network, call);
      assert forall r :: r in s'.network && r.call == call ==> r.expected == s.client.catalog.value.revision;
      assert (call, 0) !in s.replies;
    }
  }

  lemma NoRequests(network: seq<Request>, call: nat)
    requires Sent(network, call) == 0
    ensures forall r :: r in network ==> r.call != call
  {
    forall r | r in network
      ensures r.call != call
    {
      var i :| 0 <= i < |network| && network[i] == r;
      SentNone(network, call, i);
    }
  }

  lemma ListedOrdered(s: System, read: nat)
    requires Inv(s) && Ordered(s)
    ensures Ordered(Step(s, ListReturns(read)))
  {
    var s' := Step(s, ListReturns(read));
    assert RefsSafe(s);
    ListedCallOrdered(s, read);
    hide Inv, RefsSafe;
    RefreshesKept(s, s');
  }

  lemma ListedCallOrdered(s: System, read: nat)
    requires Inv(s) && CallOrdered(s)
    ensures CallOrdered(Listed(s, read))
  {
    var s' := Listed(s, read);
    if s.active.Some? && s'.active.Some? && s'.active != s.active {
      var call := s.active.value.call;
      assert Unspent(s, call) && Budget(s, call) == 0;
      NoRequests(s.network, call);
      assert forall r :: r in s'.network && r.call == call ==> r.expected == read;
      assert Key(s'.active.value) !in s.replies;
    }
  }

  lemma RepliedOrdered(s: System)
    requires Inv(s) && Ordered(s)
    ensures Ordered(Step(s, ReplyArrives))
  {
    var s' := Step(s, ReplyArrives);
    assert RefsSafe(s);
    hide Inv, RefsSafe;
    RefreshesKept(s, s');
  }

  lemma EndedOrdered(s: System, s': System)
    requires Inv(s) && Ordered(s)
    requires s' == s.(client := s'.client, active := s'.active) && s'.client.catalog == s.client.catalog
    requires (s'.active.None? && s'.client.mounted == s.client.mounted) || (s'.active == s.active && !s'.client.mounted)
    requires s.client.loadSequence <= s'.client.loadSequence
    ensures Ordered(s')
  {
    assert RefsSafe(s);
    hide Inv, RefsSafe;
    RefreshesKept(s, s');
  }

  // What happens at the server and on the way there leaves the refs.

  lemma ServerOrdered(s: System, s': System)
    requires Inv(s) && Ordered(s)
    requires s' == s.(network := s'.network, replies := s'.replies, contents := s'.contents, authors := s'.authors)
    requires Exposed(s') ==> Exposed(s)
    requires s.active.Some? && s.active.value.phase.Committing? && Exposed(s) ==> BaseShown(s', s.active.value)
    ensures Ordered(s')
  {
    assert RefsSafe(s);
    hide Inv, RefsSafe, Exposed, BaseShown;
    RefreshesKept(s, s');
  }

  lemma OtherWritesOrdered(s: System, logs: Logs)
    requires Inv(s) && Ordered(s)
    ensures Ordered(Step(s, OtherWrites(logs)))
  {
    var s' := Step(s, OtherWrites(logs));
    OtherWritesExposed(s, logs);
    hide Inv, Exposed;
    ServerOrdered(s, s');
  }

  lemma OtherWritesExposed(s: System, logs: Logs)
    requires Inv(s)
    ensures Exposed(Step(s, OtherWrites(logs))) ==> Exposed(s)
  {
  }

  lemma LostOrdered(s: System, i: nat)
    requires Inv(s) && Ordered(s)
    ensures Ordered(Step(s, RequestLost(i)))
  {
    var s' := Step(s, RequestLost(i));
    assert forall r :: r in s'.network ==> r in s.network;
    hide Inv;
    ServerOrdered(s, s');
  }

  lemma ProcessOrdered(s: System, i: nat)
    requires Inv(s) && Ordered(s) && i < |s.network|
    ensures Ordered(Step(s, ServerProcesses(i)))
  {
    var s' := Step(s, ServerProcesses(i));
    assert RequestSafe(s, s.network[i]);
    if s.active.Some? && s.active.value.phase.Committing? {
      if s.network[i].call == s.active.value.call {
        OwnProcessed(s, i);
      } else {
        ForeignProcessed(s, i);
      }
    }
    hide Inv, Exposed;
    assert forall r :: r in s'.network ==> r in s.network;
    ServerOrdered(s, s');
  }

  lemma RefusedIsSpent(s: System)
    requires Inv(s) && s.active.Some? && IsRefused(s, s.active.value)
    ensures forall r :: r in s.network ==> r.call != s.active.value.call
  {
    assert Unspent(s, s.active.value.call) && Budget(s, s.active.value.call) == 0;
    NoRequests(s.network, s.active.value.call);
  }

  lemma OwnProcessed(s: System, i: nat)
    requires Inv(s) && i < |s.network| && s.active.Some? && s.active.value.phase.Committing?
    requires s.network[i].call == s.active.value.call
    ensures Exposed(Process(s, i)) ==> Exposed(s)
  {
    var a := s.active.value;
    assert RequestSafe(s, s.network[i]);
    if IsRefused(s, a) {
      RefusedIsSpent(s);
    }
    hide Inv;
    assert Key(a) !in s.replies && StillInstalls(Process(s, i), a) ==> Promising(s, a, s.network[i]);
  }

  lemma ForeignProcessed(s: System, i: nat)
    requires Inv(s) && i < |s.network| && s.active.Some? && s.active.value.phase.Committing?
    requires s.network[i].call != s.active.value.call
    ensures Exposed(Process(s, i)) ==> Exposed(s)
  {
    var a, s' := s.active.value, Process(s, i);
    forall r | r in s'.network && Promising(s', a, r)
      ensures r in s.network && Promising(s, a, r)
    {
      var j :| 0 <= j < |s.network| && s.network[j] == r;
      assert RequestSafe(s, r);
    }
    hide Inv;
  }

  lemma OrderedStep(s: System, e: Event)
    requires Inv(s) && Ordered(s) && (e.RefreshBegins? ==> !Exposed(s))
    ensures Ordered(Step(s, e))
  {
    assert s.contents != [];
    hide Inv, Ordered, Exposed;
    match e
    case RefreshBegins => RefreshBeginsOrdered(s);
    case RefreshLists(i) => RefreshListsOrdered(s, i);
    case RefreshEnds(i) => RefreshEndsOrdered(s, i);
    case MutateCalled(m) => MutateOrdered(s, m);
    case ListReturns(read) => ListedOrdered(s, read);
    case ReplyArrives => RepliedOrdered(s);
    case CallFails => EndedOrdered(s, Step(s, e));
    case OtherWrites(logs) => OtherWritesOrdered(s, logs);
    case ServerProcesses(i) => if i < |s.network| { ProcessOrdered(s, i); }
    case RequestLost(i) => LostOrdered(s, i);
    case Unmounted => EndedOrdered(s, Step(s, e));
  }

  // ----- quiet runs only go forward -----

  lemma RunTake(logs: Logs, events: seq<Event>, n: nat)
    requires n < |events|
    ensures Run(logs, events[..n + 1]) == Step(Run(logs, events[..n]), events[n])
  {
    assert events[..n + 1] == events[..n] + [events[n]];
    RunAppend(logs, events[..n], events[n]);
  }

  lemma {:induction false} QuietOrdered(logs: Logs, events: seq<Event>, n: nat)
    requires Quiet(logs, events) && n <= |events|
    ensures Ordered(Run(logs, events[..n]))
  {
    if n > 0 {
      hide Inv, Step, Exposed;
      QuietOrdered(logs, events, n - 1);
      RunTake(logs, events, n - 1);
      hide Run, Ordered;
      OrderedStep(Run(logs, events[..n - 1]), events[n - 1]);
    }
  }

  /** As long as no refresh begins while a mutation may still install a list, the shown
      revision never goes back. */
  lemma QuietIsForward(logs: Logs, events: seq<Event>)
    requires Quiet(logs, events)
    ensures Forward(logs, events)
  {
    hide Inv, Step, Run, Ordered, Quiet;
    forall n | 0 <= n < |events|
      ensures Shown(Run(logs, events[..n])) <= Shown(Run(logs, events[..n + 1]))
    {
      QuietOrdered(logs, events, n);
      RunTake(logs, events, n);
      ForwardStep(Run(logs, events[..n]), events[n]);
    }
  }

  /** In particular, it never goes back if no refresh begins under the mutation lock. */
  lemma UnlockedRefreshesForward(logs: Logs, events: seq<Event>)
    requires forall n :: 0 <= n < |events| && events[n].RefreshBegins? ==> !Run(logs, events[..n]).client.locked
    ensures Forward(logs, events)
  {
    forall n | 0 <= n < |events| && events[n].RefreshBegins?
      ensures !Exposed(Run(logs, events[..n]))
    {
      RefsFacts(Run(logs, events[..n]));
    }
    QuietIsForward(logs, events);
  }

  // ----- and any other refresh can be overtaken -----

  /** `later` goes on from `events` without beginning another refresh. */
  ghost predicate Continues(events: seq<Event>, later: seq<Event>) {
    events <= later && forall i :: |events| <= i < |later| ==> !later[i].RefreshBegins?
  }

  /** The newest refresh, at `i`, has read a revision that was the newest when it did. */
  ghost predicate Pending(s: System, i: nat) {
    && s.client.mounted && i < |s.refreshes| && s.refreshes[i].sequence == s.client.loadSequence
    && s.refreshes[i].seen.Some? && s.refreshes[i].seen.value.revision < |s.contents|
  }

  ghost predicate Falls(logs: Logs, events: seq<Event>, history: seq<Event>, last: Event) {
    && Continues(events, history) && !last.RefreshBegins?
    && Shown(Run(logs, history + [last])) < Shown(Run(logs, history))
  }

  /** The newest refresh ends after the mutation has installed something newer. */
  lemma EndsLate(logs: Logs, events: seq<Event>, i: nat)
    requires var s := Run(logs, events); Pending(s, i) && s.refreshes[i].seen.value.revision < Shown(s)
    ensures Falls(logs, events, events, RefreshEnds(i))
  {
    RunAppend(logs, events, RefreshEnds(i));
    ShownGoesBack(Run(logs, events), RefreshEnds(i));
  }

  /** One more event, after which the revision falls. */
  lemma FallsLater(logs: Logs, events: seq<Event>, e: Event, history: seq<Event>, last: Event)
    requires !e.RefreshBegins? && Falls(logs, events + [e], history, last)
    ensures Falls(logs, events, history, last)
  {
    hide Run;
    assert history[..|events|] == (events + [e])[..|events|] == events;
    assert history[|events|] == (events + [e])[|events|] == e;
  }

  /** The commit was accepted: it installs its revision, and the refresh ends after it. */
  lemma FallsAfterReply(logs: Logs, events: seq<Event>, i: nat) returns (history: seq<Event>, last: Event)
    requires var s := Run(logs, events);
      && Pending(s, i) && s.active.Some? && IsAccepted(s, s.active.value)
      && s.refreshes[i].seen.value.revision < s.replies[Key(s.active.value)].revision
    ensures Falls(logs, events, history, last)
  {
    hide Inv;
    var s := Run(logs, events);
    AcceptedIsAuthored(logs, events, Key(s.active.value));
    RunAppend(logs, events, ReplyArrives);
    hide Run;
    history, last := events + [ReplyArrives], RefreshEnds(i);
    EndsLate(logs, history, i);
    FallsLater(logs, events, ReplyArrives, history, last);
  }

  /** The commit on its way expects the newest revision, so that it is accepted. */
  lemma FallsAfterCommit(logs: Logs, events: seq<Event>, i: nat, j: nat) returns (history: seq<Event>, last: Event)
    requires var s := Run(logs, events);
      && Pending(s, i) && s.active.Some? && s.active.value.phase.Committing?
      && j < |s.network| && (s.network[j].call, s.network[j].attempt) == Key(s.active.value)
      && s.network[j].expected == |s.contents| - 1
    ensures Falls(logs, events, history, last)
  {
    hide Inv;
    RunAppend(logs, events, ServerProcesses(j));
    hide Run, Falls;
    history, last := FallsAfterReply(logs, events + [ServerProcesses(j)], i);
    FallsLater(logs, events, ServerProcesses(j), history, last);
  }

  /** The call awaits a list: it reads what another writer wrote after the refresh read. */
  lemma FallsAfterList(logs: Logs, events: seq<Event>, i: nat) returns (history: seq<Event>, last: Event)
    requires var s := Run(logs, events); Pending(s, i) && s.active.Some? && !s.active.value.phase.Committing?
    ensures Falls(logs, events, history, last)
  {
    hide Inv, Falls;
    var s := Run(logs, events);
    var e, f := OtherWrites([]), ListReturns(|s.contents|);
    var h := events + [e];
    RunAppend(logs, events, e);
    RunAppend(logs, h, f);
    ActiveFacts(s);
    hide Run;
    ListsNewer(s, i);
    if Shown(Run(logs, h + [f])) == |s.contents| {
      history, last := h + [f], RefreshEnds(i);
      EndsLate(logs, history, i);
    } else {
      history, last := FallsAfterCommit(logs, h + [f], i, |s.network|);
    }
    FallsLater(logs, h, f, history, last);
    FallsLater(logs, events, e, history, last);
  }

  lemma ActiveFacts(s: System)
    requires Inv(s) && s.active.Some?
    ensures s.active.value.call < |s.calls|
    ensures !s.active.value.phase.Committing? ==> s.active.value.phase.since < |s.contents|
  {
    assert RefsSafe(s);
  }

  /** Another writer writes a revision and the awaited list reads it: it is shown now, or
      the commit that expects it is on its way. */
  lemma ListsNewer(s: System, i: nat)
    requires Pending(s, i) && s.active.Some? && !s.active.value.phase.Committing? && s.active.value.call < |s.calls|
    requires s.active.value.phase.since < |s.contents|
    ensures var t := Step(Step(s, OtherWrites([])), ListReturns(|s.contents|));
      && Pending(t, i) && t.refreshes == s.refreshes && |t.contents| == |s.contents| + 1
      && (Shown(t) == |s.contents|
          || (t.active.Some? && t.active.value.phase.Committing? && |t.network| == |s.network| + 1
              && (t.network[|s.network|].call, t.network[|s.network|].attempt) == Key(t.active.value)
              && t.network[|s.network|].expected == |s.contents|))
  {
  }

  /** The first commit was refused, so that the call lists again. */
  lemma FallsAfterRefusal(logs: Logs, events: seq<Event>, i: nat) returns (history: seq<Event>, last: Event)
    requires var s := Run(logs, events);
      && Pending(s, i) && s.active.Some?
      && IsRefused(s, s.active.value) && s.active.value.phase.attempt == 0
    ensures Falls(logs, events, history, last)
  {
    hide Inv;
    RunAppend(logs, events, ReplyArrives);
    hide Run, Falls;
    history, last := FallsAfterList(logs, events + [ReplyArrives], i);
    FallsLater(logs, events, ReplyArrives, history, last);
  }

  /** The commit is on its way and is accepted or, once, retried. */
  lemma FallsAfterRequest(logs: Logs, events: seq<Event>, i: nat, r: Request) returns (history: seq<Event>, last: Event)
    requires var s := Run(logs, events); Pending(s, i) && s.active.Some? && r in s.network && Promising(s, s.active.value, r)
    ensures Falls(logs, events, history, last)
  {
    hide Inv;
    var s := Run(logs, events);
    var j :| 0 <= j < |s.network| && s.network[j] == r;
    if r.expected == |s.contents| - 1 {
      history, last := FallsAfterCommit(logs, events, i, j);
    } else {
      RunAppend(logs, events, ServerProcesses(j));
      hide Run, Falls;
      history, last := FallsAfterRefusal(logs, events + [ServerProcesses(j)], i);
      FallsLater(logs, events, ServerProcesses(j), history, last);
    }
  }

  lemma ReadsNow(logs: Logs, events: seq<Event>, i: nat)
    requires var s := Run(logs, events);
      && s.client.mounted && i < |s.refreshes|
      && s.refreshes[i] == Refresh(s.client.loadSequence, None)
    ensures var s := Run(logs, events);
      && Pending(Run(logs, events + [RefreshLists(i)]), i)
      && Run(logs, events + [RefreshLists(i)]) == s.(refreshes := Run(logs, events + [RefreshLists(i)]).refreshes)
  {
    RunAppend(logs, events, RefreshLists(i));
    hide Run;
  }

  /** A refresh that begins now, reads what another writer then writes and ends at once. */
  function Overtaking(i: nat, logs: Logs): seq<Event> {
    [RefreshBegins] + [OtherWrites(logs)] + [RefreshLists(i)] + [RefreshEnds(i)]
  }

  lemma Overtaken(logs: Logs, events: seq<Event>, written: Logs)
    requires Run(logs, events).client.mounted
    ensures var s := Run(logs, events);
      var t := Run(logs, events + Overtaking(|s.refreshes|, written));
      && Shown(t) == |s.contents| && t.active == s.active && t.calls == s.calls && t.replies == s.replies
      && t.contents == s.contents + [written] && t.client.mounted
  {
    hide Inv, Step;
    var i, h := |Run(logs, events).refreshes|, events + [RefreshBegins];
    RunAppend(logs, events, RefreshBegins);
    RunAppend(logs, h, OtherWrites(written));
    RunAppend(logs, h + [OtherWrites(written)], RefreshLists(i));
    RunAppend(logs, h + [OtherWrites(written)] + [RefreshLists(i)], RefreshEnds(i));
    assert events + Overtaking(i, written) == h + [OtherWrites(written)] + [RefreshLists(i)] + [RefreshEnds(i)];
    OvertakenInFour(Run(logs, events), written);
  }

  lemma OvertakenInFour(s: System, written: Logs)
    requires s.contents != [] && s.client.mounted
    ensures var i := |s.refreshes|;
      var t := Step(Step(Step(Step(s, RefreshBegins), OtherWrites(written)), RefreshLists(i)), RefreshEnds(i));
      && Shown(t) == |s.contents| && t.active == s.active && t.calls == s.calls && t.replies == s.replies
      && t.contents == s.contents + [written] && t.client.mounted
  {
  }

  /** An accepted commit that is answered after such a refresh shows an older revision. */
  lemma AnswerOvertaken(logs: Logs, events: seq<Event>, written: Logs)
    requires var s := Run(logs, events); s.client.mounted && s.active.Some? && IsAccepted(s, s.active.value)
    ensures var s := Run(logs, events);
      var h, revision := events + Overtaking(|s.refreshes|, written), s.replies[Key(s.active.value)].revision;
      && Shown(Run(logs, h)) == |s.contents|
      && Shown(Run(logs, h + [ReplyArrives])) == revision < |s.contents|
  {
    hide Inv, Step;
    var s := Run(logs, events);
    var h, k := events + Overtaking(|s.refreshes|, written), Key(s.active.value);
    Overtaken(logs, events, written);
    AcceptedIsAuthored(logs, events, k);
    RunAppend(logs, h, ReplyArrives);
    hide Run, Overtaking;
    AcceptedReply(Run(logs, h), s.replies[k].revision, Run(logs, h).contents[s.replies[k].revision]);
  }

  lemma OvertakingContinues(logs: Logs, events: seq<Event>, i: nat, written: Logs, last: Event)
    requires var h := events + Overtaking(i, written); Shown(Run(logs, h + [last])) < Shown(Run(logs, h))
    requires !last.RefreshBegins?
    ensures Falls(logs, events + [RefreshBegins], events + Overtaking(i, written), last)
  {
    hide Run;
    var h := events + Overtaking(i, written);
    assert h[..|events| + 1] == events + [RefreshBegins];
    forall j | |events| + 1 <= j < |h|
      ensures !h[j].RefreshBegins?
    {
      assert h[j] == Overtaking(i, written)[j - |events|];
    }
  }

  /** Wherever a refresh begins while a mutation may still install a list, the run can go
      on, with no further refresh beginning, so that the shown revision goes back. */
  lemma ExposedFalls(logs: Logs, events: seq<Event>) returns (history: seq<Event>, last: Event)
    requires Exposed(Run(logs, events))
    ensures Falls(logs, events + [RefreshBegins], history, last)
  {
    hide Inv, Falls;
    var s := Run(logs, events);
    var a, i, begun := s.active.value, |s.refreshes|, events + [RefreshBegins];
    RunAppend(logs, events, RefreshBegins);
    if IsAccepted(s, a) {
      AnswerOvertaken(logs, events, []);
      history, last := events + Overtaking(i, []), ReplyArrives;
      OvertakingContinues(logs, events, i, [], last);
    } else {
      ReadsNow(logs, begun, i);
      hide Run;
      var read := begun + [RefreshLists(i)];
      if !a.phase.Committing? {
        history, last := FallsAfterList(logs, read, i);
      } else if IsRefused(s, a) {
        history, last := FallsAfterRefusal(logs, read, i);
      } else {
        var r :| r in s.network && Promising(s, a, r);
        history, last := FallsAfterRequest(logs, read, i, r);
      }
      FallsLater(logs, begun, RefreshLists(i), history, last);
    }
  }

  /** Exactly the quiet runs are safe: however any part of the run goes on without another
      refresh, the shown revision never goes back. */
  lemma ForwardExactly(logs: Logs, events: seq<Event>)
    ensures Quiet(logs, events) <==>
      forall n, later :: 0 <= n <= |events| && Continues(events[..n], later) ==> Forward(logs, later)
  {
    hide Inv, Run, Exposed;
    if Quiet(logs, events) {
      forall n, later | 0 <= n <= |events| && Continues(events[..n], later)
        ensures Forward(logs, later)
      {
        QuietLater(logs, events, n, later);
        QuietIsForward(logs, later);
      }
    } else {
      var n :| 0 <= n < |events| && events[n].RefreshBegins? && Exposed(Run(logs, events[..n]));
      var history, last := ExposedFalls(logs, events[..n]);
      assert events[..n + 1] == events[..n] + [RefreshBegins];
      FallsIsNotForward(logs, events[..n + 1], history, last);
      assert Continues(events[..n + 1], history + [last]);
    }
  }

  lemma QuietLater(logs: Logs, events: seq<Event>, n: nat, later: seq<Event>)
    requires Quiet(logs, events) && n <= |events| && Continues(events[..n], later)
    ensures Quiet(logs, later)
  {
    hide Inv, Run, Exposed;
    forall k | 0 <= k < |later| && later[k].RefreshBegins?
      ensures !Exposed(Run(logs, later[..k]))
    {
      assert later[..k] == events[..k];
      assert later[k] == events[..n][k] == events[k];
    }
  }

  lemma FallsIsNotForward(logs: Logs, events: seq<Event>, history: seq<Event>, last: Event)
    requires Falls(logs, events, history, last)
    ensures Continues(events, history + [last]) && !Forward(logs, history + [last])
  {
    hide Inv, Run;
    var later, n := history + [last], |history|;
    assert later[..n] == history && later[..n + 1] == later;
    assert !(Shown(Run(logs, later[..n])) <= Shown(Run(logs, later[..n + 1])));
  }

  // ----- overtaken lists, as runs -----

  /** The second list of a mutation arrives after a refresh that has read something newer:
      what is shown goes back to it, whatever the mutation. */
  lemma SecondListOvertaken(logs: Logs, events: seq<Event>, written: Logs)
    requires var s := Run(logs, events); s.client.mounted && s.active.Some? && s.active.value.phase.Relisting?
    ensures var s := Run(logs, events);
      var h, since := events + Overtaking(|s.refreshes|, written), s.active.value.phase.since;
      && Shown(Run(logs, h)) == |s.contents|
      && Shown(Run(logs, h + [ListReturns(since)])) == since < |s.contents|
  {
    hide Inv, Step;
    var s := Run(logs, events);
    Overtaken(logs, events, written);
    ActiveFacts(s);
    var h, since := events + Overtaking(|s.refreshes|, written), s.active.value.phase.since;
    RunAppend(logs, h, ListReturns(since));
    SecondListInstalls(Run(logs, h), since);
    hide Run, Overtaking;
  }

  lemma SecondListInstalls(s: System, read: nat)
    requires s.client.mounted && s.active.Some? && s.active.value.phase.Relisting? && s.active.value.call < |s.calls|
    requires Readable(s, s.active.value.phase.since, read)
    ensures Shown(Step(s, ListReturns(read))) == read
  {
  }

  /** So does the first list, if the mutation changes nothing in it. */
  lemma FirstListOvertaken(logs: Logs, events: seq<Event>, written: Logs)
    requires var s := Run(logs, events); s.client.mounted && s.active.Some? && s.active.value.phase.Listing?
    requires var s := Run(logs, events); var a := s.active.value;
      a.call < |s.calls| && a.phase.since < |s.contents| && s.calls[a.call].same(s.contents[a.phase.since])
    ensures var s := Run(logs, events);
      var h, since := events + Overtaking(|s.refreshes|, written), s.active.value.phase.since;
      && Shown(Run(logs, h)) == |s.contents|
      && Shown(Run(logs, h + [ListReturns(since)])) == since < |s.contents|
  {
    hide Inv;
    var s := Run(logs, events);
    Overtaken(logs, events, written);
    RunAppend(logs, events + Overtaking(|s.refreshes|, written), ListReturns(s.active.value.phase.since));
    hide Run, Overtaking;
  }

  /** The first refresh of a workspace. */
  function Install(): seq<Event> {
    [] + [RefreshBegins] + [RefreshLists(0)] + [RefreshEnds(0)]
  }

  /** A mutation whose first commit is refused since another writer came first. */
  function Relist(m: Mutation, b: Logs): seq<Event> {
    Install() + [MutateCalled(m)] + [OtherWrites(b)] + [ServerProcesses(0)] + [ReplyArrives]
  }

  /** Twelve events from the start, one of them a refresh under the lock, after which the
      workspace shows revision 2 and then revision 1. */
  lemma GoesBackFromTheStart(logs: Logs, m: Mutation, b: Logs, c: Logs)
    requires !m.same(logs)
    ensures var h := Relist(m, b) + Overtaking(0, c);
      Shown(Run(logs, h)) == 2 && Shown(Run(logs, h + [ListReturns(1)])) == 1
  {
    RelistReached(logs, m, b);
    SecondListOvertaken(logs, Relist(m, b), c);
  }

  lemma RelistReached(logs: Logs, m: Mutation, b: Logs)
    requires !m.same(logs)
    ensures var s := Run(logs, Relist(m, b));
      && s.client.mounted && s.refreshes == [] && |s.contents| == 2
      && s.active == Some(Active(0, Relisting(1), Catalog(0, logs)))
  {
    hide Inv;
    CommitSent(logs, m);
    var h := Install() + [MutateCalled(m)];
    RunAppend(logs, h, OtherWrites(b));
    RunAppend(logs, h + [OtherWrites(b)], ServerProcesses(0));
    RunAppend(logs, h + [OtherWrites(b)] + [ServerProcesses(0)], ReplyArrives);
    hide Run;
  }

  lemma CommitSent(logs: Logs, m: Mutation)
    requires !m.same(logs)
    ensures Run(logs, Install() + [MutateCalled(m)]) ==
      System(Client(Some(Catalog(0, logs)), 2, true, true), [], [m], Some(Active(0, Committing(0), Catalog(0, logs))),
             [logs], [], [Request(0, 0, 0, m.apply(logs))], map[])
  {
    hide Inv;
    ShownAtFirst(logs);
    RunAppend(logs, Install(), MutateCalled(m));
    hide Run, Install;
  }

  lemma ShownAtFirst(logs: Logs)
    ensures Run(logs, Install()) == System(Client(Some(Catalog(0, logs)), 1, false, true), [], [], None, [logs], [], [], map[])
  {
    hide Inv;
    assert Run(logs, []) == Initial(logs);
    RunAppend(logs, [], RefreshBegins);
    RunAppend(logs, [] + [RefreshBegins], RefreshLists(0));
    RunAppend(logs, [] + [RefreshBegins] + [RefreshLists(0)], RefreshEnds(0));
    hide Run;
  }
}
