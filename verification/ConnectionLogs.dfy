/** The connection-log workspace of src/ConnectionLogsWorkspace.tsx: catalogue
    refreshes, and mutations that commit by compare-and-swap with one retry, against
    a server other writers change and responses that may be late or lost. */
module ConnectionLogs {
  import opened Text

  /** A log record, by value. */
  type Log = nat
  type Logs = seq<Log>

  /** The `mutate` argument of one call and whether it returned its input's records. */
  datatype Mutation = Mutation(apply: Logs -> Logs, same: Logs -> bool)

  datatype Catalog = Catalog(revision: nat, logs: Logs)

  // ----- the client's refs -----

  /** A running `mutateCatalog` between two awaits. A list it awaits was asked for when
      the server held revision `since`, and is read then or later. */
  datatype Phase = Listing(since: nat) | Committing(attempt: nat) | Relisting(since: nat)

  datatype Client = Client(
    catalog: Option<Catalog>, loadSequence: nat, locked: bool, mounted: bool)

  /** A running `refreshCatalog`; `seen` is what its `list` returned. */
  datatype Refresh = Refresh(sequence: nat, seen: Option<Catalog>)

  predicate MayInstall(c: Client, r: Refresh) {
    c.mounted && r.sequence == c.loadSequence
  }

  function RefreshBegun(c: Client): Client {
    c.(loadSequence := c.loadSequence + 1)
  }

  function RefreshEnded(c: Client, r: Refresh): Client {
    if r.seen.Some? && MayInstall(c, r) then c.(catalog := r.seen) else c
  }

  /** Taking the mutation lock invalidates every refresh already on its way. */
  function Locked(c: Client): Client {
    c.(locked := true, loadSequence := c.loadSequence + 1)
  }

  function Released(c: Client): Client {
    c.(locked := false)
  }

  // ----- server and network -----

  datatype Author = Call(id: nat) | Other

  datatype Request = Request(call: nat, attempt: nat, expected: nat, logs: Logs)

  datatype Reply = Accepted(revision: nat) | Conflict

  /** `contents[r]` is revision `r`, `authors[r]` who wrote revision `r + 1`;
      `active` is the call holding the lock, with its current base. */
  datatype System = System(
    client: Client, refreshes: seq<Refresh>, calls: seq<Mutation>, active: Option<Active>,
    contents: seq<Logs>, authors: seq<Author>, network: seq<Request>, replies: map<(nat, nat), Reply>)

  datatype Active = Active(call: nat, phase: Phase, base: Catalog)

  datatype Event =
    | RefreshBegins
    | RefreshLists(i: nat)
    | RefreshEnds(i: nat)
    | MutateCalled(mutation: Mutation)
    | ListReturns(read: nat)
    | ReplyArrives
    | CallFails
    | OtherWrites(logs: Logs)
    | ServerProcesses(i: nat)
    | RequestLost(i: nat)
    | Unmounted

  function CurrentCatalog(s: System): Catalog
    requires s.contents != []
  {
    Catalog(|s.contents| - 1, s.contents[|s.contents| - 1])
  }

  predicate Readable(s: System, since: nat, read: nat) {
    since <= read < |s.contents|
  }

  function Remove<T>(xs: seq<T>, i: nat): seq<T>
    requires i < |xs|
  {
    xs[..i] + xs[i + 1..]
  }

  /** The body of the retry loop: apply the mutation to the base and, unless it
      changed nothing, send the commit of this attempt. */
  function Attempt(s: System, call: nat, attempt: nat, base: Catalog): System
    requires call < |s.calls|
  {
    var logs := s.calls[call].apply(base.logs);
    if s.calls[call].same(base.logs) then
      s.(client := Released(s.client).(catalog := Some(base)), active := None)
    else
      s.(active := Some(Active(call, Committing(attempt), base)),
         network := s.network + [Request(call, attempt, base.revision, logs)])
  }

  /** `mutateCatalog` up to its first await */
  function Mutate(s: System, m: Mutation): System
    requires s.contents != []
  {
    if s.client.locked then s
    else
      var call := |s.calls|;
      var s1 := s.(client := Locked(s.client), calls := s.calls + [m]);
      match s.client.catalog
      case Some(base) => Attempt(s1, call, 0, base)
      case None => s1.(active := Some(Active(call, Listing(|s.contents| - 1), Catalog(0, []))))
  }

  /** The awaited `list` of a mutation returned what the server held at revision `read`.
      An unmounted retry stops there. */
  function Listed(s: System, read: nat): System {
    if s.active.None? || s.active.value.call >= |s.calls| then s
    else
      var a := s.active.value;
      match a.phase
      case Listing(since) =>
        if !Readable(s, since, read) then s
        else
          var base := Catalog(read, s.contents[read]);
          Attempt(if s.client.catalog.None? then s.(client := s.client.(catalog := Some(base))) else s, a.call, 0, base)
      case Relisting(since) =>
        if !Readable(s, since, read) then s
        else if s.client.mounted then
          var base := Catalog(read, s.contents[read]);
          Attempt(s.(client := s.client.(catalog := Some(base))), a.call, 1, base)
        else s.(client := Released(s.client), active := None)
      case Committing(_) => s
  }

  /** The commit of the active call got its answer. Only a conflict of the first
      attempt is retried. */
  function Replied(s: System): System
    requires s.contents != []
  {
    if s.active.None? || !s.active.value.phase.Committing? then s
    else
      var a := s.active.value;
      var key := (a.call, a.phase.attempt);
      if key !in s.replies then s
      else
        match s.replies[key]
        case Accepted(revision) =>
          var c := Released(s.client);
          s.(client := if s.client.mounted && revision < |s.contents|
                       then c.(catalog := Some(Catalog(revision, s.contents[revision]))) else c,
             active := None)
        case Conflict =>
          if a.phase.attempt > 0 then s.(client := Released(s.client), active := None)
          else s.(active := Some(a.(phase := Relisting(|s.contents| - 1))))
  }

  function Process(s: System, i: nat): System
    requires i < |s.network| && s.contents != []
  {
    var r := s.network[i];
    var rest := s.(network := Remove(s.network, i));
    if r.expected == |s.contents| - 1 then
      rest.(contents := s.contents + [r.logs], authors := s.authors + [Call(r.call)],
            replies := s.replies[(r.call, r.attempt) := Accepted(|s.contents|)])
    else rest.(replies := s.replies[(r.call, r.attempt) := Conflict])
  }

  function Step(s: System, e: Event): System
    requires s.contents != []
  {
    match e
    case RefreshBegins =>
      s.(client := RefreshBegun(s.client), refreshes := s.refreshes + [Refresh(s.client.loadSequence + 1, None)])
    case RefreshLists(i) =>
      if i < |s.refreshes| && s.refreshes[i].seen.None? then
        s.(refreshes := s.refreshes[i := s.refreshes[i].(seen := Some(CurrentCatalog(s)))])
      else s
    case RefreshEnds(i) =>
      if i < |s.refreshes| then
        s.(client := RefreshEnded(s.client, s.refreshes[i]), refreshes := Remove(s.refreshes, i))
      else s
    case MutateCalled(m) => Mutate(s, m)
    case ListReturns(read) => Listed(s, read)
    case ReplyArrives => Replied(s)
    case CallFails => if s.active.Some? then s.(client := Released(s.client), active := None) else s
    case OtherWrites(logs) => s.(contents := s.contents + [logs], authors := s.authors + [Other])
    case ServerProcesses(i) => if i < |s.network| then Process(s, i) else s
    case RequestLost(i) => if i < |s.network| then s.(network := Remove(s.network, i)) else s
    case Unmounted => s.(client := s.client.(mounted := false, loadSequence := s.client.loadSequence + 1))
  }

  // ----- the invariant -----

  ghost function Sent(network: seq<Request>, call: nat): nat {
    if network == [] then 0 else (if network[0].call == call then 1 else 0) + Sent(network[1..], call)
  }

  ghost function Commits(authors: seq<Author>, call: nat): nat {
    if authors == [] then 0
    else Commits(authors[..|authors| - 1], call) + if authors[|authors| - 1] == Call(call) then 1 else 0
  }

  ghost predicate IsCatalog(s: System, c: Catalog) {
    c.revision < |s.contents| && s.contents[c.revision] == c.logs
  }

  ghost predicate RefsSafe(s: System) {
    && (s.client.catalog.Some? ==> IsCatalog(s, s.client.catalog.value))
    && (forall i :: 0 <= i < |s.refreshes| ==>
          s.refreshes[i].sequence <= s.client.loadSequence
          && (s.refreshes[i].seen.Some? ==> IsCatalog(s, s.refreshes[i].seen.value)))
    && (s.active.Some? ==> s.client.locked && s.active.value.call < |s.calls|)
    && (s.client.locked ==> s.active.Some?)
    && (s.active.Some? && !s.active.value.phase.Committing? ==> s.active.value.phase.since < |s.contents|)
  }

  /** A commit on its way carries the mutation of the revision it expects. */
  ghost predicate RequestSafe(s: System, r: Request) {
    && r.call < |s.calls|
    && r.expected < |s.contents|
    && r.logs == s.calls[r.call].apply(s.contents[r.expected])
    && (s.active.Some? && s.active.value.call == r.call ==> s.active.value.phase == Committing(r.attempt))
  }

  ghost predicate WritesSafe(s: System) {
    && |s.authors| + 1 == |s.contents|
    && forall i :: 0 <= i < |s.authors| && s.authors[i].Call? ==>
      s.authors[i].id < |s.calls| && s.contents[i + 1] == s.calls[s.authors[i].id].apply(s.contents[i])
  }

  /** Commits a call has made or may still make. */
  ghost function Budget(s: System, call: nat): nat {
    Sent(s.network, call) + Commits(s.authors, call)
  }

  /** The call has nothing on its way and nothing committed. */
  ghost predicate Unspent(s: System, call: nat) {
    || call >= |s.calls|
    || (s.active.Some? && s.active.value.call == call
        && (!s.active.value.phase.Committing?
            || ((call, s.active.value.phase.attempt) in s.replies
                && s.replies[(call, s.active.value.phase.attempt)].Conflict?)))
  }

  ghost predicate BudgetsSafe(s: System) {
    forall call: nat :: Budget(s, call) <= 1 && (Unspent(s, call) ==> Budget(s, call) == 0)
  }

  ghost predicate RepliesSafe(s: System) {
    && (forall k :: k in s.replies ==> k.0 < |s.calls|)
    && (forall k :: k in s.replies && s.active.Some? && k.0 == s.active.value.call ==>
          s.active.value.phase.Relisting? || (s.active.value.phase.Committing? && k.1 <= s.active.value.phase.attempt))
    && (forall k :: k in s.replies && s.active.Some? && k.0 == s.active.value.call && s.active.value.phase.Relisting? ==>
          k.1 == 0)
  }

  ghost predicate Inv(s: System) {
    && s.contents != [] && RefsSafe(s) && WritesSafe(s) && BudgetsSafe(s) && RepliesSafe(s)
    && forall i :: 0 <= i < |s.network| ==> RequestSafe(s, s.network[i])
  }

  function Initial(logs: Logs): System {
    System(Client(None, 0, false, true), [], [], None, [logs], [], [], map[])
  }

  // ----- counting -----

  lemma {:induction false} SentAppend(network: seq<Request>, r: Request, call: nat)
    ensures Sent(network + [r], call) == Sent(network, call) + if r.call == call then 1 else 0
  {
    if network != [] {
      assert (network + [r])[1..] == network[1..] + [r];
      SentAppend(network[1..], r, call);
    }
  }

  lemma {:induction false} SentRemove(network: seq<Request>, i: nat, call: nat)
    requires i < |network|
    ensures Sent(Remove(network, i), call) == Sent(network, call) - if network[i].call == call then 1 else 0
  {
    if i == 0 {
      assert Remove(network, 0) == network[1..];
    } else {
      assert Remove(network, i)[1..] == Remove(network[1..], i - 1);
      SentRemove(network[1..], i - 1, call);
    }
  }

  lemma {:induction false} SentNone(network: seq<Request>, call: nat, i: nat)
    requires Sent(network, call) == 0 && i < |network|
    ensures network[i].call != call
  {
    if i > 0 {
      SentNone(network[1..], call, i - 1);
    }
  }

  lemma CommitsAppend(authors: seq<Author>, a: Author, call: nat)
    ensures Commits(authors + [a], call) == Commits(authors, call) + if a == Call(call) then 1 else 0
  {
    assert (authors + [a])[..|authors|] == authors;
  }

  // ----- each event keeps the invariant -----

  lemma InitialInv(logs: Logs)
    ensures Inv(Initial(logs))
  {
  }

  ghost predicate NetworkSafe(s: System) {
    forall i :: 0 <= i < |s.network| ==> RequestSafe(s, s.network[i])
  }

  /** Ending a call keeps the invariant. */
  lemma EndInv(s: System, c: Client)
    requires Inv(s) && !c.locked && c.loadSequence == s.client.loadSequence
    requires c.catalog.Some? ==> IsCatalog(s, c.catalog.value)
    ensures Inv(s.(client := c, active := None))
  {
    var s' := s.(client := c, active := None);
    forall i | 0 <= i < |s.network|
      ensures RequestSafe(s', s'.network[i])
    {
      assert RequestSafe(s, s.network[i]);
    }
    forall call: nat
      ensures Budget(s', call) <= 1 && (Unspent(s', call) ==> Budget(s', call) == 0)
    {
      assert Budget(s', call) == Budget(s, call);
    }
  }

  /** A call that has sent nothing may send one commit. */
  lemma AttemptInv(s: System, call: nat, attempt: nat, base: Catalog)
    requires s.contents != [] && RefsSafe(s.(active := Some(Active(call, Listing(0), base)))) && WritesSafe(s)
    requires s.client.locked && call < |s.calls| && IsCatalog(s, base)
    requires s.active.Some? ==> s.active.value.call == call
    requires forall c: nat :: Budget(s, c) <= 1 && (c >= |s.calls| || c == call ==> Budget(s, c) == 0)
    requires forall k :: k in s.replies ==> k.0 < |s.calls| && (k.0 == call ==> k.1 < attempt)
    requires NetworkSafe(s.(active := None))
    ensures Inv(Attempt(s, call, attempt, base))
  {
    var s' := Attempt(s, call, attempt, base);
    forall c: nat
      ensures Budget(s', c) <= 1 && (Unspent(s', c) ==> Budget(s', c) == 0)
    {
      SentAppend(s.network, Request(call, attempt, base.revision, s.calls[call].apply(base.logs)), c);
      assert Budget(s', c) == Budget(s, c) || c == call;
    }
    forall i | 0 <= i < |s'.network|
      ensures RequestSafe(s', s'.network[i])
    {
      if i < |s.network| {
        assert RequestSafe(s.(active := None), s.network[i]);
        assert Budget(s, call) == 0;
        SentNone(s.network, call, i);
      }
    }
  }

  lemma RequestsWithoutCall(s: System, s': System)
    requires NetworkSafe(s) && s'.network == s.network && s'.active.None?
    requires s.calls <= s'.calls && s'.contents == s.contents
    ensures NetworkSafe(s')
  {
    forall i | 0 <= i < |s'.network|
      ensures RequestSafe(s', s'.network[i])
    {
      assert RequestSafe(s, s.network[i]);
    }
  }

  lemma MutateInv(s: System, m: Mutation)
    requires Inv(s)
    ensures Inv(Mutate(s, m))
  {
    if !s.client.locked {
      var call := |s.calls|;
      var s1 := s.(client := Locked(s.client), calls := s.calls + [m]);
      assert forall i :: 0 <= i < |s.calls| ==> s1.calls[i] == s.calls[i];
      RequestsWithoutCall(s, s1);
      forall c: nat
        ensures Budget(s1, c) <= 1 && (c >= |s.calls| ==> Budget(s1, c) == 0)
      {
        assert Budget(s1, c) == Budget(s, c);
      }
      match s.client.catalog
      case Some(base) => AttemptInv(s1, call, 0, base);
      case None => ListingInv(s1, call, |s.contents| - 1);
    }
  }

  lemma ListingInv(s: System, call: nat, since: nat)
    requires s.contents != [] && WritesSafe(s) && NetworkSafe(s) && s.active.None?
    requires RefsSafe(s.(active := Some(Active(call, Listing(since), Catalog(0, [])))))
    requires forall c: nat :: Budget(s, c) <= 1 && (c >= call ==> Budget(s, c) == 0)
    requires |s.calls| == call + 1 && forall k :: k in s.replies ==> k.0 < call
    ensures Inv(s.(active := Some(Active(call, Listing(since), Catalog(0, [])))))
  {
    var s' := s.(active := Some(Active(call, Listing(since), Catalog(0, []))));
    forall c: nat
      ensures Budget(s', c) <= 1 && (Unspent(s', c) ==> Budget(s', c) == 0)
    {
      assert Budget(s', c) == Budget(s, c);
    }
    forall i | 0 <= i < |s'.network|
      ensures RequestSafe(s', s'.network[i])
    {
      assert RequestSafe(s, s.network[i]) && Budget(s, call) == 0;
      SentNone(s.network, call, i);
    }
  }

  lemma ListedInv(s: System, read: nat)
    requires Inv(s)
    ensures Inv(Listed(s, read))
  {
    if s.active.Some? && !s.active.value.phase.Committing? && Readable(s, s.active.value.phase.since, read) {
      var a := s.active.value;
      var base := Catalog(read, s.contents[read]);
      var s1 := s.(client := s.client.(catalog := Some(base)));
      forall c: nat
        ensures Budget(s, c) <= 1 && Budget(s1, c) == Budget(s, c)
        ensures c >= |s.calls| || c == a.call ==> Budget(s, c) == 0
      {
        assert Unspent(s, a.call);
      }
      RequestsWithoutCall(s, s.(active := None));
      RequestsWithoutCall(s, s1.(active := None));
      if a.phase.Listing? {
        AttemptInv(if s.client.catalog.None? then s1 else s, a.call, 0, base);
      } else if s.client.mounted {
        AttemptInv(s1, a.call, 1, base);
      } else {
        EndInv(s, Released(s.client));
      }
    }
  }

  lemma RepliedInv(s: System)
    requires Inv(s)
    ensures Inv(Replied(s))
  {
    if s.active.Some? && s.active.value.phase.Committing? && (s.active.value.call, s.active.value.phase.attempt) in s.replies {
      var a := s.active.value;
      match s.replies[(a.call, a.phase.attempt)]
      case Accepted(revision) => EndInv(s, Replied(s).client);
      case Conflict =>
        if a.phase.attempt > 0 {
          EndInv(s, Released(s.client));
        } else {
          RelistInv(s);
        }
    }
  }

  lemma RelistInv(s: System)
    requires Inv(s) && s.active.Some? && s.active.value.phase == Committing(0)
    requires (s.active.value.call, 0) in s.replies && s.replies[(s.active.value.call, 0)].Conflict?
    ensures Inv(s.(active := Some(s.active.value.(phase := Relisting(|s.contents| - 1)))))
  {
    var a := s.active.value;
    var s' := s.(active := Some(a.(phase := Relisting(|s.contents| - 1))));
    assert Unspent(s, a.call);
    forall c: nat
      ensures Budget(s', c) <= 1 && (Unspent(s', c) ==> Budget(s', c) == 0)
    {
      assert Budget(s', c) == Budget(s, c);
    }
    forall i | 0 <= i < |s'.network|
      ensures RequestSafe(s', s'.network[i])
    {
      assert RequestSafe(s, s.network[i]) && Budget(s, a.call) == 0;
      SentNone(s.network, a.call, i);
    }
  }

  lemma RequestLostInv(s: System, i: nat)
    requires Inv(s) && i < |s.network|
    ensures Inv(s.(network := Remove(s.network, i)))
  {
    var s' := s.(network := Remove(s.network, i));
    forall c: nat
      ensures Budget(s', c) <= 1 && (Unspent(s', c) ==> Budget(s', c) == 0)
    {
      SentRemove(s.network, i, c);
      assert Budget(s', c) <= Budget(s, c);
    }
    forall j | 0 <= j < |s'.network|
      ensures RequestSafe(s', s'.network[j])
    {
      assert RequestSafe(s, s.network[if j < i then j else j + 1]);
    }
  }

  lemma GrownContents(s: System, s': System, r: Request)
    requires RequestSafe(s, r) && s.contents <= s'.contents && s'.calls == s.calls && s'.active == s.active
    ensures RequestSafe(s', r)
  {
  }

  /** A new revision by any writer keeps what the client's catalogues point to. */
  lemma GrownRefs(s: System, s': System)
    requires RefsSafe(s) && s.contents <= s'.contents
    requires s'.client == s.client && s'.refreshes == s.refreshes && s'.active == s.active && s'.calls == s.calls
    ensures RefsSafe(s')
  {
  }

  lemma OtherWritesInv(s: System, logs: Logs)
    requires Inv(s)
    ensures Inv(Step(s, OtherWrites(logs)))
  {
    var s' := Step(s, OtherWrites(logs));
    GrownRefs(s, s');
    forall c: nat
      ensures Budget(s', c) <= 1 && (Unspent(s', c) ==> Budget(s', c) == 0)
    {
      CommitsAppend(s.authors, Other, c);
      assert Budget(s', c) == Budget(s, c);
    }
    forall j | 0 <= j < |s'.network|
      ensures RequestSafe(s', s'.network[j])
    {
      GrownContents(s, s', s.network[j]);
    }
  }

  lemma AcceptBudget(s: System, i: nat, c: nat)
    requires Inv(s) && i < |s.network| && s.network[i].expected == |s.contents| - 1
    ensures Budget(Process(s, i), c) <= 1 && (Unspent(Process(s, i), c) ==> Budget(Process(s, i), c) == 0)
  {
    assert Budget(s, c) <= 1 && (Unspent(s, c) ==> Budget(s, c) == 0);
    assert RequestSafe(s, s.network[i]);
    hide Inv;
    AcceptKeepsBudget(s, i, c);
    AcceptSpends(s, i, c);
  }

  lemma AcceptKeepsBudget(s: System, i: nat, c: nat)
    requires i < |s.network| && s.network[i].expected == |s.contents| - 1
    ensures Budget(Process(s, i), c) == Budget(s, c)
  {
    SentRemove(s.network, i, c);
    CommitsAppend(s.authors, Call(s.network[i].call), c);
    hide Sent, Commits;
  }

  lemma AcceptSpends(s: System, i: nat, c: nat)
    requires i < |s.network| && s.network[i].expected == |s.contents| - 1 && RequestSafe(s, s.network[i])
    ensures Unspent(Process(s, i), c) ==> Unspent(s, c)
  {
  }

  lemma AcceptInv(s: System, i: nat)
    requires Inv(s) && i < |s.network| && s.network[i].expected == |s.contents| - 1
    ensures Inv(Process(s, i))
  {
    var r := s.network[i];
    var s' := Process(s, i);
    assert RequestSafe(s, r);
    GrownRefs(s, s');
    forall c: nat
      ensures Budget(s', c) <= 1 && (Unspent(s', c) ==> Budget(s', c) == 0)
    {
      AcceptBudget(s, i, c);
    }
    hide Budget, Sent, Commits;
    forall j | 0 <= j < |s'.network|
      ensures RequestSafe(s', s'.network[j])
    {
      GrownContents(s, s', s.network[if j < i then j else j + 1]);
    }
  }

  lemma RejectInv(s: System, i: nat)
    requires Inv(s) && i < |s.network| && s.network[i].expected != |s.contents| - 1
    ensures Inv(Process(s, i))
  {
    var r := s.network[i];
    var s' := Process(s, i);
    assert RequestSafe(s, r);
    forall c: nat
      ensures Budget(s', c) <= 1 && (Unspent(s', c) ==> Budget(s', c) == 0)
    {
      SentRemove(s.network, i, c);
      assert Budget(s, c) <= 1;
      assert c == r.call ==> Budget(s', c) == Budget(s, c) - 1;
    }
    forall j | 0 <= j < |s'.network|
      ensures RequestSafe(s', s'.network[j])
    {
      assert RequestSafe(s, s.network[if j < i then j else j + 1]);
    }
  }

  /** An event that touches only the refs and the refreshes. */
  lemma RefsOnly(s: System, s': System)
    requires Inv(s) && s' == s.(client := s'.client, refreshes := s'.refreshes) && RefsSafe(s')
    ensures Inv(s')
  {
    forall c: nat
      ensures Budget(s', c) <= 1 && (Unspent(s', c) ==> Budget(s', c) == 0)
    {
      assert Budget(s', c) == Budget(s, c);
    }
    forall j | 0 <= j < |s'.network|
      ensures RequestSafe(s', s'.network[j])
    {
      assert RequestSafe(s, s.network[j]);
    }
  }

  /** The events of refreshes and of the workspace's end. */
  lemma RefreshInv(s: System, e: Event)
    requires Inv(s) && (e.RefreshBegins? || e.RefreshLists? || e.RefreshEnds? || e.Unmounted?)
    ensures Inv(Step(s, e))
  {
    assert RefsSafe(s);
    RefreshSafe(s, e);
    hide Inv, RefsSafe;
    RefsOnly(s, Step(s, e));
  }

  lemma RefreshSafe(s: System, e: Event)
    requires RefsSafe(s) && s.contents != []
    requires e.RefreshBegins? || e.RefreshLists? || e.RefreshEnds? || e.Unmounted?
    ensures RefsSafe(Step(s, e))
  {
  }

  lemma StepInv(s: System, e: Event)
    requires Inv(s)
    ensures Inv(Step(s, e))
  {
    assert RefsSafe(s) && s.contents != [];
    hide Inv;
    match e
    case RefreshBegins => RefreshInv(s, e);
    case RefreshLists(_) => RefreshInv(s, e);
    case RefreshEnds(_) => RefreshInv(s, e);
    case MutateCalled(m) => MutateInv(s, m);
    case ListReturns(read) => ListedInv(s, read);
    case ReplyArrives => RepliedInv(s);
    case CallFails => if s.active.Some? { EndInv(s, Released(s.client)); }
    case OtherWrites(logs) => OtherWritesInv(s, logs);
    case ServerProcesses(i) =>
      if i < |s.network| {
        if s.network[i].expected == |s.contents| - 1 {
          AcceptInv(s, i);
        } else {
          RejectInv(s, i);
        }
      }
    case RequestLost(i) => if i < |s.network| { RequestLostInv(s, i); }
    case Unmounted => RefreshInv(s, e);
  }

  ghost function Run(logs: Logs, events: seq<Event>): (s: System)
    ensures Inv(s) && s.contents != []
  {
    if events == [] then
      InitialInv(logs);
      Initial(logs)
    else
      var before := Run(logs, events[..|events| - 1]);
      StepInv(before, events[|events| - 1]);
      Step(before, events[|events| - 1])
  }

  // ----- what every run promises -----

  lemma {:induction false} CommitsTwo(authors: seq<Author>, call: nat, i: nat, j: nat)
    requires i < j < |authors| && authors[i] == Call(call) && authors[j] == Call(call)
    ensures Commits(authors, call) >= 2
  {
    var n := |authors| - 1;
    if j < n {
      CommitsTwo(authors[..n], call, i, j);
    } else {
      CommitsOne(authors[..n], call, i);
    }
  }

  lemma {:induction false} CommitsOne(authors: seq<Author>, call: nat, i: nat)
    requires i < |authors| && authors[i] == Call(call)
    ensures Commits(authors, call) >= 1
  {
    var n := |authors| - 1;
    if i < n {
      CommitsOne(authors[..n], call, i);
    }
  }

  /** One `mutateCatalog` call writes at most one revision, even when responses are
      lost or a commit lands after the call gave up. */
  lemma CommitsAtMostOnce(logs: Logs, events: seq<Event>, i: nat, j: nat)
    requires var s := Run(logs, events); i < |s.authors| && j < |s.authors| && s.authors[i].Call? && s.authors[i] == s.authors[j]
    ensures i == j
  {
    var s := Run(logs, events);
    var call := s.authors[i].id;
    assert Budget(s, call) <= 1;
    if i < j {
      CommitsTwo(s.authors, call, i, j);
    } else if j < i {
      CommitsTwo(s.authors, call, j, i);
    }
  }

  /** What a call writes is its mutation of exactly the list it overwrites. */
  lemma CommitsExactMutation(logs: Logs, events: seq<Event>, i: nat)
    requires var s := Run(logs, events); i < |s.authors| && s.authors[i].Call?
    ensures var s := Run(logs, events);
      && i + 1 < |s.contents| && s.authors[i].id < |s.calls|
      && s.contents[i + 1] == s.calls[s.authors[i].id].apply(s.contents[i])
  {
    assert WritesSafe(Run(logs, events));
    hide Inv, Run;
  }

  // ----- stale refreshes -----

  lemma RunAppend(logs: Logs, a: seq<Event>, e: Event)
    ensures Run(logs, a + [e]) == Step(Run(logs, a), e)
  {
    hide Step, Inv;
    assert (a + [e])[..|a|] == a;
  }

  lemma RefsFacts(s: System)
    requires Inv(s)
    ensures s.client.locked <==> s.active.Some?
    ensures forall r :: r in s.refreshes ==> r.sequence <= s.client.loadSequence && (r.seen.Some? ==> IsCatalog(s, r.seen.value))
    ensures s.client.catalog.Some? ==> IsCatalog(s, s.client.catalog.value)
  {
    assert RefsSafe(s);
    forall r | r in s.refreshes
      ensures r.sequence <= s.client.loadSequence && (r.seen.Some? ==> IsCatalog(s, r.seen.value))
    {
      var i :| 0 <= i < |s.refreshes| && s.refreshes[i] == r;
    }
  }

  lemma StepSequence(s: System, e: Event)
    requires s.contents != []
    ensures s.client.loadSequence <= Step(s, e).client.loadSequence
  {
  }

  lemma {:induction false} RunSequence(logs: Logs, events: seq<Event>, n: nat)
    requires n <= |events|
    ensures Run(logs, events[..n]).client.loadSequence <= Run(logs, events).client.loadSequence
  {
    if n == |events| {
      assert events[..n] == events;
    } else {
      var m := |events| - 1;
      RunSequence(logs, events[..m], n);
      assert events[..m][..n] == events[..n];
      StepSequence(Run(logs, events[..m]), events[m]);
    }
  }

  /** A refresh already on its way when a mutation takes the lock never installs
      its list, however long it takes. */
  lemma StaleRefreshNeverInstalls(logs: Logs, events: seq<Event>, n: nat, m: Mutation, k: nat)
    requires n < |events| && events[n] == MutateCalled(m)
    requires var before := Run(logs, events[..n]); !before.client.locked && k < |before.refreshes|
    ensures !MayInstall(Run(logs, events).client, Run(logs, events[..n]).refreshes[k])
  {
    hide Inv, Run;
    var before := Run(logs, events[..n]);
    assert events[..n + 1] == events[..n] + [MutateCalled(m)];
    RunAppend(logs, events[..n], MutateCalled(m));
    RefsFacts(before);
    RunSequence(logs, events, n + 1);
  }

  // ----- what the workspace shows -----

  ghost predicate Authored(s: System, k: (nat, nat)) {
    && |s.authors| + 1 == |s.contents|
    && (k in s.replies && s.replies[k].Accepted? ==>
          0 < s.replies[k].revision < |s.contents| && s.authors[s.replies[k].revision - 1] == Call(k.0))
  }

  lemma AuthoredStep(s: System, e: Event, k: (nat, nat))
    requires s.contents != [] && Authored(s, k)
    ensures Authored(Step(s, e), k)
  {
    AuthorsGrow(s, e);
    if !(e.ServerProcesses? && e.i < |s.network| && (s.network[e.i].call, s.network[e.i].attempt) == k) {
      RepliesKept(s, e, k);
      hide Step;
    }
  }

  /** The revision of an accepted commit was written by the call it answers. */
  lemma {:induction false} AcceptedIsAuthored(logs: Logs, events: seq<Event>, k: (nat, nat))
    ensures Authored(Run(logs, events), k)
    decreases |events|
  {
    hide Inv, Step, Authored;
    if events == [] {
      NothingAuthored(logs, k);
    } else {
      var n := |events| - 1;
      AcceptedIsAuthored(logs, events[..n], k);
      AuthoredStep(Run(logs, events[..n]), events[n], k);
    }
  }

  lemma NothingAuthored(logs: Logs, k: (nat, nat))
    ensures Authored(Initial(logs), k)
  {
  }

  lemma RepliesKept(s: System, e: Event, k: (nat, nat))
    requires s.contents != []
    requires !(e.ServerProcesses? && e.i < |s.network| && (s.network[e.i].call, s.network[e.i].attempt) == k)
    ensures k in Step(s, e).replies <==> k in s.replies
    ensures k in s.replies ==> Step(s, e).replies[k] == s.replies[k]
  {
  }

  lemma AuthorsGrow(s: System, e: Event)
    requires s.contents != []
    ensures s.contents <= Step(s, e).contents && s.authors <= Step(s, e).authors
    ensures |Step(s, e).contents| - |s.contents| == |Step(s, e).authors| - |s.authors|
  {
  }

  // ----- exactly the undisturbed refreshes install -----

  /** A later refresh, the end of the workspace, or a mutation that takes the lock. */
  ghost predicate Outdates(s: System, e: Event) {
    e.RefreshBegins? || e.Unmounted? || (e.MutateCalled? && !s.client.locked)
  }

  ghost predicate Undisturbed(logs: Logs, begun: seq<Event>, middle: seq<Event>) {
    forall k :: 0 <= k < |middle| ==> !Outdates(Run(logs, begun + middle[..k]), middle[k])
  }

  /** The refresh of this sequence, begun when the server held revision `since`, is not
      outdated. */
  ghost predicate Fresh(s: System, sequence: nat, mounted: bool, since: nat) {
    && s.client.loadSequence == sequence && s.client.mounted == mounted && since < |s.contents|
    && forall i :: 0 <= i < |s.refreshes| && s.refreshes[i].sequence == sequence && s.refreshes[i].seen.Some? ==>
      since <= s.refreshes[i].seen.value.revision
  }

  lemma RefreshIsFresh(s: System)
    requires Inv(s)
    ensures var t := Step(s, RefreshBegins); Fresh(t, t.client.loadSequence, t.client.mounted, |s.contents| - 1)
  {
    RefsFacts(s);
    assert forall i :: 0 <= i < |s.refreshes| ==> s.refreshes[i] in s.refreshes;
    hide Inv;
  }

  lemma StaysFresh(s: System, e: Event, sequence: nat, mounted: bool, since: nat)
    requires s.contents != [] && Fresh(s, sequence, mounted, since) && !Outdates(s, e)
    ensures Fresh(Step(s, e), sequence, mounted, since)
  {
    var t := Step(s, e);
    SequenceStays(s, e);
    AuthorsGrow(s, e);
    forall i | 0 <= i < |t.refreshes| && t.refreshes[i].sequence == sequence && t.refreshes[i].seen.Some?
      ensures since <= t.refreshes[i].seen.value.revision
    {
      RefreshCameFrom(s, e, i);
    }
    hide Step;
  }

  lemma SequenceStays(s: System, e: Event)
    requires s.contents != []
    ensures !Outdates(s, e) ==>
      Step(s, e).client.loadSequence == s.client.loadSequence && Step(s, e).client.mounted == s.client.mounted
    ensures Outdates(s, e) ==> s.client.loadSequence < Step(s, e).client.loadSequence
    ensures Step(s, e).client.mounted ==> s.client.mounted
  {
  }

  lemma RefreshCameFrom(s: System, e: Event, i: nat)
    requires s.contents != [] && !e.RefreshBegins? && i < |Step(s, e).refreshes|
    ensures var r := Step(s, e).refreshes[i];
      exists j :: 0 <= j < |s.refreshes| && (r == s.refreshes[j] || r == s.refreshes[j].(seen := Some(CurrentCatalog(s))))
  {
    var t := Step(s, e);
    if e.RefreshEnds? && e.i < |s.refreshes| {
      assert t.refreshes[i] == s.refreshes[if i < e.i then i else i + 1];
    } else {
      assert |t.refreshes| == |s.refreshes|;
      assert t.refreshes[i] == s.refreshes[i] || e == RefreshLists(i);
    }
  }

  lemma {:induction false} RunStaysFresh(
    logs: Logs, begun: seq<Event>, middle: seq<Event>, sequence: nat, mounted: bool, since: nat)
    requires Fresh(Run(logs, begun), sequence, mounted, since) && Undisturbed(logs, begun, middle)
    ensures Fresh(Run(logs, begun + middle), sequence, mounted, since)
  {
    hide Run, Step, Inv, Fresh, Outdates;
    if middle == [] {
      assert begun + middle == begun;
    } else {
      var n := |middle| - 1;
      forall k | 0 <= k < n ensures !Outdates(Run(logs, begun + middle[..n][..k]), middle[..n][k]) {
        assert middle[..n][..k] == middle[..k];
      }
      RunStaysFresh(logs, begun, middle[..n], sequence, mounted, since);
      assert begun + middle == begun + middle[..n] + [middle[n]];
      RunAppend(logs, begun + middle[..n], middle[n]);
      StaysFresh(Run(logs, begun + middle[..n]), middle[n], sequence, mounted, since);
    }
  }

  lemma {:induction false} RunOutdates(logs: Logs, begun: seq<Event>, middle: seq<Event>)
    ensures var s, t := Run(logs, begun), Run(logs, begun + middle);
      && s.client.loadSequence <= t.client.loadSequence && (t.client.mounted ==> s.client.mounted)
      && (!Undisturbed(logs, begun, middle) ==> s.client.loadSequence < t.client.loadSequence)
  {
    hide Run, Step, Inv, Outdates;
    if middle == [] {
      assert begun + middle == begun;
    } else {
      var n := |middle| - 1;
      RunOutdates(logs, begun, middle[..n]);
      assert begun + middle == begun + middle[..n] + [middle[n]];
      RunAppend(logs, begun + middle[..n], middle[n]);
      SequenceStays(Run(logs, begun + middle[..n]), middle[n]);
      if Undisturbed(logs, begun, middle[..n]) && !Outdates(Run(logs, begun + middle[..n]), middle[n]) {
        forall k | 0 <= k < |middle| ensures !Outdates(Run(logs, begun + middle[..k]), middle[k]) {
          assert k < n ==> middle[..n][..k] == middle[..k] && middle[..n][k] == middle[k];
        }
      }
    }
  }

  /** Over every run, the refresh begun by the event behind `before` installs its list when
      it ends if and only if the workspace was there and no later refresh, mutation that
      took the lock, or end of the workspace came since; it then shows what the server held
      when it was read, which was after it began, and otherwise changes nothing. */
  lemma RefreshInstallsExactly(logs: Logs, before: seq<Event>, middle: seq<Event>, i: nat)
    requires var s := Run(logs, before + [RefreshBegins] + middle);
      && i < |s.refreshes| && s.refreshes[i].seen.Some?
      && s.refreshes[i].sequence == Run(logs, before + [RefreshBegins]).client.loadSequence
    ensures var s := Run(logs, before + [RefreshBegins] + middle);
      var seen := s.refreshes[i].seen.value;
      var installs := Run(logs, before).client.mounted && Undisturbed(logs, before + [RefreshBegins], middle);
      && (installs ==> |Run(logs, before).contents| - 1 <= seen.revision)
      && seen.revision < |s.contents| && seen.logs == s.contents[seen.revision]
      && Step(s, RefreshEnds(i)).client == if installs then s.client.(catalog := Some(seen)) else s.client
  {
    hide Run, Inv, Undisturbed;
    var begun := before + [RefreshBegins];
    var s := Run(logs, begun + middle);
    MayInstallExactly(logs, before, middle, i);
    RefsFacts(s);
    assert s.refreshes[i] in s.refreshes;
  }

  lemma MayInstallExactly(logs: Logs, before: seq<Event>, middle: seq<Event>, i: nat)
    requires var s := Run(logs, before + [RefreshBegins] + middle);
      && i < |s.refreshes| && s.refreshes[i].seen.Some?
      && s.refreshes[i].sequence == Run(logs, before + [RefreshBegins]).client.loadSequence
    ensures var s := Run(logs, before + [RefreshBegins] + middle);
      var installs := Run(logs, before).client.mounted && Undisturbed(logs, before + [RefreshBegins], middle);
      && (MayInstall(s.client, s.refreshes[i]) <==> installs)
      && (installs ==> |Run(logs, before).contents| - 1 <= s.refreshes[i].seen.value.revision)
  {
    hide Run, Inv, Undisturbed;
    var begun := before + [RefreshBegins];
    var s0, s := Run(logs, begun), Run(logs, begun + middle);
    RunAppend(logs, before, RefreshBegins);
    RefreshIsFresh(Run(logs, before));
    RunOutdates(logs, begun, middle);
    if Undisturbed(logs, begun, middle) {
      RunStaysFresh(logs, begun, middle, s0.client.loadSequence, s0.client.mounted, |Run(logs, before).contents| - 1);
    }
  }

  // ----- what a mutation can do -----

  /** The workspace shows what the server holds. */
  ghost predicate UpToDate(s: System) {
    s.contents != [] && s.client.mounted && !s.client.locked && s.client.catalog == Some(CurrentCatalog(s))
  }

  /** A commit that expects what the server holds is written and shown. */
  lemma CommitLands(u: System, network: seq<Request>, call: nat, attempt: nat, written: Logs)
    requires u.contents != [] && u.client.mounted && u.active.Some?
    requires u.active.value.call == call && u.active.value.phase == Committing(attempt)
    requires u.network == network + [Request(call, attempt, |u.contents| - 1, written)]
    ensures var t := Step(Step(u, ServerProcesses(|network|)), ReplyArrives);
      && t.contents == u.contents + [written] && t.authors == u.authors + [Call(call)]
      && UpToDate(t) && t.network == network && t.active.None?
  {
    var v := Step(u, ServerProcesses(|network|));
    assert v.network == network;
  }

  /** With nobody in between a mutation of the shown list is committed and shown. */
  lemma MutationCommits(s: System, m: Mutation)
    requires UpToDate(s) && !m.same(CurrentCatalog(s).logs)
    ensures var r := |s.contents|;
      var written := m.apply(s.contents[r - 1]);
      var t := Step(Step(Step(s, MutateCalled(m)), ServerProcesses(|s.network|)), ReplyArrives);
      && t.contents == s.contents + [written] && t.authors == s.authors + [Call(|s.calls|)]
      && UpToDate(t) && t.network == s.network && t.active.None?
  {
    CommitLands(Step(s, MutateCalled(m)), s.network, |s.calls|, 0, m.apply(s.contents[|s.contents| - 1]));
    hide Step, UpToDate;
  }

  /** One that changes nothing sends nothing and frees the lock. */
  lemma IdleMutation(s: System, m: Mutation)
    requires UpToDate(s) && m.same(CurrentCatalog(s).logs)
    ensures var t := Step(s, MutateCalled(m));
      t.contents == s.contents && t.network == s.network && t.active == None && UpToDate(t)
  {
  }

  /** If another writer comes first, the refused mutation is applied to that writer's list
      and committed on top of it. */
  lemma MutationRetries(s: System, m: Mutation, other: Logs)
    requires UpToDate(s) && !m.same(CurrentCatalog(s).logs) && !m.same(other)
    ensures var n := |s.network|;
      var u := Step(Step(Step(Step(s, MutateCalled(m)), OtherWrites(other)), ServerProcesses(n)), ReplyArrives);
      var t := Step(Step(Step(u, ListReturns(|s.contents|)), ServerProcesses(n)), ReplyArrives);
      && t.contents == s.contents + [other] + [m.apply(other)] && t.authors == s.authors + [Other] + [Call(|s.calls|)]
      && UpToDate(t) && t.network == s.network && t.active.None?
  {
    hide Step;
    var u := RefusedThenRelists(s, m, other);
    RelistCommits(u, s.network, other);
  }

  lemma RefusedThenRelists(s: System, m: Mutation, other: Logs) returns (u: System)
    requires UpToDate(s) && !m.same(CurrentCatalog(s).logs)
    ensures var n := |s.network|;
      u == Step(Step(Step(Step(s, MutateCalled(m)), OtherWrites(other)), ServerProcesses(n)), ReplyArrives)
    ensures u.contents == s.contents + [other] && u.authors == s.authors + [Other] && u.network == s.network
    ensures u.calls == s.calls + [m] && u.client.mounted && u.client.locked
    ensures u.active.Some? && u.active.value.call == |s.calls| && u.active.value.phase == Relisting(|s.contents|)
  {
    var n := |s.network|;
    var a := Step(Step(s, MutateCalled(m)), OtherWrites(other));
    assert a.network[n] == Request(|s.calls|, 0, |s.contents| - 1, m.apply(s.contents[|s.contents| - 1]));
    var b := Step(a, ServerProcesses(n));
    assert b.network == s.network && b.replies[(|s.calls|, 0)] == Conflict;
    u := Step(b, ReplyArrives);
  }

  lemma RelistCommits(u: System, network: seq<Request>, other: Logs)
    requires u.contents != [] && u.contents[|u.contents| - 1] == other && u.network == network && u.client.mounted
    requires u.active.Some? && u.active.value.call == |u.calls| - 1 && u.active.value.phase == Relisting(|u.contents| - 1)
    requires !u.calls[u.active.value.call].same(other)
    ensures var m := u.calls[u.active.value.call];
      var t := Step(Step(Step(u, ListReturns(|u.contents| - 1)), ServerProcesses(|network|)), ReplyArrives);
      && t.contents == u.contents + [m.apply(other)] && t.authors == u.authors + [Call(|u.calls| - 1)]
      && UpToDate(t) && t.network == network && t.active.None?
  {
    CommitLands(
      Step(u, ListReturns(|u.contents| - 1)), network, |u.calls| - 1, 1, u.calls[u.active.value.call].apply(other));
    hide Step, UpToDate;
  }

  /** A mutation of a workspace that shows nothing yet is applied to the list it awaits. */
  lemma MutationLists(s: System, m: Mutation)
    requires s.contents != [] && s.client.mounted && !s.client.locked && s.client.catalog.None?
    requires !m.same(CurrentCatalog(s).logs)
    ensures var r := |s.contents| - 1;
      var t := Step(Step(Step(Step(s, MutateCalled(m)), ListReturns(r)), ServerProcesses(|s.network|)), ReplyArrives);
      && t.contents == s.contents + [m.apply(s.contents[r])] && t.authors == s.authors + [Call(|s.calls|)]
      && UpToDate(t) && t.network == s.network && t.active.None?
  {
    var r := |s.contents| - 1;
    AwaitedListSends(s, m, r);
    CommitLands(Step(Step(s, MutateCalled(m)), ListReturns(r)), s.network, |s.calls|, 0, m.apply(s.contents[r]));
    hide Step, UpToDate;
  }

  lemma AwaitedListSends(s: System, m: Mutation, r: nat)
    requires s.contents != [] && s.client.mounted && !s.client.locked && s.client.catalog.None?
    requires r == |s.contents| - 1 && !m.same(s.contents[r])
    ensures var u := Step(Step(s, MutateCalled(m)), ListReturns(r));
      && u.network == s.network + [Request(|s.calls|, 0, r, m.apply(s.contents[r]))]
      && u.contents == s.contents && u.authors == s.authors && u.client.mounted
      && u.active.Some? && u.active.value.call == |s.calls| && u.active.value.phase == Committing(0)
  {
  }

  // ----- the refs as mutable fields -----

  lemma CommittedLogs(initial: Logs, events: seq<Event>, revision: nat)
    requires var s := Run(initial, events);
      && s.active.Some? && s.active.value.phase.Committing?
      && (s.active.value.call, s.active.value.phase.attempt) in s.replies
      && s.replies[(s.active.value.call, s.active.value.phase.attempt)] == Accepted(revision)
    ensures var s := Run(initial, events);
      && 0 < revision < |s.contents| && s.active.value.call < |s.calls|
      && s.contents[revision] == s.calls[s.active.value.call].apply(s.contents[revision - 1])
  {
    hide Inv, Step;
    var a := Run(initial, events).active.value;
    AcceptedIsAuthored(initial, events, (a.call, a.phase.attempt));
    CommitsExactMutation(initial, events, revision - 1);
  }

  lemma AcceptedReply(s: System, revision: nat, logs: Logs)
    requires s.active.Some? && s.active.value.phase.Committing?
    requires var a := s.active.value;
      (a.call, a.phase.attempt) in s.replies && s.replies[(a.call, a.phase.attempt)] == Accepted(revision)
    requires revision < |s.contents| && s.contents[revision] == logs
    ensures var c := s.client;
      Step(s, ReplyArrives) == s.(active := None,
        client := c.(locked := false, catalog := if c.mounted then Some(Catalog(revision, logs)) else c.catalog))
  {
  }

  /** The refs within a run: `trace` also holds what happened around them. */
  class CatalogRefs {
    ghost const initial: Logs
    ghost var trace: seq<Event>

    var catalog: Option<Catalog>
    var loadSequence: nat
    var mutationLock: bool
    var mounted: bool

    function State(): Client
      reads this
    {
      Client(catalog, loadSequence, mutationLock, mounted)
    }

    ghost function World(): (s: System)
      reads this
      ensures Inv(s) && s.contents != []
    {
      Run(initial, trace)
    }

    ghost predicate Valid()
      reads this
    {
      State() == World().client
    }

    constructor (ghost initial: Logs)
      ensures Valid() && trace == [] && this.initial == initial
    {
      this.initial, trace := initial, [];
      catalog, loadSequence, mutationLock, mounted := None, 0, false, true;
    }

    /** Something happens that does not touch the refs. */
    ghost method Elapse(e: Event)
      requires Valid() && Step(World(), e).client == World().client
      modifies this`trace
      ensures Valid() && trace == old(trace) + [e] && World() == Step(old(World()), e)
    {
      hide Run, Inv, Step;
      RunAppend(initial, trace, e);
      trace := trace + [e];
    }

    /** The synchronous start of `mutateCatalog`. A call that gets the lock outdates every
        refresh on its way, and what it sends at once is its mutation of the revision it
        expects. */
    method BeginMutation(m: Mutation) returns (taken: bool, sent: Option<Logs>)
      requires Valid()
      modifies this
      ensures Valid() && trace == old(trace) + [MutateCalled(m)]
      ensures taken == !old(mutationLock) && (!taken ==> State() == old(State()))
      ensures taken ==> forall r :: r in old(World().refreshes) ==> !MayInstall(State(), r)
      ensures catalog == old(catalog)
      ensures sent.Some? ==> taken && catalog.Some? && catalog.value.revision < |World().contents|
      ensures sent.Some? ==> sent.value == m.apply(World().contents[catalog.value.revision])
      ensures taken && catalog.Some? && !m.same(catalog.value.logs) ==> sent.Some?
      ensures mutationLock <==> World().active.Some?
    {
      hide Run, Inv;
      RefsFacts(World());
      RunAppend(initial, trace, MutateCalled(m));
      trace := trace + [MutateCalled(m)];
      RefsFacts(World());
      taken, sent := !mutationLock, None;
      if taken {
        mutationLock := true;
        loadSequence := loadSequence + 1;
        if catalog.Some? {
          var logs := m.apply(catalog.value.logs);
          if m.same(catalog.value.logs) {
            mutationLock := false;
          } else {
            sent := Some(logs);
          }
        }
      }
    }

    /** The awaited list of a mutation returned, read when it was asked for or later: a
        second list is shown, unless the workspace is gone, a first one if nothing was
        shown, and what is sent is the mutation of that list. */
    method ListReturned(current: Catalog, m: Mutation, relisting: bool) returns (sent: Option<Logs>)
      requires Valid() && World().active.Some? && IsCatalog(World(), current)
      requires var p := World().active.value.phase; !p.Committing? && p.since <= current.revision && (relisting <==> p.Relisting?)
      requires World().active.value.call < |World().calls| && m == World().calls[World().active.value.call]
      modifies this
      ensures Valid() && trace == old(trace) + [ListReturns(current.revision)]
      ensures sent == if (relisting && !mounted) || m.same(current.logs) then None else Some(m.apply(current.logs))
      ensures sent.Some? ==> exists r :: r in World().network && r.expected == current.revision && r.logs == sent.value
      ensures mutationLock <==> sent.Some?
      ensures catalog.Some? ==> catalog == old(catalog) || catalog.value == current
      ensures (relisting && mounted) || (!relisting && old(catalog).None?) ==> catalog == Some(current)
    {
      hide Run, Inv;
      RefsFacts(World());
      RunAppend(initial, trace, ListReturns(current.revision));
      trace := trace + [ListReturns(current.revision)];
      sent := None;
      if relisting && !mounted {
        mutationLock := false;
      } else {
        if relisting || catalog.None? {
          catalog := Some(current);
        }
        var logs := m.apply(current.logs);
        if m.same(current.logs) {
          catalog := Some(current);
          mutationLock := false;
        } else {
          sent := Some(logs);
          assert World().network[|World().network| - 1].logs == logs;
        }
      }
    }

    /** A commit was accepted: the lock is free, and what is shown is the revision this
        call wrote, its mutation of the list before it. */
    method CommitAccepted(revision: nat, logs: Logs)
      requires Valid() && World().active.Some? && World().active.value.phase.Committing?
      requires var a := World().active.value;
        (a.call, a.phase.attempt) in World().replies && World().replies[(a.call, a.phase.attempt)] == Accepted(revision)
      requires revision < |World().contents| && World().contents[revision] == logs
      modifies this
      ensures Valid() && trace == old(trace) + [ReplyArrives]
      ensures !mutationLock && catalog == if mounted then Some(Catalog(revision, logs)) else old(catalog)
      ensures var call := old(World().active.value.call);
        && 0 < revision < |World().contents| && call < |World().calls|
        && logs == World().calls[call].apply(World().contents[revision - 1])
    {
      hide Run, Inv, Step;
      CommittedLogs(initial, trace, revision);
      AcceptedReply(World(), revision, logs);
      RunAppend(initial, trace, ReplyArrives);
      trace := trace + [ReplyArrives];
      mutationLock := false;
      if mounted {
        catalog := Some(Catalog(revision, logs));
      }
    }

    /** A conflict keeps the lock for the one retry, and ends the call after it; either
        way what is shown stays. */
    method CommitConflicted(attempt: nat)
      requires Valid() && World().active.Some? && World().active.value.phase == Committing(attempt)
      requires var a := World().active.value;
        (a.call, attempt) in World().replies && World().replies[(a.call, attempt)] == Conflict
      modifies this
      ensures Valid() && trace == old(trace) + [ReplyArrives]
      ensures catalog == old(catalog) && (mutationLock <==> attempt == 0)
      ensures mutationLock ==> World().active == Some(old(World().active.value).(phase := Relisting(|World().contents| - 1)))
    {
      hide Run, Inv;
      RefsFacts(World());
      RunAppend(initial, trace, ReplyArrives);
      trace := trace + [ReplyArrives];
      if attempt > 0 {
        mutationLock := false;
      }
    }

    /** Any other failure frees the lock and shows what it showed. */
    method CallFailed()
      requires Valid() && World().active.Some?
      modifies this
      ensures Valid() && trace == old(trace) + [CallFails]
      ensures !mutationLock && World().active.None? && catalog == old(catalog)
    {
      hide Run, Inv;
      RunAppend(initial, trace, CallFails);
      trace := trace + [CallFails];
      mutationLock := false;
    }

    /** A refresh that begins outdates every earlier one and shows nothing yet. */
    method BeginRefresh() returns (r: Refresh)
      requires Valid()
      modifies this
      ensures Valid() && trace == old(trace) + [RefreshBegins]
      ensures World().refreshes == old(World().refreshes) + [r] && r.seen.None?
      ensures forall q :: q in old(World().refreshes) ==> !MayInstall(State(), q)
      ensures catalog == old(catalog) && mutationLock == old(mutationLock)
    {
      hide Run, Inv;
      RefsFacts(World());
      RunAppend(initial, trace, RefreshBegins);
      trace := trace + [RefreshBegins];
      loadSequence := loadSequence + 1;
      r := Refresh(loadSequence, None);
    }

    /** A refresh installs its list only if no refresh on its way is newer, and then shows
        what the server held when it was read; otherwise nothing changes. */
    method EndRefresh(r: Refresh, ghost i: nat) returns (installed: bool)
      requires Valid() && i < |World().refreshes| && World().refreshes[i] == r
      modifies this
      ensures Valid() && trace == old(trace) + [RefreshEnds(i)]
      ensures forall before, middle ::
        r.seen.Some? && old(trace) == before + [RefreshBegins] + middle
        && r.sequence == Run(initial, before + [RefreshBegins]).client.loadSequence ==>
          (installed <==>
             Run(initial, before).client.mounted && Undisturbed(initial, before + [RefreshBegins], middle))
      ensures installed ==> mounted && catalog == r.seen && r.seen.Some? && IsCatalog(World(), r.seen.value)
      ensures installed ==> forall q :: q in old(World().refreshes) ==> q.sequence <= r.sequence
      ensures !installed ==> State() == old(State())
      ensures mutationLock == old(mutationLock)
    {
      hide Run, Inv, Undisturbed;
      RefsFacts(World());
      RunAppend(initial, trace, RefreshEnds(i));
      ghost var was := World();
      trace := trace + [RefreshEnds(i)];
      installed := r.seen.Some? && mounted && r.sequence == loadSequence;
      forall before, middle |
        && r.seen.Some? && was == Run(initial, before + [RefreshBegins] + middle)
        && r.sequence == Run(initial, before + [RefreshBegins]).client.loadSequence
        ensures installed <==>
          Run(initial, before).client.mounted && Undisturbed(initial, before + [RefreshBegins], middle)
      {
        MayInstallExactly(initial, before, middle, i);
      }
      if installed {
        catalog := r.seen;
      }
    }
  }
}
