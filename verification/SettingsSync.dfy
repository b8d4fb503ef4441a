/** The settings save queue of src/SettingsWorkspace.tsx against a revision-checked
    server, with `persistAiProviderModel` (src/aiModelsApi.ts) as a second writer.
    Settings are modelled by their mutation history; every interleaving, late
    commit and lost response is a run. */
module SettingsSync {
  import opened Text

  /** The mutations a settings value results from, oldest first. */
  type History = seq<nat>

  // ----- the client's refs -----

  /** `saves` holds the content of every patch so far and `outcomes` the results of
      those that settled, in queue order; the mutation sequence is `|saves|`. */
  datatype Client = Client(
    settings: History, revision: Option<nat>, saves: seq<History>, outcomes: seq<bool>,
    running: bool, loadSequence: nat)

  /** No save is queued or running. */
  predicate Idle(c: Client) {
    |c.outcomes| == |c.saves|
  }

  /** The save at the head of the queue. */
  function Head(c: Client): nat {
    |c.outcomes|
  }

  /** The outcome an awaited save resolves to; the initial queue has succeeded. */
  predicate Succeeded(c: Client, awaited: nat)
    requires awaited <= |c.outcomes|
  {
    awaited == 0 || c.outcomes[awaited - 1]
  }

  /** `patch` up to its first await */
  function Patched(c: Client, mutation: nat): Client {
    var next := c.settings + [mutation];
    c.(settings := next, saves := c.saves + [next], loadSequence := c.loadSequence + 1)
  }

  /** The head save's `replace` resolved with a snapshot. */
  function SaveDone(c: Client, revision: nat, snapshot: History): Client {
    var last := Head(c) + 1 == |c.saves|;
    c.(revision := Some(revision), settings := if last then snapshot else c.settings,
       outcomes := c.outcomes + [true], running := false)
  }

  /** The head save's `replace` was rejected or its response lost. */
  function SaveLost(c: Client): Client {
    c.(outcomes := c.outcomes + [false], running := false)
  }

  /** A `loadSettings` call between two awaits. `awaited` is the queue tail it
      captured, as a count of saves. */
  datatype Load =
    | Waiting(sequence: nat, awaited: nat)
    | Fetching(sequence: nat, awaited: nat, mutations: nat)
    | Fetched(sequence: nat, awaited: nat, mutations: nat, revision: nat, content: History)

  predicate MayInstall(c: Client, l: Load) {
    l.Fetched? && l.sequence == c.loadSequence && l.mutations == |c.saves|
  }

  /** The end of `loadSettings`: install, or return because something moved on. */
  function LoadDone(c: Client, l: Load): Client
    requires l.Fetched?
  {
    if MayInstall(c, l) then c.(revision := Some(l.revision), settings := l.content) else c
  }

  /** One turn of the loop of `waitForSettingsSave` after its await: the outcome to
      return, or the tail to await next. */
  datatype Wait = Return(succeeded: bool) | Await(tail: nat)

  function WaitTurn(c: Client, awaited: nat): Wait
    requires awaited <= |c.outcomes|
  {
    if awaited == |c.saves| then Return(Succeeded(c, awaited)) else Await(|c.saves|)
  }

  const EMPTY_CLIENT: Client := Client([], None, [], [], false, 0)

  /** A `waitForSettingsSave` call: awaiting the tail it captured, or back with an
      outcome after a number of patches. */
  datatype Waiter = Awaiting(tail: nat) | Returned(succeeded: bool, patches: nat)

  // ----- the server and the network -----

  /** A save of the queue, or the other writer's replace. */
  datatype Writer = Save(index: nat) | ModelWriter

  datatype Request = Request(writer: Writer, content: History, expected: Option<nat>)

  /** `contents[r]` is what revision `r` holds; the last one is current. `commits`
      tells which saves the server accepted, whether or not the client heard. */
  datatype System = System(
    client: Client, loads: seq<Load>, waiters: seq<Waiter>, contents: seq<History>, network: seq<Request>,
    commits: map<nat, nat>)

  function Current(s: System): nat
    requires s.contents != []
  {
    |s.contents| - 1
  }

  datatype Event =
    | PatchCalled(mutation: nat)
    | SaveStarts
    | SaveSucceeds
    | SaveFails
    | LoadBegins
    | LoadProceeds(i: nat)
    | LoadReads(i: nat)
    | LoadEnds(i: nat)
    | LoadFails(i: nat)
    | WaitBegins
    | WaitResumes(i: nat)
    | Unmounted
    | ModelPersisted(mutation: nat)
    | ServerProcesses(i: nat)
    | RequestLost(i: nat)

  function Remove<T>(xs: seq<T>, i: nat): seq<T>
    requires i < |xs|
  {
    xs[..i] + xs[i + 1..]
  }

  /** The server accepts a replace exactly when it expects the current revision;
      every commit takes a fresh one. */
  function Process(s: System, i: nat): System
    requires i < |s.network| && s.contents != []
  {
    var r := s.network[i];
    var rest := s.(network := Remove(s.network, i));
    if r.expected == Some(Current(s)) then
      rest.(contents := s.contents + [r.content],
            commits := if r.writer.Save? then s.commits[r.writer.index := |s.contents|] else s.commits)
    else rest
  }

  /** The promise this waiter awaits has resolved. */
  predicate MayResume(s: System, i: nat) {
    i < |s.waiters| && s.waiters[i].Awaiting? && s.waiters[i].tail <= |s.client.outcomes|
  }

  function Resumed(c: Client, awaited: nat): Waiter
    requires awaited <= |c.outcomes|
  {
    match WaitTurn(c, awaited)
    case Return(succeeded) => Returned(succeeded, |c.saves|)
    case Await(tail) => Awaiting(tail)
  }

  /** One event; an event that is not enabled changes nothing. */
  function Step(s: System, e: Event): System
    requires s.contents != []
  {
    var c := s.client;
    match e
    case PatchCalled(m) => s.(client := Patched(c, m))
    case SaveStarts =>
      if c.running || Head(c) >= |c.saves| then s
      else
        s.(client := c.(running := true), network := s.network + [Request(Save(Head(c)), c.saves[Head(c)], c.revision)])
    case SaveSucceeds =>
      if c.running && Head(c) in s.commits && s.commits[Head(c)] < |s.contents| then
        s.(client := SaveDone(c, s.commits[Head(c)], s.contents[s.commits[Head(c)]]))
      else s
    case SaveFails => if c.running then s.(client := SaveLost(c)) else s
    case LoadBegins =>
      s.(client := c.(loadSequence := c.loadSequence + 1), loads := s.loads + [Waiting(c.loadSequence + 1, |c.saves|)])
    case LoadProceeds(i) =>
      if i < |s.loads| && s.loads[i].Waiting? && s.loads[i].awaited <= |c.outcomes| then
        var l := s.loads[i];
        if Succeeded(c, l.awaited) then s.(loads := s.loads[i := Fetching(l.sequence, l.awaited, |c.saves|)])
        else s.(loads := Remove(s.loads, i))
      else s
    case LoadReads(i) =>
      if i < |s.loads| && s.loads[i].Fetching? then
        var l := s.loads[i];
        s.(loads := s.loads[i := Fetched(l.sequence, l.awaited, l.mutations, Current(s), s.contents[Current(s)])])
      else s
    case LoadEnds(i) =>
      if i < |s.loads| && s.loads[i].Fetched? then
        s.(client := LoadDone(c, s.loads[i]), loads := Remove(s.loads, i))
      else s
    case LoadFails(i) => if i < |s.loads| then s.(loads := Remove(s.loads, i)) else s
    case WaitBegins => s.(waiters := s.waiters + [Awaiting(|c.saves|)])
    case WaitResumes(i) =>
      if MayResume(s, i) then s.(waiters := s.waiters[i := Resumed(c, s.waiters[i].tail)]) else s
    case Unmounted => s.(client := c.(loadSequence := c.loadSequence + 1))
    case ModelPersisted(m) =>
      s.(network := s.network + [Request(ModelWriter, s.contents[Current(s)] + [m], Some(Current(s)))])
    case ServerProcesses(i) => if i < |s.network| then Process(s, i) else s
    case RequestLost(i) => if i < |s.network| then s.(network := Remove(s.network, i)) else s
  }

  // ----- the invariant -----

  /** `a` is an earlier state of the same history. */
  ghost predicate Extends(b: History, a: History) {
    a <= b
  }

  ghost predicate Chain(xs: seq<History>) {
    forall i, j :: 0 <= i <= j < |xs| ==> Extends(xs[j], xs[i])
  }

  /** Every replace on its way extends the content of the revision it expects. */
  ghost predicate RequestSafe(s: System, r: Request) {
    r.expected.Some? ==> r.expected.value < |s.contents| && Extends(r.content, s.contents[r.expected.value])
  }

  ghost predicate RequestNamed(s: System, r: Request) {
    r.writer.Save? ==> r.writer.index < |s.client.saves| && r.content == s.client.saves[r.writer.index]
  }

  ghost predicate NetworkSafe(s: System) {
    forall i :: 0 <= i < |s.network| ==> RequestSafe(s, s.network[i]) && RequestNamed(s, s.network[i])
  }

  ghost predicate CommitsSafe(s: System) {
    forall k :: k in s.commits ==>
      k < |s.client.saves| && s.commits[k] < |s.contents| && s.contents[s.commits[k]] == s.client.saves[k]
  }

  /** The saves that have not settled form a chain that ends in the settings shown. */
  ghost predicate QueueSafe(c: Client) {
    && |c.outcomes| <= |c.saves|
    && (c.running ==> !Idle(c))
    && (forall i, j :: |c.outcomes| <= i <= j < |c.saves| ==> Extends(c.saves[j], c.saves[i]))
    && (!Idle(c) ==> c.settings == c.saves[|c.saves| - 1])
  }

  /** What the client believes committed is an earlier state of all it may send. */
  ghost predicate BaseSafe(s: System) {
    var c := s.client;
    c.revision.Some? ==>
      && c.revision.value < |s.contents|
      && Extends(c.settings, s.contents[c.revision.value])
      && forall i :: |c.outcomes| <= i < |c.saves| ==> Extends(c.saves[i], s.contents[c.revision.value])
  }

  /** Every save reported as succeeded is part of the server's history for good. */
  ghost predicate AcknowledgedKept(s: System) {
    forall k :: 0 <= k < |s.client.outcomes| && k < |s.client.saves| && s.client.outcomes[k] ==>
      s.contents != [] && Extends(s.contents[|s.contents| - 1], s.client.saves[k])
  }

  /** With nothing queued and the last save successful, all that is shown is committed. */
  ghost predicate ShownCommitted(s: System) {
    Idle(s.client) && Succeeded(s.client, |s.client.saves|) ==>
      s.contents != [] && Extends(s.contents[|s.contents| - 1], s.client.settings)
  }

  ghost predicate LoadSafe(s: System, l: Load) {
    && l.sequence <= s.client.loadSequence
    && (l.sequence == s.client.loadSequence ==> l.awaited == |s.client.saves|)
    && (!l.Waiting? ==> l.awaited <= |s.client.outcomes| && Succeeded(s.client, l.awaited))
    && (l.Fetched? ==> l.revision < |s.contents| && s.contents[l.revision] == l.content)
    && (l.Fetched? && l.sequence == s.client.loadSequence ==> Extends(l.content, s.client.settings))
  }

  ghost predicate LoadsSafe(s: System) {
    && (forall i :: 0 <= i < |s.loads| ==> LoadSafe(s, s.loads[i]))
    && forall i, j :: 0 <= i < j < |s.loads| ==> s.loads[i].sequence != s.loads[j].sequence
  }

  ghost predicate Inv(s: System) {
    && s.contents != [] && Chain(s.contents)
    && NetworkSafe(s) && CommitsSafe(s) && QueueSafe(s.client) && BaseSafe(s)
    && AcknowledgedKept(s) && ShownCommitted(s) && LoadsSafe(s)
  }

  /** A client that has just mounted against a server holding `content`. */
  function Initial(content: History): System {
    System(EMPTY_CLIENT, [], [], [content], [], map[])
  }

  lemma InitialInv(content: History)
    ensures Inv(Initial(content))
  {
  }

  lemma ExtendsTransitive(c: History, b: History, a: History)
    requires Extends(c, b) && Extends(b, a)
    ensures Extends(c, a)
  {
  }

  // ----- client events -----

  lemma PatchInv(s: System, mutation: nat)
    requires Inv(s)
    ensures Inv(Step(s, PatchCalled(mutation)))
  {
    var c := s.client;
    var s' := Step(s, PatchCalled(mutation));
    var next := c.settings + [mutation];
    assert Extends(next, c.settings);
    assert forall k :: 0 <= k < |c.saves| ==> s'.client.saves[k] == c.saves[k];
    assert QueueSafe(s'.client) by {
      forall i | |c.outcomes| <= i < |c.saves|
        ensures Extends(next, c.saves[i])
      {
        ExtendsTransitive(next, c.settings, c.saves[i]);
      }
    }
    assert NetworkSafe(s') by {
      forall i | 0 <= i < |s.network|
        ensures RequestSafe(s', s'.network[i]) && RequestNamed(s', s'.network[i])
      {
        assert RequestSafe(s, s.network[i]) && RequestNamed(s, s.network[i]);
      }
    }
    assert LoadsSafe(s') by {
      forall i | 0 <= i < |s.loads|
        ensures LoadSafe(s', s'.loads[i])
      {
        assert LoadSafe(s, s.loads[i]);
      }
    }
    assert BaseSafe(s') by {
      if c.revision.Some? {
        ExtendsTransitive(next, c.settings, s.contents[c.revision.value]);
      }
    }
  }

  lemma SaveStartsInv(s: System)
    requires Inv(s)
    ensures Inv(Step(s, SaveStarts))
  {
    var s' := Step(s, SaveStarts);
    forall i | 0 <= i < |s'.network|
      ensures RequestSafe(s', s'.network[i]) && RequestNamed(s', s'.network[i])
    {
      if i < |s.network| {
        assert RequestSafe(s, s.network[i]) && RequestNamed(s, s.network[i]);
      }
    }
    forall i | 0 <= i < |s.loads|
      ensures LoadSafe(s', s'.loads[i])
    {
      assert LoadSafe(s, s.loads[i]);
    }
  }

  lemma SaveSucceedsInv(s: System)
    requires Inv(s)
    ensures Inv(Step(s, SaveSucceeds))
  {
    var s' := Step(s, SaveSucceeds);
    var c, c' := s.client, s'.client;
    if c.running && Head(c) in s.commits {
      var r := s.commits[Head(c)];
      assert s.contents[r] == c.saves[Head(c)];
      assert Extends(s.contents[|s.contents| - 1], s.contents[r]);
      assert NetworkSafe(s') by {
        forall i | 0 <= i < |s.network|
          ensures RequestSafe(s', s'.network[i]) && RequestNamed(s', s'.network[i])
        {
          assert RequestSafe(s, s.network[i]) && RequestNamed(s, s.network[i]);
        }
      }
      assert LoadsSafe(s') by {
        forall i | 0 <= i < |s.loads|
          ensures LoadSafe(s', s'.loads[i])
        {
          assert LoadSafe(s, s.loads[i]);
        }
      }
    }
  }

  lemma SaveFailsInv(s: System)
    requires Inv(s)
    ensures Inv(Step(s, SaveFails))
  {
    var s' := Step(s, SaveFails);
    assert NetworkSafe(s') by {
      forall i | 0 <= i < |s.network|
        ensures RequestSafe(s', s'.network[i]) && RequestNamed(s', s'.network[i])
      {
        assert RequestSafe(s, s.network[i]) && RequestNamed(s, s.network[i]);
      }
    }
    assert LoadsSafe(s') by {
      forall i | 0 <= i < |s.loads|
        ensures LoadSafe(s', s'.loads[i])
      {
        assert LoadSafe(s, s.loads[i]);
      }
    }
  }

  // ----- loads -----

  /** An event that only changes the list of loads. */
  lemma LoadsOnly(s: System, s': System)
    requires Inv(s) && s' == s.(loads := s'.loads) && LoadsSafe(s')
    ensures Inv(s')
  {
    forall i | 0 <= i < |s.network|
      ensures RequestSafe(s', s'.network[i]) && RequestNamed(s', s'.network[i])
    {
      assert RequestSafe(s, s.network[i]) && RequestNamed(s, s.network[i]);
    }
  }

  /** An event that only changes the waiters. */
  lemma WaitersOnly(s: System, s': System)
    requires Inv(s) && s' == s.(waiters := s'.waiters)
    ensures Inv(s')
  {
    forall i | 0 <= i < |s.network|
      ensures RequestSafe(s', s'.network[i]) && RequestNamed(s', s'.network[i])
    {
      assert RequestSafe(s, s.network[i]) && RequestNamed(s, s.network[i]);
    }
    forall i | 0 <= i < |s.loads|
      ensures LoadSafe(s', s'.loads[i])
    {
      assert LoadSafe(s, s.loads[i]);
    }
  }

  lemma RemoveLoad(s: System, i: nat)
    requires LoadsSafe(s) && i < |s.loads|
    ensures LoadsSafe(s.(loads := Remove(s.loads, i)))
  {
    var s' := s.(loads := Remove(s.loads, i));
    forall j | 0 <= j < |s'.loads|
      ensures LoadSafe(s', s'.loads[j])
    {
      assert LoadSafe(s, s.loads[if j < i then j else j + 1]);
    }
  }

  lemma ReplaceLoad(s: System, i: nat, l: Load)
    requires LoadsSafe(s) && i < |s.loads| && LoadSafe(s, l) && l.sequence == s.loads[i].sequence
    ensures LoadsSafe(s.(loads := s.loads[i := l]))
  {
    var s' := s.(loads := s.loads[i := l]);
    forall j | 0 <= j < |s'.loads|
      ensures LoadSafe(s', s'.loads[j])
    {
      assert LoadSafe(s, s.loads[j]);
    }
  }

  lemma LoadBeginsInv(s: System)
    requires Inv(s)
    ensures Inv(Step(s, LoadBegins))
  {
    var s' := Step(s, LoadBegins);
    forall i | 0 <= i < |s.network|
      ensures RequestSafe(s', s'.network[i]) && RequestNamed(s', s'.network[i])
    {
      assert RequestSafe(s, s.network[i]) && RequestNamed(s, s.network[i]);
    }
    forall i | 0 <= i < |s.loads|
      ensures LoadSafe(s', s.loads[i]) && s.loads[i].sequence < s'.client.loadSequence
    {
      assert LoadSafe(s, s.loads[i]);
    }
  }

  lemma UnmountedInv(s: System)
    requires Inv(s)
    ensures Inv(Step(s, Unmounted))
  {
    var s' := Step(s, Unmounted);
    forall i | 0 <= i < |s.network|
      ensures RequestSafe(s', s'.network[i]) && RequestNamed(s', s'.network[i])
    {
      assert RequestSafe(s, s.network[i]) && RequestNamed(s, s.network[i]);
    }
    forall i | 0 <= i < |s.loads|
      ensures LoadSafe(s', s'.loads[i])
    {
      assert LoadSafe(s, s.loads[i]);
    }
  }

  lemma LoadProceedsInv(s: System, i: nat)
    requires Inv(s)
    ensures Inv(Step(s, LoadProceeds(i)))
  {
    if i < |s.loads| && s.loads[i].Waiting? && s.loads[i].awaited <= |s.client.outcomes| {
      var l := s.loads[i];
      assert LoadSafe(s, l);
      if Succeeded(s.client, l.awaited) {
        ReplaceLoad(s, i, Fetching(l.sequence, l.awaited, |s.client.saves|));
      } else {
        RemoveLoad(s, i);
      }
      LoadsOnly(s, Step(s, LoadProceeds(i)));
    }
  }

  lemma LoadReadsInv(s: System, i: nat)
    requires Inv(s)
    ensures Inv(Step(s, LoadReads(i)))
  {
    if i < |s.loads| && s.loads[i].Fetching? {
      var l := s.loads[i];
      assert LoadSafe(s, l);
      ReplaceLoad(s, i, Fetched(l.sequence, l.awaited, l.mutations, Current(s), s.contents[Current(s)]));
      LoadsOnly(s, Step(s, LoadReads(i)));
    }
  }

  lemma LoadEndsInv(s: System, i: nat)
    requires Inv(s)
    ensures Inv(Step(s, LoadEnds(i)))
  {
    if i < |s.loads| && s.loads[i].Fetched? {
      var l := s.loads[i];
      RemoveLoad(s, i);
      var s1 := s.(loads := Remove(s.loads, i));
      LoadsOnly(s, s1);
      assert LoadSafe(s, l);
      if MayInstall(s.client, l) {
        forall j | 0 <= j < |s1.loads|
          ensures s1.loads[j].sequence != l.sequence
        {
        }
        InstallInv(s1, l);
      } else {
        assert Step(s, LoadEnds(i)) == s1;
      }
    }
  }

  lemma InstallInv(s: System, l: Load)
    requires Inv(s) && LoadSafe(s, l) && MayInstall(s.client, l)
    requires forall j :: 0 <= j < |s.loads| ==> s.loads[j].sequence != l.sequence
    ensures Inv(s.(client := LoadDone(s.client, l)))
  {
    var s' := s.(client := LoadDone(s.client, l));
    assert Extends(s.contents[|s.contents| - 1], s.contents[l.revision]);
    assert NetworkSafe(s') by {
      forall i | 0 <= i < |s.network|
        ensures RequestSafe(s', s'.network[i]) && RequestNamed(s', s'.network[i])
      {
        assert RequestSafe(s, s.network[i]) && RequestNamed(s, s.network[i]);
      }
    }
    assert LoadsSafe(s') by {
      forall i | 0 <= i < |s.loads|
        ensures LoadSafe(s', s'.loads[i])
      {
        assert LoadSafe(s, s.loads[i]);
      }
    }
  }

  // ----- server and network events -----

  lemma NetworkOnly(s: System, s': System)
    requires Inv(s) && s' == s.(network := s'.network)
    requires forall i :: 0 <= i < |s'.network| ==> RequestSafe(s, s'.network[i]) && RequestNamed(s, s'.network[i])
    ensures Inv(s')
  {
    forall i | 0 <= i < |s'.network|
      ensures RequestSafe(s', s'.network[i]) && RequestNamed(s', s'.network[i])
    {
      assert RequestSafe(s, s'.network[i]) && RequestNamed(s, s'.network[i]);
    }
    forall i | 0 <= i < |s.loads|
      ensures LoadSafe(s', s'.loads[i])
    {
      assert LoadSafe(s, s.loads[i]);
    }
  }

  lemma RequestLostInv(s: System, i: nat)
    requires Inv(s) && i < |s.network|
    ensures Inv(s.(network := Remove(s.network, i)))
  {
    var s' := s.(network := Remove(s.network, i));
    forall j | 0 <= j < |s'.network|
      ensures RequestSafe(s, s'.network[j]) && RequestNamed(s, s'.network[j])
    {
      assert s'.network[j] == s.network[if j < i then j else j + 1];
    }
    NetworkOnly(s, s');
  }

  lemma ModelPersistedInv(s: System, mutation: nat)
    requires Inv(s)
    ensures Inv(Step(s, ModelPersisted(mutation)))
  {
    var s' := Step(s, ModelPersisted(mutation));
    forall j | 0 <= j < |s'.network|
      ensures RequestSafe(s, s'.network[j]) && RequestNamed(s, s'.network[j])
    {
      if j < |s.network| {
        assert s'.network[j] == s.network[j];
      }
    }
    NetworkOnly(s, s');
  }

  /** An accepted replace: the server's history grows and nothing it held is lost. */
  lemma CommitInv(s: System, r: Request, s': System)
    requires Inv(s) && RequestSafe(s, r) && RequestNamed(s, r) && r.expected == Some(Current(s))
    requires s' == s.(contents := s.contents + [r.content],
                  commits := if r.writer.Save? then s.commits[r.writer.index := |s.contents|] else s.commits)
    ensures Inv(s')
  {
    var cur := s.contents[Current(s)];
    assert Extends(r.content, cur);
    assert forall k :: 0 <= k < |s.contents| ==> s'.contents[k] == s.contents[k];
    assert Chain(s'.contents) by {
      forall i | 0 <= i < |s.contents|
        ensures Extends(r.content, s.contents[i])
      {
        ExtendsTransitive(r.content, cur, s.contents[i]);
      }
    }
    assert NetworkSafe(s') by {
      forall i | 0 <= i < |s.network|
        ensures RequestSafe(s', s'.network[i]) && RequestNamed(s', s'.network[i])
      {
        assert RequestSafe(s, s.network[i]) && RequestNamed(s, s.network[i]);
      }
    }
    assert LoadsSafe(s') by {
      forall i | 0 <= i < |s.loads|
        ensures LoadSafe(s', s'.loads[i])
      {
        assert LoadSafe(s, s.loads[i]);
      }
    }
    assert AcknowledgedKept(s') by {
      forall k | 0 <= k < |s.client.outcomes| && k < |s.client.saves| && s.client.outcomes[k]
        ensures Extends(r.content, s.client.saves[k])
      {
        ExtendsTransitive(r.content, cur, s.client.saves[k]);
      }
    }
    assert ShownCommitted(s') by {
      if Idle(s.client) && Succeeded(s.client, |s.client.saves|) {
        ExtendsTransitive(r.content, cur, s.client.settings);
      }
    }
  }

  lemma ServerProcessesInv(s: System, i: nat)
    requires Inv(s) && i < |s.network|
    ensures Inv(Process(s, i))
  {
    var r := s.network[i];
    var rest := s.(network := Remove(s.network, i));
    RequestLostInv(s, i);
    assert RequestSafe(s, r) && RequestNamed(s, r);
    if r.expected == Some(Current(s)) {
      assert RequestSafe(rest, r) && RequestNamed(rest, r);
      CommitInv(rest, r, Process(s, i));
    }
  }

  // ----- runs -----

  lemma StepInv(s: System, e: Event)
    requires Inv(s)
    ensures Inv(Step(s, e))
  {
    match e
    case PatchCalled(m) => PatchInv(s, m);
    case SaveStarts => SaveStartsInv(s);
    case SaveSucceeds => SaveSucceedsInv(s);
    case SaveFails => SaveFailsInv(s);
    case LoadBegins => LoadBeginsInv(s);
    case LoadProceeds(i) => LoadProceedsInv(s, i);
    case LoadReads(i) => LoadReadsInv(s, i);
    case LoadEnds(i) => LoadEndsInv(s, i);
    case LoadFails(i) =>
      if i < |s.loads| {
        RemoveLoad(s, i);
        LoadsOnly(s, Step(s, e));
      }
    case WaitBegins => WaitersOnly(s, Step(s, e));
    case WaitResumes(_) => WaitersOnly(s, Step(s, e));
    case Unmounted => UnmountedInv(s);
    case ModelPersisted(m) => ModelPersistedInv(s, m);
    case ServerProcesses(i) => if i < |s.network| { ServerProcessesInv(s, i); }
    case RequestLost(i) => if i < |s.network| { RequestLostInv(s, i); }
  }

  /** The system after any interleaving of events. */
  ghost function Run(content: History, events: seq<Event>): (s: System)
    ensures Inv(s) && s.contents != []
  {
    if events == [] then
      InitialInv(content);
      Initial(content)
    else
      var before := Run(content, events[..|events| - 1]);
      StepInv(before, events[|events| - 1]);
      Step(before, events[|events| - 1])
  }

  /** One event never shortens the server's history, and a replace it accepts
      extends the content it overwrites. */
  lemma StepExtends(s: System, e: Event)
    requires Inv(s)
    ensures var s' := Step(s, e);
      s'.contents == s.contents
      || (|s'.contents| == |s.contents| + 1 && Extends(s'.contents[Current(s')], s.contents[Current(s)]))
  {
    if e.ServerProcesses? && e.i < |s.network| {
      assert RequestSafe(s, s.network[e.i]);
    }
  }

  /** No lost update: whatever both writers, the network and the client do, what
      the server ever held stays part of what it holds. */
  lemma {:induction false} NoLostUpdate(content: History, events: seq<Event>, n: nat)
    requires n <= |events|
    ensures var earlier, later := Run(content, events[..n]), Run(content, events);
      earlier.contents != [] && later.contents != []
      && Extends(later.contents[Current(later)], earlier.contents[Current(earlier)])
  {
    hide Run, Step, Inv;
    if n == |events| {
      assert events[..n] == events;
    } else {
      var m := |events| - 1;
      NoLostUpdate(content, events[..m], n);
      assert events[..m][..n] == events[..n] && events == events[..m] + [events[m]];
      var before := Run(content, events[..m]);
      RunAppend(content, events[..m], events[m]);
      StepExtends(before, events[m]);
      var earlier, later := Run(content, events[..n]), Run(content, events);
      hide Extends;
      if later.contents != before.contents {
        ExtendsTransitive(later.contents[Current(later)], before.contents[Current(before)], earlier.contents[Current(earlier)]);
      }
    }
  }

  /** A save the client was told succeeded is in the server's history ever after. */
  lemma AcknowledgedSavesStay(content: History, events: seq<Event>, n: nat, k: nat)
    requires n <= |events|
    requires var earlier := Run(content, events[..n]); k < |earlier.client.outcomes| && earlier.client.outcomes[k]
    ensures var earlier, later := Run(content, events[..n]), Run(content, events);
      && k < |earlier.client.saves| && later.contents != []
      && Extends(later.contents[Current(later)], earlier.client.saves[k])
  {
    var earlier, later := Run(content, events[..n]), Run(content, events);
    NoLostUpdate(content, events, n);
    ExtendsTransitive(later.contents[Current(later)], earlier.contents[Current(earlier)], earlier.client.saves[k]);
  }

  /** A reload installs its snapshot only when no save is queued or running and no
      patch came since it began, and it never drops a mutation that was shown. */
  lemma ReloadInstallsSafely(s: System, i: nat)
    requires Inv(s) && i < |s.loads| && MayInstall(s.client, s.loads[i])
    ensures Idle(s.client) && !s.client.running
    ensures s.loads[i].awaited == |s.client.saves|
    ensures Extends(s.loads[i].content, s.client.settings)
    ensures Step(s, LoadEnds(i)).client == s.client.(revision := Some(s.loads[i].revision), settings := s.loads[i].content)
  {
    assert LoadSafe(s, s.loads[i]);
  }

  /** Otherwise a reload changes neither the revision nor the settings. */
  lemma ReloadOtherwiseInert(s: System, i: nat)
    requires Inv(s) && i < |s.loads| && s.loads[i].Fetched? && !MayInstall(s.client, s.loads[i])
    ensures Step(s, LoadEnds(i)).client == s.client
  {
  }

  // ----- exactly the undisturbed loads install -----

  /** No patch, no later load and no unmount. */
  ghost predicate Undisturbed(events: seq<Event>) {
    forall e :: e in events ==> !e.PatchCalled? && !e.LoadBegins? && !e.Unmounted?
  }

  /** The load of this sequence, begun when the server held revision `since` and `saves`
      patches had been issued, is not outdated. */
  ghost predicate Fresh(s: System, sequence: nat, saves: nat, since: nat) {
    && s.client.loadSequence == sequence && |s.client.saves| == saves && since < |s.contents|
    && forall i :: 0 <= i < |s.loads| && s.loads[i].sequence == sequence ==> FreshLoad(s.loads[i], saves, since)
  }

  ghost predicate FreshLoad(l: Load, saves: nat, since: nat) {
    match l
    case Waiting(_, awaited) => awaited == saves
    case Fetching(_, awaited, mutations) => awaited == mutations == saves
    case Fetched(_, awaited, mutations, revision, _) => awaited == mutations == saves && since <= revision
  }

  lemma LoadIsFresh(s: System)
    requires Inv(s)
    ensures var t := Step(s, LoadBegins); Fresh(t, t.client.loadSequence, |t.client.saves|, Current(s))
  {
    forall i | 0 <= i < |s.loads|
      ensures s.loads[i].sequence <= s.client.loadSequence
    {
      assert LoadSafe(s, s.loads[i]);
    }
    hide Inv;
  }

  lemma StaysFresh(s: System, e: Event, sequence: nat, saves: nat, since: nat)
    requires s.contents != [] && Fresh(s, sequence, saves, since)
    requires !e.PatchCalled? && !e.LoadBegins? && !e.Unmounted?
    ensures Fresh(Step(s, e), sequence, saves, since)
  {
    var t := Step(s, e);
    ServerGrows(s, e);
    forall i | 0 <= i < |t.loads| && t.loads[i].sequence == sequence
      ensures FreshLoad(t.loads[i], saves, since)
    {
      var j := LoadCameFrom(s, e, i);
      assert s.loads[j].sequence == sequence;
    }
    SequenceStays(s, e);
  }

  lemma ServerGrows(s: System, e: Event)
    requires s.contents != []
    ensures |s.contents| <= |Step(s, e).contents|
  {
  }

  lemma SequenceStays(s: System, e: Event)
    requires s.contents != [] && !e.PatchCalled? && !e.LoadBegins? && !e.Unmounted?
    ensures Step(s, e).client.loadSequence == s.client.loadSequence && Step(s, e).client.saves == s.client.saves
  {
  }

  lemma OtherLoadsStay(s: System, e: Event)
    requires s.contents != [] && !e.LoadBegins? && !e.LoadProceeds? && !e.LoadReads? && !e.LoadEnds? && !e.LoadFails?
    ensures Step(s, e).loads == s.loads
  {
  }

  lemma LoadRemoved(s: System, i: nat, k: nat) returns (j: nat)
    requires k < |s.loads| && i < |Remove(s.loads, k)|
    ensures j < |s.loads| && Remove(s.loads, k)[i] == s.loads[j]
  {
    j := if i < k then i else i + 1;
  }

  /** Every load there is was there before, or is the next phase of one that was. */
  lemma LoadCameFrom(s: System, e: Event, i: nat) returns (j: nat)
    requires s.contents != [] && !e.LoadBegins? && i < |Step(s, e).loads|
    ensures j < |s.loads|
    ensures var l := Step(s, e).loads[i];
      || l == s.loads[j]
      || (s.loads[j].Waiting? && l == Fetching(s.loads[j].sequence, s.loads[j].awaited, |s.client.saves|))
      || (s.loads[j].Fetching? && l == Fetched(
        s.loads[j].sequence, s.loads[j].awaited, s.loads[j].mutations, Current(s), s.contents[Current(s)]))
  {
    if (e.LoadProceeds? || e.LoadEnds? || e.LoadFails?) && e.i < |s.loads| && Step(s, e).loads == Remove(s.loads, e.i) {
      j := LoadRemoved(s, i, e.i);
    } else {
      if !e.LoadProceeds? && !e.LoadReads? && !e.LoadEnds? && !e.LoadFails? {
        OtherLoadsStay(s, e);
      }
      j := i;
    }
  }

  lemma {:induction false} RunStaysFresh(content: History, begun: seq<Event>, middle: seq<Event>, sequence: nat, saves: nat, since: nat)
    requires Fresh(Run(content, begun), sequence, saves, since) && Undisturbed(middle)
    ensures Fresh(Run(content, begun + middle), sequence, saves, since)
  {
    hide Run, Step, Inv, Fresh;
    if middle == [] {
      assert begun + middle == begun;
    } else {
      var n := |middle| - 1;
      assert middle[n] in middle && forall e :: e in middle[..n] ==> e in middle;
      RunStaysFresh(content, begun, middle[..n], sequence, saves, since);
      assert begun + middle == begun + middle[..n] + [middle[n]];
      RunAppend(content, begun + middle[..n], middle[n]);
      StaysFresh(Run(content, begun + middle[..n]), middle[n], sequence, saves, since);
    }
  }

  lemma SequenceGrows(s: System, e: Event)
    requires s.contents != []
    ensures s.client.loadSequence <= Step(s, e).client.loadSequence
    ensures e.PatchCalled? || e.LoadBegins? || e.Unmounted? ==> s.client.loadSequence < Step(s, e).client.loadSequence
  {
  }

  lemma {:induction false} RunOutdates(content: History, begun: seq<Event>, middle: seq<Event>)
    ensures Run(content, begun).client.loadSequence <= Run(content, begun + middle).client.loadSequence
    ensures !Undisturbed(middle) ==> Run(content, begun).client.loadSequence < Run(content, begun + middle).client.loadSequence
  {
    hide Run, Step, Inv;
    if middle == [] {
      assert begun + middle == begun;
    } else {
      var n := |middle| - 1;
      RunOutdates(content, begun, middle[..n]);
      assert begun + middle == begun + middle[..n] + [middle[n]];
      RunAppend(content, begun + middle[..n], middle[n]);
      SequenceGrows(Run(content, begun + middle[..n]), middle[n]);
      assert middle == middle[..n] + [middle[n]];
    }
  }

  /** Over every run, the load begun by the event behind `before` installs when it ends if
      and only if no patch, later load or unmount came since; it then shows what the server
      held when it was read, which was after it began, and otherwise changes nothing. */
  lemma LoadInstallsExactly(content: History, before: seq<Event>, middle: seq<Event>, i: nat)
    requires var s := Run(content, before + [LoadBegins] + middle);
      i < |s.loads| && s.loads[i].Fetched? && s.loads[i].sequence == Run(content, before + [LoadBegins]).client.loadSequence
    ensures var s := Run(content, before + [LoadBegins] + middle);
      var l := s.loads[i];
      && (Undisturbed(middle) ==> Current(Run(content, before)) <= l.revision)
      && l.revision < |s.contents|
      && Step(s, LoadEnds(i)).client ==
        if Undisturbed(middle) then s.client.(revision := Some(l.revision), settings := s.contents[l.revision]) else s.client
  {
    hide Run, Inv, Undisturbed;
    LoadFacts(Run(content, before + [LoadBegins] + middle), i);
    MayInstallExactly(content, before, middle, i);
  }

  lemma MayInstallExactly(content: History, before: seq<Event>, middle: seq<Event>, i: nat)
    requires var s := Run(content, before + [LoadBegins] + middle);
      i < |s.loads| && s.loads[i].Fetched? && s.loads[i].sequence == Run(content, before + [LoadBegins]).client.loadSequence
    ensures var s := Run(content, before + [LoadBegins] + middle);
      && (MayInstall(s.client, s.loads[i]) <==> Undisturbed(middle))
      && (Undisturbed(middle) ==> Current(Run(content, before)) <= s.loads[i].revision)
  {
    hide Run, Inv, Undisturbed;
    var begun := before + [LoadBegins];
    var s0, s := Run(content, begun), Run(content, begun + middle);
    RunAppend(content, before, LoadBegins);
    LoadIsFresh(Run(content, before));
    if Undisturbed(middle) {
      RunStaysFresh(content, begun, middle, s0.client.loadSequence, |s0.client.saves|, Current(Run(content, before)));
      assert FreshLoad(s.loads[i], |s0.client.saves|, Current(Run(content, before)));
    } else {
      RunOutdates(content, begun, middle);
    }
  }

  lemma LoadFacts(s: System, i: nat)
    requires Inv(s) && i < |s.loads|
    ensures s.loads[i].Fetched? ==> s.loads[i].revision < |s.contents| && s.contents[s.loads[i].revision] == s.loads[i].content
    ensures !s.loads[i].Waiting? ==> s.loads[i].awaited <= |s.client.outcomes| && Succeeded(s.client, s.loads[i].awaited)
  {
    assert LoadSafe(s, s.loads[i]);
  }

  /** A load whose end changes anything ends with every patch settled and the last one
      successful, and drops no mutation that was shown. */
  lemma InstallMeansSettled(s: System, i: nat)
    requires Inv(s) && Step(s, LoadEnds(i)).client != s.client
    ensures Idle(s.client) && !s.client.running && (s.client.saves == [] || s.client.outcomes[|s.client.saves| - 1])
    ensures Extends(Step(s, LoadEnds(i)).client.settings, s.client.settings)
  {
    LoadFacts(s, i);
    ReloadInstallsSafely(s, i);
    hide Inv;
  }

  /** What is left of a load once everything has settled. */
  function Rest(l: Load, i: nat): seq<Event> {
    match l
    case Waiting(_, _) => [LoadProceeds(i)] + [LoadReads(i)] + [LoadEnds(i)]
    case Fetching(_, _, _) => [LoadReads(i)] + [LoadEnds(i)]
    case Fetched(_, _, _, _, _) => [LoadEnds(i)]
  }

  /** A load on its way that nothing disturbed can install: with every patch settled and the
      last one successful, its remaining phases show what the server holds. */
  lemma UndisturbedLoadInstalls(content: History, before: seq<Event>, middle: seq<Event>, i: nat)
    requires Undisturbed(middle)
    requires var s := Run(content, before + [LoadBegins] + middle);
      && i < |s.loads| && s.loads[i].sequence == Run(content, before + [LoadBegins]).client.loadSequence
      && Idle(s.client) && (s.client.saves == [] || s.client.outcomes[|s.client.saves| - 1])
    ensures var s := Run(content, before + [LoadBegins] + middle);
      var r := if s.loads[i].Fetched? then s.loads[i].revision else Current(s);
      r < |s.contents|
      && Run(content, before + [LoadBegins] + middle + Rest(s.loads[i], i)).client
        == s.client.(revision := Some(r), settings := s.contents[r])
  {
    hide Run, Inv, Undisturbed, Rest;
    var begun := before + [LoadBegins];
    var s0, s := Run(content, begun), Run(content, begun + middle);
    RunAppend(content, before, LoadBegins);
    LoadIsFresh(Run(content, before));
    RunStaysFresh(content, begun, middle, s0.client.loadSequence, |s0.client.saves|, Current(Run(content, before)));
    assert FreshLoad(s.loads[i], |s0.client.saves|, Current(Run(content, before)));
    LoadFacts(s, i);
    RestInstalls(s, i);
    RunRest(content, begun + middle, s.loads[i], i);
  }

  /** The rest of a load, step by step. */
  ghost function AfterRest(s: System, l: Load, i: nat): System
    requires s.contents != []
  {
    match l
    case Waiting(_, _) => Step(Step(Step(s, LoadProceeds(i)), LoadReads(i)), LoadEnds(i))
    case Fetching(_, _, _) => Step(Step(s, LoadReads(i)), LoadEnds(i))
    case Fetched(_, _, _, _, _) => Step(s, LoadEnds(i))
  }

  lemma RunRest(content: History, events: seq<Event>, l: Load, i: nat)
    ensures Run(content, events + Rest(l, i)) == AfterRest(Run(content, events), l, i)
  {
    hide Run, Inv, Step;
    var p, r, e := LoadProceeds(i), LoadReads(i), LoadEnds(i);
    match l
    case Waiting(_, _) =>
      RunAppend(content, events, p);
      RunAppend(content, events + [p], r);
      RunAppend(content, events + [p] + [r], e);
      assert events + ([p] + [r] + [e]) == events + [p] + [r] + [e];
    case Fetching(_, _, _) =>
      RunAppend(content, events, r);
      RunAppend(content, events + [r], e);
      assert events + ([r] + [e]) == events + [r] + [e];
    case Fetched(_, _, _, _, _) => RunAppend(content, events, e);
  }

  lemma RestInstalls(s: System, i: nat)
    requires s.contents != [] && i < |s.loads| && s.loads[i].sequence == s.client.loadSequence
    requires Idle(s.client) && (s.client.saves == [] || s.client.outcomes[|s.client.saves| - 1])
    requires FreshLoad(s.loads[i], |s.client.saves|, 0)
    requires s.loads[i].Fetched? ==> s.loads[i].revision < |s.contents| && s.contents[s.loads[i].revision] == s.loads[i].content
    ensures var r := if s.loads[i].Fetched? then s.loads[i].revision else Current(s);
      AfterRest(s, s.loads[i], i).client == s.client.(revision := Some(r), settings := s.contents[r])
  {
  }

  // ----- what a save can do -----

  /** With nobody in between the save at the head of the queue is committed and settles as
      succeeded. */
  lemma SaveCommits(s: System)
    requires Inv(s) && !s.client.running && !Idle(s.client) && s.client.revision == Some(Current(s))
    ensures var c := s.client;
      var t := Step(Step(Step(s, SaveStarts), ServerProcesses(|s.network|)), SaveSucceeds);
      && t.contents == s.contents + [c.saves[|c.outcomes|]] && t.network == s.network
      && t.client.outcomes == c.outcomes + [true] && t.client.revision == Some(Current(t)) && t.client.saves == c.saves
  {
    SettledWithin(s);
    hide Inv;
    var c := s.client;
    var u := Step(s, SaveStarts);
    assert u.network[|s.network|] == Request(Save(|c.outcomes|), c.saves[|c.outcomes|], c.revision);
    var v := Step(u, ServerProcesses(|s.network|));
    assert v.network == s.network;
  }

  /** A save that expects an older revision, or none, is refused and leaves the server as
      it is. */
  lemma StaleSaveRefused(s: System)
    requires Inv(s) && !s.client.running && !Idle(s.client) && s.client.revision != Some(Current(s))
    ensures var t := Step(Step(s, SaveStarts), ServerProcesses(|s.network|));
      t.contents == s.contents && t.commits == s.commits && t.network == s.network
  {
    SettledWithin(s);
    hide Inv;
    var c := s.client;
    var u := Step(s, SaveStarts);
    assert u.network[|s.network|] == Request(Save(|c.outcomes|), c.saves[|c.outcomes|], c.revision);
  }

  /** So is the other writer's replace, if nobody comes in between. */
  lemma ModelWriterCommits(s: System, mutation: nat)
    requires s.contents != []
    ensures var t := Step(Step(s, ModelPersisted(mutation)), ServerProcesses(|s.network|));
      t.contents == s.contents + [s.contents[Current(s)] + [mutation]] && t.network == s.network
  {
    var u := Step(s, ModelPersisted(mutation));
    assert u.network[|s.network|].expected == Some(Current(s));
  }

  // ----- waiting for the queue -----

  /** Over every run, a waiter that is back came back at a moment when every patch
      issued so far had settled, with the outcome of the last of them. */
  lemma {:induction false} WaitReturnsSettled(content: History, events: seq<Event>, i: nat) returns (k: nat)
    requires i < |Run(content, events).waiters| && Run(content, events).waiters[i].Returned?
    ensures k < |events| && events[k] == WaitResumes(i)
    ensures var c, w := Run(content, events[..k]).client, Run(content, events).waiters[i];
      Idle(c) && w.patches == |c.saves| && w.succeeded == Succeeded(c, |c.saves|)
    decreases |events|
  {
    hide Inv;
    var n := |events| - 1;
    var before, e := Run(content, events[..n]), events[n];
    assert Run(content, events) == Step(before, e);
    if e == WaitResumes(i) && MayResume(before, i) {
      SettledWithin(before);
      k := n;
    } else {
      WaiterUntouched(before, e, i);
      k := WaitReturnsSettled(content, events[..n], i);
      assert events[..n][..k] == events[..k];
    }
  }

  lemma SettledWithin(s: System)
    requires Inv(s)
    ensures |s.client.outcomes| <= |s.client.saves|
  {
  }

  lemma WaiterUntouched(s: System, e: Event, i: nat)
    requires s.contents != [] && i < |Step(s, e).waiters|
    requires !(e == WaitResumes(i) && MayResume(s, i))
    ensures if i < |s.waiters| then Step(s, e).waiters[i] == s.waiters[i]
      else Step(s, e).waiters[i] == Awaiting(|Step(s, e).client.saves|)
  {
  }

  /** Each further turn of the loop awaits a strictly newer tail, the newest there is. */
  lemma WaitAdvances(s: System, i: nat)
    requires Inv(s) && MayResume(s, i) && Step(s, WaitResumes(i)).waiters[i].Awaiting?
    ensures s.waiters[i].tail < Step(s, WaitResumes(i)).waiters[i].tail == |s.client.saves|
  {
    SettledWithin(s);
  }

  ghost predicate NoPatch(events: seq<Event>) {
    forall e :: e in events ==> !e.PatchCalled?
  }

  lemma OnlyPatchesSave(s: System, e: Event)
    requires s.contents != [] && !e.PatchCalled?
    ensures Step(s, e).client.saves == s.client.saves
  {
  }

  /** Waiting for the newest save, or back after it. */
  ghost predicate UpToDate(s: System, i: nat) {
    && i < |s.waiters|
    && match s.waiters[i]
       case Awaiting(tail) => tail == |s.client.saves|
       case Returned(_, patches) => patches == |s.client.saves|
  }

  lemma StaysUpToDate(s: System, e: Event, i: nat)
    requires Inv(s) && UpToDate(s, i) && !e.PatchCalled?
    ensures UpToDate(Step(s, e), i)
    ensures e == WaitResumes(i) && MayResume(s, i) ==> Step(s, e).waiters[i].Returned?
  {
    SettledWithin(s);
    OnlyPatchesSave(s, e);
    hide Inv;
    if !(e == WaitResumes(i) && MayResume(s, i)) {
      WaitersKept(s, e);
      WaiterUntouched(s, e, i);
    }
  }

  lemma WaitersKept(s: System, e: Event)
    requires s.contents != []
    ensures |s.waiters| <= |Step(s, e).waiters|
  {
  }

  lemma RunAppend(content: History, a: seq<Event>, e: Event)
    ensures Run(content, a + [e]) == Step(Run(content, a), e)
  {
    hide Step, Inv;
    assert (a + [e])[..|a|] == a;
  }

  /** Waiting ends once patches stop: of a waiter that took a turn, the next turn
      returns, whatever else happened in between. */
  lemma {:induction false} NextTurnReturns(content: History, events: seq<Event>, i: nat, more: seq<Event>)
    requires MayResume(Run(content, events), i) && NoPatch(more)
    ensures var s := Run(content, events + [WaitResumes(i)] + more);
      UpToDate(s, i) && (MayResume(s, i) ==> Step(s, WaitResumes(i)).waiters[i].Returned?)
    decreases |more|
  {
    hide Run, Inv, Step;
    var s := Run(content, events + [WaitResumes(i)] + more);
    if more == [] {
      assert events + [WaitResumes(i)] + more == events + [WaitResumes(i)];
      RunAppend(content, events, WaitResumes(i));
      TurnIsUpToDate(Run(content, events), i);
    } else {
      var n := |more| - 1;
      assert more[n] in more && forall e :: e in more[..n] ==> e in more;
      NextTurnReturns(content, events, i, more[..n]);
      assert events + [WaitResumes(i)] + more == events + [WaitResumes(i)] + more[..n] + [more[n]];
      RunAppend(content, events + [WaitResumes(i)] + more[..n], more[n]);
      StaysUpToDate(Run(content, events + [WaitResumes(i)] + more[..n]), more[n], i);
    }
    StaysUpToDate(s, WaitResumes(i), i);
  }

  lemma TurnIsUpToDate(s: System, i: nat)
    requires Inv(s) && MayResume(s, i)
    ensures UpToDate(Step(s, WaitResumes(i)), i)
  {
    SettledWithin(s);
    hide Inv;
  }

  /** No waiter is stuck as long as saves settle: without any further patch some
      schedule settles the queue and brings it back. */
  lemma {:induction false} EveryWaitCanEnd(content: History, events: seq<Event>, i: nat) returns (more: seq<Event>)
    requires i < |Run(content, events).waiters|
    ensures NoPatch(more) && i < |Run(content, events + more).waiters| && Run(content, events + more).waiters[i].Returned?
    decreases |Run(content, events).client.saves| - |Run(content, events).client.outcomes|
  {
    hide Inv, Run, Step;
    var s := Run(content, events);
    SettledWithin(s);
    if s.waiters[i].Returned? {
      more := [];
      assert events + more == events;
    } else if Idle(s.client) {
      more := IdleWaitEnds(content, events, i);
    } else {
      var first := if s.client.running then [SaveFails] else [SaveStarts, SaveFails];
      HeadSettles(content, events, first);
      var rest := EveryWaitCanEnd(content, events + first, i);
      more := first + rest;
      assert events + more == events + first + rest;
    }
  }

  lemma IdleWaitEnds(content: History, events: seq<Event>, i: nat) returns (more: seq<Event>)
    requires i < |Run(content, events).waiters| && Run(content, events).waiters[i].Awaiting?
    requires Idle(Run(content, events).client)
    ensures NoPatch(more) && i < |Run(content, events + more).waiters| && Run(content, events + more).waiters[i].Returned?
  {
    hide Inv, Run;
    var s := Run(content, events);
    var e := WaitResumes(i);
    TailsKnown(content, events, i);
    RunAppend(content, events, e);
    more := [e];
    if Step(s, e).waiters[i].Awaiting? {
      WaitAdvances(s, i);
      RunAppend(content, events + [e], e);
      more := [e, e];
      assert events + more == events + [e] + [e];
    }
  }

  lemma HeadFails(s: System)
    requires s.contents != [] && s.client.running
    ensures var t := Step(s, SaveFails);
      t.waiters == s.waiters && t.client.saves == s.client.saves && |t.client.outcomes| == |s.client.outcomes| + 1
  {
  }

  lemma HeadStarts(s: System)
    requires Inv(s) && s.contents != [] && !s.client.running && !Idle(s.client)
    ensures var t := Step(s, SaveStarts);
      t.waiters == s.waiters && t.client == s.client.(running := true) && t.contents == s.contents
  {
    SettledWithin(s);
    hide Inv;
  }

  lemma HeadSettles(content: History, events: seq<Event>, first: seq<Event>)
    requires !Idle(Run(content, events).client)
    requires first == if Run(content, events).client.running then [SaveFails] else [SaveStarts, SaveFails]
    ensures var s, t := Run(content, events), Run(content, events + first);
      t.waiters == s.waiters && t.client.saves == s.client.saves && |t.client.outcomes| == |s.client.outcomes| + 1
  {
    hide Inv, Run, Step, Idle;
    var s := Run(content, events);
    if s.client.running {
      RunAppend(content, events, SaveFails);
      HeadFails(s);
    } else {
      HeadStarts(s);
      HeadFails(Step(s, SaveStarts));
      RunAppend(content, events, SaveStarts);
      RunAppend(content, events + [SaveStarts], SaveFails);
      assert events + first == events + [SaveStarts] + [SaveFails];
    }
  }

  /** No waiter awaits a save that was never issued. */
  lemma {:induction false} TailsKnown(content: History, events: seq<Event>, i: nat)
    requires i < |Run(content, events).waiters| && Run(content, events).waiters[i].Awaiting?
    ensures Run(content, events).waiters[i].tail <= |Run(content, events).client.saves|
  {
    hide Inv;
    var n := |events| - 1;
    var before, e := Run(content, events[..n]), events[n];
    SavesGrow(before, e);
    if !(e == WaitResumes(i) && MayResume(before, i)) {
      WaiterUntouched(before, e, i);
      if i < |before.waiters| {
        TailsKnown(content, events[..n], i);
      }
    }
  }

  lemma SavesGrow(s: System, e: Event)
    requires s.contents != []
    ensures |s.client.saves| <= |Step(s, e).client.saves|
  {
  }

  // ----- the refs as mutable fields -----

  lemma SavedStep(s: System, revision: nat, snapshot: History)
    requires Inv(s) && s.client.running && |s.client.outcomes| in s.commits && s.commits[|s.client.outcomes|] == revision
    requires revision < |s.contents| && s.contents[revision] == snapshot
    ensures var c := s.client;
      && |c.outcomes| < |c.saves| && snapshot == c.saves[|c.outcomes|]
      && (|c.outcomes| + 1 == |c.saves| ==> snapshot == c.settings)
      && Extends(s.contents[Current(s)], snapshot)
      && Step(s, SaveSucceeds) == s.(client := c.(outcomes := c.outcomes + [true], running := false,
        revision := Some(revision), settings := if |c.outcomes| + 1 == |c.saves| then snapshot else c.settings))
  {
  }

  /** The refs within a run: `trace` also holds what happened around them. */
  class SettingsRefs {
    ghost const content: History
    ghost var trace: seq<Event>

    var settings: History
    var revision: Option<nat>
    var saves: seq<History>
    var outcomes: seq<bool>
    var running: bool
    var loadSequence: nat

    function State(): Client
      reads this
    {
      Client(settings, revision, saves, outcomes, running, loadSequence)
    }

    ghost function World(): (s: System)
      reads this
      ensures Inv(s) && s.contents != []
    {
      Run(content, trace)
    }

    ghost predicate Valid()
      reads this
    {
      State() == World().client
    }

    constructor (ghost content: History)
      ensures Valid() && trace == [] && this.content == content
    {
      this.content, trace := content, [];
      settings, revision, saves, outcomes := [], None, [], [];
      running, loadSequence := false, 0;
    }

    /** Something happens that does not touch the refs: on the network, at the server,
        in another window, or in a call between two awaits. */
    ghost method Elapse(e: Event)
      requires Valid() && Step(World(), e).client == World().client
      modifies this`trace
      ensures Valid() && trace == old(trace) + [e] && World() == Step(old(World()), e)
    {
      hide Run, Inv, Step;
      RunAppend(content, trace, e);
      trace := trace + [e];
    }

    /** The shown settings get the mutation, they are what the new save will send, and
        they still extend the revision the refs hold. */
    method Patch(mutation: nat)
      requires Valid()
      modifies this
      ensures Valid() && trace == old(trace) + [PatchCalled(mutation)]
      ensures settings == old(settings) + [mutation] && saves == old(saves) + [settings]
      ensures revision == old(revision)
      ensures BaseSafe(World()) && revision == World().client.revision && settings == World().client.settings
      ensures !Idle(State()) && forall l :: l in World().loads ==> !MayInstall(State(), l)
    {
      hide Run;
      RunAppend(content, trace, PatchCalled(mutation));
      ghost var was := World();
      trace := trace + [PatchCalled(mutation)];
      var next := settings + [mutation];
      settings := next;
      loadSequence := loadSequence + 1;
      saves := saves + [next];
      PatchStales(was, mutation);
    }

    /** The head of the queue sends its content against the revision the refs hold; what
        it sends extends what that revision holds. */
    method StartSave() returns (request: Request)
      requires Valid() && !running && |outcomes| < |saves|
      modifies this
      ensures Valid() && trace == old(trace) + [SaveStarts]
      ensures request == Request(Save(|outcomes|), saves[|outcomes|], revision) && request in World().network
      ensures RequestSafe(World(), request)
      ensures settings == old(settings) && saves == old(saves) && outcomes == old(outcomes) && revision == old(revision)
    {
      hide Run;
      RunAppend(content, trace, SaveStarts);
      trace := trace + [SaveStarts];
      request := Request(Save(|outcomes|), saves[|outcomes|], revision);
      running := true;
      assert World().network[|World().network| - 1] == request;
      assert RequestSafe(World(), request);
    }

    /** The snapshot of an accepted save is what was sent, so the shown settings do not
        change, and the server keeps it ever after. */
    method SaveResolved(revision': nat, snapshot: History)
      requires Valid() && running && |outcomes| in World().commits && World().commits[|outcomes|] == revision'
      requires revision' < |World().contents| && World().contents[revision'] == snapshot
      modifies this
      ensures Valid() && trace == old(trace) + [SaveSucceeds]
      ensures outcomes == old(outcomes) + [true] && saves == old(saves) && revision == Some(revision')
      ensures settings == old(settings) && |outcomes| <= |saves| && snapshot == saves[|outcomes| - 1]
      ensures Extends(World().contents[Current(World())], snapshot)
    {
      hide Run, Inv, Step;
      RunAppend(content, trace, SaveSucceeds);
      SavedStep(World(), revision', snapshot);
      trace := trace + [SaveSucceeds];
      revision := Some(revision');
      if |outcomes| + 1 == |saves| {
        settings := snapshot;
      }
      outcomes := outcomes + [true];
      running := false;
    }

    /** A failed save leaves settings, revision and the rest of the queue as they were. */
    method SaveRejected()
      requires Valid() && running
      modifies this
      ensures Valid() && trace == old(trace) + [SaveFails]
      ensures outcomes == old(outcomes) + [false] && |outcomes| <= |saves|
      ensures settings == old(settings) && saves == old(saves) && revision == old(revision)
    {
      hide Run;
      RunAppend(content, trace, SaveFails);
      assert Inv(World());
      trace := trace + [SaveFails];
      outcomes := outcomes + [false];
      running := false;
    }

    /** A load that begins outdates every earlier one. */
    method BeginLoad() returns (l: Load)
      requires Valid()
      modifies this
      ensures Valid() && trace == old(trace) + [LoadBegins]
      ensures World().loads == old(World().loads) + [l] && l.Waiting? && l.awaited == |saves|
      ensures forall j :: 0 <= j < |old(World().loads)| ==> World().loads[j].sequence < l.sequence
      ensures settings == old(settings) && revision == old(revision) && saves == old(saves) && outcomes == old(outcomes)
    {
      hide Run;
      RunAppend(content, trace, LoadBegins);
      ghost var was := World();
      forall j | 0 <= j < |was.loads| ensures was.loads[j].sequence <= was.client.loadSequence {
        assert LoadSafe(was, was.loads[j]);
      }
      trace := trace + [LoadBegins];
      loadSequence := loadSequence + 1;
      l := Waiting(loadSequence, |saves|);
    }

    /** A load installs its snapshot only with nothing queued, and the snapshot extends
        what was shown; otherwise nothing changes. */
    method FinishLoad(l: Load, ghost i: nat) returns (installed: bool)
      requires Valid() && l.Fetched? && i < |World().loads| && World().loads[i] == l
      modifies this
      ensures Valid() && trace == old(trace) + [LoadEnds(i)]
      ensures forall before, middle ::
        old(trace) == before + [LoadBegins] + middle && l.sequence == Run(content, before + [LoadBegins]).client.loadSequence ==>
          (installed <==> Undisturbed(middle))
      ensures installed ==> Idle(State()) && !running && l.awaited == |saves|
      ensures installed ==> Extends(settings, old(settings)) && revision == Some(l.revision) && settings == l.content
      ensures !installed ==> State() == old(State())
      ensures saves == old(saves) && outcomes == old(outcomes)
    {
      hide Run, Undisturbed;
      RunAppend(content, trace, LoadEnds(i));
      ghost var was := World();
      trace := trace + [LoadEnds(i)];
      installed := l.sequence == loadSequence && l.mutations == |saves|;
      forall before, middle |
        was == Run(content, before + [LoadBegins] + middle) && l.sequence == Run(content, before + [LoadBegins]).client.loadSequence
        ensures installed <==> Undisturbed(middle)
      {
        MayInstallExactly(content, before, middle, i);
      }
      if installed {
        ReloadInstallsSafely(was, i);
        revision := Some(l.revision);
        settings := l.content;
      }
    }

    /** One turn of `waitForSettingsSave`: back with the outcome of the last patch once
        all of them settled, else on to a strictly newer tail. */
    method ResumeWait(awaited: nat, ghost i: nat) returns (w: Wait)
      requires Valid() && i < |World().waiters| && World().waiters[i] == Awaiting(awaited) && awaited <= |outcomes|
      modifies this`trace
      ensures Valid() && trace == old(trace) + [WaitResumes(i)]
      ensures w.Return? ==> Idle(State()) && (w.succeeded <==> |saves| == 0 || outcomes[|saves| - 1])
      ensures w.Await? ==> awaited < w.tail == |saves|
      ensures World().waiters == old(World().waiters)[
        i := if w.Return? then Returned(w.succeeded, |saves|) else Awaiting(w.tail)]
    {
      hide Run;
      RunAppend(content, trace, WaitResumes(i));
      SettledWithin(World());
      trace := trace + [WaitResumes(i)];
      if awaited == |saves| {
        w := Return(awaited == 0 || outcomes[awaited - 1]);
      } else {
        w := Await(|saves|);
      }
    }
  }

  lemma PatchStales(s: System, mutation: nat)
    requires Inv(s)
    ensures var s' := Step(s, PatchCalled(mutation));
      forall l :: l in s'.loads ==> !MayInstall(s'.client, l)
  {
    forall l | l in s.loads ensures l.sequence <= s.client.loadSequence {
      var i :| 0 <= i < |s.loads| && s.loads[i] == l;
      assert LoadSafe(s, s.loads[i]);
    }
  }
}
