/** The streaming transports of src/aiApi.ts: one native request with its event
    channel, its abort signal and its settlement. The provider transport and the
    local agent transport differ in the availability check only. */
module StreamTransport {
  import opened Text

  datatype Outcome = Rejected(reason: string) | NoContent | Body(content: string)

  /** A channel message (`Malformed` is any message that is neither), the abort of
      the caller's signal, or the settlement of the native command. */
  datatype Event = Delta(content: string) | Done | Malformed | Abort | Settle(outcome: Outcome)

  datatype Failure = Unavailable | Aborted | StreamEventInvalid | StreamResponseInvalid | Native(reason: string)

  datatype Result = Pending | Resolved(content: string) | Failed(failure: Failure)

  /** `attached`: the channel still calls the handler; `listening`: the signal still
      calls `cancel`. The last three fields are what the outside has seen. */
  datatype State = State(
    aborted: bool, settled: bool, cancelSent: bool, accepting: bool, sawDone: bool, failed: bool, streamed: string,
    attached: bool, listening: bool,
    delivered: seq<string>, cancels: nat, result: Result)

  // ----- the handlers -----

  function Started(available: bool, aborted: bool): State {
    var waiting := available && !aborted;
    State(aborted, !waiting, false, waiting, false, false, "", waiting, waiting, [], 0,
          if !available then Failed(Unavailable) else if aborted then Failed(Aborted) else Pending)
  }

  function Cancelled(s: State): State {
    var quiet := s.(accepting := false, attached := false);
    if s.settled || s.cancelSent then quiet else quiet.(cancelSent := true, cancels := s.cancels + 1)
  }

  function Received(s: State, e: Event): State
    requires e.Delta? || e.Done? || e.Malformed?
  {
    if !s.attached || !s.accepting || s.aborted || s.sawDone || s.failed then s
    else if e.Done? then s.(sawDone := true)
    else if e.Malformed? then Cancelled(s.(failed := true))
    else if e.content == "" then s
    else s.(streamed := s.streamed + e.content, delivered := s.delivered + [e.content])
  }

  function AbortFired(s: State): State {
    if s.aborted then s
    else if s.listening then Cancelled(s.(aborted := true, listening := false))
    else s.(aborted := true)
  }

  function Answer(s: State, o: Outcome): Result {
    if o.Rejected? then Failed(Native(o.reason))
    else if s.failed then Failed(StreamEventInvalid)
    else if s.aborted then Failed(Aborted)
    else if o.NoContent? then Failed(StreamResponseInvalid)
    else Resolved(if o.content != "" then o.content else s.streamed)
  }

  function Settled(s: State, o: Outcome): State {
    if s.settled then s
    else s.(result := Answer(s, o), settled := true, accepting := false, attached := false, listening := false)
  }

  function Step(s: State, e: Event): State {
    match e
    case Abort => AbortFired(s)
    case Settle(o) => Settled(s, o)
    case _ => Received(s, e)
  }

  function Run(s: State, events: seq<Event>): State {
    if events == [] then s
    else Step(Run(s, events[..|events| - 1]), events[|events| - 1])
  }

  // ----- what a trace promises -----

  /** The first event that is not a delta. */
  function FirstEnd(events: seq<Event>): Option<Event> {
    if events == [] then None
    else
      var n := |events| - 1;
      var earlier := FirstEnd(events[..n]);
      if earlier.Some? then earlier else if events[n].Delta? then None else Some(events[n])
  }

  /** The non-empty deltas before any other event. */
  function Heard(events: seq<Event>): seq<string> {
    if events == [] then []
    else
      var n := |events| - 1;
      var e := events[n];
      var more := FirstEnd(events[..n]).None? && e.Delta? && e.content != "";
      Heard(events[..n]) + if more then [e.content] else []
  }

  function Concat(parts: seq<string>): string {
    if parts == [] then "" else Concat(parts[..|parts| - 1]) + parts[|parts| - 1]
  }

  predicate Broken(events: seq<Event>) {
    FirstEnd(events) == Some(Malformed)
  }

  ghost predicate NotSettled(events: seq<Event>) {
    forall e :: e in events ==> !e.Settle?
  }

  /** How a request whose native command settles with `o` after these events ends. */
  function Verdict(events: seq<Event>, o: Outcome): Result {
    if o.Rejected? then Failed(Native(o.reason))
    else if Broken(events) then Failed(StreamEventInvalid)
    else if Abort in events then Failed(Aborted)
    else if o.NoContent? then Failed(StreamResponseInvalid)
    else Resolved(if o.content != "" then o.content else Concat(Heard(events)))
  }

  lemma ConcatPushed(parts: seq<string>, last: string)
    ensures Concat(parts + [last]) == Concat(parts) + last
  {
    assert (parts + [last])[..|parts|] == parts;
  }

  ghost predicate Agrees(s: State, events: seq<Event>) {
    && !s.settled && s.result == Pending
    && s.failed == Broken(events) && s.aborted == (Abort in events)
    && s.delivered == Heard(events) && s.streamed == Concat(s.delivered)
    && s.cancelSent == (s.failed || s.aborted) && s.cancels == (if s.cancelSent then 1 else 0)
    && (s.attached <==> s.accepting) && (s.accepting <==> !s.cancelSent) && s.listening == !s.aborted
    && (FirstEnd(events).None? <==> s.accepting && !s.sawDone)
  }

  lemma TracePushed(events: seq<Event>, e: Event)
    ensures FirstEnd(events + [e])
      == if FirstEnd(events).Some? then FirstEnd(events) else if e.Delta? then None else Some(e)
    ensures Heard(events + [e])
      == if FirstEnd(events).None? && e.Delta? && e.content != "" then Heard(events) + [e.content] else Heard(events)
    ensures Abort in events + [e] <==> Abort in events || e == Abort
  {
    assert (events + [e])[..|events|] == events;
  }

  lemma AgreesStep(s: State, events: seq<Event>, e: Event)
    requires Agrees(s, events) && !e.Settle?
    ensures Agrees(Step(s, e), events + [e])
  {
    TracePushed(events, e);
    hide FirstEnd, Heard, Concat;
    if e.Delta? {
      ConcatPushed(s.delivered, e.content);
    }
  }

  lemma {:induction false} BeforeSettlement(events: seq<Event>)
    requires NotSettled(events)
    ensures Agrees(Run(Started(true, false), events), events)
  {
    if events != [] {
      var n := |events| - 1;
      assert events == events[..n] + [events[n]] && events[n] in events;
      BeforeSettlement(events[..n]);
      AgreesStep(Run(Started(true, false), events[..n]), events[..n], events[n]);
    }
  }

  /** Once settled, nothing is cancelled, delivered or answered again. */
  lemma {:induction false} SettledIsFinal(s: State, events: seq<Event>)
    requires s.settled && !s.attached && !s.listening
    ensures Run(s, events) == s.(aborted := Run(s, events).aborted)
  {
    if events != [] {
      SettledIsFinal(s, events[..|events| - 1]);
    }
  }

  lemma {:induction false} RunConcat(s: State, a: seq<Event>, b: seq<Event>)
    ensures Run(s, a + b) == Run(Run(s, a), b)
  {
    hide Step;
    if b == [] {
      assert a + b == a;
    } else {
      var n := |b| - 1;
      RunConcat(s, a, b[..n]);
      assert (a + b)[..|a| + n] == a + b[..n];
    }
  }

  /** Whatever happens around it, a request delivers the deltas that precede every
      other event, sends one cancel command exactly when it was aborted or broken
      before it settled, and ends as its trace up to the settlement says. */
  lemma EveryRun(before: seq<Event>, o: Outcome, after: seq<Event>)
    requires NotSettled(before)
    ensures var s := Run(Started(true, false), before + [Settle(o)] + after);
      && s.result == Verdict(before, o)
      && s.delivered == Heard(before)
      && s.cancels == if Broken(before) || Abort in before then 1 else 0
  {
    hide Run, FirstEnd, Heard, Concat;
    BeforeSettlement(before);
    AnswerIsVerdict(Run(Started(true, false), before), before, o);
    SettledAfter(before, o, after);
  }

  /** After the settlement of a pending request only the signal's flag still moves. */
  lemma SettledAfter(before: seq<Event>, o: Outcome, after: seq<Event>)
    requires NotSettled(before)
    ensures var s := Run(Started(true, false), before + [Settle(o)] + after);
      s == Settled(Run(Started(true, false), before), o).(aborted := s.aborted)
  {
    hide FirstEnd, Heard, Concat, Settled;
    var mid := Run(Started(true, false), before);
    BeforeSettlement(before);
    RunConcat(Started(true, false), before + [Settle(o)], after);
    RunConcat(Started(true, false), before, [Settle(o)]);
    assert [Settle(o)][..0] == [];
    assert Settled(mid, o).settled && !Settled(mid, o).attached && !Settled(mid, o).listening by {
      SettledFlags(mid, before, o);
    }
    SettledIsFinal(Settled(mid, o), after);
  }

  lemma SettledFlags(s: State, before: seq<Event>, o: Outcome)
    requires Agrees(s, before)
    ensures var t := Settled(s, o); t.settled && !t.attached && !t.listening && t.result != Pending
  {
    hide FirstEnd, Heard, Concat;
  }

  lemma {:induction false} SplitAtSettlement(events: seq<Event>) returns (before: seq<Event>, rest: seq<Event>)
    ensures events == before + rest && NotSettled(before) && (rest == [] || rest[0].Settle?)
  {
    if events == [] || events[0].Settle? {
      before, rest := [], events;
    } else {
      before, rest := SplitAtSettlement(events[1..]);
      before := [events[0]] + before;
    }
  }

  /** Over every interleaving at most one cancel command is sent. */
  lemma AtMostOneCancel(available: bool, aborted: bool, events: seq<Event>)
    ensures Run(Started(available, aborted), events).cancels <= 1
  {
    if !available || aborted {
      SettledIsFinal(Started(available, aborted), events);
    } else {
      var before, rest := SplitAtSettlement(events);
      if rest == [] {
        assert events == before;
        BeforeSettlement(events);
      } else {
        EveryRun(before, rest[0].outcome, rest[1..]);
        assert before + [Settle(rest[0].outcome)] + rest[1..] == events;
      }
    }
  }

  /** A request that cannot start or is aborted from the start sends nothing,
      delivers nothing and has its answer. */
  lemma NeverStarted(available: bool, aborted: bool, events: seq<Event>)
    requires !available || aborted
    ensures var s := Run(Started(available, aborted), events);
      && s.delivered == [] && s.cancels == 0
      && s.result == Failed(if available then Aborted else Unavailable)
  {
    SettledIsFinal(Started(available, aborted), events);
  }

  /** No delta is delivered after a done or malformed message, an abort or the
      settlement. */
  lemma {:induction false} SilentAfterEnd(events: seq<Event>, more: seq<Event>)
    requires exists e :: e in events && !e.Delta?
    ensures Run(Started(true, false), events + more).delivered == Run(Started(true, false), events).delivered
  {
    RunConcat(Started(true, false), events, more);
    EndIsQuiet(events);
    QuietStays(Run(Started(true, false), events), more);
  }

  predicate Quiet(s: State) {
    !s.attached || !s.accepting || s.aborted || s.sawDone || s.failed
  }

  lemma {:induction false} QuietStays(s: State, events: seq<Event>)
    requires Quiet(s)
    ensures Quiet(Run(s, events)) && Run(s, events).delivered == s.delivered
  {
    hide Quiet, Step;
    if events != [] {
      QuietStays(s, events[..|events| - 1]);
      QuietStep(Run(s, events[..|events| - 1]), events[|events| - 1]);
    }
  }

  lemma QuietStep(s: State, e: Event)
    requires Quiet(s)
    ensures Quiet(Step(s, e)) && Step(s, e).delivered == s.delivered
  {
  }

  lemma {:induction false} SettledIsQuiet(events: seq<Event>)
    ensures Run(Started(true, false), events).settled ==> Quiet(Run(Started(true, false), events))
  {
    if events != [] {
      SettledIsQuiet(events[..|events| - 1]);
    }
  }

  lemma {:induction false} EndIsQuiet(events: seq<Event>)
    requires exists e :: e in events && !e.Delta?
    ensures Quiet(Run(Started(true, false), events))
  {
    var e :| e in events && !e.Delta?;
    var i :| 0 <= i < |events| && events[i] == e;
    var s := Run(Started(true, false), events[..i]);
    assert events[..i + 1][..i] == events[..i];
    SettledIsQuiet(events[..i]);
    assert Quiet(Step(s, e));
    RunConcat(Started(true, false), events[..i + 1], events[i + 1..]);
    assert events[..i + 1] + events[i + 1..] == events;
    QuietStays(Step(s, e), events[i + 1..]);
  }

  // ----- the transport as an object -----

  lemma HeardStays(events: seq<Event>, more: seq<Event>)
    requires FirstEnd(events).Some?
    ensures Heard(events + more) == Heard(events) && FirstEnd(events + more) == FirstEnd(events)
    decreases |more|
  {
    if more == [] {
      assert events + more == events;
    } else {
      var n := |more| - 1;
      HeardStays(events, more[..n]);
      assert events + more == events + more[..n] + [more[n]];
      TracePushed(events + more[..n], more[n]);
    }
  }

  ghost predicate Stands(available: bool, aborted: bool, events: seq<Event>, s: State) {
    && s.cancels <= 1
    && (s.result == Pending ==> available && !aborted && Agrees(s, events))
    && (s.result != Pending ==> s.settled && !s.attached && !s.listening)
    && (available && !aborted ==> s.delivered == Heard(events))
  }

  /** Where a request stands after any events: while it is pending its trace tells
      everything, and what was delivered is what was heard before anything ended it. */
  lemma Standing(available: bool, aborted: bool, events: seq<Event>)
    ensures Stands(available, aborted, events, Run(Started(available, aborted), events))
  {
    hide Run, Heard, Agrees, Stands, NotSettled;
    if !available || aborted {
      NotStartedStands(available, aborted, events);
    } else {
      var before, rest := SplitAtSettlement(events);
      if rest == [] {
        assert events == before;
        PendingStands(events);
      } else {
        assert before + [rest[0]] + rest[1..] == events;
        SettledStands(before, rest[0].outcome, rest[1..]);
      }
    }
  }

  lemma NotStartedStands(available: bool, aborted: bool, events: seq<Event>)
    requires !available || aborted
    ensures Stands(available, aborted, events, Run(Started(available, aborted), events))
  {
    SettledIsFinal(Started(available, aborted), events);
    hide Run, Heard, Agrees;
  }

  lemma PendingStands(events: seq<Event>)
    requires NotSettled(events)
    ensures Stands(true, false, events, Run(Started(true, false), events))
  {
    BeforeSettlement(events);
    hide Run, Heard, Broken, Concat, FirstEnd;
  }

  lemma SettledStands(before: seq<Event>, o: Outcome, after: seq<Event>)
    requires NotSettled(before)
    ensures var events := before + [Settle(o)] + after;
      Stands(true, false, events, Run(Started(true, false), events))
  {
    hide Run, Heard, Agrees, NotSettled, Started, FirstEnd, Verdict;
    EveryRun(before, o, after);
    TracePushed(before, Settle(o));
    HeardStays(before + [Settle(o)], after);
    SettledRun(before, o, after);
  }

  lemma SettledRun(before: seq<Event>, o: Outcome, after: seq<Event>)
    requires NotSettled(before)
    ensures var s := Run(Started(true, false), before + [Settle(o)] + after);
      s.settled && !s.attached && !s.listening && s.result != Pending
  {
    hide Run, Settled, Agrees;
    BeforeSettlement(before);
    SettledAfter(before, o, after);
    SettledFlags(Run(Started(true, false), before), before, o);
  }

  /** The answer the flags give is the one the trace demands. */
  lemma AnswerIsVerdict(s: State, events: seq<Event>, o: Outcome)
    requires Agrees(s, events)
    ensures !s.settled && Answer(s, o) == Verdict(events, o)
  {
    hide Run, Heard, Concat, FirstEnd;
  }

  class Transport {
    ghost const available: bool
    ghost const abortedAtStart: bool
    /** Everything that happened so far. */
    ghost var trace: seq<Event>

    var aborted: bool
    var settled: bool
    var cancelSent: bool
    var acceptingEvents: bool
    var sawDone: bool
    var streamError: bool
    var streamedContent: string
    var attached: bool
    var listening: bool
    var delivered: seq<string>
    var cancels: nat
    var result: Result

    function Now(): State
      reads this
    {
      State(aborted, settled, cancelSent, acceptingEvents, sawDone, streamError, streamedContent,
            attached, listening, delivered, cancels, result)
    }

    ghost predicate Valid()
      reads this
    {
      Now() == Run(Started(available, abortedAtStart), trace)
    }

    constructor (available: bool, signalAborted: bool)
      ensures Valid() && trace == [] && this.available == available && abortedAtStart == signalAborted
      ensures result == if !available then Failed(Unavailable) else if signalAborted then Failed(Aborted) else Pending
    {
      var waiting := available && !signalAborted;
      this.available, abortedAtStart, trace := available, signalAborted, [];
      aborted, settled, cancelSent, acceptingEvents := signalAborted, !waiting, false, waiting;
      sawDone, streamError, streamedContent := false, false, "";
      attached, listening := waiting, waiting;
      delivered, cancels := [], 0;
      result := if !available then Failed(Unavailable) else if signalAborted then Failed(Aborted) else Pending;
    }

    /** The closure `cancel`. */
    method Cancel()
      modifies this
      ensures Now() == Cancelled(old(Now())) && trace == old(trace)
    {
      acceptingEvents := false;
      attached := false;
      if settled || cancelSent {
        return;
      }
      cancelSent := true;
      cancels := cancels + 1;
    }

    /** A channel message: the deltas delivered are always those heard before any
        other event, and only a malformed message can send a cancel. */
    method OnMessage(e: Event)
      requires Valid() && (e.Delta? || e.Done? || e.Malformed?)
      modifies this
      ensures Valid() && trace == old(trace) + [e]
      ensures available && !abortedAtStart ==> delivered == Heard(trace)
      ensures result == old(result)
      ensures cancels == old(cancels) || (e.Malformed? && cancels == 1)
    {
      hide Run, Heard, Concat, FirstEnd;
      Standing(available, abortedAtStart, trace);
      ghost var was := Now();
      if attached && acceptingEvents && !aborted && !sawDone && !streamError {
        if e.Done? {
          sawDone := true;
        } else if e.Malformed? {
          streamError := true;
          Cancel();
        } else if e.content != "" {
          streamedContent := streamedContent + e.content;
          delivered := delivered + [e.content];
        }
      }
      assert Now() == Step(was, e);
      Happened(e);
    }

    /** An abort of the signal sends one cancel while the answer is pending, none
        after it, and neither delivers nor answers. */
    method OnAbort()
      requires Valid()
      modifies this
      ensures Valid() && trace == old(trace) + [Abort]
      ensures old(result) == Pending ==> cancels == 1
      ensures old(result) != Pending ==> cancels == old(cancels)
      ensures delivered == old(delivered) && result == old(result)
    {
      hide Run, Heard, Concat, FirstEnd;
      Standing(available, abortedAtStart, trace);
      ghost var was := Now();
      if !aborted {
        aborted := true;
        if listening {
          listening := false;
          Cancel();
        }
      }
      assert Now() == Step(was, Abort);
      Happened(Abort);
    }

    /** The settlement answers a pending request as its trace says, and nothing else. */
    method OnSettled(o: Outcome)
      requires Valid()
      modifies this
      ensures Valid() && trace == old(trace) + [Settle(o)]
      ensures result == if old(result) == Pending then Verdict(old(trace), o) else old(result)
      ensures delivered == old(delivered) && cancels == old(cancels)
    {
      hide Run, Heard, Concat, FirstEnd, Agrees, Verdict, Started, Answer;
      Standing(available, abortedAtStart, trace);
      ghost var was := Now();
      if result == Pending {
        AnswerIsVerdict(was, trace, o);
      }
      if !settled {
        var answer := Answered(o);
        result, settled, acceptingEvents, attached, listening := answer, true, false, false, false;
      }
      assert Now() == Step(was, Settle(o));
      Happened(Settle(o));
    }

    /** What the handlers of the native command answer. */
    method Answered(o: Outcome) returns (answer: Result)
      ensures answer == Answer(Now(), o)
    {
      if o.Rejected? {
        answer := Failed(Native(o.reason));
      } else if streamError {
        answer := Failed(StreamEventInvalid);
      } else if aborted {
        answer := Failed(Aborted);
      } else if o.NoContent? {
        answer := Failed(StreamResponseInvalid);
      } else {
        answer := Resolved(if o.content != "" then o.content else streamedContent);
      }
    }

    ghost method Happened(e: Event)
      requires Now() == Step(Run(Started(available, abortedAtStart), trace), e)
      modifies this`trace
      ensures Valid() && trace == old(trace) + [e]
      ensures available && !abortedAtStart ==> delivered == Heard(trace)
    {
      assert (trace + [e])[..|trace|] == trace;
      trace := trace + [e];
      Standing(available, abortedAtStart, trace);
    }
  }
}
