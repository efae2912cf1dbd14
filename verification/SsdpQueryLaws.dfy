/** What holds over every run of the SSDP query. */
module SsdpQueryLaws {
  import opened Options
  import opened Executor
  import opened SsdpMessage
  import opened SsdpQuery
  import Scan

  // ----- Which datagrams are heard -----

  /** After such an event no datagram is read any more. */
  predicate Ends(e: Event) {
    e.TimerFires? || e.Stop? || (e.Received? && e.r.Failed?)
  }

  /** The datagrams received before the first such event, in order. */
  function Heard(events: seq<Event>): seq<Elem> {
    if events == [] || Ends(events[0]) then [] else Brought(events[0]) + Heard(events[1..])
  }

  predicate Open(events: seq<Event>) {
    forall e :: e in events ==> !Ends(e)
  }

  /** The datagram an event brings. */
  function Brought(e: Event): seq<Elem> {
    if e.Received? && e.r.Data? then [e.r.elem] else []
  }

  lemma OpenTail(events: seq<Event>)
    requires events != []
    ensures Open(events) <==> !Ends(events[0]) && Open(events[1..])
  {
    assert events == [events[0]] + events[1..];
  }

  lemma {:induction false} HeardAppend(events: seq<Event>, e: Event)
    ensures Heard(events + [e]) == Heard(events) + if Open(events) && !Ends(e) then Brought(e) else []
  {
    var more := events + [e];
    if events == [] {
      assert more[1..] == [];
      assert Heard(more) == if Ends(e) then [] else Brought(e) + [];
    } else {
      OpenTail(events);
      assert more[0] == events[0] && more[1..] == events[1..] + [e];
      HeardAppend(events[1..], e);
    }
  }

  lemma OpenStep(s: State, e: Event)
    requires Inv(s) && Enabled(s, e)
    ensures Next(s, e).rxEc.None? && !Next(s, e).stopped <==> s.rxEc.None? && !s.stopped && !Ends(e)
  {
  }

  lemma {:induction false} OpenExactly(events: seq<Event>)
    requires Legal(events)
    ensures Open(events) <==> Run(events).rxEc.None? && !Run(events).stopped
  {
    if events == [] {
    } else {
      var before, e := events[..|events| - 1], events[|events| - 1];
      OpenExactly(before);
      InvRun(before);
      OpenStep(Run(before), e);
      assert events == before + [e];
      assert Open(events) <==> Open(before) && !Ends(e);
    }
  }

  lemma ReceivedStep(s: State, e: Event)
    requires Enabled(s, e)
    ensures Next(s, e).received == s.received + if s.rxEc.None? && !s.stopped && !Ends(e) then Brought(e) else []
  {
  }

  /** The datagrams the receive loop looks at are those that arrive before an error, the timer or `stop`. */
  lemma {:induction false} ReceivedIsHeard(events: seq<Event>)
    requires Legal(events)
    ensures Run(events).received == Heard(events)
  {
    if events == [] {
    } else {
      var before, e := events[..|events| - 1], events[|events| - 1];
      ReceivedIsHeard(before);
      OpenExactly(before);
      ReceivedStep(Run(before), e);
      assert events == before + [e];
      HeardAppend(before, e);
    }
  }

  // ----- Safety -----

  /** A linked caller implies that the queue is empty and the receiver has not exited, so its
      final notification is still to come; once it has exited the error is set and no step
      links a caller again. */
  lemma NoCallerIsForgotten(events: seq<Event>, e: Event)
    requires Legal(events)
    ensures var s := Run(events);
      && (s.linked != [] ==> s.queue == [] && s.receiver != Exited)
      && (s.receiver == Exited ==> s.rxEc.Some?)
      && (s.receiver == Exited && Enabled(s, e) ==> Next(s, e).linked == [] && Next(s, e).receiver == Exited)
  {
    InvRun(events);
  }

  /** What was popped, followed by what is queued, is exactly what was accepted of the datagrams
      heard: every one that did not parse and the first of each USN, in order of arrival. The
      recorded USNs are those of the accepted responses. */
  lemma QueueConserves(events: seq<Event>)
    requires Legal(events)
    ensures var s, accepted := Run(events), Accepted(Heard(events));
      && Elems(s.popped) + s.queue == accepted
      && (forall u :: u in s.seen <==> exists k :: 0 <= k < |accepted| && accepted[k].Ok? && accepted[k].value.usn == u)
  {
    InvRun(events);
    ReceivedIsHeard(events);
    AcceptedUsns(Run(events).received, Run(events).seen);
  }

  ghost predicate UsnsDiffer(elems: seq<Elem>) {
    forall i, j :: 0 <= i < j < |elems| && elems[i].Ok? && elems[j].Ok? ==> elems[i].value.usn != elems[j].value.usn
  }

  lemma UsnsDifferMore(elems: seq<Elem>, e: Elem, seen: set<string>)
    requires UsnsDiffer(elems) && SeenIn(seen, elems) && (e.Ok? ==> e.value.usn !in seen)
    ensures UsnsDiffer(elems + [e])
  {
    forall i | 0 <= i < |elems| && elems[i].Ok? ensures elems[i].value.usn in seen {
    }
  }

  /** No two accepted responses share a USN. */
  lemma {:induction false} AcceptedUsnsDiffer(received: seq<Elem>)
    ensures UsnsDiffer(Accepted(received))
  {
    if received == [] {
    } else {
      var n := |received| - 1;
      var front, e := received[..n], received[n];
      AcceptedUsnsDiffer(front);
      var seen := set k | 0 <= k < n && front[k].Ok? :: front[k].value.usn;
      assert SeenIn(seen, front);
      AcceptedUsns(front, seen);
      AcceptLast(received, seen);
      if !(e.Ok? && e.value.usn in seen) { UsnsDifferMore(Accepted(front), e, seen); }
    }
  }

  lemma AcceptLast(received: seq<Elem>, seen: set<string>)
    requires received != [] && SeenIn(seen, received[..|received| - 1])
    ensures var front, e := received[..|received| - 1], received[|received| - 1];
      Accepted(received) == if e.Ok? && e.value.usn in seen then Accepted(front) else Accepted(front) + [e]
  {
    var front, e := received[..|received| - 1], received[|received| - 1];
    AcceptStep(front, e, seen);
    assert front + [e] == received;
  }

  lemma PoppedBy(s: State, id: Id)
    requires Delivered(s) && id in s.results && !s.results[id].Code?
    ensures exists i :: 0 <= i < |s.popped| && s.popped[i].caller == id
  {
  }

  lemma PoppedOutcome(s: State, i: nat)
    requires Delivered(s) && i < |s.popped|
    ensures s.popped[i].caller in s.results
    ensures match s.popped[i].elem
      case Ok(response) => s.results[s.popped[i].caller] == Value(response)
      case Err(error) => s.results[s.popped[i].caller] == BadAccess(error)
  {
  }

  /** A call that returned a response popped that very response, and a bad access the error that
      was popped; every response or error that was popped ended the call that popped it so. */
  lemma ReturnedIsPopped(events: seq<Event>, id: Id)
    requires Legal(events) && id in Run(events).results
    ensures var s := Run(events); var r := s.results[id];
      && (r.Value? ==>
            exists i :: 0 <= i < |s.popped| && s.popped[i].caller == id && s.popped[i].elem == Ok(r.response))
      && (r.BadAccess? ==>
            exists i :: 0 <= i < |s.popped| && s.popped[i].caller == id && s.popped[i].elem == Err(r.error))
      && (forall i :: 0 <= i < |s.popped| && s.popped[i].caller == id ==>
            match s.popped[i].elem case Ok(response) => r == Value(response) case Err(error) => r == BadAccess(error))
  {
    var s := Run(events);
    assert Delivered(s) by { InvRun(events); }
    forall i | 0 <= i < |s.popped| && s.popped[i].caller == id
      ensures match s.popped[i].elem
        case Ok(response) => s.results[id] == Value(response)
        case Err(error) => s.results[id] == BadAccess(error)
    {
      PoppedOutcome(s, i);
    }
    if !s.results[id].Code? { PoppedBy(s, id); }
  }

  lemma PoppedOnce(s: State, i: nat, j: nat)
    requires Delivered(s) && i < |s.popped| && j < |s.popped| && i != j
    ensures s.popped[i].caller != s.popped[j].caller
  {
    var a, b := if i < j then i else j, if i < j then j else i;
    assert s.popped[a].caller != s.popped[b].caller;
  }

  /** Each popped element ended exactly one call, and every call that did not end in an error
      code popped exactly one. */
  lemma EachElementToOneCaller(events: seq<Event>, id: Id)
    requires Legal(events) && id in Run(events).results
    ensures var s := Run(events);
      !s.results[id].Code? <==>
        exists i :: 0 <= i < |s.popped| && s.popped[i].caller == id &&
          forall j :: 0 <= j < |s.popped| && j != i ==> s.popped[j].caller != id
  {
    var s := Run(events);
    ReturnedIsPopped(events, id);
    assert Delivered(s) by { InvRun(events); }
    if !s.results[id].Code? {
      var i :| 0 <= i < |s.popped| && s.popped[i].caller == id;
      forall j | 0 <= j < |s.popped| && j != i ensures s.popped[j].caller != id {
        PoppedOnce(s, i, j);
      }
    }
  }

  // ----- The terminal error -----

  lemma LastStep(all: seq<Event>)
    requires all != [] && Legal(all)
    ensures var before, e := all[..|all| - 1], all[|all| - 1];
      Legal(before) && Enabled(Run(before), e) && Run(all) == Next(Run(before), e)
  {
  }

  lemma Extend(events: seq<Event>, more: seq<Event>)
    requires more != [] && Legal(events + more)
    ensures var before, e := events + more[..|more| - 1], more[|more| - 1];
      Legal(before) && Enabled(Run(before), e) && Run(events + more) == Next(Run(before), e)
  {
    var all := events + more;
    assert all[..|all| - 1] == events + more[..|more| - 1];
    assert all[|all| - 1] == more[|more| - 1];
    LastStep(all);
  }

  lemma {:induction false} LegalPrefix(events: seq<Event>, more: seq<Event>)
    requires Legal(events + more)
    ensures Legal(events)
  {
    if more == [] {
      assert events + more == events;
    } else {
      Extend(events, more);
      LegalPrefix(events, more[..|more| - 1]);
    }
  }

  /** Once the error is recorded it never changes, and nothing is queued any more. */
  lemma {:induction false} TerminalErrorIsSticky(events: seq<Event>, more: seq<Event>)
    requires Legal(events + more) && Run(events).rxEc.Some?
    ensures var s, s' := Run(events), Run(events + more);
      && s'.rxEc == s.rxEc && s'.received == s.received
      && Elems(s'.popped) + s'.queue == Elems(s.popped) + s.queue
    decreases |more|
  {
    LegalPrefix(events, more);
    InvRun(events);
    InvRun(events + more);
    if more == [] {
      assert events + more == events;
    } else {
      Extend(events, more);
      TerminalErrorIsSticky(events, more[..|more| - 1]);
    }
  }

  /** Without `stop`, a call ends in an error code only when every accepted element has been
      popped; then every later call, in whatever continuation without `stop`, ends at once in
      the same code. */
  lemma NothingLostWithoutStop(events: seq<Event>, more: seq<Event>, id: Id, later: Id)
    requires Legal(events + more) && !Run(events + more).stopped
    requires id in Run(events).results && Run(events).results[id].Code?
    requires Enabled(Run(events + more), Call(later))
    ensures Elems(Run(events).popped) == Accepted(Heard(events))
    ensures var r := Next(Run(events + more), Call(later)).results;
      later in r && r[later] == Run(events).results[id]
  {
    var s, s' := Run(events), Run(events + more);
    LegalPrefix(events, more);
    StoppedStays(events, more);
    InvRun(events);
    assert s.rxEc == Some(s.results[id].code) && s.queue == [];
    ReceivedIsHeard(events);
    assert Elems(s.popped) + [] == Elems(s.popped);
    TerminalErrorIsSticky(events, more);
    InvRun(events + more);
    QueueStaysEmpty(events, more);
  }

  lemma {:induction false} StoppedStays(events: seq<Event>, more: seq<Event>)
    requires Legal(events + more)
    ensures Run(events).stopped ==> Run(events + more).stopped
    decreases |more|
  {
    if more == [] {
      assert events + more == events;
    } else {
      Extend(events, more);
      StoppedStays(events, more[..|more| - 1]);
    }
  }

  lemma {:induction false} QueueStaysEmpty(events: seq<Event>, more: seq<Event>)
    requires Legal(events + more) && Run(events).rxEc.Some? && Run(events).queue == []
    ensures Run(events + more).rxEc.Some? && Run(events + more).queue == []
    decreases |more|
  {
    if more == [] {
      assert events + more == events;
    } else {
      Extend(events, more);
      QueueStaysEmpty(events, more[..|more| - 1]);
    }
  }

  /** The error that a stopped query records at this event, if it has none yet. */
  function EndedBy(e: Event): Option<ErrorCode> {
    if e.TimerFires? then Some(TimedOut) else if e.Received? then Some(OperationAborted) else None
  }

  /** What ends a stopped query: the timer or a receive, whichever comes first. */
  function FirstToEnd(more: seq<Event>): Option<ErrorCode> {
    if more == [] then None
    else if EndedBy(more[0]).Some? then EndedBy(more[0])
    else FirstToEnd(more[1..])
  }

  lemma {:induction false} FirstToEndAppend(more: seq<Event>, e: Event)
    ensures FirstToEnd(more + [e]) == if FirstToEnd(more).Some? then FirstToEnd(more) else EndedBy(e)
  {
    if more == [] {
      assert more + [e] == [e];
      assert [e][1..] == [];
    } else {
      assert (more + [e])[1..] == more[1..] + [e];
      FirstToEndAppend(more[1..], e);
    }
  }

  lemma StoppedStep(s: State, before: seq<Event>, e: Event)
    requires s.stopped && s.rxEc == FirstToEnd(before) && Enabled(s, e)
    ensures Next(s, e).stopped
    ensures Next(s, e).rxEc == if FirstToEnd(before).Some? then FirstToEnd(before) else EndedBy(e)
  {
  }

  lemma FirstToEndLast(more: seq<Event>)
    requires more != []
    ensures var before, e := more[..|more| - 1], more[|more| - 1];
      FirstToEnd(more) == if FirstToEnd(before).Some? then FirstToEnd(before) else EndedBy(e)
  {
    var before, e := more[..|more| - 1], more[|more| - 1];
    FirstToEndAppend(before, e);
    assert more == before + [e];
  }

  lemma ErrorStep(events: seq<Event>, more: seq<Event>)
    requires more != [] && Legal(events + more)
    requires var s, before := Run(events + more[..|more| - 1]), more[..|more| - 1];
      s.stopped && s.rxEc == FirstToEnd(before)
    ensures Run(events + more).stopped && Run(events + more).rxEc == FirstToEnd(more)
  {
    var before, e := more[..|more| - 1], more[|more| - 1];
    Extend(events, more);
    StoppedStep(Run(events + before), before, e);
    FirstToEndLast(more);
  }

  /** The callback ignores that the timer was cancelled: after `stop` on a query without an error
      the recorded error is an abort if and only if a receive completes before the timer fires,
      whatever the receive brings. */
  lemma {:induction false} ErrorAfterStop(events: seq<Event>, more: seq<Event>)
    requires Legal(events + more) && Run(events).stopped && Run(events).rxEc.None?
    ensures Run(events + more).stopped && Run(events + more).rxEc == FirstToEnd(more)
    decreases |more|
  {
    if more == [] {
      assert events + more == events;
    } else {
      Extend(events, more);
      ErrorAfterStop(events, more[..|more| - 1]);
      ErrorStep(events, more);
    }
  }

  /** The error an event records if there is none yet. */
  function Recorded(e: Event, stopped: bool): Option<ErrorCode> {
    if e.TimerFires? then Some(TimedOut)
    else if e.Received? && stopped then Some(OperationAborted)
    else if e.Received? && e.r.Failed? then Some(e.r.code)
    else None
  }

  /** The first error in a run; `stopped` says whether `stop` has run before. */
  function FirstRecorded(events: seq<Event>, stopped: bool): Option<ErrorCode> {
    if events == [] then None
    else if Recorded(events[0], stopped).Some? then Recorded(events[0], stopped)
    else FirstRecorded(events[1..], stopped || events[0].Stop?)
  }

  lemma {:induction false} FirstRecordedAppend(events: seq<Event>, stopped: bool, e: Event)
    ensures FirstRecorded(events + [e], stopped) ==
      if FirstRecorded(events, stopped).Some? then FirstRecorded(events, stopped)
      else Recorded(e, stopped || Stop in events)
  {
    if events == [] {
      assert events + [e] == [e];
      assert [e][1..] == [];
    } else {
      assert (events + [e])[1..] == events[1..] + [e];
      assert events == [events[0]] + events[1..];
      FirstRecordedAppend(events[1..], stopped || events[0].Stop?, e);
    }
  }

  lemma FirstRecordedLast(events: seq<Event>)
    requires events != []
    ensures var before, e := events[..|events| - 1], events[|events| - 1];
      && FirstRecorded(events, false) ==
           (if FirstRecorded(before, false).Some? then FirstRecorded(before, false) else Recorded(e, Stop in before))
      && (Stop in events <==> Stop in before || e == Stop)
  {
    var before, e := events[..|events| - 1], events[|events| - 1];
    assert events == before + [e];
    FirstRecordedAppend(before, false, e);
  }

  lemma RecordedStep(s: State, e: Event)
    requires Enabled(s, e)
    ensures Next(s, e).rxEc == if s.rxEc.Some? then s.rxEc else Recorded(e, s.stopped)
    ensures Next(s, e).stopped <==> s.stopped || e == Stop
  {
  }

  /** The terminal error of every run: a time-out if the timer fires first, the code of a receive
      error if it comes first, and an abort if a receive completes first and `stop` has run. */
  lemma {:induction false} TerminalErrorExactly(events: seq<Event>)
    requires Legal(events)
    ensures Run(events).rxEc == FirstRecorded(events, false)
    ensures Run(events).stopped <==> Stop in events
  {
    if events == [] {
    } else {
      var before := events[..|events| - 1];
      LastStep(events);
      TerminalErrorExactly(before);
      RecordedStep(Run(before), events[|events| - 1]);
      FirstRecordedLast(events);
    }
  }

  /** Once `stop` has run a call ends at once in an abort and takes nothing, whatever is queued. */
  lemma CallAfterStop(events: seq<Event>, id: Id)
    requires Legal(events) && Stop in events && Enabled(Run(events), Call(id))
    ensures var s, s' := Run(events), Run(events + [Call(id)]);
      id in s'.results && s'.results[id] == Code(OperationAborted) && s'.queue == s.queue && s'.popped == s.popped
  {
    TerminalErrorExactly(events);
    assert (events + [Call(id)])[..|events|] == events;
  }

  lemma RunOfThree(a: Event, b: Event, c: Event)
    ensures Run([a, b, c]) == Next(Next(Next(INIT, a), b), c)
    ensures Legal([a, b, c]) <==> Enabled(INIT, a) && Enabled(Next(INIT, a), b) && Enabled(Next(Next(INIT, a), b), c)
  {
    assert [a, b, c][..2] == [a, b];
    assert [a, b][..1] == [a];
    assert [a][..0] == [];
    assert Run([a]) == Next(INIT, a);
    assert Legal([a]) <==> Enabled(INIT, a);
  }

  lemma BothErrorsFollowStop()
    ensures Legal([Start, Stop, TimerFires]) && Run([Start, Stop, TimerFires]).rxEc == Some(TimedOut)
    ensures Legal([Start, Stop, Received(Failed(OperationAborted))])
    ensures Run([Start, Stop, Received(Failed(OperationAborted))]).rxEc == Some(OperationAborted)
  {
    RunOfThree(Start, Stop, TimerFires);
    RunOfThree(Start, Stop, Received(Failed(OperationAborted)));
  }

  // ----- Parse errors -----

  /** The header lets callers go on after a parse error, but a popped one ends its call in a bad
      access. A call ends so if and only if what it popped did not parse, whether it popped at
      once or after any number of waits. */
  lemma BadAccessExactly(events: seq<Event>, id: Id)
    requires Legal(events) && id in Run(events).results
    ensures var s := Run(events);
      s.results[id].BadAccess? <==> exists i :: 0 <= i < |s.popped| && s.popped[i].caller == id && s.popped[i].elem.Err?
  {
    InvRun(events);
    EachElementToOneCaller(events, id);
  }

  lemma {:induction false} ErrorsAreAccepted(received: seq<Elem>, k: nat)
    requires k < |received| && received[k].Err?
    ensures received[k] in Accepted(received)
  {
    if k < |received| - 1 { ErrorsAreAccepted(received[..|received| - 1], k); }
  }

  lemma {:induction false} AcceptedWasReceived(received: seq<Elem>, elem: Elem)
    requires elem in Accepted(received)
    ensures elem in received
  {
    var n := |received| - 1;
    if elem in Accepted(received[..n]) { AcceptedWasReceived(received[..n], elem); }
  }

  lemma NoBadAccessPopped(events: seq<Event>)
    requires Legal(events)
    ensures var s := Run(events);
      (forall id :: id in s.results ==> !s.results[id].BadAccess?)
      <==> (forall i :: 0 <= i < |s.popped| ==> s.popped[i].elem.Ok?)
  {
    var s := Run(events);
    InvRun(events);
    forall id | id in s.results && s.results[id].BadAccess?
      ensures exists i :: 0 <= i < |s.popped| && s.popped[i].elem.Err?
    {
      BadAccessExactly(events, id);
    }
    forall i | 0 <= i < |s.popped| && s.popped[i].elem.Err?
      ensures exists id :: id in s.results && s.results[id].BadAccess?
    {
      assert s.results[s.popped[i].caller] == Unwrap(s.popped[i].elem);
    }
  }

  /** Over any run no call has been a bad access if and only if what was popped so far of the
      accepted datagrams parsed; when nothing is queued, if and only if every datagram heard did. */
  lemma NoBadAccessExactly(events: seq<Event>)
    requires Legal(events)
    ensures var s, accepted := Run(events), Accepted(Heard(events));
      var none := forall id :: id in s.results ==> !s.results[id].BadAccess?;
      && |s.popped| <= |accepted|
      && (none <==> forall i :: 0 <= i < |s.popped| ==> accepted[i].Ok?)
      && (s.queue == [] ==> (none <==> forall e :: e in Heard(events) ==> e.Ok?))
  {
    var s, heard := Run(events), Heard(events);
    var accepted := Accepted(heard);
    QueueConserves(events);
    NoBadAccessPopped(events);
    forall i | 0 <= i < |s.popped| ensures accepted[i] == s.popped[i].elem {
      assert (Elems(s.popped) + s.queue)[i] == Elems(s.popped)[i];
    }
    if s.queue == [] {
      assert |accepted| == |s.popped|;
      forall i | 0 <= i < |accepted| ensures accepted[i] in heard {
        AcceptedWasReceived(heard, accepted[i]);
      }
      forall k | 0 <= k < |heard| && heard[k].Err? ensures heard[k] in accepted {
        ErrorsAreAccepted(heard, k);
      }
    }
  }

  lemma RunOfFour(a: Event, b: Event, c: Event, d: Event)
    ensures Run([a, b, c, d]) == Next(Run([a, b, c]), d)
    ensures Legal([a, b, c, d]) <==> Legal([a, b, c]) && Enabled(Run([a, b, c]), d)
  {
    assert [a, b, c, d][..3] == [a, b, c];
  }

  /** One datagram reaches a waiting caller as the parse of the datagram, but its failure, which is
      decided by its first line, reaches it as a bad access. */
  lemma ParseErrorReachesNoCaller(d: string)
    ensures var events := [Start, Call(0), Received(Data(ParseMessage(d))), Resume(0)];
      && Legal(events) && 0 in Run(events).results
      && (match ParseMessage(d)
          case Ok(response) => Run(events).results[0] == Value(response)
          case Err(error) => Run(events).results[0] == BadAccess(error))
      && (Run(events).results[0].BadAccess? <==> FirstLine(d).Some? && !GoodStatus(FirstLine(d).value))
  {
    var r := Received(Data(ParseMessage(d)));
    RunOfThree(Start, Call(0), r);
    RunOfFour(Start, Call(0), r, Resume(0));
    FailsExactly(d);
  }

  /** A datagram of a single line end is enough. */
  lemma LineEndIsABadAccess()
    ensures var events := [Start, Call(0), Received(Data(ParseMessage("\n"))), Resume(0)];
      Legal(events) && 0 in Run(events).results && Run(events).results[0].BadAccess?
  {
    ParseErrorReachesNoCaller("\n");
    assert Scan.Until("\n", "\n") == Some(("", "")) by {
      Scan.CutCharAt("", '\n', "", true);
      assert "" + ['\n'] + "" == "\n";
    }
    assert FirstLine("\n") == Some("");
  }

  // ----- Shutdown -----

  predicate ShuttingDown(s: State) {
    s.rxEc.Some? || s.stopped
  }

  /** The steps the query takes by itself. */
  predicate Internal(e: Event) {
    e.Start? || e.TimerFires? || e.Received? || e.Resume?
  }

  function StepsLeft(s: State): nat {
    (match s.receiver case NotStarted => 3 case Receiving => 1 case Exited => 0) + if s.timer == Armed then 1 else 0
  }

  /** How many internal steps a query that is shutting down can still take. */
  function Measure(s: State): nat {
    StepsLeft(s) + |s.ready| + if s.receiver == Exited then 0 else |s.ready| + |s.linked|
  }

  lemma InternalStepDecreases(s: State, e: Event)
    requires Inv(s) && ShuttingDown(s) && Internal(e) && Enabled(s, e)
    ensures ShuttingDown(Next(s, e)) && Measure(Next(s, e)) < Measure(s)
  {
  }

  /** Once the error is set or `stop` has run, and without new calls, every step brings the
      query closer to rest, even a resumption that waits again. */
  lemma {:induction false} ShutdownIsBounded(events: seq<Event>, more: seq<Event>)
    requires Legal(events + more) && ShuttingDown(Run(events)) && forall e :: e in more ==> Internal(e)
    ensures ShuttingDown(Run(events + more)) && |more| + Measure(Run(events + more)) <= Measure(Run(events))
    decreases |more|
  {
    if more == [] {
      assert events + more == events;
    } else {
      var before := more[..|more| - 1];
      Extend(events, more);
      ShutdownIsBounded(events, before);
      InvRun(events + before);
      InternalStepDecreases(Run(events + before), more[|more| - 1]);
    }
  }

  /** No step is bound to happen: a receive on an open socket may stay pending, anything else
      that is enabled happens. */
  predicate AtRest(s: State) {
    s.receiver != NotStarted && s.timer != Armed && !(s.receiver == Receiving && !s.socketOpen) && s.ready == []
  }

  predicate Known(s: State, id: Id) {
    id in s.linked || id in s.ready || id in s.results
  }

  lemma CallerStaysKnown(s: State, e: Event, id: Id)
    requires Enabled(s, e) && (Known(s, id) || e == Call(id))
    ensures Known(Next(s, e), id)
  {
    if e.Resume? {
      if id in s.ready { RemovedKeeps(s.ready, e.k, id); }
    }
  }

  lemma {:induction false} CallsAreAccountedFor(events: seq<Event>, id: Id)
    requires Legal(events) && Call(id) in events
    ensures Known(Run(events), id)
  {
    var before, e := events[..|events| - 1], events[|events| - 1];
    assert events == before + [e];
    if Call(id) in before { CallsAreAccountedFor(before, id); }
    CallerStaysKnown(Run(before), e, id);
  }

  /** In every reachable state in which nothing is bound to happen the receiver has exited and
      every call that was ever made has returned; otherwise an internal step is enabled. */
  lemma AtRestEveryCallHasReturned(events: seq<Event>)
    requires Legal(events)
    ensures var s := Run(events);
      && (AtRest(s) ==> s.receiver == Exited && forall id :: Call(id) in events ==> id in s.results)
      && (!AtRest(s) ==> exists e :: Internal(e) && Enabled(s, e))
  {
    var s := Run(events);
    InvRun(events);
    if AtRest(s) {
      forall id | Call(id) in events ensures id in s.results {
        CallsAreAccountedFor(events, id);
      }
    } else if s.receiver == NotStarted {
      assert Internal(Start) && Enabled(s, Start);
    } else if s.timer == Armed {
      assert Internal(TimerFires) && Enabled(s, TimerFires);
    } else if s.ready != [] {
      assert Internal(Resume(0)) && Enabled(s, Resume(0));
    } else {
      assert Internal(Received(Failed(OperationAborted))) && Enabled(s, Received(Failed(OperationAborted)));
    }
  }
}
