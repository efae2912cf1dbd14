/** Discovery on top of the query: what the calls of `discover` return in any run, and so what it finds. */
module DiscoveryRuns {
  import opened Options
  import opened Executor
  import opened SsdpMessage
  import opened Discovery
  import opened DeviceTree
  import Q = SsdpQuery
  import L = SsdpQueryLaws

  // ----- One caller after the other -----

  function Calls(events: seq<Q.Event>): nat {
    if events == [] then 0
    else Calls(events[..|events| - 1]) + if events[|events| - 1].Call? then 1 else 0
  }

  ghost predicate AllReturned(s: Q.State, n: nat) {
    forall j :: 0 <= j < n ==> j in s.results
  }

  /** As `discover` calls: the calls are numbered, each is made after the one before has returned,
      and nobody stops the query in between. Everything else may happen at any time. */
  ghost predicate Sequential(events: seq<Q.Event>) {
    events != [] ==>
      var before, e := events[..|events| - 1], events[|events| - 1];
      && Sequential(before) && !e.Stop?
      && (e.Call? ==> e.id == Calls(before) && AllReturned(Q.Run(before), Calls(before)))
  }

  /** After `n` calls: all but the last have returned, and the k-th element popped went to the k-th call. */
  ghost predicate InTurn(s: Q.State, n: nat) {
    && !s.stopped
    && (n > 0 ==> AllReturned(s, n - 1))
    && (forall id :: id in s.linked || id in s.ready || id in s.results ==> id < n)
    && (forall i :: 0 <= i < |s.popped| ==> s.popped[i].caller == i)
  }

  /** A call that is about to pop is preceded by calls that popped, one each. */
  lemma PoppedBefore(s: Q.State, n: nat)
    requires Q.Inv(s) && InTurn(s, n) && s.queue != [] && AllReturned(s, n)
    ensures |s.popped| == n
  {
    if n > 0 {
      assert n - 1 in s.results && !s.results[n - 1].Code?;
      var i :| 0 <= i < |s.popped| && s.popped[i].caller == n - 1;
    }
    if s.popped != [] {
      assert s.popped[|s.popped| - 1].caller in s.results;
    }
  }

  lemma PollInTurn(s: Q.State, id: Id)
    requires Q.Inv(s) && !s.stopped && AllReturned(s, id)
    requires forall x :: x in s.linked || x in s.ready || x in s.results ==> x < id
    requires forall i :: 0 <= i < |s.popped| ==> s.popped[i].caller == i
    ensures InTurn(Q.Poll(s, id), id + 1)
  {
    if s.queue != [] { PoppedBefore(s, id); }
  }

  /** The caller that is resumed is the last one: the others have returned. */
  lemma ResumedIsLast(s: Q.State, n: nat, k: nat)
    requires Q.Inv(s) && InTurn(s, n) && k < |s.ready|
    ensures n > 0 && s.ready[k] == n - 1
    ensures forall x :: x in s.linked || x in s.ready[..k] + s.ready[k + 1..] || x in s.results ==> x < n - 1
  {
    var id := s.ready[k];
    assert id in s.ready && id !in s.results;
    Q.DistinctRemove(s.linked, s.ready, k);
  }

  lemma ResumeInTurn(s: Q.State, n: nat, k: nat)
    requires Q.Inv(s) && InTurn(s, n) && k < |s.ready|
    ensures InTurn(Q.Next(s, Q.Resume(k)), n)
  {
    var s' := s.(ready := s.ready[..k] + s.ready[k + 1..]);
    ResumedIsLast(s, n, k);
    Q.InvWithout(s, k);
    PollInTurn(s', n - 1);
  }

  /** The other events return nothing and bring in no caller. */
  lemma OthersStay(s: Q.State, e: Q.Event)
    requires e.Start? || e.TimerFires? || e.Received?
    ensures var s' := Q.Next(s, e);
      && s'.results == s.results && s'.popped == s.popped && s'.stopped == s.stopped
      && forall id :: id in s'.linked || id in s'.ready ==> id in s.linked || id in s.ready
  {
  }

  lemma InTurnStep(s: Q.State, n: nat, e: Q.Event)
    requires Q.Inv(s) && InTurn(s, n) && Q.Enabled(s, e) && !e.Stop?
    requires e.Call? ==> e.id == n && AllReturned(s, n)
    ensures InTurn(Q.Next(s, e), if e.Call? then n + 1 else n)
  {
    if e.Call? {
      PollInTurn(s, e.id);
    } else if e.Resume? {
      ResumeInTurn(s, n, e.k);
    } else {
      OthersStay(s, e);
    }
  }

  lemma {:induction false} InTurnRun(events: seq<Q.Event>)
    requires Q.Legal(events) && Sequential(events)
    ensures InTurn(Q.Run(events), Calls(events))
  {
    if events == [] {
    } else {
      var before, e := events[..|events| - 1], events[|events| - 1];
      InTurnRun(before);
      Q.InvRun(before);
      L.LastStep(events);
      InTurnStep(Q.Run(before), Calls(before), e);
    }
  }

  // ----- What the calls return -----

  /** The calls return the accepted datagrams in order, and an error code only after all of them:
      the k-th call returns the k-th one, or the terminal error if there are no more. */
  lemma CallsReturnAccepted(events: seq<Q.Event>, k: Id)
    requires Q.Legal(events) && Sequential(events) && k in Q.Run(events).results
    ensures var s, accepted := Q.Run(events), Q.Accepted(L.Heard(events));
      match s.results[k]
      case Value(response) => k < |accepted| && accepted[k] == Ok(response)
      case BadAccess(error) => k < |accepted| && accepted[k] == Err(error)
      case Code(code) => |accepted| <= k && s.rxEc == Some(code)
  {
    var s, accepted := Q.Run(events), Q.Accepted(L.Heard(events));
    Q.InvRun(events);
    InTurnRun(events);
    L.QueueConserves(events);
    L.ReturnedIsPopped(events, k);
    if s.results[k].Code? {
      assert |accepted| == |s.popped|;
      forall i | 0 <= i < |s.popped| ensures i in s.results && !s.results[i].Code? {
        assert s.results[s.popped[i].caller] == Q.Unwrap(s.popped[i].elem);
      }
    } else {
      var i :| 0 <= i < |s.popped| && s.popped[i].caller == k;
      assert accepted[k] == (Q.Elems(s.popped) + s.queue)[k] == s.popped[k].elem;
    }
  }

  // ----- What discovery makes of them -----

  /** The answers `discover` gets for these datagrams; `exchange` fetches the description for each. */
  function AnswersOf(elems: seq<Q.Elem>, exchange: nat -> Option<Device>): seq<Item> {
    seq(|elems|, i requires 0 <= i < |elems| =>
      match elems[i] case Ok(response) => Answer(response, exchange(i)) case Err(_) => Unparsed)
  }

  /** The items `discover` works on, taken from what its first `k` calls returned. */
  function ItemsOf(results: map<Id, Q.Outcome>, k: nat, exchange: nat -> Option<Device>): seq<Item> {
    seq(k, i requires 0 <= i < k =>
      if i in results && results[i].Value? then Answer(results[i].response, exchange(i)) else Unparsed)
  }

  /** The first `k` datagrams accepted in a run. */
  function FirstAccepted(events: seq<Q.Event>, k: nat): seq<Q.Elem> {
    var accepted := Q.Accepted(L.Heard(events));
    if k <= |accepted| then accepted[..k] else accepted
  }

  function EndingOf(o: Q.Outcome): Ending
    requires !o.Value?
  {
    match o case BadAccess(error) => BadAccess(error) case Code(code) => Code(code)
  }

  /** The calls that `discover` makes: it goes on after a response, until call `k` returns anything else. */
  ghost predicate Discovers(events: seq<Q.Event>, k: Id) {
    && Q.Legal(events) && Sequential(events)
    && (forall e :: e in events && e.Received? && e.r.Data? ==> exists d: string :: e.r.elem == ParseMessage(d))
    && var results := Q.Run(events).results;
    && k in results && !results[k].Value?
    && forall j :: 0 <= j < k ==> j in results && results[j].Value?
  }

  lemma AnswersParsed(events: seq<Q.Event>, k: Id)
    requires Discovers(events, k)
    ensures var accepted := Q.Accepted(L.Heard(events));
      k <= |accepted| && forall i :: 0 <= i < k ==> accepted[i].Ok? && Located(accepted[i].value.location)
  {
    var s, accepted := Q.Run(events), Q.Accepted(L.Heard(events));
    CallsReturnAccepted(events, k);
    forall i | 0 <= i < k ensures i < |accepted| && accepted[i].Ok? && Located(accepted[i].value.location) {
      CallsReturnAccepted(events, i);
      ReturnedResponsesAreLocated(events, i);
    }
    if k > |accepted| {
      assert |accepted| < k;
      CallsReturnAccepted(events, |accepted|);
    }
  }

  /** The last call ends in a bad access if some datagram heard did not parse, and otherwise in the
      terminal error, after all accepted datagrams. */
  lemma LastCall(events: seq<Q.Event>, k: Id)
    requires Discovers(events, k)
    ensures var s, accepted := Q.Run(events), Q.Accepted(L.Heard(events));
      if exists e :: e in L.Heard(events) && e.Err?
      then k < |accepted| && accepted[k].Err? && s.results[k] == Q.BadAccess(accepted[k].error)
      else k == |accepted| && s.rxEc.Some? && s.results[k] == Q.Code(s.rxEc.value)
  {
    var s, heard := Q.Run(events), L.Heard(events);
    var accepted := Q.Accepted(heard);
    AnswersParsed(events, k);
    CallsReturnAccepted(events, k);
    forall e | e in heard && e.Err? ensures e in accepted {
      var i :| 0 <= i < |heard| && heard[i] == e;
      L.ErrorsAreAccepted(heard, i);
    }
    if k < |accepted| {
      L.AcceptedWasReceived(heard, accepted[k]);
    }
  }

  lemma ItemsAreAnswers(events: seq<Q.Event>, k: Id, exchange: nat -> Option<Device>)
    requires Discovers(events, k)
    ensures ItemsOf(Q.Run(events).results, k, exchange) == AnswersOf(FirstAccepted(events, k), exchange)
  {
    AnswersParsed(events, k);
    var items, answers := ItemsOf(Q.Run(events).results, k, exchange), AnswersOf(FirstAccepted(events, k), exchange);
    forall i | 0 <= i < k ensures items[i] == answers[i] {
      CallsReturnAccepted(events, i);
    }
  }

  lemma AnswersLocated(elems: seq<Q.Elem>, exchange: nat -> Option<Device>)
    requires forall i :: 0 <= i < |elems| ==> elems[i].Ok? && Located(elems[i].value.location)
    ensures AllLocated(AnswersOf(elems, exchange))
  {
  }

  /** In every run of the query under `discover` what its calls returned are the accepted datagrams in
      order, up to the first that did not parse. If there is one among the datagrams heard, the calls end
      in a bad access with its error; otherwise in the terminal error, after all of them. */
  lemma DiscoveryOfRun(events: seq<Q.Event>, k: Id, exchange: nat -> Option<Device>)
    requires Discovers(events, k)
    ensures var s, accepted, reached := Q.Run(events), Q.Accepted(L.Heard(events)), FirstAccepted(events, k);
      && |reached| == k && (forall i :: 0 <= i < k ==> reached[i].Ok?)
      && ItemsOf(s.results, k, exchange) == AnswersOf(reached, exchange)
      && AllLocated(ItemsOf(s.results, k, exchange))
      && if exists e :: e in L.Heard(events) && e.Err?
         then k < |accepted| && accepted[k].Err? && EndingOf(s.results[k]) == BadAccess(accepted[k].error)
         else k == |accepted| && s.rxEc.Some? && EndingOf(s.results[k]) == Code(s.rxEc.value)
  {
    AnswersParsed(events, k);
    AnswersLocated(FirstAccepted(events, k), exchange);
    ItemsAreAnswers(events, k, exchange);
    LastCall(events, k);
  }

  /** So unless an exchange fails, discovery throws if and only if some datagram heard did not
      parse: it ignores no parse error. */
  lemma ThrowsExactly<A>(makeAddress: string -> Option<A>, events: seq<Q.Event>, k: Id, exchange: nat -> Option<Device>)
    requires Discovers(events, k)
    requires var items := ItemsOf(Q.Run(events).results, k, exchange);
      AllLocated(items) && AllFetched(makeAddress, items)
    ensures var items := ItemsOf(Q.Run(events).results, k, exchange);
      var result := Discovered(makeAddress, items, EndingOf(Q.Run(events).results[k]));
      result.Err? && result.error.Thrown? <==> exists e :: e in L.Heard(events) && e.Err?
  {
    DiscoveryOfRun(events, k, exchange);
  }

  // ----- Such runs exist -----

  lemma OneOn(events: seq<Q.Event>, e: Q.Event)
    ensures Q.Run(events + [e]) == Q.Next(Q.Run(events), e)
    ensures Q.Legal(events + [e]) <==> Q.Legal(events) && Q.Enabled(Q.Run(events), e)
    ensures Calls(events + [e]) == Calls(events) + if e.Call? then 1 else 0
    ensures Sequential(events + [e]) <==>
      Sequential(events) && !e.Stop? &&
      (e.Call? ==> e.id == Calls(events) && AllReturned(Q.Run(events), Calls(events)))
  {
    assert (events + [e])[..|events|] == events;
  }

  function FirstHalf(d: string): seq<Q.Event> {
    [] + [Q.Start] + [Q.Call(0)] + [Q.Received(Q.Data(ParseMessage(d)))] + [Q.Resume(0)]
  }

  lemma FirstHalfRuns(d: string)
    requires ParseMessage(d).Ok?
    ensures var s := Q.Run(FirstHalf(d));
      && Q.Legal(FirstHalf(d)) && Sequential(FirstHalf(d)) && Calls(FirstHalf(d)) == 1
      && s.results == map[0 := Q.Value(ParseMessage(d).value)]
      && s.queue == [] && s.rxEc.None? && !s.stopped && s.receiver == Q.Receiving && s.timer == Q.Armed
      && s.linked == [] && s.ready == []
  {
    var e := ParseMessage(d);
    OneOn([], Q.Start);
    OneOn([] + [Q.Start], Q.Call(0));
    OneOn([] + [Q.Start] + [Q.Call(0)], Q.Received(Q.Data(e)));
    OneOn([] + [Q.Start] + [Q.Call(0)] + [Q.Received(Q.Data(e))], Q.Resume(0));
  }

  function TimedOutRun(d: string): seq<Q.Event> {
    FirstHalf(d) + [Q.Call(1)] + [Q.TimerFires]
  }

  lemma TimedOutRuns(d: string)
    requires ParseMessage(d).Ok?
    ensures var s := Q.Run(TimedOutRun(d));
      && Q.Legal(TimedOutRun(d)) && Sequential(TimedOutRun(d))
      && s.results == map[0 := Q.Value(ParseMessage(d).value)]
      && s.queue == [] && s.rxEc == Some(TimedOut) && !s.stopped && s.receiver == Q.Receiving
      && s.linked == [1] && s.ready == []
  {
    FirstHalfRuns(d);
    OneOn(FirstHalf(d), Q.Call(1));
    OneOn(FirstHalf(d) + [Q.Call(1)], Q.TimerFires);
  }

  function WholeRun(d: string): seq<Q.Event> {
    TimedOutRun(d) + [Q.Received(Q.Failed(OperationAborted))] + [Q.Resume(0)]
  }

  lemma WholeRuns(d: string)
    requires ParseMessage(d).Ok?
    ensures Q.Legal(WholeRun(d)) && Sequential(WholeRun(d))
    ensures Q.Run(WholeRun(d)).results == map[0 := Q.Value(ParseMessage(d).value), 1 := Q.Code(TimedOut)]
  {
    TimedOutRuns(d);
    OneOn(TimedOutRun(d), Q.Received(Q.Failed(OperationAborted)));
    OneOn(TimedOutRun(d) + [Q.Received(Q.Failed(OperationAborted))], Q.Resume(0));
  }

  lemma OnlyThisDatagram(d: string)
    ensures forall e :: e in WholeRun(d) && e.Received? && e.r.Data? ==> e.r.elem == ParseMessage(d)
  {
    assert forall e :: e in FirstHalf(d) && e.Received? ==> e == Q.Received(Q.Data(ParseMessage(d)));
  }

  /** A datagram that parses, the time-out, and the two calls of `discover`. */
  lemma OneAnswerRun(d: string)
    requires ParseMessage(d).Ok?
    ensures var results := Q.Run(WholeRun(d)).results;
      && Discovers(WholeRun(d), 1)
      && results[0] == Q.Value(ParseMessage(d).value) && results[1] == Q.Code(TimedOut)
  {
    WholeRuns(d);
    OnlyThisDatagram(d);
  }
}
