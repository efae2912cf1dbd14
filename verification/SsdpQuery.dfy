/** The SSDP query: a receiver, a timer, `stop` and any number of callers on one serial executor. */
module SsdpQuery {
  import opened Options
  import opened SsdpMessage
  import opened Executor

  /** What the receiver queues: a response, or the error of a datagram that did not parse. */
  type Elem = SsdpMessage.Result<Response, ParseError>

  /** How a `get_response` call ends. `.value()` is called on whatever is popped, so a queued
      parse error is a bad access (an exception, or the end of the process in a debug build)
      and never the parse error the header announces. */
  datatype Outcome = Value(response: Response) | BadAccess(error: ParseError) | Code(code: ErrorCode)

  datatype Receiver = NotStarted | Receiving | Exited
  datatype Timer = Idle | Armed | Done

  datatype Delivery = Delivery(caller: Id, elem: Elem)

  /** `linked` are the callers suspended in the wait list, `ready` those whose handler is posted.
      `received` and `popped` record the datagrams the receive loop read before `rxEc` was set
      and who got which element. */
  datatype State = State(queue: seq<Elem>, seen: set<string>, rxEc: Option<ErrorCode>, stopped: bool,
                         socketOpen: bool, receiver: Receiver, timer: Timer,
                         linked: seq<Id>, ready: seq<Id>, results: map<Id, Outcome>,
                         received: seq<Elem>, popped: seq<Delivery>)

  const INIT := State([], {}, None, false, true, NotStarted, Idle, [], [], map[], [], [])

  datatype Reception = Data(elem: Elem) | Failed(code: ErrorCode)

  /** The atomic steps between suspension points. The executor may resume posted callers in any order. */
  datatype Event = Start | TimerFires | Received(r: Reception) | Stop | Call(id: Id) | Resume(k: nat)

  // ----- The steps, as functions -----

  function Notify(s: State): State {
    s.(ready := s.ready + s.linked, linked := [])
  }

  function Unwrap(e: Elem): Outcome {
    match e case Ok(r) => Value(r) case Err(x) => BadAccess(x)
  }

  /** One turn of the loop in `get_response`: pop, return the terminal error, or wait. */
  function Poll(s: State, id: Id): State {
    if s.queue == [] then
      if s.rxEc.Some? then s.(results := s.results[id := Code(s.rxEc.value)])
      else s.(linked := s.linked + [id])
    else
      s.(queue := s.queue[1..], popped := s.popped + [Delivery(id, s.queue[0])],
         results := s.results[id := Unwrap(s.queue[0])])
  }

  /** The body of the receive loop on a datagram. A duplicate is skipped without a notification. */
  function Accept(s: State, e: Elem): State {
    var s' := s.(received := s.received + [e]);
    if e.Ok? && e.value.usn in s.seen then s'
    else Notify(s'.(queue := s.queue + [e], seen := if e.Ok? then s.seen + {e.value.usn} else s.seen))
  }

  function OnReceive(s: State, r: Reception): State {
    var rxEc :=
      if s.rxEc.Some? then s.rxEc
      else if s.stopped then Some(OperationAborted)
      else if r.Failed? then Some(r.code)
      else None;
    if rxEc.Some? then Notify(s.(rxEc := rxEc, receiver := Exited))
    else if r.Data? then Accept(s, r.elem)
    else s
  }

  /** The callback looks at neither its own error code nor the wait list. */
  function OnTimer(s: State): State {
    var s' := s.(timer := Done);
    if s.rxEc.Some? then s' else s'.(rxEc := Some(TimedOut), socketOpen := false)
  }

  predicate Enabled(s: State, e: Event) {
    match e
    case Start => s.receiver == NotStarted
    case TimerFires => s.timer == Armed
    case Received(r) => s.receiver == Receiving && (r.Failed? ==> r.code != NoError)
    case Stop => !s.stopped
    case Call(id) => id !in s.linked && id !in s.ready && id !in s.results
    case Resume(k) => k < |s.ready|
  }

  function Next(s: State, e: Event): State {
    match e
    case Start => s.(receiver := Receiving, timer := Armed)
    case TimerFires => OnTimer(s)
    case Received(r) => OnReceive(s, r)
    case Stop => s.(stopped := true, socketOpen := false)
    case Call(id) => if s.stopped then s.(results := s.results[id := Code(OperationAborted)]) else Poll(s, id)
    case Resume(k) => if k < |s.ready| then Poll(s.(ready := s.ready[..k] + s.ready[k + 1..]), s.ready[k]) else s
  }

  /** The state after a run. */
  function Run(events: seq<Event>): State {
    if events == [] then INIT else Next(Run(events[..|events| - 1]), events[|events| - 1])
  }

  /** Every step of the run was possible when it happened. */
  predicate Legal(events: seq<Event>) {
    events != [] ==> Legal(events[..|events| - 1]) && Enabled(Run(events[..|events| - 1]), events[|events| - 1])
  }

  // ----- The class -----

  class Query {
    var queue: seq<Elem>
    var seen: set<string>
    var rxEc: Option<ErrorCode>
    var stopped: bool
    var socketOpen: bool
    var receiver: Receiver
    var timer: Timer
    var linked: seq<Id>
    var ready: seq<Id>
    var results: map<Id, Outcome>
    ghost var received: seq<Elem>
    ghost var popped: seq<Delivery>

    ghost function Value(): State
      reads this
    {
      State(queue, seen, rxEc, stopped, socketOpen, receiver, timer, linked, ready, results, received, popped)
    }

    constructor ()
      ensures Value() == INIT
    {
      queue, seen, rxEc, stopped, socketOpen, receiver, timer := [], {}, None, false, true, NotStarted, Idle;
      linked, ready, results, received, popped := [], [], map[], [], [];
    }

    /** The receiver coroutine begins: it arms the timer and waits for a datagram. */
    method Begin()
      requires Enabled(Value(), Start)
      modifies this
      ensures Value() == Next(old(Value()), Start)
    {
      timer := Armed;
      receiver := Receiving;
    }

    method FireTimer()
      requires Enabled(Value(), TimerFires)
      modifies this
      ensures Value() == Next(old(Value()), TimerFires)
    {
      timer := Done;
      if rxEc.Some? {
        return;
      }
      rxEc := Some(TimedOut);
      socketOpen := false;
    }

    method NotifyAll()
      modifies this`linked, this`ready
      ensures Value() == Notify(old(Value()))
    {
      while linked != []
        invariant ready + linked == old(ready) + old(linked)
        decreases |linked|
      {
        ready := ready + [linked[0]];
        linked := linked[1..];
      }
    }

    /** A receive completes with a datagram, or with the error `code`. */
    method CompleteReceive(code: ErrorCode, datagram: string)
      requires receiver == Receiving
      modifies this
      ensures code == NoError ==> Value() == Next(old(Value()), Received(Data(ParseMessage(datagram))))
      ensures code != NoError ==> Value() == Next(old(Value()), Received(Failed(code)))
    {
      if rxEc.None? {
        if stopped {
          rxEc := Some(OperationAborted);
        } else if code != NoError {
          rxEc := Some(code);
        }
      }
      if rxEc.Some? {
        receiver := Exited;
        NotifyAll();
        return;
      }
      var r := ParseResponse(datagram);
      TakeIn(r);
    }

    /** The end of the loop body, for a datagram that was read. */
    method TakeIn(r: Elem)
      modifies this
      ensures Value() == Accept(old(Value()), r)
    {
      received := received + [r];
      if r.Ok? {
        if r.value.usn in seen {
          return;
        }
        seen := seen + {r.value.usn};
      }
      queue := queue + [r];
      NotifyAll();
    }

    method StopAll()
      requires Enabled(Value(), Stop)
      modifies this
      ensures Value() == Next(old(Value()), Stop)
    {
      stopped := true;
      socketOpen := false;
    }

    method PollOnce(id: Id)
      modifies this
      ensures Value() == Poll(old(Value()), id)
    {
      if queue == [] {
        if rxEc.Some? {
          results := results[id := Code(rxEc.value)];
        } else {
          linked := linked + [id];
        }
      } else {
        var r := queue[0];
        queue := queue[1..];
        popped := popped + [Delivery(id, r)];
        results := results[id := Unwrap(r)];
      }
    }

    /** A call runs until it returns or suspends. */
    method GetResponse(id: Id)
      requires Enabled(Value(), Call(id))
      modifies this
      ensures Value() == Next(old(Value()), Call(id))
    {
      if stopped {
        results := results[id := Code(OperationAborted)];
        return;
      }
      PollOnce(id);
    }

    /** A posted caller runs on after its wait. */
    method ResumeCaller(k: nat)
      requires Enabled(Value(), Resume(k))
      modifies this
      ensures Value() == Next(old(Value()), Resume(k))
    {
      var id := ready[k];
      ready := ready[..k] + ready[k + 1..];
      PollOnce(id);
    }
  }

  // ----- Which datagrams are accepted -----

  /** A datagram is kept if it did not parse, or if no earlier one had its USN. */
  predicate Kept(received: seq<Elem>, k: nat)
    requires k < |received|
  {
    received[k].Ok? ==> forall j :: 0 <= j < k && received[j].Ok? ==> received[j].value.usn != received[k].value.usn
  }

  /** The kept datagrams in order of arrival. */
  function Accepted(received: seq<Elem>): seq<Elem> {
    if received == [] then []
    else
      var n := |received| - 1;
      Accepted(received[..n]) + if Kept(received, n) then [received[n]] else []
  }

  function Elems(popped: seq<Delivery>): seq<Elem> {
    seq(|popped|, i requires 0 <= i < |popped| => popped[i].elem)
  }

  ghost predicate SeenIn(seen: set<string>, elems: seq<Elem>) {
    forall u :: u in seen <==> exists k :: 0 <= k < |elems| && elems[k].Ok? && elems[k].value.usn == u
  }

  lemma AcceptStep(received: seq<Elem>, e: Elem, seen: set<string>)
    requires SeenIn(seen, received)
    ensures var more := received + [e];
      if e.Ok? && e.value.usn in seen then Accepted(more) == Accepted(received) && SeenIn(seen, more)
      else Accepted(more) == Accepted(received) + [e] && SeenIn(if e.Ok? then seen + {e.value.usn} else seen, more)
  {
    var more := received + [e];
    assert more[..|received|] == received;
    assert Kept(more, |received|) <==> !(e.Ok? && e.value.usn in seen);
    assert Accepted(received) + [] == Accepted(received);
    assert more[|received|] == e;
    forall u ensures (exists k :: 0 <= k < |more| && more[k].Ok? && more[k].value.usn == u) <==>
      (e.Ok? && e.value.usn == u) || u in seen
    {
      if u in seen {
        var k :| 0 <= k < |received| && received[k].Ok? && received[k].value.usn == u;
        assert more[k] == received[k];
      }
    }
  }

  /** The USNs of the kept responses are the USNs of all responses received. */
  lemma {:induction false} AcceptedUsns(received: seq<Elem>, seen: set<string>)
    requires SeenIn(seen, received)
    ensures SeenIn(seen, Accepted(received))
  {
    if received == [] {
    } else {
      var n := |received| - 1;
      var front, e := received[..n], received[n];
      var seen' := set k | 0 <= k < n && front[k].Ok? :: front[k].value.usn;
      assert SeenIn(seen', front);
      AcceptedUsns(front, seen');
      AcceptStep(front, e, seen');
      assert front + [e] == received;
      var a, b := Accepted(front), Accepted(received);
      forall u ensures u in seen <==> exists k :: 0 <= k < |b| && b[k].Ok? && b[k].value.usn == u {
        if e.Ok? && e.value.usn in seen' {
          assert u in seen <==> u in seen';
        } else {
          assert b == a + [e];
          assert b[|a|] == e;
          assert u in seen <==> u in seen' || (e.Ok? && e.value.usn == u);
          if u in seen' {
            var k :| 0 <= k < |a| && a[k].Ok? && a[k].value.usn == u;
            assert b[k] == a[k];
          }
        }
      }
    }
  }

  // ----- The invariant -----

  ghost predicate Phases(s: State) {
    && (s.timer == Idle <==> s.receiver == NotStarted)
    && (s.receiver == Exited ==> s.rxEc.Some?)
    && (s.rxEc.Some? && s.receiver != Exited ==> s.rxEc == Some(TimedOut) && s.timer == Done)
    && (s.receiver == Receiving && s.timer == Done ==> !s.socketOpen)
    && (s.stopped ==> !s.socketOpen)
  }

  /** A suspended caller has nothing to take and somebody left to notify it. */
  ghost predicate NoLostWakeup(s: State) {
    s.linked != [] ==> s.queue == [] && s.receiver != Exited
  }

  ghost predicate Conserved(s: State) {
    && Elems(s.popped) + s.queue == Accepted(s.received)
    && SeenIn(s.seen, s.received)
  }

  /** An error code is returned only for `stop`, or when nothing is left to pop. */
  ghost predicate CodesJustified(s: State) {
    forall id :: id in s.results && s.results[id].Code? ==>
      (s.stopped && s.results[id].code == OperationAborted) ||
      (s.rxEc == Some(s.results[id].code) && s.queue == [])
  }

  /** Every popped element went to exactly one caller. */
  ghost predicate Delivered(s: State) {
    && (forall i :: 0 <= i < |s.popped| ==>
          s.popped[i].caller in s.results && s.results[s.popped[i].caller] == Unwrap(s.popped[i].elem))
    && (forall i, j :: 0 <= i < j < |s.popped| ==> s.popped[i].caller != s.popped[j].caller)
    && (forall id :: id in s.results && !s.results[id].Code? ==>
          exists i :: 0 <= i < |s.popped| && s.popped[i].caller == id)
  }

  /** A caller is suspended, posted or finished, and only one of these. */
  ghost predicate CallersApart(s: State) {
    && Distinct(s.linked + s.ready)
    && (forall id :: id in s.linked || id in s.ready ==> id !in s.results)
  }

  ghost predicate Inv(s: State) {
    Phases(s) && NoLostWakeup(s) && Conserved(s) && CodesJustified(s) && Delivered(s) && CallersApart(s)
  }

  lemma InvInit()
    ensures Inv(INIT)
  {
  }

  lemma NotifyKeepsApart(s: State)
    requires CallersApart(s)
    ensures CallersApart(Notify(s))
  {
    DistinctSwap(s.linked, s.ready);
    assert [] + (s.ready + s.linked) == s.ready + s.linked;
  }

  lemma DistinctSwap(a: seq<Id>, b: seq<Id>)
    requires Distinct(a + b)
    ensures Distinct(b + a)
  {
    var ab, ba := a + b, b + a;
    forall i, j | 0 <= i < j < |ba| ensures ba[i] != ba[j] {
      var i' := if i < |b| then i + |a| else i - |b|;
      var j' := if j < |b| then j + |a| else j - |b|;
      assert ab[i'] == ba[i] && ab[j'] == ba[j];
    }
  }

  lemma DeliveredPop(s: State, id: Id)
    requires Delivered(s) && id !in s.results && s.queue != []
    ensures Delivered(Poll(s, id))
  {
    var s', n := Poll(s, id), |s.popped|;
    assert s'.popped[n].caller == id;
    forall i | 0 <= i < n ensures s'.popped[i] == s.popped[i] && s.popped[i].caller != id {
      assert s.popped[i].caller in s.results;
    }
    forall x | x in s'.results && !s'.results[x].Code?
      ensures exists i :: 0 <= i < |s'.popped| && s'.popped[i].caller == x
    {
      if x != id {
        var i :| 0 <= i < n && s.popped[i].caller == x;
        assert s'.popped[i].caller == x;
      }
    }
  }

  lemma ConservedPop(s: State, id: Id)
    requires Conserved(s) && s.queue != []
    ensures Conserved(Poll(s, id))
  {
    var s' := Poll(s, id);
    assert Elems(s'.popped) == Elems(s.popped) + [s.queue[0]];
    assert Elems(s'.popped) + s'.queue == Elems(s.popped) + s.queue;
  }

  lemma InvPoll(s: State, id: Id)
    requires Inv(s) && id !in s.linked && id !in s.ready && id !in s.results
    ensures Inv(Poll(s, id))
  {
    if s.queue != [] {
      DeliveredPop(s, id);
      ConservedPop(s, id);
    } else if s.rxEc.None? {
      DistinctInsert(s.linked, s.ready, id);
    }
  }

  lemma DistinctInsert(a: seq<Id>, b: seq<Id>, id: Id)
    requires Distinct(a + b) && id !in a && id !in b
    ensures Distinct((a + [id]) + b)
  {
    var ab, more := a + b, (a + [id]) + b;
    forall i, j | 0 <= i < j < |more| ensures more[i] != more[j] {
      if i != |a| && j != |a| {
        var i' := if i < |a| then i else i - 1;
        var j' := if j < |a| then j else j - 1;
        assert ab[i'] == more[i] && ab[j'] == more[j];
      } else if i == |a| {
        assert more[j] == b[j - |a| - 1];
      } else {
        assert more[i] == a[i];
      }
    }
  }

  lemma DistinctRemove(a: seq<Id>, b: seq<Id>, k: nat)
    requires Distinct(a + b) && k < |b|
    ensures var rest := b[..k] + b[k + 1..];
      Distinct(a + rest) && b[k] !in a && b[k] !in rest && (forall x :: x in rest ==> x in b)
  {
    var ab, rest := a + b, b[..k] + b[k + 1..];
    var less := a + rest;
    forall i, j | 0 <= i < j < |less| ensures less[i] != less[j] {
      var i' := if i < |a| + k then i else i + 1;
      var j' := if j < |a| + k then j else j + 1;
      assert ab[i'] == less[i] && ab[j'] == less[j];
    }
    forall i | 0 <= i < |less| ensures less[i] != b[k] {
      var i' := if i < |a| + k then i else i + 1;
      assert ab[i'] == less[i] && ab[|a| + k] == b[k];
    }
    assert forall i :: 0 <= i < |a| ==> a[i] == less[i];
    assert forall i :: 0 <= i < |rest| ==> rest[i] == less[|a| + i];
  }

  lemma InvReceive(s: State, r: Reception)
    requires Inv(s) && Enabled(s, Received(r))
    ensures Inv(OnReceive(s, r))
  {
    NotifyKeepsApart(s);
    if s.rxEc.None? && !s.stopped && r.Data? {
      AcceptStep(s.received, r.elem, s.seen);
      assert Elems(s.popped) + (s.queue + [r.elem]) == Elems(s.popped) + s.queue + [r.elem];
    }
  }

  lemma InvWithout(s: State, k: nat)
    requires Inv(s) && k < |s.ready|
    ensures var s', id := s.(ready := s.ready[..k] + s.ready[k + 1..]), s.ready[k];
      Inv(s') && id !in s'.linked && id !in s'.ready && id !in s'.results
  {
    DistinctRemove(s.linked, s.ready, k);
  }

  lemma InvResume(s: State, k: nat)
    requires Inv(s) && Enabled(s, Resume(k))
    ensures Inv(Next(s, Resume(k)))
  {
    var s', id := s.(ready := s.ready[..k] + s.ready[k + 1..]), s.ready[k];
    InvWithout(s, k);
    InvPoll(s', id);
    ResumeIsPoll(s, k);
  }

  lemma ResumeIsPoll(s: State, k: nat)
    requires k < |s.ready|
    ensures Next(s, Resume(k)) == Poll(s.(ready := s.ready[..k] + s.ready[k + 1..]), s.ready[k])
  {
  }

  lemma InvStep(s: State, e: Event)
    requires Inv(s) && Enabled(s, e)
    ensures Inv(Next(s, e))
  {
    match e
    case Start =>
    case TimerFires =>
    case Received(r) => InvReceive(s, r);
    case Stop =>
    case Call(id) => if !s.stopped { InvPoll(s, id); }
    case Resume(k) => InvResume(s, k);
  }

  lemma {:induction false} InvRun(events: seq<Event>)
    requires Legal(events)
    ensures Inv(Run(events))
  {
    if events == [] {
      InvInit();
    } else {
      InvRun(events[..|events| - 1]);
      InvStep(Run(events[..|events| - 1]), events[|events| - 1]);
    }
  }
}
