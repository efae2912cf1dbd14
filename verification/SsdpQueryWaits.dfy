/** The callers of a query suspend in a `ConditionVariable`: every run of the query is a run of
    that wait list, so what holds for waiters holds for callers. */
module SsdpQueryWaits {
  import opened Options
  import opened Executor
  import opened SsdpQuery
  import W = WaitLists

  /** The caller that a step suspends. */
  function Suspends(s: State, e: Event): Option<Id> {
    if s.queue != [] || s.rxEc.Some? then None
    else
      match e
      case Call(id) => if s.stopped then None else Some(id)
      case Resume(k) => if k < |s.ready| then Some(s.ready[k]) else None
      case _ => None
  }

  /** Whether a step notifies: a kept datagram, or the exit of the receiver. */
  predicate Notifies(s: State, e: Event) {
    e.Received? &&
    (s.rxEc.Some? || s.stopped || e.r.Failed? || e.r.elem.Err? || e.r.elem.value.usn !in s.seen)
  }

  /** The posted entries whose coroutine does not run yet, in order. */
  function Pending(posts: seq<W.Post>, resumed: set<Id>): seq<Id> {
    if posts == [] then []
    else (if posts[0].id in resumed then [] else [posts[0].id]) + Pending(posts[1..], resumed)
  }

  /** What the wait list sees of a run; the caller of its k-th wait is `owners[k]`. */
  datatype Trace = Trace(events: seq<W.Event>, owners: seq<Id>)

  function Woken(w: W.State, e: Event): seq<W.Event> {
    var pending := Pending(w.posts, w.resumed);
    if e.Resume? && e.k < |pending| then [W.Resume(pending[e.k])] else []
  }

  function Extended(t: Trace, s: State, e: Event): Trace {
    var woken := t.events + Woken(W.Run(t.events), e);
    match Suspends(s, e)
    case Some(id) => Trace(woken + [W.Wait(|t.owners|)], t.owners + [id])
    case None => Trace(if Notifies(s, e) then woken + [W.Notify(NoError)] else woken, t.owners)
  }

  function Waits(events: seq<Event>): Trace {
    if events == [] then Trace([], [])
    else
      var before := events[..|events| - 1];
      Extended(Waits(before), Run(before), events[|events| - 1])
  }

  function Owned(owners: seq<Id>, entries: seq<Id>): (r: seq<Id>)
    ensures |r| == |entries|
  {
    seq(|entries|, i requires 0 <= i < |entries| => if entries[i] < |owners| then owners[entries[i]] else 0)
  }

  // ----- The state of the wait list and the state of the query -----

  ghost predicate Agree(w: W.State, owners: seq<Id>, linked: seq<Id>, ready: seq<Id>) {
    && W.Inv(w) && W.AtMostOnce(w) && !w.destroyed
    && (forall x: Id :: x in w.waits <==> x < |owners|)
    && (forall x :: x in w.resumed ==> W.Posted(w.posts, x))
    && Owned(owners, w.linked) == linked
    && Owned(owners, Pending(w.posts, w.resumed)) == ready
  }

  lemma {:induction false} PendingMembers(posts: seq<W.Post>, resumed: set<Id>, x: Id)
    ensures x in Pending(posts, resumed) <==> W.Posted(posts, x) && x !in resumed
  {
    if posts == [] {
    } else {
      PendingMembers(posts[1..], resumed, x);
      assert posts == [posts[0]] + posts[1..];
      if posts[0].id == x { assert posts[0] in posts; }
      if W.Posted(posts[1..], x) {
        var p :| p in posts[1..] && p.id == x;
        assert p in posts;
      }
    }
  }

  lemma {:induction false} PendingAppend(posts: seq<W.Post>, more: seq<W.Post>, resumed: set<Id>)
    ensures Pending(posts + more, resumed) == Pending(posts, resumed) + Pending(more, resumed)
  {
    if posts == [] {
      assert posts + more == more;
    } else {
      assert (posts + more)[1..] == posts[1..] + more;
      PendingAppend(posts[1..], more, resumed);
    }
  }

  lemma {:induction false} PendingPosted(ids: seq<Id>, resumed: set<Id>)
    requires forall x :: x in ids ==> x !in resumed
    ensures Pending(W.PostAll(ids, NoError), resumed) == ids
  {
    if ids == [] {
    } else {
      PendingPosted(ids[1..], resumed);
      assert W.PostAll(ids, NoError)[1..] == W.PostAll(ids[1..], NoError);
      assert ids[0] in ids;
    }
  }

  lemma {:induction false} PendingUnposted(posts: seq<W.Post>, resumed: set<Id>, x: Id)
    requires W.Count(posts, x) == 0
    ensures Pending(posts, resumed + {x}) == Pending(posts, resumed)
  {
    if posts == [] {
    } else {
      PendingUnposted(posts[1..], resumed, x);
    }
  }

  /** Resuming the k-th pending entry removes it and keeps the order of the others. */
  lemma {:induction false} PendingResumed(posts: seq<W.Post>, resumed: set<Id>, k: nat)
    requires k < |Pending(posts, resumed)| && W.Count(posts, Pending(posts, resumed)[k]) <= 1
    ensures var p := Pending(posts, resumed);
      Pending(posts, resumed + {p[k]}) == p[..k] + p[k + 1..]
    decreases |posts|, 1
  {
    var p, tail := Pending(posts, resumed), posts[1..];
    if posts[0].id in resumed {
      assert p == Pending(tail, resumed);
      PendingResumed(tail, resumed, k);
    } else if k == 0 {
      PendingUnposted(tail, resumed, p[0]);
    } else {
      PendingResumedLater(posts, resumed, k);
    }
  }

  lemma RemoveLater(first: Id, rest: seq<Id>, k: nat)
    requires 0 < k <= |rest|
    ensures var p := [first] + rest;
      [first] + (rest[..k - 1] + rest[k..]) == p[..k] + p[k + 1..]
  {
  }

  lemma {:induction false} PendingResumedLater(posts: seq<W.Post>, resumed: set<Id>, k: nat)
    requires 0 < k < |Pending(posts, resumed)| && W.Count(posts, Pending(posts, resumed)[k]) <= 1
    requires posts[0].id !in resumed
    ensures var p := Pending(posts, resumed);
      Pending(posts, resumed + {p[k]}) == p[..k] + p[k + 1..]
    decreases |posts|, 0
  {
    var p, rest, tail := Pending(posts, resumed), Pending(posts[1..], resumed), posts[1..];
    var x, first := p[k], posts[0].id;
    assert p == [first] + rest && x == rest[k - 1];
    assert W.Count(tail, x) > 0 by {
      PendingMembers(tail, resumed, x);
      W.CountPosted(tail, x);
    }
    PendingResumed(tail, resumed, k - 1);
    RemoveLater(first, rest, k);
  }

  // ----- The three moves of the wait list -----

  lemma OneMore(events: seq<W.Event>, e: W.Event)
    ensures W.Run(events + [e]) == W.Next(W.Run(events), e)
    ensures W.Legal(events + [e]) <==> W.Legal(events) && W.Enabled(W.Run(events), e)
  {
    assert (events + [e])[..|events|] == events;
  }

  lemma OwnedMore(owners: seq<Id>, id: Id, entries: seq<Id>)
    requires forall x :: x in entries ==> x < |owners|
    ensures Owned(owners + [id], entries) == Owned(owners, entries)
    ensures Owned(owners + [id], entries + [|owners|]) == Owned(owners, entries) + [id]
  {
    var more := owners + [id];
    forall i | 0 <= i < |entries| ensures Owned(more, entries)[i] == Owned(owners, entries)[i] {
      assert entries[i] in entries;
    }
    var longer := entries + [|owners|];
    forall i | 0 <= i < |longer| ensures Owned(more, longer)[i] == (Owned(owners, entries) + [id])[i] {
      assert i < |entries| ==> longer[i] == entries[i] && entries[i] in entries;
    }
  }

  lemma AgreeWait(w: W.State, owners: seq<Id>, linked: seq<Id>, ready: seq<Id>, id: Id)
    requires Agree(w, owners, linked, ready)
    ensures W.Enabled(w, W.Wait(|owners|))
    ensures Agree(W.Next(w, W.Wait(|owners|)), owners + [id], linked + [id], ready)
  {
    var e := W.Wait(|owners|);
    W.InvStep(w, e);
    OwnedMore(owners, id, w.linked);
    forall x | x in Pending(w.posts, w.resumed) ensures x < |owners| {
      PendingMembers(w.posts, w.resumed, x);
      W.CountPosted(w.posts, x);
    }
    OwnedMore(owners, id, Pending(w.posts, w.resumed));
  }

  lemma PendingAfterNotify(w: W.State)
    requires W.Inv(w) && forall x :: x in w.resumed ==> W.Posted(w.posts, x)
    ensures Pending(w.posts + W.PostAll(w.linked, NoError), w.resumed) == Pending(w.posts, w.resumed) + w.linked
  {
    forall x | x in w.linked ensures x !in w.resumed {
      assert W.Count(w.posts, x) == 0;
      W.CountPosted(w.posts, x);
    }
    PendingAppend(w.posts, W.PostAll(w.linked, NoError), w.resumed);
    PendingPosted(w.linked, w.resumed);
  }

  lemma PostedAfterNotify(w: W.State)
    requires W.Inv(w) && W.AtMostOnce(w)
    ensures var w' := W.Next(w, W.Notify(NoError));
      W.AtMostOnce(w') && forall x :: W.Posted(w.posts, x) ==> W.Posted(w'.posts, x)
  {
    var w' := W.Next(w, W.Notify(NoError));
    W.InvNotify(w, NoError);
    forall x ensures W.Count(w'.posts, x) <= 1 && (W.Posted(w.posts, x) ==> W.Posted(w'.posts, x)) {
      assert W.Count(w.posts, x) <= 1;
      W.CountPosted(w.posts, x);
      W.CountPosted(w'.posts, x);
    }
  }

  lemma AgreeNotify(w: W.State, owners: seq<Id>, linked: seq<Id>, ready: seq<Id>)
    requires Agree(w, owners, linked, ready)
    ensures W.Enabled(w, W.Notify(NoError))
    ensures Agree(W.Next(w, W.Notify(NoError)), owners, [], ready + linked)
  {
    W.InvNotify(w, NoError);
    PostedAfterNotify(w);
    PendingAfterNotify(w);
    var pending := Pending(w.posts, w.resumed);
    assert Owned(owners, pending + w.linked) == Owned(owners, pending) + Owned(owners, w.linked);
  }

  lemma AgreeResume(w: W.State, owners: seq<Id>, linked: seq<Id>, ready: seq<Id>, k: nat)
    requires Agree(w, owners, linked, ready) && k < |ready|
    ensures k < |Pending(w.posts, w.resumed)|
    ensures var e := W.Resume(Pending(w.posts, w.resumed)[k]);
      W.Enabled(w, e) && Agree(W.Next(w, e), owners, linked, ready[..k] + ready[k + 1..])
  {
    var pending := Pending(w.posts, w.resumed);
    var x := pending[k];
    assert W.Posted(w.posts, x) && x !in w.resumed by { PendingMembers(w.posts, w.resumed, x); }
    W.InvStep(w, W.Resume(x));
    assert W.Count(w.posts, x) <= 1;
    PendingResumed(w.posts, w.resumed, k);
    assert Owned(owners, pending[..k] + pending[k + 1..]) == ready[..k] + ready[k + 1..];
  }

  // ----- Every step -----

  ghost predicate Follows(t: Trace, s: State) {
    && W.Legal(t.events) && (forall e :: e in t.events ==> !e.Cancel?)
    && Agree(W.Run(t.events), t.owners, s.linked, s.ready)
  }

  function ReadyAfter(s: State, e: Event): seq<Id>
    requires Enabled(s, e)
  {
    if e.Resume? then s.ready[..e.k] + s.ready[e.k + 1..] else s.ready
  }

  lemma FollowsResume(t: Trace, s: State, e: Event)
    requires Follows(t, s) && Enabled(s, e)
    ensures var woken := t.events + Woken(W.Run(t.events), e);
      && W.Legal(woken) && (forall x :: x in woken ==> !x.Cancel?)
      && Agree(W.Run(woken), t.owners, s.linked, ReadyAfter(s, e))
  {
    var w := W.Run(t.events);
    if e.Resume? {
      AgreeResume(w, t.owners, s.linked, s.ready, e.k);
      OneMore(t.events, Woken(w, e)[0]);
    } else {
      assert t.events + [] == t.events;
    }
  }

  /** What a step does to the suspended and the posted callers. */
  lemma StepMoves(s: State, e: Event)
    requires Enabled(s, e)
    ensures Next(s, e).linked ==
      if Suspends(s, e).Some? then s.linked + [Suspends(s, e).value] else if Notifies(s, e) then [] else s.linked
    ensures Next(s, e).ready ==
      if Suspends(s, e).None? && Notifies(s, e) then ReadyAfter(s, e) + s.linked else ReadyAfter(s, e)
  {
  }

  lemma FollowsStep(t: Trace, s: State, e: Event)
    requires Follows(t, s) && Enabled(s, e)
    ensures Follows(Extended(t, s, e), Next(s, e))
  {
    var woken := t.events + Woken(W.Run(t.events), e);
    var ready := ReadyAfter(s, e);
    FollowsResume(t, s, e);
    StepMoves(s, e);
    if Suspends(s, e).Some? {
      AgreeWait(W.Run(woken), t.owners, s.linked, ready, Suspends(s, e).value);
      OneMore(woken, W.Wait(|t.owners|));
    } else if Notifies(s, e) {
      AgreeNotify(W.Run(woken), t.owners, s.linked, ready);
      OneMore(woken, W.Notify(NoError));
    }
  }

  lemma FollowsInit()
    ensures Follows(Waits([]), INIT)
  {
    assert W.Run([]) == W.INIT;
    forall id: Id ensures W.Count(W.INIT.posts, id) == 0 {
    }
    assert Owned([], []) == [];
    assert Pending([], {}) == [];
  }

  lemma {:induction false} FollowsRun(events: seq<Event>)
    requires Legal(events)
    ensures Follows(Waits(events), Run(events))
  {
    if events == [] {
      FollowsInit();
    } else {
      var before := events[..|events| - 1];
      FollowsRun(before);
      FollowsStep(Waits(before), Run(before), events[|events| - 1]);
    }
  }

  /** The wait list of the query: its callers are linked and posted exactly as its entries are,
      every event was possible, and none is a cancellation. */
  lemma QueryRunsItsWaitList(events: seq<Event>)
    requires Legal(events)
    ensures var t, s := Waits(events), Run(events);
      && W.Legal(t.events) && (forall e :: e in t.events ==> !e.Cancel?)
      && var w := W.Run(t.events);
      && (forall x: Id :: x in w.waits <==> x < |t.owners|)
      && Owned(t.owners, w.linked) == s.linked
      && Owned(t.owners, Pending(w.posts, w.resumed)) == s.ready
  {
    FollowsRun(events);
  }

  /** So no suspension of a caller is forgotten or resumed twice: its handler has been posted
      exactly once unless it is still linked, and once the receiver has exited none is. */
  lemma EverySuspensionIsPostedOnce(events: seq<Event>, entry: Id)
    requires Legal(events) && entry < |Waits(events).owners|
    ensures var w := W.Run(Waits(events).events);
      && W.Count(w.posts, entry) == (if entry in w.linked then 0 else 1)
      && (Run(events).receiver == Exited ==> W.Count(w.posts, entry) == 1)
  {
    QueryRunsItsWaitList(events);
    W.ExactlyOnceWithDummyCancel(Waits(events).events, entry);
    InvRun(events);
    if Run(events).receiver == Exited {
      assert W.Run(Waits(events).events).linked == [];
    }
  }
}
