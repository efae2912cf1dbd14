/** `ConditionVariable`: a list of waiters that notification and cancellation hand to the executor. */
module WaitLists {
  import opened Options
  import opened Executor

  /** A handler given to the executor: by a notification, or by the slot of a cancellation. */
  datatype Post = Post(id: Id, code: ErrorCode, byCancel: bool)

  /** `linked` is the wait list. `waits`, `posts` and `resumed` record what has happened:
      the wait calls in order, the posted handlers in order, the waiters that run again. */
  datatype State = State(linked: seq<Id>, waits: seq<Id>, posts: seq<Post>, resumed: set<Id>, destroyed: bool)

  datatype Event = Wait(id: Id) | Notify(code: ErrorCode) | Cancel(id: Id) | Resume(id: Id) | Destroy

  const INIT := State([], [], [], {}, false)

  function PostAll(ids: seq<Id>, code: ErrorCode): seq<Post> {
    if ids == [] then [] else [Post(ids[0], code, false)] + PostAll(ids[1..], code)
  }

  /** `unlink` of one entry. */
  function Without(ids: seq<Id>, id: Id): seq<Id> {
    if ids == [] then [] else if ids[0] == id then ids[1..] else [ids[0]] + Without(ids[1..], id)
  }

  function Next(s: State, e: Event): State {
    match e
    case Wait(id) => s.(linked := s.linked + [id], waits := s.waits + [id])
    case Notify(code) => s.(linked := [], posts := s.posts + PostAll(s.linked, code))
    case Cancel(id) =>
      s.(linked := Without(s.linked, id), posts := s.posts + [Post(id, OperationAborted, true)])
    case Resume(id) => s.(resumed := s.resumed + {id})
    case Destroy => s.(linked := [], posts := s.posts + PostAll(s.linked, OperationAborted), destroyed := true)
  }

  function CancelledIn(posts: seq<Post>): set<Id> {
    set p | p in posts && p.byCancel :: p.id
  }

  predicate Posted(posts: seq<Post>, id: Id) {
    exists p :: p in posts && p.id == id
  }

  /** What may happen next. Every wait has an entry of its own; its cancellation slot lives
      until the wait returns and is invoked at most once; a handler runs after it was posted. */
  predicate Enabled(s: State, e: Event) {
    match e
    case Wait(id) => id !in s.waits && !s.destroyed
    case Notify(_) => !s.destroyed
    case Cancel(id) => id in s.waits && id !in s.resumed && id !in CancelledIn(s.posts)
    case Resume(id) => Posted(s.posts, id) && id !in s.resumed
    case Destroy => !s.destroyed
  }

  function Run(events: seq<Event>): State {
    if events == [] then INIT else Next(Run(events[..|events| - 1]), events[|events| - 1])
  }

  predicate Legal(events: seq<Event>) {
    events != [] ==> Legal(events[..|events| - 1]) && Enabled(Run(events[..|events| - 1]), events[|events| - 1])
  }

  /** The assertion in the slot: a cancelled waiter is still linked. */
  predicate Asserted(s: State, e: Event) {
    e.Cancel? ==> e.id in s.linked
  }

  predicate Disciplined(events: seq<Event>) {
    events != [] ==> Disciplined(events[..|events| - 1]) && Asserted(Run(events[..|events| - 1]), events[|events| - 1])
  }

  // ----- The class -----

  class ConditionVariable {
    var linked: seq<Id>
    var waits: seq<Id>
    var posts: seq<Post>
    var resumed: set<Id>
    var destroyed: bool

    function Value(): State
      reads this
    {
      State(linked, waits, posts, resumed, destroyed)
    }

    constructor ()
      ensures Value() == INIT
    {
      linked, waits, posts, resumed, destroyed := [], [], [], {}, false;
    }

    /** Drains the list from the front; each entry is posted before it is popped. */
    method NotifyAll(code: ErrorCode)
      modifies this
      ensures Value() == Next(old(Value()), Notify(code))
    {
      while linked != []
        invariant posts + PostAll(linked, code) == old(posts) + PostAll(old(linked), code)
        invariant waits == old(waits) && resumed == old(resumed) && destroyed == old(destroyed)
        decreases |linked|
      {
        var e := linked[0];
        assert posts + PostAll(linked, code) == posts + [Post(e, code, false)] + PostAll(linked[1..], code);
        posts := posts + [Post(e, code, false)];
        linked := linked[1..];
      }
    }

    /** The part of `wait` before it suspends. */
    method BeginWait(id: Id)
      modifies this
      ensures Value() == Next(old(Value()), Wait(id))
    {
      linked := linked + [id];
      waits := waits + [id];
    }

    /** The slot `wait` connects to the cancellation; without assertions it posts even an
        entry that is no longer linked. */
    method CancelSlot(id: Id)
      modifies this
      ensures Value() == Next(old(Value()), Cancel(id))
    {
      if id in linked {
        linked := Without(linked, id);
      } else {
        WithoutAbsent(linked, id);
      }
      posts := posts + [Post(id, OperationAborted, true)];
    }

    /** The destructor. */
    method Close()
      modifies this
      ensures Value() == Next(old(Value()), Destroy)
    {
      NotifyAll(OperationAborted);
      destroyed := true;
    }
  }

  // ----- How often a waiter is posted -----

  function Count(posts: seq<Post>, id: Id): nat {
    if posts == [] then 0 else (if posts[0].id == id then 1 else 0) + Count(posts[1..], id)
  }

  lemma {:induction false} CountAppend(a: seq<Post>, b: seq<Post>, id: Id)
    ensures Count(a + b, id) == Count(a, id) + Count(b, id)
  {
    if a == [] {
      assert a + b == b;
    } else {
      assert (a + b)[1..] == a[1..] + b;
      CountAppend(a[1..], b, id);
    }
  }

  lemma {:induction false} CountPostAll(ids: seq<Id>, code: ErrorCode, id: Id)
    requires Distinct(ids)
    ensures Count(PostAll(ids, code), id) == if id in ids then 1 else 0
  {
    if ids == [] {
    } else {
      CountPostAll(ids[1..], code, id);
      assert ids == [ids[0]] + ids[1..];
      assert id == ids[0] ==> id !in ids[1..];
    }
  }

  lemma {:induction false} CountPosted(posts: seq<Post>, id: Id)
    ensures Count(posts, id) > 0 <==> Posted(posts, id)
  {
    if posts == [] {
    } else {
      CountPosted(posts[1..], id);
      assert posts == [posts[0]] + posts[1..];
      if posts[0].id == id { assert posts[0] in posts; }
      if Posted(posts[1..], id) {
        var p :| p in posts[1..] && p.id == id;
        assert p in posts;
      }
    }
  }

  lemma {:induction false} WithoutAbsent(ids: seq<Id>, id: Id)
    requires id !in ids
    ensures Without(ids, id) == ids
  {
    if ids == [] {
    } else {
      WithoutAbsent(ids[1..], id);
    }
  }

  lemma {:induction false} WithoutRemoves(ids: seq<Id>, id: Id)
    requires Distinct(ids)
    ensures Distinct(Without(ids, id))
    ensures forall x :: x in Without(ids, id) <==> x in ids && x != id
  {
    if ids == [] {
    } else {
      WithoutRemoves(ids[1..], id);
      assert ids == [ids[0]] + ids[1..];
      assert ids[0] !in ids[1..];
      var w := Without(ids[1..], id);
      if ids[0] != id {
        assert ids[0] !in w;
        assert forall x :: x in [ids[0]] + w <==> x == ids[0] || x in w;
      }
    }
  }

  /** What holds in every run, disciplined or not: the list holds waiters once, none of them
      posted, and every waiter that left it has been posted. */
  ghost predicate Inv(s: State) {
    && Distinct(s.linked) && Distinct(s.waits)
    && (forall id {:trigger Count(s.posts, id)} :: id in s.linked ==> id in s.waits && Count(s.posts, id) == 0)
    && (forall id {:trigger Count(s.posts, id)} :: id in s.waits && id !in s.linked ==> Count(s.posts, id) >= 1)
    && (forall id {:trigger Count(s.posts, id)} :: id !in s.waits ==> Count(s.posts, id) == 0)
    && (s.destroyed ==> s.linked == [])
  }

  lemma InvNotify(s: State, code: ErrorCode)
    requires Inv(s)
    ensures Inv(Next(s, Notify(code)))
    ensures forall id :: Count(Next(s, Notify(code)).posts, id) == Count(s.posts, id) + if id in s.linked then 1 else 0
  {
    forall id: Id
      ensures Count(s.posts + PostAll(s.linked, code), id) == Count(s.posts, id) + if id in s.linked then 1 else 0
    {
      CountAppend(s.posts, PostAll(s.linked, code), id);
      CountPostAll(s.linked, code, id);
    }
  }

  lemma InvCancel(s: State, id: Id)
    requires Inv(s) && id in s.waits
    ensures Inv(Next(s, Cancel(id)))
    ensures forall x :: Count(Next(s, Cancel(id)).posts, x) == Count(s.posts, x) + if x == id then 1 else 0
  {
    WithoutRemoves(s.linked, id);
    var p := Post(id, OperationAborted, true);
    forall x: Id ensures Count(s.posts + [p], x) == Count(s.posts, x) + if x == id then 1 else 0 {
      CountAppend(s.posts, [p], x);
    }
    forall x | x in Without(s.linked, id) ensures x in s.waits && Count(s.posts, x) == 0 {
      assert Count(s.posts, x) == 0;
    }
  }

  lemma InvStep(s: State, e: Event)
    requires Inv(s) && Enabled(s, e)
    ensures Inv(Next(s, e))
    ensures forall id :: (Count(Next(s, e).posts, id) ==
      Count(s.posts, id) + (if ((e.Notify? || e.Destroy?) && id in s.linked) || e == Cancel(id) then 1 else 0))
  {
    match e
    case Wait(id) =>
      assert Count(s.posts, id) == 0;
      assert id !in s.linked;
    case Notify(code) => InvNotify(s, code);
    case Cancel(id) => InvCancel(s, id);
    case Resume(id) =>
    case Destroy => InvNotify(s, OperationAborted);
  }

  lemma {:induction false} InvRun(events: seq<Event>)
    requires Legal(events)
    ensures Inv(Run(events))
  {
    if events == [] {
    } else {
      InvRun(events[..|events| - 1]);
      InvStep(Run(events[..|events| - 1]), events[|events| - 1]);
    }
  }

  ghost predicate AtMostOnce(s: State) {
    forall id :: Count(s.posts, id) <= 1
  }

  /** No handler is ever posted twice if and only if no cancellation reaches a waiter that was
      notified and has not resumed, that is, if and only if the assertion never fails. */
  lemma {:induction false} PostedOnceIffAsserted(events: seq<Event>)
    requires Legal(events)
    ensures AtMostOnce(Run(events)) <==> Disciplined(events)
  {
    if events == [] {
    } else {
      var before, e := events[..|events| - 1], events[|events| - 1];
      var s := Run(before);
      PostedOnceIffAsserted(before);
      InvRun(before);
      InvStep(s, e);
      if !AtMostOnce(s) {
        var id :| Count(s.posts, id) > 1;
        assert Count(Run(events).posts, id) > 1;
      } else if !Asserted(s, e) {
        assert Count(Run(events).posts, e.id) >= 2;
      }
    }
  }

  /** In a disciplined run every waiter is either linked and unposted or unlinked and posted
      exactly once; after the destructor every one has been posted exactly once. */
  lemma ExactlyOnce(events: seq<Event>, id: Id)
    requires Legal(events) && Disciplined(events) && id in Run(events).waits
    ensures var s := Run(events);
      && Count(s.posts, id) == (if id in s.linked then 0 else 1)
      && (s.destroyed ==> Count(s.posts, id) == 1)
  {
    InvRun(events);
    PostedOnceIffAsserted(events);
    assert Count(Run(events).posts, id) >= 0;
  }

  lemma {:induction false} NoCancelIsDisciplined(events: seq<Event>)
    requires forall e :: e in events ==> !e.Cancel?
    ensures Disciplined(events)
  {
    if events == [] {
    } else {
      NoCancelIsDisciplined(events[..|events| - 1]);
    }
  }

  /** With the dummy cancellation the SSDP query waits with, exactly once is unconditional. */
  lemma ExactlyOnceWithDummyCancel(events: seq<Event>, id: Id)
    requires Legal(events) && (forall e :: e in events ==> !e.Cancel?) && id in Run(events).waits
    ensures Count(Run(events).posts, id) == (if id in Run(events).linked then 0 else 1)
  {
    NoCancelIsDisciplined(events);
    ExactlyOnce(events, id);
  }

  // ----- With which code -----

  /** The code with which an event releases a waiter that is linked. */
  function Releasing(e: Event, id: Id): Option<ErrorCode> {
    match e
    case Notify(code) => Some(code)
    case Cancel(x) => if x == id then Some(OperationAborted) else None
    case Destroy => Some(OperationAborted)
    case _ => None
  }

  /** The code of the first event after its wait that releases the waiter. */
  function ReleaseCode(events: seq<Event>, id: Id): Option<ErrorCode> {
    if events == [] then None
    else
      var before, e := events[..|events| - 1], events[|events| - 1];
      if ReleaseCode(before, id).Some? then ReleaseCode(before, id)
      else if Wait(id) in before then Releasing(e, id)
      else None
  }

  lemma {:induction false} WaitsWereEvents(events: seq<Event>, id: Id)
    ensures id in Run(events).waits <==> Wait(id) in events
  {
    if events == [] {
    } else {
      var before, e := events[..|events| - 1], events[|events| - 1];
      WaitsWereEvents(before, id);
      assert events == before + [e];
    }
  }

  lemma PostedByNotify(ids: seq<Id>, code: ErrorCode, p: Post)
    requires p in PostAll(ids, code)
    ensures p.id in ids && p.code == code
  {
    if p != Post(ids[0], code, false) { PostedByNotify(ids[1..], code, p); }
  }

  ghost predicate CodesAgree(s: State, events: seq<Event>) {
    && (forall id :: id in s.linked ==> ReleaseCode(events, id).None?)
    && (forall p :: p in s.posts ==> ReleaseCode(events, p.id) == Some(p.code))
  }

  lemma CodesStep(s: State, before: seq<Event>, e: Event, events: seq<Event>)
    requires Inv(s) && Enabled(s, e) && Asserted(s, e) && CodesAgree(s, before)
    requires events == before + [e] && forall id :: id in s.waits <==> Wait(id) in before
    requires forall id :: id !in s.waits ==> ReleaseCode(before, id).None?
    ensures CodesAgree(Next(s, e), events)
    ensures forall id :: id !in Next(s, e).waits ==> ReleaseCode(events, id).None?
  {
    var s' := Next(s, e);
    assert events[..|events| - 1] == before && events[|events| - 1] == e;
    forall p | p in s'.posts ensures ReleaseCode(events, p.id) == Some(p.code) {
      if p !in s.posts {
        NewPost(s, e, p);
        assert Count(s.posts, p.id) == 0;
      }
    }
    forall id | id in s'.linked ensures ReleaseCode(events, id).None? {
      StaysLinked(s, e, id);
    }
  }

  lemma NewPost(s: State, e: Event, p: Post)
    requires Enabled(s, e) && Asserted(s, e) && p in Next(s, e).posts && p !in s.posts
    ensures p.id in s.linked && Releasing(e, p.id) == Some(p.code)
  {
    match e
    case Notify(code) => PostedByNotify(s.linked, code, p);
    case Cancel(_) =>
    case Destroy => PostedByNotify(s.linked, OperationAborted, p);
    case _ =>
  }

  lemma StaysLinked(s: State, e: Event, id: Id)
    requires Inv(s) && id in Next(s, e).linked
    ensures e == Wait(id) || (id in s.linked && Releasing(e, id).None?)
  {
    if e.Cancel? { WithoutRemoves(s.linked, e.id); }
  }

  lemma {:induction false} CodesRun(events: seq<Event>)
    requires Legal(events) && Disciplined(events)
    ensures CodesAgree(Run(events), events)
    ensures forall id :: id !in Run(events).waits ==> ReleaseCode(events, id).None?
  {
    if events == [] {
    } else {
      var before, e := events[..|events| - 1], events[|events| - 1];
      CodesRun(before);
      InvRun(before);
      forall id: Id ensures id in Run(before).waits <==> Wait(id) in before { WaitsWereEvents(before, id); }
      assert events == before + [e];
      CodesStep(Run(before), before, e, events);
    }
  }

  /** In a disciplined run a waiter is posted with the code of the first event after its wait that
      releases it: the notifier's code, or an abort by its cancellation or the destructor. It is
      linked as long as there is none. */
  lemma PostedWithItsCode(events: seq<Event>, id: Id)
    requires Legal(events) && Disciplined(events) && id in Run(events).waits
    ensures var s, code := Run(events), ReleaseCode(events, id);
      && (id in s.linked <==> code.None?)
      && forall p :: p in s.posts && p.id == id ==> code == Some(p.code)
  {
    CodesRun(events);
    ExactlyOnce(events, id);
    CountPosted(Run(events).posts, id);
  }

  // ----- First come, first notified -----

  function NotCancelled(ids: seq<Id>, cancelled: set<Id>): seq<Id> {
    if ids == [] then []
    else NotCancelled(ids[..|ids| - 1], cancelled) + (if ids[|ids| - 1] in cancelled then [] else [ids[|ids| - 1]])
  }

  function Notified(posts: seq<Post>): seq<Id> {
    if posts == [] then []
    else Notified(posts[..|posts| - 1]) + (if posts[|posts| - 1].byCancel then [] else [posts[|posts| - 1].id])
  }

  lemma NotifiedOne(posts: seq<Post>, p: Post)
    ensures Notified(posts + [p]) == Notified(posts) + if p.byCancel then [] else [p.id]
  {
    assert (posts + [p])[..|posts|] == posts;
  }

  lemma PostAllStep(posts: seq<Post>, ids: seq<Id>, code: ErrorCode)
    requires ids != []
    ensures posts + PostAll(ids, code) == (posts + [Post(ids[0], code, false)]) + PostAll(ids[1..], code)
  {
  }

  lemma {:induction false} NotifiedAppend(posts: seq<Post>, ids: seq<Id>, code: ErrorCode)
    ensures Notified(posts + PostAll(ids, code)) == Notified(posts) + ids
    decreases |ids|
  {
    if ids == [] {
      assert posts + PostAll(ids, code) == posts;
    } else {
      var p := Post(ids[0], code, false);
      PostAllStep(posts, ids, code);
      NotifiedAppend(posts + [p], ids[1..], code);
      NotifiedOne(posts, p);
      FirstBack(Notified(posts), ids);
    }
  }

  lemma FirstBack(a: seq<Id>, ids: seq<Id>)
    requires ids != []
    ensures a + [ids[0]] + ids[1..] == a + ids
  {
  }

  lemma {:induction false} NotifyCancelsNone(ids: seq<Id>, code: ErrorCode)
    ensures forall p :: p in PostAll(ids, code) ==> !p.byCancel
  {
    if ids == [] {
    } else {
      NotifyCancelsNone(ids[1..], code);
    }
  }

  lemma CancelledAppend(posts: seq<Post>, ids: seq<Id>, code: ErrorCode)
    ensures CancelledIn(posts + PostAll(ids, code)) == CancelledIn(posts)
  {
    NotifyCancelsNone(ids, code);
    var more := posts + PostAll(ids, code);
    assert forall p :: p in more <==> p in posts || p in PostAll(ids, code);
  }

  lemma {:induction false} NotCancelledMembers(ids: seq<Id>, cancelled: set<Id>)
    requires Distinct(ids)
    ensures Distinct(NotCancelled(ids, cancelled))
    ensures forall x :: x in NotCancelled(ids, cancelled) <==> x in ids && x !in cancelled
  {
    if ids == [] {
    } else {
      var front, last := ids[..|ids| - 1], ids[|ids| - 1];
      NotCancelledMembers(front, cancelled);
      assert ids == front + [last];
      assert last !in front;
    }
  }

  lemma {:induction false} NotCancelledMore(ids: seq<Id>, cancelled: set<Id>, id: Id)
    requires Distinct(ids)
    ensures NotCancelled(ids, cancelled + {id}) == Without(NotCancelled(ids, cancelled), id)
  {
    if ids == [] {
    } else {
      var front, last := ids[..|ids| - 1], ids[|ids| - 1];
      NotCancelledMore(front, cancelled, id);
      NotCancelledMembers(front, cancelled);
      assert last !in front;
      var a, b := NotCancelled(front, cancelled), NotCancelled(front, cancelled + {id});
      assert a + [] == a && b + [] == b;
      if last !in cancelled {
        WithoutAppend(NotCancelled(front, cancelled), last, id);
      }
    }
  }

  lemma {:induction false} WithoutAppend(ids: seq<Id>, last: Id, id: Id)
    requires last !in ids
    ensures Without(ids + [last], id) == Without(ids, id) + (if last == id then [] else [last])
  {
    if ids == [] {
      assert [last][1..] == [];
    } else {
      assert (ids + [last])[1..] == ids[1..] + [last];
      if ids[0] != id { WithoutAppend(ids[1..], last, id); }
    }
  }

  lemma {:induction false} WithoutSecond(a: seq<Id>, b: seq<Id>, id: Id)
    requires id !in a
    ensures Without(a + b, id) == a + Without(b, id)
  {
    if a == [] {
      assert a + b == b;
    } else {
      assert (a + b)[1..] == a[1..] + b;
      WithoutSecond(a[1..], b, id);
    }
  }

  predicate InOrder(s: State) {
    NotCancelled(s.waits, CancelledIn(s.posts)) == Notified(s.posts) + s.linked
  }

  lemma CancelledMore(posts: seq<Post>, p: Post)
    requires p.byCancel
    ensures CancelledIn(posts + [p]) == CancelledIn(posts) + {p.id}
    ensures Notified(posts + [p]) == Notified(posts)
  {
    var more := posts + [p];
    assert more[..|posts|] == posts;
    assert p in more;
    forall x | x in CancelledIn(posts) ensures x in CancelledIn(more) {
      var q :| q in posts && q.byCancel && q.id == x;
      assert q in more;
    }
  }

  lemma SplitDistinct(all: seq<Id>, a: seq<Id>, b: seq<Id>, id: Id)
    requires all == a + b && Distinct(all) && id in b
    ensures id !in a
  {
    var j :| 0 <= j < |b| && b[j] == id;
    assert all[|a| + j] == id;
    forall i | 0 <= i < |a| ensures a[i] != id {
      assert all[i] == a[i];
    }
  }

  lemma InOrderCancel(s: State, id: Id)
    requires Inv(s) && InOrder(s) && id in s.linked
    ensures InOrder(Next(s, Cancel(id)))
  {
    var cancelled := CancelledIn(s.posts);
    CancelledMore(s.posts, Post(id, OperationAborted, true));
    NotCancelledMore(s.waits, cancelled, id);
    NotCancelledMembers(s.waits, cancelled);
    SplitDistinct(NotCancelled(s.waits, cancelled), Notified(s.posts), s.linked, id);
    WithoutSecond(Notified(s.posts), s.linked, id);
  }

  lemma InOrderStep(s: State, e: Event)
    requires Inv(s) && InOrder(s) && Enabled(s, e) && Asserted(s, e)
    ensures InOrder(Next(s, e))
  {
    match e
    case Wait(id) =>
      assert (s.waits + [id])[..|s.waits|] == s.waits;
      CancelledWerePosted(s.posts, id);
      assert Count(s.posts, id) == 0;
      CountPosted(s.posts, id);
      assert Notified(s.posts) + (s.linked + [id]) == Notified(s.posts) + s.linked + [id];
    case Notify(code) =>
      NotifiedAppend(s.posts, s.linked, code);
      CancelledAppend(s.posts, s.linked, code);
    case Cancel(id) => InOrderCancel(s, id);
    case Resume(id) =>
    case Destroy =>
      NotifiedAppend(s.posts, s.linked, OperationAborted);
      CancelledAppend(s.posts, s.linked, OperationAborted);
  }

  lemma CancelledWerePosted(posts: seq<Post>, id: Id)
    ensures id in CancelledIn(posts) ==> Posted(posts, id)
  {
  }

  /** Over every disciplined run the notified waiters, followed by those still linked, are the
      waiters that were not cancelled, in the order in which they began to wait. */
  lemma {:induction false} FirstComeFirstNotified(events: seq<Event>)
    requires Legal(events) && Disciplined(events)
    ensures var s := Run(events);
      NotCancelled(s.waits, CancelledIn(s.posts)) == Notified(s.posts) + s.linked
  {
    if events == [] {
    } else {
      var before := events[..|events| - 1];
      FirstComeFirstNotified(before);
      InvRun(before);
      InOrderStep(Run(before), events[|events| - 1]);
    }
  }
}
