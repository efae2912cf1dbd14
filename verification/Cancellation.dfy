/** `cancel_t`: firing runs the slots of all linked connections, and a slot may fire a child. */
module Cancellation {
  import opened Executor

  type Node = nat
  type Conn = nat

  // ----- Lists of connections -----

  function Flat(lists: seq<seq<Conn>>): seq<Conn> {
    if lists == [] then [] else lists[0] + Flat(lists[1..])
  }

  function Total(lists: seq<seq<Conn>>): nat {
    |Flat(lists)|
  }

  lemma {:induction false} TotalUpdate(lists: seq<seq<Conn>>, n: Node, x: seq<Conn>)
    requires n < |lists|
    ensures Total(lists[n := x]) + |lists[n]| == Total(lists) + |x|
  {
    var more := lists[n := x];
    if n == 0 {
      assert more[1..] == lists[1..];
    } else {
      assert more[1..] == lists[1..][n - 1 := x];
      TotalUpdate(lists[1..], n - 1, x);
    }
  }

  /** How often a connection is listed. */
  function Times(s: seq<Conn>, c: Conn): nat {
    multiset(s)[c]
  }

  lemma TimesAppend(a: seq<Conn>, b: seq<Conn>, c: Conn)
    ensures Times(a + b, c) == Times(a, c) + Times(b, c)
  {
  }

  lemma {:induction false} TimesUpdate(lists: seq<seq<Conn>>, n: Node, x: seq<Conn>, c: Conn)
    requires n < |lists|
    ensures Times(Flat(lists[n := x]), c) + Times(lists[n], c) == Times(Flat(lists), c) + Times(x, c)
  {
    var more := lists[n := x];
    TimesAppend(more[0], Flat(more[1..]), c);
    TimesAppend(lists[0], Flat(lists[1..]), c);
    if n == 0 {
      assert more[1..] == lists[1..];
    } else {
      assert more[1..] == lists[1..][n - 1 := x];
      TimesUpdate(lists[1..], n - 1, x, c);
    }
  }

  // ----- Firing, as a function -----

  /** For every `cancel_t` its linked connections in order, and its call count. */
  datatype Forest = Forest(lists: seq<seq<Conn>>, calls: seq<nat>)

  /** `child` says which connections have the slot "fire that `cancel_t`"; the others run user code. */
  predicate WellFormed(child: map<Conn, Node>, f: Forest) {
    |f.calls| == |f.lists| && forall c :: c in child ==> child[c] < |f.lists|
  }

  function Detach(f: Forest, n: Node): Forest
    requires n < |f.lists| == |f.calls|
  {
    Forest(f.lists[n := []], f.calls[n := f.calls[n] + 1])
  }

  /** `operator()`: what is linked afterwards, and the connections whose slots ran, in order. */
  function Fire(child: map<Conn, Node>, f: Forest, n: Node): (r: (Forest, seq<Conn>))
    requires WellFormed(child, f) && n < |f.lists|
    ensures |r.0.lists| == |f.lists| && WellFormed(child, r.0) && Total(r.0.lists) + |f.lists[n]| <= Total(f.lists)
    decreases Total(f.lists), 1
  {
    TotalUpdate(f.lists, n, []);
    RunSlots(child, Detach(f, n), f.lists[n])
  }

  /** What the slot of one connection fires. */
  function RunOne(child: map<Conn, Node>, f: Forest, c: Conn): (r: (Forest, seq<Conn>))
    requires WellFormed(child, f)
    ensures |r.0.lists| == |f.lists| && WellFormed(child, r.0) && Total(r.0.lists) <= Total(f.lists)
    decreases Total(f.lists), 2
  {
    if c in child then Fire(child, f, child[c]) else (f, [])
  }

  /** The loop over the detached connections. */
  function RunSlots(child: map<Conn, Node>, f: Forest, list: seq<Conn>): (r: (Forest, seq<Conn>))
    requires WellFormed(child, f)
    ensures |r.0.lists| == |f.lists| && WellFormed(child, r.0) && Total(r.0.lists) <= Total(f.lists)
    decreases Total(f.lists) + |list|, 0
  {
    if list == [] then (f, [])
    else
      var c := list[0];
      var (f1, log1) := RunOne(child, f, c);
      var (f2, log2) := RunSlots(child, f1, list[1..]);
      (f2, [c] + log1 + log2)
  }

  /** The same with the log so far. */
  function Logged(child: map<Conn, Node>, f: Forest, list: seq<Conn>, log: seq<Conn>): (Forest, seq<Conn>)
    requires WellFormed(child, f)
  {
    var (f', more) := RunSlots(child, f, list);
    (f', log + more)
  }

  lemma Regroup(a: seq<Conn>, b: seq<Conn>, c: seq<Conn>, d: seq<Conn>)
    ensures a + (b + c + d) == a + b + c + d && a + [] == a
  {
  }

  /** One turn of that loop. */
  lemma UnrollSlots(child: map<Conn, Node>, f: Forest, list: seq<Conn>, log: seq<Conn>)
    requires WellFormed(child, f) && list != []
    ensures var (f1, log1) := RunOne(child, f, list[0]);
      Logged(child, f, list, log) == Logged(child, f1, list[1..], log + [list[0]] + log1)
  {
    var (f1, log1) := RunOne(child, f, list[0]);
    Regroup(log, [list[0]], log1, RunSlots(child, f1, list[1..]).1);
  }

  lemma NothingToRun(child: map<Conn, Node>, f: Forest, log: seq<Conn>)
    requires WellFormed(child, f)
    ensures Logged(child, f, [], log) == (f, log)
  {
    assert log + [] == log;
  }

  // ----- The objects -----

  class CancelTree {
    var lists: seq<seq<Conn>>
    var calls: seq<nat>
    var child: map<Conn, Node>
    /** A connection's call count is the number of times it is listed here. */
    var fired: seq<Conn>

    function Value(): Forest
      reads this
    {
      Forest(lists, calls)
    }

    method Call(n: Node)
      requires WellFormed(child, Value()) && n < |lists|
      modifies this`lists, this`calls, this`fired
      ensures (Value(), fired) == (Fire(child, old(Value()), n).0, old(fired) + Fire(child, old(Value()), n).1)
      decreases Total(lists), 1
    {
      calls := calls[n := calls[n] + 1];
      var connections := lists[n];
      TotalUpdate(lists, n, []);
      lists := lists[n := []];
      ghost var whole := Logged(child, Value(), connections, fired);
      var i := 0;
      assert connections[0..] == connections;
      while i < |connections|
        invariant i <= |connections| && |lists| == |old(lists)| && WellFormed(child, Value())
        invariant Total(lists) + |connections| <= Total(old(lists))
        invariant Logged(child, Value(), connections[i..], fired) == whole
      {
        UnrollSlots(child, Value(), connections[i..], fired);
        assert connections[i..][1..] == connections[i + 1..];
        CallSlot(connections[i]);
        i := i + 1;
      }
      NothingToRun(child, Value(), fired);
    }

    /** The slot of one connection. */
    method CallSlot(c: Conn)
      requires WellFormed(child, Value())
      modifies this`lists, this`calls, this`fired
      ensures var (f1, log1) := RunOne(child, old(Value()), c);
        Value() == f1 && fired == old(fired) + [c] + log1
      decreases Total(lists), 2
    {
      fired := fired + [c];
      if c in child {
        Call(child[c]);
      }
    }

    /** `connect`, also used by the constructor from a parent, whose slot then fires `target`. */
    method Connect(n: Node, c: Conn, fires: bool, target: Node)
      requires WellFormed(child, Value()) && n < |lists| && target < |lists| && c !in child
      modifies this`lists, this`child
      ensures lists == old(lists)[n := old(lists)[n] + [c]]
      ensures child == if fires then old(child)[c := target] else old(child)
      ensures WellFormed(child, Value())
    {
      if fires {
        child := child[c := target];
      }
      lists := lists[n := lists[n] + [c]];
    }
  }

  // ----- Exactly once -----

  lemma {:induction false} FireConserves(child: map<Conn, Node>, f: Forest, n: Node, c: Conn)
    requires WellFormed(child, f) && n < |f.lists|
    ensures var (f', log) := Fire(child, f, n);
      Times(Flat(f'.lists), c) + Times(log, c) == Times(Flat(f.lists), c)
    decreases Total(f.lists), 1
  {
    TotalUpdate(f.lists, n, []);
    TimesUpdate(f.lists, n, [], c);
    RunSlotsConserves(child, Detach(f, n), f.lists[n], c);
  }

  lemma {:induction false} RunSlotsConserves(child: map<Conn, Node>, f: Forest, list: seq<Conn>, c: Conn)
    requires WellFormed(child, f)
    ensures var (f', log) := RunSlots(child, f, list);
      Times(Flat(f'.lists), c) + Times(log, c) == Times(Flat(f.lists), c) + Times(list, c)
    decreases Total(f.lists) + |list|, 0
  {
    if list == [] {
    } else {
      var x := list[0];
      var (f1, log1) := RunOne(child, f, x);
      var log2 := RunSlots(child, f1, list[1..]).1;
      if x in child { FireConserves(child, f, child[x], c); }
      RunSlotsConserves(child, f1, list[1..], c);
      assert list == [x] + list[1..];
      TimesAppend([x], list[1..], c);
      TimesAppend([x], log1, c);
      TimesAppend([x] + log1, log2, c);
    }
  }

  /** The connections under those of `set`: whatever is linked to a child that a member fires. */
  ghost predicate Closed(child: map<Conn, Node>, lists: seq<seq<Conn>>, members: set<Conn>)
    requires forall c :: c in child ==> child[c] < |lists|
  {
    forall c, d :: c in members && c in child && d in lists[child[c]] ==> d in members
  }

  function Members(log: seq<Conn>): set<Conn> {
    set c | c in log
  }

  /** Lists are either left alone or emptied into the log. */
  ghost predicate Drained(f: Forest, f': Forest, log: seq<Conn>)
    requires |f'.lists| == |f.lists|
  {
    forall k :: 0 <= k < |f.lists| ==>
      f'.lists[k] == f.lists[k] || (f'.lists[k] == [] && forall d :: d in f.lists[k] ==> d in log)
  }

  lemma {:induction false} FireIsClosed(child: map<Conn, Node>, f: Forest, n: Node)
    requires WellFormed(child, f) && n < |f.lists|
    ensures var (f', log) := Fire(child, f, n);
      && (forall d :: d in f.lists[n] ==> d in log) && f'.lists[n] == []
      && Closed(child, f.lists, Members(log)) && Drained(f, f', log)
    decreases Total(f.lists), 1
  {
    TotalUpdate(f.lists, n, []);
    RunSlotsIsClosed(child, Detach(f, n), f.lists[n]);
  }

  lemma {:induction false} RunSlotsIsClosed(child: map<Conn, Node>, f: Forest, list: seq<Conn>)
    requires WellFormed(child, f)
    ensures var (f', log) := RunSlots(child, f, list);
      && (forall d :: d in list ==> d in log)
      && Closed(child, f.lists, Members(log)) && Drained(f, f', log)
    decreases Total(f.lists) + |list|, 0
  {
    if list == [] {
    } else {
      var c := list[0];
      var (f1, log1) := RunOne(child, f, c);
      var (f2, log2) := RunSlots(child, f1, list[1..]);
      if c in child { FireIsClosed(child, f, child[c]); }
      RunSlotsIsClosed(child, f1, list[1..]);
      assert list == [c] + list[1..];
      ClosedTogether(child, f, f1, f2, c, log1, log2);
    }
  }

  lemma ClosedTogether(child: map<Conn, Node>, f: Forest, f1: Forest, f2: Forest,
                       c: Conn, log1: seq<Conn>, log2: seq<Conn>)
    requires WellFormed(child, f) && |f1.lists| == |f.lists| == |f2.lists|
    requires c in child ==> forall d :: d in f.lists[child[c]] ==> d in log1
    requires Closed(child, f.lists, Members(log1)) && Drained(f, f1, log1)
    requires Closed(child, f1.lists, Members(log2)) && Drained(f1, f2, log2)
    ensures var log := [c] + log1 + log2;
      Closed(child, f.lists, Members(log)) && Drained(f, f2, log)
  {
    var log := [c] + log1 + log2;
    assert forall d :: d in log <==> d == c || d in log1 || d in log2;
    forall x, d | x in Members(log) && x in child && d in f.lists[child[x]] ensures d in Members(log) {
      if x in log1 {
        assert x in Members(log1) && d in Members(log1);
      } else if x != c {
        assert x in Members(log2);
        if f1.lists[child[x]] == f.lists[child[x]] {
          assert d in Members(log2);
        }
      }
    }
  }

  lemma {:induction false} FireIsLeast(child: map<Conn, Node>, f: Forest, n: Node, bound: set<Conn>)
    requires WellFormed(child, f) && n < |f.lists|
    requires Closed(child, f.lists, bound) && forall d :: d in f.lists[n] ==> d in bound
    ensures Members(Fire(child, f, n).1) <= bound
    decreases Total(f.lists), 1
  {
    TotalUpdate(f.lists, n, []);
    RunSlotsIsLeast(child, Detach(f, n), f.lists[n], bound);
  }

  lemma {:induction false} RunSlotsIsLeast(child: map<Conn, Node>, f: Forest, list: seq<Conn>, bound: set<Conn>)
    requires WellFormed(child, f)
    requires Closed(child, f.lists, bound) && forall d :: d in list ==> d in bound
    ensures Members(RunSlots(child, f, list).1) <= bound
    decreases Total(f.lists) + |list|, 0
  {
    if list == [] {
    } else {
      var c := list[0];
      var (f1, log1) := RunOne(child, f, c);
      if c in child {
        assert forall d :: d in f.lists[child[c]] ==> d in bound;
        FireIsLeast(child, f, child[c], bound);
        FireIsClosed(child, f, child[c]);
      }
      assert forall x, d :: x in bound && x in child && d in f1.lists[child[x]] ==> d in f.lists[child[x]];
      RunSlotsIsLeast(child, f1, list[1..], bound);
      var log2 := RunSlots(child, f1, list[1..]).1;
      forall x | x in [c] + log1 + log2 ensures x in bound {
        assert x == c || x in Members(log1) || x in Members(log2);
      }
    }
  }

  lemma ListedTwice(a: seq<Conn>, i: nat, j: nat)
    requires i < j < |a|
    ensures a[i] == a[j] ==> Times(a, a[j]) >= 2
  {
    assert a == a[..j] + [a[j]] + a[j + 1..];
    assert a[..j][i] == a[i];
  }

  lemma {:induction false} ListedOnce(all: seq<Conn>, c: Conn)
    requires Distinct(all)
    ensures Times(all, c) <= 1
  {
    if all == [] {
    } else {
      ListedOnce(all[1..], c);
      assert all == [all[0]] + all[1..];
      assert all[0] !in all[1..];
    }
  }

  /** What is listed at most once in all is listed once in one part and not in the others. */
  lemma DistinctPart(a: seq<Conn>, all: seq<Conn>)
    requires Distinct(all) && forall c :: Times(a, c) <= Times(all, c)
    ensures Distinct(a) && forall c :: c in a ==> c in all
  {
    forall i, j | 0 <= i < j < |a| ensures a[i] != a[j] {
      ListedTwice(a, i, j);
      ListedOnce(all, a[j]);
      assert Times(a, a[j]) <= Times(all, a[j]);
    }
    forall c | c in a ensures c in all {
      assert c in multiset(a);
      assert Times(a, c) <= Times(all, c);
      assert c in multiset(all);
    }
  }

  lemma NotInBoth(a: seq<Conn>, b: seq<Conn>, all: seq<Conn>, c: Conn)
    requires Distinct(all) && Times(a, c) + Times(b, c) <= Times(all, c) && c in a
    ensures c !in b
  {
    ListedOnce(all, c);
    assert c in multiset(a);
    assert c in b <==> c in multiset(b);
  }

  /** Firing ends and runs the slot of every connection under the fired object exactly once:
      what ran is the least set that holds its connections and, with a connection that fires a
      child, the connections of the child. What ran is no longer linked and all else still is.
      The connections may even lead in circles. */
  lemma CascadeFiresExactlyOnce(child: map<Conn, Node>, f: Forest, n: Node)
    requires WellFormed(child, f) && n < |f.lists| && Distinct(Flat(f.lists))
    ensures var (f', log) := Fire(child, f, n);
      && Distinct(log)
      && (forall c :: c in log ==> c !in Flat(f'.lists))
      && (forall c :: c in Flat(f.lists) ==> c in log || c in Flat(f'.lists))
      && (forall d :: d in f.lists[n] ==> d in log)
      && Closed(child, f.lists, Members(log))
      && (forall bound :: Closed(child, f.lists, bound) && (forall d :: d in f.lists[n] ==> d in bound)
            ==> Members(log) <= bound)
  {
    var (f', log) := Fire(child, f, n);
    var all, left := Flat(f.lists), Flat(f'.lists);
    forall c ensures Times(left, c) + Times(log, c) == Times(all, c) { FireConserves(child, f, n, c); }
    FireIsClosed(child, f, n);
    DistinctPart(log, all);
    forall c | c in log ensures c !in left { NotInBoth(log, left, all, c); }
    forall c | c in all ensures c in log || c in left {
      assert c in multiset(all);
      assert Times(left, c) + Times(log, c) >= 1;
      assert (c in left <==> c in multiset(left)) && (c in log <==> c in multiset(log));
    }
    forall bound | Closed(child, f.lists, bound) && (forall d :: d in f.lists[n] ==> d in bound)
      ensures Members(log) <= bound
    {
      FireIsLeast(child, f, n, bound);
    }
  }

  // ----- Call counts -----

  function Into(child: map<Conn, Node>, log: seq<Conn>, m: Node): nat {
    if log == [] then 0 else (if log[0] in child && child[log[0]] == m then 1 else 0) + Into(child, log[1..], m)
  }

  lemma {:induction false} IntoAppend(child: map<Conn, Node>, a: seq<Conn>, b: seq<Conn>, m: Node)
    ensures Into(child, a + b, m) == Into(child, a, m) + Into(child, b, m)
  {
    if a == [] {
      assert a + b == b;
    } else {
      assert (a + b)[1..] == a[1..] + b;
      IntoAppend(child, a[1..], b, m);
    }
  }

  /** Every object's count grows by one for being fired and one for each slot that fired it. */
  lemma {:induction false} FireCounts(child: map<Conn, Node>, f: Forest, n: Node, m: Node)
    requires WellFormed(child, f) && n < |f.lists| && m < |f.lists|
    ensures var (f', log) := Fire(child, f, n);
      f'.calls[m] == f.calls[m] + (if m == n then 1 else 0) + Into(child, log, m)
    decreases Total(f.lists), 1
  {
    TotalUpdate(f.lists, n, []);
    RunSlotsCounts(child, Detach(f, n), f.lists[n], m);
  }

  lemma {:induction false} RunSlotsCounts(child: map<Conn, Node>, f: Forest, list: seq<Conn>, m: Node)
    requires WellFormed(child, f) && m < |f.lists|
    ensures var (f', log) := RunSlots(child, f, list);
      f'.calls[m] == f.calls[m] + Into(child, log, m)
    decreases Total(f.lists) + |list|, 0
  {
    if list == [] {
    } else {
      var c := list[0];
      var (f1, log1) := RunOne(child, f, c);
      var log2 := RunSlots(child, f1, list[1..]).1;
      if c in child { FireCounts(child, f, child[c], m); }
      RunSlotsCounts(child, f1, list[1..], m);
      IntoAppend(child, [c] + log1, log2, m);
      IntoAppend(child, [c], log1, m);
    }
  }

  // ----- Slots that fire and connect -----

  /** A run in the middle of any number of nested firings: `stack` holds what each of them has
      still to run, innermost first; `made` are all connections ever made. */
  datatype Config = Config(lists: seq<seq<Conn>>, stack: seq<seq<Conn>>,
                           made: seq<Conn>, fired: seq<Conn>, dropped: seq<Conn>)

  /** A slot may do anything: create objects, connect, fire any object, drop a connection that is
      linked or that waits to run in any of the firings under way. */
  datatype Event =
    | NewNode
    | Connect(n: Node, c: Conn)
    | Drop(n: Node, i: nat)
    | DropWaiting(k: nat, i: nat)
    | BeginFire(n: Node)
    | RunSlot
    | EndFire

  const EMPTY := Config([], [], [], [], [])

  /** `auto_unlink` of one connection. */
  function Removed(list: seq<Conn>, i: nat): seq<Conn>
    requires i < |list|
  {
    list[..i] + list[i + 1..]
  }

  predicate Enabled(s: Config, e: Event) {
    match e
    case NewNode => true
    case Connect(n, c) => n < |s.lists| && c !in s.made
    case Drop(n, i) => n < |s.lists| && i < |s.lists[n]|
    case DropWaiting(k, i) => k < |s.stack| && i < |s.stack[k]|
    case BeginFire(n) => n < |s.lists|
    case RunSlot => s.stack != [] && s.stack[0] != []
    case EndFire => s.stack != [] && s.stack[0] == []
  }

  function Next(s: Config, e: Event): Config
    requires Enabled(s, e)
  {
    match e
    case NewNode => s.(lists := s.lists + [[]])
    case Connect(n, c) => s.(lists := s.lists[n := s.lists[n] + [c]], made := s.made + [c])
    case Drop(n, i) => s.(lists := s.lists[n := Removed(s.lists[n], i)], dropped := s.dropped + [s.lists[n][i]])
    case DropWaiting(k, i) =>
      s.(stack := s.stack[k := Removed(s.stack[k], i)], dropped := s.dropped + [s.stack[k][i]])
    case BeginFire(n) => s.(lists := s.lists[n := []], stack := [s.lists[n]] + s.stack)
    case RunSlot => s.(stack := [s.stack[0][1..]] + s.stack[1..], fired := s.fired + [s.stack[0][0]])
    case EndFire => s.(stack := s.stack[1..])
  }

  /** How often a connection is listed over all. */
  function Listed(s: Config, c: Conn): nat {
    Times(s.fired, c) + Times(s.dropped, c) + Times(Flat(s.stack), c) + Times(Flat(s.lists), c)
  }

  /** Every connection made is listed once over all: linked, waiting to run, fired or dropped. */
  ghost predicate Accounted(s: Config) {
    && Distinct(s.made)
    && forall c :: Listed(s, c) == Times(s.made, c)
  }

  lemma {:induction false} FlatAppend(a: seq<seq<Conn>>, b: seq<seq<Conn>>)
    ensures Flat(a + b) == Flat(a) + Flat(b)
  {
    if a == [] {
      assert a + b == b;
    } else {
      assert (a + b)[1..] == a[1..] + b;
      FlatAppend(a[1..], b);
    }
  }

  lemma DropCounts(lists: seq<seq<Conn>>, n: nat, i: nat, dropped: seq<Conn>, c: Conn)
    requires n < |lists| && i < |lists[n]|
    ensures Times(Flat(lists[n := Removed(lists[n], i)]), c) + Times(dropped + [lists[n][i]], c)
         == Times(Flat(lists), c) + Times(dropped, c)
  {
    var l := lists[n];
    assert l == l[..i] + ([l[i]] + l[i + 1..]);
    TimesAppend(l[..i], [l[i]] + l[i + 1..], c);
    TimesAppend([l[i]], l[i + 1..], c);
    TimesAppend(l[..i], l[i + 1..], c);
    TimesUpdate(lists, n, Removed(l, i), c);
    TimesAppend(dropped, [l[i]], c);
  }

  lemma CountsStep(s: Config, e: Event, c: Conn)
    requires Enabled(s, e)
    ensures var s' := Next(s, e);
      Listed(s', c) + Times(s.made, c) == Listed(s, c) + Times(s'.made, c)
  {
    match e
    case NewNode =>
      FlatAppend(s.lists, [[]]);
      assert Flat([[]]) == [];
      TimesAppend(Flat(s.lists), [], c);
    case Connect(n, x) =>
      TimesUpdate(s.lists, n, s.lists[n] + [x], c);
      TimesAppend(s.lists[n], [x], c);
      TimesAppend(s.made, [x], c);
    case Drop(n, i) =>
      DropCounts(s.lists, n, i, s.dropped, c);
    case DropWaiting(k, i) =>
      DropCounts(s.stack, k, i, s.dropped, c);
    case BeginFire(n) =>
      TimesUpdate(s.lists, n, [], c);
      assert ([s.lists[n]] + s.stack)[1..] == s.stack;
      TimesAppend(s.lists[n], Flat(s.stack), c);
    case RunSlot =>
      var top, under := s.stack[0], s.stack[1..];
      assert top == [top[0]] + top[1..];
      assert ([top[1..]] + under)[1..] == under;
      TimesAppend([top[0]], top[1..], c);
      TimesAppend(top, Flat(under), c);
      TimesAppend(top[1..], Flat(under), c);
      TimesAppend(s.fired, [top[0]], c);
    case EndFire =>
      TimesAppend(s.stack[0], Flat(s.stack[1..]), c);
  }

  lemma AccountedStep(s: Config, e: Event)
    requires Accounted(s) && Enabled(s, e)
    ensures Accounted(Next(s, e))
  {
    var s' := Next(s, e);
    forall c ensures Listed(s', c) == Times(s'.made, c) {
      CountsStep(s, e, c);
    }
  }

  /** The events lead from one configuration to the other. */
  predicate Leads(s: Config, events: seq<Event>, s': Config)
    decreases |events|
  {
    if events == [] then s == s'
    else Enabled(s, events[0]) && Leads(Next(s, events[0]), events[1..], s')
  }

  lemma {:induction false} AccountedRun(s: Config, events: seq<Event>, s': Config)
    requires Accounted(s) && Leads(s, events, s')
    ensures Accounted(s')
    decreases |events|
  {
    if events == [] {
    } else {
      AccountedStep(s, events[0]);
      AccountedRun(Next(s, events[0]), events[1..], s');
    }
  }

  /** Whatever the slots do, no connection's slot runs twice, and a connection whose slot ran is
      neither linked nor waiting to run. */
  lemma NoSlotRunsTwice(events: seq<Event>, s: Config)
    requires Leads(EMPTY, events, s)
    ensures Distinct(s.fired)
    ensures forall c :: c in s.fired ==> c in s.made && c !in Flat(s.lists) && c !in Flat(s.stack)
  {
    AccountedRun(EMPTY, events, s);
    DistinctPart(s.fired, s.made);
    forall c | c in s.fired ensures c !in Flat(s.lists) && c !in Flat(s.stack) {
      NotInBoth(s.fired, Flat(s.lists), s.made, c);
      NotInBoth(s.fired, Flat(s.stack), s.made, c);
    }
  }

  /** None is lost either: every connection made is exactly one of linked, waiting to run, run or
      dropped, and when no firing is under way none waits. */
  lemma EveryConnectionIsAccountedFor(events: seq<Event>, s: Config, c: Conn)
    requires Leads(EMPTY, events, s) && c in s.made
    ensures Listed(s, c) == 1
    ensures s.stack == [] ==> Times(s.fired, c) + Times(s.dropped, c) + Times(Flat(s.lists), c) == 1
  {
    AccountedRun(EMPTY, events, s);
    ListedOnce(s.made, c);
    assert c in multiset(s.made);
  }

  // ----- The cascade is such a run -----

  /** The events of firing an object whose slots only fire children. */
  function FireEvents(child: map<Conn, Node>, f: Forest, n: Node): seq<Event>
    requires WellFormed(child, f) && n < |f.lists|
    decreases Total(f.lists), 1
  {
    TotalUpdate(f.lists, n, []);
    [BeginFire(n)] + SlotEvents(child, Detach(f, n), f.lists[n]) + [EndFire]
  }

  function OneEvents(child: map<Conn, Node>, f: Forest, c: Conn): seq<Event>
    requires WellFormed(child, f)
    decreases Total(f.lists), 2
  {
    if c in child then FireEvents(child, f, child[c]) else []
  }

  function SlotEvents(child: map<Conn, Node>, f: Forest, list: seq<Conn>): seq<Event>
    requires WellFormed(child, f)
    decreases Total(f.lists) + |list|, 0
  {
    if list == [] then []
    else [RunSlot] + OneEvents(child, f, list[0]) + SlotEvents(child, RunOne(child, f, list[0]).0, list[1..])
  }

  lemma {:induction false} LeadsOn(s: Config, a: seq<Event>, m: Config, b: seq<Event>, s': Config)
    requires Leads(s, a, m) && Leads(m, b, s')
    ensures Leads(s, a + b, s')
    decreases |a|
  {
    if a == [] {
      assert a + b == b;
    } else {
      assert (a + b)[1..] == a[1..] + b;
      LeadsOn(Next(s, a[0]), a[1..], m, b, s');
    }
  }

  lemma LeadsOne(s: Config, e: Event)
    requires Enabled(s, e)
    ensures Leads(s, [e], Next(s, e))
  {
    assert [e][1..] == [];
  }

  /** The configuration after `f` became the linked connections and `log` ran. */
  function After(s: Config, f: Forest, log: seq<Conn>): Config {
    s.(lists := f.lists, fired := s.fired + log)
  }

  /** Firing an object, as the calls do it, is the run of these events, in whatever configuration
      it begins: the slots that run are those of the run, in order. */
  lemma {:induction false} FireIsARun(child: map<Conn, Node>, f: Forest, n: Node, s: Config)
    requires WellFormed(child, f) && n < |f.lists| && s.lists == f.lists
    ensures var (f', log) := Fire(child, f, n);
      Leads(s, FireEvents(child, f, n), After(s, f', log))
    decreases Total(f.lists), 1
  {
    TotalUpdate(f.lists, n, []);
    var list, inner := f.lists[n], Detach(f, n);
    var (f', log) := RunSlots(child, inner, list);
    var begun := Next(s, BeginFire(n));
    SlotsAreARun(child, inner, list, begun);
    var done := After(begun, f', log).(stack := [[]] + s.stack);
    UnderTop(list, s.stack);
    UnderTop([], s.stack);
    LeadsOne(s, BeginFire(n));
    LeadsOn(s, [BeginFire(n)], begun, SlotEvents(child, inner, list), done);
    LeadsOne(done, EndFire);
    LeadsOn(s, [BeginFire(n)] + SlotEvents(child, inner, list), done, [EndFire], After(s, f', log));
  }

  lemma {:induction false} OneIsARun(child: map<Conn, Node>, f: Forest, c: Conn, s: Config)
    requires WellFormed(child, f) && s.lists == f.lists
    ensures var (f', log) := RunOne(child, f, c);
      Leads(s, OneEvents(child, f, c), After(s, f', log))
    decreases Total(f.lists), 2
  {
    if c in child {
      FireIsARun(child, f, child[c], s);
    } else {
      assert s.fired + [] == s.fired;
    }
  }

  lemma {:induction false} SlotsAreARun(child: map<Conn, Node>, f: Forest, list: seq<Conn>, s: Config)
    requires WellFormed(child, f) && s.lists == f.lists && s.stack != [] && s.stack[0] == list
    ensures var (f', log) := RunSlots(child, f, list);
      Leads(s, SlotEvents(child, f, list), After(s, f', log).(stack := [[]] + s.stack[1..]))
    decreases Total(f.lists) + |list|, 0
  {
    if list == [] {
      assert s.fired + [] == s.fired && [[]] + s.stack[1..] == s.stack;
    } else {
      var c, rest := list[0], list[1..];
      var (f1, log1) := RunOne(child, f, c);
      var (f2, log2) := RunSlots(child, f1, rest);
      var popped := Next(s, RunSlot);
      var mid := After(popped, f1, log1);
      var done := After(mid, f2, log2).(stack := [[]] + mid.stack[1..]);
      LeadsOne(s, RunSlot);
      OneIsARun(child, f, c, popped);
      SlotsAreARun(child, f1, rest, mid);
      LeadsOn(s, [RunSlot], popped, OneEvents(child, f, c), mid);
      LeadsOn(s, [RunSlot] + OneEvents(child, f, c), mid, SlotEvents(child, f1, rest), done);
      assert done == After(s, f2, [c] + log1 + log2).(stack := [[]] + s.stack[1..]) by {
        UnderTop(rest, s.stack[1..]);
        Regroup(s.fired, [c], log1, log2);
      }
    }
  }

  lemma UnderTop(top: seq<Conn>, under: seq<seq<Conn>>)
    ensures ([top] + under)[1..] == under && ([top] + under)[0] == top
  {
  }
}
