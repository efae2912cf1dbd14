/** `xml::get_child`: walking a tree by a dotted path in which "*:" ignores a namespace prefix. */
module XmlTree {
  import opened Options
  import opened Scan

  /** A property tree: its own text and its named children in order. */
  datatype Tree = Tree(data: string, children: seq<(string, Tree)>)

  /** `name_split`: the prefix before the first ':', if any, and the rest. */
  function NameSplit(name: string): (string, string) {
    match Until(name, ":") case None => ("", name) case Some((prefix, local)) => (prefix, local)
  }

  predicate IsWildcard(segment: string) {
    NameSplit(segment).0 == "*"
  }

  predicate Matches(segment: string, name: string) {
    if IsWildcard(segment) then NameSplit(segment).1 == NameSplit(name).1 else name == segment
  }

  /** The index of the first child whose name matches. */
  function FindChild(children: seq<(string, Tree)>, segment: string): (r: Option<nat>)
    ensures r.Some? ==> r.value < |children| && Matches(segment, children[r.value].0) &&
                        forall j :: 0 <= j < r.value ==> !Matches(segment, children[j].0)
    ensures r.None? ==> forall j :: 0 <= j < |children| ==> !Matches(segment, children[j].0)
  {
    if children == [] then None
    else if Matches(segment, children[0].0) then Some(0)
    else
      match FindChild(children[1..], segment)
      case None => None
      case Some(i) => Some(i + 1)
  }

  /** The first segment of a path and what follows it. */
  function Segment(path: string): (r: (string, string))
    requires path != ""
    ensures |r.1| < |path|
  {
    CutShrinks(path, ["."]);
    match Until(path, ".") case None => (path, "") case Some((p, rest)) => (p, rest)
  }

  /** The position, as child indices, that `get_child` reaches. */
  function Walk(t: Tree, path: string): Option<seq<nat>>
    decreases |path|
  {
    if path == "" then Some([])
    else
      var (segment, rest) := Segment(path);
      match FindChild(t.children, segment)
      case None => None
      case Some(i) =>
        match Walk(t.children[i].1, rest)
        case None => None
        case Some(pos) => Some([i] + pos)
  }

  predicate Reaches(t: Tree, pos: seq<nat>)
    decreases pos
  {
    pos == [] || (pos[0] < |t.children| && Reaches(t.children[pos[0]].1, pos[1..]))
  }

  function TreeAt(t: Tree, pos: seq<nat>): Tree
    requires Reaches(t, pos)
    decreases pos
  {
    if pos == [] then t else TreeAt(t.children[pos[0]].1, pos[1..])
  }

  /** The subtree `get_child` returns. */
  function GetChild(t: Tree, path: string): Option<Tree>
    decreases |path|
  {
    if path == "" then Some(t)
    else
      var (segment, rest) := Segment(path);
      match FindChild(t.children, segment)
      case None => None
      case Some(i) => GetChild(t.children[i].1, rest)
  }

  // ----- The loops -----

  function Later(i: nat, o: Option<nat>): Option<nat> {
    match o case None => None case Some(k) => Some(i + k)
  }

  lemma FindOneOn(children: seq<(string, Tree)>, segment: string, i: nat)
    requires i < |children|
    ensures Later(i, FindChild(children[i..], segment)) ==
      if Matches(segment, children[i].0) then Some(i) else Later(i + 1, FindChild(children[i + 1..], segment))
  {
    assert children[i..][1..] == children[i + 1..];
  }

  method FindFirst(children: seq<(string, Tree)>, segment: string) returns (r: Option<nat>)
    ensures r == FindChild(children, segment)
  {
    var i := 0;
    var (ns, local) := NameSplit(segment);
    assert children[0..] == children;
    while i < |children|
      invariant i <= |children|
      invariant FindChild(children, segment) == Later(i, FindChild(children[i..], segment))
    {
      FindOneOn(children, segment, i);
      if ns == "*" {
        if local == NameSplit(children[i].0).1 {
          return Some(i);
        }
      } else if children[i].0 == segment {
        return Some(i);
      }
      i := i + 1;
    }
    return None;
  }

  /** A walk of the rest of a path, seen from the root. */
  function Beyond(pos: seq<nat>, walk: Option<seq<nat>>): Option<seq<nat>> {
    match walk case None => None case Some(more) => Some(pos + more)
  }

  lemma WalkFromRoot(walk: Option<seq<nat>>, pos: seq<nat>)
    ensures Beyond([], walk) == walk && Beyond(pos, Some([])) == Some(pos)
  {
    assert walk.Some? ==> [] + walk.value == walk.value;
    assert pos + [] == pos;
  }

  lemma WalkOneOn(t: Tree, rest: string, pos: seq<nat>)
    requires rest != ""
    ensures var (segment, rest') := Segment(rest);
      var i := FindChild(t.children, segment);
      && (i.None? ==> Walk(t, rest).None? && GetChild(t, rest).None?)
      && (i.Some? ==> var u := t.children[i.value].1;
                      && GetChild(t, rest) == GetChild(u, rest')
                      && Beyond(pos, Walk(t, rest)) == Beyond(pos + [i.value], Walk(u, rest')))
  {
    var (segment, rest') := Segment(rest);
    var i := FindChild(t.children, segment);
    if i.Some? {
      var walk := Walk(t.children[i.value].1, rest');
      assert walk.Some? ==> pos + ([i.value] + walk.value) == (pos + [i.value]) + walk.value;
    }
  }

  /** The walk itself, with the position it has reached. */
  method LookUp(tree: Tree, path: string) returns (r: Option<Tree>, pos: seq<nat>)
    ensures r == GetChild(tree, path)
    ensures r.Some? ==> Walk(tree, path) == Some(pos)
    ensures r.None? ==> Walk(tree, path).None?
  {
    var t := tree;
    var rest := path;
    pos := [];
    WalkFromRoot(Walk(tree, path), pos);
    while rest != ""
      invariant GetChild(tree, path) == GetChild(t, rest)
      invariant Walk(tree, path) == Beyond(pos, Walk(t, rest))
      decreases |rest|
    {
      WalkOneOn(t, rest, pos);
      ghost var (segment, after) := Segment(rest);
      var op, p;
      op, rest := ConsumeUntil(rest, ["."], true);
      if op.Some? {
        p := op.value;
      } else {
        p := rest;
        rest := "";
      }
      assert p == segment && rest == after;
      var i := FindFirst(t.children, p);
      if i.None? {
        return None, pos;
      }
      t := t.children[i.value].1;
      pos := pos + [i.value];
    }
    WalkFromRoot(None, pos);
    return Some(t), pos;
  }

  // ----- Laws -----

  /** The subtree returned is the one at the position walked to. */
  lemma {:induction false} WalkReachesChild(t: Tree, path: string)
    ensures GetChild(t, path).Some? <==> Walk(t, path).Some?
    ensures Walk(t, path).Some? ==>
      var pos := Walk(t, path).value;
      Reaches(t, pos) && GetChild(t, path) == Some(TreeAt(t, pos))
    decreases |path|
  {
    if path == "" {
    } else {
      var (segment, rest) := Segment(path);
      var i := FindChild(t.children, segment);
      if i.Some? {
        WalkReachesChild(t.children[i.value].1, rest);
        if Walk(t, path).Some? {
          assert Walk(t, path).value[1..] == Walk(t.children[i.value].1, rest).value;
        }
      }
    }
  }

  function Then(o: Option<Tree>, path: string): Option<Tree> {
    match o case None => None case Some(t) => GetChild(t, path)
  }

  predicate Joinable(p: string) {
    p != "" && p[|p| - 1] != '.'
  }

  lemma SegmentOfJoin(p: string, q: string)
    requires p != ""
    ensures var (segment, rest) := Segment(p);
      Segment(p + "." + q) == (segment, if '.' in p then rest + "." + q else q)
  {
    CutChar(p, '.', true);
    if '.' in p {
      var (x, y) := Until(p, ".").value;
      assert p + "." + q == x + ['.'] + (y + "." + q);
      CutCharAt(x, '.', y + "." + q, true);
    } else {
      assert p + "." + q == p + ['.'] + q;
      CutCharAt(p, '.', q, true);
    }
  }

  lemma SameLast(x: string, y: string, s: string)
    requires s == x + (['.'] + y)
    ensures s[|s| - 1] == if y == "" then '.' else y[|y| - 1]
  {
  }

  lemma {:induction false} JoinWalks(t: Tree, p: string, q: string)
    requires Joinable(p)
    ensures GetChild(t, p + "." + q) == Then(GetChild(t, p), q)
    decreases |p|
  {
    var (segment, rest) := Segment(p);
    SegmentOfJoin(p, q);
    CutChar(p, '.', true);
    var i := FindChild(t.children, segment);
    if i.Some? && '.' in p {
      SameLast(segment, rest, p);
      JoinWalks(t.children[i.value].1, rest, q);
    }
  }

  const LEAF := Tree("", [])

  /** A tree with a single branch spelled by the path, on which the path ends at a leaf. */
  function Chain(path: string): (t: Tree)
    ensures GetChild(t, path) == Some(LEAF)
    decreases |path|
  {
    if path == "" then LEAF
    else
      var (segment, rest) := Segment(path);
      var t := Tree("", [(segment, Chain(rest))]);
      assert Matches(segment, t.children[0].0);
      t
  }

  /** A trailing '.' is not a segment of its own, so one more makes an empty one. */
  lemma {:induction false} DottedJoin(t: Tree, p: string, q: string)
    requires p != "" && p[|p| - 1] == '.' && GetChild(t, p) == Some(LEAF)
    ensures GetChild(t, p + "." + q) == None
    decreases |p|
  {
    var (segment, rest) := Segment(p);
    SegmentOfJoin(p, q);
    CutChar(p, '.', true);
    SameLast(segment, rest, p);
    var u := t.children[FindChild(t.children, segment).value].1;
    if rest == "" {
      assert u == LEAF;
      assert rest + "." + q != "";
    } else {
      DottedJoin(u, rest, q);
    }
  }

  /** Looking up a joined path is looking up its parts in turn, for every tree and every second
      part, if and only if the first part is neither empty nor ends in '.'. */
  lemma JoinLaw(p: string)
    ensures (forall t: Tree, q: string :: GetChild(t, p + "." + q) == Then(GetChild(t, p), q)) <==> Joinable(p)
  {
    if Joinable(p) {
      forall t: Tree, q: string ensures GetChild(t, p + "." + q) == Then(GetChild(t, p), q) {
        JoinWalks(t, p, q);
      }
    } else if p == "" {
      var q := "";
      assert p + "." + q == ".";
      CutCharAt("", '.', "", true);
      assert "" + ['.'] + "" == ".";
      assert Segment(".") == ("", "");
      assert GetChild(LEAF, p + "." + q) == None;
      assert Then(GetChild(LEAF, p), q) == Some(LEAF);
    } else {
      DottedJoin(Chain(p), p, "");
      assert Then(GetChild(Chain(p), p), "") == Some(LEAF);
      assert GetChild(Chain(p), p + "." + "") == None;
    }
  }

  // ----- Without wildcards -----

  /** The index of the first child with this very name. */
  function IndexOf(children: seq<(string, Tree)>, name: string): (r: Option<nat>)
    ensures r.Some? ==> r.value < |children| && children[r.value].0 == name &&
                        forall j :: 0 <= j < r.value ==> children[j].0 != name
    ensures r.None? ==> forall j :: 0 <= j < |children| ==> children[j].0 != name
  {
    if children == [] then None
    else if children[0].0 == name then Some(0)
    else
      match IndexOf(children[1..], name)
      case None => None
      case Some(i) => Some(i + 1)
  }

  function FindExact(children: seq<(string, Tree)>, name: string): Option<Tree> {
    match IndexOf(children, name) case None => None case Some(i) => Some(children[i].1)
  }

  /** The library's own lookup, by exact names. */
  function GetExact(t: Tree, path: string): Option<Tree>
    decreases |path|
  {
    if path == "" then Some(t)
    else
      var (segment, rest) := Segment(path);
      match FindExact(t.children, segment)
      case None => None
      case Some(u) => GetExact(u, rest)
  }

  predicate NoWildcard(path: string)
    decreases |path|
  {
    path == "" || (!("*:" <= Segment(path).0) && NoWildcard(Segment(path).1))
  }

  lemma WildcardIsPrefix(segment: string)
    ensures IsWildcard(segment) <==> "*:" <= segment
  {
    CutChar(segment, ':', true);
    if "*:" <= segment {
      assert segment == "*" + [':'] + segment[2..];
      CutCharAt("*", ':', segment[2..], true);
    }
  }

  lemma {:induction false} FindChildExact(children: seq<(string, Tree)>, segment: string)
    requires !IsWildcard(segment)
    ensures FindExact(children, segment) ==
      match FindChild(children, segment) case None => None case Some(i) => Some(children[i].1)
  {
    if children == [] {
    } else {
      FindChildExact(children[1..], segment);
    }
  }

  /** If no segment begins with "*:" the lookup is the plain one. */
  lemma {:induction false} WithoutWildcardsIsExact(t: Tree, path: string)
    requires NoWildcard(path)
    ensures GetChild(t, path) == GetExact(t, path)
    decreases |path|
  {
    if path == "" {
    } else {
      var (segment, rest) := Segment(path);
      WildcardIsPrefix(segment);
      FindChildExact(t.children, segment);
      var i := FindChild(t.children, segment);
      if i.Some? { WithoutWildcardsIsExact(t.children[i.value].1, rest); }
    }
  }

  /** A segment that does not begin with "*:" selects the first child with this very name. */
  lemma {:induction false} PlainSelects(children: seq<(string, Tree)>, segment: string)
    requires !("*:" <= segment)
    ensures FindChild(children, segment) == IndexOf(children, segment)
  {
    WildcardIsPrefix(segment);
    if children == [] {
    } else {
      PlainSelects(children[1..], segment);
    }
  }

  // ----- Only wildcards -----

  /** The name is `x`, without a namespace prefix or behind one. */
  ghost predicate LocalNameIs(name: string, x: string) {
    (':' !in name && name == x) || exists p: string :: ':' !in p && name == p + [':'] + x
  }

  lemma LocalNameExact(name: string, x: string)
    ensures NameSplit(name).1 == x <==> LocalNameIs(name, x)
  {
    CutChar(name, ':', true);
    CutAtChar(name, ':');
    forall p: string | ':' !in p && name == p + [':'] + x ensures Until(name, ":") == Some((p, x)) {
      CutCharAt(p, ':', x, true);
    }
  }

  lemma WildcardMatches(x: string, name: string)
    ensures Matches("*:" + x, name) <==> LocalNameIs(name, x)
  {
    assert "*:" + x == "*" + [':'] + x;
    CutCharAt("*", ':', x, true);
    LocalNameExact(name, x);
  }

  /** A segment "*:x" selects the first child that is named x in any namespace, or none if there is
      no such child. */
  lemma WildcardSelects(children: seq<(string, Tree)>, x: string)
    ensures match FindChild(children, "*:" + x)
      case Some(i) => i < |children| && LocalNameIs(children[i].0, x) &&
                      forall j :: 0 <= j < i ==> !LocalNameIs(children[j].0, x)
      case None => forall j :: 0 <= j < |children| ==> !LocalNameIs(children[j].0, x)
  {
    forall j | 0 <= j < |children| ensures Matches("*:" + x, children[j].0) <==> LocalNameIs(children[j].0, x) {
      WildcardMatches(x, children[j].0);
    }
  }

  /** Trees that differ only in the namespace prefixes of their names, and in their texts. */
  predicate Similar(t: Tree, u: Tree) {
    |t.children| == |u.children| &&
    forall i :: 0 <= i < |t.children| ==>
      NameSplit(t.children[i].0).1 == NameSplit(u.children[i].0).1 && Similar(t.children[i].1, u.children[i].1)
  }

  predicate AllWildcards(path: string)
    decreases |path|
  {
    path == "" || ("*:" <= Segment(path).0 && AllWildcards(Segment(path).1))
  }

  lemma SimilarChildren(t: Tree, u: Tree, i: nat)
    requires Similar(t, u) && i < |t.children|
    ensures |u.children| == |t.children| && Similar(t.children[i].1, u.children[i].1)
    ensures NameSplit(t.children[i].0).1 == NameSplit(u.children[i].0).1
  {
  }

  predicate MatchAlike(a: seq<(string, Tree)>, b: seq<(string, Tree)>, segment: string) {
    |a| == |b| && forall i :: 0 <= i < |a| ==> Matches(segment, a[i].0) == Matches(segment, b[i].0)
  }

  lemma FindChildAlike(a: seq<(string, Tree)>, b: seq<(string, Tree)>, segment: string)
    requires MatchAlike(a, b, segment)
    ensures FindChild(a, segment) == FindChild(b, segment)
  {
    var i, j := FindChild(a, segment), FindChild(b, segment);
    if i.Some? { assert Matches(segment, b[i.value].0); }
    if j.Some? { assert Matches(segment, a[j.value].0); }
  }

  lemma FindChildSimilar(t: Tree, u: Tree, segment: string)
    requires Similar(t, u) && IsWildcard(segment)
    ensures FindChild(t.children, segment) == FindChild(u.children, segment)
  {
    var a, b := t.children, u.children;
    assert |a| == |b|;
    forall i | 0 <= i < |a| ensures Matches(segment, a[i].0) == Matches(segment, b[i].0) {
      SimilarChildren(t, u, i);
    }
    FindChildAlike(a, b, segment);
  }

  /** An all-wildcard path leads to the same position in both. */
  lemma {:induction false} WildcardsIgnorePrefixes(t: Tree, u: Tree, path: string)
    requires Similar(t, u) && AllWildcards(path)
    ensures Walk(t, path) == Walk(u, path)
    decreases |path|
  {
    if path == "" {
    } else {
      var (segment, rest) := Segment(path);
      WildcardIsPrefix(segment);
      FindChildSimilar(t, u, segment);
      var i := FindChild(t.children, segment);
      if i.Some? {
        SimilarChildren(t, u, i.value);
        WildcardsIgnorePrefixes(t.children[i.value].1, u.children[i.value].1, rest);
      }
    }
  }
}
