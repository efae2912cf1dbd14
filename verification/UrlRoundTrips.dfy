/** The two round trips of `url_t` and the in-place path edit. */
module UrlRoundTrips {
  import opened Options
  import opened Scan
  import opened Urls
  import opened UrlLaws

  // ----- Text to text: what printing a parsed URL loses -----

  function NonEmpty(o: Option<string>): Option<string> {
    if o == Some("") then None else o
  }

  function DropEmptyPort(p: Port): Port {
    if PortText(p) == "" then NoColon else p
  }

  function DropEmptySite(s: Site): Site {
    match s
    case HostOnly(_) => s
    case HostAndPath(host, port, Tail(path, query, fragment)) =>
      HostAndPath(host, DropEmptyPort(port), Tail(path, NonEmpty(query), NonEmpty(fragment)))
  }

  /** The same pieces without the delimiters that have nothing on their side. */
  function DropEmpty(p: Parts): Parts {
    Parts(NonEmpty(p.scheme), NonEmpty(p.userinfo), DropEmptySite(p.site))
  }

  function LostIn(o: Option<string>, width: nat): nat {
    if o == Some("") then width else 0
  }

  /** The total length of those delimiters. */
  function Dropped(p: Parts): nat {
    LostIn(p.scheme, 3) + LostIn(p.userinfo, 1) +
    match p.site
    case HostOnly(_) => 0
    case HostAndPath(_, port, Tail(_, query, fragment)) =>
      |JoinPort(port)| - |JoinPort(DropEmptyPort(port))| + LostIn(query, 1) + LostIn(fragment, 1)
  }

  lemma OptionalBefore(o: Option<string>, delimiter: string)
    ensures Optional(delimiter, OrElse(o, ""), "") == Before(delimiter, NonEmpty(o))
  {
  }

  lemma RecomposeTail(path: string, query: Option<string>, fragment: Option<string>)
    ensures Optional("", path, "") + Optional("?", OrElse(query, ""), "") + Optional("#", OrElse(fragment, ""), "")
         == JoinTail(Tail(path, NonEmpty(query), NonEmpty(fragment)))
  {
    OptionalBefore(query, "?");
    OptionalBefore(fragment, "#");
    assert Optional("", path, "") == path;
    Reassociate(path, Before("?", NonEmpty(query)), Before("#", NonEmpty(fragment)));
  }

  lemma RecomposeSite(s: Site)
    ensures var c := ComponentsOf(Parts(None, None, s));
      Optional("", c.host, "") + Optional(":", c.port, "") +
      (Optional("", c.path, "") + Optional("?", c.query, "") + Optional("#", c.fragment, ""))
      == JoinSite(DropEmptySite(s))
  {
    var c := ComponentsOf(Parts(None, None, s));
    assert Optional("", c.host, "") == s.host;
    match s
    case HostOnly(_) =>
    case HostAndPath(host, port, Tail(path, query, fragment)) =>
      RecomposeTail(path, query, fragment);
      assert Optional(":", PortText(port), "") == JoinPort(DropEmptyPort(port));
  }

  lemma Regroup(a: string, b: string, c: string, d: string, e: string, f: string, g: string)
    ensures a + b + c + d + e + f + g == a + (b + (c + d + (e + f + g)))
  {
    assert a + (b + (c + d + (e + f + g))) == (a + b) + (c + d + (e + f + g));
  }

  lemma OptionalAfter(o: Option<string>, delimiter: string)
    ensures Optional("", OrElse(o, ""), delimiter) == After(NonEmpty(o), delimiter)
  {
  }

  lemma RecomposeJoins(p: Parts)
    ensures Recompose(ComponentsOf(p)) == Join(DropEmpty(p))
  {
    var c := ComponentsOf(p);
    var scheme, userinfo := Optional("", c.scheme, "://"), Optional("", c.userinfo, "@");
    var host, port, path := Optional("", c.host, ""), Optional(":", c.port, ""), Optional("", c.path, "");
    var query, fragment := Optional("?", c.query, ""), Optional("#", c.fragment, "");
    assert Recompose(c) == scheme + (userinfo + (host + port + (path + query + fragment))) by {
      Regroup(scheme, userinfo, host, port, path, query, fragment);
    }
    assert host + port + (path + query + fragment) == JoinSite(DropEmptySite(p.site)) by { RecomposeSite(p.site); }
    OptionalAfter(p.scheme, SCHEME_END);
    OptionalAfter(p.userinfo, "@");
  }

  lemma DroppedLength(p: Parts)
    ensures |Join(p)| == |Join(DropEmpty(p))| + Dropped(p)
  {
  }

  lemma DroppedNone(p: Parts)
    ensures Dropped(p) == 0 <==> DropEmpty(p) == p
  {
  }

  /** Printing a parsed URL gives the text without exactly the delimiters that have an empty
      component, shorter by their lengths, so it gives the text itself if and only if every
      consumed delimiter has a nonempty component. */
  lemma PrintAfterParse(s: string)
    ensures Bounded(Parse(s))
    ensures var printed := Recompose(Texts(Parse(s)));
      && printed == Join(DropEmpty(Split(s)))
      && |s| == |printed| + Dropped(Split(s))
      && (printed == s <==> Dropped(Split(s)) == 0)
  {
    var p := Split(s);
    JoinSplit(s);
    TextsOfLayout(p);
    RecomposeJoins(p);
    DroppedLength(p);
    DroppedNone(p);
  }

  // ----- Components to components -----

  function Present(x: string): Option<string> {
    if x == "" then None else Some(x)
  }

  predicate BareHost(c: Components) {
    c.port == "" && c.path == "" && c.query == "" && c.fragment == ""
  }

  function PartsFor(c: Components): Parts {
    Parts(Present(c.scheme), Present(c.userinfo),
          if BareHost(c) then HostOnly(c.host)
          else HostAndPath(c.host, if c.port == "" then NoColon else Port(c.port),
                           Tail(c.path, Present(c.query), Present(c.fragment))))
  }

  /** Which component tuples survive: delimiters may stand only where the parser will not take them. */
  ghost predicate WellFormed(c: Components) {
    && (if c.scheme != "" then !Occurs(SCHEME_END, c.scheme) else !Occurs(SCHEME_END, Recompose(c)))
    && (if c.userinfo != "" then '@' !in c.userinfo
        else '@' !in c.host && '@' !in c.port && '@' !in c.path && '@' !in c.query && '@' !in c.fragment)
    && ':' !in c.host
    && (if BareHost(c) then '/' !in c.host
        else
          && StartsWithSlash(c.path) && '?' !in c.path
          && (if c.query != "" then '#' !in c.query else '#' !in c.path && '?' !in c.fragment)
          && (if c.port != "" then '/' !in c.port
              else '/' !in c.host && ':' !in c.path && ':' !in c.query && ':' !in c.fragment))
  }

  lemma PartsForComponents(c: Components)
    ensures ComponentsOf(PartsFor(c)) == c && DropEmpty(PartsFor(c)) == PartsFor(c)
    ensures Recompose(c) == Join(PartsFor(c))
  {
    RecomposeJoins(PartsFor(c));
  }

  lemma CharsOfTail(t: Tail, ch: char)
    requires ch != '?' && ch != '#'
    ensures ch !in JoinTail(t) <==> ch !in t.path && ch !in OrElse(t.query, "") && ch !in OrElse(t.fragment, "")
  {
    var q, f := OrElse(t.query, ""), OrElse(t.fragment, "");
    assert forall i :: 0 <= i < |q| ==> q[i] == ("?" + q)[i + 1];
    assert forall i :: 0 <= i < |f| ==> f[i] == ("#" + f)[i + 1];
  }

  lemma AtInSite(s: Site)
    ensures '@' !in JoinSite(s) <==>
      '@' !in s.host && (s.HostAndPath? ==> '@' !in PortText(s.port) && '@' !in JoinTail(s.tail))
  {
    if s.HostAndPath? {
      assert s.port.Port? ==> forall i :: 0 <= i < |s.port.text| ==> s.port.text[i] == (":" + s.port.text)[i + 1];
    }
  }

  lemma WellFormedIsCanonical(c: Components)
    ensures WellFormed(c) <==> Canonical(PartsFor(c))
  {
    var p := PartsFor(c);
    PartsForComponents(c);
    AtInSite(p.site);
    if p.site.HostAndPath? {
      CharsOfTail(p.site.tail, '@');
      CharsOfTail(p.site.tail, ':');
    }
  }

  lemma CanonicalWithoutLoss(p: Parts)
    requires Canonical(p) && Dropped(p) == 0
    ensures PartsFor(ComponentsOf(p)) == p
  {
    DroppedNone(p);
  }

  /** Parsing the recomposition gives back the components if and only if they are well formed. */
  lemma ParseAfterPrint(c: Components)
    ensures Bounded(Parse(Recompose(c)))
    ensures Texts(Parse(Recompose(c))) == c <==> WellFormed(c)
  {
    var s, p := Recompose(c), PartsFor(c);
    var q := Split(s);
    PartsForComponents(c);
    WellFormedIsCanonical(c);
    SplitJoinExact(p);
    TextsOfLayout(q);
    if Texts(Parse(s)) == c {
      PrintAfterParse(s);
      SplitIsCanonical(s);
      CanonicalWithoutLoss(q);
    }
  }

  // ----- The in-place edit -----

  /** Where the host starts and ends. */
  function HostStart(r: Rep): int {
    (if r.scheme.At? then r.scheme.len + 3 else 0) + (if r.userinfo.At? then r.userinfo.len + 1 else 0)
  }

  function HostEnd(r: Rep): int {
    HostStart(r) + if r.host.At? then r.host.len else 0
  }

  function PathEnd(r: Rep): int {
    if r.path.At? then r.path.data + r.path.len else HostEnd(r)
  }

  function QueryEnd(r: Rep): int {
    if r.query.At? then PathEnd(r) + 1 + r.query.len else PathEnd(r)
  }

  predicate OrderedHead(r: Rep) {
    && (r.scheme.At? ==> r.scheme.data == 0 && r.scheme.len + 3 <= |r.buf| &&
                         r.buf[r.scheme.len..r.scheme.len + 3] == SCHEME_END)
    && (r.userinfo.At? ==> r.userinfo.data + r.userinfo.len + 1 == HostStart(r) <= |r.buf| &&
                           r.buf[HostStart(r) - 1] == '@')
    && r.host.At? && r.host.data == HostStart(r)
    && HostEnd(r) <= |r.buf|
  }

  predicate OrderedPath(r: Rep)
    requires OrderedHead(r) && r.path.At?
  {
    && (if r.port.At? then r.port.data == HostEnd(r) + 1 && r.path.data == r.port.data + r.port.len
        else HostEnd(r) <= r.path.data <= HostEnd(r) + 1)
    && PathEnd(r) <= |r.buf|
    && (HostEnd(r) < r.path.data ==> r.buf[HostEnd(r)] == ':')
  }

  predicate OrderedTail(r: Rep)
    requires 0 <= PathEnd(r)
  {
    && QueryEnd(r) <= |r.buf|
    && (r.query.At? ==> r.query.data == PathEnd(r) + 1 && r.buf[PathEnd(r)] == '?')
    && (if r.fragment.At? then r.fragment.data == QueryEnd(r) + 1 && r.fragment.data + r.fragment.len == |r.buf| &&
                               r.buf[QueryEnd(r)] == '#'
        else QueryEnd(r) == |r.buf|)
  }

  /** The views follow each other through the buffer, separated by exactly their delimiters. */
  predicate Ordered(r: Rep) {
    OrderedHead(r) &&
    if r.path.Unset? then r.port.Unset? && r.query.Unset? && r.fragment.Unset? && HostEnd(r) == |r.buf|
    else OrderedPath(r) && OrderedTail(r)
  }

  lemma OrderedIsBounded(r: Rep)
    requires Ordered(r)
    ensures Bounded(r)
  {
  }

  /** Replacing the path by a longer, shorter or empty one changes the path text and no other,
      and keeps the views ordered. */
  lemma EditRefinesRecordUpdate(r: Rep, p: string)
    requires Ordered(r) && r.path.At?
    ensures Bounded(r) && Bounded(WithPath(r, p)) && Ordered(WithPath(r, p))
    ensures Texts(WithPath(r, p)) == Texts(r).(path := p)
  {
    OrderedIsBounded(r);
    EditKeepsOrdered(r, p);
    OrderedIsBounded(WithPath(r, p));
    EditKeepsHead(r, p);
    EditKeepsTail(r, p);
  }

  /** The characters before and after the path are the same as before, the latter shifted. */
  lemma EditedBuffer(r: Rep, p: string)
    requires r.path.At? && InBounds(r.buf, r.path)
    ensures var b', cut, e, delta := WithPath(r, p).buf, r.path.data, r.path.data + r.path.len, |p| - r.path.len;
      && |b'| == |r.buf| + delta
      && b'[..cut] == r.buf[..cut] && b'[cut..cut + |p|] == p && b'[e + delta..] == r.buf[e..]
  {
  }

  lemma SameSlice(a: string, b: string, n: nat, i: nat, j: nat)
    requires i <= j <= n && n <= |a| && n <= |b| && a[..n] == b[..n]
    ensures a[i..j] == b[i..j]
  {
    assert a[i..j] == a[..n][i..j] == b[..n][i..j];
  }

  lemma SchemeBeforePath(r: Rep)
    requires Ordered(r) && r.path.At? && r.scheme.At?
    ensures r.scheme.len + 3 <= HostEnd(r) <= r.path.data && PathEnd(r) <= |r.buf|
    ensures r.buf[r.scheme.len..r.scheme.len + 3] == SCHEME_END
  {
  }

  lemma EditKeepsScheme(r: Rep, p: string)
    requires Ordered(r) && r.path.At? && Bounded(r) && r.scheme.At?
    ensures var b' := WithPath(r, p).buf;
      r.scheme.len + 3 <= |b'| && b'[r.scheme.len..r.scheme.len + 3] == SCHEME_END
  {
    EditedBuffer(r, p);
    SchemeBeforePath(r);
    SameSlice(WithPath(r, p).buf, r.buf, r.path.data, r.scheme.len, r.scheme.len + 3);
  }

  lemma EditKeepsOrderedHead(r: Rep, p: string)
    requires Ordered(r) && r.path.At? && Bounded(r)
    ensures OrderedHead(WithPath(r, p)) && HostEnd(WithPath(r, p)) == HostEnd(r)
  {
    var b', cut := WithPath(r, p).buf, r.path.data;
    EditedBuffer(r, p);
    if r.scheme.At? { EditKeepsScheme(r, p); }
    if r.userinfo.At? { assert b'[HostStart(r) - 1] == b'[..cut][HostStart(r) - 1]; }
  }

  lemma EditKeepsOrderedPath(r: Rep, p: string)
    requires Ordered(r) && r.path.At? && Bounded(r)
    ensures OrderedHead(WithPath(r, p)) && OrderedPath(WithPath(r, p))
  {
    var b', cut := WithPath(r, p).buf, r.path.data;
    EditedBuffer(r, p);
    EditKeepsOrderedHead(r, p);
    if HostEnd(r) < cut { assert b'[HostEnd(r)] == b'[..cut][HostEnd(r)]; }
  }

  lemma SameCharBehind(a: string, b: string, e: nat, e': nat, i: nat)
    requires e <= i < |a| && e' <= |b| && b[e'..] == a[e..]
    ensures i - e + e' < |b| && b[i - e + e'] == a[i]
  {
    assert a[e..][i - e] == b[e'..][i - e];
  }

  lemma EditMovesEnds(r: Rep, p: string)
    requires Writable(r)
    ensures var delta := |p| - r.path.len;
      PathEnd(WithPath(r, p)) == PathEnd(r) + delta && QueryEnd(WithPath(r, p)) == QueryEnd(r) + delta
  {
  }

  lemma EditKeepsOrderedTail(r: Rep, p: string)
    requires Ordered(r) && r.path.At? && Bounded(r)
    ensures OrderedTail(WithPath(r, p))
  {
    var b', e, e' := WithPath(r, p).buf, PathEnd(r), PathEnd(r) + |p| - r.path.len;
    EditedBuffer(r, p);
    EditMovesEnds(r, p);
    if r.query.At? { SameCharBehind(r.buf, b', e, e', e); }
    if r.fragment.At? { SameCharBehind(r.buf, b', e, e', QueryEnd(r)); }
  }

  lemma EditKeepsOrdered(r: Rep, p: string)
    requires Ordered(r) && r.path.At? && Bounded(r)
    ensures Ordered(WithPath(r, p))
  {
    EditKeepsOrderedPath(r, p);
    EditKeepsOrderedTail(r, p);
  }

  lemma SamePrefix(a: string, b: string, n: nat, v: View)
    requires n <= |a| && n <= |b| && a[..n] == b[..n]
    requires v.At? ==> 0 <= v.data && v.data + v.len <= n
    ensures InBounds(a, v) && InBounds(b, v) && Text(a, v) == Text(b, v)
  {
    if v.At? {
      assert a[v.data..v.data + v.len] == a[..n][v.data..v.data + v.len];
      assert b[v.data..v.data + v.len] == b[..n][v.data..v.data + v.len];
    }
  }

  lemma SliceOfSuffix(s: string, e: nat, i: nat, j: nat)
    requires e <= |s| && i <= j && e + j <= |s|
    ensures s[e..][i..j] == s[e + i..e + j]
  {
  }

  lemma SameSuffix(a: string, b: string, e: nat, delta: int, v: View)
    requires e <= |a| && 0 <= e + delta <= |b| && a[e..] == b[e + delta..]
    requires v.At? ==> e <= v.data && v.data + v.len <= |a|
    ensures InBounds(a, v) && InBounds(b, Shift(v, delta)) && Text(a, v) == Text(b, Shift(v, delta))
  {
    if v.At? {
      assert |a| - e == |b| - (e + delta);
      SliceOfSuffix(a, e, v.data - e, v.data - e + v.len);
      SliceOfSuffix(b, e + delta, v.data - e, v.data - e + v.len);
    }
  }

  lemma EditKeepsPrefix(r: Rep, p: string, v: View)
    requires Writable(r) && (v.At? ==> 0 <= v.data && v.data + v.len <= r.path.data)
    ensures var r' := WithPath(r, p);
      InBounds(r.buf, v) && InBounds(r'.buf, v) && Text(r'.buf, v) == Text(r.buf, v)
  {
    EditedBuffer(r, p);
    SamePrefix(r.buf, WithPath(r, p).buf, r.path.data, v);
  }

  lemma EditKeepsHead(r: Rep, p: string)
    requires Ordered(r) && r.path.At? && Bounded(r) && Bounded(WithPath(r, p))
    ensures var c, c' := Texts(r), Texts(WithPath(r, p));
      c'.scheme == c.scheme && c'.userinfo == c.userinfo && c'.host == c.host && c'.port == c.port
  {
    EditKeepsPrefix(r, p, r.scheme);
    EditKeepsPrefix(r, p, r.userinfo);
    EditKeepsPrefix(r, p, r.host);
    EditKeepsPrefix(r, p, r.port);
  }

  lemma EditKeepsSuffix(r: Rep, p: string, v: View)
    requires r.path.At? && InBounds(r.buf, r.path) && InBounds(r.buf, v) && (v.At? ==> PathEnd(r) <= v.data)
    ensures var r' := WithPath(r, p); var v' := Shift(v, |p| - r.path.len);
      InBounds(r'.buf, v') && Text(r'.buf, v') == Text(r.buf, v)
  {
    EditedBuffer(r, p);
    SameSuffix(r.buf, WithPath(r, p).buf, r.path.data + r.path.len, |p| - r.path.len, v);
  }

  lemma EditKeepsTail(r: Rep, p: string)
    requires Ordered(r) && r.path.At? && Bounded(r) && Bounded(WithPath(r, p))
    ensures var c, c' := Texts(r), Texts(WithPath(r, p));
      c'.path == p && c'.query == c.query && c'.fragment == c.fragment
  {
    EditedBuffer(r, p);
    EditKeepsSuffix(r, p, r.query);
    EditKeepsSuffix(r, p, r.fragment);
  }

  // ----- Parsing establishes the order -----

  lemma DelimiterAfter(buf: string, x: string, delimiter: string, rest: string)
    requires buf == x + delimiter + rest
    ensures |x| + |delimiter| <= |buf| && buf[|x|..|x| + |delimiter|] == delimiter
  {
  }

  lemma UserinfoDelimiter(scheme: string, userinfo: string, site: string)
    ensures var buf, k := scheme + (userinfo + "@" + site), |scheme| + |userinfo|;
      k < |buf| && buf[k] == '@'
  {
  }

  lemma LayoutOrderedScheme(p: Parts)
    ensures var r := Layout(p); r.scheme.At? ==>
      r.scheme.data == 0 && r.scheme.len + 3 <= |r.buf| && r.buf[r.scheme.len..r.scheme.len + 3] == SCHEME_END
  {
    if p.scheme.Some? {
      DelimiterAfter(Join(p), p.scheme.value, SCHEME_END, JoinUser(p.userinfo, p.site));
    }
  }

  lemma LayoutOrderedUserinfo(p: Parts)
    ensures var r := Layout(p); r.userinfo.At? ==>
      r.userinfo.data + r.userinfo.len + 1 == HostStart(r) <= |r.buf| && r.buf[HostStart(r) - 1] == '@'
  {
    if p.userinfo.Some? {
      UserinfoDelimiter(After(p.scheme, SCHEME_END), p.userinfo.value, JoinSite(p.site));
    }
  }

  lemma LayoutOrderedHead(p: Parts)
    ensures OrderedHead(Layout(p)) && |Layout(p).buf| == HostEnd(Layout(p)) + |JoinSite(p.site)| - |p.site.host|
  {
    LayoutOrderedScheme(p);
    LayoutOrderedUserinfo(p);
  }

  lemma PortDelimiter(a: string, b: string, c: string, port: Port, t: string)
    requires !port.NoColon?
    ensures var buf, k := a + (b + (c + JoinPort(port) + t)), |a| + |b| + |c|;
      k < |buf| && buf[k] == ':'
  {
    var site := c + JoinPort(port) + t;
    assert site[|c|] == ':';
    assert (b + site)[|b| + |c|] == ':';
  }

  lemma LayoutOrderedPort(p: Parts)
    requires p.site.HostAndPath? && !p.site.port.NoColon?
    ensures var r := Layout(p);
      HostEnd(r) < |r.buf| && r.buf[HostEnd(r)] == ':'
  {
    PortDelimiter(After(p.scheme, SCHEME_END), After(p.userinfo, "@"), p.site.host, p.site.port, JoinTail(p.site.tail));
  }

  lemma LayoutOrderedPath(p: Parts)
    requires p.site.HostAndPath?
    ensures var r := Layout(p);
      && r.path.At? && OrderedHead(r) && OrderedPath(r)
      && PathEnd(r) == |r.buf| - |JoinQuery(p.site.tail.query, p.site.tail.fragment)|
  {
    LayoutOrderedHead(p);
    if !p.site.port.NoColon? { LayoutOrderedPort(p); }
  }

  lemma DelimitersInQuery(buf: string, e: nat, query: Option<string>, fragment: Option<string>)
    requires e <= |buf| && buf[e..] == JoinQuery(query, fragment)
    ensures query.Some? ==> e < |buf| && buf[e] == '?'
    ensures fragment.Some? ==> var k := e + |Before("?", query)|; k < |buf| && buf[k] == '#'
  {
    var q, k := JoinQuery(query, fragment), |Before("?", query)|;
    if query.Some? { assert buf[e] == buf[e..][0] == q[0]; }
    if fragment.Some? { assert buf[e + k] == buf[e..][k] == q[k]; }
  }

  lemma LayoutEndsWithQuery(p: Parts)
    requires p.site.HostAndPath?
    ensures var r, q := Layout(p), JoinQuery(p.site.tail.query, p.site.tail.fragment);
      0 <= PathEnd(r) <= |r.buf| && r.buf[PathEnd(r)..] == q
  {
    var r, t := Layout(p), p.site.tail;
    var q := JoinQuery(t.query, t.fragment);
    assert EndsWith(r.buf, q) by {
      HostViewsShow(p);
      EndsWithSuffix(r.buf, JoinTail(t), t.path, q);
    }
    assert PathEnd(r) == |r.buf| - |q| by { LayoutOrderedPath(p); }
  }

  lemma LayoutOrderedTail(p: Parts)
    requires p.site.HostAndPath?
    ensures 0 <= PathEnd(Layout(p)) && OrderedTail(Layout(p))
  {
    var r, t := Layout(p), p.site.tail;
    LayoutEndsWithQuery(p);
    DelimitersInQuery(r.buf, PathEnd(r), t.query, t.fragment);
  }

  /** The views of every parsed URL are ordered, and by `EditRefinesRecordUpdate` stay so. */
  lemma ParseIsOrdered(s: string)
    ensures Ordered(Parse(s))
  {
    var p := Split(s);
    LayoutOrderedHead(p);
    if p.site.HostAndPath? {
      LayoutOrderedPath(p);
      LayoutOrderedTail(p);
    }
  }

  // ----- The edit on parsed URLs -----

  function EditPath(p: Parts, path: string): Parts
    requires p.site.HostAndPath?
  {
    p.(site := p.site.(tail := p.site.tail.(path := path)))
  }

  function HeadOf(p: Parts): string
    requires p.site.HostAndPath?
  {
    After(p.scheme, SCHEME_END) + After(p.userinfo, "@") + p.site.host + JoinPort(p.site.port)
  }

  lemma JoinBeforeTail(p: Parts)
    requires p.site.HostAndPath?
    ensures Join(p) == HeadOf(p) + JoinTail(p.site.tail)
  {
    FlattenHead(After(p.scheme, SCHEME_END), After(p.userinfo, "@"), p.site.host,
                JoinPort(p.site.port), JoinTail(p.site.tail));
  }

  lemma FlattenHead(a: string, b: string, c: string, d: string, t: string)
    ensures a + (b + (c + d + t)) == (a + b + c + d) + t
  {
    assert b + (c + d + t) == (b + c + d) + t;
  }

  lemma JoinAroundPath(p: Parts)
    requires p.site.HostAndPath?
    ensures Join(p) == HeadOf(p) + p.site.tail.path + JoinQuery(p.site.tail.query, p.site.tail.fragment)
  {
    JoinBeforeTail(p);
    var h, path, q := HeadOf(p), p.site.tail.path, JoinQuery(p.site.tail.query, p.site.tail.fragment);
    assert h + (path + q) == h + path + q;
  }

  /** Writing a new path through the view gives the layout of the edited pieces. */
  lemma EditIsLayout(p: Parts, path: string)
    requires p.site.HostAndPath?
    ensures Layout(p).path.At? && InBounds(Layout(p).buf, Layout(p).path)
    ensures WithPath(Layout(p), path) == Layout(EditPath(p, path))
  {
    EditIsLayoutBuffer(p, path);
    EditIsLayoutViews(p, path);
  }

  lemma SpliceMiddle(a: string, x: string, b: string, y: string)
    ensures (a + x + b)[..|a|] + y + (a + x + b)[|a| + |x|..] == a + y + b
  {
    assert (a + x + b)[..|a|] == a;
    assert (a + x + b)[|a| + |x|..] == b;
  }

  lemma EditIsLayoutBuffer(p: Parts, path: string)
    requires p.site.HostAndPath?
    ensures Layout(p).path == At(|HeadOf(p)|, |p.site.tail.path|) && InBounds(Layout(p).buf, Layout(p).path)
    ensures WithPath(Layout(p), path).buf == Join(EditPath(p, path))
  {
    var tail := p.site.tail;
    JoinAroundPath(p);
    JoinAroundPath(EditPath(p, path));
    assert HeadOf(EditPath(p, path)) == HeadOf(p);
    SpliceMiddle(HeadOf(p), tail.path, JoinQuery(tail.query, tail.fragment), path);
  }

  lemma EditIsLayoutViews(p: Parts, path: string)
    requires p.site.HostAndPath? && Layout(p).path.At? && InBounds(Layout(p).buf, Layout(p).path)
    ensures var r, r' := WithPath(Layout(p), path), Layout(EditPath(p, path));
      r.(buf := r'.buf) == r'
  {
  }

  /** Where a new path fits into parsed pieces without changing how the whole is read. */
  ghost predicate PathFits(p: Parts, path: string)
    requires p.site.HostAndPath?
  {
    && (p.scheme.None? ==> !Occurs(SCHEME_END, Join(EditPath(p, path))))
    && (p.userinfo.None? ==> '@' !in path)
    && '?' !in path
    && (p.site.tail.query.None? ==> '#' !in path)
    && (match p.site.port
        case NoColon => StartsWithSlash(path) && ':' !in path
        case Lost => '/' !in path
        case Port(_) => StartsWithSlash(path))
  }

  /** Re-reading the buffer after an edit of a parsed URL gives the edited URL, views and all,
      if and only if the new path fits. */
  lemma EditReparsesExactly(s: string, path: string)
    requires Split(s).site.HostAndPath?
    ensures Parse(s).path.At? && InBounds(Parse(s).buf, Parse(s).path)
    ensures var edited := WithPath(Parse(s), path);
      Parse(edited.buf) == edited <==> PathFits(Split(s), path)
  {
    var p := Split(s);
    var p' := EditPath(p, path);
    EditIsLayout(p, path);
    SplitIsCanonical(s);
    SplitJoinExact(p');
    FitsIsCanonical(p, path);
    if Layout(Split(Join(p'))) == Layout(p') {
      SplitIsCanonical(Join(p'));
      JoinSplit(Join(p'));
      LayoutInjective(Split(Join(p')), p');
    }
  }

  /** Different pieces never lay out alike. */
  lemma LayoutInjective(p: Parts, q: Parts)
    requires Layout(p) == Layout(q)
    ensures p == q
  {
    TextsOfLayout(p);
    TextsOfLayout(q);
    assert ComponentsOf(p) == ComponentsOf(q);
    assert p.scheme.Some? == q.scheme.Some? && p.userinfo.Some? == q.userinfo.Some?;
    assert p.site.HostAndPath? == q.site.HostAndPath?;
    if p.site.HostAndPath? {
      SiteInjective(p, q);
    }
  }

  lemma SiteInjective(p: Parts, q: Parts)
    requires Layout(p) == Layout(q) && ComponentsOf(p) == ComponentsOf(q)
    requires p.site.HostAndPath? && q.site.HostAndPath?
    ensures p.site == q.site
  {
    var r := Layout(p);
    assert r.path.data == r.host.data + r.host.len + |JoinPort(p.site.port)|;
    assert r.path.data == r.host.data + r.host.len + |JoinPort(q.site.port)|;
  }

  lemma FitsIsCanonical(p: Parts, path: string)
    requires p.site.HostAndPath? && Canonical(p)
    ensures Canonical(EditPath(p, path)) <==> PathFits(p, path)
  {
    var p' := EditPath(p, path);
    var t, t' := p.site.tail, p'.site.tail;
    AtInSite(p.site);
    AtInSite(p'.site);
    CharsOfTail(t, '@');
    CharsOfTail(t', '@');
    CharsOfTail(t, ':');
    CharsOfTail(t', ':');
    CharsOfTail(t, '/');
    CharsOfTail(t', '/');
  }
}
