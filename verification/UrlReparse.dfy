/** What re-reading an edited URL gives for its seven texts. */
module UrlReparse {
  import opened Options
  import opened Scan
  import opened Urls
  import opened UrlLaws
  import opened UrlRoundTrips

  /** Where a new path fits into parsed pieces without changing any text that is read back. A path
      that is the whole rest may vanish, and a port without text needs no view. */
  ghost predicate TextsFit(p: Parts, path: string)
    requires p.site.HostAndPath?
  {
    var tail := EditPath(p, path).site.tail;
    && (p.scheme.None? ==> !Occurs(SCHEME_END, Join(EditPath(p, path))))
    && (p.userinfo.None? ==> '@' !in path)
    && '?' !in path
    && (tail.query.None? ==> '#' !in path)
    && (match p.site.port
        case NoColon => (StartsWithSlash(path) && ':' !in path) || JoinTail(tail) == ""
        case Lost => StartsWithSlash(path) || '/' !in JoinTail(tail)
        case Port(x) => StartsWithSlash(path) || (x == "" && '/' !in JoinTail(tail)))
  }

  // ----- A path that fits is read back -----

  /** The pieces with the same texts that the joined text splits into. */
  function AsRead(s: Site): Site
    requires s.HostAndPath?
  {
    if s.port.NoColon? && JoinTail(s.tail) == "" then HostOnly(s.host)
    else if s.port.Lost? && StartsWithSlash(s.tail.path) then s.(port := Port(""))
    else if s.port == Port("") && !StartsWithSlash(s.tail.path) then s.(port := Lost)
    else s
  }

  lemma AsReadSame(p: Parts)
    requires p.site.HostAndPath?
    ensures var r := p.(site := AsRead(p.site));
      JoinSite(r.site) == JoinSite(p.site) && Join(r) == Join(p) && ComponentsOf(r) == ComponentsOf(p)
  {
    AsReadJoins(p.site);
  }

  lemma AsReadJoins(s: Site)
    requires s.HostAndPath?
    ensures JoinSite(AsRead(s)) == JoinSite(s)
  {
    assert s.port.NoColon? && JoinTail(s.tail) == "" ==> s.host + "" + "" == s.host;
  }

  lemma AsReadCanonical(p: Parts, path: string)
    requires p.site.HostAndPath? && Canonical(p) && TextsFit(p, path)
    ensures CanonicalSite(AsRead(EditPath(p, path).site))
  {
    var tail, t := p.site.tail, EditPath(p, path).site.tail;
    CharsOfTail(tail, ':');
    CharsOfTail(t, ':');
    assert CanonicalTail(t);
  }

  lemma FitsIsReadBack(p: Parts, path: string)
    requires p.site.HostAndPath? && Canonical(p) && TextsFit(p, path)
    ensures ComponentsOf(Split(Join(EditPath(p, path)))) == ComponentsOf(EditPath(p, path))
  {
    var p' := EditPath(p, path);
    var r := p'.(site := AsRead(p'.site));
    AsReadSame(p');
    AsReadCanonical(p, path);
    if p.userinfo.None? { NoAtInEdit(p, path); }
    assert Canonical(r);
    SplitJoinExact(r);
  }

  lemma NoAtInEdit(p: Parts, path: string)
    requires p.site.HostAndPath? && Canonical(p) && p.userinfo.None?
    ensures '@' !in JoinSite(EditPath(p, path).site) <==> '@' !in path
  {
    var t, t' := p.site.tail, EditPath(p, path).site.tail;
    AtInSite(p.site);
    AtInSite(EditPath(p, path).site);
    CharsOfTail(t, '@');
    CharsOfTail(t', '@');
  }

  // ----- A path that is read back fits -----

  /** `q` is what the edited text splits into, and shows the edited texts. */
  ghost predicate ReadsBack(p: Parts, path: string, q: Parts) {
    && p.site.HostAndPath? && Canonical(p) && Canonical(q)
    && Join(q) == Join(EditPath(p, path)) && ComponentsOf(q) == ComponentsOf(EditPath(p, path))
  }

  lemma NoQuestionMark(p: Parts, path: string, q: Parts)
    requires ReadsBack(p, path, q)
    ensures '?' !in path
    ensures q.site.HostOnly? ==> path == ""
    ensures q.site.HostAndPath? ==> q.site.tail.path == path
  {
  }

  predicate SameTexts(t: Tail, u: Tail) {
    && t.path == u.path
    && OrElse(t.query, "") == OrElse(u.query, "") && OrElse(t.fragment, "") == OrElse(u.fragment, "")
  }

  /** The same texts cannot be read two characters later. */
  lemma NoSlip(a: string, b: string, t: Tail, u: Tail)
    requires SameTexts(t, u)
    requires t.path != "" && t.path[0] != '#' && '?' !in t.path
    requires a + JoinTail(t) == b + JoinTail(u)
    ensures |b| <= |a| + 1
  {
    if |b| >= |a| + 2 {
      assert JoinTail(t) == t.path + "?#" && JoinTail(u) == u.path by {
        assert t.query == Some("") && t.fragment == Some("") && u.query == None && u.fragment == None;
      }
      EndOfPath(a, b, t.path);
    }
  }

  lemma EndOfPath(a: string, b: string, path: string)
    requires path != "" && path[0] != '#' && '?' !in path
    ensures a + (path + "?#") != b + path
  {
    var s, r := a + (path + "?#"), b + path;
    assert s[|s| - 2] == '?' && s[|s| - 1] == '#';
    assert r[|r| - 1] == path[|path| - 1];
    assert |path| >= 2 ==> r[|r| - 2] == path[|path| - 2];
  }

  lemma HeadsOfEdit(p: Parts, path: string)
    requires p.site.HostAndPath?
    ensures var p' := EditPath(p, path);
      && Join(p) == HeadOf(p) + JoinTail(p.site.tail) && Join(p') == HeadOf(p) + JoinTail(p'.site.tail)
  {
    JoinBeforeTail(p);
    JoinBeforeTail(EditPath(p, path));
  }

  lemma PrefixOfSchemeEnd(h: string)
    requires |h| < 3 && h == SCHEME_END[..|h|]
    ensures '@' !in h && (h != "" ==> h[0] == ':') && (|h| == 2 ==> h[1] == '/')
  {
  }

  lemma HeadStarts(u: Option<string>, host: string, port: Port)
    ensures u.Some? ==> '@' in After(u, "@") + host + JoinPort(port)
    ensures host != "" ==> (host + JoinPort(port))[0] in host
    ensures port.Port? && port.text != "" ==> JoinPort(port)[1] in port.text
  {
    if u.Some? {
      assert (After(u, "@") + host + JoinPort(port))[|u.value|] == '@';
    }
  }

  /** A head that is a proper prefix of "://" is empty or the ':' of an empty port. */
  lemma ShortHead(p: Parts)
    requires p.site.HostAndPath? && Canonical(p) && p.scheme.None?
    requires |HeadOf(p)| < 3 && HeadOf(p) == SCHEME_END[..|HeadOf(p)|]
    ensures |HeadOf(p)| <= 1
  {
    var u, host, port := After(p.userinfo, "@"), p.site.host, JoinPort(p.site.port);
    PrefixOfSchemeEnd(HeadOf(p));
    HeadStarts(p.userinfo, host, p.site.port);
    assert HeadOf(p) == u + host + port;
  }

  lemma SchemeInHead(h: string, s: string, t: string)
    requires |h| >= 3 && SCHEME_END <= h + s
    ensures Occurs(SCHEME_END, h + t)
  {
    assert SCHEME_END == (h + s)[..3] == h[..3] == (h + t)[..3];
    assert (h + t)[0..] == h + t;
  }

  lemma EmptySchemeFirst(q: Parts, s: string)
    requires q.scheme == Some("") && Join(q) == s
    ensures SCHEME_END <= s
  {
    assert Join(q) == SCHEME_END + JoinUser(q.userinfo, q.site);
  }

  lemma ShortPrefix(h: string, s: string)
    requires |h| < 3 && SCHEME_END <= h + s
    ensures h == SCHEME_END[..|h|]
  {
    assert h == (h + s)[..|h|];
  }

  lemma PathAfterShortHead(h: string, t: Tail)
    requires |h| <= 1 && SCHEME_END <= h + JoinTail(t)
    ensures t.path != "" && t.path[0] != '#'
  {
    assert (h + JoinTail(t))[|h|] == JoinTail(t)[0];
  }

  /** Behind an empty scheme the path cannot be the same one. */
  lemma EmptySchemeNeedsHead(p: Parts, path: string, q: Parts)
    requires ReadsBack(p, path, q) && q.scheme == Some("") && |HeadOf(p)| <= 1
    ensures q.site.HostAndPath? ==> |HeadOf(q)| <= |HeadOf(p)| + 1
  {
    var p' := EditPath(p, path);
    var h := HeadOf(p);
    HeadsOfEdit(p, path);
    EmptySchemeFirst(q, h + JoinTail(p'.site.tail));
    PathAfterShortHead(h, p'.site.tail);
    NoQuestionMark(p, path, q);
    if q.site.HostAndPath? {
      JoinBeforeTail(q);
      NoSlip(h, HeadOf(q), p'.site.tail, q.site.tail);
    }
  }

  lemma EmptySchemeIsPath(p: Parts, path: string, q: Parts)
    requires ReadsBack(p, path, q) && q.scheme == Some("") && |HeadOf(p)| <= 1
    ensures path != ""
  {
    HeadsOfEdit(p, path);
    EmptySchemeFirst(q, Join(EditPath(p, path)));
    PathAfterShortHead(HeadOf(p), EditPath(p, path).site.tail);
  }

  /** An edit cannot make a scheme of its own that is read as empty. */
  lemma NoSchemeAppears(p: Parts, path: string, q: Parts)
    requires ReadsBack(p, path, q) && p.scheme.None?
    ensures q.scheme.None?
  {
    if q.scheme.Some? {
      var h, t, t' := HeadOf(p), JoinTail(p.site.tail), JoinTail(EditPath(p, path).site.tail);
      HeadsOfEdit(p, path);
      EmptySchemeFirst(q, h + t');
      if |h| >= 3 {
        SchemeInHead(h, t', t);
      } else {
        ShortPrefix(h, t');
        ShortHead(p);
        NoQuestionMark(p, path, q);
        EmptySchemeIsPath(p, path, q);
        EmptySchemeNeedsHead(p, path, q);
      }
    }
  }

  lemma FirstChar(host: string, port: Port, t: Tail)
    ensures var s := host + JoinPort(port) + JoinTail(t);
      && (host != "" ==> s[0] in host)
      && (host == "" && !port.NoColon? ==> s[0] == ':')
      && (host == "" && port.NoColon? ==> s == JoinTail(t))
  {
  }

  lemma FirstOfTail(t: Tail)
    ensures JoinTail(t) != "" ==>
      JoinTail(t)[0] == (if t.path != "" then t.path[0] else if t.query.Some? then '?' else '#')
  {
  }

  /** An '@' before everything else would have to start the path. */
  lemma EmptyUserinfoIsPath(p: Parts, path: string, q: Parts)
    requires ReadsBack(p, path, q) && p.userinfo.None? && q.userinfo == Some("")
    requires "@" + JoinSite(q.site) == JoinSite(EditPath(p, path).site)
    ensures p.site.host == "" && path != "" && path[0] == '@'
    ensures "@" + JoinSite(q.site) == JoinTail(EditPath(p, path).site.tail)
  {
    var t := EditPath(p, path).site.tail;
    assert ("@" + JoinSite(q.site))[0] == '@';
    AtInSite(p.site);
    FirstChar(p.site.host, p.site.port, t);
    FirstOfTail(t);
  }

  lemma NoSlipBehindAt(host: string, t: Tail, u: Tail)
    requires SameTexts(t, u)
    requires t.path != "" && t.path[0] != '#' && '?' !in t.path
    ensures "@" + (host + ":" + JoinTail(u)) != JoinTail(t)
  {
    var b := "@" + host + ":";
    assert "@" + (host + ":" + JoinTail(u)) == b + JoinTail(u);
    assert "" + JoinTail(t) == JoinTail(t);
    if b + JoinTail(u) == JoinTail(t) { NoSlip("", b, t, u); }
  }

  lemma EmptyUserinfoNeedsHead(p: Parts, path: string, q: Parts)
    requires ReadsBack(p, path, q) && path != "" && path[0] == '@'
    requires "@" + JoinSite(q.site) == JoinTail(EditPath(p, path).site.tail)
    ensures q.site.HostAndPath? && !q.site.port.Lost?
  {
    NoQuestionMark(p, path, q);
    if q.site.HostAndPath? { NoSlipBehindAt(q.site.host, EditPath(p, path).site.tail, q.site.tail); }
  }

  /** Nor an empty user information. */
  lemma NoUserinfoAppears(p: Parts, path: string, q: Parts)
    requires ReadsBack(p, path, q) && p.userinfo.None?
    requires JoinUser(q.userinfo, q.site) == JoinSite(EditPath(p, path).site)
    ensures q.userinfo.None?
  {
    if q.userinfo.Some? {
      assert JoinUser(q.userinfo, q.site) == "@" + JoinSite(q.site);
      EmptyUserinfoIsPath(p, path, q);
      EmptyUserinfoNeedsHead(p, path, q);
      NoQuestionMark(p, path, q);
    }
  }

  // ----- Clause by clause, once scheme and user information agree -----

  ghost predicate ReadsBackSite(p: Parts, path: string, q: Parts) {
    && ReadsBack(p, path, q)
    && p.scheme.Some? == q.scheme.Some? && p.userinfo.Some? == q.userinfo.Some?
    && JoinSite(q.site) == JoinSite(EditPath(p, path).site)
  }

  lemma SameSite(p: Parts, path: string, q: Parts)
    requires ReadsBack(p, path, q)
    ensures ReadsBackSite(p, path, q)
  {
    SameScheme(p, path, q);
    SameUserinfo(p, path, q);
  }

  lemma SameRest(a: string, x: string, b: string, y: string)
    requires a + x == b + y && |a| == |b|
    ensures x == y
  {
    assert (a + x)[|a|..] == x;
    assert (b + y)[|b|..] == y;
  }

  lemma SchemeOccurs(x: string, y: string)
    ensures Occurs(SCHEME_END, x + SCHEME_END + y)
  {
    assert (x + SCHEME_END + y)[|x|..] == SCHEME_END + y;
  }

  lemma SameScheme(p: Parts, path: string, q: Parts)
    requires ReadsBack(p, path, q)
    ensures p.scheme == q.scheme && JoinUser(q.userinfo, q.site) == JoinUser(p.userinfo, EditPath(p, path).site)
  {
    var user, user' := JoinUser(p.userinfo, EditPath(p, path).site), JoinUser(q.userinfo, q.site);
    if p.scheme.None? {
      NoSchemeAppears(p, path, q);
    } else {
      SchemeOccurs(p.scheme.value, user);
    }
    SameRest(After(p.scheme, SCHEME_END), user, After(q.scheme, SCHEME_END), user');
  }

  lemma SameUserinfo(p: Parts, path: string, q: Parts)
    requires ReadsBack(p, path, q) && JoinUser(q.userinfo, q.site) == JoinUser(p.userinfo, EditPath(p, path).site)
    ensures p.userinfo == q.userinfo && JoinSite(q.site) == JoinSite(EditPath(p, path).site)
  {
    var site, site' := JoinSite(EditPath(p, path).site), JoinSite(q.site);
    if p.userinfo.None? {
      NoUserinfoAppears(p, path, q);
    } else {
      assert (After(p.userinfo, "@") + site)[|p.userinfo.value|] == '@';
      assert '@' in After(q.userinfo, "@") + site';
    }
    SameRest(After(p.userinfo, "@"), site, After(q.userinfo, "@"), site');
  }

  lemma SlotOfQuery(host: string, a: string, b: string, path: string, x: string, y: string)
    requires path != "" && |a| <= |b| + 1 && '?' !in path && '?' !in x
    ensures host + a + (path + x) != host + b + (path + ("?" + y))
  {
    var s, r, k := host + a + (path + x), host + b + (path + ("?" + y)), |host| + |b| + |path|;
    assert r[k] == '?';
    assert k < |s| ==> s[k] == (path + x)[|b| + |path| - |a|];
  }

  lemma PortWidth(a: Port, b: Port)
    requires PortText(a) == PortText(b)
    ensures |JoinPort(a)| <= |JoinPort(b)| + 1
  {
  }

  lemma NoFragmentInPath(p: Parts, path: string, q: Parts)
    requires ReadsBackSite(p, path, q) && p.site.tail.query.None?
    ensures '#' !in path
  {
    NoQuestionMark(p, path, q);
    if q.site.HostAndPath? && path != "" { NoEmptyQuery(p.site, path, q.site); }
  }

  lemma NoEmptyQuery(s: Site, path: string, r: Site)
    requires s.HostAndPath? && r.HostAndPath? && CanonicalSite(s) && s.tail.query.None? && '?' !in path && path != ""
    requires r.host == s.host && PortText(r.port) == PortText(s.port) && r.tail.path == path
    requires JoinSite(r) == JoinSite(s.(tail := s.tail.(path := path)))
    ensures r.tail.query.None?
  {
    if r.tail.query == Some(OrElse(r.tail.query, "")) {
      var a, b, f := JoinPort(s.port), JoinPort(r.port), Before("#", s.tail.fragment);
      var y := OrElse(r.tail.query, "") + Before("#", r.tail.fragment);
      PortWidth(s.port, r.port);
      JoinTailParts(s.tail.(path := path));
      JoinTailParts(r.tail);
      assert JoinSite(r) == r.host + b + (path + ("?" + y));
      SlotOfQuery(s.host, a, b, path, f, y);
    }
  }

  lemma JoinTailParts(t: Tail)
    ensures JoinTail(t) ==
      if t.query.None? then t.path + Before("#", t.fragment)
      else t.path + ("?" + (t.query.value + Before("#", t.fragment)))
  {
  }

  lemma JoinEmptyPort(s: Site)
    requires s.HostAndPath? && PortText(s.port) == ""
    ensures JoinSite(s) == if s.port.NoColon? then s.host + "" + JoinTail(s.tail) else s.host + ":" + JoinTail(s.tail)
  {
  }

  lemma HostIsAll(host: string, text: string)
    requires host + "" + text == host
    ensures text == ""
  {
    assert |host + "" + text| == |host| + |text|;
  }

  lemma PortOfNoColon(p: Parts, path: string, q: Parts)
    requires ReadsBackSite(p, path, q) && p.site.port.NoColon?
    ensures (StartsWithSlash(path) && ':' !in path) || JoinTail(EditPath(p, path).site.tail) == ""
  {
    var site := EditPath(p, path).site;
    NoQuestionMark(p, path, q);
    if site.tail.query.None? { NoFragmentInPath(p, path, q); }
    JoinEmptyPort(site);
    if q.site.HostOnly? {
      HostIsAll(site.host, JoinTail(site.tail));
    } else {
      JoinEmptyPort(q.site);
      NoShiftedColon(site.host, site.tail, q.site.tail);
      CharsOfTail(q.site.tail, ':');
    }
  }

  lemma NoShiftedColon(host: string, t: Tail, u: Tail)
    requires t.path == u.path && '?' !in t.path && (t.query.None? ==> '#' !in t.path)
    ensures host + "" + JoinTail(t) != host + ":" + JoinTail(u)
  {
    var path := t.path;
    var s, r := host + "" + JoinTail(t), host + ":" + JoinTail(u);
    var k := |host| + |path|;
    assert path != "" ==> r[k] == path[|path| - 1];
    assert path == "" ==> r[k] == ':';
    assert k < |s| ==> s[k] == JoinQuery(t.query, t.fragment)[0];
  }

  lemma PortOfColon(p: Parts, path: string, q: Parts)
    requires ReadsBackSite(p, path, q) && !p.site.port.NoColon?
    ensures StartsWithSlash(path) || (PortText(p.site.port) == "" && '/' !in JoinTail(EditPath(p, path).site.tail))
  {
    var site := EditPath(p, path).site;
    NoQuestionMark(p, path, q);
    assert JoinSite(site)[|site.host|] == ':';
    assert ':' in JoinSite(q.site);
    if q.site.HostAndPath? && q.site.port.Lost? {
      assert JoinSite(site)[|site.host| + |JoinPort(site.port)|..] == JoinTail(site.tail);
      assert JoinSite(q.site)[|q.site.host| + 1..] == JoinTail(q.site.tail);
    }
  }

  lemma ReadBackFits(p: Parts, path: string, q: Parts)
    requires ReadsBack(p, path, q)
    ensures TextsFit(p, path)
  {
    SameSite(p, path, q);
    NoQuestionMark(p, path, q);
    if p.userinfo.None? { NoAtInEdit(p, path); }
    if p.site.tail.query.None? { NoFragmentInPath(p, path, q); }
    if p.site.port.NoColon? { PortOfNoColon(p, path, q); } else { PortOfColon(p, path, q); }
  }

  // ----- Exactly -----

  /** Re-reading the buffer after an edit of a parsed URL gives the seven edited texts if and only
      if the new path fits between its neighbours. */
  lemma EditReadsBackExactly(s: string, path: string)
    requires Split(s).site.HostAndPath?
    ensures Writable(Parse(s))
    ensures var edited := WithPath(Parse(s), path);
      Bounded(edited) && Bounded(Parse(edited.buf)) &&
      (Texts(Parse(edited.buf)) == Texts(edited) <==> TextsFit(Split(s), path))
  {
    var p := Split(s);
    var p' := EditPath(p, path);
    var q := Split(Join(p'));
    EditIsLayout(p, path);
    TextsOfLayout(p');
    TextsOfLayout(q);
    SplitIsCanonical(s);
    SplitIsCanonical(Join(p'));
    JoinSplit(Join(p'));
    if TextsFit(p, path) { FitsIsReadBack(p, path); }
    if ComponentsOf(q) == ComponentsOf(p') { ReadBackFits(p, path, q); }
  }

  /** In particular well-formed edited texts are read back if no empty one has a delimiter in the buffer. */
  lemma WellFormedEditReadsBack(s: string, path: string)
    requires Split(s).site.HostAndPath?
    requires var p' := EditPath(Split(s), path); WellFormed(ComponentsOf(p')) && Dropped(p') == 0
    ensures Writable(Parse(s))
    ensures var edited := WithPath(Parse(s), path);
      Bounded(edited) && Bounded(Parse(edited.buf)) && Texts(Parse(edited.buf)) == Texts(edited)
  {
    WellFormedEditFits(s, path);
    EditReadsBackExactly(s, path);
  }

  lemma WellFormedEditFits(s: string, path: string)
    requires Split(s).site.HostAndPath?
    requires var p' := EditPath(Split(s), path); WellFormed(ComponentsOf(p')) && Dropped(p') == 0
    ensures TextsFit(Split(s), path)
  {
    var p' := EditPath(Split(s), path);
    RecomposeJoins(p');
    DroppedNone(p');
    ParseAfterPrint(ComponentsOf(p'));
    var q := Split(Join(p'));
    TextsOfLayout(q);
    SplitIsCanonical(s);
    SplitIsCanonical(Join(p'));
    JoinSplit(Join(p'));
    ReadBackFits(Split(s), path, q);
  }
}
