/** What parsing, printing and editing a URL preserve, and exactly when. */
module UrlLaws {
  import opened Options
  import opened Scan
  import opened Urls

  // ----- Parsing inverts joining exactly on canonical pieces -----

  predicate CanonicalTail(t: Tail) {
    && '?' !in t.path
    && (t.query.Some? ==> '#' !in t.query.value)
    && (t.query.None? ==> '#' !in t.path && (t.fragment.Some? ==> '?' !in t.fragment.value))
  }

  predicate StartsWithSlash(path: string) {
    path != "" && path[0] == '/'
  }

  predicate CanonicalSite(s: Site) {
    match s
    case HostOnly(host) => ':' !in host && '/' !in host
    case HostAndPath(host, port, tail) =>
      && ':' !in host
      && CanonicalTail(tail)
      && (match port
          case NoColon => '/' !in host && StartsWithSlash(tail.path) && ':' !in JoinTail(tail)
          case Lost => '/' !in JoinTail(tail)
          case Port(x) => '/' !in x && StartsWithSlash(tail.path))
  }

  ghost predicate Canonical(p: Parts) {
    && (if p.scheme.Some? then !Occurs(SCHEME_END, p.scheme.value) else !Occurs(SCHEME_END, Join(p)))
    && (if p.userinfo.Some? then '@' !in p.userinfo.value else '@' !in JoinSite(p.site))
    && CanonicalSite(p.site)
  }

  lemma QueryInFront(path: string, q: string, f: string)
    ensures path + (("?" + q) + f) == path + ['?'] + (q + f)
  {
  }

  /** The fragment is found behind a text if and only if the text holds no '#'. */
  lemma HashExact(x: string, fragment: Option<string>)
    ensures Until(x + Before("#", fragment), "#") == (match fragment case None => None case Some(f) => Some((x, f)))
      <==> '#' !in x
  {
    var s := x + Before("#", fragment);
    CutChar(s, '#', true);
    match fragment
    case None =>
      assert s == x;
    case Some(f) =>
      assert s == x + ['#'] + f;
      if '#' !in x { CutCharAt(x, '#', f, true); }
  }

  lemma SplitTailQuery(t: Tail)
    requires t.query.Some? && '?' !in t.path
    ensures SplitTail(JoinTail(t)) == t <==> CanonicalTail(t)
  {
    var q, f := t.query.value, Before("#", t.fragment);
    QueryInFront(t.path, q, f);
    CutCharAt(t.path, '?', q + f, true);
    HashExact(q, t.fragment);
    assert t.fragment.None? ==> q + f == q;
  }

  lemma QuestionMarkBehind(path: string, fragment: Option<string>)
    requires '?' !in path
    ensures '?' in path + Before("#", fragment) <==> fragment.Some? && '?' in fragment.value
  {
    if fragment.Some? {
      var f, s := fragment.value, path + ("#" + fragment.value);
      assert forall i :: 0 <= i < |f| ==> s[|path| + 1 + i] == f[i];
    }
  }

  lemma SplitTailNoQuery(t: Tail)
    requires t.query.None? && '?' !in t.path
    ensures SplitTail(JoinTail(t)) == t <==> CanonicalTail(t)
  {
    var s := t.path + Before("#", t.fragment);
    assert JoinTail(t) == s by { assert "" + Before("#", t.fragment) == Before("#", t.fragment); }
    CutChar(s, '?', true);
    QuestionMarkBehind(t.path, t.fragment);
    HashExact(t.path, t.fragment);
    assert t.fragment.None? ==> s == t.path;
  }

  lemma SplitTailExact(t: Tail)
    ensures SplitTail(JoinTail(t)) == t <==> CanonicalTail(t)
  {
    if '?' !in t.path {
      if t.query.Some? { SplitTailQuery(t); } else { SplitTailNoQuery(t); }
    } else {
      var s := JoinTail(t);
      CutChar(s, '?', true);
    }
  }

  lemma JoinTailStart(t: Tail)
    ensures (JoinTail(t) != "" && JoinTail(t)[0] == '/') <==> StartsWithSlash(t.path)
  {
  }

  /** The non-consuming cut at '/' separates what precedes the path if and only if the path starts with it. */
  lemma CutSlashExact(x: string, t: Tail)
    ensures Cut(x + JoinTail(t), ["/"], false) == Some((x, JoinTail(t))) <==> '/' !in x && StartsWithSlash(t.path)
  {
    var text := JoinTail(t);
    JoinTailStart(t);
    CutChar(x + text, '/', false);
    if '/' !in x && StartsWithSlash(t.path) {
      assert text == ['/'] + text[1..];
      assert x + text == x + ['/'] + text[1..];
      CutCharAt(x, '/', text[1..], false);
    }
  }

  lemma CutSlashPrefix(x: string, text: string)
    ensures var r := Cut(x + text, ["/"], false);
      r.Some? && r.value.0 == x ==> r.value.1 == text
  {
    CutChar(x + text, '/', false);
    var r := Cut(x + text, ["/"], false);
    if r.Some? && r.value.0 == x {
      assert (x + r.value.1)[|x|..] == r.value.1;
      assert (x + text)[|x|..] == text;
    }
  }

  function PortText(p: Port): string {
    if p.Port? then p.text else ""
  }

  lemma JoinSiteParts(host: string, port: Port, tail: Tail)
    ensures JoinSite(HostAndPath(host, port, tail)) ==
      if port.NoColon? then host + JoinTail(tail) else host + [':'] + (PortText(port) + JoinTail(tail))
  {
    assert host + "" == host && "" + JoinTail(tail) == JoinTail(tail);
    assert port.Port? ==> host + (":" + port.text) + JoinTail(tail) == host + [':'] + (port.text + JoinTail(tail));
  }

  lemma SplitSitePort(host: string, x: string, tail: Tail)
    requires ':' !in host
    ensures var s := HostAndPath(host, Port(x), tail);
      SplitSite(JoinSite(s)) == s <==> CanonicalSite(s)
  {
    JoinSiteParts(host, Port(x), tail);
    CutCharAt(host, ':', x + JoinTail(tail), true);
    SplitTailExact(tail);
    CutSlashExact(x, tail);
    CutSlashPrefix(x, JoinTail(tail));
  }

  lemma SplitSiteLost(host: string, tail: Tail)
    requires ':' !in host
    ensures var s := HostAndPath(host, Lost, tail);
      SplitSite(JoinSite(s)) == s <==> CanonicalSite(s)
  {
    var rest := JoinTail(tail);
    JoinSiteParts(host, Lost, tail);
    assert "" + rest == rest;
    CutCharAt(host, ':', rest, true);
    CutChar(rest, '/', false);
    SplitTailExact(tail);
  }

  lemma ColonBehind(host: string, text: string)
    requires ':' !in host
    ensures ':' in host + text <==> ':' in text
  {
    assert forall i :: 0 <= i < |text| ==> (host + text)[|host| + i] == text[i];
  }

  lemma SplitSiteNoColon(host: string, tail: Tail)
    requires ':' !in host
    ensures var s := HostAndPath(host, NoColon, tail);
      SplitSite(JoinSite(s)) == s <==> CanonicalSite(s)
  {
    var text := JoinTail(tail);
    JoinSiteParts(host, NoColon, tail);
    ColonBehind(host, text);
    CutChar(host + text, ':', true);
    SplitTailExact(tail);
    CutSlashExact(host, tail);
    CutSlashPrefix(host, text);
  }

  lemma SplitSiteExact(s: Site)
    ensures SplitSite(JoinSite(s)) == s <==> CanonicalSite(s)
  {
    var text := JoinSite(s);
    CutChar(text, ':', true);
    CutChar(text, '/', false);
    if s.HostAndPath? && ':' !in s.host {
      match s.port
      case NoColon => SplitSiteNoColon(s.host, s.tail);
      case Lost => SplitSiteLost(s.host, s.tail);
      case Port(x) => SplitSitePort(s.host, x, s.tail);
    }
  }

  lemma SplitUserExact(u: Option<string>, s: Site)
    ensures SplitUser(JoinUser(u, s)) == (u, s)
      <==> CanonicalSite(s) && (if u.Some? then '@' !in u.value else '@' !in JoinSite(s))
  {
    var text, site := JoinUser(u, s), JoinSite(s);
    SplitSiteExact(s);
    CutChar(text, '@', true);
    if u.Some? {
      assert text == u.value + ['@'] + site;
      if '@' !in u.value { CutCharAt(u.value, '@', site, true); }
    } else {
      assert text == site;
    }
  }

  /** Parsing gives back the pieces a text was joined from if and only if they are canonical. */
  lemma SplitJoinExact(p: Parts)
    ensures Split(Join(p)) == p <==> Canonical(p)
  {
    var text, user := Join(p), JoinUser(p.userinfo, p.site);
    SplitUserExact(p.userinfo, p.site);
    UntilNone(text, SCHEME_END);
    if p.scheme.Some? {
      var x := p.scheme.value;
      if !Occurs(SCHEME_END, x) {
        CutSchemeAt(x, user);
        assert text == x + SCHEME_END + user;
      } else if Until(text, SCHEME_END).Some? {
        CutSchemeSplits(text);
      }
    } else {
      assert text == user;
    }
  }

  /** Every parse result is canonical. */
  lemma SplitIsCanonical(s: string)
    ensures Canonical(Split(s))
  {
    JoinSplit(s);
    SplitJoinExact(Split(s));
  }

  // ----- Where the port and the path are found -----

  /** The text after the scheme and the user information. */
  function AfterUserinfo(url: string): string {
    AfterToken(AfterToken(url, SCHEME_END), "@")
  }

  lemma SiteIsSplit(url: string)
    ensures Split(url).site == SplitSite(AfterUserinfo(url))
  {
  }

  /** `t` up to its first ':' and what follows it. */
  predicate FirstColon(t: string, x: string, y: string) {
    ':' !in x && t == x + [':'] + y
  }

  ghost predicate SlashAfterColon(t: string) {
    exists x: string, y: string :: FirstColon(t, x, y) && '/' in y
  }

  lemma PortExact(t: string)
    ensures SplitSite(t).HostAndPath? && SplitSite(t).port.Port? <==> SlashAfterColon(t)
  {
    CutChar(t, ':', true);
    if Until(t, ":").Some? {
      var (x, y) := Until(t, ":").value;
      CutChar(y, '/', false);
      assert FirstColon(t, x, y);
    }
    forall x: string, y: string | FirstColon(t, x, y) ensures Until(t, ":") == Some((x, y)) {
      CutCharAt(x, ':', y, true);
    }
  }

  lemma HostOnlyExact(t: string)
    ensures SplitSite(t).HostOnly? <==> ':' !in t && '/' !in t
  {
    CutChar(t, ':', true);
    CutChar(t, '/', false);
  }

  /** The path view is unset if and only if neither ':' nor '/' follows the user information, and the
      port view is set if and only if a '/' follows the first ':' there. */
  lemma ViewsSetExactly(url: string)
    ensures var t, r := AfterUserinfo(url), Layout(Split(url));
      && (r.path.Unset? <==> ':' !in t && '/' !in t)
      && (r.port.At? <==> SlashAfterColon(t))
  {
    SiteIsSplit(url);
    HostOnlyExact(AfterUserinfo(url));
    PortExact(AfterUserinfo(url));
  }

  /** Without that '/' what looks like a port begins the path. */
  lemma LostPortIsPath(host: string, rest: string)
    requires ':' !in host && '/' !in rest
    ensures SplitSite(host + ":" + rest) == HostAndPath(host, Lost, SplitTail(rest))
  {
    assert host + ":" + rest == host + [':'] + rest;
    CutCharAt(host, ':', rest, true);
    CutChar(rest, '/', false);
  }

  lemma SchemeNeedsSlash(t: string)
    ensures Until(t, SCHEME_END).Some? ==> '/' in t
  {
    if Until(t, SCHEME_END).Some? {
      CutSchemeSplits(t);
      assert t[|Until(t, SCHEME_END).value.0| + 1] == '/';
    }
  }

  lemma PlainText(t: string)
    requires '@' !in t && '/' !in t && '?' !in t && '#' !in t
    ensures Split(t) == Parts(None, None, SplitSite(t)) && SplitTail(t) == Tail(t, None, None)
  {
    SchemeNeedsSlash(t);
    CutChar(t, '@', true);
    CutChar(t, '?', true);
    CutChar(t, '#', true);
  }

  // ----- Components -----

  /** What the accessors return, in terms of the pieces. */
  function ComponentsOf(p: Parts): Components {
    match p.site
    case HostOnly(host) => Components(OrElse(p.scheme, ""), OrElse(p.userinfo, ""), host, "", "", "", "")
    case HostAndPath(host, port, Tail(path, query, fragment)) =>
      Components(OrElse(p.scheme, ""), OrElse(p.userinfo, ""), host, PortText(port), path,
                 OrElse(query, ""), OrElse(fragment, ""))
  }

  predicate Shows(buf: string, v: View, x: string) {
    InBounds(buf, v) && Text(buf, v) == x
  }

  predicate EndsWith(buf: string, tail: string) {
    |tail| <= |buf| && buf[|buf| - |tail|..] == tail
  }

  lemma EndsWithSuffix(buf: string, tail: string, pre: string, post: string)
    requires EndsWith(buf, tail) && tail == pre + post
    ensures EndsWith(buf, post)
  {
    assert tail[|pre|..] == post;
    assert buf[|buf| - |post|..] == tail[|pre|..];
  }

  /** A view at the place `x` has in a suffix of the buffer shows `x`. */
  lemma ShowsTail(buf: string, tail: string, pre: string, x: string, post: string)
    requires EndsWith(buf, tail) && tail == pre + (x + post)
    ensures Shows(buf, At(|buf| - |tail| + |pre|, |x|), x)
  {
    var at := |buf| - |tail| + |pre|;
    assert tail[|pre|..|pre| + |x|] == x;
    assert buf[at..at + |x|] == tail[|pre|..|pre| + |x|];
  }

  lemma ShowsFirst(buf: string, tail: string, x: string, post: string)
    requires EndsWith(buf, tail) && tail == x + post
    ensures Shows(buf, At(|buf| - |tail|, |x|), x)
  {
    assert tail == "" + (x + post);
    ShowsTail(buf, tail, "", x, post);
  }

  lemma SchemeShows(buf: string, scheme: Option<string>, user: string)
    requires buf == After(scheme, SCHEME_END) + user
    ensures EndsWith(buf, user) && Shows(buf, ViewOf(0, scheme), OrElse(scheme, ""))
  {
    assert EndsWith(buf, buf);
    EndsWithSuffix(buf, buf, After(scheme, SCHEME_END), user);
    if scheme.Some? {
      Reassociate(scheme.value, SCHEME_END, user);
      ShowsFirst(buf, buf, scheme.value, SCHEME_END + user);
    }
  }

  lemma Reassociate(a: string, b: string, c: string)
    ensures (a + b) + c == a + (b + c)
  {
  }

  lemma UserinfoShows(buf: string, userinfo: Option<string>, user: string, site: string)
    requires EndsWith(buf, user) && user == After(userinfo, "@") + site
    ensures EndsWith(buf, site) && Shows(buf, ViewOf(|buf| - |user|, userinfo), OrElse(userinfo, ""))
  {
    EndsWithSuffix(buf, user, After(userinfo, "@"), site);
    if userinfo.Some? {
      Reassociate(userinfo.value, "@", site);
      ShowsFirst(buf, user, userinfo.value, "@" + site);
    }
  }

  lemma SiteShows(buf: string, site: string, host: string, port: Port, text: string)
    requires EndsWith(buf, site) && site == host + JoinPort(port) + text
    ensures EndsWith(buf, text)
    ensures Shows(buf, At(|buf| - |site|, |host|), host)
  {
    EndsWithSuffix(buf, site, host + JoinPort(port), text);
    Reassociate(host, JoinPort(port), text);
    ShowsFirst(buf, site, host, JoinPort(port) + text);
  }

  lemma PortShows(buf: string, site: string, host: string, port: Port, text: string)
    requires EndsWith(buf, site) && site == host + JoinPort(port) + text
    ensures Shows(buf, PortView(|buf| - |site| + |host| + 1, port), PortText(port))
  {
    if port.Port? {
      Reassociate(host, ":", port.text);
      Reassociate(host + ":", port.text, text);
      ShowsTail(buf, site, host + ":", port.text, text);
    }
  }

  lemma PathShows(buf: string, text: string, path: string, q: string)
    requires EndsWith(buf, text) && text == path + q
    ensures EndsWith(buf, q) && Shows(buf, At(|buf| - |text|, |path|), path)
  {
    EndsWithSuffix(buf, text, path, q);
    ShowsFirst(buf, text, path, q);
  }

  lemma QueryShows(buf: string, q: string, query: Option<string>, f: string)
    requires EndsWith(buf, q) && q == Before("?", query) + f
    ensures EndsWith(buf, f) && Shows(buf, ViewOf(|buf| - |q| + 1, query), OrElse(query, ""))
  {
    EndsWithSuffix(buf, q, Before("?", query), f);
    if query.Some? {
      Reassociate("?", query.value, f);
      ShowsTail(buf, q, "?", query.value, f);
    }
  }

  lemma FragmentShows(buf: string, fragment: Option<string>)
    requires EndsWith(buf, Before("#", fragment))
    ensures Shows(buf, ViewOf(|buf| - |Before("#", fragment)| + 1, fragment), OrElse(fragment, ""))
  {
    if fragment.Some? {
      assert fragment.value + "" == fragment.value;
      ShowsTail(buf, "#" + fragment.value, "#", fragment.value, "");
    }
  }

  lemma EndsWithQuery(buf: string, t: Tail)
    requires EndsWith(buf, JoinTail(t))
    ensures EndsWith(buf, JoinQuery(t.query, t.fragment))
  {
    EndsWithSuffix(buf, JoinTail(t), t.path, JoinQuery(t.query, t.fragment));
  }

  lemma QueryOfTailShows(buf: string, t: Tail)
    requires EndsWith(buf, JoinTail(t))
    ensures Shows(buf, ViewOf(|buf| - |JoinQuery(t.query, t.fragment)| + 1, t.query), OrElse(t.query, ""))
  {
    EndsWithQuery(buf, t);
    QueryShows(buf, JoinQuery(t.query, t.fragment), t.query, Before("#", t.fragment));
  }

  lemma FragmentOfTailShows(buf: string, t: Tail)
    requires EndsWith(buf, JoinTail(t))
    ensures Shows(buf, ViewOf(|buf| - |Before("#", t.fragment)| + 1, t.fragment), OrElse(t.fragment, ""))
  {
    EndsWithQuery(buf, t);
    QueryShows(buf, JoinQuery(t.query, t.fragment), t.query, Before("#", t.fragment));
    FragmentShows(buf, t.fragment);
  }

  lemma TailViewsFromEnd(size: nat, t: Tail, pa: View, qu: View, fr: View)
    requires TailViews(t, size - |JoinTail(t)|, pa, qu, fr)
    ensures pa == At(size - |JoinTail(t)|, |t.path|)
    ensures qu == ViewOf(size - |JoinQuery(t.query, t.fragment)| + 1, t.query)
    ensures fr == ViewOf(size - |Before("#", t.fragment)| + 1, t.fragment)
  {
  }

  predicate AllShow(r: Rep, c: Components) {
    Shows(r.buf, r.scheme, c.scheme) && Shows(r.buf, r.userinfo, c.userinfo) && Shows(r.buf, r.host, c.host) &&
    Shows(r.buf, r.port, c.port) && Shows(r.buf, r.path, c.path) && Shows(r.buf, r.query, c.query) &&
    Shows(r.buf, r.fragment, c.fragment)
  }

  lemma UserViewsShow(p: Parts)
    ensures var r := Layout(p);
      && EndsWith(r.buf, JoinSite(p.site))
      && Shows(r.buf, r.scheme, OrElse(p.scheme, "")) && Shows(r.buf, r.userinfo, OrElse(p.userinfo, ""))
  {
    SchemeShows(Join(p), p.scheme, JoinUser(p.userinfo, p.site));
    UserinfoShows(Join(p), p.userinfo, JoinUser(p.userinfo, p.site), JoinSite(p.site));
  }

  lemma HostViewsShow(p: Parts)
    ensures var r := Layout(p);
      && Shows(r.buf, r.host, p.site.host)
      && (p.site.HostAndPath? ==> EndsWith(r.buf, JoinTail(p.site.tail)) && Shows(r.buf, r.port, PortText(p.site.port)))
  {
    var site := JoinSite(p.site);
    assert EndsWith(Join(p), site) by { UserViewsShow(p); }
    match p.site
    case HostOnly(host) =>
      assert site == host + "";
      ShowsFirst(Join(p), site, host, "");
    case HostAndPath(host, port, tail) =>
      SiteShows(Join(p), site, host, port, JoinTail(tail));
      PortShows(Join(p), site, host, port, JoinTail(tail));
  }

  lemma LayoutTailViews(p: Parts)
    requires p.site.HostAndPath?
    ensures var r, t := Layout(p), p.site.tail;
      TailViews(t, |r.buf| - |JoinTail(t)|, r.path, r.query, r.fragment)
  {
  }

  lemma TailOfLayout(p: Parts)
    requires p.site.HostAndPath?
    ensures var r, t := Layout(p), p.site.tail;
      && EndsWith(r.buf, JoinTail(t))
      && r.path == At(|r.buf| - |JoinTail(t)|, |t.path|)
      && r.query == ViewOf(|r.buf| - |JoinQuery(t.query, t.fragment)| + 1, t.query)
      && r.fragment == ViewOf(|r.buf| - |Before("#", t.fragment)| + 1, t.fragment)
  {
    var r := Layout(p);
    HostViewsShow(p);
    LayoutTailViews(p);
    TailViewsFromEnd(|r.buf|, p.site.tail, r.path, r.query, r.fragment);
  }

  lemma PathViewShows(p: Parts)
    requires p.site.HostAndPath?
    ensures Shows(Layout(p).buf, Layout(p).path, p.site.tail.path)
  {
    var t := p.site.tail;
    TailOfLayout(p);
    PathShows(Layout(p).buf, JoinTail(t), t.path, JoinQuery(t.query, t.fragment));
  }

  lemma QueryViewShows(p: Parts)
    requires p.site.HostAndPath?
    ensures Shows(Layout(p).buf, Layout(p).query, OrElse(p.site.tail.query, ""))
  {
    TailOfLayout(p);
    QueryOfTailShows(Layout(p).buf, p.site.tail);
  }

  lemma FragmentViewShows(p: Parts)
    requires p.site.HostAndPath?
    ensures Shows(Layout(p).buf, Layout(p).fragment, OrElse(p.site.tail.fragment, ""))
  {
    TailOfLayout(p);
    FragmentOfTailShows(Layout(p).buf, p.site.tail);
  }

  /** The views stay inside the buffer and show exactly the pieces. */
  lemma TextsOfLayout(p: Parts)
    ensures Bounded(Layout(p)) && Texts(Layout(p)) == ComponentsOf(p)
  {
    var r, c := Layout(p), ComponentsOf(p);
    assert AllShow(r, c) by {
      UserViewsShow(p);
      HostViewsShow(p);
      if p.site.HostAndPath? {
        PathViewShows(p);
        QueryViewShows(p);
        FragmentViewShows(p);
      }
    }
  }

  predicate Plain(t: string) {
    '@' !in t && ':' !in t && '/' !in t && '?' !in t && '#' !in t
  }

  /** So host, ':' and digits without a slash have no port: the digits are the path. */
  lemma HostColonText(host: string, digits: string)
    requires Plain(host) && Plain(digits)
    ensures var r := Layout(Split(host + ":" + digits));
      Bounded(r) && Texts(r) == Components("", "", host, "", digits, "", "") && r.port.Unset? && r.path.At?
  {
    var t := host + ":" + digits;
    PlainText(t);
    PlainText(digits);
    LostPortIsPath(host, digits);
    TextsOfLayout(Split(t));
  }

  /** Such as this one. */
  lemma HostWithoutSlash()
    ensures Bounded(Parse("host:8080")) && Texts(Parse("host:8080")) == Components("", "", "host", "", "8080", "", "")
  {
    HostAndDigits();
    HostColonText("host", "8080");
  }

  lemma HostAndDigits()
    ensures Plain("host") && Plain("8080") && "host" + ":" + "8080" == "host:8080"
  {
  }

  lemma PlainHost(host: string)
    requires Plain(host)
    ensures Parse(host).path.Unset? && Parse(host).port.Unset?
  {
    PlainText(host);
    HostOnlyExact(host);
  }
}
