/** `url_t`: a text buffer with seven views into it. */
module Urls {
  import opened Options
  import opened Scan
  import Numbers

  // ----- Views -----

  /** A `string_view`: a default one is unset. In a `Url` object `data` is an address,
      in a `Rep` value it is an offset into the buffer. */
  datatype View = Unset | At(data: int, len: nat)

  /** `transfer`: the same view when the buffer moves from one address to another.
      An unset view, whose pointer is null, is taken to stay unset. */
  function Rebase(v: View, from: int, to: int): View {
    match v
    case Unset => Unset
    case At(d, n) => At(d - from + to, n)
  }

  function Shift(v: View, delta: int): View {
    Rebase(v, 0, delta)
  }

  lemma ShiftBack(v: View, at: int)
    ensures Rebase(Shift(v, at), at, 0) == v
  {
  }

  /** The buffer and its views as offsets: the value of a `url_t`, wherever its buffer lives. */
  datatype Rep = Rep(buf: string, scheme: View, userinfo: View, host: View, port: View,
                     path: View, query: View, fragment: View)

  predicate InBounds(buf: string, v: View) {
    v.At? ==> 0 <= v.data && v.data + v.len <= |buf|
  }

  predicate Bounded(r: Rep) {
    InBounds(r.buf, r.scheme) && InBounds(r.buf, r.userinfo) && InBounds(r.buf, r.host) && InBounds(r.buf, r.port) &&
    InBounds(r.buf, r.path) && InBounds(r.buf, r.query) && InBounds(r.buf, r.fragment)
  }

  function Text(buf: string, v: View): string
    requires InBounds(buf, v)
  {
    match v
    case Unset => ""
    case At(d, n) => buf[d..d + n]
  }

  // ----- Parsing, as a function -----

  /** The pieces `parse` finds. An option is present when its delimiter was consumed. */
  datatype Parts = Parts(scheme: Option<string>, userinfo: Option<string>, site: Site)

  /** A text without ':' and '/' is all host; its path view stays unset. */
  datatype Site = HostOnly(host: string) | HostAndPath(host: string, port: Port, tail: Tail)

  /** The ':' is consumed before the port is looked for, so it can be dropped: then `Lost`. */
  datatype Port = NoColon | Lost | Port(text: string)

  datatype Tail = Tail(path: string, query: Option<string>, fragment: Option<string>)

  function SplitTail(s: string): Tail {
    match Until(s, "?")
    case Some((path, rest)) =>
      (match Until(rest, "#")
       case Some((query, fragment)) => Tail(path, Some(query), Some(fragment))
       case None => Tail(path, Some(rest), None))
    case None =>
      match Until(s, "#")
      case Some((path, fragment)) => Tail(path, None, Some(fragment))
      case None => Tail(s, None, None)
  }

  function SplitSite(s: string): Site {
    match Until(s, ":")
    case Some((host, rest)) =>
      (match Cut(rest, ["/"], false)
       case Some((port, rest')) => HostAndPath(host, Port(port), SplitTail(rest'))
       case None => HostAndPath(host, Lost, SplitTail(rest)))
    case None =>
      match Cut(s, ["/"], false)
      case Some((host, rest)) => HostAndPath(host, NoColon, SplitTail(rest))
      case None => HostOnly(s)
  }

  function SplitUser(s: string): (Option<string>, Site) {
    match Until(s, "@")
    case Some((userinfo, rest)) => (Some(userinfo), SplitSite(rest))
    case None => (None, SplitSite(s))
  }

  function Split(s: string): Parts {
    match Until(s, SCHEME_END)
    case Some((scheme, rest)) => Parts(Some(scheme), SplitUser(rest).0, SplitUser(rest).1)
    case None => Parts(None, SplitUser(s).0, SplitUser(s).1)
  }

  // ----- Putting the pieces back -----

  function Before(delimiter: string, o: Option<string>): string {
    match o case None => "" case Some(x) => delimiter + x
  }

  function After(o: Option<string>, delimiter: string): string {
    match o case None => "" case Some(x) => x + delimiter
  }

  function JoinQuery(query: Option<string>, fragment: Option<string>): string {
    Before("?", query) + Before("#", fragment)
  }

  function JoinTail(t: Tail): string {
    t.path + JoinQuery(t.query, t.fragment)
  }

  function JoinPort(p: Port): string {
    match p case NoColon => "" case Lost => ":" case Port(x) => ":" + x
  }

  function JoinSite(s: Site): string {
    match s
    case HostOnly(host) => host
    case HostAndPath(host, port, tail) => host + JoinPort(port) + JoinTail(tail)
  }

  function JoinUser(userinfo: Option<string>, site: Site): string {
    After(userinfo, "@") + JoinSite(site)
  }

  /** The text with all its delimiters. */
  function Join(p: Parts): string {
    After(p.scheme, SCHEME_END) + JoinUser(p.userinfo, p.site)
  }

  // ----- Where the views point -----

  function ViewOf(off: int, o: Option<string>): View {
    match o case None => Unset case Some(x) => At(off, |x|)
  }

  function PortView(off: int, p: Port): View {
    if p.Port? then At(off, |p.text|) else Unset
  }

  /** The views from the path on, for a path that starts at `at`. */
  predicate TailViews(t: Tail, at: int, pa: View, qu: View, fr: View) {
    && pa == At(at, |t.path|)
    && qu == ViewOf(at + |t.path| + 1, t.query)
    && fr == ViewOf(at + |t.path| + |Before("?", t.query)| + 1, t.fragment)
  }

  /** The views from the host on, for a host that starts at `at`. */
  predicate SiteViews(s: Site, at: int, ho: View, po: View, pa: View, qu: View, fr: View) {
    && ho == At(at, |s.host|)
    && match s
       case HostOnly(_) => po == pa == qu == fr == Unset
       case HostAndPath(host, port, tail) =>
         po == PortView(at + |host| + 1, port) && TailViews(tail, at + |host| + |JoinPort(port)|, pa, qu, fr)
  }

  /** The buffer of a parsed URL and its views. */
  function Layout(p: Parts): Rep {
    var buf := Join(p);
    var hostAt := |buf| - |JoinSite(p.site)|;
    var scheme, userinfo := ViewOf(0, p.scheme), ViewOf(|buf| - |JoinUser(p.userinfo, p.site)|, p.userinfo);
    match p.site
    case HostOnly(host) =>
      Rep(buf, scheme, userinfo, At(hostAt, |host|), Unset, Unset, Unset, Unset)
    case HostAndPath(host, port, Tail(path, query, fragment)) =>
      var pathAt := |buf| - |JoinTail(p.site.tail)|;
      Rep(buf, scheme, userinfo, At(hostAt, |host|), PortView(hostAt + |host| + 1, port),
          At(pathAt, |path|), ViewOf(pathAt + |path| + 1, query),
          ViewOf(pathAt + |path| + |Before("?", query)| + 1, fragment))
  }

  /** The views from the user information on, for `size` characters that start at `at`. */
  predicate UserViews(userinfo: Option<string>, site: Site, at: int, size: nat,
                      us: View, ho: View, po: View, pa: View, qu: View, fr: View) {
    us == ViewOf(at, userinfo) && SiteViews(site, at + size - |JoinSite(site)|, ho, po, pa, qu, fr)
  }

  /** `Layout` places the views where `UserViews` says. */
  lemma LayoutViews(p: Parts, at: int, start: int, size: nat,
                                       us: View, ho: View, po: View, pa: View, qu: View, fr: View)
    requires size == |JoinUser(p.userinfo, p.site)| && start == at + |Join(p)| - size
    requires UserViews(p.userinfo, p.site, start, size, us, ho, po, pa, qu, fr)
    ensures var r := Layout(p);
      && us == Shift(r.userinfo, at) && ho == Shift(r.host, at) && po == Shift(r.port, at)
      && pa == Shift(r.path, at) && qu == Shift(r.query, at) && fr == Shift(r.fragment, at)
  {
    if p.site.HostAndPath? {
      assert |JoinSite(p.site)| == |p.site.host| + |JoinPort(p.site.port)| + |JoinTail(p.site.tail)|;
    }
  }

  function Parse(s: string): Rep { Layout(Split(s)) }

  // ----- The other operations, as functions -----

  /** The seven texts the accessors return. */
  datatype Components = Components(scheme: string, userinfo: string, host: string, port: string,
                                   path: string, query: string, fragment: string)

  function Texts(r: Rep): Components
    requires Bounded(r)
  {
    Components(Text(r.buf, r.scheme), Text(r.buf, r.userinfo), Text(r.buf, r.host), Text(r.buf, r.port),
               Text(r.buf, r.path), Text(r.buf, r.query), Text(r.buf, r.fragment))
  }

  function Optional(before: string, x: string, after: string): string {
    if x == "" then "" else before + x + after
  }

  /** `operator<<`: an empty component is left out together with its delimiter. */
  function Recompose(c: Components): string {
    Optional("", c.scheme, "://") + Optional("", c.userinfo, "@") + Optional("", c.host, "") +
    Optional(":", c.port, "") + Optional("", c.path, "") + Optional("?", c.query, "") + Optional("#", c.fragment, "")
  }

  /** The accessor `path()`. */
  function PathText(r: Rep): string {
    if InBounds(r.buf, r.path) then Text(r.buf, r.path) else ""
  }

  predicate HostBeforePort(r: Rep) {
    r.port.At? ==> r.host.At? && r.host.data <= r.port.data
  }

  /** `host_and_port`: one view from the start of the host to the end of the port. */
  function HostAndPort(r: Rep): string
    requires Bounded(r) && HostBeforePort(r)
  {
    if Text(r.buf, r.port) == "" then Text(r.buf, r.host)
    else r.buf[r.host.data..r.port.data + r.port.len]
  }

  function NumericPort(r: Rep): Option<nat>
    requires Bounded(r)
  {
    var port := Text(r.buf, r.port);
    if port == "" then None else Numbers.Unsigned(port, Numbers.MAX_U16).0
  }

  /** There is a path view to write through. */
  predicate Writable(r: Rep) {
    r.path.At? && InBounds(r.buf, r.path)
  }

  /** `replace_path` on offsets. */
  function WithPath(r: Rep, p: string): Rep
    requires Writable(r)
  {
    var delta := |p| - r.path.len;
    r.(buf := r.buf[..r.path.data] + p + r.buf[r.path.data + r.path.len..],
       path := At(r.path.data, |p|),
       query := Shift(r.query, delta),
       fragment := Shift(r.fragment, delta))
  }

  // ----- The class -----

  /** The object itself. `addr` is the address of the first character of `buf`; the views hold
      addresses, and every operation that moves the buffer must carry them along. The address a
      new or reallocated buffer gets is chosen by the caller: nothing may depend on it. */
  class Url {
    var addr: int
    var buf: string
    var scheme: View
    var userinfo: View
    var host: View
    var port: View
    var path: View
    var query: View
    var fragment: View

    function Value(): Rep
      reads this
    {
      RepAt(addr)
    }

    /** The value of views that point into a buffer at `at`. */
    function RepAt(at: int): Rep
      reads this
    {
      Rep(buf, Rebase(scheme, at, 0), Rebase(userinfo, at, 0), Rebase(host, at, 0), Rebase(port, at, 0),
          Rebase(path, at, 0), Rebase(query, at, 0), Rebase(fragment, at, 0))
    }

    /** `url_t::parse`, which accepts every text. */
    constructor Parse(url: string, at: int)
      ensures Value() == Layout(Split(url)) && Value().buf == url
      ensures addr == at
    {
      var sc, us, ho, po, pa, qu, fr, r := ParseViews(url, at);
      addr, buf := at, url;
      scheme, userinfo, host, port, path, query, fragment := sc, us, ho, po, pa, qu, fr;
      ShiftBack(r.scheme, at);
      ShiftBack(r.userinfo, at);
      ShiftBack(r.host, at);
      ShiftBack(r.port, at);
      ShiftBack(r.path, at);
      ShiftBack(r.query, at);
      ShiftBack(r.fragment, at);
    }

    /** The views, for a text that sits at address `at`. */
    static method ParseViews(url: string, at: int)
      returns (sc: View, us: View, ho: View, po: View, pa: View, qu: View, fr: View, ghost r: Rep)
      ensures r == Layout(Split(url)) && r.buf == url
      ensures sc == Shift(r.scheme, at) && us == Shift(r.userinfo, at)
      ensures ho == Shift(r.host, at) && po == Shift(r.port, at)
      ensures pa == Shift(r.path, at) && qu == Shift(r.query, at) && fr == Shift(r.fragment, at)
    {
      sc := Unset;
      var opt, state := ConsumeUntil(url, [SCHEME_END], true);
      if opt.Some? {
        sc := At(at, |opt.value|);
      }
      ghost var parts := Split(url);
      StateAfterScheme(url);
      us, ho, po, pa, qu, fr := ParseUser(state, at + |url| - |state|);
      LayoutViews(parts, at, at + |url| - |state|, |state|, us, ho, po, pa, qu, fr);
      r := Layout(parts);
    }

    /** The rest of the parse from the user information on; `start` is the address of `text`. */
    static method ParseUser(text: string, start: int)
      returns (us: View, ho: View, po: View, pa: View, qu: View, fr: View)
      ensures UserViews(SplitUser(text).0, SplitUser(text).1, start, |text|, us, ho, po, pa, qu, fr)
    {
      us := Unset;
      var opt, state := ConsumeUntil(text, ["@"], true);
      if opt.Some? {
        us := At(start, |opt.value|);
      }
      assert SplitUser(text).1 == SplitSite(state) && state == JoinSite(SplitSite(state)) by {
        StateAfterUser(text);
      }
      ho, po, pa, qu, fr := ParseSite(state, start + |text| - |state|);
    }

    /** From the host on. */
    static method ParseSite(text: string, start: int) returns (ho: View, po: View, pa: View, qu: View, fr: View)
      ensures SiteViews(SplitSite(text), start, ho, po, pa, qu, fr)
    {
      JoinSplitSite(text);
      po, pa, qu, fr := Unset, Unset, Unset, Unset;
      var opt, state := ConsumeUntil(text, [":"], true);
      if opt.Some? {
        ho := At(start, |opt.value|);
        opt, state := ConsumeUntil(state, ["/"], false);
        if opt.Some? {
          po := At(start + ho.len + 1, |opt.value|);
        }
      } else {
        opt, state := ConsumeUntil(state, ["/"], false);
        if opt.Some? {
          ho := At(start, |opt.value|);
        } else {
          ho := At(start, |state|);
          return;
        }
      }
      assert SplitSite(text).HostAndPath? && SplitSite(text).tail == SplitTail(state);
      JoinSplitTail(state);
      pa, qu, fr := ParseTail(state, start + |text| - |state|);
    }

    /** From the path on. */
    static method ParseTail(text: string, start: int) returns (pa: View, qu: View, fr: View)
      ensures TailViews(SplitTail(text), start, pa, qu, fr)
    {
      qu, fr := Unset, Unset;
      var opt, state := ConsumeUntil(text, ["?"], true);
      if opt.Some? {
        pa := At(start, |opt.value|);
        opt, state := ConsumeUntil(state, ["#"], true);
        if opt.Some? {
          qu := At(start + pa.len + 1, |opt.value|);
          fr := At(start + pa.len + 1 + qu.len + 1, |state|);
        } else {
          qu := At(start + pa.len + 1, |state|);
        }
      } else {
        opt, state := ConsumeUntil(state, ["#"], true);
        if opt.Some? {
          pa := At(start, |opt.value|);
          fr := At(start + pa.len + 1, |state|);
        } else {
          pa := At(start, |state|);
        }
      }
    }

    /** The copy constructor: the views of the copy point into the copy's own buffer. */
    constructor Copy(other: Url, at: int)
      ensures Value() == other.Value() && addr == at
    {
      addr, buf := at, other.buf;
      scheme := Rebase(other.scheme, other.addr, at);
      userinfo := Rebase(other.userinfo, other.addr, at);
      host := Rebase(other.host, other.addr, at);
      port := Rebase(other.port, other.addr, at);
      path := Rebase(other.path, other.addr, at);
      query := Rebase(other.query, other.addr, at);
      fragment := Rebase(other.fragment, other.addr, at);
    }

    /** A copy of a `url_t` that is part of another value. */
    constructor Of(r: Rep, at: int)
      ensures Value() == r && addr == at
    {
      addr, buf := at, r.buf;
      scheme, userinfo, host, port := Shift(r.scheme, at), Shift(r.userinfo, at), Shift(r.host, at), Shift(r.port, at);
      path, query, fragment := Shift(r.path, at), Shift(r.query, at), Shift(r.fragment, at);
      ShiftBack(r.scheme, at);
      ShiftBack(r.userinfo, at);
      ShiftBack(r.host, at);
      ShiftBack(r.port, at);
      ShiftBack(r.path, at);
      ShiftBack(r.query, at);
      ShiftBack(r.fragment, at);
    }

    /** Move assignment. The buffer may stay where it was or be copied to `at`. */
    method MoveFrom(other: Url, at: int)
      requires this != other
      modifies this, other`buf
      ensures Value() == old(other.Value()) && addr == at
    {
      var oldPtr := other.addr;
      addr, buf := at, other.buf;
      other.buf := "";
      scheme := Rebase(other.scheme, oldPtr, at);
      userinfo := Rebase(other.userinfo, oldPtr, at);
      host := Rebase(other.host, oldPtr, at);
      port := Rebase(other.port, oldPtr, at);
      path := Rebase(other.path, oldPtr, at);
      query := Rebase(other.query, oldPtr, at);
      fragment := Rebase(other.fragment, oldPtr, at);
    }

    /** `replace_path`, which needs a path view to write through. The replacement may reallocate. */
    method ReplacePath(p: string, at: int)
      requires Writable(Value())
      modifies this
      ensures Value() == WithPath(old(Value()), p) && addr == at
    {
      var oldPtr := addr;
      var off := path.data - addr;
      buf := buf[..off] + p + buf[off + path.len..];
      addr := at;
      var delta := |p| - path.len;

      path := At(path.data, path.len + delta);
      query := Shift(query, delta);
      fragment := Shift(fragment, delta);
      assert RepAt(oldPtr) == WithPath(old(Value()), p);
      TransferAll(oldPtr);
    }

    /** All seven views follow the buffer from `oldPtr`. */
    method TransferAll(oldPtr: int)
      modifies this`scheme, this`userinfo, this`host, this`port, this`path, this`query, this`fragment
      ensures Value() == old(RepAt(oldPtr))
    {
      scheme := Rebase(scheme, oldPtr, addr);
      userinfo := Rebase(userinfo, oldPtr, addr);
      host := Rebase(host, oldPtr, addr);
      port := Rebase(port, oldPtr, addr);
      path := Rebase(path, oldPtr, addr);
      query := Rebase(query, oldPtr, addr);
      fragment := Rebase(fragment, oldPtr, addr);
    }

    function TextAt(v: View): string
      reads this
      requires InBounds(buf, Rebase(v, addr, 0))
    {
      Text(buf, Rebase(v, addr, 0))
    }

    /** `operator<<`, one component after the other. */
    method Print() returns (os: string)
      requires Bounded(Value())
      ensures os == Recompose(Texts(Value()))
    {
      ghost var scheme' := Optional("", Texts(Value()).scheme, "://");
      os := Put("", "", TextAt(scheme), "://");
      assert os == scheme';
      os := Put(os, "", TextAt(userinfo), "@");
      os := Put(os, "", TextAt(host), "");
      os := Put(os, ":", TextAt(port), "");
      os := Put(os, "", TextAt(path), "");
      os := Put(os, "?", TextAt(query), "");
      os := Put(os, "#", TextAt(fragment), "");
    }
  }

  method Put(os: string, before: string, x: string, after: string) returns (os': string)
    ensures os' == os + Optional(before, x, after)
  {
    os' := os;
    if x != "" {
      os' := os' + before + x + after;
    }
  }

  // ----- Parsing loses nothing -----

  lemma Regroup(a: string, d: char, b: string, c: string)
    ensures a + ([d] + (b + c)) == a + ([d] + b) + c
    ensures a + ([d] + c) == a + [d] + c
    ensures [d] + (b + c) == ([d] + b) + c
  {
  }

  lemma JoinSplitQuery(path: string, rest: string)
    ensures var t := if Until(rest, "#").Some?
                     then Tail(path, Some(Until(rest, "#").value.0), Some(Until(rest, "#").value.1))
                     else Tail(path, Some(rest), None);
      JoinTail(t) == path + ("?" + rest)
  {
    CutChar(rest, '#', true);
    if Until(rest, "#").Some? {
      var (query, fragment) := Until(rest, "#").value;
      Regroup("", '?', query, "#" + fragment);
    }
  }

  lemma JoinSplitTail(s: string)
    ensures JoinTail(SplitTail(s)) == s
  {
    CutChar(s, '?', true);
    if Until(s, "?").Some? {
      var (path, rest) := Until(s, "?").value;
      JoinSplitQuery(path, rest);
    } else {
      CutChar(s, '#', true);
    }
  }

  lemma JoinSplitPort(host: string, rest: string)
    ensures var cut := Cut(rest, ["/"], false);
      var site := if cut.Some? then HostAndPath(host, Port(cut.value.0), SplitTail(cut.value.1))
                  else HostAndPath(host, Lost, SplitTail(rest));
      JoinSite(site) == host + ([':'] + rest)
  {
    CutChar(rest, '/', false);
    if Cut(rest, ["/"], false).Some? {
      var (port, rest') := Cut(rest, ["/"], false).value;
      JoinSplitTail(rest');
      Regroup(host, ':', port, rest');
    } else {
      JoinSplitTail(rest);
      Regroup(host, ':', "", rest);
    }
  }

  lemma JoinSplitColon(s: string)
    requires Until(s, ":").Some?
    ensures JoinSite(SplitSite(s)) == s
  {
    var (host, rest) := Until(s, ":").value;
    CutChar(s, ':', true);
    JoinSplitPort(host, rest);
  }

  lemma JoinSplitNoColon(s: string)
    requires Until(s, ":").None?
    ensures JoinSite(SplitSite(s)) == s
  {
    CutChar(s, '/', false);
    if Cut(s, ["/"], false).Some? {
      JoinSplitTail(Cut(s, ["/"], false).value.1);
    }
  }

  lemma JoinSplitSite(s: string)
    ensures JoinSite(SplitSite(s)) == s
  {
    if Until(s, ":").Some? {
      JoinSplitColon(s);
    } else {
      JoinSplitNoColon(s);
    }
  }

  lemma StateAfterUser(s: string)
    ensures var (userinfo, site) := SplitUser(s);
      && JoinUser(userinfo, site) == s
      && JoinSite(site) == (match Until(s, "@") case None => s case Some((_, rest)) => rest)
      && site == SplitSite(JoinSite(site))
  {
    CutChar(s, '@', true);
    match Until(s, "@")
    case None => JoinSplitSite(s);
    case Some((_, rest)) => JoinSplitSite(rest);
  }

  lemma StateAfterScheme(s: string)
    ensures var p := Split(s); var user := JoinUser(p.userinfo, p.site);
      && Join(p) == s
      && user == (match Until(s, SCHEME_END) case None => s case Some((_, rest)) => rest)
      && p.scheme == (match Until(s, SCHEME_END) case None => None case Some((scheme, _)) => Some(scheme))
      && (p.userinfo, p.site) == SplitUser(user)
  {
    match Until(s, SCHEME_END)
    case None => StateAfterUser(s);
    case Some((_, rest)) =>
      CutSchemeSplits(s);
      StateAfterUser(rest);
  }

  /** The pieces and their delimiters are exactly the text that was parsed. */
  lemma JoinSplit(s: string)
    ensures Join(Split(s)) == s
  {
    StateAfterScheme(s);
  }
}
