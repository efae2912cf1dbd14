/** `consume_endpoint`, and what an accepted endpoint says about the URL it came from. */
module Endpoints {
  import opened Options
  import opened Urls
  import opened UrlLaws
  import opened UrlRoundTrips
  import Numbers

  datatype Endpoint<A> = Endpoint(address: A, port: nat)

  /** `rfind(':')`. */
  function LastColon(s: string): (r: Option<nat>)
    ensures r.None? ==> forall i :: 0 <= i < |s| ==> s[i] != ':'
    ensures r.Some? ==> r.value < |s| && s[r.value] == ':' && forall i :: r.value < i < |s| ==> s[i] != ':'
  {
    if s == "" then None
    else if s[|s| - 1] == ':' then Some(|s| - 1)
    else LastColon(s[..|s| - 1])
  }

  /** `consume_endpoint`; `makeAddress` stands for the address parser of the network library. */
  function ConsumeEndpoint<A>(makeAddress: string -> Option<A>, s: string): (Option<Endpoint<A>>, string) {
    match LastColon(s)
    case None => (None, s)
    case Some(pos) =>
      match makeAddress(s[..pos])
      case None => (None, s)
      case Some(address) =>
        match Numbers.Unsigned(s[pos + 1..], Numbers.MAX_U16)
        case (None, _) => (None, s)
        case (Some(port), rest) => (Some(Endpoint(address, port)), rest)
  }

  /** The same with the text advanced and restored in place. */
  method TakeEndpoint<A>(makeAddress: string -> Option<A>, text: string) returns (r: Option<Endpoint<A>>, s: string)
    ensures (r, s) == ConsumeEndpoint(makeAddress, text)
  {
    s := text;
    var orig := s;
    var pos := LastColon(s);
    if pos.None? {
      return None, s;
    }
    var address := makeAddress(s[..pos.value]);
    if address.None? {
      return None, s;
    }
    s := s[pos.value + 1..];
    var port;
    port, s := Numbers.ConsumeUnsigned(s, Numbers.MAX_U16);
    if port.None? {
      s := orig;
      return None, s;
    }
    return Some(Endpoint(address.value, port.value)), s;
  }

  /** An endpoint is found if and only if the text is an address, the last ':' and a port
      number; what follows the number is left, and a failure leaves the whole text. */
  lemma EndpointExact<A(!new)>(makeAddress: string -> Option<A>, s: string, ep: Endpoint<A>)
    ensures ConsumeEndpoint(makeAddress, s).0 == Some(ep) <==>
      exists x: string, y: string :: s == x + [':'] + y && ':' !in y && makeAddress(x) == Some(ep.address) &&
        Numbers.Unsigned(y, Numbers.MAX_U16) == (Some(ep.port), ConsumeEndpoint(makeAddress, s).1)
    ensures ConsumeEndpoint(makeAddress, s).0.None? ==> ConsumeEndpoint(makeAddress, s).1 == s
  {
    if LastColon(s).Some? {
      var pos := LastColon(s).value;
      assert s == s[..pos] + [':'] + s[pos + 1..];
      forall x: string, y: string | s == x + [':'] + y && ':' !in y ensures x == s[..pos] && y == s[pos + 1..] {
        LastColonUnique(x, y, s, pos);
      }
    }
  }

  lemma LastColonUnique(x: string, y: string, s: string, pos: nat)
    requires s == x + [':'] + y && ':' !in y
    requires pos < |s| && s[pos] == ':' && forall i :: pos < i < |s| ==> s[i] != ':'
    ensures x == s[..pos] && y == s[pos + 1..]
  {
    assert s[|x|] == ':' && s[|x| + 1..] == y;
    forall i | |x| < i < |s| ensures s[i] != ':' {
      assert s[i] == y[i - |x| - 1];
    }
  }

  // ----- Endpoints of URLs -----

  /** The endpoint a URL is fetched from: the guard at the head of both HTTP operations. */
  function EndpointOf<A>(makeAddress: string -> Option<A>, r: Rep): Option<Endpoint<A>>
    requires Bounded(r) && HostBeforePort(r)
  {
    ConsumeEndpoint(makeAddress, HostAndPort(r)).0
  }

  lemma LayoutIsSafe(p: Parts)
    ensures Bounded(Layout(p)) && HostBeforePort(Layout(p))
    ensures Text(Layout(p).buf, Layout(p).host) == p.site.host
    ensures Text(Layout(p).buf, Layout(p).port) == if p.site.HostAndPath? then PortText(p.site.port) else ""
  {
    TextsOfLayout(p);
    assert Texts(Layout(p)).host == ComponentsOf(p).host && Texts(Layout(p)).port == ComponentsOf(p).port;
  }

  lemma HostToPortShows(p: Parts)
    requires p.site.HostAndPath? && p.site.port.Port?
    ensures var hp := p.site.host + ":" + p.site.port.text;
      Shows(Layout(p).buf, At(Layout(p).host.data, |hp|), hp)
  {
    var host, port := p.site.host, p.site.port.text;
    var site, hp, text := JoinSite(p.site), host + ":" + port, JoinTail(p.site.tail);
    assert EndsWith(Join(p), site) by { UserViewsShow(p); }
    assert site == host + (":" + port) + text;
    assert host + (":" + port) == hp;
    ShowsFirst(Join(p), site, hp, text);
  }

  lemma HostAndPortOfLayout(p: Parts)
    ensures Bounded(Layout(p)) && HostBeforePort(Layout(p))
    ensures HostAndPort(Layout(p)) ==
      if p.site.HostAndPath? && PortText(p.site.port) != "" then p.site.host + ":" + p.site.port.text else p.site.host
  {
    LayoutIsSafe(p);
    if p.site.HostAndPath? && PortText(p.site.port) != "" {
      HostToPortShows(p);
    }
  }

  /** The texts of the address and of the number: a further ':' in the port text moves the split. */
  function EndpointTexts(host: string, port: string): (string, string) {
    match LastColon(port)
    case None => (host, port)
    case Some(j) => (host + ":" + port[..j], port[j + 1..])
  }

  function Combined<A>(address: Option<A>, number: Option<nat>): Option<Endpoint<A>> {
    if address.None? || number.None? then None else Some(Endpoint(address.value, number.value))
  }

  lemma EndpointOfTexts<A>(makeAddress: string -> Option<A>, host: string, port: string)
    ensures var (address, number) := EndpointTexts(host, port);
      ConsumeEndpoint(makeAddress, host + ":" + port).0 ==
        Combined(makeAddress(address), Numbers.Unsigned(number, Numbers.MAX_U16).0)
  {
    var (x, y) := EndpointTexts(host, port);
    var hp := host + ":" + port;
    assert hp == x + [':'] + y;
    assert hp[|x|] == ':';
    var pos := LastColon(hp);
    LastColonUnique(x, y, hp, pos.value);
  }

  lemma DigitsHaveNoColon(n: nat)
    ensures LastColon(Numbers.Decimal(n)).None?
  {
    Numbers.ValueOfDecimal(n);
  }

  /** An address and a port in decimal are that endpoint if the port is at most 65535, and none otherwise. */
  lemma DecimalPort<A>(makeAddress: string -> Option<A>, host: string, n: nat)
    requires n < Numbers.Pow(10, 61)
    ensures ConsumeEndpoint(makeAddress, host + ":" + Numbers.Decimal(n)).0 ==
      if makeAddress(host).Some? && n <= 65535 then Some(Endpoint(makeAddress(host).value, n)) else None
  {
    DigitsHaveNoColon(n);
    EndpointOfTexts(makeAddress, host, Numbers.Decimal(n));
    Numbers.DecimalIsRead(n, "", Numbers.MAX_U16);
    assert Numbers.Decimal(n) + "" == Numbers.Decimal(n);
  }

  /** The endpoint of a parsed URL: none without a port text; else address and number stand on
      both sides of the last ':' of host and port, so unless the port text holds one itself they
      are the address of the host and the numeric port. */
  lemma EndpointOfParsed<A>(makeAddress: string -> Option<A>, s: string)
    ensures Bounded(Parse(s)) && HostBeforePort(Parse(s))
    ensures var r := Parse(s);
      var (address, number) := EndpointTexts(Texts(r).host, Texts(r).port);
      && EndpointOf(makeAddress, r) ==
           (if Texts(r).port == "" then None
            else Combined(makeAddress(address), Numbers.Unsigned(number, Numbers.MAX_U16).0))
      && (':' !in Texts(r).port ==> EndpointOf(makeAddress, r) == Combined(makeAddress(Texts(r).host), NumericPort(r)))
  {
    var p := Split(s);
    var host, port := p.site.host, if p.site.HostAndPath? then PortText(p.site.port) else "";
    LayoutIsSafe(p);
    assert HostAndPort(Parse(s)) == if port != "" then host + ":" + port else host by { HostAndPortOfLayout(p); }
    if port != "" {
      EndpointOfTexts(makeAddress, host, port);
    } else {
      assert ':' !in host by { SplitIsCanonical(s); }
      assert LastColon(host).None?;
    }
  }

  /** A location whose host and port were accepted has a port and a path view that starts
      with '/', so a path can be written through it. */
  lemma AcceptedLocationHasPath<A>(makeAddress: string -> Option<A>, s: string)
    requires Bounded(Parse(s)) && HostBeforePort(Parse(s))
    requires EndpointOf(makeAddress, Parse(s)).Some?
    ensures var r := Parse(s);
      && Texts(r).port != "" && r.path.At? && StartsWithSlash(Texts(r).path) && Split(s).site.HostAndPath?
  {
    var p := Split(s);
    assert HostAndPort(Parse(s)) == p.site.host ==> LastColon(p.site.host).Some?;
    assert Canonical(p) by { SplitIsCanonical(s); }
    assert p.site.HostAndPath? && PortText(p.site.port) != "" by { HostAndPortOfLayout(p); }
    TextsOfLayout(p);
  }

  lemma SameHostAndPort(r: Rep, r': Rep)
    requires Bounded(r) && Bounded(r') && HostBeforePort(r) && r'.host == r.host && r'.port == r.port
    requires Text(r'.buf, r.host) == Text(r.buf, r.host) && Text(r'.buf, r.port) == Text(r.buf, r.port)
    requires Text(r.buf, r.port) != "" ==>
      var v := At(r.host.data, r.port.data + r.port.len - r.host.data);
      InBounds(r.buf, v) && InBounds(r'.buf, v) && Text(r'.buf, v) == Text(r.buf, v)
    ensures HostBeforePort(r') && HostAndPort(r') == HostAndPort(r)
  {
  }

  lemma PortBeforePath(r: Rep)
    requires Ordered(r) && r.path.At? && r.port.At?
    ensures 0 <= r.host.data <= r.port.data && r.port.data + r.port.len <= r.path.data
  {
  }

  lemma EditKeepsHostAndPort(r: Rep, path: string)
    requires Ordered(r) && r.path.At? && Bounded(r) && HostBeforePort(r)
    requires var r' := WithPath(r, path);
      Bounded(r') && Texts(r').host == Texts(r).host && Texts(r').port == Texts(r).port
    ensures HostAndPort(WithPath(r, path)) == HostAndPort(r)
  {
    if r.port.At? {
      PortBeforePath(r);
      EditKeepsPrefix(r, path, At(r.host.data, r.port.data + r.port.len - r.host.data));
    }
    SameHostAndPort(r, WithPath(r, path));
  }

  /** An edit of the path never changes the endpoint. */
  lemma EditKeepsEndpoint<A>(makeAddress: string -> Option<A>, r: Rep, path: string)
    requires Ordered(r) && r.path.At?
    ensures var r' := WithPath(r, path);
      && Bounded(r) && HostBeforePort(r) && Bounded(r') && HostBeforePort(r')
      && EndpointOf(makeAddress, r') == EndpointOf(makeAddress, r)
  {
    EditRefinesRecordUpdate(r, path);
    EditKeepsHostAndPort(r, path);
  }
}
