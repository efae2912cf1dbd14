/** `igd::discover`: from answers to gateways, each WAN device once. */
module Discovery {
  import opened Options
  import opened Executor
  import opened Urls
  import opened UrlRoundTrips
  import opened Endpoints
  import opened SsdpMessage
  import opened DeviceTree
  import SsdpQuery
  import SsdpQueryLaws

  /** What `get_response` yields before it ends: a response with the root device its location
      describes, if the exchange with it succeeds, or the parse error the loop is ready to skip. */
  datatype Item = Unparsed | Answer(response: Response, exchange: Option<Device>)

  datatype Igd = Igd(uuid: string, device: Device, serviceId: string, url: Rep, urn: string)

  /** How the calls of `get_response` end: with an error code, or with the bad access of a popped
      parse error, which leaves the loop as an exception. */
  datatype Ending = Code(code: ErrorCode) | BadAccess(error: ParseError)

  datatype Failure = IoError | Terminal(code: ErrorCode) | Thrown(error: ParseError)

  // ----- Locations -----

  /** A location is the default `url_t` or a parsed one. */
  predicate Located(r: Rep) {
    r == NO_URL || r == Parse(r.buf)
  }

  predicate AllLocated(items: seq<Item>) {
    forall i :: 0 <= i < |items| && items[i].Answer? ==> Located(items[i].response.location)
  }

  type WritableUrl = r: Rep | Writable(r) witness Rep("", Unset, Unset, Unset, Unset, At(0, 0), Unset, Unset)

  lemma LocatedIsSafe(r: Rep)
    requires Located(r)
    ensures Bounded(r) && HostBeforePort(r)
  {
    if r != NO_URL { HostAndPortOfLayout(Split(r.buf)); }
  }

  lemma NoEndpointByDefault<A>(makeAddress: string -> Option<A>)
    ensures Bounded(NO_URL) && HostBeforePort(NO_URL) && EndpointOf(makeAddress, NO_URL).None?
  {
  }

  lemma ParsedIsLocated(s: string)
    ensures Located(Parse(s))
  {
    JoinSplit(s);
  }

  lemma HeaderIsLocated(acc: Response, key: string, val: string)
    requires Located(acc.location)
    ensures Located(Header(acc, key, val).location)
  {
    ParsedIsLocated(val);
  }

  /** Every response the parser returns has such a location. */
  lemma {:induction false} HeadersAreLocated(lines: string, acc: Response)
    requires Located(acc.location)
    ensures Located(Headers(lines, acc).location)
    decreases |lines|
  {
    Scan.CutShrinks(lines, Scan.EOL);
    if Scan.Cut(lines, Scan.EOL, true).Some? {
      var (line, rest) := Scan.Cut(lines, Scan.EOL, true).value;
      if Scan.Until(line, ":").Some? {
        var (key, val) := Scan.Until(line, ":").value;
        HeaderIsLocated(acc, key, Scan.Trim(val));
        HeadersAreLocated(rest, Header(acc, key, Scan.Trim(val)));
      }
    }
  }

  lemma ParsedResponsesAreLocated(datagram: string)
    requires ParseMessage(datagram).Ok?
    ensures Located(ParseMessage(datagram).value.location)
  {
    if Scan.Cut(datagram, Scan.EOL, true).Some? {
      HeadersAreLocated(Scan.Cut(datagram, Scan.EOL, true).value.1, NO_RESPONSE);
    }
  }

  /** So, fed with datagrams, whatever a query returns to a caller has such a location. */
  lemma ReturnedResponsesAreLocated(events: seq<SsdpQuery.Event>, id: Id)
    requires SsdpQuery.Legal(events)
    requires forall e :: e in events && e.Received? && e.r.Data? ==> exists d: string :: e.r.elem == ParseMessage(d)
    requires var results := SsdpQuery.Run(events).results; id in results && results[id].Value?
    ensures Located(SsdpQuery.Run(events).results[id].response.location)
  {
    var s := SsdpQuery.Run(events);
    SsdpQueryLaws.ReturnedIsPopped(events, id);
    SsdpQueryLaws.QueueConserves(events);
    var elem: SsdpQuery.Elem := Ok(s.results[id].response);
    var i :| 0 <= i < |s.popped| && s.popped[i].elem == elem;
    assert SsdpQuery.Elems(s.popped)[i] == elem;
    assert elem in SsdpQuery.Elems(s.popped) + s.queue;
    SsdpQueryLaws.AcceptedWasReceived(SsdpQueryLaws.Heard(events), elem);
    HeardIsAnEvent(events, elem);
    var e :| e in events && e.Received? && e.r == SsdpQuery.Data(elem);
    var d: string :| elem == ParseMessage(d);
    ParsedResponsesAreLocated(d);
  }

  lemma {:induction false} HeardIsAnEvent(events: seq<SsdpQuery.Event>, elem: SsdpQuery.Elem)
    requires elem in SsdpQueryLaws.Heard(events)
    ensures exists e :: e in events && e.Received? && e.r == SsdpQuery.Data(elem)
  {
    assert events == [events[0]] + events[1..];
    if elem in SsdpQueryLaws.Heard(events[1..]) {
      HeardIsAnEvent(events[1..], elem);
      var e :| e in events[1..] && e.Received? && e.r == SsdpQuery.Data(elem);
      assert e in events;
    } else {
      assert events[0].r == SsdpQuery.Data(elem);
    }
  }

  /** `query_root_device`: refused unless the location names an endpoint. If it does, the
      location has a path that can be replaced. */
  function RootDevice<A>(makeAddress: string -> Option<A>, location: Rep, exchange: Option<Device>): (r: Option<Device>)
    requires Located(location)
    ensures r.Some? ==> Writable(location)
  {
    LocatedIsSafe(location);
    if EndpointOf(makeAddress, location).None? then None
    else
      NoEndpointByDefault(makeAddress);
      AcceptedLocationHasPath(makeAddress, location.buf);
      exchange
  }

  // ----- The declarative meaning -----

  const IGD1 := "urn:schemas-upnp-org:device:InternetGatewayDevice:1"
  const IGD2 := "urn:schemas-upnp-org:device:InternetGatewayDevice:2"
  const WAN_DEVICE := "urn:schemas-upnp-org:device:WANDevice:"
  const WAN_CONNECTION := "urn:schemas-upnp-org:device:WANConnectionDevice:"
  const WAN_IP := "urn:schemas-upnp-org:service:WANIPConnection:"
  const WAN_PPP := "urn:schemas-upnp-org:service:WANPPPConnection:"

  function Version(deviceType: string): Option<string> {
    if deviceType == IGD1 then Some("1") else if deviceType == IGD2 then Some("2") else None
  }

  /** A device directly below the root device of an answering gateway. */
  datatype Occurrence = Occurrence(uuid: string, location: WritableUrl, version: string, device: Device)

  function Below(uuid: string, location: WritableUrl, version: string, devices: seq<Device>): seq<Occurrence> {
    seq(|devices|, i requires 0 <= i < |devices| => Occurrence(uuid, location, version, devices[i]))
  }

  predicate Fetched<A>(makeAddress: string -> Option<A>, item: Item)
    requires item.Answer? ==> Located(item.response.location)
  {
    item.Answer? ==> RootDevice(makeAddress, item.response.location, item.exchange).Some?
  }

  /** The device descriptions could all be fetched. */
  predicate AllFetched<A>(makeAddress: string -> Option<A>, items: seq<Item>)
    requires AllLocated(items)
  {
    forall i :: 0 <= i < |items| ==> Fetched(makeAddress, items[i])
  }

  function OccurrencesIn<A>(makeAddress: string -> Option<A>, item: Item): seq<Occurrence>
    requires item.Answer? ==> Located(item.response.location)
  {
    match item
    case Unparsed => []
    case Answer(response, exchange) =>
      match RootDevice(makeAddress, response.location, exchange)
      case None => []
      case Some(root) =>
        match Version(root.deviceType)
        case None => []
        case Some(v) => Below(response.uuid, response.location, v, root.devices)
  }

  /** All occurrences, answer by answer. */
  function Occurrences<A>(makeAddress: string -> Option<A>, items: seq<Item>): seq<Occurrence>
    requires AllLocated(items)
  {
    if items == [] then []
    else Occurrences(makeAddress, items[..|items| - 1]) + OccurrencesIn(makeAddress, items[|items| - 1])
  }

  function ServiceMatch(o: Occurrence, s: Service): seq<Igd> {
    if s.serviceType != WAN_IP + o.version && s.serviceType != WAN_PPP + o.version then []
    else [Igd(o.uuid, o.device, s.id, WithPath(o.location, PathText(s.controlUrl)), s.serviceType)]
  }

  function ServiceMatches(o: Occurrence, services: seq<Service>): seq<Igd> {
    if services == [] then []
    else ServiceMatches(o, services[..|services| - 1]) + ServiceMatch(o, services[|services| - 1])
  }

  function ConnectionMatches(o: Occurrence, connections: seq<Device>): seq<Igd> {
    if connections == [] then []
    else
      var last := connections[|connections| - 1];
      ConnectionMatches(o, connections[..|connections| - 1]) +
      if last.deviceType == WAN_CONNECTION + o.version then ServiceMatches(o, last.services) else []
  }

  /** The matching services of the matching connections of a WAN device. */
  function Matches(o: Occurrence): seq<Igd> {
    if o.device.deviceType == WAN_DEVICE + o.version then ConnectionMatches(o, o.device.devices) else []
  }

  /** No earlier occurrence has this UDN, whatever its type. */
  predicate Fresh(occs: seq<Occurrence>, k: nat)
    requires k < |occs|
  {
    forall j :: 0 <= j < k ==> occs[j].device.udn != occs[k].device.udn
  }

  /** The gateways of all occurrences whose UDN is seen there first, in order. */
  function Expected(occs: seq<Occurrence>): seq<Igd> {
    if occs == [] then []
    else
      var n := |occs| - 1;
      Expected(occs[..n]) + if Fresh(occs, n) then Matches(occs[n]) else []
  }

  function Udns(occs: seq<Occurrence>): set<string> {
    set o | o in occs :: o.device.udn
  }

  function Discovered<A>(makeAddress: string -> Option<A>, items: seq<Item>, last: Ending)
    : SsdpMessage.Result<seq<Igd>, Failure>
    requires AllLocated(items)
  {
    var igds := Expected(Occurrences(makeAddress, items));
    if !AllFetched(makeAddress, items) then Err(IoError)
    else
      match last
      case BadAccess(error) => Err(Thrown(error))
      case Code(code) => if code == TimedOut && igds != [] then Ok(igds) else Err(Terminal(code))
  }

  // ----- The loops -----

  lemma Prefix<T>(s: seq<T>, i: nat)
    requires i < |s|
    ensures s[..i + 1][..i] == s[..i] && s[..i + 1][i] == s[i]
  {
  }

  lemma ExpectedStep(occs: seq<Occurrence>, o: Occurrence)
    ensures Expected(occs + [o]) == Expected(occs) + if o.device.udn in Udns(occs) then [] else Matches(o)
    ensures Udns(occs + [o]) == Udns(occs) + {o.device.udn}
  {
    var more := occs + [o];
    assert more[..|occs|] == occs && more[|occs|] == o;
    assert Fresh(more, |occs|) <==> o.device.udn !in Udns(occs) by {
      forall j | 0 <= j < |occs| ensures more[j] == occs[j] && occs[j].device.udn in Udns(occs) {
      }
    }
    assert forall x :: x in more <==> x in occs || x == o;
  }

  lemma Grouped<T>(a: seq<T>, b: seq<T>, c: seq<T>)
    ensures a + (b + c) == a + b + c && a + [] == a
  {
  }

  lemma ServiceStep(o: Occurrence, services: seq<Service>, i: nat, found: seq<Igd>)
    requires i < |services|
    ensures found + ServiceMatches(o, services[..i + 1])
         == found + ServiceMatches(o, services[..i]) + ServiceMatch(o, services[i])
  {
    Prefix(services, i);
    Grouped(found, ServiceMatches(o, services[..i]), ServiceMatch(o, services[i]));
  }

  method AddServices(o: Occurrence, services: seq<Service>, found: seq<Igd>) returns (igds: seq<Igd>)
    ensures igds == found + ServiceMatches(o, services)
  {
    igds := found;
    var i := 0;
    Grouped(found, [], []);
    while i < |services|
      invariant i <= |services| && igds == found + ServiceMatches(o, services[..i])
    {
      ServiceStep(o, services, i, found);
      Grouped(igds, [], []);
      var service := services[i];
      i := i + 1;
      if service.serviceType != WAN_IP + o.version && service.serviceType != WAN_PPP + o.version {
        continue;
      }
      var url := new Url.Of(o.location, 0);
      url.ReplacePath(PathText(service.controlUrl), 0);
      igds := igds + [Igd(o.uuid, o.device, service.id, url.Value(), service.serviceType)];
    }
    assert services[..i] == services;
  }

  lemma ConnectionStep(o: Occurrence, connections: seq<Device>, i: nat, found: seq<Igd>)
    requires i < |connections|
    ensures found + ConnectionMatches(o, connections[..i + 1]) ==
      if connections[i].deviceType == WAN_CONNECTION + o.version
      then found + ConnectionMatches(o, connections[..i]) + ServiceMatches(o, connections[i].services)
      else found + ConnectionMatches(o, connections[..i])
  {
    var front := ConnectionMatches(o, connections[..i]);
    Prefix(connections, i);
    Grouped(front, [], []);
    Grouped(found, front, ServiceMatches(o, connections[i].services));
  }

  method AddConnections(o: Occurrence, found: seq<Igd>) returns (igds: seq<Igd>)
    ensures igds == found + ConnectionMatches(o, o.device.devices)
  {
    var connections := o.device.devices;
    igds := found;
    var i := 0;
    while i < |connections|
      invariant i <= |connections| && igds == found + ConnectionMatches(o, connections[..i])
    {
      ConnectionStep(o, connections, i, found);
      var connection := connections[i];
      i := i + 1;
      if connection.deviceType != WAN_CONNECTION + o.version {
        continue;
      }
      igds := AddServices(o, connection.services, igds);
    }
    assert connections[..i] == connections;
  }

  /** One device below a root: recorded first, looked at only when its UDN is new. */
  method AddDevice(o: Occurrence, ghost occs: seq<Occurrence>, seen: set<string>, found: seq<Igd>)
    returns (alreadySeen: set<string>, igds: seq<Igd>)
    requires seen == Udns(occs) && found == Expected(occs)
    ensures alreadySeen == Udns(occs + [o]) && igds == Expected(occs + [o])
  {
    ExpectedStep(occs, o);
    alreadySeen, igds := seen, found;
    if o.device.udn in alreadySeen {
      return;
    }
    alreadySeen := alreadySeen + {o.device.udn};
    if o.device.deviceType != WAN_DEVICE + o.version {
      return;
    }
    igds := AddConnections(o, igds);
  }

  lemma BelowStep(uuid: string, location: WritableUrl, v: string, devices: seq<Device>, i: nat, occs: seq<Occurrence>)
    requires i < |devices|
    ensures occs + Below(uuid, location, v, devices[..i]) + [Occurrence(uuid, location, v, devices[i])]
         == occs + Below(uuid, location, v, devices[..i + 1])
  {
  }

  method AddDevices(uuid: string, location: WritableUrl, v: string, devices: seq<Device>, ghost occs: seq<Occurrence>,
                    seen: set<string>, found: seq<Igd>)
    returns (alreadySeen: set<string>, igds: seq<Igd>)
    requires seen == Udns(occs) && found == Expected(occs)
    ensures var all := occs + Below(uuid, location, v, devices);
      alreadySeen == Udns(all) && igds == Expected(all)
  {
    alreadySeen, igds := seen, found;
    var i := 0;
    assert occs + Below(uuid, location, v, devices[..0]) == occs;
    while i < |devices|
      invariant i <= |devices|
      invariant var done := occs + Below(uuid, location, v, devices[..i]);
        alreadySeen == Udns(done) && igds == Expected(done)
    {
      BelowStep(uuid, location, v, devices, i, occs);
      alreadySeen, igds := AddDevice(Occurrence(uuid, location, v, devices[i]),
                                     occs + Below(uuid, location, v, devices[..i]), alreadySeen, igds);
      i := i + 1;
    }
    assert devices[..i] == devices;
  }

  lemma OccurrencesStep<A>(makeAddress: string -> Option<A>, items: seq<Item>, i: nat)
    requires AllLocated(items) && i < |items|
    ensures AllLocated(items[..i]) && AllLocated(items[..i + 1])
    ensures Occurrences(makeAddress, items[..i + 1])
         == Occurrences(makeAddress, items[..i]) + OccurrencesIn(makeAddress, items[i])
  {
    Prefix(items, i);
  }

  lemma FetchedStep<A>(makeAddress: string -> Option<A>, items: seq<Item>, i: nat)
    requires AllLocated(items) && i < |items|
    ensures AllLocated(items[..i]) && AllLocated(items[..i + 1])
    ensures AllFetched(makeAddress, items[..i]) && Fetched(makeAddress, items[i])
        ==> AllFetched(makeAddress, items[..i + 1])
    ensures AllFetched(makeAddress, items) ==> Fetched(makeAddress, items[i])
  {
    var front, some := items[..i], items[..i + 1];
    if AllFetched(makeAddress, front) && Fetched(makeAddress, items[i]) {
      forall j | 0 <= j < |some| ensures Fetched(makeAddress, some[j]) {
        assert some[j] == if j < i then front[j] else items[i];
      }
    }
  }

  lemma NoneMore(occs: seq<Occurrence>)
    ensures occs + [] == occs
  {
  }

  /** One answer; `ok` is false if its description cannot be fetched. */
  method AddAnswer<A>(makeAddress: string -> Option<A>, item: Item, ghost occs: seq<Occurrence>,
                      seen: set<string>, found: seq<Igd>)
    returns (ok: bool, alreadySeen: set<string>, igds: seq<Igd>)
    requires item.Answer? && Located(item.response.location)
    requires seen == Udns(occs) && found == Expected(occs)
    ensures ok == Fetched(makeAddress, item)
    ensures ok ==> var all := occs + OccurrencesIn(makeAddress, item);
      alreadySeen == Udns(all) && igds == Expected(all)
  {
    ok, alreadySeen, igds := true, seen, found;
    var root := RootDevice(makeAddress, item.response.location, item.exchange);
    if root.None? {
      ok := false;
      return;
    }
    var v := Version(root.value.deviceType);
    if v.None? {
      NoneMore(occs);
      return;
    }
    alreadySeen, igds :=
      AddDevices(item.response.uuid, item.response.location, v.value, root.value.devices, occs, alreadySeen, igds);
  }

  /** What one turn of the loop does: a parse error is skipped. */
  method AddItem<A>(makeAddress: string -> Option<A>, item: Item, ghost occs: seq<Occurrence>,
                    seen: set<string>, found: seq<Igd>)
    returns (ok: bool, alreadySeen: set<string>, igds: seq<Igd>)
    requires item.Answer? ==> Located(item.response.location)
    requires seen == Udns(occs) && found == Expected(occs)
    ensures ok == Fetched(makeAddress, item)
    ensures ok ==> var all := occs + OccurrencesIn(makeAddress, item);
      alreadySeen == Udns(all) && igds == Expected(all)
  {
    if item.Unparsed? {
      NoneMore(occs);
      return true, seen, found;
    }
    ok, alreadySeen, igds := AddAnswer(makeAddress, item, occs, seen, found);
  }

  /** The loop over what `get_response` yields before it ends. */
  method Collect<A>(makeAddress: string -> Option<A>, items: seq<Item>) returns (ok: bool, igds: seq<Igd>)
    requires AllLocated(items)
    ensures ok == AllFetched(makeAddress, items)
    ensures ok ==> igds == Expected(Occurrences(makeAddress, items))
  {
    var alreadySeen: set<string> := {};
    ok, igds := true, [];
    var i := 0;
    while i < |items|
      invariant i <= |items| && ok && AllFetched(makeAddress, items[..i])
      invariant var occs := Occurrences(makeAddress, items[..i]);
        alreadySeen == Udns(occs) && igds == Expected(occs)
    {
      OccurrencesStep(makeAddress, items, i);
      FetchedStep(makeAddress, items, i);
      ok, alreadySeen, igds :=
        AddItem(makeAddress, items[i], Occurrences(makeAddress, items[..i]), alreadySeen, igds);
      if !ok {
        return;
      }
      i := i + 1;
    }
    assert items[..i] == items;
  }

  /** The loop and what follows it; `last` is how the calls end. */
  method Discover<A>(makeAddress: string -> Option<A>, items: seq<Item>, last: Ending)
    returns (r: SsdpMessage.Result<seq<Igd>, Failure>)
    requires AllLocated(items)
    ensures r == Discovered(makeAddress, items, last)
  {
    var ok, igds := Collect(makeAddress, items);
    if !ok {
      return Err(IoError);
    }
    match last
    case BadAccess(error) =>
      return Err(Thrown(error));
    case Code(code) =>
      if code == TimedOut && igds != [] {
        return Ok(igds);
      }
      return Err(Terminal(code));
  }

  // ----- What the result means -----

  ghost predicate From(igd: Igd, o: Occurrence) {
    && o.device.deviceType == WAN_DEVICE + o.version
    && igd.uuid == o.uuid && igd.device == o.device
    && exists c, s :: c in o.device.devices && s in c.services &&
         c.deviceType == WAN_CONNECTION + o.version &&
         (s.serviceType == WAN_IP + o.version || s.serviceType == WAN_PPP + o.version) &&
         igd.serviceId == s.id && igd.urn == s.serviceType && igd.url == WithPath(o.location, PathText(s.controlUrl))
  }

  lemma {:induction false} ServiceMatchesExact(o: Occurrence, services: seq<Service>, igd: Igd)
    ensures igd in ServiceMatches(o, services) <==> exists s :: s in services && igd in ServiceMatch(o, s)
  {
    if services == [] {
    } else {
      var front, last := services[..|services| - 1], services[|services| - 1];
      ServiceMatchesExact(o, front, igd);
      assert services == front + [last];
    }
  }

  lemma {:induction false} ConnectionMatchesExact(o: Occurrence, connections: seq<Device>, igd: Igd)
    ensures igd in ConnectionMatches(o, connections) <==>
      exists c :: c in connections && c.deviceType == WAN_CONNECTION + o.version && igd in ServiceMatches(o, c.services)
  {
    if connections == [] {
    } else {
      var front, last := connections[..|connections| - 1], connections[|connections| - 1];
      ConnectionMatchesExact(o, front, igd);
      assert connections == front + [last];
    }
  }

  lemma MatchComesFrom(o: Occurrence, igd: Igd)
    requires igd in Matches(o)
    ensures From(igd, o)
  {
    ConnectionMatchesExact(o, o.device.devices, igd);
    var c :| c in o.device.devices && c.deviceType == WAN_CONNECTION + o.version &&
       igd in ServiceMatches(o, c.services);
    ServiceMatchesExact(o, c.services, igd);
    var s :| s in c.services && igd in ServiceMatch(o, s);
    assert igd.serviceId == s.id;
  }

  lemma SourceMatches(o: Occurrence, igd: Igd)
    requires From(igd, o)
    ensures igd in Matches(o)
  {
    var c, s :| c in o.device.devices && s in c.services &&
       c.deviceType == WAN_CONNECTION + o.version &&
       (s.serviceType == WAN_IP + o.version || s.serviceType == WAN_PPP + o.version) &&
       igd.serviceId == s.id && igd.urn == s.serviceType && igd.url == WithPath(o.location, PathText(s.controlUrl));
    assert igd in ServiceMatch(o, s);
    ServiceMatchesExact(o, c.services, igd);
    ConnectionMatchesExact(o, o.device.devices, igd);
  }

  /** An occurrence yields exactly the gateways its description contains. */
  lemma MatchesExact(o: Occurrence, igd: Igd)
    ensures igd in Matches(o) <==> From(igd, o)
  {
    if igd in Matches(o) { MatchComesFrom(o, igd); }
    if From(igd, o) { SourceMatches(o, igd); }
  }

  /** The occurrences of the results, in order. */
  function Sources(occs: seq<Occurrence>): (r: seq<nat>)
    ensures |r| == |Expected(occs)|
    ensures forall k :: 0 <= k < |r| ==> r[k] < |occs|
  {
    if occs == [] then []
    else
      var n := |occs| - 1;
      Sources(occs[..n]) + if Fresh(occs, n) then seq(|Matches(occs[n])|, _ => n) else []
  }

  lemma SourcesStep(occs: seq<Occurrence>)
    requires occs != []
    ensures var n := |occs| - 1; var front := occs[..n];
      && (Expected(front) <= Expected(occs))
      && (forall j :: 0 <= j < |Expected(occs)| ==>
            Sources(occs)[j] == if j < |Expected(front)| then Sources(front)[j] else n)
      && (Fresh(occs, n) ==> Expected(occs)[|Expected(front)|..] == Matches(occs[n]))
  {
  }

  /** The result at `k` is a match of its source, whose UDN is new there. */
  ghost predicate FromFresh(occs: seq<Occurrence>, k: nat)
    requires k < |Expected(occs)|
  {
    Fresh(occs, Sources(occs)[k]) && Expected(occs)[k] in Matches(occs[Sources(occs)[k]])
  }

  lemma LastIsFresh(occs: seq<Occurrence>, k: nat)
    requires occs != [] && |Expected(occs[..|occs| - 1])| <= k < |Expected(occs)|
    ensures Sources(occs)[k] == |occs| - 1 && FromFresh(occs, k)
  {
    var n := |occs| - 1;
    var at := |Expected(occs[..n])|;
    SourcesStep(occs);
    assert Expected(occs)[k] == Expected(occs)[at..][k - at];
  }

  lemma FrontIsFresh(occs: seq<Occurrence>, k: nat)
    requires occs != [] && k < |Expected(occs[..|occs| - 1])| && FromFresh(occs[..|occs| - 1], k)
    ensures k < |Expected(occs)| && Sources(occs)[k] == Sources(occs[..|occs| - 1])[k] && FromFresh(occs, k)
  {
    SourcesStep(occs);
    assert Expected(occs)[k] == Expected(occs[..|occs| - 1])[k];
  }

  /** Every result comes from an occurrence whose UDN is new there, and results are in the order
      of their occurrences. */
  lemma {:induction false} SourcesAreFresh(occs: seq<Occurrence>, k: nat)
    requires k < |Expected(occs)|
    ensures FromFresh(occs, k)
    ensures forall j :: 0 <= j < k ==> Sources(occs)[j] <= Sources(occs)[k]
  {
    var front := occs[..|occs| - 1];
    SourcesStep(occs);
    if k < |Expected(front)| {
      SourcesAreFresh(front, k);
      FrontIsFresh(occs, k);
    } else {
      LastIsFresh(occs, k);
    }
  }

  /** The results of occurrence `k` are those from position `at` on, all of them and no other. */
  ghost predicate Stretch(occs: seq<Occurrence>, k: nat, at: nat)
    requires k < |occs|
  {
    var n := |Matches(occs[k])|;
    && at + n <= |Expected(occs)| && Expected(occs)[at..at + n] == Matches(occs[k])
    && forall j :: 0 <= j < |Expected(occs)| ==> (Sources(occs)[j] == k <==> at <= j < at + n)
  }

  lemma StretchLast(occs: seq<Occurrence>)
    requires occs != [] && Fresh(occs, |occs| - 1)
    ensures Stretch(occs, |occs| - 1, |Expected(occs[..|occs| - 1])|)
  {
    var n := |occs| - 1;
    SourcesStep(occs);
    var at, m := |Expected(occs[..n])|, |Matches(occs[n])|;
    assert Expected(occs)[at..at + m] == Expected(occs)[at..];
    assert forall j :: 0 <= j < at ==> Sources(occs[..n])[j] < n;
  }

  lemma SameStretch<T>(a: seq<T>, b: seq<T>, at: nat, end: nat)
    requires a <= b && at <= end <= |a|
    ensures b[at..end] == a[at..end]
  {
  }

  lemma SourcesStay(occs: seq<Occurrence>, k: nat, at: nat, end: nat)
    requires k < |occs| - 1 && end <= |Expected(occs[..|occs| - 1])|
    requires var front := occs[..|occs| - 1];
      forall j :: 0 <= j < |Expected(front)| ==> (Sources(front)[j] == k <==> at <= j < end)
    ensures forall j :: 0 <= j < |Expected(occs)| ==> (Sources(occs)[j] == k <==> at <= j < end)
  {
    var front := occs[..|occs| - 1];
    SourcesStep(occs);
    forall j | 0 <= j < |Expected(occs)| ensures Sources(occs)[j] == k <==> at <= j < end {
      assert j < |Expected(front)| ==> Sources(occs)[j] == Sources(front)[j];
    }
  }

  lemma StretchStays(occs: seq<Occurrence>, k: nat, at: nat)
    requires k < |occs| - 1 && Stretch(occs[..|occs| - 1], k, at)
    ensures Stretch(occs, k, at)
  {
    var front, end := occs[..|occs| - 1], at + |Matches(occs[k])|;
    assert Expected(front) <= Expected(occs) by { SourcesStep(occs); }
    SameStretch(Expected(front), Expected(occs), at, end);
    SourcesStay(occs, k, at, end);
  }

  /** An occurrence whose UDN is new gives all its gateways, in one stretch, and no other result. */
  lemma {:induction false} FreshIsReturned(occs: seq<Occurrence>, k: nat) returns (at: nat)
    requires k < |occs| && Fresh(occs, k)
    ensures Stretch(occs, k, at)
  {
    var n := |occs| - 1;
    if k < n {
      at := FreshIsReturned(occs[..n], k);
      StretchStays(occs, k, at);
    } else {
      at := |Expected(occs[..n])|;
      StretchLast(occs);
    }
  }

  /** An occurrence is returned if and only if no earlier one has its UDN and it has a gateway. */
  lemma ReturnedExactly(occs: seq<Occurrence>, k: nat)
    requires k < |occs|
    ensures (exists j :: 0 <= j < |Expected(occs)| && Sources(occs)[j] == k)
      <==> Fresh(occs, k) && Matches(occs[k]) != []
  {
    if Fresh(occs, k) {
      var at := FreshIsReturned(occs, k);
      assert Matches(occs[k]) != [] ==> Sources(occs)[at] == k;
    }
    forall j | 0 <= j < |Expected(occs)| && Sources(occs)[j] == k ensures Fresh(occs, k) {
      SourcesAreFresh(occs, j);
    }
  }

  lemma FirstIsUnique(occs: seq<Occurrence>, i: nat, k: nat)
    requires i < |occs| && k < |occs| && Fresh(occs, i) && Fresh(occs, k) && occs[i].device.udn == occs[k].device.udn
    ensures i == k
  {
  }

  /** A device with a given UDN is among the results if and only if the first one that answers
      with that UDN has a gateway. */
  lemma UdnReturnedExactly(occs: seq<Occurrence>, k: nat)
    requires k < |occs| && Fresh(occs, k)
    ensures (exists j :: 0 <= j < |Expected(occs)| && Expected(occs)[j].device.udn == occs[k].device.udn)
      <==> Matches(occs[k]) != []
  {
    ReturnedExactly(occs, k);
    forall j | 0 <= j < |Expected(occs)| ensures Expected(occs)[j].device == occs[Sources(occs)[j]].device {
      SourcesAreFresh(occs, j);
      MatchesExact(occs[Sources(occs)[j]], Expected(occs)[j]);
    }
    forall j | 0 <= j < |Expected(occs)| && Expected(occs)[j].device.udn == occs[k].device.udn
      ensures Sources(occs)[j] == k
    {
      SourcesAreFresh(occs, j);
      FirstIsUnique(occs, Sources(occs)[j], k);
    }
  }

  /** Two results of devices with the same UDN come from the same occurrence of that device. */
  lemma SameUdnSameOccurrence(occs: seq<Occurrence>, k: nat, l: nat)
    requires k < |Expected(occs)| && l < |Expected(occs)|
    requires Expected(occs)[k].device.udn == Expected(occs)[l].device.udn
    ensures Sources(occs)[k] == Sources(occs)[l] && Expected(occs)[k].device == Expected(occs)[l].device
  {
    SourcesAreFresh(occs, k);
    SourcesAreFresh(occs, l);
    var i, j := Sources(occs)[k], Sources(occs)[l];
    MatchesExact(occs[i], Expected(occs)[k]);
    MatchesExact(occs[j], Expected(occs)[l]);
    assert occs[i].device.udn == occs[j].device.udn;
  }

  /** A later answer with only known UDNs adds nothing. */
  lemma {:induction false} KnownUdnsAddNothing(occs: seq<Occurrence>, more: seq<Occurrence>)
    requires Udns(more) <= Udns(occs)
    ensures Expected(occs + more) == Expected(occs)
  {
    if more == [] {
      assert occs + more == occs;
    } else {
      var front, last := more[..|more| - 1], more[|more| - 1];
      forall u | u in Udns(front) ensures u in Udns(more) {
        var o :| o in front && o.device.udn == u;
        assert o in more;
      }
      KnownUdnsAddNothing(occs, front);
      assert occs + more == (occs + front) + [last];
      ExpectedStep(occs + front, last);
      assert last in more && last.device.udn in Udns(occs);
      var o :| o in occs && o.device.udn == last.device.udn;
      assert o in occs + front;
    }
  }

  lemma {:induction false} OccurrencesAreSafe<A>(makeAddress: string -> Option<A>, items: seq<Item>, k: nat)
    requires AllLocated(items) && k < |Occurrences(makeAddress, items)|
    ensures var o := Occurrences(makeAddress, items)[k];
      && Ordered(o.location) && Bounded(o.location) && HostBeforePort(o.location)
      && EndpointOf(makeAddress, o.location).Some?
  {
    var n := |items| - 1;
    var front := items[..n];
    if k < |Occurrences(makeAddress, front)| {
      OccurrencesAreSafe(makeAddress, front, k);
    } else {
      var location := items[n].response.location;
      LocatedIsSafe(location);
      NoEndpointByDefault(makeAddress);
      ParseIsOrdered(location.buf);
    }
  }

  /** The URL of a gateway differs from the location in its path only, and leads to the same endpoint. */
  ghost predicate LeadsBack<A>(makeAddress: string -> Option<A>, url: Rep, location: Rep) {
    && Bounded(location) && HostBeforePort(location) && Bounded(url) && HostBeforePort(url)
    && EndpointOf(makeAddress, url).Some?
    && EndpointOf(makeAddress, url) == EndpointOf(makeAddress, location)
    && Texts(url) == Texts(location).(path := Texts(url).path)
  }

  lemma EditLeadsBack<A>(makeAddress: string -> Option<A>, location: WritableUrl, path: string)
    requires Ordered(location) && Bounded(location) && HostBeforePort(location)
    requires EndpointOf(makeAddress, location).Some?
    ensures LeadsBack(makeAddress, WithPath(location, path), location)
  {
    EditKeepsEndpoint(makeAddress, location, path);
    EditRefinesRecordUpdate(location, path);
  }

  lemma ResultLeadsBack<A>(makeAddress: string -> Option<A>, items: seq<Item>, k: nat)
    requires AllLocated(items) && k < |Expected(Occurrences(makeAddress, items))|
    ensures var occs := Occurrences(makeAddress, items);
      var o, igd := occs[Sources(occs)[k]], Expected(occs)[k];
      From(igd, o) && LeadsBack(makeAddress, igd.url, o.location)
  {
    var occs := Occurrences(makeAddress, items);
    SourcesAreFresh(occs, k);
    var o, igd := occs[Sources(occs)[k]], Expected(occs)[k];
    MatchesExact(o, igd);
    OccurrencesAreSafe(makeAddress, items, Sources(occs)[k]);
    var c, s :| c in o.device.devices && s in c.services && igd.url == WithPath(o.location, PathText(s.controlUrl));
    EditLeadsBack(makeAddress, o.location, PathText(s.controlUrl));
  }

  /** Success means a nonempty result, the expected one; each gateway's URL is the location with
      the path of the control URL, so the endpoint requests will go to is the one its
      description came from. */
  lemma DiscoveryMeaning<A>(makeAddress: string -> Option<A>, items: seq<Item>, last: Ending, k: nat)
    requires AllLocated(items) && Discovered(makeAddress, items, last).Ok?
    requires k < |Discovered(makeAddress, items, last).value|
    ensures var igds, occs := Discovered(makeAddress, items, last).value, Occurrences(makeAddress, items);
      && last == Code(TimedOut) && igds != [] && igds == Expected(occs)
      && var o := occs[Sources(occs)[k]];
      From(igds[k], o) && LeadsBack(makeAddress, igds[k].url, o.location)
  {
    ResultLeadsBack(makeAddress, items, k);
  }

  /** Some device with a gateway is the first that answers with its UDN. */
  ghost predicate SomeGateway(occs: seq<Occurrence>) {
    exists k :: 0 <= k < |occs| && Fresh(occs, k) && Matches(occs[k]) != []
  }

  lemma SomethingReturned(occs: seq<Occurrence>)
    ensures Expected(occs) != [] <==> SomeGateway(occs)
  {
    if Expected(occs) != [] {
      SourcesAreFresh(occs, 0);
      assert Matches(occs[Sources(occs)[0]]) != [];
    }
    forall k | 0 <= k < |occs| && Fresh(occs, k) && Matches(occs[k]) != [] ensures Expected(occs) != [] {
      ReturnedExactly(occs, k);
    }
  }

  /** Discovery succeeds if and only if every description could be fetched, the calls ended in a
      time-out, and some device with a gateway is the first that answers with its UDN. */
  lemma SucceedsExactly<A>(makeAddress: string -> Option<A>, items: seq<Item>, last: Ending)
    requires AllLocated(items)
    ensures Discovered(makeAddress, items, last).Ok? <==>
      AllFetched(makeAddress, items) && last == Code(TimedOut) && SomeGateway(Occurrences(makeAddress, items))
  {
    SomethingReturned(Occurrences(makeAddress, items));
  }

  /** The UDN is recorded before the type is looked at: a device of another type, wherever it
      stands, hides every later device with its UDN, whatever that has to offer, and if it is the
      first with that UDN no result has it. */
  lemma OtherTypeHidesGateway(occs: seq<Occurrence>, i: nat, k: nat)
    requires i < k < |occs| && occs[i].device.udn == occs[k].device.udn
    requires occs[i].device.deviceType != WAN_DEVICE + occs[i].version
    ensures forall j :: 0 <= j < |Expected(occs)| ==> Sources(occs)[j] != i && Sources(occs)[j] != k
    ensures Fresh(occs, i) ==>
      forall j :: 0 <= j < |Expected(occs)| ==> Expected(occs)[j].device.udn != occs[k].device.udn
  {
    ReturnedExactly(occs, i);
    ReturnedExactly(occs, k);
    if Fresh(occs, i) { UdnReturnedExactly(occs, i); }
  }

  function Basic(udn: string): Device {
    Device("urn:schemas-upnp-org:device:Basic:1", udn, "", [], [])
  }

  /** A WAN device with a single connection that has a single service. */
  function Gateway(udn: string): Device {
    var service := Service("", WAN_IP + "1", NO_URL);
    Device(WAN_DEVICE + "1", udn, "", [Device(WAN_CONNECTION + "1", "", "", [], [service])], [])
  }

  lemma GatewayMatches(o: Occurrence)
    requires o.version == "1" && o.device == Gateway(o.device.udn)
    ensures Matches(o) != []
  {
    var connections := o.device.devices;
    var services := connections[0].services;
    assert connections[..0] == [] && services[..0] == [];
    assert |ServiceMatches(o, services)| == 1;
    assert ConnectionMatches(o, connections) == ServiceMatches(o, services);
  }

  lemma ExpectedOfTwo(a: Occurrence, b: Occurrence)
    requires a.device.udn == b.device.udn && Matches(a) == []
    ensures Expected([b]) == Matches(b) && Expected([a, b]) == []
  {
    ExpectedStep([], b);
    ExpectedStep([], a);
    ExpectedStep([a], b);
    assert [] + [a] == [a] && [] + [b] == [b] && [a] + [b] == [a, b];
    assert a in [a];
  }

  lemma BasicMatchesNothing(o: Occurrence)
    requires o.version == "1" && o.device == Basic(o.device.udn)
    ensures Matches(o) == []
  {
    assert o.device.deviceType[28] == 'B' && (WAN_DEVICE + "1")[28] == 'W';
  }

  /** The smallest such case: a gateway that is found alone is not found behind a basic device
      with its UDN. */
  lemma HiddenGateway(uuid: string, location: WritableUrl, udn: string)
    ensures var a, b := Occurrence(uuid, location, "1", Basic(udn)), Occurrence(uuid, location, "1", Gateway(udn));
      Expected([b]) != [] && Expected([a, b]) == []
  {
    var a, b := Occurrence(uuid, location, "1", Basic(udn)), Occurrence(uuid, location, "1", Gateway(udn));
    GatewayMatches(b);
    BasicMatchesNothing(a);
    ExpectedOfTwo(a, b);
  }
}
