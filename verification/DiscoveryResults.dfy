/** Which gateways discovery finds, said of the answers and their device descriptions alone. */
module DiscoveryResults {
  import opened Options
  import opened Executor
  import opened Urls
  import opened Endpoints
  import opened SsdpMessage
  import opened DeviceTree
  import opened Discovery

  // ----- What a gateway is -----

  /** The description's root device is an internet gateway device of this version. */
  predicate GatewayRoot(root: Device, v: string) {
    (v == "1" || v == "2") && root.deviceType == "urn:schemas-upnp-org:device:InternetGatewayDevice:" + v
  }

  /** The text of the path view of a control URL. */
  function OwnPath(url: Rep): string {
    if InBounds(url.buf, url.path) then Text(url.buf, url.path) else ""
  }

  /** A connection of the device has a service that makes it this gateway. */
  ghost predicate Serves(igd: Igd, response: Response, d: Device, v: string) {
    && Writable(response.location)
    && d.deviceType == "urn:schemas-upnp-org:device:WANDevice:" + v
    && (exists c, s :: c in d.devices && s in c.services
          && c.deviceType == "urn:schemas-upnp-org:device:WANConnectionDevice:" + v
          && (s.serviceType == "urn:schemas-upnp-org:service:WANIPConnection:" + v
              || s.serviceType == "urn:schemas-upnp-org:service:WANPPPConnection:" + v)
          && igd == Igd(response.uuid, d, s.id, WithPath(response.location, OwnPath(s.controlUrl)), s.serviceType))
  }

  /** The gateway is one of the i-th device of the answer's description. */
  ghost predicate GatewayAt(igd: Igd, item: Item, v: string, i: int) {
    && item.Answer? && item.exchange.Some? && GatewayRoot(item.exchange.value, v)
    && 0 <= i < |item.exchange.value.devices|
    && Serves(igd, item.response, item.exchange.value.devices[i], v)
  }

  /** The answer's description, of either version, lists a device with this UDN at `j`. */
  predicate Lists(item: Item, j: int, udn: string) {
    && item.Answer? && item.exchange.Some?
    && (GatewayRoot(item.exchange.value, "1") || GatewayRoot(item.exchange.value, "2"))
    && 0 <= j < |item.exchange.value.devices| && item.exchange.value.devices[j].udn == udn
  }

  /** No earlier device of this answer and no device of an earlier one has the UDN. */
  ghost predicate NewAt(items: seq<Item>, n: int, i: int, udn: string) {
    && 0 <= n < |items|
    && (forall j :: 0 <= j < i ==> !Lists(items[n], j, udn))
    && (forall m, j :: 0 <= m < n ==> !Lists(items[m], j, udn))
  }

  // ----- The version -----

  lemma VersionExact(deviceType: string, v: string)
    ensures Version(deviceType) == Some(v) <==>
      (v == "1" || v == "2") && deviceType == "urn:schemas-upnp-org:device:InternetGatewayDevice:" + v
  {
    assert IGD1 == "urn:schemas-upnp-org:device:InternetGatewayDevice:" + "1";
    assert IGD2 == "urn:schemas-upnp-org:device:InternetGatewayDevice:" + "2";
    assert IGD1[|IGD1| - 1] != IGD2[|IGD2| - 1];
  }

  lemma VersionOfRoot(root: Device, v: string)
    ensures Version(root.deviceType) == Some(v) <==> GatewayRoot(root, v)
  {
    VersionExact(root.deviceType, v);
  }

  // ----- One answer -----

  lemma OwnPathIs(url: Rep)
    ensures OwnPath(url) == PathText(url)
  {
  }

  lemma MatchesAreServed(response: Response, d: Device, v: string, igd: Igd)
    requires Writable(response.location)
    ensures igd in Matches(Occurrence(response.uuid, response.location, v, d)) <==> Serves(igd, response, d, v)
  {
    var o := Occurrence(response.uuid, response.location, v, d);
    MatchesExact(o, igd);
    forall url: Rep ensures OwnPath(url) == PathText(url) { OwnPathIs(url); }
    if From(igd, o) {
      var c, s :| c in d.devices && s in c.services &&
         c.deviceType == WAN_CONNECTION + v &&
         (s.serviceType == WAN_IP + v || s.serviceType == WAN_PPP + v) &&
         igd.serviceId == s.id && igd.urn == s.serviceType && igd.url == WithPath(o.location, PathText(s.controlUrl));
      assert igd == Igd(response.uuid, d, s.id, WithPath(response.location, OwnPath(s.controlUrl)), s.serviceType);
    }
  }

  /** The i-th device is the first of the list with its UDN, and no occurrence before has it. */
  ghost predicate NewBelow(occs: seq<Occurrence>, devices: seq<Device>, i: int) {
    && 0 <= i < |devices| && devices[i].udn !in Udns(occs)
    && forall j :: 0 <= j < i ==> devices[j].udn != devices[i].udn
  }

  lemma BelowLast(response: Response, v: string, devices: seq<Device>, occs: seq<Occurrence>)
    requires Writable(response.location) && devices != []
    ensures var n := |devices| - 1;
      occs + Below(response.uuid, response.location, v, devices) ==
        (occs + Below(response.uuid, response.location, v, devices[..n]))
          + [Occurrence(response.uuid, response.location, v, devices[n])]
  {
    var n := |devices| - 1;
    BelowStep(response.uuid, response.location, v, devices, n, occs);
    assert devices[..n + 1] == devices;
  }

  lemma BelowNone(response: Response, v: string, occs: seq<Occurrence>)
    requires Writable(response.location)
    ensures occs + Below(response.uuid, response.location, v, []) == occs
  {
  }

  ghost predicate HasUdn(devices: seq<Device>, u: string) {
    exists j :: 0 <= j < |devices| && devices[j].udn == u
  }

  lemma HasUdnLast(devices: seq<Device>, u: string)
    requires devices != []
    ensures HasUdn(devices, u) <==> HasUdn(devices[..|devices| - 1], u) || devices[|devices| - 1].udn == u
  {
    var front := devices[..|devices| - 1];
    forall j | 0 <= j < |front| ensures front[j] == devices[j] {
    }
  }

  lemma {:induction false} UdnsBelow(response: Response, v: string, devices: seq<Device>,
                                     occs: seq<Occurrence>, u: string)
    requires Writable(response.location)
    ensures u in Udns(occs + Below(response.uuid, response.location, v, devices)) <==>
      u in Udns(occs) || HasUdn(devices, u)
    decreases |devices|
  {
    if devices == [] {
      BelowNone(response, v, occs);
    } else {
      var n := |devices| - 1;
      var before := occs + Below(response.uuid, response.location, v, devices[..n]);
      BelowLast(response, v, devices, occs);
      UdnsBelow(response, v, devices[..n], occs, u);
      ExpectedStep(before, Occurrence(response.uuid, response.location, v, devices[n]));
      HasUdnLast(devices, u);
    }
  }

  /** A device that is new below serves the gateway. */
  ghost predicate AddsBelow(response: Response, v: string, devices: seq<Device>, occs: seq<Occurrence>, igd: Igd) {
    exists i :: NewBelow(occs, devices, i) && Serves(igd, response, devices[i], v)
  }

  lemma NewBelowFront(occs: seq<Occurrence>, devices: seq<Device>, i: int)
    requires devices != [] && 0 <= i < |devices| - 1
    ensures NewBelow(occs, devices[..|devices| - 1], i) <==> NewBelow(occs, devices, i)
  {
    var front := devices[..|devices| - 1];
    assert forall j :: 0 <= j <= i ==> front[j] == devices[j];
  }

  lemma NewBelowLast(occs: seq<Occurrence>, devices: seq<Device>)
    requires devices != []
    ensures var n := |devices| - 1;
      NewBelow(occs, devices, n) <==> devices[n].udn !in Udns(occs) && !HasUdn(devices[..n], devices[n].udn)
  {
    var front := devices[..|devices| - 1];
    forall j | 0 <= j < |front| ensures front[j] == devices[j] {
    }
  }

  lemma AddsBelowLast(response: Response, v: string, devices: seq<Device>, occs: seq<Occurrence>, igd: Igd)
    requires devices != []
    ensures var n := |devices| - 1;
      AddsBelow(response, v, devices, occs, igd) <==>
        AddsBelow(response, v, devices[..n], occs, igd) ||
        (NewBelow(occs, devices, n) && Serves(igd, response, devices[n], v))
  {
    var n := |devices| - 1;
    var front := devices[..n];
    forall i | 0 <= i < n ensures front[i] == devices[i] && (NewBelow(occs, front, i) <==> NewBelow(occs, devices, i)) {
      NewBelowFront(occs, devices, i);
    }
  }

  lemma OneBelow(response: Response, v: string, devices: seq<Device>, occs: seq<Occurrence>, igd: Igd)
    requires Writable(response.location) && devices != []
    ensures var n := |devices| - 1;
      var before := occs + Below(response.uuid, response.location, v, devices[..n]);
      igd in Expected(occs + Below(response.uuid, response.location, v, devices)) <==>
        igd in Expected(before) || (NewBelow(occs, devices, n) && Serves(igd, response, devices[n], v))
  {
    var n := |devices| - 1;
    var before := occs + Below(response.uuid, response.location, v, devices[..n]);
    BelowLast(response, v, devices, occs);
    ExpectedStep(before, Occurrence(response.uuid, response.location, v, devices[n]));
    MatchesAreServed(response, devices[n], v, igd);
    UdnsBelow(response, v, devices[..n], occs, devices[n].udn);
    NewBelowLast(occs, devices);
  }

  /** What a list of devices adds to the results. */
  lemma {:induction false} ExpectedBelow(response: Response, v: string, devices: seq<Device>,
                                         occs: seq<Occurrence>, igd: Igd)
    requires Writable(response.location)
    ensures igd in Expected(occs + Below(response.uuid, response.location, v, devices)) <==>
      igd in Expected(occs) || AddsBelow(response, v, devices, occs, igd)
    decreases |devices|
  {
    if devices == [] {
      BelowNone(response, v, occs);
    } else {
      ExpectedBelow(response, v, devices[..|devices| - 1], occs, igd);
      OneBelow(response, v, devices, occs, igd);
      AddsBelowLast(response, v, devices, occs, igd);
    }
  }

  lemma LastOfBoth<T>(a: seq<T>, b: seq<T>)
    requires b != []
    ensures (a + b)[..|a + b| - 1] == a + b[..|b| - 1] && (a + b)[|a + b| - 1] == b[|b| - 1]
  {
  }

  /** The order and number of the gateways of one device: by connection, and there by service. */
  lemma {:induction false} ServiceMatchesConcatenate(o: Occurrence, a: seq<Service>, b: seq<Service>)
    ensures ServiceMatches(o, a + b) == ServiceMatches(o, a) + ServiceMatches(o, b)
    decreases |b|
  {
    if b == [] {
      assert a + b == a;
      Grouped(ServiceMatches(o, a), [], []);
    } else {
      var n := |b| - 1;
      LastOfBoth(a, b);
      ServiceMatchesConcatenate(o, a, b[..n]);
      Grouped(ServiceMatches(o, a), ServiceMatches(o, b[..n]), ServiceMatch(o, b[n]));
    }
  }

  lemma SingleService(o: Occurrence, s: Service)
    ensures ServiceMatches(o, [s]) ==
      if s.serviceType == "urn:schemas-upnp-org:service:WANIPConnection:" + o.version
         || s.serviceType == "urn:schemas-upnp-org:service:WANPPPConnection:" + o.version
      then [Igd(o.uuid, o.device, s.id, WithPath(o.location, OwnPath(s.controlUrl)), s.serviceType)]
      else []
  {
    OwnPathIs(s.controlUrl);
    assert [s][..0] == [];
    assert ServiceMatches(o, []) == [];
  }

  lemma {:induction false} ConnectionMatchesConcatenate(o: Occurrence, a: seq<Device>, b: seq<Device>)
    ensures ConnectionMatches(o, a + b) == ConnectionMatches(o, a) + ConnectionMatches(o, b)
    decreases |b|
  {
    if b == [] {
      assert a + b == a;
      Grouped(ConnectionMatches(o, a), [], []);
    } else {
      var n := |b| - 1;
      LastOfBoth(a, b);
      ConnectionMatchesConcatenate(o, a, b[..n]);
      var last := if b[n].deviceType == WAN_CONNECTION + o.version then ServiceMatches(o, b[n].services) else [];
      Grouped(ConnectionMatches(o, a), ConnectionMatches(o, b[..n]), last);
    }
  }

  lemma SingleConnection(o: Occurrence, c: Device)
    ensures ConnectionMatches(o, [c]) ==
      if c.deviceType == "urn:schemas-upnp-org:device:WANConnectionDevice:" + o.version
      then ServiceMatches(o, c.services) else []
  {
    assert [c][..0] == [];
    assert ConnectionMatches(o, []) == [];
  }

  // ----- All answers -----

  lemma FetchedExactly<A>(makeAddress: string -> Option<A>, item: Item)
    requires item.Answer? && Located(item.response.location)
    ensures Bounded(item.response.location) && HostBeforePort(item.response.location)
    ensures Fetched(makeAddress, item) <==>
      EndpointOf(makeAddress, item.response.location).Some? && item.exchange.Some?
    ensures Fetched(makeAddress, item) ==> Writable(item.response.location)
  {
    LocatedIsSafe(item.response.location);
  }

  lemma VersionCases(root: Device, v: string)
    ensures GatewayRoot(root, v) ==> Version(root.deviceType) == Some(v)
    ensures !GatewayRoot(root, "1") && !GatewayRoot(root, "2") ==> Version(root.deviceType) == None
  {
    VersionOfRoot(root, v);
    VersionOfRoot(root, "1");
    VersionOfRoot(root, "2");
    VersionIsOneOrTwo(root.deviceType);
  }

  lemma VersionIsOneOrTwo(deviceType: string)
    ensures Version(deviceType) in {None, Some("1"), Some("2")}
  {
  }

  /** What an answer yields, by the version of its root. */
  lemma OccurrencesOf<A>(makeAddress: string -> Option<A>, item: Item, v: string)
    requires item.Answer? && Located(item.response.location) && Fetched(makeAddress, item)
    ensures item.exchange.Some? && Writable(item.response.location)
    ensures var root, all := item.exchange.value, OccurrencesIn(makeAddress, item);
      && (GatewayRoot(root, v) ==> all == Below(item.response.uuid, item.response.location, v, root.devices))
      && (!GatewayRoot(root, "1") && !GatewayRoot(root, "2") ==> all == [])
  {
    FetchedExactly(makeAddress, item);
    VersionCases(item.exchange.value, v);
  }

  lemma OneVersion(root: Device, v: string, w: string)
    requires GatewayRoot(root, v) && GatewayRoot(root, w)
    ensures v == w
  {
    VersionOfRoot(root, v);
    VersionOfRoot(root, w);
  }

  ghost predicate Adds(occs: seq<Occurrence>, item: Item, igd: Igd) {
    exists v, i :: GatewayAt(igd, item, v, i) && NewBelow(occs, item.exchange.value.devices, i)
  }

  ghost predicate ListsUdn(item: Item, u: string) {
    exists j :: Lists(item, j, u)
  }

  lemma AddsInVersion(occs: seq<Occurrence>, item: Item, igd: Igd, v: string)
    requires item.Answer? && item.exchange.Some? && GatewayRoot(item.exchange.value, v)
    ensures Adds(occs, item, igd) <==> AddsBelow(item.response, v, item.exchange.value.devices, occs, igd)
  {
    forall w, i | GatewayAt(igd, item, w, i) ensures w == v {
      OneVersion(item.exchange.value, v, w);
    }
    var devices := item.exchange.value.devices;
    forall i | NewBelow(occs, devices, i) && Serves(igd, item.response, devices[i], v)
      ensures GatewayAt(igd, item, v, i)
    {
    }
  }

  lemma ListsInVersion(item: Item, v: string, u: string)
    requires item.Answer? && item.exchange.Some? && GatewayRoot(item.exchange.value, v)
    ensures ListsUdn(item, u) <==> HasUdn(item.exchange.value.devices, u)
  {
    var devices := item.exchange.value.devices;
    forall j | 0 <= j < |devices| && devices[j].udn == u ensures Lists(item, j, u) {
    }
  }

  lemma OtherRootAddsNothing(occs: seq<Occurrence>, item: Item, igd: Igd, u: string)
    requires item.Answer? ==>
      item.exchange.Some? && !GatewayRoot(item.exchange.value, "1") && !GatewayRoot(item.exchange.value, "2")
    ensures !Adds(occs, item, igd) && !ListsUdn(item, u)
  {
  }

  /** What one answer adds to the UDNs and to the results. */
  lemma AnswerAdds<A>(makeAddress: string -> Option<A>, item: Item, occs: seq<Occurrence>, igd: Igd, u: string)
    requires (item.Answer? ==> Located(item.response.location)) && Fetched(makeAddress, item)
    ensures var all := occs + OccurrencesIn(makeAddress, item);
      && (u in Udns(all) <==> u in Udns(occs) || ListsUdn(item, u))
      && (igd in Expected(all) <==> igd in Expected(occs) || Adds(occs, item, igd))
  {
    NoneMore(occs);
    if item.Unparsed? {
      OtherRootAddsNothing(occs, item, igd, u);
    } else {
      FetchedExactly(makeAddress, item);
      var root := item.exchange.value;
      if GatewayRoot(root, "1") {
        GatewayAdds(makeAddress, item, occs, igd, u, "1");
      } else if GatewayRoot(root, "2") {
        GatewayAdds(makeAddress, item, occs, igd, u, "2");
      } else {
        OccurrencesOf(makeAddress, item, "1");
        OtherRootAddsNothing(occs, item, igd, u);
      }
    }
  }

  lemma GatewayAdds<A>(makeAddress: string -> Option<A>, item: Item, occs: seq<Occurrence>,
                       igd: Igd, u: string, v: string)
    requires item.Answer? && Located(item.response.location) && Fetched(makeAddress, item)
    requires item.exchange.Some? && GatewayRoot(item.exchange.value, v)
    ensures var all := occs + OccurrencesIn(makeAddress, item);
      && (u in Udns(all) <==> u in Udns(occs) || ListsUdn(item, u))
      && (igd in Expected(all) <==> igd in Expected(occs) || Adds(occs, item, igd))
  {
    var devices := item.exchange.value.devices;
    OccurrencesOf(makeAddress, item, v);
    UdnsBelow(item.response, v, devices, occs, u);
    ExpectedBelow(item.response, v, devices, occs, igd);
    AddsInVersion(occs, item, igd, v);
    ListsInVersion(item, v, u);
  }

  ghost predicate Listed(items: seq<Item>, u: string) {
    exists m :: 0 <= m < |items| && ListsUdn(items[m], u)
  }

  lemma ListedLast(items: seq<Item>, u: string)
    requires items != []
    ensures Listed(items, u) <==> Listed(items[..|items| - 1], u) || ListsUdn(items[|items| - 1], u)
  {
    var front := items[..|items| - 1];
    forall m | 0 <= m < |front| ensures front[m] == items[m] {
    }
  }

  lemma OccurrencesLast<A>(makeAddress: string -> Option<A>, items: seq<Item>)
    requires items != [] && AllLocated(items) && AllFetched(makeAddress, items)
    ensures var front, last := items[..|items| - 1], items[|items| - 1];
      && AllLocated(front) && AllFetched(makeAddress, front)
      && (last.Answer? ==> Located(last.response.location)) && Fetched(makeAddress, last)
      && Occurrences(makeAddress, items) == Occurrences(makeAddress, front) + OccurrencesIn(makeAddress, last)
  {
    var front := items[..|items| - 1];
    forall m | 0 <= m < |front| ensures front[m] == items[m] && Fetched(makeAddress, items[m]) {
    }
  }

  lemma {:induction false} UdnsAreListed<A>(makeAddress: string -> Option<A>, items: seq<Item>, igd: Igd, u: string)
    requires AllLocated(items) && AllFetched(makeAddress, items)
    ensures u in Udns(Occurrences(makeAddress, items)) <==> Listed(items, u)
  {
    if items == [] {
    } else {
      var front := items[..|items| - 1];
      OccurrencesLast(makeAddress, items);
      UdnsAreListed(makeAddress, front, igd, u);
      AnswerAdds(makeAddress, items[|items| - 1], Occurrences(makeAddress, front), igd, u);
      ListedLast(items, u);
    }
  }

  // ----- The result -----

  ghost predicate ResultAt(items: seq<Item>, n: int, igd: Igd) {
    0 <= n < |items| && exists v, i :: GatewayAt(igd, items[n], v, i) && NewAt(items, n, i, igd.device.udn)
  }

  lemma ResultAtFront(items: seq<Item>, n: int, igd: Igd)
    requires 0 <= n < |items| - 1
    ensures ResultAt(items[..|items| - 1], n, igd) <==> ResultAt(items, n, igd)
  {
    var front := items[..|items| - 1];
    forall m | 0 <= m <= n ensures front[m] == items[m] {
    }
    forall i ensures NewAt(front, n, i, igd.device.udn) <==> NewAt(items, n, i, igd.device.udn) {
    }
  }

  lemma NewAtLast(items: seq<Item>, occs: seq<Occurrence>, v: string, i: int, igd: Igd)
    requires items != [] && GatewayAt(igd, items[|items| - 1], v, i)
    requires igd.device.udn in Udns(occs) <==> Listed(items[..|items| - 1], igd.device.udn)
    ensures var n := |items| - 1;
      NewAt(items, n, i, igd.device.udn) <==> NewBelow(occs, items[n].exchange.value.devices, i)
  {
    var n := |items| - 1;
    var front, devices, u := items[..n], items[n].exchange.value.devices, igd.device.udn;
    forall m | 0 <= m < n ensures front[m] == items[m] {
    }
    assert devices[i].udn == u;
    forall j | 0 <= j < i ensures Lists(items[n], j, u) <==> devices[j].udn == u {
    }
  }

  lemma ResultAtLast(items: seq<Item>, occs: seq<Occurrence>, igd: Igd)
    requires items != [] && (igd.device.udn in Udns(occs) <==> Listed(items[..|items| - 1], igd.device.udn))
    ensures ResultAt(items, |items| - 1, igd) <==> Adds(occs, items[|items| - 1], igd)
  {
    var last := items[|items| - 1];
    forall v, i | GatewayAt(igd, last, v, i)
      ensures NewAt(items, |items| - 1, i, igd.device.udn) <==> NewBelow(occs, last.exchange.value.devices, i)
    {
      NewAtLast(items, occs, v, i, igd);
    }
  }

  /** The gateway is one of some answer, of a device whose UDN no earlier device of a gateway's
      description has. */
  ghost predicate IsResult(items: seq<Item>, igd: Igd) {
    exists n :: ResultAt(items, n, igd)
  }

  lemma IsResultLast(items: seq<Item>, igd: Igd)
    requires items != []
    ensures IsResult(items, igd) <==> IsResult(items[..|items| - 1], igd) || ResultAt(items, |items| - 1, igd)
  {
    var front := items[..|items| - 1];
    forall n | 0 <= n < |front| ensures ResultAt(front, n, igd) <==> ResultAt(items, n, igd) {
      ResultAtFront(items, n, igd);
    }
  }

  lemma ResultsStep<A>(makeAddress: string -> Option<A>, items: seq<Item>, igd: Igd)
    requires items != [] && AllLocated(items) && AllFetched(makeAddress, items)
    ensures var front := items[..|items| - 1];
      && AllLocated(front) && AllFetched(makeAddress, front)
      && (igd in Expected(Occurrences(makeAddress, items)) <==>
            igd in Expected(Occurrences(makeAddress, front)) || ResultAt(items, |items| - 1, igd))
  {
    var front, u := items[..|items| - 1], igd.device.udn;
    OccurrencesLast(makeAddress, items);
    var occs := Occurrences(makeAddress, front);
    UdnsAreListed(makeAddress, front, igd, u);
    AnswerAdds(makeAddress, items[|items| - 1], occs, igd, u);
    ResultAtLast(items, occs, igd);
  }

  /** The gateways discovery collects are exactly those. */
  lemma {:induction false} ResultsExactly<A>(makeAddress: string -> Option<A>, items: seq<Item>, igd: Igd)
    requires AllLocated(items) && AllFetched(makeAddress, items)
    ensures igd in Expected(Occurrences(makeAddress, items)) <==> IsResult(items, igd)
  {
    if items == [] {
    } else {
      ResultsStep(makeAddress, items, igd);
      ResultsExactly(makeAddress, items[..|items| - 1], igd);
      IsResultLast(items, igd);
    }
  }

  /** The location of the answer names an endpoint and the exchange with it succeeded. */
  predicate Reached<A>(makeAddress: string -> Option<A>, item: Item) {
    item.Answer? ==>
      var location := item.response.location;
      Bounded(location) && HostBeforePort(location) &&
      EndpointOf(makeAddress, location).Some? && item.exchange.Some?
  }

  predicate AllReached<A>(makeAddress: string -> Option<A>, items: seq<Item>) {
    forall n :: 0 <= n < |items| ==> Reached(makeAddress, items[n])
  }

  lemma ReachedExactly<A>(makeAddress: string -> Option<A>, items: seq<Item>)
    requires AllLocated(items)
    ensures AllFetched(makeAddress, items) <==> AllReached(makeAddress, items)
  {
    forall n | 0 <= n < |items| ensures Fetched(makeAddress, items[n]) <==> Reached(makeAddress, items[n]) {
      if items[n].Answer? { FetchedExactly(makeAddress, items[n]); }
    }
  }

  lemma SomeResult<A>(makeAddress: string -> Option<A>, items: seq<Item>)
    requires AllLocated(items) && AllFetched(makeAddress, items)
    ensures var igds := Expected(Occurrences(makeAddress, items));
      && (forall igd :: igd in igds <==> IsResult(items, igd))
      && (igds != [] <==> exists igd :: IsResult(items, igd))
  {
    var igds := Expected(Occurrences(makeAddress, items));
    forall igd ensures igd in igds <==> IsResult(items, igd) {
      ResultsExactly(makeAddress, items, igd);
    }
    if igds != [] { assert igds[0] in igds; }
  }

  /** When discovery succeeds, and with what: every answer could be reached, the calls ended in a
      time-out, and there is a gateway; then it returns exactly the gateways of the answers. */
  lemma SuccessExactly<A>(makeAddress: string -> Option<A>, items: seq<Item>, last: Ending)
    requires AllLocated(items)
    ensures var r := Discovered(makeAddress, items, last);
      && (r.Ok? <==> AllReached(makeAddress, items) && last == Code(TimedOut) && exists igd :: IsResult(items, igd))
      && (r.Ok? ==> forall igd :: igd in r.value <==> IsResult(items, igd))
  {
    ReachedExactly(makeAddress, items);
    if AllFetched(makeAddress, items) { SomeResult(makeAddress, items); }
  }

  /** And how it fails: with an I/O error if an answer cannot be reached, else with the exception of
      a bad access, else with the error code of the calls. */
  lemma FailureExactly<A>(makeAddress: string -> Option<A>, items: seq<Item>, last: Ending)
    requires AllLocated(items) && Discovered(makeAddress, items, last).Err?
    ensures Discovered(makeAddress, items, last).error ==
      if !AllReached(makeAddress, items) then IoError
      else match last case BadAccess(error) => Thrown(error) case Code(code) => Terminal(code)
  {
    ReachedExactly(makeAddress, items);
  }
}
