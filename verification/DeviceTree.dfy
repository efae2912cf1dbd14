/** `device_parse` and `service_parse`: device descriptions read from a property tree. */
module DeviceTree {
  import opened Options
  import opened Scan
  import opened Urls
  import opened XmlTree

  datatype Service = Service(id: string, serviceType: string, controlUrl: Rep)

  datatype Device = Device(deviceType: string, udn: string, friendlyName: string,
                           devices: seq<Device>, services: seq<Service>)

  // ----- The parser, as functions -----

  /** The first child with this very name. */
  function Child(t: Tree, name: string): (r: Option<nat>)
    ensures r.Some? ==> r.value < |t.children| && t.children[r.value].0 == name
  {
    IndexOf(t.children, name)
  }

  function TextOf(t: Tree, name: string): Option<string> {
    match Child(t, name) case None => None case Some(i) => Some(t.children[i].1.data)
  }

  function ServiceParse(t: Tree): Option<Service> {
    var id, serviceType, url := TextOf(t, "serviceId"), TextOf(t, "serviceType"), TextOf(t, "controlURL");
    if id.None? || serviceType.None? || url.None? then None
    else Some(Service(id.value, serviceType.value, Parse(url.value)))
  }

  /** The services of a list, without the entries that are none. */
  function Services(children: seq<(string, Tree)>): seq<Service> {
    if children == [] then []
    else (match ServiceParse(children[0].1) case None => [] case Some(s) => [s]) + Services(children[1..])
  }

  function DeviceParse(t: Tree): Option<Device>
    decreases t, 1
  {
    var deviceType, udn, name := TextOf(t, "deviceType"), TextOf(t, "UDN"), TextOf(t, "friendlyName");
    if deviceType.None? || udn.None? || name.None? then None
    else
      var services := match Child(t, "serviceList") case None => [] case Some(i) => Services(t.children[i].1.children);
      var devices := match Child(t, "deviceList") case None => [] case Some(i) => Devices(t.children[i].1.children);
      Some(Device(deviceType.value, udn.value, name.value, devices, services))
  }

  /** The device of a list entry; its name is not looked at. */
  function EntryParse(entry: (string, Tree)): Option<Device>
    decreases entry, 2
  {
    DeviceParse(entry.1)
  }

  /** The devices of a list, without the entries that are none. */
  function Devices(children: seq<(string, Tree)>): seq<Device>
    decreases children, 0
  {
    if children == [] then []
    else (match EntryParse(children[0]) case None => [] case Some(d) => [d]) + Devices(children[1..])
  }

  function DeviceParseRoot(t: Tree): Option<Device> {
    match GetExact(t, "root.device") case None => None case Some(d) => DeviceParse(d)
  }

  // ----- The parser, as the loops it is -----

  method ReadService(t: Tree) returns (r: Option<Service>)
    ensures r == ServiceParse(t)
  {
    var id := TextOf(t, "serviceId");
    if id.None? { return None; }
    var serviceType := TextOf(t, "serviceType");
    if serviceType.None? { return None; }
    var url := TextOf(t, "controlURL");
    if url.None? { return None; }
    var controlUrl := new Url.Parse(url.value, 0);
    return Some(Service(id.value, serviceType.value, controlUrl.Value()));
  }

  method ReadDevice(t: Tree) returns (r: Option<Device>)
    ensures r == DeviceParse(t)
    decreases t, 1
  {
    var deviceType := TextOf(t, "deviceType");
    if deviceType.None? { return None; }
    var udn := TextOf(t, "UDN");
    if udn.None? { return None; }
    var name := TextOf(t, "friendlyName");
    if name.None? { return None; }

    var services: seq<Service> := [];
    var at := Child(t, "serviceList");
    if at.Some? {
      services := ReadServices(t.children[at.value].1.children);
    }
    var devices: seq<Device> := [];
    at := Child(t, "deviceList");
    if at.Some? {
      devices := ReadDevices(t.children[at.value].1.children);
    }
    return Some(Device(deviceType.value, udn.value, name.value, devices, services));
  }

  lemma PushBack<T>(done: seq<T>, x: T, rest: seq<T>)
    ensures done + ([x] + rest) == (done + [x]) + rest
    ensures done + ([] + rest) == done + rest
  {
  }

  lemma NextService(done: seq<Service>, list: seq<(string, Tree)>, i: nat, opt: Option<Service>)
    requires i < |list| && opt == ServiceParse(list[i].1)
    ensures done + Services(list[i..]) == (if opt.Some? then done + [opt.value] else done) + Services(list[i + 1..])
  {
    assert list[i..][1..] == list[i + 1..];
    if opt.Some? {
      PushBack(done, opt.value, Services(list[i + 1..]));
    } else {
      assert [] + Services(list[i + 1..]) == Services(list[i + 1..]);
    }
  }

  method ReadServices(list: seq<(string, Tree)>) returns (services: seq<Service>)
    ensures services == Services(list)
  {
    services := [];
    var i := 0;
    assert list[0..] == list;
    while i < |list|
      invariant i <= |list| && services + Services(list[i..]) == Services(list)
    {
      var opt := ReadService(list[i].1);
      NextService(services, list, i, opt);
      if opt.Some? {
        services := services + [opt.value];
      }
      i := i + 1;
    }
  }

  method ReadDevices(list: seq<(string, Tree)>) returns (devices: seq<Device>)
    ensures devices == Devices(list)
    decreases list, 0
  {
    devices := [];
    var i := 0;
    assert list[0..] == list;
    while i < |list|
      invariant i <= |list| && devices + Devices(list[i..]) == Devices(list)
    {
      assert list[i..][1..] == list[i + 1..];
      var opt := ReadEntry(list[i]);
      if opt.Some? {
        PushBack(devices, opt.value, Devices(list[i + 1..]));
        devices := devices + [opt.value];
      }
      i := i + 1;
    }
  }

  method ReadEntry(entry: (string, Tree)) returns (r: Option<Device>)
    ensures r == EntryParse(entry)
    decreases entry, 2
  {
    r := ReadDevice(entry.1);
  }

  // ----- Which trees are devices -----

  /** The first child of this name. */
  ghost predicate FirstAt(t: Tree, name: string, i: int) {
    0 <= i < |t.children| && t.children[i].0 == name && forall j :: 0 <= j < i ==> t.children[j].0 != name
  }

  ghost predicate FirstText(t: Tree, name: string, x: string) {
    exists i :: FirstAt(t, name, i) && t.children[i].1.data == x
  }

  predicate Named(t: Tree, name: string) {
    exists i :: 0 <= i < |t.children| && t.children[i].0 == name
  }

  lemma ChildExact(t: Tree, name: string, i: int)
    ensures Child(t, name).Some? && Child(t, name).value == i <==> FirstAt(t, name, i)
    ensures Child(t, name).Some? <==> Named(t, name)
  {
  }

  lemma TextExact(t: Tree, name: string, x: string)
    ensures TextOf(t, name) == Some(x) <==> FirstText(t, name, x)
    ensures TextOf(t, name).Some? <==> Named(t, name)
  {
    if Child(t, name).Some? {
      ChildExact(t, name, Child(t, name).value);
    }
    forall i | FirstAt(t, name, i) ensures Child(t, name).Some? && Child(t, name).value == i {
      ChildExact(t, name, i);
    }
  }

  /** A tree is a service if and only if it has the three children; its texts are those of the
      first such children. */
  lemma ServiceExact(t: Tree, s: Service)
    ensures ServiceParse(t).Some? <==> Named(t, "serviceId") && Named(t, "serviceType") && Named(t, "controlURL")
    ensures ServiceParse(t) == Some(s) <==>
      && FirstText(t, "serviceId", s.id) && FirstText(t, "serviceType", s.serviceType)
      && exists url :: FirstText(t, "controlURL", url) && s.controlUrl == Parse(url)
  {
    TextExact(t, "serviceId", s.id);
    TextExact(t, "serviceType", s.serviceType);
    forall url: string ensures TextOf(t, "controlURL") == Some(url) <==> FirstText(t, "controlURL", url) {
      TextExact(t, "controlURL", url);
    }
    TextExact(t, "controlURL", "");
  }

  /** The services are those of the first list, and none without a list. */
  ghost predicate ServicesOf(t: Tree, services: seq<Service>) {
    if !Named(t, "serviceList") then services == []
    else exists i :: FirstAt(t, "serviceList", i) && services == Services(t.children[i].1.children)
  }

  ghost predicate DevicesOf(t: Tree, devices: seq<Device>) {
    if !Named(t, "deviceList") then devices == []
    else exists i :: FirstAt(t, "deviceList", i) && devices == Devices(t.children[i].1.children)
  }

  function ServiceListOf(t: Tree): seq<Service> {
    match Child(t, "serviceList") case None => [] case Some(i) => Services(t.children[i].1.children)
  }

  function DeviceListOf(t: Tree): seq<Device> {
    match Child(t, "deviceList") case None => [] case Some(i) => Devices(t.children[i].1.children)
  }

  lemma ServiceListExact(t: Tree, services: seq<Service>)
    ensures ServicesOf(t, services) <==> services == ServiceListOf(t)
  {
    var name := "serviceList";
    ChildExact(t, name, if Child(t, name).Some? then Child(t, name).value else 0);
    forall i | FirstAt(t, name, i) ensures Child(t, name).Some? && Child(t, name).value == i {
      ChildExact(t, name, i);
    }
  }

  lemma DeviceListExact(t: Tree, devices: seq<Device>)
    ensures DevicesOf(t, devices) <==> devices == DeviceListOf(t)
  {
    var name := "deviceList";
    ChildExact(t, name, if Child(t, name).Some? then Child(t, name).value else 0);
    forall i | FirstAt(t, name, i) ensures Child(t, name).Some? && Child(t, name).value == i {
      ChildExact(t, name, i);
    }
  }

  lemma DeviceOfLists(t: Tree)
    ensures DeviceParse(t) ==
      if TextOf(t, "deviceType").None? || TextOf(t, "UDN").None? || TextOf(t, "friendlyName").None? then None
      else Some(Device(TextOf(t, "deviceType").value, TextOf(t, "UDN").value, TextOf(t, "friendlyName").value,
                       DeviceListOf(t), ServiceListOf(t)))
  {
  }

  /** A tree is a device if and only if it has the three children, whether it has lists or not; its
      texts are those of the first such children. */
  lemma DeviceExact(t: Tree, d: Device)
    ensures DeviceParse(t).Some? <==> Named(t, "deviceType") && Named(t, "UDN") && Named(t, "friendlyName")
    ensures DeviceParse(t) == Some(d) <==>
      && FirstText(t, "deviceType", d.deviceType) && FirstText(t, "UDN", d.udn)
      && FirstText(t, "friendlyName", d.friendlyName)
      && ServicesOf(t, d.services) && DevicesOf(t, d.devices)
  {
    DeviceOfLists(t);
    TextExact(t, "deviceType", d.deviceType);
    TextExact(t, "UDN", d.udn);
    TextExact(t, "friendlyName", d.friendlyName);
    ServiceListExact(t, d.services);
    DeviceListExact(t, d.devices);
  }

  lemma Associate<T>(a: seq<T>, b: seq<T>, c: seq<T>)
    ensures a + (b + c) == a + b + c
  {
  }

  /** A list keeps, in order, exactly the entries that are services. */
  lemma {:induction false} ServicesConcatenate(a: seq<(string, Tree)>, b: seq<(string, Tree)>)
    ensures Services(a + b) == Services(a) + Services(b)
  {
    if a == [] {
      assert a + b == b;
    } else {
      assert (a + b)[1..] == a[1..] + b;
      ServicesConcatenate(a[1..], b);
      var first := match ServiceParse(a[0].1) case None => [] case Some(s) => [s];
      Associate(first, Services(a[1..]), Services(b));
    }
  }

  /** Or devices. */
  lemma {:induction false} DevicesConcatenate(a: seq<(string, Tree)>, b: seq<(string, Tree)>)
    ensures Devices(a + b) == Devices(a) + Devices(b)
    decreases |a|
  {
    if a == [] {
      assert a + b == b;
    } else {
      assert (a + b)[1..] == a[1..] + b;
      DevicesConcatenate(a[1..], b);
      var first := match EntryParse(a[0]) case None => [] case Some(d) => [d];
      Associate(first, Devices(a[1..]), Devices(b));
    }
  }

  lemma SingleEntry(entry: (string, Tree))
    ensures Services([entry]) == match ServiceParse(entry.1) case None => [] case Some(s) => [s]
    ensures Devices([entry]) == match DeviceParse(entry.1) case None => [] case Some(d) => [d]
  {
    assert [entry][1..] == [];
  }

  // ----- Rendering and reading back -----

  function Leaf(text: string): Tree { Tree(text, []) }

  function RenderService(s: Service): Tree {
    Tree("", [("serviceType", Leaf(s.serviceType)), ("serviceId", Leaf(s.id)), ("controlURL", Leaf(s.controlUrl.buf))])
  }

  function RenderServices(services: seq<Service>): seq<(string, Tree)> {
    if services == [] then [] else [("service", RenderService(services[0]))] + RenderServices(services[1..])
  }

  function RenderDevice(d: Device): Tree
    decreases d, 1
  {
    Tree("", [("deviceType", Leaf(d.deviceType)), ("friendlyName", Leaf(d.friendlyName)), ("UDN", Leaf(d.udn)),
              ("serviceList", Tree("", RenderServices(d.services))),
              ("deviceList", Tree("", RenderDevices(d.devices)))])
  }

  function RenderDevices(devices: seq<Device>): seq<(string, Tree)>
    decreases devices, 0
  {
    if devices == [] then [] else [("device", RenderDevice(devices[0]))] + RenderDevices(devices[1..])
  }

  /** The control URL is what parsing makes of its text. */
  predicate UrlParsed(s: Service) {
    s.controlUrl == Parse(s.controlUrl.buf)
  }

  predicate UrlsParsed(d: Device)
    decreases d
  {
    (forall s :: s in d.services ==> UrlParsed(s)) && (forall e :: e in d.devices ==> UrlsParsed(e))
  }

  lemma ServiceRoundTrip(s: Service)
    requires UrlParsed(s)
    ensures ServiceParse(RenderService(s)) == Some(s)
  {
    var t := RenderService(s);
    FirstNamed(t.children, 0);
    FirstNamed(t.children, 1);
    FirstNamed(t.children, 2);
  }

  /** A child whose name no earlier child has is the one found. */
  lemma FirstNamed(children: seq<(string, Tree)>, i: nat)
    requires i < |children| && forall j :: 0 <= j < i ==> children[j].0 != children[i].0
    ensures IndexOf(children, children[i].0) == Some(i)
  {
  }

  lemma {:induction false} ServicesRoundTrip(services: seq<Service>)
    requires forall s :: s in services ==> UrlParsed(s)
    ensures Services(RenderServices(services)) == services
  {
    if services == [] {
    } else {
      ServiceRoundTrip(services[0]);
      ServicesRoundTrip(services[1..]);
      FirstService(services);
    }
  }

  lemma FirstService(services: seq<Service>)
    requires services != []
    ensures var list := RenderServices(services);
      list[0] == ("service", RenderService(services[0])) && list[1..] == RenderServices(services[1..])
    ensures [services[0]] + services[1..] == services
  {
  }

  /** Reading the rendering of a device gives the device, at every depth. */
  lemma {:induction false} DeviceRoundTrip(d: Device)
    requires UrlsParsed(d)
    ensures DeviceParse(RenderDevice(d)) == Some(d)
    decreases d, 1
  {
    var t := RenderDevice(d);
    FirstNamed(t.children, 0);
    FirstNamed(t.children, 1);
    FirstNamed(t.children, 2);
    FirstNamed(t.children, 3);
    FirstNamed(t.children, 4);
    ServicesRoundTrip(d.services);
    DevicesRoundTrip(d.devices);
  }

  lemma {:induction false} DevicesRoundTrip(devices: seq<Device>)
    requires forall d :: d in devices ==> UrlsParsed(d)
    ensures Devices(RenderDevices(devices)) == devices
    decreases devices, 0
  {
    if devices == [] {
    } else {
      DeviceRoundTrip(devices[0]);
      DevicesRoundTrip(devices[1..]);
      assert RenderDevices(devices)[1..] == RenderDevices(devices[1..]);
    }
  }

  /** The same rendering without the lists that would be empty. */
  function RenderCompact(d: Device): Tree
    decreases d, 1
  {
    Tree("", [("deviceType", Leaf(d.deviceType)), ("friendlyName", Leaf(d.friendlyName)), ("UDN", Leaf(d.udn))] +
             (if d.services == [] then [] else [("serviceList", Tree("", RenderServices(d.services)))]) +
             (if d.devices == [] then [] else [("deviceList", Tree("", RenderCompacts(d.devices)))]))
  }

  function RenderCompacts(devices: seq<Device>): seq<(string, Tree)>
    decreases devices, 0
  {
    if devices == [] then [] else [("device", RenderCompact(devices[0]))] + RenderCompacts(devices[1..])
  }

  lemma CompactTexts(d: Device)
    ensures var t := RenderCompact(d);
      TextOf(t, "deviceType") == Some(d.deviceType) && TextOf(t, "UDN") == Some(d.udn) &&
      TextOf(t, "friendlyName") == Some(d.friendlyName)
  {
    var t := RenderCompact(d);
    FirstNamed(t.children, 0);
    FirstNamed(t.children, 1);
    FirstNamed(t.children, 2);
  }

  function CompactChildren(d: Device): seq<(string, Tree)> { RenderCompact(d).children }

  lemma CompactNames(d: Device)
    ensures var c := CompactChildren(d);
      && |c| == 3 + (if d.services == [] then 0 else 1) + (if d.devices == [] then 0 else 1)
      && (forall j :: 0 <= j < 3 ==> c[j].0 != "serviceList" && c[j].0 != "deviceList")
      && (d.services != [] ==> c[3] == ("serviceList", Tree("", RenderServices(d.services))))
      && (d.devices != [] ==> c[|c| - 1] == ("deviceList", Tree("", RenderCompacts(d.devices))))
  {
  }

  lemma CompactServices(d: Device)
    requires Services(RenderServices(d.services)) == d.services
    ensures ServiceListOf(RenderCompact(d)) == d.services
  {
    CompactNames(d);
    if d.services != [] { FirstNamed(CompactChildren(d), 3); }
  }

  lemma CompactDevices(d: Device)
    requires Devices(RenderCompacts(d.devices)) == d.devices
    ensures DeviceListOf(RenderCompact(d)) == d.devices
  {
    CompactNames(d);
    if d.devices != [] { FirstNamed(CompactChildren(d), |CompactChildren(d)| - 1); }
  }

  /** Reading it gives the device as well, at every depth. */
  lemma {:induction false} CompactRoundTrip(d: Device)
    requires UrlsParsed(d)
    ensures DeviceParse(RenderCompact(d)) == Some(d)
    decreases d, 1
  {
    CompactTexts(d);
    ServicesRoundTrip(d.services);
    CompactServices(d);
    CompactsRoundTrip(d.devices);
    CompactDevices(d);
    DeviceOfLists(RenderCompact(d));
  }

  lemma {:induction false} CompactsRoundTrip(devices: seq<Device>)
    requires forall d :: d in devices ==> UrlsParsed(d)
    ensures Devices(RenderCompacts(devices)) == devices
    decreases devices, 0
  {
    if devices == [] {
    } else {
      CompactRoundTrip(devices[0]);
      CompactsRoundTrip(devices[1..]);
      FirstCompact(devices);
    }
  }

  lemma FirstCompact(devices: seq<Device>)
    requires devices != []
    ensures var list := RenderCompacts(devices);
      list[0] == ("device", RenderCompact(devices[0])) && list[1..] == RenderCompacts(devices[1..])
    ensures [devices[0]] + devices[1..] == devices
  {
  }

  // ----- What the parser does not look at -----

  const KEYS: set<string> := {"deviceType", "UDN", "friendlyName", "serviceList", "deviceList"}

  function Insert(t: Tree, i: nat, c: (string, Tree)): Tree
    requires i <= |t.children|
  {
    Tree(t.data, t.children[..i] + [c] + t.children[i..])
  }

  /** Where the children stand after an insertion. */
  function Moved(i: nat, k: nat): nat { if k < i then k else k + 1 }

  lemma InsertMoves(t: Tree, i: nat, c: (string, Tree), k: nat)
    requires i <= |t.children| && k < |t.children|
    ensures Insert(t, i, c).children[Moved(i, k)] == t.children[k]
  {
  }

  lemma InsertKeepsChild(t: Tree, i: nat, c: (string, Tree), name: string)
    requires i <= |t.children| && c.0 != name
    ensures var t' := Insert(t, i, c);
      match Child(t, name)
      case None => Child(t', name).None?
      case Some(k) => Child(t', name).Some? && t'.children[Child(t', name).value] == t.children[k]
  {
    var a, b := t.children, Insert(t, i, c).children;
    forall j | 0 <= j < |b| && j != i ensures b[j] == a[if j < i then j else j - 1] {
      InsertMoves(t, i, c, if j < i then j else j - 1);
    }
    match Child(t, name)
    case None =>
      forall j | 0 <= j < |b| ensures b[j].0 != name {
        if j != i { assert b[j] == a[if j < i then j else j - 1]; }
      }
    case Some(k) =>
      InsertMoves(t, i, c, k);
      forall j | 0 <= j < Moved(i, k) ensures b[j].0 != name {
        if j != i { assert b[j] == a[if j < i then j else j - 1]; }
      }
      FirstNamed(b, Moved(i, k));
  }

  /** Children of other names, such as attributes and comments, make no difference wherever they stand. */
  lemma OtherChildrenAreIgnored(t: Tree, i: nat, c: (string, Tree))
    requires i <= |t.children| && c.0 !in KEYS
    ensures DeviceParse(Insert(t, i, c)) == DeviceParse(t)
  {
    InsertKeepsChild(t, i, c, "deviceType");
    InsertKeepsChild(t, i, c, "UDN");
    InsertKeepsChild(t, i, c, "friendlyName");
    InsertKeepsChild(t, i, c, "serviceList");
    InsertKeepsChild(t, i, c, "deviceList");
  }

  /** A list entry that is no device is skipped and the others keep their order. */
  lemma {:induction false} BadEntriesAreSkipped(a: seq<(string, Tree)>, bad: (string, Tree), b: seq<(string, Tree)>)
    requires EntryParse(bad).None?
    ensures Devices(a + [bad] + b) == Devices(a) + Devices(b)
    decreases |a|
  {
    var all := a + [bad] + b;
    if a == [] {
      assert all == [bad] + b;
      assert all[1..] == b;
    } else {
      assert all[1..] == a[1..] + [bad] + b;
      BadEntriesAreSkipped(a[1..], bad, b);
      var first := match EntryParse(a[0]) case None => [] case Some(d) => [d];
      assert first + (Devices(a[1..]) + Devices(b)) == first + Devices(a[1..]) + Devices(b);
    }
  }

  /** For names without dots the lookup of a text is the library's path lookup. */
  lemma TextOfIsExactLookup(t: Tree, name: string)
    requires name != "" && '.' !in name
    ensures GetExact(t, name) == match Child(t, name) case None => None case Some(i) => Some(t.children[i].1)
  {
    CutChar(name, '.', true);
    assert Segment(name) == (name, "");
  }

  lemma RootSegments()
    ensures Segment("root.device") == ("root", "device") && Segment("device") == ("device", "")
  {
    CutCharAt("root", '.', "device", true);
    assert "root" + ['.'] + "device" == "root.device";
    CutChar("device", '.', true);
  }

  lemma OnlyChild(name: string, t: Tree)
    ensures FindExact([(name, t)], name) == Some(t)
  {
  }

  lemma RootLookup(d: Tree)
    ensures GetExact(Tree("", [("root", Tree("", [("device", d)]))]), "root.device") == Some(d)
  {
    RootSegments();
    OnlyChild("root", Tree("", [("device", d)]));
    OnlyChild("device", d);
    assert GetExact(Tree("", [("device", d)]), "device") == Some(d);
  }

  /** The whole document. */
  lemma {:induction false} RootRoundTrip(d: Device)
    requires UrlsParsed(d)
    ensures DeviceParseRoot(Tree("", [("root", Tree("", [("device", RenderDevice(d))]))])) == Some(d)
  {
    RootLookup(RenderDevice(d));
    DeviceRoundTrip(d);
  }
}
