/** Device names in sysfs and the hub topology they spell: usbB is root hub B, B-p.q is port q of port p of bus B. */
module SysfsNames {
  import opened Core
  import opened Text

  /** A device's place: its bus and the ports on the way from the root hub. */
  datatype Place = Place(bus: nat, ports: seq<nat>)

  function PortsText(ports: seq<nat>): string
    requires ports != []
  {
    if |ports| == 1 then Decimal(ports[0])
    else PortsText(ports[..|ports| - 1]) + ['.'] + Decimal(ports[|ports| - 1])
  }

  /** The name the kernel gives to the device at a place. */
  function Name(p: Place): string {
    if p.ports == [] then "usb" + Decimal(p.bus) else Decimal(p.bus) + ['-'] + PortsText(p.ports)
  }

  function ParentName(name: string): string {
    if StartsWith(name, "usb") then ""
    else
      match IndexOf(name, '-')
      case None => ""
      case Some(dash) =>
        var rest := name[dash + 1..];
        match LastIndexOf(rest, '.')
        case None => "usb" + name[..dash]
        case Some(dot) => name[..dash] + ['-'] + rest[..dot]
  }

  function PortFromName(name: string): byte {
    if StartsWith(name, "usb") then 0
    else
      match IndexOf(name, '-')
      case None => 0
      case Some(dash) =>
        var rest := name[dash + 1..];
        match LastIndexOf(rest, '.')
        case None => ParseUint8(rest).value
        case Some(dot) => ParseUint8(rest[dot + 1..]).value
  }

  // ---------------------------------------------------------------- names and places

  lemma NameSplits(p: Place)
    requires p.ports != []
    ensures !StartsWith(Name(p), "usb") && IndexOf(Name(p), '-') == Some(|Decimal(p.bus)|)
    ensures Name(p)[..|Decimal(p.bus)|] == Decimal(p.bus)
    ensures Name(p)[|Decimal(p.bus)| + 1..] == PortsText(p.ports)
  {
    DecimalValue(p.bus);
    assert IsDigit(Name(p)[0]);
    DigitsFree(p.bus, '-');
    IndexUnique(Decimal(p.bus), '-', PortsText(p.ports));
  }

  lemma PortsSplit(ports: seq<nat>)
    requires ports != []
    ensures |ports| == 1 ==> LastIndexOf(PortsText(ports), '.') == None
    ensures |ports| > 1 ==>
      var front := PortsText(ports[..|ports| - 1]);
      && LastIndexOf(PortsText(ports), '.') == Some(|front|)
      && PortsText(ports)[..|front|] == front
      && PortsText(ports)[|front| + 1..] == Decimal(ports[|ports| - 1])
  {
    var last := ports[|ports| - 1];
    DigitsFree(last, '.');
    if |ports| > 1 {
      LastIndexUnique(PortsText(ports[..|ports| - 1]), '.', Decimal(last));
    }
  }

  function Last(ports: seq<nat>): nat
    requires ports != []
  {
    ports[|ports| - 1]
  }

  /** The hub a device is plugged into. */
  function Hub(p: Place): Place
    requires p.ports != []
  {
    p.(ports := p.ports[..|p.ports| - 1])
  }

  lemma ParentOfPort(p: Place)
    requires |p.ports| == 1
    ensures ParentName(Name(p)) == Name(Place(p.bus, []))
  {
    NameSplits(p);
    PortsSplit(p.ports);
  }

  lemma ParentOfDeeperPort(p: Place, front: seq<nat>)
    requires |p.ports| > 1 && front == p.ports[..|p.ports| - 1]
    ensures ParentName(Name(p)) == Name(Place(p.bus, front))
  {
    NameSplits(p);
    PortsSplit(p.ports);
  }

  /** The parent of a device's name is the name of its hub; a root hub has no parent. */
  lemma ParentIsHub(p: Place)
    ensures ParentName(Name(p)) == if p.ports == [] then "" else Name(Hub(p))
  {
    if |p.ports| == 1 {
      ParentOfPort(p);
      assert Hub(p) == Place(p.bus, []);
    } else if |p.ports| > 1 {
      ParentOfDeeperPort(p, p.ports[..|p.ports| - 1]);
    }
  }

  /** The port in a device's name is its port on that hub, or 255 when it does not fit in a byte. */
  lemma PortIsLast(p: Place)
    ensures PortFromName(Name(p)) ==
            if p.ports == [] then 0 else if Last(p.ports) < BYTE_LIMIT then Last(p.ports) else 255
  {
    if p.ports != [] {
      NameSplits(p);
      PortsSplit(p.ports);
      ParseDecimal(Last(p.ports));
      assert |p.ports| == 1 ==> PortsText(p.ports) == Decimal(Last(p.ports));
    }
  }

  /** A name without a dash spells no hub and no port. */
  lemma NoDash(name: string)
    requires Free(name, '-')
    ensures ParentName(name) == "" && PortFromName(name) == 0
  {
    var dash := IndexOf(name, '-');
    assert dash.None?;
  }

  /**
   Of any name with a dash, kernel-made or not, the port is the number that the text behind the last dot
   spells, or 255 if it is too large; an empty text is port 0.
   */
  lemma {:induction false} PortOfAnyName(bus: string, hubs: Option<string>, port: string)
    requires Free(bus, '-') && Free(port, '.') && AllDigits(port)
    ensures var name := bus + ['-'] + (if hubs.Some? then hubs.value + ['.'] + port else port);
      !StartsWith(name, "usb") ==>
        PortFromName(name) == if port == "" then 0 else if Value(port, 0) < 256 then Value(port, 0) else 255
  {
    var rest := if hubs.Some? then hubs.value + ['.'] + port else port;
    var name := bus + ['-'] + rest;
    IndexUnique(bus, '-', rest);
    assert name[|bus| + 1..] == rest;
    if hubs.Some? {
      LastIndexUnique(hubs.value, '.', port);
      assert rest[|hubs.value| + 1..] == port;
    }
    ParseDigits(port, 0);
  }

  /** Each name is followed by its parent's. */
  ghost predicate Climbs(names: seq<string>) {
    forall i, j :: 0 <= i && j == i + 1 < |names| ==> names[j] == ParentName(names[i])
  }

  /** n steps up from p is the place with the first ports of p, n fewer. */
  function Up(p: Place, n: nat): Place
    requires n <= |p.ports|
  {
    p.(ports := p.ports[..|p.ports| - n])
  }

  lemma {:induction false} ClimbsUp(p: Place, names: seq<string>, n: nat)
    requires Climbs(names) && n < |names| && n <= |p.ports| && names[0] == Name(p)
    ensures names[n] == Name(Up(p, n))
    decreases n
  {
    if n == 0 {
      assert Up(p, 0) == p;
    } else {
      ClimbsUp(p, names, n - 1);
      ParentIsHub(Up(p, n - 1));
      assert Hub(Up(p, n - 1)) == Up(p, n);
    }
  }

  lemma RootName(p: Place)
    ensures StartsWith(Name(p), "usb") <==> p.ports == []
  {
    if p.ports != [] { NameSplits(p); }
  }

  /** Going from parent to parent takes exactly as many steps to the root hub as there are ports. */
  lemma RootIsReached(p: Place, names: seq<string>, n: nat)
    requires Climbs(names) && n < |names| && n <= |p.ports| && names[0] == Name(p)
    ensures StartsWith(names[n], "usb") <==> n == |p.ports|
    ensures n == |p.ports| ==> names[n] == Name(Place(p.bus, []))
  {
    ClimbsUp(p, names, n);
    RootName(Up(p, n));
  }

  lemma {:induction false} PortsTextsAgree(a: seq<nat>, b: seq<nat>)
    requires a != [] && b != [] && PortsText(a) == PortsText(b)
    ensures |a| == 1 <==> |b| == 1
    ensures |a| == 1 ==> Decimal(a[0]) == Decimal(b[0])
    ensures |a| > 1 ==> PortsText(a[..|a| - 1]) == PortsText(b[..|b| - 1]) && Decimal(Last(a)) == Decimal(Last(b))
  {
    PortsSplit(a);
    PortsSplit(b);
  }

  lemma {:induction false} PortsInjective(a: seq<nat>, b: seq<nat>)
    requires a != [] && b != [] && PortsText(a) == PortsText(b)
    ensures a == b
    decreases |a|
  {
    PortsTextsAgree(a, b);
    if |a| == 1 {
      DecimalInjective(a[0], b[0]);
    } else {
      DecimalInjective(Last(a), Last(b));
      PortsInjective(a[..|a| - 1], b[..|b| - 1]);
      assert a == a[..|a| - 1] + [Last(a)] && b == b[..|b| - 1] + [Last(b)];
    }
  }

  /** No two places have the same name. */
  lemma NameInjective(p: Place, q: Place)
    requires Name(p) == Name(q)
    ensures p == q
  {
    if p.ports != [] { NameSplits(p); }
    if q.ports != [] { NameSplits(q); }
    if p.ports == [] {
      assert Name(p)[3..] == Decimal(p.bus) && Name(q)[3..] == Decimal(q.bus);
      DecimalInjective(p.bus, q.bus);
    } else {
      DecimalInjective(p.bus, q.bus);
      PortsInjective(p.ports, q.ports);
    }
  }

  // ---------------------------------------------------------------- the device list

  datatype SysfsDevice = SysfsDevice(name: string, bus: byte, address: byte)

  class Device {
    const bus: byte
    const address: byte
    const port: byte
    var parentHubAddr: byte

    constructor (s: SysfsDevice)
      ensures bus == s.bus && address == s.address && port == PortFromName(s.name) && parentHubAddr == 0
    {
      bus, address, port, parentHubAddr := s.bus, s.address, PortFromName(s.name), 0;
    }
  }

  /** The last device with the name. */
  function Find(sds: seq<SysfsDevice>, name: string): (r: Option<nat>)
    ensures r.Some? ==> r.value < |sds| && sds[r.value].name == name
    ensures r.None? ==> forall i :: 0 <= i < |sds| ==> sds[i].name != name
  {
    if sds == [] then None
    else if sds[|sds| - 1].name == name then Some(|sds| - 1)
    else Find(sds[..|sds| - 1], name)
  }

  /** The address of the device with the name of a parent, or 0 if there is none. */
  function HubAddress(sds: seq<SysfsDevice>, parentName: string): byte {
    var hub := Find(sds, parentName);
    if parentName == "" || hub.None? then 0 else sds[hub.value].address
  }

  /** d was made from s. */
  ghost predicate MadeFrom(d: Device, s: SysfsDevice) {
    d.bus == s.bus && d.address == s.address && d.port == PortFromName(s.name)
  }

  /** The address that each device in the list is to get. */
  ghost function HubAddresses(sds: seq<SysfsDevice>): (r: seq<byte>)
    ensures |r| == |sds| && forall i :: 0 <= i < |r| ==> r[i] == HubAddress(sds, ParentName(sds[i].name))
  {
    seq(|sds|, i requires 0 <= i < |sds| => HubAddress(sds, ParentName(sds[i].name)))
  }

  /** The devices are made from the list. */
  ghost predicate Made(sds: seq<SysfsDevice>, devices: seq<Device>) {
    |devices| == |sds| && forall i :: 0 <= i < |sds| ==> MadeFrom(devices[i], sds[i])
  }

  /** The first n devices have the address of their hub, the others none. */
  ghost predicate Wired(hubs: seq<byte>, devices: seq<Device>, n: nat)
    reads devices
  {
    |devices| == |hubs| && forall i :: 0 <= i < |hubs| ==> devices[i].parentHubAddr == if i < n then hubs[i] else 0
  }

  /** Names lead to the last device that has them. */
  ghost predicate Indexed(sds: seq<SysfsDevice>, devices: seq<Device>, byName: map<string, Device>)
    requires |sds| == |devices|
  {
    forall name :: (name in byName <==> Find(sds, name).Some?)
      && (name in byName ==> byName[name] == devices[Find(sds, name).value])
  }

  lemma IndexedSnoc(sds: seq<SysfsDevice>, devices: seq<Device>, byName: map<string, Device>, s: SysfsDevice, d: Device)
    requires |sds| == |devices| && Indexed(sds, devices, byName)
    ensures Indexed(sds + [s], devices + [d], byName[s.name := d])
  {
    assert (sds + [s])[..|sds|] == sds;
  }

  ghost predicate Distinct(devices: seq<Device>) {
    forall i, j :: 0 <= i < j < |devices| ==> devices[i] != devices[j]
  }

  method CreateDevices(sds: seq<SysfsDevice>) returns (devices: seq<Device>, byName: map<string, Device>)
    ensures fresh(devices) && Distinct(devices)
    ensures Made(sds, devices)
    ensures forall i :: 0 <= i < |sds| ==> devices[i].parentHubAddr == 0
    ensures Indexed(sds, devices, byName)
  {
    devices, byName := [], map[];
    for i := 0 to |sds|
      invariant fresh(devices) && Distinct(devices)
      invariant Made(sds[..i], devices)
      invariant forall j :: 0 <= j < i ==> devices[j].parentHubAddr == 0
      invariant Indexed(sds[..i], devices, byName)
    {
      var d := new Device(sds[i]);
      IndexedSnoc(sds[..i], devices, byName, sds[i], d);
      assert sds[..i + 1] == sds[..i] + [sds[i]];
      devices := devices + [d];
      byName := byName[sds[i].name := d];
    }
    assert sds[..|sds|] == sds;
  }

  lemma IndexedAddress(sds: seq<SysfsDevice>, devices: seq<Device>, byName: map<string, Device>, name: string)
    requires Made(sds, devices) && Indexed(sds, devices, byName)
    ensures HubAddress(sds, name) == if name != "" && name in byName then byName[name].address else 0
  {
  }

  /** One round of the second pass. */
  method WireOne(devices: seq<Device>, byName: map<string, Device>, parentName: string, i: nat, ghost hubs: seq<byte>)
    requires i < |hubs| && Wired(hubs, devices, i) && Distinct(devices)
    requires hubs[i] == if parentName != "" && parentName in byName then byName[parentName].address else 0
    modifies {devices[i]}
    ensures Wired(hubs, devices, i + 1)
  {
    if parentName == "" {
      return;
    }
    if parentName in byName {
      devices[i].parentHubAddr := byName[parentName].address;
    }
  }

  /** Lists the devices and, in a second pass, gives each the address of its hub. */
  method DeviceList(sds: seq<SysfsDevice>) returns (devices: seq<Device>)
    ensures fresh(devices) && Made(sds, devices) && Wired(HubAddresses(sds), devices, |sds|)
  {
    var byName;
    devices, byName := CreateDevices(sds);
    ghost var hubs := HubAddresses(sds);
    for i := 0 to |sds|
      invariant fresh(devices) && Wired(hubs, devices, i)
    {
      var parentName := ParentName(sds[i].name);
      IndexedAddress(sds, devices, byName, parentName);
      WireOne(devices, byName, parentName, i, hubs);
    }
  }

  /** The devices listed stand at these places. */
  ghost predicate Named(sds: seq<SysfsDevice>, places: seq<Place>) {
    |places| == |sds| && forall i :: 0 <= i < |sds| ==> sds[i].name == Name(places[i])
  }

  lemma NameNotEmpty(p: Place)
    ensures Name(p) != ""
  {
  }

  lemma {:induction false} FoundByPlace(sds: seq<SysfsDevice>, places: seq<Place>, p: Place)
    requires Named(sds, places)
    ensures match Find(sds, Name(p)) case None => p !in places case Some(j) => j < |places| && places[j] == p
  {
    var found := Find(sds, Name(p));
    if found.Some? { NameInjective(places[found.value], p); }
  }

  ghost predicate DistinctPlaces(places: seq<Place>) {
    forall j, k :: 0 <= j < k < |places| ==> places[j] != places[k]
  }

  lemma AddressAtPlace(sds: seq<SysfsDevice>, places: seq<Place>, hub: Place)
    requires Named(sds, places) && DistinctPlaces(places)
    ensures forall j :: 0 <= j < |sds| && places[j] == hub ==> HubAddress(sds, Name(hub)) == sds[j].address
    ensures hub !in places ==> HubAddress(sds, Name(hub)) == 0
  {
    NameNotEmpty(hub);
    FoundByPlace(sds, places, hub);
  }

  /** For devices at distinct places, the address given is that of the device at the hub's place, if listed. */
  lemma HubAddressIsHub(sds: seq<SysfsDevice>, places: seq<Place>, i: nat)
    requires Named(sds, places) && DistinctPlaces(places) && i < |sds|
    ensures places[i].ports == [] ==> HubAddress(sds, ParentName(sds[i].name)) == 0
    ensures places[i].ports != [] && Hub(places[i]) !in places ==> HubAddress(sds, ParentName(sds[i].name)) == 0
    ensures forall j :: 0 <= j < |sds| && places[i].ports != [] && places[j] == Hub(places[i]) ==>
      HubAddress(sds, ParentName(sds[i].name)) == sds[j].address
  {
    ParentIsHub(places[i]);
    if places[i].ports != [] { AddressAtPlace(sds, places, Hub(places[i])); }
  }
}
