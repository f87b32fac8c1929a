/** The Linux watcher: kernel uevents by bus and address, adds not checked for duplicates. */
module HotplugLinux {
  import opened Core
  import opened Text
  import opened Hotplug
  import opened Uevent

  function Key(bus: byte, address: byte): string {
    Decimal(bus) + [':'] + Decimal(address)
  }

  /** Different devices in place have different keys. */
  lemma KeyInjective(b1: byte, a1: byte, b2: byte, a2: byte)
    requires Key(b1, a1) == Key(b2, a2)
    ensures b1 == b2 && a1 == a2
  {
    DigitsFree(b1, ':');
    DigitsFree(b2, ':');
    JoinInjective(Decimal(b1), Decimal(a1), Decimal(b2), Decimal(a2), ':');
    DecimalInjective(b1, b2);
    DecimalInjective(a1, a2);
  }

  /** A whole-device event; found is the device that the enumeration showed at that place. */
  datatype Signal =
    | Add(bus: byte, address: byte, found: Option<Device>)
    | Remove(bus: byte, address: byte)
    | Ignored

  /** What one attempt to enumerate devices gave, or nothing if it failed. */
  type Listing = Option<seq<Device>>

  /** The first device at the place. */
  function At(devices: seq<Device>, bus: byte, address: byte): (r: Option<Device>)
    ensures r.Some? ==> r.value in devices && r.value.bus == bus && r.value.address == address
    ensures r.None? ==> forall i :: 0 <= i < |devices| ==> !(devices[i].bus == bus && devices[i].address == address)
  {
    if devices == [] then None
    else if devices[0].bus == bus && devices[0].address == address then Some(devices[0])
    else At(devices[1..], bus, address)
  }

  /** The device found at the first attempt, or else at the second; a failed attempt ends the search. */
  function Find(first: Listing, second: Listing, bus: byte, address: byte): Option<Device> {
    if first.None? then None
    else if At(first.value, bus, address).Some? then At(first.value, bus, address)
    else if second.None? then None
    else At(second.value, bus, address)
  }

  function Lookup(fields: map<string, string>, key: string): string {
    if key in fields then fields[key] else ""
  }

  /** What the fields of an event ask for. */
  function Meaning(fields: map<string, string>, first: Listing, second: Listing): Signal {
    var bus, address := ParseUint8(Lookup(fields, "BUSNUM")), ParseUint8(Lookup(fields, "DEVNUM"));
    if Lookup(fields, "SUBSYSTEM") != "usb" || Lookup(fields, "DEVTYPE") != "usb_device" then Ignored
    else if !bus.ok || !address.ok then Ignored
    else if Lookup(fields, "ACTION") == "add" then
      Add(bus.value, address.value, Find(first, second, bus.value, address.value))
    else if Lookup(fields, "ACTION") == "remove" then Remove(bus.value, address.value)
    else Ignored
  }

  // ---------------------------------------------------------------- from bytes to signals

  /** The last value sent for the key. */
  ghost predicate Says(ps: seq<Pair>, key: string, value: string) {
    exists i :: LastPair(ps, i) && ps[i] == Pair(key, value)
  }

  lemma {:induction false} SaysLookup(ps: seq<Pair>, key: string, value: string)
    requires Says(ps, key, value)
    ensures Lookup(PutAll(map[], ps), key) == value
  {
    var i :| LastPair(ps, i) && ps[i] == Pair(key, value);
    PutAllLast(map[], ps, i);
  }

  /** The other way round: a variable that reads as a value, other than as none, was sent with it last. */
  lemma {:induction false} LookupSays(ps: seq<Pair>, key: string, value: string)
    requires value != ""
    ensures Lookup(PutAll(map[], ps), key) == value <==> Says(ps, key, value)
  {
    if Says(ps, key, value) { SaysLookup(ps, key, value); }
    if Lookup(PutAll(map[], ps), key) == value { PutAllIff(map[], ps, key); }
  }

  /** The last value sent for the key is a number that fits in a byte. */
  ghost predicate SaysByte(ps: seq<Pair>, key: string) {
    exists text :: Says(ps, key, text) && SpellsByte(text)
  }

  lemma {:induction false} LookupSaysByte(ps: seq<Pair>, key: string)
    ensures ParseUint8(Lookup(PutAll(map[], ps), key)).ok <==> SaysByte(ps, key)
  {
    var text := Lookup(PutAll(map[], ps), key);
    ParseOkIff(text);
    if SpellsByte(text) { LookupSays(ps, key, text); }
    if other :| Says(ps, key, other) && SpellsByte(other) { LookupSays(ps, key, other); }
  }

  /**
   A payload asks for nothing exactly if it is not about a whole USB device, does not place it by two
   numbers that fit in a byte, or announces neither an add nor a removal.
   */
  lemma {:induction false} IgnoredIff(header: string, ps: seq<Pair>, first: Listing, second: Listing)
    requires Free(header, '=') && Free(header, NUL) && AllSendable(ps)
    ensures Meaning(FieldsFrom(map[], Split(Payload(header, ps), NUL)), first, second) == Ignored <==>
      || !Says(ps, "SUBSYSTEM", "usb") || !Says(ps, "DEVTYPE", "usb_device")
      || !SaysByte(ps, "BUSNUM") || !SaysByte(ps, "DEVNUM")
      || !(Says(ps, "ACTION", "add") || Says(ps, "ACTION", "remove"))
  {
    PayloadRoundTrip(header, ps);
    LookupSays(ps, "SUBSYSTEM", "usb");
    LookupSays(ps, "DEVTYPE", "usb_device");
    LookupSaysByte(ps, "BUSNUM");
    LookupSaysByte(ps, "DEVNUM");
    LookupSays(ps, "ACTION", "add");
    LookupSays(ps, "ACTION", "remove");
  }

  /** Such as the bind event that follows an add: any other action is ignored. */
  lemma {:induction false} OtherActionIsIgnored(header: string, ps: seq<Pair>, action: string, first: Listing,
                                                second: Listing)
    requires Free(header, '=') && Free(header, NUL) && AllSendable(ps)
    requires Says(ps, "ACTION", action) && action != "add" && action != "remove"
    ensures Meaning(FieldsFrom(map[], Split(Payload(header, ps), NUL)), first, second) == Ignored
  {
    IgnoredIff(header, ps, first, second);
    forall other | Says(ps, "ACTION", other) ensures other == action {
      SaysLookup(ps, "ACTION", action);
      SaysLookup(ps, "ACTION", other);
    }
  }

  // ---------------------------------------------------------------- the second look

  /** Device i of the listing, d, is the first one at the place. */
  ghost predicate FirstAt(devices: seq<Device>, bus: byte, address: byte, d: Device, i: int) {
    && 0 <= i < |devices| && devices[i] == d && d.bus == bus && d.address == address
    && forall j :: 0 <= j < i ==> !(devices[j].bus == bus && devices[j].address == address)
  }

  /** The listing was made and has d at the place, before any other device there. */
  ghost predicate Shows(listing: Listing, bus: byte, address: byte, d: Device) {
    listing.Some? && exists i :: FirstAt(listing.value, bus, address, d, i)
  }

  /** The listing was made and has nothing at the place. */
  ghost predicate Lacks(listing: Listing, bus: byte, address: byte) {
    && listing.Some?
    && forall i :: 0 <= i < |listing.value| ==> !(listing.value[i].bus == bus && listing.value[i].address == address)
  }

  lemma {:induction false} AtIsFirst(devices: seq<Device>, bus: byte, address: byte, d: Device)
    ensures At(devices, bus, address) == Some(d) <==> exists i :: FirstAt(devices, bus, address, d, i)
  {
    if devices != [] {
      var rest := devices[1..];
      AtIsFirst(rest, bus, address, d);
      assert forall j :: 0 < j < |devices| ==> devices[j] == rest[j - 1];
      if devices[0].bus == bus && devices[0].address == address {
        if d == devices[0] { assert FirstAt(devices, bus, address, d, 0); }
      } else {
        if i :| FirstAt(rest, bus, address, d, i) { assert FirstAt(devices, bus, address, d, i + 1); }
        if i :| FirstAt(devices, bus, address, d, i) { assert FirstAt(rest, bus, address, d, i - 1); }
      }
    }
  }

  /** The device found is the first at the place in the first listing, or else, if both were made, in the second. */
  lemma {:induction false} FindIff(first: Listing, second: Listing, bus: byte, address: byte, d: Device)
    ensures Find(first, second, bus, address) == Some(d) <==>
            Shows(first, bus, address, d) || (Lacks(first, bus, address) && Shows(second, bus, address, d))
  {
    if first.Some? { AtIsFirst(first.value, bus, address, d); }
    if second.Some? { AtIsFirst(second.value, bus, address, d); }
    if i :| first.Some? && FirstAt(first.value, bus, address, d, i) { assert !Lacks(first, bus, address); }
  }

  /** n as the kernel writes bus and device numbers: padded with some zeros. */
  function Padded(n: byte, zeros: nat): string {
    seq(zeros, _ => '0') + Decimal(n)
  }

  /**
   A payload that announces the add or removal of the device at bus and address is understood as
   just that, wherever its variables stand and however its numbers are padded.
   */
  lemma PayloadMeans(header: string, ps: seq<Pair>, bus: byte, address: byte, z1: nat, z2: nat, first: Listing,
                     second: Listing)
    requires Free(header, '=') && Free(header, NUL) && AllSendable(ps)
    requires Says(ps, "SUBSYSTEM", "usb") && Says(ps, "DEVTYPE", "usb_device")
    requires Says(ps, "BUSNUM", Padded(bus, z1)) && Says(ps, "DEVNUM", Padded(address, z2))
    ensures var signal := Meaning(FieldsFrom(map[], Split(Payload(header, ps), NUL)), first, second);
      && (Says(ps, "ACTION", "add") ==> signal == Add(bus, address, Find(first, second, bus, address)))
      && (Says(ps, "ACTION", "remove") ==> signal == Remove(bus, address))
  {
    PayloadRoundTrip(header, ps);
    SaysLookup(ps, "SUBSYSTEM", "usb");
    SaysLookup(ps, "DEVTYPE", "usb_device");
    SaysLookup(ps, "BUSNUM", Padded(bus, z1));
    SaysLookup(ps, "DEVNUM", Padded(address, z2));
    ParsePadded(bus, z1);
    ParsePadded(address, z2);
    if Says(ps, "ACTION", "add") { SaysLookup(ps, "ACTION", "add"); }
    if Says(ps, "ACTION", "remove") { SaysLookup(ps, "ACTION", "remove"); }
  }

  // ---------------------------------------------------------------- histories

  function Receive(w: Watch, f: Filter, s: Signal): Watch {
    match s
    case Add(bus, address, found) => if found.None? then w else Put(w, f, Key(bus, address), found.value)
    case Remove(bus, address) => Drop(w, f, Key(bus, address))
    case Ignored => w
  }

  function ReceiveAll(w: Watch, f: Filter, ss: seq<Signal>): Watch {
    if ss == [] then w else Receive(ReceiveAll(w, f, ss[..|ss| - 1]), f, ss[|ss| - 1])
  }

  /** The snapshot is a sequence of adds. */
  function Adds(devices: seq<Device>): (r: seq<Signal>)
    ensures |r| == |devices|
    ensures forall i :: 0 <= i < |r| ==> r[i] == Add(devices[i].bus, devices[i].address, Some(devices[i]))
  {
    if devices == [] then []
    else [Add(devices[0].bus, devices[0].address, Some(devices[0]))] + Adds(devices[1..])
  }

  lemma ReceiveKeepsSound(w: Watch, f: Filter, s: Signal, key: string)
    requires Sound(w, f, key)
    ensures Sound(Receive(w, f, s), f, key)
  {
    match s
    case Add(bus, address, found) => if found.Some? { PutKeepsSound(w, f, Key(bus, address), found.value, key); }
    case Remove(bus, address) => DropKeepsSound(w, f, Key(bus, address), key);
    case Ignored =>
  }

  /**
   In every history each Left for a place comes right after an Arrived of the same device for that
   place, so no two Lefts occur without an Arrived between.
   */
  lemma {:induction false} HistorySound(f: Filter, ss: seq<Signal>, key: string)
    ensures Sound(ReceiveAll(EMPTY, f, ss), f, key)
  {
    if ss != [] {
      HistorySound(f, ss[..|ss| - 1], key);
      ReceiveKeepsSound(ReceiveAll(EMPTY, f, ss[..|ss| - 1]), f, ss[|ss| - 1], key);
    }
  }

  /** The signal changes what is in place at the key. */
  predicate About(s: Signal, key: string) {
    match s
    case Add(bus, address, found) => found.Some? && Key(bus, address) == key
    case Remove(bus, address) => Key(bus, address) == key
    case Ignored => false
  }

  /** i is the latest signal about the key. */
  ghost predicate Latest(ss: seq<Signal>, i: int, key: string) {
    0 <= i < |ss| && About(ss[i], key) && forall j :: i < j < |ss| ==> !About(ss[j], key)
  }

  /** In place at a key is the device of the latest signal about it, if that is an add. */
  lemma {:induction false} SeenIsLatestAdd(f: Filter, ss: seq<Signal>, key: string)
    ensures var seen := ReceiveAll(EMPTY, f, ss).seen;
      && (key in seen ==> exists i :: Latest(ss, i, key) && ss[i].Add? && ss[i].found == Some(seen[key]))
      && (key !in seen ==> forall i :: Latest(ss, i, key) ==> ss[i].Remove?)
  {
    if ss != [] {
      var front, s := ss[..|ss| - 1], ss[|ss| - 1];
      SeenIsLatestAdd(f, front, key);
      var seen := ReceiveAll(EMPTY, f, front).seen;
      if About(s, key) {
        assert Latest(ss, |ss| - 1, key);
      } else if key in seen {
        var i :| Latest(front, i, key) && front[i].Add? && front[i].found == Some(seen[key]);
        assert Latest(ss, i, key);
      } else {
        forall i | Latest(ss, i, key) ensures ss[i].Remove? {
          assert Latest(front, i, key);
        }
      }
    }
  }

  /** A removal reports exactly the device of the latest signal about its place, if that is an add of a matching one. */
  lemma {:induction false} LeftCarriesLatestAdd(f: Filter, ss: seq<Signal>, bus: byte, address: byte)
    ensures var key, before := Key(bus, address), ReceiveAll(EMPTY, f, ss);
      var after := Receive(before, f, Remove(bus, address));
      || (after.log == before.log
          && forall i :: Latest(ss, i, key) ==> ss[i].Remove? || !f.Matches(ss[i].found.value))
      || (exists i :: Latest(ss, i, key) && ss[i].Add? && f.Matches(ss[i].found.value)
            && after.log == before.log + [Call(key, Left, ss[i].found.value)])
  {
    var key := Key(bus, address);
    SeenIsLatestAdd(f, ss, key);
    forall i, j | Latest(ss, i, key) && Latest(ss, j, key) ensures i == j {}
  }

  // ---------------------------------------------------------------- when callbacks take turns

  /** The signal puts a device at the key. */
  predicate Puts(s: Signal, key: string) { About(s, key) && s.Add? }

  /** The signals put a device at the key twice, at i and j, with no removal there in between. */
  ghost predicate PutTwice(ss: seq<Signal>, key: string, i: int, j: int) {
    && 0 <= i < j < |ss| && Puts(ss[i], key) && Puts(ss[j], key)
    && forall m :: i < m < j ==> !(ss[m].Remove? && About(ss[m], key))
  }

  /** The filter that admits every device. */
  const ANY := Filter(0, 0)

  lemma {:induction false} PutStays(ss: seq<Signal>, key: string, i: nat)
    requires i < |ss| && Puts(ss[i], key) && forall m :: i < m < |ss| ==> !(ss[m].Remove? && About(ss[m], key))
    ensures key in ReceiveAll(EMPTY, ANY, ss).seen
  {
    if i < |ss| - 1 {
      var front := ss[..|ss| - 1];
      assert front[i] == ss[i];
      PutStays(front, key, i);
    }
  }

  lemma {:induction false} BrokenStaysBroken(ss: seq<Signal>, n: nat, key: string)
    requires n <= |ss| && !Alternating(OnKey(ReceiveAll(EMPTY, ANY, ss[..n]).log, key))
    ensures !Alternating(OnKey(ReceiveAll(EMPTY, ANY, ss).log, key))
  {
    if n == |ss| {
      assert ss[..n] == ss;
    } else {
      var front, s := ss[..|ss| - 1], ss[|ss| - 1];
      assert front[..n] == ss[..n];
      BrokenStaysBroken(front, n, key);
      ReceiveStaysBroken(ReceiveAll(EMPTY, ANY, front), ANY, s, key);
    }
  }

  lemma SnocStaysBroken(calls: seq<Call>, c: Call)
    requires Alternating(calls + [c])
    ensures Alternating(calls)
  {
    var all := calls + [c];
    forall i | 0 <= i < |calls| ensures calls[i] == all[i] {}
  }

  lemma {:induction false} ReceiveStaysBroken(w: Watch, f: Filter, s: Signal, key: string)
    requires !Alternating(OnKey(w.log, key))
    ensures !Alternating(OnKey(Receive(w, f, s).log, key))
  {
    var after := Receive(w, f, s);
    if after.log != w.log {
      var c := after.log[|w.log|];
      assert after.log == w.log + [c];
      OnKeySnoc(w.log, c, key);
      if Alternating(OnKey(after.log, key)) && c.key == key { SnocStaysBroken(OnKey(w.log, key), c); }
    }
  }

  lemma {:induction false} SecondPutBreaks(w: Watch, s: Signal, key: string)
    requires Sound(w, ANY, key) && key in w.seen && Puts(s, key)
    ensures !Alternating(OnKey(Receive(w, ANY, s).log, key))
  {
    OnKeyReport(w.log, ANY, key, Arrived, s.found.value, key);
    var before, calls := OnKey(w.log, key), OnKey(Receive(w, ANY, s).log, key);
    assert calls[|before| - 1].event == Arrived && calls[|before|].event == Arrived;
  }

  lemma {:induction false} PutTwiceBreaks(ss: seq<Signal>, key: string, i: nat, j: nat)
    requires PutTwice(ss, key, i, j)
    ensures !Alternating(OnKey(ReceiveAll(EMPTY, ANY, ss).log, key))
  {
    var front := ss[..j];
    assert front[i] == ss[i];
    PutStays(front, key, i);
    HistorySound(ANY, front, key);
    SecondPutBreaks(ReceiveAll(EMPTY, ANY, front), ss[j], key);
    assert ss[..j + 1][..j] == front && ss[..j + 1][j] == ss[j];
    BrokenStaysBroken(ss, j + 1, key);
  }

  /**
   Adds are not checked for duplicates: the callbacks for a place take turns under every filter
   exactly when no two adds there, the snapshot's included, come without a removal between.
   */
  lemma TurnsUnderEveryFilterIff(ss: seq<Signal>, key: string)
    ensures (forall f :: Alternating(OnKey(ReceiveAll(EMPTY, f, ss).log, key))) <==>
            (forall i, j :: !PutTwice(ss, key, i, j))
  {
    if forall i, j :: !PutTwice(ss, key, i, j) {
      forall f ensures Alternating(OnKey(ReceiveAll(EMPTY, f, ss).log, key)) {
        forall i, n, j ensures !Overtaken(ss, f, key, i, n, j) { assert !PutTwice(ss, key, i, n); }
        TurnsIff(f, ss, key);
      }
    } else {
      var i, j :| PutTwice(ss, key, i, j);
      PutTwiceBreaks(ss, key, i, j);
    }
  }

  // ---------------------------------------------------------------- under one filter

  /** The signal puts a device that the filter admits at the key. */
  predicate Reports(s: Signal, f: Filter, key: string) {
    Puts(s, key) && f.Matches(s.found.value)
  }

  /**
   The device reported at i was replaced, at n and without having left, by another; and a device is
   reported at j, no earlier.
   */
  ghost predicate Overtaken(ss: seq<Signal>, f: Filter, key: string, i: int, n: int, j: int) {
    && 0 <= i < n <= j < |ss| && Reports(ss[i], f, key) && Puts(ss[n], key) && Reports(ss[j], f, key)
    && forall m :: i < m < n ==> !About(ss[m], key)
  }

  /** A device was reported last as arrived, and is no longer in place. */
  ghost predicate Stale(w: Watch, f: Filter, key: string) {
    && !(key in w.seen && f.Matches(w.seen[key]))
    && var calls := OnKey(w.log, key); calls != [] && calls[|calls| - 1].event == Arrived
  }

  /** The device reported at i was replaced at n without having left. */
  ghost predicate Replaced(ss: seq<Signal>, f: Filter, key: string, i: int, n: int) {
    && 0 <= i < n < |ss| && Reports(ss[i], f, key) && Puts(ss[n], key)
    && forall m :: i < m < n ==> !About(ss[m], key)
  }

  ghost predicate AnyReplaced(ss: seq<Signal>, f: Filter, key: string) {
    exists i, n :: Replaced(ss, f, key, i, n)
  }

  ghost predicate AnyOvertaken(ss: seq<Signal>, f: Filter, key: string) {
    exists i, n, j :: Overtaken(ss, f, key, i, n, j)
  }

  /** A device is reported at n or later. */
  ghost predicate ReportedFrom(ss: seq<Signal>, f: Filter, key: string, n: nat) {
    exists j :: n <= j < |ss| && Reports(ss[j], f, key)
  }

  lemma ReportedFromFront(ss: seq<Signal>, f: Filter, key: string, n: nat)
    requires n < |ss|
    ensures ReportedFrom(ss, f, key, n) <==>
            ReportedFrom(ss[..|ss| - 1], f, key, n) || Reports(ss[|ss| - 1], f, key)
  {
    var front := ss[..|ss| - 1];
    forall j | n <= j < |front| ensures front[j] == ss[j] {}
    if Reports(ss[|ss| - 1], f, key) { assert ReportedFrom(ss, f, key, n); }
    if ReportedFrom(front, f, key, n) {
      var j :| n <= j < |front| && Reports(front[j], f, key);
      assert Reports(ss[j], f, key);
    }
  }

  lemma {:induction false} ReceiveElsewhere(w: Watch, f: Filter, s: Signal, key: string)
    requires !About(s, key)
    ensures OnKey(Receive(w, f, s).log, key) == OnKey(w.log, key)
    ensures key in Receive(w, f, s).seen <==> key in w.seen
    ensures key in w.seen ==> Receive(w, f, s).seen[key] == w.seen[key]
  {
    match s
    case Add(bus, address, found) =>
      if found.Some? { OnKeyReport(w.log, f, Key(bus, address), Arrived, found.value, key); }
    case Remove(bus, address) =>
      var k := Key(bus, address);
      if k in w.seen { OnKeyReport(w.log, f, k, Left, w.seen[k], key); }
    case Ignored =>
  }

  lemma {:induction false} ReceivePut(w: Watch, f: Filter, s: Signal, key: string)
    requires Puts(s, key)
    ensures OnKey(Receive(w, f, s).log, key) ==
            if Reports(s, f, key) then OnKey(w.log, key) + [Call(key, Arrived, s.found.value)] else OnKey(w.log, key)
    ensures key in Receive(w, f, s).seen && Receive(w, f, s).seen[key] == s.found.value
  {
    OnKeyReport(w.log, f, key, Arrived, s.found.value, key);
  }

  lemma {:induction false} ReceiveRemove(w: Watch, f: Filter, s: Signal, key: string)
    requires s.Remove? && About(s, key)
    ensures OnKey(Receive(w, f, s).log, key) ==
            if key in w.seen && f.Matches(w.seen[key]) then OnKey(w.log, key) + [Call(key, Left, w.seen[key])]
            else OnKey(w.log, key)
    ensures key !in Receive(w, f, s).seen
  {
    if key in w.seen { OnKeyReport(w.log, f, key, Left, w.seen[key], key); }
  }

  /** Until the next report a stale place stays stale, and that report breaks the turns. */
  lemma {:induction false} StaleStep(w: Watch, f: Filter, s: Signal, key: string)
    requires Stale(w, f, key)
    ensures if Reports(s, f, key) then !Alternating(OnKey(Receive(w, f, s).log, key))
            else Stale(Receive(w, f, s), f, key)
  {
    if !About(s, key) {
      ReceiveElsewhere(w, f, s, key);
    } else if s.Remove? {
      ReceiveRemove(w, f, s, key);
    } else {
      ReceivePut(w, f, s, key);
      if Reports(s, f, key) {
        var before, calls := OnKey(w.log, key), OnKey(Receive(w, f, s).log, key);
        assert calls[|before| - 1].event == Arrived && calls[|before|].event == Arrived;
      }
    }
  }

  /** After i the reported device is in place until n, where it is replaced. */
  lemma {:induction false} InPlaceUntil(ss: seq<Signal>, f: Filter, key: string, i: nat)
    requires i < |ss| && Reports(ss[i], f, key) && forall m :: i < m < |ss| ==> !About(ss[m], key)
    ensures var w := ReceiveAll(EMPTY, f, ss); key in w.seen && w.seen[key] == ss[i].found.value
  {
    var front := ss[..|ss| - 1];
    if i == |ss| - 1 {
      ReceivePut(ReceiveAll(EMPTY, f, front), f, ss[i], key);
    } else {
      assert front[i] == ss[i];
      InPlaceUntil(front, f, key, i);
      ReceiveElsewhere(ReceiveAll(EMPTY, f, front), f, ss[|ss| - 1], key);
    }
  }

  /** After a replacement the turns are broken, or the place is stale. */
  lemma {:induction false} AfterReplaced(ss: seq<Signal>, f: Filter, key: string, i: nat, n: nat)
    requires Replaced(ss, f, key, i, n)
    ensures !Alternating(OnKey(ReceiveAll(EMPTY, f, ss).log, key)) || Stale(ReceiveAll(EMPTY, f, ss), f, key)
    ensures ReportedFrom(ss, f, key, n) ==> !Alternating(OnKey(ReceiveAll(EMPTY, f, ss).log, key))
  {
    var front, s := ss[..|ss| - 1], ss[|ss| - 1];
    var w := ReceiveAll(EMPTY, f, front);
    assert front[i] == ss[i];
    ReportedFromFront(ss, f, key, n);
    if n == |ss| - 1 {
      InPlaceUntil(front, f, key, i);
      HistorySound(f, front, key);
      Replacement(w, f, s, key);
    } else {
      assert Replaced(front, f, key, i, n);
      AfterReplaced(front, f, key, i, n);
      if Alternating(OnKey(w.log, key)) {
        StaleStep(w, f, s, key);
      } else {
        ReceiveStaysBroken(w, f, s, key);
      }
    }
  }

  lemma {:induction false} Replacement(w: Watch, f: Filter, s: Signal, key: string)
    requires Sound(w, f, key) && key in w.seen && f.Matches(w.seen[key]) && Puts(s, key)
    ensures if Reports(s, f, key) then !Alternating(OnKey(Receive(w, f, s).log, key))
            else Stale(Receive(w, f, s), f, key)
  {
    ReceivePut(w, f, s, key);
    if Reports(s, f, key) {
      var before, calls := OnKey(w.log, key), OnKey(Receive(w, f, s).log, key);
      assert calls[|before| - 1].event == Arrived && calls[|before|].event == Arrived;
    }
  }

  /** While nothing is overtaken callbacks take turns, and a stale place comes from a replacement. */
  ghost predicate Explained(ss: seq<Signal>, f: Filter, key: string) {
    var w := ReceiveAll(EMPTY, f, ss);
    && Alternating(OnKey(w.log, key))
    && (Stale(w, f, key) ==> AnyReplaced(ss, f, key))
  }

  lemma ReplacedStays(ss: seq<Signal>, f: Filter, key: string)
    requires ss != [] && AnyReplaced(ss[..|ss| - 1], f, key)
    ensures AnyReplaced(ss, f, key)
    ensures Reports(ss[|ss| - 1], f, key) ==> AnyOvertaken(ss, f, key)
  {
    var front := ss[..|ss| - 1];
    var i, n :| Replaced(front, f, key, i, n);
    assert Replaced(ss, f, key, i, n);
    if Reports(ss[|ss| - 1], f, key) { assert Overtaken(ss, f, key, i, n, |ss| - 1); }
  }

  /** The device in place was put by the latest signal about the key, so putting another replaces it. */
  lemma {:induction false} PutReplaces(ss: seq<Signal>, f: Filter, key: string)
    requires ss != [] && Puts(ss[|ss| - 1], key)
    requires var w := ReceiveAll(EMPTY, f, ss[..|ss| - 1]); key in w.seen && f.Matches(w.seen[key])
    ensures AnyReplaced(ss, f, key)
    ensures Reports(ss[|ss| - 1], f, key) ==> AnyOvertaken(ss, f, key)
  {
    var front := ss[..|ss| - 1];
    SeenIsLatestAdd(f, front, key);
    var i :| Latest(front, i, key) && front[i].Add? && front[i].found == Some(ReceiveAll(EMPTY, f, front).seen[key]);
    assert Replaced(ss, f, key, i, |ss| - 1);
    if Reports(ss[|ss| - 1], f, key) { assert Overtaken(ss, f, key, i, |ss| - 1, |ss| - 1); }
  }

  /** Either a device already reported and not left is there, or the turns allow an arrival. */
  lemma {:induction false} PutTakesTurn(w: Watch, f: Filter, s: Signal, key: string)
    requires Puts(s, key) && Sound(w, f, key) && Alternating(OnKey(w.log, key))
    requires !Stale(w, f, key) && !(key in w.seen && f.Matches(w.seen[key]))
    ensures Alternating(OnKey(Receive(w, f, s).log, key)) && !Stale(Receive(w, f, s), f, key)
  {
    ReceivePut(w, f, s, key);
    if Reports(s, f, key) { ArrivedTakesTurn(OnKey(w.log, key), Call(key, Arrived, s.found.value)); }
  }

  lemma ExplainedPut(ss: seq<Signal>, f: Filter, key: string)
    requires ss != [] && Puts(ss[|ss| - 1], key) && Explained(ss[..|ss| - 1], f, key)
    requires !AnyOvertaken(ss, f, key)
    ensures Explained(ss, f, key)
  {
    var front, s := ss[..|ss| - 1], ss[|ss| - 1];
    var w := ReceiveAll(EMPTY, f, front);
    ReceivePut(w, f, s, key);
    if key in w.seen && f.Matches(w.seen[key]) {
      PutReplaces(ss, f, key);
    } else if Stale(w, f, key) {
      ReplacedStays(ss, f, key);
    } else {
      HistorySound(f, front, key);
      PutTakesTurn(w, f, s, key);
    }
  }

  lemma ExplainedRemove(ss: seq<Signal>, f: Filter, key: string)
    requires ss != [] && ss[|ss| - 1].Remove? && About(ss[|ss| - 1], key) && Explained(ss[..|ss| - 1], f, key)
    ensures Explained(ss, f, key)
  {
    var front, s := ss[..|ss| - 1], ss[|ss| - 1];
    var w := ReceiveAll(EMPTY, f, front);
    ReceiveRemove(w, f, s, key);
    HistorySound(f, front, key);
    if key in w.seen && f.Matches(w.seen[key]) {
      LeftTakesTurn(OnKey(w.log, key), Call(key, Left, w.seen[key]));
    } else if Stale(w, f, key) {
      ReplacedStays(ss, f, key);
    }
  }

  lemma {:induction false} NotOvertakenAlternates(ss: seq<Signal>, f: Filter, key: string)
    requires !AnyOvertaken(ss, f, key)
    ensures Explained(ss, f, key)
  {
    if ss != [] {
      var front, s := ss[..|ss| - 1], ss[|ss| - 1];
      forall i, n, j ensures !Overtaken(front, f, key, i, n, j) {
        if Overtaken(front, f, key, i, n, j) { assert Overtaken(ss, f, key, i, n, j); }
      }
      NotOvertakenAlternates(front, f, key);
      if !About(s, key) {
        ReceiveElsewhere(ReceiveAll(EMPTY, f, front), f, s, key);
        if Stale(ReceiveAll(EMPTY, f, front), f, key) { ReplacedStays(ss, f, key); }
      } else if s.Remove? {
        ExplainedRemove(ss, f, key);
      } else {
        ExplainedPut(ss, f, key);
      }
    }
  }

  /**
   Under one filter: the callbacks for a place take turns exactly when no device reported there is
   replaced before it left, by whatever device, with a device reported there then or later.
   */
  lemma {:induction false} TurnsIff(f: Filter, ss: seq<Signal>, key: string)
    ensures Alternating(OnKey(ReceiveAll(EMPTY, f, ss).log, key)) <==> !AnyOvertaken(ss, f, key)
  {
    if AnyOvertaken(ss, f, key) {
      var i, n, j :| Overtaken(ss, f, key, i, n, j);
      assert Replaced(ss, f, key, i, n);
      assert ReportedFrom(ss, f, key, n);
      AfterReplaced(ss, f, key, i, n);
    } else {
      NotOvertakenAlternates(ss, f, key);
    }
  }

  /** A device already in the snapshot whose add was queued behind it is reported twice. */
  lemma SnapshotAndQueuedAdd(d: Device)
    ensures !Alternating(OnKey(ReceiveAll(EMPTY, ANY, Adds([d]) + [Add(d.bus, d.address, Some(d))]).log,
                               Key(d.bus, d.address)))
  {
    var ss := Adds([d]) + [Add(d.bus, d.address, Some(d))];
    assert PutTwice(ss, Key(d.bus, d.address), 0, 1);
    PutTwiceBreaks(ss, Key(d.bus, d.address), 0, 1);
  }

  // ---------------------------------------------------------------- the handle

  class HotplugHandle {
    const filter: Filter
    var seen: map<string, Device>
    var log: seq<Call> // the callbacks made

    constructor (filter: Filter)
      ensures this.filter == filter && View() == EMPTY
    {
      this.filter := filter;
      seen, log := map[], [];
    }

    ghost function View(): Watch
      reads this
    {
      Watch(seen, log)
    }

    method Callback(key: string, event: Event, device: Device)
      modifies this`log
      ensures log == Report(old(log), filter, key, event, device)
    {
      if filter.Matches(device) {
        log := log + [Call(key, event, device)];
      }
    }

    /** The devices already there, before the pump starts. */
    method DeliverSnapshot(devices: seq<Device>)
      requires View() == EMPTY
      modifies this`seen, this`log
      ensures View() == ReceiveAll(EMPTY, filter, Adds(devices))
    {
      ghost var adds := Adds(devices);
      for i := 0 to |devices|
        invariant View() == ReceiveAll(EMPTY, filter, adds[..i])
      {
        assert adds[..i + 1][..i] == adds[..i];
        var d := devices[i];
        var key := Key(d.bus, d.address);
        seen := seen[key := d];
        Callback(key, Arrived, d);
      }
      assert adds[..|devices|] == adds;
    }

    /** Looks for a device twice; first and second are what the enumeration gives at each attempt. */
    method FindDevice(bus: byte, address: byte, first: Listing, second: Listing) returns (r: Option<Device>)
      ensures r == Find(first, second, bus, address)
    {
      for attempt := 0 to 2
        invariant attempt >= 1 ==> first.Some? && At(first.value, bus, address).None?
        invariant attempt == 2 ==> second.Some? && At(second.value, bus, address).None?
      {
        var listing := if attempt == 0 then first else second;
        if listing.None? {
          return None;
        }
        var devices := listing.value;
        assert devices[0..] == devices;
        for i := 0 to |devices|
          invariant At(devices[i..], bus, address) == At(devices, bus, address)
        {
          assert devices[i..][1..] == devices[i + 1..];
          if devices[i].bus == bus && devices[i].address == address {
            return Some(devices[i]);
          }
        }
      }
      r := None;
    }

    /** One payload off the socket. */
    method HandleUevent(raw: string, first: Listing, second: Listing)
      modifies this`seen, this`log
      ensures View() == Receive(old(View()), filter, Meaning(FieldsFrom(map[], Split(raw, NUL)), first, second))
      ensures var action := Lookup(FieldsFrom(map[], Split(raw, NUL)), "ACTION");
        action != "add" && action != "remove" ==> View() == old(View())
    {
      var fields := ParseUevent(raw);
      if Lookup(fields, "SUBSYSTEM") != "usb" || Lookup(fields, "DEVTYPE") != "usb_device" {
        return;
      }
      var busNum := ParseUint8(Lookup(fields, "BUSNUM"));
      var devNum := ParseUint8(Lookup(fields, "DEVNUM"));
      if !busNum.ok || !devNum.ok {
        return;
      }
      var bus, address := busNum.value, devNum.value;
      var key := Key(bus, address);
      var action := Lookup(fields, "ACTION");
      if action == "add" {
        var dev := FindDevice(bus, address, first, second);
        if dev.None? {
          return;
        }
        seen := seen[key := dev.value];
        Callback(key, Arrived, dev.value);
      } else if action == "remove" {
        if key !in seen {
          return;
        }
        var dev := seen[key];
        seen := seen - {key};
        Callback(key, Left, dev);
      }
    }
  }
}
