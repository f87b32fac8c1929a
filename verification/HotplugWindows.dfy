/** The Windows watcher: device messages by interface path, duplicates suppressed by the seen map. */
module HotplugWindows {
  import opened Core
  import opened Hotplug

  const DEVICE_ARRIVAL := 0x8000
  const DEVICE_REMOVE_COMPLETE := 0x8004
  const DEVICE_INTERFACE := 5

  /** The structure a message points to. */
  datatype Broadcast = Broadcast(deviceType: nat, name: string)

  /** A WM_DEVICECHANGE message; built is the device that would be made from its path. */
  datatype Message = Message(event: nat, broadcast: Option<Broadcast>, built: Device)

  /** How a path is put in lower case; paths differ in case only between sources, so keys are lowered paths. */
  type Lowering = string -> string

  /** What one message does. */
  function Receive(w: Watch, lower: Lowering, f: Filter, m: Message): Watch {
    if m.broadcast.None? || m.broadcast.value.deviceType != DEVICE_INTERFACE then w
    else
      var key := lower(m.broadcast.value.name);
      if m.event == DEVICE_ARRIVAL then if key in w.seen then w else Put(w, f, key, m.built)
      else if m.event == DEVICE_REMOVE_COMPLETE then Drop(w, f, key)
      else w
  }

  function ReceiveAll(w: Watch, lower: Lowering, f: Filter, ms: seq<Message>): Watch {
    if ms == [] then w else Receive(ReceiveAll(w, lower, f, ms[..|ms| - 1]), lower, f, ms[|ms| - 1])
  }

  /** The devices present when the watch began. */
  function Snapshot(lower: Lowering, f: Filter, devices: seq<Device>): Watch {
    if devices == [] then EMPTY
    else
      var d := devices[|devices| - 1];
      Put(Snapshot(lower, f, devices[..|devices| - 1]), f, lower(d.path), d)
  }

  // ---------------------------------------------------------------- what the messages mean

  /** A message about the interface with this key: one of the two events, for device type 5. */
  predicate About(lower: Lowering, m: Message, key: string) {
    && m.broadcast.Some? && m.broadcast.value.deviceType == 5 && lower(m.broadcast.value.name) == key
    && (m.event == 0x8000 || m.event == 0x8004)
  }

  /** Nothing but an arrival or a removal of the key changes what is in place there, or calls back for it. */
  lemma {:induction false} ReceiveElsewhere(w: Watch, lower: Lowering, f: Filter, m: Message, key: string)
    requires !About(lower, m, key)
    ensures OnKey(Receive(w, lower, f, m).log, key) == OnKey(w.log, key)
    ensures key in Receive(w, lower, f, m).seen <==> key in w.seen
    ensures key in w.seen ==> Receive(w, lower, f, m).seen[key] == w.seen[key]
  {
    if m.broadcast.Some? {
      var k := lower(m.broadcast.value.name);
      OnKeyReport(w.log, f, k, Arrived, m.built, key);
      if k in w.seen { OnKeyReport(w.log, f, k, Left, w.seen[k], key); }
    }
  }

  /** At its key an arrival counts only if nothing is in place there, a removal only if something is. */
  lemma {:induction false} ReceiveHere(w: Watch, lower: Lowering, f: Filter, m: Message, key: string)
    requires About(lower, m, key)
    ensures var before, after := OnKey(w.log, key), Receive(w, lower, f, m);
      var calls := OnKey(after.log, key);
      if m.event == 0x8000 && key !in w.seen then
        && key in after.seen && after.seen[key] == m.built
        && calls == (if f.Matches(m.built) then before + [Call(key, Arrived, m.built)] else before)
      else if m.event == 0x8004 && key in w.seen then
        && key !in after.seen
        && calls == (if f.Matches(w.seen[key]) then before + [Call(key, Left, w.seen[key])] else before)
      else after == w
  {
    OnKeyReport(w.log, f, key, Arrived, m.built, key);
    if key in w.seen { OnKeyReport(w.log, f, key, Left, w.seen[key], key); }
  }

  /** Message i is the latest about the key. */
  ghost predicate Latest(lower: Lowering, ms: seq<Message>, i: int, key: string) {
    0 <= i < |ms| && About(lower, ms[i], key) && forall j :: i < j < |ms| ==> !About(lower, ms[j], key)
  }

  /** A key is in place exactly if the latest message about it is an arrival, or none is and it was before. */
  lemma {:induction false} InPlaceIff(w: Watch, lower: Lowering, f: Filter, ms: seq<Message>, key: string)
    ensures key in ReceiveAll(w, lower, f, ms).seen <==>
      || (exists i :: Latest(lower, ms, i, key) && ms[i].event == 0x8000)
      || (key in w.seen && forall i :: 0 <= i < |ms| ==> !About(lower, ms[i], key))
  {
    if ms != [] {
      var front, m := ms[..|ms| - 1], ms[|ms| - 1];
      var before := ReceiveAll(w, lower, f, front);
      InPlaceIff(w, lower, f, front, key);
      if About(lower, m, key) {
        ReceiveHere(before, lower, f, m, key);
        assert Latest(lower, ms, |ms| - 1, key);
      } else {
        ReceiveElsewhere(before, lower, f, m, key);
        assert forall i :: 0 <= i < |front| ==> front[i] == ms[i];
        forall i ensures Latest(lower, ms, i, key) <==> Latest(lower, front, i, key) {}
      }
    }
  }

  // ---------------------------------------------------------------- every history

  lemma {:induction false} SnapshotSound(lower: Lowering, f: Filter, devices: seq<Device>, key: string)
    ensures Sound(Snapshot(lower, f, devices), f, key)
  {
    if devices != [] {
      var front, d := devices[..|devices| - 1], devices[|devices| - 1];
      SnapshotSound(lower, f, front, key);
      PutKeepsSound(Snapshot(lower, f, front), f, lower(d.path), d, key);
    }
  }

  lemma {:induction false} HistorySound(w: Watch, lower: Lowering, f: Filter, ms: seq<Message>, key: string)
    requires Sound(w, f, key)
    ensures Sound(ReceiveAll(w, lower, f, ms), f, key)
  {
    if ms != [] {
      var before, m := ReceiveAll(w, lower, f, ms[..|ms| - 1]), ms[|ms| - 1];
      HistorySound(w, lower, f, ms[..|ms| - 1], key);
      if m.broadcast.Some? {
        PutKeepsSound(before, f, lower(m.broadcast.value.name), m.built, key);
        DropKeepsSound(before, f, lower(m.broadcast.value.name), key);
      }
    }
  }

  // ---------------------------------------------------------------- taking turns

  /** No two devices of the snapshot share a key, unless the earlier one is filtered out. */
  ghost predicate NothingReportedTwice(lower: Lowering, f: Filter, devices: seq<Device>) {
    forall i, j :: 0 <= i < j < |devices| && lower(devices[i].path) == lower(devices[j].path) ==>
      !f.Matches(devices[i])
  }

  /** What the snapshot remembers under a key is its last device with that key. */
  lemma {:induction false} SnapshotSeen(lower: Lowering, f: Filter, devices: seq<Device>, key: string)
    ensures key in Snapshot(lower, f, devices).seen ==>
      exists i :: 0 <= i < |devices| && lower(devices[i].path) == key
                  && Snapshot(lower, f, devices).seen[key] == devices[i]
  {
    if devices != [] {
      var front, d := devices[..|devices| - 1], devices[|devices| - 1];
      SnapshotSeen(lower, f, front, key);
      if lower(d.path) == key {
        assert Snapshot(lower, f, devices).seen[key] == devices[|devices| - 1];
      } else if key in Snapshot(lower, f, front).seen {
        var i :| 0 <= i < |front| && lower(front[i].path) == key && Snapshot(lower, f, front).seen[key] == front[i];
        assert devices[i] == front[i];
      }
    }
  }

  lemma {:induction false} SnapshotAlternates(lower: Lowering, f: Filter, devices: seq<Device>, key: string)
    requires NothingReportedTwice(lower, f, devices)
    ensures Alternating(OnKey(Snapshot(lower, f, devices).log, key))
    ensures NoneOutstanding(Snapshot(lower, f, devices), f, key)
  {
    if devices != [] {
      var front, d := devices[..|devices| - 1], devices[|devices| - 1];
      forall i, j | 0 <= i < j < |front| && lower(front[i].path) == lower(front[j].path)
        ensures !f.Matches(front[i])
      {
        assert devices[i] == front[i] && devices[j] == front[j];
      }
      SnapshotAlternates(lower, f, front, key);
      SnapshotSound(lower, f, front, key);
      SnapshotSeen(lower, f, front, lower(d.path));
      PutAlternates(Snapshot(lower, f, front), f, lower(d.path), d, key);
    }
  }

  lemma {:induction false} ReceiveAlternates(w: Watch, lower: Lowering, f: Filter, m: Message, key: string)
    requires Sound(w, f, key) && Alternating(OnKey(w.log, key)) && NoneOutstanding(w, f, key)
    ensures Alternating(OnKey(Receive(w, lower, f, m).log, key)) && NoneOutstanding(Receive(w, lower, f, m), f, key)
  {
    if m.broadcast.Some? {
      var k := lower(m.broadcast.value.name);
      if k !in w.seen { PutAlternates(w, f, k, m.built, key); }
      DropAlternates(w, f, k, key);
    }
  }

  lemma {:induction false} HistoryAlternates(w: Watch, lower: Lowering, f: Filter, ms: seq<Message>, key: string)
    requires Sound(w, f, key) && Alternating(OnKey(w.log, key)) && NoneOutstanding(w, f, key)
    ensures Alternating(OnKey(ReceiveAll(w, lower, f, ms).log, key))
    ensures NoneOutstanding(ReceiveAll(w, lower, f, ms), f, key)
  {
    if ms != [] {
      var front, m := ms[..|ms| - 1], ms[|ms| - 1];
      HistoryAlternates(w, lower, f, front, key);
      HistorySound(w, lower, f, front, key);
      ReceiveAlternates(ReceiveAll(w, lower, f, front), lower, f, m, key);
    }
  }

  /** A message that a device left, and one that it arrived. */
  function LeftMessage(d: Device): Message {
    Message(DEVICE_REMOVE_COMPLETE, Some(Broadcast(DEVICE_INTERFACE, d.path)), d)
  }

  function ArrivedMessage(d: Device): Message {
    Message(DEVICE_ARRIVAL, Some(Broadcast(DEVICE_INTERFACE, d.path)), d)
  }

  /** A snapshot reports arrivals only. */
  lemma {:induction false} SnapshotArrives(lower: Lowering, f: Filter, devices: seq<Device>, key: string)
    ensures forall i :: 0 <= i < |OnKey(Snapshot(lower, f, devices).log, key)| ==>
              OnKey(Snapshot(lower, f, devices).log, key)[i].event == Arrived
  {
    if devices != [] {
      var front, d := devices[..|devices| - 1], devices[|devices| - 1];
      SnapshotArrives(lower, f, front, key);
      OnKeyReport(Snapshot(lower, f, front).log, f, lower(d.path), Arrived, d, key);
    }
  }

  lemma {:induction false} SnapshotReports(lower: Lowering, f: Filter, devices: seq<Device>, i: nat)
    requires i < |devices| && f.Matches(devices[i])
    ensures var key := lower(devices[i].path);
      OnKey(Snapshot(lower, f, devices).log, key) != [] && key in Snapshot(lower, f, devices).seen
  {
    var front, d := devices[..|devices| - 1], devices[|devices| - 1];
    OnKeyReport(Snapshot(lower, f, front).log, f, lower(d.path), Arrived, d, lower(devices[i].path));
    if i < |front| {
      assert front[i] == devices[i];
      SnapshotReports(lower, f, front, i);
    }
  }

  /** If the last device under a key is reported, and so was an earlier one, there are two calls. */
  lemma {:induction false} SnapshotReportsAgain(lower: Lowering, f: Filter, devices: seq<Device>, i: nat, j: nat)
    requires i < j < |devices| && f.Matches(devices[i]) && lower(devices[i].path) == lower(devices[j].path)
    requires lower(devices[i].path) in Snapshot(lower, f, devices).seen
    requires f.Matches(Snapshot(lower, f, devices).seen[lower(devices[i].path)])
    ensures |OnKey(Snapshot(lower, f, devices).log, lower(devices[i].path))| >= 2
  {
    var key := lower(devices[i].path);
    var front, d := devices[..|devices| - 1], devices[|devices| - 1];
    OnKeyReport(Snapshot(lower, f, front).log, f, lower(d.path), Arrived, d, key);
    assert front[i] == devices[i];
    if lower(d.path) == key {
      SnapshotReports(lower, f, front, i);
    } else {
      assert front[j] == devices[j];
      SnapshotReportsAgain(lower, f, front, i, j);
    }
  }

  /** A device in place that was not reported, after one that was, lets that one arrive a second time. */
  lemma {:induction false} SilentReplacementBreaksTurns(w: Watch, lower: Lowering, f: Filter, d: Device)
    requires f.Matches(d) && lower(d.path) in w.seen && !f.Matches(w.seen[lower(d.path)])
    requires var calls := OnKey(w.log, lower(d.path)); calls != [] && calls[|calls| - 1].event == Arrived
    ensures !Alternating(OnKey(ReceiveAll(w, lower, f, [LeftMessage(d), ArrivedMessage(d)]).log, lower(d.path)))
  {
    var key, both := lower(d.path), [LeftMessage(d), ArrivedMessage(d)];
    var left := Receive(w, lower, f, LeftMessage(d));
    assert both[..1] == [LeftMessage(d)] && both[..1][..0] == [];
    assert ReceiveAll(w, lower, f, []) == w;
    assert ReceiveAll(w, lower, f, both[..1]) == left;
    OnKeyReport(left.log, f, key, Arrived, d, key);
    var before, calls := OnKey(w.log, key), OnKey(ReceiveAll(w, lower, f, both).log, key);
    assert calls == before + [Call(key, Arrived, d)];
    assert calls[|before| - 1].event == Arrived && calls[|before|].event == Arrived;
  }

  /** The calls for one key after the snapshot and the messages take turns. */
  ghost predicate TakesTurns(lower: Lowering, f: Filter, devices: seq<Device>, ms: seq<Message>, key: string) {
    Alternating(OnKey(ReceiveAll(Snapshot(lower, f, devices), lower, f, ms).log, key))
  }

  lemma DistinctKeysTakeTurns(lower: Lowering, f: Filter, devices: seq<Device>, ms: seq<Message>, key: string)
    requires NothingReportedTwice(lower, f, devices)
    ensures TakesTurns(lower, f, devices, ms, key)
  {
    SnapshotSound(lower, f, devices, key);
    SnapshotAlternates(lower, f, devices, key);
    HistoryAlternates(Snapshot(lower, f, devices), lower, f, ms, key);
  }

  lemma TwoArrivalsBreakTurns(calls: seq<Call>)
    requires |calls| >= 2 && forall i :: 0 <= i < |calls| ==> calls[i].event == Arrived
    ensures !Alternating(calls)
  {
    assert calls[0].event == Arrived && calls[1].event == Arrived;
  }

  lemma SharedKeyBreaksTurns(lower: Lowering, f: Filter, devices: seq<Device>, i: nat, j: nat)
    requires i < j < |devices| && f.Matches(devices[i]) && lower(devices[i].path) == lower(devices[j].path)
    ensures exists ms :: !TakesTurns(lower, f, devices, ms, lower(devices[i].path))
  {
    var w, key := Snapshot(lower, f, devices), lower(devices[i].path);
    SnapshotArrives(lower, f, devices, key);
    SnapshotReports(lower, f, devices, i);
    if f.Matches(w.seen[key]) {
      SnapshotReportsAgain(lower, f, devices, i, j);
      TwoArrivalsBreakTurns(OnKey(w.log, key));
      assert ReceiveAll(w, lower, f, []) == w;
      assert !TakesTurns(lower, f, devices, [], key);
    } else {
      SilentReplacementBreaksTurns(w, lower, f, devices[i]);
      assert !TakesTurns(lower, f, devices, [LeftMessage(devices[i]), ArrivedMessage(devices[i])], key);
    }
  }

  /**
   For every later message sequence and every path the callbacks alternate Arrived and Left,
   starting with Arrived, each Left with its Arrived's device, exactly when the snapshot holds no
   reported device whose path another, later one has. Distinct paths are enough for that.
   */
  lemma TurnsIff(lower: Lowering, f: Filter, devices: seq<Device>)
    ensures (forall ms, key :: TakesTurns(lower, f, devices, ms, key)) <==> NothingReportedTwice(lower, f, devices)
  {
    if NothingReportedTwice(lower, f, devices) {
      forall ms, key ensures TakesTurns(lower, f, devices, ms, key) {
        DistinctKeysTakeTurns(lower, f, devices, ms, key);
      }
    } else {
      var i, j :| 0 <= i < j < |devices| && lower(devices[i].path) == lower(devices[j].path) && f.Matches(devices[i]);
      SharedKeyBreaksTurns(lower, f, devices, i, j);
    }
  }

  /** For instance when the snapshot lists a device twice, which then arrives twice. */
  lemma ListedTwiceArrivesTwice(lower: Lowering, d: Device)
    ensures !TakesTurns(lower, Filter(0, 0), [d, d], [], lower(d.path))
  {
    var f, both := Filter(0, 0), [d, d];
    var w := Snapshot(lower, f, both);
    SnapshotArrives(lower, f, both, lower(d.path));
    SnapshotReports(lower, f, both, 0);
    SnapshotReportsAgain(lower, f, both, 0, 1);
    TwoArrivalsBreakTurns(OnKey(w.log, lower(d.path)));
    assert ReceiveAll(w, lower, f, []) == w;
  }

  // ---------------------------------------------------------------- the handle

  class HotplugHandle {
    const filter: Filter
    const lower: Lowering
    var seen: map<string, Device>
    var stopped: bool
    var log: seq<Call> // the callbacks made

    constructor (filter: Filter, lower: Lowering)
      ensures this.filter == filter && this.lower == lower && View() == EMPTY && !stopped
    {
      this.filter, this.lower := filter, lower;
      seen, log, stopped := map[], [], false;
    }

    ghost function View(): Watch
      reads this
    {
      Watch(seen, log)
    }

    method Callback(key: string, event: Event, device: Device)
      modifies this`log
      ensures log == Report(old(log), filter, key, event, device)
    {
      if filter.Matches(device) {
        log := log + [Call(key, event, device)];
      }
    }

    /** One WM_DEVICECHANGE message. */
    method OnDeviceChange(m: Message)
      modifies this`seen, this`log
      ensures View() == Receive(old(View()), lower, filter, m)
    {
      if m.broadcast.None? {
        return;
      }
      if m.broadcast.value.deviceType != DEVICE_INTERFACE {
        return;
      }
      var key := lower(m.broadcast.value.name);
      if m.event == DEVICE_ARRIVAL {
        if key in seen {
          return;
        }
        seen := seen[key := m.built];
        Callback(key, Arrived, m.built);
      } else if m.event == DEVICE_REMOVE_COMPLETE {
        if key !in seen {
          return;
        }
        var device := seen[key];
        seen := seen - {key};
        Callback(key, Left, device);
      }
    }

    /** Reports the devices already there, before the first message. */
    method DeliverSnapshot(devices: seq<Device>)
      requires View() == EMPTY
      modifies this`seen, this`log
      ensures View() == Snapshot(lower, filter, devices)
    {
      for i := 0 to |devices|
        invariant View() == Snapshot(lower, filter, devices[..i])
      {
        var key := lower(devices[i].path);
        assert devices[..i + 1][..i] == devices[..i];
        seen := seen[key := devices[i]];
        Callback(key, Arrived, devices[i]);
      }
      assert devices[..|devices|] == devices;
    }

    /** The message loop, for the messages that come before the window is destroyed. */
    method Pump(devices: seq<Device>, messages: seq<Message>)
      requires View() == EMPTY
      modifies this`seen, this`log
      ensures View() == ReceiveAll(Snapshot(lower, filter, devices), lower, filter, messages)
      ensures NothingReportedTwice(lower, filter, devices) ==> forall key :: Alternating(OnKey(log, key))
    {
      DeliverSnapshot(devices);
      for i := 0 to |messages|
        invariant View() == ReceiveAll(Snapshot(lower, filter, devices), lower, filter, messages[..i])
      {
        assert messages[..i + 1][..i] == messages[..i];
        OnDeviceChange(messages[i]);
      }
      assert messages[..|messages|] == messages;
      if NothingReportedTwice(lower, filter, devices) {
        forall key ensures Alternating(OnKey(log, key)) {
          DistinctKeysTakeTurns(lower, filter, devices, messages, key);
        }
      }
    }

    /** Only the first call asks the window to close. */
    method Deregister() returns (closeWindow: bool)
      modifies this`stopped
      ensures stopped && closeWindow == !old(stopped)
    {
      if stopped {
        return false;
      }
      stopped := true;
      closeWindow := true;
    }
  }
}
