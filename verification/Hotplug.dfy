/** What both hotplug watchers share: devices, callbacks, the filter, and one key's share of a history. */
module Hotplug {
  import opened Core

  datatype Device = Device(path: string, bus: byte, address: byte, vendorID: word, productID: word)

  datatype Event = Arrived | Left

  /** One invocation of the user's callback, with the key it was made for. */
  datatype Call = Call(key: string, event: Event, device: Device)

  /** The watcher's filter; zero matches anything. */
  datatype Filter = Filter(vendorID: word, productID: word) {
    predicate Matches(d: Device) {
      (vendorID == 0 || d.vendorID == vendorID) && (productID == 0 || d.productID == productID)
    }
  }

  /** Both numbers must agree, and zero agrees with every number: the four kinds of filter. */
  lemma {:induction false} MatchesIff(f: Filter, d: Device)
    ensures f == Filter(0, 0) ==> f.Matches(d)
    ensures f.vendorID != 0 && f.productID == 0 ==> (f.Matches(d) <==> f.vendorID == d.vendorID)
    ensures f.vendorID == 0 && f.productID != 0 ==> (f.Matches(d) <==> f.productID == d.productID)
    ensures f.vendorID != 0 && f.productID != 0 ==>
      (f.Matches(d) <==> f.vendorID == d.vendorID && f.productID == d.productID)
  {
  }

  /** The devices in place, by key, and the callbacks made so far. */
  datatype Watch = Watch(seen: map<string, Device>, log: seq<Call>)

  const EMPTY := Watch(map[], [])

  /** The callback, made only for a device the filter admits. */
  function Report(log: seq<Call>, f: Filter, key: string, event: Event, d: Device): seq<Call> {
    if f.Matches(d) then log + [Call(key, event, d)] else log
  }

  /** A device in place: remembered, replacing whatever had its key, and reported. */
  function Put(w: Watch, f: Filter, key: string, d: Device): Watch {
    Watch(w.seen[key := d], Report(w.log, f, key, Arrived, d))
  }

  /** A device gone: reported as it was remembered; unknown keys are ignored. */
  function Drop(w: Watch, f: Filter, key: string): Watch {
    if key in w.seen then Watch(w.seen - {key}, Report(w.log, f, key, Left, w.seen[key])) else w
  }

  /** The calls made for one key. */
  function OnKey(log: seq<Call>, key: string): seq<Call> {
    if log == [] then []
    else
      var rest := OnKey(log[..|log| - 1], key);
      if log[|log| - 1].key == key then rest + [log[|log| - 1]] else rest
  }

  lemma {:induction false} OnKeySnoc(log: seq<Call>, c: Call, key: string)
    ensures OnKey(log + [c], key) == if c.key == key then OnKey(log, key) + [c] else OnKey(log, key)
  {
    assert (log + [c])[..|log|] == log;
  }

  lemma {:induction false} OnKeyReport(log: seq<Call>, f: Filter, k: string, e: Event, d: Device, key: string)
    ensures OnKey(Report(log, f, k, e, d), key) ==
            if k == key && f.Matches(d) then OnKey(log, key) + [Call(k, e, d)] else OnKey(log, key)
  {
    OnKeySnoc(log, Call(k, e, d), key);
  }

  /** Every Left comes right after an Arrived of the same device. */
  ghost predicate LeftFollowsArrived(calls: seq<Call>) {
    && (calls != [] ==> calls[0].event == Arrived)
    && forall i, j :: 0 <= i && j == i + 1 < |calls| && calls[j].event == Left ==>
         calls[i].event == Arrived && calls[i].device == calls[j].device
  }

  /** Arrived and Left take turns, Arrived first, and each Left carries the device of its Arrived. */
  ghost predicate Alternating(calls: seq<Call>) {
    && LeftFollowsArrived(calls)
    && forall i, j :: 0 <= i && j == i + 1 < |calls| && calls[j].event == Arrived ==> calls[i].event == Left
  }

  /** A matching device in place was the last to be reported for its key, as arrived. */
  ghost predicate ReportedLast(w: Watch, f: Filter, key: string) {
    key in w.seen && f.Matches(w.seen[key]) ==>
      var calls := OnKey(w.log, key);
      calls != [] && calls[|calls| - 1] == Call(key, Arrived, w.seen[key])
  }

  /** What every history of a watcher keeps, duplicates or not. */
  ghost predicate Sound(w: Watch, f: Filter, key: string) {
    LeftFollowsArrived(OnKey(w.log, key)) && ReportedLast(w, f, key)
  }

  /** Nothing is reported as present unless it is in place. */
  ghost predicate NoneOutstanding(w: Watch, f: Filter, key: string) {
    !(key in w.seen && f.Matches(w.seen[key])) ==>
      var calls := OnKey(w.log, key);
      calls == [] || calls[|calls| - 1].event == Left
  }

  lemma ArrivedTakesTurn(calls: seq<Call>, c: Call)
    requires Alternating(calls) && c.event == Arrived && (calls == [] || calls[|calls| - 1].event == Left)
    ensures Alternating(calls + [c])
  {
  }

  lemma LeftTakesTurn(calls: seq<Call>, c: Call)
    requires Alternating(calls) && c.event == Left && calls != []
    requires calls[|calls| - 1].event == Arrived && calls[|calls| - 1].device == c.device
    ensures Alternating(calls + [c])
  {
  }

  lemma ArrivedKeepsFollowing(calls: seq<Call>, c: Call)
    requires LeftFollowsArrived(calls) && c.event == Arrived
    ensures LeftFollowsArrived(calls + [c])
  {
  }

  lemma LeftKeepsFollowing(calls: seq<Call>, c: Call)
    requires LeftFollowsArrived(calls) && c.event == Left && calls != []
    requires calls[|calls| - 1].event == Arrived && calls[|calls| - 1].device == c.device
    ensures LeftFollowsArrived(calls + [c])
  {
  }

  /** The calls for a key and the device in place there, seen apart from the rest. */
  ghost predicate SoundAt(calls: seq<Call>, key: string, reported: Option<Device>) {
    && LeftFollowsArrived(calls)
    && (reported.Some? ==> calls != [] && calls[|calls| - 1] == Call(key, Arrived, reported.value))
  }

  /** The device in place at the key, if the filter admits it. */
  function InPlace(w: Watch, f: Filter, key: string): Option<Device> {
    if key in w.seen && f.Matches(w.seen[key]) then Some(w.seen[key]) else None
  }

  lemma {:induction false} SoundMeans(w: Watch, f: Filter, key: string)
    ensures Sound(w, f, key) <==> SoundAt(OnKey(w.log, key), key, InPlace(w, f, key))
  {
  }

  lemma {:induction false} PutAt(w: Watch, f: Filter, k: string, d: Device, key: string)
    ensures OnKey(Put(w, f, k, d).log, key) ==
            if k == key && f.Matches(d) then OnKey(w.log, key) + [Call(k, Arrived, d)] else OnKey(w.log, key)
    ensures InPlace(Put(w, f, k, d), f, key) ==
            if k != key then InPlace(w, f, key) else if f.Matches(d) then Some(d) else None
  {
    OnKeyReport(w.log, f, k, Arrived, d, key);
  }

  lemma SoundAtNext(calls: seq<Call>, key: string, reported: Option<Device>, d: Device)
    requires SoundAt(calls, key, reported)
    ensures SoundAt(calls + [Call(key, Arrived, d)], key, Some(d)) && SoundAt(calls, key, None)
  {
    ArrivedKeepsFollowing(calls, Call(key, Arrived, d));
  }

  lemma PutKeepsSound(w: Watch, f: Filter, k: string, d: Device, key: string)
    requires Sound(w, f, key)
    ensures Sound(Put(w, f, k, d), f, key)
  {
    SoundMeans(w, f, key);
    PutAt(w, f, k, d, key);
    SoundAtNext(OnKey(w.log, key), key, InPlace(w, f, key), d);
    SoundMeans(Put(w, f, k, d), f, key);
  }

  lemma DropKeepsSound(w: Watch, f: Filter, k: string, key: string)
    requires Sound(w, f, key)
    ensures Sound(Drop(w, f, k), f, key)
  {
    if k in w.seen {
      OnKeyReport(w.log, f, k, Left, w.seen[k], key);
      if k == key && f.Matches(w.seen[k]) { LeftKeepsFollowing(OnKey(w.log, key), Call(k, Left, w.seen[k])); }
    }
  }

  /** A key that is new, or whose device was never reported, can be put without breaking the turns. */
  lemma {:induction false} PutAlternates(w: Watch, f: Filter, k: string, d: Device, key: string)
    requires Sound(w, f, key) && Alternating(OnKey(w.log, key)) && NoneOutstanding(w, f, key)
    requires k in w.seen ==> !f.Matches(w.seen[k])
    ensures Alternating(OnKey(Put(w, f, k, d).log, key)) && NoneOutstanding(Put(w, f, k, d), f, key)
  {
    OnKeyReport(w.log, f, k, Arrived, d, key);
    if k == key && f.Matches(d) { ArrivedTakesTurn(OnKey(w.log, key), Call(k, Arrived, d)); }
  }

  lemma {:induction false} DropAlternates(w: Watch, f: Filter, k: string, key: string)
    requires Sound(w, f, key) && Alternating(OnKey(w.log, key)) && NoneOutstanding(w, f, key)
    ensures Alternating(OnKey(Drop(w, f, k).log, key)) && NoneOutstanding(Drop(w, f, k), f, key)
  {
    if k in w.seen {
      OnKeyReport(w.log, f, k, Left, w.seen[k], key);
      if k == key && f.Matches(w.seen[k]) { LeftTakesTurn(OnKey(w.log, key), Call(k, Left, w.seen[k])); }
    }
  }
}
