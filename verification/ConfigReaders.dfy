/**
 What the readers of a configuration's bytes do on every input, well-formed or not: where a walk stops,
 which chunks count, which descriptor is refused, and which byte is which field.
 */
module ConfigReaders {
  import opened Core
  import opened Descriptors
  import opened ConfigGroups
  import opened ConfigEncode
  import opened ConfigLists
  import opened ConfigWalks
  import opened ConfigExamples
  import Unmarshal = ConfigUnmarshal

  // ---------------------------------------------------------------- where a walk goes

  /** Chunk i of a walk that began at pos lies where the chunks before it end. */
  ghost predicate WalkedAt(data: seq<byte>, pos: nat, limit: int, cs: seq<Chunk>, i: nat)
    requires i < |cs|
  {
    var at := pos + |Flatten(cs[..i])|;
    HasCut(data, at, limit) && cs[i] == Chunk(data[at + 1], data[at..at + data[at]])
  }

  /** The chunks follow each other from pos on, each where the walker goes on, and it does not go on behind the last. */
  ghost predicate IsWalkOf(data: seq<byte>, pos: nat, limit: int, cs: seq<Chunk>) {
    && (forall i :: 0 <= i < |cs| ==> WalkedAt(data, pos, limit, cs, i))
    && !HasCut(data, pos + |Flatten(cs)|, limit)
  }

  lemma WalkedLater(data: seq<byte>, pos: nat, limit: int, cs: seq<Chunk>, next: nat, i: nat)
    requires cs != [] && 0 < i < |cs| && next == pos + |cs[0].bytes|
    ensures WalkedAt(data, pos, limit, cs, i) <==> WalkedAt(data, next, limit, cs[1..], i - 1)
  {
    assert cs[..i] == [cs[0]] + cs[1..][..i - 1];
    FlattenCons(cs[0], cs[1..][..i - 1]);
  }

  lemma WalkTail(data: seq<byte>, pos: nat, limit: int, cs: seq<Chunk>, next: nat)
    requires cs != [] && next == pos + |cs[0].bytes| && WalkedAt(data, pos, limit, cs, 0)
    ensures IsWalkOf(data, pos, limit, cs) <==> IsWalkOf(data, next, limit, cs[1..])
  {
    var rest := cs[1..];
    assert cs == [cs[0]] + rest;
    FlattenCons(cs[0], rest);
    if IsWalkOf(data, pos, limit, cs) {
      forall i | 0 <= i < |rest| ensures WalkedAt(data, next, limit, rest, i) {
        WalkedLater(data, pos, limit, cs, next, i + 1);
      }
    }
    if IsWalkOf(data, next, limit, rest) {
      forall i | 0 <= i < |cs| ensures WalkedAt(data, pos, limit, cs, i) {
        if i > 0 { WalkedLater(data, pos, limit, cs, next, i); }
      }
    }
  }

  /** On every input and with every limit the walkers visit exactly these chunks. */
  lemma {:induction false} CutIff(data: seq<byte>, pos: nat, limit: int, cs: seq<Chunk>)
    ensures cs == Cut(data, pos, limit) <==> IsWalkOf(data, pos, limit, cs)
    decreases |cs|
  {
    if cs == [] {
      assert Flatten(cs) == [];
    } else {
      assert cs[..0] == [];
      if WalkedAt(data, pos, limit, cs, 0) {
        var next := pos + data[pos];
        CutStep(data, pos, limit, next);
        CutIff(data, next, limit, cs[1..]);
        WalkTail(data, pos, limit, cs, next);
        assert cs == [cs[0]] + cs[1..];
      }
    }
  }

  // ---------------------------------------------------------------- which chunks count

  /** The flat lists keep byte order, and of a chunk they take an interface of 9 bytes or an endpoint of 7. */
  lemma {:induction false} FlatListsOf(a: seq<Chunk>, c: Chunk)
    ensures InterfacesIn(a + [c]) ==
            InterfacesIn(a) + (if c.kind == 4 && |c.bytes| >= 9 then [c.AsInterface()] else [])
    ensures EndpointsIn(a + [c]) ==
            EndpointsIn(a) + (if c.kind == 5 && |c.bytes| >= 7 then [c.AsEndpoint()] else [])
  {
    InterfacesInAppend(a, [c]);
    EndpointsInAppend(a, [c]);
    assert [c][1..] == [];
  }

  /** Chunk i is an endpoint with the address: the scan needs three of its bytes. */
  predicate HasAddress(cs: seq<Chunk>, addr: byte, i: nat)
    requires i < |cs|
  {
    cs[i].kind == 5 && |cs[i].bytes| >= 3 && cs[i].bytes[2] == addr
  }

  /** The chunk gives the scan a new interface number. */
  predicate Counts(c: Chunk) { c.kind == 4 && |c.bytes| >= 9 }

  /** The interface number last seen before chunk i, not counting interface chunks of fewer than 9 bytes. */
  ghost predicate CurrentAt(cs: seq<Chunk>, current: byte, i: nat, n: byte)
    requires i <= |cs|
  {
    || (n == current && forall k :: 0 <= k < i ==> !Counts(cs[k]))
    || exists k :: 0 <= k < i && LastCounted(cs, k, i) && cs[k].bytes[2] == n
  }

  ghost predicate LastCounted(cs: seq<Chunk>, k: nat, i: nat)
    requires k < i <= |cs|
  {
    Counts(cs[k]) && forall m :: k < m < i ==> !Counts(cs[m])
  }

  /** Chunk i is the first endpoint with the address, and n is the interface number current there. */
  ghost predicate OwnedBy(cs: seq<Chunk>, current: byte, addr: byte, i: int, n: byte) {
    && 0 <= i < |cs| && HasAddress(cs, addr, i) && CurrentAt(cs, current, i, n)
    && forall k :: 0 <= k < i ==> !HasAddress(cs, addr, k)
  }

  lemma {:induction false} CurrentTail(cs: seq<Chunk>, current: byte, i: nat, n: byte)
    requires 0 < i <= |cs|
    ensures CurrentAt(cs, current, i, n) <==>
            CurrentAt(cs[1..], if Counts(cs[0]) then cs[0].bytes[2] else current, i - 1, n)
  {
    var rest, next := cs[1..], if Counts(cs[0]) then cs[0].bytes[2] else current;
    assert forall k :: 0 < k < |cs| ==> cs[k] == rest[k - 1];
    if CurrentAt(rest, next, i - 1, n) {
      if k :| 0 <= k < i - 1 && LastCounted(rest, k, i - 1) && rest[k].bytes[2] == n {
        assert LastCounted(cs, k + 1, i) && cs[k + 1].bytes[2] == n;
      } else if Counts(cs[0]) {
        assert LastCounted(cs, 0, i);
      }
    }
    if CurrentAt(cs, current, i, n) {
      if k :| 0 <= k < i && LastCounted(cs, k, i) && cs[k].bytes[2] == n {
        if k > 0 { assert LastCounted(rest, k - 1, i - 1) && rest[k - 1].bytes[2] == n; }
      }
    }
  }

  /** On every list of chunks the scan finds the interface number current at the first endpoint with the address. */
  lemma {:induction false} FirstOwnerIff(cs: seq<Chunk>, current: byte, addr: byte, n: byte)
    ensures FirstOwner(cs, current, addr) == Some(n) <==> exists i :: OwnedBy(cs, current, addr, i, n)
  {
    if cs != [] {
      var rest, next := cs[1..], if Counts(cs[0]) then cs[0].bytes[2] else current;
      FirstOwnerIff(rest, next, addr, n);
      assert forall k :: 0 < k < |cs| ==> (HasAddress(cs, addr, k) <==> HasAddress(rest, addr, k - 1));
      assert forall k :: 0 <= k < |rest| ==> (HasAddress(rest, addr, k) <==> HasAddress(cs, addr, k + 1));
      if HasAddress(cs, addr, 0) {
        assert CurrentAt(cs, current, 0, current);
        assert OwnedBy(cs, current, addr, 0, current);
      } else {
        if i :| OwnedBy(rest, next, addr, i, n) {
          CurrentTail(cs, current, i + 1, n);
          assert OwnedBy(cs, current, addr, i + 1, n);
        }
        if i :| OwnedBy(cs, current, addr, i, n) {
          CurrentTail(cs, current, i, n);
          assert OwnedBy(rest, next, addr, i - 1, n);
        }
      }
    }
  }

  // ---------------------------------------------------------------- what is refused

  /** Chunk i is refused: an interface of fewer than 9 bytes, or behind an interface an endpoint of fewer than 7. */
  ghost predicate Refused(cs: seq<Chunk>, inInterface: bool, i: nat)
    requires i < |cs|
  {
    || (cs[i].kind == 4 && |cs[i].bytes| < 9)
    || (cs[i].kind == 5 && |cs[i].bytes| < 7 && (inInterface || exists k :: 0 <= k < i && cs[k].kind == 4))
  }

  function Refusal(c: Chunk): ParseError {
    if c.kind == 4 then InterfaceTooShort(|c.bytes|) else EndpointTooShort(|c.bytes|)
  }

  ghost predicate FirstRefused(cs: seq<Chunk>, inInterface: bool, i: int, e: ParseError) {
    && 0 <= i < |cs| && Refused(cs, inInterface, i) && e == Refusal(cs[i])
    && forall k :: 0 <= k < i ==> !Refused(cs, inInterface, k)
  }

  lemma RefusedTail(cs: seq<Chunk>, inInterface: bool, i: nat)
    requires 0 < i < |cs|
    ensures Refused(cs, inInterface, i) <==> Refused(cs[1..], inInterface || cs[0].kind == 4, i - 1)
  {
    assert forall k :: 0 < k < |cs| ==> cs[k] == cs[1..][k - 1];
  }

  /** Parsing fails exactly at the first chunk refused, with an error that names its length. */
  lemma {:induction false} FirstErrorIff(cs: seq<Chunk>, inInterface: bool, e: ParseError)
    ensures FirstError(cs, inInterface) == Some(e) <==> exists i :: FirstRefused(cs, inInterface, i, e)
  {
    if cs != [] {
      var rest, later := cs[1..], inInterface || cs[0].kind == 4;
      FirstErrorIff(rest, later, e);
      forall k | 0 < k < |cs| ensures Refused(cs, inInterface, k) <==> Refused(rest, later, k - 1) {
        RefusedTail(cs, inInterface, k);
      }
      assert forall k :: 0 <= k < |rest| ==> (Refused(rest, later, k) <==> Refused(cs, inInterface, k + 1));
      if Refused(cs, inInterface, 0) {
        assert FirstRefused(cs, inInterface, 0, Refusal(cs[0]));
      } else {
        if i :| FirstRefused(rest, later, i, e) { assert FirstRefused(cs, inInterface, i + 1, e); }
        if i :| FirstRefused(cs, inInterface, i, e) { assert FirstRefused(rest, later, i - 1, e); }
      }
    }
  }

  // ---------------------------------------------------------------- which byte is which field

  /** An association, then an interface with a class descriptor, an endpoint and the endpoint's companion. */
  function SampleChunks(): seq<Chunk> {
    [Chunk(0x0B, [3, 0x0B, 1])] + SampleInterface()
  }

  function SampleInterface(): seq<Chunk> {
    [Chunk(4, [9, 4, 3, 1, 1, 8, 6, 0x50, 5])] + SampleOwned()
  }

  function SampleOwned(): seq<Chunk> {
    [Chunk(0x21, [3, 0x21, 9]), Chunk(5, [7, 5, 0x81, 2, 0, 4, 10]), Chunk(0x30, [6, 0x30, 15, 7, 0x34, 0x12])]
  }

  function SampleBytes(): seq<byte> {
    [9, 2, 0x12, 0x01, 1, 7, 4, 0xA0, 50]
    + ([3, 0x0B, 1]
       + ([9, 4, 3, 1, 1, 8, 6, 0x50, 5]
          + ([3, 0x21, 9] + ([7, 5, 0x81, 2, 0, 4, 10] + [6, 0x30, 15, 7, 0x34, 0x12]))))
  }

  function SampleSetting(): AltSetting {
    AltSetting(
      InterfaceDescriptor(length := 9, descriptorType := 4, interfaceNumber := 3, alternateSetting := 1,
                          numEndpoints := 1, interfaceClass := 8, interfaceSubClass := 6,
                          interfaceProtocol := 0x50, interfaceIndex := 5),
      [Endpoint(
         EndpointDescriptor(length := 7, descriptorType := 5, endpointAddr := 0x81, attributes := 2,
                            maxPacketSize := 0x0400, interval := 10),
         Some(Companion(length := 6, descriptorType := 0x30, maxBurst := 15, attributes := 7,
                        bytesPerInterval := 0x1234)),
         [])],
      [3, 0x21, 9])
  }

  lemma SampleFlattens()
    ensures SampleBytes()[CONFIG_SIZE..] == Flatten(SampleChunks()) && AllWhole(SampleChunks())
  {
    var o := SampleOwned();
    FlattenCons(Chunk(0x0B, [3, 0x0B, 1]), SampleInterface());
    FlattenCons(Chunk(4, [9, 4, 3, 1, 1, 8, 6, 0x50, 5]), o);
    assert o == [o[0]] + ([o[1]] + [o[2]]);
    FlattenCons(o[0], [o[1]] + [o[2]]);
    FlattenCons(o[1], [o[2]]);
    FlattenOne(o[2]);
  }

  lemma SampleOwnedMeans()
    ensures Endpoints(SampleOwned()) == SampleSetting().endpoints
    ensures Leftover(SampleOwned()) == [3, 0x21, 9] && Lead(SampleOwned()) == 3
    ensures FirstError(SampleOwned(), true).None?
  {
    var o := SampleOwned();
    assert o[1..] == [o[1], o[2]] && o[1..][1..] == [o[2]] && o[1..][2..] == [] && [o[2]][1..] == [];
  }

  lemma SampleSettings()
    ensures AltSettings(SampleInterface()) == [SampleSetting()]
    ensures FirstError(SampleChunks(), false).None? && Lead(SampleChunks()) == 1
  {
    SampleOwnedMeans();
    var o := SampleOwned();
    assert o + [] == o && SampleInterface()[1..] == o && SampleChunks()[1..] == SampleInterface();
    AltSettingsFirst(SampleInterface()[0], o, []);
  }

  lemma SampleGroups()
    ensures Groups([SampleSetting()], 0) == [Interface([SampleSetting()])]
  {
    var gs := [Interface([SampleSetting()])];
    assert gs[1..] == [] && Ungroup(gs) == [SampleSetting()];
    GroupsOfUngroup(gs, 0);
  }

  lemma SampleCut()
    ensures Chunks(SampleBytes(), CONFIG_SIZE) == SampleChunks()
    ensures Preamble(SampleBytes()) == [SampleChunks()[0]] && Body(SampleBytes()) == SampleInterface()
  {
    var cs := SampleChunks();
    SampleFlattens();
    ChunksOfFlatten(SampleBytes(), CONFIG_SIZE, cs);
    SampleSettings();
    assert cs[..1] == [cs[0]] && cs[1..] == SampleInterface();
  }

  lemma SampleHeader()
    ensures |SampleBytes()| >= CONFIG_SIZE
    ensures ParseHeader(SampleBytes()) ==
            Header(length := 9, descriptorType := 2, totalLength := 0x0112, numInterfaces := 1,
                   configurationValue := 7, configurationIndex := 4, attributes := 0xA0, maxPower := 50)
  {
  }

  /** Every field of every descriptor is read from its place in these bytes, words low byte first. */
  lemma SampleParses()
    ensures Parse(SampleBytes()) == Success(Config(
      Header(length := 9, descriptorType := 2, totalLength := 0x0112, numInterfaces := 1,
             configurationValue := 7, configurationIndex := 4, attributes := 0xA0, maxPower := 50),
      [Interface([SampleSetting()])],
      [3, 0x0B, 1]))
  {
    SampleCut();
    SampleSettings();
    SampleGroups();
    FlattenOne(SampleChunks()[0]);
    SampleHeader();
  }
}
