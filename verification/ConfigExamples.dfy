/** Configurations on which the readers differ, or drop what they read. */
module ConfigExamples {
  import opened Core
  import opened Descriptors
  import opened ConfigGroups
  import opened ConfigEncode
  import opened ConfigLists
  import opened ConfigWalks
  import Unmarshal = ConfigUnmarshal

  function HeaderOf(total: byte): seq<byte> {
    [9, 2, total, 0, 1, 1, 0, 0x80, 50]
  }

  function InterfaceNumbered(n: byte): Chunk {
    Chunk(DT_INTERFACE, [9, 4, n, 0, 1, 0xFF, 0, 0, 0])
  }

  function EndpointAt(addr: byte): Chunk {
    Chunk(DT_ENDPOINT, [7, 5, addr, 2, 64, 0, 0])
  }

  /** A configuration of these chunks. */
  function Data(cs: seq<Chunk>): seq<byte>
    requires CONFIG_SIZE + |Flatten(cs)| < BYTE_LIMIT
  {
    HeaderOf(CONFIG_SIZE + |Flatten(cs)|) + Flatten(cs)
  }

  lemma {:induction false} DataIsStandard(cs: seq<Chunk>)
    requires CONFIG_SIZE + |Flatten(cs)| < BYTE_LIMIT && AllWhole(cs) && FirstError(cs, false).None?
    ensures Chunks(Data(cs), CONFIG_SIZE) == cs && Standard(Data(cs))
    ensures Preamble(Data(cs)) == cs[..Lead(cs)] && Body(Data(cs)) == cs[Lead(cs)..]
  {
    ChunksOfFlatten(Data(cs), CONFIG_SIZE, cs);
  }

  lemma FlattenOne(c: Chunk)
    ensures Flatten([c]) == c.bytes
  {
    assert [c][1..] == [];
  }

  lemma {:induction false} FlattenCons(c: Chunk, cs: seq<Chunk>)
    ensures Flatten([c] + cs) == c.bytes + Flatten(cs)
  {
    assert ([c] + cs)[1..] == cs;
  }

  // ---------------------------------------------------------------- number 255

  lemma {:induction false} NoGroups(alts: seq<AltSetting>, n: byte)
    requires n <= NUMBER_LIMIT && forall i :: 0 <= i < |alts| ==> alts[i].desc.interfaceNumber == NUMBER_LIMIT
    ensures Groups(alts, n) == []
    decreases NUMBER_LIMIT - n
  {
    if n < NUMBER_LIMIT {
      NoneNumbered(alts, n);
      NoGroups(alts, n + 1);
    }
  }

  lemma OneInterface(n: byte)
    ensures AltSettings([InterfaceNumbered(n)]) == [AltSetting(InterfaceNumbered(n).AsInterface(), [], [])]
    ensures FirstError([InterfaceNumbered(n)], false).None? && AllWhole([InterfaceNumbered(n)])
    ensures Lead([InterfaceNumbered(n)]) == 0 && |Flatten([InterfaceNumbered(n)])| == 9
  {
    var cs := [InterfaceNumbered(n)];
    assert cs[1..] == [] && cs[1..0 + 1] == [] && cs[0 + 1..] == [];
    FlattenOne(cs[0]);
  }

  /** An interface numbered 255 parses without an error and is in no interface; the flat walk lists it. */
  lemma Number255IsDropped()
    ensures var data := Data([InterfaceNumbered(255)]);
      && Parse(data).Success? && Parse(data).value.interfaces == []
      && InterfacesIn(Cut(data, data[0], LittleEndian16(data[2], data[3]))) == [InterfaceNumbered(255).AsInterface()]
  {
    var cs := [InterfaceNumbered(255)];
    OneInterface(255);
    DataIsStandard(cs);
    assert cs[0..] == cs;
    NoGroups(AltSettings(cs), 0);
    CutIsChunks(Data(cs), CONFIG_SIZE, |Data(cs)|);
    assert cs[1..] == [];
  }

  // ---------------------------------------------------------------- a stray byte

  /** The parser goes on behind a chunk of one byte and finds the interface; the walkers stop. */
  lemma StrayByteHidesInterface()
    ensures var data := HeaderOf(19) + [1] + InterfaceNumbered(0).bytes;
      && Parse(data).Success? && AltSettings(Body(data)) == [AltSetting(InterfaceNumbered(0).AsInterface(), [], [])]
      && Cut(data, data[0], LittleEndian16(data[2], data[3])) == []
  {
    var data, iface := HeaderOf(19) + [1] + InterfaceNumbered(0).bytes, [InterfaceNumbered(0)];
    var cs := Chunks(data, CONFIG_SIZE);
    OneInterface(0);
    FlattenOne(iface[0]);
    ChunksOfFlatten(data, 10, iface);
    assert cs[0] == Chunk(9, data[9..10]) && cs[1..] == iface && cs[1] == iface[0];
    assert Lead(cs) == 1;
  }

  // ---------------------------------------------------------------- two owners

  /** Interface 1 and then interface 0, both with the endpoint. */
  function SharedEndpoint(addr: byte): seq<Chunk> {
    [InterfaceNumbered(1), EndpointAt(addr), InterfaceNumbered(0), EndpointAt(addr)]
  }

  function Owner(n: byte, addr: byte): AltSetting {
    AltSetting(InterfaceNumbered(n).AsInterface(), [Endpoint(EndpointAt(addr).AsEndpoint(), None, [])], [])
  }

  lemma OneEndpoint(addr: byte)
    ensures var body := [EndpointAt(addr)];
      Endpoints(body) == [Endpoint(EndpointAt(addr).AsEndpoint(), None, [])] && Leftover(body) == []
  {
    assert [EndpointAt(addr)][1..] == [];
  }

  lemma {:induction false} OwnerFirstOf(n: byte, addr: byte, rest: seq<Chunk>)
    requires rest == [] || rest[0].IsInterface()
    ensures AltSettings([InterfaceNumbered(n)] + ([EndpointAt(addr)] + rest)) == [Owner(n, addr)] + AltSettings(rest)
    ensures FirstError([InterfaceNumbered(n)] + ([EndpointAt(addr)] + rest), true) == FirstError(rest, true)
    ensures FirstError([InterfaceNumbered(n)] + ([EndpointAt(addr)] + rest), false) == FirstError(rest, true)
  {
    var owned := [EndpointAt(addr)];
    OneEndpoint(addr);
    assert (owned + rest)[1..] == rest;
    AltSettingsFirst(InterfaceNumbered(n), owned, rest);
    assert ([InterfaceNumbered(n)] + (owned + rest))[1..] == owned + rest;
  }

  lemma SharedEndpointSettings(addr: byte)
    ensures AltSettings(SharedEndpoint(addr)) == [Owner(1, addr), Owner(0, addr)]
    ensures FirstError(SharedEndpoint(addr), false).None?
  {
    var later := [InterfaceNumbered(0)] + ([EndpointAt(addr)] + []);
    OwnerFirstOf(0, addr, []);
    OwnerFirstOf(1, addr, later);
    assert SharedEndpoint(addr) == [InterfaceNumbered(1)] + ([EndpointAt(addr)] + later);
  }

  lemma SharedEndpointLength(addr: byte)
    ensures |Flatten(SharedEndpoint(addr))| == 32
  {
    var cs := SharedEndpoint(addr);
    FlattenCons(cs[0], cs[1..]);
    FlattenCons(cs[1], cs[2..]);
    FlattenCons(cs[2], cs[3..]);
    FlattenOne(cs[3]);
    assert cs == [cs[0]] + cs[1..] && cs[1..] == [cs[1]] + cs[2..];
    assert cs[2..] == [cs[2]] + cs[3..] && cs[3..] == [cs[3]];
  }

  lemma {:induction false} OwnersOf(addr: byte)
    ensures var alts := [Owner(1, addr), Owner(0, addr)];
      && FirstOwning(alts, addr) == Some(1) && OwnerNumber(alts, addr, 0) && OwnerNumber(alts, addr, 1)
  {
    var alts := [Owner(1, addr), Owner(0, addr)];
    forall i | 0 <= i < 2 ensures Unmarshal.Owns(alts[i], addr) {
      assert alts[i].endpoints[0].desc.endpointAddr == addr;
    }
    assert alts[1].desc.interfaceNumber == 0 && alts[0].desc.interfaceNumber == 1;
  }

  function SharedEndpointData(addr: byte): seq<byte> {
    HeaderOf(41) + Flatten(SharedEndpoint(addr))
  }

  lemma SharedEndpointIsStandard(addr: byte)
    ensures var data := SharedEndpointData(addr);
      && Standard(data) && Preamble(data) == [] && AltSettings(Body(data)) == [Owner(1, addr), Owner(0, addr)]
  {
    var cs := SharedEndpoint(addr);
    SharedEndpointSettings(addr);
    SharedEndpointLength(addr);
    DataIsStandard(cs);
    assert cs[0..] == cs && cs[..0] == [];
  }

  /** The scan names interface 1, FindEndpoint on the parsed tree interface 0. */
  lemma {:induction false} ScanAndTreeDiffer(addr: byte, r: Option<(nat, nat, nat)>)
    requires Parse(SharedEndpointData(addr)).Success?
    requires Unmarshal.FoundAt(Parse(SharedEndpointData(addr)).value.interfaces, addr, r)
    ensures var data := SharedEndpointData(addr); FirstOwner(Cut(data, data[0], |data|), 0, addr) == Some(1)
    ensures r.Some? && NumberOf(Parse(SharedEndpointData(addr)).value.interfaces[r.value.0]) == 0
  {
    SharedEndpointIsStandard(addr);
    OwnersOf(addr);
    ScanFindsFirstOwner(SharedEndpointData(addr), addr);
    TreeFindsLeastOwner([Owner(1, addr), Owner(0, addr)], addr, r);
  }

  // ---------------------------------------------------------------- an endpoint without an interface

  /** Before any interface the scan takes an endpoint for interface 0's, the tree has none. */
  lemma {:induction false} LeadingEndpointScansAsZero(addr: byte)
    ensures var data := Data([EndpointAt(addr)]);
      && Parse(data).Success? && Parse(data).value.interfaces == []
      && FirstOwner(Cut(data, data[0], |data|), 0, addr) == Some(0)
  {
    var cs := [EndpointAt(addr)];
    FlattenOne(cs[0]);
    assert cs[1..] == [];
    DataIsStandard(cs);
    assert cs[..1] == cs && cs[1..] == [];
    NoGroups([], 0);
    ScanFindsFirstOwner(Data(cs), addr);
  }
}
