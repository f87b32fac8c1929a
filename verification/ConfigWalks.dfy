/**
 The other readers of a configuration's bytes: the flat walk of Windows, the flattened tree of
 macOS and the scan for an endpoint's interface, and when each agrees with the parsed tree.
 */
module ConfigWalks {
  import opened Core
  import opened Descriptors
  import opened ConfigGroups
  import opened ConfigEncode
  import opened ConfigLists
  import Unmarshal = ConfigUnmarshal

  // ---------------------------------------------------------------- the walkers

  /** The chunks a walker visits from pos: it stops at limit, and at a length below two. */
  function Cut(data: seq<byte>, pos: nat, limit: int): seq<Chunk>
    decreases |data| - pos
  {
    if pos >= limit || pos + 2 > |data| || data[pos] < 2 || pos + data[pos] > |data| then []
    else [Chunk(data[pos + 1], data[pos..pos + data[pos]])] + Cut(data, pos + data[pos], limit)
  }

  /** The interface descriptors among the chunks. */
  function InterfacesIn(cs: seq<Chunk>): seq<InterfaceDescriptor> {
    if cs == [] then []
    else if cs[0].IsInterface() && |cs[0].bytes| >= INTERFACE_SIZE then
      [cs[0].AsInterface()] + InterfacesIn(cs[1..])
    else InterfacesIn(cs[1..])
  }

  /** The endpoint descriptors among the chunks. */
  function EndpointsIn(cs: seq<Chunk>): seq<EndpointDescriptor> {
    if cs == [] then []
    else if cs[0].IsEndpoint() && |cs[0].bytes| >= ENDPOINT_SIZE then
      [cs[0].AsEndpoint()] + EndpointsIn(cs[1..])
    else EndpointsIn(cs[1..])
  }

  /** The flat lists read from raw bytes. */
  datatype FlatConfig = FlatConfig(
    header: Header, interfaces: seq<InterfaceDescriptor>, endpoints: seq<EndpointDescriptor>)

  /** The lists so far, and what the remaining chunks add to them. */
  function Collect(interfaces: seq<InterfaceDescriptor>, endpoints: seq<EndpointDescriptor>, cs: seq<Chunk>):
    (seq<InterfaceDescriptor>, seq<EndpointDescriptor>)
    decreases |cs|
  {
    if cs == [] then (interfaces, endpoints)
    else if cs[0].IsInterface() && |cs[0].bytes| >= INTERFACE_SIZE then
      Collect(interfaces + [cs[0].AsInterface()], endpoints, cs[1..])
    else if cs[0].IsEndpoint() && |cs[0].bytes| >= ENDPOINT_SIZE then
      Collect(interfaces, endpoints + [cs[0].AsEndpoint()], cs[1..])
    else Collect(interfaces, endpoints, cs[1..])
  }

  lemma {:induction false} CollectMeans(interfaces: seq<InterfaceDescriptor>, endpoints: seq<EndpointDescriptor>,
                                        cs: seq<Chunk>)
    ensures Collect(interfaces, endpoints, cs).0 == interfaces + InterfacesIn(cs)
    ensures Collect(interfaces, endpoints, cs).1 == endpoints + EndpointsIn(cs)
    decreases |cs|
  {
    if cs != [] {
      if cs[0].IsInterface() && |cs[0].bytes| >= INTERFACE_SIZE {
        CollectMeans(interfaces + [cs[0].AsInterface()], endpoints, cs[1..]);
        assert InterfacesIn(cs) == [cs[0].AsInterface()] + InterfacesIn(cs[1..]);
        assert EndpointsIn(cs) == EndpointsIn(cs[1..]);
      } else if cs[0].IsEndpoint() && |cs[0].bytes| >= ENDPOINT_SIZE {
        CollectMeans(interfaces, endpoints + [cs[0].AsEndpoint()], cs[1..]);
        assert EndpointsIn(cs) == [cs[0].AsEndpoint()] + EndpointsIn(cs[1..]);
        assert InterfacesIn(cs) == InterfacesIn(cs[1..]);
      } else {
        CollectMeans(interfaces, endpoints, cs[1..]);
      }
    }
  }

  predicate HasCut(data: seq<byte>, pos: nat, limit: int) {
    pos < limit && pos + 2 <= |data| && data[pos] >= 2 && pos + data[pos] <= |data|
  }

  lemma {:induction false} CollectInterface(interfaces: seq<InterfaceDescriptor>, endpoints: seq<EndpointDescriptor>,
                                            data: seq<byte>, pos: nat, limit: int, next: nat)
    requires HasCut(data, pos, limit) && next == pos + data[pos]
    requires data[pos + 1] == DT_INTERFACE && data[pos] >= INTERFACE_SIZE
    ensures Collect(interfaces, endpoints, Cut(data, pos, limit)) ==
            Collect(interfaces + [Unmarshal.ReadInterface(data, pos)], endpoints, Cut(data, next, limit))
  {
    assert Cut(data, pos, limit)[1..] == Cut(data, next, limit);
  }

  lemma {:induction false} CollectEndpoint(interfaces: seq<InterfaceDescriptor>, endpoints: seq<EndpointDescriptor>,
                                           data: seq<byte>, pos: nat, limit: int, next: nat)
    requires HasCut(data, pos, limit) && next == pos + data[pos]
    requires data[pos + 1] == DT_ENDPOINT && data[pos] >= ENDPOINT_SIZE
    ensures Collect(interfaces, endpoints, Cut(data, pos, limit)) ==
            Collect(interfaces, endpoints + [Unmarshal.ReadEndpoint(data, pos)], Cut(data, next, limit))
  {
    assert Cut(data, pos, limit)[1..] == Cut(data, next, limit);
  }

  lemma {:induction false} CollectOther(interfaces: seq<InterfaceDescriptor>, endpoints: seq<EndpointDescriptor>,
                                        data: seq<byte>, pos: nat, limit: int, next: nat)
    requires HasCut(data, pos, limit) && next == pos + data[pos]
    requires !(data[pos + 1] == DT_INTERFACE && data[pos] >= INTERFACE_SIZE)
    requires !(data[pos + 1] == DT_ENDPOINT && data[pos] >= ENDPOINT_SIZE)
    ensures Collect(interfaces, endpoints, Cut(data, pos, limit)) ==
            Collect(interfaces, endpoints, Cut(data, next, limit))
  {
    assert Cut(data, pos, limit)[1..] == Cut(data, next, limit);
  }

  /** Windows: reads the raw configuration into two flat lists. */
  method ReadFlat(data: seq<byte>) returns (r: Result<FlatConfig, ParseError>)
    ensures |data| < CONFIG_SIZE ==> r == Failure(ConfigTooShort(|data|))
    ensures |data| >= CONFIG_SIZE ==>
      var cs := Cut(data, data[0], LittleEndian16(data[2], data[3]));
      r == Success(FlatConfig(ParseHeader(data), InterfacesIn(cs), EndpointsIn(cs)))
  {
    if |data| < CONFIG_SIZE {
      return Failure(ConfigTooShort(|data|));
    }
    var config := ParseHeader(data);
    var interfaces, endpoints := WalkFlat(data, config.length, config.totalLength);
    r := Success(FlatConfig(config, interfaces, endpoints));
  }

  /** The loop of ReadFlat: one pass from start on. */
  method WalkFlat(data: seq<byte>, start: nat, limit: int)
    returns (interfaces: seq<InterfaceDescriptor>, endpoints: seq<EndpointDescriptor>)
    ensures interfaces == InterfacesIn(Cut(data, start, limit))
    ensures endpoints == EndpointsIn(Cut(data, start, limit))
  {
    interfaces, endpoints := [], [];
    ghost var all := Cut(data, start, limit);
    var pos := start;
    while pos < limit && pos < |data|
      invariant Collect(interfaces, endpoints, Cut(data, pos, limit)) == Collect([], [], all)
      decreases |data| - pos
    {
      if pos + 2 > |data| {
        break;
      }
      var length: nat := data[pos];
      if length < 2 || pos + length > |data| {
        break;
      }
      var next := pos + length;
      if data[pos + 1] == DT_INTERFACE && length >= INTERFACE_SIZE {
        CollectInterface(interfaces, endpoints, data, pos, limit, next);
        interfaces := interfaces + [Unmarshal.ReadInterface(data, pos)];
      } else if data[pos + 1] == DT_ENDPOINT && length >= ENDPOINT_SIZE {
        CollectEndpoint(interfaces, endpoints, data, pos, limit, next);
        endpoints := endpoints + [Unmarshal.ReadEndpoint(data, pos)];
      } else {
        CollectOther(interfaces, endpoints, data, pos, limit, next);
      }
      pos := next;
    }
    assert Cut(data, pos, limit) == [];
    CollectMeans([], [], all);
  }

  lemma {:induction false} UngroupAppend(a: seq<Interface>, b: seq<Interface>)
    ensures Ungroup(a + b) == Ungroup(a) + Ungroup(b)
  {
    if a == [] {
      assert a + b == b;
    } else {
      assert (a + b)[1..] == a[1..] + b;
      UngroupAppend(a[1..], b);
    }
  }

  lemma UngroupSnoc(ifaces: seq<Interface>, i: nat)
    requires i < |ifaces|
    ensures Ungroup(ifaces[..i + 1]) == Ungroup(ifaces[..i]) + ifaces[i].altSettings
  {
    assert ifaces[..i + 1] == ifaces[..i] + [ifaces[i]];
    UngroupAppend(ifaces[..i], [ifaces[i]]);
    assert Ungroup([ifaces[i]]) == ifaces[i].altSettings + Ungroup([]);
  }

  /** macOS: flattens the parsed tree. */
  method Flattened(config: Config) returns (r: FlatConfig)
    ensures r == FlatConfig(config.header, Descs(Ungroup(config.interfaces)), EndpointsOf(Ungroup(config.interfaces)))
  {
    var interfaces: seq<InterfaceDescriptor>, endpoints: seq<EndpointDescriptor> := [], [];
    ghost var done: seq<AltSetting> := [];
    for i := 0 to |config.interfaces|
      invariant done == Ungroup(config.interfaces[..i])
      invariant interfaces == Descs(done) && endpoints == EndpointsOf(done)
    {
      var alts := config.interfaces[i].altSettings;
      UngroupSnoc(config.interfaces, i);
      DescsAppend(done, alts);
      interfaces, endpoints := AddSettings(alts, interfaces, endpoints);
      done := done + alts;
    }
    assert config.interfaces[..|config.interfaces|] == config.interfaces;
    r := FlatConfig(config.header, interfaces, endpoints);
  }

  /** The middle loop of the flattening. */
  method AddSettings(alts: seq<AltSetting>, interfaces0: seq<InterfaceDescriptor>, endpoints0: seq<EndpointDescriptor>)
    returns (interfaces: seq<InterfaceDescriptor>, endpoints: seq<EndpointDescriptor>)
    ensures interfaces == interfaces0 + Descs(alts) && endpoints == endpoints0 + EndpointsOf(alts)
  {
    interfaces, endpoints := interfaces0, endpoints0;
    assert alts[0..] == alts;
    for j := 0 to |alts|
      invariant interfaces + Descs(alts[j..]) == interfaces0 + Descs(alts)
      invariant endpoints + EndpointsOf(alts[j..]) == endpoints0 + EndpointsOf(alts)
    {
      assert alts[j..][1..] == alts[j + 1..];
      interfaces := interfaces + [alts[j].desc];
      endpoints := AddEndpoints(alts[j].endpoints, endpoints);
    }
  }

  /** The innermost loop of the flattening. */
  method AddEndpoints(eps: seq<Endpoint>, before: seq<EndpointDescriptor>) returns (r: seq<EndpointDescriptor>)
    ensures r == before + EndpointDescs(eps)
  {
    r := before;
    assert eps[0..] == eps;
    for k := 0 to |eps|
      invariant r + EndpointDescs(eps[k..]) == before + EndpointDescs(eps)
    {
      assert eps[k..][1..] == eps[k + 1..];
      r := r + [eps[k].desc];
    }
  }

  /** The interface current at the first endpoint chunk with the address. */
  function FirstOwner(cs: seq<Chunk>, current: byte, addr: byte): Option<byte> {
    if cs == [] then None
    else if cs[0].IsInterface() then
      FirstOwner(cs[1..], if |cs[0].bytes| >= INTERFACE_SIZE then cs[0].At(2) else current, addr)
    else if cs[0].IsEndpoint() && |cs[0].bytes| >= 3 && cs[0].At(2) == addr then Some(current)
    else FirstOwner(cs[1..], current, addr)
  }

  lemma ScanStep(data: seq<byte>, pos: nat, next: nat, current: byte, addr: byte)
    requires HasCut(data, pos, |data|) && next == pos + data[pos]
    ensures FirstOwner(Cut(data, pos, |data|), current, addr) ==
            if data[pos + 1] == DT_INTERFACE then
              FirstOwner(Cut(data, next, |data|), if data[pos] >= INTERFACE_SIZE then data[pos + 2] else current, addr)
            else if data[pos + 1] == DT_ENDPOINT && data[pos] >= 3 && data[pos + 2] == addr then Some(current)
            else FirstOwner(Cut(data, next, |data|), current, addr)
  {
    assert Cut(data, pos, |data|)[1..] == Cut(data, next, |data|);
  }

  lemma {:induction false} ScanEnd(data: seq<byte>, pos: nat, current: byte, addr: byte)
    requires !HasCut(data, pos, |data|)
    ensures FirstOwner(Cut(data, pos, |data|), current, addr) == None
  {
  }

  /** Windows: scans one raw configuration for the interface that declares an endpoint. */
  method EndpointInterface(data: seq<byte>, addr: byte) returns (r: Option<byte>)
    ensures r == if |data| < CONFIG_SIZE then None else FirstOwner(Cut(data, data[0], |data|), 0, addr)
  {
    if |data| < CONFIG_SIZE {
      return None;
    }
    r := ScanFrom(data, data[0], addr);
  }

  /** The loop of EndpointInterface. */
  method ScanFrom(data: seq<byte>, start: nat, addr: byte) returns (r: Option<byte>)
    ensures r == FirstOwner(Cut(data, start, |data|), 0, addr)
  {
    ghost var goal := FirstOwner(Cut(data, start, |data|), 0, addr);
    var pos := start;
    var current: byte := 0;
    while pos + 2 <= |data|
      invariant FirstOwner(Cut(data, pos, |data|), current, addr) == goal
      decreases |data| - pos
    {
      var length: nat := data[pos];
      if length < 2 || pos + length > |data| {
        break;
      }
      ScanStep(data, pos, pos + length, current, addr);
      if data[pos + 1] == DT_INTERFACE {
        if length >= INTERFACE_SIZE {
          current := data[pos + 2];
        }
      } else if data[pos + 1] == DT_ENDPOINT {
        if length >= 3 && data[pos + 2] == addr {
          return Some(current);
        }
      }
      pos := pos + length;
    }
    ScanEnd(data, pos, current, addr);
    r := None;
  }

  // ---------------------------------------------------------------- where all walks start alike

  /** The bytes parse, the header has its standard length, the total length reaches the end, no stray byte. */
  ghost predicate Standard(data: seq<byte>) {
    && Parse(data).Success? && NoStrayByte(data)
    && data[0] == CONFIG_SIZE && |data| <= LittleEndian16(data[2], data[3])
  }

  /** How many chunks come before the first that is its length byte alone. */
  function BeforeStray(cs: seq<Chunk>): (n: nat)
    ensures n <= |cs|
  {
    if cs == [] || |cs[0].bytes| < 2 then 0 else 1 + BeforeStray(cs[1..])
  }

  lemma {:induction false} BeforeStrayCons(c: Chunk, rest: seq<Chunk>)
    requires |c.bytes| >= 2
    ensures ([c] + rest)[..BeforeStray([c] + rest)] == [c] + rest[..BeforeStray(rest)]
  {
    assert ([c] + rest)[1..] == rest;
  }

  lemma {:induction false} ChunksStep(data: seq<byte>, pos: nat, next: nat)
    requires pos + 2 <= |data| && data[pos] > 0 && next == pos + data[pos] <= |data|
    ensures Chunks(data, pos) == [Chunk(data[pos + 1], data[pos..next])] + Chunks(data, next)
  {
  }

  lemma {:induction false} CutStep(data: seq<byte>, pos: nat, limit: int, next: nat)
    requires HasCut(data, pos, limit) && next == pos + data[pos]
    ensures Cut(data, pos, limit) == [Chunk(data[pos + 1], data[pos..next])] + Cut(data, next, limit)
  {
  }

  /** The walkers visit the parser's chunks up to the first one-byte chunk, where the parser alone goes on. */
  lemma {:induction false} CutIsPrefix(data: seq<byte>, pos: nat, limit: int)
    requires |data| <= limit
    ensures var cs := Chunks(data, pos); Cut(data, pos, limit) == cs[..BeforeStray(cs)]
    decreases |data| - pos
  {
    if !(pos + 2 > |data| || data[pos] < 2 || pos + data[pos] > |data|) {
      var next := pos + data[pos];
      var c := Chunk(data[pos + 1], data[pos..next]);
      CutIsPrefix(data, next, limit);
      BeforeStrayCons(c, Chunks(data, next));
      ChunksStep(data, pos, next);
      CutStep(data, pos, limit, next);
    }
  }

  lemma {:induction false} NoneStray(cs: seq<Chunk>)
    requires AllWhole(cs)
    ensures BeforeStray(cs) == |cs|
  {
    if cs != [] {
      assert Whole(cs[0]);
      NoneStray(cs[1..]);
    }
  }

  lemma {:induction false} CutIsChunks(data: seq<byte>, pos: nat, limit: int)
    requires AllWhole(Chunks(data, pos)) && |data| <= limit
    ensures Cut(data, pos, limit) == Chunks(data, pos)
  {
    CutIsPrefix(data, pos, limit);
    NoneStray(Chunks(data, pos));
  }

  // ---------------------------------------------------------------- the flat lists and the settings in byte order

  lemma {:induction false} InterfacesInAppend(a: seq<Chunk>, b: seq<Chunk>)
    ensures InterfacesIn(a + b) == InterfacesIn(a) + InterfacesIn(b)
  {
    if a == [] {
      assert a + b == b;
    } else {
      assert (a + b)[1..] == a[1..] + b;
      InterfacesInAppend(a[1..], b);
    }
  }

  lemma {:induction false} EndpointsInAppend(a: seq<Chunk>, b: seq<Chunk>)
    ensures EndpointsIn(a + b) == EndpointsIn(a) + EndpointsIn(b)
  {
    if a == [] {
      assert a + b == b;
    } else {
      assert (a + b)[1..] == a[1..] + b;
      EndpointsInAppend(a[1..], b);
    }
  }

  lemma {:induction false} NoInterfaces(body: seq<Chunk>)
    requires LeadingChunks(body)
    ensures InterfacesIn(body) == []
  {
    if body != [] { NoInterfaces(body[1..]); }
  }

  lemma {:induction false} BodyEndpointsIn(body: seq<Chunk>)
    requires BodyOk(body)
    ensures EndpointsIn(body) == EndpointDescs(Endpoints(body))
    decreases |body|
  {
    if body != [] {
      if body[0].IsEndpoint() && |body| > 1 && body[1].IsCompanion() {
        BodyEndpointsIn(body[2..]);
        assert body[1..][1..] == body[2..];
      } else {
        BodyEndpointsIn(body[1..]);
      }
    }
  }

  lemma {:induction false} FlatFirst(cs: seq<Chunk>, body: seq<Chunk>, rest: seq<Chunk>)
    requires cs != [] && cs[0].IsInterface() && |cs[0].bytes| >= INTERFACE_SIZE
    requires cs[1..] == body + rest && BodyOk(body)
    ensures InterfacesIn(cs) == [cs[0].AsInterface()] + InterfacesIn(rest)
    ensures EndpointsIn(cs) == EndpointDescs(Endpoints(body)) + EndpointsIn(rest)
  {
    InterfacesInAppend(body, rest);
    EndpointsInAppend(body, rest);
    NoInterfaces(body);
    BodyEndpointsIn(body);
    assert InterfacesIn(body) + InterfacesIn(rest) == InterfacesIn(rest);
  }

  lemma {:induction false} FlatIsSettings(cs: seq<Chunk>)
    requires AllWhole(cs) && FirstError(cs, true).None? && (cs == [] || cs[0].IsInterface())
    ensures InterfacesIn(cs) == Descs(AltSettings(cs)) && EndpointsIn(cs) == EndpointsOf(AltSettings(cs))
    decreases |cs|
  {
    if cs != [] {
      var body, rest := SplitOk(cs);
      FlatFirst(cs, body, rest);
      FlatIsSettings(rest);
    }
  }

  lemma {:induction false} SplitAtLead(cs: seq<Chunk>, pre: seq<Chunk>, body: seq<Chunk>)
    requires AllWhole(cs) && FirstError(cs, false).None? && pre == cs[..Lead(cs)] && body == cs[Lead(cs)..]
    ensures cs == pre + body && LeadingChunks(pre)
    ensures AllWhole(body) && FirstError(body, true).None? && (body == [] || body[0].IsInterface())
  {
    ErrorStartsInBody(cs);
    WholeParts(cs, Lead(cs));
  }

  lemma WholeParts(cs: seq<Chunk>, n: nat)
    requires AllWhole(cs) && n <= |cs|
    ensures AllWhole(cs[..n]) && AllWhole(cs[n..])
  {
  }

  /** The chunks before and after the first interface. */
  lemma {:induction false} SplitAtBody(data: seq<byte>)
    requires Parse(data).Success? && NoStrayByte(data)
    ensures Chunks(data, CONFIG_SIZE) == Preamble(data) + Body(data) && LeadingChunks(Preamble(data))
    ensures AllWhole(Body(data)) && FirstError(Body(data), true).None?
    ensures Body(data) == [] || Body(data)[0].IsInterface()
  {
    SplitAtLead(Chunks(data, CONFIG_SIZE), Preamble(data), Body(data));
  }

  /** What the flat walk reads, in terms of the settings in byte order. */
  ghost predicate FlatReads(data: seq<byte>, alts: seq<AltSetting>, lead: seq<EndpointDescriptor>, r: FlatConfig) {
    r.interfaces == Descs(alts) && r.endpoints == lead + EndpointsOf(alts)
  }

  /**
   The flat walk reads every setting's descriptor in byte order, number 255 included, and every
   endpoint in byte order, after those that no interface owns.
   */
  lemma {:induction false} FlatWalkReads(data: seq<byte>)
    requires Standard(data)
    ensures var cs := Cut(data, data[0], LittleEndian16(data[2], data[3]));
      FlatReads(data, AltSettings(Body(data)), EndpointsIn(Preamble(data)),
                FlatConfig(ParseHeader(data), InterfacesIn(cs), EndpointsIn(cs)))
  {
    CutIsChunks(data, CONFIG_SIZE, LittleEndian16(data[2], data[3]));
    SplitAtBody(data);
    InterfacesInAppend(Preamble(data), Body(data));
    EndpointsInAppend(Preamble(data), Body(data));
    NoInterfaces(Preamble(data));
    FlatIsSettings(Body(data));
    assert [] + InterfacesIn(Body(data)) == InterfacesIn(Body(data));
  }

  /**
   The two platforms' lists for the same bytes: flat is what ReadFlat returns, tree what Flattened
   returns for the parsed tree.
   */
  ghost predicate BothRead(data: seq<byte>, flat: FlatConfig, tree: FlatConfig)
    requires Standard(data)
  {
    var cs, parsed := Cut(data, data[0], LittleEndian16(data[2], data[3])), Parse(data).value;
    && flat == FlatConfig(ParseHeader(data), InterfacesIn(cs), EndpointsIn(cs))
    && tree == FlatConfig(parsed.header, Descs(Ungroup(parsed.interfaces)), EndpointsOf(Ungroup(parsed.interfaces)))
  }

  /**
   Windows and macOS agree: same header, same order within each number, the same interfaces exactly
   when none is numbered 255, the same list exactly when moreover numbers never decrease. Of the
   endpoints the same holds with regard to the settings that have any, if none stands before the
   first interface; for the list to be the same only then no two interfaces may share an endpoint.
   */
  lemma FlatWalkAgreesWithTree(data: seq<byte>, flat: FlatConfig, tree: FlatConfig)
    requires Standard(data) && BothRead(data, flat, tree)
    ensures flat.header == tree.header
    ensures forall n: byte :: n < NUMBER_LIMIT ==>
      DescsNumbered(flat.interfaces, n) == DescsNumbered(tree.interfaces, n)
    ensures var alts := AltSettings(Body(data));
      && (multiset(flat.interfaces) == multiset(tree.interfaces) <==> AllFrom(alts, 0))
      && (flat.interfaces == tree.interfaces <==> NonDecreasing(alts) && AllFrom(alts, 0))
    ensures var alts, lead := AltSettings(Body(data)), EndpointsIn(Preamble(data));
      && (multiset(flat.endpoints) == multiset(tree.endpoints) <==> lead == [] && AllFrom(Bearing(alts), 0))
      && (lead == [] && NonDecreasing(Bearing(alts)) && AllFrom(Bearing(alts), 0) ==> flat.endpoints == tree.endpoints)
      && (Unshared(alts) ==>
            (flat.endpoints == tree.endpoints <==>
             lead == [] && NonDecreasing(Bearing(alts)) && AllFrom(Bearing(alts), 0)))
  {
    var alts := AltSettings(Body(data));
    FlatWalkReads(data);
    SameInterfacesIff(alts);
    IdenticalListsIff(alts);
    forall n: byte | n < NUMBER_LIMIT
      ensures DescsNumbered(flat.interfaces, n) == DescsNumbered(tree.interfaces, n)
    {
      SameOrderPerNumber(alts, n);
    }
    EndpointListsAgree(alts, EndpointsIn(Preamble(data)), flat.endpoints, tree.endpoints);
  }

  lemma {:induction false} EndpointListsAgree(alts: seq<AltSetting>, lead: seq<EndpointDescriptor>,
                                              flat: seq<EndpointDescriptor>, tree: seq<EndpointDescriptor>)
    requires flat == lead + EndpointsOf(alts) && tree == EndpointsOf(Ungroup(Groups(alts, 0)))
    ensures multiset(flat) == multiset(tree) <==> lead == [] && AllFrom(Bearing(alts), 0)
    ensures lead == [] && NonDecreasing(Bearing(alts)) && AllFrom(Bearing(alts), 0) ==> flat == tree
    ensures Unshared(alts) ==>
      (flat == tree <==> lead == [] && NonDecreasing(Bearing(alts)) && AllFrom(Bearing(alts), 0))
  {
    SameEndpointsIff(alts);
    assert lead == [] ==> flat == EndpointsOf(alts);
    if multiset(flat) == multiset(tree) { SameSize(flat, tree); }
    if NonDecreasing(Bearing(alts)) && AllFrom(Bearing(alts), 0) { EndpointsStay(alts); }
    if Unshared(alts) { SameEndpointListIff(alts); }
  }

  // ---------------------------------------------------------------- the scan for an endpoint's interface

  /** The number of the first setting in byte order that owns the address. */
  ghost function FirstOwning(alts: seq<AltSetting>, addr: byte): Option<byte> {
    if alts == [] then None
    else if Unmarshal.Owns(alts[0], addr) then Some(alts[0].desc.interfaceNumber)
    else FirstOwning(alts[1..], addr)
  }

  /** Some chunk is an endpoint with the address. */
  predicate Declares(cs: seq<Chunk>, addr: byte) {
    cs != [] && ((cs[0].IsEndpoint() && |cs[0].bytes| >= 3 && cs[0].At(2) == addr) || Declares(cs[1..], addr))
  }

  ghost predicate HasAddress(eps: seq<Endpoint>, addr: byte) {
    exists k :: 0 <= k < |eps| && eps[k].desc.endpointAddr == addr
  }

  lemma HasAddressCons(e: Endpoint, eps: seq<Endpoint>, addr: byte)
    ensures HasAddress([e] + eps, addr) <==> e.desc.endpointAddr == addr || HasAddress(eps, addr)
  {
    var all := [e] + eps;
    assert all[0] == e;
    if HasAddress(eps, addr) {
      var k :| 0 <= k < |eps| && eps[k].desc.endpointAddr == addr;
      assert all[k + 1] == eps[k];
    }
    if HasAddress(all, addr) {
      var k :| 0 <= k < |all| && all[k].desc.endpointAddr == addr;
      if k > 0 { assert all[k] == eps[k - 1]; }
    }
  }

  lemma {:induction false} BodyDeclares(body: seq<Chunk>, addr: byte)
    requires BodyOk(body)
    ensures Declares(body, addr) <==> HasAddress(Endpoints(body), addr)
    decreases |body|
  {
    if body != [] {
      if body[0].IsEndpoint() && |body| > 1 && body[1].IsCompanion() {
        assert body[1..][1..] == body[2..];
        BodyDeclares(body[2..], addr);
        HasAddressCons(Endpoint(body[0].AsEndpoint(), Some(body[1].AsCompanion()), []), Endpoints(body[2..]), addr);
      } else {
        BodyDeclares(body[1..], addr);
        HasAddressCons(Endpoint(body[0].AsEndpoint(), None, []), Endpoints(body[1..]), addr);
      }
    }
  }

  lemma {:induction false} OwnerPastBody(body: seq<Chunk>, rest: seq<Chunk>, current: byte, addr: byte)
    requires LeadingChunks(body)
    ensures FirstOwner(body + rest, current, addr) ==
            if Declares(body, addr) then Some(current) else FirstOwner(rest, current, addr)
  {
    if body == [] {
      assert body + rest == rest;
    } else {
      assert (body + rest)[1..] == body[1..] + rest;
      OwnerPastBody(body[1..], rest, current, addr);
    }
  }

  lemma {:induction false} OwnerFirst(cs: seq<Chunk>, body: seq<Chunk>, rest: seq<Chunk>, current: byte, addr: byte)
    requires cs != [] && cs[0].IsInterface() && |cs[0].bytes| >= INTERFACE_SIZE
    requires cs[1..] == body + rest && BodyOk(body)
    ensures FirstOwner(cs, current, addr) ==
            if HasAddress(Endpoints(body), addr) then Some(cs[0].At(2)) else FirstOwner(rest, cs[0].At(2), addr)
  {
    OwnerPastBody(body, rest, cs[0].At(2), addr);
    BodyDeclares(body, addr);
  }

  lemma {:induction false} OwningFirst(x: AltSetting, alts: seq<AltSetting>, addr: byte)
    ensures FirstOwning([x] + alts, addr) ==
            if HasAddress(x.endpoints, addr) then Some(x.desc.interfaceNumber) else FirstOwning(alts, addr)
  {
    assert Unmarshal.Owns(x, addr) <==> HasAddress(x.endpoints, addr);
  }

  lemma {:induction false} OwnerIsFirstOwning(cs: seq<Chunk>, current: byte, addr: byte)
    requires AllWhole(cs) && FirstError(cs, true).None? && (cs == [] || cs[0].IsInterface())
    ensures FirstOwner(cs, current, addr) == FirstOwning(AltSettings(cs), addr)
    decreases |cs|
  {
    if cs != [] {
      var body, rest := SplitOk(cs);
      OwnerFirst(cs, body, rest, current, addr);
      OwnerIsFirstOwning(rest, cs[0].At(2), addr);
      OwningFirst(AltSetting(cs[0].AsInterface(), Endpoints(body), Leftover(body)), AltSettings(rest), addr);
    }
  }

  /** The scan finds the first owner in byte order, unless an endpoint before the first interface has the address. */
  lemma {:induction false} ScanFindsFirstOwner(data: seq<byte>, addr: byte)
    requires Standard(data)
    ensures FirstOwner(Cut(data, data[0], |data|), 0, addr) ==
            if Declares(Preamble(data), addr) then Some(0) else FirstOwning(AltSettings(Body(data)), addr)
  {
    CutIsChunks(data, CONFIG_SIZE, |data|);
    SplitAtBody(data);
    OwnerPastBody(Preamble(data), Body(data), 0, addr);
    OwnerIsFirstOwning(Body(data), 0, addr);
  }

  lemma {:induction false} FirstOwningIs(alts: seq<AltSetting>, addr: byte)
    ensures FirstOwning(alts, addr).Some? ==>
      exists i :: 0 <= i < |alts| && Unmarshal.Owns(alts[i], addr)
        && alts[i].desc.interfaceNumber == FirstOwning(alts, addr).value
        && forall j :: 0 <= j < i ==> !Unmarshal.Owns(alts[j], addr)
    ensures FirstOwning(alts, addr).None? ==> forall i :: 0 <= i < |alts| ==> !Unmarshal.Owns(alts[i], addr)
  {
    if alts != [] && !Unmarshal.Owns(alts[0], addr) {
      FirstOwningIs(alts[1..], addr);
      if FirstOwning(alts[1..], addr).Some? {
        var i :| 0 <= i < |alts| - 1 && Unmarshal.Owns(alts[1..][i], addr)
          && alts[1..][i].desc.interfaceNumber == FirstOwning(alts, addr).value
          && forall j :: 0 <= j < i ==> !Unmarshal.Owns(alts[1..][j], addr);
        assert Unmarshal.Owns(alts[i + 1], addr);
        forall j | 0 <= j < i + 1 ensures !Unmarshal.Owns(alts[j], addr) {
          if j > 0 { assert alts[j] == alts[1..][j - 1]; }
        }
      }
    }
  }

  // ---------------------------------------------------------------- the tree's owner

  /** Some setting numbered n owns the address. */
  ghost predicate OwnerNumber(alts: seq<AltSetting>, addr: byte, n: byte) {
    exists i :: 0 <= i < |alts| && Unmarshal.Owns(alts[i], addr) && alts[i].desc.interfaceNumber == n
  }

  lemma {:induction false} OwnerInNumbered(alts: seq<AltSetting>, addr: byte, n: byte)
    ensures OwnerNumber(alts, addr, n) <==> Unmarshal.Offers(Interface(Numbered(alts, n)), addr)
  {
    if OwnerNumber(alts, addr, n) {
      var i :| 0 <= i < |alts| && Unmarshal.Owns(alts[i], addr) && alts[i].desc.interfaceNumber == n;
      NumberedKeepsOrder(alts, n, i);
      assert Unmarshal.Owns(Interface(Numbered(alts, n)).altSettings[Rank(alts, n, i)], addr);
    }
    if Unmarshal.Offers(Interface(Numbered(alts, n)), addr) {
      var j :| 0 <= j < |Numbered(alts, n)| && Unmarshal.Owns(Numbered(alts, n)[j], addr);
      NumberedMembers(alts, n, j);
    }
  }

  lemma {:induction false} NumberedMembers(alts: seq<AltSetting>, n: byte, j: nat)
    requires j < |Numbered(alts, n)|
    ensures exists i :: 0 <= i < |alts| && alts[i] == Numbered(alts, n)[j] && alts[i].desc.interfaceNumber == n
  {
    if alts[0].desc.interfaceNumber == n && j == 0 {
      assert alts[0] == Numbered(alts, n)[j];
    } else {
      var j' := if alts[0].desc.interfaceNumber == n then j - 1 else j;
      NumberedMembers(alts[1..], n, j');
      var i :| 0 <= i < |alts| - 1 && alts[1..][i] == Numbered(alts[1..], n)[j']
        && alts[1..][i].desc.interfaceNumber == n;
      assert alts[i + 1] == Numbered(alts, n)[j];
    }
  }

  /** FindEndpoint on the grouped settings picks the owner with the least number below 255, if there is one. */
  lemma {:induction false} TreeFindsLeastOwner(alts: seq<AltSetting>, addr: byte, r: Option<(nat, nat, nat)>)
    requires Unmarshal.FoundAt(Groups(alts, 0), addr, r)
    ensures r.None? ==> forall n: byte :: n < NUMBER_LIMIT ==> !OwnerNumber(alts, addr, n)
    ensures r.Some? ==>
      var g := Groups(alts, 0)[r.value.0];
      && g.altSettings != [] && NumberOf(g) < NUMBER_LIMIT && OwnerNumber(alts, addr, NumberOf(g))
      && forall n: byte :: n < NUMBER_LIMIT && OwnerNumber(alts, addr, n) ==> NumberOf(g) <= n
  {
    var gs := Groups(alts, 0);
    GroupsAscend(alts, 0);
    forall n: byte | n < NUMBER_LIMIT && OwnerNumber(alts, addr, n)
      ensures r.Some? && WholeGroup(alts, gs[r.value.0], 0) && NumberOf(gs[r.value.0]) <= n
    {
      OwnerHasGroup(alts, gs, addr, n, r);
    }
    if r.Some? {
      var g := gs[r.value.0];
      assert WholeGroup(alts, g, 0);
      assert Unmarshal.Owns(g.altSettings[r.value.1], addr);
      assert Unmarshal.Offers(Interface(Numbered(alts, NumberOf(g))), addr);
      OwnerInNumbered(alts, addr, NumberOf(g));
    }
  }

  lemma FoundNoLater(gs: seq<Interface>, addr: byte, r: Option<(nat, nat, nat)>, i: nat)
    requires Unmarshal.FoundAt(gs, addr, r) && i < |gs| && Unmarshal.Offers(gs[i], addr)
    ensures r.Some? && r.value.0 <= i
  {
  }

  lemma GroupOf(alts: seq<AltSetting>, n: byte) returns (i: nat)
    requires n < NUMBER_LIMIT && Numbered(alts, n) != []
    ensures i < |Groups(alts, 0)| && Groups(alts, 0)[i] == Interface(Numbered(alts, n))
  {
    GroupsComplete(alts, 0, n);
    i :| 0 <= i < |Groups(alts, 0)| && Groups(alts, 0)[i] == Interface(Numbered(alts, n));
  }

  lemma {:induction false} OwnerHasGroup(alts: seq<AltSetting>, gs: seq<Interface>, addr: byte, n: byte,
                                         r: Option<(nat, nat, nat)>)
    requires gs == Groups(alts, 0) && Unmarshal.FoundAt(gs, addr, r)
    requires n < NUMBER_LIMIT && OwnerNumber(alts, addr, n)
    ensures r.Some? && WholeGroup(alts, gs[r.value.0], 0) && NumberOf(gs[r.value.0]) <= n
  {
    OwnerInNumbered(alts, addr, n);
    var i := GroupOf(alts, n);
    FoundNoLater(gs, addr, r, i);
    GroupsAscend(alts, 0);
    NumberedNumber(alts, n);
    assert NumberOf(gs[i]) == n && WholeGroup(alts, gs[r.value.0], 0);
  }

  /** Every owner is numbered 255. */
  ghost predicate OwnedByLimitOnly(alts: seq<AltSetting>, addr: byte) {
    && OwnerNumber(alts, addr, NUMBER_LIMIT)
    && forall n: byte :: OwnerNumber(alts, addr, n) ==> n == NUMBER_LIMIT
  }

  /** n is the least number of all owners. */
  ghost predicate LeastOwner(alts: seq<AltSetting>, addr: byte, n: byte) {
    OwnerNumber(alts, addr, n) && forall m: byte :: OwnerNumber(alts, addr, m) ==> n <= m
  }

  lemma {:induction false} FirstOwningIsOwner(alts: seq<AltSetting>, addr: byte)
    ensures match FirstOwning(alts, addr)
      case Some(n) => OwnerNumber(alts, addr, n)
      case None => forall n: byte :: !OwnerNumber(alts, addr, n)
  {
    FirstOwningIs(alts, addr);
  }

  lemma {:induction false} LimitOnlyIff(alts: seq<AltSetting>, addr: byte)
    requires forall n: byte :: n < NUMBER_LIMIT ==> !OwnerNumber(alts, addr, n)
    ensures OwnedByLimitOnly(alts, addr) <==> FirstOwning(alts, addr).Some?
  {
    FirstOwningIsOwner(alts, addr);
  }

  lemma {:induction false} OwnersAgree(alts: seq<AltSetting>, addr: byte, r: Option<(nat, nat, nat)>)
    requires Unmarshal.FoundAt(Groups(alts, 0), addr, r)
    ensures r.Some? ==> FirstOwning(alts, addr).Some? && !OwnedByLimitOnly(alts, addr)
    ensures r.None? ==> (FirstOwning(alts, addr).Some? <==> OwnedByLimitOnly(alts, addr))
    ensures r.Some? ==> LeastOwner(alts, addr, NumberOf(Groups(alts, 0)[r.value.0]))
  {
    TreeFindsLeastOwner(alts, addr, r);
    if r.Some? {
      FirstOwningIsOwner(alts, addr);
    } else {
      LimitOnlyIff(alts, addr);
    }
  }

  /**
   The scan against FindEndpoint on the parsed tree, for an address that no endpoint before the
   first interface has: what the tree finds the scan finds too, the tree misses what the scan finds
   exactly when all owners are numbered 255, the scan names an owner and the tree the least one, so
   both name the same interface exactly when the first owner in byte order is the least.
   */
  lemma {:induction false} ScanAgreesWithTree(data: seq<byte>, addr: byte, scan: Option<byte>,
                                              r: Option<(nat, nat, nat)>)
    requires Standard(data) && !Declares(Preamble(data), addr)
    requires scan == FirstOwner(Cut(data, data[0], |data|), 0, addr)
    requires Unmarshal.FoundAt(Parse(data).value.interfaces, addr, r)
    ensures r.Some? ==> scan.Some?
    ensures (scan.Some? && r.None?) <==> OwnedByLimitOnly(AltSettings(Body(data)), addr)
    ensures scan == FirstOwning(AltSettings(Body(data)), addr)
    ensures r.Some? ==>
      var owner := NumberOf(Parse(data).value.interfaces[r.value.0]);
      && LeastOwner(AltSettings(Body(data)), addr, owner)
      && (owner == scan.value <==> LeastOwner(AltSettings(Body(data)), addr, scan.value))
  {
    var alts := AltSettings(Body(data));
    ScanFindsFirstOwner(data, addr);
    FirstOwningIsOwner(alts, addr);
    OwnersAgree(alts, addr, r);
  }

  /** In particular both name the same interface when the endpoint is not shared between interfaces. */
  lemma {:induction false} UnsharedEndpoint(data: seq<byte>, addr: byte, scan: Option<byte>,
                                            r: Option<(nat, nat, nat)>, n: byte)
    requires Standard(data) && !Declares(Preamble(data), addr)
    requires scan == FirstOwner(Cut(data, data[0], |data|), 0, addr)
    requires Unmarshal.FoundAt(Parse(data).value.interfaces, addr, r)
    requires n < NUMBER_LIMIT && forall m: byte :: OwnerNumber(AltSettings(Body(data)), addr, m) <==> m == n
    ensures r.Some? && scan == Some(n) && NumberOf(Parse(data).value.interfaces[r.value.0]) == n
  {
    var alts := AltSettings(Body(data));
    assert OwnerNumber(alts, addr, n);
    ScanAgreesWithTree(data, addr, scan, r);
    FirstOwningIsOwner(alts, addr);
  }
}
