/** Writing a configuration back as bytes, and the trees for which parsing undoes it. */
module ConfigEncode {
  import opened Core
  import opened Descriptors
  import opened ConfigGroups
  import Accounting = ConfigAccounting

  // ---------------------------------------------------------------- the encoder

  function Zeros(n: int): seq<byte> {
    if n <= 0 then [] else seq(n, _ => 0)
  }

  function Low(w: word): byte { w % BYTE_LIMIT }

  function High(w: word): byte { w / BYTE_LIMIT }

  /** A descriptor that claims more than its standard length is padded with zeros. */
  function InterfaceChunk(d: InterfaceDescriptor): Chunk {
    Chunk(DT_INTERFACE,
          [d.length, d.descriptorType, d.interfaceNumber, d.alternateSetting, d.numEndpoints, d.interfaceClass,
           d.interfaceSubClass, d.interfaceProtocol, d.interfaceIndex] + Zeros(d.length - INTERFACE_SIZE))
  }

  function EndpointChunk(d: EndpointDescriptor): Chunk {
    Chunk(DT_ENDPOINT,
          [d.length, d.descriptorType, d.endpointAddr, d.attributes, Low(d.maxPacketSize), High(d.maxPacketSize),
           d.interval] + Zeros(d.length - ENDPOINT_SIZE))
  }

  function CompanionChunk(c: Companion): Chunk {
    Chunk(DT_SS_ENDPOINT_COMPANION,
          [c.length, c.descriptorType, c.maxBurst, c.attributes, Low(c.bytesPerInterval), High(c.bytesPerInterval)]
          + Zeros(c.length - COMPANION_SIZE))
  }

  function EndpointChunks(eps: seq<Endpoint>): seq<Chunk> {
    if eps == [] then []
    else if eps[0].ssCompanion.Some? then
      [EndpointChunk(eps[0].desc), CompanionChunk(eps[0].ssCompanion.value)] + EndpointChunks(eps[1..])
    else [EndpointChunk(eps[0].desc)] + EndpointChunks(eps[1..])
  }

  /** What a setting owns: its Extra first, so that nothing in it follows an endpoint. */
  function Owned(a: AltSetting): seq<Chunk> {
    Chunks(a.extra, 0) + EndpointChunks(a.endpoints)
  }

  function SettingsChunks(alts: seq<AltSetting>): seq<Chunk> {
    if alts == [] then [] else [InterfaceChunk(alts[0].desc)] + (Owned(alts[0]) + SettingsChunks(alts[1..]))
  }

  function ConfigChunks(t: Config): seq<Chunk> {
    Chunks(t.extra, 0) + SettingsChunks(Ungroup(t.interfaces))
  }

  function HeaderBytes(h: Header): seq<byte> {
    [h.length, h.descriptorType, Low(h.totalLength), High(h.totalLength), h.numInterfaces, h.configurationValue,
     h.configurationIndex, h.attributes, h.maxPower]
  }

  function Encode(t: Config): seq<byte> {
    HeaderBytes(t.header) + Flatten(ConfigChunks(t))
  }

  // ---------------------------------------------------------------- well-formed trees

  /** A chunk that carries its own length and type. */
  ghost predicate Whole(c: Chunk) {
    2 <= |c.bytes| && c.bytes[0] == |c.bytes| && c.bytes[1] == c.kind
  }

  ghost predicate AllWhole(cs: seq<Chunk>) {
    forall i :: 0 <= i < |cs| ==> Whole(cs[i])
  }

  /** Whole chunks and no interface: what may stand before the first interface. */
  ghost predicate LeadingChunks(cs: seq<Chunk>) {
    AllWhole(cs) && forall i :: 0 <= i < |cs| ==> !cs[i].IsInterface()
  }

  /** Whole chunks, neither interface nor endpoint: what a setting may leave over. */
  ghost predicate OtherChunks(cs: seq<Chunk>) {
    AllWhole(cs) && forall i :: 0 <= i < |cs| ==> !cs[i].IsInterface() && !cs[i].IsEndpoint()
  }

  ghost predicate ConfigExtraOk(extra: seq<byte>) {
    Flatten(Chunks(extra, 0)) == extra && LeadingChunks(Chunks(extra, 0))
  }

  ghost predicate SettingExtraOk(extra: seq<byte>) {
    Flatten(Chunks(extra, 0)) == extra && OtherChunks(Chunks(extra, 0))
  }

  ghost predicate CompanionOk(c: Companion) {
    c.length >= COMPANION_SIZE && c.descriptorType == DT_SS_ENDPOINT_COMPANION
  }

  ghost predicate EndpointOk(e: Endpoint) {
    && e.desc.length >= ENDPOINT_SIZE && e.desc.descriptorType == DT_ENDPOINT && e.extra == []
    && (e.ssCompanion.Some? ==> CompanionOk(e.ssCompanion.value))
  }

  ghost predicate EndpointsOk(eps: seq<Endpoint>) {
    forall i :: 0 <= i < |eps| ==> EndpointOk(eps[i])
  }

  ghost predicate SettingOk(a: AltSetting) {
    && a.desc.length >= INTERFACE_SIZE && a.desc.descriptorType == DT_INTERFACE
    && EndpointsOk(a.endpoints) && SettingExtraOk(a.extra)
  }

  ghost predicate SettingsOk(alts: seq<AltSetting>) {
    forall i :: 0 <= i < |alts| ==> SettingOk(alts[i])
  }

  /** A nonempty group of settings that share one number, from n up and below the limit. */
  ghost predicate GroupOk(g: Interface, n: byte) {
    && g.altSettings != [] && n <= NumberOf(g) < NUMBER_LIMIT && SettingsOk(g.altSettings)
    && forall j :: 0 <= j < |g.altSettings| ==> g.altSettings[j].desc.interfaceNumber == NumberOf(g)
  }

  /** Strictly ascending groups. */
  ghost predicate GroupsOk(gs: seq<Interface>, n: byte) {
    && (forall i :: 0 <= i < |gs| ==> GroupOk(gs[i], n))
    && (forall i, j :: 0 <= i < j < |gs| ==> NumberOf(gs[i]) < NumberOf(gs[j]))
  }

  ghost predicate WellFormed(t: Config) {
    GroupsOk(t.interfaces, 0) && ConfigExtraOk(t.extra)
  }

  // ---------------------------------------------------------------- chunks are recovered

  lemma {:induction false} FlattenAppend(a: seq<Chunk>, b: seq<Chunk>)
    ensures Flatten(a + b) == Flatten(a) + Flatten(b)
  {
    if a == [] {
      assert a + b == b;
    } else {
      assert (a + b)[1..] == a[1..] + b;
      FlattenAppend(a[1..], b);
    }
  }

  lemma {:induction false} ChunkAt(data: seq<byte>, pos: nat, next: nat, c: Chunk, rest: seq<byte>)
    requires pos <= |data| && data[pos..] == c.bytes + rest && Whole(c) && next == pos + |c.bytes|
    ensures next <= |data| && data[next..] == rest && Chunks(data, pos) == [c] + Chunks(data, next)
  {
    assert |data[pos..]| == |c.bytes| + |rest|;
    assert data[pos] == data[pos..][0] == c.bytes[0];
    assert data[pos + 1] == data[pos..][1] == c.bytes[1];
    assert data[pos..next] == data[pos..][..|c.bytes|];
    assert data[next..] == data[pos..][|c.bytes|..];
  }

  /** Cutting the concatenation of whole chunks gives the chunks back. */
  lemma {:induction false} ChunksOfFlatten(data: seq<byte>, pos: nat, cs: seq<Chunk>)
    requires AllWhole(cs) && pos <= |data| && data[pos..] == Flatten(cs)
    ensures Chunks(data, pos) == cs
    decreases |cs|
  {
    if cs != [] {
      var next := pos + |cs[0].bytes|;
      ChunkAt(data, pos, next, cs[0], Flatten(cs[1..]));
      ChunksOfFlatten(data, next, cs[1..]);
      assert [cs[0]] + cs[1..] == cs;
    }
  }

  lemma {:induction false} ChunksOfExtra(cs: seq<Chunk>)
    requires AllWhole(cs)
    ensures Chunks(Flatten(cs), 0) == cs
  {
    ChunksOfFlatten(Flatten(cs), 0, cs);
  }

  lemma WordBytes(w: word)
    ensures LittleEndian16(Low(w), High(w)) == w
  {
  }

  lemma InterfaceChunkInverse(d: InterfaceDescriptor)
    requires d.length >= INTERFACE_SIZE && d.descriptorType == DT_INTERFACE
    ensures Whole(InterfaceChunk(d)) && InterfaceChunk(d).AsInterface() == d
  {
  }

  lemma EndpointChunkInverse(d: EndpointDescriptor)
    requires d.length >= ENDPOINT_SIZE && d.descriptorType == DT_ENDPOINT
    ensures Whole(EndpointChunk(d)) && EndpointChunk(d).AsEndpoint() == d
  {
    WordBytes(d.maxPacketSize);
  }

  lemma CompanionChunkInverse(c: Companion)
    requires CompanionOk(c)
    ensures Whole(CompanionChunk(c)) && CompanionChunk(c).AsCompanion() == c && CompanionChunk(c).IsCompanion()
  {
    WordBytes(c.bytesPerInterval);
  }

  // ---------------------------------------------------------------- one setting

  /** Every chunk is whole, none is an interface, and every endpoint is long enough. */
  ghost predicate BodyOk(cs: seq<Chunk>) {
    && LeadingChunks(cs)
    && forall i :: 0 <= i < |cs| && cs[i].IsEndpoint() ==> |cs[i].bytes| >= ENDPOINT_SIZE
  }

  lemma {:induction false} EndpointChunksParse(eps: seq<Endpoint>)
    requires EndpointsOk(eps)
    ensures Endpoints(EndpointChunks(eps)) == eps && Leftover(EndpointChunks(eps)) == []
    ensures BodyOk(EndpointChunks(eps))
    ensures EndpointChunks(eps) != [] ==> EndpointChunks(eps)[0].IsEndpoint()
  {
    if eps != [] {
      EndpointChunksParse(eps[1..]);
      EndpointChunksStep(eps, EndpointChunks(eps[1..]));
    }
  }

  lemma {:induction false} EndpointChunksStep(eps: seq<Endpoint>, rest: seq<Chunk>)
    requires eps != [] && EndpointOk(eps[0]) && rest == EndpointChunks(eps[1..]) && BodyOk(rest)
    requires rest != [] ==> rest[0].IsEndpoint()
    ensures Endpoints(EndpointChunks(eps)) == [eps[0]] + Endpoints(rest)
    ensures Leftover(EndpointChunks(eps)) == Leftover(rest)
    ensures BodyOk(EndpointChunks(eps)) && EndpointChunks(eps)[0].IsEndpoint()
  {
    var cs := EndpointChunks(eps);
    EndpointChunkInverse(eps[0].desc);
    if eps[0].ssCompanion.Some? {
      CompanionChunkInverse(eps[0].ssCompanion.value);
      assert cs[2..] == rest;
    } else {
      assert cs[1..] == rest;
    }
  }

  lemma {:induction false} OthersFirst(others: seq<Chunk>, cs: seq<Chunk>)
    requires OtherChunks(others)
    ensures Endpoints(others + cs) == Endpoints(cs)
    ensures Leftover(others + cs) == Flatten(others) + Leftover(cs)
  {
    if others == [] {
      assert others + cs == cs;
    } else {
      assert (others + cs)[1..] == others[1..] + cs;
      OthersFirst(others[1..], cs);
    }
  }

  lemma OwnedParses(a: AltSetting)
    requires SettingOk(a)
    ensures Endpoints(Owned(a)) == a.endpoints && Leftover(Owned(a)) == a.extra && BodyOk(Owned(a))
  {
    EndpointChunksParse(a.endpoints);
    OthersFirst(Chunks(a.extra, 0), EndpointChunks(a.endpoints));
  }

  // ---------------------------------------------------------------- all settings

  lemma {:induction false} LeadOf(body: seq<Chunk>, rest: seq<Chunk>)
    requires LeadingChunks(body) && (rest == [] || rest[0].IsInterface())
    ensures Lead(body + rest) == |body|
  {
    if body == [] {
      assert body + rest == rest;
    } else {
      assert (body + rest)[1..] == body[1..] + rest;
      LeadOf(body[1..], rest);
    }
  }

  lemma {:induction false} ErrorAfter(body: seq<Chunk>, rest: seq<Chunk>, inInterface: bool)
    requires if inInterface then BodyOk(body) else LeadingChunks(body)
    ensures FirstError(body + rest, inInterface) == FirstError(rest, inInterface)
  {
    if body == [] {
      assert body + rest == rest;
    } else {
      assert (body + rest)[1..] == body[1..] + rest;
      ErrorAfter(body[1..], rest, inInterface);
    }
  }

  /** cs spells alts and holds no error. */
  ghost predicate Spells(cs: seq<Chunk>, alts: seq<AltSetting>) {
    && AltSettings(cs) == alts && AllWhole(cs)
    && FirstError(cs, true).None? && FirstError(cs, false).None? && (cs == [] || cs[0].IsInterface())
  }

  lemma {:induction false} AltSettingsFirst(c: Chunk, owned: seq<Chunk>, rest: seq<Chunk>)
    requires Lead(owned + rest) == |owned|
    ensures AltSettings([c] + (owned + rest))
         == [AltSetting(c.AsInterface(), Endpoints(owned), Leftover(owned))] + AltSettings(rest)
  {
    var cs, n := [c] + (owned + rest), |owned|;
    assert cs[1..] == owned + rest && cs[1..n + 1] == owned && cs[n + 1..] == rest;
  }

  lemma SettingFirst(a: AltSetting, owned: seq<Chunk>, rest: seq<Chunk>, alts: seq<AltSetting>)
    requires SettingOk(a) && owned == Owned(a) && Spells(rest, alts)
    ensures Spells([InterfaceChunk(a.desc)] + (owned + rest), [a] + alts)
  {
    InterfaceChunkInverse(a.desc);
    OwnedParses(a);
    LeadOf(owned, rest);
    ErrorAfter(owned, rest, true);
    AltSettingsFirst(InterfaceChunk(a.desc), owned, rest);
    assert ([InterfaceChunk(a.desc)] + (owned + rest))[1..] == owned + rest;
  }

  lemma {:induction false} SettingsParse(alts: seq<AltSetting>)
    requires SettingsOk(alts)
    ensures Spells(SettingsChunks(alts), alts)
  {
    if alts != [] {
      SettingsParse(alts[1..]);
      SettingFirst(alts[0], Owned(alts[0]), SettingsChunks(alts[1..]), alts[1..]);
    }
  }

  // ---------------------------------------------------------------- all groups

  lemma {:induction false} UngroupOk(gs: seq<Interface>, n: byte)
    requires GroupsOk(gs, n)
    ensures SettingsOk(Ungroup(gs))
  {
    if gs != [] {
      assert GroupOk(gs[0], n);
      UngroupOk(gs[1..], n);
    }
  }

  lemma {:induction false} AllNumbered(alts: seq<AltSetting>, n: byte)
    requires forall j :: 0 <= j < |alts| ==> alts[j].desc.interfaceNumber == n
    ensures forall m: byte :: Numbered(alts, m) == if m == n then alts else []
  {
    if alts != [] { AllNumbered(alts[1..], n); }
  }

  /** Only groups numbered from n up are asked for, so the settings of a smaller number play no part. */
  lemma {:induction false} GroupsSkip(a: seq<AltSetting>, b: seq<AltSetting>, n: byte)
    requires n <= NUMBER_LIMIT && forall j :: 0 <= j < |a| ==> a[j].desc.interfaceNumber < n
    ensures Groups(a + b, n) == Groups(b, n)
    decreases NUMBER_LIMIT - n
  {
    if n < NUMBER_LIMIT {
      NumberedAppend(a, b, n);
      NoneNumbered(a, n);
      assert [] + Numbered(b, n) == Numbered(b, n);
      GroupsSkip(a, b, n + 1);
    }
  }

  lemma {:induction false} NumberedAbove(gs: seq<Interface>, m: byte, n: byte)
    requires GroupsOk(gs, m) && n < m
    ensures Numbered(Ungroup(gs), n) == []
  {
    if gs != [] {
      assert GroupOk(gs[0], m);
      AllNumbered(gs[0].altSettings, NumberOf(gs[0]));
      NumberedAppend(gs[0].altSettings, Ungroup(gs[1..]), n);
      NumberedAbove(gs[1..], m, n);
    }
  }

  lemma GroupsOkTail(gs: seq<Interface>, n: byte)
    requires gs != [] && GroupsOk(gs, n) && NumberOf(gs[0]) == n
    ensures n < NUMBER_LIMIT && GroupsOk(gs[1..], n + 1)
  {
    var rest := gs[1..];
    assert GroupOk(gs[0], n);
    forall i | 0 <= i < |rest| ensures GroupOk(rest[i], n + 1) { assert GroupOk(gs[i + 1], n); }
  }

  lemma GroupsOkAbove(gs: seq<Interface>, n: byte)
    requires gs != [] && GroupsOk(gs, n) && NumberOf(gs[0]) != n
    ensures n < NUMBER_LIMIT && GroupsOk(gs, n + 1)
  {
    assert GroupOk(gs[0], n);
    forall i | 0 <= i < |gs| ensures GroupOk(gs[i], n + 1) { assert GroupOk(gs[i], n); }
  }

  lemma FirstGroup(gs: seq<Interface>, n: byte)
    requires n < NUMBER_LIMIT && gs != [] && GroupOk(gs[0], n) && NumberOf(gs[0]) == n && GroupsOk(gs[1..], n + 1)
    ensures Groups(Ungroup(gs), n) == [gs[0]] + Groups(Ungroup(gs[1..]), n + 1)
  {
    var g, rest := gs[0], Ungroup(gs[1..]);
    AllNumbered(g.altSettings, n);
    NumberedAppend(g.altSettings, rest, n);
    NumberedAbove(gs[1..], n + 1, n);
    GroupsSkip(g.altSettings, rest, n + 1);
    assert Numbered(g.altSettings + rest, n) == g.altSettings;
  }

  lemma NoGroup(gs: seq<Interface>, n: byte)
    requires n < NUMBER_LIMIT && GroupsOk(gs, n + 1)
    ensures Groups(Ungroup(gs), n) == Groups(Ungroup(gs), n + 1)
  {
    NumberedAbove(gs, n + 1, n);
  }

  lemma {:induction false} GroupsOfNone(n: byte)
    requires n <= NUMBER_LIMIT
    ensures Groups([], n) == []
    decreases NUMBER_LIMIT - n
  {
    if n < NUMBER_LIMIT { GroupsOfNone(n + 1); }
  }

  /** Grouping the settings of ascending groups gives the groups back. */
  lemma {:induction false} GroupsOfUngroup(gs: seq<Interface>, n: byte)
    requires n <= NUMBER_LIMIT && GroupsOk(gs, n)
    ensures Groups(Ungroup(gs), n) == gs
    decreases NUMBER_LIMIT - n
  {
    if gs == [] {
      GroupsOfNone(n);
      return;
    }
    assert GroupOk(gs[0], n);
    if NumberOf(gs[0]) == n {
      GroupsOkTail(gs, n);
      GroupsOfUngroup(gs[1..], n + 1);
      FirstGroup(gs, n);
      assert [gs[0]] + gs[1..] == gs;
    } else {
      GroupsOkAbove(gs, n);
      NoGroup(gs, n);
      GroupsOfUngroup(gs, n + 1);
    }
  }

  // ---------------------------------------------------------------- the round trip

  /** No chunk of data consists of its length byte alone. */
  ghost predicate NoStrayByte(data: seq<byte>) {
    AllWhole(Chunks(data, CONFIG_SIZE))
  }

  lemma HeaderRoundTrip(h: Header, rest: seq<byte>)
    ensures ParseHeader(HeaderBytes(h) + rest) == h
  {
    WordBytes(h.totalLength);
  }

  /** Parsing the encoding of a well-formed tree gives the same tree, companions included. */
  lemma RoundTrip(t: Config)
    requires WellFormed(t)
    ensures NoStrayByte(Encode(t)) && Parse(Encode(t)) == Success(t)
  {
    var data, pre, alts := Encode(t), Chunks(t.extra, 0), Ungroup(t.interfaces);
    var cs, body := ConfigChunks(t), SettingsChunks(alts);
    UngroupOk(t.interfaces, 0);
    SettingsParse(alts);
    LeadOf(pre, body);
    ErrorAfter(pre, body, false);
    ChunksOfFlatten(data, CONFIG_SIZE, cs);
    HeaderRoundTrip(t.header, Flatten(cs));
    assert cs[..|pre|] == pre && cs[|pre|..] == body;
    GroupsOfUngroup(t.interfaces, 0);
  }

  // ---------------------------------------------------------------- every parsed tree is well-formed

  lemma {:induction false} ChunksCarryLength(data: seq<byte>, pos: nat)
    ensures forall i :: 0 <= i < |Chunks(data, pos)| ==>
              var c := Chunks(data, pos)[i]; c.bytes != [] && c.bytes[0] == |c.bytes|
    decreases |data| - pos
  {
    if !(pos + 2 > |data| || data[pos] == 0 || pos + data[pos] > |data|) {
      ChunksCarryLength(data, pos + data[pos]);
    }
  }

  /** The chunks Leftover copies. */
  function Others(cs: seq<Chunk>): (r: seq<Chunk>) {
    if cs == [] then []
    else if !cs[0].IsEndpoint() then [cs[0]] + Others(cs[1..])
    else if |cs| > 1 && cs[1].IsCompanion() then Others(cs[2..])
    else Others(cs[1..])
  }

  lemma {:induction false} OthersAreLeftover(cs: seq<Chunk>)
    requires LeadingChunks(cs)
    ensures Flatten(Others(cs)) == Leftover(cs) && OtherChunks(Others(cs))
    decreases |cs|
  {
    if cs != [] {
      if cs[0].IsEndpoint() && |cs| > 1 && cs[1].IsCompanion() {
        OthersAreLeftover(cs[2..]);
      } else {
        OthersAreLeftover(cs[1..]);
      }
    }
  }

  lemma {:induction false} EndpointsAreOk(cs: seq<Chunk>)
    requires BodyOk(cs)
    ensures EndpointsOk(Endpoints(cs))
    decreases |cs|
  {
    if cs != [] {
      assert Whole(cs[0]);
      if cs[0].IsEndpoint() && |cs| > 1 && cs[1].IsCompanion() {
        assert Whole(cs[1]);
        EndpointsAreOk(cs[2..]);
      } else {
        EndpointsAreOk(cs[1..]);
      }
    }
  }

  /** Without an error every owned endpoint is long enough. */
  lemma {:induction false} NoErrorOwned(cs: seq<Chunk>)
    requires AllWhole(cs) && FirstError(cs, true).None?
    ensures BodyOk(cs[..Lead(cs)]) && FirstError(cs[Lead(cs)..], true).None?
  {
    if cs == [] || cs[0].IsInterface() {
      assert cs[0..] == cs;
    } else {
      assert Whole(cs[0]);
      NoErrorOwned(cs[1..]);
      var n := Lead(cs[1..]);
      assert cs[..n + 1] == [cs[0]] + cs[1..][..n] && cs[1..][n..] == cs[n + 1..];
    }
  }

  lemma {:induction false} FirstSettingOk(cs: seq<Chunk>, body: seq<Chunk>)
    requires cs != [] && Whole(cs[0]) && cs[0].IsInterface() && |cs[0].bytes| >= INTERFACE_SIZE && BodyOk(body)
    ensures SettingOk(AltSetting(cs[0].AsInterface(), Endpoints(body), Leftover(body)))
  {
    EndpointsAreOk(body);
    OthersAreLeftover(body);
    ChunksOfExtra(Others(body));
  }

  /** The body of the first setting and what follows it, when cs holds no error. */
  lemma SplitOk(cs: seq<Chunk>) returns (body: seq<Chunk>, rest: seq<Chunk>)
    requires cs != [] && cs[0].IsInterface() && AllWhole(cs) && FirstError(cs, true).None?
    ensures Accounting.Split(cs, body, rest) && |rest| < |cs| && |cs[0].bytes| >= INTERFACE_SIZE
    ensures BodyOk(body) && AllWhole(rest) && FirstError(rest, true).None?
    ensures AltSettings(cs) == [AltSetting(cs[0].AsInterface(), Endpoints(body), Leftover(body))] + AltSettings(rest)
  {
    NoErrorOwned(cs[1..]);
    body, rest := Accounting.SplitOff(cs);
  }

  lemma {:induction false} SettingsAreOk(cs: seq<Chunk>)
    requires AllWhole(cs) && FirstError(cs, true).None? && (cs == [] || cs[0].IsInterface())
    ensures SettingsOk(AltSettings(cs))
    decreases |cs|
  {
    if cs != [] {
      var body, rest := SplitOk(cs);
      FirstSettingOk(cs, body);
      SettingsAreOk(rest);
    }
  }

  lemma {:induction false} NumberedIsOk(alts: seq<AltSetting>, n: byte)
    requires SettingsOk(alts)
    ensures SettingsOk(Numbered(alts, n))
  {
    if alts != [] {
      assert SettingOk(alts[0]);
      NumberedIsOk(alts[1..], n);
    }
  }

  lemma {:induction false} GroupsAreOk(alts: seq<AltSetting>)
    requires SettingsOk(alts)
    ensures GroupsOk(Groups(alts, 0), 0)
  {
    var gs := Groups(alts, 0);
    GroupsAscend(alts, 0);
    forall i | 0 <= i < |gs| ensures GroupOk(gs[i], 0) {
      assert WholeGroup(alts, gs[i], 0);
      NumberedIsOk(alts, NumberOf(gs[i]));
      NumberedNumber(alts, NumberOf(gs[i]));
    }
  }

  lemma {:induction false} ErrorStartsInBody(cs: seq<Chunk>)
    requires FirstError(cs, false).None?
    ensures FirstError(cs[Lead(cs)..], true).None?
  {
    if cs == [] || cs[0].IsInterface() {
      assert cs[0..] == cs;
    } else {
      ErrorStartsInBody(cs[1..]);
      assert cs[1..][Lead(cs[1..])..] == cs[Lead(cs)..];
    }
  }

  lemma ParsedIsWellFormed(data: seq<byte>)
    requires Parse(data).Success? && NoStrayByte(data)
    ensures WellFormed(Parse(data).value)
  {
    var cs := Chunks(data, CONFIG_SIZE);
    ErrorStartsInBody(cs);
    SettingsAreOk(Body(data));
    GroupsAreOk(AltSettings(Body(data)));
    ChunksOfExtra(Preamble(data));
  }

  /** The well-formed trees are exactly the results of parsing bytes whose chunks have at least two bytes. */
  lemma WellFormedIffParsed(t: Config)
    ensures WellFormed(t) <==> exists data :: NoStrayByte(data) && Parse(data) == Success(t)
  {
    if WellFormed(t) { RoundTrip(t); }
    forall data | NoStrayByte(data) && Parse(data) == Success(t) ensures WellFormed(t) {
      ParsedIsWellFormed(data);
    }
  }
}
