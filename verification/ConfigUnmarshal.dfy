/** ConfigDescriptor with its single-pass parser and its lookups. */
module ConfigUnmarshal {
  import opened Core
  import opened Descriptors
  import opened ConfigGroups

  // ---------------------------------------------------------------- the loop's accumulators

  /**
   The alternate settings still to come: the current one, whose endpoints and leftover bytes so far
   are eps and buffer, completed from cs, and the ones after it.
   */
  function Pending(current: Option<InterfaceDescriptor>, eps: seq<Endpoint>, buffer: seq<byte>, cs: seq<Chunk>):
    seq<AltSetting>
  {
    var n := Lead(cs);
    match current
    case None => AltSettings(cs[n..])
    case Some(d) => [AltSetting(d, eps + Endpoints(cs[..n]), buffer + Leftover(cs[..n]))] + AltSettings(cs[n..])
  }

  /** The current setting, if any, as it is saved. */
  function Closed(current: Option<InterfaceDescriptor>, eps: seq<Endpoint>, buffer: seq<byte>): seq<AltSetting> {
    match current case None => [] case Some(d) => [AltSetting(d, eps, buffer)]
  }

  lemma PendingInterface(current: Option<InterfaceDescriptor>, eps: seq<Endpoint>, buffer: seq<byte>, cs: seq<Chunk>)
    requires cs != [] && cs[0].IsInterface()
    ensures Pending(current, eps, buffer, cs) ==
            Closed(current, eps, buffer) + Pending(Some(cs[0].AsInterface()), [], [], cs[1..])
  {
    var n := Lead(cs[1..]);
    assert Lead(cs) == 0 && cs[0..] == cs && cs[..0] == [];
    assert cs[1..][..n] == cs[1..n + 1] && cs[1..][n..] == cs[n + 1..];
    assert eps + Endpoints([]) == eps && buffer + Leftover([]) == buffer;
    var x := AltSetting(cs[0].AsInterface(), Endpoints(cs[1..n + 1]), Leftover(cs[1..n + 1]));
    assert x == AltSetting(cs[0].AsInterface(), [] + Endpoints(cs[1..][..n]), [] + Leftover(cs[1..][..n]));
  }

  lemma PendingOther(d: InterfaceDescriptor, eps: seq<Endpoint>, buffer: seq<byte>, cs: seq<Chunk>)
    requires cs != [] && !cs[0].IsInterface() && !cs[0].IsEndpoint()
    ensures Pending(Some(d), eps, buffer, cs) == Pending(Some(d), eps, buffer + cs[0].bytes, cs[1..])
  {
    var n := Lead(cs[1..]);
    assert cs[..n + 1][1..] == cs[1..][..n] && cs[1..][n..] == cs[n + 1..];
    assert (buffer + cs[0].bytes) + Leftover(cs[1..][..n]) == buffer + (cs[0].bytes + Leftover(cs[1..][..n]));
  }

  lemma PendingEndpoint(d: InterfaceDescriptor, eps: seq<Endpoint>, buffer: seq<byte>, cs: seq<Chunk>)
    requires cs != [] && cs[0].IsEndpoint() && !(|cs| > 1 && cs[1].IsCompanion())
    ensures Pending(Some(d), eps, buffer, cs)
         == Pending(Some(d), eps + [Endpoint(cs[0].AsEndpoint(), None, [])], buffer, cs[1..])
  {
    var n := Lead(cs[1..]);
    var e := Endpoint(cs[0].AsEndpoint(), None, []);
    assert cs[..n + 1][1..] == cs[1..][..n] && cs[1..][n..] == cs[n + 1..];
    assert n > 0 ==> cs[..n + 1][1] == cs[1];
    assert (eps + [e]) + Endpoints(cs[1..][..n]) == eps + ([e] + Endpoints(cs[1..][..n]));
  }

  lemma {:induction false} PendingSome(d: InterfaceDescriptor, eps: seq<Endpoint>, buffer: seq<byte>, cs: seq<Chunk>,
                                       own: seq<Chunk>, rest: seq<Chunk>)
    requires own == cs[..Lead(cs)] && rest == cs[Lead(cs)..]
    ensures Pending(Some(d), eps, buffer, cs)
         == [AltSetting(d, eps + Endpoints(own), buffer + Leftover(own))] + AltSettings(rest)
  {
  }

  lemma {:induction false} OwnPair(c: Chunk, p: Chunk, own: seq<Chunk>)
    requires c.IsEndpoint() && p.IsCompanion()
    ensures Endpoints([c, p] + own) == [Endpoint(c.AsEndpoint(), Some(p.AsCompanion()), [])] + Endpoints(own)
    ensures Leftover([c, p] + own) == Leftover(own)
  {
    assert ([c, p] + own)[2..] == own;
  }

  lemma {:induction false} LeadPastPair(cs: seq<Chunk>, n: nat)
    requires |cs| > 1 && cs[0].IsEndpoint() && cs[1].IsCompanion() && n == Lead(cs[2..])
    ensures Lead(cs) == n + 2 && cs[..n + 2] == [cs[0], cs[1]] + cs[2..][..n] && cs[n + 2..] == cs[2..][n..]
  {
    assert cs[1..][1..] == cs[2..];
  }

  lemma PendingCompanion(d: InterfaceDescriptor, eps: seq<Endpoint>, buffer: seq<byte>, cs: seq<Chunk>)
    requires |cs| > 1 && cs[0].IsEndpoint() && cs[1].IsCompanion()
    ensures Pending(Some(d), eps, buffer, cs)
         == Pending(Some(d), eps + [Endpoint(cs[0].AsEndpoint(), Some(cs[1].AsCompanion()), [])], buffer, cs[2..])
  {
    var n := Lead(cs[2..]);
    var own, rest := cs[2..][..n], cs[2..][n..];
    var e := Endpoint(cs[0].AsEndpoint(), Some(cs[1].AsCompanion()), []);
    LeadPastPair(cs, n);
    OwnPair(cs[0], cs[1], own);
    PendingSome(d, eps, buffer, cs, [cs[0], cs[1]] + own, rest);
    PendingSome(d, eps + [e], buffer, cs[2..], own, rest);
    Regroup(eps, [e], Endpoints(own));
  }

  lemma {:induction false} FlattenLead(cs: seq<Chunk>)
    requires cs != [] && !cs[0].IsInterface()
    ensures Flatten(cs[..Lead(cs)]) == cs[0].bytes + Flatten(cs[1..][..Lead(cs[1..])])
  {
    assert cs[..Lead(cs)][1..] == cs[1..][..Lead(cs[1..])];
  }

  /** m holds exactly the alternate settings in alts, by number. */
  ghost predicate Represents(m: map<byte, seq<AltSetting>>, alts: seq<AltSetting>) {
    && (forall n: byte :: n in m <==> Numbered(alts, n) != [])
    && (forall n: byte :: n in m ==> m[n] == Numbered(alts, n))
  }

  /** Appending x under its number, creating the entry if it is new. */
  function Add(m: map<byte, seq<AltSetting>>, x: AltSetting): map<byte, seq<AltSetting>> {
    var n := x.desc.interfaceNumber;
    m[n := (if n in m then m[n] else []) + [x]]
  }

  lemma {:induction false} NumberedSnoc(alts: seq<AltSetting>, x: AltSetting, n: byte)
    ensures Numbered(alts + [x], n) ==
            if x.desc.interfaceNumber == n then Numbered(alts, n) + [x] else Numbered(alts, n)
  {
    NumberedAppend(alts, [x], n);
    assert [x][1..] == [];
  }

  lemma AddRepresents(m: map<byte, seq<AltSetting>>, alts: seq<AltSetting>, x: AltSetting)
    requires Represents(m, alts)
    ensures Represents(Add(m, x), alts + [x])
  {
    var m' := Add(m, x);
    forall n: byte
      ensures n in m' <==> Numbered(alts + [x], n) != []
      ensures n in m' ==> m'[n] == Numbered(alts + [x], n)
    {
      NumberedSnoc(alts, x, n);
      assert n in m <==> Numbered(alts, n) != [];
    }
  }

  /** Saving the current setting, if there is one. */
  function Save(m: map<byte, seq<AltSetting>>, current: Option<InterfaceDescriptor>, eps: seq<Endpoint>,
                buffer: seq<byte>): map<byte, seq<AltSetting>>
  {
    match current case None => m case Some(d) => Add(m, AltSetting(d, eps, buffer))
  }

  lemma SaveRepresents(m: map<byte, seq<AltSetting>>, alts: seq<AltSetting>, current: Option<InterfaceDescriptor>,
                       eps: seq<Endpoint>, buffer: seq<byte>)
    requires Represents(m, alts)
    ensures Represents(Save(m, current, eps, buffer), alts + Closed(current, eps, buffer))
  {
    match current
    case None => assert alts + [] == alts;
    case Some(d) => AddRepresents(m, alts, AltSetting(d, eps, buffer));
  }

  // ---------------------------------------------------------------- one pass over the chunks

  /** The accumulators of the walk: the current setting and what it has gathered, and what is finished. */
  datatype Acc = Acc(
    current: Option<InterfaceDescriptor>, endpoints: seq<Endpoint>, buffer: seq<byte>,
    saved: seq<AltSetting>, lead: seq<byte>)
  {
    /** The finished settings, the current one included. */
    function Saved(): seq<AltSetting> {
      saved + Closed(current, endpoints, buffer)
    }

    function Open(d: InterfaceDescriptor): Acc {
      Acc(Some(d), [], [], Saved(), lead)
    }
  }

  const START := Acc(None, [], [], [], [])

  /** What a walk ends with. */
  datatype Outcome = Outcome(error: Option<ParseError>, alts: seq<AltSetting>, lead: seq<byte>)

  /** The walk as a fold over the chunks, with one chunk of look-ahead after an endpoint. */
  function Fold(a: Acc, cs: seq<Chunk>): Outcome
    decreases |cs|
  {
    if cs == [] then Outcome(None, a.Saved(), a.lead)
    else if cs[0].IsInterface() then
      if |cs[0].bytes| < INTERFACE_SIZE then Outcome(Some(InterfaceTooShort(|cs[0].bytes|)), [], a.lead)
      else Fold(a.Open(cs[0].AsInterface()), cs[1..])
    else if a.current.None? then Fold(a.(lead := a.lead + cs[0].bytes), cs[1..])
    else if !cs[0].IsEndpoint() then Fold(a.(buffer := a.buffer + cs[0].bytes), cs[1..])
    else if |cs[0].bytes| < ENDPOINT_SIZE then Outcome(Some(EndpointTooShort(|cs[0].bytes|)), [], a.lead)
    else if |cs| > 1 && cs[1].IsCompanion() then
      var e := Endpoint(cs[0].AsEndpoint(), Some(cs[1].AsCompanion()), []);
      Fold(a.(endpoints := a.endpoints + [e]), cs[2..])
    else
      var e := Endpoint(cs[0].AsEndpoint(), None, []);
      Fold(a.(endpoints := a.endpoints + [e]), cs[1..])
  }

  /** What the fold computes, said without its accumulators. */
  ghost predicate Meant(a: Acc, cs: seq<Chunk>, o: Outcome) {
    && o.error == FirstError(cs, a.current.Some?)
    && o.lead == (if a.current.Some? then a.lead else a.lead + Flatten(cs[..Lead(cs)]))
    && (o.error.None? ==> o.alts == a.saved + Pending(a.current, a.endpoints, a.buffer, cs))
  }

  lemma {:induction false} MeantAtEnd(a: Acc)
    ensures Meant(a, [], Fold(a, []))
  {
    var none: seq<Chunk> := [];
    assert none[..Lead(none)] == [] && none[Lead(none)..] == [];
    assert a.endpoints + Endpoints([]) == a.endpoints && a.buffer + Leftover([]) == a.buffer;
    assert a.lead + Flatten([]) == a.lead;
  }

  lemma MeantAtInterface(a: Acc, cs: seq<Chunk>, o: Outcome)
    requires cs != [] && cs[0].IsInterface() && |cs[0].bytes| >= INTERFACE_SIZE
    requires Meant(a.Open(cs[0].AsInterface()), cs[1..], o)
    ensures Meant(a, cs, o)
  {
    assert cs[..0] == [] && a.lead + [] == a.lead;
    var later := Pending(Some(cs[0].AsInterface()), [], [], cs[1..]);
    PendingInterface(a.current, a.endpoints, a.buffer, cs);
    assert a.saved + (Closed(a.current, a.endpoints, a.buffer) + later) == a.Saved() + later;
  }

  lemma MeantAtLeading(a: Acc, cs: seq<Chunk>, o: Outcome)
    requires cs != [] && !cs[0].IsInterface() && a.current.None?
    requires Meant(a.(lead := a.lead + cs[0].bytes), cs[1..], o)
    ensures Meant(a, cs, o)
  {
    var tail := cs[1..];
    var n := Lead(tail);
    FlattenLead(cs);
    assert Lead(cs) == n + 1 && cs[n + 1..] == tail[n..];
    Regroup(a.lead, cs[0].bytes, Flatten(tail[..n]));
  }

  lemma MeantAtOther(a: Acc, cs: seq<Chunk>, o: Outcome)
    requires cs != [] && !cs[0].IsInterface() && !cs[0].IsEndpoint() && a.current.Some?
    requires Meant(a.(buffer := a.buffer + cs[0].bytes), cs[1..], o)
    ensures Meant(a, cs, o)
  {
    PendingOther(a.current.value, a.endpoints, a.buffer, cs);
  }

  lemma MeantAtEndpoint(a: Acc, cs: seq<Chunk>, o: Outcome)
    requires cs != [] && cs[0].IsEndpoint() && |cs[0].bytes| >= ENDPOINT_SIZE && a.current.Some?
    requires !(|cs| > 1 && cs[1].IsCompanion())
    requires Meant(a.(endpoints := a.endpoints + [Endpoint(cs[0].AsEndpoint(), None, [])]), cs[1..], o)
    ensures Meant(a, cs, o)
  {
    PendingEndpoint(a.current.value, a.endpoints, a.buffer, cs);
  }

  lemma MeantAtCompanion(a: Acc, cs: seq<Chunk>, o: Outcome)
    requires |cs| > 1 && cs[0].IsEndpoint() && |cs[0].bytes| >= ENDPOINT_SIZE && a.current.Some?
    requires cs[1].IsCompanion()
    requires Meant(a.(endpoints := a.endpoints + [Endpoint(cs[0].AsEndpoint(), Some(cs[1].AsCompanion()), [])]),
                   cs[2..], o)
    ensures Meant(a, cs, o)
  {
    PendingCompanion(a.current.value, a.endpoints, a.buffer, cs);
    assert cs[1..][0] == cs[1] && cs[1..][1..] == cs[2..];
    assert FirstError(cs, true) == FirstError(cs[1..], true) == FirstError(cs[2..], true);
  }

  /** The fold computes what the chunks mean: first error, settings, and leading leftovers. */
  lemma {:induction false} FoldMeans(a: Acc, cs: seq<Chunk>)
    ensures Meant(a, cs, Fold(a, cs))
    decreases |cs|
  {
    if cs == [] {
      MeantAtEnd(a);
    } else if cs[0].IsInterface() {
      if |cs[0].bytes| < INTERFACE_SIZE {
        assert cs[..0] == [] && a.lead + [] == a.lead;
      } else {
        FoldMeans(a.Open(cs[0].AsInterface()), cs[1..]);
        MeantAtInterface(a, cs, Fold(a, cs));
      }
    } else if a.current.None? {
      FoldMeans(a.(lead := a.lead + cs[0].bytes), cs[1..]);
      MeantAtLeading(a, cs, Fold(a, cs));
    } else if !cs[0].IsEndpoint() {
      FoldMeans(a.(buffer := a.buffer + cs[0].bytes), cs[1..]);
      MeantAtOther(a, cs, Fold(a, cs));
    } else if |cs[0].bytes| >= ENDPOINT_SIZE {
      if |cs| > 1 && cs[1].IsCompanion() {
        var e := Endpoint(cs[0].AsEndpoint(), Some(cs[1].AsCompanion()), []);
        FoldMeans(a.(endpoints := a.endpoints + [e]), cs[2..]);
        MeantAtCompanion(a, cs, Fold(a, cs));
      } else {
        var e := Endpoint(cs[0].AsEndpoint(), None, []);
        FoldMeans(a.(endpoints := a.endpoints + [e]), cs[1..]);
        MeantAtEndpoint(a, cs, Fold(a, cs));
      }
    }
  }

  /** What the fold over all chunks of data gives. */
  lemma {:induction false} FoldAll(data: seq<byte>)
    ensures var o := Fold(START, Chunks(data, CONFIG_SIZE));
      && o.error == FirstError(Chunks(data, CONFIG_SIZE), false)
      && o.lead == Flatten(Preamble(data))
      && (o.error.None? ==> o.alts == AltSettings(Body(data)))
  {
    FoldMeans(START, Chunks(data, CONFIG_SIZE));
  }

  /** Parsing gives what the walk ended with. */
  ghost predicate ParsedAs(data: seq<byte>, o: Outcome)
    requires |data| >= CONFIG_SIZE
  {
    && o.lead == Flatten(Preamble(data))
    && Parse(data) == if o.error.Some? then Failure(o.error.value)
                      else Success(Config(ParseHeader(data), Groups(o.alts, 0), o.lead))
  }

  lemma {:induction false} ParseIsFold(data: seq<byte>, o: Outcome)
    requires |data| >= CONFIG_SIZE && o == Fold(START, Chunks(data, CONFIG_SIZE))
    ensures ParsedAs(data, o)
  {
    FoldAll(data);
  }

  // ---------------------------------------------------------------- chunks where they lie

  /** There is a whole chunk at pos. */
  predicate HasChunk(data: seq<byte>, pos: nat) {
    pos + 2 <= |data| && data[pos] != 0 && pos + data[pos] <= |data|
  }

  /** The look-ahead for a SuperSpeed companion. */
  predicate CompanionAt(data: seq<byte>, pos: nat) {
    && pos + 2 <= |data| && data[pos + 1] == DT_SS_ENDPOINT_COMPANION
    && pos + data[pos] <= |data| && data[pos] >= COMPANION_SIZE
  }

  function ReadCompanion(data: seq<byte>, pos: nat): (c: Companion)
    requires CompanionAt(data, pos)
    ensures c == Chunk(data[pos + 1], data[pos..pos + data[pos]]).AsCompanion()
  {
    Companion(data[pos], data[pos + 1], data[pos + 2], data[pos + 3], LittleEndian16(data[pos + 4], data[pos + 5]))
  }

  function ReadInterface(data: seq<byte>, pos: nat): (d: InterfaceDescriptor)
    requires HasChunk(data, pos) && data[pos] >= INTERFACE_SIZE
    ensures d == Chunk(data[pos + 1], data[pos..pos + data[pos]]).AsInterface()
  {
    InterfaceDescriptor(data[pos], data[pos + 1], data[pos + 2], data[pos + 3], data[pos + 4], data[pos + 5],
                        data[pos + 6], data[pos + 7], data[pos + 8])
  }

  function ReadEndpoint(data: seq<byte>, pos: nat): (d: EndpointDescriptor)
    requires HasChunk(data, pos) && data[pos] >= ENDPOINT_SIZE
    ensures d == Chunk(data[pos + 1], data[pos..pos + data[pos]]).AsEndpoint()
  {
    EndpointDescriptor(data[pos], data[pos + 1], data[pos + 2], data[pos + 3],
                       LittleEndian16(data[pos + 4], data[pos + 5]), data[pos + 6])
  }

  lemma {:induction false} NoChunk(data: seq<byte>, pos: nat)
    requires !HasChunk(data, pos)
    ensures Chunks(data, pos) == []
  {
  }

  lemma FirstChunk(data: seq<byte>, pos: nat)
    requires HasChunk(data, pos)
    ensures Chunks(data, pos) != [] && Chunks(data, pos)[0] == Chunk(data[pos + 1], data[pos..pos + data[pos]])
    ensures Chunks(data, pos)[1..] == Chunks(data, pos + data[pos])
  {
  }

  /** The chunk after the one at pos is a companion exactly when the look-ahead says so. */
  lemma NextIsCompanion(data: seq<byte>, pos: nat)
    requires HasChunk(data, pos)
    ensures var cs, next := Chunks(data, pos), pos + data[pos];
      && (|cs| > 1 && cs[1].IsCompanion() <==> CompanionAt(data, next))
      && (CompanionAt(data, next) ==>
            cs[1] == Chunk(data[next + 1], data[next..next + data[next]])
            && cs[2..] == Chunks(data, next + data[next]))
  {
    FirstChunk(data, pos);
    var next := pos + data[pos];
    if HasChunk(data, next) {
      FirstChunk(data, next);
      assert Chunks(data, pos)[2..] == Chunks(data, next)[1..];
    }
  }

  lemma {:induction false} FoldOverOther(a: Acc, cs: seq<Chunk>, bytes: seq<byte>, rest: seq<Chunk>)
    requires cs != [] && cs[0].bytes == bytes && cs[1..] == rest
    requires !cs[0].IsInterface() && !cs[0].IsEndpoint() && a.current.Some?
    ensures Fold(a, cs) == Fold(a.(buffer := a.buffer + bytes), rest)
  {
  }

  /** The chunk at pos in an alternate setting, when it is neither an interface nor an endpoint. */
  lemma {:induction false} FoldOther(a: Acc, data: seq<byte>, pos: nat, next: nat)
    requires HasChunk(data, pos) && next == pos + data[pos]
    requires data[pos + 1] != DT_INTERFACE && data[pos + 1] != DT_ENDPOINT && a.current.Some?
    ensures Fold(a, Chunks(data, pos)) == Fold(a.(buffer := a.buffer + data[pos..next]), Chunks(data, next))
  {
    FirstChunk(data, pos);
    FoldOverOther(a, Chunks(data, pos), data[pos..next], Chunks(data, next));
  }

  /** The chunk at pos before the first interface. */
  lemma {:induction false} FoldLeading(a: Acc, data: seq<byte>, pos: nat, next: nat)
    requires HasChunk(data, pos) && next == pos + data[pos]
    requires data[pos + 1] != DT_INTERFACE && a.current.None?
    ensures Fold(a, Chunks(data, pos)) == Fold(a.(lead := a.lead + data[pos..next]), Chunks(data, next))
  {
    FirstChunk(data, pos);
  }

  /** An interface descriptor at pos. */
  lemma {:induction false} FoldInterface(a: Acc, data: seq<byte>, pos: nat, next: nat)
    requires HasChunk(data, pos) && next == pos + data[pos] && data[pos + 1] == DT_INTERFACE
    ensures data[pos] < INTERFACE_SIZE ==>
      Fold(a, Chunks(data, pos)) == Outcome(Some(InterfaceTooShort(data[pos])), [], a.lead)
    ensures data[pos] >= INTERFACE_SIZE ==>
      Fold(a, Chunks(data, pos)) == Fold(a.Open(ReadInterface(data, pos)), Chunks(data, next))
  {
    FirstChunk(data, pos);
  }

  lemma FoldShortEndpoint(a: Acc, data: seq<byte>, pos: nat)
    requires HasChunk(data, pos) && data[pos + 1] == DT_ENDPOINT && data[pos] < ENDPOINT_SIZE && a.current.Some?
    ensures Fold(a, Chunks(data, pos)) == Outcome(Some(EndpointTooShort(data[pos])), [], a.lead)
  {
    FirstChunk(data, pos);
  }

  /** The endpoint at pos with the companion the look-ahead finds, and where the walk goes on. */
  method TakeEndpoint(data: seq<byte>, pos: nat, ghost a: Acc) returns (endpoint: Endpoint, next: nat)
    requires HasChunk(data, pos) && data[pos + 1] == DT_ENDPOINT && data[pos] >= ENDPOINT_SIZE && a.current.Some?
    ensures pos < next <= |data|
    ensures Fold(a, Chunks(data, pos)) == Fold(a.(endpoints := a.endpoints + [endpoint]), Chunks(data, next))
  {
    endpoint := Endpoint(ReadEndpoint(data, pos), None, []);
    next := pos + data[pos];
    FirstChunk(data, pos);
    NextIsCompanion(data, pos);
    if CompanionAt(data, next) {
      endpoint := endpoint.(ssCompanion := Some(ReadCompanion(data, next)));
      next := next + data[next];
    }
  }

  /**
   One round of the sort: the interface numbered i, if there is one, is added. now and later are the
   groups from i and from i + 1.
   */
  lemma {:induction false} SortStep(interfaceMap: map<byte, seq<AltSetting>>, alts: seq<AltSetting>, i: byte,
                                    before: seq<Interface>, now: seq<Interface>, later: seq<Interface>)
    requires Represents(interfaceMap, alts)
    requires now == if Numbered(alts, i) == [] then later
                    else [Descriptors.Interface.Interface(Numbered(alts, i))] + later
    ensures if i in interfaceMap
            then before + [Descriptors.Interface.Interface(interfaceMap[i])] + later == before + now
            else before + later == before + now
  {
    assert i in interfaceMap <==> Numbered(alts, i) != [];
    if i in interfaceMap { Regroup(before, [Descriptors.Interface.Interface(interfaceMap[i])], later); }
  }

  // ---------------------------------------------------------------- the parser

  class ConfigDescriptor {
    var length: byte
    var descriptorType: byte
    var totalLength: word
    var numInterfaces: byte
    var configurationValue: byte
    var configurationIndex: byte
    var attributes: byte
    var maxPower: byte
    var interfaces: seq<Interface>
    var extra: seq<byte>

    constructor ()
      ensures View() == Config(Header(0, 0, 0, 0, 0, 0, 0, 0), [], [])
    {
      length, descriptorType, totalLength, numInterfaces := 0, 0, 0, 0;
      configurationValue, configurationIndex, attributes, maxPower := 0, 0, 0, 0;
      interfaces, extra := [], [];
    }

    ghost function View(): Config
      reads this
    {
      Config(Header(length, descriptorType, totalLength, numInterfaces, configurationValue, configurationIndex,
                    attributes, maxPower), interfaces, extra)
    }

    /** The first part of Unmarshal: the nine header bytes. */
    method ReadHeader(data: seq<byte>)
      requires |data| >= CONFIG_SIZE
      modifies this
      ensures View() == Config(ParseHeader(data), old(interfaces), old(extra))
    {
      length, descriptorType := data[0], data[1];
      totalLength := LittleEndian16(data[2], data[3]);
      numInterfaces, configurationValue, configurationIndex := data[4], data[5], data[6];
      attributes, maxPower := data[7], data[8];
    }

    /**
     The loop of Unmarshal: one pass that fills extra, collects the finished settings by number, and
     leaves the last one in its accumulators.
     */
    method Walk(data: seq<byte>)
      returns (err: Option<ParseError>, interfaceMap: map<byte, seq<AltSetting>>,
               current: Option<InterfaceDescriptor>, endpoints: seq<Endpoint>, buffer: seq<byte>,
               ghost saved: seq<AltSetting>)
      requires |data| >= CONFIG_SIZE
      modifies this`extra
      ensures var o := Fold(START, Chunks(data, CONFIG_SIZE));
        && err == o.error && extra == old(extra) + o.lead
        && (err.None? ==> Represents(interfaceMap, saved) && o.alts == saved + Closed(current, endpoints, buffer))
    {
      interfaceMap, current, endpoints, buffer, saved := map[], None, [], [], [];
      ghost var lead: seq<byte> := [];
      ghost var goal := Fold(START, Chunks(data, CONFIG_SIZE));

      var pos := CONFIG_SIZE;
      while pos < |data|
        invariant pos <= |data| && extra == old(extra) + lead
        invariant Fold(Acc(current, endpoints, buffer, saved, lead), Chunks(data, pos)) == goal
        invariant Represents(interfaceMap, saved)
        decreases |data| - pos
      {
        if pos + 2 > |data| {
          break;
        }
        var len: nat := data[pos];
        if len == 0 || pos + len > |data| {
          break;
        }
        var next := pos + len;
        ghost var a := Acc(current, endpoints, buffer, saved, lead);
        if data[pos + 1] == DT_INTERFACE {
          FoldInterface(a, data, pos, next);
          SaveRepresents(interfaceMap, saved, current, endpoints, buffer);
          interfaceMap := Save(interfaceMap, current, endpoints, buffer);
          if len < INTERFACE_SIZE {
            err := Some(InterfaceTooShort(len));
            return;
          }
          saved := saved + Closed(current, endpoints, buffer);
          current := Some(ReadInterface(data, pos));
          buffer, endpoints := [], [];
        } else if data[pos + 1] == DT_ENDPOINT && current.Some? {
          if len < ENDPOINT_SIZE {
            FoldShortEndpoint(a, data, pos);
            err := Some(EndpointTooShort(len));
            return;
          }
          var endpoint;
          endpoint, next := TakeEndpoint(data, pos, a);
          endpoints := endpoints + [endpoint];
        } else if current.Some? {
          FoldOther(a, data, pos, next);
          buffer := buffer + data[pos..next];
        } else {
          FoldLeading(a, data, pos, next);
          extra := extra + data[pos..next];
          lead := lead + data[pos..next];
        }
        pos := next;
      }
      NoChunk(data, pos);
      err := None;
    }

    /** The last part of Unmarshal: the groups in ascending order of their number. */
    method Sort(interfaceMap: map<byte, seq<AltSetting>>, ghost alts: seq<AltSetting>)
      requires Represents(interfaceMap, alts)
      modifies this`interfaces
      ensures interfaces == Groups(alts, 0)
    {
      interfaces := [];
      var i: byte := 0;
      while i < NUMBER_LIMIT
        invariant 0 <= i <= NUMBER_LIMIT
        invariant interfaces + Groups(alts, i) == Groups(alts, 0)
      {
        GroupsStep(alts, i);
        SortStep(interfaceMap, alts, i, interfaces, Groups(alts, i), Groups(alts, i + 1));
        if i in interfaceMap {
          interfaces := interfaces + [Descriptors.Interface.Interface(interfaceMap[i])];
        }
        i := i + 1;
      }
    }

    /** The walk, with what it found in terms of Parse. */
    method Scan(data: seq<byte>)
      returns (err: Option<ParseError>, interfaceMap: map<byte, seq<AltSetting>>,
               current: Option<InterfaceDescriptor>, endpoints: seq<Endpoint>, buffer: seq<byte>,
               ghost saved: seq<AltSetting>, ghost o: Outcome)
      requires |data| >= CONFIG_SIZE
      modifies this`extra
      ensures ParsedAs(data, o) && err == o.error && extra == old(extra) + o.lead
      ensures err.None? ==> Represents(interfaceMap, saved) && o.alts == saved + Closed(current, endpoints, buffer)
    {
      err, interfaceMap, current, endpoints, buffer, saved := Walk(data);
      o := Fold(START, Chunks(data, CONFIG_SIZE));
      ParseIsFold(data, o);
    }

    /** Saves the last setting and sorts what was collected. */
    method Finish(interfaceMap: map<byte, seq<AltSetting>>, current: Option<InterfaceDescriptor>,
                  endpoints: seq<Endpoint>, buffer: seq<byte>, ghost saved: seq<AltSetting>)
      requires Represents(interfaceMap, saved)
      modifies this`interfaces
      ensures interfaces == Groups(saved + Closed(current, endpoints, buffer), 0)
    {
      SaveRepresents(interfaceMap, saved, current, endpoints, buffer);
      var m := Save(interfaceMap, current, endpoints, buffer);
      Sort(m, saved + Closed(current, endpoints, buffer));
    }

    /**
     Parses data into this descriptor. extra is appended to and interfaces is assigned only on
     success, so a fresh receiver ends up with Parse(data), and a failure leaves the header and
     the leading leftovers behind.
     */
    method Unmarshal(data: seq<byte>) returns (err: Option<ParseError>)
      modifies this
      ensures err == match Parse(data) case Success(_) => None case Failure(e) => Some(e)
      ensures |data| < CONFIG_SIZE ==> View() == old(View())
      ensures |data| >= CONFIG_SIZE ==>
        View() == Config(ParseHeader(data),
                         if err.None? then Parse(data).value.interfaces else old(interfaces),
                         old(extra) + Flatten(Preamble(data)))
      ensures err.None? && old(extra) == [] ==> View() == Parse(data).value
    {
      if |data| < CONFIG_SIZE {
        return Some(ConfigTooShort(|data|));
      }
      ReadHeader(data);
      var interfaceMap, current, endpoints, buffer;
      ghost var saved, o;
      err, interfaceMap, current, endpoints, buffer, saved, o := Scan(data);
      if err.None? {
        Finish(interfaceMap, current, endpoints, buffer, saved);
      }
    }

    /** The index of the first interface whose first setting carries the given number. */
    method Interface(interfaceNumber: byte) returns (r: Option<nat>)
      ensures InterfaceFound(interfaces, interfaceNumber, r)
      ensures r.Some? ==> FirstFound(interfaces, interfaceNumber, r.value)
    {
      for i := 0 to |interfaces|
        invariant InterfaceFound(interfaces[..i], interfaceNumber, None)
      {
        if |interfaces[i].altSettings| > 0 && interfaces[i].altSettings[0].desc.interfaceNumber == interfaceNumber {
          return Some(i);
        }
      }
      assert interfaces[..|interfaces|] == interfaces;
      r := None;
    }

    /** Where a setting is found: interface index and the index of its first setting with the alternate number. */
    method InterfaceAltSetting(interfaceNumber: byte, altSetting: byte) returns (r: Option<(nat, nat)>)
      ensures AltSettingFound(interfaces, interfaceNumber, altSetting, r)
      ensures r.Some? ==> forall j :: 0 <= j < r.value.1 ==>
        interfaces[r.value.0].altSettings[j].desc.alternateSetting != altSetting
    {
      var found := Interface(interfaceNumber);
      if found.None? {
        return None;
      }
      var alts := interfaces[found.value].altSettings;
      for j := 0 to |alts|
        invariant forall k :: 0 <= k < j ==> alts[k].desc.alternateSetting != altSetting
      {
        if alts[j].desc.alternateSetting == altSetting {
          return Some((found.value, j));
        }
      }
      r := None;
    }

    /** Where the first endpoint with the given address is: interface, setting and endpoint index. */
    method FindEndpoint(endpointAddress: byte) returns (r: Option<(nat, nat, nat)>)
      ensures FoundAt(interfaces, endpointAddress, r)
    {
      for i := 0 to |interfaces|
        invariant forall x :: 0 <= x < i ==> !Offers(interfaces[x], endpointAddress)
      {
        var alts := interfaces[i].altSettings;
        for j := 0 to |alts|
          invariant forall y :: 0 <= y < j ==> !Owns(alts[y], endpointAddress)
        {
          var eps := alts[j].endpoints;
          for k := 0 to |eps|
            invariant forall z :: 0 <= z < k ==> eps[z].desc.endpointAddr != endpointAddress
          {
            if eps[k].desc.endpointAddr == endpointAddress {
              return Some((i, j, k));
            }
          }
        }
      }
      r := None;
    }
  }

  /** Some endpoint of the alternate setting has the address. */
  ghost predicate Owns(alt: AltSetting, addr: byte) {
    exists k :: 0 <= k < |alt.endpoints| && alt.endpoints[k].desc.endpointAddr == addr
  }

  /** Some alternate setting of the interface owns the address. */
  ghost predicate Offers(iface: Interface, addr: byte) {
    exists j :: 0 <= j < |iface.altSettings| && Owns(iface.altSettings[j], addr)
  }

  /** r is the first place, interface by interface and setting by setting, where the address occurs. */
  ghost predicate FoundAt(ifaces: seq<Interface>, addr: byte, r: Option<(nat, nat, nat)>) {
    match r
    case None => forall i :: 0 <= i < |ifaces| ==> !Offers(ifaces[i], addr)
    case Some((i, j, k)) =>
      && i < |ifaces| && j < |ifaces[i].altSettings| && k < |ifaces[i].altSettings[j].endpoints|
      && ifaces[i].altSettings[j].endpoints[k].desc.endpointAddr == addr
      && (forall x :: 0 <= x < i ==> !Offers(ifaces[x], addr))
      && (forall y :: 0 <= y < j ==> !Owns(ifaces[i].altSettings[y], addr))
      && (forall z :: 0 <= z < k ==> ifaces[i].altSettings[j].endpoints[z].desc.endpointAddr != addr)
  }
}
