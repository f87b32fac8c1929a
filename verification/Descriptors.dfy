/**
 Configuration descriptors as values, and what a sequence of bytes means: cut it into chunks,
 hand each chunk to the interface that precedes it, and group the alternate settings by number.
 Layouts are those of USB 2.0 sections 9.6.3, 9.6.5 and 9.6.6, and USB 3.1 section 9.6.7.
 */
module Descriptors {
  import opened Core

  const DT_INTERFACE: byte := 0x04
  const DT_ENDPOINT: byte := 0x05
  const DT_SS_ENDPOINT_COMPANION: byte := 0x30

  const CONFIG_SIZE := 9
  const INTERFACE_SIZE := 9
  const ENDPOINT_SIZE := 7
  const COMPANION_SIZE := 6

  datatype Header = Header(
    length: byte, descriptorType: byte, totalLength: word, numInterfaces: byte,
    configurationValue: byte, configurationIndex: byte, attributes: byte, maxPower: byte)

  datatype InterfaceDescriptor = InterfaceDescriptor(
    length: byte, descriptorType: byte, interfaceNumber: byte, alternateSetting: byte,
    numEndpoints: byte, interfaceClass: byte, interfaceSubClass: byte,
    interfaceProtocol: byte, interfaceIndex: byte)

  datatype EndpointDescriptor = EndpointDescriptor(
    length: byte, descriptorType: byte, endpointAddr: byte, attributes: byte,
    maxPacketSize: word, interval: byte)

  datatype Companion = Companion(
    length: byte, descriptorType: byte, maxBurst: byte, attributes: byte, bytesPerInterval: word)

  datatype Endpoint = Endpoint(
    desc: EndpointDescriptor, ssCompanion: Option<Companion>, extra: seq<byte>)

  datatype AltSetting = AltSetting(
    desc: InterfaceDescriptor, endpoints: seq<Endpoint>, extra: seq<byte>)

  /** All alternate settings of one interface number. */
  datatype Interface = Interface(altSettings: seq<AltSetting>)

  datatype Config = Config(header: Header, interfaces: seq<Interface>, extra: seq<byte>)

  datatype ParseError =
    | ConfigTooShort(length: nat)
    | InterfaceTooShort(length: nat)
    | EndpointTooShort(length: nat)

  // ---------------------------------------------------------------- chunks

  /** One descriptor as walked: the type byte that selects its meaning, and its bytes. */
  datatype Chunk = Chunk(kind: byte, bytes: seq<byte>) {

    /** Byte i, or zero past the end; readers of a field check the length first. */
    function At(i: nat): byte {
      if i < |bytes| then bytes[i] else 0
    }

    function Word(i: nat): word {
      LittleEndian16(At(i), At(i + 1))
    }

    predicate IsInterface() { kind == DT_INTERFACE }

    predicate IsEndpoint() { kind == DT_ENDPOINT }

    predicate IsCompanion() { kind == DT_SS_ENDPOINT_COMPANION && |bytes| >= COMPANION_SIZE }

    function AsInterface(): InterfaceDescriptor {
      InterfaceDescriptor(At(0), At(1), At(2), At(3), At(4), At(5), At(6), At(7), At(8))
    }

    function AsEndpoint(): EndpointDescriptor {
      EndpointDescriptor(At(0), At(1), At(2), At(3), Word(4), At(6))
    }

    function AsCompanion(): Companion {
      Companion(At(0), At(1), At(2), At(3), Word(4))
    }
  }

  /**
   The chunks from pos on. A chunk of length 1 is allowed: its type is the byte after it. The walk
   stops at a zero length, or where a chunk would reach past the end.
   */
  function Chunks(data: seq<byte>, pos: nat): (cs: seq<Chunk>)
    decreases |data| - pos
  {
    if pos + 2 > |data| || data[pos] == 0 || pos + data[pos] > |data| then []
    else [Chunk(data[pos + 1], data[pos..pos + data[pos]])] + Chunks(data, pos + data[pos])
  }

  function Flatten(cs: seq<Chunk>): seq<byte> {
    if cs == [] then [] else cs[0].bytes + Flatten(cs[1..])
  }

  /** How many chunks come before the first interface descriptor. */
  function Lead(cs: seq<Chunk>): (n: nat)
    ensures n <= |cs|
    ensures forall i :: 0 <= i < n ==> !cs[i].IsInterface()
    ensures n < |cs| ==> cs[n].IsInterface()
  {
    if cs == [] || cs[0].IsInterface() then 0 else 1 + Lead(cs[1..])
  }

  // ---------------------------------------------------------------- meaning

  /** The endpoints in the chunks owned by one alternate setting. */
  function Endpoints(cs: seq<Chunk>): seq<Endpoint> {
    if cs == [] then []
    else if !cs[0].IsEndpoint() then Endpoints(cs[1..])
    else if |cs| > 1 && cs[1].IsCompanion() then
      [Endpoint(cs[0].AsEndpoint(), Some(cs[1].AsCompanion()), [])] + Endpoints(cs[2..])
    else
      [Endpoint(cs[0].AsEndpoint(), None, [])] + Endpoints(cs[1..])
  }

  /** What the chunks owned by one alternate setting leave over. */
  function Leftover(cs: seq<Chunk>): seq<byte> {
    if cs == [] then []
    else if !cs[0].IsEndpoint() then cs[0].bytes + Leftover(cs[1..])
    else if |cs| > 1 && cs[1].IsCompanion() then Leftover(cs[2..])
    else Leftover(cs[1..])
  }

  /** The alternate settings in byte order; cs starts with an interface descriptor or is empty. */
  function AltSettings(cs: seq<Chunk>): seq<AltSetting> {
    if cs == [] then []
    else
      var n := Lead(cs[1..]);
      [AltSetting(cs[0].AsInterface(), Endpoints(cs[1..n + 1]), Leftover(cs[1..n + 1]))]
      + AltSettings(cs[n + 1..])
  }

  /** The first descriptor too short to parse, if any. */
  function FirstError(cs: seq<Chunk>, inInterface: bool): Option<ParseError> {
    if cs == [] then None
    else if cs[0].IsInterface() then
      if |cs[0].bytes| < INTERFACE_SIZE then Some(InterfaceTooShort(|cs[0].bytes|)) else FirstError(cs[1..], true)
    else if cs[0].IsEndpoint() && inInterface && |cs[0].bytes| < ENDPOINT_SIZE then
      Some(EndpointTooShort(|cs[0].bytes|))
    else FirstError(cs[1..], inInterface)
  }

  /** The alternate settings numbered n, in order. */
  function Numbered(alts: seq<AltSetting>, n: byte): seq<AltSetting> {
    if alts == [] then []
    else if alts[0].desc.interfaceNumber == n then [alts[0]] + Numbered(alts[1..], n)
    else Numbered(alts[1..], n)
  }

  /** Interface numbers are grouped up to, and not including, this one. */
  const NUMBER_LIMIT: byte := 255

  /** The groups numbered n and up. */
  function Groups(alts: seq<AltSetting>, n: byte): seq<Interface>
    requires n <= NUMBER_LIMIT
    decreases NUMBER_LIMIT - n
  {
    if n == NUMBER_LIMIT then []
    else if Numbered(alts, n) == [] then Groups(alts, n + 1)
    else [Interface(Numbered(alts, n))] + Groups(alts, n + 1)
  }

  function ParseHeader(data: seq<byte>): Header
    requires |data| >= CONFIG_SIZE
  {
    Header(data[0], data[1], LittleEndian16(data[2], data[3]), data[4], data[5], data[6], data[7], data[8])
  }

  /** The chunks that come before the first interface. */
  function Preamble(data: seq<byte>): seq<Chunk> {
    var cs := Chunks(data, CONFIG_SIZE);
    cs[..Lead(cs)]
  }

  /** The chunks from the first interface on. */
  function Body(data: seq<byte>): seq<Chunk> {
    var cs := Chunks(data, CONFIG_SIZE);
    cs[Lead(cs)..]
  }

  /** What a fresh ConfigDescriptor holds after unmarshalling data. */
  function Parse(data: seq<byte>): Result<Config, ParseError> {
    if |data| < CONFIG_SIZE then Failure(ConfigTooShort(|data|))
    else
      match FirstError(Chunks(data, CONFIG_SIZE), false)
      case Some(e) => Failure(e)
      case None => Success(Config(ParseHeader(data), Groups(AltSettings(Body(data)), 0), Flatten(Preamble(data))))
  }
}
