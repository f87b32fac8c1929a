/** Where in the transfer buffer the data of each isochronous packet lies, on Linux and on Windows. */
module IsoPackets {
  import opened Core

  const DWORD_LIMIT := 0x1_0000_0000

  /** An unsigned 32-bit integer. */
  type dword = x: int | 0 <= x < DWORD_LIMIT

  /** The signed 32-bit integer with the same low bits. */
  function Signed32(x: int): int {
    (x + DWORD_LIMIT / 2) % DWORD_LIMIT - DWORD_LIMIT / 2
  }

  /** It is in the 32-bit range and differs by a multiple of 2 to the 32; so it is x exactly if x is in range. */
  lemma SignedMeans(x: int)
    ensures -0x8000_0000 <= Signed32(x) < 0x8000_0000 && (Signed32(x) - x) % 0x1_0000_0000 == 0
    ensures Signed32(x) == x <==> -0x8000_0000 <= x < 0x8000_0000
  {
    var k := SignedIsShift(x);
    assert (k * DWORD_LIMIT) % DWORD_LIMIT == 0;
  }

  lemma SignedShift(x: int, k: int)
    ensures Signed32(x + k * DWORD_LIMIT) == Signed32(x)
  {
  }

  lemma SignedIsShift(x: int) returns (k: int)
    ensures Signed32(x) == x + k * DWORD_LIMIT
  {
    k := -((x + DWORD_LIMIT / 2) / DWORD_LIMIT);
  }

  lemma SignedSum(a: int, b: int)
    ensures Signed32(Signed32(a) + Signed32(b)) == Signed32(a + b)
  {
    var j := SignedIsShift(a);
    var k := SignedIsShift(b);
    assert Signed32(a) + Signed32(b) == (a + b) + (j + k) * DWORD_LIMIT;
    SignedShift(a + b, j + k);
  }

  datatype Packet = Packet(length: dword, actualLength: dword, status: int)

  /** The part of the buffer from start to end, or no part. */
  datatype Slice = NilSlice | Slice(start: nat, end: nat)

  /** What asking for one packet's data gives; OutOfBounds stands for the run-time panic of a bad slice. */
  datatype PacketData =
    | Data(start: nat, end: nat)
    | NoData
    | BadPacket(status: int)
    | BadIndex
    | TransferFailed
    | OutOfBounds

  /** The lengths of the first n packets together. */
  function Offset(ps: seq<Packet>, n: nat): nat
    requires n <= |ps|
  {
    if n == 0 then 0 else Offset(ps, n - 1) + ps[n - 1].length
  }

  predicate Good(p: Packet) { p.status == 0 && p.actualLength > 0 }

  /** Linux: the data of packet i, in a buffer of the given size. */
  function PacketAt(ps: seq<Packet>, size: nat, i: nat): PacketData
    requires i < |ps|
  {
    if ps[i].status != 0 then BadPacket(ps[i].status)
    else if ps[i].actualLength == 0 then NoData
    else if Offset(ps, i) + ps[i].actualLength > size then OutOfBounds
    else Data(Offset(ps, i), Offset(ps, i) + ps[i].actualLength)
  }

  function AsSlice(d: PacketData): Slice {
    if d.Data? then Slice(d.start, d.end) else NilSlice
  }

  // ---------------------------------------------------------------- bounds and overlap

  lemma {:induction false} OffsetsGrow(ps: seq<Packet>, i: nat, j: nat)
    requires i < j <= |ps|
    ensures Offset(ps, i) + ps[i].length <= Offset(ps, j)
  {
    if i < j - 1 { OffsetsGrow(ps, i, j - 1); }
  }

  /** No packet holds more than its allotted length. */
  ghost predicate WithinLength(ps: seq<Packet>) {
    forall i :: 0 <= i < |ps| ==> ps[i].actualLength <= ps[i].length
  }

  /** If no packet outgrows its length, slices of different packets do not overlap. */
  lemma SlicesAreDisjoint(ps: seq<Packet>, size: nat, i: nat, j: nat)
    requires WithinLength(ps) && i < j < |ps|
    ensures PacketAt(ps, size, i).Data? && PacketAt(ps, size, j).Data? ==>
      PacketAt(ps, size, i).end <= PacketAt(ps, size, j).start
  {
    OffsetsGrow(ps, i, j);
  }

  /** And in a buffer for all lengths exactly the good packets have slices. */
  lemma {:induction false} SlicesAreInBounds(ps: seq<Packet>, size: nat, i: nat)
    requires WithinLength(ps) && i < |ps| && Offset(ps, |ps|) <= size
    ensures !PacketAt(ps, size, i).OutOfBounds?
    ensures Good(ps[i]) <==> PacketAt(ps, size, i).Data?
  {
    OffsetsGrow(ps, i, |ps|);
  }

  /** A last packet that outgrew its length by a byte: asking for it panics. */
  lemma OvergrownPacketPanics()
    ensures var ps := [Packet(4, 4, 0), Packet(4, 5, 0)];
      PacketAt(ps, 8, 0) == Data(0, 4) && PacketAt(ps, 8, 1) == OutOfBounds
  {
    var ps := [Packet(4, 4, 0), Packet(4, 5, 0)];
    assert Offset(ps, 0) == 0 && Offset(ps, 1) == 4;
  }

  ghost predicate SameLength(ps: seq<Packet>, packetSize: dword) {
    forall i :: 0 <= i < |ps| ==> ps[i].length == packetSize
  }

  lemma {:induction false} FixedOffset(ps: seq<Packet>, packetSize: dword, n: nat)
    requires SameLength(ps, packetSize) && n <= |ps|
    ensures Offset(ps, n) == n * packetSize
  {
    if n > 0 { FixedOffset(ps, packetSize, n - 1); }
  }

  // ---------------------------------------------------------------- actual length

  function TotalActual(ps: seq<Packet>, n: nat): nat
    requires n <= |ps|
  {
    if n == 0 then 0 else TotalActual(ps, n - 1) + ps[n - 1].actualLength
  }

  /** The total counts every packet once, wherever it stands: changing one packet changes it by the difference. */
  lemma {:induction false} TotalOfChanged(ps: seq<Packet>, n: nat, i: nat, p: Packet)
    requires i < n <= |ps|
    ensures TotalActual(ps[i := p], n) == TotalActual(ps, n) - ps[i].actualLength + p.actualLength
  {
    if i < n - 1 { TotalOfChanged(ps, n - 1, i, p); } else { TotalOfFront(ps, n - 1, i, p); }
  }

  lemma {:induction false} TotalOfFront(ps: seq<Packet>, n: nat, i: nat, p: Packet)
    requires n <= i < |ps|
    ensures TotalActual(ps[i := p], n) == TotalActual(ps, n)
  {
    if n > 0 { TotalOfFront(ps, n - 1, i, p); }
  }

  /** And it is n times what each packet holds if that is the same. */
  lemma {:induction false} TotalOfEqual(ps: seq<Packet>, n: nat, held: dword)
    requires n <= |ps| && forall i :: 0 <= i < n ==> ps[i].actualLength == held
    ensures TotalActual(ps, n) == n * held
  {
    if n > 0 { TotalOfEqual(ps, n - 1, held); }
  }

  lemma {:induction false} TotalWithin(ps: seq<Packet>, n: nat)
    requires WithinLength(ps) && n <= |ps|
    ensures TotalActual(ps, n) <= Offset(ps, n)
  {
    if n > 0 { TotalWithin(ps, n - 1); }
  }

  // ---------------------------------------------------------------- the Linux transfer

  class IsochronousTransfer {
    const numPackets: nat
    const packetSize: dword
    const isoPackets: array<Packet> // shared with the kernel
    const packets: array<Packet>
    var actualLength: int
    var failed: bool

    constructor (numPackets: nat, packetSize: dword)
      ensures Valid() && fresh(isoPackets) && fresh(packets)
      ensures this.numPackets == numPackets && this.packetSize == packetSize
    {
      this.numPackets, this.packetSize := numPackets, packetSize;
      isoPackets := new Packet[numPackets](_ => Packet(packetSize, 0, 0));
      packets := new Packet[numPackets](_ => Packet(packetSize, 0, 0));
      actualLength, failed := 0, false;
    }

    ghost predicate Valid()
      reads this, packets, isoPackets
    {
      && packets.Length == numPackets && isoPackets.Length == numPackets && packets != isoPackets
      && SameLength(packets[..], packetSize) && SameLength(isoPackets[..], packetSize)
    }

    /** The buffer's size. */
    function Size(): nat {
      numPackets * packetSize
    }

    /** The part of Submit that makes the descriptors ready for the kernel. */
    method ResetPackets()
      requires Valid()
      modifies isoPackets
      ensures Valid() && packets[..] == old(packets[..])
      ensures forall i :: 0 <= i < numPackets ==> isoPackets[i] == Packet(packetSize, 0, 0)
    {
      for i := 0 to numPackets
        invariant packets[..] == old(packets[..])
        invariant forall k :: 0 <= k < i ==> isoPackets[k] == Packet(packetSize, 0, 0)
        invariant forall k :: i <= k < numPackets ==> isoPackets[k].length == packetSize
      {
        isoPackets[i] := Packet(packetSize, 0, 0);
      }
    }

    /** The completion callback: takes over the kernel's results and adds up what arrived. */
    method OnCompletion(err: bool)
      requires Valid()
      modifies this`actualLength, this`failed, packets
      ensures Valid() && failed == err && isoPackets[..] == old(isoPackets[..])
      ensures err ==> packets[..] == old(packets[..]) && actualLength == old(actualLength)
      ensures !err ==> packets[..] == isoPackets[..] && actualLength == Signed32(TotalActual(packets[..], numPackets))
      ensures !err ==>
        (actualLength == TotalActual(packets[..], numPackets) <==>
         TotalActual(packets[..], numPackets) < DWORD_LIMIT / 2)
      ensures !err && WithinLength(packets[..]) && Size() < DWORD_LIMIT / 2 ==>
        actualLength == TotalActual(packets[..], numPackets)
    {
      failed := err;
      if err {
        return;
      }
      for i := 0 to numPackets
        invariant isoPackets[..] == old(isoPackets[..]) && failed == err
        invariant packets[..i] == isoPackets[..i]
      {
        packets[i] := isoPackets[i];
      }
      assert packets[..] == packets[..numPackets] && isoPackets[..] == isoPackets[..numPackets];
      AddUp();
      ghost var ps := packets[..];
      if WithinLength(ps) {
        TotalWithin(ps, numPackets);
        FixedOffset(ps, packetSize, numPackets);
      }
    }

    /** The second loop of the callback. */
    method AddUp()
      requires packets.Length == numPackets
      modifies this`actualLength
      ensures actualLength == Signed32(TotalActual(packets[..], numPackets))
    {
      actualLength := 0;
      for i := 0 to numPackets
        invariant actualLength == Signed32(TotalActual(packets[..], i))
      {
        SignedSum(TotalActual(packets[..], i), packets[i].actualLength);
        SignedSum(actualLength, Signed32(packets[i].actualLength));
        actualLength := Signed32(actualLength + Signed32(packets[i].actualLength));
      }
    }

    /** One packet's data, its offset added up from the packets before it. */
    method IsoPacketBuffer(packetIndex: int) returns (r: PacketData)
      requires Valid()
      ensures failed ==> r == TransferFailed
      ensures !failed && !(0 <= packetIndex < numPackets) ==> r == BadIndex
      ensures !failed && 0 <= packetIndex < numPackets ==> r == PacketAt(packets[..], Size(), packetIndex)
    {
      if failed {
        return TransferFailed;
      }
      if packetIndex < 0 || packetIndex >= packets.Length {
        return BadIndex;
      }
      var pkt := packets[packetIndex];
      if pkt.status != 0 {
        return BadPacket(pkt.status);
      }
      if pkt.actualLength == 0 {
        return NoData;
      }
      var offset: nat := 0;
      for i := 0 to packetIndex
        invariant offset == Offset(packets[..], i)
      {
        offset := offset + packets[i].length;
      }
      if offset + pkt.actualLength > Size() {
        return OutOfBounds;
      }
      r := Data(offset, offset + pkt.actualLength);
    }

    /** All packets in one pass with a running offset; nothing stands for a panic at the first bad slice. */
    method IsoPacketBufferSlices() returns (r: Option<seq<Slice>>)
      requires Valid()
      ensures r.None? <==> exists i :: 0 <= i < numPackets && PacketAt(packets[..], Size(), i).OutOfBounds?
      ensures r.Some? ==> |r.value| == numPackets
      ensures r.Some? ==> forall i :: 0 <= i < numPackets ==> r.value[i] == AsSlice(PacketAt(packets[..], Size(), i))
    {
      var slices := new Slice[packets.Length](_ => NilSlice);
      var offset: nat := 0;
      for i := 0 to packets.Length
        invariant offset == Offset(packets[..], i)
        invariant forall k :: 0 <= k < i ==> !PacketAt(packets[..], Size(), k).OutOfBounds?
        invariant forall k :: 0 <= k < i ==> slices[k] == AsSlice(PacketAt(packets[..], Size(), k))
      {
        var pkt := packets[i];
        if pkt.status != 0 || pkt.actualLength == 0 {
          slices[i] := NilSlice;
        } else {
          if offset + pkt.actualLength > Size() {
            assert PacketAt(packets[..], Size(), i).OutOfBounds?;
            return None;
          }
          slices[i] := Slice(offset, offset + pkt.actualLength);
        }
        offset := offset + pkt.length;
      }
      r := Some(slices[..]);
    }

    /** While the kernel respects packet lengths, the slices lie at fixed offsets, in bounds and apart. */
    lemma WhereSlicesLie()
      requires Valid() && WithinLength(packets[..])
      ensures forall i :: 0 <= i < numPackets ==>
        PacketAt(packets[..], Size(), i) ==
        (if packets[i].status != 0 then BadPacket(packets[i].status)
         else if packets[i].actualLength == 0 then NoData
         else Data(i * packetSize, i * packetSize + packets[i].actualLength))
    {
      var ps := packets[..];
      FixedOffset(ps, packetSize, numPackets);
      forall i | 0 <= i < numPackets
        ensures !PacketAt(ps, Size(), i).OutOfBounds? && Offset(ps, i) == i * packetSize
      {
        SlicesAreInBounds(ps, Size(), i);
        FixedOffset(ps, packetSize, i);
      }
    }
  }

  // ---------------------------------------------------------------- Windows

  /** A packet as the driver reports it: after a read, length is what arrived. */
  datatype Reported = Reported(length: dword, status: dword)

  function Min(a: nat, b: nat): nat { if a < b then a else b }

  /** Windows: packet i of n in a buffer of the given size, cut at the next packet's start. */
  function ReportedAt(rs: seq<Reported>, size: nat, i: nat): (s: Slice)
    requires i < |rs|
    ensures s.Slice? && s.start <= s.end <= size
  {
    var packetSize := size / |rs|;
    var start := i * packetSize;
    SliceFits(|rs|, size, i);
    Slice(start, if rs[i].length < packetSize then start + rs[i].length else start + packetSize)
  }

  lemma SliceFits(n: nat, size: nat, i: nat)
    requires i < n
    ensures i * (size / n) + size / n <= size
  {
    var p := size / n;
    Scaled(i + 1, n, p);
    assert size == n * p + size % n;
  }

  lemma Scaled(a: nat, b: nat, p: nat)
    requires a <= b
    ensures a * p <= b * p
  {
  }

  lemma Starts(i: nat, j: nat, p: nat)
    requires i < j
    ensures i * p + p <= j * p
  {
    Scaled(i + 1, j, p);
  }

  /** Slices of different packets never overlap, whatever lengths are reported. */
  lemma ReportedAreDisjoint(rs: seq<Reported>, size: nat, i: nat, j: nat)
    requires i < j < |rs|
    ensures ReportedAt(rs, size, i).end <= ReportedAt(rs, size, j).start
  {
    Starts(i, j, size / |rs|);
  }

  /** Packet i starts at its share of the buffer and has what was reported, or its share if more was. */
  lemma ReportedMeans(rs: seq<Reported>, size: nat, i: nat)
    requires i < |rs|
    ensures var s, share := ReportedAt(rs, size, i), size / |rs|;
      && s.start == i * share && s.end - s.start <= share && s.end - s.start <= rs[i].length
      && (s.end - s.start == share || s.end - s.start == rs[i].length)
  {
  }

  /** One packet's slice, or an error for an index out of range. */
  method ReportedBuffer(rs: seq<Reported>, size: nat, packetIndex: int) returns (r: PacketData)
    ensures !(0 <= packetIndex < |rs|) ==> r == BadIndex
    ensures 0 <= packetIndex < |rs| ==>
      r.Data? && Slice(r.start, r.end) == ReportedAt(rs, size, packetIndex) && r.start <= r.end <= size
  {
    if packetIndex < 0 || packetIndex >= |rs| {
      return BadIndex;
    }
    var packetSize := size / |rs|;
    var start := packetIndex * packetSize;
    var end := Min(start + rs[packetIndex].length, start + packetSize);
    SliceFits(|rs|, size, packetIndex);
    r := Data(start, end);
  }

  /** All slices; without packets the packet size is a division by zero, which panics. */
  method ReportedSlices(rs: seq<Reported>, size: nat) returns (r: Option<seq<Slice>>)
    ensures r.None? <==> rs == []
    ensures r.Some? ==> |r.value| == |rs| && forall i :: 0 <= i < |rs| ==> r.value[i] == ReportedAt(rs, size, i)
  {
    if |rs| == 0 {
      return None;
    }
    var slices := new Slice[|rs|](_ => NilSlice);
    var packetSize := size / |rs|;
    for i := 0 to |rs|
      invariant forall k :: 0 <= k < i ==> slices[k] == ReportedAt(rs, size, k)
    {
      var start := i * packetSize;
      SliceFits(|rs|, size, i);
      slices[i] := Slice(start, Min(start + rs[i].length, start + packetSize));
    }
    r := Some(slices[..]);
  }

  /** The same packets reported by both systems. */
  ghost predicate SamePackets(ps: seq<Packet>, rs: seq<Reported>) {
    |ps| == |rs| && forall i :: 0 <= i < |ps| ==> rs[i].length == ps[i].actualLength
  }

  /** For packets that arrived within one fixed packet size, both systems give the same slices. */
  lemma PlatformsAgree(ps: seq<Packet>, rs: seq<Reported>, packetSize: dword, i: nat)
    requires SamePackets(ps, rs) && SameLength(ps, packetSize) && WithinLength(ps) && i < |ps| && Good(ps[i])
    ensures AsSlice(PacketAt(ps, |ps| * packetSize, i)) == ReportedAt(rs, |ps| * packetSize, i)
  {
    var n, size := |ps|, |ps| * packetSize;
    FixedOffset(ps, packetSize, i);
    FixedOffset(ps, packetSize, n);
    SlicesAreInBounds(ps, size, i);
    Quotient(n, packetSize);
  }

  lemma QuotientUnique(n: nat, p: nat, q: nat, r: nat)
    requires r < n && p * n == q * n + r
    ensures p == q
  {
    if p > q { Scaled(q + 1, p, n); }
    if p < q { Scaled(p, q - 1, n); }
  }

  lemma Quotient(n: nat, p: nat)
    requires n > 0
    ensures n * p / n == p
  {
    QuotientUnique(n, p, n * p / n, n * p % n);
  }
}
