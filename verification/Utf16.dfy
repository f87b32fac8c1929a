/** String descriptors: UTF-16 code units (RFC 2781, sections 2.1 and 2.2) in a length-prefixed byte form. */
module Utf16 {
  import opened Core

  type Rune = r: int | 0 <= r <= 0x10FFFF

  predicate IsHigh(u: int) { 0xD800 <= u < 0xDC00 }

  predicate IsLow(u: int) { 0xDC00 <= u < 0xE000 }

  predicate IsScalar(r: Rune) { !IsHigh(r) && !IsLow(r) }

  function Pair(high: word, low: word): Rune
    requires IsHigh(high) && IsLow(low)
  {
    (high - 0xD800) * 0x400 + (low - 0xDC00) + 0x10000
  }

  /** What a sequence of code units spells up to its first NUL; a lone surrogate stands for itself. */
  function Decode(units: seq<word>): seq<Rune> {
    if units == [] || units[0] == 0 then []
    else if |units| > 1 && IsHigh(units[0]) && IsLow(units[1]) then [Pair(units[0], units[1])] + Decode(units[2..])
    else [units[0]] + Decode(units[1..])
  }

  lemma DecodePair(runes: seq<Rune>, units: seq<word>, i: nat)
    requires i + 1 < |units| && IsHigh(units[i]) && IsLow(units[i + 1])
    ensures runes + [Pair(units[i], units[i + 1])] + Decode(units[i + 2..]) == runes + Decode(units[i..])
  {
    assert units[i..][2..] == units[i + 2..];
  }

  lemma DecodeUnit(runes: seq<Rune>, units: seq<word>, i: nat)
    requires i < |units| && units[i] != 0 && !(i + 1 < |units| && IsHigh(units[i]) && IsLow(units[i + 1]))
    ensures runes + [units[i]] + Decode(units[i + 1..]) == runes + Decode(units[i..])
  {
    assert units[i..][1..] == units[i + 1..];
  }

  method Utf16Decode(units: seq<word>) returns (runes: seq<Rune>)
    ensures runes == Decode(units)
  {
    runes := [];
    ghost var goal := Decode(units);
    var i := 0;
    assert units[0..] == units;
    while i < |units|
      invariant 0 <= i <= |units|
      invariant runes + Decode(units[i..]) == goal
    {
      var u := units[i];
      if u == 0 {
        break;
      }
      if 0xD800 <= u < 0xDC00 && i + 1 < |units| {
        var low := units[i + 1];
        if 0xDC00 <= low < 0xE000 {
          DecodePair(runes, units, i);
          runes := runes + [Pair(u, low)];
          i := i + 2;
          continue;
        }
      }
      DecodeUnit(runes, units, i);
      runes := runes + [u];
      i := i + 1;
    }
  }

  // ---------------------------------------------------------------- encoding and back

  function EncodeRune(r: Rune): seq<word> {
    if r < 0x10000 then [r] else [0xD800 + (r - 0x10000) / 0x400, 0xDC00 + (r - 0x10000) % 0x400]
  }

  function Encode(runes: seq<Rune>): seq<word> {
    if runes == [] then [] else EncodeRune(runes[0]) + Encode(runes[1..])
  }

  ghost predicate NonZeroScalars(runes: seq<Rune>) {
    forall i :: 0 <= i < |runes| ==> runes[i] != 0 && IsScalar(runes[i])
  }

  lemma {:induction false} DecodeFirst(r: Rune, rest: seq<word>)
    requires r != 0 && IsScalar(r)
    ensures Decode(EncodeRune(r) + rest) == [r] + Decode(rest)
  {
    var units := EncodeRune(r) + rest;
    if r < 0x10000 {
      assert units[1..] == rest;
    } else {
      assert units[2..] == rest;
      assert Pair(units[0], units[1]) == r;
    }
  }

  /** Decoding inverts encoding. */
  lemma {:induction false} DecodeEncode(runes: seq<Rune>)
    requires NonZeroScalars(runes)
    ensures Decode(Encode(runes)) == runes
  {
    if runes != [] {
      DecodeFirst(runes[0], Encode(runes[1..]));
      DecodeEncode(runes[1..]);
    }
  }

  /** The code units before the first NUL. */
  function UpToNul(units: seq<word>): (r: seq<word>)
    ensures |r| <= |units| && r == units[..|r|]
  {
    if units == [] || units[0] == 0 then [] else [units[0]] + UpToNul(units[1..])
  }

  lemma PairInverse(high: word, low: word)
    requires IsHigh(high) && IsLow(low)
    ensures EncodeRune(Pair(high, low)) == [high, low]
  {
  }

  lemma {:induction false} EncodeDecodePair(units: seq<word>)
    requires |units| > 1 && units[0] != 0 && IsHigh(units[0]) && IsLow(units[1])
    requires Encode(Decode(units[2..])) == UpToNul(units[2..])
    ensures Encode(Decode(units)) == UpToNul(units)
  {
    var rest := UpToNul(units[2..]);
    PairInverse(units[0], units[1]);
    assert units[1..][1..] == units[2..];
    assert UpToNul(units[1..]) == [units[1]] + rest;
    assert Decode(units)[0] == Pair(units[0], units[1]) && Decode(units)[1..] == Decode(units[2..]);
    assert Encode(Decode(units)) == [units[0], units[1]] + rest;
  }

  lemma {:induction false} EncodeDecodeUnit(units: seq<word>)
    requires units != [] && units[0] != 0 && !(|units| > 1 && IsHigh(units[0]) && IsLow(units[1]))
    requires Encode(Decode(units[1..])) == UpToNul(units[1..])
    ensures Encode(Decode(units)) == UpToNul(units)
  {
    assert Decode(units)[0] == units[0] && Decode(units)[1..] == Decode(units[1..]);
  }

  /** Encoding inverts decoding on every input: nothing before the NUL is lost, lone surrogates included. */
  lemma {:induction false} EncodeDecode(units: seq<word>)
    ensures Encode(Decode(units)) == UpToNul(units)
    decreases |units|
  {
    if units != [] && units[0] != 0 {
      if |units| > 1 && IsHigh(units[0]) && IsLow(units[1]) {
        EncodeDecode(units[2..]);
        EncodeDecodePair(units);
      } else {
        EncodeDecode(units[1..]);
        EncodeDecodeUnit(units);
      }
    }
  }

  // ---------------------------------------------------------------- the simpler decoder

  function Direct(units: seq<word>): seq<Rune> {
    if units == [] || units[0] == 0 then [] else [units[0]] + Direct(units[1..])
  }

  /** The decoder beside it: one rune for each code unit. */
  method Utf16ToRunes(units: seq<word>) returns (runes: seq<Rune>)
    ensures runes == Direct(units)
  {
    runes := [];
    assert units[0..] == units;
    for i := 0 to |units|
      invariant runes + Direct(units[i..]) == Direct(units)
    {
      assert units[i..][1..] == units[i + 1..];
      if units[i] == 0 {
        break;
      }
      runes := runes + [units[i]];
    }
  }

  /** A Go string made from runes: a surrogate becomes the replacement character. */
  function GoString(runes: seq<Rune>): (r: seq<Rune>)
    ensures |r| == |runes|
    ensures forall i :: 0 <= i < |r| ==> r[i] == if IsScalar(runes[i]) then runes[i] else 0xFFFD
  {
    if runes == [] then [] else [if IsScalar(runes[0]) then runes[0] else 0xFFFD] + GoString(runes[1..])
  }

  /** A surrogate pair before the first NUL. */
  ghost predicate HasPair(units: seq<word>) {
    exists i :: 0 <= i < |UpToNul(units)| - 1 && IsHigh(units[i]) && IsLow(units[i + 1])
  }

  lemma {:induction false} PairHere(units: seq<word>)
    requires |units| > 1 && units[0] != 0 && IsHigh(units[0]) && IsLow(units[1])
    ensures HasPair(units) && |Decode(units)| == 1 + |Decode(units[2..])| && |Direct(units)| == 2 + |Direct(units[2..])|
  {
    assert units[1..][1..] == units[2..];
    assert UpToNul(units) == [units[0]] + ([units[1]] + UpToNul(units[2..]));
  }

  lemma PairLater(units: seq<word>)
    requires units != [] && units[0] != 0 && !(|units| > 1 && IsHigh(units[0]) && IsLow(units[1]))
    ensures HasPair(units) <==> HasPair(units[1..])
  {
    var rest := units[1..];
    assert UpToNul(units) == [units[0]] + UpToNul(rest);
    if HasPair(rest) {
      var i :| 0 <= i < |UpToNul(rest)| - 1 && IsHigh(rest[i]) && IsLow(rest[i + 1]);
      assert IsHigh(units[i + 1]) && IsLow(units[i + 2]);
    }
    if HasPair(units) {
      var i :| 0 <= i < |UpToNul(units)| - 1 && IsHigh(units[i]) && IsLow(units[i + 1]);
      assert IsHigh(rest[i - 1]) && IsLow(rest[i]);
    }
  }

  lemma {:induction false} PairsShorten(units: seq<word>)
    ensures |Decode(units)| <= |Direct(units)|
    ensures HasPair(units) ==> |Decode(units)| < |Direct(units)|
    ensures !HasPair(units) ==> Decode(units) == Direct(units)
    decreases |units|
  {
    if units != [] && units[0] != 0 {
      if |units| > 1 && IsHigh(units[0]) && IsLow(units[1]) {
        PairHere(units);
        PairsShorten(units[2..]);
      } else {
        PairLater(units);
        PairsShorten(units[1..]);
      }
    }
  }

  /** The two decoders give the same string exactly when no surrogate pair stands before the first NUL. */
  lemma {:induction false} DecodersAgreeIff(units: seq<word>)
    ensures GoString(Decode(units)) == GoString(Direct(units)) <==> !HasPair(units)
  {
    PairsShorten(units);
  }

  /** For instance on the two units of U+1F600. */
  lemma DecodersDifferOnPair()
    ensures GoString(Decode([0xD83D, 0xDE00])) == [0x1F600]
    ensures GoString(Direct([0xD83D, 0xDE00])) == [0xFFFD, 0xFFFD]
  {
    var units: seq<word> := [0xD83D, 0xDE00];
    assert units[1..] == [0xDE00] && units[2..] == [] && units[1..][1..] == [];
    assert Decode(units) == [0x1F600] + Decode([]);
    assert Direct(units) == [0xD83D] + ([0xDE00] + Direct([]));
  }

  // ---------------------------------------------------------------- descriptors

  /** The whole little-endian units in bytes; an odd byte at the end is dropped. */
  function Units(bytes: seq<byte>): (r: seq<word>)
    ensures |r| == |bytes| / 2
  {
    if |bytes| < 2 then [] else [LittleEndian16(bytes[0], bytes[1])] + Units(bytes[2..])
  }

  /** What a string descriptor, possibly cut short, decodes to. */
  function StringOf(desc: seq<byte>): seq<Rune> {
    if |desc| < 2 then []
    else
      var length := if desc[0] > |desc| then |desc| else desc[0];
      if length < 2 then [] else GoString(Decode(Units(desc[2..length])))
  }

  method DecodeStringDescriptor(desc: seq<byte>) returns (s: seq<Rune>)
    ensures s == StringOf(desc)
  {
    if |desc| < 2 {
      return [];
    }
    var length: nat := desc[0];
    if length > |desc| {
      length := |desc|;
    }
    if length < 2 {
      return [];
    }
    var units := ReadUnits(desc, length);
    var runes := Utf16Decode(units);
    s := GoString(runes);
  }

  /** The loop of DecodeStringDescriptor. */
  method ReadUnits(desc: seq<byte>, length: nat) returns (units: seq<word>)
    requires 2 <= length <= |desc|
    ensures units == Units(desc[2..length])
  {
    units := [];
    ghost var body := desc[2..length];
    var i := 2;
    while i + 1 < length
      invariant 2 <= i <= length
      invariant units + Units(body[i - 2..]) == Units(body)
    {
      assert body[i - 2..][2..] == body[i..];
      units := units + [LittleEndian16(desc[i], desc[i + 1])];
      i := i + 2;
    }
  }

  const DT_STRING: byte := 0x03

  function UnitBytes(units: seq<word>): (r: seq<byte>)
    ensures |r| == 2 * |units|
  {
    if units == [] then [] else [units[0] % BYTE_LIMIT, units[0] / BYTE_LIMIT] + UnitBytes(units[1..])
  }

  /** A descriptor's length byte leaves room for this many units. */
  const MAX_UNITS := 126

  function Descriptor(units: seq<word>): (r: seq<byte>)
    requires |units| <= MAX_UNITS
    ensures |r| == 2 + 2 * |units|
  {
    [2 + 2 * |units|, DT_STRING] + UnitBytes(units)
  }

  lemma {:induction false} UnitsOfBytes(units: seq<word>, k: nat)
    requires k <= 2 * |units|
    ensures Units(UnitBytes(units)[..k]) == units[..k / 2]
    decreases |units|
  {
    if k >= 2 {
      assert UnitBytes(units)[..k][2..] == UnitBytes(units[1..])[..k - 2];
      UnitsOfBytes(units[1..], k - 2);
    }
  }

  /** A descriptor that claims at least its own bytes decodes as the bytes behind its first two. */
  lemma {:induction false} StringOfBody(desc: seq<byte>, body: seq<byte>, units: seq<word>)
    requires |desc| >= 2 && desc[0] >= |desc| && body == desc[2..] && units == Units(body)
    ensures StringOf(desc) == GoString(Decode(units))
  {
    assert desc[2..|desc|] == desc[2..];
  }

  /** Of a descriptor cut off after k bytes, exactly the units that arrived whole are decoded. */
  lemma TruncatedRead(units: seq<word>, k: nat)
    requires |units| <= MAX_UNITS && 2 <= k <= |Descriptor(units)|
    ensures StringOf(Descriptor(units)[..k]) == GoString(Decode(units[..(k - 2) / 2]))
  {
    var desc, body := Descriptor(units)[..k], UnitBytes(units)[..k - 2];
    UnitsOfBytes(units, k - 2);
    assert desc[2..] == body;
    StringOfBody(desc, body, units[..(k - 2) / 2]);
  }

  lemma {:induction false} UnitsBeforeOdd(units: seq<word>, tail: seq<byte>)
    requires |tail| <= 1
    ensures Units(UnitBytes(units) + tail) == units
  {
    if units != [] {
      assert (UnitBytes(units) + tail)[2..] == UnitBytes(units[1..]) + tail;
      UnitsBeforeOdd(units[1..], tail);
    }
  }

  /**
   Whatever its length byte says: the bytes that count end there, or where the descriptor ends if that
   is sooner. Their whole units, behind the first two bytes, are decoded, and an odd byte is dropped.
   */
  lemma {:induction false} StringOfUnits(desc: seq<byte>, end: nat, units: seq<word>, tail: seq<byte>)
    requires 2 <= end <= |desc| && (end == desc[0] || (end == |desc| && desc[0] > end))
    requires desc[2..end] == UnitBytes(units) + tail && |tail| <= 1
    ensures StringOf(desc) == GoString(Decode(units))
  {
    UnitsBeforeOdd(units, tail);
  }

  /** And a descriptor or a length of fewer than two bytes is the empty string. */
  lemma {:induction false} StringOfShort(desc: seq<byte>)
    requires |desc| < 2 || desc[0] < 2
    ensures StringOf(desc) == []
  {
  }

  lemma {:induction false} UnitsOfAllBytes(units: seq<word>)
    ensures Units(UnitBytes(units)) == units
  {
    if units != [] {
      assert UnitBytes(units)[2..] == UnitBytes(units[1..]);
      UnitsOfAllBytes(units[1..]);
    }
  }

  lemma {:induction false} ScalarsStay(runes: seq<Rune>)
    requires NonZeroScalars(runes)
    ensures GoString(runes) == runes
  {
  }

  /** Decoding inverts the descriptor form of every text that fits. */
  lemma {:induction false} DescriptorRoundTrip(runes: seq<Rune>)
    requires NonZeroScalars(runes) && |Encode(runes)| <= MAX_UNITS
    ensures StringOf(Descriptor(Encode(runes))) == runes
  {
    var units := Encode(runes);
    UnitsOfAllBytes(units);
    assert Descriptor(units)[2..] == UnitBytes(units);
    StringOfBody(Descriptor(units), UnitBytes(units), units);
    DecodeEncode(runes);
    ScalarsStay(runes);
  }
}
