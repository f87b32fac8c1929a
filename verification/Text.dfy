/** Decimal numbers and separators in strings, as the program's formatting and parsing calls use them. */
module Text {
  import opened Core

  // ---------------------------------------------------------------- decimal numbers

  predicate IsDigit(c: char) { '0' <= c <= '9' }

  function DigitValue(c: char): (d: nat)
    requires IsDigit(c)
    ensures d < 10
  {
    (c as int) - ('0' as int)
  }

  function DigitChar(d: nat): (c: char)
    requires d < 10
    ensures IsDigit(c) && DigitValue(c) == d
  {
    (d + ('0' as int)) as char
  }

  /** n in decimal, without leading zeros. */
  function Decimal(n: nat): (s: string)
    ensures s != []
  {
    if n < 10 then [DigitChar(n)] else Decimal(n / 10) + [DigitChar(n % 10)]
  }

  ghost predicate AllDigits(s: string) {
    forall i :: 0 <= i < |s| ==> IsDigit(s[i])
  }

  /** The value and whether the text was in order, as strconv.ParseUint(s, 10, 8) gives them. */
  datatype Parsed = Parsed(value: byte, ok: bool)

  /** Stops at the first character that is not a digit with value 0, or at the first overflow with value 255. */
  function ParseFrom(s: string, n: byte): Parsed
    decreases |s|
  {
    if s == [] then Parsed(n, true)
    else if !IsDigit(s[0]) then Parsed(0, false)
    else if n * 10 + DigitValue(s[0]) >= BYTE_LIMIT then Parsed(255, false)
    else ParseFrom(s[1..], n * 10 + DigitValue(s[0]))
  }

  function ParseUint8(s: string): Parsed {
    if s == [] then Parsed(0, false) else ParseFrom(s, 0)
  }

  /** The number that digits spell after a prefix of value n. */
  ghost function Value(s: string, n: nat): nat
    requires AllDigits(s)
    decreases |s|
  {
    if s == [] then n else Value(s[1..], n * 10 + DigitValue(s[0]))
  }

  lemma {:induction false} ValueGrows(s: string, n: nat)
    requires AllDigits(s)
    ensures Value(s, n) >= n
    decreases |s|
  {
    if s != [] { ValueGrows(s[1..], n * 10 + DigitValue(s[0])); }
  }

  /** Digits are read as their value, or as 255 when that does not fit in a byte. */
  lemma {:induction false} ParseDigits(s: string, n: byte)
    requires AllDigits(s)
    ensures ParseFrom(s, n) == if Value(s, n) < BYTE_LIMIT then Parsed(Value(s, n), true) else Parsed(255, false)
    decreases |s|
  {
    if s != [] {
      var m := n * 10 + DigitValue(s[0]);
      ValueGrows(s[1..], m);
      if m < BYTE_LIMIT { ParseDigits(s[1..], m); }
    }
  }

  /** The text is a decimal number, leading zeros allowed, that fits in a byte. */
  ghost predicate SpellsByte(s: string) {
    s != "" && AllDigits(s) && Value(s, 0) < 256
  }

  lemma {:induction false} ParseNonDigit(s: string, n: byte)
    requires !AllDigits(s)
    ensures !ParseFrom(s, n).ok
    decreases |s|
  {
    if IsDigit(s[0]) && n * 10 + DigitValue(s[0]) < BYTE_LIMIT {
      ParseNonDigit(s[1..], n * 10 + DigitValue(s[0]));
    }
  }

  /** Exactly the texts that spell a byte are in order, and they are read as the number they spell. */
  lemma {:induction false} ParseOkIff(s: string)
    ensures ParseUint8(s).ok <==> SpellsByte(s)
    ensures SpellsByte(s) ==> ParseUint8(s).value == Value(s, 0)
  {
    if AllDigits(s) { ParseDigits(s, 0); } else { ParseNonDigit(s, 0); }
  }

  lemma {:induction false} ValueSnoc(s: string, d: nat, n: nat)
    requires AllDigits(s) && d < 10
    ensures AllDigits(s + [DigitChar(d)]) && Value(s + [DigitChar(d)], n) == Value(s, n) * 10 + d
    decreases |s|
  {
    if s == [] {
      assert s + [DigitChar(d)] == [DigitChar(d)];
      assert Value([DigitChar(d)], n) == Value([], n * 10 + d);
    } else {
      assert (s + [DigitChar(d)])[1..] == s[1..] + [DigitChar(d)];
      ValueSnoc(s[1..], d, n * 10 + DigitValue(s[0]));
    }
  }

  lemma {:induction false} DecimalValue(n: nat)
    ensures AllDigits(Decimal(n)) && Value(Decimal(n), 0) == n
  {
    if n < 10 {
      assert Decimal(n)[1..] == [];
    } else {
      DecimalValue(n / 10);
      ValueSnoc(Decimal(n / 10), n % 10, 0);
    }
  }

  /** Reading a decimal gives the number back, or 255 when it does not fit in a byte. */
  lemma {:induction false} ParseDecimal(n: nat)
    ensures ParseUint8(Decimal(n)) == if n < BYTE_LIMIT then Parsed(n, true) else Parsed(255, false)
  {
    DecimalValue(n);
    ParseDigits(Decimal(n), 0);
  }

  /** Leading zeros change nothing. */
  lemma {:induction false} ParsePadded(n: byte, zeros: nat)
    ensures ParseUint8(seq(zeros, _ => '0') + Decimal(n)) == Parsed(n, true)
    decreases zeros
  {
    var s := seq(zeros, _ => '0') + Decimal(n);
    if zeros == 0 {
      assert s == Decimal(n);
      ParseDecimal(n);
    } else {
      ParsePadded(n, zeros - 1);
      assert s[1..] == seq(zeros - 1, _ => '0') + Decimal(n);
    }
  }

  // ---------------------------------------------------------------- separators

  ghost predicate Free(s: string, sep: char) {
    forall i :: 0 <= i < |s| ==> s[i] != sep
  }

  lemma {:induction false} DigitsFree(n: nat, sep: char)
    requires !IsDigit(sep)
    ensures Free(Decimal(n), sep)
  {
    DecimalValue(n);
  }

  /** Where sep occurs first in s. */
  function IndexOf(s: string, sep: char): (r: Option<nat>)
    ensures r.Some? ==> r.value < |s| && s[r.value] == sep && Free(s[..r.value], sep)
    ensures r.None? ==> Free(s, sep)
  {
    if s == [] then None
    else if s[0] == sep then Some(0)
    else
      match IndexOf(s[1..], sep)
      case None => None
      case Some(i) =>
        assert s[..i + 1] == [s[0]] + s[1..][..i];
        Some(i + 1)
  }

  /** Where sep occurs last in s. */
  function LastIndexOf(s: string, sep: char): (r: Option<nat>)
    ensures r.Some? ==> r.value < |s| && s[r.value] == sep && Free(s[r.value + 1..], sep)
    ensures r.None? ==> Free(s, sep)
  {
    if s == [] then None
    else if s[|s| - 1] == sep then Some(|s| - 1)
    else
      match LastIndexOf(s[..|s| - 1], sep)
      case None => None
      case Some(i) =>
        assert s[i + 1..] == s[..|s| - 1][i + 1..] + [s[|s| - 1]];
        Some(i)
  }

  /** The first separator splits a string in one way only. */
  lemma {:induction false} IndexUnique(a: string, sep: char, b: string)
    requires Free(a, sep)
    ensures IndexOf(a + [sep] + b, sep) == Some(|a|)
  {
    var s := a + [sep] + b;
    var r := IndexOf(s, sep);
    assert s[|a|] == sep;
  }

  lemma {:induction false} LastIndexUnique(a: string, sep: char, b: string)
    requires Free(b, sep)
    ensures LastIndexOf(a + [sep] + b, sep) == Some(|a|)
  {
    var s := a + [sep] + b;
    var r := LastIndexOf(s, sep);
    assert s[|a|] == sep;
  }

  /** Two texts joined by a separator that the first does not hold determine both. */
  lemma JoinInjective(a: string, b: string, c: string, d: string, sep: char)
    requires Free(a, sep) && Free(c, sep) && a + [sep] + b == c + [sep] + d
    ensures a == c && b == d
  {
    IndexUnique(a, sep, b);
    IndexUnique(c, sep, d);
    var s := a + [sep] + b;
    assert s[..|a|] == a && s[|a| + 1..] == b;
    assert (c + [sep] + d)[..|c|] == c && (c + [sep] + d)[|c| + 1..] == d;
  }

  lemma {:induction false} DecimalInjective(m: nat, n: nat)
    requires Decimal(m) == Decimal(n)
    ensures m == n
  {
    DecimalValue(m);
    DecimalValue(n);
  }

  /** The pieces of s between separators; the empty string is one empty piece. */
  function Split(s: string, sep: char): (ps: seq<string>)
    ensures ps != []
    decreases |s|
  {
    match IndexOf(s, sep)
    case None => [s]
    case Some(i) => [s[..i]] + Split(s[i + 1..], sep)
  }

  lemma {:induction false} SplitFirst(a: string, sep: char, rest: string)
    requires Free(a, sep)
    ensures Split(a + [sep] + rest, sep) == [a] + Split(rest, sep)
  {
    IndexUnique(a, sep, rest);
    var s := a + [sep] + rest;
    assert s[..|a|] == a && s[|a| + 1..] == rest;
  }

  predicate StartsWith(s: string, prefix: string) {
    |prefix| <= |s| && s[..|prefix|] == prefix
  }
}
