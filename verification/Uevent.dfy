/** Kernel uevents: NUL-separated KEY=VALUE texts after a header line. */
module Uevent {
  import opened Core
  import opened Text

  const NUL: char := '\0'

  /** What one token contributes: nothing if it is empty or has no '='. */
  function AddField(fields: map<string, string>, token: string): map<string, string> {
    if token == [] then fields
    else
      match IndexOf(token, '=')
      case None => fields
      case Some(i) => fields[token[..i] := token[i + 1..]]
  }

  function FieldsFrom(fields: map<string, string>, tokens: seq<string>): map<string, string>
    decreases |tokens|
  {
    if tokens == [] then fields else FieldsFrom(AddField(fields, tokens[0]), tokens[1..])
  }

  method ParseUevent(raw: string) returns (fields: map<string, string>)
    ensures fields == FieldsFrom(map[], Split(raw, NUL))
  {
    fields := map[];
    var tokens := Split(raw, NUL);
    for i := 0 to |tokens|
      invariant FieldsFrom(fields, tokens[i..]) == FieldsFrom(map[], tokens)
    {
      assert tokens[i..][1..] == tokens[i + 1..];
      var token := tokens[i];
      if token == "" {
        continue;
      }
      var eq := IndexOf(token, '=');
      if eq.None? {
        continue;
      }
      fields := fields[token[..eq.value] := token[eq.value + 1..]];
    }
  }

  // ---------------------------------------------------------------- what the kernel sends

  datatype Pair = Pair(key: string, value: string)

  ghost predicate Sendable(p: Pair) {
    Free(p.key, '=') && Free(p.key, NUL) && Free(p.value, NUL)
  }

  ghost predicate AllSendable(ps: seq<Pair>) {
    forall i :: 0 <= i < |ps| ==> Sendable(ps[i])
  }

  function PairText(p: Pair): string {
    p.key + ['='] + p.value
  }

  function PairsText(ps: seq<Pair>): string {
    if ps == [] then [] else PairText(ps[0]) + [NUL] + PairsText(ps[1..])
  }

  /** The header line, then every variable, each ended by NUL. */
  function Payload(header: string, ps: seq<Pair>): string {
    header + [NUL] + PairsText(ps)
  }

  function PutAll(fields: map<string, string>, ps: seq<Pair>): map<string, string>
    decreases |ps|
  {
    if ps == [] then fields else PutAll(fields[ps[0].key := ps[0].value], ps[1..])
  }

  lemma AddPair(fields: map<string, string>, p: Pair)
    requires Sendable(p)
    ensures AddField(fields, PairText(p)) == fields[p.key := p.value] && Free(PairText(p), NUL)
  {
    IndexUnique(p.key, '=', p.value);
    assert PairText(p)[..|p.key|] == p.key && PairText(p)[|p.key| + 1..] == p.value;
  }

  lemma {:induction false} PairsParse(fields: map<string, string>, ps: seq<Pair>)
    requires AllSendable(ps)
    ensures FieldsFrom(fields, Split(PairsText(ps), NUL)) == PutAll(fields, ps)
    decreases |ps|
  {
    if ps == [] {
      assert Split([], NUL) == [[]];
      assert FieldsFrom(AddField(fields, []), [[]][1..]) == fields;
    } else {
      var p, rest := ps[0], PairsText(ps[1..]);
      assert Sendable(p);
      AddPair(fields, p);
      SplitFirst(PairText(p), NUL, rest);
      PairsParse(fields[p.key := p.value], ps[1..]);
    }
  }

  /** Parsing what the kernel sends gives its variables, a repeated one with its last value. */
  lemma {:induction false} PayloadRoundTrip(header: string, ps: seq<Pair>)
    requires Free(header, '=') && Free(header, NUL) && AllSendable(ps)
    ensures FieldsFrom(map[], Split(Payload(header, ps), NUL)) == PutAll(map[], ps)
  {
    SplitFirst(header, NUL, PairsText(ps));
    assert AddField(map[], header) == map[];
    PairsParse(map[], ps);
  }

  /** The last pair with this key. */
  ghost predicate LastPair(ps: seq<Pair>, i: int) {
    0 <= i < |ps| && forall j :: i < j < |ps| ==> ps[j].key != ps[i].key
  }

  lemma {:induction false} PutAllKeeps(fields: map<string, string>, ps: seq<Pair>, key: string)
    requires forall j :: 0 <= j < |ps| ==> ps[j].key != key
    ensures key in PutAll(fields, ps) <==> key in fields
    ensures key in fields ==> PutAll(fields, ps)[key] == fields[key]
    decreases |ps|
  {
    if ps != [] { PutAllKeeps(fields[ps[0].key := ps[0].value], ps[1..], key); }
  }

  /** A variable has a value exactly if that is the last value sent for it. */
  lemma {:induction false} PutAllIff(fields: map<string, string>, ps: seq<Pair>, key: string)
    requires key in PutAll(fields, ps)
    ensures (key in fields && PutAll(fields, ps)[key] == fields[key] && forall j :: 0 <= j < |ps| ==> ps[j].key != key)
         || exists i :: LastPair(ps, i) && ps[i] == Pair(key, PutAll(fields, ps)[key])
    decreases |ps|
  {
    if ps != [] {
      var next := fields[ps[0].key := ps[0].value];
      PutAllIff(next, ps[1..], key);
      if i :| LastPair(ps[1..], i) && ps[1..][i] == Pair(key, PutAll(next, ps[1..])[key]) {
        assert ps[i + 1] == ps[1..][i];
        assert LastPair(ps, i + 1);
      } else {
        assert forall j :: 0 < j < |ps| ==> ps[j] == ps[1..][j - 1];
        if ps[0].key == key { assert LastPair(ps, 0); }
      }
    }
  }

  lemma {:induction false} PutAllLast(fields: map<string, string>, ps: seq<Pair>, i: nat)
    requires LastPair(ps, i)
    ensures ps[i].key in PutAll(fields, ps) && PutAll(fields, ps)[ps[i].key] == ps[i].value
    decreases |ps|
  {
    var next := fields[ps[0].key := ps[0].value];
    if i == 0 {
      PutAllKeeps(next, ps[1..], ps[0].key);
    } else {
      assert ps[1..][i - 1] == ps[i];
      PutAllLast(next, ps[1..], i - 1);
    }
  }
}
