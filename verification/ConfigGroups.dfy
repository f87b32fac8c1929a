/** Grouping alternate settings by interface number is a stable sort that drops number 255. */
module ConfigGroups {
  import opened Core
  import opened Descriptors

  /** The alternate settings of all interfaces, one interface after the other. */
  function Ungroup(ifaces: seq<Interface>): seq<AltSetting> {
    if ifaces == [] then [] else ifaces[0].altSettings + Ungroup(ifaces[1..])
  }

  /** The alternate settings numbered from n up to the limit, in order. */
  function From(alts: seq<AltSetting>, n: byte): seq<AltSetting> {
    if alts == [] then []
    else if n <= alts[0].desc.interfaceNumber < NUMBER_LIMIT then [alts[0]] + From(alts[1..], n)
    else From(alts[1..], n)
  }

  /** The groups' settings in ascending order of their number. */
  function Concat(alts: seq<AltSetting>, n: byte): seq<AltSetting>
    requires n <= NUMBER_LIMIT
    decreases NUMBER_LIMIT - n
  {
    if n == NUMBER_LIMIT then [] else Numbered(alts, n) + Concat(alts, n + 1)
  }

  lemma {:induction false} UngroupGroups(alts: seq<AltSetting>, n: byte)
    requires n <= NUMBER_LIMIT
    ensures Ungroup(Groups(alts, n)) == Concat(alts, n)
    decreases NUMBER_LIMIT - n
  {
    if n < NUMBER_LIMIT {
      UngroupGroups(alts, n + 1);
      var g := Groups(alts, n);
      if Numbered(alts, n) != [] {
        assert g[1..] == Groups(alts, n + 1);
      } else {
        assert g == Groups(alts, n + 1);
        assert Numbered(alts, n) + Concat(alts, n + 1) == Concat(alts, n + 1);
      }
    }
  }

  // ---------------------------------------------------------------- the groups themselves

  lemma {:induction false} NumberedAppend(a: seq<AltSetting>, b: seq<AltSetting>, n: byte)
    ensures Numbered(a + b, n) == Numbered(a, n) + Numbered(b, n)
  {
    if a == [] {
      assert a + b == b;
    } else {
      assert (a + b)[1..] == a[1..] + b;
      NumberedAppend(a[1..], b, n);
    }
  }

  /** How many settings numbered n come before position i. */
  function Rank(alts: seq<AltSetting>, n: byte, i: nat): nat
    requires i <= |alts|
  {
    |Numbered(alts[..i], n)|
  }

  /**
   Byte order is kept: the setting at position i stands in its group behind exactly those of its
   number that came before it, so a later one stands further back.
   */
  lemma {:induction false} NumberedKeepsOrder(alts: seq<AltSetting>, n: byte, i: nat)
    requires i < |alts| && alts[i].desc.interfaceNumber == n
    ensures Rank(alts, n, i) < |Numbered(alts, n)| && Numbered(alts, n)[Rank(alts, n, i)] == alts[i]
    ensures forall j :: i < j <= |alts| ==> Rank(alts, n, i) < Rank(alts, n, j)
  {
    forall j | i < j <= |alts|
      ensures Rank(alts, n, i) < Rank(alts, n, j) && Numbered(alts[..j], n)[Rank(alts, n, i)] == alts[i]
    {
      assert alts[..j] == alts[..i] + alts[i..j] && alts[i..j][0] == alts[i];
      NumberedAppend(alts[..i], alts[i..j], n);
    }
    assert alts[..|alts|] == alts;
  }

  function NumberOf(g: Interface): byte
    requires g.altSettings != []
  {
    g.altSettings[0].desc.interfaceNumber
  }

  lemma {:induction false} NumberedNumber(alts: seq<AltSetting>, n: byte)
    ensures forall k :: 0 <= k < |Numbered(alts, n)| ==> Numbered(alts, n)[k].desc.interfaceNumber == n
  {
    if alts != [] { NumberedNumber(alts[1..], n); }
  }

  /** g is the group of all settings of its number, which is at least n. */
  ghost predicate WholeGroup(alts: seq<AltSetting>, g: Interface, n: byte) {
    g.altSettings != [] && n <= NumberOf(g) < NUMBER_LIMIT && g.altSettings == Numbered(alts, NumberOf(g))
  }

  /** gs is strictly ascending by number, and each group holds all settings of its number. */
  ghost predicate Grouped(alts: seq<AltSetting>, gs: seq<Interface>, n: byte) {
    && (forall i :: 0 <= i < |gs| ==> WholeGroup(alts, gs[i], n))
    && (forall i, j :: 0 <= i < j < |gs| ==> NumberOf(gs[i]) < NumberOf(gs[j]))
  }

  lemma {:induction false} GroupedCons(alts: seq<AltSetting>, rest: seq<Interface>, n: byte)
    requires n < NUMBER_LIMIT && Numbered(alts, n) != [] && Grouped(alts, rest, n + 1)
    ensures Grouped(alts, [Interface(Numbered(alts, n))] + rest, n)
  {
    NumberedNumber(alts, n);
    var g := Interface(Numbered(alts, n));
    assert NumberOf(g) == n;
    var gs := [g] + rest;
    forall i | 0 <= i < |gs| ensures WholeGroup(alts, gs[i], n) {
      if i > 0 { assert WholeGroup(alts, rest[i - 1], n + 1); }
    }
    forall i, j | 0 <= i < j < |gs| ensures NumberOf(gs[i]) < NumberOf(gs[j]) {
      assert WholeGroup(alts, rest[j - 1], n + 1);
      if i > 0 { assert NumberOf(rest[i - 1]) < NumberOf(rest[j - 1]); }
    }
  }

  /** The groups from n up are that of n, if any, and those from n + 1 up. */
  lemma GroupsStep(alts: seq<AltSetting>, n: byte)
    requires n < NUMBER_LIMIT
    ensures Groups(alts, n) ==
            if Numbered(alts, n) == [] then Groups(alts, n + 1)
            else [Interface(Numbered(alts, n))] + Groups(alts, n + 1)
  {
  }

  lemma GroupedFromLess(alts: seq<AltSetting>, gs: seq<Interface>, n: byte)
    requires n < NUMBER_LIMIT && Grouped(alts, gs, n + 1)
    ensures Grouped(alts, gs, n)
  {
    forall i | 0 <= i < |gs| ensures WholeGroup(alts, gs[i], n) {
      assert WholeGroup(alts, gs[i], n + 1);
    }
  }

  lemma {:induction false} GroupsAscend(alts: seq<AltSetting>, n: byte)
    requires n <= NUMBER_LIMIT
    ensures Grouped(alts, Groups(alts, n), n)
    decreases NUMBER_LIMIT - n
  {
    if n < NUMBER_LIMIT {
      var rest := Groups(alts, n + 1);
      GroupsAscend(alts, n + 1);
      GroupsStep(alts, n);
      if Numbered(alts, n) == [] {
        assert Groups(alts, n) == rest;
        GroupedFromLess(alts, rest, n);
      } else {
        assert Groups(alts, n) == [Interface(Numbered(alts, n))] + rest;
        GroupedCons(alts, rest, n);
      }
    }
  }

  /** Every number in use below the limit has its group. */
  lemma {:induction false} GroupsComplete(alts: seq<AltSetting>, n: byte, m: byte)
    requires n <= m < NUMBER_LIMIT && Numbered(alts, m) != []
    ensures Interface(Numbered(alts, m)) in Groups(alts, n)
    decreases m - n
  {
    if n < m { GroupsComplete(alts, n + 1, m); }
  }

  // ---------------------------------------------------------------- a permutation

  lemma {:induction false} FromSplits(alts: seq<AltSetting>, n: byte)
    requires n < NUMBER_LIMIT
    ensures multiset(From(alts, n)) == multiset(Numbered(alts, n)) + multiset(From(alts, n + 1))
  {
    if alts != [] {
      FromSplits(alts[1..], n);
    }
  }

  lemma {:induction false} ConcatIsPermutation(alts: seq<AltSetting>, n: byte)
    requires n <= NUMBER_LIMIT
    ensures multiset(Concat(alts, n)) == multiset(From(alts, n))
    decreases NUMBER_LIMIT - n
  {
    if n == NUMBER_LIMIT {
      NoneFromLimit(alts);
    } else {
      ConcatIsPermutation(alts, n + 1);
      FromSplits(alts, n);
    }
  }

  lemma {:induction false} NoneFromLimit(alts: seq<AltSetting>)
    ensures From(alts, NUMBER_LIMIT) == []
  {
    if alts != [] { NoneFromLimit(alts[1..]); }
  }

  /** After grouping, the settings are those not numbered 255, each as often as before. */
  lemma {:induction false} GroupingPermutes(alts: seq<AltSetting>)
    ensures multiset(Ungroup(Groups(alts, 0))) == multiset(From(alts, 0))
    ensures |Ungroup(Groups(alts, 0))| == |From(alts, 0)|
  {
    UngroupGroups(alts, 0);
    ConcatIsPermutation(alts, 0);
    assert |multiset(Concat(alts, 0))| == |multiset(From(alts, 0))|;
  }

  // ---------------------------------------------------------------- stable

  lemma {:induction false} NumberedTwice(alts: seq<AltSetting>, m: byte, n: byte)
    ensures Numbered(Numbered(alts, m), n) == if m == n then Numbered(alts, n) else []
  {
    if alts != [] {
      NumberedTwice(alts[1..], m, n);
      var rest := Numbered(alts[1..], m);
      if alts[0].desc.interfaceNumber == m {
        assert Numbered(alts, m) == [alts[0]] + rest && Numbered(alts, m)[1..] == rest;
      } else {
        assert Numbered(alts, m) == rest;
      }
    }
  }

  lemma {:induction false} ConcatKeepsNumbered(alts: seq<AltSetting>, m: byte, n: byte)
    requires m <= NUMBER_LIMIT
    ensures Numbered(Concat(alts, m), n) == if m <= n < NUMBER_LIMIT then Numbered(alts, n) else []
    decreases NUMBER_LIMIT - m
  {
    if m < NUMBER_LIMIT {
      ConcatKeepsNumbered(alts, m + 1, n);
      NumberedAppend(Numbered(alts, m), Concat(alts, m + 1), n);
      NumberedTwice(alts, m, n);
    }
  }

  /** Within each number the order is unchanged. */
  lemma {:induction false} GroupingIsStable(alts: seq<AltSetting>, n: byte)
    requires n < NUMBER_LIMIT
    ensures Numbered(Ungroup(Groups(alts, 0)), n) == Numbered(alts, n)
  {
    UngroupGroups(alts, 0);
    ConcatKeepsNumbered(alts, 0, n);
  }

  // ---------------------------------------------------------------- when nothing moves

  ghost predicate NonDecreasing(alts: seq<AltSetting>) {
    forall i, j :: 0 <= i < j < |alts| ==> alts[i].desc.interfaceNumber <= alts[j].desc.interfaceNumber
  }

  ghost predicate AllFrom(alts: seq<AltSetting>, n: byte) {
    forall i :: 0 <= i < |alts| ==> n <= alts[i].desc.interfaceNumber < NUMBER_LIMIT
  }

  lemma {:induction false} ConcatNonDecreasing(alts: seq<AltSetting>, n: byte)
    requires n <= NUMBER_LIMIT
    ensures NonDecreasing(Concat(alts, n)) && AllFrom(Concat(alts, n), n)
    decreases NUMBER_LIMIT - n
  {
    if n < NUMBER_LIMIT {
      ConcatNonDecreasing(alts, n + 1);
      NumberedNumber(alts, n);
    }
  }

  lemma {:induction false} ConcatSkips(alts: seq<AltSetting>, n: byte)
    requires n <= NUMBER_LIMIT && alts != [] && alts[0].desc.interfaceNumber < n
    ensures Concat(alts, n) == Concat(alts[1..], n)
    decreases NUMBER_LIMIT - n
  {
    if n < NUMBER_LIMIT {
      ConcatSkips(alts, n + 1);
      assert Numbered(alts, n) == Numbered(alts[1..], n);
    }
  }

  lemma {:induction false} NoneNumbered(alts: seq<AltSetting>, n: byte)
    requires forall i :: 0 <= i < |alts| ==> alts[i].desc.interfaceNumber != n
    ensures Numbered(alts, n) == []
  {
    if alts != [] { NoneNumbered(alts[1..], n); }
  }

  function FirstNumber(alts: seq<AltSetting>): byte {
    if alts == [] then 0 else alts[0].desc.interfaceNumber
  }

  lemma FirstAllFrom(alts: seq<AltSetting>, n: byte)
    requires AllFrom(alts, n)
    ensures alts != [] ==> n <= FirstNumber(alts) < NUMBER_LIMIT
  {
  }

  lemma ConcatStep(alts: seq<AltSetting>, n: byte)
    requires n < NUMBER_LIMIT
    ensures Concat(alts, n) == Numbered(alts, n) + Concat(alts, n + 1)
  {
  }

  lemma Regroup<T>(a: seq<T>, b: seq<T>, c: seq<T>)
    ensures (a + b) + c == a + (b + c)
  {
  }

  lemma {:induction false} ConcatTakesFirst(alts: seq<AltSetting>, n: byte)
    requires n < NUMBER_LIMIT && alts != [] && alts[0].desc.interfaceNumber == n
    ensures Concat(alts, n) == [alts[0]] + Concat(alts[1..], n)
  {
    var tail := alts[1..];
    var now, later := Numbered(tail, n), Concat(tail, n + 1);
    ConcatStep(alts, n);
    ConcatStep(tail, n);
    ConcatSkips(alts, n + 1);
    assert Numbered(alts, n) == [alts[0]] + now;
    Regroup([alts[0]], now, later);
  }

  lemma ConcatPasses(alts: seq<AltSetting>, n: byte)
    requires n < NUMBER_LIMIT && Numbered(alts, n) == []
    ensures Concat(alts, n) == Concat(alts, n + 1)
  {
  }

  lemma AllFromNext(alts: seq<AltSetting>, n: byte)
    requires n < NUMBER_LIMIT && NonDecreasing(alts) && AllFrom(alts, n)
    requires alts == [] || alts[0].desc.interfaceNumber != n
    ensures AllFrom(alts, n + 1) && Numbered(alts, n) == []
  {
    NoneNumbered(alts, n);
  }

  lemma {:induction false} ConcatSorted(alts: seq<AltSetting>, n: byte)
    requires n <= NUMBER_LIMIT && NonDecreasing(alts) && AllFrom(alts, n)
    ensures Concat(alts, n) == alts
    decreases NUMBER_LIMIT - n, |alts|
  {
    if n == NUMBER_LIMIT {
      FirstAllFrom(alts, n);
    } else if alts != [] && alts[0].desc.interfaceNumber == n {
      ConcatSorted(alts[1..], n);
      ConcatTakesFirst(alts, n);
      assert [alts[0]] + alts[1..] == alts;
    } else {
      AllFromNext(alts, n);
      ConcatSorted(alts, n + 1);
      ConcatPasses(alts, n);
    }
  }

  /** Grouping leaves the settings where they are exactly when their numbers never decrease and none is 255. */
  lemma {:induction false} GroupingIsIdentity(alts: seq<AltSetting>)
    ensures Ungroup(Groups(alts, 0)) == alts <==> NonDecreasing(alts) && AllFrom(alts, 0)
  {
    UngroupGroups(alts, 0);
    ConcatNonDecreasing(alts, 0);
    if NonDecreasing(alts) && AllFrom(alts, 0) { ConcatSorted(alts, 0); }
  }

  // ---------------------------------------------------------------- lookups

  /** Interface(n) on a parsed tree: nothing exactly when no setting has that number, or the number is 255. */
  ghost predicate InterfaceFound(ifaces: seq<Interface>, n: byte, r: Option<nat>) {
    match r
    case Some(i) => i < |ifaces| && ifaces[i].altSettings != [] && NumberOf(ifaces[i]) == n
    case None => forall i :: 0 <= i < |ifaces| && ifaces[i].altSettings != [] ==> NumberOf(ifaces[i]) != n
  }

  lemma {:induction false} InterfaceFoundIff(alts: seq<AltSetting>, n: byte, r: Option<nat>)
    requires InterfaceFound(Groups(alts, 0), n, r)
    ensures r.None? <==> n == NUMBER_LIMIT || Numbered(alts, n) == []
    ensures r.Some? ==> Groups(alts, 0)[r.value].altSettings == Numbered(alts, n)
  {
    GroupsAscend(alts, 0);
    if n < NUMBER_LIMIT && Numbered(alts, n) != [] {
      GroupsComplete(alts, 0, n);
      NumberedNumber(alts, n);
      assert NumberOf(Interface(Numbered(alts, n))) == n;
    }
  }

  /** i is the first interface with the number. */
  ghost predicate FirstFound(ifaces: seq<Interface>, n: byte, i: nat) {
    i < |ifaces| && InterfaceFound(ifaces, n, Some(i)) && InterfaceFound(ifaces[..i], n, None)
  }

  /** InterfaceAltSetting(n, a): where the first interface with number n has alternate setting a. */
  ghost predicate AltSettingFound(ifaces: seq<Interface>, n: byte, a: byte, r: Option<(nat, nat)>) {
    match r
    case Some((i, j)) =>
      FirstFound(ifaces, n, i) && j < |ifaces[i].altSettings|
      && ifaces[i].altSettings[j].desc.alternateSetting == a
    case None =>
      || InterfaceFound(ifaces, n, None)
      || exists i :: 0 <= i < |ifaces| && FirstFound(ifaces, n, i)
           && forall j :: 0 <= j < |ifaces[i].altSettings| ==>
                ifaces[i].altSettings[j].desc.alternateSetting != a
  }

  /** Whether a setting with this number and alternate setting occurred. */
  ghost predicate Occurs(alts: seq<AltSetting>, n: byte, a: byte) {
    exists i :: 0 <= i < |alts| && alts[i].desc.interfaceNumber == n && alts[i].desc.alternateSetting == a
  }

  lemma {:induction false} OccursNumbered(alts: seq<AltSetting>, n: byte, a: byte)
    ensures Occurs(alts, n, a) <==>
            exists j :: 0 <= j < |Numbered(alts, n)| && Numbered(alts, n)[j].desc.alternateSetting == a
  {
    if Occurs(alts, n, a) {
      var i :| 0 <= i < |alts| && alts[i].desc.interfaceNumber == n && alts[i].desc.alternateSetting == a;
      NumberedKeepsOrder(alts, n, i);
    }
    if alts != [] {
      OccursNumbered(alts[1..], n, a);
      if Occurs(alts[1..], n, a) {
        var i :| 0 <= i < |alts| - 1 && alts[1..][i].desc.interfaceNumber == n
          && alts[1..][i].desc.alternateSetting == a;
        assert alts[i + 1] == alts[1..][i];
      }
      forall j | 0 <= j < |Numbered(alts, n)| && Numbered(alts, n)[j].desc.alternateSetting == a
        ensures Occurs(alts, n, a)
      {
        var rest := Numbered(alts[1..], n);
        if alts[0].desc.interfaceNumber == n && j > 0 { assert rest[j - 1].desc.alternateSetting == a; }
        else if alts[0].desc.interfaceNumber != n { assert rest[j].desc.alternateSetting == a; }
      }
    }
  }

  /** It finds nothing exactly for the pairs that never occurred, and for number 255. */
  lemma {:induction false} AltSettingFoundIff(alts: seq<AltSetting>, n: byte, a: byte, r: Option<(nat, nat)>)
    requires AltSettingFound(Groups(alts, 0), n, a, r)
    ensures r.None? <==> n == NUMBER_LIMIT || !Occurs(alts, n, a)
  {
    OccursNumbered(alts, n, a);
    var gs := Groups(alts, 0);
    if r.Some? {
      InterfaceFoundIff(alts, n, Some(r.value.0));
    } else if InterfaceFound(gs, n, None) {
      InterfaceFoundIff(alts, n, None);
    } else {
      var i :| 0 <= i < |gs| && FirstFound(gs, n, i)
        && forall j :: 0 <= j < |gs[i].altSettings| ==> gs[i].altSettings[j].desc.alternateSetting != a;
      InterfaceFoundIff(alts, n, Some(i));
    }
  }
}
