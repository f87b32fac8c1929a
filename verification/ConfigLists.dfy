/** The descriptor lists of settings, and what grouping does to them. */
module ConfigLists {
  import opened Core
  import opened Descriptors
  import opened ConfigGroups

  // ---------------------------------------------------------------- the lists

  function Descs(alts: seq<AltSetting>): seq<InterfaceDescriptor> {
    if alts == [] then [] else [alts[0].desc] + Descs(alts[1..])
  }

  function EndpointDescs(eps: seq<Endpoint>): seq<EndpointDescriptor> {
    if eps == [] then [] else [eps[0].desc] + EndpointDescs(eps[1..])
  }

  function EndpointsOf(alts: seq<AltSetting>): seq<EndpointDescriptor> {
    if alts == [] then [] else EndpointDescs(alts[0].endpoints) + EndpointsOf(alts[1..])
  }

  lemma {:induction false} DescsAppend(a: seq<AltSetting>, b: seq<AltSetting>)
    ensures Descs(a + b) == Descs(a) + Descs(b) && EndpointsOf(a + b) == EndpointsOf(a) + EndpointsOf(b)
  {
    if a == [] {
      assert a + b == b;
    } else {
      assert (a + b)[1..] == a[1..] + b;
      DescsAppend(a[1..], b);
    }
  }

  lemma {:induction false} DescsWithout(b: seq<AltSetting>, i: nat)
    requires i < |b|
    ensures multiset(Descs(b)) == multiset{b[i].desc} + multiset(Descs(b[..i] + b[i + 1..]))
    ensures multiset(EndpointsOf(b))
         == multiset(EndpointDescs(b[i].endpoints)) + multiset(EndpointsOf(b[..i] + b[i + 1..]))
  {
    assert b == b[..i] + b[i..];
    assert b[i..][1..] == b[i + 1..];
    DescsAppend(b[..i], b[i..]);
    DescsAppend(b[..i], b[i + 1..]);
  }

  lemma Without(b: seq<AltSetting>, i: nat)
    requires i < |b|
    ensures multiset(b[..i] + b[i + 1..]) == multiset(b) - multiset{b[i]}
  {
    assert b == b[..i] + [b[i]] + b[i + 1..];
  }

  lemma {:induction false} WithoutFirst(a: seq<AltSetting>)
    requires a != []
    ensures multiset(a[1..]) == multiset(a) - multiset{a[0]}
    ensures multiset(Descs(a)) == multiset{a[0].desc} + multiset(Descs(a[1..]))
    ensures multiset(EndpointsOf(a)) ==
            multiset(EndpointDescs(a[0].endpoints)) + multiset(EndpointsOf(a[1..]))
  {
    assert a == [a[0]] + a[1..];
  }

  lemma PlaceOf(b: seq<AltSetting>, x: AltSetting) returns (i: nat)
    requires x in multiset(b)
    ensures i < |b| && b[i] == x
  {
    i :| 0 <= i < |b| && b[i] == x;
  }

  /** Rearranged settings have rearranged descriptors and endpoints. */
  lemma {:induction false} PermutedLists(a: seq<AltSetting>, b: seq<AltSetting>)
    requires multiset(a) == multiset(b)
    ensures multiset(Descs(a)) == multiset(Descs(b)) && multiset(EndpointsOf(a)) == multiset(EndpointsOf(b))
  {
    if a == [] {
      assert |multiset(a)| == 0 && |multiset(b)| == |b|;
    } else {
      var i := PlaceOf(b, a[0]);
      WithoutFirst(a);
      Without(b, i);
      DescsWithout(b, i);
      PermutedLists(a[1..], b[..i] + b[i + 1..]);
    }
  }

  lemma {:induction false} FromIsAll(alts: seq<AltSetting>)
    ensures |From(alts, 0)| <= |alts|
    ensures From(alts, 0) == alts <==> |From(alts, 0)| == |alts|
    ensures From(alts, 0) == alts <==> AllFrom(alts, 0)
  {
    if alts != [] {
      FromIsAll(alts[1..]);
      if AllFrom(alts, 0) { assert AllFrom(alts[1..], 0); }
      if From(alts, 0) == alts {
        assert From(alts, 0)[0] == alts[0] && From(alts, 0)[1..] == alts[1..];
      }
    }
  }

  lemma {:induction false} DescsAt(alts: seq<AltSetting>)
    ensures |Descs(alts)| == |alts| && forall i :: 0 <= i < |alts| ==> Descs(alts)[i] == alts[i].desc
  {
    if alts != [] { DescsAt(alts[1..]); }
  }

  /** Flat and flattened interface lists hold the same descriptors exactly when no setting is numbered 255. */
  lemma {:induction false} SameInterfacesIff(alts: seq<AltSetting>)
    ensures multiset(Descs(Ungroup(Groups(alts, 0)))) == multiset(Descs(alts)) <==> AllFrom(alts, 0)
    ensures AllFrom(alts, 0) ==> multiset(EndpointsOf(Ungroup(Groups(alts, 0)))) == multiset(EndpointsOf(alts))
  {
    var grouped := Ungroup(Groups(alts, 0));
    GroupingPermutes(alts);
    FromIsAll(alts);
    DescsAt(grouped);
    DescsAt(alts);
    if AllFrom(alts, 0) {
      PermutedLists(grouped, alts);
    } else {
      assert |multiset(Descs(grouped))| < |multiset(Descs(alts))|;
    }
  }

  /** They are the same lists exactly when numbers never decrease and none is 255. */
  lemma {:induction false} IdenticalListsIff(alts: seq<AltSetting>)
    ensures Descs(Ungroup(Groups(alts, 0))) == Descs(alts) <==> NonDecreasing(alts) && AllFrom(alts, 0)
    ensures NonDecreasing(alts) && AllFrom(alts, 0) ==> EndpointsOf(Ungroup(Groups(alts, 0))) == EndpointsOf(alts)
  {
    var grouped := Ungroup(Groups(alts, 0));
    GroupingIsIdentity(alts);
    if Descs(grouped) == Descs(alts) {
      DescsAt(grouped);
      DescsAt(alts);
      UngroupGroups(alts, 0);
      ConcatNonDecreasing(alts, 0);
      forall i | 0 <= i < |alts| ensures alts[i].desc == grouped[i].desc {
        assert Descs(alts)[i] == Descs(grouped)[i];
      }
    }
  }

  /** The descriptors numbered n, in order. */
  function DescsNumbered(ds: seq<InterfaceDescriptor>, n: byte): seq<InterfaceDescriptor> {
    if ds == [] then []
    else if ds[0].interfaceNumber == n then [ds[0]] + DescsNumbered(ds[1..], n)
    else DescsNumbered(ds[1..], n)
  }

  lemma {:induction false} DescsOfNumbered(alts: seq<AltSetting>, n: byte)
    ensures DescsNumbered(Descs(alts), n) == Descs(Numbered(alts, n))
  {
    if alts != [] {
      DescsOfNumbered(alts[1..], n);
      assert Descs(alts)[1..] == Descs(alts[1..]);
      if alts[0].desc.interfaceNumber == n {
        assert Numbered(alts, n)[1..] == Numbered(alts[1..], n);
      } else {
        assert Numbered(alts, n) == Numbered(alts[1..], n);
      }
    }
  }

  lemma {:induction false} SameOrderPerNumber(alts: seq<AltSetting>, n: byte)
    requires n < NUMBER_LIMIT
    ensures DescsNumbered(Descs(Ungroup(Groups(alts, 0))), n) == DescsNumbered(Descs(alts), n)
  {
    DescsOfNumbered(alts, n);
    DescsOfNumbered(Ungroup(Groups(alts, 0)), n);
    GroupingIsStable(alts, n);
  }

  // ---------------------------------------------------------------- endpoint lists

  /** The settings that have endpoints. */
  function Bearing(alts: seq<AltSetting>): seq<AltSetting> {
    if alts == [] then []
    else if alts[0].endpoints == [] then Bearing(alts[1..])
    else [alts[0]] + Bearing(alts[1..])
  }

  ghost predicate AllBearing(alts: seq<AltSetting>) {
    forall i :: 0 <= i < |alts| ==> alts[i].endpoints != []
  }

  lemma {:induction false} BearingHasAll(alts: seq<AltSetting>)
    ensures EndpointsOf(Bearing(alts)) == EndpointsOf(alts) && AllBearing(Bearing(alts))
  {
    if alts != [] {
      BearingHasAll(alts[1..]);
      if alts[0].endpoints != [] {
        assert Bearing(alts)[1..] == Bearing(alts[1..]);
      } else {
        assert EndpointsOf(alts) == EndpointsOf(alts[1..]);
      }
    }
  }

  lemma {:induction false} BearingAppend(a: seq<AltSetting>, b: seq<AltSetting>)
    ensures Bearing(a + b) == Bearing(a) + Bearing(b)
  {
    if a == [] {
      assert a + b == b;
    } else {
      assert (a + b)[1..] == a[1..] + b;
      BearingAppend(a[1..], b);
    }
  }

  lemma {:induction false} BearingNumbered(alts: seq<AltSetting>, n: byte)
    ensures Bearing(Numbered(alts, n)) == Numbered(Bearing(alts), n)
  {
    if alts != [] {
      var rest := Numbered(alts[1..], n);
      BearingNumbered(alts[1..], n);
      if alts[0].desc.interfaceNumber == n {
        assert Numbered(alts, n) == [alts[0]] + rest && Numbered(alts, n)[1..] == rest;
      } else {
        assert Numbered(alts, n) == rest;
      }
      if alts[0].endpoints != [] { assert Bearing(alts)[1..] == Bearing(alts[1..]); }
    }
  }

  lemma {:induction false} BearingConcat(alts: seq<AltSetting>, n: byte)
    requires n <= NUMBER_LIMIT
    ensures Bearing(Concat(alts, n)) == Concat(Bearing(alts), n)
    decreases NUMBER_LIMIT - n
  {
    if n < NUMBER_LIMIT {
      ConcatStep(alts, n);
      ConcatStep(Bearing(alts), n);
      BearingConcat(alts, n + 1);
      BearingNumbered(alts, n);
      BearingAppend(Numbered(alts, n), Concat(alts, n + 1));
    }
  }

  lemma {:induction false} EndpointsFrom(b: seq<AltSetting>)
    requires AllBearing(b)
    ensures |EndpointsOf(From(b, 0))| <= |EndpointsOf(b)|
    ensures |EndpointsOf(From(b, 0))| == |EndpointsOf(b)| ==> From(b, 0) == b
  {
    if b != [] {
      EndpointsFrom(b[1..]);
      EndpointDescsAt(b[0].endpoints);
      var rest := From(b[1..], 0);
      if b[0].desc.interfaceNumber < NUMBER_LIMIT {
        assert From(b, 0) == [b[0]] + rest && From(b, 0)[1..] == rest;
      } else {
        assert From(b, 0) == rest;
      }
    }
  }

  lemma {:induction false} EndpointDescsAt(eps: seq<Endpoint>)
    ensures |EndpointDescs(eps)| == |eps| && forall i :: 0 <= i < |eps| ==> EndpointDescs(eps)[i] == eps[i].desc
  {
    if eps != [] { EndpointDescsAt(eps[1..]); }
  }

  /** Grouped, the settings have the same endpoints exactly when number 255 has none. */
  lemma {:induction false} SameEndpointsIff(alts: seq<AltSetting>)
    ensures |EndpointsOf(Ungroup(Groups(alts, 0)))| <= |EndpointsOf(alts)|
    ensures AllFrom(Bearing(alts), 0) <==>
            |EndpointsOf(Ungroup(Groups(alts, 0)))| == |EndpointsOf(alts)|
    ensures AllFrom(Bearing(alts), 0) ==>
      multiset(EndpointsOf(Ungroup(Groups(alts, 0)))) == multiset(EndpointsOf(alts))
  {
    var grouped, b := Ungroup(Groups(alts, 0)), Bearing(alts);
    BearingHasAll(alts);
    BearingHasAll(grouped);
    UngroupGroups(alts, 0);
    BearingConcat(alts, 0);
    ConcatIsPermutation(b, 0);
    PermutedLists(Concat(b, 0), From(b, 0));
    SameSize(EndpointsOf(Concat(b, 0)), EndpointsOf(From(b, 0)));
    EndpointsFrom(b);
    FromIsAll(b);
  }

  lemma SameSize<T>(a: seq<T>, b: seq<T>)
    requires multiset(a) == multiset(b)
    ensures |a| == |b|
  {
    assert |multiset(a)| == |multiset(b)|;
  }

  // ---------------------------------------------------------------- their order

  function Repeat(n: byte, times: nat): (r: seq<byte>)
    ensures |r| == times && forall i :: 0 <= i < times ==> r[i] == n
  {
    if times == 0 then [] else [n] + Repeat(n, times - 1)
  }

  /** The interface number of each endpoint in the list. */
  function Owners(alts: seq<AltSetting>): seq<byte> {
    if alts == [] then [] else Repeat(alts[0].desc.interfaceNumber, |alts[0].endpoints|) + Owners(alts[1..])
  }

  lemma {:induction false} OwnersLength(alts: seq<AltSetting>)
    ensures |Owners(alts)| == |EndpointsOf(alts)|
  {
    if alts != [] {
      OwnersLength(alts[1..]);
      EndpointDescsAt(alts[0].endpoints);
    }
  }

  ghost predicate Sorted(ns: seq<byte>) {
    forall i, j :: 0 <= i < j < |ns| ==> ns[i] <= ns[j]
  }

  lemma {:induction false} OwnersFrom(alts: seq<AltSetting>, n: byte)
    requires forall i :: 0 <= i < |alts| ==> n <= alts[i].desc.interfaceNumber
    ensures forall p :: 0 <= p < |Owners(alts)| ==> n <= Owners(alts)[p]
  {
    if alts != [] { OwnersFrom(alts[1..], n); }
  }

  lemma {:induction false} OwnersSorted(alts: seq<AltSetting>)
    requires NonDecreasing(alts)
    ensures Sorted(Owners(alts))
  {
    if alts != [] {
      OwnersSorted(alts[1..]);
      OwnersFrom(alts[1..], alts[0].desc.interfaceNumber);
    }
  }

  /** The first endpoint of a setting that has one stands somewhere in the list. */
  lemma {:induction false} OwnerStands(b: seq<AltSetting>, i: nat) returns (p: nat)
    requires AllBearing(b) && i < |b|
    ensures p < |Owners(b)| && Owners(b)[p] == b[i].desc.interfaceNumber
  {
    if i == 0 {
      p := 0;
    } else {
      p := OwnerStands(b[1..], i - 1);
      p := p + |b[0].endpoints|;
    }
  }

  lemma {:induction false} SortedOwners(b: seq<AltSetting>)
    requires AllBearing(b) && Sorted(Owners(b))
    ensures NonDecreasing(b)
  {
    if b != [] {
      var first, rest := Repeat(b[0].desc.interfaceNumber, |b[0].endpoints|), Owners(b[1..]);
      forall i, j | 0 <= i < j < |rest| ensures rest[i] <= rest[j] {
        assert Owners(b)[|first| + i] == rest[i] && Owners(b)[|first| + j] == rest[j];
      }
      SortedOwners(b[1..]);
      forall j | 0 < j < |b| ensures b[0].desc.interfaceNumber <= b[j].desc.interfaceNumber {
        var p := OwnerStands(b[1..], j - 1);
        assert Owners(b)[0] == b[0].desc.interfaceNumber && Owners(b)[|first| + p] == rest[p];
      }
      NonDecreasingCons(b);
    }
  }

  lemma NonDecreasingCons(b: seq<AltSetting>)
    requires b != [] && NonDecreasing(b[1..])
    requires forall j :: 0 < j < |b| ==> b[0].desc.interfaceNumber <= b[j].desc.interfaceNumber
    ensures NonDecreasing(b)
  {
    forall i, j | 0 <= i < j < |b| ensures b[i].desc.interfaceNumber <= b[j].desc.interfaceNumber {
      if i > 0 { assert b[i] == b[1..][i - 1] && b[j] == b[1..][j - 1]; }
    }
  }

  /** A setting numbered n has an endpoint described by d. */
  ghost predicate Describes(alts: seq<AltSetting>, n: byte, d: EndpointDescriptor) {
    exists i :: 0 <= i < |alts| && alts[i].desc.interfaceNumber == n && d in EndpointDescs(alts[i].endpoints)
  }

  /** No two interfaces describe an endpoint alike. */
  ghost predicate Unshared(alts: seq<AltSetting>) {
    forall d, m, n :: Describes(alts, m, d) && Describes(alts, n, d) ==> m == n
  }

  lemma {:induction false} OwnerDescribes(alts: seq<AltSetting>, p: nat)
    requires p < |EndpointsOf(alts)|
    ensures p < |Owners(alts)| && Describes(alts, Owners(alts)[p], EndpointsOf(alts)[p])
  {
    OwnersLength(alts);
    EndpointDescsAt(alts[0].endpoints);
    var n := |alts[0].endpoints|;
    if p < n {
      assert EndpointsOf(alts)[p] in EndpointDescs(alts[0].endpoints);
    } else {
      OwnerDescribes(alts[1..], p - n);
      var m, d := Owners(alts)[p], EndpointsOf(alts)[p];
      assert Describes(alts[1..], m, d);
      var i :| 0 <= i < |alts| - 1 && alts[1..][i].desc.interfaceNumber == m
        && d in EndpointDescs(alts[1..][i].endpoints);
      assert alts[i + 1] == alts[1..][i];
    }
  }

  lemma {:induction false} FromIsPart(alts: seq<AltSetting>, n: byte)
    ensures forall x :: x in From(alts, n) ==> x in alts
  {
    if alts != [] { FromIsPart(alts[1..], n); }
  }

  lemma {:induction false} GroupedIsPart(alts: seq<AltSetting>, x: AltSetting)
    requires x in Ungroup(Groups(alts, 0))
    ensures x in alts
  {
    GroupingPermutes(alts);
    assert x in multiset(From(alts, 0));
    FromIsPart(alts, 0);
  }

  lemma {:induction false} GroupedDescribes(alts: seq<AltSetting>, n: byte, d: EndpointDescriptor)
    requires Describes(Ungroup(Groups(alts, 0)), n, d)
    ensures Describes(alts, n, d)
  {
    var grouped := Ungroup(Groups(alts, 0));
    var i :| 0 <= i < |grouped| && grouped[i].desc.interfaceNumber == n && d in EndpointDescs(grouped[i].endpoints);
    GroupedIsPart(alts, grouped[i]);
    var j :| 0 <= j < |alts| && alts[j] == grouped[i];
  }

  /** Equal lists of unshared endpoints have equal owners. */
  lemma {:induction false} SameOwners(alts: seq<AltSetting>)
    requires Unshared(alts) && EndpointsOf(Ungroup(Groups(alts, 0))) == EndpointsOf(alts)
    ensures Owners(Ungroup(Groups(alts, 0))) == Owners(alts)
  {
    var grouped := Ungroup(Groups(alts, 0));
    OwnersLength(alts);
    OwnersLength(grouped);
    forall p | 0 <= p < |Owners(alts)| ensures Owners(grouped)[p] == Owners(alts)[p] {
      OwnerDescribes(alts, p);
      OwnerDescribes(grouped, p);
      GroupedDescribes(alts, Owners(grouped)[p], EndpointsOf(grouped)[p]);
    }
  }

  lemma {:induction false} BearingOwners(alts: seq<AltSetting>)
    ensures Owners(Bearing(alts)) == Owners(alts)
  {
    if alts != [] {
      BearingOwners(alts[1..]);
      if alts[0].endpoints != [] {
        assert Bearing(alts)[1..] == Bearing(alts[1..]);
      } else {
        assert Owners(alts) == Owners(alts[1..]);
      }
    }
  }

  /** Grouping leaves the list of endpoints alone when the settings that have any never decrease and none is 255. */
  lemma {:induction false} EndpointsStay(alts: seq<AltSetting>)
    requires NonDecreasing(Bearing(alts)) && AllFrom(Bearing(alts), 0)
    ensures EndpointsOf(Ungroup(Groups(alts, 0))) == EndpointsOf(alts)
  {
    BearingHasAll(alts);
    BearingHasAll(Ungroup(Groups(alts, 0)));
    UngroupGroups(alts, 0);
    BearingConcat(alts, 0);
    ConcatSorted(Bearing(alts), 0);
  }

  /** And, if no two interfaces describe an endpoint alike, only then. */
  lemma {:induction false} SameEndpointListIff(alts: seq<AltSetting>)
    requires Unshared(alts)
    ensures EndpointsOf(Ungroup(Groups(alts, 0))) == EndpointsOf(alts) <==>
            NonDecreasing(Bearing(alts)) && AllFrom(Bearing(alts), 0)
  {
    var grouped := Ungroup(Groups(alts, 0));
    if EndpointsOf(grouped) == EndpointsOf(alts) {
      SameEndpointsIff(alts);
      SameOwners(alts);
      UngroupGroups(alts, 0);
      ConcatNonDecreasing(alts, 0);
      OwnersSorted(grouped);
      BearingOwners(alts);
      BearingHasAll(alts);
      SortedOwners(Bearing(alts));
    }
    if NonDecreasing(Bearing(alts)) && AllFrom(Bearing(alts), 0) { EndpointsStay(alts); }
  }

  lemma {:induction false} NoneAbove(alts: seq<AltSetting>, n: byte)
    requires n <= NUMBER_LIMIT && forall i :: 0 <= i < |alts| ==> alts[i].desc.interfaceNumber < n
    ensures Concat(alts, n) == []
    decreases NUMBER_LIMIT - n
  {
    if n < NUMBER_LIMIT {
      NoneNumbered(alts, n);
      NoneAbove(alts, n + 1);
    }
  }

  lemma PairNumbered(x: AltSetting, y: AltSetting)
    requires x.desc.interfaceNumber == 1 && y.desc.interfaceNumber == 0
    ensures Numbered([x, y], 0) == [y] && Numbered([x, y], 1) == [x]
  {
    assert [x, y][1..] == [y] && [y][1..] == [];
    assert Numbered([y], 0) == [y] && Numbered([y], 1) == [];
  }

  /** Two settings out of order change places. */
  lemma PairIsSwapped(x: AltSetting, y: AltSetting)
    requires x.desc.interfaceNumber == 1 && y.desc.interfaceNumber == 0
    ensures Ungroup(Groups([x, y], 0)) == [y, x]
  {
    var alts := [x, y];
    UngroupGroups(alts, 0);
    PairNumbered(x, y);
    ConcatStep(alts, 0);
    ConcatStep(alts, 1);
    NoneAbove(alts, 2);
  }

  lemma PairEndpoints(x: AltSetting, y: AltSetting)
    ensures EndpointsOf([x, y]) == EndpointDescs(x.endpoints) + EndpointDescs(y.endpoints)
  {
    assert [x, y][1..] == [y] && [y][1..] == [];
    assert EndpointsOf([y]) == EndpointDescs(y.endpoints) + EndpointsOf([]);
  }

  /** A shared endpoint can hide that its interfaces changed places. */
  lemma SharedEndpointHidesOrder(x: AltSetting, y: AltSetting)
    requires x.desc.interfaceNumber == 1 && y.desc.interfaceNumber == 0 && x.endpoints == y.endpoints != []
    ensures EndpointsOf(Ungroup(Groups([x, y], 0))) == EndpointsOf([x, y]) && !NonDecreasing(Bearing([x, y]))
  {
    PairIsSwapped(x, y);
    PairEndpoints(x, y);
    PairEndpoints(y, x);
    assert [x, y][1..] == [y] && [y][1..] == [] && Bearing([y]) == [y];
    assert Bearing([x, y]) == [x] + [y];
    var b := Bearing([x, y]);
    assert b[1].desc.interfaceNumber < b[0].desc.interfaceNumber;
  }
}
