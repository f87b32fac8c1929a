/** Every walked byte is accounted for once: the one role each chunk plays in the parsed tree. */
module ConfigAccounting {
  import opened Core
  import opened Descriptors

  /** What becomes of a chunk; settings are counted in byte order from 0. */
  datatype Role =
    | ConfigExtra          // copied whole into the configuration's Extra
    | Setting(k: nat)      // the descriptor of setting k
    | EndpointOf(k: nat)   // an endpoint of setting k
    | CompanionOf(k: nat)  // the companion of the endpoint just before it, in setting k
    | SettingExtra(k: nat) // copied whole into the Extra of setting k

  /** Where the walk is: how many settings were opened, and whether the last chunk was an endpoint of one. */
  datatype At = At(settings: nat, afterEndpoint: bool)

  function RoleOf(c: Chunk, at: At): Role {
    if c.IsInterface() then Setting(at.settings)
    else if at.settings == 0 then ConfigExtra
    else if c.IsEndpoint() then EndpointOf(at.settings - 1)
    else if at.afterEndpoint && c.IsCompanion() then CompanionOf(at.settings - 1)
    else SettingExtra(at.settings - 1)
  }

  function Then(c: Chunk, at: At): At {
    if c.IsInterface() then At(at.settings + 1, false) else At(at.settings, at.settings > 0 && c.IsEndpoint())
  }

  function Roles(cs: seq<Chunk>, at: At): (r: seq<Role>)
    ensures |r| == |cs|
  {
    if cs == [] then [] else [RoleOf(cs[0], at)] + Roles(cs[1..], Then(cs[0], at))
  }

  /**
   The chunks that play a role in setting k, and those of the configuration itself, each in order;
   units are the setting's endpoints and companions together.
   */
  datatype Parts = Parts(lead: seq<Chunk>, descs: seq<Chunk>, units: seq<Chunk>, extra: seq<Chunk>) {
    function Size(): nat { |descs| + |units| + |extra| }
  }

  const NONE := Parts([], [], [], [])

  /** p with a chunk of role r put first in its part, if it has one. */
  function Prepend(c: Chunk, r: Role, k: nat, p: Parts): Parts {
    if r == ConfigExtra then p.(lead := [c] + p.lead)
    else if r == Setting(k) then p.(descs := [c] + p.descs)
    else if r == EndpointOf(k) || r == CompanionOf(k) then p.(units := [c] + p.units)
    else if r == SettingExtra(k) then p.(extra := [c] + p.extra)
    else p
  }

  function PartsOf(cs: seq<Chunk>, at: At, k: nat): Parts {
    if cs == [] then NONE else Prepend(cs[0], RoleOf(cs[0], at), k, PartsOf(cs[1..], Then(cs[0], at), k))
  }

  /** Where the walk is after cs. */
  function After(cs: seq<Chunk>, at: At): At {
    if cs == [] then at else After(cs[1..], Then(cs[0], at))
  }

  ghost predicate NoInterface(cs: seq<Chunk>) {
    forall i :: 0 <= i < |cs| ==> !cs[i].IsInterface()
  }

  lemma {:induction false} AfterBody(cs: seq<Chunk>, at: At)
    requires NoInterface(cs)
    ensures After(cs, at).settings == at.settings
  {
    if cs != [] { AfterBody(cs[1..], Then(cs[0], at)); }
  }

  /** A companion's chunk comes right after the chunk of an endpoint of the same setting. */
  lemma {:induction false} CompanionFollowsEndpoint(cs: seq<Chunk>, at: At, i: nat, k: nat)
    requires i < |cs| && Roles(cs, at)[i] == CompanionOf(k)
    ensures if i == 0 then at.afterEndpoint && at.settings == k + 1 else Roles(cs, at)[i - 1] == EndpointOf(k)
  {
    if i > 0 {
      CompanionFollowsEndpoint(cs[1..], Then(cs[0], at), i - 1, k);
      assert Roles(cs, at)[i] == Roles(cs[1..], Then(cs[0], at))[i - 1];
    }
  }

  // ---------------------------------------------------------------- one setting's chunks

  /** Setting x is made of these parts. */
  ghost predicate Makes(p: Parts, x: AltSetting) {
    && |p.descs| == 1 && p.descs[0].AsInterface() == x.desc
    && Spelled(p.units, x.endpoints) && Flatten(p.extra) == x.extra
  }

  /** Each endpoint is spelled by its own chunk and, if it has a companion, by the companion's chunk right after it. */
  ghost predicate Spelled(units: seq<Chunk>, eps: seq<Endpoint>)
    decreases |eps|
  {
    if eps == [] then units == []
    else
      && units != [] && units[0].IsEndpoint() && units[0].AsEndpoint() == eps[0].desc && eps[0].extra == []
      && if eps[0].ssCompanion.None? then Spelled(units[1..], eps[1..])
         else
           && |units| > 1 && units[1].IsCompanion() && Some(units[1].AsCompanion()) == eps[0].ssCompanion
           && Spelled(units[2..], eps[1..])
  }

  /** The walk after an endpoint differs from the walk before it only in a companion that follows. */
  lemma {:induction false} AfterEndpoint(body: seq<Chunk>, k: nat)
    requires NoInterface(body)
    ensures PartsOf(body, At(k + 1, true), k) ==
            if body != [] && body[0].IsCompanion()
            then Prepend(body[0], CompanionOf(k), k, PartsOf(body[1..], At(k + 1, false), k))
            else PartsOf(body, At(k + 1, false), k)
  {
  }

  lemma {:induction false} BodyStep(body: seq<Chunk>, k: nat)
    requires NoInterface(body) && body != []
    ensures PartsOf(body, At(k + 1, false), k) ==
            if !body[0].IsEndpoint() then
              Prepend(body[0], SettingExtra(k), k, PartsOf(body[1..], At(k + 1, false), k))
            else if |body| > 1 && body[1].IsCompanion() then
              Prepend(body[0], EndpointOf(k), k,
                      Prepend(body[1], CompanionOf(k), k, PartsOf(body[2..], At(k + 1, false), k)))
            else Prepend(body[0], EndpointOf(k), k, PartsOf(body[1..], At(k + 1, false), k))
  {
    var at, tail := At(k + 1, false), body[1..];
    if body[0].IsEndpoint() {
      assert PartsOf(body, at, k) == Prepend(body[0], EndpointOf(k), k, PartsOf(tail, At(k + 1, true), k));
      AfterEndpoint(tail, k);
      if tail != [] { assert tail[1..] == body[2..]; }
    } else {
      assert PartsOf(body, at, k) == Prepend(body[0], SettingExtra(k), k, PartsOf(tail, at, k));
    }
  }

  lemma {:induction false} EndpointSpelled(c: Chunk, units: seq<Chunk>, eps: seq<Endpoint>)
    requires c.IsEndpoint() && Spelled(units, eps)
    ensures Spelled([c] + units, [Endpoint(c.AsEndpoint(), None, [])] + eps)
  {
    assert ([c] + units)[1..] == units && ([Endpoint(c.AsEndpoint(), None, [])] + eps)[1..] == eps;
  }

  lemma {:induction false} PairSpelled(c: Chunk, d: Chunk, units: seq<Chunk>, eps: seq<Endpoint>)
    requires c.IsEndpoint() && d.IsCompanion() && Spelled(units, eps)
    ensures Spelled([c] + ([d] + units), [Endpoint(c.AsEndpoint(), Some(d.AsCompanion()), [])] + eps)
  {
    assert ([c] + ([d] + units))[2..] == units;
    assert ([Endpoint(c.AsEndpoint(), Some(d.AsCompanion()), [])] + eps)[1..] == eps;
  }

  lemma {:induction false} BodyUnits(body: seq<Chunk>, k: nat)
    requires NoInterface(body)
    ensures Spelled(PartsOf(body, At(k + 1, false), k).units, Endpoints(body))
    decreases |body|
  {
    if body != [] {
      BodyStep(body, k);
      if body[0].IsEndpoint() && |body| > 1 && body[1].IsCompanion() {
        BodyUnits(body[2..], k);
        PairSpelled(body[0], body[1], PartsOf(body[2..], At(k + 1, false), k).units, Endpoints(body[2..]));
      } else {
        BodyUnits(body[1..], k);
        if body[0].IsEndpoint() {
          EndpointSpelled(body[0], PartsOf(body[1..], At(k + 1, false), k).units, Endpoints(body[1..]));
        }
      }
    }
  }

  lemma {:induction false} BodyExtra(body: seq<Chunk>, k: nat)
    requires NoInterface(body)
    ensures Flatten(PartsOf(body, At(k + 1, false), k).extra) == Leftover(body)
    decreases |body|
  {
    if body != [] {
      BodyStep(body, k);
      if body[0].IsEndpoint() && |body| > 1 && body[1].IsCompanion() {
        BodyExtra(body[2..], k);
      } else {
        BodyExtra(body[1..], k);
      }
    }
  }

  /** The chunks of a setting's body are of no other kind. */
  lemma {:induction false} BodyHasNoDesc(body: seq<Chunk>, at: At, k: nat)
    requires NoInterface(body) && at.settings > 0
    ensures PartsOf(body, at, k).descs == [] && PartsOf(body, at, k).lead == []
  {
    if body != [] { BodyHasNoDesc(body[1..], Then(body[0], at), k); }
  }

  // ---------------------------------------------------------------- the chunks around it

  /** The body of another setting plays no part in setting k. */
  lemma {:induction false} SkipBody(body: seq<Chunk>, rest: seq<Chunk>, at: At, k: nat)
    requires NoInterface(body) && at.settings > 0 && at.settings != k + 1
    ensures PartsOf(body + rest, at, k) == PartsOf(rest, After(body, at), k)
  {
    if body == [] {
      assert body + rest == rest;
    } else {
      assert (body + rest)[1..] == body[1..] + rest;
      SkipBody(body[1..], rest, Then(body[0], at), k);
    }
  }

  /** Chunks after the next setting was opened play no part in setting k. */
  lemma {:induction false} NoLaterParts(cs: seq<Chunk>, at: At, k: nat)
    requires at.settings > k + 1 || (at.settings == k + 1 && (cs == [] || cs[0].IsInterface()))
    ensures PartsOf(cs, at, k) == NONE
  {
    if cs != [] { NoLaterParts(cs[1..], Then(cs[0], at), k); }
  }

  lemma {:induction false} BodyAlone(body: seq<Chunk>, rest: seq<Chunk>, at: At, k: nat)
    requires NoInterface(body) && at.settings == k + 1 && (rest == [] || rest[0].IsInterface())
    ensures PartsOf(body + rest, at, k) == PartsOf(body, at, k)
  {
    if body == [] {
      assert body + rest == rest;
      NoLaterParts(rest, at, k);
    } else {
      assert (body + rest)[1..] == body[1..] + rest;
      BodyAlone(body[1..], rest, Then(body[0], at), k);
    }
  }

  // ---------------------------------------------------------------- all settings

  /** cs is a descriptor, the chunks it owns, and what follows. */
  ghost predicate Split(cs: seq<Chunk>, body: seq<Chunk>, rest: seq<Chunk>) {
    && cs != [] && cs[0].IsInterface() && NoInterface(body)
    && cs[1..] == body + rest && (rest == [] || rest[0].IsInterface())
  }

  lemma SplitOff(cs: seq<Chunk>) returns (body: seq<Chunk>, rest: seq<Chunk>)
    requires cs != [] && cs[0].IsInterface()
    ensures Split(cs, body, rest) && |rest| < |cs|
    ensures body == cs[1..][..Lead(cs[1..])] && rest == cs[1..][Lead(cs[1..])..]
    ensures AltSettings(cs) == [AltSetting(cs[0].AsInterface(), Endpoints(body), Leftover(body))] + AltSettings(rest)
  {
    var n := Lead(cs[1..]);
    body, rest := cs[1..n + 1], cs[n + 1..];
    assert cs[1..][..n] == body && cs[1..][n..] == rest;
    assert cs[1..] == body + rest;
  }

  lemma {:induction false} FirstSetting(cs: seq<Chunk>, body: seq<Chunk>, rest: seq<Chunk>, at: At)
    requires Split(cs, body, rest)
    ensures InPlace(cs, at, 0, AltSetting(cs[0].AsInterface(), Endpoints(body), Leftover(body)))
  {
    var next := At(at.settings + 1, false);
    BodyAlone(body, rest, next, at.settings);
    BodyUnits(body, at.settings);
    BodyExtra(body, at.settings);
    BodyHasNoDesc(body, next, at.settings);
    assert PartsOf(cs, at, at.settings)
        == Prepend(cs[0], Setting(at.settings), at.settings, PartsOf(body, next, at.settings));
  }

  lemma LaterSetting(cs: seq<Chunk>, body: seq<Chunk>, rest: seq<Chunk>, at: At, k: nat)
    requires Split(cs, body, rest) && k > at.settings
    ensures PartsOf(cs, at, k) == PartsOf(rest, After(body, At(at.settings + 1, false)), k)
  {
    SkipBody(body, rest, At(at.settings + 1, false), k);
  }

  /** Setting i after at is in place. */
  ghost predicate InPlace(cs: seq<Chunk>, at: At, i: nat, x: AltSetting) {
    var p := PartsOf(cs, at, at.settings + i);
    Makes(p, x) && p.lead == []
  }

  lemma {:induction false} LaterInPlace(cs: seq<Chunk>, body: seq<Chunk>, rest: seq<Chunk>, at: At, next: At, i: nat,
                                        x: AltSetting)
    requires Split(cs, body, rest) && next == After(body, At(at.settings + 1, false))
    requires i > 0 && next.settings == at.settings + 1 && InPlace(rest, next, i - 1, x)
    ensures InPlace(cs, at, i, x)
  {
    LaterSetting(cs, body, rest, at, at.settings + i);
  }

  lemma {:induction false} SettingsInPlace(cs: seq<Chunk>, at: At, alts: seq<AltSetting>, i: nat)
    requires (cs == [] || cs[0].IsInterface()) && alts == AltSettings(cs) && i < |alts|
    ensures InPlace(cs, at, i, alts[i])
    decreases |cs|
  {
    var body, rest := SplitOff(cs);
    if i == 0 {
      FirstSetting(cs, body, rest, at);
    } else {
      var next := After(body, At(at.settings + 1, false));
      AfterBody(body, At(at.settings + 1, false));
      assert alts[1..] == AltSettings(rest) && alts[1..][i - 1] == alts[i];
      SettingsInPlace(rest, next, alts[1..], i - 1);
      LaterInPlace(cs, body, rest, at, next, i, alts[i]);
    }
  }

  // ---------------------------------------------------------------- the whole configuration

  const BEGIN := At(0, false)

  lemma {:induction false} LeadParts(pre: seq<Chunk>, rest: seq<Chunk>, k: nat)
    requires NoInterface(pre)
    ensures var p := PartsOf(rest, BEGIN, k); PartsOf(pre + rest, BEGIN, k) == p.(lead := pre + p.lead)
  {
    if pre == [] {
      assert pre + rest == rest;
    } else {
      assert (pre + rest)[1..] == pre[1..] + rest;
      LeadParts(pre[1..], rest, k);
    }
  }

  /** Once a setting was opened nothing belongs to the configuration itself. */
  lemma {:induction false} NoLeadAfterSetting(cs: seq<Chunk>, at: At, k: nat)
    requires at.settings > 0
    ensures PartsOf(cs, at, k).lead == []
  {
    if cs != [] { NoLeadAfterSetting(cs[1..], Then(cs[0], at), k); }
  }

  /** Where the walk from pos ends. */
  function WalkEnd(data: seq<byte>, pos: nat): (e: nat)
    requires pos <= |data|
    ensures pos <= e <= |data|
    decreases |data| - pos
  {
    if pos + 2 > |data| || data[pos] == 0 || pos + data[pos] > |data| then pos
    else WalkEnd(data, pos + data[pos])
  }

  lemma {:induction false} ChunksCover(data: seq<byte>, pos: nat)
    requires pos <= |data|
    ensures Flatten(Chunks(data, pos)) == data[pos..WalkEnd(data, pos)]
    decreases |data| - pos
  {
    if !(pos + 2 > |data| || data[pos] == 0 || pos + data[pos] > |data|) {
      var next := pos + data[pos];
      ChunksCover(data, next);
      assert data[pos..next] + data[next..WalkEnd(data, next)] == data[pos..WalkEnd(data, pos)];
    }
  }

  lemma {:induction false} BodyFollowsPreamble(data: seq<byte>)
    ensures Chunks(data, CONFIG_SIZE) == Preamble(data) + Body(data) && NoInterface(Preamble(data))
    ensures Body(data) == [] || Body(data)[0].IsInterface()
  {
  }

  lemma {:induction false} LeadIsPreamble(pre: seq<Chunk>, body: seq<Chunk>, k: nat)
    requires NoInterface(pre) && (body == [] || body[0].IsInterface())
    ensures PartsOf(pre + body, BEGIN, k) == PartsOf(body, BEGIN, k).(lead := pre)
  {
    LeadParts(pre, body, k);
    if body != [] { NoLeadAfterSetting(body[1..], Then(body[0], BEGIN), k); }
  }

  /** What the chunks give to the configuration. */
  lemma {:induction false} LeadInPlace(pre: seq<Chunk>, body: seq<Chunk>, k: nat)
    requires NoInterface(pre) && (body == [] || body[0].IsInterface())
    ensures PartsOf(pre + body, BEGIN, k).lead == pre
  {
    LeadIsPreamble(pre, body, k);
  }

  /** What they give to setting k. */
  lemma {:induction false} PartsInPlace(pre: seq<Chunk>, body: seq<Chunk>, alts: seq<AltSetting>, k: nat)
    requires NoInterface(pre) && body != [] && body[0].IsInterface() && alts == AltSettings(body) && k < |alts|
    ensures Makes(PartsOf(pre + body, BEGIN, k), alts[k])
  {
    LeadIsPreamble(pre, body, k);
    SettingsInPlace(body, BEGIN, alts, k);
    LeadIsNoPart(PartsOf(body, BEGIN, k), pre, alts[k]);
  }

  lemma LeadIsNoPart(p: Parts, pre: seq<Chunk>, x: AltSetting)
    requires Makes(p, x)
    ensures Makes(p.(lead := pre), x)
  {
  }

  /** What the first endpoint is spelled by depends on the units alone. */
  lemma {:induction false} FirstSpelled(units: seq<Chunk>, eps: seq<Endpoint>)
    requires Spelled(units, eps)
    ensures eps == [] <==> units == []
    ensures eps != [] ==> (eps[0].ssCompanion.Some? <==> |units| > 1 && units[1].IsCompanion())
  {
  }

  lemma {:induction false} SpelledOnce(units: seq<Chunk>, a: seq<Endpoint>, b: seq<Endpoint>)
    requires Spelled(units, a) && Spelled(units, b)
    ensures a == b
    decreases |a|
  {
    FirstSpelled(units, a);
    FirstSpelled(units, b);
    if a != [] {
      SpelledOnce(units[if a[0].ssCompanion.Some? then 2 else 1..], a[1..], b[1..]);
      assert a == [a[0]] + a[1..] && b == [b[0]] + b[1..];
    }
  }

  /** The parts fix the setting, down to which endpoint holds which companion. */
  lemma PartsFixSetting(p: Parts, x: AltSetting, y: AltSetting)
    requires Makes(p, x) && Makes(p, y)
    ensures x == y
  {
    SpelledOnce(p.units, x.endpoints, y.endpoints);
  }

  // ---------------------------------------------------------------- nothing is lost

  /** The setting a role names, if any. */
  predicate Names(r: Role, n: nat) {
    match r
    case ConfigExtra => true
    case Setting(k) => k < n
    case EndpointOf(k) => k < n
    case CompanionOf(k) => k < n
    case SettingExtra(k) => k < n
  }

  lemma {:induction false} SettingsOnlyGrow(cs: seq<Chunk>, at: At)
    ensures After(cs, at).settings >= at.settings
  {
    if cs != [] { SettingsOnlyGrow(cs[1..], Then(cs[0], at)); }
  }

  /** No role names a setting that was never opened. */
  lemma {:induction false} RolesNameSettings(cs: seq<Chunk>, at: At, i: nat)
    requires i < |cs|
    ensures Names(Roles(cs, at)[i], After(cs, at).settings)
  {
    SettingsOnlyGrow(cs[1..], Then(cs[0], at));
    if i > 0 {
      RolesNameSettings(cs[1..], Then(cs[0], at), i - 1);
      assert Roles(cs, at)[i] == Roles(cs[1..], Then(cs[0], at))[i - 1];
    }
  }

  lemma {:induction false} AfterAppend(a: seq<Chunk>, b: seq<Chunk>, at: At)
    ensures After(a + b, at) == After(b, After(a, at))
  {
    if a == [] {
      assert a + b == b;
    } else {
      assert (a + b)[1..] == a[1..] + b;
      AfterAppend(a[1..], b, Then(a[0], at));
    }
  }

  lemma {:induction false} SettingsCounted(cs: seq<Chunk>, at: At)
    requires cs == [] || cs[0].IsInterface()
    ensures After(cs, at).settings == at.settings + |AltSettings(cs)|
    decreases |cs|
  {
    if cs != [] {
      var next := At(at.settings + 1, false);
      var body, rest := SplitOff(cs);
      AfterAppend(body, rest, next);
      AfterBody(body, next);
      SettingsCounted(rest, After(body, next));
    }
  }

  lemma {:induction false} LeadOpensNothing(pre: seq<Chunk>)
    requires NoInterface(pre)
    ensures After(pre, BEGIN) == BEGIN
  {
    if pre != [] { LeadOpensNothing(pre[1..]); }
  }

  /** How many chunks the first n settings are made of. */
  function Used(cs: seq<Chunk>, at: At, n: nat): nat {
    if n == 0 then 0 else Used(cs, at, n - 1) + PartsOf(cs, at, n - 1).Size()
  }

  lemma {:induction false} UsedCons(cs: seq<Chunk>, at: At, n: nat)
    requires cs != []
    ensures var r, rest := RoleOf(cs[0], at), Used(cs[1..], Then(cs[0], at), n);
      Used(cs, at, n) == if r != ConfigExtra && Names(r, n) then rest + 1 else rest
    decreases n
  {
    if n > 0 { UsedCons(cs, at, n - 1); }
  }

  lemma {:induction false} UsedNone(at: At, n: nat)
    ensures Used([], at, n) == 0
  {
    if n > 0 { UsedNone(at, n - 1); }
  }

  /** Every chunk belongs to the configuration or to exactly one of the n settings opened. */
  lemma {:induction false} AllChunksUsed(cs: seq<Chunk>, at: At, n: nat)
    requires After(cs, at).settings <= n
    ensures |PartsOf(cs, at, 0).lead| + Used(cs, at, n) == |cs|
  {
    if cs == [] {
      UsedNone(at, n);
    } else {
      SettingsOnlyGrow(cs[1..], Then(cs[0], at));
      AllChunksUsed(cs[1..], Then(cs[0], at), n);
      UsedCons(cs, at, n);
    }
  }

  /** Every role names an existing setting, and the parts together have as many chunks as were walked. */
  lemma {:induction false} NoChunkIsLost(data: seq<byte>)
    ensures var cs, n := Chunks(data, CONFIG_SIZE), |AltSettings(Body(data))|;
      && (forall i :: 0 <= i < |cs| ==> Names(Roles(cs, BEGIN)[i], n))
      && |PartsOf(cs, BEGIN, 0).lead| + Used(cs, BEGIN, n) == |cs|
  {
    var cs, n := Chunks(data, CONFIG_SIZE), |AltSettings(Body(data))|;
    BodyFollowsPreamble(data);
    LeadOpensNothing(Preamble(data));
    AfterAppend(Preamble(data), Body(data), BEGIN);
    SettingsCounted(Body(data), BEGIN);
    AllChunksUsed(cs, BEGIN, n);
    forall i | 0 <= i < |cs| ensures Names(Roles(cs, BEGIN)[i], n) { RolesNameSettings(cs, BEGIN, i); }
  }

  /**
   On success every walked byte after the header belongs to one chunk, every chunk has one role, the
   configuration's Extra is made of the chunks with that role, whole and in order, each setting in
   byte order is made of exactly the chunks whose roles name it, and no chunk is left out.
   */
  lemma {:induction false} EveryChunkHasItsPlace(data: seq<byte>, k: nat)
    requires Parse(data).Success?
    ensures var cs, alts := Chunks(data, CONFIG_SIZE), AltSettings(Body(data));
      && Flatten(cs) == data[CONFIG_SIZE..WalkEnd(data, CONFIG_SIZE)]
      && Parse(data).value.extra == Flatten(PartsOf(cs, BEGIN, k).lead)
      && Parse(data).value.interfaces == Groups(alts, 0)
      && (k < |alts| ==> Makes(PartsOf(cs, BEGIN, k), alts[k]))
      && (forall i :: 0 <= i < |cs| ==> Names(Roles(cs, BEGIN)[i], |alts|))
      && |PartsOf(cs, BEGIN, 0).lead| + Used(cs, BEGIN, |alts|) == |cs|
  {
    ChunksCover(data, CONFIG_SIZE);
    BodyFollowsPreamble(data);
    LeadInPlace(Preamble(data), Body(data), k);
    if k < |AltSettings(Body(data))| { PartsInPlace(Preamble(data), Body(data), AltSettings(Body(data)), k); }
    NoChunkIsLost(data);
  }
}
