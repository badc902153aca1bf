/** Composing domain profiles (src/fl_op/contracts/profile.py, composed_with, and
    src/fl_op/contracts/registry.py, composite_profile). */
module Profile {
  import opened Ordering
  import opened KeyedUnion

  type Id = string
  /** Settings no composition looks into. */
  type Settings = map<string, string>

  datatype Mode = Mode(id: Id, adapter: string)

  function ModeId(m: Mode): Id { m.id }

  datatype Monitoring = Monitoring(scalars: Settings, typeOverrides: map<Id, Settings>, assetOverrides: map<Id, Settings>) {
    function ComposedWith(other: Monitoring): Monitoring {
      this.(typeOverrides := other.typeOverrides + typeOverrides,
            assetOverrides := other.assetOverrides + assetOverrides)
    }
  }

  datatype Weather = Weather(maxWind: real, maxRain: real, maxSoilMoisture: real,
                             sensitivity: map<Id, seq<string>>, requireForecastCoverage: bool)
  {
    function ComposedWith(other: Weather): Weather {
      Weather(Min(maxWind, other.maxWind), Min(maxRain, other.maxRain), Min(maxSoilMoisture, other.maxSoilMoisture),
              other.sensitivity + sensitivity, requireForecastCoverage || other.requireForecastCoverage)
    }
  }

  function Min(a: real, b: real): real { if b < a then b else a }

  /** identity holds what only the primary profile supplies: metadata, objectives, planning
      defaults and allocation policy. */
  datatype Profile = Profile(identity: Settings, inputContracts: seq<Id>, outputContracts: seq<Id>,
                             planningModes: seq<Mode>, constraints: seq<Constraint>, monitoring: Monitoring,
                             weather: Weather, materialDemand: map<Id, Settings>)
  {
    function ComposedWith(other: Profile): Profile {
      this.(inputContracts := Union(Same, inputContracts, other.inputContracts),
            outputContracts := Union(Same, outputContracts, other.outputContracts),
            planningModes := Union(ModeId, planningModes, other.planningModes),
            constraints := Settle(constraints + other.constraints),
            monitoring := monitoring.ComposedWith(other.monitoring),
            weather := weather.ComposedWith(other.weather),
            materialDemand := other.materialDemand + materialDemand)
    }
  }

  ghost predicate LayeredOn<V>(top: map<Id, V>, below: map<Id, V>, r: map<Id, V>) {
    && (forall key :: key in r <==> key in top || key in below)
    && (forall key :: key in r ==> r[key] == if key in top then top[key] else below[key])
  }

  ghost predicate Lower(a: real, b: real, r: real) { r <= a && r <= b && (r == a || r == b) }

  /** Each id of either list once, a's in front, with the entry that settles it. */
  ghost predicate MergedConstraints(a: seq<Constraint>, b: seq<Constraint>, r: seq<Constraint>) {
    && IsUnion(Same, [], Ids(a + b), Ids(r)) && forall i :: 0 <= i < |r| ==> Settles(a + b, r[i])
  }

  /** r is other layered under primary, section by section. */
  ghost predicate IsComposite(primary: Profile, other: Profile, r: Profile) {
    && r.identity == primary.identity
    && IsUnion(Same, primary.inputContracts, other.inputContracts, r.inputContracts)
    && IsUnion(Same, primary.outputContracts, other.outputContracts, r.outputContracts)
    && IsUnion(ModeId, primary.planningModes, other.planningModes, r.planningModes)
    && MergedConstraints(primary.constraints, other.constraints, r.constraints)
    && r.monitoring.scalars == primary.monitoring.scalars
    && LayeredOn(primary.monitoring.typeOverrides, other.monitoring.typeOverrides, r.monitoring.typeOverrides)
    && LayeredOn(primary.monitoring.assetOverrides, other.monitoring.assetOverrides, r.monitoring.assetOverrides)
    && Lower(primary.weather.maxWind, other.weather.maxWind, r.weather.maxWind)
    && Lower(primary.weather.maxRain, other.weather.maxRain, r.weather.maxRain)
    && Lower(primary.weather.maxSoilMoisture, other.weather.maxSoilMoisture, r.weather.maxSoilMoisture)
    && LayeredOn(primary.weather.sensitivity, other.weather.sensitivity, r.weather.sensitivity)
    && (r.weather.requireForecastCoverage <==>
          primary.weather.requireForecastCoverage || other.weather.requireForecastCoverage)
    && LayeredOn(primary.materialDemand, other.materialDemand, r.materialDemand)
  }

  lemma ComposedIsComposite(a: Profile, b: Profile)
    ensures IsComposite(a, b, a.ComposedWith(b))
  {
    hide Union, Settle, IsUnion, Settles;
    UnionIs(Same, a.inputContracts, b.inputContracts);
    UnionIs(Same, a.outputContracts, b.outputContracts);
    UnionIs(ModeId, a.planningModes, b.planningModes);
    ConstraintsMerge(a.constraints, b.constraints);
  }

  lemma ConstraintsMerge(a: seq<Constraint>, b: seq<Constraint>)
    ensures MergedConstraints(a, b, Settle(a + b))
  {
    hide Union, IsUnion, Settles, Winner;
    var s, r := a + b, Settle(a + b);
    UnionIs(Same, [], Ids(s));
    forall i | 0 <= i < |r| ensures Settles(s, r[i]) { WinnerSettles(s, r[i].id); }
  }

  /** The imperative composition: its list sections are built by the loops. */
  method Compose(primary: Profile, other: Profile) returns (r: Profile)
    ensures r == primary.ComposedWith(other) && IsComposite(primary, other, r)
  {
    hide IsComposite, IsUnion;
    ComposedIsComposite(primary, other);
    var inputs := UnionPreservingOrder(Same, primary.inputContracts, other.inputContracts);
    var outputs := UnionPreservingOrder(Same, primary.outputContracts, other.outputContracts);
    var modes := UnionPreservingOrder(ModeId, primary.planningModes, other.planningModes);
    var constraints := MergeConstraints(primary.constraints, other.constraints);
    r := primary.(inputContracts := inputs, outputContracts := outputs, planningModes := modes,
                  constraints := constraints, monitoring := primary.monitoring.ComposedWith(other.monitoring),
                  weather := primary.weather.ComposedWith(other.weather),
                  materialDemand := other.materialDemand + primary.materialDemand);
  }

  // ---- Associativity --------------------------------------------------------------------------------

  lemma ComposeAssociative(a: Profile, b: Profile, c: Profile)
    ensures a.ComposedWith(b).ComposedWith(c) == a.ComposedWith(b.ComposedWith(c))
  {
    hide Union, Settle, Settled, Monitoring.ComposedWith, Weather.ComposedWith;
    UnionAssociative(Same, a.inputContracts, b.inputContracts, c.inputContracts);
    UnionAssociative(Same, a.outputContracts, b.outputContracts, c.outputContracts);
    UnionAssociative(ModeId, a.planningModes, b.planningModes, c.planningModes);
    MergeAssociative(a.constraints, b.constraints, c.constraints);
    MonitoringAssociative(a.monitoring, b.monitoring, c.monitoring);
    WeatherAssociative(a.weather, b.weather, c.weather);
    LayersAssociative(a.materialDemand, b.materialDemand, c.materialDemand);
  }

  lemma LayersAssociative<V>(a: map<Id, V>, b: map<Id, V>, c: map<Id, V>)
    ensures c + (b + a) == (c + b) + a
  {
  }

  lemma MonitoringAssociative(a: Monitoring, b: Monitoring, c: Monitoring)
    ensures a.ComposedWith(b).ComposedWith(c) == a.ComposedWith(b.ComposedWith(c))
  {
    LayersAssociative(a.typeOverrides, b.typeOverrides, c.typeOverrides);
    LayersAssociative(a.assetOverrides, b.assetOverrides, c.assetOverrides);
  }

  lemma WeatherAssociative(a: Weather, b: Weather, c: Weather)
    ensures a.ComposedWith(b).ComposedWith(c) == a.ComposedWith(b.ComposedWith(c))
  {
    LayersAssociative(a.sensitivity, b.sensitivity, c.sensitivity);
  }

  /** A way to bracket a composition. */
  datatype Bracketing = Leaf(profile: Profile) | Node(left: Bracketing, right: Bracketing)

  function Leaves(t: Bracketing): (r: seq<Profile>)
    ensures r != []
  {
    match t
    case Leaf(p) => [p]
    case Node(l, r) => Leaves(l) + Leaves(r)
  }

  function Evaluate(t: Bracketing): Profile {
    match t
    case Leaf(p) => p
    case Node(l, r) => Evaluate(l).ComposedWith(Evaluate(r))
  }

  /** composed_with folded from the left. */
  function Fold(profiles: seq<Profile>): Profile
    requires profiles != []
  {
    if |profiles| == 1 then profiles[0]
    else Fold(profiles[..|profiles| - 1]).ComposedWith(profiles[|profiles| - 1])
  }

  lemma {:induction false} FoldJoin(a: seq<Profile>, b: seq<Profile>)
    requires a != [] && b != []
    ensures Fold(a + b) == Fold(a).ComposedWith(Fold(b))
  {
    hide Profile.ComposedWith;
    assert (a + b)[..|a + b| - 1] == a + b[..|b| - 1];
    if |b| == 1 {
      assert a + b[..0] == a;
    } else {
      FoldJoin(a, b[..|b| - 1]);
      ComposeAssociative(Fold(a), Fold(b[..|b| - 1]), b[|b| - 1]);
    }
  }

  /** However the fold is bracketed, the composite is the same. */
  lemma {:induction false} BracketingIrrelevant(t: Bracketing)
    ensures Evaluate(t) == Fold(Leaves(t))
  {
    hide Profile.ComposedWith;
    match t
    case Leaf(p) =>
    case Node(l, r) =>
      BracketingIrrelevant(l);
      BracketingIrrelevant(r);
      FoldJoin(Leaves(l), Leaves(r));
  }

  // ---- What a composite enforces ----------------------------------------------------------------------

  ghost predicate Enforces(p: Profile, id: Id) {
    exists c :: c in p.constraints && c.id == id && c.enforced
  }

  /** The hard constraints of both, whatever the other says about their ids. */
  lemma ComposeEnforces(a: Profile, b: Profile, id: Id)
    ensures Enforces(a.ComposedWith(b), id) <==> Enforces(a, id) || Enforces(b, id)
  {
    hide Union, HasKey, Winner, Settle;
    var s := a.constraints + b.constraints;
    var r := Settle(s);
    WinnerIs(s, id);
    WinnerIs(r, id);
    SettledWinner(r, s, id);
    assert forall c :: c in s <==> c in a.constraints || c in b.constraints;
    assert (exists c :: c in s && c.id == id && c.enforced) <==> Enforces(a, id) || Enforces(b, id);
    NoWinnerNoneEnforced(s, id);
    NoWinnerNoneEnforced(r, id);
  }

  lemma NoWinnerNoneEnforced(s: seq<Constraint>, id: Id)
    ensures Winner(s, id) == [] ==> !(exists c :: c in s && c.id == id && c.enforced)
  {
    hide Winner;
    WinnerIs(s, id);
    if c :| c in s && c.id == id && c.enforced {
      var i :| 0 <= i < |s| && s[i] == c;
      assert IdOf(s[i]) == id;
    }
  }

  /** A composite of any number of profiles enforces exactly what its members enforce. */
  lemma {:induction false} FoldEnforces(profiles: seq<Profile>, id: Id)
    requires profiles != []
    ensures Enforces(Fold(profiles), id) <==> exists k :: 0 <= k < |profiles| && Enforces(profiles[k], id)
  {
    hide Enforces, Profile.ComposedWith;
    if |profiles| > 1 {
      var front := profiles[..|profiles| - 1];
      FoldEnforces(front, id);
      ComposeEnforces(Fold(front), profiles[|profiles| - 1], id);
      assert forall k :: 0 <= k < |front| ==> front[k] == profiles[k];
      if k :| 0 <= k < |front| && Enforces(front[k], id) { assert Enforces(profiles[k], id); }
      if k :| 0 <= k < |profiles| && Enforces(profiles[k], id) { assert k < |front| ==> Enforces(front[k], id); }
    }
  }

  ghost predicate LimitsAre(w: Weather, profiles: seq<Profile>) {
    && (forall p :: p in profiles ==>
          w.maxWind <= p.weather.maxWind && w.maxRain <= p.weather.maxRain
          && w.maxSoilMoisture <= p.weather.maxSoilMoisture)
    && (exists p :: p in profiles && p.weather.maxWind == w.maxWind)
    && (exists p :: p in profiles && p.weather.maxRain == w.maxRain)
    && (exists p :: p in profiles && p.weather.maxSoilMoisture == w.maxSoilMoisture)
    && (w.requireForecastCoverage <==> exists p :: p in profiles && p.weather.requireForecastCoverage)
  }

  /** Every weather limit is the minimum over the members; coverage is required if one requires it. */
  lemma {:induction false} FoldLimits(profiles: seq<Profile>)
    requires profiles != []
    ensures LimitsAre(Fold(profiles).weather, profiles)
  {
    if |profiles| > 1 {
      var front, last := profiles[..|profiles| - 1], profiles[|profiles| - 1];
      FoldLimits(front);
      assert profiles == front + [last];
      LimitsNext(Fold(front).weather, front, last);
    } else {
      assert profiles[0] in profiles;
    }
  }

  lemma LimitsNext(w: Weather, front: seq<Profile>, last: Profile)
    requires LimitsAre(w, front)
    ensures LimitsAre(w.ComposedWith(last.weather), front + [last])
  {
    var all, r := front + [last], w.ComposedWith(last.weather);
    assert last in all && forall p :: p in front ==> p in all;
    var a :| a in front && a.weather.maxWind == w.maxWind;
    var b :| b in front && b.weather.maxRain == w.maxRain;
    var c :| c in front && c.weather.maxSoilMoisture == w.maxSoilMoisture;
    assert a in all && b in all && c in all;
  }

  /** One map-valued section of the members, layered so that an earlier member is on top. */
  function Layered<V>(section: Profile -> map<Id, V>, profiles: seq<Profile>): map<Id, V>
    requires profiles != []
  {
    if |profiles| == 1 then section(profiles[0])
    else section(profiles[|profiles| - 1]) + Layered(section, profiles[..|profiles| - 1])
  }

  /** The first member that says anything about a key decides it. */
  lemma {:induction false} FirstWins<V>(section: Profile -> map<Id, V>, profiles: seq<Profile>, key: Id)
    requires profiles != []
    ensures key in Layered(section, profiles) <==> exists k :: 0 <= k < |profiles| && key in section(profiles[k])
    ensures forall k :: 0 <= k < |profiles| && key in section(profiles[k])
                        && (forall j :: 0 <= j < k ==> key !in section(profiles[j])) ==>
                          Layered(section, profiles)[key] == section(profiles[k])[key]
  {
    if |profiles| > 1 {
      var n := |profiles| - 1;
      var front := profiles[..n];
      FirstWins(section, front, key);
      assert forall j :: 0 <= j < n ==> front[j] == profiles[j];
      if key in Layered(section, front) {
        var k :| 0 <= k < n && key in section(front[k]);
        assert key in section(profiles[k]);
      }
    }
  }

  function MaterialDemand(p: Profile): map<Id, Settings> { p.materialDemand }
  function TypeOverrides(p: Profile): map<Id, Settings> { p.monitoring.typeOverrides }
  function AssetOverrides(p: Profile): map<Id, Settings> { p.monitoring.assetOverrides }
  function Sensitivity(p: Profile): map<Id, seq<string>> { p.weather.sensitivity }

  /** Scalars come from the first member; every map section is layered. */
  lemma {:induction false} FoldSections(profiles: seq<Profile>)
    requires profiles != []
    ensures var f := Fold(profiles);
            && f.identity == profiles[0].identity && f.monitoring.scalars == profiles[0].monitoring.scalars
            && f.materialDemand == Layered(MaterialDemand, profiles)
            && f.monitoring.typeOverrides == Layered(TypeOverrides, profiles)
            && f.monitoring.assetOverrides == Layered(AssetOverrides, profiles)
            && f.weather.sensitivity == Layered(Sensitivity, profiles)
  {
    hide Union, Settle, Settled;
    if |profiles| > 1 { FoldSections(profiles[..|profiles| - 1]); }
  }

  // ---- composite_profile ------------------------------------------------------------------------------

  /** The profile ids the domains declare, in domain order, each once. "" declares none. */
  function ProfileIds(domains: seq<Id>, declared: map<Id, Id>): seq<Id> {
    if domains == [] then []
    else
      var before := ProfileIds(domains[..|domains| - 1], declared);
      var last := domains[|domains| - 1];
      if last in declared && declared[last] != "" && declared[last] !in before then before + [declared[last]] else before
  }

  predicate Declares(declared: map<Id, Id>, domain: Id, id: Id) {
    id != "" && domain in declared && declared[domain] == id
  }

  /** Going through the domains, a is declared before b is. */
  ghost predicate DeclaredBefore(domains: seq<Id>, declared: map<Id, Id>, a: Id, b: Id) {
    exists p :: 0 <= p < |domains| && Declares(declared, domains[p], a)
                && forall q :: 0 <= q <= p ==> !Declares(declared, domains[q], b)
  }

  ghost predicate DeclaredBy(domains: seq<Id>, declared: map<Id, Id>, id: Id) {
    exists p :: 0 <= p < |domains| && Declares(declared, domains[p], id)
  }

  /** ids are exactly the declared ones, each once, in the order of their first declaration. */
  ghost predicate InDomainOrder(ids: seq<Id>, domains: seq<Id>, declared: map<Id, Id>) {
    && Distinct(ids) && (forall id :: id in ids <==> DeclaredBy(domains, declared, id))
    && (forall i, j :: 0 <= i < j < |ids| ==> DeclaredBefore(domains, declared, ids[i], ids[j]))
  }

  lemma {:induction false} ProfileIdsInDomainOrder(domains: seq<Id>, declared: map<Id, Id>)
    ensures InDomainOrder(ProfileIds(domains, declared), domains, declared)
  {
    if domains != [] {
      var n := |domains| - 1;
      var front, before := domains[..n], ProfileIds(domains[..n], declared);
      ProfileIdsInDomainOrder(front, declared);
      forall id ensures DeclaredBy(domains, declared, id) <==>
                        DeclaredBy(front, declared, id) || Declares(declared, domains[n], id)
      {
        DeclaredNext(domains, declared, id);
      }
      hide DeclaredBy;
      var ids := ProfileIds(domains, declared);
      forall i, j | 0 <= i < j < |ids| ensures DeclaredBefore(domains, declared, ids[i], ids[j]) {
        if j < |before| {
          assert DeclaredBefore(front, declared, ids[i], ids[j]);
          BeforeNext(domains, declared, ids[i], ids[j]);
        } else {
          assert before[i] in before;
          NewIsLast(domains, declared, ids[i], ids[j]);
        }
      }
    }
  }

  lemma DeclaredNext(domains: seq<Id>, declared: map<Id, Id>, id: Id)
    requires domains != []
    ensures var n := |domains| - 1;
            DeclaredBy(domains, declared, id) <==>
            DeclaredBy(domains[..n], declared, id) || Declares(declared, domains[n], id)
  {
    var n := |domains| - 1;
    assert domains == domains[..n] + [domains[n]];
    if p :| 0 <= p < n && Declares(declared, domains[..n][p], id) { assert domains[p] == domains[..n][p]; }
    if p :| 0 <= p < |domains| && Declares(declared, domains[p], id) { assert p < n ==> domains[..n][p] == domains[p]; }
  }

  lemma BeforeNext(domains: seq<Id>, declared: map<Id, Id>, a: Id, b: Id)
    requires domains != [] && DeclaredBefore(domains[..|domains| - 1], declared, a, b)
    ensures DeclaredBefore(domains, declared, a, b)
  {
    var front := domains[..|domains| - 1];
    var p :| 0 <= p < |front| && Declares(declared, front[p], a)
             && forall q :: 0 <= q <= p ==> !Declares(declared, front[q], b);
    assert Declares(declared, domains[p], a);
    forall q | 0 <= q <= p ensures !Declares(declared, domains[q], b) { assert domains[q] == front[q]; }
  }

  lemma NewIsLast(domains: seq<Id>, declared: map<Id, Id>, a: Id, b: Id)
    requires domains != [] && DeclaredBy(domains[..|domains| - 1], declared, a)
    requires !DeclaredBy(domains[..|domains| - 1], declared, b)
    ensures DeclaredBefore(domains, declared, a, b)
  {
    var front := domains[..|domains| - 1];
    var p :| 0 <= p < |front| && Declares(declared, front[p], a);
    assert Declares(declared, domains[p], a);
    forall q | 0 <= q <= p ensures !Declares(declared, domains[q], b) {
      assert domains[q] == front[q];
    }
  }

  /** Which leaves one list only. */
  lemma {:induction false} DomainOrderUnique(a: seq<Id>, b: seq<Id>, domains: seq<Id>, declared: map<Id, Id>)
    requires Distinct(a) && Distinct(b) && forall id :: id in a <==> id in b
    requires forall i, j :: 0 <= i < j < |a| ==> DeclaredBefore(domains, declared, a[i], a[j])
    requires forall i, j :: 0 <= i < j < |b| ==> DeclaredBefore(domains, declared, b[i], b[j])
    ensures a == b
  {
    hide DeclaredBefore;
    assert a != [] ==> a[0] in b;
    assert b != [] ==> b[0] in a;
    if a != [] && b != [] {
      var i :| 0 <= i < |a| && a[i] == b[0];
      var j :| 0 <= j < |b| && b[j] == a[0];
      if i > 0 && j > 0 { BeforeIsAsymmetric(domains, declared, a[0], b[0]); }
      assert a[0] == b[0];
      forall id ensures id in a[1..] <==> id in b[1..] {
        assert a == [a[0]] + a[1..] && b == [b[0]] + b[1..];
        assert id in a[1..] <==> id in a && id != a[0];
        assert id in b[1..] <==> id in b && id != b[0];
      }
      DomainOrderUnique(a[1..], b[1..], domains, declared);
      assert a == [a[0]] + a[1..] && b == [b[0]] + b[1..];
    }
  }

  lemma BeforeIsAsymmetric(domains: seq<Id>, declared: map<Id, Id>, a: Id, b: Id)
    requires DeclaredBefore(domains, declared, a, b)
    ensures !DeclaredBefore(domains, declared, b, a)
  {
  }

  datatype Composite = NoProfile | UnknownProfile(id: Id) | Built(profile: Profile)

  method DomainProfileIds(domains: seq<Id>, declared: map<Id, Id>) returns (ids: seq<Id>)
    ensures ids == ProfileIds(domains, declared) && InDomainOrder(ids, domains, declared)
  {
    hide InDomainOrder;
    ids := [];
    for k := 0 to |domains|
      invariant ids == ProfileIds(domains[..k], declared)
    {
      assert domains[..k + 1][..k] == domains[..k] && domains[..k + 1][k] == domains[k];
      if domains[k] in declared && declared[domains[k]] != "" && declared[domains[k]] !in ids {
        ids := ids + [declared[domains[k]]];
      }
    }
    assert domains[..|domains|] == domains;
    ProfileIdsInDomainOrder(domains, declared);
  }

  function Look(profiles: map<Id, Profile>, ids: seq<Id>): (r: seq<Profile>)
    requires forall id :: id in ids ==> id in profiles
    ensures |r| == |ids|
  {
    seq(|ids|, k requires 0 <= k < |ids| => profiles[ids[k]])
  }

  /** The composite is the fold over the registered profiles, in domain order; a missing one
      raises its id. */
  method CompositeProfile(domains: seq<Id>, declared: map<Id, Id>, profiles: map<Id, Profile>) returns (r: Composite)
    ensures r.NoProfile? <==> ProfileIds(domains, declared) == []
    ensures r.UnknownProfile? <==> exists id :: id in ProfileIds(domains, declared) && id !in profiles
    ensures r.UnknownProfile? ==> r.id in ProfileIds(domains, declared) && r.id !in profiles
    ensures r.Built? ==> r.profile == Fold(Look(profiles, ProfileIds(domains, declared)))
  {
    hide ProfileIds, InDomainOrder, Profile.ComposedWith;
    var ids := DomainProfileIds(domains, declared);
    if |ids| == 0 { return NoProfile; }
    if ids[0] !in profiles { return UnknownProfile(ids[0]); }
    var composite := profiles[ids[0]];
    for k := 1 to |ids|
      invariant forall id :: id in ids[..k] ==> id in profiles
      invariant composite == Fold(Look(profiles, ids[..k]))
    {
      if ids[k] !in profiles { return UnknownProfile(ids[k]); }
      assert ids[..k + 1] == ids[..k] + [ids[k]];
      assert Look(profiles, ids[..k + 1])[..k] == Look(profiles, ids[..k]);
      composite := Compose(composite, profiles[ids[k]]);
    }
    assert ids[..|ids|] == ids;
    r := Built(composite);
  }
}
