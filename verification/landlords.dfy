/** The landlord: construction with empty per-neighbourhood histories, the
    monthly market-rent observation, the yearly trend fit, and the monthly
    step that combines them with unit upkeep.

    The per-neighbourhood samples of 10 units and the per-unit decay draws
    are inputs. */
module Landlords {
  import opened Cities
  import Regression
  import Upkeep

  const SampleSize: nat := 10
  const TrendMonths: nat := 12
  const DefaultMaintenance: real := 0.1
  /** The fold start of the monthly maximum, standing for "no observation". */
  const NoObservation: real := -1.0

  datatype Landlord = Landlord(
    id: nat,
    units: seq<nat>,
    maintenance: real,
    rentObvs: map<nat, seq<real>>,
    trendEsts: map<nat, real>,
    investEsts: map<nat, real>)

  /** `Landlord::new`: every listed neighbourhood is tracked with an empty
      history and zero estimates; no units; maintenance 0.1. */
  method New(id: nat, neighborhoods: seq<nat>) returns (l: Landlord)
    ensures l.id == id && l.units == [] && l.maintenance == DefaultMaintenance
    ensures l.rentObvs.Keys == (set n | n in neighborhoods)
    ensures l.trendEsts.Keys == l.rentObvs.Keys && l.investEsts.Keys == l.rentObvs.Keys
    ensures forall n :: n in l.rentObvs ==> l.rentObvs[n] == [] && l.trendEsts[n] == 0.0 && l.investEsts[n] == 0.0
  {
    var obvs: map<nat, seq<real>> := map[];
    var trends: map<nat, real> := map[];
    var invests: map<nat, real> := map[];
    var i := 0;
    while i < |neighborhoods|
      invariant i <= |neighborhoods|
      invariant obvs.Keys == (set n | n in neighborhoods[..i])
      invariant trends.Keys == obvs.Keys && invests.Keys == obvs.Keys
      invariant forall n :: n in obvs ==> obvs[n] == [] && trends[n] == 0.0 && invests[n] == 0.0
    {
      var n := neighborhoods[i];
      assert neighborhoods[..i + 1] == neighborhoods[..i] + [n];
      obvs := obvs[n := []];
      trends := trends[n := 0.0];
      invests := invests[n := 0.0];
      i := i + 1;
    }
    assert neighborhoods[..i] == neighborhoods;
    l := Landlord(id, [], DefaultMaintenance, obvs, trends, invests);
  }

  // ---------------------------------------------------------------------
  // Rent observation

  /** What the first loop of `estimate_rents` indexes: each owned unit, and
      the parcel of each occupied one. */
  predicate OwnReadable(city: City, ids: seq<nat>) {
    forall i :: 0 <= i < |ids| ==>
      ids[i] in city.units && (Upkeep.Occupied(city.units[ids[i]]) ==> city.units[ids[i]].pos in city.parcels)
  }

  /** An owned unit feeds neighbourhood `n`'s bucket when it is occupied and
      its parcel lies in `n`. */
  predicate Contributes(city: City, id: nat, n: nat)
    requires id in city.units
    requires Upkeep.Occupied(city.units[id]) ==> city.units[id].pos in city.parcels
  {
    Upkeep.Occupied(city.units[id]) && city.parcels[city.units[id].pos].neighborhood == Some(n)
  }

  /** `entry(n).or_insert(Vec::new())`. */
  function Lookup(b: map<nat, seq<real>>, n: nat): seq<real> {
    if n in b then b[n] else []
  }

  /** The first loop of `estimate_rents`: rent per area of each occupied
      owned unit, pushed onto its neighbourhood's bucket in unit order. */
  function Buckets(city: City, ids: seq<nat>, o: Oracles): map<nat, seq<real>>
    requires OwnReadable(city, ids)
    decreases |ids|
  {
    if ids == [] then map[]
    else
      var b := Buckets(city, ids[..|ids| - 1], o);
      var u := city.units[ids[|ids| - 1]];
      if Upkeep.Occupied(u) then
        match city.parcels[u.pos].neighborhood
        case Some(n) => b[n := Lookup(b, n) + [o.rentPerArea(u)]]
        case None => b
      else b
  }

  /** A bucket holds exactly the rents per area of the contributing units. */
  lemma {:induction false} BucketContents(city: City, ids: seq<nat>, o: Oracles, n: nat, x: real)
    requires OwnReadable(city, ids)
    ensures x in Lookup(Buckets(city, ids, o), n)
        <==> exists i :: 0 <= i < |ids| && Contributes(city, ids[i], n) && x == o.rentPerArea(city.units[ids[i]])
    decreases |ids|
  {
    if ids != [] {
      var m := |ids| - 1;
      var init := ids[..m];
      assert OwnReadable(city, init);
      BucketContents(city, init, o, n, x);
      assert forall i :: 0 <= i < m ==> init[i] == ids[i];
      if x in Lookup(Buckets(city, ids, o), n) && !(x in Lookup(Buckets(city, init, o), n)) {
        assert Contributes(city, ids[m], n) && x == o.rentPerArea(city.units[ids[m]]);
      }
      if exists i :: 0 <= i < |ids| && Contributes(city, ids[i], n) && x == o.rentPerArea(city.units[ids[i]]) {
        var i :| 0 <= i < |ids| && Contributes(city, ids[i], n) && x == o.rentPerArea(city.units[ids[i]]);
        if i < m {
          assert init[i] == ids[i];
        }
      }
    }
  }

  /** Rents per area of the sampled units, in sample order. */
  function SampledRents(city: City, sample: seq<nat>, o: Oracles): (r: seq<real>)
    requires forall j :: 0 <= j < |sample| ==> sample[j] in city.units
    ensures |r| == |sample|
    ensures forall j :: 0 <= j < |sample| ==> r[j] == o.rentPerArea(city.units[sample[j]])
    decreases |sample|
  {
    if sample == [] then []
    else [o.rentPerArea(city.units[sample[0]])] + SampledRents(city, sample[1..], o)
  }

  /** `fold(init, f32::max)`: the largest of `init` and the elements. */
  function MaxFrom(init: real, xs: seq<real>): (r: real)
    ensures r >= init
    ensures forall i :: 0 <= i < |xs| ==> xs[i] <= r
    ensures r == init || r in xs
    decreases |xs|
  {
    if xs == [] then init
    else
      var r := MaxFrom(MaxReal(init, xs[0]), xs[1..]);
      assert forall i :: 1 <= i < |xs| ==> xs[i] == xs[1..][i - 1];
      r
  }

  /** What `estimate_rents` requires: owned units readable, and for every
      tracked neighbourhood an index entry and a sample the sampler can draw
      from it, of units that exist. */
  predicate RentsReadable(l: Landlord, city: City, samples: map<nat, seq<nat>>) {
    && OwnReadable(city, l.units)
    && forall n :: n in l.rentObvs ==>
         && n in city.unitsByNeighborhood
         && n in samples
         && ValidSample(samples[n], city.unitsByNeighborhood[n], SampleSize)
         && forall j :: 0 <= j < |samples[n]| ==> samples[n][j] in city.units
  }

  /** This month's observation for a tracked neighbourhood. */
  function Observation(l: Landlord, city: City, samples: map<nat, seq<nat>>, o: Oracles, n: nat): real
    requires RentsReadable(l, city, samples)
    requires n in l.rentObvs
  {
    MaxFrom(NoObservation, Lookup(Buckets(city, l.units, o), n) + SampledRents(city, samples[n], o))
  }

  /** `estimate_rents`: every tracked history gains this month's observation. */
  function EstimateRents(l: Landlord, city: City, samples: map<nat, seq<nat>>, o: Oracles): (r: Landlord)
    requires RentsReadable(l, city, samples)
    ensures r.rentObvs.Keys == l.rentObvs.Keys
    ensures r.(rentObvs := l.rentObvs) == l
  {
    l.(rentObvs := map n | n in l.rentObvs :: l.rentObvs[n] + [Observation(l, city, samples, o, n)])
  }

  /** Each tracked history gains exactly one entry: the largest rent per area
      among the landlord's occupied units in the neighbourhood and the sampled
      units, or -1 when that is larger or there is nothing to observe. */
  lemma EstimateRentsAppendsOne(l: Landlord, city: City, samples: map<nat, seq<nat>>, o: Oracles, n: nat)
    requires RentsReadable(l, city, samples)
    requires n in l.rentObvs
    ensures var h := EstimateRents(l, city, samples, o).rentObvs[n];
            var v := h[|h| - 1];
            var s := samples[n];
            && |h| == |l.rentObvs[n]| + 1
            && h[..|l.rentObvs[n]|] == l.rentObvs[n]
            && v >= NoObservation
            && (forall i :: 0 <= i < |l.units| && Contributes(city, l.units[i], n) ==> o.rentPerArea(city.units[l.units[i]]) <= v)
            && (forall j :: 0 <= j < |s| ==> o.rentPerArea(city.units[s[j]]) <= v)
            && (v == NoObservation
                || (exists i :: 0 <= i < |l.units| && Contributes(city, l.units[i], n) && v == o.rentPerArea(city.units[l.units[i]]))
                || (exists j :: 0 <= j < |s| && v == o.rentPerArea(city.units[s[j]])))
  {
    var own := Lookup(Buckets(city, l.units, o), n);
    var sampled := SampledRents(city, samples[n], o);
    var xs := own + sampled;
    var v := Observation(l, city, samples, o, n);
    forall i | 0 <= i < |l.units| && Contributes(city, l.units[i], n)
      ensures o.rentPerArea(city.units[l.units[i]]) <= v
    {
      var x := o.rentPerArea(city.units[l.units[i]]);
      BucketContents(city, l.units, o, n, x);
      var k :| 0 <= k < |own| && own[k] == x;
      assert xs[k] == x;
    }
    forall j | 0 <= j < |samples[n]|
      ensures o.rentPerArea(city.units[samples[n][j]]) <= v
    {
      assert xs[|own| + j] == sampled[j];
    }
    if v != NoObservation {
      assert v in xs;
      var k :| 0 <= k < |xs| && xs[k] == v;
      if k < |own| {
        assert v in own;
        BucketContents(city, l.units, o, n, v);
      } else {
        assert sampled[k - |own|] == v;
      }
    }
  }

  /** With no occupied unit of its own in the neighbourhood and an empty
      index entry, the month's observation is -1. */
  lemma NothingObservedIsMinusOne(l: Landlord, city: City, samples: map<nat, seq<nat>>, o: Oracles, n: nat)
    requires RentsReadable(l, city, samples)
    requires n in l.rentObvs
    requires city.unitsByNeighborhood[n] == []
    requires forall i :: 0 <= i < |l.units| ==> !Contributes(city, l.units[i], n)
    ensures Observation(l, city, samples, o, n) == NoObservation
  {
    var own := Lookup(Buckets(city, l.units, o), n);
    if own != [] {
      BucketContents(city, l.units, o, n, own[0]);
    }
    assert samples[n] == [];
  }

  // ---------------------------------------------------------------------
  // Trend estimation

  /** The last twelve observations. */
  function Window(h: seq<real>): seq<real>
    requires |h| >= TrendMonths
  {
    h[|h| - TrendMonths..]
  }

  /** The fitted line's value one month past the window. */
  function TrendOf(h: seq<real>): real
    requires |h| >= TrendMonths
  {
    Regression.At(Regression.FitLine(Window(h)), TrendMonths as real)
  }

  /** The neighbourhoods with at least a year of history. */
  function Ready(l: Landlord): set<nat> {
    set n | n in l.rentObvs && |l.rentObvs[n]| >= TrendMonths
  }

  /** `estimate_trends`: overwrite (or insert) the estimates of every
      neighbourhood with a year of history; leave all others alone. */
  function EstimateTrends(l: Landlord): (r: Landlord)
    ensures r.(trendEsts := l.trendEsts, investEsts := l.investEsts) == l
    ensures r.trendEsts.Keys == l.trendEsts.Keys + Ready(l)
    ensures r.investEsts.Keys == l.investEsts.Keys + Ready(l)
  {
    var ready := Ready(l);
    l.(trendEsts := map n | n in l.trendEsts.Keys + ready ::
                      if n in ready then TrendOf(l.rentObvs[n]) else l.trendEsts[n],
       investEsts := map n | n in l.investEsts.Keys + ready ::
                      if n in ready then TrendOf(l.rentObvs[n]) - l.rentObvs[n][|l.rentObvs[n]| - 1]
                      else l.investEsts[n])
  }

  /** Estimates of a neighbourhood with less than a year of history (or not
      tracked at all) are left exactly as they were. */
  lemma TrendsWaitForAYear(l: Landlord, n: nat)
    requires n !in l.rentObvs || |l.rentObvs[n]| < TrendMonths
    ensures var r := EstimateTrends(l);
            && (n in r.trendEsts <==> n in l.trendEsts)
            && (n in l.trendEsts ==> r.trendEsts[n] == l.trendEsts[n])
            && (n in r.investEsts <==> n in l.investEsts)
            && (n in l.investEsts ==> r.investEsts[n] == l.investEsts[n])
  {
  }

  /** With a year of history, the trend estimate is the least-squares line
      of the last twelve observations (the line satisfying their normal
      equations) taken one month past the window, and the investment estimate
      is that trend minus the latest observation. */
  lemma TrendIsLeastSquares(l: Landlord, n: nat, line: Regression.Line)
    requires n in l.rentObvs && |l.rentObvs[n]| >= TrendMonths
    requires Regression.NormalSums(Window(l.rentObvs[n]), line)
    ensures EstimateTrends(l).trendEsts[n] == Regression.At(line, 12.0)
    ensures EstimateTrends(l).investEsts[n]
         == Regression.At(line, 12.0) - l.rentObvs[n][|l.rentObvs[n]| - 1]
  {
    Regression.FitLineUnique(Window(l.rentObvs[n]), line);
  }

  /** A year of history lying on a line is projected exactly one step along
      it, and the investment estimate is the line's slope. */
  lemma TrendOnLinearYear(l: Landlord, n: nat, line: Regression.Line)
    requires n in l.rentObvs && |l.rentObvs[n]| >= TrendMonths
    requires Regression.OnLine(Window(l.rentObvs[n]), line)
    ensures EstimateTrends(l).trendEsts[n] == Regression.At(line, 12.0)
    ensures EstimateTrends(l).investEsts[n] == line.slope
  {
    var h := l.rentObvs[n];
    Regression.OnLineSums(Window(h), line);
    TrendIsLeastSquares(l, n, line);
    assert h[|h| - 1] == Window(h)[11];
  }

  /** The year 10, 11, ..., 21 projects to 22, an expected rise of 1. */
  lemma TrendExample(l: Landlord, n: nat)
    requires n in l.rentObvs
    requires l.rentObvs[n] == [10.0, 11.0, 12.0, 13.0, 14.0, 15.0, 16.0, 17.0, 18.0, 19.0, 20.0, 21.0]
    ensures EstimateTrends(l).trendEsts[n] == 22.0
    ensures EstimateTrends(l).investEsts[n] == 1.0
  {
    var line := Regression.Line(1.0, 10.0);
    assert Window(l.rentObvs[n]) == l.rentObvs[n];
    TrendOnLinearYear(l, n, line);
  }

  // ---------------------------------------------------------------------
  // The monthly step

  datatype StepOutcome = StepOutcome(landlord: Landlord, units: map<nat, Unit>)

  /** `after` agrees with `before` in everything but what upkeep touches:
      the condition, the rent and the vacancy counter. */
  predicate UpkeepOnly(after: Unit, before: Unit) {
    && after.pos == before.pos && after.area == before.area && after.leaseMonth == before.leaseMonth
    && after.occupancy == before.occupancy && after.tenants == before.tenants
  }

  /** What `Landlord::step` requires: readable market data, one decay draw in
      [0, 1) per owned unit, owned units that exist, and no occupied owned
      unit whose lease month lies in the future. */
  predicate StepReady(l: Landlord, city: City, month: nat, samples: map<nat, seq<nat>>, decays: seq<real>) {
    && RentsReadable(l, city, samples)
    && |decays| == |l.units|
    && (forall i :: 0 <= i < |decays| ==> 0.0 <= decays[i] < 1.0)
    && (forall i :: 0 <= i < |l.units| ==> l.units[i] in city.units && Upkeep.Manageable(city.units[l.units[i]], month))
  }

  /** `Landlord::step`: observe, fit, maintain, then apply the rent rules. */
  function Step(l: Landlord, city: City, month: nat, samples: map<nat, seq<nat>>, decays: seq<real>, o: Oracles): (r: StepOutcome)
    requires StepReady(l, city, month, samples, decays)
    ensures r.units.Keys == city.units.Keys
    ensures forall k :: k in r.units && k !in l.units ==> r.units[k] == city.units[k]
    ensures forall k :: k in r.units ==> UpkeepOnly(r.units[k], city.units[k])
    ensures forall i :: 0 <= i < |l.units| ==> 0.0 <= r.units[l.units[i]].condition <= 1.0
    ensures r.landlord.(rentObvs := l.rentObvs, trendEsts := l.trendEsts, investEsts := l.investEsts) == l
    ensures r.landlord.rentObvs.Keys == l.rentObvs.Keys
    ensures forall n :: n in l.rentObvs ==> |r.landlord.rentObvs[n]| == |l.rentObvs[n]| + 1
  {
    var observed := EstimateRents(l, city, samples, o);
    var estimated := EstimateTrends(observed);
    var maintained := Upkeep.MaintainAll(city.units, l.units, decays, l.maintenance);
    var managed := Upkeep.ManageAll(maintained, l.units, month);
    assert forall i :: 0 <= i < |l.units| ==> 0.0 <= managed[l.units[i]].condition <= 1.0 by {
      forall i | 0 <= i < |l.units|
        ensures 0.0 <= managed[l.units[i]].condition <= 1.0
      {
        assert Upkeep.RentOnly(managed[l.units[i]], maintained[l.units[i]]);
      }
    }
    forall n | n in l.rentObvs
      ensures |estimated.rentObvs[n]| == |l.rentObvs[n]| + 1
    {
      EstimateRentsAppendsOne(l, city, samples, o, n);
    }
    StepOutcome(estimated, managed)
  }

  /** With each owned unit listed once, the step leaves an owned unit with
      this month's clamped condition update followed by its rent rules; the
      landlord's records are the rent observation followed by the trend fit. */
  lemma StepOwnedUnit(l: Landlord, city: City, month: nat, samples: map<nat, seq<nat>>, decays: seq<real>, o: Oracles, i: nat)
    requires StepReady(l, city, month, samples, decays)
    requires forall a, b :: 0 <= a < b < |l.units| ==> l.units[a] != l.units[b]
    requires i < |l.units|
    ensures Upkeep.Manageable(Upkeep.Maintained(city.units[l.units[i]], decays[i], l.maintenance), month)
    ensures Step(l, city, month, samples, decays, o).units[l.units[i]]
         == Upkeep.Managed(Upkeep.Maintained(city.units[l.units[i]], decays[i], l.maintenance), month)
    ensures Step(l, city, month, samples, decays, o).landlord == EstimateTrends(EstimateRents(l, city, samples, o))
  {
    var maintained := Upkeep.MaintainAll(city.units, l.units, decays, l.maintenance);
    var k := l.units[i];
    Upkeep.MaintainAllDistinct(city.units, l.units, decays, l.maintenance, i);
    Upkeep.MaintainedManageable(city.units, l.units, decays, l.maintenance, month);
    Upkeep.ManageAllDistinct(maintained, l.units, month, i);
    assert Step(l, city, month, samples, decays, o)
        == StepOutcome(EstimateTrends(EstimateRents(l, city, samples, o)), Upkeep.ManageAll(maintained, l.units, month));
  }
}
