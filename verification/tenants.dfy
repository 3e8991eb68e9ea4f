/** The tenant's monthly step: review the current housing, then, when
    reconsidering and the pool is non-empty, score a random sample of the pool,
    keep the first best vacant unit, and move if its score less the moving
    penalty beats the review's current score. That current score is -1 for an
    unhoused tenant (with no penalty) and 0 at a lease boundary, where the home
    is not scored, so a housed tenant at its lease anniversary moves for any
    best score above the penalty, however well its home scores.

    The random sample is an input; `ValidSample` states what the sampler can
    return. */
module Tenants {
  import opened Cities
  import Lease
  import Scoring
  import Pool

  const TenantSampleSize: nat := 30
  const MovingPenalty: real := 10.0

  /** `history` mirrors the source's list of previously occupied units; the
      step never writes it. */
  datatype Tenant = Tenant(id: nat, income: nat, unit: Option<nat>, work: Pos, history: seq<nat>)

  /** What the step leaves behind: the tenant, the unit records and the pool. */
  datatype Outcome = Outcome(tenant: Tenant, units: map<nat, Unit>, pool: seq<nat>)

  /** The state after the tenant has looked at its current housing. */
  datatype Review = Review(
    tenant: Tenant,
    units: map<nat, Unit>,
    pool: seq<nat>,
    reconsider: bool,
    current: real,
    penalty: real)

  /** The fold accumulator: the best unit id so far and its score. */
  datatype Candidate = Candidate(id: nat, score: real)

  function Score(t: Tenant, city: City, id: nat, o: Oracles): real
    requires Locatable(city, id)
  {
    var u := city.units[id];
    Scoring.Desirability(t.income, t.work, u, city.parcels[u.pos], o)
  }

  /** Whether the current unit is at a lease boundary (elapsed saturating at 0). */
  predicate LeaseUp(month: nat, unit: Unit) {
    Lease.AtBoundary(Lease.Elapsed(month, unit.leaseMonth))
  }

  /** What the source indexes while reviewing: the current unit, and its
      parcel unless the lease is up (the parcel is only read to score it). */
  predicate HousingReadable(t: Tenant, city: City, month: nat) {
    t.unit.Some? ==>
      && t.unit.value in city.units
      && (!LeaseUp(month, city.units[t.unit.value]) ==> Locatable(city, t.unit.value))
  }

  function Vacate(u: Unit, id: nat): Unit {
    u.(tenants := u.tenants - {id})
  }

  function Occupy(u: Unit, id: nat): Unit {
    u.(tenants := u.tenants + {id})
  }

  /** `after` agrees with `before` in everything but the occupant set. */
  predicate OccupantsOnly(after: Unit, before: Unit) {
    && after.pos == before.pos && after.rent == before.rent && after.area == before.area
    && after.condition == before.condition && after.leaseMonth == before.leaseMonth
    && after.monthsVacant == before.monthsVacant && after.occupancy == before.occupancy
  }

  /** Two unit maps over the same ids whose records differ at most in their
      occupant sets. */
  predicate OccupantsOnlyIn(after: map<nat, Unit>, before: map<nat, Unit>) {
    after.Keys == before.Keys && forall k :: k in after ==> OccupantsOnly(after[k], before[k])
  }

  lemma OccupantsOnlyUpdate(m: map<nat, Unit>, k: nat, u: Unit)
    requires k in m && OccupantsOnly(u, m[k])
    ensures OccupantsOnlyIn(m[k := u], m)
  {
  }

  lemma OccupantsOnlyTrans(a: map<nat, Unit>, b: map<nat, Unit>, c: map<nat, Unit>)
    requires OccupantsOnlyIn(a, b) && OccupantsOnlyIn(b, c)
    ensures OccupantsOnlyIn(a, c)
  {
  }

  /** The first half of `Tenant::step`: decide whether to search, and leave a
      unit whose score has dropped to exactly 0. */
  function ReviewHousing(t: Tenant, city: City, month: nat, pool: seq<nat>, o: Oracles): (rv: Review)
    requires HousingReadable(t, city, month)
    ensures OccupantsOnlyIn(rv.units, city.units)
    ensures rv.tenant.(unit := t.unit) == t
    ensures rv.tenant.unit.Some? ==> rv.tenant.unit == t.unit
    ensures t.unit.None? ==> rv.reconsider && rv.current == -1.0 && rv.penalty == 0.0
    ensures t.unit.Some? ==> rv.penalty == MovingPenalty
    ensures !rv.reconsider ==> rv.units == city.units && rv.pool == pool && rv.tenant == t
  {
    match t.unit
    case None => Review(t, city.units, pool, true, -1.0, 0.0)
    case Some(u) =>
      var unit := city.units[u];
      if LeaseUp(month, unit) then
        Review(t, city.units, pool, true, 0.0, MovingPenalty)
      else
        var current := Score(t, city, u, o);
        if current == 0.0 then
          OccupantsOnlyUpdate(city.units, u, Vacate(unit, t.id));
          Review(t.(unit := None), city.units[u := Vacate(unit, t.id)], pool + [u], true, 0.0, MovingPenalty)
        else
          Review(t, city.units, pool, false, current, MovingPenalty)
  }

  /** One step of the best-candidate fold: skip full units, keep the new unit
      only on a strictly higher score. */
  function Consider(t: Tenant, city: City, o: Oracles, acc: Candidate, id: nat): Candidate
    requires Locatable(city, id)
  {
    if o.vacancies(city.units[id]) <= 0 then acc
    else
      var d := Score(t, city, id, o);
      if d > acc.score then Candidate(id, d) else acc
  }

  predicate Eligible(city: City, o: Oracles, id: nat)
    requires id in city.units
  {
    o.vacancies(city.units[id]) > 0
  }

  /** The fold over the sample, left to right. */
  function BestOf(t: Tenant, city: City, o: Oracles, acc: Candidate, sample: seq<nat>): (r: Candidate)
    requires AllLocatable(city, sample)
    ensures r.score >= acc.score
    ensures r == acc || r.id in sample
    decreases |sample|
  {
    if sample == [] then acc
    else BestOf(t, city, o, Consider(t, city, o, acc, sample[0]), sample[1..])
  }

  /** No eligible sampled unit scores above the fold's result. */
  lemma {:induction false} BestOfIsUpperBound(t: Tenant, city: City, o: Oracles, acc: Candidate, sample: seq<nat>)
    requires AllLocatable(city, sample)
    ensures var r := BestOf(t, city, o, acc, sample);
            forall i :: 0 <= i < |sample| && Eligible(city, o, sample[i]) ==> Score(t, city, sample[i], o) <= r.score
    decreases |sample|
  {
    if sample != [] {
      var acc' := Consider(t, city, o, acc, sample[0]);
      var rest := sample[1..];
      var r := BestOf(t, city, o, acc', rest);
      assert r == BestOf(t, city, o, acc, sample);
      BestOfIsUpperBound(t, city, o, acc', rest);
      forall i | 0 <= i < |sample| && Eligible(city, o, sample[i])
        ensures Score(t, city, sample[i], o) <= r.score
      {
        if i > 0 {
          assert sample[i] == rest[i - 1];
        }
      }
    }
  }

  /** A result above the start value is a sampled eligible unit with exactly
      that score, and every eligible unit sampled before its position scores
      strictly less; otherwise the start value comes back unchanged. */
  lemma {:induction false} BestOfIsFirst(t: Tenant, city: City, o: Oracles, acc: Candidate, sample: seq<nat>)
    requires AllLocatable(city, sample)
    ensures var r := BestOf(t, city, o, acc, sample);
            && (r.score == acc.score ==> r == acc)
            && (r.score > acc.score ==>
                  exists k :: 0 <= k < |sample| && sample[k] == r.id
                    && Eligible(city, o, sample[k]) && Score(t, city, sample[k], o) == r.score
                    && forall j :: 0 <= j < k && Eligible(city, o, sample[j]) ==> Score(t, city, sample[j], o) < r.score)
    decreases |sample|
  {
    if sample != [] {
      var acc' := Consider(t, city, o, acc, sample[0]);
      var rest := sample[1..];
      var r := BestOf(t, city, o, acc', rest);
      assert r == BestOf(t, city, o, acc, sample);
      BestOfIsFirst(t, city, o, acc', rest);
      if r.score > acc.score {
        if r.score == acc'.score {
          assert r == acc' && acc' != acc;
          assert sample[0] == r.id && Eligible(city, o, sample[0]);
        } else {
          var k' :| 0 <= k' < |rest| && rest[k'] == r.id
            && Eligible(city, o, rest[k']) && Score(t, city, rest[k'], o) == r.score
            && forall j :: 0 <= j < k' && Eligible(city, o, rest[j]) ==> Score(t, city, rest[j], o) < r.score;
          var k := k' + 1;
          assert sample[k] == rest[k'];
          forall j | 0 <= j < k && Eligible(city, o, sample[j])
            ensures Score(t, city, sample[j], o) < r.score
          {
            if j > 0 {
              assert sample[j] == rest[j - 1];
            }
          }
        }
      }
    }
  }

  /** The fold keeps the first strict maximum: no eligible sampled unit scores
      above the result; a result above the start value is a sampled eligible
      unit with exactly that score, and every eligible unit sampled before its
      position scores strictly less; otherwise the start value comes back
      unchanged. */
  lemma BestOfIsFirstMaximum(t: Tenant, city: City, o: Oracles, acc: Candidate, sample: seq<nat>)
    requires AllLocatable(city, sample)
    ensures var r := BestOf(t, city, o, acc, sample);
            && (forall i :: 0 <= i < |sample| && Eligible(city, o, sample[i]) ==> Score(t, city, sample[i], o) <= r.score)
            && (r.score == acc.score ==> r == acc)
            && (r.score > acc.score ==>
                  exists k :: 0 <= k < |sample| && sample[k] == r.id
                    && Eligible(city, o, sample[k]) && Score(t, city, sample[k], o) == r.score
                    && forall j :: 0 <= j < k && Eligible(city, o, sample[j]) ==> Score(t, city, sample[j], o) < r.score)
  {
    BestOfIsUpperBound(t, city, o, acc, sample);
    BestOfIsFirst(t, city, o, acc, sample);
  }

  /** With the source's start value `(0, 0.)` the result is never negative,
      and a positive result names an eligible sampled unit. */
  lemma BestFromZero(t: Tenant, city: City, o: Oracles, sample: seq<nat>)
    requires AllLocatable(city, sample)
    ensures var r := BestOf(t, city, o, Candidate(0, 0.0), sample);
            && r.score >= 0.0
            && (r.score > 0.0 ==> r.id in sample && Eligible(city, o, r.id) && Score(t, city, r.id, o) == r.score)
            && (r.score == 0.0 ==> r.id == 0)
            && (forall i :: 0 <= i < |sample| && Eligible(city, o, sample[i]) ==> Score(t, city, sample[i], o) <= r.score)
  {
    BestOfIsFirstMaximum(t, city, o, Candidate(0, 0.0), sample);
  }

  /** The move rule. */
  predicate Accepts(rv: Review, best: Candidate) {
    best.score > 0.0 && best.score - rv.penalty > rv.current
  }

  /** Leave the reviewed unit (if any) into the pool, occupy `bestId`, and drop
      every copy of `bestId` from the pool once it has no vacancies. */
  function Move(rv: Review, bestId: nat, o: Oracles): (r: Outcome)
    requires bestId in rv.units
    requires rv.tenant.unit.Some? ==> rv.tenant.unit.value in rv.units
    ensures OccupantsOnlyIn(r.units, rv.units)
    ensures r.tenant == rv.tenant.(unit := Some(bestId))
  {
    var id := rv.tenant.id;
    var units1: map<nat, Unit> := if rv.tenant.unit.Some? then rv.units[rv.tenant.unit.value := Vacate(rv.units[rv.tenant.unit.value], id)] else rv.units;
    var pool1 := if rv.tenant.unit.Some? then rv.pool + [rv.tenant.unit.value] else rv.pool;
    var target := Occupy(units1[bestId], id);
    var pool2 := if o.vacancies(target) == 0 then Pool.RemoveAll(pool1, bestId) else pool1;
    var units2: map<nat, Unit> := units1[bestId := target];
    assert OccupantsOnlyIn(units1, rv.units) by {
      if rv.tenant.unit.Some? {
        OccupantsOnlyUpdate(rv.units, rv.tenant.unit.value, Vacate(rv.units[rv.tenant.unit.value], id));
      }
    }
    OccupantsOnlyUpdate(units1, bestId, target);
    OccupantsOnlyTrans(units2, units1, rv.units);
    Outcome(rv.tenant.(unit := Some(bestId)), units2, pool2)
  }

  /** What the step requires of its inputs: the current unit (and its parcel
      when scored) exist, the sample is one the sampler can draw from the pool
      as it stands after the review, and, when the tenant searches, every
      sampled id and its parcel exist. */
  predicate StepReady(t: Tenant, city: City, month: nat, pool: seq<nat>, sample: seq<nat>, o: Oracles) {
    && HousingReadable(t, city, month)
    && ValidSample(sample, ReviewHousing(t, city, month, pool, o).pool, TenantSampleSize)
    && (Searches(t, city, month, pool, o) ==> AllLocatable(city, sample))
  }

  /** The city as the search sees it: the reviewed unit records. */
  function Reviewed(city: City, rv: Review): City {
    city.(units := rv.units)
  }

  /** The review changes only occupant sets, so every sampled id can still be
      looked up, with its parcel, in the reviewed city. */
  lemma ReviewedSampleLocatable(t: Tenant, city: City, month: nat, pool: seq<nat>, sample: seq<nat>, o: Oracles)
    requires StepReady(t, city, month, pool, sample, o)
    requires Searches(t, city, month, pool, o)
    ensures AllLocatable(Reviewed(city, ReviewHousing(t, city, month, pool, o)), sample)
  {
  }

  /** Whether the step searches: it reconsiders and the pool is non-empty. */
  predicate Searches(t: Tenant, city: City, month: nat, pool: seq<nat>, o: Oracles)
    requires HousingReadable(t, city, month)
  {
    var rv := ReviewHousing(t, city, month, pool, o);
    rv.reconsider && |rv.pool| > 0
  }

  /** The candidate the search settles on. */
  function Best(t: Tenant, city: City, month: nat, pool: seq<nat>, sample: seq<nat>, o: Oracles): Candidate
    requires StepReady(t, city, month, pool, sample, o)
    requires Searches(t, city, month, pool, o)
  {
    var rv := ReviewHousing(t, city, month, pool, o);
    ReviewedSampleLocatable(t, city, month, pool, sample, o);
    BestOf(t, Reviewed(city, rv), o, Candidate(0, 0.0), sample)
  }

  /** Whether the step moves the tenant. */
  predicate Moves(t: Tenant, city: City, month: nat, pool: seq<nat>, sample: seq<nat>, o: Oracles)
    requires StepReady(t, city, month, pool, sample, o)
  {
    Searches(t, city, month, pool, o)
      && Accepts(ReviewHousing(t, city, month, pool, o), Best(t, city, month, pool, sample, o))
  }

  /** `Tenant::step`. Only occupant sets change among the unit records, and
      only the unit assignment changes in the tenant record. */
  function Step(t: Tenant, city: City, month: nat, pool: seq<nat>, sample: seq<nat>, o: Oracles): (r: Outcome)
    requires StepReady(t, city, month, pool, sample, o)
    ensures OccupantsOnlyIn(r.units, city.units)
    ensures r.tenant.(unit := t.unit) == t
  {
    var rv := ReviewHousing(t, city, month, pool, o);
    if Moves(t, city, month, pool, sample, o) then
      var best := Best(t, city, month, pool, sample, o);
      ReviewedSampleLocatable(t, city, month, pool, sample, o);
      BestFromZero(t, Reviewed(city, rv), o, sample);
      var r := Move(rv, best.id, o);
      OccupantsOnlyTrans(r.units, rv.units, city.units);
      r
    else
      Outcome(rv.tenant, rv.units, rv.pool)
  }

  /** A housed tenant reconsiders exactly at a lease boundary or when its
      current unit scores exactly 0. */
  lemma ReconsiderRule(t: Tenant, city: City, month: nat, pool: seq<nat>, o: Oracles)
    requires HousingReadable(t, city, month)
    requires t.unit.Some?
    ensures ReviewHousing(t, city, month, pool, o).reconsider
        <==> LeaseUp(month, city.units[t.unit.value]) || Score(t, city, t.unit.value, o) == 0.0
  {
  }

  /** Between lease boundaries a tenant whose unit still scores anything but
      0 does nothing: tenant, unit records and pool are all unchanged. */
  lemma StaysWhenContent(t: Tenant, city: City, month: nat, pool: seq<nat>, sample: seq<nat>, o: Oracles)
    requires StepReady(t, city, month, pool, sample, o)
    requires t.unit.Some? && !LeaseUp(month, city.units[t.unit.value])
    requires Score(t, city, t.unit.value, o) != 0.0
    ensures !Moves(t, city, month, pool, sample, o)
    ensures Step(t, city, month, pool, sample, o) == Outcome(t, city.units, pool)
  {
  }

  /** A tenant without a unit searches exactly when the pool is non-empty, and
      then moves exactly when the best sampled score is positive; whenever it
      does not move, nothing changes. */
  lemma UnhousedSearch(t: Tenant, city: City, month: nat, pool: seq<nat>, sample: seq<nat>, o: Oracles)
    requires StepReady(t, city, month, pool, sample, o)
    requires t.unit.None?
    ensures Searches(t, city, month, pool, o) <==> |pool| > 0
    ensures Moves(t, city, month, pool, sample, o)
        <==> |pool| > 0 && Best(t, city, month, pool, sample, o).score > 0.0
    ensures !Moves(t, city, month, pool, sample, o) ==> Step(t, city, month, pool, sample, o) == Outcome(t, city.units, pool)
  {
  }

  /** At a lease boundary the current unit is not scored (the current score
      stays 0) and the moving penalty applies: the tenant moves exactly when
      the pool is non-empty and the best sampled score exceeds the penalty,
      and otherwise nothing changes. */
  lemma LeaseBoundarySearch(t: Tenant, city: City, month: nat, pool: seq<nat>, sample: seq<nat>, o: Oracles)
    requires StepReady(t, city, month, pool, sample, o)
    requires t.unit.Some? && LeaseUp(month, city.units[t.unit.value])
    ensures Moves(t, city, month, pool, sample, o)
        <==> |pool| > 0 && Best(t, city, month, pool, sample, o).score > MovingPenalty
    ensures !Moves(t, city, month, pool, sample, o) ==> Step(t, city, month, pool, sample, o) == Outcome(t, city.units, pool)
  {
  }

  /** A unit that now scores exactly 0 between lease boundaries is left at
      once: the tenant leaves its occupant set, the id is pushed onto the pool
      (whether or not it is already there), and the tenant becomes unhoused.
      The search then always runs, but the moving penalty still applies and
      the current score counts as 0, so the tenant moves only for a best score
      above the penalty; otherwise the step ends with the tenant unhoused, the
      unit vacated and its id pushed. */
  lemma ForcedVacate(t: Tenant, city: City, month: nat, pool: seq<nat>, sample: seq<nat>, o: Oracles)
    requires StepReady(t, city, month, pool, sample, o)
    requires t.unit.Some? && !LeaseUp(month, city.units[t.unit.value])
    requires Score(t, city, t.unit.value, o) == 0.0
    ensures var u := t.unit.value;
            var rv := ReviewHousing(t, city, month, pool, o);
            && rv.tenant.unit.None?
            && t.id !in rv.units[u].tenants
            && rv.units[u].tenants == city.units[u].tenants - {t.id}
            && (forall k :: k in rv.units && k != u ==> rv.units[k] == city.units[k])
            && rv.pool[..|pool|] == pool && rv.pool[|pool|] == u && |rv.pool| == |pool| + 1
            && multiset(rv.pool)[u] == multiset(pool)[u] + 1
            && rv.penalty == MovingPenalty && rv.current == 0.0
    ensures Searches(t, city, month, pool, o)
    ensures Moves(t, city, month, pool, sample, o) <==> Best(t, city, month, pool, sample, o).score > MovingPenalty
    ensures !Moves(t, city, month, pool, sample, o) ==>
              var u := t.unit.value;
              Step(t, city, month, pool, sample, o)
                == Outcome(t.(unit := None), city.units[u := Vacate(city.units[u], t.id)], pool + [u])
  {
    var u := t.unit.value;
    var rv := ReviewHousing(t, city, month, pool, o);
    assert rv.pool == pool + [u];
    assert multiset(rv.pool) == multiset(pool) + multiset{u};
  }

  /** What `Move` does to the reviewed state: the tenant joins the chosen
      unit, leaves the unit it still holds (if different), that unit's id is
      pushed once, and every copy of the chosen id goes exactly when it has no
      vacancy left; no other unit record changes. */
  lemma MoveRecords(rv: Review, b: nat, o: Oracles)
    requires b in rv.units
    requires rv.tenant.unit.Some? ==> rv.tenant.unit.value in rv.units
    ensures var r := Move(rv, b, o);
            var id := rv.tenant.id;
            var pushed := if rv.tenant.unit.Some? then rv.pool + [rv.tenant.unit.value] else rv.pool;
            && r.units[b].tenants == rv.units[b].tenants + {id}
            && (rv.tenant.unit.Some? && rv.tenant.unit.value != b ==>
                  r.units[rv.tenant.unit.value].tenants == rv.units[rv.tenant.unit.value].tenants - {id})
            && (forall k :: k in rv.units && k != b && rv.tenant.unit != Some(k) ==> r.units[k] == rv.units[k])
            && (o.vacancies(r.units[b]) != 0 ==> r.pool == pushed)
            && (o.vacancies(r.units[b]) == 0 ==>
                  b !in r.pool && forall x :: x != b ==> multiset(r.pool)[x] == multiset(pushed)[x])
  {
    Pool.RemoveAllCounts(if rv.tenant.unit.Some? then rv.pool + [rv.tenant.unit.value] else rv.pool, b);
  }

  /** The unit a move picks was sampled, is in the reviewed pool, exists,
      has a vacancy, and carries the best score, which is positive. */
  lemma MoveChoice(t: Tenant, city: City, month: nat, pool: seq<nat>, sample: seq<nat>, o: Oracles)
    requires StepReady(t, city, month, pool, sample, o)
    requires Moves(t, city, month, pool, sample, o)
    ensures var rv := ReviewHousing(t, city, month, pool, o);
            var best := Best(t, city, month, pool, sample, o);
            var b := best.id;
            && b in sample && b in rv.pool && b in city.units
            && Eligible(Reviewed(city, rv), o, b) && Score(t, Reviewed(city, rv), b, o) == best.score > 0.0
  {
    var rv := ReviewHousing(t, city, month, pool, o);
    var c := Reviewed(city, rv);
    ReviewedSampleLocatable(t, city, month, pool, sample, o);
    BestFromZero(t, c, o, sample);
    SampleDrawnFrom(sample, rv.pool, TenantSampleSize);
    var best := Best(t, city, month, pool, sample, o);
    assert best.id in sample;
    var i :| 0 <= i < |sample| && sample[i] == best.id;
    assert best.id in rv.pool;
  }

  /** What a move does. The tenant is assigned to the chosen unit and added
      to its occupants; the unit it held at the start of the step, if
      different, loses exactly that occupant; the pool is the starting pool
      with that former unit pushed once, and then, exactly when the chosen
      unit has no vacancy left, every copy of the chosen id removed; no other
      unit record changes. */
  lemma MoveEffects(t: Tenant, city: City, month: nat, pool: seq<nat>, sample: seq<nat>, o: Oracles)
    requires StepReady(t, city, month, pool, sample, o)
    requires Moves(t, city, month, pool, sample, o)
    ensures var rv := ReviewHousing(t, city, month, pool, o);
            var b := Best(t, city, month, pool, sample, o).id;
            var r := Step(t, city, month, pool, sample, o);
            var pushed := if t.unit.Some? then pool + [t.unit.value] else pool;
            && r.tenant == t.(unit := Some(b))
            && r.units[b].tenants == rv.units[b].tenants + {t.id}
            && (t.unit.Some? && t.unit.value != b ==>
                  r.units[t.unit.value].tenants == city.units[t.unit.value].tenants - {t.id})
            && (forall k :: k in city.units && k != b && t.unit != Some(k) ==> r.units[k] == city.units[k])
            && (o.vacancies(r.units[b]) != 0 ==> r.pool == pushed)
            && (o.vacancies(r.units[b]) == 0 ==>
                  b !in r.pool && forall x :: x != b ==> multiset(r.pool)[x] == multiset(pushed)[x])
  {
    var rv := ReviewHousing(t, city, month, pool, o);
    var b := Best(t, city, month, pool, sample, o).id;
    MoveChoice(t, city, month, pool, sample, o);
    assert Step(t, city, month, pool, sample, o) == Move(rv, b, o);
    MoveRecords(rv, b, o);
    if t.unit.None? || LeaseUp(month, city.units[t.unit.value]) {
      assert rv.tenant == t && rv.units == city.units && rv.pool == pool;
    } else {
      var u := t.unit.value;
      assert rv.tenant == t.(unit := None);
      assert rv.units == city.units[u := Vacate(city.units[u], t.id)];
      assert rv.pool == pool + [u];
      if u != b {
        assert Move(rv, b, o).units[u] == rv.units[u];
      }
    }
  }
}
