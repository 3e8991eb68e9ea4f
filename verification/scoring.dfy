/** A tenant's desirability score for a unit: an integer affordability gate
    in front of an amenity bundle scaled by an affordability ratio.

    The positive branch is computed over `real`; the square root, the 1/32
    power and hence the distance are the supplied oracles. */
module Scoring {
  import opened Cities

  /** Floor area per occupant below which a unit gives no spaciousness bonus. */
  const MinArea: real := 50.0

  /** The rent share one occupant pays when `occupants` people already live in
      the unit and the tenant being scored is counted on top: the truncated
      quotient, but never below 1. */
  function RentPerTenant(rent: nat, occupants: nat): (r: nat)
    ensures r >= 1
    ensures r == 1 || r * (occupants + 1) <= rent < (r + 1) * (occupants + 1)
    ensures rent >= occupants + 1 ==> r * (occupants + 1) <= rent < (r + 1) * (occupants + 1)
  {
    var share := rent / (occupants + 1);
    if share >= 1 then share else 1
  }

  /** The commute term: 1 at the workplace, the reciprocal distance elsewhere. */
  function Commute(distance: real): real {
    if distance == 0.0 then 1.0 else 1.0 / distance
  }

  /** The part of the amenity bundle that does not depend on the workplace:
      spaciousness, location score and condition. */
  function Surroundings(unit: Unit, parcel: Parcel, o: Oracles): real {
    var n := |unit.tenants| + 1;
    var spaciousness := o.root32(MaxReal(unit.area / n as real - MinArea, 0.0));
    spaciousness + parcel.desirability + unit.condition
  }

  /** The additive amenity bundle of a unit for a tenant working at `work`. */
  function Amenities(work: Pos, unit: Unit, parcel: Parcel, o: Oracles): real {
    Surroundings(unit, parcel, o) + Commute(Distance(work, unit.pos, o.sqrt))
  }

  /** The square-root affordability ratio, defined once the gate is passed. */
  function Ratio(income: nat, unit: Unit, o: Oracles): real {
    o.sqrt(income as real / RentPerTenant(unit.rent, |unit.tenants|) as real)
  }

  predicate Affordable(income: nat, unit: Unit) {
    income >= RentPerTenant(unit.rent, |unit.tenants|)
  }

  /** The desirability score. Exactly 0 for an unaffordable unit. */
  function Desirability(income: nat, work: Pos, unit: Unit, parcel: Parcel, o: Oracles): (r: real)
    ensures !Affordable(income, unit) ==> r == 0.0
  {
    if income < RentPerTenant(unit.rent, |unit.tenants|) then 0.0
    else Ratio(income, unit, o) * Amenities(work, unit, parcel, o)
  }

  /** With a sound square root the affordability ratio of an affordable unit
      is at least 1, so the score has the sign of the amenity bundle and is
      at least as large as a non-negative bundle. */
  lemma {:induction false} AffordableScoreSign(income: nat, work: Pos, unit: Unit, parcel: Parcel, o: Oracles)
    requires SqrtSound(o.sqrt)
    requires Affordable(income, unit)
    ensures var r := Desirability(income, work, unit, parcel, o);
            var a := Amenities(work, unit, parcel, o);
            && (r > 0.0 <==> a > 0.0)
            && (r == 0.0 <==> a == 0.0)
            && (a >= 0.0 ==> r >= a)
  {
    var s, a := Ratio(income, unit, o), Amenities(work, unit, parcel, o);
    var r := Desirability(income, work, unit, parcel, o);
    RatioAtLeastOne(income, unit, o);
    assert r == s * a;
    ScaledSign(s, a, r);
  }

  lemma QuotientAtLeastOne(x: real, p: real)
    requires 0.0 < p <= x
    ensures x / p >= 1.0
  {
    var q := x / p;
    assert q * p == x;
  }

  lemma RootAtLeastOne(q: real, sqrt: real -> real)
    requires SqrtSound(sqrt)
    requires q >= 1.0
    ensures sqrt(q) >= 1.0
  {
    var s := sqrt(q);
    assert s >= 0.0 && s * s == q;
    assert (s - 1.0) * (s + 1.0) == s * s - 1.0;
    PositiveFactor(s - 1.0, s + 1.0);
  }

  lemma PositiveFactor(a: real, b: real)
    requires b > 0.0 && a * b >= 0.0
    ensures a >= 0.0
  {
  }

  lemma ScaledSign(s: real, a: real, r: real)
    requires s >= 1.0 && r == s * a
    ensures (r > 0.0 <==> a > 0.0) && (r == 0.0 <==> a == 0.0)
    ensures a >= 0.0 ==> r >= a
  {
    if a > 0.0 {
      assert s * a >= 1.0 * a;
    } else if a < 0.0 {
      assert s * a <= 1.0 * a;
    }
  }

  /** With a sound square root, a score of exactly 0 (the tenant's trigger for
      leaving) means the unit is unaffordable or its amenity bundle is 0. */
  lemma ZeroScoreIff(income: nat, work: Pos, unit: Unit, parcel: Parcel, o: Oracles)
    requires SqrtSound(o.sqrt)
    ensures Desirability(income, work, unit, parcel, o) == 0.0
        <==> !Affordable(income, unit) || Amenities(work, unit, parcel, o) == 0.0
  {
    if Affordable(income, unit) {
      AffordableScoreSign(income, work, unit, parcel, o);
    }
  }

  /** On the integer grid the commute term lies in (0, 1], and it is 1
      exactly when the unit is at the workplace or one step from it. */
  lemma {:induction false} CommuteOnGrid(work: Pos, at: Pos, sqrt: real -> real)
    requires SqrtSound(sqrt)
    ensures var c := Commute(Distance(work, at, sqrt));
            && 0.0 < c <= 1.0
            && (c == 1.0 <==> SquaredDistance(work, at) <= 1)
  {
    var s := SquaredDistance(work, at) as real;
    var d := Distance(work, at, sqrt);
    assert d >= 0.0 && d * d == s;
    if s == 0.0 {
      assert d == 0.0;
    } else {
      assert s >= 1.0;
      if d < 1.0 {
        assert false;
      }
      if s == 1.0 {
        if d > 1.0 {
          assert false;
        }
        assert d == 1.0;
      } else {
        assert s >= 2.0;
        assert d > 1.0;
        assert 1.0 / d < 1.0;
      }
    }
  }

  /** Away from the workplace the commute term falls strictly as distance grows. */
  lemma CommuteDecreasing(d1: real, d2: real)
    requires 0.0 < d1 < d2
    ensures Commute(d1) > Commute(d2) > 0.0
  {
    assert 1.0 / d1 > 1.0 / d2 by {
      assert (1.0 / d1) * d1 == 1.0;
      assert (1.0 / d2) * d2 == 1.0;
      assert (1.0 / d2) * d1 < (1.0 / d2) * d2;
    }
  }

  /** For an affordable unit, a tenant working farther away (at a positive
      distance) scores it strictly lower: only the commute term depends on
      the workplace, and the ratio scaling it is at least 1. */
  lemma {:induction false} ScoreFallsWithDistance(income: nat, w1: Pos, w2: Pos, unit: Unit, parcel: Parcel, o: Oracles)
    requires SqrtSound(o.sqrt)
    requires Affordable(income, unit)
    requires 0.0 < Distance(w1, unit.pos, o.sqrt) < Distance(w2, unit.pos, o.sqrt)
    ensures Desirability(income, w1, unit, parcel, o) > Desirability(income, w2, unit, parcel, o)
  {
    RatioAtLeastOne(income, unit, o);
    var d1, d2 := Distance(w1, unit.pos, o.sqrt), Distance(w2, unit.pos, o.sqrt);
    CommuteDecreasing(d1, d2);
    ScaledGap(Ratio(income, unit, o), Surroundings(unit, parcel, o), Commute(d1), Commute(d2));
  }

  /** With a sound square root an affordable unit's ratio is at least 1. */
  lemma RatioAtLeastOne(income: nat, unit: Unit, o: Oracles)
    requires SqrtSound(o.sqrt)
    requires Affordable(income, unit)
    ensures Ratio(income, unit, o) >= 1.0
  {
    var p := RentPerTenant(unit.rent, |unit.tenants|) as real;
    QuotientAtLeastOne(income as real, p);
    RootAtLeastOne(income as real / p, o.sqrt);
  }

  /** Scaling by a ratio of at least 1 keeps a strict gap between two bundles
      that differ only in one term. */
  lemma ScaledGap(s: real, base: real, c1: real, c2: real)
    requires s >= 1.0 && c1 > c2
    ensures s * (base + c1) > s * (base + c2)
  {
    assert s * (base + c1) - s * (base + c2) == s * (c1 - c2);
    assert s * (c1 - c2) >= 1.0 * (c1 - c2);
  }

  /** A tenant scoring the unit it already lives in is counted twice (it is in
      `tenants` and is added again), so a sole occupant passes the gate until
      the rent reaches twice its income plus 2, not its income plus 1. */
  lemma SoleOccupantCountedTwice(income: nat, id: nat, unit: Unit)
    requires unit.tenants == {id}
    requires income >= 1
    ensures Affordable(income, unit) <==> unit.rent < 2 * (income + 1)
  {
    assert |unit.tenants| == 1;
  }
}
