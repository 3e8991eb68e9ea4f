/** A landlord's monthly care of its units: condition decay and maintenance,
    then the vacancy discount and the lease-renewal increase.

    Rents are kept as exact integers: `floor(rent * 0.98)` is `rent * 98 / 100`
    and `ceil(rent * 1.05)` is `(rent * 105 + 99) / 100`. */
module Upkeep {
  import opened Cities
  import Lease

  /** The largest condition loss one month of decay can cause. */
  const DecayRate: real := 0.1

  function Clamp01(x: real): (r: real)
    ensures 0.0 <= r <= 1.0
    ensures 0.0 <= x <= 1.0 ==> r == x
    ensures x < 0.0 ==> r == 0.0
    ensures x > 1.0 ==> r == 1.0
  {
    if x < 0.0 then 0.0 else if x > 1.0 then 1.0 else x
  }

  /** `after` agrees with `before` in everything but the condition. */
  predicate ConditionOnly(after: Unit, before: Unit) {
    && after.pos == before.pos && after.rent == before.rent && after.area == before.area
    && after.leaseMonth == before.leaseMonth && after.monthsVacant == before.monthsVacant
    && after.occupancy == before.occupancy && after.tenants == before.tenants
  }

  /** `after` agrees with `before` in everything but the rent and the vacancy
      counter. */
  predicate RentOnly(after: Unit, before: Unit) {
    && after.pos == before.pos && after.area == before.area && after.condition == before.condition
    && after.leaseMonth == before.leaseMonth && after.occupancy == before.occupancy
    && after.tenants == before.tenants
  }

  /** One unit's condition after a month with decay draw `decay` in [0, 1). */
  function Maintained(u: Unit, decay: real, maintenance: real): (r: Unit)
    ensures 0.0 <= r.condition <= 1.0
    ensures ConditionOnly(r, u)
  {
    u.(condition := Clamp01(u.condition - decay * DecayRate + maintenance))
  }

  /** A 2% cut rounded down. */
  function DiscountedRent(rent: nat): (r: nat)
    ensures r * 100 <= rent * 98 < (r + 1) * 100
    ensures r <= rent
    ensures rent > 0 ==> r < rent
  {
    rent * 98 / 100
  }

  /** A 5% rise rounded up. */
  function RaisedRent(rent: nat): (r: nat)
    ensures (r - 1) * 100 < rent * 105 <= r * 100
    ensures r >= rent
    ensures rent > 0 ==> r > rent
  {
    (rent * 105 + 99) / 100
  }

  lemma RentExamples()
    ensures DiscountedRent(100) == 98 && RaisedRent(100) == 105
    ensures DiscountedRent(49) == 48 && RaisedRent(1) == 2
  {
  }

  predicate Occupied(u: Unit) {
    |u.tenants| > 0
  }

  /** The landlord subtracts the lease month from the current month without a
      check, so an occupied unit's lease month must not lie in the future. */
  predicate Manageable(u: Unit, month: nat) {
    Occupied(u) ==> u.leaseMonth <= month
  }

  /** One unit's rent rules for the month. A vacant unit counts one more
      vacant month and takes the 2% cut when the new count is even; an occupied
      unit takes the 5% rise at a lease boundary. Nothing else changes. */
  function Managed(u: Unit, month: nat): (r: Unit)
    requires Manageable(u, month)
    ensures RentOnly(r, u)
    ensures !Occupied(u) ==> r.monthsVacant == u.monthsVacant + 1 && r.rent <= u.rent
    ensures !Occupied(u) && r.monthsVacant % 2 == 0 ==> r.rent * 100 <= u.rent * 98 < (r.rent + 1) * 100
    ensures !Occupied(u) && r.monthsVacant % 2 != 0 ==> r.rent == u.rent
    ensures Occupied(u) ==> r.monthsVacant == u.monthsVacant && r.rent >= u.rent
    ensures Occupied(u) && Lease.AtBoundary(month - u.leaseMonth) ==> (r.rent - 1) * 100 < u.rent * 105 <= r.rent * 100
    ensures Occupied(u) && !Lease.AtBoundary(month - u.leaseMonth) ==> r.rent == u.rent
  {
    if !Occupied(u) then
      var vacant := u.monthsVacant + 1;
      u.(monthsVacant := vacant, rent := if vacant % 2 == 0 then DiscountedRent(u.rent) else u.rent)
    else
      var elapsed := month - u.leaseMonth;
      if Lease.AtBoundary(elapsed) then u.(rent := RaisedRent(u.rent))
      else u
  }

  /** The maintenance loop over the owned units, in order, with one decay draw
      per entry. Only conditions change, only of owned units, and every owned
      unit ends with a condition in [0, 1]. */
  function MaintainAll(units: map<nat, Unit>, ids: seq<nat>, decays: seq<real>, maintenance: real): (r: map<nat, Unit>)
    requires |decays| == |ids|
    requires forall i :: 0 <= i < |ids| ==> ids[i] in units
    ensures r.Keys == units.Keys
    ensures forall k :: k in r && k !in ids ==> r[k] == units[k]
    ensures forall k :: k in r ==> ConditionOnly(r[k], units[k])
    ensures forall i :: 0 <= i < |ids| ==> 0.0 <= r[ids[i]].condition <= 1.0
    decreases |ids|
  {
    if ids == [] then units
    else
      var k := ids[0];
      var units' := units[k := Maintained(units[k], decays[0], maintenance)];
      var r := MaintainAll(units', ids[1..], decays[1..], maintenance);
      assert forall i :: 1 <= i < |ids| ==> ids[i] == ids[1..][i - 1];
      r
  }

  /** With each unit listed once, each owned unit's condition is exactly its
      own clamped update. */
  lemma {:induction false} MaintainAllDistinct(units: map<nat, Unit>, ids: seq<nat>, decays: seq<real>, maintenance: real, i: nat)
    requires |decays| == |ids|
    requires forall j :: 0 <= j < |ids| ==> ids[j] in units
    requires forall a, b :: 0 <= a < b < |ids| ==> ids[a] != ids[b]
    requires i < |ids|
    ensures MaintainAll(units, ids, decays, maintenance)[ids[i]]
         == Maintained(units[ids[i]], decays[i], maintenance)
    decreases |ids|
  {
    var k := ids[0];
    var units' := units[k := Maintained(units[k], decays[0], maintenance)];
    if i == 0 {
      assert k !in ids[1..];
    } else {
      assert ids[i] != k;
      MaintainAllDistinct(units', ids[1..], decays[1..], maintenance, i - 1);
    }
  }

  /** Maintenance touches only conditions, so units the rent loop may
      manage stay manageable after it. */
  lemma MaintainedManageable(units: map<nat, Unit>, ids: seq<nat>, decays: seq<real>, maintenance: real, month: nat)
    requires |decays| == |ids|
    requires forall i :: 0 <= i < |ids| ==> ids[i] in units && Manageable(units[ids[i]], month)
    ensures var r := MaintainAll(units, ids, decays, maintenance);
            forall i :: 0 <= i < |ids| ==> ids[i] in r && Manageable(r[ids[i]], month)
  {
    var r := MaintainAll(units, ids, decays, maintenance);
    forall i | 0 <= i < |ids|
      ensures ids[i] in r && Manageable(r[ids[i]], month)
    {
      assert ConditionOnly(r[ids[i]], units[ids[i]]);
    }
  }

  /** The rent loop over the owned units, in order. Only rent and the vacancy
      counter change, and only of owned units. */
  function ManageAll(units: map<nat, Unit>, ids: seq<nat>, month: nat): (r: map<nat, Unit>)
    requires forall i :: 0 <= i < |ids| ==> ids[i] in units && Manageable(units[ids[i]], month)
    ensures r.Keys == units.Keys
    ensures forall k :: k in r && k !in ids ==> r[k] == units[k]
    ensures forall k :: k in r ==> RentOnly(r[k], units[k])
    decreases |ids|
  {
    if ids == [] then units
    else
      var k := ids[0];
      var units' := units[k := Managed(units[k], month)];
      assert forall j :: j in units' ==> RentOnly(units'[j], units[j]);
      assert forall i :: 1 <= i < |ids| ==> ids[i] == ids[1..][i - 1];
      ManageAll(units', ids[1..], month)
  }

  /** With each unit listed once, each owned unit gets exactly its own rent
      rules. */
  lemma {:induction false} ManageAllDistinct(units: map<nat, Unit>, ids: seq<nat>, month: nat, i: nat)
    requires forall j :: 0 <= j < |ids| ==> ids[j] in units && Manageable(units[ids[j]], month)
    requires forall a, b :: 0 <= a < b < |ids| ==> ids[a] != ids[b]
    requires i < |ids|
    ensures ManageAll(units, ids, month)[ids[i]] == Managed(units[ids[i]], month)
    decreases |ids|
  {
    var k := ids[0];
    var units' := units[k := Managed(units[k], month)];
    assert forall j :: j in units' ==> RentOnly(units'[j], units[j]);
    if i == 0 {
      assert k !in ids[1..];
    } else {
      assert ids[i] != k;
      ManageAllDistinct(units', ids[1..], month, i - 1);
    }
  }

  /** One turn of the rent loop: the head unit gets its rent rules, the rest
      of the list is still manageable, and the loop continues on the rest. */
  lemma ManageHead(units: map<nat, Unit>, ids: seq<nat>, month: nat)
    requires forall i :: 0 <= i < |ids| ==> ids[i] in units && Manageable(units[ids[i]], month)
    requires ids != []
    ensures var units' := units[ids[0] := Managed(units[ids[0]], month)];
            && (forall j :: j in units' ==> RentOnly(units'[j], units[j]))
            && (forall i :: 0 <= i < |ids[1..]| ==> ids[1..][i] in units' && Manageable(units'[ids[1..][i]], month))
            && ManageAll(units, ids, month) == ManageAll(units', ids[1..], month)
            && multiset(ids) == multiset{ids[0]} + multiset(ids[1..])
  {
    assert ids == [ids[0]] + ids[1..];
  }

  /** Over the whole rent loop, a vacant unit gains one vacant month per
      listing and its rent never rises. */
  lemma {:induction false} ManageAllVacant(units: map<nat, Unit>, ids: seq<nat>, month: nat, k: nat)
    requires forall i :: 0 <= i < |ids| ==> ids[i] in units && Manageable(units[ids[i]], month)
    requires k in units && !Occupied(units[k])
    ensures var r := ManageAll(units, ids, month);
            r[k].monthsVacant == units[k].monthsVacant + multiset(ids)[k] && r[k].rent <= units[k].rent
    decreases |ids|
  {
    if ids != [] {
      var h := ids[0];
      var units' := units[h := Managed(units[h], month)];
      ManageHead(units, ids, month);
      ManageAllVacant(units', ids[1..], month, k);
    }
  }

  /** Over the whole rent loop, an occupied unit keeps its vacancy counter and
      its rent never falls. */
  lemma {:induction false} ManageAllOccupied(units: map<nat, Unit>, ids: seq<nat>, month: nat, k: nat)
    requires forall i :: 0 <= i < |ids| ==> ids[i] in units && Manageable(units[ids[i]], month)
    requires k in units && Occupied(units[k])
    ensures var r := ManageAll(units, ids, month);
            r[k].monthsVacant == units[k].monthsVacant && r[k].rent >= units[k].rent
    decreases |ids|
  {
    if ids != [] {
      var h := ids[0];
      var units' := units[h := Managed(units[h], month)];
      ManageHead(units, ids, month);
      ManageAllOccupied(units', ids[1..], month, k);
    }
  }

  /** Over the whole rent loop, each listing of a vacant unit adds one vacant
      month and its rent never rises; an occupied unit keeps its vacancy
      counter and its rent never falls. */
  lemma ManageAllDirections(units: map<nat, Unit>, ids: seq<nat>, month: nat, k: nat)
    requires forall i :: 0 <= i < |ids| ==> ids[i] in units && Manageable(units[ids[i]], month)
    requires k in units
    ensures var r := ManageAll(units, ids, month);
            && (!Occupied(units[k]) ==>
                  r[k].monthsVacant == units[k].monthsVacant + multiset(ids)[k] && r[k].rent <= units[k].rent)
            && (Occupied(units[k]) ==>
                  r[k].monthsVacant == units[k].monthsVacant && r[k].rent >= units[k].rent)
  {
    if Occupied(units[k]) {
      ManageAllOccupied(units, ids, month, k);
    } else {
      ManageAllVacant(units, ids, month, k);
    }
  }
}
