/** The city records the agents read and write.

    The grid and city storage modules are not part of this model: a unit or
    parcel is a record held in a map, and the two unit helpers the agents call
    (`vacancies` and `rent_per_area`) are abstract functions of the unit
    record, supplied together with the floating-point primitives as an
    `Oracles` value.
 */
module Cities {

  datatype Option<T> = None | Some(value: T)

  /** A grid position: a pair of integer coordinates. */
  datatype Pos = Pos(x: int, y: int)

  /** A rentable unit. `occupancy` is how many tenants it can house and
      `tenants` is the set of occupant tenant ids; the agents never read the
      capacity themselves, only through `vacancies`. */
  datatype Unit = Unit(
    pos: Pos,
    rent: nat,
    area: real,
    condition: real,
    leaseMonth: nat,
    monthsVacant: nat,
    occupancy: nat,
    tenants: set<nat>)

  /** A parcel contributes a location score and an optional neighbourhood. */
  datatype Parcel = Parcel(desirability: real, neighborhood: Option<nat>)

  /** City storage as the agents see it: units by id, parcels by position,
      and the index of all unit ids in each neighbourhood. */
  datatype City = City(
    units: map<nat, Unit>,
    parcels: map<Pos, Parcel>,
    unitsByNeighborhood: map<nat, seq<nat>>)

  /** Functions the agent code calls but whose definitions are outside the
      agent module: the unit helpers and the float square root and 1/32 power. */
  datatype Oracles = Oracles(
    vacancies: Unit -> int,
    rentPerArea: Unit -> real,
    sqrt: real -> real,
    root32: real -> real)

  /** What a correct square root promises, for the lemmas that need it. */
  ghost predicate SqrtSound(sqrt: real -> real) {
    forall x: real :: 0.0 <= x ==> 0.0 <= sqrt(x) && sqrt(x) * sqrt(x) == x
  }

  function Min(a: int, b: int): int {
    if a <= b then a else b
  }

  function MaxReal(a: real, b: real): real {
    if a >= b then a else b
  }

  /** Squared Euclidean distance between two grid positions. */
  function SquaredDistance(a: Pos, b: Pos): (r: nat)
    ensures r == 0 <==> a == b
  {
    var dx := a.x - b.x;
    var dy := a.y - b.y;
    assert dx * dx >= 0 && dy * dy >= 0;
    assert dx != 0 ==> dx * dx > 0;
    assert dy != 0 ==> dy * dy > 0;
    dx * dx + dy * dy
  }

  /** Euclidean distance, through the supplied square root. */
  function Distance(a: Pos, b: Pos, sqrt: real -> real): real {
    sqrt(SquaredDistance(a, b) as real)
  }

  /** A unit id can be looked up, and so can the parcel it stands on
      (both lookups panic in the source when the key is missing). */
  predicate Locatable(city: City, id: nat) {
    id in city.units && city.units[id].pos in city.parcels
  }

  predicate AllLocatable(city: City, ids: seq<nat>) {
    forall i :: 0 <= i < |ids| ==> Locatable(city, ids[i])
  }

  /** `sample` is what `choose_multiple(rng, size)` can return from `from`:
      min(size, |from|) elements, taken from distinct positions. */
  predicate ValidSample(sample: seq<nat>, from: seq<nat>, size: nat) {
    |sample| == Min(size, |from|) && multiset(sample) <= multiset(from)
  }

  /** Every sampled element is an element of the sequence sampled from. */
  lemma SampleDrawnFrom(sample: seq<nat>, from: seq<nat>, size: nat)
    requires ValidSample(sample, from, size)
    ensures forall i :: 0 <= i < |sample| ==> sample[i] in from
    ensures |from| > 0 && size > 0 ==> |sample| > 0
  {
    forall i | 0 <= i < |sample|
      ensures sample[i] in from
    {
      assert sample[i] in multiset(sample);
    }
  }
}
