# doma.play agent core in Dafny

A model of the agent decision logic of the doma.play housing-market
simulation (`src/agent.rs`), with proofs about it. Two kinds of agents act
once per simulated month on a shared city:

- **Tenants** score housing units with a desirability function. The function
  is an integer affordability gate in front of an amenity bundle scaled by
  the square root of income over rent share. A tenant reviews its current
  unit at lease boundaries, or when the unit has become unaffordable. It
  searches a random sample of at most 30 ids from the shared vacancy pool,
  and keeps the first best unit with a free slot. At a lease anniversary the
  home is not scored, so a housed tenant moves for any best score above the
  moving penalty of 10, however well its home scores. A tenant that has just
  left an unaffordable unit also needs a best score above 10. An unhoused
  tenant has no penalty and a current score of -1, so it moves to any unit
  with a positive score.
- **Landlords** track a rent history per neighbourhood. Each month they
  observe the highest rent per area among their own occupied units and a
  sample of 10 units of the neighbourhood. Once a year of history exists,
  they fit a least-squares line to the last 12 observations. They then
  apply the upkeep rules to the units they own:
  - condition decays and is maintained, clamped to [0, 1];
  - a vacant unit loses 2% of its rent (rounded down) on every second
    vacant month;
  - an occupied unit gains 5% (rounded up) at each lease anniversary.

Every step is a pure function. The random draws are inputs to it:
- the tenant's sample of the pool;
- the landlord's per-neighbourhood samples;
- the per-unit decay draws in [0, 1).

`Cities.ValidSample` states what the sampler can return: `min(size, |from|)`
elements taken from distinct positions of `from`.

Files and modules:

- `cities.dfy` (`Cities`): unit, parcel and city records; grid distance;
  the sampler contract. It also holds the `Oracles` record of functions the
  agents call but do not define: `vacancies`, `rent_per_area`, the square
  root and the 1/32 power.
- `lease.dfy` (`Lease`): the year-long lease boundary test.
- `scoring.dfy` (`Scoring`): `Tenant::desirability`.
- `pool.dfy` (`Pool`): the vacancy pool's `retain`.
- `tenants.dfy` (`Tenants`): `Tenant::step`, split into the review of the
  current housing, the best-candidate fold and the move.
- `upkeep.dfy` (`Upkeep`): the maintenance and rent loops of `Landlord::step`.
- `regression.dfy` (`Regression`): the least-squares line in closed form.
- `landlords.dfy` (`Landlords`): `Landlord::new`, `estimate_rents`,
  `estimate_trends` and `Landlord::step`.

The constants of `src/agent.rs:9-14` appear as:

| constant | Dafny name | value |
|---|---|---|
| `MIN_AREA` | `Scoring.MinArea` | 50 |
| `SAMPLE_SIZE` | `Landlords.SampleSize` | 10 |
| `TENANT_SAMPLE_SIZE` | `Tenants.TenantSampleSize` | 30 |
| `TREND_MONTHS` | `Landlords.TrendMonths` | 12 |
| `MOVING_PENALTY` | `Tenants.MovingPenalty` | 10 |

`RENT_INCREASE_RATE` (1.05) is the 105/100 in `Upkeep.RaisedRent`.

## Where the code departs from the expected behaviour

The model follows the code in each of these cases.

- **A forced vacate still pays the moving penalty.** A housed tenant whose
  unit now scores exactly 0 leaves it (the comment at `src/agent.rs:54-56`:
  the current place is no longer affordable). One would expect the search
  that follows to run without the moving penalty, as the comment at
  `src/agent.rs:45-47` says of the unhoused case. In the code, only the
  unhoused arm resets the penalty, so it stays at 10. The current score
  counts as 0. The tenant therefore moves only for a best score above 10
  (`Tenants.ForcedVacate`).
- **At a lease anniversary the home is not compared.** One would expect a
  housed tenant to move only for a unit that beats its home by more than the
  moving penalty: the move test compares against `current_desirability`, and
  the comment at `src/agent.rs:54-56` speaks of the current place. At a
  lease boundary, though, the home is not scored (`src/agent.rs:64-65`), so
  the current score keeps its initial 0 (`src/agent.rs:40`). The test is
  then `best - 10 > 0`, and the tenant leaves for any sampled unit scoring
  above 10, even one far below its home (`Tenants.LeaseBoundarySearch`).
- **Commute is maximal at distance 1 too.** One would expect the commute
  term to be maximal only at the workplace. On the integer grid, distance 1
  also gives `1/1 = 1`. `Scoring.CommuteOnGrid` proves the term is 1
  exactly when the squared distance is at most 1. It strictly decreases
  beyond that (`Scoring.CommuteDecreasing`), and so does the whole score of
  an affordable unit (`Scoring.ScoreFallsWithDistance`).
- **A tenant scoring its own unit is counted twice.** The occupant count is
  `tenants.len() + 1`. For the tenant's own unit, the tenant is already in
  `tenants`. The commented-out line 120 uses a set union with the tenant,
  which would not double-count. A sole occupant therefore stays until the
  rent reaches `2·(income+1)` (`Scoring.SoleOccupantCountedTwice`).
- **The vacancy pool is not kept consistent with occupancy.** One would
  expect a unit id to be pooled exactly while the unit has a free slot.
  Ids are pushed without a membership check, both on a forced vacate and
  on a move, so duplicates arise. Only a unit that fills up has its copies
  removed. That consistency is therefore not stated. What is proved instead
  is exactly what each step does to the pool (`Tenants.ForcedVacate`,
  `Tenants.MoveEffects`).
- **A failed line fit is not reported.** The code unwraps the fitting
  crate's result instead of reporting a failure. With 12 positions the fit
  cannot fail in exact arithmetic (`Regression.SpreadPositive`).
- **The landlord's lease subtraction is unchecked.** It computes
  `month - lease_month` without a check, while the tenant saturates at 0.
  The landlord step therefore requires `leaseMonth <= month` for every
  occupied owned unit (`Upkeep.Manageable`).

## Model

| member | source | states |
|---|---|---|
| Cities.SquaredDistance | src/agent.rs:16-18 | The squared grid distance is 0 exactly when the two positions coincide. |
| Cities.SampleDrawnFrom | src/agent.rs:79-80 | Every element of a `choose_multiple` sample is an element of the sequence sampled from. A non-empty source and positive size give a non-empty sample. |
| Lease.Elapsed | src/agent.rs:59-63 | The tenant's elapsed months are 0 when the lease month is not in the past. Otherwise they are exactly the difference. |
| Lease.BoundaryMonths | src/agent.rs:58-64 | A lease signed at month `m` is up for reconsideration exactly at months `m + 12k` with k ≥ 1, and at no other month. |
| Lease.FirstYears | src/agent.rs:64 | A lease from month 0 is not up at months 0 and 6. It is up at 12, 24 and 36. |
| Scoring.RentPerTenant | src/agent.rs:121-123 | The rent share is at least 1. With the current occupants plus the candidate as divisor, it is the truncated quotient whenever that quotient is at least 1. |
| Scoring.Desirability | src/agent.rs:116-137 | A unit whose rent share exceeds the income scores exactly 0. |
| Scoring.AffordableScoreSign | src/agent.rs:124-136 | Given a sound square root, an affordable unit's ratio is at least 1. Its score has the sign of the amenity bundle, and is at least the bundle when the bundle is non-negative. |
| Scoring.ZeroScoreIff | src/agent.rs:116-137 | Given a sound square root, the score is exactly 0 iff the unit is unaffordable or its amenity bundle is 0. |
| Scoring.CommuteOnGrid | src/agent.rs:129-134 | On the integer grid the commute term lies in (0, 1]. It equals 1 exactly when the unit is at most one step from work. |
| Scoring.CommuteDecreasing | src/agent.rs:129-134 | Away from the workplace the commute term is positive and falls strictly as distance grows. |
| Scoring.ScoreFallsWithDistance | src/agent.rs:124-136 | Given a sound square root, an affordable unit scores strictly lower for a tenant working farther away, at any positive distance. |
| Scoring.SoleOccupantCountedTwice | src/agent.rs:121-125 | For a tenant with positive income alone in its own unit, the gate passes iff rent < 2·(income+1), because the tenant is counted twice. |
| Pool.RemoveAllCounts | src/agent.rs:108-110 | `retain` leaves no copy of the id. It keeps every other id's multiplicity and removes exactly the id's copies. A pool without the id is returned unchanged. |
| Pool.RemoveAllKeepsOrder | src/agent.rs:108-110 | `retain` keeps order: the filter of a concatenation is the concatenation of the filtered parts, and with `RemoveAllCons` a single id is kept exactly when it differs from the removed one. |
| Tenants.ReviewHousing | src/agent.rs:44-77 | An unhoused tenant reconsiders with current score -1 and no penalty. A housed tenant has penalty 10. Without reconsidering, nothing changes. Only occupant sets and the tenant's unit can change. |
| Tenants.ReconsiderRule | src/agent.rs:58-69 | A housed tenant reconsiders iff its lease is at a boundary or its unit scores exactly 0. |
| Tenants.StaysWhenContent | src/agent.rs:64-78 | Off a lease boundary, with a current score other than 0, the step changes neither the tenant, nor any unit, nor the pool. |
| Tenants.UnhousedSearch | src/agent.rs:45-52 | An unhoused tenant searches iff the pool is non-empty. It moves iff the best sampled score is positive. Whenever it does not move, the tenant, the units and the pool are unchanged. |
| Tenants.LeaseBoundarySearch | src/agent.rs:58-64 | At a lease boundary the current unit is not scored. The tenant moves iff the pool is non-empty and the best score exceeds 10. Otherwise nothing changes. |
| Tenants.ForcedVacate | src/agent.rs:64-74 | A unit scoring 0 off a boundary is vacated: the tenant leaves its occupants, its id is appended to the pool once more, and the tenant is unhoused. The penalty stays 10 and the current score is 0, so a move needs a best score above 10. Without a move the step returns the unhoused tenant, the units with the tenant removed from that unit, and the pool with the id pushed. |
| Tenants.BestOf | src/agent.rs:80-92 | The fold never lowers the accumulator's score. Its result is the start value or a sampled id. |
| Tenants.BestOfIsFirstMaximum | src/agent.rs:80-92 | No sampled unit with a free slot scores above the result. A result above the start is the first sampled unit with a free slot reaching that maximum. Otherwise the start value comes back. |
| Tenants.BestFromZero | src/agent.rs:80-93 | Starting from `(0, 0)` the best score is non-negative. A positive best is a sampled unit with a free slot and that exact score, and no eligible sampled unit beats it. |
| Tenants.Move | src/agent.rs:95-111 | A move assigns the tenant to the chosen unit and changes only occupant sets. |
| Tenants.ReviewedSampleLocatable | src/agent.rs:78-83 | When the tenant searches, every sampled id can still be looked up with its parcel after the review, since the review changes only occupant sets. |
| Tenants.Step | src/agent.rs:37-114 | The step keeps the set of units, changes only occupant sets among unit records, and changes only the tenant's unit assignment. |
| Tenants.MoveChoice | src/agent.rs:80-95 | On a move the chosen id was sampled, is in the pool, exists, has a free slot and carries the best score, which is positive. |
| Tenants.MoveRecords | src/agent.rs:95-111 | A move adds the tenant to the chosen unit, removes it from a different unit it still holds, pushes that unit's id once, removes every copy of the chosen id exactly when it has no vacancy left, and changes no other unit record. |
| Tenants.MoveEffects | src/agent.rs:44-111 | Over the whole step, a move assigns the tenant to the chosen unit, which gains it as an occupant. A different former unit loses exactly that tenant from its occupants, and no other unit changes. The pool is the start pool with the former unit pushed. All copies of the chosen id are removed iff it has no vacancy left. |
| Upkeep.Maintained | src/agent.rs:179-185 | After maintenance a unit's condition lies in [0, 1] and nothing else about it changes. |
| Upkeep.DiscountedRent | src/agent.rs:193 | The 2% cut is `floor(rent·0.98)` exactly, never raises the rent, and strictly lowers any positive rent. |
| Upkeep.RaisedRent | src/agent.rs:203 | The 5% rise is `ceil(rent·1.05)` exactly, never lowers the rent, and strictly raises any positive rent. |
| Upkeep.RentExamples | src/agent.rs:189-203 | 100 becomes 98 after a cut and 105 after a rise. 49 becomes 48, and 1 becomes 2. |
| Upkeep.Managed | src/agent.rs:188-205 | A vacant unit counts one more vacant month and never gains rent. It takes the floored 2% cut exactly when the new count is even. An occupied unit keeps its counter and takes the ceiled 5% rise exactly at a lease boundary. |
| Upkeep.MaintainAll | src/agent.rs:179-185 | The maintenance loop changes only conditions of owned units, and leaves every owned unit's condition in [0, 1]. |
| Upkeep.MaintainAllDistinct | src/agent.rs:179-185 | With each unit owned once, an owned unit's condition is its own clamped update with its own decay draw. |
| Upkeep.ManageAll | src/agent.rs:188-206 | The rent loop changes only rent and vacancy counters, and only of owned units. |
| Upkeep.ManageAllDistinct | src/agent.rs:188-206 | With each unit owned once, an owned unit gets exactly its own rent rules. |
| Upkeep.ManageAllDirections | src/agent.rs:188-206 | Over the loop, a vacant unit gains one vacant month per listing and its rent never rises. An occupied unit keeps its counter and its rent never falls. |
| Regression.SpreadPositive | src/agent.rs:244-246 | The x-spread of positions 0..n-1 is n(n²-1)/12, positive from two points on, so the fit over a 12-month window always exists. |
| Regression.FitLineSums | src/agent.rs:244-247 | The fitted line satisfies the least-squares normal equations Σy = a·Σx + b·n and Σxy = a·Σx² + b·Σx over positions x = 0..n-1. |
| Regression.FitLineUnique | src/agent.rs:244-247 | Any line satisfying those normal equations is the fitted line. |
| Regression.FitLineCharacterised | src/agent.rs:244-247 | A line is the fitted line iff it satisfies the normal equations. |
| Regression.OnLineSums | src/agent.rs:244-247 | Points lying exactly on a line satisfy that line's normal equations. |
| Landlords.New | src/agent.rs:151-169 | A new landlord tracks exactly the listed neighbourhoods, each with an empty history and zero estimates. It has no units and maintenance 0.1. |
| Landlords.BucketContents | src/agent.rs:215-227 | A neighbourhood's bucket holds exactly the rents per area of the owned occupied units whose parcel is in that neighbourhood. |
| Landlords.SampledRents | src/agent.rs:232-234 | The sampled rents are the sampled units' rents per area, in sample order. |
| Landlords.MaxFrom | src/agent.rs:236 | The fold of max from `init` is at least `init` and every element, and is `init` or one of the elements. |
| Landlords.EstimateRents | src/agent.rs:213-239 | Rent estimation keeps the tracked neighbourhoods and changes nothing but the histories. |
| Landlords.EstimateRentsAppendsOne | src/agent.rs:230-237 | Each history gains exactly one entry and keeps its prefix. The entry is at least -1 and at least every own and sampled observation, and it is -1 or one of them. |
| Landlords.NothingObservedIsMinusOne | src/agent.rs:230-237 | With no contributing own unit and an empty neighbourhood index, the observation is -1. |
| Landlords.EstimateTrends | src/agent.rs:241-254 | Trend estimation changes only the two estimate maps. It adds exactly the neighbourhoods with a year of history. |
| Landlords.TrendsWaitForAYear | src/agent.rs:243-252 | A neighbourhood with less than a year of history keeps its estimates, present or absent, unchanged. |
| Landlords.TrendIsLeastSquares | src/agent.rs:243-250 | With a year of history, the trend estimate is the least-squares line of the last 12 observations taken at 12, and the investment estimate is that trend minus the latest observation. |
| Landlords.TrendOnLinearYear | src/agent.rs:244-250 | If the last 12 observations lie on a line, the trend is that line's value at 12 and the investment estimate is its slope. |
| Landlords.TrendExample | src/agent.rs:244-250 | The history 10, 11, …, 21 gives trend 22 and investment 1. |
| Landlords.Step | src/agent.rs:171-211 | The landlord step keeps the set of units. It changes only condition, rent and vacancy counter, and only of owned units. Owned conditions end in [0, 1]. Each history grows by exactly one, and no landlord field other than the histories and the two estimate maps changes. |
| Landlords.StepOwnedUnit | src/agent.rs:171-206 | With each unit owned once, an owned unit ends as its rent rules applied to its maintained record. The landlord ends as the rent observation followed by the trend fit. |

## Left out

- `src/main.rs` (configuration, the simulation driver, player sync, statistics, file output) and `plot.py` are not part of this model. They are I/O and process lifecycle.
- The city and grid modules are not part of this model. Units and parcels are map entries. `Unit::vacancies` and `Unit::rent_per_area` are abstract functions of the unit record in `Oracles`. The unit's capacity (`occupancy`) is carried, since `vacancies` depends on it. Unit fields that neither the agents nor `vacancies` and `rent_per_area` need (id, owner, and the like) are omitted.
- Randomness (`thread_rng`, `choose_multiple`, `gen`) is replaced by input samples and decay draws. Their admissible values are stated as preconditions, not their distribution.
- Floating point: scores and regression are computed over exact reals. The square root and the 1/32 power are the uninterpreted `Oracles.sqrt` and `Oracles.root32`, and the distance goes through `Oracles.sqrt`. f32 rounding, NaN and infinities are not modelled.
- Upkeep.DiscountedRent: computed in exact integers. The source's f32 product `rent as f32 * 0.98` carries the representation error of 0.98; under IEEE single-precision round-to-nearest, its floor first differs at rent 267,501 (262,151 instead of 262,150).
- Upkeep.RaisedRent: computed in exact integers. Under the same f32 rounding, the ceiling of `rent as f32 * 1.05` first differs at rent 499,341 (524,308 instead of 524,309).
- Regression.FitLineCharacterised: the least-squares line is the closed form over reals. The fitting crate's own algorithm and its error result are not part of this model. Its `unwrap` becomes the precondition of at least two points, which the 12-month window always meets.
- Scoring.AffordableScoreSign: the score is not claimed to be positive. Parcel desirability may be negative, and the sign holds only for a sound square root oracle.
- Tenants.Step: indexing a missing unit or parcel panics in the source. The model requires the lookups the step actually makes to succeed (`Tenants.StepReady`): the current unit, its parcel when it is scored, and each sampled id and its parcel when the tenant searches. The panic itself is not modelled.
- Landlords.Step: the landlord's unchecked lease subtraction becomes the requirement `leaseMonth <= month` for occupied owned units. Lookups of missing units, parcels or neighbourhood index entries are required to succeed.
- The tenant's history of previously occupied units is carried in `Tenants.Tenant.history` but never written, as in the source. The unused `moved` flag and `AgentType` are omitted.
- A move does not reset the new unit's lease month, as in the source; the model carries it unchanged.
- Purchase and sale offers and DOMA-adjusted rent are unimplemented TODOs in the source (lines 117-120 and 209-210) and are not modelled.
- The landlord's `HashMap` iteration order is not modelled. Each neighbourhood is updated independently, so the order does not affect the result.
