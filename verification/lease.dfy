/** Year-long leases: both agents act when a whole number of years (at least
    one) has passed since the unit's lease month. */
module Lease {

  const MonthsPerLease: nat := 12

  /** Months since the lease month as the tenant computes it: the difference
      saturates at zero when the lease month lies in the future. */
  function Elapsed(month: nat, leaseMonth: nat): (r: nat)
    ensures month <= leaseMonth ==> r == 0
    ensures leaseMonth <= month ==> r + leaseMonth == month
  {
    if month > leaseMonth then month - leaseMonth else 0
  }

  /** A lease boundary: a positive whole number of lease terms has elapsed. */
  predicate AtBoundary(elapsed: nat) {
    elapsed > 0 && elapsed % MonthsPerLease == 0
  }

  /** The months at which a lease signed at `leaseMonth` comes up for renewal
      are exactly `leaseMonth + 12k` for k >= 1; every other month, before or
      after the lease month, is not a boundary. */
  lemma BoundaryMonths(month: nat, leaseMonth: nat)
    ensures AtBoundary(Elapsed(month, leaseMonth))
        <==> exists k: nat :: k >= 1 && month == leaseMonth + 12 * k
  {
    var e := Elapsed(month, leaseMonth);
    if AtBoundary(e) {
      var k: nat := e / 12;
      assert month == leaseMonth + 12 * k;
    }
    if exists k: nat :: k >= 1 && month == leaseMonth + 12 * k {
      var k: nat :| k >= 1 && month == leaseMonth + 12 * k;
      assert e == 12 * k;
      assert e % 12 == 0;
    }
  }

  /** A lease signed in month 0 is not up for renewal in month 6 but is in
      months 12, 24 and 36. */
  lemma FirstYears()
    ensures !AtBoundary(Elapsed(6, 0))
    ensures AtBoundary(Elapsed(12, 0)) && AtBoundary(Elapsed(24, 0)) && AtBoundary(Elapsed(36, 0))
    ensures !AtBoundary(Elapsed(0, 0))
  {
  }
}
