/** The vacancy pool: a sequence of unit ids that tenants push onto and
    filter. Pushes do not check membership, so an id may occur several times. */
module Pool {

  /** `retain(|x| x != id)`: drop every copy of `id`, keeping the rest in order. */
  function RemoveAll(pool: seq<nat>, id: nat): seq<nat> {
    if pool == [] then []
    else
      var rest := RemoveAll(pool[1..], id);
      if pool[0] == id then rest else [pool[0]] + rest
  }

  /** `retain` leaves no copy of `id`, keeps every other id's multiplicity,
      shrinks the pool by exactly the copies of `id`, and returns a pool
      without `id` unchanged. */
  lemma {:induction false} RemoveAllCounts(pool: seq<nat>, id: nat)
    ensures var r := RemoveAll(pool, id);
            && id !in r
            && (forall x :: x != id ==> multiset(r)[x] == multiset(pool)[x])
            && |r| == |pool| - multiset(pool)[id]
            && (id !in pool ==> r == pool)
    decreases |pool|
  {
    if pool != [] {
      RemoveAllCounts(pool[1..], id);
      assert pool == [pool[0]] + pool[1..];
    }
  }

  /** One step of `retain`: the head is kept exactly when it differs from
      `id`, in front of the filtered rest. */
  lemma RemoveAllCons(x: nat, rest: seq<nat>, id: nat)
    ensures RemoveAll([x] + rest, id) == (if x == id then [] else [x]) + RemoveAll(rest, id)
  {
    assert ([x] + rest)[0] == x && ([x] + rest)[1..] == rest;
  }

  /** `retain` keeps order: filtering a concatenation is the concatenation of
      the filtered parts. With `RemoveAllCons` this fixes the result as the
      order-preserving filter. */
  lemma {:induction false} RemoveAllKeepsOrder(a: seq<nat>, b: seq<nat>, id: nat)
    ensures RemoveAll(a + b, id) == RemoveAll(a, id) + RemoveAll(b, id)
    decreases |a|
  {
    if a == [] {
      assert a + b == b;
    } else {
      var h, t := a[0], a[1..];
      var keep: seq<nat> := if h == id then [] else [h];
      assert a == [h] + t;
      assert a + b == [h] + (t + b);
      RemoveAllCons(h, t + b, id);
      RemoveAllCons(h, t, id);
      RemoveAllKeepsOrder(t, b, id);
      assert keep + (RemoveAll(t, id) + RemoveAll(b, id)) == (keep + RemoveAll(t, id)) + RemoveAll(b, id);
    }
  }
}
