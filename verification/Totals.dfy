/** Sums of an integer attribute over the entries of a finite map: the arithmetic behind every
    balance, escrow and ledger total of the model. */
module Totals {

  ghost function Total<K, V>(m: map<K, V>, f: (K, V) -> int): int
  {
    if m == map[] then 0
    else
      var k :| k in m;
      f(k, m[k]) + Total(m - {k}, f)
  }

  // The entry that `Total` happens to pick does not matter.
  lemma {:induction false} TotalRemove<K, V>(m: map<K, V>, k: K, f: (K, V) -> int)
    requires k in m
    ensures Total(m, f) == f(k, m[k]) + Total(m - {k}, f)
    decreases |m|
  {
    var p :| p in m && Total(m, f) == f(p, m[p]) + Total(m - {p}, f);
    if p != k {
      TotalRemove(m - {p}, k, f);
      TotalRemove(m - {k}, p, f);
      assert m - {p} - {k} == m - {k} - {p};
    }
  }

  // Writing one entry changes the total by the difference at that entry only.
  lemma TotalUpdate<K, V>(m: map<K, V>, k: K, v: V, f: (K, V) -> int)
    ensures Total(m[k := v], f) == Total(m, f) - (if k in m then f(k, m[k]) else 0) + f(k, v)
  {
    TotalRemove(m[k := v], k, f);
    if k in m {
      TotalRemove(m, k, f);
      assert m[k := v] - {k} == m - {k};
    } else {
      assert m[k := v] - {k} == m;
    }
  }

  // A part of a map has the total of the whole map restricted to that part, even when the two maps
  // hold different kinds of records.
  lemma {:induction false} TotalRestrict<K, U, V>(sub: map<K, U>, f: (K, U) -> int, m: map<K, V>, g: (K, V) -> int)
    requires sub.Keys <= m.Keys
    requires forall k :: k in sub ==> f(k, sub[k]) == g(k, m[k])
    requires forall k :: k in m && k !in sub ==> g(k, m[k]) == 0
    ensures Total(sub, f) == Total(m, g)
    decreases |m|
  {
    if m != map[] {
      var k :| k in m;
      TotalRemove(m, k, g);
      if k in sub {
        TotalRemove(sub, k, f);
        TotalRestrict(sub - {k}, f, m - {k}, g);
      } else {
        TotalRestrict(sub, f, m - {k}, g);
      }
    } else {
      assert sub == map[];
    }
  }

  // Totals are linear: an identity between attributes of every entry is one between the totals.
  lemma {:induction false} TotalLinear<K, V>(m: map<K, V>, f: (K, V) -> int, g: (K, V) -> int,
                                             p: (K, V) -> int, q: (K, V) -> int)
    requires forall k :: k in m ==> f(k, m[k]) - g(k, m[k]) == p(k, m[k]) - q(k, m[k])
    ensures Total(m, f) - Total(m, g) == Total(m, p) - Total(m, q)
    decreases |m|
  {
    if m != map[] {
      var k :| k in m;
      TotalRemove(m, k, f);
      TotalRemove(m, k, g);
      TotalRemove(m, k, p);
      TotalRemove(m, k, q);
      TotalLinear(m - {k}, f, g, p, q);
    }
  }

  lemma {:induction false} TotalZero<K, V>(m: map<K, V>, f: (K, V) -> int)
    requires forall k :: k in m ==> f(k, m[k]) == 0
    ensures Total(m, f) == 0
    decreases |m|
  {
    if m != map[] {
      var k :| k in m;
      TotalRemove(m, k, f);
      TotalZero(m - {k}, f);
    }
  }

  // With non-negative entries no single entry exceeds the total.
  lemma {:induction false} TotalBound<K, V>(m: map<K, V>, f: (K, V) -> int)
    requires forall k :: k in m ==> 0 <= f(k, m[k])
    ensures 0 <= Total(m, f)
    ensures forall k :: k in m ==> f(k, m[k]) <= Total(m, f)
    decreases |m|
  {
    if m != map[] {
      forall k | k in m
        ensures 0 <= f(k, m[k]) <= Total(m, f)
      {
        TotalRemove(m, k, f);
        TotalBound(m - {k}, f);
      }
      var k :| k in m;
    }
  }
}
