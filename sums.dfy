/**
 The sum of the values of a map, which is what Python's
 `sum(d.values())` computes over a dictionary row.
 */
module Sums {

  ghost function Sum<K>(m: map<K, real>): real
    decreases |m|
  {
    if |m| == 0 then 0.0
    else
      var k :| k in m;
      m[k] + Sum(m - {k})
  }

  lemma {:induction false} CardRemove<K>(m: map<K, real>, k: K)
    requires k in m
    ensures |m - {k}| == |m| - 1
  {
  }

  /** The sum does not depend on which key is taken out first. */
  lemma {:induction false} SumRemove<K>(m: map<K, real>, k: K)
    requires k in m
    ensures Sum(m) == m[k] + Sum(m - {k})
    decreases |m|
  {
    var j :| j in m && Sum(m) == m[j] + Sum(m - {j});
    if j != k {
      var mj, mk := m - {j}, m - {k};
      CardRemove(m, j);
      CardRemove(m, k);
      assert k in mj && j in mk;
      assert mk - {j} == mj - {k};
      SumRemove(mj, k);
      SumRemove(mk, j);
    }
  }

  lemma {:induction false} SumInsert<K>(m: map<K, real>, k: K, v: real)
    requires k !in m
    ensures Sum(m[k := v]) == Sum(m) + v
  {
    SumRemove(m[k := v], k);
    assert m[k := v] - {k} == m;
  }

  lemma {:induction false} SumUpdate<K>(m: map<K, real>, k: K, v: real)
    requires k in m
    ensures Sum(m[k := v]) == Sum(m) - m[k] + v
  {
    SumRemove(m[k := v], k);
    SumRemove(m, k);
    assert m[k := v] - {k} == m - {k};
  }

  lemma {:induction false} SumSingleton<K>(k: K, v: real)
    ensures Sum(map[k := v]) == v
  {
    SumInsert(map[], k, v);
  }

  ghost predicate AllPositive<K>(m: map<K, real>)
  {
    forall k :: k in m ==> m[k] > 0.0
  }

  ghost predicate AllNonNegative<K>(m: map<K, real>)
  {
    forall k :: k in m ==> m[k] >= 0.0
  }

  lemma {:induction false} SumNonNegative<K>(m: map<K, real>)
    requires AllNonNegative(m)
    ensures Sum(m) >= 0.0
    decreases |m|
  {
    if |m| > 0 {
      var k :| k in m;
      CardRemove(m, k);
      SumRemove(m, k);
      SumNonNegative(m - {k});
    }
  }

  /** A non-empty row of positive values has a positive total. */
  lemma {:induction false} SumPositive<K>(m: map<K, real>)
    requires AllPositive(m) && |m| > 0
    ensures Sum(m) > 0.0
  {
    var k :| k in m;
    SumRemove(m, k);
    SumNonNegative(m - {k});
  }

  /** No non-negative entry exceeds the total. */
  lemma {:induction false} EntryAtMostSum<K>(m: map<K, real>, k: K)
    requires AllNonNegative(m) && k in m
    ensures m[k] <= Sum(m)
  {
    SumRemove(m, k);
    SumNonNegative(m - {k});
  }

  /** Every value divided by `c`. */
  ghost function Scale<K>(m: map<K, real>, c: real): (r: map<K, real>)
    requires c != 0.0
    ensures r.Keys == m.Keys
  {
    map k | k in m :: m[k] / c
  }

  /** Dividing every value by `c` divides the total by `c`. */
  lemma {:induction false} SumScale<K>(m: map<K, real>, c: real)
    requires c != 0.0
    ensures Sum(Scale(m, c)) == Sum(m) / c
    decreases |m|
  {
    if |m| > 0 {
      var k :| k in m;
      var rest := m - {k};
      var scaled := Scale(m, c);
      CardRemove(m, k);
      SumRemove(m, k);
      SumRemove(scaled, k);
      ScaleRemove(m, c, k);
      SumScale(rest, c);
      var a, b := m[k], Sum(rest);
      assert Sum(scaled) == a / c + b / c;
      DivideSum(a, b, c);
      assert Sum(m) == a + b;
    }
  }

  lemma {:induction false} ScaleRemove<K>(m: map<K, real>, c: real, k: K)
    requires c != 0.0 && k in m
    ensures Scale(m, c) - {k} == Scale(m - {k}, c)
  {
  }

  lemma {:induction false} DivideSum(a: real, b: real, c: real)
    requires c != 0.0
    ensures a / c + b / c == (a + b) / c
  {
    var x, y := a / c, b / c;
    assert x * c == a && y * c == b;
    assert (x + y) * c == a + b;
  }
}
