/** Sums over the values of a finite map. */
module Sums {

  ghost function Pick<T>(a: set<T>): (x: T)
    requires a != {}
    ensures x in a
  {
    var x :| x in a; x
  }

  ghost function Sum<K, V>(f: V -> nat, m: map<K, V>): nat
    decreases |m|
  {
    if m.Keys == {} then 0
    else
      var k := Pick(m.Keys);
      f(m[k]) + Sum(f, m - {k})
  }

  lemma {:induction false} SumWithout<K, V>(f: V -> nat, m: map<K, V>, k: K)
    requires k in m
    ensures Sum(f, m) == f(m[k]) + Sum(f, m - {k})
    decreases |m|
  {
    var j := Pick(m.Keys);
    if j != k {
      var a, b := m - {j}, m - {k};
      SumWithout(f, a, k);
      SumWithout(f, b, j);
      assert a - {k} == b - {j};
      assert a[k] == m[k] && b[j] == m[j];
    }
  }

  lemma SumUpdate<K, V>(f: V -> nat, m: map<K, V>, k: K, v: V)
    ensures Sum(f, m[k := v]) == Sum(f, m) + f(v) - if k in m then f(m[k]) else 0
  {
    SumWithout(f, m[k := v], k);
    assert m[k := v] - {k} == m - {k};
    if k in m {
      SumWithout(f, m, k);
    } else {
      assert m - {k} == m;
    }
  }

  lemma {:induction false} SumPositive<K, V>(f: V -> nat, m: map<K, V>)
    requires Sum(f, m) > 0
    ensures exists k | k in m :: f(m[k]) > 0
    decreases |m|
  {
    var k := Pick(m.Keys);
    if f(m[k]) == 0 {
      SumPositive(f, m - {k});
      var j :| j in m - {k} && f((m - {k})[j]) > 0;
      assert j in m && f(m[j]) > 0;
    }
  }

  lemma SumAtLeast<K, V>(f: V -> nat, m: map<K, V>, k: K)
    requires k in m
    ensures f(m[k]) <= Sum(f, m)
  {
    SumWithout(f, m, k);
  }

  lemma {:induction false} SumPointwise<K, V>(f: V -> nat, m: map<K, V>, m': map<K, V>)
    requires m.Keys == m'.Keys && forall k | k in m :: f(m[k]) == f(m'[k])
    ensures Sum(f, m) == Sum(f, m')
    decreases |m|
  {
    if m.Keys != {} {
      var k := Pick(m.Keys);
      SumPointwise(f, m - {k}, m' - {k});
      SumWithout(f, m, k);
      SumWithout(f, m', k);
    }
  }
}
