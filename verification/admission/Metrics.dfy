/** Counters with attributes (internal/metrics/metrics.go): one series per attribute value. */
module Metrics {
  type Counter<K(==)> = map<K, nat>

  /** metric.Int64Counter.Add. */
  function Add<K>(m: Counter<K>, k: K, n: nat): Counter<K> {
    m[k := (if k in m then m[k] else 0) + n]
  }

  /** The sum of all series. */
  ghost function Sum<K>(m: Counter<K>): nat
    decreases |m|
  {
    if m == map[] then 0
    else
      var k :| k in m;
      m[k] + Sum(m - {k})
  }

  /** The series that a query selects. */
  function Select<K>(m: Counter<K>, wanted: K -> bool): Counter<K> {
    map k | k in m && wanted(k) :: m[k]
  }

  lemma {:induction false} SumPick<K>(m: Counter<K>, k: K)
    requires k in m
    ensures Sum(m) == m[k] + Sum(m - {k})
    decreases |m|
  {
    var k' :| k' in m && Sum(m) == m[k'] + Sum(m - {k'});
    if k' != k {
      SumPick(m - {k'}, k);
      SumPick(m - {k}, k');
      assert m - {k'} - {k} == m - {k} - {k'};
    }
  }

  /** Counting raises exactly the selections that contain the series. */
  lemma SumAdd<K>(m: Counter<K>, k: K, n: nat, wanted: K -> bool)
    ensures Sum(Select(Add(m, k, n), wanted)) == Sum(Select(m, wanted)) + if wanted(k) then n else 0
  {
    var s, s' := Select(m, wanted), Select(Add(m, k, n), wanted);
    if wanted(k) {
      assert k in s';
      SumPick(s', k);
      if k in s {
        SumPick(s, k);
        assert s' - {k} == s - {k};
      } else {
        assert s' - {k} == s;
      }
    } else {
      assert s' == s;
    }
  }
}
