/** Sums of natural-number weights over finite maps, independent of enumeration order, and sizes of sets. */
module MapSum {
  ghost function Sum<K(!new)>(m: map<K, nat>): nat
  {
    if m == map[] then 0 else
      var k :| k in m;
      m[k] + Sum(m - {k})
  }

  lemma {:induction false} SumRemove<K(!new)>(m: map<K, nat>, k: K)
    requires k in m
    ensures Sum(m) == m[k] + Sum(m - {k})
    decreases |m|
  {
    var j :| j in m && Sum(m) == m[j] + Sum(m - {j});
    if j != k {
      SumRemove(m - {j}, k);
      SumRemove(m - {k}, j);
      assert m - {j} - {k} == m - {k} - {j};
    }
  }

  lemma {:induction false} SumInsert<K(!new)>(m: map<K, nat>, k: K, v: nat)
    requires k !in m
    ensures Sum(m[k := v]) == Sum(m) + v
  {
    SumRemove(m[k := v], k);
    assert m[k := v] - {k} == m;
  }

  lemma {:induction false} SumReplace<K(!new)>(m: map<K, nat>, k: K, v: nat)
    requires k in m
    ensures Sum(m[k := v]) + m[k] == Sum(m) + v
  {
    SumRemove(m, k);
    SumRemove(m[k := v], k);
    assert m[k := v] - {k} == m - {k};
  }

  lemma {:induction false} SumZero<K(!new)>(m: map<K, nat>)
    requires forall k :: k in m ==> m[k] == 0
    ensures Sum(m) == 0
    decreases |m|
  {
    if m == map[] {
    } else {
      var k :| k in m;
      SumRemove(m, k);
      SumZero(m - {k});
    }
  }

  lemma {:induction false} PutBack<K, V>(m: map<K, V>, k: K, v: V)
    ensures (m - {k})[k := v] == m[k := v]
    ensures k in m ==> (m - {k})[k := m[k]] == m
  {
  }

  /** One more key is taken from those still to be removed. */
  lemma {:induction false} RemoveNext<K, V>(m: map<K, V>, keys: set<K>, rest: set<K>, k: K)
    requires k in rest && rest <= keys
    ensures m - (keys - (rest - {k})) == (m - (keys - rest)) - {k}
    ensures k in m ==> k in m - (keys - rest)
    ensures |keys - (rest - {k})| == |keys - rest| + 1
  {
    assert keys - (rest - {k}) == (keys - rest) + {k};
  }

  lemma {:induction false} SizeMonotone<T>(a: set<T>, b: set<T>)
    requires a <= b
    ensures |a| <= |b|
  {
    assert b == a + (b - a) && a !! (b - a);
  }

  lemma {:induction false} OneMoreTimes(n: nat, x: nat)
    ensures (n + 1) * x == n * x + x
  {
  }

  lemma {:induction false} OneFewer<T>(part: set<T>, whole: set<T>, x: T)
    requires part <= whole && x in whole && x !in part
    ensures |part| + 1 <= |whole|
  {
    SizeMonotone(part + {x}, whole);
  }

  lemma {:induction false} MoreIsMore(a: nat, b: nat, n: nat)
    requires a <= b
    ensures a * n <= b * n
  {
  }
}
