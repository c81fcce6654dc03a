/** Sorting by a key compared lexicographically, as identifiers, strings and small numbers are. */
module Sorting {
  import opened Sequences

  predicate LexLeq(a: seq<int>, b: seq<int>)
  {
    || a == []
    || (b != [] && (a[0] < b[0] || (a[0] == b[0] && LexLeq(a[1..], b[1..]))))
  }

  lemma {:induction false} LexTotal(a: seq<int>, b: seq<int>)
    ensures LexLeq(a, b) || LexLeq(b, a)
  {
    if a != [] && b != [] {
      LexTotal(a[1..], b[1..]);
    }
  }

  lemma {:induction false} LexTransitive(a: seq<int>, b: seq<int>, c: seq<int>)
    requires LexLeq(a, b) && LexLeq(b, c)
    ensures LexLeq(a, c)
  {
    if a != [] && a[0] == b[0] && b[0] == c[0] {
      LexTransitive(a[1..], b[1..], c[1..]);
    }
  }

  lemma {:induction false} LexAntisymmetric(a: seq<int>, b: seq<int>)
    requires LexLeq(a, b) && LexLeq(b, a)
    ensures a == b
  {
    if a != [] && b != [] {
      LexAntisymmetric(a[1..], b[1..]);
      assert a == [a[0]] + a[1..] && b == [b[0]] + b[1..];
    }
  }

  predicate KeySorted<T>(s: seq<T>, key: T -> seq<int>)
  {
    forall i, j :: 0 <= i < j < |s| ==> LexLeq(key(s[i]), key(s[j]))
  }

  ghost predicate SameMembers<T>(a: seq<T>, b: seq<T>)
  {
    (forall x :: x in a ==> x in b) && (forall x :: x in b ==> x in a)
  }

  function Insert<T>(x: T, sorted: seq<T>, key: T -> seq<int>): seq<T>
  {
    if sorted == [] || LexLeq(key(x), key(sorted[0])) then [x] + sorted
    else [sorted[0]] + Insert(x, sorted[1..], key)
  }

  /** The stable sort. */
  function SortByKey<T>(s: seq<T>, key: T -> seq<int>): seq<T>
  {
    if s == [] then [] else Insert(s[0], SortByKey(s[1..], key), key)
  }

  lemma {:induction false} InsertPermutes<T>(x: T, sorted: seq<T>, key: T -> seq<int>)
    ensures multiset(Insert(x, sorted, key)) == multiset(sorted) + multiset{x}
  {
    hide LexLeq;
    if sorted == [] || LexLeq(key(x), key(sorted[0])) {
      assert multiset([x] + sorted) == multiset(sorted) + multiset{x};
    } else {
      InsertPermutes(x, sorted[1..], key);
      assert sorted == [sorted[0]] + sorted[1..];
    }
  }

  lemma {:induction false} InsertSorts<T>(x: T, sorted: seq<T>, key: T -> seq<int>)
    requires KeySorted(sorted, key)
    ensures KeySorted(Insert(x, sorted, key), key)
  {
    hide LexLeq;
    if sorted == [] {
    } else if LexLeq(key(x), key(sorted[0])) {
      forall i | 0 <= i < |sorted| ensures LexLeq(key(x), key(sorted[i])) {
        if i > 0 {
          LexTransitive(key(x), key(sorted[0]), key(sorted[i]));
        }
      }
    } else {
      LexTotal(key(x), key(sorted[0]));
      InsertSorts(x, sorted[1..], key);
      InsertPermutes(x, sorted[1..], key);
      var rest := Insert(x, sorted[1..], key);
      forall i | 0 <= i < |rest| ensures LexLeq(key(sorted[0]), key(rest[i])) {
        assert rest[i] in multiset(rest);
        assert rest[i] == x || rest[i] in sorted[1..];
      }
    }
  }

  lemma {:induction false} SortSorts<T>(s: seq<T>, key: T -> seq<int>)
    ensures KeySorted(SortByKey(s, key), key) && multiset(SortByKey(s, key)) == multiset(s)
  {
    if s == [] {
    } else {
      SortSorts(s[1..], key);
      InsertSorts(s[0], SortByKey(s[1..], key), key);
      InsertPermutes(s[0], SortByKey(s[1..], key), key);
      assert s == [s[0]] + s[1..];
    }
  }

  lemma {:induction false} SortKeepsMembers<T>(s: seq<T>, key: T -> seq<int>)
    ensures SameMembers(SortByKey(s, key), s) && |SortByKey(s, key)| == |s|
  {
    SortSorts(s, key);
    var sorted := SortByKey(s, key);
    assert |multiset(sorted)| == |multiset(s)|;
    forall x | x in sorted ensures x in s {
      assert x in multiset(sorted);
    }
    forall x | x in s ensures x in sorted {
      assert x in multiset(s);
    }
  }

  // ---------------------------------------------------------------- distinct keys

  ghost function Keys<T>(s: seq<T>, key: T -> seq<int>): set<seq<int>>
  {
    set x | x in s :: key(x)
  }

  lemma {:induction false} KeysAppend<T>(s: seq<T>, x: T, key: T -> seq<int>)
    ensures Keys(s + [x], key) == Keys(s, key) + {key(x)}
  {
    assert x in s + [x];
    forall y | y in s ensures y in s + [x] {
    }
  }

  /** Keys are distinct exactly when there are as many of them as elements. */
  lemma {:induction false} DistinctIffAsMany<T>(s: seq<T>, key: T -> seq<int>)
    ensures |Keys(s, key)| <= |s|
    ensures KeysDistinct(s, key) <==> |Keys(s, key)| == |s|
  {
    hide Keys;
    if s == [] {
      NoKeys(key);
    } else {
      var init, last := s[..|s| - 1], s[|s| - 1];
      DistinctIffAsMany(init, key);
      KeysAppend(init, last, key);
      assert s == init + [last];
      LastIsNew(init, last, key);
      assert key(last) in Keys(init, key) ==> Keys(init, key) + {key(last)} == Keys(init, key);
    }
  }

  lemma {:induction false} NoKeys<T>(key: T -> seq<int>)
    ensures Keys([], key) == {}
  {
  }

  lemma {:induction false} LastIsNew<T>(s: seq<T>, x: T, key: T -> seq<int>)
    ensures KeysDistinct(s + [x], key) <==> KeysDistinct(s, key) && key(x) !in Keys(s, key)
  {
    var all := s + [x];
    if key(x) in Keys(s, key) {
      var i :| 0 <= i < |s| && key(s[i]) == key(x);
      assert key(all[i]) == key(all[|s|]);
    } else {
      assert forall i :: 0 <= i < |s| ==> s[i] in s;
    }
    if KeysDistinct(all, key) {
      forall i, j | 0 <= i < j < |s| ensures key(s[i]) != key(s[j]) {
        assert all[i] == s[i] && all[j] == s[j];
      }
    }
  }

  /** Rearranging keeps keys distinct. */
  lemma {:induction false} DistinctTransfers<T, U>(a: seq<T>, keyA: T -> seq<int>, b: seq<U>, keyB: U -> seq<int>)
    requires KeysDistinct(a, keyA) && |a| == |b| && Keys(a, keyA) == Keys(b, keyB)
    ensures KeysDistinct(b, keyB)
  {
    DistinctIffAsMany(a, keyA);
    DistinctIffAsMany(b, keyB);
  }

  lemma {:induction false} SameMembersSameKeys<T>(a: seq<T>, b: seq<T>, key: T -> seq<int>)
    requires SameMembers(a, b)
    ensures Keys(a, key) == Keys(b, key)
  {
  }

  lemma {:induction false} SortKeepsDistinct<T>(s: seq<T>, key: T -> seq<int>)
    requires KeysDistinct(s, key)
    ensures KeysDistinct(SortByKey(s, key), key)
  {
    SortKeepsMembers(s, key);
    SameMembersSameKeys(s, SortByKey(s, key), key);
    DistinctTransfers(s, key, SortByKey(s, key), key);
  }

  /** A sorted list with distinct keys is determined by its members. */
  lemma {:induction false} SortedUnique<T>(a: seq<T>, b: seq<T>, key: T -> seq<int>)
    requires KeySorted(a, key) && KeySorted(b, key) && KeysDistinct(a, key) && KeysDistinct(b, key)
    requires SameMembers(a, b)
    ensures a == b
    decreases |a|
  {
    assert b != [] ==> b[0] in b;
    if a == [] {
    } else {
      assert a[0] in a && a[0] in b;
      SameHead(a, b, key);
      forall x ensures x in a[1..] <==> x in b[1..] {
        InTail(a, key, x);
        InTail(b, key, x);
      }
      SortedUnique(a[1..], b[1..], key);
      assert a == [a[0]] + a[1..] && b == [b[0]] + b[1..];
    }
  }

  lemma {:induction false} InTail<T>(s: seq<T>, key: T -> seq<int>, x: T)
    requires s != [] && KeysDistinct(s, key)
    ensures x in s[1..] <==> x in s && x != s[0]
  {
    assert s == [s[0]] + s[1..];
    if x in s[1..] {
      var i :| 0 <= i < |s| - 1 && s[1..][i] == x;
      assert s[i + 1] == x && key(s[0]) != key(s[i + 1]);
    }
  }

  lemma {:induction false} SameHead<T>(a: seq<T>, b: seq<T>, key: T -> seq<int>)
    requires a != [] && b != [] && KeySorted(a, key) && KeySorted(b, key) && KeysDistinct(a, key)
    requires KeysDistinct(b, key)
    requires SameMembers(a, b)
    ensures a[0] == b[0]
  {
    assert a[0] in a && b[0] in b;
    var i :| 0 <= i < |b| && b[i] == a[0];
    var j :| 0 <= j < |a| && a[j] == b[0];
    if i > 0 && j > 0 {
      LexAntisymmetric(key(a[0]), key(b[0]));
    }
  }

  /** Lists with the same members and distinct keys sort to the same list. */
  lemma {:induction false} SortsAgree<T>(a: seq<T>, b: seq<T>, key: T -> seq<int>)
    requires KeysDistinct(a, key) && KeysDistinct(b, key) && SameMembers(a, b)
    ensures SortByKey(a, key) == SortByKey(b, key)
  {
    SortSorts(a, key);
    SortSorts(b, key);
    SortKeepsMembers(a, key);
    SortKeepsMembers(b, key);
    SortKeepsDistinct(a, key);
    SortKeepsDistinct(b, key);
    SortedUnique(SortByKey(a, key), SortByKey(b, key), key);
  }
}
