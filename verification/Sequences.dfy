/** Sequences without repetition, and what the elements of a run have marked so far. */
module Sequences {
  import opened Wrappers

  predicate Distinct<T(==)>(s: seq<T>)
  {
    forall i, j :: 0 <= i < j < |s| ==> s[i] != s[j]
  }

  lemma {:induction false} DistinctLast<T>(s: seq<T>, x: T)
    ensures Distinct(s + [x]) <==> Distinct(s) && x !in s
  {
    var all := s + [x];
    if x in s {
      var i :| 0 <= i < |s| && s[i] == x;
      assert all[i] == all[|s|];
    }
    DistinctFront(s, [x]);
  }

  lemma {:induction false} DistinctFront<T>(a: seq<T>, b: seq<T>)
    ensures Distinct(a + b) ==> Distinct(a)
  {
    if Distinct(a + b) {
      forall i, j | 0 <= i < j < |a| ensures a[i] != a[j] {
        assert (a + b)[i] != (a + b)[j];
      }
    }
  }

  /** What `f` makes of each element. */
  function Mapped<T, K>(s: seq<T>, f: T -> K): seq<K>
  {
    seq(|s|, i requires 0 <= i < |s| => f(s[i]))
  }

  lemma {:induction false} MappedNothing<T, K>(s: seq<T>, f: T -> K)
    ensures Mapped(s[..0], f) == []
  {
  }

  lemma {:induction false} MappedCut<T, K>(s: seq<T>, f: T -> K, i: nat)
    requires i < |s|
    ensures Mapped(s[..i + 1], f) == Mapped(s[..i], f) + [f(s[i])]
    ensures Mapped(s, f) == Mapped(s[..i + 1], f) + Mapped(s[i + 1..], f)
  {
  }

  predicate KeysDistinct<T, K(==)>(s: seq<T>, key: T -> K)
  {
    forall i, j :: 0 <= i < j < |s| ==> key(s[i]) != key(s[j])
  }

  lemma {:induction false} Regroup<T>(a: seq<T>, b: seq<T>, c: seq<T>)
    ensures a + (b + c) == (a + b) + c
  {
  }

  // ---------------------------------------------------------------- marks

  /** The numbers marked by the first `n` elements. */
  ghost function Marks<E>(run: seq<E>, n: nat, mark: E -> Option<nat>): set<nat>
    requires n <= |run|
  {
    if n == 0 then {}
    else Marks(run, n - 1, mark) + match mark(run[n - 1]) case Some(i) => {i} case None => {}
  }

  lemma {:induction false} MarksGrow<E>(run: seq<E>, m: nat, n: nat, mark: E -> Option<nat>)
    requires m <= n <= |run|
    ensures Marks(run, m, mark) <= Marks(run, n, mark)
  {
    if m == n {
    } else {
      MarksGrow(run, m, n - 1, mark);
    }
  }

  /** The element that supplies the last missing mark. */
  lemma {:induction false} LastMark<E>(run: seq<E>, n: nat, mark: E -> Option<nat>, all: set<nat>) returns (m: nat)
    requires n <= |run| && Marks(run, n, mark) == all && all != {}
    ensures m < n && mark(run[m]).Some? && Marks(run, m, mark) != all && Marks(run, m + 1, mark) == all
  {
    if n > 0 && Marks(run, n - 1, mark) == all {
      m := LastMark(run, n - 1, mark, all);
    } else {
      m := n - 1;
    }
  }
}
