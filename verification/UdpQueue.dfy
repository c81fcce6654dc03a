/**
 * How long the queue of completed datagrams grows. Discarding a session leaves its entries in the queue, so
 * the compaction must keep it short: it keeps at most two distinct entries for each record that may be held.
 */
module UdpQueue {
  import opened Wrappers
  import opened Sequences
  import opened UdpReassembly
  import opened UdpDedup
  import P = UdpProtocol

  type Entry = (Key, Time)

  ghost function Entries(q: Queue): set<Entry>
  {
    set x | x in q
  }

  lemma {:induction false} AtMostLength(q: Queue)
    ensures |Entries(q)| <= |q|
    ensures Distinct(q) ==> |Entries(q)| == |q|
  {
    if q == [] {
    } else {
      var n := |q| - 1;
      AtMostLength(q[..n]);
      assert q == q[..n] + [q[n]];
      assert Entries(q) == Entries(q[..n]) + {q[n]};
      DistinctLast(q[..n], q[n]);
    }
  }

  lemma {:induction false} Fewer(a: set<Entry>, b: set<Entry>)
    requires a <= b
    ensures |a| <= |b|
  {
    assert b == a + (b - a);
  }

  lemma {:induction false} OnePerRecord(completed: map<Key, Time>, s: set<Entry>)
    requires forall x :: x in s ==> Current(completed, x)
    ensures |s| <= |completed|
    decreases |s|
  {
    if s == {} {
    } else {
      var x :| x in s;
      var rest := completed - {x.0};
      assert forall y :: y in s - {x} ==> Current(rest, y);
      OnePerRecord(rest, s - {x});
      assert completed.Keys == rest.Keys + {x.0};
      assert |completed.Keys| == |rest.Keys| + 1;
      assert |s| == |s - {x}| + 1;
    }
  }

  // ---------------------------------------------------------------- distinct entries, in any run

  lemma {:induction false} SuffixEntries(q: Queue, order: Queue)
    requires |q| <= |order| && q == order[|order| - |q|..]
    ensures Entries(q) <= Entries(order)
  {
    forall x | x in q ensures x in order {
      var i :| 0 <= i < |q| && q[i] == x;
      assert order[|order| - |q| + i] == x;
    }
  }

  lemma {:induction false} ExpireShortens(c: Config, st: State, now: Time)
    ensures Entries(Expire(c, st, now).order) <= Entries(st.order)
  {
    hide DropExpired, Unexpired, Entries;
    DropExpiredSuffix(st.completed, st.order, c.completedRetention, now);
    SuffixEntries(Expire(c, st, now).order, st.order);
  }

  lemma {:induction false} RememberBounded(c: Config, st: State, key: Key, now: Time)
    requires ConfigOk(c) && CompletedInv(c, st.completed, st.order) && key !in st.completed
    ensures |Entries(Remember(c, st, key, now).order)| <= 2 * c.maxCompleted
  {
    hide Compact, EvictOldest, Indexed;
    var s := Remember(c, st, key, now);
    InvRemember(c, st, key, now);
    var (kept, queue) := if |st.completed| >= c.maxCompleted then EvictOldest(st.completed, st.order)
                         else (st.completed, st.order);
    var order := queue + [(key, now)];
    AtMostLength(s.order);
    if |order| > 2 * c.maxCompleted {
      CompactKeeps(s.completed, order);
      OnePerRecord(s.completed, Entries(s.order));
    }
  }

  ghost predicate Recorded(c: Config, s: State, key: Key, now: Time, s2: State, partials: Partials)
  {
    key !in s.completed && s2 == Remember(c, s.(partials := partials), key, now)
  }

  /** What a push does to the record: nothing but the expiry, or remembering a datagram not yet known. */
  lemma {:induction false} PushRecords(c: Config, st: State, f: P.Fragment, now: Time)
    ensures var s, s2, key := Expire(c, st, now), Push(c, st, f, now).0, KeyOf(f);
      || s2 == st
      || (s2.completed == s.completed && s2.order == s.order)
      || exists partials :: Recorded(c, s, key, now, s2, partials)
  {
    hide Expire, Remember, Settle, SettleNew;
    var s := Expire(c, st, now);
    var s2, key := Push(c, st, f, now).0, KeyOf(f);
    assert s.(partials := s.partials) == s;
    if P.Validate(f) == None && key !in s.completed {
      if f.originalLength == 0 {
        assert Recorded(c, s, key, now, s2, s.partials);
      } else {
        var settled := if key in s.partials then Settle(s.partials, key, s.partials[key], f)
                       else SettleNew(c, s.partials, key, f, now);
        assert settled.result.Ok? && settled.result.value.Complete? ==>
            Recorded(c, s, key, now, s2, settled.partials);
      }
    }
  }

  lemma {:induction false} StepBounded(c: Config, st: State, e: Event)
    requires ConfigOk(c) && Inv(c, st) && |Entries(st.order)| <= 2 * c.maxCompleted
    ensures |Entries(Apply(c, st, e).order)| <= 2 * c.maxCompleted
  {
    hide Inv, Push, Expire, Entries, Remember;
    match e
    case Discarded(_) =>
    case Expired(at) =>
      ExpireShortens(c, st, at);
      Fewer(Entries(Expire(c, st, at).order), Entries(st.order));
    case Pushed(f, at) =>
      var s := Expire(c, st, at);
      ExpireShortens(c, st, at);
      Fewer(Entries(s.order), Entries(st.order));
      PushRecords(c, st, f, at);
      InvExpire(c, st, at);
      CompletedPart(c, s);
      if partials :| Recorded(c, s, KeyOf(f), at, Push(c, st, f, at).0, partials) {
        RememberBounded(c, s.(partials := partials), KeyOf(f), at);
      }
  }

  /** In every run the queue has at most two distinct entries for each record that may be held. */
  lemma {:induction false} EntriesBounded(c: Config, run: seq<Event>, n: nat)
    requires ConfigOk(c) && n <= |run|
    ensures |Entries(After(c, EMPTY, run, n).order)| <= 2 * c.maxCompleted
  {
    hide Inv, Apply, ConfigOk, Entries;
    if n == 0 {
      assert Entries([]) == {} by { AtMostLength([]); }
    } else {
      EntriesBounded(c, run, n - 1);
      InvReachable(c, run, n - 1);
      StepBounded(c, After(c, EMPTY, run, n - 1), run[n - 1]);
    }
  }

  // ---------------------------------------------------------------- the length, in runs without a repetition

  /** No datagram is pushed twice at one instant with its session discarded in between. */
  predicate Separate(run: seq<Event>)
  {
    forall i, d, j :: 0 <= i < d < j < |run| ==> !Repeats(run[i], run[d], run[j])
  }

  predicate Repeats(e: Event, between: Event, again: Event)
  {
    && e.Pushed? && again.Pushed? && KeyOf(e.f) == KeyOf(again.f) && e.at == again.at
    && between == Discarded(e.f.sessionId)
  }

  /** The entry stems from that push, and is current unless the session was discarded since. */
  ghost predicate Source(run: seq<Event>, n: nat, completed: map<Key, Time>, x: Entry, m: nat)
    requires n <= |run|
  {
    && m < n && run[m].Pushed? && KeyOf(run[m].f) == x.0 && run[m].at == x.1
    && (Current(completed, x) || exists d :: m < d < n && run[d] == Discarded(x.0.sessionId))
  }

  ghost predicate Traced(run: seq<Event>, n: nat, completed: map<Key, Time>, order: Queue)
    requires n <= |run|
  {
    Distinct(order) && forall x :: x in order ==> exists m: nat :: Source(run, n, completed, x, m)
  }

  /** Entries of the second queue stand in the first, and current ones are still current. */
  ghost predicate StillCurrent(completed: map<Key, Time>, order: Queue, c2: map<Key, Time>, q2: Queue)
  {
    Distinct(q2) && forall x :: x in q2 ==> x in order && (Current(completed, x) ==> Current(c2, x))
  }

  lemma {:induction false} PopKeeps(completed: map<Key, Time>, order: Queue)
    requires Distinct(order) && order != []
    ensures StillCurrent(completed, order, completed, order[1..])
    ensures Current(completed, order[0]) ==> StillCurrent(completed, order, completed - {order[0].0}, order[1..])
  {
    forall x | x in order[1..] ensures x in order && x != order[0] {
      var i :| 0 <= i < |order[1..]| && order[1..][i] == x;
      assert order[i + 1] == x;
    }
  }

  lemma {:induction false} DropKeeps(completed: map<Key, Time>, order: Queue, retention: Time, now: Time)
    requires Distinct(order)
    ensures var (c2, q2) := DropExpired(completed, order, retention, now); StillCurrent(completed, order, c2, q2)
    decreases |order|
  {
    hide Elapsed;
    if order == [] {
    } else {
      PopKeeps(completed, order);
      if Current(completed, order[0]) {
        DropKeeps(completed - {order[0].0}, order[1..], retention, now);
      } else {
        DropKeeps(completed, order[1..], retention, now);
      }
    }
  }

  lemma {:induction false} EvictKeeps(completed: map<Key, Time>, order: Queue)
    requires Distinct(order)
    ensures var (c2, q2) := EvictOldest(completed, order); StillCurrent(completed, order, c2, q2)
    decreases |order|
  {
    if order == [] {
    } else {
      PopKeeps(completed, order);
      EvictKeeps(completed, order[1..]);
    }
  }

  lemma {:induction false} CompactDistinct(completed: map<Key, Time>, order: Queue)
    requires Distinct(order)
    ensures Distinct(Compact(completed, order))
  {
    if order == [] {
    } else {
      PopKeeps(completed, order);
      CompactDistinct(completed, order[1..]);
      CompactKeeps(completed, order[1..]);
      var rest := Compact(completed, order[1..]);
      assert order[0] !in order[1..];
      assert forall i :: 0 <= i < |rest| ==> rest[i] in rest;
    }
  }

  lemma {:induction false} TracedStays(
    run: seq<Event>, n: nat, completed: map<Key, Time>, order: Queue, c2: map<Key, Time>, q2: Queue)
    requires n <= |run| && Traced(run, n, completed, order) && StillCurrent(completed, order, c2, q2)
    ensures Traced(run, n, c2, q2)
  {
    forall x | x in q2 ensures exists m: nat :: Source(run, n, c2, x, m) {
      var m: nat :| Source(run, n, completed, x, m);
      assert Source(run, n, c2, x, m);
    }
  }

  /** One event more, of which only the discarding of a session makes entries stale. */
  lemma {:induction false} TracedNext(
    run: seq<Event>, n: nat, completed: map<Key, Time>, order: Queue, c2: map<Key, Time>)
    requires n < |run| && Traced(run, n, completed, order)
    requires forall x :: x in order && Current(completed, x) ==>
               Current(c2, x) || run[n] == Discarded(x.0.sessionId)
    ensures Traced(run, n + 1, c2, order)
  {
    var next := n + 1;
    forall x | x in order ensures exists m: nat :: Source(run, next, c2, x, m) {
      var m: nat :| Source(run, n, completed, x, m);
      assert Source(run, next, c2, x, m);
    }
  }

  lemma {:induction false} NewEntry(run: seq<Event>, n: nat, completed: map<Key, Time>, order: Queue)
    requires Separate(run) && n < |run| && run[n].Pushed? && Traced(run, n, completed, order)
    requires KeyOf(run[n].f) !in completed
    ensures (KeyOf(run[n].f), run[n].at) !in order
  {
  }

  lemma {:induction false} RememberTraced(c: Config, run: seq<Event>, n: nat, st: State)
    requires Separate(run) && n < |run| && run[n].Pushed? && Traced(run, n, st.completed, st.order)
    requires KeyOf(run[n].f) !in st.completed
    ensures var s := Remember(c, st, KeyOf(run[n].f), run[n].at); Traced(run, n + 1, s.completed, s.order)
  {
    hide Separate, Traced, EvictOldest, Compact, Distinct;
    var key, now := KeyOf(run[n].f), run[n].at;
    var (kept, queue) := if |st.completed| >= c.maxCompleted then EvictOldest(st.completed, st.order)
                         else (st.completed, st.order);
    NewEntry(run, n, st.completed, st.order);
    assert StillCurrent(st.completed, st.order, kept, queue) && key !in kept by {
      TracedIsDistinct(run, n, st.completed, st.order);
      EvictKeeps(st.completed, st.order);
      EvictKeepsValues(st.completed, st.order);
    }
    TracedStays(run, n, st.completed, st.order, kept, queue);
    Appended(run, n, kept, queue);
    CompactTraced(run, n + 1, kept[key := now], queue + [(key, now)]);
  }

  lemma {:induction false} TracedIsDistinct(run: seq<Event>, n: nat, completed: map<Key, Time>, order: Queue)
    requires n <= |run| && Traced(run, n, completed, order)
    ensures Distinct(order)
  {
  }

  lemma {:induction false} Appended(run: seq<Event>, n: nat, completed: map<Key, Time>, order: Queue)
    requires n < |run| && run[n].Pushed? && Traced(run, n, completed, order)
    requires KeyOf(run[n].f) !in completed && (KeyOf(run[n].f), run[n].at) !in order
    ensures var x := (KeyOf(run[n].f), run[n].at); Traced(run, n + 1, completed[x.0 := x.1], order + [x])
  {
    var x := (KeyOf(run[n].f), run[n].at);
    TracedNext(run, n, completed, order, completed[x.0 := x.1]);
    DistinctLast(order, x);
    assert Source(run, n + 1, completed[x.0 := x.1], x, n);
  }

  lemma {:induction false} CompactTraced(run: seq<Event>, n: nat, completed: map<Key, Time>, order: Queue)
    requires n <= |run| && Traced(run, n, completed, order)
    ensures Traced(run, n, completed, Compact(completed, order))
  {
    CompactDistinct(completed, order);
    CompactKeeps(completed, order);
    TracedStays(run, n, completed, order, completed, Compact(completed, order));
  }

  lemma {:induction false} ExpireTraced(c: Config, run: seq<Event>, n: nat, st: State, now: Time)
    requires n <= |run| && Traced(run, n, st.completed, st.order)
    ensures var s := Expire(c, st, now); Traced(run, n, s.completed, s.order)
  {
    hide Traced, DropExpired, Unexpired, StillCurrent;
    TracedIsDistinct(run, n, st.completed, st.order);
    DropKeeps(st.completed, st.order, c.completedRetention, now);
    var (c2, q2) := DropExpired(st.completed, st.order, c.completedRetention, now);
    TracedStays(run, n, st.completed, st.order, c2, q2);
  }

  lemma {:induction false} StepTraced(c: Config, run: seq<Event>, n: nat, st: State)
    requires Separate(run) && n < |run| && Traced(run, n, st.completed, st.order)
    ensures var s := Apply(c, st, run[n]); Traced(run, n + 1, s.completed, s.order)
  {
    hide Separate, Traced, Push, Expire, Remember;
    match run[n]
    case Discarded(_) =>
      TracedNext(run, n, st.completed, st.order, Apply(c, st, run[n]).completed);
    case Expired(at) =>
      ExpireTraced(c, run, n, st, at);
      var s := Expire(c, st, at);
      TracedNext(run, n, s.completed, s.order, s.completed);
    case Pushed(f, at) =>
      ExpireTraced(c, run, n, st, at);
      var s := Expire(c, st, at);
      TracedNext(run, n, s.completed, s.order, s.completed);
      TracedNext(run, n, st.completed, st.order, st.completed);
      PushRecords(c, st, f, at);
      if partials :| Recorded(c, s, KeyOf(f), at, Push(c, st, f, at).0, partials) {
        RememberTraced(c, run, n, s.(partials := partials));
      }
  }

  lemma {:induction false} TracedReachable(c: Config, run: seq<Event>, n: nat)
    requires Separate(run) && n <= |run|
    ensures var s := After(c, EMPTY, run, n); Traced(run, n, s.completed, s.order)
  {
    hide Separate, Apply;
    if n == 0 {
    } else {
      TracedReachable(c, run, n - 1);
      StepTraced(c, run, n - 1, After(c, EMPTY, run, n - 1));
    }
  }

  /** Without such a repetition the queue itself is at most twice as long as the record may be. */
  lemma {:induction false} QueueBounded(c: Config, run: seq<Event>, n: nat)
    requires ConfigOk(c) && Separate(run) && n <= |run|
    ensures |After(c, EMPTY, run, n).order| <= 2 * c.maxCompleted
  {
    hide ConfigOk, Separate, Apply, Entries;
    TracedReachable(c, run, n);
    EntriesBounded(c, run, n);
    AtMostLength(After(c, EMPTY, run, n).order);
  }

  /** A datagram completed and its session discarded, time and again in one instant. */
  function Rounds(f: P.Fragment, n: nat): (run: seq<Event>)
    ensures |run| == 2 * n
  {
    if n == 0 then [] else Rounds(f, n - 1) + [Pushed(f, 0), Discarded(f.sessionId)]
  }

  /** With such repetitions nothing limits it: each round leaves one entry more. */
  lemma {:induction false} QueueOutgrows(c: Config, f: P.Fragment, n: nat)
    requires ConfigOk(c) && P.Validate(f) == None && f.originalLength == 0
    ensures var st := After(c, EMPTY, Rounds(f, n), 2 * n);
      && |st.order| == n && (n > 0 ==> Throttled(st, 0)) && (n == 0 ==> st == EMPTY)
      && st.completed == map[] && forall x :: x in st.order ==> x == (KeyOf(f), 0)
  {
    hide P.Validate, Push, DiscardSession, Throttled;
    if n == 0 {
    } else {
      QueueOutgrows(c, f, n - 1);
      var init, run, m := Rounds(f, n - 1), Rounds(f, n), 2 * (n - 1);
      SameStart(c, init, [Pushed(f, 0), Discarded(f.sessionId)], m);
      var st := After(c, EMPTY, run, m);
      CompleteAgain(c, st, f);
      DiscardedAgain(Push(c, st, f, 0).0, f);
      assert After(c, EMPTY, run, m + 1) == Apply(c, st, Pushed(f, 0));
      assert After(c, EMPTY, run, m + 2) == Apply(c, Push(c, st, f, 0).0, Discarded(f.sessionId));
    }
  }

  lemma {:induction false} SameStart(c: Config, run: seq<Event>, more: seq<Event>, n: nat)
    requires n <= |run|
    ensures After(c, EMPTY, run + more, n) == After(c, EMPTY, run, n)
  {
    if n == 0 {
    } else {
      SameStart(c, run, more, n - 1);
    }
  }

  /** At instant zero, with nothing held: the datagram completes and its entry is added to the like ones. */
  lemma {:induction false} CompleteAgain(c: Config, st: State, f: P.Fragment)
    requires ConfigOk(c) && P.Validate(f) == None && f.originalLength == 0
    requires st.completed == map[] && (st == EMPTY || Throttled(st, 0))
    requires forall x :: x in st.order ==> x == (KeyOf(f), 0)
    ensures var s := Push(c, st, f, 0).0;
      && Throttled(s, 0) && s.completed == map[KeyOf(f) := 0] && |s.order| == |st.order| + 1
      && forall x :: x in s.order ==> x == (KeyOf(f), 0)
  {
    hide P.Validate, Unexpired;
    assert Unexpired(map[], c.timeout, 0) == map[] by { EmptyUnexpired(c); }
    var order := st.order + [(KeyOf(f), 0)];
    CompactNothing(map[KeyOf(f) := 0], order);
  }

  lemma {:induction false} EmptyUnexpired(c: Config)
    ensures Unexpired(map[], c.timeout, 0) == map[]
  {
  }

  lemma {:induction false} CompactNothing(completed: map<Key, Time>, order: Queue)
    requires forall x :: x in order ==> Current(completed, x)
    ensures Compact(completed, order) == order
  {
    if order == [] {
    } else {
      CompactNothing(completed, order[1..]);
    }
  }

  lemma {:induction false} DiscardedAgain(st: State, f: P.Fragment)
    requires st.completed == map[KeyOf(f) := 0]
    ensures var s := DiscardSession(st, f.sessionId);
      s.completed == map[] && s.order == st.order && (Throttled(s, 0) <==> Throttled(st, 0))
  {
  }
}
