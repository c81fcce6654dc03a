/**
 * The de-duplication record under a clock that never runs backwards: the queue stays sorted by
 * completion time, expiry is exact, eviction takes an oldest record, and a datagram is delivered a
 * second time only after its record was legitimately forgotten.
 */
module UdpDedup {
  import opened Wrappers
  import opened UdpReassembly
  import P = UdpProtocol

  predicate Sorted(order: Queue)
  {
    forall i, j :: 0 <= i < j < |order| ==> order[i].1 <= order[j].1
  }

  predicate Before(order: Queue, now: Time)
  {
    forall i :: 0 <= i < |order| ==> order[i].1 <= now
  }

  predicate Timed(e: Event)
  {
    !e.Discarded?
  }

  /** Event times never decrease. */
  predicate Monotone(run: seq<Event>)
  {
    forall i, j :: 0 <= i < j < |run| && Timed(run[i]) && Timed(run[j]) ==> run[i].at <= run[j].at
  }

  // ---------------------------------------------------------------- the queue stays sorted

  lemma {:induction false} DropExpiredSuffix(completed: map<Key, Time>, order: Queue, retention: Time, now: Time)
    ensures var q := DropExpired(completed, order, retention, now).1; |q| <= |order| && q == order[|order| - |q|..]
    decreases |order|
  {
    if order != [] && !(Current(completed, order[0]) && !Elapsed(now, order[0].1, retention)) {
      var completed' := if Current(completed, order[0]) then completed - {order[0].0} else completed;
      DropExpiredSuffix(completed', order[1..], retention, now);
    }
  }

  lemma {:induction false} EvictOldestSuffix(completed: map<Key, Time>, order: Queue)
    ensures var q := EvictOldest(completed, order).1; |q| <= |order| && q == order[|order| - |q|..]
    decreases |order|
  {
    if order != [] && !Current(completed, order[0]) {
      EvictOldestSuffix(completed, order[1..]);
    }
  }

  lemma {:induction false} CompactSorted(completed: map<Key, Time>, order: Queue)
    requires Sorted(order)
    ensures Sorted(Compact(completed, order))
  {
    if order == [] {
    } else {
      CompactSorted(completed, order[1..]);
      CompactKeeps(completed, order[1..]);
      var first, rest := order[0], Compact(completed, order[1..]);
      forall e | e in rest ensures first.1 <= e.1 {
        var j :| 0 <= j < |order[1..]| && order[1..][j] == e;
        assert order[j + 1] == e;
      }
      SortedFirst(first, rest);
    }
  }

  lemma {:induction false} SortedFirst(first: (Key, Time), rest: Queue)
    requires Sorted(rest) && forall e :: e in rest ==> first.1 <= e.1
    ensures Sorted([first] + rest)
  {
    assert forall j :: 0 <= j < |rest| ==> rest[j] in rest;
  }

  lemma {:induction false} RememberSorted(c: Config, st: State, key: Key, now: Time)
    requires Sorted(st.order) && Before(st.order, now)
    ensures var q := Remember(c, st, key, now).order; Sorted(q) && Before(q, now)
  {
    EvictOldestSuffix(st.completed, st.order);
    var (kept, queue) := if |st.completed| >= c.maxCompleted then EvictOldest(st.completed, st.order)
                         else (st.completed, st.order);
    var order := queue + [(key, now)];
    assert Sorted(order) && Before(order, now);
    CompactSorted(kept[key := now], order);
    CompactKeeps(kept[key := now], order);
    var q := Remember(c, st, key, now).order;
    forall i | 0 <= i < |q| ensures q[i].1 <= now {
      assert q[i] in q;
      assert q[i] in order;
    }
  }

  lemma {:induction false} ApplySorted(c: Config, st: State, e: Event, now: Time)
    requires Sorted(st.order) && Before(st.order, now) && (Timed(e) ==> e.at == now)
    ensures Sorted(Apply(c, st, e).order) && Before(Apply(c, st, e).order, now)
  {
    hide Remember, DropExpired, Settle, SettleNew;
    if Timed(e) {
      DropExpiredSuffix(st.completed, st.order, c.completedRetention, now);
      var s := Expire(c, st, now);
      assert Sorted(s.order) && Before(s.order, now);
      forall partials, key ensures
        var q := Remember(c, s.(partials := partials), key, now).order; Sorted(q) && Before(q, now)
      {
        RememberSorted(c, s.(partials := partials), key, now);
      }
      assert s.(partials := s.partials) == s;
    }
  }

  /** On every run with a non-decreasing clock the queue is sorted and never ahead of the clock. */
  lemma {:induction false} QueueSorted(c: Config, st: State, run: seq<Event>, n: nat)
    requires n <= |run| && Monotone(run)
    requires Sorted(st.order) && forall j :: 0 <= j < |run| && Timed(run[j]) ==> Before(st.order, run[j].at)
    ensures Sorted(After(c, st, run, n).order)
    ensures forall j :: n <= j < |run| && Timed(run[j]) ==> Before(After(c, st, run, n).order, run[j].at)
  {
    hide Apply;
    if n == 0 {
    } else {
      var prior := After(c, st, run, n - 1);
      QueueSorted(c, st, run, n - 1);
      if Timed(run[n - 1]) {
        ApplySorted(c, prior, run[n - 1], run[n - 1].at);
      } else {
        DiscardKeepsOrder(c, prior, run[n - 1]);
      }
    }
  }

  lemma {:induction false} DiscardKeepsOrder(c: Config, st: State, e: Event)
    requires !Timed(e)
    ensures Apply(c, st, e).order == st.order
  {
  }

  // ---------------------------------------------------------------- expiry and eviction are exact

  lemma {:induction false} DropExpiredExact(completed: map<Key, Time>, order: Queue, retention: Time, now: Time, k: Key)
    requires Sorted(order) && Indexed(completed, order)
    ensures k in DropExpired(completed, order, retention, now).0
       <==> k in completed && !Elapsed(now, completed[k], retention)
    decreases |order|
  {
    if order == [] {
    } else if Current(completed, order[0]) && !Elapsed(now, order[0].1, retention) {
      if k in completed {
        var j :| 0 <= j < |order| && order[j] == (k, completed[k]);
        assert order[0].1 <= order[j].1;
      }
    } else {
      assert forall e :: e in order && e != order[0] ==> e in order[1..];
      var completed' := if Current(completed, order[0]) then completed - {order[0].0} else completed;
      DropExpiredExact(completed', order[1..], retention, now, k);
    }
  }

  /** Less than `limit` has passed; a `since` in the future counts as now. */
  predicate InTime(now: Time, since: Time, limit: Time)
  {
    now - since < limit && 0 < limit
  }

  /** The records kept by a clean-up at `now`: exactly those still in time, unchanged. */
  ghost predicate KeepsInTime(c: Config, st: State, s: State, now: Time)
  {
    && (forall k :: k in s.partials <==> k in st.partials && InTime(now, st.partials[k].startedAt, c.timeout))
    && (forall k :: k in s.partials ==> s.partials[k] == st.partials[k])
    && (forall k :: k in s.completed <==> k in st.completed && InTime(now, st.completed[k], c.completedRetention))
    && (forall k :: k in s.completed ==> s.completed[k] == st.completed[k])
  }

  /**
   * Until the next clean-up is due expiry does nothing; from then on it leaves exactly the partials and
   * records still inside their deadlines, and puts the next clean-up off by a tenth of a second.
   */
  lemma {:induction false} ExpireExact(c: Config, st: State, now: Time)
    requires Inv(c, st) && Sorted(st.order)
    ensures st.nextCleanup.Some? && now < st.nextCleanup.value ==> Expire(c, st, now) == st
    ensures st.nextCleanup.None? || now >= st.nextCleanup.value ==>
      var s := Expire(c, st, now);
      KeepsInTime(c, st, s, now) && s.nextCleanup == Some(now + 100)
  {
    hide PartialsInv, DropExpired;
    CompletedInTime(st.completed, st.order, c.completedRetention, now);
  }

  lemma {:induction false} CompletedInTime(completed: map<Key, Time>, order: Queue, retention: Time, now: Time)
    requires Sorted(order) && Indexed(completed, order)
    ensures var m := DropExpired(completed, order, retention, now).0;
      && (forall k :: k in m <==> k in completed && InTime(now, completed[k], retention))
      && (forall k :: k in m ==> m[k] == completed[k])
  {
    hide DropExpired, Sorted, Indexed;
    DropExpiredKeeps(completed, order, retention, now);
    forall k ensures k in DropExpired(completed, order, retention, now).0
                <==> k in completed && InTime(now, completed[k], retention)
    {
      DropExpiredExact(completed, order, retention, now, k);
    }
  }

  /** Eviction changes no record it keeps. */
  lemma {:induction false} EvictKeepsValues(completed: map<Key, Time>, order: Queue)
    ensures var m := EvictOldest(completed, order).0;
      forall k :: k in m ==> k in completed && m[k] == completed[k]
    decreases |order|
  {
    if order != [] && !Current(completed, order[0]) {
      EvictKeepsValues(completed, order[1..]);
    }
  }

  /** Capacity eviction forgets exactly one record, and none remembered was completed earlier. */
  lemma {:induction false} EvictsAnOldest(completed: map<Key, Time>, order: Queue)
    requires Sorted(order) && Indexed(completed, order) && completed != map[]
    ensures exists k :: k in completed && EvictOldest(completed, order).0 == completed - {k}
              && forall j :: j in completed ==> completed[k] <= completed[j]
    decreases |order|
  {
    var k0 :| k0 in completed;
    assert (k0, completed[k0]) in order;
    if Current(completed, order[0]) {
      var k := order[0].0;
      forall j | j in completed ensures completed[k] <= completed[j] {
        var i :| 0 <= i < |order| && order[i] == (j, completed[j]);
        assert order[0].1 <= order[i].1;
      }
    } else {
      assert forall e :: e in order && e != order[0] ==> e in order[1..];
      EvictsAnOldest(completed, order[1..]);
    }
  }

  // ---------------------------------------------------------------- second deliveries

  /** The push hands a datagram to the caller. */
  ghost predicate Completes(c: Config, st: State, f: P.Fragment, at: Time)
  {
    var r := Push(c, st, f, at).1;
    r.Ok? && r.value.Complete?
  }

  ghost predicate Delivers(c: Config, st: State, e: Event, k: Key)
  {
    e.Pushed? && KeyOf(e.f) == k && Completes(c, st, e.f, e.at)
  }

  /** The only ways a remembered datagram may be forgotten. */
  ghost predicate MayForget(c: Config, st: State, e: Event, k: Key)
    requires k in st.completed
  {
    match e
    case Discarded(s) => s == k.sessionId
    case Expired(at) => Elapsed(at, st.completed[k], c.completedRetention)
    case Pushed(f, at) =>
      && P.Validate(f) == None
      && (|| Elapsed(at, st.completed[k], c.completedRetention)
          || (Completes(c, st, f, at) && EvictionVictim(Expire(c, st, at).completed, c.maxCompleted, k)))
  }

  /** The record is full and `k` is among its oldest entries. */
  predicate EvictionVictim(completed: map<Key, Time>, limit: nat, k: Key)
  {
    && |completed| >= limit
    && k in completed
    && forall j :: j in completed ==> completed[k] <= completed[j]
  }

  /** The event begins with a clean-up; an invalid fragment is refused before it. */
  predicate Cleans(e: Event)
  {
    e.Expired? || (e.Pushed? && P.Validate(e.f) == None)
  }

  /** The state in which an event, after its clean-up, looks for a record. */
  ghost function Cleaned(c: Config, st: State, e: Event): State
  {
    if Cleans(e) then Expire(c, st, e.at) else st
  }

  /** The event drops the record of `k`: by its clean-up, or by what follows. */
  ghost predicate Drops(c: Config, st: State, e: Event, k: Key)
  {
    k in st.completed && (k !in Cleaned(c, st, e).completed || k !in Apply(c, st, e).completed)
  }

  lemma {:induction false} ExpireForgets(c: Config, st: State, now: Time, k: Key)
    requires Inv(c, st) && k in st.completed && !Elapsed(now, st.completed[k], c.completedRetention)
    ensures k in Expire(c, st, now).completed && Expire(c, st, now).completed[k] == st.completed[k]
  {
    DropExpiredKeeps(st.completed, st.order, c.completedRetention, now);
  }

  lemma {:induction false} RememberForgets(c: Config, st: State, key: Key, now: Time, k: Key)
    requires ConfigOk(c) && CompletedInv(c, st.completed, st.order) && Sorted(st.order)
    requires k in st.completed && !EvictionVictim(st.completed, c.maxCompleted, k)
    ensures k in Remember(c, st, key, now).completed
    ensures k != key ==> Remember(c, st, key, now).completed[k] == st.completed[k]
  {
    if |st.completed| >= c.maxCompleted {
      EvictsAnOldest(st.completed, st.order);
    }
  }

  lemma {:induction false} IncompleteKeeps(c: Config, st: State, f: P.Fragment, at: Time)
    requires !Completes(c, st, f, at)
    ensures Push(c, st, f, at).0.completed == Cleaned(c, st, Pushed(f, at)).completed
  {
    hide Remember, Settle, SettleNew, Expire, P.Validate;
  }

  lemma {:induction false} CompleteRemembers(c: Config, st: State, f: P.Fragment, at: Time)
    requires Completes(c, st, f, at)
    ensures P.Validate(f) == None && KeyOf(f) !in Expire(c, st, at).completed
    ensures exists partials ::
      Push(c, st, f, at).0 == Remember(c, Expire(c, st, at).(partials := partials), KeyOf(f), at)
  {
    hide Remember, Settle, SettleNew, Expire, P.Validate;
    var s := Expire(c, st, at);
    assert s.(partials := s.partials) == s;
  }

  /** A record survives every event that gives none of the listed reasons to forget it. */
  lemma {:induction false} OnlyForgetsForReason(c: Config, st: State, e: Event, k: Key)
    requires ConfigOk(c) && Inv(c, st) && Sorted(st.order)
    requires k in st.completed && !MayForget(c, st, e, k)
    ensures k in Apply(c, st, e).completed && Apply(c, st, e).completed[k] == st.completed[k]
    ensures !Drops(c, st, e, k) && !Delivers(c, st, e, k)
  {
    hide Inv, Remember, Push, Expire, Completes, P.Validate;
    match e
    case Discarded(_) =>
    case Expired(at) => ExpireForgets(c, st, at, k);
    case Pushed(f, at) =>
      if Completes(c, st, f, at) {
        CompleteRemembers(c, st, f, at);
        CompletingKeeps(c, st, f, at, k);
      } else {
        IncompleteKeeps(c, st, f, at);
        if P.Validate(f) == None {
          ExpireForgets(c, st, at, k);
        }
      }
  }

  lemma {:induction false} CompletingKeeps(c: Config, st: State, f: P.Fragment, at: Time, k: Key)
    requires ConfigOk(c) && Inv(c, st) && Sorted(st.order) && Completes(c, st, f, at)
    requires k in st.completed && !Elapsed(at, st.completed[k], c.completedRetention)
    requires !EvictionVictim(Expire(c, st, at).completed, c.maxCompleted, k)
    ensures KeyOf(f) != k && k in Expire(c, st, at).completed
    ensures k in Push(c, st, f, at).0.completed && Push(c, st, f, at).0.completed[k] == st.completed[k]
  {
    hide Inv, Remember, Push, Expire, Completes, EvictionVictim;
    var s := Expire(c, st, at);
    ExpireForgets(c, st, at, k);
    InvExpire(c, st, at);
    ExpireSorted(c, st, at);
    CompletedPart(c, s);
    CompleteRemembers(c, st, f, at);
    var partials :| Push(c, st, f, at).0 == Remember(c, s.(partials := partials), KeyOf(f), at);
    RememberForgets(c, s.(partials := partials), KeyOf(f), at, k);
  }

  lemma {:induction false} CompletedPart(c: Config, st: State)
    requires Inv(c, st)
    ensures CompletedInv(c, st.completed, st.order)
  {
  }

  lemma {:induction false} ExpireSorted(c: Config, st: State, now: Time)
    requires Sorted(st.order)
    ensures Sorted(Expire(c, st, now).order)
  {
    DropExpiredSuffix(st.completed, st.order, c.completedRetention, now);
  }

  lemma {:induction false} DeliveredIsRemembered(c: Config, st: State, e: Event, k: Key)
    requires Delivers(c, st, e, k)
    ensures k in Apply(c, st, e).completed && k !in Cleaned(c, st, e).completed
  {
    hide Settle, SettleNew, Expire;
  }

  /** At step `m` of the run the record of `k` is dropped, for one of the listed reasons. */
  ghost predicate ForgetPoint(c: Config, run: seq<Event>, m: nat, k: Key)
    requires m < |run|
  {
    var st := After(c, EMPTY, run, m);
    Drops(c, st, run[m], k) && MayForget(c, st, run[m], k)
  }

  lemma {:induction false} DropIsForgetPoint(c: Config, run: seq<Event>, m: nat, k: Key)
    requires ConfigOk(c) && Monotone(run) && m < |run| && Drops(c, After(c, EMPTY, run, m), run[m], k)
    ensures ForgetPoint(c, run, m, k)
  {
    hide Apply, MayForget, Inv, Cleaned;
    InvReachable(c, run, m);
    QueueSorted(c, EMPTY, run, m);
    if !MayForget(c, After(c, EMPTY, run, m), run[m], k) {
      OnlyForgetsForReason(c, After(c, EMPTY, run, m), run[m], k);
    }
  }

  lemma {:induction false} RememberedUntil(c: Config, run: seq<Event>, i: nat, m: nat, k: Key)
    requires ConfigOk(c) && Monotone(run) && i < m <= |run|
    requires k in After(c, EMPTY, run, i + 1).completed
    requires forall h :: i < h < m ==> !ForgetPoint(c, run, h, k)
    ensures k in After(c, EMPTY, run, m).completed
  {
    hide Apply, ForgetPoint, Cleaned;
    if i + 1 < m {
      RememberedUntil(c, run, i, m - 1, k);
      assert !ForgetPoint(c, run, m - 1, k);
      if Drops(c, After(c, EMPTY, run, m - 1), run[m - 1], k) {
        DropIsForgetPoint(c, run, m - 1, k);
      }
    }
  }

  /**
   * If one run delivers the same datagram twice, then its record was dropped after the first delivery,
   * at the latest when the second push cleaned up, and with a reason: its retention had elapsed, its
   * session was discarded, or a completing push found a full record with it among the oldest.
   */
  lemma {:induction false} SecondDeliveryNeedsReason(c: Config, run: seq<Event>, i: nat, j: nat, k: Key)
    requires ConfigOk(c) && Monotone(run) && i < j < |run|
    requires Delivers(c, After(c, EMPTY, run, i), run[i], k)
    requires Delivers(c, After(c, EMPTY, run, j), run[j], k)
    ensures exists m :: i < m <= j && ForgetPoint(c, run, m, k)
  {
    hide Apply, Delivers, ForgetPoint, Cleaned;
    DeliveredIsRemembered(c, After(c, EMPTY, run, i), run[i], k);
    DeliveredIsRemembered(c, After(c, EMPTY, run, j), run[j], k);
    assert k in After(c, EMPTY, run, i + 1).completed;
    if forall m :: i < m < j ==> !ForgetPoint(c, run, m, k) {
      RememberedUntil(c, run, i, j, k);
      DropIsForgetPoint(c, run, j, k);
    }
  }
}
