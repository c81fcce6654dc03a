/**
 * Clean-up over whole runs: under a clock that never runs backwards nothing outstays its deadline by more
 * than the pause between clean-ups, and clean-ups keep that distance.
 */
module UdpExpiry {
  import opened Wrappers
  import opened UdpReassembly
  import opened UdpDedup
  import opened Bytes
  import P = UdpProtocol

  /** Recorded after the clean-up at `cleaned`, or still inside the deadline then. */
  predicate Kept(cleaned: Time, since: Time, limit: Time)
  {
    since >= cleaned || cleaned - since < limit
  }

  /** Everything held was begun after the last clean-up or survived it; before the first, nothing is held. */
  predicate Tidy(c: Config, st: State)
  {
    match st.nextCleanup
    case None => st.partials == map[] && st.completed == map[]
    case Some(next) => KeptSince(c, st, next - 100)
  }

  predicate KeptSince(c: Config, st: State, cleaned: Time)
  {
    && (forall k :: k in st.partials ==> Kept(cleaned, st.partials[k].startedAt, c.timeout))
    && (forall k :: k in st.completed ==> Kept(cleaned, st.completed[k], c.completedRetention))
  }

  /** The last clean-up is not in the future. */
  predicate CleanedBy(st: State, now: Time)
  {
    st.nextCleanup.Some? ==> st.nextCleanup.value - 100 <= now
  }

  /** The last clean-up was less than a tenth of a second ago. */
  predicate CleanedLately(st: State, now: Time)
  {
    st.nextCleanup.Some? && st.nextCleanup.value - 100 <= now < st.nextCleanup.value
  }

  lemma {:induction false} ExpireTidies(c: Config, st: State, now: Time)
    requires Inv(c, st) && Sorted(st.order) && Tidy(c, st) && CleanedBy(st, now)
    ensures Tidy(c, Expire(c, st, now)) && CleanedLately(Expire(c, st, now), now)
  {
    hide Inv, Sorted, Expire;
    ExpireExact(c, st, now);
  }

  // ---------------------------------------------------------------- what a push adds

  lemma {:induction false} RememberTidy(c: Config, st: State, key: Key, now: Time)
    requires Tidy(c, st) && CleanedLately(st, now)
    ensures Tidy(c, Remember(c, st, key, now)) && CleanedLately(Remember(c, st, key, now), now)
  {
    hide Compact;
    EvictKeepsValues(st.completed, st.order);
  }

  /** Settling a fragment leaves the other partials alone and does not change when its own was begun. */
  lemma {:induction false} SettleStarts(partials: Partials, key: Key, p: Partial, f: P.Fragment)
    requires f.index < f.count
    ensures var s := Settle(partials, key, p, f).partials;
      forall k :: k in s ==> if k == key then s[k].startedAt == p.startedAt else k in partials && s[k] == partials[k]
  {
    hide Assembled;
  }

  lemma {:induction false} SettleTidy(c: Config, st: State, key: Key, p: Partial, f: P.Fragment, now: Time)
    requires f.index < f.count && Tidy(c, st) && CleanedLately(st, now)
    requires Kept(st.nextCleanup.value - 100, p.startedAt, c.timeout)
    ensures var st' := Finish(c, st, key, Settle(st.partials, key, p, f), now).0;
      Tidy(c, st') && CleanedLately(st', now)
  {
    hide Settle, Remember, Kept;
    SettleStarts(st.partials, key, p, f);
    var s := st.(partials := Settle(st.partials, key, p, f).partials);
    assert Tidy(c, s);
    RememberTidy(c, s, key, now);
  }

  lemma {:induction false} PushTidies(c: Config, st: State, f: P.Fragment, now: Time)
    requires Inv(c, st) && Sorted(st.order) && Tidy(c, st) && CleanedBy(st, now) && P.Validate(f) == None
    ensures Tidy(c, Push(c, st, f, now).0) && CleanedLately(Push(c, st, f, now).0, now)
  {
    hide Inv, Sorted, Expire, Remember, Settle, Finish, AdmissionError, Tidy, KeptSince, CleanedLately;
    var s, key := Expire(c, st, now), KeyOf(f);
    ExpireTidies(c, st, now);
    if key in s.completed {
    } else if f.originalLength == 0 {
      RememberTidy(c, s, key, now);
    } else if key in s.partials {
      KeptPartial(c, s, key, now);
      SettleTidy(c, s, key, s.partials[key], f, now);
    } else if AdmissionError(c, s.partials, f.sessionId, f.originalLength) == None {
      KeptFresh(c, s, now);
      SettleTidy(c, s, key, Fresh(f, now), f, now);
    } else {
      RefusedTidy(c, s, key, AdmissionError(c, s.partials, f.sessionId, f.originalLength).value, now);
    }
  }

  lemma {:induction false} KeptPartial(c: Config, st: State, key: Key, now: Time)
    requires Tidy(c, st) && CleanedLately(st, now) && key in st.partials
    ensures st.nextCleanup.Some? && Kept(st.nextCleanup.value - 100, st.partials[key].startedAt, c.timeout)
  {
  }

  lemma {:induction false} KeptFresh(c: Config, st: State, now: Time)
    requires CleanedLately(st, now)
    ensures st.nextCleanup.Some? && Kept(st.nextCleanup.value - 100, now, c.timeout)
  {
  }

  lemma {:induction false} RefusedTidy(c: Config, st: State, key: Key, e: Error, now: Time)
    ensures Finish(c, st, key, Settlement(st.partials, Err(e)), now).0 == st
  {
  }

  // ---------------------------------------------------------------- whole runs

  lemma {:induction false} DiscardTidy(c: Config, st: State, s: Uuid)
    requires Tidy(c, st)
    ensures Tidy(c, DiscardSession(st, s)) && DiscardSession(st, s).nextCleanup == st.nextCleanup
  {
    assert st.partials == map[] ==> OfOthers(st.partials, s) == map[];
    assert st.completed == map[] ==> OfOthers(st.completed, s) == map[];
  }

  /** What one event does to the time of the next clean-up: put off by a tenth of a second, and only when due. */
  lemma {:induction false} CleanupStep(c: Config, st: State, e: Event)
    ensures var next := Apply(c, st, e).nextCleanup;
      next != st.nextCleanup ==>
        && Cleans(e) && next == Some(e.at + 100)
        && (st.nextCleanup.Some? ==> e.at >= st.nextCleanup.value)
  {
    hide DropExpired, Remember, Settle, SettleNew, P.Validate;
    forall s, key, now ensures Remember(c, s, key, now).nextCleanup == s.nextCleanup {
      RememberCleanup(c, s, key, now);
    }
  }

  lemma {:induction false} RememberCleanup(c: Config, st: State, key: Key, now: Time)
    ensures Remember(c, st, key, now).nextCleanup == st.nextCleanup
  {
  }

  lemma {:induction false} StepTidies(c: Config, st: State, e: Event)
    requires Inv(c, st) && Sorted(st.order) && Tidy(c, st) && (Cleans(e) ==> CleanedBy(st, e.at))
    ensures Tidy(c, Apply(c, st, e)) && (Cleans(e) ==> CleanedLately(Apply(c, st, e), e.at))
    ensures !Cleans(e) ==> Apply(c, st, e).nextCleanup == st.nextCleanup
  {
    hide Inv, Sorted, Expire, Push, Tidy, CleanedBy, CleanedLately, P.Validate, DiscardSession;
    match e
    case Discarded(s) => DiscardTidy(c, st, s);
    case Expired(at) => ExpireTidies(c, st, at);
    case Pushed(f, at) =>
      if P.Validate(f) == None {
        PushTidies(c, st, f, at);
      } else {
        InvalidChangesNothing(c, st, f, at);
      }
  }

  lemma {:induction false} InvalidChangesNothing(c: Config, st: State, f: P.Fragment, now: Time)
    requires P.Validate(f).Some?
    ensures Push(c, st, f, now).0 == st
  {
  }

  lemma {:induction false} TidyReachable(c: Config, run: seq<Event>, n: nat)
    requires ConfigOk(c) && Monotone(run) && n <= |run|
    ensures Tidy(c, After(c, EMPTY, run, n))
    ensures forall j :: n <= j < |run| && Timed(run[j]) ==> CleanedBy(After(c, EMPTY, run, n), run[j].at)
  {
    hide Inv, Sorted, Before, Apply, P.Validate;
    if n == 0 {
    } else {
      var st, e := After(c, EMPTY, run, n - 1), run[n - 1];
      TidyReachable(c, run, n - 1);
      InvReachable(c, run, n - 1);
      QueueFromEmpty(c, run, n - 1);
      StepTidies(c, st, e);
    }
  }

  lemma {:induction false} QueueFromEmpty(c: Config, run: seq<Event>, n: nat)
    requires Monotone(run) && n <= |run|
    ensures Sorted(After(c, EMPTY, run, n).order)
  {
    QueueSorted(c, EMPTY, run, n);
  }

  /**
   * After every expiry and every valid push, no partial datagram and no record is older than its deadline
   * and a tenth of a second.
   */
  lemma {:induction false} NothingOverstays(c: Config, run: seq<Event>, n: nat)
    requires ConfigOk(c) && c.timeout >= 0 && c.completedRetention >= 0
    requires Monotone(run) && n < |run| && (run[n].Expired? || (run[n].Pushed? && P.Validate(run[n].f) == None))
    ensures var st, t := After(c, EMPTY, run, n + 1), run[n].at;
      && (forall k :: k in st.partials ==> t - st.partials[k].startedAt < c.timeout + 100)
      && (forall k :: k in st.completed ==> t - st.completed[k] < c.completedRetention + 100)
  {
    hide Inv, Sorted, Apply, P.Validate, Monotone;
    TidyReachable(c, run, n);
    InvReachable(c, run, n);
    QueueFromEmpty(c, run, n);
    StepTidies(c, After(c, EMPTY, run, n), run[n]);
  }

  lemma {:induction false} CleanupOnlyLater(c: Config, run: seq<Event>, m: nat, n: nat)
    requires m <= n <= |run| && After(c, EMPTY, run, m).nextCleanup.Some?
    ensures After(c, EMPTY, run, n).nextCleanup.Some?
    ensures After(c, EMPTY, run, n).nextCleanup.value >= After(c, EMPTY, run, m).nextCleanup.value
  {
    hide Apply, P.Validate;
    if m == n {
    } else {
      CleanupOnlyLater(c, run, m, n - 1);
      CleanupStep(c, After(c, EMPTY, run, n - 1), run[n - 1]);
    }
  }

  /** Two clean-ups of one run are at least a tenth of a second apart, whatever the clock does. */
  lemma {:induction false} CleanupsAreSpaced(c: Config, run: seq<Event>, i: nat, j: nat)
    requires i < j < |run|
    requires After(c, EMPTY, run, i + 1).nextCleanup != After(c, EMPTY, run, i).nextCleanup
    requires After(c, EMPTY, run, j + 1).nextCleanup != After(c, EMPTY, run, j).nextCleanup
    ensures Timed(run[i]) && Timed(run[j]) && run[j].at >= run[i].at + 100
  {
    hide Apply, P.Validate;
    CleanupStep(c, After(c, EMPTY, run, i), run[i]);
    CleanupOnlyLater(c, run, i + 1, j);
    CleanupStep(c, After(c, EMPTY, run, j), run[j]);
  }
}
