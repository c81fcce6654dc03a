/**
 * When delivery is guaranteed outright: conditions on the run alone, checkable before it starts,
 * under which a new reassembler disturbs nothing. What counts is how many datagrams the run names,
 * not how many fragments it pushes or repeats.
 */
module UdpCapacity {
  import opened Wrappers
  import opened Bytes
  import opened UdpReassembly
  import opened MapSum
  import opened UdpDedup
  import opened UdpDelivery
  import P = UdpProtocol

  predicate ValidPush(e: Event)
  {
    e.Pushed? && P.Validate(e.f) == None
  }

  /** The datagrams of which the run pushes a valid fragment. */
  ghost function KeysOf(run: seq<Event>): set<Key>
  {
    set m | 0 <= m < |run| && ValidPush(run[m]) :: KeyOf(run[m].f)
  }

  ghost function SessionKeys(keys: set<Key>, s: Uuid): set<Key>
  {
    set k | k in keys && k.sessionId == s
  }

  /** The events that clean up happen within one timeout and one retention, and `k`'s session stays open. */
  ghost predicate InWindow(c: Config, run: seq<Event>, k: Key, start: Time)
  {
    && Monotone(run)
    && (forall m :: 0 <= m < |run| && Cleans(run[m]) ==>
          start <= run[m].at < start + c.timeout && run[m].at < start + c.completedRetention)
    && (forall m :: 0 <= m < |run| && run[m].Discarded? ==> run[m].s != k.sessionId)
  }

  /** The datagrams of the run, none declared longer than `longest`, fit within every limit. */
  ghost predicate Fits(c: Config, run: seq<Event>, k: Key, longest: nat)
  {
    var keys := KeysOf(run);
    && (forall m :: 0 <= m < |run| && ValidPush(run[m]) ==> run[m].f.originalLength <= longest)
    && |keys| <= c.maxIncomplete && |SessionKeys(keys, k.sessionId)| <= c.maxIncompletePerSession
    && |keys| <= c.maxCompleted && |keys| * longest <= c.maxBufferedBytes
  }

  // ---------------------------------------------------------------- nothing but the run's datagrams

  predicate Recent(partials: Partials, start: Time, longest: nat)
  {
    forall k :: k in partials ==> start <= partials[k].startedAt && partials[k].originalLength <= longest
  }

  predicate RecordedSince(completed: map<Key, Time>, start: Time)
  {
    forall k :: k in completed ==> start <= completed[k]
  }

  ghost predicate Within(st: State, start: Time, keys: set<Key>, longest: nat)
  {
    && st.partials.Keys <= keys && st.completed.Keys <= keys
    && Recent(st.partials, start, longest) && RecordedSince(st.completed, start)
  }

  lemma {:induction false} ExpireWithin(c: Config, st: State, now: Time, start: Time, keys: set<Key>, longest: nat)
    requires Inv(c, st) && Within(st, start, keys, longest)
    ensures Within(Expire(c, st, now), start, keys, longest)
  {
    DropExpiredKeeps(st.completed, st.order, c.completedRetention, now);
  }

  lemma {:induction false} RememberWithin(c: Config, st: State, key: Key, now: Time, start: Time, keys: set<Key>)
    requires st.completed.Keys <= keys && RecordedSince(st.completed, start) && start <= now && key in keys
    ensures var m := Remember(c, st, key, now).completed; m.Keys <= keys && RecordedSince(m, start)
    ensures Remember(c, st, key, now).partials == st.partials
  {
    hide Compact;
    EvictKeepsValues(st.completed, st.order);
  }

  lemma {:induction false} SettleWithin(
    partials: Partials, key: Key, p: Partial, f: P.Fragment, start: Time, keys: set<Key>, longest: nat)
    requires f.index < f.count && partials.Keys <= keys && key in keys && Recent(partials, start, longest)
    requires start <= p.startedAt && p.originalLength <= longest
    ensures var s := Settle(partials, key, p, f).partials; s.Keys <= keys && Recent(s, start, longest)
  {
    hide Assembled;
  }

  lemma {:induction false} FinishWithin(
    c: Config, st: State, key: Key, s: Settlement, now: Time, start: Time, keys: set<Key>, longest: nat)
    requires Within(st, start, keys, longest) && start <= now && key in keys
    requires s.partials.Keys <= keys && Recent(s.partials, start, longest)
    ensures Within(Finish(c, st, key, s, now).0, start, keys, longest)
  {
    hide Recent, RecordedSince, Remember;
    RememberWithin(c, st.(partials := s.partials), key, now, start, keys);
  }

  lemma {:induction false} PushWithin(
    c: Config, st: State, f: P.Fragment, now: Time, start: Time, keys: set<Key>, longest: nat)
    requires Inv(c, st) && Within(st, start, keys, longest)
    requires P.Validate(f) == None ==> start <= now && KeyOf(f) in keys && f.originalLength <= longest
    ensures Within(Push(c, st, f, now).0, start, keys, longest)
  {
    hide Inv, Expire, Remember, Settle, AdmissionError, Finish;
    if P.Validate(f) == None {
      var s := Expire(c, st, now);
      var key := KeyOf(f);
      ExpireWithin(c, st, now, start, keys, longest);
      if key !in s.completed {
        if f.originalLength == 0 {
          RememberWithin(c, s, key, now, start, keys);
        } else if key in s.partials {
          SettleWithin(s.partials, key, s.partials[key], f, start, keys, longest);
          FinishWithin(c, s, key, Settle(s.partials, key, s.partials[key], f), now, start, keys, longest);
        } else {
          SettleWithin(s.partials, key, Fresh(f, now), f, start, keys, longest);
          FinishWithin(c, s, key, SettleNew(c, s.partials, key, f, now), now, start, keys, longest);
        }
      }
    }
  }

  /** Along a run in its window the reassembler holds only datagrams of the run. */
  lemma {:induction false} AfterWithin(c: Config, run: seq<Event>, k: Key, start: Time, longest: nat, n: nat)
    requires ConfigOk(c) && InWindow(c, run, k, start) && Fits(c, run, k, longest) && n <= |run|
    ensures Within(After(c, EMPTY, run, n), start, KeysOf(run), longest)
  {
    hide Inv, Push, Expire, P.Validate, KeyOf, Recent, RecordedSince, Monotone;
    if n == 0 {
      NothingWithin(start, KeysOf(run), longest);
    } else {
      AfterWithin(c, run, k, start, longest, n - 1);
      InvReachable(c, run, n - 1);
      var st := After(c, EMPTY, run, n - 1);
      match run[n - 1]
      case Pushed(f, at) => PushWithin(c, st, f, at, start, KeysOf(run), longest);
      case Expired(at) => ExpireWithin(c, st, at, start, KeysOf(run), longest);
      case Discarded(s) => DiscardWithin(st, s, start, KeysOf(run), longest);
    }
  }

  lemma {:induction false} NothingWithin(start: Time, keys: set<Key>, longest: nat)
    ensures Within(EMPTY, start, keys, longest)
  {
  }

  lemma {:induction false} DiscardWithin(st: State, s: Uuid, start: Time, keys: set<Key>, longest: nat)
    requires Within(st, start, keys, longest)
    ensures Within(DiscardSession(st, s), start, keys, longest)
  {
  }

  // ---------------------------------------------------------------- room for one more

  lemma {:induction false} BytesPerPartial(partials: Partials, start: Time, longest: nat)
    requires Recent(partials, start, longest)
    ensures TotalBytes(partials) <= |partials| * longest
    decreases |partials|
  {
    hide TotalBytes;
    if partials == map[] {
      NoBytes();
    } else {
      var k :| k in partials;
      var rest := partials - {k};
      TotalBytesRemove(partials, k);
      BytesPerPartial(rest, start, longest);
      assert rest.Keys == partials.Keys - {k};
      OneMoreTimes(|rest|, longest);
    }
  }

  lemma {:induction false} NoBytes()
    ensures TotalBytes(map[]) == 0
  {
    assert Lengths(map[]) == map[];
  }

  lemma {:induction false} RoomForOneMore(
    c: Config, st: State, k: Key, start: Time, keys: set<Key>, longest: nat, length: nat)
    requires Within(st, start, keys, longest) && k in keys && k !in st.partials && length <= longest
    requires |keys| <= c.maxIncomplete && |SessionKeys(keys, k.sessionId)| <= c.maxIncompletePerSession
    requires |keys| * longest <= c.maxBufferedBytes
    ensures AdmissionError(c, st.partials, k.sessionId, length) == None
  {
    OneFewer(st.partials.Keys, keys, k);
    OneFewer(OfSession(st.partials, k.sessionId), SessionKeys(keys, k.sessionId), k);
    BytesPerPartial(st.partials, start, longest);
    MoreIsMore(|st.partials| + 1, |keys|, longest);
    OneMoreTimes(|st.partials|, longest);
  }

  lemma {:induction false} NoEviction(c: Config, st: State, e: Event, start: Time, keys: set<Key>, longest: nat)
    requires Inv(c, st) && Within(st, start, keys, longest) && |keys| <= c.maxCompleted
    requires e.Pushed? && KeyOf(e.f) in keys && Completes(c, st, e.f, e.at)
    ensures |Expire(c, st, e.at).completed| < c.maxCompleted
  {
    hide Completes, Expire, Inv;
    CompleteRemembers(c, st, e.f, e.at);
    ExpireWithin(c, st, e.at, start, keys, longest);
    OneFewer(Expire(c, st, e.at).completed.Keys, keys, KeyOf(e.f));
  }

  lemma {:induction false} StepUndisturbed(
    c: Config, run: seq<Event>, k: Key, start: Time, longest: nat, n: nat, st: State)
    requires ConfigOk(c) && InWindow(c, run, k, start) && Fits(c, run, k, longest) && n < |run|
    requires Inv(c, st) && Within(st, start, KeysOf(run), longest)
    requires PushOf(run[n], k) ==> ValidPush(run[n])
    ensures Undisturbed(c, st, run[n], k)
  {
    hide Expire, AdmissionError, Inv, P.Validate, Completes;
    var e, keys := run[n], KeysOf(run);
    if ValidPush(e) {
      assert KeyOf(e.f) in keys;
      if Completes(c, st, e.f, e.at) {
        NoEviction(c, st, e, start, keys, longest);
      }
      if PushOf(e, k) && k !in st.partials {
        ExpireWithin(c, st, e.at, start, keys, longest);
        ExpireAddsNothing(c, st, e.at);
        RoomForOneMore(c, Expire(c, st, e.at), k, start, keys, longest, e.f.originalLength);
      }
    }
  }

  lemma {:induction false} ExpireAddsNothing(c: Config, st: State, now: Time)
    ensures Expire(c, st, now).partials.Keys <= st.partials.Keys
  {
  }

  /**
   * A new reassembler delivers: if the datagrams of a run fit within the limits and the run pushes
   * every fragment of one of them, in whatever order and however often, its payload comes out exactly once.
   */
  lemma {:induction false} NewReassemblerDelivers(
    c: Config, run: seq<Event>, k: Key, start: Time, longest: nat, payload: seq<Byte>, maxFrame: nat)
    requires ConfigOk(c) && InWindow(c, run, k, start) && Fits(c, run, k, longest)
    requires P.FragmentError(k.sessionId, payload, maxFrame) == None
    requires var fs := P.Parts(k.direction, k.sessionId, k.datagramId, payload, maxFrame);
      PushesOf(run, k, fs) && Received(run, |run|, k) == All(|fs|)
    ensures var n := |P.Parts(k.direction, k.sessionId, k.datagramId, payload, maxFrame)|;
      exists m :: 0 <= m < |run| && OnlyDelivery(c, EMPTY, run, k, n, payload, m)
  {
    hide Inv, Apply, Undisturbed, OnlyDelivery, Within, Fits, InWindow;
    var fs := P.Parts(k.direction, k.sessionId, k.datagramId, payload, maxFrame);
    P.PartsAreDatagram(k.direction, k.sessionId, k.datagramId, payload, maxFrame);
    forall m | 0 <= m < |run| ensures Undisturbed(c, After(c, EMPTY, run, m), run[m], k) {
      InvReachable(c, run, m);
      AfterWithin(c, run, k, start, longest, m);
      if PushOf(run[m], k) {
        IndexInRange(fs, k, payload, run[m].f.index);
      }
      StepUndisturbed(c, run, k, start, longest, m, After(c, EMPTY, run, m));
    }
    InvEmpty(c);
    ClockRuns(c, run, k, start);
    EndToEnd(c, EMPTY, run, k, payload, maxFrame);
  }

  lemma {:induction false} ClockRuns(c: Config, run: seq<Event>, k: Key, start: Time)
    requires InWindow(c, run, k, start)
    ensures Monotone(run)
  {
  }

  /** A lone datagram that the buffer can hold fits, whatever the number of fragments and repetitions. */
  lemma {:induction false} LoneDatagramFits(c: Config, run: seq<Event>, k: Key, longest: nat)
    requires ConfigOk(c) && longest <= c.maxBufferedBytes
    requires forall m :: 0 <= m < |run| && ValidPush(run[m]) ==>
      KeyOf(run[m].f) == k && run[m].f.originalLength <= longest
    ensures Fits(c, run, k, longest)
  {
    SizeMonotone(KeysOf(run), {k});
    SizeMonotone(SessionKeys(KeysOf(run), k.sessionId), {k});
    MoreIsMore(|KeysOf(run)|, 1, longest);
  }
}
