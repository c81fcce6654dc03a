/**
 * End-to-end delivery: the fragments of one datagram, pushed in any order, with any duplicates and
 * interleaved with anything else, are reassembled exactly once into the original payload.
 */
module UdpDelivery {
  import opened Wrappers
  import opened Bytes
  import opened UdpReassembly
  import opened UdpDedup
  import opened Sequences
  import P = UdpProtocol

  function All(n: nat): (s: set<nat>)
    ensures forall i :: i in s <==> 0 <= i < n
  {
    if n == 0 then {} else All(n - 1) + {n - 1}
  }

  /** What pushing fragment `j` must return when `received` have been pushed before. */
  function Expected(received: set<nat>, j: nat, n: nat, payload: seq<Byte>): Outcome
  {
    if received == All(n) || j in received then Duplicate
    else if received + {j} == All(n) then Complete(payload)
    else Pending
  }

  ghost predicate Whole(fs: seq<P.Fragment>, k: Key, payload: seq<Byte>)
  {
    P.IsDatagram(fs, k.direction, k.sessionId, k.datagramId, payload)
  }

  predicate Holds(p: Partial, fs: seq<P.Fragment>, length: nat, received: set<nat>)
  {
    && p.originalLength == length && p.fragmentCount == |fs|
    && forall i :: 0 <= i < |fs| ==> p.fragments[i] == if i in received then Some(fs[i].payload) else None
  }

  /** The reassembler knows of datagram `k` exactly the fragments `received`. */
  ghost predicate Tracks(st: State, k: Key, fs: seq<P.Fragment>, length: nat, received: set<nat>)
  {
    && received <= All(|fs|)
    && (k in st.completed <==> received == All(|fs|))
    && (k in st.partials <==> received != {} && received != All(|fs|))
    && (k in st.partials ==> Holds(st.partials[k], fs, length, received))
  }

  predicate PushOf(e: Event, k: Key)
  {
    e.Pushed? && KeyOf(e.f) == k
  }

  /**
   * The event neither times out nor discards what is held of `k`, does not forget its record, and a
   * push that opens `k` finds the limits free.
   */
  ghost predicate Undisturbed(c: Config, st: State, e: Event, k: Key)
  {
    && (k in st.completed ==> !MayForget(c, st, e, k))
    && (k in st.partials && Cleans(e) ==> !Elapsed(e.at, st.partials[k].startedAt, c.timeout))
    && (e.Discarded? ==> e.s != k.sessionId)
    && (PushOf(e, k) && k !in st.partials && k !in st.completed && e.f.originalLength > 0 ==>
          AdmissionError(c, Expire(c, st, e.at).partials, k.sessionId, e.f.originalLength) == None)
  }

  // ---------------------------------------------------------------- single steps

  lemma {:induction false} SlotsMatch(slots: Slots, fs: seq<P.Fragment>)
    requires |slots| == |fs| && forall i :: 0 <= i < |fs| ==> slots[i].None? || slots[i].value == fs[i].payload
    ensures FilledBytes(slots) <= |Concat(P.Payloads(fs))|
    ensures (forall i :: 0 <= i < |slots| ==> slots[i].Some?) ==> Assembled(slots) == Concat(P.Payloads(fs))
  {
    if slots == [] {
    } else {
      SlotsMatch(slots[1..], fs[1..]);
      assert P.Payloads(fs)[1..] == P.Payloads(fs[1..]);
      if forall i :: 0 <= i < |slots| ==> slots[i].Some? {
        assert forall i :: 0 <= i < |slots[1..]| ==> slots[1..][i] == slots[i + 1];
      }
    }
  }

  lemma {:induction false} ExpireTracks(
    c: Config, st: State, now: Time, k: Key, fs: seq<P.Fragment>, length: nat, received: set<nat>)
    requires Inv(c, st) && Tracks(st, k, fs, length, received)
    requires k in st.completed ==> !Elapsed(now, st.completed[k], c.completedRetention)
    requires k in st.partials ==> !Elapsed(now, st.partials[k].startedAt, c.timeout)
    ensures Tracks(Expire(c, st, now), k, fs, length, received)
    ensures k in st.partials ==> Expire(c, st, now).partials[k] == st.partials[k]
  {
    DropExpiredKeeps(st.completed, st.order, c.completedRetention, now);
    if k in st.completed {
      ExpireForgets(c, st, now, k);
    }
  }

  /** Storing a fragment that is not yet held. */
  lemma {:induction false} StoreExpected(
    p: Partial, fs: seq<P.Fragment>, k: Key, payload: seq<Byte>, received: set<nat>, j: nat)
    requires Whole(fs, k, payload) && payload != [] && j < |fs| && received < All(|fs|)
    requires Holds(p, fs, |payload|, received)
    requires p.receivedFragments == Filled(p.fragments) && p.receivedBytes == FilledBytes(p.fragments)
    ensures j in received ==> Store(p, fs[j]) == Repeated
    ensures j !in received ==> Store(p, fs[j]).Accepted?
    ensures j !in received ==>
      var p' := Store(p, fs[j]).partial;
      && Holds(p', fs, |payload|, received + {j})
      && (p'.receivedFragments == p'.fragmentCount <==> received + {j} == All(|fs|))
      && (received + {j} == All(|fs|) ==> Assembled(p'.fragments) == payload && p'.receivedBytes == |payload|)
  {
    hide Filled, FilledBytes, Assembled, P.Validate, Whole;
    IndexInRange(fs, k, payload, j);
    if j !in received {
      var slots := p.fragments[j := Some(fs[j].payload)];
      FillSlot(p.fragments, j, fs[j].payload);
      SlotsHold(p, fs, |payload|, received, j);
      SlotsOfWhole(slots, fs, k, payload);
      FilledBounds(slots);
      FullIffAll(slots, received + {j});
    }
  }

  lemma {:induction false} SlotsHold(p: Partial, fs: seq<P.Fragment>, length: nat, received: set<nat>, j: nat)
    requires Holds(p, fs, length, received) && j < |fs| && received <= All(|fs|)
    ensures var slots := p.fragments[j := Some(fs[j].payload)];
      && (forall i :: 0 <= i < |slots| ==> slots[i] == if i in received + {j} then Some(fs[i].payload) else None)
      && received + {j} <= All(|slots|)
  {
  }

  lemma {:induction false} SlotsOfWhole(slots: Slots, fs: seq<P.Fragment>, k: Key, payload: seq<Byte>)
    requires Whole(fs, k, payload) && |slots| == |fs|
    requires forall i :: 0 <= i < |fs| ==> slots[i].None? || slots[i].value == fs[i].payload
    ensures FilledBytes(slots) <= |payload|
    ensures (forall i :: 0 <= i < |slots| ==> slots[i].Some?) ==> Assembled(slots) == payload
  {
    hide FilledBytes, Assembled;
    SlotsMatch(slots, fs);
  }

  lemma {:induction false} FullIffAll(slots: Slots, received: set<nat>)
    requires received <= All(|slots|) && forall i :: 0 <= i < |slots| ==> (slots[i].Some? <==> i in received)
    ensures (forall i :: 0 <= i < |slots| ==> slots[i].Some?) <==> received == All(|slots|)
  {
    if forall i :: 0 <= i < |slots| ==> slots[i].Some? {
      assert forall i :: 0 <= i < |slots| ==> i in received;
    }
    assert forall i :: 0 <= i < |slots| ==> i in All(|slots|);
  }

  lemma {:induction false} SettleExpected(
    partials: Partials, p: Partial, fs: seq<P.Fragment>, k: Key, payload: seq<Byte>, received: set<nat>, j: nat)
    requires Whole(fs, k, payload) && payload != [] && j < |fs| && received < All(|fs|)
    requires Holds(p, fs, |payload|, received)
    requires p.receivedFragments == Filled(p.fragments) && p.receivedBytes == FilledBytes(p.fragments)
    ensures var s := Settle(partials, k, p, fs[j]);
      && s.result == Ok(Expected(received, j, |fs|, payload))
      && (k in s.partials <==> received + {j} != All(|fs|))
      && (k in s.partials ==> Holds(s.partials[k], fs, |payload|, received + {j}))
  {
    hide Assembled, Filled, FilledBytes, Whole;
    StoreExpected(p, fs, k, payload, received, j);
    assert j in received ==> received + {j} == received;
    assert fs[j].index < fs[j].count by { IndexInRange(fs, k, payload, j); }
  }

  lemma {:induction false} IndexInRange(fs: seq<P.Fragment>, k: Key, payload: seq<Byte>, j: nat)
    requires Whole(fs, k, payload) && j < |fs|
    ensures P.Validate(fs[j]) == None && KeyOf(fs[j]) == k && fs[j].index == j && fs[j].count == |fs|
    ensures fs[j].originalLength == |payload| && fs[j].index < fs[j].count
    ensures payload == [] ==> |fs| == 1
  {
  }

  /** What a settlement of `k` with the expected result leaves behind. */
  lemma {:induction false} FinishTracks(
    c: Config, st: State, k: Key, s: Settlement, now: Time, fs: seq<P.Fragment>, payload: seq<Byte>,
    received: set<nat>, j: nat)
    requires j < |fs| && received < All(|fs|) && k !in st.completed
    requires s.result == Ok(Expected(received, j, |fs|, payload))
    requires k in s.partials <==> received + {j} != All(|fs|)
    requires k in s.partials ==> Holds(s.partials[k], fs, |payload|, received + {j})
    ensures Finish(c, st, k, s, now).1 == Ok(Expected(received, j, |fs|, payload))
    ensures Tracks(Finish(c, st, k, s, now).0, k, fs, |payload|, received + {j})
  {
    hide Holds;
    assert j in received ==> received + {j} == received;
  }

  /** One push of a fragment of `k`: it returns what is expected and is recorded. */
  lemma {:induction false} PushStep(
    c: Config, st: State, e: Event, k: Key, fs: seq<P.Fragment>, payload: seq<Byte>, received: set<nat>)
    requires ConfigOk(c) && Inv(c, st) && Sorted(st.order) && Whole(fs, k, payload)
    requires PushOf(e, k) && e.f.index < |fs| && e.f == fs[e.f.index]
    requires Tracks(st, k, fs, |payload|, received) && Undisturbed(c, st, e, k)
    ensures Push(c, st, e.f, e.at).1 == Ok(Expected(received, e.f.index, |fs|, payload))
    ensures Tracks(Apply(c, st, e), k, fs, |payload|, received + {e.f.index})
  {
    hide Inv, Expire, Whole, Holds, Settle, AdmissionError, P.Validate, Finish;
    var j: nat := e.f.index;
    var s := Expire(c, st, e.at);
    IndexInRange(fs, k, payload, j);
    ExpireTracks(c, st, e.at, k, fs, |payload|, received);
    if received == All(|fs|) {
      assert received + {j} == received;
    } else if payload == [] {
      assert received == {} && {} + {0} == All(1);
    } else if k in s.partials {
      PushKnown(c, st, e, k, fs, payload, received, j);
    } else {
      assert received == {};
      PushFirst(c, st, e, k, fs, payload, j);
    }
  }

  lemma {:induction false} PushKnown(
    c: Config, st: State, e: Event, k: Key, fs: seq<P.Fragment>, payload: seq<Byte>, received: set<nat>, j: nat)
    requires Inv(c, st) && Whole(fs, k, payload) && payload != [] && received < All(|fs|) && j < |fs|
    requires PushOf(e, k) && e.f == fs[j]
    requires var s := Expire(c, st, e.at);
      k !in s.completed && k in s.partials && Holds(s.partials[k], fs, |payload|, received)
    ensures Push(c, st, e.f, e.at).1 == Ok(Expected(received, j, |fs|, payload))
    ensures Tracks(Push(c, st, e.f, e.at).0, k, fs, |payload|, received + {j})
  {
    hide Inv, Expire, Whole, Holds, Settle, AdmissionError, P.Validate, Finish, Tracks, Expected;
    var s := Expire(c, st, e.at);
    IndexInRange(fs, k, payload, j);
    InvExpire(c, st, e.at);
    CountersOf(c, s, k);
    SettleExpected(s.partials, s.partials[k], fs, k, payload, received, j);
    FinishTracks(c, s, k, Settle(s.partials, k, s.partials[k], e.f), e.at, fs, payload, received, j);
  }

  lemma {:induction false} PushFirst(
    c: Config, st: State, e: Event, k: Key, fs: seq<P.Fragment>, payload: seq<Byte>, j: nat)
    requires Whole(fs, k, payload) && payload != [] && j < |fs| && PushOf(e, k) && e.f == fs[j]
    requires var s := Expire(c, st, e.at);
      k !in s.completed && k !in s.partials && AdmissionError(c, s.partials, k.sessionId, e.f.originalLength) == None
    ensures Push(c, st, e.f, e.at).1 == Ok(Expected({}, j, |fs|, payload))
    ensures Tracks(Push(c, st, e.f, e.at).0, k, fs, |payload|, {} + {j})
  {
    hide Expire, Whole, Holds, Settle, AdmissionError, P.Validate, Finish, Tracks, Expected;
    var s := Expire(c, st, e.at);
    IndexInRange(fs, k, payload, j);
    FreshHolds(fs, k, payload, j, e.at);
    assert 0 in All(|fs|);
    SettleExpected(s.partials, Fresh(e.f, e.at), fs, k, payload, {}, j);
    FinishTracks(c, s, k, Settle(s.partials, k, Fresh(e.f, e.at), e.f), e.at, fs, payload, {}, j);
  }

  lemma {:induction false} CountersOf(c: Config, st: State, k: Key)
    requires Inv(c, st) && k in st.partials
    ensures var p := st.partials[k];
      p.receivedFragments == Filled(p.fragments) && p.receivedBytes == FilledBytes(p.fragments)
  {
  }

  lemma {:induction false} FreshHolds(fs: seq<P.Fragment>, k: Key, payload: seq<Byte>, j: nat, now: Time)
    requires Whole(fs, k, payload) && j < |fs|
    ensures var p := Fresh(fs[j], now);
      && Holds(p, fs, |payload|, {})
      && p.receivedFragments == Filled(p.fragments) && p.receivedBytes == FilledBytes(p.fragments)
  {
    FilledBounds(Fresh(fs[j], now).fragments);
  }

  /** Any other event leaves what is known of `k` unchanged. */
  lemma {:induction false} OtherStep(
    c: Config, st: State, e: Event, k: Key, fs: seq<P.Fragment>, length: nat, received: set<nat>)
    requires ConfigOk(c) && Inv(c, st) && Sorted(st.order) && !PushOf(e, k)
    requires Tracks(st, k, fs, length, received) && Undisturbed(c, st, e, k)
    ensures Tracks(Apply(c, st, e), k, fs, length, received)
  {
    hide Inv, Holds, AdmissionError, MayForget;
    if k in st.completed {
      OnlyForgetsForReason(c, st, e, k);
    }
    if Cleans(e) {
      if k in st.completed {
        RetentionHolds(c, st, e, k);
      }
      ExpireTracks(c, st, e.at, k, fs, length, received);
      if e.Pushed? {
        PushLeavesOthers(c, st, e.f, e.at, k);
      }
    }
  }

  lemma {:induction false} RetentionHolds(c: Config, st: State, e: Event, k: Key)
    requires k in st.completed && !MayForget(c, st, e, k) && Cleans(e)
    ensures !Elapsed(e.at, st.completed[k], c.completedRetention)
  {
  }

  lemma {:induction false} RememberLeavesOthers(c: Config, st: State, key: Key, now: Time, k: Key)
    requires key != k
    ensures Remember(c, st, key, now).partials == st.partials
    ensures k !in st.completed ==> k !in Remember(c, st, key, now).completed
  {
    hide Compact;
    EvictShrinks(st.completed, st.order);
  }

  lemma {:induction false} SettleLeavesOthers(
    c: Config, partials: Partials, key: Key, p: Partial, f: P.Fragment, k: Key)
    requires key != k && f.index < f.count
    ensures var s := Settle(partials, key, p, f).partials;
      (k in s <==> k in partials) && (k in partials ==> s[k] == partials[k])
  {
    hide Store, Assembled;
  }

  lemma {:induction false} FinishLeavesOthers(c: Config, st: State, key: Key, s: Settlement, now: Time, k: Key)
    requires key != k && k !in st.completed
    ensures var st' := Finish(c, st, key, s, now).0; st'.partials == s.partials && k !in st'.completed
  {
    hide Remember;
    RememberLeavesOthers(c, st.(partials := s.partials), key, now, k);
  }

  lemma {:induction false} FinishKeepsPartials(c: Config, st: State, key: Key, s: Settlement, now: Time)
    ensures Finish(c, st, key, s, now).0.partials == s.partials
  {
    hide EvictOldest, Compact;
  }

  lemma {:induction false} PushLeavesOthers(c: Config, st: State, f: P.Fragment, now: Time, k: Key)
    requires KeyOf(f) != k && P.Validate(f) == None
    ensures var s, st' := Expire(c, st, now), Push(c, st, f, now).0;
      && (k in st'.partials <==> k in s.partials)
      && (k in s.partials ==> st'.partials[k] == s.partials[k])
      && (k !in s.completed ==> k !in st'.completed)
  {
    hide Expire, Settle, Finish, Remember, AdmissionError;
    var s, key := Expire(c, st, now), KeyOf(f);
    if key !in s.completed {
      if f.originalLength == 0 {
        RememberLeavesOthers(c, s, key, now, k);
      } else {
        var p := if key in s.partials then s.partials[key] else Fresh(f, now);
        SettleLeavesOthers(c, s.partials, key, p, f, k);
        var settled :=
          if key in s.partials then Settle(s.partials, key, p, f) else SettleNew(c, s.partials, key, f, now);
        FinishKeepsPartials(c, s, key, settled, now);
        if k !in s.completed {
          FinishLeavesOthers(c, s, key, settled, now, k);
        }
      }
    }
  }

  lemma {:induction false} EvictShrinks(completed: map<Key, Time>, order: Queue)
    ensures EvictOldest(completed, order).0.Keys <= completed.Keys
    decreases |order|
  {
    if order != [] && !Current(completed, order[0]) {
      EvictShrinks(completed, order[1..]);
    }
  }

  // ---------------------------------------------------------------- whole runs

  /** Which fragment index of `k` an event pushes. */
  function IndexMark(k: Key): Event -> Option<nat>
  {
    (e: Event) => if PushOf(e, k) then Some(e.f.index) else None
  }

  /** The fragment indexes of `k` pushed among the first `n` events. */
  ghost function Received(run: seq<Event>, n: nat, k: Key): set<nat>
    requires n <= |run|
  {
    Marks(run, n, IndexMark(k))
  }

  lemma {:induction false} ReceivedStep(run: seq<Event>, n: nat, k: Key)
    requires n < |run|
    ensures Received(run, n + 1, k) == Received(run, n, k) + if PushOf(run[n], k) then {run[n].f.index as nat} else {}
  {
  }

  /** Every push of `k` in the run carries one of the fragments `fs`. */
  predicate PushesOf(run: seq<Event>, k: Key, fs: seq<P.Fragment>)
  {
    forall m :: 0 <= m < |run| && PushOf(run[m], k) ==> run[m].f.index < |fs| && run[m].f == fs[run[m].f.index]
  }

  ghost predicate Quiet(c: Config, st: State, run: seq<Event>, k: Key)
  {
    forall m :: 0 <= m < |run| ==> Undisturbed(c, After(c, st, run, m), run[m], k)
  }

  /** A start state that has not heard of `k` and a run whose clock does not go backwards. */
  ghost predicate Ready(c: Config, st: State, run: seq<Event>, k: Key)
  {
    && ConfigOk(c) && Inv(c, st) && k !in st.partials && k !in st.completed
    && Monotone(run) && Sorted(st.order)
    && forall j :: 0 <= j < |run| && Timed(run[j]) ==> Before(st.order, run[j].at)
  }

  ghost function ResultAt(c: Config, st: State, run: seq<Event>, m: nat): Result<Outcome, Error>
    requires m < |run| && run[m].Pushed?
  {
    Push(c, After(c, st, run, m), run[m].f, run[m].at).1
  }

  ghost predicate AsExpected(c: Config, st: State, run: seq<Event>, m: nat, k: Key, n: nat, payload: seq<Byte>)
    requires m < |run|
  {
    PushOf(run[m], k) ==>
      ResultAt(c, st, run, m) == Ok(Expected(Received(run, m, k), run[m].f.index, n, payload))
  }

  lemma {:induction false} NotEmpty(fs: seq<P.Fragment>, k: Key, payload: seq<Byte>)
    requires Whole(fs, k, payload)
    ensures |fs| >= 1
  {
  }

  lemma {:induction false} TracksNothing(st: State, k: Key, fs: seq<P.Fragment>, payload: seq<Byte>)
    requires Whole(fs, k, payload) && k !in st.partials && k !in st.completed
    ensures Tracks(st, k, fs, |payload|, {})
  {
    assert 0 in All(|fs|);
  }

  lemma {:induction false} ReassemblyStep(
    c: Config, st: State, run: seq<Event>, n: nat, k: Key, fs: seq<P.Fragment>, payload: seq<Byte>)
    requires n < |run| && Ready(c, st, run, k) && Whole(fs, k, payload) && PushesOf(run, k, fs) && Quiet(c, st, run, k)
    requires Tracks(After(c, st, run, n), k, fs, |payload|, Received(run, n, k))
    ensures Tracks(After(c, st, run, n + 1), k, fs, |payload|, Received(run, n + 1, k))
    ensures AsExpected(c, st, run, n, k, |fs|, payload)
  {
    hide Inv, Apply, Push, Whole, Undisturbed, Tracks, Expected, Monotone, Sorted, Before;
    var prior, e, received := After(c, st, run, n), run[n], Received(run, n, k);
    InvAfter(c, st, run, n);
    QueueSorted(c, st, run, n);
    assert Undisturbed(c, prior, e, k);
    if PushOf(e, k) {
      assert e.f.index < |fs| && e.f == fs[e.f.index];
      PushStep(c, prior, e, k, fs, payload, received);
      assert Received(run, n + 1, k) == received + {e.f.index};
    } else {
      OtherStep(c, prior, e, k, fs, |payload|, received);
      assert Received(run, n + 1, k) == received;
    }
  }

  /** Along any quiet run every push of `k` returns what is expected and is recorded. */
  lemma {:induction false} Reassembly(
    c: Config, st: State, run: seq<Event>, n: nat, k: Key, fs: seq<P.Fragment>, payload: seq<Byte>)
    requires n <= |run| && Ready(c, st, run, k) && Whole(fs, k, payload) && PushesOf(run, k, fs) && Quiet(c, st, run, k)
    ensures Tracks(After(c, st, run, n), k, fs, |payload|, Received(run, n, k))
    ensures forall m :: 0 <= m < n ==> AsExpected(c, st, run, m, k, |fs|, payload)
  {
    hide Inv, Apply, Push, Whole, Tracks, Quiet, PushesOf, Monotone, Sorted, Before, AsExpected;
    if n == 0 {
      TracksNothing(st, k, fs, payload);
    } else {
      Reassembly(c, st, run, n - 1, k, fs, payload);
      ReassemblyStep(c, st, run, n - 1, k, fs, payload);
    }
  }

  /**
   * `m` is the one delivery: the push of the last missing fragment, with only pending or duplicate before
   * and only duplicates after.
   */
  ghost predicate OnlyDelivery(c: Config, st: State, run: seq<Event>, k: Key, n: nat, payload: seq<Byte>, m: nat)
    requires m < |run|
  {
    && PushOf(run[m], k) && ResultAt(c, st, run, m) == Ok(Complete(payload))
    && Received(run, m, k) + {run[m].f.index as nat} == All(n)
    && (forall h :: 0 <= h < m && PushOf(run[h], k) ==>
          ResultAt(c, st, run, h) == Ok(Pending) || ResultAt(c, st, run, h) == Ok(Duplicate))
    && (forall h :: m < h < |run| && PushOf(run[h], k) ==> ResultAt(c, st, run, h) == Ok(Duplicate))
  }

  lemma {:induction false} DeliveredExactlyOnce(
    c: Config, st: State, run: seq<Event>, k: Key, fs: seq<P.Fragment>, payload: seq<Byte>)
    requires Ready(c, st, run, k) && Whole(fs, k, payload) && PushesOf(run, k, fs) && Quiet(c, st, run, k)
    ensures Received(run, |run|, k) == All(|fs|) ==>
      exists m :: 0 <= m < |run| && OnlyDelivery(c, st, run, k, |fs|, payload, m)
    ensures Received(run, |run|, k) != All(|fs|) ==>
      forall h :: 0 <= h < |run| && PushOf(run[h], k) ==>
        ResultAt(c, st, run, h) == Ok(Pending) || ResultAt(c, st, run, h) == Ok(Duplicate)
  {
    hide Inv, After, Push, Whole, Undisturbed, Ready, Quiet, PushesOf, Marks;
    Reassembly(c, st, run, |run|, k, fs, payload);
    var all := All(|fs|);
    NotEmpty(fs, k, payload);
    assert 0 in all;
    assert forall h :: 0 <= h < |run| ==> AsExpected(c, st, run, h, k, |fs|, payload);
    if Received(run, |run|, k) == all {
      var m := LastMark(run, |run|, IndexMark(k), all);
      forall h | 0 <= h < m && PushOf(run[h], k)
        ensures ResultAt(c, st, run, h) == Ok(Pending) || ResultAt(c, st, run, h) == Ok(Duplicate)
      {
        ReceivedStep(run, h, k);
        MarksGrow(run, h + 1, m, IndexMark(k));
        MarksGrow(run, m, |run|, IndexMark(k));
        assert AsExpected(c, st, run, h, k, |fs|, payload);
      }
      forall h | m < h < |run| && PushOf(run[h], k)
        ensures ResultAt(c, st, run, h) == Ok(Duplicate)
      {
        MarksGrow(run, m + 1, h, IndexMark(k));
        MarksGrow(run, h, |run|, IndexMark(k));
        assert AsExpected(c, st, run, h, k, |fs|, payload);
      }
      ReceivedStep(run, m, k);
      assert AsExpected(c, st, run, m, k, |fs|, payload);
      assert OnlyDelivery(c, st, run, k, |fs|, payload, m);
    } else {
      forall h | 0 <= h < |run| && PushOf(run[h], k)
        ensures ResultAt(c, st, run, h) == Ok(Pending) || ResultAt(c, st, run, h) == Ok(Duplicate)
      {
        ReceivedStep(run, h, k);
        MarksGrow(run, h + 1, |run|, IndexMark(k));
        assert AsExpected(c, st, run, h, k, |fs|, payload);
        Tracked(c, st, run, k, fs, payload);
      }
    }
  }

  lemma {:induction false} Tracked(
    c: Config, st: State, run: seq<Event>, k: Key, fs: seq<P.Fragment>, payload: seq<Byte>)
    requires Ready(c, st, run, k) && Whole(fs, k, payload) && PushesOf(run, k, fs) && Quiet(c, st, run, k)
    ensures Received(run, |run|, k) <= All(|fs|)
  {
    Reassembly(c, st, run, |run|, k, fs, payload);
  }

  /**
   * From the sender's payload to the receiver's: whatever can be fragmented is delivered exactly
   * once, intact, whenever all its fragments arrive, however the run orders and repeats them.
   */
  lemma {:induction false} EndToEnd(c: Config, st: State, run: seq<Event>, k: Key, payload: seq<Byte>, maxFrame: nat)
    requires P.FragmentError(k.sessionId, payload, maxFrame) == None && Ready(c, st, run, k) && Quiet(c, st, run, k)
    requires PushesOf(run, k, P.Parts(k.direction, k.sessionId, k.datagramId, payload, maxFrame))
    ensures var n := |P.Parts(k.direction, k.sessionId, k.datagramId, payload, maxFrame)|;
      Received(run, |run|, k) == All(n) ==>
        exists m :: 0 <= m < |run| && OnlyDelivery(c, st, run, k, n, payload, m)
  {
    hide Inv, After, Push, Undisturbed, Ready, Quiet, OnlyDelivery, PushesOf;
    P.PartsAreDatagram(k.direction, k.sessionId, k.datagramId, payload, maxFrame);
    DeliveredExactlyOnce(c, st, run, k, P.Parts(k.direction, k.sessionId, k.datagramId, payload, maxFrame), payload);
  }
}
