/**
 * What a push comes to once the clean-up is done, case by case: what is a repetition, when a new datagram is
 * refused and why, and what is remembered of a completed one.
 */
module UdpOutcome {
  import opened Wrappers
  import opened Bytes
  import opened MapSum
  import opened UdpReassembly
  import opened UdpDedup
  import opened UdpGenuine
  import P = UdpProtocol

  /** Whether there is room for one more datagram of `length` bytes, and which limit is the first without. */
  ghost function Refusal(c: Config, partials: Partials, s: Uuid, length: nat): Option<Error>
  {
    if |partials| + 1 > c.maxIncomplete then Some(IncompleteDatagramLimit)
    else if |set k | k in partials && k.sessionId == s| + 1 > c.maxIncompletePerSession then
      Some(SessionIncompleteLimit)
    else if Sum(map k | k in partials :: partials[k].originalLength) + length > c.maxBufferedBytes then
      Some(MemoryLimit)
    else None
  }

  /** A partial datagram that holds its first fragment only. */
  ghost predicate HoldsOnly(p: Partial, f: P.Fragment, now: Time)
  {
    && p.startedAt == now && p.originalLength == f.originalLength && |p.fragments| == f.count
    && p.receivedFragments == 1 && p.receivedBytes == |f.payload|
    && forall i :: 0 <= i < |p.fragments| ==> p.fragments[i] == if i == f.index then Some(f.payload) else None
  }

  /** `key` is recorded at `now`; if the record was full one of its oldest entries made room. */
  ghost predicate Recorded(c: Config, before: map<Key, Time>, after: map<Key, Time>, key: Key, now: Time)
  {
    if |before| < c.maxCompleted then after == before[key := now]
    else exists k ::
      && k in before && (forall j :: j in before ==> before[k] <= before[j])
      && after == (before - {k})[key := now]
  }

  lemma {:induction false} RememberRecords(c: Config, st: State, key: Key, now: Time)
    requires ConfigOk(c) && CompletedInv(c, st.completed, st.order) && Sorted(st.order)
    ensures var st2 := Remember(c, st, key, now);
      && Recorded(c, st.completed, st2.completed, key, now)
      && st2.partials == st.partials && st2.nextCleanup == st.nextCleanup
  {
    hide Sorted, Compact, Indexed;
    if |st.completed| >= c.maxCompleted {
      assert st.completed != map[];
      EvictsAnOldest(st.completed, st.order);
    }
  }

  lemma {:induction false} RefusalIsAdmission(c: Config, partials: Partials, s: Uuid, length: nat)
    ensures AdmissionError(c, partials, s, length) == Refusal(c, partials, s, length)
  {
    assert OfSession(partials, s) == set k | k in partials && k.sessionId == s;
    assert Lengths(partials) == map k | k in partials :: partials[k].originalLength;
  }

  /** A datagram already completed is a repetition, and an empty one is complete at once. */
  lemma {:induction false} KnownOrEmpty(c: Config, st: State, f: P.Fragment, now: Time)
    requires ConfigOk(c) && Inv(c, st) && Sorted(st.order) && P.Validate(f) == None
    ensures var s, key := Expire(c, st, now), KeyOf(f);
      var (st2, r) := Push(c, st, f, now);
      && (key in s.completed ==> st2 == s && r == Ok(Duplicate))
      && (key !in s.completed && f.originalLength == 0 ==>
            && r == Ok(Complete([])) && st2.partials == s.partials
            && Recorded(c, s.completed, st2.completed, key, now))
  {
    hide Expire, Remember, Sorted, P.Validate, Recorded;
    var s, key := Expire(c, st, now), KeyOf(f);
    InvExpire(c, st, now);
    ExpireSorted(c, st, now);
    CompletedPart(c, s);
    RememberRecords(c, s, key, now);
  }

  lemma {:induction false} LoneSettles(partials: Partials, key: Key, f: P.Fragment, now: Time)
    requires P.Validate(f) == None && f.count == 1 && f.originalLength > 0 && key !in partials
    ensures Settle(partials, key, Fresh(f, now), f) == Settlement(partials, Ok(Complete(f.payload)))
  {
    var slots := Fresh(f, now).fragments[f.index := Some(f.payload)];
    assert slots == [Some(f.payload)] && slots[1..] == [];
    assert Assembled(slots) == f.payload;
    assert partials - {key} == partials;
  }

  /** A lone fragment for which there is room is the whole datagram. */
  lemma {:induction false} LoneFragment(c: Config, st: State, f: P.Fragment, now: Time)
    requires ConfigOk(c) && Inv(c, st) && Sorted(st.order) && P.Validate(f) == None && f.originalLength > 0
    requires var s := Expire(c, st, now);
      && KeyOf(f) !in s.completed && KeyOf(f) !in s.partials
      && AdmissionError(c, s.partials, f.sessionId, f.originalLength) == None
    requires f.count == 1
    ensures var s := Expire(c, st, now);
      var (st2, r) := Push(c, st, f, now);
      && r == Ok(Complete(f.payload)) && st2.partials == s.partials
      && Recorded(c, s.completed, st2.completed, KeyOf(f), now)
  {
    hide Expire, Remember, Sorted, Recorded, AdmissionError, PartialsInv, Settle;
    var s, key := Expire(c, st, now), KeyOf(f);
    InvExpire(c, st, now);
    ExpireSorted(c, st, now);
    CompletedPart(c, s);
    LoneSettles(s.partials, key, f, now);
    RememberRecords(c, s, key, now);
  }

  /** The first of several fragments for which there is room waits for the others. */
  lemma {:induction false} FirstOfMany(c: Config, st: State, f: P.Fragment, now: Time)
    requires P.Validate(f) == None && f.originalLength > 0 && f.count > 1
    requires var s := Expire(c, st, now);
      && KeyOf(f) !in s.completed && KeyOf(f) !in s.partials
      && AdmissionError(c, s.partials, f.sessionId, f.originalLength) == None
    ensures var s, key := Expire(c, st, now), KeyOf(f);
      var (st2, r) := Push(c, st, f, now);
      && r == Ok(Pending) && key in st2.partials && HoldsOnly(st2.partials[key], f, now)
      && st2 == s.(partials := s.partials[key := st2.partials[key]])
  {
    hide Expire, AdmissionError, Remember;
  }

  /** The first fragment of a new datagram: refused for the first limit without room, complete, or pending. */
  lemma {:induction false} FirstFragment(c: Config, st: State, f: P.Fragment, now: Time)
    requires ConfigOk(c) && Inv(c, st) && Sorted(st.order) && P.Validate(f) == None && f.originalLength > 0
    requires var s := Expire(c, st, now); KeyOf(f) !in s.completed && KeyOf(f) !in s.partials
    ensures var s, key := Expire(c, st, now), KeyOf(f);
      var (st2, r) := Push(c, st, f, now);
      match Refusal(c, s.partials, f.sessionId, f.originalLength)
      case Some(e) => r == Err(e) && st2 == s
      case None =>
        if f.count == 1 then
          && r == Ok(Complete(f.payload)) && st2.partials == s.partials
          && Recorded(c, s.completed, st2.completed, key, now)
        else
          && r == Ok(Pending) && key in st2.partials && HoldsOnly(st2.partials[key], f, now)
          && st2 == s.(partials := s.partials[key := st2.partials[key]])
  {
    hide Expire, Remember, Sorted, Recorded, AdmissionError, Refusal, Inv, HoldsOnly, Store;
    var s := Expire(c, st, now);
    RefusalIsAdmission(c, s.partials, f.sessionId, f.originalLength);
    if Refusal(c, s.partials, f.sessionId, f.originalLength).Some? {
    } else if f.count == 1 {
      LoneFragment(c, st, f, now);
    } else {
      FirstOfMany(c, st, f, now);
    }
  }

  /** One more fragment that fits: pending while any is missing, and complete with the last. */
  lemma {:induction false} NextFragment(c: Config, st: State, f: P.Fragment, now: Time)
    requires ConfigOk(c) && Inv(c, st) && Sorted(st.order) && P.Validate(f) == None && f.originalLength > 0
    requires var s := Expire(c, st, now); KeyOf(f) !in s.completed && KeyOf(f) in s.partials
    requires f.index < f.count
    requires var p := Expire(c, st, now).partials[KeyOf(f)];
      Verdict(p, f) == None && p.fragments[f.index] == None
    ensures var s, key := Expire(c, st, now), KeyOf(f);
      var p, (st2, r) := s.partials[key], Push(c, st, f, now);
      var slots := p.fragments[f.index := Some(f.payload)];
      if exists i :: 0 <= i < |slots| && slots[i] == None then
        && r == Ok(Pending) && key in st2.partials && st2 == s.(partials := s.partials[key := st2.partials[key]])
        && st2.partials[key].fragments == slots && st2.partials[key].startedAt == p.startedAt
        && st2.partials[key].originalLength == p.originalLength
      else if |Concat(PartsOf(slots))| != p.originalLength then
        r == Err(CompletedLengthMismatch) && st2 == s.(partials := s.partials - {key})
      else
        && r == Ok(Complete(Concat(PartsOf(slots)))) && st2.partials == s.partials - {key}
        && Recorded(c, s.completed, st2.completed, key, now)
  {
    hide Expire, Remember, Sorted, Recorded, PartsOf, Assembled, TotalBytes, SessionsWithin, FilledBytes, P.Validate;
    var s, key := Expire(c, st, now), KeyOf(f);
    var p := s.partials[key];
    InvExpire(c, st, now);
    ExpireSorted(c, st, now);
    CompletedPart(c, s);
    assert PartialOk(p);
    var slots := p.fragments[f.index := Some(f.payload)];
    RememberRecords(c, s.(partials := s.partials - {key}), key, now);
    FillSlot(p.fragments, f.index, f.payload);
    FilledBounds(slots);
    PartsJoin(slots);
  }

  /** Discarding a session drops exactly its partial datagrams and its records. */
  lemma {:induction false} DiscardExact(st: State, s: Uuid)
    ensures var st2 := DiscardSession(st, s);
      && (forall k :: k in st2.partials <==> k in st.partials && k.sessionId != s)
      && (forall k :: k in st2.partials ==> st2.partials[k] == st.partials[k])
      && (forall k :: k in st2.completed <==> k in st.completed && k.sessionId != s)
      && (forall k :: k in st2.completed ==> st2.completed[k] == st.completed[k])
      && st2.order == st.order && st2.nextCleanup == st.nextCleanup
  {
  }
}
