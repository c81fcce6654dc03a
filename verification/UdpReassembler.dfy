/**
 * The reassembler object itself: its redundant counters, its tombstoned queue and its loops, proved to
 * do exactly what the functions of `UdpReassembly` say and to keep every redundant field in agreement.
 */
module UdpReassembler {
  import opened Wrappers
  import opened Bytes
  import opened MapSum
  import opened UdpReassembly
  import P = UdpProtocol

  datatype Expiration = Expiration(incompleteDatagrams: nat, bufferedBytes: nat, completedDatagrams: nat)

  /** The per-session counts are positive and exact. */
  ghost predicate CountsMatch(counts: map<Uuid, nat>, partials: Partials)
  {
    forall s :: CountMatches(counts, partials, s)
  }

  ghost predicate CountMatches(counts: map<Uuid, nat>, partials: Partials, s: Uuid)
  {
    |OfSession(partials, s)| == if s in counts then counts[s] else 0
  }

  predicate Positive(counts: map<Uuid, nat>)
  {
    forall s :: s in counts ==> counts[s] > 0
  }

  lemma {:induction false} CountsInsert(counts: map<Uuid, nat>, partials: Partials, k: Key, p: Partial)
    requires CountsMatch(counts, partials) && k !in partials
    ensures CountsMatch(counts[k.sessionId := |OfSession(partials, k.sessionId)| + 1], partials[k := p])
  {
    hide OfSession;
    var counts', partials' := counts[k.sessionId := |OfSession(partials, k.sessionId)| + 1], partials[k := p];
    forall s ensures CountMatches(counts', partials', s) {
      assert CountMatches(counts, partials, s);
      OfSessionUpdate(partials, k, p, s);
    }
  }

  lemma {:induction false} CountsRemove(counts: map<Uuid, nat>, partials: Partials, k: Key)
    requires CountsMatch(counts, partials) && k in partials
    ensures k.sessionId in counts && counts[k.sessionId] > 0
    ensures var n := counts[k.sessionId] - 1;
      CountsMatch(if n == 0 then counts - {k.sessionId} else counts[k.sessionId := n], partials - {k})
  {
    hide OfSession;
    assert CountMatches(counts, partials, k.sessionId);
    OfSessionRemove(partials, k, k.sessionId);
    var n := counts[k.sessionId] - 1;
    var counts' := if n == 0 then counts - {k.sessionId} else counts[k.sessionId := n];
    forall s ensures CountMatches(counts', partials - {k}, s) {
      assert CountMatches(counts, partials, s);
      OfSessionRemove(partials, k, s);
    }
  }

  lemma {:induction false} CountsReplace(counts: map<Uuid, nat>, partials: Partials, k: Key, p: Partial)
    requires CountsMatch(counts, partials) && k in partials
    ensures CountsMatch(counts, partials[k := p])
  {
    hide OfSession;
    var partials' := partials[k := p];
    forall s ensures CountMatches(counts, partials', s) {
      assert CountMatches(counts, partials, s);
      OfSessionUpdate(partials, k, p, s);
    }
  }

  lemma {:induction false} SettleIgnoresOwnRecord(partials: Partials, key: Key, q: Partial, p: Partial, f: P.Fragment)
    requires f.index < f.count
    ensures Settle(partials[key := q], key, p, f) == Settle(partials, key, p, f)
  {
    hide Assembled;
    assert partials[key := q] - {key} == partials - {key};
    assert partials[key := q][key := p] == partials[key := p];
    if Store(p, f).Accepted? {
      var p' := Store(p, f).partial;
      assert partials[key := q][key := p'] == partials[key := p'];
    }
  }

  class Reassembler {
    const config: Config
    var partials: Partials
    var incompleteBySession: map<Uuid, nat>
    var completed: map<Key, Time>
    var completedOrder: Queue
    var bufferedBytes: nat
    var nextCleanupAt: Option<Time>

    ghost function Logical(): State
      reads this
    {
      State(partials, completed, completedOrder, nextCleanupAt)
    }

    ghost predicate Accounts()
      reads this
    {
      && bufferedBytes == TotalBytes(partials)
      && CountsMatch(incompleteBySession, partials) && Positive(incompleteBySession)
    }

    ghost predicate Valid()
      reads this
    {
      ConfigOk(config) && Inv(config, Logical()) && Accounts()
    }

    constructor (c: Config)
      requires ConfigOk(c)
      ensures config == c && Logical() == EMPTY && Valid()
    {
      config := c;
      partials, incompleteBySession, completed := map[], map[], map[];
      completedOrder, bufferedBytes, nextCleanupAt := [], 0, None;
      new;
      InvEmpty(c);
      assert Lengths(partials) == map[];
    }

    /** Refuses a configuration with a zero limit. */
    static method Create(c: Config) returns (r: Option<Reassembler>)
      ensures r.Some? <==> c.maxBufferedBytes > 0 && c.maxIncompletePerSession > 0 && c.maxIncomplete > 0
                           && c.maxCompleted > 0
      ensures r.Some? ==> fresh(r.value) && r.value.Valid() && r.value.config == c && r.value.Logical() == EMPTY
    {
      if c.maxBufferedBytes == 0 || c.maxIncompletePerSession == 0 || c.maxIncomplete == 0 || c.maxCompleted == 0 {
        return None;
      }
      var reassembler := new Reassembler(c);
      r := Some(reassembler);
    }

    method InsertPartial(key: Key, f: P.Fragment, now: Time) returns (r: Option<Error>)
      requires Accounts() && key !in partials && key.sessionId == f.sessionId
      modifies this`partials, this`incompleteBySession, this`bufferedBytes
      ensures Accounts()
      ensures r == AdmissionError(config, old(partials), f.sessionId, f.originalLength)
      ensures partials == if r.None? then old(partials)[key := Fresh(f, now)] else old(partials)
    {
      if |partials| >= config.maxIncomplete { return Some(IncompleteDatagramLimit); }
      var perSession := if f.sessionId in incompleteBySession then incompleteBySession[f.sessionId] else 0;
      assert CountMatches(incompleteBySession, partials, f.sessionId);
      if perSession >= config.maxIncompletePerSession { return Some(SessionIncompleteLimit); }
      if bufferedBytes + f.originalLength > config.maxBufferedBytes { return Some(MemoryLimit); }
      CountsInsert(incompleteBySession, partials, key, Fresh(f, now));
      TotalBytesInsert(partials, key, Fresh(f, now));
      partials := partials[key := Fresh(f, now)];
      bufferedBytes := bufferedBytes + f.originalLength;
      incompleteBySession := incompleteBySession[f.sessionId := perSession + 1];
      r := None;
    }

    /** Removes one partial datagram; neither subtraction can underflow. */
    method RemovePartial(key: Key) returns (r: Option<Partial>)
      requires Accounts()
      modifies this`partials, this`incompleteBySession, this`bufferedBytes
      ensures Accounts() && partials == old(partials) - {key}
      ensures r == if key in old(partials) then Some(old(partials)[key]) else None
      ensures r.Some? ==> bufferedBytes + r.value.originalLength == old(bufferedBytes)
      ensures r.None? ==> bufferedBytes == old(bufferedBytes)
    {
      if key !in partials {
        assert partials - {key} == partials;
        return None;
      }
      var partial: Partial := partials[key];
      TotalBytesRemove(partials, key);
      CountsRemove(incompleteBySession, partials, key);
      partials := partials - {key};
      bufferedBytes := SatSub(bufferedBytes, partial.originalLength);
      if key.sessionId in incompleteBySession {
        var count := incompleteBySession[key.sessionId] - 1;
        incompleteBySession := if count == 0 then incompleteBySession - {key.sessionId}
                               else incompleteBySession[key.sessionId := count];
      }
      r := Some(partial);
    }

    method EvictOldestCompleted()
      modifies this`completed, this`completedOrder
      ensures (completed, completedOrder) == EvictOldest(old(completed), old(completedOrder))
    {
      while completedOrder != []
        invariant EvictOldest(completed, completedOrder) == EvictOldest(old(completed), old(completedOrder))
        decreases |completedOrder|
      {
        var (key, at) := completedOrder[0];
        completedOrder := completedOrder[1..];
        if key in completed && completed[key] == at {
          completed := completed - {key};
          return;
        }
      }
    }

    method CompactCompletedOrder()
      modifies this`completedOrder
      ensures completedOrder == Compact(completed, old(completedOrder))
    {
      var kept: Queue := [];
      var i := 0;
      while i < |completedOrder|
        invariant 0 <= i <= |completedOrder| && completedOrder == old(completedOrder)
        invariant kept + Compact(completed, completedOrder[i..]) == Compact(completed, completedOrder)
      {
        if Current(completed, completedOrder[i]) {
          kept := kept + [completedOrder[i]];
        }
        i := i + 1;
      }
      completedOrder := kept;
    }

    method RememberCompleted(key: Key, now: Time)
      modifies this`completed, this`completedOrder
      ensures Logical() == Remember(config, old(Logical()), key, now)
    {
      if |completed| >= config.maxCompleted {
        EvictOldestCompleted();
      }
      completed := completed[key := now];
      completedOrder := completedOrder + [(key, now)];
      if |completedOrder| > 2 * config.maxCompleted {
        CompactCompletedOrder();
      }
    }

    /** Removes the given partials one by one, in an unspecified order. */
    method RemovePartials(keys: set<Key>) returns (count: nat, bytes: nat)
      requires Accounts() && keys <= partials.Keys
      modifies this`partials, this`incompleteBySession, this`bufferedBytes
      ensures Accounts() && partials == old(partials) - keys
      ensures count == |old(partials)| - |partials|
      ensures bytes == old(bufferedBytes) - bufferedBytes
    {
      hide TotalBytes, CountsMatch;
      count, bytes := 0, 0;
      var rest := keys;
      assert keys - rest == {} && partials - {} == partials;
      while rest != {}
        invariant Accounts() && rest <= keys && partials == old(partials) - (keys - rest)
        invariant count == |keys - rest|
        invariant bytes == old(bufferedBytes) - bufferedBytes
        decreases |rest|
      {
        var key :| key in rest;
        RemoveNext(old(partials), keys, rest, key);
        var removed := RemovePartial(key);
        if removed.Some? {
          count := count + 1;
          bytes := bytes + removed.value.originalLength;
        }
        rest := rest - {key};
      }
      assert keys - {} == keys;
      assert partials.Keys == old(partials).Keys - keys;
    }

    method ExpireAt(now: Time) returns (e: Expiration)
      requires Valid()
      modifies this
      ensures Valid() && Logical() == Expire(config, old(Logical()), now)
      ensures old(nextCleanupAt).Some? && now < old(nextCleanupAt).value ==> e == Expiration(0, 0, 0)
      ensures e.incompleteDatagrams == |old(partials)| - |partials|
      ensures e.bufferedBytes == old(bufferedBytes) - bufferedBytes
      ensures e.completedDatagrams == |old(completed)| - |completed|
    {
      if nextCleanupAt.Some? && now < nextCleanupAt.value {
        return Expiration(0, 0, 0);
      }
      hide Inv, CountsMatch, TotalBytes, DropExpired, Unexpired;
      InvExpire(config, Logical(), now);
      nextCleanupAt := Some(now + CLEANUP_INTERVAL);
      var count, bytes := ExpirePartials(now);
      var forgotten := DropExpiredCompleted(now);
      e := Expiration(count, bytes, forgotten);
    }

    method ExpirePartials(now: Time) returns (count: nat, bytes: nat)
      requires Accounts()
      modifies this`partials, this`incompleteBySession, this`bufferedBytes
      ensures Accounts() && partials == Unexpired(old(partials), config.timeout, now)
      ensures count == |old(partials)| - |partials|
      ensures bytes == old(bufferedBytes) - bufferedBytes
    {
      hide CountsMatch, TotalBytes;
      var expired := set k | k in partials && Elapsed(now, partials[k].startedAt, config.timeout);
      count, bytes := RemovePartials(expired);
    }

    method DropExpiredCompleted(now: Time) returns (forgotten: nat)
      modifies this`completed, this`completedOrder
      ensures (completed, completedOrder)
           == DropExpired(old(completed), old(completedOrder), config.completedRetention, now)
      ensures forgotten == |old(completed)| - |completed|
    {
      forgotten := 0;
      while completedOrder != []
        invariant DropExpired(completed, completedOrder, config.completedRetention, now)
               == DropExpired(old(completed), old(completedOrder), config.completedRetention, now)
        invariant forgotten == |old(completed)| - |completed|
        decreases |completedOrder|
      {
        var (key, at) := completedOrder[0];
        var isCurrent := key in completed && completed[key] == at;
        if isCurrent && !Elapsed(now, at, config.completedRetention) { break; }
        completedOrder := completedOrder[1..];
        if isCurrent {
          assert (completed - {key}).Keys == completed.Keys - {key};
          completed := completed - {key};
          forgotten := forgotten + 1;
        }
      }
    }

    method DiscardSessionState(s: Uuid) returns (e: Expiration)
      requires Valid()
      modifies this
      ensures Valid() && Logical() == DiscardSession(old(Logical()), s)
      ensures e.incompleteDatagrams == |old(partials)| - |partials|
      ensures e.bufferedBytes == old(bufferedBytes) - bufferedBytes
      ensures e.completedDatagrams == |old(completed)| - |completed|
    {
      hide Inv, CountsMatch, TotalBytes, OfOthers;
      InvDiscard(config, Logical(), s);
      var count, bytes := DiscardPartials(s);
      var forgotten := DiscardCompleted(s);
      e := Expiration(count, bytes, forgotten);
    }

    method DiscardPartials(s: Uuid) returns (count: nat, bytes: nat)
      requires Accounts()
      modifies this`partials, this`incompleteBySession, this`bufferedBytes
      ensures Accounts() && partials == OfOthers(old(partials), s)
      ensures count == |old(partials)| - |partials|
      ensures bytes == old(bufferedBytes) - bufferedBytes
    {
      hide CountsMatch, TotalBytes;
      var keys := set k | k in partials && k.sessionId == s;
      count, bytes := RemovePartials(keys);
    }

    method DiscardCompleted(s: Uuid) returns (forgotten: nat)
      modifies this`completed
      ensures completed == OfOthers(old(completed), s)
      ensures forgotten == |old(completed)| - |completed|
    {
      var records := set k | k in completed && k.sessionId == s;
      forgotten := 0;
      while records != {}
        invariant forall k :: k in records <==> k in completed && k.sessionId == s
        invariant completed.Keys <= old(completed).Keys
        invariant forall k :: k in completed ==> completed[k] == old(completed)[k]
        invariant forall k :: k in old(completed) && k.sessionId != s ==> k in completed
        invariant forgotten == |old(completed)| - |completed|
        decreases |records|
      {
        var key :| key in records;
        assert (completed - {key}).Keys == completed.Keys - {key};
        completed := completed - {key};
        records := records - {key};
        forgotten := forgotten + 1;
      }
    }

    static method Collect(slots: Slots) returns (payload: seq<Byte>)
      ensures payload == Assembled(slots)
    {
      payload := [];
      for i := 0 to |slots|
        invariant payload + Assembled(slots[i..]) == Assembled(slots)
      {
        payload := payload + SlotBytes(slots[i]);
      }
    }

    method PushFragment(f: P.Fragment, now: Time) returns (r: Result<Outcome, Error>)
      requires Valid()
      modifies this
      ensures Valid()
      ensures (Logical(), r) == Push(config, old(Logical()), f, now)
    {
      hide Inv, CountsMatch, TotalBytes, Expire, Remember, Settle, AdmissionError;
      var invalid := P.Validate(f);
      if invalid.Some? { return Err(InvalidFragment(invalid.value)); }
      InvPush(config, Logical(), f, now);
      var _ := ExpireAt(now);
      var key := KeyOf(f);
      if key in completed { return Ok(Duplicate); }
      if f.originalLength == 0 {
        RememberCompleted(key, now);
        return Ok(Complete([]));
      }
      if key !in partials {
        var refused := InsertPartial(key, f, now);
        if refused.Some? { return Err(refused.value); }
        SettleIgnoresOwnRecord(Expire(config, old(Logical()), now).partials, key, Fresh(f, now), Fresh(f, now), f);
      }
      r := StoreFragment(key, f, now);
    }

    /** The tail of a push, once the datagram has a partial record. */
    method StoreFragment(key: Key, f: P.Fragment, now: Time) returns (r: Result<Outcome, Error>)
      requires Accounts() && key in partials && f.index < f.count
      modifies this
      ensures Accounts() && nextCleanupAt == old(nextCleanupAt)
      ensures var settled := Settle(old(partials), key, old(partials)[key], f);
        (Logical(), r) == Finish(config, old(Logical()), key, settled, now)
    {
      var partial: Partial := partials[key];
      if partial.originalLength != f.originalLength || partial.fragmentCount != f.count {
        var _ := RemovePartial(key);
        return Err(MetadataMismatch);
      }
      if partial.fragments[f.index].Some? {
        if partial.fragments[f.index].value == f.payload {
          assert partials[key := partial] == partials;
          return Ok(Duplicate);
        }
        var _ := RemovePartial(key);
        return Err(ConflictingFragment);
      }
      if partial.receivedBytes + |f.payload| > partial.originalLength {
        var _ := RemovePartial(key);
        return Err(DeclaredLengthExceeded);
      }
      partial := partial.(receivedBytes := partial.receivedBytes + |f.payload|,
                          receivedFragments := partial.receivedFragments + 1,
                          fragments := partial.fragments[f.index := Some(f.payload)]);
      TotalBytesReplace(partials, key, partial);
      CountsReplace(incompleteBySession, partials, key, partial);
      assert partials[key := partial] - {key} == partials - {key};
      partials := partials[key := partial];
      if partial.receivedFragments != partial.fragmentCount { return Ok(Pending); }
      var removed := RemovePartial(key);
      if partial.receivedBytes != partial.originalLength { return Err(CompletedLengthMismatch); }
      var payload := Collect(partial.fragments);
      if |payload| != partial.originalLength { return Err(CompletedLengthMismatch); }
      RememberCompleted(key, now);
      r := Ok(Complete(payload));
    }
  }
}
