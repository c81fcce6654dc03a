/**
 * What the LLUD reassembler does, as functions on its logical state: the partial datagrams, the
 * record of completed datagrams and the queue that orders those records. Per-session counts and the
 * buffered byte total are not part of this state; they are properties of `partials`.
 */
module UdpReassembly {
  import opened Wrappers
  import opened Bytes
  import opened MapSum
  import P = UdpProtocol

  type Time = int

  const CLEANUP_INTERVAL: Time := 100

  datatype Config = Config(
    timeout: Time,
    completedRetention: Time,
    maxBufferedBytes: nat,
    maxIncompletePerSession: nat,
    maxIncomplete: nat,
    maxCompleted: nat)

  predicate ConfigOk(c: Config)
  {
    c.maxBufferedBytes != 0 && c.maxIncompletePerSession != 0 && c.maxIncomplete != 0 && c.maxCompleted != 0
  }

  datatype Key = Key(direction: P.Direction, sessionId: Uuid, datagramId: U64)

  type Slots = seq<Option<seq<Byte>>>

  datatype PartialDatagram = PartialDatagram(
    startedAt: Time,
    originalLength: nat,
    fragmentCount: nat,
    fragments: Slots,
    receivedFragments: nat,
    receivedBytes: nat)

  type Partial = p: PartialDatagram | |p.fragments| == p.fragmentCount
    witness PartialDatagram(0, 0, 0, [], 0, 0)

  type Partials = map<Key, Partial>

  type Queue = seq<(Key, Time)>

  datatype Outcome = Pending | Duplicate | Complete(payload: seq<Byte>)

  datatype Error =
    | InvalidFragment(cause: P.Error)
    | MemoryLimit
    | IncompleteDatagramLimit
    | SessionIncompleteLimit
    | MetadataMismatch
    | ConflictingFragment
    | DeclaredLengthExceeded
    | CompletedLengthMismatch

  datatype State = State(
    partials: Partials,
    completed: map<Key, Time>,
    order: Queue,
    nextCleanup: Option<Time>)

  const EMPTY := State(map[], map[], [], None)

  function KeyOf(f: P.Fragment): Key
  {
    Key(f.direction, f.sessionId, f.datagramId)
  }

  predicate Elapsed(now: Time, earlier: Time, duration: Time)
  {
    (if now >= earlier then now - earlier else 0) >= duration
  }

  // ---------------------------------------------------------------- accounting

  function Filled(slots: Slots): nat
  {
    if slots == [] then 0 else (if slots[0].Some? then 1 else 0) + Filled(slots[1..])
  }

  function FilledBytes(slots: Slots): nat
  {
    if slots == [] then 0 else |SlotBytes(slots[0])| + FilledBytes(slots[1..])
  }

  function SlotBytes(slot: Option<seq<Byte>>): seq<Byte>
  {
    if slot.Some? then slot.value else []
  }

  function Assembled(slots: Slots): seq<Byte>
  {
    if slots == [] then [] else SlotBytes(slots[0]) + Assembled(slots[1..])
  }

  lemma {:induction false} FillSlot(slots: Slots, i: nat, payload: seq<Byte>)
    requires i < |slots| && slots[i] == None
    ensures Filled(slots[i := Some(payload)]) == Filled(slots) + 1
    ensures FilledBytes(slots[i := Some(payload)]) == FilledBytes(slots) + |payload|
  {
    var updated := slots[i := Some(payload)];
    if i > 0 {
      assert updated[1..] == slots[1..][i - 1 := Some(payload)];
      FillSlot(slots[1..], i - 1, payload);
    } else {
      assert updated[1..] == slots[1..];
    }
  }

  lemma {:induction false} FilledBounds(slots: Slots)
    ensures Filled(slots) <= |slots|
    ensures Filled(slots) == |slots| <==> forall i :: 0 <= i < |slots| ==> slots[i].Some?
    ensures Filled(slots) == 0 <==> forall i :: 0 <= i < |slots| ==> slots[i].None?
    ensures |Assembled(slots)| == FilledBytes(slots)
    ensures Filled(slots) == 0 ==> FilledBytes(slots) == 0
  {
    if slots == [] {
    } else {
      FilledBounds(slots[1..]);
      assert forall i :: 1 <= i < |slots| ==> slots[i] == slots[1..][i - 1];
      assert forall i :: 0 <= i < |slots| - 1 ==> slots[1..][i] == slots[i + 1];
    }
  }

  ghost function Lengths(partials: Partials): map<Key, nat>
  {
    map k | k in partials :: partials[k].originalLength
  }

  /** The memory reserved by the partial datagrams: the sum of their declared lengths. */
  ghost function TotalBytes(partials: Partials): nat
  {
    Sum(Lengths(partials))
  }

  ghost function OfSession(partials: Partials, s: Uuid): set<Key>
  {
    set k | k in partials && k.sessionId == s
  }

  lemma {:induction false} TotalBytesInsert(partials: Partials, k: Key, p: Partial)
    requires k !in partials
    ensures TotalBytes(partials[k := p]) == TotalBytes(partials) + p.originalLength
  {
    assert Lengths(partials[k := p]) == Lengths(partials)[k := p.originalLength];
    SumInsert(Lengths(partials), k, p.originalLength);
  }

  lemma {:induction false} TotalBytesRemove(partials: Partials, k: Key)
    requires k in partials
    ensures TotalBytes(partials) == TotalBytes(partials - {k}) + partials[k].originalLength
  {
    assert Lengths(partials - {k}) == Lengths(partials) - {k};
    SumRemove(Lengths(partials), k);
  }

  lemma {:induction false} TotalBytesReplace(partials: Partials, k: Key, p: Partial)
    requires k in partials && p.originalLength == partials[k].originalLength
    ensures TotalBytes(partials[k := p]) == TotalBytes(partials)
  {
    assert Lengths(partials[k := p]) == Lengths(partials);
  }

  lemma {:induction false} TotalBytesSubmap(sub: Partials, partials: Partials)
    requires sub.Keys <= partials.Keys && forall k :: k in sub ==> sub[k] == partials[k]
    ensures TotalBytes(sub) <= TotalBytes(partials)
    decreases |partials|
  {
    if sub == partials {
    } else {
      var k :| k in partials && k !in sub;
      TotalBytesRemove(partials, k);
      TotalBytesSubmap(sub, partials - {k});
    }
  }

  lemma {:induction false} OfSessionUpdate(partials: Partials, key: Key, p: Partial, s: Uuid)
    ensures key in partials || s != key.sessionId ==> OfSession(partials[key := p], s) == OfSession(partials, s)
    ensures key !in partials && s == key.sessionId ==>
      |OfSession(partials[key := p], s)| == |OfSession(partials, s)| + 1
  {
    assert OfSession(partials[key := p], s) == OfSession(partials, s) + if s == key.sessionId then {key} else {};
  }

  lemma {:induction false} OfSessionRemove(partials: Partials, key: Key, s: Uuid)
    requires key in partials
    ensures s != key.sessionId ==> OfSession(partials - {key}, s) == OfSession(partials, s)
    ensures s == key.sessionId ==> |OfSession(partials, s)| == |OfSession(partials - {key}, s)| + 1
  {
    assert OfSession(partials - {key}, s) == OfSession(partials, s) - if s == key.sessionId then {key} else {};
    assert s == key.sessionId ==> key in OfSession(partials, s);
  }

  // ---------------------------------------------------------------- completed records

  predicate Current(completed: map<Key, Time>, entry: (Key, Time))
  {
    entry.0 in completed && completed[entry.0] == entry.1
  }

  /** Pops queue entries that are stale or past retention, forgetting the expired records. */
  function DropExpired(completed: map<Key, Time>, order: Queue, retention: Time, now: Time): (map<Key, Time>, Queue)
    decreases |order|
  {
    if order == [] then (completed, order)
    else if Current(completed, order[0]) then
      if !Elapsed(now, order[0].1, retention) then (completed, order)
      else DropExpired(completed - {order[0].0}, order[1..], retention, now)
    else DropExpired(completed, order[1..], retention, now)
  }

  /** Pops queue entries up to and including the first current one, forgetting that record. */
  function EvictOldest(completed: map<Key, Time>, order: Queue): (map<Key, Time>, Queue)
    decreases |order|
  {
    if order == [] then (completed, order)
    else if Current(completed, order[0]) then (completed - {order[0].0}, order[1..])
    else EvictOldest(completed, order[1..])
  }

  function Compact(completed: map<Key, Time>, order: Queue): Queue
  {
    if order == [] then []
    else (if Current(completed, order[0]) then [order[0]] else []) + Compact(completed, order[1..])
  }

  function Remember(c: Config, st: State, key: Key, now: Time): State
  {
    var (kept, queue) := if |st.completed| >= c.maxCompleted then EvictOldest(st.completed, st.order)
                         else (st.completed, st.order);
    var completed := kept[key := now];
    var order := queue + [(key, now)];
    st.(completed := completed,
        order := if |order| > 2 * c.maxCompleted then Compact(completed, order) else order)
  }

  // ---------------------------------------------------------------- operations

  predicate Throttled(st: State, now: Time)
  {
    st.nextCleanup.Some? && now < st.nextCleanup.value
  }

  ghost function Unexpired(partials: Partials, timeout: Time, now: Time): Partials
  {
    map k | k in partials && !Elapsed(now, partials[k].startedAt, timeout) :: partials[k]
  }

  ghost function Expire(c: Config, st: State, now: Time): State
  {
    if Throttled(st, now) then st
    else
      var (completed, order) := DropExpired(st.completed, st.order, c.completedRetention, now);
      State(Unexpired(st.partials, c.timeout, now), completed, order, Some(now + CLEANUP_INTERVAL))
  }

  ghost function DiscardSession(st: State, s: Uuid): State
  {
    st.(partials := OfOthers(st.partials, s), completed := OfOthers(st.completed, s))
  }

  ghost function OfOthers<V>(m: map<Key, V>, s: Uuid): map<Key, V>
  {
    map k | k in m && k.sessionId != s :: m[k]
  }

  /** Why a new partial datagram is refused; `None` when there is room for it. */
  ghost function AdmissionError(c: Config, partials: Partials, s: Uuid, length: nat): Option<Error>
  {
    if |partials| >= c.maxIncomplete then Some(IncompleteDatagramLimit)
    else if |OfSession(partials, s)| >= c.maxIncompletePerSession then Some(SessionIncompleteLimit)
    else if TotalBytes(partials) + length > c.maxBufferedBytes then Some(MemoryLimit)
    else None
  }

  function Fresh(f: P.Fragment, now: Time): Partial
  {
    PartialDatagram(now, f.originalLength, f.count, seq(f.count, _ => None), 0, 0)
  }

  datatype Stored = Failed(error: Error) | Repeated | Accepted(partial: Partial)

  function Store(p: Partial, f: P.Fragment): Stored
    requires f.index < f.count
  {
    if p.originalLength != f.originalLength || p.fragmentCount != f.count then Failed(MetadataMismatch)
    else if p.fragments[f.index].Some? then
      if p.fragments[f.index].value == f.payload then Repeated else Failed(ConflictingFragment)
    else if p.receivedBytes + |f.payload| > p.originalLength then Failed(DeclaredLengthExceeded)
    else Accepted(p.(receivedBytes := p.receivedBytes + |f.payload|,
                     receivedFragments := p.receivedFragments + 1,
                     fragments := p.fragments[f.index := Some(f.payload)]))
  }

  datatype Settlement = Settlement(partials: Partials, result: Result<Outcome, Error>)

  /** The part of a push that concerns one datagram once its partial record is at hand. */
  function Settle(partials: Partials, key: Key, p: Partial, f: P.Fragment): Settlement
    requires f.index < f.count
  {
    match Store(p, f)
    case Failed(e) => Settlement(partials - {key}, Err(e))
    case Repeated => Settlement(partials[key := p], Ok(Duplicate))
    case Accepted(p') =>
      if p'.receivedFragments != p'.fragmentCount then Settlement(partials[key := p'], Ok(Pending))
      else if p'.receivedBytes != p'.originalLength then Settlement(partials - {key}, Err(CompletedLengthMismatch))
      else if |Assembled(p'.fragments)| != p'.originalLength then
        Settlement(partials - {key}, Err(CompletedLengthMismatch))
      else Settlement(partials - {key}, Ok(Complete(Assembled(p'.fragments))))
  }

  ghost function SettleNew(c: Config, partials: Partials, key: Key, f: P.Fragment, now: Time): Settlement
    requires f.index < f.count
  {
    match AdmissionError(c, partials, f.sessionId, f.originalLength)
    case Some(e) => Settlement(partials, Err(e))
    case None => Settle(partials, key, Fresh(f, now), f)
  }

  function Finish(c: Config, st: State, key: Key, s: Settlement, now: Time): (State, Result<Outcome, Error>)
  {
    var st' := st.(partials := s.partials);
    (if s.result.Ok? && s.result.value.Complete? then Remember(c, st', key, now) else st', s.result)
  }

  ghost function Push(c: Config, st: State, f: P.Fragment, now: Time): (State, Result<Outcome, Error>)
  {
    match P.Validate(f)
    case Some(e) => (st, Err(InvalidFragment(e)))
    case None =>
      var s := Expire(c, st, now);
      var key := KeyOf(f);
      if key in s.completed then (s, Ok(Duplicate))
      else if f.originalLength == 0 then (Remember(c, s, key, now), Ok(Complete([])))
      else if key in s.partials then Finish(c, s, key, Settle(s.partials, key, s.partials[key], f), now)
      else Finish(c, s, key, SettleNew(c, s.partials, key, f, now), now)
  }

  // ---------------------------------------------------------------- representation invariant

  /** A partial datagram's counters describe its slots, and it is neither empty nor complete. */
  predicate PartialOk(p: Partial)
  {
    && p.receivedFragments == Filled(p.fragments)
    && p.receivedBytes == FilledBytes(p.fragments)
    && 0 < p.receivedFragments < p.fragmentCount <= P.MAX_FRAGMENTS
    && p.receivedBytes <= p.originalLength <= MAX_DATAGRAM_BYTES
  }

  ghost predicate SessionsWithin(partials: Partials, limit: nat)
  {
    forall s :: |OfSession(partials, s)| <= limit
  }

  /** Each partial datagram is in order and all three limits hold. */
  ghost predicate PartialsInv(c: Config, partials: Partials)
  {
    && (forall k :: k in partials ==> PartialOk(partials[k]))
    && |partials| <= c.maxIncomplete
    && SessionsWithin(partials, c.maxIncompletePerSession)
    && TotalBytes(partials) <= c.maxBufferedBytes
  }

  ghost predicate CompletedInv(c: Config, completed: map<Key, Time>, order: Queue)
  {
    Indexed(completed, order) && |completed| <= c.maxCompleted
  }

  ghost predicate Inv(c: Config, st: State)
  {
    PartialsInv(c, st.partials) && CompletedInv(c, st.completed, st.order)
  }

  /** Every remembered datagram has its queue entry. */
  ghost predicate Indexed(completed: map<Key, Time>, order: Queue)
  {
    forall k :: k in completed ==> (k, completed[k]) in order
  }

  lemma {:induction false} PartialsInvSubmap(c: Config, sub: Partials, partials: Partials)
    requires PartialsInv(c, partials)
    requires sub.Keys <= partials.Keys && forall k :: k in sub ==> sub[k] == partials[k]
    ensures PartialsInv(c, sub)
  {
    SizeMonotone(sub.Keys, partials.Keys);
    TotalBytesSubmap(sub, partials);
    forall s ensures |OfSession(sub, s)| <= c.maxIncompletePerSession {
      SizeMonotone(OfSession(sub, s), OfSession(partials, s));
    }
  }

  lemma {:induction false} DropExpiredKeeps(completed: map<Key, Time>, order: Queue, retention: Time, now: Time)
    requires Indexed(completed, order)
    ensures var (m, q) := DropExpired(completed, order, retention, now);
      && Indexed(m, q) && |m| <= |completed| && |q| <= |order|
      && m.Keys <= completed.Keys && (forall k :: k in m ==> m[k] == completed[k])
      && (forall k :: k in completed && k !in m ==> Elapsed(now, completed[k], retention))
    decreases |order|
  {
    if order == [] {
    } else {
      assert forall e :: e in order && e != order[0] ==> e in order[1..];
      if Current(completed, order[0]) {
        if Elapsed(now, order[0].1, retention) {
          DropExpiredKeeps(completed - {order[0].0}, order[1..], retention, now);
        }
      } else {
        DropExpiredKeeps(completed, order[1..], retention, now);
      }
    }
  }

  /** Eviction forgets exactly one record, provided there is one and the queue indexes it. */
  lemma {:induction false} EvictOldestRemovesOne(completed: map<Key, Time>, order: Queue)
    requires Indexed(completed, order) && completed != map[]
    ensures var (m, q) := EvictOldest(completed, order);
      && Indexed(m, q) && |q| < |order|
      && (exists e :: e in order && Current(completed, e) && m == completed - {e.0})
      && |m| == |completed| - 1
    decreases |order|
  {
    var k0 :| k0 in completed;
    assert (k0, completed[k0]) in order;
    assert forall e :: e in order && e != order[0] ==> e in order[1..];
    if !Current(completed, order[0]) {
      EvictOldestRemovesOne(completed, order[1..]);
    } else {
      assert (completed - {order[0].0}).Keys == completed.Keys - {order[0].0};
    }
  }

  lemma {:induction false} CompactKeeps(completed: map<Key, Time>, order: Queue)
    ensures var q := Compact(completed, order);
      && |q| <= |order|
      && (forall e :: e in q <==> e in order && Current(completed, e))
  {
    if order == [] {
    } else {
      CompactKeeps(completed, order[1..]);
    }
  }

  lemma {:induction false} InvExpire(c: Config, st: State, now: Time)
    requires Inv(c, st)
    ensures Inv(c, Expire(c, st, now))
  {
    DropExpiredKeeps(st.completed, st.order, c.completedRetention, now);
    PartialsInvSubmap(c, Unexpired(st.partials, c.timeout, now), st.partials);
  }

  lemma {:induction false} InvDiscard(c: Config, st: State, s: Uuid)
    requires Inv(c, st)
    ensures Inv(c, DiscardSession(st, s))
  {
    var st' := DiscardSession(st, s);
    SizeMonotone(st'.completed.Keys, st.completed.Keys);
    PartialsInvSubmap(c, st'.partials, st.partials);
  }

  lemma {:induction false} InvRemember(c: Config, st: State, key: Key, now: Time)
    requires ConfigOk(c) && CompletedInv(c, st.completed, st.order) && key !in st.completed
    ensures var st' := Remember(c, st, key, now);
      st'.partials == st.partials && CompletedInv(c, st'.completed, st'.order)
  {
    hide EvictOldest, Compact, Indexed;
    if |st.completed| >= c.maxCompleted {
      assert st.completed != map[];
      EvictOldestRemovesOne(st.completed, st.order);
    }
    var (kept, queue) := if |st.completed| >= c.maxCompleted then EvictOldest(st.completed, st.order)
                         else (st.completed, st.order);
    AddIndexed(kept, queue, key, now);
  }

  lemma {:induction false} AddIndexed(completed: map<Key, Time>, order: Queue, key: Key, now: Time)
    requires Indexed(completed, order)
    ensures var m, q := completed[key := now], order + [(key, now)];
      |m| <= |completed| + 1 && Indexed(m, q) && Indexed(m, Compact(m, q))
  {
    hide Compact;
    var m, q := completed[key := now], order + [(key, now)];
    assert m.Keys == completed.Keys + {key};
    CompactKeeps(m, q);
    forall k | k in m ensures (k, m[k]) in q {
      assert k != key ==> (k, completed[k]) in order;
    }
  }

  /** A partial record that push may hold before storing a fragment: well formed, possibly still empty. */
  predicate Storable(p: Partial, f: P.Fragment)
  {
    PartialOk(p) || (p.fragments == seq(f.count, _ => None) && p.originalLength == f.originalLength
                     && p.receivedFragments == 0 && p.receivedBytes == 0)
  }

  lemma {:induction false} StoreKeeps(p: Partial, f: P.Fragment)
    requires P.Validate(f) == None && f.originalLength > 0 && Storable(p, f)
    ensures Store(p, f).Repeated? ==> PartialOk(p)
    ensures Store(p, f).Accepted? ==>
      var p' := Store(p, f).partial;
      && p'.originalLength == p.originalLength && p'.fragmentCount == p.fragmentCount
      && (p'.receivedFragments != p'.fragmentCount ==> PartialOk(p'))
      && (p'.receivedFragments == p'.fragmentCount ==> |Assembled(p'.fragments)| == p'.receivedBytes)
  {
    FilledBounds(p.fragments);
    if Store(p, f).Accepted? {
      FillSlot(p.fragments, f.index, f.payload);
      FilledBounds(Store(p, f).partial.fragments);
    }
  }

  lemma {:induction false} SizesAfterUpdate(c: Config, partials: Partials, key: Key, p: Partial)
    requires |partials| <= c.maxIncomplete && SessionsWithin(partials, c.maxIncompletePerSession)
    requires key !in partials ==> AdmissionError(c, partials, key.sessionId, p.originalLength) == None
    ensures |partials[key := p]| <= c.maxIncomplete
    ensures SessionsWithin(partials[key := p], c.maxIncompletePerSession)
  {
    hide OfSession, TotalBytes;
    var partials' := partials[key := p];
    if key in partials {
      assert partials'.Keys == partials.Keys;
    } else {
      assert partials'.Keys == partials.Keys + {key};
    }
    forall s ensures |OfSession(partials', s)| <= c.maxIncompletePerSession {
      OfSessionUpdate(partials, key, p, s);
    }
  }

  lemma {:induction false} PartialsInvUpdate(c: Config, partials: Partials, key: Key, p: Partial)
    requires PartialsInv(c, partials) && PartialOk(p)
    requires key in partials ==> p.originalLength == partials[key].originalLength
    requires key !in partials ==> AdmissionError(c, partials, key.sessionId, p.originalLength) == None
    ensures PartialsInv(c, partials[key := p])
  {
    hide PartialOk, SessionsWithin, TotalBytes;
    if key in partials {
      TotalBytesReplace(partials, key, p);
    } else {
      TotalBytesInsert(partials, key, p);
    }
    SizesAfterUpdate(c, partials, key, p);
  }

  lemma {:induction false} SettleKeeps(c: Config, partials: Partials, key: Key, p: Partial, f: P.Fragment)
    requires PartialsInv(c, partials)
    requires P.Validate(f) == None && f.originalLength > 0 && Storable(p, f) && key.sessionId == f.sessionId
    requires key in partials ==> p == partials[key]
    requires key !in partials ==> AdmissionError(c, partials, f.sessionId, p.originalLength) == None
    ensures PartialsInv(c, Settle(partials, key, p, f).partials)
  {
    hide PartialsInv, AdmissionError;
    StoreKeeps(p, f);
    if Store(p, f).Repeated? {
      PartialsInvUpdate(c, partials, key, p);
    } else if Store(p, f).Accepted? && Store(p, f).partial.receivedFragments != p.fragmentCount {
      PartialsInvUpdate(c, partials, key, Store(p, f).partial);
    } else {
      PartialsInvSubmap(c, partials - {key}, partials);
    }
  }

  /** Every push, accepted or refused, keeps the whole representation invariant. */
  lemma {:induction false} InvPush(c: Config, st: State, f: P.Fragment, now: Time)
    requires ConfigOk(c) && Inv(c, st)
    ensures Inv(c, Push(c, st, f, now).0)
  {
    hide CompletedInv, Expire, Remember, AdmissionError, PartialOk, Store, Assembled;
    if P.Validate(f) == None {
      var s := Expire(c, st, now);
      var key := KeyOf(f);
      InvExpire(c, st, now);
      if key !in s.completed {
        if f.originalLength == 0 {
          InvRemember(c, s, key, now);
        } else {
          var settled := if key in s.partials then Settle(s.partials, key, s.partials[key], f)
                         else SettleNew(c, s.partials, key, f, now);
          if key in s.partials {
            SettleKeeps(c, s.partials, key, s.partials[key], f);
          } else if AdmissionError(c, s.partials, f.sessionId, f.originalLength) == None {
            SettleKeeps(c, s.partials, key, Fresh(f, now), f);
          }
          InvRemember(c, s.(partials := settled.partials), key, now);
        }
      }
    }
  }

  // ---------------------------------------------------------------- runs

  datatype Event = Pushed(f: P.Fragment, at: Time) | Expired(at: Time) | Discarded(s: Uuid)

  ghost function Apply(c: Config, st: State, e: Event): State
  {
    match e
    case Pushed(f, at) => Push(c, st, f, at).0
    case Expired(at) => Expire(c, st, at)
    case Discarded(s) => DiscardSession(st, s)
  }

  /** The state after the first `n` events of a run. */
  ghost function After(c: Config, st: State, run: seq<Event>, n: nat): State
    requires n <= |run|
  {
    if n == 0 then st else Apply(c, After(c, st, run, n - 1), run[n - 1])
  }

  lemma {:induction false} InvEmpty(c: Config)
    ensures Inv(c, EMPTY)
  {
    assert Lengths(EMPTY.partials) == map[];
    assert forall s :: OfSession(EMPTY.partials, s) == {};
  }

  lemma {:induction false} InvAfter(c: Config, st: State, run: seq<Event>, n: nat)
    requires ConfigOk(c) && n <= |run| && Inv(c, st)
    ensures Inv(c, After(c, st, run, n))
  {
    hide Inv, Push, Expire, DiscardSession;
    if n == 0 {
    } else {
      var prior := After(c, st, run, n - 1);
      InvAfter(c, st, run, n - 1);
      match run[n - 1]
      case Pushed(f, at) => InvPush(c, prior, f, at);
      case Expired(at) => InvExpire(c, prior, at);
      case Discarded(s) => InvDiscard(c, prior, s);
    }
  }

  /** The invariant holds in every state any run of a new reassembler can reach. */
  lemma {:induction false} InvReachable(c: Config, run: seq<Event>, n: nat)
    requires ConfigOk(c) && n <= |run|
    ensures Inv(c, After(c, EMPTY, run, n))
  {
    hide Inv, Apply;
    InvEmpty(c);
    InvAfter(c, EMPTY, run, n);
  }
}
