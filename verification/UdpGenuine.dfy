/**
 * Whatever is pushed, in any run: a delivered datagram is made of fragments that were pushed and accepted
 * for it, all of one shape, and a fragment that contradicts an earlier one ends the datagram.
 */
module UdpGenuine {
  import opened Wrappers
  import opened Bytes
  import opened UdpReassembly
  import P = UdpProtocol

  ghost function ResultAt(c: Config, run: seq<Event>, m: nat): Result<Outcome, Error>
    requires m < |run| && run[m].Pushed?
  {
    Push(c, After(c, EMPTY, run, m), run[m].f, run[m].at).1
  }

  /** The push of event `m` was accepted: it is pending or completed the datagram. */
  ghost predicate Accepted(c: Config, run: seq<Event>, m: nat)
    requires m < |run|
  {
    && run[m].Pushed? && P.Validate(run[m].f) == None
    && ResultAt(c, run, m).Ok? && ResultAt(c, run, m).value != Duplicate
  }

  /** The event pushes fragment `i` of `n` of datagram `k`, which has `length` bytes. */
  predicate Brings(e: Event, k: Key, i: nat, n: nat, length: nat, payload: seq<Byte>)
  {
    && e.Pushed? && KeyOf(e.f) == k && e.f.index == i && e.f.count == n && e.f.originalLength == length
    && e.f.payload == payload
  }

  ghost predicate Supplied(
    c: Config, run: seq<Event>, lo: nat, hi: nat, k: Key, i: nat, n: nat, length: nat, payload: seq<Byte>)
    requires hi <= |run|
  {
    exists m :: lo <= m < hi && Brings(run[m], k, i, n, length, payload) && Accepted(c, run, m)
  }

  /** Every fragment the partial datagram holds was accepted for it by the events from `lo` up to `hi`. */
  ghost predicate Backed(c: Config, run: seq<Event>, lo: nat, hi: nat, k: Key, p: Partial)
    requires hi <= |run|
  {
    forall i :: 0 <= i < |p.fragments| && p.fragments[i].Some? ==>
      Supplied(c, run, lo, hi, k, i, p.fragmentCount, p.originalLength, p.fragments[i].value)
  }

  /** `p'` is `p` with the fragment added in its place. */
  predicate Added(p: Partial, f: P.Fragment, p': Partial)
  {
    && f.index < f.count == p.fragmentCount && f.originalLength == p.originalLength
    && p.fragments[f.index] == None
    && p'.fragments == p.fragments[f.index := Some(f.payload)]
    && p'.fragmentCount == p.fragmentCount && p'.originalLength == p.originalLength && p'.startedAt == p.startedAt
  }

  /** All fragments are there, and as many bytes as were declared. */
  predicate AllThere(p: Partial)
  {
    && |Assembled(p.fragments)| == p.originalLength
    && forall i :: 0 <= i < |p.fragments| ==> p.fragments[i].Some?
  }

  // ---------------------------------------------------------------- one push

  lemma {:induction false} StoreAdds(p: Partial, f: P.Fragment)
    requires f.index < f.count
    ensures Store(p, f).Accepted? ==> Added(p, f, Store(p, f).partial)
  {
  }

  lemma {:induction false} NoneFilled(n: nat)
    ensures Filled(seq(n, _ => None)) == 0
  {
    FilledBounds(seq(n, _ => None));
  }

  lemma {:induction false} StoreFills(p: Partial, f: P.Fragment)
    requires P.Validate(f) == None && f.originalLength > 0 && Storable(p, f)
    ensures Store(p, f).Accepted? ==>
      var q := Store(p, f).partial;
      q.receivedFragments == q.fragmentCount && |Assembled(q.fragments)| == q.originalLength ==> AllThere(q)
  {
    if Store(p, f).Accepted? {
      NoneFilled(f.count);
      FillSlot(p.fragments, f.index, f.payload);
      FilledBounds(Store(p, f).partial.fragments);
    }
  }

  /** What a push may do to the partials: add to its own, drop it, or leave all alone. */
  lemma {:induction false} SettleEffect(partials: Partials, key: Key, p: Partial, f: P.Fragment, k: Key)
    requires P.Validate(f) == None && f.originalLength > 0 && Storable(p, f) && (key in partials ==> partials[key] == p)
    ensures var s := Settle(partials, key, p, f);
      && (k in s.partials && k != key ==> k in partials && s.partials[k] == partials[k])
      && (key in s.partials ==>
            || (s.partials[key] == p && s.result == Ok(Duplicate))
            || (Added(p, f, s.partials[key]) && s.result == Ok(Pending)))
      && (s.result.Ok? && s.result.value.Complete? ==>
            exists q: Partial :: Added(p, f, q) && AllThere(q) && s.result.value.payload == Assembled(q.fragments))
  {
    hide Store, Added, AllThere, Storable, Assembled, P.Validate;
    ValidIndex(f);
    StoreAdds(p, f);
    StoreFills(p, f);
  }

  lemma {:induction false} ValidIndex(f: P.Fragment)
    requires P.Validate(f) == None
    ensures f.index < f.count
  {
  }

  /** The partial datagram a push of `k` adds to: the live one, or the one it begins. */
  predicate IsBase(st: State, f: P.Fragment, now: Time, p: Partial)
  {
    (KeyOf(f) in st.partials && p == st.partials[KeyOf(f)]) || p == Fresh(f, now)
  }

  lemma {:induction false} ExpireKeepsValues(c: Config, st: State, now: Time, k: Key)
    ensures k in Expire(c, st, now).partials ==>
      k in st.partials && Expire(c, st, now).partials[k] == st.partials[k]
  {
    hide DropExpired;
  }

  lemma {:induction false} FreshNotRepeated(f: P.Fragment, now: Time)
    requires f.index < f.count
    ensures Store(Fresh(f, now), f) != Repeated
  {
  }

  /** How one push may affect the partial of `k`. */
  lemma {:induction false} PushEffect(c: Config, st: State, f: P.Fragment, now: Time, k: Key)
    requires Inv(c, st) && P.Validate(f) == None && k in Push(c, st, f, now).0.partials
    ensures var (st2, r) := Push(c, st, f, now);
      || (k in st.partials && st2.partials[k] == st.partials[k])
      || (k == KeyOf(f) && r == Ok(Pending) && exists p :: IsBase(st, f, now, p) && Added(p, f, st2.partials[k]))
  {
    hide Settle, Remember, Expire, AdmissionError, Added, Fresh, Store, PartialOk, TotalBytes, OfSession, P.Validate;
    var s, key := Expire(c, st, now), KeyOf(f);
    ExpireKeepsValues(c, st, now, k);
    ExpireKeepsValues(c, st, now, key);
    InvExpire(c, st, now);
    ValidIndex(f);
    if key in s.completed || f.originalLength == 0 {
      RememberPartials(c, s, key, now);
    } else {
      var p := if key in s.partials then s.partials[key] else Fresh(f, now);
      StorableBase(c, s, f, now, p);
      SettleEffect(s.partials, key, p, f, k);
      RememberPartials(c, s.(partials := Settle(s.partials, key, p, f).partials), key, now);
      if key !in s.partials {
        NotRepeated(s.partials, key, f, now);
      }
      assert IsBase(st, f, now, p);
    }
  }

  lemma {:induction false} RememberPartials(c: Config, st: State, key: Key, now: Time)
    ensures Remember(c, st, key, now).partials == st.partials
  {
  }

  lemma {:induction false} NotRepeated(partials: Partials, key: Key, f: P.Fragment, now: Time)
    requires f.index < f.count
    ensures Settle(partials, key, Fresh(f, now), f).result != Ok(Duplicate)
  {
    FreshNotRepeated(f, now);
  }

  lemma {:induction false} StorableBase(c: Config, s: State, f: P.Fragment, now: Time, p: Partial)
    requires Inv(c, s) && p == if KeyOf(f) in s.partials then s.partials[KeyOf(f)] else Fresh(f, now)
    ensures Storable(p, f)
  {
    hide PartialOk, TotalBytes, SessionsWithin;
  }

  /** A delivery comes from a partial that the push completes, or is of an empty datagram. */
  lemma {:induction false} CompleteEffect(c: Config, st: State, f: P.Fragment, now: Time, payload: seq<Byte>)
    requires Inv(c, st) && Push(c, st, f, now).1 == Ok(Complete(payload))
    ensures P.Validate(f) == None
    ensures f.originalLength == 0 ==> payload == []
    ensures f.originalLength > 0 ==>
      exists p: Partial, q: Partial ::
        IsBase(st, f, now, p) && Added(p, f, q) && AllThere(q) && payload == Assembled(q.fragments)
  {
    hide Settle, Remember, Expire, AdmissionError, Added, Fresh, Store, PartialOk, TotalBytes, OfSession, P.Validate;
    hide AllThere, Assembled;
    if P.Validate(f) == None && f.originalLength > 0 {
      var s, key := Expire(c, st, now), KeyOf(f);
      ExpireKeepsValues(c, st, now, key);
      InvExpire(c, st, now);
      ValidIndex(f);
      var p := if key in s.partials then s.partials[key] else Fresh(f, now);
      StorableBase(c, s, f, now, p);
      SettleEffect(s.partials, key, p, f, key);
      assert IsBase(st, f, now, p);
    }
  }

  // ---------------------------------------------------------------- whole runs

  lemma {:induction false} BackedLater(c: Config, run: seq<Event>, lo: nat, hi: nat, k: Key, p: Partial)
    requires hi < |run| && Backed(c, run, lo, hi, k, p)
    ensures Backed(c, run, lo, hi + 1, k, p)
  {
    hide Brings, Accepted;
    forall i | 0 <= i < |p.fragments| && p.fragments[i].Some?
      ensures Supplied(c, run, lo, hi + 1, k, i, p.fragmentCount, p.originalLength, p.fragments[i].value)
    {
      assert Supplied(c, run, lo, hi, k, i, p.fragmentCount, p.originalLength, p.fragments[i].value);
    }
  }

  lemma {:induction false} BackedAdd(c: Config, run: seq<Event>, lo: nat, hi: nat, p: Partial, q: Partial)
    requires lo <= hi < |run| && run[hi].Pushed? && Accepted(c, run, hi)
    requires Backed(c, run, lo, hi, KeyOf(run[hi].f), p) && Added(p, run[hi].f, q)
    ensures Backed(c, run, lo, hi + 1, KeyOf(run[hi].f), q)
  {
    hide Accepted;
    var f, k := run[hi].f, KeyOf(run[hi].f);
    BackedLater(c, run, lo, hi, k, p);
    forall i | 0 <= i < |q.fragments| && q.fragments[i].Some?
      ensures Supplied(c, run, lo, hi + 1, k, i, q.fragmentCount, q.originalLength, q.fragments[i].value)
    {
      if i == f.index {
        assert Brings(run[hi], k, i, q.fragmentCount, q.originalLength, q.fragments[i].value);
      } else {
        assert Supplied(c, run, lo, hi + 1, k, i, p.fragmentCount, p.originalLength, p.fragments[i].value);
      }
    }
  }

  lemma {:induction false} BackedFresh(c: Config, run: seq<Event>, n: nat, k: Key, f: P.Fragment, now: Time)
    requires n <= |run|
    ensures Backed(c, run, n, n, k, Fresh(f, now))
  {
  }

  /** The partial of `k` after `n` events was begun by event `start`, and has been the same one since. */
  ghost predicate BegunAt(c: Config, run: seq<Event>, start: nat, n: nat, k: Key)
    requires start < n <= |run|
  {
    && run[start].Pushed? && KeyOf(run[start].f) == k
    && forall m :: start < m <= n ==>
         k in After(c, EMPTY, run, m).partials && After(c, EMPTY, run, m).partials[k].startedAt == run[start].at
  }

  /** How one event may affect the partial of `k`. */
  lemma {:induction false} StepEffect(c: Config, st: State, e: Event, k: Key)
    requires Inv(c, st) && k in Apply(c, st, e).partials
    ensures
      || (k in st.partials && Apply(c, st, e).partials[k] == st.partials[k])
      || (&& e.Pushed? && P.Validate(e.f) == None && k == KeyOf(e.f) && Push(c, st, e.f, e.at).1 == Ok(Pending)
          && exists p :: IsBase(st, e.f, e.at, p) && Added(p, e.f, Apply(c, st, e).partials[k]))
  {
    hide Push, Expire, Added, IsBase, Inv, P.Validate;
    match e
    case Discarded(_) =>
    case Expired(at) => ExpireKeepsValues(c, st, at, k);
    case Pushed(f, at) =>
      if P.Validate(f) == None {
        PushEffect(c, st, f, at, k);
      } else {
        InvalidPush(c, st, f, at);
      }
  }

  lemma {:induction false} InvalidPush(c: Config, st: State, f: P.Fragment, now: Time)
    requires P.Validate(f).Some?
    ensures Push(c, st, f, now).0 == st
  {
  }

  /** Since when the partial of `k` has been held; all its fragments were accepted since then. */
  lemma {:induction false} HeldSince(c: Config, run: seq<Event>, n: nat, k: Key) returns (start: nat)
    requires ConfigOk(c) && n <= |run| && k in After(c, EMPTY, run, n).partials
    ensures start < n && BegunAt(c, run, start, n, k)
    ensures Backed(c, run, start, n, k, After(c, EMPTY, run, n).partials[k])
  {
    hide Apply, Backed, Inv, P.Validate, BegunAt;
    var st, e := After(c, EMPTY, run, n - 1), run[n - 1];
    InvReachable(c, run, n - 1);
    StepEffect(c, st, e, k);
    var q := After(c, EMPTY, run, n).partials[k];
    if k in st.partials && q == st.partials[k] {
      start := HeldSince(c, run, n - 1, k);
      BackedLater(c, run, start, n - 1, k, q);
      BegunLater(c, run, start, n - 1, k);
    } else {
      var p :| IsBase(st, e.f, e.at, p) && Added(p, e.f, q);
      PendingIsAccepted(c, run, n - 1);
      if k in st.partials && p == st.partials[k] {
        start := HeldSince(c, run, n - 1, k);
        BackedAdd(c, run, start, n - 1, p, q);
        BegunLater(c, run, start, n - 1, k);
      } else {
        start := n - 1;
        BackedFresh(c, run, n - 1, k, e.f, e.at);
        BackedAdd(c, run, n - 1, n - 1, p, q);
        BegunNow(c, run, n - 1, k);
      }
    }
  }

  lemma {:induction false} BegunLater(c: Config, run: seq<Event>, start: nat, n: nat, k: Key)
    requires start < n < |run| && BegunAt(c, run, start, n, k) && k in After(c, EMPTY, run, n + 1).partials
    requires After(c, EMPTY, run, n + 1).partials[k].startedAt == After(c, EMPTY, run, n).partials[k].startedAt
    ensures BegunAt(c, run, start, n + 1, k)
  {
    hide Apply;
  }

  lemma {:induction false} BegunNow(c: Config, run: seq<Event>, n: nat, k: Key)
    requires n < |run| && run[n].Pushed? && KeyOf(run[n].f) == k && k in After(c, EMPTY, run, n + 1).partials
    requires After(c, EMPTY, run, n + 1).partials[k].startedAt == run[n].at
    ensures BegunAt(c, run, n, n + 1, k)
  {
    hide Apply;
  }

  lemma {:induction false} PendingIsAccepted(c: Config, run: seq<Event>, m: nat)
    requires m < |run| && run[m].Pushed? && P.Validate(run[m].f) == None && ResultAt(c, run, m) == Ok(Pending)
    ensures Accepted(c, run, m)
  {
    hide Push;
  }

  // ---------------------------------------------------------------- deliveries

  /** The payloads of the slots, in order. */
  function PartsOf(slots: Slots): seq<seq<Byte>>
  {
    seq(|slots|, i requires 0 <= i < |slots| => SlotBytes(slots[i]))
  }

  lemma {:induction false} PartsJoin(slots: Slots)
    ensures Concat(PartsOf(slots)) == Assembled(slots)
  {
    if slots == [] {
    } else {
      PartsJoin(slots[1..]);
      assert PartsOf(slots)[1..] == PartsOf(slots[1..]);
    }
  }

  /**
   * From `start` to `i` every part was pushed for `k` and accepted, as fragments 0 to the last of as many as
   * there are, each declaring the length of the whole.
   */
  ghost predicate Genuine(c: Config, run: seq<Event>, start: nat, i: nat, k: Key, parts: seq<seq<Byte>>)
    requires i < |run|
  {
    && parts != []
    && forall j :: 0 <= j < |parts| ==> Supplied(c, run, start, i + 1, k, j, |parts|, |Concat(parts)|, parts[j])
  }

  /**
   * Every delivery, in any run, is the in-order concatenation of fragments that were accepted for it, all of
   * the same number and declared length, since its first fragment; and it has that length.
   */
  lemma {:induction false} DeliveryIsGenuine(c: Config, run: seq<Event>, i: nat, payload: seq<Byte>)
    returns (start: nat, parts: seq<seq<Byte>>)
    requires ConfigOk(c) && i < |run| && run[i].Pushed? && ResultAt(c, run, i) == Ok(Complete(payload))
    ensures start <= i && payload == Concat(parts) && Genuine(c, run, start, i, KeyOf(run[i].f), parts)
    ensures start < i ==> BegunAt(c, run, start, i, KeyOf(run[i].f))
  {
    hide Push, After, Backed, Inv, P.Validate, AllThere, BegunAt, Genuine, Supplied;
    var st, f, now := After(c, EMPTY, run, i), run[i].f, run[i].at;
    InvReachable(c, run, i);
    CompleteEffect(c, st, f, now, payload);
    if f.originalLength == 0 {
      start, parts := i, [[]];
      EmptyIsGenuine(c, run, i);
    } else {
      var p, q :| IsBase(st, f, now, p) && Added(p, f, q) && AllThere(q) && payload == Assembled(q.fragments);
      if KeyOf(f) in st.partials && p == st.partials[KeyOf(f)] {
        start := HeldSince(c, run, i, KeyOf(f));
      } else {
        start := i;
        BackedFresh(c, run, i, KeyOf(f), f, now);
      }
      BackedAdd(c, run, start, i, p, q);
      parts := PartsOf(q.fragments);
      PartsJoin(q.fragments);
      AllAreGenuine(c, run, start, i, KeyOf(f), q);
    }
  }

  lemma {:induction false} EmptyIsGenuine(c: Config, run: seq<Event>, i: nat)
    requires i < |run| && Accepted(c, run, i) && run[i].f.originalLength == 0
    ensures Genuine(c, run, i, i, KeyOf(run[i].f), [[]])
  {
    hide Push;
    assert Brings(run[i], KeyOf(run[i].f), 0, 1, 0, []);
  }

  lemma {:induction false} AllAreGenuine(c: Config, run: seq<Event>, start: nat, i: nat, k: Key, q: Partial)
    requires i < |run| && Backed(c, run, start, i + 1, k, q) && AllThere(q) && q.fragmentCount > 0
    ensures Genuine(c, run, start, i, k, PartsOf(q.fragments))
  {
    hide Supplied;
    PartsJoin(q.fragments);
    var parts := PartsOf(q.fragments);
    forall j | 0 <= j < |parts| ensures Supplied(c, run, start, i + 1, k, j, |parts|, |Concat(parts)|, parts[j]) {
      assert q.fragments[j].Some?;
    }
  }

  // ---------------------------------------------------------------- contradictions

  /** The result of a push that meets a partial datagram of its key. */
  function Verdict(p: Partial, f: P.Fragment): Option<Error>
    requires f.index < f.count
  {
    if f.originalLength != p.originalLength || f.count != |p.fragments| then Some(MetadataMismatch)
    else match p.fragments[f.index]
      case Some(held) => if f.payload == held then None else Some(ConflictingFragment)
      case None =>
        if FilledBytes(p.fragments) + |f.payload| > p.originalLength then Some(DeclaredLengthExceeded) else None
  }

  /**
   * A fragment of another shape, other contents for a fragment already held, or more bytes than declared are
   * refused and end the datagram; the same fragment again changes nothing.
   */
  lemma {:induction false} ContradictionEnds(c: Config, st: State, f: P.Fragment, now: Time)
    requires Inv(c, st) && P.Validate(f) == None && f.originalLength > 0
    requires var s := Expire(c, st, now); KeyOf(f) !in s.completed && KeyOf(f) in s.partials
    ensures var s := Expire(c, st, now);
      var p := s.partials[KeyOf(f)];
      var (st2, r) := Push(c, st, f, now);
      && f.index < f.count
      && (Verdict(p, f).Some? ==> r == Err(Verdict(p, f).value) && st2 == s.(partials := s.partials - {KeyOf(f)}))
      && (r == Ok(Duplicate) <==> Verdict(p, f) == None && p.fragments[f.index].Some?)
      && (r == Ok(Duplicate) ==> st2 == s)
  {
    hide Expire, Remember, Assembled, TotalBytes, SessionsWithin;
    var s := Expire(c, st, now);
    InvExpire(c, st, now);
    var p := s.partials[KeyOf(f)];
    assert PartialOk(p);
    assert s.partials[KeyOf(f) := p] == s.partials;
  }
}
