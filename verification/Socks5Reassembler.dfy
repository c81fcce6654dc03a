/**
 * The SOCKS5 reassembler object and the shared budget object: per-session usage, local totals, stepwise
 * reservation with rollback and release on every exit, proved to do what `Socks5Reassembly` says and to
 * move the shared counters by exactly what the live assemblies gain or lose.
 */
module Socks5Reassembler {
  import opened Wrappers
  import opened Bytes
  import opened MapSum
  import opened Socks5Reassembly
  import opened Socks5Invariant
  import B = Socks5Budget
  import U = Socks5Udp
  import R = Socks5Runs

  // ---------------------------------------------------------------- the shared budget

  class Budget {
    const limits: Counters
    var inflight: nat
    var fragments: nat
    var bytes: nat

    function Level(): Counters
      reads this
    {
      Counters(inflight, fragments, bytes)
    }

    constructor (limits: Counters)
      ensures this.limits == limits && Level() == ZERO
    {
      this.limits := limits;
      inflight, fragments, bytes := 0, 0, 0;
    }

    predicate Supports(c: Config)
    {
      c.global.Within(limits)
    }

    method TryReserveDatagram() returns (ok: bool)
      requires limits.inflight >= 0
      modifies this`inflight
      ensures ok == (old(inflight) + 1 <= limits.inflight)
      ensures inflight == if ok then old(inflight) + 1 else old(inflight)
    {
      var next := B.TryReserve(inflight, limits.inflight, 1);
      ok := next.Some?;
      if ok { inflight := next.value; }
    }

    method TryReserveBytes(n: nat) returns (ok: bool)
      requires limits.bytes >= 0
      modifies this`bytes
      ensures ok == (old(bytes) + n <= limits.bytes)
      ensures bytes == if ok then old(bytes) + n else old(bytes)
    {
      var next := B.TryReserve(bytes, limits.bytes, n);
      ok := next.Some?;
      if ok { bytes := next.value; }
    }

    /** Reserves a slot and its bytes, or neither. */
    method TryReserveFragment(n: nat) returns (r: Option<Error>)
      requires limits.bytes >= 0 && limits.fragments >= 0
      modifies this`fragments, this`bytes
      ensures r == if old(fragments) + 1 > limits.fragments then Some(GlobalFragmentBudget)
                   else if old(bytes) + n > limits.bytes then Some(GlobalByteBudget) else None
      ensures Level() == if r.None? then old(Level()).Plus(Counters(0, 1, n)) else old(Level())
    {
      var next := B.TryReserve(fragments, limits.fragments, 1);
      if next.None? { return Some(GlobalFragmentBudget); }
      fragments := next.value;
      var ok := TryReserveBytes(n);
      if !ok {
        fragments := B.Release(fragments, 1);
        return Some(GlobalByteBudget);
      }
      r := None;
    }

    method ReleaseDatagram()
      modifies this`inflight
      ensures inflight == B.Release(old(inflight), 1)
    {
      inflight := B.Release(inflight, 1);
    }

    method ReleaseBytes(n: nat)
      modifies this`bytes
      ensures bytes == B.Release(old(bytes), n)
    {
      bytes := B.Release(bytes, n);
    }

    method ReleaseFragment(n: nat)
      modifies this`fragments, this`bytes
      ensures fragments == B.Release(old(fragments), 1) && bytes == B.Release(old(bytes), n)
    {
      fragments := B.Release(fragments, 1);
      ReleaseBytes(n);
    }

    /** Returns everything one assembly reserved, counter by counter. */
    method ReleaseAssembly(x: Assembly)
      requires x.payloadBytes == PayloadSize(x.fragments) && x.payloadBytes <= x.bytes && CostOf(x).Within(Level())
      modifies this`inflight, this`fragments, this`bytes
      ensures Level() == old(Level()).Minus(CostOf(x))
    {
      ReleaseDatagram();
      ReleaseBytes(SatSub(x.bytes, x.payloadBytes));
      var rest := x.fragments;
      while rest != map[]
        invariant Level() == old(Level()).Minus(Counters(1, |x.fragments| - |rest|, x.bytes - PayloadSize(rest)))
        invariant |rest| <= |x.fragments| && PayloadSize(rest) <= x.payloadBytes
        decreases |rest|
      {
        var s :| s in rest;
        PayloadSizeRemove(rest, s);
        ReleaseFragment(|rest[s]|);
        rest := rest - {s};
      }
      assert Sizes(rest) == map[];
    }
  }

  lemma {:induction false} PayloadSizeRemove(fragments: Fragments, s: nat)
    requires s in fragments
    ensures PayloadSize(fragments) == PayloadSize(fragments - {s}) + |fragments[s]|
    ensures |fragments| == |fragments - {s}| + 1
  {
    PayloadSizeInsert(fragments - {s}, s, fragments[s]);
    assert (fragments - {s})[s := fragments[s]] == fragments;
    assert fragments.Keys == (fragments - {s}).Keys + {s};
  }

  // ---------------------------------------------------------------- accounts

  function UsageOf(sessions: map<Session, Counters>, s: Session): Counters
  {
    if s in sessions then sessions[s] else ZERO
  }

  ghost predicate SessionMatches(sessions: map<Session, Counters>, a: Assemblies, s: Session)
  {
    UsageOf(sessions, s) == Held(Only(a, s)) && (s in sessions ==> sessions[s] != ZERO)
  }

  ghost predicate SessionsMatch(sessions: map<Session, Counters>, a: Assemblies)
  {
    forall s :: SessionMatches(sessions, a, s)
  }

  /** Charging one assembly more to its session. */
  lemma {:induction false} ChargeSession(
    sessions: map<Session, Counters>, a: Assemblies, k: Key, x: Assembly, more: Counters)
    requires SessionsMatch(sessions, a) && ZERO.Within(more) && more != ZERO
    requires k in a ==> CostOf(x) == CostOf(a[k]).Plus(more)
    requires k !in a ==> CostOf(x) == more
    ensures SessionsMatch(sessions[k.session := UsageOf(sessions, k.session).Plus(more)], a[k := x])
    ensures Held(a[k := x]) == Held(a).Plus(more)
  {
    hide Held, Only, CostOf;
    var sessions', a' := sessions[k.session := UsageOf(sessions, k.session).Plus(more)], a[k := x];
    forall s ensures SessionMatches(sessions', a', s) {
      assert SessionMatches(sessions, a, s);
      HeldOnlyUpdate(a, k, x, s);
      HeldNonNegative(Only(a, s));
    }
    if k in a { HeldReplace(a, k, x); } else { HeldInsert(a, k, x); }
  }

  function SatMinus(u: Counters, v: Counters): Counters
    requires ZERO.Within(u) && ZERO.Within(v)
  {
    Counters(SatSub(u.inflight, v.inflight), SatSub(u.fragments, v.fragments), SatSub(u.bytes, v.bytes))
  }

  /** Taking a removed assembly off its session never truncates; the entry goes when nothing is left. */
  lemma {:induction false} DischargeSession(sessions: map<Session, Counters>, a: Assemblies, k: Key)
    requires SessionsMatch(sessions, a) && k in a
    ensures k.session in sessions && CostOf(a[k]).Within(sessions[k.session]) && ZERO.Within(sessions[k.session])
    ensures var usage := sessions[k.session].Minus(CostOf(a[k]));
      SessionsMatch(if usage == ZERO then sessions - {k.session} else sessions[k.session := usage], a - {k})
  {
    hide Held, Only;
    assert SessionMatches(sessions, a, k.session);
    HeldOnlyRemove(a, k, k.session);
    HeldNonNegative(Only(a - {k}, k.session));
    HeldNonNegative(Only(a, k.session));
    var usage := sessions[k.session].Minus(CostOf(a[k]));
    var sessions' := if usage == ZERO then sessions - {k.session} else sessions[k.session := usage];
    forall s ensures SessionMatches(sessions', a - {k}, s) {
      assert SessionMatches(sessions, a, s);
      HeldOnlyRemove(a, k, s);
    }
  }

  // ---------------------------------------------------------------- the reassembler

  class Reassembler {
    const config: Config
    const budget: Budget
    var assemblies: Assemblies
    var sessions: map<Session, Counters>
    var localFragments: nat
    var localBytes: nat

    ghost predicate Accounts(a: Assemblies)
      reads this
    {
      SessionsMatch(sessions, a) && localFragments == Held(a).fragments && localBytes == Held(a).bytes
    }

    ghost predicate Valid()
      reads this, budget
    {
      && Usable(config) && config.global.Within(budget.limits) && ZERO.Within(budget.limits)
      && Inv(config, assemblies) && Accounts(assemblies)
      && Covered(budget.limits, budget.Level(), assemblies)
    }

    constructor (config: Config, budget: Budget)
      requires Usable(config) && budget.Supports(config) && ZERO.Within(budget.Level())
      requires budget.Level().Within(budget.limits)
      ensures Valid() && this.config == config && this.budget == budget && assemblies == map[]
    {
      this.config, this.budget := config, budget;
      assemblies, sessions, localFragments, localBytes := map[], map[], 0, 0;
      new;
      R.InvEmpty(config);
      HeldEmpty();
      forall s ensures SessionMatches(sessions, assemblies, s) {
        assert Only(assemblies, s) == map[];
      }
    }

    /** Refuses an invalid configuration, or a budget smaller than the configuration promises. */
    static method Create(config: Config, budget: Budget) returns (r: Result<Reassembler, ConfigError>)
      requires ConfigTyped(config) && ZERO.Within(budget.Level()) && budget.Level().Within(budget.limits)
      ensures r.Ok? <==> ValidateConfig(config) == None && budget.Supports(config)
      ensures r.Err? ==> r.error == if ValidateConfig(config).Some? then ValidateConfig(config).value else InvalidLimit
      ensures r.Ok? ==> fresh(r.value) && r.value.Valid() && r.value.config == config && r.value.budget == budget
      ensures r.Ok? ==> r.value.assemblies == map[]
    {
      var invalid := ValidateConfig(config);
      if invalid.Some? { return Err(invalid.value); }
      if !budget.Supports(config) { return Err(InvalidLimit); }
      var reassembler := new Reassembler(config, budget);
      r := Ok(reassembler);
    }

    /** Reserves and opens an assembly; a refused byte reservation returns the datagram already counted. */
    method OpenAssembly(k: Key, f: U.Fragment, envelope: nat, now: Time) returns (r: Option<Error>)
      requires Accounts(assemblies) && k !in assemblies && ZERO.Within(budget.limits)
      modifies this`assemblies, this`sessions, this`localBytes, budget
      ensures r == OpenError(config, budget.limits, old(budget.Level()), old(assemblies), k.session, envelope)
      ensures r.Some? ==> assemblies == old(assemblies) && budget.Level() == old(budget.Level())
      ensures r.None? ==> assemblies == old(assemblies)[k := Opened(f, envelope, now)]
      ensures r.None? ==> budget.Level() == old(budget.Level()).Plus(Counters(1, 0, envelope))
      ensures Accounts(assemblies)
    {
      hide Held;
      assert SessionMatches(sessions, assemblies, k.session);
      var usage := UsageOf(sessions, k.session);
      if envelope > config.maxBytesPerDatagram { return Some(DatagramByteBudget); }
      if usage.inflight >= config.perSession.inflight { return Some(SessionInflightBudget); }
      if usage.bytes + envelope > config.perSession.bytes { return Some(SessionByteBudget); }
      var counted := budget.TryReserveDatagram();
      if !counted { return Some(GlobalInflightBudget); }
      var reserved := budget.TryReserveBytes(envelope);
      if !reserved {
        budget.ReleaseDatagram();
        return Some(GlobalByteBudget);
      }
      ChargeSession(sessions, assemblies, k, Opened(f, envelope, now), Counters(1, 0, envelope));
      sessions := sessions[k.session := usage.Plus(Counters(1, 0, envelope))];
      localBytes := localBytes + envelope;
      assemblies := assemblies[k := Opened(f, envelope, now)];
      r := None;
    }

    /** Reserves room for one more fragment; on success the accounts already include `next`. */
    method ReserveFragment(k: Key, n: nat, ghost next: Assembly) returns (r: Option<Error>)
      requires Accounts(assemblies) && k in assemblies && ZERO.Within(budget.limits)
      requires CostOf(next) == CostOf(assemblies[k]).Plus(Counters(0, 1, n))
      modifies this`sessions, this`localFragments, this`localBytes, budget
      ensures r == ReserveError(config, budget.limits, old(budget.Level()), assemblies, k, n)
      ensures r.Some? ==> Accounts(assemblies) && budget.Level() == old(budget.Level())
      ensures r.None? ==> Accounts(assemblies[k := next])
      ensures r.None? ==> budget.Level() == old(budget.Level()).Plus(Counters(0, 1, n))
    {
      hide Held;
      assert SessionMatches(sessions, assemblies, k.session);
      var x, usage := assemblies[k], UsageOf(sessions, k.session);
      if |x.fragments| >= config.maxFragmentsPerDatagram { return Some(SequenceLimit); }
      if x.bytes + n > config.maxBytesPerDatagram { return Some(DatagramByteBudget); }
      if usage.fragments >= config.perSession.fragments { return Some(SessionFragmentBudget); }
      if usage.bytes + n > config.perSession.bytes { return Some(SessionByteBudget); }
      r := budget.TryReserveFragment(n);
      if r.None? {
        ChargeSession(sessions, assemblies, k, next, Counters(0, 1, n));
        sessions := sessions[k.session := usage.Plus(Counters(0, 1, n))];
        localFragments := localFragments + 1;
        localBytes := localBytes + n;
      }
    }

    /** Removes an assembly and gives back everything it reserved; no subtraction truncates. */
    method RemoveAssembly(k: Key) returns (r: Option<Assembly>)
      requires Accounts(assemblies) && Held(assemblies).Within(budget.Level())
      requires k in assemblies ==>
        var x := assemblies[k]; x.payloadBytes == PayloadSize(x.fragments) && x.payloadBytes <= x.bytes
      modifies this`assemblies, this`sessions, this`localFragments, this`localBytes, budget
      ensures r == if k in old(assemblies) then Some(old(assemblies)[k]) else None
      ensures assemblies == old(assemblies) - {k} && Accounts(assemblies)
      ensures budget.Level() == Shifted(old(budget.Level()), old(assemblies), assemblies)
    {
      hide Held, PayloadSize;
      if k !in assemblies {
        assert assemblies - {k} == assemblies;
        return None;
      }
      var x := assemblies[k];
      HeldRemove(assemblies, k);
      HeldNonNegative(assemblies - {k});
      DischargeSession(sessions, assemblies, k);
      assemblies := assemblies - {k};
      budget.ReleaseAssembly(x);
      localFragments := SatSub(localFragments, |x.fragments|);
      localBytes := SatSub(localBytes, x.bytes);
      if k.session in sessions {
        var usage := SatMinus(sessions[k.session], CostOf(x));
        sessions := if usage == ZERO then sessions - {k.session} else sessions[k.session := usage];
      }
      r := Some(x);
    }

    /** The contiguity loop; it ends because sequence numbers are octets. */
    static method ExtendRun(fragments: Fragments, from: U8) returns (to: U8)
      ensures to == Advance(fragments, from)
    {
      to := from;
      while to < MAX_U8 && to as nat + 1 in fragments
        invariant Advance(fragments, to) == Advance(fragments, from)
        decreases MAX_U8 - to
      {
        to := to + 1;
      }
    }

    static method JoinFragments(fragments: Fragments, n: nat) returns (payload: seq<Byte>)
      requires forall s :: 1 <= s <= n ==> s in fragments
      ensures payload == Joined(fragments, n)
    {
      payload := [];
      for s := 1 to n + 1
        invariant payload == Joined(fragments, s - 1)
      {
        payload := payload + fragments[s];
      }
    }

    /** Stores a fragment whose room is reserved, and delivers the datagram if that completes it. */
    method StoreTail(k: Key, f: U.Fragment, now: Time) returns (r: Result<Outcome, Error>)
      requires Usable(config) && k in assemblies && Shape(config, k, assemblies[k])
      requires Judge(config, assemblies[k], f) == Admit
      requires |assemblies[k].fragments| < config.maxFragmentsPerDatagram
      requires assemblies[k].bytes + |f.payload| <= config.maxBytesPerDatagram
      requires 1 <= f.sequence <= config.maxFragmentsPerDatagram
      requires Accounts(assemblies[k := Stored(assemblies[k], f, now)])
      requires Held(assemblies[k := Stored(assemblies[k], f, now)]).Within(budget.Level())
      modifies this`assemblies, this`sessions, this`localFragments, this`localBytes, budget
      ensures var next := Stored(old(assemblies)[k], f, now);
              && (Finished(next) ==> assemblies == old(assemblies) - {k} && r == Ok(Delivered(next)))
              && (!Finished(next) ==> assemblies == old(assemblies)[k := next] && r == Ok(Pending))
              && Accounts(assemblies)
              && budget.Level() == Shifted(old(budget.Level()), old(assemblies)[k := next], assemblies)
    {
      hide Held, PayloadSize, Judge, SessionsMatch, LongestRun;
      var x := assemblies[k];
      ghost var next := Stored(x, f, now);
      StoredKeepsShape(config, k, x, f, now);
      var fragments := x.fragments[f.sequence := f.payload];
      var reached := ExtendRun(fragments, x.contiguous);
      x := x.(final := if f.final then Some(f.sequence) else x.final,
              payloadBytes := x.payloadBytes + |f.payload|,
              bytes := x.bytes + |f.payload|,
              fragments := fragments,
              highest := if x.highest >= f.sequence then x.highest else f.sequence,
              lastActivity := now,
              contiguous := reached);
      assert x == next;
      assemblies := assemblies[k := x];
      if !(x.final.Some? && x.contiguous == x.final.value) { return Ok(Pending); }
      assert old(assemblies)[k := x] - {k} == old(assemblies) - {k};
      var _ := RemoveAssembly(k);
      RunIsComplete(x);
      var payload := JoinFragments(x.fragments, x.final.value);
      r := Ok(Complete(U.Datagram(x.target, x.port, payload), true));
    }

    /** The part of a push that follows once the assembly exists. */
    method PushTail(k: Key, f: U.Fragment, now: Time, created: bool) returns (r: Result<Outcome, Error>)
      requires Usable(config) && k in assemblies && Shape(config, k, assemblies[k])
      requires 1 <= f.sequence <= config.maxFragmentsPerDatagram
      requires Accounts(assemblies) && ZERO.Within(budget.limits) && Held(assemblies).Within(budget.Level())
      modifies this`assemblies, this`sessions, this`localFragments, this`localBytes, budget
      ensures (assemblies, r)
           == PushInto(config, budget.limits, old(budget.Level()), old(assemblies), k, f, now, created)
      ensures Accounts(assemblies) && budget.Level() == Shifted(old(budget.Level()), old(assemblies), assemblies)
    {
      hide Held, PayloadSize, Judge, ReserveError, ValidateConfig, SessionsMatch, U.HeaderLength, LongestRun;
      var x := assemblies[k];
      var verdict := Judge(config, x, f);
      if verdict.Reject? {
        var _ := RemoveAssembly(k);
        return Err(verdict.error);
      }
      if verdict.Refuse? { return Err(verdict.error); }
      if verdict.AlreadyHeld? { return Ok(Duplicate); }
      ghost var next := Stored(x, f, now);
      StoredCost(config, x, f, now);
      var refused := ReserveFragment(k, |f.payload|, next);
      if refused.Some? {
        if created {
          var _ := RemoveAssembly(k);
        }
        return Err(refused.value);
      }
      HeldReplace(assemblies, k, next);
      ReserveFits(config, budget.limits, old(budget.Level()), assemblies, k, |f.payload|);
      r := StoreTail(k, f, now);
    }

    method PushFragment(s: Session, f: U.Fragment, now: Time) returns (r: Result<Outcome, Error>)
      requires Valid()
      modifies this`assemblies, this`sessions, this`localFragments, this`localBytes, budget
      ensures Valid()
      ensures (assemblies, r) == Push(config, budget.limits, old(budget.Level()), old(assemblies), s, f, now)
      ensures budget.Level() == Shifted(old(budget.Level()), old(assemblies), assemblies)
    {
      hide Inv, Held, PushInto, OpenError, U.HeaderLength, ValidateConfig, SessionsMatch, Shape;
      InvPush(config, budget.limits, budget.Level(), Own(budget.Level(), assemblies, s, f), assemblies, s, f, now);
      PushCovered(config, budget.limits, budget.Level(), assemblies, s, f, now);
      if f.sequence == 0 { return Ok(Complete(U.Datagram(f.target, f.port, f.payload), false)); }
      if f.sequence > config.maxFragmentsPerDatagram { return Err(SequenceLimit); }
      var k := Key(s, f.target, f.port);
      var created := k !in assemblies;
      if created {
        if f.sequence != 1 { return Err(MissingInitialFragment); }
        var header := U.HeaderLength(f.target);
        if header.Err? { return Err(DatagramByteBudget); }
        var refused := OpenAssembly(k, f, header.value, now);
        if refused.Some? { return Err(refused.value); }
        OpenFits(config, budget.limits, old(budget.Level()), old(assemblies), s, header.value);
        OpenedShape(config, k, f, header.value, now);
        HeldInsert(old(assemblies), k, Opened(f, header.value, now));
      } else {
        KeyAlmost(config, assemblies, k);
      }
      r := PushTail(k, f, now, created);
    }

    /** Removes the given assemblies one by one, in an unspecified order. */
    method RemoveAssemblies(keys: set<Key>) returns (removed: Counters)
      requires Accounts(assemblies) && keys <= assemblies.Keys && Held(assemblies).Within(budget.Level())
      requires Inv(config, assemblies)
      modifies this`assemblies, this`sessions, this`localFragments, this`localBytes, budget
      ensures assemblies == old(assemblies) - keys && Accounts(assemblies)
      ensures budget.Level() == Shifted(old(budget.Level()), old(assemblies), assemblies)
      ensures removed == Held(old(assemblies)).Minus(Held(assemblies))
    {
      hide Held, SessionsMatch, Inv, Shifted;
      removed := ZERO;
      var rest := keys;
      assert assemblies - (keys - rest) == assemblies;
      ShiftedSame(budget.Level(), assemblies);
      while rest != {}
        invariant rest <= keys && assemblies == old(assemblies) - (keys - rest)
        invariant Accounts(assemblies) && budget.Level() == Shifted(old(budget.Level()), old(assemblies), assemblies)
        invariant Held(assemblies).Within(budget.Level())
        invariant removed == Held(old(assemblies)).Minus(Held(assemblies))
        decreases |rest|
      {
        var k :| k in rest;
        RemoveNext(old(assemblies), keys, rest, k);
        PayloadPart(config, old(assemblies), k);
        ghost var level, before := budget.Level(), assemblies;
        var x := RemoveAssembly(k);
        ShiftedMore(old(budget.Level()), level, old(assemblies), before, k);
        if x.Some? {
          removed := removed.Plus(CostOf(x.value));
        }
        rest := rest - {k};
      }
      assert keys - {} == keys;
    }

    /** Drops assemblies without activity for the timeout; reports exactly what they held. */
    method ExpireAt(now: Time) returns (expired: Counters)
      requires Valid()
      modifies this`assemblies, this`sessions, this`localFragments, this`localBytes, budget
      ensures Valid() && assemblies == Expire(config, old(assemblies), now)
      ensures budget.Level() == Shifted(old(budget.Level()), old(assemblies), assemblies)
      ensures expired == Held(old(assemblies)).Minus(Held(assemblies))
    {
      hide Inv, Held, SessionsMatch;
      InvExpire(config, assemblies, now);
      CoveredSubmap(budget.limits, budget.Level(), Expire(config, assemblies, now), assemblies);
      var keys := set k | k in assemblies && TimedOut(assemblies[k], config.timeout, now);
      assert assemblies - keys == Expire(config, assemblies, now);
      expired := RemoveAssemblies(keys);
    }

    method DiscardSessionState(s: Session) returns (discarded: Counters)
      requires Valid()
      modifies this`assemblies, this`sessions, this`localFragments, this`localBytes, budget
      ensures Valid() && assemblies == DiscardSession(old(assemblies), s)
      ensures budget.Level() == Shifted(old(budget.Level()), old(assemblies), assemblies)
      ensures discarded == Held(old(assemblies)).Minus(Held(assemblies))
    {
      hide Inv, Held, SessionsMatch;
      InvDiscard(config, assemblies, s);
      CoveredSubmap(budget.limits, budget.Level(), DiscardSession(assemblies, s), assemblies);
      var keys := set k | k in assemblies && k.session == s;
      assert assemblies - keys == DiscardSession(assemblies, s);
      discarded := RemoveAssemblies(keys);
    }

    /** Runs when the reassembler goes away: the shared counters lose exactly what it still held. */
    method Drop()
      requires Valid()
      modifies budget
      ensures budget.Level() == old(budget.Level()).Minus(Held(assemblies))
    {
      hide Inv, Held, SessionsMatch, PayloadSize;
      var rest := assemblies;
      while rest != map[]
        invariant rest.Keys <= assemblies.Keys && forall k :: k in rest ==> rest[k] == assemblies[k]
        invariant budget.Level() == old(budget.Level()).Minus(Held(assemblies)).Plus(Held(rest))
        invariant Held(rest).Within(budget.Level())
        decreases |rest|
      {
        var k :| k in rest;
        PayloadPart(config, assemblies, k);
        HeldRemove(rest, k);
        HeldNonNegative(rest - {k});
        budget.ReleaseAssembly(rest[k]);
        rest := rest - {k};
      }
      HeldEmpty();
    }
  }

  lemma {:induction false} ShiftedSame(g: Counters, a: Assemblies)
    ensures Shifted(g, a, a) == g && ZERO == Held(a).Minus(Held(a))
  {
    hide Held;
  }

  /** Removing one more assembly keeps the budget level and the running total in step. */
  lemma {:induction false} ShiftedMore(g: Counters, level: Counters, a: Assemblies, b: Assemblies, k: Key)
    requires k in b && level == Shifted(g, a, b) && Held(b).Within(level)
    ensures Shifted(level, b, b - {k}) == Shifted(g, a, b - {k})
    ensures Held(b - {k}).Within(Shifted(g, a, b - {k}))
    ensures Held(a).Minus(Held(b)).Plus(CostOf(b[k])) == Held(a).Minus(Held(b - {k}))
  {
    hide Held;
    HeldRemove(b, k);
    HeldNonNegative(b - {k});
  }

  lemma {:induction false} StoredCost(c: Config, x: Assembly, f: U.Fragment, now: Time)
    requires Judge(c, x, f) == Admit
    ensures CostOf(Stored(x, f, now)) == CostOf(x).Plus(Counters(0, 1, |f.payload|))
  {
    hide Advance;
    assert x.fragments[f.sequence := f.payload].Keys == x.fragments.Keys + {f.sequence};
  }

  lemma {:induction false} ReserveFits(c: Config, limits: Counters, g: Counters, a: Assemblies, k: Key, n: nat)
    requires k in a && ReserveError(c, limits, g, a, k, n) == None
    ensures |a[k].fragments| < c.maxFragmentsPerDatagram && a[k].bytes + n <= c.maxBytesPerDatagram
  {
  }

  lemma {:induction false} RunIsComplete(x: Assembly)
    requires LongestRun(x.fragments, x.contiguous)
    ensures forall s :: 1 <= s <= x.contiguous as nat ==> s in x.fragments
  {
  }

  lemma {:induction false} PayloadPart(c: Config, a: Assemblies, k: Key)
    requires Inv(c, a) && k in a
    ensures a[k].payloadBytes == PayloadSize(a[k].fragments) && a[k].payloadBytes <= a[k].bytes
  {
    assert AssemblyOk(c, k, a[k]);
  }
}
