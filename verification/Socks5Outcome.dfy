/**
 * What a push comes to, case by case and in the client's terms: which fragments are repeated, which are
 * refused and why, and whether a refusal costs the datagram being assembled.
 */
module Socks5Outcome {
  import opened Wrappers
  import opened Socks5Reassembly
  import opened Socks5Invariant
  import opened Socks5Runs
  import U = Socks5Udp

  /** A configuration is accepted exactly if its limits are sensible and nest. */
  lemma {:induction false} ConfigExact(c: Config)
    requires ConfigTyped(c) && c.timeout >= 0
    ensures ValidateConfig(c) == None <==>
      && c.timeout >= 5_000 && 1 <= c.maxFragmentsPerDatagram <= 127 && 1 <= c.maxBytesPerDatagram <= 65_507
      && 1 <= c.perSession.inflight <= c.global.inflight
      && c.maxFragmentsPerDatagram <= c.perSession.fragments <= c.global.fragments
      && c.maxBytesPerDatagram <= c.perSession.bytes <= c.global.bytes
    ensures ValidateConfig(c) == Some(ZeroTimeout) <==> c.timeout == 0
    ensures ValidateConfig(c) == Some(TimeoutTooShort) <==> 0 < c.timeout < 5_000
  {
  }

  // ---------------------------------------------------------------- how a fragment compares

  /** A fragment with a higher number is held. */
  predicate Passed(x: Assembly, s: nat)
  {
    exists t :: t in x.fragments && t > s
  }

  /** Some fragment more than `gap` places before `s` is missing. */
  predicate TooFarAhead(x: Assembly, s: nat, gap: nat)
  {
    exists t :: 1 <= t < s - gap && t !in x.fragments
  }

  /** The fragment is held already, final or not as it says, with the same payload. */
  predicate Same(x: Assembly, f: U.Fragment)
    requires f.sequence in x.fragments
  {
    x.fragments[f.sequence] == f.payload && (x.final == Some(f.sequence) <==> f.final)
  }

  datatype Fault = Fine | Repeats | Waits(error: Error) | Breaks(error: Error)

  /** What is wrong with a fragment, given what is held: nothing, a repetition, too early, or a contradiction. */
  ghost function FaultOf(c: Config, x: Assembly, f: U.Fragment): Fault
  {
    if c.maxReorderGap == 0 && Passed(x, f.sequence) then Breaks(ReorderGap)
    else if f.sequence in x.fragments then
      if x.final == Some(f.sequence) && f.final then Breaks(DuplicateFinalFragment)
      else if Same(x, f) then Repeats
      else Breaks(ConflictingDuplicate)
    else if exists n :: x.final == Some(n) && n < f.sequence then Breaks(FragmentAfterFinal)
    else if f.final && x.final != None then Breaks(ConflictingFinalFragment)
    else if TooFarAhead(x, f.sequence, c.maxReorderGap) then Waits(ReorderGap)
    else Fine
  }

  function AsVerdict(fault: Fault): Verdict
  {
    match fault
    case Fine => Admit
    case Repeats => AlreadyHeld
    case Waits(e) => Refuse(e)
    case Breaks(e) => Reject(e)
  }

  lemma {:induction false} PassedIsHigher(c: Config, k: Key, x: Assembly, s: nat)
    requires Shape(c, k, x)
    ensures Passed(x, s) <==> s < x.highest
  {
    hide LongestRun, PayloadSize, U.HeaderLength;
  }

  lemma {:induction false} AheadOfRun(c: Config, k: Key, x: Assembly, s: nat)
    requires Usable(c) && Shape(c, k, x) && s <= 127
    ensures TooFarAhead(x, s, c.maxReorderGap) <==> s > SatAddU8(SatAddU8(x.contiguous, c.maxReorderGap), 1)
  {
    hide PayloadSize, U.HeaderLength;
    var n := x.contiguous;
    assert n + 1 !in x.fragments;
    if s > n + c.maxReorderGap + 1 {
      assert 1 <= n + 1 < s - c.maxReorderGap && n + 1 !in x.fragments;
    }
  }

  /** The judgement on a fragment is what its fault calls for. */
  lemma {:induction false} JudgeExact(c: Config, k: Key, x: Assembly, f: U.Fragment)
    requires Usable(c) && Shape(c, k, x) && 1 <= f.sequence <= c.maxFragmentsPerDatagram
    ensures Judge(c, x, f) == AsVerdict(FaultOf(c, x, f))
  {
    hide LongestRun, PayloadSize, U.HeaderLength, Passed, TooFarAhead;
    PassedIsHigher(c, k, x, f.sequence);
    AheadOfRun(c, k, x, f.sequence);
  }

  // ---------------------------------------------------------------- budgets

  /** The budgets a new assembly must fit, as far as the client's own session and the gauges go. */
  ghost predicate MayOpen(c: Config, limits: Counters, g: Counters, a: Assemblies, s: Session, envelope: nat)
  {
    var own := Held(Only(a, s));
    && envelope <= c.maxBytesPerDatagram
    && own.inflight < c.perSession.inflight && own.bytes + envelope <= c.perSession.bytes
    && g.inflight < limits.inflight && g.bytes + envelope <= limits.bytes
  }

  /** The budgets one more fragment must fit. */
  ghost predicate MayStore(c: Config, limits: Counters, g: Counters, a: Assemblies, k: Key, length: nat)
    requires k in a
  {
    var own := Held(Only(a, k.session));
    && |a[k].fragments| < c.maxFragmentsPerDatagram && a[k].bytes + length <= c.maxBytesPerDatagram
    && own.fragments < c.perSession.fragments && own.bytes + length <= c.perSession.bytes
    && g.fragments < limits.fragments && g.bytes + length <= limits.bytes
  }

  /** The reason given for refusing an assembly is a budget it does not fit, and none before it is. */
  ghost predicate OpenReason(
    c: Config, limits: Counters, g: Counters, a: Assemblies, s: Session, envelope: nat, e: Error)
  {
    var own := Held(Only(a, s));
    match e
    case DatagramByteBudget => envelope > c.maxBytesPerDatagram
    case SessionInflightBudget => envelope <= c.maxBytesPerDatagram && own.inflight >= c.perSession.inflight
    case SessionByteBudget => own.inflight < c.perSession.inflight && own.bytes + envelope > c.perSession.bytes
    case GlobalInflightBudget => own.bytes + envelope <= c.perSession.bytes && g.inflight >= limits.inflight
    case GlobalByteBudget => g.inflight < limits.inflight && g.bytes + envelope > limits.bytes
    case _ => false
  }

  ghost predicate StoreReason(
    c: Config, limits: Counters, g: Counters, a: Assemblies, k: Key, length: nat, e: Error)
    requires k in a
  {
    var own := Held(Only(a, k.session));
    match e
    case SequenceLimit => |a[k].fragments| >= c.maxFragmentsPerDatagram
    case DatagramByteBudget =>
      |a[k].fragments| < c.maxFragmentsPerDatagram && a[k].bytes + length > c.maxBytesPerDatagram
    case SessionFragmentBudget =>
      a[k].bytes + length <= c.maxBytesPerDatagram && own.fragments >= c.perSession.fragments
    case SessionByteBudget => own.fragments < c.perSession.fragments && own.bytes + length > c.perSession.bytes
    case GlobalFragmentBudget => own.bytes + length <= c.perSession.bytes && g.fragments >= limits.fragments
    case GlobalByteBudget => g.fragments < limits.fragments && g.bytes + length > limits.bytes
    case _ => false
  }

  lemma {:induction false} BudgetsExact(
    c: Config, limits: Counters, g: Counters, a: Assemblies, k: Key, envelope: nat, length: nat)
    ensures OpenError(c, limits, g, a, k.session, envelope) == None <==> MayOpen(c, limits, g, a, k.session, envelope)
    ensures OpenError(c, limits, g, a, k.session, envelope).Some? ==>
      OpenReason(c, limits, g, a, k.session, envelope, OpenError(c, limits, g, a, k.session, envelope).value)
    ensures k in a ==>
      (ReserveError(c, limits, g, a, k, length) == None <==> MayStore(c, limits, g, a, k, length))
    ensures k in a && ReserveError(c, limits, g, a, k, length).Some? ==>
      StoreReason(c, limits, g, a, k, length, ReserveError(c, limits, g, a, k, length).value)
  {
    hide Held, Only;
  }

  // ---------------------------------------------------------------- a whole push

  /** A number beyond the limit, or a datagram that does not begin with 1, is refused and changes nothing. */
  lemma {:induction false} OutOfTurn(
    c: Config, limits: Counters, g: Counters, h: Counters, a: Assemblies, s: Session, f: U.Fragment, now: Time)
    requires f.sequence > 0
    ensures f.sequence > c.maxFragmentsPerDatagram ==>
      PushAt(c, limits, g, h, a, s, f, now) == (a, Err(SequenceLimit))
    ensures f.sequence <= c.maxFragmentsPerDatagram && Key(s, f.target, f.port) !in a && f.sequence != 1 ==>
      PushAt(c, limits, g, h, a, s, f, now) == (a, Err(MissingInitialFragment))
  {
  }

  /** What storing the fragment gives: the whole datagram, or an assembly that holds one more. */
  ghost predicate StoresInto(a: Assemblies, k: Key, x: Assembly, f: U.Fragment, now: Time, step: Step)
  {
    var (b, r) := step;
    match r
    case Ok(Complete(d, fragmented)) => fragmented && b == a - {k}
    case Ok(Pending) =>
      && k in b && b == a[k := b[k]]
      && b[k].fragments == x.fragments[f.sequence := f.payload]
      && b[k].final == (if f.final then Some(f.sequence) else x.final)
      && b[k].lastActivity == now && b[k].target == x.target && b[k].port == x.port
    case _ => false
  }

  /** A fragment for an assembly that is live. */
  lemma {:induction false} PushIntoLive(
    c: Config, limits: Counters, g: Counters, h: Counters, a: Assemblies, s: Session, f: U.Fragment, now: Time)
    requires Usable(c) && Inv(c, a) && 1 <= f.sequence <= c.maxFragmentsPerDatagram
    requires Key(s, f.target, f.port) in a
    ensures var k, step := Key(s, f.target, f.port), PushAt(c, limits, g, h, a, s, f, now);
      match FaultOf(c, a[k], f)
      case Breaks(e) => step == (a - {k}, Err(e))
      case Waits(e) => step == (a, Err(e))
      case Repeats => step == (a, Ok(Duplicate))
      case Fine =>
        if MayStore(c, limits, h, a, k, |f.payload|) then StoresInto(a, k, a[k], f, now, step)
        else step.0 == a && step.1.Err? && StoreReason(c, limits, h, a, k, |f.payload|, step.1.error)
  {
    hide Inv, Usable, Shape, Judge, FaultOf, MayStore, StoreReason, ReserveError, Advance, Finished, Joined;
    var k := Key(s, f.target, f.port);
    assert Shape(c, k, a[k]) by { KeyAlmost(c, a, k); }
    JudgeExact(c, k, a[k], f);
    BudgetsExact(c, limits, h, a, k, 0, |f.payload|);
  }

  /** The first fragment of a datagram. */
  lemma {:induction false} PushFirst(
    c: Config, limits: Counters, g: Counters, h: Counters, a: Assemblies, s: Session, f: U.Fragment, now: Time)
    requires Usable(c) && f.sequence == 1 && Key(s, f.target, f.port) !in a
    ensures var k, step := Key(s, f.target, f.port), PushAt(c, limits, g, h, a, s, f, now);
      match U.HeaderLength(f.target)
      case Err(_) => step == (a, Err(DatagramByteBudget))
      case Ok(envelope) =>
        if !MayOpen(c, limits, g, a, s, envelope)
        then step.0 == a && step.1.Err? && OpenReason(c, limits, g, a, s, envelope, step.1.error)
        else
          var x := Assembly(f.target, f.port, map[], None, 0, 0, 0, envelope, now);
          if MayStore(c, limits, h, a[k := x], k, |f.payload|) then StoresInto(a, k, x, f, now, step)
          else step.0 == a && step.1.Err? && StoreReason(c, limits, h, a[k := x], k, |f.payload|, step.1.error)
  {
    hide Judge, MayOpen, MayStore, OpenReason, StoreReason, OpenError, ReserveError, U.HeaderLength, Advance, Finished;
    hide Joined;
    var k := Key(s, f.target, f.port);
    if U.HeaderLength(f.target).Ok? {
      var envelope := U.HeaderLength(f.target).value;
      var x := Opened(f, envelope, now);
      OpenedAdmits(c, x, f);
      BudgetsExact(c, limits, g, a, k, envelope, 0);
      BudgetsExact(c, limits, h, a[k := x], k, 0, |f.payload|);
      assert a[k := x] - {k} == a && a - {k} == a;
      assert a[k := x][k := Stored(x, f, now)] == a[k := Stored(x, f, now)];
    }
  }

  /** Expiry drops exactly the assemblies idle for the timeout, and a discard exactly those of its session. */
  lemma {:induction false} RemovalsExact(c: Config, a: Assemblies, now: Time, s: Session)
    requires c.timeout > 0
    ensures var b := Expire(c, a, now);
      && (forall k :: k in b <==> k in a && now - a[k].lastActivity < c.timeout)
      && (forall k :: k in b ==> b[k] == a[k])
    ensures var b := DiscardSession(a, s);
      && (forall k :: k in b <==> k in a && k.session != s)
      && (forall k :: k in b ==> b[k] == a[k])
  {
  }
}
