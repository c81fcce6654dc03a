/**
 * What the SOCKS5 FRAG reassembler does, as functions on its live assemblies and on the global
 * counters it sees. Per-session usage and the local totals are properties of the assemblies.
 */
module Socks5Reassembly {
  import opened Wrappers
  import opened Bytes
  import opened MapSum
  import U = Socks5Udp

  type Time = int

  /** Sessions are compared for equality only. */
  type Session = nat

  const MIN_TIMEOUT: Time := 5_000
  const MAX_SEQUENCE := 127
  const MAX_U8 := 255

  type U8 = n: nat | n <= MAX_U8

  /** A triple of counters or limits: datagrams being assembled, fragments and bytes held for them. */
  datatype Counters = Counters(inflight: int, fragments: int, bytes: int) {
    function Plus(o: Counters): Counters
    {
      Counters(inflight + o.inflight, fragments + o.fragments, bytes + o.bytes)
    }

    function Minus(o: Counters): Counters
    {
      Counters(inflight - o.inflight, fragments - o.fragments, bytes - o.bytes)
    }

    predicate Within(o: Counters)
    {
      inflight <= o.inflight && fragments <= o.fragments && bytes <= o.bytes
    }
  }

  const ZERO := Counters(0, 0, 0)

  datatype Config = Config(
    timeout: Time,
    maxFragmentsPerDatagram: nat,
    maxBytesPerDatagram: nat,
    maxReorderGap: nat,
    perSession: Counters,
    global: Counters)

  datatype ConfigError = ZeroTimeout | TimeoutTooShort | InvalidLimit

  function ValidateConfig(c: Config): Option<ConfigError>
  {
    if c.timeout == 0 then Some(ZeroTimeout)
    else if c.timeout < MIN_TIMEOUT then Some(TimeoutTooShort)
    else if c.maxFragmentsPerDatagram == 0 || c.maxFragmentsPerDatagram > MAX_SEQUENCE
      || c.maxBytesPerDatagram == 0 || c.maxBytesPerDatagram > MAX_DATAGRAM_BYTES
      || c.perSession.inflight == 0
      || c.perSession.fragments < c.maxFragmentsPerDatagram || c.perSession.bytes < c.maxBytesPerDatagram
      || c.global.inflight < c.perSession.inflight || c.global.fragments < c.perSession.fragments
      || c.global.bytes < c.perSession.bytes
    then Some(InvalidLimit)
    else None
  }

  /** Limits are unsigned and the gap is an octet, whatever else the configuration says. */
  predicate ConfigTyped(c: Config)
  {
    c.maxReorderGap <= MAX_U8 && ZERO.Within(c.perSession) && ZERO.Within(c.global)
  }

  datatype Key = Key(session: Session, target: U.Target, port: U16)

  type Fragments = map<nat, seq<Byte>>

  datatype Assembly = Assembly(
    target: U.Target,
    port: U16,
    fragments: Fragments,
    final: Option<nat>,
    contiguous: U8,
    highest: nat,
    payloadBytes: nat,
    bytes: nat,
    lastActivity: Time)

  type Assemblies = map<Key, Assembly>

  datatype Outcome = Complete(datagram: U.Datagram, fragmented: bool) | Pending | Duplicate

  datatype Error =
    | MissingInitialFragment
    | SequenceLimit
    | ReorderGap
    | ConflictingDuplicate
    | ConflictingFinalFragment
    | DuplicateFinalFragment
    | FragmentAfterFinal
    | DatagramByteBudget
    | SessionFragmentBudget
    | SessionByteBudget
    | SessionInflightBudget
    | GlobalFragmentBudget
    | GlobalByteBudget
    | GlobalInflightBudget

  // ---------------------------------------------------------------- what is held

  ghost function Sizes(fragments: Fragments): map<nat, nat>
  {
    map s | s in fragments :: |fragments[s]|
  }

  ghost function PayloadSize(fragments: Fragments): nat
  {
    Sum(Sizes(fragments))
  }

  ghost function FragmentCounts(a: Assemblies): map<Key, nat>
  {
    map k | k in a :: |a[k].fragments|
  }

  ghost function ByteCounts(a: Assemblies): map<Key, nat>
  {
    map k | k in a :: a[k].bytes
  }

  /** What the given assemblies hold of each counter. */
  ghost function Held(a: Assemblies): Counters
  {
    Counters(|a|, Sum(FragmentCounts(a)), Sum(ByteCounts(a)))
  }

  function CostOf(a: Assembly): Counters
  {
    Counters(1, |a.fragments|, a.bytes)
  }

  ghost function Only(a: Assemblies, s: Session): Assemblies
  {
    map k | k in a && k.session == s :: a[k]
  }

  lemma {:induction false} HeldEmpty()
    ensures Held(map[]) == ZERO
  {
    assert FragmentCounts(map[]) == map[] && ByteCounts(map[]) == map[];
  }

  lemma {:induction false} HeldInsert(a: Assemblies, k: Key, x: Assembly)
    requires k !in a
    ensures Held(a[k := x]) == Held(a).Plus(CostOf(x))
  {
    hide FragmentCounts, ByteCounts, Sum;
    assert a[k := x].Keys == a.Keys + {k};
    CountsInsert(a, k, x);
    SumInsert(FragmentCounts(a), k, |x.fragments|);
    SumInsert(ByteCounts(a), k, x.bytes);
  }

  lemma {:induction false} CountsInsert(a: Assemblies, k: Key, x: Assembly)
    requires k !in a
    ensures k !in FragmentCounts(a) && FragmentCounts(a[k := x]) == FragmentCounts(a)[k := |x.fragments|]
    ensures k !in ByteCounts(a) && ByteCounts(a[k := x]) == ByteCounts(a)[k := x.bytes]
  {
  }

  lemma {:induction false} HeldRemove(a: Assemblies, k: Key)
    requires k in a
    ensures Held(a) == Held(a - {k}).Plus(CostOf(a[k]))
  {
    hide Held;
    HeldInsert(a - {k}, k, a[k]);
    PutBack(a, k, a[k]);
  }

  lemma {:induction false} HeldReplace(a: Assemblies, k: Key, x: Assembly)
    requires k in a
    ensures Held(a[k := x]) == Held(a).Minus(CostOf(a[k])).Plus(CostOf(x))
  {
    hide Held;
    HeldRemove(a, k);
    HeldInsert(a - {k}, k, x);
    PutBack(a, k, x);
  }

  lemma {:induction false} HeldOnlyRemove(a: Assemblies, k: Key, s: Session)
    requires k in a
    ensures var rest := Held(Only(a - {k}, s));
      Held(Only(a, s)) == if s == k.session then rest.Plus(CostOf(a[k])) else rest
  {
    if s == k.session {
      assert Only(a - {k}, s) == Only(a, s) - {k};
      HeldRemove(Only(a, s), k);
    } else {
      assert Only(a - {k}, s) == Only(a, s);
    }
  }

  lemma {:induction false} HeldOnlyUpdate(a: Assemblies, k: Key, x: Assembly, s: Session)
    ensures s != k.session ==> Held(Only(a[k := x], s)) == Held(Only(a, s))
    ensures s == k.session && k !in a ==> Held(Only(a[k := x], s)) == Held(Only(a, s)).Plus(CostOf(x))
    ensures s == k.session && k in a ==>
      Held(Only(a[k := x], s)) == Held(Only(a, s)).Minus(CostOf(a[k])).Plus(CostOf(x))
  {
    if s != k.session {
      assert Only(a[k := x], s) == Only(a, s);
    } else {
      assert Only(a[k := x], s) == Only(a, s)[k := x];
      if k in a {
        HeldReplace(Only(a, s), k, x);
      } else {
        HeldInsert(Only(a, s), k, x);
      }
    }
  }

  lemma {:induction false} HeldNonNegative(a: Assemblies)
    ensures ZERO.Within(Held(a)) && (Held(a).inflight == 0 <==> a == map[])
    ensures a == map[] ==> Held(a) == ZERO
  {
    HeldEmpty();
  }

  lemma {:induction false} HeldSubmap(sub: Assemblies, a: Assemblies)
    requires sub.Keys <= a.Keys && forall k :: k in sub ==> sub[k] == a[k]
    ensures Held(sub).Within(Held(a))
    decreases |a|
  {
    if sub != a {
      var k :| k in a && k !in sub;
      HeldRemove(a, k);
      HeldSubmap(sub, a - {k});
    }
  }

  // ---------------------------------------------------------------- admission

  /** Why a new assembly is refused, in the order the limits are consulted. */
  ghost function OpenError(
    c: Config, limits: Counters, g: Counters, a: Assemblies, s: Session, envelope: nat): Option<Error>
  {
    var usage := Held(Only(a, s));
    if envelope > c.maxBytesPerDatagram then Some(DatagramByteBudget)
    else if usage.inflight >= c.perSession.inflight then Some(SessionInflightBudget)
    else if usage.bytes + envelope > c.perSession.bytes then Some(SessionByteBudget)
    else if g.inflight + 1 > limits.inflight then Some(GlobalInflightBudget)
    else if g.bytes + envelope > limits.bytes then Some(GlobalByteBudget)
    else None
  }

  /** Why a fragment of `length` bytes is refused by the budgets of its datagram, session or the process. */
  ghost function ReserveError(
    c: Config, limits: Counters, g: Counters, a: Assemblies, k: Key, length: nat): Option<Error>
    requires k in a
  {
    var usage := Held(Only(a, k.session));
    if |a[k].fragments| >= c.maxFragmentsPerDatagram then Some(SequenceLimit)
    else if a[k].bytes + length > c.maxBytesPerDatagram then Some(DatagramByteBudget)
    else if usage.fragments >= c.perSession.fragments then Some(SessionFragmentBudget)
    else if usage.bytes + length > c.perSession.bytes then Some(SessionByteBudget)
    else if g.fragments + 1 > limits.fragments then Some(GlobalFragmentBudget)
    else if g.bytes + length > limits.bytes then Some(GlobalByteBudget)
    else None
  }

  datatype Verdict = Admit | AlreadyHeld | Refuse(error: Error) | Reject(error: Error)

  function SatAddU8(x: nat, y: nat): nat
  {
    if x + y <= MAX_U8 then x + y else MAX_U8
  }

  /** How a fragment compares with the assembly it belongs to: `Reject` drops the assembly, `Refuse` keeps it. */
  function Judge(c: Config, x: Assembly, f: U.Fragment): Verdict
  {
    if c.maxReorderGap == 0 && f.sequence < x.highest then Reject(ReorderGap)
    else if f.sequence in x.fragments then
      var existingFinal := x.final == Some(f.sequence);
      if existingFinal && f.final then Reject(DuplicateFinalFragment)
      else if x.fragments[f.sequence] == f.payload && existingFinal == f.final then AlreadyHeld
      else Reject(ConflictingDuplicate)
    else if x.final.Some? && f.sequence > x.final.value then Reject(FragmentAfterFinal)
    else if f.final && x.final.Some? && x.final.value != f.sequence then Reject(ConflictingFinalFragment)
    else if f.sequence > SatAddU8(SatAddU8(x.contiguous, c.maxReorderGap), 1) then Refuse(ReorderGap)
    else Admit
  }

  // ---------------------------------------------------------------- storing and completing

  /** The end of the run of stored sequences that starts after `from`. */
  function Advance(fragments: Fragments, from: nat): (to: U8)
    requires from <= MAX_U8
    decreases MAX_U8 - from
  {
    if from < MAX_U8 && from + 1 in fragments then Advance(fragments, from + 1) else from
  }

  function Opened(f: U.Fragment, envelope: nat, now: Time): Assembly
  {
    Assembly(f.target, f.port, map[], None, 0, 0, 0, envelope, now)
  }

  function Stored(x: Assembly, f: U.Fragment, now: Time): Assembly
  {
    var fragments := x.fragments[f.sequence := f.payload];
    x.(final := if f.final then Some(f.sequence) else x.final,
       payloadBytes := x.payloadBytes + |f.payload|,
       bytes := x.bytes + |f.payload|,
       fragments := fragments,
       highest := if x.highest >= f.sequence then x.highest else f.sequence,
       lastActivity := now,
       contiguous := Advance(fragments, x.contiguous))
  }

  predicate Finished(x: Assembly)
  {
    x.final.Some? && x.contiguous == x.final.value
  }

  /** The payloads of sequences 1 to `n`, in order. */
  function Joined(fragments: Fragments, n: nat): seq<Byte>
  {
    if n == 0 then [] else Joined(fragments, n - 1) + if n in fragments then fragments[n] else []
  }

  function Delivered(x: Assembly): Outcome
    requires x.final.Some?
  {
    Complete(U.Datagram(x.target, x.port, Joined(x.fragments, x.final.value)), true)
  }

  type Step = (Assemblies, Result<Outcome, Error>)

  /** The rest of a push once the assembly exists; `created` says whether this push opened it. */
  ghost function PushInto(
    c: Config, limits: Counters, g: Counters, a: Assemblies, k: Key, f: U.Fragment, now: Time, created: bool): Step
    requires k in a
  {
    match Judge(c, a[k], f)
    case Reject(e) => (a - {k}, Err(e))
    case Refuse(e) => (a, Err(e))
    case AlreadyHeld => (a, Ok(Duplicate))
    case Admit =>
      match ReserveError(c, limits, g, a, k, |f.payload|)
      case Some(e) => (if created then a - {k} else a, Err(e))
      case None =>
        var x := Stored(a[k], f, now);
        if Finished(x) then (a - {k}, Ok(Delivered(x))) else (a[k := x], Ok(Pending))
  }

  /**
   * A push whose reservations see the global counters as they are at their own time: `g` when an assembly
   * is opened, `h` when room for the fragment is reserved.
   */
  ghost function PushAt(
    c: Config, limits: Counters, g: Counters, h: Counters, a: Assemblies, s: Session, f: U.Fragment, now: Time): Step
  {
    if f.sequence == 0 then (a, Ok(Complete(U.Datagram(f.target, f.port, f.payload), false)))
    else if f.sequence > c.maxFragmentsPerDatagram then (a, Err(SequenceLimit))
    else
      var k := Key(s, f.target, f.port);
      if k in a then PushInto(c, limits, h, a, k, f, now, false)
      else if f.sequence != 1 then (a, Err(MissingInitialFragment))
      else match U.HeaderLength(f.target)
        case Err(_) => (a, Err(DatagramByteBudget))
        case Ok(envelope) =>
          match OpenError(c, limits, g, a, s, envelope)
          case Some(e) => (a, Err(e))
          case None => PushInto(c, limits, h, a[k := Opened(f, envelope, now)], k, f, now, true)
  }

  /** The counters at the second reservation if nobody else moved them since the first. */
  function Own(g: Counters, a: Assemblies, s: Session, f: U.Fragment): Counters
  {
    if Key(s, f.target, f.port) in a || U.HeaderLength(f.target).Err? then g
    else g.Plus(Counters(1, 0, U.HeaderLength(f.target).value))
  }

  /** A push during which nobody else moves the global counters. */
  ghost function Push(
    c: Config, limits: Counters, g: Counters, a: Assemblies, s: Session, f: U.Fragment, now: Time): Step
  {
    PushAt(c, limits, g, Own(g, a, s, f), a, s, f, now)
  }

  predicate TimedOut(x: Assembly, timeout: Time, now: Time)
  {
    now >= x.lastActivity && now - x.lastActivity >= timeout
  }

  ghost function Expire(c: Config, a: Assemblies, now: Time): Assemblies
  {
    map k | k in a && !TimedOut(a[k], c.timeout, now) :: a[k]
  }

  ghost function DiscardSession(a: Assemblies, s: Session): Assemblies
  {
    map k | k in a && k.session != s :: a[k]
  }
}
