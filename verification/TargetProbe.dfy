/**
 * Probe results and the choice among healthy targets. Probes run concurrently, so results may come back
 * in any order; revisions keep an older result from replacing a newer one.
 */
module TargetProbe {
  import opened Wrappers
  import opened Bytes
  import opened TargetPool
  import C = Cidr
  import T = TargetText

  type Instant = nat

  /** Twenty-five seconds, in nanoseconds. */
  const LOCAL_HEALTH_TTL: nat := 25_000_000_000

  datatype Status = Status(healthy: bool, observed: Instant)

  datatype State = State(health: map<string, Status>, latest: map<string, U64>)

  datatype ProbeKind = TcpProbe | HttpProbe | TlsProbe | UdpProbe

  datatype Policy = Tcp | Secret | Http(serverName: string) | Tls(serverName: string) | Udp

  datatype Request = Request(
    probeId: Uuid, key: string, address: string, kind: ProbeKind, serverName: Option<string>,
    revision: U64, timeoutMillis: U32)

  const MAX_PROBE_TIMEOUT_MILLIS := 5_000

  /** What a session is created for; `policyText` is the printed policy identity. */
  datatype Session = Session(policyText: string, policy: Policy, targets: seq<Target>)

  datatype Event =
    | Begin(request: Request)
    | Record(request: Request, healthy: bool, now: Instant)

  const FRESH := State(map[], map[])

  predicate TargetIsHealthy(s: State, address: string, now: Instant)
  {
    && address in s.health && s.health[address].healthy
    && SatSub(now, s.health[address].observed) < LOCAL_HEALTH_TTL
  }

  function HealthyTargets(s: State, targets: seq<Target>, now: Instant): seq<Target>
  {
    if targets == [] then []
    else
      var rest := HealthyTargets(s, targets[..|targets| - 1], now);
      var last := targets[|targets| - 1];
      if TargetIsHealthy(s, last.address, now) then rest + [last] else rest
  }

  predicate InPool(targets: seq<Target>, address: string)
  {
    exists i :: 0 <= i < |targets| && targets[i].address == address
  }

  function KeyKind(p: Policy): string
  {
    match p case Tcp => "tcp" case Secret => "secret" case Http(_) => "http" case Tls(_) => "sni" case Udp => "udp"
  }

  function KindOf(p: Policy): ProbeKind
  {
    match p
    case Tcp => TcpProbe
    case Secret => TcpProbe
    case Http(_) => HttpProbe
    case Tls(_) => TlsProbe
    case Udp => UdpProbe
  }

  function ServerName(p: Policy): Option<string>
  {
    match p case Http(name) => Some(name) case Tls(name) => Some(name) case _ => None
  }

  predicate Valid(session: Session, request: Request)
  {
    && request.probeId != NIL_UUID && request.revision > 0
    && 0 < request.timeoutMillis <= MAX_PROBE_TIMEOUT_MILLIS
    && InPool(session.targets, request.address)
    && request.key == KeyKind(session.policy) + ":" + session.policyText + ":" + request.address
    && request.kind == KindOf(session.policy) && request.serverName == ServerName(session.policy)
  }

  predicate Stale(s: State, request: Request)
  {
    request.address in s.latest && request.revision <= s.latest[request.address]
  }

  function Opened(session: Session, s: State, request: Request): State
  {
    if Valid(session, request) && !Stale(s, request) then s.(latest := s.latest[request.address := request.revision])
    else s
  }

  predicate Current(s: State, request: Request)
  {
    request.address in s.latest && s.latest[request.address] == request.revision
  }

  function Recorded(s: State, request: Request, healthy: bool, now: Instant): State
  {
    if Current(s, request) then s.(health := s.health[request.address := Status(healthy, now)]) else s
  }

  function Apply(session: Session, s: State, e: Event): State
  {
    match e
    case Begin(request) => Opened(session, s, request)
    case Record(request, healthy, now) => Recorded(s, request, healthy, now)
  }

  function After(session: Session, run: seq<Event>, n: nat): State
    requires n <= |run|
  {
    if n == 0 then FRESH else Apply(session, After(session, run, n - 1), run[n - 1])
  }

  // ---------------------------------------------------------------- selection

  lemma {:induction false} HealthyMembers(s: State, targets: seq<Target>, now: Instant)
    ensures forall t :: t in HealthyTargets(s, targets, now) <==> t in targets && TargetIsHealthy(s, t.address, now)
  {
    if targets == [] {
    } else {
      HealthyMembers(s, targets[..|targets| - 1], now);
      assert targets == targets[..|targets| - 1] + [targets[|targets| - 1]];
    }
  }

  lemma {:induction false} WeightlessIff(targets: seq<Target>)
    requires forall i :: 0 <= i < |targets| ==> targets[i].weight > 0
    ensures Total(targets) == 0 <==> targets == []
  {
  }

  /**
   * The probe-aware choice is the plain choice on the healthy sublist: it is a healthy target of the
   * pool, and with positive weights there is one exactly when some target is healthy.
   */
  lemma {:induction false} SelectionIsHealthy(s: State, targets: seq<Target>, now: Instant, sequence: nat)
    ensures var r := Select(HealthyTargets(s, targets, now), sequence);
            && (r.Some? ==> InPool(targets, r.value) && TargetIsHealthy(s, r.value, now))
            && ((forall t :: t in targets ==> t.weight > 0) ==>
                (r.Some? <==> exists t :: t in targets && TargetIsHealthy(s, t.address, now)))
  {
    hide TargetIsHealthy, HealthyTargets, Total;
    var healthy := HealthyTargets(s, targets, now);
    HealthyMembers(s, targets, now);
    ChoiceExists(healthy, sequence);
    var r := Select(healthy, sequence);
    if r.Some? {
      var t := healthy[Position(healthy, sequence).value];
      assert t in healthy && t in targets;
      var i :| 0 <= i < |targets| && targets[i] == t;
      assert targets[i].address == r.value;
    }
    if forall t :: t in targets ==> t.weight > 0 {
      forall i | 0 <= i < |healthy| ensures healthy[i].weight > 0 {
        assert healthy[i] in healthy;
      }
      WeightlessIff(healthy);
      if t :| t in targets && TargetIsHealthy(s, t.address, now) {
        assert t in healthy;
      }
    }
  }

  lemma {:induction false} ParsedWeights(addresses: C.AddressText, pool: string)
    requires T.ParseTargetPool(addresses, pool).Ok?
    ensures forall t :: t in T.ParseTargetPool(addresses, pool).value ==> t.weight > 0
    ensures Total(T.ParseTargetPool(addresses, pool).value) > 0
  {
    hide T.ParseTargetPool, T.ValidAddress;
    T.ParsedPool(addresses, pool);
    var targets := T.ParseTargetPool(addresses, pool).value;
    forall t | t in targets ensures t.weight > 0 {
      var i :| 0 <= i < |targets| && targets[i] == t;
      assert T.Admissible(addresses, targets[i]);
    }
  }

  /** A pool that parses is always served, and with probes exactly as long as some target is healthy. */
  lemma {:induction false} ParsedPoolIsServed(
    addresses: C.AddressText, pool: string, s: State, now: Instant, sequence: nat)
    requires T.ParseTargetPool(addresses, pool).Ok?
    ensures var targets := T.ParseTargetPool(addresses, pool).value;
            && Select(targets, sequence).Some?
            && (Select(HealthyTargets(s, targets, now), sequence).Some? <==>
                exists t :: t in targets && TargetIsHealthy(s, t.address, now))
  {
    hide T.ParseTargetPool, TargetIsHealthy, HealthyTargets, Total, Select;
    var targets := T.ParseTargetPool(addresses, pool).value;
    ParsedWeights(addresses, pool);
    ChoiceExists(targets, sequence);
    SelectionIsHealthy(s, targets, now, sequence);
  }

  // ---------------------------------------------------------------- runs

  /** The event changed the recorded health of its target. */
  predicate TakesEffect(session: Session, run: seq<Event>, i: nat)
    requires i < |run|
  {
    run[i].Record? && Current(After(session, run, i), run[i].request)
  }

  lemma {:induction false} RevisionsGrow(session: Session, run: seq<Event>, i: nat, j: nat, address: string)
    requires i <= j <= |run| && address in After(session, run, i).latest
    ensures address in After(session, run, j).latest
    ensures After(session, run, i).latest[address] <= After(session, run, j).latest[address]
    decreases j
  {
    if i == j {
    } else {
      RevisionsGrow(session, run, i, j - 1, address);
    }
  }

  /** A result never replaces the result of a newer revision of the same target. */
  lemma {:induction false} NoStaleOverride(session: Session, run: seq<Event>, i: nat, j: nat)
    requires i < j < |run| && TakesEffect(session, run, i) && TakesEffect(session, run, j)
    requires run[i].request.address == run[j].request.address
    ensures run[i].request.revision <= run[j].request.revision
  {
    RevisionsGrow(session, run, i, j, run[i].request.address);
  }

  /** Once a newer probe has begun, no result of an older one takes effect any more. */
  lemma {:induction false} SupersededIsIgnored(session: Session, run: seq<Event>, i: nat, j: nat)
    requires i < j < |run| && run[i].Begin? && run[j].Record? && run[i].request.address == run[j].request.address
    requires Valid(session, run[i].request) && !Stale(After(session, run, i), run[i].request)
    requires run[j].request.revision < run[i].request.revision
    ensures !TakesEffect(session, run, j) && After(session, run, j + 1) == After(session, run, j)
  {
    RevisionsGrow(session, run, i + 1, j, run[i].request.address);
  }

  /** `i` is the last event that changed the health of `address` among the first `n`. */
  ghost predicate LastEffect(session: Session, run: seq<Event>, n: nat, address: string, i: nat)
    requires n <= |run|
  {
    && i < n && TakesEffect(session, run, i) && run[i].request.address == address
    && forall j :: i < j < n && TakesEffect(session, run, j) ==> run[j].request.address != address
  }

  /** Every recorded status is the result of the last probe that took effect. */
  lemma {:induction false} HealthIsLastResult(
    session: Session, run: seq<Event>, n: nat, address: string)
    returns (i: nat)
    requires n <= |run| && address in After(session, run, n).health
    ensures LastEffect(session, run, n, address, i)
    ensures After(session, run, n).health[address] == Status(run[i].healthy, run[i].now)
  {
    if TakesEffect(session, run, n - 1) && run[n - 1].request.address == address {
      i := n - 1;
    } else {
      i := HealthIsLastResult(session, run, n - 1, address);
    }
  }

  /** Step `j` begins a probe of `address`: its request is valid and newer than any before. */
  ghost predicate Begins(session: Session, run: seq<Event>, j: nat, address: string)
    requires j < |run|
  {
    && run[j].Begin? && run[j].request.address == address
    && Valid(session, run[j].request) && !Stale(After(session, run, j), run[j].request)
  }

  /** Step `b` began the probe that is current for `request` after the first `n` steps. */
  ghost predicate Began(session: Session, run: seq<Event>, n: nat, request: Request, b: nat)
    requires n <= |run|
  {
    && b < n && Begins(session, run, b, request.address) && run[b].request.revision == request.revision
    && forall j :: b < j < n ==> !Begins(session, run, j, request.address)
  }

  /** A current revision was begun by a valid request, and no newer probe has begun since. */
  lemma {:induction false} CurrentWasBegun(session: Session, run: seq<Event>, n: nat, request: Request) returns (b: nat)
    requires n <= |run| && Current(After(session, run, n), request)
    ensures Began(session, run, n, request, b)
  {
    hide Valid;
    if Begins(session, run, n - 1, request.address) {
      b := n - 1;
    } else {
      b := CurrentWasBegun(session, run, n - 1, request);
    }
  }

  /** What is known of a selected address: the step that decided it, and the step that began that probe. */
  ghost predicate Decided(session: Session, run: seq<Event>, now: Instant, address: string, i: nat, b: nat)
  {
    && LastEffect(session, run, |run|, address, i) && Began(session, run, i, run[i].request, b)
    && run[i].healthy && SatSub(now, run[i].now) < LOCAL_HEALTH_TTL
    && forall j :: 0 <= j < |run| && TakesEffect(session, run, j) && run[j].request.address == address ==>
                   run[j].request.revision <= run[i].request.revision
  }

  /**
   * Whatever happened before, a selected target was last reported healthy less than the time to live ago,
   * by a probe that a valid request had begun, with no newer one begun when the result was recorded, and
   * not older than any other probe that took effect.
   */
  lemma {:induction false} SelectedWasProbed(session: Session, run: seq<Event>, now: Instant, sequence: nat)
    returns (i: nat, b: nat)
    requires Select(HealthyTargets(After(session, run, |run|), session.targets, now), sequence).Some?
    ensures Decided(
      session, run, now, Select(HealthyTargets(After(session, run, |run|), session.targets, now), sequence).value, i, b)
  {
    hide After, HealthyTargets, Select, TakesEffect, Began;
    var s := After(session, run, |run|);
    var address := Select(HealthyTargets(s, session.targets, now), sequence).value;
    SelectionIsHealthy(s, session.targets, now, sequence);
    i := HealthIsLastResult(session, run, |run|, address);
    b := CurrentWasBegun(session, run, i, run[i].request) by { EffectIsCurrent(session, run, i); }
    forall j | 0 <= j < |run| && TakesEffect(session, run, j) && run[j].request.address == address
      ensures run[j].request.revision <= run[i].request.revision
    {
      if j < i {
        NoStaleOverride(session, run, j, i);
      }
    }
  }

  lemma {:induction false} EffectIsCurrent(session: Session, run: seq<Event>, i: nat)
    requires i < |run| && TakesEffect(session, run, i)
    ensures Current(After(session, run, i), run[i].request)
  {
  }

  // ---------------------------------------------------------------- the session

  datatype ProbeError = Invalid | StaleRevision | TooManyProbes

  class TargetProbeSession {
    const session: Session
    var health: map<string, Status>
    var latest: map<string, U64>

    ghost function Value(): State
      reads this
    {
      State(health, latest)
    }

    constructor (session: Session)
      ensures this.session == session && Value() == FRESH
    {
      this.session := session;
      health := map[];
      latest := map[];
    }

    /** Begins a probe. The revision is taken even if no probe can be started for want of a permit. */
    method HandleProbe(request: Request, permit: bool) returns (error: Option<ProbeError>)
      modifies this`latest
      ensures Value() == Opened(session, old(Value()), request)
      ensures error == (
                if !Valid(session, request) then Some(Invalid)
                else if request.address in old(latest) && old(latest)[request.address] >= request.revision then
                  Some(StaleRevision)
                else if !permit then Some(TooManyProbes)
                else None)
    {
      if !Valid(session, request) {
        return Some(Invalid);
      }
      if request.address in latest && request.revision <= latest[request.address] {
        return Some(StaleRevision);
      }
      latest := latest[request.address := request.revision];
      error := if permit then None else Some(TooManyProbes);
    }

    method RecordHealthIfCurrent(request: Request, healthy: bool, now: Instant)
      modifies this`health
      ensures Value() == Recorded(old(Value()), request, healthy, now)
    {
      if request.address in latest && latest[request.address] == request.revision {
        health := health[request.address := Status(healthy, now)];
      }
    }

    method SelectTarget(sequence: nat, now: Instant) returns (r: Option<string>)
      ensures r == Select(HealthyTargets(Value(), session.targets, now), sequence)
    {
      hide Total, Pick;
      ghost var healthy := HealthyTargets(Value(), session.targets, now);
      var total := HealthyWeight(now);
      if total == 0 {
        return None;
      }
      PickExact(healthy, sequence % total);
      ghost var k := Position(healthy, sequence).value;
      var slot: nat := sequence % total;
      Prefixes(healthy);
      assert session.targets[..|session.targets|] == session.targets;
      for i := 0 to |session.targets|
        invariant HealthyTargets(Value(), session.targets[..i], now) <= healthy
        invariant var done := |HealthyTargets(Value(), session.targets[..i], now)|;
          done <= k && slot + Total(healthy[..done]) == sequence % total
      {
        HealthyStep(Value(), session.targets, now, i);
        if TargetIsHealthy(State(health, latest), session.targets[i].address, now) {
          ghost var done := |HealthyTargets(Value(), session.targets[..i], now)|;
          var weight := session.targets[i].weight;
          TotalStep(healthy, done);
          if slot < weight {
            HoldsOnce(healthy, done, k, sequence % total);
            return Some(session.targets[i].address);
          }
          if done < k {
            TotalGrows(healthy, done + 1, k);
          }
          slot := slot - weight;
        }
      }
      r := None;
    }

    method HealthyWeight(now: Instant) returns (total: nat)
      ensures total == Total(HealthyTargets(Value(), session.targets, now))
    {
      total := 0;
      for i := 0 to |session.targets|
        invariant total == Total(HealthyTargets(Value(), session.targets[..i], now))
      {
        assert session.targets[..i + 1][..i] == session.targets[..i];
        if TargetIsHealthy(State(health, latest), session.targets[i].address, now) {
          total := total + session.targets[i].weight;
        }
      }
      assert session.targets[..|session.targets|] == session.targets;
    }
  }

  lemma {:induction false} HealthyStep(s: State, targets: seq<Target>, now: Instant, i: nat)
    requires i < |targets|
    ensures var before, after := HealthyTargets(s, targets[..i], now), HealthyTargets(s, targets[..i + 1], now);
            && after == (if TargetIsHealthy(s, targets[i].address, now) then before + [targets[i]] else before)
            && after <= HealthyTargets(s, targets, now)
  {
    assert targets[..i + 1][..i] == targets[..i];
    HealthyPrefix(s, targets, now, i + 1);
  }

  lemma {:induction false} HealthyPrefix(s: State, targets: seq<Target>, now: Instant, i: nat)
    requires i <= |targets|
    ensures HealthyTargets(s, targets[..i], now) <= HealthyTargets(s, targets, now)
    decreases |targets|
  {
    if i == |targets| {
      assert targets[..i] == targets;
    } else {
      assert targets[..|targets| - 1][..i] == targets[..i];
      HealthyPrefix(s, targets[..|targets| - 1], now, i);
    }
  }
}
