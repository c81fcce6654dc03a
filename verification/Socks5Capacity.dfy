/**
 * When delivery is guaranteed outright: conditions on the run, the configuration and the shared gauges
 * alone, under which a new reassembler delivers a well-formed datagram. Of the other traffic only the
 * number of datagrams the run names in the same session counts.
 */
module Socks5Capacity {
  import opened Wrappers
  import opened Bytes
  import opened MapSum
  import opened Socks5Reassembly
  import opened Socks5Invariant
  import opened Socks5Runs
  import opened Socks5Delivery
  import U = Socks5Udp

  /** The datagrams of session `s` of which the run pushes a fragment. */
  ghost function KeysOf(run: seq<Event>, s: Session): set<Key>
  {
    set m | 0 <= m < |run| && run[m].Pushed? && run[m].s == s :: KeyOf(run[m])
  }

  /** Even `n` datagrams of the largest size fit within the limits of one session. */
  predicate SessionFits(c: Config, n: nat)
  {
    && n <= c.perSession.inflight
    && n * c.maxFragmentsPerDatagram <= c.perSession.fragments
    && n * c.maxBytesPerDatagram <= c.perSession.bytes
  }

  /** The gauges the push sees leave room for its fragment, and for an envelope if it opens the assembly. */
  predicate GaugesAllow(limits: Counters, e: Event, opens: bool, envelope: nat)
    requires e.Pushed?
  {
    && (opens ==> e.g.inflight + 1 <= limits.inflight && e.g.bytes + envelope <= limits.bytes)
    && e.h.fragments + 1 <= limits.fragments && e.h.bytes + |e.f.payload| <= limits.bytes
  }

  /** When `k` was last pushed a sequence number it had not been pushed before, among the first `n` events. */
  ghost function LastNew(run: seq<Event>, n: nat, k: Key): Option<Time>
    requires n <= |run|
  {
    if n == 0 then None
    else if PushOf(run[n - 1], k) && run[n - 1].f.sequence !in Received(run, n - 1, k) then Some(run[n - 1].at)
    else LastNew(run, n - 1, k)
  }

  /** Event `m` leaves `k` alone: no late expiry, no discard of its session, no full gauge. */
  ghost predicate Calm(c: Config, limits: Counters, run: seq<Event>, m: nat, k: Key, envelope: nat)
    requires m < |run|
  {
    match run[m]
    case Expired(at) => LastNew(run, m, k).Some? ==> at - LastNew(run, m, k).value < c.timeout
    case Discarded(s) => s != k.session
    case Pushed(_, f, _, _, _) =>
      PushOf(run[m], k) && f.sequence !in Received(run, m, k) ==>
        GaugesAllow(limits, run[m], Received(run, m, k) == {}, envelope)
  }

  /** The datagram fits its own limits, its session has room for all it is asked to hold, and no event disturbs. */
  ghost predicate Fits(c: Config, limits: Counters, run: seq<Event>, k: Key, parts: seq<seq<Byte>>)
  {
    && 1 <= |parts| <= c.maxFragmentsPerDatagram
    && U.HeaderLength(k.target).Ok? && U.HeaderLength(k.target).value + |Concat(parts)| <= c.maxBytesPerDatagram
    && SessionFits(c, |KeysOf(run, k.session)|)
    && forall m :: 0 <= m < |run| ==> Calm(c, limits, run, m, k, U.HeaderLength(k.target).value)
  }

  // ---------------------------------------------------------------- what a session can hold

  /** Only datagrams of the run are ever live. */
  lemma {:induction false} LiveArePushed(c: Config, limits: Counters, run: seq<Event>, n: nat, s: Session)
    requires n <= |run|
    ensures Only(After(c, limits, map[], run, n), s).Keys <= KeysOf(run, s)
  {
    hide Apply, PushAt;
    if n == 0 {
      assert Only(map[], s) == map[];
    } else {
      var a, e := After(c, limits, map[], run, n - 1), run[n - 1];
      LiveArePushed(c, limits, run, n - 1, s);
      forall k | k in Only(After(c, limits, map[], run, n), s) ensures k in KeysOf(run, s) {
        StepEffect(c, limits, a, e, k);
        assert k in a ==> k in Only(a, s);
      }
    }
  }

  lemma {:induction false} OneMoreHeld(held: int, cost: nat, n: nat, x: nat)
    requires held <= n * x && cost <= x
    ensures held + cost <= (n + 1) * x
  {
    OneMoreTimes(n, x);
  }

  lemma {:induction false} CostWithin(c: Config, k: Key, x: Assembly)
    requires Shape(c, k, x)
    ensures |x.fragments| <= c.maxFragmentsPerDatagram && x.bytes <= c.maxBytesPerDatagram
    ensures U.HeaderLength(k.target) == Ok(x.bytes - PayloadSize(x.fragments))
  {
  }

  lemma {:induction false} RoomForOne(held: int, n: nat, m: nat, x: nat, limit: int)
    requires held <= n * x && n + 1 <= m && m * x <= limit
    ensures held + x <= limit
  {
    OneMoreTimes(n, x);
    assert (n + 1) * x <= m * x;
  }

  /** Any assemblies in order hold at most the per-datagram limits each. */
  lemma {:induction false} HeldPerAssembly(c: Config, a: Assemblies)
    requires AllOk(c, a)
    ensures Held(a).fragments <= |a| * c.maxFragmentsPerDatagram && Held(a).bytes <= |a| * c.maxBytesPerDatagram
    decreases |a|
  {
    hide Held, Shape, Finished;
    if a == map[] {
      HeldEmpty();
    } else {
      var k :| k in a;
      var rest := a - {k};
      assert AssemblyOk(c, k, a[k]);
      CostWithin(c, k, a[k]);
      HeldRemove(a, k);
      assert rest.Keys == a.Keys - {k};
      HeldPerAssembly(c, rest);
      OneMoreHeld(Held(rest).fragments, |a[k].fragments|, |rest|, c.maxFragmentsPerDatagram);
      OneMoreHeld(Held(rest).bytes, a[k].bytes, |rest|, c.maxBytesPerDatagram);
    }
  }

  /** What the other datagrams of the session hold leaves room for one of the largest size. */
  lemma {:induction false} OthersLeaveRoom(c: Config, others: Assemblies, k: Key, keys: set<Key>)
    requires AllOk(c, others) && k !in others && others.Keys <= keys && k in keys && SessionFits(c, |keys|)
    ensures Held(others).inflight + 1 <= c.perSession.inflight
    ensures Held(others).fragments + c.maxFragmentsPerDatagram <= c.perSession.fragments
    ensures Held(others).bytes + c.maxBytesPerDatagram <= c.perSession.bytes
  {
    hide AllOk;
    HeldPerAssembly(c, others);
    OneFewer(others.Keys, keys, k);
    RoomForOne(Held(others).fragments, |others|, |keys|, c.maxFragmentsPerDatagram, c.perSession.fragments);
    RoomForOne(Held(others).bytes, |others|, |keys|, c.maxBytesPerDatagram, c.perSession.bytes);
  }

  lemma {:induction false} SessionOthers(c: Config, a: Assemblies, k: Key)
    requires Inv(c, a)
    ensures AllOk(c, Only(a - {k}, k.session)) && k !in Only(a - {k}, k.session)
    ensures Only(a - {k}, k.session).Keys <= Only(a, k.session).Keys
  {
    hide AssemblyOk, SessionsWithin;
  }

  /** With the session's capacity and the gauges' consent, a fragment within its own limits finds room. */
  lemma {:induction false} RoomByCapacity(
    c: Config, limits: Counters, a: Assemblies, e: Event, k: Key, keys: set<Key>)
    requires Inv(c, a) && PushOf(e, k) && U.HeaderLength(k.target).Ok?
    requires Only(a, k.session).Keys <= keys && k in keys && SessionFits(c, |keys|)
    requires GaugesAllow(limits, e, k !in a, U.HeaderLength(k.target).value)
    requires var x := Base(a, k, e.f, e.at);
      |x.fragments| < c.maxFragmentsPerDatagram && x.bytes + |e.f.payload| <= c.maxBytesPerDatagram
    ensures RoomFor(c, limits, a, e, k)
  {
    hide Inv, Held, Only, U.HeaderLength, SessionFits;
    var others := Only(a - {k}, k.session);
    SessionOthers(c, a, k);
    OthersLeaveRoom(c, others, k, keys);
    if k in a {
      HeldOnlyRemove(a, k, k.session);
    } else {
      assert a - {k} == a;
      HeldOnlyUpdate(a, k, Base(a, k, e.f, e.at), k.session);
    }
  }

  // ---------------------------------------------------------------- what the datagram itself holds

  lemma {:induction false} UptoSize(n: nat)
    ensures |Upto(n)| == n
  {
    if n == 0 {
    } else {
      UptoSize(n - 1);
    }
  }

  /** All parts, as fragments. */
  function Whole(parts: seq<seq<Byte>>): Fragments
  {
    map s | s in Upto(|parts|) :: parts[s - 1]
  }

  lemma {:induction false} WholeSize(parts: seq<seq<Byte>>)
    ensures PayloadSize(Whole(parts)) == |Concat(parts)|
    decreases |parts|
  {
    if parts == [] {
      assert Sizes(Whole(parts)) == map[];
    } else {
      var n := |parts|;
      var front, last := parts[..n - 1], parts[n - 1];
      WholeSize(front);
      assert parts == front + [last];
      ConcatAppend(front, last);
      assert Whole(parts) == Whole(front)[n := last];
      PayloadSizeInsert(Whole(front), n, last);
    }
  }

  lemma {:induction false} FewerFragments(sub: Fragments, fragments: Fragments)
    requires sub.Keys <= fragments.Keys && forall s :: s in sub ==> sub[s] == fragments[s]
    ensures PayloadSize(sub) <= PayloadSize(fragments)
    decreases |fragments|
  {
    hide PayloadSize;
    if sub == fragments {
    } else {
      var s :| s in fragments && s !in sub;
      var rest := fragments - {s};
      assert rest[s := fragments[s]] == fragments && rest.Keys == fragments.Keys - {s};
      PayloadSizeInsert(rest, s, fragments[s]);
      FewerFragments(sub, rest);
    }
  }

  lemma {:induction false} StillMissing(received: set<nat>, s: nat, n: nat)
    requires received <= Upto(n) && 1 <= s <= n && s !in received
    ensures |received| < n
  {
    UptoSize(n);
    SizeMonotone(received + {s}, Upto(n));
  }

  /** A part not yet held still fits beside the ones that are. */
  lemma {:induction false} PartFits(x: Assembly, parts: seq<seq<Byte>>, received: set<nat>, s: nat)
    requires HoldsParts(x, parts, received) && received < Upto(|parts|) && 1 <= s <= |parts| && s !in received
    ensures |x.fragments| < |parts|
    ensures PayloadSize(x.fragments) + |parts[s - 1]| <= |Concat(parts)|
  {
    hide PayloadSize, Concat;
    StillMissing(received, s, |parts|);
    assert |x.fragments| == |x.fragments.Keys|;
    PayloadSizeInsert(x.fragments, s, parts[s - 1]);
    FewerFragments(x.fragments[s := parts[s - 1]], Whole(parts));
    WholeSize(parts);
  }

  // ---------------------------------------------------------------- along the run

  /** The assembly, where it is live, was last active at the last push of a new sequence number. */
  ghost predicate ActiveSince(c: Config, limits: Counters, run: seq<Event>, n: nat, k: Key)
    requires n <= |run|
  {
    var a := After(c, limits, map[], run, n);
    k in a ==> LastNew(run, n, k) == Some(a[k].lastActivity)
  }

  lemma {:induction false} ActivityStep(
    c: Config, limits: Counters, run: seq<Event>, n: nat, k: Key, parts: seq<seq<Byte>>)
    requires n < |run| && AsExpected(c, limits, map[], run, n, k, parts) && ActiveSince(c, limits, run, n, k)
    ensures ActiveSince(c, limits, run, n + 1, k)
  {
    hide Apply, PushAt, Received, Base, Advance;
    var a, e := After(c, limits, map[], run, n), run[n];
    StepEffect(c, limits, a, e, k);
    if PushOf(e, k) && e.f.sequence !in Received(run, n, k) {
      AcceptedEffect(c, limits, a, e);
      assert k in After(c, limits, map[], run, n + 1) ==>
        After(c, limits, map[], run, n + 1)[k] == Stored(Base(a, k, e.f, e.at), e.f, e.at);
    }
  }

  /** Where the datagram is being assembled, a calm event does not disturb it. */
  lemma {:induction false} CalmIsUndisturbed(
    c: Config, limits: Counters, a: Assemblies, run: seq<Event>, m: nat, k: Key, parts: seq<seq<Byte>>)
    requires Usable(c) && Inv(c, a) && m < |run| && Fits(c, limits, run, k, parts) && WellFormed(c, run, k, parts)
    requires Only(a, k.session).Keys <= KeysOf(run, k.session) && Tracks(a, k, parts, Received(run, m, k))
    requires k in a ==> LastNew(run, m, k) == Some(a[k].lastActivity)
    ensures Undisturbed(c, limits, a, run[m], k)
  {
    hide Inv, Usable, RoomFor, HoldsParts, Received, LastNew, SessionFits, Only, GaugesAllow, U.HeaderLength, InWindow;
    var e, received := run[m], Received(run, m, k);
    assert Calm(c, limits, run, m, k, U.HeaderLength(k.target).value);
    if PushOf(e, k) && !(k in a && e.f.sequence in a[k].fragments) {
      BaseFits(c, a, e, k, parts, received);
      assert k in KeysOf(run, k.session);
      RoomByCapacity(c, limits, a, e, k, KeysOf(run, k.session));
    }
  }

  lemma {:induction false} BaseFits(
    c: Config, a: Assemblies, e: Event, k: Key, parts: seq<seq<Byte>>, received: set<nat>)
    requires Usable(c) && Inv(c, a) && PushOf(e, k) && IsPart(e.f, parts) && Tracks(a, k, parts, received)
    requires !(k in a && e.f.sequence in a[k].fragments) && |parts| <= c.maxFragmentsPerDatagram
    requires U.HeaderLength(k.target).Ok? && U.HeaderLength(k.target).value + |Concat(parts)| <= c.maxBytesPerDatagram
    ensures e.f.sequence !in received
    ensures var x := Base(a, k, e.f, e.at);
      |x.fragments| < c.maxFragmentsPerDatagram && x.bytes + |e.f.payload| <= c.maxBytesPerDatagram
  {
    hide Inv, Usable, PayloadSize, U.HeaderLength, Shape, Concat, HoldsParts;
    var x := Base(a, k, e.f, e.at);
    if k in a {
      KeyAlmost(c, a, k);
    } else {
      OpenedShape(c, k, e.f, U.HeaderLength(k.target).value, e.at);
      OpenedHolds(x, parts);
    }
    NextPartFits(c, k, x, e.f, parts, received);
  }

  lemma {:induction false} NextPartFits(
    c: Config, k: Key, x: Assembly, f: U.Fragment, parts: seq<seq<Byte>>, received: set<nat>)
    requires Shape(c, k, x) && HoldsParts(x, parts, received) && received < Upto(|parts|)
    requires IsPart(f, parts) && f.sequence !in x.fragments && |parts| <= c.maxFragmentsPerDatagram
    requires U.HeaderLength(k.target).Ok? && U.HeaderLength(k.target).value + |Concat(parts)| <= c.maxBytesPerDatagram
    ensures f.sequence !in received
    ensures |x.fragments| < c.maxFragmentsPerDatagram && x.bytes + |f.payload| <= c.maxBytesPerDatagram
  {
    hide PayloadSize, U.HeaderLength, Shape, Concat, HoldsParts;
    PartsHeld(x, parts, received);
    CostWithin(c, k, x);
    PartFits(x, parts, received, f.sequence);
  }

  lemma {:induction false} QuietMore(
    c: Config, limits: Counters, a: Assemblies, run: seq<Event>, n: nat, k: Key, parts: seq<seq<Byte>>)
    requires n < |run| && Quiet(c, limits, a, run, n, k, parts)
    requires Received(run, n, k) != Upto(|parts|) ==>
      Undisturbed(c, limits, After(c, limits, a, run, n), run[n], k)
    ensures Quiet(c, limits, a, run, n + 1, k, parts)
  {
    hide Undisturbed, Apply, Received;
  }

  lemma {:induction false} QuietStep(
    c: Config, limits: Counters, run: seq<Event>, n: nat, k: Key, parts: seq<seq<Byte>>)
    requires Usable(c) && n < |run| && Fits(c, limits, run, k, parts) && WellFormed(c, run, k, parts)
    requires Quiet(c, limits, map[], run, n, k, parts)
    requires Received(run, n, k) != Upto(|parts|) && ActiveSince(c, limits, run, n, k)
    ensures Undisturbed(c, limits, After(c, limits, map[], run, n), run[n], k)
  {
    hide Inv, Usable, After, Undisturbed, Tracks, WellFormed, Quiet, Received, LastNew, SessionFits, Calm, Only;
    InvEmpty(c);
    Reassembly(c, limits, map[], run, n, k, parts);
    InvReachable(c, limits, run, n);
    LiveArePushed(c, limits, run, n, k.session);
    CalmIsUndisturbed(c, limits, After(c, limits, map[], run, n), run, n, k, parts);
  }

  /** In a run that fits, nothing disturbs the datagram until it is complete. */
  lemma {:induction false} StaysQuiet(
    c: Config, limits: Counters, run: seq<Event>, n: nat, k: Key, parts: seq<seq<Byte>>)
    requires Usable(c) && n <= |run| && Fits(c, limits, run, k, parts) && WellFormed(c, run, k, parts)
    ensures Quiet(c, limits, map[], run, n, k, parts)
    ensures Received(run, n, k) != Upto(|parts|) ==> ActiveSince(c, limits, run, n, k)
  {
    hide Usable, Inv, Apply, Undisturbed, AsExpected, WellFormed, Received, LastNew, Fits, Tracks;
    if n == 0 {
    } else {
      hide Quiet;
      StaysQuiet(c, limits, run, n - 1, k, parts);
      if Received(run, n - 1, k) != Upto(|parts|) {
        QuietStep(c, limits, run, n - 1, k, parts);
      }
      QuietMore(c, limits, map[], run, n - 1, k, parts);
      QuietAnswers(c, limits, run, n, k, parts);
      if Received(run, n, k) != Upto(|parts|) {
        ActivityStep(c, limits, run, n - 1, k, parts);
      }
    }
  }

  lemma {:induction false} QuietAnswers(
    c: Config, limits: Counters, run: seq<Event>, n: nat, k: Key, parts: seq<seq<Byte>>)
    requires Usable(c) && 0 < n <= |run| && Fits(c, limits, run, k, parts) && WellFormed(c, run, k, parts)
    requires Quiet(c, limits, map[], run, n, k, parts)
    ensures AsExpected(c, limits, map[], run, n - 1, k, parts)
    ensures Received(run, n - 1, k) == Upto(|parts|) ==> Received(run, n, k) == Upto(|parts|)
  {
    hide Inv, Usable, After, AsExpected, Tracks, WellFormed, Quiet, Received, Calm, SessionFits;
    InvEmpty(c);
    Reassembly(c, limits, map[], run, n, k, parts);
    ReceivedStep(run, n - 1, k);
  }

  /**
   * A new reassembler delivers: if a well-formed datagram fits its limits, the run names few enough
   * datagrams for its session, the gauges leave room and expiry comes in time, its payload comes out whole,
   * exactly once, with the push that supplies the last part.
   */
  lemma {:induction false} NewReassemblerDelivers(
    c: Config, limits: Counters, run: seq<Event>, k: Key, parts: seq<seq<Byte>>)
    requires Usable(c) && Fits(c, limits, run, k, parts) && WellFormed(c, run, k, parts)
    requires Received(run, |run|, k) == Upto(|parts|)
    ensures exists m :: 0 <= m < |run| && OnlyDelivery(c, limits, map[], run, k, parts, m)
  {
    hide Inv, Usable, Apply, Quiet, WellFormed, Received, Calm, SessionFits, OnlyDelivery;
    StaysQuiet(c, limits, run, |run|, k, parts);
    InvEmpty(c);
    WellFormedIsDelivered(c, limits, map[], run, k, parts);
  }

  /** A session whose run names one datagram always has the capacity. */
  lemma {:induction false} LoneDatagramFits(c: Config, run: seq<Event>, k: Key)
    requires Usable(c) && forall m :: 0 <= m < |run| && run[m].Pushed? && run[m].s == k.session ==> KeyOf(run[m]) == k
    ensures SessionFits(c, |KeysOf(run, k.session)|)
  {
    SizeMonotone(KeysOf(run, k.session), {k});
  }
}
