/**
 * Where reordering loses a datagram: a fragment beyond the final one, let in before the mark was known,
 * leaves an assembly that no push can ever complete.
 */
module Socks5Overtaken {
  import opened Wrappers
  import opened Socks5Reassembly
  import opened Socks5Invariant
  import opened Socks5Runs
  import opened Socks5Delivery
  import opened Socks5Capacity
  import U = Socks5Udp

  /** A fragment beyond the one marked final is held: reordering let it in before the mark was known. */
  predicate Overtaken(x: Assembly)
  {
    x.final.Some? && x.final.value + 1 in x.fragments
  }

  /** How an assembly is given up without being delivered. */
  ghost predicate GivesUp(c: Config, a: Assemblies, e: Event, k: Key)
    requires k in a
  {
    match e
    case Expired(at) => TimedOut(a[k], c.timeout, at)
    case Discarded(s) => s == k.session
    case Pushed(_, f, _, _, _) => PushOf(e, k) && Judge(c, a[k], f).Reject?
  }

  /** A final fragment that arrives after its successor makes the assembly overtaken. */
  lemma {:induction false} LateFinalOvertakes(x: Assembly, f: U.Fragment, now: Time)
    requires f.final && f.sequence + 1 in x.fragments
    ensures Overtaken(Stored(x, f, now))
  {
    hide Advance;
  }

  lemma {:induction false} StoredStaysOvertaken(c: Config, k: Key, x: Assembly, f: U.Fragment, now: Time)
    requires Usable(c) && Shape(c, k, x) && Overtaken(x) && Judge(c, x, f) == Admit
    requires 1 <= f.sequence <= c.maxFragmentsPerDatagram
    ensures Overtaken(Stored(x, f, now)) && Stored(x, f, now).final == x.final && !Finished(Stored(x, f, now))
  {
    hide PayloadSize, ValidateConfig, LongestRun, Advance;
    CompletesIff(c, k, x, f, now);
  }

  /** Whatever happens to an overtaken assembly, it is not delivered: it stays overtaken or is given up. */
  lemma {:induction false} OvertakenStep(c: Config, limits: Counters, a: Assemblies, e: Event, k: Key)
    requires Usable(c) && Inv(c, a) && k in a && Overtaken(a[k])
    ensures k in Apply(c, limits, a, e) ==> Overtaken(Apply(c, limits, a, e)[k])
    ensures k !in Apply(c, limits, a, e) ==> GivesUp(c, a, e, k)
    ensures PushOf(e, k) ==> forall d :: PushAt(c, limits, e.g, e.h, a, e.s, e.f, e.at).1 != Ok(Complete(d, true))
  {
    hide Shape, Judge, Stored, Finished, Delivered, OpenError, ReserveError, Overtaken, Inv, Usable;
    KeyAlmost(c, a, k);
    if PushOf(e, k) && 1 <= e.f.sequence <= c.maxFragmentsPerDatagram && Judge(c, a[k], e.f) == Admit {
      StoredStaysOvertaken(c, k, a[k], e.f, e.at);
    }
  }

  /**
   * An overtaken assembly is stuck: as long as it stays live it is never delivered, and it ends only by
   * time-out, by a conflicting fragment or by the end of its session.
   */
  lemma {:induction false} OvertakenIsStuck(c: Config, limits: Counters, run: seq<Event>, n: nat, m: nat, k: Key)
    requires Usable(c) && n <= m <= |run| && forall h :: n <= h <= m ==> k in After(c, limits, map[], run, h)
    requires Overtaken(After(c, limits, map[], run, n)[k])
    ensures Overtaken(After(c, limits, map[], run, m)[k])
    ensures forall h, d :: n <= h <= m && h < |run| && PushOf(run[h], k) ==>
              ResultAt(c, limits, map[], run, h) != Ok(Complete(d, true))
    ensures m < |run| && k !in After(c, limits, map[], run, m + 1) ==>
              GivesUp(c, After(c, limits, map[], run, m), run[m], k)
  {
    hide Apply, PushAt, Inv, Usable, Overtaken, GivesUp;
    if n == m {
    } else {
      OvertakenIsStuck(c, limits, run, n, m - 1, k);
      InvReachable(c, limits, run, m - 1);
      OvertakenStep(c, limits, After(c, limits, map[], run, m - 1), run[m - 1], k);
    }
    if m < |run| {
      InvReachable(c, limits, run, m);
      OvertakenStep(c, limits, After(c, limits, map[], run, m), run[m], k);
    }
  }

  // ---------------------------------------------------------------- a run that gets there

  /** The run starts with fragments 1 and 3 of `k`, then 2 marked final. */
  predicate StartsOvertaking(run: seq<Event>, k: Key)
  {
    && |run| >= 3 && PushOf(run[0], k) && PushOf(run[1], k) && PushOf(run[2], k)
    && run[0].f.sequence == 1 && run[1].f.sequence == 3 && run[2].f.sequence == 2
    && !run[0].f.final && !run[1].f.final && run[2].f.final
  }

  /** A fragment that is admitted, finds room and does not complete the datagram is stored. */
  lemma {:induction false} StoredWithRoom(c: Config, limits: Counters, a: Assemblies, e: Event, k: Key)
    requires PushOf(e, k) && 1 <= e.f.sequence <= c.maxFragmentsPerDatagram && (k in a || e.f.sequence == 1)
    requires RoomFor(c, limits, a, e, k) && Judge(c, Base(a, k, e.f, e.at), e.f) == Admit
    requires !Finished(Stored(Base(a, k, e.f, e.at), e.f, e.at))
    ensures PushAt(c, limits, e.g, e.h, a, e.s, e.f, e.at).1 == Ok(Pending)
    ensures Apply(c, limits, a, e) == a[k := Stored(Base(a, k, e.f, e.at), e.f, e.at)]
  {
    hide Judge, Stored, Finished, OpenError, ReserveError, U.HeaderLength;
  }

  /** One step while `k` is the only assembly: the room it needs is what the configuration and gauges grant. */
  lemma {:induction false} LoneStep(c: Config, limits: Counters, a: Assemblies, e: Event, k: Key)
    requires Usable(c) && Inv(c, a) && a.Keys <= {k} && PushOf(e, k) && U.HeaderLength(k.target).Ok?
    requires 1 <= e.f.sequence <= c.maxFragmentsPerDatagram && (k in a || e.f.sequence == 1)
    requires GaugesAllow(limits, e, k !in a, U.HeaderLength(k.target).value)
    requires var x := Base(a, k, e.f, e.at);
      && |x.fragments| < c.maxFragmentsPerDatagram && x.bytes + |e.f.payload| <= c.maxBytesPerDatagram
      && Judge(c, x, e.f) == Admit && !Finished(Stored(x, e.f, e.at))
    ensures PushAt(c, limits, e.g, e.h, a, e.s, e.f, e.at).1 == Ok(Pending)
    ensures Apply(c, limits, a, e) == a[k := Stored(Base(a, k, e.f, e.at), e.f, e.at)]
  {
    hide Inv, Judge, Stored, Finished, RoomFor, U.HeaderLength, GaugesAllow, PushAt, Base;
    RoomByCapacity(c, limits, a, e, k, {k});
    StoredWithRoom(c, limits, a, e, k);
  }

  /** The three stores: each is admitted, none completes, and the last one overtakes. */
  lemma {:induction false} ThreeStores(
    c: Config, x: Assembly, one: U.Fragment, three: U.Fragment, two: U.Fragment, t1: Time, t3: Time, t2: Time)
    requires one.sequence == 1 && three.sequence == 3 && two.sequence == 2
    requires !one.final && !three.final && two.final && c.maxReorderGap >= 1
    requires x.fragments == map[] && x.final == None && x.contiguous == 0 && x.highest == 0
    ensures var y := Stored(x, one, t1);
      var z := Stored(y, three, t3);
      var w := Stored(z, two, t2);
      && Judge(c, x, one) == Admit && !Finished(y) && |y.fragments| == 1
      && Judge(c, y, three) == Admit && !Finished(z) && |z.fragments| == 2
      && Judge(c, z, two) == Admit && !Finished(w) && Overtaken(w)
  {
    var y := Stored(x, one, t1);
    var z := Stored(y, three, t3);
    assert y.contiguous == 1;
    assert z.contiguous == 1;
    assert y.fragments.Keys == {1} && z.fragments.Keys == {1, 3};
    LateFinalOvertakes(z, two, t2);
    AdvanceReaches(Stored(z, two, t2).fragments);
  }

  lemma {:induction false} AdvanceReaches(fragments: Fragments)
    requires fragments.Keys == {1, 2, 3}
    ensures Advance(fragments, 1) == 3
  {
    assert Advance(fragments, 3) == 3;
    assert Advance(fragments, 2) == 3;
  }

  lemma {:induction false} FirstPush(c: Config, limits: Counters, e: Event, k: Key, x: Assembly)
    requires Usable(c) && PushOf(e, k) && U.HeaderLength(k.target).Ok? && e.f.sequence == 1
    requires x == Opened(e.f, U.HeaderLength(k.target).value, e.at)
    requires GaugesAllow(limits, e, true, U.HeaderLength(k.target).value)
    requires x.bytes + |e.f.payload| <= c.maxBytesPerDatagram
    requires Judge(c, x, e.f) == Admit && !Finished(Stored(x, e.f, e.at))
    ensures PushAt(c, limits, e.g, e.h, map[], e.s, e.f, e.at).1 == Ok(Pending)
    ensures Apply(c, limits, map[], e) == map[k := Stored(x, e.f, e.at)]
  {
    hide Inv, Judge, Stored, Finished, U.HeaderLength, GaugesAllow, PushAt;
    InvEmpty(c);
    LoneStep(c, limits, map[], e, k);
  }

  lemma {:induction false} NextPush(c: Config, limits: Counters, x: Assembly, e: Event, k: Key)
    requires Usable(c) && Inv(c, map[k := x]) && PushOf(e, k) && U.HeaderLength(k.target).Ok?
    requires 1 <= e.f.sequence <= c.maxFragmentsPerDatagram
    requires GaugesAllow(limits, e, false, U.HeaderLength(k.target).value)
    requires |x.fragments| < c.maxFragmentsPerDatagram && x.bytes + |e.f.payload| <= c.maxBytesPerDatagram
    requires Judge(c, x, e.f) == Admit && !Finished(Stored(x, e.f, e.at))
    ensures PushAt(c, limits, e.g, e.h, map[k := x], e.s, e.f, e.at).1 == Ok(Pending)
    ensures Apply(c, limits, map[k := x], e) == map[k := Stored(x, e.f, e.at)]
  {
    hide Inv, Judge, Stored, Finished, U.HeaderLength, GaugesAllow, PushAt;
    LoneStep(c, limits, map[k := x], e, k);
    assert map[k := x][k := Stored(x, e.f, e.at)] == map[k := Stored(x, e.f, e.at)];
  }

  /**
   * Fragments 1 and 3 followed by 2 marked final, all accepted, overtake: with any reordering allowed, and
   * room for the three, a new reassembler ends up holding the whole datagram in an assembly that is stuck.
   */
  lemma {:induction false} LateFinalIsReached(c: Config, limits: Counters, run: seq<Event>, k: Key)
    requires Usable(c) && c.maxReorderGap >= 1 && c.maxFragmentsPerDatagram >= 3 && StartsOvertaking(run, k)
    requires U.HeaderLength(k.target).Ok?
    requires var envelope := U.HeaderLength(k.target).value;
      && envelope + |run[0].f.payload| + |run[1].f.payload| + |run[2].f.payload| <= c.maxBytesPerDatagram
      && GaugesAllow(limits, run[0], true, envelope)
      && GaugesAllow(limits, run[1], false, envelope) && GaugesAllow(limits, run[2], false, envelope)
    ensures forall m :: 0 <= m < 3 ==> ResultAt(c, limits, map[], run, m) == Ok(Pending)
    ensures var a := After(c, limits, map[], run, 3);
      && k in a && Overtaken(a[k]) && a[k].final == Some(2)
      && a[k].fragments == map[1 := run[0].f.payload, 2 := run[2].f.payload, 3 := run[1].f.payload]
  {
    hide Inv, Judge, Finished, U.HeaderLength, GaugesAllow, Apply, PushAt, Advance, Overtaken, Usable;
    var e1, e3, e2 := run[0], run[1], run[2];
    var x := Opened(e1.f, U.HeaderLength(k.target).value, e1.at);
    var y := Stored(x, e1.f, e1.at);
    var z := Stored(y, e3.f, e3.at);
    ThreeStores(c, x, e1.f, e3.f, e2.f, e1.at, e3.at, e2.at);
    ThreeEvents(c, limits, run);
    FirstPush(c, limits, e1, k, x);
    InvReachable(c, limits, run, 1);
    NextPush(c, limits, y, e3, k);
    InvReachable(c, limits, run, 2);
    NextPush(c, limits, z, e2, k);
  }

  lemma {:induction false} ThreeEvents(c: Config, limits: Counters, run: seq<Event>)
    requires |run| >= 3
    ensures After(c, limits, map[], run, 0) == map[]
    ensures After(c, limits, map[], run, 1) == Apply(c, limits, map[], run[0])
    ensures After(c, limits, map[], run, 2) == Apply(c, limits, After(c, limits, map[], run, 1), run[1])
    ensures After(c, limits, map[], run, 3) == Apply(c, limits, After(c, limits, map[], run, 2), run[2])
  {
    hide Apply;
    assert After(c, limits, map[], run, 0) == map[];
  }
}
