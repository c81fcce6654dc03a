/**
 * Whole runs of one SOCKS5 reassembler, with arbitrary traffic and arbitrary use of the shared budget
 * by others: the invariant is kept, every delivery is made of fragments that were pushed and accepted
 * since the assembly was opened, and no sequence number is accepted twice for one assembly.
 */
module Socks5Runs {
  import opened Wrappers
  import opened Bytes
  import opened Socks5Reassembly
  import opened Socks5Invariant
  import U = Socks5Udp

  /** `g` and `h` are what the global counters happen to be at the two reservations of the push. */
  datatype Event =
    | Pushed(s: Session, f: U.Fragment, at: Time, g: Counters, h: Counters)
    | Expired(at: Time)
    | Discarded(s: Session)

  ghost function Apply(c: Config, limits: Counters, a: Assemblies, e: Event): Assemblies
  {
    match e
    case Pushed(s, f, at, g, h) => PushAt(c, limits, g, h, a, s, f, at).0
    case Expired(at) => Expire(c, a, at)
    case Discarded(s) => DiscardSession(a, s)
  }

  ghost function After(c: Config, limits: Counters, a: Assemblies, run: seq<Event>, n: nat): Assemblies
    requires n <= |run|
  {
    if n == 0 then a else Apply(c, limits, After(c, limits, a, run, n - 1), run[n - 1])
  }

  function KeyOf(e: Event): Key
    requires e.Pushed?
  {
    Key(e.s, e.f.target, e.f.port)
  }

  predicate PushOf(e: Event, k: Key)
  {
    e.Pushed? && KeyOf(e) == k
  }

  ghost function ResultAt(c: Config, limits: Counters, a: Assemblies, run: seq<Event>, m: nat): Result<Outcome, Error>
    requires m < |run| && run[m].Pushed?
  {
    PushAt(c, limits, run[m].g, run[m].h, After(c, limits, a, run, m), run[m].s, run[m].f, run[m].at).1
  }

  lemma {:induction false} InvAfter(c: Config, limits: Counters, a: Assemblies, run: seq<Event>, n: nat)
    requires Usable(c) && Inv(c, a) && n <= |run|
    ensures Inv(c, After(c, limits, a, run, n))
  {
    hide Inv, PushAt, Expire, DiscardSession, Usable;
    if n == 0 {
    } else {
      var prior := After(c, limits, a, run, n - 1);
      InvAfter(c, limits, a, run, n - 1);
      match run[n - 1]
      case Pushed(s, f, at, g, h) => InvPush(c, limits, g, h, prior, s, f, at);
      case Expired(at) => InvExpire(c, prior, at);
      case Discarded(s) => InvDiscard(c, prior, s);
    }
  }

  lemma {:induction false} InvEmpty(c: Config)
    requires Usable(c)
    ensures Inv(c, map[])
  {
    forall s ensures SessionWithin(c, map[], s) {
      assert Only(map[], s) == map[];
      HeldEmpty();
    }
  }

  /** The invariant holds in every state a new reassembler can reach. */
  lemma {:induction false} InvReachable(c: Config, limits: Counters, run: seq<Event>, n: nat)
    requires Usable(c) && n <= |run|
    ensures Inv(c, After(c, limits, map[], run, n))
  {
    hide Inv, Apply;
    InvEmpty(c);
    InvAfter(c, limits, map[], run, n);
  }

  /** Without reordering, what is stored is always exactly the sequences 1 to the highest received. */
  lemma {:induction false} StrictStorage(c: Config, limits: Counters, run: seq<Event>, n: nat, k: Key)
    requires Usable(c) && c.maxReorderGap == 0 && n <= |run| && k in After(c, limits, map[], run, n)
    ensures var x := After(c, limits, map[], run, n)[k];
      x.contiguous == x.highest && forall s :: s in x.fragments <==> 1 <= s <= x.highest
  {
    hide PushAt, Expire, DiscardSession, PayloadSize;
    InvReachable(c, limits, run, n);
    assert AssemblyOk(c, k, After(c, limits, map[], run, n)[k]);
  }

  // ---------------------------------------------------------------- where a delivery comes from

  predicate Supplies(e: Event, k: Key, s: nat, payload: seq<Byte>)
  {
    PushOf(e, k) && e.f.sequence == s && e.f.payload == payload
  }

  predicate Ends(e: Event, k: Key, s: nat)
  {
    PushOf(e, k) && e.f.sequence == s && e.f.final
  }

  /** The fragment was stored: the push is pending or completed the datagram. */
  predicate Accepts(r: Result<Outcome, Error>)
  {
    match r
    case Ok(Pending) => true
    case Ok(Complete(_, fragmented)) => fragmented
    case _ => false
  }

  /** The push of event `p` was accepted. */
  ghost predicate Accepted(c: Config, limits: Counters, run: seq<Event>, p: nat)
    requires p < |run|
  {
    run[p].Pushed? && Accepts(ResultAt(c, limits, map[], run, p))
  }

  ghost predicate AcceptedFor(c: Config, limits: Counters, run: seq<Event>, p: nat, k: Key)
    requires p < |run|
  {
    PushOf(run[p], k) && Accepted(c, limits, run, p)
  }

  ghost predicate HasSupply(
    c: Config, limits: Counters, run: seq<Event>, lo: nat, hi: nat, k: Key, s: nat, payload: seq<Byte>)
    requires hi <= |run|
  {
    exists p :: lo <= p < hi && Supplies(run[p], k, s, payload) && Accepted(c, limits, run, p)
  }

  ghost predicate HasEnd(c: Config, limits: Counters, run: seq<Event>, lo: nat, hi: nat, k: Key, s: nat)
    requires hi <= |run|
  {
    exists p :: lo <= p < hi && Ends(run[p], k, s) && Accepted(c, limits, run, p)
  }

  /** Everything the assembly holds was pushed and accepted by the events from `lo` up to `hi`. */
  ghost predicate Backed(c: Config, limits: Counters, run: seq<Event>, lo: nat, hi: nat, k: Key, x: Assembly)
    requires hi <= |run|
  {
    && (forall s :: s in x.fragments ==> HasSupply(c, limits, run, lo, hi, k, s, x.fragments[s]))
    && (x.final.Some? ==> HasEnd(c, limits, run, lo, hi, k, x.final.value))
  }

  lemma {:induction false} BackedLater(
    c: Config, limits: Counters, run: seq<Event>, lo: nat, hi: nat, k: Key, x: Assembly)
    requires hi < |run| && Backed(c, limits, run, lo, hi, k, x)
    ensures Backed(c, limits, run, lo, hi + 1, k, x)
  {
    hide Accepted, Supplies, Ends;
    forall s | s in x.fragments ensures HasSupply(c, limits, run, lo, hi + 1, k, s, x.fragments[s]) {
      var p :| lo <= p < hi && Supplies(run[p], k, s, x.fragments[s]) && Accepted(c, limits, run, p);
    }
    if x.final.Some? {
      var p :| lo <= p < hi && Ends(run[p], k, x.final.value) && Accepted(c, limits, run, p);
    }
  }

  lemma {:induction false} BackedStore(
    c: Config, limits: Counters, run: seq<Event>, lo: nat, hi: nat, k: Key, x: Assembly, at: Time)
    requires lo <= hi < |run| && Backed(c, limits, run, lo, hi, k, x) && AcceptedFor(c, limits, run, hi, k)
    ensures Backed(c, limits, run, lo, hi + 1, k, Stored(x, run[hi].f, at))
  {
    hide Advance, Accepted;
    var f := run[hi].f;
    var x' := Stored(x, f, at);
    BackedLater(c, limits, run, lo, hi, k, x);
    forall s | s in x'.fragments ensures HasSupply(c, limits, run, lo, hi + 1, k, s, x'.fragments[s]) {
      if s == f.sequence {
        assert Supplies(run[hi], k, s, x'.fragments[s]);
      } else {
        assert HasSupply(c, limits, run, lo, hi + 1, k, s, x.fragments[s]);
      }
    }
    if f.final {
      assert Ends(run[hi], k, f.sequence);
    }
  }

  /** The assembly a push of `k` works on: the live one, or the one it has just opened. */
  function Base(a: Assemblies, k: Key, f: U.Fragment, at: Time): Assembly
  {
    if k in a then a[k] else Opened(f, if U.HeaderLength(f.target).Ok? then U.HeaderLength(f.target).value else 0, at)
  }

  /** An assembly appears or changes only by an accepted push of its own key. */
  lemma {:induction false} StepEffect(c: Config, limits: Counters, a: Assemblies, e: Event, k: Key)
    ensures var b := Apply(c, limits, a, e);
      k in b && !(k in a && b[k] == a[k]) ==>
        && PushOf(e, k) && b[k] == Stored(Base(a, k, e.f, e.at), e.f, e.at)
        && PushAt(c, limits, e.g, e.h, a, e.s, e.f, e.at).1 == Ok(Pending)
  {
    hide Stored, OpenError, ReserveError, Judge, Finished, Delivered;
    if PushOf(e, k) && k !in a && e.f.sequence == 1 {
      OpenedAdmits(c, Base(a, k, e.f, e.at), e.f);
    }
  }

  /** A fragmented delivery comes from a finished assembly, which it removes. */
  lemma {:induction false} DeliveryEffect(c: Config, limits: Counters, a: Assemblies, e: Event, d: U.Datagram)
    requires e.Pushed? && PushAt(c, limits, e.g, e.h, a, e.s, e.f, e.at).1 == Ok(Complete(d, true))
    ensures 1 <= e.f.sequence <= c.maxFragmentsPerDatagram
    ensures Judge(c, Base(a, KeyOf(e), e.f, e.at), e.f) == Admit
    ensures KeyOf(e) !in a ==>
      U.HeaderLength(e.f.target).Ok? && U.HeaderLength(e.f.target).value <= c.maxBytesPerDatagram
    ensures var x := Stored(Base(a, KeyOf(e), e.f, e.at), e.f, e.at);
      Finished(x) && Delivered(x) == Complete(d, true)
    ensures KeyOf(e) !in Apply(c, limits, a, e)
  {
    hide Stored, ReserveError, Judge, Held, Finished, Joined;
  }

  /** An accepted fragment was not held before, and is held afterwards unless it completed the datagram. */
  lemma {:induction false} AcceptedEffect(c: Config, limits: Counters, a: Assemblies, e: Event)
    requires e.Pushed? && Accepts(PushAt(c, limits, e.g, e.h, a, e.s, e.f, e.at).1)
    ensures Judge(c, Base(a, KeyOf(e), e.f, e.at), e.f) == Admit
    ensures var k, b := KeyOf(e), Apply(c, limits, a, e);
      k in b ==> b[k] == Stored(Base(a, k, e.f, e.at), e.f, e.at)
  {
    hide Stored, OpenError, ReserveError, Judge, Finished, Delivered;
  }

  lemma {:induction false} HeldWhileLive(c: Config, limits: Counters, run: seq<Event>, i: nat, j: nat, k: Key)
    requires i < j <= |run| && AcceptedFor(c, limits, run, i, k)
    requires forall m :: i < m <= j ==> k in After(c, limits, map[], run, m)
    ensures run[i].f.sequence in After(c, limits, map[], run, j)[k].fragments
  {
    hide Apply, PushAt, Advance, Judge;
    if j == i + 1 {
      AcceptedEffect(c, limits, After(c, limits, map[], run, i), run[i]);
    } else {
      HeldWhileLive(c, limits, run, i, j - 1, k);
      StepEffect(c, limits, After(c, limits, map[], run, j - 1), run[j - 1], k);
    }
  }

  /** While an assembly lives, no sequence number is accepted twice for it. */
  lemma {:induction false} AcceptedOnce(c: Config, limits: Counters, run: seq<Event>, i: nat, j: nat, k: Key)
    requires i < j < |run| && AcceptedFor(c, limits, run, i, k) && AcceptedFor(c, limits, run, j, k)
    requires forall m :: i < m <= j ==> k in After(c, limits, map[], run, m)
    ensures run[i].f.sequence != run[j].f.sequence
  {
    hide Apply, PushAt, Judge;
    var a := After(c, limits, map[], run, j);
    HeldWhileLive(c, limits, run, i, j, k);
    AcceptedEffect(c, limits, a, run[j]);
    AdmitIsNew(c, a[k], run[j].f);
  }

  /** Since when `k` has been live without interruption; all it holds was accepted since then. */
  lemma {:induction false} LiveSince(c: Config, limits: Counters, run: seq<Event>, n: nat, k: Key) returns (start: nat)
    requires n <= |run| && k in After(c, limits, map[], run, n)
    ensures start < n && k !in After(c, limits, map[], run, start)
    ensures forall m :: start < m <= n ==> k in After(c, limits, map[], run, m)
    ensures Backed(c, limits, run, start, n, k, After(c, limits, map[], run, n)[k])
  {
    hide Apply, Backed, Stored, PushAt;
    var a, e := After(c, limits, map[], run, n - 1), run[n - 1];
    StepEffect(c, limits, a, e, k);
    if k in a {
      start := LiveSince(c, limits, run, n - 1, k);
      if After(c, limits, map[], run, n)[k] != a[k] {
        BackedStore(c, limits, run, start, n - 1, k, a[k], e.at);
      } else {
        BackedLater(c, limits, run, start, n - 1, k, a[k]);
      }
    } else {
      start := n - 1;
      OpenedBacked(c, limits, run, n - 1, k, Base(a, k, e.f, e.at));
      BackedStore(c, limits, run, n - 1, n - 1, k, Base(a, k, e.f, e.at), e.at);
    }
  }

  lemma {:induction false} OpenedBacked(c: Config, limits: Counters, run: seq<Event>, n: nat, k: Key, x: Assembly)
    requires n <= |run| && x.fragments == map[] && x.final == None
    ensures Backed(c, limits, run, n, n, k, x)
  {
  }

  function PartsOf(fragments: Fragments, n: nat): seq<seq<Byte>>
  {
    if n == 0 then [] else PartsOf(fragments, n - 1) + [if n in fragments then fragments[n] else []]
  }

  lemma {:induction false} PartsJoin(fragments: Fragments, n: nat)
    ensures |PartsOf(fragments, n)| == n && Concat(PartsOf(fragments, n)) == Joined(fragments, n)
    ensures forall j :: 0 <= j < n && j + 1 in fragments ==> PartsOf(fragments, n)[j] == fragments[j + 1]
  {
    if n == 0 {
    } else {
      PartsJoin(fragments, n - 1);
      ConcatAppend(PartsOf(fragments, n - 1), if n in fragments then fragments[n] else []);
    }
  }

  /**
   * `parts` were accepted for `k` from `start` to `i`, as sequences 1 to their number with the last marked
   * final, and no sequence number was accepted more than once in that time.
   */
  ghost predicate Genuine(
    c: Config, limits: Counters, run: seq<Event>, start: nat, i: nat, k: Key, parts: seq<seq<Byte>>)
    requires i < |run|
  {
    && parts != []
    && (forall j :: 0 <= j < |parts| ==> HasSupply(c, limits, run, start, i + 1, k, j + 1, parts[j]))
    && HasEnd(c, limits, run, start, i + 1, k, |parts|)
    && OncePerSequence(c, limits, run, start, i, k)
  }

  ghost predicate OncePerSequence(c: Config, limits: Counters, run: seq<Event>, start: nat, i: nat, k: Key)
    requires i < |run|
  {
    forall p, q :: start <= p < q <= i && AcceptedFor(c, limits, run, p, k) && AcceptedFor(c, limits, run, q, k) ==>
      run[p].f.sequence != run[q].f.sequence
  }

  lemma {:induction false} LiveAcceptsOnce(c: Config, limits: Counters, run: seq<Event>, start: nat, i: nat, k: Key)
    requires i < |run| && forall m :: start < m <= i ==> k in After(c, limits, map[], run, m)
    ensures OncePerSequence(c, limits, run, start, i, k)
  {
    hide Accepted, Apply;
    forall p, q | start <= p < q <= i && AcceptedFor(c, limits, run, p, k) && AcceptedFor(c, limits, run, q, k)
      ensures run[p].f.sequence != run[q].f.sequence
    {
      AcceptedOnce(c, limits, run, p, q, k);
    }
  }

  /**
   * Every fragmented delivery is the in-order concatenation of payloads accepted for that very session,
   * target and port, as sequences 1 to n with n marked final, all since the assembly was opened, and
   * exactly one for each sequence number.
   */
  lemma {:induction false} DeliveryIsGenuine(c: Config, limits: Counters, run: seq<Event>, i: nat, d: U.Datagram)
    returns (start: nat, parts: seq<seq<Byte>>)
    requires Usable(c) && i < |run| && run[i].Pushed? && ResultAt(c, limits, map[], run, i) == Ok(Complete(d, true))
    ensures d.target == run[i].f.target && d.port == run[i].f.port && d.payload == Concat(parts)
    ensures start <= i && Genuine(c, limits, run, start, i, KeyOf(run[i]), parts)
    ensures KeyOf(run[i]) !in After(c, limits, map[], run, start)
    ensures forall m :: start < m <= i ==> KeyOf(run[i]) in After(c, limits, map[], run, m)
  {
    hide Apply, PushAt, Backed, Stored, Judge, HasSupply, HasEnd, OncePerSequence, Inv, Usable, Shape;
    var a, e := After(c, limits, map[], run, i), run[i];
    var k := KeyOf(e);
    DeliveryEffect(c, limits, a, e, d);
    var base := Base(a, k, e.f, e.at);
    if k in a {
      start := LiveSince(c, limits, run, i, k);
    } else {
      start := i;
      OpenedBacked(c, limits, run, i, k, base);
    }
    BackedStore(c, limits, run, start, i, k, base, e.at);
    var x := Stored(base, e.f, e.at);
    InvReachable(c, limits, run, i);
    BaseShape(c, a, e);
    CompletesIff(c, k, base, e.f, e.at);
    StoredPlace(base, e.f, e.at);
    PartsJoin(x.fragments, x.final.value);
    parts := PartsOf(x.fragments, x.final.value);
    LiveAcceptsOnce(c, limits, run, start, i, k);
    UseBacked(c, limits, run, start, i, k, x, parts);
  }

  lemma {:induction false} BaseShape(c: Config, a: Assemblies, e: Event)
    requires Usable(c) && Inv(c, a) && e.Pushed?
    requires KeyOf(e) !in a ==>
      U.HeaderLength(e.f.target).Ok? && U.HeaderLength(e.f.target).value <= c.maxBytesPerDatagram
    ensures Shape(c, KeyOf(e), Base(a, KeyOf(e), e.f, e.at))
    ensures var x := Base(a, KeyOf(e), e.f, e.at);
      x.target == e.f.target && x.port == e.f.port && (x.final.Some? ==> x.final.value >= 1)
  {
    hide Usable, U.HeaderLength, SessionsWithin;
    var k := KeyOf(e);
    if k in a {
      assert AssemblyOk(c, k, a[k]);
    } else {
      OpenedShape(c, k, e.f, U.HeaderLength(e.f.target).value, e.at);
    }
  }

  lemma {:induction false} StoredPlace(x: Assembly, f: U.Fragment, at: Time)
    ensures var x' := Stored(x, f, at);
      x'.target == x.target && x'.port == x.port && x'.final == if f.final then Some(f.sequence) else x.final
  {
  }

  lemma {:induction false} UseBacked(
    c: Config, limits: Counters, run: seq<Event>, start: nat, i: nat, k: Key, x: Assembly, parts: seq<seq<Byte>>)
    requires i < |run| && Backed(c, limits, run, start, i + 1, k, x) && x.final.Some? && |parts| == x.final.value
    requires forall s :: 1 <= s <= |parts| ==> s in x.fragments && parts[s - 1] == x.fragments[s]
    requires parts != [] && OncePerSequence(c, limits, run, start, i, k)
    ensures Genuine(c, limits, run, start, i, k, parts)
  {
    hide HasSupply, HasEnd, OncePerSequence;
    forall j | 0 <= j < |parts| ensures HasSupply(c, limits, run, start, i + 1, k, j + 1, parts[j]) {
      assert j + 1 in x.fragments;
    }
  }

  // ---------------------------------------------------------------- unfragmented datagrams

  /** From the wire: an unfragmented envelope is delivered at once and whole, whatever is being assembled. */
  lemma {:induction false} UnfragmentedArrives(
    c: Config, limits: Counters, g: Counters, h: Counters, a: Assemblies, s: Session, d: U.Datagram, now: Time)
    requires d.port != 0 && U.Encode(d).Ok?
    ensures U.DecodeFragment(U.Encode(d).value).Ok?
    ensures PushAt(c, limits, g, h, a, s, U.DecodeFragment(U.Encode(d).value).value, now) == (a, Ok(Complete(d, false)))
  {
    hide U.Encode, U.DecodeFragment, U.Layout, U.HostOk, PushInto;
    var b := U.Encode(d).value;
    U.EncodeExact(d, b);
    U.DecodeExact(b, U.Fragment(0, false, d.target, d.port, d.payload));
  }

  /** In any run an unfragmented delivery is exactly the fragment pushed there, and changes nothing. */
  lemma {:induction false} UnfragmentedIsGenuine(c: Config, limits: Counters, run: seq<Event>, i: nat, d: U.Datagram)
    requires i < |run| && run[i].Pushed?
    ensures ResultAt(c, limits, map[], run, i) == Ok(Complete(d, false)) <==>
      run[i].f.sequence == 0 && d.target == run[i].f.target && d.port == run[i].f.port && d.payload == run[i].f.payload
    ensures run[i].f.sequence == 0 ==> After(c, limits, map[], run, i + 1) == After(c, limits, map[], run, i)
  {
    hide Judge, ReserveError, OpenError, Stored, Finished;
  }
}
