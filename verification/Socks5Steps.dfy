/**
 * The reassembler and the budget machine are one: every push, and every removal by expiry, discard or drop,
 * is a script of atomic budget steps of its worker, whatever other workers do in between.
 */
module Socks5Steps {
  import opened Wrappers
  import opened Sequences
  import opened Socks5Reassembly
  import opened Socks5Invariant
  import B = Socks5Budget
  import U = Socks5Udp

  /** The same counters, as the reassembler reads them. */
  function AsCounters(g: B.Gauge): Counters
  {
    Counters(g.inflight, g.fragments, g.bytes)
  }

  predicate SameCost(cost: B.Cost, x: Assembly)
  {
    B.CostTotal(cost) == B.Gauge(1, |x.fragments|, x.bytes)
  }

  /** The worker's live reservations are those of the assemblies. */
  predicate Matches(live: map<Key, B.Cost>, a: Assemblies)
  {
    live.Keys == a.Keys && forall k :: k in a ==> SameCost(live[k], a[k])
  }

  // ---------------------------------------------------------------- one worker among others

  /** The worker after its actions, each taken when the counters are as `seen`. */
  function Play(limits: B.Gauge, w: B.Worker, acts: seq<B.Action>, seen: seq<B.Gauge>): B.Worker
    requires |acts| == |seen|
    decreases |acts|
  {
    if acts == [] then w else Play(limits, B.Move(limits, seen[0], w, acts[0]).1, acts[1..], seen[1..])
  }

  lemma {:induction false} PlayThen(
    limits: B.Gauge, w: B.Worker, acts: seq<B.Action>, more: seq<B.Action>, seen: seq<B.Gauge>)
    requires |acts| + |more| == |seen|
    ensures Play(limits, w, acts + more, seen)
         == Play(limits, Play(limits, w, acts, seen[..|acts|]), more, seen[|acts|..])
    decreases |acts|
  {
    hide B.Move;
    if acts == [] {
      assert acts + more == more && seen[..0] == [] && seen[0..] == seen;
    } else {
      PlayThen(limits, B.Move(limits, seen[0], w, acts[0]).1, acts[1..], more, seen[1..]);
      assert (acts + more)[1..] == acts[1..] + more;
      assert seen[1..][..|acts| - 1] == seen[..|acts|][1..] && seen[1..][|acts| - 1..] == seen[|acts|..];
    }
  }

  ghost function OwnActs(schedule: seq<(nat, B.Action)>, n: nat, who: nat): seq<B.Action>
    requires n <= |schedule|
  {
    if n == 0 then []
    else OwnActs(schedule, n - 1, who) + if schedule[n - 1].0 == who then [schedule[n - 1].1] else []
  }

  /** The counters as they were whenever it was this worker's turn. */
  ghost function OwnSeen(
    limits: B.Gauge, world: B.World, schedule: seq<(nat, B.Action)>, n: nat, who: nat): (seen: seq<B.Gauge>)
    requires n <= |schedule|
    ensures |seen| == |OwnActs(schedule, n, who)|
  {
    if n == 0 then []
    else
      OwnSeen(limits, world, schedule, n - 1, who)
      + if schedule[n - 1].0 == who then [B.After(limits, world, schedule, n - 1).gauge] else []
  }

  /** In any interleaving a worker depends on the others only through the counters it sees. */
  lemma {:induction false} WorkerPlays(
    limits: B.Gauge, world: B.World, schedule: seq<(nat, B.Action)>, n: nat, who: nat)
    requires n <= |schedule| && who in world.workers
    ensures who in B.After(limits, world, schedule, n).workers
    ensures B.After(limits, world, schedule, n).workers[who]
         == Play(limits, world.workers[who], OwnActs(schedule, n, who), OwnSeen(limits, world, schedule, n, who))
  {
    hide B.Move;
    if n == 0 {
    } else {
      WorkerPlays(limits, world, schedule, n - 1, who);
      var acts, seen := OwnActs(schedule, n - 1, who), OwnSeen(limits, world, schedule, n - 1, who);
      if schedule[n - 1].0 == who {
        var act, g := schedule[n - 1].1, B.After(limits, world, schedule, n - 1).gauge;
        PlayThen(limits, world.workers[who], acts, [act], seen + [g]);
        PlayOne(limits, Play(limits, world.workers[who], acts, seen), act, g);
        assert (seen + [g])[..|acts|] == seen && (seen + [g])[|acts|..] == [g];
      } else {
        assert acts + [] == acts && seen + [] == seen;
      }
    }
  }

  lemma {:induction false} PlayOne(limits: B.Gauge, w: B.Worker, act: B.Action, g: B.Gauge)
    ensures Play(limits, w, [act], [g]) == B.Move(limits, g, w, act).1
  {
    hide B.Move;
    assert [act][1..] == [] && [g][1..] == [];
  }

  // ---------------------------------------------------------------- removing

  function Releases(n: nat): seq<B.Action>
  {
    seq(n, _ => B.ReleaseNext)
  }

  /** Removing an assembly with `n` fragments and returning its reservations. */
  function RemoveScript(k: Key, n: nat): seq<B.Action>
  {
    [B.Remove(k)] + Releases(2 * n + 3)
  }

  lemma {:induction false} ReleasesPlay(
    limits: B.Gauge, live: map<Key, B.Cost>, left: seq<B.Amount>, seen: seq<B.Gauge>)
    requires |seen| == |left| + 1
    ensures Play(limits, B.Worker(live, B.Releasing(left)), Releases(|left| + 1), seen) == B.Worker(live, B.Idle)
    decreases |left|
  {
    var acts := Releases(|left| + 1);
    assert acts[1..] == Releases(|left|);
    if left != [] {
      ReleasesPlay(limits, live, left[1..], seen[1..]);
    } else {
      assert seen[1..] == [];
    }
  }

  lemma {:induction false} PlanSize(sizes: seq<nat>)
    ensures |B.SlotReleases(sizes)| == 2 * |sizes|
  {
    if sizes == [] {
    } else {
      PlanSize(sizes[1..]);
    }
  }

  lemma {:induction false} RemovePlays(limits: B.Gauge, w: B.Worker, a: Assemblies, k: Key, seen: seq<B.Gauge>)
    requires w.phase.Idle? && Matches(w.live, a) && k in a && |seen| == |RemoveScript(k, |a[k].fragments|)|
    ensures Play(limits, w, RemoveScript(k, |a[k].fragments|), seen) == B.Worker(w.live - {k}, B.Idle)
    ensures Matches(w.live - {k}, a - {k})
  {
    var cost, acts := w.live[k], RemoveScript(k, |a[k].fragments|);
    assert SameCost(cost, a[k]);
    PlanSize(cost.sizes);
    var plan := B.ReleasePlan(cost);
    assert acts[1..] == Releases(|plan| + 1);
    ReleasesPlay(limits, w.live - {k}, plan, seen[1..]);
  }

  // ---------------------------------------------------------------- a push

  /** What the reservations among the actions see: `g` when opening, `h` when storing. */
  predicate Sees(acts: seq<B.Action>, seen: seq<B.Gauge>, g: B.Gauge, h: B.Gauge)
  {
    |acts| == |seen| && forall i :: 0 <= i < |acts| ==> SeesOne(acts[i], seen[i], g, h)
  }

  predicate SeesOne(act: B.Action, seen: B.Gauge, g: B.Gauge, h: B.Gauge)
  {
    match act
    case ReserveDatagram(_, _) => seen.inflight == g.inflight
    case ReserveEnvelope => seen.bytes == g.bytes
    case ReserveSlot(_, _) => seen.fragments == h.fragments
    case ReserveBytes => seen.bytes == h.bytes
    case _ => true
  }

  lemma {:induction false} SeesParts(
    acts: seq<B.Action>, more: seq<B.Action>, seen: seq<B.Gauge>, g: B.Gauge, h: B.Gauge)
    requires Sees(acts + more, seen, g, h)
    ensures Sees(acts, seen[..|acts|], g, h) && Sees(more, seen[|acts|..], g, h)
  {
    forall i | 0 <= i < |acts| ensures SeesOne(acts[i], seen[i], g, h) {
      assert (acts + more)[i] == acts[i];
    }
    forall i | 0 <= i < |more| ensures SeesOne(more[i], seen[|acts|..][i], g, h) {
      assert (acts + more)[|acts| + i] == more[i];
    }
  }

  /** The steps by which room for a fragment is asked for, and given back if only half of it was free. */
  function ReserveScript(k: Key, size: nat, error: Option<Error>): seq<B.Action>
  {
    match error
    case None => [B.ReserveSlot(k, size), B.ReserveBytes]
    case Some(GlobalFragmentBudget) => [B.ReserveSlot(k, size)]
    case Some(GlobalByteBudget) => [B.ReserveSlot(k, size), B.ReserveBytes, B.UndoSlot]
    case Some(_) => []
  }

  ghost function IntoScript(
    c: Config, limits: B.Gauge, h: B.Gauge, a: Assemblies, k: Key, f: U.Fragment, now: Time, created: bool)
    : seq<B.Action>
    requires k in a
  {
    match Judge(c, a[k], f)
    case Reject(_) => RemoveScript(k, |a[k].fragments|)
    case Refuse(_) => []
    case AlreadyHeld => []
    case Admit =>
      var error := ReserveError(c, AsCounters(limits), AsCounters(h), a, k, |f.payload|);
      var x := Stored(a[k], f, now);
      ReserveScript(k, |f.payload|, error)
      + if error.Some? then if created then RemoveScript(k, |a[k].fragments|) else []
        else if Finished(x) then RemoveScript(k, |x.fragments|) else []
  }

  /** The steps by which a new assembly is asked for. */
  function OpenScript(k: Key, envelope: nat, error: Option<Error>): seq<B.Action>
  {
    match error
    case None => [B.ReserveDatagram(k, envelope), B.ReserveEnvelope]
    case Some(GlobalInflightBudget) => [B.ReserveDatagram(k, envelope)]
    case Some(GlobalByteBudget) => [B.ReserveDatagram(k, envelope), B.ReserveEnvelope, B.UndoDatagram]
    case Some(_) => []
  }

  /** All budget steps of a push. */
  ghost function PushScript(
    c: Config, limits: B.Gauge, g: B.Gauge, h: B.Gauge, a: Assemblies, s: Session, f: U.Fragment, now: Time)
    : seq<B.Action>
  {
    var k := Key(s, f.target, f.port);
    if f.sequence == 0 || f.sequence > c.maxFragmentsPerDatagram then []
    else if k in a then IntoScript(c, limits, h, a, k, f, now, false)
    else if f.sequence != 1 || U.HeaderLength(f.target).Err? then []
    else
      var envelope := U.HeaderLength(f.target).value;
      var error := OpenError(c, AsCounters(limits), AsCounters(g), a, s, envelope);
      OpenScript(k, envelope, error)
      + if error.Some? then [] else IntoScript(c, limits, h, a[k := Opened(f, envelope, now)], k, f, now, true)
  }

  lemma {:induction false} OpenPlays(
    c: Config, limits: B.Gauge, g: B.Gauge, h: B.Gauge, w: B.Worker, a: Assemblies, k: Key, f: U.Fragment,
    envelope: nat, now: Time, seen: seq<B.Gauge>)
    requires w.phase.Idle? && Matches(w.live, a) && k !in a
    requires var error := OpenError(c, AsCounters(limits), AsCounters(g), a, k.session, envelope);
      Sees(OpenScript(k, envelope, error), seen, g, h)
    ensures var error := OpenError(c, AsCounters(limits), AsCounters(g), a, k.session, envelope);
      var w' := Play(limits, w, OpenScript(k, envelope, error), seen);
      && w'.phase.Idle?
      && Matches(w'.live, if error.Some? then a else a[k := Opened(f, envelope, now)])
  {
    hide Held;
    var error := OpenError(c, AsCounters(limits), AsCounters(g), a, k.session, envelope);
    PlayShort(limits, w, OpenScript(k, envelope, error), seen);
  }

  /** Unfolds a script of at most three steps. */
  lemma {:induction false} PlayShort(limits: B.Gauge, w: B.Worker, acts: seq<B.Action>, seen: seq<B.Gauge>)
    requires |acts| == |seen| <= 3
    ensures acts == [] ==> Play(limits, w, acts, seen) == w
    ensures |acts| == 1 ==> Play(limits, w, acts, seen) == B.Move(limits, seen[0], w, acts[0]).1
    ensures |acts| == 2 ==>
      Play(limits, w, acts, seen) == B.Move(limits, seen[1], B.Move(limits, seen[0], w, acts[0]).1, acts[1]).1
    ensures |acts| == 3 ==>
      var w2 := B.Move(limits, seen[1], B.Move(limits, seen[0], w, acts[0]).1, acts[1]).1;
      Play(limits, w, acts, seen) == B.Move(limits, seen[2], w2, acts[2]).1
  {
    hide B.Move, Play;
    PlayFirst(limits, w, acts, seen);
    if acts != [] {
      var w1 := B.Move(limits, seen[0], w, acts[0]).1;
      PlayFirst(limits, w1, acts[1..], seen[1..]);
      if |acts| >= 2 {
        var w2 := B.Move(limits, seen[1], w1, acts[1]).1;
        PlayFirst(limits, w2, acts[1..][1..], seen[1..][1..]);
        if |acts| == 3 {
          PlayFirst(limits, B.Move(limits, seen[2], w2, acts[2]).1, acts[1..][1..][1..], seen[1..][1..][1..]);
        }
      }
    }
  }

  lemma {:induction false} PlayFirst(limits: B.Gauge, w: B.Worker, acts: seq<B.Action>, seen: seq<B.Gauge>)
    requires |acts| == |seen|
    ensures acts == [] ==> Play(limits, w, acts, seen) == w
    ensures acts != [] ==>
      Play(limits, w, acts, seen) == Play(limits, B.Move(limits, seen[0], w, acts[0]).1, acts[1..], seen[1..])
  {
    hide B.Move;
  }

  /** What the reservation makes of an idle worker: all of it, or nothing. */
  lemma {:induction false} ReserveMoves(
    limits: B.Gauge, g: B.Gauge, h: B.Gauge, w: B.Worker, k: Key, size: nat, error: Option<Error>, seen: seq<B.Gauge>)
    requires w.phase.Idle? && k in w.live && Sees(ReserveScript(k, size, error), seen, g, h)
    requires error == Some(GlobalFragmentBudget) ==> h.fragments + 1 > limits.fragments
    requires error == Some(GlobalByteBudget) ==> h.fragments + 1 <= limits.fragments && h.bytes + size > limits.bytes
    requires error == None ==> h.fragments + 1 <= limits.fragments && h.bytes + size <= limits.bytes
    ensures var cost := w.live[k];
      Play(limits, w, ReserveScript(k, size, error), seen)
      == if error.Some? then w else B.Worker(w.live[k := cost.(sizes := cost.sizes + [size])], B.Idle)
  {
    hide Play;
    var acts := ReserveScript(k, size, error);
    PlayShort(limits, w, acts, seen);
    if acts != [] {
      assert SeesOne(acts[0], seen[0], g, h);
      if |acts| >= 2 {
        assert SeesOne(acts[1], seen[1], g, h);
      }
    }
  }

  lemma {:induction false} StoredMatches(live: map<Key, B.Cost>, a: Assemblies, k: Key, f: U.Fragment, now: Time)
    requires Matches(live, a) && k in a && f.sequence !in a[k].fragments
    ensures Matches(live[k := live[k].(sizes := live[k].sizes + [|f.payload|])], a[k := Stored(a[k], f, now)])
  {
    hide Advance, B.SumSeq;
    assert SameCost(live[k], a[k]);
    B.SumSeqAppend(live[k].sizes, |f.payload|);
    assert a[k].fragments[f.sequence := f.payload].Keys == a[k].fragments.Keys + {f.sequence};
  }

  lemma {:induction false} ReservePlays(
    c: Config, limits: B.Gauge, g: B.Gauge, h: B.Gauge, w: B.Worker, a: Assemblies, k: Key, f: U.Fragment, now: Time,
    seen: seq<B.Gauge>)
    requires w.phase.Idle? && Matches(w.live, a) && k in a && f.sequence !in a[k].fragments
    requires var error := ReserveError(c, AsCounters(limits), AsCounters(h), a, k, |f.payload|);
      Sees(ReserveScript(k, |f.payload|, error), seen, g, h)
    ensures var error := ReserveError(c, AsCounters(limits), AsCounters(h), a, k, |f.payload|);
      var w' := Play(limits, w, ReserveScript(k, |f.payload|, error), seen);
      && w'.phase.Idle?
      && Matches(w'.live, if error.Some? then a else a[k := Stored(a[k], f, now)])
  {
    hide Held, Stored, Play, ReserveScript, SameCost, Sees;
    var error := ReserveError(c, AsCounters(limits), AsCounters(h), a, k, |f.payload|);
    ReserveMoves(limits, g, h, w, k, |f.payload|, error, seen);
    if error.None? {
      StoredMatches(w.live, a, k, f, now);
    }
  }

  lemma {:induction false} IntoPlays(
    c: Config, limits: B.Gauge, g: B.Gauge, h: B.Gauge, w: B.Worker, a: Assemblies, k: Key, f: U.Fragment, now: Time,
    created: bool, seen: seq<B.Gauge>)
    requires w.phase.Idle? && Matches(w.live, a) && k in a
    requires Sees(IntoScript(c, limits, h, a, k, f, now, created), seen, g, h)
    ensures var w' := Play(limits, w, IntoScript(c, limits, h, a, k, f, now, created), seen);
      w'.phase.Idle? && Matches(w'.live, PushInto(c, AsCounters(limits), AsCounters(h), a, k, f, now, created).0)
  {
    hide Judge, ReserveError, Stored, Finished, Delivered, Matches, Sees, RemoveScript;
    var acts := IntoScript(c, limits, h, a, k, f, now, created);
    match Judge(c, a[k], f)
    case Reject(_) =>
      SeesLength(acts, seen, g, h);
      RemovePlays(limits, w, a, k, seen);
    case Refuse(_) => PlayNothing(limits, w, seen, g, h);
    case AlreadyHeld => PlayNothing(limits, w, seen, g, h);
    case Admit =>
      AdmitIsNew(c, a[k], f);
      AdmitPlays(c, limits, g, h, w, a, k, f, now, created, seen);
  }

  lemma {:induction false} SeesLength(acts: seq<B.Action>, seen: seq<B.Gauge>, g: B.Gauge, h: B.Gauge)
    requires Sees(acts, seen, g, h)
    ensures |acts| == |seen|
  {
  }

  lemma {:induction false} PlayNothing(limits: B.Gauge, w: B.Worker, seen: seq<B.Gauge>, g: B.Gauge, h: B.Gauge)
    requires Sees([], seen, g, h)
    ensures |seen| == 0 && Play(limits, w, [], seen) == w
  {
  }

  lemma {:induction false} AdmitPlays(
    c: Config, limits: B.Gauge, g: B.Gauge, h: B.Gauge, w: B.Worker, a: Assemblies, k: Key, f: U.Fragment, now: Time,
    created: bool, seen: seq<B.Gauge>)
    requires w.phase.Idle? && Matches(w.live, a) && k in a && f.sequence !in a[k].fragments
    requires Judge(c, a[k], f) == Admit && Sees(IntoScript(c, limits, h, a, k, f, now, created), seen, g, h)
    ensures var w' := Play(limits, w, IntoScript(c, limits, h, a, k, f, now, created), seen);
      w'.phase.Idle? && Matches(w'.live, PushInto(c, AsCounters(limits), AsCounters(h), a, k, f, now, created).0)
  {
    hide Judge, ReserveError, Stored, Finished, Delivered, Matches, Sees, RemoveScript, ReserveScript, Play;
    var error := ReserveError(c, AsCounters(limits), AsCounters(h), a, k, |f.payload|);
    var x := Stored(a[k], f, now);
    var first := ReserveScript(k, |f.payload|, error);
    var rest := if error.Some? then if created then RemoveScript(k, |a[k].fragments|) else []
                else if Finished(x) then RemoveScript(k, |x.fragments|) else [];
    SeesParts(first, rest, seen, g, h);
    SeesLength(first + rest, seen, g, h);
    PlayThen(limits, w, first, rest, seen);
    ReservePlays(c, limits, g, h, w, a, k, f, now, seen[..|first|]);
    var w1 := Play(limits, w, first, seen[..|first|]);
    var a1 := if error.Some? then a else a[k := x];
    var gone := if error.Some? then created else Finished(x);
    AfterwardsPlays(limits, g, h, w1, a1, k, gone, seen[|first|..]);
    assert a[k := x] - {k} == a - {k};
  }

  /** What follows the reservation: the assembly is removed, or nothing more happens. */
  lemma {:induction false} AfterwardsPlays(
    limits: B.Gauge, g: B.Gauge, h: B.Gauge, w: B.Worker, a: Assemblies, k: Key, gone: bool, seen: seq<B.Gauge>)
    requires w.phase.Idle? && Matches(w.live, a) && k in a
    requires Sees(if gone then RemoveScript(k, |a[k].fragments|) else [], seen, g, h)
    ensures var acts := if gone then RemoveScript(k, |a[k].fragments|) else [];
      && |acts| == |seen| && Play(limits, w, acts, seen).phase.Idle?
      && Matches(Play(limits, w, acts, seen).live, if gone then a - {k} else a)
  {
    hide RemoveScript, Play, Matches;
    if gone {
      RemovePlays(limits, w, a, k, seen);
    } else {
      PlayFirst(limits, w, [], seen);
    }
  }

  /** A push leaves its worker idle, with the reservations of the assemblies it leaves. */
  lemma {:induction false} PushPlays(
    c: Config, limits: B.Gauge, g: B.Gauge, h: B.Gauge, w: B.Worker, a: Assemblies, s: Session, f: U.Fragment,
    now: Time, seen: seq<B.Gauge>)
    requires w.phase.Idle? && Matches(w.live, a) && Sees(PushScript(c, limits, g, h, a, s, f, now), seen, g, h)
    ensures var w' := Play(limits, w, PushScript(c, limits, g, h, a, s, f, now), seen);
      && w'.phase.Idle?
      && Matches(w'.live, PushAt(c, AsCounters(limits), AsCounters(g), AsCounters(h), a, s, f, now).0)
  {
    hide IntoScript, PushInto, OpenError, Matches, Sees, OpenScript, U.HeaderLength;
    var k := Key(s, f.target, f.port);
    if 1 <= f.sequence <= c.maxFragmentsPerDatagram && k in a {
      IntoPlays(c, limits, g, h, w, a, k, f, now, false, seen);
    } else if 1 <= f.sequence <= c.maxFragmentsPerDatagram && f.sequence == 1 && U.HeaderLength(f.target).Ok? {
      OpeningPlays(c, limits, g, h, w, a, s, f, now, seen);
    } else {
      PlayNothing(limits, w, seen, g, h);
    }
  }

  lemma {:induction false} OpeningPlays(
    c: Config, limits: B.Gauge, g: B.Gauge, h: B.Gauge, w: B.Worker, a: Assemblies, s: Session, f: U.Fragment,
    now: Time, seen: seq<B.Gauge>)
    requires w.phase.Idle? && Matches(w.live, a) && Key(s, f.target, f.port) !in a
    requires f.sequence == 1 <= c.maxFragmentsPerDatagram && U.HeaderLength(f.target).Ok?
    requires Sees(PushScript(c, limits, g, h, a, s, f, now), seen, g, h)
    ensures var w' := Play(limits, w, PushScript(c, limits, g, h, a, s, f, now), seen);
      && w'.phase.Idle?
      && Matches(w'.live, PushAt(c, AsCounters(limits), AsCounters(g), AsCounters(h), a, s, f, now).0)
  {
    hide IntoScript, PushInto, OpenError, Matches, Sees, OpenScript, U.HeaderLength;
    var k, envelope := Key(s, f.target, f.port), U.HeaderLength(f.target).value;
    var error := OpenError(c, AsCounters(limits), AsCounters(g), a, s, envelope);
    var begun := a[k := Opened(f, envelope, now)];
    var first := OpenScript(k, envelope, error);
    var rest := if error.Some? then [] else IntoScript(c, limits, h, begun, k, f, now, true);
    SeesParts(first, rest, seen, g, h);
    SeesLength(first + rest, seen, g, h);
    PlayThen(limits, w, first, rest, seen);
    OpenPlays(c, limits, g, h, w, a, k, f, envelope, now, seen[..|first|]);
    var w1 := Play(limits, w, first, seen[..|first|]);
    if error.Some? {
      PlayNothing(limits, w1, seen[|first|..], g, h);
    } else {
      IntoPlays(c, limits, g, h, w1, begun, k, f, now, true, seen[|first|..]);
    }
  }

  // ---------------------------------------------------------------- expiry, discard and drop

  /** Removing several assemblies, one after the other. */
  function RemovalScript(a: Assemblies, order: seq<Key>): seq<B.Action>
    requires forall k :: k in order ==> k in a
  {
    if order == [] then [] else RemoveScript(order[0], |a[order[0]].fragments|) + RemovalScript(a, order[1..])
  }

  lemma {:induction false} RemovalPlays(
    limits: B.Gauge, w: B.Worker, a: Assemblies, order: seq<Key>, seen: seq<B.Gauge>)
    requires w.phase.Idle? && Matches(w.live, a) && Distinct(order) && forall k :: k in order ==> k in a
    requires |seen| == |RemovalScript(a, order)|
    ensures var w' := Play(limits, w, RemovalScript(a, order), seen);
      w'.phase.Idle? && Matches(w'.live, a - set k | k in order)
    decreases |order|
  {
    hide RemoveScript, Matches;
    if order == [] {
      assert a - (set k | k in order) == a;
    } else {
      var k, rest := order[0], order[1..];
      var first := RemoveScript(k, |a[k].fragments|);
      assert forall j :: j in rest ==> j in order && j != k;
      SameRemoval(a, k, rest);
      PlayThen(limits, w, first, RemovalScript(a, rest), seen);
      RemovePlays(limits, w, a, k, seen[..|first|]);
      assert Distinct(rest);
      RemovalPlays(limits, B.Worker(w.live - {k}, B.Idle), a - {k}, rest, seen[|first|..]);
      assert (set j | j in order) == {k} + (set j | j in rest);
      assert a - {k} - (set j | j in rest) == a - (set j | j in order);
    }
  }

  lemma {:induction false} SameRemoval(a: Assemblies, k: Key, order: seq<Key>)
    requires forall j :: j in order ==> j in a && j != k
    ensures RemovalScript(a - {k}, order) == RemovalScript(a, order)
  {
    hide RemoveScript;
    if order == [] {
    } else {
      assert order[0] in order && forall j :: j in order[1..] ==> j in order;
      SameRemoval(a, k, order[1..]);
    }
  }

  /** Expiry removes exactly the timed-out keys. */
  lemma {:induction false} ExpiryIs(c: Config, a: Assemblies, now: Time, order: seq<Key>)
    requires forall k :: k in order <==> k in a && TimedOut(a[k], c.timeout, now)
    ensures Expire(c, a, now) == a - set k | k in order
  {
  }

  /** The discard of a session removes exactly its keys. */
  lemma {:induction false} DiscardIs(a: Assemblies, s: Session, order: seq<Key>)
    requires forall k :: k in order <==> k in a && k.session == s
    ensures DiscardSession(a, s) == a - set k | k in order
  {
  }

  // ---------------------------------------------------------------- within the machine

  /** What an idle worker owes is what its assemblies hold. */
  lemma {:induction false} OwedIsHeld(w: B.Worker, a: Assemblies)
    requires w.phase.Idle? && Matches(w.live, a)
    ensures AsCounters(B.Owed(w)) == Held(a)
    decreases |a|
  {
    hide Held, B.LiveTotal, B.CostTotal;
    if a == map[] {
      HeldEmpty();
      assert w.live == map[];
      B.IdleWorker();
    } else {
      var k :| k in a;
      var rest := B.Worker(w.live - {k}, B.Idle);
      assert SameCost(w.live[k], a[k]);
      B.LiveRemove(w.live, k);
      HeldRemove(a, k);
      WithoutOne(w.live, a, k);
      OwedIsHeld(rest, a - {k});
      IdleOwesLive(w);
      IdleOwesLive(rest);
    }
  }

  lemma {:induction false} WithoutOne(live: map<Key, B.Cost>, a: Assemblies, k: Key)
    requires Matches(live, a) && k in a
    ensures Matches(live - {k}, a - {k}) && |a - {k}| < |a|
  {
    hide SameCost;
    assert (a - {k}).Keys == a.Keys - {k};
  }

  lemma {:induction false} IdleOwesLive(w: B.Worker)
    requires w.phase.Idle?
    ensures B.Owed(w) == B.LiveTotal(w.live)
  {
    hide B.LiveTotal;
  }

  lemma {:induction false} SoundAfter(limits: B.Gauge, world: B.World, schedule: seq<(nat, B.Action)>, n: nat)
    requires B.Sound(limits, world) && n <= |schedule|
    ensures B.Sound(limits, B.After(limits, world, schedule, n))
  {
    hide B.Sound, B.Step;
    if n == 0 {
    } else {
      SoundAfter(limits, world, schedule, n - 1);
      B.StepSound(limits, B.After(limits, world, schedule, n - 1), schedule[n - 1].0, schedule[n - 1].1);
    }
  }

  /**
   * A push inside the machine: while it runs its script, other workers may take any steps at any time. It
   * ends as the specification says for the counters its reservations saw, and every counter still equals
   * what all workers owe, this one owing what its assemblies hold.
   */
  lemma {:induction false} PushInMachine(
    c: Config, limits: B.Gauge, world: B.World, schedule: seq<(nat, B.Action)>, who: nat, g: B.Gauge, h: B.Gauge,
    a: Assemblies, s: Session, f: U.Fragment, now: Time)
    requires B.Sound(limits, world) && who in world.workers
    requires world.workers[who].phase.Idle? && Matches(world.workers[who].live, a)
    requires OwnActs(schedule, |schedule|, who) == PushScript(c, limits, g, h, a, s, f, now)
    requires Sees(PushScript(c, limits, g, h, a, s, f, now), OwnSeen(limits, world, schedule, |schedule|, who), g, h)
    ensures var end := B.After(limits, world, schedule, |schedule|);
      var b := PushAt(c, AsCounters(limits), AsCounters(g), AsCounters(h), a, s, f, now).0;
      && B.Sound(limits, end) && who in end.workers && end.workers[who].phase.Idle?
      && Matches(end.workers[who].live, b) && AsCounters(B.Owed(end.workers[who])) == Held(b)
  {
    hide PushScript, PushAt, Matches, Sees, B.Sound, B.Owed, Held;
    var seen := OwnSeen(limits, world, schedule, |schedule|, who);
    WorkerPlays(limits, world, schedule, |schedule|, who);
    PushPlays(c, limits, g, h, world.workers[who], a, s, f, now, seen);
    SoundAfter(limits, world, schedule, |schedule|);
    OwedIsHeld(
      B.After(limits, world, schedule, |schedule|).workers[who],
      PushAt(c, AsCounters(limits), AsCounters(g), AsCounters(h), a, s, f, now).0);
  }

  /** The same for expiry, discard and drop, which remove assemblies in some order. */
  lemma {:induction false} RemovalInMachine(
    limits: B.Gauge, world: B.World, schedule: seq<(nat, B.Action)>, who: nat, a: Assemblies, order: seq<Key>)
    requires B.Sound(limits, world) && who in world.workers
    requires world.workers[who].phase.Idle? && Matches(world.workers[who].live, a)
    requires Distinct(order) && forall k :: k in order ==> k in a
    requires OwnActs(schedule, |schedule|, who) == RemovalScript(a, order)
    ensures var end := B.After(limits, world, schedule, |schedule|);
      var b := a - set k | k in order;
      && B.Sound(limits, end) && who in end.workers && end.workers[who].phase.Idle?
      && Matches(end.workers[who].live, b) && AsCounters(B.Owed(end.workers[who])) == Held(b)
  {
    hide RemovalScript, Matches, B.Sound, B.Owed, Held;
    var seen := OwnSeen(limits, world, schedule, |schedule|, who);
    WorkerPlays(limits, world, schedule, |schedule|, who);
    RemovalPlays(limits, world.workers[who], a, order, seen);
    SoundAfter(limits, world, schedule, |schedule|);
    OwedIsHeld(B.After(limits, world, schedule, |schedule|).workers[who], a - set k | k in order);
  }

  /** Expiry inside the machine, whatever the order in which it meets the timed-out assemblies. */
  lemma {:induction false} ExpiryInMachine(
    c: Config, limits: B.Gauge, world: B.World, schedule: seq<(nat, B.Action)>, who: nat, a: Assemblies, now: Time,
    order: seq<Key>)
    requires B.Sound(limits, world) && who in world.workers
    requires world.workers[who].phase.Idle? && Matches(world.workers[who].live, a)
    requires Distinct(order) && forall k :: k in order <==> k in a && TimedOut(a[k], c.timeout, now)
    requires OwnActs(schedule, |schedule|, who) == RemovalScript(a, order)
    ensures var end := B.After(limits, world, schedule, |schedule|);
      var b := Expire(c, a, now);
      && B.Sound(limits, end) && who in end.workers && end.workers[who].phase.Idle?
      && Matches(end.workers[who].live, b) && AsCounters(B.Owed(end.workers[who])) == Held(b)
  {
    hide RemovalScript, Matches, B.Sound, B.Owed, Held, TimedOut, Expire;
    ExpiryIs(c, a, now, order);
    RemovalInMachine(limits, world, schedule, who, a, order);
  }

  /** The discard of a session inside the machine. */
  lemma {:induction false} DiscardInMachine(
    limits: B.Gauge, world: B.World, schedule: seq<(nat, B.Action)>, who: nat, a: Assemblies, s: Session,
    order: seq<Key>)
    requires B.Sound(limits, world) && who in world.workers
    requires world.workers[who].phase.Idle? && Matches(world.workers[who].live, a)
    requires Distinct(order) && forall k :: k in order <==> k in a && k.session == s
    requires OwnActs(schedule, |schedule|, who) == RemovalScript(a, order)
    ensures var end := B.After(limits, world, schedule, |schedule|);
      var b := DiscardSession(a, s);
      && B.Sound(limits, end) && who in end.workers && end.workers[who].phase.Idle?
      && Matches(end.workers[who].live, b) && AsCounters(B.Owed(end.workers[who])) == Held(b)
  {
    hide RemovalScript, Matches, B.Sound, B.Owed, Held, DiscardSession;
    DiscardIs(a, s, order);
    RemovalInMachine(limits, world, schedule, who, a, order);
  }
}
