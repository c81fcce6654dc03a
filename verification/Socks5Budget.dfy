/**
 * The process-wide SOCKS5 fragment budget as it is really used: any number of reassemblers, each
 * working through its reservations and releases one atomic counter update at a time, interleaved in
 * any way at all.
 */
module Socks5Budget {
  import opened Wrappers
  import opened MapSum
  import opened Socks5Reassembly

  // ---------------------------------------------------------------- one counter

  /** An atomic reservation: refused, without effect, when it would pass the limit. */
  function TryReserve(current: nat, limit: nat, amount: nat): Option<nat>
  {
    if current + amount <= limit then Some(current + amount) else None
  }

  /** An atomic release, which saturates at zero. */
  function Release(current: nat, amount: nat): nat
  {
    SatSub(current, amount)
  }

  // ---------------------------------------------------------------- the machine

  /** What an assembly has reserved: its envelope and the size of each stored fragment. */
  datatype Cost = Cost(envelope: nat, sizes: seq<nat>)

  datatype Counter = Inflight | FragmentSlots | Bytes

  datatype Amount = Amount(counter: Counter, n: nat)

  /** What a reassembler is in the middle of; between operations it is idle. */
  datatype Phase =
    | Idle
    | DatagramReserved(k: Key, envelope: nat)
    | UndoingDatagram
    | SlotReserved(k: Key, size: nat)
    | UndoingSlot
    | Releasing(left: seq<Amount>)

  datatype Worker = Worker(live: map<Key, Cost>, phase: Phase)

  datatype Gauge = Gauge(inflight: nat, fragments: nat, bytes: nat) {
    function Get(c: Counter): nat
    {
      match c case Inflight => inflight case FragmentSlots => fragments case Bytes => bytes
    }

    function Set(c: Counter, n: nat): Gauge
    {
      match c
      case Inflight => this.(inflight := n)
      case FragmentSlots => this.(fragments := n)
      case Bytes => this.(bytes := n)
    }

    function Add(o: Gauge): Gauge
    {
      Gauge(inflight + o.inflight, fragments + o.fragments, bytes + o.bytes)
    }

    predicate Within(o: Gauge)
    {
      inflight <= o.inflight && fragments <= o.fragments && bytes <= o.bytes
    }
  }

  const NOTHING := Gauge(0, 0, 0)

  datatype World = World(gauge: Gauge, workers: map<nat, Worker>)

  datatype Action =
    | ReserveDatagram(k: Key, envelope: nat)
    | ReserveEnvelope
    | UndoDatagram
    | ReserveSlot(k: Key, size: nat)
    | ReserveBytes
    | UndoSlot
    | Remove(k: Key)
    | ReleaseNext

  /** The counter updates that return an assembly's reservations, in the order they are made. */
  function ReleasePlan(c: Cost): seq<Amount>
  {
    [Amount(Inflight, 1), Amount(Bytes, c.envelope)] + SlotReleases(c.sizes)
  }

  function SlotReleases(sizes: seq<nat>): seq<Amount>
  {
    if sizes == [] then [] else [Amount(FragmentSlots, 1), Amount(Bytes, sizes[0])] + SlotReleases(sizes[1..])
  }

  /** One atomic step of worker `w`; a step that is not possible in its phase changes nothing. */
  function Move(limits: Gauge, g: Gauge, w: Worker, act: Action): (Gauge, Worker)
  {
    match act
    case ReserveDatagram(k, envelope) =>
      if !w.phase.Idle? || k in w.live then (g, w)
      else (match TryReserve(g.inflight, limits.inflight, 1)
            case None => (g, w)
            case Some(n) => (g.(inflight := n), w.(phase := DatagramReserved(k, envelope))))
    case ReserveEnvelope =>
      if !w.phase.DatagramReserved? then (g, w)
      else (match TryReserve(g.bytes, limits.bytes, w.phase.envelope)
            case None => (g, w.(phase := UndoingDatagram))
            case Some(n) => (g.(bytes := n), Worker(w.live[w.phase.k := Cost(w.phase.envelope, [])], Idle)))
    case UndoDatagram =>
      if !w.phase.UndoingDatagram? then (g, w)
      else (g.(inflight := Release(g.inflight, 1)), w.(phase := Idle))
    case ReserveSlot(k, size) =>
      if !w.phase.Idle? || k !in w.live then (g, w)
      else (match TryReserve(g.fragments, limits.fragments, 1)
            case None => (g, w)
            case Some(n) => (g.(fragments := n), w.(phase := SlotReserved(k, size))))
    case ReserveBytes =>
      if !w.phase.SlotReserved? || w.phase.k !in w.live then (g, w)
      else (match TryReserve(g.bytes, limits.bytes, w.phase.size)
            case None => (g, w.(phase := UndoingSlot))
            case Some(n) =>
              var cost := w.live[w.phase.k];
              (g.(bytes := n), Worker(w.live[w.phase.k := cost.(sizes := cost.sizes + [w.phase.size])], Idle)))
    case UndoSlot =>
      if !w.phase.UndoingSlot? then (g, w)
      else (g.(fragments := Release(g.fragments, 1)), w.(phase := Idle))
    case Remove(k) =>
      if !w.phase.Idle? || k !in w.live then (g, w)
      else (g, Worker(w.live - {k}, Releasing(ReleasePlan(w.live[k]))))
    case ReleaseNext =>
      if !w.phase.Releasing? then (g, w)
      else if w.phase.left == [] then (g, w.(phase := Idle))
      else
        var next := w.phase.left[0];
        (g.Set(next.counter, Release(g.Get(next.counter), next.n)), w.(phase := Releasing(w.phase.left[1..])))
  }

  function Step(limits: Gauge, world: World, who: nat, act: Action): World
  {
    if who !in world.workers then world
    else
      var (g, w) := Move(limits, world.gauge, world.workers[who], act);
      World(g, world.workers[who := w])
  }

  function After(limits: Gauge, world: World, schedule: seq<(nat, Action)>, n: nat): World
    requires n <= |schedule|
  {
    if n == 0 then world
    else Step(limits, After(limits, world, schedule, n - 1), schedule[n - 1].0, schedule[n - 1].1)
  }

  // ---------------------------------------------------------------- who owes what

  function SumSeq(sizes: seq<nat>): nat
  {
    if sizes == [] then 0 else sizes[0] + SumSeq(sizes[1..])
  }

  function CostTotal(c: Cost): Gauge
  {
    Gauge(1, |c.sizes|, c.envelope + SumSeq(c.sizes))
  }

  function AmountsTotal(amounts: seq<Amount>): Gauge
  {
    if amounts == [] then NOTHING
    else NOTHING.Set(amounts[0].counter, amounts[0].n).Add(AmountsTotal(amounts[1..]))
  }

  /** What the worker has taken and not yet returned outside its live assemblies. */
  function InProgress(p: Phase): Gauge
  {
    match p
    case Idle => NOTHING
    case DatagramReserved(_, _) => Gauge(1, 0, 0)
    case UndoingDatagram => Gauge(1, 0, 0)
    case SlotReserved(_, _) => Gauge(0, 1, 0)
    case UndoingSlot => Gauge(0, 1, 0)
    case Releasing(left) => AmountsTotal(left)
  }

  ghost function Per(live: map<Key, Cost>, c: Counter): map<Key, nat>
  {
    map k | k in live :: CostTotal(live[k]).Get(c)
  }

  ghost function LiveTotal(live: map<Key, Cost>): Gauge
  {
    Gauge(Sum(Per(live, Inflight)), Sum(Per(live, FragmentSlots)), Sum(Per(live, Bytes)))
  }

  ghost function Owed(w: Worker): Gauge
  {
    LiveTotal(w.live).Add(InProgress(w.phase))
  }

  ghost function OwedPer(workers: map<nat, Worker>, c: Counter): map<nat, nat>
  {
    map r | r in workers :: Owed(workers[r]).Get(c)
  }

  ghost function TotalOwed(workers: map<nat, Worker>): Gauge
  {
    Gauge(Sum(OwedPer(workers, Inflight)), Sum(OwedPer(workers, FragmentSlots)), Sum(OwedPer(workers, Bytes)))
  }

  /** Each global counter is exactly what the workers owe, and none is above its limit. */
  ghost predicate Balanced(limits: Gauge, world: World)
  {
    world.gauge == TotalOwed(world.workers) && world.gauge.Within(limits)
  }

  /** A worker mid-way through adding to an assembly still has that assembly, and none twice. */
  predicate Coherent(w: Worker)
  {
    && (w.phase.SlotReserved? ==> w.phase.k in w.live)
    && (w.phase.DatagramReserved? ==> w.phase.k !in w.live)
  }

  ghost predicate Sound(limits: Gauge, world: World)
  {
    Balanced(limits, world) && forall r :: r in world.workers ==> Coherent(world.workers[r])
  }

  // ---------------------------------------------------------------- sums

  lemma {:induction false} LiveInsert(live: map<Key, Cost>, k: Key, c: Cost)
    requires k !in live
    ensures LiveTotal(live[k := c]) == LiveTotal(live).Add(CostTotal(c))
  {
    hide SumSeq;
    forall r ensures Per(live[k := c], r) == Per(live, r)[k := CostTotal(c).Get(r)] && k !in Per(live, r) {
    }
    SumInsert(Per(live, Inflight), k, 1);
    SumInsert(Per(live, FragmentSlots), k, |c.sizes|);
    SumInsert(Per(live, Bytes), k, CostTotal(c).bytes);
  }

  lemma {:induction false} LiveRemove(live: map<Key, Cost>, k: Key)
    requires k in live
    ensures LiveTotal(live) == LiveTotal(live - {k}).Add(CostTotal(live[k]))
  {
    hide LiveTotal;
    LiveInsert(live - {k}, k, live[k]);
    PutBack(live, k, live[k]);
  }

  lemma {:induction false} SumSeqAppend(sizes: seq<nat>, n: nat)
    ensures SumSeq(sizes + [n]) == SumSeq(sizes) + n
  {
    if sizes == [] {
    } else {
      assert (sizes + [n])[1..] == sizes[1..] + [n];
      SumSeqAppend(sizes[1..], n);
    }
  }

  lemma {:induction false} LiveGrow(live: map<Key, Cost>, k: Key, size: nat)
    requires k in live
    ensures LiveTotal(live[k := live[k].(sizes := live[k].sizes + [size])]) == LiveTotal(live).Add(Gauge(0, 1, size))
  {
    hide LiveTotal;
    var grown := live[k].(sizes := live[k].sizes + [size]);
    LiveRemove(live, k);
    LiveInsert(live - {k}, k, grown);
    PutBack(live, k, grown);
    SumSeqAppend(live[k].sizes, size);
  }

  lemma {:induction false} SlotReleasesTotal(sizes: seq<nat>)
    ensures AmountsTotal(SlotReleases(sizes)) == Gauge(0, |sizes|, SumSeq(sizes))
  {
    if sizes == [] {
    } else {
      SlotReleasesTotal(sizes[1..]);
      var plan := SlotReleases(sizes);
      assert plan[1..] == [Amount(Bytes, sizes[0])] + SlotReleases(sizes[1..]);
      assert plan[1..][1..] == SlotReleases(sizes[1..]);
      assert AmountsTotal(plan[1..]) == Gauge(0, 0, sizes[0]).Add(AmountsTotal(SlotReleases(sizes[1..])));
    }
  }

  /** The release plan returns exactly what the assembly reserved. */
  lemma {:induction false} ReleasePlanTotal(c: Cost)
    ensures AmountsTotal(ReleasePlan(c)) == CostTotal(c)
  {
    SlotReleasesTotal(c.sizes);
    var plan := ReleasePlan(c);
    assert plan[1..] == [Amount(Bytes, c.envelope)] + SlotReleases(c.sizes);
    assert plan[1..][1..] == SlotReleases(c.sizes);
    assert AmountsTotal(plan[1..]) == Gauge(0, 0, c.envelope).Add(AmountsTotal(SlotReleases(c.sizes)));
  }

  lemma {:induction false} OwedUpdate(workers: map<nat, Worker>, who: nat, w: Worker)
    requires who in workers
    ensures TotalOwed(workers[who := w]).Add(Owed(workers[who])) == TotalOwed(workers).Add(Owed(w))
  {
    hide Owed;
    forall c ensures OwedPer(workers[who := w], c) == OwedPer(workers, c)[who := Owed(w).Get(c)] {
    }
    SumReplace(OwedPer(workers, Inflight), who, Owed(w).inflight);
    SumReplace(OwedPer(workers, FragmentSlots), who, Owed(w).fragments);
    SumReplace(OwedPer(workers, Bytes), who, Owed(w).bytes);
  }

  lemma {:induction false} OwedWithin(workers: map<nat, Worker>, who: nat)
    requires who in workers
    ensures Owed(workers[who]).Within(TotalOwed(workers))
  {
    hide Owed;
    SumRemove(OwedPer(workers, Inflight), who);
    SumRemove(OwedPer(workers, FragmentSlots), who);
    SumRemove(OwedPer(workers, Bytes), who);
  }

  // ---------------------------------------------------------------- every step is balanced

  /** No release ever asks for more than the counter holds, so none saturates. */
  predicate NoUnderflow(g: Gauge, w: Worker)
  {
    && (w.phase.UndoingDatagram? ==> g.inflight >= 1)
    && (w.phase.UndoingSlot? ==> g.fragments >= 1)
    && (w.phase.Releasing? && w.phase.left != [] ==> g.Get(w.phase.left[0].counter) >= w.phase.left[0].n)
  }

  lemma {:induction false} EnoughToRelease(g: Gauge, w: Worker)
    requires Owed(w).Within(g)
    ensures NoUnderflow(g, w)
  {
    hide LiveTotal;
  }

  /** A move changes the counters by exactly the change in what its worker owes. */
  lemma {:induction false} MoveBalanced(limits: Gauge, g: Gauge, w: Worker, act: Action)
    requires Owed(w).Within(g) && g.Within(limits) && Coherent(w)
    ensures var (g', w') := Move(limits, g, w, act); g'.Add(Owed(w)) == g.Add(Owed(w')) && g'.Within(limits)
  {
    hide LiveTotal, ReleasePlan, AmountsTotal, SumSeq;
    match act
    case ReserveDatagram(k, envelope) =>
    case ReserveEnvelope =>
      if w.phase.DatagramReserved? {
        LiveInsert(w.live, w.phase.k, Cost(w.phase.envelope, []));
        NoSizes();
      }
    case UndoDatagram =>
    case ReserveSlot(k, size) =>
    case ReserveBytes =>
      if w.phase.SlotReserved? {
        LiveGrow(w.live, w.phase.k, w.phase.size);
      }
    case UndoSlot =>
    case Remove(k) =>
      if w.phase.Idle? && k in w.live {
        LiveRemove(w.live, k);
        ReleasePlanTotal(w.live[k]);
      }
    case ReleaseNext =>
      if w.phase.Releasing? {
        ReleaseBalanced(limits, g, w);
      }
  }

  lemma {:induction false} NoSizes()
    ensures SumSeq([]) == 0
  {
  }

  lemma {:induction false} ReleaseBalanced(limits: Gauge, g: Gauge, w: Worker)
    requires Owed(w).Within(g) && g.Within(limits) && w.phase.Releasing?
    ensures var (g', w') := Move(limits, g, w, ReleaseNext); g'.Add(Owed(w)) == g.Add(Owed(w')) && g'.Within(limits)
  {
    hide LiveTotal;
    EnoughToRelease(g, w);
  }

  lemma {:induction false} MoveCoherent(limits: Gauge, g: Gauge, w: Worker, act: Action)
    requires Coherent(w)
    ensures Coherent(Move(limits, g, w, act).1)
  {
    hide LiveTotal, ReleasePlan;
  }

  lemma {:induction false} StepSound(limits: Gauge, world: World, who: nat, act: Action)
    requires Sound(limits, world)
    ensures Sound(limits, Step(limits, world, who, act))
  {
    hide Move, TotalOwed, Owed, Coherent;
    if who in world.workers {
      var w := world.workers[who];
      OwedWithin(world.workers, who);
      MoveBalanced(limits, world.gauge, w, act);
      MoveCoherent(limits, world.gauge, w, act);
      var (g', w') := Move(limits, world.gauge, w, act);
      OwedUpdate(world.workers, who, w');
    }
  }

  predicate Fresh(world: World)
  {
    world.gauge == NOTHING && forall r :: r in world.workers ==> world.workers[r] == Worker(map[], Idle)
  }

  lemma {:induction false} IdleWorker()
    ensures Owed(Worker(map[], Idle)) == NOTHING
  {
    hide CostTotal;
    assert Per(map[], Inflight) == map[] && Per(map[], FragmentSlots) == map[] && Per(map[], Bytes) == map[];
  }

  lemma {:induction false} IdleOwesNothing(workers: map<nat, Worker>)
    requires forall r :: r in workers ==> workers[r] == Worker(map[], Idle)
    ensures TotalOwed(workers) == NOTHING
  {
    hide Sum, Owed;
    IdleWorker();
    SumZero(OwedPer(workers, Inflight));
    SumZero(OwedPer(workers, FragmentSlots));
    SumZero(OwedPer(workers, Bytes));
  }

  /**
   * Under every interleaving of every number of reassemblers: each counter equals what live assemblies
   * and unfinished operations hold, never passes its limit, and no release in progress can underflow.
   */
  lemma {:induction false} BudgetIsSound(limits: Gauge, world: World, schedule: seq<(nat, Action)>, n: nat)
    requires Fresh(world) && n <= |schedule|
    ensures Sound(limits, After(limits, world, schedule, n))
    ensures var now := After(limits, world, schedule, n);
      forall r :: r in now.workers ==> NoUnderflow(now.gauge, now.workers[r])
  {
    hide Step, NoUnderflow, TotalOwed, Owed;
    if n == 0 {
      IdleOwesNothing(world.workers);
      NothingWithin(limits);
      FreshCoherent(world);
    } else {
      BudgetIsSound(limits, world, schedule, n - 1);
      StepSound(limits, After(limits, world, schedule, n - 1), schedule[n - 1].0, schedule[n - 1].1);
    }
    var now := After(limits, world, schedule, n);
    forall r | r in now.workers ensures NoUnderflow(now.gauge, now.workers[r]) {
      OwedWithin(now.workers, r);
      EnoughToRelease(now.gauge, now.workers[r]);
    }
  }

  lemma {:induction false} NothingWithin(limits: Gauge)
    ensures NOTHING.Within(limits)
  {
  }

  lemma {:induction false} FreshCoherent(world: World)
    requires Fresh(world)
    ensures forall r :: r in world.workers ==> Coherent(world.workers[r])
  {
  }

  /** Once every assembly is gone and no operation is unfinished, every counter is back to zero. */
  lemma {:induction false} BudgetDrains(limits: Gauge, world: World, schedule: seq<(nat, Action)>)
    requires Fresh(world)
    ensures var end := After(limits, world, schedule, |schedule|);
      (forall r :: r in end.workers ==> end.workers[r] == Worker(map[], Idle)) ==> end.gauge == NOTHING
  {
    hide Step, TotalOwed, NoUnderflow;
    BudgetIsSound(limits, world, schedule, |schedule|);
    var end := After(limits, world, schedule, |schedule|);
    if forall r :: r in end.workers ==> end.workers[r] == Worker(map[], Idle) {
      IdleOwesNothing(end.workers);
    }
  }
}
