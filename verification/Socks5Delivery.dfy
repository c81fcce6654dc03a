/**
 * A well-formed fragmented datagram is delivered: any arrival order that starts with fragment 1, stays
 * inside the reorder window and does not repeat the final fragment completes with its payload.
 */
module Socks5Delivery {
  import opened Wrappers
  import opened Bytes
  import opened Sequences
  import opened Socks5Reassembly
  import opened Socks5Invariant
  import opened Socks5Runs
  import U = Socks5Udp

  function Upto(n: nat): (s: set<nat>)
    ensures forall i :: i in s <==> 1 <= i <= n
  {
    if n == 0 then {} else Upto(n - 1) + {n}
  }

  /** Fragment `s` of the datagram whose payload is cut into `parts`. */
  predicate IsPart(f: U.Fragment, parts: seq<seq<Byte>>)
  {
    1 <= f.sequence <= |parts| && f.payload == parts[f.sequence - 1] && f.final == (f.sequence == |parts|)
  }

  function Expected(received: set<nat>, s: nat, k: Key, parts: seq<seq<Byte>>): Outcome
  {
    if s in received then Duplicate
    else if received + {s} == Upto(|parts|) then Complete(U.Datagram(k.target, k.port, Concat(parts)), true)
    else Pending
  }

  /**
   * Sequence `s` may arrive next: nothing more than `gap` places before it is missing, the final fragment
   * is not repeated, and without reordering only the latest fragment may be repeated.
   */
  predicate InWindow(gap: nat, received: set<nat>, s: nat, n: nat)
  {
    && (received == {} ==> s == 1)
    && (s in received ==> s != n)
    && (forall t :: 1 <= t < s - gap ==> t in received)
    && (gap == 0 ==> forall t :: t in received ==> t <= s)
  }

  /** The budgets accept this fragment of `k`. */
  ghost predicate RoomFor(c: Config, limits: Counters, a: Assemblies, e: Event, k: Key)
    requires PushOf(e, k)
  {
    if k in a then ReserveError(c, limits, e.h, a, k, |e.f.payload|) == None
    else
      && U.HeaderLength(k.target).Ok?
      && var envelope := U.HeaderLength(k.target).value;
         && OpenError(c, limits, e.g, a, k.session, envelope) == None
         && ReserveError(c, limits, e.h, a[k := Opened(e.f, envelope, e.at)], k, |e.f.payload|) == None
  }

  /** The assembly is not dropped, and a fragment of it that is not held yet finds room. */
  ghost predicate Undisturbed(c: Config, limits: Counters, a: Assemblies, e: Event, k: Key)
  {
    && (e.Expired? && k in a ==> !TimedOut(a[k], c.timeout, e.at))
    && (e.Discarded? ==> e.s != k.session)
    && (PushOf(e, k) && !(k in a && e.f.sequence in a[k].fragments) ==> RoomFor(c, limits, a, e, k))
  }

  /** The reassembler holds of `k` exactly the fragments `received`. */
  ghost predicate Tracks(a: Assemblies, k: Key, parts: seq<seq<Byte>>, received: set<nat>)
  {
    && received < Upto(|parts|)
    && (k in a <==> received != {})
    && (k in a ==> HoldsParts(a[k], parts, received))
  }

  predicate HoldsParts(x: Assembly, parts: seq<seq<Byte>>, received: set<nat>)
  {
    && x.fragments.Keys == received
    && (forall s :: s in received ==> 1 <= s <= |parts| && x.fragments[s] == parts[s - 1])
    && x.final == if |parts| in received then Some(|parts|) else None
  }

  // ---------------------------------------------------------------- single steps

  lemma {:induction false} RunCovers(fragments: Fragments, n: nat, s: nat, gap: nat)
    requires LongestRun(fragments, n) && forall t :: 1 <= t < s - gap ==> t in fragments
    ensures s <= n + gap + 1
  {
    assert s > n + gap + 1 ==> n + 1 in fragments;
  }

  lemma {:induction false} JudgePart(
    c: Config, k: Key, x: Assembly, f: U.Fragment, parts: seq<seq<Byte>>, received: set<nat>)
    requires Usable(c) && Shape(c, k, x) && HoldsParts(x, parts, received) && received < Upto(|parts|)
    requires IsPart(f, parts) && InWindow(c.maxReorderGap, received, f.sequence, |parts|)
    requires |parts| <= c.maxFragmentsPerDatagram
    ensures Judge(c, x, f) == if f.sequence in received then AlreadyHeld else Admit
  {
    hide PayloadSize, U.HeaderLength;
    if f.sequence !in received {
      RunCovers(x.fragments, x.contiguous, f.sequence, c.maxReorderGap);
    }
  }

  lemma {:induction false} StoredHolds(x: Assembly, f: U.Fragment, at: Time, parts: seq<seq<Byte>>, received: set<nat>)
    requires HoldsParts(x, parts, received) && IsPart(f, parts) && f.sequence !in received
    ensures HoldsParts(Stored(x, f, at), parts, received + {f.sequence})
  {
    hide Advance;
    var x' := Stored(x, f, at);
    assert x'.fragments.Keys == received + {f.sequence};
  }

  lemma {:induction false} AllPartsJoin(x: Assembly, parts: seq<seq<Byte>>)
    requires HoldsParts(x, parts, Upto(|parts|)) && parts != []
    ensures x.final == Some(|parts|) && Joined(x.fragments, |parts|) == Concat(parts)
  {
    var n := |parts|;
    PartsJoin(x.fragments, n);
    forall j | 0 <= j < n ensures PartsOf(x.fragments, n)[j] == parts[j] {
      assert j + 1 in Upto(n);
    }
    assert PartsOf(x.fragments, n) == parts;
    assert n in Upto(n);
  }

  lemma {:induction false} StorePart(
    c: Config, k: Key, x: Assembly, f: U.Fragment, at: Time, parts: seq<seq<Byte>>, received: set<nat>)
    requires Usable(c) && Shape(c, k, x) && HoldsParts(x, parts, received) && received < Upto(|parts|)
    requires IsPart(f, parts) && f.sequence !in received && Judge(c, x, f) == Admit
    requires |parts| <= c.maxFragmentsPerDatagram
    ensures var x' := Stored(x, f, at);
      && HoldsParts(x', parts, received + {f.sequence})
      && (Finished(x') <==> received + {f.sequence} == Upto(|parts|))
      && (Finished(x') ==> Delivered(x') == Complete(U.Datagram(k.target, k.port, Concat(parts)), true))
  {
    hide PayloadSize, U.HeaderLength, Judge, ValidateConfig, LongestRun, Stored;
    CompletesIff(c, k, x, f, at);
    StoredHolds(x, f, at, parts, received);
    StoredPlace(x, f, at);
    var x', all := Stored(x, f, at), received + {f.sequence};
    assert x'.fragments.Keys == all;
    assert |parts| + 1 !in all;
    if all == Upto(|parts|) {
      AllPartsJoin(x', parts);
    }
    if Finished(x') {
      assert all == Upto(|parts|);
    }
  }

  lemma {:induction false} PushIntoPart(
    c: Config, limits: Counters, g: Counters, a: Assemblies, k: Key, f: U.Fragment, at: Time, created: bool,
    parts: seq<seq<Byte>>, received: set<nat>)
    requires Usable(c) && k in a && Shape(c, k, a[k]) && HoldsParts(a[k], parts, received) && received < Upto(|parts|)
    requires IsPart(f, parts) && InWindow(c.maxReorderGap, received, f.sequence, |parts|)
    requires |parts| <= c.maxFragmentsPerDatagram
    requires f.sequence !in received ==> ReserveError(c, limits, g, a, k, |f.payload|) == None
    ensures var (b, r) := PushInto(c, limits, g, a, k, f, at, created);
      && r == Ok(Expected(received, f.sequence, k, parts))
      && (k in b <==> received + {f.sequence} != Upto(|parts|))
      && (k in b ==> HoldsParts(b[k], parts, received + {f.sequence}))
  {
    hide Shape, HoldsParts, Judge, Stored, Finished, Delivered, ReserveError, ValidateConfig, ConfigTyped;
    JudgePart(c, k, a[k], f, parts, received);
    if f.sequence in received {
      assert received + {f.sequence} == received;
    } else {
      StorePart(c, k, a[k], f, at, parts, received);
    }
  }

  /** One push of a fragment of `k` returns what is expected and is recorded. */
  lemma {:induction false} PushStep(
    c: Config, limits: Counters, a: Assemblies, e: Event, k: Key, parts: seq<seq<Byte>>, received: set<nat>)
    requires Usable(c) && Inv(c, a) && Tracks(a, k, parts, received) && Undisturbed(c, limits, a, e, k)
    requires PushOf(e, k) && IsPart(e.f, parts) && |parts| <= c.maxFragmentsPerDatagram
    requires InWindow(c.maxReorderGap, received, e.f.sequence, |parts|)
    ensures PushAt(c, limits, e.g, e.h, a, e.s, e.f, e.at).1 == Ok(Expected(received, e.f.sequence, k, parts))
    ensures var all, now := Upto(|parts|), received + {e.f.sequence};
      && (now != all ==> Tracks(Apply(c, limits, a, e), k, parts, now))
      && (now == all ==> k !in Apply(c, limits, a, e))
  {
    hide Inv, PushInto, OpenError, ReserveError, HoldsParts, U.HeaderLength, Expected, ValidateConfig, Shape;
    if k in a {
      assert Shape(c, k, a[k]) by { KeyAlmost(c, a, k); }
      assert a[k].fragments.Keys == received by { PartsHeld(a[k], parts, received); }
      PushIntoPart(c, limits, e.h, a, k, e.f, e.at, false, parts, received);
    } else {
      assert received == {} && e.f.sequence == 1;
      var envelope := U.HeaderLength(k.target).value;
      OpenFits(c, limits, e.g, a, k.session, envelope);
      OpenedShape(c, k, e.f, envelope, e.at);
      OpenedHolds(Opened(e.f, envelope, e.at), parts);
      PushIntoPart(c, limits, e.h, a[k := Opened(e.f, envelope, e.at)], k, e.f, e.at, true, parts, {});
    }
  }

  lemma {:induction false} PartsHeld(x: Assembly, parts: seq<seq<Byte>>, received: set<nat>)
    requires HoldsParts(x, parts, received)
    ensures x.fragments.Keys == received
  {
  }

  lemma {:induction false} OpenedHolds(x: Assembly, parts: seq<seq<Byte>>)
    requires x.fragments == map[] && x.final == None
    ensures HoldsParts(x, parts, {})
  {
  }

  lemma {:induction false} OtherStep(
    c: Config, limits: Counters, a: Assemblies, e: Event, k: Key, parts: seq<seq<Byte>>, received: set<nat>)
    requires Tracks(a, k, parts, received) && Undisturbed(c, limits, a, e, k) && !PushOf(e, k)
    ensures Tracks(Apply(c, limits, a, e), k, parts, received)
  {
    hide HoldsParts, OpenError, ReserveError, Judge, Stored, Finished, Delivered;
    StepEffect(c, limits, a, e, k);
  }

  // ---------------------------------------------------------------- whole runs

  /** Which sequence number of `k` an event pushes. */
  function SequenceMark(k: Key): Event -> Option<nat>
  {
    (e: Event) => if PushOf(e, k) then Some(e.f.sequence) else None
  }

  ghost function Received(run: seq<Event>, n: nat, k: Key): set<nat>
    requires n <= |run|
  {
    Marks(run, n, SequenceMark(k))
  }

  lemma {:induction false} NothingReceived(run: seq<Event>, k: Key)
    ensures Received(run, 0, k) == {}
  {
  }

  lemma {:induction false} ReceivedStep(run: seq<Event>, n: nat, k: Key)
    requires n < |run|
    ensures Received(run, n + 1, k) == Received(run, n, k) + if PushOf(run[n], k) then {run[n].f.sequence} else {}
  {
  }

  /** Every push of `k` carries a part, arrives inside the window and before completion. */
  ghost predicate WellFormed(c: Config, run: seq<Event>, k: Key, parts: seq<seq<Byte>>)
  {
    forall m :: 0 <= m < |run| && PushOf(run[m], k) ==>
      && IsPart(run[m].f, parts)
      && Received(run, m, k) != Upto(|parts|)
      && InWindow(c.maxReorderGap, Received(run, m, k), run[m].f.sequence, |parts|)
  }

  /** Until the datagram is complete, none of the first `n` events disturbs it. */
  ghost predicate Quiet(
    c: Config, limits: Counters, a: Assemblies, run: seq<Event>, n: nat, k: Key, parts: seq<seq<Byte>>)
    requires n <= |run|
  {
    forall m :: 0 <= m < n && Received(run, m, k) != Upto(|parts|) ==>
      Undisturbed(c, limits, After(c, limits, a, run, m), run[m], k)
  }

  ghost predicate AsExpected(
    c: Config, limits: Counters, a: Assemblies, run: seq<Event>, m: nat, k: Key, parts: seq<seq<Byte>>)
    requires m < |run|
  {
    PushOf(run[m], k) ==>
      ResultAt(c, limits, a, run, m) == Ok(Expected(Received(run, m, k), run[m].f.sequence, k, parts))
  }

  /** Before completion the run is tracked, and every push of `k` returns what is expected. */
  lemma {:induction false} Reassembly(
    c: Config, limits: Counters, a: Assemblies, run: seq<Event>, n: nat, k: Key, parts: seq<seq<Byte>>)
    requires Usable(c) && Inv(c, a) && k !in a && 1 <= |parts| <= c.maxFragmentsPerDatagram && n <= |run|
    requires WellFormed(c, run, k, parts) && Quiet(c, limits, a, run, n, k, parts)
    ensures Received(run, n, k) <= Upto(|parts|)
    ensures Received(run, n, k) != Upto(|parts|) ==> Tracks(After(c, limits, a, run, n), k, parts, Received(run, n, k))
    ensures forall m :: 0 <= m < n ==> AsExpected(c, limits, a, run, m, k, parts)
  {
    hide Inv, Apply, PushAt, Tracks, AsExpected, WellFormed, Undisturbed, Received, Usable;
    if n == 0 {
      NothingReceived(run, k);
      TracksNothing(a, k, parts);
    } else {
      Reassembly(c, limits, a, run, n - 1, k, parts);
      ReassemblyStep(c, limits, a, run, n - 1, k, parts);
    }
  }

  lemma {:induction false} TracksNothing(a: Assemblies, k: Key, parts: seq<seq<Byte>>)
    requires k !in a && parts != []
    ensures Tracks(a, k, parts, {})
  {
    assert 1 in Upto(|parts|);
  }

  lemma {:induction false} ReassemblyStep(
    c: Config, limits: Counters, a: Assemblies, run: seq<Event>, n: nat, k: Key, parts: seq<seq<Byte>>)
    requires Usable(c) && Inv(c, a) && |parts| <= c.maxFragmentsPerDatagram && n < |run|
    requires WellFormed(c, run, k, parts) && Quiet(c, limits, a, run, n + 1, k, parts)
    requires var all, received := Upto(|parts|), Received(run, n, k);
      received <= all && (received != all ==> Tracks(After(c, limits, a, run, n), k, parts, received))
    ensures var all, received := Upto(|parts|), Received(run, n + 1, k);
      received <= all && (received != all ==> Tracks(After(c, limits, a, run, n + 1), k, parts, received))
    ensures AsExpected(c, limits, a, run, n, k, parts)
  {
    hide Inv, Apply, PushAt, Undisturbed, IsPart, InWindow, Tracks, Usable, Expected, Received;
    var prior, e, received := After(c, limits, a, run, n), run[n], Received(run, n, k);
    assert received != Upto(|parts|) ==> Undisturbed(c, limits, prior, e, k);
    ReceivedStep(run, n, k);
    if PushOf(e, k) {
      InvAfter(c, limits, a, run, n);
      assert e.f.sequence in Upto(|parts|) by { PartInRange(e.f, parts); }
      PushStep(c, limits, prior, e, k, parts, received);
    } else {
      assert Received(run, n + 1, k) == received;
      if received != Upto(|parts|) {
        OtherStep(c, limits, prior, e, k, parts, received);
      }
    }
  }

  lemma {:induction false} PartInRange(f: U.Fragment, parts: seq<seq<Byte>>)
    requires IsPart(f, parts)
    ensures 1 <= f.sequence <= |parts|
  {
  }

  /** The last push of `k` delivers the whole datagram; all before it are pending or duplicates. */
  ghost predicate OnlyDelivery(
    c: Config, limits: Counters, a: Assemblies, run: seq<Event>, k: Key, parts: seq<seq<Byte>>, m: nat)
    requires m < |run|
  {
    && PushOf(run[m], k)
    && ResultAt(c, limits, a, run, m) == Ok(Complete(U.Datagram(k.target, k.port, Concat(parts)), true))
    && forall h :: 0 <= h < |run| && h != m && PushOf(run[h], k) ==>
      && h < m
      && (ResultAt(c, limits, a, run, h) == Ok(Pending) || ResultAt(c, limits, a, run, h) == Ok(Duplicate))
  }

  /**
   * The push that supplies the last missing part delivers the datagram, in order and whole, and every
   * earlier push of it was pending or a duplicate.
   */
  lemma {:induction false} WellFormedIsDelivered(
    c: Config, limits: Counters, a: Assemblies, run: seq<Event>, k: Key, parts: seq<seq<Byte>>)
    requires Usable(c) && Inv(c, a) && k !in a && 1 <= |parts| <= c.maxFragmentsPerDatagram
    requires WellFormed(c, run, k, parts) && Quiet(c, limits, a, run, |run|, k, parts)
    requires Received(run, |run|, k) == Upto(|parts|)
    ensures exists m :: 0 <= m < |run| && OnlyDelivery(c, limits, a, run, k, parts, m)
  {
    hide Inv, Apply, PushAt, Undisturbed, IsPart, InWindow, Quiet, Usable, Marks, After;
    Reassembly(c, limits, a, run, |run|, k, parts);
    var all := Upto(|parts|);
    assert 1 in all;
    var m := LastMark(run, |run|, SequenceMark(k), all);
    assert AsExpected(c, limits, a, run, m, k, parts);
    ReceivedStep(run, m, k);
    forall h | 0 <= h < |run| && h != m && PushOf(run[h], k)
      ensures h < m
      ensures (ResultAt(c, limits, a, run, h) == Ok(Pending) || ResultAt(c, limits, a, run, h) == Ok(Duplicate))
    {
      assert AsExpected(c, limits, a, run, h, k, parts);
      ReceivedStep(run, h, k);
      if h > m {
        MarksGrow(run, m + 1, h, SequenceMark(k));
        MarksGrow(run, h, |run|, SequenceMark(k));
        assert false;
      }
      MarksGrow(run, h + 1, m, SequenceMark(k));
      MarksGrow(run, m, |run|, SequenceMark(k));
    }
    assert OnlyDelivery(c, limits, a, run, k, parts, m);
  }

  // ---------------------------------------------------------------- deliveries do not share fragments

  /** Two deliveries of one key are built from disjoint stretches of the run. */
  lemma {:induction false} DeliveriesDisjoint(
    c: Config, limits: Counters, run: seq<Event>, i: nat, j: nat, d: U.Datagram, d': U.Datagram)
    returns (start: nat, parts: seq<seq<Byte>>)
    requires Usable(c) && i < j < |run| && run[i].Pushed? && run[j].Pushed? && KeyOf(run[i]) == KeyOf(run[j])
    requires ResultAt(c, limits, map[], run, i) == Ok(Complete(d, true))
    requires ResultAt(c, limits, map[], run, j) == Ok(Complete(d', true))
    ensures i < start && d'.payload == Concat(parts) && Genuine(c, limits, run, start, j, KeyOf(run[j]), parts)
  {
    hide Apply, PushAt, Genuine, Usable;
    start, parts := DeliveryIsGenuine(c, limits, run, j, d');
    DeliveryRemoves(c, limits, run, i, d);
    if start <= i { assert false; }
  }

  lemma {:induction false} DeliveryRemoves(c: Config, limits: Counters, run: seq<Event>, i: nat, d: U.Datagram)
    requires i < |run| && run[i].Pushed? && ResultAt(c, limits, map[], run, i) == Ok(Complete(d, true))
    ensures KeyOf(run[i]) !in After(c, limits, map[], run, i + 1)
  {
    hide PushAt;
    DeliveryEffect(c, limits, After(c, limits, map[], run, i), run[i], d);
  }
}
