/** What every reachable set of assemblies satisfies, and exactly when an assembly completes. */
module Socks5Invariant {
  import opened Wrappers
  import opened Bytes
  import opened MapSum
  import opened Socks5Reassembly
  import U = Socks5Udp

  /** The stored sequences 1 to `n` form an unbroken run that cannot be extended. */
  predicate LongestRun(fragments: Fragments, n: nat)
  {
    (forall s :: 1 <= s <= n ==> s in fragments) && n + 1 !in fragments
  }

  /** Bookkeeping of one assembly that may still be empty. */
  ghost predicate Shape(c: Config, k: Key, x: Assembly)
  {
    && x.target == k.target && x.port == k.port
    && U.HeaderLength(x.target) == Ok(x.bytes - x.payloadBytes)
    && x.payloadBytes == PayloadSize(x.fragments)
    && x.bytes <= c.maxBytesPerDatagram && |x.fragments| <= c.maxFragmentsPerDatagram
    && (forall s :: s in x.fragments ==> 1 <= s <= x.highest)
    && x.highest <= c.maxFragmentsPerDatagram
    && (if x.fragments == map[] then x.highest == 0 else x.highest in x.fragments)
    && LongestRun(x.fragments, x.contiguous)
    && (x.final.Some? ==> x.final.value in x.fragments)
    && (c.maxReorderGap == 0 ==> x.contiguous == x.highest)
  }

  ghost predicate AssemblyOk(c: Config, k: Key, x: Assembly)
  {
    Shape(c, k, x) && x.fragments != map[] && !Finished(x)
  }

  ghost predicate AllOk(c: Config, a: Assemblies)
  {
    forall k :: k in a ==> AssemblyOk(c, k, a[k])
  }

  ghost predicate SessionsWithin(c: Config, a: Assemblies)
  {
    forall s :: SessionWithin(c, a, s)
  }

  ghost predicate SessionWithin(c: Config, a: Assemblies, s: Session)
  {
    Held(Only(a, s)).Within(c.perSession)
  }

  ghost predicate Inv(c: Config, a: Assemblies)
  {
    AllOk(c, a) && SessionsWithin(c, a)
  }

  predicate Usable(c: Config)
  {
    ValidateConfig(c) == None && ConfigTyped(c)
  }

  // ---------------------------------------------------------------- one assembly

  lemma {:induction false} AdvanceRuns(fragments: Fragments, from: nat)
    requires from <= MAX_SEQUENCE && forall s :: 1 <= s <= from ==> s in fragments
    requires forall s :: s in fragments ==> s <= MAX_SEQUENCE
    ensures LongestRun(fragments, Advance(fragments, from)) && from <= Advance(fragments, from)
    decreases MAX_SEQUENCE - from
  {
    if from + 1 in fragments {
      AdvanceRuns(fragments, from + 1);
    }
  }

  lemma {:induction false} PayloadSizeInsert(fragments: Fragments, s: nat, payload: seq<Byte>)
    requires s !in fragments
    ensures PayloadSize(fragments[s := payload]) == PayloadSize(fragments) + |payload|
  {
    assert Sizes(fragments[s := payload]) == Sizes(fragments)[s := |payload|];
    SumInsert(Sizes(fragments), s, |payload|);
  }

  /** With no reordering allowed, the only admissible fragment is the next in sequence. */
  lemma {:induction false} StrictNext(c: Config, k: Key, x: Assembly, f: U.Fragment)
    requires Usable(c) && Shape(c, k, x) && Judge(c, x, f) == Admit && c.maxReorderGap == 0 && f.sequence >= 1
    ensures f.sequence == x.highest + 1
  {
    hide PayloadSize;
  }

  lemma {:induction false} StoredRuns(c: Config, k: Key, x: Assembly, f: U.Fragment, now: Time)
    requires Usable(c) && Shape(c, k, x) && Judge(c, x, f) == Admit && 1 <= f.sequence <= c.maxFragmentsPerDatagram
    ensures var x' := Stored(x, f, now);
      && LongestRun(x'.fragments, x'.contiguous)
      && (c.maxReorderGap == 0 ==> x'.contiguous == x'.highest)
  {
    hide PayloadSize;
    var fragments := x.fragments[f.sequence := f.payload];
    AdvanceRuns(fragments, x.contiguous);
    if c.maxReorderGap == 0 {
      StrictNext(c, k, x, f);
      var n := Advance(fragments, x.contiguous);
      assert n + 1 !in fragments && n >= x.contiguous;
      assert forall s :: s in fragments ==> s <= x.highest + 1;
      assert n > x.contiguous;
      assert n in fragments;
    }
  }

  lemma {:induction false} StoredKeepsShape(c: Config, k: Key, x: Assembly, f: U.Fragment, now: Time)
    requires Usable(c) && Shape(c, k, x) && Judge(c, x, f) == Admit && 1 <= f.sequence <= c.maxFragmentsPerDatagram
    requires |x.fragments| < c.maxFragmentsPerDatagram && x.bytes + |f.payload| <= c.maxBytesPerDatagram
    ensures Shape(c, k, Stored(x, f, now)) && Stored(x, f, now).fragments != map[]
    ensures CostOf(Stored(x, f, now)) == CostOf(x).Plus(Counters(0, 1, |f.payload|))
  {
    hide PayloadSize, Advance, LongestRun, ValidateConfig;
    StoredRuns(c, k, x, f, now);
    PayloadSizeInsert(x.fragments, f.sequence, f.payload);
    var fragments := x.fragments[f.sequence := f.payload];
    assert fragments.Keys == x.fragments.Keys + {f.sequence};
    assert f.sequence in fragments;
  }

  /**
   * An admitted fragment completes its datagram exactly when a final sequence is known, every sequence
   * up to it is stored, and the one after it is not.
   */
  lemma {:induction false} CompletesIff(c: Config, k: Key, x: Assembly, f: U.Fragment, now: Time)
    requires Usable(c) && Shape(c, k, x) && Judge(c, x, f) == Admit && 1 <= f.sequence <= c.maxFragmentsPerDatagram
    ensures var x' := Stored(x, f, now);
      Finished(x') <==>
        && x'.final.Some?
        && (forall s :: 1 <= s <= x'.final.value ==> s in x'.fragments)
        && x'.final.value + 1 !in x'.fragments
  {
    hide PayloadSize, Advance, ValidateConfig;
    StoredRuns(c, k, x, f, now);
    var x' := Stored(x, f, now);
    if x'.final.Some? {
      var n := x'.final.value;
      if (forall s :: 1 <= s <= n ==> s in x'.fragments) && n + 1 !in x'.fragments {
        LongestRunUnique(x'.fragments, n, x'.contiguous);
      }
    }
  }

  lemma {:induction false} LongestRunUnique(fragments: Fragments, m: nat, n: nat)
    requires LongestRun(fragments, m) && LongestRun(fragments, n)
    ensures m == n
  {
    assert m < n ==> m + 1 in fragments;
    assert n < m ==> n + 1 in fragments;
  }

  lemma {:induction false} OpenedShape(c: Config, k: Key, f: U.Fragment, envelope: nat, now: Time)
    requires Usable(c) && k.target == f.target && k.port == f.port && U.HeaderLength(f.target) == Ok(envelope)
    requires envelope <= c.maxBytesPerDatagram
    ensures Shape(c, k, Opened(f, envelope, now)) && CostOf(Opened(f, envelope, now)) == Counters(1, 0, envelope)
  {
    assert Sizes(map[]) == map[];
  }

  lemma {:induction false} OpenFits(c: Config, limits: Counters, g: Counters, a: Assemblies, s: Session, envelope: nat)
    requires OpenError(c, limits, g, a, s, envelope) == None
    ensures envelope <= c.maxBytesPerDatagram
  {
  }

  // ---------------------------------------------------------------- all assemblies

  lemma {:induction false} InvSubmap(c: Config, sub: Assemblies, a: Assemblies)
    requires Inv(c, a) && sub.Keys <= a.Keys && forall k :: k in sub ==> sub[k] == a[k]
    ensures Inv(c, sub)
  {
    hide AssemblyOk, Held;
    forall s ensures SessionWithin(c, sub, s) {
      assert SessionWithin(c, a, s);
      HeldSubmap(Only(sub, s), Only(a, s));
    }
  }

  /** Replacing or adding one assembly keeps the session limits when its own session has room. */
  lemma {:induction false} SessionsUpdate(c: Config, a: Assemblies, k: Key, x: Assembly)
    requires SessionsWithin(c, a)
    requires var base := if k in a then Held(Only(a, k.session)).Minus(CostOf(a[k])) else Held(Only(a, k.session));
      base.Plus(CostOf(x)).Within(c.perSession)
    ensures SessionsWithin(c, a[k := x])
  {
    hide Held, Only;
    var a' := a[k := x];
    forall s ensures SessionWithin(c, a', s) {
      assert SessionWithin(c, a, s);
      HeldOnlyUpdate(a, k, x, s);
    }
  }

  /** Everything but `k` is in order, and `k` has at least its bookkeeping right. */
  ghost predicate AlmostInv(c: Config, a: Assemblies, k: Key)
  {
    && k in a && Shape(c, k, a[k]) && AllOk(c, a - {k}) && SessionsWithin(c, a)
  }

  lemma {:induction false} WithoutKey(c: Config, a: Assemblies, k: Key)
    requires AlmostInv(c, a, k)
    ensures Inv(c, a - {k})
  {
    hide AssemblyOk, Shape, Held;
    forall s ensures SessionWithin(c, a - {k}, s) {
      assert SessionWithin(c, a, s);
      HeldSubmap(Only(a - {k}, s), Only(a, s));
    }
  }

  lemma {:induction false} PushIntoKeeps(
    c: Config, limits: Counters, g: Counters, a: Assemblies, k: Key, f: U.Fragment, now: Time, created: bool)
    requires Usable(c) && AlmostInv(c, a, k) && 1 <= f.sequence <= c.maxFragmentsPerDatagram
    requires created ==> a[k] == Opened(f, a[k].bytes, a[k].lastActivity) && f.sequence == 1
    requires !created ==> AssemblyOk(c, k, a[k])
    ensures Inv(c, PushInto(c, limits, g, a, k, f, now, created).0)
  {
    hide Shape, Held, Judge, Stored, SessionsWithin, Delivered, ValidateConfig, ConfigTyped;
    WithoutKey(c, a, k);
    if !created {
      AllOkWith(c, a, k);
    } else {
      assert Judge(c, a[k], f) == Admit by { OpenedAdmits(c, a[k], f); }
    }
    if Judge(c, a[k], f) == Admit && ReserveError(c, limits, g, a, k, |f.payload|) == None {
      StoredKeepsShape(c, k, a[k], f, now);
      var x := Stored(a[k], f, now);
      if !Finished(x) {
        SessionsUpdateHere(c, limits, g, a, k, f, now);
        AllOkUpdate(c, a, k, x);
      }
    }
  }

  lemma {:induction false} OpenedAdmits(c: Config, x: Assembly, f: U.Fragment)
    requires f.sequence == 1 && x.fragments == map[] && x.final == None && x.highest == 0 && x.contiguous == 0
    ensures Judge(c, x, f) == Admit
  {
  }

  lemma {:induction false} AllOkWith(c: Config, a: Assemblies, k: Key)
    requires k in a && AllOk(c, a - {k}) && AssemblyOk(c, k, a[k])
    ensures AllOk(c, a)
  {
    hide AssemblyOk;
    forall j | j in a ensures AssemblyOk(c, j, a[j]) {
      assert j != k ==> j in a - {k};
    }
  }

  lemma {:induction false} AllOkUpdate(c: Config, a: Assemblies, k: Key, x: Assembly)
    requires AllOk(c, a - {k}) && AssemblyOk(c, k, x)
    ensures AllOk(c, a[k := x])
  {
    hide AssemblyOk;
    var a' := a[k := x];
    forall j | j in a' ensures AssemblyOk(c, j, a'[j]) {
      assert j != k ==> j in a - {k};
    }
  }

  lemma {:induction false} SessionsUpdateHere(
    c: Config, limits: Counters, g: Counters, a: Assemblies, k: Key, f: U.Fragment, now: Time)
    requires Usable(c) && k in a && SessionsWithin(c, a) && ReserveError(c, limits, g, a, k, |f.payload|) == None
    requires CostOf(Stored(a[k], f, now)) == CostOf(a[k]).Plus(Counters(0, 1, |f.payload|))
    ensures SessionsWithin(c, a[k := Stored(a[k], f, now)])
  {
    hide Held, Only, Stored;
    assert SessionWithin(c, a, k.session);
    SessionsUpdate(c, a, k, Stored(a[k], f, now));
  }

  /** Every push keeps every assembly in order and every session within its limits. */
  lemma {:induction false} InvPush(
    c: Config, limits: Counters, g: Counters, h: Counters, a: Assemblies, s: Session, f: U.Fragment, now: Time)
    requires Usable(c) && Inv(c, a)
    ensures Inv(c, PushAt(c, limits, g, h, a, s, f, now).0)
  {
    hide AssemblyOk, Shape, Held, PushInto, U.HeaderLength, SessionsWithin, ValidateConfig, ConfigTyped;
    var k := Key(s, f.target, f.port);
    if 1 <= f.sequence <= c.maxFragmentsPerDatagram {
      if k in a {
        KeyAlmost(c, a, k);
        PushIntoKeeps(c, limits, h, a, k, f, now, false);
      } else if f.sequence == 1 && U.HeaderLength(f.target).Ok? {
        var envelope := U.HeaderLength(f.target).value;
        if OpenError(c, limits, g, a, s, envelope) == None {
          OpenKeeps(c, limits, g, a, k, f, envelope, now);
          PushIntoKeeps(c, limits, h, a[k := Opened(f, envelope, now)], k, f, now, true);
        }
      }
    }
  }

  lemma {:induction false} KeyAlmost(c: Config, a: Assemblies, k: Key)
    requires Inv(c, a) && k in a
    ensures AlmostInv(c, a, k) && AssemblyOk(c, k, a[k])
  {
    hide Shape;
    assert AssemblyOk(c, k, a[k]);
    forall j | j in a - {k} ensures AssemblyOk(c, j, (a - {k})[j]) {
      assert AssemblyOk(c, j, a[j]);
    }
  }

  lemma {:induction false} OpenKeeps(
    c: Config, limits: Counters, g: Counters, a: Assemblies, k: Key, f: U.Fragment, envelope: nat, now: Time)
    requires Usable(c) && Inv(c, a) && k !in a && k.target == f.target && k.port == f.port
    requires U.HeaderLength(f.target) == Ok(envelope) && OpenError(c, limits, g, a, k.session, envelope) == None
    ensures AlmostInv(c, a[k := Opened(f, envelope, now)], k)
  {
    hide Held, Only, AssemblyOk, Shape, U.HeaderLength;
    OpenedShape(c, k, f, envelope, now);
    assert SessionWithin(c, a, k.session);
    SessionsUpdate(c, a, k, Opened(f, envelope, now));
    assert a[k := Opened(f, envelope, now)] - {k} == a;
  }

  lemma {:induction false} InvExpire(c: Config, a: Assemblies, now: Time)
    requires Inv(c, a)
    ensures Inv(c, Expire(c, a, now))
  {
    InvSubmap(c, Expire(c, a, now), a);
  }

  lemma {:induction false} InvDiscard(c: Config, a: Assemblies, s: Session)
    requires Inv(c, a)
    ensures Inv(c, DiscardSession(a, s))
  {
    InvSubmap(c, DiscardSession(a, s), a);
  }

  // ---------------------------------------------------------------- the global counters

  /** The global counters cover what these assemblies hold and respect the global limits. */
  ghost predicate Covered(limits: Counters, g: Counters, a: Assemblies)
  {
    Held(a).Within(g) && g.Within(limits)
  }

  /** The global counters after a step that changes the assemblies from `a` to `b`. */
  ghost function Shifted(g: Counters, a: Assemblies, b: Assemblies): Counters
  {
    g.Plus(Held(b)).Minus(Held(a))
  }

  lemma {:induction false} CoveredSubmap(limits: Counters, g: Counters, sub: Assemblies, a: Assemblies)
    requires Covered(limits, g, a) && sub.Keys <= a.Keys && forall k :: k in sub ==> sub[k] == a[k]
    ensures Covered(limits, Shifted(g, a, sub), sub)
  {
    hide Held;
    HeldSubmap(sub, a);
  }

  lemma {:induction false} PushIntoCovered(
    c: Config, limits: Counters, g: Counters, a: Assemblies, k: Key, f: U.Fragment, now: Time, created: bool)
    requires k in a && Covered(limits, g, a)
    requires Judge(c, a[k], f).Admit? ==> f.sequence !in a[k].fragments
    ensures var b := PushInto(c, limits, g, a, k, f, now, created).0; Covered(limits, Shifted(g, a, b), b)
  {
    hide Held, Only, Judge, Delivered;
    CoveredSubmap(limits, g, a - {k}, a);
    if Judge(c, a[k], f) == Admit && ReserveError(c, limits, g, a, k, |f.payload|) == None {
      var x := Stored(a[k], f, now);
      HeldReplace(a, k, x);
      assert x.fragments.Keys == a[k].fragments.Keys + {f.sequence};
    }
  }

  /** A push moves the global counters by exactly what its assemblies gain or lose, within the limits. */
  lemma {:induction false} PushCovered(
    c: Config, limits: Counters, g: Counters, a: Assemblies, s: Session, f: U.Fragment, now: Time)
    requires Covered(limits, g, a)
    ensures var b := Push(c, limits, g, a, s, f, now).0; Covered(limits, Shifted(g, a, b), b)
  {
    hide Held, Only, PushInto, U.HeaderLength;
    var k := Key(s, f.target, f.port);
    if 1 <= f.sequence <= c.maxFragmentsPerDatagram {
      if k in a {
        AdmitIsNew(c, a[k], f);
        PushIntoCovered(c, limits, g, a, k, f, now, false);
      } else if f.sequence == 1 && U.HeaderLength(f.target).Ok? {
        var envelope := U.HeaderLength(f.target).value;
        if OpenError(c, limits, g, a, s, envelope) == None {
          var begun := a[k := Opened(f, envelope, now)];
          var g' := g.Plus(Counters(1, 0, envelope));
          HeldInsert(a, k, Opened(f, envelope, now));
          assert Covered(limits, g', begun);
          AdmitIsNew(c, begun[k], f);
          PushIntoCovered(c, limits, g', begun, k, f, now, true);
        }
      }
    }
  }

  lemma {:induction false} AdmitIsNew(c: Config, x: Assembly, f: U.Fragment)
    ensures Judge(c, x, f).Admit? ==> f.sequence !in x.fragments
  {
  }
}
