/**
 * Which targets are healthy, read off the run: the requests made and the results reported, without the
 * tables of the session.
 */
module TargetHealth {
  import opened Wrappers
  import opened Bytes
  import opened TargetPool
  import opened TargetProbe

  /** A request the session accepts, policy by policy. */
  predicate Proper(session: Session, q: Request)
  {
    && (exists i :: 0 <= i < 16 && q.probeId[i] != 0) && q.revision >= 1 && 1 <= q.timeoutMillis <= 5_000
    && (exists t :: t in session.targets && t.address == q.address)
    && match session.policy
       case Tcp => Asked(session, q, "tcp:", TcpProbe, None)
       case Secret => Asked(session, q, "secret:", TcpProbe, None)
       case Http(name) => Asked(session, q, "http:", HttpProbe, Some(name))
       case Tls(name) => Asked(session, q, "sni:", TlsProbe, Some(name))
       case Udp => Asked(session, q, "udp:", UdpProbe, None)
  }

  predicate Asked(session: Session, q: Request, prefix: string, kind: ProbeKind, serverName: Option<string>)
  {
    q.key == prefix + session.policyText + ":" + q.address && q.kind == kind && q.serverName == serverName
  }

  lemma {:induction false} ValidExact(session: Session, q: Request)
    ensures Valid(session, q) <==> Proper(session, q)
  {
    assert q.probeId == NIL_UUID <==> forall i :: 0 <= i < 16 ==> q.probeId[i] == 0;
    if InPool(session.targets, q.address) {
      var i :| 0 <= i < |session.targets| && session.targets[i].address == q.address;
      assert session.targets[i] in session.targets;
    }
    assert KeyKind(session.policy) + ":" + session.policyText + ":" + q.address
        == (KeyKind(session.policy) + ":") + session.policyText + ":" + q.address;
    PrefixText(session.policy);
  }

  lemma {:induction false} PrefixText(p: Policy)
    ensures KeyKind(p) + ":" == match p
      case Tcp => "tcp:" case Secret => "secret:" case Http(_) => "http:" case Tls(_) => "sni:" case Udp => "udp:"
  {
  }

  /** Event `j` is a proper request to probe `address`. */
  predicate Requests(session: Session, run: seq<Event>, j: nat, address: string)
    requires j < |run|
  {
    run[j].Begin? && run[j].request.address == address && Proper(session, run[j].request)
  }

  /** The greatest revision properly requested for `address` among the first `n` events is `revision`. */
  ghost predicate Greatest(session: Session, run: seq<Event>, n: nat, address: string, revision: nat)
    requires n <= |run|
  {
    && (exists j :: 0 <= j < n && Requests(session, run, j, address) && run[j].request.revision == revision)
    && (forall j :: 0 <= j < n && Requests(session, run, j, address) ==> run[j].request.revision <= revision)
  }

  /** The session remembers, for each target, the greatest revision requested of it. */
  lemma {:induction false} LatestIsGreatest(session: Session, run: seq<Event>, n: nat, address: string)
    requires n <= |run|
    ensures var s := After(session, run, n);
      if address in s.latest then Greatest(session, run, n, address, s.latest[address])
      else forall j :: 0 <= j < n ==> !Requests(session, run, j, address)
  {
    hide Valid, Proper;
    if n == 0 {
    } else {
      LatestIsGreatest(session, run, n - 1, address);
      var s, e := After(session, run, n - 1), run[n - 1];
      if e.Begin? {
        ValidExact(session, e.request);
      }
      if address in s.latest {
        var j :| 0 <= j < n - 1 && Requests(session, run, j, address) && run[j].request.revision == s.latest[address];
      }
      if Requests(session, run, n - 1, address) {
        assert address in After(session, run, n).latest;
      }
    }
  }

  /** A request is stale exactly if one for its target had the same or a later revision. */
  lemma {:induction false} StaleExact(session: Session, run: seq<Event>, n: nat, q: Request)
    requires n <= |run|
    ensures Stale(After(session, run, n), q) <==>
      exists j :: 0 <= j < n && Requests(session, run, j, q.address) && q.revision <= run[j].request.revision
  {
    hide After, Proper;
    LatestIsGreatest(session, run, n, q.address);
  }

  /** A result counts exactly if its revision is the greatest requested so far. */
  lemma {:induction false} EffectExact(session: Session, run: seq<Event>, i: nat)
    requires i < |run|
    ensures TakesEffect(session, run, i) <==>
      run[i].Record? && Greatest(session, run, i, run[i].request.address, run[i].request.revision)
  {
    hide After, Proper;
    if run[i].Record? {
      LatestIsGreatest(session, run, i, run[i].request.address);
    }
  }

  /** The last result that counted for `address`. */
  ghost predicate LastResult(session: Session, run: seq<Event>, address: string, i: nat)
  {
    && i < |run| && Counts(session, run, i, address)
    && forall j :: i < j < |run| ==> !Counts(session, run, j, address)
  }

  ghost predicate Counts(session: Session, run: seq<Event>, i: nat, address: string)
    requires i < |run|
  {
    && run[i].Record? && run[i].request.address == address
    && Greatest(session, run, i, address, run[i].request.revision)
  }

  /** Without a result that counts there is no health on record. */
  lemma {:induction false} EffectRecords(session: Session, run: seq<Event>, i: nat, n: nat, address: string)
    requires i < n <= |run| && TakesEffect(session, run, i) && run[i].request.address == address
    ensures address in After(session, run, n).health
  {
    if n == i + 1 {
    } else {
      EffectRecords(session, run, i, n - 1, address);
    }
  }

  /** A target is healthy exactly if its last result that counted said so less than 25 seconds ago. */
  lemma {:induction false} HealthyExactly(session: Session, run: seq<Event>, now: Instant, address: string)
    ensures TargetIsHealthy(After(session, run, |run|), address, now) <==>
      exists i: nat :: LastResult(session, run, address, i) && run[i].healthy && now < run[i].now + 25_000_000_000
  {
    hide After, Greatest, TakesEffect;
    var s := After(session, run, |run|);
    forall j | 0 <= j < |run| && run[j].Record? && run[j].request.address == address
      ensures Counts(session, run, j, address) <==> TakesEffect(session, run, j)
    {
      EffectExact(session, run, j);
    }
    assert forall j :: 0 <= j < |run| && TakesEffect(session, run, j) ==> run[j].Record? by {
      EffectsAreRecords(session, run);
    }
    if address in s.health {
      var i := HealthIsLastResult(session, run, |run|, address);
      assert LastResult(session, run, address, i);
      forall k: nat | LastResult(session, run, address, k) ensures k == i {
      }
    }
    if i: nat :| LastResult(session, run, address, i) {
      EffectRecords(session, run, i, |run|, address);
    }
  }

  lemma {:induction false} EffectsAreRecords(session: Session, run: seq<Event>)
    ensures forall j :: 0 <= j < |run| && TakesEffect(session, run, j) ==> run[j].Record?
  {
  }
}
