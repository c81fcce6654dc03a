/** Fencing, accounting and capacity over every run of the outbox in which lease tokens are fresh. */
module OutboxRuns {
  import opened Wrappers
  import opened AlertTypes
  import opened Outbox
  import opened MapSum
  import opened Sequences

  datatype Event =
    | Enqueued(n: Notification, keys: seq<Id>, at: Time)
    | Claimed(at: Time, limit: nat, tokens: seq<Id>)
    | Acked(id: nat, token: Id, at: Time)
    | Failed(id: nat, token: Id, at: Time, error: string)
    | Retried(id: nat, at: Time)

  /** Enough random values were drawn for the operation. */
  predicate Supplied(e: Event)
  {
    (e.Enqueued? ==> |e.keys| >= 2) && (e.Claimed? ==> |e.tokens| >= MAX_CLAIM && Distinct(e.tokens))
  }

  /** A refused enqueue or retry rolls its transaction back. */
  function Apply(box: Box, e: Event, tooLarge: Notification -> bool): Box
    requires Supplied(e)
  {
    match e
    case Enqueued(n, keys, at) => (match Enqueue(box, n, keys, at, tooLarge) case Ok(b) => b case Err(_) => box)
    case Claimed(at, limit, tokens) => ClaimRows(box, at, limit, tokens)
    case Acked(id, token, at) => Acknowledge(box, id, token, at)
    case Failed(id, token, at, error) => Fail(box, id, token, at, error).0
    case Retried(id, at) => (match Retry(box, id, at) case Ok((b, _)) => b case Err(_) => box)
  }

  function After(run: seq<Event>, n: nat, tooLarge: Notification -> bool): Box
    requires n <= |run| && forall m :: 0 <= m < |run| ==> Supplied(run[m])
  {
    if n == 0 then EMPTY else Apply(After(run, n - 1, tooLarge), run[n - 1], tooLarge)
  }

  predicate SuppliedRun(run: seq<Event>)
  {
    forall m :: 0 <= m < |run| ==> Supplied(run[m])
  }

  // ---------------------------------------------------------------- what each row keeps

  /** Lease token and lease expiry are present exactly while the row is being delivered. */
  predicate RowOk(row: Row)
  {
    (row.leaseToken.Some? <==> row.state == Delivering) && (row.leaseExpires.Some? <==> row.state == Delivering)
  }

  predicate SameLease(row: Row, row': Row)
  {
    row.leaseToken == row'.leaseToken && row.leaseExpires == row'.leaseExpires
  }

  function Identity(row: Row): (Id, Notification, Channel, Time)
  {
    (row.idempotencyKey, row.notification, row.channel, row.created)
  }

  predicate RowsOk(box: Box)
  {
    forall id :: id in box.rows ==> id < box.nextId && RowOk(box.rows[id])
  }

  ghost predicate BoxOk(box: Box)
  {
    RowsOk(box) && |Outstanding(box.rows)| <= 10_000
  }

  lemma {:induction false} OutstandingAfter(rows: Rows, id: nat, row: Row)
    ensures Open(row) ==> Outstanding(rows[id := row]) == Outstanding(rows) + {id}
    ensures !Open(row) ==> Outstanding(rows[id := row]) == Outstanding(rows) - {id}
  {
  }

  lemma {:induction false} OneMoreOpen(rows: Rows, id: nat, row: Row)
    requires id !in rows && Open(row)
    ensures |Outstanding(rows[id := row])| == |Outstanding(rows)| + 1
  {
    OutstandingAfter(rows, id, row);
  }

  lemma {:induction false} InsertEffect(box: Box, n: Notification, channels: seq<Channel>, keys: seq<Id>, now: Time)
    requires |keys| >= |channels| && RowsOk(box)
    ensures var b := Insert(box, n, channels, keys, now);
      && RowsOk(b) && b.nextId == box.nextId + |channels| && b.totals == box.totals
      && (forall id :: id in box.rows ==> id in b.rows && b.rows[id] == box.rows[id])
      && (forall id :: id in b.rows && id !in box.rows ==> box.nextId <= id < b.nextId)
      && (forall id :: box.nextId <= id < b.nextId ==>
            var i := id - box.nextId; id in b.rows && b.rows[id] == NewRow(n, channels[i], keys[i], now))
      && |Outstanding(b.rows)| == |Outstanding(box.rows)| + |channels|
    decreases |channels|
  {
    hide Outstanding;
    if channels == [] {
    } else {
      var row := NewRow(n, channels[0], keys[0], now);
      var next := box.(rows := box.rows[box.nextId := row], nextId := box.nextId + 1);
      OneMoreOpen(box.rows, box.nextId, row);
      assert RowsOk(next);
      InsertEffect(next, n, channels[1..], keys[1..], now);
    }
  }

  /** A lease touches exactly the listed rows, each with its own token. */
  lemma {:induction false} LeaseAllEffect(rows: Rows, ids: seq<nat>, tokens: seq<Id>, now: Time)
    requires |tokens| >= |ids| && Distinct(ids) && forall i :: 0 <= i < |ids| ==> ids[i] in rows
    ensures var r := LeaseAll(rows, ids, tokens, now);
      && r.Keys == rows.Keys
      && (forall id :: id in rows && id !in ids ==> r[id] == rows[id])
      && (forall i :: 0 <= i < |ids| ==> r[ids[i]] == Leased(rows[ids[i]], tokens[i], now))
    decreases |ids|
  {
    if ids == [] {
    } else {
      var rows' := rows[ids[0] := Leased(rows[ids[0]], tokens[0], now)];
      LeaseAllEffect(rows', ids[1..], tokens[1..], now);
      var r := LeaseAll(rows, ids, tokens, now);
      assert r == LeaseAll(rows', ids[1..], tokens[1..], now);
      forall i | 0 <= i < |ids| ensures r[ids[i]] == Leased(rows[ids[i]], tokens[i], now) {
        if i == 0 {
          assert ids[0] !in ids[1..];
        } else {
          assert ids[i] == ids[1..][i - 1];
        }
      }
    }
  }

  lemma {:induction false} SelectedEffect(rows: Rows, now: Time, limit: nat)
    ensures var s := Selected(rows, now, limit);
      |s| <= MAX_CLAIM && Distinct(s) && forall i :: 0 <= i < |s| ==> s[i] in rows && Due(rows[s[i]], now)
  {
    hide Due;
    SelectSize(rows, DueIds(rows, now), Clamp(limit));
    SelectIsPrefix(rows, DueIds(rows, now), Clamp(limit));
    var s := Selected(rows, now, limit);
    assert forall i :: 0 <= i < |s| ==> s[i] in s;
  }

  /** The row of `id` after a claim: leased under one of the tokens, or as tidying left it. */
  lemma {:induction false} ClaimEffect(box: Box, now: Time, limit: nat, tokens: seq<Id>, id: nat)
    requires |tokens| >= MAX_CLAIM && limit > 0
    ensures var b, rows := ClaimRows(box, now, limit, tokens), Tidied(box.rows, now);
      && b.nextId == box.nextId && b.totals == box.totals
      && (id in b.rows <==> id in rows)
      && (id in rows && id !in Selected(rows, now, limit) ==> b.rows[id] == rows[id])
      && (forall i :: 0 <= i < |Selected(rows, now, limit)| && Selected(rows, now, limit)[i] == id ==>
            i < |tokens| && id in rows && Due(rows[id], now) && b.rows[id] == Leased(rows[id], tokens[i], now))
  {
    hide Tidied, Due, Selected;
    var rows := Tidied(box.rows, now);
    SelectedEffect(rows, now, limit);
    LeaseAllEffect(rows, Selected(rows, now, limit), tokens, now);
  }

  lemma {:induction false} TidiedEffect(rows: Rows, now: Time, id: nat)
    ensures id in Tidied(rows, now) ==> id in rows && Tidied(rows, now)[id] == Returned(rows[id], now)
    ensures id in rows && id !in Tidied(rows, now) ==> Stale(Returned(rows[id], now), now)
  {
  }

  lemma {:induction false} ClaimKeeps(box: Box, now: Time, limit: nat, tokens: seq<Id>)
    requires |tokens| >= MAX_CLAIM && BoxOk(box)
    ensures BoxOk(ClaimRows(box, now, limit, tokens))
  {
    hide Tidied, Stale, Selected, ClaimRows;
    if limit > 0 {
      var b := ClaimRows(box, now, limit, tokens);
      forall id | id in b.rows
        ensures id in box.rows && RowOk(b.rows[id]) && (Open(b.rows[id]) ==> Open(box.rows[id]))
        ensures b.nextId == box.nextId
      {
        ClaimedRow(box, now, limit, tokens, id);
      }
      assert Outstanding(b.rows) <= Outstanding(box.rows);
      SizeMonotone(Outstanding(b.rows), Outstanding(box.rows));
      ClaimEffect(box, now, limit, tokens, 0);
    } else {
      NoClaim(box, now, tokens);
    }
  }

  lemma {:induction false} NoClaim(box: Box, now: Time, tokens: seq<Id>)
    requires |tokens| >= MAX_CLAIM
    ensures ClaimRows(box, now, 0, tokens) == box
  {
  }

  /** What a claim may do to one row. */
  lemma {:induction false} ClaimedRow(box: Box, now: Time, limit: nat, tokens: seq<Id>, id: nat)
    requires |tokens| >= MAX_CLAIM && limit > 0 && RowsOk(box) && id in ClaimRows(box, now, limit, tokens).rows
    ensures id in box.rows
    ensures ClaimRows(box, now, limit, tokens).nextId == box.nextId
    ensures ClaimRows(box, now, limit, tokens).totals == box.totals
    ensures var row, row' := box.rows[id], ClaimRows(box, now, limit, tokens).rows[id];
      && RowOk(row') && (Open(row') <==> Open(row)) && Identity(row') == Identity(row)
      && (!Open(row) ==> row' == row)
      && (|| row' == Returned(row, now)
          || exists i :: 0 <= i < MAX_CLAIM && row' == Leased(Returned(row, now), tokens[i], now))
  {
    hide Tidied, Selected, ClaimRows;
    var rows := Tidied(box.rows, now);
    ClaimEffect(box, now, limit, tokens, id);
    TidiedEffect(box.rows, now, id);
    if id in Selected(rows, now, limit) {
      var i :| 0 <= i < |Selected(rows, now, limit)| && Selected(rows, now, limit)[i] == id;
      SelectedEffect(rows, now, limit);
    }
  }

  /** Every operation keeps every row in order and the queue within its capacity. */
  lemma {:induction false} AckKeeps(box: Box, id: nat, token: Id, at: Time)
    requires BoxOk(box)
    ensures BoxOk(Acknowledge(box, id, token, at))
  {
    var b := Acknowledge(box, id, token, at);
    if id in b.rows {
      OutstandingAfter(box.rows, id, b.rows[id]);
    }
    SizeMonotone(Outstanding(box.rows) - {id}, Outstanding(box.rows));
  }

  lemma {:induction false} FailKeeps(box: Box, id: nat, token: Id, at: Time, error: string)
    requires BoxOk(box)
    ensures BoxOk(Fail(box, id, token, at, error).0)
  {
    hide RetryDelay;
    if HoldsLease(box.rows, id, token, at) {
      var b := Fail(box, id, token, at, error).0;
      OutstandingAfter(box.rows, id, b.rows[id]);
      assert id in Outstanding(box.rows);
      SizeMonotone(Outstanding(box.rows) - {id}, Outstanding(box.rows));
      assert Outstanding(box.rows) + {id} == Outstanding(box.rows);
    }
  }

  lemma {:induction false} RetryKeeps(box: Box, id: nat, at: Time)
    requires BoxOk(box) && Retry(box, id, at).Ok?
    ensures BoxOk(Retry(box, id, at).value.0)
  {
    var b := Retry(box, id, at).value.0;
    if id in b.rows && b != box {
      OutstandingAfter(box.rows, id, b.rows[id]);
    }
  }

  lemma {:induction false} ApplyKeeps(box: Box, e: Event, tooLarge: Notification -> bool)
    requires Supplied(e) && BoxOk(box)
    ensures BoxOk(Apply(box, e, tooLarge))
  {
    hide ClaimRows, Insert, RetryDelay, Acknowledge, Fail, Retry, Outstanding;
    match e
    case Enqueued(n, keys, at) => InsertEffect(box, n, Channels(n), keys, at);
    case Claimed(at, limit, tokens) => ClaimKeeps(box, at, limit, tokens);
    case Acked(id, token, at) => AckKeeps(box, id, token, at);
    case Failed(id, token, at, error) => FailKeeps(box, id, token, at, error);
    case Retried(id, at) =>
      if Retry(box, id, at).Ok? {
        RetryKeeps(box, id, at);
      }
  }

  /** In every reachable state: leases belong to deliveries in progress, and at most 10,000 rows are open. */
  lemma {:induction false} Reachable(run: seq<Event>, n: nat, tooLarge: Notification -> bool)
    requires SuppliedRun(run) && n <= |run|
    ensures BoxOk(After(run, n, tooLarge))
  {
    hide Apply, BoxOk;
    if n == 0 {
      EmptyOk();
    } else {
      Reachable(run, n - 1, tooLarge);
      ApplyKeeps(After(run, n - 1, tooLarge), run[n - 1], tooLarge);
    }
  }

  lemma {:induction false} EmptyOk()
    ensures BoxOk(EMPTY)
  {
    assert Outstanding(EMPTY.rows) == {};
  }

  // ---------------------------------------------------------------- identity

  /** One step changes no row's identity, revives no id and never disturbs a delivered row. */
  lemma {:induction false} StepRow(box: Box, e: Event, tooLarge: Notification -> bool, id: nat)
    requires Supplied(e) && RowsOk(box)
    ensures var b := Apply(box, e, tooLarge);
      && b.nextId >= box.nextId
      && (id in b.rows && id < box.nextId ==> id in box.rows && Identity(b.rows[id]) == Identity(box.rows[id]))
      && (id in box.rows && box.rows[id].state == Delivered && id in b.rows ==> b.rows[id] == box.rows[id])
  {
    hide ClaimRows, Insert, RetryDelay;
    match e
    case Enqueued(n, keys, at) => InsertEffect(box, n, Channels(n), keys, at);
    case Claimed(at, limit, tokens) =>
      if limit == 0 {
        NoClaim(box, at, tokens);
      } else {
        ClaimEffect(box, at, limit, tokens, id);
        if id in ClaimRows(box, at, limit, tokens).rows {
          ClaimedRow(box, at, limit, tokens, id);
        }
      }
    case Acked(_, _, _) =>
    case Failed(_, _, _, _) =>
    case Retried(_, _) =>
  }

  /** An id once handed out names the same delivery for ever, under the same idempotency key. */
  lemma {:induction false} IdentityIsStable(run: seq<Event>, m: nat, n: nat, tooLarge: Notification -> bool, id: nat)
    requires SuppliedRun(run) && m <= n <= |run| && id < After(run, m, tooLarge).nextId
    ensures After(run, m, tooLarge).nextId <= After(run, n, tooLarge).nextId
    ensures id in After(run, n, tooLarge).rows ==>
      id in After(run, m, tooLarge).rows
      && Identity(After(run, n, tooLarge).rows[id]) == Identity(After(run, m, tooLarge).rows[id])
  {
    hide Apply, BoxOk, Identity;
    if m == n {
    } else {
      IdentityIsStable(run, m, n - 1, tooLarge, id);
      RowsReachable(run, n - 1, tooLarge);
      StepRow(After(run, n - 1, tooLarge), run[n - 1], tooLarge, id);
    }
  }

  lemma {:induction false} RowsReachable(run: seq<Event>, n: nat, tooLarge: Notification -> bool)
    requires SuppliedRun(run) && n <= |run|
    ensures RowsOk(After(run, n, tooLarge))
  {
    Reachable(run, n, tooLarge);
  }

  // ---------------------------------------------------------------- an id is acknowledged at most once

  predicate AckSucceeds(box: Box, e: Event, id: nat)
  {
    e.Acked? && e.id == id && HoldsLease(box.rows, id, e.token, e.at)
  }

  /** Delivered, or delivered and since deleted. */
  predicate Settled(box: Box, id: nat)
  {
    id < box.nextId && (id in box.rows ==> box.rows[id].state == Delivered)
  }

  lemma {:induction false} SettledIsFinal(run: seq<Event>, m: nat, n: nat, tooLarge: Notification -> bool, id: nat)
    requires SuppliedRun(run) && m <= n <= |run| && Settled(After(run, m, tooLarge), id)
    ensures Settled(After(run, n, tooLarge), id)
  {
    hide Apply;
    if m == n {
    } else {
      SettledIsFinal(run, m, n - 1, tooLarge, id);
      RowsReachable(run, n - 1, tooLarge);
      StepRow(After(run, n - 1, tooLarge), run[n - 1], tooLarge, id);
    }
  }

  lemma {:induction false} AckedOnce(run: seq<Event>, i: nat, j: nat, tooLarge: Notification -> bool, id: nat)
    requires SuppliedRun(run) && i < j < |run| && AckSucceeds(After(run, i, tooLarge), run[i], id)
    ensures !AckSucceeds(After(run, j, tooLarge), run[j], id)
  {
    hide Apply;
    RowsReachable(run, i, tooLarge);
    AckSettles(After(run, i, tooLarge), run[i], tooLarge, id);
    assert Settled(After(run, i + 1, tooLarge), id);
    SettledIsFinal(run, i + 1, j, tooLarge, id);
  }

  lemma {:induction false} AckSettles(box: Box, e: Event, tooLarge: Notification -> bool, id: nat)
    requires RowsOk(box) && AckSucceeds(box, e, id)
    ensures Settled(Apply(box, e, tooLarge), id)
  {
  }

  // ---------------------------------------------------------------- a token settles at most once

  function TokensOf(e: Event): set<Id>
  {
    if e.Claimed? then set t | t in e.tokens else {}
  }

  /** No token is ever drawn twice. */
  predicate FreshTokens(run: seq<Event>)
  {
    forall m, n :: 0 <= m < n < |run| ==> TokensOf(run[m]) !! TokensOf(run[n])
  }

  predicate Settles(box: Box, e: Event, t: Id)
  {
    (e.Acked? || e.Failed?) && e.token == t && HoldsLease(box.rows, e.id, t, e.at)
  }

  /** Claim `m` leased the row under token `t`, and the lease runs for sixty seconds from that claim. */
  predicate GrantedAt(run: seq<Event>, m: nat, row: Row, t: Id)
    requires m < |run|
  {
    run[m].Claimed? && t in run[m].tokens && row.leaseExpires == Some(run[m].at + LEASE_SECONDS)
  }

  predicate Granted(run: seq<Event>, n: nat, row: Row)
    requires n <= |run|
  {
    row.leaseToken.Some? ==> exists m :: 0 <= m < n && GrantedAt(run, m, row, row.leaseToken.value)
  }

  predicate AllGranted(run: seq<Event>, n: nat, box: Box)
    requires n <= |run|
  {
    forall id :: id in box.rows ==> Granted(run, n, box.rows[id])
  }

  predicate TokensDiffer(box: Box)
  {
    forall i, j :: i in box.rows && j in box.rows && i != j && box.rows[i].leaseToken.Some? ==>
      box.rows[i].leaseToken != box.rows[j].leaseToken
  }

  /** Where a row's lease comes from after one step: it had it before, or this claim drew its token. */
  lemma {:induction false} LeaseOrigin(box: Box, e: Event, tooLarge: Notification -> bool, id: nat)
    requires Supplied(e) && RowsOk(box)
    ensures var b := Apply(box, e, tooLarge);
      id in b.rows && b.rows[id].leaseToken.Some? ==>
        || (id in box.rows && SameLease(box.rows[id], b.rows[id]))
        || (&& e.Claimed? && b.rows[id].leaseToken.value in e.tokens
            && b.rows[id].leaseExpires == Some(e.at + LEASE_SECONDS))
  {
    hide ClaimRows, Insert, RetryDelay, Identity;
    match e
    case Enqueued(n, keys, at) => InsertEffect(box, n, Channels(n), keys, at);
    case Claimed(at, limit, tokens) =>
      if limit == 0 {
        NoClaim(box, at, tokens);
      } else if id in ClaimRows(box, at, limit, tokens).rows {
        ClaimedRow(box, at, limit, tokens, id);
      }
    case Acked(_, _, _) =>
    case Failed(_, _, _, _) =>
    case Retried(_, _) =>
  }

  /** Two rows leased by the same claim got different tokens. */
  lemma {:induction false} ClaimTokensDiffer(box: Box, at: Time, limit: nat, tokens: seq<Id>, i: nat, j: nat)
    requires |tokens| >= MAX_CLAIM && Distinct(tokens) && RowsOk(box) && limit > 0 && i != j
    requires var b := ClaimRows(box, at, limit, tokens);
      i in b.rows && j in b.rows && b.rows[i].leaseToken.Some? && b.rows[i].leaseToken == b.rows[j].leaseToken
    ensures i in box.rows && j in box.rows
    ensures var rows := ClaimRows(box, at, limit, tokens).rows;
            || box.rows[i].leaseToken == box.rows[j].leaseToken == rows[i].leaseToken
            || (box.rows[i].leaseToken == rows[i].leaseToken && box.rows[i].leaseToken.value in tokens)
            || (box.rows[j].leaseToken == rows[j].leaseToken && box.rows[j].leaseToken.value in tokens)
  {
    hide Tidied, Selected, ClaimRows, Identity;
    var rows := Tidied(box.rows, at);
    var s := Selected(rows, at, limit);
    SelectedEffect(rows, at, limit);
    ClaimEffect(box, at, limit, tokens, i);
    ClaimEffect(box, at, limit, tokens, j);
    TidiedEffect(box.rows, at, i);
    TidiedEffect(box.rows, at, j);
    if i in s && j in s {
      assert false;
    } else if i in s {
      var x :| 0 <= x < |s| && s[x] == i;
    } else if j in s {
      var y :| 0 <= y < |s| && s[y] == j;
    }
  }

  ghost predicate Fenced(run: seq<Event>, n: nat, box: Box)
    requires n <= |run|
  {
    AllGranted(run, n, box) && TokensDiffer(box)
  }

  lemma {:induction false} StepFenced(run: seq<Event>, n: nat, box: Box, tooLarge: Notification -> bool)
    requires n < |run| && SuppliedRun(run) && FreshTokens(run) && RowsOk(box) && Fenced(run, n, box)
    ensures Fenced(run, n + 1, Apply(box, run[n], tooLarge))
  {
    hide Apply, RowsOk;
    var e, b := run[n], Apply(box, run[n], tooLarge);
    forall id | id in b.rows ensures Granted(run, n + 1, b.rows[id]) {
      LeaseOrigin(box, e, tooLarge, id);
      if b.rows[id].leaseToken.Some? {
        var t := b.rows[id].leaseToken.value;
        if id in box.rows && box.rows[id].leaseToken == Some(t) && SameLease(box.rows[id], b.rows[id]) {
          assert Granted(run, n, box.rows[id]);
          var m :| 0 <= m < n && GrantedAt(run, m, box.rows[id], t);
          assert GrantedAt(run, m, b.rows[id], t);
        } else {
          assert GrantedAt(run, n, b.rows[id], t);
        }
      }
    }
    forall i, j | i in b.rows && j in b.rows && i != j && b.rows[i].leaseToken.Some?
      ensures b.rows[i].leaseToken != b.rows[j].leaseToken
    {
      StepTokensDiffer(run, n, box, tooLarge, i, j);
    }
  }

  lemma {:induction false} OldTokenIsNotDrawnAgain(run: seq<Event>, n: nat, box: Box, id: nat)
    requires n < |run| && FreshTokens(run) && AllGranted(run, n, box) && id in box.rows && box.rows[id].leaseToken.Some?
    ensures box.rows[id].leaseToken.value !in TokensOf(run[n])
  {
    var t := box.rows[id].leaseToken.value;
    assert Granted(run, n, box.rows[id]);
    var m :| 0 <= m < n && GrantedAt(run, m, box.rows[id], t);
    assert t in TokensOf(run[m]);
  }

  lemma {:induction false} StepTokensDiffer(
    run: seq<Event>, n: nat, box: Box, tooLarge: Notification -> bool, i: nat, j: nat)
    requires n < |run| && SuppliedRun(run) && FreshTokens(run) && RowsOk(box) && Fenced(run, n, box) && i != j
    requires var b := Apply(box, run[n], tooLarge); i in b.rows && j in b.rows && b.rows[i].leaseToken.Some?
    ensures var b := Apply(box, run[n], tooLarge); b.rows[i].leaseToken != b.rows[j].leaseToken
  {
    hide ClaimRows, Insert, RetryDelay, Granted, Fail, Acknowledge, Retry, Enqueue;
    var e, b := run[n], Apply(box, run[n], tooLarge);
    LeaseOrigin(box, e, tooLarge, i);
    LeaseOrigin(box, e, tooLarge, j);
    if b.rows[i].leaseToken == b.rows[j].leaseToken {
      if i in box.rows && box.rows[i].leaseToken.Some? {
        OldTokenIsNotDrawnAgain(run, n, box, i);
      }
      if j in box.rows && box.rows[j].leaseToken.Some? {
        OldTokenIsNotDrawnAgain(run, n, box, j);
      }
      if e.Claimed? {
        if e.limit == 0 {
          NoClaim(box, e.at, e.tokens);
        } else {
          ClaimTokensDiffer(box, e.at, e.limit, e.tokens, i, j);
        }
      }
      assert false;
    }
  }

  lemma {:induction false} FencedReachable(run: seq<Event>, n: nat, tooLarge: Notification -> bool)
    requires SuppliedRun(run) && FreshTokens(run) && n <= |run|
    ensures Fenced(run, n, After(run, n, tooLarge))
  {
    hide Apply, Fenced, RowsOk;
    if n == 0 {
      EmptyFenced(run);
    } else {
      FencedReachable(run, n - 1, tooLarge);
      RowsReachable(run, n - 1, tooLarge);
      StepFenced(run, n - 1, After(run, n - 1, tooLarge), tooLarge);
    }
  }

  lemma {:induction false} EmptyFenced(run: seq<Event>)
    ensures Fenced(run, 0, EMPTY)
  {
  }

  /** A settlement succeeds only strictly before the end of the sixty seconds its claim granted. */
  lemma {:induction false} SettledInTime(run: seq<Event>, j: nat, tooLarge: Notification -> bool, t: Id)
    requires SuppliedRun(run) && FreshTokens(run) && j < |run| && Settles(After(run, j, tooLarge), run[j], t)
    ensures exists m :: 0 <= m < j && run[m].Claimed? && t in run[m].tokens && run[j].at < run[m].at + LEASE_SECONDS
  {
    hide Apply;
    FencedReachable(run, j, tooLarge);
    var row := After(run, j, tooLarge).rows[run[j].id];
    assert Granted(run, j, row);
    var m :| 0 <= m < j && GrantedAt(run, m, row, t);
  }

  predicate Unheld(box: Box, t: Id)
  {
    forall id :: id in box.rows ==> box.rows[id].leaseToken != Some(t)
  }

  lemma {:induction false} SettleReleases(box: Box, e: Event, tooLarge: Notification -> bool, t: Id)
    requires TokensDiffer(box) && Settles(box, e, t)
    ensures Unheld(Apply(box, e, tooLarge), t)
  {
    hide RetryDelay;
    assert box.rows[e.id].leaseToken == Some(t);
  }

  lemma {:induction false} StaysUnheld(run: seq<Event>, i: nat, m: nat, n: nat, tooLarge: Notification -> bool, t: Id)
    requires SuppliedRun(run) && FreshTokens(run) && i < m <= n <= |run| && t in TokensOf(run[i])
    requires Unheld(After(run, m, tooLarge), t)
    ensures Unheld(After(run, n, tooLarge), t)
  {
    hide Apply, RowsOk;
    if m == n {
    } else {
      StaysUnheld(run, i, m, n - 1, tooLarge, t);
      RowsReachable(run, n - 1, tooLarge);
      var box, e := After(run, n - 1, tooLarge), run[n - 1];
      forall id | id in Apply(box, e, tooLarge).rows ensures Apply(box, e, tooLarge).rows[id].leaseToken != Some(t) {
        LeaseOrigin(box, e, tooLarge, id);
        assert t !in TokensOf(e);
      }
    }
  }

  /** One claim token settles at most one of an acknowledgement or a failure. */
  lemma {:induction false} TokenSettlesOnce(run: seq<Event>, i: nat, j: nat, tooLarge: Notification -> bool, t: Id)
    requires SuppliedRun(run) && FreshTokens(run) && i < j < |run| && Settles(After(run, i, tooLarge), run[i], t)
    ensures !Settles(After(run, j, tooLarge), run[j], t)
  {
    hide Apply;
    FencedReachable(run, i, tooLarge);
    var row := After(run, i, tooLarge).rows[run[i].id];
    assert Granted(run, i, row);
    var m :| 0 <= m < i && GrantedAt(run, m, row, t);
    assert t in TokensOf(run[m]);
    SettleReleases(After(run, i, tooLarge), run[i], tooLarge, t);
    assert Unheld(After(run, i + 1, tooLarge), t);
    StaysUnheld(run, m, i + 1, j, tooLarge, t);
  }

  // ---------------------------------------------------------------- the totals

  predicate FailSucceeds(box: Box, e: Event)
  {
    e.Failed? && HoldsLease(box.rows, e.id, e.token, e.at)
  }

  function AckCount(run: seq<Event>, n: nat, tooLarge: Notification -> bool): nat
    requires n <= |run| && SuppliedRun(run)
  {
    if n == 0 then 0
    else
      var succeeded := run[n - 1].Acked? && AckSucceeds(After(run, n - 1, tooLarge), run[n - 1], run[n - 1].id);
      AckCount(run, n - 1, tooLarge) + if succeeded then 1 else 0
  }

  function FailCount(run: seq<Event>, n: nat, tooLarge: Notification -> bool): nat
    requires n <= |run| && SuppliedRun(run)
  {
    if n == 0 then 0
    else FailCount(run, n - 1, tooLarge) + if FailSucceeds(After(run, n - 1, tooLarge), run[n - 1]) then 1 else 0
  }

  function DeadCount(run: seq<Event>, n: nat, tooLarge: Notification -> bool): nat
    requires n <= |run| && SuppliedRun(run)
  {
    if n == 0 then 0
    else
      var box, e := After(run, n - 1, tooLarge), run[n - 1];
      var died := FailSucceeds(box, e) && Fail(box, e.id, e.token, e.at, e.error).1 == Some(DeadLetter);
      DeadCount(run, n - 1, tooLarge) + if died then 1 else 0
  }

  /** The running totals are the numbers of settlements that succeeded. */
  lemma {:induction false} TotalsAreExact(run: seq<Event>, n: nat, tooLarge: Notification -> bool)
    requires SuppliedRun(run) && n <= |run|
    ensures After(run, n, tooLarge).totals
         == Totals(AckCount(run, n, tooLarge), FailCount(run, n, tooLarge), DeadCount(run, n, tooLarge))
  {
    hide RetryDelay, ClaimRows, Insert;
    if n == 0 {
    } else {
      TotalsAreExact(run, n - 1, tooLarge);
      RowsReachable(run, n - 1, tooLarge);
      var box, e := After(run, n - 1, tooLarge), run[n - 1];
      match e
      case Enqueued(n, keys, at) => InsertEffect(box, n, Channels(n), keys, at);
      case Claimed(at, limit, tokens) => ClaimTotals(box, at, limit, tokens);
      case Acked(_, _, _) =>
      case Failed(_, _, _, _) =>
      case Retried(_, _) =>
    }
  }

  lemma {:induction false} ClaimTotals(box: Box, now: Time, limit: nat, tokens: seq<Id>)
    requires |tokens| >= MAX_CLAIM
    ensures ClaimRows(box, now, limit, tokens).totals == box.totals
  {
  }
}
