/**
 * The notification outbox: a table of deliveries leased to workers under fencing tokens. Each operation
 * is one transaction on the table and its running totals.
 */
module Outbox {
  import opened Wrappers
  import opened AlertTypes
  import opened Bytes

  const MAX_OUTSTANDING := 10_000
  const LEASE_SECONDS := 60
  const MAX_ATTEMPTS := 10
  const BACKOFF_BASE := 5
  const BACKOFF_MAX := 3_600
  const RETENTION_SECONDS := 2_592_000
  const MAX_CLAIM := 64

  datatype DeliveryState = Pending | Delivering | Delivered | DeadLetter

  datatype Row = Row(
    idempotencyKey: Id,
    notification: Notification,
    channel: Channel,
    state: DeliveryState,
    attempts: nat,
    nextAttempt: Time,
    leaseExpires: Option<Time>,
    leaseToken: Option<Id>,
    lastError: Option<string>,
    created: Time,
    updated: Time,
    deliveredAt: Option<Time>)

  type Rows = map<nat, Row>

  datatype Totals = Totals(delivered: nat, failed: nat, deadLetters: nat)

  datatype Box = Box(rows: Rows, nextId: nat, totals: Totals)

  const EMPTY := Box(map[], 1, Totals(0, 0, 0))

  /** What a worker receives when it claims a delivery. */
  datatype Claim = Claim(
    id: nat, idempotencyKey: Id, leaseToken: Id, channel: Channel, notification: Notification, attempts: nat)

  predicate Open(row: Row)
  {
    row.state == Pending || row.state == Delivering
  }

  function Outstanding(rows: Rows): set<nat>
  {
    set id | id in rows && Open(rows[id])
  }

  // ---------------------------------------------------------------- enqueue

  function NewRow(n: Notification, channel: Channel, key: Id, now: Time): Row
  {
    Row(key, n, channel, Pending, 0, now, None, None, None, now, now, None)
  }

  function Insert(box: Box, n: Notification, channels: seq<Channel>, keys: seq<Id>, now: Time): Box
    requires |keys| >= |channels|
    decreases |channels|
  {
    if channels == [] then box
    else Insert(box.(rows := box.rows[box.nextId := NewRow(n, channels[0], keys[0], now)], nextId := box.nextId + 1),
                n, channels[1..], keys[1..], now)
  }

  /** Adds one delivery per requested channel, or none when the queue has no room for all of them. */
  function Enqueue(
    box: Box, n: Notification, keys: seq<Id>, now: Time, tooLarge: Notification -> bool): Result<Box, Error>
    requires |keys| >= 2
  {
    var channels := Channels(n);
    if channels == [] then Ok(box)
    else if |Outstanding(box.rows)| + |channels| > MAX_OUTSTANDING then Err(QueueFull)
    else if tooLarge(n) then Err(PayloadTooLarge)
    else Ok(Insert(box, n, channels, keys, now))
  }

  // ---------------------------------------------------------------- claim

  predicate LeaseOver(row: Row, now: Time)
  {
    row.state == Delivering && row.leaseExpires.Some? && row.leaseExpires.value <= now
  }

  function Returned(row: Row, now: Time): Row
  {
    if LeaseOver(row, now) then
      row.(state := Pending, leaseExpires := None, leaseToken := None, updated := now,
           lastError := if row.lastError.Some? then row.lastError else Some("notification_lease_expired"))
    else row
  }

  function ReturnExpired(rows: Rows, now: Time): Rows
  {
    map id | id in rows :: Returned(rows[id], now)
  }

  predicate Stale(row: Row, now: Time)
  {
    (row.state == Delivered || row.state == DeadLetter) && row.updated < SatSub(now, RETENTION_SECONDS)
  }

  function Purge(rows: Rows, now: Time): Rows
  {
    map id | id in rows && !Stale(rows[id], now) :: rows[id]
  }

  predicate Due(row: Row, now: Time)
  {
    row.state == Pending && row.nextAttempt <= now
  }

  function DueIds(rows: Rows, now: Time): set<nat>
  {
    set id | id in rows && Due(rows[id], now)
  }

  /** The claim order: by time of the next attempt, then by id. */
  predicate Precedes(rows: Rows, i: nat, j: nat)
    requires i in rows && j in rows
  {
    rows[i].nextAttempt < rows[j].nextAttempt || (rows[i].nextAttempt == rows[j].nextAttempt && i < j)
  }

  predicate First(rows: Rows, ids: set<nat>, i: nat)
    requires ids <= rows.Keys
  {
    i in ids && forall j :: j in ids && j != i ==> Precedes(rows, i, j)
  }

  lemma {:induction false} FirstExists(rows: Rows, ids: set<nat>)
    requires ids <= rows.Keys && ids != {}
    ensures exists i :: First(rows, ids, i)
    decreases |ids|
  {
    var k :| k in ids;
    if ids == {k} {
      assert First(rows, ids, k);
    } else {
      FirstExists(rows, ids - {k});
      var i :| First(rows, ids - {k}, i);
      if Precedes(rows, i, k) {
        assert First(rows, ids, i);
      } else {
        forall j | j in ids && j != k ensures Precedes(rows, k, j) {
          assert j != i ==> Precedes(rows, i, j);
        }
        assert First(rows, ids, k);
      }
    }
  }

  lemma {:induction false} FirstUnique(rows: Rows, ids: set<nat>, i: nat, j: nat)
    requires ids <= rows.Keys && First(rows, ids, i) && First(rows, ids, j)
    ensures i == j
  {
    if i != j { assert false; }
  }

  /** The first `limit` of the given rows in claim order. */
  function Select(rows: Rows, ids: set<nat>, limit: nat): seq<nat>
    requires ids <= rows.Keys
    decreases limit
  {
    if limit == 0 || ids == {} then []
    else
      FirstExists(rows, ids);
      FirstIsUnique(rows, ids);
      var i :| First(rows, ids, i);
      [i] + Select(rows, ids - {i}, limit - 1)
  }

  lemma {:induction false} FirstIsUnique(rows: Rows, ids: set<nat>)
    requires ids <= rows.Keys
    ensures forall i, j :: First(rows, ids, i) && First(rows, ids, j) ==> i == j
  {
    forall i, j | First(rows, ids, i) && First(rows, ids, j) ensures i == j {
      FirstUnique(rows, ids, i, j);
    }
  }

  function Leased(row: Row, token: Id, now: Time): Row
  {
    row.(state := Delivering, attempts := row.attempts + 1, leaseExpires := Some(now + LEASE_SECONDS),
         leaseToken := Some(token), updated := now)
  }

  function LeaseAll(rows: Rows, ids: seq<nat>, tokens: seq<Id>, now: Time): Rows
    requires |tokens| >= |ids|
    decreases |ids|
  {
    if ids == [] then rows
    else if ids[0] in rows then
      LeaseAll(rows[ids[0] := Leased(rows[ids[0]], tokens[0], now)], ids[1..], tokens[1..], now)
    else LeaseAll(rows, ids[1..], tokens[1..], now)
  }

  function Clamp(limit: nat): nat
  {
    if limit < 1 then 1 else if limit > MAX_CLAIM then MAX_CLAIM else limit
  }

  /** The table as a claim finds it after returning expired leases and deleting old settled rows. */
  function Tidied(rows: Rows, now: Time): Rows
  {
    Purge(ReturnExpired(rows, now), now)
  }

  function Selected(rows: Rows, now: Time, limit: nat): seq<nat>
  {
    Select(rows, DueIds(rows, now), Clamp(limit))
  }

  lemma {:induction false} SelectSize(rows: Rows, ids: set<nat>, limit: nat)
    requires ids <= rows.Keys
    ensures |Select(rows, ids, limit)| == if limit <= |ids| then limit else |ids|
    decreases limit
  {
    if limit != 0 && ids != {} {
      var i := Select(rows, ids, limit)[0];
      SelectSize(rows, ids - {i}, limit - 1);
    }
  }

  function ClaimRows(box: Box, now: Time, limit: nat, tokens: seq<Id>): Box
    requires |tokens| >= MAX_CLAIM
  {
    if limit == 0 then box
    else
      var rows := Tidied(box.rows, now);
      SelectSize(rows, DueIds(rows, now), Clamp(limit));
      box.(rows := LeaseAll(rows, Selected(rows, now, limit), tokens, now))
  }

  /** What the worker is told about a row leased to it under `token`. */
  function ClaimOf(id: nat, row: Row, token: Id): Claim
  {
    Claim(id, row.idempotencyKey, token, row.channel, row.notification, row.attempts)
  }

  predicate ClaimsMatch(claims: seq<Claim>, ids: seq<nat>, rows: Rows, tokens: seq<Id>)
  {
    && |claims| == |ids| <= |tokens|
    && forall i :: 0 <= i < |ids| ==> ids[i] in rows && claims[i] == ClaimOf(ids[i], rows[ids[i]], tokens[i])
  }

  // ---------------------------------------------------------------- settle

  /** The row is leased under this very token and the lease is still running. */
  predicate HoldsLease(rows: Rows, id: nat, token: Id, now: Time)
  {
    && id in rows && rows[id].state == Delivering && rows[id].leaseToken == Some(token)
    && rows[id].leaseExpires.Some? && rows[id].leaseExpires.value > now
  }

  function Acknowledge(box: Box, id: nat, token: Id, now: Time): Box
  {
    if !HoldsLease(box.rows, id, token, now) then box
    else
      var row := box.rows[id].(state := Delivered, leaseExpires := None, leaseToken := None, lastError := None,
                               updated := now, deliveredAt := Some(now));
      box.(rows := box.rows[id := row], totals := box.totals.(delivered := box.totals.delivered + 1))
  }

  function RetryDelay(attempts: nat): nat
  {
    var exponent := if SatSub(attempts, 1) <= 31 then SatSub(attempts, 1) else 31;
    var delay := BACKOFF_BASE * Pow2(exponent);
    if delay <= BACKOFF_MAX then delay else BACKOFF_MAX
  }

  function Fail(box: Box, id: nat, token: Id, now: Time, error: string): (Box, Option<DeliveryState>)
  {
    if !HoldsLease(box.rows, id, token, now) then (box, None)
    else
      var row := box.rows[id];
      var dead := row.attempts >= MAX_ATTEMPTS;
      var state := if dead then DeadLetter else Pending;
      var row' := row.(state := state, nextAttempt := if dead then now else now + RetryDelay(row.attempts),
                       leaseExpires := None, leaseToken := None, lastError := Some(error), updated := now);
      var totals := box.totals.(failed := box.totals.failed + 1,
                                deadLetters := box.totals.deadLetters + if dead then 1 else 0);
      (box.(rows := box.rows[id := row'], totals := totals), Some(state))
  }

  datatype RetryOutcome = Retried(row: Row) | NotFound | NotDeadLetter(state: DeliveryState)

  function Retry(box: Box, id: nat, now: Time): Result<(Box, RetryOutcome), Error>
  {
    if id !in box.rows then Ok((box, NotFound))
    else if box.rows[id].state != DeadLetter then Ok((box, NotDeadLetter(box.rows[id].state)))
    else if |Outstanding(box.rows)| >= MAX_OUTSTANDING then Err(QueueFull)
    else
      var row := box.rows[id].(state := Pending, attempts := 0, nextAttempt := now, leaseExpires := None,
                               leaseToken := None, lastError := None, updated := now, deliveredAt := None);
      Ok((box.(rows := box.rows[id := row]), Retried(row)))
  }

  // ---------------------------------------------------------------- selection

  predicate InOrder(rows: Rows, s: seq<nat>)
  {
    forall i, j :: 0 <= i < j < |s| ==> s[i] in rows && s[j] in rows && Precedes(rows, s[i], s[j])
  }

  predicate AllPrecede(rows: Rows, s: seq<nat>, d: nat)
    requires d in rows
  {
    forall i :: 0 <= i < |s| ==> s[i] in rows && Precedes(rows, s[i], d)
  }

  /**
   * A claim takes due rows only, in strict claim order, and no due row left behind precedes one taken.
   */
  lemma {:induction false} SelectIsPrefix(rows: Rows, ids: set<nat>, limit: nat)
    requires ids <= rows.Keys
    ensures var s := Select(rows, ids, limit);
      && (forall id :: id in s ==> id in ids)
      && InOrder(rows, s)
      && (forall d :: d in ids && d !in s ==> AllPrecede(rows, s, d))
    decreases limit
  {
    if limit != 0 && ids != {} {
      var s := Select(rows, ids, limit);
      var first := s[0];
      FirstExists(rows, ids);
      FirstIsUnique(rows, ids);
      assert First(rows, ids, first);
      SelectIsPrefix(rows, ids - {first}, limit - 1);
      var rest := Select(rows, ids - {first}, limit - 1);
      assert s == [first] + rest;
      forall i, j | 0 <= i < j < |s| ensures s[i] in rows && s[j] in rows && Precedes(rows, s[i], s[j]) {
        assert s[j] == rest[j - 1] && rest[j - 1] in rest;
        if i > 0 {
          assert s[i] == rest[i - 1];
        }
      }
      forall d | d in ids && d !in s ensures AllPrecede(rows, s, d) {
        assert AllPrecede(rows, rest, d);
        forall i | 0 <= i < |s| ensures s[i] in rows && Precedes(rows, s[i], d) {
          if i > 0 {
            assert s[i] == rest[i - 1];
          }
        }
      }
    }
  }

  // ---------------------------------------------------------------- the retry schedule

  lemma {:induction false} Pow2Grows(m: nat, n: nat)
    requires m <= n
    ensures Pow2(m) <= Pow2(n)
  {
    if m == n {
    } else {
      Pow2Grows(m, n - 1);
    }
  }

  lemma {:induction false} Pow2Values()
    ensures Pow2(0) == 1 && Pow2(8) == 256 && Pow2(9) == 512 && Pow2(10) == 1024
  {
    assert Pow2(2) == 4 && Pow2(4) == 4 * Pow2(2) && Pow2(6) == 4 * Pow2(4) && Pow2(8) == 4 * Pow2(6);
    assert Pow2(9) == 2 * Pow2(8);
  }

  /** Delays never shrink from one attempt to the next, and lie between the base and the cap. */
  lemma {:induction false} DelayMonotone(m: nat, n: nat)
    requires m <= n
    ensures 5 <= RetryDelay(m) <= RetryDelay(n) <= 3_600
    ensures RetryDelay(n) == 3_600 <==> n > 10
  {
    Pow2Values();
    var em := if SatSub(m, 1) <= 31 then SatSub(m, 1) else 31;
    var en := if SatSub(n, 1) <= 31 then SatSub(n, 1) else 31;
    Pow2Grows(em, en);
    Pow2Grows(0, em);
    if n > MAX_ATTEMPTS {
      Pow2Grows(10, en);
    } else {
      Pow2Grows(en, 9);
    }
  }

  /** A delivery that is retried waits at most 1280 seconds: the cap of an hour is never reached. */
  lemma {:induction false} RetryIsPrompt(box: Box, id: nat, token: Id, now: Time, error: string)
    requires Fail(box, id, token, now, error).1 == Some(Pending)
    ensures var row := Fail(box, id, token, now, error).0.rows[id];
      now + 5 <= row.nextAttempt <= now + 1_280
  {
    Pow2Values();
    var n := SatSub(box.rows[id].attempts, 1);
    Pow2Grows(n, 8);
    Pow2Grows(0, n);
  }
}
