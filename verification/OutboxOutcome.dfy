/**
 * What claiming and settling come to, row by row: a reference in the table's own terms, with the limits as
 * numbers, and the proof that the transactions do exactly that.
 */
module OutboxOutcome {
  import opened Wrappers
  import A = AlertTypes
  import opened Bytes
  import opened Outbox
  import opened OutboxRuns

  // ---------------------------------------------------------------- claiming

  /** Settled, and not touched for thirty days. */
  predicate Forgotten(row: Row, now: A.Time)
  {
    (row.state == Delivered || row.state == DeadLetter) && row.updated + 30 * 24 * 60 * 60 < now
  }

  /** A lease that has run out by `now`. */
  predicate RanOut(row: Row, now: A.Time)
  {
    row.state == Delivering && row.leaseExpires.Some? && now >= row.leaseExpires.value
  }

  /** The row once a lease that ran out is taken back; the first error recorded stays. */
  function Freed(row: Row, now: A.Time): Row
  {
    if !RanOut(row, now) then row
    else Row(row.idempotencyKey, row.notification, row.channel, Pending, row.attempts, row.nextAttempt, None, None,
             Some(match row.lastError case Some(e) => e case None => "notification_lease_expired"),
             row.created, now, row.deliveredAt)
  }

  /** The row can be claimed at `now`. */
  predicate Ready(row: Row, now: A.Time)
  {
    (row.state == Pending || RanOut(row, now)) && now >= row.nextAttempt
  }

  ghost function ReadyIds(rows: Rows, now: A.Time): set<nat>
  {
    set id | id in rows && Ready(rows[id], now)
  }

  /** `i` has waited longer than `j`, or as long and is older. */
  predicate Ahead(rows: Rows, i: nat, j: nat)
    requires i in rows && j in rows
  {
    rows[i].nextAttempt <= rows[j].nextAttempt && (rows[i].nextAttempt == rows[j].nextAttempt ==> i < j)
  }

  /** How many of the ready rows a claim of `limit` takes, but never more than 64. */
  function Share(limit: nat, ready: nat): nat
  {
    if limit <= ready && limit <= 64 then limit else if ready <= 64 then ready else 64
  }

  /** The row under a new lease of a minute. */
  function Taken(row: Row, token: A.Id, now: A.Time): Row
  {
    Row(row.idempotencyKey, row.notification, row.channel, Delivering, row.attempts + 1, row.nextAttempt,
        Some(now + 60), Some(token), row.lastError, row.created, now, row.deliveredAt)
  }

  /** The rows of `taken` come first among the ready ones, in order. */
  ghost predicate TakesFirst(rows: Rows, now: A.Time, taken: seq<nat>)
  {
    && (forall i :: 0 <= i < |taken| ==> taken[i] in ReadyIds(rows, now))
    && (forall i, j :: 0 <= i < j < |taken| ==> taken[i] in rows && taken[j] in rows && Ahead(rows, taken[i], taken[j]))
    && (forall d, i :: d in ReadyIds(rows, now) && d !in taken && 0 <= i < |taken| ==>
          taken[i] in rows && Ahead(rows, taken[i], d))
  }

  /** The table after the claim: old settled rows are gone, the taken ones leased, the others freed if due. */
  ghost predicate ClaimFits(rows: Rows, after: Rows, now: A.Time, tokens: seq<A.Id>, taken: seq<nat>)
    requires |taken| <= |tokens|
  {
    && (forall id :: id in after <==> id in rows && !Forgotten(rows[id], now))
    && (forall id :: id in after && id !in taken ==> after[id] == Freed(rows[id], now))
    && (forall i :: 0 <= i < |taken| ==>
          taken[i] in after && after[taken[i]] == Taken(Freed(rows[taken[i]], now), tokens[i], now))
  }

  lemma {:induction false} TidiedFits(rows: Rows, now: A.Time, id: nat)
    ensures id in Tidied(rows, now) <==> id in rows && !Forgotten(rows[id], now)
    ensures id in Tidied(rows, now) ==> Tidied(rows, now)[id] == Freed(rows[id], now)
  {
  }

  lemma {:induction false} DueIsReady(rows: Rows, now: A.Time)
    requires forall id :: id in rows ==> RowOk(rows[id])
    ensures DueIds(Tidied(rows, now), now) == ReadyIds(rows, now)
  {
    hide Tidied;
    forall id ensures id in DueIds(Tidied(rows, now), now) <==> id in ReadyIds(rows, now) {
      TidiedFits(rows, now, id);
    }
  }

  lemma {:induction false} PrecedesIsAhead(rows: Rows, now: A.Time, i: nat, j: nat)
    requires i in Tidied(rows, now) && j in Tidied(rows, now) && i != j
    ensures i in rows && j in rows && (Precedes(Tidied(rows, now), i, j) <==> Ahead(rows, i, j))
  {
    hide Tidied;
    TidiedFits(rows, now, i);
    TidiedFits(rows, now, j);
  }

  /** A claim leases the first rows that are ready, as many as asked for, and tidies the table. */
  lemma {:induction false} ClaimExact(box: Box, now: A.Time, limit: nat, tokens: seq<A.Id>) returns (taken: seq<nat>)
    requires RowsOk(box) && |tokens| >= MAX_CLAIM && limit > 0
    ensures taken == Selected(Tidied(box.rows, now), now, limit)
    ensures |taken| == Share(limit, |ReadyIds(box.rows, now)|) <= |tokens|
    ensures TakesFirst(box.rows, now, taken)
    ensures var b := ClaimRows(box, now, limit, tokens);
      ClaimFits(box.rows, b.rows, now, tokens, taken) && b.nextId == box.nextId && b.totals == box.totals
  {
    hide Tidied, ClaimRows, TakesFirst, ClaimFits, DueIds;
    taken := Selected(Tidied(box.rows, now), now, limit);
    DueIsReady(box.rows, now);
    DueInTable(Tidied(box.rows, now), now);
    SelectSize(Tidied(box.rows, now), DueIds(Tidied(box.rows, now), now), Clamp(limit));
    TakenAreFirst(box, now, limit);
    ClaimRowsFit(box, now, limit, tokens);
    ClaimEffect(box, now, limit, tokens, 0);
  }

  lemma {:induction false} TakenAreFirst(box: Box, now: A.Time, limit: nat)
    requires RowsOk(box)
    ensures TakesFirst(box.rows, now, Selected(Tidied(box.rows, now), now, limit))
  {
    hide Tidied, Select, Precedes, Ahead, RowOk;
    var rows := Tidied(box.rows, now);
    DueInTable(rows, now);
    var taken := Selected(rows, now, limit);
    DueIsReady(box.rows, now);
    SelectIsPrefix(rows, DueIds(rows, now), Clamp(limit));
    SelectedEffect(rows, now, limit);
    forall i | 0 <= i < |taken| ensures taken[i] in ReadyIds(box.rows, now) {
      assert taken[i] in taken;
    }
    forall i, j | 0 <= i < j < |taken|
      ensures taken[i] in box.rows && taken[j] in box.rows && Ahead(box.rows, taken[i], taken[j])
    {
      PrecedesIsAhead(box.rows, now, taken[i], taken[j]);
    }
    forall d, i | d in ReadyIds(box.rows, now) && d !in taken && 0 <= i < |taken|
      ensures taken[i] in box.rows && Ahead(box.rows, taken[i], d)
    {
      assert d in rows && taken[i] in taken;
      assert AllPrecede(rows, taken, d);
      PrecedesIsAhead(box.rows, now, taken[i], d);
    }
  }

  lemma {:induction false} DueInTable(rows: Rows, now: A.Time)
    ensures DueIds(rows, now) <= rows.Keys
  {
  }

  lemma {:induction false} ClaimRowsFit(box: Box, now: A.Time, limit: nat, tokens: seq<A.Id>)
    requires RowsOk(box) && |tokens| >= MAX_CLAIM && limit > 0
    ensures var taken := Selected(Tidied(box.rows, now), now, limit);
      |taken| <= |tokens| && ClaimFits(box.rows, ClaimRows(box, now, limit, tokens).rows, now, tokens, taken)
  {
    hide Tidied, Selected, ClaimRows, Forgotten, Freed, Due, RowsOk;
    var rows, b := Tidied(box.rows, now), ClaimRows(box, now, limit, tokens);
    var taken := Selected(rows, now, limit);
    SelectedEffect(rows, now, limit);
    forall id ensures id in b.rows <==> id in box.rows && !Forgotten(box.rows[id], now) {
      ClaimEffect(box, now, limit, tokens, id);
      TidiedFits(box.rows, now, id);
    }
    forall id | id in b.rows && id !in taken ensures b.rows[id] == Freed(box.rows[id], now) {
      ClaimEffect(box, now, limit, tokens, id);
      TidiedFits(box.rows, now, id);
    }
    forall i | 0 <= i < |taken|
      ensures taken[i] in b.rows && b.rows[taken[i]] == Taken(Freed(box.rows[taken[i]], now), tokens[i], now)
    {
      ClaimEffect(box, now, limit, tokens, taken[i]);
      TidiedFits(box.rows, now, taken[i]);
    }
  }

  // ---------------------------------------------------------------- settling

  /** The lease of `id` runs, and under this token. */
  predicate Leases(rows: Rows, id: nat, token: A.Id, now: A.Time)
  {
    id in rows && rows[id].state == Delivering && rows[id].leaseToken == Some(token) && !RanOut(rows[id], now)
  }

  /** Only row `id` differs. */
  predicate OnlyRow(box: Box, b: Box, id: nat)
  {
    && b.nextId == box.nextId && b.rows.Keys == box.rows.Keys
    && forall j :: j in box.rows && j != id ==> b.rows[j] == box.rows[j]
  }

  /** An acknowledgement under a running lease marks the row delivered; any other changes nothing. */
  lemma {:induction false} AckExact(box: Box, id: nat, token: A.Id, now: A.Time)
    requires RowsOk(box)
    ensures var b := Acknowledge(box, id, token, now);
      if Leases(box.rows, id, token, now) then
        && OnlyRow(box, b, id)
        && b.totals == Totals(box.totals.delivered + 1, box.totals.failed, box.totals.deadLetters)
        && var row := box.rows[id];
           b.rows[id] == Row(row.idempotencyKey, row.notification, row.channel, Delivered, row.attempts,
                             row.nextAttempt, None, None, None, row.created, now, Some(now))
      else b == box
  {
  }

  /** When a row that failed its `n`-th attempt at `now` is tried again, if it is. */
  function NextTry(n: nat, now: A.Time): Option<A.Time>
  {
    if n >= 10 then None else Some(now + 5 * Pow2(if n == 0 then 0 else n - 1))
  }

  /** A failure under a running lease puts the row off, or gives it up after ten attempts. */
  lemma {:induction false} FailExact(box: Box, id: nat, token: A.Id, now: A.Time, error: string)
    requires RowsOk(box)
    ensures var (b, state) := Fail(box, id, token, now, error);
      if Leases(box.rows, id, token, now) then
        var row := box.rows[id];
        var next := NextTry(row.attempts, now);
        && OnlyRow(box, b, id) && state == Some(if next.Some? then Pending else DeadLetter)
        && b.totals == Totals(box.totals.delivered, box.totals.failed + 1,
                              box.totals.deadLetters + if next.Some? then 0 else 1)
        && b.rows[id] == Row(row.idempotencyKey, row.notification, row.channel, state.value, row.attempts,
                             if next.Some? then next.value else now, None, None, Some(error), row.created, now,
                             row.deliveredAt)
      else b == box && state == None
  {
    hide Pow2;
    if id in box.rows && box.rows[id].attempts < 10 {
      EarlyDelay(box.rows[id].attempts);
    }
  }

  lemma {:induction false} EarlyDelay(n: nat)
    requires n < 10
    ensures RetryDelay(n) == 5 * Pow2(if n == 0 then 0 else n - 1)
  {
    Pow2Values();
    Pow2Grows(if n == 0 then 0 else n - 1, 8);
  }

  /** A retry starts a dead letter afresh if fewer than 10,000 rows are open; otherwise it says why not. */
  lemma {:induction false} RetryExact(box: Box, id: nat, now: A.Time)
    ensures Retry(box, id, now) == Ok((box, NotFound)) <==> id !in box.rows
    ensures id in box.rows && box.rows[id].state != DeadLetter ==>
      Retry(box, id, now) == Ok((box, NotDeadLetter(box.rows[id].state)))
    ensures id in box.rows && box.rows[id].state == DeadLetter ==>
      (Retry(box, id, now) == Err(A.QueueFull) <==> |Outstanding(box.rows)| >= 10_000)
    ensures id in box.rows && box.rows[id].state == DeadLetter && |Outstanding(box.rows)| < 10_000 ==>
      var row := box.rows[id];
      var anew := Row(row.idempotencyKey, row.notification, row.channel, Pending, 0, now, None, None, None,
                       row.created, now, None);
      && Retry(box, id, now).Ok? && Retry(box, id, now).value.1 == RetryOutcome.Retried(anew)
      && var b := Retry(box, id, now).value.0; OnlyRow(box, b, id) && b.rows[id] == anew && b.totals == box.totals
  {
    hide Outstanding;
  }
}
