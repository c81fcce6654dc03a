/**
 * How often a delivery is tried: over every run the attempts of a row are the leases it was given since it
 * was queued or last retried by hand, and they decide when it is tried again and when it is given up.
 */
module OutboxAttempts {
  import opened Wrappers
  import A = AlertTypes
  import opened Bytes
  import opened Outbox
  import opened OutboxRuns

  /** The event is a claim that leased `id`: the row now carries one of the tokens drawn for the claim. */
  predicate LeasedIn(e: Event, after: Box, id: nat)
  {
    && e.Claimed? && id in after.rows
    && after.rows[id].leaseToken.Some? && after.rows[id].leaseToken.value in e.tokens
  }

  /** The event retries the dead letter `id`. */
  predicate Revives(before: Box, e: Event, after: Box, id: nat)
  {
    && e.Retried? && e.id == id && id in before.rows && before.rows[id].state == DeadLetter
    && id in after.rows && after.rows[id].state == Pending
  }

  function Counted(before: nat, revived: bool, leased: bool): nat
  {
    if revived then 0 else before + if leased then 1 else 0
  }

  /** How many claims have leased `id` since it was queued or last retried. */
  function LeaseCount(run: seq<Event>, n: nat, tooLarge: A.Notification -> bool, id: nat): nat
    requires n <= |run| && SuppliedRun(run)
  {
    if n == 0 then 0
    else
      var before, e, after := After(run, n - 1, tooLarge), run[n - 1], After(run, n, tooLarge);
      Counted(LeaseCount(run, n - 1, tooLarge, id), Revives(before, e, after, id), LeasedIn(e, after, id))
  }

  /** What one event does to the attempts of a row. */
  lemma {:induction false} AttemptsStep(box: Box, e: Event, tooLarge: A.Notification -> bool, id: nat)
    requires Supplied(e) && RowsOk(box) && id in Apply(box, e, tooLarge).rows
    requires id in box.rows && box.rows[id].leaseToken.Some? ==> box.rows[id].leaseToken.value !in TokensOf(e)
    ensures id !in box.rows ==>
      var b := Apply(box, e, tooLarge);
      id >= box.nextId && b.rows[id].attempts == 0 && !LeasedIn(e, b, id) && b.rows[id].state == Pending
    ensures id in box.rows ==>
      var b := Apply(box, e, tooLarge);
      && b.rows[id].attempts == Counted(box.rows[id].attempts, Revives(box, e, b, id), LeasedIn(e, b, id))
      && (b.rows[id].state == Delivering && box.rows[id].state != Delivering ==> LeasedIn(e, b, id))
  {
    hide ClaimRows, Insert, RetryDelay, Identity, Outstanding;
    match e
    case Enqueued(n, keys, at) => InsertEffect(box, n, A.Channels(n), keys, at);
    case Claimed(at, limit, tokens) =>
      if limit == 0 {
        NoClaim(box, at, tokens);
      } else {
        ClaimedRow(box, at, limit, tokens, id);
      }
    case Acked(_, _, _) =>
    case Failed(_, _, _, _) =>
    case Retried(_, _) =>
  }

  lemma {:induction false} NewTokens(run: seq<Event>, n: nat, tooLarge: A.Notification -> bool, id: nat)
    requires SuppliedRun(run) && FreshTokens(run) && n < |run|
    ensures var box := After(run, n, tooLarge);
      id in box.rows && box.rows[id].leaseToken.Some? ==> box.rows[id].leaseToken.value !in TokensOf(run[n])
  {
    hide Apply;
    FencedReachable(run, n, tooLarge);
    var box := After(run, n, tooLarge);
    if id in box.rows && box.rows[id].leaseToken.Some? {
      OldTokenIsNotDrawnAgain(run, n, box, id);
    }
  }

  /** The attempts of a row are its leases; while it is being delivered there was at least one. */
  lemma {:induction false} AttemptsAreLeases(run: seq<Event>, n: nat, tooLarge: A.Notification -> bool, id: nat)
    requires SuppliedRun(run) && FreshTokens(run) && n <= |run|
    ensures var box := After(run, n, tooLarge);
      && (id in box.rows ==> box.rows[id].attempts == LeaseCount(run, n, tooLarge, id))
      && (id in box.rows && box.rows[id].state == Delivering ==> LeaseCount(run, n, tooLarge, id) >= 1)
      && (id >= box.nextId ==> LeaseCount(run, n, tooLarge, id) == 0)
  {
    hide Apply, RowsOk, FreshTokens, SuppliedRun;
    if n == 0 {
    } else {
      AttemptsAreLeases(run, n - 1, tooLarge, id);
      CountStep(run, n - 1, tooLarge, id);
    }
  }

  lemma {:induction false} CountStep(run: seq<Event>, n: nat, tooLarge: A.Notification -> bool, id: nat)
    requires SuppliedRun(run) && FreshTokens(run) && n < |run|
    requires var box := After(run, n, tooLarge);
      && (id in box.rows ==> box.rows[id].attempts == LeaseCount(run, n, tooLarge, id))
      && (id in box.rows && box.rows[id].state == Delivering ==> LeaseCount(run, n, tooLarge, id) >= 1)
      && (id >= box.nextId ==> LeaseCount(run, n, tooLarge, id) == 0)
    ensures var box := After(run, n + 1, tooLarge);
      && (id in box.rows ==> box.rows[id].attempts == LeaseCount(run, n + 1, tooLarge, id))
      && (id in box.rows && box.rows[id].state == Delivering ==> LeaseCount(run, n + 1, tooLarge, id) >= 1)
      && (id >= box.nextId ==> LeaseCount(run, n + 1, tooLarge, id) == 0)
  {
    hide Apply, RowOk;
    var box := After(run, n, tooLarge);
    RowsReachable(run, n, tooLarge);
    RowsReachable(run, n + 1, tooLarge);
    StepRow(box, run[n], tooLarge, id);
    if id in After(run, n + 1, tooLarge).rows {
      NewTokens(run, n, tooLarge, id);
      AttemptsStep(box, run[n], tooLarge, id);
    }
  }

  // ---------------------------------------------------------------- what failing does

  lemma {:induction false} Delays(n: nat)
    requires 1 <= n < 10
    ensures RetryDelay(n) == 5 * Pow2(n - 1)
  {
    Pow2Values();
    Pow2Grows(n - 1, 8);
  }

  /** The `n`-th lease fails: before the tenth the row waits 5, 10, 20, ... seconds, from the tenth on it is dead. */
  lemma {:induction false} FailureOutcome(run: seq<Event>, j: nat, tooLarge: A.Notification -> bool)
    requires SuppliedRun(run) && FreshTokens(run) && j < |run| && FailSucceeds(After(run, j, tooLarge), run[j])
    ensures var n, id := LeaseCount(run, j, tooLarge, run[j].id), run[j].id;
      var rows := After(run, j + 1, tooLarge).rows;
      && n >= 1 && id in rows && rows[id].leaseToken == None && rows[id].lastError == Some(run[j].error)
      && (rows[id].state == DeadLetter <==> n >= 10)
      && (n < 10 ==> rows[id].state == Pending && rows[id].nextAttempt == run[j].at + 5 * Pow2(n - 1))
  {
    hide RetryDelay, Pow2;
    AttemptsAreLeases(run, j, tooLarge, run[j].id);
    var n := LeaseCount(run, j, tooLarge, run[j].id);
    if n < 10 {
      Delays(n);
    }
  }

  /** While a row waits, nothing touches it but a claim that finds it due. */
  lemma {:induction false} WaitingStep(box: Box, e: Event, tooLarge: A.Notification -> bool, id: nat)
    requires Supplied(e) && RowsOk(box) && id in box.rows && box.rows[id].state == Pending
    ensures var b := Apply(box, e, tooLarge);
      && id in b.rows
      && (if LeasedIn(e, b, id) then e.at >= box.rows[id].nextAttempt else b.rows[id] == box.rows[id])
  {
    hide ClaimRows, Insert, RetryDelay, Identity, Outstanding, Tidied, Selected;
    match e
    case Enqueued(n, keys, at) => InsertEffect(box, n, A.Channels(n), keys, at);
    case Claimed(at, limit, tokens) =>
      if limit == 0 {
        NoClaim(box, at, tokens);
      } else {
        WaitingClaim(box, at, limit, tokens, id);
      }
    case Acked(_, _, _) =>
    case Failed(_, _, _, _) =>
    case Retried(_, _) =>
  }

  lemma {:induction false} WaitingClaim(box: Box, at: A.Time, limit: nat, tokens: seq<A.Id>, id: nat)
    requires |tokens| >= MAX_CLAIM && limit > 0 && RowsOk(box) && id in box.rows && box.rows[id].state == Pending
    ensures var b := ClaimRows(box, at, limit, tokens);
      && id in b.rows
      && (b.rows[id] == box.rows[id]
          || (at >= box.rows[id].nextAttempt && b.rows[id].leaseToken.Some? && b.rows[id].leaseToken.value in tokens))
  {
    hide ClaimRows, Tidied, Selected;
    TidiedEffect(box.rows, at, id);
    ClaimEffect(box, at, limit, tokens, id);
    var s := Selected(Tidied(box.rows, at), at, limit);
    if id in s {
      var i :| 0 <= i < |s| && s[i] == id;
    }
  }

  lemma {:induction false} StillWaiting(run: seq<Event>, m: nat, n: nat, tooLarge: A.Notification -> bool, id: nat)
    requires SuppliedRun(run) && m <= n <= |run|
    requires var box := After(run, m, tooLarge); id in box.rows && box.rows[id].state == Pending
    requires forall h :: m <= h < n ==> !LeasedIn(run[h], After(run, h + 1, tooLarge), id)
    ensures id in After(run, n, tooLarge).rows
    ensures After(run, n, tooLarge).rows[id] == After(run, m, tooLarge).rows[id]
  {
    hide Apply, RowsOk, LeasedIn;
    if m == n {
    } else {
      StillWaiting(run, m, n - 1, tooLarge, id);
      RowsReachable(run, n - 1, tooLarge);
      WaitingStep(After(run, n - 1, tooLarge), run[n - 1], tooLarge, id);
      assert !LeasedIn(run[n - 1], After(run, n - 1 + 1, tooLarge), id);
    }
  }

  /** A failed delivery is leased again no earlier than its delay allows. */
  lemma {:induction false} BackoffIsHonoured(run: seq<Event>, i: nat, j: nat, tooLarge: A.Notification -> bool)
    requires SuppliedRun(run) && FreshTokens(run) && i < j < |run| && FailSucceeds(After(run, i, tooLarge), run[i])
    requires LeaseCount(run, i, tooLarge, run[i].id) < 10
    requires forall h :: i < h < j ==> !LeasedIn(run[h], After(run, h + 1, tooLarge), run[i].id)
    requires LeasedIn(run[j], After(run, j + 1, tooLarge), run[i].id)
    ensures LeaseCount(run, i, tooLarge, run[i].id) >= 1
    ensures run[j].at >= run[i].at + 5 * Pow2(LeaseCount(run, i, tooLarge, run[i].id) - 1)
  {
    hide Apply, RowsOk, LeasedIn, FreshTokens, LeaseCount;
    var id := run[i].id;
    FailureOutcome(run, i, tooLarge);
    StillWaiting(run, i + 1, j, tooLarge, id);
    RowsReachable(run, j, tooLarge);
    WaitingStep(After(run, j, tooLarge), run[j], tooLarge, id);
  }

  // ---------------------------------------------------------------- what claiming tells

  /** A claim names the row it leased, under its token, and says which attempt this is. */
  lemma {:induction false} ClaimTells(
    run: seq<Event>, m: nat, tooLarge: A.Notification -> bool, claims: seq<Claim>, i: nat)
    requires SuppliedRun(run) && FreshTokens(run) && m < |run| && run[m].Claimed? && run[m].limit > 0
    requires var e := run[m];
      ClaimsMatch(claims, Selected(Tidied(After(run, m, tooLarge).rows, e.at), e.at, e.limit),
        After(run, m + 1, tooLarge).rows, e.tokens)
    requires i < |claims|
    ensures var rows, claim := After(run, m + 1, tooLarge).rows, claims[i];
      && claim.id in rows && LeasedIn(run[m], After(run, m + 1, tooLarge), claim.id)
      && rows[claim.id].state == Delivering && rows[claim.id].leaseToken == Some(claim.leaseToken)
      && rows[claim.id].leaseExpires == Some(run[m].at + 60)
      && claim.attempts == LeaseCount(run, m + 1, tooLarge, claim.id) >= 1
      && rows[claim.id].idempotencyKey == claim.idempotencyKey && rows[claim.id].channel == claim.channel
      && rows[claim.id].notification == claim.notification
  {
    hide Tidied, Selected, Due, FreshTokens, LeaseCount;
    var box, e := After(run, m, tooLarge), run[m];
    ClaimEffect(box, e.at, e.limit, e.tokens, claims[i].id);
    AttemptsAreLeases(run, m + 1, tooLarge, claims[i].id);
  }
}
