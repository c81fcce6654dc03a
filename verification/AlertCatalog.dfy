/**
 * The alert catalog object: its tables, the loops of its transactions and their rollback, proved against
 * the functions of `Alerting` and `Outbox`.
 */
module AlertCatalog {
  import opened Wrappers
  import opened AlertTypes
  import opened Alerting
  import opened Sequences
  import opened AlertLifecycle
  import O = Outbox
  import R = OutboxRuns

  class Catalog {
    var rules: map<Id, Rule>
    var events: Events
    var nextEvent: nat
    var deliveries: O.Rows
    var nextDelivery: nat
    var totals: O.Totals

    ghost function Model(): Db
      reads this
    {
      Db(rules, Tables(events, nextEvent), O.Box(deliveries, nextDelivery, totals))
    }

    ghost predicate Valid()
      reads this
    {
      DbOk(Model()) && R.BoxOk(Model().box)
    }

    constructor ()
      ensures Model() == EMPTY && Valid()
    {
      rules, events, nextEvent := map[], map[], 1;
      deliveries, nextDelivery, totals := map[], 1, O.Totals(0, 0, 0);
      new;
      EmptyOk();
      R.EmptyOk();
    }

    // -------------------------------------------------------------- evaluation

    /** One matching signal. */
    method FireSignal(r: Rule, s: Signal, now: Time) returns (notes: seq<Notification>)
      requires UniqueActive(events)
      modifies this`events, this`nextEvent
      ensures (Tables(events, nextEvent), notes) == Fire(old(Tables(events, nextEvent)), r, s, now)
    {
      var ids := ActiveFor(events, r.id, s.subject);
      if ids == {} {
        var e := Started(r, s, now);
        notes := [Firing(r, nextEvent, e)];
        events := events[nextEvent := e];
        nextEvent := nextEvent + 1;
      } else {
        var id :| id in ids;
        OnlyOne(events, r.id, s.subject, id);
        var notify := Remind(events[id], r.cooldownSeconds, now);
        var e := Refreshed(events[id], s, now, notify);
        events := events[id := e];
        notes := if notify then [Firing(r, id, e)] else [];
      }
    }

    method FireSignals(r: Rule, signals: seq<Signal>, now: Time) returns (notes: seq<Notification>, firing: set<string>)
      requires TablesOk(Tables(events, nextEvent))
      modifies this`events, this`nextEvent
      ensures (Tables(events, nextEvent), notes) == FireAll(old(Tables(events, nextEvent)), r, signals, now)
      ensures firing == FiringSubjects(r, signals) && TablesOk(Tables(events, nextEvent))
    {
      hide Fire, Fires, UniqueActive, Advances, ActiveSubjects;
      notes, firing := [], {};
      for i := 0 to |signals|
        invariant (Tables(events, nextEvent), notes) == FireAll(old(Tables(events, nextEvent)), r, signals[..i], now)
        invariant firing == FiringSubjects(r, signals[..i])
        invariant TablesOk(Tables(events, nextEvent))
      {
        var upto := signals[..i + 1];
        assert upto[..|upto| - 1] == signals[..i];
        FiringSubjectsLast(r, upto);
        if Fires(r, signals[i]) {
          firing := firing + {signals[i].subject};
          FireEffect(Tables(events, nextEvent), r, signals[i], now);
          var more := FireSignal(r, signals[i], now);
          notes := notes + more;
        }
      }
      assert signals[..|signals|] == signals;
    }

    /** Resolves the rule's active events that no longer fire, one by one. */
    method ResolveEnded(r: Rule, firing: set<string>, now: Time) returns (notes: seq<Notification>)
      modifies this`events
      ensures var ended := EndedIds(old(events), r.id, firing);
        events == ResolveIds(old(events), ended, now) && notes == EndNotes(old(events), r, ended, now)
    {
      notes := [];
      var ended := EndedIds(events, r.id, firing);
      var rest := ended;
      assert events == ResolveIds(events, {}, now);
      while rest != {}
        invariant rest <= ended && events == ResolveIds(old(events), ended - rest, now)
        invariant notes + EndNotes(old(events), r, rest, now) == EndNotes(old(events), r, ended, now)
        decreases |rest|
      {
        var id := Least(rest);
        var e := Resolved(events[id], now);
        assert events[id] == old(events)[id];
        assert ResolveIds(old(events), ended - (rest - {id}), now) == events[id := e];
        notes := notes + [Notification(id, e, true, r.notifyWebhook, r.notifyEmail)];
        events := events[id := e];
        rest := rest - {id};
      }
      assert ended - rest == ended;
    }

    method EvaluateOneRule(r: Rule, signals: seq<Signal>, now: Time) returns (notes: seq<Notification>)
      requires TablesOk(Tables(events, nextEvent))
      modifies this`events, this`nextEvent
      ensures (Tables(events, nextEvent), notes) == EvaluateRule(old(Tables(events, nextEvent)), r, signals, now)
      ensures TablesOk(Tables(events, nextEvent))
    {
      hide FireAll, FiringSubjects, EndNotes, ResolveIds, UniqueActive, Advances, ActiveSubjects;
      RuleEffect(Tables(events, nextEvent), r, signals, now);
      var fired, firing := FireSignals(r, signals, now);
      var ended := ResolveEnded(r, firing, now);
      notes := fired + ended;
    }

    method EnqueueOne(
      n: Notification, keys: (Id, Id), now: Time, tooLarge: Notification -> bool)
      returns (failure: Option<Error>)
      modifies this`deliveries, this`nextDelivery
      ensures match O.Enqueue(old(Model().box), n, [keys.0, keys.1], now, tooLarge)
        case Ok(b) => failure == None && Model().box == b
        case Err(e) => failure == Some(e) && Model().box == old(Model().box)
    {
      var channels := Channels(n);
      if channels == [] { return None; }
      if |O.Outstanding(deliveries)| + |channels| > O.MAX_OUTSTANDING { return Some(QueueFull); }
      if tooLarge(n) { return Some(PayloadTooLarge); }
      var drawn := [keys.0, keys.1];
      for i := 0 to |channels|
        invariant O.Insert(Model().box, n, channels[i..], drawn[i..], now)
               == O.Insert(old(Model().box), n, channels, drawn, now)
      {
        deliveries := deliveries[nextDelivery := O.NewRow(n, channels[i], drawn[i], now)];
        nextDelivery := nextDelivery + 1;
        assert channels[i..][1..] == channels[i + 1..] && drawn[i..][1..] == drawn[i + 1..];
      }
      failure := None;
    }

    /** Evaluates every rule in the given order; on any failure the transaction leaves no trace. */
    method EvaluateSignals(
      order: seq<Id>, signals: seq<Signal>, now: Time, keys: seq<(Id, Id)>, tooLarge: Notification -> bool)
      returns (r: Result<seq<Notification>, Error>)
      requires Valid() && Visits(order, rules)
      requires |keys| >= |EvaluateRules(Tables(events, nextEvent), rules, order, signals, now).1|
      modifies this`events, this`nextEvent, this`deliveries, this`nextDelivery
      ensures match Evaluate(old(Model()), order, signals, now, keys, tooLarge)
        case Ok((db, notes)) => r == Ok(notes) && Model() == db
        case Err(e) => r == Err(e) && Model() == old(Model())
      ensures Valid()
    {
      hide EvaluateRule, TablesOk, ActiveSubjects, FiringSubjects, Visits, OnlyEnabledActive, R.BoxOk, O.Enqueue;
      var saved := (events, nextEvent, deliveries, nextDelivery);
      var notes: seq<Notification> := [];
      for i := 0 to |order|
        invariant (Tables(events, nextEvent), notes)
               == EvaluateRules(old(Tables(events, nextEvent)), rules, order[..i], signals, now)
        invariant TablesOk(Tables(events, nextEvent))
        invariant deliveries == old(deliveries) && nextDelivery == old(nextDelivery)
      {
        var upto := order[..i + 1];
        assert upto[..|upto| - 1] == order[..i] && upto[|upto| - 1] == order[i];
        if order[i] in rules && rules[order[i]].enabled {
          var more := EvaluateOneRule(rules[order[i]], signals, now);
          notes := notes + more;
        }
      }
      assert order[..|order|] == order;
      for i := 0 to |notes|
        invariant EnqueueAll(old(Model().box), notes[..i], keys, now, tooLarge) == Ok(Model().box)
        invariant (Tables(events, nextEvent), notes)
               == EvaluateRules(old(Tables(events, nextEvent)), rules, order, signals, now)
      {
        var upto := notes[..i + 1];
        assert upto[..|upto| - 1] == notes[..i] && upto[|upto| - 1] == notes[i];
        var failure := EnqueueOne(notes[i], keys[i], now, tooLarge);
        if failure.Some? {
          EnqueueAllFails(old(Model().box), notes, i + 1, keys, now, tooLarge, failure.value);
          events, nextEvent, deliveries, nextDelivery := saved.0, saved.1, saved.2, saved.3;
          return Err(failure.value);
        }
      }
      assert notes[..|notes|] == notes;
      r := Ok(notes);
      EvaluateKeeps(old(Model()), order, signals, now, Model());
      EnqueueAllKeeps(old(Model().box), notes, keys, now, tooLarge);
    }

    // -------------------------------------------------------------- the outbox

    /** Leases the listed rows one after the other, each under its own token. */
    method LeaseRows(ids: seq<nat>, tokens: seq<Id>, now: Time) returns (claims: seq<O.Claim>)
      requires |tokens| >= |ids| && Distinct(ids) && forall i :: 0 <= i < |ids| ==> ids[i] in deliveries
      modifies this`deliveries
      ensures deliveries == O.LeaseAll(old(deliveries), ids, tokens, now)
      ensures O.ClaimsMatch(claims, ids, deliveries, tokens)
    {
      claims := [];
      for i := 0 to |ids|
        invariant |claims| == i && deliveries.Keys == old(deliveries).Keys
        invariant O.LeaseAll(deliveries, ids[i..], tokens[i..], now) == O.LeaseAll(old(deliveries), ids, tokens, now)
        invariant forall j :: i <= j < |ids| ==> deliveries[ids[j]] == old(deliveries)[ids[j]]
        invariant forall j :: 0 <= j < i ==>
          claims[j] == O.ClaimOf(ids[j], O.Leased(old(deliveries)[ids[j]], tokens[j], now), tokens[j])
      {
        var id := ids[i];
        assert ids[i..][0] == id && tokens[i..][0] == tokens[i];
        assert ids[i..][1..] == ids[i + 1..] && tokens[i..][1..] == tokens[i + 1..];
        deliveries := deliveries[id := O.Leased(deliveries[id], tokens[i], now)];
        claims := claims + [O.ClaimOf(id, deliveries[id], tokens[i])];
      }
      R.LeaseAllEffect(old(deliveries), ids, tokens, now);
    }

    /** Leases due deliveries to the caller, in claim order and each under its own token. */
    method ClaimDeliveries(now: Time, limit: nat, tokens: seq<Id>) returns (claims: seq<O.Claim>)
      requires Valid() && |tokens| >= O.MAX_CLAIM && Distinct(tokens)
      modifies this`deliveries
      ensures Valid()
      ensures Model().box == O.ClaimRows(old(Model().box), now, limit, tokens)
      ensures var ids := if limit == 0 then [] else O.Selected(O.Tidied(old(deliveries), now), now, limit);
        O.ClaimsMatch(claims, ids, deliveries, tokens)
    {
      hide O.Selected, O.Tidied, O.Due, O.LeaseAll, O.ClaimOf, R.BoxOk, TablesOk;
      R.ApplyKeeps(Model().box, R.Claimed(now, limit, tokens), (_: Notification) => false);
      claims := [];
      if limit == 0 { return; }
      deliveries := O.Tidied(deliveries, now);
      var ids := O.Selected(deliveries, now, limit);
      R.SelectedEffect(deliveries, now, limit);
      claims := LeaseRows(ids, tokens, now);
    }

    method AcknowledgeDelivery(id: nat, token: Id, now: Time) returns (ok: bool)
      requires Valid()
      modifies this`deliveries, this`totals
      ensures Valid()
      ensures Model().box == O.Acknowledge(old(Model().box), id, token, now)
      ensures ok == O.HoldsLease(old(deliveries), id, token, now)
    {
      hide R.BoxOk, TablesOk;
      R.ApplyKeeps(Model().box, R.Acked(id, token, now), (_: Notification) => false);
      ok := O.HoldsLease(deliveries, id, token, now);
      if ok {
        deliveries := deliveries[id := deliveries[id].(state := O.Delivered, leaseExpires := None, leaseToken := None,
                                                       lastError := None, updated := now, deliveredAt := Some(now))];
        totals := totals.(delivered := totals.delivered + 1);
      }
    }

    method FailDelivery(id: nat, token: Id, now: Time, error: string) returns (state: Option<O.DeliveryState>)
      requires Valid()
      modifies this`deliveries, this`totals
      ensures Valid()
      ensures (Model().box, state) == O.Fail(old(Model().box), id, token, now, error)
    {
      hide R.BoxOk, TablesOk;
      R.ApplyKeeps(Model().box, R.Failed(id, token, now, error), (_: Notification) => false);
      if !O.HoldsLease(deliveries, id, token, now) { return None; }
      var row := deliveries[id];
      var dead := row.attempts >= O.MAX_ATTEMPTS;
      state := Some(if dead then O.DeadLetter else O.Pending);
      var next := if dead then now else now + O.RetryDelay(row.attempts);
      deliveries := deliveries[id := row.(state := state.value, nextAttempt := next, leaseExpires := None,
                                          leaseToken := None, lastError := Some(error), updated := now)];
      totals := totals.(failed := totals.failed + 1, deadLetters := totals.deadLetters + if dead then 1 else 0);
    }

    method RetryDelivery(id: nat, now: Time) returns (r: Result<O.RetryOutcome, Error>)
      requires Valid()
      modifies this`deliveries
      ensures Valid()
      ensures match O.Retry(old(Model().box), id, now)
        case Ok((b, outcome)) => r == Ok(outcome) && Model().box == b
        case Err(e) => r == Err(e) && Model().box == old(Model().box)
    {
      hide R.BoxOk, TablesOk;
      R.ApplyKeeps(Model().box, R.Retried(id, now), (_: Notification) => false);
      if id !in deliveries { return Ok(O.NotFound); }
      if deliveries[id].state != O.DeadLetter { return Ok(O.NotDeadLetter(deliveries[id].state)); }
      if |O.Outstanding(deliveries)| >= O.MAX_OUTSTANDING { return Err(QueueFull); }
      var row := deliveries[id].(state := O.Pending, attempts := 0, nextAttempt := now, leaseExpires := None,
                                 leaseToken := None, lastError := None, updated := now, deliveredAt := None);
      deliveries := deliveries[id := row];
      r := Ok(O.Retried(row));
    }

    // -------------------------------------------------------------- rules

    method Update(r: Rule, now: Time) returns (accepted: bool, found: bool)
      requires Valid()
      modifies this`rules, this`events
      ensures Valid() && (accepted <==> 30 <= r.cooldownSeconds <= 604_800)
      ensures !accepted ==> Model() == old(Model()) && !found
      ensures accepted ==> Model() == UpdateRule(old(Model()), r, now) && found == (r.id in old(rules))
      ensures found && !r.enabled ==> ActiveSubjects(events, r.id) == {}
    {
      accepted, found := RuleOk(r), false;
      if !accepted {
        return;
      }
      found := r.id in rules;
      if found {
        PerformKeeps(Model(), Updating(r, now), (_: Notification) => false);
        rules := rules[r.id := r];
        if !r.enabled {
          events := ResolveRuleEvents(Tables(events, nextEvent), r.id, "rule disabled", now).events;
          NoneActive(Model(), r.id);
        }
      }
    }

    method Delete(id: Id, now: Time) returns (found: bool)
      requires Valid()
      modifies this`rules, this`events
      ensures Valid() && Model() == DeleteRule(old(Model()), id, now) && found == (id in old(rules))
      ensures ActiveSubjects(events, id) == {}
    {
      PerformKeeps(Model(), Deleting(id, now), (_: Notification) => false);
      found := id in rules;
      events := ResolveRuleEvents(Tables(events, nextEvent), id, "rule deleted", now).events;
      rules := rules - {id};
      NoneActive(Model(), id);
    }
  }

  lemma {:induction false} OnlyOne(events: Events, rule: Id, subject: string, id: nat)
    requires UniqueActive(events) && id in ActiveFor(events, rule, subject)
    ensures ActiveFor(events, rule, subject) == {id}
  {
    forall j | j in ActiveFor(events, rule, subject) ensures j == id {
      assert j != id ==> BothActive(events[j], events[id]);
    }
  }

  lemma {:induction false} EnqueueAllKeeps(
    box: O.Box, notes: seq<Notification>, keys: seq<(Id, Id)>, now: Time, tooLarge: Notification -> bool)
    requires |keys| >= |notes| && R.BoxOk(box)
    ensures var r := EnqueueAll(box, notes, keys, now, tooLarge); r.Ok? ==> R.BoxOk(r.value)
    decreases |notes|
  {
    hide R.BoxOk, O.Enqueue;
    if notes == [] {
    } else {
      var init, pair := notes[..|notes| - 1], keys[|notes| - 1];
      EnqueueAllKeeps(box, init, keys, now, tooLarge);
      var r := EnqueueAll(box, init, keys, now, tooLarge);
      if r.Ok? {
        R.ApplyKeeps(r.value, R.Enqueued(notes[|notes| - 1], [pair.0, pair.1], now), tooLarge);
      }
    }
  }

  /** Once one enqueue fails, so does the whole batch, with the same error. */
  lemma {:induction false} EnqueueAllFails(
    box: O.Box, notes: seq<Notification>, n: nat, keys: seq<(Id, Id)>, now: Time, tooLarge: Notification -> bool,
    e: Error)
    requires |keys| >= |notes| && 0 < n <= |notes| && EnqueueAll(box, notes[..n], keys, now, tooLarge) == Err(e)
    ensures EnqueueAll(box, notes, keys, now, tooLarge) == Err(e)
    decreases |notes|
  {
    if n == |notes| {
      assert notes[..n] == notes;
    } else {
      var init := notes[..|notes| - 1];
      assert init[..n] == notes[..n];
      EnqueueAllFails(box, init, n, keys, now, tooLarge, e);
    }
  }
}
