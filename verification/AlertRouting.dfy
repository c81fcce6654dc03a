/**
 * Which deliveries an evaluation queues: for each notification one per channel its rule asks for, fresh and
 * due at once.
 */
module AlertRouting {
  import opened Wrappers
  import opened AlertTypes
  import opened Alerting
  import opened AlertLifecycle
  import opened AlertOutcome
  import opened AlertEvaluation
  import O = Outbox
  import R = OutboxRuns

  /** A delivery that has to be queued. */
  datatype Delivery = Delivery(notification: Notification, channel: Channel, key: Id)

  /** The deliveries of one notification, by what is asked for. */
  function Wanted(n: Notification, webhook: bool, email: bool, keys: (Id, Id)): seq<Delivery>
  {
    if webhook && email then [Delivery(n, Webhook, keys.0), Delivery(n, Email, keys.1)]
    else if webhook then [Delivery(n, Webhook, keys.0)]
    else if email then [Delivery(n, Email, keys.0)]
    else []
  }

  /** The deliveries of all notifications, by what their rules ask for. */
  function Deliveries(notes: seq<Notification>, rules: map<Id, Rule>, keys: seq<(Id, Id)>): seq<Delivery>
    requires |keys| >= |notes| && forall i :: 0 <= i < |notes| ==> notes[i].event.ruleId in rules
  {
    if notes == [] then []
    else
      var init, last := notes[..|notes| - 1], notes[|notes| - 1];
      var r := rules[last.event.ruleId];
      Deliveries(init, rules, keys) + Wanted(last, r.notifyWebhook, r.notifyEmail, keys[|notes| - 1])
  }

  /** The row is this delivery, never tried and due at `now`. */
  predicate Queued(row: O.Row, d: Delivery, now: Time)
  {
    && row.notification == d.notification && row.channel == d.channel && row.idempotencyKey == d.key
    && row.state == O.Pending && row.attempts == 0 && row.nextAttempt == now && row.created == now
    && row.updated == now && row.leaseToken == None && row.leaseExpires == None && row.lastError == None
    && row.deliveredAt == None
  }

  /** The box grew by exactly these deliveries, in order, and nothing else changed. */
  ghost predicate GrewBy(box: O.Box, b: O.Box, ds: seq<Delivery>, now: Time)
  {
    && b.nextId == box.nextId + |ds| && b.totals == box.totals
    && (forall id :: id in box.rows ==> id in b.rows && b.rows[id] == box.rows[id])
    && (forall id :: id in b.rows && id !in box.rows ==> box.nextId <= id < b.nextId)
    && (forall id :: box.nextId <= id < b.nextId ==> id in b.rows && Queued(b.rows[id], ds[id - box.nextId], now))
  }

  lemma {:induction false} GrewThen(
    box: O.Box, b: O.Box, b2: O.Box, ds: seq<Delivery>, more: seq<Delivery>, now: Time)
    requires GrewBy(box, b, ds, now) && GrewBy(b, b2, more, now)
    requires forall id :: id in b.rows ==> id < b.nextId
    ensures GrewBy(box, b2, ds + more, now)
  {
    hide Queued;
    forall id | box.nextId <= id < b2.nextId
      ensures id in b2.rows && Queued(b2.rows[id], (ds + more)[id - box.nextId], now)
    {
      if id < b.nextId {
        assert (ds + more)[id - box.nextId] == ds[id - box.nextId];
      } else {
        assert (ds + more)[id - box.nextId] == more[id - b.nextId];
      }
    }
  }

  lemma {:induction false} EnqueueGrows(
    box: O.Box, n: Notification, keys: (Id, Id), now: Time, tooLarge: Notification -> bool)
    requires R.RowsOk(box) && O.Enqueue(box, n, [keys.0, keys.1], now, tooLarge).Ok?
    ensures var b := O.Enqueue(box, n, [keys.0, keys.1], now, tooLarge).value;
      R.RowsOk(b) && GrewBy(box, b, Wanted(n, n.webhook, n.email, keys), now)
  {
    hide O.Insert, O.Outstanding;
    R.InsertEffect(box, n, Channels(n), [keys.0, keys.1], now);
  }

  lemma {:induction false} EnqueueAllGrows(
    box: O.Box, notes: seq<Notification>, rules: map<Id, Rule>, keys: seq<(Id, Id)>, now: Time,
    tooLarge: Notification -> bool)
    requires R.RowsOk(box) && |keys| >= |notes| && EnqueueAll(box, notes, keys, now, tooLarge).Ok?
    requires forall i :: 0 <= i < |notes| ==>
      notes[i].event.ruleId in rules && Routed(notes[i], rules[notes[i].event.ruleId])
    ensures var b := EnqueueAll(box, notes, keys, now, tooLarge).value;
      R.RowsOk(b) && GrewBy(box, b, Deliveries(notes, rules, keys), now)
    decreases |notes|
  {
    hide O.Enqueue, Wanted, GrewBy;
    if notes == [] {
      GrewByNothing(box, now);
    } else {
      var init, last := notes[..|notes| - 1], notes[|notes| - 1];
      EnqueueAllGrows(box, init, rules, keys, now, tooLarge);
      var b := EnqueueAll(box, init, keys, now, tooLarge).value;
      var b2 := EnqueueAll(box, notes, keys, now, tooLarge).value;
      EnqueueGrows(b, last, keys[|notes| - 1], now, tooLarge);
      GrewThen(box, b, b2, Deliveries(init, rules, keys),
        Wanted(last, last.webhook, last.email, keys[|notes| - 1]), now);
    }
  }

  lemma {:induction false} GrewByNothing(box: O.Box, now: Time)
    ensures GrewBy(box, box, [], now)
  {
  }

  /** Every notification belongs to an enabled rule and asks for that rule's channels. */
  lemma {:induction false} NotesAreRouted(
    db: Db, order: seq<Id>, signals: seq<Signal>, now: Time, i: nat)
    requires DbOk(db) && Visits(order, db.rules)
    requires i < |EvaluateRules(db.tables, db.rules, order, signals, now).1|
    ensures var n := EvaluateRules(db.tables, db.rules, order, signals, now).1[i];
      Enabled(db, n.event.ruleId) && Routed(n, db.rules[n.event.ruleId])
  {
    hide EvaluateRules, DbOk, Visits, FirstOf, LastOf, DueAgain, Ended, MustTell;
    var (t2, notes) := EvaluateRules(db.tables, db.rules, order, signals, now);
    NotesAfterEvaluate(db, order, signals, now, db.(tables := t2), notes[i].eventId);
    assert NoteFits(db.tables, t2, db.rules[t2.events[notes[i].eventId].ruleId], signals, now, notes[i]);
  }

  /**
   * A successful evaluation queues, for each notification it returns, one webhook delivery if the rule of its
   * event asks for webhooks and one e-mail delivery if it asks for e-mail, and nothing else.
   */
  lemma {:induction false} EvaluationIsRouted(
    db: Db, order: seq<Id>, signals: seq<Signal>, now: Time, keys: seq<(Id, Id)>, tooLarge: Notification -> bool)
    requires DbOk(db) && R.BoxOk(db.box) && Visits(order, db.rules)
    requires |keys| >= |EvaluateRules(db.tables, db.rules, order, signals, now).1|
    requires Evaluate(db, order, signals, now, keys, tooLarge).Ok?
    ensures var (db2, notes) := Evaluate(db, order, signals, now, keys, tooLarge).value;
      && |keys| >= |notes|
      && (forall i :: 0 <= i < |notes| ==> Enabled(db, notes[i].event.ruleId))
      && GrewBy(db.box, db2.box, Deliveries(notes, db.rules, keys), now)
  {
    hide EvaluateRules, DbOk, Visits, GrewBy, EnqueueAll, Routed;
    var notes := EvaluateRules(db.tables, db.rules, order, signals, now).1;
    forall i | 0 <= i < |notes|
      ensures Enabled(db, notes[i].event.ruleId) && Routed(notes[i], db.rules[notes[i].event.ruleId])
    {
      NotesAreRouted(db, order, signals, now, i);
    }
    EnqueueAllGrows(db.box, notes, db.rules, keys, now, tooLarge);
  }
}
