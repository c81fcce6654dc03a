/** Spacing of repeated notifications, and all-or-nothing use of the delivery queue. */
module AlertReminders {
  import opened Wrappers
  import opened AlertTypes
  import opened Alerting
  import opened AlertLifecycle
  import O = Outbox
  import R = OutboxRuns

  /** The notification tells of event `id` firing. */
  predicate TellsOf(n: Notification, id: nat)
  {
    !n.resolved && n.eventId == id
  }

  /** Among the notifications is one that tells of event `id` firing. */
  predicate Fired(notes: seq<Notification>, id: nat)
  {
    exists i :: 0 <= i < |notes| && TellsOf(notes[i], id)
  }

  lemma {:induction false} FiredConcat(a: seq<Notification>, b: seq<Notification>, id: nat)
    ensures Fired(a + b, id) <==> Fired(a, id) || Fired(b, id)
  {
    if Fired(a, id) {
      var i :| 0 <= i < |a| && TellsOf(a[i], id);
      assert (a + b)[i] == a[i];
    }
    if Fired(b, id) {
      var i :| 0 <= i < |b| && TellsOf(b[i], id);
      assert (a + b)[|a| + i] == b[i];
    }
    if Fired(a + b, id) {
      var i :| 0 <= i < |a + b| && TellsOf((a + b)[i], id);
      assert i < |a| ==> a[i] == (a + b)[i];
      assert i >= |a| ==> b[i - |a|] == (a + b)[i];
    }
  }

  /**
   * How evaluating rule `r` may treat event `id`: it fires only if it is new or its cooldown has passed,
   * and then the time is recorded; otherwise the recorded time stays.
   */
  predicate Told(t: Tables, t2: Tables, notes: seq<Notification>, r: Rule, now: Time, id: nat)
  {
    && (Fired(notes, id) ==>
          && id in t2.events && t2.events[id].ruleId == r.id && t2.events[id].lastNotified == Some(now)
          && (id in t.events ==> Remind(t.events[id], r.cooldownSeconds, now)))
    && (!Fired(notes, id) && id in t.events ==>
          id in t2.events && t2.events[id].lastNotified == t.events[id].lastNotified)
  }

  lemma {:induction false} FireTold(t: Tables, r: Rule, s: Signal, now: Time, id: nat)
    requires TablesOk(t)
    ensures Told(t, Fire(t, r, s, now).0, Fire(t, r, s, now).1, r, now, id)
  {
    var (t2, notes) := Fire(t, r, s, now);
    var ids := ActiveFor(t.events, r.id, s.subject);
    if Fired(notes, id) {
      assert notes[0].eventId == id;
    }
    if notes != [] {
      assert Fired(notes, notes[0].eventId);
    }
  }

  lemma {:induction false} ToldThen(
    t: Tables, t1: Tables, t2: Tables, a: seq<Notification>, b: seq<Notification>, r: Rule, now: Time, id: nat)
    requires RuleOk(r) && Told(t, t1, a, r, now, id) && Told(t1, t2, b, r, now, id) && Advances(t1, t2, r.id)
    ensures Told(t, t2, a + b, r, now, id)
    ensures Fired(a, id) ==> !Fired(b, id)
  {
    hide Fired;
    FiredConcat(a, b, id);
    if id in t1.events {
      assert Follows(t1.events[id], t2.events[id], r.id);
    }
  }

  lemma {:induction false} FireAllTold(t: Tables, r: Rule, signals: seq<Signal>, now: Time, id: nat)
    requires TablesOk(t) && RuleOk(r)
    ensures Told(t, FireAll(t, r, signals, now).0, FireAll(t, r, signals, now).1, r, now, id)
    decreases |signals|
  {
    hide Fire, Fires, TablesOk;
    if signals == [] {
    } else {
      var n := |signals|;
      var init, last := signals[..n - 1], signals[n - 1];
      FireAllTold(t, r, init, now, id);
      FireAllEffect(t, r, init, now);
      var (t1, n1) := FireAll(t, r, init, now);
      if Fires(r, last) {
        FireTold(t1, r, last, now, id);
        FireEffect(t1, r, last, now);
        ToldThen(t, t1, Fire(t1, r, last, now).0, n1, Fire(t1, r, last, now).1, r, now, id);
      }
    }
  }

  lemma {:induction false} EndNotesResolved(events: Events, r: Rule, ids: set<nat>, now: Time)
    requires ids <= events.Keys
    ensures forall i :: 0 <= i < |EndNotes(events, r, ids, now)| ==> EndNotes(events, r, ids, now)[i].resolved
    decreases |ids|
  {
    if ids == {} {
    } else {
      EndNotesResolved(events, r, ids - {Least(ids)}, now);
    }
  }

  lemma {:induction false} RuleTold(t: Tables, r: Rule, signals: seq<Signal>, now: Time, id: nat)
    requires TablesOk(t) && RuleOk(r)
    ensures Told(t, EvaluateRule(t, r, signals, now).0, EvaluateRule(t, r, signals, now).1, r, now, id)
  {
    hide FireAll, FiringSubjects, TablesOk;
    var (t1, n1) := FireAll(t, r, signals, now);
    var ended := EndedIds(t1.events, r.id, FiringSubjects(r, signals));
    FireAllTold(t, r, signals, now, id);
    EndNotesResolved(t1.events, r, ended, now);
    var notes := EndNotes(t1.events, r, ended, now);
    assert !Fired(notes, id);
    FiredConcat(n1, notes, id);
  }

  // ---------------------------------------------------------------- one evaluation

  /** The same for a whole evaluation: the cooldown is that of the event's own rule. */
  ghost predicate ToldByRules(t: Tables, t2: Tables, notes: seq<Notification>, rules: map<Id, Rule>, now: Time, id: nat)
  {
    && (Fired(notes, id) ==>
          && id in t2.events && t2.events[id].lastNotified == Some(now) && t2.events[id].ruleId in rules
          && (id in t.events ==> Remind(t.events[id], rules[t2.events[id].ruleId].cooldownSeconds, now)))
    && (!Fired(notes, id) && id in t.events ==>
          id in t2.events && t2.events[id].lastNotified == t.events[id].lastNotified)
  }

  lemma {:induction false} ToldByRulesThen(
    t: Tables, t1: Tables, t2: Tables, a: seq<Notification>, b: seq<Notification>, rules: map<Id, Rule>, last: Id,
    now: Time, id: nat)
    requires last in rules && rules[last].id == last && RuleOk(rules[last])
    requires ToldByRules(t, t1, a, rules, now, id) && Told(t1, t2, b, rules[last], now, id) && Advances(t1, t2, last)
    requires Numbered(t) && Later(t, t1)
    ensures ToldByRules(t, t2, a + b, rules, now, id)
    ensures !(Fired(a, id) && Fired(b, id))
  {
    hide Fired, UniqueActive;
    FiredConcat(a, b, id);
    if id in t1.events {
      assert Follows(t1.events[id], t2.events[id], last);
    }
    if Fired(a, id) && Fired(b, id) {
      assert false;
    }
  }

  lemma {:induction false} RulesTold(
    t: Tables, rules: map<Id, Rule>, order: seq<Id>, signals: seq<Signal>, now: Time, id: nat)
    requires TablesOk(t) && forall k :: k in rules ==> rules[k].id == k && RuleOk(rules[k])
    ensures var r := EvaluateRules(t, rules, order, signals, now); ToldByRules(t, r.0, r.1, rules, now, id)
    decreases |order|
  {
    hide EvaluateRule, TablesOk, Told, Advances, Later, RuleOk, ActiveSubjects, FiringSubjects;
    if order == [] {
    } else {
      var init, last := order[..|order| - 1], order[|order| - 1];
      RulesTold(t, rules, init, signals, now, id);
      RulesEffect(t, rules, init, signals, now, last);
      RulesLater(t, rules, init, signals, now);
      var (t1, n1) := EvaluateRules(t, rules, init, signals, now);
      if last in rules && rules[last].enabled {
        RuleTold(t1, rules[last], signals, now, id);
        RuleEffect(t1, rules[last], signals, now);
        var (t2, n2) := EvaluateRule(t1, rules[last], signals, now);
        assert Numbered(t) by { TablesNumbered(t); }
        ToldByRulesThen(t, t1, t2, n1, n2, rules, last, now, id);
      }
    }
  }

  lemma {:induction false} TablesNumbered(t: Tables)
    requires TablesOk(t)
    ensures Numbered(t)
  {
  }

  // ---------------------------------------------------------------- at most once in an evaluation

  /** No two of the notifications tell of event `id` firing. */
  predicate FiredOnce(notes: seq<Notification>, id: nat)
  {
    forall i, j :: 0 <= i < j < |notes| ==> !TellsOf(notes[i], id) || !TellsOf(notes[j], id)
  }

  lemma {:induction false} OnceConcat(a: seq<Notification>, b: seq<Notification>, id: nat)
    requires FiredOnce(a, id) && FiredOnce(b, id) && !(Fired(a, id) && Fired(b, id))
    ensures FiredOnce(a + b, id)
  {
    forall i, j | 0 <= i < |a| && 0 <= j < |b| ensures !TellsOf(a[i], id) || !TellsOf(b[j], id) {
    }
  }

  lemma {:induction false} FireAllOnce(t: Tables, r: Rule, signals: seq<Signal>, now: Time, id: nat)
    requires TablesOk(t) && RuleOk(r)
    ensures FiredOnce(FireAll(t, r, signals, now).1, id)
    decreases |signals|
  {
    hide Fires, TablesOk, Fired, Told;
    if signals == [] {
    } else {
      var init, last := signals[..|signals| - 1], signals[|signals| - 1];
      FireAllOnce(t, r, init, now, id);
      FireAllTold(t, r, init, now, id);
      FireAllEffect(t, r, init, now);
      var (t1, n1) := FireAll(t, r, init, now);
      if Fires(r, last) {
        FireTold(t1, r, last, now, id);
        FireEffect(t1, r, last, now);
        ToldThen(t, t1, Fire(t1, r, last, now).0, n1, Fire(t1, r, last, now).1, r, now, id);
        OnceConcat(n1, Fire(t1, r, last, now).1, id);
      }
    }
  }

  lemma {:induction false} RuleOnce(t: Tables, r: Rule, signals: seq<Signal>, now: Time, id: nat)
    requires TablesOk(t) && RuleOk(r)
    ensures FiredOnce(EvaluateRule(t, r, signals, now).1, id)
  {
    hide FireAll, FiringSubjects, TablesOk;
    var (t1, n1) := FireAll(t, r, signals, now);
    var ended := EndedIds(t1.events, r.id, FiringSubjects(r, signals));
    FireAllOnce(t, r, signals, now, id);
    EndNotesResolved(t1.events, r, ended, now);
    OnceConcat(n1, EndNotes(t1.events, r, ended, now), id);
  }

  /** One evaluation of all rules tells of an event firing at most once. */
  lemma {:induction false} RulesOnce(
    t: Tables, rules: map<Id, Rule>, order: seq<Id>, signals: seq<Signal>, now: Time, id: nat)
    requires TablesOk(t) && forall k :: k in rules ==> rules[k].id == k && RuleOk(rules[k])
    ensures FiredOnce(EvaluateRules(t, rules, order, signals, now).1, id)
    decreases |order|
  {
    hide EvaluateRule, TablesOk, Told, Advances, Later, RuleOk, ActiveSubjects, FiringSubjects, Fired, ToldByRules;
    if order == [] {
    } else {
      var init, last := order[..|order| - 1], order[|order| - 1];
      RulesOnce(t, rules, init, signals, now, id);
      RulesTold(t, rules, init, signals, now, id);
      RulesEffect(t, rules, init, signals, now, last);
      RulesLater(t, rules, init, signals, now);
      var (t1, n1) := EvaluateRules(t, rules, init, signals, now);
      if last in rules && rules[last].enabled {
        RuleOnce(t1, rules[last], signals, now, id);
        RuleTold(t1, rules[last], signals, now, id);
        RuleEffect(t1, rules[last], signals, now);
        var (t2, n2) := EvaluateRule(t1, rules[last], signals, now);
        assert Numbered(t) by { TablesNumbered(t); }
        ToldByRulesThen(t, t1, t2, n1, n2, rules, last, now, id);
        OnceConcat(n1, n2, id);
      }
    }
  }

  // ---------------------------------------------------------------- runs

  /** Action `m` of the run notified that event `id` is firing. */
  ghost predicate NotifiedAt(dbs: seq<Db>, actions: seq<Action>, tooLarge: Notification -> bool, m: nat, id: nat)
    requires IsRun(dbs, actions, tooLarge) && m < |actions|
  {
    && actions[m].Evaluating?
    && var r := Evaluate(dbs[m], actions[m].order, actions[m].signals, actions[m].at, actions[m].keys, tooLarge);
       r.Ok? && Fired(r.value.1, id)
  }

  /** The event is known and was last notified at `since` or later. */
  predicate NotifiedSince(db: Db, id: nat, since: Time)
  {
    && id in db.tables.events
    && db.tables.events[id].lastNotified.Some? && db.tables.events[id].lastNotified.value >= since
  }

  lemma {:induction false} StepNotified(db: Db, a: Action, tooLarge: Notification -> bool, id: nat, since: Time)
    requires DbOk(db) && Proper(db, a) && NotifiedSince(db, id, since)
    ensures NotifiedSince(Perform(db, a, tooLarge), id, since)
  {
    hide EvaluateRules, EnqueueAll, TablesOk, OnlyEnabledActive, Visits;
    if a.Evaluating? {
      RulesTold(db.tables, db.rules, a.order, a.signals, a.at, id);
    }
  }

  lemma {:induction false} FiringNotified(db: Db, a: Action, tooLarge: Notification -> bool, id: nat)
    requires DbOk(db) && Proper(db, a) && a.Evaluating?
    requires var r := Evaluate(db, a.order, a.signals, a.at, a.keys, tooLarge); r.Ok? && Fired(r.value.1, id)
    ensures NotifiedSince(Perform(db, a, tooLarge), id, a.at)
    ensures id in db.tables.events ==>
      var rule := db.tables.events[id].ruleId;
      rule in db.rules && Remind(db.tables.events[id], db.rules[rule].cooldownSeconds, a.at)
  {
    hide EvaluateRules, EnqueueAll, TablesOk, OnlyEnabledActive, Visits;
    RulesTold(db.tables, db.rules, a.order, a.signals, a.at, id);
    RulesLater(db.tables, db.rules, a.order, a.signals, a.at);
    var t2 := EvaluateRules(db.tables, db.rules, a.order, a.signals, a.at).0;
    if id in db.tables.events {
      assert StillEnded(db.tables.events[id], t2.events[id]);
    }
  }

  lemma {:induction false} NotifiedLater(
    dbs: seq<Db>, actions: seq<Action>, tooLarge: Notification -> bool, m: nat, n: nat, id: nat)
    requires IsRun(dbs, actions, tooLarge) && m < n < |dbs| && NotifiedAt(dbs, actions, tooLarge, m, id)
    ensures NotifiedSince(dbs[n], id, actions[m].at)
  {
    hide DbOk, Perform, NotifiedSince, Evaluate;
    if n == m + 1 {
      ReachableOk(dbs, actions, tooLarge, m);
      FiringNotified(dbs[m], actions[m], tooLarge, id);
    } else {
      NotifiedLater(dbs, actions, tooLarge, m, n - 1, id);
      ReachableOk(dbs, actions, tooLarge, n - 1);
      StepNotified(dbs[n - 1], actions[n - 1], tooLarge, id, actions[m].at);
    }
  }

  /** However the run went, one evaluation notifies that an event is firing at most once. */
  lemma {:induction false} OncePerEvaluation(
    dbs: seq<Db>, actions: seq<Action>, tooLarge: Notification -> bool, n: nat, id: nat)
    requires IsRun(dbs, actions, tooLarge) && n < |actions| && actions[n].Evaluating?
    ensures var db, a := dbs[n], actions[n];
      FiredOnce(EvaluateRules(db.tables, db.rules, a.order, a.signals, a.at).1, id)
  {
    hide Perform, EvaluateRules, TablesOk, OnlyEnabledActive, FiredOnce;
    ReachableOk(dbs, actions, tooLarge, n);
    RulesOnce(dbs[n].tables, dbs[n].rules, actions[n].order, actions[n].signals, actions[n].at, id);
  }

  /**
   * Two notifications that the same event is firing are at least the cooldown apart, by the cooldown its
   * rule has when the second one is sent.
   */
  lemma {:induction false} RemindersAreSpaced(
    dbs: seq<Db>, actions: seq<Action>, tooLarge: Notification -> bool, m: nat, n: nat, id: nat)
    requires IsRun(dbs, actions, tooLarge) && m < n < |actions|
    requires NotifiedAt(dbs, actions, tooLarge, m, id) && NotifiedAt(dbs, actions, tooLarge, n, id)
    ensures id in dbs[n].tables.events && dbs[n].tables.events[id].ruleId in dbs[n].rules
    ensures actions[n].at >= actions[m].at + dbs[n].rules[dbs[n].tables.events[id].ruleId].cooldownSeconds
  {
    hide Perform, Evaluate, TablesOk, OnlyEnabledActive;
    NotifiedLater(dbs, actions, tooLarge, m, n, id);
    ReachableOk(dbs, actions, tooLarge, n);
    FiringNotified(dbs[n], actions[n], tooLarge, id);
  }

  // ---------------------------------------------------------------- the queue

  /** Deliveries the notifications ask for. */
  function Demand(notes: seq<Notification>): nat
  {
    if notes == [] then 0 else Demand(notes[..|notes| - 1]) + |Channels(notes[|notes| - 1])|
  }

  /** Some notification that asks for a delivery is too large to be queued. */
  predicate Oversized(notes: seq<Notification>, tooLarge: Notification -> bool)
  {
    exists i :: 0 <= i < |notes| && (notes[i].webhook || notes[i].email) && tooLarge(notes[i])
  }

  /**
   * A batch is queued exactly when its total demand fits into what is left of the queue and nothing in it is
   * oversized; then exactly that many deliveries become outstanding. A refusal has the reason it gives.
   */
  lemma {:induction false} BatchFits(
    box: O.Box, notes: seq<Notification>, keys: seq<(Id, Id)>, now: Time, tooLarge: Notification -> bool)
    requires |keys| >= |notes| && R.BoxOk(box)
    ensures var r, open := EnqueueAll(box, notes, keys, now, tooLarge), |O.Outstanding(box.rows)|;
      && (r.Ok? <==> open + Demand(notes) <= 10_000 && !Oversized(notes, tooLarge))
      && (r == Err(QueueFull) ==> open + Demand(notes) > 10_000)
      && (r == Err(PayloadTooLarge) ==> Oversized(notes, tooLarge))
      && (r.Ok? ==> R.BoxOk(r.value) && |O.Outstanding(r.value.rows)| == open + Demand(notes))
    decreases |notes|
  {
    hide O.Outstanding;
    if notes == [] {
    } else {
      var n := |notes| - 1;
      var init, last := notes[..n], notes[n];
      BatchFits(box, init, keys, now, tooLarge);
      OversizedLast(notes, tooLarge);
      var r := EnqueueAll(box, init, keys, now, tooLarge);
      if r.Ok? {
        R.InsertEffect(r.value, last, Channels(last), [keys[n].0, keys[n].1], now);
      }
    }
  }

  lemma {:induction false} OversizedLast(notes: seq<Notification>, tooLarge: Notification -> bool)
    requires notes != []
    ensures var last := notes[|notes| - 1];
      Oversized(notes, tooLarge) <==>
      Oversized(notes[..|notes| - 1], tooLarge) || ((last.webhook || last.email) && tooLarge(last))
  {
    var init := notes[..|notes| - 1];
    if Oversized(init, tooLarge) {
      var i :| 0 <= i < |init| && (init[i].webhook || init[i].email) && tooLarge(init[i]);
      assert notes[i] == init[i];
    }
    if Oversized(notes, tooLarge) {
      var i :| 0 <= i < |notes| && (notes[i].webhook || notes[i].email) && tooLarge(notes[i]);
      assert i < |init| ==> notes[i] == init[i];
    }
  }
}
