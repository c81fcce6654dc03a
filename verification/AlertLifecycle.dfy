/** What evaluation and rule administration guarantee about alert events, over every run. */
module AlertLifecycle {
  import opened Wrappers
  import opened AlertTypes
  import opened Alerting
  import O = Outbox
  import R = OutboxRuns

  // ---------------------------------------------------------------- invariants of the event table

  /** Every event id is below the next one to be handed out. */
  predicate Numbered(t: Tables)
  {
    forall id :: id in t.events ==> id < t.nextEvent
  }

  /** At most one active event per rule and subject. */
  predicate UniqueActive(events: Events)
  {
    forall i, j :: i in events && j in events && i != j ==> !BothActive(events[i], events[j])
  }

  predicate BothActive(e: Event, f: Event)
  {
    e.active && f.active && e.ruleId == f.ruleId && e.subject == f.subject
  }

  predicate TablesOk(t: Tables)
  {
    Numbered(t) && UniqueActive(t.events)
  }

  /** Evaluating `rule` turned `t` into `t2`: only that rule's active events changed, and none was revived. */
  predicate Advances(t: Tables, t2: Tables, rule: Id)
  {
    && t.nextEvent <= t2.nextEvent
    && (forall id :: id in t.events ==> id in t2.events && Follows(t.events[id], t2.events[id], rule))
    && (forall id :: id in t2.events && id !in t.events ==> id >= t.nextEvent && t2.events[id].ruleId == rule)
  }

  predicate Follows(e: Event, e2: Event, rule: Id)
  {
    && e2.ruleId == e.ruleId && e2.subject == e.subject && e2.started == e.started
    && (!e.active || e.ruleId != rule ==> e2 == e)
  }

  lemma {:induction false} AdvancesThen(t: Tables, t1: Tables, t2: Tables, rule: Id)
    requires Numbered(t) && Advances(t, t1, rule) && Advances(t1, t2, rule)
    ensures Advances(t, t2, rule)
  {
    forall id | id in t.events ensures id in t2.events && Follows(t.events[id], t2.events[id], rule) {
      assert Follows(t.events[id], t1.events[id], rule);
      assert Follows(t1.events[id], t2.events[id], rule);
    }
  }

  // ---------------------------------------------------------------- one signal

  lemma {:induction false} FireEffect(t: Tables, r: Rule, s: Signal, now: Time)
    requires TablesOk(t)
    ensures var t2 := Fire(t, r, s, now).0;
      && TablesOk(t2) && Advances(t, t2, r.id)
      && (forall id :: id in t.events && t.events[id].active ==> t2.events[id].active)
      && ActiveSubjects(t2.events, r.id) == ActiveSubjects(t.events, r.id) + {s.subject}
  {
    var t2 := Fire(t, r, s, now).0;
    var ids := ActiveFor(t.events, r.id, s.subject);
    var before, after := ActiveSubjects(t.events, r.id), ActiveSubjects(t2.events, r.id);
    if ids == {} {
      assert t2.events[t.nextEvent].subject == s.subject;
      assert forall id :: id in t.events ==> t2.events[id] == t.events[id];
      assert UniqueActive(t2.events) by {
        forall id | id in t.events && t.events[id].active && t.events[id].ruleId == r.id
          ensures t.events[id].subject != s.subject
        {
          assert t.events[id].subject == s.subject ==> id in ids;
        }
      }
      assert s.subject in after;
      assert before <= after;
      assert after <= before + {s.subject};
    } else {
      SameSubjects(t.events, t2.events, r.id);
      var id :| id in ids;
      assert t.events[id].subject in before;
    }
  }

  lemma {:induction false} SameSubjects(a: Events, b: Events, rule: Id)
    requires a.Keys == b.Keys
    requires forall id :: id in a ==>
      a[id].active == b[id].active && a[id].ruleId == b[id].ruleId && a[id].subject == b[id].subject
    ensures ActiveSubjects(a, rule) == ActiveSubjects(b, rule)
  {
    forall x ensures x in ActiveSubjects(a, rule) <==> x in ActiveSubjects(b, rule) {
      if x in ActiveSubjects(a, rule) {
        var id :| id in a && a[id].active && a[id].ruleId == rule && a[id].subject == x;
        assert b[id].subject == x;
      }
      if x in ActiveSubjects(b, rule) {
        var id :| id in b && b[id].active && b[id].ruleId == rule && b[id].subject == x;
        assert a[id].subject == x;
      }
    }
  }

  // ---------------------------------------------------------------- one rule

  lemma {:induction false} FiringSubjectsLast(r: Rule, signals: seq<Signal>)
    requires signals != []
    ensures var last := signals[|signals| - 1];
      FiringSubjects(r, signals)
      == FiringSubjects(r, signals[..|signals| - 1]) + if Fires(r, last) then {last.subject} else {}
  {
    var n := |signals|;
    var last, init := signals[n - 1], signals[..n - 1];
    forall x ensures x in FiringSubjects(r, signals) <==>
      x in FiringSubjects(r, init) + if Fires(r, last) then {last.subject} else {}
    {
      if x in FiringSubjects(r, signals) {
        var s :| s in signals && Fires(r, s) && s.subject == x;
        assert s == last || s in init;
      }
      if x in FiringSubjects(r, init) {
        var s :| s in init && Fires(r, s) && s.subject == x;
        assert s in signals;
      }
      if Fires(r, last) && x == last.subject {
        assert last in signals;
      }
    }
  }

  lemma {:induction false} AdvancesSelf(t: Tables, rule: Id)
    ensures Advances(t, t, rule)
  {
  }

  lemma {:induction false} FireAllEffect(t: Tables, r: Rule, signals: seq<Signal>, now: Time)
    requires TablesOk(t)
    ensures var t2 := FireAll(t, r, signals, now).0;
      && TablesOk(t2) && Advances(t, t2, r.id)
      && ActiveSubjects(t2.events, r.id) == ActiveSubjects(t.events, r.id) + FiringSubjects(r, signals)
    decreases |signals|
  {
    hide Fire, Fires, Advances, UniqueActive, ActiveSubjects;
    if signals == [] {
      AdvancesSelf(t, r.id);
      assert FiringSubjects(r, signals) == {};
    } else {
      var n := |signals|;
      FireAllEffect(t, r, signals[..n - 1], now);
      FiringSubjectsLast(r, signals);
      var t1 := FireAll(t, r, signals[..n - 1], now).0;
      if Fires(r, signals[n - 1]) {
        FireEffect(t1, r, signals[n - 1], now);
        AdvancesThen(t, t1, Fire(t1, r, signals[n - 1], now).0, r.id);
      }
    }
  }

  /**
   * After a rule is evaluated its active subjects are exactly the subjects of the signals that match it;
   * no other rule's events are touched, no event is revived, and subjects stay unique.
   */
  lemma {:induction false} RuleEffect(t: Tables, r: Rule, signals: seq<Signal>, now: Time)
    requires TablesOk(t)
    ensures var t2 := EvaluateRule(t, r, signals, now).0;
      && TablesOk(t2) && Advances(t, t2, r.id)
      && ActiveSubjects(t2.events, r.id) == FiringSubjects(r, signals)
  {
    hide FireAll, FiringSubjects;
    FireAllEffect(t, r, signals, now);
    var t1 := FireAll(t, r, signals, now).0;
    var firing := FiringSubjects(r, signals);
    ResolveEffect(t1, r.id, firing, now);
    var t2 := t1.(events := ResolveIds(t1.events, EndedIds(t1.events, r.id, firing), now));
    AdvancesThen(t, t1, t2, r.id);
  }

  lemma {:induction false} ResolveEffect(t: Tables, rule: Id, firing: set<string>, now: Time)
    requires TablesOk(t) && firing <= ActiveSubjects(t.events, rule)
    ensures var t2 := t.(events := ResolveIds(t.events, EndedIds(t.events, rule, firing), now));
      && TablesOk(t2) && Advances(t, t2, rule) && ActiveSubjects(t2.events, rule) == firing
  {
    var ended := EndedIds(t.events, rule, firing);
    var t2 := t.(events := ResolveIds(t.events, ended, now));
    assert forall id :: id in t2.events && t2.events[id].active ==> t2.events[id] == t.events[id];
    forall x ensures x in ActiveSubjects(t2.events, rule) <==> x in firing {
      if x in ActiveSubjects(t2.events, rule) {
        var id :| id in t2.events && t2.events[id].active && t2.events[id].ruleId == rule && t2.events[id].subject == x;
        assert id !in ended;
      }
      if x in firing {
        var id :| id in t.events && t.events[id].active && t.events[id].ruleId == rule && t.events[id].subject == x;
        assert id !in ended;
        assert t2.events[id] == t.events[id];
      }
    }
  }

  // ---------------------------------------------------------------- all rules

  lemma {:induction false} OthersKeep(t: Tables, t2: Tables, rule: Id, other: Id)
    requires Advances(t, t2, rule) && other != rule
    ensures ActiveSubjects(t2.events, other) == ActiveSubjects(t.events, other)
  {
    forall x ensures x in ActiveSubjects(t2.events, other) <==> x in ActiveSubjects(t.events, other) {
      if x in ActiveSubjects(t2.events, other) {
        var id :|
          id in t2.events && t2.events[id].active && t2.events[id].ruleId == other && t2.events[id].subject == x;
        assert id in t.events && Follows(t.events[id], t2.events[id], rule);
      }
      if x in ActiveSubjects(t.events, other) {
        var id :| id in t.events && t.events[id].active && t.events[id].ruleId == other && t.events[id].subject == x;
        assert Follows(t.events[id], t2.events[id], rule);
      }
    }
  }

  predicate Evaluated(rules: map<Id, Rule>, order: seq<Id>, id: Id)
  {
    id in order && id in rules && rules[id].enabled
  }

  /** What must be active for rule `id` once the rules of `order` have been visited. */
  ghost function Wanted(t: Tables, rules: map<Id, Rule>, order: seq<Id>, signals: seq<Signal>, id: Id): set<string>
  {
    if Evaluated(rules, order, id) then FiringSubjects(rules[id], signals) else ActiveSubjects(t.events, id)
  }

  lemma {:induction false} RulesEffect(
    t: Tables, rules: map<Id, Rule>, order: seq<Id>, signals: seq<Signal>, now: Time, id: Id)
    requires TablesOk(t) && forall k :: k in rules ==> rules[k].id == k
    ensures var t2 := EvaluateRules(t, rules, order, signals, now).0;
      TablesOk(t2) && ActiveSubjects(t2.events, id) == Wanted(t, rules, order, signals, id)
    decreases |order|
  {
    hide EvaluateRule, ActiveSubjects, FiringSubjects, TablesOk;
    if order == [] {
    } else {
      var init, last := order[..|order| - 1], order[|order| - 1];
      RulesEffect(t, rules, init, signals, now, id);
      assert id in order <==> id in init || id == last;
      var t1 := EvaluateRules(t, rules, init, signals, now).0;
      if last in rules && rules[last].enabled {
        RuleEffect(t1, rules[last], signals, now);
        if id != last {
          OthersKeep(t1, EvaluateRule(t1, rules[last], signals, now).0, last, id);
        }
      }
    }
  }

  // ---------------------------------------------------------------- the database

  ghost predicate DbOk(db: Db)
  {
    && TablesOk(db.tables)
    && (forall id :: id in db.rules ==> db.rules[id].id == id && RuleOk(db.rules[id]))
    && OnlyEnabledActive(db)
  }

  /** Disabled and deleted rules have no active events. */
  predicate OnlyEnabledActive(db: Db)
  {
    forall id :: id in db.tables.events && db.tables.events[id].active ==>
      db.tables.events[id].ruleId in db.rules && db.rules[db.tables.events[id].ruleId].enabled
  }

  ghost predicate Enabled(db: Db, rule: Id)
  {
    rule in db.rules && db.rules[rule].enabled
  }

  lemma {:induction false} NoneActive(db: Db, rule: Id)
    requires OnlyEnabledActive(db) && !Enabled(db, rule)
    ensures ActiveSubjects(db.tables.events, rule) == {}
  {
  }

  lemma {:induction false} EmptyMeansNone(db: Db)
    requires forall rule :: !Enabled(db, rule) ==> ActiveSubjects(db.tables.events, rule) == {}
    ensures OnlyEnabledActive(db)
  {
    forall id | id in db.tables.events && db.tables.events[id].active
      ensures Enabled(db, db.tables.events[id].ruleId)
    {
      assert db.tables.events[id].subject in ActiveSubjects(db.tables.events, db.tables.events[id].ruleId);
    }
  }

  /** `db2` is what a successful evaluation makes of `db`. */
  ghost predicate EvaluatesTo(db: Db, order: seq<Id>, signals: seq<Signal>, now: Time, db2: Db)
  {
    db2.rules == db.rules && db2.tables == EvaluateRules(db.tables, db.rules, order, signals, now).0
  }

  /**
   * After evaluation every enabled rule is active for exactly the subjects of its matching signals, and
   * every other rule for none.
   */
  lemma {:induction false} ActiveAfterEvaluate(
    db: Db, order: seq<Id>, signals: seq<Signal>, now: Time, db2: Db, rule: Id)
    requires DbOk(db) && Visits(order, db.rules) && EvaluatesTo(db, order, signals, now, db2)
    ensures ActiveSubjects(db2.tables.events, rule)
         == if Enabled(db, rule) then FiringSubjects(db.rules[rule], signals) else {}
  {
    hide EvaluateRules, ActiveSubjects, FiringSubjects;
    RulesEffect(db.tables, db.rules, order, signals, now, rule);
    if !Enabled(db, rule) {
      NoneActive(db, rule);
    }
  }

  lemma {:induction false} EvaluateKeeps(db: Db, order: seq<Id>, signals: seq<Signal>, now: Time, db2: Db)
    requires DbOk(db) && Visits(order, db.rules) && EvaluatesTo(db, order, signals, now, db2)
    ensures DbOk(db2)
  {
    hide EvaluateRules, ActiveSubjects, FiringSubjects, OnlyEnabledActive, TablesOk;
    RulesEffect(db.tables, db.rules, order, signals, now, 0);
    forall rule | !Enabled(db2, rule) ensures ActiveSubjects(db2.tables.events, rule) == {} {
      ActiveAfterEvaluate(db, order, signals, now, db2, rule);
    }
    EmptyMeansNone(db2);
  }

  /** Visiting the rules in another order leaves the same rules active for the same subjects. */
  lemma {:induction false} OrderDoesNotMatter(
    db: Db, byName: seq<Id>, byId: seq<Id>, signals: seq<Signal>, now: Time, db2: Db, db3: Db, rule: Id)
    requires DbOk(db) && Visits(byName, db.rules) && Visits(byId, db.rules)
    requires EvaluatesTo(db, byName, signals, now, db2) && EvaluatesTo(db, byId, signals, now, db3)
    ensures ActiveSubjects(db2.tables.events, rule) == ActiveSubjects(db3.tables.events, rule)
  {
    hide EvaluateRules, ActiveSubjects, FiringSubjects, DbOk, Visits;
    ActiveAfterEvaluate(db, byName, signals, now, db2, rule);
    ActiveAfterEvaluate(db, byId, signals, now, db3, rule);
  }

  // ---------------------------------------------------------------- rule administration

  lemma {:induction false} ResolveRuleEffect(t: Tables, rule: Id, reason: string, now: Time)
    requires TablesOk(t)
    ensures var t2 := ResolveRuleEvents(t, rule, reason, now);
      && TablesOk(t2) && Advances(t, t2, rule)
      && (forall id :: id in t2.events && t2.events[id].active ==>
            t2.events[id] == t.events[id] && t.events[id].ruleId != rule)
  {
  }

  datatype Action =
    | Evaluating(order: seq<Id>, signals: seq<Signal>, at: Time, keys: seq<(Id, Id)>)
    | Creating(rule: Rule)
    | Updating(rule: Rule, at: Time)
    | Deleting(id: Id, at: Time)
    | Delivering(step: R.Event)

  /**
   * The request is one the catalog accepts: rules are valid, new rule ids are new, evaluation visits every
   * rule. Deliveries are claimed, acknowledged, failed and retried at any time; only evaluation enqueues.
   */
  ghost predicate Proper(db: Db, a: Action)
  {
    match a
    case Evaluating(order, signals, at, keys) =>
      Visits(order, db.rules) && |keys| >= |EvaluateRules(db.tables, db.rules, order, signals, at).1|
    case Creating(rule) => RuleOk(rule) && rule.id !in db.rules
    case Updating(rule, _) => RuleOk(rule)
    case Deleting(_, _) => true
    case Delivering(step) => !step.Enqueued? && R.Supplied(step)
  }

  ghost function Perform(db: Db, a: Action, tooLarge: Notification -> bool): Db
    requires Proper(db, a)
  {
    match a
    case Evaluating(order, signals, at, keys) =>
      (match Evaluate(db, order, signals, at, keys, tooLarge) case Ok((d, _)) => d case Err(_) => db)
    case Creating(rule) => CreateRule(db, rule)
    case Updating(rule, at) => UpdateRule(db, rule, at)
    case Deleting(id, at) => DeleteRule(db, id, at)
    case Delivering(step) => db.(box := R.Apply(db.box, step, tooLarge))
  }

  /** Unique active subjects and silent disabled rules survive every operation. */
  lemma {:induction false} PerformKeeps(db: Db, a: Action, tooLarge: Notification -> bool)
    requires DbOk(db) && Proper(db, a)
    ensures DbOk(Perform(db, a, tooLarge))
  {
    hide EvaluateRules, EnqueueAll, TablesOk;
    match a
    case Evaluating(order, signals, at, keys) =>
      if Evaluate(db, order, signals, at, keys, tooLarge).Ok? {
        EvaluateKeeps(db, order, signals, at, Perform(db, a, tooLarge));
      }
    case Creating(rule) =>
    case Updating(rule, at) => ResolveRuleEffect(db.tables, rule.id, "rule disabled", at);
    case Deleting(id, at) => ResolveRuleEffect(db.tables, id, "rule deleted", at);
    case Delivering(step) =>
  }

  // ---------------------------------------------------------------- runs

  /** The states of a run: `dbs[i + 1]` is what action `i` makes of `dbs[i]`. */
  ghost predicate IsRun(dbs: seq<Db>, actions: seq<Action>, tooLarge: Notification -> bool)
  {
    && |dbs| == |actions| + 1 && dbs[0] == EMPTY
    && forall i :: 0 <= i < |actions| ==>
         Proper(dbs[i], actions[i]) && dbs[i + 1] == Perform(dbs[i], actions[i], tooLarge)
  }

  /** In every reachable state of the whole catalog both the event tables and the delivery queue are in order. */
  lemma {:induction false} ReachableOk(dbs: seq<Db>, actions: seq<Action>, tooLarge: Notification -> bool, n: nat)
    requires IsRun(dbs, actions, tooLarge) && n < |dbs|
    ensures DbOk(dbs[n]) && R.BoxOk(dbs[n].box)
  {
    hide DbOk, Perform, R.BoxOk;
    if n == 0 {
      EmptyOk();
    } else {
      ReachableOk(dbs, actions, tooLarge, n - 1);
      PerformKeeps(dbs[n - 1], actions[n - 1], tooLarge);
    }
    var run := QueueIsOutboxRun(dbs, actions, tooLarge, n);
    R.Reachable(run, |run|, tooLarge);
  }

  // ---------------------------------------------------------------- the queue within the catalog

  lemma {:induction false} AfterPrefix(run: seq<R.Event>, more: seq<R.Event>, n: nat, tooLarge: Notification -> bool)
    requires n <= |run| && R.SuppliedRun(run) && R.SuppliedRun(run + more)
    ensures R.After(run + more, n, tooLarge) == R.After(run, n, tooLarge)
  {
    hide R.Apply;
    if n == 0 {
    } else {
      AfterPrefix(run, more, n - 1, tooLarge);
    }
  }

  lemma {:induction false} AfterOneMore(run: seq<R.Event>, e: R.Event, tooLarge: Notification -> bool)
    requires R.SuppliedRun(run) && R.Supplied(e)
    ensures R.SuppliedRun(run + [e])
    ensures R.After(run + [e], |run| + 1, tooLarge) == R.Apply(R.After(run, |run|, tooLarge), e, tooLarge)
  {
    hide R.Apply, R.Supplied;
    AfterPrefix(run, [e], |run|, tooLarge);
  }

  /** The box is what the outbox run makes of the empty one. */
  ghost predicate RunsTo(run: seq<R.Event>, tooLarge: Notification -> bool, box: O.Box)
  {
    R.SuppliedRun(run) && R.After(run, |run|, tooLarge) == box
  }

  /** A batch that is queued is so many single enqueues. */
  lemma {:induction false} BatchIsRun(
    run: seq<R.Event>, box: O.Box, notes: seq<Notification>, keys: seq<(Id, Id)>, at: Time,
    tooLarge: Notification -> bool)
    returns (more: seq<R.Event>)
    requires RunsTo(run, tooLarge, box) && |keys| >= |notes| && EnqueueAll(box, notes, keys, at, tooLarge).Ok?
    ensures RunsTo(run + more, tooLarge, EnqueueAll(box, notes, keys, at, tooLarge).value)
    ensures forall i :: 0 <= i < |more| ==> more[i].Enqueued?
    decreases |notes|
  {
    if notes == [] {
      more := [];
      assert run + more == run;
    } else {
      var n := |notes|;
      var init := BatchIsRun(run, box, notes[..n - 1], keys, at, tooLarge);
      var e := R.Enqueued(notes[n - 1], [keys[n - 1].0, keys[n - 1].1], at);
      AfterOneMore(run + init, e, tooLarge);
      more := init + [e];
      assert run + more == (run + init) + [e];
    }
  }

  /**
   * Along every run of the catalog the queue moves as in a run of the outbox alone, so everything proved
   * of outbox runs holds here: evaluation contributes enqueues, deliveries contribute themselves.
   */
  lemma {:induction false} QueueIsOutboxRun(dbs: seq<Db>, actions: seq<Action>, tooLarge: Notification -> bool, n: nat)
    returns (run: seq<R.Event>)
    requires IsRun(dbs, actions, tooLarge) && n < |dbs|
    ensures RunsTo(run, tooLarge, dbs[n].box)
    ensures Settlements(run) == DeliverySteps(actions[..n])
  {
    hide EnqueueAll, EvaluateRules, R.Apply;
    if n == 0 {
      run := [];
    } else {
      var before := QueueIsOutboxRun(dbs, actions, tooLarge, n - 1);
      var a, db := actions[n - 1], dbs[n - 1];
      assert actions[..n][..n - 1] == actions[..n - 1];
      if a.Delivering? {
        AfterOneMore(before, a.step, tooLarge);
        run := before + [a.step];
        SettlementsAppend(before, [a.step]);
        assert Settlements([a.step]) == [a.step];
      } else if a.Evaluating? && Evaluate(db, a.order, a.signals, a.at, a.keys, tooLarge).Ok? {
        var notes := EvaluateRules(db.tables, db.rules, a.order, a.signals, a.at).1;
        var more := BatchIsRun(before, db.box, notes, a.keys, a.at, tooLarge);
        run := before + more;
        SettlementsAppend(before, more);
        NoSettlements(more);
      } else {
        run := before;
      }
    }
  }

  /** The steps of an outbox run other than enqueues, in order. */
  ghost function Settlements(run: seq<R.Event>): seq<R.Event>
  {
    if run == [] then []
    else Settlements(run[..|run| - 1]) + if run[|run| - 1].Enqueued? then [] else [run[|run| - 1]]
  }

  /** The delivery steps among the actions, in order. */
  ghost function DeliverySteps(actions: seq<Action>): seq<R.Event>
  {
    if actions == [] then []
    else
      var last := actions[|actions| - 1];
      DeliverySteps(actions[..|actions| - 1]) + if last.Delivering? then [last.step] else []
  }

  lemma {:induction false} SettlementsAppend(a: seq<R.Event>, b: seq<R.Event>)
    ensures Settlements(a + b) == Settlements(a) + Settlements(b)
  {
    if b == [] {
      assert a + b == a;
    } else {
      SettlementsAppend(a, b[..|b| - 1]);
      assert (a + b)[..|a + b| - 1] == a + b[..|b| - 1];
    }
  }

  lemma {:induction false} NoSettlements(run: seq<R.Event>)
    requires forall i :: 0 <= i < |run| ==> run[i].Enqueued?
    ensures Settlements(run) == []
  {
    if run == [] {
    } else {
      NoSettlements(run[..|run| - 1]);
    }
  }

  lemma {:induction false} EmptyOk()
    ensures DbOk(EMPTY)
  {
  }

  /** `t2` comes after `t`: events keep their identity, and an event that ended is never touched again. */
  predicate Later(t: Tables, t2: Tables)
  {
    && t.nextEvent <= t2.nextEvent
    && (forall id :: id in t.events ==> id in t2.events && StillEnded(t.events[id], t2.events[id]))
    && (forall id :: id in t2.events && id !in t.events ==> id >= t.nextEvent)
  }

  predicate StillEnded(e: Event, e2: Event)
  {
    && e2.ruleId == e.ruleId && e2.subject == e.subject && e2.started == e.started
    && (!e.active ==> e2 == e)
  }

  lemma {:induction false} LaterThen(t: Tables, t1: Tables, t2: Tables)
    requires Later(t, t1) && Later(t1, t2) && Numbered(t)
    ensures Later(t, t2)
  {
    forall id | id in t.events ensures id in t2.events && StillEnded(t.events[id], t2.events[id]) {
      assert StillEnded(t.events[id], t1.events[id]);
      assert StillEnded(t1.events[id], t2.events[id]);
    }
  }

  lemma {:induction false} AdvancesIsLater(t: Tables, t2: Tables, rule: Id)
    requires Advances(t, t2, rule)
    ensures Later(t, t2)
  {
    forall id | id in t.events ensures id in t2.events && StillEnded(t.events[id], t2.events[id]) {
      assert Follows(t.events[id], t2.events[id], rule);
    }
  }

  lemma {:induction false} LaterSelf(t: Tables)
    ensures Later(t, t)
  {
  }

  lemma {:induction false} RulesLater(t: Tables, rules: map<Id, Rule>, order: seq<Id>, signals: seq<Signal>, now: Time)
    requires TablesOk(t) && forall k :: k in rules ==> rules[k].id == k
    ensures Later(t, EvaluateRules(t, rules, order, signals, now).0)
    decreases |order|
  {
    hide EvaluateRule, UniqueActive, Later, Advances, ActiveSubjects, FiringSubjects;
    if order == [] {
      LaterSelf(t);
    } else {
      var init, last := order[..|order| - 1], order[|order| - 1];
      RulesLater(t, rules, init, signals, now);
      RulesEffect(t, rules, init, signals, now, last);
      var t1 := EvaluateRules(t, rules, init, signals, now).0;
      if last in rules && rules[last].enabled {
        RuleEffect(t1, rules[last], signals, now);
        AdvancesIsLater(t1, EvaluateRule(t1, rules[last], signals, now).0, last);
        LaterThen(t, t1, EvaluateRule(t1, rules[last], signals, now).0);
      }
    }
  }

  lemma {:induction false} PerformLater(db: Db, a: Action, tooLarge: Notification -> bool)
    requires DbOk(db) && Proper(db, a)
    ensures Later(db.tables, Perform(db, a, tooLarge).tables)
  {
    hide EvaluateRules, EnqueueAll, Later, TablesOk, OnlyEnabledActive, Visits;
    LaterSelf(db.tables);
    match a
    case Evaluating(order, signals, at, keys) => RulesLater(db.tables, db.rules, order, signals, at);
    case Creating(rule) =>
    case Updating(rule, at) =>
      ResolveRuleEffect(db.tables, rule.id, "rule disabled", at);
      AdvancesIsLater(db.tables, ResolveRuleEvents(db.tables, rule.id, "rule disabled", at), rule.id);
    case Deleting(id, at) =>
      ResolveRuleEffect(db.tables, id, "rule deleted", at);
      AdvancesIsLater(db.tables, ResolveRuleEvents(db.tables, id, "rule deleted", at), id);
    case Delivering(step) =>
  }

  /** Over every run, an event that has ended stays exactly as it ended, and no event id is reused. */
  lemma {:induction false} NeverReactivated(
    dbs: seq<Db>, actions: seq<Action>, tooLarge: Notification -> bool, m: nat, n: nat)
    requires IsRun(dbs, actions, tooLarge) && m <= n < |dbs|
    ensures Later(dbs[m].tables, dbs[n].tables)
  {
    hide DbOk, Perform, Later;
    if m == n {
      LaterSelf(dbs[m].tables);
    } else {
      NeverReactivated(dbs, actions, tooLarge, m, n - 1);
      ReachableOk(dbs, actions, tooLarge, m);
      ReachableOk(dbs, actions, tooLarge, n - 1);
      PerformLater(dbs[n - 1], actions[n - 1], tooLarge);
      assert Numbered(dbs[m].tables) by { NumberedPart(dbs[m]); }
      LaterThen(dbs[m].tables, dbs[n - 1].tables, dbs[n].tables);
    }
  }

  lemma {:induction false} NumberedPart(db: Db)
    requires DbOk(db)
    ensures Numbered(db.tables) && TablesOk(db.tables)
  {
  }
}
