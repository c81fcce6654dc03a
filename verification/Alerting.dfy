/**
 * Alert evaluation as transactions on the rule, event and delivery tables. The SQLite and the PostgreSQL
 * store run the same machine; they differ only in the order in which they visit the rules.
 */
module Alerting {
  import opened Wrappers
  import opened AlertTypes
  import opened Sequences
  import O = Outbox

  const MIN_COOLDOWN := 30
  const MAX_COOLDOWN := 604_800

  type Events = map<nat, Event>

  datatype Tables = Tables(events: Events, nextEvent: nat)

  datatype Db = Db(rules: map<Id, Rule>, tables: Tables, box: O.Box)

  const EMPTY := Db(map[], Tables(map[], 1), O.EMPTY)

  predicate RuleOk(r: Rule)
  {
    MIN_COOLDOWN <= r.cooldownSeconds <= MAX_COOLDOWN
  }

  // ---------------------------------------------------------------- matching

  predicate Exceeds(c: Comparator, value: real, threshold: real)
  {
    match c case GreaterOrEqual => value >= threshold case LessOrEqual => value <= threshold
  }

  predicate Fires(r: Rule, s: Signal)
  {
    && s.metric == r.metric
    && (s.windowSeconds.None? || s.windowSeconds.value == r.windowSeconds)
    && (r.target.None? || r.target.value == s.subject)
    && Exceeds(r.comparator, s.value, r.threshold)
  }

  function FiringSubjects(r: Rule, signals: seq<Signal>): set<string>
  {
    set s | s in signals && Fires(r, s) :: s.subject
  }

  predicate ActiveIn(e: Event, rule: Id, subject: string)
  {
    e.active && e.ruleId == rule && e.subject == subject
  }

  function ActiveFor(events: Events, rule: Id, subject: string): set<nat>
  {
    set id | id in events && ActiveIn(events[id], rule, subject)
  }

  ghost function ActiveSubjects(events: Events, rule: Id): set<string>
  {
    set id | id in events && events[id].active && events[id].ruleId == rule :: events[id].subject
  }

  // ---------------------------------------------------------------- evaluating one rule

  function Refreshed(e: Event, s: Signal, now: Time, notify: bool): Event
  {
    e.(value := s.value, message := s.message, updated := now,
       lastNotified := if notify then Some(now) else e.lastNotified)
  }

  predicate Remind(e: Event, cooldown: nat, now: Time)
  {
    e.lastNotified.None? || SatSub(now, e.lastNotified.value) >= cooldown
  }

  function Started(r: Rule, s: Signal, now: Time): Event
  {
    Event(r.id, r.name, r.severity, s.subject, true, s.value, r.threshold, s.message, now, now, None, Some(now))
  }

  function Firing(r: Rule, id: nat, e: Event): Notification
  {
    Notification(id, e, false, r.notifyWebhook, r.notifyEmail)
  }

  /** One matching signal: refresh the active event of its subject, or start one. */
  ghost function Fire(t: Tables, r: Rule, s: Signal, now: Time): (Tables, seq<Notification>)
  {
    var ids := ActiveFor(t.events, r.id, s.subject);
    if ids == {} then
      var e := Started(r, s, now);
      (Tables(t.events[t.nextEvent := e], t.nextEvent + 1), [Firing(r, t.nextEvent, e)])
    else
      var id :| id in ids;
      var notify := Remind(t.events[id], r.cooldownSeconds, now);
      var e := Refreshed(t.events[id], s, now, notify);
      (t.(events := t.events[id := e]), if notify then [Firing(r, id, e)] else [])
  }

  ghost function FireAll(t: Tables, r: Rule, signals: seq<Signal>, now: Time): (Tables, seq<Notification>)
    decreases |signals|
  {
    if signals == [] then (t, [])
    else
      var init := signals[..|signals| - 1];
      var last := signals[|signals| - 1];
      var (t1, n1) := FireAll(t, r, init, now);
      if !Fires(r, last) then (t1, n1)
      else
        var (t2, n2) := Fire(t1, r, last, now);
        (t2, n1 + n2)
  }

  function Resolved(e: Event, now: Time): Event
  {
    e.(active := false, updated := now, resolvedAt := Some(now), message := "resolved: " + e.message)
  }

  predicate Ends(e: Event, rule: Id, firing: set<string>)
  {
    e.active && e.ruleId == rule && e.subject !in firing
  }

  function EndedIds(events: Events, rule: Id, firing: set<string>): set<nat>
  {
    set id | id in events && Ends(events[id], rule, firing)
  }

  function ResolveIds(events: Events, ids: set<nat>, now: Time): Events
  {
    map id | id in events :: if id in ids then Resolved(events[id], now) else events[id]
  }

  /** The notifications for the given ended events, in ascending order of their ids. */
  function EndNotes(events: Events, r: Rule, ids: set<nat>, now: Time): seq<Notification>
    requires ids <= events.Keys
    decreases |ids|
  {
    if ids == {} then []
    else
      var id := Least(ids);
      [Notification(id, Resolved(events[id], now), true, r.notifyWebhook, r.notifyEmail)]
      + EndNotes(events, r, ids - {id}, now)
  }

  function Least(ids: set<nat>): (id: nat)
    requires ids != {}
    ensures id in ids && forall j :: j in ids ==> id <= j
  {
    LeastExists(ids);
    var id :| id in ids && forall j :: j in ids ==> id <= j;
    id
  }

  lemma {:induction false} LeastExists(ids: set<nat>)
    requires ids != {}
    ensures exists id :: id in ids && forall j :: j in ids ==> id <= j
  {
    var m := FindLeast(ids);
  }

  lemma {:induction false} FindLeast(ids: set<nat>) returns (m: nat)
    requires ids != {}
    ensures m in ids && forall j :: j in ids ==> m <= j
    decreases |ids|
  {
    var k :| k in ids;
    var rest := ids - {k};
    m := k;
    if rest == {} {
    } else {
      var r := FindLeast(rest);
      m := if r <= k then r else k;
    }
    forall j | j in ids ensures m <= j {
      if j != k {
        assert j in rest;
      }
    }
  }

  ghost function EvaluateRule(t: Tables, r: Rule, signals: seq<Signal>, now: Time): (Tables, seq<Notification>)
  {
    var (t1, n1) := FireAll(t, r, signals, now);
    var ended := EndedIds(t1.events, r.id, FiringSubjects(r, signals));
    (t1.(events := ResolveIds(t1.events, ended, now)), n1 + EndNotes(t1.events, r, ended, now))
  }

  // ---------------------------------------------------------------- the whole evaluation

  /** `order` visits every rule exactly once. */
  ghost predicate Visits(order: seq<Id>, rules: map<Id, Rule>)
  {
    Distinct(order) && forall id :: id in rules <==> id in order
  }

  ghost function EvaluateRules(
    t: Tables, rules: map<Id, Rule>, order: seq<Id>, signals: seq<Signal>, now: Time): (Tables, seq<Notification>)
    decreases |order|
  {
    if order == [] then (t, [])
    else
      var (t1, n1) := EvaluateRules(t, rules, order[..|order| - 1], signals, now);
      var id := order[|order| - 1];
      if id !in rules || !rules[id].enabled then (t1, n1)
      else
        var (t2, n2) := EvaluateRule(t1, rules[id], signals, now);
        (t2, n1 + n2)
  }

  function EnqueueAll(
    box: O.Box, notes: seq<Notification>, keys: seq<(Id, Id)>, now: Time, tooLarge: Notification -> bool)
    : Result<O.Box, Error>
    requires |keys| >= |notes|
    decreases |notes|
  {
    if notes == [] then Ok(box)
    else match EnqueueAll(box, notes[..|notes| - 1], keys, now, tooLarge)
      case Err(e) => Err(e)
      case Ok(b) =>
        var pair := keys[|notes| - 1];
        O.Enqueue(b, notes[|notes| - 1], [pair.0, pair.1], now, tooLarge)
  }

  /** Either the whole evaluation and all its deliveries are committed, or nothing is. */
  ghost function Evaluate(
    db: Db, order: seq<Id>, signals: seq<Signal>, now: Time, keys: seq<(Id, Id)>, tooLarge: Notification -> bool)
    : Result<(Db, seq<Notification>), Error>
    requires |keys| >= |EvaluateRules(db.tables, db.rules, order, signals, now).1|
  {
    var (t, notes) := EvaluateRules(db.tables, db.rules, order, signals, now);
    match EnqueueAll(db.box, notes, keys, now, tooLarge)
    case Err(e) => Err(e)
    case Ok(box) => Ok((db.(tables := t, box := box), notes))
  }

  // ---------------------------------------------------------------- rule administration

  function EndedBy(e: Event, reason: string, now: Time): Event
  {
    e.(active := false, updated := now, resolvedAt := Some(now), message := e.message + " (" + reason + ")")
  }

  function ResolveRuleEvents(t: Tables, rule: Id, reason: string, now: Time): Tables
  {
    t.(events := map id | id in t.events ::
        if t.events[id].active && t.events[id].ruleId == rule then EndedBy(t.events[id], reason, now) else t.events[id])
  }

  function CreateRule(db: Db, r: Rule): Db
  {
    db.(rules := db.rules[r.id := r])
  }

  function UpdateRule(db: Db, r: Rule, now: Time): Db
  {
    if r.id !in db.rules then db
    else db.(rules := db.rules[r.id := r],
             tables := if r.enabled then db.tables else ResolveRuleEvents(db.tables, r.id, "rule disabled", now))
  }

  function DeleteRule(db: Db, id: Id, now: Time): Db
  {
    db.(rules := db.rules - {id}, tables := ResolveRuleEvents(db.tables, id, "rule deleted", now))
  }
}
