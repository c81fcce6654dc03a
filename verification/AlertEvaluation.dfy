/**
 * What a whole evaluation comes to, whatever the order of the rules: every event and every notification is
 * what the event's own rule makes of it.
 */
module AlertEvaluation {
  import opened Wrappers
  import opened AlertTypes
  import opened Alerting
  import opened AlertLifecycle
  import opened AlertReminders
  import opened AlertOutcome
  import opened Sequences

  // ---------------------------------------------------------------- the events

  ghost predicate RulesOk(rules: map<Id, Rule>)
  {
    forall k :: k in rules ==> rules[k].id == k && RuleOk(rules[k])
  }

  /** What evaluating the rules of `order` must make of event `id`. */
  ghost predicate EventExact(
    t: Tables, t2: Tables, rules: map<Id, Rule>, order: seq<Id>, signals: seq<Signal>, now: Time, id: nat)
  {
    && (id in t.events ==>
          && id in t2.events
          && t2.events[id] == if Evaluated(rules, order, t.events[id].ruleId)
                              then EventAfter(t.events[id], rules[t.events[id].ruleId], signals, now) else t.events[id])
    && (id in t2.events && id !in t.events ==>
          && id >= t.nextEvent && Evaluated(rules, order, t2.events[id].ruleId)
          && IsNew(t, t2.events[id], rules[t2.events[id].ruleId], signals, now))
  }

  lemma {:induction false} IsNewEarlier(t: Tables, t1: Tables, e: Event, r: Rule, signals: seq<Signal>, now: Time)
    requires IsNew(t1, e, r, signals, now) && ActiveSubjects(t1.events, r.id) == ActiveSubjects(t.events, r.id)
    ensures IsNew(t, e, r, signals, now)
  {
    hide ActiveSubjects, LastOf;
    NotActive(t, r, e.subject);
    NotActive(t1, r, e.subject);
  }

  lemma {:induction false} EventExactStep(
    t: Tables, t1: Tables, rules: map<Id, Rule>, order: seq<Id>, signals: seq<Signal>, now: Time, id: nat)
    requires TablesOk(t1) && RulesOk(rules) && order != [] && t.nextEvent <= t1.nextEvent
    requires var init, last := order[..|order| - 1], order[|order| - 1];
      && last !in init && last in rules && rules[last].enabled && EventExact(t, t1, rules, init, signals, now, id)
      && ActiveSubjects(t1.events, last) == ActiveSubjects(t.events, last)
    ensures var t2 := EvaluateRule(t1, rules[order[|order| - 1]], signals, now).0;
      EventExact(t, t2, rules, order, signals, now, id)
  {
    hide EvaluateRule, TablesOk, ActiveSubjects, LastOf, RuleOk, Begun, DueAgain, IsNew;
    var init, last := order[..|order| - 1], order[|order| - 1];
    assert forall k :: k in order <==> k in init || k == last;
    var t2 := EvaluateRule(t1, rules[last], signals, now).0;
    RuleEvents(t1, rules[last], signals, now, id);
    if id in t2.events && id !in t1.events {
      IsNewEarlier(t, t1, t2.events[id], rules[last], signals, now);
      NewIsOfRule(t1, t2.events[id], rules[last], signals, now);
    }
    if id in t1.events && t1.events[id].ruleId == last && id !in t.events { assert false; }
  }

  lemma {:induction false} NewIsOfRule(t: Tables, e: Event, r: Rule, signals: seq<Signal>, now: Time)
    requires IsNew(t, e, r, signals, now)
    ensures e.ruleId == r.id
  {
  }

  /** One more rule that is disabled, or gone, changes nothing. */
  lemma {:induction false} EventExactSkip(
    t: Tables, t1: Tables, rules: map<Id, Rule>, order: seq<Id>, signals: seq<Signal>, now: Time, id: nat)
    requires order != []
    requires var init, last := order[..|order| - 1], order[|order| - 1];
      !(last in rules && rules[last].enabled) && EventExact(t, t1, rules, init, signals, now, id)
    ensures EventExact(t, t1, rules, order, signals, now, id)
  {
    hide EventAfter, IsNew;
    var init, last := order[..|order| - 1], order[|order| - 1];
    assert forall k :: k in order <==> k in init || k == last;
  }

  lemma {:induction false} RulesExact(
    t: Tables, rules: map<Id, Rule>, order: seq<Id>, signals: seq<Signal>, now: Time, id: nat)
    requires TablesOk(t) && RulesOk(rules) && Distinct(order)
    ensures EventExact(t, EvaluateRules(t, rules, order, signals, now).0, rules, order, signals, now, id)
    decreases |order|
  {
    hide EvaluateRule, TablesOk, ActiveSubjects, FiringSubjects, EventExact, RuleOk, Later;
    if order == [] {
      NothingEvaluated(t, rules, signals, now, id);
    } else {
      var init, last := order[..|order| - 1], order[|order| - 1];
      assert last !in init;
      RulesExact(t, rules, init, signals, now, id);
      RulesEffect(t, rules, init, signals, now, last);
      RulesNumbered(t, rules, init, signals, now);
      var t1 := EvaluateRules(t, rules, init, signals, now).0;
      if last in rules && rules[last].enabled {
        EventExactStep(t, t1, rules, order, signals, now, id);
      } else {
        EventExactSkip(t, t1, rules, order, signals, now, id);
      }
    }
  }

  lemma {:induction false} RulesNumbered(
    t: Tables, rules: map<Id, Rule>, order: seq<Id>, signals: seq<Signal>, now: Time)
    requires TablesOk(t) && RulesOk(rules)
    ensures t.nextEvent <= EvaluateRules(t, rules, order, signals, now).0.nextEvent
  {
    hide EvaluateRules, TablesOk, RuleOk;
    RulesLater(t, rules, order, signals, now);
  }

  lemma {:induction false} NothingEvaluated(
    t: Tables, rules: map<Id, Rule>, signals: seq<Signal>, now: Time, id: nat)
    ensures EventExact(t, t, rules, [], signals, now, id)
  {
  }

  // ---------------------------------------------------------------- the notifications

  /** What the notifications of the evaluated rules say of event `id`. */
  ghost predicate NotesExact(
    t: Tables, t2: Tables, rules: map<Id, Rule>, order: seq<Id>, signals: seq<Signal>, now: Time,
    notes: seq<Notification>, id: nat)
  {
    if id in t2.events && Evaluated(rules, order, t2.events[id].ruleId)
    then NotesFit(t, t2, rules[t2.events[id].ruleId], signals, now, notes, id)
    else Unmentioned(notes, id)
  }

  predicate Unmentioned(notes: seq<Notification>, id: nat)
  {
    forall i :: 0 <= i < |notes| ==> notes[i].eventId != id
  }

  predicate SameAt(t: Tables, t1: Tables, id: nat)
  {
    (id in t.events <==> id in t1.events) && (id in t.events ==> t.events[id] == t1.events[id])
  }

  lemma {:induction false} NoteFitsSame(
    t: Tables, t': Tables, t1: Tables, t1': Tables, r: Rule, signals: seq<Signal>, now: Time, n: Notification)
    requires SameAt(t, t', n.eventId) && SameAt(t1, t1', n.eventId) && NoteFits(t, t1, r, signals, now, n)
    ensures NoteFits(t', t1', r, signals, now, n)
  {
    hide FirstOf, LastOf, DueAgain;
  }

  lemma {:induction false} NotesFitSame(
    t: Tables, t': Tables, t1: Tables, t1': Tables, r: Rule, signals: seq<Signal>, now: Time,
    notes: seq<Notification>, id: nat)
    requires SameAt(t, t', id) && SameAt(t1, t1', id) && NotesFit(t, t1, r, signals, now, notes, id)
    ensures NotesFit(t', t1', r, signals, now, notes, id)
  {
    hide FirstOf, LastOf, DueAgain, NoteFits, Fired, Ended;
    forall i | 0 <= i < |notes| && notes[i].eventId == id ensures NoteFits(t', t1', r, signals, now, notes[i]) {
      NoteFitsSame(t, t', t1, t1', r, signals, now, notes[i]);
    }
  }

  lemma {:induction false} MentionsNone(notes: seq<Notification>, id: nat)
    requires Unmentioned(notes, id)
    ensures !Fired(notes, id) && !Ended(notes, id)
  {
  }

  lemma {:induction false} EndedEither(a: seq<Notification>, b: seq<Notification>, id: nat)
    ensures Ended(a + b, id) <==> Ended(a, id) || Ended(b, id)
  {
    if Ended(a, id) {
      var i :| 0 <= i < |a| && a[i].resolved && a[i].eventId == id;
      assert (a + b)[i] == a[i];
    } else {
      EndedConcat(a, b, id);
    }
  }

  /** Notifications that do not mention `id` make no difference to it. */
  lemma {:induction false} NotesFitMore(
    t: Tables, t2: Tables, r: Rule, signals: seq<Signal>, now: Time, a: seq<Notification>, b: seq<Notification>,
    id: nat)
    requires Unmentioned(a, id) && NotesFit(t, t2, r, signals, now, b, id)
    ensures NotesFit(t, t2, r, signals, now, a + b, id) && NotesFit(t, t2, r, signals, now, b + a, id)
  {
    hide NoteFits, MustTell, MustEnd, Fired, Ended;
    FiredConcat(a, b, id);
    FiredConcat(b, a, id);
    EndedEither(a, b, id);
    EndedEither(b, a, id);
    MentionsNone(a, id);
    assert forall i :: 0 <= i < |a + b| && (a + b)[i].eventId == id ==> i >= |a| && (a + b)[i] == b[i - |a|];
    assert forall i :: 0 <= i < |b + a| && (b + a)[i].eventId == id ==> i < |b| && (b + a)[i] == b[i];
  }

  /** A rule does not mention another rule's event. */
  lemma {:induction false} OwnNotesOnly(
    t: Tables, t2: Tables, r: Rule, signals: seq<Signal>, now: Time, notes: seq<Notification>, id: nat)
    requires NotesFit(t, t2, r, signals, now, notes, id) && (id in t2.events ==> t2.events[id].ruleId != r.id)
    requires id in t.events ==> id in t2.events && t2.events[id].ruleId == t.events[id].ruleId
    ensures Unmentioned(notes, id)
  {
    hide LastOf, FirstOf, DueAgain, Fired, Ended;
    forall i | 0 <= i < |notes| ensures notes[i].eventId != id {
      assert notes[i].eventId == id ==> NoteFits(t, t2, r, signals, now, notes[i]);
    }
  }

  lemma {:induction false} NotesExactStep(
    t: Tables, t1: Tables, a: seq<Notification>, rules: map<Id, Rule>, order: seq<Id>, signals: seq<Signal>,
    now: Time, id: nat)
    requires TablesOk(t1) && RulesOk(rules) && order != []
    requires var init, last := order[..|order| - 1], order[|order| - 1];
      && last !in init && last in rules && rules[last].enabled
      && EventExact(t, t1, rules, init, signals, now, id) && NotesExact(t, t1, rules, init, signals, now, a, id)
    ensures var (t2, b) := EvaluateRule(t1, rules[order[|order| - 1]], signals, now);
      NotesExact(t, t2, rules, order, signals, now, a + b, id)
  {
    hide EvaluateRule, TablesOk, NotesFit, IsNew, RuleOk, LastOf, DueAgain, EventAfter;
    var init, last := order[..|order| - 1], order[|order| - 1];
    assert forall k :: k in order <==> k in init || k == last;
    var (t2, b) := EvaluateRule(t1, rules[last], signals, now);
    RuleEvents(t1, rules[last], signals, now, id);
    RuleNotes(t1, rules[last], signals, now, id);
    if id in t.events {
      AfterKeepsRule(t.events[id], rules, init, signals, now);
    }
    if id in t1.events {
      KeepsRule(t1.events[id], rules[last], signals, now);
    }
    if id in t2.events && id !in t1.events {
      NewIsOfRule(t1, t2.events[id], rules[last], signals, now);
    }
    if id in t2.events && t2.events[id].ruleId == last {
      assert SameAt(t1, t, id);
      NotesFitSame(t1, t, t2, t2, rules[last], signals, now, b, id);
      NotesFitMore(t, t2, rules[last], signals, now, a, b, id);
    } else {
      OwnNotesOnly(t1, t2, rules[last], signals, now, b, id);
      if id in t1.events && Evaluated(rules, init, t1.events[id].ruleId) {
        NotesFitSame(t, t, t1, t2, rules[t1.events[id].ruleId], signals, now, a, id);
        NotesFitMore(t, t2, rules[t1.events[id].ruleId], signals, now, b, a, id);
      }
    }
  }

  lemma {:induction false} KeepsRule(e: Event, r: Rule, signals: seq<Signal>, now: Time)
    ensures EventAfter(e, r, signals, now).ruleId == e.ruleId
    ensures e.ruleId != r.id ==> EventAfter(e, r, signals, now) == e
  {
  }

  lemma {:induction false} AfterKeepsRule(
    e: Event, rules: map<Id, Rule>, order: seq<Id>, signals: seq<Signal>, now: Time)
    ensures Evaluated(rules, order, e.ruleId) ==> EventAfter(e, rules[e.ruleId], signals, now).ruleId == e.ruleId
  {
    if Evaluated(rules, order, e.ruleId) {
      KeepsRule(e, rules[e.ruleId], signals, now);
    }
  }

  lemma {:induction false} RulesNotes(
    t: Tables, rules: map<Id, Rule>, order: seq<Id>, signals: seq<Signal>, now: Time, id: nat)
    requires TablesOk(t) && RulesOk(rules) && Distinct(order)
    ensures var (t2, notes) := EvaluateRules(t, rules, order, signals, now);
      NotesExact(t, t2, rules, order, signals, now, notes, id)
    decreases |order|
  {
    hide EvaluateRule, TablesOk, EventExact, NotesExact, RuleOk, ActiveSubjects, FiringSubjects;
    if order == [] {
      NothingSaid(t, rules, signals, now, id);
    } else {
      var init, last := order[..|order| - 1], order[|order| - 1];
      assert last !in init;
      RulesNotes(t, rules, init, signals, now, id);
      RulesExact(t, rules, init, signals, now, id);
      RulesEffect(t, rules, init, signals, now, last);
      var (t1, a) := EvaluateRules(t, rules, init, signals, now);
      if last in rules && rules[last].enabled {
        NotesExactStep(t, t1, a, rules, order, signals, now, id);
      } else {
        NotesExactSkip(t, t1, a, rules, order, signals, now, id);
      }
    }
  }

  lemma {:induction false} NothingSaid(t: Tables, rules: map<Id, Rule>, signals: seq<Signal>, now: Time, id: nat)
    ensures NotesExact(t, t, rules, [], signals, now, [], id)
  {
  }

  lemma {:induction false} NotesExactSkip(
    t: Tables, t1: Tables, a: seq<Notification>, rules: map<Id, Rule>, order: seq<Id>, signals: seq<Signal>,
    now: Time, id: nat)
    requires order != []
    requires var init, last := order[..|order| - 1], order[|order| - 1];
      !(last in rules && rules[last].enabled) && NotesExact(t, t1, rules, init, signals, now, a, id)
    ensures NotesExact(t, t1, rules, order, signals, now, a, id)
  {
    hide NotesFit, Unmentioned;
    var init, last := order[..|order| - 1], order[|order| - 1];
    assert forall k :: k in order <==> k in init || k == last;
  }

  /** One evaluation notifies of an event at most once, be it that it fires or that it is over. */
  lemma {:induction false} RulesOneEach(
    t: Tables, rules: map<Id, Rule>, order: seq<Id>, signals: seq<Signal>, now: Time)
    requires TablesOk(t) && RulesOk(rules) && Distinct(order)
    ensures OneEach(EvaluateRules(t, rules, order, signals, now).1)
    decreases |order|
  {
    hide EvaluateRule, TablesOk, RuleOk, ActiveSubjects, FiringSubjects, NotesExact, EventExact, EventAfter;
    if order == [] {
    } else {
      var init, last := order[..|order| - 1], order[|order| - 1];
      assert last !in init;
      RulesOneEach(t, rules, init, signals, now);
      RulesEffect(t, rules, init, signals, now, last);
      var (t1, a) := EvaluateRules(t, rules, init, signals, now);
      if last in rules && rules[last].enabled {
        RuleOneEach(t1, rules[last], signals, now);
        var b := EvaluateRule(t1, rules[last], signals, now).1;
        forall i, j | 0 <= i < |a| && 0 <= j < |b| ensures a[i].eventId != b[j].eventId {
          RulesNotes(t, rules, init, signals, now, a[i].eventId);
          RuleNotes(t1, rules[last], signals, now, a[i].eventId);
          RuleEvents(t1, rules[last], signals, now, a[i].eventId);
          RulesApart(t, t1, a, rules, init, last, signals, now, i, j);
        }
      }
    }
  }

  lemma {:induction false} RulesApart(
    t: Tables, t1: Tables, a: seq<Notification>, rules: map<Id, Rule>, init: seq<Id>, last: Id, signals: seq<Signal>,
    now: Time, i: nat, j: nat)
    requires last !in init && last in rules && rules[last].id == last && i < |a|
    requires NotesExact(t, t1, rules, init, signals, now, a, a[i].eventId)
    requires var (t2, b) := EvaluateRule(t1, rules[last], signals, now);
      && j < |b| && NotesFit(t1, t2, rules[last], signals, now, b, a[i].eventId)
      && (a[i].eventId in t1.events ==>
            && a[i].eventId in t2.events
            && t2.events[a[i].eventId] == EventAfter(t1.events[a[i].eventId], rules[last], signals, now))
    ensures a[i].eventId != EvaluateRule(t1, rules[last], signals, now).1[j].eventId
  {
    hide EvaluateRule, LastOf, FirstOf, DueAgain, Fired, Ended, MustTell, MustEnd, EventAfter;
    var (t2, b) := EvaluateRule(t1, rules[last], signals, now);
    var id := a[i].eventId;
    assert id in t1.events && t1.events[id].ruleId in init;
    KeepsRule(t1.events[id], rules[last], signals, now);
    OwnNotesOnly(t1, t2, rules[last], signals, now, b, id);
  }

  // ---------------------------------------------------------------- the whole evaluation

  lemma {:induction false} VisitedIsEnabled(db: Db, order: seq<Id>, rule: Id)
    requires Visits(order, db.rules)
    ensures Evaluated(db.rules, order, rule) <==> Enabled(db, rule)
  {
  }

  /** Every event comes out as its rule, if enabled, makes of it; events that appear began with a signal. */
  lemma {:induction false} EventsAfterEvaluate(
    db: Db, order: seq<Id>, signals: seq<Signal>, now: Time, db2: Db, id: nat)
    requires DbOk(db) && Visits(order, db.rules) && EvaluatesTo(db, order, signals, now, db2)
    ensures var before, after := db.tables.events, db2.tables.events;
      && (id in before ==>
            && id in after
            && after[id] == if Enabled(db, before[id].ruleId)
                            then EventAfter(before[id], db.rules[before[id].ruleId], signals, now) else before[id])
      && (id in after && id !in before ==>
            && id >= db.tables.nextEvent && Enabled(db, after[id].ruleId)
            && IsNew(db.tables, after[id], db.rules[after[id].ruleId], signals, now))
  {
    hide EvaluateRules, TablesOk, Visits, EventAfter, IsNew, OnlyEnabledActive, RuleOk, Evaluated, Enabled;
    assert Distinct(order) by { VisitsOnce(order, db.rules); }
    RulesExact(db.tables, db.rules, order, signals, now, id);
    if id in db.tables.events {
      VisitedIsEnabled(db, order, db.tables.events[id].ruleId);
    }
    if id in db2.tables.events {
      VisitedIsEnabled(db, order, db2.tables.events[id].ruleId);
    }
    EnabledKnown(db);
  }

  lemma {:induction false} EnabledKnown(db: Db)
    ensures forall rule :: Enabled(db, rule) ==> rule in db.rules
  {
  }

  lemma {:induction false} VisitsOnce(order: seq<Id>, rules: map<Id, Rule>)
    requires Visits(order, rules)
    ensures Distinct(order)
  {
  }

  /** A subject is active afterwards exactly if the rule is enabled and some signal concerns it. */
  lemma {:induction false} ActiveExactly(
    db: Db, order: seq<Id>, signals: seq<Signal>, now: Time, db2: Db, rule: Id, subject: string)
    requires DbOk(db) && Visits(order, db.rules) && EvaluatesTo(db, order, signals, now, db2)
    ensures subject in ActiveSubjects(db2.tables.events, rule) <==>
      Enabled(db, rule) && exists s :: s in signals && Concerns(db.rules[rule], s, subject)
  {
    hide EvaluateRules, DbOk, Visits, ActiveSubjects, FiringSubjects, Concerns, Fires;
    ActiveAfterEvaluate(db, order, signals, now, db2, rule);
    if Enabled(db, rule) {
      FiringIffConcerned(db.rules[rule], signals, subject);
    }
  }

  lemma {:induction false} FiringIffConcerned(r: Rule, signals: seq<Signal>, subject: string)
    ensures subject in FiringSubjects(r, signals) <==> exists s :: s in signals && Concerns(r, s, subject)
  {
    hide Concerns, Fires;
    if subject in FiringSubjects(r, signals) {
      var s :| s in signals && Fires(r, s) && s.subject == subject;
      FiresIsConcerns(r, s, subject);
    }
    if s :| s in signals && Concerns(r, s, subject) {
      FiresIsConcerns(r, s, subject);
    }
  }

  /** The notifications are exactly those of events that are new, due again or over, one each. */
  lemma {:induction false} NotesAfterEvaluate(
    db: Db, order: seq<Id>, signals: seq<Signal>, now: Time, db2: Db, id: nat)
    requires DbOk(db) && Visits(order, db.rules) && EvaluatesTo(db, order, signals, now, db2)
    ensures var notes, after := EvaluateRules(db.tables, db.rules, order, signals, now).1, db2.tables.events;
      && OneEach(notes)
      && if id in after && Enabled(db, after[id].ruleId)
         then NotesFit(db.tables, db2.tables, db.rules[after[id].ruleId], signals, now, notes, id)
         else Unmentioned(notes, id)
  {
    hide EvaluateRules, TablesOk, Visits, OneEach, NotesFit, Unmentioned, OnlyEnabledActive, RuleOk, Evaluated, Enabled;
    assert Distinct(order) by { VisitsOnce(order, db.rules); }
    RulesNotes(db.tables, db.rules, order, signals, now, id);
    RulesOneEach(db.tables, db.rules, order, signals, now);
    if id in db2.tables.events {
      VisitedIsEnabled(db, order, db2.tables.events[id].ruleId);
    }
    EnabledKnown(db);
  }

  // ---------------------------------------------------------------- rule administration

  /** The event as a disabled or deleted rule leaves it. */
  function Stopped(e: Event, reason: string, now: Time): Event
  {
    Event(e.ruleId, e.ruleName, e.severity, e.subject, false, e.value, e.threshold, e.message + reason, e.started, now,
          Some(now), e.lastNotified)
  }

  /** The rule's active events are stopped, and no other event is touched. */
  predicate StopsRule(before: Events, after: Events, rule: Id, reason: string, now: Time)
  {
    && after.Keys == before.Keys
    && forall id :: id in before ==>
         after[id] == if before[id].active && before[id].ruleId == rule then Stopped(before[id], reason, now)
                      else before[id]
  }

  /** Changing a rule changes that rule alone, and stops its events if it is disabled. */
  lemma {:induction false} UpdateExact(db: Db, r: Rule, now: Time)
    ensures var d := UpdateRule(db, r, now);
      && d.box == db.box && d.tables.nextEvent == db.tables.nextEvent
      && d.rules == (if r.id in db.rules then db.rules[r.id := r] else db.rules)
      && if r.id in db.rules && !r.enabled
         then StopsRule(db.tables.events, d.tables.events, r.id, " (rule disabled)", now)
         else d.tables == db.tables
  {
    assert " (" + "rule disabled" + ")" == " (rule disabled)";
    forall m: string ensures m + " (" + "rule disabled" + ")" == m + " (rule disabled)" {
    }
  }

  /** Deleting a rule removes it and stops its events. */
  lemma {:induction false} DeleteExact(db: Db, rule: Id, now: Time)
    ensures var d := DeleteRule(db, rule, now);
      && d.box == db.box && d.tables.nextEvent == db.tables.nextEvent
      && (forall k :: k in d.rules <==> k in db.rules && k != rule)
      && (forall k :: k in d.rules ==> d.rules[k] == db.rules[k])
      && StopsRule(db.tables.events, d.tables.events, rule, " (rule deleted)", now)
  {
    forall m: string ensures m + " (" + "rule deleted" + ")" == m + " (rule deleted)" {
    }
  }
}
