/**
 * What evaluating one rule comes to, event by event: a reference definition from the signals alone, and the
 * proof that the event table and the notifications are exactly that.
 */
module AlertOutcome {
  import opened Wrappers
  import opened AlertTypes
  import opened Alerting
  import opened AlertLifecycle
  import opened AlertReminders

  // ---------------------------------------------------------------- the reference

  /** The signal is for the rule and on the wrong side of its threshold, or on it. */
  predicate Concerns(r: Rule, s: Signal, subject: string)
  {
    && s.subject == subject && s.metric == r.metric
    && (r.target == None || r.target == Some(subject))
    && (s.windowSeconds == None || s.windowSeconds == Some(r.windowSeconds))
    && (r.comparator == GreaterOrEqual ==> s.value >= r.threshold)
    && (r.comparator == LessOrEqual ==> s.value <= r.threshold)
  }

  function FirstOf(r: Rule, signals: seq<Signal>, subject: string): Option<Signal>
  {
    if signals == [] then None
    else
      var earlier, last := FirstOf(r, signals[..|signals| - 1], subject), signals[|signals| - 1];
      if earlier.Some? then earlier else if Concerns(r, last, subject) then Some(last) else None
  }

  function LastOf(r: Rule, signals: seq<Signal>, subject: string): Option<Signal>
  {
    if signals == [] then None
    else
      var last := signals[|signals| - 1];
      if Concerns(r, last, subject) then Some(last) else LastOf(r, signals[..|signals| - 1], subject)
  }

  /** The event has never been notified, or its rule's cooldown has passed since. */
  predicate DueAgain(e: Event, r: Rule, now: Time)
  {
    e.lastNotified == None || now >= e.lastNotified.value + r.cooldownSeconds
  }

  predicate Concerned(e: Event, r: Rule)
  {
    e.active && e.ruleId == r.id
  }

  /** What becomes of an event the rule finds active. */
  function Continued(e: Event, r: Rule, s: Signal, now: Time): Event
  {
    Event(e.ruleId, e.ruleName, e.severity, e.subject, true, s.value, e.threshold, s.message, e.started, now,
          e.resolvedAt, if DueAgain(e, r, now) then Some(now) else e.lastNotified)
  }

  function Begun(r: Rule, s: Signal, now: Time): Event
  {
    Event(r.id, r.name, r.severity, s.subject, true, s.value, r.threshold, s.message, now, now, None, Some(now))
  }

  function Over(e: Event, now: Time): Event
  {
    Event(e.ruleId, e.ruleName, e.severity, e.subject, false, e.value, e.threshold, "resolved: " + e.message,
          e.started, now, Some(now), e.lastNotified)
  }

  /** An event after the rule has seen the signals but before it ends what no longer fires. */
  function Touched(e: Event, r: Rule, signals: seq<Signal>, now: Time): Event
  {
    if !Concerned(e, r) then e
    else match LastOf(r, signals, e.subject)
      case None => e
      case Some(s) => Continued(e, r, s, now)
  }

  /** An event after its rule was evaluated. */
  function EventAfter(e: Event, r: Rule, signals: seq<Signal>, now: Time): Event
  {
    if !Concerned(e, r) then e
    else match LastOf(r, signals, e.subject)
      case None => Over(e, now)
      case Some(s) => Continued(e, r, s, now)
  }

  // ---------------------------------------------------------------- matching

  lemma {:induction false} FiresIsConcerns(r: Rule, s: Signal, subject: string)
    ensures Concerns(r, s, subject) <==> Fires(r, s) && s.subject == subject
  {
  }

  lemma {:induction false} LastOfFires(r: Rule, signals: seq<Signal>, subject: string)
    ensures LastOf(r, signals, subject).Some? <==> subject in FiringSubjects(r, signals)
    ensures FirstOf(r, signals, subject).Some? <==> LastOf(r, signals, subject).Some?
    ensures LastOf(r, signals, subject).Some? ==>
      LastOf(r, signals, subject).value in signals && Concerns(r, LastOf(r, signals, subject).value, subject)
    ensures FirstOf(r, signals, subject).Some? ==>
      FirstOf(r, signals, subject).value in signals && Concerns(r, FirstOf(r, signals, subject).value, subject)
    decreases |signals|
  {
    hide Fires, Concerns, FiringSubjects;
    if signals == [] {
      NoneFires(r);
    } else {
      var init, last := signals[..|signals| - 1], signals[|signals| - 1];
      LastOfFires(r, init, subject);
      FiringSubjectsLast(r, signals);
      FiresIsConcerns(r, last, subject);
    }
  }

  lemma {:induction false} NoneFires(r: Rule)
    ensures FiringSubjects(r, []) == {}
  {
  }

  // ---------------------------------------------------------------- one signal

  /** A matching signal refreshes the active event of its subject, and only that. */
  lemma {:induction false} FireEvent(t: Tables, r: Rule, s: Signal, now: Time, id: nat)
    requires TablesOk(t) && id in t.events
    ensures var t2 := Fire(t, r, s, now).0; id in t2.events
    ensures Fire(t, r, s, now).0.events[id] ==
      if ActiveIn(t.events[id], r.id, s.subject)
      then Refreshed(t.events[id], s, now, Remind(t.events[id], r.cooldownSeconds, now)) else t.events[id]
    ensures ActiveIn(t.events[id], r.id, s.subject) ==> Fire(t, r, s, now).0.nextEvent == t.nextEvent
    ensures ActiveIn(t.events[id], r.id, s.subject) ==> Fire(t, r, s, now).0.events.Keys == t.events.Keys
    ensures ActiveIn(t.events[id], r.id, s.subject) ==>
      Fire(t, r, s, now).1 == if Remind(t.events[id], r.cooldownSeconds, now)
                              then [Firing(r, id, Fire(t, r, s, now).0.events[id])] else []
  {
    hide Refreshed, Remind, Firing, Started;
    var ids := ActiveFor(t.events, r.id, s.subject);
    if ActiveIn(t.events[id], r.id, s.subject) {
      assert id in ids;
      forall j | j in ids ensures j == id {
        assert j != id ==> BothActive(t.events[j], t.events[id]);
      }
      assert ids == {id};
    }
  }

  lemma {:induction false} NoneIsNone(events: Events, rule: Id, subject: string)
    ensures ActiveFor(events, rule, subject) == {} <==> subject !in ActiveSubjects(events, rule)
  {
    if ActiveFor(events, rule, subject) != {} {
      var id :| id in ActiveFor(events, rule, subject);
      assert events[id].subject in ActiveSubjects(events, rule);
    }
    if subject in ActiveSubjects(events, rule) {
      var id :| id in events && events[id].active && events[id].ruleId == rule && events[id].subject == subject;
      assert id in ActiveFor(events, rule, subject);
    }
  }

  /** A matching signal without an active event begins one. */
  lemma {:induction false} FireBegins(t: Tables, r: Rule, s: Signal, now: Time)
    requires TablesOk(t) && s.subject !in ActiveSubjects(t.events, r.id)
    ensures var t2 := Fire(t, r, s, now).0;
      && t2.events == t.events[t.nextEvent := Begun(r, s, now)] && t2.nextEvent == t.nextEvent + 1
      && Fire(t, r, s, now).1 == [Notification(t.nextEvent, Begun(r, s, now), false, r.notifyWebhook, r.notifyEmail)]
  {
    NoneIsNone(t.events, r.id, s.subject);
  }

  // ---------------------------------------------------------------- all signals

  lemma {:induction false} TouchedMore(e: Event, r: Rule, signals: seq<Signal>, now: Time)
    requires RuleOk(r) && signals != []
    ensures var init, last := signals[..|signals| - 1], signals[|signals| - 1];
      var before := Touched(e, r, init, now);
      Touched(e, r, signals, now) ==
        if Fires(r, last) && ActiveIn(before, r.id, last.subject)
        then Refreshed(before, last, now, Remind(before, r.cooldownSeconds, now)) else before
  {
    hide Fires, Concerns;
    FiresIsConcerns(r, signals[|signals| - 1], e.subject);
  }

  lemma {:induction false} BegunMore(r: Rule, signals: seq<Signal>, subject: string, now: Time)
    requires RuleOk(r) && signals != [] && LastOf(r, signals[..|signals| - 1], subject).Some?
    ensures var init, last := signals[..|signals| - 1], signals[|signals| - 1];
      var before := Begun(r, LastOf(r, init, subject).value, now);
      && LastOf(r, signals, subject).Some? && before.subject == subject == LastOf(r, signals, subject).value.subject
      && Begun(r, LastOf(r, signals, subject).value, now) ==
         if Fires(r, last) && ActiveIn(before, r.id, last.subject)
         then Refreshed(before, last, now, Remind(before, r.cooldownSeconds, now)) else before
  {
    hide Fires, FiringSubjects;
    FiresIsConcerns(r, signals[|signals| - 1], subject);
    LastOfFires(r, signals[..|signals| - 1], subject);
  }

  /** The event began with this evaluation: its subject was not active, and some signal concerns it. */
  predicate IsNew(t: Tables, e: Event, r: Rule, signals: seq<Signal>, now: Time)
  {
    && !(exists id :: id in t.events && Concerned(t.events[id], r) && t.events[id].subject == e.subject)
    && LastOf(r, signals, e.subject).Some? && e == Begun(r, LastOf(r, signals, e.subject).value, now)
  }

  ghost predicate EventFits(t: Tables, t2: Tables, r: Rule, signals: seq<Signal>, now: Time, id: nat)
  {
    id in t2.events ==>
      if id in t.events then t2.events[id] == Touched(t.events[id], r, signals, now)
      else id >= t.nextEvent && IsNew(t, t2.events[id], r, signals, now)
  }

  lemma {:induction false} NotActive(t: Tables, r: Rule, subject: string)
    ensures subject !in ActiveSubjects(t.events, r.id) <==>
      !(exists id :: id in t.events && Concerned(t.events[id], r) && t.events[id].subject == subject)
  {
  }

  lemma {:induction false} FireKeys(t: Tables, r: Rule, s: Signal, now: Time)
    requires TablesOk(t)
    ensures s.subject in ActiveSubjects(t.events, r.id) ==> Fire(t, r, s, now).0.events.Keys == t.events.Keys
  {
    hide Fire;
    if s.subject in ActiveSubjects(t.events, r.id) {
      var id :|
        id in t.events && t.events[id].active && t.events[id].ruleId == r.id && t.events[id].subject == s.subject;
      FireEvent(t, r, s, now, id);
    }
  }

  lemma {:induction false} FitsStep(t: Tables, t1: Tables, r: Rule, signals: seq<Signal>, now: Time, id: nat)
    requires TablesOk(t) && RuleOk(r) && signals != [] && TablesOk(t1) && Advances(t, t1, r.id)
    requires ActiveSubjects(t.events, r.id) <= ActiveSubjects(t1.events, r.id)
    requires var init := signals[..|signals| - 1]; EventFits(t, t1, r, init, now, id)
    ensures var last := signals[|signals| - 1];
      EventFits(t, if Fires(r, last) then Fire(t1, r, last, now).0 else t1, r, signals, now, id)
  {
    hide Fire, Fires, ActiveSubjects, Touched, TablesOk, Remind, Refreshed, LastOf, Follows;
    var last := signals[|signals| - 1];
    if id in t1.events {
      if id in t.events {
        TouchedMore(t.events[id], r, signals, now);
      } else {
        BegunMore(r, signals, t1.events[id].subject, now);
      }
      if Fires(r, last) {
        FireEvent(t1, r, last, now, id);
      }
    } else if Fires(r, last) {
      FireKeys(t1, r, last, now);
      if last.subject !in ActiveSubjects(t1.events, r.id) {
        FireBegins(t1, r, last, now);
        NotActive(t, r, last.subject);
        LastIsLast(r, signals);
      }
    }
  }

  lemma {:induction false} LastIsLast(r: Rule, signals: seq<Signal>)
    requires signals != [] && Fires(r, signals[|signals| - 1])
    ensures LastOf(r, signals, signals[|signals| - 1].subject) == Some(signals[|signals| - 1])
  {
    hide Fires;
    FiresIsConcerns(r, signals[|signals| - 1], signals[|signals| - 1].subject);
  }

  lemma {:induction false} FireAllFits(t: Tables, r: Rule, signals: seq<Signal>, now: Time, id: nat)
    requires TablesOk(t) && RuleOk(r)
    ensures EventFits(t, FireAll(t, r, signals, now).0, r, signals, now, id)
    decreases |signals|
  {
    hide Fire, Fires, ActiveSubjects, FiringSubjects, TablesOk, Advances, EventFits;
    if signals == [] {
      NothingTouched(t, r, now, id);
    } else {
      var init := signals[..|signals| - 1];
      FireAllFits(t, r, init, now, id);
      FireAllEffect(t, r, init, now);
      FitsStep(t, FireAll(t, r, init, now).0, r, signals, now, id);
    }
  }

  lemma {:induction false} NothingTouched(t: Tables, r: Rule, now: Time, id: nat)
    ensures EventFits(t, t, r, [], now, id)
  {
  }

  // ---------------------------------------------------------------- one rule: its events

  lemma {:induction false} ResolvedIsOver(e: Event, r: Rule, signals: seq<Signal>, now: Time, firing: set<string>)
    requires e.subject in firing <==> LastOf(r, signals, e.subject).Some?
    ensures var seen := Touched(e, r, signals, now);
      EventAfter(e, r, signals, now) == if Ends(seen, r.id, firing) then Resolved(seen, now) else seen
  {
    hide LastOf;
  }

  /** Every event a rule finds comes out as the reference says, and every other one began with a signal. */
  lemma {:induction false} RuleEvents(t: Tables, r: Rule, signals: seq<Signal>, now: Time, id: nat)
    requires TablesOk(t) && RuleOk(r)
    ensures var t2 := EvaluateRule(t, r, signals, now).0;
      && (id in t.events ==> id in t2.events && t2.events[id] == EventAfter(t.events[id], r, signals, now))
      && (id in t2.events && id !in t.events ==> id >= t.nextEvent && IsNew(t, t2.events[id], r, signals, now))
  {
    hide FireAll, FiringSubjects, ActiveSubjects, TablesOk, UniqueActive, Touched, EventAfter, Follows, LastOf;
    var t1 := FireAll(t, r, signals, now).0;
    FireAllFits(t, r, signals, now, id);
    FireAllEffect(t, r, signals, now);
    if id in t.events {
      LastOfFires(r, signals, t.events[id].subject);
      ResolvedIsOver(t.events[id], r, signals, now, FiringSubjects(r, signals));
    } else if id in t1.events {
      LastOfFires(r, signals, t1.events[id].subject);
    }
  }

  /** Every subject that a signal concerns and that was not active has a new event. */
  lemma {:induction false} NewEventExists(t: Tables, r: Rule, signals: seq<Signal>, now: Time, subject: string)
    requires TablesOk(t) && RuleOk(r) && LastOf(r, signals, subject).Some?
    requires !(exists id :: id in t.events && Concerned(t.events[id], r) && t.events[id].subject == subject)
    ensures var t2 := EvaluateRule(t, r, signals, now).0;
      exists id :: id in t2.events && id !in t.events && t2.events[id].subject == subject
  {
    hide EvaluateRule, FiringSubjects, TablesOk, Advances, LastOf;
    var t2 := EvaluateRule(t, r, signals, now).0;
    RuleEffect(t, r, signals, now);
    LastOfFires(r, signals, subject);
    var id :|
      id in t2.events && t2.events[id].active && t2.events[id].ruleId == r.id && t2.events[id].subject == subject;
    RuleEvents(t, r, signals, now, id);
  }

  // ---------------------------------------------------------------- one rule: its notifications

  predicate Routed(n: Notification, r: Rule)
  {
    n.webhook == r.notifyWebhook && n.email == r.notifyEmail
  }

  /** The note tells that its event fires, as the first signal about it said, and that it was new or due again. */
  predicate FireNote(t: Tables, t2: Tables, r: Rule, signals: seq<Signal>, now: Time, n: Notification)
  {
    && !n.resolved && Routed(n, r) && n.eventId in t2.events
    && var e := t2.events[n.eventId];
       && Concerned(e, r) && e.updated == now && e.lastNotified == Some(now)
       && FirstOf(r, signals, e.subject).Some?
       && n.event == e.(value := FirstOf(r, signals, e.subject).value.value,
                        message := FirstOf(r, signals, e.subject).value.message)
       && (n.eventId in t.events ==>
             Concerned(t.events[n.eventId], r) && DueAgain(t.events[n.eventId], r, now))
  }

  /** Of which events a rule tells that they fire. */
  predicate MustTell(t: Tables, t2: Tables, r: Rule, signals: seq<Signal>, now: Time, id: nat)
  {
    && id in t2.events
    && (id in t.events ==>
          && Concerned(t.events[id], r) && LastOf(r, signals, t.events[id].subject).Some?
          && DueAgain(t.events[id], r, now))
  }

  predicate FireNotesFit(
    t: Tables, t2: Tables, r: Rule, signals: seq<Signal>, now: Time, notes: seq<Notification>, id: nat)
  {
    && (forall i :: 0 <= i < |notes| && notes[i].eventId == id ==> FireNote(t, t2, r, signals, now, notes[i]))
    && (Fired(notes, id) <==> MustTell(t, t2, r, signals, now, id))
  }

  lemma {:induction false} FirstOfMore(r: Rule, signals: seq<Signal>, subject: string)
    requires signals != []
    ensures var init, last := signals[..|signals| - 1], signals[|signals| - 1];
      FirstOf(r, signals, subject) ==
        if FirstOf(r, init, subject).Some? then FirstOf(r, init, subject)
        else if Fires(r, last) && last.subject == subject then Some(last) else None
  {
    hide Fires, Concerns;
    FiresIsConcerns(r, signals[|signals| - 1], subject);
  }

  /** A note already sent still fits after one more signal. */
  lemma {:induction false} FireNoteStays(
    t: Tables, t1: Tables, t2: Tables, r: Rule, signals: seq<Signal>, now: Time, n: Notification)
    requires RuleOk(r) && signals != [] && FireNote(t, t1, r, signals[..|signals| - 1], now, n)
    requires n.eventId in t2.events
    requires var e := t1.events[n.eventId];
      || t2.events[n.eventId] == e
      || t2.events[n.eventId] == Refreshed(e, signals[|signals| - 1], now, Remind(e, r.cooldownSeconds, now))
    ensures FireNote(t, t2, r, signals, now, n)
  {
    hide FirstOf, Fires;
    FirstOfMore(r, signals, t1.events[n.eventId].subject);
  }

  lemma {:induction false} FireOneNote(t: Tables, r: Rule, s: Signal, now: Time)
    requires TablesOk(t)
    ensures var (t2, notes) := Fire(t, r, s, now);
      && |notes| <= 1
      && (notes != [] ==> notes[0].eventId in t2.events && ActiveIn(t2.events[notes[0].eventId], r.id, s.subject))
  {
  }

  /** A note about another event says nothing about `id`. */
  lemma {:induction false} SameNotes(
    t: Tables, t1: Tables, t2: Tables, r: Rule, signals: seq<Signal>, now: Time, a: seq<Notification>,
    b: seq<Notification>, id: nat)
    requires RuleOk(r) && signals != [] && FireNotesFit(t, t1, r, signals[..|signals| - 1], now, a, id)
    requires |b| <= 1 && (b != [] ==> b[0].eventId != id)
    requires id in t1.events ==> id in t2.events && t2.events[id] == t1.events[id]
    requires MustTell(t, t1, r, signals[..|signals| - 1], now, id) <==> MustTell(t, t2, r, signals, now, id)
    ensures FireNotesFit(t, t2, r, signals, now, a + b, id)
  {
    hide FireNote, MustTell, FirstOf, Fires;
    FiredConcat(a, b, id);
    assert !Fired(b, id);
    forall i | 0 <= i < |a + b| && (a + b)[i].eventId == id ensures FireNote(t, t2, r, signals, now, (a + b)[i]) {
      assert (a + b)[i] == a[i];
      NoteInTable(t, t1, r, signals[..|signals| - 1], now, a[i]);
      FireNoteStays(t, t1, t2, r, signals, now, a[i]);
    }
  }

  lemma {:induction false} NoteInTable(
    t: Tables, t1: Tables, r: Rule, signals: seq<Signal>, now: Time, n: Notification)
    requires FireNote(t, t1, r, signals, now, n)
    ensures n.eventId in t1.events
  {
  }

  lemma {:induction false} SameLast(r: Rule, signals: seq<Signal>, subject: string)
    requires signals != [] && !(Fires(r, signals[|signals| - 1]) && signals[|signals| - 1].subject == subject)
    ensures LastOf(r, signals, subject) == LastOf(r, signals[..|signals| - 1], subject)
  {
    hide Fires, Concerns;
    FiresIsConcerns(r, signals[|signals| - 1], subject);
  }

  /** The signal does not touch the event: nothing new is to be told of it. */
  lemma {:induction false} UntouchedTells(
    t: Tables, t1: Tables, t2: Tables, r: Rule, signals: seq<Signal>, now: Time, id: nat)
    requires signals != [] && id in t1.events && id in t2.events
    requires EventFits(t, t1, r, signals[..|signals| - 1], now, id)
    requires var last := signals[|signals| - 1]; !(Fires(r, last) && ActiveIn(t1.events[id], r.id, last.subject))
    ensures MustTell(t, t1, r, signals[..|signals| - 1], now, id) <==> MustTell(t, t2, r, signals, now, id)
  {
    hide LastOf, Fires, DueAgain;
    if id in t.events && Concerned(t.events[id], r) {
      SameLast(r, signals, t.events[id].subject);
    }
  }

  /** When the signal reminds: the event is old and due, and this is the first signal about it. */
  lemma {:induction false} RemindsFirst(t: Tables, t1: Tables, r: Rule, signals: seq<Signal>, now: Time, id: nat)
    requires RuleOk(r) && id in t1.events && EventFits(t, t1, r, signals, now, id)
    requires Concerned(t1.events[id], r) && Remind(t1.events[id], r.cooldownSeconds, now)
    ensures id in t.events && t1.events[id] == t.events[id] && DueAgain(t.events[id], r, now)
    ensures LastOf(r, signals, t1.events[id].subject) == None
  {
    hide LastOf;
  }

  /** The signal refreshes the event. */
  lemma {:induction false} TouchedNotes(
    t: Tables, t1: Tables, r: Rule, signals: seq<Signal>, now: Time, a: seq<Notification>, id: nat)
    requires RuleOk(r) && TablesOk(t1) && signals != [] && id in t1.events
    requires EventFits(t, t1, r, signals[..|signals| - 1], now, id)
    requires FireNotesFit(t, t1, r, signals[..|signals| - 1], now, a, id)
    requires var last := signals[|signals| - 1]; Fires(r, last) && ActiveIn(t1.events[id], r.id, last.subject)
    ensures var (t2, b) := Fire(t1, r, signals[|signals| - 1], now); FireNotesFit(t, t2, r, signals, now, a + b, id)
  {
    hide Fire, Fires, FireNote, FirstOf, LastOf, TablesOk;
    var init, last := signals[..|signals| - 1], signals[|signals| - 1];
    var (t2, b) := Fire(t1, r, last, now);
    FireEvent(t1, r, last, now, id);
    FiredConcat(a, b, id);
    LastIsLast(r, signals);
    if Remind(t1.events[id], r.cooldownSeconds, now) {
      RemindsFirst(t, t1, r, init, now, id);
      FirstReminder(t, t1, t2, r, signals, now, id);
      assert b == [Firing(r, id, t2.events[id])] && TellsOf(b[0], id);
      assert Fired(b, id);
    }
    forall i | 0 <= i < |a + b| && (a + b)[i].eventId == id ensures FireNote(t, t2, r, signals, now, (a + b)[i]) {
      if i < |a| {
        assert (a + b)[i] == a[i];
        NoteInTable(t, t1, r, init, now, a[i]);
        FireNoteStays(t, t1, t2, r, signals, now, a[i]);
      } else {
        assert (a + b)[i] == b[i - |a|];
      }
    }
  }

  lemma {:induction false} FirstReminder(
    t: Tables, t1: Tables, t2: Tables, r: Rule, signals: seq<Signal>, now: Time, id: nat)
    requires signals != [] && id in t1.events && id in t2.events && id in t.events && t1.events[id] == t.events[id]
    requires var init, last := signals[..|signals| - 1], signals[|signals| - 1];
      && Fires(r, last) && ActiveIn(t1.events[id], r.id, last.subject) && DueAgain(t.events[id], r, now)
      && LastOf(r, init, last.subject) == None && t2.events[id] == Refreshed(t1.events[id], last, now, true)
    ensures FireNote(t, t2, r, signals, now, Firing(r, id, t2.events[id]))
  {
    hide Fires, FirstOf, LastOf, FiringSubjects;
    var init, last := signals[..|signals| - 1], signals[|signals| - 1];
    LastOfFires(r, init, last.subject);
    FirstOfMore(r, signals, last.subject);
  }

  /** The signal begins an event. */
  lemma {:induction false} BegunNotes(
    t: Tables, t1: Tables, r: Rule, signals: seq<Signal>, now: Time, a: seq<Notification>)
    requires RuleOk(r) && TablesOk(t1) && signals != [] && Numbered(t) && t.nextEvent <= t1.nextEvent
    requires FireNotesFit(t, t1, r, signals[..|signals| - 1], now, a, t1.nextEvent)
    requires FiringSubjects(r, signals[..|signals| - 1]) <= ActiveSubjects(t1.events, r.id)
    requires var last := signals[|signals| - 1]; Fires(r, last) && last.subject !in ActiveSubjects(t1.events, r.id)
    ensures var (t2, b) := Fire(t1, r, signals[|signals| - 1], now);
      FireNotesFit(t, t2, r, signals, now, a + b, t1.nextEvent)
  {
    hide Fire, Fires, FirstOf, LastOf, FiringSubjects, ActiveSubjects, UniqueActive;
    var init, last, id := signals[..|signals| - 1], signals[|signals| - 1], t1.nextEvent;
    var (t2, b) := Fire(t1, r, last, now);
    FireBegins(t1, r, last, now);
    LastOfFires(r, init, last.subject);
    FirstOfMore(r, signals, last.subject);
    FiredConcat(a, b, id);
    assert TellsOf(b[0], id) && Fired(b, id);
    forall i | 0 <= i < |a + b| && (a + b)[i].eventId == id ensures FireNote(t, t2, r, signals, now, (a + b)[i]) {
      if i < |a| { assert false; }
    }
  }

  lemma {:induction false} NotesStep(
    t: Tables, t1: Tables, r: Rule, signals: seq<Signal>, now: Time, a: seq<Notification>, id: nat)
    requires RuleOk(r) && TablesOk(t1) && signals != [] && Numbered(t) && t.nextEvent <= t1.nextEvent
    requires forall j :: j in t.events ==> j in t1.events
    requires EventFits(t, t1, r, signals[..|signals| - 1], now, id)
    requires FireNotesFit(t, t1, r, signals[..|signals| - 1], now, a, id)
    requires FiringSubjects(r, signals[..|signals| - 1]) <= ActiveSubjects(t1.events, r.id)
    ensures var last := signals[|signals| - 1];
      var (t2, b) := if Fires(r, last) then Fire(t1, r, last, now) else (t1, []);
      FireNotesFit(t, t2, r, signals, now, a + b, id)
  {
    hide Fire, Fires, FireNotesFit, FirstOf, LastOf, FiringSubjects, ActiveSubjects, UniqueActive, EventFits, DueAgain;
    var last := signals[|signals| - 1];
    var (t2, b) := if Fires(r, last) then Fire(t1, r, last, now) else (t1, []);
    if Fires(r, last) {
      FireOneNote(t1, r, last, now);
      FireKeys(t1, r, last, now);
    }
    if id in t1.events {
      if Fires(r, last) {
        FireEvent(t1, r, last, now, id);
      }
      if Fires(r, last) && ActiveIn(t1.events[id], r.id, last.subject) {
        TouchedNotes(t, t1, r, signals, now, a, id);
      } else {
        UntouchedTells(t, t1, t2, r, signals, now, id);
        SameNotes(t, t1, t2, r, signals, now, a, b, id);
      }
    } else if Fires(r, last) && last.subject !in ActiveSubjects(t1.events, r.id) {
      FireBegins(t1, r, last, now);
      if id == t1.nextEvent {
        BegunNotes(t, t1, r, signals, now, a);
      } else {
        SameNotes(t, t1, t2, r, signals, now, a, b, id);
      }
    } else {
      SameNotes(t, t1, t2, r, signals, now, a, b, id);
    }
  }

  lemma {:induction false} FireAllNotes(t: Tables, r: Rule, signals: seq<Signal>, now: Time, id: nat)
    requires TablesOk(t) && RuleOk(r)
    ensures var (t2, notes) := FireAll(t, r, signals, now); FireNotesFit(t, t2, r, signals, now, notes, id)
    decreases |signals|
  {
    hide Fire, Fires, UniqueActive, ActiveSubjects, FiringSubjects, FireNotesFit, EventFits, Follows;
    if signals == [] {
      NothingTold(t, r, now, id);
    } else {
      var init, last := signals[..|signals| - 1], signals[|signals| - 1];
      var (t1, a) := FireAll(t, r, init, now);
      FireAllNotes(t, r, init, now, id);
      FireAllFits(t, r, init, now, id);
      FireAllEffect(t, r, init, now);
      NotesStep(t, t1, r, signals, now, a, id);
      if !Fires(r, last) {
        assert a + [] == a;
      }
    }
  }

  lemma {:induction false} NothingTold(t: Tables, r: Rule, now: Time, id: nat)
    ensures FireNotesFit(t, t, r, [], now, [], id)
  {
  }

  /** The note tells that its event is over. */
  predicate EndNote(t: Tables, t2: Tables, r: Rule, signals: seq<Signal>, n: Notification)
  {
    && n.resolved && Routed(n, r) && n.eventId in t2.events && n.event == t2.events[n.eventId]
    && MustEnd(t, r, signals, n.eventId)
  }

  predicate MustEnd(t: Tables, r: Rule, signals: seq<Signal>, id: nat)
  {
    id in t.events && Concerned(t.events[id], r) && LastOf(r, signals, t.events[id].subject) == None
  }

  /** Among the notifications is one that tells that event `id` is over. */
  predicate Ended(notes: seq<Notification>, id: nat)
  {
    exists i :: 0 <= i < |notes| && notes[i].resolved && notes[i].eventId == id
  }

  predicate OneEach(notes: seq<Notification>)
  {
    forall i, j :: 0 <= i < j < |notes| ==> notes[i].eventId != notes[j].eventId
  }

  predicate TellsEnd(events: Events, r: Rule, ids: set<nat>, now: Time, n: Notification)
    requires ids <= events.Keys
  {
    && n.eventId in ids && n.resolved && Routed(n, r) && n.event == Resolved(events[n.eventId], now)
  }

  lemma {:induction false} EndNotesExact(events: Events, r: Rule, ids: set<nat>, now: Time)
    requires ids <= events.Keys
    ensures var notes := EndNotes(events, r, ids, now);
      && OneEach(notes)
      && (forall i :: 0 <= i < |notes| ==> TellsEnd(events, r, ids, now, notes[i]))
      && (forall id :: id in ids ==> Ended(notes, id))
    decreases |ids|
  {
    hide Resolved;
    if ids == {} {
    } else {
      var first := Least(ids);
      var rest := EndNotes(events, r, ids - {first}, now);
      EndNotesExact(events, r, ids - {first}, now);
      var notes := EndNotes(events, r, ids, now);
      assert notes[1..] == rest;
      forall id | id in ids ensures Ended(notes, id) {
        if id == first {
          assert notes[0].resolved && notes[0].eventId == id;
        } else {
          EndedLater(notes, id);
        }
      }
    }
  }

  lemma {:induction false} EndedLater(notes: seq<Notification>, id: nat)
    requires notes != [] && Ended(notes[1..], id)
    ensures Ended(notes, id)
  {
    var i :| 0 <= i < |notes[1..]| && notes[1..][i].resolved && notes[1..][i].eventId == id;
    assert notes[i + 1] == notes[1..][i];
  }

  predicate NoteFits(t: Tables, t2: Tables, r: Rule, signals: seq<Signal>, now: Time, n: Notification)
  {
    if n.resolved then EndNote(t, t2, r, signals, n) else FireNote(t, t2, r, signals, now, n)
  }

  /** What a rule's notifications say of event `id`: which ones there are, and what each of them tells. */
  predicate NotesFit(
    t: Tables, t2: Tables, r: Rule, signals: seq<Signal>, now: Time, notes: seq<Notification>, id: nat)
  {
    && (forall i :: 0 <= i < |notes| && notes[i].eventId == id ==> NoteFits(t, t2, r, signals, now, notes[i]))
    && (Fired(notes, id) <==> MustTell(t, t2, r, signals, now, id))
    && (Ended(notes, id) <==> MustEnd(t, r, signals, id))
  }

  lemma {:induction false} EndedConcat(a: seq<Notification>, b: seq<Notification>, id: nat)
    requires !Ended(a, id)
    ensures Ended(a + b, id) <==> Ended(b, id)
  {
    if Ended(b, id) {
      var i :| 0 <= i < |b| && b[i].resolved && b[i].eventId == id;
      assert (a + b)[|a| + i] == b[i];
    }
    if Ended(a + b, id) {
      var i :| 0 <= i < |a + b| && (a + b)[i].resolved && (a + b)[i].eventId == id;
      assert i >= |a| ==> b[i - |a|] == (a + b)[i];
    }
  }

  /** A fired event is not ended by the same evaluation, so its note still fits. */
  lemma {:induction false} FireNoteLasts(
    t: Tables, t1: Tables, t2: Tables, r: Rule, signals: seq<Signal>, now: Time, n: Notification)
    requires FireNote(t, t1, r, signals, now, n)
    requires t2.events == ResolveIds(t1.events, EndedIds(t1.events, r.id, FiringSubjects(r, signals)), now)
    ensures FireNote(t, t2, r, signals, now, n)
  {
    hide FiringSubjects, FirstOf, LastOf, Resolved;
    LastOfFires(r, signals, t1.events[n.eventId].subject);
  }

  /** Which events a rule ends: those it found active and that no signal concerns. */
  lemma {:induction false} EndsExactly(t: Tables, t1: Tables, r: Rule, signals: seq<Signal>, now: Time, id: nat)
    requires EventFits(t, t1, r, signals, now, id) && (id in t.events ==> id in t1.events)
    ensures id in EndedIds(t1.events, r.id, FiringSubjects(r, signals)) <==> MustEnd(t, r, signals, id)
  {
    hide FiringSubjects, LastOf;
    if id in t1.events {
      LastOfFires(r, signals, t1.events[id].subject);
    }
  }

  /** A rule notifies exactly of the events that are new, due again or over, as the reference says. */
  lemma {:induction false} RuleNotes(t: Tables, r: Rule, signals: seq<Signal>, now: Time, id: nat)
    requires TablesOk(t) && RuleOk(r)
    ensures var (t2, notes) := EvaluateRule(t, r, signals, now); NotesFit(t, t2, r, signals, now, notes, id)
  {
    hide FireAll, FiringSubjects, ActiveSubjects, UniqueActive, FireNote, EventFits, LastOf, EndNotes, Resolved;
    hide Follows;
    var (t1, a) := FireAll(t, r, signals, now);
    var ended := EndedIds(t1.events, r.id, FiringSubjects(r, signals));
    var b := EndNotes(t1.events, r, ended, now);
    var t2 := t1.(events := ResolveIds(t1.events, ended, now));
    FireAllNotes(t, r, signals, now, id);
    FireAllFits(t, r, signals, now, id);
    FireAllEffect(t, r, signals, now);
    EndNotesExact(t1.events, r, ended, now);
    EndsExactly(t, t1, r, signals, now, id);
    NothingEndsEarly(t, t1, r, signals, now, a, id);
    FiredConcat(a, b, id);
    EndedConcat(a, b, id);
    assert !Fired(b, id);
    var notes := a + b;
    forall i | 0 <= i < |notes| && notes[i].eventId == id
      ensures NoteFits(t, t2, r, signals, now, notes[i])
    {
      if i < |a| {
        assert notes[i] == a[i];
        FireNoteLasts(t, t1, t2, r, signals, now, a[i]);
        NotResolved(t, t1, r, signals, now, a[i]);
      } else {
        assert notes[i] == b[i - |a|];
        assert TellsEnd(t1.events, r, ended, now, b[i - |a|]);
      }
    }
  }

  lemma {:induction false} NotResolved(t: Tables, t1: Tables, r: Rule, signals: seq<Signal>, now: Time, n: Notification)
    requires FireNote(t, t1, r, signals, now, n)
    ensures !n.resolved
  {
  }

  lemma {:induction false} NothingEndsEarly(
    t: Tables, t1: Tables, r: Rule, signals: seq<Signal>, now: Time, a: seq<Notification>, id: nat)
    requires FireNotesFit(t, t1, r, signals, now, a, id)
    ensures !Ended(a, id)
  {
    hide LastOf, FirstOf;
  }

  // ---------------------------------------------------------------- one notification each

  lemma {:induction false} RuleOneEach(t: Tables, r: Rule, signals: seq<Signal>, now: Time)
    requires TablesOk(t) && RuleOk(r)
    ensures OneEach(EvaluateRule(t, r, signals, now).1)
  {
    hide FireAll, FiringSubjects, TablesOk, EndNotes, FireNote, MustTell, LastOf, Resolved, Fired;
    var (t1, a) := FireAll(t, r, signals, now);
    var ended := EndedIds(t1.events, r.id, FiringSubjects(r, signals));
    var b := EndNotes(t1.events, r, ended, now);
    EndNotesExact(t1.events, r, ended, now);
    forall i, j | 0 <= i < j < |a + b| ensures (a + b)[i].eventId != (a + b)[j].eventId {
      var id := (a + b)[i].eventId;
      FireAllNotes(t, r, signals, now, id);
      FireAllOnce(t, r, signals, now, id);
      if j < |a| {
        TellsOnly(t, t1, r, signals, now, a, id);
      } else if i < |a| {
        FiredIsNotEnded(t, r, signals, now, a, i, b, j - |a|);
      }
    }
  }

  lemma {:induction false} TellsOnly(
    t: Tables, t1: Tables, r: Rule, signals: seq<Signal>, now: Time, a: seq<Notification>, id: nat)
    requires FireNotesFit(t, t1, r, signals, now, a, id)
    ensures forall i :: 0 <= i < |a| && a[i].eventId == id ==> TellsOf(a[i], id)
  {
    hide LastOf, FirstOf, DueAgain;
  }

  lemma {:induction false} FiredIsNotEnded(
    t: Tables, r: Rule, signals: seq<Signal>, now: Time, a: seq<Notification>, i: nat, b: seq<Notification>, j: nat)
    requires TablesOk(t) && RuleOk(r) && i < |a| && j < |b| && a == FireAll(t, r, signals, now).1
    requires var t1 := FireAll(t, r, signals, now).0;
      b == EndNotes(t1.events, r, EndedIds(t1.events, r.id, FiringSubjects(r, signals)), now)
    ensures a[i].eventId != b[j].eventId
  {
    hide FireAll, FiringSubjects, TablesOk, EndNotes, MustTell, LastOf, FirstOf, Resolved, Fired;
    var t1 := FireAll(t, r, signals, now).0;
    var ended := EndedIds(t1.events, r.id, FiringSubjects(r, signals));
    EndNotesExact(t1.events, r, ended, now);
    FireAllNotes(t, r, signals, now, a[i].eventId);
    assert FireNote(t, t1, r, signals, now, a[i]) && TellsEnd(t1.events, r, ended, now, b[j]);
    LastOfFires(r, signals, t1.events[a[i].eventId].subject);
  }
}
