/** Reminders, the occurrences they fire, and the chain of repeated alerts that runs until an occurrence is
    acknowledged. Reminders and occurrences are known by their position; a deleted reminder leaves None. */
module Reminders {
  import opened Ordering
  import opened Outbox

  datatype Reminder = Reminder(once: bool, runAt: int, enabled: bool, nextRun: Option<int>, ack: bool,
                               interval: Option<int>, maximum: nat, priority: int)

  datatype Occurrence = Occurrence(reminder: nat, at: int, acknowledged: Option<int>, repeats: nat,
                                   nextRepeat: Option<int>)

  datatype Db = Db(reminders: seq<Option<Reminder>>, occurrences: seq<Occurrence>, alerts: seq<Alert>)

  predicate Present(db: Db, r: nat) { r < |db.reminders| && db.reminders[r].Some? }
  predicate Open(o: Occurrence) { o.acknowledged.None? }

  // ----- firing --------------------------------------------------------------------------

  function Find(occurrences: seq<Occurrence>, r: nat, at: int): (o: Option<nat>)
    ensures o.Some? ==> o.value < |occurrences| && occurrences[o.value].reminder == r && occurrences[o.value].at == at
    ensures o.None? ==> forall i :: 0 <= i < |occurrences| ==>
      !(occurrences[i].reminder == r && occurrences[i].at == at)
  {
    if occurrences == [] then None
    else
      var n := |occurrences| - 1;
      if occurrences[n].reminder == r && occurrences[n].at == at then Some(n) else Find(occurrences[..n], r, at)
  }

  function AlertOf(r: nat, at: int, o: nat, repeat: nat, priority: int, topic: string, now: int): Alert {
    Alert(if repeat == 0 then "reminder.manual" else "reminder.manual.repeat", OfOccurrence(r, at, repeat), "", false,
      topic,
          priority, now, Some(r), Some(o), Pending, 0, now, 0, now)
  }

  /** A muted route (None) enqueues nothing. */
  function Post(alerts: seq<Alert>, topic: Option<string>, r: nat, at: int, o: nat, repeat: nat, priority: int,
                now: int): seq<Alert> {
    if topic.None? then alerts else InsertUnlessTaken(alerts, AlertOf(r, at, o, repeat, priority, topic.value, now))
  }

  predicate FireDue(db: Db, r: nat, now: int) {
    Present(db, r) && db.reminders[r].value.enabled && db.reminders[r].value.nextRun.Some?
      && db.reminders[r].value.nextRun.value <= now
  }

  function Advanced(reminder: Reminder, next: int): Reminder {
    if reminder.once then reminder.(enabled := false, nextRun := None) else reminder.(nextRun := Some(next))
  }

  /** Records the occurrence that is due, enqueues its alert and advances the schedule. */
  function Fire(db: Db, r: nat, now: int, next: int, topic: Option<string>): (after: Db)
    ensures |after.reminders| == |db.reminders|
  {
    if !FireDue(db, r, now) then db
    else
      var reminder := db.reminders[r].value;
      var at := reminder.nextRun.value;
      var found := Find(db.occurrences, r, at);
      var o := if found.Some? then found.value else |db.occurrences|;
      Db(db.reminders[r := Some(Advanced(reminder, next))],
         if found.Some? then db.occurrences else db.occurrences + [Occurrence(r, at, None, 0, None)],
         Post(db.alerts, topic, r, at, o, 0, reminder.priority, now))
  }

  predicate RepeatDue(db: Db, o: nat, now: int) {
    && o < |db.occurrences| && Open(db.occurrences[o])
    && Present(db, db.occurrences[o].reminder) && db.reminders[db.occurrences[o].reminder].value.ack
    && db.occurrences[o].nextRepeat.Some? && db.occurrences[o].nextRepeat.value <= now
  }

  /** The counter of an occurrence set, and its scheduled repeat used up. */
  function Counted(db: Db, o: nat, count: nat): (after: Db)
    requires o < |db.occurrences|
  {
    db.(occurrences := db.occurrences[o := db.occurrences[o].(repeats := count, nextRepeat := None)])
  }

  predicate Exhausted(db: Db, o: nat)
    requires o < |db.occurrences| && Present(db, db.occurrences[o].reminder)
  {
    var reminder := db.reminders[db.occurrences[o].reminder].value;
    reminder.maximum > 0 && db.occurrences[o].repeats + 1 > reminder.maximum
  }

  function RepeatPosted(db: Db, o: nat, now: int, topic: Option<string>): (after: Db)
    requires o < |db.occurrences| && Present(db, db.occurrences[o].reminder)
  {
    var occurrence := db.occurrences[o];
    var reminder := db.reminders[occurrence.reminder].value;
    var count := occurrence.repeats + 1;
    Counted(db, o, count).(alerts :=
      Post(db.alerts, topic, occurrence.reminder, occurrence.at, o, count, reminder.priority, now))
  }

  /** Enqueues the next repeat of an open occurrence, or ends its chain at the maximum. */
  function Repeat(db: Db, o: nat, now: int, topic: Option<string>): (after: Db)
    ensures |after.occurrences| == |db.occurrences|
  {
    if !RepeatDue(db, o, now) then db
    else if Exhausted(db, o) then Counted(db, o, db.occurrences[o].repeats)
    else RepeatPosted(db, o, now, topic)
  }

  function Ids(n: nat): (ids: seq<nat>)
    ensures |ids| == n
  {
    seq(n, i => i)
  }

  function NextRunOf(db: Db, r: nat): int {
    if Present(db, r) && db.reminders[r].value.nextRun.Some? then db.reminders[r].value.nextRun.value else 0
  }
  function NextRepeatOf(db: Db, o: nat): int {
    if o < |db.occurrences| && db.occurrences[o].nextRepeat.Some? then db.occurrences[o].nextRepeat.value else 0
  }

  predicate RunsBefore(db: Db, a: nat, b: nat) {
    NextRunOf(db, a) < NextRunOf(db, b) || (NextRunOf(db, a) == NextRunOf(db, b) && a <= b)
  }
  predicate RepeatsBefore(db: Db, a: nat, b: nat) {
    NextRepeatOf(db, a) < NextRepeatOf(db, b) || (NextRepeatOf(db, a) == NextRepeatOf(db, b) && a <= b)
  }

  function Limited(ids: seq<nat>, limit: nat): seq<nat> { if |ids| <= limit then ids else ids[..limit] }

  /** The reminders that are due, the longest due first. */
  function DueReminders(db: Db, now: int, limit: nat): seq<nat> {
    Limited(Sort((a: nat, b: nat) => RunsBefore(db, a, b),
      Filter((r: nat) => FireDue(db, r, now), Ids(|db.reminders|))), limit)
  }

  /** The occurrences whose repeat is due, the longest due first. */
  function DueRepeats(db: Db, now: int, limit: nat): seq<nat> {
    Limited(Sort((a: nat, b: nat) => RepeatsBefore(db, a, b),
      Filter((o: nat) => RepeatDue(db, o, now), Ids(|db.occurrences|))), limit)
  }

  function FireAll(db: Db, ids: seq<nat>, now: int, daily: nat -> int, topic: Option<string>): Db
    decreases |ids|
  {
    if ids == [] then db else FireAll(Fire(db, ids[0], now, daily(ids[0]), topic), ids[1..], now, daily, topic)
  }

  function RepeatAll(db: Db, ids: seq<nat>, now: int, topic: Option<string>): Db
    decreases |ids|
  {
    if ids == [] then db else RepeatAll(Repeat(db, ids[0], now, topic), ids[1..], now, topic)
  }

  function Batch(limit: int): nat { if limit < 1 then 1 else if limit > 1000 then 1000 else limit }

  /** One pass of the worker. */
  function Enqueue(db: Db, now: int, limit: int, daily: nat -> int, topic: Option<string>): Db {
    var fired := FireAll(db, DueReminders(db, now, Batch(limit)), now, daily, topic);
    RepeatAll(fired, DueRepeats(fired, now, Batch(limit)), now, topic)
  }

  // ----- editing, acknowledging, delivering ----------------------------------------------

  function Acknowledged(o: Occurrence, now: int): Occurrence {
    if Open(o) then o.(acknowledged := Some(now), nextRepeat := None) else o
  }

  function Withdrawn(a: Alert, withdraw: bool): Alert {
    if withdraw && a.status == Pending then a.(status := Deleted) else a
  }

  /** Withdraws the pending alerts of a reminder and acknowledges its open occurrences. */
  function Silence(db: Db, r: nat, now: int): (after: Db)
    ensures |after.occurrences| == |db.occurrences| && |after.alerts| == |db.alerts| && after.reminders == db.reminders
    ensures forall i :: 0 <= i < |db.occurrences| ==>
      after.occurrences[i] == if db.occurrences[i].reminder == r then Acknowledged(db.occurrences[i], now)
        else db.occurrences[i]
    ensures forall i :: 0 <= i < |db.alerts| ==>
      after.alerts[i] == Withdrawn(db.alerts[i], db.alerts[i].reminder == Some(r))
  {
    db.(occurrences := seq(|db.occurrences|, i requires 0 <= i < |db.occurrences| =>
          if db.occurrences[i].reminder == r then Acknowledged(db.occurrences[i], now) else db.occurrences[i]),
        alerts := seq(|db.alerts|,
          i requires 0 <= i < |db.alerts| => Withdrawn(db.alerts[i], db.alerts[i].reminder == Some(r))))
  }

  function FirstRun(reminder: Reminder, daily: int): Option<int> {
    if !reminder.enabled then None else if reminder.once then Some(reminder.runAt) else Some(daily)
  }

  /** Creates a reminder or replaces it, silencing what the old one started. */
  function Upsert(db: Db, r: nat, reminder: Reminder, daily: int, now: int): Db
    requires r <= |db.reminders|
  {
    var row := Some(reminder.(nextRun := FirstRun(reminder, daily)));
    if r == |db.reminders| then db.(reminders := db.reminders + [row])
    else
      var base := if Present(db, r) then Silence(db, r, now) else db;
      base.(reminders := base.reminders[r := row])
  }

  datatype EnableAnswer = Changed | NotFound | TimeHasPassed

  function EnableVerdict(db: Db, r: nat, enabled: bool, now: int): EnableAnswer {
    if !Present(db, r) then NotFound
    else if enabled && db.reminders[r].value.once && db.reminders[r].value.runAt <= now then TimeHasPassed
    else Changed
  }

  function SetEnabled(db: Db, r: nat, enabled: bool, daily: int, now: int): Db {
    if EnableVerdict(db, r, enabled, now) != Changed then db
    else
      var base := if enabled then db else Silence(db, r, now);
      var reminder := db.reminders[r].value.(enabled := enabled);
      base.(reminders := base.reminders[r := Some(reminder.(nextRun := FirstRun(reminder, daily)))])
  }

  /** Deletes a reminder; its alerts forget it. */
  function Delete(db: Db, r: nat, now: int): Db {
    if !Present(db, r) then db
    else
      var base := Silence(db, r, now);
      base.(reminders := base.reminders[r := None],
            alerts := seq(|base.alerts|, i requires 0 <= i < |base.alerts| =>
              if base.alerts[i].reminder == Some(r) then base.alerts[i].(reminder := None) else base.alerts[i]))
  }

  function Acknowledge(db: Db, o: nat, now: int): Db {
    if o >= |db.occurrences| || !Open(db.occurrences[o]) then db
    else
      db.(occurrences := db.occurrences[o := Acknowledged(db.occurrences[o], now)],
          alerts := seq(|db.alerts|,
            i requires 0 <= i < |db.alerts| => Withdrawn(db.alerts[i], db.alerts[i].occurrence == Some(o))))
  }

  /** Whether a delivered alert of this occurrence is to be repeated. */
  predicate Repeats(db: Db, o: nat) {
    && o < |db.occurrences| && Open(db.occurrences[o]) && Present(db, db.occurrences[o].reminder)
    && var reminder := db.reminders[db.occurrences[o].reminder].value;
      reminder.ack && reminder.interval.Some? && (reminder.maximum == 0 || db.occurrences[o].repeats < reminder.maximum)
  }

  function MarkDelivered(db: Db, id: nat, now: int): Db {
    if id >= |db.alerts| || db.alerts[id].status != Sending then db
    else
      var alert := db.alerts[id];
      var delivered := db.(alerts := Apply(db.alerts, DeliverOp(id)));
      if alert.reminder.Some? && alert.occurrence.Some? && Repeats(db, alert.occurrence.value) then
        var o := alert.occurrence.value;
        var next := now + db.reminders[db.occurrences[o].reminder].value.interval.value;
        delivered.(occurrences := db.occurrences[o := db.occurrences[o].(nextRepeat := Some(next))])
      else delivered
  }

  // ----- what every transaction keeps ----------------------------------------------------

  ghost predicate OneRowEach(occurrences: seq<Occurrence>) {
    forall i, j :: 0 <= i < j < |occurrences| ==>
      !(occurrences[i].reminder == occurrences[j].reminder && occurrences[i].at == occurrences[j].at)
  }

  /** An alert of an occurrence carries its key, numbered no higher than the repeats counted so far. */
  ghost predicate Belongs(occurrences: seq<Occurrence>, a: Alert) {
    && (a.key.OfOccurrence? <==> a.occurrence.Some?)
    && (a.occurrence.Some? ==>
      && a.occurrence.value < |occurrences|
      && a.key.reminder == occurrences[a.occurrence.value].reminder && a.key.at == occurrences[a.occurrence.value].at
      && a.key.repeat <= occurrences[a.occurrence.value].repeats)
  }

  ghost predicate AllBelong(occurrences: seq<Occurrence>, alerts: seq<Alert>) {
    forall i :: 0 <= i < |alerts| ==> Belongs(occurrences, alerts[i])
  }

  /** No repeat of an occurrence was ever enqueued twice. */
  ghost predicate Numbered(alerts: seq<Alert>) {
    forall i, j :: 0 <= i < j < |alerts| && alerts[i].occurrence.Some? ==> alerts[i].key != alerts[j].key
  }

  ghost predicate Fits(db: Db, clock: int, o: Occurrence) {
    && o.at <= clock
    && (Open(o) ==> Present(db, o.reminder) &&
                    (db.reminders[o.reminder].value.maximum > 0 ==>
                      o.repeats <= db.reminders[o.reminder].value.maximum))
    && (!Open(o) ==> o.nextRepeat.None?)
    && (Present(db, o.reminder) && db.reminders[o.reminder].value.nextRun.Some? ==>
      o.at < db.reminders[o.reminder].value.nextRun.value)
  }

  ghost predicate AllFit(db: Db, clock: int) {
    forall o :: 0 <= o < |db.occurrences| ==> Fits(db, clock, db.occurrences[o])
  }

  ghost predicate Waiting(db: Db, i: nat, o: nat) {
    i < |db.alerts| && o < |db.occurrences| && Open(db.occurrences[o]) && db.alerts[i].occurrence == Some(o)
      && Undelivered(db.alerts[i])
  }

  /** An open occurrence has at most one undelivered alert, and while it has one no repeat is scheduled. */
  ghost predicate Chained(db: Db) {
    && (forall i: nat, o: nat :: Waiting(db, i, o) ==> db.occurrences[o].nextRepeat.None?)
    && (forall i: nat, j: nat, o: nat :: Waiting(db, i, o) && Waiting(db, j, o) ==> i == j)
  }

  ghost predicate Invariant(db: Db, clock: int) {
    && OneRowEach(db.occurrences) && AllBelong(db.occurrences, db.alerts) && Numbered(db.alerts)
    && AllFit(db, clock) && Chained(db)
  }

  /** A row may lose its reminder or leave the outbox, but not come back into it. */
  ghost predicate Fades(a: Alert, b: Alert) {
    b.key == a.key && b.occurrence == a.occurrence && (Undelivered(b) ==> Undelivered(a))
  }

  ghost predicate AllFade(a: seq<Alert>, b: seq<Alert>) {
    |a| == |b| && forall i :: 0 <= i < |a| ==> Fades(a[i], b[i])
  }

  /** An occurrence keeps its identity and count; if it stays open, its schedule does not change. */
  ghost predicate Calms(a: Occurrence, b: Occurrence) {
    && b.reminder == a.reminder && b.at == a.at && b.repeats == a.repeats
    && (Open(b) ==> b == a) && (!Open(b) ==> b.nextRepeat.None?)
  }

  ghost predicate AllCalm(a: seq<Occurrence>, b: seq<Occurrence>) {
    |a| == |b| && forall i :: 0 <= i < |a| ==> Calms(a[i], b[i])
  }

  lemma CalmingKeeps(db: Db, clock: int, occurrences: seq<Occurrence>, alerts: seq<Alert>)
    requires Invariant(db, clock) && AllCalm(db.occurrences, occurrences) && AllFade(db.alerts, alerts)
    ensures Invariant(Db(db.reminders, occurrences, alerts), clock)
  {
    var r := Db(db.reminders, occurrences, alerts);
    forall i | 0 <= i < |alerts| ensures Belongs(occurrences, alerts[i]) {
      assert Belongs(db.occurrences, db.alerts[i]) && Fades(db.alerts[i], alerts[i]);
    }
    forall o | 0 <= o < |occurrences| ensures Fits(r, clock, occurrences[o]) {
      assert Fits(db, clock, db.occurrences[o]) && Calms(db.occurrences[o], occurrences[o]);
    }
    forall i: nat, o: nat | Waiting(r, i, o) ensures Waiting(db, i, o) && occurrences[o] == db.occurrences[o] {
      assert Fades(db.alerts[i], alerts[i]) && Calms(db.occurrences[o], occurrences[o]);
    }
    forall i, j | 0 <= i < j < |alerts| && alerts[i].occurrence.Some? ensures alerts[i].key != alerts[j].key {
      assert Fades(db.alerts[i], alerts[i]) && Fades(db.alerts[j], alerts[j]);
    }
    forall i, j | 0 <= i < j < |occurrences|
      ensures !(occurrences[i].reminder == occurrences[j].reminder && occurrences[i].at == occurrences[j].at) {
      assert Calms(db.occurrences[i], occurrences[i]) && Calms(db.occurrences[j], occurrences[j]);
    }
  }

  /** A reminder's row may change when its next run lies in the future and, unless only the schedule
      changed, none of its occurrences is open. */
  lemma ReminderChange(db: Db, clock: int, r: nat, row: Option<Reminder>)
    requires Invariant(db, clock) && r <= |db.reminders|
    requires row.Some? && row.value.nextRun.Some? ==> row.value.nextRun.value > clock
    requires (row.Some? && Present(db, r) && row.value.maximum == db.reminders[r].value.maximum)
      || forall o :: 0 <= o < |db.occurrences| && db.occurrences[o].reminder == r ==> !Open(db.occurrences[o])
    ensures Invariant(db.(reminders := if r < |db.reminders| then db.reminders[r := row] else db.reminders + [row]),
      clock)
  {
    var after := db.(reminders := if r < |db.reminders| then db.reminders[r := row] else db.reminders + [row]);
    forall o | 0 <= o < |after.occurrences| ensures Fits(after, clock, after.occurrences[o]) {
      assert Fits(db, clock, db.occurrences[o]);
    }
    forall i: nat, o: nat | Waiting(after, i, o) ensures Waiting(db, i, o) {}
  }

  lemma ClockAdvances(db: Db, clock: int, now: int)
    requires Invariant(db, clock) && clock <= now
    ensures Invariant(db, now)
  {
    forall o | 0 <= o < |db.occurrences| ensures Fits(db, now, db.occurrences[o]) {
      assert Fits(db, clock, db.occurrences[o]);
    }
  }

  lemma SilenceKeeps(db: Db, clock: int, r: nat, now: int)
    requires Invariant(db, clock)
    ensures Invariant(Silence(db, r, now), clock)
    ensures forall o :: 0 <= o < |db.occurrences| && db.occurrences[o].reminder == r ==>
      !Open(Silence(db, r, now).occurrences[o])
  {
    var s := Silence(db, r, now);
    forall o | 0 <= o < |db.occurrences| ensures Calms(db.occurrences[o], s.occurrences[o]) {
      assert Fits(db, clock, db.occurrences[o]);
    }
    CalmingKeeps(db, clock, s.occurrences, s.alerts);
  }

  lemma DeleteKeeps(db: Db, clock: int, r: nat, now: int)
    requires Invariant(db, clock)
    ensures Invariant(Delete(db, r, now), clock)
  {
    if Present(db, r) {
      var s := Silence(db, r, now);
      SilenceKeeps(db, clock, r, now);
      var d := Delete(db, r, now);
      forall o | 0 <= o < |s.occurrences| ensures Calms(s.occurrences[o], s.occurrences[o]) {
        assert Fits(s, clock, s.occurrences[o]);
      }
      CalmingKeeps(s, clock, s.occurrences, d.alerts);
      ReminderChange(Db(s.reminders, s.occurrences, d.alerts), clock, r, None);
    }
  }

  lemma AcknowledgeKeeps(db: Db, clock: int, o: nat, now: int)
    requires Invariant(db, clock)
    ensures Invariant(Acknowledge(db, o, now), clock)
  {
    if o < |db.occurrences| && Open(db.occurrences[o]) {
      var a := Acknowledge(db, o, now);
      forall p | 0 <= p < |db.occurrences| ensures Calms(db.occurrences[p], a.occurrences[p]) {
        assert Fits(db, clock, db.occurrences[p]);
      }
      CalmingKeeps(db, clock, a.occurrences, a.alerts);
    }
  }

  lemma OutboxKeeps(db: Db, clock: int, op: Op)
    requires Invariant(db, clock)
    ensures Invariant(db.(alerts := Apply(db.alerts, op)), clock)
  {
    forall o | 0 <= o < |db.occurrences| ensures Calms(db.occurrences[o], db.occurrences[o]) {
      assert Fits(db, clock, db.occurrences[o]);
    }
    CalmingKeeps(db, clock, db.occurrences, Apply(db.alerts, op));
  }

  /** Scheduling a repeat for an occurrence without an undelivered alert. */
  lemma ScheduleKeeps(db: Db, clock: int, o: nat, next: int)
    requires Invariant(db, clock) && o < |db.occurrences| && Open(db.occurrences[o])
    requires forall i: nat :: !Waiting(db, i, o)
    ensures Invariant(db.(occurrences := db.occurrences[o := db.occurrences[o].(nextRepeat := Some(next))]), clock)
  {
    var r := db.(occurrences := db.occurrences[o := db.occurrences[o].(nextRepeat := Some(next))]);
    forall i | 0 <= i < |r.alerts| ensures Belongs(r.occurrences, r.alerts[i]) {
      assert Belongs(db.occurrences, db.alerts[i]);
    }
    forall p | 0 <= p < |r.occurrences| ensures Fits(r, clock, r.occurrences[p]) {
      assert Fits(db, clock, db.occurrences[p]);
    }
    forall i: nat, p: nat | Waiting(r, i, p) ensures p != o && Waiting(db, i, p) {
      assert !Waiting(db, i, o);
    }
  }

  lemma DeliverKeeps(db: Db, clock: int, id: nat, now: int)
    requires Invariant(db, clock)
    ensures Invariant(MarkDelivered(db, id, now), clock)
  {
    if id < |db.alerts| && db.alerts[id].status == Sending {
      var alert := db.alerts[id];
      var delivered := db.(alerts := Apply(db.alerts, DeliverOp(id)));
      OutboxKeeps(db, clock, DeliverOp(id));
      if alert.reminder.Some? && alert.occurrence.Some? && Repeats(db, alert.occurrence.value) {
        var o := alert.occurrence.value;
        assert Waiting(db, id, o);
        forall i: nat ensures !Waiting(delivered, i, o) {
          if Waiting(delivered, i, o) { assert Waiting(db, i, o); }
        }
        ScheduleKeeps(delivered, clock, o, now + db.reminders[db.occurrences[o].reminder].value.interval.value);
      }
    }
  }

  /** One more alert for an open occurrence that is neither waiting nor scheduled, with a new number. */
  lemma PostKeeps(db: Db, clock: int, o: nat, repeat: nat, priority: int, topic: Option<string>, now: int)
    requires Invariant(db, clock) && o < |db.occurrences| && Open(db.occurrences[o])
      && db.occurrences[o].nextRepeat.None?
    requires forall i: nat :: !Waiting(db, i, o)
    requires repeat <= db.occurrences[o].repeats
    requires forall i :: 0 <= i < |db.alerts| && db.alerts[i].occurrence == Some(o) ==>
      db.alerts[i].key.repeat != repeat
    ensures Invariant(db.(alerts :=
      Post(db.alerts, topic, db.occurrences[o].reminder, db.occurrences[o].at, o, repeat, priority, now)), clock)
  {
    var occurrence := db.occurrences[o];
    var alerts := Post(db.alerts, topic, occurrence.reminder, occurrence.at, o, repeat, priority, now);
    if alerts != db.alerts {
      var a := AlertOf(occurrence.reminder, occurrence.at, o, repeat, priority, topic.value, now);
      assert alerts == db.alerts + [a];
      var r := db.(alerts := alerts);
      forall i | 0 <= i < |alerts| ensures Belongs(r.occurrences, alerts[i]) {
        assert i < |db.alerts| ==> Belongs(db.occurrences, db.alerts[i]);
      }
      forall i | 0 <= i < |db.alerts| ensures db.alerts[i].key != a.key {
        assert Belongs(db.occurrences, db.alerts[i]);
      }
      forall p | 0 <= p < |r.occurrences| ensures Fits(r, clock, r.occurrences[p]) {
        assert Fits(db, clock, db.occurrences[p]);
      }
      forall i: nat, p: nat | Waiting(r, i, p) ensures if i < |db.alerts| then p != o && Waiting(db, i, p) else p == o {
        if i < |db.alerts| { assert Waiting(db, i, p); }
      }
    }
  }

  lemma NewOccurrenceKeeps(db: Db, clock: int, r: nat, at: int)
    requires Invariant(db, clock) && at <= clock && Present(db, r) && Find(db.occurrences, r, at).None?
    requires db.reminders[r].value.nextRun.Some? ==> at < db.reminders[r].value.nextRun.value
    ensures Invariant(db.(occurrences := db.occurrences + [Occurrence(r, at, None, 0, None)]), clock)
    ensures forall i: nat ::
      !Waiting(db.(occurrences := db.occurrences + [Occurrence(r, at, None, 0, None)]), i, |db.occurrences|)
    ensures forall i :: 0 <= i < |db.alerts| ==> db.alerts[i].occurrence != Some(|db.occurrences|)
  {
    var after := db.(occurrences := db.occurrences + [Occurrence(r, at, None, 0, None)]);
    forall i | 0 <= i < |db.alerts|
      ensures Belongs(after.occurrences, db.alerts[i]) && db.alerts[i].occurrence != Some(|db.occurrences|) {
      assert Belongs(db.occurrences, db.alerts[i]);
    }
    forall o | 0 <= o < |after.occurrences| ensures Fits(after, clock, after.occurrences[o]) {
      if o < |db.occurrences| { assert Fits(db, clock, db.occurrences[o]); }
    }
    forall i: nat, o: nat | Waiting(after, i, o) ensures Waiting(db, i, o) {}
  }

  /** A due reminder fires an occurrence that is not in the table yet. */
  lemma FiresAnew(db: Db, clock: int, r: nat, now: int)
    requires Invariant(db, clock) && FireDue(db, r, now)
    ensures Find(db.occurrences, r, db.reminders[r].value.nextRun.value).None?
  {
    var at := db.reminders[r].value.nextRun.value;
    forall o | 0 <= o < |db.occurrences| ensures !(db.occurrences[o].reminder == r && db.occurrences[o].at == at) {
      assert Fits(db, clock, db.occurrences[o]);
    }
  }

  lemma FireKeeps(db: Db, r: nat, now: int, next: int, topic: Option<string>)
    requires Invariant(db, now) && next > now
    ensures Invariant(Fire(db, r, now, next, topic), now)
  {
    if FireDue(db, r, now) {
      FiresAnew(db, now, r, now);
      var reminder := db.reminders[r].value;
      var at := reminder.nextRun.value;
      var advanced := db.(reminders := db.reminders[r := Some(Advanced(reminder, next))]);
      ReminderChange(db, now, r, Some(Advanced(reminder, next)));
      NewOccurrenceKeeps(advanced, now, r, at);
      PostKeeps(advanced.(occurrences := advanced.occurrences + [Occurrence(r, at, None, 0, None)]), now,
        |db.occurrences|, 0, reminder.priority, topic, now);
    }
  }

  lemma CountKeeps(db: Db, clock: int, o: nat, count: nat)
    requires Invariant(db, clock) && o < |db.occurrences| && Open(db.occurrences[o])
      && count >= db.occurrences[o].repeats
    requires forall i: nat :: !Waiting(db, i, o)
    requires Present(db, db.occurrences[o].reminder)
    requires db.reminders[db.occurrences[o].reminder].value.maximum > 0 ==>
      count <= db.reminders[db.occurrences[o].reminder].value.maximum
    ensures Invariant(Counted(db, o, count), clock)
    ensures forall i: nat :: !Waiting(Counted(db, o, count), i, o)
  {
    var r := Counted(db, o, count);
    forall i | 0 <= i < |r.alerts| ensures Belongs(r.occurrences, r.alerts[i]) {
      assert Belongs(db.occurrences, db.alerts[i]);
    }
    forall p | 0 <= p < |r.occurrences| ensures Fits(r, clock, r.occurrences[p]) {
      assert Fits(db, clock, db.occurrences[p]);
    }
    forall i: nat, p: nat | Waiting(r, i, p) ensures p != o && Waiting(db, i, p) {
      assert !Waiting(db, i, o);
    }
  }

  lemma NumbersBelow(db: Db, o: nat)
    requires AllBelong(db.occurrences, db.alerts) && o < |db.occurrences|
    ensures forall i :: 0 <= i < |db.alerts| && db.alerts[i].occurrence == Some(o) ==>
      db.alerts[i].key.repeat <= db.occurrences[o].repeats
  {
    forall i | 0 <= i < |db.alerts| && db.alerts[i].occurrence == Some(o)
      ensures db.alerts[i].key.repeat <= db.occurrences[o].repeats {
      assert Belongs(db.occurrences, db.alerts[i]);
    }
  }

  lemma ScheduledIsNotWaiting(db: Db, o: nat)
    requires Chained(db) && o < |db.occurrences| && db.occurrences[o].nextRepeat.Some?
    ensures forall i: nat :: !Waiting(db, i, o)
  {
  }

  lemma CountAndPostKeeps(db: Db, clock: int, o: nat, now: int, topic: Option<string>)
    requires Invariant(db, clock) && RepeatDue(db, o, now) && !Exhausted(db, o)
    requires forall i: nat :: !Waiting(db, i, o)
    ensures Invariant(RepeatPosted(db, o, now, topic), clock)
  {
    var count, occurrence := db.occurrences[o].repeats + 1, db.occurrences[o];
    var priority := db.reminders[occurrence.reminder].value.priority;
    var counted := Counted(db, o, count);
    NumbersBelow(db, o);
    CountKeeps(db, clock, o, count);
    assert counted.alerts == db.alerts && counted.occurrences[o].reminder == occurrence.reminder
      && counted.occurrences[o].at == occurrence.at;
    PostKeeps(counted, clock, o, count, priority, topic, now);
    assert RepeatPosted(db, o, now, topic)
        == counted.(alerts := Post(db.alerts, topic, occurrence.reminder, occurrence.at, o, count, priority, now));
  }

  lemma RepeatKeeps(db: Db, clock: int, o: nat, now: int, topic: Option<string>)
    requires Invariant(db, clock)
    ensures Invariant(Repeat(db, o, now, topic), clock)
  {
    if RepeatDue(db, o, now) {
      var occurrence := db.occurrences[o];
      var reminder := db.reminders[occurrence.reminder].value;
      assert Fits(db, clock, occurrence);
      ScheduledIsNotWaiting(db, o);
      if Exhausted(db, o) {
        CountKeeps(db, clock, o, occurrence.repeats);
      } else {
        CountAndPostKeeps(db, clock, o, now, topic);
      }
    }
  }

  // ----- whole runs ----------------------------------------------------------------------

  datatype Step =
    | UpsertStep(r: nat, reminder: Reminder, daily: int, now: int)
    | EnableStep(r: nat, enabled: bool, daily: int, now: int)
    | DeleteStep(r: nat, now: int)
    | AcknowledgeStep(o: nat, now: int)
    | EnqueueStep(now: int, limit: int, nextDaily: nat -> int, topic: Option<string>)
    | DeliverStep(id: nat, now: int)
    | OutboxStep(op: Op)

  /** Edits and passes see a clock that does not run backwards; a next daily time lies ahead of it, and so
      does the time of an edited one-time reminder. */
  ghost predicate Allowed(db: Db, clock: int, step: Step) {
    match step
    case UpsertStep(r, reminder, daily, now) => r <= |db.reminders| && clock <= now < daily
      && (reminder.once ==> reminder.runAt > now)
    case EnableStep(_, _, daily, now) => clock <= now < daily
    case EnqueueStep(now, _, daily, _) => clock <= now && forall r: nat :: daily(r) > now
    case OutboxStep(op) => !op.DeliverOp?
    case _ => true
  }

  function ClockAfter(clock: int, step: Step): int {
    match step
    case UpsertStep(_, _, _, now) => now
    case EnableStep(_, _, _, now) => now
    case EnqueueStep(now, _, _, _) => now
    case _ => clock
  }

  function Next(db: Db, step: Step): Db {
    match step
    case UpsertStep(r, reminder, daily, now) => if r <= |db.reminders| then Upsert(db, r, reminder, daily, now) else db
    case EnableStep(r, enabled, daily, now) => SetEnabled(db, r, enabled, daily, now)
    case DeleteStep(r, now) => Delete(db, r, now)
    case AcknowledgeStep(o, now) => Acknowledge(db, o, now)
    case EnqueueStep(now, limit, daily, topic) => Enqueue(db, now, limit, daily, topic)
    case DeliverStep(id, now) => MarkDelivered(db, id, now)
    case OutboxStep(op) => db.(alerts := Apply(db.alerts, op))
  }

  lemma {:induction false} FireAllKeeps(db: Db, ids: seq<nat>, now: int, daily: nat -> int, topic: Option<string>)
    requires Invariant(db, now) && forall r: nat :: daily(r) > now
    ensures Invariant(FireAll(db, ids, now, daily, topic), now)
    decreases |ids|
  {
    if ids != [] {
      FireKeeps(db, ids[0], now, daily(ids[0]), topic);
      FireAllKeeps(Fire(db, ids[0], now, daily(ids[0]), topic), ids[1..], now, daily, topic);
    }
  }

  lemma {:induction false} RepeatAllKeeps(db: Db, clock: int, ids: seq<nat>, now: int, topic: Option<string>)
    requires Invariant(db, clock)
    ensures Invariant(RepeatAll(db, ids, now, topic), clock)
    decreases |ids|
  {
    if ids != [] {
      RepeatKeeps(db, clock, ids[0], now, topic);
      RepeatAllKeeps(Repeat(db, ids[0], now, topic), clock, ids[1..], now, topic);
    }
  }

  lemma UpsertKeeps(db: Db, clock: int, r: nat, reminder: Reminder, daily: int, now: int)
    requires Invariant(db, clock) && r <= |db.reminders| && clock < daily && (reminder.once ==> reminder.runAt > clock)
    ensures Invariant(Upsert(db, r, reminder, daily, now), clock)
  {
    var row := Some(reminder.(nextRun := FirstRun(reminder, daily)));
    forall o | 0 <= o < |db.occurrences| && !Present(db, r) && db.occurrences[o].reminder == r
      ensures !Open(db.occurrences[o]) {
      assert Fits(db, clock, db.occurrences[o]);
    }
    if Present(db, r) {
      SilenceKeeps(db, clock, r, now);
      var s := Silence(db, r, now);
      forall o | 0 <= o < |s.occurrences| && s.occurrences[o].reminder == r ensures !Open(s.occurrences[o]) {
        assert db.occurrences[o].reminder == r;
      }
      ReminderChange(s, clock, r, row);
    } else {
      ReminderChange(db, clock, r, row);
    }
  }

  lemma EnableKeeps(db: Db, clock: int, r: nat, enabled: bool, daily: int, now: int)
    requires Invariant(db, clock) && clock <= now < daily
    ensures Invariant(SetEnabled(db, r, enabled, daily, now), clock)
  {
    if EnableVerdict(db, r, enabled, now) == Changed {
      var reminder := db.reminders[r].value.(enabled := enabled);
      SilenceKeeps(db, clock, r, now);
      ReminderChange(if enabled then db else Silence(db, r, now), clock, r,
        Some(reminder.(nextRun := FirstRun(reminder, daily))));
    }
  }

  lemma StepKeepsInvariant(db: Db, clock: int, step: Step)
    requires Invariant(db, clock) && Allowed(db, clock, step)
    ensures Invariant(Next(db, step), ClockAfter(clock, step))
  {
    ClockAdvances(db, clock, ClockAfter(clock, step));
    match step
    case UpsertStep(r, reminder, daily, now) => UpsertKeeps(db, now, r, reminder, daily, now);
    case EnableStep(r, enabled, daily, now) => EnableKeeps(db, now, r, enabled, daily, now);
    case DeleteStep(r, now) => DeleteKeeps(db, clock, r, now);
    case AcknowledgeStep(o, now) => AcknowledgeKeeps(db, clock, o, now);
    case EnqueueStep(now, limit, daily, topic) =>
      var ids := DueReminders(db, now, Batch(limit));
      FireAllKeeps(db, ids, now, daily, topic);
      var fired := FireAll(db, ids, now, daily, topic);
      RepeatAllKeeps(fired, now, DueRepeats(fired, now, Batch(limit)), now, topic);
    case DeliverStep(id, now) => DeliverKeeps(db, clock, id, now);
    case OutboxStep(op) => OutboxKeeps(db, clock, op);
  }

  ghost predicate AllowedRun(db: Db, clock: int, steps: seq<Step>)
    decreases |steps|
  {
    |steps| == 0 || (Allowed(db, clock, steps[0])
      && AllowedRun(Next(db, steps[0]), ClockAfter(clock, steps[0]), steps[1..]))
  }

  ghost function Run(db: Db, steps: seq<Step>): Db
    decreases |steps|
  {
    if |steps| == 0 then db else Run(Next(db, steps[0]), steps[1..])
  }

  ghost function ClockAfterRun(clock: int, steps: seq<Step>): int
    decreases |steps|
  {
    if |steps| == 0 then clock else ClockAfterRun(ClockAfter(clock, steps[0]), steps[1..])
  }

  lemma {:induction false} RunKeepsInvariant(db: Db, clock: int, steps: seq<Step>)
    requires Invariant(db, clock) && AllowedRun(db, clock, steps)
    ensures Invariant(Run(db, steps), ClockAfterRun(clock, steps))
    decreases |steps|
  {
    if |steps| > 0 {
      StepKeepsInvariant(db, clock, steps[0]);
      RunKeepsInvariant(Next(db, steps[0]), ClockAfter(clock, steps[0]), steps[1..]);
    }
  }

  // ----- what the invariant means --------------------------------------------------------

  ghost function WaitingOf(db: Db, o: nat): set<nat> { set i: nat | i < |db.alerts| && Waiting(db, i, o) }
  ghost function AlertsOf(db: Db, o: nat): set<nat> {
    set i: nat | i < |db.alerts| && db.alerts[i].occurrence == Some(o)
  }

  /** In every reachable state an open occurrence has at most one of: an undelivered alert, a scheduled
      repeat. */
  lemma ChainIsSingle(steps: seq<Step>, o: nat)
    requires AllowedRun(Db([], [], []), 0, steps)
    requires var db := Run(Db([], [], []), steps); o < |db.occurrences| && Open(db.occurrences[o])
    ensures var db := Run(Db([], [], []), steps);
      |WaitingOf(db, o)| + (if db.occurrences[o].nextRepeat.Some? then 1 else 0) <= 1
  {
    RunKeepsInvariant(Db([], [], []), 0, steps);
    var db := Run(Db([], [], []), steps);
    OneToOneBound(WaitingOf(db, o), (i: nat) => 0, 1);
    if db.occurrences[o].nextRepeat.Some? {
      ScheduledIsNotWaiting(db, o);
      assert WaitingOf(db, o) == {};
    }
  }

  lemma AlertsAreCounted(db: Db, clock: int, o: nat)
    requires Invariant(db, clock) && o < |db.occurrences|
    ensures |AlertsOf(db, o)| <= db.occurrences[o].repeats + 1
  {
    var ids := AlertsOf(db, o);
    NumbersBelow(db, o);
    var number := (i: nat) => if i < |db.alerts| && db.alerts[i].key.OfOccurrence? then db.alerts[i].key.repeat as int
      else 0;
    forall i | i in ids ensures Belongs(db.occurrences, db.alerts[i])
      && 0 <= number(i) < db.occurrences[o].repeats + 1 {
      assert Belongs(db.occurrences, db.alerts[i]);
    }
    forall i, j | i in ids && j in ids && i != j ensures number(i) != number(j) {
      assert Belongs(db.occurrences, db.alerts[i]) && Belongs(db.occurrences, db.alerts[j]);
      assert db.alerts[i].key != db.alerts[j].key by {
        if i < j { assert db.alerts[i].occurrence.Some?; } else { assert db.alerts[j].occurrence.Some?; }
      }
    }
    OneToOneBound(ids, number, db.occurrences[o].repeats + 1);
  }

  /** In every reachable state an occurrence never had more alerts, delivered, deleted or not, than its
      repeats and one; and the repeats of an open one respect the maximum of its reminder. */
  lemma TotalIsBounded(steps: seq<Step>, o: nat)
    requires AllowedRun(Db([], [], []), 0, steps) && o < |Run(Db([], [], []), steps).occurrences|
    ensures var db := Run(Db([], [], []), steps); var occurrence := db.occurrences[o];
      && |AlertsOf(db, o)| <= occurrence.repeats + 1
      && (Open(occurrence) ==> Present(db, occurrence.reminder))
      && (Open(occurrence) && db.reminders[occurrence.reminder].value.maximum > 0 ==>
            |AlertsOf(db, o)| <= db.reminders[occurrence.reminder].value.maximum + 1)
  {
    RunKeepsInvariant(Db([], [], []), 0, steps);
    var db := Run(Db([], [], []), steps);
    assert Fits(db, ClockAfterRun(0, steps), db.occurrences[o]);
    AlertsAreCounted(db, ClockAfterRun(0, steps), o);
  }

  /** The occurrence and the set of its alerts are the same. */
  ghost predicate Frozen(a: Db, b: Db, o: nat) {
    && o < |a.occurrences| <= |b.occurrences| && b.occurrences[o] == a.occurrences[o]
    && |a.alerts| <= |b.alerts|
    && (forall i :: 0 <= i < |a.alerts| ==> b.alerts[i].occurrence == a.alerts[i].occurrence)
    && (forall i :: |a.alerts| <= i < |b.alerts| ==> b.alerts[i].occurrence != Some(o))
  }

  lemma {:induction false} FireAllFreezes(db: Db, ids: seq<nat>, now: int, daily: nat -> int, topic: Option<string>,
                                          o: nat)
    requires Invariant(db, now) && (forall r: nat :: daily(r) > now) && o < |db.occurrences| && !Open(db.occurrences[o])
    ensures Frozen(db, FireAll(db, ids, now, daily, topic), o)
    decreases |ids|
  {
    if ids != [] {
      FireKeeps(db, ids[0], now, daily(ids[0]), topic);
      if FireDue(db, ids[0], now) { FiresAnew(db, now, ids[0], now); }
      var fired := Fire(db, ids[0], now, daily(ids[0]), topic);
      assert Frozen(db, fired, o);
      FireAllFreezes(fired, ids[1..], now, daily, topic, o);
    }
  }

  lemma {:induction false} RepeatAllFreezes(db: Db, ids: seq<nat>, now: int, topic: Option<string>, o: nat)
    requires o < |db.occurrences| && !Open(db.occurrences[o])
    ensures Frozen(db, RepeatAll(db, ids, now, topic), o)
    decreases |ids|
  {
    if ids != [] {
      var repeated := Repeat(db, ids[0], now, topic);
      assert Frozen(db, repeated, o);
      RepeatAllFreezes(repeated, ids[1..], now, topic, o);
    }
  }

  lemma EnqueueFreezes(db: Db, now: int, limit: int, daily: nat -> int, topic: Option<string>, o: nat)
    requires Invariant(db, now) && (forall r: nat :: daily(r) > now) && o < |db.occurrences| && !Open(db.occurrences[o])
    ensures Frozen(db, Enqueue(db, now, limit, daily, topic), o)
  {
    var ids := DueReminders(db, now, Batch(limit));
    FireAllFreezes(db, ids, now, daily, topic, o);
    var fired := FireAll(db, ids, now, daily, topic);
    RepeatAllFreezes(fired, DueRepeats(fired, now, Batch(limit)), now, topic, o);
  }

  lemma EditFreezes(db: Db, step: Step, o: nat)
    requires o < |db.occurrences| && !Open(db.occurrences[o])
    requires step.UpsertStep? || step.EnableStep? || step.DeleteStep? || step.AcknowledgeStep?
    ensures Frozen(db, Next(db, step), o)
  {
  }

  lemma DeliveryFreezes(db: Db, step: Step, o: nat)
    requires o < |db.occurrences| && !Open(db.occurrences[o]) && (step.DeliverStep? || step.OutboxStep?)
    ensures Frozen(db, Next(db, step), o)
  {
  }

  lemma StepFreezes(db: Db, clock: int, step: Step, o: nat)
    requires Invariant(db, clock) && Allowed(db, clock, step) && o < |db.occurrences| && !Open(db.occurrences[o])
    ensures Frozen(db, Next(db, step), o)
  {
    if step.EnqueueStep? {
      ClockAdvances(db, clock, step.now);
      EnqueueFreezes(db, step.now, step.limit, step.nextDaily, step.topic, o);
    } else if step.DeliverStep? || step.OutboxStep? {
      DeliveryFreezes(db, step, o);
    } else {
      EditFreezes(db, step, o);
    }
  }

  lemma FrozenTransitive(a: Db, b: Db, c: Db, o: nat)
    requires Frozen(a, b, o) && Frozen(b, c, o)
    ensures Frozen(a, c, o)
  {
  }

  /** Once an occurrence is acknowledged nothing is ever enqueued for it again, also when a message of it was
      being sent: its row and the set of its alerts stay as they are. */
  lemma {:induction false} AcknowledgedIsFinal(db: Db, clock: int, steps: seq<Step>, o: nat)
    requires Invariant(db, clock) && AllowedRun(db, clock, steps) && o < |db.occurrences| && !Open(db.occurrences[o])
    ensures Frozen(db, Run(db, steps), o)
    decreases |steps|
  {
    if |steps| > 0 {
      var next := Next(db, steps[0]);
      StepKeepsInvariant(db, clock, steps[0]);
      StepFreezes(db, clock, steps[0], o);
      AcknowledgedIsFinal(next, ClockAfter(clock, steps[0]), steps[1..], o);
      FrozenTransitive(db, next, Run(next, steps[1..]), o);
    }
  }

  /** Editing, disabling or deleting a reminder withdraws its pending alerts and closes its occurrences, so
      that nothing started before the edit is enqueued afterwards. */
  lemma EditsSilence(db: Db, clock: int, edit: Step, steps: seq<Step>, o: nat)
    requires Invariant(db, clock) && AllowedRun(db, clock, [edit] + steps) && o < |db.occurrences|
    requires edit.DeleteStep? || edit.UpsertStep? || (edit.EnableStep? && !edit.enabled)
    requires Present(db, edit.r) && db.occurrences[o].reminder == edit.r
    ensures forall i :: 0 <= i < |db.alerts| && db.alerts[i].reminder == Some(edit.r) ==>
      Next(db, edit).alerts[i].status != Pending
    ensures Frozen(Next(db, edit), Run(Next(db, edit), steps), o)
  {
    StepKeepsInvariant(db, clock, edit);
    assert ([edit] + steps)[1..] == steps;
    assert !Open(Silence(db, edit.r, edit.now).occurrences[o]);
    AcknowledgedIsFinal(Next(db, edit), ClockAfter(clock, edit), steps, o);
  }

  // ----- the transactions over the tables ------------------------------------------------

  lemma LimitedIsDistinct(ids: seq<nat>, limit: nat)
    requires Distinct(ids)
    ensures Distinct(Limited(ids, limit)) && forall i :: i in Limited(ids, limit) ==> i in ids
  {
  }

  lemma DueRemindersAreDue(db: Db, now: int, limit: nat)
    ensures Distinct(DueReminders(db, now, limit)) && forall r: nat :: r in DueReminders(db, now, limit) ==>
      FireDue(db, r, now)
  {
    var leq := (a: nat, b: nat) => RunsBefore(db, a, b);
    var due := (r: nat) => FireDue(db, r, now);
    SelectionIsDistinct(leq, due, Ids(|db.reminders|));
    LimitedIsDistinct(Sort(leq, Filter(due, Ids(|db.reminders|))), limit);
    assert DueReminders(db, now, limit) == Limited(Sort(leq, Filter(due, Ids(|db.reminders|))), limit);
    assert forall r: nat :: r in DueReminders(db, now, limit) ==> due(r);
  }

  lemma DueRepeatsAreDue(db: Db, now: int, limit: nat)
    ensures Distinct(DueRepeats(db, now, limit)) && forall o: nat :: o in DueRepeats(db, now, limit) ==>
      RepeatDue(db, o, now)
  {
    var leq := (a: nat, b: nat) => RepeatsBefore(db, a, b);
    var due := (o: nat) => RepeatDue(db, o, now);
    SelectionIsDistinct(leq, due, Ids(|db.occurrences|));
    LimitedIsDistinct(Sort(leq, Filter(due, Ids(|db.occurrences|))), limit);
    assert DueRepeats(db, now, limit) == Limited(Sort(leq, Filter(due, Ids(|db.occurrences|))), limit);
    assert forall o: nat :: o in DueRepeats(db, now, limit) ==> due(o);
  }

  class ReminderDatabase {
    var reminders: seq<Option<Reminder>>
    var occurrences: seq<Occurrence>
    const table: AlertTable

    function State(): Db
      reads this, table
    {
      Db(reminders, occurrences, table.rows)
    }

    constructor (table: AlertTable)
      requires table.rows == []
      ensures this.table == table && State() == Db([], [], [])
    {
      reminders, occurrences, this.table := [], [], table;
    }

    method InsertReminderAlert(a: Alert, topic: Option<string>) returns (inserted: bool)
      modifies table
      ensures table.rows == if topic.None? then old(table.rows) else InsertUnlessTaken(old(table.rows), a)
      ensures inserted <==> topic.Some? && !Taken(old(table.rows), a.key)
    {
      if topic.None? || Taken(table.rows, a.key) {
        return false;
      }
      table.rows := table.rows + [a];
      return true;
    }

    /** Fires one reminder that is due. */
    method FireReminder(r: nat, now: int, next: int, topic: Option<string>) returns (inserted: bool)
      requires FireDue(State(), r, now)
      modifies this, table
      ensures State() == Fire(old(State()), r, now, next, topic)
      ensures |table.rows| == |old(table.rows)| + (if inserted then 1 else 0)
      ensures |reminders| == |old(reminders)| && forall i :: 0 <= i < |reminders| && i != r ==>
        reminders[i] == old(reminders)[i]
    {
      var reminder := reminders[r].value;
      var at := reminder.nextRun.value;
      var found := Find(occurrences, r, at);
      var o := if found.Some? then found.value else |occurrences|;
      if found.None? {
        occurrences := occurrences + [Occurrence(r, at, None, 0, None)];
      }
      inserted := InsertReminderAlert(AlertOf(r, at, o, 0, reminder.priority, if topic.Some? then topic.value else "",
        now), topic);
      if reminder.once {
        reminders := reminders[r := Some(reminder.(enabled := false, nextRun := None))];
      } else {
        reminders := reminders[r := Some(reminder.(nextRun := Some(next)))];
      }
    }

    /** Enqueues one repeat that is due, or ends the chain of its occurrence. */
    method RepeatOccurrence(o: nat, now: int, topic: Option<string>) returns (inserted: bool)
      requires RepeatDue(State(), o, now)
      modifies this, table
      ensures State() == Repeat(old(State()), o, now, topic)
      ensures |table.rows| == |old(table.rows)| + (if inserted then 1 else 0)
      ensures |occurrences| == |old(occurrences)| && forall i :: 0 <= i < |occurrences| && i != o ==>
        occurrences[i] == old(occurrences)[i]
      ensures reminders == old(reminders)
    {
      var reminder := reminders[occurrences[o].reminder].value;
      var count := occurrences[o].repeats + 1;
      if reminder.maximum > 0 && count > reminder.maximum {
        occurrences := occurrences[o := occurrences[o].(nextRepeat := None)];
        return false;
      }
      inserted := InsertReminderAlert(AlertOf(occurrences[o].reminder, occurrences[o].at, o, count, reminder.priority,
                                              if topic.Some? then topic.value else "", now), topic);
      occurrences := occurrences[o := occurrences[o].(repeats := count, nextRepeat := None)];
    }

    method FirePass(now: int, limit: nat, daily: nat -> int, topic: Option<string>) returns (queued: nat)
      modifies this, table
      ensures State() == FireAll(old(State()), DueReminders(old(State()), now, limit), now, daily, topic)
      ensures |table.rows| == |old(table.rows)| + queued
    {
      queued := 0;
      ghost var before := State();
      var ids := DueReminders(State(), now, limit);
      DueRemindersAreDue(before, now, limit);
      for k := 0 to |ids|
        invariant FireAll(State(), ids[k..], now, daily, topic) == FireAll(before, ids, now, daily, topic)
        invariant forall l :: k <= l < |ids| ==> FireDue(State(), ids[l], now)
        invariant |table.rows| == |before.alerts| + queued
      {
        ghost var at := State();
        assert ids[k..][0] == ids[k] && ids[k..][1..] == ids[k + 1..];
        var inserted := FireReminder(ids[k], now, daily(ids[k]), topic);
        if inserted { queued := queued + 1; }
        forall l | k < l < |ids| ensures FireDue(State(), ids[l], now) {
          assert ids[l] != ids[k] && FireDue(at, ids[l], now);
        }
      }
      assert ids[|ids|..] == [];
    }

    method RepeatPass(now: int, limit: nat, topic: Option<string>) returns (queued: nat)
      modifies this, table
      ensures State() == RepeatAll(old(State()), DueRepeats(old(State()), now, limit), now, topic)
      ensures |table.rows| == |old(table.rows)| + queued
    {
      queued := 0;
      ghost var before := State();
      var ids := DueRepeats(State(), now, limit);
      DueRepeatsAreDue(before, now, limit);
      for k := 0 to |ids|
        invariant RepeatAll(State(), ids[k..], now, topic) == RepeatAll(before, ids, now, topic)
        invariant forall l :: k <= l < |ids| ==> RepeatDue(State(), ids[l], now)
        invariant |table.rows| == |before.alerts| + queued
      {
        ghost var at := State();
        assert ids[k..][0] == ids[k] && ids[k..][1..] == ids[k + 1..];
        var inserted := RepeatOccurrence(ids[k], now, topic);
        if inserted { queued := queued + 1; }
        forall l | k < l < |ids| ensures RepeatDue(State(), ids[l], now) {
          assert ids[l] != ids[k] && RepeatDue(at, ids[l], now);
        }
      }
      assert ids[|ids|..] == [];
    }

    /** One pass: fires the reminders that are due, then enqueues the repeats that are due, and counts the
        alerts enqueued. */
    method EnqueueDueReminders(now: int, limit: int, daily: nat -> int, topic: Option<string>) returns (queued: nat)
      modifies this, table
      ensures State() == Enqueue(old(State()), now, limit, daily, topic)
      ensures |table.rows| == |old(table.rows)| + queued
    {
      var fired := FirePass(now, Batch(limit), daily, topic);
      var repeated := RepeatPass(now, Batch(limit), topic);
      queued := fired + repeated;
    }

    method SilenceReminder(r: nat, now: int)
      modifies this, table
      ensures State() == Silence(old(State()), r, now)
    {
      table.rows := seq(|table.rows|, i requires 0 <= i < |table.rows| reads table =>
        Withdrawn(table.rows[i], table.rows[i].reminder == Some(r)));
      occurrences := seq(|occurrences|, i requires 0 <= i < |occurrences| reads this =>
        if occurrences[i].reminder == r then Acknowledged(occurrences[i], now) else occurrences[i]);
    }

    method UpsertReminder(r: nat, reminder: Reminder, daily: int, now: int)
      requires r <= |reminders|
      modifies this, table
      ensures State() == Upsert(old(State()), r, reminder, daily, now)
    {
      var row := Some(reminder.(nextRun := FirstRun(reminder, daily)));
      if r == |reminders| {
        reminders := reminders + [row];
        return;
      }
      if reminders[r].Some? {
        SilenceReminder(r, now);
      }
      reminders := reminders[r := row];
    }

    method SetReminderEnabled(r: nat, enabled: bool, daily: int, now: int) returns (answer: EnableAnswer)
      modifies this, table
      ensures State() == SetEnabled(old(State()), r, enabled, daily, now)
      ensures answer == EnableVerdict(old(State()), r, enabled, now)
    {
      if r >= |reminders| || reminders[r].None? {
        return NotFound;
      }
      var reminder := reminders[r].value;
      var next: Option<int> := None;
      if enabled {
        if reminder.once {
          if reminder.runAt <= now {
            return TimeHasPassed;
          }
          next := Some(reminder.runAt);
        } else {
          next := Some(daily);
        }
      } else {
        SilenceReminder(r, now);
      }
      reminders := reminders[r := Some(reminder.(enabled := enabled, nextRun := next))];
      return Changed;
    }

    method DeleteReminder(r: nat, now: int) returns (existed: bool)
      modifies this, table
      ensures State() == Delete(old(State()), r, now) && existed == Present(old(State()), r)
    {
      if r >= |reminders| || reminders[r].None? {
        return false;
      }
      SilenceReminder(r, now);
      table.rows := seq(|table.rows|, i requires 0 <= i < |table.rows| reads table =>
        if table.rows[i].reminder == Some(r) then table.rows[i].(reminder := None) else table.rows[i]);
      reminders := reminders[r := None];
      return true;
    }

    method AcknowledgeOccurrence(o: nat, now: int) returns (r: Option<Occurrence>)
      modifies this, table
      ensures State() == Acknowledge(old(State()), o, now)
      ensures r == if o < |occurrences| then Some(occurrences[o]) else None
    {
      if o >= |occurrences| {
        return None;
      }
      if occurrences[o].acknowledged.None? {
        occurrences := occurrences[o := occurrences[o].(acknowledged := Some(now), nextRepeat := None)];
        table.rows := seq(|table.rows|, i requires 0 <= i < |table.rows| reads table =>
          Withdrawn(table.rows[i], table.rows[i].occurrence == Some(o)));
      }
      return Some(occurrences[o]);
    }

    method MarkAlertDelivered(id: nat, now: int)
      modifies this, table
      ensures State() == MarkDelivered(old(State()), id, now)
    {
      if id >= |table.rows| || table.rows[id].status != Sending {
        return;
      }
      var alert := table.rows[id];
      table.rows := table.rows[id := alert.(status := Delivered)];
      if alert.reminder.Some? && alert.occurrence.Some? {
        var o := alert.occurrence.value;
        if o < |occurrences| && occurrences[o].acknowledged.None? {
          var r := occurrences[o].reminder;
          if r < |reminders| && reminders[r].Some? {
            var reminder := reminders[r].value;
            if reminder.ack && reminder.interval.Some?
              && (reminder.maximum == 0 || occurrences[o].repeats < reminder.maximum) {
              occurrences := occurrences[o := occurrences[o].(nextRepeat := Some(now + reminder.interval.value))];
            }
          }
        }
      }
    }
  }
}
