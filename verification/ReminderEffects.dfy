/** What each transaction on reminders does to every row, and which of the due ones a pass takes. */
module ReminderEffects {
  import opened Ordering
  import opened Outbox
  import opened Reminders

  // ----- enqueueing ----------------------------------------------------------------------

  /** The alert of an occurrence, for its first message or a numbered repeat, may be sent at once. */
  ghost predicate AlertFor(a: Alert, r: nat, at: int, o: nat, repeat: nat, priority: int, topic: string, now: int) {
    && a.key == OfOccurrence(r, at, repeat) && a.reminder == Some(r) && a.occurrence == Some(o)
    && a.rule == (if repeat == 0 then "reminder.manual" else "reminder.manual.repeat")
    && a.incident == "" && !a.recovery && a.topic == topic && a.priority == priority && a.createdAt == now
    && a.status == Pending && a.attempts == 0 && a.nextAttemptAt == now && a.retryStartedAt == now
  }

  ghost predicate KeyInUse(alerts: seq<Alert>, key: DedupeKey) {
    exists i :: 0 <= i < |alerts| && alerts[i].key == key && alerts[i].status != Deleted
  }

  /** The alert was added, unless its route is muted or its key is in use. */
  ghost predicate Enqueued(before: seq<Alert>, after: seq<Alert>, topic: Option<string>, r: nat, at: int, o: nat,
                           repeat: nat, priority: int, now: int) {
    if topic.Some? && !KeyInUse(before, OfOccurrence(r, at, repeat)) then
      && |after| == |before| + 1 && after[..|before|] == before
      && AlertFor(after[|before|], r, at, o, repeat, priority, topic.value, now)
    else after == before
  }

  lemma PostIsExact(alerts: seq<Alert>, topic: Option<string>, r: nat, at: int, o: nat, repeat: nat, priority: int,
                    now: int)
    ensures Enqueued(alerts, Post(alerts, topic, r, at, o, repeat, priority, now), topic, r, at, o, repeat, priority,
      now)
  {
    var key := OfOccurrence(r, at, repeat);
    assert Taken(alerts, key) <==> KeyInUse(alerts, key);
  }

  ghost predicate IsDue(db: Db, r: nat, now: int) {
    && r < |db.reminders| && db.reminders[r].Some? && db.reminders[r].value.enabled
    && db.reminders[r].value.nextRun.Some? && now >= db.reminders[r].value.nextRun.value
  }

  ghost predicate Known(db: Db, r: nat, at: int) {
    exists o :: 0 <= o < |db.occurrences| && db.occurrences[o].reminder == r && db.occurrences[o].at == at
  }

  /** Firing a due reminder records the time as an occurrence if it is not known, enqueues its first alert, and ends
      a one-time reminder or schedules the next time; a reminder that is not due is left alone. */
  lemma FiringIsExact(db: Db, r: nat, now: int, next: int, topic: Option<string>)
    ensures var f := Fire(db, r, now, next, topic);
      if !IsDue(db, r, now) then f == db
      else
        var was := db.reminders[r].value; var at := was.nextRun.value;
        && |f.reminders| == |db.reminders|
          && (forall q :: 0 <= q < |db.reminders| && q != r ==> f.reminders[q] == db.reminders[q])
        && (was.once ==> f.reminders[r] == Some(was.(enabled := false, nextRun := None)))
        && (!was.once ==> f.reminders[r] == Some(was.(nextRun := Some(next))))
        && (Known(db, r, at) ==> f.occurrences == db.occurrences)
        && (!Known(db, r, at) ==>
              && f.occurrences == db.occurrences + [Occurrence(r, at, None, 0, None)]
              && Enqueued(db.alerts, f.alerts, topic, r, at, |db.occurrences|, 0, was.priority, now))
  {
    if IsDue(db, r, now) {
      var was := db.reminders[r].value;
      PostIsExact(db.alerts, topic, r, was.nextRun.value, |db.occurrences|, 0, was.priority, now);
    }
  }

  ghost predicate RepeatIsDue(db: Db, o: nat, now: int) {
    && o < |db.occurrences| && db.occurrences[o].acknowledged.None?
    && db.occurrences[o].nextRepeat.Some? && now >= db.occurrences[o].nextRepeat.value
    && var r := db.occurrences[o].reminder;
      r < |db.reminders| && db.reminders[r].Some? && db.reminders[r].value.ack
  }

  /** A due repeat is used up: below the maximum of its reminder it counts one more and enqueues the alert with that
      number, and otherwise the chain just ends. */
  lemma RepeatingIsExact(db: Db, o: nat, now: int, topic: Option<string>)
    ensures var p := Repeat(db, o, now, topic);
      if !RepeatIsDue(db, o, now) then p == db
      else
        var was := db.occurrences[o]; var reminder := db.reminders[was.reminder].value;
        && p.reminders == db.reminders && |p.occurrences| == |db.occurrences|
        && (forall q :: 0 <= q < |db.occurrences| && q != o ==> p.occurrences[q] == db.occurrences[q])
        && (if reminder.maximum != 0 && was.repeats >= reminder.maximum then
              p.occurrences[o] == was.(nextRepeat := None) && p.alerts == db.alerts
            else
              && p.occurrences[o] == was.(repeats := was.repeats + 1, nextRepeat := None)
              && Enqueued(db.alerts, p.alerts, topic, was.reminder, was.at, o, was.repeats + 1, reminder.priority, now))
  {
    if RepeatIsDue(db, o, now) {
      var was := db.occurrences[o];
      PostIsExact(db.alerts, topic, was.reminder, was.at, o, was.repeats + 1, db.reminders[was.reminder].value.priority,
                  now);
    }
  }

  // ----- which of the due ones a pass takes ----------------------------------------------

  /** The first `limit` of the ids that qualify, in order. */
  ghost predicate FirstOf(ids: seq<nat>, limit: nat, qualifies: nat -> bool, before: (nat, nat) -> bool) {
    && |ids| <= limit && Distinct(ids)
    && (forall i: nat :: i in ids ==> qualifies(i))
    && (forall k, l :: 0 <= k < l < |ids| ==> before(ids[k], ids[l]))
    && (forall i: nat :: qualifies(i) && i !in ids ==> |ids| == limit && forall k :: 0 <= k < |ids| ==>
      before(ids[k], i))
  }

  lemma BehindPrefix(s: seq<nat>, n: nat, x: nat, m: nat)
    requires n <= |s| && m < |s| && s[m] == x && x !in s[..n]
    ensures m >= n
  {
    forall k | 0 <= k < n ensures s[k] != x { assert s[k] == s[..n][k]; }
  }

  lemma LimitedIsFirst(leq: (nat, nat) -> bool, keep: nat -> bool, n: nat, limit: nat)
    requires TotalPreorder(leq) && forall i: nat :: keep(i) ==> i < n
    ensures FirstOf(Limited(Sort(leq, Filter(keep, Ids(n))), limit), limit, keep, leq)
  {
    var all := Filter(keep, Ids(n));
    var sorted := Sort(leq, all);
    SelectionIsDistinct(leq, keep, Ids(n));
    SortSorted(leq, all);
    LimitedIsDistinct(sorted, limit);
    var ids := Limited(sorted, limit);
    forall i: nat | keep(i) && i !in ids ensures |ids| == limit && forall k :: 0 <= k < |ids| ==> leq(ids[k], i) {
      assert Ids(n)[i] == i;
      assert i in Ids(n) && i in sorted;
      var m :| 0 <= m < |sorted| && sorted[m] == i;
      assert ids == sorted[..|ids|];
      BehindPrefix(sorted, |ids|, i, m);
      forall k | 0 <= k < |ids| ensures leq(ids[k], i) { assert leq(sorted[k], sorted[m]); }
    }
  }

  /** Due earlier, or at the same time and stored first. */
  ghost predicate Earlier(db: Db, a: nat, b: nat) {
    IsScheduled(db, a) && IsScheduled(db, b) ==>
      || db.reminders[a].value.nextRun.value < db.reminders[b].value.nextRun.value
      || (db.reminders[a].value.nextRun.value == db.reminders[b].value.nextRun.value && a <= b)
  }

  ghost predicate IsScheduled(db: Db, r: nat) {
    r < |db.reminders| && db.reminders[r].Some? && db.reminders[r].value.nextRun.Some?
  }

  /** A pass takes the reminders that are due, the longest due first, up to its limit, and passes one over only for
      those ahead of it. */
  lemma PassTakesLongestDue(db: Db, now: int, limit: nat)
    ensures var ids := DueReminders(db, now, limit);
      && |ids| <= limit && Distinct(ids) && (forall r: nat :: r in ids ==> IsDue(db, r, now))
      && (forall k, l :: 0 <= k < l < |ids| ==> Earlier(db, ids[k], ids[l]))
      && (forall r: nat :: IsDue(db, r, now) && r !in ids ==>
            |ids| == limit && forall k :: 0 <= k < |ids| ==> Earlier(db, ids[k], r))
  {
    var leq, due := (a: nat, b: nat) => RunsBefore(db, a, b), (r: nat) => FireDue(db, r, now);
    assert TotalPreorder(leq);
    LimitedIsFirst(leq, due, |db.reminders|, limit);
    var ids := DueReminders(db, now, limit);
    assert FirstOf(ids, limit, due, leq);
    forall r: nat ensures due(r) <==> IsDue(db, r, now) {}
    forall a: nat, b: nat ensures leq(a, b) ==> Earlier(db, a, b) {}
  }

  ghost predicate RepeatsEarlier(db: Db, a: nat, b: nat) {
    a < |db.occurrences| && b < |db.occurrences| && db.occurrences[a].nextRepeat.Some?
      && db.occurrences[b].nextRepeat.Some? ==>
      || db.occurrences[a].nextRepeat.value < db.occurrences[b].nextRepeat.value
      || (db.occurrences[a].nextRepeat.value == db.occurrences[b].nextRepeat.value && a <= b)
  }

  /** The same for repeats. */
  lemma PassTakesLongestWaitingRepeats(db: Db, now: int, limit: nat)
    ensures var ids := DueRepeats(db, now, limit);
      && |ids| <= limit && Distinct(ids) && (forall o: nat :: o in ids ==> RepeatIsDue(db, o, now))
      && (forall k, l :: 0 <= k < l < |ids| ==> RepeatsEarlier(db, ids[k], ids[l]))
      && (forall o: nat :: RepeatIsDue(db, o, now) && o !in ids ==>
            |ids| == limit && forall k :: 0 <= k < |ids| ==> RepeatsEarlier(db, ids[k], o))
  {
    var leq, due := (a: nat, b: nat) => RepeatsBefore(db, a, b), (o: nat) => RepeatDue(db, o, now);
    assert TotalPreorder(leq);
    LimitedIsFirst(leq, due, |db.occurrences|, limit);
    var ids := DueRepeats(db, now, limit);
    assert FirstOf(ids, limit, due, leq);
    forall o: nat ensures due(o) <==> RepeatIsDue(db, o, now) {}
    forall a: nat, b: nat ensures leq(a, b) ==> RepeatsEarlier(db, a, b) {}
  }

  /** The limit of a pass lies between 1 and 1000. */
  lemma LimitIsClamped(limit: int)
    ensures 1 <= Batch(limit) <= 1000 && (1 <= limit <= 1000 ==> Batch(limit) == limit)
    ensures (limit < 1 ==> Batch(limit) == 1) && (limit > 1000 ==> Batch(limit) == 1000)
  {
  }

  // ----- a whole pass --------------------------------------------------------------------

  /** The reminder was fired: its time is known as an occurrence, and its schedule has moved on. */
  ghost predicate Fired(db: Db, f: Db, r: nat, next: int) {
    && IsScheduled(db, r) && r < |f.reminders|
    && Known(f, r, db.reminders[r].value.nextRun.value)
    && f.reminders[r] ==
         Some(if db.reminders[r].value.once then db.reminders[r].value.(enabled := false, nextRun := None)
              else db.reminders[r].value.(nextRun := Some(next)))
  }

  lemma KnownStays(db: Db, r: nat, now: int, next: int, topic: Option<string>, q: nat, at: int)
    requires Known(db, q, at)
    ensures Known(Fire(db, r, now, next, topic), q, at)
  {
    var o :| 0 <= o < |db.occurrences| && db.occurrences[o].reminder == q && db.occurrences[o].at == at;
    assert Fire(db, r, now, next, topic).occurrences[o] == db.occurrences[o];
  }

  lemma {:induction false} KnownStaysThrough(db: Db, ids: seq<nat>, now: int, daily: nat -> int, topic: Option<string>,
                                             q: nat, at: int)
    requires Known(db, q, at)
    ensures Known(FireAll(db, ids, now, daily, topic), q, at)
    decreases |ids|
  {
    if ids != [] {
      KnownStays(db, ids[0], now, daily(ids[0]), topic, q, at);
      KnownStaysThrough(Fire(db, ids[0], now, daily(ids[0]), topic), ids[1..], now, daily, topic, q, at);
    }
  }

  /** Firing a list of different due reminders fires each of them and touches no other. */
  lemma {:induction false} AllAreFired(db: Db, ids: seq<nat>, now: int, daily: nat -> int, topic: Option<string>)
    requires Distinct(ids) && forall r: nat :: r in ids ==> IsDue(db, r, now)
    ensures var f := FireAll(db, ids, now, daily, topic);
      && |f.reminders| == |db.reminders|
      && (forall r: nat :: r in ids ==> Fired(db, f, r, daily(r)))
      && (forall r: nat :: r < |db.reminders| && r !in ids ==> f.reminders[r] == db.reminders[r])
    decreases |ids|
  {
    if ids != [] {
      var first, rest := ids[0], ids[1..];
      var next := Fire(db, first, now, daily(first), topic);
      var f := FireAll(next, rest, now, daily, topic);
      FiringIsExact(db, first, now, daily(first), topic);
      assert first !in rest;
      forall r: nat | r in rest ensures IsDue(next, r, now) && next.reminders[r] == db.reminders[r] { assert r in ids; }
      AllAreFired(next, rest, now, daily, topic);
      var at := db.reminders[first].value.nextRun.value;
      if Known(db, first, at) {
        KnownStays(db, first, now, daily(first), topic, first, at);
      } else {
        assert next.occurrences[|db.occurrences|].at == at;
      }
      KnownStaysThrough(next, rest, now, daily, topic, first, at);
      forall r: nat | r in ids ensures Fired(db, f, r, daily(r)) {
        if r != first { assert r in rest && Fired(next, f, r, daily(r)); }
      }
    }
  }

  /** After repeating a list of different due occurrences none of them is scheduled, each is counted once more up to
      the maximum of its reminder, and no other occurrence changed. */
  lemma {:induction false} AllAreRepeated(db: Db, ids: seq<nat>, now: int, topic: Option<string>)
    requires Distinct(ids) && forall o: nat :: o in ids ==> RepeatIsDue(db, o, now)
    ensures var p := RepeatAll(db, ids, now, topic);
      && p.reminders == db.reminders && |p.occurrences| == |db.occurrences|
      && (forall o: nat :: o in ids ==>
            && o < |db.occurrences| && RepeatIsDue(db, o, now)
            && var was := db.occurrences[o]; var maximum := db.reminders[was.reminder].value.maximum;
            p.occurrences[o] == was.(nextRepeat := None,
                                     repeats := if maximum != 0 && was.repeats >= maximum then was.repeats
                                                else was.repeats + 1))
      && (forall o: nat :: o < |db.occurrences| && o !in ids ==> p.occurrences[o] == db.occurrences[o])
    decreases |ids|
  {
    if ids != [] {
      var first, rest := ids[0], ids[1..];
      var next := Repeat(db, first, now, topic);
      RepeatingIsExact(db, first, now, topic);
      assert first in ids && first !in rest;
      forall o: nat | o in rest ensures RepeatIsDue(next, o, now) && next.occurrences[o] == db.occurrences[o] {
        assert o in ids;
      }
      AllAreRepeated(next, rest, now, topic);
    }
  }

  /** A pass fires the reminders it takes and then repeats the occurrences it takes. */
  lemma PassIsExact(db: Db, now: int, limit: int, daily: nat -> int, topic: Option<string>)
    ensures var n := if limit < 1 then 1 else if limit > 1000 then 1000 else limit;
      var f, after := FireAll(db, DueReminders(db, now, n), now, daily, topic), Enqueue(db, now, limit, daily, topic);
      && after.reminders == f.reminders && |after.occurrences| == |f.occurrences| && |f.reminders| == |db.reminders|
      && (forall r: nat :: r in DueReminders(db, now, n) ==> Fired(db, f, r, daily(r)))
      && (forall r: nat :: r < |db.reminders| && r !in DueReminders(db, now, n) ==> f.reminders[r] == db.reminders[r])
      && (forall o: nat :: o in DueRepeats(f, now, n) ==>
            o < |after.occurrences| && after.occurrences[o].nextRepeat.None?)
      && (forall o: nat :: o < |f.occurrences| && o !in DueRepeats(f, now, n) ==>
            after.occurrences[o] == f.occurrences[o])
  {
    var n := Batch(limit);
    LimitIsClamped(limit);
    PassTakesLongestDue(db, now, n);
    AllAreFired(db, DueReminders(db, now, n), now, daily, topic);
    var f := FireAll(db, DueReminders(db, now, n), now, daily, topic);
    PassTakesLongestWaitingRepeats(f, now, n);
    AllAreRepeated(f, DueRepeats(f, now, n), now, topic);
  }

  // ----- edits ---------------------------------------------------------------------------

  /** What the reminder started is over: its open occurrences are acknowledged now and its pending alerts are gone;
      nothing of any other reminder changes. */
  ghost predicate Silenced(db: Db, s: Db, r: nat, now: int) {
    && |s.occurrences| == |db.occurrences| && |s.alerts| == |db.alerts|
    && (forall o :: 0 <= o < |db.occurrences| ==>
          s.occurrences[o] ==
            if db.occurrences[o].reminder == r && db.occurrences[o].acknowledged.None?
            then db.occurrences[o].(acknowledged := Some(now), nextRepeat := None) else db.occurrences[o])
    && (forall i :: 0 <= i < |db.alerts| ==>
          s.alerts[i] ==
            if db.alerts[i].reminder == Some(r) && db.alerts[i].status == Pending
            then db.alerts[i].(status := Deleted) else db.alerts[i])
  }

  ghost predicate Scheduled(reminder: Reminder, next: Option<int>, daily: int) {
    next == if !reminder.enabled then None else if reminder.once then Some(reminder.runAt) else Some(daily)
  }

  ghost predicate OthersStay(a: seq<Option<Reminder>>, b: seq<Option<Reminder>>, r: nat) {
    |a| <= |b| && forall q :: 0 <= q < |a| && q != r ==> b[q] == a[q]
  }

  /** Saving a reminder stores it with its next time, after silencing the one it replaces. */
  lemma UpsertIsExact(db: Db, r: nat, reminder: Reminder, daily: int, now: int)
    requires r <= |db.reminders|
    ensures var u := Upsert(db, r, reminder, daily, now);
      && OthersStay(db.reminders, u.reminders, r) && r < |u.reminders| && |u.reminders| <= |db.reminders| + 1
      && u.reminders[r].Some? && u.reminders[r].value == reminder.(nextRun := u.reminders[r].value.nextRun)
      && Scheduled(reminder, u.reminders[r].value.nextRun, daily)
      && (r < |db.reminders| && db.reminders[r].Some? ==> Silenced(db, u, r, now))
      && (r == |db.reminders| || db.reminders[r].None? ==> u.occurrences == db.occurrences && u.alerts == db.alerts)
    ensures Next(db, UpsertStep(r, reminder, daily, now)) == Upsert(db, r, reminder, daily, now)
  {
  }

  /** A reminder is switched exactly when it exists and is not a one-time reminder whose time has come; switching
      off silences it, switching on starts nothing. */
  lemma SwitchingIsExact(db: Db, r: nat, enabled: bool, daily: int, now: int)
    ensures var e, answer := SetEnabled(db, r, enabled, daily, now), EnableVerdict(db, r, enabled, now);
      && (answer == NotFound <==> r >= |db.reminders| || db.reminders[r].None?)
      && (answer == TimeHasPassed <==>
            r < |db.reminders| && db.reminders[r].Some? && enabled && db.reminders[r].value.once
            && now >= db.reminders[r].value.runAt)
      && (answer != Changed ==> e == db)
      && (answer == Changed ==>
            var was := db.reminders[r].value;
            && OthersStay(db.reminders, e.reminders, r) && |e.reminders| == |db.reminders| && e.reminders[r].Some?
            && e.reminders[r].value == was.(enabled := enabled, nextRun := e.reminders[r].value.nextRun)
            && Scheduled(was.(enabled := enabled), e.reminders[r].value.nextRun, daily)
            && (enabled ==> e.occurrences == db.occurrences && e.alerts == db.alerts)
            && (!enabled ==> Silenced(db, e, r, now)))
  {
  }

  /** Deleting a reminder silences it first; its alerts stay in the table and forget it. */
  lemma DeletionIsExact(db: Db, r: nat, now: int)
    ensures var d := Delete(db, r, now);
      if r >= |db.reminders| || db.reminders[r].None? then d == db
      else
        && d.reminders == db.reminders[r := None] && |d.alerts| == |db.alerts| && |d.occurrences| == |db.occurrences|
        && (forall o :: 0 <= o < |db.occurrences| ==>
              d.occurrences[o] ==
                if db.occurrences[o].reminder == r && db.occurrences[o].acknowledged.None?
                then db.occurrences[o].(acknowledged := Some(now), nextRepeat := None) else db.occurrences[o])
        && (forall i :: 0 <= i < |db.alerts| ==>
              d.alerts[i] ==
                if db.alerts[i].reminder != Some(r) then db.alerts[i]
                else db.alerts[i].(reminder := None,
                                   status := if db.alerts[i].status == Pending then Deleted else db.alerts[i].status))
  {
  }

  /** Acknowledging an open occurrence ends its chain and takes back its pending alerts, of no other occurrence; a
      second acknowledgement changes nothing. */
  lemma AcknowledgementIsExact(db: Db, o: nat, now: int)
    ensures var a := Acknowledge(db, o, now);
      if o >= |db.occurrences| || db.occurrences[o].acknowledged.Some? then a == db
      else
        && a.reminders == db.reminders && |a.alerts| == |db.alerts|
        && a.occurrences == db.occurrences[o := db.occurrences[o].(acknowledged := Some(now), nextRepeat := None)]
        && forall i :: 0 <= i < |db.alerts| ==>
             a.alerts[i] ==
               if db.alerts[i].occurrence == Some(o) && db.alerts[i].status == Pending
               then db.alerts[i].(status := Deleted) else db.alerts[i]
  {
  }

  /** The occurrence asks to be repeated after this message. */
  ghost predicate AsksForMore(db: Db, o: nat) {
    && o < |db.occurrences| && db.occurrences[o].acknowledged.None?
    && var r := db.occurrences[o].reminder;
      && r < |db.reminders| && db.reminders[r].Some? && db.reminders[r].value.ack
        && db.reminders[r].value.interval.Some?
      && (db.reminders[r].value.maximum > 0 ==> db.occurrences[o].repeats < db.reminders[r].value.maximum)
  }

  /** A message that is being sent becomes delivered; if it belongs to a reminder and an occurrence that asks for
      more, the next repeat is scheduled one interval from now, and nothing else changes. */
  lemma DeliveryIsExact(db: Db, id: nat, now: int)
    ensures var d := MarkDelivered(db, id, now);
      if id >= |db.alerts| || db.alerts[id].status != Sending then d == db
      else
        && d.reminders == db.reminders && d.alerts == db.alerts[id := db.alerts[id].(status := Delivered)]
        && var a := db.alerts[id];
          if a.reminder.Some? && a.occurrence.Some? && AsksForMore(db, a.occurrence.value) then
            var o := a.occurrence.value;
            d.occurrences == db.occurrences[o := db.occurrences[o].(nextRepeat :=
              Some(now + db.reminders[db.occurrences[o].reminder].value.interval.value))]
          else d.occurrences == db.occurrences
  {
  }
}
