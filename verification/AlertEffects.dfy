/** What each operation on the alerts does to every row, which alert is sent first, and which candidates get in. */
module AlertEffects {
  import opened Ordering
  import opened Outbox
  import opened AlertSuppression

  // ----- operations of the outbox --------------------------------------------------------

  /** Due for sending: waiting and its time has come, or being sent under a lease that ran out. */
  ghost predicate Sendable(a: Alert, now: int) {
    || (a.status == Pending && now >= a.nextAttemptAt)
    || (a.status == Sending && now >= a.leaseUntil)
  }

  /** Every operation acts on its one row, and only in the states named here. */
  lemma OperationsAreExact(rows: seq<Alert>, op: Op)
    ensures var r := Apply(rows, op);
      && |r| == |rows| && (forall i :: 0 <= i < |rows| && i != op.id ==> r[i] == rows[i])
      && (op.id < |rows| ==>
            var a, b := rows[op.id], r[op.id];
            match op
            case ClaimOp(_, now, seconds) =>
              if Sendable(a, now)
              then b == a.(status := Sending, attempts := a.attempts + 1, leaseUntil := now + seconds) else b == a
            case DeliverOp(_) => if a.status == Sending then b == a.(status := Delivered) else b == a
            case RetryOp(_, at) =>
              if a.status == Sending then b == a.(status := Pending, nextAttemptAt := at) else b == a
            case FailOp(_, now, at, retryable, maxAttempts, maxAge) =>
              if a.status == Sending then
                && b == a.(status := b.status, nextAttemptAt := at)
                && (b.status == Pending <==> retryable && a.attempts < maxAttempts && now < a.retryStartedAt + maxAge)
                && (b.status == Pending || b.status == Dead)
              else b == a
            case AgainOp(_, now) =>
              if a.status in {Dead, Cancelled}
              then b == a.(status := Pending, attempts := 0, nextAttemptAt := now, retryStartedAt := now) else b == a
            case CancelOp(_) => if a.status == Pending then b == a.(status := Cancelled) else b == a
            case DiscardOp(_) => if a.status in {Dead, Cancelled} then b == a.(status := Deleted) else b == a)
  {
  }

  lemma SendableIff(a: Alert, now: int)
    ensures Claimable(a, now) <==> Sendable(a, now)
  {
  }

  /** Of two alerts that may be sent the one of higher priority goes first, then the older, then the one stored
      first. */
  lemma SentFirst(rows: seq<Alert>, i: nat, j: nat)
    requires i < |rows| && j < |rows| && i != j && Precedes(rows, i, j)
    ensures rows[i].priority >= rows[j].priority
    ensures rows[i].priority == rows[j].priority ==> rows[i].createdAt <= rows[j].createdAt
    ensures rows[i].priority == rows[j].priority && rows[i].createdAt == rows[j].createdAt ==> i < j
  {
  }

  // ----- candidates ----------------------------------------------------------------------

  ghost predicate Reaches(a: Alert) { a.status == Pending || a.status == Sending || a.status == Delivered }

  /** An alert that keeps the candidate out. For a news event: one that reached or may reach its topic within the
      last six hours with at least its priority. For a weather event: the same, however old. For anything else: any
      alert of its rule and incident within the last half hour, unless the candidate reports a recovery. */
  ghost predicate KeepsOut(a: Alert, c: Candidate, now: int) {
    && c.incident != "" && a.incident == c.incident
    && (if c.kind == Recorded && "news-event:" <= c.incident then
          c.topic == Some(a.topic) && Reaches(a) && a.priority >= c.priority && now - a.createdAt <= 6 * 60 * 60
        else if c.kind == Recorded && "weather-event:" <= c.incident then
          c.topic == Some(a.topic) && Reaches(a) && a.priority >= c.priority
        else !c.recovery && a.rule == c.rule && a.status != Deleted && now - a.createdAt <= 30 * 60)
  }

  /** A candidate becomes an alert exactly when its route is open, no alert keeps it out and none that was not
      deleted has its key; the alert carries the candidate over and may be sent at once. */
  lemma InsertionIsExact(rows: seq<Alert>, c: Candidate, now: int)
    ensures var r := InsertAlert(rows, c, now);
      if c.topic.Some? && !(exists i :: 0 <= i < |rows| && KeepsOut(rows[i], c, now))
         && !(exists i :: 0 <= i < |rows| && rows[i].status != Deleted && rows[i].key == c.key)
      then
        && |r| == |rows| + 1 && r[..|rows|] == rows
        && var a := r[|rows|];
        && a.rule == c.rule && a.key == c.key && a.incident == c.incident && a.recovery == c.recovery
        && a.topic == c.topic.value && a.priority == c.priority && a.createdAt == now && a.reminder.None?
        && a.occurrence.None? && a.status == Pending && a.attempts == 0 && a.nextAttemptAt == now
        && a.retryStartedAt == now && a.leaseUntil == 0
      else r == rows
  {
    if i :| 0 <= i < |rows| && KeepsOut(rows[i], c, now) {
      assert Blocks(rows[i], c, now);
    }
    if Suppressed(rows, c, now) {
      var i :| 0 <= i < |rows| && Blocks(rows[i], c, now);
      assert KeepsOut(rows[i], c, now);
    }
  }
}
