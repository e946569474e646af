/** The alert outbox: one row per notification, claimed under a lease, delivered, retried or given up.
    A deleted row stays in the table with status Deleted, so that the table is also its own history. */
module Outbox {
  import opened Ordering

  datatype Status = Pending | Sending | Delivered | Dead | Cancelled | Deleted

  /** What makes an alert a duplicate: free text, or an occurrence of a reminder and the number of its repeat. */
  datatype DedupeKey = Text(text: string) | OfOccurrence(reminder: nat, at: int, repeat: nat)

  datatype Alert = Alert(rule: string, key: DedupeKey, incident: string, recovery: bool, topic: string, priority: int,
                         createdAt: int, reminder: Option<nat>, occurrence: Option<nat>,
                         status: Status, attempts: nat, nextAttemptAt: int, leaseUntil: int, retryStartedAt: int)

  predicate Live(a: Alert) { a.status == Pending || a.status == Sending || a.status == Delivered }
  predicate Undelivered(a: Alert) {
    a.status == Pending || a.status == Sending || a.status == Dead || a.status == Cancelled
  }

  predicate Taken(rows: seq<Alert>, key: DedupeKey) {
    exists i :: 0 <= i < |rows| && rows[i].status != Deleted && rows[i].key == key
  }

  /** An insertion that is ignored when the key exists. */
  function InsertUnlessTaken(rows: seq<Alert>, a: Alert): seq<Alert> { if Taken(rows, a.key) then rows else rows + [a] }

  datatype Op =
    | ClaimOp(id: nat, now: int, seconds: int)
    | DeliverOp(id: nat)
    | RetryOp(id: nat, at: int)
    | FailOp(id: nat, now: int, at: int, retryable: bool, maxAttempts: int, maxAge: int)
    | AgainOp(id: nat, now: int)  // an operator revives a dead or cancelled alert
    | CancelOp(id: nat)
    | DiscardOp(id: nat)

  predicate Claimable(a: Alert, now: int) {
    (a.status == Pending && a.nextAttemptAt <= now) || (a.status == Sending && a.leaseUntil <= now)
  }

  function FailedStatus(a: Alert, now: int, retryable: bool, maxAttempts: int, maxAge: int): Status {
    if retryable && now - a.retryStartedAt < maxAge && a.attempts < maxAttempts then Pending else Dead
  }

  function Effect(a: Alert, op: Op): Alert {
    match op
    case ClaimOp(_, now, seconds) =>
      if Claimable(a, now) then a.(status := Sending, attempts := a.attempts + 1, leaseUntil := now + seconds) else a
    case DeliverOp(_) => if a.status == Sending then a.(status := Delivered) else a
    case RetryOp(_, at) => if a.status == Sending then a.(status := Pending, nextAttemptAt := at) else a
    case FailOp(_, now, at, retryable, maxAttempts, maxAge) =>
      if a.status == Sending then a.(status := FailedStatus(a, now, retryable, maxAttempts, maxAge),
        nextAttemptAt := at) else a
    case AgainOp(_, now) =>
      if a.status == Dead || a.status == Cancelled
        then a.(status := Pending, attempts := 0, nextAttemptAt := now, retryStartedAt := now) else a
    case CancelOp(_) => if a.status == Pending then a.(status := Cancelled) else a
    case DiscardOp(_) => if a.status == Dead || a.status == Cancelled then a.(status := Deleted) else a
  }

  function Apply(rows: seq<Alert>, op: Op): (r: seq<Alert>)
    ensures |r| == |rows|
  {
    if op.id < |rows| then rows[op.id := Effect(rows[op.id], op)] else rows
  }

  /** Everything about a row that no outbox operation changes. */
  ghost predicate SameAlert(a: Alert, b: Alert) {
    b == a.(status := b.status, attempts := b.attempts, nextAttemptAt := b.nextAttemptAt, leaseUntil := b.leaseUntil,
            retryStartedAt := b.retryStartedAt)
  }

  ghost function Run(rows: seq<Alert>, ops: seq<Op>): (r: seq<Alert>)
    ensures |r| == |rows|
    decreases |ops|
  {
    if ops == [] then rows else Run(Apply(rows, ops[0]), ops[1..])
  }

  /** A delivered alert, and a deleted one, is never touched again: nothing sends it a second time. */
  lemma {:induction false} SettledIsFinal(rows: seq<Alert>, ops: seq<Op>, id: nat)
    requires id < |rows| && (rows[id].status == Delivered || rows[id].status == Deleted)
    ensures Run(rows, ops)[id] == rows[id]
    decreases |ops|
  {
    if ops != [] {
      SettledIsFinal(Apply(rows, ops[0]), ops[1..], id);
    }
  }

  /** Operations that wait for the lease: on other rows, or claims before it runs out. */
  ghost predicate Waits(op: Op, id: nat, until: int) { op.id == id ==> op.ClaimOp? && op.now < until }

  /** A claimed alert has one sender: until it reports or its lease runs out, no claim takes the row. */
  lemma {:induction false} LeaseExcludesOthers(rows: seq<Alert>, id: nat, ops: seq<Op>, now: int)
    requires id < |rows| && rows[id].status == Sending && now < rows[id].leaseUntil
    requires forall k :: 0 <= k < |ops| ==> Waits(ops[k], id, rows[id].leaseUntil)
    ensures Run(rows, ops)[id] == rows[id] && !Claimable(Run(rows, ops)[id], now)
    decreases |ops|
  {
    if ops != [] {
      assert Waits(ops[0], id, rows[id].leaseUntil);
      var r := Apply(rows, ops[0]);
      assert r[id] == rows[id];
      forall k | 0 <= k < |ops[1..]| ensures Waits(ops[1..][k], id, r[id].leaseUntil) {
        assert ops[1..][k] == ops[k + 1];
      }
      LeaseExcludesOthers(r, id, ops[1..], now);
    }
  }

  /** Higher priority first, then the older, then the smaller id. */
  predicate Precedes(rows: seq<Alert>, i: nat, j: nat)
    requires i < |rows| && j < |rows|
  {
    var a, b := rows[i], rows[j];
    a.priority > b.priority
    || (a.priority == b.priority && (a.createdAt < b.createdAt || (a.createdAt == b.createdAt && i <= j)))
  }

  class AlertTable {
    var rows: seq<Alert>

    constructor ()
      ensures rows == []
    {
      rows := [];
    }

    /** Claims the first claimable row in delivery order. */
    method ClaimDueAlert(now: int, seconds: int) returns (r: Option<nat>)
      modifies this
      ensures r.None? ==> rows == old(rows) && forall i :: 0 <= i < |rows| ==> !Claimable(rows[i], now)
      ensures r.Some? ==>
        && r.value < |old(rows)| && Claimable(old(rows)[r.value], now)
        && (forall i :: 0 <= i < |old(rows)| && Claimable(old(rows)[i], now) ==>
              var a, b := old(rows)[r.value], old(rows)[i];
              || a.priority > b.priority
              || (a.priority == b.priority && a.createdAt < b.createdAt)
              || (a.priority == b.priority && a.createdAt == b.createdAt && r.value <= i))
        && rows == Apply(old(rows), ClaimOp(r.value, now, seconds))
    {
      r := None;
      for i := 0 to |rows|
        invariant rows == old(rows)
        invariant r.None? ==> forall j :: 0 <= j < i ==> !Claimable(rows[j], now)
        invariant r.Some? ==> r.value < i && Claimable(rows[r.value], now)
        invariant r.Some? ==> forall j :: 0 <= j < i && Claimable(rows[j], now) ==> Precedes(rows, r.value, j)
      {
        if Claimable(rows[i], now) && (r.None? || !Precedes(rows, r.value, i)) {
          r := Some(i);
        }
      }
      if r.Some? {
        var a := rows[r.value];
        rows := rows[r.value := a.(status := Sending, attempts := a.attempts + 1, leaseUntil := now + seconds)];
      }
    }

    method MarkRetry(id: nat, at: int)
      modifies this
      ensures rows == Apply(old(rows), RetryOp(id, at))
    {
      if id < |rows| && rows[id].status == Sending {
        rows := rows[id := rows[id].(status := Pending, nextAttemptAt := at)];
      }
    }

    /** The state selected for a failed delivery; None when the row is not being sent. */
    method MarkDeliveryFailure(id: nat, now: int, at: int, retryable: bool, maxAttempts: int, maxAge: int)
        returns (r: Option<Status>)
      modifies this
      ensures rows == Apply(old(rows), FailOp(id, now, at, retryable, maxAttempts, maxAge))
      ensures r.Some? <==> id < |old(rows)| && old(rows)[id].status == Sending
      ensures r.Some? ==> r.value == rows[id].status
      ensures r == Some(Pending) ==>
        retryable && old(rows)[id].attempts < maxAttempts && now < old(rows)[id].retryStartedAt + maxAge
    {
      if id >= |rows| || rows[id].status != Sending {
        return None;
      }
      var expired := now - rows[id].retryStartedAt >= maxAge;
      var exhausted := rows[id].attempts >= maxAttempts;
      var status := if retryable && !expired && !exhausted then Pending else Dead;
      rows := rows[id := rows[id].(status := status, nextAttemptAt := at)];
      return Some(status);
    }

    method RetryAlert(id: nat, now: int) returns (done: bool)
      modifies this
      ensures rows == Apply(old(rows), AgainOp(id, now))
      ensures done <==> rows != old(rows)
    {
      done := id < |rows| && (rows[id].status == Dead || rows[id].status == Cancelled);
      if done {
        ghost var before := rows;
        rows := rows[id := rows[id].(status := Pending, attempts := 0, nextAttemptAt := now, retryStartedAt := now)];
        assert rows[id] != before[id];
      }
    }

    method CancelAlert(id: nat) returns (done: bool)
      modifies this
      ensures rows == Apply(old(rows), CancelOp(id))
      ensures done <==> rows != old(rows)
    {
      done := id < |rows| && rows[id].status == Pending;
      if done {
        ghost var before := rows;
        rows := rows[id := rows[id].(status := Cancelled)];
        assert rows[id] != before[id];
      }
    }

    method DiscardAlert(id: nat) returns (done: bool)
      modifies this
      ensures rows == Apply(old(rows), DiscardOp(id))
      ensures done <==> rows != old(rows)
    {
      done := id < |rows| && (rows[id].status == Dead || rows[id].status == Cancelled);
      if done {
        ghost var before := rows;
        rows := rows[id := rows[id].(status := Deleted)];
        assert rows[id] != before[id];
      }
    }
  }
}
