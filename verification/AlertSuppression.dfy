/** Which alert candidates reach the outbox, and what that keeps over whole runs of insertions, deliveries
    and cancellations. */
module AlertSuppression {
  import opened Ordering
  import opened Outbox

  datatype IncidentKind = Recorded | Stateful

  /** A candidate after routing; `topic` is None when its route is muted. An empty incident key means none. */
  datatype Candidate = Candidate(rule: string, key: DedupeKey, incident: string, kind: IncidentKind, recovery: bool,
                                 topic: Option<string>, priority: int)

  const NEWS := "news-event:"
  const WEATHER := "weather-event:"
  const NEWS_WINDOW := 21600
  const RULE_WINDOW := 1800

  predicate News(incident: string) { NEWS <= incident }
  predicate Weather(incident: string) { WEATHER <= incident }

  /** An alert that suppresses a candidate of no higher priority. */
  predicate Blocks(a: Alert, c: Candidate, now: int) {
    if c.kind == Recorded && News(c.incident) then
      a.incident == c.incident && Some(a.topic) == c.topic && a.createdAt >= now - NEWS_WINDOW && Live(a)
        && a.priority >= c.priority
    else if c.kind == Recorded && Weather(c.incident) then
      a.incident == c.incident && Some(a.topic) == c.topic && Live(a) && a.priority >= c.priority
    else
      !c.recovery && a.rule == c.rule && a.incident == c.incident && a.createdAt >= now - RULE_WINDOW
        && a.status != Deleted
  }

  predicate Suppressed(rows: seq<Alert>, c: Candidate, now: int) {
    c.incident != "" && exists i :: 0 <= i < |rows| && Blocks(rows[i], c, now)
  }

  function RowOf(c: Candidate, now: int): Alert
    requires c.topic.Some?
  {
    Alert(c.rule, c.key, c.incident, c.recovery, c.topic.value, c.priority, now, None, None, Pending, 0, now, 0, now)
  }

  function InsertAlert(rows: seq<Alert>, c: Candidate, now: int): seq<Alert> {
    if c.topic.None? || Suppressed(rows, c, now) then rows else InsertUnlessTaken(rows, RowOf(c, now))
  }

  /** Rules give priorities from 1 to 5, and news and weather identities only to recorded events. */
  predicate WellFormed(c: Candidate) {
    1 <= c.priority <= 5 && (News(c.incident) || Weather(c.incident) ==> c.kind == Recorded)
  }

  // ----- what the table keeps ------------------------------------------------------------

  ghost predicate SameStory(a: Alert, b: Alert) { a.incident == b.incident && a.topic == b.topic && Live(a) && Live(b) }

  /** Of two live alerts of a weather incident on a topic the later has the higher priority. */
  ghost predicate Rises(rows: seq<Alert>, i: nat, j: nat)
    requires i < |rows| && j < |rows|
  {
    Weather(rows[i].incident) && SameStory(rows[i], rows[j]) ==> rows[i].priority < rows[j].priority
  }

  /** The same for news, between alerts at most six hours apart. */
  ghost predicate RisesSoon(rows: seq<Alert>, i: nat, j: nat)
    requires i < |rows| && j < |rows|
  {
    News(rows[i].incident) && SameStory(rows[i], rows[j]) && rows[i].createdAt >= rows[j].createdAt - NEWS_WINDOW ==>
      rows[i].priority < rows[j].priority
  }

  /** Any other incident: half an hour passes before a rule repeats itself, unless it reports a recovery. */
  ghost predicate Spaced(rows: seq<Alert>, i: nat, j: nat)
    requires i < |rows| && j < |rows|
  {
    var a, b := rows[i], rows[j];
    a.rule == b.rule && a.incident == b.incident && b.incident != "" && !News(b.incident) && !Weather(b.incident)
      && !b.recovery
    && a.status != Deleted && b.status != Deleted ==>
      a.createdAt < b.createdAt - RULE_WINDOW
  }

  ghost predicate WeatherRises(rows: seq<Alert>) { forall i: nat, j: nat :: i < j < |rows| ==> Rises(rows, i, j) }
  ghost predicate NewsRises(rows: seq<Alert>) { forall i: nat, j: nat :: i < j < |rows| ==> RisesSoon(rows, i, j) }
  ghost predicate RulesSpaced(rows: seq<Alert>) { forall i: nat, j: nat :: i < j < |rows| ==> Spaced(rows, i, j) }
  ghost predicate PrioritiesInRange(rows: seq<Alert>) { forall i :: 0 <= i < |rows| ==> 1 <= rows[i].priority <= 5 }

  ghost predicate Invariant(rows: seq<Alert>) {
    WeatherRises(rows) && NewsRises(rows) && RulesSpaced(rows) && PrioritiesInRange(rows)
  }

  lemma InsertKeeps(rows: seq<Alert>, c: Candidate, now: int)
    requires Invariant(rows) && WellFormed(c)
    ensures Invariant(InsertAlert(rows, c, now))
  {
    var r := InsertAlert(rows, c, now);
    if r != rows {
      var n := |rows|;
      assert r == rows + [RowOf(c, now)];
      forall i: nat, j: nat | i < j < |r| ensures Rises(r, i, j) && RisesSoon(r, i, j) && Spaced(r, i, j) {
        assert r[i] == rows[i];
        if j < n {
          assert r[j] == rows[j];
          assert Rises(rows, i, j) && RisesSoon(rows, i, j) && Spaced(rows, i, j);
        } else {
          assert c.incident != "" ==> !Blocks(rows[i], c, now);
          PrefixesDiffer(c.incident);
        }
      }
    }
  }

  lemma PrefixesDiffer(incident: string)
    ensures !(News(incident) && Weather(incident))
  {
    if News(incident) {
      assert incident[0] == NEWS[0] != WEATHER[0];
    }
  }

  lemma OpKeeps(rows: seq<Alert>, op: Op)
    requires Invariant(rows) && !op.AgainOp?
    ensures Invariant(Apply(rows, op))
  {
    var r := Apply(rows, op);
    assert forall i :: 0 <= i < |rows| ==>
      SameAlert(rows[i], r[i]) && (Live(r[i]) ==> Live(rows[i]))
      && (rows[i].status == Deleted ==> r[i].status == Deleted);
    forall i: nat, j: nat | i < j < |r| ensures Rises(r, i, j) && RisesSoon(r, i, j) && Spaced(r, i, j) {
      assert Rises(rows, i, j) && RisesSoon(rows, i, j) && Spaced(rows, i, j);
    }
  }

  // ----- the operator's retry ------------------------------------------------------------

  ghost predicate SamePlace(a: Alert, b: Alert) { Live(a) && a.incident == b.incident && a.topic == b.topic }

  /** The rule for the incident of `later` speaks of the two. */
  ghost predicate Compared(earlier: Alert, later: Alert) {
    Weather(later.incident) || (News(later.incident) && earlier.createdAt >= later.createdAt - NEWS_WINDOW)
  }

  /** The revived alert would stand in its place among the live alerts of its incident and topic: below it only
      lower priorities, above it only higher ones. For news only alerts at most six hours apart matter, for
      incidents that are neither nothing does. */
  ghost predicate Fits(rows: seq<Alert>, id: nat)
    requires id < |rows|
  {
    var a := rows[id];
    && (forall i: nat :: i < id && SamePlace(rows[i], a) && Compared(rows[i], a) ==> rows[i].priority < a.priority)
    && (forall j: nat :: id < j < |rows| && SamePlace(rows[j], a) && Compared(a, rows[j]) ==>
      a.priority < rows[j].priority)
  }

  lemma FittingRevivalKeeps(rows: seq<Alert>, id: nat, now: int)
    requires Invariant(rows) && id < |rows| && Fits(rows, id)
    ensures Invariant(Apply(rows, AgainOp(id, now)))
  {
    var r := Apply(rows, AgainOp(id, now));
    assert forall i :: 0 <= i < |rows| && i != id ==> r[i] == rows[i];
    assert SameAlert(rows[id], r[id]) && (r[id].status != Deleted ==> rows[id].status != Deleted);
    forall i: nat, j: nat | i < j < |r| ensures Rises(r, i, j) && RisesSoon(r, i, j) && Spaced(r, i, j) {
      assert Rises(rows, i, j) && RisesSoon(rows, i, j) && Spaced(rows, i, j);
    }
  }

  lemma MisfitBreaks(rows: seq<Alert>, id: nat, now: int)
    requires id < |rows| && (rows[id].status == Dead || rows[id].status == Cancelled)
    requires Invariant(Apply(rows, AgainOp(id, now)))
    ensures Fits(rows, id)
  {
    var r := Apply(rows, AgainOp(id, now));
    assert forall i :: 0 <= i < |rows| && i != id ==> r[i] == rows[i];
    forall i: nat | i < id && SamePlace(rows[i], rows[id]) && Compared(rows[i], rows[id])
      ensures rows[i].priority < rows[id].priority {
      assert Rises(r, i, id) && RisesSoon(r, i, id);
    }
    forall j: nat | id < j < |rows| && SamePlace(rows[j], rows[id]) && Compared(rows[id], rows[j])
      ensures rows[id].priority < rows[j].priority {
      assert Rises(r, id, j) && RisesSoon(r, id, j);
    }
  }

  /** An operator's retry keeps the suppression rules exactly when the alert still fits; nothing in the operation
      checks that. */
  lemma RevivalKeepsRulesIff(rows: seq<Alert>, id: nat, now: int)
    requires Invariant(rows) && id < |rows| && (rows[id].status == Dead || rows[id].status == Cancelled)
    ensures Invariant(Apply(rows, AgainOp(id, now))) <==> Fits(rows, id)
  {
    if Fits(rows, id) { FittingRevivalKeeps(rows, id, now); }
    if Invariant(Apply(rows, AgainOp(id, now))) { MisfitBreaks(rows, id, now); }
  }

  // ----- whole runs ----------------------------------------------------------------------

  datatype Step = InsertStep(candidate: Candidate, now: int) | OutboxStep(op: Op)

  function Next(rows: seq<Alert>, step: Step): seq<Alert> {
    match step
    case InsertStep(c, now) => InsertAlert(rows, c, now)
    case OutboxStep(op) => Apply(rows, op)
  }

  ghost function Run(rows: seq<Alert>, steps: seq<Step>): seq<Alert>
    decreases |steps|
  {
    if steps == [] then rows else Run(Next(rows, steps[0]), steps[1..])
  }

  /** Candidates are well formed, and an operator revives only what still fits. */
  ghost predicate Allowed(rows: seq<Alert>, step: Step) {
    if step.InsertStep? then WellFormed(step.candidate)
    else step.op.AgainOp? && step.op.id < |rows| ==> Fits(rows, step.op.id)
  }

  ghost predicate AllowedRun(rows: seq<Alert>, steps: seq<Step>)
    decreases |steps|
  {
    steps == [] || (Allowed(rows, steps[0]) && AllowedRun(Next(rows, steps[0]), steps[1..]))
  }

  lemma StepKeeps(rows: seq<Alert>, step: Step)
    requires Invariant(rows) && Allowed(rows, step)
    ensures Invariant(Next(rows, step))
  {
    if step.InsertStep? {
      InsertKeeps(rows, step.candidate, step.now);
    } else if !step.op.AgainOp? {
      OpKeeps(rows, step.op);
    } else if step.op.id < |rows| {
      FittingRevivalKeeps(rows, step.op.id, step.op.now);
    }
  }

  /** Over any run in which operators revive only alerts that still fit, live weather alerts rise strictly in
      priority, so do news alerts within six hours, and other rules keep their distance; the clock may do as
      it likes. */
  lemma {:induction false} RunKeepsInvariant(rows: seq<Alert>, steps: seq<Step>)
    requires Invariant(rows) && AllowedRun(rows, steps)
    ensures Invariant(Run(rows, steps))
    decreases |steps|
  {
    if steps != [] {
      StepKeeps(rows, steps[0]);
      RunKeepsInvariant(Next(rows, steps[0]), steps[1..]);
    }
  }

  ghost function LiveOf(rows: seq<Alert>, incident: string, topic: string): set<nat> {
    set i: nat | i < |rows| && rows[i].incident == incident && rows[i].topic == topic && Live(rows[i])
  }

  lemma RisingIsDistinct(rows: seq<Alert>, incident: string, topic: string, i: nat, j: nat)
    requires WeatherRises(rows) && Weather(incident)
    requires i in LiveOf(rows, incident, topic) && j in LiveOf(rows, incident, topic) && i < j
    ensures rows[i].priority < rows[j].priority
  {
    assert Rises(rows, i, j);
  }

  /** Hence a weather incident has at most five live alerts on a topic, whatever happened before. */
  lemma AtMostFiveWeatherAlerts(steps: seq<Step>, incident: string, topic: string)
    requires Weather(incident) && AllowedRun([], steps)
    ensures |LiveOf(Run([], steps), incident, topic)| <= 5
  {
    RunKeepsInvariant([], steps);
    AtMostFive(Run([], steps), incident, topic);
  }

  lemma AtMostFive(rows: seq<Alert>, incident: string, topic: string)
    requires WeatherRises(rows) && PrioritiesInRange(rows) && Weather(incident)
    ensures |LiveOf(rows, incident, topic)| <= 5
  {
    var ids := LiveOf(rows, incident, topic);
    forall i, j | i in ids && j in ids && i != j ensures rows[i].priority != rows[j].priority {
      if i < j {
        RisingIsDistinct(rows, incident, topic, i, j);
      } else {
        RisingIsDistinct(rows, incident, topic, j, i);
      }
    }
    OneToOneBound(ids, (i: nat) => if i < |rows| then rows[i].priority - 1 else 0, 5);
  }

  /** Suppression silences nothing that matters: after a weather candidate was handled on an open route, a live
      alert of its incident, on its topic, has at least its priority, or its key belongs to an earlier alert. */
  lemma WarningIsCovered(rows: seq<Alert>, c: Candidate, now: int)
    requires WellFormed(c) && Weather(c.incident) && c.topic.Some?
    ensures var r := InsertAlert(rows, c, now);
      Taken(rows, c.key) || exists i ::
        0 <= i < |r| && Live(r[i]) && r[i].incident == c.incident && Some(r[i].topic) == c.topic
        && r[i].priority >= c.priority
  {
    PrefixesDiffer(c.incident);
    var r := InsertAlert(rows, c, now);
    if Suppressed(rows, c, now) {
      var i :| 0 <= i < |rows| && Blocks(rows[i], c, now);
      assert Live(r[i]);
    } else if !Taken(rows, c.key) {
      assert Live(r[|rows|]);
    }
  }

  // ----- runs that break the rules -------------------------------------------------------

  lemma RunOfFour(rows: seq<Alert>, a: Step, b: Step, c: Step, d: Step)
    ensures Run(rows, [a, b, c, d]) == Next(Next(Next(Next(rows, a), b), c), d)
  {
    var steps := [a, b, c, d];
    assert steps[1..] == [b, c, d] && steps[1..][1..] == [c, d] && steps[1..][1..][1..] == [d]
      && steps[1..][1..][1..][1..] == [];
    var one := Next(rows, a);
    var two := Next(one, b);
    var three := Next(two, c);
    assert Run(rows, steps) == Run(one, steps[1..]) == Run(two, steps[1..][1..]);
    assert Run(two, [c, d]) == Run(three, steps[1..][1..][1..]);
    assert Run(three, [d]) == Run(Next(three, d), steps[1..][1..][1..][1..]);
  }

  /** A cancelled warning or news alert, issued again and then revived: every rule holds before the retry, and
      after it two live alerts of one story have the same priority. */
  lemma RevivalCanRepeatAnAlert(c: Candidate, other: DedupeKey, now: int)
    requires WellFormed(c) && (Weather(c.incident) || News(c.incident)) && c.topic.Some? && other != c.key
    ensures var before := Next(Next(Next([], InsertStep(c, now)), OutboxStep(CancelOp(0))),
      InsertStep(c.(key := other), now));
      var rows := Run([], [InsertStep(c, now), OutboxStep(CancelOp(0)), InsertStep(c.(key := other), now),
        OutboxStep(AgainOp(0, now))]);
      && Invariant(before) && |rows| == 2 && SameStory(rows[0], rows[1]) && rows[0].priority == rows[1].priority
      && (Weather(c.incident) ==> !WeatherRises(rows)) && (News(c.incident) ==> !NewsRises(rows))
  {
    PrefixesDiffer(c.incident);
    var first := InsertAlert([], c, now);
    assert first == [RowOf(c, now)];
    var cancelled := Apply(first, CancelOp(0));
    var second := InsertAlert(cancelled, c.(key := other), now);
    assert second == cancelled + [RowOf(c.(key := other), now)];
    InsertKeeps([], c, now);
    OpKeeps(first, CancelOp(0));
    InsertKeeps(cancelled, c.(key := other), now);
    RunOfFour([], InsertStep(c, now), OutboxStep(CancelOp(0)), InsertStep(c.(key := other), now),
      OutboxStep(AgainOp(0, now)));
    var revived := Apply(second, AgainOp(0, now));
    assert !Rises(revived, 0, 1) || !RisesSoon(revived, 0, 1);
  }

  // ----- the transaction over the table --------------------------------------------------

  class AlertDatabase {
    const table: AlertTable

    constructor (table: AlertTable)
      ensures this.table == table
    {
      this.table := table;
    }

    /** The highest priority among the live alerts of an incident on a topic, created no earlier than `since`. */
    method HighestPriority(incident: string, topic: string, since: Option<int>) returns (highest: Option<int>)
      ensures highest.None? <==> forall i :: 0 <= i < |table.rows| ==> !Counts(table.rows[i], incident, topic, since)
      ensures highest.Some? ==>
        && (exists i ::
          0 <= i < |table.rows| && Counts(table.rows[i], incident, topic, since)
          && table.rows[i].priority == highest.value)
        && (forall i :: 0 <= i < |table.rows| && Counts(table.rows[i], incident, topic, since) ==>
          table.rows[i].priority <= highest.value)
    {
      highest := None;
      for k := 0 to |table.rows|
        invariant highest.None? <==> forall i :: 0 <= i < k ==> !Counts(table.rows[i], incident, topic, since)
        invariant highest.Some? ==>
          exists i ::
            0 <= i < k && Counts(table.rows[i], incident, topic, since)
            && table.rows[i].priority == highest.value
        invariant highest.Some? ==> forall i :: 0 <= i < k && Counts(table.rows[i], incident, topic, since) ==>
          table.rows[i].priority <= highest.value
      {
        if Counts(table.rows[k], incident, topic, since) && (highest.None? || highest.value < table.rows[k].priority) {
          highest := Some(table.rows[k].priority);
        }
      }
    }

    /** Inserts a candidate's alert unless its route is muted, an alert of its incident suppresses it, or its
        key exists. */
    method InsertCandidate(c: Candidate, now: int) returns (inserted: bool)
      modifies table
      ensures table.rows == InsertAlert(old(table.rows), c, now)
      ensures inserted <==> c.topic.Some? && !Suppressed(old(table.rows), c, now) && !Taken(old(table.rows), c.key)
    {
      if c.topic.None? {
        return false;
      }
      if c.incident != "" {
        if c.kind == Recorded && News(c.incident) {
          var highest := HighestPriority(c.incident, c.topic.value, Some(now - NEWS_WINDOW));
          if highest.Some? && highest.value >= c.priority {
            return false;
          }
        } else if c.kind == Recorded && Weather(c.incident) {
          var highest := HighestPriority(c.incident, c.topic.value, None);
          if highest.Some? && highest.value >= c.priority {
            return false;
          }
        } else if !c.recovery {
          for i := 0 to |table.rows|
            invariant forall j :: 0 <= j < i ==> !Blocks(table.rows[j], c, now)
          {
            if Blocks(table.rows[i], c, now) {
              return false;
            }
          }
        }
      }
      assert !Suppressed(table.rows, c, now);
      if Taken(table.rows, c.key) {
        return false;
      }
      table.rows := table.rows + [RowOf(c, now)];
      return true;
    }
  }

  predicate Counts(a: Alert, incident: string, topic: string, since: Option<int>) {
    a.incident == incident && a.topic == topic && Live(a) && (since.Some? ==> a.createdAt >= since.value)
  }
}
