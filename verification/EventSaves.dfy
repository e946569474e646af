/** What a saved projection does to every row, when it is refused, and what stays so over whole runs. */
module EventSaves {
  import opened Ordering
  import opened EventStore

  // ----- relation updates ----------------------------------------------------------------

  /** Some update names the report at the position. */
  ghost predicate NamedBy(updates: seq<Update>, i: nat) {
    exists k :: 0 <= k < |updates| && updates[k].reportId == Some(i)
  }

  /** The update asks to corroborate a secondary context report of the event. */
  ghost predicate Sensible(reports: seq<ReportRow>, u: Update, eventKey: string) {
    && u.corroborates && u.reportId.Some? && u.reportId.value < |reports|
    && var row := reports[u.reportId.value];
      row.eventKey == eventKey && row.tier == Secondary && row.relation == Contextual
  }

  ghost predicate NamesDiffer(updates: seq<Update>) {
    forall k, l :: 0 <= k < l < |updates| ==> updates[k].reportId != updates[l].reportId
  }

  /** Updates are all applied exactly when each asks to corroborate a different secondary context report of the
      event; then just those reports corroborate. */
  lemma {:induction false} UpdatesApplyIff(reports: seq<ReportRow>, updates: seq<Update>, eventKey: string)
    ensures Promoted(reports, updates, eventKey).Some? <==>
      NamesDiffer(updates) && forall k :: 0 <= k < |updates| ==> Sensible(reports, updates[k], eventKey)
    ensures Promoted(reports, updates, eventKey).Some? ==>
      forall i :: 0 <= i < |reports| ==>
        Promoted(reports, updates, eventKey).value[i].relation ==
          if NamedBy(updates, i) then Corroborating else reports[i].relation
    decreases |updates|
  {
    if updates != [] && Promotable(reports, updates[0], eventKey) {
      var id, rest := updates[0].reportId.value, updates[1..];
      var next := PromoteOne(reports, id);
      UpdatesApplyIff(next, rest, eventKey);
      RestIsSensible(reports, next, updates, eventKey);
      forall i: nat ensures NamedBy(updates, i) <==> i == id || NamedBy(rest, i) { NamedByOne(updates, i); }
    } else if updates != [] {
      assert !Sensible(reports, updates[0], eventKey);
    }
  }

  lemma NamedByOne(updates: seq<Update>, i: nat)
    requires updates != []
    ensures NamedBy(updates, i) <==> updates[0].reportId == Some(i) || NamedBy(updates[1..], i)
  {
    if NamedBy(updates, i) && updates[0].reportId != Some(i) {
      var k :| 0 <= k < |updates| && updates[k].reportId == Some(i);
      assert updates[1..][k - 1] == updates[k];
    }
    if NamedBy(updates[1..], i) {
      var k :| 0 <= k < |updates[1..]| && updates[1..][k].reportId == Some(i);
      assert updates[k + 1] == updates[1..][k];
    }
  }

  ghost predicate AllSensible(reports: seq<ReportRow>, updates: seq<Update>, eventKey: string) {
    forall k :: 0 <= k < |updates| ==> Sensible(reports, updates[k], eventKey)
  }

  lemma RestIsSensible(reports: seq<ReportRow>, next: seq<ReportRow>, updates: seq<Update>, eventKey: string)
    requires updates != [] && Sensible(reports, updates[0], eventKey)
    requires next == PromoteOne(reports, updates[0].reportId.value)
    ensures NamesDiffer(updates) && AllSensible(reports, updates, eventKey) <==>
      NamesDiffer(updates[1..]) && AllSensible(next, updates[1..], eventKey)
  {
    var rest := updates[1..];
    if NamesDiffer(updates) && AllSensible(reports, updates, eventKey) {
      forall k | 0 <= k < |rest| ensures Sensible(next, rest[k], eventKey) {
        assert rest[k] == updates[k + 1] && Sensible(reports, updates[k + 1], eventKey);
        assert updates[0].reportId != updates[k + 1].reportId;
      }
    }
    if NamesDiffer(rest) && AllSensible(next, rest, eventKey) {
      forall k | 0 <= k < |updates| ensures Sensible(reports, updates[k], eventKey) {
        if k > 0 { assert rest[k - 1] == updates[k] && Sensible(next, rest[k - 1], eventKey); }
      }
      forall k, l | 0 <= k < l < |updates| ensures updates[k].reportId != updates[l].reportId {
        assert rest[l - 1] == updates[l] && Sensible(next, rest[l - 1], eventKey);
        if k > 0 { assert rest[k - 1] == updates[k]; }
      }
    }
  }

  // ----- the answer ----------------------------------------------------------------------

  ghost predicate Mismatched(p: Projection) {
    || p.report.eventKey != p.eventKey
    || exists k :: 0 <= k < |p.relationUpdates| && p.relationUpdates[k].eventKey != p.eventKey
  }

  /** The occurrence belongs to another event, or the event has another occurrence. */
  ghost predicate Occupied(st: Store, p: Projection) {
    p.occurrence.Some? && exists k :: k in st.occurrences
                                      && (k == p.occurrence.value) != (st.occurrences[k] == p.eventKey)
  }

  ghost predicate Assigned(st: Store, observationId: int) {
    exists i :: 0 <= i < |st.reports| && st.reports[i].observationId == observationId
  }

  /** A projection is saved exactly when its identities match, its occurrence is free or bound to this very event,
      its observation is stored under this source and was not assigned before, the event was not merged away, and
      its updates apply to the reports there will be. */
  lemma SavedIff(st: Store, p: Projection)
    requires Observed(st)
    ensures Save(st, p).1.Saved? <==>
      && !Mismatched(p) && !Occupied(st, p) && !Assigned(st, p.report.observationId) && p.eventKey !in st.merged
      && p.report.observationId in st.observations
      && st.observations[p.report.observationId].sourceId == p.report.sourceId
      && NamesDiffer(p.relationUpdates) && AllSensible(Attached(st.reports, p.report), p.relationUpdates, p.eventKey)
  {
    UpdatesApplyIff(Attached(st.reports, p.report), p.relationUpdates, p.eventKey);
    MismatchIff(p);
    OccupiedIff(st, p);
    AssignedIff(st, p.report.observationId);
  }

  lemma MismatchIff(p: Projection)
    ensures Mismatched(p) <==>
      p.report.eventKey != p.eventKey || exists u :: u in p.relationUpdates && u.eventKey != p.eventKey
  {
    if u :| u in p.relationUpdates && u.eventKey != p.eventKey {
      var k :| 0 <= k < |p.relationUpdates| && p.relationUpdates[k] == u;
    }
  }

  lemma OccupiedIff(st: Store, p: Projection)
    ensures Occupied(st, p) <==>
      && p.occurrence.Some?
      && (|| (p.occurrence.value in st.occurrences && st.occurrences[p.occurrence.value] != p.eventKey)
          || exists k :: k in st.occurrences && st.occurrences[k] == p.eventKey && k != p.occurrence.value)
  {
  }

  lemma AssignedIff(st: Store, observationId: int)
    ensures Assigned(st, observationId) <==> AssignedAt(st.reports, observationId, 0) < |st.reports|
  {
  }

  /** Every answer but a save leaves all tables as they were; an observation assigned before is answered with its
      first report, after the checks of identities and occurrences. */
  lemma RefusalIsExact(st: Store, p: Projection)
    requires Observed(st) && !Save(st, p).1.Saved?
    ensures var (s, outcome) := Save(st, p);
      && s == st
      && (Mismatched(p) ==> outcome in {IdentityMismatch, UpdateMismatch})
      && (!Mismatched(p) && Occupied(st, p) ==> outcome in {OccurrenceTaken, EventHasOtherOccurrence})
      && (!Mismatched(p) && !Occupied(st, p) && Assigned(st, p.report.observationId) ==>
            && outcome.AlreadyAssigned? && outcome.id < |st.reports|
            && st.reports[outcome.id].observationId == p.report.observationId)
  {
    MismatchIff(p);
    OccupiedIff(st, p);
    AssignedIff(st, p.report.observationId);
  }

  // ----- the rows ------------------------------------------------------------------------

  /** A saved occurrence is bound to the event, and no other binding changes. */
  lemma OccurrenceIsBound(st: Store, p: Projection)
    requires Observed(st) && Save(st, p).1.Saved?
    ensures var s := Save(st, p).0;
      && (p.occurrence.Some? ==> p.occurrence.value in s.occurrences && s.occurrences[p.occurrence.value] == p.eventKey)
      && (forall k :: k in st.occurrences ==> k in s.occurrences && s.occurrences[k] == st.occurrences[k])
      && (forall k :: k in s.occurrences ==> k in st.occurrences || p.occurrence == Some(k))
  {
  }

  /** The saved report comes last; older rows of its source in its event stop being representative, the reports the
      updates name corroborate, and nothing else about any row changes. */
  lemma RowsAreExact(st: Store, p: Projection)
    requires Observed(st) && Save(st, p).1.Saved?
    ensures var s := Save(st, p).0; var n := |st.reports|;
      && |s.reports| == n + 1 && Save(st, p).1 == Saved(n)
      && (forall i :: 0 <= i <= n ==>
            var row := if i < n then st.reports[i] else p.report;
            && s.reports[i] == row.(relation := s.reports[i].relation, representative := s.reports[i].representative)
            && s.reports[i].relation == (if NamedBy(p.relationUpdates, i) then Corroborating else row.relation)
            && s.reports[i].representative ==
                 (row.representative
                  && !(i < n && p.report.representative && row.eventKey == p.eventKey
                       && row.sourceId == p.report.sourceId)))
  {
    SavedIsPromoted(st, p);
    UpdatesApplyIff(Attached(st.reports, p.report), p.relationUpdates, p.eventKey);
  }

  lemma SavedIsPromoted(st: Store, p: Projection)
    requires Observed(st) && Save(st, p).1.Saved?
    ensures var promoted := Promoted(Attached(st.reports, p.report), p.relationUpdates, p.eventKey);
      promoted.Some? && Save(st, p).0.reports == promoted.value && Save(st, p).1 == Saved(|st.reports|)
  {
  }

  /** How a report names its source: by the publisher of its observation, or failing that by its source. */
  function NameOf(st: Store, r: ReportRow): string
    requires r.observationId in st.observations
  {
    if st.observations[r.observationId].publisher == "" then r.sourceId else st.observations[r.observationId].publisher
  }

  /** The number of differently named sources of an event's reports. */
  ghost predicate CountsSources(st: Store, key: string, count: nat)
    requires Observed(st)
  {
    exists names: set<string> ::
      && |names| == count
      && forall x :: x in names <==> exists i :: 0 <= i < |st.reports| && st.reports[i].eventKey == key
                                                 && st.reports[i] in st.reports && NameOf(st, st.reports[i]) == x
  }

  lemma PublishersAreNames(st: Store, key: string)
    requires Observed(st)
    ensures CountsSources(st, key, |Publishers(st, key)|)
  {
    var names := Publishers(st, key);
    forall x ensures x in names <==> exists i :: 0 <= i < |st.reports| && st.reports[i].eventKey == key
                                                 && st.reports[i] in st.reports && NameOf(st, st.reports[i]) == x {
      if x in names {
        var r :| r in st.reports && r.eventKey == key && PublisherOf(st, r) == x;
        var i :| 0 <= i < |st.reports| && st.reports[i] == r;
      }
    }
  }

  /** In every valid store each event's row counts its differently named sources. */
  lemma SourcesAreCounted(st: Store, key: string)
    requires Valid(st) && key in st.events
    ensures CountsSources(st, key, st.events[key].sourceCount)
  {
    PublishersAreNames(st, key);
    assert Exact(st, key);
  }

  /** Only the row of the event changes: its bounds reach out to the request's, its score and topics become those of
      the request. */
  lemma EventRowIsExact(st: Store, p: Projection)
    requires Observed(st) && Save(st, p).1.Saved?
    ensures var s := Save(st, p).0;
      && s.observations == st.observations && s.merged == st.merged
      && s.events.Keys == st.events.Keys + {p.eventKey}
      && (forall k :: k in st.events && k != p.eventKey ==> s.events[k] == st.events[k])
      && var row := s.events[p.eventKey];
      && row.score == p.score && row.topics == p.topics
      && (p.eventKey !in st.events ==> row.firstSeen == p.firstSeen && row.lastSeen == p.lastSeen)
      && (p.eventKey in st.events ==>
            var was := st.events[p.eventKey];
            && row.firstSeen == (if was.firstSeen < p.firstSeen then was.firstSeen else p.firstSeen)
            && row.lastSeen == (if was.lastSeen > p.lastSeen then was.lastSeen else p.lastSeen))
  {
    SavedRows(st, p);
  }

  // ----- whole runs ----------------------------------------------------------------------

  ghost predicate Bound(st: Store, x: string, key: string) { x in st.occurrences && st.occurrences[x] == key }

  lemma StepKeepsBinding(sys: System, step: Step, x: string, key: string)
    requires Observed(sys.store) && Bound(sys.store, x, key)
    ensures Bound(Next(sys, step).store, x, key)
  {
    if step.Write? && step.projector in sys.drafts {
      var p := Request(sys.drafts[step.projector], step.relationUpdates, step.occurrence);
      if Save(sys.store, p).1.Saved? {
        OccurrenceIsBound(sys.store, p);
      } else {
        assert Save(sys.store, p).0 == sys.store;
      }
    }
  }

  /** Once bound, an occurrence belongs to its event for good. */
  lemma {:induction false} RunKeepsBinding(sys: System, steps: seq<Step>, x: string, key: string)
    requires Invariant(sys) && Bound(sys.store, x, key)
    ensures Bound(Run(sys, steps).store, x, key)
    decreases |steps|
  {
    if steps != [] {
      StepKeepsInvariant(sys, steps[0]);
      StepKeepsBinding(sys, steps[0], x, key);
      RunKeepsBinding(Next(sys, steps[0]), steps[1..], x, key);
    }
  }

  lemma TakenElsewhere(st: Store, x: string, key: string, later: Projection)
    requires Observed(st) && Bound(st, x, key) && later.occurrence == Some(x) && later.eventKey != key
    ensures Save(st, later).0 == st && !Save(st, later).1.Saved?
    ensures !Mismatched(later) ==> Save(st, later).1 == OccurrenceTaken
  {
    MismatchIff(later);
  }

  lemma WriteBinds(sys: System, first: Step, x: string)
    requires Observed(sys.store) && first.Write? && first.projector in sys.drafts && first.occurrence == Some(x)
    requires Save(sys.store, Request(sys.drafts[first.projector], first.relationUpdates, first.occurrence)).1.Saved?
    ensures Bound(Next(sys, first).store, x, sys.drafts[first.projector].report.eventKey)
  {
    OccurrenceIsBound(sys.store, Request(sys.drafts[first.projector], first.relationUpdates, first.occurrence));
  }

  /** One verified occurrence never becomes two events: once a projector saved it for one, whatever happens then, no
      save of it for another event changes anything, and one with matching identities is answered that it is taken.
      */
  lemma OccurrenceIsOneEvent(sys: System, first: Step, x: string, steps: seq<Step>, later: Projection)
    requires Invariant(sys) && first.Write? && first.projector in sys.drafts && first.occurrence == Some(x)
    requires Save(sys.store, Request(sys.drafts[first.projector], first.relationUpdates, first.occurrence)).1.Saved?
    requires later.occurrence == Some(x) && later.eventKey != sys.drafts[first.projector].report.eventKey
    ensures var st := Run(sys, [first] + steps).store;
      && Observed(st) && Save(st, later).0 == st && !Save(st, later).1.Saved?
      && (!Mismatched(later) ==> Save(st, later).1 == OccurrenceTaken)
  {
    var key := sys.drafts[first.projector].report.eventKey;
    var all := [first] + steps;
    assert all[0] == first && all[1..] == steps;
    StepKeepsInvariant(sys, first);
    WriteBinds(sys, first, x);
    RunKeepsBinding(Next(sys, first), steps, x, key);
    RunKeepsInvariant(sys, all);
    TakenElsewhere(Run(sys, all).store, x, key, later);
  }

  // ----- what a projector asks -----------------------------------------------------------

  /** A request widens the bounds it read by the time of its report and, without a snapshot, starts from it; score
      and topics grow by those of its observation. */
  lemma RequestIsExact(d: Draft, updates: seq<Update>, occurrence: Option<string>)
    ensures var p := Request(d, updates, occurrence); var at := d.report.publishedAt;
      && p.eventKey == d.report.eventKey && p.report == d.report && p.relationUpdates == updates
      && p.occurrence == occurrence
      && (d.snapshot.None? ==> p.firstSeen == p.lastSeen == at && p.score == d.score && p.topics == d.topics)
      && (d.snapshot.Some? ==>
            var was := d.snapshot.value;
            && p.firstSeen == (if at < was.firstSeen then at else was.firstSeen)
            && p.lastSeen == (if at > was.lastSeen then at else was.lastSeen)
            && p.score == (if d.score > was.score then d.score else was.score)
            && forall t :: t in p.topics <==> t in was.topics || t in d.topics)
  {
  }
}
