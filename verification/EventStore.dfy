/** The event pool's store under projectors that save what they computed from stale snapshots. */
module EventStore {
  import opened Ordering

  datatype Tier = Primary | Secondary | Social
  datatype Relation = Leading | Corroborating | Updating | Contextual | Spoken

  /** The score and the topics stand for all numbers and sets that clustering finds in the observation alone; the
      publisher is trimmed and in lower case. */
  datatype Observation = Observation(sourceId: string, publisher: string, score: real, topics: set<string>)
  datatype EventRow = EventRow(firstSeen: int, lastSeen: int, sourceCount: nat, score: real, topics: set<string>)
  datatype ReportRow = ReportRow(eventKey: string, observationId: int, sourceId: string, tier: Tier, relation: Relation,
                                 representative: bool, publishedAt: int)

  /** The tables; a report's id is its position. Observations are immutable. `merged` holds the keys of events
      that were merged into others. */
  datatype Store = Store(observations: map<int, Observation>, events: map<string, EventRow>, reports: seq<ReportRow>,
                         occurrences: map<string, string>, merged: set<string>)

  /** A context report that the projector wants to count as corroborating. */
  datatype Update = Update(eventKey: string, reportId: Option<nat>, corroborates: bool)

  /** What a projector asks to save. */
  datatype Projection = Projection(eventKey: string, firstSeen: int, lastSeen: int, score: real, topics: set<string>,
                                   report: ReportRow, relationUpdates: seq<Update>, occurrence: Option<string>)

  datatype Outcome =
    | Saved(id: nat)
    | AlreadyAssigned(id: nat)
    | IdentityMismatch
    | UpdateMismatch
    | OccurrenceTaken
    | EventHasOtherOccurrence
    | EventMerged
    | UnknownObservation
    | SourceMismatch
    | RelationChanged

  function Min(a: int, b: int): int { if a < b then a else b }
  function Max(a: int, b: int): int { if a < b then b else a }
  function MaxScore(a: real, b: real): real { if a < b then b else a }

  // ----- one transaction -----------------------------------------------------------------

  /** The first report of an observation, or the number of reports. */
  function AssignedAt(reports: seq<ReportRow>, observationId: int, from_: nat): (i: nat)
    requires from_ <= |reports|
    ensures from_ <= i <= |reports|
    ensures forall k :: from_ <= k < i ==> reports[k].observationId != observationId
    ensures i < |reports| ==> reports[i].observationId == observationId
    decreases |reports| - from_
  {
    if from_ == |reports| || reports[from_].observationId == observationId then from_
    else AssignedAt(reports, observationId, from_ + 1)
  }

  /** Bounds are merged with the stored ones; the score and the topics are written over them. */
  function Upserted(events: map<string, EventRow>, p: Projection): map<string, EventRow> {
    if p.eventKey in events then
      var row := events[p.eventKey];
      events[p.eventKey := row.(firstSeen := Min(row.firstSeen, p.firstSeen),
        lastSeen := Max(row.lastSeen, p.lastSeen), score := p.score, topics := p.topics)]
    else events[p.eventKey := EventRow(p.firstSeen, p.lastSeen, 0, p.score, p.topics)]
  }

  /** The event's other reports of the source stop being representative, then the new row is added. */
  function Attached(reports: seq<ReportRow>, r: ReportRow): (result: seq<ReportRow>)
    ensures |result| == |reports| + 1
  {
    seq(|reports|, i requires 0 <= i < |reports| =>
      if reports[i].eventKey == r.eventKey && reports[i].sourceId == r.sourceId && r.representative
      then reports[i].(representative := false) else reports[i]) + [r]
  }

  predicate Promotable(reports: seq<ReportRow>, u: Update, eventKey: string) {
    && u.reportId.Some? && u.corroborates && u.reportId.value < |reports|
    && var row := reports[u.reportId.value];
      row.eventKey == eventKey && row.tier == Secondary && row.relation == Contextual
  }

  function PromoteOne(reports: seq<ReportRow>, id: nat): (r: seq<ReportRow>)
    requires id < |reports|
    ensures |r| == |reports|
  {
    reports[id := reports[id].(relation := Corroborating)]
  }

  /** Context reports become corroborating one after the other; None if one is no longer context, or if an update
      asks for anything else. */
  function Promoted(reports: seq<ReportRow>, updates: seq<Update>, eventKey: string): (r: Option<seq<ReportRow>>)
    ensures r.Some? ==> |r.value| == |reports|
    ensures r.Some? ==> forall i :: 0 <= i < |reports| ==> r.value[i] == reports[i].(relation := r.value[i].relation)
    decreases |updates|
  {
    if updates == [] then Some(reports)
    else if !Promotable(reports, updates[0], eventKey) then None
    else Promoted(PromoteOne(reports, updates[0].reportId.value), updates[1..], eventKey)
  }

  predicate Observed(st: Store) {
    forall r :: r in st.reports ==> r.observationId in st.observations
  }

  function PublisherOf(st: Store, r: ReportRow): string
    requires r.observationId in st.observations
  {
    if st.observations[r.observationId].publisher != "" then st.observations[r.observationId].publisher else r.sourceId
  }

  function Publishers(st: Store, eventKey: string): set<string>
    requires Observed(st)
  {
    set r | r in st.reports && r.eventKey == eventKey :: PublisherOf(st, r)
  }

  /** Why a projection is not saved at all; an observation assigned before is no error. */
  function Refusal(st: Store, p: Projection): Option<Outcome> {
    if p.report.eventKey != p.eventKey then Some(IdentityMismatch)
    else if exists u :: u in p.relationUpdates && u.eventKey != p.eventKey then Some(UpdateMismatch)
    else if p.occurrence.Some? && p.occurrence.value in st.occurrences
      && st.occurrences[p.occurrence.value] != p.eventKey
    then Some(OccurrenceTaken)
    else if p.occurrence.Some? && exists k ::
      k in st.occurrences && st.occurrences[k] == p.eventKey && k != p.occurrence.value
    then Some(EventHasOtherOccurrence)
    else
      var at := AssignedAt(st.reports, p.report.observationId, 0);
      if at < |st.reports| then Some(AlreadyAssigned(at))
      else if p.eventKey in st.merged then Some(EventMerged)
      else if p.report.observationId !in st.observations then Some(UnknownObservation)
      else if st.observations[p.report.observationId].sourceId != p.report.sourceId then Some(SourceMismatch)
      else None
  }

  /** The store and answer after one save; every refusal leaves the store untouched. */
  function Save(st: Store, p: Projection): (Store, Outcome)
    requires Observed(st)
  {
    var refusal := Refusal(st, p);
    if refusal.Some? then (st, refusal.value)
    else
      var promoted := Promoted(Attached(st.reports, p.report), p.relationUpdates, p.eventKey);
      if promoted.None? then (st, RelationChanged)
      else
        var written := Store(st.observations, Upserted(st.events, p), promoted.value,
                             if p.occurrence.Some? then st.occurrences[p.occurrence.value := p.eventKey]
                               else st.occurrences,
                             st.merged);
        assert Observed(written) by {
          forall r | r in written.reports ensures r.observationId in st.observations {
            var i :| 0 <= i < |written.reports| && written.reports[i] == r;
            assert i < |st.reports| ==> st.reports[i] in st.reports;
          }
        }
        (written.(events := written.events[p.eventKey :=
            written.events[p.eventKey].(sourceCount := |Publishers(written, p.eventKey)|)]),
         Saved(|st.reports|))
  }

  // ----- what the store always satisfies -------------------------------------------------

  ghost predicate Exact(st: Store, key: string)
    requires key in st.events && Observed(st)
  {
    var row := st.events[key];
    && Covers(st.reports, key, row)
    && Attains(st.reports, key, row.firstSeen) && Attains(st.reports, key, row.lastSeen)
    && row.sourceCount == |Publishers(st, key)|
  }

  ghost predicate Covers(reports: seq<ReportRow>, key: string, row: EventRow) {
    forall i :: 0 <= i < |reports| && reports[i].eventKey == key ==>
      row.firstSeen <= reports[i].publishedAt <= row.lastSeen
  }

  ghost predicate Attains(reports: seq<ReportRow>, key: string, at: int) {
    exists i :: 0 <= i < |reports| && reports[i].eventKey == key && reports[i].publishedAt == at
  }

  /** A report represents its source in its event exactly when no later report of that source joined it. */
  ghost predicate NewestRepresents(reports: seq<ReportRow>) {
    forall i :: 0 <= i < |reports| ==> (reports[i].representative <==> NewestOf(reports, i))
  }

  ghost predicate NewestOf(reports: seq<ReportRow>, i: nat)
    requires i < |reports|
  {
    forall j :: i < j < |reports| ==>
      !(reports[j].eventKey == reports[i].eventKey && reports[j].sourceId == reports[i].sourceId)
  }

  ghost predicate OneEventPerObservation(reports: seq<ReportRow>) {
    forall i, j :: 0 <= i < j < |reports| ==> reports[i].observationId != reports[j].observationId
  }

  ghost predicate OneToOne(occurrences: map<string, string>) {
    forall a, b :: a in occurrences && b in occurrences && occurrences[a] == occurrences[b] ==> a == b
  }

  ghost predicate Placed(st: Store, r: ReportRow) {
    r.eventKey in st.events && r.observationId in st.observations
      && r.sourceId == st.observations[r.observationId].sourceId
  }

  ghost predicate Valid(st: Store) {
    && Observed(st)
    && (forall i :: 0 <= i < |st.reports| ==> Placed(st, st.reports[i]))
    && (forall k :: k in st.events ==> Exact(st, k))
    && NewestRepresents(st.reports) && OneEventPerObservation(st.reports)
    && OneToOne(st.occurrences) && (forall k :: k in st.occurrences ==> st.occurrences[k] in st.events)
  }

  /** What a projector's request derives from the event row it read, possibly long ago: bounds that the
      stored row still covers, and the time of the report it brings. */
  ghost predicate FromSnapshot(st: Store, p: Projection) {
    && p.report.representative
    && p.firstSeen <= p.report.publishedAt <= p.lastSeen
    && (p.firstSeen == p.report.publishedAt
      || (p.eventKey in st.events && st.events[p.eventKey].firstSeen <= p.firstSeen))
    && (p.lastSeen == p.report.publishedAt || (p.eventKey in st.events && p.lastSeen <= st.events[p.eventKey].lastSeen))
  }

  lemma AttachedKeeps(reports: seq<ReportRow>, r: ReportRow)
    requires NewestRepresents(reports) && OneEventPerObservation(reports) && r.representative
    requires forall i :: 0 <= i < |reports| ==> reports[i].observationId != r.observationId
    ensures NewestRepresents(Attached(reports, r)) && OneEventPerObservation(Attached(reports, r))
  {
    var result := Attached(reports, r);
    forall i | 0 <= i < |result| ensures result[i].representative <==> NewestOf(result, i) {
      if i < |reports| {
        assert reports[i].representative <==> NewestOf(reports, i);
        assert result[|reports|] == r;
        if NewestOf(result, i) {
          forall j | i < j < |reports|
            ensures !(reports[j].eventKey == reports[i].eventKey && reports[j].sourceId == reports[i].sourceId) {
            assert result[j].eventKey == reports[j].eventKey && result[j].sourceId == reports[j].sourceId;
          }
        }
      }
    }
  }

  /** Promotion touches relations only. */
  lemma PromotedKeeps(reports: seq<ReportRow>, updates: seq<Update>, eventKey: string)
    requires NewestRepresents(reports) && OneEventPerObservation(reports) && Promoted(reports, updates, eventKey).Some?
    ensures NewestRepresents(Promoted(reports, updates, eventKey).value)
    ensures OneEventPerObservation(Promoted(reports, updates, eventKey).value)
  {
    var result := Promoted(reports, updates, eventKey).value;
    forall i | 0 <= i < |result| ensures result[i].representative <==> NewestOf(result, i) {
      assert result[i] == reports[i].(relation := result[i].relation);
      assert NewestOf(reports, i) <==> NewestOf(result, i) by {
        assert forall j :: i < j < |reports| ==> result[j] == reports[j].(relation := result[j].relation);
      }
    }
  }

  /** What a saved projection did to the rows: every old row keeps its place, and one row was added. */
  ghost predicate SavedFrom(st: Store, s: Store, p: Projection) {
    && Observed(st) && Observed(s) && s.observations == st.observations
    && |s.reports| == |st.reports| + 1
    && (forall i :: 0 <= i < |st.reports| ==> SamePlace(st.reports[i], s.reports[i]))
    && SamePlace(p.report, s.reports[|st.reports|])
    && p.report.eventKey == p.eventKey && Placed(s, p.report)
    && s.events == Upserted(st.events, p)[p.eventKey :=
         Upserted(st.events, p)[p.eventKey].(sourceCount := |Publishers(s, p.eventKey)|)]
  }

  ghost predicate SamePlace(a: ReportRow, b: ReportRow) {
    b == a.(relation := b.relation, representative := b.representative)
  }

  lemma SavedRows(st: Store, p: Projection)
    requires Observed(st) && Save(st, p).1.Saved?
    ensures SavedFrom(st, Save(st, p).0, p)
  {
    var attached := Attached(st.reports, p.report);
    var promoted := Promoted(attached, p.relationUpdates, p.eventKey).value;
    forall i | 0 <= i < |attached| ensures SamePlace(attached[i], promoted[i]) {
      assert promoted[i] == attached[i].(relation := promoted[i].relation);
    }
    var s := Save(st, p).0;
    assert s.reports == promoted;
    forall i | 0 <= i < |st.reports| ensures SamePlace(st.reports[i], s.reports[i]) {
      assert SamePlace(attached[i], promoted[i]);
    }
    var written := Store(st.observations, Upserted(st.events, p), promoted, s.occurrences, st.merged);
    SamePublishers(s, written, p.eventKey);
  }

  lemma SamePublishers(a: Store, b: Store, key: string)
    requires Observed(a) && Observed(b) && a.reports == b.reports && a.observations == b.observations
    ensures Publishers(a, key) == Publishers(b, key)
  {
  }

  lemma PublishersElsewhere(st: Store, s: Store, p: Projection, key: string)
    requires SavedFrom(st, s, p) && key != p.eventKey
    ensures Publishers(s, key) == Publishers(st, key)
  {
    forall x | x in Publishers(s, key) ensures x in Publishers(st, key) {
      var r :| r in s.reports && r.eventKey == key && PublisherOf(s, r) == x;
      var i :| 0 <= i < |s.reports| && s.reports[i] == r;
      assert SamePlace(st.reports[i], s.reports[i]);
      assert st.reports[i] in st.reports && PublisherOf(st, st.reports[i]) == x;
    }
    forall x | x in Publishers(st, key) ensures x in Publishers(s, key) {
      var r :| r in st.reports && r.eventKey == key && PublisherOf(st, r) == x;
      var i :| 0 <= i < |st.reports| && st.reports[i] == r;
      assert SamePlace(st.reports[i], s.reports[i]);
      assert s.reports[i] in s.reports && PublisherOf(s, s.reports[i]) == x;
    }
  }

  lemma AttainsStays(st: Store, s: Store, p: Projection, key: string, at: int)
    requires SavedFrom(st, s, p) && Attains(st.reports, key, at)
    ensures Attains(s.reports, key, at)
  {
    var i :| 0 <= i < |st.reports| && st.reports[i].eventKey == key && st.reports[i].publishedAt == at;
    assert SamePlace(st.reports[i], s.reports[i]);
  }

  lemma ExactElsewhere(st: Store, s: Store, p: Projection, key: string)
    requires SavedFrom(st, s, p) && key != p.eventKey && key in st.events && Exact(st, key)
    ensures key in s.events && Exact(s, key)
  {
    var row := st.events[key];
    PublishersElsewhere(st, s, p, key);
    AttainsStays(st, s, p, key, row.firstSeen);
    AttainsStays(st, s, p, key, row.lastSeen);
    CoversStays(st, s, p, key, row);
  }

  lemma CoversStays(st: Store, s: Store, p: Projection, key: string, row: EventRow)
    requires SavedFrom(st, s, p) && key != p.eventKey && Covers(st.reports, key, row)
    ensures Covers(s.reports, key, row)
  {
    forall i | 0 <= i < |s.reports| && s.reports[i].eventKey == key
      ensures row.firstSeen <= s.reports[i].publishedAt <= row.lastSeen {
      assert SamePlace(st.reports[i], s.reports[i]);
    }
  }

  lemma ExactHere(st: Store, s: Store, p: Projection)
    requires SavedFrom(st, s, p) && FromSnapshot(st, p)
    requires p.eventKey in st.events ==> Exact(st, p.eventKey)
    requires p.eventKey !in st.events ==> forall i :: 0 <= i < |st.reports| ==> st.reports[i].eventKey != p.eventKey
    ensures p.eventKey in s.events && Exact(s, p.eventKey)
  {
    var key, n, at := p.eventKey, |st.reports|, p.report.publishedAt;
    var row := s.events[key];
    assert Attains(s.reports, key, at) by { assert s.reports[n].publishedAt == at; }
    if key in st.events {
      var was := st.events[key];
      assert row.firstSeen == Min(was.firstSeen, at) && row.lastSeen == Max(was.lastSeen, at);
      AttainsStays(st, s, p, key, was.firstSeen);
      AttainsStays(st, s, p, key, was.lastSeen);
    }
    assert row.firstSeen <= at <= row.lastSeen;
    assert key in st.events ==>
      row.firstSeen <= st.events[key].firstSeen && st.events[key].lastSeen <= row.lastSeen;
    CoversHere(st, s, p, row);
  }

  lemma CoversHere(st: Store, s: Store, p: Projection, row: EventRow)
    requires SavedFrom(st, s, p) && row.firstSeen <= p.report.publishedAt <= row.lastSeen
    requires forall i :: 0 <= i < |st.reports| && st.reports[i].eventKey == p.eventKey ==>
      row.firstSeen <= st.reports[i].publishedAt <= row.lastSeen
    ensures Covers(s.reports, p.eventKey, row)
  {
    forall i | 0 <= i < |s.reports| && s.reports[i].eventKey == p.eventKey
      ensures row.firstSeen <= s.reports[i].publishedAt <= row.lastSeen {
      if i < |st.reports| { assert SamePlace(st.reports[i], s.reports[i]); }
    }
  }

  lemma PlacesKept(st: Store, s: Store, p: Projection)
    requires SavedFrom(st, s, p) && forall i :: 0 <= i < |st.reports| ==> Placed(st, st.reports[i])
    ensures forall i :: 0 <= i < |s.reports| ==> Placed(s, s.reports[i])
  {
    forall i | 0 <= i < |s.reports| ensures Placed(s, s.reports[i]) {
      if i < |st.reports| { assert SamePlace(st.reports[i], s.reports[i]) && Placed(st, st.reports[i]); }
    }
  }

  lemma ReportsKept(st: Store, p: Projection)
    requires Observed(st) && NewestRepresents(st.reports) && OneEventPerObservation(st.reports)
      && p.report.representative
    requires Save(st, p).1.Saved?
    ensures NewestRepresents(Save(st, p).0.reports) && OneEventPerObservation(Save(st, p).0.reports)
  {
    AttachedKeeps(st.reports, p.report);
    PromotedKeeps(Attached(st.reports, p.report), p.relationUpdates, p.eventKey);
  }

  lemma OccurrencesKept(st: Store, p: Projection)
    requires Observed(st) && OneToOne(st.occurrences) && Save(st, p).1.Saved?
    requires forall k :: k in st.occurrences ==> st.occurrences[k] in st.events
    ensures var s := Save(st, p).0;
      OneToOne(s.occurrences) && forall k :: k in s.occurrences ==> s.occurrences[k] in s.events
  {
  }

  lemma EventsKept(st: Store, s: Store, p: Projection)
    requires SavedFrom(st, s, p) && FromSnapshot(st, p)
    requires forall i :: 0 <= i < |st.reports| ==> Placed(st, st.reports[i])
    requires forall k :: k in st.events ==> Exact(st, k)
    ensures forall k :: k in s.events ==> Exact(s, k)
  {
    assert forall i :: 0 <= i < |st.reports| ==> Placed(st, st.reports[i]);
    ExactHere(st, s, p);
    forall k | k in s.events ensures Exact(s, k) {
      if k != p.eventKey { ExactElsewhere(st, s, p, k); }
    }
  }

  /** One save keeps the store valid, whatever snapshot it was computed from. */
  lemma SaveKeepsValid(st: Store, p: Projection)
    requires Valid(st) && FromSnapshot(st, p)
    ensures Valid(Save(st, p).0)
  {
    var (s, outcome) := Save(st, p);
    if outcome.Saved? {
      SavedRows(st, p);
      PlacesKept(st, s, p);
      ReportsKept(st, p);
      OccurrencesKept(st, p);
      EventsKept(st, s, p);
    } else {
      assert s == st;
    }
  }

  // ----- projectors working from snapshots -----------------------------------------------

  /** What a projector remembers between reading a candidate and saving. */
  datatype Draft = Draft(report: ReportRow, score: real, topics: set<string>, snapshot: Option<EventRow>)

  datatype System = System(store: Store, drafts: map<nat, Draft>)

  datatype Step =
    | Observe(id: int, observation: Observation)
    | Read(projector: nat, observationId: int, eventKey: string, matched: bool, tier: Tier, relation: Relation,
      publishedAt: int)
    | Write(projector: nat, relationUpdates: seq<Update>, occurrence: Option<string>)
    | Crash(projector: nat)

  /** The request computed from the snapshot, by then perhaps stale. */
  function Request(d: Draft, relationUpdates: seq<Update>, occurrence: Option<string>): Projection {
    var at := d.report.publishedAt;
    Projection(d.report.eventKey,
               if d.snapshot.Some? then Min(d.snapshot.value.firstSeen, at) else at,
               if d.snapshot.Some? then Max(d.snapshot.value.lastSeen, at) else at,
               if d.snapshot.Some? then MaxScore(d.snapshot.value.score, d.score) else d.score,
               if d.snapshot.Some? then d.snapshot.value.topics + d.topics else d.topics,
               d.report, relationUpdates, occurrence)
  }

  function Next(sys: System, step: Step): System
    requires Observed(sys.store)
  {
    match step
    case Observe(id, o) =>
      if id in sys.store.observations then sys
      else sys.(store := sys.store.(observations := sys.store.observations[id := o]))
    case Read(projector, id, key, matched, tier, relation, at) =>
      if id !in sys.store.observations || (matched && key !in sys.store.events) then sys
      else
        var o := sys.store.observations[id];
        var report := ReportRow(key, id, o.sourceId, tier, relation, true, at);
        var snapshot := if matched then Some(sys.store.events[key]) else None;
        sys.(drafts := sys.drafts[projector := Draft(report, o.score, o.topics, snapshot)])
    case Write(projector, updates, occurrence) =>
      if projector !in sys.drafts then sys
      else System(Save(sys.store, Request(sys.drafts[projector], updates, occurrence)).0, sys.drafts - {projector})
    case Crash(projector) => sys.(drafts := sys.drafts - {projector})
  }

  ghost predicate Invariant(sys: System) {
    && Valid(sys.store)
    && (forall q :: q in sys.drafts ==> DraftCovered(sys.store, sys.drafts[q]))
  }

  /** The row of a snapshot still exists and covers at least what the snapshot showed. */
  ghost predicate DraftCovered(st: Store, d: Draft) {
    && d.report.representative
    && (d.snapshot.Some? ==>
          && d.report.eventKey in st.events
          && st.events[d.report.eventKey].firstSeen <= d.snapshot.value.firstSeen
          && d.snapshot.value.lastSeen <= st.events[d.report.eventKey].lastSeen)
  }

  /** Stored bounds of an event only widen. */
  lemma BoundsWiden(st: Store, p: Projection, d: Draft)
    requires Observed(st) && DraftCovered(st, d)
    ensures DraftCovered(Save(st, p).0, d)
  {
    var (s, outcome) := Save(st, p);
    if outcome.Saved? {
      SavedRows(st, p);
    } else {
      assert s == st;
    }
  }

  lemma ExactAfterObserving(st: Store, s: Store, k: string)
    requires Observed(st) && k in st.events && Exact(st, k)
    requires s == st.(observations := s.observations) && forall o :: o in st.observations ==>
      o in s.observations && s.observations[o] == st.observations[o]
    ensures Observed(s) && Exact(s, k)
  {
    assert Publishers(s, k) == Publishers(st, k) by {
      assert forall r :: r in st.reports ==> PublisherOf(s, r) == PublisherOf(st, r);
    }
  }

  lemma ObservingKeepsValid(st: Store, id: int, o: Observation)
    requires Valid(st) && id !in st.observations
    ensures Valid(st.(observations := st.observations[id := o]))
  {
    var s := st.(observations := st.observations[id := o]);
    PlacedAfterObserving(st, s);
    forall k | k in s.events ensures Exact(s, k) {
      ExactAfterObserving(st, s, k);
    }
  }

  lemma PlacedAfterObserving(st: Store, s: Store)
    requires Observed(st) && forall i :: 0 <= i < |st.reports| ==> Placed(st, st.reports[i])
    requires s == st.(observations := s.observations) && forall o :: o in st.observations ==>
      o in s.observations && s.observations[o] == st.observations[o]
    ensures Observed(s) && forall i :: 0 <= i < |s.reports| ==> Placed(s, s.reports[i])
  {
    forall i | 0 <= i < |s.reports| ensures Placed(s, s.reports[i]) { assert Placed(st, st.reports[i]); }
  }

  lemma StepKeepsInvariant(sys: System, step: Step)
    requires Invariant(sys)
    ensures Invariant(Next(sys, step))
  {
    match step
    case Observe(id, o) =>
      if id !in sys.store.observations { ObservingKeepsValid(sys.store, id, o); }
    case Read(_, _, _, _, _, _, _) =>
    case Write(projector, updates, occurrence) =>
      if projector in sys.drafts {
        var d := sys.drafts[projector];
        assert DraftCovered(sys.store, d);
        var p := Request(d, updates, occurrence);
        SaveKeepsValid(sys.store, p);
        forall q | q in sys.drafts ensures DraftCovered(Save(sys.store, p).0, sys.drafts[q]) {
          BoundsWiden(sys.store, p, sys.drafts[q]);
        }
      }
    case Crash(_) =>
  }

  ghost function Run(sys: System, steps: seq<Step>): System
    requires Invariant(sys)
    decreases |steps|
  {
    if steps == [] then sys
    else
      StepKeepsInvariant(sys, steps[0]);
      Run(Next(sys, steps[0]), steps[1..])
  }

  /** Over every interleaving of projectors, with crashes between reading and saving: stored bounds are
      exact, source counts are exact, every observation belongs to one event, each source of an event has
      exactly its newest report as representative, and occurrences and events are one to one. */
  lemma {:induction false} RunKeepsInvariant(sys: System, steps: seq<Step>)
    requires Invariant(sys)
    ensures Invariant(Run(sys, steps))
    decreases |steps|
  {
    if steps != [] {
      StepKeepsInvariant(sys, steps[0]);
      RunKeepsInvariant(Next(sys, steps[0]), steps[1..]);
    }
  }

  lemma EmptyStoreIsValid(observations: map<int, Observation>, merged: set<string>)
    ensures Invariant(System(Store(observations, map[], [], map[], merged), map[]))
  {
  }

  lemma StepLosesNothing(sys: System, step: Step, i: nat)
    requires Observed(sys.store) && i < |sys.store.reports|
    ensures var s := Next(sys, step).store;
      |s.reports| >= |sys.store.reports| && SamePlace(sys.store.reports[i], s.reports[i])
  {
    if step.Write? && step.projector in sys.drafts {
      var p := Request(sys.drafts[step.projector], step.relationUpdates, step.occurrence);
      if Save(sys.store, p).1.Saved? {
        SavedRows(sys.store, p);
      } else {
        assert Save(sys.store, p).0 == sys.store;
      }
    }
  }

  /** A committed assignment is never lost or moved: later steps keep every report in its place. */
  lemma {:induction false} RunLosesNothing(sys: System, steps: seq<Step>, i: nat)
    requires Invariant(sys) && i < |sys.store.reports|
    ensures var s := Run(sys, steps).store;
      |s.reports| >= |sys.store.reports| && SamePlace(sys.store.reports[i], s.reports[i])
    decreases |steps|
  {
    if steps != [] {
      StepKeepsInvariant(sys, steps[0]);
      StepLosesNothing(sys, steps[0], i);
      RunLosesNothing(Next(sys, steps[0]), steps[1..], i);
    }
  }

  /** A second projector that saves an observation already assigned changes nothing, and unless its
      occurrence conflicts it is answered with the committed report. */
  lemma SecondSaveIsIgnored(st: Store, p: Projection, i: nat)
    requires Observed(st) && OneEventPerObservation(st.reports)
    requires i < |st.reports| && st.reports[i].observationId == p.report.observationId
    ensures Save(st, p).0 == st
    ensures Save(st, p).1 in {AlreadyAssigned(i), IdentityMismatch, UpdateMismatch, OccurrenceTaken,
      EventHasOtherOccurrence}
  {
    var at := AssignedAt(st.reports, p.report.observationId, 0);
    assert at == i;
  }

  // ----- the transaction over the tables -------------------------------------------------

  class EventDatabase {
    var observations: map<int, Observation>
    var events: map<string, EventRow>
    var reports: seq<ReportRow>
    var occurrences: map<string, string>
    var merged: set<string>

    function State(): Store
      reads this
    {
      Store(observations, events, reports, occurrences, merged)
    }

    constructor (observations: map<int, Observation>, merged: set<string>)
      ensures State() == Store(observations, map[], [], map[], merged) && Valid(State())
    {
      this.observations, events, reports, occurrences, this.merged := observations, map[], [], map[], merged;
      new;
      EmptyStoreIsValid(observations, merged);
    }

    /** Turns the named reports of an event into corroborating ones, or refuses all of it. */
    method PromoteRows(attached: seq<ReportRow>, updates: seq<Update>, eventKey: string)
        returns (r: Option<seq<ReportRow>>)
      ensures r == Promoted(attached, updates, eventKey)
    {
      var rows := attached;
      for k := 0 to |updates|
        invariant Promoted(rows, updates[k..], eventKey) == Promoted(attached, updates, eventKey)
      {
        assert updates[k..][1..] == updates[k + 1..];
        if !Promotable(rows, updates[k], eventKey) {
          return None;
        }
        var id := updates[k].reportId.value;
        rows := rows[id := rows[id].(relation := Corroborating)];
      }
      return Some(rows);
    }

    /** The checks at the start of the transaction. */
    method CheckProjection(p: Projection) returns (r: Option<Outcome>)
      ensures r == Refusal(State(), p)
    {
      if p.report.eventKey != p.eventKey {
        return Some(IdentityMismatch);
      }
      if exists u :: u in p.relationUpdates && u.eventKey != p.eventKey {
        return Some(UpdateMismatch);
      }
      if p.occurrence.Some? {
        if p.occurrence.value in occurrences && occurrences[p.occurrence.value] != p.eventKey {
          return Some(OccurrenceTaken);
        }
        if exists k :: k in occurrences && occurrences[k] == p.eventKey && k != p.occurrence.value {
          return Some(EventHasOtherOccurrence);
        }
      }
      var at := AssignedAt(reports, p.report.observationId, 0);
      if at < |reports| {
        return Some(AlreadyAssigned(at));
      }
      if p.eventKey in merged {
        return Some(EventMerged);
      }
      if p.report.observationId !in observations {
        return Some(UnknownObservation);
      }
      return if observations[p.report.observationId].sourceId != p.report.sourceId then Some(SourceMismatch) else None;
    }

    method SaveEventProjection(p: Projection) returns (outcome: Outcome)
      requires Observed(State())
      modifies this
      ensures (State(), outcome) == Save(old(State()), p)
      ensures old(Valid(State())) && old(FromSnapshot(State(), p)) ==> Valid(State())
    {
      ghost var before := State();
      if Valid(before) && FromSnapshot(before, p) {
        SaveKeepsValid(before, p);
      }
      var refusal := CheckProjection(p);
      if refusal.Some? {
        return refusal.value;
      }
      // Rows change in a scratch copy, so that a refused relation update rolls everything back.
      var rows := PromoteRows(Attached(reports, p.report), p.relationUpdates, p.eventKey);
      if rows.None? {
        return RelationChanged;
      }
      SavedRows(before, p);
      outcome := Saved(|reports|);
      reports := rows.value;
      events := Upserted(events, p);
      if p.occurrence.Some? {
        occurrences := occurrences[p.occurrence.value := p.eventKey];
      }
      events := events[p.eventKey := events[p.eventKey].(sourceCount := |Publishers(State(), p.eventKey)|)];
    }
  }
}
