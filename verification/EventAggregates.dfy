/** What a projector overwrites: the score and the topics of an event under saves made from stale snapshots. Bounds
    and counts are merged or counted inside the transaction and stay exact; these are not. */
module EventAggregates {
  import opened Ordering
  import opened EventStore

  /** The observations of an event's reports. */
  function Members(st: Store, key: string): set<Observation>
    requires Observed(st)
  {
    set r | r in st.reports && r.eventKey == key :: st.observations[r.observationId]
  }

  function TopicsOf(members: set<Observation>): set<string> { set o, t | o in members && t in o.topics :: t }

  /** The row claims nothing that no report of the event brought. */
  ghost predicate Honest(members: set<Observation>, score: real, topics: set<string>) {
    topics <= TopicsOf(members) && exists o :: o in members && o.score == score
  }

  /** The row lacks nothing that a report of the event brought. */
  ghost predicate Full(members: set<Observation>, score: real, topics: set<string>) {
    TopicsOf(members) <= topics && forall o :: o in members ==> o.score <= score
  }

  ghost predicate HonestEvent(st: Store, key: string)
    requires Observed(st) && key in st.events
  {
    Honest(Members(st, key), st.events[key].score, st.events[key].topics)
  }

  ghost predicate FullEvent(st: Store, key: string)
    requires Observed(st) && key in st.events
  {
    Full(Members(st, key), st.events[key].score, st.events[key].topics)
  }

  /** The maximum of the scores and the union of the topics of all reports. */
  ghost predicate Accurate(st: Store, key: string)
    requires Observed(st) && key in st.events
  {
    HonestEvent(st, key) && FullEvent(st, key)
  }

  // ----- one save ------------------------------------------------------------------------

  function Own(st: Store, p: Projection): Observation
    requires p.report.observationId in st.observations
  {
    st.observations[p.report.observationId]
  }

  lemma MembersFromSave(st: Store, s: Store, p: Projection, key: string)
    requires SavedFrom(st, s, p)
    ensures Members(s, key) <= Members(st, key) + (if key == p.eventKey then {Own(st, p)} else {})
  {
    var own := if key == p.eventKey then {Own(st, p)} else {};
    forall o | o in Members(s, key) ensures o in Members(st, key) + own {
      var r :| r in s.reports && r.eventKey == key && s.observations[r.observationId] == o;
      var i :| 0 <= i < |s.reports| && s.reports[i] == r;
      if i < |st.reports| {
        assert SamePlace(st.reports[i], s.reports[i]);
        assert st.reports[i] in st.reports;
      }
    }
  }

  lemma MembersIntoSave(st: Store, s: Store, p: Projection, key: string)
    requires SavedFrom(st, s, p)
    ensures Members(st, key) + (if key == p.eventKey then {Own(st, p)} else {}) <= Members(s, key)
  {
    forall o | o in Members(st, key) ensures o in Members(s, key) {
      var r :| r in st.reports && r.eventKey == key && st.observations[r.observationId] == o;
      var i :| 0 <= i < |st.reports| && st.reports[i] == r;
      assert SamePlace(st.reports[i], s.reports[i]);
      assert s.reports[i] in s.reports;
    }
    assert s.reports[|st.reports|] in s.reports;
  }

  /** A saved projection adds its observation to the members of its event. */
  lemma MembersAfterSave(st: Store, s: Store, p: Projection, key: string)
    requires SavedFrom(st, s, p)
    ensures Members(s, key) == Members(st, key) + (if key == p.eventKey then {Own(st, p)} else {})
  {
    MembersFromSave(st, s, p, key);
    MembersIntoSave(st, s, p, key);
  }

  lemma RowAfterSave(st: Store, s: Store, p: Projection)
    requires SavedFrom(st, s, p)
    ensures p.eventKey in s.events && s.events[p.eventKey].score == p.score && s.events[p.eventKey].topics == p.topics
    ensures s.events.Keys == st.events.Keys + {p.eventKey}
    ensures forall k :: k in st.events && k != p.eventKey ==> s.events[k] == st.events[k]
  {
  }

  /** What the request contains: what the projector's own observation brings, and otherwise only what reports of
      the event brought. */
  ghost predicate FromReading(st: Store, p: Projection)
    requires Observed(st)
  {
    && p.report.observationId in st.observations
    && var own := st.observations[p.report.observationId];
      && own.topics <= p.topics && own.score <= p.score
      && Honest(Members(st, p.eventKey) + {own}, p.score, p.topics)
  }

  /** The request still covers the stored row. */
  predicate CoversRow(st: Store, p: Projection) {
    p.eventKey in st.events ==> st.events[p.eventKey].topics <= p.topics && st.events[p.eventKey].score <= p.score
  }

  lemma NoRowNoMembers(st: Store, key: string)
    requires Valid(st) && key !in st.events
    ensures Members(st, key) == {}
  {
    forall r | r in st.reports ensures r.eventKey != key {
      var i :| 0 <= i < |st.reports| && st.reports[i] == r;
      assert Placed(st, st.reports[i]);
    }
  }

  lemma UnionTopics(a: set<Observation>, b: set<Observation>)
    ensures TopicsOf(a + b) == TopicsOf(a) + TopicsOf(b)
  {
  }

  lemma TopicsOfOne(o: Observation)
    ensures TopicsOf({o}) == o.topics
  {
    forall t | t in o.topics ensures t in TopicsOf({o}) { assert o in {o}; }
  }

  lemma FullWithOneMore(members: set<Observation>, own: Observation, was: EventRow, score: real, topics: set<string>)
    requires Honest(members, was.score, was.topics) && Full(members, was.score, was.topics)
    requires own.topics <= topics && own.score <= score
    ensures Full(members + {own}, score, topics) <==> was.topics <= topics && was.score <= score
  {
    UnionTopics(members, {own});
    TopicsOfOne(own);
    assert TopicsOf(members) == was.topics;
    if Full(members + {own}, score, topics) {
      var o :| o in members && o.score == was.score;
      assert o in members + {own};
    }
  }

  /** A save keeps the aggregates of its event exactly when it still covers the stored row: nothing was added
      since the snapshot that the observation does not bring itself. */
  lemma SaveKeepsAggregatesIff(st: Store, s: Store, p: Projection)
    requires Valid(st) && SavedFrom(st, s, p) && FromReading(st, p)
    requires p.eventKey in st.events ==> Accurate(st, p.eventKey)
    ensures p.eventKey in s.events && (Accurate(s, p.eventKey) <==> CoversRow(st, p))
  {
    if p.eventKey in st.events {
      OverwriteKeepsAggregatesIff(st, s, p);
    } else {
      var own := Own(st, p);
      MembersAfterSave(st, s, p, p.eventKey);
      RowAfterSave(st, s, p);
      NoRowNoMembers(st, p.eventKey);
      TopicsOfOne(own);
      assert Members(st, p.eventKey) + {own} == {own};
    }
  }

  lemma OverwriteKeepsAggregatesIff(st: Store, s: Store, p: Projection)
    requires SavedFrom(st, s, p) && FromReading(st, p) && p.eventKey in st.events && Accurate(st, p.eventKey)
    ensures p.eventKey in s.events && (Accurate(s, p.eventKey) <==> CoversRow(st, p))
  {
    MembersAfterSave(st, s, p, p.eventKey);
    RowAfterSave(st, s, p);
    FullWithOneMore(Members(st, p.eventKey), Own(st, p), st.events[p.eventKey], p.score, p.topics);
  }

  // ----- runs ----------------------------------------------------------------------------

  /** A draft brings what its observation brings, and its snapshot claims nothing that was not brought. */
  ghost predicate HonestDraft(st: Store, d: Draft)
    requires Observed(st)
  {
    && d.report.observationId in st.observations
    && d.score == st.observations[d.report.observationId].score
    && d.topics == st.observations[d.report.observationId].topics
    && (d.snapshot.Some? ==> Honest(Members(st, d.report.eventKey), d.snapshot.value.score, d.snapshot.value.topics))
  }

  ghost predicate HonestSystem(sys: System) {
    && Invariant(sys)
    && (forall k :: k in sys.store.events ==> HonestEvent(sys.store, k))
    && (forall q :: q in sys.drafts ==> HonestDraft(sys.store, sys.drafts[q]))
  }

  lemma MoreMembersStayHonest(a: set<Observation>, b: set<Observation>, score: real, topics: set<string>)
    requires a <= b && Honest(a, score, topics)
    ensures Honest(b, score, topics)
  {
    var o :| o in a && o.score == score;
    assert o in b;
  }

  lemma RequestIsFromReading(st: Store, d: Draft, updates: seq<Update>, occurrence: Option<string>)
    requires Observed(st) && HonestDraft(st, d)
    ensures FromReading(st, Request(d, updates, occurrence))
  {
    var p, own := Request(d, updates, occurrence), st.observations[d.report.observationId];
    var members := Members(st, d.report.eventKey);
    UnionTopics(members, {own});
    TopicsOfOne(own);
    assert own in members + {own};
    if d.snapshot.Some? {
      MoreMembersStayHonest(members, members + {own}, d.snapshot.value.score, d.snapshot.value.topics);
    }
  }

  lemma SaveKeepsHonest(st: Store, s: Store, p: Projection)
    requires SavedFrom(st, s, p) && FromReading(st, p)
    requires forall k :: k in st.events ==> HonestEvent(st, k)
    ensures forall k :: k in s.events ==> HonestEvent(s, k)
  {
    RowAfterSave(st, s, p);
    forall k | k in s.events ensures HonestEvent(s, k) {
      MembersAfterSave(st, s, p, k);
      assert k != p.eventKey ==> HonestEvent(st, k);
    }
  }

  lemma SaveKeepsDraftHonest(st: Store, s: Store, p: Projection, d: Draft)
    requires SavedFrom(st, s, p) && HonestDraft(st, d)
    ensures HonestDraft(s, d)
  {
    var key := d.report.eventKey;
    MembersAfterSave(st, s, p, key);
    if d.snapshot.Some? {
      MoreMembersStayHonest(Members(st, key), Members(s, key), d.snapshot.value.score, d.snapshot.value.topics);
    }
  }

  lemma MembersAfterObserving(st: Store, id: int, o: Observation, key: string)
    requires Observed(st) && id !in st.observations
    ensures var s := st.(observations := st.observations[id := o]);
      Observed(s) && Members(s, key) == Members(st, key)
  {
  }

  lemma WriteKeepsHonest(sys: System, step: Step)
    requires HonestSystem(sys) && step.Write? && step.projector in sys.drafts
    ensures HonestSystem(Next(sys, step))
  {
    StepKeepsInvariant(sys, step);
    var d := sys.drafts[step.projector];
    assert HonestDraft(sys.store, d);
    var p := Request(d, step.relationUpdates, step.occurrence);
    RequestIsFromReading(sys.store, d, step.relationUpdates, step.occurrence);
    var (s, outcome) := Save(sys.store, p);
    if outcome.Saved? {
      SavedRows(sys.store, p);
      SaveKeepsHonest(sys.store, s, p);
      forall q | q in sys.drafts ensures HonestDraft(s, sys.drafts[q]) {
        SaveKeepsDraftHonest(sys.store, s, p, sys.drafts[q]);
      }
    } else {
      assert s == sys.store;
    }
  }

  lemma ObserveKeepsHonest(sys: System, id: int, o: Observation)
    requires HonestSystem(sys) && id !in sys.store.observations
    ensures HonestSystem(Next(sys, Observe(id, o)))
  {
    StepKeepsInvariant(sys, Observe(id, o));
    var s := Next(sys, Observe(id, o)).store;
    forall k | k in s.events ensures HonestEvent(s, k) {
      MembersAfterObserving(sys.store, id, o, k);
      assert HonestEvent(sys.store, k);
    }
    forall q | q in sys.drafts ensures HonestDraft(s, sys.drafts[q]) {
      MembersAfterObserving(sys.store, id, o, sys.drafts[q].report.eventKey);
      assert HonestDraft(sys.store, sys.drafts[q]);
    }
  }

  lemma DraftAddedIsHonest(sys: System, r: System, projector: nat, d: Draft)
    requires HonestSystem(sys) && Invariant(r) && HonestDraft(sys.store, d)
    requires r == sys.(drafts := sys.drafts[projector := d])
    ensures HonestSystem(r)
  {
  }

  lemma ReadKeepsHonest(sys: System, step: Step, r: System)
    requires HonestSystem(sys) && step.Read? && r == Next(sys, step) && Invariant(r)
    ensures HonestSystem(r)
  {
    var st := sys.store;
    if step.observationId in st.observations && (step.matched ==> step.eventKey in st.events) {
      var d := r.drafts[step.projector];
      assert step.matched ==> HonestEvent(st, step.eventKey);
      assert HonestDraft(st, d);
      DraftAddedIsHonest(sys, r, step.projector, d);
    }
  }

  lemma StepKeepsHonest(sys: System, step: Step)
    requires HonestSystem(sys)
    ensures HonestSystem(Next(sys, step))
  {
    match step
    case Observe(id, o) =>
      if id !in sys.store.observations { ObserveKeepsHonest(sys, id, o); }
    case Read(_, _, _, _, _, _, _) =>
      StepKeepsInvariant(sys, step);
      ReadKeepsHonest(sys, step, Next(sys, step));
    case Write(projector, _, _) =>
      if projector in sys.drafts { WriteKeepsHonest(sys, step); }
    case Crash(_) => StepKeepsInvariant(sys, step);
  }

  /** Over every interleaving of projectors an event never claims a score or a topic that none of its reports
      brought. */
  lemma {:induction false} RunStaysHonest(sys: System, steps: seq<Step>)
    requires HonestSystem(sys)
    ensures HonestSystem(Run(sys, steps))
    decreases |steps|
  {
    if steps != [] {
      StepKeepsHonest(sys, steps[0]);
      RunStaysHonest(Next(sys, steps[0]), steps[1..]);
    }
  }

  ghost predicate AllAccurate(st: Store)
    requires Observed(st)
  {
    forall k :: k in st.events ==> Accurate(st, k)
  }

  /** A write still covers the row it overwrites. */
  ghost predicate UpToDate(sys: System, step: Step) {
    step.Write? && step.projector in sys.drafts ==>
      CoversRow(sys.store, Request(sys.drafts[step.projector], step.relationUpdates, step.occurrence))
  }

  ghost predicate UpToDateRun(sys: System, steps: seq<Step>)
    requires Invariant(sys)
    decreases |steps|
  {
    steps == []
    || (UpToDate(sys, steps[0])
        && (StepKeepsInvariant(sys, steps[0]); UpToDateRun(Next(sys, steps[0]), steps[1..])))
  }

  /** A write made before anyone else wrote to the event covers its row. */
  lemma FreshSnapshotCovers(st: Store, d: Draft, updates: seq<Update>, occurrence: Option<string>)
    requires d.report.eventKey in st.events ==> d.snapshot == Some(st.events[d.report.eventKey])
    ensures CoversRow(st, Request(d, updates, occurrence))
  {
  }

  lemma SaveKeepsAccurate(st: Store, s: Store, p: Projection)
    requires Valid(st) && AllAccurate(st) && SavedFrom(st, s, p) && FromReading(st, p) && CoversRow(st, p)
    ensures AllAccurate(s)
  {
    RowAfterSave(st, s, p);
    SaveKeepsAggregatesIff(st, s, p);
    forall k | k in s.events ensures Accurate(s, k) {
      if k != p.eventKey {
        MembersAfterSave(st, s, p, k);
        assert Accurate(st, k);
      }
    }
  }

  lemma StepKeepsAccurate(sys: System, step: Step)
    requires HonestSystem(sys) && AllAccurate(sys.store) && UpToDate(sys, step)
    ensures HonestSystem(Next(sys, step)) && AllAccurate(Next(sys, step).store)
  {
    StepKeepsHonest(sys, step);
    match step
    case Observe(id, o) =>
      if id !in sys.store.observations { ObserveKeepsAccurate(sys.store, id, o); }
    case Read(_, _, _, _, _, _, _) => ReadKeepsStore(sys, step);
    case Write(projector, _, _) =>
      if projector in sys.drafts { WriteKeepsAccurate(sys, step); }
    case Crash(_) =>
  }

  lemma ReadKeepsStore(sys: System, step: Step)
    requires Observed(sys.store) && step.Read?
    ensures Next(sys, step).store == sys.store
  {
  }

  lemma WriteKeepsAccurate(sys: System, step: Step)
    requires HonestSystem(sys) && AllAccurate(sys.store) && UpToDate(sys, step)
    requires step.Write? && step.projector in sys.drafts
    ensures Observed(Next(sys, step).store) && AllAccurate(Next(sys, step).store)
  {
    var d := sys.drafts[step.projector];
    assert HonestDraft(sys.store, d);
    var p := Request(d, step.relationUpdates, step.occurrence);
    RequestIsFromReading(sys.store, d, step.relationUpdates, step.occurrence);
    var (s, outcome) := Save(sys.store, p);
    if outcome.Saved? {
      SavedRows(sys.store, p);
      SaveKeepsAccurate(sys.store, s, p);
    } else {
      assert s == sys.store;
    }
  }

  lemma ObserveKeepsAccurate(st: Store, id: int, o: Observation)
    requires Observed(st) && AllAccurate(st) && id !in st.observations
    ensures var s := st.(observations := st.observations[id := o]); Observed(s) && AllAccurate(s)
  {
    var s := st.(observations := st.observations[id := o]);
    forall k | k in s.events ensures Accurate(s, k) {
      MembersAfterObserving(st, id, o, k);
      assert Accurate(st, k);
    }
  }

  /** While each write still covers the row it overwrites, every score is the maximum and every topic set the union
      over all reports of the event, for any number of projectors. */
  lemma {:induction false} RunStaysAccurate(sys: System, steps: seq<Step>)
    requires HonestSystem(sys) && AllAccurate(sys.store) && UpToDateRun(sys, steps)
    ensures HonestSystem(Run(sys, steps)) && AllAccurate(Run(sys, steps).store)
    decreases |steps|
  {
    if steps != [] {
      StepKeepsAccurate(sys, steps[0]);
      RunStaysAccurate(Next(sys, steps[0]), steps[1..]);
    }
  }

  // ----- a lost update -------------------------------------------------------------------

  /** Two projectors read the same row and both save. The first save is accurate; the second writes over what the
      first added, and the row stays accurate exactly when the second brings that as well. */
  lemma StaleSaveLosesAnUpdateIff(st: Store, s: Store, r: Store, key: string, first: Draft, second: Draft)
    requires Observed(st) && key in st.events && Accurate(st, key)
    requires first.report.eventKey == key && HonestDraft(st, first) && first.snapshot == Some(st.events[key])
    requires second.report.eventKey == key && HonestDraft(st, second) && second.snapshot == Some(st.events[key])
    requires SavedFrom(st, s, Request(first, [], None)) && SavedFrom(s, r, Request(second, [], None))
    ensures key in s.events && Accurate(s, key) && key in r.events
    ensures Accurate(r, key) <==>
      && first.topics <= st.events[key].topics + second.topics
      && first.score <= MaxScore(st.events[key].score, second.score)
  {
    var p := Request(first, [], None);
    FreshSnapshotCovers(st, first, [], None);
    LaterSave(st, s, key, first);
    SaveKeepsDraftHonest(st, s, p, second);
    RowAfterSave(st, s, p);
    LaterSave(s, r, key, second);
    SecondCovers(st.events[key], s, key, first, second);
  }

  lemma LaterSave(st: Store, s: Store, key: string, d: Draft)
    requires Observed(st) && key in st.events && Accurate(st, key)
    requires d.report.eventKey == key && HonestDraft(st, d) && SavedFrom(st, s, Request(d, [], None))
    ensures key in s.events && (Accurate(s, key) <==> CoversRow(st, Request(d, [], None)))
  {
    RequestIsFromReading(st, d, [], None);
    OverwriteKeepsAggregatesIff(st, s, Request(d, [], None));
  }

  lemma SecondCovers(was: EventRow, s: Store, key: string, first: Draft, second: Draft)
    requires first.snapshot == Some(was) && second.snapshot == Some(was) && second.report.eventKey == key
    requires key in s.events && s.events[key].score == MaxScore(was.score, first.score)
    requires s.events[key].topics == was.topics + first.topics
    ensures CoversRow(s, Request(second, [], None)) <==>
      first.topics <= was.topics + second.topics && first.score <= MaxScore(was.score, second.score)
  {
    assert was.topics + first.topics <= was.topics + second.topics <==> first.topics <= was.topics + second.topics;
  }

  const KEY := "event"

  /** A store that holds three reports by different sources and no event yet. */
  function Unassigned(score: real, a: string, b: string): Store {
    Store(map[1 := Observation("x", "", score, {}), 2 := Observation("y", "", score, {a}),
              3 := Observation("z", "", score, {b})], map[], [], map[], {})
  }

  function Reading(projector: nat, id: int, matched: bool): Step {
    Read(projector, id, KEY, matched, Secondary, Contextual, 0)
  }

  function Writing(projector: nat): Step { Write(projector, [], None) }

  lemma PlainSaveIsAccepted(st: Store, p: Projection)
    requires Observed(st) && p.report.eventKey == p.eventKey && p.relationUpdates == [] && p.occurrence.None?
    requires p.report.observationId in st.observations && p.eventKey !in st.merged
    requires st.observations[p.report.observationId].sourceId == p.report.sourceId
    requires forall i :: 0 <= i < |st.reports| ==> st.reports[i].observationId != p.report.observationId
    ensures Save(st, p).1.Saved?
  {
    assert Refusal(st, p).None?;
  }

  /** Reading puts down a draft and changes nothing else. */
  lemma ReadTakes(sys: System, projector: nat, id: int, matched: bool) returns (r: System)
    requires Observed(sys.store) && id in sys.store.observations && (matched ==> KEY in sys.store.events)
    ensures r == Next(sys, Reading(projector, id, matched)) && r.store == sys.store
    ensures var o := sys.store.observations[id];
      r.drafts == sys.drafts[projector :=
        Draft(ReportRow(KEY, id, o.sourceId, Secondary, Contextual, true, 0), o.score, o.topics,
              if matched then Some(sys.store.events[KEY]) else None)]
  {
    r := Next(sys, Reading(projector, id, matched));
  }

  /** One write by a projector whose observation nobody assigned. */
  lemma WriteGoesThrough(sys: System, projector: nat) returns (r: System)
    requires Observed(sys.store) && projector in sys.drafts && sys.store.merged == {}
    requires var d := sys.drafts[projector];
      && d.report.eventKey == KEY && d.report.observationId in sys.store.observations
      && sys.store.observations[d.report.observationId].sourceId == d.report.sourceId
      && forall i :: 0 <= i < |sys.store.reports| ==> sys.store.reports[i].observationId != d.report.observationId
    ensures r == Next(sys, Writing(projector)) && r.drafts == sys.drafts - {projector}
    ensures r.store.merged == {} && r.store.observations == sys.store.observations && Observed(r.store)
    ensures |r.store.reports| == |sys.store.reports| + 1
    ensures forall i :: 0 <= i < |sys.store.reports| ==> SamePlace(sys.store.reports[i], r.store.reports[i])
    ensures SamePlace(sys.drafts[projector].report, r.store.reports[|sys.store.reports|])
    ensures KEY in r.store.events
    ensures r.store.events[KEY].topics == Request(sys.drafts[projector], [], None).topics
  {
    var p := Request(sys.drafts[projector], [], None);
    PlainSaveIsAccepted(sys.store, p);
    SavedRows(sys.store, p);
    r := Next(sys, Writing(projector));
    RowAfterSave(sys.store, r.store, p);
  }

  /** The first report opens the event. */
  lemma EventIsOpened(score: real, a: string, b: string) returns (one: System, first: System)
    ensures Observed(one.store)
    ensures var start := System(Unassigned(score, a, b), map[]);
      one == Next(start, Reading(0, 1, false)) && first == Next(one, Writing(0))
    ensures Observed(first.store) && first.store.merged == {}
    ensures first.store.observations == Unassigned(score, a, b).observations
    ensures |first.store.reports| == 1 && first.store.reports[0].observationId == 1
    ensures KEY in first.store.events && first.store.events[KEY].topics == {}
  {
    one := ReadTakes(System(Unassigned(score, a, b), map[]), 0, 1, false);
    first := WriteGoesThrough(one, 0);
    assert SamePlace(one.drafts[0].report, first.store.reports[0]);
  }

  /** A run from a store without events. One projector opens an event; then two read it, one with a topic `a` and
      the other with a topic `b`, and both save: the event holds three reports, one of which brought `a`, and does
      not show `a`. */
  lemma TopicsCanBeLost(score: real, a: string, b: string)
      returns (one: System, first: System, two: System, both: System, second: System, third: System)
    ensures Observed(one.store) && Observed(first.store) && Observed(two.store)
    ensures Observed(both.store) && Observed(second.store)
    ensures var start := System(Unassigned(score, a, b), map[]);
      one == Next(start, Reading(0, 1, false)) && first == Next(one, Writing(0))
    ensures two == Next(first, Reading(0, 2, true)) && both == Next(two, Reading(1, 3, true))
    ensures second == Next(both, Writing(0)) && third == Next(second, Writing(1))
    ensures var s := third.store;
      && |s.reports| == 3 && s.reports[1].eventKey == KEY && s.reports[1].observationId == 2
      && 2 in s.observations && s.observations[2].topics == {a} && KEY in s.events && s.events[KEY].topics == {b}
  {
    one, first := EventIsOpened(score, a, b);
    two := ReadTakes(first, 0, 2, true);
    both := ReadTakes(two, 1, 3, true);
    second, third := WriteBoth(both);
  }

  lemma WriteBoth(both: System) returns (second: System, third: System)
    requires Observed(both.store) && both.store.merged == {}
    requires KEY in both.store.events && both.store.events[KEY].topics == {}
    requires |both.store.reports| == 1 && both.store.reports[0].observationId == 1
    requires 0 in both.drafts && 1 in both.drafts && both.drafts[0].report.observationId == 2
    requires both.drafts[1].report.observationId == 3
    requires forall q: nat :: q < 2 ==>
      var d := both.drafts[q];
      && d.report.eventKey == KEY && d.report.observationId in both.store.observations
      && both.store.observations[d.report.observationId].sourceId == d.report.sourceId
      && d.snapshot == Some(both.store.events[KEY])
    ensures Observed(second.store) && Observed(third.store)
    ensures second == Next(both, Writing(0)) && third == Next(second, Writing(1))
    ensures third.store.observations == both.store.observations && |third.store.reports| == 3
    ensures third.store.reports[1].eventKey == KEY && third.store.reports[1].observationId == 2
    ensures KEY in third.store.events && third.store.events[KEY].topics == both.drafts[1].topics
  {
    second := WriteGoesThrough(both, 0);
    assert SamePlace(both.store.reports[0], second.store.reports[0]);
    assert SamePlace(both.drafts[0].report, second.store.reports[1]);
    third := WriteGoesThrough(second, 1);
    assert SamePlace(second.store.reports[1], third.store.reports[1]);
  }
}
