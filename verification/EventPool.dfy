/** Projection of single observations into the pool, by one projector in sequence or by several with stale
    matches. */
module EventPool {
  import opened Ordering
  import opened EventIdentity

  /** What matching reads of a report; the semantic identity is that of its title. */
  datatype Report = Report(observationId: int, publishedAt: int, semantic: Option<Semantic>,
                           occurrence: Option<OccurrenceKey>, signals: int)

  /** The identity of a new event, by the material its hash is made of. */
  datatype EventKey =
    | OccurrenceEvent(occurrence: OccurrenceKey)
    | DecisionEvent(dated: DatedKey, action: Action, slot: int, publishedAt: int)
    | SignalEvent(signals: int, day: int)

  datatype PoolEvent = PoolEvent(reports: seq<Report>, occurrences: set<OccurrenceKey>)
  type Pool = map<EventKey, PoolEvent>

  /** The scorer against an event's shape and against one of its reports, the order of event keys, the
      threshold and the calendar. */
  datatype Setting = Setting(shapeScore: (Report, PoolEvent) -> real, reportScore: (Report, PoolEvent, Report) -> real,
                             keyOrder: EventKey -> int, threshold: real, calendar: Calendar)

  const REPORT_LIMIT := 2000

  predicate Agrees(o: Report, r: Report, calendar: Calendar) {
    o.semantic.Some? && r.semantic.Some? ==>
      Compatible(o.semantic.value, r.semantic.value, o.publishedAt, r.publishedAt, calendar)
  }

  /** The whole evidence of a candidate is checked, not only its shape. */
  predicate Accepts(e: PoolEvent, o: Report, s: Setting) {
    && (o.occurrence.Some? ==> forall k :: k in e.occurrences ==> k == o.occurrence.value)
    && |e.reports| < REPORT_LIMIT
    && (forall r :: r in e.reports ==> s.reportScore(o, e, r) >= 0.5)
    && (forall r :: r in e.reports ==> Agrees(o, r, s.calendar))
  }

  /** Higher score first, then the smaller key. */
  predicate RanksBefore(pool: Pool, o: Report, s: Setting, a: EventKey, b: EventKey) {
    a in pool && b in pool ==>
      (s.shapeScore(o, pool[a]) > s.shapeScore(o, pool[b])
       || (s.shapeScore(o, pool[a]) == s.shapeScore(o, pool[b]) && s.keyOrder(a) <= s.keyOrder(b)))
  }

  ghost predicate Bound(pool: Pool, o: Report, key: EventKey) {
    o.occurrence.Some? && key in pool && o.occurrence.value in pool[key].occurrences
  }

  /** A candidate good enough to join. */
  ghost predicate Joinable(pool: Pool, o: Report, s: Setting, key: EventKey) {
    key in pool && s.shapeScore(o, pool[key]) >= s.threshold && Accepts(pool[key], o, s)
  }

  /** Keys of `candidates` in ranking order. */
  function Ranked(pool: Pool, o: Report, s: Setting, candidates: seq<EventKey>): seq<EventKey> {
    Sort((a: EventKey, b: EventKey) => RanksBefore(pool, o, s, a, b), candidates)
  }

  /** Finds the event an observation belongs to: the one its occurrence is bound to, otherwise the first
      joinable candidate of the ranking. */
  method Match(pool: Pool, o: Report, s: Setting, bound: Option<EventKey>, candidates: seq<EventKey>)
    returns (found: Option<EventKey>)
    requires forall k :: k in candidates ==> k in pool
    requires bound.Some? ==> Bound(pool, o, bound.value)
    ensures bound.Some? ==> found == bound
    ensures bound.None? && found.None? ==> forall k :: k in candidates ==> !Joinable(pool, o, s, k)
    ensures bound.None? && found.Some? ==> found.value in candidates && Joinable(pool, o, s, found.value)
    ensures bound.None? && found.Some? ==>
      forall k :: k in candidates && Joinable(pool, o, s, k) ==> RanksBefore(pool, o, s, found.value, k)
  {
    if bound.Some? {
      return bound;
    }
    var ranked := Ranked(pool, o, s, candidates);
    SameMembers(candidates, ranked);
    RankedOrder(pool, o, s, candidates);
    for i := 0 to |ranked|
      invariant forall j :: 0 <= j < i ==> !Joinable(pool, o, s, ranked[j])
    {
      var key := ranked[i];
      assert key in ranked;
      if s.shapeScore(o, pool[key]) < s.threshold {
        forall k | k in candidates ensures !Joinable(pool, o, s, k) {
          var j :| 0 <= j < |ranked| && ranked[j] == k;
          if j > i { assert RanksBefore(pool, o, s, ranked[i], ranked[j]); }
        }
        return None;
      }
      if Accepts(pool[key], o, s) {
        forall k | k in candidates && Joinable(pool, o, s, k) ensures RanksBefore(pool, o, s, key, k) {
          var j :| 0 <= j < |ranked| && ranked[j] == k;
          assert j == i || RanksBefore(pool, o, s, ranked[i], ranked[j]);
        }
        return Some(key);
      }
    }
    forall k | k in candidates ensures !Joinable(pool, o, s, k) {
      var j :| 0 <= j < |ranked| && ranked[j] == k;
    }
    return None;
  }

  lemma {:induction false} RankedInsert(pool: Pool, o: Report, s: Setting, leq: (EventKey, EventKey) -> bool,
                                        x: EventKey, rest: seq<EventKey>)
    requires forall a, b :: leq(a, b) == RanksBefore(pool, o, s, a, b)
    requires x in pool && (forall k :: k in rest ==> k in pool) && Sorted(leq, rest)
    ensures Sorted(leq, Insert(leq, x, rest))
  {
    if rest != [] && !leq(x, rest[0]) {
      var tail := Insert(leq, x, rest[1..]);
      RankedInsert(pool, o, s, leq, x, rest[1..]);
      SameMembers(tail, [x] + rest[1..]);
      forall i | 0 <= i < |tail| ensures leq(rest[0], tail[i]) {
        assert tail[i] in tail && rest[0] in rest;
        if tail[i] != x {
          assert tail[i] in rest[1..];
          var j :| 0 <= j < |rest[1..]| && rest[1..][j] == tail[i];
          assert leq(rest[0], rest[j + 1]);
        }
      }
    } else if rest != [] {
      forall i | 0 <= i < |rest| ensures leq(x, rest[i]) {
        assert rest[i] in rest && rest[0] in rest;
        assert i == 0 || leq(rest[0], rest[i]);
      }
    }
  }

  lemma {:induction false} RankedSort(pool: Pool, o: Report, s: Setting, leq: (EventKey, EventKey) -> bool,
                                      keys: seq<EventKey>)
    requires forall a, b :: leq(a, b) == RanksBefore(pool, o, s, a, b)
    requires forall k :: k in keys ==> k in pool
    ensures Sorted(leq, Sort(leq, keys))
  {
    if keys != [] {
      RankedSort(pool, o, s, leq, keys[1..]);
      SameMembers(keys[1..], Sort(leq, keys[1..]));
      assert keys[0] in keys;
      RankedInsert(pool, o, s, leq, keys[0], Sort(leq, keys[1..]));
    }
  }

  lemma RankedOrder(pool: Pool, o: Report, s: Setting, keys: seq<EventKey>)
    requires forall k :: k in keys ==> k in pool
    ensures var ranked := Ranked(pool, o, s, keys);
      forall i, j :: 0 <= i < j < |ranked| ==> RanksBefore(pool, o, s, ranked[i], ranked[j])
  {
    RankedSort(pool, o, s, (a: EventKey, b: EventKey) => RanksBefore(pool, o, s, a, b), keys);
  }

  // ----- projecting one observation ------------------------------------------------------

  function NewIdentity(o: Report, s: Setting): EventKey {
    if o.occurrence.Some? then OccurrenceEvent(o.occurrence.value)
    else if o.semantic.Some? then
      DecisionEvent(Dated(o.semantic.value, o.publishedAt, s.calendar), o.semantic.value.action, o.publishedAt / 21600,
        o.publishedAt)
    else SignalEvent(o.signals, o.publishedAt / 86400)
  }

  predicate Refused(pool: Pool, key: EventKey, o: Report) {
    || (o.occurrence.Some? && exists k :: k in pool && k != key && o.occurrence.value in pool[k].occurrences)
    || (o.occurrence.Some? && key in pool && exists x :: x in pool[key].occurrences && x != o.occurrence.value)
    || (exists k, r :: k in pool && r in pool[k].reports && r.observationId == o.observationId)
  }

  function Saved(pool: Pool, key: EventKey, o: Report): Pool {
    if Refused(pool, key, o) then pool
    else
      var was := if key in pool then pool[key] else PoolEvent([], {});
      pool[key := PoolEvent(was.reports + [o],
                            if o.occurrence.Some? then was.occurrences + {o.occurrence.value} else was.occurrences)]
  }

  /** The pool after one observation, given what matching found. A new identity may well coincide with
      an event that matching passed over. */
  function Project(pool: Pool, o: Report, found: Option<EventKey>, s: Setting): Pool {
    Saved(pool, if found.Some? then found.value else NewIdentity(o, s), o)
  }

  // ----- a pairwise relation that is not transitive --------------------------------------

  ghost predicate Pairwise(reports: seq<Report>, calendar: Calendar) {
    forall i, j :: 0 <= i < |reports| && 0 <= j < |reports| && i != j ==> Agrees(reports[i], reports[j], calendar)
  }

  /** An event named after a decision still holds a report with exactly that decision's signature. */
  ghost predicate Signed(key: EventKey, reports: seq<Report>, calendar: Calendar) {
    key.DecisionEvent? ==> exists r :: r in reports && HasSignature(r, key, calendar)
  }

  ghost predicate HasSignature(r: Report, key: EventKey, calendar: Calendar)
    requires key.DecisionEvent?
  {
    r.semantic.Some? && Dated(r.semantic.value, r.publishedAt, calendar) == key.dated
    && r.semantic.value.action == key.action && r.publishedAt == key.publishedAt
  }

  ghost predicate Coherent(pool: Pool, calendar: Calendar) {
    forall k :: k in pool && pool[k].occurrences == {} ==>
      Pairwise(pool[k].reports, calendar) && Signed(k, pool[k].reports, calendar)
  }

  lemma AgreementIsSymmetric(a: Report, b: Report, calendar: Calendar)
    ensures Agrees(a, b, calendar) <==> Agrees(b, a, calendar)
  {
  }

  lemma AppendKeepsPairwise(reports: seq<Report>, o: Report, calendar: Calendar)
    requires Pairwise(reports, calendar) && forall r :: r in reports ==> Agrees(o, r, calendar)
    ensures Pairwise(reports + [o], calendar)
  {
    var all := reports + [o];
    forall i, j | 0 <= i < |all| && 0 <= j < |all| && i != j ensures Agrees(all[i], all[j], calendar) {
      if i == |reports| {
        assert all[j] in reports;
      } else if j == |reports| {
        assert all[i] in reports;
        AgreementIsSymmetric(o, all[i], calendar);
      }
    }
  }

  /** An observation whose new identity is already taken agrees with everything in that event. */
  lemma SameSignatureAgrees(reports: seq<Report>, o: Report, s: Setting)
    requires Pairwise(reports, s.calendar) && Signed(NewIdentity(o, s), reports, s.calendar)
    requires o.occurrence.None?
    ensures forall r :: r in reports ==> Agrees(o, r, s.calendar)
  {
    if o.semantic.Some? {
      var c :| c in reports && HasSignature(c, NewIdentity(o, s), s.calendar);
      var i :| 0 <= i < |reports| && reports[i] == c;
      forall r | r in reports ensures Agrees(o, r, s.calendar) {
        var j :| 0 <= j < |reports| && reports[j] == r;
        assert j == i || Agrees(reports[i], reports[j], s.calendar);
      }
    }
  }

  /** The observation goes to an event without bound occurrence holding a report it does not agree with. */
  ghost predicate Clashes(pool: Pool, o: Report, key: EventKey, s: Setting) {
    && key in pool && pool[key].occurrences == {} && o.occurrence.None? && !Refused(pool, key, o)
    && exists r :: r in pool[key].reports && !Agrees(o, r, s.calendar)
  }

  /** Whatever match a projection works from, made now or long ago, it keeps the events coherent exactly when it
      does not clash; a new identity never does. */
  lemma ProjectKeepsCoherentIff(pool: Pool, o: Report, found: Option<EventKey>, s: Setting)
    requires Coherent(pool, s.calendar) && (found.Some? ==> found.value in pool)
    ensures Coherent(Project(pool, o, found, s), s.calendar) <==> !(found.Some? && Clashes(pool, o, found.value, s))
  {
    var after := Project(pool, o, found, s);
    if found.Some? && Clashes(pool, o, found.value, s) {
      var was := pool[found.value].reports;
      var r :| r in was && !Agrees(o, r, s.calendar);
      AppendBreaksPairwise(was, o, r, s.calendar);
      assert after[found.value] == PoolEvent(was + [o], {});
    } else {
      forall k | k in after && after[k].occurrences == {}
        ensures Pairwise(after[k].reports, s.calendar) && Signed(k, after[k].reports, s.calendar) {
        EventStaysPairwise(pool, o, found, s, k);
      }
    }
  }

  lemma EventStaysPairwise(pool: Pool, o: Report, found: Option<EventKey>, s: Setting, k: EventKey)
    requires Coherent(pool, s.calendar) && (found.Some? ==> found.value in pool && !Clashes(pool, o, found.value, s))
    requires k in Project(pool, o, found, s) && Project(pool, o, found, s)[k].occurrences == {}
    ensures var reports := Project(pool, o, found, s)[k].reports;
      Pairwise(reports, s.calendar) && Signed(k, reports, s.calendar)
  {
    var key := if found.Some? then found.value else NewIdentity(o, s);
    var reports := Project(pool, o, found, s)[k].reports;
    if k == key && !Refused(pool, key, o) {
      var was := if key in pool then pool[key].reports else [];
      assert reports == was + [o] && o.occurrence.None?;
      if key in pool {
        assert pool[key].occurrences == {};
        if found.None? { SameSignatureAgrees(was, o, s); }
        AppendKeepsPairwise(was, o, s.calendar);
        if key.DecisionEvent? {
          var c :| c in was && HasSignature(c, key, s.calendar);
          assert c in reports;
        }
      } else {
        assert reports == [o] && o in reports;
      }
    }
  }

  lemma AppendBreaksPairwise(reports: seq<Report>, o: Report, r: Report, calendar: Calendar)
    requires r in reports && !Agrees(o, r, calendar)
    ensures !Pairwise(reports + [o], calendar)
  {
    var all := reports + [o];
    var i :| 0 <= i < |reports| && reports[i] == r;
    assert all[|reports|] == o && all[i] == r;
  }

  /** A match made on the pool as it is never clashes. */
  lemma ProjectKeepsCoherent(pool: Pool, o: Report, found: Option<EventKey>, s: Setting)
    requires Coherent(pool, s.calendar)
    requires found.Some? ==> Bound(pool, o, found.value) || Joinable(pool, o, s, found.value)
    ensures Coherent(Project(pool, o, found, s), s.calendar)
  {
    ProjectKeepsCoherentIff(pool, o, found, s);
  }

  /** Saves of any number of projectors in the order they commit: each match was made on the pool as it is, or
      on an older one and does not clash. */
  ghost predicate HarmlessRun(pool: Pool, run: seq<(Report, Option<EventKey>)>, s: Setting)
    decreases |run|
  {
    run == [] ||
    (var (o, found) := run[0];
     (found.Some? ==>
       || Bound(pool, o, found.value) || Joinable(pool, o, s, found.value)
       || (found.value in pool && !Clashes(pool, o, found.value, s)))
     && HarmlessRun(Project(pool, o, found, s), run[1..], s))
  }

  ghost function Projected(pool: Pool, run: seq<(Report, Option<EventKey>)>, s: Setting): Pool
    decreases |run|
  {
    if run == [] then pool else Projected(Project(pool, run[0].0, run[0].1, s), run[1..], s)
  }

  lemma {:induction false} RunKeepsCoherent(pool: Pool, run: seq<(Report, Option<EventKey>)>, s: Setting)
    requires Coherent(pool, s.calendar) && HarmlessRun(pool, run, s)
    ensures Coherent(Projected(pool, run, s), s.calendar)
    decreases |run|
  {
    if run != [] {
      ProjectKeepsCoherentIff(pool, run[0].0, run[0].1, s);
      RunKeepsCoherent(Project(pool, run[0].0, run[0].1, s), run[1..], s);
    }
  }

  /** In a pool built without clashes, by one projector in sequence or by many, an event with no bound
      occurrence never holds both a raise and a cut, nor decisions of different banks, different local days or
      more than six hours apart. */
  lemma PoolEventsAreOneDecision(run: seq<(Report, Option<EventKey>)>, s: Setting, key: EventKey, i: nat, j: nat)
    requires HarmlessRun(map[], run, s) && key in Projected(map[], run, s)
    requires Projected(map[], run, s)[key].occurrences == {}
    requires i < j < |Projected(map[], run, s)[key].reports|
    ensures var a, b := Projected(map[], run, s)[key].reports[i], Projected(map[], run, s)[key].reports[j];
      a.semantic.Some? && b.semantic.Some? ==>
        && a.semantic.value.entity == b.semantic.value.entity
        && Dated(a.semantic.value, a.publishedAt, s.calendar) == Dated(b.semantic.value, b.publishedAt, s.calendar)
        && Distance(a.publishedAt, b.publishedAt) <= SIX_HOURS
        && !(a.semantic.value.action == Raise && b.semantic.value.action == Cut)
        && !(a.semantic.value.action == Cut && b.semantic.value.action == Raise)
  {
    RunKeepsCoherent(map[], run, s);
    var reports := Projected(map[], run, s)[key].reports;
    assert Agrees(reports[i], reports[j], s.calendar);
  }

  // ----- saves from stale matches --------------------------------------------------------

  /** For an observation without occurrence and an event with none bound: a match made from an older pool is
      harmless exactly when the observation still agrees with every report the event holds when it is saved. */
  lemma StaleSaveKeepsCoherentIff(pool: Pool, o: Report, key: EventKey, s: Setting)
    requires Coherent(pool, s.calendar) && key in pool && pool[key].occurrences == {}
    requires o.occurrence.None? && !Refused(pool, key, o)
    ensures Coherent(Project(pool, o, Some(key), s), s.calendar) <==>
      forall r :: r in pool[key].reports ==> Agrees(o, r, s.calendar)
  {
    ProjectKeepsCoherentIff(pool, o, Some(key), s);
  }

  function RateNotice(): Semantic {
    Semantic("central-bank-rate-decision", "ecb", "Europe/Berlin", Corroborates, Announcement)
  }
  function Notice(): Report { Report(1, 0, Some(RateNotice()), None, 0) }
  function RaiseReport(): Report { Report(2, 0, Some(RateNotice().(action := Raise)), None, 0) }
  function CutReport(): Report { Report(3, 0, Some(RateNotice().(action := Cut)), None, 0) }

  /** Two projectors that both read the pool with only the announcement: each finds the announcement's event
      joinable, one for a raise and the other for a cut, and after both saves the event holds the two. All it takes
      is that the announcement scores well against either. */
  lemma StaleMatchesMayConflict(s: Setting)
    requires var e := PoolEvent([Notice()], {});
      && s.shapeScore(RaiseReport(), e) >= s.threshold && s.shapeScore(CutReport(), e) >= s.threshold
      && s.reportScore(RaiseReport(), e, Notice()) >= 0.5 && s.reportScore(CutReport(), e, Notice()) >= 0.5
    ensures var k := NewIdentity(Notice(), s);
      var pool := Project(map[], Notice(), None, s);
      var after := Project(Project(pool, RaiseReport(), Some(k), s), CutReport(), Some(k), s);
      && Coherent(pool, s.calendar)
      && Joinable(pool, RaiseReport(), s, k) && Joinable(pool, CutReport(), s, k)
      && RaiseReport() in after[k].reports && CutReport() in after[k].reports && after[k].occurrences == {}
      && !Coherent(after, s.calendar)
  {
    var k := NewIdentity(Notice(), s);
    var pool := Project(map[], Notice(), None, s);
    assert [] + [Notice()] == [Notice()];
    assert k in pool && pool[k] == PoolEvent([Notice()], {});
    ProjectKeepsCoherent(map[], Notice(), None, s);
    assert Agrees(RaiseReport(), Notice(), s.calendar) && Agrees(CutReport(), Notice(), s.calendar);
    assert Joinable(pool, RaiseReport(), s, k) && Joinable(pool, CutReport(), s, k);
    ProjectKeepsCoherent(pool, RaiseReport(), Some(k), s);
    var raised := Project(pool, RaiseReport(), Some(k), s);
    assert raised[k] == PoolEvent([Notice(), RaiseReport()], {});
    assert RaiseReport() in raised[k].reports && !Agrees(CutReport(), RaiseReport(), s.calendar);
    StaleSaveKeepsCoherentIff(raised, CutReport(), k, s);
  }
}
