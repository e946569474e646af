/** What the frozen window shows, read off the tables. */
module EventWindow {
  import opened Ordering
  import opened EventPaging

  // ----- which reports count -------------------------------------------------------------

  /** An alert of the observation was created in the window, was not cancelled and lies below the high-water mark.
      */
  ghost predicate Alerted(db: Tables, w: Window, observationId: int) {
    exists i :: 0 <= i < |db.alerts| && db.alerts[i].observationId == observationId && !db.alerts[i].cancelled
                && db.alerts[i].id <= w.alertMax && w.since <= db.alerts[i].createdAt < w.until
  }

  /** The report at a position belongs to the event and shows: it was published in the window, or its observation
      was alerted there, and lies below the high-water mark. */
  ghost predicate Shows(db: Tables, w: Window, eventId: int, i: int) {
    && 0 <= i < |db.reports| && db.reports[i].eventId == eventId && db.reports[i].id <= w.reportMax
    && (w.since <= db.reports[i].publishedAt < w.until || Alerted(db, w, db.reports[i].observationId))
  }

  ghost function Shown(db: Tables, w: Window, eventId: int): set<int> {
    set i | 0 <= i < |db.reports| && Shows(db, w, eventId, i)
  }

  lemma AlertedIsAlertedIn(db: Tables, w: Window, observationId: int)
    ensures AlertedIn(db, w, observationId) <==> Alerted(db, w, observationId)
  {
    if AlertedIn(db, w, observationId) {
      var a :| a in db.alerts && a.observationId == observationId && a.id <= w.alertMax
               && w.since <= a.createdAt < w.until && !a.cancelled;
      var i :| 0 <= i < |db.alerts| && db.alerts[i] == a;
    }
    if Alerted(db, w, observationId) {
      var i :| 0 <= i < |db.alerts| && db.alerts[i].observationId == observationId && !db.alerts[i].cancelled
               && db.alerts[i].id <= w.alertMax && w.since <= db.alerts[i].createdAt < w.until;
      assert db.alerts[i] in db.alerts;
    }
  }

  /** The event's reports of the window, in table order. */
  function Mine(db: Tables, w: Window, eventId: int): seq<ReportRow> { OfEvent(WindowReports(db, w), eventId) }

  lemma {:induction false} FilterTwice<T(!new)>(p: T -> bool, q: T -> bool, both: T -> bool, s: seq<T>)
    requires forall x :: both(x) == (p(x) && q(x))
    ensures Filter(q, Filter(p, s)) == Filter(both, s)
  {
    if s != [] {
      FilterTwice(p, q, both, s[1..]);
      if p(s[0]) {
        assert Filter(p, s) == [s[0]] + Filter(p, s[1..]);
        assert Filter(p, s)[1..] == Filter(p, s[1..]);
      } else {
        assert Filter(p, s) == Filter(p, s[1..]);
      }
    }
  }

  lemma {:induction false} FilterLast<T(!new)>(p: T -> bool, s: seq<T>, x: T)
    ensures Filter(p, s + [x]) == Filter(p, s) + if p(x) then [x] else []
  {
    if s == [] {
      assert s + [x] == [x] && [x][1..] == [];
    } else {
      assert (s + [x])[1..] == s[1..] + [x];
      FilterLast(p, s[1..], x);
    }
  }

  ghost function Places<T(!new)>(p: T -> bool, s: seq<T>): set<int> { set i | 0 <= i < |s| && p(s[i]) }

  lemma PlacesOfLast<T(!new)>(p: T -> bool, s: seq<T>, x: T)
    ensures |Places(p, s + [x])| == |Places(p, s)| + if p(x) then 1 else 0
  {
    var all := s + [x];
    forall i ensures i in Places(p, all) <==> i in Places(p, s) || (i == |s| && p(x)) {
      assert 0 <= i < |s| ==> all[i] == s[i];
    }
    if p(x) {
      assert Places(p, all) == Places(p, s) + {|s|};
    } else {
      assert Places(p, all) == Places(p, s);
    }
  }

  lemma {:induction false} FilterCount<T(!new)>(p: T -> bool, s: seq<T>)
    ensures |Filter(p, s)| == |Places(p, s)|
    decreases |s|
  {
    if s != [] {
      var n := |s| - 1;
      assert s == s[..n] + [s[n]];
      FilterLast(p, s[..n], s[n]);
      FilterCount(p, s[..n]);
      PlacesOfLast(p, s[..n], s[n]);
    } else {
      assert |Places(p, s)| == 0;
    }
  }

  function Keeps(db: Tables, w: Window, eventId: int): ReportRow -> bool {
    (r: ReportRow) => InWindow(db, w, r) && r.eventId == eventId
  }

  lemma MineIsKept(db: Tables, w: Window, eventId: int)
    ensures Mine(db, w, eventId) == Filter(Keeps(db, w, eventId), db.reports)
  {
    var p, q := (r: ReportRow) => InWindow(db, w, r), (r: ReportRow) => r.eventId == eventId;
    FilterTwice(p, q, Keeps(db, w, eventId), db.reports);
    FilterAgrees(r => InWindow(db, w, r), p, db.reports);
    FilterAgrees((r: ReportRow) => r.eventId == eventId, q, WindowReports(db, w));
  }

  lemma KeptIffShown(db: Tables, w: Window, eventId: int, i: int)
    requires 0 <= i < |db.reports|
    ensures Keeps(db, w, eventId)(db.reports[i]) <==> Shows(db, w, eventId, i)
  {
    AlertedIsAlertedIn(db, w, db.reports[i].observationId);
  }

  lemma MineIsShown(db: Tables, w: Window, eventId: int)
    ensures |Mine(db, w, eventId)| == |Shown(db, w, eventId)|
    ensures forall r :: r in Mine(db, w, eventId) <==> exists i :: Shows(db, w, eventId, i) && db.reports[i] == r
  {
    var keeps := Keeps(db, w, eventId);
    MineIsKept(db, w, eventId);
    FilterCount(keeps, db.reports);
    forall i | 0 <= i < |db.reports| ensures keeps(db.reports[i]) <==> Shows(db, w, eventId, i) {
      KeptIffShown(db, w, eventId, i);
    }
    assert Places(keeps, db.reports) == Shown(db, w, eventId);
    forall r ensures r in Mine(db, w, eventId) <==> exists i :: Shows(db, w, eventId, i) && db.reports[i] == r {
      assert r in Mine(db, w, eventId) <==> r in db.reports && keeps(r);
    }
  }

  // ----- one row per event ---------------------------------------------------------------

  lemma OfOthers(reports: seq<ReportRow>, id: int, other: int)
    requires id != other
    ensures OfEvent(Filter((r: ReportRow) => r.eventId != id, reports), other) == OfEvent(reports, other)
  {
    var p, q := (r: ReportRow) => r.eventId != id, (r: ReportRow) => r.eventId == other;
    FilterTwice(p, q, (r: ReportRow) => p(r) && q(r), reports);
    FilterAgrees((r: ReportRow) => r.eventId != id, p, reports);
    FilterAgrees((r: ReportRow) => r.eventId == other, q, Filter(p, reports));
    FilterAgrees((r: ReportRow) => r.eventId == other, q, reports);
    FilterAgrees((r: ReportRow) => p(r) && q(r), q, reports);
  }

  /** There is a row exactly for every event with a report, made of all reports of the event. */
  lemma {:induction false} RowsAreOfEvents(db: Tables, w: Window, log2: nat -> real, reports: seq<ReportRow>)
    requires Observed(db, reports)
    ensures forall row :: row in RowsOf(db, w, log2, reports) ==>
      OfEvent(reports, row.id) != [] && row == RowOf(db, w, log2, row.id, OfEvent(reports, row.id))
    ensures forall r :: r in reports ==> exists row :: row in RowsOf(db, w, log2, reports) && row.id == r.eventId
    decreases |reports|
  {
    if reports != [] {
      var id := reports[0].eventId;
      var mine := OfEvent(reports, id);
      var others := Filter((r: ReportRow) => r.eventId != id, reports);
      FilterShrinks(reports, id);
      assert reports[0] in mine;
      RowsAreOfEvents(db, w, log2, others);
      RowsHaveDistinctIds(db, w, log2, others);
      var first, tail := RowOf(db, w, log2, id, mine), RowsOf(db, w, log2, others);
      var rows := RowsOf(db, w, log2, reports);
      assert rows == [first] + tail;
      forall row | row in rows
        ensures OfEvent(reports, row.id) != [] && row == RowOf(db, w, log2, row.id, OfEvent(reports, row.id)) {
        if row in tail {
          assert HasReport(others, row.id);
          OfOthers(reports, id, row.id);
        }
      }
      forall r | r in reports ensures exists row :: row in rows && row.id == r.eventId {
        if r.eventId == id {
          assert first in rows;
        } else {
          assert r in others;
          var row :| row in tail && row.id == r.eventId;
          assert row in rows;
        }
      }
    }
  }

  ghost predicate HasRow(rows: seq<Row>, eventId: int) { exists row :: row in rows && row.id == eventId }

  ghost predicate HasShown(db: Tables, w: Window, eventId: int) { exists i :: Shows(db, w, eventId, i) }

  /** A row exists exactly for the events with a report that shows. */
  lemma WindowShowsEventIff(db: Tables, w: Window, log2: nat -> real, eventId: int)
    requires Observed(db, db.reports)
    ensures HasRow(Rows(db, w, log2), eventId) <==> HasShown(db, w, eventId)
  {
    RowsAreOfEvents(db, w, log2, WindowReports(db, w));
    MineIsShown(db, w, eventId);
    if i :| Shows(db, w, eventId, i) {
      assert db.reports[i] in Mine(db, w, eventId);
      assert db.reports[i] in WindowReports(db, w);
    }
    if row :| row in Rows(db, w, log2) && row.id == eventId {
      var r := Mine(db, w, eventId)[0];
      assert r in Mine(db, w, eventId);
    }
  }

  // ----- what a row says -----------------------------------------------------------------

  lemma {:induction false} SpanIsExact(mine: seq<ReportRow>)
    requires mine != []
    ensures forall r :: r in mine ==> Earliest(mine) <= r.publishedAt <= Latest(mine)
    ensures (exists r :: r in mine && r.publishedAt == Earliest(mine))
         && (exists r :: r in mine && r.publishedAt == Latest(mine))
  {
    assert mine[0] in mine;
    if |mine| > 1 {
      SpanIsExact(mine[1..]);
      var a :| a in mine[1..] && a.publishedAt == Earliest(mine[1..]);
      var b :| b in mine[1..] && b.publishedAt == Latest(mine[1..]);
      assert a in mine && b in mine;
    }
  }

  lemma {:induction false} ImportanceIsExact(db: Tables, mine: seq<ReportRow>)
    requires mine != [] && Observed(db, mine)
    ensures forall r :: r in mine ==> db.observations[r.observationId].importance <= TopImportance(db, mine)
    ensures exists r :: r in mine && db.observations[r.observationId].importance == TopImportance(db, mine)
  {
    assert mine[0] in mine;
    if |mine| > 1 {
      ImportanceIsExact(db, mine[1..]);
      var a :| a in mine[1..] && db.observations[a.observationId].importance == TopImportance(db, mine[1..]);
      assert a in mine;
    }
  }

  /** What an observation is worth by itself. */
  function WorthOf(o: ObservationRow): real {
    (35 * o.importance + 15 * o.urgency + 25 * o.relevance) as real / 100.0
    + (if o.confidence < 0.0 then 0.0 else if o.confidence > 1.0 then 1.0 else o.confidence) / 2.0
  }

  lemma {:induction false} EvidenceIsExact(db: Tables, mine: seq<ReportRow>)
    requires mine != [] && Observed(db, mine)
    ensures forall r :: r in mine ==> WorthOf(db.observations[r.observationId]) <= TopEvidence(db, mine)
    ensures exists r :: r in mine && WorthOf(db.observations[r.observationId]) == TopEvidence(db, mine)
  {
    assert mine[0] in mine;
    assert Evidence(db.observations[mine[0].observationId]) == WorthOf(db.observations[mine[0].observationId]);
    if |mine| > 1 {
      EvidenceIsExact(db, mine[1..]);
      var a :| a in mine[1..] && WorthOf(db.observations[a.observationId]) == TopEvidence(db, mine[1..]);
      assert a in mine;
    }
  }

  /** Each further independent source adds a quarter for every doubling, three quarters at most. */
  function SourceBonus(log2: nat -> real, sources: nat): real {
    var doublings := log2(if sources == 0 then 1 else sources);
    if doublings < 3.0 then doublings / 4.0 else 0.75
  }

  /** How a report names its source: by the publisher of its observation, or failing that by its source. */
  function NameOf(db: Tables, r: ReportRow): string
    requires r.observationId in db.observations
  {
    if db.observations[r.observationId].publisher != "" then db.observations[r.observationId].publisher else r.sourceId
  }

  ghost predicate Urgent(db: Tables, w: Window, observationId: int)
    requires observationId in db.observations
  {
    db.observations[observationId].immediate || Alerted(db, w, observationId)
  }

  ghost predicate Counts(db: Tables, mine: set<int>, row: Row)
    requires forall i :: i in mine ==> 0 <= i < |db.reports| && db.reports[i].observationId in db.observations
  {
    && row.reportCount == |mine|
    && (forall i :: i in mine ==> row.firstSeen <= db.reports[i].publishedAt <= row.lastSeen)
    && (exists i :: i in mine && db.reports[i].publishedAt == row.firstSeen)
    && (exists i :: i in mine && db.reports[i].publishedAt == row.lastSeen)
    && (forall i :: i in mine ==> db.observations[db.reports[i].observationId].importance <= row.importance)
    && (exists i :: i in mine && db.observations[db.reports[i].observationId].importance == row.importance)
  }

  ghost predicate Weighs(db: Tables, w: Window, log2: nat -> real, mine: set<int>, row: Row)
    requires forall i :: i in mine ==> 0 <= i < |db.reports| && db.reports[i].observationId in db.observations
  {
    && (exists names: set<string> ::
          && |names| == row.sources
          && forall x :: x in names <==> x != "" && exists i :: i in mine && NameOf(db, db.reports[i]) == x)
    && (forall i :: i in mine ==>
          WorthOf(db.observations[db.reports[i].observationId]) + SourceBonus(log2, row.sources) <= row.score)
    && (exists i :: i in mine
          && WorthOf(db.observations[db.reports[i].observationId]) + SourceBonus(log2, row.sources) == row.score)
    && (row.immediate <==> exists i :: i in mine && Urgent(db, w, db.reports[i].observationId))
  }

  lemma BonusIsExact(log2: nat -> real, sources: nat)
    ensures Bonus(log2, sources) == SourceBonus(log2, sources)
  {
  }

  lemma RowCounts(db: Tables, w: Window, log2: nat -> real, eventId: int, mine: seq<ReportRow>, shown: set<int>)
    requires mine != [] && Observed(db, mine) && |mine| == |shown|
    requires forall i :: i in shown ==> 0 <= i < |db.reports| && db.reports[i].observationId in db.observations
    requires forall r :: r in mine <==> exists i :: i in shown && db.reports[i] == r
    ensures Counts(db, shown, RowOf(db, w, log2, eventId, mine))
  {
    SpanIsExact(mine);
    ImportanceIsExact(db, mine);
    forall i | i in shown ensures db.reports[i] in mine {}
  }

  lemma RowWeighs(db: Tables, w: Window, log2: nat -> real, eventId: int, mine: seq<ReportRow>, shown: set<int>)
    requires mine != [] && Observed(db, mine)
    requires forall i :: i in shown ==> 0 <= i < |db.reports| && db.reports[i].observationId in db.observations
    requires forall r :: r in mine <==> exists i :: i in shown && db.reports[i] == r
    ensures Weighs(db, w, log2, shown, RowOf(db, w, log2, eventId, mine))
  {
    var row := RowOf(db, w, log2, eventId, mine);
    EvidenceIsExact(db, mine);
    BonusIsExact(log2, row.sources);
    forall i | i in shown ensures db.reports[i] in mine {}
    var names := Sources(db, mine);
    forall x ensures x in names <==> x != "" && exists i :: i in shown && NameOf(db, db.reports[i]) == x {
      if x in names {
        var r :| r in mine && NameOf(db, r) == x;
      }
      if i :| i in shown && NameOf(db, db.reports[i]) == x {
        assert db.reports[i] in mine;
      }
    }
    ImmediateIsExact(db, w, mine, shown);
  }

  lemma ImmediateIsExact(db: Tables, w: Window, mine: seq<ReportRow>, shown: set<int>)
    requires Observed(db, mine)
    requires forall i :: i in shown ==> 0 <= i < |db.reports| && db.reports[i].observationId in db.observations
    requires forall r :: r in mine <==> exists i :: i in shown && db.reports[i] == r
    ensures (exists r :: r in mine && (db.observations[r.observationId].immediate || AlertedIn(db, w, r.observationId)))
       <==> (exists i :: i in shown && Urgent(db, w, db.reports[i].observationId))
  {
    forall o ensures AlertedIn(db, w, o) <==> Alerted(db, w, o) { AlertedIsAlertedIn(db, w, o); }
    forall i | i in shown ensures db.reports[i] in mine {}
  }

  lemma RowIsExact(db: Tables, w: Window, log2: nat -> real, row: Row)
    requires Observed(db, db.reports) && row in Rows(db, w, log2)
    ensures Counts(db, Shown(db, w, row.id), row) && Weighs(db, w, log2, Shown(db, w, row.id), row)
  {
    RowsAreOfEvents(db, w, log2, WindowReports(db, w));
    MineIsShown(db, w, row.id);
    RowCounts(db, w, log2, row.id, Mine(db, w, row.id), Shown(db, w, row.id));
    RowWeighs(db, w, log2, row.id, Mine(db, w, row.id), Shown(db, w, row.id));
  }

  /** The ranking holds one row for every event with a report that shows and no other; each row has the exact count,
      span, importance, score, number of sources and urgency of just those reports. */
  lemma RankingIsExact(db: Tables, w: Window, log2: nat -> real, order: Order)
    requires Observed(db, db.reports)
    ensures DistinctIds(Ranking(db, w, log2, order))
    ensures forall eventId :: HasRow(Ranking(db, w, log2, order), eventId) <==> HasShown(db, w, eventId)
    ensures forall row :: row in Ranking(db, w, log2, order) ==>
      Counts(db, Shown(db, w, row.id), row) && Weighs(db, w, log2, Shown(db, w, row.id), row)
  {
    RankingFacts(db, w, log2, order);
    var rows, full := Rows(db, w, log2), Ranking(db, w, log2, order);
    SameMembers(full, rows);
    forall eventId ensures HasRow(full, eventId) <==> HasShown(db, w, eventId) {
      WindowShowsEventIff(db, w, log2, eventId);
    }
    forall row | row in full
      ensures Counts(db, Shown(db, w, row.id), row) && Weighs(db, w, log2, Shown(db, w, row.id), row) {
      RowIsExact(db, w, log2, row);
    }
  }

  /** By latest report the newest row comes first; by importance the most important, then the best score, then the
      newest; among equals the larger id. */
  lemma RankingIsSorted(db: Tables, w: Window, log2: nat -> real, order: Order)
    requires Observed(db, db.reports)
    ensures var full := Ranking(db, w, log2, order);
      forall i, j :: 0 <= i < j < |full| ==>
        var a, b := full[i], full[j];
        && (order == ByLatest ==> a.lastSeen > b.lastSeen || (a.lastSeen == b.lastSeen && a.id > b.id))
        && (order == ByImportance ==>
              || a.importance > b.importance
              || (a.importance == b.importance && a.score > b.score)
              || (a.importance == b.importance && a.score == b.score && a.lastSeen > b.lastSeen)
              || (a.importance == b.importance && a.score == b.score && a.lastSeen == b.lastSeen && a.id > b.id))
  {
    RankingFacts(db, w, log2, order);
    var full := Ranking(db, w, log2, order);
    forall i, j | 0 <= i < j < |full| ensures Ahead(order, full[i], full[j]) && full[i].id != full[j].id {
      assert Rank(order)(full[i], full[j]);
    }
  }

  /** The window of a first page ends at the largest ids there are. */
  lemma WindowIsOpenToAll(db: Tables, since: int, until: int)
    requires Valid(db)
    ensures var w := Freeze(db, since, until);
      && w.since == since && w.until == until
      && (forall r :: r in db.reports ==> r.id <= w.reportMax)
      && (forall a :: a in db.alerts ==> a.id <= w.alertMax)
  {
    HighWaterBounds(ReportIds(db));
    HighWaterBounds(AlertIds(db));
    forall r | r in db.reports ensures r.id <= HighWater(ReportIds(db)) {
      var i :| 0 <= i < |db.reports| && db.reports[i] == r;
      assert ReportIds(db)[i] == r.id;
    }
    forall a | a in db.alerts ensures a.id <= HighWater(AlertIds(db)) {
      var i :| 0 <= i < |db.alerts| && db.alerts[i] == a;
      assert AlertIds(db)[i] == a.id;
    }
  }

  // ----- when a page is refused ----------------------------------------------------------

  predicate Fits(x: int) { 0 <= x < 0x8000_0000_0000_0000 }

  /** A cursor is taken back only for the order it was made for, with every bound a 63-bit number, a window that is
      not empty, a row id of at least 1 and, by importance, an importance from 1 to 5 and a score from 0 to 5. */
  predicate TakenBack(c: Cursor, order: Order) {
    && c.order == order && Fits(c.window.since) && Fits(c.window.until) && c.window.since < c.window.until
    && Fits(c.window.reportMax) && Fits(c.window.alertMax) && Fits(c.auditMax) && Fits(c.lastSeen)
    && 1 <= c.id && Fits(c.id)
    && (order == ByImportance ==> 1 <= c.importance <= 5 && 0.0 <= c.score <= 5.0)
  }

  lemma AcceptedIsTakenBack(c: Cursor, order: Order)
    ensures Accepted(c, order) <==> TakenBack(c, order)
  {
  }

  /** Which answer a request gets: a bad limit first, then a bad cursor, then a bad window, and last a merge or
      split since the cursor was made; otherwise a page. */
  lemma PageIsRefusedIff(db: Tables, since: int, until: int, order: Order, limit: nat, cursor: Option<Cursor>,
                         log2: nat -> real, page: Page)
    requires Observed(db, db.reports) && page == ListPage(db, since, until, order, limit, cursor, log2)
    ensures page == InvalidRequest <==>
      limit == 0 || limit > 1000 || (cursor.None? && !(0 <= since < until && Fits(until)))
    ensures page == InvalidCursor <==> 1 <= limit <= 1000 && cursor.Some? && !TakenBack(cursor.value, order)
    ensures page == MembershipAdjusted <==>
      1 <= limit <= 1000 && cursor.Some? && TakenBack(cursor.value, order) && cursor.value.auditMax != db.auditMax
  {
    if cursor.Some? { AcceptedIsTakenBack(cursor.value, order); }
    if 1 <= limit <= 1000 {
      if cursor.None? && 0 <= since < until <= MAX_INTEGER {
        FirstIsCut(db, since, until, order, limit, log2);
      } else if cursor.Some? && TakenBack(cursor.value, order) && cursor.value.auditMax == db.auditMax {
        NextIsCut(db, since, until, order, limit, cursor.value, log2);
      }
    }
  }

  lemma FirstIsCut(db: Tables, since: int, until: int, order: Order, limit: nat, log2: nat -> real)
    requires Observed(db, db.reports) && 1 <= limit <= 1000 && 0 <= since < until <= MAX_INTEGER
    ensures ListPage(db, since, until, order, limit, None, log2).Page?
  {
  }

  lemma NextIsCut(db: Tables, since: int, until: int, order: Order, limit: nat, c: Cursor, log2: nat -> real)
    requires Observed(db, db.reports) && 1 <= limit <= 1000 && TakenBack(c, order) && c.auditMax == db.auditMax
    ensures ListPage(db, since, until, order, limit, Some(c), log2).Page?
  {
    AcceptedIsTakenBack(c, order);
  }
}
