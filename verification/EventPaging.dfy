/** Keyset pages over the event window, and the digest's loop that follows their cursors. */
module EventPaging {
  import opened Ordering

  const MAX_INTEGER := 0x7fff_ffff_ffff_ffff

  datatype ReportRow = ReportRow(id: int, eventId: int, observationId: int, sourceId: string, publishedAt: int)
  datatype ObservationRow = ObservationRow(publisher: string, importance: int, urgency: int, relevance: int,
                                           confidence: real, immediate: bool)
  datatype AlertRow = AlertRow(id: int, observationId: int, createdAt: int, cancelled: bool)

  /** The tables the page query reads; `auditMax` is the newest manual merge or split. */
  datatype Tables = Tables(reports: seq<ReportRow>, observations: map<int, ObservationRow>, alerts: seq<AlertRow>,
                           auditMax: int)

  datatype Window = Window(since: int, until: int, reportMax: int, alertMax: int)

  // ----- what one window shows -----------------------------------------------------------

  predicate AlertedIn(db: Tables, w: Window, observationId: int) {
    exists a :: a in db.alerts && a.observationId == observationId && a.id <= w.alertMax
                && w.since <= a.createdAt < w.until && !a.cancelled
  }

  predicate InWindow(db: Tables, w: Window, r: ReportRow) {
    && r.id <= w.reportMax
    && (w.since <= r.publishedAt < w.until || AlertedIn(db, w, r.observationId))
  }

  function WindowReports(db: Tables, w: Window): seq<ReportRow> {
    Filter(r => InWindow(db, w, r), db.reports)
  }

  function MaxInt(a: int, b: int): int { if a < b then b else a }
  function MaxReal(a: real, b: real): real { if a < b then b else a }
  function MinReal(a: real, b: real): real { if a < b then a else b }

  function Evidence(o: ObservationRow): real {
    o.importance as real * 0.35 + o.urgency as real * 0.15 + o.relevance as real * 0.25
    + MaxReal(0.0, MinReal(1.0, o.confidence)) * 0.5
  }

  function Bonus(log2: nat -> real, sources: nat): real {
    MinReal(0.75, 0.25 * log2(if sources < 1 then 1 else sources))
  }

  /** One ranked event of the window with its aggregates. */
  datatype Row = Row(id: int, reportCount: nat, firstSeen: int, lastSeen: int, importance: int, score: real,
                     sources: nat, immediate: bool)

  predicate Observed(db: Tables, reports: seq<ReportRow>) {
    forall r :: r in reports ==> r.observationId in db.observations
  }

  function Latest(reports: seq<ReportRow>): int
    requires reports != []
  {
    if |reports| == 1 then reports[0].publishedAt else MaxInt(reports[0].publishedAt, Latest(reports[1..]))
  }

  function Earliest(reports: seq<ReportRow>): int
    requires reports != []
  {
    if |reports| == 1 then reports[0].publishedAt else -MaxInt(-reports[0].publishedAt, -Earliest(reports[1..]))
  }

  function TopImportance(db: Tables, reports: seq<ReportRow>): int
    requires reports != [] && Observed(db, reports)
  {
    var first := db.observations[reports[0].observationId].importance;
    if |reports| == 1 then first else MaxInt(first, TopImportance(db, reports[1..]))
  }

  function TopEvidence(db: Tables, reports: seq<ReportRow>): real
    requires reports != [] && Observed(db, reports)
  {
    var first := Evidence(db.observations[reports[0].observationId]);
    if |reports| == 1 then first else MaxReal(first, TopEvidence(db, reports[1..]))
  }

  /** Distinct publishers; a report without publisher counts its source, and one with neither nothing. */
  function Sources(db: Tables, reports: seq<ReportRow>): set<string>
    requires Observed(db, reports)
  {
    set r | r in reports && (db.observations[r.observationId].publisher != "" || r.sourceId != "") ::
      if db.observations[r.observationId].publisher != "" then db.observations[r.observationId].publisher
        else r.sourceId
  }

  function OfEvent(reports: seq<ReportRow>, eventId: int): seq<ReportRow> {
    Filter((r: ReportRow) => r.eventId == eventId, reports)
  }

  function RowOf(db: Tables, w: Window, log2: nat -> real, eventId: int, mine: seq<ReportRow>): Row
    requires mine != [] && Observed(db, mine)
  {
    var sources := |Sources(db, mine)|;
    Row(eventId, |mine|, Earliest(mine), Latest(mine), TopImportance(db, mine),
        TopEvidence(db, mine) + Bonus(log2, sources), sources,
        exists r :: r in mine && (db.observations[r.observationId].immediate || AlertedIn(db, w, r.observationId)))
  }

  /** One row per event with a report among `reports`, in order of first appearance. */
  function RowsOf(db: Tables, w: Window, log2: nat -> real, reports: seq<ReportRow>): (rows: seq<Row>)
    requires Observed(db, reports)
    decreases |reports|
  {
    if reports == [] then []
    else
      var id := reports[0].eventId;
      var mine := OfEvent(reports, id);
      var others := Filter((r: ReportRow) => r.eventId != id, reports);
      FilterShrinks(reports, id);
      assert reports[0] in mine;
      [RowOf(db, w, log2, id, mine)] + RowsOf(db, w, log2, others)
  }

  lemma FilterLength<T(!new)>(keep: T -> bool, s: seq<T>)
    ensures |Filter(keep, s)| <= |s|
  {
  }

  lemma FilterShrinks(reports: seq<ReportRow>, id: int)
    requires reports != [] && reports[0].eventId == id
    ensures |Filter((r: ReportRow) => r.eventId != id, reports)| < |reports|
  {
    FilterLength((r: ReportRow) => r.eventId != id, reports[1..]);
  }

  // ----- ranking -------------------------------------------------------------------------

  datatype Order = ByLatest | ByImportance

  /** `a` is listed before `b`, or they have the same key. */
  predicate Ahead(order: Order, a: Row, b: Row) {
    if order == ByLatest then
      a.lastSeen > b.lastSeen || (a.lastSeen == b.lastSeen && a.id >= b.id)
    else
      || a.importance > b.importance
      || (a.importance == b.importance && a.score > b.score)
      || (a.importance == b.importance && a.score == b.score && a.lastSeen > b.lastSeen)
      || (a.importance == b.importance && a.score == b.score && a.lastSeen == b.lastSeen && a.id >= b.id)
  }

  function Rank(order: Order): (Row, Row) -> bool { (a, b) => Ahead(order, a, b) }

  function Rows(db: Tables, w: Window, log2: nat -> real): seq<Row>
    requires Observed(db, db.reports)
  {
    RowsOf(db, w, log2, WindowReports(db, w))
  }

  /** The one full sorted read. */
  function Ranking(db: Tables, w: Window, log2: nat -> real, order: Order): seq<Row>
    requires Observed(db, db.reports)
  {
    Sort(Rank(order), Rows(db, w, log2))
  }

  lemma RankIsTotal(order: Order)
    ensures TotalPreorder(Rank(order))
  {
  }

  ghost predicate DistinctIds(rows: seq<Row>) {
    forall i, j :: 0 <= i < j < |rows| ==> rows[i].id != rows[j].id
  }

  lemma {:induction false} RowsHaveDistinctIds(db: Tables, w: Window, log2: nat -> real, reports: seq<ReportRow>)
    requires Observed(db, reports)
    ensures DistinctIds(RowsOf(db, w, log2, reports))
    ensures forall row :: row in RowsOf(db, w, log2, reports) ==> HasReport(reports, row.id)
    decreases |reports|
  {
    if reports != [] {
      var id := reports[0].eventId;
      var others := Filter((r: ReportRow) => r.eventId != id, reports);
      FilterShrinks(reports, id);
      RowsHaveDistinctIds(db, w, log2, others);
      var rows, tail := RowsOf(db, w, log2, reports), RowsOf(db, w, log2, others);
      assert rows == [rows[0]] + tail && rows[0].id == id;
      forall row | row in tail ensures row.id != id && HasReport(reports, row.id) {
        assert HasReport(others, row.id);
        var r :| r in others && r.eventId == row.id;
        assert r in reports;
      }
      assert reports[0] in reports;
      DistinctIdsCons(rows[0], tail);
    }
  }

  ghost predicate HasReport(reports: seq<ReportRow>, eventId: int) { exists r :: r in reports && r.eventId == eventId }

  lemma DistinctIdsCons(row: Row, rest: seq<Row>)
    requires DistinctIds(rest) && forall r :: r in rest ==> r.id != row.id
    ensures DistinctIds([row] + rest)
  {
  }

  lemma DistinctIdsTieFree(order: Order, rows: seq<Row>)
    requires DistinctIds(rows)
    ensures TieFree(Rank(order), rows)
  {
    forall a, b | a in rows && b in rows && Ahead(order, a, b) && Ahead(order, b, a) ensures a == b {
      var i :| 0 <= i < |rows| && rows[i] == a;
      var j :| 0 <= j < |rows| && rows[j] == b;
      assert a.id == b.id;
    }
  }

  // ----- cursors and pages ---------------------------------------------------------------

  /** The decoded cursor: frozen bounds and the key of the last row shown. */
  datatype Cursor = Cursor(order: Order, window: Window, auditMax: int, importance: int, score: real, lastSeen: int,
                           id: int)

  predicate Bounded(x: int) { 0 <= x <= MAX_INTEGER }

  /** What decoding accepts. */
  predicate Accepted(c: Cursor, order: Order) {
    && c.order == order
    && Bounded(c.window.since) && Bounded(c.window.until) && Bounded(c.window.reportMax) && Bounded(c.window.alertMax)
    && Bounded(c.auditMax) && Bounded(c.lastSeen) && Bounded(c.id)
    && c.window.since < c.window.until && c.id >= 1
    && (order == ByImportance ==> 1 <= c.importance <= 5 && 0.0 <= c.score <= 5.0)
  }

  function CursorAt(order: Order, w: Window, auditMax: int, row: Row): Cursor {
    Cursor(order, w, auditMax, row.importance, row.score, row.lastSeen, row.id)
  }

  /** The page query's condition on rows after the anchor. */
  predicate After(c: Cursor, row: Row) {
    if c.order == ByLatest then
      row.lastSeen < c.lastSeen || (row.lastSeen == c.lastSeen && row.id < c.id)
    else
      || row.importance < c.importance
      || (row.importance == c.importance && row.score < c.score)
      || (row.importance == c.importance && row.score == c.score && row.lastSeen < c.lastSeen)
      || (row.importance == c.importance && row.score == c.score && row.lastSeen == c.lastSeen && row.id < c.id)
  }

  datatype Page =
    | Page(items: seq<Row>, next: Option<Cursor>)
    | InvalidRequest
    | InvalidCursor
    | MembershipAdjusted

  function HighWater(ids: seq<int>): int {
    if ids == [] then 0 else MaxInt(ids[0], HighWater(ids[1..]))
  }

  function ReportIds(db: Tables): seq<int> { seq(|db.reports|, i requires 0 <= i < |db.reports| => db.reports[i].id) }
  function AlertIds(db: Tables): seq<int> { seq(|db.alerts|, i requires 0 <= i < |db.alerts| => db.alerts[i].id) }

  /** The window a first page freezes. */
  function Freeze(db: Tables, since: int, until: int): Window {
    Window(since, until, HighWater(ReportIds(db)), HighWater(AlertIds(db)))
  }

  function Take(rows: seq<Row>, n: nat): seq<Row> { if |rows| <= n then rows else rows[..n] }

  function Cut(rows: seq<Row>, limit: nat, order: Order, w: Window, auditMax: int): Page {
    var visible := Take(rows, limit);
    Page(visible, if |rows| > limit && visible != [] then Some(CursorAt(order, w, auditMax, visible[|visible| - 1]))
      else None)
  }

  /** One page: the rows after the anchor, in order, one more than shown to learn whether more follow. */
  function ListPage(db: Tables, since: int, until: int, order: Order, limit: nat, cursor: Option<Cursor>,
                    log2: nat -> real): Page
    requires Observed(db, db.reports)
  {
    if !(1 <= limit <= 1000) then InvalidRequest
    else if cursor.Some? && !Accepted(cursor.value, order) then InvalidCursor
    else
      var from_, to := if cursor.Some? then cursor.value.window.since else since,
                       if cursor.Some? then cursor.value.window.until else until;
      if !(0 <= from_ < to <= MAX_INTEGER) then InvalidRequest
      else if cursor.Some? && cursor.value.auditMax != db.auditMax then MembershipAdjusted
      else if cursor.None? then
        var w := Freeze(db, from_, to);
        Cut(Take(Sort(Rank(order), Rows(db, w, log2)), limit + 1), limit, order, w, db.auditMax)
      else
        var w := cursor.value.window;
        Cut(Take(Sort(Rank(order), Filter(row => After(cursor.value, row), Rows(db, w, log2))), limit + 1),
            limit, order, w, db.auditMax)
  }

  // ----- the window is frozen ------------------------------------------------------------

  /** What the database's own constraints give. */
  ghost predicate Valid(db: Tables) {
    && Observed(db, db.reports)
    && Bounded(db.auditMax)
    && (forall r :: r in db.reports ==>
      1 <= r.id <= MAX_INTEGER && 1 <= r.eventId <= MAX_INTEGER && Bounded(r.publishedAt))
    && (forall a :: a in db.alerts ==> 1 <= a.id <= MAX_INTEGER)
    && (forall o :: o in db.observations ==>
          var x := db.observations[o];
          1 <= x.importance <= 5 && 1 <= x.urgency <= 5 && 1 <= x.relevance <= 5 && 0.0 <= x.confidence <= 1.0)
  }

  /** New reports, alerts and observations were appended; nothing older changed and no event was
      merged or split by hand. */
  ghost predicate Appended(old_: Tables, new_: Tables) {
    && old_.reports <= new_.reports && old_.alerts <= new_.alerts && old_.auditMax == new_.auditMax
    && (forall o :: o in old_.observations ==> o in new_.observations && new_.observations[o] == old_.observations[o])
    && (forall i :: |old_.reports| <= i < |new_.reports| ==> new_.reports[i].id > HighWater(ReportIds(old_)))
    && (forall i :: |old_.alerts| <= i < |new_.alerts| ==> new_.alerts[i].id > HighWater(AlertIds(old_)))
  }

  lemma {:induction false} HighWaterBounds(ids: seq<int>)
    ensures HighWater(ids) >= 0
    ensures forall i :: 0 <= i < |ids| ==> ids[i] <= HighWater(ids)
    ensures HighWater(ids) == 0 || HighWater(ids) in ids
  {
    if ids != [] {
      HighWaterBounds(ids[1..]);
      forall i | 0 <= i < |ids| ensures ids[i] <= HighWater(ids) {
        if i > 0 { assert ids[i] == ids[1..][i - 1]; }
      }
    }
  }

  lemma {:induction false} FilterAgrees<T(!new)>(p: T -> bool, q: T -> bool, s: seq<T>)
    requires forall x :: x in s ==> p(x) == q(x)
    ensures Filter(p, s) == Filter(q, s)
  {
    if s != [] {
      FilterAgrees(p, q, s[1..]);
      assert s[0] in s;
    }
  }

  lemma {:induction false} FilterNone<T(!new)>(p: T -> bool, s: seq<T>)
    requires forall x :: x in s ==> !p(x)
    ensures Filter(p, s) == []
  {
    if s != [] {
      assert s[0] in s;
      FilterNone(p, s[1..]);
    }
  }

  lemma {:induction false} FilterPrefix<T(!new)>(p: T -> bool, s: seq<T>, t: seq<T>)
    requires forall x :: x in t ==> !p(x)
    ensures Filter(p, s + t) == Filter(p, s)
  {
    if s == [] {
      assert s + t == t;
      FilterNone(p, t);
    } else {
      assert (s + t)[1..] == s[1..] + t;
      FilterPrefix(p, s[1..], t);
    }
  }

  lemma {:induction false} AggregatesAgree(old_: Tables, new_: Tables, mine: seq<ReportRow>)
    requires mine != [] && Observed(old_, mine) && Observed(new_, mine)
    requires forall o :: o in old_.observations && o in new_.observations ==>
      new_.observations[o] == old_.observations[o]
    ensures TopImportance(old_, mine) == TopImportance(new_, mine)
    ensures TopEvidence(old_, mine) == TopEvidence(new_, mine)
    ensures Sources(old_, mine) == Sources(new_, mine)
  {
    assert mine[0] in mine;
    if |mine| > 1 {
      AggregatesAgree(old_, new_, mine[1..]);
    }
  }

  ghost predicate SameAlerts(old_: Tables, new_: Tables, w: Window) {
    forall o :: AlertedIn(old_, w, o) <==> AlertedIn(new_, w, o)
  }

  lemma {:induction false} RowsAgree(old_: Tables, new_: Tables, w: Window, log2: nat -> real, reports: seq<ReportRow>)
    requires Observed(old_, reports) && Observed(new_, reports) && SameAlerts(old_, new_, w)
    requires forall o :: o in old_.observations && o in new_.observations ==>
      new_.observations[o] == old_.observations[o]
    ensures RowsOf(old_, w, log2, reports) == RowsOf(new_, w, log2, reports)
    decreases |reports|
  {
    if reports != [] {
      var id := reports[0].eventId;
      var mine := OfEvent(reports, id);
      var others := Filter((r: ReportRow) => r.eventId != id, reports);
      FilterShrinks(reports, id);
      assert reports[0] in mine;
      AggregatesAgree(old_, new_, mine);
      assert RowOf(old_, w, log2, id, mine) == RowOf(new_, w, log2, id, mine);
      RowsAgree(old_, new_, w, log2, others);
    }
  }

  lemma AlertsAreFrozen(old_: Tables, new_: Tables, since: int, until: int)
    requires Valid(old_) && Valid(new_) && Appended(old_, new_)
    ensures var w := Freeze(old_, since, until); forall o :: AlertedIn(old_, w, o) <==> AlertedIn(new_, w, o)
  {
    var w := Freeze(old_, since, until);
    HighWaterBounds(AlertIds(old_));
    assert forall a :: a in old_.alerts ==> a in new_.alerts;
    forall a | a in new_.alerts && a.id <= w.alertMax ensures a in old_.alerts {
      var i :| 0 <= i < |new_.alerts| && new_.alerts[i] == a;
      assert i < |old_.alerts|;
      assert old_.alerts[i] == a;
    }
  }

  lemma AppendedStaysOut(old_: Tables, new_: Tables, appended: seq<ReportRow>, w: Window)
    requires Valid(old_) && Valid(new_) && Appended(old_, new_) && appended == new_.reports[|old_.reports|..]
    requires w == Freeze(old_, w.since, w.until)
    ensures forall r :: r in appended ==> !InWindow(new_, w, r)
  {
    HighWaterBounds(ReportIds(old_));
    forall r | r in appended ensures !InWindow(new_, w, r) {
      var i :| 0 <= i < |appended| && appended[i] == r;
      assert new_.reports[|old_.reports| + i] == r;
    }
  }

  /** What is appended after the high-water marks were taken never shows in the window. */
  lemma WindowIsFrozen(old_: Tables, new_: Tables, since: int, until: int, log2: nat -> real)
    requires Valid(old_) && Valid(new_) && Appended(old_, new_)
    ensures Rows(new_, Freeze(old_, since, until), log2) == Rows(old_, Freeze(old_, since, until), log2)
  {
    var w := Freeze(old_, since, until);
    AlertsAreFrozen(old_, new_, since, until);
    var fresh_ := new_.reports[|old_.reports|..];
    assert new_.reports == old_.reports + fresh_;
    AppendedStaysOut(old_, new_, fresh_, w);
    FilterPrefix(r => InWindow(new_, w, r), old_.reports, fresh_);
    FilterAgrees(r => InWindow(old_, w, r), r => InWindow(new_, w, r), old_.reports);
    assert WindowReports(new_, w) == WindowReports(old_, w);
    RowsAgree(old_, new_, w, log2, WindowReports(old_, w));
  }

  // ----- pages are slices of the one full read -------------------------------------------

  lemma {:induction false} FilterSuffix<T(!new)>(p: T -> bool, s: seq<T>, t: seq<T>)
    requires (forall x :: x in s ==> !p(x)) && (forall x :: x in t ==> p(x))
    ensures Filter(p, s + t) == t
  {
    if s != [] {
      assert (s + t)[1..] == s[1..] + t;
      assert s[0] in s;
      FilterSuffix(p, s[1..], t);
    } else if t != [] {
      assert s + t == t && t[1..] == [] + t[1..];
      assert t[0] in t;
      FilterSuffix(p, [], t[1..]);
    }
  }

  lemma RankingFacts(db: Tables, w: Window, log2: nat -> real, order: Order)
    requires Observed(db, db.reports)
    ensures Sorted(Rank(order), Ranking(db, w, log2, order)) && DistinctIds(Ranking(db, w, log2, order))
    ensures TieFree(Rank(order), Rows(db, w, log2)) && TieFree(Rank(order), Ranking(db, w, log2, order))
  {
    var rows := Rows(db, w, log2);
    RankIsTotal(order);
    RowsHaveDistinctIds(db, w, log2, WindowReports(db, w));
    DistinctIdsTieFree(order, rows);
    SortSorted(Rank(order), rows);
    DistinctIdsPermute(rows, Ranking(db, w, log2, order));
    DistinctIdsTieFree(order, Ranking(db, w, log2, order));
  }

  lemma DistinctIdsPermute(a: seq<Row>, b: seq<Row>)
    requires DistinctIds(a) && multiset(a) == multiset(b)
    ensures DistinctIds(b)
  {
    SameMembers(a, b);
    forall i, j | 0 <= i < j < |b| ensures b[i].id != b[j].id {
      assert b[i] in b && b[j] in b;
      if b[i] == b[j] {
        WithoutMultiset(b, j);
        assert Without(b, j)[i] == b[i];
        assert multiset(b)[b[i]] >= 2;
        OnceOnly(a, b[i]);
      } else {
        var k :| 0 <= k < |a| && a[k] == b[i];
        var l :| 0 <= l < |a| && a[l] == b[j];
      }
    }
  }

  lemma {:induction false} OnceOnly(a: seq<Row>, x: Row)
    requires DistinctIds(a)
    ensures multiset(a)[x] <= 1
  {
    if a != [] {
      assert a == [a[0]] + a[1..];
      OnceOnly(a[1..], x);
      if x == a[0] { assert x !in a[1..]; assert x !in multiset(a[1..]); }
    }
  }

  lemma CutAt(full: seq<Row>, after: Row -> bool, k: nat)
    requires k < |full| && forall i :: 0 <= i < |full| ==> (after(full[i]) <==> i > k)
    ensures Filter(after, full) == full[k + 1..] && forall x :: x in full[k + 1..] ==> x in full
  {
    var head, tail := full[..k + 1], full[k + 1..];
    assert full == head + tail;
    HeadStaysOut(head, after);
    TailStaysIn(full, tail, k + 1, after);
    FilterSuffix(after, head, tail);
  }

  lemma HeadStaysOut(head: seq<Row>, after: Row -> bool)
    requires forall i :: 0 <= i < |head| ==> !after(head[i])
    ensures forall x :: x in head ==> !after(x)
  {
  }

  lemma TailStaysIn(full: seq<Row>, tail: seq<Row>, k: nat, after: Row -> bool)
    requires k <= |full| && tail == full[k..] && forall i :: k <= i < |full| ==> after(full[i])
    ensures forall x :: x in tail ==> after(x) && x in full
  {
  }

  /** Filtering an ordered arrangement at a cut point, then sorting, gives the part after the cut. */
  lemma RestOfSorted(leq: (Row, Row) -> bool, rows: seq<Row>, full: seq<Row>, after: Row -> bool, k: nat)
    requires TotalPreorder(leq) && Sorted(leq, full) && TieFree(leq, full) && multiset(rows) == multiset(full)
    requires k < |full|
    requires forall i :: 0 <= i < |full| ==> (after(full[i]) <==> i > k)
    ensures Sort(leq, Filter(after, rows)) == full[k + 1..]
  {
    var tail := full[k + 1..];
    CutAt(full, after, k);
    FilterPermutation(after, rows, full);
    SortSorted(leq, Filter(after, rows));
    SortedUnique(leq, tail, Sort(leq, Filter(after, rows)));
  }

  /** The rows after the row at position `k`, sorted, are the rest of the ranking. */
  lemma AfterIsTheRest(db: Tables, w: Window, log2: nat -> real, order: Order, auditMax: int, k: nat)
    requires Observed(db, db.reports) && k < |Ranking(db, w, log2, order)|
    ensures var full := Ranking(db, w, log2, order);
      Sort(Rank(order), Filter(row => After(CursorAt(order, w, auditMax, full[k]), row), Rows(db, w, log2)))
        == full[k + 1..]
  {
    var leq, full := Rank(order), Ranking(db, w, log2, order);
    var after := row => After(CursorAt(order, w, auditMax, full[k]), row);
    RankIsTotal(order);
    RankingFacts(db, w, log2, order);
    forall i | 0 <= i < |full| ensures after(full[i]) <==> i > k {
      if i < k { assert leq(full[i], full[k]); }
      if k < i { assert leq(full[k], full[i]); }
    }
    RestOfSorted(leq, Rows(db, w, log2), full, after, k);
  }

  // ----- every cursor handed out is accepted ---------------------------------------------

  ghost predicate LogLike(log2: nat -> real) {
    forall n: nat :: n >= 1 ==> log2(n) >= 0.0
  }

  lemma {:induction false} AggregatesBounded(db: Tables, mine: seq<ReportRow>)
    requires mine != [] && Valid(db) && forall r :: r in mine ==> r in db.reports
    ensures Observed(db, mine)
    ensures 1 <= TopImportance(db, mine) <= 5 && 0.0 <= TopEvidence(db, mine) <= 4.25
    ensures Bounded(Latest(mine))
  {
    var r := mine[0];
    assert r in mine && r in db.reports;
    var o := db.observations[r.observationId];
    assert 0.0 <= Evidence(o) <= 4.25;
    if |mine| > 1 {
      AggregatesBounded(db, mine[1..]);
    }
  }

  lemma {:induction false} RowsAreInRange(db: Tables, w: Window, log2: nat -> real, reports: seq<ReportRow>, row: Row)
    requires Valid(db) && LogLike(log2) && forall r :: r in reports ==> r in db.reports
    requires Observed(db, reports) && row in RowsOf(db, w, log2, reports)
    ensures 1 <= row.importance <= 5 && 0.0 <= row.score <= 5.0 && Bounded(row.lastSeen) && 1 <= row.id <= MAX_INTEGER
    decreases |reports|
  {
    var id := reports[0].eventId;
    var mine := OfEvent(reports, id);
    var others := Filter((r: ReportRow) => r.eventId != id, reports);
    FilterShrinks(reports, id);
    assert reports[0] in reports && reports[0] in mine;
    if row in RowsOf(db, w, log2, others) {
      RowsAreInRange(db, w, log2, others, row);
    } else {
      AggregatesBounded(db, mine);
      assert row == RowOf(db, w, log2, id, mine);
      assert 0.0 <= Bonus(log2, row.sources) <= 0.75;
    }
  }

  /** Decoding accepts every cursor a page hands out. */
  lemma CursorsAreAccepted(db: Tables, since: int, until: int, log2: nat -> real, order: Order, k: nat)
    requires Valid(db) && LogLike(log2) && 0 <= since < until <= MAX_INTEGER
    requires k < |Ranking(db, Freeze(db, since, until), log2, order)|
    ensures Accepted(CursorAt(order, Freeze(db, since, until), db.auditMax,
                              Ranking(db, Freeze(db, since, until), log2, order)[k]), order)
  {
    var w := Freeze(db, since, until);
    var full := Ranking(db, w, log2, order);
    SameMembers(full, Rows(db, w, log2));
    assert full[k] in full;
    RowsAreInRange(db, w, log2, WindowReports(db, w), full[k]);
    HighWaterBounds(ReportIds(db));
    HighWaterBounds(AlertIds(db));
    forall i | 0 <= i < |db.reports| ensures ReportIds(db)[i] <= MAX_INTEGER { assert db.reports[i] in db.reports; }
    forall i | 0 <= i < |db.alerts| ensures AlertIds(db)[i] <= MAX_INTEGER { assert db.alerts[i] in db.alerts; }
  }

  /** The page that starts at position `from_` of the frozen ranking. */
  function Slice(full: seq<Row>, from_: nat, limit: nat, order: Order, w: Window, auditMax: int): Page
    requires from_ <= |full|
  {
    Cut(full[from_..], limit, order, w, auditMax)
  }

  lemma TakeOneMore(rows: seq<Row>, limit: nat, order: Order, w: Window, auditMax: int)
    requires limit >= 1
    ensures Cut(Take(rows, limit + 1), limit, order, w, auditMax) == Cut(rows, limit, order, w, auditMax)
  {
    if |rows| > limit + 1 {
      assert rows[..limit + 1][..limit] == rows[..limit];
    }
  }

  lemma FirstPage(db: Tables, since: int, until: int, order: Order, limit: nat, log2: nat -> real)
    requires Valid(db) && 1 <= limit <= 1000 && 0 <= since < until <= MAX_INTEGER
    ensures var w := Freeze(db, since, until);
      ListPage(db, since, until, order, limit, None, log2)
        == Slice(Ranking(db, w, log2, order), 0, limit, order, w, db.auditMax)
  {
    var w := Freeze(db, since, until);
    var full := Ranking(db, w, log2, order);
    FirstPageIsCut(db, since, until, order, limit, log2);
    TakeOneMore(full, limit, order, w, db.auditMax);
    FromTheStart(full, limit, order, w, db.auditMax);
  }

  lemma FirstPageIsCut(db: Tables, since: int, until: int, order: Order, limit: nat, log2: nat -> real)
    requires Valid(db) && 1 <= limit <= 1000 && 0 <= since < until <= MAX_INTEGER
    ensures var w := Freeze(db, since, until);
      ListPage(db, since, until, order, limit, None, log2)
        == Cut(Take(Ranking(db, w, log2, order), limit + 1), limit, order, w, db.auditMax)
  {
  }

  lemma FromTheStart(full: seq<Row>, limit: nat, order: Order, w: Window, auditMax: int)
    ensures Slice(full, 0, limit, order, w, auditMax) == Cut(full, limit, order, w, auditMax)
  {
    assert full[0..] == full;
  }

  /** Whatever was appended meanwhile, the page after the row at position `k` continues at `k + 1`. */
  lemma NextPage(db: Tables, later: Tables, since: int, until: int, order: Order, limit: nat, log2: nat -> real, k: nat)
    requires Valid(db) && Valid(later) && Appended(db, later) && LogLike(log2)
    requires 1 <= limit <= 1000 && 0 <= since < until <= MAX_INTEGER
    requires k < |Ranking(db, Freeze(db, since, until), log2, order)|
    ensures var w := Freeze(db, since, until);
      var full := Ranking(db, w, log2, order);
      forall s, u :: ListPage(later, s, u, order, limit, Some(CursorAt(order, w, db.auditMax, full[k])), log2)
        == Slice(full, k + 1, limit, order, w, db.auditMax)
  {
    var w := Freeze(db, since, until);
    var full := Ranking(db, w, log2, order);
    CursorsAreAccepted(db, since, until, log2, order, k);
    WindowIsFrozen(db, later, since, until, log2);
    AfterIsTheRest(later, w, log2, order, db.auditMax, k);
    TakeOneMore(full[k + 1..], limit, order, w, db.auditMax);
  }

  // ----- following the cursors -----------------------------------------------------------

  /** The database as each successive page sees it: only appended to. */
  ghost predicate OnlyAppends(database: nat -> Tables) {
    && (forall i: nat :: Valid(database(i)))
    && (forall i: nat :: Appended(database(0), database(i)))
  }

  /** `cursor` is where a reader stands that has read `read`, the first part of `full`. */
  ghost predicate StandsAt(cursor: Option<Cursor>, read: seq<Row>, full: seq<Row>, order: Order, w: Window,
                           auditMax: int) {
    && read <= full
    && (cursor.None? ==> read == [])
    && (cursor.Some? ==> 0 < |read| < |full| && cursor.value == CursorAt(order, w, auditMax, full[|read| - 1]))
  }

  lemma ContinuesBehind(db: Tables, later: Tables, since: int, until: int, order: Order, limit: nat,
                        log2: nat -> real, c: Cursor, k: nat)
    requires Valid(db) && Valid(later) && Appended(db, later) && LogLike(log2)
    requires 1 <= limit <= 1000 && 0 <= since < until <= MAX_INTEGER
    requires var w := Freeze(db, since, until);
      k < |Ranking(db, w, log2, order)| && c == CursorAt(order, w, db.auditMax, Ranking(db, w, log2, order)[k])
    ensures var w := Freeze(db, since, until);
      ListPage(later, since, until, order, limit, Some(c), log2)
        == Slice(Ranking(db, w, log2, order), k + 1, limit, order, w, db.auditMax)
  {
    NextPage(db, later, since, until, order, limit, log2, k);
  }

  /** The `i`th request continues exactly where the reader stands. */
  lemma RequestContinues(database: nat -> Tables, i: nat, since: int, until: int, order: Order, limit: nat,
                         log2: nat -> real, cursor: Option<Cursor>, read: seq<Row>)
    requires OnlyAppends(database) && LogLike(log2) && 0 <= since < until <= MAX_INTEGER && 1 <= limit <= 1000
    requires cursor.None? ==> i == 0
    requires var w := Freeze(database(0), since, until);
      StandsAt(cursor, read, Ranking(database(0), w, log2, order), order, w, database(0).auditMax)
    ensures var w := Freeze(database(0), since, until);
      ListPage(database(i), since, until, order, limit, cursor, log2)
        == Slice(Ranking(database(0), w, log2, order), |read|, limit, order, w, database(0).auditMax)
  {
    if cursor.None? {
      FirstPage(database(0), since, until, order, limit, log2);
    } else {
      ContinuesBehind(database(0), database(i), since, until, order, limit, log2, cursor.value, |read| - 1);
    }
  }

  function Concat(pages: seq<Page>): seq<Row>
    requires forall i :: 0 <= i < |pages| ==> pages[i].Page?
  {
    if pages == [] then [] else Concat(pages[..|pages| - 1]) + pages[|pages| - 1].items
  }

  /** A reader that opens a window and follows each page's cursor, with any limits it likes. */
  ghost predicate Follows(database: nat -> Tables, since: int, until: int, order: Order, limits: nat -> nat,
                          log2: nat -> real, pages: seq<Page>)
    requires forall i: nat :: Observed(database(i), database(i).reports)
  {
    && pages != []
    && pages[0] == ListPage(database(0), since, until, order, limits(0), None, log2)
    && (forall i: nat :: 0 < i < |pages| ==> Continues(database, since, until, order, limits, log2, pages, i))
  }

  ghost predicate Continues(database: nat -> Tables, since: int, until: int, order: Order, limits: nat -> nat,
                            log2: nat -> real, pages: seq<Page>, i: nat)
    requires 0 < i < |pages| && Observed(database(i), database(i).reports)
  {
    && pages[i - 1].Page? && pages[i - 1].next.Some?
    && pages[i] == ListPage(database(i), since, until, order, limits(i), pages[i - 1].next, log2)
  }

  lemma FollowsPrefix(database: nat -> Tables, since: int, until: int, order: Order, limits: nat -> nat,
                      log2: nat -> real, pages: seq<Page>, n: nat)
    requires forall i: nat :: Observed(database(i), database(i).reports)
    requires Follows(database, since, until, order, limits, log2, pages) && 0 < n < |pages|
    ensures Follows(database, since, until, order, limits, log2, pages[..n])
    ensures Continues(database, since, until, order, limits, log2, pages, n)
  {
    forall i: nat | 0 < i < n ensures Continues(database, since, until, order, limits, log2, pages[..n], i) {
      assert Continues(database, since, until, order, limits, log2, pages, i);
      assert pages[..n][i] == pages[i] && pages[..n][i - 1] == pages[i - 1];
    }
  }

  lemma ConcatSnoc(before: seq<Page>, page: Page)
    requires page.Page? && forall i :: 0 <= i < |before| ==> before[i].Page?
    ensures Concat(before + [page]) == Concat(before) + page.items
  {
    assert (before + [page])[..|before|] == before;
  }

  /** Every page answered; together they show the first part of `full`, all of it if no cursor is left,
      and otherwise the cursor left stands right after it. */
  ghost predicate ReadSoFar(pages: seq<Page>, full: seq<Row>, order: Order, w: Window, auditMax: int) {
    && pages != [] && (forall i :: 0 <= i < |pages| ==> pages[i].Page?)
    && Concat(pages) <= full
    && (pages[|pages| - 1].next.None? ==> Concat(pages) == full)
    && (pages[|pages| - 1].next.Some? ==> StandsAt(pages[|pages| - 1].next, Concat(pages), full, order, w, auditMax))
  }

  lemma ReadOn(before: seq<Page>, page: Page, full: seq<Row>, limit: nat, order: Order, w: Window, auditMax: int)
    requires forall i :: 0 <= i < |before| ==> before[i].Page?
    requires limit >= 1 && Concat(before) <= full
    requires page == Slice(full, |Concat(before)|, limit, order, w, auditMax)
    ensures ReadSoFar(before + [page], full, order, w, auditMax)
  {
    SliceExtends(full, Concat(before), limit, order, w, auditMax);
    ConcatSnoc(before, page);
  }

  /** Following the cursors reads the full ranking of the first moment: no row is skipped, repeated or
      reordered, every request is answered, and when no cursor is left everything was read. */
  lemma {:induction false} CursorsReadTheRanking(database: nat -> Tables, since: int, until: int, order: Order,
                                                 limits: nat -> nat, log2: nat -> real, pages: seq<Page>)
    requires OnlyAppends(database) && LogLike(log2) && 0 <= since < until <= MAX_INTEGER
    requires forall i: nat :: 1 <= limits(i) <= 1000
    requires Follows(database, since, until, order, limits, log2, pages)
    ensures var w := Freeze(database(0), since, until);
      ReadSoFar(pages, Ranking(database(0), w, log2, order), order, w, database(0).auditMax)
    decreases |pages|
  {
    var n := |pages| - 1;
    if n == 0 {
      RunStarts(database, since, until, order, limits, log2, pages);
    } else {
      FollowsPrefix(database, since, until, order, limits, log2, pages, n);
      CursorsReadTheRanking(database, since, until, order, limits, log2, pages[..n]);
      var w := Freeze(database(0), since, until);
      var full := Ranking(database(0), w, log2, order);
      assert pages[..n][n - 1] == pages[n - 1];
      RequestContinues(database, n, since, until, order, limits(n), log2, pages[n - 1].next, Concat(pages[..n]));
      RunContinues(pages, n, full, limits(n), order, w, database(0).auditMax);
    }
  }

  lemma RunStarts(database: nat -> Tables, since: int, until: int, order: Order, limits: nat -> nat, log2: nat -> real,
                  pages: seq<Page>)
    requires OnlyAppends(database) && LogLike(log2) && 0 <= since < until <= MAX_INTEGER && 1 <= limits(0) <= 1000
    requires |pages| == 1 && Follows(database, since, until, order, limits, log2, pages)
    ensures var w := Freeze(database(0), since, until);
      ReadSoFar(pages, Ranking(database(0), w, log2, order), order, w, database(0).auditMax)
  {
    var w := Freeze(database(0), since, until);
    var full := Ranking(database(0), w, log2, order);
    RequestContinues(database, 0, since, until, order, limits(0), log2, None, []);
    ReadOn([], pages[0], full, limits(0), order, w, database(0).auditMax);
    assert pages == [] + [pages[0]];
  }

  lemma RunContinues(pages: seq<Page>, n: nat, full: seq<Row>, limit: nat, order: Order, w: Window, auditMax: int)
    requires |pages| == n + 1 && n >= 1 && limit >= 1
    requires ReadSoFar(pages[..n], full, order, w, auditMax)
    requires pages[n] == Slice(full, |Concat(pages[..n])|, limit, order, w, auditMax)
    ensures ReadSoFar(pages, full, order, w, auditMax)
  {
    ReadOn(pages[..n], pages[n], full, limit, order, w, auditMax);
    assert pages == pages[..n] + [pages[n]];
  }

  lemma SliceExtends(full: seq<Row>, read: seq<Row>, limit: nat, order: Order, w: Window, auditMax: int)
    requires limit >= 1 && read <= full
    ensures var page := Slice(full, |read|, limit, order, w, auditMax);
      && page.Page? && read + page.items <= full
      && (page.next.None? ==> read + page.items == full)
      && (page.next.Some? ==>
            && |page.items| == limit && |read| + limit < |full|
            && page.next.value == CursorAt(order, w, auditMax, full[|read| + limit - 1]))
      && |page.items| == if |full| - |read| <= limit then |full| - |read| else limit
  {
    assert full == read + full[|read|..];
  }

  // ----- the digest's loop ---------------------------------------------------------------

  datatype Collected = Collected(events: seq<Row>) | CursorDidNotAdvance

  function Min(a: nat, b: nat): nat { if a < b then a else b }

  /** A reader that takes the next slice stands behind it, with a cursor that moved. */
  lemma SliceAdvances(full: seq<Row>, read: seq<Row>, limit: nat, order: Order, w: Window, auditMax: int,
                      cursor: Option<Cursor>, page: Page)
    requires limit >= 1 && DistinctIds(full) && StandsAt(cursor, read, full, order, w, auditMax)
    requires page == Slice(full, |read|, limit, order, w, auditMax)
    ensures page.Page? && |page.items| <= limit && read + page.items <= full
    ensures page.next.None? ==> read + page.items == full
    ensures page.next.Some? ==> page.items != [] && page.next != cursor
    ensures page.next.Some? ==> StandsAt(page.next, read + page.items, full, order, w, auditMax)
  {
    SliceExtends(full, read, limit, order, w, auditMax);
    if page.next.Some? && cursor.Some? {
      var i, j := |read| - 1, |read| + limit - 1;
      assert full[i].id != full[j].id;
    }
  }

  /** One request of the loop, from where the reader stands. */
  method Request(database: nat -> Tables, i: nat, since: int, until: int, limit: nat, log2: nat -> real,
                 cursor: Option<Cursor>, ghost items: seq<Row>, ghost w: Window, ghost full: seq<Row>)
    returns (page: Page)
    requires OnlyAppends(database) && LogLike(log2) && 0 <= since < until <= MAX_INTEGER && 1 <= limit <= 1000
    requires w == Freeze(database(0), since, until) && full == Ranking(database(0), w, log2, ByImportance)
    requires cursor.None? ==> i == 0
    requires StandsAt(cursor, items, full, ByImportance, w, database(0).auditMax)
    ensures page.Page? && |page.items| <= limit && items + page.items <= full
    ensures page.next.None? ==> items + page.items == full
    ensures page.next.Some? ==> page.items != [] && page.next != cursor
    ensures page.next.Some? ==> StandsAt(page.next, items + page.items, full, ByImportance, w, database(0).auditMax)
  {
    RequestContinues(database, i, since, until, ByImportance, limit, log2, cursor, items);
    RankingFacts(database(0), w, log2, ByImportance);
    page := ListPage(database(i), since, until, ByImportance, limit, cursor, log2);
    SliceAdvances(full, items, limit, ByImportance, w, database(0).auditMax, cursor, page);
  }

  lemma FirstOfAll(items: seq<Row>, full: seq<Row>, limit: nat)
    requires items <= full && (|items| == limit || (items == full && |items| <= limit))
    ensures items == full[..Min(limit, |full|)]
  {
  }

  /** Reads pages until the budget is spent or no cursor is left. It always ends with exactly the first
      events of the ranking frozen at its first page, and the check that the cursor advances never fires. */
  method CollectEvents(database: nat -> Tables, since: int, until: int, observationLimit: nat, log2: nat -> real)
    returns (r: Collected)
    requires OnlyAppends(database) && LogLike(log2)
    requires 0 <= since < until <= MAX_INTEGER && 1 <= observationLimit <= 5000
    ensures var full := Ranking(database(0), Freeze(database(0), since, until), log2, ByImportance);
      r == Collected(full[..Min(observationLimit, |full|)])
  {
    ghost var w := Freeze(database(0), since, until);
    ghost var full := Ranking(database(0), w, log2, ByImportance);
    var cursor: Option<Cursor> := None;
    var items: seq<Row> := [];
    var remaining: nat := observationLimit;
    var i: nat := 0;
    while remaining > 0
      invariant remaining + |items| == observationLimit
      invariant cursor.None? ==> i == 0
      invariant StandsAt(cursor, items, full, ByImportance, w, database(0).auditMax)
      decreases remaining
    {
      var page := Request(database, i, since, until, Min(1000, remaining), log2, cursor, items, w, full);
      items := items + page.items;
      remaining := remaining - |page.items|;
      if page.items == [] || page.next.None? {
        break;
      }
      if page.next == cursor {
        return CursorDidNotAdvance;
      }
      cursor := page.next;
      i := i + 1;
    }
    FirstOfAll(items, full, observationLimit);
    r := Collected(items);
  }
}
