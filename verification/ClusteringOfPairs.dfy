/** When the order of two reports shows in the events clustering makes of them. */
module ClusteringOfPairs {
  import opened Ordering
  import opened EventIdentity
  import opened PairScore
  import opened Clustering

  predicate SameKeys(a: Item, b: Item) { a.reportId == b.reportId && a.id == b.id }

  predicate LinkedPair(a: Item, b: Item, s: Setting) { ScorePair(a, b, s.window, s.text).value >= s.threshold }

  function Named(a: Item): nat { if a.publisher != "" || a.sourceId != "" then 1 else 0 }

  /** The score of an event with one report. */
  function SingleScore(a: Item, s: Setting): real { a.evidence + s.corroboration(Named(a)) }

  /** Two reports with the same keys whose order cannot be seen: linked both ways, with the same score and
      verdict, the same name for their event and different times; or linked neither way, with single events
      that do not tie. */
  predicate OrderHidden(a: Item, b: Item, s: Setting) {
    var ab, ba := ScorePair(a, b, s.window, s.text), ScorePair(b, a, s.window, s.text);
    if LinkedPair(a, b, s) && LinkedPair(b, a, s) then
      ab == ba && s.identity([a, b]) == s.identity([b, a]) && a.publishedAt != b.publishedAt
    else
      && !LinkedPair(a, b, s) && !LinkedPair(b, a, s)
      && !(SingleScore(a, s) == SingleScore(b, s) && a.publishedAt == b.publishedAt
        && s.identity([a]) == s.identity([b]))
  }

  // ----- the events of two reports -------------------------------------------------------

  function Single(a: Item, s: Setting): Event {
    Event(s.identity([a]), [Report(a, 1.0, false)], SingleScore(a, s), a.publishedAt, Named(a), false)
  }

  function JoinedReports(a: Item, b: Item, s: Setting): seq<Report> {
    var score := ScorePair(a, b, s.window, s.text);
    var ra, rb := Report(a, score.value, score.contradictory), Report(b, score.value, score.contradictory);
    if a.publishedAt >= b.publishedAt then [ra, rb] else [rb, ra]
  }

  lemma EdgesOfPair(a: Item, b: Item, s: Setting)
    requires ValidSetting(s)
    ensures EdgesFrom([a, b], 0, s) == if LinkedPair(a, b, s) then [(0, 1)] else []
  {
    var items := [a, b];
    assert EdgesFrom(items, 2, s) == [];
    assert EdgeRow(items, 1, 2, s) == [];
    assert EdgesFrom(items, 1, s) == [];
    assert EdgeRow(items, 0, 2, s) == [];
    assert IsEdge(items, (0, 1), s) <==> LinkedPair(a, b, s);
    assert EdgeRow(items, 0, 1, s) == if LinkedPair(a, b, s) then [(0, 1)] else [];
  }

  lemma PairIsLinked(edges: map<Edge, real>, threshold: real)
    requires threshold >= 0.5 && (0, 1) in edges && edges[(0, 1)] >= threshold
    ensures Guard([0, 1], edges, threshold)
  {
    assert EdgeOf(0, 1) == (0, 1);
  }

  lemma ExaminePair(edges: map<Edge, real>, threshold: real)
    requires threshold >= 0.5 && (0, 1) in edges && edges[(0, 1)] >= threshold
    ensures Examine(Singletons(2), (0, 1), edges, threshold).components == [[0, 1], []]
  {
    var start := Singletons(2);
    var merged: seq<nat> := [0, 1];
    PairIsLinked(edges, threshold);
    SortedPair(Leq(), 0, 1);
    assert start.components[0] + start.components[1] == merged;
    var after := Examine(start, (0, 1), edges, threshold).components;
    assert after == start.components[0 := merged][1 := []];
  }

  lemma PassOfOne(edges: map<Edge, real>, threshold: real)
    ensures Pass([], 2, edges, threshold) == Singletons(2)
    ensures Pass([(0, 1)], 2, edges, threshold) == Examine(Singletons(2), (0, 1), edges, threshold)
  {
    var order: seq<Edge> := [(0, 1)];
    assert order[..0] == [];
  }

  lemma GroupOfPair(a: Item, b: Item, s: Setting)
    requires ValidSetting(s)
    ensures Group([a, b], s).components == if LinkedPair(a, b, s) then [[0, 1], []] else [[0], [1]]
  {
    var items := [a, b];
    var edges := Edges(items, s);
    EdgesOfPair(a, b, s);
    var keys := EdgesFrom(items, 0, s);
    if LinkedPair(a, b, s) {
      assert (0, 1) in keys && edges[(0, 1)] == ScoreAt(items, (0, 1), s).value;
      PassOfLinked(edges, keys, s.threshold);
    } else {
      PassOfNone(edges, keys, s.threshold);
    }
  }

  lemma PassOfLinked(edges: map<Edge, real>, keys: seq<Edge>, threshold: real)
    requires threshold >= 0.5 && (0, 1) in edges && edges[(0, 1)] >= threshold
    requires keys == [(0, 1)] && forall e :: e in keys ==> e in edges
    ensures Pass(EdgeOrder(edges, keys), 2, edges, threshold).components == [[0, 1], []]
  {
    assert keys[1..] == [];
    assert EdgeOrder(edges, keys) == [(0, 1)];
    PassOfOne(edges, threshold);
    ExaminePair(edges, threshold);
  }

  lemma PassOfNone(edges: map<Edge, real>, keys: seq<Edge>, threshold: real)
    requires keys == []
    ensures Pass(EdgeOrder(edges, keys), 2, edges, threshold).components == [[0], [1]]
  {
    assert EdgeOrder(edges, keys) == [];
    PassOfOne(edges, threshold);
    assert Singletons(2).components == [[0], [1]];
  }

  lemma SortedPair(leq: (nat, nat) -> bool, x: nat, y: nat)
    ensures Sort(leq, [x, y]) == if leq(x, y) then [x, y] else [y, x]
    ensures Sort(leq, [x]) == [x]
  {
    SortedOne(leq, x);
    SortedOne(leq, y);
    assert [x, y][1..] == [y];
    assert Sort(leq, [x, y]) == Insert(leq, x, [y]);
    assert [y][1..] == [] && Insert(leq, x, []) == [x];
  }

  lemma SortedOne(leq: (nat, nat) -> bool, x: nat)
    ensures Sort(leq, [x]) == [x]
  {
    assert [x][1..] == [];
    assert Sort(leq, [x]) == Insert(leq, x, Sort(leq, []));
  }

  lemma PublishersOfOne(r: Report)
    ensures |Publishers([r])| == Named(r.item)
  {
    var name := if r.item.publisher != "" then r.item.publisher else r.item.sourceId;
    assert r in [r];
    assert Publishers([r]) == if Named(r.item) == 1 then {name} else {};
  }

  lemma EventOfOne(items: seq<Item>, i: nat, s: Setting)
    requires i < |items|
    ensures BuildEvent(items, Edges(items, s), Contradictions(items, s), [i], s) == Single(items[i], s)
  {
    var event := BuildEvent(items, Edges(items, s), Contradictions(items, s), [i], s);
    SortedPair((x: nat, y: nat) => ReportBefore(items, x, y), i, i);
    var r := Report(items[i], 1.0, false);
    assert event.reports == [r];
    assert Members(items, [i]) == [items[i]];
    PublishersOfOne(r);
    assert forall x :: x in event.reports ==> x == r;
  }

  lemma ReportOfTwo(items: seq<Item>, edges: map<Edge, real>, contradictions: set<Edge>, i: nat, score: Score)
    requires |items| == 2 && i < 2 && (0, 1) in edges && edges[(0, 1)] == score.value && 0.0 <= score.value <= 1.0
    requires (0, 1) in contradictions <==> score.contradictory
    ensures ReportOf(items, edges, contradictions, [0, 1], i) == Report(items[i], score.value, score.contradictory)
  {
    var component: seq<nat> := [0, 1];
    assert component[1..] == [1] && component[1..][1..] == [];
    assert EdgeOf(0, 1) == (0, 1) == EdgeOf(1, 0);
    assert BestEdge(edges, i, component, 0.0) == score.value;
    assert component[0] in component && component[1] in component;
  }

  lemma ScoresOfPair(a: Item, b: Item, s: Setting)
    requires ValidSetting(s) && LinkedPair(a, b, s)
    ensures var score := ScorePair(a, b, s.window, s.text);
      && (0, 1) in Edges([a, b], s) && Edges([a, b], s)[(0, 1)] == score.value && 0.0 <= score.value <= 1.0
      && ((0, 1) in Contradictions([a, b], s) <==> score.contradictory)
  {
    EdgesOfPair(a, b, s);
    assert (0, 1) in EdgesFrom([a, b], 0, s);
    PositiveScore(a, b, s.window, s.text);
  }

  lemma PresentedPair(a: Item, b: Item)
    requires a.reportId == b.reportId
    ensures Presented([a, b], [0, 1]) == if a.publishedAt >= b.publishedAt then [0, 1] else [1, 0]
  {
    SortedPair((x: nat, y: nat) => ReportBefore([a, b], x, y), 0, 1);
  }

  lemma BuiltReports(items: seq<Item>, edges: map<Edge, real>, contradictions: set<Edge>, component: seq<nat>,
                     s: Setting)
    requires component != [] && Within(component, |items|)
    ensures var event := BuildEvent(items, edges, contradictions, component, s);
      && event.reports == Reports(items, edges, contradictions, component, Presented(items, component))
      && event == EventWith(s.identity(Members(items, component)), event.reports, s)
  {
  }

  lemma ReportsInOrder(a: Item, b: Item, edges: map<Edge, real>, contradictions: set<Edge>, order: seq<nat>,
                       score: Score)
    requires (0, 1) in edges && edges[(0, 1)] == score.value && 0.0 <= score.value <= 1.0
    requires (0, 1) in contradictions <==> score.contradictory
    requires order == if a.publishedAt >= b.publishedAt then [0, 1] else [1, 0]
    ensures var ra, rb := Report(a, score.value, score.contradictory), Report(b, score.value, score.contradictory);
      Reports([a, b], edges, contradictions, [0, 1], order)
        == if a.publishedAt >= b.publishedAt then [ra, rb] else [rb, ra]
  {
    ReportOfTwo([a, b], edges, contradictions, 0, score);
    ReportOfTwo([a, b], edges, contradictions, 1, score);
  }

  lemma ReportsOfTwo(a: Item, b: Item, s: Setting)
    requires ValidSetting(s) && LinkedPair(a, b, s) && a.reportId == b.reportId
    ensures Reports([a, b], Edges([a, b], s), Contradictions([a, b], s), [0, 1], Presented([a, b], [0, 1]))
      == JoinedReports(a, b, s)
  {
    ScoresOfPair(a, b, s);
    PresentedPair(a, b);
    ReportsInOrder(a, b, Edges([a, b], s), Contradictions([a, b], s), Presented([a, b], [0, 1]),
                   ScorePair(a, b, s.window, s.text));
  }

  lemma KeptOfTwo(x: seq<nat>, y: seq<nat>)
    requires x != [] && Within(x, 2) && Within(y, 2)
    ensures Kept([x, y], 2) == if y == [] then [x] else [x, y]
  {
    var none: seq<seq<nat>> := [];
    assert [x, y][1..] == [y] && [y][1..] == none;
    assert Kept(none, 2) == [];
    assert Kept([y], 2) == (if y == [] then [] else [y]) + Kept(none, 2);
  }

  /** What the reports of an event decide. */
  function EventWith(identity: int, reports: seq<Report>, s: Setting): Event
    requires reports != []
  {
    Event(identity, reports, MaxEvidence(reports) + s.corroboration(|Publishers(reports)|), Latest(reports),
      |Publishers(reports)|,
          exists r :: r in reports && r.contradicts)
  }

  function Joined(a: Item, b: Item, s: Setting): Event { EventWith(s.identity([a, b]), JoinedReports(a, b, s), s) }

  lemma BuildAllOfOne(items: seq<Item>, edges: map<Edge, real>, contradictions: set<Edge>, x: seq<nat>, s: Setting)
    requires x != [] && Within(x, |items|)
    ensures BuildAll(items, edges, contradictions, [x], s) == [BuildEvent(items, edges, contradictions, x, s)]
  {
    var one := [x];
    assert one[1..] == [] && one[0] == x;
    BuildAllUnfolds(items, edges, contradictions, one, s, []);
  }

  lemma BuildAllOfTwo(items: seq<Item>, edges: map<Edge, real>, contradictions: set<Edge>, x: seq<nat>, y: seq<nat>,
                      s: Setting)
    requires x != [] && Within(x, |items|) && y != [] && Within(y, |items|)
    ensures BuildAll(items, edges, contradictions, [x, y], s)
         == [BuildEvent(items, edges, contradictions, x, s)] + BuildAll(items, edges, contradictions, [y], s)
  {
    var two := [x, y];
    assert two[1..] == [y] && two[0] == x;
    BuildAllUnfolds(items, edges, contradictions, two, s, []);
  }

  lemma JoinedIsBuilt(a: Item, b: Item, s: Setting)
    requires ValidSetting(s) && a.reportId == b.reportId && LinkedPair(a, b, s)
    ensures BuildEvent([a, b], Edges([a, b], s), Contradictions([a, b], s), [0, 1], s) == Joined(a, b, s)
  {
    ReportsOfTwo(a, b, s);
    BuiltReports([a, b], Edges([a, b], s), Contradictions([a, b], s), [0, 1], s);
    assert Members([a, b], [0, 1]) == [a, b];
  }

  lemma UnorderedOf(items: seq<Item>, s: Setting, kept: seq<seq<nat>>)
    requires ValidSetting(s) && (forall k :: 0 <= k < |kept| ==> kept[k] != [] && Within(kept[k], |items|))
    requires (forall c :: 0 <= c < |Group(items, s).components| ==> Within(Group(items, s).components[c], |items|))
             && Kept(Group(items, s).components, |items|) == kept
    ensures Unordered(items, s) == BuildAll(items, Edges(items, s), Contradictions(items, s), kept, s)
  {
  }

  lemma LinkedKept(a: Item, b: Item, s: Setting)
    requires ValidSetting(s) && LinkedPair(a, b, s)
    ensures var components := Group([a, b], s).components;
      (forall c :: 0 <= c < |components| ==> Within(components[c], 2)) && Kept(components, 2) == [[0, 1]]
  {
    GroupOfPair(a, b, s);
    KeptOfMerged(Group([a, b], s).components);
  }

  lemma KeptOfMerged(components: seq<seq<nat>>)
    requires components == [[0, 1], []]
    ensures (forall c :: 0 <= c < |components| ==> Within(components[c], 2)) && Kept(components, 2) == [[0, 1]]
  {
    KeptOfTwo([0, 1], []);
  }

  lemma LinkedEvents(a: Item, b: Item, s: Setting)
    requires ValidSetting(s) && a.reportId == b.reportId && LinkedPair(a, b, s)
    ensures Unordered([a, b], s) == [Joined(a, b, s)]
  {
    LinkedKept(a, b, s);
    UnorderedOf([a, b], s, [[0, 1]]);
    BuildAllOfOne([a, b], Edges([a, b], s), Contradictions([a, b], s), [0, 1], s);
    JoinedIsBuilt(a, b, s);
  }

  lemma SeparateEvents(a: Item, b: Item, s: Setting)
    requires ValidSetting(s) && !LinkedPair(a, b, s)
    ensures Unordered([a, b], s) == [Single(a, s), Single(b, s)]
  {
    var items := [a, b];
    GroupOfPair(a, b, s);
    GroupWithin(items, s);
    KeptOfTwo([0], [1]);
    assert Kept(Group(items, s).components, |items|) == [[0], [1]];
    BuildAllOfOne(items, Edges(items, s), Contradictions(items, s), [1], s);
    BuildAllOfTwo(items, Edges(items, s), Contradictions(items, s), [0], [1], s);
    EventOfOne(items, 0, s);
    EventOfOne(items, 1, s);
  }

  // ----- whether the order shows ---------------------------------------------------------

  lemma EventOrderIsTotal()
    ensures TotalPreorder((x: Event, y: Event) => EventBefore(x, y))
  {
  }

  lemma SortedEvents(x: Event, y: Event)
    requires x != y
    ensures var leq := (u: Event, v: Event) => EventBefore(u, v);
      Sort(leq, [x, y]) == Sort(leq, [y, x]) <==> !(EventBefore(x, y) && EventBefore(y, x))
  {
    var leq := (u: Event, v: Event) => EventBefore(u, v);
    EventOrderIsTotal();
    if EventBefore(x, y) && EventBefore(y, x) {
      TieShowsOrder(leq, x, y);
      assert [x, y][0] != [y, x][0];
    } else {
      SortForgetsOrder(leq, [x, y], [y, x]);
    }
  }

  lemma PreparedPair(a: Item, b: Item)
    requires !a.blankTitle && !b.blankTitle && SameKeys(a, b)
    ensures Prepared([a, b]) == [a, b]
  {
    var leq := (x: Item, y: Item) => ItemBefore(x, y);
    TitledPair(a, b);
    ItemOrderIsTotal();
    assert Sorted(leq, [a, b]);
    SortedIsFixed(leq, [a, b]);
  }

  lemma ClusteredLinked(a: Item, b: Item, s: Setting)
    requires ValidSetting(s) && !a.blankTitle && !b.blankTitle && SameKeys(a, b) && LinkedPair(a, b, s)
    ensures Clustered([a, b], s) == [Joined(a, b, s)]
  {
    PreparedPair(a, b);
    LinkedEvents(a, b, s);
    var leq, event := (x: Event, y: Event) => EventBefore(x, y), Joined(a, b, s);
    EventOrderIsTotal();
    assert Sorted(leq, [event]);
    SortedIsFixed(leq, [event]);
  }

  lemma ClusteredSeparate(a: Item, b: Item, s: Setting)
    requires ValidSetting(s) && !a.blankTitle && !b.blankTitle && SameKeys(a, b) && !LinkedPair(a, b, s)
    ensures Clustered([a, b], s) == Sort((x: Event, y: Event) => EventBefore(x, y), [Single(a, s), Single(b, s)])
  {
    PreparedPair(a, b);
    SeparateEvents(a, b, s);
  }

  lemma OneEventEachWay(a: Item, b: Item, s: Setting)
    requires a != b && a.reportId == b.reportId
    ensures Joined(a, b, s) == Joined(b, a, s) <==>
      && ScorePair(a, b, s.window, s.text) == ScorePair(b, a, s.window, s.text)
      && s.identity([a, b]) == s.identity([b, a]) && a.publishedAt != b.publishedAt
  {
    var ab, ba := JoinedReports(a, b, s), JoinedReports(b, a, s);
    if ab == ba {
      assert ab[0] == ba[0];
    }
    assert ScorePair(a, b, s.window, s.text) == ScorePair(b, a, s.window, s.text) && a.publishedAt != b.publishedAt ==>
      ab == ba;
  }

  lemma LinkedTwins(a: Item, b: Item, s: Setting)
    requires ValidSetting(s) && !a.blankTitle && !b.blankTitle && SameKeys(a, b) && a != b
    requires LinkedPair(a, b, s) && LinkedPair(b, a, s)
    ensures Clustered([a, b], s) == Clustered([b, a], s) <==> Joined(a, b, s) == Joined(b, a, s)
  {
    ClusteredLinked(a, b, s);
    ClusteredLinked(b, a, s);
    assert [Joined(a, b, s)][0] == Joined(a, b, s) && [Joined(b, a, s)][0] == Joined(b, a, s);
  }

  lemma LinkedTwinsHide(a: Item, b: Item, s: Setting)
    requires a != b && a.reportId == b.reportId && LinkedPair(a, b, s) && LinkedPair(b, a, s)
    ensures Joined(a, b, s) == Joined(b, a, s) <==> OrderHidden(a, b, s)
  {
    OneEventEachWay(a, b, s);
  }

  lemma SeparateTwinsHide(a: Item, b: Item, s: Setting)
    requires !LinkedPair(a, b, s) && !LinkedPair(b, a, s)
    ensures EventBefore(Single(a, s), Single(b, s)) && EventBefore(Single(b, s), Single(a, s)) <==>
      !OrderHidden(a, b, s)
  {
  }

  lemma SeparateTwins(a: Item, b: Item, s: Setting)
    requires ValidSetting(s) && !a.blankTitle && !b.blankTitle && SameKeys(a, b) && a != b
    requires !LinkedPair(a, b, s) && !LinkedPair(b, a, s)
    ensures Clustered([a, b], s) == Clustered([b, a], s) <==>
      !(EventBefore(Single(a, s), Single(b, s)) && EventBefore(Single(b, s), Single(a, s)))
  {
    ClusteredSeparate(a, b, s);
    ClusteredSeparate(b, a, s);
    assert Single(a, s).reports[0] != Single(b, s).reports[0];
    SortedEvents(Single(a, s), Single(b, s));
  }

  lemma HalfLinkedTwins(a: Item, b: Item, s: Setting)
    requires ValidSetting(s) && !a.blankTitle && !b.blankTitle && SameKeys(a, b)
    requires LinkedPair(a, b, s) && !LinkedPair(b, a, s)
    ensures Clustered([a, b], s) != Clustered([b, a], s)
  {
    ClusteredLinked(a, b, s);
    ClusteredSeparate(b, a, s);
    assert |Clustered([a, b], s)| != |Clustered([b, a], s)|;
  }

  /** Two different titled reports with the same keys give the same events in either order exactly when the
      order is hidden. */
  lemma TwinsHideOrderIff(a: Item, b: Item, s: Setting)
    requires ValidSetting(s) && !a.blankTitle && !b.blankTitle && SameKeys(a, b) && a != b
    ensures Clustered([a, b], s) == Clustered([b, a], s) <==> OrderHidden(a, b, s)
  {
    if LinkedPair(a, b, s) && LinkedPair(b, a, s) {
      LinkedTwins(a, b, s);
      LinkedTwinsHide(a, b, s);
    } else if LinkedPair(a, b, s) {
      HalfLinkedTwins(a, b, s);
    } else if LinkedPair(b, a, s) {
      HalfLinkedTwins(b, a, s);
    } else {
      SeparateTwins(a, b, s);
      SeparateTwinsHide(a, b, s);
    }
  }

  /** For any pair: the order of the input shows in the events exactly for two different titled reports with the
      same keys whose order is not hidden. */
  lemma PairShowsOrderIff(a: Item, b: Item, s: Setting)
    requires ValidSetting(s)
    ensures Clustered([a, b], s) != Clustered([b, a], s) <==>
      a != b && !a.blankTitle && !b.blankTitle && SameKeys(a, b) && !OrderHidden(a, b, s)
  {
    if a != b && !a.blankTitle && !b.blankTitle && SameKeys(a, b) {
      TwinsHideOrderIff(a, b, s);
    } else {
      assert multiset([a, b]) == multiset([b, a]);
      ClusteringIgnoresOrder([a, b], [b, a], s);
    }
  }

  /** Reports of one verified occurrence with the same keys and time always show their order: the two inputs
      give events whose reports are swapped. */
  lemma TwinsOfOneOccurrenceShowOrder(a: Item, b: Item, s: Setting)
    requires ValidSetting(s) && !a.blankTitle && !b.blankTitle && SameKeys(a, b) && a != b
    requires SameOccurrence(a, b) && a.publishedAt == b.publishedAt
    ensures Clustered([a, b], s) != Clustered([b, a], s)
  {
    OccurrenceLinks(a, b, s);
    OccurrenceLinks(b, a, s);
    TwinsHideOrderIff(a, b, s);
  }

  lemma OccurrenceLinks(a: Item, b: Item, s: Setting)
    requires ValidSetting(s) && SameOccurrence(a, b)
    ensures LinkedPair(a, b, s)
  {
  }
}
