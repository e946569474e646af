/** What a returned event says, in terms of the observations alone. */
module ClusteringEvents {
  import opened Ordering
  import opened EventIdentity
  import opened PairScore
  import opened Clustering
  import opened ClusteringOrder

  // ----- maxima --------------------------------------------------------------------------

  lemma {:induction false} MaxEvidenceIsMax(reports: seq<Report>)
    requires reports != []
    ensures forall r :: r in reports ==> r.item.evidence <= MaxEvidence(reports)
    ensures exists r :: r in reports && r.item.evidence == MaxEvidence(reports)
  {
    if |reports| == 1 {
      assert reports[0] in reports;
    } else {
      MaxEvidenceIsMax(reports[1..]);
      var r :| r in reports[1..] && r.item.evidence == MaxEvidence(reports[1..]);
      assert r in reports && reports[0] in reports;
    }
  }

  lemma {:induction false} LatestIsMax(reports: seq<Report>)
    requires reports != []
    ensures forall r :: r in reports ==> r.item.publishedAt <= Latest(reports)
    ensures exists r :: r in reports && r.item.publishedAt == Latest(reports)
  {
    if |reports| == 1 {
      assert reports[0] in reports;
    } else {
      LatestIsMax(reports[1..]);
      var r :| r in reports[1..] && r.item.publishedAt == Latest(reports[1..]);
      assert r in reports && reports[0] in reports;
    }
  }

  lemma {:induction false} BestEdgeIsAttained(edges: map<Edge, real>, index: nat, component: seq<nat>, best: real)
    ensures BestEdge(edges, index, component, best) == best
         || exists y :: y in component && y != index
                        && BestEdge(edges, index, component, best) == ScoreOf(edges, EdgeOf(index, y))
    decreases |component|
  {
    if component != [] {
      var next := if component[0] == index then best
                  else MaxReal(best, ScoreOf(edges, EdgeOf(index, component[0])));
      assert component[0] in component;
      BestEdgeIsAttained(edges, index, component[1..], next);
    }
  }

  // ----- the totals of an event ----------------------------------------------------------

  /** How a report names its source: by its publisher, or failing that by its source. */
  function NameOf(i: Item): string { if i.publisher != "" then i.publisher else i.sourceId }

  /** The event's totals follow from its reports: the newest time, the best evidence with the bonus for the number
      of differently named sources, and whether any report contradicts. */
  ghost predicate Totals(e: Event, s: Setting) {
    && e.reports != []
    && (forall r :: r in e.reports ==> r.item.publishedAt <= e.publishedAt)
    && (exists r :: r in e.reports && r.item.publishedAt == e.publishedAt)
    && (exists names: set<string> ::
          && |names| == e.independentSources
          && forall x :: x in names <==> x != "" && exists r :: r in e.reports && NameOf(r.item) == x)
    && (forall r :: r in e.reports ==> r.item.evidence + s.corroboration(e.independentSources) <= e.score)
    && (exists r :: r in e.reports && r.item.evidence + s.corroboration(e.independentSources) == e.score)
    && (e.hasContradictions <==> exists r :: r in e.reports && r.contradicts)
  }

  lemma BuiltTotals(items: seq<Item>, edges: map<Edge, real>, contradictions: set<Edge>, component: seq<nat>,
                    s: Setting)
    requires component != [] && Within(component, |items|)
    ensures Totals(BuildEvent(items, edges, contradictions, component, s), s)
  {
    var e := BuildEvent(items, edges, contradictions, component, s);
    MaxEvidenceIsMax(e.reports);
    LatestIsMax(e.reports);
    var names := Publishers(e.reports);
    assert |names| == e.independentSources;
    forall x ensures x in names <==> x != "" && exists r :: r in e.reports && NameOf(r.item) == x {}
  }

  // ----- the reports of an event ---------------------------------------------------------

  /** The order in which observations are compared: by report id, then by id. */
  predicate NotAfter(a: Item, b: Item) { a.reportId < b.reportId || (a.reportId == b.reportId && a.id <= b.id) }

  predicate NewestFirst(reports: seq<Report>) {
    forall i, j :: 0 <= i < j < |reports| ==>
      || reports[i].item.publishedAt > reports[j].item.publishedAt
      || (reports[i].item.publishedAt == reports[j].item.publishedAt
          && reports[i].item.reportId <= reports[j].item.reportId)
  }

  lemma PreparedIsSorted(observations: seq<Item>)
    ensures forall i, j :: 0 <= i < j < |Prepared(observations)| ==>
      NotAfter(Prepared(observations)[i], Prepared(observations)[j])
    ensures forall x :: x in Prepared(observations) <==> x in observations && !x.blankTitle
  {
    ItemOrderIsTotal();
    SortSorted((a: Item, b: Item) => ItemBefore(a, b), Titled(observations));
    SameMembers(Prepared(observations), Titled(observations));
  }

  /** The component's indices in the order in which its reports are shown. */
  lemma ShownOrder(items: seq<Item>, edges: map<Edge, real>, contradictions: set<Edge>, component: seq<nat>,
                   s: Setting, e: Event) returns (order: seq<nat>)
    requires component != [] && Within(component, |items|) && NoRepeats(component)
    requires e == BuildEvent(items, edges, contradictions, component, s)
    ensures multiset(order) == multiset(component) && |order| == |component| == |e.reports| && NoRepeats(order)
    ensures Within(order, |items|)
    ensures forall i :: 0 <= i < |order| ==> e.reports[i] == ReportOf(items, edges, contradictions, component, order[i])
    ensures NewestFirst(e.reports)
  {
    order := Presented(items, component);
    SameMembers(component, order);
    NoRepeatsIsMultiset(component);
    NoRepeatsIsMultiset(order);
    var leq := (a: nat, b: nat) => ReportBefore(items, a, b);
    assert TotalPreorder(leq);
    SortSorted(leq, component);
    assert Sorted(leq, order);
    forall i, j | 0 <= i < j < |order| ensures ReportBefore(items, order[i], order[j]) {
      assert leq(order[i], order[j]);
    }
  }

  /** `v` is the score of the two reports, compared in their order. */
  ghost predicate Scores(a: Item, b: Item, s: Setting, v: real) {
    || (NotAfter(a, b) && v == ScorePair(a, b, s.window, s.text).value)
    || (NotAfter(b, a) && v == ScorePair(b, a, s.window, s.text).value)
  }

  ghost predicate Contradicts(a: Item, b: Item, s: Setting) {
    || (NotAfter(a, b) && ScorePair(a, b, s.window, s.text).contradictory)
    || (NotAfter(b, a) && ScorePair(b, a, s.window, s.text).contradictory)
  }

  /** The report at `i` against the one at `j`. */
  ghost predicate Bounds(e: Event, s: Setting, i: nat, j: nat)
    requires i < |e.reports| && j < |e.reports|
  {
    exists v :: Scores(e.reports[i].item, e.reports[j].item, s, v) && s.threshold <= v <= e.reports[i].matchScore
  }

  ghost predicate Attains(e: Event, s: Setting, i: nat, j: nat)
    requires i < |e.reports| && j < |e.reports|
  {
    i != j && Scores(e.reports[i].item, e.reports[j].item, s, e.reports[i].matchScore)
  }

  /** The match score of a report is its best score against another report of the event, and it contradicts only
      together with another one. */
  ghost predicate Matched(e: Event, s: Setting, i: nat)
    requires i < |e.reports|
  {
    && (|e.reports| == 1 ==> e.reports[i].matchScore == 1.0 && !e.reports[i].contradicts)
    && (|e.reports| > 1 ==> exists j :: 0 <= j < |e.reports| && Attains(e, s, i, j))
    && (forall j :: 0 <= j < |e.reports| && j != i ==> Bounds(e, s, i, j))
    && (e.reports[i].contradicts ==>
          exists j :: 0 <= j < |e.reports| && j != i && Contradicts(e.reports[i].item, e.reports[j].item, s))
    && (!e.reports[i].contradicts ==>
          forall j :: 0 <= j < |e.reports| && j != i ==> !BothContradict(e.reports[i].item, e.reports[j].item, s))
  }

  /** The two contradict each other in whatever order they may have been compared. */
  ghost predicate BothContradict(a: Item, b: Item, s: Setting) {
    && (NotAfter(a, b) ==> ScorePair(a, b, s.window, s.text).contradictory)
    && (NotAfter(b, a) ==> ScorePair(b, a, s.window, s.text).contradictory)
  }

  ghost predicate KeysRise(items: seq<Item>) { forall i, j :: 0 <= i < j < |items| ==> NotAfter(items[i], items[j]) }

  /** The stored facts about a pair of one component. */
  lemma PairInComponent(items: seq<Item>, s: Setting, c: nat, x: nat, y: nat)
    requires ValidSetting(s) && KeysRise(items) && c < |items| && |Group(items, s).components| == |items|
    requires x in Group(items, s).components[c] && y in Group(items, s).components[c] && x != y
    requires x < |items| && y < |items|
    ensures Scores(items[x], items[y], s, ScoreOf(Edges(items, s), EdgeOf(x, y)))
    ensures s.threshold <= ScoreOf(Edges(items, s), EdgeOf(x, y)) <= 1.0
    ensures EdgeOf(x, y) in Contradictions(items, s) ==> Contradicts(items[x], items[y], s)
    ensures BothContradict(items[x], items[y], s) ==> EdgeOf(x, y) in Contradictions(items, s)
  {
    var e := EdgeOf(x, y);
    GroupIsPairwise(items, s, c, e.0, e.1);
    StoredPair(items, s, e);
    PairIsCompared(items, s, e, x, y);
  }

  lemma StoredPair(items: seq<Item>, s: Setting, e: Edge)
    requires ValidSetting(s) && IsEdge(items, e, s)
    ensures s.threshold <= ScoreOf(Edges(items, s), e) <= 1.0
    ensures ScoreOf(Edges(items, s), e) == ScorePair(items[e.0], items[e.1], s.window, s.text).value
    ensures e in Contradictions(items, s) <==> ScorePair(items[e.0], items[e.1], s.window, s.text).contradictory
  {
    StoredEdges(items, s);
    PositiveScore(items[e.0], items[e.1], s.window, s.text);
  }

  lemma PairIsCompared(items: seq<Item>, s: Setting, e: Edge, x: nat, y: nat)
    requires KeysRise(items) && e.0 < e.1 < |items| && (e == (x, y) || e == (y, x))
    ensures Scores(items[x], items[y], s, ScorePair(items[e.0], items[e.1], s.window, s.text).value)
    ensures ScorePair(items[e.0], items[e.1], s.window, s.text).contradictory ==> Contradicts(items[x], items[y], s)
    ensures BothContradict(items[x], items[y], s) ==> ScorePair(items[e.0], items[e.1], s.window, s.text).contradictory
  {
    assert NotAfter(items[e.0], items[e.1]);
  }

  lemma ReportIsMatched(items: seq<Item>, s: Setting, c: nat, e: Event, order: seq<nat>, i: nat)
    requires ValidSetting(s) && KeysRise(items) && Wellformed(Group(items, s), |items|) && c < |items|
    requires var component := Group(items, s).components[c];
      && component != [] && Within(component, |items|) && multiset(order) == multiset(component)
      && |order| == |component| == |e.reports| && NoRepeats(order) && Within(order, |items|)
      && forall k :: 0 <= k < |order| ==>
           e.reports[k] == ReportOf(items, Edges(items, s), Contradictions(items, s), component, order[k])
    requires i < |order|
    ensures Matched(e, s, i)
  {
    var component := Group(items, s).components[c];
    var edges, contradictions := Edges(items, s), Contradictions(items, s);
    SameMembers(order, component);
    forall j | 0 <= j < |order| && j != i
      ensures Scores(items[order[i]], items[order[j]], s, ScoreOf(edges, EdgeOf(order[i], order[j])))
      ensures s.threshold <= ScoreOf(edges, EdgeOf(order[i], order[j])) <= 1.0
      ensures EdgeOf(order[i], order[j]) in contradictions ==> Contradicts(items[order[i]], items[order[j]], s)
      ensures BothContradict(items[order[i]], items[order[j]], s) ==> EdgeOf(order[i], order[j]) in contradictions {
      assert order[i] in order && order[j] in order;
      PairInComponent(items, s, c, order[i], order[j]);
    }
    BestOfOrder(items, edges, contradictions, component, order, i, s.threshold);
    AssembleMatch(items, s, e, edges, contradictions, component, order, i);
  }

  /** The published score is the strongest stored edge to another index. */
  lemma BestOfOrder(items: seq<Item>, edges: map<Edge, real>, contradictions: set<Edge>, component: seq<nat>,
                    order: seq<nat>, i: nat, threshold: real)
    requires |order| == |component| && (forall x :: x in order <==> x in component) && NoRepeats(order)
    requires Within(order, |items|) && i < |order| && 0.0 < threshold
    requires forall j :: 0 <= j < |order| && j != i ==> threshold <= ScoreOf(edges, EdgeOf(order[i], order[j])) <= 1.0
    ensures var r := ReportOf(items, edges, contradictions, component, order[i]);
      && (|order| == 1 ==> r.matchScore == 1.0)
      && (|order| > 1 ==>
            exists j :: 0 <= j < |order| && j != i && r.matchScore == ScoreOf(edges, EdgeOf(order[i], order[j])))
      && (forall j :: 0 <= j < |order| && j != i ==> ScoreOf(edges, EdgeOf(order[i], order[j])) <= r.matchScore)
      && (r.contradicts <==> exists j :: 0 <= j < |order| && j != i && EdgeOf(order[i], order[j]) in contradictions)
  {
    var x := order[i];
    var r := ReportOf(items, edges, contradictions, component, x);
    BestEdgeBound(edges, x, component, 0.0);
    BestEdgeIsAttained(edges, x, component, 0.0);
    forall j | 0 <= j < |order| && j != i
      ensures ScoreOf(edges, EdgeOf(x, order[j])) <= BestEdge(edges, x, component, 0.0) {
      assert order[j] in component && order[j] != x;
      var k :| 0 <= k < |component| && component[k] == order[j];
    }
    if |order| > 1 {
      var other := if i == 0 then 1 else 0;
      assert threshold <= ScoreOf(edges, EdgeOf(x, order[other]));
      var y :| y in component && y != x && BestEdge(edges, x, component, 0.0) == ScoreOf(edges, EdgeOf(x, y));
      var j :| 0 <= j < |order| && order[j] == y;
      assert j != i && r.matchScore == ScoreOf(edges, EdgeOf(x, order[j]));
    }
    if r.contradicts {
      var y :| y in component && y != x && EdgeOf(x, y) in contradictions;
      var j :| 0 <= j < |order| && order[j] == y;
    }
    if j :| 0 <= j < |order| && j != i && EdgeOf(x, order[j]) in contradictions {
      assert order[j] in component && order[j] != x;
    }
  }

  lemma AssembleMatch(items: seq<Item>, s: Setting, e: Event, edges: map<Edge, real>, contradictions: set<Edge>,
                      component: seq<nat>, order: seq<nat>, i: nat)
    requires |order| == |e.reports| && Within(order, |items|) && i < |order|
    requires forall k :: 0 <= k < |order| ==> e.reports[k].item == items[order[k]]
    requires forall j :: 0 <= j < |order| && j != i ==>
      && Scores(items[order[i]], items[order[j]], s, ScoreOf(edges, EdgeOf(order[i], order[j])))
      && s.threshold <= ScoreOf(edges, EdgeOf(order[i], order[j])) <= e.reports[i].matchScore
      && (EdgeOf(order[i], order[j]) in contradictions ==> Contradicts(items[order[i]], items[order[j]], s))
      && (BothContradict(items[order[i]], items[order[j]], s) ==> EdgeOf(order[i], order[j]) in contradictions)
    requires |order| == 1 ==> e.reports[i].matchScore == 1.0
    requires |order| > 1 ==>
      exists j :: 0 <= j < |order| && j != i && e.reports[i].matchScore == ScoreOf(edges, EdgeOf(order[i], order[j]))
    requires e.reports[i].contradicts <==>
      exists j :: 0 <= j < |order| && j != i && EdgeOf(order[i], order[j]) in contradictions
    ensures Matched(e, s, i)
  {
    if |order| > 1 {
      var j :| 0 <= j < |order| && j != i && e.reports[i].matchScore == ScoreOf(edges, EdgeOf(order[i], order[j]));
      assert Attains(e, s, i, j);
    }
    forall j | 0 <= j < |order| && j != i ensures Bounds(e, s, i, j) {
      assert Scores(e.reports[i].item, e.reports[j].item, s, ScoreOf(edges, EdgeOf(order[i], order[j])));
    }
    if e.reports[i].contradicts {
      var j :| 0 <= j < |order| && j != i && EdgeOf(order[i], order[j]) in contradictions;
      assert Contradicts(e.reports[i].item, e.reports[j].item, s);
    }
  }

  ghost predicate Rising(component: seq<nat>) {
    forall i, j :: 0 <= i < j < |component| ==> component[i] <= component[j]
  }

  lemma {:induction false} ComponentsRise(order: seq<Edge>, n: nat, edges: map<Edge, real>, threshold: real)
    requires InRange(order, n)
    ensures forall c :: 0 <= c < n ==> Rising(Pass(order, n, edges, threshold).components[c])
    decreases |order|
  {
    if order != [] {
      var last := |order| - 1;
      assert order[last] in order && InRange(order[..last], n);
      ComponentsRise(order[..last], n, edges, threshold);
      var g := Pass(order[..last], n, edges, threshold);
      var merged := g.components[g.membership[order[last].0]] + g.components[g.membership[order[last].1]];
      SortSorted(Leq(), merged);
    }
  }

  lemma GroupRises(items: seq<Item>, s: Setting)
    requires ValidSetting(s)
    ensures |Group(items, s).components| == |items|
    ensures forall c :: 0 <= c < |items| ==> Rising(Group(items, s).components[c])
  {
    ScoresFall(items, s);
    ComponentsRise(Examined(items, s), |items|, Edges(items, s), s.threshold);
  }

  function ItemsOf(reports: seq<Report>): seq<Item> { seq(|reports|, i requires 0 <= i < |reports| => reports[i].item) }

  /** The event is named by its observations in their order. */
  ghost predicate NamedByItems(e: Event, s: Setting) {
    exists members ::
      e.eventId == s.identity(members) && multiset(members) == multiset(ItemsOf(e.reports)) && KeysRise(members)
  }

  lemma EventIsNamed(items: seq<Item>, s: Setting, component: seq<nat>, e: Event, order: seq<nat>)
    requires KeysRise(items) && Within(component, |items|) && Rising(component) && NoRepeats(component)
    requires e.eventId == s.identity(Members(items, component))
    requires Within(order, |items|) && multiset(order) == multiset(component) && |order| == |e.reports|
    requires forall k :: 0 <= k < |order| ==> e.reports[k].item == items[order[k]]
    ensures NamedByItems(e, s)
  {
    var members := Members(items, component);
    MembersForgetOrder(items, component, order);
    assert ItemsOf(e.reports) == Members(items, order);
    forall i, j | 0 <= i < j < |members| ensures NotAfter(members[i], members[j]) {
      assert component[i] < component[j];
    }
  }

  lemma BuiltIsExact(items: seq<Item>, s: Setting, c: nat, e: Event)
    requires ValidSetting(s) && KeysRise(items) && Wellformed(Group(items, s), |items|) && c < |items|
    requires Group(items, s).components[c] != [] && Within(Group(items, s).components[c], |items|)
    requires e == BuildEvent(items, Edges(items, s), Contradictions(items, s), Group(items, s).components[c], s)
    ensures NewestFirst(e.reports) && Totals(e, s) && NamedByItems(e, s)
    ensures forall i :: 0 <= i < |e.reports| ==> Matched(e, s, i) && e.reports[i].item in items
  {
    var component := Group(items, s).components[c];
    BuiltTotals(items, Edges(items, s), Contradictions(items, s), component, s);
    var order := ShownOrder(items, Edges(items, s), Contradictions(items, s), component, s, e);
    forall i | 0 <= i < |e.reports| ensures Matched(e, s, i) && e.reports[i].item in items {
      ReportIsMatched(items, s, c, e, order, i);
      assert e.reports[i].item == items[order[i]];
    }
    GroupRises(items, s);
    EventIsNamed(items, s, component, e, order);
  }

  /** Every event shows its reports newest first and is named by them, with the totals that follow from them; the
      match score of a report is its best score against another report of the event, and a mark of contradiction has
      another report behind it. */
  lemma EventIsExact(observations: seq<Item>, s: Setting, e: Event)
    requires ValidSetting(s) && e in Clustered(observations, s)
    ensures NewestFirst(e.reports) && Totals(e, s) && NamedByItems(e, s)
    ensures forall i :: 0 <= i < |e.reports| ==>
      Matched(e, s, i) && e.reports[i].item in observations && !e.reports[i].item.blankTitle
  {
    var items := Prepared(observations);
    PreparedIsSorted(observations);
    var c := EventSource(items, s, e);
    BuiltIsExact(items, s, c, e);
  }

  /** Events come with the best score first, then the newest, then by their id. */
  lemma EventsAreSorted(observations: seq<Item>, s: Setting)
    requires ValidSetting(s)
    ensures var events := Clustered(observations, s);
      forall i, j :: 0 <= i < j < |events| ==>
        var a, b := events[i], events[j];
        || a.score > b.score
        || (a.score == b.score && a.publishedAt > b.publishedAt)
        || (a.score == b.score && a.publishedAt == b.publishedAt && a.eventId <= b.eventId)
  {
    var leq := (a: Event, b: Event) => EventBefore(a, b);
    assert TotalPreorder(leq);
    SortSorted(leq, Unordered(Prepared(observations), s));
    assert Sorted(leq, Clustered(observations, s));
    forall i, j | 0 <= i < j < |Clustered(observations, s)|
      ensures EventBefore(Clustered(observations, s)[i], Clustered(observations, s)[j]) {
      assert leq(Clustered(observations, s)[i], Clustered(observations, s)[j]);
    }
  }

  // ----- together in one event -----------------------------------------------------------

  lemma RestFits(kept: seq<seq<nat>>, n: nat)
    requires kept != [] && forall j :: 0 <= j < |kept| ==> kept[j] != [] && Within(kept[j], n)
    ensures forall j :: 0 <= j < |kept[1..]| ==> kept[1..][j] != [] && Within(kept[1..][j], n)
  {
    forall j | 0 <= j < |kept[1..]| ensures kept[1..][j] != [] && Within(kept[1..][j], n) {
      assert kept[1..][j] == kept[j + 1];
    }
  }

  lemma BuiltFirst(items: seq<Item>, edges: map<Edge, real>, contradictions: set<Edge>, kept: seq<seq<nat>>,
                   s: Setting, e: Event)
    requires kept != [] && forall j :: 0 <= j < |kept| ==> kept[j] != [] && Within(kept[j], |items|)
    requires e == BuildEvent(items, edges, contradictions, kept[0], s)
      || e in BuildAll(items, edges, contradictions, kept[1..], s)
    ensures e in BuildAll(items, edges, contradictions, kept, s)
  {
    BuildAllUnfolds(items, edges, contradictions, kept, s, []);
  }

  lemma {:induction false} BuiltIsThere(items: seq<Item>, edges: map<Edge, real>, contradictions: set<Edge>,
                                        kept: seq<seq<nat>>, s: Setting, k: nat, e: Event)
    requires k < |kept| && forall j :: 0 <= j < |kept| ==> kept[j] != [] && Within(kept[j], |items|)
    requires e == BuildEvent(items, edges, contradictions, kept[k], s)
    ensures e in BuildAll(items, edges, contradictions, kept, s)
    decreases |kept|, 1
  {
    if k > 0 { BuiltLater(items, edges, contradictions, kept[1..], s, k - 1, kept, e); }
    BuiltFirst(items, edges, contradictions, kept, s, e);
  }

  lemma {:induction false} BuiltLater(items: seq<Item>, edges: map<Edge, real>, contradictions: set<Edge>,
                                      rest: seq<seq<nat>>, s: Setting, k: nat, kept: seq<seq<nat>>, e: Event)
    requires k < |rest| && k + 1 < |kept| && rest == kept[1..]
    requires forall j :: 0 <= j < |kept| ==> kept[j] != [] && Within(kept[j], |items|)
    requires e == BuildEvent(items, edges, contradictions, kept[k + 1], s)
    ensures (forall j :: 0 <= j < |rest| ==> rest[j] != [] && Within(rest[j], |items|))
      && e in BuildAll(items, edges, contradictions, rest, s)
    decreases |rest|, 2
  {
    RestFits(kept, |items|);
    assert rest[k] == kept[k + 1];
    BuiltIsThere(items, edges, contradictions, rest, s, k, e);
  }

  lemma {:induction false} KeptIsThere(components: seq<seq<nat>>, n: nat, c: nat)
    requires c < |components| && components[c] != []
    requires forall d :: 0 <= d < |components| ==> Within(components[d], n)
    ensures components[c] in Kept(components, n)
  {
    if c > 0 {
      assert components[1..][c - 1] == components[c];
      KeptIsThere(components[1..], n, c - 1);
    }
  }

  lemma EventOfComponent(items: seq<Item>, s: Setting, c: nat) returns (e: Event)
    requires ValidSetting(s) && Wellformed(Group(items, s), |items|) && c < |items|
    requires Group(items, s).components[c] != [] && Within(Group(items, s).components[c], |items|)
    ensures e in EventsOf(items, s)
    ensures e == BuildEvent(items, Edges(items, s), Contradictions(items, s), Group(items, s).components[c], s)
  {
    var components := Group(items, s).components;
    GroupWithin(items, s);
    var kept := Kept(components, |items|);
    KeptIsThere(components, |items|, c);
    var k :| 0 <= k < |kept| && kept[k] == components[c];
    e := BuildEvent(items, Edges(items, s), Contradictions(items, s), components[c], s);
    BuiltIsThere(items, Edges(items, s), Contradictions(items, s), kept, s, k, e);
    SameMembers(Unordered(items, s), EventsOf(items, s));
  }

  ghost predicate Share(e: Event, a: Item, b: Item) {
    exists i, j ::
      0 <= i < |e.reports| && 0 <= j < |e.reports| && i != j && e.reports[i].item == a && e.reports[j].item == b
  }

  lemma JoinedShareAnEvent(items: seq<Item>, s: Setting, x: nat, y: nat) returns (e: Event)
    requires ValidSetting(s) && x < y < |items|
    requires var g := Group(items, s); |g.membership| == |items| && g.membership[x] == g.membership[y]
    ensures e in EventsOf(items, s) && Share(e, items[x], items[y])
  {
    GroupPartitions(items, s);
    GroupWithin(items, s);
    var g := Group(items, s);
    var c := g.membership[x];
    var component := g.components[c];
    e := EventOfComponent(items, s, c);
    var order := ShownOrder(items, Edges(items, s), Contradictions(items, s), component, s, e);
    SameMembers(order, component);
    assert x in order && y in order;
    var i :| 0 <= i < |order| && order[i] == x;
    var j :| 0 <= j < |order| && order[j] == y;
    assert e.reports[i].item == items[x] && e.reports[j].item == items[y] && i != j;
  }

  /** Of all prepared observations the two that score highest, above the threshold and above every other pair, come
      out in one event. */
  lemma StrongestShareAnEvent(observations: seq<Item>, s: Setting, pair: Edge) returns (e: Event)
    requires ValidSetting(s) && Strongest(Prepared(observations), s, pair)
    ensures e in Clustered(observations, s)
    ensures Share(e, Prepared(observations)[pair.0], Prepared(observations)[pair.1])
  {
    StrongestIsJoined(Prepared(observations), s, pair);
    e := JoinedShareAnEvent(Prepared(observations), s, pair.0, pair.1);
  }
}
