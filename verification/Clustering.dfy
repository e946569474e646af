/** Greedy complete-linkage clustering of reports into events. */
module Clustering {
  import opened Ordering
  import opened EventIdentity
  import opened PairScore

  type Edge = (nat, nat)

  /** Everything the clustering takes as given: the scorer's text comparison, the corroboration
      bonus and the rendering of the textual fields of an event. */
  datatype Setting = Setting(text: Text, threshold: real, window: int,
                             corroboration: nat -> real, identity: seq<Item> -> int)

  predicate ValidSetting(s: Setting) {
    0.5 <= s.threshold <= 1.0 && s.window >= 1
  }

  // ----- edges ---------------------------------------------------------------------------

  function EdgeOf(a: nat, b: nat): Edge {
    if a < b then (a, b) else (b, a)
  }

  function ScoreAt(items: seq<Item>, e: Edge, s: Setting): Score
    requires e.0 < |items| && e.1 < |items|
  {
    ScorePair(items[e.0], items[e.1], s.window, s.text)
  }

  predicate IsEdge(items: seq<Item>, e: Edge, s: Setting) {
    e.0 < e.1 < |items| && ScoreAt(items, e, s).value >= s.threshold
  }

  /** Edges (left, right), (left, right + 1), ... of one row. */
  function EdgeRow(items: seq<Item>, left: nat, right: nat, s: Setting): (r: seq<Edge>)
    requires left < right <= |items|
    decreases |items| - right
    ensures forall e: Edge :: e in r <==> IsEdge(items, e, s) && e.0 == left && e.1 >= right
  {
    if right == |items| then []
    else (if IsEdge(items, (left, right), s) then [(left, right)] else []) + EdgeRow(items, left, right + 1, s)
  }

  /** Edges of the rows from `left` on. */
  function EdgesFrom(items: seq<Item>, left: nat, s: Setting): (r: seq<Edge>)
    requires left <= |items|
    decreases |items| - left
    ensures forall e: Edge :: e in r <==> IsEdge(items, e, s) && e.0 >= left
  {
    if left == |items| then []
    else EdgeRow(items, left, left + 1, s) + EdgesFrom(items, left + 1, s)
  }

  function Edges(items: seq<Item>, s: Setting): map<Edge, real> {
    map e: Edge | e in EdgesFrom(items, 0, s) :: ScoreAt(items, e, s).value
  }

  function Contradictions(items: seq<Item>, s: Setting): set<Edge> {
    set e: Edge | e in EdgesFrom(items, 0, s) && ScoreAt(items, e, s).contradictory
  }

  function ScoreOf(edges: map<Edge, real>, e: Edge): real {
    if e in edges then edges[e] else 0.0
  }

  predicate EdgeBefore(edges: map<Edge, real>, a: Edge, b: Edge) {
    || ScoreOf(edges, a) > ScoreOf(edges, b)
    || (ScoreOf(edges, a) == ScoreOf(edges, b) && (a.0 < b.0 || (a.0 == b.0 && a.1 <= b.1)))
  }

  function EdgeOrder(edges: map<Edge, real>, keys: seq<Edge>): seq<Edge> {
    Sort((a, b) => EdgeBefore(edges, a, b), keys)
  }

  // ----- grouping ------------------------------------------------------------------------

  datatype Grouping = Grouping(components: seq<seq<nat>>, membership: seq<nat>)

  ghost predicate Wellformed(g: Grouping, n: nat) {
    && |g.components| == |g.membership| == n
    && (forall i :: 0 <= i < n ==> g.membership[i] < n && i in g.components[g.membership[i]])
    && (forall c :: 0 <= c < n ==> AllIn(g, g.components[c], c))
    && (forall c :: 0 <= c < n ==> NoRepeats(g.components[c]))
  }

  /** Every index of `s` is recorded as a member of component `c`. */
  ghost predicate AllIn(g: Grouping, s: seq<nat>, c: nat) {
    forall i :: i in s ==> i < |g.membership| && g.membership[i] == c
  }

  ghost predicate NoRepeats(s: seq<nat>) {
    forall i, j :: 0 <= i < j < |s| ==> s[i] != s[j]
  }

  function Singletons(n: nat): Grouping {
    Grouping(seq(n, i => [i]), seq(n, i => i))
  }

  function Floor(threshold: real): real {
    if threshold - 0.15 < 0.5 then 0.5 else threshold - 0.15
  }

  /** Complete linkage with the source's lower floor. */
  predicate Guard(component: seq<nat>, edges: map<Edge, real>, threshold: real) {
    forall i, j :: 0 <= i < j < |component| ==>
      ScoreOf(edges, EdgeOf(component[i], component[j])) >= Floor(threshold)
  }

  function Leq(): (nat, nat) -> bool { (a, b) => a <= b }

  /** One edge of the greedy pass. */
  function Examine(g: Grouping, e: Edge, edges: map<Edge, real>, threshold: real): Grouping
    requires |g.components| == |g.membership| && e.0 < |g.membership| && e.1 < |g.membership|
    requires forall i :: 0 <= i < |g.membership| ==> g.membership[i] < |g.components|
  {
    var li, ri := g.membership[e.0], g.membership[e.1];
    if li == ri then g
    else
      var merged := g.components[li] + g.components[ri];
      if !Guard(merged, edges, threshold) then g
      else Grouping(g.components[li := Sort(Leq(), merged)][ri := []],
                    seq(|g.membership|, i requires 0 <= i < |g.membership| => if i in merged then li
                      else g.membership[i]))
  }

  /** The grouping after examining the edges of `order` from the first on. */
  function Pass(order: seq<Edge>, n: nat, edges: map<Edge, real>, threshold: real): (g: Grouping)
    requires forall e :: e in order ==> e.0 < n && e.1 < n
    ensures |g.components| == |g.membership| == n
    ensures forall i :: 0 <= i < n ==> g.membership[i] < n
  {
    if order == [] then Singletons(n)
    else
      var last := |order| - 1;
      assert order[last] in order;
      assert forall e :: e in order[..last] ==> e in order;
      Examine(Pass(order[..last], n, edges, threshold), order[last], edges, threshold)
  }

  /** The grouping of the sorted reports. */
  function Group(items: seq<Item>, s: Setting): Grouping {
    var edges := Edges(items, s);
    var order := EdgeOrder(edges, EdgesFrom(items, 0, s));
    assert forall e :: e in order ==> e in multiset(order);
    Pass(order, |items|, edges, s.threshold)
  }

  // ----- invariants of the pass ----------------------------------------------------------

  ghost predicate Linked(edges: map<Edge, real>, x: nat, y: nat) {
    EdgeOf(x, y) in edges
  }

  ghost predicate AllLinked(edges: map<Edge, real>, s: seq<nat>) {
    forall x, y :: x in s && y in s && x != y ==> Linked(edges, x, y)
  }

  /** Scores that are stored are at least the threshold, so the guard's lower floor admits no more
      than full linkage. */
  ghost predicate StoredAtThreshold(edges: map<Edge, real>, threshold: real) {
    && 0.5 <= threshold
    && forall e :: e in edges ==> e.0 < e.1 && edges[e] >= threshold
  }

  lemma GuardIsFullLinkage(s: seq<nat>, edges: map<Edge, real>, threshold: real)
    requires StoredAtThreshold(edges, threshold) && NoRepeats(s)
    ensures Guard(s, edges, threshold) <==> AllLinked(edges, s)
  {
    if Guard(s, edges, threshold) {
      forall x, y | x in s && y in s && x != y ensures Linked(edges, x, y) {
        var i :| 0 <= i < |s| && s[i] == x;
        var j :| 0 <= j < |s| && s[j] == y;
        if i < j { assert ScoreOf(edges, EdgeOf(s[i], s[j])) >= 0.5; }
        else { assert ScoreOf(edges, EdgeOf(s[j], s[i])) >= 0.5; }
      }
    }
    if AllLinked(edges, s) {
      forall i, j | 0 <= i < j < |s| ensures ScoreOf(edges, EdgeOf(s[i], s[j])) >= Floor(threshold) {
        assert s[i] in s && s[j] in s && s[i] != s[j];
        assert Linked(edges, s[i], s[j]);
      }
    }
  }

  ghost predicate Cliques(g: Grouping, edges: map<Edge, real>) {
    forall c :: 0 <= c < |g.components| ==> AllLinked(edges, g.components[c])
  }

  /** The ends of an examined edge are together, or their components may not be joined. */
  ghost predicate Settled(g: Grouping, e: Edge, edges: map<Edge, real>)
    requires |g.components| == |g.membership| && e.0 < |g.membership| && e.1 < |g.membership|
    requires forall i :: 0 <= i < |g.membership| ==> g.membership[i] < |g.components|
  {
    var a, b := g.membership[e.0], g.membership[e.1];
    a == b || !AllLinked(edges, g.components[a] + g.components[b])
  }

  /** `h` only moves whole components of `g` together. */
  ghost predicate Coarser(g: Grouping, h: Grouping) {
    && |g.components| == |g.membership| == |h.components| == |h.membership|
    && (forall i :: 0 <= i < |g.membership| ==> g.membership[i] < |g.components| && h.membership[i] < |h.components|)
    && (forall i, x :: 0 <= i < |g.membership| && x in g.components[g.membership[i]] ==>
      x in h.components[h.membership[i]])
    && (forall i, j :: 0 <= i < |g.membership| && 0 <= j < |g.membership| && g.membership[i] == g.membership[j] ==>
          h.membership[i] == h.membership[j])
  }

  lemma SettledStays(g: Grouping, h: Grouping, e: Edge, edges: map<Edge, real>)
    requires Coarser(g, h) && e.0 < |g.membership| && e.1 < |g.membership| && Settled(g, e, edges)
    ensures Settled(h, e, edges)
  {
    var a, b := g.components[g.membership[e.0]], g.components[g.membership[e.1]];
    if g.membership[e.0] != g.membership[e.1] {
      var x, y :| x in a + b && y in a + b && x != y && !Linked(edges, x, y);
      var a', b' := h.components[h.membership[e.0]], h.components[h.membership[e.1]];
      assert x in a' + b' && y in a' + b';
    }
  }

  lemma MergedNoRepeats(g: Grouping, n: nat, li: nat, ri: nat)
    requires Wellformed(g, n) && li < n && ri < n && li != ri
    ensures NoRepeats(g.components[li] + g.components[ri])
    ensures NoRepeats(Sort(Leq(), g.components[li] + g.components[ri]))
    ensures forall i :: i in Sort(Leq(), g.components[li] + g.components[ri]) <==>
      i in g.components[li] + g.components[ri]
  {
    var m := g.components[li] + g.components[ri];
    forall i, j | 0 <= i < j < |m| ensures m[i] != m[j] {
      var k := |g.components[li]|;
      assert m[i] == if i < k then g.components[li][i] else g.components[ri][i - k];
      assert m[j] == if j < k then g.components[li][j] else g.components[ri][j - k];
      if i < k <= j {
        assert AllIn(g, g.components[li], li) && AllIn(g, g.components[ri], ri);
        assert m[i] in g.components[li] && m[j] in g.components[ri];
        assert g.membership[m[i]] == li && g.membership[m[j]] == ri;
      }
    }
    NoRepeatsIsMultiset(m);
    NoRepeatsIsMultiset(Sort(Leq(), m));
    SameMembers(m, Sort(Leq(), m));
  }

  lemma {:induction false} NoRepeatsIsMultiset(s: seq<nat>)
    ensures NoRepeats(s) <==> forall x :: x in s ==> multiset(s)[x] == 1
  {
    if s != [] {
      var t := s[1..];
      assert s == [s[0]] + t;
      NoRepeatsIsMultiset(t);
      if NoRepeats(s) {
        assert NoRepeats(t);
        assert s[0] !in t;
        assert s[0] !in multiset(t);
      }
      if forall x :: x in s ==> multiset(s)[x] == 1 {
        assert s[0] in s;
        assert s[0] !in multiset(t);
        assert s[0] !in t;
        forall x | x in t ensures multiset(t)[x] == 1 { assert x in s && x != s[0]; }
        forall i, j | 0 <= i < j < |s| ensures s[i] != s[j] {
          assert s[j] == t[j - 1] && t[j - 1] in t;
          if i > 0 { assert s[i] == t[i - 1]; }
        }
      }
    }
  }

  /** One step keeps the grouping a partition of cliques, only coarsens it and settles its edge. */
  lemma ExamineKeeps(g: Grouping, n: nat, e: Edge, edges: map<Edge, real>, threshold: real)
    requires Wellformed(g, n) && Cliques(g, edges) && StoredAtThreshold(edges, threshold)
    requires e.0 < n && e.1 < n
    ensures var h := Examine(g, e, edges, threshold);
      Wellformed(h, n) && Cliques(h, edges) && Coarser(g, h) && Settled(h, e, edges)
  {
    var li, ri := g.membership[e.0], g.membership[e.1];
    if li != ri {
      var merged := g.components[li] + g.components[ri];
      MergedNoRepeats(g, n, li, ri);
      GuardIsFullLinkage(merged, edges, threshold);
      if Guard(merged, edges, threshold) {
        var h := Examine(g, e, edges, threshold);
        assert forall i :: i in merged <==> i in g.components[li] || i in g.components[ri];
        assert AllIn(g, g.components[li], li) && AllIn(g, g.components[ri], ri);
        forall c | 0 <= c < n ensures AllIn(h, h.components[c], c) && NoRepeats(h.components[c]) {
          if c != li && c != ri {
            assert h.components[c] == g.components[c] && AllIn(g, g.components[c], c);
          }
        }
        assert Wellformed(h, n);
        assert Cliques(h, edges) by {
          forall c | 0 <= c < n ensures AllLinked(edges, h.components[c]) {
            assert c != li && c != ri ==> h.components[c] == g.components[c];
          }
        }
      }
    }
  }

  /** After any prefix of the pass: a partition into cliques, with every examined edge settled. */
  lemma {:induction false} PassKeeps(order: seq<Edge>, n: nat, edges: map<Edge, real>, threshold: real)
    requires StoredAtThreshold(edges, threshold)
    requires forall e :: e in order ==> e.0 < n && e.1 < n
    ensures var g := Pass(order, n, edges, threshold);
      Wellformed(g, n) && Cliques(g, edges) && forall e :: e in order ==> Settled(g, e, edges)
  {
    if order == [] {
      assert Wellformed(Singletons(n), n);
    } else {
      var last := |order| - 1;
      assert order == order[..last] + [order[last]];
      PassKeeps(order[..last], n, edges, threshold);
      var g := Pass(order[..last], n, edges, threshold);
      assert order[last] in order;
      ExamineKeeps(g, n, order[last], edges, threshold);
      forall e | e in order ensures Settled(Pass(order, n, edges, threshold), e, edges) {
        if e != order[last] {
          assert e in order[..last];
          SettledStays(g, Pass(order, n, edges, threshold), e, edges);
        }
      }
    }
  }

  lemma StoredEdges(items: seq<Item>, s: Setting)
    requires ValidSetting(s)
    ensures StoredAtThreshold(Edges(items, s), s.threshold)
    ensures forall e: Edge :: e in Edges(items, s) <==> IsEdge(items, e, s)
    ensures forall e: Edge :: e in EdgeOrder(Edges(items, s), EdgesFrom(items, 0, s)) <==> IsEdge(items, e, s)
  {
    SameMembers(EdgesFrom(items, 0, s), EdgeOrder(Edges(items, s), EdgesFrom(items, 0, s)));
  }

  // ----- what the grouping promises ------------------------------------------------------

  /** The components partition the report indices. */
  lemma GroupPartitions(items: seq<Item>, s: Setting)
    requires ValidSetting(s)
    ensures Wellformed(Group(items, s), |items|)
  {
    StoredEdges(items, s);
    PassKeeps(EdgeOrder(Edges(items, s), EdgesFrom(items, 0, s)), |items|, Edges(items, s), s.threshold);
  }

  /** Two reports of one component always have their own edge at the full threshold, so without a
      common verified occurrence they respect every boundary of the scorer. */
  lemma GroupIsPairwise(items: seq<Item>, s: Setting, c: nat, x: nat, y: nat)
    requires ValidSetting(s) && c < |items|
    requires |Group(items, s).components| == |items|
    requires x in Group(items, s).components[c] && y in Group(items, s).components[c] && x < y
    ensures IsEdge(items, (x, y), s)
    ensures SameOccurrence(items[x], items[y]) || WithinBoundaries(items[x], items[y], s.window, s.text)
  {
    StoredEdges(items, s);
    PassKeeps(EdgeOrder(Edges(items, s), EdgesFrom(items, 0, s)), |items|, Edges(items, s), s.threshold);
    assert AllLinked(Edges(items, s), Group(items, s).components[c]);
    assert Linked(Edges(items, s), x, y);
    PositiveScore(items[x], items[y], s.window, s.text);
  }

  lemma AcrossIsUnlinked(g: Grouping, n: nat, edges: map<Edge, real>, c: nat, d: nat)
    requires Wellformed(g, n) && c < d < n && g.components[c] != [] && g.components[d] != []
    requires forall e: Edge :: e in edges ==> e.0 < n && e.1 < n && Settled(g, e, edges)
    ensures !AllLinked(edges, g.components[c] + g.components[d])
  {
    var union := g.components[c] + g.components[d];
    if AllLinked(edges, union) {
      var x, y := g.components[c][0], g.components[d][0];
      assert AllIn(g, g.components[c], c) && AllIn(g, g.components[d], d);
      assert x in union && y in union;
      assert Linked(edges, x, y) && Settled(g, EdgeOf(x, y), edges);
      assert AllLinked(edges, g.components[d] + g.components[c]);
      assert false;
    }
  }

  /** The pass stops at a maximal outcome: no two components could still be joined. */
  lemma GroupIsMaximal(items: seq<Item>, s: Setting)
    requires ValidSetting(s)
    ensures var components := Group(items, s).components;
      && |components| == |items|
      && forall c, d :: 0 <= c < d < |items| && components[c] != [] && components[d] != [] ==>
           !Guard(components[c] + components[d], Edges(items, s), s.threshold)
  {
    var g, edges := Group(items, s), Edges(items, s);
    StoredEdges(items, s);
    PassKeeps(EdgeOrder(edges, EdgesFrom(items, 0, s)), |items|, edges, s.threshold);
    forall c, d | 0 <= c < d < |items| && g.components[c] != [] && g.components[d] != []
      ensures !Guard(g.components[c] + g.components[d], edges, s.threshold) {
      AcrossIsUnlinked(g, |items|, edges, c, d);
      MergedNoRepeats(g, |items|, c, d);
      GuardIsFullLinkage(g.components[c] + g.components[d], edges, s.threshold);
    }
  }

  // ----- events --------------------------------------------------------------------------

  predicate Within(component: seq<nat>, n: nat) {
    forall k :: 0 <= k < |component| ==> component[k] < n
  }

  lemma SortWithin(leq: (nat, nat) -> bool, component: seq<nat>, n: nat)
    requires Within(component, n)
    ensures Within(Sort(leq, component), n)
  {
    var order := Sort(leq, component);
    SameMembers(component, order);
    forall k | 0 <= k < |order| ensures order[k] < n {
      assert order[k] in order && order[k] in component;
    }
  }

  datatype Report = Report(item: Item, matchScore: real, contradicts: bool)

  datatype Event = Event(eventId: int, reports: seq<Report>, score: real, publishedAt: int,
                         independentSources: nat, hasContradictions: bool)

  lemma AllInWithin(g: Grouping, component: seq<nat>, c: nat)
    requires AllIn(g, component, c)
    ensures Within(component, |g.membership|)
  {
    forall k | 0 <= k < |component| ensures component[k] < |g.membership| {
      assert component[k] in component;
    }
  }

  function Members(items: seq<Item>, component: seq<nat>): (r: seq<Item>)
    requires Within(component, |items|)
    ensures |r| == |component|
    ensures forall k :: 0 <= k < |component| ==> r[k] == items[component[k]]
  {
    seq(|component|, k requires 0 <= k < |component| => items[component[k]])
  }

  /** Newest report first, then by report id. */
  predicate ReportBefore(items: seq<Item>, a: nat, b: nat) {
    b < |items| ==>
      a < |items| && (|| items[a].publishedAt > items[b].publishedAt
                      || (items[a].publishedAt == items[b].publishedAt && items[a].reportId <= items[b].reportId))
  }

  /** The strongest edge of `index` to another member, at least `best`. */
  function BestEdge(edges: map<Edge, real>, index: nat, component: seq<nat>, best: real): real
    decreases |component|
  {
    if component == [] then best
    else if component[0] == index then BestEdge(edges, index, component[1..], best)
    else BestEdge(edges, index, component[1..], MaxReal(best, ScoreOf(edges, EdgeOf(index, component[0]))))
  }

  function ReportOf(items: seq<Item>, edges: map<Edge, real>, contradictions: set<Edge>, component: seq<nat>,
                    index: nat): Report
    requires index < |items|
  {
    Report(items[index],
           if |component| <= 1 then 1.0 else MinReal(1.0, BestEdge(edges, index, component, 0.0)),
           exists other :: other in component && other != index && EdgeOf(index, other) in contradictions)
  }

  function Reports(items: seq<Item>, edges: map<Edge, real>, contradictions: set<Edge>, component: seq<nat>,
                   order: seq<nat>): (r: seq<Report>)
    requires Within(order, |items|)
    ensures |r| == |order|
    ensures forall k :: 0 <= k < |order| ==> r[k] == ReportOf(items, edges, contradictions, component, order[k])
  {
    seq(|order|, k requires 0 <= k < |order| => ReportOf(items, edges, contradictions, component, order[k]))
  }

  function MaxEvidence(reports: seq<Report>): real
    requires reports != []
  {
    if |reports| == 1 then reports[0].item.evidence
    else MaxReal(reports[0].item.evidence, MaxEvidence(reports[1..]))
  }

  function Latest(reports: seq<Report>): int
    requires reports != []
  {
    if |reports| == 1 || reports[0].item.publishedAt >= Latest(reports[1..]) then reports[0].item.publishedAt
    else Latest(reports[1..])
  }

  /** Publishers, or the source where a report names none. */
  function Publishers(reports: seq<Report>): set<string> {
    set r | r in reports && (r.item.publisher != "" || r.item.sourceId != "") ::
      if r.item.publisher != "" then r.item.publisher else r.item.sourceId
  }

  function BuildEvent(items: seq<Item>, edges: map<Edge, real>, contradictions: set<Edge>, component: seq<nat>,
                      s: Setting): Event
    requires component != [] && Within(component, |items|)
  {
    var leq := (a: nat, b: nat) => ReportBefore(items, a, b);
    SortWithin(leq, component, |items|);
    var order := Sort(leq, component);
    var reports := Reports(items, edges, contradictions, component, order);
    Event(s.identity(Members(items, component)), reports,
          MaxEvidence(reports) + s.corroboration(|Publishers(reports)|), Latest(reports), |Publishers(reports)|,
          exists r :: r in reports && r.contradicts)
  }

  /** The components that were not emptied by a merge. */
  function Kept(components: seq<seq<nat>>, n: nat): (r: seq<seq<nat>>)
    requires forall c :: 0 <= c < |components| ==> Within(components[c], n)
    ensures forall k :: 0 <= k < |r| ==> r[k] != [] && Within(r[k], n) && r[k] in components
  {
    if components == [] then []
    else (if components[0] == [] then [] else [components[0]]) + Kept(components[1..], n)
  }

  function BuildAll(items: seq<Item>, edges: map<Edge, real>, contradictions: set<Edge>, kept: seq<seq<nat>>,
                    s: Setting): seq<Event>
    requires forall k :: 0 <= k < |kept| ==> kept[k] != [] && Within(kept[k], |items|)
    decreases |kept|
  {
    if kept == [] then []
    else [BuildEvent(items, edges, contradictions, kept[0], s)] + BuildAll(items, edges, contradictions, kept[1..], s)
  }

  predicate EventBefore(a: Event, b: Event) {
    || a.score > b.score
    || (a.score == b.score && (a.publishedAt > b.publishedAt
                               || (a.publishedAt == b.publishedAt && a.eventId <= b.eventId)))
  }

  predicate ItemBefore(a: Item, b: Item) {
    a.reportId < b.reportId || (a.reportId == b.reportId && a.id <= b.id)
  }

  function Titled(observations: seq<Item>): seq<Item> {
    Filter((i: Item) => !i.blankTitle, observations)
  }

  function Prepared(observations: seq<Item>): seq<Item> {
    Sort((a, b) => ItemBefore(a, b), Titled(observations))
  }

  lemma GroupWithin(items: seq<Item>, s: Setting)
    requires ValidSetting(s)
    ensures |Group(items, s).components| == |items|
    ensures forall c :: 0 <= c < |items| ==> Within(Group(items, s).components[c], |items|)
  {
    GroupPartitions(items, s);
    var g := Group(items, s);
    forall c | 0 <= c < |items| ensures Within(g.components[c], |items|) {
      AllInWithin(g, g.components[c], c);
    }
  }

  /** The events in component order. */
  function Unordered(items: seq<Item>, s: Setting): seq<Event>
    requires ValidSetting(s)
  {
    GroupWithin(items, s);
    BuildAll(items, Edges(items, s), Contradictions(items, s), Kept(Group(items, s).components, |items|), s)
  }

  function EventsOf(items: seq<Item>, s: Setting): (r: seq<Event>)
    requires ValidSetting(s)
    ensures multiset(r) == multiset(Unordered(items, s))
  {
    Sort((a, b) => EventBefore(a, b), Unordered(items, s))
  }

  /** The events of a batch of observations. */
  function Clustered(observations: seq<Item>, s: Setting): seq<Event>
    requires ValidSetting(s)
  {
    EventsOf(Prepared(observations), s)
  }

  // ----- order independence --------------------------------------------------------------

  /** Two different titled observations never share report id and observation id. */
  ghost predicate DistinctKeys(observations: seq<Item>) {
    forall a, b :: (a in observations && b in observations && !a.blankTitle && !b.blankTitle
                    && a.reportId == b.reportId && a.id == b.id) ==> a == b
  }

  lemma ItemOrderIsTotal()
    ensures TotalPreorder((a: Item, b: Item) => ItemBefore(a, b))
  {
  }

  /** The same observations in any order give the identical sequence of events. */
  lemma ClusteringIgnoresOrder(first: seq<Item>, second: seq<Item>, s: Setting)
    requires ValidSetting(s) && multiset(first) == multiset(second) && DistinctKeys(first)
    ensures Clustered(first, s) == Clustered(second, s)
  {
    var leq := (a: Item, b: Item) => ItemBefore(a, b);
    ItemOrderIsTotal();
    FilterPermutation((i: Item) => !i.blankTitle, first, second);
    assert TieFree(leq, Titled(first));
    SortForgetsOrder(leq, Titled(first), Titled(second));
    assert Prepared(first) == Prepared(second);
  }

  lemma TitledPair(a: Item, b: Item)
    requires !a.blankTitle && !b.blankTitle
    ensures Titled([a, b]) == [a, b]
  {
    assert [a, b][1..] == [b] && [b][1..] == [];
    assert Titled([b]) == [b] + Titled([]);
    assert Titled([a, b]) == [a] + Titled([b]);
  }

  /** The order the reports are clustered in is the same for every arrangement of a pair exactly
      when the two do not share a key without being equal. */
  lemma PreparedOrderOfPair(a: Item, b: Item)
    requires !a.blankTitle && !b.blankTitle
    ensures Prepared([a, b]) == Prepared([b, a]) <==> (a.reportId == b.reportId && a.id == b.id ==> a == b)
  {
    var leq := (x: Item, y: Item) => ItemBefore(x, y);
    ItemOrderIsTotal();
    TitledPair(a, b);
    TitledPair(b, a);
    if a.reportId == b.reportId && a.id == b.id && a != b {
      TieShowsOrder(leq, a, b);
      assert [a, b][0] != [b, a][0];
    } else {
      SortForgetsOrder(leq, [a, b], [b, a]);
    }
  }

  // ----- what the events promise ---------------------------------------------------------

  function Presented(items: seq<Item>, component: seq<nat>): (order: seq<nat>)
    requires Within(component, |items|)
    ensures multiset(order) == multiset(component) && Within(order, |items|)
  {
    var leq := (a: nat, b: nat) => ReportBefore(items, a, b);
    SortWithin(leq, component, |items|);
    Sort(leq, component)
  }

  lemma {:induction false} BuiltOne(items: seq<Item>, edges: map<Edge, real>, contradictions: set<Edge>,
                                    kept: seq<seq<nat>>,
                                    s: Setting, events: seq<Event>, e: Event) returns (k: nat)
    requires forall k :: 0 <= k < |kept| ==> kept[k] != [] && Within(kept[k], |items|)
    requires events == BuildAll(items, edges, contradictions, kept, s) && e in events
    ensures k < |kept| && e == BuildEvent(items, edges, contradictions, kept[k], s)
    decreases |kept|
  {
    if e == events[0] {
      k := 0;
    } else {
      assert events[1..] == BuildAll(items, edges, contradictions, kept[1..], s);
      k := BuiltOne(items, edges, contradictions, kept[1..], s, events[1..], e);
      k := k + 1;
    }
  }

  lemma BuiltFrom(items: seq<Item>, edges: map<Edge, real>, contradictions: set<Edge>, components: seq<seq<nat>>,
                  s: Setting, e: Event) returns (c: nat)
    requires forall c :: 0 <= c < |components| ==> Within(components[c], |items|)
    requires e in BuildAll(items, edges, contradictions, Kept(components, |items|), s)
    ensures c < |components| && components[c] != []
    ensures e == BuildEvent(items, edges, contradictions, components[c], s)
  {
    var kept := Kept(components, |items|);
    var k := BuiltOne(items, edges, contradictions, kept, s, BuildAll(items, edges, contradictions, kept, s), e);
    c :| 0 <= c < |components| && components[c] == kept[k];
  }

  /** The component an event was built from. */
  lemma EventSource(items: seq<Item>, s: Setting, e: Event) returns (c: nat)
    requires ValidSetting(s) && e in EventsOf(items, s)
    ensures Wellformed(Group(items, s), |items|) && c < |items|
    ensures Group(items, s).components[c] != [] && Within(Group(items, s).components[c], |items|)
    ensures e == BuildEvent(items, Edges(items, s), Contradictions(items, s), Group(items, s).components[c], s)
  {
    GroupPartitions(items, s);
    GroupWithin(items, s);
    SameMembers(Unordered(items, s), EventsOf(items, s));
    c := BuiltFrom(items, Edges(items, s), Contradictions(items, s), Group(items, s).components, s, e);
  }

  lemma BoundariesAreSymmetric(a: Item, b: Item, window: int, text: Text)
    requires SameOccurrence(a, b) || WithinBoundaries(a, b, window, text)
    ensures SameOccurrence(b, a) || WithinBoundaries(b, a, window, text)
  {
    assert RateActions(a) * RateActions(b) == RateActions(b) * RateActions(a);
  }

  /** Two reports of an event share a verified occurrence or respect every boundary. */
  ghost predicate Fit(e: Event, i: nat, j: nat, s: Setting)
    requires i < |e.reports| && j < |e.reports|
  {
    var a, b := e.reports[i].item, e.reports[j].item;
    SameOccurrence(a, b) || WithinBoundaries(a, b, s.window, s.text)
  }

  /** Any two reports of one event fit: they are within the time window, and two decisions of known banks are
      pairwise compatible, although compatibility is not transitive. */
  lemma EventIsPairwise(observations: seq<Item>, s: Setting)
    requires ValidSetting(s)
    ensures forall e: Event, i: nat, j: nat ::
      e in Clustered(observations, s) && i < |e.reports| && j < |e.reports| && i != j ==> Fit(e, i, j, s)
  {
    var items := Prepared(observations);
    forall e: Event, i: nat, j: nat | e in Clustered(observations, s) && i < |e.reports| && j < |e.reports| && i != j
      ensures Fit(e, i, j, s) {
      var c := EventSource(items, s, e);
      ReportsFit(items, s, c, e, i, j);
    }
  }

  lemma ReportsFit(items: seq<Item>, s: Setting, c: nat, e: Event, i: nat, j: nat)
    requires ValidSetting(s) && Wellformed(Group(items, s), |items|) && c < |items|
    requires Group(items, s).components[c] != [] && Within(Group(items, s).components[c], |items|)
    requires e == BuildEvent(items, Edges(items, s), Contradictions(items, s), Group(items, s).components[c], s)
    requires i < |e.reports| && j < |e.reports| && i != j
    ensures Fit(e, i, j, s)
  {
    var component := Group(items, s).components[c];
    var order := Presented(items, component);
    NoRepeatsIsMultiset(component);
    NoRepeatsIsMultiset(order);
    SameMembers(component, order);
    assert order[i] in order && order[j] in order && order[i] != order[j];
    var x, y := order[i], order[j];
    assert e.reports[i].item == items[x] && e.reports[j].item == items[y];
    if x < y {
      GroupIsPairwise(items, s, c, x, y);
    } else {
      GroupIsPairwise(items, s, c, y, x);
      BoundariesAreSymmetric(items[y], items[x], s.window, s.text);
    }
  }

  lemma {:induction false} BestEdgeBound(edges: map<Edge, real>, index: nat, component: seq<nat>, best: real)
    ensures BestEdge(edges, index, component, best) >= best
    ensures forall k :: 0 <= k < |component| && component[k] != index ==>
      BestEdge(edges, index, component, best) >= ScoreOf(edges, EdgeOf(index, component[k]))
  {
    if component != [] {
      var next := if component[0] == index then best
                  else MaxReal(best, ScoreOf(edges, EdgeOf(index, component[0])));
      BestEdgeBound(edges, index, component[1..], next);
      forall k | 0 <= k < |component| && component[k] != index
        ensures BestEdge(edges, index, component, best) >= ScoreOf(edges, EdgeOf(index, component[k])) {
        if k > 0 { assert component[k] == component[1..][k - 1]; }
      }
    }
  }

  lemma BestEdgeReaches(items: seq<Item>, s: Setting, c: nat, x: nat, y: nat)
    requires ValidSetting(s) && Wellformed(Group(items, s), |items|) && c < |items|
    requires x in Group(items, s).components[c] && y in Group(items, s).components[c] && x != y
    ensures BestEdge(Edges(items, s), x, Group(items, s).components[c], 0.0) >= s.threshold
  {
    var component := Group(items, s).components[c];
    var k :| 0 <= k < |component| && component[k] == y;
    if x < y { GroupIsPairwise(items, s, c, x, y); } else { GroupIsPairwise(items, s, c, y, x); }
    StoredEdges(items, s);
    BestEdgeBound(Edges(items, s), x, component, 0.0);
  }

  /** The published match score of a corroborated report is never below the threshold. */
  lemma MatchScoreReachesThreshold(observations: seq<Item>, s: Setting)
    requires ValidSetting(s)
    ensures forall e: Event, i: nat :: e in Clustered(observations, s) && i < |e.reports| ==>
      s.threshold <= e.reports[i].matchScore <= 1.0
  {
    var items := Prepared(observations);
    forall e: Event, i: nat | e in Clustered(observations, s) && i < |e.reports|
      ensures s.threshold <= e.reports[i].matchScore <= 1.0 {
      var c := EventSource(items, s, e);
      MatchScoresReach(items, s, c, e, i);
    }
  }

  lemma MatchScoresReach(items: seq<Item>, s: Setting, c: nat, e: Event, i: nat)
    requires ValidSetting(s) && Wellformed(Group(items, s), |items|) && c < |items|
    requires Group(items, s).components[c] != [] && Within(Group(items, s).components[c], |items|)
    requires e == BuildEvent(items, Edges(items, s), Contradictions(items, s), Group(items, s).components[c], s)
      && i < |e.reports|
    ensures s.threshold <= e.reports[i].matchScore <= 1.0
  {
    var component := Group(items, s).components[c];
    var x, y := ReportSource(items, Edges(items, s), Contradictions(items, s), component, s, i);
    if |component| > 1 { BestEdgeReaches(items, s, c, x, y); }
  }

  /** The index a report of an event stands for and, beside others, another index of its component. */
  lemma ReportSource(items: seq<Item>, edges: map<Edge, real>, contradictions: set<Edge>, component: seq<nat>,
                     s: Setting, i: nat)
    returns (x: nat, y: nat)
    requires component != [] && Within(component, |items|) && NoRepeats(component)
    requires i < |BuildEvent(items, edges, contradictions, component, s).reports|
    ensures x in component && x < |items|
    ensures BuildEvent(items, edges, contradictions, component, s).reports[i]
      == ReportOf(items, edges, contradictions, component, x)
    ensures |component| > 1 ==> y in component && x != y
  {
    var order := Presented(items, component);
    SameMembers(component, order);
    x := order[i];
    assert x in order;
    y := component[0];
    if |component| > 1 && y == x {
      y := component[1];
    }
  }

  // ----- nothing is lost -----------------------------------------------------------------

  function Flatten(components: seq<seq<nat>>): seq<nat> {
    if components == [] then [] else components[0] + Flatten(components[1..])
  }

  function Items(reports: seq<Report>): (r: seq<Item>)
    ensures |r| == |reports| && forall k :: 0 <= k < |r| ==> r[k] == reports[k].item
  {
    seq(|reports|, k requires 0 <= k < |reports| => reports[k].item)
  }

  function AllItems(events: seq<Event>): multiset<Item> {
    if events == [] then multiset{} else multiset(Items(events[0].reports)) + AllItems(events[1..])
  }

  lemma Swap<T>(a: multiset<T>, b: multiset<T>, c: multiset<T>)
    ensures a + (b + c) == b + (a + c)
  {
  }

  lemma AllItemsCons(e: Event, rest: seq<Event>)
    ensures AllItems([e] + rest) == multiset(Items(e.reports)) + AllItems(rest)
  {
    assert ([e] + rest)[1..] == rest;
  }

  lemma {:induction false} AllItemsTakeOut(events: seq<Event>, k: nat)
    requires k < |events|
    ensures AllItems(events) == multiset(Items(events[k].reports)) + AllItems(Without(events, k))
  {
    var head, tail := events[0], events[1..];
    assert events == [head] + tail;
    AllItemsCons(head, tail);
    if k == 0 {
      assert Without(events, 0) == tail;
    } else {
      var rest := Without(tail, k - 1);
      AllItemsTakeOut(tail, k - 1);
      assert Without(events, k) == [head] + rest;
      AllItemsCons(head, rest);
      Swap(multiset(Items(head.reports)), multiset(Items(events[k].reports)), AllItems(rest));
    }
  }

  lemma {:induction false} AllItemsForgetsOrder(a: seq<Event>, b: seq<Event>)
    requires multiset(a) == multiset(b)
    ensures AllItems(a) == AllItems(b)
  {
    if a == [] {
      assert |multiset(b)| == |b|;
      assert b == [];
    } else {
      var k := MatchHead(a, b);
      AllItemsTakeOut(b, k);
      AllItemsForgetsOrder(a[1..], Without(b, k));
    }
  }

  lemma MembersTakeOut(items: seq<Item>, b: seq<nat>, k: nat)
    requires Within(b, |items|) && k < |b|
    ensures Within(Without(b, k), |items|)
    ensures multiset(Members(items, b)) == multiset{items[b[k]]} + multiset(Members(items, Without(b, k)))
  {
    WithoutMultiset(Members(items, b), k);
    assert Members(items, Without(b, k)) == Without(Members(items, b), k);
  }

  lemma {:induction false} MembersForgetOrder(items: seq<Item>, a: seq<nat>, b: seq<nat>)
    requires Within(a, |items|) && Within(b, |items|) && multiset(a) == multiset(b)
    ensures multiset(Members(items, a)) == multiset(Members(items, b))
  {
    if a == [] {
      assert |multiset(b)| == |b|;
      assert b == [];
    } else {
      var k := MatchHead(a, b);
      MembersTakeOut(items, a, 0);
      MembersTakeOut(items, b, k);
      assert Without(a, 0) == a[1..];
      MembersForgetOrder(items, a[1..], Without(b, k));
    }
  }

  lemma EventKeepsItems(items: seq<Item>, edges: map<Edge, real>, contradictions: set<Edge>, component: seq<nat>,
                        s: Setting)
    requires component != [] && Within(component, |items|)
    ensures multiset(Items(BuildEvent(items, edges, contradictions, component, s).reports))
         == multiset(Members(items, component))
  {
    var order := Presented(items, component);
    assert Items(BuildEvent(items, edges, contradictions, component, s).reports) == Members(items, order);
    MembersForgetOrder(items, component, order);
  }

  lemma MembersConcatenate(items: seq<Item>, a: seq<nat>, b: seq<nat>)
    requires Within(a, |items|) && Within(b, |items|)
    ensures Within(a + b, |items|)
    ensures multiset(Members(items, a + b)) == multiset(Members(items, a)) + multiset(Members(items, b))
  {
    assert Members(items, a + b) == Members(items, a) + Members(items, b);
  }

  lemma {:induction false} BuildAllKeepsItems(items: seq<Item>, edges: map<Edge, real>, contradictions: set<Edge>,
                                              kept: seq<seq<nat>>, s: Setting)
    requires forall k :: 0 <= k < |kept| ==> kept[k] != [] && Within(kept[k], |items|)
    ensures Within(Flatten(kept), |items|)
    ensures AllItems(BuildAll(items, edges, contradictions, kept, s)) == multiset(Members(items, Flatten(kept)))
  {
    if kept != [] {
      var first, rest := kept[0], kept[1..];
      var head := BuildEvent(items, edges, contradictions, first, s);
      BuildAllKeepsItems(items, edges, contradictions, rest, s);
      EventKeepsItems(items, edges, contradictions, first, s);
      AllItemsCons(head, BuildAll(items, edges, contradictions, rest, s));
      MembersConcatenate(items, first, Flatten(rest));
    }
  }

  lemma {:induction false} FlattenKept(components: seq<seq<nat>>, n: nat)
    requires forall c :: 0 <= c < |components| ==> Within(components[c], n)
    ensures Flatten(Kept(components, n)) == Flatten(components)
  {
    if components != [] {
      var rest := components[1..];
      FlattenKept(rest, n);
      if components[0] == [] {
        assert Kept(components, n) == Kept(rest, n);
      } else {
        assert Kept(components, n) == [components[0]] + Kept(rest, n);
        assert Kept(components, n)[1..] == Kept(rest, n);
      }
    }
  }

  lemma {:induction false} FlattenCounts(g: Grouping, components: seq<seq<nat>>, offset: nat, x: nat)
    requires offset + |components| <= |g.membership| && x < |g.membership|
    requires forall c :: 0 <= c < |components| ==> AllIn(g, components[c], offset + c) && NoRepeats(components[c])
    requires forall c :: 0 <= c < |components| && g.membership[x] == offset + c ==> x in components[c]
    ensures multiset(Flatten(components))[x] == if offset <= g.membership[x] < offset + |components| then 1 else 0
  {
    if components != [] {
      NoRepeatsIsMultiset(components[0]);
      assert x in components[0] <==> g.membership[x] == offset by { assert AllIn(g, components[0], offset + 0); }
      assert x in components[0] <==> x in multiset(components[0]);
      forall c | 0 <= c < |components[1..]|
        ensures AllIn(g, components[1..][c], offset + 1 + c) && NoRepeats(components[1..][c]) {
        assert components[1..][c] == components[c + 1] && AllIn(g, components[c + 1], offset + (c + 1));
      }
      FlattenCounts(g, components[1..], offset + 1, x);
    }
  }

  function Indices(n: nat): (r: seq<nat>)
    ensures |r| == n && Within(r, n) && forall k :: 0 <= k < n ==> r[k] == k
  {
    seq(n, i => i)
  }

  lemma FlattenHasEachOnce(g: Grouping, n: nat, x: nat)
    requires Wellformed(g, n) && Within(Flatten(g.components), n)
    ensures multiset(Flatten(g.components))[x] == multiset(Indices(n))[x]
  {
    if x < n {
      NoRepeatsIsMultiset(Indices(n));
      forall c | 0 <= c < n ensures AllIn(g, g.components[c], 0 + c) {}
      FlattenCounts(g, g.components, 0, x);
      assert Indices(n)[x] in Indices(n);
    } else {
      assert x !in Flatten(g.components) && x !in Indices(n);
    }
  }

  lemma FlattenIsPermutation(g: Grouping, n: nat)
    requires Wellformed(g, n) && Within(Flatten(g.components), n)
    ensures multiset(Flatten(g.components)) == multiset(Indices(n))
  {
    forall x: nat { FlattenHasEachOnce(g, n, x); }
  }

  /** Clustering loses, invents and repeats nothing: the reports of all events together are exactly
      the titled observations. */
  lemma ClusteringPartitions(observations: seq<Item>, s: Setting)
    requires ValidSetting(s)
    ensures AllItems(Clustered(observations, s)) == multiset(Titled(observations))
  {
    var items := Prepared(observations);
    GroupPartitions(items, s);
    GroupWithin(items, s);
    var g := Group(items, s);
    AllItemsForgetsOrder(Unordered(items, s), EventsOf(items, s));
    BuildAllKeepsItems(items, Edges(items, s), Contradictions(items, s), Kept(g.components, |items|), s);
    FlattenKept(g.components, |items|);
    FlattenIsPermutation(g, |items|);
    MembersForgetOrder(items, Flatten(g.components), Indices(|items|));
    assert Members(items, Indices(|items|)) == items;
  }

  // ----- the algorithm -------------------------------------------------------------------

  datatype Outcome = Clusters(events: seq<Event>) | ThresholdOutOfRange | WindowNotPositive

  /** `edges` and `contradictions` hold exactly what scoring the pairs `keys` gave. */
  ghost predicate Recorded(items: seq<Item>, s: Setting, keys: seq<Edge>, edges: map<Edge, real>,
                           contradictions: set<Edge>) {
    && (forall e: Edge :: e in keys ==> IsEdge(items, e, s))
    && (forall e: Edge :: e in edges <==> e in keys)
    && (forall e: Edge :: e in keys ==> edges[e] == ScoreAt(items, e, s).value)
    && (forall e: Edge :: e in contradictions <==> e in keys && ScoreAt(items, e, s).contradictory)
  }

  /** One more pair scored. */
  lemma RecordedMore(items: seq<Item>, s: Setting, keys: seq<Edge>, edges: map<Edge, real>, contradictions: set<Edge>,
                     e: Edge)
    requires Recorded(items, s, keys, edges, contradictions) && IsEdge(items, e, s)
    ensures Recorded(items, s, keys + [e], edges[e := ScoreAt(items, e, s).value],
                     if ScoreAt(items, e, s).contradictory then contradictions + {e} else contradictions - {e})
  {
  }

  /** The pair is either an edge, which comes next in the row, or skipped. */
  lemma RowSplits(items: seq<Item>, left: nat, right: nat, s: Setting, keys: seq<Edge>)
    requires left < right < |items|
    ensures keys + EdgeRow(items, left, right, s)
         == (if IsEdge(items, (left, right), s) then keys + [(left, right)] else keys)
           + EdgeRow(items, left, right + 1, s)
  {
    var rest := EdgeRow(items, left, right + 1, s);
    if IsEdge(items, (left, right), s) {
      assert EdgeRow(items, left, right, s) == [(left, right)] + rest;
      Regroup(keys, (left, right), rest);
    } else {
      assert EdgeRow(items, left, right, s) == rest;
    }
  }

  /** Scores one pair. */
  method ScoreOne(items: seq<Item>, s: Setting, e: Edge, keys0: seq<Edge>, edges0: map<Edge, real>,
                  contradictions0: set<Edge>)
    returns (keys: seq<Edge>, edges: map<Edge, real>, contradictions: set<Edge>)
    requires e.0 < e.1 < |items| && e !in keys0 && Recorded(items, s, keys0, edges0, contradictions0)
    ensures keys == if IsEdge(items, e, s) then keys0 + [e] else keys0
    ensures Recorded(items, s, keys, edges, contradictions)
  {
    keys, edges, contradictions := keys0, edges0, contradictions0;
    var score := ScorePair(items[e.0], items[e.1], s.window, s.text);
    if score.value >= s.threshold {
      RecordedMore(items, s, keys, edges, contradictions, e);
      keys := keys + [e];
      edges := edges[e := score.value];
      if score.contradictory {
        contradictions := contradictions + {e};
      }
    }
  }

  /** What is left of a row makes `keys` up to `row`. */
  ghost predicate ReadUpTo(items: seq<Item>, left: nat, right: nat, s: Setting, keys: seq<Edge>, row: seq<Edge>)
    requires left < right <= |items|
  {
    keys + EdgeRow(items, left, right, s) == row
  }

  /** The keys come before the pair. */
  ghost predicate Before(keys: seq<Edge>, left: nat, right: nat) {
    forall e: Edge :: e in keys ==> e.0 < left || (e.0 == left && e.1 < right)
  }

  lemma RowAdvances(items: seq<Item>, left: nat, right: nat, s: Setting, keys: seq<Edge>, next: seq<Edge>,
                    row: seq<Edge>)
    requires left < right < |items| && ReadUpTo(items, left, right, s, keys, row) && Before(keys, left, right)
    requires next == if IsEdge(items, (left, right), s) then keys + [(left, right)] else keys
    ensures ReadUpTo(items, left, right + 1, s, next, row) && Before(next, left, right + 1)
  {
    RowSplits(items, left, right, s, keys);
  }

  /** Scores one row of pairs. */
  method CollectRow(items: seq<Item>, s: Setting, left: nat, keys0: seq<Edge>, edges0: map<Edge, real>,
                    contradictions0: set<Edge>)
    returns (keys: seq<Edge>, edges: map<Edge, real>, contradictions: set<Edge>)
    requires left < |items| && Recorded(items, s, keys0, edges0, contradictions0)
    requires forall e: Edge :: e in keys0 ==> e.0 < left
    ensures keys == keys0 + EdgeRow(items, left, left + 1, s)
    ensures Recorded(items, s, keys, edges, contradictions)
  {
    ghost var row := keys0 + EdgeRow(items, left, left + 1, s);
    keys, edges, contradictions := keys0, edges0, contradictions0;
    for right := left + 1 to |items|
      invariant ReadUpTo(items, left, right, s, keys, row)
      invariant Recorded(items, s, keys, edges, contradictions)
      invariant Before(keys, left, right)
    {
      ghost var read := keys;
      keys, edges, contradictions := ScoreOne(items, s, (left, right), keys, edges, contradictions);
      RowAdvances(items, left, right, s, read, keys, row);
    }
    assert keys + [] == keys;
  }

  lemma RecordedAll(items: seq<Item>, s: Setting, edges: map<Edge, real>, contradictions: set<Edge>)
    requires Recorded(items, s, EdgesFrom(items, 0, s), edges, contradictions)
    ensures edges == Edges(items, s) && contradictions == Contradictions(items, s)
  {
    var all := Edges(items, s);
    assert edges.Keys == all.Keys;
    assert forall e :: e in edges ==> edges[e] == all[e];
  }

  lemma RowStep(items: seq<Item>, left: nat, s: Setting, keys: seq<Edge>)
    requires left < |items|
    ensures (keys + EdgeRow(items, left, left + 1, s)) + EdgesFrom(items, left + 1, s)
         == keys + EdgesFrom(items, left, s)
  {
    assert EdgesFrom(items, left, s) == EdgeRow(items, left, left + 1, s) + EdgesFrom(items, left + 1, s);
  }

  /** Scores every pair once, in row order. */
  method CollectEdges(items: seq<Item>, s: Setting)
    returns (keys: seq<Edge>, edges: map<Edge, real>, contradictions: set<Edge>)
    ensures keys == EdgesFrom(items, 0, s)
    ensures edges == Edges(items, s) && contradictions == Contradictions(items, s)
  {
    keys, edges, contradictions := [], map[], {};
    for left := 0 to |items|
      invariant keys + EdgesFrom(items, left, s) == EdgesFrom(items, 0, s)
      invariant forall e: Edge :: e in keys ==> e.0 < left
      invariant Recorded(items, s, keys, edges, contradictions)
    {
      RowStep(items, left, s, keys);
      keys, edges, contradictions := CollectRow(items, s, left, keys, edges, contradictions);
    }
    assert keys == EdgesFrom(items, 0, s) by { assert keys + [] == keys; }
    RecordedAll(items, s, edges, contradictions);
  }

  /** Examines one edge, updating components and membership. */
  method ExamineEdge(components0: seq<seq<nat>>, membership0: seq<nat>, e: Edge, edges: map<Edge, real>,
                     threshold: real, n: nat) returns (components: seq<seq<nat>>, membership: seq<nat>)
    requires Wellformed(Grouping(components0, membership0), n) && e.0 < n && e.1 < n
    ensures Grouping(components, membership) == Examine(Grouping(components0, membership0), e, edges, threshold)
  {
    components, membership := components0, membership0;
    var li, ri := membership[e.0], membership[e.1];
    if li == ri {
      return;
    }
    var merged := components[li] + components[ri];
    if !Guard(merged, edges, threshold) {
      return;
    }
    AllInWithin(Grouping(components, membership), components[li], li);
    AllInWithin(Grouping(components, membership), components[ri], ri);
    var joined: seq<nat> := Sort(Leq(), merged);
    components := components[li := joined];
    membership := Enrol(membership, merged, li);
    components := components[ri := []];
  }

  /** The greedy pass over the ordered edges. */
  method RunPass(order: seq<Edge>, n: nat, edges: map<Edge, real>, threshold: real) returns (g: Grouping)
    requires StoredAtThreshold(edges, threshold)
    requires forall e :: e in order ==> e.0 < n && e.1 < n
    ensures g == Pass(order, n, edges, threshold)
  {
    var components: seq<seq<nat>>, membership: seq<nat> := seq(n, i => [i]), seq(n, i => i);
    for k := 0 to |order|
      invariant forall e :: e in order[..k] ==> e in order
      invariant Grouping(components, membership) == Pass(order[..k], n, edges, threshold)
    {
      PassKeeps(order[..k], n, edges, threshold);
      assert order[k] in order;
      components, membership := ExamineEdge(components, membership, order[k], edges, threshold, n);
      assert order[..k + 1][..k] == order[..k] && order[..k + 1][k] == order[k];
      assert forall e :: e in order[..k + 1] ==> e in order;
    }
    assert order[..|order|] == order;
    g := Grouping(components, membership);
  }

  /** Records every index of `merged` as a member of component `li`. */
  method Enrol(membership0: seq<nat>, merged: seq<nat>, li: nat) returns (membership: seq<nat>)
    requires Within(merged, |membership0|)
    ensures |membership| == |membership0|
    ensures forall i: nat :: i < |membership| ==> membership[i] == if i in merged then li else membership0[i]
  {
    membership := membership0;
    for m := 0 to |merged|
      invariant |membership| == |membership0|
      invariant forall i: nat :: i < |membership| ==> membership[i] == if i in merged[..m] then li else membership0[i]
    {
      membership := membership[merged[m] := li];
    }
    assert merged[..|merged|] == merged;
  }

  lemma BuildAllUnfolds(items: seq<Item>, edges: map<Edge, real>, contradictions: set<Edge>, kept: seq<seq<nat>>,
                        s: Setting, before: seq<Event>)
    requires kept != [] && forall j :: 0 <= j < |kept| ==> kept[j] != [] && Within(kept[j], |items|)
    ensures before + BuildAll(items, edges, contradictions, kept, s)
         == (before + [BuildEvent(items, edges, contradictions, kept[0], s)])
           + BuildAll(items, edges, contradictions, kept[1..], s)
  {
    var event := BuildEvent(items, edges, contradictions, kept[0], s);
    var rest := BuildAll(items, edges, contradictions, kept[1..], s);
    assert BuildAll(items, edges, contradictions, kept, s) == [event] + rest;
    Regroup(before, event, rest);
  }

  lemma Regroup<T>(before: seq<T>, x: T, rest: seq<T>)
    ensures before + ([x] + rest) == (before + [x]) + rest
  {
  }

  /** The same for the components from a position on. */
  lemma BuildAllSteps(items: seq<Item>, edges: map<Edge, real>, contradictions: set<Edge>, kept: seq<seq<nat>>,
                      s: Setting, k: nat, before: seq<Event>)
    requires k < |kept| && forall j :: 0 <= j < |kept| ==> kept[j] != [] && Within(kept[j], |items|)
    ensures before + BuildAll(items, edges, contradictions, kept[k..], s)
         == (before + [BuildEvent(items, edges, contradictions, kept[k], s)])
           + BuildAll(items, edges, contradictions, kept[k + 1..], s)
  {
    var rest := kept[k..];
    assert rest[0] == kept[k] && rest[1..] == kept[k + 1..];
    BuildAllUnfolds(items, edges, contradictions, rest, s, before);
  }

  method BuildEvents(items: seq<Item>, edges: map<Edge, real>, contradictions: set<Edge>, kept: seq<seq<nat>>,
                     s: Setting) returns (result: seq<Event>)
    requires forall k :: 0 <= k < |kept| ==> kept[k] != [] && Within(kept[k], |items|)
    ensures result == BuildAll(items, edges, contradictions, kept, s)
  {
    ghost var all := BuildAll(items, edges, contradictions, kept, s);
    result := [];
    assert kept[0..] == kept;
    for k := 0 to |kept|
      invariant result + BuildAll(items, edges, contradictions, kept[k..], s) == all
    {
      BuildAllSteps(items, edges, contradictions, kept, s, k, result);
      result := result + [BuildEvent(items, edges, contradictions, kept[k], s)];
    }
  }

  method ClusterEvents(observations: seq<Item>, s: Setting) returns (r: Outcome)
    ensures !(0.5 <= s.threshold <= 1.0) ==> r == ThresholdOutOfRange
    ensures 0.5 <= s.threshold <= 1.0 && s.window < 1 ==> r == WindowNotPositive
    ensures ValidSetting(s) ==> r == Clusters(Clustered(observations, s))
  {
    if !(0.5 <= s.threshold <= 1.0) {
      return ThresholdOutOfRange;
    }
    if s.window < 1 {
      return WindowNotPositive;
    }
    var items := Prepared(observations);
    var keys, edges, contradictions := CollectEdges(items, s);
    StoredEdges(items, s);
    var g := RunPass(EdgeOrder(edges, keys), |items|, edges, s.threshold);
    GroupWithin(items, s);
    var result := BuildEvents(items, edges, contradictions, Kept(g.components, |items|), s);
    r := Clusters(Sort((a, b) => EventBefore(a, b), result));
  }
}
