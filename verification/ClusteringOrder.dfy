/** In which order edges are examined, and what the order decides: stronger edges win. */
module ClusteringOrder {
  import opened Ordering
  import opened EventIdentity
  import opened PairScore
  import opened Clustering

  // ----- the order -----------------------------------------------------------------------

  lemma {:induction false} RowIsDistinct(items: seq<Item>, left: nat, right: nat, s: Setting)
    requires left < right <= |items|
    ensures Distinct(EdgeRow(items, left, right, s))
    decreases |items| - right
  {
    if right < |items| {
      RowIsDistinct(items, left, right + 1, s);
      RowSplits(items, left, right, s, []);
      var first: seq<Edge> := if IsEdge(items, (left, right), s) then [(left, right)] else [];
      assert EdgeRow(items, left, right, s) == first + EdgeRow(items, left, right + 1, s);
      DistinctAppend(first, EdgeRow(items, left, right + 1, s));
    }
  }

  lemma {:induction false} RowsAreDistinct(items: seq<Item>, left: nat, s: Setting)
    requires left <= |items|
    ensures Distinct(EdgesFrom(items, left, s))
    decreases |items| - left
  {
    if left < |items| {
      RowIsDistinct(items, left, left + 1, s);
      RowsAreDistinct(items, left + 1, s);
      DistinctAppend(EdgeRow(items, left, left + 1, s), EdgesFrom(items, left + 1, s));
    }
  }

  lemma DistinctAppend(a: seq<Edge>, b: seq<Edge>)
    requires Distinct(a) && Distinct(b) && forall e: Edge :: e in a ==> e !in b
    ensures Distinct(a + b)
  {
    var all := a + b;
    forall i, j | 0 <= i < j < |all| ensures all[i] != all[j] {
      if i < |a| <= j { assert a[i] in a && b[j - |a|] in b; }
    }
  }

  lemma EdgeOrderIsTotal(edges: map<Edge, real>)
    ensures TotalPreorder((a: Edge, b: Edge) => EdgeBefore(edges, a, b))
  {
  }

  /** The order in which the pass examines the stored edges. */
  function Examined(items: seq<Item>, s: Setting): seq<Edge> {
    EdgeOrder(Edges(items, s), EdgesFrom(items, 0, s))
  }

  function Value(items: seq<Item>, s: Setting, e: Edge): real
    requires e.0 < |items| && e.1 < |items|
  {
    ScorePair(items[e.0], items[e.1], s.window, s.text).value
  }

  /** The first pair scores higher, or the same and has the smaller indices. */
  ghost predicate Stronger(items: seq<Item>, s: Setting, a: Edge, b: Edge) {
    && a.0 < a.1 < |items| && b.0 < b.1 < |items|
    && (|| Value(items, s, a) > Value(items, s, b)
        || (Value(items, s, a) == Value(items, s, b) && (a.0 < b.0 || (a.0 == b.0 && a.1 < b.1))))
  }

  lemma ExaminedPairs(items: seq<Item>, s: Setting)
    requires ValidSetting(s)
    ensures Distinct(Examined(items, s))
    ensures forall e: Edge :: e in Examined(items, s) <==> e.0 < e.1 < |items| && Value(items, s, e) >= s.threshold
    ensures forall e: Edge :: e in Examined(items, s) ==>
      e in Edges(items, s) && ScoreOf(Edges(items, s), e) == Value(items, s, e)
  {
    var order, keys := Examined(items, s), EdgesFrom(items, 0, s);
    RowsAreDistinct(items, 0, s);
    forall x ensures multiset(order)[x] <= 1 { DistinctIsCountedOnce(keys, x); }
    CountedOnceIsDistinct(order);
    StoredEdges(items, s);
  }

  /** Exactly the pairs that score at least the threshold are examined, each once: the higher score first, and of
      equal scores the pair with the smaller indices. */
  lemma StrongestIsExaminedFirst(items: seq<Item>, s: Setting)
    requires ValidSetting(s)
    ensures var order := Examined(items, s);
      && (forall e: Edge :: e in order <==> e.0 < e.1 < |items| && Value(items, s, e) >= s.threshold)
      && (forall i, j :: 0 <= i < j < |order| ==> Stronger(items, s, order[i], order[j]))
  {
    var order, edges := Examined(items, s), Edges(items, s);
    ExaminedPairs(items, s);
    ExaminedInOrder(edges, EdgesFrom(items, 0, s), order);
    forall i, j | 0 <= i < j < |order| ensures Stronger(items, s, order[i], order[j]) {
      assert order[i] in order && order[j] in order;
      BeforeIsStronger(items, s, edges, order[i], order[j]);
    }
  }

  lemma ExaminedInOrder(edges: map<Edge, real>, keys: seq<Edge>, order: seq<Edge>)
    requires order == EdgeOrder(edges, keys) && Distinct(order)
    ensures forall i, j :: 0 <= i < j < |order| ==> EdgeBefore(edges, order[i], order[j]) && order[i] != order[j]
  {
    EdgeOrderIsTotal(edges);
    SortSorted((a: Edge, b: Edge) => EdgeBefore(edges, a, b), keys);
  }

  lemma BeforeIsStronger(items: seq<Item>, s: Setting, edges: map<Edge, real>, a: Edge, b: Edge)
    requires a.0 < a.1 < |items| && b.0 < b.1 < |items| && a != b && EdgeBefore(edges, a, b)
    requires ScoreOf(edges, a) == Value(items, s, a) && ScoreOf(edges, b) == Value(items, s, b)
    ensures Stronger(items, s, a, b)
  {
  }

  // ----- weaker edges do not matter to stronger ones -------------------------------------

  lemma CoarserTransitive(a: Grouping, b: Grouping, c: Grouping)
    requires Coarser(a, b) && Coarser(b, c)
    ensures Coarser(a, c)
  {
  }

  lemma CoarserReflexive(g: Grouping, n: nat)
    requires Wellformed(g, n)
    ensures Coarser(g, g)
  {
  }

  ghost predicate InRange(order: seq<Edge>, n: nat) { forall e :: e in order ==> e.0 < n && e.1 < n }

  /** A longer pass only moves whole components together. */
  lemma {:induction false} PassGrows(order: seq<Edge>, k: nat, n: nat, edges: map<Edge, real>, threshold: real)
    requires StoredAtThreshold(edges, threshold) && k <= |order| && InRange(order, n) && InRange(order[..k], n)
    ensures Coarser(Pass(order[..k], n, edges, threshold), Pass(order, n, edges, threshold))
    decreases |order|
  {
    if k == |order| {
      assert order[..k] == order;
      PassKeeps(order, n, edges, threshold);
      CoarserReflexive(Pass(order, n, edges, threshold), n);
    } else {
      var last := |order| - 1;
      var shorter := order[..last];
      assert shorter[..k] == order[..k] && order[last] in order && InRange(shorter, n);
      PassGrows(shorter, k, n, edges, threshold);
      PassKeeps(shorter, n, edges, threshold);
      var g := Pass(shorter, n, edges, threshold);
      ExamineKeeps(g, n, order[last], edges, threshold);
      CoarserTransitive(Pass(order[..k], n, edges, threshold), g, Pass(order, n, edges, threshold));
    }
  }

  function Strong(edges: map<Edge, real>, t: real): Edge -> bool { (e: Edge) => ScoreOf(edges, e) >= t }

  /** In an order of falling scores the strong edges are a first part. */
  lemma {:induction false} StrongIsPrefix(order: seq<Edge>, edges: map<Edge, real>, t: real) returns (k: nat)
    requires forall i, j :: 0 <= i < j < |order| ==> ScoreOf(edges, order[i]) >= ScoreOf(edges, order[j])
    ensures k <= |order| && Filter(Strong(edges, t), order) == order[..k]
  {
    if order == [] || !Strong(edges, t)(order[0]) {
      k := 0;
      forall e | e in order ensures !Strong(edges, t)(e) {
        var i :| 0 <= i < |order| && order[i] == e;
        assert i == 0 || ScoreOf(edges, order[0]) >= ScoreOf(edges, order[i]);
      }
      FilterToNone(Strong(edges, t), order);
    } else {
      var m := StrongIsPrefix(order[1..], edges, t);
      k := m + 1;
      assert order[..k] == [order[0]] + order[1..][..m];
    }
  }

  lemma {:induction false} FilterToNone(keep: Edge -> bool, order: seq<Edge>)
    requires forall e :: e in order ==> !keep(e)
    ensures Filter(keep, order) == []
  {
    if order != [] {
      assert order[0] in order;
      FilterToNone(keep, order[1..]);
    }
  }

  lemma ScoresFall(items: seq<Item>, s: Setting)
    requires ValidSetting(s)
    ensures var order := Examined(items, s);
      && InRange(order, |items|)
      && forall i, j :: 0 <= i < j < |order| ==>
           ScoreOf(Edges(items, s), order[i]) >= ScoreOf(Edges(items, s), order[j])
  {
    ExaminedPairs(items, s);
    StrongestIsExaminedFirst(items, s);
    var order := Examined(items, s);
    forall i, j | 0 <= i < j < |order|
      ensures ScoreOf(Edges(items, s), order[i]) >= ScoreOf(Edges(items, s), order[j]) {
      assert order[i] in order && order[j] in order && Stronger(items, s, order[i], order[j]);
    }
  }

  /** Whatever the level: reports that the pass would join if only the edges scoring at least `t` existed to be
      examined are together in the final grouping. */
  lemma StrongerEdgesWin(items: seq<Item>, s: Setting, t: real, x: nat, y: nat)
    requires ValidSetting(s) && x < |items| && y < |items|
    requires var strong := Filter(Strong(Edges(items, s), t), Examined(items, s));
      && InRange(strong, |items|)
      && var g := Pass(strong, |items|, Edges(items, s), s.threshold); g.membership[x] == g.membership[y]
    ensures var g := Group(items, s);
      |g.membership| == |items| && g.membership[x] == g.membership[y]
  {
    var order, edges := Examined(items, s), Edges(items, s);
    ScoresFall(items, s);
    StoredEdges(items, s);
    var k := StrongIsPrefix(order, edges, t);
    PassGrows(order, k, |items|, edges, s.threshold);
  }

  /** The pair scores at least the threshold and more than any other pair. */
  ghost predicate Strongest(items: seq<Item>, s: Setting, e: Edge) {
    && e.0 < e.1 < |items| && Value(items, s, e) >= s.threshold
    && forall f: Edge :: f.0 < f.1 < |items| && f != e ==> Value(items, s, f) < Value(items, s, e)
  }

  lemma FirstIsJoined(n: nat, edges: map<Edge, real>, threshold: real, e: Edge)
    requires StoredAtThreshold(edges, threshold) && e.0 < e.1 < n && e in edges
    ensures var g := Pass([e], n, edges, threshold); g.membership[e.0] == g.membership[e.1]
  {
    var one := [e];
    assert one[..0] == [];
    PassKeeps(one, n, edges, threshold);
    var pair: seq<nat> := [e.0, e.1];
    assert Singletons(n).components[e.0] + Singletons(n).components[e.1] == pair;
    GuardIsFullLinkage(pair, edges, threshold);
    assert AllLinked(edges, pair);
  }

  /** The strongest pair of all is always joined. */
  lemma StrongestIsJoined(items: seq<Item>, s: Setting, e: Edge)
    requires ValidSetting(s) && Strongest(items, s, e)
    ensures var g := Group(items, s);
      |g.membership| == |items| && g.membership[e.0] == g.membership[e.1]
  {
    var order, edges := Examined(items, s), Edges(items, s);
    StrongestIsExaminedFirst(items, s);
    StoredEdges(items, s);
    assert e in order;
    var i :| 0 <= i < |order| && order[i] == e;
    assert i == 0 || Stronger(items, s, order[0], order[i]);
    assert order[0] == e;
    assert order[..1] == [e];
    ScoresFall(items, s);
    PassGrows(order, 1, |items|, edges, s.threshold);
    FirstIsJoined(|items|, edges, s.threshold, e);
  }
}
