/** How many clusters a digest takes, and which: a count that grows with the strength of the day, and a greedy
    choice that penalises sources already chosen. Scores are reals; a cluster's text key is a number. */
module DigestSelection {
  import opened Ordering

  datatype Cluster = Cluster(key: nat, score: real, immediate: bool, publishedAt: int, topics: set<string>,
                             sources: seq<string>)

  function MinNat(a: nat, b: nat): nat { if a < b then a else b }
  function MaxNat(a: nat, b: nat): nat { if a < b then b else a }

  // ----- the adaptive count --------------------------------------------------------------

  /** What a cluster adds to the energy of the day: nothing below the noise floor, no more above 6. */
  function Signal(c: Cluster): (e: real)
    ensures 0.0 <= e
  {
    var capped := if c.score > 6.0 then 6.0 else c.score;
    var strength := if capped - 2.5 < 0.0 then 0.0 else capped - 2.5;
    strength * strength
  }

  function Energy(clusters: seq<Cluster>): (e: real)
    ensures e >= 0.0
  {
    if clusters == [] then 0.0 else Signal(clusters[0]) + Energy(clusters[1..])
  }

  function StrongTopics(clusters: seq<Cluster>): set<string> {
    set c, t | c in clusters && c.score >= 3.0 && t in c.topics && t != "" && t != "general" :: t
  }

  function Immediates(clusters: seq<Cluster>): nat { CountWhere((c: Cluster) => c.immediate, clusters) }

  function CountWhere(p: Cluster -> bool, clusters: seq<Cluster>): (n: nat)
    ensures n <= |clusters|
  {
    if clusters == [] then 0 else (if p(clusters[0]) then 1 else 0) + CountWhere(p, clusters[1..])
  }

  function Square(m: nat): real { m as real * m as real }

  /** The square root of `x` rounded up: the least number whose square reaches `x`. */
  function RootCeiling(x: real, from_: nat := 0): (m: nat)
    requires x >= 0.0 && (from_ > 0 ==> Square(from_ - 1) < x)
    ensures Square(m) >= x && (m > 0 ==> Square(m - 1) < x)
    decreases x.Floor + 1 - from_
  {
    if Square(from_) >= x then from_
    else
      assert from_ <= x.Floor by { SquareGrows(from_); }
      RootCeiling(x, from_ + 1)
  }

  lemma SquareGrows(m: nat)
    ensures Square(m) >= m as real
  {
    if m > 0 {
      assert m as real >= 1.0;
      assert m as real * m as real >= 1.0 * m as real;
    }
  }

  /** The number of clusters the day's scores call for: twice the root of the energy and up to three for
      different topics, rounded up. */
  function ScoreTarget(clusters: seq<Cluster>): nat {
    var topics := |StrongTopics(clusters)|;
    RootCeiling(4.0 * Energy(clusters)) + MinNat(3, if topics == 0 then 0 else topics - 1)
  }

  /** None stands for a ceiling out of range. */
  function AdaptiveCount(clusters: seq<Cluster>, ceiling: int): Option<nat> {
    if !(1 <= ceiling <= 500) then None
    else if clusters == [] then Some(0)
    else Some(MinNat(MinNat(ceiling, |clusters|), MaxNat(1, MaxNat(ScoreTarget(clusters), Immediates(clusters)))))
  }

  /** Bounded by the ceiling and by what there is, never empty without need, and never cutting immediate
      clusters that fit under the ceiling. */
  lemma CountIsBounded(clusters: seq<Cluster>, ceiling: int)
    requires 1 <= ceiling <= 500
    ensures var n := AdaptiveCount(clusters, ceiling).value;
      n <= ceiling && n <= |clusters| && (clusters != [] ==> n >= 1) && n >= MinNat(ceiling, Immediates(clusters))
  {
  }

  lemma {:induction false} EnergyWithout(clusters: seq<Cluster>, k: nat)
    requires k < |clusters|
    ensures Energy(clusters) == Signal(clusters[k]) + Energy(Without(clusters, k))
  {
    if k == 0 {
      assert Without(clusters, 0) == clusters[1..];
    } else {
      EnergyWithout(clusters[1..], k - 1);
      assert Without(clusters, k)[0] == clusters[0];
      assert Without(clusters, k)[1..] == Without(clusters[1..], k - 1);
    }
  }

  lemma {:induction false} CountWithout(p: Cluster -> bool, clusters: seq<Cluster>, k: nat)
    requires k < |clusters|
    ensures CountWhere(p, clusters) == (if p(clusters[k]) then 1 else 0) + CountWhere(p, Without(clusters, k))
  {
    if k == 0 {
      assert Without(clusters, 0) == clusters[1..];
    } else {
      CountWithout(p, clusters[1..], k - 1);
      assert Without(clusters, k)[0] == clusters[0];
      assert Without(clusters, k)[1..] == Without(clusters[1..], k - 1);
    }
  }

  /** Finds the first cluster of the smaller day in the larger one. */
  lemma FindHead(few: seq<Cluster>, many: seq<Cluster>) returns (k: nat)
    requires multiset(few) <= multiset(many) && few != []
    ensures k < |many| && many[k] == few[0] && multiset(few[1..]) <= multiset(Without(many, k))
  {
    assert few == [few[0]] + few[1..];
    assert few[0] in multiset(few);
    assert few[0] in multiset(many);
    assert few[0] in many;
    k :| 0 <= k < |many| && many[k] == few[0];
    WithoutMultiset(many, k);
    assert multiset(few[1..]) == multiset(few) - multiset{few[0]};
    assert multiset(Without(many, k)) == multiset(many) - multiset{many[k]};
  }

  lemma {:induction false} MoreClustersMoreEnergy(few: seq<Cluster>, many: seq<Cluster>)
    requires multiset(few) <= multiset(many)
    ensures Energy(few) <= Energy(many) && |few| <= |many|
    decreases |few|
  {
    if few != [] {
      var k := FindHead(few, many);
      EnergyWithout(many, k);
      MoreClustersMoreEnergy(few[1..], Without(many, k));
    }
  }

  lemma {:induction false} MoreClustersMoreCount(p: Cluster -> bool, few: seq<Cluster>, many: seq<Cluster>)
    requires multiset(few) <= multiset(many)
    ensures CountWhere(p, few) <= CountWhere(p, many)
    decreases |few|
  {
    if few != [] {
      var k := FindHead(few, many);
      CountWithout(p, many, k);
      MoreClustersMoreCount(p, few[1..], Without(many, k));
    }
  }

  lemma SquareIsMonotone(a: nat, b: nat)
    requires a <= b
    ensures Square(a) <= Square(b)
  {
    var x, y := a as real, b as real;
    assert 0.0 <= x <= y;
    assert x * x <= x * y;
    assert x * y <= y * y;
  }

  lemma RootIsMonotone(x: real, y: real)
    requires 0.0 <= x <= y
    ensures RootCeiling(x) <= RootCeiling(y)
  {
    var m, n := RootCeiling(x), RootCeiling(y);
    if n < m { SquareIsMonotone(n, m - 1); }
  }

  lemma {:induction false} SubsetSize<T>(a: set<T>, b: set<T>)
    requires a <= b
    ensures |a| <= |b|
  {
    if a != {} {
      var x :| x in a;
      SubsetSize(a - {x}, b - {x});
    }
  }

  lemma MoreClustersMoreTopics(few: seq<Cluster>, many: seq<Cluster>)
    requires multiset(few) <= multiset(many)
    ensures |StrongTopics(few)| <= |StrongTopics(many)|
  {
    forall c | c in few ensures c in many {
      assert c in multiset(few);
      assert c in multiset(many);
    }
    SubsetSize(StrongTopics(few), StrongTopics(many));
  }

  /** Adding clusters, anywhere and in any order, never lowers the count. */
  lemma CountIsMonotone(few: seq<Cluster>, many: seq<Cluster>, ceiling: int)
    requires 1 <= ceiling <= 500 && multiset(few) <= multiset(many)
    ensures AdaptiveCount(few, ceiling).value <= AdaptiveCount(many, ceiling).value
  {
    MoreClustersMoreEnergy(few, many);
    MoreClustersMoreCount((c: Cluster) => c.immediate, few, many);
    MoreClustersMoreTopics(few, many);
    RootIsMonotone(4.0 * Energy(few), 4.0 * Energy(many));
  }

  // ----- the greedy choice ---------------------------------------------------------------

  function CountOf(counts: map<string, nat>, s: string): nat { if s in counts then counts[s] else 0 }

  /** How often the least used source of a cluster was chosen, 0 without sources. */
  function LeastUse(counts: map<string, nat>, sources: seq<string>): nat {
    if sources == [] then 0
    else if |sources| == 1 then CountOf(counts, sources[0])
    else MinNat(CountOf(counts, sources[0]), LeastUse(counts, sources[1..]))
  }

  function Worth(counts: map<string, nat>, c: Cluster): real {
    c.score / (1.0 + 0.35 * LeastUse(counts, c.sources) as real)
  }

  /** Editorially included clusters come first, immediate ones first among equals. */
  function Class(included: set<nat>, c: Cluster): nat {
    (if c.key in included then 0 else 2) + (if c.immediate then 0 else 1)
  }

  predicate Precedes(included: set<nat>, counts: map<string, nat>, x: Cluster, y: Cluster) {
    if Class(included, x) != Class(included, y) then Class(included, x) < Class(included, y)
    else if Worth(counts, x) != Worth(counts, y) then Worth(counts, x) > Worth(counts, y)
    else if x.publishedAt != y.publishedAt then x.publishedAt > y.publishedAt
    else x.key <= y.key
  }

  function Order(included: set<nat>, counts: map<string, nat>): (Cluster, Cluster) -> bool {
    (x: Cluster, y: Cluster) => Precedes(included, counts, x, y)
  }

  function Counted(counts: map<string, nat>, sources: seq<string>): map<string, nat>
    decreases |sources|
  {
    if sources == [] then counts else Counted(counts[sources[0] := CountOf(counts, sources[0]) + 1], sources[1..])
  }

  type Rank = (map<string, nat>, seq<Cluster>) -> seq<Cluster>

  function Ranking(included: set<nat>): Rank {
    (counts: map<string, nat>, clusters: seq<Cluster>) => Sort(Order(included, counts), clusters)
  }

  /** Takes the first cluster of a ranking, counts its sources, and goes on with the rest. */
  function Pick(rank: Rank, counts: map<string, nat>, clusters: seq<Cluster>, limit: nat): (r: seq<Cluster>)
    ensures |r| <= limit
    decreases limit
  {
    var ranked := rank(counts, clusters);
    if ranked == [] || limit == 0 then []
    else [ranked[0]] + Pick(rank, Counted(counts, ranked[0].sources), ranked[1..], limit - 1)
  }

  function Select(included: set<nat>, clusters: seq<Cluster>, limit: nat): seq<Cluster> {
    Pick(Ranking(included), map[], clusters, limit)
  }

  ghost predicate DistinctKeys(clusters: seq<Cluster>) {
    forall i, j :: 0 <= i < j < |clusters| ==> clusters[i].key != clusters[j].key
  }

  lemma OrderIsTotal(included: set<nat>, counts: map<string, nat>)
    ensures TotalPreorder(Order(included, counts))
  {
    var leq := Order(included, counts);
    forall x, y, z | leq(x, y) && leq(y, z) ensures leq(x, z) {
      assert Precedes(included, counts, x, y) && Precedes(included, counts, y, z);
    }
    forall x, y ensures leq(x, y) || leq(y, x) {
      assert Precedes(included, counts, x, y) || Precedes(included, counts, y, x);
    }
  }

  lemma DistinctKeysAreTieFree(included: set<nat>, counts: map<string, nat>, clusters: seq<Cluster>)
    requires DistinctKeys(clusters)
    ensures TieFree(Order(included, counts), clusters)
  {
    forall x, y | x in clusters && y in clusters && Precedes(included, counts, x, y) && Precedes(included, counts, y, x)
      ensures x == y {
      var i :| 0 <= i < |clusters| && clusters[i] == x;
      var j :| 0 <= j < |clusters| && clusters[j] == y;
      assert x.key == y.key;
      assert i == j;
    }
  }

  /** The choice does not depend on the order of clusters with distinct keys. */
  lemma SelectionIgnoresOrder(included: set<nat>, a: seq<Cluster>, b: seq<Cluster>, limit: nat)
    requires multiset(a) == multiset(b) && DistinctKeys(a)
    ensures Select(included, a, limit) == Select(included, b, limit)
  {
    OrderIsTotal(included, map[]);
    DistinctKeysAreTieFree(included, map[], a);
    SortForgetsOrder(Order(included, map[]), a, b);
    assert Ranking(included)(map[], a) == Ranking(included)(map[], b);
  }

  /** What the choice needs of a ranking: it rearranges, and puts first what precedes everything. */
  ghost predicate Ranks(included: set<nat>, rank: Rank) {
    forall counts, s {:trigger RanksHere(included, counts, s, rank(counts, s))} ::
      RanksHere(included, counts, s, rank(counts, s))
  }

  ghost predicate RanksHere(included: set<nat>, counts: map<string, nat>, s: seq<Cluster>, ranked: seq<Cluster>) {
    multiset(ranked) == multiset(s) && forall c :: c in ranked ==> Precedes(included, counts, ranked[0], c)
  }

  lemma RankingRanks(included: set<nat>)
    ensures Ranks(included, Ranking(included))
  {
    forall counts, s ensures RanksHere(included, counts, s, Ranking(included)(counts, s)) {
      RankedHere(included, counts, s);
    }
  }

  lemma RankedHere(included: set<nat>, counts: map<string, nat>, s: seq<Cluster>)
    ensures RanksHere(included, counts, s, Sort(Order(included, counts), s))
  {
    var leq := Order(included, counts);
    var ranked := Sort(leq, s);
    OrderIsTotal(included, counts);
    SortSorted(leq, s);
    forall c | c in ranked ensures Precedes(included, counts, ranked[0], c) {
      var j :| 0 <= j < |ranked| && ranked[j] == c;
      assert j == 0 || leq(ranked[0], ranked[j]);
    }
  }

  /** One round. */
  lemma Round(included: set<nat>, rank: Rank, counts: map<string, nat>, clusters: seq<Cluster>)
    returns (first: Cluster, rest: seq<Cluster>)
    requires Ranks(included, rank) && clusters != []
    ensures rank(counts, clusters) == [first] + rest
    ensures multiset(clusters) == multiset([first] + rest) && |rest| == |clusters| - 1
    ensures forall c :: c in rest ==>
      Precedes(included, counts, first, c) && Class(included, first) <= Class(included, c)
  {
    var ranked := rank(counts, clusters);
    assert RanksHere(included, counts, clusters, ranked);
    SameMembers(ranked, clusters);
    first, rest := ranked[0], ranked[1..];
  }

  lemma NothingToRank(included: set<nat>, rank: Rank, counts: map<string, nat>)
    requires Ranks(included, rank)
    ensures rank(counts, []) == []
  {
    assert RanksHere(included, counts, [], rank(counts, []));
    SameMembers(rank(counts, []), []);
  }

  lemma {:induction false} PickLength(included: set<nat>, rank: Rank, counts: map<string, nat>, clusters: seq<Cluster>,
                                      limit: nat)
    requires Ranks(included, rank)
    ensures |Pick(rank, counts, clusters, limit)| == MinNat(limit, |clusters|)
    decreases limit
  {
    if clusters == [] {
      NothingToRank(included, rank, counts);
    } else if limit > 0 {
      var first, rest := Round(included, rank, counts, clusters);
      PickLength(included, rank, Counted(counts, first.sources), rest, limit - 1);
    }
  }

  lemma CountOneMore(first: Cluster, rest: seq<Cluster>, x: Cluster)
    ensures multiset([first] + rest)[x] == (if x == first then 1 else 0) + multiset(rest)[x]
  {
  }

  lemma {:induction false} PickCounts(included: set<nat>, rank: Rank, counts: map<string, nat>, clusters: seq<Cluster>,
                                      limit: nat,
                                      r: seq<Cluster>, x: Cluster)
    requires Ranks(included, rank) && r == Pick(rank, counts, clusters, limit)
    ensures multiset(r)[x] <= multiset(clusters)[x]
    decreases limit
  {
    if clusters == [] {
      NothingToRank(included, rank, counts);
    } else if limit > 0 {
      var first, rest := Round(included, rank, counts, clusters);
      var after := Counted(counts, first.sources);
      var tail := Pick(rank, after, rest, limit - 1);
      assert r == [first] + tail;
      PickCounts(included, rank, after, rest, limit - 1, tail, x);
      CountOneMore(first, rest, x);
      CountOneMore(first, tail, x);
    }
  }

  lemma PickIsPart(included: set<nat>, rank: Rank, counts: map<string, nat>, clusters: seq<Cluster>, limit: nat)
    requires Ranks(included, rank)
    ensures multiset(Pick(rank, counts, clusters, limit)) <= multiset(clusters)
  {
    var r := Pick(rank, counts, clusters, limit);
    forall x ensures multiset(r)[x] <= multiset(clusters)[x] {
      PickCounts(included, rank, counts, clusters, limit, r, x);
    }
  }

  /** Nothing is invented, nothing is chosen twice, and the limit is used. */
  lemma SelectionIsPart(included: set<nat>, clusters: seq<Cluster>, limit: nat)
    ensures multiset(Select(included, clusters, limit)) <= multiset(clusters)
    ensures |Select(included, clusters, limit)| == MinNat(limit, |clusters|)
  {
    RankingRanks(included);
    PickIsPart(included, Ranking(included), map[], clusters, limit);
    PickLength(included, Ranking(included), map[], clusters, limit);
  }

  /** The source counts after a list of chosen clusters. */
  function CountsAfter(counts: map<string, nat>, chosen: seq<Cluster>): map<string, nat>
    decreases |chosen|
  {
    if chosen == [] then counts else CountsAfter(Counted(counts, chosen[0].sources), chosen[1..])
  }

  /** How often a source occurs among the chosen clusters. */
  function Uses(chosen: seq<Cluster>, source: string): nat {
    if chosen == [] then 0 else multiset(chosen[0].sources)[source] + Uses(chosen[1..], source)
  }

  lemma {:induction false} CountedAddsSources(counts: map<string, nat>, sources: seq<string>, source: string)
    ensures CountOf(Counted(counts, sources), source) == CountOf(counts, source) + multiset(sources)[source]
    decreases |sources|
  {
    if sources != [] {
      assert sources == [sources[0]] + sources[1..];
      CountedAddsSources(counts[sources[0] := CountOf(counts, sources[0]) + 1], sources[1..], source);
    }
  }

  lemma {:induction false} CountsAreUses(counts: map<string, nat>, chosen: seq<Cluster>, source: string)
    ensures CountOf(CountsAfter(counts, chosen), source) == CountOf(counts, source) + Uses(chosen, source)
    decreases |chosen|
  {
    if chosen != [] {
      CountedAddsSources(counts, chosen[0].sources, source);
      CountsAreUses(Counted(counts, chosen[0].sources), chosen[1..], source);
    }
  }

  lemma FirstPrecedes(included: set<nat>, counts: map<string, nat>, first: Cluster, rest: seq<Cluster>, c: Cluster)
    requires (forall d :: d in rest ==> Precedes(included, counts, first, d)) && multiset([first] + rest)[c] > 0
    ensures Precedes(included, counts, first, c)
  {
    CountOneMore(first, rest, c);
    if c != first { assert c in multiset(rest); }
  }

  /** Leaving the first choice out of both sides. */
  lemma WithoutFirst(counts: map<string, nat>, first: Cluster, rest: seq<Cluster>, tail: seq<Cluster>, i: nat,
                     c: Cluster)
    requires 0 < i <= |tail| && multiset([first] + rest)[c] > multiset(([first] + tail)[..i])[c]
    ensures multiset(rest)[c] > multiset(tail[..i - 1])[c]
    ensures CountsAfter(counts, ([first] + tail)[..i]) == CountsAfter(Counted(counts, first.sources), tail[..i - 1])
  {
    var taken := ([first] + tail)[..i];
    assert taken == [first] + tail[..i - 1] && taken[1..] == tail[..i - 1];
    CountOneMore(first, rest, c);
    CountOneMore(first, tail[..i - 1], c);
  }

  lemma {:induction false} PickIsGreedy(included: set<nat>, rank: Rank, counts: map<string, nat>,
                                        clusters: seq<Cluster>, limit: nat,
                                        r: seq<Cluster>, i: nat, c: Cluster)
    requires Ranks(included, rank) && r == Pick(rank, counts, clusters, limit) && i < |r|
    requires multiset(clusters)[c] > multiset(r[..i])[c]
    ensures Precedes(included, CountsAfter(counts, r[..i]), r[i], c)
    decreases limit
  {
    if clusters == [] {
      NothingToRank(included, rank, counts);
    } else if limit > 0 {
      var first, rest := Round(included, rank, counts, clusters);
      var after := Counted(counts, first.sources);
      var tail := Pick(rank, after, rest, limit - 1);
      assert r == [first] + tail;
      if i == 0 {
        FirstPrecedes(included, counts, first, rest, c);
        assert r[..0] == [];
      } else {
        WithoutFirst(counts, first, rest, tail, i, c);
        PickIsGreedy(included, rank, after, rest, limit - 1, tail, i - 1, c);
      }
    }
  }

  /** Each choice precedes everything not chosen before it, with sources penalised by how often exactly the
      earlier choices used them. */
  lemma EachChoiceIsBest(included: set<nat>, clusters: seq<Cluster>, limit: nat, i: nat, c: Cluster)
    requires i < |Select(included, clusters, limit)|
    requires multiset(clusters)[c] > multiset(Select(included, clusters, limit)[..i])[c]
    ensures var r := Select(included, clusters, limit);
      && Precedes(included, CountsAfter(map[], r[..i]), r[i], c)
      && forall source :: CountOf(CountsAfter(map[], r[..i]), source) == Uses(r[..i], source)
  {
    var r := Select(included, clusters, limit);
    RankingRanks(included);
    PickIsGreedy(included, Ranking(included), map[], clusters, limit, r, i, c);
    forall source ensures CountOf(CountsAfter(map[], r[..i]), source) == Uses(r[..i], source) {
      CountsAreUses(map[], r[..i], source);
    }
  }

  function UpTo(included: set<nat>, k: nat): Cluster -> bool { (c: Cluster) => Class(included, c) <= k }

  lemma {:induction false} NoneCounted(p: Cluster -> bool, clusters: seq<Cluster>)
    requires forall c :: c in clusters ==> !p(c)
    ensures CountWhere(p, clusters) == 0
  {
    if clusters != [] {
      assert forall c :: c in clusters[1..] ==> c in clusters;
      NoneCounted(p, clusters[1..]);
    }
  }

  lemma SameCount(p: Cluster -> bool, a: seq<Cluster>, b: seq<Cluster>)
    requires multiset(a) == multiset(b)
    ensures CountWhere(p, a) == CountWhere(p, b)
  {
    MoreClustersMoreCount(p, a, b);
    MoreClustersMoreCount(p, b, a);
  }

  lemma CountFirst(p: Cluster -> bool, first: Cluster, rest: seq<Cluster>)
    ensures CountWhere(p, [first] + rest) == (if p(first) then 1 else 0) + CountWhere(p, rest)
  {
    assert ([first] + rest)[1..] == rest;
  }

  lemma {:induction false} PickFillsUp(included: set<nat>, rank: Rank, counts: map<string, nat>, clusters: seq<Cluster>,
                                       limit: nat, k: nat)
    requires Ranks(included, rank)
    ensures CountWhere(UpTo(included, k), Pick(rank, counts, clusters, limit))
      == MinNat(limit, CountWhere(UpTo(included, k), clusters))
    decreases limit
  {
    if clusters == [] {
      NothingToRank(included, rank, counts);
    } else if limit > 0 {
      var p := UpTo(included, k);
      var first, rest := Round(included, rank, counts, clusters);
      var after := Counted(counts, first.sources);
      SameCount(p, [first] + rest, clusters);
      CountFirst(p, first, rest);
      CountFirst(p, first, Pick(rank, after, rest, limit - 1));
      PickFillsUp(included, rank, after, rest, limit - 1, k);
      if !p(first) { NoneCounted(p, rest); }
    }
  }

  /** Of the classes up to `k` the choice takes as many as fit: a lower class is never passed over for a
      higher one. */
  lemma ClassesFillUp(included: set<nat>, clusters: seq<Cluster>, limit: nat, k: nat)
    ensures CountWhere(UpTo(included, k), Select(included, clusters, limit))
      == MinNat(limit, CountWhere(UpTo(included, k), clusters))
  {
    RankingRanks(included);
    PickFillsUp(included, Ranking(included), map[], clusters, limit, k);
  }

  ghost predicate ClassesRise(included: set<nat>, s: seq<Cluster>) {
    forall i, j :: 0 <= i < j < |s| ==> Class(included, s[i]) <= Class(included, s[j])
  }

  lemma RiseFrom(included: set<nat>, first: Cluster, tail: seq<Cluster>, rest: seq<Cluster>)
    requires ClassesRise(included, tail) && multiset(tail) <= multiset(rest)
    requires forall c :: c in rest ==> Class(included, first) <= Class(included, c)
    ensures ClassesRise(included, [first] + tail)
  {
    forall j | 0 <= j < |tail| ensures Class(included, first) <= Class(included, tail[j]) {
      assert tail[j] in multiset(tail);
      assert tail[j] in multiset(rest);
      assert tail[j] in rest;
    }
  }

  lemma {:induction false} PickRises(included: set<nat>, rank: Rank, counts: map<string, nat>, clusters: seq<Cluster>,
                                     limit: nat)
    requires Ranks(included, rank)
    ensures ClassesRise(included, Pick(rank, counts, clusters, limit))
    decreases limit
  {
    if clusters == [] {
      NothingToRank(included, rank, counts);
    } else if limit > 0 {
      var first, rest := Round(included, rank, counts, clusters);
      var after := Counted(counts, first.sources);
      PickRises(included, rank, after, rest, limit - 1);
      PickIsPart(included, rank, after, rest, limit - 1);
      RiseFrom(included, first, Pick(rank, after, rest, limit - 1), rest);
    }
  }

  /** Included clusters stand in front of the others, immediate ones in front within each. */
  lemma ClassesAreOrdered(included: set<nat>, clusters: seq<Cluster>, limit: nat)
    ensures ClassesRise(included, Select(included, clusters, limit))
  {
    RankingRanks(included);
    PickRises(included, Ranking(included), map[], clusters, limit);
  }

  lemma {:induction false} ImmediatesByClass(included: set<nat>, clusters: seq<Cluster>)
    ensures Immediates(clusters) == CountWhere(UpTo(included, 0), clusters) + CountWhere(UpTo(included, 2), clusters)
                                    - CountWhere(UpTo(included, 1), clusters)
  {
    if clusters != [] { ImmediatesByClass(included, clusters[1..]); }
  }

  lemma TakeOutBoth(part: seq<Cluster>, whole: seq<Cluster>, k: nat)
    requires part != [] && k < |whole| && whole[k] == part[0] && multiset(part[1..]) <= multiset(Without(whole, k))
    ensures forall c :: c in whole && c != part[0] ==> c in Without(whole, k)
    ensures forall c :: multiset(part)[c] == multiset(part[1..])[c] + (if c == part[0] then 1 else 0)
    ensures forall c :: multiset(whole)[c] == multiset(Without(whole, k))[c] + (if c == part[0] then 1 else 0)
  {
    WithoutMultiset(whole, k);
    assert part == [part[0]] + part[1..];
    forall c | c in whole && c != part[0] ensures c in Without(whole, k) {
      assert c in multiset(whole);
      assert c in multiset(Without(whole, k));
    }
  }

  /** With as many of `p` in a part as in the whole, every one of them is in the part. */
  lemma {:induction false} EqualCountMeansAll(p: Cluster -> bool, part: seq<Cluster>, whole: seq<Cluster>)
    requires multiset(part) <= multiset(whole) && CountWhere(p, part) == CountWhere(p, whole)
    ensures forall c :: c in whole && p(c) ==> c in part
    decreases |part|
  {
    if part == [] {
      forall c | c in whole ensures !p(c) {
        var k :| 0 <= k < |whole| && whole[k] == c;
        CountWithout(p, whole, k);
      }
    } else {
      var k := FindHead(part, whole);
      CountWithout(p, whole, k);
      TakeOutBoth(part, whole, k);
      EqualCountMeansAll(p, part[1..], Without(whole, k));
    }
  }

  lemma {:induction false} AllMeansEqualCount(p: Cluster -> bool, part: seq<Cluster>, whole: seq<Cluster>)
    requires multiset(part) <= multiset(whole)
    requires forall c :: c in whole && p(c) ==> multiset(part)[c] == multiset(whole)[c]
    ensures CountWhere(p, part) == CountWhere(p, whole)
    decreases |part|
  {
    if part == [] {
      forall c | c in whole ensures !p(c) { assert multiset(whole)[c] > 0; }
      NoneCounted(p, whole);
    } else {
      var k := FindHead(part, whole);
      CountWithout(p, whole, k);
      TakeOutBoth(part, whole, k);
      forall c | c in Without(whole, k) && p(c) ensures multiset(part[1..])[c] == multiset(Without(whole, k))[c] {
        assert c in multiset(Without(whole, k));
        assert c in multiset(whole);
      }
      AllMeansEqualCount(p, part[1..], Without(whole, k));
    }
  }

  /** Every immediate cluster is in the digest. */
  ghost predicate KeepsImmediates(clusters: seq<Cluster>, selected: seq<Cluster>) {
    forall c :: c in clusters && c.immediate ==> c in selected
  }

  lemma KeptIsCounted(clusters: seq<Cluster>, selected: seq<Cluster>)
    requires DistinctKeys(clusters) && multiset(selected) <= multiset(clusters)
    ensures KeepsImmediates(clusters, selected) <==> Immediates(selected) == Immediates(clusters)
  {
    var p := (c: Cluster) => c.immediate;
    if Immediates(selected) == Immediates(clusters) { EqualCountMeansAll(p, selected, clusters); }
    if KeepsImmediates(clusters, selected) {
      forall c | c in clusters && p(c) ensures multiset(selected)[c] == multiset(clusters)[c] {
        assert c in selected;
        assert multiset(selected)[c] >= 1;
        assert Distinct(clusters);
        DistinctIsCountedOnce(clusters, c);
      }
      AllMeansEqualCount(p, selected, clusters);
    }
  }

  /** Some immediate cluster is not editorially included. */
  predicate PlainImmediate(included: set<nat>, clusters: seq<Cluster>) {
    CountWhere(UpTo(included, 2), clusters) > CountWhere(UpTo(included, 1), clusters)
  }

  /** Every immediate cluster is kept exactly when there is room for the included clusters and the immediate
      ones together or, without an immediate cluster that is not included, for the included immediate ones. */
  lemma ImmediatesAreKeptIff(included: set<nat>, clusters: seq<Cluster>, limit: nat)
    requires DistinctKeys(clusters)
    ensures KeepsImmediates(clusters, Select(included, clusters, limit)) <==>
      CountWhere(UpTo(included, if PlainImmediate(included, clusters) then 2 else 0), clusters) <= limit
  {
    var selected := Select(included, clusters, limit);
    SelectionIsPart(included, clusters, limit);
    KeptIsCounted(clusters, selected);
    ImmediatesByClass(included, clusters);
    ImmediatesByClass(included, selected);
    ClassesFillUp(included, clusters, limit, 0);
    ClassesFillUp(included, clusters, limit, 1);
    ClassesFillUp(included, clusters, limit, 2);
    CountGrowsWithClass(included, clusters, 0);
    CountGrowsWithClass(included, clusters, 1);
  }

  lemma {:induction false} CountGrowsWithClass(included: set<nat>, clusters: seq<Cluster>, k: nat)
    ensures CountWhere(UpTo(included, k), clusters) <= CountWhere(UpTo(included, k + 1), clusters)
  {
    if clusters != [] { CountGrowsWithClass(included, clusters[1..], k); }
  }

  // ----- the two digests -----------------------------------------------------------------

  /** The choice among freshly clustered observations, without editorial preferences. */
  function ClusterSelection(clusters: seq<Cluster>, ceiling: int, adaptive: bool): Option<seq<Cluster>> {
    if !(1 <= ceiling <= 500) then None
    else
      var limit: nat := if adaptive then AdaptiveCount(clusters, ceiling).value else ceiling;
      Some(Select({}, clusters, limit))
  }

  /** The choice from the event pool: excluded clusters are dropped first, the count is then adaptive. */
  function PoolSelection(clusters: seq<Cluster>, included: set<nat>, excluded: set<nat>,
                         ceiling: int): Option<seq<Cluster>> {
    if !(1 <= ceiling <= 500) then None
    else
      var candidates := Filter((c: Cluster) => c.key !in excluded, clusters);
      Some(Select(included, candidates, AdaptiveCount(candidates, ceiling).value))
  }

  lemma {:induction false} NothingIncluded(clusters: seq<Cluster>)
    ensures CountWhere(UpTo({}, 2), clusters) == Immediates(clusters) && CountWhere(UpTo({}, 1), clusters) == 0
  {
    if clusters != [] { NothingIncluded(clusters[1..]); }
  }

  function FreshLimit(clusters: seq<Cluster>, ceiling: int, adaptive: bool): nat
    requires 1 <= ceiling <= 500
  {
    if adaptive then AdaptiveCount(clusters, ceiling).value else ceiling
  }

  lemma FreshLimitAdmits(clusters: seq<Cluster>, ceiling: int, adaptive: bool)
    requires 1 <= ceiling <= 500
    ensures Immediates(clusters) <= FreshLimit(clusters, ceiling, adaptive) <==> Immediates(clusters) <= ceiling
  {
  }

  /** Fresh clusters: all immediate ones are in the digest exactly when they fit under the ceiling. */
  lemma FreshDigestKeepsImmediatesIff(clusters: seq<Cluster>, ceiling: int, adaptive: bool)
    requires 1 <= ceiling <= 500 && DistinctKeys(clusters)
    ensures KeepsImmediates(clusters, ClusterSelection(clusters, ceiling, adaptive).value) <==>
      Immediates(clusters) <= ceiling
  {
    ImmediatesAreKeptIff({}, clusters, FreshLimit(clusters, ceiling, adaptive));
    NothingIncluded(clusters);
    ImmediatesByClass({}, clusters);
    FreshLimitAdmits(clusters, ceiling, adaptive);
  }

  lemma SelectionRespectsInclusion(included: set<nat>, candidates: seq<Cluster>, limit: nat, c: Cluster)
    requires c in Select(included, candidates, limit) && c.key !in included
    ensures forall d :: d in candidates && d.key in included ==> d in Select(included, candidates, limit)
  {
    var r := Select(included, candidates, limit);
    var p := UpTo(included, 1);
    SelectionIsPart(included, candidates, limit);
    var k :| 0 <= k < |r| && r[k] == c;
    CountWithout(p, r, k);
    ClassesFillUp(included, candidates, limit, 1);
    EqualCountMeansAll(p, r, candidates);
    forall d | d in candidates && d.key in included ensures d in r { assert p(d); }
  }

  /** The pool: what is chosen was not excluded, included clusters stand first, and none of them is passed over
      while another is taken. */
  lemma PoolRespectsEditors(clusters: seq<Cluster>, included: set<nat>, excluded: set<nat>, ceiling: int)
    requires 1 <= ceiling <= 500
    ensures var r := PoolSelection(clusters, included, excluded, ceiling).value;
      && (forall c :: c in r ==> c in clusters && c.key !in excluded)
      && (forall i, j :: 0 <= i < j < |r| && r[j].key in included ==> r[i].key in included)
      && (forall c, d :: c in r && c.key !in included && d in clusters && d.key !in excluded && d.key in included ==>
        d in r)
  {
    var candidates := Filter((c: Cluster) => c.key !in excluded, clusters);
    var limit := AdaptiveCount(candidates, ceiling).value;
    var r := Select(included, candidates, limit);
    SelectionIsPart(included, candidates, limit);
    ClassesAreOrdered(included, candidates, limit);
    forall c | c in r ensures c in candidates {
      assert c in multiset(r);
      assert c in multiset(candidates);
    }
    forall i, j | 0 <= i < j < |r| && r[j].key in included ensures r[i].key in included {
      assert Class(included, r[i]) <= Class(included, r[j]);
    }
    forall c, d | c in r && c.key !in included && d in clusters && d.key !in excluded && d.key in included
      ensures d in r {
      SelectionRespectsInclusion(included, candidates, limit, c);
      assert d in candidates;
    }
  }

  lemma {:induction false} FilterKeepsAll(keep: Cluster -> bool, s: seq<Cluster>)
    requires forall c :: c in s ==> keep(c)
    ensures Filter(keep, s) == s
  {
    if s != [] {
      assert forall c :: c in s[1..] ==> c in s;
      FilterKeepsAll(keep, s[1..]);
      assert s == [s[0]] + s[1..];
    }
  }

  /** An immediate event can lose its place to an included one on a quiet day: two events below the noise
      floor, one included, the other immediate, and a ceiling with room for both. */
  lemma PoolCanDropAnImmediateEvent(ceiling: int)
    requires 1 <= ceiling <= 500
    ensures var picked, alert := Cluster(0, 0.0, false, 0, {}, []), Cluster(1, 0.0, true, 0, {}, []);
      PoolSelection([picked, alert], {0}, {}, ceiling) == Some([picked])
  {
    var picked, alert := Cluster(0, 0.0, false, 0, {}, []), Cluster(1, 0.0, true, 0, {}, []);
    var all := [picked, alert];
    var excluded: set<nat> := {};
    var candidates := Filter((c: Cluster) => c.key !in excluded, all);
    FilterKeepsAll((c: Cluster) => c.key !in excluded, all);
    assert candidates == all;
    QuietCount(picked, alert, ceiling);
    var r := Select({0}, all, 1);
    var leq := Order({0}, map[]);
    assert Sorted(leq, all) by { assert Precedes({0}, map[], picked, alert); }
    OrderIsTotal({0}, map[]);
    SortedIsFixed(leq, all);
    assert r == [picked];
  }

  lemma QuietCount(a: Cluster, b: Cluster, ceiling: int)
    requires 1 <= ceiling <= 500 && a.score == b.score == 0.0 && !a.immediate && b.immediate
    ensures AdaptiveCount([a, b], ceiling) == Some(1)
  {
    var all := [a, b];
    assert all[1..] == [b] && all[1..][1..] == [];
    assert Energy(all) == 0.0 by { assert Energy(all[1..]) == 0.0; }
    assert StrongTopics(all) == {};
    assert Immediates(all) == 1 by { assert Immediates(all[1..]) == 1; }
    assert Square(0) == 0.0;
  }

  // ----- the loops -----------------------------------------------------------------------

  /** Counts the sources of a chosen cluster. */
  method CountSources(counts: map<string, nat>, sources: seq<string>) returns (r: map<string, nat>)
    ensures r == Counted(counts, sources)
  {
    r := counts;
    for i := 0 to |sources|
      invariant Counted(r, sources[i..]) == Counted(counts, sources)
    {
      assert sources[i..][0] == sources[i] && sources[i..][1..] == sources[i + 1..];
      r := r[sources[i] := (if sources[i] in r then r[sources[i]] else 0) + 1];
    }
    assert sources[|sources|..] == [];
  }

  /** Picks clusters one after the other, each time ranking what is left and counting the sources used. */
  method PickClusters(rank: Rank, clusters: seq<Cluster>, limit: nat) returns (selected: seq<Cluster>)
    requires forall counts, s :: |rank(counts, s)| == |s|
    ensures selected == Pick(rank, map[], clusters, limit)
  {
    selected := [];
    var rest := clusters;
    var counts: map<string, nat> := map[];
    while rest != [] && |selected| < limit
      invariant |selected| <= limit
      invariant selected + Pick(rank, counts, rest, limit - |selected|) == Pick(rank, map[], clusters, limit)
      decreases |rest|
    {
      PickUnfolds(rank, counts, rest, limit - |selected|, selected);
      var ranked := rank(counts, rest);
      selected := selected + [ranked[0]];
      counts := CountSources(counts, ranked[0].sources);
      rest := ranked[1..];
    }
  }

  method SelectClusters(included: set<nat>, clusters: seq<Cluster>, limit: nat) returns (selected: seq<Cluster>)
    ensures selected == Select(included, clusters, limit)
  {
    selected := PickClusters(Ranking(included), clusters, limit);
  }

  lemma PickUnfolds(rank: Rank, counts: map<string, nat>, clusters: seq<Cluster>, limit: nat, before: seq<Cluster>)
    requires rank(counts, clusters) != [] && limit > 0
    ensures var ranked := rank(counts, clusters);
      before + Pick(rank, counts, clusters, limit)
        == (before + [ranked[0]]) + Pick(rank, Counted(counts, ranked[0].sources), ranked[1..], limit - 1)
  {
  }

  /** The adaptive count, summing the energy in one pass. */
  method CountItems(clusters: seq<Cluster>, ceiling: int) returns (count: Option<nat>)
    ensures count == AdaptiveCount(clusters, ceiling)
  {
    if !(1 <= ceiling <= 500) { return None; }
    if clusters == [] { return Some(0); }
    var energy := 0.0;
    var immediates := 0;
    var k := |clusters|;
    while k > 0
      invariant 0 <= k <= |clusters|
      invariant energy == Energy(clusters[k..]) && immediates == Immediates(clusters[k..])
    {
      k := k - 1;
      assert clusters[k..][0] == clusters[k] && clusters[k..][1..] == clusters[k + 1..];
      energy := Signal(clusters[k]) + energy;
      immediates := (if clusters[k].immediate then 1 else 0) + immediates;
    }
    assert clusters[0..] == clusters;
    var topics := |StrongTopics(clusters)|;
    var target := RootCeiling(4.0 * energy) + MinNat(3, if topics == 0 then 0 else topics - 1);
    return Some(MinNat(MinNat(ceiling, |clusters|), MaxNat(1, MaxNat(target, immediates))));
  }

  /** The selection from the event pool. */
  method SelectFromPool(clusters: seq<Cluster>, included: set<nat>, excluded: set<nat>, ceiling: int)
      returns (r: Option<seq<Cluster>>)
    ensures r == PoolSelection(clusters, included, excluded, ceiling)
  {
    var candidates := Filter((c: Cluster) => c.key !in excluded, clusters);
    var limit := CountItems(candidates, ceiling);
    if limit.None? { return None; }
    var selected := SelectClusters(included, candidates, limit.value);
    return Some(selected);
  }
}
