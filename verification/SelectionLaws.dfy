/** The size of a digest and each choice in plain terms. */
module SelectionLaws {
  import opened Ordering
  import opened DigestSelection

  // ----- the count -----------------------------------------------------------------------

  /** A cluster adds the square of what its score is above 2.5, and no more than one of 6 does. */
  lemma SignalIsExact(c: Cluster)
    ensures c.score <= 2.5 ==> Signal(c) == 0.0
    ensures 2.5 <= c.score <= 6.0 ==> Signal(c) == (c.score - 2.5) * (c.score - 2.5)
    ensures c.score >= 6.0 ==> Signal(c) == 12.25
  {
  }

  /** The energy of a day is the sum over its clusters. */
  lemma {:induction false} EnergyIsSum(a: seq<Cluster>, b: seq<Cluster>)
    ensures Energy(a + b) == Energy(a) + Energy(b)
    ensures Energy([]) == 0.0 && (|a| == 1 ==> Energy(a) == Signal(a[0]))
  {
    if a == [] {
      assert a + b == b;
    } else {
      assert (a + b)[1..] == a[1..] + b;
      EnergyIsSum(a[1..], b);
    }
  }

  /** A topic counts if a cluster scoring at least 3 has it; an empty one and the general one never do. */
  lemma TopicsAreExact(clusters: seq<Cluster>, t: string)
    ensures t in StrongTopics(clusters) <==>
      t != "" && t != "general" && exists i ::
        0 <= i < |clusters| && clusters[i].score >= 3.0 && t in clusters[i].topics
  {
    if t in StrongTopics(clusters) {
      var c :| c in clusters && c.score >= 3.0 && t in c.topics;
      var i :| 0 <= i < |clusters| && clusters[i] == c;
    }
  }

  ghost function ImmediateOnes(clusters: seq<Cluster>): set<int> {
    set i | 0 <= i < |clusters| && clusters[i].immediate
  }

  lemma ImmediateOnesOfMore(older: seq<Cluster>, c: Cluster)
    ensures |ImmediateOnes(older + [c])| == |ImmediateOnes(older)| + if c.immediate then 1 else 0
  {
    var all, n := older + [c], |older|;
    forall i ensures i in ImmediateOnes(all) <==> i in ImmediateOnes(older) || (i == n && c.immediate) {
      assert 0 <= i < n ==> all[i] == older[i];
    }
    assert ImmediateOnes(all) == ImmediateOnes(older) + if c.immediate then {n} else {};
    assert n !in ImmediateOnes(older);
  }

  lemma {:induction false} ImmediatesAreCounted(clusters: seq<Cluster>)
    ensures Immediates(clusters) == |ImmediateOnes(clusters)|
    decreases |clusters|
  {
    if clusters == [] {
      assert |ImmediateOnes(clusters)| == 0;
    } else {
      var n := |clusters| - 1;
      var older := clusters[..n];
      ImmediatesAreCounted(older);
      CountWithout((c: Cluster) => c.immediate, clusters, n);
      assert Without(clusters, n) == older;
      assert clusters == older + [clusters[n]];
      ImmediateOnesOfMore(older, clusters[n]);
    }
  }

  /** The count is the smaller of the ceiling and what there is, and below both the largest of one, the number of
      immediate clusters, and the root of four times the energy rounded up plus one for each strong topic after the
      first, three at most. */
  lemma CountIsExact(clusters: seq<Cluster>, ceiling: int, root: nat)
    requires 1 <= ceiling <= 500 && clusters != []
    requires Square(root) >= 4.0 * Energy(clusters) && (root > 0 ==> Square(root - 1) < 4.0 * Energy(clusters))
    ensures var n := AdaptiveCount(clusters, ceiling).value;
      var topics := |StrongTopics(clusters)|;
      var target := root + if topics <= 1 then 0 else if topics >= 4 then 3 else topics - 1;
      && n <= ceiling && n <= |clusters|
      && (n < ceiling && n < |clusters| ==> n == (if target > Immediates(clusters) then
                                                     if target > 1 then target else 1
                                                   else if Immediates(clusters) > 1 then Immediates(clusters) else 1))
      && (n < target || n < Immediates(clusters) ==> n == ceiling || n == |clusters|)
  {
    RootIsUnique(root, RootCeiling(4.0 * Energy(clusters)), 4.0 * Energy(clusters));
  }

  lemma RootIsUnique(a: nat, b: nat, x: real)
    requires Square(a) >= x && (a > 0 ==> Square(a - 1) < x) && Square(b) >= x && (b > 0 ==> Square(b - 1) < x)
    ensures a == b
  {
    if a < b {
      SquareIsMonotone(a, b - 1);
      assert false;
    } else if b < a {
      SquareIsMonotone(b, a - 1);
      assert false;
    }
  }

  /** Out of range, and for a day without clusters. */
  lemma CountOfNothing(clusters: seq<Cluster>, ceiling: int)
    ensures AdaptiveCount(clusters, ceiling).None? <==> ceiling < 1 || ceiling > 500
    ensures 1 <= ceiling <= 500 && clusters == [] ==> AdaptiveCount(clusters, ceiling) == Some(0)
  {
  }

  // ----- the choices ---------------------------------------------------------------------

  /** The least number of times a source of the cluster was used by the clusters chosen so far. */
  ghost predicate LeastUsed(chosen: seq<Cluster>, c: Cluster, n: nat) {
    && (c.sources == [] ==> n == 0)
    && (c.sources != [] ==> exists s :: s in c.sources && Uses(chosen, s) == n)
    && forall s :: s in c.sources ==> n <= Uses(chosen, s)
  }

  lemma {:induction false} LeastUseIsLeast(counts: map<string, nat>, sources: seq<string>)
    ensures forall s :: s in sources ==> LeastUse(counts, sources) <= CountOf(counts, s)
    ensures sources != [] ==> exists s :: s in sources && CountOf(counts, s) == LeastUse(counts, sources)
    ensures sources == [] ==> LeastUse(counts, sources) == 0
  {
    if |sources| > 1 {
      LeastUseIsLeast(counts, sources[1..]);
      var s :| s in sources[1..] && CountOf(counts, s) == LeastUse(counts, sources[1..]);
      assert s in sources && sources[0] in sources;
      assert sources == [sources[0]] + sources[1..];
    } else if |sources| == 1 {
      assert sources[0] in sources;
    }
  }

  /** The score with its penalty: 35 per cent for every use of the least used source. */
  function Penalised(c: Cluster, uses: nat): real { c.score * 100.0 / (100 + 35 * uses) as real }

  lemma WorthIsPenalised(counts: map<string, nat>, c: Cluster)
    ensures Worth(counts, c) == Penalised(c, LeastUse(counts, c.sources))
  {
    var n := LeastUse(counts, c.sources) as real;
    assert (100 + 35 * LeastUse(counts, c.sources)) as real == 100.0 * (1.0 + 0.35 * n);
    ScaledQuotient(c.score, 1.0 + 0.35 * n);
  }

  lemma ScaledQuotient(x: real, y: real)
    requires y > 0.0
    ensures x / y == x * 100.0 / (100.0 * y)
  {
    assert (x / y) * (100.0 * y) == ((x / y) * y) * 100.0 == x * 100.0;
  }

  /** The first comes no later than the second: included before not, then immediate before not, then by penalised
      score, then the newer, then by key. */
  ghost predicate NotBehind(included: set<nat>, x: Cluster, y: Cluster, usesX: nat, usesY: nat) {
    if (x.key in included) != (y.key in included) then x.key in included
    else if x.immediate != y.immediate then x.immediate
    else if Penalised(x, usesX) != Penalised(y, usesY) then Penalised(x, usesX) > Penalised(y, usesY)
    else if x.publishedAt != y.publishedAt then x.publishedAt > y.publishedAt
    else x.key <= y.key
  }

  /** Each chosen cluster comes no later than any cluster not chosen before it, with the penalties counted over
      exactly the earlier choices. */
  lemma ChoiceIsExact(included: set<nat>, clusters: seq<Cluster>, limit: nat, i: nat, c: Cluster)
      returns (x: nat, y: nat)
    requires i < |Select(included, clusters, limit)|
    requires multiset(clusters)[c] > multiset(Select(included, clusters, limit)[..i])[c]
    ensures var r := Select(included, clusters, limit);
      && LeastUsed(r[..i], r[i], x) && LeastUsed(r[..i], c, y)
      && NotBehind(included, r[i], c, x, y)
  {
    var r := Select(included, clusters, limit);
    var counts := CountsAfter(map[], r[..i]);
    EachChoiceIsBest(included, clusters, limit, i, c);
    x, y := LeastUse(counts, r[i].sources), LeastUse(counts, c.sources);
    LeastUseIsLeast(counts, r[i].sources);
    LeastUseIsLeast(counts, c.sources);
    WorthIsPenalised(counts, r[i]);
    WorthIsPenalised(counts, c);
  }

  /** Uses are occurrences of the source among the sources of the chosen clusters. */
  lemma {:induction false} UsesAreOccurrences(chosen: seq<Cluster>, last: Cluster, source: string)
    ensures Uses([], source) == 0
    ensures Uses(chosen + [last], source) == Uses(chosen, source) + multiset(last.sources)[source]
  {
    if chosen == [] {
      assert chosen + [last] == [last] && [last][1..] == [];
    } else {
      assert (chosen + [last])[1..] == chosen[1..] + [last];
      UsesAreOccurrences(chosen[1..], last, source);
    }
  }

  // ----- the two digests -----------------------------------------------------------------

  /** The fresh digest has as many clusters as the adaptive count, or the ceiling, allows; the pool variant counts
      and chooses only among clusters that were not excluded. */
  lemma DigestSizes(clusters: seq<Cluster>, included: set<nat>, excluded: set<nat>, ceiling: int, adaptive: bool)
    requires 1 <= ceiling <= 500
    ensures var fresh_ := ClusterSelection(clusters, ceiling, adaptive).value;
      |fresh_| == if adaptive then AdaptiveCount(clusters, ceiling).value
                  else if |clusters| < ceiling then |clusters| else ceiling
    ensures var left := Filter((c: Cluster) => c.key !in excluded, clusters);
      |PoolSelection(clusters, included, excluded, ceiling).value| == AdaptiveCount(left, ceiling).value
  {
    CountIsBounded(clusters, ceiling);
    SelectionIsPart({}, clusters, if adaptive then AdaptiveCount(clusters, ceiling).value else ceiling);
    var left := Filter((c: Cluster) => c.key !in excluded, clusters);
    CountIsBounded(left, ceiling);
    SelectionIsPart(included, left, AdaptiveCount(left, ceiling).value);
  }
}
