/** Freezing the facts of a digest item: the selected evidence with its claims and their ancestors,
    inside one bounded read of the evidence graph. */
module DigestFreeze {
  import opened Ordering

  /** `supersedes` is empty for a claim that supersedes nothing. */
  datatype Claim = Claim(key: string, supersedes: string, text: string)
  datatype Evidence = Evidence(claimKey: string, reportId: int)
  datatype Graph = Graph(claims: seq<Claim>, evidence: seq<Evidence>, claimsTruncated: bool, evidenceTruncated: bool)

  datatype Frozen = Frozen(asOf: int, claims: seq<Claim>, evidence: seq<Evidence>, truncated: bool)
  datatype Result = Snapshot(frozen: Frozen) | Inconsistent

  const CLAIM_LIMIT := 200
  const EVIDENCE_LIMIT := 1000

  /** Claims by key; of two with the same key the later one counts. */
  function ByKey(claims: seq<Claim>): (r: map<string, Claim>)
    ensures forall k :: k in r <==> exists c :: c in claims && c.key == k
    ensures forall k :: k in r ==> r[k].key == k
  {
    if claims == [] then map[]
    else
      var last := claims[|claims| - 1];
      assert claims == claims[..|claims| - 1] + [last];
      ByKey(claims[..|claims| - 1])[last.key := last]
  }

  function Selected(g: Graph, reportIds: set<int>): seq<Evidence> {
    Filter((e: Evidence) => e.reportId in reportIds, g.evidence)
  }

  function Attached(g: Graph, reportIds: set<int>): seq<Evidence> {
    Filter((e: Evidence) => e.claimKey in ByKey(g.claims), Selected(g, reportIds))
  }

  function Seeds(g: Graph, reportIds: set<int>): set<string> {
    set e | e in Attached(g, reportIds) :: e.claimKey
  }

  type Index = map<string, Claim>

  predicate HasParent(index: Index, k: string) {
    k in index && index[k].supersedes != ""
  }

  function Parent(index: Index, k: string): string
    requires HasParent(index, k)
  {
    index[k].supersedes
  }

  /** Closed under superseded claims that the graph holds. */
  ghost predicate Closed(index: Index, keys: set<string>) {
    forall k :: k in keys && HasParent(index, k) && Parent(index, k) in index ==> Parent(index, k) in keys
  }

  /** The least set of claims that holds everything with selected evidence and is closed. */
  ghost predicate Least(index: Index, seeds: set<string>, keys: set<string>) {
    && seeds <= keys && Closed(index, keys)
    && forall other: set<string> :: seeds <= other && Closed(index, other) ==> keys <= other
  }

  ghost predicate MissesAncestor(index: Index, keys: set<string>) {
    exists k :: k in keys && HasParent(index, k) && Parent(index, k) !in index
  }

  predicate DistinctKeys(claims: seq<Claim>) {
    forall i, j :: 0 <= i < j < |claims| ==> claims[i].key != claims[j].key
  }

  /** What the snapshot's constructor checks. */
  predicate Consistent(f: Frozen) {
    && f.asOf >= 0
    && |f.claims| <= CLAIM_LIMIT && |f.evidence| <= EVIDENCE_LIMIT
    && DistinctKeys(f.claims)
    && forall e :: e in f.evidence ==> exists c :: c in f.claims && c.key == e.claimKey
  }

  function KeptClaims(g: Graph, keys: set<string>): seq<Claim> {
    Filter((c: Claim) => c.key in keys, g.claims)
  }

  lemma LeastIsUnique(index: Index, seeds: set<string>, a: set<string>, b: set<string>)
    requires Least(index, seeds, a) && Least(index, seeds, b)
    ensures a == b
  {
  }

  /** `k` is reached from a claim with selected evidence by following `n` pointers inside the graph. */
  ghost predicate DescendsFrom(index: Index, seeds: set<string>, k: string, n: nat)
    decreases n
  {
    if n == 0 then k in seeds
    else exists d :: DescendsFrom(index, seeds, d, n - 1) && HasParent(index, d) && Parent(index, d) == k && k in index
  }

  lemma {:induction false} AncestorsAreKept(index: Index, seeds: set<string>, keys: set<string>, k: string, n: nat)
    requires seeds <= keys && Closed(index, keys) && DescendsFrom(index, seeds, k, n)
    ensures k in keys
    decreases n
  {
    if n > 0 {
      var d :| DescendsFrom(index, seeds, d, n - 1) && HasParent(index, d) && Parent(index, d) == k && k in index;
      AncestorsAreKept(index, seeds, keys, d, n - 1);
    }
  }

  ghost predicate IsAncestor(index: Index, seeds: set<string>, k: string) {
    exists n: nat :: DescendsFrom(index, seeds, k, n)
  }

  /** The least closed set is exactly the ancestry of the selected claims inside the graph. */
  lemma LeastIsAncestry(index: Index, seeds: set<string>, keys: set<string>)
    requires Least(index, seeds, keys)
    ensures forall k :: k in keys <==> IsAncestor(index, seeds, k)
  {
    var ancestry := set k | k in keys && IsAncestor(index, seeds, k);
    forall k | k in seeds ensures k in ancestry { assert DescendsFrom(index, seeds, k, 0); }
    forall k | k in ancestry && HasParent(index, k) && Parent(index, k) in index ensures Parent(index, k) in ancestry {
      var n: nat :| DescendsFrom(index, seeds, k, n);
      assert DescendsFrom(index, seeds, Parent(index, k), n + 1);
    }
    assert keys <= ancestry;
    forall k | IsAncestor(index, seeds, k) ensures k in keys {
      var n: nat :| DescendsFrom(index, seeds, k, n);
      AncestorsAreKept(index, seeds, keys, k, n);
    }
  }

  lemma KeptEvidenceHasClaims(g: Graph, reportIds: set<int>, keys: set<string>)
    requires Seeds(g, reportIds) <= keys
    ensures forall e :: e in Attached(g, reportIds) ==> exists c :: c in KeptClaims(g, keys) && c.key == e.claimKey
  {
    forall e | e in Attached(g, reportIds) ensures exists c :: c in KeptClaims(g, keys) && c.key == e.claimKey {
      assert e.claimKey in Seeds(g, reportIds) && e.claimKey in ByKey(g.claims);
      var c :| c in g.claims && c.key == e.claimKey;
      assert c in KeptClaims(g, keys);
    }
  }

  /** The worklist. It ends on any graph, cyclic ones included. */
  method Ancestry(index: Index, seeds: set<string>) returns (found: set<string>, missing: bool)
    requires seeds <= index.Keys
    ensures Least(index, seeds, found) && (missing <==> MissesAncestor(index, found))
  {
    found, missing := seeds, false;
    var pending := Listed(seeds);
    while pending != []
      invariant seeds <= found <= index.Keys
      invariant forall k :: k in pending ==> k in found
      invariant forall k :: k in found && k !in pending && HasParent(index, k) && Parent(index, k) in index ==>
        Parent(index, k) in found
      invariant forall k :: k in found && k !in pending && HasParent(index, k) && Parent(index, k) !in index ==> missing
      invariant missing ==> MissesAncestor(index, found)
      invariant forall other: set<string> :: seeds <= other && Closed(index, other) ==> found <= other
      decreases index.Keys - found, |pending|
    {
      var key := pending[|pending| - 1];
      var rest := pending[..|pending| - 1];
      assert pending == rest + [key];
      pending := rest;
      var parent := if key in index then index[key].supersedes else "";
      assert key in found && (parent != "" ==> HasParent(index, key) && Parent(index, key) == parent);
      if parent != "" && parent !in found && parent in index {
        forall other: set<string> | seeds <= other && Closed(index, other) ensures found + {parent} <= other {
          assert key in other;
        }
        if missing {
          ghost var k :| k in found && HasParent(index, k) && Parent(index, k) !in index;
          assert k in found + {parent};
        }
        found := found + {parent};
        pending := pending + [parent];
      } else if parent != "" && parent !in index {
        missing := true;
      }
    }
  }

  /** `r` holds the claims `keys` with all their selected evidence and reports exactly what is cut off or missing;
      it is refused only for a negative time, an exceeded limit or a repeated claim key. */
  ghost predicate Freezes(g: Graph, reportIds: set<int>, asOf: int, keys: set<string>, r: Result) {
    && (r.Snapshot? ==> r.frozen == Frozen(asOf, KeptClaims(g, keys), Attached(g, reportIds),
                                           g.claimsTruncated || g.evidenceTruncated
                                           || |Attached(g, reportIds)| != |Selected(g, reportIds)|
                                           || MissesAncestor(ByKey(g.claims), keys)))
    && (r.Inconsistent? <==> asOf < 0 || |KeptClaims(g, keys)| > CLAIM_LIMIT
                             || |Attached(g, reportIds)| > EVIDENCE_LIMIT || !DistinctKeys(KeptClaims(g, keys)))
  }

  /** Freezes the selected evidence with its claim ancestry; truncation is reported exactly when something
      was cut off or is missing. */
  method FreezeFacts(g: Graph, reportIds: set<int>, asOf: int) returns (r: Result)
    ensures exists keys: set<string> ::
      Least(ByKey(g.claims), Seeds(g, reportIds), keys) && Freezes(g, reportIds, asOf, keys, r)
    ensures forall keys: set<string> :: Least(ByKey(g.claims), Seeds(g, reportIds), keys) ==>
      Freezes(g, reportIds, asOf, keys, r)
  {
    var selected := Selected(g, reportIds);
    var evidence := Attached(g, reportIds);
    var found, missing := Ancestry(ByKey(g.claims), Seeds(g, reportIds));
    var frozen := Frozen(asOf, KeptClaims(g, found), evidence,
                         g.claimsTruncated || g.evidenceTruncated || |evidence| != |selected| || missing);
    KeptEvidenceHasClaims(g, reportIds, found);
    r := if Consistent(frozen) then Snapshot(frozen) else Inconsistent;
    assert Freezes(g, reportIds, asOf, found, r);
    forall keys: set<string> | Least(ByKey(g.claims), Seeds(g, reportIds), keys)
      ensures Freezes(g, reportIds, asOf, keys, r) {
      LeastIsUnique(ByKey(g.claims), Seeds(g, reportIds), keys, found);
    }
  }

  /** A set as a list, in some order. */
  method Listed(s: set<string>) returns (r: seq<string>)
    ensures forall k :: k in r <==> k in s
  {
    r := [];
    var rest := s;
    while rest != {}
      invariant rest <= s
      invariant forall k :: k in r <==> k in s && k !in rest
    {
      var k :| k in rest;
      r := r + [k];
      rest := rest - {k};
    }
  }

  lemma {:induction false} FilterKeepsDistinct(claims: seq<Claim>, keys: set<string>)
    requires DistinctKeys(claims)
    ensures DistinctKeys(Filter((c: Claim) => c.key in keys, claims))
      && |Filter((c: Claim) => c.key in keys, claims)| <= |claims|
  {
    if claims != [] {
      var rest := Filter((c: Claim) => c.key in keys, claims[1..]);
      FilterKeepsDistinct(claims[1..], keys);
      forall i | 0 <= i < |rest| ensures rest[i].key != claims[0].key {
        assert rest[i] in rest && rest[i] in claims[1..];
        var j :| 0 <= j < |claims[1..]| && claims[1..][j] == rest[i];
        assert claims[j + 1] == rest[i];
      }
    }
  }

  lemma {:induction false} FilterIsShorter(keep: Evidence -> bool, s: seq<Evidence>)
    ensures |Filter(keep, s)| <= |s|
  {
    if s != [] { FilterIsShorter(keep, s[1..]); }
  }

  /** A graph read within its limits, whose claim keys are unique as the table makes them, always freezes. */
  lemma BoundedGraphFreezes(g: Graph, reportIds: set<int>, keys: set<string>)
    requires DistinctKeys(g.claims) && |g.claims| <= CLAIM_LIMIT && |g.evidence| <= EVIDENCE_LIMIT
    ensures DistinctKeys(KeptClaims(g, keys)) && |KeptClaims(g, keys)| <= CLAIM_LIMIT
    ensures |Attached(g, reportIds)| <= EVIDENCE_LIMIT
  {
    FilterKeepsDistinct(g.claims, keys);
    FilterIsShorter((e: Evidence) => e.reportId in reportIds, g.evidence);
    FilterIsShorter((e: Evidence) => e.claimKey in ByKey(g.claims), Selected(g, reportIds));
  }
}
