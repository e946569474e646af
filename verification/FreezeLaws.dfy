/** What a frozen digest item holds, read off the evidence graph. */
module FreezeLaws {
  import opened Ordering
  import opened DigestFreeze

  ghost predicate HasClaim(g: Graph, key: string) { exists i :: 0 <= i < |g.claims| && g.claims[i].key == key }

  /** Of claims with one key the last counts. */
  lemma {:induction false} LastClaimCounts(claims: seq<Claim>, i: nat)
    requires i < |claims| && forall j :: i < j < |claims| ==> claims[j].key != claims[i].key
    ensures claims[i].key in ByKey(claims) && ByKey(claims)[claims[i].key] == claims[i]
    decreases |claims|
  {
    var n := |claims| - 1;
    if i < n { LastClaimCounts(claims[..n], i); }
  }

  lemma KnownIff(g: Graph, key: string)
    ensures key in ByKey(g.claims) <==> HasClaim(g, key)
  {
    if key in ByKey(g.claims) {
      var c :| c in g.claims && c.key == key;
      var i :| 0 <= i < |g.claims| && g.claims[i] == c;
    }
    if HasClaim(g, key) {
      var i :| 0 <= i < |g.claims| && g.claims[i].key == key;
      assert g.claims[i] in g.claims;
    }
  }

  /** What can be frozen is the evidence of the selected reports whose claim the graph holds, and what starts the
      ancestry are the claims of just that evidence. */
  lemma EvidenceIsExact(g: Graph, reportIds: set<int>)
    ensures forall e :: e in Attached(g, reportIds) <==>
      e in g.evidence && e.reportId in reportIds && HasClaim(g, e.claimKey)
    ensures forall k :: k in Seeds(g, reportIds) <==> exists e :: e in Attached(g, reportIds) && e.claimKey == k
  {
    forall e ensures e in Attached(g, reportIds) <==>
                       e in g.evidence && e.reportId in reportIds && HasClaim(g, e.claimKey) {
      KnownIff(g, e.claimKey);
    }
  }

  lemma {:induction false} ShorterIffDropped(keep: Evidence -> bool, s: seq<Evidence>)
    ensures |Filter(keep, s)| <= |s|
    ensures |Filter(keep, s)| == |s| <==> forall e :: e in s ==> keep(e)
  {
    if s != [] {
      ShorterIffDropped(keep, s[1..]);
      assert s == [s[0]] + s[1..];
      assert s[0] in s;
    }
  }

  /** Something of the item is missing: a limit cut the graph, selected evidence has no claim in it, or a kept claim
      supersedes one that it does not hold. */
  ghost predicate Incomplete(g: Graph, reportIds: set<int>, keys: set<string>) {
    || g.claimsTruncated || g.evidenceTruncated
    || (exists e :: e in g.evidence && e.reportId in reportIds && !HasClaim(g, e.claimKey))
    || (exists k :: k in keys && k in ByKey(g.claims) && ByKey(g.claims)[k].supersedes != ""
                    && !HasClaim(g, ByKey(g.claims)[k].supersedes))
  }

  lemma DroppedIff(g: Graph, reportIds: set<int>)
    ensures |Attached(g, reportIds)| != |Selected(g, reportIds)| <==>
      exists e :: e in g.evidence && e.reportId in reportIds && !HasClaim(g, e.claimKey)
  {
    var keep := (e: Evidence) => e.claimKey in ByKey(g.claims);
    ShorterIffDropped(keep, Selected(g, reportIds));
    forall e: Evidence ensures keep(e) <==> HasClaim(g, e.claimKey) { KnownIff(g, e.claimKey); }
    forall e ensures e in Selected(g, reportIds) <==> e in g.evidence && e.reportId in reportIds {}
  }

  lemma MissingIff(g: Graph, keys: set<string>)
    ensures MissesAncestor(ByKey(g.claims), keys) <==>
      exists k :: k in keys && k in ByKey(g.claims) && ByKey(g.claims)[k].supersedes != ""
                  && !HasClaim(g, ByKey(g.claims)[k].supersedes)
  {
    forall k ensures k in ByKey(g.claims) <==> HasClaim(g, k) { KnownIff(g, k); }
    if MissesAncestor(ByKey(g.claims), keys) {
      var k :| k in keys && HasParent(ByKey(g.claims), k) && Parent(ByKey(g.claims), k) !in ByKey(g.claims);
      assert !HasClaim(g, ByKey(g.claims)[k].supersedes);
    }
    if k :| k in keys && k in ByKey(g.claims) && ByKey(g.claims)[k].supersedes != ""
            && !HasClaim(g, ByKey(g.claims)[k].supersedes) {
      assert HasParent(ByKey(g.claims), k) && Parent(ByKey(g.claims), k) !in ByKey(g.claims);
    }
  }

  /** A frozen item holds the claims of its ancestry and the evidence of its reports, as of its time, and is marked
      truncated exactly when something is missing; it is refused for a negative time, more than 200 claims, more
      than 1000 pieces of evidence or a claim key that occurs twice. */
  lemma FrozenIsExact(g: Graph, reportIds: set<int>, asOf: int, keys: set<string>, r: Result)
    requires Freezes(g, reportIds, asOf, keys, r)
    ensures r.Snapshot? ==>
      && r.frozen.asOf == asOf
      && (forall c :: c in r.frozen.claims <==> c in g.claims && c.key in keys)
      && (forall e :: e in r.frozen.evidence <==>
            e in g.evidence && e.reportId in reportIds && HasClaim(g, e.claimKey))
      && (r.frozen.truncated <==> Incomplete(g, reportIds, keys))
    ensures r.Inconsistent? <==>
      || asOf < 0 || |Filter((c: Claim) => c.key in keys, g.claims)| > 200 || |Attached(g, reportIds)| > 1000
      || exists i, j :: 0 <= i < j < |KeptClaims(g, keys)| && KeptClaims(g, keys)[i].key == KeptClaims(g, keys)[j].key
  {
    EvidenceIsExact(g, reportIds);
    DroppedIff(g, reportIds);
    MissingIff(g, keys);
  }
}
