/** When a claim save and a correction are accepted, and exactly what each writes. */
module ClaimEffects {
  import opened Ordering
  import opened FactStore
  import opened FactCorrections
  import Graph = ClaimGraph

  /** Following pointers from the first claim leads to the second. */
  ghost predicate LeadsTo(claims: Graph.Claims, a: ClaimId, b: ClaimId) {
    exists path: seq<ClaimId> :: IsPath(claims, path, a, b)
  }

  ghost predicate IsPath(claims: Graph.Claims, path: seq<ClaimId>, a: ClaimId, b: ClaimId) {
    && path != [] && path[0] == a && path[|path| - 1] == b
    && forall i :: 0 <= i < |path| - 1 ==> path[i] in claims && claims[path[i]].supersedes == Some(path[i + 1])
  }

  lemma {:induction false} PathIsUp(claims: Graph.Claims, path: seq<ClaimId>, a: ClaimId, b: ClaimId)
    requires IsPath(claims, path, a, b)
    ensures Graph.Up(claims, a, |path| - 1) == Some(b)
    decreases |path|
  {
    if |path| > 1 {
      assert IsPath(claims, path[1..], path[1], b);
      PathIsUp(claims, path[1..], path[1], b);
    }
  }

  lemma {:induction false} UpIsPath(claims: Graph.Claims, a: ClaimId, k: nat, b: ClaimId) returns (path: seq<ClaimId>)
    requires Graph.Up(claims, a, k) == Some(b)
    ensures IsPath(claims, path, a, b)
    decreases k
  {
    if k == 0 {
      path := [a];
    } else {
      var up := claims[a].supersedes.value;
      var rest := UpIsPath(claims, up, k - 1, b);
      path := [a] + rest;
    }
  }

  lemma ReachesIsLeadsTo(claims: Graph.Claims, a: ClaimId, b: ClaimId)
    ensures Graph.Reaches(claims, a, b) <==> LeadsTo(claims, a, b)
  {
    if Graph.Reaches(claims, a, b) {
      var k: nat :| Graph.Up(claims, a, k) == Some(b);
      var path := UpIsPath(claims, a, k, b);
    }
    if LeadsTo(claims, a, b) {
      var path :| IsPath(claims, path, a, b);
      PathIsUp(claims, path, a, b);
    }
  }

  /** A save is accepted exactly when its event exists and what it supersedes, if anything, is another claim of the
      event from which no pointers lead back; each refusal names the first thing that is wrong. */
  lemma SaveAnswer(claims: Graph.Claims, events: set<nat>, d: Graph.Draft)
    ensures var answer := Graph.SaveClaim(claims, events, d).1;
      var id, parent := ClaimId(d.event, d.key), ClaimId(d.event, d.supersedes);
      && (answer == Graph.UnknownEvent <==> d.event !in events)
      && (answer == Graph.SupersedesItself <==> d.event in events && d.supersedes != "" && d.supersedes == d.key)
      && (answer == Graph.UnknownParent <==>
            d.event in events && d.supersedes != "" && d.supersedes != d.key && parent !in claims)
      && (answer == Graph.WouldFormCycle <==>
            && d.event in events && d.supersedes != "" && d.supersedes != d.key && parent in claims
            && id in claims && LeadsTo(claims, parent, id))
  {
    ReachesIsLeadsTo(claims, ClaimId(d.event, d.supersedes), ClaimId(d.event, d.key));
  }

  /** An accepted save writes its status and pointer, of a new claim without a slot or of an existing one that keeps
      its slot and producer, and marks what an active claim supersedes; no other claim changes, and a refused save
      changes none. */
  lemma SaveIsExact(claims: Graph.Claims, events: set<nat>, d: Graph.Draft)
    ensures var (r, answer) := Graph.SaveClaim(claims, events, d);
      var id, parent := ClaimId(d.event, d.key), ClaimId(d.event, d.supersedes);
      && (answer != Graph.Answer.Written ==> r == claims)
      && (answer == Graph.Answer.Written ==>
            && r.Keys == claims.Keys + {id} && r[id].status == d.status
            && r[id].supersedes == (if d.supersedes == "" then None else Some(parent))
            && r[id].slot == (if id in claims then claims[id].slot else "")
            && r[id].automatic == (id in claims && claims[id].automatic)
            && (forall c :: c in claims && c != id ==>
                  r[c] == if c == parent && d.supersedes != "" && d.status == Active
                          then claims[c].(status := FactStore.Superseded) else claims[c]))
  {
  }

  // ----- corrections ---------------------------------------------------------------------

  ghost predicate IsLive(status: ClaimStatus) { status == Active || status == Disputed }

  /** The two claims are live, of one slot that holds no other claim but superseded ones, and the new one supersedes
      nothing yet. */
  ghost predicate OnePair(st: Store, before: ClaimId, after: ClaimId) {
    && before in st.claims && after in st.claims && before != after && before.event == after.event
    && st.claims[before].slot != "" && st.claims[before].slot == st.claims[after].slot
    && IsLive(st.claims[before].status) && IsLive(st.claims[after].status) && st.claims[after].supersedes.None?
    && OthersAreSuperseded(st, before, after)
  }

  ghost predicate OthersAreSuperseded(st: Store, before: ClaimId, after: ClaimId)
    requires before in st.claims
  {
    forall c :: c in st.claims && c.event == before.event && st.claims[c].slot == st.claims[before].slot ==>
      c == before || c == after || st.claims[c].status == FactStore.Superseded
  }

  /** When a report was published; an unknown time counts as 0. */
  function TimeOf(sources: Sources, report: nat): int {
    if report !in sources.publishedAt then 0 else sources.publishedAt[report]
  }

  /** The proof is a primary report of the event that supports the new claim, and no support of the old one was
      published after it. */
  ghost predicate Proves(st: Store, sources: Sources, before: ClaimId, after: ClaimId, proof: nat) {
    && proof in st.reports && st.reports[proof].event == after.event && proof in sources.primary
    && Evidence(after, proof, Supports) in st.evidence
    && forall e :: e in st.evidence && e.claim == before && e.stance == Supports && e.report in st.reports ==>
         TimeOf(sources, e.report) <= TimeOf(sources, proof)
  }

  lemma UnsettledIff(st: Store, before: ClaimId, after: ClaimId)
    requires before in st.claims && after in st.claims && before.event == after.event
    requires st.claims[before].slot == st.claims[after].slot
    requires IsLive(st.claims[before].status) && IsLive(st.claims[after].status)
    ensures Unsettled(st, before.event, st.claims[before].slot) == {before, after} <==>
      OthersAreSuperseded(st, before, after)
  {
    var live := Unsettled(st, before.event, st.claims[before].slot);
    assert before in live && after in live;
    if OthersAreSuperseded(st, before, after) {
      forall c ensures c in live <==> c == before || c == after {}
      assert live == {before, after};
    }
    if live == {before, after} {
      forall c | c in st.claims && c.event == before.event && st.claims[c].slot == st.claims[before].slot
        ensures c == before || c == after || st.claims[c].status == FactStore.Superseded {
        assert st.claims[c].status != FactStore.Superseded ==> c in live;
      }
    }
  }

  lemma PreviewPassesIff(st: Store, r: Request, sources: Sources)
    ensures Preview(st, r, sources).None? <==>
      OnePair(st, ClaimId(r.event, r.oldKey), ClaimId(r.event, r.newKey))
      && Proves(st, sources, ClaimId(r.event, r.oldKey), ClaimId(r.event, r.newKey), r.proof)
  {
    var before, after := ClaimId(r.event, r.oldKey), ClaimId(r.event, r.newKey);
    if before in st.claims && after in st.claims && st.claims[before].slot == st.claims[after].slot
       && IsLive(st.claims[before].status) && IsLive(st.claims[after].status) {
      UnsettledIff(st, before, after);
    }
  }

  /** A correction is applied exactly when the pair was not corrected before, fits one slot, is proved, is seen as
      it is and its notice can be queued; then the old claim is superseded, the new one is active and points at it,
      and the proof is recorded. Nothing else changes, and any other answer changes nothing. */
  lemma CorrectionIsExact(s: State, r: Request, sources: Sources)
    ensures var (after, verdict) := Confirm(s, r, sources);
      var old_, new_ := ClaimId(r.event, r.oldKey), ClaimId(r.event, r.newKey);
      && (verdict == Applied <==>
            && (old_, new_) !in s.corrected && OnePair(s.store, old_, new_)
            && Proves(s.store, sources, old_, new_, r.proof) && r.current && r.queued)
      && (verdict == AlreadyApplied <==> (old_, new_) in s.corrected && s.corrected[(old_, new_)] == r.proof)
      && (verdict == OtherProof <==> (old_, new_) in s.corrected && s.corrected[(old_, new_)] != r.proof)
      && (verdict != Applied ==> after == s)
      && (verdict == Applied ==>
            && after.corrected == s.corrected[(old_, new_) := r.proof]
            && after.store == s.store.(claims := after.store.claims) && after.store.claims.Keys == s.store.claims.Keys
            && after.store.claims[old_] == s.store.claims[old_].(status := FactStore.Superseded)
            && after.store.claims[new_] == s.store.claims[new_].(status := Active, supersedes := Some(old_))
            && forall c :: c in s.store.claims && c != old_ && c != new_ ==>
                 after.store.claims[c] == s.store.claims[c])
  {
    PreviewPassesIff(s.store, r, sources);
  }
}
