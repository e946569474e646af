/** What each transaction on the facts does to every row, and what it leaves alone. */
module FactEffects {
  import opened Ordering
  import opened FactStore

  // ----- detaching reports ---------------------------------------------------------------

  /** The row is automatic and rests on one of the reports. */
  ghost predicate Withdrawn(st: Store, ids: set<nat>, e: Evidence) {
    e in st.evidence && st.evidence[e] && e.report in ids
  }

  ghost predicate Rests(evidence: map<Evidence, bool>, c: ClaimId) { exists e :: e in evidence && e.claim == c }

  /** Some claim of the slot loses a row. */
  ghost predicate SlotLoses(st: Store, ids: set<nat>, event: nat, slot: string) {
    exists e ::
      Withdrawn(st, ids, e) && e.claim in st.claims && e.claim.event == event && st.claims[e.claim].slot == slot
  }

  /** Another automatic claim of the slot is not superseded. */
  ghost predicate HasRival(claims: map<ClaimId, ClaimRow>, c: ClaimId)
    requires c in claims
  {
    exists d :: d in claims && d != c && d.event == c.event && claims[d].slot == claims[c].slot && claims[d].automatic
                && claims[d].status != Superseded
  }

  lemma DetachedEvidence(st: Store, ids: set<nat>, now: int)
    ensures var r := Detach(st, ids, now);
      && r.reports == st.reports
      && forall e :: (e in r.evidence <==> e in st.evidence && !Withdrawn(st, ids, e))
                     && (e in r.evidence ==> r.evidence[e] == st.evidence[e])
  {
  }

  lemma DetachedClaims(st: Store, ids: set<nat>, now: int)
    ensures var r := Detach(st, ids, now);
      && (forall c :: c in r.claims <==> c in st.claims && (!st.claims[c].automatic || Rests(r.evidence, c)))
      && (forall c :: c in r.claims ==>
            && r.claims[c].slot == st.claims[c].slot && r.claims[c].automatic == st.claims[c].automatic
            && r.claims[c].supersedes ==
                 if st.claims[c].supersedes.Some? && st.claims[c].supersedes.value !in r.claims then None
                 else st.claims[c].supersedes)
  {
    var stripped := Strip(st, ids, now);
    ReconcileAt(stripped, Named(Affected(st, ids)));
    forall c ensures Supported(stripped.evidence, c) <==> Rests(stripped.evidence, c) {}
  }

  lemma DetachedJobs(st: Store, ids: set<nat>, now: int)
    ensures var r := Detach(st, ids, now);
      && r.jobs.Keys == st.jobs.Keys
      && forall j :: j in st.jobs ==>
           r.jobs[j] == if j.report in ids then Job(Pending, 0, now, None, 0) else st.jobs[j]
  {
  }

  lemma AffectedIff(st: Store, ids: set<nat>, event: nat, slot: string)
    ensures (event, slot) in Affected(st, ids) <==> SlotLoses(st, ids, event, slot)
  {
    if SlotLoses(st, ids, event, slot) {
      var e :| Withdrawn(st, ids, e) && e.claim in st.claims && e.claim.event == event
               && st.claims[e.claim].slot == slot;
      assert Loses(e, st.evidence[e], ids);
    }
  }

  lemma SomeOther(s: set<ClaimId>, c: ClaimId)
    requires c in s
    ensures |s| > 1 <==> exists d :: d in s && d != c
  {
    var rest := s - {c};
    assert s == rest + {c};
    if |s| > 1 {
      assert rest != {};
      var d :| d in rest;
    }
  }

  lemma RivalsAreLive(st: Store, c: ClaimId)
    requires c in st.claims && InSlot(st.claims, c, c.event, st.claims[c].slot)
    requires forall d :: d in st.claims && st.claims[d].automatic ==> Supported(st.evidence, d)
    ensures |Live(st, c.event, st.claims[c].slot)| > 1 <==> HasRival(st.claims, c)
  {
    var live := Live(st, c.event, st.claims[c].slot);
    assert Supported(st.evidence, c) && c in live;
    SomeOther(live, c);
    if HasRival(st.claims, c) {
      var d :| d in st.claims && d != c && d.event == c.event && st.claims[d].slot == st.claims[c].slot
               && st.claims[d].automatic && st.claims[d].status != Superseded;
      assert Supported(st.evidence, d) && d in live;
    }
  }

  /** The statuses after a detach: a claim is settled anew exactly where its slot lost a row. */
  lemma DetachedStatus(st: Store, ids: set<nat>, now: int, c: ClaimId)
    requires c in Detach(st, ids, now).claims
    ensures var r := Detach(st, ids, now);
      c in st.claims && r.claims[c].status ==
        if st.claims[c].automatic && st.claims[c].status != Superseded && st.claims[c].slot != ""
           && SlotLoses(st, ids, c.event, st.claims[c].slot)
        then (if HasRival(r.claims, c) then Disputed else Active)
        else st.claims[c].status
  {
    var stripped, slots := Strip(st, ids, now), Named(Affected(st, ids));
    var r := Detach(st, ids, now);
    ReconcileAt(stripped, slots);
    ReconcileFacts(stripped, slots);
    AffectedIff(st, ids, c.event, st.claims[c].slot);
    if InSlot(stripped.claims, c, c.event, st.claims[c].slot) && (c.event, st.claims[c].slot) in slots {
      forall d | d in stripped.claims && stripped.claims[d].automatic ensures Supported(stripped.evidence, d) {}
      RivalsAreLive(stripped, c);
      RivalsSurvive(stripped, r, c);
    }
  }

  lemma RivalsSurvive(a: Store, b: Store, c: ClaimId)
    requires c in a.claims && a.claims.Keys == b.claims.Keys
    requires forall d :: d in a.claims ==>
      && b.claims[d].slot == a.claims[d].slot && b.claims[d].automatic == a.claims[d].automatic
      && (b.claims[d].status == Superseded <==> a.claims[d].status == Superseded)
    ensures HasRival(a.claims, c) <==> HasRival(b.claims, c)
  {
  }

  /** Detaching reports removes exactly the automatic rows that rest on them, then exactly the automatic claims left
      without any row and the pointers to those; it settles the slots that lost a row and no other, and only the
      jobs of these reports start over. */
  lemma DetachIsExact(st: Store, ids: set<nat>, now: int)
    ensures var r := Detach(st, ids, now);
      && r.reports == st.reports
      && (forall e :: (e in r.evidence <==> e in st.evidence && !(st.evidence[e] && e.report in ids))
                      && (e in r.evidence ==> r.evidence[e] == st.evidence[e]))
      && (forall c :: c in r.claims <==> c in st.claims && (!st.claims[c].automatic || Rests(r.evidence, c)))
      && (forall c :: c in r.claims ==>
            && r.claims[c].slot == st.claims[c].slot && r.claims[c].automatic == st.claims[c].automatic
            && r.claims[c].supersedes ==
                 if st.claims[c].supersedes.Some? && st.claims[c].supersedes.value !in r.claims then None
                 else st.claims[c].supersedes)
      && (forall c :: c in r.claims ==>
            r.claims[c].status ==
              if st.claims[c].automatic && st.claims[c].status != Superseded && st.claims[c].slot != ""
                 && SlotLoses(st, ids, c.event, st.claims[c].slot)
              then (if HasRival(r.claims, c) then Disputed else Active)
              else st.claims[c].status)
      && r.jobs.Keys == st.jobs.Keys
      && (forall j :: j in st.jobs ==>
            r.jobs[j] == if j.report in ids then Job(Pending, 0, now, None, 0) else st.jobs[j])
  {
    DetachedEvidence(st, ids, now);
    DetachedClaims(st, ids, now);
    DetachedJobs(st, ids, now);
    forall c | c in Detach(st, ids, now).claims { DetachedStatus(st, ids, now, c); }
  }

  /** What settled means for one claim: in a valid store an automatic claim that is not superseded is disputed exactly
      when its slot holds another one. */
  lemma DisputedIffRival(st: Store, c: ClaimId)
    requires Valid(st) && c in st.claims && st.claims[c].automatic && st.claims[c].status != Superseded
    ensures st.claims[c].status == if HasRival(st.claims, c) then Disputed else Active
  {
    assert SlotAgrees(st, c.event, st.claims[c].slot);
    assert InSlot(st.claims, c, c.event, st.claims[c].slot);
    RivalsAreLive(st, c);
  }

  // ----- a completed extraction ----------------------------------------------------------

  /** The work still holds the lease it was given. */
  ghost predicate HasLease(st: Store, w: Work) {
    var id := JobId(w.report, w.version);
    id in st.jobs && st.jobs[id].status == Leased && st.jobs[id].token == Some(w.token)
  }

  ghost predicate Unchanged(st: Store, w: Work) {
    w.report in st.reports && st.reports[w.report].event == w.event && st.reports[w.report].content == w.content
  }

  /** Some fact has the key of a manual claim of the event. */
  ghost predicate Collides(st: Store, event: nat, facts: seq<Fact>) {
    exists i :: 0 <= i < |facts| && KeyIsManual(st, event, facts[i])
  }

  ghost predicate KeyIsManual(st: Store, event: nat, f: Fact) {
    ClaimId(event, f.key) in st.claims && !st.claims[ClaimId(event, f.key)].automatic
  }

  ghost predicate Brings(event: nat, facts: seq<Fact>, c: ClaimId) {
    c.event == event && exists i :: 0 <= i < |facts| && facts[i].key == c.key
  }

  /** The first fact with the key of the claim has this slot. */
  ghost predicate FirstSlot(facts: seq<Fact>, key: string, slot: string) {
    exists i :: 0 <= i < |facts| && facts[i] == Fact(key, slot) && forall j :: 0 <= j < i ==> facts[j].key != key
  }

  ghost predicate Adds(st: Store, r: Store, event: nat, report: nat, facts: seq<Fact>) {
    && r.jobs == st.jobs && r.reports == st.reports
    && (forall c :: c in r.claims <==> c in st.claims || Brings(event, facts, c))
    && (forall c :: c in st.claims ==> r.claims[c] == st.claims[c])
    && (forall c :: c in r.claims && c !in st.claims ==>
          && r.claims[c].automatic && r.claims[c].status == Active && r.claims[c].supersedes.None?
          && FirstSlot(facts, c.key, r.claims[c].slot))
    && (forall e :: e in r.evidence <==>
          e in st.evidence || (e.report == report && e.stance == Supports && Brings(event, facts, e.claim)))
    && (forall e :: e in r.evidence ==> r.evidence[e] == if e in st.evidence then st.evidence[e] else true)
  }

  lemma AddsOneMore(st: Store, next: Store, r: Store, event: nat, report: nat, facts: seq<Fact>)
    requires facts != [] && SaveFact(st, event, report, facts[0]) == Some(next)
    requires Adds(next, r, event, report, facts[1..])
    ensures Adds(st, r, event, report, facts)
  {
    var rest, first := facts[1..], ClaimId(event, facts[0].key);
    forall c ensures Brings(event, facts, c) <==> c == first || Brings(event, rest, c) {
      if Brings(event, facts, c) && c != first {
        var i :| 0 <= i < |facts| && facts[i].key == c.key;
        assert rest[i - 1].key == c.key;
      }
      if Brings(event, rest, c) {
        var i :| 0 <= i < |rest| && rest[i].key == c.key;
        assert facts[i + 1].key == c.key;
      }
      assert facts[0].key == first.key;
    }
    forall c | c in r.claims && c !in st.claims ensures FirstSlot(facts, c.key, r.claims[c].slot) {
      if c == first {
        assert facts[0] == Fact(c.key, r.claims[c].slot);
      } else {
        var i :| 0 <= i < |rest| && rest[i] == Fact(c.key, r.claims[c].slot)
                 && forall j :: 0 <= j < i ==> rest[j].key != c.key;
        assert facts[i + 1] == rest[i];
        forall j | 0 <= j < i + 1 ensures facts[j].key != c.key {
          if j > 0 { assert facts[j] == rest[j - 1]; } else { assert c != first; }
        }
      }
    }
  }

  lemma AddsNothing(st: Store, event: nat, report: nat)
    ensures Adds(st, st, event, report, [])
  {
  }

  lemma {:induction false} SavedFactsAreExact(st: Store, event: nat, report: nat, facts: seq<Fact>)
    ensures SaveFacts(st, event, report, facts).None? <==> Collides(st, event, facts)
    ensures SaveFacts(st, event, report, facts).Some? ==>
      Adds(st, SaveFacts(st, event, report, facts).value, event, report, facts)
    decreases |facts|
  {
    if facts == [] {
      AddsNothing(st, event, report);
    } else if KeyIsManual(st, event, facts[0]) {
      assert Collides(st, event, facts);
    } else {
      var next := SaveFact(st, event, report, facts[0]).value;
      SavedFactsAreExact(next, event, report, facts[1..]);
      CollidesLater(st, next, event, report, facts);
      if SaveFacts(next, event, report, facts[1..]).Some? {
        AddsOneMore(st, next, SaveFacts(next, event, report, facts[1..]).value, event, report, facts);
      }
    }
  }

  lemma CollidesLater(st: Store, next: Store, event: nat, report: nat, facts: seq<Fact>)
    requires facts != [] && SaveFact(st, event, report, facts[0]) == Some(next)
    ensures Collides(st, event, facts) <==> Collides(next, event, facts[1..])
  {
    var rest := facts[1..];
    forall f ensures KeyIsManual(st, event, f) <==> KeyIsManual(next, event, f) {}
    if Collides(st, event, facts) {
      var i :| 0 <= i < |facts| && KeyIsManual(st, event, facts[i]);
      assert rest[i - 1] == facts[i];
    }
    if Collides(next, event, rest) {
      var i :| 0 <= i < |rest| && KeyIsManual(next, event, rest[i]);
      assert facts[i + 1] == rest[i];
    }
  }

  /** Which answer a finished extraction gets. */
  lemma CompletionAnswer(st: Store, w: Work, facts: seq<Fact>, now: int)
    ensures var outcome := Complete(st, w, facts, now).1;
      && (outcome == LeaseLost <==> !HasLease(st, w))
      && (outcome == ReportChanged <==> HasLease(st, w) && !Unchanged(st, w))
      && (outcome == KeyCollision <==> HasLease(st, w) && Unchanged(st, w) && Collides(st, w.event, facts))
      && (outcome == Done <==> HasLease(st, w) && Unchanged(st, w) && !Collides(st, w.event, facts))
  {
    SavedFactsAreExact(st, w.event, w.report, facts);
  }

  /** A refused extraction writes no fact; only a changed report sends its job back to be tried at once. */
  lemma RefusedCompletionWritesNothing(st: Store, w: Work, facts: seq<Fact>, now: int)
    requires Complete(st, w, facts, now).1 != Done
    ensures var (r, outcome) := Complete(st, w, facts, now); var id := JobId(w.report, w.version);
      && r.reports == st.reports && r.claims == st.claims && r.evidence == st.evidence && r.jobs.Keys == st.jobs.Keys
      && (forall j :: j in st.jobs && j != id ==> r.jobs[j] == st.jobs[j])
      && (outcome != ReportChanged ==> r.jobs == st.jobs)
      && (outcome == ReportChanged ==>
            id in r.jobs && r.jobs[id] == st.jobs[id].(status := Retry, token := None, nextAttemptAt := now))
  {
  }

  /** The facts of a slot were brought. */
  ghost predicate BringsSlot(event: nat, facts: seq<Fact>, e: nat, slot: string) {
    e == event && exists i :: 0 <= i < |facts| && facts[i].slot == slot
  }

  lemma SlotsAreBrought(event: nat, facts: seq<Fact>, e: nat, slot: string)
    ensures (e, slot) in SlotsOf(event, facts) <==> BringsSlot(event, facts, e, slot)
  {
    if i :| e == event && 0 <= i < |facts| && facts[i].slot == slot {
      assert facts[i] in facts;
    }
  }

  /** A finished extraction adds exactly its facts, each supported by the report: a claim that exists already keeps
      its row, a new one is automatic, points nowhere and has the slot of the first fact with its key; only slots of
      these facts are settled again, and of the jobs only this one changes, to completed without a lease. */
  lemma CompletionIsExact(st: Store, w: Work, facts: seq<Fact>, now: int)
    requires Complete(st, w, facts, now).1 == Done
    ensures var r := Complete(st, w, facts, now).0; var id := JobId(w.report, w.version);
      && r.reports == st.reports
      && (forall c :: c in r.claims <==> c in st.claims || Brings(w.event, facts, c))
      && (forall c :: c in st.claims ==>
            && r.claims[c].slot == st.claims[c].slot && r.claims[c].automatic == st.claims[c].automatic
            && r.claims[c].supersedes == st.claims[c].supersedes
            && (!BringsSlot(w.event, facts, c.event, st.claims[c].slot) ==> r.claims[c].status == st.claims[c].status)
            && (r.claims[c].status == Superseded <==> st.claims[c].status == Superseded)
            && (!st.claims[c].automatic ==> r.claims[c].status == st.claims[c].status))
      && (forall c :: c in r.claims && c !in st.claims ==>
            r.claims[c].automatic && r.claims[c].supersedes.None? && FirstSlot(facts, c.key, r.claims[c].slot))
      && (forall e :: e in r.evidence <==>
            e in st.evidence || (e.report == w.report && e.stance == Supports && Brings(w.event, facts, e.claim)))
      && (forall e :: e in r.evidence ==> r.evidence[e] == if e in st.evidence then st.evidence[e] else true)
      && id in st.jobs && r.jobs.Keys == st.jobs.Keys
      && r.jobs[id] == st.jobs[id].(status := Completed, token := None)
      && (forall j :: j in st.jobs && j != id ==> r.jobs[j] == st.jobs[j])
  {
    SavedFactsAreExact(st, w.event, w.report, facts);
    var saved := SaveFacts(st, w.event, w.report, facts).value;
    ReconcileAt(saved, SlotsOf(w.event, facts));
    forall e: nat, slot ensures (e, slot) in SlotsOf(w.event, facts) <==> BringsSlot(w.event, facts, e, slot) {
      SlotsAreBrought(w.event, facts, e, slot);
    }
  }

  // ----- leases --------------------------------------------------------------------------

  /** Half a minute after the first attempt, twice as long after each further one, an hour at most. */
  lemma DelayDoubles(attempts: nat)
    ensures attempts <= 1 ==> RetryDelay(attempts) == 30
    ensures attempts >= 1 ==>
      RetryDelay(attempts + 1) == if 2 * RetryDelay(attempts) < 3600 then 2 * RetryDelay(attempts) else 3600
  {
  }

  /** A failure reported under the lease gives the job up after five attempts and otherwise has it wait; no other
      job and no fact is touched, and without the lease nothing is. */
  lemma FailureIsExact(st: Store, w: Work, now: int)
    ensures var (r, outcome) := Fail(st, w, now); var id := JobId(w.report, w.version);
      && (outcome == Done <==> HasLease(st, w)) && (outcome == LeaseLost <==> !HasLease(st, w))
      && r.reports == st.reports && r.claims == st.claims && r.evidence == st.evidence && r.jobs.Keys == st.jobs.Keys
      && (forall j :: j in st.jobs && (j != id || !HasLease(st, w)) ==> r.jobs[j] == st.jobs[j])
      && (HasLease(st, w) ==>
            && id in r.jobs && r.jobs[id].token.None? && r.jobs[id].attempts == st.jobs[id].attempts
            && r.jobs[id].status == (if st.jobs[id].attempts >= 5 then Dead else Retry)
            && r.jobs[id].nextAttemptAt == now + RetryDelay(st.jobs[id].attempts))
  {
  }

  /** Waiting for its time, which has come. */
  ghost predicate IsDue(jobs: map<JobId, Job>, version: int, now: int, id: JobId) {
    && id in jobs && id.version == version && jobs[id].nextAttemptAt <= now
    && jobs[id].status in {Pending, Retry}
  }

  lemma DueIff(jobs: map<JobId, Job>, version: int, now: int, id: JobId)
    ensures DueJob(jobs, version, now, id) <==> IsDue(jobs, version, now, id)
  {
  }

  /** Leases of the version that ran out are taken back and may be tried at once; a new lease counts an attempt and
      runs for the time asked. */
  lemma LeasesAreExact(jobs: map<JobId, Job>, version: int, now: int, seconds: int, token: int)
    ensures var r := Expire(jobs, version, now);
      && r.Keys == jobs.Keys
      && forall j :: j in jobs ==>
           r[j] == if j.version == version && jobs[j].status == Leased && now >= jobs[j].leaseUntil
                   then jobs[j].(status := Retry, token := None, nextAttemptAt := now) else jobs[j]
    ensures forall id :: id in jobs ==>
      var r := LeaseJob(jobs, id, now, seconds, token);
      && r.Keys == jobs.Keys && (forall j :: j in jobs && j != id ==> r[j] == jobs[j])
      && r[id].status == Leased && r[id].token == Some(token) && r[id].leaseUntil == now + seconds
      && r[id].attempts == jobs[id].attempts + 1 && r[id].nextAttemptAt == jobs[id].nextAttemptAt
  {
  }

  /** Of two due jobs the one that has waited longer goes first, of equals the one of the smaller report. */
  lemma LongestWaitGoesFirst(jobs: map<JobId, Job>, a: JobId, b: JobId)
    requires a in jobs && b in jobs && DueBefore(jobs, a, b) && a.report != b.report
    ensures jobs[a].nextAttemptAt < jobs[b].nextAttemptAt
         || (jobs[a].nextAttemptAt == jobs[b].nextAttemptAt && a.report < b.report)
  {
  }

  /** A job is enrolled exactly for the reports that have none and either came after the first claim of the version
      or were stored no earlier than it; the hundred with the smallest ids at a time. */
  lemma EnrolmentIsExact(h: History, reports: set<nat>, created: map<nat, int>, jobs: map<JobId, Job>, version: int,
                         r: nat)
    ensures JobId(r, version) in FirstMissing(h, reports, created, jobs, version) <==>
      && r in reports && JobId(r, version) !in jobs && (r in h.reports ==> r in created && h.createdAt <= created[r])
      && |set q | q in Missing(h, reports, created, jobs, version) && q < r| < 100
    ensures forall ids: set<JobId>, now: int :: ids !! jobs.Keys ==>
      var after := Enrol(jobs, ids, now);
      && after.Keys == jobs.Keys + ids && (forall j :: j in jobs ==> after[j] == jobs[j])
      && forall j :: j in ids ==> after[j] == Job(Pending, 0, now, None, 0)
  {
    assert Below(Missing(h, reports, created, jobs, version), r)
        == set q | q in Missing(h, reports, created, jobs, version) && q < r;
  }
}
