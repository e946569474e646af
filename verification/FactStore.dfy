/** Automatic facts of events: leased extraction jobs, claims with their evidence, and the slots in which
    competing claims dispute each other. A claim is identified by its event and key, which are unique. */
module FactStore {
  import opened Ordering

  datatype ClaimStatus = Active | Disputed | Superseded
  datatype Stance = Supports | Refutes | Contextual
  datatype ClaimId = ClaimId(event: nat, key: string)
  datatype ClaimRow = ClaimRow(slot: string, automatic: bool, status: ClaimStatus, supersedes: Option<ClaimId>)
  datatype Evidence = Evidence(claim: ClaimId, report: nat, stance: Stance)

  datatype JobStatus = Pending | Retry | Leased | Completed | Dead
  datatype JobId = JobId(report: nat, version: int)
  datatype Job = Job(status: JobStatus, attempts: nat, nextAttemptAt: int, token: Option<int>, leaseUntil: int)

  /** The part of a report row that a worker compares before it writes. */
  datatype Report = Report(event: nat, content: int)

  /** `evidence` maps a row to whether the extractor produced it. */
  datatype Store = Store(reports: map<nat, Report>, claims: map<ClaimId, ClaimRow>, evidence: map<Evidence, bool>,
                         jobs: map<JobId, Job>)

  datatype Fact = Fact(key: string, slot: string)
  datatype Work = Work(report: nat, version: int, event: nat, content: int, token: int)

  // ----- facts and slots -----------------------------------------------------------------

  predicate Supported(evidence: map<Evidence, bool>, c: ClaimId) {
    exists e :: e in evidence && e.claim == c
  }

  predicate InSlot(claims: map<ClaimId, ClaimRow>, c: ClaimId, event: nat, slot: string) {
    c in claims && c.event == event && claims[c].slot == slot && claims[c].automatic && claims[c].status != Superseded
  }

  /** Claims of a slot that are not superseded and have evidence. */
  function Live(st: Store, event: nat, slot: string): set<ClaimId> {
    set c | c in st.claims && InSlot(st.claims, c, event, slot) && Supported(st.evidence, c)
  }

  function StatusOf(st: Store, event: nat, slot: string): ClaimStatus {
    if |Live(st, event, slot)| > 1 then Disputed else Active
  }

  /** Gives every claim of the slots the status that the number of live claims implies. */
  function Reconcile(st: Store, slots: set<(nat, string)>): Store {
    st.(claims := map c | c in st.claims ::
          if (c.event, st.claims[c].slot) in slots && InSlot(st.claims, c, c.event, st.claims[c].slot)
          then st.claims[c].(status := StatusOf(st, c.event, st.claims[c].slot)) else st.claims[c])
  }

  /** Upserts one claim and its supporting row; None when the key belongs to a manual claim. */
  function SaveFact(st: Store, event: nat, report: nat, f: Fact): Option<Store> {
    var c := ClaimId(event, f.key);
    if c in st.claims && !st.claims[c].automatic then None
    else
      var e := Evidence(c, report, Supports);
      Some(st.(claims := if c in st.claims then st.claims else st.claims[c := ClaimRow(f.slot, true, Active, None)],
               evidence := if e in st.evidence then st.evidence else st.evidence[e := true]))
  }

  function SaveFacts(st: Store, event: nat, report: nat, facts: seq<Fact>): Option<Store>
    decreases |facts|
  {
    if facts == [] then Some(st)
    else
      var next := SaveFact(st, event, report, facts[0]);
      if next.None? then None else SaveFacts(next.value, event, report, facts[1..])
  }

  function SlotsOf(event: nat, facts: seq<Fact>): set<(nat, string)> {
    set f | f in facts :: (event, f.slot)
  }

  // ----- transactions --------------------------------------------------------------------

  predicate Holds(jobs: map<JobId, Job>, w: Work) {
    var id := JobId(w.report, w.version);
    id in jobs && jobs[id].status == Leased && jobs[id].token == Some(w.token)
  }

  function Release(j: Job, status: JobStatus, next: int): Job {
    j.(status := status, token := None, nextAttemptAt := next)
  }

  datatype Outcome = Done | LeaseLost | ReportChanged | KeyCollision

  /** A worker hands in its facts. */
  function Complete(st: Store, w: Work, facts: seq<Fact>, now: int): (Store, Outcome) {
    var id := JobId(w.report, w.version);
    if !Holds(st.jobs, w) then (st, LeaseLost)
    else if w.report !in st.reports || st.reports[w.report] != Report(w.event, w.content) then
      (st.(jobs := st.jobs[id := Release(st.jobs[id], Retry, now)]), ReportChanged)
    else
      var saved := SaveFacts(st, w.event, w.report, facts);
      if saved.None? then (st, KeyCollision)
      else
        var settled := Reconcile(saved.value, SlotsOf(w.event, facts));
        (settled.(jobs := st.jobs[id := Release(st.jobs[id], Completed, st.jobs[id].nextAttemptAt)]), Done)
  }

  function Power2(n: nat): nat { if n == 0 then 1 else 2 * Power2(n - 1) }

  function RetryDelay(attempts: nat): nat {
    var delay := 30 * Power2(if attempts == 0 then 0 else attempts - 1);
    if delay < 3600 then delay else 3600
  }

  function Fail(st: Store, w: Work, now: int): (Store, Outcome) {
    var id := JobId(w.report, w.version);
    if !Holds(st.jobs, w) then (st, LeaseLost)
    else
      var j := st.jobs[id];
      (st.(jobs := st.jobs[id := Release(j, if j.attempts >= 5 then Dead else Retry, now + RetryDelay(j.attempts))]),
        Done)
  }

  predicate Loses(e: Evidence, automatic: bool, ids: set<nat>) { automatic && e.report in ids }

  /** Slots in which some claim loses evidence when the reports `ids` are detached. */
  function Affected(st: Store, ids: set<nat>): set<(nat, string)> {
    set e | e in st.evidence && Loses(e, st.evidence[e], ids) && e.claim in st.claims ::
      (e.claim.event, st.claims[e.claim].slot)
  }

  /** Removes the automatic evidence of the reports, the automatic claims left without any, the pointers
      to those, and every lease on the reports. */
  function Strip(st: Store, ids: set<nat>, now: int): Store {
    var evidence := map e | e in st.evidence && !Loses(e, st.evidence[e], ids) :: st.evidence[e];
    var kept := set c | c in st.claims && (!st.claims[c].automatic || Supported(evidence, c));
    st.(evidence := evidence,
        claims := map c | c in kept ::
          if st.claims[c].supersedes.Some? && st.claims[c].supersedes.value !in kept
          then st.claims[c].(supersedes := None) else st.claims[c],
        jobs := map j | j in st.jobs ::
          if j.report in ids then Job(Pending, 0, now, None, 0) else st.jobs[j])
  }

  function Named(slots: set<(nat, string)>): set<(nat, string)> {
    set s | s in slots && s.1 != ""
  }

  /** Detaches reports: strips them and settles the affected slots again. */
  function Detach(st: Store, ids: set<nat>, now: int): Store {
    Reconcile(Strip(st, ids, now), Named(Affected(st, ids)))
  }

  function Expire(jobs: map<JobId, Job>, version: int, now: int): map<JobId, Job> {
    map j | j in jobs ::
      if j.version == version && jobs[j].status == Leased && jobs[j].leaseUntil <= now then Release(jobs[j], Retry, now)
        else jobs[j]
  }

  predicate DueJob(jobs: map<JobId, Job>, version: int, now: int, id: JobId) {
    id in jobs && id.version == version && (jobs[id].status == Pending || jobs[id].status == Retry)
      && jobs[id].nextAttemptAt <= now
  }

  function LeaseJob(jobs: map<JobId, Job>, id: JobId, now: int, seconds: int, token: int): map<JobId, Job>
    requires id in jobs
  {
    jobs[id := jobs[id].(status := Leased, attempts := jobs[id].attempts + 1, token := Some(token),
      leaseUntil := now + seconds)]
  }

  // ----- the slot invariant --------------------------------------------------------------

  ghost predicate EveryFactSupported(st: Store) {
    forall c :: c in st.claims && st.claims[c].automatic ==> Supported(st.evidence, c) && st.claims[c].slot != ""
  }

  /** All claims of the slot that are not superseded share one status: disputed exactly when there are at
      least two of them with evidence. */
  ghost predicate SlotAgrees(st: Store, event: nat, slot: string) {
    forall c :: InSlot(st.claims, c, event, slot) ==> st.claims[c].status == StatusOf(st, event, slot)
  }

  ghost predicate Valid(st: Store) {
    EveryFactSupported(st) && forall event: nat, slot :: SlotAgrees(st, event, slot)
  }

  lemma ReconcileFacts(st: Store, slots: set<(nat, string)>)
    ensures var r := Reconcile(st, slots);
      && (EveryFactSupported(st) ==> EveryFactSupported(r))
      && (forall e: nat, s :: Live(r, e, s) == Live(st, e, s))
      && (forall e: nat, s :: (e, s) in slots || SlotAgrees(st, e, s) ==> SlotAgrees(r, e, s))
  {
    var r := Reconcile(st, slots);
    assert forall c, e: nat, s :: InSlot(r.claims, c, e, s) <==> InSlot(st.claims, c, e, s);
    forall e: nat, s ensures Live(r, e, s) == Live(st, e, s) {}
    forall e: nat, s | (e, s) in slots || SlotAgrees(st, e, s) ensures SlotAgrees(r, e, s) {
      forall c | InSlot(r.claims, c, e, s) ensures r.claims[c].status == StatusOf(r, e, s) {
        assert InSlot(st.claims, c, e, s);
        assert Live(r, e, s) == Live(st, e, s);
      }
    }
  }

  lemma ReconcileMakesValid(st: Store, slots: set<(nat, string)>)
    requires EveryFactSupported(st)
    requires forall e: nat, s :: (e, s) in slots || SlotAgrees(st, e, s)
    ensures Valid(Reconcile(st, slots))
  {
    ReconcileFacts(st, slots);
  }

  /** Saving a fact disturbs at most the fact's own slot. */
  lemma SaveFactFacts(st: Store, event: nat, report: nat, f: Fact)
    requires EveryFactSupported(st) && f.slot != "" && SaveFact(st, event, report, f).Some?
    ensures var r := SaveFact(st, event, report, f).value;
      && EveryFactSupported(r)
      && (forall e: nat, s :: (e, s) != (event, f.slot) && SlotAgrees(st, e, s) ==> SlotAgrees(r, e, s))
  {
    var r := SaveFact(st, event, report, f).value;
    var id := ClaimId(event, f.key);
    var row := Evidence(id, report, Supports);
    assert row in r.evidence;
    forall c | c in r.claims && r.claims[c].automatic ensures Supported(r.evidence, c) && r.claims[c].slot != "" {
      if c == id {
        assert row.claim == id;
      } else {
        var e :| e in st.evidence && e.claim == c;
        assert e in r.evidence;
      }
    }
    forall e: nat, s | (e, s) != (event, f.slot) && SlotAgrees(st, e, s) ensures SlotAgrees(r, e, s) {
      assert Live(r, e, s) == Live(st, e, s) by {
        forall c | InSlot(st.claims, c, e, s) ensures Supported(st.evidence, c) && Supported(r.evidence, c) {
          var x :| x in st.evidence && x.claim == c;
          assert x in r.evidence;
        }
        assert forall c :: InSlot(r.claims, c, e, s) <==> InSlot(st.claims, c, e, s);
      }
    }
  }

  lemma {:induction false} SaveFactsFacts(st: Store, event: nat, report: nat, facts: seq<Fact>)
    requires EveryFactSupported(st) && (forall f :: f in facts ==> f.slot != "")
    requires SaveFacts(st, event, report, facts).Some?
    ensures var r := SaveFacts(st, event, report, facts).value;
      && EveryFactSupported(r)
      && (forall e: nat, s :: (e, s) !in SlotsOf(event, facts) && SlotAgrees(st, e, s) ==> SlotAgrees(r, e, s))
      && r.jobs == st.jobs && r.reports == st.reports
    decreases |facts|
  {
    if facts != [] {
      assert facts[0] in facts;
      SaveFactFacts(st, event, report, facts[0]);
      var next := SaveFact(st, event, report, facts[0]).value;
      SaveFactsFacts(next, event, report, facts[1..]);
      assert facts == [facts[0]] + facts[1..];
      assert SlotsOf(event, facts) == SlotsOf(event, facts[1..]) + {(event, facts[0].slot)};
    }
  }

  lemma CompleteKeepsValid(st: Store, w: Work, facts: seq<Fact>, now: int)
    requires Valid(st) && forall f :: f in facts ==> f.slot != ""
    ensures Valid(Complete(st, w, facts, now).0)
  {
    var (r, outcome) := Complete(st, w, facts, now);
    if outcome == Done {
      SaveFactsFacts(st, w.event, w.report, facts);
      var saved := SaveFacts(st, w.event, w.report, facts).value;
      ReconcileMakesValid(saved, SlotsOf(w.event, facts));
      SameFactsValid(Reconcile(saved, SlotsOf(w.event, facts)), r);
    } else {
      SameFactsValid(st, r);
    }
  }

  /** Validity looks at claims and evidence only. */
  lemma SameFactsValid(a: Store, b: Store)
    requires Valid(a) && a.claims == b.claims && a.evidence == b.evidence
    ensures Valid(b)
  {
    forall event: nat, slot ensures SlotAgrees(b, event, slot) {
      assert SlotAgrees(a, event, slot);
      assert Live(a, event, slot) == Live(b, event, slot);
    }
  }

  lemma FailKeepsValid(st: Store, w: Work, now: int)
    requires Valid(st)
    ensures Valid(Fail(st, w, now).0)
  {
    SameFactsValid(st, Fail(st, w, now).0);
  }

  /** Stripping reports disturbs at most the affected slots. */
  lemma StripFacts(st: Store, ids: set<nat>, now: int)
    requires Valid(st)
    ensures var r := Strip(st, ids, now);
      && EveryFactSupported(r)
      && (forall e: nat, s :: (e, s) in Named(Affected(st, ids)) || SlotAgrees(r, e, s))
  {
    var r := Strip(st, ids, now);
    forall e: nat, s ensures (e, s) in Named(Affected(st, ids)) || SlotAgrees(r, e, s) {
      if s != "" && (e, s) !in Affected(st, ids) {
        assert SlotAgrees(st, e, s);
        forall c | InSlot(st.claims, c, e, s) ensures Supported(r.evidence, c) {
          assert Supported(st.evidence, c);
          var x :| x in st.evidence && x.claim == c;
          assert !Loses(x, st.evidence[x], ids);
          assert x in r.evidence;
        }
        assert forall c :: InSlot(r.claims, c, e, s) <==> InSlot(st.claims, c, e, s);
        assert Live(r, e, s) == Live(st, e, s);
      }
    }
  }

  lemma DetachKeepsValid(st: Store, ids: set<nat>, now: int)
    requires Valid(st)
    ensures Valid(Detach(st, ids, now))
  {
    StripFacts(st, ids, now);
    ReconcileMakesValid(Strip(st, ids, now), Named(Affected(st, ids)));
  }

  // ----- whole runs ----------------------------------------------------------------------

  datatype Step =
    | LeaseStep(id: JobId, now: int, seconds: int, token: int)
    | EnrolStep(missing: set<JobId>, now: int)
    | CompleteStep(work: Work, facts: seq<Fact>, now: int)
    | FailStep(work: Work, now: int)
    | DetachStep(ids: set<nat>, now: int)
    | MoveStep(report: nat, to: Report)
    | ReviewStep(evidence: Evidence)

  datatype System = System(store: Store, used: set<int>)

  function Enrol(jobs: map<JobId, Job>, ids: set<JobId>, now: int): map<JobId, Job> {
    (map id | id in ids :: Job(Pending, 0, now, None, 0)) + jobs
  }

  predicate Allowed(sys: System, step: Step) {
    match step
    case LeaseStep(id, now, _, token) =>
      token !in sys.used && DueJob(Expire(sys.store.jobs, id.version, now), id.version, now, id)
    case CompleteStep(_, facts, _) => forall f :: f in facts ==> f.slot != ""
    case ReviewStep(e) => e.claim in sys.store.claims
    case _ => true
  }

  function Next(sys: System, step: Step): System
    requires Allowed(sys, step)
  {
    var st := sys.store;
    match step
    case LeaseStep(id, now, seconds, token) =>
      System(st.(jobs := LeaseJob(Expire(st.jobs, id.version, now), id, now, seconds, token)), sys.used + {token})
    case EnrolStep(ids, now) => sys.(store := st.(jobs := Enrol(st.jobs, ids, now)))
    case CompleteStep(w, facts, now) => sys.(store := Complete(st, w, facts, now).0)
    case FailStep(w, now) => sys.(store := Fail(st, w, now).0)
    case DetachStep(ids, now) => sys.(store := Detach(st, ids, now))
    case MoveStep(report, to) => sys.(store := st.(reports := st.reports[report := to]))
    case ReviewStep(e) => sys.(store :=
      st.(evidence := if e in st.evidence then st.evidence else st.evidence[e := false]))
  }

  ghost predicate Fenced(sys: System) {
    && (forall j :: j in sys.store.jobs && sys.store.jobs[j].status == Leased ==>
          sys.store.jobs[j].token.Some? && sys.store.jobs[j].token.value in sys.used)
    && (forall i, j :: (i in sys.store.jobs && j in sys.store.jobs && i != j && sys.store.jobs[i].status == Leased
                        && sys.store.jobs[j].status == Leased) ==> sys.store.jobs[i].token != sys.store.jobs[j].token)
  }

  /** Evidence a reviewer adds leaves every slot as it was: each automatic claim has some already. */
  lemma ReviewKeepsValid(st: Store, e: Evidence)
    requires Valid(st) && e.claim in st.claims && e !in st.evidence
    ensures Valid(st.(evidence := st.evidence[e := false]))
  {
    var r := st.(evidence := st.evidence[e := false]);
    forall c | c in r.claims && r.claims[c].automatic ensures Supported(r.evidence, c) {
      assert Supported(st.evidence, c);
      var x :| x in st.evidence && x.claim == c;
      assert x in r.evidence;
    }
    forall event: nat, slot ensures SlotAgrees(r, event, slot) {
      assert SlotAgrees(st, event, slot);
      forall c | InSlot(st.claims, c, event, slot) ensures Supported(st.evidence, c) && Supported(r.evidence, c) {}
      assert Live(r, event, slot) == Live(st, event, slot);
    }
  }

  lemma StepKeepsValid(sys: System, step: Step)
    requires Valid(sys.store) && Allowed(sys, step)
    ensures Valid(Next(sys, step).store)
  {
    match step
    case LeaseStep(_, _, _, _) => SameFactsValid(sys.store, Next(sys, step).store);
    case EnrolStep(_, _) => SameFactsValid(sys.store, Next(sys, step).store);
    case CompleteStep(w, facts, now) => CompleteKeepsValid(sys.store, w, facts, now);
    case FailStep(w, now) => FailKeepsValid(sys.store, w, now);
    case DetachStep(ids, now) => DetachKeepsValid(sys.store, ids, now);
    case MoveStep(_, _) => SameFactsValid(sys.store, Next(sys, step).store);
    case ReviewStep(e) =>
      if e !in sys.store.evidence { ReviewKeepsValid(sys.store, e); }
  }

  /** What a step does to the jobs: it releases leases, or takes one under a fresh token. */
  ghost predicate OnlyReleases(before: map<JobId, Job>, after: map<JobId, Job>) {
    forall j :: j in after && after[j].status == Leased ==> j in before && before[j] == after[j]
  }

  lemma StepReleases(sys: System, step: Step)
    requires Allowed(sys, step) && !step.LeaseStep?
    ensures OnlyReleases(sys.store.jobs, Next(sys, step).store.jobs)
  {
  }

  lemma StepKeepsFenced(sys: System, step: Step)
    requires Fenced(sys) && Allowed(sys, step)
    ensures Fenced(Next(sys, step))
  {
    if !step.LeaseStep? { StepReleases(sys, step); }
  }

  ghost predicate AllowedRun(sys: System, steps: seq<Step>)
    decreases |steps|
  {
    steps == [] || (Allowed(sys, steps[0]) && AllowedRun(Next(sys, steps[0]), steps[1..]))
  }

  ghost function Run(sys: System, steps: seq<Step>): System
    requires AllowedRun(sys, steps)
    decreases |steps|
  {
    if steps == [] then sys else Run(Next(sys, steps[0]), steps[1..])
  }

  /** Over every run of leases, completions, failures, detaches, moves and reviews, each automatic claim
      keeps evidence and the claims of each slot share the status that their number implies. */
  lemma {:induction false} RunKeepsSlots(sys: System, steps: seq<Step>)
    requires Valid(sys.store) && AllowedRun(sys, steps)
    ensures Valid(Run(sys, steps).store)
    decreases |steps|
  {
    if steps != [] {
      StepKeepsValid(sys, steps[0]);
      RunKeepsSlots(Next(sys, steps[0]), steps[1..]);
    }
  }

  ghost predicate LiveToken(sys: System, token: int) {
    exists j :: j in sys.store.jobs && sys.store.jobs[j].status == Leased && sys.store.jobs[j].token == Some(token)
  }

  lemma {:induction false} DeadTokensStayDead(sys: System, steps: seq<Step>, token: int)
    requires Fenced(sys) && AllowedRun(sys, steps) && token in sys.used && !LiveToken(sys, token)
    ensures !LiveToken(Run(sys, steps), token)
    decreases |steps|
  {
    if steps != [] {
      var step := steps[0];
      StepKeepsFenced(sys, step);
      if !step.LeaseStep? { StepReleases(sys, step); }
      DeadTokensStayDead(Next(sys, step), steps[1..], token);
    }
  }

  lemma DeadTokenWritesNothing(sys: System, w: Work, facts: seq<Fact>, now: int)
    requires !LiveToken(sys, w.token)
    ensures Complete(sys.store, w, facts, now) == (sys.store, LeaseLost)
      && Fail(sys.store, w, now) == (sys.store, LeaseLost)
  {
  }

  lemma OutcomeReleases(sys: System, step: Step, w: Work)
    requires Fenced(sys) && Holds(sys.store.jobs, w)
    requires (step.CompleteStep? && step.work == w && Allowed(sys, step)
      && Complete(sys.store, w, step.facts, step.now).1 != KeyCollision)
             || (step.FailStep? && step.work == w)
    ensures Allowed(sys, step) && !LiveToken(Next(sys, step), w.token)
  {
    var id := JobId(w.report, w.version);
    var r := Next(sys, step);
    assert forall j :: j in r.store.jobs && j != id ==> j in sys.store.jobs && r.store.jobs[j] == sys.store.jobs[j];
  }

  /** Once a worker's completion or failure took effect, nothing it reports under the same token ever
      changes a row again. */
  lemma LeaseSettlesOnce(sys: System, first: Step, w: Work, between: seq<Step>, facts: seq<Fact>, now: int)
    requires Fenced(sys) && Holds(sys.store.jobs, w)
    requires (first.CompleteStep? && first.work == w && Allowed(sys, first)
      && Complete(sys.store, w, first.facts, first.now).1 != KeyCollision)
             || (first.FailStep? && first.work == w)
    requires AllowedRun(Next(sys, first), between)
    ensures var late := Run(Next(sys, first), between);
      Complete(late.store, w, facts, now) == (late.store, LeaseLost)
        && Fail(late.store, w, now) == (late.store, LeaseLost)
  {
    OutcomeReleases(sys, first, w);
    StepKeepsFenced(sys, first);
    assert w.token in sys.used;
    DeadTokensStayDead(Next(sys, first), between, w.token);
    DeadTokenWritesNothing(Run(Next(sys, first), between), w, facts, now);
  }

  /** A worker overtaken by a detach of its report writes no facts, however late it answers. */
  lemma OvertakenWorkerWritesNothing(sys: System, w: Work, ids: set<nat>, at: int, between: seq<Step>,
                                     facts: seq<Fact>, now: int)
    requires Fenced(sys) && Holds(sys.store.jobs, w) && w.report in ids
    requires AllowedRun(Next(sys, DetachStep(ids, at)), between)
    ensures var late := Run(Next(sys, DetachStep(ids, at)), between);
      Complete(late.store, w, facts, now) == (late.store, LeaseLost)
  {
    var step := DetachStep(ids, at);
    StepKeepsFenced(sys, step);
    assert !LiveToken(Next(sys, step), w.token);
    DeadTokensStayDead(Next(sys, step), between, w.token);
    DeadTokenWritesNothing(Run(Next(sys, step), between), w, facts, now);
  }

  // ----- the transactions over the tables ------------------------------------------------

  function Settled(st: Store, slots: set<(nat, string)>, c: ClaimId): ClaimRow
    requires c in st.claims
  {
    var row := st.claims[c];
    if (c.event, row.slot) in slots && row.automatic && row.status != Superseded
    then row.(status := StatusOf(st, c.event, row.slot)) else row
  }

  lemma ReconcileAt(st: Store, slots: set<(nat, string)>)
    ensures Reconcile(st, slots).claims.Keys == st.claims.Keys
    ensures forall c :: c in st.claims ==> Reconcile(st, slots).claims[c] == Settled(st, slots, c)
  {
  }

  lemma ReconcileKeepsStatusOf(st: Store, slots: set<(nat, string)>, event: nat, slot: string)
    ensures StatusOf(Reconcile(st, slots), event, slot) == StatusOf(st, event, slot)
  {
    ReconcileAt(st, slots);
    assert Live(Reconcile(st, slots), event, slot) == Live(st, event, slot);
  }

  lemma SettledTwice(st: Store, slots: set<(nat, string)>, slot: (nat, string), c: ClaimId)
    requires c in st.claims
    ensures c in Reconcile(st, slots).claims
    ensures Settled(Reconcile(st, slots), {slot}, c) == Settled(st, slots + {slot}, c)
  {
    ReconcileAt(st, slots);
    ReconcileKeepsStatusOf(st, slots, slot.0, slot.1);
  }

  /** Settling slots one by one settles them all, in whatever order. */
  lemma ReconcileOneMore(st: Store, slots: set<(nat, string)>, slot: (nat, string))
    ensures Reconcile(Reconcile(st, slots), {slot}) == Reconcile(st, slots + {slot})
  {
    var r := Reconcile(st, slots);
    ReconcileAt(st, slots);
    ReconcileAt(r, {slot});
    ReconcileAt(st, slots + {slot});
    var one, all := Reconcile(r, {slot}).claims, Reconcile(st, slots + {slot}).claims;
    forall c | c in all ensures one[c] == all[c] { SettledTwice(st, slots, slot, c); }
    assert one == all;
  }

  /** The earlier due job goes first, then the smaller report id. */
  predicate DueBefore(jobs: map<JobId, Job>, a: JobId, b: JobId) {
    a in jobs && b in jobs ==>
      (jobs[a].nextAttemptAt < jobs[b].nextAttemptAt
        || (jobs[a].nextAttemptAt == jobs[b].nextAttemptAt && a.report <= b.report))
  }

  datatype Answer = InvalidRequest | Answered(outcome: Outcome)

  datatype Claimed = BadRequest | NothingDue | Taken(id: JobId)

  /** The reports that existed when a version of the extractor claimed its first job, and when that was. */
  datatype History = History(reports: set<nat>, createdAt: int)

  const ENROL_BATCH := 100

  function OpenedVersions(versions: map<int, History>, reports: set<nat>, version: int,
                          now: int): (r: map<int, History>)
    ensures version in r
  {
    if version in versions then versions else versions[version := History(reports, now)]
  }

  /** Reports stored since, without a job. */
  function Missing(h: History, reports: set<nat>, created: map<nat, int>, jobs: map<JobId, Job>,
                   version: int): set<nat> {
    set r | r in reports && JobId(r, version) !in jobs
      && (r !in h.reports || (r in created && created[r] >= h.createdAt))
  }

  function Below(missing: set<nat>, r: nat): set<nat> { set q | q in missing && q < r }

  /** The jobs of the first hundred of them. */
  function FirstMissing(h: History, reports: set<nat>, created: map<nat, int>, jobs: map<JobId, Job>,
                        version: int): set<JobId> {
    var missing := Missing(h, reports, created, jobs, version);
    set r | r in missing && |Below(missing, r)| < ENROL_BATCH :: JobId(r, version)
  }

  lemma {:induction false} ProperSubsetIsSmaller(a: set<nat>, b: set<nat>, x: nat)
    requires a <= b && x in b && x !in a
    ensures |a| < |b|
    decreases |a|
  {
    if a != {} {
      var y :| y in a;
      ProperSubsetIsSmaller(a - {y}, b - {y}, x);
    }
  }

  /** One claim enrols at most a hundred reports, each of them new and without a job. */
  lemma EnrolmentIsBounded(h: History, reports: set<nat>, created: map<nat, int>, jobs: map<JobId, Job>, version: int)
    ensures |FirstMissing(h, reports, created, jobs, version)| <= ENROL_BATCH
    ensures FirstMissing(h, reports, created, jobs, version) !! jobs.Keys
  {
    var missing := Missing(h, reports, created, jobs, version);
    var ids := FirstMissing(h, reports, created, jobs, version);
    forall i, j | i in ids && j in ids && i.report < j.report
      ensures |Below(missing, i.report)| < |Below(missing, j.report)| {
      ProperSubsetIsSmaller(Below(missing, i.report), Below(missing, j.report), i.report);
    }
    OneToOneBound(ids, (id: JobId) => |Below(missing, id.report)|, ENROL_BATCH);
  }

  class FactDatabase {
    var reports: map<nat, Report>
    var claims: map<ClaimId, ClaimRow>
    var evidence: map<Evidence, bool>
    var jobs: map<JobId, Job>
    var versions: map<int, History>
    const created: map<nat, int>  // when each report was stored

    function State(): Store
      reads this
    {
      Store(reports, claims, evidence, jobs)
    }

    constructor (created: map<nat, int>)
      ensures State() == Store(map[], map[], map[], map[]) && Valid(State()) && this.created == created
    {
      reports, claims, evidence, jobs, versions, this.created := map[], map[], map[], map[], map[], created;
    }

    method Commit(st: Store)
      modifies this
      ensures State() == st && versions == old(versions)
    {
      reports, claims, evidence, jobs := st.reports, st.claims, st.evidence, st.jobs;
    }

    /** Jobs for the new reports of a version; what existed at its first claim is history, left to a backfill. */
    method EnrolReports(version: int, now: int)
      modifies this`jobs, this`versions
      ensures versions == OpenedVersions(old(versions), reports.Keys, version, now)
      ensures jobs == Enrol(old(jobs), FirstMissing(versions[version], reports.Keys, created, old(jobs), version), 0)
    {
      if version !in versions {
        versions := versions[version := History(reports.Keys, now)];
      }
      jobs := Enrol(jobs, FirstMissing(versions[version], reports.Keys, created, jobs, version), 0);
    }

    /** Enrols new reports, takes back the leases that ran out and leases the job that has been due longest. */
    method ClaimEventFactJob(version: int, now: int, seconds: int, token: int) returns (r: Claimed)
      modifies this`jobs, this`versions
      ensures r == BadRequest <==> now < 0 || version < 1 || !(1 <= seconds <= 3600)
      ensures r == BadRequest ==> jobs == old(jobs) && versions == old(versions)
      ensures r != BadRequest ==>
        && versions == OpenedVersions(old(versions), reports.Keys, version, now)
        && var enrolled := Enrol(old(jobs), FirstMissing(versions[version], reports.Keys, created, old(jobs), version),
          0);
          var expired := Expire(enrolled, version, now);
          && (r == NothingDue ==> jobs == expired && forall id :: !DueJob(expired, version, now, id))
          && (r.Taken? ==>
                && DueJob(expired, version, now, r.id)
                && (forall id :: DueJob(expired, version, now, id) ==> DueBefore(expired, r.id, id))
                && jobs == LeaseJob(expired, r.id, now, seconds, token))
    {
      if now < 0 || version < 1 || !(1 <= seconds <= 3600) {
        return BadRequest;
      }
      EnrolReports(version, now);
      jobs := Expire(jobs, version, now);
      var chosen := LongestDue(version, now);
      if chosen.None? {
        return NothingDue;
      }
      jobs := LeaseJob(jobs, chosen.value, now, seconds, token);
      return Taken(chosen.value);
    }

    method LongestDue(version: int, now: int) returns (chosen: Option<JobId>)
      ensures chosen.None? ==> forall id :: !DueJob(jobs, version, now, id)
      ensures chosen.Some? ==>
        DueJob(jobs, version, now, chosen.value) && forall id :: DueJob(jobs, version, now, id) ==>
          DueBefore(jobs, chosen.value, id)
    {
      chosen := None;
      var rest := jobs.Keys;
      while rest != {}
        invariant rest <= jobs.Keys
        invariant chosen.None? ==> forall id :: id in jobs && id !in rest ==> !DueJob(jobs, version, now, id)
        invariant chosen.Some? ==> DueJob(jobs, version, now, chosen.value)
        invariant chosen.Some? ==> forall id :: id !in rest && DueJob(jobs, version, now, id) ==>
          DueBefore(jobs, chosen.value, id)
      {
        var id :| id in rest;
        rest := rest - {id};
        if DueJob(jobs, version, now, id) && (chosen.None? || !DueBefore(jobs, chosen.value, id)) {
          chosen := Some(id);
        }
      }
    }

    method CompleteEventFactJob(w: Work, facts: seq<Fact>, now: int) returns (r: Answer)
      modifies this
      ensures now < 0 || |facts| > 20 ==> r == InvalidRequest && State() == old(State())
      ensures now >= 0 && |facts| <= 20 ==>
        (State(), r) == (Complete(old(State()), w, facts, now).0, Answered(Complete(old(State()), w, facts, now).1))
    {
      if now < 0 || |facts| > 20 {
        return InvalidRequest;
      }
      var id := JobId(w.report, w.version);
      if !Holds(jobs, w) {
        return Answered(LeaseLost);
      }
      if w.report !in reports || reports[w.report] != Report(w.event, w.content) {
        jobs := jobs[id := Release(jobs[id], Retry, now)];
        return Answered(ReportChanged);
      }
      ghost var all := SaveFacts(State(), w.event, w.report, facts);
      // The facts are written to a scratch copy, so that a key collision rolls all of them back.
      var st := State();
      for k := 0 to |facts|
        invariant SaveFacts(st, w.event, w.report, facts[k..]) == all
      {
        assert facts[k..][0] == facts[k] && facts[k..][1..] == facts[k + 1..];
        var next := SaveFact(st, w.event, w.report, facts[k]);
        if next.None? {
          return Answered(KeyCollision);
        }
        st := next.value;
      }
      assert all == Some(st);
      st := SettleSlots(st, SlotsOf(w.event, facts));
      Commit(st.(jobs := jobs[id := Release(jobs[id], Completed, jobs[id].nextAttemptAt)]));
      return Answered(Done);
    }

    /** Settles the slots of a set, one at a time. */
    method SettleSlots(before: Store, slots: set<(nat, string)>) returns (st: Store)
      ensures st == Reconcile(before, slots)
    {
      st := before;
      var rest := slots;
      ghost var done: set<(nat, string)> := {};
      assert Reconcile(before, {}).claims == before.claims;
      while rest != {}
        invariant done + rest == slots
        invariant st == Reconcile(before, done)
      {
        var slot :| slot in rest;
        ReconcileOneMore(before, done, slot);
        st := Reconcile(st, {slot});
        rest := rest - {slot};
        done := done + {slot};
      }
      assert done == slots;
    }

    method FailEventFactJob(w: Work, now: int) returns (outcome: Outcome)
      modifies this`jobs
      ensures (State(), outcome) == Fail(old(State()), w, now)
    {
      var id := JobId(w.report, w.version);
      if !Holds(jobs, w) {
        return LeaseLost;
      }
      var terminal := jobs[id].attempts >= 5;
      jobs := jobs[id := Release(jobs[id], if terminal then Dead else Retry, now + RetryDelay(jobs[id].attempts))];
      return Done;
    }

    /** Runs inside the repair transaction that moves the reports. */
    method DetachAutomaticFacts(ids: set<nat>, now: int) returns (accepted: bool)
      modifies this
      ensures accepted == (1 <= |ids| <= 200)
      ensures State() == if accepted then Detach(old(State()), ids, now) else old(State())
    {
      if ids == {} || |ids| > 200 {
        return false;
      }
      assert |ids| >= 1;
      var affected := Affected(State(), ids);
      var st := SettleSlots(Strip(State(), ids, now), Named(affected));
      Commit(st);
      return true;
    }
  }
}
