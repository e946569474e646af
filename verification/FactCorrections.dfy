/** Corrections a reviewer confirms: of two live claims in one fact slot the new one supersedes the old one. The
    preview checks status, slot and proof, but not the ancestry of the claims. */
module FactCorrections {
  import opened Ordering
  import opened FactStore
  import Graph = ClaimGraph

  /** The claim store and the corrections confirmed so far, each with its proof. */
  datatype State = State(store: Store, corrected: map<(ClaimId, ClaimId), nat>)

  /** What the preview reads of a report besides its event. */
  datatype Sources = Sources(primary: set<nat>, publishedAt: map<nat, int>)

  /** `current` tells whether the preview the reviewer saw is still current, `queued` whether the notice of the
      correction can be enqueued. */
  datatype Request = Request(event: nat, oldKey: string, newKey: string, proof: nat, current: bool, queued: bool)

  datatype Reason = SameClaim | UnknownClaim | NotLiveInOneSlot | OtherLiveClaims | NoPrimaryProof | ProofTooOld
                  | Changed | NotQueued
  datatype Verdict = Applied | AlreadyApplied | OtherProof | Refused(reason: Reason)

  function Old(r: Request): ClaimId { ClaimId(r.event, r.oldKey) }
  function New(r: Request): ClaimId { ClaimId(r.event, r.newKey) }

  predicate LiveStatus(row: ClaimRow) { row.status == Active || row.status == Disputed }

  /** All claims of a slot, manual ones included, that are not superseded. */
  function Unsettled(st: Store, event: nat, slot: string): set<ClaimId> {
    set c | c in st.claims && c.event == event && st.claims[c].slot == slot && st.claims[c].status != Superseded
  }

  predicate IsSupportedBy(st: Store, c: ClaimId, report: nat) {
    Evidence(c, report, Supports) in st.evidence && report in st.reports
  }

  function PublishedAt(sources: Sources, report: nat): int {
    if report in sources.publishedAt then sources.publishedAt[report] else 0
  }

  /** None when the correction may be confirmed. */
  function Preview(st: Store, r: Request, sources: Sources): Option<Reason> {
    if r.oldKey == r.newKey then Some(SameClaim)
    else if Old(r) !in st.claims || New(r) !in st.claims then Some(UnknownClaim)
    else
      var before, after := st.claims[Old(r)], st.claims[New(r)];
      if before.slot == "" || before.slot != after.slot || !LiveStatus(before) || !LiveStatus(after)
        || after.supersedes.Some?
      then Some(NotLiveInOneSlot)
      else if Unsettled(st, r.event, before.slot) != {Old(r), New(r)} then Some(OtherLiveClaims)
      else if !(IsSupportedBy(st, New(r), r.proof) && st.reports[r.proof].event == r.event
        && r.proof in sources.primary)
      then Some(NoPrimaryProof)
      else if exists e :: e in st.evidence && e.claim == Old(r) && e.stance == Supports && e.report in st.reports
                          && PublishedAt(sources, r.proof) < PublishedAt(sources, e.report)
      then Some(ProofTooOld)
      else None
  }

  /** The rows a confirmed correction writes. */
  function Written(claims: Graph.Claims, before: ClaimId, after: ClaimId): Graph.Claims
    requires before in claims && after in claims
  {
    claims[before := claims[before].(status := Superseded)][after :=
      claims[after].(status := Active, supersedes := Some(before))]
  }

  /** One confirmation; every answer but the first leaves all rows alone. */
  function Confirm(s: State, r: Request, sources: Sources): (State, Verdict) {
    var pair := (Old(r), New(r));
    if pair in s.corrected then (s, if s.corrected[pair] == r.proof then AlreadyApplied else OtherProof)
    else
      var refusal := Preview(s.store, r, sources);
      if refusal.Some? then (s, Refused(refusal.value))
      else if !r.current then (s, Refused(Changed))
      else if !r.queued then (s, Refused(NotQueued))
      else
        (State(s.store.(claims := Written(s.store.claims, Old(r), New(r))), s.corrected[pair := r.proof]), Applied)
  }

  // ----- when a correction keeps the graph acyclic ---------------------------------------

  lemma WrittenIsSoundIff(claims: Graph.Claims, before: ClaimId, after: ClaimId)
    requires Graph.Sound(claims) && before in claims && after in claims && before != after
      && before.event == after.event
    ensures Graph.Sound(Written(claims, before, after)) <==> !Graph.Reaches(claims, before, after)
  {
    var row := claims[after].(status := Active, supersedes := Some(before));
    Graph.PointerStaysSound(claims, after, row);
    var a, b := claims[after := row], Written(claims, before, after);
    assert Graph.Pointers(a) == Graph.Pointers(b);
    if Graph.Sound(a) { Graph.SamePointers(a, b); }
    if Graph.Sound(b) { Graph.SamePointers(b, a); }
  }

  /** Of the corrections the preview lets through, exactly those close a cycle whose old claim already leads to
      the new one; the walk that guards a claim save would have found them. */
  lemma CorrectionKeepsSoundIff(s: State, r: Request, sources: Sources)
    requires Graph.Sound(s.store.claims)
    ensures var (after, verdict) := Confirm(s, r, sources);
      Graph.Sound(after.store.claims) <==> !(verdict == Applied && Graph.Reaches(s.store.claims, Old(r), New(r)))
  {
    if Confirm(s, r, sources).1 == Applied { WrittenIsSoundIff(s.store.claims, Old(r), New(r)); }
  }

  // ----- runs with corrections -----------------------------------------------------------

  /** Whatever a pointer leads to is superseded. */
  ghost predicate TargetsSettled(claims: Graph.Claims) {
    forall c :: c in claims && claims[c].supersedes.Some? && claims[c].supersedes.value in claims ==>
      claims[claims[c].supersedes.value].status == Superseded
  }

  ghost predicate IsTarget(claims: Graph.Claims, id: ClaimId) {
    exists c :: c in claims && claims[c].supersedes == Some(id)
  }

  /** A save that supersedes is active, and none brings a superseded claim back to life. */
  ghost predicate Orderly(claims: Graph.Claims, d: Graph.Draft) {
    && (d.supersedes != "" ==> d.status == Active)
    && (ClaimId(d.event, d.key) in claims && IsTarget(claims, ClaimId(d.event, d.key)) ==> d.status == Superseded)
  }

  lemma ReachedIsTarget(claims: Graph.Claims, from_: ClaimId, to: ClaimId)
    requires Graph.Reaches(claims, from_, to) && from_ != to
    ensures IsTarget(claims, to)
  {
    var k: nat :| Graph.Up(claims, from_, k) == Some(to);
    if k > 0 {
      Graph.UpOneMore(claims, from_, k - 1);
      var c := Graph.Up(claims, from_, k - 1).value;
      assert claims[c].supersedes == Some(to);
    }
  }

  lemma ConfirmKeepsSettled(s: State, r: Request, sources: Sources)
    requires Graph.Sound(s.store.claims) && TargetsSettled(s.store.claims)
    ensures var after := Confirm(s, r, sources).0.store.claims; Graph.Sound(after) && TargetsSettled(after)
  {
    if Confirm(s, r, sources).1 == Applied {
      var claims := s.store.claims;
      assert !IsTarget(claims, New(r));
      if Graph.Reaches(claims, Old(r), New(r)) { ReachedIsTarget(claims, Old(r), New(r)); }
      WrittenIsSoundIff(claims, Old(r), New(r));
    }
  }

  lemma SaveKeepsSettled(claims: Graph.Claims, events: set<nat>, d: Graph.Draft)
    requires Graph.Sound(claims) && TargetsSettled(claims) && Orderly(claims, d)
    ensures TargetsSettled(Graph.SaveClaim(claims, events, d).0)
  {
    var after := Graph.SaveClaim(claims, events, d).0;
    var id := ClaimId(d.event, d.key);
    forall c | c in after && after[c].supersedes.Some? && after[c].supersedes.value in after
      ensures after[after[c].supersedes.value].status == Superseded {
      var up := after[c].supersedes.value;
      if c != id && Graph.SaveClaim(claims, events, d).1 == Graph.Written {
        assert c in claims && claims[c].supersedes == Some(up) && up in claims;
        assert up == id ==> IsTarget(claims, id);
      }
    }
  }

  /** Settling and extracting leave superseded claims superseded and add claims without pointers. */
  ghost predicate OnlyAdds(before: Graph.Claims, after: Graph.Claims) {
    && (forall c :: c in before ==> c in after && after[c].supersedes == before[c].supersedes
                                    && (before[c].status == Superseded ==> after[c].status == Superseded))
    && (forall c :: c in after && c !in before ==> after[c].supersedes.None?)
  }

  lemma AddingKeepsSettled(before: Graph.Claims, after: Graph.Claims)
    requires Graph.Sound(before) && TargetsSettled(before) && OnlyAdds(before, after)
    ensures TargetsSettled(after)
  {
  }

  lemma {:induction false} SaveFactsOnlyAdd(st: Store, event: nat, report: nat, facts: seq<Fact>)
    requires SaveFacts(st, event, report, facts).Some?
    ensures OnlyAdds(st.claims, SaveFacts(st, event, report, facts).value.claims)
    decreases |facts|
  {
    if facts != [] {
      var next := SaveFact(st, event, report, facts[0]).value;
      assert OnlyAdds(st.claims, next.claims);
      SaveFactsOnlyAdd(next, event, report, facts[1..]);
    }
  }

  lemma CompleteKeepsSettled(st: Store, w: Work, facts: seq<Fact>, now: int)
    requires Graph.Sound(st.claims) && TargetsSettled(st.claims)
    ensures TargetsSettled(Complete(st, w, facts, now).0.claims)
  {
    if Complete(st, w, facts, now).1 == Done {
      var saved := SaveFacts(st, w.event, w.report, facts).value;
      SaveFactsOnlyAdd(st, w.event, w.report, facts);
      ReconcileOnlyAdds(saved, SlotsOf(w.event, facts));
      AddingKeepsSettled(st.claims, Complete(st, w, facts, now).0.claims);
    }
  }

  lemma DetachKeepsSettled(st: Store, ids: set<nat>, now: int)
    requires Graph.Sound(st.claims) && TargetsSettled(st.claims)
    ensures TargetsSettled(Detach(st, ids, now).claims)
  {
    var stripped := Strip(st, ids, now);
    Graph.StripKeepsSound(st, ids, now);
    StripKeepsSettled(st, ids, now);
    ReconcileOnlyAdds(stripped, Named(Affected(st, ids)));
    AddingKeepsSettled(stripped.claims, Detach(st, ids, now).claims);
  }

  lemma StripKeepsSettled(st: Store, ids: set<nat>, now: int)
    requires TargetsSettled(st.claims)
    ensures TargetsSettled(Strip(st, ids, now).claims)
  {
  }

  lemma ReconcileOnlyAdds(st: Store, slots: set<(nat, string)>)
    ensures OnlyAdds(st.claims, Reconcile(st, slots).claims)
  {
  }

  datatype Step = GraphStep(step: Graph.Step) | ConfirmStep(request: Request, sources: Sources)

  /** Deleting a claim deletes the corrections it took part in. */
  ghost function Next(s: State, step: Step): State {
    match step
    case GraphStep(g) =>
      var store := Graph.Next(s.store, g);
      State(store, map pair | pair in s.corrected && pair.0 in store.claims && pair.1 in store.claims ::
        s.corrected[pair])
    case ConfirmStep(r, sources) => Confirm(s, r, sources).0
  }

  ghost function Run(s: State, steps: seq<Step>): State
    decreases |steps|
  {
    if steps == [] then s else Run(Next(s, steps[0]), steps[1..])
  }

  ghost predicate OrderlyRun(s: State, steps: seq<Step>)
    decreases |steps|
  {
    steps == []
    || ((steps[0].GraphStep? && steps[0].step.SaveStep? ==> Orderly(s.store.claims, steps[0].step.draft))
        && OrderlyRun(Next(s, steps[0]), steps[1..]))
  }

  lemma StepKeepsSettled(s: State, step: Step)
    requires Graph.Sound(s.store.claims) && TargetsSettled(s.store.claims)
    requires step.GraphStep? && step.step.SaveStep? ==> Orderly(s.store.claims, step.step.draft)
    ensures Graph.Sound(Next(s, step).store.claims) && TargetsSettled(Next(s, step).store.claims)
  {
    match step
    case ConfirmStep(r, sources) => ConfirmKeepsSettled(s, r, sources);
    case GraphStep(g) =>
      Graph.StepKeepsSound(s.store, g);
      match g {
        case SaveStep(events, d) => SaveKeepsSettled(s.store.claims, events, d);
        case CompleteStep(w, facts, now) => CompleteKeepsSettled(s.store, w, facts, now);
        case DetachStep(ids, now) => DetachKeepsSettled(s.store, ids, now);
      }
  }

  /** While superseding saves are active and superseded claims stay so, the graph stays acyclic over every run,
      corrections included, although none of them looks at ancestry. */
  lemma {:induction false} OrderlyRunKeepsSound(s: State, steps: seq<Step>)
    requires Graph.Sound(s.store.claims) && TargetsSettled(s.store.claims) && OrderlyRun(s, steps)
    ensures Graph.Sound(Run(s, steps).store.claims) && TargetsSettled(Run(s, steps).store.claims)
    decreases |steps|
  {
    if steps != [] {
      StepKeepsSettled(s, steps[0]);
      OrderlyRunKeepsSound(Next(s, steps[0]), steps[1..]);
    }
  }

  // ----- slots ---------------------------------------------------------------------------

  ghost predicate PairOfSlot(st: Store, before: ClaimId, after: ClaimId) {
    && before in st.claims && after in st.claims && before != after && before.event == after.event
    && st.claims[before].slot == st.claims[after].slot && st.claims[after].status != Superseded
    && Unsettled(st, before.event, st.claims[before].slot) == {before, after}
  }

  lemma WrittenSlotAgrees(st: Store, before: ClaimId, after: ClaimId)
    requires PairOfSlot(st, before, after)
    ensures SlotAgrees(st.(claims := Written(st.claims, before, after)), before.event, st.claims[before].slot)
  {
    var event, slot := before.event, st.claims[before].slot;
    var r := st.(claims := Written(st.claims, before, after));
    forall c | InSlot(r.claims, c, event, slot) ensures c == after && r.claims[c].status == Active {
      assert c in Unsettled(st, event, slot);
    }
    SubsetIsSmaller(Live(r, event, slot), {after});
  }

  lemma OtherSlotAgrees(st: Store, before: ClaimId, after: ClaimId, event: nat, slot: string)
    requires PairOfSlot(st, before, after) && SlotAgrees(st, event, slot)
    requires event != before.event || slot != st.claims[before].slot
    ensures SlotAgrees(st.(claims := Written(st.claims, before, after)), event, slot)
  {
    var r := st.(claims := Written(st.claims, before, after));
    forall c ensures InSlot(r.claims, c, event, slot) <==> InSlot(st.claims, c, event, slot) {}
    assert Live(r, event, slot) == Live(st, event, slot);
  }

  lemma {:induction false} SubsetIsSmaller<T>(a: set<T>, b: set<T>)
    requires a <= b
    ensures |a| <= |b|
  {
    if a != {} {
      var x :| x in a;
      SubsetIsSmaller(a - {x}, b - {x});
    }
  }

  /** Whatever the slot held, a confirmed correction leaves it settled: the new claim active and alone. */
  lemma ConfirmKeepsSlots(s: State, r: Request, sources: Sources)
    requires Valid(s.store)
    ensures Valid(Confirm(s, r, sources).0.store)
  {
    if Confirm(s, r, sources).1 == Applied {
      var st, after := s.store, Confirm(s, r, sources).0.store;
      forall c | c in after.claims && after.claims[c].automatic
        ensures Supported(after.evidence, c) && after.claims[c].slot != "" {
        assert Supported(st.evidence, c);
      }
      WrittenSlotAgrees(st, Old(r), New(r));
      forall event: nat, slot ensures SlotAgrees(after, event, slot) {
        if event != r.event || slot != st.claims[Old(r)].slot {
          OtherSlotAgrees(st, Old(r), New(r), event, slot);
        }
      }
    }
  }

  /** A save is refused or settles the slots it touches; facts have slots. */
  ghost predicate Settling(s: State, step: Step) {
    match step
    case ConfirmStep(_, _) => true
    case GraphStep(g) =>
      match g
      case SaveStep(events, d) => Graph.Refusal(s.store.claims, events, d).Some? || Graph.SettlesSlots(s.store, d)
      case CompleteStep(_, facts, _) => forall f :: f in facts ==> f.slot != ""
      case DetachStep(_, _) => true
  }

  ghost predicate SettlingRun(s: State, steps: seq<Step>)
    decreases |steps|
  {
    steps == [] || (Settling(s, steps[0]) && SettlingRun(Next(s, steps[0]), steps[1..]))
  }

  lemma StepKeepsSlots(s: State, step: Step)
    requires Valid(s.store) && Settling(s, step)
    ensures Valid(Next(s, step).store)
  {
    match step
    case ConfirmStep(r, sources) => ConfirmKeepsSlots(s, r, sources);
    case GraphStep(g) =>
      match g {
        case SaveStep(events, d) => Graph.SaveKeepsSlotsIff(s.store, events, d);
        case CompleteStep(w, facts, now) => CompleteKeepsValid(s.store, w, facts, now);
        case DetachStep(ids, now) => DetachKeepsValid(s.store, ids, now);
      }
  }

  /** Extractions, detaches and corrections in any order keep every slot settled, and so do the saves that settle
      the slots they touch; any other accepted save leaves one unsettled. */
  lemma {:induction false} SettlingRunKeepsSlots(s: State, steps: seq<Step>)
    requires Valid(s.store) && SettlingRun(s, steps)
    ensures Valid(Run(s, steps).store)
    decreases |steps|
  {
    if steps != [] {
      StepKeepsSlots(s, steps[0]);
      SettlingRunKeepsSlots(Next(s, steps[0]), steps[1..]);
    }
  }

  // ----- a cycle the code lets through ---------------------------------------------------

  /** A store in which a worker holds the lease on the only, primary, report and nothing was extracted yet. */
  function Fresh(token: int): State {
    State(Store(map[1 := Report(0, 0)], map[], map[], map[JobId(1, 1) := Job(Leased, 1, 0, Some(token), 60)]), map[])
  }

  const A := ClaimId(0, "a")
  const B := ClaimId(0, "b")

  function Extracted(): Graph.Claims {
    map[A := ClaimRow("rate", true, Disputed, None), B := ClaimRow("rate", true, Disputed, None)]
  }

  function Pointed(): Graph.Claims {
    map[A := ClaimRow("rate", true, Disputed, Some(B)), B := ClaimRow("rate", true, Disputed, None)]
  }

  function Facts(): seq<Fact> { [Fact("a", "rate"), Fact("b", "rate")] }

  function Supported2(): map<Evidence, bool> { map[Evidence(A, 1, Supports) := true, Evidence(B, 1, Supports) := true] }

  /** Both facts are written, still active. */
  lemma FactsAreSaved(st: Store)
    requires st.claims == map[] && st.evidence == map[]
    ensures SaveFacts(st, 0, 1, Facts()) == Some(st.(
      claims := map[A := ClaimRow("rate", true, Active, None), B := ClaimRow("rate", true, Active, None)],
        evidence := Supported2()))
  {
    assert Facts()[1..] == [Fact("b", "rate")] && Facts()[1..][1..] == [];
    var one := SaveFact(st, 0, 1, Facts()[0]).value;
    var two := SaveFact(one, 0, 1, Facts()[1]).value;
    assert SaveFacts(st, 0, 1, Facts()) == SaveFacts(one, 0, 1, Facts()[1..]) == SaveFacts(two, 0, 1, Facts()[1..][1..])
      == Some(two);
  }

  lemma FactsAreDisputed(st: Store)
    requires st.claims == map[A := ClaimRow("rate", true, Active, None), B := ClaimRow("rate", true, Active, None)]
    requires st.evidence == Supported2()
    ensures Reconcile(st, SlotsOf(0, Facts())).claims == Extracted()
  {
    assert Evidence(A, 1, Supports) in st.evidence && Evidence(B, 1, Supports) in st.evidence;
    assert Live(st, 0, "rate") == {A, B};
    assert Fact("a", "rate") in Facts() && (0, "rate") in SlotsOf(0, Facts());
    assert StatusOf(st, 0, "rate") == Disputed;
  }

  /** What the extraction leaves: both facts in one slot, disputed, supported by the report. */
  lemma ExtractionDisputes(token: int)
    ensures var (st, outcome) := Complete(Fresh(token).store, Work(1, 1, 0, 0, token), Facts(), 0);
      outcome == Done && st.reports == map[1 := Report(0, 0)] && st.claims == Extracted() && st.evidence == Supported2()
  {
    FactsAreSaved(Fresh(token).store);
    FactsAreDisputed(SaveFacts(Fresh(token).store, 0, 1, Facts()).value);
  }

  /** A save may point a disputed claim at another one that points nowhere. */
  lemma SavePoints()
    ensures Graph.SaveClaim(Extracted(), {0}, Graph.Draft(0, "a", Disputed, "b")) == (Pointed(), Graph.Answer.Written)
  {
    forall k: nat ensures Graph.Up(Extracted(), B, k) != Some(A) {
      if k > 0 { assert Graph.Up(Extracted(), B, k) == None; }
    }
    var d := Graph.Draft(0, "a", Disputed, "b");
    assert "a" != "b" by { assert "a"[0] != "b"[0]; }
    assert Graph.Refusal(Extracted(), {0}, d) == None;
    assert Graph.Write(Extracted(), d) == Pointed();
  }

  lemma PreviewAccepts(st: Store)
    requires st.reports == map[1 := Report(0, 0)] && st.claims == Pointed()
    requires st.evidence == Supported2()
    ensures Preview(st, Request(0, "a", "b", 1, true, true), Sources({1}, map[1 := 0])).None?
  {
    assert Unsettled(st, 0, "rate") == {A, B};
  }

  lemma CycleIsUnsound(claims: Graph.Claims)
    requires A in claims && B in claims && claims[A].supersedes == Some(B) && claims[B].supersedes == Some(A)
    ensures !Graph.Sound(claims)
  {
    assert Graph.Up(claims, B, 1) == Graph.Up(claims, A, 0) == Some(A);
    assert Graph.Up(claims, A, 2) == Graph.Up(claims, B, 1);
    if Graph.Sound(claims) { Graph.SoundHasNoCycle(claims, A, 2); }
  }

  /** Two conflicting facts are extracted, one is saved as disputed with a pointer to the other, and the other is
      then confirmed as its correction: every transaction is accepted, and the two supersede each other. */
  lemma CorrectionCanCloseACycle(token: int)
    ensures var extracted := Next(Fresh(token), GraphStep(Graph.CompleteStep(Work(1, 1, 0, 0, token), Facts(), 0)));
      var pointed := Next(extracted, GraphStep(Graph.SaveStep({0}, Graph.Draft(0, "a", Disputed, "b"))));
      var (after, verdict) := Confirm(pointed, Request(0, "a", "b", 1, true, true), Sources({1}, map[1 := 0]));
      && verdict == Applied
      && A in after.store.claims && after.store.claims[A].supersedes == Some(B)
      && B in after.store.claims && after.store.claims[B].supersedes == Some(A)
      && Graph.Sound(pointed.store.claims) && !Graph.Sound(after.store.claims)
  {
    var extracted := Next(Fresh(token), GraphStep(Graph.CompleteStep(Work(1, 1, 0, 0, token), Facts(), 0)));
    ExtractionDisputes(token);
    SavePoints();
    var pointed := Next(extracted, GraphStep(Graph.SaveStep({0}, Graph.Draft(0, "a", Disputed, "b"))));
    assert pointed.store == extracted.store.(claims := Pointed());
    PreviewAccepts(pointed.store);
    PointedIsSound();
    var after := Confirm(pointed, Request(0, "a", "b", 1, true, true), Sources({1}, map[1 := 0])).0;
    CycleIsUnsound(after.store.claims);
  }

  /** Two conflicting facts are extracted, and a manual claim supersedes one of them: the other, alone in its
      slot, stays disputed. */
  lemma ManualClaimLeavesALoneDispute(token: int)
    ensures var extracted := Next(Fresh(token), GraphStep(Graph.CompleteStep(Work(1, 1, 0, 0, token), Facts(), 0)));
      var after := Next(extracted, GraphStep(Graph.SaveStep({0}, Graph.Draft(0, "m", Active, "a"))));
      && Valid(extracted.store) && !Valid(after.store)
      && Live(after.store, 0, "rate") == {B} && after.store.claims[B].status == Disputed
  {
    var extracted := Next(Fresh(token), GraphStep(Graph.CompleteStep(Work(1, 1, 0, 0, token), Facts(), 0)));
    ExtractionDisputes(token);
    FreshIsValid(token);
    CompleteKeepsValid(Fresh(token).store, Work(1, 1, 0, 0, token), Facts(), 0);
    LoneDispute(extracted.store);
    var d := Graph.Draft(0, "m", Active, "a");
    assert Next(extracted, GraphStep(Graph.SaveStep({0}, d))).store == Graph.Saved(extracted.store, {0}, d);
  }

  lemma FreshIsValid(token: int)
    ensures Valid(Fresh(token).store)
  {
    forall event, slot ensures SlotAgrees(Fresh(token).store, event, slot) {}
  }

  lemma LoneDispute(st: Store)
    requires st.claims == Extracted() && st.evidence == Supported2()
    ensures var after := Graph.Saved(st, {0}, Graph.Draft(0, "m", Active, "a"));
      Live(after, 0, "rate") == {B} && after.claims[B].status == Disputed && !Valid(after)
  {
    var d := Graph.Draft(0, "m", Active, "a");
    var after := Graph.Saved(st, {0}, d);
    assert "m" != "a" && "m" != "b" by { assert "m"[0] != "a"[0] && "m"[0] != "b"[0]; }
    assert Graph.Refusal(st.claims, {0}, d).None?;
    assert Evidence(B, 1, Supports) in st.evidence;
    assert Live(after, 0, "rate") == {B};
    assert InSlot(after.claims, B, 0, "rate");
    assert !SlotAgrees(after, 0, "rate");
  }

  lemma PointedIsSound()
    ensures Graph.Sound(Pointed())
  {
    var rank: map<ClaimId, nat> := map[A := 1, B := 0];
    assert Graph.Ranked(Pointed(), rank);
  }
}
