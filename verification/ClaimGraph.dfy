/** Manual claims and the supersedes pointers between claims. */
module ClaimGraph {
  import opened Ordering
  import opened FactStore

  type Claims = map<ClaimId, ClaimRow>

  datatype Draft = Draft(event: nat, key: string, status: ClaimStatus, supersedes: string)

  datatype Answer = Written | UnknownEvent | SupersedesItself | UnknownParent | WouldFormCycle

  // ----- ancestry ------------------------------------------------------------------------

  /** The claim reached by following the pointer `k` times. */
  ghost function Up(claims: Claims, c: ClaimId, k: nat): Option<ClaimId>
    decreases k
  {
    if k == 0 then Some(c)
    else if c in claims && claims[c].supersedes.Some? then Up(claims, claims[c].supersedes.value, k - 1)
    else None
  }

  ghost predicate Reaches(claims: Claims, a: ClaimId, b: ClaimId) {
    exists k: nat :: Up(claims, a, k) == Some(b)
  }

  /** Every pointer leads to a claim of smaller rank. */
  ghost predicate Ranked(claims: Claims, rank: map<ClaimId, nat>) {
    && rank.Keys == claims.Keys
    && forall c :: c in claims && claims[c].supersedes.Some? && claims[c].supersedes.value in claims ==>
         rank[claims[c].supersedes.value] < rank[c]
  }

  ghost predicate Acyclic(claims: Claims) {
    exists rank :: Ranked(claims, rank)
  }

  /** Pointers stay inside one event and lead to existing claims. */
  ghost predicate WithinEvents(claims: Claims) {
    forall c :: c in claims && claims[c].supersedes.Some? ==>
      claims[c].supersedes.value in claims && claims[c].supersedes.value.event == c.event
  }

  ghost predicate Sound(claims: Claims) {
    Acyclic(claims) && WithinEvents(claims)
  }

  lemma {:induction false} UpDescends(claims: Claims, rank: map<ClaimId, nat>, c: ClaimId, k: nat)
    requires Ranked(claims, rank) && WithinEvents(claims) && c in claims && Up(claims, c, k).Some?
    ensures Up(claims, c, k).value in claims && Up(claims, c, k).value.event == c.event
    ensures rank[Up(claims, c, k).value] + k <= rank[c]
    decreases k
  {
    if k > 0 { UpDescends(claims, rank, claims[c].supersedes.value, k - 1); }
  }

  /** What soundness means: following pointers never returns to a claim, and never leaves its event. */
  lemma SoundHasNoCycle(claims: Claims, c: ClaimId, k: nat)
    requires Sound(claims) && c in claims && k > 0
    ensures Up(claims, c, k) != Some(c)
    ensures Up(claims, c, k).Some? ==> Up(claims, c, k).value in claims && Up(claims, c, k).value.event == c.event
  {
    var rank :| Ranked(claims, rank);
    if Up(claims, c, k).Some? { UpDescends(claims, rank, c, k); }
  }

  /** The unguarded ancestor walk. It ends because the pointers are sound, and answers whether `target`
      is `from_` or an ancestor of it. */
  method AncestorWalk(claims: Claims, from_: ClaimId, target: ClaimId) returns (found: bool)
    requires Sound(claims) && from_ in claims
    ensures found <==> Reaches(claims, from_, target)
  {
    ghost var rank :| Ranked(claims, rank);
    var at := Some(from_);
    ghost var steps: nat := 0;
    while at.Some?
      invariant at == Up(claims, from_, steps)
      invariant at.Some? ==> at.value in claims
      invariant forall k: nat :: k < steps ==> Up(claims, from_, k) != Some(target)
      invariant at.None? ==> forall k: nat :: k >= steps ==> Up(claims, from_, k).None?
      decreases if at.Some? then 1 + rank[at.value] else 0
    {
      if at.value == target {
        return true;
      }
      UpOneMore(claims, from_, steps);
      at := claims[at.value].supersedes;
      steps := steps + 1;
      if at.None? {
        forall k: nat | k >= steps ensures Up(claims, from_, k).None? { UpStaysNone(claims, from_, steps, k); }
      }
    }
    return false;
  }

  lemma {:induction false} UpOneMore(claims: Claims, c: ClaimId, k: nat)
    ensures Up(claims, c, k + 1) ==
      if Up(claims, c, k).Some? && Up(claims, c, k).value in claims then claims[Up(claims, c, k).value].supersedes
        else None
    decreases k
  {
    if k == 0 {
      if c in claims && claims[c].supersedes.Some? {
        assert Up(claims, claims[c].supersedes.value, 0) == claims[c].supersedes;
      }
    } else if c in claims && claims[c].supersedes.Some? {
      UpOneMore(claims, claims[c].supersedes.value, k - 1);
    }
  }

  lemma {:induction false} UpStaysNone(claims: Claims, c: ClaimId, j: nat, k: nat)
    requires j <= k && Up(claims, c, j).None?
    ensures Up(claims, c, k).None?
    decreases j
  {
    if j > 0 && c in claims && claims[c].supersedes.Some? {
      UpStaysNone(claims, claims[c].supersedes.value, j - 1, k - 1);
    }
  }

  // ----- saving a manual claim -----------------------------------------------------------

  /** Writes the row; an active claim marks the one it supersedes. */
  function Write(claims: Claims, d: Draft): Claims {
    var id := ClaimId(d.event, d.key);
    var parent := if d.supersedes != "" then Some(ClaimId(d.event, d.supersedes)) else None;
    var row := if id in claims then claims[id].(status := d.status, supersedes := parent)
               else ClaimRow("", false, d.status, parent);
    var written := claims[id := row];
    if parent.Some? && d.status == Active && parent.value in written
    then written[parent.value := written[parent.value].(status := FactStore.Superseded)] else written
  }

  ghost function Refusal(claims: Claims, events: set<nat>, d: Draft): Option<Answer> {
    var id, parent := ClaimId(d.event, d.key), ClaimId(d.event, d.supersedes);
    if d.event !in events then Some(UnknownEvent)
    else if d.supersedes == "" then None
    else if d.supersedes == d.key then Some(SupersedesItself)
    else if parent !in claims then Some(UnknownParent)
    else if id in claims && Reaches(claims, parent, id) then Some(WouldFormCycle)
    else None
  }

  ghost function SaveClaim(claims: Claims, events: set<nat>, d: Draft): (Claims, Answer) {
    var refusal := Refusal(claims, events, d);
    if refusal.Some? then (claims, refusal.value) else (Write(claims, d), Written)
  }

  /** The transaction, with the ancestor walk as its cycle check. */
  method SaveEventClaim(claims: Claims, events: set<nat>, d: Draft) returns (after: Claims, answer: Answer)
    requires Sound(claims)
    ensures (after, answer) == SaveClaim(claims, events, d)
    ensures Sound(after)
  {
    SavesKeepSound(claims, events, d);
    if d.event !in events {
      return claims, UnknownEvent;
    }
    if d.supersedes != "" {
      if d.supersedes == d.key {
        return claims, SupersedesItself;
      }
      var parent := ClaimId(d.event, d.supersedes);
      if parent !in claims {
        return claims, UnknownParent;
      }
      if ClaimId(d.event, d.key) in claims {
        var cyclic := AncestorWalk(claims, parent, ClaimId(d.event, d.key));
        if cyclic {
          return claims, WouldFormCycle;
        }
      }
    }
    return Write(claims, d), Written;
  }

  // ----- pointers stay sound -------------------------------------------------------------

  ghost function Pointers(claims: Claims): map<ClaimId, Option<ClaimId>> {
    map c | c in claims :: claims[c].supersedes
  }

  /** Soundness looks at the pointers only. */
  lemma SamePointers(a: Claims, b: Claims)
    requires Sound(a) && Pointers(a) == Pointers(b)
    ensures Sound(b)
  {
    assert a.Keys == Pointers(a).Keys == Pointers(b).Keys == b.Keys;
    forall c | c in b ensures b[c].supersedes == a[c].supersedes { assert Pointers(a)[c] == Pointers(b)[c]; }
    var rank :| Ranked(a, rank);
    assert Ranked(b, rank);
  }

  /** Clearing a pointer, or adding a claim without one, keeps the pointers sound. */
  lemma ClearedStaysSound(claims: Claims, id: ClaimId, row: ClaimRow)
    requires Sound(claims) && row.supersedes.None?
    ensures Sound(claims[id := row])
  {
    var rank :| Ranked(claims, rank);
    var r := claims[id := row];
    assert Ranked(r, rank[id := if id in rank then rank[id] else 0]);
  }

  /** A new pointer keeps the pointers acyclic exactly when its target does not already lead back. */
  lemma PointerStaysSound(claims: Claims, id: ClaimId, row: ClaimRow)
    requires Sound(claims) && row.supersedes.Some? && row.supersedes.value in claims
    requires row.supersedes.value.event == id.event && row.supersedes.value != id
    ensures Sound(claims[id := row]) <==> !(id in claims && Reaches(claims, row.supersedes.value, id))
  {
    var parent := row.supersedes.value;
    var r := claims[id := row];
    var rank :| Ranked(claims, rank);
    if id in claims && Reaches(claims, parent, id) {
      var k: nat :| Up(claims, parent, k) == Some(id);
      var j := FirstArrival(claims, parent, id, k);
      ArrivalUnaffected(claims, id, row, parent, j);
      assert Up(r, id, j + 1) == Some(id);
      if Sound(r) { SoundHasNoCycle(r, id, j + 1); }
    } else {
      var lifted := map c | c in r ::
        if c == id then (if id in rank then rank[id] else 0) + rank[parent] + 1
        else if id in claims && Reaches(claims, c, id) then rank[c] + rank[parent] + 1 else rank[c];
      forall c | c in r && r[c].supersedes.Some? && r[c].supersedes.value in r
        ensures lifted[r[c].supersedes.value] < lifted[c] {
        if c != id {
          var up := claims[c].supersedes.value;
          if id in claims { ReachesThroughParent(claims, c, up, id); }
          assert up in claims && rank[up] < rank[c];
          assert up == id ==> id in claims && Up(claims, up, 0) == Some(id);
        }
      }
      assert Ranked(r, lifted);
      assert WithinEvents(r);
    }
  }

  lemma ReachesThroughParent(claims: Claims, c: ClaimId, up: ClaimId, id: ClaimId)
    requires c in claims && claims[c].supersedes == Some(up) && c != id
    ensures Reaches(claims, c, id) <==> Reaches(claims, up, id)
  {
    if Reaches(claims, c, id) {
      var k: nat :| Up(claims, c, k) == Some(id);
      assert k > 0 && Up(claims, up, k - 1) == Some(id);
    }
    if k: nat :| Up(claims, up, k) == Some(id) {
      assert Up(claims, c, k + 1) == Some(id);
    }
  }

  lemma {:induction false} FirstArrival(claims: Claims, c: ClaimId, id: ClaimId, k: nat) returns (j: nat)
    requires Up(claims, c, k) == Some(id)
    ensures Up(claims, c, j) == Some(id) && forall i: nat :: i < j ==> Up(claims, c, i) != Some(id)
  {
    if i: nat :| i < k && Up(claims, c, i) == Some(id) {
      j := FirstArrival(claims, c, id, i);
    } else {
      j := k;
    }
  }

  /** A path that meets `id` only at its end does not notice a new pointer of `id`. */
  lemma {:induction false} ArrivalUnaffected(claims: Claims, id: ClaimId, row: ClaimRow, c: ClaimId, j: nat)
    requires Up(claims, c, j) == Some(id) && forall i: nat :: i < j ==> Up(claims, c, i) != Some(id)
    ensures Up(claims[id := row], c, j) == Some(id)
    decreases j
  {
    if j > 0 {
      assert Up(claims, c, 0) == Some(c);
      var up := claims[c].supersedes.value;
      forall i: nat | i < j - 1 ensures Up(claims, up, i) != Some(id) {
        assert Up(claims, c, i + 1) == Up(claims, up, i);
      }
      ArrivalUnaffected(claims, id, row, up, j - 1);
    }
  }

  lemma SavesKeepSound(claims: Claims, events: set<nat>, d: Draft)
    requires Sound(claims)
    ensures Sound(SaveClaim(claims, events, d).0)
  {
    var (after, answer) := SaveClaim(claims, events, d);
    if answer == Written {
      var id := ClaimId(d.event, d.key);
      var parent := if d.supersedes != "" then Some(ClaimId(d.event, d.supersedes)) else None;
      var row := if id in claims then claims[id].(status := d.status, supersedes := parent)
                 else ClaimRow("", false, d.status, parent);
      if parent.None? { ClearedStaysSound(claims, id, row); } else { PointerStaysSound(claims, id, row); }
      assert Pointers(after) == Pointers(claims[id := row]);
      SamePointers(claims[id := row], after);
    }
  }

  /** Removing claims, with the pointers to them cleared, keeps the rest sound. */
  lemma StripKeepsSound(st: Store, ids: set<nat>, now: int)
    requires Sound(st.claims)
    ensures Sound(Strip(st, ids, now).claims)
  {
    var r := Strip(st, ids, now).claims;
    var rank :| Ranked(st.claims, rank);
    assert Ranked(r, map c | c in r :: rank[c]);
  }

  lemma DetachKeepsSound(st: Store, ids: set<nat>, now: int)
    requires Sound(st.claims)
    ensures Sound(Detach(st, ids, now).claims)
  {
    StripKeepsSound(st, ids, now);
    ReconcileKeepsSound(Strip(st, ids, now), Named(Affected(st, ids)));
  }

  lemma ReconcileKeepsSound(st: Store, slots: set<(nat, string)>)
    requires Sound(st.claims)
    ensures Sound(Reconcile(st, slots).claims)
  {
    assert Pointers(Reconcile(st, slots).claims) == Pointers(st.claims);
    SamePointers(st.claims, Reconcile(st, slots).claims);
  }

  lemma {:induction false} SaveFactsKeepSound(st: Store, event: nat, report: nat, facts: seq<Fact>)
    requires Sound(st.claims) && SaveFacts(st, event, report, facts).Some?
    ensures Sound(SaveFacts(st, event, report, facts).value.claims)
    decreases |facts|
  {
    if facts != [] {
      var next := SaveFact(st, event, report, facts[0]).value;
      var id := ClaimId(event, facts[0].key);
      if id !in st.claims { ClearedStaysSound(st.claims, id, ClaimRow(facts[0].slot, true, Active, None)); }
      SaveFactsKeepSound(next, event, report, facts[1..]);
    }
  }

  lemma CompleteKeepsSound(st: Store, w: Work, facts: seq<Fact>, now: int)
    requires Sound(st.claims)
    ensures Sound(Complete(st, w, facts, now).0.claims)
  {
    if Complete(st, w, facts, now).1 == Done {
      SaveFactsKeepSound(st, w.event, w.report, facts);
      ReconcileKeepsSound(SaveFacts(st, w.event, w.report, facts).value, SlotsOf(w.event, facts));
    }
  }

  datatype Step =
    | SaveStep(events: set<nat>, draft: Draft)
    | CompleteStep(work: Work, facts: seq<Fact>, now: int)
    | DetachStep(ids: set<nat>, now: int)

  ghost function Next(st: Store, step: Step): Store {
    match step
    case SaveStep(events, d) => st.(claims := SaveClaim(st.claims, events, d).0)
    case CompleteStep(w, facts, now) => Complete(st, w, facts, now).0
    case DetachStep(ids, now) => Detach(st, ids, now)
  }

  ghost function Run(st: Store, steps: seq<Step>): Store
    decreases |steps|
  {
    if steps == [] then st else Run(Next(st, steps[0]), steps[1..])
  }

  lemma StepKeepsSound(st: Store, step: Step)
    requires Sound(st.claims)
    ensures Sound(Next(st, step).claims)
  {
    match step
    case SaveStep(events, d) => SavesKeepSound(st.claims, events, d);
    case CompleteStep(w, facts, now) => CompleteKeepsSound(st, w, facts, now);
    case DetachStep(ids, now) => DetachKeepsSound(st, ids, now);
  }

  /** After any sequence of claim saves, completed extractions and detaches the pointers are acyclic and
      stay within one event, so the ancestor walk always ends. */
  lemma {:induction false} RunKeepsSound(st: Store, steps: seq<Step>)
    requires Sound(st.claims)
    ensures Sound(Run(st, steps).claims)
    decreases |steps|
  {
    if steps != [] {
      StepKeepsSound(st, steps[0]);
      RunKeepsSound(Next(st, steps[0]), steps[1..]);
    }
  }

  lemma EmptyIsSound()
    ensures Sound(map[])
  {
    var rank: map<ClaimId, nat> := map[];
    var none: Claims := map[];
    assert Ranked(none, rank);
  }

  /** Hence in everything reached from a store without claims. */
  lemma PointersAreAlwaysSound(st: Store, steps: seq<Step>, c: ClaimId, k: nat)
    requires st.claims == map[] && c in Run(st, steps).claims && k > 0
    ensures Sound(Run(st, steps).claims)
    ensures Up(Run(st, steps).claims, c, k) != Some(c)
  {
    EmptyIsSound();
    RunKeepsSound(st, steps);
    SoundHasNoCycle(Run(st, steps).claims, c, k);
  }

  // ----- when a save keeps the slots settled ---------------------------------------------

  function StatusFor(count: nat): ClaimStatus { if count > 1 then Disputed else Active }

  /** The claim that the save marks as superseded. */
  predicate Supersedes(d: Draft, c: ClaimId) {
    d.status == Active && d.supersedes != "" && c == ClaimId(d.event, d.supersedes)
  }

  /** Live claims of a slot of the event whose rows the save does not write. */
  function Untouched(st: Store, d: Draft, slot: string): set<ClaimId> {
    set c | c in Live(st, d.event, slot) && c != ClaimId(d.event, d.key) && !Supersedes(d, c)
  }

  /** The saved claim is an automatic one of the slot and stays live. */
  predicate Stays(st: Store, d: Draft, slot: string) {
    var id := ClaimId(d.event, d.key);
    id in st.claims && st.claims[id].automatic && st.claims[id].slot == slot && d.status != FactStore.Superseded
  }

  function Remaining(st: Store, d: Draft, slot: string): nat {
    |Untouched(st, d, slot)| + if Stays(st, d, slot) then 1 else 0
  }

  /** The statuses in the slot fit the number of claims that remain: those not written were right for the old
      number, and the saved one has the status for the new number. */
  predicate Settles(st: Store, d: Draft, slot: string) {
    && (Untouched(st, d, slot) != {} ==> StatusFor(|Live(st, d.event, slot)|) == StatusFor(Remaining(st, d, slot)))
    && (Stays(st, d, slot) ==> d.status == StatusFor(Remaining(st, d, slot)))
  }

  /** The slots of the saved claim and of the one it supersedes are settled by the save itself. */
  predicate SettlesSlots(st: Store, d: Draft) {
    var id, parent := ClaimId(d.event, d.key), ClaimId(d.event, d.supersedes);
    && (id in st.claims ==> Settles(st, d, st.claims[id].slot))
    && (Supersedes(d, parent) && parent in st.claims ==> Settles(st, d, st.claims[parent].slot))
  }

  ghost function Saved(st: Store, events: set<nat>, d: Draft): Store {
    st.(claims := SaveClaim(st.claims, events, d).0)
  }

  lemma WrittenRow(st: Store, events: set<nat>, d: Draft, c: ClaimId)
    requires Refusal(st.claims, events, d).None?
    ensures var id, after := ClaimId(d.event, d.key), Saved(st, events, d).claims;
      && (c in after <==> c in st.claims || c == id)
      && (c in st.claims ==> after[c].slot == st.claims[c].slot && after[c].automatic == st.claims[c].automatic)
      && (c == id && c !in st.claims ==> !after[c].automatic)
      && (c in after ==>
            after[c].status == if Supersedes(d, c) then FactStore.Superseded
                               else if c == id then d.status else st.claims[c].status)
  {
  }

  lemma InSlotAfter(st: Store, events: set<nat>, d: Draft, c: ClaimId, slot: string)
    requires Valid(st) && Refusal(st.claims, events, d).None?
    ensures InSlot(Saved(st, events, d).claims, c, d.event, slot) <==>
      c in Untouched(st, d, slot) || (c == ClaimId(d.event, d.key) && Stays(st, d, slot))
  {
    WrittenRow(st, events, d, c);
  }

  lemma LiveAfter(st: Store, events: set<nat>, d: Draft, slot: string)
    requires Valid(st) && Refusal(st.claims, events, d).None?
    ensures |Live(Saved(st, events, d), d.event, slot)| == Remaining(st, d, slot)
  {
    var id, live := ClaimId(d.event, d.key), Live(Saved(st, events, d), d.event, slot);
    forall c ensures c in live <==> c in Untouched(st, d, slot) || (c == id && Stays(st, d, slot)) {
      InSlotAfter(st, events, d, c, slot);
    }
    if Stays(st, d, slot) {
      assert live == Untouched(st, d, slot) + {id};
    } else {
      assert live == Untouched(st, d, slot);
    }
  }

  lemma SlotAgreesIff(st: Store, events: set<nat>, d: Draft, slot: string)
    requires Valid(st) && Refusal(st.claims, events, d).None?
    ensures SlotAgrees(Saved(st, events, d), d.event, slot) <==> Settles(st, d, slot)
  {
    var after, id := Saved(st, events, d), ClaimId(d.event, d.key);
    LiveAfter(st, events, d, slot);
    assert SlotAgrees(st, d.event, slot);
    forall c ensures InSlot(after.claims, c, d.event, slot) <==>
                       c in Untouched(st, d, slot) || (c == id && Stays(st, d, slot)) {
      InSlotAfter(st, events, d, c, slot);
    }
    forall c | c in Untouched(st, d, slot)
      ensures c in after.claims && after.claims[c].status == StatusFor(|Live(st, d.event, slot)|) {
      WrittenRow(st, events, d, c);
    }
    if Stays(st, d, slot) { WrittenRow(st, events, d, id); }
    if SlotAgrees(after, d.event, slot) && Untouched(st, d, slot) != {} {
      var c :| c in Untouched(st, d, slot);
      assert InSlot(after.claims, c, d.event, slot);
    }
  }

  /** A save writes no claim of the slot, so nothing changes in it. */
  lemma OtherSlotSettles(st: Store, d: Draft, slot: string)
    requires Valid(st)
    requires var id := ClaimId(d.event, d.key); id in st.claims ==> st.claims[id].slot != slot
    requires var parent := ClaimId(d.event, d.supersedes);
      Supersedes(d, parent) && parent in st.claims ==> st.claims[parent].slot != slot
    ensures Settles(st, d, slot)
  {
    assert Untouched(st, d, slot) == Live(st, d.event, slot);
  }

  lemma OtherEventAgrees(st: Store, events: set<nat>, d: Draft, event: nat, slot: string)
    requires Valid(st) && Refusal(st.claims, events, d).None? && event != d.event
    ensures SlotAgrees(Saved(st, events, d), event, slot)
  {
    var after := Saved(st, events, d);
    assert SlotAgrees(st, event, slot);
    forall c: ClaimId | c.event == event ensures c in after.claims <==> c in st.claims
      ensures c in st.claims ==> after.claims[c] == st.claims[c] {}
    assert Live(after, event, slot) == Live(st, event, slot);
  }

  /** For every claim save, of a new or an existing, a manual or an automatic claim: it keeps the slot invariant
      exactly when it is refused or settles the slots it touches, for no save settles a slot again. */
  lemma SaveKeepsSlotsIff(st: Store, events: set<nat>, d: Draft)
    requires Valid(st)
    ensures Valid(Saved(st, events, d)) <==> Refusal(st.claims, events, d).Some? || SettlesSlots(st, d)
  {
    if Refusal(st.claims, events, d).None? {
      var after := Saved(st, events, d);
      var id, parent := ClaimId(d.event, d.key), ClaimId(d.event, d.supersedes);
      if id in st.claims { SlotAgreesIff(st, events, d, st.claims[id].slot); }
      if parent in st.claims { SlotAgreesIff(st, events, d, st.claims[parent].slot); }
      forall c | c in after.claims && after.claims[c].automatic
        ensures Supported(after.evidence, c) && after.claims[c].slot != "" {
        WrittenRow(st, events, d, c);
      }
      forall event: nat, slot ensures SlotAgrees(after, event, slot) <==> event != d.event || Settles(st, d, slot) {
        if event == d.event {
          SlotAgreesIff(st, events, d, slot);
        } else {
          OtherEventAgrees(st, events, d, event, slot);
        }
      }
      if SettlesSlots(st, d) {
        forall slot ensures Settles(st, d, slot) { SlotSettles(st, d, slot); }
      }
    }
  }

  lemma SlotSettles(st: Store, d: Draft, slot: string)
    requires Valid(st) && SettlesSlots(st, d)
    ensures Settles(st, d, slot)
  {
    var id, parent := ClaimId(d.event, d.key), ClaimId(d.event, d.supersedes);
    if !(id in st.claims && st.claims[id].slot == slot)
       && !(Supersedes(d, parent) && parent in st.claims && st.claims[parent].slot == slot) {
      OtherSlotSettles(st, d, slot);
    }
  }

  /** The save of a manual claim, new or not, unsettles a slot exactly when it supersedes one of exactly two live
      automatic claims: the other one is left disputed, alone. */
  lemma ManualSupersedeKeepsSlotsIff(st: Store, events: set<nat>, d: Draft)
    requires Valid(st)
    requires var id := ClaimId(d.event, d.key); id in st.claims ==> !st.claims[id].automatic
    ensures var parent := ClaimId(d.event, d.supersedes);
      Valid(Saved(st, events, d)) <==>
        !(&& Refusal(st.claims, events, d).None? && Supersedes(d, parent)
          && InSlot(st.claims, parent, d.event, st.claims[parent].slot)
          && |Live(st, d.event, st.claims[parent].slot)| == 2)
  {
    SaveKeepsSlotsIff(st, events, d);
    var id, parent := ClaimId(d.event, d.key), ClaimId(d.event, d.supersedes);
    if id in st.claims { ManualSettlesIff(st, d, st.claims[id].slot); }
    if parent in st.claims { ManualSettlesIff(st, d, st.claims[parent].slot); }
  }

  lemma ManualSettlesIff(st: Store, d: Draft, slot: string)
    requires Valid(st)
    requires var id := ClaimId(d.event, d.key); id in st.claims ==> !st.claims[id].automatic
    ensures var parent := ClaimId(d.event, d.supersedes);
      Settles(st, d, slot) <==>
        !(Supersedes(d, parent) && InSlot(st.claims, parent, d.event, slot) && |Live(st, d.event, slot)| == 2)
  {
    var parent, live := ClaimId(d.event, d.supersedes), Live(st, d.event, slot);
    if Supersedes(d, parent) && InSlot(st.claims, parent, d.event, slot) {
      assert Supported(st.evidence, parent);
      assert Untouched(st, d, slot) == live - {parent};
      assert |Untouched(st, d, slot)| == |live| - 1;
      if |live| == 2 { assert Untouched(st, d, slot) != {}; }
    } else {
      assert Untouched(st, d, slot) == live;
    }
  }
}
