/** Which edits of a valid configuration are accepted, and exactly what each leaves. */
module ConfigEdits {
  import opened Ordering
  import opened ManagedConfig

  // ----- replacing a row -----------------------------------------------------------------

  lemma OneMoreApart<T>(kept: seq<T>, row: T, id: T -> string)
    requires forall i, j :: 0 <= i < j < |kept| ==> id(kept[i]) != id(kept[j])
    requires forall x :: x in kept ==> id(x) != id(row)
    ensures var all := kept + [row]; forall i, j :: 0 <= i < j < |all| ==> id(all[i]) != id(all[j])
  {
    forall i | 0 <= i < |kept| ensures id(kept[i]) != id(row) { assert kept[i] in kept; }
  }

  lemma WithSourceIsSound(base: Base, p: Payload, s: Source)
    requires Sound(base, p) && s.fine && s.id !in base.sources
    ensures Sound(base, WithSource(p, s))
  {
    var q := WithSource(p, s);
    var kept := q.sources[..|q.sources| - 1];
    FilterSubsequence((row: Source) => row.id != s.id, p.sources, (row: Source) => row.id);
    assert kept == Filter((row: Source) => row.id != s.id, p.sources) && q.sources == kept + [s];
    OneMoreApart(kept, s, (row: Source) => row.id);
    forall r, id | r in q.rules && id in r.sources && id !in base.sources ensures Defined(q, id) {
      assert Defined(p, id);
      var t :| t in p.sources && t.id == id;
      assert id == s.id ==> s in q.sources;
      assert id != s.id ==> t in q.sources;
    }
  }

  lemma WithRuleIsSoundIff(base: Base, p: Payload, r: Rule)
    requires Sound(base, p) && r.fine && r.id !in base.rules
    ensures Sound(base, WithRule(p, r)) <==> Names(p, base, r.sources)
  {
    WithRuleIsUnique(base, p, r);
    WithRuleDanglesIff(base, p, r);
  }

  lemma WithRuleIsUnique(base: Base, p: Payload, r: Rule)
    requires AllFine(p) && UniqueRules(base, p) && r.fine && r.id !in base.rules
    ensures AllFine(WithRule(p, r)) && UniqueRules(base, WithRule(p, r))
  {
    var q := WithRule(p, r);
    var kept := Filter((row: Rule) => row.id != r.id, p.rules);
    FilterSubsequence((row: Rule) => row.id != r.id, p.rules, (row: Rule) => row.id);
    assert q.rules == kept + [r];
    OneMoreApart(kept, r, (row: Rule) => row.id);
  }

  lemma WithRuleDanglesIff(base: Base, p: Payload, r: Rule)
    requires NothingDangles(base, p)
    ensures NothingDangles(base, WithRule(p, r)) <==> Names(p, base, r.sources)
  {
    var q := WithRule(p, r);
    assert forall x :: x in q.rules <==> x == r || (x in p.rules && x.id != r.id);
    forall id ensures Defined(q, id) <==> Defined(p, id) {}
  }

  // ----- what is accepted ----------------------------------------------------------------

  ghost predicate Names(p: Payload, base: Base, ids: seq<string>) {
    forall id :: id in ids ==> id in base.sources || Defined(p, id)
  }

  /** An edit of a valid configuration may be committed: a row parses and does not shadow the base, a rule names
      only sources there are, a bundled rule names its source, what is deleted exists and a plainly deleted source
      is named by no rule, a section parses, and a restored payload is valid. */
  ghost predicate Acceptable(base: Base, p: Payload, edit: Edit) {
    match edit
    case UpsertSource(s) => s.fine && s.id !in base.sources
    case UpsertRule(r) => r.fine && r.id !in base.rules && Names(p, base, r.sources)
    case UpsertBundle(s, bundled) =>
      && s.fine && s.id !in base.sources
      && (bundled.Some? ==>
            && bundled.value.fine && bundled.value.id !in base.rules && s.id in bundled.value.sources
            && Names(WithSource(p, s), base, bundled.value.sources))
    case DeleteBundle(id) => Defined(p, id)
    case DeleteSource(id) => Defined(p, id) && forall r :: r in p.rules ==> id !in r.sources
    case DeleteRule(id) => exists r :: r in p.rules && r.id == id
    case SetSection(_, policy) => policy.fine
    case Restore(payload) => Validates(base, payload)
  }

  lemma SourceIsAcceptedIff(base: Base, p: Payload, s: Source)
    requires Sound(base, p)
    ensures Outcome(base, p, UpsertSource(s)).Candidate? <==> s.fine && s.id !in base.sources
  {
    if s.fine && s.id !in base.sources {
      WithSourceIsSound(base, p, s);
      ValidationIsExact(base, WithSource(p, s));
    }
  }

  lemma TakenIffValid(base: Base, p: Payload, edit: Edit, q: Payload)
    requires Edited(base, p, edit) == Candidate(q)
    ensures Outcome(base, p, edit).Candidate? <==> Validates(base, q)
  {
  }

  lemma RuleIsAcceptedIff(base: Base, p: Payload, r: Rule)
    requires Sound(base, p)
    ensures Outcome(base, p, UpsertRule(r)).Candidate? <==> r.fine && r.id !in base.rules && Names(p, base, r.sources)
  {
    forall id ensures id in Known(base, p) <==> id in base.sources || Defined(p, id) { DefinedIsListed(p, id); }
    if r.fine && r.id !in base.rules && Names(p, base, r.sources) {
      WithRuleIsSoundIff(base, p, r);
      ValidationIsExact(base, WithRule(p, r));
      TakenIffValid(base, p, UpsertRule(r), WithRule(p, r));
    }
  }

  lemma BundleIsAcceptedIff(base: Base, p: Payload, s: Source, r: Rule)
    requires Sound(base, p)
    ensures Outcome(base, p, UpsertBundle(s, Some(r))).Candidate? <==>
      && s.fine && s.id !in base.sources && r.fine && r.id !in base.rules && s.id in r.sources
      && Names(WithSource(p, s), base, r.sources)
  {
    if s.fine && s.id !in base.sources && r.fine && r.id !in base.rules {
      WithSourceIsSound(base, p, s);
      WithRuleIsSoundIff(base, WithSource(p, s), r);
      ValidationIsExact(base, WithRule(WithSource(p, s), r));
    }
  }

  lemma SourceStays(base: Base, p: Payload, id: string)
    requires Referenced(p, id) || id !in SourceIds(p)
    ensures !Outcome(base, p, DeleteSource(id)).Candidate?
  {
  }

  lemma SourceGoes(base: Base, p: Payload, id: string)
    requires Validates(base, p) && !Referenced(p, id) && id in SourceIds(p)
    ensures Outcome(base, p, DeleteSource(id)).Candidate?
  {
    PlainDeletionIsValid(base, p, id);
    ValidIsTaken(base, p, DeleteSource(id), WithoutSource(p, id));
  }

  lemma SourceDeletionIsAcceptedIff(base: Base, p: Payload, id: string)
    requires Validates(base, p)
    ensures Outcome(base, p, DeleteSource(id)).Candidate? <==> id in SourceIds(p) && !Referenced(p, id)
  {
    if id in SourceIds(p) && !Referenced(p, id) { SourceGoes(base, p, id); } else { SourceStays(base, p, id); }
  }

  lemma RuleDeletionIsAcceptedIff(base: Base, p: Payload, id: string)
    requires Validates(base, p)
    ensures Outcome(base, p, DeleteRule(id)).Candidate? <==> exists r :: r in p.rules && r.id == id
  {
    if id in RuleIds(p) {
      PlainDeletionIsValid(base, p, id);
      TakenIffValid(base, p, DeleteRule(id), WithoutRule(p, id));
    }
  }

  lemma SectionIsSound(base: Base, p: Payload, q: Payload)
    requires Sound(base, p) && q.sources == p.sources && q.rules == p.rules && AllFine(q)
    ensures Sound(base, q)
  {
    forall id | Defined(p, id) ensures Defined(q, id) {}
  }

  lemma SectionIsAcceptedIff(base: Base, p: Payload, section: Section, policy: Policy)
    requires Validates(base, p)
    ensures Outcome(base, p, SetSection(section, policy)).Candidate? <==> policy.fine
  {
    if policy.fine {
      var q := Edited(base, p, SetSection(section, policy)).payload;
      ValidationIsExact(base, p);
      SectionIsSound(base, p, q);
      ValidationIsExact(base, q);
      TakenIffValid(base, p, SetSection(section, policy), q);
    }
  }

  lemma UpsertIsAcceptedIff(base: Base, p: Payload, edit: Edit)
    requires Sound(base, p) && (edit.UpsertSource? || edit.UpsertRule? || edit.UpsertBundle?)
    ensures Outcome(base, p, edit).Candidate? <==> Acceptable(base, p, edit)
  {
    match edit
    case UpsertSource(s) => SourceIsAcceptedIff(base, p, s);
    case UpsertRule(r) => RuleIsAcceptedIff(base, p, r);
    case UpsertBundle(s, bundled) =>
      if bundled.Some? {
        BundleIsAcceptedIff(base, p, s, bundled.value);
      } else {
        SourceIsAcceptedIff(base, p, s);
        assert Edited(base, p, edit) == Edited(base, p, UpsertSource(s));
      }
  }

  lemma DeletionIsAcceptedIff(base: Base, p: Payload, edit: Edit)
    requires Validates(base, p) && (edit.DeleteBundle? || edit.DeleteSource? || edit.DeleteRule?)
    ensures Outcome(base, p, edit).Candidate? <==> Acceptable(base, p, edit)
  {
    match edit
    case DeleteBundle(id) =>
      DefinedIsListed(p, id);
      BundleDeletionIsValid(base, p, id);
    case DeleteSource(id) =>
      DefinedIsListed(p, id);
      SourceDeletionIsAcceptedIff(base, p, id);
      assert Referenced(p, id) <==> !forall r :: r in p.rules ==> id !in r.sources;
    case DeleteRule(id) => RuleDeletionIsAcceptedIff(base, p, id);
  }

  /** Of a valid configuration every acceptable edit is accepted, and no other. */
  lemma EditIsAcceptedIff(base: Base, p: Payload, edit: Edit)
    requires Validates(base, p)
    ensures Outcome(base, p, edit).Candidate? <==> Acceptable(base, p, edit)
  {
    if edit.SetSection? {
      SectionIsAcceptedIff(base, p, edit.section, edit.policy);
    } else if edit.DeleteBundle? || edit.DeleteSource? || edit.DeleteRule? {
      DeletionIsAcceptedIff(base, p, edit);
    } else if !edit.Restore? {
      ValidationIsExact(base, p);
      UpsertIsAcceptedIff(base, p, edit);
    }
  }

  // ----- what it leaves ------------------------------------------------------------------

  ghost predicate SameSections(p: Payload, q: Payload) {
    q.analysis == p.analysis && q.digest == p.digest && q.notifications == p.notifications
  }

  /** A deletion takes away the source, or the rule, of that identifier, a bundle also every rule that names the
      source; it leaves every other row and the sections. A section is set without touching anything else, and a
      restored payload is taken as it is. */
  lemma OtherEditsAreExact(base: Base, p: Payload, edit: Edit)
    requires Outcome(base, p, edit).Candidate?
    ensures var q := Outcome(base, p, edit).payload;
      match edit
      case DeleteBundle(id) =>
        && (forall s :: s in q.sources <==> s in p.sources && s.id != id)
        && (forall r :: r in q.rules <==> r in p.rules && id !in r.sources) && SameSections(p, q)
      case DeleteSource(id) =>
        (forall s :: s in q.sources <==> s in p.sources && s.id != id) && q.rules == p.rules && SameSections(p, q)
      case DeleteRule(id) =>
        (forall r :: r in q.rules <==> r in p.rules && r.id != id) && q.sources == p.sources && SameSections(p, q)
      case SetSection(section, policy) =>
        && q.sources == p.sources && q.rules == p.rules
        && q.analysis == (if section == AnalysisSection then Some(policy) else p.analysis)
        && q.digest == (if section == DigestSection then Some(policy) else p.digest)
        && q.notifications == (if section == NotificationSection then Some(policy) else p.notifications)
      case Restore(payload) => q == payload
      case _ => true
  {
  }

  /** An edit without effect: there was nothing of that identifier to delete. */
  lemma NothingToDelete(base: Base, p: Payload, edit: Edit)
    ensures Outcome(base, p, edit) == Nothing <==>
      || (edit.DeleteBundle? && !Defined(p, edit.id))
      || (edit.DeleteSource? && !Defined(p, edit.id) && forall r :: r in p.rules ==> edit.id !in r.sources)
      || (edit.DeleteRule? && !exists r :: r in p.rules && r.id == edit.id)
  {
    match edit
    case DeleteBundle(id) => DefinedIsListed(p, id);
    case DeleteSource(id) => DefinedIsListed(p, id);
    case DeleteRule(id) => assert id in RuleIds(p) <==> exists r :: r in p.rules && r.id == id;
    case _ =>
  }

  // ----- revisions -----------------------------------------------------------------------

  /** A commit on the active revision keeps every older payload under its number and makes the new one the only
      active revision, numbered next; any other commit changes nothing. */
  lemma CommitIsExact(rows: seq<Revision>, payload: Payload, expected: nat)
    requires Ordered(rows)
    ensures var r := Save(rows, payload, expected);
      if expected == |rows| then
        && |r| == |rows| + 1
        && (forall i :: 0 <= i < |rows| ==> r[i].number == i + 1 && r[i].payload == rows[i].payload && !r[i].active)
        && r[|rows|] == Revision(|rows| + 1, payload, true)
      else r == rows
  {
    SaveKeepsOrder(rows, payload, expected);
  }

  /** An editor's draft holds what the edit makes of the active payload, the number of the revision it was made from
      and the one it expects, that same one unless told otherwise; an edit that is not accepted leaves no draft. */
  lemma PreparationIsExact(base: Base, s: Session, editor: nat, edit: Edit, expected: Option<nat>)
    requires Ordered(s.rows)
    ensures var n := |s.rows|; var p := if n == 0 then Payload([], [], None, None, None) else s.rows[n - 1].payload;
      var r := Next(base, s, Prepare(editor, edit, expected));
      && r.rows == s.rows && r.log == s.log
      && (!Outcome(base, p, edit).Candidate? ==> r == s)
      && (Outcome(base, p, edit).Candidate? ==>
            && r.drafts.Keys == s.drafts.Keys + {editor}
            && (forall e :: e in s.drafts && e != editor ==> r.drafts[e] == s.drafts[e])
            && r.drafts[editor].edit == edit && r.drafts[editor].seen == n
            && r.drafts[editor].payload == Outcome(base, p, edit).payload
            && r.drafts[editor].expected == (if expected.None? then n else expected.value))
  {
    LastIsActive(s.rows);
  }
}
