/** The managed configuration: editors take a snapshot, edit it, validate the result and commit it as a new
    revision if the revision they expect is still the active one. Any number of editors interleave. */
module ManagedConfig {
  import opened Ordering

  /** `fine` tells whether a row, or a section, parses. */
  datatype Source = Source(id: string, body: int, fine: bool)
  datatype Rule = Rule(id: string, sources: seq<string>, body: int, fine: bool)
  datatype Policy = Policy(body: int, fine: bool)

  datatype Payload = Payload(sources: seq<Source>, rules: seq<Rule>, analysis: Option<Policy>, digest: Option<Policy>,
                             notifications: Option<Policy>)

  /** The identifiers the base configuration defines. */
  datatype Base = Base(sources: set<string>, rules: set<string>)

  const EMPTY := Payload([], [], None, None, None)

  function SourceIds(p: Payload): set<string> { set s | s in p.sources :: s.id }
  function RuleIds(p: Payload): set<string> { set r | r in p.rules :: r.id }
  function Known(base: Base, p: Payload): set<string> { base.sources + SourceIds(p) }

  predicate SectionFine(section: Option<Policy>) { section.Some? ==> section.value.fine }

  /** The check before every commit, by counting identifiers. */
  predicate Validates(base: Base, p: Payload) {
    && SectionFine(p.analysis) && SectionFine(p.digest) && SectionFine(p.notifications)
    && (forall s :: s in p.sources ==> s.fine) && (forall r :: r in p.rules ==> r.fine)
    && |base.sources + SourceIds(p)| == |base.sources| + |p.sources|
    && |base.rules + RuleIds(p)| == |base.rules| + |p.rules|
    && Mentioned(p) <= Known(base, p)
  }

  /** The sources that rules name. */
  function Mentioned(p: Payload): set<string> { set r, id | r in p.rules && id in r.sources :: id }

  // ----- what the check means ------------------------------------------------------------

  ghost predicate UniqueSources(base: Base, p: Payload) {
    && (forall i, j :: 0 <= i < j < |p.sources| ==> p.sources[i].id != p.sources[j].id)
    && (forall s :: s in p.sources ==> s.id !in base.sources)
  }

  ghost predicate UniqueRules(base: Base, p: Payload) {
    && (forall i, j :: 0 <= i < j < |p.rules| ==> p.rules[i].id != p.rules[j].id)
    && (forall r :: r in p.rules ==> r.id !in base.rules)
  }

  /** No rule names a source that neither the base nor the payload defines. */
  ghost predicate NothingDangles(base: Base, p: Payload) {
    forall r, id :: r in p.rules && id in r.sources ==> id in base.sources || Defined(p, id)
  }

  ghost predicate Defined(p: Payload, id: string) { exists s :: s in p.sources && s.id == id }

  ghost predicate AllFine(p: Payload) {
    && SectionFine(p.analysis) && SectionFine(p.digest) && SectionFine(p.notifications)
    && (forall s :: s in p.sources ==> s.fine) && (forall r :: r in p.rules ==> r.fine)
  }

  function IdSet(ids: seq<string>): set<string> { set id | id in ids }

  lemma {:induction false} CountingIdentifiers(base: set<string>, ids: seq<string>)
    ensures |base + IdSet(ids)| <= |base| + |ids|
    ensures |base + IdSet(ids)| == |base| + |ids| <==> Distinct(ids) && forall id :: id in ids ==> id !in base
  {
    if ids == [] {
      assert base + IdSet(ids) == base;
    } else {
      var n := |ids| - 1;
      var last := ids[n];
      assert ids == ids[..n] + [last];
      CountingIdentifiers(base, ids[..n]);
      assert base + IdSet(ids) == (base + IdSet(ids[..n])) + {last};
      if last in base + IdSet(ids[..n]) {
        assert base + IdSet(ids) == base + IdSet(ids[..n]);
        assert last in base || exists i :: 0 <= i < n && ids[i] == last;
        assert last in ids;
      } else {
        assert Distinct(ids) <==> Distinct(ids[..n]);
      }
    }
  }

  function SourceIdSeq(p: Payload): (ids: seq<string>)
    ensures |ids| == |p.sources| && forall i :: 0 <= i < |ids| ==> ids[i] == p.sources[i].id
  {
    seq(|p.sources|, i requires 0 <= i < |p.sources| => p.sources[i].id)
  }

  function RuleIdSeq(p: Payload): (ids: seq<string>)
    ensures |ids| == |p.rules| && forall i :: 0 <= i < |ids| ==> ids[i] == p.rules[i].id
  {
    seq(|p.rules|, i requires 0 <= i < |p.rules| => p.rules[i].id)
  }

  lemma SourceIdsListed(p: Payload)
    ensures SourceIds(p) == IdSet(SourceIdSeq(p))
    ensures forall id :: id in SourceIdSeq(p) <==> exists s :: s in p.sources && s.id == id
  {
    var ids := SourceIdSeq(p);
    forall s | s in p.sources ensures s.id in ids {
      var i :| 0 <= i < |p.sources| && p.sources[i] == s;
      assert ids[i] == s.id;
    }
    forall id | id in ids ensures exists s :: s in p.sources && s.id == id {
      var i :| 0 <= i < |ids| && ids[i] == id;
      assert p.sources[i] in p.sources;
    }
  }

  lemma RuleIdsListed(p: Payload)
    ensures RuleIds(p) == IdSet(RuleIdSeq(p))
    ensures forall id :: id in RuleIdSeq(p) <==> exists r :: r in p.rules && r.id == id
  {
    var ids := RuleIdSeq(p);
    forall r | r in p.rules ensures r.id in ids {
      var i :| 0 <= i < |p.rules| && p.rules[i] == r;
      assert ids[i] == r.id;
    }
    forall id | id in ids ensures exists r :: r in p.rules && r.id == id {
      var i :| 0 <= i < |ids| && ids[i] == id;
      assert p.rules[i] in p.rules;
    }
  }

  lemma SourceCount(base: Base, p: Payload)
    ensures |base.sources + SourceIds(p)| == |base.sources| + |p.sources| <==> UniqueSources(base, p)
  {
    var ids := SourceIdSeq(p);
    CountingIdentifiers(base.sources, ids);
    SourceIdsListed(p);
    assert Distinct(ids) <==> forall i, j :: 0 <= i < j < |p.sources| ==> p.sources[i].id != p.sources[j].id;
  }

  lemma RuleCount(base: Base, p: Payload)
    ensures |base.rules + RuleIds(p)| == |base.rules| + |p.rules| <==> UniqueRules(base, p)
  {
    var ids := RuleIdSeq(p);
    CountingIdentifiers(base.rules, ids);
    RuleIdsListed(p);
    assert Distinct(ids) <==> forall i, j :: 0 <= i < j < |p.rules| ==> p.rules[i].id != p.rules[j].id;
  }

  lemma DefinedIsListed(p: Payload, id: string)
    ensures Defined(p, id) <==> id in SourceIds(p)
  {
  }

  ghost predicate Sound(base: Base, p: Payload) {
    AllFine(p) && UniqueSources(base, p) && UniqueRules(base, p) && NothingDangles(base, p)
  }

  /** Counting finds exactly the payloads with unique identifiers, apart from the base's and from each other,
      and without dangling references. */
  lemma ValidationIsExact(base: Base, p: Payload)
    ensures Validates(base, p) <==> Sound(base, p)
  {
    SourceCount(base, p);
    RuleCount(base, p);
    MentionedAreKnown(base, p);
  }

  lemma MentionedAreKnown(base: Base, p: Payload)
    ensures Mentioned(p) <= Known(base, p) <==> NothingDangles(base, p)
  {
    forall id ensures id in Known(base, p) <==> id in base.sources || Defined(p, id) { DefinedIsListed(p, id); }
    if NothingDangles(base, p) {
      forall id | id in Mentioned(p) ensures id in Known(base, p) {
        var r :| r in p.rules && id in r.sources;
      }
    }
    if Mentioned(p) <= Known(base, p) {
      forall r, id | r in p.rules && id in r.sources ensures id in base.sources || Defined(p, id) {
        assert id in Mentioned(p);
      }
    }
  }

  // ----- edits ---------------------------------------------------------------------------

  datatype Section = AnalysisSection | DigestSection | NotificationSection

  datatype Edit =
    | UpsertSource(source: Source)
    | UpsertRule(rule: Rule)
    | UpsertBundle(source: Source, bundled: Option<Rule>)
    | DeleteBundle(id: string)
    | DeleteSource(id: string)
    | DeleteRule(id: string)
    | SetSection(section: Section, policy: Policy)
    | Restore(payload: Payload)  // an earlier revision's payload

  datatype Reason = Malformed | Reserved | UnknownSources | RuleMissesSource | StillReferenced | Invalid

  datatype Verdict = Refused(reason: Reason) | Nothing | Candidate(payload: Payload)

  function WithSource(p: Payload, s: Source): Payload {
    p.(sources := Filter((row: Source) => row.id != s.id, p.sources) + [s])
  }
  function WithRule(p: Payload, r: Rule): Payload { p.(rules := Filter((row: Rule) => row.id != r.id, p.rules) + [r]) }
  function WithoutSource(p: Payload, id: string): Payload {
    p.(sources := Filter((row: Source) => row.id != id, p.sources))
  }
  function WithoutRule(p: Payload, id: string): Payload { p.(rules := Filter((row: Rule) => row.id != id, p.rules)) }

  function WithoutBundle(p: Payload, id: string): Payload {
    p.(sources := Filter((row: Source) => row.id != id, p.sources),
      rules := Filter((row: Rule) => id !in row.sources, p.rules))
  }

  predicate Referenced(p: Payload, id: string) { exists r :: r in p.rules && id in r.sources }

  function Edited(base: Base, p: Payload, edit: Edit): Verdict {
    match edit
    case UpsertSource(s) =>
      if !s.fine then Refused(Malformed) else if s.id in base.sources then Refused(Reserved)
        else Candidate(WithSource(p, s))
    case UpsertRule(r) =>
      if !r.fine then Refused(Malformed) else if r.id in base.rules then Refused(Reserved)
      else if exists id :: id in r.sources && id !in Known(base, p) then Refused(UnknownSources)
      else Candidate(WithRule(p, r))
    case UpsertBundle(s, bundled) =>
      if !s.fine then Refused(Malformed) else if s.id in base.sources then Refused(Reserved)
      else if bundled.None? then Candidate(WithSource(p, s))
      else if !bundled.value.fine then Refused(Malformed)
      else if bundled.value.id in base.rules then Refused(Reserved)
      else if s.id !in bundled.value.sources then Refused(RuleMissesSource)
      else Candidate(WithRule(WithSource(p, s), bundled.value))
    case DeleteBundle(id) => if id in SourceIds(p) then Candidate(WithoutBundle(p, id)) else Nothing
    case DeleteSource(id) =>
      if Referenced(p, id) then Refused(StillReferenced) else if id in SourceIds(p) then Candidate(WithoutSource(p, id))
        else Nothing
    case DeleteRule(id) => if id in RuleIds(p) then Candidate(WithoutRule(p, id)) else Nothing
    case SetSection(section, policy) =>
      if !policy.fine then Refused(Malformed)
      else Candidate(match section
                     case AnalysisSection => p.(analysis := Some(policy))
                     case DigestSection => p.(digest := Some(policy))
                     case NotificationSection => p.(notifications := Some(policy)))
    case Restore(payload) => Candidate(payload)
  }

  /** What an edit makes of a payload, after the check. */
  function Outcome(base: Base, p: Payload, edit: Edit): Verdict {
    match Edited(base, p, edit)
    case Candidate(q) => if Validates(base, q) then Candidate(q) else Refused(Invalid)
    case other => other
  }

  /** `after` holds the one row `row` under its identifier, and every other row as before. */
  ghost predicate ReplacesSource(before: seq<Source>, after: seq<Source>, row: Source) {
    forall s :: s in after <==> s == row || (s in before && s.id != row.id)
  }

  ghost predicate ReplacesRule(before: seq<Rule>, after: seq<Rule>, row: Rule) {
    forall r :: r in after <==> r == row || (r in before && r.id != row.id)
  }

  /** An accepted upsert replaces exactly the rows it names and leaves the sections alone. */
  lemma UpsertsReplace(base: Base, p: Payload, edit: Edit)
    requires edit.UpsertSource? || edit.UpsertRule? || edit.UpsertBundle?
    ensures var outcome := Outcome(base, p, edit);
      outcome.Candidate? ==>
        var q := outcome.payload;
        && (if edit.UpsertRule? then q.sources == p.sources else ReplacesSource(p.sources, q.sources, edit.source))
        && (if edit.UpsertSource? || (edit.UpsertBundle? && edit.bundled.None?) then q.rules == p.rules
            else ReplacesRule(p.rules, q.rules, if edit.UpsertRule? then edit.rule else edit.bundled.value))
        && (edit.UpsertBundle? && edit.bundled.Some? ==> edit.source.id in edit.bundled.value.sources)
        && q.analysis == p.analysis && q.digest == p.digest && q.notifications == p.notifications
  {
    match edit {
      case UpsertSource(source) => SourceReplaced(p, source);
      case UpsertRule(rule) => RuleReplaced(p, rule);
      case UpsertBundle(source, bundled) =>
        SourceReplaced(p, source);
        if bundled.Some? { RuleReplaced(WithSource(p, source), bundled.value); }
    }
  }

  lemma SourceReplaced(p: Payload, row: Source)
    ensures ReplacesSource(p.sources, WithSource(p, row).sources, row) && WithSource(p, row).rules == p.rules
  {
  }

  lemma RuleReplaced(p: Payload, row: Rule)
    ensures ReplacesRule(p.rules, WithRule(p, row).rules, row) && WithRule(p, row).sources == p.sources
  {
  }

  lemma {:induction false} FilterSubsequence<T(!new)>(keep: T -> bool, s: seq<T>, id: T -> string)
    requires forall i, j :: 0 <= i < j < |s| ==> id(s[i]) != id(s[j])
    ensures forall i, j :: 0 <= i < j < |Filter(keep, s)| ==> id(Filter(keep, s)[i]) != id(Filter(keep, s)[j])
  {
    if s != [] {
      FilterSubsequence(keep, s[1..], id);
      var rest := Filter(keep, s[1..]);
      forall j | 0 <= j < |rest| ensures id(rest[j]) != id(s[0]) {
        assert rest[j] in rest;
        assert rest[j] in s[1..];
      }
    }
  }

  lemma FilteringIsSound(base: Base, p: Payload, q: Payload, keepSource: Source -> bool, keepRule: Rule -> bool)
    requires Sound(base, p) && q == p.(sources := Filter(keepSource, p.sources), rules := Filter(keepRule, p.rules))
    requires forall r, s :: r in q.rules && s in p.sources && s.id in r.sources ==> keepSource(s)
    ensures Sound(base, q)
  {
    FilterSubsequence(keepSource, p.sources, (row: Source) => row.id);
    FilterSubsequence(keepRule, p.rules, (row: Rule) => row.id);
    forall r, id | r in q.rules && id in r.sources && id !in base.sources ensures Defined(q, id) {
      assert Defined(p, id);
      var s :| s in p.sources && s.id == id;
      assert s in q.sources;
    }
  }

  lemma {:induction false} KeepingAll<T(!new)>(s: seq<T>)
    ensures Filter((row: T) => true, s) == s
  {
    if s != [] {
      KeepingAll(s[1..]);
      assert s == [s[0]] + s[1..];
    }
  }

  lemma WithoutBundleIsValid(base: Base, p: Payload, id: string)
    requires Validates(base, p)
    ensures Validates(base, WithoutBundle(p, id))
  {
    ValidationIsExact(base, p);
    FilteringIsSound(base, p, WithoutBundle(p, id), (row: Source) => row.id != id, (row: Rule) => id !in row.sources);
    ValidationIsExact(base, WithoutBundle(p, id));
  }

  /** After the removal neither the source nor a rule that names it is left. */
  lemma BundleIsGone(p: Payload, id: string)
    ensures !Referenced(WithoutBundle(p, id), id) && id !in SourceIds(WithoutBundle(p, id))
  {
  }

  /** Removing a bundle from a valid payload leaves a valid payload: the deletion is never refused. */
  lemma BundleDeletionIsValid(base: Base, p: Payload, id: string)
    requires Validates(base, p)
    ensures id in SourceIds(p) ==> Outcome(base, p, DeleteBundle(id)).Candidate?
    ensures id !in SourceIds(p) ==> Outcome(base, p, DeleteBundle(id)) == Nothing
  {
    if id in SourceIds(p) {
      WithoutBundleIsValid(base, p, id);
      ValidIsTaken(base, p, DeleteBundle(id), WithoutBundle(p, id));
    }
  }

  lemma ValidIsTaken(base: Base, p: Payload, edit: Edit, q: Payload)
    requires Edited(base, p, edit) == Candidate(q) && Validates(base, q)
    ensures Outcome(base, p, edit) == Candidate(q)
  {
  }

  /** Deleting a source nobody references, or a rule, is never refused either. */
  lemma PlainDeletionIsValid(base: Base, p: Payload, id: string)
    requires Validates(base, p)
    ensures !Referenced(p, id) ==> Validates(base, WithoutSource(p, id))
    ensures Validates(base, WithoutRule(p, id))
  {
    ValidationIsExact(base, p);
    KeepingAll(p.sources);
    KeepingAll(p.rules);
    FilteringIsSound(base, p, WithoutRule(p, id), (row: Source) => true, (row: Rule) => row.id != id);
    ValidationIsExact(base, WithoutRule(p, id));
    if !Referenced(p, id) {
      FilteringIsSound(base, p, WithoutSource(p, id), (row: Source) => row.id != id, (row: Rule) => true);
      ValidationIsExact(base, WithoutSource(p, id));
    }
  }

  // ----- the revision table --------------------------------------------------------------

  datatype Revision = Revision(number: nat, payload: Payload, active: bool)

  /** The newest active revision, 0 without one. */
  function ActiveNumber(rows: seq<Revision>): nat {
    if rows == [] then 0
    else
      var rest := ActiveNumber(rows[..|rows| - 1]);
      var row := rows[|rows| - 1];
      if row.active && row.number > rest then row.number else rest
  }

  function MaxNumber(rows: seq<Revision>): nat {
    if rows == [] then 0
    else
      var rest := MaxNumber(rows[..|rows| - 1]);
      if rows[|rows| - 1].number > rest then rows[|rows| - 1].number else rest
  }

  function Deactivated(rows: seq<Revision>): (r: seq<Revision>)
    ensures |r| == |rows| && forall i :: 0 <= i < |rows| ==> r[i] == rows[i].(active := false)
  {
    seq(|rows|, i requires 0 <= i < |rows| => rows[i].(active := false))
  }

  /** One commit; a conflict changes nothing. */
  function Save(rows: seq<Revision>, payload: Payload, expected: nat): seq<Revision> {
    if expected != ActiveNumber(rows) then rows
    else Deactivated(rows) + [Revision(MaxNumber(rows) + 1, payload, true)]
  }

  function PayloadOf(rows: seq<Revision>, number: nat): Payload {
    if 1 <= number <= |rows| then rows[number - 1].payload else EMPTY
  }

  /** Revisions are numbered from 1 without gaps, and the last one alone is active. */
  ghost predicate Ordered(rows: seq<Revision>) {
    forall i :: 0 <= i < |rows| ==> rows[i].number == i + 1 && (rows[i].active <==> i == |rows| - 1)
  }

  lemma {:induction false} NumbersAreCounted(rows: seq<Revision>)
    requires forall i :: 0 <= i < |rows| ==> rows[i].number == i + 1
    ensures MaxNumber(rows) == |rows|
  {
    if rows != [] { NumbersAreCounted(rows[..|rows| - 1]); }
  }

  lemma {:induction false} OlderIsSmaller(rows: seq<Revision>)
    requires forall i :: 0 <= i < |rows| ==> rows[i].number == i + 1
    ensures ActiveNumber(rows) <= |rows|
  {
    if rows != [] { OlderIsSmaller(rows[..|rows| - 1]); }
  }

  lemma LastIsActive(rows: seq<Revision>)
    requires Ordered(rows)
    ensures ActiveNumber(rows) == |rows|
  {
    if rows != [] {
      var older := rows[..|rows| - 1];
      OlderIsSmaller(older);
      assert rows[|rows| - 1].active && rows[|rows| - 1].number == |rows|;
    }
  }

  lemma SaveKeepsOrder(rows: seq<Revision>, payload: Payload, expected: nat)
    requires Ordered(rows)
    ensures Ordered(Save(rows, payload, expected))
    ensures Save(rows, payload, expected) != rows <==> expected == |rows|
    ensures expected == |rows| ==>
      Save(rows, payload, expected) == Deactivated(rows) + [Revision(|rows| + 1, payload, true)]
  {
    LastIsActive(rows);
    NumbersAreCounted(rows);
  }

  // ----- interleaved editors -------------------------------------------------------------

  /** An edit between snapshot and commit: the revision the snapshot showed, the revision the commit expects,
      and the payload to commit. */
  datatype Draft = Draft(edit: Edit, seen: nat, expected: nat, payload: Payload)

  /** `log` holds the committed edits in order. */
  datatype Session = Session(rows: seq<Revision>, drafts: map<nat, Draft>, log: seq<Edit>)

  datatype Step =
    | Prepare(editor: nat, edit: Edit, expected: Option<nat>)  // None: the revision of the snapshot
    | Commit(editor: nat)

  function Next(base: Base, s: Session, step: Step): Session {
    match step
    case Prepare(editor, edit, expected) =>
      var seen := ActiveNumber(s.rows);
      (match Outcome(base, PayloadOf(s.rows, seen), edit)
       case Candidate(payload) =>
         s.(drafts := s.drafts[editor := Draft(edit, seen, if expected.Some? then expected.value else seen, payload)])
       case _ => s)
    case Commit(editor) =>
      if editor !in s.drafts then s
      else
        var d := s.drafts[editor];
        Session(Save(s.rows, d.payload, d.expected), s.drafts - {editor},
                if d.expected == ActiveNumber(s.rows) then s.log + [d.edit] else s.log)
  }

  /** An explicit expected revision is one that existed when the snapshot was taken. */
  predicate Observed(s: Session, step: Step) {
    step.Prepare? && step.expected.Some? ==> step.expected.value <= ActiveNumber(s.rows)
  }

  ghost predicate DraftFits(base: Base, rows: seq<Revision>, d: Draft) {
    d.expected <= d.seen <= |rows| && Outcome(base, PayloadOf(rows, d.seen), d.edit) == Candidate(d.payload)
  }

  ghost predicate Linked(base: Base, s: Session, i: nat)
    requires i < |s.rows| && i < |s.log|
  {
    Outcome(base, PayloadOf(s.rows, i), s.log[i]) == Candidate(s.rows[i].payload)
  }

  ghost predicate Invariant(base: Base, s: Session) {
    && Ordered(s.rows) && |s.log| == |s.rows|
    && (forall i :: 0 <= i < |s.rows| ==> Linked(base, s, i))
    && (forall e :: e in s.drafts ==> DraftFits(base, s.rows, s.drafts[e]))
  }

  lemma StepKeepsInvariant(base: Base, s: Session, step: Step)
    requires Invariant(base, s) && Observed(s, step)
    ensures Invariant(base, Next(base, s, step))
  {
    LastIsActive(s.rows);
    if step.Commit? {
      CommitKeeps(base, s, step.editor);
    } else {
      var r := Next(base, s, step);
      forall i | 0 <= i < |r.rows| ensures Linked(base, r, i) { assert Linked(base, s, i); }
    }
  }

  lemma CommitKeeps(base: Base, s: Session, editor: nat)
    requires Invariant(base, s)
    ensures Invariant(base, Next(base, s, Commit(editor)))
  {
    LastIsActive(s.rows);
    if editor !in s.drafts { return; }
    var d := s.drafts[editor];
    assert DraftFits(base, s.rows, d);
    SaveKeepsOrder(s.rows, d.payload, d.expected);
    var drafts := s.drafts - {editor};
    if d.expected == |s.rows| {
      var rows := Deactivated(s.rows) + [Revision(|s.rows| + 1, d.payload, true)];
      AppendKeeps(base, s, d, rows, drafts);
    } else {
      assert Next(base, s, Commit(editor)) == Session(s.rows, drafts, s.log);
      var r := Session(s.rows, drafts, s.log);
      forall i | 0 <= i < |r.rows| ensures Linked(base, r, i) { assert Linked(base, s, i); }
    }
  }

  lemma AppendKeeps(base: Base, s: Session, d: Draft, rows: seq<Revision>, drafts: map<nat, Draft>)
    requires Invariant(base, s) && DraftFits(base, s.rows, d) && d.seen == |s.rows| && Ordered(rows)
    requires rows == Deactivated(s.rows) + [Revision(|s.rows| + 1, d.payload, true)]
    requires forall e :: e in drafts ==> e in s.drafts && drafts[e] == s.drafts[e]
    ensures Invariant(base, Session(rows, drafts, s.log + [d.edit]))
  {
    PayloadsStay(s.rows, rows);
    LinksStay(base, s, d, rows, drafts);
    DraftsStay(base, s, rows, drafts);
  }

  lemma PayloadsStay(before: seq<Revision>, after: seq<Revision>)
    requires |before| <= |after| && forall i :: 0 <= i < |before| ==> after[i].payload == before[i].payload
    ensures forall n: nat :: n <= |before| ==> PayloadOf(after, n) == PayloadOf(before, n)
  {
  }

  lemma LinksStay(base: Base, s: Session, d: Draft, rows: seq<Revision>, drafts: map<nat, Draft>)
    requires |s.log| == |s.rows| && forall i :: 0 <= i < |s.rows| ==> Linked(base, s, i)
    requires DraftFits(base, s.rows, d) && d.seen == |s.rows|
    requires rows == Deactivated(s.rows) + [Revision(|s.rows| + 1, d.payload, true)]
    requires forall n: nat :: n <= |s.rows| ==> PayloadOf(rows, n) == PayloadOf(s.rows, n)
    ensures forall i :: 0 <= i < |rows| ==> Linked(base, Session(rows, drafts, s.log + [d.edit]), i)
  {
    var r := Session(rows, drafts, s.log + [d.edit]);
    forall i | 0 <= i < |rows| ensures Linked(base, r, i) {
      if i < |s.rows| {
        LinkStays(base, s, r, i);
      } else {
        LinkIsMade(base, s.rows, d, r);
      }
    }
  }

  lemma DraftsStay(base: Base, s: Session, rows: seq<Revision>, drafts: map<nat, Draft>)
    requires forall e :: e in s.drafts ==> DraftFits(base, s.rows, s.drafts[e])
    requires forall e :: e in drafts ==> e in s.drafts && drafts[e] == s.drafts[e]
    requires |s.rows| <= |rows| && forall n: nat :: n <= |s.rows| ==> PayloadOf(rows, n) == PayloadOf(s.rows, n)
    ensures forall e :: e in drafts ==> DraftFits(base, rows, drafts[e])
  {
    forall e | e in drafts ensures DraftFits(base, rows, drafts[e]) { DraftStays(base, s.rows, rows, s.drafts[e]); }
  }

  lemma LinkStays(base: Base, s: Session, r: Session, i: nat)
    requires i < |s.rows| && i < |s.log| && i < |r.rows| && i < |r.log| && Linked(base, s, i)
    requires PayloadOf(r.rows, i) == PayloadOf(s.rows, i) && r.log[i] == s.log[i]
      && r.rows[i].payload == s.rows[i].payload
    ensures Linked(base, r, i)
  {
  }

  lemma LinkIsMade(base: Base, before: seq<Revision>, d: Draft, r: Session)
    requires DraftFits(base, before, d) && d.seen < |r.rows| && d.seen < |r.log|
    requires PayloadOf(r.rows, d.seen) == PayloadOf(before, d.seen) && r.log[d.seen] == d.edit
      && r.rows[d.seen].payload == d.payload
    ensures Linked(base, r, d.seen)
  {
  }

  lemma DraftStays(base: Base, before: seq<Revision>, after: seq<Revision>, d: Draft)
    requires DraftFits(base, before, d) && |before| <= |after| && PayloadOf(after, d.seen) == PayloadOf(before, d.seen)
    ensures DraftFits(base, after, d)
  {
  }

  ghost function Run(base: Base, s: Session, steps: seq<Step>): Session
    decreases |steps|
  {
    if steps == [] then s else Run(base, Next(base, s, steps[0]), steps[1..])
  }

  ghost predicate AllObserved(base: Base, s: Session, steps: seq<Step>)
    decreases |steps|
  {
    steps == [] || (Observed(s, steps[0]) && AllObserved(base, Next(base, s, steps[0]), steps[1..]))
  }

  lemma {:induction false} RunKeepsInvariant(base: Base, s: Session, steps: seq<Step>)
    requires Invariant(base, s) && AllObserved(base, s, steps)
    ensures Invariant(base, Run(base, s, steps))
    decreases |steps|
  {
    if steps != [] {
      StepKeepsInvariant(base, s, steps[0]);
      RunKeepsInvariant(base, Next(base, s, steps[0]), steps[1..]);
    }
  }

  const FRESH := Session([], map[], [])

  /** The payload after edits made one after the other by a single editor. */
  function Serial(base: Base, edits: seq<Edit>): Payload {
    if edits == [] then EMPTY
    else
      var before := Serial(base, edits[..|edits| - 1]);
      match Outcome(base, before, edits[|edits| - 1])
      case Candidate(p) => p
      case _ => before
  }

  lemma {:induction false} PrefixIsSerial(base: Base, s: Session, n: nat)
    requires Invariant(base, s) && n <= |s.rows|
    ensures Serial(base, s.log[..n]) == PayloadOf(s.rows, n)
  {
    if n > 0 {
      PrefixIsSerial(base, s, n - 1);
      assert s.log[..n][..n - 1] == s.log[..n - 1];
      assert Linked(base, s, n - 1);
    }
  }

  /** Concurrent edits serialise: for any interleaving of any editors the active payload is what a single
      editor gets from the committed edits in revision order; exactly one revision is active, the newest; and
      every committed payload is valid. */
  lemma EditsSerialise(base: Base, steps: seq<Step>)
    requires AllObserved(base, FRESH, steps)
    ensures var s := Run(base, FRESH, steps);
      && |s.log| == |s.rows| && ActiveNumber(s.rows) == |s.rows| == MaxNumber(s.rows)
      && PayloadOf(s.rows, ActiveNumber(s.rows)) == Serial(base, s.log)
      && (forall i :: 0 <= i < |s.rows| ==> s.rows[i].number == i + 1 && (s.rows[i].active <==> i == |s.rows| - 1))
      && (forall i :: 0 <= i < |s.rows| ==> Validates(base, s.rows[i].payload))
  {
    RunKeepsInvariant(base, FRESH, steps);
    var s := Run(base, FRESH, steps);
    LastIsActive(s.rows);
    NumbersAreCounted(s.rows);
    PrefixIsSerial(base, s, |s.rows|);
    assert s.log[..|s.rows|] == s.log;
    forall i | 0 <= i < |s.rows| ensures Validates(base, s.rows[i].payload) { assert Linked(base, s, i); }
  }

  lemma PrepareTakes(base: Base, s: Session, editor: nat, edit: Edit, expected: nat, p: Payload)
    requires Ordered(s.rows) && Outcome(base, PayloadOf(s.rows, |s.rows|), edit) == Candidate(p)
    ensures Next(base, s, Prepare(editor, edit, Some(expected)))
      == s.(drafts := s.drafts[editor := Draft(edit, |s.rows|, expected, p)])
  {
    LastIsActive(s.rows);
  }

  lemma CommitTakes(base: Base, s: Session, editor: nat)
    requires Ordered(s.rows) && editor in s.drafts && s.drafts[editor].expected == |s.rows|
    ensures var r := Next(base, s, Commit(editor));
      && Ordered(r.rows) && |r.rows| == |s.rows| + 1 && PayloadOf(r.rows, |r.rows|) == s.drafts[editor].payload
      && r.drafts == s.drafts - {editor} && r.log == s.log + [s.drafts[editor].edit]
  {
    LastIsActive(s.rows);
    SaveKeepsOrder(s.rows, s.drafts[editor].payload, s.drafts[editor].expected);
  }

  /** An undisturbed change of the digest policy by another editor. */
  function Round(base: Base, s: Session, policy: Policy): Session {
    Next(base, Next(base, s, Prepare(1, SetSection(DigestSection, policy), None)), Commit(1))
  }

  function Rounds(base: Base, policy: Policy): Session -> Session { (s: Session) => Round(base, s, policy) }

  /** Each element comes from the one before. */
  ghost predicate Iterates<T(!new)>(f: T -> T, path: seq<T>) {
    path != [] && forall i :: 0 < i < |path| ==> path[i] == f(path[i - 1])
  }

  lemma IteratesFurther<T(!new)>(f: T -> T, path: seq<T>)
    requires Iterates(f, path)
    ensures Iterates(f, path + [f(path[|path| - 1])])
  {
    var longer := path + [f(path[|path| - 1])];
    forall i | 0 < i < |longer| ensures longer[i] == f(longer[i - 1]) {
      assert i < |path| ==> path[i] == f(path[i - 1]);
    }
  }

  /** One edit of editor 1, undisturbed. */
  lemma EditTakes(base: Base, s: Session, edit: Edit, p: Payload)
    requires Ordered(s.rows) && Outcome(base, PayloadOf(s.rows, |s.rows|), edit) == Candidate(p)
    ensures var r := Next(base, Next(base, s, Prepare(1, edit, None)), Commit(1));
      && Ordered(r.rows) && |r.rows| == |s.rows| + 1 && PayloadOf(r.rows, |r.rows|) == p
      && r.log == s.log + [edit] && r.drafts == s.drafts - {1}
  {
    LastIsActive(s.rows);
    var prepared := s.(drafts := s.drafts[1 := Draft(edit, |s.rows|, |s.rows|, p)]);
    assert Next(base, s, Prepare(1, edit, None)) == prepared;
    CommitTakes(base, prepared, 1);
    assert prepared.drafts - {1} == s.drafts - {1};
  }

  /** What a later session has in common with an earlier one: the sources, and the drafts of other editors. */
  ghost predicate GoesOn(base: Base, s: Session, r: Session, n: nat) {
    && Ordered(r.rows) && |r.rows| == |s.rows| + n && Validates(base, PayloadOf(r.rows, |r.rows|))
    && PayloadOf(r.rows, |r.rows|).sources == PayloadOf(s.rows, |s.rows|).sources
    && r.drafts - {1} == s.drafts - {1}
  }

  lemma RoundTakes(base: Base, s: Session, policy: Policy)
    requires Ordered(s.rows) && Validates(base, PayloadOf(s.rows, |s.rows|)) && policy.fine
    ensures GoesOn(base, s, Round(base, s, policy), 1)
  {
    var before := PayloadOf(s.rows, |s.rows|);
    DigestPolicyIsTaken(base, before, policy);
    EditTakes(base, s, SetSection(DigestSection, policy), before.(digest := Some(policy)));
  }

  lemma {:induction false} RoundsTake(base: Base, s: Session, policy: Policy, n: nat) returns (path: seq<Session>)
    requires Ordered(s.rows) && Validates(base, PayloadOf(s.rows, |s.rows|)) && policy.fine
    ensures |path| == n + 1 && path[0] == s && Iterates(Rounds(base, policy), path) && GoesOn(base, s, path[n], n)
  {
    if n == 0 {
      path := [s];
    } else {
      var shorter := RoundsTake(base, s, policy, n - 1);
      path := OneMoreRound(base, s, shorter, policy);
    }
  }

  lemma OneMoreRound(base: Base, s: Session, path: seq<Session>, policy: Policy) returns (longer: seq<Session>)
    requires Iterates(Rounds(base, policy), path) && GoesOn(base, s, path[|path| - 1], |path| - 1) && policy.fine
    ensures |longer| == |path| + 1 && longer[0] == path[0] && Iterates(Rounds(base, policy), longer)
    ensures GoesOn(base, s, longer[|path|], |path|)
  {
    var q := path[|path| - 1];
    var r := Rounds(base, policy)(q);
    RoundTakes(base, q, policy);
    GoingOnFurther(base, s, q, r, |path| - 1);
    IteratesFurther(Rounds(base, policy), path);
    longer := path + [r];
  }

  lemma GoingOnFurther(base: Base, s: Session, q: Session, r: Session, n: nat)
    requires GoesOn(base, s, q, n) && GoesOn(base, q, r, 1)
    ensures GoesOn(base, s, r, n + 1)
  {
  }

  /** A waiting draft and the order of the revisions survive whatever other editors do. */
  lemma {:induction false} OthersRun(base: Base, s: Session, steps: seq<Step>)
    requires Ordered(s.rows) && 0 in s.drafts && forall i :: 0 <= i < |steps| ==> steps[i].editor != 0
    ensures var r := Run(base, s, steps); Ordered(r.rows) && 0 in r.drafts && r.drafts[0] == s.drafts[0]
    decreases |steps|
  {
    if steps != [] {
      OtherSteps(base, s, steps[0]);
      OthersRun(base, Next(base, s, steps[0]), steps[1..]);
    }
  }

  lemma OtherSteps(base: Base, s: Session, step: Step)
    requires Ordered(s.rows) && 0 in s.drafts && step.editor != 0
    ensures var r := Next(base, s, step); Ordered(r.rows) && 0 in r.drafts && r.drafts[0] == s.drafts[0]
  {
    if step.Commit? && step.editor in s.drafts {
      SaveKeepsOrder(s.rows, s.drafts[step.editor].payload, s.drafts[step.editor].expected);
    }
  }

  /** An expected revision number that does not exist at the snapshot is reached by commits of others, and the draft
      then replaces all they did: its payload was made from the snapshot. */
  lemma UnseenRevisionOverwrites(base: Base, s: Session, edit: Edit, expected: nat, p: Payload, others: seq<Step>)
    requires Ordered(s.rows) && Outcome(base, PayloadOf(s.rows, |s.rows|), edit) == Candidate(p)
    requires expected > |s.rows| && forall i :: 0 <= i < |others| ==> others[i].editor != 0
    ensures var other := Run(base, Next(base, s, Prepare(0, edit, Some(expected))), others);
      var r := Next(base, other, Commit(0));
      |other.rows| == expected ==>
        |r.rows| == expected + 1 && r.log == other.log + [edit] && PayloadOf(r.rows, |r.rows|) == p
  {
    PrepareTakes(base, s, 0, edit, expected, p);
    var first := s.(drafts := s.drafts[0 := Draft(edit, |s.rows|, expected, p)]);
    OthersRun(base, first, others);
    var other := Run(base, first, others);
    if |other.rows| == expected { CommitTakes(base, other, 0); }
  }

  /** That is possible for every such number: another editor adds a source the first has never seen and goes on
      until the number is reached, every commit succeeds, and the source is gone. So the condition is needed. */
  lemma UnseenRevisionLosesAnUpdate(base: Base, s: Session, policy: Policy, source: Source, expected: nat)
      returns (added: Session, path: seq<Session>)
    requires Invariant(base, s) && policy.fine && source.fine && source.id !in Known(base, PayloadOf(s.rows, |s.rows|))
    requires expected > |s.rows|
    ensures var first := Next(base, s, Prepare(0, SetSection(NotificationSection, policy), Some(expected)));
      added == Next(base, Next(base, first, Prepare(1, UpsertSource(source), None)), Commit(1))
    ensures |path| == expected - |s.rows| && path[0] == added && Iterates(Rounds(base, policy), path)
    ensures var other := path[|path| - 1]; var r := Next(base, other, Commit(0));
      && |other.rows| == expected && source.id in SourceIds(PayloadOf(other.rows, expected))
      && |r.rows| == expected + 1 && r.log == other.log + [SetSection(NotificationSection, policy)]
      && source.id !in SourceIds(PayloadOf(r.rows, expected + 1))
  {
    var before := PayloadOf(s.rows, |s.rows|);
    var p := before.(notifications := Some(policy));
    added := SourceGetsAdded(base, s, policy, source, expected);
    path := RoundsTake(base, added, policy, expected - |s.rows| - 1);
    LastOverwrites(base, added, path[|path| - 1], expected - |s.rows| - 1, added.drafts[0]);
    assert SourceIds(p) == SourceIds(before);
  }

  /** Up to the commit of the new source. */
  lemma SourceGetsAdded(base: Base, s: Session, policy: Policy, source: Source, expected: nat) returns (added: Session)
    requires Invariant(base, s) && policy.fine && source.fine && source.id !in Known(base, PayloadOf(s.rows, |s.rows|))
    ensures var first := Next(base, s, Prepare(0, SetSection(NotificationSection, policy), Some(expected)));
      added == Next(base, Next(base, first, Prepare(1, UpsertSource(source), None)), Commit(1))
    ensures Ordered(added.rows) && |added.rows| == |s.rows| + 1
    ensures Validates(base, PayloadOf(added.rows, |added.rows|))
    ensures source.id in SourceIds(PayloadOf(added.rows, |added.rows|)) && 0 in added.drafts
    ensures added.drafts[0] == Draft(SetSection(NotificationSection, policy), |s.rows|, expected,
                                     PayloadOf(s.rows, |s.rows|).(notifications := Some(policy)))
  {
    var n := |s.rows|;
    var before := PayloadOf(s.rows, n);
    var edit := SetSection(NotificationSection, policy);
    var p, q := before.(notifications := Some(policy)), WithSource(before, source);
    CurrentIsValid(base, s);
    PolicyIsTaken(base, before, policy);
    SourceIsAdded(base, before, source);
    PrepareTakes(base, s, 0, edit, expected, p);
    var first := s.(drafts := s.drafts[0 := Draft(edit, n, expected, p)]);
    EditTakes(base, first, UpsertSource(source), q);
    added := Next(base, Next(base, first, Prepare(1, UpsertSource(source), None)), Commit(1));
    assert 0 in first.drafts - {1} && (first.drafts - {1})[0] == first.drafts[0];
  }

  lemma LastOverwrites(base: Base, s: Session, other: Session, n: nat, d: Draft)
    requires GoesOn(base, s, other, n) && 0 in s.drafts && s.drafts[0] == d && d.expected == |s.rows| + n
    ensures var r := Next(base, other, Commit(0));
      && SourceIds(PayloadOf(other.rows, |other.rows|)) == SourceIds(PayloadOf(s.rows, |s.rows|))
      && |r.rows| == d.expected + 1 && r.log == other.log + [d.edit] && PayloadOf(r.rows, |r.rows|) == d.payload
  {
    assert 0 in s.drafts - {1} && (s.drafts - {1})[0] == d;
    assert 0 in other.drafts - {1} && (other.drafts - {1})[0] == d;
    CommitTakes(base, other, 0);
  }

  lemma CurrentIsValid(base: Base, s: Session)
    requires Invariant(base, s)
    ensures Validates(base, PayloadOf(s.rows, |s.rows|))
  {
    if |s.rows| > 0 {
      assert Linked(base, s, |s.rows| - 1);
    } else {
      assert base.sources + SourceIds(EMPTY) == base.sources;
      assert base.rules + RuleIds(EMPTY) == base.rules;
    }
  }

  lemma PolicyIsTaken(base: Base, p: Payload, policy: Policy)
    requires Validates(base, p) && policy.fine
    ensures Outcome(base, p, SetSection(NotificationSection, policy)) == Candidate(p.(notifications := Some(policy)))
  {
    var q := p.(notifications := Some(policy));
    assert SourceIds(q) == SourceIds(p) && RuleIds(q) == RuleIds(p) && Mentioned(q) == Mentioned(p);
    ValidIsTaken(base, p, SetSection(NotificationSection, policy), q);
  }

  lemma DigestPolicyIsTaken(base: Base, p: Payload, policy: Policy)
    requires Validates(base, p) && policy.fine
    ensures Outcome(base, p, SetSection(DigestSection, policy)) == Candidate(p.(digest := Some(policy)))
    ensures Validates(base, p.(digest := Some(policy)))
  {
    var q := p.(digest := Some(policy));
    assert SourceIds(q) == SourceIds(p) && RuleIds(q) == RuleIds(p) && Mentioned(q) == Mentioned(p);
    ValidIsTaken(base, p, SetSection(DigestSection, policy), q);
  }

  lemma {:induction false} KeepingOthers(rows: seq<Source>, id: string)
    requires forall row :: row in rows ==> row.id != id
    ensures Filter((row: Source) => row.id != id, rows) == rows
  {
    if rows != [] {
      assert forall row :: row in rows[1..] ==> row in rows;
      KeepingOthers(rows[1..], id);
      assert rows == [rows[0]] + rows[1..];
    }
  }

  lemma AddedIsSound(base: Base, p: Payload, source: Source)
    requires Sound(base, p) && source.fine && source.id !in base.sources && !Defined(p, source.id)
    ensures Sound(base, p.(sources := p.sources + [source]))
  {
    var q := p.(sources := p.sources + [source]);
    forall i, j | 0 <= i < j < |q.sources| ensures q.sources[i].id != q.sources[j].id {
      assert q.sources[i] == p.sources[i] && p.sources[i] in p.sources;
    }
    forall r, id | r in q.rules && id in r.sources && id !in base.sources ensures Defined(q, id) {
      assert Defined(p, id);
      var row :| row in p.sources && row.id == id;
      assert row in q.sources;
    }
  }

  lemma SourceIsAdded(base: Base, p: Payload, source: Source)
    requires Validates(base, p) && source.fine && source.id !in Known(base, p)
    ensures Outcome(base, p, UpsertSource(source)) == Candidate(WithSource(p, source))
    ensures source.id in SourceIds(WithSource(p, source))
  {
    DefinedIsListed(p, source.id);
    KeepingOthers(p.sources, source.id);
    ValidationIsExact(base, p);
    AddedIsSound(base, p, source);
    var q := p.(sources := p.sources + [source]);
    assert WithSource(p, source) == q && source in q.sources;
    ValidationIsExact(base, q);
    ValidIsTaken(base, p, UpsertSource(source), q);
  }

  // ----- the store -----------------------------------------------------------------------

  class ConfigRevisions {
    var rows: seq<Revision>

    constructor ()
      ensures rows == []
    {
      rows := [];
    }

    method ActiveRevision() returns (number: nat)
      ensures number == ActiveNumber(rows)
    {
      number := 0;
      for i := 0 to |rows|
        invariant number == ActiveNumber(rows[..i])
      {
        assert rows[..i + 1][..i] == rows[..i];
        if rows[i].active && rows[i].number > number { number := rows[i].number; }
      }
      assert rows[..|rows|] == rows;
    }

    /** Creates and activates a new revision; None on a conflict. */
    method SaveManagedConfig(payload: Payload, expected: nat) returns (number: Option<nat>)
      requires Ordered(rows)
      modifies this
      ensures rows == Save(old(rows), payload, expected) && Ordered(rows)
      ensures number == if expected == |old(rows)| then Some(|rows|) else None
    {
      SaveKeepsOrder(rows, payload, expected);
      LastIsActive(rows);
      NumbersAreCounted(rows);
      var current := ActiveRevision();
      if expected != current {
        return None;
      }
      var maximum := 0;
      for i := 0 to |rows|
        invariant maximum == MaxNumber(rows[..i])
      {
        assert rows[..i + 1][..i] == rows[..i];
        if rows[i].number > maximum { maximum := rows[i].number; }
      }
      assert rows[..|rows|] == rows;
      rows := Deactivated(rows) + [Revision(maximum + 1, payload, true)];
      return Some(maximum + 1);
    }
  }

  datatype Saved = Rejected(verdict: Verdict) | Conflict | Committed(number: nat)

  class ManagedConfigStore {
    const base: Base
    const database: ConfigRevisions

    constructor (base: Base, database: ConfigRevisions)
      ensures this.base == base && this.database == database
    {
      this.base, this.database := base, database;
    }

    /** The first half of an edit: snapshot, edit, check. */
    method PrepareEdit(edit: Edit, expected: Option<nat>) returns (verdict: Verdict, draft: Option<Draft>)
      requires Ordered(database.rows)
      ensures verdict == Outcome(base, PayloadOf(database.rows, |database.rows|), edit)
      ensures draft.Some? <==> verdict.Candidate?
      ensures draft.Some? ==>
        draft.value == Draft(edit, |database.rows|, if expected.Some? then expected.value else |database.rows|,
          verdict.payload)
    {
      LastIsActive(database.rows);
      var seen := database.ActiveRevision();
      var snapshot := PayloadOf(database.rows, seen);
      verdict := Edited(base, snapshot, edit);
      if verdict.Candidate? {
        if Validates(base, verdict.payload) {
          return verdict, Some(Draft(edit, seen, if expected.Some? then expected.value else seen, verdict.payload));
        }
        verdict := Refused(Invalid);
      }
      return verdict, None;
    }

    /** A whole edit by one editor, undisturbed: it never conflicts, and the new payload is the edit's outcome. */
    method Apply(edit: Edit) returns (saved: Saved)
      requires Ordered(database.rows)
      modifies database
      ensures Ordered(database.rows) && saved != Conflict
      ensures var before := old(PayloadOf(database.rows, |database.rows|));
        match Outcome(base, before, edit)
        case Candidate(p) =>
          saved == Committed(|database.rows|) && |database.rows| == |old(database.rows)| + 1
          && PayloadOf(database.rows, |database.rows|) == p
        case other => saved == Rejected(other) && database.rows == old(database.rows)
    {
      var verdict, draft := PrepareEdit(edit, None);
      if draft.None? {
        return Rejected(verdict);
      }
      SaveKeepsOrder(database.rows, draft.value.payload, draft.value.expected);
      var number := database.SaveManagedConfig(draft.value.payload, draft.value.expected);
      return if number.Some? then Committed(number.value) else Conflict;
    }
  }
}
