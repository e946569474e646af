/** Identities of known events: the semantic identity of a central-bank decision and the
    evidence-backed occurrence identity. A hash key is modelled by the material it is made of,
    since hashes are taken to be collision free. */
module EventIdentity {
  import opened Ordering

  datatype Action = Announcement | Raise | Cut | Hold
  datatype Hint = Corroborates | Context
  datatype Semantic = Semantic(family: string, entity: string, timezone: string, hint: Hint, action: Action)

  /** The local date, as a day number, of an instant in a time zone. */
  type Calendar = (string, int) -> int

  datatype DatedKey = DatedKey(family: string, entity: string, date: int)

  const SIX_HOURS := 6 * 3600

  function Distance(a: int, b: int): nat {
    if a < b then b - a else a - b
  }

  function Dated(s: Semantic, publishedAt: int, calendar: Calendar): DatedKey {
    DatedKey(s.family, s.entity, calendar(s.timezone, if publishedAt < 0 then 0 else publishedAt))
  }

  predicate Compatible(left: Semantic, right: Semantic, leftAt: int, rightAt: int, calendar: Calendar) {
    && Dated(left, leftAt, calendar) == Dated(right, rightAt, calendar)
    && Distance(leftAt, rightAt) <= SIX_HOURS
    && (left.action == right.action || left.action == Announcement || right.action == Announcement)
  }

  /** An announcement is compatible with a raise and with a cut, which exclude each other: the
      relation is not transitive, so keeping it inside a group needs a check of every pair. */
  lemma CompatibleIsNotTransitive()
    ensures exists a: Semantic, b: Semantic, c: Semantic, t: int, calendar: Calendar ::
      Compatible(a, b, t, t, calendar) && Compatible(b, c, t, t, calendar) && !Compatible(a, c, t, t, calendar)
  {
    var calendar: Calendar := (zone, at) => at / 86400;
    var raise := Semantic("central-bank-rate-decision", "ecb", "Europe/Berlin", Corroborates, Raise);
    var notice, cut := raise.(action := Announcement), raise.(action := Cut);
    assert Compatible(raise, notice, 0, 0, calendar) && Compatible(notice, cut, 0, 0, calendar);
    assert !Compatible(raise, cut, 0, 0, calendar);
  }

  datatype Basis = OfficialId | StructuredMetadata
  datatype Occurrence = Occurrence(kind: string, namespace: string, externalId: Option<string>,
                                   occurredAt: Option<int>, precision: Option<string>, entityIds: seq<string>,
                                   locationId: Option<string>, objectId: Option<string>, basis: Basis)

  datatype OccurrenceKey =
    | OfficialKey(kind: string, namespace: string, externalId: Option<string>)
    | StructuredKey(kind: string, entityIds: seq<string>, locationId: Option<string>, objectId: Option<string>,
                    occurredAt: Option<int>, precision: Option<string>)

  function Key(o: Occurrence): OccurrenceKey {
    if o.basis == OfficialId then OfficialKey(o.kind, o.namespace, o.externalId)
    else StructuredKey(o.kind, o.entityIds, o.locationId, o.objectId, o.occurredAt, o.precision)
  }

  /** None when either report lacks a validated identity. */
  function OccurrencesCompatible(left: Option<Occurrence>, right: Option<Occurrence>): Option<bool> {
    if left.None? || right.None? then None else Some(Key(left.value) == Key(right.value))
  }

  /** Two verified occurrences are one when both are official under one identifier, or when both are described by the
      same structured facts; the kind always has to agree. */
  lemma SameOccurrenceIff(a: Occurrence, b: Occurrence)
    ensures OccurrencesCompatible(Some(a), Some(b)) == Some(true) <==>
      && a.kind == b.kind && a.basis == b.basis
      && (a.basis == OfficialId ==> a.namespace == b.namespace && a.externalId == b.externalId)
      && (a.basis == StructuredMetadata ==>
            && a.entityIds == b.entityIds && a.locationId == b.locationId && a.objectId == b.objectId
            && a.occurredAt == b.occurredAt && a.precision == b.precision)
    ensures OccurrencesCompatible(Some(a), Some(b)) == Some(false) <==>
      OccurrencesCompatible(Some(a), Some(b)) != Some(true)
    ensures OccurrencesCompatible(None, Some(b)) == OccurrencesCompatible(Some(a), None) == None
  {
  }
}
