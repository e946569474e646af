/** Which event an observation joins, and what joining does to the pool. */
module PoolLaws {
  import opened Ordering
  import opened EventIdentity
  import opened EventPool

  /** The event takes the observation: it has room, no other occurrence, and every one of its reports scores at
      least a half against the observation and does not exclude its decision. */
  ghost predicate Takes(e: PoolEvent, o: Report, s: Setting) {
    && |e.reports| <= 1999
    && (o.occurrence.Some? ==> e.occurrences <= {o.occurrence.value})
    && forall i :: 0 <= i < |e.reports| ==>
         && s.reportScore(o, e, e.reports[i]) >= 0.5
         && (o.semantic.Some? && e.reports[i].semantic.Some? ==>
               Compatible(o.semantic.value, e.reports[i].semantic.value, o.publishedAt, e.reports[i].publishedAt,
                          s.calendar))
  }

  lemma TakesIff(e: PoolEvent, o: Report, s: Setting)
    ensures Accepts(e, o, s) <==> Takes(e, o, s)
  {
    if Takes(e, o, s) {
      forall r | r in e.reports ensures s.reportScore(o, e, r) >= 0.5 && Agrees(o, r, s.calendar) {
        var i :| 0 <= i < |e.reports| && e.reports[i] == r;
      }
    }
    if Accepts(e, o, s) {
      forall i | 0 <= i < |e.reports| ensures e.reports[i] in e.reports {}
    }
  }

  /** A candidate can be joined exactly when the observation scores at least the threshold against it and it takes
      the observation. */
  lemma JoinableIff(pool: Pool, o: Report, s: Setting, key: EventKey)
    ensures Joinable(pool, o, s, key) <==>
      key in pool && s.shapeScore(o, pool[key]) >= s.threshold && Takes(pool[key], o, s)
  {
    if key in pool { TakesIff(pool[key], o, s); }
  }

  /** Of two candidates the one that scores higher is preferred, of equals the one with the smaller key. */
  lemma PreferredScoresHigher(pool: Pool, o: Report, s: Setting, a: EventKey, b: EventKey)
    requires a in pool && b in pool && RanksBefore(pool, o, s, a, b)
    ensures s.shapeScore(o, pool[a]) >= s.shapeScore(o, pool[b])
    ensures s.shapeScore(o, pool[a]) == s.shapeScore(o, pool[b]) ==> s.keyOrder(a) <= s.keyOrder(b)
  {
  }

  /** Two observations would open the same event exactly when they are of one verified occurrence, or both of none
      and either of the same decision, action and time, or of no decision, with the same signals on the same day. */
  lemma SameNewEventIff(a: Report, b: Report, s: Setting)
    ensures NewIdentity(a, s) == NewIdentity(b, s) <==>
      && a.occurrence == b.occurrence
      && (a.occurrence.None? ==>
            && (a.semantic.Some? <==> b.semantic.Some?)
            && (a.semantic.Some? ==>
                  && a.semantic.value.action == b.semantic.value.action && a.publishedAt == b.publishedAt
                  && a.semantic.value.family == b.semantic.value.family
                  && a.semantic.value.entity == b.semantic.value.entity
                  && LocalDay(a, s) == LocalDay(b, s))
            && (a.semantic.None? ==> a.signals == b.signals && a.publishedAt / 86400 == b.publishedAt / 86400))
  {
  }

  /** The local date of a decision where its bank is. */
  function LocalDay(r: Report, s: Setting): int
    requires r.semantic.Some?
  {
    s.calendar(r.semantic.value.timezone, if r.publishedAt < 0 then 0 else r.publishedAt)
  }

  /** The save is refused: the occurrence is bound elsewhere, the event has another one, or the observation is
      already in the pool. */
  ghost predicate NotSaved(pool: Pool, key: EventKey, o: Report) {
    || (o.occurrence.Some? && exists k :: k in pool && (o.occurrence.value in pool[k].occurrences) && k != key)
    || (o.occurrence.Some? && key in pool && !(pool[key].occurrences <= {o.occurrence.value}))
    || exists k, i :: k in pool && 0 <= i < |pool[k].reports| && pool[k].reports[i].observationId == o.observationId
  }

  lemma NotSavedIff(pool: Pool, key: EventKey, o: Report)
    ensures Refused(pool, key, o) <==> NotSaved(pool, key, o)
  {
    if k, r :| k in pool && r in pool[k].reports && r.observationId == o.observationId {
      var i :| 0 <= i < |pool[k].reports| && pool[k].reports[i] == r;
    }
    if k, i :| k in pool && 0 <= i < |pool[k].reports| && pool[k].reports[i].observationId == o.observationId {
      assert pool[k].reports[i] in pool[k].reports;
    }
  }

  /** A projection appends the observation to the matched event, or to the one of its new identity, and binds its
      occurrence there; no other event changes, and a refused one changes nothing. */
  lemma ProjectionIsExact(pool: Pool, o: Report, found: Option<EventKey>, s: Setting)
    ensures var key := if found.Some? then found.value else NewIdentity(o, s);
      var after := Project(pool, o, found, s);
      if NotSaved(pool, key, o) then after == pool
      else
        && after.Keys == pool.Keys + {key} && (forall k :: k in pool && k != key ==> after[k] == pool[k])
        && after[key].reports == (if key in pool then pool[key].reports else []) + [o]
        && (forall x :: x in after[key].occurrences <==>
              o.occurrence == Some(x) || (key in pool && x in pool[key].occurrences))
  {
    NotSavedIff(pool, if found.Some? then found.value else NewIdentity(o, s), o);
  }
}
