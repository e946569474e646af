/** Publication of daily digests with model retries: small transactions, any of which may be the last one before a
    crash. A key is the day of a digest. */
module DigestProtocol {
  import opened Ordering

  type Key = int

  datatype Kind = Algorithm | Api
  datatype VersionStatus = Draft | Published | Superseded
  /** `fallbackNote` tells whether the summary carries the note of a failed first attempt. */
  datatype Version = Version(kind: Kind, status: VersionStatus, period: int, hasItems: bool, fallbackNote: bool,
                             publishedAt: int)

  datatype RetryStatus = Pending | Succeeded | Failed
  datatype Retry = Retry(fallback: nat, attempts: int, nextAt: Option<int>, deadline: int, status: RetryStatus)

  /** A digest key's versions are numbered from 1 by position. `counted` is no table: it holds the days whose
      failure was ever counted. */
  datatype Db = Db(versions: map<Key, seq<Version>>, retries: map<Key, Retry>, calls: map<Key, nat>,
                   streak: nat, lastFailed: Option<Key>, counted: set<Key>,
                   notices: set<(Key, nat)>, alarms: set<(Key, nat)>)

  const RETRY_INTERVAL := 3600
  const RETRY_WINDOW := 5 * 3600
  const CALL_LIMIT := 5
  const EXPIRY_BATCH := 30

  function Min(a: int, b: int): int { if a < b then a else b }
  function Max(a: int, b: int): int { if a < b then b else a }

  function VersionsOf(db: Db, k: Key): seq<Version> { if k in db.versions then db.versions[k] else [] }

  /** Position of the newest published version, or None. */
  function NewestPublished(vs: seq<Version>): (r: Option<nat>)
    ensures r.Some? ==> r.value < |vs| && vs[r.value].status == Published
    ensures r.None? <==> forall i :: 0 <= i < |vs| ==> vs[i].status != Published
    ensures r.Some? ==> forall i :: r.value < i < |vs| ==> vs[i].status != Published
  {
    if vs == [] then None
    else if vs[|vs| - 1].status == Published then Some(|vs| - 1)
    else NewestPublished(vs[..|vs| - 1])
  }

  function Current(db: Db, k: Key): Option<nat> { NewestPublished(VersionsOf(db, k)) }

  function CurrentVersion(db: Db, k: Key): Version
    requires Current(db, k).Some?
  {
    VersionsOf(db, k)[Current(db, k).value]
  }

  predicate PublishedApi(db: Db, k: Key) { Current(db, k).Some? && CurrentVersion(db, k).kind == Api }

  // ----- transactions --------------------------------------------------------------------

  predicate SamePeriod(db: Db, k: Key, v: Version) {
    var vs := VersionsOf(db, k);
    vs != [] ==> vs[|vs| - 1].period == v.period
  }

  /** Stores the next version as a draft. */
  function SaveDigest(db: Db, k: Key, v: Version): Db {
    db.(versions := db.versions[k := VersionsOf(db, k) + [v.(status := Draft, publishedAt := 0)]])
  }

  function Superseding(vs: seq<Version>, n: nat, now: int): (r: seq<Version>)
    requires n < |vs|
    ensures |r| == |vs|
    ensures forall i :: 0 <= i < |vs| ==>
      r[i] == if i == n then vs[i].(status := Published, publishedAt := now)
              else if vs[i].status == Published then vs[i].(status := Superseded) else vs[i]
  {
    seq(|vs|, i requires 0 <= i < |vs| =>
      if i == n then vs[i].(status := Published, publishedAt := now)
      else if vs[i].status == Published then vs[i].(status := Superseded) else vs[i])
  }

  /** Publishes the version at a position and supersedes the previous publication. */
  function PublishDigest(db: Db, k: Key, n: nat, now: int): Db
    requires n < |VersionsOf(db, k)|
  {
    if VersionsOf(db, k)[n].status == Published then db
    else db.(versions := db.versions[k := Superseding(VersionsOf(db, k), n, now)])
  }

  function StartRetry(db: Db, k: Key, fallback: nat, now: int, deadline: int): Db {
    if k in db.retries then db
    else db.(retries := db.retries[k :=
      Retry(fallback, 1, Some(Min(deadline, now + RETRY_INTERVAL)), deadline, Pending)])
  }

  function RecordRetry(db: Db, k: Key, attempts: int, status: RetryStatus, nextAt: Option<int>): Db
    requires k in db.retries
  {
    db.(retries := db.retries[k := db.retries[k].(attempts := attempts, status := status, nextAt := nextAt)])
  }

  function CallsOf(db: Db, k: Key): nat { if k in db.calls then db.calls[k] else 0 }

  /** Reserves one model run; the second part tells whether it was allowed. */
  function ReserveCall(db: Db, k: Key): (Db, bool) {
    if CallsOf(db, k) >= CALL_LIMIT then (db, false) else (db.(calls := db.calls[k := CallsOf(db, k) + 1]), true)
  }

  /** The failed days in a row once the day of `k` has failed. */
  function Days(streak: nat, lastFailed: Option<Key>, k: Key): nat {
    if lastFailed == Some(k) then streak else if lastFailed == Some(k - 1) then streak + 1 else 1
  }

  /** Counts a fully failed day once; the second part tells whether the third day in a row was reached. */
  function RecordFailure(db: Db, k: Key): (Db, bool) {
    var streak := Days(db.streak, db.lastFailed, k);
    (db.(streak := streak, lastFailed := Some(k), counted := db.counted + {k}), streak == 3 && db.lastFailed != Some(k))
  }

  function RecordSuccess(db: Db): Db { db.(streak := 0, lastFailed := None) }

  predicate CanRetryNow(db: Db, k: Key, now: int) {
    && k in db.retries && db.retries[k].status == Pending && CallsOf(db, k) < CALL_LIMIT && db.retries[k].attempts < 5
    && now < db.retries[k].deadline && db.retries[k].nextAt.Some? && db.retries[k].nextAt.value > now
    && !PublishedApi(db, k)
  }

  /** An administrator brings a scheduled retry forward. */
  function RequestRetryNow(db: Db, k: Key, now: int): Db {
    if CanRetryNow(db, k, now) then db.(retries := db.retries[k := db.retries[k].(nextAt := Some(now))]) else db
  }

  // ----- what every transaction keeps ----------------------------------------------------

  ghost predicate OnePublished(vs: seq<Version>) {
    forall i, j :: 0 <= i < j < |vs| ==> !(vs[i].status == Published && vs[j].status == Published)
  }

  ghost predicate RetryInBounds(r: Retry) {
    && 1 <= r.attempts <= 5
    && (r.status == Pending ==> r.attempts <= 4 && r.nextAt.Some? && r.nextAt.value <= r.deadline)
  }

  /** A retry exists only beside a published digest; it succeeded only if that is a model version and failed only if
      it is not. */
  ghost predicate RetryMatches(db: Db, k: Key)
    requires k in db.retries
  {
    && Current(db, k).Some?
    && (db.retries[k].status == Succeeded ==> PublishedApi(db, k))
    && (db.retries[k].status == Failed ==> !PublishedApi(db, k))
  }

  ghost predicate Valid(db: Db) {
    && (forall k :: k in db.versions ==> OnePublished(db.versions[k]))
    && (forall k :: k in db.calls ==> db.calls[k] <= CALL_LIMIT)
    && (forall k :: k in db.retries ==> RetryInBounds(db.retries[k]) && RetryMatches(db, k))
    && (forall k :: k in db.counted ==> k in db.retries && db.retries[k].status == Failed)
    && (db.lastFailed.Some? ==> db.lastFailed.value in db.counted)
    && InARow(db) && Earned(db) && Announced(db)
  }

  /** Every alarm is about the third of three days in a row that failed. */
  ghost predicate Earned(db: Db) {
    forall a :: a in db.alarms ==> a.1 == 3 && a.0 in db.counted && a.0 - 1 in db.counted && a.0 - 2 in db.counted
  }

  /** Only versions that were published are announced. */
  ghost predicate Announced(db: Db) { forall a :: a in db.notices ==> WasPublished(db, a.0, a.1) }

  predicate WasPublished(db: Db, k: Key, n: nat) {
    n < |VersionsOf(db, k)| && VersionsOf(db, k)[n].status != Draft
  }

  /** The streak counts failed days in a row, back from the last one. */
  ghost predicate InARow(db: Db) {
    db.lastFailed.Some? ==>
      db.streak >= 1 && forall d :: db.lastFailed.value - db.streak < d <= db.lastFailed.value ==> d in db.counted
  }

  /** A retry keeps its fallback and its deadline, and does not change once it is settled. */
  ghost predicate SameWindow(a: Retry, b: Retry) {
    b.fallback == a.fallback && b.deadline == a.deadline && (a.status != Pending ==> b == a)
  }

  /** A day that failed without being counted. */
  ghost predicate Lost(db: Db, k: Key) { k in db.retries && db.retries[k].status == Failed && k !in db.counted }

  /** Published stays published, a published model version stays one, settled retries stay settled, and lost days
      stay lost. */
  ghost predicate Keeps(a: Db, b: Db) {
    && (forall k :: Current(a, k).Some? ==> Current(b, k).Some?)
    && (forall k :: PublishedApi(a, k) ==> PublishedApi(b, k))
    && (forall k :: k in a.retries ==> k in b.retries && SameWindow(a.retries[k], b.retries[k]))
    && (forall k :: Lost(a, k) ==> Lost(b, k))
    && (forall k :: CallsOf(a, k) <= CallsOf(b, k))
    && a.notices <= b.notices && a.alarms <= b.alarms
  }

  lemma CurrentAfterSave(db: Db, k: Key, v: Version, other: Key)
    ensures Current(SaveDigest(db, k, v), other) == Current(db, other)
    ensures Current(db, other).Some? ==> CurrentVersion(SaveDigest(db, k, v), other) == CurrentVersion(db, other)
  {
    if other == k {
      var vs := VersionsOf(db, k);
      var all := vs + [v.(status := Draft, publishedAt := 0)];
      assert all[..|all| - 1] == vs;
    }
  }

  lemma SaveKeeps(db: Db, k: Key, v: Version)
    requires Valid(db)
    ensures Valid(SaveDigest(db, k, v)) && Keeps(db, SaveDigest(db, k, v))
  {
    var r := SaveDigest(db, k, v);
    forall other ensures Current(r, other) == Current(db, other)
      && (Current(db, other).Some? ==> CurrentVersion(r, other) == CurrentVersion(db, other)) {
      CurrentAfterSave(db, k, v, other);
    }
    assert OnePublished(VersionsOf(db, k));
    forall o | o in r.retries ensures RetryInBounds(r.retries[o]) && RetryMatches(r, o) { assert RetryMatches(db, o); }
  }

  lemma CurrentAfterPublish(db: Db, k: Key, n: nat, now: int)
    requires n < |VersionsOf(db, k)| && VersionsOf(db, k)[n].status != Published
    ensures Current(PublishDigest(db, k, n, now), k) == Some(n)
    ensures CurrentVersion(PublishDigest(db, k, n, now), k)
      == VersionsOf(db, k)[n].(status := Published, publishedAt := now)
  {
  }

  /** Publishing a draft does not contradict the current publication or the outcome a retry already has. */
  predicate Publishable(db: Db, k: Key, n: nat)
    requires n < |VersionsOf(db, k)|
  {
    && (VersionsOf(db, k)[n].kind == Api || !PublishedApi(db, k))
    && (k in db.retries && db.retries[k].status == Failed ==> VersionsOf(db, k)[n].kind == Algorithm)
  }

  lemma PublishableKeeps(db: Db, k: Key, n: nat, now: int)
    requires Valid(db) && n < |VersionsOf(db, k)| && VersionsOf(db, k)[n].status != Published && Publishable(db, k, n)
    ensures Valid(PublishDigest(db, k, n, now)) && Keeps(db, PublishDigest(db, k, n, now))
  {
    var r := PublishDigest(db, k, n, now);
    CurrentAfterPublish(db, k, n, now);
    forall other | other != k
      ensures Current(r, other) == Current(db, other) && PublishedApi(r, other) == PublishedApi(db, other) {}
    forall o | o in r.retries ensures RetryInBounds(r.retries[o]) && RetryMatches(r, o) { assert RetryMatches(db, o); }
    AnnouncedAfterPublish(db, k, n, now);
  }

  lemma AnnouncedAfterPublish(db: Db, k: Key, n: nat, now: int)
    requires Announced(db) && n < |VersionsOf(db, k)| && VersionsOf(db, k)[n].status != Published
    ensures Announced(PublishDigest(db, k, n, now))
  {
    var r := PublishDigest(db, k, n, now);
    forall a | a in r.notices ensures WasPublished(r, a.0, a.1) { assert WasPublished(db, a.0, a.1); }
  }

  /** Publishing keeps every promise exactly for publishable versions; the transaction itself accepts any. */
  lemma PublishKeepsIff(db: Db, k: Key, n: nat, now: int)
    requires Valid(db) && n < |VersionsOf(db, k)| && VersionsOf(db, k)[n].status != Published
    ensures Valid(PublishDigest(db, k, n, now)) && Keeps(db, PublishDigest(db, k, n, now)) <==> Publishable(db, k, n)
  {
    var r := PublishDigest(db, k, n, now);
    CurrentAfterPublish(db, k, n, now);
    if Publishable(db, k, n) {
      PublishableKeeps(db, k, n, now);
    } else if k in db.retries {
      assert Valid(r) ==> RetryMatches(r, k);
    }
  }

  lemma RetriesChange(db: Db, r: Db, k: Key)
    requires Valid(db) && r == db.(retries := r.retries) && k in r.retries && Current(db, k).Some?
    requires forall o :: o != k ==>
      (o in r.retries <==> o in db.retries) && (o in db.retries ==> r.retries[o] == db.retries[o])
    requires k in db.retries ==> db.retries[k].status == Pending
    requires RetryInBounds(r.retries[k]) && (k in db.retries ==> SameWindow(db.retries[k], r.retries[k]))
    requires (r.retries[k].status == Succeeded ==> PublishedApi(db, k))
      && (r.retries[k].status == Failed ==> !PublishedApi(db, k))
    ensures Valid(r) && Keeps(db, r)
  {
    RetriesStayValid(db, r, k);
    RetriesKeep(db, r, k);
  }

  lemma RetriesKeep(db: Db, r: Db, k: Key)
    requires r == db.(retries := r.retries) && k in r.retries
    requires forall o :: o != k && o in db.retries ==> o in r.retries && r.retries[o] == db.retries[o]
    requires k in db.retries ==> db.retries[k].status == Pending && SameWindow(db.retries[k], r.retries[k])
    ensures Keeps(db, r)
  {
    forall o ensures Current(r, o) == Current(db, o) && PublishedApi(r, o) == PublishedApi(db, o) {}
    forall o | Lost(db, o) ensures Lost(r, o) { assert o != k; }
  }

  lemma RetriesStayValid(db: Db, r: Db, k: Key)
    requires Valid(db) && r == db.(retries := r.retries) && k in r.retries && Current(db, k).Some?
    requires forall o :: o != k ==>
      (o in r.retries <==> o in db.retries) && (o in db.retries ==> r.retries[o] == db.retries[o])
    requires k in db.retries ==> db.retries[k].status == Pending
    requires RetryInBounds(r.retries[k])
    requires (r.retries[k].status == Succeeded ==> PublishedApi(db, k))
      && (r.retries[k].status == Failed ==> !PublishedApi(db, k))
    ensures Valid(r)
  {
    forall o | o in r.retries ensures RetryInBounds(r.retries[o]) && RetryMatches(r, o) {
      SameVersions(db, r, o);
      if o != k { assert RetryMatches(db, o); }
    }
    forall o | o in r.counted ensures o in r.retries && r.retries[o].status == Failed { assert o != k; }
  }

  /** An administrator's request takes effect exactly on a pending retry that is scheduled for later, with its
      deadline, attempts and calls left and no model version published; it then is due now, and nothing else
      changes. */
  lemma RequestIsExact(db: Db, k: Key, now: int)
    ensures var r := RequestRetryNow(db, k, now);
      && r == db.(retries := r.retries) && OnlyRetry(db.retries, r.retries, k)
      && (k in db.retries ==>
            r.retries[k] ==
              if db.retries[k].status == Pending && db.retries[k].nextAt.Some? && now < db.retries[k].nextAt.value
                 && now < db.retries[k].deadline && db.retries[k].attempts <= 4 && CallsOf(db, k) <= 4
                 && !(Current(db, k).Some? && CurrentVersion(db, k).kind == Api)
              then db.retries[k].(nextAt := Some(now)) else db.retries[k])
  {
  }

  /** A day counts one more than the day before, stays what it is when counted again, and otherwise starts anew; the
      alarm is raised once, on the third day in a row. */
  lemma StreakIsExact(db: Db, k: Key)
    ensures var (r, alarm) := RecordFailure(db, k);
      && r == db.(streak := r.streak, lastFailed := Some(k), counted := db.counted + {k})
      && (db.lastFailed == Some(k) ==> r.streak == db.streak && !alarm)
      && (db.lastFailed == Some(k - 1) ==> r.streak == db.streak + 1 && (alarm <==> db.streak == 2))
      && (db.lastFailed != Some(k) && db.lastFailed != Some(k - 1) ==> r.streak == 1 && !alarm)
  {
  }

  lemma RequestKeeps(db: Db, k: Key, now: int)
    requires Valid(db)
    ensures Valid(RequestRetryNow(db, k, now)) && Keeps(db, RequestRetryNow(db, k, now))
  {
    if CanRetryNow(db, k, now) {
      assert RetryMatches(db, k);
      RetriesChange(db, RequestRetryNow(db, k, now), k);
    }
  }

  /** Nothing but calls, streaks and notices changed, and no failure was counted. */
  lemma SideTablesKeep(db: Db, r: Db)
    requires Valid(db) && r.versions == db.versions && r.retries == db.retries
    requires db.notices <= r.notices && db.alarms <= r.alarms && Earned(r) && Announced(r)
    requires r.counted == db.counted && ((r.lastFailed == db.lastFailed && r.streak == db.streak) || r.lastFailed.None?)
    requires forall k :: CallsOf(db, k) <= CallsOf(r, k) <= CALL_LIMIT
    ensures Valid(r) && Keeps(db, r)
  {
    forall o ensures Current(r, o) == Current(db, o) && PublishedApi(r, o) == PublishedApi(db, o) {}
    forall o | o in r.retries ensures RetryInBounds(r.retries[o]) && RetryMatches(r, o) { assert RetryMatches(db, o); }
    forall o | o in r.calls ensures r.calls[o] <= CALL_LIMIT { assert CallsOf(r, o) == r.calls[o]; }
  }

  lemma AlarmKeeps(db: Db, k: Key)
    requires Valid(db) && db.lastFailed == Some(k) && db.streak == 3
    ensures Valid(db.(alarms := db.alarms + {(k, 3)})) && Keeps(db, db.(alarms := db.alarms + {(k, 3)}))
  {
    var r := db.(alarms := db.alarms + {(k, 3)});
    assert k in db.counted && k - 1 in db.counted && k - 2 in db.counted;
    forall a | a in r.notices ensures WasPublished(r, a.0, a.1) { assert WasPublished(db, a.0, a.1); }
    SideTablesKeep(db, r);
  }

  lemma CountKeepsValid(db: Db, k: Key)
    requires Valid(db) && k in db.retries && db.retries[k].status == Failed
    ensures Valid(RecordFailure(db, k).0)
  {
    var r := RecordFailure(db, k).0;
    forall o ensures Current(r, o) == Current(db, o) && PublishedApi(r, o) == PublishedApi(db, o) {}
    forall o | o in r.retries ensures RetryInBounds(r.retries[o]) && RetryMatches(r, o) { assert RetryMatches(db, o); }
  }

  /** Counting the day of a retry that was pending before and failed since. */
  lemma CountKeeps(a: Db, b: Db, k: Key)
    requires Keeps(a, b) && !Lost(a, k)
    ensures Keeps(a, RecordFailure(b, k).0)
  {
    var r := RecordFailure(b, k).0;
    forall o ensures Current(r, o) == Current(b, o) && PublishedApi(r, o) == PublishedApi(b, o) {}
    forall o | Lost(a, o) ensures Lost(r, o) { assert Lost(b, o); }
  }

  lemma KeepsTransitive(a: Db, b: Db, c: Db)
    requires Keeps(a, b) && Keeps(b, c)
    ensures Keeps(a, c)
  {
  }

  /** Counting the same failed day twice changes nothing and raises no second alarm. */
  lemma FailureIsCountedOnce(db: Db, k: Key)
    ensures RecordFailure(RecordFailure(db, k).0, k) == (RecordFailure(db, k).0, false)
  {
  }

  // ----- the tables ----------------------------------------------------------------------

  class DigestRepository {
    var versions: map<Key, seq<Version>>
    var retries: map<Key, Retry>
    var calls: map<Key, nat>
    var streak: nat
    var lastFailed: Option<Key>
    var counted: set<Key>
    var notices: set<(Key, nat)>
    var alarms: set<(Key, nat)>
    ghost var runs: map<Key, nat>  // model runs ever started for a key

    function State(): Db
      reads this
    {
      Db(versions, retries, calls, streak, lastFailed, counted, notices, alarms)
    }

    /** Every model run was paid for by a reserved call. */
    ghost predicate Sound()
      reads this
    {
      Valid(State()) && forall k :: k in runs ==> runs[k] <= CallsOf(State(), k)
    }

    constructor ()
      ensures Sound() && State() == Db(map[], map[], map[], 0, None, {}, {}, {})
    {
      versions, retries, calls, runs := map[], map[], map[], map[];
      streak, lastFailed, counted, notices, alarms := 0, None, {}, {}, {};
    }

    method Save(k: Key, v: Version) returns (n: nat)
      requires Sound()
      modifies this
      ensures State() == SaveDigest(old(State()), k, v) && runs == old(runs)
      ensures Sound() && Keeps(old(State()), State())
      ensures n == |VersionsOf(old(State()), k)|
    {
      SaveKeeps(State(), k, v);
      n := if k in versions then |versions[k]| else 0;
      versions := versions[k := (if k in versions then versions[k] else []) + [v.(status := Draft, publishedAt := 0)]];
    }

    /** Publishes any version; what that keeps depends on the version. */
    method Publish(k: Key, n: nat, now: int)
      requires Sound() && n < |VersionsOf(State(), k)|
      modifies this
      ensures State() == PublishDigest(old(State()), k, n, now) && runs == old(runs)
      ensures old(VersionsOf(State(), k)[n].status == Published || Publishable(State(), k, n)) ==>
        Sound() && Keeps(old(State()), State())
    {
      if versions[k][n].status != Published {
        PublishKeepsIff(State(), k, n, now);
        versions := versions[k := Superseding(versions[k], n, now)];
      }
    }

    method EnqueueNotification(k: Key, n: nat)
      requires Sound() && WasPublished(State(), k, n)
      modifies this
      ensures State() == old(State()).(notices := old(notices) + {(k, n)}) && runs == old(runs)
      ensures Sound() && Keeps(old(State()), State())
    {
      SideTablesKeep(State(), State().(notices := notices + {(k, n)}));
      notices := notices + {(k, n)};
    }

    method EnqueueAlarm(k: Key, days: nat)
      requires Sound() && lastFailed == Some(k) && streak == 3 && days == 3
      modifies this
      ensures State() == old(State()).(alarms := old(alarms) + {(k, days)}) && runs == old(runs)
      ensures Sound() && Keeps(old(State()), State())
    {
      AlarmKeeps(State(), k);
      alarms := alarms + {(k, days)};
    }

    method BeginRetry(k: Key, fallback: nat, now: int, deadline: int)
      requires Sound() && Current(State(), k).Some?
      modifies this
      ensures State() == StartRetry(old(State()), k, fallback, now, deadline) && runs == old(runs)
      ensures Sound() && Keeps(old(State()), State())
    {
      if k !in retries {
        RetriesChange(State(), StartRetry(State(), k, fallback, now, deadline), k);
        retries := retries[k := Retry(fallback, 1, Some(Min(deadline, now + RETRY_INTERVAL)), deadline, Pending)];
      }
    }

    method UpdateRetry(k: Key, attempts: int, status: RetryStatus, nextAt: Option<int>)
      requires Sound() && k in retries && retries[k].status == Pending
      requires RetryInBounds(retries[k].(attempts := attempts, status := status, nextAt := nextAt))
      requires (status == Succeeded ==> PublishedApi(State(), k)) && (status == Failed ==> !PublishedApi(State(), k))
      modifies this
      ensures State() == RecordRetry(old(State()), k, attempts, status, nextAt) && runs == old(runs)
      ensures Sound() && Keeps(old(State()), State())
    {
      assert RetryMatches(State(), k);
      RetriesChange(State(), RecordRetry(State(), k, attempts, status, nextAt), k);
      retries := retries[k := retries[k].(attempts := attempts, status := status, nextAt := nextAt)];
    }

    method Reserve(k: Key) returns (allowed: bool)
      requires Sound()
      modifies this
      ensures (State(), allowed) == ReserveCall(old(State()), k) && runs == old(runs)
      ensures Sound() && Keeps(old(State()), State())
      ensures allowed ==> CallsOf(State(), k) == CallsOf(old(State()), k) + 1
    {
      var used := if k in calls then calls[k] else 0;
      if used >= CALL_LIMIT {
        return false;
      }
      SideTablesKeep(State(), State().(calls := calls[k := used + 1]));
      calls := calls[k := used + 1];
      return true;
    }

    method CountFailure(k: Key) returns (alarm: bool)
      requires Sound() && k in retries && retries[k].status == Failed
      modifies this
      ensures (State(), alarm) == RecordFailure(old(State()), k) && runs == old(runs)
      ensures Sound() && lastFailed == Some(k) && (alarm ==> streak == 3)
      ensures alarm <==> old(streak) == 2 && old(lastFailed) == Some(k - 1)
    {
      CountKeepsValid(State(), k);
      var days := Days(streak, lastFailed, k);
      alarm := days == 3 && lastFailed != Some(k);
      streak, lastFailed, counted := days, Some(k), counted + {k};
    }

    method ResetFailures()
      requires Sound()
      modifies this
      ensures State() == RecordSuccess(old(State())) && runs == old(runs)
      ensures Sound() && Keeps(old(State()), State())
    {
      SideTablesKeep(State(), RecordSuccess(State()));
      streak, lastFailed := 0, None;
    }

    method BringForward(k: Key, now: int)
      requires Sound()
      modifies this
      ensures State() == RequestRetryNow(old(State()), k, now) && runs == old(runs)
      ensures Sound() && Keeps(old(State()), State())
    {
      RequestKeeps(State(), k, now);
      if CanRetryNow(State(), k, now) {
        retries := retries[k := retries[k].(nextAt := Some(now))];
      }
    }

    /** Keys of all pending retries whose deadline passed, in no particular order. */
    method CollectOverdue(now: int) returns (all: seq<Key>)
      ensures Distinct(all) && forall k :: k in all <==> Overdue(State(), k, now)
    {
      all := [];
      var rest := retries.Items;
      while rest != {}
        invariant rest <= retries.Items
        invariant Distinct(all)
        invariant forall k :: k in all ==> Overdue(State(), k, now) && (k, retries[k]) !in rest
        invariant forall k :: Overdue(State(), k, now) ==> k in all || (k, retries[k]) in rest
      {
        var row :| row in rest;
        rest := rest - {row};
        if Overdue(State(), row.0, now) {
          all := all + [row.0];
        }
      }
    }

    /** Keys of pending retries whose deadline passed: a bounded number of them, the longest overdue first. */
    method ListExpired(now: int) returns (keys: seq<Key>)
      ensures LongestOverdue(State(), keys, now)
    {
      var all := CollectOverdue(now);
      var sorted := Sort(ByDeadline(State()), all);
      keys := if |sorted| <= EXPIRY_BATCH then sorted else sorted[..EXPIRY_BATCH];
      FirstOverdue(State(), all, now);
      FirstOfSorted(State(), all, sorted, now);
    }
  }

  /** Up to thirty overdue keys, by deadline and then by key, and no others are longer overdue. */
  ghost predicate LongestOverdue(db: Db, keys: seq<Key>, now: int) {
    && |keys| == Min(EXPIRY_BATCH, |OverdueKeys(db, now)|)
    && Distinct(keys) && (forall k :: k in keys ==> Overdue(db, k, now))
    && (forall i, j :: 0 <= i < j < |keys| ==>
          DeadlineOf(db, keys[i]) < DeadlineOf(db, keys[j])
          || (DeadlineOf(db, keys[i]) == DeadlineOf(db, keys[j]) && keys[i] < keys[j]))
    && (forall i, k :: 0 <= i < |keys| && Overdue(db, k, now) && k !in keys ==> LongerOverdue(db, keys[i], k))
  }

  lemma FirstOfSorted(db: Db, all: seq<Key>, sorted: seq<Key>, now: int)
    requires Distinct(all) && Distinct(sorted) && Sorted(ByDeadline(db), sorted) && |sorted| == |all|
    requires forall k :: k in all <==> Overdue(db, k, now)
    requires forall k :: k in sorted <==> k in all
    ensures |sorted| == |OverdueKeys(db, now)|
    ensures var keys := if |sorted| <= EXPIRY_BATCH then sorted else sorted[..EXPIRY_BATCH];
      && Distinct(keys) && (forall k :: k in keys ==> Overdue(db, k, now)) && Sorted(ByDeadline(db), keys)
      && (forall i, k :: 0 <= i < |keys| && Overdue(db, k, now) && k !in keys ==> LongerOverdue(db, keys[i], k))
  {
    forall k ensures k in OverdueKeys(db, now) <==> k in all {}
    assert OverdueKeys(db, now) == set k | k in all;
    DistinctSize(all);
    var keys := if |sorted| <= EXPIRY_BATCH then sorted else sorted[..EXPIRY_BATCH];
    forall i, k | 0 <= i < |keys| && Overdue(db, k, now) && k !in keys ensures LongerOverdue(db, keys[i], k) {
      assert k in sorted;
      var j :| 0 <= j < |sorted| && sorted[j] == k;
      assert j >= |keys| && ByDeadline(db)(sorted[i], sorted[j]);
    }
  }

  lemma {:induction false} DistinctSize(s: seq<Key>)
    requires Distinct(s)
    ensures |set k | k in s| == |s|
  {
    if s != [] {
      var n := |s| - 1;
      DistinctSize(s[..n]);
      assert s == s[..n] + [s[n]];
      assert (set k | k in s) == (set k | k in s[..n]) + {s[n]};
    }
  }

  lemma FirstOverdue(db: Db, all: seq<Key>, now: int)
    requires Distinct(all)
    ensures var sorted := Sort(ByDeadline(db), all);
      Distinct(sorted) && Sorted(ByDeadline(db), sorted) && |sorted| == |all| && forall k :: k in sorted <==> k in all
  {
    var sorted := Sort(ByDeadline(db), all);
    forall k ensures multiset(sorted)[k] <= 1 { DistinctIsCountedOnce(all, k); }
    CountedOnceIsDistinct(sorted);
    SameMembers(sorted, all);
    assert TotalPreorder(ByDeadline(db)) by {
      forall x, y ensures LongerOverdue(db, x, y) || LongerOverdue(db, y, x) {}
    }
    SortSorted(ByDeadline(db), all);
  }

  function OverdueKeys(db: Db, now: int): set<Key> { set k | k in db.retries && Overdue(db, k, now) }

  function DeadlineOf(db: Db, k: Key): int { if k in db.retries then db.retries[k].deadline else 0 }

  predicate LongerOverdue(db: Db, a: Key, b: Key) {
    DeadlineOf(db, a) < DeadlineOf(db, b) || (DeadlineOf(db, a) == DeadlineOf(db, b) && a <= b)
  }

  function ByDeadline(db: Db): (Key, Key) -> bool { (a: Key, b: Key) => LongerOverdue(db, a, b) }

  /** A retry waits, and its deadline has not passed. */
  predicate Waits(db: Db, k: Key, now: int) {
    k in db.retries && db.retries[k].status == Pending && now <= db.retries[k].deadline
  }

  /** The one overdue retry, which will be given up. */
  ghost predicate CutAtLoss(db: Db, k: Key, now: int) { OverdueKeys(db, now) == {k} && !PublishedApi(db, k) }

  lemma OnlyListed(db: Db, keys: seq<Key>, k: Key, now: int)
    requires CutAtLoss(db, k, now) && |keys| == Min(EXPIRY_BATCH, |OverdueKeys(db, now)|)
    requires forall o :: o in keys ==> Overdue(db, o, now)
    ensures keys == [k]
  {
    assert |keys| == 1;
    assert keys[0] in keys;
    assert Overdue(db, keys[0], now);
    assert keys[0] in OverdueKeys(db, now);
  }

  /** How an overdue retry is closed: beside a model version as succeeded, and otherwise as failed. */
  function Closed(db: Db, k: Key): Retry
    requires k in db.retries
  {
    var r := db.retries[k];
    if PublishedApi(db, k) then r.(attempts := r.attempts + 1, status := Succeeded, nextAt := None)
    else r.(status := Failed, nextAt := None)
  }

  /** Closing overdue retries leaves what a tick goes by. */
  lemma SameCalls(a: Db, b: Db, input: Input)
    requires a.versions == b.versions && a.calls == b.calls
    requires forall k :: k in b.retries ==> ClosedOrSame(a, b, k, input.now)
    requires a.retries.Keys == b.retries.Keys
    ensures var k := input.key;
      && Current(a, k) == Current(b, k) && PublishedApi(a, k) == PublishedApi(b, k) && CallsOf(a, k) == CallsOf(b, k)
      && (CannotStore(a, input) <==> CannotStore(b, input))
      && (k in a.retries && !Overdue(a, k, input.now) ==> b.retries[k] == a.retries[k])
  {
    SameVersions(a, b, input.key);
    if input.key in a.retries { assert ClosedOrSame(a, b, input.key, input.now); }
  }

  lemma SameVersions(a: Db, b: Db, k: Key)
    requires a.versions == b.versions
    ensures PublishedApi(a, k) == PublishedApi(b, k) && Current(a, k) == Current(b, k)
    ensures VersionsOf(a, k) == VersionsOf(b, k) && forall v :: SamePeriod(a, k, v) <==> SamePeriod(b, k, v)
  {
  }

  /** With the listed retries closed and the others untouched, exactly the others are overdue. */
  lemma RestIsOverdue(a: Db, b: Db, keys: seq<Key>, now: int)
    requires Distinct(keys) && (forall k :: k in keys ==> Overdue(a, k, now)) && a.retries.Keys == b.retries.Keys
    requires forall k :: k in b.retries && k !in keys ==> b.retries[k] == a.retries[k]
    requires forall k :: k in keys ==> k in b.retries && b.retries[k].status != Pending
    ensures |OverdueKeys(b, now)| == |OverdueKeys(a, now)| - |keys|
    ensures |OverdueKeys(a, now)| == |keys| ==> forall k :: !Overdue(b, k, now)
  {
    var listed := set k | k in keys;
    DistinctSize(keys);
    assert listed <= OverdueKeys(a, now);
    assert OverdueKeys(b, now) == OverdueKeys(a, now) - listed;
    forall k | Overdue(b, k, now) ensures k in OverdueKeys(b, now) {}
  }

  ghost predicate ClosedOrSame(a: Db, b: Db, k: Key, now: int)
    requires k in b.retries
  {
    && k in a.retries
    && (b.retries[k] == a.retries[k] || (Overdue(a, k, now) && b.retries[k] == Closed(a, k)))
  }

  /** The first `i` keys are closed and no other retry was touched. */
  ghost predicate ClosedUpTo(a: Db, b: Db, keys: seq<Key>, i: nat) {
    && i <= |keys| && a.retries.Keys == b.retries.Keys
    && (forall k :: k in b.retries && k !in keys[..i] ==> b.retries[k] == a.retries[k])
    && (forall k :: k in keys[..i] ==> k in b.retries && b.retries[k] == Closed(a, k))
  }

  /** The failed days in a row and the last of them, after the first `i` retries are closed one by one. */
  ghost function DaysThrough(db: Db, keys: seq<Key>, i: nat): (nat, Option<Key>)
    requires i <= |keys|
  {
    if i == 0 then (db.streak, db.lastFailed)
    else if PublishedApi(db, keys[i - 1]) then (0, None)
    else
      var (days, last) := DaysThrough(db, keys, i - 1);
      (Days(days, last, keys[i - 1]), Some(keys[i - 1]))
  }

  /** The first `i` keys are settled in order: a model version is announced, any other day counts. */
  ghost predicate SettledUpTo(a: Db, b: Db, keys: seq<Key>, i: nat, notify: bool) {
    && i <= |keys| && (b.streak, b.lastFailed) == DaysThrough(a, keys, i) && LosesNothing(a, b)
    && (notify ==> forall k :: k in keys[..i] && PublishedApi(a, k) ==> (k, Current(a, k).value) in b.notices)
  }

  lemma OneMoreClosed(a: Db, b: Db, c: Db, keys: seq<Key>, i: nat, notify: bool)
    requires i < |keys| && Keeps(a, b) && Keeps(b, c) && a.versions == b.versions
    requires ClosedUpTo(a, b, keys, i) && SettledUpTo(a, b, keys, i, notify)
    requires keys[i] in b.retries && b.retries[keys[i]].status == Pending && OnlyRetry(b.retries, c.retries, keys[i])
    requires keys[i] in a.retries && keys[i] in c.retries
    requires c.retries[keys[i]] == Closed(a, keys[i]) && Accounts(b, c, keys[i])
    requires notify && PublishedApi(b, keys[i]) ==> (keys[i], Current(b, keys[i]).value) in c.notices
    ensures Keeps(a, c) && ClosedUpTo(a, c, keys, i + 1) && SettledUpTo(a, c, keys, i + 1, notify)
  {
    KeepsTransitive(a, b, c);
    ClosedOneMore(a, b, c, keys, i);
    SettledOneMore(a, b, c, keys, i, notify);
  }

  lemma SettledOneMore(a: Db, b: Db, c: Db, keys: seq<Key>, i: nat, notify: bool)
    requires i < |keys| && SettledUpTo(a, b, keys, i, notify) && a.versions == b.versions && b.notices <= c.notices
    requires keys[i] in b.retries && b.retries[keys[i]].status == Pending
    requires keys[i] in a.retries && keys[i] in c.retries
    requires c.retries[keys[i]] == Closed(a, keys[i]) && Accounts(b, c, keys[i])
    requires notify && PublishedApi(b, keys[i]) ==> (keys[i], Current(b, keys[i]).value) in c.notices
    ensures SettledUpTo(a, c, keys, i + 1, notify)
  {
    assert keys[..i + 1] == keys[..i] + [keys[i]];
    SameVersions(a, b, keys[i]);
    AccountsLoseNothing(b, c, keys[i]);
  }

  lemma NextIsOverdue(a: Db, b: Db, keys: seq<Key>, i: nat, now: int)
    requires i < |keys| && Distinct(keys) && ClosedUpTo(a, b, keys, i) && a.versions == b.versions
    requires forall k :: k in keys ==> Overdue(a, k, now)
    ensures keys[i] !in keys[..i] && Overdue(a, keys[i], now) && Overdue(b, keys[i], now)
      && Closed(b, keys[i]) == Closed(a, keys[i])
  {
    assert keys[i] in keys && keys[i] !in keys[..i];
    SameVersions(a, b, keys[i]);
  }

  lemma ClosedOneMore(a: Db, b: Db, c: Db, keys: seq<Key>, i: nat)
    requires i < |keys| && ClosedUpTo(a, b, keys, i) && OnlyRetry(b.retries, c.retries, keys[i])
    requires keys[i] in c.retries && c.retries[keys[i]] == Closed(a, keys[i])
    ensures ClosedUpTo(a, c, keys, i + 1)
  {
    assert keys[..i + 1] == keys[..i] + [keys[i]];
  }

  lemma CutWhileClosing(a: Db, b: Db, c: Db, keys: seq<Key>, i: nat, now: int)
    requires i < |keys| && ClosedUpTo(a, b, keys, i) && OnlyRetry(b.retries, c.retries, keys[i])
    requires forall k :: k in keys ==> Overdue(a, k, now)
    requires keys[i] in b.retries && keys[i] !in keys[..i]
    requires c.retries[keys[i]] == b.retries[keys[i]] || c.retries[keys[i]] == Closed(a, keys[i])
    ensures a.retries.Keys == c.retries.Keys && forall k :: k in c.retries ==> ClosedOrSame(a, c, k, now)
  {
    forall k | k in c.retries ensures ClosedOrSame(a, c, k, now) {
      if k in keys[..i] { assert k in keys; }
      if k == keys[i] { assert k in keys; }
    }
  }

  lemma AllListedClosed(a: Db, b: Db, keys: seq<Key>, now: int)
    requires ClosedUpTo(a, b, keys, |keys|) && Distinct(keys) && forall k :: k in keys ==> Overdue(a, k, now)
    ensures forall k :: k in b.retries ==> ClosedOrSame(a, b, k, now)
    ensures |OverdueKeys(b, now)| == |OverdueKeys(a, now)| - |keys|
    ensures |OverdueKeys(a, now)| == |keys| ==> forall k :: !Overdue(b, k, now)
  {
    assert keys[..|keys|] == keys;
    RestIsOverdue(a, b, keys, now);
  }

  predicate Overdue(db: Db, k: Key, now: int) {
    k in db.retries && db.retries[k].status == Pending && db.retries[k].deadline < now
  }

  // ----- one tick of the scheduler -------------------------------------------------------

  /** What a completed tick leaves: its digest settled, its open retry handled unless it was overdue, a digest that
      was not published founded, and no day lost. With nothing overdue the days follow this digest alone. */
  ghost predicate Ticked(a: Db, b: Db, hasModel: bool, notify: bool, input: Input) {
    var k := input.key;
    && Settled(b, k, notify) && LosesNothing(a, b)
    && (Open(a, k, hasModel, input.now).Some? && !Overdue(a, k, input.now) ==>
          Handled(Open(a, k, hasModel, input.now).value, PublishedApi(a, k), CallsOf(a, k), hasModel, input, b, k))
    && (Current(a, k).None? ==> input.build.Some? && Founded(input.build.value, CallsOf(a, k), hasModel, input, b, k))
    && (OverdueKeys(a, input.now) == {} ==>
          Accounts(a, b, k) && (Current(a, k).Some? ==> Visited(a, b, k, hasModel, notify, input)))
  }

  lemma TickComposes(a: Db, b: Db, c: Db, hasModel: bool, notify: bool, input: Input)
    requires Valid(a) && a.versions == b.versions && a.calls == b.calls && a.retries.Keys == b.retries.Keys
    requires forall k :: k in b.retries ==> ClosedOrSame(a, b, k, input.now)
    requires LosesNothing(a, b) && (OverdueKeys(a, input.now) == {} ==> a == b)
    requires Accounts(b, c, input.key) && Settled(c, input.key, notify)
    requires Current(b, input.key).Some? ==> Visited(b, c, input.key, hasModel, notify, input)
    requires Current(b, input.key).None? ==>
      input.build.Some? && Founded(input.build.value, CallsOf(b, input.key), hasModel, input, c, input.key)
    ensures Ticked(a, c, hasModel, notify, input)
  {
    SameCalls(a, b, input);
    AccountsLoseNothing(b, c, input.key);
    if Open(a, input.key, hasModel, input.now).Some? && !Overdue(a, input.key, input.now) {
      assert input.key in a.retries ==> RetryMatches(a, input.key);
      assert Open(b, input.key, hasModel, input.now) == Open(a, input.key, hasModel, input.now);
    }
  }

  /** A published version, or a document not stored yet. */
  datatype Document = Stored(n: nat) | Built(version: Version)

  /** What the world supplies to a tick: the time, the digest due, the document built for it (None when building
      fails), the model's answer (None when it fails, else whether the text contains the fallback note) and a retry
      an administrator brings forward while the model runs. */
  datatype Input = Input(now: int, key: Key, enabled: bool, build: Option<Version>, reply: Option<bool>,
                         administrator: Option<(Key, int)>)

  datatype Outcome = Crashed | Raised | Idle | Completed(key: Key)

  /** The row of a retry window that opens now. */
  function Opened(fallback: nat, now: int): Retry {
    Retry(fallback, 1, Some(now + RETRY_INTERVAL), now + RETRY_WINDOW, Pending)
  }

  /** A tick on a digest nobody published yet, with nothing overdue. */
  ghost predicate FirstTick(db: Db, input: Input) {
    && OverdueKeys(db, input.now) == {} && input.enabled && Current(db, input.key).None?
    && input.build.Some? && SamePeriod(db, input.key, input.build.value)
  }

  /** What the end of a tick promises about the digest it handled. */
  ghost predicate Settled(db: Db, k: Key, notify: bool) {
    && Current(db, k).Some?
    && !(PublishedApi(db, k) && k in db.retries && db.retries[k].status == Pending)
    && (notify ==> (k, Current(db, k).value) in db.notices)
    && Alarmed(db, k, notify)
  }

  /** The alarm of a third failed day in a row is queued. */
  ghost predicate Alarmed(db: Db, k: Key, notify: bool) {
    notify && k in db.retries && db.retries[k].status == Failed && db.lastFailed == Some(k) && db.streak == 3 ==>
      (k, 3) in db.alarms
  }

  ghost predicate HasFailed(db: Db, k: Key) { k in db.retries && db.retries[k].status == Failed }

  ghost predicate HasSucceeded(db: Db, k: Key) { k in db.retries && db.retries[k].status == Succeeded }

  /** The retry succeeds, or without one the model version is published. */
  ghost predicate Succeeds(a: Db, b: Db, k: Key) {
    if k in b.retries then HasSucceeded(b, k) && !HasSucceeded(a, k) else PublishedApi(b, k) && !PublishedApi(a, k)
  }

  /** The days follow the outcome of one digest: a failure counts its day, a success ends the streak, anything else
      leaves the days alone; no other digest fails meanwhile. */
  ghost predicate Accounts(a: Db, b: Db, k: Key) {
    && (forall o :: o != k ==> (HasFailed(b, o) <==> HasFailed(a, o)))
    && (if HasFailed(b, k) && !HasFailed(a, k) then
          && b.counted == a.counted + {k} && b.lastFailed == Some(k)
          && b.streak == Days(a.streak, a.lastFailed, k)
        else if Succeeds(a, b, k) then
          b.counted == a.counted && b.streak == 0 && b.lastFailed.None?
        else b.counted == a.counted && b.streak == a.streak && b.lastFailed == a.lastFailed)
  }

  /** Neither the days nor what they follow changed. */
  ghost predicate SameDays(a: Db, b: Db, k: Key) {
    && b.counted == a.counted && b.streak == a.streak && b.lastFailed == a.lastFailed
    && (forall o :: HasFailed(b, o) <==> HasFailed(a, o)) && (HasSucceeded(b, k) <==> HasSucceeded(a, k))
    && (k in b.retries || (PublishedApi(b, k) <==> PublishedApi(a, k)))
  }

  lemma AccountsAfter(a: Db, b: Db, c: Db, k: Key)
    requires SameDays(a, b, k) && Accounts(b, c, k) && (k in b.retries ==> k in c.retries)
    ensures Accounts(a, c, k)
  {
  }

  lemma StepsCompose(a: Db, b: Db, c: Db, k: Key)
    requires Keeps(a, b) && Keeps(b, c) && SameDays(a, b, k)
    ensures Keeps(a, c) && (Accounts(b, c, k) ==> Accounts(a, c, k))
  {
    KeepsTransitive(a, b, c);
    if Accounts(b, c, k) { AccountsAfter(a, b, c, k); }
  }

  lemma DayIsKept(a: Db, b: Db, c: Db, k: Key)
    requires Keeps(a, b) && k in a.retries && a.retries[k].status == Pending && OnlyRetry(a.retries, b.retries, k)
    requires b.retries[k].status == Failed && b == a.(retries := b.retries)
    requires c == RecordFailure(b, k).0.(alarms := c.alarms) && b.alarms <= c.alarms
    ensures Keeps(a, c) && Accounts(a, c, k)
  {
    CountKeeps(a, b, k);
    forall o ensures Current(c, o) == Current(a, o) && PublishedApi(c, o) == PublishedApi(a, o) {
      SameVersions(a, c, o);
    }
    FailureAccounts(a, c, k);
  }

  lemma RetryKeepsDays(a: Db, b: Db, k: Key)
    requires k in a.retries && b.retries == a.retries && b.counted == a.counted
    requires b.streak == a.streak && b.lastFailed == a.lastFailed
    ensures SameDays(a, b, k)
  {
  }

  /** A retry given up and its day counted. */
  lemma FailureAccounts(a: Db, b: Db, k: Key)
    requires k in a.retries && a.retries[k].status == Pending && OnlyRetry(a.retries, b.retries, k)
    requires b.retries[k].status == Failed && b.counted == a.counted + {k} && b.lastFailed == Some(k)
    requires b.streak == Days(a.streak, a.lastFailed, k)
    ensures Accounts(a, b, k)
  {
  }

  /** Every day that is lost was lost before. */
  ghost predicate LosesNothing(a: Db, b: Db) { forall k :: Lost(b, k) ==> Lost(a, k) }

  lemma AccountsLoseNothing(a: Db, b: Db, k: Key)
    requires Accounts(a, b, k)
    ensures LosesNothing(a, b)
  {
    forall o | Lost(b, o) ensures Lost(a, o) { assert HasFailed(b, o); }
  }

  /** The row a failed attempt leaves: given up after the fifth one or at the deadline, and otherwise due again at
      its place in the window, not before now and not after the deadline. */
  function AfterFailure(was: Retry, now: int): Retry {
    var attempts := was.attempts + 1;
    if attempts >= 5 || now >= was.deadline then was.(attempts := attempts, status := Failed, nextAt := None)
    else
      var scheduled := was.deadline - RETRY_WINDOW + attempts * RETRY_INTERVAL;
      was.(attempts := attempts, nextAt := Some(if scheduled < now then now
                                                else if scheduled > was.deadline then was.deadline else scheduled))
  }

  /** A failed attempt counts one more; the retry is given up exactly when that makes five or the deadline has come,
      and otherwise waits until as many hours into its window as it has attempts, or until now if that is later, but
      never beyond its deadline. */
  lemma AfterFailureIsExact(was: Retry, now: int)
    requires was.status == Pending
    ensures var r := AfterFailure(was, now); var due := was.deadline - 5 * 3600 + 3600 * r.attempts;
      && r.fallback == was.fallback && r.deadline == was.deadline && r.attempts == was.attempts + 1
      && (r.status == Failed <==> r.attempts >= 5 || now >= was.deadline) && (r.status == Failed ==> r.nextAt.None?)
      && (r.status != Failed ==>
            && r.status == Pending && r.nextAt.Some? && now <= r.nextAt.value <= was.deadline
            && (now <= due <= was.deadline ==> r.nextAt.value == due) && (due < now ==> r.nextAt.value == now))
  {
  }

  /** Opening a window equals a failed attempt at a retry that had made none and has five hours. */
  lemma OpeningIsAFirstFailure(db: Db, k: Key, n: nat, now: int)
    requires k !in db.retries
    ensures StartRetry(db, k, n, now, now + RETRY_WINDOW)
      == db.(retries := db.retries[k := AfterFailure(Retry(n, 0, None, now + 5 * 3600, Pending), now)])
    ensures StartRetry(db, k, n, now, now + RETRY_WINDOW).retries[k] == Opened(n, now)
  {
  }

  /** A retry is left waiting exactly while it is pending with its deadline not behind, and listed as overdue
      exactly when it is pending with its deadline behind. */
  lemma PendingWaitsOrIsOverdue(db: Db, k: Key, now: int)
    requires k in db.retries
    ensures Waits(db, k, now) <==> db.retries[k].status == Pending && now <= db.retries[k].deadline
    ensures Overdue(db, k, now) <==> db.retries[k].status == Pending && now > db.retries[k].deadline
  {
  }

  /** A retry waits for its time exactly until that has come, and asks the model at most five times for a key. */
  lemma VisitsAreExact(was: Retry, now: int, calls: nat, input: Input)
    requires was.status == Pending && RetryInBounds(was)
    ensures Early(was, now) <==> now < was.nextAt.value
    ensures calls <= 4 ==> Answer(calls, input) == input.reply && CallsAfter(calls) == calls + 1
    ensures calls >= 5 ==> Answer(calls, input).None? && CallsAfter(calls) == calls
  {
  }

  /** The model is asked, and pays a call, while calls are left. */
  function Answer(calls: nat, input: Input): Option<bool> { if calls < CALL_LIMIT then input.reply else None }

  function CallsAfter(calls: nat): nat { if calls < CALL_LIMIT then calls + 1 else calls }

  /** What asking the model leaves: a call reserved, and meanwhile perhaps a retry brought forward. */
  function Asked(db: Db, k: Key, input: Input): Db {
    var (reserved, allowed) := ReserveCall(db, k);
    if allowed && input.administrator.Some? then
      RequestRetryNow(reserved, input.administrator.value.0, input.administrator.value.1)
    else reserved
  }

  lemma AskedKeeps(db: Db, k: Key, input: Input)
    requires Valid(db)
    ensures Keeps(db, Asked(db, k, input))
  {
    var reserved := ReserveCall(db, k).0;
    SideTablesKeep(db, reserved);
    if input.administrator.Some? {
      RequestKeeps(reserved, input.administrator.value.0, input.administrator.value.1);
      KeepsTransitive(db, reserved, Asked(db, k, input));
    }
  }

  lemma AskedKeepsDays(db: Db, k: Key, input: Input)
    ensures SameDays(db, Asked(db, k, input), k)
  {
    AskedIsExact(db, k, input);
    SameVersions(db, Asked(db, k, input), k);
  }

  /** Asking takes a call if one is left, and of the tables else touches only when retries are due. */
  lemma AskedIsExact(db: Db, k: Key, input: Input)
    ensures var r := Asked(db, k, input);
      && r == db.(retries := r.retries, calls := r.calls)
      && CallsOf(r, k) == CallsAfter(CallsOf(db, k)) && (forall o :: o != k ==> CallsOf(r, o) == CallsOf(db, o))
      && r.retries.Keys == db.retries.Keys
      && (forall o :: o in r.retries ==> r.retries[o] == db.retries[o].(nextAt := r.retries[o].nextAt))
  {
  }

  /** What one attempt at a due retry leaves, from its row and the calls used before. */
  ghost predicate Attempted(was: Retry, calls: nat, input: Input, db: Db, k: Key) {
    && k in db.retries && CallsOf(db, k) == CallsAfter(calls)
    && (if Answer(calls, input).Some? then
          && PublishedApi(db, k) && CurrentVersion(db, k).fallbackNote == Answer(calls, input).value
          && db.retries[k] == was.(attempts := was.attempts + 1, status := Succeeded, nextAt := None)
        else !PublishedApi(db, k) && db.retries[k] == AfterFailure(was, input.now))
  }

  /** The retry waits for its time, and its deadline is ahead as well. */
  predicate Early(was: Retry, now: int) { was.nextAt.Some? && now < was.nextAt.value && now < was.deadline }

  /** What a completed visit leaves of a pending retry. */
  ghost predicate Handled(was: Retry, api: bool, calls: nat, hasModel: bool, input: Input, db: Db, k: Key) {
    && k in db.retries
    && (if api then
          CallsOf(db, k) == calls
          && db.retries[k] == was.(attempts := was.attempts + 1, status := Succeeded, nextAt := None)
        else if !hasModel then CallsOf(db, k) == calls && db.retries[k] == was
        else if input.now > was.deadline then
          CallsOf(db, k) == calls && db.retries[k] == was.(status := Failed, nextAt := None)
        else if Early(was, input.now) then CallsOf(db, k) == calls && db.retries[k] == was
        else Attempted(was, calls, input, db, k))
  }

  /** The retry of a published digest that is still open, where a lost row counts as opened at the publication. */
  ghost function Open(db: Db, k: Key, hasModel: bool, now: int): Option<Retry> {
    if k in db.retries then
      if db.retries[k].status == Pending then Some(db.retries[k]) else None
    else if Current(db, k).Some? && hasModel && CurrentVersion(db, k).fallbackNote then
      var at := CurrentVersion(db, k).publishedAt;
      Some(Opened(Current(db, k).value, if at != 0 then at else now))
    else None
  }

  /** What a completed visit to a published digest leaves: its open retry is handled, and without one nothing is
      done. */
  ghost predicate Visited(a: Db, b: Db, k: Key, hasModel: bool, notify: bool, input: Input) {
    && Settled(b, k, notify) && Accounts(a, b, k)
    && (if Open(a, k, hasModel, input.now).Some? then
          Handled(Open(a, k, hasModel, input.now).value, PublishedApi(a, k), CallsOf(a, k), hasModel, input, b, k)
        else b.versions == a.versions && b.retries == a.retries && b.calls == a.calls)
  }

  lemma OnlyAnnounced(a: Db, b: Db, k: Key, hasModel: bool, now: int)
    requires b == a.(notices := b.notices)
    ensures SameDays(a, b, k) && Open(b, k, hasModel, now) == Open(a, k, hasModel, now)
    ensures VersionsOf(a, k) == VersionsOf(b, k) && forall v :: SamePeriod(a, k, v) <==> SamePeriod(b, k, v)
  {
    SameVersions(a, b, k);
  }

  lemma VisitedAfter(a: Db, b: Db, c: Db, k: Key, hasModel: bool, notify: bool, input: Input)
    requires Keeps(a, b) && Keeps(b, c) && a.versions == b.versions && a.calls == b.calls && SameDays(a, b, k)
    requires Open(a, k, hasModel, input.now) == Open(b, k, hasModel, input.now)
    requires Open(a, k, hasModel, input.now).None? ==> a.retries == b.retries
    ensures Keeps(a, c) && (Accounts(b, c, k) ==> Accounts(a, c, k))
    ensures Visited(b, c, k, hasModel, notify, input) ==> Visited(a, c, k, hasModel, notify, input)
  {
    SameVersions(a, b, k);
    StepsCompose(a, b, c, k);
  }

  /** What a completed first attempt leaves: the algorithmic version where no model is asked, the model version
      where it answers, and otherwise the algorithmic one with its note and an open retry window. */
  ghost predicate Founded(version: Version, calls: nat, hasModel: bool, input: Input, db: Db, k: Key) {
    && Current(db, k).Some?
    && var current := CurrentVersion(db, k);
      if !version.hasItems || !hasModel then
        && k !in db.retries && CallsOf(db, k) == calls
        && current == version.(status := Published, publishedAt := input.now)
      else if Answer(calls, input).Some? then
        && k !in db.retries && CallsOf(db, k) == CallsAfter(calls)
        && current == version.(kind := Api, fallbackNote := Answer(calls, input).value, status := Published,
                               publishedAt := input.now)
      else
        && k in db.retries && db.retries[k] == Opened(Current(db, k).value, input.now)
        && CallsOf(db, k) == CallsAfter(calls)
        && current == version.(fallbackNote := true, status := Published, publishedAt := input.now)
  }

  /** The last stored version and the one to be stored belong to different periods, or there is none to store. */
  predicate CannotStore(db: Db, input: Input) {
    if Current(db, input.key).Some? then
      !SamePeriod(db, input.key, VersionsOf(db, input.key)[Current(db, input.key).value])
    else input.build.None? || !SamePeriod(db, input.key, input.build.value)
  }

  class DigestScheduler {
    const repo: DigestRepository
    const notify: bool
    const hasModel: bool
    var fuse: nat  // transactions that still commit before the process dies

    constructor (repo: DigestRepository, notify: bool, hasModel: bool, fuse: nat)
      ensures this.repo == repo && this.notify == notify && this.hasModel == hasModel && this.fuse == fuse
    {
      this.repo, this.notify, this.hasModel, this.fuse := repo, notify, hasModel, fuse;
    }

    method Survives() returns (alive: bool)
      modifies this`fuse
      ensures alive <==> old(fuse) > 0
      ensures fuse == if alive then old(fuse) - 1 else 0
    {
      alive := fuse > 0;
      if alive { fuse := fuse - 1; }
    }

    /** Saves a new document and publishes it, in two transactions. */
    method StoreDocument(k: Key, version: Version, now: int) returns (r: Option<nat>, raised: bool)
      requires repo.Sound() && (version.kind == Api || Current(repo.State(), k).None?)
      requires k in repo.retries ==> repo.retries[k].status == Pending
      modifies repo, this`fuse
      ensures repo.Sound() && Keeps(old(repo.State()), repo.State()) && repo.runs == old(repo.runs)
      ensures repo.retries == old(repo.retries) && repo.streak == old(repo.streak)
        && repo.lastFailed == old(repo.lastFailed) && repo.counted == old(repo.counted)
      ensures r.Some? ==>
        && Current(repo.State(), k) == r && !raised
        && CurrentVersion(repo.State(), k) == version.(status := Published, publishedAt := now)
      ensures repo.calls == old(repo.calls)
      ensures raised ==> repo.State() == old(repo.State()) && !SamePeriod(old(repo.State()), k, version)
      ensures r.None? && !raised ==> old(fuse) < 2
      ensures fuse + 2 >= old(fuse)
    {
      ghost var before := repo.State();
      var alive := Survives();
      if !alive { return None, false; }
      if !SamePeriod(repo.State(), k, version) {
        return None, true;
      }
      var n := repo.Save(k, version);
      CurrentAfterSave(before, k, version, k);
      ghost var saved := repo.State();
      alive := Survives();
      if !alive { return None, false; }
      CurrentAfterPublish(saved, k, n, now);
      assert VersionsOf(saved, k)[n] == version.(status := Draft, publishedAt := 0);
      repo.Publish(k, n, now);
      KeepsTransitive(before, saved, repo.State());
      return Some(n), false;
    }

    /** Publishes a document if it is not stored yet and makes sure its notification is queued. */
    method PublishDocument(k: Key, document: Document, now: int) returns (r: Option<nat>, raised: bool)
      requires repo.Sound()
      requires document.Stored? ==> Current(repo.State(), k) == Some(document.n)
      requires document.Built? ==> document.version.kind == Api || Current(repo.State(), k).None?
      requires document.Built? && k in repo.retries ==> repo.retries[k].status == Pending
      modifies repo, this`fuse
      ensures repo.Sound() && Keeps(old(repo.State()), repo.State()) && repo.runs == old(repo.runs)
      ensures repo.retries == old(repo.retries) && repo.streak == old(repo.streak)
        && repo.lastFailed == old(repo.lastFailed) && repo.counted == old(repo.counted)
      ensures r.Some? ==> Current(repo.State(), k) == r
      ensures r.Some? && document.Built? ==>
        CurrentVersion(repo.State(), k) == document.version.(status := Published, publishedAt := now)
      ensures repo.calls == old(repo.calls)
      ensures document.Stored? ==>
        repo.State() == old(repo.State()).(notices := repo.notices) && (r.Some? ==> r == Some(document.n))
      ensures r.Some? && notify ==> (k, r.value) in repo.notices
      ensures raised ==> repo.State() == old(repo.State())
      ensures raised ==> r.None? && document.Built? && !SamePeriod(old(repo.State()), k, document.version)
      ensures r.None? && !raised ==> old(fuse) < 3
      ensures fuse + 3 >= old(fuse)
    {
      ghost var before := repo.State();
      raised := false;
      if document.Built? {
        r, raised := StoreDocument(k, document.version, now);
        if r.None? { return; }
      } else {
        r := Some(document.n);
      }
      if notify {
        ghost var published := repo.State();
        var alive := Survives();
        if !alive { return None, false; }
        repo.EnqueueNotification(k, r.value);
        KeepsTransitive(before, published, repo.State());
      }
    }

    /** One synthesis: reserves a call, runs the model, and meanwhile lets an administrator act. */
    method Summarize(k: Key, input: Input) returns (alive: bool, summary: Option<bool>)
      requires repo.Sound()
      modifies repo, this`fuse
      ensures repo.Sound() && alive == (old(fuse) > 0) && fuse == Max(0, old(fuse) - 1)
      ensures repo.State() == if alive then Asked(old(repo.State()), k, input) else old(repo.State())
      ensures alive ==> summary == Answer(CallsOf(old(repo.State()), k), input)
    {
      alive := Survives();
      if !alive { return false, None; }
      var allowed := repo.Reserve(k);
      if !allowed { return true, None; }
      repo.runs := repo.runs[k := (if k in repo.runs then repo.runs[k] else 0) + 1];
      summary := input.reply;
      if input.administrator.Some? {
        repo.BringForward(input.administrator.value.0, input.administrator.value.1);
      }
    }

    /** Marks a retry as succeeded, beside a published model version. */
    method FinishRetry(k: Key) returns (alive: bool)
      requires repo.Sound() && k in repo.retries && repo.retries[k].status == Pending && PublishedApi(repo.State(), k)
      modifies repo, this`fuse
      ensures repo.Sound() && Keeps(old(repo.State()), repo.State())
      ensures repo.versions == old(repo.versions) && repo.notices == old(repo.notices)
      ensures OnlyRetry(old(repo.retries), repo.retries, k)
      ensures alive ==>
        repo.retries[k]
          == old(repo.retries)[k].(attempts := old(repo.retries)[k].attempts + 1, status := Succeeded, nextAt := None)
      ensures alive ==> Accounts(old(repo.State()), repo.State(), k)
      ensures repo.calls == old(repo.calls) && (!alive ==> old(fuse) < 2) && fuse + 2 >= old(fuse)
      ensures repo.retries[k] == old(repo.retries)[k]
        || repo.retries[k]
           == old(repo.retries)[k].(attempts := old(repo.retries)[k].attempts + 1, status := Succeeded, nextAt := None)
    {
      ghost var before := repo.State();
      alive := Survives();
      if !alive { return false; }
      assert RetryInBounds(repo.retries[k]);
      repo.UpdateRetry(k, repo.retries[k].attempts + 1, Succeeded, None);
      alive := EndStreak(before);
    }

    /** The second half: the failure streak ends. */
    method EndStreak(ghost before: Db) returns (alive: bool)
      requires repo.Sound() && Keeps(before, repo.State())
      modifies repo, this`fuse
      ensures repo.Sound() && Keeps(before, repo.State())
      ensures repo.versions == old(repo.versions) && repo.notices == old(repo.notices)
      ensures repo.retries == old(repo.retries) && repo.calls == old(repo.calls)
        && repo.counted == old(repo.counted)
      ensures alive ==> repo.streak == 0 && repo.lastFailed.None?
      ensures (!alive ==> old(fuse) < 1) && fuse + 1 >= old(fuse)
    {
      ghost var at := repo.State();
      alive := Survives();
      if !alive { return false; }
      repo.ResetFailures();
      KeepsTransitive(before, at, repo.State());
    }

    method NotifyFailure(k: Key) returns (alive: bool)
      requires repo.Sound() && repo.lastFailed == Some(k) && repo.streak == 3
      modifies repo, this`fuse
      ensures repo.Sound() && Keeps(old(repo.State()), repo.State())
      ensures repo.versions == old(repo.versions) && repo.retries == old(repo.retries)
        && repo.notices == old(repo.notices)
      ensures repo.streak == old(repo.streak) && repo.lastFailed == old(repo.lastFailed)
        && repo.counted == old(repo.counted)
      ensures repo.calls == old(repo.calls) && (!alive ==> old(fuse) < 1) && fuse + 1 >= old(fuse)
      ensures repo.alarms == old(repo.alarms) + if alive && notify then {(k, repo.streak)} else {}
    {
      if !notify { return true; }
      alive := Survives();
      if !alive { return false; }
      repo.EnqueueAlarm(k, repo.streak);
    }

    /** Gives a retry up, counts the day and raises the alarm on the third day in a row. Of the two transactions the
        first settles the retry and the second counts the day: a crash between them loses the day. */
    method FinishFailure(k: Key, attempts: int) returns (alive: bool)
      requires repo.Sound() && k in repo.retries && repo.retries[k].status == Pending && !PublishedApi(repo.State(), k)
      requires 1 <= attempts <= 5
      modifies repo, this`fuse
      ensures repo.Sound() && Keeps(old(repo.State()), repo.State())
      ensures repo.versions == old(repo.versions) && repo.notices == old(repo.notices)
      ensures OnlyRetry(old(repo.retries), repo.retries, k)
      ensures alive ==>
        && repo.lastFailed == Some(k) && Alarmed(repo.State(), k, notify)
        && repo.retries[k] == old(repo.retries)[k].(attempts := attempts, status := Failed, nextAt := None)
      ensures alive ==> Accounts(old(repo.State()), repo.State(), k)
      ensures repo.calls == old(repo.calls) && (!alive ==> old(fuse) < 3) && fuse + 3 >= old(fuse)
      ensures repo.retries[k] == old(repo.retries)[k]
        || repo.retries[k] == old(repo.retries)[k].(attempts := attempts, status := Failed, nextAt := None)
      ensures repo.retries[k].status == Failed <==> old(fuse) >= 1
      ensures k in repo.counted <==> old(fuse) >= 2
    {
      ghost var before := repo.State();
      assert k !in repo.counted && !Lost(before, k);
      alive := Survives();
      if !alive { return false; }
      repo.UpdateRetry(k, attempts, Failed, None);
      ghost var marked := repo.State();
      alive := CountDay(k);
      if repo.State() != marked { DayIsKept(before, marked, repo.State(), k); }
    }

    /** The second half of giving up: counts the day, and raises the alarm on the third day in a row. */
    method CountDay(k: Key) returns (alive: bool)
      requires repo.Sound() && k in repo.retries && repo.retries[k].status == Failed && repo.lastFailed != Some(k)
      modifies repo, this`fuse
      ensures repo.Sound()
      ensures old(fuse) == 0 ==> !alive && repo.State() == old(repo.State())
      ensures old(fuse) >= 1 ==>
        repo.State() == RecordFailure(old(repo.State()), k).0.(alarms := repo.alarms) && old(repo.alarms) <= repo.alarms
      ensures (!alive ==> old(fuse) < 2) && fuse + 2 >= old(fuse)
      ensures alive ==>
        repo.alarms == old(repo.alarms)
          + if notify && old(repo.streak) == 2 && old(repo.lastFailed) == Some(k - 1) then {(k, 3)} else {}
    {
      alive := Survives();
      if !alive { return false; }
      var alarm := repo.CountFailure(k);
      if alarm {
        alive := NotifyFailure(k);
      }
    }

    /** Closes one retry whose window passed; a model version already published wins over its stale row. */
    method CloseExpired(k: Key, now: int) returns (alive: bool)
      requires repo.Sound() && Overdue(repo.State(), k, now)
      modifies repo, this`fuse
      ensures repo.Sound() && Keeps(old(repo.State()), repo.State())
      ensures repo.versions == old(repo.versions) && OnlyRetry(old(repo.retries), repo.retries, k)
      ensures repo.retries[k] == old(repo.retries)[k] || repo.retries[k] == old(Closed(repo.State(), k))
      ensures alive ==> repo.retries[k] == old(Closed(repo.State(), k))
      ensures alive ==> Accounts(old(repo.State()), repo.State(), k)
      ensures alive && notify && PublishedApi(old(repo.State()), k) ==>
        (k, Current(old(repo.State()), k).value) in repo.notices
      ensures repo.calls == old(repo.calls) && (!alive ==> old(fuse) < 5) && fuse + 5 >= old(fuse)
      ensures !PublishedApi(old(repo.State()), k) && old(fuse) == 1 ==> !alive && Lost(repo.State(), k)
    {
      if PublishedApi(repo.State(), k) {
        alive := CloseBesideModel(k, now);
      } else {
        assert RetryMatches(repo.State(), k) && RetryInBounds(repo.retries[k]);
        alive := FinishFailure(k, repo.retries[k].attempts);
      }
    }

    /** Closes a retry whose digest has a model version already, which is announced once more. */
    method CloseBesideModel(k: Key, now: int) returns (alive: bool)
      requires repo.Sound() && k in repo.retries && repo.retries[k].status == Pending && PublishedApi(repo.State(), k)
      modifies repo, this`fuse
      ensures repo.Sound() && Keeps(old(repo.State()), repo.State())
      ensures repo.versions == old(repo.versions) && OnlyRetry(old(repo.retries), repo.retries, k)
      ensures repo.retries[k] == old(repo.retries)[k] || repo.retries[k] == old(Closed(repo.State(), k))
      ensures alive ==>
        && repo.retries[k] == old(Closed(repo.State(), k)) && Accounts(old(repo.State()), repo.State(), k)
        && (notify ==> (k, Current(old(repo.State()), k).value) in repo.notices)
      ensures repo.calls == old(repo.calls) && (!alive ==> old(fuse) < 5) && fuse + 5 >= old(fuse)
    {
      ghost var at := repo.State();
      var r, raised := PublishDocument(k, Stored(Current(repo.State(), k).value), now);
      if r.None? { return false; }
      ghost var announced := repo.State();
      OnlyAnnounced(at, announced, k, hasModel, now);
      alive := FinishRetry(k);
      StepsCompose(at, announced, repo.State(), k);
    }

    /** Closes the retries whose window passed, up to a bounded number of them. */
    method FinalizeExpired(now: int) returns (alive: bool)
      requires repo.Sound()
      modifies repo, this`fuse
      ensures repo.Sound() && Keeps(old(repo.State()), repo.State())
      ensures repo.versions == old(repo.versions) && repo.retries.Keys == old(repo.retries.Keys)
      ensures forall k :: k in repo.retries ==> ClosedOrSame(old(repo.State()), repo.State(), k, now)
      ensures alive ==>
        |OverdueKeys(repo.State(), now)|
          == |old(OverdueKeys(repo.State(), now))| - Min(EXPIRY_BATCH, |old(OverdueKeys(repo.State(), now))|)
      ensures alive ==>
        exists keys ::
          && LongestOverdue(old(repo.State()), keys, now)
          && SettledUpTo(old(repo.State()), repo.State(), keys, |keys|, notify)
      ensures alive && |old(OverdueKeys(repo.State(), now))| <= EXPIRY_BATCH ==>
        forall k :: !Overdue(repo.State(), k, now)
      ensures old(OverdueKeys(repo.State(), now)) == {} ==>
        repo.State() == old(repo.State()) && alive && fuse == old(fuse)
      ensures repo.calls == old(repo.calls)
      ensures (!alive ==> old(fuse) < 5 * EXPIRY_BATCH) && fuse + 5 * EXPIRY_BATCH >= old(fuse)
      ensures forall k :: old(CutAtLoss(repo.State(), k, now)) && old(fuse) == 1 ==> !alive && Lost(repo.State(), k)
    {
      ghost var before := repo.State();
      var keys := repo.ListExpired(now);
      forall k | CutAtLoss(before, k, now) ensures keys == [k] { OnlyListed(before, keys, k, now); }
      alive := CloseListed(keys, now);
      if alive {
        assert LongestOverdue(before, keys, now);
        AllListedClosed(before, repo.State(), keys, now);
      }
    }

    /** Closes the listed retries one by one. */
    method CloseListed(keys: seq<Key>, now: int) returns (alive: bool)
      requires repo.Sound() && Distinct(keys) && forall k :: k in keys ==> Overdue(repo.State(), k, now)
      modifies repo, this`fuse
      ensures repo.Sound() && Keeps(old(repo.State()), repo.State())
      ensures repo.versions == old(repo.versions) && repo.calls == old(repo.calls)
      ensures alive ==>
        && ClosedUpTo(old(repo.State()), repo.State(), keys, |keys|)
        && SettledUpTo(old(repo.State()), repo.State(), keys, |keys|, notify)
      ensures !alive ==>
        && repo.retries.Keys == old(repo.retries.Keys)
        && forall k :: k in repo.retries ==> ClosedOrSame(old(repo.State()), repo.State(), k, now)
      ensures keys == [] ==> repo.State() == old(repo.State()) && alive && fuse == old(fuse)
      ensures (!alive ==> old(fuse) < 5 * |keys|) && fuse + 5 * |keys| >= old(fuse)
      ensures |keys| == 1 && !PublishedApi(old(repo.State()), keys[0]) && old(fuse) == 1 ==>
        !alive && Lost(repo.State(), keys[0])
    {
      ghost var before := repo.State();
      for i := 0 to |keys|
        invariant repo.Sound() && Keeps(before, repo.State())
        invariant repo.versions == before.versions && repo.calls == before.calls
        invariant i == 0 ==> repo.State() == before && fuse == old(fuse)
        invariant fuse + 5 * i >= old(fuse)
        invariant i > 0 && !PublishedApi(before, keys[0]) ==> old(fuse) != 1
        invariant ClosedUpTo(before, repo.State(), keys, i) && SettledUpTo(before, repo.State(), keys, i, notify)
      {
        ghost var at := repo.State();
        NextIsOverdue(before, at, keys, i, now);
        alive := CloseExpired(keys[i], now);
        if !alive {
          KeepsTransitive(before, at, repo.State());
          CutWhileClosing(before, at, repo.State(), keys, i, now);
          return false;
        }
        OneMoreClosed(before, at, repo.State(), keys, i, notify);
      }
      return true;
    }

    /** A later attempt at a model version, with the fallback already published. */
    method RetryApi(k: Key, n: nat, input: Input) returns (outcome: Outcome)
      requires repo.Sound() && k in repo.retries && repo.retries[k].status == Pending
      requires Current(repo.State(), k) == Some(n) && !PublishedApi(repo.State(), k)
      requires notify ==> (k, n) in repo.notices
      modifies repo, this`fuse
      ensures repo.Sound() && Keeps(old(repo.State()), repo.State())
      ensures outcome == Completed(k) || outcome == Crashed || outcome == Raised
      ensures outcome == Completed(k) ==>
        && Settled(repo.State(), k, notify)
        && Attempted(old(repo.retries)[k], CallsOf(old(repo.State()), k), input, repo.State(), k)
      ensures outcome != Crashed ==> Accounts(old(repo.State()), repo.State(), k)
      ensures outcome == Crashed ==> old(fuse) < 6
      ensures outcome == Raised ==> !SamePeriod(old(repo.State()), k, VersionsOf(old(repo.State()), k)[n])
    {
      ghost var before := repo.State();
      var retry := repo.retries[k];
      assert RetryInBounds(retry);
      var version := VersionsOf(repo.State(), k)[n];
      var alive, summary := Summarize(k, input);
      if !alive { return Crashed; }
      ghost var asked := repo.State();
      AskedKeeps(before, k, input);
      AskedKeepsDays(before, k, input);
      AskedIsExact(before, k, input);
      SameVersions(before, asked, k);
      outcome := Conclude(k, retry, version, summary, input.now);
      StepsCompose(before, asked, repo.State(), k);
    }

    /** The second half of a later attempt, with or without an answer. */
    method Conclude(k: Key, was: Retry, version: Version, summary: Option<bool>, now: int) returns (outcome: Outcome)
      requires repo.Sound() && k in repo.retries && was == repo.retries[k].(nextAt := was.nextAt)
      requires was.status == Pending && RetryInBounds(was) && !PublishedApi(repo.State(), k)
      requires notify ==> (k, Current(repo.State(), k).value) in repo.notices
      modifies repo, this`fuse
      ensures repo.Sound() && Keeps(old(repo.State()), repo.State()) && repo.calls == old(repo.calls)
      ensures outcome == Completed(k) || outcome == Crashed || outcome == Raised
      ensures outcome == Completed(k) ==> Settled(repo.State(), k, notify) && k in repo.retries
      ensures outcome == Completed(k) ==>
        if summary.Some? then
          && PublishedApi(repo.State(), k) && CurrentVersion(repo.State(), k).fallbackNote == summary.value
          && repo.retries[k] == was.(attempts := was.attempts + 1, status := Succeeded, nextAt := None)
        else !PublishedApi(repo.State(), k) && repo.retries[k] == AfterFailure(was, now)
      ensures outcome != Crashed ==> Accounts(old(repo.State()), repo.State(), k)
      ensures outcome == Crashed ==> old(fuse) < 5
      ensures outcome == Raised ==> !SamePeriod(old(repo.State()), k, version)
    {
      ghost var asked := repo.State();
      assert RetryMatches(asked, k);
      if summary.None? {
        outcome := RecordFailedAttempt(k, was, now);
        SameVersions(asked, repo.State(), k);
      } else {
        outcome := PublishPolished(k, version.(kind := Api, fallbackNote := summary.value), now);
      }
    }

    /** A later attempt without an answer: another one is scheduled, or the retry is given up. */
    method RecordFailedAttempt(k: Key, was: Retry, now: int) returns (outcome: Outcome)
      requires repo.Sound() && k in repo.retries && was == repo.retries[k].(nextAt := was.nextAt)
      requires was.status == Pending && RetryInBounds(was) && !PublishedApi(repo.State(), k)
      modifies repo, this`fuse
      ensures repo.Sound() && Keeps(old(repo.State()), repo.State())
      ensures repo.versions == old(repo.versions) && repo.notices == old(repo.notices) && repo.calls == old(repo.calls)
      ensures outcome == Completed(k) || outcome == Crashed
      ensures outcome == Completed(k) ==>
        k in repo.retries && repo.retries[k] == AfterFailure(was, now) && Alarmed(repo.State(), k, notify)
      ensures outcome != Crashed ==> Accounts(old(repo.State()), repo.State(), k)
      ensures outcome == Crashed ==> old(fuse) < 3
    {
      var attempts := was.attempts + 1;
      if attempts >= 5 || now >= was.deadline {
        var done := FinishFailure(k, attempts);
        return if done then Completed(k) else Crashed;
      }
      var alive := Postpone(k, was, now);
      return if alive then Completed(k) else Crashed;
    }

    /** The next attempt keeps its place in the window, but is neither in the past nor after the deadline. */
    method Postpone(k: Key, was: Retry, now: int) returns (alive: bool)
      requires repo.Sound() && k in repo.retries && was == repo.retries[k].(nextAt := was.nextAt)
      requires was.status == Pending && was.attempts < 4 && now < was.deadline && RetryInBounds(was)
      modifies repo, this`fuse
      ensures repo.Sound() && Keeps(old(repo.State()), repo.State())
      ensures repo.State() == old(repo.State()).(retries := repo.retries)
      ensures repo.retries == if alive then old(repo.retries)[k := AfterFailure(was, now)] else old(repo.retries)
      ensures alive <==> old(fuse) > 0
    {
      alive := Survives();
      if !alive { return false; }
      var attempts := was.attempts + 1;
      var scheduled := was.deadline - RETRY_WINDOW + attempts * RETRY_INTERVAL;
      repo.UpdateRetry(k, attempts, Pending, Some(Min(was.deadline, Max(now, scheduled))));
    }

    /** A later attempt with an answer: the model version is published and the retry closed. */
    method PublishPolished(k: Key, polished: Version, now: int) returns (outcome: Outcome)
      requires repo.Sound() && k in repo.retries && repo.retries[k].status == Pending && polished.kind == Api
      modifies repo, this`fuse
      ensures repo.Sound() && Keeps(old(repo.State()), repo.State()) && repo.calls == old(repo.calls)
      ensures outcome == Completed(k) || outcome == Crashed || outcome == Raised
      ensures outcome == Completed(k) ==>
        && Settled(repo.State(), k, notify) && k in repo.retries
        && CurrentVersion(repo.State(), k) == polished.(status := Published, publishedAt := now)
        && repo.retries[k]
           == old(repo.retries)[k].(attempts := old(repo.retries)[k].attempts + 1, status := Succeeded, nextAt := None)
      ensures outcome != Crashed ==> Accounts(old(repo.State()), repo.State(), k)
      ensures outcome == Crashed ==> old(fuse) < 5
      ensures outcome == Raised ==> !SamePeriod(old(repo.State()), k, polished)
    {
      ghost var before := repo.State();
      var r, raised := PublishDocument(k, Built(polished), now);
      if r.None? { return if raised then Raised else Crashed; }
      ghost var published := repo.State();
      RetryKeepsDays(before, published, k);
      var alive := FinishRetry(k);
      SameVersions(published, repo.State(), k);
      StepsCompose(before, published, repo.State(), k);
      return if alive then Completed(k) else Crashed;
    }

    /** The first attempt at a digest that is not published yet; without a model version the algorithmic one is
        published at once and a retry window opens. */
    method FirstAttempt(k: Key, version: Version, input: Input) returns (outcome: Outcome)
      requires repo.Sound() && Current(repo.State(), k).None? && version.kind == Algorithm
      modifies repo, this`fuse
      ensures repo.Sound() && Keeps(old(repo.State()), repo.State())
      ensures outcome == Completed(k) || outcome == Crashed || outcome == Raised
      ensures outcome == Completed(k) ==> Settled(repo.State(), k, notify)
      ensures outcome == Completed(k) ==>
        Founded(version, CallsOf(old(repo.State()), k), hasModel, input, repo.State(), k)
      ensures outcome != Crashed ==> Accounts(old(repo.State()), repo.State(), k)
      ensures outcome == Crashed ==> old(fuse) < 5
      ensures outcome == Raised ==> !SamePeriod(old(repo.State()), k, version)
      ensures repo.retries.Keys <= old(repo.retries.Keys) + {k}
    {
      ghost var before := repo.State();
      assert k in repo.retries ==> RetryMatches(before, k);
      assert k !in repo.retries;
      if !version.hasItems || !hasModel {
        outcome := PublishPlain(k, version, input.now);
        return;
      }
      var alive, summary := Summarize(k, input);
      if !alive { return Crashed; }
      ghost var asked := repo.State();
      AskedKeeps(before, k, input);
      AskedKeepsDays(before, k, input);
      AskedIsExact(before, k, input);
      SameVersions(before, asked, k);
      outcome := PublishFirst(k, version, summary, input.now);
      StepsCompose(before, asked, repo.State(), k);
    }

    /** The second half of a first attempt, with or without an answer. */
    method PublishFirst(k: Key, version: Version, summary: Option<bool>, now: int) returns (outcome: Outcome)
      requires repo.Sound() && Current(repo.State(), k).None? && version.kind == Algorithm && k !in repo.retries
      modifies repo, this`fuse
      ensures repo.Sound() && Keeps(old(repo.State()), repo.State()) && repo.calls == old(repo.calls)
      ensures outcome == Completed(k) || outcome == Crashed || outcome == Raised
      ensures outcome == Completed(k) ==>
        && Settled(repo.State(), k, notify)
        && if summary.Some? then
             && k !in repo.retries
             && CurrentVersion(repo.State(), k)
                == version.(kind := Api, fallbackNote := summary.value, status := Published, publishedAt := now)
           else
             && k in repo.retries && repo.retries[k] == Opened(Current(repo.State(), k).value, now)
             && CurrentVersion(repo.State(), k)
                == version.(fallbackNote := true, status := Published, publishedAt := now)
      ensures outcome != Crashed ==> Accounts(old(repo.State()), repo.State(), k)
      ensures outcome == Crashed ==> old(fuse) < 4
      ensures outcome == Raised ==> !SamePeriod(old(repo.State()), k, version)
      ensures repo.retries.Keys <= old(repo.retries.Keys) + {k}
    {
      if summary.None? {
        outcome := PublishWithWindow(k, version.(fallbackNote := true), now);
      } else {
        outcome := PublishModelVersion(k, version.(kind := Api, fallbackNote := summary.value), now);
      }
    }

    /** Publishes an algorithmic version for which no model is asked. */
    method PublishPlain(k: Key, version: Version, now: int) returns (outcome: Outcome)
      requires repo.Sound() && Current(repo.State(), k).None? && version.kind == Algorithm && k !in repo.retries
      modifies repo, this`fuse
      ensures repo.Sound() && Keeps(old(repo.State()), repo.State()) && repo.retries == old(repo.retries)
      ensures outcome == Completed(k) || outcome == Crashed || outcome == Raised
      ensures outcome == Completed(k) ==>
        && Settled(repo.State(), k, notify)
        && CurrentVersion(repo.State(), k) == version.(status := Published, publishedAt := now)
      ensures repo.calls == old(repo.calls)
      ensures outcome != Crashed ==> Accounts(old(repo.State()), repo.State(), k)
      ensures outcome == Crashed ==> old(fuse) < 3
      ensures outcome == Raised ==> !SamePeriod(old(repo.State()), k, version)
    {
      var r, raised := PublishDocument(k, Built(version), now);
      return if r.Some? then Completed(k) else if raised then Raised else Crashed;
    }

    /** Publishes the fallback of a failed first attempt and opens its retry window. */
    method PublishWithWindow(k: Key, fallback: Version, now: int) returns (outcome: Outcome)
      requires repo.Sound() && Current(repo.State(), k).None? && fallback.kind == Algorithm && k !in repo.retries
      modifies repo, this`fuse
      ensures repo.Sound() && Keeps(old(repo.State()), repo.State())
      ensures outcome == Completed(k) || outcome == Crashed || outcome == Raised
      ensures outcome == Completed(k) ==>
        && Settled(repo.State(), k, notify)
        && CurrentVersion(repo.State(), k) == fallback.(status := Published, publishedAt := now)
        && k in repo.retries && repo.retries[k] == Opened(Current(repo.State(), k).value, now)
      ensures outcome != Crashed ==> Accounts(old(repo.State()), repo.State(), k)
      ensures outcome == Crashed ==> old(fuse) < 4
      ensures outcome == Raised ==> !SamePeriod(old(repo.State()), k, fallback)
      ensures repo.calls == old(repo.calls)
      ensures repo.retries.Keys <= old(repo.retries.Keys) + {k}
    {
      var r, raised := PublishDocument(k, Built(fallback), now);
      if r.None? { return if raised then Raised else Crashed; }
      ghost var published := repo.State();
      var alive := Survives();
      if !alive { return Crashed; }
      repo.BeginRetry(k, r.value, now, now + RETRY_WINDOW);
      KeepsTransitive(old(repo.State()), published, repo.State());
      return Completed(k);
    }

    /** Publishes the model version of a first attempt and ends the failure streak. */
    method PublishModelVersion(k: Key, version: Version, now: int) returns (outcome: Outcome)
      requires repo.Sound() && Current(repo.State(), k).None? && version.kind == Api && k !in repo.retries
      modifies repo, this`fuse
      ensures repo.Sound() && Keeps(old(repo.State()), repo.State())
      ensures outcome == Completed(k) || outcome == Crashed || outcome == Raised
      ensures outcome == Completed(k) ==>
        && Settled(repo.State(), k, notify) && k !in repo.retries
        && CurrentVersion(repo.State(), k) == version.(status := Published, publishedAt := now)
        && repo.streak == 0 && repo.lastFailed.None?
      ensures outcome != Crashed ==> Accounts(old(repo.State()), repo.State(), k)
      ensures outcome == Crashed ==> old(fuse) < 4
      ensures outcome == Raised ==> !SamePeriod(old(repo.State()), k, version)
      ensures repo.retries == old(repo.retries) && repo.calls == old(repo.calls)
    {
      var r, raised := PublishDocument(k, Built(version), now);
      if r.None? { return if raised then Raised else Crashed; }
      ghost var published := repo.State();
      var alive := Survives();
      if !alive { return Crashed; }
      repo.ResetFailures();
      KeepsTransitive(old(repo.State()), published, repo.State());
      return Completed(k);
    }

    /** Repairs the crash window between publishing the fallback and opening its retry window. */
    method Reconstruct(k: Key, n: nat, now: int) returns (alive: bool)
      requires repo.Sound() && Current(repo.State(), k) == Some(n)
      modifies repo, this`fuse
      ensures repo.Sound() && Keeps(old(repo.State()), repo.State())
      ensures repo.versions == old(repo.versions) && repo.notices == old(repo.notices)
      ensures repo.streak == old(repo.streak) && repo.lastFailed == old(repo.lastFailed)
        && repo.counted == old(repo.counted)
      ensures SameDays(old(repo.State()), repo.State(), k)
      ensures alive ==>
        && Open(repo.State(), k, hasModel, now) == Open(old(repo.State()), k, hasModel, now)
        && (Open(repo.State(), k, hasModel, now).Some? ==> k in repo.retries)
        && (Open(repo.State(), k, hasModel, now).None? ==> repo.retries == old(repo.retries))
      ensures k in old(repo.retries) ==> alive && repo.State() == old(repo.State())
      ensures repo.calls == old(repo.calls) && (!alive ==> old(fuse) < 1) && fuse + 1 >= old(fuse)
      ensures var version := VersionsOf(old(repo.State()), k)[n];
        alive && k !in old(repo.retries) ==>
          if hasModel && version.fallbackNote
          then k in repo.retries && repo.retries[k]
            == Opened(n, if version.publishedAt != 0 then version.publishedAt else now)
          else repo.State() == old(repo.State())
    {
      var version := VersionsOf(repo.State(), k)[n];
      if k in repo.retries || !hasModel || !version.fallbackNote { return true; }
      alive := Survives();
      if !alive { return false; }
      var from_ := if version.publishedAt != 0 then version.publishedAt else now;
      repo.BeginRetry(k, n, from_, from_ + RETRY_WINDOW);
    }

    /** What remains to be done for a digest that is already published. */
    method Revisit(k: Key, n: nat, input: Input) returns (outcome: Outcome)
      requires repo.Sound() && Current(repo.State(), k) == Some(n)
      requires notify ==> (k, n) in repo.notices
      modifies repo, this`fuse
      ensures repo.Sound() && Keeps(old(repo.State()), repo.State())
      ensures outcome == Completed(k) || outcome == Crashed || outcome == Raised
      ensures outcome == Completed(k) ==> Visited(old(repo.State()), repo.State(), k, hasModel, notify, input)
      ensures outcome != Crashed ==> Accounts(old(repo.State()), repo.State(), k)
      ensures outcome == Crashed ==> old(fuse) < 7
      ensures outcome == Raised ==> !SamePeriod(old(repo.State()), k, VersionsOf(old(repo.State()), k)[n])
    {
      ghost var before := repo.State();
      var reached := Reconstruct(k, n, input.now);
      if !reached { return Crashed; }
      ghost var windowed := repo.State();
      SameVersions(before, windowed, k);
      outcome := RevisitRow(k, n, input);
      VisitedAfter(before, windowed, repo.State(), k, hasModel, notify, input);
    }

    /** A published digest whose lost row is rebuilt: nothing for a success, the alarm again for a third failed day,
        and a visit for a pending retry. */
    method RevisitRow(k: Key, n: nat, input: Input) returns (outcome: Outcome)
      requires repo.Sound() && Current(repo.State(), k) == Some(n)
      requires notify ==> (k, n) in repo.notices
      requires Open(repo.State(), k, hasModel, input.now).Some? ==> k in repo.retries
      modifies repo, this`fuse
      ensures repo.Sound() && Keeps(old(repo.State()), repo.State())
      ensures outcome == Completed(k) || outcome == Crashed || outcome == Raised
      ensures outcome == Completed(k) ==> Visited(old(repo.State()), repo.State(), k, hasModel, notify, input)
      ensures outcome != Crashed ==> Accounts(old(repo.State()), repo.State(), k)
      ensures outcome == Crashed ==> old(fuse) < 6
      ensures outcome == Raised ==> !SamePeriod(old(repo.State()), k, VersionsOf(old(repo.State()), k)[n])
    {
      if k !in repo.retries || repo.retries[k].status == Succeeded {
        return Completed(k);
      }
      var retry := repo.retries[k];
      if retry.status == Failed {
        if repo.lastFailed == Some(k) && repo.streak == 3 {
          var alive := NotifyFailure(k);
          return if alive then Completed(k) else Crashed;
        }
        return Completed(k);
      }
      outcome := RevisitPending(k, n, input);
    }

    /** A pending retry: settled beside a model version, left alone without a model, and otherwise attended to. */
    method RevisitPending(k: Key, n: nat, input: Input) returns (outcome: Outcome)
      requires repo.Sound() && Current(repo.State(), k) == Some(n)
      requires k in repo.retries && repo.retries[k].status == Pending && (notify ==> (k, n) in repo.notices)
      modifies repo, this`fuse
      ensures repo.Sound() && Keeps(old(repo.State()), repo.State())
      ensures outcome == Completed(k) || outcome == Crashed || outcome == Raised
      ensures outcome == Completed(k) ==>
        && Settled(repo.State(), k, notify)
        && Handled(old(repo.retries)[k], PublishedApi(old(repo.State()), k), CallsOf(old(repo.State()), k), hasModel,
                   input, repo.State(), k)
      ensures outcome != Crashed ==> Accounts(old(repo.State()), repo.State(), k)
      ensures outcome == Crashed ==> old(fuse) < 6
      ensures outcome == Raised ==> !SamePeriod(old(repo.State()), k, VersionsOf(old(repo.State()), k)[n])
    {
      if VersionsOf(repo.State(), k)[n].kind == Api {
        var alive := FinishRetry(k);
        return if alive then Completed(k) else Crashed;
      }
      if !hasModel {
        return Completed(k);
      }
      outcome := RevisitFallback(k, n, input);
    }

    /** A pending retry beside the algorithmic version: given up after its deadline, waiting, or due. */
    method RevisitFallback(k: Key, n: nat, input: Input) returns (outcome: Outcome)
      requires repo.Sound() && Current(repo.State(), k) == Some(n) && !PublishedApi(repo.State(), k) && hasModel
      requires k in repo.retries && repo.retries[k].status == Pending && (notify ==> (k, n) in repo.notices)
      modifies repo, this`fuse
      ensures repo.Sound() && Keeps(old(repo.State()), repo.State())
      ensures outcome == Completed(k) || outcome == Crashed || outcome == Raised
      ensures outcome == Completed(k) ==>
        && Settled(repo.State(), k, notify)
        && Handled(old(repo.retries)[k], false, CallsOf(old(repo.State()), k), hasModel, input, repo.State(), k)
      ensures outcome != Crashed ==> Accounts(old(repo.State()), repo.State(), k)
      ensures outcome == Crashed ==> old(fuse) < 6
      ensures outcome == Raised ==> !SamePeriod(old(repo.State()), k, VersionsOf(old(repo.State()), k)[n])
    {
      var retry := repo.retries[k];
      assert RetryInBounds(retry);
      if input.now > retry.deadline {
        var alive := FinishFailure(k, retry.attempts);
        return if alive then Completed(k) else Crashed;
      }
      if retry.nextAt.Some? && input.now < retry.nextAt.value && input.now < retry.deadline {
        return Completed(k);
      }
      outcome := RetryApi(k, n, input);
    }

    /** The part of a tick that concerns the digest due. */
    method Attend(input: Input) returns (outcome: Outcome)
      requires repo.Sound() && (input.build.Some? ==> input.build.value.kind == Algorithm)
      modifies repo, this`fuse
      ensures repo.Sound() && Keeps(old(repo.State()), repo.State())
      ensures outcome == Completed(input.key) || outcome == Crashed || outcome == Raised
      ensures outcome.Completed? && Current(old(repo.State()), input.key).Some? ==>
        Visited(old(repo.State()), repo.State(), input.key, hasModel, notify, input)
      ensures outcome.Completed? ==> Settled(repo.State(), input.key, notify)
      ensures Current(old(repo.State()), input.key).None? ==>
        && (outcome.Completed? ==>
              && input.build.Some?
              && Founded(input.build.value, CallsOf(old(repo.State()), input.key), hasModel, input, repo.State(),
                         input.key))
        && repo.retries.Keys <= old(repo.retries.Keys) + {input.key}
        && (outcome == Crashed ==> old(fuse) < 5)
      ensures outcome != Crashed ==> Accounts(old(repo.State()), repo.State(), input.key)
      ensures outcome == Crashed ==> old(fuse) < 10
      ensures outcome == Raised ==> CannotStore(old(repo.State()), input)
    {
      var k := input.key;
      var current := Current(repo.State(), k);
      if current.Some? {
        outcome := AttendPublished(k, current.value, input);
      } else {
        if input.build.None? { return Raised; }
        outcome := FirstAttempt(k, input.build.value, input);
      }
    }

    /** A published digest: its notification is made sure of, then what remains is done. */
    method AttendPublished(k: Key, n: nat, input: Input) returns (outcome: Outcome)
      requires repo.Sound() && Current(repo.State(), k) == Some(n)
      modifies repo, this`fuse
      ensures repo.Sound() && Keeps(old(repo.State()), repo.State())
      ensures outcome == Completed(k) || outcome == Crashed || outcome == Raised
      ensures outcome == Completed(k) ==> Visited(old(repo.State()), repo.State(), k, hasModel, notify, input)
      ensures outcome != Crashed ==> Accounts(old(repo.State()), repo.State(), k)
      ensures outcome == Crashed ==> old(fuse) < 10
      ensures outcome == Raised ==> !SamePeriod(old(repo.State()), k, VersionsOf(old(repo.State()), k)[n])
    {
      ghost var before := repo.State();
      var r, raised := PublishDocument(k, Stored(n), input.now);
      if r.None? { return Crashed; }
      ghost var announced := repo.State();
      OnlyAnnounced(before, announced, k, hasModel, input.now);
      outcome := Revisit(k, n, input);
      VisitedAfter(before, announced, repo.State(), k, hasModel, notify, input);
    }

    /** One tick, cut off after `fuse` transactions. */
    method ProcessOnce(input: Input) returns (outcome: Outcome)
      requires repo.Sound() && (input.build.Some? ==> input.build.value.kind == Algorithm)
      modifies repo, this`fuse
      ensures repo.Sound() && Keeps(old(repo.State()), repo.State())
      ensures outcome.Completed? ==>
        outcome.key == input.key && Ticked(old(repo.State()), repo.State(), hasModel, notify, input)
      ensures outcome != Crashed ==> LosesNothing(old(repo.State()), repo.State())
      ensures outcome == Crashed ==> old(fuse) < 5 * EXPIRY_BATCH + 10
      ensures outcome == Idle || outcome.Completed? ==> outcome.Completed? == input.enabled
      ensures outcome == Raised ==> input.enabled && CannotStore(old(repo.State()), input)
      ensures old(FirstTick(repo.State(), input)) && old(fuse) >= 5 ==>
        outcome == Completed(input.key) && repo.retries.Keys <= old(repo.retries.Keys) + {input.key}
      ensures forall k :: old(CutAtLoss(repo.State(), k, input.now)) && old(fuse) == 1 ==>
        outcome == Crashed && Lost(repo.State(), k)
    {
      ghost var before := repo.State();
      var alive := FinalizeExpired(input.now);
      if !alive { return Crashed; }
      if !input.enabled { return Idle; }
      ghost var finalized := repo.State();
      SameCalls(before, finalized, input);
      outcome := Attend(input);
      if outcome != Crashed { AccountsLoseNothing(finalized, repo.State(), input.key); }
      if outcome.Completed? { TickComposes(before, finalized, repo.State(), hasModel, notify, input); }
      KeepsTransitive(before, finalized, repo.State());
    }
  }

  /** Only the row of `k` differs. */
  ghost predicate OnlyRetry(a: map<Key, Retry>, b: map<Key, Retry>, k: Key) {
    a.Keys == b.Keys && forall o :: o in a && o != k ==> b[o] == a[o]
  }

  // ----- whole runs ----------------------------------------------------------------------

  /** One process life step: a tick that may be cut off, or an administrator's request in between. */
  datatype Event = TickEvent(input: Input, hasModel: bool, notify: bool, fuse: nat) | AdminEvent(key: Key, now: int)

  predicate BuildsAlgorithm(e: Event) { e.TickEvent? && e.input.build.Some? ==> e.input.build.value.kind == Algorithm }

  /** A tick with transactions enough to come to its end. */
  predicate Uncut(e: Event) { e.TickEvent? ==> e.fuse >= 5 * EXPIRY_BATCH + 10 }

  /** One event of a history. */
  method Live(repo: DigestRepository, e: Event) returns (outcome: Outcome)
    requires repo.Sound() && BuildsAlgorithm(e)
    modifies repo
    ensures repo.Sound() && Keeps(old(repo.State()), repo.State())
    ensures e.TickEvent? && outcome.Completed? ==>
      outcome.key == e.input.key && Settled(repo.State(), e.input.key, e.notify)
    ensures e.AdminEvent? ==> outcome == Idle && repo.State() == RequestRetryNow(old(repo.State()), e.key, e.now)
    ensures Uncut(e) ==> outcome != Crashed && LosesNothing(old(repo.State()), repo.State())
  {
    match e {
      case TickEvent(input, hasModel, notify, fuse) =>
        var scheduler := new DigestScheduler(repo, notify, hasModel, fuse);
        outcome := scheduler.ProcessOnce(input);
      case AdminEvent(k, now) =>
        repo.BringForward(k, now);
        outcome := Idle;
    }
  }

  /** Any history of ticks with crashes between any two transactions and of administrator requests: at most one
      version of a key is published, a published model version is never replaced, a key starts at most five model
      runs, pending retries have one to four attempts due by their deadline, alarms tell only of third failed days
      in a row, a day that failed without being counted is never counted, only ticks that are cut off lose a day
      like that, and a history that ends with a completed tick leaves its digest settled. */
  method RunHistory(repo: DigestRepository, events: seq<Event>) returns (last: Outcome)
    requires repo.Sound() && forall i :: 0 <= i < |events| ==> BuildsAlgorithm(events[i])
    modifies repo
    ensures repo.Sound() && Keeps(old(repo.State()), repo.State())
    ensures forall k :: k in repo.runs ==> repo.runs[k] <= CALL_LIMIT
    ensures forall k :: old(Lost(repo.State(), k)) ==> Lost(repo.State(), k) && repo.lastFailed != Some(k)
    ensures InARow(repo.State()) && Earned(repo.State()) && Announced(repo.State())
    ensures (forall i :: 0 <= i < |events| ==> Uncut(events[i])) ==> LosesNothing(old(repo.State()), repo.State())
    ensures events != [] && events[|events| - 1].TickEvent? && last.Completed? ==>
      var tick := events[|events| - 1];
      last.key == tick.input.key && Settled(repo.State(), tick.input.key, tick.notify)
  {
    last := Idle;
    ghost var before := repo.State();
    for i := 0 to |events|
      invariant repo.Sound() && Keeps(before, repo.State())
      invariant (forall j :: 0 <= j < i ==> Uncut(events[j])) ==> LosesNothing(before, repo.State())
      invariant i > 0 && events[i - 1].TickEvent? && last.Completed? ==>
        last.key == events[i - 1].input.key && Settled(repo.State(), last.key, events[i - 1].notify)
    {
      ghost var at := repo.State();
      last := Live(repo, events[i]);
      KeepsTransitive(before, at, repo.State());
    }
    forall k | k in repo.runs ensures repo.runs[k] <= CALL_LIMIT { CallsAreLimited(repo.State(), k); }
  }

  lemma CallsAreLimited(db: Db, k: Key)
    requires Valid(db)
    ensures CallsOf(db, k) <= CALL_LIMIT
  {
  }

  lemma OpenedGetsOverdue(db: Db, k: Key, n: nat, now: int)
    requires k in db.retries && db.retries.Keys <= {k} && db.retries[k] == Opened(n, now)
    ensures OverdueKeys(db, now + RETRY_WINDOW + 1) == {k}
  {
    assert Overdue(db, k, now + RETRY_WINDOW + 1);
    assert k in OverdueKeys(db, now + RETRY_WINDOW + 1);
  }

  /** The first tick of a digest whose synthesis fails. */
  method PublishFallback(k: Key, fallback: Version, now: int) returns (repo: DigestRepository)
    requires fallback.kind == Algorithm && fallback.hasItems
    ensures fresh(repo) && repo.Sound() && CutAtLoss(repo.State(), k, now + RETRY_WINDOW + 1)
  {
    repo := new DigestRepository();
    var input := Input(now, k, true, Some(fallback), None, None);
    assert FirstTick(repo.State(), input);
    var scheduler := new DigestScheduler(repo, true, true, 5);
    var published := scheduler.ProcessOnce(input);
    OpenedGetsOverdue(repo.State(), k, Current(repo.State(), k).value, now);
  }

  /** A day lost for good. The first tick publishes the fallback of a failed synthesis and opens its window; the
      tick after the deadline dies after one transaction, between marking the retry failed and counting the day; and
      whatever happens after that, the day is never counted. */
  method LoseADay(k: Key, fallback: Version, now: int, later: seq<Event>) returns (repo: DigestRepository)
    requires fallback.kind == Algorithm && fallback.hasItems
    requires forall i :: 0 <= i < |later| ==> BuildsAlgorithm(later[i])
    ensures fresh(repo) && repo.Sound()
    ensures k in repo.retries && repo.retries[k].status == Failed
    ensures k !in repo.counted && repo.lastFailed != Some(k)
  {
    repo := PublishFallback(k, fallback, now);
    var scheduler := new DigestScheduler(repo, true, true, 1);
    var cut := scheduler.ProcessOnce(Input(now + RETRY_WINDOW + 1, k, true, None, None, None));
    var last := RunHistory(repo, later);
  }
}
