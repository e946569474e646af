/** What each transaction on the fetch queue does to every row, and which job a claim takes. */
module ContentEffects {
  import opened Ordering
  import opened ContentQueue

  // ----- pauses --------------------------------------------------------------------------

  ghost predicate ServerError(kind: string) {
    |kind| == 8 && kind[0..6] == "http_5" && '0' <= kind[6] <= '9' && '0' <= kind[7] <= '9'
  }

  /** An hour for a refused access, a quarter of an hour for a rate limit, two minutes for trouble of the server or
      of the network, nothing for any other failure. */
  lemma PauseTable(kind: string)
    ensures kind == "http_403" ==> Backoff(kind) == 60 * 60
    ensures kind == "http_429" ==> Backoff(kind) == 15 * 60
    ensures kind in {"http_408", "http_425", "dns", "urlerror", "timeouterror", "oserror"} || ServerError(kind) ==>
      Backoff(kind) == 2 * 60
    ensures (kind !in {"http_403", "http_429", "http_408", "http_425", "dns", "urlerror", "timeouterror", "oserror"}
             && !ServerError(kind)) ==> Backoff(kind) == 0
  {
    assert "http_403"[5] == '4' && "http_429"[5] == '4' && "http_408"[5] == '4' && "http_425"[5] == '4';
    if ServerError(kind) { assert kind[5] == kind[0..6][5] == '5'; }
  }

  /** A host is paused until after `now` exactly by a failure of it, dead or waiting, whose pause is not over. */
  ghost predicate PausedBy(j: Job, now: int, host: string) {
    && j.host == host && j.status in {Dead, Retry} && j.kind.Some? && Backoff(j.kind.value) > 0
    && j.updatedAt + Backoff(j.kind.value) > now
  }

  ghost predicate Paused(jobs: seq<Job>, now: int, host: string) {
    exists i :: 0 <= i < |jobs| && PausedBy(jobs[i], now, host)
  }

  /** The claim's scan finds the latest end of a running pause, and something only if the host is paused. */
  lemma ScanIsExact(jobs: seq<Job>, now: int, host: string)
    requires now >= 0
    ensures ScannedPause(jobs, now, host) > now <==> Paused(jobs, now, host)
    ensures forall i :: 0 <= i < |jobs| && PausedBy(jobs[i], now, host) ==>
      jobs[i].updatedAt + Backoff(jobs[i].kind.value) <= ScannedPause(jobs, now, host)
    ensures Paused(jobs, now, host) ==>
      exists i :: 0 <= i < |jobs| && PausedBy(jobs[i], now, host)
                  && jobs[i].updatedAt + Backoff(jobs[i].kind.value) == ScannedPause(jobs, now, host)
  {
    ScanMissesNothing(jobs, now, host);
    PauseEndIsMax(jobs, host);
    forall i | 0 <= i < |jobs| && PausedBy(jobs[i], now, host)
      ensures Pausing(jobs[i], host) && PauseOf(jobs[i]) > now {}
    if PauseEnd(jobs, host) > now {
      var i :| 0 <= i < |jobs| && Pausing(jobs[i], host) && PauseOf(jobs[i]) == PauseEnd(jobs, host);
      assert PausedBy(jobs[i], now, host);
    }
  }

  // ----- candidates ----------------------------------------------------------------------

  ghost predicate Ready(jobs: seq<Job>, now: int, i: nat) {
    i < |jobs| && jobs[i].status in {Pending, Retry} && jobs[i].nextAttemptAt <= now
  }

  /** The first job has waited longer, or as long and has the smaller id. */
  ghost predicate Sooner(jobs: seq<Job>, a: nat, b: nat) {
    && a < |jobs| && b < |jobs|
    && (|| jobs[a].nextAttemptAt < jobs[b].nextAttemptAt
        || (jobs[a].nextAttemptAt == jobs[b].nextAttemptAt && a < b))
  }

  ghost function Ahead(jobs: seq<Job>, now: int, i: nat): set<nat> {
    set k: nat | k < |jobs| && Ready(jobs, now, k) && Sooner(jobs, k, i)
  }

  /** Ready, with fewer than fifty ready jobs ahead. */
  ghost predicate Considered(jobs: seq<Job>, now: int, i: nat) {
    Ready(jobs, now, i) && |Ahead(jobs, now, i)| < 50
  }

  lemma {:induction false} DueIdsAreExact(jobs: seq<Job>, now: int, from_: nat)
    requires from_ <= |jobs|
    ensures forall i: nat :: i in DueIds(jobs, now, from_) <==> i >= from_ && Ready(jobs, now, i)
    ensures Distinct(DueIds(jobs, now, from_))
    decreases |jobs| - from_
  {
    if from_ < |jobs| {
      DueIdsAreExact(jobs, now, from_ + 1);
      var rest := DueIds(jobs, now, from_ + 1);
      if Due(jobs, now, from_) {
        var all := [from_] + rest;
        assert DueIds(jobs, now, from_) == all;
        forall i, j | 0 <= i < j < |all| ensures all[i] != all[j] { assert rest[j - 1] in rest; }
      }
    }
  }

  ghost predicate InOrder(jobs: seq<Job>, ids: seq<nat>) {
    forall i, j :: 0 <= i < j < |ids| ==> Sooner(jobs, ids[i], ids[j])
  }

  lemma SortedDue(jobs: seq<Job>, now: int) returns (sorted: seq<nat>)
    ensures forall i: nat :: i in sorted <==> Ready(jobs, now, i)
    ensures InOrder(jobs, sorted)
    ensures Candidates(jobs, now) == if |sorted| <= BATCH then sorted else sorted[..BATCH]
  {
    var leq := (a: nat, b: nat) => DueBefore(jobs, a, b);
    var all := DueIds(jobs, now, 0);
    sorted := Sort(leq, all);
    DueIdsAreExact(jobs, now, 0);
    assert TotalPreorder(leq);
    SortSorted(leq, all);
    SameMembers(sorted, all);
    forall x ensures multiset(sorted)[x] <= 1 { DistinctIsCountedOnce(all, x); }
    CountedOnceIsDistinct(sorted);
    forall i, j | 0 <= i < j < |sorted| ensures Sooner(jobs, sorted[i], sorted[j]) {
      assert leq(sorted[i], sorted[j]) && sorted[i] in sorted && sorted[j] in sorted;
    }
  }

  ghost function Members(s: seq<nat>): set<nat> { set x: nat | x in s }

  lemma {:induction false} DistinctSize(s: seq<nat>)
    requires Distinct(s)
    ensures |Members(s)| == |s|
  {
    if s != [] {
      var n := |s| - 1;
      DistinctSize(s[..n]);
      assert s == s[..n] + [s[n]];
      assert Members(s) == Members(s[..n]) + {s[n]};
    }
  }

  lemma SoonerIsBefore(jobs: seq<Job>, ids: seq<nat>, i: nat, j: nat)
    requires InOrder(jobs, ids) && i < |ids| && j < |ids| && Sooner(jobs, ids[i], ids[j])
    ensures i < j
  {
  }

  lemma InOrderIsDistinct(jobs: seq<Job>, ids: seq<nat>)
    requires InOrder(jobs, ids)
    ensures Distinct(ids)
  {
    forall i, j | 0 <= i < j < |ids| ensures ids[i] != ids[j] { assert Sooner(jobs, ids[i], ids[j]); }
  }

  /** The jobs ahead of one are those before it in the order. */
  lemma AheadIsPrefix(jobs: seq<Job>, now: int, sorted: seq<nat>, k: nat)
    requires InOrder(jobs, sorted) && k < |sorted| && forall i: nat :: i in sorted <==> Ready(jobs, now, i)
    ensures |Ahead(jobs, now, sorted[k])| == k
  {
    var first := sorted[..k];
    InOrderIsDistinct(jobs, sorted);
    DistinctSize(first);
    assert Ahead(jobs, now, sorted[k]) == Members(first) by {
      forall x: nat ensures x in Ahead(jobs, now, sorted[k]) <==> x in first {
        if x in Ahead(jobs, now, sorted[k]) {
          assert x in sorted;
          var j :| 0 <= j < |sorted| && sorted[j] == x;
          SoonerIsBefore(jobs, sorted, j, k);
          assert first[j] == x;
        }
        if x in first {
          var j :| 0 <= j < |first| && first[j] == x;
          assert sorted[j] == x && sorted[j] in sorted && Sooner(jobs, sorted[j], sorted[k]);
        }
      }
    }
  }

  /** A claim considers exactly the ready jobs with fewer than fifty ahead, in order. */
  lemma CandidatesAreExact(jobs: seq<Job>, now: int)
    ensures InOrder(jobs, Candidates(jobs, now))
    ensures forall i: nat :: i in Candidates(jobs, now) <==> Considered(jobs, now, i)
  {
    var sorted := SortedDue(jobs, now);
    var ids := Candidates(jobs, now);
    forall l | 0 <= l < |ids| ensures ids[l] in sorted { assert ids[l] == sorted[l]; }
    forall i: nat ensures i in ids <==> Considered(jobs, now, i) {
      if i in sorted {
        var k :| 0 <= k < |sorted| && sorted[k] == i;
        AheadIsPrefix(jobs, now, sorted, k);
        InOrderIsDistinct(jobs, sorted);
        if k < BATCH { assert ids[k] == i; }
        if i in ids {
          var l :| 0 <= l < |ids| && ids[l] == i;
          assert sorted[l] == sorted[k];
        }
      }
    }
  }

  // ----- the claim -----------------------------------------------------------------------

  /** A job made to wait for its host: not before the pause ends, and marked so unless it waits for a retry. */
  ghost predicate Postponed(before: Job, after: Job, until: int) {
    && after == before.(nextAttemptAt := after.nextAttemptAt, kind := after.kind)
    && after.nextAttemptAt == (if before.nextAttemptAt < until then until else before.nextAttemptAt)
    && after.kind == (if before.status == Pending then Some("host_backoff") else before.kind)
  }

  /** The walk passes over the ids before the chosen one, whose hosts are all paused. */
  ghost predicate Walked(jobs: seq<Job>, after: seq<Job>, scanned: seq<Job>, now: int, ids: seq<nat>,
                         chosen: Option<nat>, k: nat) {
    && k <= |ids| && |after| == |jobs|
    && (chosen == if k < |ids| then Some(ids[k]) else None)
    && (forall l :: 0 <= l < k ==>
          ids[l] < |jobs| && ScannedPause(scanned, now, jobs[ids[l]].host) > now
          && Postponed(jobs[ids[l]], after[ids[l]], ScannedPause(scanned, now, jobs[ids[l]].host)))
    && (k < |ids| ==> ids[k] < |jobs| && ScannedPause(scanned, now, jobs[ids[k]].host) <= now)
    && (forall i: nat :: i < |jobs| && i !in ids[..k] ==> after[i] == jobs[i])
  }

  lemma {:induction false} WalkIsExact(jobs: seq<Job>, scanned: seq<Job>, now: int, ids: seq<nat>) returns (k: nat)
    requires Distinct(ids) && forall l :: 0 <= l < |ids| ==> ids[l] < |jobs|
    ensures Walked(jobs, Walk(jobs, scanned, now, ids).0, scanned, now, ids, Walk(jobs, scanned, now, ids).1, k)
    decreases |ids|
  {
    if ids == [] || ScannedPause(scanned, now, jobs[ids[0]].host) <= now {
      k := 0;
    } else {
      var until, rest := ScannedPause(scanned, now, jobs[ids[0]].host), ids[1..];
      var next := jobs[ids[0] := Defer(jobs[ids[0]], until)];
      var m := WalkIsExact(next, scanned, now, rest);
      k := m + 1;
      WalkOneMore(jobs, next, Walk(next, scanned, now, rest).0, scanned, now, ids, Walk(next, scanned, now, rest).1, m);
    }
  }

  lemma WalkOneMore(jobs: seq<Job>, next: seq<Job>, after: seq<Job>, scanned: seq<Job>, now: int, ids: seq<nat>,
                    chosen: Option<nat>, m: nat)
    requires Distinct(ids) && ids != [] && forall l :: 0 <= l < |ids| ==> ids[l] < |jobs|
    requires var until := ScannedPause(scanned, now, jobs[ids[0]].host);
      until > now && next == jobs[ids[0] := Defer(jobs[ids[0]], until)]
    requires Walked(next, after, scanned, now, ids[1..], chosen, m)
    ensures Walked(jobs, after, scanned, now, ids, chosen, m + 1)
  {
    var rest := ids[1..];
    assert ids[0] !in rest by {
      forall l | 0 <= l < |rest| ensures rest[l] != ids[0] { assert rest[l] == ids[l + 1]; }
    }
    assert ids[..m + 1] == [ids[0]] + rest[..m];
    forall l | 0 <= l < m + 1
      ensures ids[l] < |jobs| && ScannedPause(scanned, now, jobs[ids[l]].host) > now
      ensures Postponed(jobs[ids[l]], after[ids[l]], ScannedPause(scanned, now, jobs[ids[l]].host)) {
      if l > 0 {
        assert rest[l - 1] == ids[l] && ids[l] != ids[0];
      } else {
        assert after[ids[0]] == next[ids[0]];
      }
    }
  }

  /** A lease that ran out goes back to be tried at once, as a failure of now; it keeps its kind of failure, or gets
      one of its own. */
  lemma ExpiryIsExact(jobs: seq<Job>, now: int)
    ensures |Expired(jobs, now)| == |jobs|
    ensures forall i :: 0 <= i < |jobs| ==>
      var was, is_ := jobs[i], Expired(jobs, now)[i];
      if was.status == Leased && now >= was.leaseUntil then
        && is_ == was.(status := Retry, token := None, nextAttemptAt := now, updatedAt := now, kind := is_.kind)
        && is_.kind == (if was.kind.None? then Some("lease_expired") else was.kind)
      else is_ == was
  {
  }

  /** The latest end of a running pause of the host. */
  ghost predicate EndsAt(jobs: seq<Job>, now: int, host: string, until: int) {
    && (exists i :: 0 <= i < |jobs| && PausedBy(jobs[i], now, host)
                    && jobs[i].updatedAt + Backoff(jobs[i].kind.value) == until)
    && (forall i :: 0 <= i < |jobs| && PausedBy(jobs[i], now, host) ==>
          jobs[i].updatedAt + Backoff(jobs[i].kind.value) <= until)
  }

  /** Passed over: considered, of a paused host, and ahead of whatever is taken. */
  ghost predicate PassedOver(jobs: seq<Job>, now: int, chosen: Option<nat>, i: nat) {
    Considered(jobs, now, i) && (chosen.Some? ==> Sooner(jobs, i, chosen.value))
  }

  ghost predicate MadeToWait(e: seq<Job>, r: seq<Job>, now: int, i: nat)
    requires i < |e| && i < |r|
  {
    exists until :: EndsAt(e, now, e[i].host, until) && until > now && Postponed(e[i], r[i], until)
  }

  /** The first considered job whose host is not paused is taken, if there is one; the considered jobs ahead of it
      are made to wait until the latest end of a pause of their host, the taken one gets its lease and counts an
      attempt, and every other row stays. */
  ghost predicate TakesFirstFree(e: seq<Job>, r: seq<Job>, now: int, seconds: int, token: int, chosen: Option<nat>) {
    && |r| == |e|
    && (chosen.None? ==> forall i: nat :: Considered(e, now, i) ==> Paused(e, now, e[i].host))
    && (chosen.Some? ==>
          var c := chosen.value;
          && Considered(e, now, c) && !Paused(e, now, e[c].host)
          && r[c] == e[c].(status := Leased, attempts := e[c].attempts + 1, token := Some(token),
                           leaseUntil := now + seconds, updatedAt := now))
    && (forall i: nat :: PassedOver(e, now, chosen, i) ==> MadeToWait(e, r, now, i))
    && (forall i: nat :: i < |e| && !PassedOver(e, now, chosen, i) && chosen != Some(i) ==> r[i] == e[i])
  }

  /** A claim expires leases and then takes the first free job. */
  lemma ClaimIsExact(jobs: seq<Job>, now: int, seconds: int, token: int)
    requires now >= 0
    ensures var (r, chosen) := Claim(jobs, now, seconds, token);
      TakesFirstFree(Expired(jobs, now), r, now, seconds, token, chosen)
  {
    var e := Expired(jobs, now);
    var ids := Candidates(e, now);
    var (walked, chosen) := Walk(e, e, now, ids);
    CandidatesAreExact(e, now);
    InOrderIsDistinct(e, ids);
    var k := WalkIsExact(e, e, now, ids);
    ConsideredAreWalked(e, walked, now, ids, chosen, k);
    TakenIsFree(e, walked, now, ids, chosen, k);
    LeaseOnTop(e, walked, now, seconds, token, chosen);
  }

  lemma LeaseOnTop(e: seq<Job>, walked: seq<Job>, now: int, seconds: int, token: int, chosen: Option<nat>)
    requires |walked| == |e| && (chosen.Some? ==> chosen.value < |e|)
    requires forall i: nat :: PassedOver(e, now, chosen, i) ==> MadeToWait(e, walked, now, i)
    requires forall i: nat :: i < |e| && !PassedOver(e, now, chosen, i) ==> walked[i] == e[i]
    requires chosen.None? ==> forall i: nat :: Considered(e, now, i) ==> Paused(e, now, e[i].host)
    requires chosen.Some? ==>
      && Considered(e, now, chosen.value) && !Paused(e, now, e[chosen.value].host)
      && walked[chosen.value] == e[chosen.value]
    ensures var r := if chosen.None? then walked
                     else walked[chosen.value := LeaseTo(walked[chosen.value], now, seconds, token)];
      TakesFirstFree(e, r, now, seconds, token, chosen)
  {
    var r := if chosen.None? then walked
             else walked[chosen.value := LeaseTo(walked[chosen.value], now, seconds, token)];
    forall i: nat | PassedOver(e, now, chosen, i) ensures MadeToWait(e, r, now, i) {
      assert MadeToWait(e, walked, now, i);
      assert chosen != Some(i);
    }
  }

  /** What the walk leaves, read off the table. */
  lemma ConsideredAreWalked(e: seq<Job>, walked: seq<Job>, now: int, ids: seq<nat>, chosen: Option<nat>, k: nat)
    requires now >= 0 && InOrder(e, ids) && forall x: nat :: x in ids <==> Considered(e, now, x)
    requires Walked(e, walked, e, now, ids, chosen, k)
    ensures forall i: nat :: PassedOver(e, now, chosen, i) ==> MadeToWait(e, walked, now, i)
    ensures forall i: nat :: i < |e| && !PassedOver(e, now, chosen, i) ==> walked[i] == e[i]
  {
    forall i: nat | PassedOver(e, now, chosen, i) ensures MadeToWait(e, walked, now, i) {
      PassedOverIff(e, now, ids, k, chosen, i);
      var l :| 0 <= l < k && ids[l] == i;
      ScanIsExact(e, now, e[i].host);
      assert EndsAt(e, now, e[i].host, ScannedPause(e, now, e[i].host));
    }
    forall i: nat | i < |e| && !PassedOver(e, now, chosen, i) ensures walked[i] == e[i] {
      PassedOverIff(e, now, ids, k, chosen, i);
    }
  }

  lemma TakenIsFree(e: seq<Job>, walked: seq<Job>, now: int, ids: seq<nat>, chosen: Option<nat>, k: nat)
    requires now >= 0 && InOrder(e, ids) && forall x: nat :: x in ids <==> Considered(e, now, x)
    requires Walked(e, walked, e, now, ids, chosen, k)
    ensures chosen.None? ==> forall i: nat :: Considered(e, now, i) ==> Paused(e, now, e[i].host)
    ensures chosen.Some? ==>
      && Considered(e, now, chosen.value) && !Paused(e, now, e[chosen.value].host)
      && walked[chosen.value] == e[chosen.value]
  {
    if chosen.Some? {
      assert ids[k] in ids;
      ScanIsExact(e, now, e[chosen.value].host);
      PassedOverIff(e, now, ids, k, chosen, chosen.value);
    } else {
      forall i: nat | Considered(e, now, i) ensures Paused(e, now, e[i].host) {
        var l :| 0 <= l < |ids| && ids[l] == i;
        ScanIsExact(e, now, e[i].host);
      }
    }
  }

  lemma PassedOverIff(e: seq<Job>, now: int, ids: seq<nat>, k: nat, chosen: Option<nat>, i: nat)
    requires InOrder(e, ids) && (forall x: nat :: x in ids <==> Considered(e, now, x)) && k <= |ids|
    requires chosen == if k < |ids| then Some(ids[k]) else None
    ensures PassedOver(e, now, chosen, i) <==> i in ids[..k]
  {
    if PassedOver(e, now, chosen, i) {
      var l :| 0 <= l < |ids| && ids[l] == i;
      if k < |ids| { SoonerIsBefore(e, ids, l, k); }
      assert ids[..k][l] == i;
    }
    if i in ids[..k] {
      var m :| 0 <= m < k && ids[m] == i;
      assert ids[m] in ids;
      if k < |ids| { assert Sooner(e, ids[m], ids[k]); }
    }
  }

  // ----- reports under a lease -----------------------------------------------------------

  /** Only the row at `id` may differ. */
  ghost predicate OnlyRow(a: seq<Job>, b: seq<Job>, id: nat) {
    |a| == |b| && forall i :: 0 <= i < |a| && i != id ==> b[i] == a[i]
  }

  ghost predicate HasLease(jobs: seq<Job>, id: nat, token: int) {
    id < |jobs| && jobs[id].status == Leased && jobs[id].token.Some? && jobs[id].token.value == token
  }

  /** Under the lease a completion leaves the row completed without lease or failure; a failure leaves it dead at
      once if it is final and else waiting until the given time, with its kind and stamped now; a rejection leaves
      it dead. Without the lease no report changes anything. */
  lemma ReportsAreExact(jobs: seq<Job>, id: nat, token: int, now: int, at: int, terminal: bool, kind: string)
    ensures var done, failed, rejected := Complete(jobs, id, token, now),
                                          Fail(jobs, id, token, now, at, terminal, kind), Reject(jobs, id, token, now);
      && OnlyRow(jobs, done, id) && OnlyRow(jobs, failed, id) && OnlyRow(jobs, rejected, id)
      && (!HasLease(jobs, id, token) ==> done == failed == rejected == jobs)
      && (HasLease(jobs, id, token) ==>
            && done[id] == jobs[id].(status := Completed, token := None, kind := None, updatedAt := now)
            && rejected[id] == jobs[id].(status := Dead, token := None, kind := Some("invalid_job"), updatedAt := now)
            && failed[id].token.None? && failed[id].kind == Some(kind) && failed[id].updatedAt == now
            && failed[id].attempts == jobs[id].attempts && failed[id].host == jobs[id].host
            && (failed[id].status == Dead <==> terminal) && (failed[id].status == Retry <==> !terminal)
            && (terminal ==> failed[id].nextAttemptAt == now) && (!terminal ==> failed[id].nextAttemptAt == at))
  {
  }

  /** An observation is queued once: a second request changes nothing, a first one adds a job that is ready now. */
  lemma EnqueueingIsExact(jobs: seq<Job>, observationId: int, host: string, wellFormed: bool, now: int)
    ensures var r := Enqueue(jobs, observationId, host, wellFormed, now);
      && ((exists i :: 0 <= i < |jobs| && jobs[i].observationId == observationId) ==> r == jobs)
      && (!(exists i :: 0 <= i < |jobs| && jobs[i].observationId == observationId) ==>
            && |r| == |jobs| + 1 && r[..|jobs|] == jobs
            && r[|jobs|].observationId == observationId && r[|jobs|].host == host && r[|jobs|].wellFormed == wellFormed
            && r[|jobs|].status == Pending && r[|jobs|].attempts == 0 && r[|jobs|].nextAttemptAt == now
            && r[|jobs|].token.None? && r[|jobs|].kind.None?)
  {
    if j :| j in jobs && j.observationId == observationId {
      var i :| 0 <= i < |jobs| && jobs[i] == j;
    }
  }
}
