/** The durable queue of document fetches: leases with fencing tokens, and per-host pauses that are read
    off the failure rows instead of being stored. */
module ContentQueue {
  import opened Ordering

  datatype Status = Pending | Leased | Retry | Completed | Dead

  datatype Job = Job(observationId: int, host: string, wellFormed: bool, status: Status, attempts: nat,
                     nextAttemptAt: int,
                     token: Option<int>, leaseUntil: int, kind: Option<string>, updatedAt: int)

  const SCAN := 3600
  const BATCH := 50

  predicate Digit(c: char) { '0' <= c <= '9' }

  /** The pause a failure imposes on its host. */
  function Backoff(kind: string): (seconds: nat)
    ensures seconds <= SCAN
  {
    if kind == "http_403" then 3600
    else if kind == "http_429" then 900
    else if kind == "http_408" || kind == "http_425" || kind == "dns" || kind == "urlerror" || kind == "timeouterror"
            || kind == "oserror" then 120
    else if |kind| == 8 && kind[..6] == "http_5" && Digit(kind[6]) && Digit(kind[7]) then 120
    else 0
  }

  function Max(a: int, b: int): int { if a < b then b else a }

  // ----- pauses --------------------------------------------------------------------------

  /** A row that records a failure of `host` which imposes a pause. */
  predicate Pausing(j: Job, host: string) {
    j.host == host && (j.status == Dead || j.status == Retry) && j.kind.Some? && Backoff(j.kind.value) > 0
  }

  function PauseOf(j: Job): int
    requires j.kind.Some?
  {
    j.updatedAt + Backoff(j.kind.value)
  }

  /** When the pause of a host ends, over all failure rows ever; 0 without any. */
  function PauseEnd(jobs: seq<Job>, host: string): (end: int)
    ensures end >= 0
  {
    if jobs == [] then 0
    else
      var rest := PauseEnd(jobs[1..], host);
      if Pausing(jobs[0], host) then Max(PauseOf(jobs[0]), rest) else rest
  }

  /** The pause as a claim computes it: only rows of the last hour, only pauses still running. */
  function ScannedPause(jobs: seq<Job>, now: int, host: string): int {
    if jobs == [] then 0
    else
      var rest := ScannedPause(jobs[1..], now, host);
      var j := jobs[0];
      if j.updatedAt > now - SCAN && Pausing(j, host) && PauseOf(j) > now then Max(rest, PauseOf(j)) else rest
  }

  /** Looking back one hour never misses a running pause. */
  lemma {:induction false} ScanMissesNothing(jobs: seq<Job>, now: int, host: string)
    requires now >= 0
    ensures ScannedPause(jobs, now, host) == if PauseEnd(jobs, host) > now then PauseEnd(jobs, host) else 0
  {
    if jobs != [] {
      ScanMissesNothing(jobs[1..], now, host);
    }
  }

  lemma {:induction false} PauseEndIsMax(jobs: seq<Job>, host: string)
    ensures forall i :: 0 <= i < |jobs| && Pausing(jobs[i], host) ==> PauseOf(jobs[i]) <= PauseEnd(jobs, host)
    ensures PauseEnd(jobs, host) == 0 || exists i ::
      0 <= i < |jobs| && Pausing(jobs[i], host) && PauseOf(jobs[i]) == PauseEnd(jobs, host)
  {
    if jobs != [] {
      PauseEndIsMax(jobs[1..], host);
      forall i | 0 <= i < |jobs| && Pausing(jobs[i], host) ensures PauseOf(jobs[i]) <= PauseEnd(jobs, host) {
        if i > 0 { assert jobs[i] == jobs[1..][i - 1]; }
      }
      if PauseEnd(jobs, host) != 0 && PauseEnd(jobs, host) == PauseEnd(jobs[1..], host) {
        var i :| 0 <= i < |jobs[1..]| && Pausing(jobs[1..][i], host)
          && PauseOf(jobs[1..][i]) == PauseEnd(jobs[1..], host);
        assert jobs[i + 1] == jobs[1..][i];
      } else if PauseEnd(jobs, host) != 0 {
        assert Pausing(jobs[0], host) && PauseOf(jobs[0]) == PauseEnd(jobs, host);
      }
    }
  }

  /** The pause of `host` does not shrink while the failure rows of the host are kept. */
  lemma PauseGrows(before: seq<Job>, after: seq<Job>, host: string)
    requires |before| <= |after|
    requires forall i :: 0 <= i < |before| && Pausing(before[i], host) ==>
      Pausing(after[i], host) && PauseOf(after[i]) == PauseOf(before[i])
    ensures PauseEnd(before, host) <= PauseEnd(after, host)
  {
    PauseEndIsMax(before, host);
    PauseEndIsMax(after, host);
    if PauseEnd(before, host) != 0 {
      var i :| 0 <= i < |before| && Pausing(before[i], host) && PauseOf(before[i]) == PauseEnd(before, host);
      assert Pausing(after[i], host);
    }
  }

  // ----- transactions --------------------------------------------------------------------

  /** A lease that ran out becomes a retry; its failure kind from an earlier attempt is kept. */
  function ExpireOne(j: Job, now: int): Job {
    if j.status == Leased && j.leaseUntil <= now then
      j.(status := Retry, token := None, nextAttemptAt := now, updatedAt := now,
         kind := if j.kind.Some? then j.kind else Some("lease_expired"))
    else j
  }

  function Expired(jobs: seq<Job>, now: int): (r: seq<Job>)
    ensures |r| == |jobs|
    ensures forall i :: 0 <= i < |jobs| ==> r[i] == ExpireOne(jobs[i], now)
  {
    seq(|jobs|, i requires 0 <= i < |jobs| => ExpireOne(jobs[i], now))
  }

  predicate Due(jobs: seq<Job>, now: int, id: nat) {
    id < |jobs| && (jobs[id].status == Pending || jobs[id].status == Retry) && jobs[id].nextAttemptAt <= now
  }

  predicate DueBefore(jobs: seq<Job>, a: nat, b: nat) {
    b < |jobs| ==>
      a < |jobs| && (|| jobs[a].nextAttemptAt < jobs[b].nextAttemptAt
                     || (jobs[a].nextAttemptAt == jobs[b].nextAttemptAt && a <= b))
  }

  function DueIds(jobs: seq<Job>, now: int, from_: nat): (ids: seq<nat>)
    requires from_ <= |jobs|
    ensures forall k :: 0 <= k < |ids| ==> Due(jobs, now, ids[k])
    decreases |jobs| - from_
  {
    if from_ == |jobs| then []
    else (if Due(jobs, now, from_) then [from_] else []) + DueIds(jobs, now, from_ + 1)
  }

  /** The first due jobs, the longest due first. */
  function Candidates(jobs: seq<Job>, now: int): (ids: seq<nat>)
    ensures forall k :: 0 <= k < |ids| ==> Due(jobs, now, ids[k])
  {
    var all := DueIds(jobs, now, 0);
    var sorted: seq<nat> := Sort((a: nat, b: nat) => DueBefore(jobs, a, b), all);
    assert forall k :: 0 <= k < |sorted| ==> Due(jobs, now, sorted[k]) by {
      SameMembers(all, sorted);
      forall k | 0 <= k < |sorted| ensures Due(jobs, now, sorted[k]) {
        assert sorted[k] in sorted;
        assert sorted[k] in all;
        var l :| 0 <= l < |all| && all[l] == sorted[k];
      }
    }
    if |sorted| <= BATCH then sorted else sorted[..BATCH]
  }

  /** A job of a paused host waits for the pause; a retry keeps its failure, whose time must not move. */
  function Defer(j: Job, until: int): Job {
    j.(nextAttemptAt := Max(j.nextAttemptAt, until),
      kind := if j.status == Pending then Some("host_backoff") else j.kind)
  }

  function LeaseTo(j: Job, now: int, seconds: int, token: int): Job {
    j.(status := Leased, attempts := j.attempts + 1, token := Some(token), leaseUntil := now + seconds,
      updatedAt := now)
  }

  /** Defers candidates of paused hosts until one may be taken. */
  function Walk(jobs: seq<Job>, scanned: seq<Job>, now: int, ids: seq<nat>): (r: (seq<Job>, Option<nat>))
    requires forall k :: 0 <= k < |ids| ==> ids[k] < |jobs|
    ensures |r.0| == |jobs| && (r.1.Some? ==> r.1.value < |jobs| && r.1.value in ids)
    decreases |ids|
  {
    if ids == [] then (jobs, None)
    else
      var until := ScannedPause(scanned, now, jobs[ids[0]].host);
      if until > now then Walk(jobs[ids[0] := Defer(jobs[ids[0]], until)], scanned, now, ids[1..])
      else (jobs, Some(ids[0]))
  }

  /** One claim. */
  function Claim(jobs: seq<Job>, now: int, seconds: int, token: int): (r: (seq<Job>, Option<nat>))
    ensures |r.0| == |jobs| && (r.1.Some? ==> r.1.value < |jobs|)
  {
    var expired := Expired(jobs, now);
    var (walked, chosen) := Walk(expired, expired, now, Candidates(expired, now));
    if chosen.None? then (walked, None)
    else (walked[chosen.value := LeaseTo(walked[chosen.value], now, seconds, token)], chosen)
  }

  predicate Holds(jobs: seq<Job>, id: nat, token: int) {
    id < |jobs| && jobs[id].status == Leased && jobs[id].token == Some(token)
  }

  function Complete(jobs: seq<Job>, id: nat, token: int, now: int): seq<Job> {
    if !Holds(jobs, id, token) then jobs
    else jobs[id := jobs[id].(status := Completed, token := None, kind := None, updatedAt := now)]
  }

  function Fail(jobs: seq<Job>, id: nat, token: int, now: int, nextAttemptAt: int, terminal: bool,
                kind: string): seq<Job> {
    if !Holds(jobs, id, token) then jobs
    else jobs[id := jobs[id].(status := if terminal then Dead else Retry, token := None,
                              nextAttemptAt := if terminal then now else nextAttemptAt,
                              kind := Some(kind), updatedAt := now)]
  }

  /** A leased job whose stored request is malformed is retired. */
  function Reject(jobs: seq<Job>, id: nat, token: int, now: int): seq<Job> {
    if !Holds(jobs, id, token) then jobs
    else jobs[id := jobs[id].(status := Dead, token := None, kind := Some("invalid_job"), updatedAt := now)]
  }

  function Enqueue(jobs: seq<Job>, observationId: int, host: string, wellFormed: bool, now: int): seq<Job> {
    if exists j :: j in jobs && j.observationId == observationId then jobs
    else jobs + [Job(observationId, host, wellFormed, Pending, 0, now, None, 0, None, now)]
  }

  // ----- what a claim respects -----------------------------------------------------------

  lemma {:induction false} WalkFacts(jobs: seq<Job>, scanned: seq<Job>, now: int, ids: seq<nat>)
    requires forall k :: 0 <= k < |ids| ==>
      ids[k] < |jobs| && (jobs[ids[k]].status == Pending || jobs[ids[k]].status == Retry)
    ensures var (walked, chosen) := Walk(jobs, scanned, now, ids);
      && (forall i :: 0 <= i < |jobs| ==>
        walked[i] == jobs[i].(nextAttemptAt := walked[i].nextAttemptAt, kind := walked[i].kind))
      && (forall i :: 0 <= i < |jobs| && jobs[i].status != Pending ==> walked[i].kind == jobs[i].kind)
      && (chosen.Some? ==> walked[chosen.value].status in {Pending, Retry}
                           && ScannedPause(scanned, now, walked[chosen.value].host) <= now)
    decreases |ids|
  {
    if ids != [] {
      var j := jobs[ids[0]];
      var until := ScannedPause(scanned, now, j.host);
      if until > now {
        WalkFacts(jobs[ids[0] := Defer(j, until)], scanned, now, ids[1..]);
      }
    }
  }

  /** Deferring jobs never moves the end of any host's pause. */
  lemma DeferringMovesNoPause(jobs: seq<Job>, scanned: seq<Job>, now: int, ids: seq<nat>, host: string)
    requires forall k :: 0 <= k < |ids| ==>
      ids[k] < |jobs| && (jobs[ids[k]].status == Pending || jobs[ids[k]].status == Retry)
    ensures PauseEnd(Walk(jobs, scanned, now, ids).0, host) == PauseEnd(jobs, host)
  {
    WalkFacts(jobs, scanned, now, ids);
    var walked := Walk(jobs, scanned, now, ids).0;
    PauseGrows(jobs, walked, host);
    PauseGrows(walked, jobs, host);
  }

  /** An expired lease moves a host's pause exactly when the job still carries the kind of an earlier
      failure whose pause, counted from the expiry, outlasts the present one: such a pause belongs to no
      failure that was recorded then. */
  lemma ExpiryMovesPause(jobs: seq<Job>, now: int, host: string)
    requires now >= 0
    ensures PauseEnd(Expired(jobs, now), host) != PauseEnd(jobs, host) <==>
      exists i :: 0 <= i < |jobs| && jobs[i].host == host && jobs[i].status == Leased && jobs[i].leaseUntil <= now
                  && jobs[i].kind.Some? && Backoff(jobs[i].kind.value) > 0
                  && now + Backoff(jobs[i].kind.value) > PauseEnd(jobs, host)
  {
    var after := Expired(jobs, now);
    PauseGrows(jobs, after, host);
    PauseEndIsMax(jobs, host);
    PauseEndIsMax(after, host);
    if PauseEnd(after, host) != PauseEnd(jobs, host) {
      var i :| 0 <= i < |after| && Pausing(after[i], host) && PauseOf(after[i]) == PauseEnd(after, host);
      assert after[i] == ExpireOne(jobs[i], now);
      assert Backoff("lease_expired") == 0;
    }
    if i :| 0 <= i < |jobs| && jobs[i].host == host && jobs[i].status == Leased && jobs[i].leaseUntil <= now
            && jobs[i].kind.Some? && Backoff(jobs[i].kind.value) > 0
            && now + Backoff(jobs[i].kind.value) > PauseEnd(jobs, host) {
      assert after[i] == ExpireOne(jobs[i], now);
      ExpiredPauses(jobs[i], now, host);
    }
  }

  lemma ExpiredPauses(j: Job, now: int, host: string)
    requires j.host == host && j.status == Leased && j.leaseUntil <= now && j.kind.Some? && Backoff(j.kind.value) > 0
    ensures Pausing(ExpireOne(j, now), host) && PauseOf(ExpireOne(j, now)) == now + Backoff(j.kind.value)
  {
  }

  /** What a claim may do to a row it does not lease. */
  ghost predicate Bystander(before: Job, after: Job) {
    && after.host == before.host
    && (after.status == before.status || (before.status == Leased && after.status == Retry))
    && (after.status == Leased ==> after == before)
    && (before.status == Dead || before.status == Completed ==> after == before)
    && (before.status == Retry ==> after.kind == before.kind && after.updatedAt == before.updatedAt)
  }

  lemma CandidatesAreDue(expired: seq<Job>, now: int)
    ensures var ids := Candidates(expired, now);
      forall k :: 0 <= k < |ids| ==>
        ids[k] < |expired| && (expired[ids[k]].status == Pending || expired[ids[k]].status == Retry)
  {
    var ids := Candidates(expired, now);
    forall k | 0 <= k < |ids|
      ensures ids[k] < |expired| && (expired[ids[k]].status == Pending || expired[ids[k]].status == Retry) {
      assert Due(expired, now, ids[k]);
    }
  }

  lemma ClaimRows(jobs: seq<Job>, now: int, seconds: int, token: int)
    ensures var (after, chosen) := Claim(jobs, now, seconds, token);
      forall i :: 0 <= i < |jobs| && Some(i) != chosen ==> Bystander(jobs[i], after[i])
  {
    var expired := Expired(jobs, now);
    CandidatesAreDue(expired, now);
    WalkFacts(expired, expired, now, Candidates(expired, now));
    var walked := Walk(expired, expired, now, Candidates(expired, now)).0;
    var (after, chosen) := Claim(jobs, now, seconds, token);
    forall i | 0 <= i < |jobs| && Some(i) != chosen ensures Bystander(jobs[i], after[i]) {
      assert after[i] == walked[i];
      assert walked[i] == expired[i].(nextAttemptAt := walked[i].nextAttemptAt, kind := walked[i].kind);
      assert expired[i] == ExpireOne(jobs[i], now);
      if expired[i].status !in {Pending, Retry} {
        WalkLeavesLeased(expired, expired, now, Candidates(expired, now), i);
      }
    }
  }

  lemma {:induction false} WalkLeavesLeased(jobs: seq<Job>, scanned: seq<Job>, now: int, ids: seq<nat>, i: nat)
    requires forall k :: 0 <= k < |ids| ==>
      ids[k] < |jobs| && (jobs[ids[k]].status == Pending || jobs[ids[k]].status == Retry)
    requires i < |jobs| && jobs[i].status !in {Pending, Retry}
    ensures Walk(jobs, scanned, now, ids).0[i] == jobs[i]
    decreases |ids|
  {
    if ids != [] {
      var j := jobs[ids[0]];
      var until := ScannedPause(scanned, now, j.host);
      if until > now {
        WalkLeavesLeased(jobs[ids[0] := Defer(j, until)], scanned, now, ids[1..], i);
      }
    }
  }

  /** A claim leases only a waiting job whose host has no pause left. */
  lemma ClaimLease(jobs: seq<Job>, now: int, seconds: int, token: int)
    requires now >= 0 && Claim(jobs, now, seconds, token).1.Some?
    ensures var (after, chosen) := Claim(jobs, now, seconds, token);
      && after[chosen.value].host == jobs[chosen.value].host
      && after[chosen.value].status == Leased && after[chosen.value].token == Some(token)
      && jobs[chosen.value].status !in {Completed, Dead}
      && PauseEnd(jobs, jobs[chosen.value].host) <= now
  {
    var expired := Expired(jobs, now);
    CandidatesAreDue(expired, now);
    WalkFacts(expired, expired, now, Candidates(expired, now));
    var (walked, chosen) := Walk(expired, expired, now, Candidates(expired, now));
    var c := chosen.value;
    assert expired[c] == ExpireOne(jobs[c], now);
    assert walked[c] == expired[c].(nextAttemptAt := walked[c].nextAttemptAt, kind := walked[c].kind);
    ScanMissesNothing(expired, now, jobs[c].host);
    PauseGrows(jobs, expired, jobs[c].host);
  }

  // ----- whole runs ----------------------------------------------------------------------

  datatype Step =
    | EnqueueStep(observationId: int, host: string, wellFormed: bool, now: int)
    | ClaimStep(now: int, seconds: int, token: int)
    | CompleteStep(id: nat, token: int, now: int)
    | RejectStep(id: nat, token: int, now: int)
    | FailStep(id: nat, token: int, now: int, nextAttemptAt: int, terminal: bool, kind: string)

  /** The queue with what its history owes: `clock` is the latest claim, `owed` maps a host to the latest
      end of a pause that some recorded failure imposed, `used` holds the tokens handed out. */
  datatype Queue = Queue(jobs: seq<Job>, clock: int, owed: map<string, int>, used: set<int>)

  function Owed(q: Queue, host: string): int {
    if host in q.owed then q.owed[host] else 0
  }

  /** Claims use fresh tokens and a clock that does not run backwards. */
  predicate Allowed(q: Queue, step: Step) {
    step.ClaimStep? ==> step.now >= q.clock && step.token !in q.used
  }

  function Next(q: Queue, step: Step): Queue {
    match step
    case EnqueueStep(o, host, wellFormed, now) => q.(jobs := Enqueue(q.jobs, o, host, wellFormed, now))
    case ClaimStep(now, seconds, token) =>
      q.(jobs := Claim(q.jobs, now, seconds, token).0, clock := now, used := q.used + {token})
    case CompleteStep(id, token, now) => q.(jobs := Complete(q.jobs, id, token, now))
    case RejectStep(id, token, now) => q.(jobs := Reject(q.jobs, id, token, now))
    case FailStep(id, token, now, next, terminal, kind) =>
      var jobs := Fail(q.jobs, id, token, now, next, terminal, kind);
      if !Holds(q.jobs, id, token) then q
      else
        var host := q.jobs[id].host;
        q.(jobs := jobs,
           owed := if Backoff(kind) > 0 then q.owed[host := Max(Owed(q, host), now + Backoff(kind))] else q.owed)
  }

  ghost predicate Invariant(q: Queue) {
    && q.clock >= 0
    && (forall host :: Owed(q, host) <= Max(q.clock, PauseEnd(q.jobs, host)))
    && (forall i :: 0 <= i < |q.jobs| && q.jobs[i].status == Leased ==>
      q.jobs[i].token.Some? && q.jobs[i].token.value in q.used)
    && (forall i, j :: 0 <= i < j < |q.jobs| && q.jobs[i].status == Leased && q.jobs[j].status == Leased ==>
      q.jobs[i].token != q.jobs[j].token)
  }

  lemma OthersKeepPause(before: seq<Job>, after: seq<Job>, i: nat, host: string)
    requires |before| == |after| && i < |before| && before[i].status == Leased
    requires forall k :: 0 <= k < |before| && k != i ==> after[k] == before[k]
    ensures PauseEnd(before, host) <= PauseEnd(after, host)
  {
    PauseGrows(before, after, host);
  }

  lemma ClaimKeepsOwed(q: Queue, now: int, seconds: int, token: int, host: string)
    requires Invariant(q) && now >= q.clock
    ensures Owed(q, host) <= Max(now, PauseEnd(Claim(q.jobs, now, seconds, token).0, host))
  {
    var (after, chosen) := Claim(q.jobs, now, seconds, token);
    ClaimRows(q.jobs, now, seconds, token);
    if chosen.Some? { ClaimLease(q.jobs, now, seconds, token); }
    if chosen.None? || q.jobs[chosen.value].host != host {
      forall i | 0 <= i < |q.jobs| && Pausing(q.jobs[i], host)
        ensures Pausing(after[i], host) && PauseOf(after[i]) == PauseOf(q.jobs[i]) {
        assert Some(i) != chosen && Bystander(q.jobs[i], after[i]);
      }
      PauseGrows(q.jobs, after, host);
    }
  }

  lemma ClaimKeepsTokens(q: Queue, now: int, seconds: int, token: int)
    requires Invariant(q) && now >= q.clock && token !in q.used
    ensures var after := Claim(q.jobs, now, seconds, token).0;
      && (forall i :: 0 <= i < |after| && after[i].status == Leased ==>
        after[i].token.Some? && after[i].token.value in q.used + {token})
      && (forall i, j :: 0 <= i < j < |after| && after[i].status == Leased && after[j].status == Leased ==>
        after[i].token != after[j].token)
  {
    var (after, chosen) := Claim(q.jobs, now, seconds, token);
    ClaimRows(q.jobs, now, seconds, token);
    if chosen.Some? { ClaimLease(q.jobs, now, seconds, token); }
    forall i | 0 <= i < |after| && after[i].status == Leased
      ensures after[i].token.Some?
        && (if Some(i) == chosen then after[i].token == Some(token) else after[i] == q.jobs[i]) {
      if Some(i) != chosen { assert Bystander(q.jobs[i], after[i]); }
    }
  }

  /** A report under a token changes the one row it holds, whose failure then pauses its host as owed. */
  lemma ReportKeepsInvariant(q: Queue, step: Step)
    requires Invariant(q) && (step.CompleteStep? || step.RejectStep? || step.FailStep?)
      && Holds(q.jobs, step.id, step.token)
    ensures Invariant(Next(q, step))
  {
    var r := Next(q, step);
    assert forall k :: 0 <= k < |q.jobs| && k != step.id ==> r.jobs[k] == q.jobs[k];
    forall host ensures Owed(r, host) <= Max(r.clock, PauseEnd(r.jobs, host)) {
      OthersKeepPause(q.jobs, r.jobs, step.id, host);
      if step.FailStep? && host == q.jobs[step.id].host && Backoff(step.kind) > 0 {
        PauseEndIsMax(r.jobs, host);
        assert Pausing(r.jobs[step.id], host);
      }
    }
  }

  lemma StepKeepsInvariant(q: Queue, step: Step)
    requires Invariant(q) && Allowed(q, step)
    ensures Invariant(Next(q, step))
  {
    match step
    case EnqueueStep(_, _, _, _) =>
      var r := Next(q, step);
      forall host ensures Owed(r, host) <= Max(r.clock, PauseEnd(r.jobs, host)) { PauseGrows(q.jobs, r.jobs, host); }
    case ClaimStep(now, seconds, token) =>
      var r := Next(q, step);
      forall host ensures Owed(r, host) <= Max(r.clock, PauseEnd(r.jobs, host)) {
        ClaimKeepsOwed(q, now, seconds, token, host);
      }
      ClaimKeepsTokens(q, now, seconds, token);
    case _ => if Holds(q.jobs, step.id, step.token) { ReportKeepsInvariant(q, step); }
  }

  ghost predicate AllowedRun(q: Queue, steps: seq<Step>)
    decreases |steps|
  {
    steps == [] || (Allowed(q, steps[0]) && AllowedRun(Next(q, steps[0]), steps[1..]))
  }

  ghost function Run(q: Queue, steps: seq<Step>): Queue
    decreases |steps|
  {
    if steps == [] then q else Run(Next(q, steps[0]), steps[1..])
  }

  lemma {:induction false} RunKeepsInvariant(q: Queue, steps: seq<Step>)
    requires Invariant(q) && AllowedRun(q, steps)
    ensures Invariant(Run(q, steps))
    decreases |steps|
  {
    if steps != [] {
      StepKeepsInvariant(q, steps[0]);
      RunKeepsInvariant(Next(q, steps[0]), steps[1..]);
    }
  }

  const EMPTY := Queue([], 0, map[], {})

  lemma {:induction false} OwedStays(q: Queue, steps: seq<Step>, host: string)
    ensures Owed(Run(q, steps), host) >= Owed(q, host)
    decreases |steps|
  {
    if steps != [] { OwedStays(Next(q, steps[0]), steps[1..], host); }
  }

  lemma PauseHolds(q: Queue, id: nat, token: int, t: int, next: int, terminal: bool, kind: string,
                   between: seq<Step>, now: int, seconds: int, fresh_: int)
    requires Invariant(q) && Holds(q.jobs, id, token) && Backoff(kind) > 0
    requires var failed := Next(q, FailStep(id, token, t, next, terminal, kind));
      AllowedRun(failed, between) && Allowed(Run(failed, between), ClaimStep(now, seconds, fresh_))
    ensures var later := Run(Next(q, FailStep(id, token, t, next, terminal, kind)), between);
      var (after, chosen) := Claim(later.jobs, now, seconds, fresh_);
      chosen.Some? && after[chosen.value].host == q.jobs[id].host ==> now >= t + Backoff(kind)
  {
    var step := FailStep(id, token, t, next, terminal, kind);
    var failed := Next(q, step);
    StepKeepsInvariant(q, step);
    RunKeepsInvariant(failed, between);
    var host := q.jobs[id].host;
    assert Owed(failed, host) >= t + Backoff(kind);
    OwedStays(failed, between, host);
    var later := Run(failed, between);
    if Claim(later.jobs, now, seconds, fresh_).1.Some? {
      ClaimLease(later.jobs, now, seconds, fresh_);
    }
  }

  /** Host pauses hold over whole runs from the empty queue: after a failure of kind k recorded at t, and
      whatever happens in between, no job of that host is leased before t + Backoff(k). */
  lemma PauseIsRespected(history: seq<Step>, id: nat, token: int, t: int, next: int, terminal: bool, kind: string,
                         between: seq<Step>, now: int, seconds: int, fresh_: int)
    requires AllowedRun(EMPTY, history) && Holds(Run(EMPTY, history).jobs, id, token) && Backoff(kind) > 0
    requires var failed := Next(Run(EMPTY, history), FailStep(id, token, t, next, terminal, kind));
      AllowedRun(failed, between) && Allowed(Run(failed, between), ClaimStep(now, seconds, fresh_))
    ensures var q := Run(EMPTY, history);
      var later := Run(Next(q, FailStep(id, token, t, next, terminal, kind)), between);
      var (after, chosen) := Claim(later.jobs, now, seconds, fresh_);
      chosen.Some? && after[chosen.value].host == q.jobs[id].host ==> now >= t + Backoff(kind)
  {
    RunKeepsInvariant(EMPTY, history);
    PauseHolds(Run(EMPTY, history), id, token, t, next, terminal, kind, between, now, seconds, fresh_);
  }

  // ----- fencing -------------------------------------------------------------------------

  /** Some row is leased under this token. */
  ghost predicate Live(q: Queue, token: int) {
    exists i :: 0 <= i < |q.jobs| && Holds(q.jobs, i, token)
  }

  lemma {:induction false} DeadTokensStayDead(q: Queue, steps: seq<Step>, token: int)
    requires Invariant(q) && AllowedRun(q, steps) && token in q.used && !Live(q, token)
    ensures !Live(Run(q, steps), token)
    decreases |steps|
  {
    if steps != [] {
      var r := Next(q, steps[0]);
      StepKeepsInvariant(q, steps[0]);
      if steps[0].ClaimStep? {
        var (after, chosen) := Claim(q.jobs, steps[0].now, steps[0].seconds, steps[0].token);
        ClaimRows(q.jobs, steps[0].now, steps[0].seconds, steps[0].token);
        if chosen.Some? { ClaimLease(q.jobs, steps[0].now, steps[0].seconds, steps[0].token); }
        if i :| 0 <= i < |r.jobs| && Holds(r.jobs, i, token) {
          assert Some(i) != chosen && Bystander(q.jobs[i], after[i]);
          assert Holds(q.jobs, i, token);
        }
      } else if i :| 0 <= i < |r.jobs| && Holds(r.jobs, i, token) {
        assert Holds(q.jobs, i, token);
      }
      DeadTokensStayDead(r, steps[1..], token);
    }
  }

  /** The steps a worker reports under its lease. */
  predicate Reports(step: Step) { step.CompleteStep? || step.FailStep? || step.RejectStep? }

  /** Of all completions and failures reported under one lease at most one takes effect: once one did,
      every later report under that token, after any further steps, changes no row. */
  lemma LeaseSettlesOnce(q: Queue, first: Step, between: seq<Step>, second: Step, token: int)
    requires Invariant(q) && Reports(first) && Reports(second)
    requires first.token == token && second.token == token && Holds(q.jobs, first.id, token)
    requires AllowedRun(Next(q, first), between)
    ensures Next(Run(Next(q, first), between), second) == Run(Next(q, first), between)
  {
    var r := Next(q, first);
    StepKeepsInvariant(q, first);
    assert forall i :: 0 <= i < |r.jobs| ==> !Holds(r.jobs, i, token);
    DeadTokensStayDead(r, between, token);
    var late := Run(r, between);
    assert !Holds(late.jobs, second.id, token) by {
      if Holds(late.jobs, second.id, token) { assert Live(late, token); }
    }
  }

  /** The same holds for a token whose lease expired and was taken back. */
  lemma ExpiredTokenIsFenced(q: Queue, between: seq<Step>, report: Step, token: int)
    requires Invariant(q) && token in q.used && !Live(q, token) && AllowedRun(q, between)
    requires Reports(report) && report.token == token
    ensures Next(Run(q, between), report) == Run(q, between)
  {
    DeadTokensStayDead(q, between, token);
    var late := Run(q, between);
    if Holds(late.jobs, report.id, token) {
      assert Live(late, token);
      assert false;
    }
  }

  /** A completed job never leaves that state. */
  lemma {:induction false} CompletedIsFinal(q: Queue, steps: seq<Step>, i: nat)
    requires i < |q.jobs| && q.jobs[i].status == Completed
    ensures var r := Run(q, steps); i < |r.jobs| && r.jobs[i] == q.jobs[i]
    decreases |steps|
  {
    if steps != [] {
      if steps[0].ClaimStep? {
        ClaimRows(q.jobs, steps[0].now, steps[0].seconds, steps[0].token);
        var (after, chosen) := Claim(q.jobs, steps[0].now, steps[0].seconds, steps[0].token);
        CompletedIsNotChosen(q.jobs, steps[0].now, steps[0].seconds, steps[0].token, i);
        assert Bystander(q.jobs[i], after[i]);
      }
      CompletedIsFinal(Next(q, steps[0]), steps[1..], i);
    }
  }

  lemma CompletedIsNotChosen(jobs: seq<Job>, now: int, seconds: int, token: int, i: nat)
    requires i < |jobs| && jobs[i].status == Completed
    ensures Claim(jobs, now, seconds, token).1 != Some(i)
  {
    var expired := Expired(jobs, now);
    CandidatesAreDue(expired, now);
    var ids := Candidates(expired, now);
  }

  // ----- a pause nothing failed for ------------------------------------------------------

  const FORBIDDEN := "http_403"

  /** The only job, waiting after a refusal that was stamped at `t`; its last lease ended at `until`. */
  function Waiting(host: string, t: int, attempts: nat, until: int): Job {
    Job(1, host, true, Retry, attempts, t + SCAN, None, until, Some(FORBIDDEN), t)
  }

  lemma OnlyCandidate(j: Job, now: int)
    ensures Candidates([j], now) == if Due([j], now, 0) then [0] else []
  {
    var leq := (a: nat, b: nat) => DueBefore([j], a, b);
    assert DueIds([j], now, 1) == [];
    var ids: seq<nat> := [0];
    assert ids[1..] == [];
    assert Sort(leq, ids) == Insert(leq, 0, []) == ids;
  }

  lemma PauseOfOne(j: Job, now: int, host: string)
    requires j.host == host && now >= 0
    ensures PauseEnd([j], host) == if Pausing(j, host) then Max(PauseOf(j), 0) else 0
    ensures ScannedPause([j], now, host) == if PauseEnd([j], host) > now then PauseEnd([j], host) else 0
  {
    assert [j][1..] == [];
    ScanMissesNothing([j], now, host);
  }

  /** When the pause is over the job is leased. */
  lemma LeasedAgain(host: string, t: int, attempts: nat, until: int, token: int)
    requires t >= 0
    ensures Claim([Waiting(host, t, attempts, until)], t + SCAN, 60, token)
         == ([LeaseTo(Waiting(host, t, attempts, until), t + SCAN, 60, token)], Some(0))
  {
    var j := Waiting(host, t, attempts, until);
    var ids: seq<nat> := [0];
    assert Expired([j], t + SCAN) == [j];
    OnlyCandidate(j, t + SCAN);
    PauseOfOne(j, t + SCAN, host);
    assert Backoff(FORBIDDEN) == SCAN;
    assert ids[0] == 0 && Walk([j], [j], t + SCAN, ids) == ([j], Some(0));
    assert [j][0 := LeaseTo(j, t + SCAN, 60, token)] == [LeaseTo(j, t + SCAN, 60, token)];
  }

  /** When that lease runs out without a report, the next claim stamps the refusal anew and defers the job. */
  lemma StampedAnew(host: string, t: int, attempts: nat, until: int, token: int, other: int)
    requires t >= 0
    ensures Claim([LeaseTo(Waiting(host, t, attempts, until), t + SCAN, 60, token)], t + SCAN + 60, 60, other)
         == ([Waiting(host, t + SCAN + 60, attempts + 1, t + SCAN + 60)], None)
  {
    var now := t + SCAN + 60;
    var leased := LeaseTo(Waiting(host, t, attempts, until), t + SCAN, 60, token);
    var back := leased.(status := Retry, token := None, nextAttemptAt := now, updatedAt := now);
    assert Expired([leased], now) == [back];
    OnlyCandidate(back, now);
    PauseOfOne(back, now, host);
    var ids: seq<nat> := [0];
    assert ids[1..] == [] && ScannedPause([back], now, host) == now + SCAN;
    assert [back][0 := Defer(back, now + SCAN)] == [Defer(back, now + SCAN)];
    assert Walk([back], [back], now, ids) == Walk([Defer(back, now + SCAN)], [back], now, []);
  }

  function Refusal(host: string): seq<Step> {
    [EnqueueStep(1, host, true, 0), ClaimStep(0, 60, 1), FailStep(0, 1, 0, SCAN, false, FORBIDDEN)]
  }

  lemma {:induction false} RunAppended(q: Queue, first: seq<Step>, second: seq<Step>)
    ensures Run(q, first + second) == Run(Run(q, first), second)
    ensures AllowedRun(q, first + second) <==> AllowedRun(q, first) && AllowedRun(Run(q, first), second)
    decreases |first|
  {
    if first == [] {
      assert first + second == second;
    } else {
      assert (first + second)[0] == first[0] && (first + second)[1..] == first[1..] + second;
      RunAppended(Next(q, first[0]), first[1..], second);
    }
  }

  function Queued(host: string): Job { Job(1, host, true, Pending, 0, 0, None, 0, None, 0) }

  lemma FirstClaim(host: string)
    ensures Claim([Queued(host)], 0, 60, 1) == ([LeaseTo(Queued(host), 0, 60, 1)], Some(0))
  {
    var j := Queued(host);
    var ids: seq<nat> := [0];
    assert Expired([j], 0) == [j];
    OnlyCandidate(j, 0);
    PauseOfOne(j, 0, host);
    assert ids[0] == 0 && Walk([j], [j], 0, ids) == ([j], Some(0));
    assert [j][0 := LeaseTo(j, 0, 60, 1)] == [LeaseTo(j, 0, 60, 1)];
  }

  /** The only job waits after a refusal stamped at `t`, and the tokens used so far lie below `token`. */
  ghost predicate Stuck(q: Queue, host: string, t: int, attempts: nat, until: int, token: int) {
    t >= 0 && q.jobs == [Waiting(host, t, attempts, until)] && q.clock <= t + SCAN && forall x :: x in q.used ==>
      x < token
  }

  lemma Appended(start: Queue, first: seq<Step>, middle: Queue, second: seq<Step>, end: Queue)
    requires AllowedRun(start, first) && middle == Run(start, first) && AllowedRun(middle, second)
      && end == Run(middle, second)
    ensures AllowedRun(start, first + second) && end == Run(start, first + second)
  {
    RunAppended(start, first, second);
  }

  lemma OneStep(q: Queue, step: Step)
    requires Allowed(q, step)
    ensures AllowedRun(q, [step]) && Run(q, [step]) == Next(q, step)
  {
    assert [step][1..] == [];
    assert AllowedRun(Next(q, step), []) && Run(Next(q, step), []) == Next(q, step);
  }

  lemma RefusalRuns(host: string) returns (q: Queue)
    ensures AllowedRun(EMPTY, Refusal(host)) && q == Run(EMPTY, Refusal(host))
    ensures Stuck(q, host, 0, 1, 60, 2) && Owed(q, host) == SCAN
  {
    var steps := Refusal(host);
    var q1, q2 := FirstLease(host);
    q := FirstRefusal(q2, host);
    ThreeSteps(EMPTY, steps[0], q1, steps[1], q2, steps[2], q);
    assert steps == [steps[0]] + [steps[1]] + [steps[2]];
  }

  lemma FirstLease(host: string) returns (q1: Queue, q2: Queue)
    ensures Allowed(EMPTY, Refusal(host)[0]) && q1 == Next(EMPTY, Refusal(host)[0])
    ensures Allowed(q1, Refusal(host)[1]) && q2 == Next(q1, Refusal(host)[1])
    ensures q2.jobs == [LeaseTo(Queued(host), 0, 60, 1)] && q2.clock == 0 && q2.used == {1} && q2.owed == map[]
  {
    q1 := Next(EMPTY, Refusal(host)[0]);
    assert q1.jobs == [Queued(host)];
    FirstClaim(host);
    q2 := Next(q1, Refusal(host)[1]);
  }

  lemma FirstRefusal(q2: Queue, host: string) returns (q: Queue)
    requires q2.jobs == [LeaseTo(Queued(host), 0, 60, 1)] && q2.clock == 0 && q2.used == {1} && q2.owed == map[]
    ensures Allowed(q2, Refusal(host)[2]) && q == Next(q2, Refusal(host)[2])
    ensures Stuck(q, host, 0, 1, 60, 2) && Owed(q, host) == SCAN
  {
    q := Next(q2, Refusal(host)[2]);
    assert Backoff(FORBIDDEN) == SCAN && q.jobs == [Waiting(host, 0, 1, 60)];
  }

  lemma ThreeSteps(start: Queue, a: Step, q1: Queue, b: Step, q2: Queue, c: Step, q: Queue)
    requires Allowed(start, a) && q1 == Next(start, a) && Allowed(q1, b) && q2 == Next(q1, b)
    requires Allowed(q2, c) && q == Next(q2, c)
    ensures AllowedRun(start, [a] + [b] + [c]) && q == Run(start, [a] + [b] + [c])
  {
    OneStep(start, a);
    OneStep(q1, b);
    OneStep(q2, c);
    Appended(start, [a], q1, [b], q2);
    Appended(start, [a] + [b], q2, [c], q);
  }

  /** `b` comes from `a` by one allowed claim, no report of a worker in between. */
  ghost predicate ByClaim(a: Queue, b: Queue) {
    exists step: Step :: step.ClaimStep? && Allowed(a, step) && b == Next(a, step)
  }

  ghost predicate NextByClaim(path: seq<Queue>, i: nat)
    requires 0 < i < |path|
  {
    ByClaim(path[i - 1], path[i])
  }

  ghost predicate ClaimsOnly(path: seq<Queue>) {
    path != [] && forall i: nat :: 0 < i < |path| ==> NextByClaim(path, i)
  }

  lemma OneMoreClaim(path: seq<Queue>, step: Step, r: Queue)
    requires ClaimsOnly(path) && step.ClaimStep? && Allowed(path[|path| - 1], step) && r == Next(path[|path| - 1], step)
    ensures ClaimsOnly(path + [r])
  {
    var all := path + [r];
    forall i: nat | 0 < i < |all| ensures NextByClaim(all, i) {
      if i < |path| { assert NextByClaim(path, i); }
    }
  }

  lemma TakesLease(q: Queue, host: string, t: int, attempts: nat, until: int, token: int) returns (leased: Queue)
    requires Stuck(q, host, t, attempts, until, token)
    ensures Allowed(q, ClaimStep(t + SCAN, 60, token)) && leased == Next(q, ClaimStep(t + SCAN, 60, token))
    ensures leased.jobs == [LeaseTo(Waiting(host, t, attempts, until), t + SCAN, 60, token)]
    ensures leased.clock == t + SCAN && leased.owed == q.owed && leased.used == q.used + {token}
  {
    LeasedAgain(host, t, attempts, until, token);
    leased := Next(q, ClaimStep(t + SCAN, 60, token));
  }

  /** A worker takes the lease when the pause is over and dies; the next claim finds the lease run out. */
  lemma OneMoreDeath(q: Queue, host: string, t: int, attempts: nat, until: int, token: int)
      returns (leased: Queue, r: Queue)
    requires Stuck(q, host, t, attempts, until, token)
    ensures var first, second := ClaimStep(t + SCAN, 60, token), ClaimStep(t + SCAN + 60, 60, token + 1);
      Allowed(q, first) && leased == Next(q, first) && Allowed(leased, second) && r == Next(leased, second)
    ensures Stuck(r, host, t + SCAN + 60, attempts + 1, t + SCAN + 60, token + 2) && r.owed == q.owed
  {
    leased := TakesLease(q, host, t, attempts, until, token);
    StampedAnew(host, t, attempts, until, token, token + 1);
    r := Next(leased, ClaimStep(t + SCAN + 60, 60, token + 1));
  }

  lemma OneMoreOnPath(path: seq<Queue>, host: string, t: int, attempts: nat, until: int, token: int)
      returns (longer: seq<Queue>)
    requires ClaimsOnly(path) && Stuck(path[|path| - 1], host, t, attempts, until, token)
    ensures ClaimsOnly(longer) && longer[0] == path[0] && longer[|longer| - 1].owed == path[|path| - 1].owed
    ensures Stuck(longer[|longer| - 1], host, t + SCAN + 60, attempts + 1, t + SCAN + 60, token + 2)
  {
    var leased, r := OneMoreDeath(path[|path| - 1], host, t, attempts, until, token);
    OneMoreClaim(path, ClaimStep(t + SCAN, 60, token), leased);
    OneMoreClaim(path + [leased], ClaimStep(t + SCAN + 60, 60, token + 1), r);
    longer := path + [leased] + [r];
  }

  lemma {:induction false} DeathsRun(q: Queue, host: string, n: nat) returns (path: seq<Queue>, until: int)
    requires Stuck(q, host, 0, 1, 60, 2)
    ensures ClaimsOnly(path) && path[0] == q && path[|path| - 1].owed == q.owed
    ensures Stuck(path[|path| - 1], host, 3660 * n, n + 1, until, 2 * n + 2)
  {
    if n == 0 {
      path, until := [q], 60;
    } else {
      path, until := DeathsRun(q, host, n - 1);
      path := OneMoreOnPath(path, host, 3660 * (n - 1), n, until, 2 * n);
      until := 3660 * n;
    }
  }

  /** A pause can extend itself without bound. One refusal is recorded, at time 0, for which the host is owed one
      hour; then workers only claim and die, and after `n` deaths the host is paused `n` times 3660 seconds longer. */
  lemma PauseCanExtendItself(host: string, n: nat) returns (path: seq<Queue>)
    ensures AllowedRun(EMPTY, Refusal(host))
    ensures ClaimsOnly(path) && path[0] == Run(EMPTY, Refusal(host))
    ensures var last := path[|path| - 1]; Owed(last, host) == SCAN && PauseEnd(last.jobs, host) == SCAN + 3660 * n
  {
    var refused := RefusalRuns(host);
    var until;
    path, until := DeathsRun(refused, host, n);
    PauseOfOne(path[|path| - 1].jobs[0], 0, host);
    assert Backoff(FORBIDDEN) == SCAN;
  }

  // ----- the transactions over the table -------------------------------------------------

  datatype FailAnswer = InvalidLimit | LeaseLost | Settled(status: Status)
  datatype Claimed = Nothing | Work(id: nat) | Malformed(id: nat)

  class FetchJobs {
    var jobs: seq<Job>

    constructor ()
      ensures jobs == []
    {
      jobs := [];
    }

    /** Running pauses by host, from the failure rows of the last hour. */
    method HostPauses(now: int) returns (pauses: map<string, int>)
      ensures forall host :: (if host in pauses then pauses[host] else 0) == ScannedPause(jobs, now, host)
    {
      pauses := map[];
      var k := |jobs|;
      while k > 0
        invariant 0 <= k <= |jobs|
        invariant forall host :: (if host in pauses then pauses[host] else 0) == ScannedPause(jobs[k..], now, host)
      {
        k := k - 1;
        var j := jobs[k];
        assert jobs[k..][0] == j && jobs[k..][1..] == jobs[k + 1..];
        if j.updatedAt > now - SCAN && (j.status == Dead || j.status == Retry) && j.kind.Some? {
          var seconds := Backoff(j.kind.value);
          var until := j.updatedAt + seconds;
          if seconds > 0 && until > now {
            pauses := pauses[j.host := Max(if j.host in pauses then pauses[j.host] else 0, until)];
          }
        }
      }
      assert jobs[0..] == jobs;
    }

    method ClaimContentFetch(now: int, leaseSeconds: int, token: int) returns (r: Option<Claimed>)
      modifies this
      ensures !(1 <= leaseSeconds <= 3600) ==> r.None? && jobs == old(jobs)
      ensures 1 <= leaseSeconds <= 3600 ==>
        var (after, chosen) := Claim(old(jobs), now, leaseSeconds, token);
        r.Some? && jobs == after
        && r.value == (if chosen.None? then Nothing
                       else if after[chosen.value].wellFormed then Work(chosen.value) else Malformed(chosen.value))
    {
      if !(1 <= leaseSeconds <= 3600) {
        return None;
      }
      jobs := Expired(jobs, now);
      ghost var expired := jobs;
      var ids := Candidates(jobs, now);
      var pauses := HostPauses(now);
      var chosen: Option<nat> := None;
      for k := 0 to |ids|
        invariant |jobs| == |expired| && chosen.None?
        invariant forall i :: k <= i < |ids| ==> ids[i] < |jobs|
        invariant Walk(jobs, expired, now, ids[k..]) == Walk(expired, expired, now, ids)
      {
        var id := ids[k];
        assert ids[k..][0] == id && ids[k..][1..] == ids[k + 1..];
        var until := if jobs[id].host in pauses then pauses[jobs[id].host] else 0;
        if until > now {
          jobs := jobs[id := Defer(jobs[id], until)];
        } else {
          chosen := Some(id);
          break;
        }
      }
      if chosen.None? {
        return Some(Nothing);
      }
      jobs := jobs[chosen.value := LeaseTo(jobs[chosen.value], now, leaseSeconds, token)];
      r := Some(if jobs[chosen.value].wellFormed then Work(chosen.value) else Malformed(chosen.value));
    }

    /** The separate transaction that retires a leased job whose stored request is malformed. */
    method RejectMalformed(id: nat, token: int, now: int)
      modifies this
      ensures jobs == Reject(old(jobs), id, token, now)
    {
      if id < |jobs| && jobs[id].status == Leased && jobs[id].token == Some(token) {
        jobs := jobs[id := jobs[id].(status := Dead, token := None, kind := Some("invalid_job"), updatedAt := now)];
      }
    }

    method CompleteContentFetch(id: nat, token: int, now: int) returns (done: bool)
      modifies this
      ensures done == Holds(old(jobs), id, token) && jobs == Complete(old(jobs), id, token, now)
    {
      if !(id < |jobs| && jobs[id].status == Leased && jobs[id].token == Some(token)) {
        return false;
      }
      jobs := jobs[id := jobs[id].(status := Completed, token := None, kind := None, updatedAt := now)];
      return true;
    }

    /** The state selected for a failed fetch. */
    method FailContentFetch(id: nat, token: int, attempts: nat, now: int, nextAttemptAt: int, retryable: bool,
                            kind: string, maxAttempts: int) returns (answer: FailAnswer)
      modifies this
      ensures maxAttempts < 1 ==> answer == InvalidLimit && jobs == old(jobs)
      ensures maxAttempts >= 1 ==>
        var terminal := !retryable || attempts >= maxAttempts;
        && jobs == Fail(old(jobs), id, token, now, nextAttemptAt, terminal, kind)
        && answer == if Holds(old(jobs), id, token) then Settled(if terminal then Dead else Retry) else LeaseLost
    {
      if maxAttempts < 1 {
        return InvalidLimit;
      }
      var terminal := !retryable || attempts >= maxAttempts;
      if !(id < |jobs| && jobs[id].status == Leased && jobs[id].token == Some(token)) {
        return LeaseLost;
      }
      jobs := jobs[id := jobs[id].(status := if terminal then Dead else Retry, token := None,
                                   nextAttemptAt := if terminal then now else nextAttemptAt,
                                   kind := Some(kind), updatedAt := now)];
      return Settled(if terminal then Dead else Retry);
    }
  }
}
