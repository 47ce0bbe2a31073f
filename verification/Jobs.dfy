/**
 The background-job queue: records, backoff, and the in-memory store as a state
 machine over timed calls. Times are milliseconds since the Unix epoch.
 */
module Jobs {
  import opened Ordering
  import opened Text
  import opened Numbers

  /** 128-bit identifiers, ordered by value. */
  type JobId = n: nat | n < 0x1_0000_0000_0000_0000_0000_0000_0000_0000

  datatype Status = Queued | Running | Succeeded | Failed

  datatype Job = Job(
    id: JobId, kind: string, payload: string, runAt: int, attempts: nat, maxAttempts: nat,
    status: Status, createdAt: int, lastError: Option<string>)

  type Store = map<JobId, Job>

  const MAX_BACKOFF: int := 3600000

  // --- Backoff -------------------------------------------------------------

  /** Milliseconds before retry number `attempts` (1-based). */
  function BackoffMillis(attempts: nat): (ms: int)
    ensures 1000 <= ms <= MAX_BACKOFF
  {
    var exp := Min(Max(attempts - 1, 0), 12);
    PowerPositive(2, exp);
    1000 * Min(Power(2, exp), 3600)
  }

  /** Delays double from one second and stay at one hour from the 13th attempt. */
  lemma BackoffDoublesToCap(attempts: nat)
    ensures 1 <= attempts <= 12 ==> BackoffMillis(attempts) == 1000 * Power(2, attempts - 1)
    ensures 1 <= attempts ==> BackoffMillis(attempts + 1) == Min(2 * BackoffMillis(attempts), 3600000)
    ensures attempts >= 13 ==> BackoffMillis(attempts) == 3600000
  {
    assert Power(2, 6) == 64;
    assert Power(2, 11) == 2048 by { assert Power(2, 8) == 256; }
    assert Power(2, 12) == 4096;
    if 1 <= attempts <= 12 { PowerMonotone(attempts - 1, 11); }
  }

  // --- Claim order ---------------------------------------------------------

  datatype Key = Key(at: int, id: JobId)

  predicate KeyLess(a: Key, b: Key) {
    a.at < b.at || (a.at == b.at && a.id < b.id)
  }

  lemma KeyOrder()
    ensures StrictTotalOrder(KeyLess)
  {
  }

  function DueKeys(jobs: Store, now: int): set<Key> {
    set id | id in jobs && jobs[id].status.Queued? && jobs[id].runAt <= now :: Key(jobs[id].runAt, id)
  }

  function Truncate<T>(s: seq<T>, limit: Option<nat>): (r: seq<T>)
    ensures |r| == (if limit.Some? && limit.value < |s| then limit.value else |s|) && r == s[..|r|]
  {
    if limit.Some? && limit.value < |s| then s[..limit.value] else s
  }

  function Ids(keys: seq<Key>): (ids: seq<JobId>)
    ensures |ids| == |keys| && forall i :: 0 <= i < |keys| ==> ids[i] == keys[i].id
  {
    seq(|keys|, i requires 0 <= i < |keys| => keys[i].id)
  }

  /** Ids of the due queued jobs, earliest (run time, id) first, up to `limit`. */
  function ClaimOrder(jobs: Store, now: int, limit: Option<nat>): (ids: seq<JobId>)
    ensures forall i :: 0 <= i < |ids| ==>
      ids[i] in jobs && jobs[ids[i]].status.Queued? && jobs[ids[i]].runAt <= now
    ensures forall i, j :: 0 <= i < j < |ids| ==>
      ids[i] != ids[j] && KeyLess(Key(jobs[ids[i]].runAt, ids[i]), Key(jobs[ids[j]].runAt, ids[j]))
  {
    KeyOrder();
    var keys := Truncate(Enumerate(KeyLess, DueKeys(jobs, now)), limit);
    assert forall i :: 0 <= i < |keys| ==> keys[i] in DueKeys(jobs, now);
    Ids(keys)
  }

  predicate Due(jobs: Store, now: int, id: JobId) {
    id in jobs && jobs[id].status.Queued? && jobs[id].runAt <= now
  }

  /** A claim never exceeds its limit. */
  lemma ClaimWithinLimit(jobs: Store, now: int, limit: nat)
    ensures |ClaimOrder(jobs, now, Some(limit))| <= limit
  {
    KeyOrder();
  }

  /** A due job is left out only by a full claim, all of whose jobs come before it. */
  lemma ClaimTakesEarliest(jobs: Store, now: int, limit: Option<nat>, id: JobId)
    requires Due(jobs, now, id) && id !in ClaimOrder(jobs, now, limit)
    ensures var ids := ClaimOrder(jobs, now, limit);
      && limit.Some? && |ids| == limit.value
      && forall i :: 0 <= i < |ids| ==> KeyLess(Key(jobs[ids[i]].runAt, ids[i]), Key(jobs[id].runAt, id))
  {
    KeyOrder();
    var keys := Enumerate(KeyLess, DueKeys(jobs, now));
    var taken := Truncate(keys, limit);
    assert Key(jobs[id].runAt, id) in keys;
    var j :| 0 <= j < |keys| && keys[j] == Key(jobs[id].runAt, id);
    forall i | 0 <= i < |taken|
      ensures keys[i] == Key(jobs[Ids(taken)[i]].runAt, Ids(taken)[i]) && keys[i].id != id
    {
      assert keys[i] in DueKeys(jobs, now) && Ids(taken)[i] in Ids(taken);
    }
    assert j >= |taken|;
  }

  /** Without a limit every due queued job is claimed. */
  lemma DueIsClaimed(jobs: Store, now: int, id: JobId)
    requires Due(jobs, now, id)
    ensures id in ClaimOrder(jobs, now, None)
  {
    if id !in ClaimOrder(jobs, now, None) { ClaimTakesEarliest(jobs, now, None, id); }
  }

  /** A claim with room for a job comes back empty exactly when nothing is due. */
  lemma EmptyClaimIffNothingDue(jobs: Store, now: int, limit: nat)
    requires limit >= 1
    ensures ClaimOrder(jobs, now, Some(limit)) == [] <==> forall id :: !Due(jobs, now, id)
  {
    var ids := ClaimOrder(jobs, now, Some(limit));
    if ids == [] {
      forall id ensures !Due(jobs, now, id) {
        if Due(jobs, now, id) { ClaimTakesEarliest(jobs, now, Some(limit), id); }
      }
    } else {
      assert Due(jobs, now, ids[0]);
    }
  }

  // --- Operations ----------------------------------------------------------

  function NewJob(id: JobId, kind: string, payload: string, runAt: int, now: int, maxAttempts: nat): Job {
    Job(id, kind, payload, runAt, 0, maxAttempts, Queued, now, None)
  }

  function Started(job: Job): Job {
    job.(status := Running, attempts := job.attempts + 1)
  }

  function Claim(jobs: Store, ids: seq<JobId>): Store {
    map id | id in jobs :: if id in ids then Started(jobs[id]) else jobs[id]
  }

  function Finished(job: Job): Job {
    job.(status := Succeeded, lastError := None)
  }

  function AfterFailure(job: Job, reason: string, now: int): Job {
    var noted := job.(lastError := Some(reason));
    if job.attempts >= job.maxAttempts then noted.(status := Failed)
    else
      var at := CheckedAdd(now, BackoffMillis(job.attempts));
      noted.(status := Queued, runAt := if at.Some? then at.value else now)
  }

  function Succeed(jobs: Store, id: JobId): Store {
    if id in jobs then jobs[id := Finished(jobs[id])] else jobs
  }

  function Fail(jobs: Store, id: JobId, reason: string, now: int): Store {
    if id in jobs then jobs[id := AfterFailure(jobs[id], reason, now)] else jobs
  }

  predicate Stalled(job: Job, stallAfter: int, now: int) {
    job.status.Running? && now - job.runAt > stallAfter
  }

  function Requeued(job: Job, now: int): Job {
    job.(status := Queued, runAt := now)
  }

  function StalledIds(jobs: Store, stallAfter: int, now: int): set<JobId> {
    set id | id in jobs && Stalled(jobs[id], stallAfter, now)
  }

  function Recover(jobs: Store, ids: set<JobId>, now: int): Store {
    map id | id in jobs :: if id in ids then Requeued(jobs[id], now) else jobs[id]
  }

  lemma ClaimOneMore(jobs: Store, ids: seq<JobId>, id: JobId)
    requires id in jobs && id !in ids
    ensures Claim(jobs, ids + [id]) == Claim(jobs, ids)[id := Started(jobs[id])]
  {
  }

  lemma RecoverOneMore(jobs: Store, ids: set<JobId>, id: JobId, now: int)
    requires id in jobs && id !in ids
    ensures Recover(jobs, ids + {id}, now) == Recover(jobs, ids, now)[id := Requeued(jobs[id], now)]
  {
  }

  // --- What each operation stores, field by field --------------------------

  /** The fields no operation after the enqueue touches. */
  predicate SameOrigin(a: Job, b: Job) {
    a.id == b.id && a.kind == b.kind && a.payload == b.payload && a.maxAttempts == b.maxAttempts && a.createdAt == b.createdAt
  }

  /** A submitted job waits for its run time with all its attempts before it. */
  lemma SubmissionStored(jobs: Store, max: nat, id: JobId, kind: string, payload: string, runAt: int, now: int)
    ensures var after := Apply(jobs, max, Call(now, Enqueue(id, kind, payload, runAt)));
      && after.Keys == jobs.Keys + {id} && (forall other :: other in jobs && other != id ==> after[other] == jobs[other])
      && after[id].id == id && after[id].kind == kind && after[id].payload == payload
      && after[id].runAt == runAt && after[id].createdAt == now && after[id].lastError == None
      && after[id].status == Queued && after[id].attempts == 0 && after[id].maxAttempts == max
  {
  }

  /** A claim makes exactly the claimed jobs running with one attempt more. */
  lemma ClaimStored(jobs: Store, max: nat, limit: Option<nat>, now: int, id: JobId)
    requires id in jobs
    ensures var after := Apply(jobs, max, Call(now, DequeueDue(limit)));
      && after.Keys == jobs.Keys
      && (id !in ClaimOrder(jobs, now, limit) ==> after[id] == jobs[id])
      && (id in ClaimOrder(jobs, now, limit) ==>
            && SameOrigin(after[id], jobs[id]) && after[id].status == Running && after[id].attempts == jobs[id].attempts + 1
            && after[id].runAt == jobs[id].runAt && after[id].lastError == jobs[id].lastError)
  {
  }

  /** A success report stores Succeeded, clears the error and touches nothing else. */
  lemma SuccessStored(jobs: Store, id: JobId)
    ensures id !in jobs ==> Succeed(jobs, id) == jobs
    ensures id in jobs ==> var after := Succeed(jobs, id);
      && after.Keys == jobs.Keys && (forall other :: other in jobs && other != id ==> after[other] == jobs[other])
      && SameOrigin(after[id], jobs[id]) && after[id].status == Succeeded && after[id].lastError == None
      && after[id].attempts == jobs[id].attempts && after[id].runAt == jobs[id].runAt
  {
  }

  /** A failure report stores its reason; the job has failed for good exactly when
      its attempts reached the cap, and else waits out the backoff from `now`. */
  lemma FailureStored(jobs: Store, id: JobId, reason: string, now: int)
    ensures id !in jobs ==> Fail(jobs, id, reason, now) == jobs
    ensures id in jobs ==> var was, after := jobs[id], Fail(jobs, id, reason, now);
      && after.Keys == jobs.Keys && (forall other :: other in jobs && other != id ==> after[other] == jobs[other])
      && SameOrigin(after[id], was) && after[id].lastError == Some(reason) && after[id].attempts == was.attempts
      && (was.attempts >= was.maxAttempts ==> after[id].status == Failed && after[id].runAt == was.runAt)
      && (was.attempts < was.maxAttempts ==>
            var at := now + BackoffMillis(was.attempts);
            after[id].status == Queued && after[id].runAt == if MIN_TIME <= at <= MAX_TIME then at else now)
  {
  }

  /** A recovery queues for now exactly the running jobs whose run time is more than
      `stallAfter` ago, whatever their attempts. */
  lemma RecoveryStored(jobs: Store, max: nat, stallAfter: int, now: int, id: JobId)
    requires id in jobs
    ensures var was, after := jobs[id], Apply(jobs, max, Call(now, DequeueStalled(stallAfter)));
      && after.Keys == jobs.Keys
      && (!(was.status == Running && was.runAt + stallAfter < now) ==> after[id] == was)
      && (was.status == Running && was.runAt + stallAfter < now ==>
            && SameOrigin(after[id], was) && after[id].status == Queued && after[id].runAt == now
            && after[id].attempts == was.attempts && after[id].lastError == was.lastError)
  {
  }

  datatype Op =
    | Enqueue(id: JobId, kind: string, payload: string, runAt: int)
    | DequeueDue(limit: Option<nat>)
    | MarkSucceeded(id: JobId)
    | MarkFailed(id: JobId, reason: string)
    | DequeueStalled(stallAfter: int)

  datatype Call = Call(now: int, op: Op)

  function Apply(jobs: Store, max: nat, call: Call): Store {
    match call.op
    case Enqueue(id, kind, payload, runAt) =>
      jobs[id := NewJob(id, kind, payload, runAt, call.now, max)]
    case DequeueDue(limit) => Claim(jobs, ClaimOrder(jobs, call.now, limit))
    case MarkSucceeded(id) => Succeed(jobs, id)
    case MarkFailed(id, reason) => Fail(jobs, id, reason, call.now)
    case DequeueStalled(stallAfter) => Recover(jobs, StalledIds(jobs, stallAfter, call.now), call.now)
  }

  ghost predicate StepAt(max: nat, calls: seq<Call>, states: seq<Store>, n: nat) {
    n < |calls| && n + 1 < |states| && states[n + 1] == Apply(states[n], max, calls[n])
  }

  /** `states` are the stores before, between and after `calls`, starting empty. */
  ghost predicate IsRun(max: nat, calls: seq<Call>, states: seq<Store>) {
    && |states| == |calls| + 1
    && states[0] == map[]
    && forall n :: 0 <= n < |calls| ==> StepAt(max, calls, states, n)
  }

  /** Every sequence of calls has its run. */
  function States(max: nat, calls: seq<Call>): (states: seq<Store>)
    ensures IsRun(max, calls, states)
  {
    if calls == [] then [map[]]
    else
      var n := |calls| - 1;
      var before := States(max, calls[..n]);
      var states := before + [Apply(before[n], max, calls[n])];
      assert forall k :: 0 <= k < n ==> StepAt(max, calls[..n], before, k) ==> StepAt(max, calls, states, k);
      assert StepAt(max, calls, states, n);
      states
  }

  ghost predicate FreshAt(calls: seq<Call>, states: seq<Store>, n: nat) {
    n < |calls| && n < |states| && (calls[n].op.Enqueue? ==> calls[n].op.id !in states[n])
  }

  /** Every enqueue mints an id not yet in the store. */
  ghost predicate FreshIds(calls: seq<Call>, states: seq<Store>) {
    forall n :: 0 <= n < |calls| ==> FreshAt(calls, states, n)
  }

  // --- Attempt accounting over whole runs ----------------------------------

  predicate Claims(jobs: Store, call: Call, id: JobId) {
    call.op.DequeueDue? && id in ClaimOrder(jobs, call.now, call.op.limit)
  }

  predicate Recovers(jobs: Store, call: Call, id: JobId) {
    call.op.DequeueStalled? && id in StalledIds(jobs, call.op.stallAfter, call.now)
  }

  ghost predicate ClaimsAt(calls: seq<Call>, states: seq<Store>, n: nat, id: JobId) {
    n < |calls| && n < |states| && Claims(states[n], calls[n], id)
  }

  ghost predicate RecoversAt(calls: seq<Call>, states: seq<Store>, n: nat, id: JobId) {
    n < |calls| && n < |states| && Recovers(states[n], calls[n], id)
  }

  /** How many of the first `n` calls claimed `id`. */
  ghost function ClaimCount(calls: seq<Call>, states: seq<Store>, n: nat, id: JobId): nat {
    if n == 0 then 0
    else ClaimCount(calls, states, n - 1, id) + if ClaimsAt(calls, states, n - 1, id) then 1 else 0
  }

  /** How many of the first `n` calls recovered `id` from a stall. */
  ghost function RecoveryCount(calls: seq<Call>, states: seq<Store>, n: nat, id: JobId): nat {
    if n == 0 then 0
    else RecoveryCount(calls, states, n - 1, id) + if RecoversAt(calls, states, n - 1, id) then 1 else 0
  }

  /** A job first appears by being enqueued, and is neither claimed nor recovered before. */
  lemma AbsentStep(jobs: Store, max: nat, call: Call, id: JobId)
    requires id !in jobs
    ensures !Claims(jobs, call, id) && !Recovers(jobs, call, id)
    ensures id in Apply(jobs, max, call) ==>
      call.op.Enqueue? && Apply(jobs, max, call)[id] == NewJob(id, call.op.kind, call.op.payload, call.op.runAt, call.now, max)
  {
  }

  lemma PresentStep(jobs: Store, max: nat, call: Call, id: JobId)
    requires id in jobs
    ensures id in Apply(jobs, max, call)
  {
  }

  lemma {:induction false} AbsentNeverCounted(max: nat, calls: seq<Call>, states: seq<Store>, n: nat, id: JobId)
    requires IsRun(max, calls, states)
    requires n <= |calls| && id !in states[n]
    ensures ClaimCount(calls, states, n, id) == 0 && RecoveryCount(calls, states, n, id) == 0
  {
    if n > 0 {
      var m := n - 1;
      assert StepAt(max, calls, states, m);
      if id in states[m] { PresentStep(states[m], max, calls[m], id); }
      AbsentStep(states[m], max, calls[m], id);
      AbsentNeverCounted(max, calls, states, m, id);
    }
  }

  ghost predicate AttemptsAccounted(id: JobId, job: Job, max: nat, claims: nat, recoveries: nat) {
    && job.id == id && job.maxAttempts == max
    && job.attempts == claims
    && job.attempts <= max + recoveries
    && (job.status.Queued? ==> job.attempts < max + recoveries)
    && (job.status.Running? ==> job.attempts >= 1)
  }

  lemma AttemptStep(jobs: Store, max: nat, call: Call, id: JobId, claims: nat, recoveries: nat)
    requires id in jobs && AttemptsAccounted(id, jobs[id], max, claims, recoveries)
    requires call.op.Enqueue? ==> call.op.id != id
    ensures id in Apply(jobs, max, call)
    ensures AttemptsAccounted(id, Apply(jobs, max, call)[id], max,
                              claims + if Claims(jobs, call, id) then 1 else 0,
                              recoveries + if Recovers(jobs, call, id) then 1 else 0)
  {
  }

  /**
   Attempts are exactly the claims, and exceed the cap only by stall recoveries;
   a job waiting in the queue always has an attempt left under that bound.
   */
  lemma {:induction false} AttemptsAreClaims(max: nat, calls: seq<Call>, states: seq<Store>, n: nat, id: JobId)
    requires max >= 1
    requires IsRun(max, calls, states) && FreshIds(calls, states)
    requires n <= |calls| && id in states[n]
    ensures AttemptsAccounted(id, states[n][id], max,
                              ClaimCount(calls, states, n, id), RecoveryCount(calls, states, n, id))
  {
    var m := n - 1;
    assert StepAt(max, calls, states, m);
    assert FreshAt(calls, states, m);
    if id in states[m] {
      AttemptsAreClaims(max, calls, states, m, id);
      AttemptStep(states[m], max, calls[m], id,
                  ClaimCount(calls, states, m, id), RecoveryCount(calls, states, m, id));
    } else {
      AbsentStep(states[m], max, calls[m], id);
      AbsentNeverCounted(max, calls, states, m, id);
    }
  }

  /** Calls that can put a claimed job back in the queue. */
  predicate Releases(jobs: Store, call: Call, id: JobId) {
    (call.op.MarkFailed? && call.op.id == id) || Recovers(jobs, call, id)
  }

  ghost predicate OutOfQueue(jobs: Store, id: JobId) {
    id in jobs && !jobs[id].status.Queued?
  }

  lemma ClaimTakesOut(jobs: Store, max: nat, call: Call, id: JobId)
    requires Claims(jobs, call, id)
    ensures OutOfQueue(Apply(jobs, max, call), id)
  {
  }

  lemma UnreleasedStaysOut(jobs: Store, max: nat, call: Call, id: JobId)
    requires OutOfQueue(jobs, id) && !Releases(jobs, call, id)
    requires call.op.Enqueue? ==> call.op.id !in jobs
    ensures OutOfQueue(Apply(jobs, max, call), id)
  {
  }

  ghost predicate ReleasesAt(calls: seq<Call>, states: seq<Store>, n: nat, id: JobId) {
    n < |calls| && n < |states| && Releases(states[n], calls[n], id)
  }

  /** No call after `i` and before `j` released the job. */
  ghost predicate Unreleased(calls: seq<Call>, states: seq<Store>, i: nat, j: nat, id: JobId) {
    forall k :: i < k < j ==> !ReleasesAt(calls, states, k, id)
  }

  lemma UnreleasedBefore(calls: seq<Call>, states: seq<Store>, i: nat, j: nat, id: JobId)
    requires i + 1 < j && Unreleased(calls, states, i, j, id)
    ensures Unreleased(calls, states, i, j - 1, id) && !ReleasesAt(calls, states, j - 1, id)
  {
  }

  lemma RunStep(max: nat, calls: seq<Call>, states: seq<Store>, n: nat)
    requires IsRun(max, calls, states) && FreshIds(calls, states) && n < |calls|
    ensures StepAt(max, calls, states, n) && FreshAt(calls, states, n)
  {
  }

  /** A claimed job cannot be queued again without a failure report or a recovery. */
  lemma {:induction false} NotQueuedUntilReleased(
    max: nat, calls: seq<Call>, states: seq<Store>, i: nat, j: nat, id: JobId)
    requires IsRun(max, calls, states) && FreshIds(calls, states)
    requires i < j <= |calls| && ClaimsAt(calls, states, i, id) && Unreleased(calls, states, i, j, id)
    ensures OutOfQueue(states[j], id)
  {
    if j == i + 1 {
      RunStep(max, calls, states, i);
      OutAfter(max, calls, states, i, id);
    } else {
      UnreleasedBefore(calls, states, i, j, id);
      NotQueuedUntilReleased(max, calls, states, i, j - 1, id);
      RunStep(max, calls, states, j - 1);
      OutAfter(max, calls, states, j - 1, id);
    }
  }

  lemma OutAfter(max: nat, calls: seq<Call>, states: seq<Store>, n: nat, id: JobId)
    requires StepAt(max, calls, states, n) && FreshAt(calls, states, n)
    requires ClaimsAt(calls, states, n, id) || (OutOfQueue(states[n], id) && !ReleasesAt(calls, states, n, id))
    ensures OutOfQueue(states[n + 1], id)
  {
    if ClaimsAt(calls, states, n, id) {
      ClaimTakesOut(states[n], max, calls[n], id);
    } else {
      UnreleasedStaysOut(states[n], max, calls[n], id);
    }
  }

  /** Between two claims of one job lies a failure report or a stall recovery of it. */
  lemma ClaimsAreSeparated(max: nat, calls: seq<Call>, states: seq<Store>, i: nat, j: nat, id: JobId)
    requires IsRun(max, calls, states) && FreshIds(calls, states)
    requires i < j < |calls|
    requires ClaimsAt(calls, states, i, id) && ClaimsAt(calls, states, j, id)
    ensures exists k :: i < k < j && ReleasesAt(calls, states, k, id)
  {
    if Unreleased(calls, states, i, j, id) {
      NotQueuedUntilReleased(max, calls, states, i, j, id);
      assert false;
    }
  }
}
