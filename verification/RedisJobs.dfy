/**
 The Redis job queue: job hashes plus the sorted sets `due` and `run`, changed by
 atomic scripts, and its refinement of the in-memory store of module `Jobs`.
 */
module RedisJobs {
  import opened Ordering
  import opened Text
  import opened Numbers
  import opened Jobs

  /** A job's hash. `runAt` is the stored field, not the sorted-set score. */
  datatype JobHash = JobHash(
    kind: string, payload: string, runAt: int, attempts: nat, maxAttempts: nat,
    status: Status, createdAt: int, lastError: Option<string>)

  type SortedSet = map<JobId, int>

  datatype Redis = Redis(hashes: map<JobId, JobHash>, due: SortedSet, run: SortedSet)

  // --- Sorted-set order ----------------------------------------------------

  function InsertAt(s: string, k: nat, c: char): string
    requires k <= |s|
  {
    s[..k] + [c] + s[k..]
  }

  /** The hyphenated lower-case form 8-4-4-4-12, the member text of an id. */
  function UuidText(id: JobId): string {
    var hex := Fixed(16, 32, id);
    InsertAt(InsertAt(InsertAt(InsertAt(hex, 20, '-'), 16, '-'), 12, '-'), 8, '-')
  }

  lemma InsertKeepsOrder(a: string, b: string, k: nat, c: char)
    requires k <= |a| == |b|
    ensures LexLess(InsertAt(a, k, c), InsertAt(b, k, c)) <==> LexLess(a, b)
  {
    assert a == a[..k] + a[k..] && b == b[..k] + b[k..];
    LexConcat(a[..k], a[k..], b[..k], b[k..]);
    assert InsertAt(a, k, c) == a[..k] + ([c] + a[k..]) && InsertAt(b, k, c) == b[..k] + ([c] + b[k..]);
    LexConcat(a[..k], [c] + a[k..], b[..k], [c] + b[k..]);
    LexConcat([c], a[k..], [c], b[k..]);
    LexConnected([c], [c]);
  }

  /** 32 hex digits in groups of 8, 4, 4, 4 and 12. */
  lemma UuidTextLayout(id: JobId)
    ensures var hex := Fixed(16, 32, id);
      UuidText(id) == hex[..8] + "-" + (hex[8..12] + "-" + (hex[12..16] + "-" + (hex[16..20] + "-" + hex[20..])))
  {
    Hyphenated(Fixed(16, 32, id));
  }

  lemma Hyphenated(hex: string)
    requires |hex| == 32
    ensures InsertAt(InsertAt(InsertAt(InsertAt(hex, 20, '-'), 16, '-'), 12, '-'), 8, '-')
      == hex[..8] + "-" + (hex[8..12] + "-" + (hex[12..16] + "-" + (hex[16..20] + "-" + hex[20..])))
  {
    var tail := hex[20..];
    var a := InsertAt(hex, 20, '-');
    assert a == hex[..20] + "-" + tail;
    var b := InsertAt(a, 16, '-');
    assert b == hex[..16] + "-" + (hex[16..20] + "-" + tail);
    var c := InsertAt(b, 12, '-');
    assert c == hex[..12] + "-" + (hex[12..16] + "-" + (hex[16..20] + "-" + tail));
  }

  /** Redis breaks score ties by member text; for ids that is id order. */
  lemma UuidTextOrder(a: JobId, b: JobId)
    ensures LexLess(UuidText(a), UuidText(b)) <==> a < b
  {
    var x, y := Fixed(16, 32, a), Fixed(16, 32, b);
    assert Power(16, 32) == 0x1_0000_0000_0000_0000_0000_0000_0000_0000 by {
      assert Power(16, 4) == 0x1_0000;
      PowerSum(16, 4, 4);
      PowerSum(16, 8, 8);
      PowerSum(16, 16, 16);
    }
    FixedOrder(16, 32, a, b);
    InsertKeepsOrder(x, y, 20, '-');
    var x1, y1 := InsertAt(x, 20, '-'), InsertAt(y, 20, '-');
    InsertKeepsOrder(x1, y1, 16, '-');
    var x2, y2 := InsertAt(x1, 16, '-'), InsertAt(y1, 16, '-');
    InsertKeepsOrder(x2, y2, 12, '-');
    InsertKeepsOrder(InsertAt(x2, 12, '-'), InsertAt(y2, 12, '-'), 8, '-');
  }

  /** Order of a sorted set: by score, then by member text. */
  predicate MemberLess(a: Key, b: Key) {
    a.at < b.at || (a.at == b.at && LexLess(UuidText(a.id), UuidText(b.id)))
  }

  lemma MemberOrder()
    ensures forall a, b :: MemberLess(a, b) == KeyLess(a, b)
    ensures StrictTotalOrder(MemberLess)
  {
    forall a, b ensures MemberLess(a, b) == KeyLess(a, b) { UuidTextOrder(a.id, b.id); }
    KeyOrder();
  }

  function Scored(z: SortedSet, max: int): set<Key> {
    set id | id in z && z[id] <= max :: Key(z[id], id)
  }

  /** ZRANGEBYSCORE from -inf to `max`, as ids. */
  function ZRangeByScore(z: SortedSet, max: int, limit: Option<nat>): (ids: seq<JobId>)
    ensures forall i :: 0 <= i < |ids| ==> ids[i] in z && z[ids[i]] <= max
    ensures forall i, j :: 0 <= i < j < |ids| ==> ids[i] != ids[j]
  {
    MemberOrder();
    var keys := Truncate(Enumerate(MemberLess, Scored(z, max)), limit);
    assert forall i :: 0 <= i < |keys| ==> keys[i] in Scored(z, max);
    Ids(keys)
  }

  // --- Scripts -------------------------------------------------------------

  function InsertJob(r: Redis, max: nat, id: JobId, kind: string, payload: string, runAt: int, now: int): Redis {
    var kept := if id in r.hashes then r.hashes[id].lastError else None;
    r.(hashes := r.hashes[id := JobHash(kind, payload, runAt, 0, max, Queued, now, kept)], due := r.due[id := runAt])
  }

  function StartedHash(h: JobHash): JobHash { h.(status := Running, attempts := h.attempts + 1) }

  ghost predicate Indexed(r: Redis) {
    r.due.Keys <= r.hashes.Keys && r.run.Keys <= r.hashes.Keys
  }

  /** CLAIM_SCRIPT over the listed ids. */
  function ClaimScript(r: Redis, ids: seq<JobId>): Redis {
    Redis(map id | id in r.hashes :: if id in ids then StartedHash(r.hashes[id]) else r.hashes[id],
          map id | id in r.due && id !in ids :: r.due[id],
          map id | id in r.run || (id in ids && id in r.due) :: if id in ids && id in r.due then r.due[id] else r.run[id])
  }

  /** SUCCEED_SCRIPT. */
  function SucceedScript(r: Redis, id: JobId): Redis {
    if id !in r.hashes then r
    else r.(hashes := r.hashes[id := r.hashes[id].(status := Succeeded, lastError := None)], run := r.run - {id})
  }

  /** The script's `min(2 ^ min(attempts - 1, 12), 3600) * 1000`; zero attempts give half a second. */
  function ScriptBackoff(attempts: nat): int {
    if attempts == 0 then 500 else 1000 * Min(Power(2, Min(attempts - 1, 12)), 3600)
  }

  /** FAIL_SCRIPT. It moves the score of a retried job and leaves its `run_at` field. */
  function FailScript(r: Redis, id: JobId, reason: string, now: int): Redis {
    if id !in r.hashes then r
    else
      var h := r.hashes[id].(lastError := Some(reason));
      if h.attempts >= h.maxAttempts then
        r.(hashes := r.hashes[id := h.(status := Failed)], run := r.run - {id})
      else
        Redis(r.hashes[id := h.(status := Queued)], r.due[id := now + ScriptBackoff(h.attempts)], r.run - {id})
  }

  function RequeuedHash(h: JobHash, now: int): JobHash { h.(status := Queued, runAt := now) }

  /** RECOVER_SCRIPT over the listed ids. */
  function RecoverScript(r: Redis, ids: seq<JobId>, now: int): Redis {
    Redis(map id | id in r.hashes :: if id in ids then RequeuedHash(r.hashes[id], now) else r.hashes[id],
          map id | id in r.due || id in ids :: if id in ids then now else r.due[id],
          map id | id in r.run && id !in ids :: r.run[id])
  }

  /** Members scored strictly below `now - stallAfter`. */
  function StalledMembers(r: Redis, stallAfter: int, now: int): seq<JobId> {
    ZRangeByScore(r.run, now - stallAfter - 1, None)
  }

  function ApplyRedis(r: Redis, max: nat, call: Call): Redis {
    match call.op
    case Enqueue(id, kind, payload, runAt) => InsertJob(r, max, id, kind, payload, runAt, call.now)
    case DequeueDue(limit) => ClaimScript(r, ZRangeByScore(r.due, call.now, limit))
    case MarkSucceeded(id) => SucceedScript(r, id)
    case MarkFailed(id, reason) => FailScript(r, id, reason, call.now)
    case DequeueStalled(stallAfter) => RecoverScript(r, StalledMembers(r, stallAfter, call.now), call.now)
  }

  // --- Refinement ----------------------------------------------------------

  ghost predicate SameJob(job: Job, h: JobHash) {
    && h.kind == job.kind && h.payload == job.payload && h.createdAt == job.createdAt
    && h.attempts == job.attempts && h.maxAttempts == job.maxAttempts
    && h.status == job.status && h.lastError == job.lastError
  }

  ghost predicate RefinesAt(m: Store, r: Redis, id: JobId) {
    && (id in r.hashes <==> id in m)
    && (id in m ==> SameJob(m[id], r.hashes[id]))
    && (id in r.due <==> id in m && m[id].status.Queued?)
    && (id in r.run <==> id in m && m[id].status.Running?)
    && (id in r.due ==> r.due[id] == m[id].runAt)
    && (id in r.run ==> r.run[id] == m[id].runAt)
  }

  /** `due` and `run` hold exactly the queued and running ids, scored by the
      abstract run time, and the hashes agree on everything but `run_at`. */
  ghost predicate Refines(m: Store, r: Redis) {
    forall id :: RefinesAt(m, r, id)
  }

  /** When a call keeps the two queues in step. */
  predicate Agrees(m: Store, call: Call) {
    match call.op
    case Enqueue(id, _, _, _) => id in m ==> !m[id].status.Running? && m[id].lastError.None?
    case MarkSucceeded(id) => id in m ==> !m[id].status.Queued?
    case MarkFailed(id, _) =>
      id in m ==>
        if m[id].attempts >= m[id].maxAttempts then !m[id].status.Queued?
        else m[id].attempts >= 1 && CheckedAdd(call.now, BackoffMillis(m[id].attempts)).Some?
    case _ => true
  }

  lemma SameClaimOrder(m: Store, r: Redis, now: int, limit: Option<nat>)
    requires Refines(m, r)
    ensures ZRangeByScore(r.due, now, limit) == ClaimOrder(m, now, limit)
  {
    MemberOrder();
    KeyOrder();
    forall k: Key ensures k in Scored(r.due, now) <==> k in DueKeys(m, now) {
      assert RefinesAt(m, r, k.id);
    }
    assert Scored(r.due, now) == DueKeys(m, now);
    SameOrderSameEnumeration(MemberLess, KeyLess, DueKeys(m, now));
  }

  lemma SameStalled(m: Store, r: Redis, stallAfter: int, now: int)
    requires Refines(m, r)
    ensures forall id :: id in StalledMembers(r, stallAfter, now) <==> id in StalledIds(m, stallAfter, now)
  {
    MemberOrder();
    var keys := Enumerate(MemberLess, Scored(r.run, now - stallAfter - 1));
    forall id: JobId ensures id in StalledMembers(r, stallAfter, now) <==> id in StalledIds(m, stallAfter, now) {
      assert RefinesAt(m, r, id);
      if id in StalledIds(m, stallAfter, now) {
        assert Key(r.run[id], id) in keys;
        var i :| 0 <= i < |keys| && keys[i] == Key(r.run[id], id);
        assert Ids(keys)[i] == id;
      }
    }
  }

  lemma EnqueueRefines(m: Store, r: Redis, max: nat, call: Call)
    requires Refines(m, r) && call.op.Enqueue?
    ensures Refines(Apply(m, max, call), ApplyRedis(r, max, call)) <==> Agrees(m, call)
  {
    var Enqueue(id, kind, payload, runAt) := call.op;
    var m', r' := Apply(m, max, call), ApplyRedis(r, max, call);
    forall other: JobId | other != id ensures RefinesAt(m', r', other) { assert RefinesAt(m, r, other); }
    assert RefinesAt(m, r, id);
    assert RefinesAt(m', r', id) <==> Agrees(m, call);
  }

  lemma ClaimRefines(m: Store, r: Redis, max: nat, call: Call)
    requires Refines(m, r) && call.op.DequeueDue?
    ensures Refines(Apply(m, max, call), ApplyRedis(r, max, call))
  {
    SameClaimOrder(m, r, call.now, call.op.limit);
    var ids := ClaimOrder(m, call.now, call.op.limit);
    forall id: JobId ensures RefinesAt(Claim(m, ids), ClaimScript(r, ids), id) {
      assert RefinesAt(m, r, id);
      ClaimRefinesAt(m, r, ids, id);
    }
  }

  lemma ClaimRefinesAt(m: Store, r: Redis, ids: seq<JobId>, id: JobId)
    requires RefinesAt(m, r, id) && (id in ids ==> id in m && m[id].status.Queued?)
    ensures RefinesAt(Claim(m, ids), ClaimScript(r, ids), id)
  {
  }

  lemma SucceedRefines(m: Store, r: Redis, max: nat, call: Call)
    requires Refines(m, r) && call.op.MarkSucceeded?
    ensures Refines(Apply(m, max, call), ApplyRedis(r, max, call)) <==> Agrees(m, call)
  {
    var id := call.op.id;
    var m', r' := Apply(m, max, call), ApplyRedis(r, max, call);
    forall other: JobId | other != id ensures RefinesAt(m', r', other) { assert RefinesAt(m, r, other); }
    assert RefinesAt(m, r, id);
    assert RefinesAt(m', r', id) <==> Agrees(m, call);
  }

  lemma FailRefines(m: Store, r: Redis, max: nat, call: Call)
    requires Refines(m, r) && call.op.MarkFailed?
    ensures Refines(Apply(m, max, call), ApplyRedis(r, max, call)) <==> Agrees(m, call)
  {
    var id := call.op.id;
    var m', r' := Apply(m, max, call), ApplyRedis(r, max, call);
    forall other: JobId | other != id ensures RefinesAt(m', r', other) { assert RefinesAt(m, r, other); }
    assert RefinesAt(m, r, id);
    assert RefinesAt(m', r', id) <==> Agrees(m, call);
  }

  lemma RecoverRefines(m: Store, r: Redis, max: nat, call: Call)
    requires Refines(m, r) && call.op.DequeueStalled?
    ensures Refines(Apply(m, max, call), ApplyRedis(r, max, call))
  {
    SameStalled(m, r, call.op.stallAfter, call.now);
    forall id: JobId ensures RefinesAt(Apply(m, max, call), ApplyRedis(r, max, call), id) {
      assert RefinesAt(m, r, id);
    }
  }

  /** From states in step, a call keeps them in step exactly when it agrees. */
  lemma StepRefines(m: Store, r: Redis, max: nat, call: Call)
    requires Refines(m, r)
    ensures Refines(Apply(m, max, call), ApplyRedis(r, max, call)) <==> Agrees(m, call)
  {
    match call.op
    case Enqueue(_, _, _, _) => EnqueueRefines(m, r, max, call);
    case DequeueDue(_) => ClaimRefines(m, r, max, call);
    case MarkSucceeded(_) => SucceedRefines(m, r, max, call);
    case MarkFailed(_, _) => FailRefines(m, r, max, call);
    case DequeueStalled(_) => RecoverRefines(m, r, max, call);
  }

  // --- Whole runs ----------------------------------------------------------

  ghost predicate RedisStepAt(max: nat, calls: seq<Call>, redis: seq<Redis>, n: nat) {
    n < |calls| && n + 1 < |redis| && redis[n + 1] == ApplyRedis(redis[n], max, calls[n])
  }

  ghost predicate IsRedisRun(max: nat, calls: seq<Call>, redis: seq<Redis>) {
    && |redis| == |calls| + 1
    && redis[0] == Redis(map[], map[], map[])
    && forall n :: 0 <= n < |calls| ==> RedisStepAt(max, calls, redis, n)
  }

  /** Every sequence of calls has its Redis run. */
  function RedisStates(max: nat, calls: seq<Call>): (redis: seq<Redis>)
    ensures IsRedisRun(max, calls, redis)
  {
    if calls == [] then [Redis(map[], map[], map[])]
    else
      var n := |calls| - 1;
      var before := RedisStates(max, calls[..n]);
      var redis := before + [ApplyRedis(before[n], max, calls[n])];
      assert forall k :: 0 <= k < n ==> RedisStepAt(max, calls[..n], before, k) ==> RedisStepAt(max, calls, redis, k);
      assert RedisStepAt(max, calls, redis, n);
      redis
  }

  ghost predicate AgreesAt(calls: seq<Call>, states: seq<Store>, n: nat) {
    n < |calls| && n < |states| && Agrees(states[n], calls[n])
  }

  /** The queues stay in step through every prefix of a run whose calls agree. */
  lemma {:induction false} RunRefines(max: nat, calls: seq<Call>, states: seq<Store>, redis: seq<Redis>, n: nat)
    requires IsRun(max, calls, states) && IsRedisRun(max, calls, redis)
    requires n <= |calls| && forall k :: 0 <= k < n ==> AgreesAt(calls, states, k)
    ensures Refines(states[n], redis[n])
  {
    if n == 0 {
      assert forall id :: RefinesAt(states[0], redis[0], id);
    } else {
      RunRefines(max, calls, states, redis, n - 1);
      assert StepAt(max, calls, states, n - 1) && RedisStepAt(max, calls, redis, n - 1);
      assert AgreesAt(calls, states, n - 1);
      StepRefines(states[n - 1], redis[n - 1], max, calls[n - 1]);
    }
  }

  /** Outcomes are reported for running (or unknown) jobs, within the representable time range. */
  ghost predicate ReportsRunning(calls: seq<Call>, states: seq<Store>, n: nat) {
    n < |calls| && n < |states| &&
    match calls[n].op
    case MarkSucceeded(id) => id in states[n] ==> states[n][id].status.Running?
    case MarkFailed(id, _) =>
      MIN_TIME <= calls[n].now <= MAX_TIME - MAX_BACKOFF && (id in states[n] ==> states[n][id].status.Running?)
    case _ => true
  }

  /** Fresh ids and reports on running jobs only are enough for every call to agree. */
  lemma RunningReportsAgree(max: nat, calls: seq<Call>, states: seq<Store>, n: nat)
    requires max >= 1
    requires IsRun(max, calls, states) && FreshIds(calls, states)
    requires n < |calls| && ReportsRunning(calls, states, n)
    ensures AgreesAt(calls, states, n)
  {
    assert FreshAt(calls, states, n);
    if calls[n].op.MarkFailed? && calls[n].op.id in states[n] {
      AttemptsAreClaims(max, calls, states, n, calls[n].op.id);
    }
  }

  /** Both queues claim the same ids in the same order and recover the same set. */
  lemma RunRepliesAgree(max: nat, calls: seq<Call>, states: seq<Store>, redis: seq<Redis>, n: nat)
    requires max >= 1
    requires IsRun(max, calls, states) && IsRedisRun(max, calls, redis) && FreshIds(calls, states)
    requires n < |calls| && forall k :: 0 <= k < n ==> ReportsRunning(calls, states, k)
    ensures Refines(states[n], redis[n])
    ensures forall now, limit :: ZRangeByScore(redis[n].due, now, limit) == ClaimOrder(states[n], now, limit)
    ensures forall now, stallAfter, id ::
      id in StalledMembers(redis[n], stallAfter, now) <==> id in StalledIds(states[n], stallAfter, now)
  {
    forall k | 0 <= k < n ensures AgreesAt(calls, states, k) { RunningReportsAgree(max, calls, states, k); }
    RunRefines(max, calls, states, redis, n);
    forall now, limit ensures ZRangeByScore(redis[n].due, now, limit) == ClaimOrder(states[n], now, limit) {
      SameClaimOrder(states[n], redis[n], now, limit);
    }
    forall now, stallAfter
      ensures forall id :: id in StalledMembers(redis[n], stallAfter, now) <==> id in StalledIds(states[n], stallAfter, now)
    {
      SameStalled(states[n], redis[n], stallAfter, now);
    }
  }

  /** Why the condition on success reports is needed: a queued job reported as
      succeeded stays in `due`, so Redis hands it out again and memory does not. */
  lemma SucceededWhileQueuedIsClaimedAgain(m: Store, r: Redis, id: JobId, now: int)
    requires Refines(m, r) && id in m && m[id].status.Queued? && m[id].runAt <= now
    ensures id in ZRangeByScore(SucceedScript(r, id).due, now, None)
    ensures id !in ClaimOrder(Succeed(m, id), now, None)
  {
    SameClaimOrder(m, r, now, None);
    DueIsClaimed(m, now, id);
  }

  // --- The stored run_at field ---------------------------------------------

  /** `hash_to_job`: the job as decoded from its hash. */
  function DecodeHash(id: JobId, h: JobHash): Job {
    Job(id, h.kind, h.payload, h.runAt, h.attempts, h.maxAttempts, h.status, h.createdAt, h.lastError)
  }

  /** Ids whose latest (re)queueing in the first `n` calls was a failed attempt. */
  ghost function Retried(calls: seq<Call>, states: seq<Store>, n: nat): set<JobId>
    requires n <= |calls| && n <= |states|
  {
    if n == 0 then {}
    else RetriedNext(Retried(calls, states, n - 1), states[n - 1], calls[n - 1])
  }

  ghost function RetriedNext(retried: set<JobId>, m: Store, call: Call): set<JobId> {
    match call.op
    case Enqueue(id, _, _, _) => retried - {id}
    case MarkFailed(id, _) => if id in m && m[id].attempts < m[id].maxAttempts then retried + {id} else retried
    case DequeueStalled(stallAfter) => retried - StalledIds(m, stallAfter, call.now)
    case _ => retried
  }

  /** The field lags the score exactly for retried jobs, and never passes the clock once claimed. */
  ghost predicate Stamped(job: Job, h: JobHash, retried: bool, clock: int) {
    && h.runAt <= job.runAt
    && (h.runAt == job.runAt <==> !retried)
    && (job.attempts >= 1 ==> h.runAt <= clock)
  }

  lemma StampClaim(m: Store, r: Redis, ids: seq<JobId>, id: JobId, retried: bool, clock: int, now: int)
    requires RefinesAt(m, r, id) && id in m && Stamped(m[id], r.hashes[id], retried, clock)
    requires clock <= now && (id in ids ==> m[id].runAt <= now)
    ensures Stamped(Claim(m, ids)[id], ClaimScript(r, ids).hashes[id], retried, now)
  {
  }

  lemma StampFail(m: Store, r: Redis, call: Call, id: JobId, retried: set<JobId>, clock: int)
    requires call.op.MarkFailed? && Agrees(m, call) && clock <= call.now
    requires RefinesAt(m, r, id) && id in m && Stamped(m[id], r.hashes[id], id in retried, clock)
    ensures var m', r' := Fail(m, call.op.id, call.op.reason, call.now), FailScript(r, call.op.id, call.op.reason, call.now);
      id in r'.hashes && Stamped(m'[id], r'.hashes[id], id in RetriedNext(retried, m, call), call.now)
  {
  }

  lemma StampRecover(m: Store, r: Redis, ids: seq<JobId>, stalled: set<JobId>, id: JobId, retried: set<JobId>, clock: int, now: int)
    requires RefinesAt(m, r, id) && id in m && Stamped(m[id], r.hashes[id], id in retried, clock)
    requires clock <= now && (id in ids <==> id in stalled)
    ensures Stamped(Recover(m, stalled, now)[id], RecoverScript(r, ids, now).hashes[id], id in retried - stalled, now)
  {
  }

  lemma StampStep(m: Store, r: Redis, max: nat, call: Call, id: JobId, retried: set<JobId>, clock: int)
    requires Refines(m, r) && Agrees(m, call) && clock <= call.now
    requires id in m && id in r.hashes && Stamped(m[id], r.hashes[id], id in retried, clock)
    requires call.op.Enqueue? ==> call.op.id !in m
    ensures var m', r' := Apply(m, max, call), ApplyRedis(r, max, call);
      id in m' && id in r'.hashes && Stamped(m'[id], r'.hashes[id], id in RetriedNext(retried, m, call), call.now)
  {
    assert RefinesAt(m, r, id);
    match call.op
    case DequeueDue(limit) =>
      SameClaimOrder(m, r, call.now, limit);
      StampClaim(m, r, ClaimOrder(m, call.now, limit), id, id in retried, clock, call.now);
    case DequeueStalled(stallAfter) =>
      SameStalled(m, r, stallAfter, call.now);
      StampRecover(m, r, StalledMembers(r, stallAfter, call.now), StalledIds(m, stallAfter, call.now),
                   id, retried, clock, call.now);
    case MarkFailed(_, _) => StampFail(m, r, call, id, retried, clock);
    case Enqueue(_, _, _, _) =>
    case MarkSucceeded(_) =>
  }

  lemma StampNew(m: Store, r: Redis, max: nat, call: Call, retried: set<JobId>)
    requires call.op.Enqueue?
    ensures var m', r' := Apply(m, max, call), ApplyRedis(r, max, call);
      Stamped(m'[call.op.id], r'.hashes[call.op.id], call.op.id in RetriedNext(retried, m, call), call.now)
  {
  }

  lemma StampAfter(m: Store, r: Redis, max: nat, call: Call, id: JobId, retried: set<JobId>, clock: int)
    requires Refines(m, r) && Agrees(m, call) && (call.op.Enqueue? ==> call.op.id !in m)
    requires id in m ==> clock <= call.now && id in r.hashes && Stamped(m[id], r.hashes[id], id in retried, clock)
    requires id in Apply(m, max, call)
    ensures var m', r' := Apply(m, max, call), ApplyRedis(r, max, call);
      id in r'.hashes && Stamped(m'[id], r'.hashes[id], id in RetriedNext(retried, m, call), call.now)
  {
    if id in m {
      StampStep(m, r, max, call, id, retried, clock);
    } else {
      AbsentStep(m, max, call, id);
      StampNew(m, r, max, call, retried);
    }
  }

  /** Step `n` keeps the queues in step under a clock that does not go back. */
  ghost predicate InStepAt(max: nat, calls: seq<Call>, states: seq<Store>, redis: seq<Redis>, n: nat) {
    && StepAt(max, calls, states, n) && RedisStepAt(max, calls, redis, n)
    && FreshAt(calls, states, n) && AgreesAt(calls, states, n)
    && Refines(states[n], redis[n])
    && (n > 0 ==> calls[n - 1].now <= calls[n].now)
  }

  lemma {:induction false} RunStamped(
    max: nat, calls: seq<Call>, states: seq<Store>, redis: seq<Redis>, n: nat, id: JobId)
    requires IsRun(max, calls, states) && IsRedisRun(max, calls, redis)
    requires 0 < n <= |calls| && id in states[n]
    requires forall k :: 0 <= k < n ==> InStepAt(max, calls, states, redis, k)
    ensures id in redis[n].hashes
    ensures Stamped(states[n][id], redis[n].hashes[id], id in Retried(calls, states, n), calls[n - 1].now)
  {
    var k := n - 1;
    assert InStepAt(max, calls, states, redis, k);
    if id in states[k] { RunStamped(max, calls, states, redis, k, id); }
    StampAfter(states[k], redis[k], max, calls[k], id, Retried(calls, states, k), if k > 0 then calls[k - 1].now else 0);
  }

  /**
   A claimed job reads the same from Redis as from memory except for its
   `run_at`, which is the same exactly when the job was not queued by a retry.
   */
  lemma ClaimedJobReadsSameUnlessRetried(
    max: nat, calls: seq<Call>, states: seq<Store>, redis: seq<Redis>, n: nat, id: JobId)
    requires IsRun(max, calls, states) && IsRedisRun(max, calls, redis) && FreshIds(calls, states)
    requires n < |calls| && ClaimsAt(calls, states, n, id)
    requires max >= 1
    requires forall k :: 0 <= k <= n ==> AgreesAt(calls, states, k)
    requires forall k :: 0 < k <= n ==> calls[k - 1].now <= calls[k].now
    ensures id in states[n + 1] && id in redis[n + 1].hashes
    ensures var job, read := states[n + 1][id], DecodeHash(id, redis[n + 1].hashes[id]);
      read.(runAt := job.runAt) == job && (read == job <==> id !in Retried(calls, states, n))
  {
    ClaimedIsThere(max, calls, states, redis, n, id);
    ClaimedIsStamped(max, calls, states, redis, n, id);
    JobHasOwnId(max, calls, states, n + 1, id);
    ReadsSame(states[n + 1][id], redis[n + 1].hashes[id], id, id in Retried(calls, states, n), calls[n].now);
  }

  lemma JobHasOwnId(max: nat, calls: seq<Call>, states: seq<Store>, n: nat, id: JobId)
    requires max >= 1 && IsRun(max, calls, states) && FreshIds(calls, states) && n <= |calls| && id in states[n]
    ensures states[n][id].id == id
  {
    AttemptsAreClaims(max, calls, states, n, id);
  }

  lemma ClaimedIsThere(max: nat, calls: seq<Call>, states: seq<Store>, redis: seq<Redis>, n: nat, id: JobId)
    requires IsRun(max, calls, states) && IsRedisRun(max, calls, redis)
    requires n < |calls| && ClaimsAt(calls, states, n, id)
    requires forall k :: 0 <= k <= n ==> AgreesAt(calls, states, k)
    ensures id in states[n + 1] && id in redis[n + 1].hashes && SameJob(states[n + 1][id], redis[n + 1].hashes[id])
  {
    RunRefines(max, calls, states, redis, n + 1);
    assert StepAt(max, calls, states, n);
    PresentStep(states[n], max, calls[n], id);
    assert RefinesAt(states[n + 1], redis[n + 1], id);
  }

  lemma ClaimedIsStamped(max: nat, calls: seq<Call>, states: seq<Store>, redis: seq<Redis>, n: nat, id: JobId)
    requires IsRun(max, calls, states) && IsRedisRun(max, calls, redis) && FreshIds(calls, states)
    requires n < |calls| && calls[n].op.DequeueDue? && id in states[n + 1] && id in redis[n + 1].hashes
    requires forall k :: 0 <= k <= n ==> AgreesAt(calls, states, k)
    requires forall k :: 0 < k <= n ==> calls[k - 1].now <= calls[k].now
    ensures Stamped(states[n + 1][id], redis[n + 1].hashes[id], id in Retried(calls, states, n), calls[n].now)
  {
    RunInStep(max, calls, states, redis, n);
    RunStamped(max, calls, states, redis, n + 1, id);
    assert Retried(calls, states, n + 1) == Retried(calls, states, n);
  }

  lemma RunInStep(max: nat, calls: seq<Call>, states: seq<Store>, redis: seq<Redis>, n: nat)
    requires IsRun(max, calls, states) && IsRedisRun(max, calls, redis) && FreshIds(calls, states)
    requires n < |calls| && forall k :: 0 <= k <= n ==> AgreesAt(calls, states, k)
    requires forall k :: 0 < k <= n ==> calls[k - 1].now <= calls[k].now
    ensures forall k :: 0 <= k <= n ==> InStepAt(max, calls, states, redis, k)
  {
    forall k | 0 <= k <= n ensures InStepAt(max, calls, states, redis, k) {
      assert StepAt(max, calls, states, k) && RedisStepAt(max, calls, redis, k);
      assert FreshAt(calls, states, k) && AgreesAt(calls, states, k);
      RunRefines(max, calls, states, redis, k);
    }
  }

  lemma ReadsSame(job: Job, h: JobHash, id: JobId, retried: bool, clock: int)
    requires job.id == id && SameJob(job, h) && Stamped(job, h, retried, clock)
    ensures var read := DecodeHash(id, h); read.(runAt := job.runAt) == job && (read == job <==> !retried)
  {
  }

  /** A job on its first attempt, as both queues hold it just after the claim at time 0. */
  function FirstAttempt(): (Store, Redis) {
    (map[7 := Job(7, "mail", "{}", 0, 1, 5, Running, 0, None)],
     Redis(map[7 := JobHash("mail", "{}", 0, 1, 5, Running, 0, None)], map[], map[7 := 0]))
  }

  /** Failed at 0 and claimed again at 1000, it reads run time 1000 from memory and 0 from Redis. */
  lemma RetryReadsStaleRunAt()
    ensures var (m, r) := FirstAttempt();
      var m1, r1 := Fail(m, 7, "boom", 0), FailScript(r, 7, "boom", 0);
      var ids := ClaimOrder(m1, 1000, None);
      && Refines(m, r) && Refines(m1, r1) && ids == ZRangeByScore(r1.due, 1000, None)
      && 7 in ids && Claim(m1, ids)[7].runAt == 1000 && ClaimScript(r1, ids).hashes[7].runAt == 0
  {
    var (m, r) := FirstAttempt();
    assert Refines(m, r) by { assert forall id :: RefinesAt(m, r, id); }
    var call := Call(0, MarkFailed(7, "boom"));
    assert BackoffMillis(1) == 1000;
    StepRefines(m, r, 5, call);
    var m1, r1 := Apply(m, 5, call), ApplyRedis(r, 5, call);
    DueIsClaimed(m1, 1000, 7);
    SameClaimOrder(m1, r1, 1000, None);
  }

  // --- The scripts as they run ---------------------------------------------

  lemma ClaimScriptNext(r: Redis, ids: seq<JobId>, id: JobId)
    requires id !in ids && id in r.due && id in r.hashes
    ensures var s := ClaimScript(r, ids);
      && id in s.hashes && id in s.due && s.due[id] == r.due[id]
      && ClaimScript(r, ids + [id]) ==
           Redis(s.hashes[id := StartedHash(s.hashes[id])], s.due - {id}, s.run[id := r.due[id]])
  {
    var s, t := ClaimScript(r, ids), ClaimScript(r, ids + [id]);
    assert t.hashes == s.hashes[id := StartedHash(s.hashes[id])];
    assert t.due == s.due - {id};
    assert t.run == s.run[id := r.due[id]];
  }

  lemma RecoverScriptNext(r: Redis, ids: seq<JobId>, id: JobId, now: int)
    requires id !in ids && id in r.run && id in r.hashes
    ensures var s := RecoverScript(r, ids, now);
      && id in s.hashes
      && RecoverScript(r, ids + [id], now) ==
           Redis(s.hashes[id := RequeuedHash(s.hashes[id], now)], s.due[id := now], s.run - {id})
  {
    var s, t := RecoverScript(r, ids, now), RecoverScript(r, ids + [id], now);
    assert t.hashes == s.hashes[id := RequeuedHash(s.hashes[id], now)];
    assert t.due == s.due[id := now];
    assert t.run == s.run - {id};
  }

  /** The keys one queue owns in Redis; each method is one atomic script or pipeline. */
  class RedisJobQueue {
    const defaultMaxAttempts: nat
    var hashes: map<JobId, JobHash>
    var due: SortedSet
    var run: SortedSet

    ghost function Db(): Redis
      reads this
    {
      Redis(hashes, due, run)
    }

    constructor WithMaxAttempts(maxAttempts: nat)
      ensures Db() == Redis(map[], map[], map[]) && defaultMaxAttempts == Max(maxAttempts, 1)
    {
      defaultMaxAttempts := Max(maxAttempts, 1);
      hashes, due, run := map[], map[], map[];
    }

    method Insert(id: JobId, kind: string, payload: string, runAt: int, now: int)
      modifies this
      ensures Db() == InsertJob(old(Db()), defaultMaxAttempts, id, kind, payload, runAt, now)
    {
      var kept := if id in hashes then hashes[id].lastError else None;
      hashes := hashes[id := JobHash(kind, payload, runAt, 0, defaultMaxAttempts, Queued, now, kept)];
      due := due[id := runAt];
    }

    method RunClaim(now: int, limit: Option<nat>) returns (claimed: seq<JobId>)
      requires Indexed(Db())
      modifies this
      ensures claimed == old(ZRangeByScore(due, now, limit))
      ensures Db() == ClaimScript(old(Db()), claimed)
    {
      var items := ZRangeByScore(due, now, limit);
      MoveToRun(items);
      claimed := items;
    }

    /** The script's loop over the range it read. */
    method MoveToRun(items: seq<JobId>)
      requires Indexed(Db()) && Distinct(items)
      requires forall i :: 0 <= i < |items| ==> items[i] in due
      modifies this
      ensures Db() == ClaimScript(old(Db()), items)
    {
      ghost var before := Db();
      for i := 0 to |items|
        invariant Db() == ClaimScript(before, items[..i])
      {
        var id := items[i];
        assert id !in items[..i];
        ClaimScriptNext(before, items[..i], id);
        assert items[..i + 1] == items[..i] + [id];
        var score := due[id];
        due := due - {id};
        run := run[id := score];
        hashes := hashes[id := hashes[id].(status := Running, attempts := hashes[id].attempts + 1)];
      }
      assert items[..|items|] == items;
    }

    method RunSucceed(id: JobId) returns (existed: bool)
      modifies this
      ensures existed == (id in old(hashes))
      ensures Db() == SucceedScript(old(Db()), id)
    {
      if id !in hashes { return false; }
      hashes := hashes[id := hashes[id].(status := Succeeded, lastError := None)];
      run := run - {id};
      return true;
    }

    method RunFail(id: JobId, reason: string, now: int) returns (existed: bool)
      modifies this
      ensures existed == (id in old(hashes))
      ensures Db() == FailScript(old(Db()), id, reason, now)
    {
      if id !in hashes { return false; }
      var h := hashes[id].(lastError := Some(reason));
      run := run - {id};
      if h.attempts >= h.maxAttempts {
        hashes := hashes[id := h.(status := Failed)];
      } else {
        hashes := hashes[id := h.(status := Queued)];
        due := due[id := now + ScriptBackoff(h.attempts)];
      }
      return true;
    }

    method RunRecover(stallAfter: int, now: int) returns (recovered: seq<JobId>)
      requires Indexed(Db())
      modifies this
      ensures recovered == old(StalledMembers(Db(), stallAfter, now))
      ensures Db() == RecoverScript(old(Db()), recovered, now)
    {
      var ids := ZRangeByScore(run, now - stallAfter - 1, None);
      MoveToDue(ids, now);
      recovered := ids;
    }

    method MoveToDue(ids: seq<JobId>, now: int)
      requires Indexed(Db()) && Distinct(ids)
      requires forall i :: 0 <= i < |ids| ==> ids[i] in run
      modifies this
      ensures Db() == RecoverScript(old(Db()), ids, now)
    {
      ghost var before := Db();
      assert Db() == RecoverScript(before, [], now);
      for i := 0 to |ids|
        invariant Db() == RecoverScript(before, ids[..i], now)
      {
        var id := ids[i];
        assert id !in ids[..i];
        RecoverScriptNext(before, ids[..i], id, now);
        assert ids[..i + 1] == ids[..i] + [id];
        run := run - {id};
        due := due[id := now];
        hashes := hashes[id := hashes[id].(status := Queued, runAt := now)];
      }
      assert ids[..|ids|] == ids;
    }
  }
}
