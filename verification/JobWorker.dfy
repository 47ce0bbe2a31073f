/** `JobWorker::run_once`: claim a batch, run the handler, report every outcome. */
module JobWorker {
  import opened Text
  import opened Ordering
  import opened Numbers
  import opened Jobs
  import opened JobQueue

  /** What one handler run returned: success, or the reason for failure. */
  type Handled = Option<string>

  function Reported(job: Job, handled: Handled, now: int): Job {
    if handled.None? then Finished(job) else AfterFailure(job, handled.value, now)
  }

  /** The store once the first `n` claimed jobs are reported; job `i` is handled
      as `handled(i)` says and reported at `clock(i)`. */
  function ReportFirst(jobs: Store, order: seq<JobId>, handled: nat -> Handled, clock: nat -> int, n: nat): Store
    requires n <= |order|
  {
    if n == 0 then jobs
    else
      var before := ReportFirst(jobs, order, handled, clock, n - 1);
      var id := order[n - 1];
      if id in before then before[id := Reported(before[id], handled(n - 1), clock(n - 1))] else before
  }

  /** One worker pass. */
  function Pass(jobs: Store, now: int, batch: nat, handled: nat -> Handled, clock: nat -> int): Store {
    var order := ClaimOrder(jobs, now, Some(batch));
    ReportFirst(Claim(jobs, order), order, handled, clock, |order|)
  }

  /** Every job is stored under its own id. */
  ghost predicate Keyed(jobs: Store) {
    forall id :: id in jobs ==> jobs[id].id == id
  }

  method RunOnce(queue: InMemoryJobQueue, batch: nat, now: int, handled: nat -> Handled, clock: nat -> int)
    returns (processed: nat, r: Outcome)
    requires Keyed(queue.jobs)
    modifies queue
    ensures queue.jobs == Pass(old(queue.jobs), now, batch, handled, clock)
    ensures processed == |ClaimOrder(old(queue.jobs), now, Some(batch))|
    ensures r == Done
  {
    ghost var order := ClaimOrder(queue.jobs, now, Some(batch));
    var jobs := queue.DequeueDue(Some(batch), now);
    r := ReportLoop(queue, jobs, order, handled, clock);
    processed := |jobs|;
  }

  /** The loop over the claimed jobs. */
  method ReportLoop(queue: InMemoryJobQueue, jobs: seq<Job>, ghost order: seq<JobId>,
                    handled: nat -> Handled, clock: nat -> int) returns (r: Outcome)
    requires |order| == |jobs|
    requires forall i :: 0 <= i < |jobs| ==> order[i] == jobs[i].id && jobs[i].id in queue.jobs
    modifies queue
    ensures queue.jobs == ReportFirst(old(queue.jobs), order, handled, clock, |order|)
    ensures r == Done
  {
    r := Done;
    for i := 0 to |jobs|
      invariant r == Done
      invariant queue.jobs == ReportFirst(old(queue.jobs), order, handled, clock, i)
      invariant queue.jobs.Keys == old(queue.jobs).Keys
    {
      var outcome := handled(i);
      if outcome.None? {
        r := queue.MarkSucceeded(jobs[i].id);
      } else {
        r := queue.MarkFailed(jobs[i].id, outcome.value, clock(i));
      }
      if r.JobNotFound? { return; }
    }
  }

  // --- What a pass achieves ------------------------------------------------

  /** Between passes of a sole worker nothing runs and every queued job has an attempt left. */
  ghost predicate Settled(jobs: Store) {
    forall id :: id in jobs ==>
      !jobs[id].status.Running? && (jobs[id].status.Queued? ==> jobs[id].attempts < jobs[id].maxAttempts)
  }

  /** Attempts a job may still use. */
  function Weight(job: Job): nat {
    if job.status.Queued? || job.status.Running? then Max(job.maxAttempts - job.attempts, 0) else 0
  }

  ghost function Remaining(jobs: Store): nat {
    if jobs == map[] then 0
    else
      var id :| id in jobs;
      Weight(jobs[id]) + Remaining(jobs - {id})
  }

  lemma {:induction false} RemainingExtract(jobs: Store, id: JobId)
    requires id in jobs
    ensures Remaining(jobs) == Weight(jobs[id]) + Remaining(jobs - {id})
    decreases |jobs|
  {
    var first :| first in jobs && Remaining(jobs) == Weight(jobs[first]) + Remaining(jobs - {first});
    if first != id {
      RemainingExtract(jobs - {first}, id);
      RemainingExtract(jobs - {id}, first);
      assert jobs - {first} - {id} == jobs - {id} - {first};
    }
  }

  /** If each job in `spent` lost at least one unit and none gained, so did the sums. */
  lemma {:induction false} RemainingDrops(before: Store, after: Store, spent: set<JobId>)
    requires before.Keys == after.Keys && spent <= before.Keys
    requires forall id :: id in before ==> Weight(after[id]) + (if id in spent then 1 else 0) <= Weight(before[id])
    ensures Remaining(after) + |spent| <= Remaining(before)
    decreases |before|
  {
    if before != map[] {
      var id :| id in before;
      RemainingExtract(before, id);
      RemainingExtract(after, id);
      RemainingDrops(before - {id}, after - {id}, spent - {id});
    } else {
      assert after == map[] && spent == {};
    }
  }

  function Members(order: seq<JobId>): set<JobId> {
    set id | id in order
  }

  lemma {:induction false} DistinctCount(order: seq<JobId>)
    requires Distinct(order)
    ensures |Members(order)| == |order|
  {
    if order != [] {
      var n := |order| - 1;
      DistinctCount(order[..n]);
      assert order == order[..n] + [order[n]];
      assert Members(order) == Members(order[..n]) + {order[n]};
    }
  }

  /** Reports leave other jobs alone. */
  lemma {:induction false} ReportLeaves(
    jobs: Store, order: seq<JobId>, handled: nat -> Handled, clock: nat -> int, n: nat, id: JobId)
    requires n <= |order| && forall i :: 0 <= i < n ==> order[i] != id
    ensures var after := ReportFirst(jobs, order, handled, clock, n);
      (id in after <==> id in jobs) && (id in jobs ==> after[id] == jobs[id])
  {
    if n > 0 { ReportLeaves(jobs, order, handled, clock, n - 1, id); }
  }

  /** Each reported job holds exactly its own report. */
  lemma {:induction false} ReportSets(
    jobs: Store, order: seq<JobId>, handled: nat -> Handled, clock: nat -> int, n: nat, i: nat)
    requires i < n <= |order| && Distinct(order) && order[i] in jobs
    ensures var after := ReportFirst(jobs, order, handled, clock, n);
      order[i] in after && after[order[i]] == Reported(jobs[order[i]], handled(i), clock(i))
  {
    if i == n - 1 {
      ReportLeaves(jobs, order, handled, clock, i, order[i]);
    } else {
      ReportSets(jobs, order, handled, clock, n - 1, i);
    }
  }

  /** Claiming and reporting a job with an attempt left uses one up and stops it running. */
  lemma ProcessedJob(job: Job, handled: Handled, now: int)
    requires job.status.Queued? && job.attempts < job.maxAttempts
    ensures var after := Reported(Started(job), handled, now);
      && !after.status.Running? && Weight(after) + 1 <= Weight(job)
      && (after.status.Queued? ==> after.attempts < after.maxAttempts)
  {
  }

  ghost predicate Claimable(jobs: Store, order: seq<JobId>) {
    Distinct(order) && forall i :: 0 <= i < |order| ==> order[i] in jobs && jobs[order[i]].status.Queued?
  }

  /** What processing `order` does to one job. */
  lemma ProcessedAt(jobs: Store, order: seq<JobId>, handled: nat -> Handled, clock: nat -> int, id: JobId)
    requires Settled(jobs) && Claimable(jobs, order) && id in jobs
    ensures var after := ReportFirst(Claim(jobs, order), order, handled, clock, |order|);
      && id in after && !after[id].status.Running?
      && (after[id].status.Queued? ==> after[id].attempts < after[id].maxAttempts)
      && Weight(after[id]) + (if id in Members(order) then 1 else 0) <= Weight(jobs[id])
  {
    var claimed := Claim(jobs, order);
    if id in order {
      var i :| 0 <= i < |order| && order[i] == id;
      ReportSets(claimed, order, handled, clock, |order|, i);
      ProcessedJob(jobs[id], handled(i), clock(i));
    } else {
      ReportLeaves(claimed, order, handled, clock, |order|, id);
    }
  }

  /** The job that was claimed, handled and reported, field by field. */
  ghost predicate HandledJob(was: Job, after: Job, handled: Handled, at: int) {
    && SameOrigin(after, was) && after.attempts == was.attempts + 1
    && match handled
       case None => after.status == Succeeded && after.lastError == None && after.runAt == was.runAt
       case Some(reason) =>
         && after.lastError == Some(reason)
         && (after.status == Failed <==> was.attempts + 1 >= was.maxAttempts)
         && (after.status != Failed ==>
               var due := at + BackoffMillis(was.attempts + 1);
               after.status == Queued && after.runAt == if MIN_TIME <= due <= MAX_TIME then due else at)
  }

  /** A pass gives each claimed job the outcome its handler returned, reported at
      its own time, and leaves every other job alone. */
  lemma PassOutcomes(jobs: Store, now: int, batch: nat, handled: nat -> Handled, clock: nat -> int)
    ensures var order, after := ClaimOrder(jobs, now, Some(batch)), Pass(jobs, now, batch, handled, clock);
      && after.Keys == jobs.Keys
      && (forall i :: 0 <= i < |order| ==> HandledJob(jobs[order[i]], after[order[i]], handled(i), clock(i)))
      && (forall id :: id in jobs && id !in order ==> after[id] == jobs[id])
  {
    var order := ClaimOrder(jobs, now, Some(batch));
    var claimed := Claim(jobs, order);
    var after := ReportFirst(claimed, order, handled, clock, |order|);
    ReportKeys(claimed, order, handled, clock, |order|);
    forall i | 0 <= i < |order| ensures HandledJob(jobs[order[i]], after[order[i]], handled(i), clock(i)) {
      ReportSets(claimed, order, handled, clock, |order|, i);
      ReportedFields(jobs[order[i]], handled(i), clock(i));
    }
    forall id | id in jobs && id !in order ensures after[id] == jobs[id] {
      ReportLeaves(claimed, order, handled, clock, |order|, id);
    }
  }

  lemma ReportedFields(was: Job, handled: Handled, at: int)
    ensures HandledJob(was, Reported(Started(was), handled, at), handled, at)
  {
  }

  lemma {:induction false} ReportKeys(jobs: Store, order: seq<JobId>, handled: nat -> Handled, clock: nat -> int, n: nat)
    requires n <= |order|
    ensures ReportFirst(jobs, order, handled, clock, n).Keys == jobs.Keys
  {
    if n > 0 { ReportKeys(jobs, order, handled, clock, n - 1); }
  }

  lemma ProcessUsesAttempts(jobs: Store, order: seq<JobId>, handled: nat -> Handled, clock: nat -> int)
    requires Settled(jobs) && Claimable(jobs, order)
    ensures var after := ReportFirst(Claim(jobs, order), order, handled, clock, |order|);
      Settled(after) && Remaining(after) + |order| <= Remaining(jobs)
  {
    var after := ReportFirst(Claim(jobs, order), order, handled, clock, |order|);
    ReportKeys(Claim(jobs, order), order, handled, clock, |order|);
    forall id | id in jobs
      ensures id in after && !after[id].status.Running?
      ensures after[id].status.Queued? ==> after[id].attempts < after[id].maxAttempts
      ensures Weight(after[id]) + (if id in Members(order) then 1 else 0) <= Weight(jobs[id])
    {
      ProcessedAt(jobs, order, handled, clock, id);
    }
    DistinctCount(order);
    RemainingDrops(jobs, after, Members(order));
  }

  /**
   A pass leaves no claimed job running and uses up at least one remaining
   attempt per processed job.
   */
  lemma PassUsesAttempts(jobs: Store, now: int, batch: nat, handled: nat -> Handled, clock: nat -> int)
    requires Settled(jobs)
    ensures var after := Pass(jobs, now, batch, handled, clock);
      && Settled(after)
      && Remaining(after) + |ClaimOrder(jobs, now, Some(batch))| <= Remaining(jobs)
  {
    ProcessUsesAttempts(jobs, ClaimOrder(jobs, now, Some(batch)), handled, clock);
  }

  /** A new job brings `max` attempts and disturbs nothing. */
  lemma SubmitAddsAttempts(jobs: Store, max: nat, job: Job)
    requires Settled(jobs) && max >= 1 && job.id !in jobs
    requires job.status.Queued? && job.attempts == 0 && job.maxAttempts == max
    ensures Settled(jobs[job.id := job]) && Remaining(jobs[job.id := job]) == Remaining(jobs) + max
  {
    RemainingExtract(jobs[job.id := job], job.id);
    assert jobs[job.id := job] - {job.id} == jobs;
  }

  datatype PassInput = PassInput(now: int, batch: nat, handled: nat -> Handled, clock: nat -> int)

  /** The store and the number of jobs processed after a series of passes. */
  function Drain(jobs: Store, passes: seq<PassInput>): (Store, nat)
    decreases |passes|
  {
    if passes == [] then (jobs, 0)
    else
      var p := passes[0];
      var (after, processed) := Drain(Pass(jobs, p.now, p.batch, p.handled, p.clock), passes[1..]);
      (after, processed + |ClaimOrder(jobs, p.now, Some(p.batch))|)
  }

  /** What happens to a queue with a sole worker. */
  datatype Event = Submit(id: JobId, kind: string, payload: string, runAt: int, now: int) | Work(pass: PassInput)

  /** The store after some events, the jobs processed and the jobs submitted. */
  function Served(jobs: Store, max: nat, events: seq<Event>): (Store, nat, nat)
    decreases |events|
  {
    if events == [] then (jobs, 0, 0)
    else
      match events[0]
      case Submit(id, kind, payload, runAt, now) =>
        var (after, processed, submitted) := Served(jobs[id := NewJob(id, kind, payload, runAt, now, max)], max, events[1..]);
        (after, processed, submitted + 1)
      case Work(p) =>
        var (after, processed, submitted) := Served(Pass(jobs, p.now, p.batch, p.handled, p.clock), max, events[1..]);
        (after, processed + |ClaimOrder(jobs, p.now, Some(p.batch))|, submitted)
  }

  ghost predicate FreshSubmits(jobs: Store, max: nat, events: seq<Event>)
    decreases |events|
  {
    events != [] ==>
      match events[0]
      case Submit(id, kind, payload, runAt, now) =>
        id !in jobs && FreshSubmits(jobs[id := NewJob(id, kind, payload, runAt, now, max)], max, events[1..])
      case Work(p) => FreshSubmits(Pass(jobs, p.now, p.batch, p.handled, p.clock), max, events[1..])
  }

  /** Jobs processed and attempts left against the attempts there were. */
  ghost predicate Bounded(start: nat, max: nat, result: (Store, nat, nat)) {
    Settled(result.0) && result.1 + Remaining(result.0) <= start + max * result.2
  }

  lemma SubmitBounded(start: nat, max: nat, after: Store, processed: nat, submitted: nat)
    requires Bounded(start + max, max, (after, processed, submitted))
    ensures Bounded(start, max, (after, processed, submitted + 1))
  {
    OneMore(max, submitted);
  }

  /** With submissions mixed in, the jobs processed never exceed the attempts there
      were plus `max` for each job submitted. */
  lemma {:induction false} WorkIsBounded(jobs: Store, max: nat, events: seq<Event>)
    requires Settled(jobs) && max >= 1 && FreshSubmits(jobs, max, events)
    ensures Bounded(Remaining(jobs), max, Served(jobs, max, events))
    decreases |events|
  {
    if events != [] {
      match events[0]
      case Submit(id, kind, payload, runAt, now) =>
        var next := jobs[id := NewJob(id, kind, payload, runAt, now, max)];
        SubmitAddsAttempts(jobs, max, NewJob(id, kind, payload, runAt, now, max));
        WorkIsBounded(next, max, events[1..]);
        var (after, processed, submitted) := Served(next, max, events[1..]);
        SubmitBounded(Remaining(jobs), max, after, processed, submitted);
      case Work(p) =>
        PassUsesAttempts(jobs, p.now, p.batch, p.handled, p.clock);
        WorkIsBounded(Pass(jobs, p.now, p.batch, p.handled, p.clock), max, events[1..]);
    }
  }

  lemma OneMore(max: nat, n: nat)
    ensures max * (n + 1) == max * n + max
  {
  }

  /** However often a sole worker is called, it processes at most the attempts it started with. */
  lemma {:induction false} DrainTerminates(jobs: Store, passes: seq<PassInput>)
    requires Settled(jobs)
    ensures var (after, processed) := Drain(jobs, passes);
      Settled(after) && processed + Remaining(after) <= Remaining(jobs)
    decreases |passes|
  {
    if passes != [] {
      var p := passes[0];
      PassUsesAttempts(jobs, p.now, p.batch, p.handled, p.clock);
      DrainTerminates(Pass(jobs, p.now, p.batch, p.handled, p.clock), passes[1..]);
    }
  }
}
