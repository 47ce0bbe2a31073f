/** `InMemoryJobQueue` as a mutable object refining the store of module `Jobs`. */
module JobQueue {
  import opened Text
  import opened Numbers
  import opened Jobs

  datatype Outcome = Done | JobNotFound

  /** The started jobs as handed to the caller, in claim order. */
  function Snapshots(jobs: Store, order: seq<JobId>): (claimed: seq<Job>)
    requires forall i :: 0 <= i < |order| ==> order[i] in jobs
    ensures |claimed| == |order|
    ensures forall i :: 0 <= i < |order| ==> claimed[i] == Started(jobs[order[i]])
  {
    seq(|order|, i requires 0 <= i < |order| => Started(jobs[order[i]]))
  }

  /** `order` lists each member of `ids` once. */
  ghost predicate Enumerates(order: seq<JobId>, ids: set<JobId>) {
    |order| == |ids| && forall id :: id in order <==> id in ids
  }

  /** The recovered jobs as handed to the caller; ids outside `jobs` are skipped. */
  function Copies(jobs: Store, order: seq<JobId>, now: int): (copies: seq<Job>) {
    if order == [] then []
    else
      var n := |order| - 1;
      Copies(jobs, order[..n], now) + if order[n] in jobs then [Requeued(jobs[order[n]], now)] else []
  }

  /** Each recovered job is handed out once, queued for now with its attempts kept. */
  lemma {:induction false} CopiesMeaning(jobs: Store, order: seq<JobId>, now: int, i: nat)
    requires forall j :: 0 <= j < |order| ==> order[j] in jobs
    ensures |Copies(jobs, order, now)| == |order|
    ensures i < |order| ==> var was, copy := jobs[order[i]], Copies(jobs, order, now)[i];
      && SameOrigin(copy, was) && copy.status == Queued && copy.runAt == now
      && copy.attempts == was.attempts && copy.lastError == was.lastError
  {
    if order != [] {
      var n := |order| - 1;
      CopiesMeaning(jobs, order[..n], now, i);
    }
  }

  /** State of the recovery sweep when the ids in `todo` are still unvisited. */
  ghost predicate Swept(before: Store, stalled: set<JobId>, now: int, todo: set<JobId>,
                        jobs: Store, recovered: seq<Job>, order: seq<JobId>) {
    && jobs == Recover(before, stalled - todo, now)
    && Enumerates(order, stalled - todo)
    && recovered == Copies(before, order, now)
  }

  lemma SweepHit(before: Store, stalled: set<JobId>, now: int, todo: set<JobId>, id: JobId,
                 jobs: Store, recovered: seq<Job>, order: seq<JobId>)
    requires Swept(before, stalled, now, todo, jobs, recovered, order)
    requires id in todo && id in before && id in stalled
    ensures Swept(before, stalled, now, todo - {id}, jobs[id := Requeued(before[id], now)],
                  recovered + [Requeued(before[id], now)], order + [id])
  {
    assert stalled - (todo - {id}) == (stalled - todo) + {id};
    RecoverOneMore(before, stalled - todo, id, now);
    assert (order + [id])[..|order|] == order;
  }

  lemma SweepMiss(before: Store, stalled: set<JobId>, now: int, todo: set<JobId>, id: JobId,
                  jobs: Store, recovered: seq<Job>, order: seq<JobId>)
    requires Swept(before, stalled, now, todo, jobs, recovered, order)
    requires id !in stalled
    ensures Swept(before, stalled, now, todo - {id}, jobs, recovered, order)
  {
    assert stalled - (todo - {id}) == stalled - todo;
  }

  class InMemoryJobQueue {
    const defaultMaxAttempts: nat
    var jobs: Store

    constructor WithMaxAttempts(maxAttempts: nat)
      ensures jobs == map[] && defaultMaxAttempts == Max(maxAttempts, 1)
    {
      defaultMaxAttempts := Max(maxAttempts, 1);
      jobs := map[];
    }

    /** `id` is the identifier minted for the job; `now` is the clock reading. */
    method Schedule(id: JobId, kind: string, payload: string, runAt: int, now: int) returns (job: Job)
      modifies this
      ensures job == NewJob(id, kind, payload, runAt, now, defaultMaxAttempts)
      ensures jobs == old(jobs)[id := job]
    {
      job := Job(id, kind, payload, runAt, 0, defaultMaxAttempts, Queued, now, None);
      jobs := jobs[id := job];
    }

    method DequeueDue(limit: Option<nat>, now: int) returns (claimed: seq<Job>)
      modifies this
      ensures jobs == Claim(old(jobs), ClaimOrder(old(jobs), now, limit))
      ensures claimed == Snapshots(old(jobs), ClaimOrder(old(jobs), now, limit))
    {
      var due := ClaimOrder(jobs, now, limit);
      claimed := StartAll(due);
    }

    /** The loop over the ids just collected: start each job and copy it out. */
    method StartAll(due: seq<JobId>) returns (claimed: seq<Job>)
      requires forall i :: 0 <= i < |due| ==> due[i] in jobs
      requires forall i, j :: 0 <= i < j < |due| ==> due[i] != due[j]
      modifies this
      ensures jobs == Claim(old(jobs), due)
      ensures claimed == Snapshots(old(jobs), due)
    {
      ghost var before := jobs;
      claimed := [];
      for i := 0 to |due|
        invariant jobs == Claim(before, due[..i])
        invariant claimed == Snapshots(before, due[..i])
      {
        var id := due[i];
        assert id !in due[..i] && jobs[id] == before[id];
        var job := jobs[id].(status := Running, attempts := jobs[id].attempts + 1);
        assert due[..i + 1] == due[..i] + [id];
        ClaimOneMore(before, due[..i], id);
        jobs := jobs[id := job];
        claimed := claimed + [job];
      }
      assert due[..|due|] == due;
    }

    method MarkSucceeded(id: JobId) returns (r: Outcome)
      modifies this
      ensures r == if id in old(jobs) then Done else JobNotFound
      ensures jobs == Succeed(old(jobs), id)
    {
      if id !in jobs { return JobNotFound; }
      jobs := jobs[id := jobs[id].(status := Succeeded, lastError := None)];
      return Done;
    }

    method MarkFailed(id: JobId, reason: string, now: int) returns (r: Outcome)
      modifies this
      ensures r == if id in old(jobs) then Done else JobNotFound
      ensures jobs == Fail(old(jobs), id, reason, now)
    {
      if id !in jobs { return JobNotFound; }
      var job := jobs[id].(lastError := Some(reason));
      if job.attempts >= job.maxAttempts {
        job := job.(status := Failed);
      } else {
        var at := CheckedAdd(now, BackoffMillis(job.attempts));
        job := job.(runAt := if at.Some? then at.value else now, status := Queued);
      }
      jobs := jobs[id := job];
      return Done;
    }

    /** The map is visited in no particular order; `order` names the one taken. */
    method DequeueStalled(stallAfter: int, now: int) returns (recovered: seq<Job>, ghost order: seq<JobId>)
      modifies this
      ensures jobs == Recover(old(jobs), StalledIds(old(jobs), stallAfter, now), now)
      ensures Enumerates(order, StalledIds(old(jobs), stallAfter, now))
      ensures recovered == Copies(old(jobs), order, now)
    {
      ghost var before, stalled := jobs, StalledIds(jobs, stallAfter, now);
      recovered, order := [], [];
      var todo := jobs.Keys;
      while todo != {}
        invariant todo <= before.Keys
        invariant Swept(before, stalled, now, todo, jobs, recovered, order)
        decreases todo
      {
        var id :| id in todo;
        assert id in jobs && jobs[id] == before[id];
        if jobs[id].status == Running && now - jobs[id].runAt > stallAfter {
          SweepHit(before, stalled, now, todo, id, jobs, recovered, order);
          var job := jobs[id].(status := Queued, runAt := now);
          jobs := jobs[id := job];
          recovered, order := recovered + [job], order + [id];
        } else {
          SweepMiss(before, stalled, now, todo, id, jobs, recovered, order);
        }
        todo := todo - {id};
      }
      assert stalled - todo == stalled;
    }
  }
}
