/**
 Any number of relays draining one outbox concurrently, as interleaved steps with
 publish failures, marking failures and abandoned passes.
 */
module Relays {
  import opened Text
  import opened Outbox

  /** Where a relay is in its drain pass. */
  datatype Phase = Idle | Publishing(batch: seq<int>, done: nat) | Marking(ids: seq<int>)

  /** `log` is every id the broker received, in order. */
  datatype World = World(entries: seq<Entry>, relays: map<nat, Phase>, log: seq<int>)

  datatype Step =
    | Enqueue(batch: seq<Entry>)
    | Start(relay: nat, limit: nat)
    | Publish(relay: nat)
    | Refuse(relay: nat, delivered: bool)
    | Finish(relay: nat)
    | MarkDone(relay: nat, now: int)
    | MarkError(relay: nat, applied: bool, now: int)
    | Abandon(relay: nat)

  function PhaseOf(w: World, relay: nat): Phase {
    if relay in w.relays then w.relays[relay] else Idle
  }

  function ToMarking(ids: seq<int>): Phase { if ids == [] then Idle else Marking(ids) }

  predicate Enabled(w: World, step: Step) {
    match step
    case Enqueue(_) => true
    case Start(r, _) => PhaseOf(w, r).Idle?
    case Publish(r) => PhaseOf(w, r).Publishing? && PhaseOf(w, r).done < |PhaseOf(w, r).batch|
    case Refuse(r, _) => PhaseOf(w, r).Publishing? && PhaseOf(w, r).done < |PhaseOf(w, r).batch|
    case Finish(r) => PhaseOf(w, r).Publishing? && PhaseOf(w, r).done == |PhaseOf(w, r).batch|
    case MarkDone(r, _) => PhaseOf(w, r).Marking?
    case MarkError(r, _, _) => PhaseOf(w, r).Marking?
    case Abandon(_) => true
  }

  /** A refused publish may or may not have reached the broker, and a failed
      marking may or may not have been applied. */
  function Perform(w: World, step: Step): World
    requires Enabled(w, step)
  {
    match step
    case Enqueue(batch) => w.(entries := w.entries + batch)
    case Start(r, limit) =>
      w.(relays := w.relays[r := Publishing(EntryIds(Fetch(w.entries, limit)), 0)])
    case Publish(r) =>
      var p := PhaseOf(w, r);
      w.(log := w.log + [p.batch[p.done]], relays := w.relays[r := Publishing(p.batch, p.done + 1)])
    case Refuse(r, delivered) =>
      var p := PhaseOf(w, r);
      w.(log := if delivered then w.log + [p.batch[p.done]] else w.log,
         relays := w.relays[r := ToMarking(p.batch[..p.done])])
    case Finish(r) => w.(relays := w.relays[r := ToMarking(PhaseOf(w, r).batch)])
    case MarkDone(r, now) =>
      w.(entries := Mark(w.entries, PhaseOf(w, r).ids, now), relays := w.relays[r := Idle])
    case MarkError(r, applied, now) =>
      w.(entries := if applied then Mark(w.entries, PhaseOf(w, r).ids, now) else w.entries,
         relays := w.relays[r := Idle])
    case Abandon(r) => w.(relays := w.relays[r := Idle])
  }

  // --- Invariant -----------------------------------------------------------

  ghost predicate HasId(entries: seq<Entry>, id: int) {
    exists i :: 0 <= i < |entries| && entries[i].id == id
  }

  /** Everything older than a position of the batch was delivered or precedes it there. */
  ghost predicate AheadClear(entries: seq<Entry>, log: seq<int>, batch: seq<int>, i: nat) {
    i < |batch| && forall id :: HasId(entries, id) && id < batch[i] ==> id in log || id in batch[..i]
  }

  ghost predicate PhaseOk(w: World, p: Phase) {
    match p
    case Idle => true
    case Publishing(batch, done) =>
      && done <= |batch|
      && (forall i :: 0 <= i < |batch| ==> HasId(w.entries, batch[i]) && AheadClear(w.entries, w.log, batch, i))
      && (forall i :: 0 <= i < done ==> batch[i] in w.log)
    case Marking(ids) => forall i :: 0 <= i < |ids| ==> ids[i] in w.log
  }

  /** Nothing is delivered before every older entry has been delivered. */
  ghost predicate DeliveredInOrder(entries: seq<Entry>, log: seq<int>, i: nat) {
    i < |log| && forall id :: HasId(entries, id) && id < log[i] ==> id in log[..i]
  }

  ghost predicate MarkedDelivered(w: World, i: nat) {
    i < |w.entries| && (w.entries[i].published ==> w.entries[i].id in w.log)
  }

  ghost predicate Inv(w: World) {
    && DistinctIds(w.entries)
    && (forall i :: 0 <= i < |w.log| ==> HasId(w.entries, w.log[i]) && DeliveredInOrder(w.entries, w.log, i))
    && (forall i :: 0 <= i < |w.entries| ==> MarkedDelivered(w, i))
    && (forall r :: PhaseOk(w, PhaseOf(w, r)))
  }

  /** New entries are unpublished, have new ids, and are newer than every id
      delivered or in some relay's batch. */
  ghost predicate Orderly(w: World, batch: seq<Entry>) {
    && DistinctIds(w.entries + batch)
    && (forall i :: 0 <= i < |batch| ==> !batch[i].published)
    && (forall i, k :: 0 <= i < |batch| && 0 <= k < |w.log| ==> w.log[k] < batch[i].id)
    && (forall i, r, k :: 0 <= i < |batch| && PhaseOf(w, r).Publishing? && 0 <= k < |PhaseOf(w, r).batch| ==>
          PhaseOf(w, r).batch[k] < batch[i].id)
  }

  ghost predicate Allowed(w: World, step: Step) {
    Enabled(w, step) && (step.Enqueue? ==> Orderly(w, step.batch))
  }

  /** Enqueueing in increasing id order is orderly. */
  lemma IncreasingIsOrderly(w: World, batch: seq<Entry>)
    requires Inv(w)
    requires forall i :: 0 <= i < |batch| ==> !batch[i].published
    requires forall i, j :: 0 <= i < j < |w.entries + batch| && j >= |w.entries| ==>
      (w.entries + batch)[i].id < (w.entries + batch)[j].id
    ensures Orderly(w, batch)
  {
    var all := w.entries + batch;
    assert forall i :: 0 <= i < |batch| ==> all[|w.entries| + i] == batch[i];
    forall i, id | 0 <= i < |batch| && HasId(w.entries, id) ensures id < batch[i].id {
      var k :| 0 <= k < |w.entries| && w.entries[k].id == id;
      assert all[k] == w.entries[k];
    }
    forall r, k | PhaseOf(w, r).Publishing? && 0 <= k < |PhaseOf(w, r).batch|
      ensures HasId(w.entries, PhaseOf(w, r).batch[k])
    {
      assert PhaseOk(w, PhaseOf(w, r));
    }
    assert DistinctIds(all);
  }

  // --- Preservation --------------------------------------------------------

  ghost predicate SameIds(a: seq<Entry>, b: seq<Entry>) {
    forall id :: HasId(a, id) <==> HasId(b, id)
  }

  lemma MarkKeepsIds(entries: seq<Entry>, ids: seq<int>, now: int)
    ensures SameIds(entries, Mark(entries, ids, now))
    ensures DistinctIds(entries) ==> DistinctIds(Mark(entries, ids, now))
  {
    var after := Mark(entries, ids, now);
    assert forall i :: 0 <= i < |entries| ==> after[i].id == entries[i].id;
    forall id ensures HasId(entries, id) <==> HasId(after, id) {
      if i :| 0 <= i < |entries| && entries[i].id == id { assert after[i].id == id; }
      if i :| 0 <= i < |entries| && after[i].id == id { assert entries[i].id == id; }
    }
  }

  /** Phases stay sound while ids stay and the log grows. */
  lemma PhaseStaysOk(w: World, w': World, p: Phase)
    requires PhaseOk(w, p)
    requires SameIds(w.entries, w'.entries) && w.log <= w'.log
    ensures PhaseOk(w', p)
  {
    assert forall x :: x in w.log ==> x in w'.log by {
      forall x | x in w.log ensures x in w'.log { var k :| 0 <= k < |w.log| && w.log[k] == x; assert w'.log[k] == x; }
    }
    if p.Publishing? {
      forall i | 0 <= i < |p.batch| ensures AheadClear(w'.entries, w'.log, p.batch, i) {
        assert AheadClear(w.entries, w.log, p.batch, i);
      }
    }
  }

  lemma OrderSurvives(w: World, w': World, i: nat)
    requires i < |w.log| && DeliveredInOrder(w.entries, w.log, i)
    requires SameIds(w.entries, w'.entries) && w.log <= w'.log
    ensures DeliveredInOrder(w'.entries, w'.log, i)
  {
    assert w'.log[..i] == w.log[..i];
  }

  /** Changing one relay's phase and appending at most one delivery. */
  lemma RelayStepKeepsInv(w: World, w': World, r: nat, p: Phase)
    requires Inv(w)
    requires SameIds(w.entries, w'.entries) && DistinctIds(w'.entries) && w.log <= w'.log
    requires w'.relays == w.relays[r := p] && PhaseOk(w', p)
    requires forall i :: 0 <= i < |w'.entries| ==> MarkedDelivered(w', i)
    requires forall i :: |w.log| <= i < |w'.log| ==> HasId(w'.entries, w'.log[i]) && DeliveredInOrder(w'.entries, w'.log, i)
    ensures Inv(w')
  {
    forall i | 0 <= i < |w'.log| ensures HasId(w'.entries, w'.log[i]) && DeliveredInOrder(w'.entries, w'.log, i) {
      if i < |w.log| {
        assert HasId(w.entries, w.log[i]) && DeliveredInOrder(w.entries, w.log, i);
        OrderSurvives(w, w', i);
      }
    }
    forall q ensures PhaseOk(w', PhaseOf(w', q)) {
      if q != r {
        assert PhaseOk(w, PhaseOf(w, q));
        PhaseStaysOk(w, w', PhaseOf(w, q));
      }
    }
  }

  /** Growing the log keeps marked entries delivered. */
  lemma MarksStayDelivered(w: World, w': World)
    requires forall i :: 0 <= i < |w.entries| ==> MarkedDelivered(w, i)
    requires w'.entries == w.entries && w.log <= w'.log
    ensures forall i :: 0 <= i < |w'.entries| ==> MarkedDelivered(w', i)
  {
    forall i | 0 <= i < |w'.entries| ensures MarkedDelivered(w', i) {
      assert MarkedDelivered(w, i);
      if w.entries[i].published {
        var k :| 0 <= k < |w.log| && w.log[k] == w.entries[i].id;
        assert w'.log[k] == w.entries[i].id;
      }
    }
  }

  /** The next id of a batch may be delivered: all older entries already were. */
  lemma DeliveryInOrder(w: World, batch: seq<int>, done: nat)
    requires PhaseOk(w, Publishing(batch, done)) && done < |batch|
    ensures DeliveredInOrder(w.entries, w.log + [batch[done]], |w.log|)
  {
    var log' := w.log + [batch[done]];
    assert AheadClear(w.entries, w.log, batch, done);
    assert log'[..|w.log|] == w.log;
    forall id | HasId(w.entries, id) && id < batch[done] ensures id in w.log {
      if id in batch[..done] {
        var k :| 0 <= k < done && batch[k] == id;
        assert batch[k] in w.log;
      }
    }
  }

  lemma StartKeepsInv(w: World, r: nat, limit: nat)
    requires Inv(w) && Enabled(w, Start(r, limit))
    ensures Inv(Perform(w, Start(r, limit)))
  {
    var fetched := Fetch(w.entries, limit);
    var batch := EntryIds(fetched);
    var p := Publishing(batch, 0);
    forall i | 0 <= i < |batch| ensures HasId(w.entries, batch[i]) && AheadClear(w.entries, w.log, batch, i) {
      FetchedIsUnpublished(w.entries, limit, i);
      forall id | HasId(w.entries, id) && id < batch[i] ensures id in w.log || id in batch[..i] {
        var k :| 0 <= k < |w.entries| && w.entries[k].id == id;
        assert MarkedDelivered(w, k);
        var e := w.entries[k];
        if !e.published {
          if e !in fetched[..i] { FetchIsOldestFirst(w.entries, limit, e, i); }
          var j :| 0 <= j < i && fetched[j] == e;
          assert batch[..i][j] == id;
        }
      }
    }
    var w' := Perform(w, Start(r, limit));
    MarksStayDelivered(w, w');
    RelayStepKeepsInv(w, w', r, p);
  }

  lemma DeliverKeepsInv(w: World, w': World, r: nat, p: Phase)
    requires Inv(w) && PhaseOf(w, r).Publishing? && PhaseOf(w, r).done < |PhaseOf(w, r).batch|
    requires var q := PhaseOf(w, r);
      w' == World(w.entries, w.relays[r := p], w.log + [q.batch[q.done]])
    requires PhaseOk(w', p)
    ensures Inv(w')
  {
    var q := PhaseOf(w, r);
    assert PhaseOk(w, q);
    DeliveryInOrder(w, q.batch, q.done);
    MarksStayDelivered(w, w');
    RelayStepKeepsInv(w, w', r, p);
  }

  lemma PublishKeepsInv(w: World, r: nat)
    requires Inv(w) && Enabled(w, Publish(r))
    ensures Inv(Perform(w, Publish(r)))
  {
    var q := PhaseOf(w, r);
    var w' := Perform(w, Publish(r));
    assert PhaseOk(w, q);
    PhaseStaysOk(w, w', q);
    assert w'.log[|w.log|] == q.batch[q.done];
    DeliverKeepsInv(w, w', r, Publishing(q.batch, q.done + 1));
  }

  lemma RefuseKeepsInv(w: World, r: nat, delivered: bool)
    requires Inv(w) && Enabled(w, Refuse(r, delivered))
    ensures Inv(Perform(w, Refuse(r, delivered)))
  {
    var q := PhaseOf(w, r);
    var w' := Perform(w, Refuse(r, delivered));
    assert PhaseOk(w, q);
    PhaseStaysOk(w, w', q);
    assert PhaseOk(w', ToMarking(q.batch[..q.done]));
    if delivered {
      DeliverKeepsInv(w, w', r, ToMarking(q.batch[..q.done]));
    } else {
      MarksStayDelivered(w, w');
      RelayStepKeepsInv(w, w', r, ToMarking(q.batch[..q.done]));
    }
  }

  lemma FinishKeepsInv(w: World, r: nat)
    requires Inv(w) && Enabled(w, Finish(r))
    ensures Inv(Perform(w, Finish(r)))
  {
    var w' := Perform(w, Finish(r));
    assert PhaseOk(w, PhaseOf(w, r));
    MarksStayDelivered(w, w');
    RelayStepKeepsInv(w, w', r, ToMarking(PhaseOf(w, r).batch));
  }

  /** Only delivered ids are ever marked. */
  lemma MarkKeepsInv(w: World, r: nat, now: int)
    requires Inv(w) && PhaseOf(w, r).Marking?
    ensures Inv(w.(entries := Mark(w.entries, PhaseOf(w, r).ids, now), relays := w.relays[r := Idle]))
  {
    var ids := PhaseOf(w, r).ids;
    var w' := w.(entries := Mark(w.entries, ids, now), relays := w.relays[r := Idle]);
    MarkKeepsIds(w.entries, ids, now);
    assert PhaseOk(w, PhaseOf(w, r));
    forall i | 0 <= i < |w'.entries| ensures MarkedDelivered(w', i) {
      assert MarkedDelivered(w, i);
      if w.entries[i].id in ids { var k :| 0 <= k < |ids| && ids[k] == w.entries[i].id; }
    }
    RelayStepKeepsInv(w, w', r, Idle);
  }

  lemma IdleKeepsInv(w: World, r: nat)
    requires Inv(w)
    ensures Inv(w.(relays := w.relays[r := Idle]))
  {
    var w' := w.(relays := w.relays[r := Idle]);
    MarksStayDelivered(w, w');
    RelayStepKeepsInv(w, w', r, Idle);
  }

  lemma AppendedIds(entries: seq<Entry>, batch: seq<Entry>, id: int)
    ensures HasId(entries + batch, id) <==> HasId(entries, id) || HasId(batch, id)
  {
    var all := entries + batch;
    if i :| 0 <= i < |entries| && entries[i].id == id { assert all[i].id == id; }
    if i :| 0 <= i < |batch| && batch[i].id == id { assert all[|entries| + i].id == id; }
  }

  lemma NewerLacks(batch: seq<Entry>, bound: int, id: int)
    requires forall k :: 0 <= k < |batch| ==> bound < batch[k].id
    requires id < bound
    ensures !HasId(batch, id)
  {
  }

  lemma EnqueueKeepsInv(w: World, batch: seq<Entry>)
    requires Inv(w) && Orderly(w, batch)
    ensures Inv(Perform(w, Enqueue(batch)))
  {
    var w' := Perform(w, Enqueue(batch));
    forall id ensures HasId(w'.entries, id) <==> HasId(w.entries, id) || HasId(batch, id) {
      AppendedIds(w.entries, batch, id);
    }
    forall i | 0 <= i < |w'.log| ensures HasId(w'.entries, w'.log[i]) && DeliveredInOrder(w'.entries, w'.log, i) {
      assert HasId(w.entries, w.log[i]) && DeliveredInOrder(w.entries, w.log, i);
      forall id | HasId(w'.entries, id) && id < w.log[i] ensures id in w.log[..i] {
        NewerLacks(batch, w.log[i], id);
      }
    }
    forall i | 0 <= i < |w'.entries| ensures MarkedDelivered(w', i) {
      if i < |w.entries| { assert MarkedDelivered(w, i); }
    }
    forall r ensures PhaseOk(w', PhaseOf(w', r)) {
      var p := PhaseOf(w, r);
      assert PhaseOk(w, p);
      if p.Publishing? {
        forall i | 0 <= i < |p.batch| ensures AheadClear(w'.entries, w'.log, p.batch, i) {
          assert AheadClear(w.entries, w.log, p.batch, i);
          forall id | HasId(w'.entries, id) && id < p.batch[i] ensures id in w.log || id in p.batch[..i] {
            NewerLacks(batch, p.batch[i], id);
          }
        }
      }
    }
  }

  /** Every allowed step keeps the invariant. */
  lemma StepKeepsInv(w: World, step: Step)
    requires Inv(w) && Allowed(w, step)
    ensures Inv(Perform(w, step))
  {
    match step
    case Enqueue(batch) => EnqueueKeepsInv(w, batch);
    case Start(r, limit) => StartKeepsInv(w, r, limit);
    case Publish(r) => PublishKeepsInv(w, r);
    case Refuse(r, delivered) => RefuseKeepsInv(w, r, delivered);
    case Finish(r) => FinishKeepsInv(w, r);
    case MarkDone(r, now) => MarkKeepsInv(w, r, now);
    case MarkError(r, applied, now) => if applied { MarkKeepsInv(w, r, now); } else { IdleKeepsInv(w, r); }
    case Abandon(r) => IdleKeepsInv(w, r);
  }

  // --- Whole runs ----------------------------------------------------------

  ghost predicate RelayStepAt(steps: seq<Step>, worlds: seq<World>, n: nat) {
    n < |steps| && n + 1 < |worlds| && Allowed(worlds[n], steps[n]) && worlds[n + 1] == Perform(worlds[n], steps[n])
  }

  /** A run from an empty outbox with idle relays. */
  ghost predicate IsRelayRun(steps: seq<Step>, worlds: seq<World>) {
    && |worlds| == |steps| + 1
    && worlds[0] == World([], map[], [])
    && forall n :: 0 <= n < |steps| ==> RelayStepAt(steps, worlds, n)
  }

  lemma {:induction false} RunKeepsInv(steps: seq<Step>, worlds: seq<World>, n: nat)
    requires IsRelayRun(steps, worlds) && n <= |steps|
    ensures Inv(worlds[n])
  {
    if n > 0 {
      RunKeepsInv(steps, worlds, n - 1);
      assert RelayStepAt(steps, worlds, n - 1);
      StepKeepsInv(worlds[n - 1], steps[n - 1]);
    }
  }

  /** The ids ever delivered form a prefix of the id order. */
  ghost predicate DeliveredPrefix(w: World) {
    forall i, id :: 0 <= i < |w.log| && HasId(w.entries, id) && id < w.log[i] ==> id in w.log
  }

  lemma InvIsPrefix(w: World)
    requires Inv(w)
    ensures DeliveredPrefix(w)
  {
    forall i, id | 0 <= i < |w.log| && HasId(w.entries, id) && id < w.log[i] ensures id in w.log {
      assert DeliveredInOrder(w.entries, w.log, i);
      var k :| 0 <= k < i && w.log[..i][k] == id;
      assert w.log[k] == id;
    }
  }

  /**
   In every run the delivered ids are a prefix of the id order, each delivered
   only after every older entry, and a marked entry has been delivered.
   */
  lemma NoSkipsAtLeastOnce(steps: seq<Step>, worlds: seq<World>, n: nat)
    requires IsRelayRun(steps, worlds) && n <= |steps|
    ensures DeliveredPrefix(worlds[n])
    ensures forall i :: 0 <= i < |worlds[n].log| ==> DeliveredInOrder(worlds[n].entries, worlds[n].log, i)
    ensures forall e :: e in worlds[n].entries && e.published ==> e.id in worlds[n].log
  {
    var w := worlds[n];
    RunKeepsInv(steps, worlds, n);
    InvIsPrefix(w);
    forall e | e in w.entries && e.published ensures e.id in w.log {
      var i :| 0 <= i < |w.entries| && w.entries[i] == e;
      assert MarkedDelivered(w, i);
    }
  }

  /** A marked entry is never touched again, so it keeps the time of its marking. */
  lemma {:induction false} MarkedStays(steps: seq<Step>, worlds: seq<World>, n: nat, m: nat, i: nat)
    requires IsRelayRun(steps, worlds) && n <= m <= |steps|
    requires i < |worlds[n].entries| && worlds[n].entries[i].published
    ensures i < |worlds[m].entries| && worlds[m].entries[i] == worlds[n].entries[i]
    decreases m - n
  {
    if n < m {
      MarkedStays(steps, worlds, n, m - 1, i);
      assert RelayStepAt(steps, worlds, m - 1);
      StepKeepsMarked(worlds[m - 1], steps[m - 1], i);
    }
  }

  lemma StepKeepsMarked(w: World, step: Step, i: nat)
    requires Enabled(w, step) && i < |w.entries| && w.entries[i].published
    ensures i < |Perform(w, step).entries| && Perform(w, step).entries[i] == w.entries[i]
  {
  }

  /** An entry marked by a relay at `now` carries that time ever after. */
  lemma MarkingTimeKept(steps: seq<Step>, worlds: seq<World>, n: nat, m: nat, i: nat, r: nat, now: int)
    requires IsRelayRun(steps, worlds) && n < m <= |steps| && steps[n] == MarkDone(r, now)
    requires i < |worlds[n].entries| && !worlds[n].entries[i].published
    requires PhaseOf(worlds[n], r).Marking? && worlds[n].entries[i].id in PhaseOf(worlds[n], r).ids
    ensures i < |worlds[m].entries| && worlds[m].entries[i].published && worlds[m].entries[i].publishedAt == Some(now)
    ensures worlds[m].entries[i].id == worlds[n].entries[i].id && worlds[m].entries[i].event == worlds[n].entries[i].event
  {
    assert RelayStepAt(steps, worlds, n);
    MarkStored(worlds[n].entries, PhaseOf(worlds[n], r).ids, now, i);
    MarkedStays(steps, worlds, n + 1, m, i);
  }

  // --- Continuations -------------------------------------------------------

  /** `steps` can be taken one after the other from `w`, none of them an enqueue. */
  predicate Continues(w: World, steps: seq<Step>)
    decreases |steps|
  {
    steps == [] || (Enabled(w, steps[0]) && !steps[0].Enqueue? && Continues(Perform(w, steps[0]), steps[1..]))
  }

  function After(w: World, steps: seq<Step>): World
    requires Continues(w, steps)
    decreases |steps|
  {
    if steps == [] then w else After(Perform(w, steps[0]), steps[1..])
  }

  lemma {:induction false} ContinueConcat(w: World, a: seq<Step>, b: seq<Step>)
    requires Continues(w, a) && Continues(After(w, a), b)
    ensures Continues(w, a + b) && After(w, a + b) == After(After(w, a), b)
    decreases |a|
  {
    if a == [] {
      assert a + b == b;
    } else {
      assert (a + b)[1..] == a[1..] + b;
      ContinueConcat(Perform(w, a[0]), a[1..], b);
    }
  }

  lemma {:induction false} ContinueKeepsInv(w: World, steps: seq<Step>)
    requires Inv(w) && Continues(w, steps)
    ensures Inv(After(w, steps))
    decreases |steps|
  {
    if steps != [] {
      StepKeepsInv(w, steps[0]);
      ContinueKeepsInv(Perform(w, steps[0]), steps[1..]);
    }
  }

  function Publishes(r: nat, k: nat): (steps: seq<Step>)
    ensures |steps| == k
  {
    if k == 0 then [] else [Publish(r)] + Publishes(r, k - 1)
  }

  /** The world once relay `r` has published `k` more of its batch. */
  function Published(w: World, r: nat, k: nat): World
    requires PhaseOf(w, r).Publishing? && PhaseOf(w, r).done + k <= |PhaseOf(w, r).batch|
  {
    var p := PhaseOf(w, r);
    w.(log := w.log + p.batch[p.done..p.done + k], relays := w.relays[r := Publishing(p.batch, p.done + k)])
  }

  lemma PublishOne(w: World, r: nat, k: nat)
    requires PhaseOf(w, r).Publishing? && PhaseOf(w, r).done + k <= |PhaseOf(w, r).batch| && k > 0
    ensures var w' := Perform(w, Publish(r));
      && PhaseOf(w', r) == Publishing(PhaseOf(w, r).batch, PhaseOf(w, r).done + 1)
      && Published(w', r, k - 1) == Published(w, r, k)
  {
    var p := PhaseOf(w, r);
    assert w.log + [p.batch[p.done]] + p.batch[p.done + 1..p.done + k] == w.log + p.batch[p.done..p.done + k];
  }

  lemma {:induction false} PublishRun(w: World, r: nat, k: nat)
    requires PhaseOf(w, r).Publishing? && PhaseOf(w, r).done + k <= |PhaseOf(w, r).batch|
    ensures Continues(w, Publishes(r, k)) && After(w, Publishes(r, k)) == Published(w, r, k)
    decreases k
  {
    if k == 0 {
      assert w.relays[r := PhaseOf(w, r)] == w.relays;
    } else {
      PublishOne(w, r, k);
      PublishRun(Perform(w, Publish(r)), r, k - 1);
      assert Publishes(r, k)[1..] == Publishes(r, k - 1);
    }
  }

  // --- One relay's pass ----------------------------------------------------

  /** An uninterrupted pass of relay `r`: fetch, publish to the first refusal or
      the end, then mark what was shipped, if anything. */
  function PassSteps(r: nat, limit: nat, shipped: nat, refused: bool, delivered: bool, now: int): seq<Step> {
    [Start(r, limit)] + (Publishes(r, shipped)
      + ([if refused then Refuse(r, delivered) else Finish(r)] + (if shipped > 0 then [MarkDone(r, now)] else [])))
  }

  lemma TwoSteps(w: World, a: Step, b: seq<Step>)
    requires Enabled(w, a) && !a.Enqueue? && Continues(Perform(w, a), b)
    ensures Continues(w, [a] + b) && After(w, [a] + b) == After(Perform(w, a), b)
  {
    assert ([a] + b)[1..] == b;
  }

  lemma MarkNothing(entries: seq<Entry>, now: int)
    ensures Mark(entries, [], now) == entries
  {
  }

  /** The end of a pass, from the publish that was refused or the last one. */
  lemma PassEnd(w: World, r: nat, refused: bool, delivered: bool, now: int)
    requires PhaseOf(w, r).Publishing? && PhaseOf(w, r).done <= |PhaseOf(w, r).batch|
    requires refused <==> PhaseOf(w, r).done < |PhaseOf(w, r).batch|
    ensures var p := PhaseOf(w, r);
      var steps := [if refused then Refuse(r, delivered) else Finish(r)] + (if p.done > 0 then [MarkDone(r, now)] else []);
      && Continues(w, steps)
      && After(w, steps) == World(Mark(w.entries, p.batch[..p.done], now), w.relays[r := Idle],
                                  if refused && delivered then w.log + [p.batch[p.done]] else w.log)
  {
    var p := PhaseOf(w, r);
    var first := if refused then Refuse(r, delivered) else Finish(r);
    var w1 := Perform(w, first);
    assert p.batch[..|p.batch|] == p.batch;
    assert PhaseOf(w1, r) == ToMarking(p.batch[..p.done]);
    MarkNothing(w.entries, now);
    if p.done > 0 {
      assert w1.relays[r := Idle] == w.relays[r := Idle];
      TwoSteps(w1, MarkDone(r, now), []);
      assert [MarkDone(r, now)] + [] == [MarkDone(r, now)];
      TwoSteps(w, first, [MarkDone(r, now)]);
    } else {
      TwoSteps(w, first, []);
    }
  }

  /** Publishing `k` of a fetched batch and ending the pass. */
  lemma PassFrom(w: World, r: nat, ids: seq<int>, k: nat, delivered: bool, now: int)
    requires PhaseOf(w, r) == Publishing(ids, 0) && k <= |ids|
    ensures var refused := k < |ids|;
      var end := [if refused then Refuse(r, delivered) else Finish(r)] + (if k > 0 then [MarkDone(r, now)] else []);
      && Continues(w, Publishes(r, k) + end)
      && After(w, Publishes(r, k) + end) == World(Mark(w.entries, ids[..k], now), w.relays[r := Idle],
           if refused && delivered then w.log + ids[..k] + [ids[k]] else w.log + ids[..k])
  {
    var refused := k < |ids|;
    var end := [if refused then Refuse(r, delivered) else Finish(r)] + (if k > 0 then [MarkDone(r, now)] else []);
    PublishRun(w, r, k);
    var w2 := Published(w, r, k);
    assert ids[0..k] == ids[..k];
    PassEnd(w2, r, refused, delivered, now);
    ContinueConcat(w, Publishes(r, k), end);
    assert w2.relays[r := Idle] == w.relays[r := Idle];
  }

  /** A relay's uninterrupted steps are one `drain`: they ship the batch up to the
      first refusal, mark exactly that, and leave the relay idle. */
  lemma PassIsDrain(w: World, r: nat, limit: nat, accepts: nat -> bool, delivered: bool, now: int)
    requires PhaseOf(w, r).Idle?
    ensures var ids := EntryIds(Fetch(w.entries, limit));
      var shipped := ShippedIds(w.entries, limit, accepts);
      var refused := |shipped| < |ids|;
      var steps := PassSteps(r, limit, |shipped|, refused, delivered, now);
      && Continues(w, steps)
      && After(w, steps) == World(Mark(w.entries, shipped, now), w.relays[r := Idle],
           if refused && delivered then w.log + shipped + [ids[|shipped|]] else w.log + shipped)
  {
    var ids := EntryIds(Fetch(w.entries, limit));
    var k := Shipped(accepts, |ids|);
    PassSteppedOut(w, r, limit, ids, k, delivered, now);
  }

  lemma PassSteppedOut(w: World, r: nat, limit: nat, ids: seq<int>, k: nat, delivered: bool, now: int)
    requires PhaseOf(w, r).Idle? && ids == EntryIds(Fetch(w.entries, limit)) && k <= |ids|
    ensures var steps := PassSteps(r, limit, k, k < |ids|, delivered, now);
      && Continues(w, steps)
      && After(w, steps) == World(Mark(w.entries, ids[..k], now), w.relays[r := Idle],
           if k < |ids| && delivered then w.log + ids[..k] + [ids[k]] else w.log + ids[..k])
  {
    var w1 := w.(relays := w.relays[r := Publishing(ids, 0)]);
    assert w1 == Perform(w, Start(r, limit));
    var end := [if k < |ids| then Refuse(r, delivered) else Finish(r)] + (if k > 0 then [MarkDone(r, now)] else []);
    PassFrom(w1, r, ids, k, delivered, now);
    TwoSteps(w, Start(r, limit), Publishes(r, k) + end);
    assert w1.relays[r := Idle] == w.relays[r := Idle];
  }

  // --- Late enqueues -------------------------------------------------------

  /** `id` is newer than everything delivered or about to be. */
  ghost predicate NewerThanAll(w: World, id: int) {
    && (forall i :: 0 <= i < |w.log| ==> w.log[i] < id)
    && (forall r, k :: PhaseOf(w, r).Publishing? && 0 <= k < |PhaseOf(w, r).batch| && PhaseOf(w, r).batch[k] !in w.log ==>
          PhaseOf(w, r).batch[k] < id)
  }

  lemma NewerIsOrderly(w: World, e: Entry)
    requires Inv(w) && !HasId(w.entries, e.id) && !e.published && NewerThanAll(w, e.id)
    ensures Orderly(w, [e])
  {
    var all := w.entries + [e];
    forall i, j | 0 <= i < j < |all| ensures all[i].id != all[j].id {
      if j == |w.entries| { assert w.entries[i].id != e.id; }
    }
    forall r, k | PhaseOf(w, r).Publishing? && 0 <= k < |PhaseOf(w, r).batch|
      ensures PhaseOf(w, r).batch[k] < e.id
    {
      var id := PhaseOf(w, r).batch[k];
      if id in w.log { var i :| 0 <= i < |w.log| && w.log[i] == id; }
    }
  }

  /** Delivering a newer id ahead of `e` breaks the prefix. */
  lemma OvertakenBreaksPrefix(w: World, id: int, newer: int)
    requires HasId(w.entries, id) && id !in w.log && newer in w.log && id < newer
    ensures !DeliveredPrefix(w)
  {
    var i :| 0 <= i < |w.log| && w.log[i] == newer;
    assert HasId(w.entries, id) && id < w.log[i];
  }

  lemma Enqueued(w: World, e: Entry)
    requires Inv(w) && !HasId(w.entries, e.id)
    ensures HasId(Perform(w, Enqueue([e])).entries, e.id) && e.id !in w.log
    ensures forall r, k :: PhaseOf(w, r).Publishing? && 0 <= k < |PhaseOf(w, r).batch| ==> PhaseOf(w, r).batch[k] != e.id
  {
    assert (w.entries + [e])[|w.entries|].id == e.id;
    forall i | 0 <= i < |w.log| ensures w.log[i] != e.id { assert HasId(w.entries, w.log[i]); }
    forall r, k | PhaseOf(w, r).Publishing? && 0 <= k < |PhaseOf(w, r).batch|
      ensures PhaseOf(w, r).batch[k] != e.id
    {
      assert PhaseOk(w, PhaseOf(w, r));
    }
  }

  /** A relay that publishes on to a newer id leaves an undelivered one behind. */
  lemma PublishOvertakes(w: World, id: int, r: nat, k: nat) returns (steps: seq<Step>)
    requires PhaseOf(w, r).Publishing? && PhaseOf(w, r).done <= k < |PhaseOf(w, r).batch|
    requires HasId(w.entries, id) && id !in w.log && id !in PhaseOf(w, r).batch && id < PhaseOf(w, r).batch[k]
    ensures Continues(w, steps) && !DeliveredPrefix(After(w, steps))
  {
    var p := PhaseOf(w, r);
    var n := k + 1 - p.done;
    steps := Publishes(r, n);
    PublishRun(w, r, n);
    var log := w.log + p.batch[p.done..k + 1];
    assert log[|w.log| + k - p.done] == p.batch[k];
    OvertakenBreaksPrefix(Published(w, r, n), id, p.batch[k]);
  }

  lemma UndeliveredIsAhead(w: World, r: nat, k: nat)
    requires Inv(w) && PhaseOf(w, r).Publishing? && k < |PhaseOf(w, r).batch| && PhaseOf(w, r).batch[k] !in w.log
    ensures PhaseOf(w, r).done <= k
  {
    assert PhaseOk(w, PhaseOf(w, r));
  }

  /** A relay holding a newer undelivered id goes on to deliver it before `e`. */
  lemma BatchOvertakes(w: World, e: Entry, r: nat, k: nat) returns (steps: seq<Step>)
    requires Inv(w) && !HasId(w.entries, e.id)
    requires PhaseOf(w, r).Publishing? && k < |PhaseOf(w, r).batch|
    requires PhaseOf(w, r).batch[k] !in w.log && e.id < PhaseOf(w, r).batch[k]
    ensures var w' := Perform(w, Enqueue([e])); Continues(w', steps) && !DeliveredPrefix(After(w', steps))
  {
    UndeliveredIsAhead(w, r, k);
    Enqueued(w, e);
    steps := PublishOvertakes(Perform(w, Enqueue([e])), e.id, r, k);
  }

  /** However the relays go on from `w`, the delivered ids stay a prefix. */
  ghost predicate StaysPrefix(w: World) {
    forall steps :: Continues(w, steps) ==> DeliveredPrefix(After(w, steps))
  }

  lemma InvStaysPrefix(w: World)
    requires Inv(w)
    ensures StaysPrefix(w)
  {
    forall steps | Continues(w, steps) ensures DeliveredPrefix(After(w, steps)) {
      ContinueKeepsInv(w, steps);
      InvIsPrefix(After(w, steps));
    }
  }

  lemma BrokenAfter(w: World, steps: seq<Step>)
    requires Continues(w, steps) && !DeliveredPrefix(After(w, steps))
    ensures !StaysPrefix(w)
  {
  }

  lemma DeliveredOvertakes(w: World, id: int, newer: int)
    requires HasId(w.entries, id) && id !in w.log && newer in w.log && id < newer
    ensures !StaysPrefix(w)
  {
    OvertakenBreaksPrefix(w, id, newer);
    assert Continues(w, []) && After(w, []) == w;
  }

  /** However the relays go on after an entry is enqueued, the delivered ids stay a
      prefix of the id order if and only if the entry is newer than every id
      delivered and every undelivered id in some relay's batch. */
  lemma EnqueueSafeIffNewest(w: World, e: Entry)
    requires Inv(w) && !HasId(w.entries, e.id) && !e.published
    ensures StaysPrefix(Perform(w, Enqueue([e]))) <==> NewerThanAll(w, e.id)
  {
    if NewerThanAll(w, e.id) {
      NewerIsOrderly(w, e);
      StepKeepsInv(w, Enqueue([e]));
      InvStaysPrefix(Perform(w, Enqueue([e])));
    } else {
      Enqueued(w, e);
      if i :| 0 <= i < |w.log| && w.log[i] >= e.id {
        DeliveredOvertakes(Perform(w, Enqueue([e])), e.id, w.log[i]);
      } else {
        var r, k :| PhaseOf(w, r).Publishing? && 0 <= k < |PhaseOf(w, r).batch|
          && PhaseOf(w, r).batch[k] !in w.log && PhaseOf(w, r).batch[k] >= e.id;
        var steps := BatchOvertakes(w, e, r, k);
        BrokenAfter(Perform(w, Enqueue([e])), steps);
      }
    }
  }

  /** Entry 5 is in relay 0's batch and nothing is delivered when entry 3 comes. */
  function FiveFetched(): World {
    World([NewEntry(5, "")], map[0 := Publishing([5], 0)], [])
  }

  /** The prefix holds right after 3 is enqueued and is broken by relay 0's next publish. */
  lemma BatchedIdOvertakes()
    ensures Inv(FiveFetched())
    ensures var w := Perform(FiveFetched(), Enqueue([NewEntry(3, "")]));
      && DeliveredPrefix(w) && Enabled(w, Publish(0)) && !DeliveredPrefix(Perform(w, Publish(0)))
  {
    var w := FiveFetched();
    assert HasId(w.entries, 5) by { assert w.entries[0].id == 5; }
    assert forall id :: HasId(w.entries, id) ==> id == 5;
    assert AheadClear(w.entries, w.log, [5], 0);
    assert MarkedDelivered(w, 0);
    var w1 := Perform(w, Enqueue([NewEntry(3, "")]));
    assert w1.entries[1].id == 3;
    OvertakenBreaksPrefix(Perform(w1, Publish(0)), 3, 5);
  }
}
