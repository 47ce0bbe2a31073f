/**
 Configuration hot reload: a background task re-resolves the provider chain on a
 timer or when a refresh signal arrives over a one-slot channel, and publishes
 the tree when it changed.
 */
module Reload {
  import opened Text

  /** Where the task is: before its first tick, in the select, about to resolve,
      or resolving since the sources were at `version`. */
  datatype Phase = Starting | Waiting | Armed | Resolving(version: nat)

  /** The channel, the task, the sources it reads and what subscribers saw.
      `begun` numbers resolves; `lastGood` is the latest that succeeded. */
  datatype State<T> = State(
    slot: bool,
    senders: nat,
    triggersOpen: bool,
    phase: Phase,
    current: T,
    published: seq<T>,
    sources: T,
    version: nat,
    begun: nat,
    lastGood: nat)

  datatype Event<T> =
    | Refresh
    | CloneTrigger
    | DropTrigger
    | ChangeSources(tree: T)
    | FirstTick
    | Tick
    | Receive
    | ReceiveClosed
    | Begin
    | Finish(result: Option<T>)

  function Started<T>(tree: T, sources: T): State<T> {
    State(false, 1, true, Starting, tree, [tree], sources, 0, 0, 0)
  }

  /** Who can act: triggers while one exists, the task according to its phase. A
      resolve during which the sources stood still yields the sources. */
  ghost predicate Enabled<T>(s: State<T>, e: Event<T>) {
    match e
    case Refresh => s.senders > 0
    case CloneTrigger => s.senders > 0
    case DropTrigger => s.senders > 0
    case ChangeSources(_) => true
    case FirstTick => s.phase.Starting?
    case Tick => s.phase.Waiting?
    case Receive => s.phase.Waiting? && s.triggersOpen && s.slot
    case ReceiveClosed => s.phase.Waiting? && s.triggersOpen && !s.slot && s.senders == 0
    case Begin => s.phase.Armed?
    case Finish(result) =>
      s.phase.Resolving? && (result.Some? && s.phase.version == s.version ==> result.value == s.sources)
  }

  function Swapped<T(==)>(s: State<T>, next: T): State<T> {
    if s.current != next then s.(current := next, published := s.published + [next]) else s
  }

  function Next<T(==)>(s: State<T>, e: Event<T>): State<T> {
    match e
    case Refresh => s.(slot := true)
    case CloneTrigger => s.(senders := s.senders + 1)
    case DropTrigger => if s.senders > 0 then s.(senders := s.senders - 1) else s
    case ChangeSources(tree) => s.(sources := tree, version := s.version + 1)
    case FirstTick => s.(phase := Waiting)
    case Tick => s.(phase := Armed)
    case Receive => s.(slot := false, phase := Armed)
    case ReceiveClosed => s.(triggersOpen := false)
    case Begin => s.(phase := Resolving(s.version), begun := s.begun + 1)
    case Finish(None) => s.(phase := Waiting)
    case Finish(Some(tree)) => Swapped(s.(phase := Waiting, lastGood := s.begun), tree)
  }

  /** A step of the background task, as opposed to its surroundings. */
  predicate IsTaskStep<T>(e: Event<T>) {
    e.FirstTick? || e.Tick? || e.Receive? || e.ReceiveClosed? || e.Begin? || e.Finish?
  }

  // --- The task in place ---------------------------------------------------

  /** The channel, the task's local state and the watched value. `version` numbers
      the changes of the sources; the rest of the bookkeeping is ghost. */
  class ReloadTask<T(==)> {
    var slot: bool
    var senders: nat
    var triggersOpen: bool
    var phase: Phase
    var current: T
    ghost var published: seq<T>
    ghost var sources: T
    var version: nat
    ghost var begun: nat
    ghost var lastGood: nat

    ghost function View(): State<T>
      reads this
    {
      State(slot, senders, triggersOpen, phase, current, published, sources, version, begun, lastGood)
    }

    constructor (tree: T, ghost sources: T)
      ensures View() == Started(tree, sources)
    {
      slot, senders, triggersOpen, phase, current := false, 1, true, Starting, tree;
      published, this.sources, version, begun, lastGood := [tree], sources, 0, 0, 0;
    }

    /** `try_send`: a full slot drops the signal, the one waiting covers it. */
    method Refresh()
      modifies this`slot
      ensures View() == Next(old(View()), Event.Refresh)
    {
      if !slot { slot := true; }
    }

    /** A tick that fires: the first is skipped, a later one leads to a resolve. */
    method OnTick()
      requires phase.Starting? || phase.Waiting?
      modifies this`phase
      ensures View() == Next(old(View()), if old(phase).Starting? then FirstTick else Tick)
    {
      phase := if phase.Starting? then Waiting else Armed;
    }

    /** The signal branch of the select: a signal leads to a resolve, a closed and
        empty channel is not listened to again. */
    method OnSignal()
      requires Enabled(View(), Receive) || Enabled(View(), ReceiveClosed)
      modifies this`slot, this`triggersOpen, this`phase
      ensures View() == Next(old(View()), if old(slot) then Receive else ReceiveClosed)
    {
      if slot {
        slot, phase := false, Armed;
      } else {
        triggersOpen := false;
      }
    }

    method BeginResolve()
      requires Enabled(View(), Begin)
      modifies this`phase, this`begun
      ensures View() == Next(old(View()), Begin)
    {
      begun := begun + 1;
      phase := Resolving(version);
    }

    /** A failed resolve keeps the current tree. */
    method FinishResolve(result: Option<T>)
      requires Enabled(View(), Finish(result))
      modifies this`phase, this`lastGood, this`current, this`published
      ensures View() == Next(old(View()), Finish(result))
    {
      phase := Waiting;
      if result.Some? {
        lastGood := begun;
        SwapIfChanged(result.value);
      }
    }

    /** Publishes `next` only if it differs from the current tree. */
    method SwapIfChanged(next: T)
      modifies this`current, this`published
      ensures View() == Swapped(old(View()), next)
      ensures current == next
    {
      var changed := current != next;
      if changed {
        current := next;
        published := published + [next];
      }
    }
  }

  // --- Runs ----------------------------------------------------------------

  ghost predicate StepAt<T>(states: seq<State<T>>, events: seq<Event<T>>, n: nat) {
    n < |events| && n + 1 < |states| && Enabled(states[n], events[n]) && states[n + 1] == Next(states[n], events[n])
  }

  ghost predicate IsRun<T(!new)>(states: seq<State<T>>, events: seq<Event<T>>) {
    && |states| == |events| + 1
    && (exists tree, sources :: states[0] == Started(tree, sources))
    && forall n :: 0 <= n < |events| ==> StepAt(states, events, n)
  }

  predicate Pairwise<T(==)>(trees: seq<T>) {
    forall i :: 0 <= i < |trees| - 1 ==> trees[i] != trees[i + 1]
  }

  /** A waiting signal can be received, and subscribers saw the current tree last. */
  ghost predicate Consistent<T>(s: State<T>) {
    && (s.slot ==> s.triggersOpen)
    && (s.senders > 0 ==> s.triggersOpen)
    && s.lastGood <= s.begun
    && s.published != [] && s.published[|s.published| - 1] == s.current
    && Pairwise(s.published)
  }

  lemma StepKeepsConsistent<T>(s: State<T>, e: Event<T>)
    requires Consistent(s) && Enabled(s, e)
    ensures Consistent(Next(s, e))
  {
  }

  /** In every run a pending signal stays receivable and consecutive published
      trees differ. */
  lemma {:induction false} RunKeepsConsistent<T(!new)>(states: seq<State<T>>, events: seq<Event<T>>, n: nat)
    requires IsRun(states, events) && n < |states|
    ensures Consistent(states[n])
  {
    if n > 0 {
      RunKeepsConsistent(states, events, n - 1);
      assert StepAt(states, events, n - 1);
      StepKeepsConsistent(states[n - 1], events[n - 1]);
    }
  }

  // --- No signal is lost ---------------------------------------------------

  /** A refresh made when `b` resolves had begun is waiting in the slot, received
      with its resolve next, or followed by a resolve begun after it. */
  ghost predicate Accounted<T>(s: State<T>, b: nat) {
    s.slot || s.phase.Armed? || s.begun > b
  }

  lemma StepKeepsAccounted<T>(s: State<T>, e: Event<T>, b: nat)
    requires Enabled(s, e) && Accounted(s, b) && s.begun >= b
    ensures Accounted(Next(s, e), b) && Next(s, e).begun >= s.begun
  {
  }

  lemma {:induction false} NoRefreshIsLost<T(!new)>(states: seq<State<T>>, events: seq<Event<T>>, i: nat, j: nat)
    requires IsRun(states, events) && i < j < |states| && events[i].Refresh?
    ensures states[j].begun >= states[i].begun
    ensures Accounted(states[j], states[i].begun)
  {
    assert StepAt(states, events, j - 1);
    if j > i + 1 {
      NoRefreshIsLost(states, events, i, j - 1);
      StepKeepsAccounted(states[j - 1], events[j - 1], states[i].begun);
    }
  }

  /** How many task steps away the next resolve is, at most. */
  function Distance(phase: Phase): nat {
    match phase
    case Starting => 3
    case Resolving(_) => 3
    case Waiting => 2
    case Armed => 1
  }

  ghost function TaskSteps<T>(events: seq<Event<T>>, i: nat, j: nat): nat
    requires j <= |events|
  {
    if j <= i then 0 else TaskSteps(events, i, j - 1) + if IsTaskStep(events[j - 1]) then 1 else 0
  }

  lemma StepApproaches<T>(s: State<T>, e: Event<T>, b: nat)
    requires Enabled(s, e) && Accounted(s, b) && s.begun == b
    ensures Next(s, e).begun > b
      || Distance(Next(s, e).phase) + (if IsTaskStep(e) then 1 else 0) <= Distance(s.phase)
  {
  }

  lemma {:induction false} RefreshApproaches<T(!new)>(states: seq<State<T>>, events: seq<Event<T>>, i: nat, j: nat)
    requires IsRun(states, events) && i < j < |states| && events[i].Refresh?
    ensures states[j].begun > states[i].begun
      || TaskSteps(events, i + 1, j) + Distance(states[j].phase) <= Distance(states[i + 1].phase)
  {
    if j > i + 1 {
      var b := states[i].begun;
      RefreshApproaches(states, events, i, j - 1);
      NoRefreshIsLost(states, events, i, j - 1);
      assert StepAt(states, events, j - 1);
      if states[j - 1].begun == b {
        StepApproaches(states[j - 1], events[j - 1], b);
      } else {
        StepKeepsAccounted(states[j - 1], events[j - 1], b);
      }
    }
  }

  /** Whatever happens around it, the task begins a resolve within three of its
      own steps after a refresh. */
  lemma RefreshIsServedPromptly<T(!new)>(states: seq<State<T>>, events: seq<Event<T>>, i: nat, j: nat)
    requires IsRun(states, events) && i < j < |states| && events[i].Refresh?
    requires TaskSteps(events, i + 1, j) >= 3
    ensures states[j].begun > states[i].begun
  {
    RefreshApproaches(states, events, i, j);
  }

  /** A tick that fires is followed by a resolve at the task's next step. */
  lemma {:induction false} TickIsServed<T(!new)>(states: seq<State<T>>, events: seq<Event<T>>, i: nat, j: nat)
    requires IsRun(states, events) && i < j < |states| && events[i].Tick?
    ensures states[j].begun > states[i].begun || (states[j].phase.Armed? && states[j].begun == states[i].begun)
    ensures TaskSteps(events, i + 1, j) >= 1 ==> states[j].begun > states[i].begun
  {
    assert StepAt(states, events, j - 1);
    if j > i + 1 { TickIsServed(states, events, i, j - 1); }
  }

  /** Without its first tick past, and between ticks and signals, the task resolves nothing. */
  lemma ResolveNeedsCause<T>(s: State<T>, e: Event<T>)
    requires Enabled(s, e)
    ensures Next(s, e).begun != s.begun ==> s.phase.Armed?
    ensures Next(s, e).phase.Armed? && !s.phase.Armed? ==> e.Tick? || (e.Receive? && s.slot && !Next(s, e).slot)
  {
  }

  /** A closed channel is noticed at most once. */
  lemma {:induction false} ClosedOnce<T(!new)>(states: seq<State<T>>, events: seq<Event<T>>, i: nat, j: nat)
    requires IsRun(states, events) && i < j < |states| && events[i].ReceiveClosed?
    ensures !states[j].triggersOpen && (j < |events| ==> !events[j].ReceiveClosed? && !events[j].Receive?)
  {
    assert StepAt(states, events, j - 1);
    if j > i + 1 { ClosedOnce(states, events, i, j - 1); }
    if j < |events| { assert StepAt(states, events, j); }
  }

  // --- What a refresh achieves ---------------------------------------------

  /** Resolves begun after the first `b` read sources at version `v`; once one has
      succeeded the current tree is those sources. */
  ghost predicate Fresh<T>(s: State<T>, b: nat, v: nat) {
    && s.begun >= b && s.lastGood <= s.begun && s.version == v
    && (s.phase.Resolving? && s.begun > b ==> s.phase.version == v)
    && (s.lastGood > b ==> s.current == s.sources)
  }

  lemma StepKeepsFresh<T>(s: State<T>, e: Event<T>, b: nat, v: nat)
    requires Enabled(s, e) && Fresh(s, b, v) && !e.ChangeSources?
    ensures Fresh(Next(s, e), b, v)
  {
  }

  lemma {:induction false} StaysFresh<T(!new)>(states: seq<State<T>>, events: seq<Event<T>>, i: nat, j: nat)
    requires IsRun(states, events) && i <= j < |states|
    requires forall n :: i <= n < j ==> !events[n].ChangeSources?
    ensures Fresh(states[j], states[i].begun, states[i].version)
  {
    if j > i {
      StaysFresh(states, events, i, j - 1);
      assert StepAt(states, events, j - 1);
      StepKeepsFresh(states[j - 1], events[j - 1], states[i].begun, states[i].version);
    } else {
      RunKeepsConsistent(states, events, i);
    }
  }

  /** If the sources do not change after a moment, a resolve begun after it and
      successful makes the current configuration equal to them. */
  lemma RefreshPublishesSources<T(!new)>(states: seq<State<T>>, events: seq<Event<T>>, i: nat, j: nat)
    requires IsRun(states, events) && i <= j < |states|
    requires forall n :: i <= n < j ==> !events[n].ChangeSources?
    requires states[j].lastGood > states[i].begun
    ensures states[j].current == states[j].sources
    ensures states[j].published != [] && states[j].published[|states[j].published| - 1] == states[j].sources
  {
    StaysFresh(states, events, i, j);
    RunKeepsConsistent(states, events, j);
  }
}
