/**
 TTL locks with fencing tokens: the in-memory table and its guards as a state
 machine and as mutable objects. Times and TTLs are in milliseconds.
 */
module Locks {
  import opened Numbers

  type Key = string

  /** Identifies one acquisition. */
  type Token = nat

  datatype Hold = Hold(token: Token, expiry: int)

  type Table = map<Key, Hold>

  datatype Acquired = InvalidTtl | Contended | Granted

  predicate LiveHolder(table: Table, key: Key, now: int) {
    key in table && now < table[key].expiry
  }

  /** Outcome of `acquire`. */
  function AcquireOutcome(table: Table, key: Key, ttl: int, now: int): Acquired {
    if CheckedAdd(now, ttl).None? then InvalidTtl
    else if LiveHolder(table, key, now) then Contended
    else Granted
  }

  function AfterAcquire(table: Table, key: Key, ttl: int, now: int, token: Token): Table {
    if AcquireOutcome(table, key, ttl, now).Granted? then table[key := Hold(token, now + ttl)] else table
  }

  /** Compare-and-delete. */
  function Unlock(table: Table, key: Key, token: Token): Table {
    if key in table && table[key].token == token then table - {key} else table
  }

  /** A TTL is refused exactly when its expiry is not representable, and a valid
      acquire meets contention exactly at a live holder. */
  lemma OutcomeMeaning(table: Table, key: Key, ttl: int, now: int)
    ensures AcquireOutcome(table, key, ttl, now).InvalidTtl? <==> !(MIN_TIME <= now + ttl <= MAX_TIME)
    ensures AcquireOutcome(table, key, ttl, now).Contended? <==>
      MIN_TIME <= now + ttl <= MAX_TIME && key in table && now < table[key].expiry
  {
  }

  /** A granted lock bars others until exactly its TTL has passed, on its key only. */
  lemma LockLastsForTtl(table: Table, key: Key, ttl: int, now: int, token: Token, other: Key, ttl2: int, later: int)
    requires AcquireOutcome(table, key, ttl, now).Granted? && MIN_TIME <= later + ttl2 <= MAX_TIME
    ensures var after := AfterAcquire(table, key, ttl, now, token);
      && (AcquireOutcome(after, key, ttl2, later).Contended? <==> later < now + ttl)
      && (AcquireOutcome(after, key, ttl2, later).Granted? <==> later >= now + ttl)
      && (other != key ==> AcquireOutcome(after, other, ttl2, later) == AcquireOutcome(table, other, ttl2, later))
  {
  }

  // --- Guards --------------------------------------------------------------

  datatype Guard = Guard(key: Key, expiry: int, released: bool)

  datatype World = World(table: Table, guards: map<Token, Guard>, now: int)

  datatype Step =
    | Acquire(key: Key, ttl: int, token: Token)
    | Release(token: Token)
    | Drop(token: Token)
    | Tick(to: int)

  function Freed(w: World, token: Token, unlock: bool): World {
    if token in w.guards && !w.guards[token].released then
      w.(guards := w.guards[token := w.guards[token].(released := true)],
         table := if unlock then Unlock(w.table, w.guards[token].key, token) else w.table)
    else w
  }

  /** In memory a dropped guard releases; for the remote backends it is left to the TTL. */
  function Do(w: World, step: Step, dropUnlocks: bool): World {
    match step
    case Acquire(key, ttl, token) =>
      if AcquireOutcome(w.table, key, ttl, w.now).Granted? then
        w.(table := AfterAcquire(w.table, key, ttl, w.now, token),
           guards := w.guards[token := Guard(key, w.now + ttl, false)])
      else w
    case Release(token) => Freed(w, token, true)
    case Drop(token) => Freed(w, token, dropUnlocks)
    case Tick(to) => w.(now := to)
  }

  /** Tokens are minted fresh and the clock does not go back. */
  predicate Possible(w: World, step: Step) {
    match step
    case Acquire(_, _, token) => token !in w.guards
    case Tick(to) => w.now <= to
    case _ => true
  }

  /** The guard is neither released nor expired. */
  predicate Holds(w: World, token: Token) {
    token in w.guards && !w.guards[token].released && w.now < w.guards[token].expiry
  }

  ghost predicate OwnsItsKey(w: World, token: Token) {
    Holds(w, token) ==>
      w.guards[token].key in w.table && w.table[w.guards[token].key] == Hold(token, w.guards[token].expiry)
  }

  ghost predicate Backed(w: World, key: Key) {
    key in w.table ==>
      && w.table[key].token in w.guards
      && w.guards[w.table[key].token].key == key
      && w.guards[w.table[key].token].expiry == w.table[key].expiry
  }

  ghost predicate HolderUnreleased(w: World, key: Key) {
    key in w.table && w.table[key].token in w.guards ==> !w.guards[w.table[key].token].released
  }

  ghost predicate Inv(w: World, dropUnlocks: bool) {
    && (forall t :: OwnsItsKey(w, t))
    && (forall k :: Backed(w, k))
    && (dropUnlocks ==> forall k :: HolderUnreleased(w, k))
  }

  lemma AcquireKeepsInv(w: World, key: Key, ttl: int, token: Token, dropUnlocks: bool)
    requires Inv(w, dropUnlocks) && token !in w.guards
    ensures Inv(Do(w, Acquire(key, ttl, token), dropUnlocks), dropUnlocks)
  {
    var w' := Do(w, Acquire(key, ttl, token), dropUnlocks);
    forall t ensures OwnsItsKey(w', t) { assert OwnsItsKey(w, t); }
    forall k ensures Backed(w', k) && (dropUnlocks ==> HolderUnreleased(w', k)) {
      assert Backed(w, k);
      assert dropUnlocks ==> HolderUnreleased(w, k);
    }
  }

  lemma FreedKeepsInv(w: World, token: Token, unlock: bool, dropUnlocks: bool)
    requires Inv(w, dropUnlocks) && (dropUnlocks ==> unlock)
    ensures Inv(Freed(w, token, unlock), dropUnlocks)
  {
    var w' := Freed(w, token, unlock);
    forall t ensures OwnsItsKey(w', t) { assert OwnsItsKey(w, t); }
    forall k ensures Backed(w', k) && (dropUnlocks ==> HolderUnreleased(w', k)) {
      assert Backed(w, k);
      assert dropUnlocks ==> HolderUnreleased(w, k);
    }
  }

  lemma StepKeepsInv(w: World, step: Step, dropUnlocks: bool)
    requires Inv(w, dropUnlocks) && Possible(w, step)
    ensures Inv(Do(w, step, dropUnlocks), dropUnlocks)
  {
    match step
    case Acquire(key, ttl, token) => AcquireKeepsInv(w, key, ttl, token, dropUnlocks);
    case Release(token) => FreedKeepsInv(w, token, true, dropUnlocks);
    case Drop(token) => FreedKeepsInv(w, token, dropUnlocks, dropUnlocks);
    case Tick(to) =>
      forall t ensures OwnsItsKey(w.(now := to), t) { assert OwnsItsKey(w, t); }
      forall k ensures Backed(w.(now := to), k) && (dropUnlocks ==> HolderUnreleased(w.(now := to), k)) {
        assert Backed(w, k);
        assert dropUnlocks ==> HolderUnreleased(w, k);
      }
  }

  ghost predicate LockStepAt(steps: seq<Step>, worlds: seq<World>, dropUnlocks: bool, n: nat) {
    && n < |steps| && n + 1 < |worlds|
    && Possible(worlds[n], steps[n]) && worlds[n + 1] == Do(worlds[n], steps[n], dropUnlocks)
  }

  ghost predicate IsLockRun(steps: seq<Step>, worlds: seq<World>, dropUnlocks: bool) {
    && |worlds| == |steps| + 1
    && worlds[0].table == map[] && worlds[0].guards == map[]
    && forall n :: 0 <= n < |steps| ==> LockStepAt(steps, worlds, dropUnlocks, n)
  }

  lemma {:induction false} RunKeepsInv(steps: seq<Step>, worlds: seq<World>, dropUnlocks: bool, n: nat)
    requires IsLockRun(steps, worlds, dropUnlocks) && n <= |steps|
    ensures Inv(worlds[n], dropUnlocks)
  {
    if n > 0 {
      RunKeepsInv(steps, worlds, dropUnlocks, n - 1);
      assert LockStepAt(steps, worlds, dropUnlocks, n - 1);
      StepKeepsInv(worlds[n - 1], steps[n - 1], dropUnlocks);
    }
  }

  /** At every moment of every run a holding guard owns its key, so no two hold one key. */
  lemma MutualExclusion(steps: seq<Step>, worlds: seq<World>, dropUnlocks: bool, n: nat, a: Token, b: Token)
    requires IsLockRun(steps, worlds, dropUnlocks) && n <= |steps|
    requires Holds(worlds[n], a) && Holds(worlds[n], b)
    requires worlds[n].guards[a].key == worlds[n].guards[b].key
    ensures a == b
    ensures worlds[n].guards[a].key in worlds[n].table && worlds[n].table[worlds[n].guards[a].key].token == a
  {
    RunKeepsInv(steps, worlds, dropUnlocks, n);
    assert OwnsItsKey(worlds[n], a) && OwnsItsKey(worlds[n], b);
  }

  /** A granted guard holds its key for exactly its TTL, unless released before. */
  lemma GuardLastsForTtl(w: World, key: Key, ttl: int, token: Token, dropUnlocks: bool, later: int)
    requires AcquireOutcome(w.table, key, ttl, w.now).Granted? && token !in w.guards
    ensures var w' := Do(w, Acquire(key, ttl, token), dropUnlocks).(now := later);
      && (Holds(w', token) <==> later < w.now + ttl) && w'.guards[token].key == key
      && !Holds(Freed(w', token, true), token) && key !in Freed(w', token, true).table
  {
  }

  /** A dropped guard frees its key in memory; a remote one leaves it to the TTL. */
  lemma DropMeaning(w: World, token: Token, dropUnlocks: bool)
    requires token in w.guards && !w.guards[token].released
    ensures var w' := Do(w, Drop(token), dropUnlocks);
      && token in w'.guards && w'.guards[token].released && w'.now == w.now
      && (!dropUnlocks ==> w'.table == w.table)
      && (dropUnlocks ==> w' == Do(w, Release(token), dropUnlocks))
  {
  }

  /** Releasing or dropping a guard leaves every hold of every other token in place. */
  lemma StaleReleaseIsHarmless(w: World, token: Token, unlock: bool, key: Key)
    requires key in w.table && w.table[key].token != token
    ensures var w' := Freed(w, token, unlock); key in w'.table && w'.table[key] == w.table[key]
  {
  }

  /** With releasing drops, a valid acquire is granted exactly when nobody holds the key. */
  lemma GrantedIffNobodyHolds(steps: seq<Step>, worlds: seq<World>, n: nat, key: Key, ttl: int)
    requires IsLockRun(steps, worlds, true) && n <= |steps|
    requires CheckedAdd(worlds[n].now, ttl).Some?
    ensures AcquireOutcome(worlds[n].table, key, ttl, worlds[n].now).Granted? <==>
      forall t :: Holds(worlds[n], t) ==> worlds[n].guards[t].key != key
  {
    var w := worlds[n];
    RunKeepsInv(steps, worlds, true, n);
    assert Backed(w, key) && HolderUnreleased(w, key);
    if LiveHolder(w.table, key, w.now) {
      assert Holds(w, w.table[key].token);
    } else {
      forall t | Holds(w, t) ensures w.guards[t].key != key { assert OwnsItsKey(w, t); }
    }
  }

  // --- The objects ---------------------------------------------------------

  /** The table shared by the manager and its guards. */
  class LockTable {
    var table: Table

    constructor ()
      ensures table == map[]
    {
      table := map[];
    }

    method ReleaseInMemory(key: Key, token: Token)
      modifies this
      ensures table == Unlock(old(table), key, token)
    {
      if key in table && table[key].token == token {
        table := table - {key};
      }
    }

    /** `token` is the fresh fencing token and `now` the clock reading. */
    method TryAcquire(key: Key, ttl: int, now: int, token: Token) returns (r: Acquired, guard: LockGuard?)
      modifies this
      ensures r == AcquireOutcome(old(table), key, ttl, now)
      ensures table == AfterAcquire(old(table), key, ttl, now, token)
      ensures r.Granted? <==> guard != null
      ensures guard != null ==> fresh(guard) && guard.shared == this && guard.key == key && guard.token == token && !guard.released
    {
      guard := null;
      var expiresAt := CheckedAdd(now, ttl);
      if expiresAt.None? { return InvalidTtl, null; }
      if key in table && now < table[key].expiry { return Contended, null; }
      table := table[key := Hold(token, expiresAt.value)];
      guard := new LockGuard(key, token, this);
      r := Granted;
    }
  }

  class LockGuard {
    const key: Key
    const token: Token
    const shared: LockTable
    var released: bool

    constructor (key: Key, token: Token, shared: LockTable)
      ensures this.key == key && this.token == token && this.shared == shared && !released
    {
      this.key, this.token, this.shared, released := key, token, shared, false;
    }

    /** `release`, and `drop` of an in-memory guard: at most once, and only its own hold. */
    method Release()
      modifies this, shared
      ensures released
      ensures shared.table == if old(released) then old(shared.table) else Unlock(old(shared.table), key, token)
    {
      if released { return; }
      released := true;
      shared.ReleaseInMemory(key, token);
    }
  }
}
