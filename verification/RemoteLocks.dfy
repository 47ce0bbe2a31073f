/** The Redis and MongoDB lock backends, and their refinement of the in-memory table. */
module RemoteLocks {
  import opened Text
  import opened Numbers
  import opened Locks
  import opened Timestamps

  /** The holds in force at `now`. */
  function Live(table: Table, now: int): Table {
    map k | k in table && now < table[k].expiry :: table[k]
  }

  // --- Redis ---------------------------------------------------------------

  const MAX_U64: int := 0xFFFF_FFFF_FFFF_FFFF

  /** TTLs that make a positive 64-bit millisecond expiry. */
  predicate PxAccepted(ttl: int) { 1 <= ttl <= MAX_U64 }

  /** `SET key token NX PX ttl`; an expired key counts as absent. */
  function RedisOutcome(store: Table, key: Key, ttl: int, now: int): Acquired {
    if !PxAccepted(ttl) then InvalidTtl
    else if LiveHolder(store, key, now) then Contended
    else Granted
  }

  function RedisAcquire(store: Table, key: Key, ttl: int, now: int, token: Token): Table {
    if RedisOutcome(store, key, ttl, now).Granted? then store[key := Hold(token, now + ttl)] else store
  }

  /** The release script: GET sees only unexpired keys. */
  function RedisRelease(store: Table, key: Key, token: Token, now: int): Table {
    if LiveHolder(store, key, now) && store[key].token == token then store - {key} else store
  }

  /** Redis may remove expired keys at any time. */
  function Evict(store: Table, keys: set<Key>, now: int): Table {
    map k | k in store && !(k in keys && store[k].expiry <= now) :: store[k]
  }

  // --- MongoDB -------------------------------------------------------------

  datatype Doc = Doc(token: Token, expiresAt: string)

  type Docs = map<Key, Doc>

  /** How instants are written. */
  type Spelling = int -> string

  /** Text order is time order, on the instants that can be written. */
  ghost predicate Chronological(spell: Spelling) {
    forall a, b :: Printable(a) && Printable(b) ==> (LexLess(spell(a), spell(b)) <==> a < b)
  }

  /** `to_rfc3339`. */
  function Rfc3339Spelling(): Spelling {
    t => if Printable(t) then Rfc3339(t) else ""
  }

  lemma Rfc3339IsChronological()
    ensures Chronological(Rfc3339Spelling())
  {
    var spell := Rfc3339Spelling();
    forall a, b | Printable(a) && Printable(b) ensures LexLess(spell(a), spell(b)) <==> a < b {
      TextOrderIsChronological(a, b);
    }
  }

  /** `expires_at <= now`, compared as text. */
  predicate TextExpired(spell: Spelling, doc: Doc, now: int) {
    !LexLess(spell(now), doc.expiresAt)
  }

  /** Conditional upsert: a live document makes the insert collide, which is contention. */
  function MongoOutcome(spell: Spelling, docs: Docs, key: Key, ttl: int, now: int): Acquired {
    if CheckedAdd(now, ttl).None? then InvalidTtl
    else if key in docs && !TextExpired(spell, docs[key], now) then Contended
    else Granted
  }

  function MongoAcquire(spell: Spelling, docs: Docs, key: Key, ttl: int, now: int, token: Token): Docs {
    if MongoOutcome(spell, docs, key, ttl, now).Granted? then docs[key := Doc(token, spell(now + ttl))] else docs
  }

  /** `delete_one({_id: key, token})`. */
  function MongoRelease(docs: Docs, key: Key, token: Token): Docs {
    if key in docs && docs[key].token == token then docs - {key} else docs
  }

  /** A document that spells out a hold. */
  ghost predicate SpelledBy(spell: Spelling, hold: Hold, doc: Doc) {
    Printable(hold.expiry) && doc == Doc(hold.token, spell(hold.expiry))
  }

  /** The documents spell out the table. */
  ghost predicate Spells(spell: Spelling, table: Table, docs: Docs) {
    docs.Keys == table.Keys && forall k :: k in table ==> SpelledBy(spell, table[k], docs[k])
  }

  // --- One call ------------------------------------------------------------

  datatype Op = Acquire(key: Key, ttl: int, token: Token) | Release(key: Key, token: Token)

  datatype Call = Call(now: int, op: Op, evicted: set<Key>)

  function MemoryStep(table: Table, call: Call): Table {
    match call.op
    case Acquire(key, ttl, token) => AfterAcquire(table, key, ttl, call.now, token)
    case Release(key, token) => Unlock(table, key, token)
  }

  function RedisStep(store: Table, call: Call): Table {
    var kept := Evict(store, call.evicted, call.now);
    match call.op
    case Acquire(key, ttl, token) => RedisAcquire(kept, key, ttl, call.now, token)
    case Release(key, token) => RedisRelease(kept, key, token, call.now)
  }

  /** Times the text form covers; a TTL with no representable expiry writes none. */
  predicate Spellable(call: Call) {
    && Printable(call.now)
    && (call.op.Acquire? && CheckedAdd(call.now, call.op.ttl).Some? ==> Printable(call.now + call.op.ttl))
  }

  function MongoStep(spell: Spelling, docs: Docs, call: Call): Docs {
    match call.op
    case Acquire(key, ttl, token) => MongoAcquire(spell, docs, key, ttl, call.now, token)
    case Release(key, token) => MongoRelease(docs, key, token)
  }

  /** Redis answers an acquire as memory does exactly when both accept the TTL or
      both refuse it: Redis wants a positive 64-bit number of milliseconds, memory
      a representable expiry. */
  lemma RedisOutcomeAgrees(table: Table, store: Table, key: Key, ttl: int, now: int)
    requires Live(table, now) == Live(store, now)
    ensures RedisOutcome(store, key, ttl, now) == AcquireOutcome(table, key, ttl, now)
      <==> (PxAccepted(ttl) <==> CheckedAdd(now, ttl).Some?)
  {
    assert key in Live(table, now) <==> LiveHolder(table, key, now);
    assert key in Live(store, now) <==> LiveHolder(store, key, now);
  }

  /** A zero TTL, which memory grants and Redis refuses, and one of 10^15 ms, which
      Redis grants and memory refuses. */
  lemma TtlsAnsweredDifferently(key: Key)
    ensures AcquireOutcome(map[], key, 0, 0) == Granted && RedisOutcome(map[], key, 0, 0) == InvalidTtl
    ensures AcquireOutcome(map[], key, 1000000000000000, 0) == InvalidTtl
    ensures RedisOutcome(map[], key, 1000000000000000, 0) == Granted
  {
  }

  /** Holds in force later are among those in force now. */
  lemma LiveLater(table: Table, now: int, later: int)
    requires now <= later
    ensures Live(table, later) == Live(Live(table, now), later)
  {
  }

  lemma EvictKeepsLive(store: Table, keys: set<Key>, now: int)
    ensures Live(Evict(store, keys, now), now) == Live(store, now)
  {
  }

  lemma RedisStepRefines(table: Table, store: Table, call: Call)
    requires Live(table, call.now) == Live(store, call.now)
    requires call.op.Acquire? ==> (PxAccepted(call.op.ttl) <==> CheckedAdd(call.now, call.op.ttl).Some?)
    ensures Live(MemoryStep(table, call), call.now) == Live(RedisStep(store, call), call.now)
  {
    var now := call.now;
    var kept := Evict(store, call.evicted, now);
    EvictKeepsLive(store, call.evicted, now);
    assert forall k :: k in Live(table, now) <==> LiveHolder(table, k, now);
    assert forall k :: k in Live(kept, now) <==> LiveHolder(kept, k, now);
    match call.op
    case Acquire(key, ttl, token) =>
      RedisOutcomeAgrees(table, kept, key, ttl, now);
      if AcquireOutcome(table, key, ttl, now).Granted? {
        LiveAfterSet(table, key, Hold(token, now + ttl), now);
        LiveAfterSet(kept, key, Hold(token, now + ttl), now);
      }
    case Release(key, token) =>
      LiveAfterRemove(table, key, now);
      LiveAfterRemove(kept, key, now);
      if key in Live(table, now) { assert table[key] == Live(table, now)[key] == Live(kept, now)[key] == kept[key]; }
  }

  lemma LiveAfterSet(table: Table, key: Key, hold: Hold, now: int)
    requires now < hold.expiry
    ensures Live(table[key := hold], now) == Live(table, now)[key := hold]
  {
  }

  lemma LiveAfterRemove(table: Table, key: Key, now: int)
    ensures Live(table - {key}, now) == Live(table, now) - {key}
    ensures !LiveHolder(table, key, now) ==> Live(table - {key}, now) == Live(table, now)
  {
  }

  /** A document reads as expired exactly when the hold it spells has expired. */
  lemma TextExpiryIsExpiry(spell: Spelling, hold: Hold, doc: Doc, now: int)
    requires Chronological(spell) && Printable(now) && SpelledBy(spell, hold, doc)
    ensures TextExpired(spell, doc, now) <==> hold.expiry <= now
  {
  }

  lemma MongoOutcomeAgrees(spell: Spelling, table: Table, docs: Docs, key: Key, ttl: int, now: int)
    requires Chronological(spell) && Spells(spell, table, docs) && Printable(now)
    ensures MongoOutcome(spell, docs, key, ttl, now) == AcquireOutcome(table, key, ttl, now)
  {
    if key in table { TextExpiryIsExpiry(spell, table[key], docs[key], now); }
  }

  /** Mongo's documents keep spelling out the in-memory table. */
  lemma MongoStepRefines(spell: Spelling, table: Table, docs: Docs, call: Call)
    requires Chronological(spell) && Spells(spell, table, docs) && Spellable(call)
    ensures Spells(spell, MemoryStep(table, call), MongoStep(spell, docs, call))
  {
    if call.op.Acquire? { MongoOutcomeAgrees(spell, table, docs, call.op.key, call.op.ttl, call.now); }
  }

  // --- Whole runs ----------------------------------------------------------

  /** The three backends side by side. */
  datatype Backends = Backends(memory: Table, redis: Table, mongo: Docs)

  /** Calls whose times can be written out and whose TTL both sides accept or refuse. */
  predicate Regular(call: Call) {
    Spellable(call) && (call.op.Acquire? ==> (PxAccepted(call.op.ttl) <==> CheckedAdd(call.now, call.op.ttl).Some?))
  }

  ghost predicate BackendStepAt(spell: Spelling, calls: seq<Call>, states: seq<Backends>, n: nat) {
    && n < |calls| && n + 1 < |states|
    && Regular(calls[n]) && (n > 0 ==> calls[n - 1].now <= calls[n].now)
    && states[n + 1] == Backends(MemoryStep(states[n].memory, calls[n]), RedisStep(states[n].redis, calls[n]),
                                 MongoStep(spell, states[n].mongo, calls[n]))
  }

  ghost predicate IsBackendRun(spell: Spelling, calls: seq<Call>, states: seq<Backends>) {
    && |states| == |calls| + 1
    && states[0] == Backends(map[], map[], map[])
    && forall n :: 0 <= n < |calls| ==> BackendStepAt(spell, calls, states, n)
  }

  /** The backends hold the same locks at every moment after call `n - 1`. */
  lemma {:induction false} BackendsInStepAt(spell: Spelling, calls: seq<Call>, states: seq<Backends>, n: nat, at: int)
    requires Chronological(spell) && IsBackendRun(spell, calls, states) && n < |states| && (n > 0 ==> calls[n - 1].now <= at)
    ensures Live(states[n].memory, at) == Live(states[n].redis, at)
    ensures Spells(spell, states[n].memory, states[n].mongo)
  {
    if n > 0 {
      var m := n - 1;
      assert BackendStepAt(spell, calls, states, m);
      BackendsInStepAt(spell, calls, states, m, calls[m].now);
      RedisStepRefines(states[m].memory, states[m].redis, calls[m]);
      MongoStepRefines(spell, states[m].memory, states[m].mongo, calls[m]);
      LiveLater(states[n].memory, calls[m].now, at);
      LiveLater(states[n].redis, calls[m].now, at);
    }
  }

  /** Before each call the three backends hold the same locks. */
  lemma BackendsInStep(spell: Spelling, calls: seq<Call>, states: seq<Backends>, n: nat)
    requires Chronological(spell) && IsBackendRun(spell, calls, states) && n < |calls|
    ensures Live(states[n].memory, calls[n].now) == Live(states[n].redis, calls[n].now)
    ensures Spells(spell, states[n].memory, states[n].mongo)
  {
    assert BackendStepAt(spell, calls, states, n);
    BackendsInStepAt(spell, calls, states, n, calls[n].now);
  }

  /** In every run whose TTLs all sides accept or all refuse, the three backends
      answer every acquire alike, whenever Redis evicts. */
  lemma BackendsAnswerAlike(spell: Spelling, calls: seq<Call>, states: seq<Backends>, n: nat)
    requires Chronological(spell) && IsBackendRun(spell, calls, states) && BackendStepAt(spell, calls, states, n) && calls[n].op.Acquire?
    ensures var Acquire(key, ttl, _) := calls[n].op;
      var answer := AcquireOutcome(states[n].memory, key, ttl, calls[n].now);
      && RedisOutcome(Evict(states[n].redis, calls[n].evicted, calls[n].now), key, ttl, calls[n].now) == answer
      && MongoOutcome(spell, states[n].mongo, key, ttl, calls[n].now) == answer
  {
    var now := calls[n].now;
    BackendsInStep(spell, calls, states, n);
    EvictKeepsLive(states[n].redis, calls[n].evicted, now);
    RedisOutcomeAgrees(states[n].memory, Evict(states[n].redis, calls[n].evicted, now), calls[n].op.key, calls[n].op.ttl, now);
    MongoOutcomeAgrees(spell, states[n].memory, states[n].mongo, calls[n].op.key, calls[n].op.ttl, now);
  }

  // --- Guards --------------------------------------------------------------

  /** What a call does to the guards handed out so far: a granted acquire adds one
      under a fresh token, releasing a guard's token marks it, and a guard may be
      dropped at any time, which marks it and leaves the lock to its TTL. */
  ghost predicate GuardStep(guards: map<Token, Guard>, after: map<Token, Guard>, call: Call, granted: bool) {
    && (forall t :: t in guards ==>
          && t in after && after[t].key == guards[t].key && after[t].expiry == guards[t].expiry
          && (guards[t].released || call.op == Op.Release(guards[t].key, t) ==> after[t].released))
    && (forall t :: t in after && t !in guards ==>
          granted && call.op.Acquire? && t == call.op.token && after[t].key == call.op.key && after[t].expiry == call.now + call.op.ttl)
    && (call.op.Acquire? ==> call.op.token !in guards && (granted ==> call.op.token in after))
  }

  ghost predicate GuardStepAt(calls: seq<Call>, states: seq<Backends>, guards: seq<map<Token, Guard>>, n: nat) {
    && n < |calls| && n < |states| && n + 1 < |guards|
    && GuardStep(guards[n], guards[n + 1], calls[n],
                 calls[n].op.Acquire? &&
                 AcquireOutcome(states[n].memory, calls[n].op.key, calls[n].op.ttl, calls[n].now).Granted?)
  }

  /** Guards carried along a run; by `BackendsAnswerAlike` each backend grants the
      same acquires, so they are each backend's guards. */
  ghost predicate IsGuardRun(spell: Spelling, calls: seq<Call>, states: seq<Backends>, guards: seq<map<Token, Guard>>) {
    && IsBackendRun(spell, calls, states) && |guards| == |states| && guards[0] == map[]
    && forall n :: 0 <= n < |calls| ==> GuardStepAt(calls, states, guards, n)
  }

  /** The guard is neither released, dropped nor expired at `at`. */
  predicate HoldsAt(guards: map<Token, Guard>, t: Token, at: int) {
    t in guards && !guards[t].released && at < guards[t].expiry
  }

  lemma StepKeepsOwner(table: Table, guards: map<Token, Guard>, after: map<Token, Guard>, call: Call, t: Token, at: int)
    requires call.now <= at && HoldsAt(after, t, at)
    requires GuardStep(guards, after, call,
                       call.op.Acquire? && AcquireOutcome(table, call.op.key, call.op.ttl, call.now).Granted?)
    requires HoldsAt(guards, t, call.now) ==>
      guards[t].key in table && table[guards[t].key] == Hold(t, guards[t].expiry)
    ensures var table' := MemoryStep(table, call);
      after[t].key in table' && table'[after[t].key] == Hold(t, after[t].expiry)
  {
  }

  /** A holding guard is the recorded owner of its key. */
  lemma {:induction false} GuardOwnsKey(
    spell: Spelling, calls: seq<Call>, states: seq<Backends>, guards: seq<map<Token, Guard>>, n: nat, t: Token, at: int)
    requires Chronological(spell) && IsGuardRun(spell, calls, states, guards) && n < |states| && (n > 0 ==> calls[n - 1].now <= at)
    requires HoldsAt(guards[n], t, at)
    ensures var key := guards[n][t].key;
      key in states[n].memory && states[n].memory[key] == Hold(t, guards[n][t].expiry)
  {
    if n > 0 {
      var m := n - 1;
      assert GuardStepAt(calls, states, guards, m) && BackendStepAt(spell, calls, states, m);
      if HoldsAt(guards[m], t, calls[m].now) { GuardOwnsKey(spell, calls, states, guards, m, t, calls[m].now); }
      StepKeepsOwner(states[m].memory, guards[m], guards[n], calls[m], t, at);
    }
  }

  lemma LiveHold(table: Table, store: Table, key: Key, at: int)
    requires Live(table, at) == Live(store, at) && LiveHolder(table, key, at)
    ensures LiveHolder(store, key, at) && store[key] == table[key]
  {
    assert key in Live(table, at);
    assert Live(table, at)[key] == table[key];
    assert key in Live(store, at);
  }

  /** At every moment of every run no two Redis or MongoDB guards that are neither
      released nor expired hold one key; the one that does is the owner stored. */
  lemma RemoteMutualExclusion(
    spell: Spelling, calls: seq<Call>, states: seq<Backends>, guards: seq<map<Token, Guard>>, n: nat, at: int, a: Token, b: Token)
    requires Chronological(spell) && IsGuardRun(spell, calls, states, guards) && n < |states| && (n > 0 ==> calls[n - 1].now <= at)
    requires HoldsAt(guards[n], a, at) && HoldsAt(guards[n], b, at) && guards[n][a].key == guards[n][b].key
    ensures a == b
    ensures var key := guards[n][a].key;
      && key in states[n].redis && states[n].redis[key] == Hold(a, guards[n][a].expiry)
      && key in states[n].mongo && states[n].mongo[key].token == a
  {
    GuardOwnsKey(spell, calls, states, guards, n, a, at);
    GuardOwnsKey(spell, calls, states, guards, n, b, at);
    BackendsInStepAt(spell, calls, states, n, at);
    LiveHold(states[n].memory, states[n].redis, guards[n][a].key, at);
  }

  // --- The managers --------------------------------------------------------

  /** The keys of the Redis lock manager; each method is one atomic command. */
  class RedisLockManager {
    var store: Table

    constructor ()
      ensures store == map[]
    {
      store := map[];
    }

    method TryAcquire(key: Key, ttl: int, now: int, token: Token) returns (r: Acquired)
      modifies this
      ensures r == RedisOutcome(old(store), key, ttl, now)
      ensures store == RedisAcquire(old(store), key, ttl, now, token)
    {
      if ttl < 0 || ttl > MAX_U64 { return InvalidTtl; }
      if ttl == 0 { return InvalidTtl; }
      if key in store && now < store[key].expiry { return Contended; }
      store := store[key := Hold(token, now + ttl)];
      return Granted;
    }

    method ReleaseToken(key: Key, token: Token, now: int) returns (deleted: bool)
      modifies this
      ensures store == RedisRelease(old(store), key, token, now)
      ensures deleted <==> LiveHolder(old(store), key, now) && old(store)[key].token == token
    {
      deleted := false;
      if key in store && now < store[key].expiry && store[key].token == token {
        store := store - {key};
        deleted := true;
      }
    }
  }

  /** The lock collection; each method is one atomic operation on one document. */
  class MongoLockManager {
    const spell: Spelling
    var docs: Docs

    constructor ()
      ensures docs == map[] && spell == Rfc3339Spelling()
    {
      spell, docs := Rfc3339Spelling(), map[];
    }

    method TryAcquire(key: Key, ttl: int, now: int, token: Token) returns (r: Acquired)
      modifies this
      ensures r == MongoOutcome(spell, old(docs), key, ttl, now)
      ensures docs == MongoAcquire(spell, old(docs), key, ttl, now, token)
    {
      var expiresAt := CheckedAdd(now, ttl);
      if expiresAt.None? { return InvalidTtl; }
      var nowText, expiresText := spell(now), spell(expiresAt.value);
      if key in docs && LexLess(nowText, docs[key].expiresAt) { return Contended; }
      docs := docs[key := Doc(token, expiresText)];
      return Granted;
    }

    method ReleaseToken(key: Key, token: Token) returns (deleted: bool)
      modifies this
      ensures docs == MongoRelease(old(docs), key, token)
      ensures deleted <==> key in old(docs) && old(docs)[key].token == token
    {
      deleted := key in docs && docs[key].token == token;
      if deleted { docs := docs - {key}; }
    }
  }
}
