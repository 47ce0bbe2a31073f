/**
 The token-bucket rate limiter, in memory and as a Redis hash that expires when
 idle. Times and windows are milliseconds, as exact reals.
 */
module TokenBucket {
  import opened Text

  datatype Bucket = Bucket(tokens: real, refilledAt: real)

  datatype Outcome = Allowed(remaining: int) | Limited(retryAfter: real)

  function MinReal(a: real, b: real): real { if a <= b then a else b }

  function MaxReal(a: real, b: real): real { if a >= b then a else b }

  /** The burst size; a limit of zero counts as one. */
  function Capacity(maxRequests: nat): (c: real)
    ensures c >= 1.0
  {
    if maxRequests >= 1 then maxRequests as real else 1.0
  }

  /** 2 to the power 1022. */
  const TWO_TO_1022: int :=
    0x4000000000000000_0000000000000000_0000000000000000_0000000000000000_0000000000000000_0000000000000000_0000000000000000_0000000000000000_0000000000000000_0000000000000000_0000000000000000_0000000000000000_0000000000000000_0000000000000000_0000000000000000_0000000000000000

  /** The smallest positive normal double, as milliseconds. */
  function MinPositive(): (m: real)
    ensures m > 0.0
  {
    1000.0 / (TWO_TO_1022 as real)
  }

  lemma MinPositiveIsTiny()
    ensures MinPositive() <= 1.0
  {
    QuotientAtMostOne(1000.0, TWO_TO_1022 as real);
  }

  lemma QuotientAtMostOne(x: real, y: real)
    requires 0.0 < x <= y
    ensures x / y <= 1.0
  {
  }

  /** A window of zero counts as the smallest positive one. */
  function RefillWindow(window: real): (w: real)
    ensures w > 0.0
  {
    MaxReal(window, MinPositive())
  }

  /** Tokens per millisecond. */
  function Rate(capacity: real, window: real): (r: real)
    requires capacity >= 1.0
    ensures r > 0.0
  {
    capacity / RefillWindow(window)
  }

  // --- One check -----------------------------------------------------------

  /** The level a call at `now` finds: a new key starts full. */
  function Level(b: Option<Bucket>, capacity: real, rate: real, now: real): real {
    match b
    case None => capacity
    case Some(Bucket(tokens, at)) => MinReal(tokens + MaxReal(now - at, 0.0) * rate, capacity)
  }

  function Spent(level: real, now: real): Bucket {
    Bucket(if level >= 1.0 then level - 1.0 else level, now)
  }

  function Decide(level: real, rate: real): Outcome
    requires rate > 0.0
  {
    if level >= 1.0 then Allowed((level - 1.0).Floor) else Limited((1.0 - level) / rate)
  }

  class InMemoryTokenBucket {
    var buckets: map<string, Bucket>

    constructor ()
      ensures buckets == map[]
    {
      buckets := map[];
    }

    method Check(key: string, maxRequests: nat, window: real, now: real) returns (r: Outcome)
      modifies this
      ensures var capacity := Capacity(maxRequests);
        var rate := Rate(capacity, window);
        var was := if key in old(buckets) then Some(old(buckets)[key]) else None;
        && r == Decide(Level(was, capacity, rate, now), rate)
        && buckets == old(buckets)[key := Spent(Level(was, capacity, rate, now), now)]
    {
      var capacity := Capacity(maxRequests);
      var rate := Rate(capacity, window);
      var bucket := if key in buckets then buckets[key] else Bucket(capacity, now);
      bucket, r := CheckBucket(bucket, capacity, rate, now);
      buckets := buckets[key := bucket];
    }

    /** Refill, then spend a token or report the wait; a bucket filled now is a new key's. */
    static method CheckBucket(was: Bucket, capacity: real, rate: real, now: real) returns (bucket: Bucket, r: Outcome)
      requires rate > 0.0
      ensures r == Decide(Level(Some(was), capacity, rate, now), rate)
      ensures bucket == Spent(Level(Some(was), capacity, rate, now), now)
      ensures was == Bucket(capacity, now) ==> Level(Some(was), capacity, rate, now) == Level(None, capacity, rate, now)
    {
      var elapsed := MaxReal(now - was.refilledAt, 0.0);
      bucket := Bucket(MinReal(was.tokens + elapsed * rate, capacity), now);
      if bucket.tokens >= 1.0 {
        bucket := bucket.(tokens := bucket.tokens - 1.0);
        r := Allowed(bucket.tokens.Floor);
      } else {
        r := Limited((1.0 - bucket.tokens) / rate);
      }
    }
  }

  // --- Runs on one key -----------------------------------------------------

  ghost predicate CallAt(times: seq<real>, states: seq<Option<Bucket>>, capacity: real, rate: real, n: nat) {
    && n < |times| && n + 1 < |states|
    && (n > 0 ==> times[n - 1] <= times[n])
    && states[n + 1] == Some(Spent(Level(states[n], capacity, rate, times[n]), times[n]))
  }

  /** The key's bucket before, between and after calls at non-decreasing `times`. */
  ghost predicate IsBucketRun(times: seq<real>, states: seq<Option<Bucket>>, capacity: real, rate: real) {
    && capacity >= 1.0 && rate > 0.0
    && |states| == |times| + 1 && states[0] == None
    && forall n :: 0 <= n < |times| ==> CallAt(times, states, capacity, rate, n)
  }

  ghost predicate Chronological(times: seq<real>) {
    forall n :: 0 < n < |times| ==> times[n - 1] <= times[n]
  }

  /** Every sequence of calls has its run. */
  ghost function BucketStates(times: seq<real>, capacity: real, rate: real): (states: seq<Option<Bucket>>)
    requires Chronological(times) && capacity >= 1.0 && rate > 0.0
    ensures IsBucketRun(times, states, capacity, rate)
  {
    if times == [] then [None]
    else
      var n := |times| - 1;
      var before := BucketStates(times[..n], capacity, rate);
      var states := before + [Some(Spent(Level(before[n], capacity, rate, times[n]), times[n]))];
      assert forall k :: 0 <= k < n ==> CallAt(times[..n], before, capacity, rate, k) ==> CallAt(times, states, capacity, rate, k);
      assert CallAt(times, states, capacity, rate, n);
      states
  }

  ghost predicate AdmitsAt(times: seq<real>, states: seq<Option<Bucket>>, capacity: real, rate: real, n: nat) {
    n < |times| && n < |states| && Level(states[n], capacity, rate, times[n]) >= 1.0
  }

  ghost function Admitted(times: seq<real>, states: seq<Option<Bucket>>, capacity: real, rate: real, i: nat, j: nat): nat {
    if j <= i then 0
    else Admitted(times, states, capacity, rate, i, j - 1) + if AdmitsAt(times, states, capacity, rate, j - 1) then 1 else 0
  }

  /** Tokens stay between zero and capacity, and were refilled at the last call. */
  lemma {:induction false} TokensBounded(times: seq<real>, states: seq<Option<Bucket>>, capacity: real, rate: real, n: nat)
    requires IsBucketRun(times, states, capacity, rate) && 0 < n <= |times|
    ensures states[n].Some? && 0.0 <= states[n].value.tokens <= capacity && states[n].value.refilledAt == times[n - 1]
  {
    assert CallAt(times, states, capacity, rate, n - 1);
    if n > 1 {
      TokensBounded(times, states, capacity, rate, n - 1);
      MulNonnegative(times[n - 1] - times[n - 2], rate);
    }
  }

  lemma MulNonnegative(x: real, y: real)
    requires x >= 0.0 && y >= 0.0
    ensures x * y >= 0.0
  {
  }

  /** One check: what it spends and leaves fits what was there plus the refill. */
  lemma CheckConserves(was: Bucket, capacity: real, rate: real, now: real)
    requires was.refilledAt <= now
    ensures var level := Level(Some(was), capacity, rate, now);
      Spent(level, now).tokens + (if level >= 1.0 then 1.0 else 0.0) <= was.tokens + (now - was.refilledAt) * rate
  {
  }

  lemma SplitSpan(start: real, middle: real, end: real, rate: real)
    ensures (end - start) * rate == (middle - start) * rate + (end - middle) * rate
  {
  }

  /** Tokens left plus requests admitted fit a full bucket plus the refill. */
  ghost predicate Conserved(times: seq<real>, states: seq<Option<Bucket>>, capacity: real, rate: real, i: nat, j: nat) {
    && i < j <= |times| && j < |states| && states[j].Some?
    && states[j].value.tokens + Admitted(times, states, capacity, rate, i, j) as real
      <= capacity + (times[j - 1] - times[i]) * rate
  }

  lemma {:induction false} TokensConserved(
    times: seq<real>, states: seq<Option<Bucket>>, capacity: real, rate: real, i: nat, j: nat)
    requires IsBucketRun(times, states, capacity, rate) && i < j <= |times|
    ensures Conserved(times, states, capacity, rate, i, j)
    decreases j - i
  {
    if j == i + 1 {
      FirstCheckConserves(times, states, capacity, rate, i);
    } else {
      TokensConserved(times, states, capacity, rate, i, j - 1);
      NextCheckConserves(times, states, capacity, rate, i, j - 1);
    }
  }

  lemma FirstCheckConserves(times: seq<real>, states: seq<Option<Bucket>>, capacity: real, rate: real, i: nat)
    requires IsBucketRun(times, states, capacity, rate) && i < |times|
    ensures Conserved(times, states, capacity, rate, i, i + 1)
  {
    assert CallAt(times, states, capacity, rate, i);
    assert Admitted(times, states, capacity, rate, i, i) == 0;
  }

  lemma NextCheckConserves(times: seq<real>, states: seq<Option<Bucket>>, capacity: real, rate: real, i: nat, j: nat)
    requires IsBucketRun(times, states, capacity, rate) && j < |times| && Conserved(times, states, capacity, rate, i, j)
    ensures Conserved(times, states, capacity, rate, i, j + 1)
  {
    assert CallAt(times, states, capacity, rate, j);
    TokensBounded(times, states, capacity, rate, j);
    CheckConserves(states[j].value, capacity, rate, times[j]);
    SplitSpan(times[i], times[j - 1], times[j], rate);
  }

  /** In any span of length T at most capacity + T * rate requests are admitted. */
  lemma AdmissionsBounded(times: seq<real>, states: seq<Option<Bucket>>, capacity: real, rate: real, i: nat, j: nat)
    requires IsBucketRun(times, states, capacity, rate) && i < j <= |times|
    ensures Admitted(times, states, capacity, rate, i, j) as real <= capacity + (times[j - 1] - times[i]) * rate
  {
    TokensConserved(times, states, capacity, rate, i, j);
    TokensBounded(times, states, capacity, rate, j);
  }

  // --- Retry times ---------------------------------------------------------

  /** When the level of a refused caller's bucket reaches one token. */
  function TokenDue(b: Bucket, rate: real): real
    requires rate > 0.0
  {
    b.refilledAt + (1.0 - b.tokens) / rate
  }

  /** Waiting fills the bucket by one token exactly at the due time. */
  lemma DueCrossing(b: Bucket, capacity: real, rate: real, now: real)
    requires rate > 0.0 && capacity >= 1.0 && b.tokens < 1.0 && b.refilledAt <= now
    ensures Level(Some(b), capacity, rate, now) >= 1.0 <==> now >= TokenDue(b, rate)
    ensures now < TokenDue(b, rate) ==> Level(Some(b), capacity, rate, now) == b.tokens + (now - b.refilledAt) * rate
  {
    var wait := (1.0 - b.tokens) / rate;
    assert wait * rate == 1.0 - b.tokens;
    var gap := now - b.refilledAt - wait;
    assert (now - b.refilledAt) * rate == wait * rate + gap * rate;
    if gap >= 0.0 { MulNonnegative(gap, rate); } else { MulNegative(gap, rate); }
  }

  lemma MulNegative(x: real, y: real)
    requires x < 0.0 && y > 0.0
    ensures x * y < 0.0
  {
  }

  /** A refused check leaves the due time where it was. */
  lemma RefusalKeepsDue(b: Bucket, capacity: real, rate: real, now: real)
    requires rate > 0.0 && capacity >= 1.0 && b.tokens < 1.0 && b.refilledAt <= now < TokenDue(b, rate)
    ensures var b' := Spent(Level(Some(b), capacity, rate, now), now);
      b'.tokens < 1.0 && TokenDue(b', rate) == TokenDue(b, rate)
  {
    DueCrossing(b, capacity, rate, now);
    var tokens := b.tokens + (now - b.refilledAt) * rate;
    assert (1.0 - tokens) / rate == (1.0 - b.tokens) / rate - (now - b.refilledAt) by {
      DivideSum(1.0 - b.tokens, now - b.refilledAt, rate);
    }
  }

  lemma DivideSum(x: real, y: real, rate: real)
    requires rate > 0.0
    ensures (x - y * rate) / rate == x / rate - y
  {
    var q := x / rate;
    assert q * rate == x;
    assert (q - y) * rate == x - y * rate;
  }

  /** Call `i` was refused; later calls up to `k` all came before its retry time. */
  ghost predicate EarlyUntil(times: seq<real>, due: real, i: nat, k: nat) {
    forall j :: i < j < k && j < |times| ==> times[j] < due
  }

  lemma {:induction false} DuePersists(
    times: seq<real>, states: seq<Option<Bucket>>, capacity: real, rate: real, i: nat, k: nat)
    requires IsBucketRun(times, states, capacity, rate)
    requires i < k <= |times| && !AdmitsAt(times, states, capacity, rate, i)
    requires EarlyUntil(times, RetryAt(times, states, capacity, rate, i), i, k)
    ensures states[k].Some? && states[k].value.tokens < 1.0
    ensures TokenDue(states[k].value, rate) == RetryAt(times, states, capacity, rate, i)
    decreases k - i
  {
    assert CallAt(times, states, capacity, rate, k - 1);
    if k > i + 1 {
      DuePersists(times, states, capacity, rate, i, k - 1);
      TokensBounded(times, states, capacity, rate, k - 1);
      assert times[k - 1] < RetryAt(times, states, capacity, rate, i);
      RefusalKeepsDue(states[k - 1].value, capacity, rate, times[k - 1]);
    }
  }

  /** The instant a refused call was told to retry at. */
  ghost function RetryAt(times: seq<real>, states: seq<Option<Bucket>>, capacity: real, rate: real, i: nat): real
    requires i < |times| && i < |states| && rate > 0.0
  {
    times[i] + (1.0 - Level(states[i], capacity, rate, times[i])) / rate
  }

  /** If nobody was served in between, a call is admitted exactly from the
      announced retry time on: at it, and not before. */
  lemma RetryTimeIsExact(times: seq<real>, states: seq<Option<Bucket>>, capacity: real, rate: real, i: nat, k: nat)
    requires IsBucketRun(times, states, capacity, rate)
    requires i < k < |times| && !AdmitsAt(times, states, capacity, rate, i)
    requires EarlyUntil(times, RetryAt(times, states, capacity, rate, i), i, k)
    ensures AdmitsAt(times, states, capacity, rate, k) <==> times[k] >= RetryAt(times, states, capacity, rate, i)
  {
    DuePersists(times, states, capacity, rate, i, k);
    TokensBounded(times, states, capacity, rate, k);
    assert CallAt(times, states, capacity, rate, k);
    DueCrossing(states[k].value, capacity, rate, times[k]);
  }

  // --- Redis ---------------------------------------------------------------

  /** The bucket hash and the instant its key expires. */
  datatype Stored = Stored(bucket: Bucket, expireAt: real)

  /** HMGET: an expired key reads as missing. */
  function Visible(s: Option<Stored>, now: real): Option<Bucket> {
    if s.Some? && now < s.value.expireAt then Some(s.value.bucket) else None
  }

  function RedisLevel(s: Option<Stored>, capacity: real, rate: real, now: real): real {
    Level(Visible(s, now), capacity, rate, now)
  }

  /** HSET then PEXPIRE; the expiry is the window in whole milliseconds. */
  function Kept(level: real, now: real, ttl: int): Stored {
    Stored(Spent(level, now), now + ttl as real)
  }

  /** The script reports whole milliseconds, rounding up. */
  function Ceil(x: real): int { -((-x).Floor) }

  function DecideRedis(level: real, rate: real): Outcome
    requires rate > 0.0
  {
    if level >= 1.0 then Allowed((level - 1.0).Floor) else Limited(Ceil((1.0 - level) / rate) as real)
  }

  class RedisTokenBucket {
    var hashes: map<string, Stored>

    constructor ()
      ensures hashes == map[]
    {
      hashes := map[];
    }

    method Check(key: string, maxRequests: nat, window: real, now: real) returns (r: Outcome)
      modifies this
      ensures var capacity := Capacity(maxRequests);
        var rate := Rate(capacity, window);
        var was := if key in old(hashes) then Some(old(hashes)[key]) else None;
        && r == DecideRedis(RedisLevel(was, capacity, rate, now), rate)
        && hashes == old(hashes)[key := Kept(RedisLevel(was, capacity, rate, now), now, window.Floor)]
    {
      var capacity := Capacity(maxRequests);
      var rate := Rate(capacity, window);
      var was := if key in hashes then Some(hashes[key]) else None;
      var stored;
      stored, r := RunScript(was, capacity, rate, window.Floor, now);
      hashes := hashes[key := stored];
    }

    /** The script on one key: refill, spend or refuse, write back, re-arm the expiry. */
    static method RunScript(was: Option<Stored>, capacity: real, rate: real, ttl: int, now: real)
      returns (stored: Stored, r: Outcome)
      requires rate > 0.0
      ensures r == DecideRedis(RedisLevel(was, capacity, rate, now), rate)
      ensures stored == Kept(RedisLevel(was, capacity, rate, now), now, ttl)
    {
      var tokens, ts := capacity, now;
      if was.Some? && now < was.value.expireAt {
        tokens, ts := was.value.bucket.tokens, was.value.bucket.refilledAt;
      }
      var elapsed := now - ts;
      if elapsed < 0.0 { elapsed := 0.0; }
      tokens := MinReal(capacity, tokens + elapsed * rate);
      if tokens >= 1.0 {
        tokens := tokens - 1.0;
        r := Allowed(tokens.Floor);
      } else {
        r := Limited(Ceil((1.0 - tokens) / rate) as real);
      }
      stored := Stored(Bucket(tokens, now), now + ttl as real);
    }
  }

  lemma CeilBounds(x: real)
    ensures x <= Ceil(x) as real < x + 1.0
  {
  }

  ghost predicate RedisCallAt(times: seq<real>, stored: seq<Option<Stored>>, capacity: real, rate: real, ttl: int, n: nat) {
    && n < |times| && n + 1 < |stored|
    && stored[n + 1] == Some(Kept(RedisLevel(stored[n], capacity, rate, times[n]), times[n], ttl))
  }

  ghost predicate IsRedisRun(times: seq<real>, stored: seq<Option<Stored>>, capacity: real, rate: real, ttl: int) {
    && |stored| == |times| + 1 && stored[0] == None
    && forall n :: 0 <= n < |times| ==> RedisCallAt(times, stored, capacity, rate, ttl, n)
  }

  /** A bucket idle for a whole window is full again, so forgetting it changes nothing. */
  lemma IdleBucketIsFull(b: Bucket, capacity: real, window: real, now: real)
    requires capacity >= 1.0 && window > 0.0 && b.tokens >= 0.0 && now >= b.refilledAt + window
    ensures Level(Some(b), capacity, capacity / window, now) == capacity
  {
    var rate := capacity / window;
    assert window * rate == capacity;
    var extra := now - b.refilledAt - window;
    assert (now - b.refilledAt) * rate == window * rate + extra * rate;
    MulNonnegative(extra, rate);
  }

  /** With a whole-millisecond window, expiring the key gives the same level at
      every call of every run as keeping the bucket for ever. */
  lemma {:induction false} ExpiryIsInvisible(
    times: seq<real>, states: seq<Option<Bucket>>, stored: seq<Option<Stored>>, capacity: real, window: int, n: nat)
    requires window >= 1 && capacity >= 1.0
    requires IsBucketRun(times, states, capacity, capacity / window as real)
    requires IsRedisRun(times, stored, capacity, capacity / window as real, window)
    requires n < |times|
    ensures RedisLevel(stored[n], capacity, capacity / window as real, times[n])
      == Level(states[n], capacity, capacity / window as real, times[n])
  {
    var rate := capacity / window as real;
    if n > 0 {
      ExpiryIsInvisible(times, states, stored, capacity, window, n - 1);
      assert CallAt(times, states, capacity, rate, n - 1) && CallAt(times, states, capacity, rate, n);
      assert RedisCallAt(times, stored, capacity, rate, window, n - 1);
      TokensBounded(times, states, capacity, rate, n);
      if times[n] >= stored[n].value.expireAt {
        IdleBucketIsFull(states[n].value, capacity, window as real, times[n]);
      }
    }
  }

  /** Every sequence of calls has its Redis run. */
  ghost function StoredStates(times: seq<real>, capacity: real, rate: real, ttl: int): (stored: seq<Option<Stored>>)
    ensures IsRedisRun(times, stored, capacity, rate, ttl)
  {
    if times == [] then [None]
    else
      var n := |times| - 1;
      var before := StoredStates(times[..n], capacity, rate, ttl);
      var stored := before + [Some(Kept(RedisLevel(before[n], capacity, rate, times[n]), times[n], ttl))];
      assert forall k :: 0 <= k < n ==>
        RedisCallAt(times[..n], before, capacity, rate, ttl, k) ==> RedisCallAt(times, stored, capacity, rate, ttl, k);
      assert RedisCallAt(times, stored, capacity, rate, ttl, n);
      stored
  }

  // --- Windows that are not whole milliseconds -----------------------------

  /** Draining a full bucket of `c` tokens by calls at time zero. */
  lemma {:induction false} Drained(times: seq<real>, states: seq<Option<Bucket>>, c: nat, rate: real, k: nat)
    requires c >= 1 && IsBucketRun(times, states, c as real, rate)
    requires 0 < k <= c && k <= |times| && forall j :: 0 <= j < k ==> times[j] == 0.0
    ensures states[k] == Some(Bucket((c - k) as real, 0.0))
  {
    assert CallAt(times, states, c as real, rate, k - 1);
    if k > 1 { Drained(times, states, c, rate, k - 1); }
  }

  /** `c` calls at zero and one when the key has just expired. */
  function DrainThenWait(c: nat, ttl: nat): (times: seq<real>)
    ensures |times| == c + 1 && (forall j :: 0 <= j < c ==> times[j] == 0.0) && times[c] == ttl as real
  {
    seq(c + 1, k => if k < c then 0.0 else ttl as real)
  }

  /** An expiry shorter than the refill window drops the bucket before it is full. */
  lemma ShortOfFull(b: Bucket, c: nat, w: real, ttl: nat)
    requires c >= 1 && w > 0.0 && ttl as real < w && b == Bucket(0.0, 0.0)
    ensures Level(Some(b), c as real, c as real / w, ttl as real) < c as real
  {
    var rate := c as real / w;
    assert w * rate == c as real;
    var short := w - ttl as real;
    assert ttl as real * rate == w * rate - short * rate;
    MulNegative(-short, rate);
  }

  /** Then the script allows the last call with a full bucket and memory does not. */
  lemma EarlyExpiryShows(c: nat, w: real, ttl: nat)
    requires c >= 1 && w > 0.0 && ttl as real < w
    ensures var times, rate := DrainThenWait(c, ttl), c as real / w;
      && Chronological(times)
      && DecideRedis(RedisLevel(StoredStates(times, c as real, rate, ttl)[c], c as real, rate, times[c]), rate) == Allowed(c - 1)
      && Decide(Level(BucketStates(times, c as real, rate)[c], c as real, rate, times[c]), rate) != Allowed(c - 1)
  {
    var times, rate := DrainThenWait(c, ttl), c as real / w;
    var states, stored := BucketStates(times, c as real, rate), StoredStates(times, c as real, rate, ttl);
    Drained(times, states, c, rate, c);
    assert RedisCallAt(times, stored, c as real, rate, ttl, c - 1);
    ShortOfFull(states[c].value, c, w, ttl);
  }

  /** An answer with its wait in whole milliseconds, rounded up. */
  function Rounded(o: Outcome): Outcome {
    match o
    case Allowed(_) => o
    case Limited(wait) => Limited(Ceil(wait) as real)
  }

  /** The script answers call `n` as a bucket kept for ever would. */
  ghost predicate AnswersAlike(times: seq<real>, capacity: real, rate: real, ttl: int, n: nat)
    requires Chronological(times) && capacity >= 1.0 && rate > 0.0 && n < |times|
  {
    DecideRedis(RedisLevel(StoredStates(times, capacity, rate, ttl)[n], capacity, rate, times[n]), rate)
    == Rounded(Decide(Level(BucketStates(times, capacity, rate)[n], capacity, rate, times[n]), rate))
  }

  ghost predicate ExpiryUnseen(capacity: real, rate: real, ttl: int)
    requires capacity >= 1.0 && rate > 0.0
  {
    forall times, n: nat :: Chronological(times) && n < |times| ==> AnswersAlike(times, capacity, rate, ttl, n)
  }

  lemma WholeWindowUnseen(c: nat, window: int)
    requires c >= 1 && window >= 1
    ensures ExpiryUnseen(c as real, c as real / window as real, window)
  {
    var capacity, rate := c as real, c as real / window as real;
    forall times, n: nat | Chronological(times) && n < |times| ensures AnswersAlike(times, capacity, rate, window, n) {
      ExpiryIsInvisible(times, BucketStates(times, capacity, rate), StoredStates(times, capacity, rate, window), capacity, window, n);
    }
  }

  lemma ShortExpirySeen(c: nat, w: real, ttl: nat)
    requires c >= 1 && w > 0.0 && ttl as real < w
    ensures !ExpiryUnseen(c as real, c as real / w, ttl)
  {
    EarlyExpiryShows(c, w, ttl);
    assert !AnswersAlike(DrainThenWait(c, ttl), c as real, c as real / w, ttl, c);
  }

  /** Redis dropping the idle bucket is never seen in an answer if and only if the
      window is a positive whole number of milliseconds. */
  lemma ExpiryUnseenIffWholeMillis(c: nat, window: real)
    requires c >= 1 && window >= 0.0
    ensures ExpiryUnseen(c as real, Rate(c as real, window), window.Floor)
      <==> window >= 1.0 && window == window.Floor as real
  {
    var w := RefillWindow(window);
    if window >= 1.0 && window == window.Floor as real {
      MinPositiveIsTiny();
      WholeWindowUnseen(c, window.Floor);
    } else {
      ShortExpirySeen(c, w, window.Floor);
    }
  }

  // --- The script's retry times --------------------------------------------

  ghost predicate RedisAdmitsAt(times: seq<real>, stored: seq<Option<Stored>>, capacity: real, rate: real, n: nat) {
    n < |times| && n < |stored| && RedisLevel(stored[n], capacity, rate, times[n]) >= 1.0
  }

  ghost predicate RefusedFrom(times: seq<real>, stored: seq<Option<Stored>>, capacity: real, rate: real, i: nat, k: nat) {
    forall j :: i <= j < k ==> !RedisAdmitsAt(times, stored, capacity, rate, j)
  }

  /** How long the script lets call `i` wait, before rounding. */
  ghost function RedisWait(times: seq<real>, stored: seq<Option<Stored>>, capacity: real, rate: real, i: nat): real
    requires i < |times| && i < |stored| && rate > 0.0
  {
    (1.0 - RedisLevel(stored[i], capacity, rate, times[i])) / rate
  }

  lemma {:induction false} RedisDuePersists(
    times: seq<real>, stored: seq<Option<Stored>>, capacity: real, rate: real, ttl: int, i: nat, k: nat)
    requires Chronological(times) && IsRedisRun(times, stored, capacity, rate, ttl) && capacity >= 1.0 && rate > 0.0
    requires i < k <= |times| && RefusedFrom(times, stored, capacity, rate, i, k)
    ensures stored[k].Some? && stored[k].value.expireAt == times[k - 1] + ttl as real
    ensures stored[k].value.bucket.tokens < 1.0 && stored[k].value.bucket.refilledAt == times[k - 1]
    ensures TokenDue(stored[k].value.bucket, rate) == times[i] + RedisWait(times, stored, capacity, rate, i)
    decreases k - i
  {
    assert RedisCallAt(times, stored, capacity, rate, ttl, k - 1);
    assert !RedisAdmitsAt(times, stored, capacity, rate, k - 1);
    if k > i + 1 {
      RedisDuePersists(times, stored, capacity, rate, ttl, i, k - 1);
      var b := stored[k - 1].value.bucket;
      assert Visible(stored[k - 1], times[k - 1]) == Some(b);
      DueCrossing(b, capacity, rate, times[k - 1]);
      RefusalKeepsDue(b, capacity, rate, times[k - 1]);
    }
  }

  /** In every run of the script, after a refusal and with only refusals since, a
      call is admitted exactly when the wait is over or the key has expired. */
  lemma RedisRetryTime(
    times: seq<real>, stored: seq<Option<Stored>>, capacity: real, rate: real, ttl: int, i: nat, k: nat)
    requires Chronological(times) && IsRedisRun(times, stored, capacity, rate, ttl) && capacity >= 1.0 && rate > 0.0
    requires i < k < |times| && RefusedFrom(times, stored, capacity, rate, i, k)
    ensures RedisAdmitsAt(times, stored, capacity, rate, k) <==>
      times[k] >= times[i] + RedisWait(times, stored, capacity, rate, i) || times[k] >= times[k - 1] + ttl as real
  {
    RedisDuePersists(times, stored, capacity, rate, ttl, i, k);
    DueCrossing(stored[k].value.bucket, capacity, rate, times[k]);
  }

  /** The announced wait, rounded up to whole milliseconds, is long enough, and one
      millisecond less is not while the key lives. */
  lemma RoundedRetryAdmits(
    times: seq<real>, stored: seq<Option<Stored>>, capacity: real, rate: real, ttl: int, i: nat, k: nat)
    requires Chronological(times) && IsRedisRun(times, stored, capacity, rate, ttl) && capacity >= 1.0 && rate > 0.0
    requires i < k < |times| && RefusedFrom(times, stored, capacity, rate, i, k)
    ensures var announced := Ceil(RedisWait(times, stored, capacity, rate, i));
      && (times[k] >= times[i] + announced as real ==> RedisAdmitsAt(times, stored, capacity, rate, k))
      && (times[k] <= times[i] + (announced - 1) as real && times[k] < times[k - 1] + ttl as real ==>
            !RedisAdmitsAt(times, stored, capacity, rate, k))
  {
    RedisRetryTime(times, stored, capacity, rate, ttl, i, k);
    CeilBounds(RedisWait(times, stored, capacity, rate, i));
  }

  // --- Answers -------------------------------------------------------------

  /** What call `k` on a new key is told. */
  ghost function Answer(times: seq<real>, maxRequests: nat, window: real, k: nat): Outcome
    requires Chronological(times) && k < |times|
  {
    var capacity := Capacity(maxRequests);
    var rate := Rate(capacity, window);
    Decide(Level(BucketStates(times, capacity, rate)[k], capacity, rate, times[k]), rate)
  }

  /** What the script answers call `k` on a new key. */
  ghost function ScriptAnswer(times: seq<real>, maxRequests: nat, window: real, k: nat): Outcome
    requires k < |times|
  {
    var capacity := Capacity(maxRequests);
    var rate := Rate(capacity, window);
    DecideRedis(RedisLevel(StoredStates(times, capacity, rate, window.Floor)[k], capacity, rate, times[k]), rate)
  }

  /** Allowed means a token was there, with the whole tokens left as the count;
      Limited announces when the next one is. */
  lemma DecideMeaning(level: real, rate: real, now: real)
    requires rate > 0.0
    ensures Decide(level, rate).Allowed? <==> level >= 1.0
    ensures DecideRedis(level, rate).Allowed? <==> level >= 1.0
    ensures level >= 1.0 ==> DecideRedis(level, rate) == Decide(level, rate)
    ensures level >= 1.0 ==>
      Decide(level, rate).remaining as real <= Spent(level, now).tokens < (Decide(level, rate).remaining + 1) as real
    ensures level < 1.0 ==> Decide(level, rate).retryAfter == (1.0 - level) / rate
    ensures level < 1.0 ==> DecideRedis(level, rate).retryAfter == Ceil((1.0 - level) / rate) as real
  {
  }

  lemma {:induction false} BurstLevels(times: seq<real>, states: seq<Option<Bucket>>, c: nat, rate: real, at: real, k: nat)
    requires c >= 1 && IsBucketRun(times, states, c as real, rate) && 0 < k <= |times|
    requires forall j :: 0 <= j < |times| ==> times[j] == at
    ensures states[k] == Some(Bucket((if k < c then c - k else 0) as real, at))
  {
    assert CallAt(times, states, c as real, rate, k - 1);
    if k > 1 {
      BurstLevels(times, states, c, rate, at, k - 1);
      BackwardClockAddsNothing(states[k - 1].value, c as real, rate, at);
    }
  }

  /** Of calls at one instant on a new key the first max(maxRequests, 1) are allowed,
      counting down to zero, and the others wait for a token. */
  lemma BurstAnswers(maxRequests: nat, window: real, at: real, n: nat, k: nat)
    requires k < n
    ensures var times, limit := seq(n, _ => at), if maxRequests == 0 then 1 else maxRequests;
      if k < limit then Answer(times, maxRequests, window, k) == Allowed(limit - 1 - k)
      else Answer(times, maxRequests, window, k) == Limited(1.0 / Rate(limit as real, window))
  {
    var times, limit := seq(n, _ => at), if maxRequests == 0 then 1 else maxRequests;
    var rate := Rate(limit as real, window);
    if k > 0 { BurstLevels(times, BucketStates(times, limit as real, rate), limit, rate, at, k); }
  }

  lemma {:induction false} BurstStored(times: seq<real>, stored: seq<Option<Stored>>, c: nat, rate: real, ttl: int, at: real, k: nat)
    requires c >= 1 && ttl >= 1 && IsRedisRun(times, stored, c as real, rate, ttl) && 0 < k <= |times|
    requires forall j :: 0 <= j < |times| ==> times[j] == at
    ensures stored[k] == Some(Stored(Bucket((if k < c then c - k else 0) as real, at), at + ttl as real))
  {
    assert RedisCallAt(times, stored, c as real, rate, ttl, k - 1);
    if k > 1 {
      BurstStored(times, stored, c, rate, ttl, at, k - 1);
      var b := stored[k - 1].value.bucket;
      assert Visible(stored[k - 1], times[k - 1]) == Some(b);
      BackwardClockAddsNothing(b, c as real, rate, at);
    }
  }

  /** The script answers such calls the same way when its key lives for a millisecond. */
  lemma ScriptBurstAnswers(maxRequests: nat, window: real, at: real, n: nat, k: nat)
    requires window >= 1.0 && k < n
    ensures var times, limit := seq(n, _ => at), if maxRequests == 0 then 1 else maxRequests;
      if k < limit then ScriptAnswer(times, maxRequests, window, k) == Allowed(limit - 1 - k)
      else ScriptAnswer(times, maxRequests, window, k) == Limited(Ceil(1.0 / Rate(limit as real, window)) as real)
  {
    var times, limit := seq(n, _ => at), if maxRequests == 0 then 1 else maxRequests;
    var rate := Rate(limit as real, window);
    if k > 0 {
      BurstStored(times, StoredStates(times, limit as real, rate, window.Floor), limit, rate, window.Floor, at, k);
    }
  }

  /** Calls `i` to `j - 1` that were told Allowed. */
  ghost function AllowedCount(times: seq<real>, maxRequests: nat, window: real, i: nat, j: nat): nat
    requires Chronological(times) && j <= |times|
  {
    if j <= i then 0
    else AllowedCount(times, maxRequests, window, i, j - 1) + if Answer(times, maxRequests, window, j - 1).Allowed? then 1 else 0
  }

  lemma {:induction false} AllowedIsAdmitted(
    times: seq<real>, maxRequests: nat, window: real, capacity: real, rate: real, i: nat, j: nat)
    requires Chronological(times) && j <= |times| && capacity == Capacity(maxRequests) && rate == Rate(capacity, window)
    ensures AllowedCount(times, maxRequests, window, i, j) == Admitted(times, BucketStates(times, capacity, rate), capacity, rate, i, j)
    decreases j
  {
    if i < j { AllowedIsAdmitted(times, maxRequests, window, capacity, rate, i, j - 1); }
  }

  lemma {:induction false} TimesOrdered(times: seq<real>, i: nat, j: nat)
    requires Chronological(times) && i <= j < |times|
    ensures times[i] <= times[j]
  {
    if i < j { TimesOrdered(times, i, j - 1); }
  }

  /** No more than a full bucket and the refill of `span`. */
  ghost predicate WithinRefill(n: nat, capacity: real, rate: real, span: real) {
    n as real <= capacity + span * rate
  }

  /** No more than a full bucket for each window of `span`, and one besides. */
  ghost predicate WithinWindows(n: nat, capacity: real, window: real, span: real)
    requires window > 0.0
  {
    n as real <= capacity * (1.0 + span / window)
  }

  lemma RefillAtMost(n: nat, c: real, span: real, window: real, w: real)
    requires c >= 1.0 && span >= 0.0 && 0.0 < window <= w && WithinRefill(n, c, c / w, span)
    ensures WithinWindows(n, c, window, span)
  {
    QuotientShrinks(c, window, w);
    ProductGrows(span, c / w, c / window);
    Regroup(c, span, window);
    assert c * (1.0 + span / window) == c + c * (span / window);
  }

  lemma QuotientShrinks(c: real, small: real, large: real)
    requires c >= 0.0 && 0.0 < small <= large
    ensures c / large <= c / small
  {
    var q := c / large;
    assert q * large == c;
    assert q >= 0.0;
    ProductGrows(q, small, large);
    assert q * small <= c;
  }

  lemma ProductGrows(x: real, y: real, z: real)
    requires x >= 0.0 && y <= z
    ensures x * y <= x * z
  {
    MulNonnegative(x, z - y);
    assert x * z == x * y + x * (z - y);
  }

  lemma Regroup(c: real, span: real, window: real)
    requires window > 0.0
    ensures c * (span / window) == span * (c / window)
  {
    assert (c * (span / window)) * window == c * span;
    assert (span * (c / window)) * window == span * c;
  }

  /** Any calls spanning T are told Allowed at most max(maxRequests, 1) * (1 + T / window) times. */
  lemma AllowedBounded(times: seq<real>, maxRequests: nat, window: real, i: nat, j: nat)
    requires Chronological(times) && i < j <= |times| && window > 0.0
    ensures var limit := if maxRequests == 0 then 1 else maxRequests;
      WithinWindows(AllowedCount(times, maxRequests, window, i, j), limit as real, window, times[j - 1] - times[i])
  {
    var capacity, span := Capacity(maxRequests), times[j - 1] - times[i];
    TimesOrdered(times, i, j - 1);
    AllowedWithin(times, maxRequests, window, capacity, Rate(capacity, window), span, i, j);
    RefillAtMost(AllowedCount(times, maxRequests, window, i, j), capacity, span, window, RefillWindow(window));
  }

  lemma AllowedWithin(times: seq<real>, maxRequests: nat, window: real, capacity: real, rate: real, span: real, i: nat, j: nat)
    requires Chronological(times) && i < j <= |times| && capacity == Capacity(maxRequests) && rate == Rate(capacity, window)
    requires span == times[j - 1] - times[i]
    ensures WithinRefill(AllowedCount(times, maxRequests, window, i, j), capacity, rate, span)
  {
    AllowedIsAdmitted(times, maxRequests, window, capacity, rate, i, j);
    AdmittedWithin(times, BucketStates(times, capacity, rate), capacity, rate, span, i, j);
  }

  lemma AdmittedWithin(times: seq<real>, states: seq<Option<Bucket>>, capacity: real, rate: real, span: real, i: nat, j: nat)
    requires IsBucketRun(times, states, capacity, rate) && i < j <= |times| && span == times[j - 1] - times[i]
    ensures WithinRefill(Admitted(times, states, capacity, rate, i, j), capacity, rate, span)
  {
    AdmissionsBounded(times, states, capacity, rate, i, j);
  }

  /** After a refusal, with no call since past the announced wait, a call is allowed
      exactly when that wait is over. */
  lemma AnnouncedWaitIsExact(times: seq<real>, maxRequests: nat, window: real, i: nat, k: nat)
    requires Chronological(times) && i < k < |times| && Answer(times, maxRequests, window, i).Limited?
    requires forall j :: i < j < k ==> times[j] < times[i] + Answer(times, maxRequests, window, i).retryAfter
    ensures Answer(times, maxRequests, window, k).Allowed? <==>
      times[k] >= times[i] + Answer(times, maxRequests, window, i).retryAfter
  {
    var capacity := Capacity(maxRequests);
    var rate := Rate(capacity, window);
    RetryTimeIsExact(times, BucketStates(times, capacity, rate), capacity, rate, i, k);
  }

  /** The script's announced wait, with only refusals since, is long enough, and a
      millisecond less is not while the key lives. */
  lemma AnnouncedScriptWait(times: seq<real>, maxRequests: nat, window: real, i: nat, k: nat)
    requires Chronological(times) && i < k < |times|
    requires forall j :: i <= j < k ==> ScriptAnswer(times, maxRequests, window, j).Limited?
    ensures var until := times[i] + ScriptAnswer(times, maxRequests, window, i).retryAfter;
      && (times[k] >= until ==> ScriptAnswer(times, maxRequests, window, k).Allowed?)
      && (times[k] <= until - 1.0 && times[k] < times[k - 1] + window.Floor as real ==>
            ScriptAnswer(times, maxRequests, window, k).Limited?)
  {
    var capacity := Capacity(maxRequests);
    var rate := Rate(capacity, window);
    var stored := StoredStates(times, capacity, rate, window.Floor);
    assert RefusedFrom(times, stored, capacity, rate, i, k) by {
      forall j | i <= j < k ensures !RedisAdmitsAt(times, stored, capacity, rate, j) {
        assert ScriptAnswer(times, maxRequests, window, j).Limited?;
      }
    }
    assert ScriptAnswer(times, maxRequests, window, i).Limited?;
    RoundedRetryAdmits(times, stored, capacity, rate, window.Floor, i, k);
  }

  /** A clock that went back refills nothing. */
  lemma BackwardClockAddsNothing(b: Bucket, capacity: real, rate: real, now: real)
    requires now <= b.refilledAt && b.tokens <= capacity
    ensures Level(Some(b), capacity, rate, now) == b.tokens
  {
  }
}
