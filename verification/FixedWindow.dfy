/** The fixed-window rate limiter, in memory and as a Redis counter. Times are milliseconds. */
module FixedWindow {
  import opened Text
  import opened Numbers

  datatype Outcome = Allowed(remaining: nat) | Limited(retryAfter: nat)

  // --- In memory -----------------------------------------------------------

  datatype Window = Window(started: int, count: nat)

  /** The window a call at `now` counts in: a new key or an elapsed window starts afresh. */
  function Current(w: Option<Window>, window: nat, now: int): Window {
    if w.Some? && now - w.value.started < window then w.value else Window(now, 0)
  }

  function Decide(w: Window, max: nat, window: nat, now: int): Outcome
    requires max >= 1
  {
    if w.count >= max then Limited(Max(window - (now - w.started), 0)) else Allowed(max - (w.count + 1))
  }

  function Counted(w: Window, max: nat): Window {
    if w.count >= max then w else w.(count := w.count + 1)
  }

  class InMemoryRateLimiter {
    var windows: map<string, Window>

    constructor ()
      ensures windows == map[]
    {
      windows := map[];
    }

    method Check(key: string, maxRequests: nat, window: nat, now: int) returns (r: Outcome)
      modifies this
      ensures var max := Max(maxRequests, 1);
        var was := if key in old(windows) then Some(old(windows)[key]) else None;
        && r == Decide(Current(was, window, now), max, window, now)
        && windows == old(windows)[key := Counted(Current(was, window, now), max)]
    {
      var max := Max(maxRequests, 1);
      if key !in windows { windows := windows[key := Window(now, 0)]; }
      var entry := windows[key];
      if now - entry.started >= window {
        entry := Window(now, 0);
      }
      if entry.count >= max {
        var remaining := window - (now - entry.started);
        r := Limited(Max(remaining, 0));
      } else {
        entry := entry.(count := entry.count + 1);
        r := Allowed(max - entry.count);
      }
      windows := windows[key := entry];
    }
  }

  // --- Redis ---------------------------------------------------------------

  /** The counter key: its value and the instant it expires. */
  datatype Counter = Counter(count: nat, expireAt: int)

  /** INCR, and on the first hit PEXPIRE (which at zero deletes the key at once). */
  function Bumped(c: Option<Counter>, window: nat, now: int): Counter {
    if c.Some? && now < c.value.expireAt then c.value.(count := c.value.count + 1)
    else Counter(1, now + window)
  }

  /** PTTL of a key just touched; -2 once it is gone. */
  function Pttl(c: Counter, now: int): int { if now < c.expireAt then c.expireAt - now else -2 }

  function DecideRedis(c: Counter, max: nat, window: nat, now: int): Outcome {
    if c.count <= max then Allowed(max - c.count)
    else if Pttl(c, now) > 0 then Limited(Pttl(c, now)) else Limited(window)
  }

  class RedisRateLimiter {
    var counters: map<string, Counter>

    constructor ()
      ensures counters == map[]
    {
      counters := map[];
    }

    method Check(key: string, maxRequests: nat, window: nat, now: int) returns (r: Outcome)
      modifies this
      ensures var was := if key in old(counters) then Some(old(counters)[key]) else None;
        && r == DecideRedis(Bumped(was, window, now), Max(maxRequests, 1), window, now)
        && counters == old(counters)[key := Bumped(was, window, now)]
    {
      var max := Max(maxRequests, 1);
      var current := 1;
      var expireAt := now + window;
      if key in counters && now < counters[key].expireAt {
        current := counters[key].count + 1;
        expireAt := counters[key].expireAt;
      }
      counters := counters[key := Counter(current, expireAt)];
      var pttl := if now < expireAt then expireAt - now else -2;
      if current <= max {
        r := Allowed(Max(max - current, 0));
      } else {
        r := Limited(if pttl > 0 then pttl else window);
      }
    }
  }

  // --- Runs on one key -----------------------------------------------------

  ghost predicate CallAt(times: seq<int>, states: seq<Option<Window>>, max: nat, window: nat, n: nat) {
    && n < |times| && n + 1 < |states|
    && (n > 0 ==> times[n - 1] <= times[n])
    && states[n + 1] == Some(Counted(Current(states[n], window, times[n]), max))
  }

  /** The key's window before, between and after calls at non-decreasing `times`. */
  ghost predicate IsWindowRun(times: seq<int>, states: seq<Option<Window>>, max: nat, window: nat) {
    && |states| == |times| + 1 && states[0] == None
    && forall n :: 0 <= n < |times| ==> CallAt(times, states, max, window, n)
  }

  ghost predicate Chronological(times: seq<int>) {
    forall n :: 0 < n < |times| ==> times[n - 1] <= times[n]
  }

  /** Every sequence of calls has its run. */
  ghost function WindowStates(times: seq<int>, max: nat, window: nat): (states: seq<Option<Window>>)
    requires Chronological(times)
    ensures IsWindowRun(times, states, max, window)
  {
    if times == [] then [None]
    else
      var n := |times| - 1;
      var before := WindowStates(times[..n], max, window);
      var states := before + [Some(Counted(Current(before[n], window, times[n]), max))];
      assert forall k :: 0 <= k < n ==> CallAt(times[..n], before, max, window, k) ==> CallAt(times, states, max, window, k);
      assert CallAt(times, states, max, window, n);
      states
  }

  ghost predicate RedisCallAt(times: seq<int>, counters: seq<Option<Counter>>, window: nat, n: nat) {
    n < |times| && n + 1 < |counters| && counters[n + 1] == Some(Bumped(counters[n], window, times[n]))
  }

  ghost predicate IsCounterRun(times: seq<int>, counters: seq<Option<Counter>>, window: nat) {
    && |counters| == |times| + 1 && counters[0] == None
    && forall n :: 0 <= n < |times| ==> RedisCallAt(times, counters, window, n)
  }

  /** Window and counter agree at `now`: both over, or both open to the same
      instant, the window's count being the counter's cut off at `max`. */
  ghost predicate Tallies(w: Option<Window>, c: Option<Counter>, max: nat, window: nat, now: int) {
    && (w.Some? && now - w.value.started < window <==> c.Some? && now < c.value.expireAt)
    && (w.Some? && now - w.value.started < window ==>
          c.value.expireAt == w.value.started + window && c.value.count >= 1 && w.value.count == Min(c.value.count, max))
  }

  lemma TalliesStep(w: Option<Window>, c: Option<Counter>, max: nat, window: nat, now: int, later: int)
    requires max >= 1 && Tallies(w, c, max, window, now) && now <= later
    ensures Tallies(Some(Counted(Current(w, window, now), max)), Some(Bumped(c, window, now)), max, window, later)
    ensures DecideRedis(Bumped(c, window, now), max, window, now) == Decide(Current(w, window, now), max, window, now)
  {
  }

  lemma {:induction false} RunTallies(
    times: seq<int>, states: seq<Option<Window>>, counters: seq<Option<Counter>>, max: nat, window: nat, n: nat)
    requires max >= 1 && IsWindowRun(times, states, max, window) && IsCounterRun(times, counters, window)
    requires n < |times|
    ensures Tallies(states[n], counters[n], max, window, times[n])
  {
    if n > 0 {
      RunTallies(times, states, counters, max, window, n - 1);
      assert CallAt(times, states, max, window, n - 1) && CallAt(times, states, max, window, n);
      assert RedisCallAt(times, counters, window, n - 1);
      TalliesStep(states[n - 1], counters[n - 1], max, window, times[n - 1], times[n]);
    }
  }

  /** The Redis counter, which also counts refusals, gives the same verdicts,
      remaining counts and retry times as the in-memory window. */
  lemma RedisAnswersAlike(
    times: seq<int>, states: seq<Option<Window>>, counters: seq<Option<Counter>>, max: nat, window: nat, n: nat)
    requires max >= 1 && IsWindowRun(times, states, max, window) && IsCounterRun(times, counters, window)
    requires n < |times|
    ensures DecideRedis(Bumped(counters[n], window, times[n]), max, window, times[n])
      == Decide(Current(states[n], window, times[n]), max, window, times[n])
  {
    RunTallies(times, states, counters, max, window, n);
    TalliesStep(states[n], counters[n], max, window, times[n], times[n]);
  }

  // --- How many requests an interval admits --------------------------------

  ghost predicate AdmitsAt(times: seq<int>, states: seq<Option<Window>>, max: nat, window: nat, n: nat) {
    n < |times| && n < |states| && Current(states[n], window, times[n]).count < max
  }

  /** Requests admitted among calls `i` to `j - 1`. */
  ghost function Admitted(times: seq<int>, states: seq<Option<Window>>, max: nat, window: nat, i: nat, j: nat): nat {
    if j <= i then 0
    else Admitted(times, states, max, window, i, j - 1) + if AdmitsAt(times, states, max, window, j - 1) then 1 else 0
  }

  /** Once opened a window has counted a call, and never counts past `max`. */
  lemma {:induction false} CountsBounded(times: seq<int>, states: seq<Option<Window>>, max: nat, window: nat, n: nat)
    requires max >= 1 && IsWindowRun(times, states, max, window) && n <= |times|
    ensures states[n].Some? ==> 1 <= states[n].value.count <= max
  {
    if n > 0 {
      CountsBounded(times, states, max, window, n - 1);
      assert CallAt(times, states, max, window, n - 1);
    }
  }

  lemma {:induction false} TimesOrdered(times: seq<int>, states: seq<Option<Window>>, max: nat, window: nat, i: nat, j: nat)
    requires IsWindowRun(times, states, max, window) && i <= j < |times|
    ensures times[i] <= times[j]
    decreases j - i
  {
    if i < j {
      TimesOrdered(times, states, max, window, i, j - 1);
      assert CallAt(times, states, max, window, j);
    }
  }

  /** Either the window open before call `i` is still the one counting, or a later
      one opened inside the span and holds what the older one did not. */
  ghost predicate SpanTally(
    times: seq<int>, states: seq<Option<Window>>, max: nat, window: nat, i: nat, j: nat)
    requires i < j < |states| && i < |times|
  {
    var n := Admitted(times, states, max, window, i, j);
    && states[j].Some?
    && if states[i].Some? && states[j].value.started == states[i].value.started && times[i] - states[i].value.started < window
       then n + states[i].value.count == states[j].value.count
       else states[j].value.started >= times[i] && n <= max - 1 + states[j].value.count
  }

  lemma SpanStep(times: seq<int>, states: seq<Option<Window>>, max: nat, window: nat, i: nat, j: nat)
    requires max >= 1 && IsWindowRun(times, states, max, window)
    requires i < j < |times| && times[j] - times[i] < window
    requires SpanTally(times, states, max, window, i, j)
    ensures SpanTally(times, states, max, window, i, j + 1)
  {
    assert CallAt(times, states, max, window, j);
    CountsBounded(times, states, max, window, i);
    CountsBounded(times, states, max, window, j);
    TimesOrdered(times, states, max, window, i, j);
  }

  lemma {:induction false} SpanTallies(times: seq<int>, states: seq<Option<Window>>, max: nat, window: nat, i: nat, j: nat)
    requires max >= 1 && IsWindowRun(times, states, max, window)
    requires i < j <= |times| && times[j - 1] - times[i] < window
    ensures SpanTally(times, states, max, window, i, j)
    decreases j - i
  {
    if j == i + 1 {
      assert CallAt(times, states, max, window, i);
      CountsBounded(times, states, max, window, i);
      assert Admitted(times, states, max, window, i, i) == 0;
    } else {
      assert CallAt(times, states, max, window, j - 1);
      SpanTallies(times, states, max, window, i, j - 1);
      SpanStep(times, states, max, window, i, j - 1);
    }
  }

  /** Calls spanning less than one window admit at most 2 * max - 1 requests. */
  lemma AtMostTwiceLessOne(times: seq<int>, states: seq<Option<Window>>, max: nat, window: nat, i: nat, j: nat)
    requires max >= 1 && IsWindowRun(times, states, max, window)
    requires i < j <= |times| && times[j - 1] - times[i] < window
    ensures Admitted(times, states, max, window, i, j) <= 2 * max - 1
  {
    SpanTallies(times, states, max, window, i, j);
    CountsBounded(times, states, max, window, i);
    CountsBounded(times, states, max, window, j);
  }

  /** A span of exactly one window may also touch the window opened at its end, but
      then it began with a window of its own. */
  ghost predicate ClosedTally(
    times: seq<int>, states: seq<Option<Window>>, max: nat, window: nat, i: nat, j: nat)
    requires i < j < |states| && i < |times|
  {
    var n := Admitted(times, states, max, window, i, j);
    && states[j].Some?
    && if states[i].Some? && states[j].value.started == states[i].value.started && times[i] - states[i].value.started < window
       then n + states[i].value.count == states[j].value.count
       else if states[j].value.started == times[i] then n == states[j].value.count
       else LaterTally(n, max, states[j].value, times[i], times[i] + window)
  }

  /** What may have been admitted from `start` when the current window opened later. */
  ghost predicate LaterTally(n: nat, max: nat, w: Window, start: int, end: int) {
    start < w.started <= end && n <= max + w.count && (w.started < end ==> n <= max - 1 + w.count)
  }

  /** A window opened at some earlier call. */
  lemma {:induction false} OpenedEarlier(times: seq<int>, states: seq<Option<Window>>, max: nat, window: nat, n: nat)
    requires IsWindowRun(times, states, max, window) && n < |times|
    ensures states[n].Some? ==> states[n].value.started <= times[n]
  {
    if n > 0 {
      OpenedEarlier(times, states, max, window, n - 1);
      assert CallAt(times, states, max, window, n - 1) && CallAt(times, states, max, window, n);
    }
  }

  lemma ClosedStep(times: seq<int>, states: seq<Option<Window>>, max: nat, window: nat, i: nat, j: nat)
    requires max >= 1 && window >= 1 && IsWindowRun(times, states, max, window)
    requires i < j < |times| && times[j] - times[i] <= window
    requires ClosedTally(times, states, max, window, i, j)
    ensures ClosedTally(times, states, max, window, i, j + 1)
  {
    OpenedEarlier(times, states, max, window, i);
    assert CallAt(times, states, max, window, j);
    CountsBounded(times, states, max, window, i);
    CountsBounded(times, states, max, window, j);
    TimesOrdered(times, states, max, window, i, j);
  }

  lemma {:induction false} ClosedTallies(times: seq<int>, states: seq<Option<Window>>, max: nat, window: nat, i: nat, j: nat)
    requires max >= 1 && window >= 1 && IsWindowRun(times, states, max, window)
    requires i < j <= |times| && times[j - 1] - times[i] <= window
    ensures ClosedTally(times, states, max, window, i, j)
    decreases j - i
  {
    if j == i + 1 {
      assert CallAt(times, states, max, window, i);
      CountsBounded(times, states, max, window, i);
      assert Admitted(times, states, max, window, i, i) == 0;
    } else {
      assert CallAt(times, states, max, window, j - 1);
      ClosedTallies(times, states, max, window, i, j - 1);
      ClosedStep(times, states, max, window, i, j - 1);
    }
  }

  /** Calls spanning at most one window, both ends included, admit at most 2 * max. */
  lemma AtMostTwice(times: seq<int>, states: seq<Option<Window>>, max: nat, window: nat, i: nat, j: nat)
    requires max >= 1 && window >= 1 && IsWindowRun(times, states, max, window)
    requires i < j <= |times| && times[j - 1] - times[i] <= window
    ensures Admitted(times, states, max, window, i, j) <= 2 * max
  {
    ClosedTallies(times, states, max, window, i, j);
    CountsBounded(times, states, max, window, j);
  }

  // --- Windows under a millisecond -----------------------------------------

  /** `as_millis` drops the fraction of a millisecond. */
  function WindowMillis(nanos: nat): nat { nanos / 1000000 }

  /** A window that truncates to zero restarts on every call and admits them all. */
  lemma {:induction false} ZeroWindowAdmitsAll(times: seq<int>, states: seq<Option<Window>>, max: nat, i: nat, j: nat)
    requires max >= 1 && IsWindowRun(times, states, max, 0) && i <= j <= |times|
    ensures Admitted(times, states, max, 0, i, j) == j - i
    decreases j - i
  {
    if i < j {
      ZeroWindowAdmitsAll(times, states, max, i, j - 1);
      OpenedEarlier(times, states, max, 0, j - 1);
      assert AdmitsAt(times, states, max, 0, j - 1);
    }
  }

  /** In every run, calls spanning at most a window admit at most 2 * max. */
  ghost predicate TwiceBounds(max: nat, window: nat) {
    forall times: seq<int>, states, i: nat, j: nat ::
      IsWindowRun(times, states, max, window) && i < j <= |times| && times[j - 1] - times[i] <= window ==>
        Admitted(times, states, max, window, i, j) <= 2 * max
  }

  /** That holds exactly for windows of at least a millisecond. */
  lemma TwiceBoundIffOneMilli(max: nat, nanos: nat)
    requires max >= 1
    ensures TwiceBounds(max, WindowMillis(nanos)) <==> nanos >= 1000000
  {
    var window := WindowMillis(nanos);
    if nanos >= 1000000 {
      forall times: seq<int>, states, i: nat, j: nat | IsWindowRun(times, states, max, window)
        && i < j <= |times| && times[j - 1] - times[i] <= window
        ensures Admitted(times, states, max, window, i, j) <= 2 * max
      {
        AtMostTwice(times, states, max, window, i, j);
      }
    } else {
      var times := seq(2 * max + 1, _ => 0);
      var states := WindowStates(times, max, 0);
      ZeroWindowAdmitsAll(times, states, max, 0, 2 * max + 1);
      assert times[2 * max] - times[0] <= window;
    }
  }

  /** Half a millisecond and a limit of one: three calls at one instant are admitted. */
  lemma HalfMilliWindowAdmitsThree()
    ensures var times, window := [0, 0, 0], WindowMillis(500000);
      Admitted(times, WindowStates(times, 1, window), 1, window, 0, 3) == 3
  {
    var times := [0, 0, 0];
    ZeroWindowAdmitsAll(times, WindowStates(times, 1, 0), 1, 0, 3);
  }

  // --- The bounds are attained ---------------------------------------------

  /** One call at 0, `max - 1` at `mid` in the same window, `max` at the start of the next. */
  function BurstTimes(max: nat, window: nat, mid: nat): (times: seq<int>)
    ensures |times| == 2 * max
    ensures forall k :: 0 <= k < 2 * max ==> times[k] == if k == 0 then 0 else if k < max then mid else window
  {
    seq(2 * max, k => if k == 0 then 0 else if k < max then mid else window)
  }

  ghost predicate BurstState(states: seq<Option<Window>>, max: nat, window: nat, k: nat) {
    k < |states| && (k > 0 ==> states[k] == Some(if k <= max then Window(0, k) else Window(window, k - max)))
  }

  /** Every call of the burst is admitted. */
  lemma {:induction false} BurstStates(
    times: seq<int>, states: seq<Option<Window>>, max: nat, window: nat, mid: nat, i: nat, k: nat)
    requires max >= 1 && mid < window && times == BurstTimes(max, window, mid) && IsWindowRun(times, states, max, window)
    requires i <= k <= 2 * max
    ensures BurstState(states, max, window, k)
    ensures Admitted(times, states, max, window, i, k) == k - i
    decreases k
  {
    if k > 0 {
      BurstStates(times, states, max, window, mid, if i < k then i else k - 1, k - 1);
      assert CallAt(times, states, max, window, k - 1);
      assert AdmitsAt(times, states, max, window, k - 1);
    }
  }

  /** For every cap and every window of two milliseconds or more there are calls
      within one millisecond of which 2 * max - 1 are admitted. */
  lemma BoundIsAttained(max: nat, window: nat)
    requires max >= 1 && window >= 2
    ensures var times := BurstTimes(max, window, window - 1);
      && Chronological(times) && times[2 * max - 1] - times[1] <= 1
      && Admitted(times, WindowStates(times, max, window), max, window, 1, 2 * max) == 2 * max - 1
  {
    var times := BurstTimes(max, window, window - 1);
    BurstStates(times, WindowStates(times, max, window), max, window, window - 1, 1, 2 * max);
  }

  /** And calls exactly a window apart of which 2 * max are admitted. */
  lemma TwiceIsAttained(max: nat, window: nat)
    requires max >= 1 && window >= 1
    ensures var times := BurstTimes(max, window, 0);
      && Chronological(times) && times[2 * max - 1] - times[0] == window
      && Admitted(times, WindowStates(times, max, window), max, window, 0, 2 * max) == 2 * max
  {
    var times := BurstTimes(max, window, 0);
    BurstStates(times, WindowStates(times, max, window), max, window, 0, 0, 2 * max);
  }

  // --- Answers -------------------------------------------------------------

  /** The requests a window admits; a limit of zero counts as one. */
  function Limit(maxRequests: nat): (limit: nat)
    ensures limit >= 1
  {
    Max(maxRequests, 1)
  }

  /** What call `k` on a new key is told. */
  ghost function Answer(times: seq<int>, maxRequests: nat, window: nat, k: nat): Outcome
    requires Chronological(times) && k < |times|
  {
    var limit := Limit(maxRequests);
    Decide(Current(WindowStates(times, limit, window)[k], window, times[k]), limit, window, times[k])
  }

  /** A call is told Allowed exactly when it counts as admitted, and then what its
      window has left. */
  lemma AnswerMeaning(times: seq<int>, maxRequests: nat, window: nat, k: nat)
    requires Chronological(times) && k < |times|
    ensures var limit := Limit(maxRequests);
      var states := WindowStates(times, limit, window);
      && (Answer(times, maxRequests, window, k).Allowed? <==> AdmitsAt(times, states, limit, window, k))
      && (Answer(times, maxRequests, window, k).Allowed? ==>
            states[k + 1].Some? && Answer(times, maxRequests, window, k).remaining + states[k + 1].value.count == limit)
  {
    var limit := Limit(maxRequests);
    assert CallAt(times, WindowStates(times, limit, window), limit, window, k);
  }

  lemma {:induction false} BurstCounts(times: seq<int>, states: seq<Option<Window>>, limit: nat, window: nat, at: int, k: nat)
    requires limit >= 1 && window >= 1 && IsWindowRun(times, states, limit, window) && k <= |times|
    requires forall j :: 0 <= j < |times| ==> times[j] == at
    ensures k > 0 ==> states[k] == Some(Window(at, Min(k, limit)))
  {
    if k > 0 {
      BurstCounts(times, states, limit, window, at, k - 1);
      assert CallAt(times, states, limit, window, k - 1);
    }
  }

  /** Of calls at one instant on a new key the first max(maxRequests, 1) are allowed,
      counting down to zero, and the others are told to wait the whole window. */
  lemma BurstAnswers(maxRequests: nat, window: nat, at: int, n: nat, k: nat)
    requires window >= 1 && k < n
    ensures var times, limit := seq(n, _ => at), if maxRequests == 0 then 1 else maxRequests;
      Answer(times, maxRequests, window, k) == if k < limit then Allowed(limit - 1 - k) else Limited(window)
  {
    var times, limit := seq(n, _ => at), Limit(maxRequests);
    var states := WindowStates(times, limit, window);
    BurstCounts(times, states, limit, window, at, k);
  }

  lemma {:induction false} FullStays(times: seq<int>, states: seq<Option<Window>>, limit: nat, window: nat, i: nat, k: nat, w: Window)
    requires limit >= 1 && IsWindowRun(times, states, limit, window) && i < k <= |times|
    requires w == Current(states[i], window, times[i]) && w.count >= limit && times[i] - w.started < window
    requires forall j :: i < j < k ==> times[j] - w.started < window
    ensures states[k] == Some(w)
    decreases k - i
  {
    assert CallAt(times, states, limit, window, k - 1);
    if k > i + 1 { FullStays(times, states, limit, window, i, k - 1, w); }
  }

  /** After a refusal, with no call since past the announced wait, a call is allowed
      exactly when that wait is over. */
  lemma AnnouncedWaitIsExact(times: seq<int>, maxRequests: nat, window: nat, i: nat, k: nat)
    requires Chronological(times) && i < k < |times| && Answer(times, maxRequests, window, i).Limited?
    requires forall j :: i < j < k ==> times[j] < times[i] + Answer(times, maxRequests, window, i).retryAfter
    ensures Answer(times, maxRequests, window, k).Allowed? <==>
      times[k] >= times[i] + Answer(times, maxRequests, window, i).retryAfter
  {
    var limit := Limit(maxRequests);
    var states := WindowStates(times, limit, window);
    var w := Current(states[i], window, times[i]);
    OpenedEarlier(times, states, limit, window, i);
    assert w == states[i].value && times[i] - w.started < window;
    FullStays(times, states, limit, window, i, k, w);
  }
}
