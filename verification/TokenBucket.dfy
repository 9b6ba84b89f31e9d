/** The token-bucket arithmetic shared by the rate-limit stores, over exact reals and integer
    millisecond clocks: the TypeScript form, the Lua form, and what a whole request history
    admits. */
module TokenBucket {
  import opened Reals
  import opened Wrappers

  /** Bucket capacity and refill window, as a route configures them. */
  datatype Limits = Limits(capacity: real, windowMs: real)

  datatype Bucket = Bucket(tokens: real, lastRefillAt: int)

  datatype Outcome = Outcome(allowed: bool, remaining: int, resetAt: int)

  function SafeCapacity(l: Limits): real { Max(1.0, l.capacity) }

  function SafeWindow(l: Limits): real { Max(1.0, l.windowMs) }

  /** Tokens refilled per millisecond. */
  function Rate(l: Limits): (r: real)
    ensures r > 0.0
  {
    SafeCapacity(l) / SafeWindow(l)
  }

  function Elapsed(b: Bucket, now: int): (e: int)
    ensures e >= 0
  {
    if now < b.lastRefillAt then 0 else now - b.lastRefillAt
  }

  /** Tokens available at `now`, before the request is charged. */
  function Refill(existing: Option<Bucket>, l: Limits, now: int): real {
    match existing
    case None => SafeCapacity(l)
    case Some(b) => Min(SafeCapacity(l), b.tokens + Elapsed(b, now) as real * Rate(l))
  }

  /** One request: the bucket it leaves behind and the answer it gets. */
  function Consume(existing: Option<Bucket>, l: Limits, now: int): (Bucket, Outcome) {
    var tokens := Refill(existing, l, now);
    if tokens >= 1.0 then
      var left := tokens - 1.0;
      var deficit := SafeCapacity(l) - left;
      var resetAt := if deficit <= 0.0 then now else now + Ceil(deficit / Rate(l));
      (Bucket(left, now), Outcome(true, if left.Floor < 0 then 0 else left.Floor, resetAt))
    else
      (Bucket(tokens, now), Outcome(false, 0, now + Ceil((1.0 - tokens) / Rate(l))))
  }

  function LuaRate(l: Limits): (r: real)
    requires l.capacity > 0.0 && l.windowMs > 0.0
    ensures r > 0.0
  {
    l.capacity / l.windowMs
  }

  function LuaRefill(existing: Option<Bucket>, l: Limits, now: int): real
    requires l.capacity > 0.0 && l.windowMs > 0.0
  {
    match existing
    case None => l.capacity
    case Some(b) => Min(l.capacity, b.tokens + Elapsed(b, now) as real * LuaRate(l))
  }

  /** The Lua script on the hash it reads, branch by branch; it does not clamp its arguments.
      A script that returns early writes nothing, so the bucket stays as it was. */
  function LuaConsume(existing: Option<Bucket>, l: Limits, now: int): (Option<Bucket>, Outcome) {
    if l.capacity <= 0.0 || l.windowMs <= 0.0 then
      (existing, Outcome(false, 0, Truncate(now as real + l.windowMs)))
    else
      var tokens := LuaRefill(existing, l, now);
      var allowed := tokens >= 1.0;
      var left := if allowed then tokens - 1.0 else tokens;
      var remaining := if left.Floor < 0 then 0 else left.Floor;
      var resetAt :=
        if left >= l.capacity then now
        else if allowed then now + Ceil((l.capacity - left) / LuaRate(l))
        else now + Ceil((if 1.0 - left < 0.0 then 0.0 else 1.0 - left) / LuaRate(l));
      (Some(Bucket(left, now)), Outcome(allowed, remaining, resetAt))
  }

  // ---------------------------------------------------------------------------------------
  // Arithmetic
  // ---------------------------------------------------------------------------------------

  lemma CeilIsLeast(x: real, d: int)
    ensures d >= Ceil(x) <==> d as real >= x
  {
    var y := -x;
    assert y.Floor as real <= y < y.Floor as real + 1.0;
  }

  lemma DivideBy(x: real, r: real, d: real)
    requires r > 0.0
    ensures d >= x / r <==> d * r >= x
  {
    var q := x / r;
    assert q * r == x;
    if d >= q { assert (d - q) * r >= 0.0; } else { assert (q - d) * r > 0.0; }
  }

  /** Waiting Ceil(x / r) whole milliseconds is the least wait that refills x tokens. */
  lemma LeastWait(x: real, r: real, d: int)
    requires r > 0.0
    ensures d >= Ceil(x / r) <==> d as real * r >= x
  {
    CeilIsLeast(x / r, d);
    DivideBy(x, r, d as real);
  }

  lemma SplitElapsed(a: int, b: int, c: int, r: real)
    ensures (b - a) as real * r + (c - b) as real * r == (c - a) as real * r
  {
    assert (b - a) as real + (c - b) as real == (c - a) as real;
    assert ((b - a) as real + (c - b) as real) * r == (b - a) as real * r + (c - b) as real * r;
  }

  lemma RefillIsMonotone(a: int, b: int, r: real)
    requires a <= b && r > 0.0
    ensures a as real * r <= b as real * r
    ensures a == 0 ==> a as real * r == 0.0
  {
    assert (b as real - a as real) * r >= 0.0;
  }

  // ---------------------------------------------------------------------------------------
  // One request
  // ---------------------------------------------------------------------------------------

  ghost predicate ValidBucket(b: Bucket, l: Limits) {
    0.0 <= b.tokens <= SafeCapacity(l)
  }

  /** Stored buckets stay within 0 and the capacity, and are never full. */
  lemma ConsumeKeepsBounds(existing: Option<Bucket>, l: Limits, now: int)
    requires existing.Some? ==> existing.value.tokens >= 0.0
    ensures ValidBucket(Consume(existing, l, now).0, l)
    ensures Consume(existing, l, now).0.tokens < SafeCapacity(l)
    ensures Consume(existing, l, now).0.lastRefillAt == now
  {
    if existing.Some? {
      RefillIsMonotone(0, Elapsed(existing.value, now), Rate(l));
    }
  }

  /** The charge is one token, taken exactly when a whole token is there. */
  lemma ConsumeCharges(existing: Option<Bucket>, l: Limits, now: int)
    ensures var (b, answer) := Consume(existing, l, now);
            && (answer.allowed <==> Refill(existing, l, now) >= 1.0)
            && b == Bucket(Refill(existing, l, now) - (if answer.allowed then 1.0 else 0.0), now)
            && (!answer.allowed ==> answer.resetAt == now + Ceil((1.0 - b.tokens) / Rate(l)))
  {
    hide Rate, Ceil, Refill;
  }

  /** Forgetting a bucket is invisible to a request exactly when the bucket is full by then. */
  lemma ForgettingIsInvisibleIff(b: Bucket, l: Limits, now: int)
    ensures Consume(None, l, now) == Consume(Some(b), l, now)
            <==> b.tokens + Elapsed(b, now) as real * Rate(l) >= SafeCapacity(l)
  {
  }

  lemma LuaRateIsSteep(l: Limits)
    requires l.capacity > 0.0 && 0.0 < l.windowMs <= 1.0
    ensures LuaRate(l) >= l.capacity
  {
    var c, w := l.capacity, l.windowMs;
    var q := c / w;
    assert q * w == c;
    assert c * (1.0 - w) >= 0.0;
    assert (q - c) * w >= 0.0;
  }

  /** Lua with a window below one millisecond refills everything in one tick, as does the
      clamped window of one millisecond. */
  lemma SubMillisecondWindow(x: real, l: Limits)
    requires 0.0 < x <= l.capacity && l.capacity >= 1.0 && 0.0 < l.windowMs <= 1.0
    ensures Ceil(x / LuaRate(l)) == 1 == Ceil(x / Rate(l))
  {
    var r := LuaRate(l);
    LuaRateIsSteep(l);
    LeastWait(x, r, 1);
    LeastWait(x, r, 0);
    LeastWait(x, Rate(l), 1);
    LeastWait(x, Rate(l), 0);
  }

  ghost predicate LuaAgrees(l: Limits) {
    forall existing: Option<Bucket>, now: int ::
      (existing.Some? ==> 0.0 <= existing.value.tokens <= SafeCapacity(l)) ==>
        LuaConsume(existing, l, now) == (Some(Consume(existing, l, now).0), Consume(existing, l, now).1)
  }

  lemma LuaRefillsAlike(existing: Option<Bucket>, l: Limits, now: int)
    requires l.capacity >= 1.0 && l.windowMs > 0.0
    requires existing.Some? ==> 0.0 <= existing.value.tokens
    ensures LuaRefill(existing, l, now) == Refill(existing, l, now)
  {
    if existing.Some? && l.windowMs < 1.0 {
      var r, e := LuaRate(l), Elapsed(existing.value, now);
      LuaRateIsSteep(l);
      assert Rate(l) == l.capacity;
      var least := if e >= 1 then 1 else 0;
      RefillIsMonotone(least, e, r);
      RefillIsMonotone(least, e, Rate(l));
    }
  }

  lemma RefillBounds(existing: Option<Bucket>, l: Limits, now: int)
    requires existing.Some? ==> 0.0 <= existing.value.tokens
    ensures 0.0 <= Refill(existing, l, now) <= SafeCapacity(l)
    ensures existing.None? ==> Refill(existing, l, now) == SafeCapacity(l)
  {
    if existing.Some? {
      RefillIsMonotone(0, Elapsed(existing.value, now), Rate(l));
    }
  }

  lemma RateUnclamped(l: Limits)
    requires l.capacity >= 1.0 && l.windowMs >= 1.0
    ensures Rate(l) == LuaRate(l)
  {
  }

  lemma LuaAgreesHere(existing: Option<Bucket>, l: Limits, now: int)
    requires l.capacity >= 1.0 && l.windowMs > 0.0
    requires existing.Some? ==> 0.0 <= existing.value.tokens
    ensures LuaConsume(existing, l, now) == (Some(Consume(existing, l, now).0), Consume(existing, l, now).1)
  {
    hide Rate, LuaRate, Ceil, Refill, LuaRefill;
    var tokens := Refill(existing, l, now);
    RefillBounds(existing, l, now);
    LuaRefillsAlike(existing, l, now);
    if l.windowMs < 1.0 {
      if tokens >= 1.0 {
        SubMillisecondWindow(l.capacity - (tokens - 1.0), l);
      } else {
        SubMillisecondWindow(1.0 - tokens, l);
      }
    } else {
      RateUnclamped(l);
    }
  }

  /** The Lua script and the TypeScript function give the same answers and leave the same
      bucket, on every reachable bucket and at every time, exactly when the capacity is at
      least one and the window is positive. */
  lemma LuaAgreesIff(l: Limits)
    ensures LuaAgrees(l) <==> l.capacity >= 1.0 && l.windowMs > 0.0
  {
    if l.capacity >= 1.0 && l.windowMs > 0.0 {
      forall existing: Option<Bucket>, now: int |
        existing.Some? ==> 0.0 <= existing.value.tokens <= SafeCapacity(l)
        ensures LuaConsume(existing, l, now) == (Some(Consume(existing, l, now).0), Consume(existing, l, now).1)
      {
        LuaAgreesHere(existing, l, now);
      }
    } else {
      assert Consume(None, l, 0).1.allowed;
      assert !LuaConsume(None, l, 0).1.allowed;
    }
  }

  // ---------------------------------------------------------------------------------------
  // A whole request history of one key
  // ---------------------------------------------------------------------------------------

  ghost predicate Monotone(times: seq<int>) {
    forall i, j :: 0 <= i <= j < |times| ==> times[i] <= times[j]
  }

  /** The bucket after the first n requests of a history. */
  function After(times: seq<int>, l: Limits, n: nat): Option<Bucket>
    requires n <= |times|
  {
    if n == 0 then None else Some(Consume(After(times, l, n - 1), l, times[n - 1]).0)
  }

  /** What request n is answered. */
  function Answer(times: seq<int>, l: Limits, n: nat): Outcome
    requires n < |times|
  {
    Consume(After(times, l, n), l, times[n]).1
  }

  function Decisions(times: seq<int>, l: Limits): seq<bool> {
    seq(|times|, n requires 0 <= n < |times| => Answer(times, l, n).allowed)
  }

  /** How many of the requests in [from, to) a decision vector admits. */
  function Admitted(decisions: seq<bool>, from: nat, to: nat): nat
    requires from <= to <= |decisions|
  {
    if from == to then 0
    else Admitted(decisions, from, to - 1) + if decisions[to - 1] then 1 else 0
  }

  /** The budget of the interval from request j to request n. */
  function Budget(times: seq<int>, l: Limits, j: nat, n: nat): real
    requires j < |times| && n < |times|
  {
    SafeCapacity(l) + (times[n] - times[j]) as real * Rate(l)
  }

  /** Admitting request n overruns no interval ending at n. */
  ghost predicate Fits(times: seq<int>, l: Limits, decisions: seq<bool>, n: nat)
    requires n < |times| == |decisions|
  {
    forall j :: 0 <= j <= n ==> (Admitted(decisions, j, n) + 1) as real <= Budget(times, l, j, n)
  }

  ghost function Slack(times: seq<int>, l: Limits, j: nat, n: nat): real
    requires j <= n < |times|
  {
    Budget(times, l, j, n) - Admitted(Decisions(times, l), j, n) as real
  }

  /** One more request changes the slack of an open interval as it changes the bucket. */
  lemma SlackStep(times: seq<int>, l: Limits, j: nat, n: nat)
    requires Monotone(times) && j < n < |times|
    ensures Slack(times, l, j, n) == Slack(times, l, j, n - 1)
              - (if Answer(times, l, n - 1).allowed then 1.0 else 0.0)
              + (times[n] - times[n - 1]) as real * Rate(l)
  {
    hide Rate, Consume;
    SplitElapsed(times[j], times[n - 1], times[n], Rate(l));
  }

  lemma RefillStep(times: seq<int>, l: Limits, n: nat)
    requires Monotone(times) && 0 < n < |times|
    ensures Refill(After(times, l, n), l, times[n])
            == Min(SafeCapacity(l), Refill(After(times, l, n - 1), l, times[n - 1])
                                      - (if Answer(times, l, n - 1).allowed then 1.0 else 0.0)
                                      + (times[n] - times[n - 1]) as real * Rate(l))
  {
    hide Rate, Consume;
    ConsumeCharges(After(times, l, n - 1), l, times[n - 1]);
  }

  lemma SlackNow(times: seq<int>, l: Limits, n: nat)
    requires n < |times|
    ensures Slack(times, l, n, n) == SafeCapacity(l)
  {
    RefillIsMonotone(0, 0, Rate(l));
  }

  /** The tokens seen by request n are the least slack of any interval ending there: no
      interval has less, and `tight` names one that has exactly that. */
  lemma {:induction false} TokensAreLeastSlack(times: seq<int>, l: Limits, n: nat) returns (tight: nat)
    requires Monotone(times) && n < |times|
    ensures tight <= n
    ensures Refill(After(times, l, n), l, times[n]) == Slack(times, l, tight, n)
    ensures forall j :: 0 <= j <= n ==> Refill(After(times, l, n), l, times[n]) <= Slack(times, l, j, n)
  {
    SlackNow(times, l, n);
    if n == 0 {
      tight := 0;
    } else {
      var before := TokensAreLeastSlack(times, l, n - 1);
      RefillStep(times, l, n);
      forall j | 0 <= j < n
        ensures Refill(After(times, l, n), l, times[n]) <= Slack(times, l, j, n)
      {
        SlackStep(times, l, j, n);
      }
      SlackStep(times, l, before, n);
      tight := if Refill(After(times, l, n), l, times[n]) == SafeCapacity(l) then n else before;
    }
  }

  /** A request is allowed exactly when, for every earlier-or-equal request j, the requests
      allowed from j on plus this one stay within capacity + elapsed * capacity / window. */
  lemma AllowedIff(times: seq<int>, l: Limits, n: nat)
    requires Monotone(times) && n < |times|
    ensures Answer(times, l, n).allowed <==> Fits(times, l, Decisions(times, l), n)
  {
    var tight := TokensAreLeastSlack(times, l, n);
    if Answer(times, l, n).allowed {
      forall j | 0 <= j <= n
        ensures (Admitted(Decisions(times, l), j, n) + 1) as real <= Budget(times, l, j, n)
      {
        assert 1.0 <= Slack(times, l, j, n);
      }
    } else {
      assert Slack(times, l, tight, n) < 1.0;
    }
  }

  lemma BudgetInWindows(c: real, w: real, elapsed: real, spent: real)
    requires w > 0.0
    ensures spent <= c + elapsed * (c / w) <==> spent * w <= c * (w + elapsed)
  {
    var r := c / w;
    assert r * w == c;
    assert (c + elapsed * r) * w == c * w + elapsed * (r * w);
    var slack := c + elapsed * r - spent;
    assert slack * w == c * (w + elapsed) - spent * w;
    if slack < 0.0 { assert slack * w < 0.0; } else { assert slack * w >= 0.0; }
  }

  /** So many requests in so many milliseconds are within capacity + elapsed * capacity / window. */
  ghost predicate WithinWindow(requests: int, elapsed: int, capacity: real, windowMs: real) {
    requests as real * windowMs <= capacity * (windowMs + elapsed as real)
  }

  lemma IntervalBudget(times: seq<int>, l: Limits, j: nat, n: nat, requests: int)
    requires j < |times| && n < |times|
    ensures requests as real <= Budget(times, l, j, n)
            <==> WithinWindow(requests, times[n] - times[j], SafeCapacity(l), SafeWindow(l))
  {
    BudgetInWindows(SafeCapacity(l), SafeWindow(l), (times[n] - times[j]) as real, requests as real);
  }

  /** The interval law in the configured numbers alone: a capacity below one and a window below
      one millisecond count as one. */
  lemma AllowedInEveryWindow(times: seq<int>, l: Limits, n: nat)
    requires Monotone(times) && n < |times|
    ensures var capacity := if l.capacity >= 1.0 then l.capacity else 1.0;
            var windowMs := if l.windowMs >= 1.0 then l.windowMs else 1.0;
            Answer(times, l, n).allowed
            <==> forall j :: 0 <= j <= n ==>
                   WithinWindow(Admitted(Decisions(times, l), j, n) + 1, times[n] - times[j], capacity, windowMs)
  {
    hide Answer, Admitted, Budget, Monotone, WithinWindow;
    AllowedIff(times, l, n);
    var d := Decisions(times, l);
    forall j | 0 <= j <= n
      ensures (Admitted(d, j, n) + 1) as real <= Budget(times, l, j, n)
              <==> WithinWindow(Admitted(d, j, n) + 1, times[n] - times[j], SafeCapacity(l), SafeWindow(l))
    {
      IntervalBudget(times, l, j, n, Admitted(d, j, n) + 1);
    }
  }

  /** A decision vector is safe when it admits only requests that fit. */
  ghost predicate Safe(times: seq<int>, l: Limits, decisions: seq<bool>)
    requires |times| == |decisions|
  {
    forall n :: 0 <= n < |times| && decisions[n] ==> Fits(times, l, decisions, n)
  }

  lemma {:induction false} AdmittedSplits(d: seq<bool>, a: nat, b: nat, c: nat)
    requires a <= b <= c <= |d|
    ensures Admitted(d, a, c) == Admitted(d, a, b) + Admitted(d, b, c)
  {
    if b < c { AdmittedSplits(d, a, b, c - 1); }
  }

  /** No safe way of answering the same history admits more requests in any prefix. */
  lemma {:induction false} LimiterIsMostPermissive(times: seq<int>, l: Limits, other: seq<bool>, n: nat)
    requires Monotone(times) && |other| == |times| && Safe(times, l, other) && n <= |times|
    ensures Safe(times, l, Decisions(times, l))
    ensures Admitted(other, 0, n) <= Admitted(Decisions(times, l), 0, n)
  {
    var ours := Decisions(times, l);
    forall k | 0 <= k < |times| && ours[k] ensures Fits(times, l, ours, k) {
      AllowedIff(times, l, k);
    }
    if n > 0 {
      LimiterIsMostPermissive(times, l, other, n - 1);
      if other[n - 1] && !ours[n - 1] {
        AllowedIff(times, l, n - 1);
        var j :| 0 <= j <= n - 1 && (Admitted(ours, j, n - 1) + 1) as real > Budget(times, l, j, n - 1);
        assert (Admitted(other, j, n - 1) + 1) as real <= Budget(times, l, j, n - 1);
        LimiterIsMostPermissive(times, l, other, j);
        AdmittedSplits(other, 0, j, n - 1);
        AdmittedSplits(ours, 0, j, n - 1);
      }
    }
  }

  // ---------------------------------------------------------------------------------------
  // The reset hint
  // ---------------------------------------------------------------------------------------

  lemma CeilShifts(x: real, d: int)
    ensures Ceil(x - d as real) == Ceil(x) - d
  {
    assert -(x - d as real) == -x + d as real;
  }

  lemma WaitShifts(x: real, y: real, r: real, d: int)
    requires r > 0.0 && y == x - d as real * r
    ensures Ceil(y / r) == Ceil(x / r) - d
  {
    var q := x / r;
    assert q * r == x;
    assert (q - d as real) * r == y;
    assert y / r == q - d as real;
    CeilShifts(q, d);
  }

  /** After a denial, a request is allowed exactly from the hinted time on; a denial repeats
      the same hint. */
  lemma DenialHintIsTight(existing: Option<Bucket>, l: Limits, now: int, later: int)
    requires now <= later && !Consume(existing, l, now).1.allowed
    ensures var hint := Consume(existing, l, now).1.resetAt;
            var next := Consume(Some(Consume(existing, l, now).0), l, later).1;
            && (next.allowed <==> later >= hint)
            && (!next.allowed ==> next.resetAt == hint)
  {
    hide Rate, Ceil, Consume;
    ConsumeCharges(existing, l, now);
    var b := Consume(existing, l, now).0;
    ConsumeCharges(Some(b), l, later);
    LeastWait(1.0 - b.tokens, Rate(l), later - now);
    var refilled := b.tokens + (later - now) as real * Rate(l);
    if refilled < 1.0 {
      assert Refill(Some(b), l, later) == refilled;
      WaitShifts(1.0 - b.tokens, 1.0 - refilled, Rate(l), later - now);
    }
  }

  /** Whatever requests come after a denial, in time order, those before the hint are all
      denied with the same hint, and the first at or after it is allowed. */
  lemma {:induction false} DenialsKeepTheirPromise(times: seq<int>, l: Limits, n: nat, m: nat)
    requires Monotone(times) && n < m < |times|
    requires !Answer(times, l, n).allowed
    requires forall k :: n < k < m ==> times[k] < Answer(times, l, n).resetAt
    ensures Answer(times, l, m).allowed <==> times[m] >= Answer(times, l, n).resetAt
    ensures !Answer(times, l, m).allowed ==> Answer(times, l, m).resetAt == Answer(times, l, n).resetAt
    decreases m
  {
    if m == n + 1 {
      DenialHintIsTight(After(times, l, n), l, times[n], times[m]);
    } else {
      DenialsKeepTheirPromise(times, l, n, m - 1);
      DenialHintIsTight(After(times, l, m - 1), l, times[m - 1], times[m]);
    }
  }

  /** After an allowed request, the hint is the first time the untouched bucket is full. */
  lemma FullHintIsTight(existing: Option<Bucket>, l: Limits, now: int, later: int)
    requires now <= later && Consume(existing, l, now).1.allowed
    ensures var (b, answer) := Consume(existing, l, now);
            Refill(Some(b), l, later) == SafeCapacity(l) <==> later >= answer.resetAt
  {
    var b := Consume(existing, l, now).0;
    LeastWait(SafeCapacity(l) - b.tokens, Rate(l), later - now);
  }

  // ---------------------------------------------------------------------------------------
  // The remaining count
  // ---------------------------------------------------------------------------------------

  /** Requests at one instant take whole tokens until less than one is left. */
  lemma {:induction false} BurstTokens(times: seq<int>, l: Limits, n: nat, k: nat)
    requires n < k <= |times| && Answer(times, l, n).allowed
    requires forall m :: n < m < k ==> times[m] == times[n]
    ensures var left, spent := After(times, l, n + 1).value.tokens, k - n - 1;
            var whole := if left.Floor < spent then left.Floor else spent;
            left >= 0.0 && After(times, l, k) == Some(Bucket(left - whole as real, times[n]))
    decreases k
  {
    hide Rate, Consume;
    ConsumeCharges(After(times, l, n), l, times[n]);
    if k > n + 1 {
      BurstTokens(times, l, n, k - 1);
      ConsumeCharges(After(times, l, k - 1), l, times[k - 1]);
      RefillIsMonotone(0, 0, Rate(l));
      RefillIsFull(After(times, l, n), l, times[n]);
    }
  }

  lemma RefillIsFull(existing: Option<Bucket>, l: Limits, now: int)
    ensures Refill(existing, l, now) <= SafeCapacity(l)
  {
  }

  lemma RemainingIsFloor(existing: Option<Bucket>, l: Limits, now: int)
    requires Consume(existing, l, now).1.allowed
    ensures var (b, answer) := Consume(existing, l, now); answer.remaining == b.tokens.Floor
  {
  }

  /** `remaining` is exactly how many further requests at the same instant are allowed. */
  lemma RemainingIsExact(times: seq<int>, l: Limits, n: nat, k: nat)
    requires n < k < |times| && forall m :: n < m <= k ==> times[m] == times[n]
    requires Answer(times, l, n).allowed
    ensures Answer(times, l, k).allowed <==> k - n <= Answer(times, l, n).remaining
  {
    hide Rate, Ceil, Consume;
    BurstTokens(times, l, n, k);
    RemainingIsFloor(After(times, l, n), l, times[n]);
    ConsumeCharges(After(times, l, n), l, times[n]);
    ConsumeCharges(After(times, l, k), l, times[k]);
    RefillIsMonotone(0, 0, Rate(l));
    RefillIsFull(After(times, l, n), l, times[n]);
  }

  // ---------------------------------------------------------------------------------------
  // The corners
  // ---------------------------------------------------------------------------------------

  /** A clock that went back refills nothing: the bucket answers as at its own time. */
  lemma ClockBackRefillsNothing(b: Bucket, l: Limits, now: int)
    requires now <= b.lastRefillAt
    ensures Refill(Some(b), l, now) == if b.tokens <= SafeCapacity(l) then b.tokens else SafeCapacity(l)
  {
    RefillIsMonotone(0, 0, Rate(l));
  }

  /** Where the script does not clamp: with a capacity below one or without a positive window it
      allows nothing, ever, and without a positive capacity and window it writes nothing. */
  lemma LuaNeverAllows(existing: Option<Bucket>, l: Limits, now: int)
    requires l.capacity < 1.0 || l.windowMs <= 0.0
    ensures !LuaConsume(existing, l, now).1.allowed && LuaConsume(existing, l, now).1.remaining == 0
    ensures l.capacity <= 0.0 || l.windowMs <= 0.0 ==>
              && LuaConsume(existing, l, now).0 == existing
              && (l.windowMs == l.windowMs.Floor as real ==>
                    LuaConsume(existing, l, now).1.resetAt == now + l.windowMs.Floor)
  {
  }
}
