/** The stores behind the limiter, over many keys and one non-decreasing clock: the in-process
    map with its sweep, the Redis hash with its expiry, and a store that forgets nothing. */
module RateLimitStores {
  import opened Reals
  import opened Wrappers
  import opened TokenBucket

  type Buckets = map<string, Bucket>

  /** The limits under which each key is always charged. */
  type Config = string -> Limits

  /** One call of `consume`: the sweep reads the clock before the charge does. */
  datatype Request = Request(key: string, sweptAt: int, at: int)

  function Get<V>(m: map<string, V>, key: string): Option<V> {
    if key in m then Some(m[key]) else None
  }

  // ---------------------------------------------------------------------------------------
  // The three stores, one request at a time
  // ---------------------------------------------------------------------------------------

  function KeepStep(s: Buckets, key: string, l: Limits, at: int): (Buckets, Outcome) {
    var (b, answer) := Consume(Get(s, key), l, at);
    (s[key := b], answer)
  }

  function IdleMs(l: Limits): real { Max(l.windowMs * 2.0, 1.0) }

  predicate Evictable(b: Bucket, l: Limits, now: int) {
    (now - b.lastRefillAt) as real >= IdleMs(l) && b.tokens >= l.capacity
  }

  function Sweep(s: Buckets, l: Limits, now: int): Buckets {
    map k | k in s && !Evictable(s[k], l, now) :: s[k]
  }

  function MemoryStep(s: Buckets, key: string, l: Limits, sweptAt: int, at: int): (Buckets, Outcome) {
    KeepStep(Sweep(s, l, sweptAt), key, l, at)
  }

  /** A Redis hash and the time at which the server drops it. */
  datatype Hash = Hash(bucket: Bucket, expiresAt: int)

  function Live(s: map<string, Hash>, key: string, at: int): Option<Bucket> {
    if key in s && at < s[key].expiresAt then Some(s[key].bucket) else None
  }

  function RedisStep(s: map<string, Hash>, key: string, l: Limits, at: int): (map<string, Hash>, Outcome) {
    var (b, answer) := LuaConsume(Live(s, key, at), l, at);
    if l.capacity <= 0.0 || l.windowMs <= 0.0 || b.None? then (s, answer)
    else (s[key := Hash(b.value, at + Ceil(l.windowMs * 2.0))], answer)
  }

  /** The in-process store. */
  class InMemoryRateLimitStore {
    var store: Buckets

    constructor ()
      ensures store == map[]
    {
      store := map[];
    }

    method Cleanup(l: Limits, now: int)
      modifies this
      ensures store == Sweep(old(store), l, now)
    {
      var idleMs := Max(l.windowMs * 2.0, 1.0);
      var keys := store.Keys;
      while keys != {}
        invariant keys <= old(store).Keys
        invariant forall k :: k in store <==> k in old(store) && (k in keys || !Evictable(old(store)[k], l, now))
        invariant forall k :: k in store ==> store[k] == old(store)[k]
        decreases keys
      {
        var k :| k in keys;
        var elapsed := now - store[k].lastRefillAt;
        if elapsed as real >= idleMs && store[k].tokens >= l.capacity {
          store := store - {k};
        }
        keys := keys - {k};
      }
    }

    method Consume(key: string, l: Limits, sweptAt: int, at: int) returns (answer: Outcome)
      modifies this
      ensures (store, answer) == MemoryStep(old(store), key, l, sweptAt, at)
    {
      Cleanup(l, sweptAt);
      var (bucket, outcome) := TokenBucket.Consume(Get(store, key), l, at);
      store := store[key := bucket];
      answer := outcome;
    }
  }

  // ---------------------------------------------------------------------------------------
  // Whole histories
  // ---------------------------------------------------------------------------------------

  ghost predicate OnOneClock(reqs: seq<Request>) {
    && (forall i :: 0 <= i < |reqs| ==> reqs[i].sweptAt <= reqs[i].at)
    && (forall i :: 0 < i < |reqs| ==> reqs[i - 1].at <= reqs[i].sweptAt)
  }

  function KeepState(reqs: seq<Request>, cfg: Config, n: nat): Buckets
    requires n <= |reqs|
  {
    if n == 0 then map[]
    else var r := reqs[n - 1]; KeepStep(KeepState(reqs, cfg, n - 1), r.key, cfg(r.key), r.at).0
  }

  function MemoryState(reqs: seq<Request>, cfg: Config, n: nat): Buckets
    requires n <= |reqs|
  {
    if n == 0 then map[]
    else
      var r := reqs[n - 1];
      MemoryStep(MemoryState(reqs, cfg, n - 1), r.key, cfg(r.key), r.sweptAt, r.at).0
  }

  function RedisState(reqs: seq<Request>, cfg: Config, n: nat): map<string, Hash>
    requires n <= |reqs|
  {
    if n == 0 then map[]
    else var r := reqs[n - 1]; RedisStep(RedisState(reqs, cfg, n - 1), r.key, cfg(r.key), r.at).0
  }

  function KeepAnswer(reqs: seq<Request>, cfg: Config, n: nat): Outcome
    requires n < |reqs|
  {
    var r := reqs[n]; KeepStep(KeepState(reqs, cfg, n), r.key, cfg(r.key), r.at).1
  }

  function MemoryAnswer(reqs: seq<Request>, cfg: Config, n: nat): Outcome
    requires n < |reqs|
  {
    var r := reqs[n]; MemoryStep(MemoryState(reqs, cfg, n), r.key, cfg(r.key), r.sweptAt, r.at).1
  }

  function RedisAnswer(reqs: seq<Request>, cfg: Config, n: nat): Outcome
    requires n < |reqs|
  {
    var r := reqs[n]; RedisStep(RedisState(reqs, cfg, n), r.key, cfg(r.key), r.at).1
  }

  /** By time t an untouched bucket is full again. */
  ghost predicate Full(b: Bucket, l: Limits, t: int) {
    b.tokens + Elapsed(b, t) as real * Rate(l) >= SafeCapacity(l)
  }

  lemma FullStaysFull(b: Bucket, l: Limits, t: int, u: int)
    requires t <= u && Full(b, l, t)
    ensures Full(b, l, u)
  {
    hide Rate;
    RefillIsMonotone(Elapsed(b, t), Elapsed(b, u), Rate(l));
  }

  lemma FullIsAsGoodAsNew(b: Bucket, l: Limits, t: int)
    requires Full(b, l, t)
    ensures Consume(Some(b), l, t) == Consume(None, l, t)
  {
    hide Rate, Ceil;
  }

  /** A bucket of `big` that `small`'s sweep may remove is not full again by then. */
  ghost predicate Harms(cfg: Config, small: string, big: string) {
    cfg(small).capacity + Ceil(IdleMs(cfg(small))) as real * Rate(cfg(big)) < SafeCapacity(cfg(big))
  }

  /** The sweep of one key's limits only removes buckets that are full under their own. */
  ghost predicate Harmless(cfg: Config) {
    forall a: string, b: string ::
      !Harms(cfg, a, b)
  }

  ghost predicate Bounded(s: Buckets, cfg: Config) {
    forall k :: k in s ==> ValidBucket(s[k], cfg(k))
  }

  ghost predicate Follows(mem: Buckets, keep: Buckets, cfg: Config, t: int) {
    && Bounded(keep, cfg)
    && (forall k :: k in mem ==> k in keep && mem[k] == keep[k])
    && (forall k :: k in keep && k !in mem ==> Full(keep[k], cfg(k), t))
  }

  lemma EvictedIsFull(b: Bucket, cfg: Config, sweeper: string, key: string, now: int)
    requires Harmless(cfg) && Evictable(b, cfg(sweeper), now)
    ensures Full(b, cfg(key), now)
  {
    hide Rate, Ceil;
    var least, e := Ceil(IdleMs(cfg(sweeper))), now - b.lastRefillAt;
    CeilIsLeast(IdleMs(cfg(sweeper)), e);
    CeilIsLeast(IdleMs(cfg(sweeper)), 0);
    assert !Harms(cfg, sweeper, key);
    RefilledEnough(b, cfg(sweeper).capacity, cfg(key), least, now);
  }

  lemma RefilledEnough(b: Bucket, floor: real, l: Limits, least: int, now: int)
    requires b.tokens >= floor && 0 <= least <= now - b.lastRefillAt
    requires floor + least as real * Rate(l) >= SafeCapacity(l)
    ensures Full(b, l, now)
  {
    hide Rate, SafeCapacity;
    RefillIsMonotone(least, now - b.lastRefillAt, Rate(l));
  }

  lemma SweepFollows(mem: Buckets, keep: Buckets, cfg: Config, sweeper: string, t: int, now: int)
    requires t <= now && Harmless(cfg) && Follows(mem, keep, cfg, t)
    ensures Follows(Sweep(mem, cfg(sweeper), now), keep, cfg, now)
  {
    hide Rate, Ceil, Full, Harmless, Evictable;
    var swept := Sweep(mem, cfg(sweeper), now);
    forall k | k in keep && k !in swept ensures Full(keep[k], cfg(k), now) {
      if k in mem {
        EvictedIsFull(keep[k], cfg, sweeper, k, now);
      } else {
        FullStaysFull(keep[k], cfg(k), t, now);
      }
    }
  }

  lemma ChargeFollows(mem: Buckets, keep: Buckets, cfg: Config, key: string, t: int, at: int)
    requires t <= at && Follows(mem, keep, cfg, t)
    ensures KeepStep(mem, key, cfg(key), at).1 == KeepStep(keep, key, cfg(key), at).1
    ensures Follows(KeepStep(mem, key, cfg(key), at).0, KeepStep(keep, key, cfg(key), at).0, cfg, at)
  {
    hide Rate, Ceil, Full, Consume;
    forall k | k in keep && k !in mem ensures Full(keep[k], cfg(k), at) {
      FullStaysFull(keep[k], cfg(k), t, at);
    }
    if key in keep && key !in mem {
      FullIsAsGoodAsNew(keep[key], cfg(key), at);
    }
    ConsumeKeepsBounds(Get(keep, key), cfg(key), at);
  }

  ghost function TimeOf(reqs: seq<Request>, n: nat): int
    requires n <= |reqs| && reqs != []
  {
    if n == 0 then reqs[0].sweptAt else reqs[n - 1].at
  }

  lemma {:induction false} MemoryFollows(reqs: seq<Request>, cfg: Config, n: nat)
    requires OnOneClock(reqs) && Harmless(cfg) && n <= |reqs| && reqs != []
    ensures Follows(MemoryState(reqs, cfg, n), KeepState(reqs, cfg, n), cfg, TimeOf(reqs, n))
    ensures n < |reqs| ==> MemoryAnswer(reqs, cfg, n) == KeepAnswer(reqs, cfg, n)
  {
    hide Harmless, Sweep, KeepStep, Follows;
    if n == 0 {
      EmptyFollows(cfg, TimeOf(reqs, 0));
    } else {
      MemoryFollows(reqs, cfg, n - 1);
      MemoryStepFollows(reqs, cfg, n - 1);
    }
    if n < |reqs| { MemoryStepFollows(reqs, cfg, n); }
  }

  lemma EmptyFollows(cfg: Config, t: int)
    ensures Follows(map[], map[], cfg, t)
  {
  }

  lemma MemoryStepFollows(reqs: seq<Request>, cfg: Config, n: nat)
    requires OnOneClock(reqs) && Harmless(cfg) && n < |reqs|
    requires Follows(MemoryState(reqs, cfg, n), KeepState(reqs, cfg, n), cfg, TimeOf(reqs, n))
    ensures Follows(MemoryState(reqs, cfg, n + 1), KeepState(reqs, cfg, n + 1), cfg, TimeOf(reqs, n + 1))
    ensures MemoryAnswer(reqs, cfg, n) == KeepAnswer(reqs, cfg, n)
  {
    hide Harmless, Sweep, KeepStep, Follows;
    var r := reqs[n];
    var mem, keep := MemoryState(reqs, cfg, n), KeepState(reqs, cfg, n);
    SweepFollows(mem, keep, cfg, r.key, TimeOf(reqs, n), r.sweptAt);
    ChargeFollows(Sweep(mem, cfg(r.key), r.sweptAt), keep, cfg, r.key, r.sweptAt, r.at);
  }

  // ---------------------------------------------------------------------------------------
  // What the stores forget
  // ---------------------------------------------------------------------------------------

  /** The sweep forgets a bucket exactly if it was last refilled at least twice the window, and at
      least a millisecond, ago and holds the capacity; the others it leaves as they are. */
  lemma SweepForgetsIff(s: Buckets, l: Limits, now: int, key: string)
    requires key in s
    ensures var idle := (now - s[key].lastRefillAt) as real;
            key !in Sweep(s, l, now)
            <==> idle >= 2.0 * l.windowMs && idle >= 1.0 && s[key].tokens >= l.capacity
    ensures key in Sweep(s, l, now) ==> Sweep(s, l, now)[key] == s[key]
  {
  }

  /** A charge on Redis keeps the key alive for exactly twice the window. */
  lemma RedisForgetsIff(s: map<string, Hash>, key: string, l: Limits, at: int, later: int)
    requires l.capacity > 0.0 && l.windowMs > 0.0
    ensures Live(RedisStep(s, key, l, at).0, key, later).Some? <==> (later - at) as real < 2.0 * l.windowMs
  {
    hide LuaConsume, Ceil;
    LuaWrites(Live(s, key, at), l, at);
    CeilIsLeast(l.windowMs * 2.0, later - at);
  }

  lemma LuaWrites(existing: Option<Bucket>, l: Limits, now: int)
    requires l.capacity > 0.0 && l.windowMs > 0.0
    ensures LuaConsume(existing, l, now).0.Some?
  {
  }

  // ---------------------------------------------------------------------------------------
  // A harmful configuration is visible
  // ---------------------------------------------------------------------------------------

  ghost predicate WholeCapacities(cfg: Config) {
    forall k: string :: cfg(k).capacity >= 1.0 && cfg(k).capacity.Floor as real == cfg(k).capacity
  }

  /** Enough requests of `big` to leave as many tokens as `small` has capacity, one request of
      `small` after its idle time, and one more of `big`. */
  ghost function Exposing(cfg: Config, small: string, big: string): seq<Request>
    requires cfg(small).capacity <= cfg(big).capacity
  {
    var n := cfg(big).capacity.Floor - cfg(small).capacity.Floor;
    var e := Ceil(IdleMs(cfg(small)));
    seq(n + 2, i => if i < n then Request(big, 0, 0)
                    else Request(if i == n then small else big, e, e))
  }

  lemma NothingToSweep(s: Buckets, l: Limits, t: int)
    requires forall k :: k in s ==> s[k].lastRefillAt == t
    ensures Sweep(s, l, t) == s
  {
    assert IdleMs(l) >= 1.0;
  }

  /** At one instant, each allowed request takes one token of a whole capacity. */
  lemma BurstCharge(l: Limits, n: nat)
    requires l.capacity >= n as real + 1.0
    ensures Consume(if n == 0 then None else Some(Bucket(l.capacity - n as real, 0)), l, 0).0
            == Bucket(l.capacity - (n as real + 1.0), 0)
  {
    hide Rate, Ceil, Consume;
    RefillIsMonotone(0, 0, Rate(l));
    ConsumeCharges(if n == 0 then None else Some(Bucket(l.capacity - n as real, 0)), l, 0);
  }

  lemma {:induction false} OpeningBurst(cfg: Config, small: string, big: string, n: nat)
    requires WholeCapacities(cfg) && cfg(small).capacity < cfg(big).capacity
    requires n <= cfg(big).capacity.Floor - cfg(small).capacity.Floor
    ensures var reqs := Exposing(cfg, small, big);
            && MemoryState(reqs, cfg, n) == KeepState(reqs, cfg, n)
            && KeepState(reqs, cfg, n)
               == if n == 0 then map[] else map[big := Bucket(cfg(big).capacity - n as real, 0)]
  {
    hide Rate, Ceil, Consume, Sweep, IdleMs;
    if n > 0 {
      OpeningBurst(cfg, small, big, n - 1);
      var reqs := Exposing(cfg, small, big);
      assert reqs[n - 1] == Request(big, 0, 0);
      var s := KeepState(reqs, cfg, n - 1);
      NothingToSweep(s, cfg(big), 0);
      BurstCharge(cfg(big), n - 1);
    }
  }

  /** What each store holds once `small` has been charged. */
  lemma SweepByOther(cfg: Config, small: string, big: string, reqs: seq<Request>, n: nat)
    requires small != big && n + 2 == |reqs|
    requires reqs[n] == Request(small, Ceil(IdleMs(cfg(small))), Ceil(IdleMs(cfg(small))))
    requires MemoryState(reqs, cfg, n) == KeepState(reqs, cfg, n) == map[big := Bucket(cfg(small).capacity, 0)]
    ensures MemoryState(reqs, cfg, n + 1) == map[small := Consume(None, cfg(small), reqs[n].at).0]
    ensures big in KeepState(reqs, cfg, n + 1)
    ensures KeepState(reqs, cfg, n + 1)[big] == Bucket(cfg(small).capacity, 0)
  {
    hide Rate, Ceil, Consume, IdleMs;
    CeilIsLeast(IdleMs(cfg(small)), reqs[n].at);
    var s := MemoryState(reqs, cfg, n);
    assert Evictable(s[big], cfg(small), reqs[n].at);
    assert Sweep(s, cfg(small), reqs[n].at) == map[];
  }

  lemma ExposingShape(cfg: Config, small: string, big: string)
    requires WholeCapacities(cfg) && cfg(small).capacity < cfg(big).capacity
    ensures var reqs := Exposing(cfg, small, big);
            var n, e := |reqs| - 2, Ceil(IdleMs(cfg(small)));
            && n == cfg(big).capacity.Floor - cfg(small).capacity.Floor
            && reqs[n] == Request(small, e, e) && reqs[n + 1] == Request(big, e, e)
            && OnOneClock(reqs)
  {
    hide Ceil;
    CeilIsLeast(IdleMs(cfg(small)), 0);
  }

  lemma IdleIsPositive(l: Limits)
    ensures IdleMs(l) >= 1.0 && Ceil(IdleMs(l)) >= 1
  {
    CeilIsLeast(IdleMs(l), 0);
  }

  lemma HarmfulLeftover(cfg: Config, small: string, big: string)
    requires WholeCapacities(cfg) && Harms(cfg, small, big)
    ensures cfg(small).capacity < cfg(big).capacity
    ensures !Full(Bucket(cfg(small).capacity, 0), cfg(big), Ceil(IdleMs(cfg(small))))
  {
    hide Rate, Ceil, IdleMs;
    var e := Ceil(IdleMs(cfg(small)));
    IdleIsPositive(cfg(small));
    RefillIsMonotone(0, e, Rate(cfg(big)));
  }

  lemma HarmIsVisible(cfg: Config, small: string, big: string)
    requires WholeCapacities(cfg) && Harms(cfg, small, big)
    ensures cfg(small).capacity < cfg(big).capacity
    ensures var reqs := Exposing(cfg, small, big);
            && OnOneClock(reqs)
            && MemoryAnswer(reqs, cfg, |reqs| - 1) != KeepAnswer(reqs, cfg, |reqs| - 1)
  {
    hide Rate, Ceil, Consume, Sweep, Exposing, OnOneClock, Harms, Full, IdleMs;
    HarmfulLeftover(cfg, small, big);
    ExposingShape(cfg, small, big);
    var reqs := Exposing(cfg, small, big);
    var n, e := |reqs| - 2, Ceil(IdleMs(cfg(small)));
    OpeningBurst(cfg, small, big, n);
    assert KeepState(reqs, cfg, n) == map[big := Bucket(cfg(small).capacity, 0)];
    SweepByOther(cfg, small, big, reqs, n);
    ConsumeKeepsBounds(None, cfg(small), e);
    NothingToSweep(MemoryState(reqs, cfg, n + 1), cfg(big), e);
    RemainingBetrays(Bucket(cfg(small).capacity, 0), cfg(big), e);
  }

  /** A request on a bucket that is not full reports fewer remaining tokens than a fresh one. */
  lemma RemainingBetrays(b: Bucket, l: Limits, t: int)
    requires l.capacity >= 1.0 && l.capacity.Floor as real == l.capacity
    requires b.tokens >= 1.0 && !Full(b, l, t)
    ensures Consume(Some(b), l, t).1.remaining < Consume(None, l, t).1.remaining
  {
    hide Rate, Ceil;
    RefillIsMonotone(0, Elapsed(b, t), Rate(l));
    var x := b.tokens + Elapsed(b, t) as real * Rate(l);
    assert Refill(Some(b), l, t) == x;
    assert Refill(None, l, t) == l.capacity;
  }

  ghost predicate MemoryAgrees(cfg: Config) {
    forall reqs: seq<Request>, n: nat ::
      OnOneClock(reqs) && n < |reqs| ==> MemoryAnswer(reqs, cfg, n) == KeepAnswer(reqs, cfg, n)
  }

  /** With whole capacities, the sweep changes no answer on any history exactly when, for every
      two keys, the smaller capacity plus what the larger refills during the smaller's idle
      time reaches the larger capacity. */
  lemma MemoryAgreesIff(cfg: Config)
    requires WholeCapacities(cfg)
    ensures MemoryAgrees(cfg) <==> Harmless(cfg)
  {
    if Harmless(cfg) {
      forall reqs: seq<Request>, n: nat | OnOneClock(reqs) && n < |reqs|
        ensures MemoryAnswer(reqs, cfg, n) == KeepAnswer(reqs, cfg, n)
      {
        MemoryFollows(reqs, cfg, n);
      }
    } else {
      var small: string, big: string :| Harms(cfg, small, big);
      HarmIsVisible(cfg, small, big);
      var reqs := Exposing(cfg, small, big);
      assert OnOneClock(reqs);
    }
  }

  ghost predicate NeverFull(s: Buckets, capacity: real) {
    forall k :: k in s ==> 0.0 <= s[k].tokens < capacity
  }

  lemma NothingIsFull(capacity: real)
    ensures NeverFull(map[], capacity)
  {
  }

  lemma NotFullNotSwept(s: Buckets, l: Limits, now: int)
    requires NeverFull(s, l.capacity)
    ensures Sweep(s, l, now) == s
  {
    hide IdleMs;
  }

  lemma ChargeLeavesRoom(s: Buckets, key: string, l: Limits, at: int)
    requires NeverFull(s, l.capacity) && l.capacity >= 1.0
    ensures NeverFull(KeepStep(s, key, l, at).0, l.capacity)
  {
    hide Consume;
    ConsumeKeepsBounds(Get(s, key), l, at);
  }

  /** Where all keys have one capacity the sweep never removes a bucket, at any times: a stored
      bucket has always just been charged or found empty. */
  lemma {:induction false} SweepNeverRemoves(reqs: seq<Request>, cfg: Config, capacity: real, n: nat)
    requires capacity >= 1.0 && (forall k: string :: cfg(k).capacity == capacity) && n <= |reqs|
    ensures MemoryState(reqs, cfg, n) == KeepState(reqs, cfg, n) && NeverFull(KeepState(reqs, cfg, n), capacity)
  {
    hide KeepStep, Sweep, NeverFull;
    if n == 0 {
      NothingIsFull(capacity);
    } else {
      SweepNeverRemoves(reqs, cfg, capacity, n - 1);
      var r, s := reqs[n - 1], KeepState(reqs, cfg, n - 1);
      NotFullNotSwept(s, cfg(r.key), r.sweptAt);
      ChargeLeavesRoom(s, r.key, cfg(r.key), r.at);
    }
  }

  // ---------------------------------------------------------------------------------------
  // Redis
  // ---------------------------------------------------------------------------------------

  ghost predicate LuaSafe(cfg: Config) {
    forall k: string :: cfg(k).capacity >= 1.0 && cfg(k).windowMs > 0.0
  }

  ghost predicate Mirrors(redis: map<string, Hash>, keep: Buckets, cfg: Config) {
    && Bounded(keep, cfg)
    && redis.Keys == keep.Keys
    && (forall k :: k in keep ==>
          redis[k] == Hash(keep[k], keep[k].lastRefillAt + Ceil(cfg(k).windowMs * 2.0)))
  }

  lemma ExpiredIsFull(b: Bucket, l: Limits, at: int)
    requires l.capacity >= 1.0 && l.windowMs > 0.0 && ValidBucket(b, l)
    requires at >= b.lastRefillAt + Ceil(l.windowMs * 2.0)
    ensures Full(b, l, at)
  {
    var e := at - b.lastRefillAt;
    CeilIsLeast(l.windowMs * 2.0, e);
    assert e >= 1;
    DivideBy(SafeCapacity(l), Rate(l), e as real);
    WindowRefillsAll(l, e as real);
  }

  lemma WindowRefillsAll(l: Limits, e: real)
    requires e >= SafeWindow(l)
    ensures e * Rate(l) >= SafeCapacity(l)
  {
    var r := Rate(l);
    assert SafeWindow(l) * r == SafeCapacity(l);
    assert (e - SafeWindow(l)) * r >= 0.0;
  }

  lemma RedisStepMirrors(redis: map<string, Hash>, keep: Buckets, cfg: Config, key: string, at: int)
    requires LuaSafe(cfg) && Mirrors(redis, keep, cfg)
    ensures RedisStep(redis, key, cfg(key), at).1 == KeepStep(keep, key, cfg(key), at).1
    ensures Mirrors(RedisStep(redis, key, cfg(key), at).0, KeepStep(keep, key, cfg(key), at).0, cfg)
  {
    hide Rate, Ceil, Full, Consume, LuaConsume, Elapsed;
    LuaAgreesHere(Live(redis, key, at), cfg(key), at);
    if key in keep && Live(redis, key, at).None? {
      ExpiredIsFull(keep[key], cfg(key), at);
      FullIsAsGoodAsNew(keep[key], cfg(key), at);
    }
    ConsumeKeepsBounds(Get(keep, key), cfg(key), at);
  }

  /** Redis with expiring keys answers every history as the store that forgets nothing does. */
  lemma {:induction false} RedisAgrees(reqs: seq<Request>, cfg: Config, n: nat)
    requires LuaSafe(cfg) && n < |reqs|
    ensures RedisAnswer(reqs, cfg, n) == KeepAnswer(reqs, cfg, n)
    ensures Mirrors(RedisState(reqs, cfg, n), KeepState(reqs, cfg, n), cfg)
  {
    hide Mirrors, LuaSafe, RedisStep, KeepStep;
    if n == 0 {
      NothingMirrors(cfg);
    } else {
      RedisAgrees(reqs, cfg, n - 1);
      var r := reqs[n - 1];
      RedisStepMirrors(RedisState(reqs, cfg, n - 1), KeepState(reqs, cfg, n - 1), cfg, r.key, r.at);
    }
    RedisStepMirrors(RedisState(reqs, cfg, n), KeepState(reqs, cfg, n), cfg, reqs[n].key, reqs[n].at);
  }

  lemma NothingMirrors(cfg: Config)
    ensures Mirrors(map[], map[], cfg)
  {
  }

  /** Under one configuration for all keys, as each middleware has, all three stores give the
      same allowed, remaining and resetAt on every history over one non-decreasing clock. */
  lemma ThreeStoresAgree(reqs: seq<Request>, l: Limits, n: nat)
    requires l.capacity >= 1.0 && l.windowMs > 0.0
    requires OnOneClock(reqs) && n < |reqs|
    ensures MemoryAnswer(reqs, _ => l, n) == KeepAnswer(reqs, _ => l, n) == RedisAnswer(reqs, _ => l, n)
  {
    hide Rate, Ceil;
    var cfg: Config := _ => l;
    assert Harmless(cfg) by {
      IdleIsPositive(l);
      RefillIsMonotone(0, Ceil(IdleMs(l)), Rate(l));
    }
    MemoryFollows(reqs, cfg, n);
    RedisAgrees(reqs, cfg, n);
  }

  // ---------------------------------------------------------------------------------------
  // Each key sees its own history
  // ---------------------------------------------------------------------------------------

  /** The times of one key's requests among the first n. */
  function TimesOf(reqs: seq<Request>, n: nat, key: string): seq<int>
    requires n <= |reqs|
  {
    if n == 0 then []
    else TimesOf(reqs, n - 1, key) + (if reqs[n - 1].key == key then [reqs[n - 1].at] else [])
  }

  lemma {:induction false} AfterPrefix(times: seq<int>, t: int, l: Limits, n: nat)
    requires n <= |times|
    ensures After(times + [t], l, n) == After(times, l, n)
  {
    if n > 0 { AfterPrefix(times, t, l, n - 1); }
  }

  lemma {:induction false} KeptBucket(reqs: seq<Request>, cfg: Config, n: nat, key: string)
    requires n <= |reqs|
    ensures var times := TimesOf(reqs, n, key);
            Get(KeepState(reqs, cfg, n), key) == After(times, cfg(key), |times|)
  {
    hide Consume;
    if n > 0 {
      KeptBucket(reqs, cfg, n - 1, key);
      var times, r := TimesOf(reqs, n - 1, key), reqs[n - 1];
      if r.key == key {
        AfterPrefix(times, r.at, cfg(key), |times|);
      } else {
        assert times + [] == times;
      }
    }
  }

  lemma {:induction false} TimesInOrder(reqs: seq<Request>, n: nat, key: string)
    requires OnOneClock(reqs) && n <= |reqs|
    ensures Monotone(TimesOf(reqs, n, key))
    ensures forall i :: 0 <= i < |TimesOf(reqs, n, key)| ==> n > 0 && TimesOf(reqs, n, key)[i] <= reqs[n - 1].at
  {
    if n > 0 {
      TimesInOrder(reqs, n - 1, key);
      if n > 1 { assert reqs[n - 2].at <= reqs[n - 1].sweptAt; }
    }
  }

  /** Among any other keys' requests, a request is answered as in the history of its own key. */
  lemma KeyIsOnItsOwn(reqs: seq<Request>, cfg: Config, n: nat)
    requires OnOneClock(reqs) && n < |reqs|
    ensures var times := TimesOf(reqs, n + 1, reqs[n].key);
            && times != [] && Monotone(times)
            && KeepAnswer(reqs, cfg, n) == Answer(times, cfg(reqs[n].key), |times| - 1)
  {
    hide Consume;
    var key := reqs[n].key;
    var before := TimesOf(reqs, n, key);
    KeptBucket(reqs, cfg, n, key);
    AfterPrefix(before, reqs[n].at, cfg(key), |before|);
    TimesInOrder(reqs, n + 1, key);
  }

  /** In all three stores, over one configuration and any mixture of keys, a request is allowed
      exactly when it overruns no interval of its own key's history. */
  lemma StoresAllowIff(reqs: seq<Request>, l: Limits, n: nat)
    requires l.capacity >= 1.0 && l.windowMs > 0.0
    requires OnOneClock(reqs) && n < |reqs|
    ensures var times := TimesOf(reqs, n + 1, reqs[n].key);
            && times != []
            && MemoryAnswer(reqs, _ => l, n) == RedisAnswer(reqs, _ => l, n) == Answer(times, l, |times| - 1)
            && (MemoryAnswer(reqs, _ => l, n).allowed
                <==> forall j :: 0 <= j < |times| ==>
                       WithinWindow(Admitted(Decisions(times, l), j, |times| - 1) + 1, times[|times| - 1] - times[j],
                                    l.capacity, if l.windowMs >= 1.0 then l.windowMs else 1.0))
  {
    hide Admitted, WithinWindow, Answer, KeepAnswer, MemoryAnswer, RedisAnswer, OnOneClock, TimesOf;
    ThreeStoresAgree(reqs, l, n);
    KeyIsOnItsOwn(reqs, _ => l, n);
    var times := TimesOf(reqs, n + 1, reqs[n].key);
    AllowedInEveryWindow(times, l, |times| - 1);
  }
}
