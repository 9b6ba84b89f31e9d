/** The in-memory job queue as a state machine. Every `await` is a point where other steps may
    run: timer callbacks, drains, enqueues, starts and stops interleave with slow handlers. */
module JobQueue {
  import opened Wrappers

  /** One invocation of a handler: when it happened and the earliest time it was allowed. */
  datatype Start = Start(at: int, due: int)

  /** A job. `serial` stands for the identity of the job object (callers may repeat ids),
      `delayMs` remembers the requested delay, and `starts` records every invocation of a
      handler with it. */
  datatype Job = Job(
    serial: nat, id: string, kind: string, payload: string,
    attempts: nat, maxAttempts: int, delayMs: int, createdAt: int, updatedAt: int, nextRunAt: int,
    lastError: Option<string>, starts: seq<Start>)

  datatype Owner = Timer | Drain

  /** An activation of `_processTick` waiting for the handler of `todo[0]`. */
  datatype Tick = Tick(owner: Owner, readAt: int, todo: seq<Job>)

  /** The queue object's fields, and what the event loop holds on its behalf: activations
      awaiting a handler, finished timer ticks whose continuation has yet to run (`thens`),
      and drains about to call `_processTick` again. `finished` and `accepted` are history. */
  datatype Queue = Queue(
    handlers: set<string>, pending: seq<Job>, failed: seq<Job>,
    running: bool, processing: bool, armed: bool, retryBackoffMs: int,
    ticks: seq<Tick>, thens: nat, drains: nat,
    finished: seq<Job>, accepted: nat, clock: int)

  function Empty(retryBackoffMs: int, now: int): Queue {
    Queue({}, [], [], false, false, false, retryBackoffMs, [], 0, 0, [], 0, now)
  }

  function Tries(maxAttempts: int): (n: int)
    ensures n >= 1
  {
    if maxAttempts < 1 then 1 else maxAttempts
  }

  function MaxTries(j: Job): int { Tries(j.maxAttempts) }

  // ---------------------------------------------------------------------------------------
  // Steps
  // ---------------------------------------------------------------------------------------

  datatype Event =
    | Register(kind: string, now: int)
    | Enqueue(id: string, kind: string, payload: string, maxAttempts: int, delayMs: int, now: int)
    | StartUp(now: int)
    | ShutDown(now: int)
    | TimerFires(now: int)
    | Continue(now: int)
    | CallDrain(now: int)
    | DrainAgain(now: int)
    | Succeed(tick: nat, now: int)
    | Fail(tick: nat, error: string, now: int)

  function Schedule(q: Queue): Queue {
    if !q.running || q.armed || q.pending == [] then q else q.(armed := true)
  }

  function NewJob(q: Queue, e: Event): Job
    requires e.Enqueue?
  {
    Job(q.accepted, e.id, e.kind, e.payload, 0, e.maxAttempts, e.delayMs, e.now, e.now, e.now + e.delayMs, None, [])
  }

  function Ready(jobs: seq<Job>, now: int): seq<Job> {
    if jobs == [] then []
    else
      var j := jobs[|jobs| - 1];
      Ready(jobs[..|jobs| - 1], now) + (if j.nextRunAt <= now then [j] else [])
  }

  function Waiting(jobs: seq<Job>, now: int): seq<Job> {
    if jobs == [] then []
    else
      var j := jobs[|jobs| - 1];
      Waiting(jobs[..|jobs| - 1], now) + (if j.nextRunAt <= now then [] else [j])
  }

  /** What the caller of a returning `_processTick` leaves for the event loop. */
  function Return(q: Queue, owner: Owner, found: bool): Queue {
    match owner
    case Timer => q.(thens := q.thens + 1)
    case Drain => if found then q.(drains := q.drains + 1) else q
  }

  function Invoked(j: Job, now: int): Job {
    j.(starts := j.starts + [Start(now, j.nextRunAt)])
  }

  /** The loop over the batch, up to the next handler invocation or to the end. */
  function Advance(q: Queue, t: Tick, now: int): Queue
    decreases |t.todo|
  {
    if t.todo == [] then
      Return(q.(processing := false), t.owner, true)
    else if t.todo[0].kind !in q.handlers then
      Advance(q.(failed := q.failed + [t.todo[0]]), t.(todo := t.todo[1..]), now)
    else
      q.(ticks := q.ticks + [t.(todo := [Invoked(t.todo[0], now)] + t.todo[1..])])
  }

  function BeginTick(q: Queue, owner: Owner, now: int): Queue {
    if q.processing then Return(q, owner, false)
    else
      var ready := Ready(q.pending, now);
      if ready == [] then Return(q, owner, false)
      else Advance(q.(processing := true, pending := Waiting(q.pending, now)), Tick(owner, now, ready), now)
  }

  function Without(ticks: seq<Tick>, i: nat): seq<Tick>
    requires i < |ticks|
  {
    ticks[..i] + ticks[i + 1..]
  }

  function Failed(j: Job, error: string, now: int): Job {
    j.(attempts := j.attempts + 1, updatedAt := now, lastError := Some(error))
  }

  /** Where the catch block puts a job whose handler threw. */
  function PutBack(q: Queue, j: Job): Queue {
    if j.attempts < j.maxAttempts then
      q.(pending := q.pending + [j.(nextRunAt := j.updatedAt + q.retryBackoffMs)])
    else
      q.(failed := q.failed + [j])
  }

  predicate Enabled(q: Queue, e: Event) {
    && q.clock <= e.now
    && match e
       case TimerFires(_) => q.armed
       case Continue(_) => q.thens > 0
       case DrainAgain(_) => q.drains > 0
       case Succeed(i, _) => i < |q.ticks| && q.ticks[i].todo != []
       case Fail(i, _, _) => i < |q.ticks| && q.ticks[i].todo != []
       case _ => true
  }

  function Step(q0: Queue, e: Event): Queue
    requires Enabled(q0, e)
  {
    var q := q0.(clock := e.now);
    match e
    case Register(kind, _) => q.(handlers := q.handlers + {kind})
    case Enqueue(_, _, _, _, _, _) =>
      Schedule(q.(pending := q.pending + [NewJob(q, e)], accepted := q.accepted + 1))
    case StartUp(_) => if q.running then q else Schedule(q.(running := true))
    case ShutDown(_) => if !q.running then q else q.(running := false, armed := false)
    case TimerFires(now) => BeginTick(q.(armed := false), Timer, now)
    case Continue(_) => Schedule(q.(thens := q.thens - 1))
    case CallDrain(now) => BeginTick(q, Drain, now)
    case DrainAgain(now) => BeginTick(q.(drains := q.drains - 1), Drain, now)
    case Succeed(i, now) =>
      var t := q.ticks[i];
      Advance(q.(ticks := Without(q.ticks, i), finished := q.finished + [t.todo[0]]),
              t.(todo := t.todo[1..]), now)
    case Fail(i, error, now) =>
      var t := q.ticks[i];
      Advance(PutBack(q.(ticks := Without(q.ticks, i)), Failed(t.todo[0], error, now)),
              t.(todo := t.todo[1..]), now)
  }

  /** `es` is a run from q to q', every step taken when it is enabled. */
  ghost predicate Run(q: Queue, es: seq<Event>, q': Queue)
    decreases |es|
  {
    if es == [] then q' == q
    else Enabled(q, es[0]) && Run(Step(q, es[0]), es[1..], q')
  }

  // ---------------------------------------------------------------------------------------
  // Invariants
  // ---------------------------------------------------------------------------------------

  /** How many of some jobs have a serial number. */
  ghost function Count(serial: nat, jobs: seq<Job>): nat {
    if jobs == [] then 0
    else Count(serial, jobs[..|jobs| - 1]) + if jobs[|jobs| - 1].serial == serial then 1 else 0
  }

  ghost function InFlight(q: Queue): seq<Job> {
    if q.ticks == [] then [] else q.ticks[0].todo
  }

  /** In how many places a job is: pending, in the running batch, finished or dead-lettered. */
  ghost function Places(serial: nat, q: Queue): nat {
    Count(serial, q.pending) + Count(serial, InFlight(q)) + Count(serial, q.finished) + Count(serial, q.failed)
  }

  /** No start before it is due, the first not before the requested delay, and successive
      starts at least the backoff apart. */
  ghost predicate WellTimed(j: Job, backoff: int) {
    && (forall k :: 0 <= k < |j.starts| ==> j.starts[k].due <= j.starts[k].at)
    && (forall k :: 0 < k < |j.starts| ==> j.starts[k - 1].at + backoff <= j.starts[k].at)
    && (j.starts != [] ==> j.createdAt + j.delayMs <= j.starts[0].at)
  }

  /** A job waiting for its next attempt. */
  ghost predicate Retriable(j: Job, q: Queue) {
    && |j.starts| == j.attempts < MaxTries(j)
    && WellTimed(j, q.retryBackoffMs)
    && (if j.starts == [] then j.createdAt + j.delayMs <= j.nextRunAt
        else j.starts[|j.starts| - 1].at + q.retryBackoffMs <= j.nextRunAt)
    && (j.attempts > 0 ==> j.kind in q.handlers)
  }

  /** A job whose handler is running, or has just succeeded. */
  ghost predicate Invocated(j: Job, q: Queue) {
    && |j.starts| == j.attempts + 1 <= MaxTries(j)
    && WellTimed(j, q.retryBackoffMs)
    && j.starts[|j.starts| - 1].at <= q.clock
    && j.kind in q.handlers
  }

  /** A dead-lettered job: tried exactly as often as allowed, or never for want of a handler. */
  ghost predicate Dead(j: Job, q: Queue) {
    && |j.starts| == j.attempts
    && (j.attempts == MaxTries(j) || j.attempts == 0)
    && WellTimed(j, q.retryBackoffMs)
  }

  ghost predicate BatchOk(t: Tick, q: Queue) {
    && t.readAt <= q.clock
    && (forall k :: 0 <= k < |t.todo| ==> Retriable(t.todo[k], q) && t.todo[k].nextRunAt <= t.readAt)
  }

  ghost predicate TickOk(t: Tick, q: Queue) {
    && t.todo != []
    && Invocated(t.todo[0], q)
    && BatchOk(t.(todo := t.todo[1..]), q)
  }

  /** Everything but what the running batch holds. */
  ghost predicate Rest(q: Queue) {
    && (forall k :: 0 <= k < |q.pending| ==> Retriable(q.pending[k], q))
    && (forall k :: 0 <= k < |q.finished| ==> Invocated(q.finished[k], q))
    && (forall k :: 0 <= k < |q.failed| ==> Dead(q.failed[k], q))
  }

  ghost predicate Inv(q: Queue) {
    && |q.ticks| <= 1
    && (q.processing <==> |q.ticks| == 1)
    && (|q.ticks| == 1 ==> TickOk(q.ticks[0], q))
    && Rest(q)
  }

  // ---------------------------------------------------------------------------------------
  // Sequences of jobs
  // ---------------------------------------------------------------------------------------

  lemma CountSnoc(serial: nat, jobs: seq<Job>, j: Job)
    ensures Count(serial, jobs + [j]) == Count(serial, jobs) + if j.serial == serial then 1 else 0
  {
    assert (jobs + [j])[..|jobs|] == jobs;
  }

  lemma {:induction false} CountUncons(serial: nat, jobs: seq<Job>)
    requires jobs != []
    ensures Count(serial, jobs) == Count(serial, jobs[1..]) + if jobs[0].serial == serial then 1 else 0
  {
    if |jobs| > 1 {
      var front := jobs[..|jobs| - 1];
      CountUncons(serial, front);
      assert jobs[1..][..|jobs| - 2] == front[1..];
    }
  }

  /** One more job goes to exactly one side of the partition. */
  lemma PartitionStep(jobs: seq<Job>, now: int)
    requires jobs != []
    ensures var front, j := jobs[..|jobs| - 1], jobs[|jobs| - 1];
            if j.nextRunAt <= now then
              Ready(jobs, now) == Ready(front, now) + [j] && Waiting(jobs, now) == Waiting(front, now)
            else
              Ready(jobs, now) == Ready(front, now) && Waiting(jobs, now) == Waiting(front, now) + [j]
  {
  }

  lemma {:induction false} CountSplit(serial: nat, jobs: seq<Job>, now: int)
    ensures Count(serial, Ready(jobs, now)) + Count(serial, Waiting(jobs, now)) == Count(serial, jobs)
  {
    if jobs != [] {
      hide Ready, Waiting;
      var front, j := jobs[..|jobs| - 1], jobs[|jobs| - 1];
      CountSplit(serial, front, now);
      PartitionStep(jobs, now);
      CountSnoc(serial, Ready(front, now), j);
      CountSnoc(serial, Waiting(front, now), j);
    }
  }

  lemma {:induction false} PartitionedAt(jobs: seq<Job>, now: int, j: Job)
    ensures j in Ready(jobs, now) ==> j in jobs && j.nextRunAt <= now
    ensures j in Waiting(jobs, now) ==> j in jobs && j.nextRunAt > now
  {
    if jobs != [] {
      hide Ready, Waiting;
      var front, last := jobs[..|jobs| - 1], jobs[|jobs| - 1];
      PartitionedAt(front, now, j);
      PartitionStep(jobs, now);
      assert j in front ==> j in jobs;
      assert last in jobs;
    }
  }

  lemma {:induction false} NoneReady(jobs: seq<Job>, now: int)
    requires Ready(jobs, now) == []
    ensures Waiting(jobs, now) == jobs
  {
    if jobs != [] {
      PartitionStep(jobs, now);
      NoneReady(jobs[..|jobs| - 1], now);
      assert jobs == jobs[..|jobs| - 1] + [jobs[|jobs| - 1]];
    }
  }

  lemma PartitionSnoc(jobs: seq<Job>, j: Job, now: int)
    ensures Ready(jobs + [j], now) == Ready(jobs, now) + (if j.nextRunAt <= now then [j] else [])
    ensures Waiting(jobs + [j], now) == Waiting(jobs, now) + (if j.nextRunAt <= now then [] else [j])
  {
    assert (jobs + [j])[..|jobs|] == jobs;
  }

  lemma EmptyPartition(now: int)
    ensures Ready([], now) == [] == Waiting([], now)
  {
  }

  /** The partition keeps the order of the queue on both sides. */
  lemma {:induction false} PartitionKeepsOrder(a: seq<Job>, b: seq<Job>, now: int)
    ensures Ready(a + b, now) == Ready(a, now) + Ready(b, now)
    ensures Waiting(a + b, now) == Waiting(a, now) + Waiting(b, now)
  {
    hide Ready, Waiting;
    if b == [] {
      EmptyPartition(now);
      assert a + b == a;
    } else {
      var front, j := b[..|b| - 1], b[|b| - 1];
      PartitionKeepsOrder(a, front, now);
      PartitionSnoc(front, j, now);
      PartitionSnoc(a + front, j, now);
      assert a + b == (a + front) + [j] && b == front + [j];
    }
  }

  /** The partition keeps exactly the jobs it was given, each on the right side. */
  lemma Partitioned(jobs: seq<Job>, now: int)
    ensures forall j :: j in Ready(jobs, now) ==> j in jobs && j.nextRunAt <= now
    ensures forall j :: j in Waiting(jobs, now) ==> j in jobs && j.nextRunAt > now
    ensures Ready(jobs, now) == [] ==> Waiting(jobs, now) == jobs
  {
    forall j ensures j in Ready(jobs, now) ==> j in jobs && j.nextRunAt <= now {
      PartitionedAt(jobs, now, j);
    }
    forall j ensures j in Waiting(jobs, now) ==> j in jobs && j.nextRunAt > now {
      PartitionedAt(jobs, now, j);
    }
    if Ready(jobs, now) == [] { NoneReady(jobs, now); }
  }

  // ---------------------------------------------------------------------------------------
  // Every step keeps the invariant
  // ---------------------------------------------------------------------------------------

  /** The state inside `_processTick`, between two handlers: the batch is held by nobody but
      the loop. */
  ghost predicate Between(q: Queue, t: Tick) {
    q.ticks == [] && q.processing && BatchOk(t, q) && Rest(q)
  }

  /** Dead-lettering a job nobody handles. */
  lemma OrphanKeeps(q: Queue, t: Tick)
    requires Between(q, t) && t.todo != [] && t.todo[0].kind !in q.handlers
    ensures Between(q.(failed := q.failed + [t.todo[0]]), t.(todo := t.todo[1..]))
  {
    hide WellTimed;
  }

  /** Invoking the next handler. */
  lemma InvokeKeeps(q: Queue, t: Tick)
    requires Between(q, t) && t.todo != [] && t.todo[0].kind in q.handlers
    ensures Inv(Advance(q, t, q.clock))
  {
    hide WellTimed;
    var j := t.todo[0];
    InvokedIsTimely(j, q, t.readAt);
    var t' := t.(todo := [Invoked(j, q.clock)] + t.todo[1..]);
    assert t'.todo[1..] == t.todo[1..];
    assert Advance(q, t, q.clock).ticks == [t'];
  }

  lemma BatchDone(q: Queue, t: Tick)
    requires Between(q, t) && t.todo == []
    ensures Inv(Advance(q, t, q.clock))
  {
    hide WellTimed;
  }

  lemma {:induction false} AdvanceKeeps(q: Queue, t: Tick)
    requires Between(q, t)
    ensures Inv(Advance(q, t, q.clock))
    decreases |t.todo|
  {
    hide Between, Inv;
    if t.todo == [] {
      BatchDone(q, t);
    } else if t.todo[0].kind in q.handlers {
      InvokeKeeps(q, t);
    } else {
      OrphanKeeps(q, t);
      AdvanceKeeps(q.(failed := q.failed + [t.todo[0]]), t.(todo := t.todo[1..]));
    }
  }

  lemma InvokedIsTimely(j: Job, q: Queue, readAt: int)
    requires Retriable(j, q) && j.kind in q.handlers && j.nextRunAt <= readAt <= q.clock
    ensures Invocated(Invoked(j, q.clock), q)
  {
  }

  lemma BeginTickKeeps(q: Queue, owner: Owner)
    requires Inv(q)
    ensures Inv(BeginTick(q, owner, q.clock))
  {
    hide WellTimed, Retriable, Invocated, Dead;
    var now := q.clock;
    if !q.processing && Ready(q.pending, now) != [] {
      Partitioned(q.pending, now);
      var q' := q.(processing := true, pending := Waiting(q.pending, now));
      StillRetriable(q.pending, q, q');
      StillRest(q, q');
      AdvanceKeeps(q', Tick(owner, now, Ready(q.pending, now)));
    } else {
      SameInv(q, Return(q, owner, false));
    }
  }

  lemma SameInv(q: Queue, q': Queue)
    requires Inv(q)
    requires q' == q.(running := q'.running, armed := q'.armed, thens := q'.thens, drains := q'.drains,
                      accepted := q'.accepted)
    ensures Inv(q')
  {
  }

  /** The judgements depend on the clock, the handlers and the backoff only. */
  lemma StillRetriable(jobs: seq<Job>, q: Queue, q': Queue)
    requires q'.handlers >= q.handlers && q'.retryBackoffMs == q.retryBackoffMs
    requires forall j :: j in jobs ==> Retriable(j, q)
    ensures forall j :: j in jobs ==> Retriable(j, q')
  {
  }

  lemma StillRest(q: Queue, q': Queue)
    requires Rest(q) && q'.handlers >= q.handlers && q'.retryBackoffMs == q.retryBackoffMs && q.clock <= q'.clock
    requires forall j :: j in q'.pending ==> Retriable(j, q')
    requires q'.finished == q.finished && q'.failed == q.failed
    ensures Rest(q')
  {
  }

  lemma TakeFirst(q: Queue)
    requires Inv(q) && q.ticks != []
    ensures var t := q.ticks[0];
            && Without(q.ticks, 0) == []
            && Invocated(t.todo[0], q)
            && Between(q.(ticks := []), t.(todo := t.todo[1..]))
  {
  }

  lemma SucceedKeeps(q: Queue)
    requires Inv(q) && q.ticks != []
    ensures var t := q.ticks[0];
            Inv(Advance(q.(ticks := Without(q.ticks, 0), finished := q.finished + [t.todo[0]]),
                        t.(todo := t.todo[1..]), q.clock))
  {
    var t := q.ticks[0];
    TakeFirst(q);
    AdvanceKeeps(q.(ticks := [], finished := q.finished + [t.todo[0]]), t.(todo := t.todo[1..]));
  }

  lemma SameTiming(j: Job, k: Job, backoff: int)
    requires WellTimed(j, backoff) && k.starts == j.starts && k.createdAt == j.createdAt && k.delayMs == j.delayMs
    ensures WellTimed(k, backoff)
  {
  }

  /** A failed job is either ready to be retried after the backoff, or exhausted. */
  lemma PutBackKeeps(q: Queue, j: Job)
    requires Rest(q) && j.updatedAt == q.clock
    requires |j.starts| == j.attempts <= MaxTries(j) && j.attempts > 0
    requires WellTimed(j, q.retryBackoffMs) && j.starts[|j.starts| - 1].at <= q.clock && j.kind in q.handlers
    ensures Rest(PutBack(q, j))
  {
    hide WellTimed;
    if j.attempts < j.maxAttempts {
      SameTiming(j, j.(nextRunAt := j.updatedAt + q.retryBackoffMs), q.retryBackoffMs);
      assert Retriable(j.(nextRunAt := j.updatedAt + q.retryBackoffMs), PutBack(q, j));
    } else {
      assert Dead(j, PutBack(q, j));
    }
  }

  lemma FailKeeps(q: Queue, error: string)
    requires Inv(q) && q.ticks != []
    ensures var t := q.ticks[0];
            Inv(Advance(PutBack(q.(ticks := Without(q.ticks, 0)), Failed(t.todo[0], error, q.clock)),
                        t.(todo := t.todo[1..]), q.clock))
  {
    hide WellTimed, Rest, BatchOk;
    var t := q.ticks[0];
    TakeFirst(q);
    var j := Failed(t.todo[0], error, q.clock);
    var q1 := q.(ticks := []);
    SameTiming(t.todo[0], j, q.retryBackoffMs);
    PutBackKeeps(q1, j);
    SameBatch(t.(todo := t.todo[1..]), q1, PutBack(q1, j));
    AdvanceKeeps(PutBack(q1, j), t.(todo := t.todo[1..]));
  }

  lemma TimePasses(q: Queue, now: int)
    requires Inv(q) && q.clock <= now
    ensures Inv(q.(clock := now))
  {
  }

  lemma RegisterKeeps(q: Queue, kind: string)
    requires Inv(q)
    ensures Inv(q.(handlers := q.handlers + {kind}))
  {
    hide WellTimed;
  }

  lemma EnqueueKeeps(q: Queue, e: Event)
    requires Inv(q) && e.Enqueue?
    ensures Inv(q.(pending := q.pending + [NewJob(q, e)], accepted := q.accepted + 1))
  {
    var q' := q.(pending := q.pending + [NewJob(q, e)], accepted := q.accepted + 1);
    assert Retriable(NewJob(q, e), q');
  }

  lemma StepKeeps(q0: Queue, e: Event)
    requires Inv(q0) && Enabled(q0, e)
    ensures Inv(Step(q0, e))
  {
    hide Inv;
    TimePasses(q0, e.now);
    var q := q0.(clock := e.now);
    match e
    case Register(kind, _) => RegisterKeeps(q, kind);
    case Enqueue(_, _, _, _, _, _) =>
      EnqueueKeeps(q, e);
      var q1 := q.(pending := q.pending + [NewJob(q, e)], accepted := q.accepted + 1);
      SameInv(q1, Schedule(q1));
    case StartUp(_) => SameInv(q, Step(q0, e));
    case ShutDown(_) => SameInv(q, Step(q0, e));
    case TimerFires(_) =>
      SameInv(q, q.(armed := false));
      BeginTickKeeps(q.(armed := false), Timer);
    case Continue(_) => SameInv(q, Step(q0, e));
    case CallDrain(_) => BeginTickKeeps(q, Drain);
    case DrainAgain(_) =>
      SameInv(q, q.(drains := q.drains - 1));
      BeginTickKeeps(q.(drains := q.drains - 1), Drain);
    case Succeed(i, _) => OnlyTick(q, i); SucceedKeeps(q);
    case Fail(i, error, _) => OnlyTick(q, i); FailKeeps(q, error);
  }

  lemma OnlyTick(q: Queue, i: nat)
    requires Inv(q) && i < |q.ticks|
    ensures i == 0
  {
  }

  /** In every interleaving, from any state that keeps the invariant. */
  lemma {:induction false} RunKeeps(q: Queue, es: seq<Event>, q': Queue)
    requires Inv(q) && Run(q, es, q')
    ensures Inv(q')
    decreases |es|
  {
    if es != [] {
      StepKeeps(q, es[0]);
      RunKeeps(Step(q, es[0]), es[1..], q');
    }
  }

  // ---------------------------------------------------------------------------------------
  // Conservation
  // ---------------------------------------------------------------------------------------

  lemma {:induction false} AdvanceConserves(serial: nat, q: Queue, t: Tick, now: int)
    requires q.ticks == []
    ensures Places(serial, Advance(q, t, now)) == Places(serial, q) + Count(serial, t.todo)
    decreases |t.todo|
  {
    if t.todo == [] {
      assert InFlight(Advance(q, t, now)) == [];
    } else {
      hide Count;
      var j := t.todo[0];
      CountUncons(serial, t.todo);
      if j.kind !in q.handlers {
        CountSnoc(serial, q.failed, j);
        AdvanceConserves(serial, q.(failed := q.failed + [j]), t.(todo := t.todo[1..]), now);
      } else {
        var t' := t.(todo := [Invoked(j, now)] + t.todo[1..]);
        CountUncons(serial, t'.todo);
        assert t'.todo[1..] == t.todo[1..];
        assert Advance(q, t, now).ticks == [t'];
      }
    }
  }

  lemma BeginTickConserves(serial: nat, q: Queue, owner: Owner, now: int)
    requires |q.ticks| <= 1 && (q.processing <==> |q.ticks| == 1)
    ensures Places(serial, BeginTick(q, owner, now)) == Places(serial, q)
  {
    if !q.processing && Ready(q.pending, now) != [] {
      CountSplit(serial, q.pending, now);
      AdvanceConserves(serial, q.(processing := true, pending := Waiting(q.pending, now)),
                       Tick(owner, now, Ready(q.pending, now)), now);
    }
  }

  /** Taking the running job out of the batch. */
  lemma TakeOut(serial: nat, q: Queue, now: int)
    requires |q.ticks| == 1 && q.ticks[0].todo != []
    ensures var t := q.ticks[0];
            && Without(q.ticks, 0) == []
            && Places(serial, q) == Places(serial, q.(clock := now, ticks := [])) + Count(serial, t.todo[1..])
                                    + if t.todo[0].serial == serial then 1 else 0
  {
    hide Count;
    CountUncons(serial, q.ticks[0].todo);
    NoneInFlight(serial, q.(clock := now, ticks := []));
  }

  lemma NoneInFlight(serial: nat, q: Queue)
    requires q.ticks == []
    ensures Count(serial, InFlight(q)) == 0
  {
  }

  lemma FinishConserves(serial: nat, q: Queue, j: Job)
    requires q.ticks == []
    ensures Places(serial, q.(finished := q.finished + [j])) == Places(serial, q) + if j.serial == serial then 1 else 0
  {
    hide Count;
    CountSnoc(serial, q.finished, j);
  }

  lemma CompletionConserves(serial: nat, q: Queue, e: Event)
    requires |q.ticks| == 1 && Enabled(q, e) && (e.Succeed? || e.Fail?)
    ensures Places(serial, Step(q, e)) == Places(serial, q)
  {
    hide Count, Places, Advance, PutBack;
    var t := q.ticks[0];
    var rest := t.(todo := t.todo[1..]);
    var q1 := q.(clock := e.now, ticks := []);
    TakeOut(serial, q, e.now);
    if e.Succeed? {
      FinishConserves(serial, q1, t.todo[0]);
      AdvanceConserves(serial, q1.(finished := q.finished + [t.todo[0]]), rest, e.now);
    } else {
      var j := Failed(t.todo[0], e.error, e.now);
      PutBackConserves(serial, q1, j);
      AdvanceConserves(serial, PutBack(q1, j), rest, e.now);
    }
  }

  lemma PutBackConserves(serial: nat, q: Queue, j: Job)
    requires q.ticks == []
    ensures Places(serial, PutBack(q, j)) == Places(serial, q) + if j.serial == serial then 1 else 0
    ensures PutBack(q, j).ticks == []
  {
    hide Count;
    if j.attempts < j.maxAttempts {
      CountSnoc(serial, q.pending, j.(nextRunAt := j.updatedAt + q.retryBackoffMs));
    } else {
      CountSnoc(serial, q.failed, j);
    }
  }

  lemma StepConserves(serial: nat, q0: Queue, e: Event)
    requires Inv(q0) && Enabled(q0, e)
    ensures Places(serial, Step(q0, e))
            == Places(serial, q0) + if e.Enqueue? && serial == q0.accepted then 1 else 0
  {
    hide Rest, TickOk;
    var q := q0.(clock := e.now);
    match e
    case Register(_, _) =>
    case Enqueue(_, _, _, _, _, _) => CountSnoc(serial, q.pending, NewJob(q, e));
    case StartUp(_) =>
    case ShutDown(_) =>
    case TimerFires(now) => BeginTickConserves(serial, q.(armed := false), Timer, now);
    case Continue(_) =>
    case CallDrain(now) => BeginTickConserves(serial, q, Drain, now);
    case DrainAgain(now) => BeginTickConserves(serial, q.(drains := q.drains - 1), Drain, now);
    case Succeed(_, _) => CompletionConserves(serial, q0, e);
    case Fail(_, _, _) => CompletionConserves(serial, q0, e);
  }

  lemma {:induction false} AdvanceAccepts(q: Queue, t: Tick, now: int)
    ensures Advance(q, t, now).accepted == q.accepted
    ensures Advance(q, t, now).handlers == q.handlers
    ensures Advance(q, t, now).clock == q.clock
    ensures Advance(q, t, now).retryBackoffMs == q.retryBackoffMs
    ensures Advance(q, t, now).running == q.running
    ensures Advance(q, t, now).pending == q.pending
    ensures Advance(q, t, now).armed == q.armed
    decreases |t.todo|
  {
    if t.todo != [] && t.todo[0].kind !in q.handlers {
      AdvanceAccepts(q.(failed := q.failed + [t.todo[0]]), t.(todo := t.todo[1..]), now);
    }
  }

  lemma AcceptedUnchanged(q: Queue, e: Event)
    requires Enabled(q, e)
    ensures Step(q, e).accepted == q.accepted + if e.Enqueue? then 1 else 0
    ensures q.handlers <= Step(q, e).handlers
    ensures Step(q, e).clock == e.now
    ensures Step(q, e).retryBackoffMs == q.retryBackoffMs
  {
    forall q1: Queue, t: Tick ensures Advance(q1, t, e.now).accepted == q1.accepted
      && Advance(q1, t, e.now).handlers == q1.handlers && Advance(q1, t, e.now).clock == q1.clock
      && Advance(q1, t, e.now).retryBackoffMs == q1.retryBackoffMs
    {
      AdvanceAccepts(q1, t, e.now);
    }
  }

  /** In every run each accepted job is in exactly one place, and nothing else is anywhere. */
  lemma {:induction false} RunConserves(serial: nat, q: Queue, es: seq<Event>, q': Queue)
    requires Inv(q) && Run(q, es, q')
    requires Places(serial, q) == if serial < q.accepted then 1 else 0
    ensures Places(serial, q') == if serial < q'.accepted then 1 else 0
    decreases |es|
  {
    hide Inv, Places;
    if es != [] {
      StepKeeps(q, es[0]);
      StepConserves(serial, q, es[0]);
      AcceptedUnchanged(q, es[0]);
      RunConserves(serial, Step(q, es[0]), es[1..], q');
    }
  }

  /** What every state reached from a new queue satisfies, in any interleaving. */
  lemma QueueIsSafe(retryBackoffMs: int, start: int, es: seq<Event>, q: Queue)
    requires Run(Empty(retryBackoffMs, start), es, q)
    ensures |q.ticks| <= 1
    ensures forall serial: nat :: Places(serial, q) == if serial < q.accepted then 1 else 0
    ensures forall j :: j in q.pending ==> |j.starts| == j.attempts < MaxTries(j)
    ensures forall j :: j in InFlight(q) ==> |j.starts| <= MaxTries(j)
    ensures q.ticks != [] ==> q.ticks[0].todo != [] && 1 <= |q.ticks[0].todo[0].starts|
    ensures forall j :: j in q.finished ==> 1 <= |j.starts| <= MaxTries(j)
    ensures forall j :: j in q.failed ==> |j.starts| == MaxTries(j) || j.starts == []
    ensures forall j :: j in q.pending + InFlight(q) + q.finished + q.failed ==> WellTimed(j, retryBackoffMs)
  {
    var q0 := Empty(retryBackoffMs, start);
    RunKeeps(q0, es, q);
    BackoffIsFixed(q0, es, q);
    forall serial: nat ensures Places(serial, q) == if serial < q.accepted then 1 else 0 {
      RunConserves(serial, q0, es, q);
    }
    forall j | j in InFlight(q) ensures WellTimed(j, retryBackoffMs) && |j.starts| <= MaxTries(j) {
      assert TickOk(q.ticks[0], q);
      var k :| 0 <= k < |q.ticks[0].todo| && q.ticks[0].todo[k] == j;
      assert k > 0 ==> j == q.ticks[0].todo[1..][k - 1];
    }
  }

  lemma {:induction false} BackoffIsFixed(q: Queue, es: seq<Event>, q': Queue)
    requires Run(q, es, q')
    ensures q'.retryBackoffMs == q.retryBackoffMs && q.handlers <= q'.handlers
    decreases |es|
  {
    if es != [] {
      AcceptedUnchanged(q, es[0]);
      BackoffIsFixed(Step(q, es[0]), es[1..], q');
    }
  }

  // ---------------------------------------------------------------------------------------
  // A job with a handler dies only of exhaustion
  // ---------------------------------------------------------------------------------------

  lemma {:induction false} AdvanceDeadLetters(q: Queue, t: Tick, now: int)
    ensures forall j :: j in Advance(q, t, now).failed && j !in q.failed ==> j.kind !in q.handlers
    ensures forall j :: j in q.failed ==> j in Advance(q, t, now).failed
    decreases |t.todo|
  {
    if t.todo != [] && t.todo[0].kind !in q.handlers {
      AdvanceDeadLetters(q.(failed := q.failed + [t.todo[0]]), t.(todo := t.todo[1..]), now);
    }
  }

  lemma StepDeadLetters(q0: Queue, e: Event, j: Job)
    requires Inv(q0) && Enabled(q0, e) && j.kind in q0.handlers
    requires j in Step(q0, e).failed && j !in q0.failed
    ensures |j.starts| == MaxTries(j)
  {
    hide Rest;
    var q := q0.(clock := e.now);
    match e
    case TimerFires(now) =>
      AdvanceDeadLetters(q.(armed := false, processing := true, pending := Waiting(q.pending, now)),
                         Tick(Timer, now, Ready(q.pending, now)), now);
    case CallDrain(now) =>
      AdvanceDeadLetters(q.(processing := true, pending := Waiting(q.pending, now)),
                         Tick(Drain, now, Ready(q.pending, now)), now);
    case DrainAgain(now) =>
      AdvanceDeadLetters(q.(drains := q.drains - 1, processing := true, pending := Waiting(q.pending, now)),
                         Tick(Drain, now, Ready(q.pending, now)), now);
    case Succeed(i, now) =>
      var t := q.ticks[i];
      AdvanceDeadLetters(q.(ticks := Without(q.ticks, i), finished := q.finished + [t.todo[0]]),
                         t.(todo := t.todo[1..]), now);
    case Fail(i, error, now) =>
      var t := q.ticks[i];
      var j' := Failed(t.todo[0], error, now);
      assert TickOk(q0.ticks[0], q0);
      AdvanceDeadLetters(PutBack(q.(ticks := Without(q.ticks, i)), j'), t.(todo := t.todo[1..]), now);
    case _ =>
  }

  /** A job dead-lettered after its kind got a handler was tried exactly max(1, maxAttempts)
      times. */
  lemma {:induction false} HandledJobsAreExhausted(q: Queue, es: seq<Event>, q': Queue, j: Job)
    requires Inv(q) && Run(q, es, q') && j.kind in q.handlers
    requires j in q'.failed && j !in q.failed
    ensures |j.starts| == MaxTries(j)
    decreases |es|
  {
    hide Inv;
    if es != [] {
      StepKeeps(q, es[0]);
      AcceptedUnchanged(q, es[0]);
      if j in Step(q, es[0]).failed {
        StepDeadLetters(q, es[0], j);
      } else {
        HandledJobsAreExhausted(Step(q, es[0]), es[1..], q', j);
      }
    }
  }

  // ---------------------------------------------------------------------------------------
  // Wake-ups
  // ---------------------------------------------------------------------------------------

  /** A running queue with pending jobs has a timer armed, or a timer-started tick or its
      continuation outstanding that will arm one. */
  ghost predicate Awake(q: Queue) {
    q.running && q.pending != [] ==>
      q.armed || q.thens > 0 || exists i :: 0 <= i < |q.ticks| && q.ticks[i].owner == Timer
  }

  /** The wake-up is lost exactly when a handler run by `drain` fails with attempts left while
      no timer is armed and no timer tick is outstanding. */
  ghost predicate LosesWakeUp(q: Queue, e: Event)
    requires Inv(q) && Enabled(q, e)
  {
    && e.Fail?
    && q.ticks[0].owner == Drain
    && q.ticks[0].todo[0].attempts + 1 < q.ticks[0].todo[0].maxAttempts
    && q.running && !q.armed && q.thens == 0
  }

  lemma {:induction false} AdvanceOwner(q: Queue, t: Tick, now: int)
    requires q.ticks == []
    ensures var q' := Advance(q, t, now);
            && (t.owner == Timer ==> q'.thens > q.thens || (|q'.ticks| == 1 && q'.ticks[0].owner == Timer))
            && (t.owner == Drain ==>
                  q'.thens == q.thens && forall i :: 0 <= i < |q'.ticks| ==> q'.ticks[i].owner == Drain)
            && q'.thens >= q.thens
    decreases |t.todo|
  {
    if t.todo != [] && t.todo[0].kind !in q.handlers {
      AdvanceOwner(q.(failed := q.failed + [t.todo[0]]), t.(todo := t.todo[1..]), now);
    }
  }

  lemma BeginTickAwake(q: Queue, owner: Owner, now: int)
    requires |q.ticks| <= 1 && (q.processing <==> |q.ticks| == 1)
    requires owner == Drain ==> Awake(q)
    ensures Awake(BeginTick(q, owner, now))
  {
    if !q.processing && Ready(q.pending, now) != [] {
      var q' := q.(processing := true, pending := Waiting(q.pending, now));
      var t := Tick(owner, now, Ready(q.pending, now));
      AdvanceOwner(q', t, now);
      AdvanceAccepts(q', t, now);
      Partitioned(q.pending, now);
    }
  }

  lemma WakeUpKeptIff(q0: Queue, e: Event)
    requires Inv(q0) && Enabled(q0, e) && Awake(q0)
    ensures Awake(Step(q0, e)) <==> !LosesWakeUp(q0, e)
  {
    hide Rest, TickOk, BatchOk;
    var q := q0.(clock := e.now);
    match e
    case Register(_, _) =>
    case Enqueue(_, _, _, _, _, _) =>
    case StartUp(_) =>
    case ShutDown(_) =>
    case TimerFires(now) => BeginTickAwake(q.(armed := false), Timer, now);
    case Continue(_) =>
    case CallDrain(now) => BeginTickAwake(q, Drain, now);
    case DrainAgain(now) => BeginTickAwake(q.(drains := q.drains - 1), Drain, now);
    case Succeed(i, now) =>
      var t := q.ticks[0];
      var q' := q.(ticks := Without(q.ticks, 0), finished := q.finished + [t.todo[0]]);
      AdvanceOwner(q', t.(todo := t.todo[1..]), now);
      AdvanceAccepts(q', t.(todo := t.todo[1..]), now);
    case Fail(i, error, now) =>
      var t := q.ticks[0];
      var q' := PutBack(q.(ticks := Without(q.ticks, 0)), Failed(t.todo[0], error, now));
      AdvanceOwner(q', t.(todo := t.todo[1..]), now);
      AdvanceAccepts(q', t.(todo := t.todo[1..]), now);
  }

  ghost predicate NoDrain(q: Queue) {
    q.drains == 0 && forall i :: 0 <= i < |q.ticks| ==> q.ticks[i].owner == Timer
  }

  lemma {:induction false} AdvanceNoDrain(q: Queue, t: Tick, now: int)
    requires q.ticks == [] && q.drains == 0 && t.owner == Timer
    ensures NoDrain(Advance(q, t, now))
    decreases |t.todo|
  {
    if t.todo != [] && t.todo[0].kind !in q.handlers {
      AdvanceNoDrain(q.(failed := q.failed + [t.todo[0]]), t.(todo := t.todo[1..]), now);
    }
  }

  lemma StepNoDrain(q0: Queue, e: Event)
    requires Inv(q0) && Enabled(q0, e) && NoDrain(q0) && !e.CallDrain?
    ensures NoDrain(Step(q0, e))
  {
    hide Rest, TickOk;
    var q := q0.(clock := e.now);
    match e
    case TimerFires(now) =>
      if !q.processing {
        AdvanceNoDrain(q.(armed := false, processing := true, pending := Waiting(q.pending, now)),
                       Tick(Timer, now, Ready(q.pending, now)), now);
      }
    case Succeed(i, now) =>
      var t := q.ticks[0];
      AdvanceNoDrain(q.(ticks := Without(q.ticks, 0), finished := q.finished + [t.todo[0]]),
                     t.(todo := t.todo[1..]), now);
    case Fail(i, error, now) =>
      var t := q.ticks[0];
      AdvanceNoDrain(PutBack(q.(ticks := Without(q.ticks, 0)), Failed(t.todo[0], error, now)),
                     t.(todo := t.todo[1..]), now);
    case _ =>
  }

  /** Without `drain`, no run loses a wake-up. */
  lemma {:induction false} NeverAsleepWithoutDrain(q: Queue, es: seq<Event>, q': Queue)
    requires Inv(q) && Awake(q) && NoDrain(q) && Run(q, es, q')
    requires forall k :: 0 <= k < |es| ==> !es[k].CallDrain?
    ensures Awake(q')
    decreases |es|
  {
    hide Rest, TickOk;
    if es != [] {
      StepKeeps(q, es[0]);
      WakeUpKeptIff(q, es[0]);
      StepNoDrain(q, es[0]);
      NeverAsleepWithoutDrain(Step(q, es[0]), es[1..], q');
    }
  }

  /** The job of the lost wake-up, before and after its first attempt. */
  const VICTIM := Job(0, "a", "k", "", 0, 3, 0, 0, 0, 0, None, [])
  const HELD_BACK := Failed(Invoked(VICTIM, 0), "boom", 2).(nextRunAt := 502)

  lemma TheOnlyJobIsDue()
    ensures Ready([VICTIM], 0) == [VICTIM] && Waiting([VICTIM], 0) == []
  {
    assert [VICTIM][..0] == [];
  }

  lemma DrainInvokesTheHandler(q: Queue)
    requires q == Queue({"k"}, [VICTIM], [], true, false, true, 500, [], 0, 0, [], 1, 0)
    ensures Step(q, CallDrain(0))
            == q.(pending := [], processing := true, ticks := [Tick(Drain, 0, [Invoked(VICTIM, 0)])])
  {
    TheOnlyJobIsDue();
    assert [Invoked(VICTIM, 0)] + [VICTIM][1..] == [Invoked(VICTIM, 0)];
  }

  /** A drain picks up the only job of a running queue. */
  lemma DrainTakesTheJob()
    ensures Run(Empty(500, 0),
                [Register("k", 0), Enqueue("a", "k", "", 3, 0, 0), StartUp(0), CallDrain(0)],
                Queue({"k"}, [], [], true, true, true, 500, [Tick(Drain, 0, [Invoked(VICTIM, 0)])], 0, 0, [], 1, 0))
  {
    hide BeginTick, Advance, Invoked;
    var q0 := Empty(500, 0);
    var q1 := q0.(handlers := {"k"});
    var q2 := q1.(pending := [VICTIM], accepted := 1);
    var q3 := q2.(running := true, armed := true);
    assert Step(q0, Register("k", 0)) == q1;
    assert Step(q1, Enqueue("a", "k", "", 3, 0, 0)) == q2;
    assert Step(q2, StartUp(0)) == q3;
    DrainInvokesTheHandler(q3);
    var q4 := q3.(pending := [], processing := true, ticks := [Tick(Drain, 0, [Invoked(VICTIM, 0)])]);
    RunOfFour(q0, q1, q2, q3, q4, Register("k", 0), Enqueue("a", "k", "", 3, 0, 0), StartUp(0), CallDrain(0));
  }

  /** The timer fires in vain, the handler fails, and the drain finds nothing due. */
  lemma TheWakeUpIsLost()
    ensures Run(Queue({"k"}, [], [], true, true, true, 500, [Tick(Drain, 0, [Invoked(VICTIM, 0)])], 0, 0, [], 1, 0),
                [TimerFires(1), Continue(1), Fail(0, "boom", 2), DrainAgain(2)],
                Queue({"k"}, [HELD_BACK], [], true, false, false, 500, [], 0, 0, [], 1, 2))
  {
    var q4 := Queue({"k"}, [], [], true, true, true, 500, [Tick(Drain, 0, [Invoked(VICTIM, 0)])], 0, 0, [], 1, 0);
    var q5 := q4.(armed := false, thens := 1, clock := 1);
    var q6 := q5.(thens := 0);
    assert Step(q4, TimerFires(1)) == q5;
    assert Step(q5, Continue(1)) == q6;
    var q7 := q6.(pending := [HELD_BACK], processing := false, ticks := [], drains := 1, clock := 2);
    assert Without(q6.ticks, 0) == [] && [Invoked(VICTIM, 0)][1..] == [];
    assert Step(q6, Fail(0, "boom", 2)) == q7;
    assert Ready([HELD_BACK], 2) == [];
    var q8 := q7.(drains := 0);
    assert Step(q7, DrainAgain(2)) == q8;
    RunOfFour(q4, q5, q6, q7, q8, TimerFires(1), Continue(1), Fail(0, "boom", 2), DrainAgain(2));
  }

  lemma RunOfFour(q0: Queue, q1: Queue, q2: Queue, q3: Queue, q4: Queue, a: Event, b: Event, c: Event, d: Event)
    requires Enabled(q0, a) && Step(q0, a) == q1
    requires Enabled(q1, b) && Step(q1, b) == q2
    requires Enabled(q2, c) && Step(q2, c) == q3
    requires Enabled(q3, d) && Step(q3, d) == q4
    ensures Run(q0, [a, b, c, d], q4)
  {
    hide Step, Enabled;
    assert Run(q3, [d], q4) by { assert [d][1..] == []; }
    assert Run(q2, [c, d], q4) by { assert [c, d][1..] == [d]; }
    assert Run(q1, [b, c, d], q4) by { assert [b, c, d][1..] == [c, d]; }
    assert [a, b, c, d][1..] == [b, c, d];
  }

  lemma {:induction false} RunsCompose(q: Queue, es: seq<Event>, q': Queue, fs: seq<Event>, q'': Queue)
    requires Run(q, es, q') && Run(q', fs, q'')
    ensures Run(q, es + fs, q'')
    decreases |es|
  {
    hide Step, Enabled;
    if es == [] {
      assert es + fs == fs;
    } else {
      RunsCompose(Step(q, es[0]), es[1..], q', fs, q'');
      assert (es + fs)[1..] == es[1..] + fs;
    }
  }

  /** Running and idle with jobs pending, and nothing outstanding that would look at them. */
  ghost predicate Asleep(q: Queue) {
    && q.running && q.pending != [] && q.ticks == []
    && !q.armed && q.thens == 0 && q.drains == 0
  }

  /** An asleep queue invokes no handler and keeps its pending jobs, however long, until
      something is enqueued, `drain` is called or the queue is stopped. */
  lemma {:induction false} AsleepStays(q: Queue, es: seq<Event>, q': Queue)
    requires Asleep(q) && Run(q, es, q')
    requires forall k :: 0 <= k < |es| ==> !es[k].Enqueue? && !es[k].CallDrain? && !es[k].ShutDown?
    ensures Asleep(q') && !Awake(q')
    ensures q'.pending == q.pending && q'.failed == q.failed && q'.finished == q.finished
    decreases |es|
  {
    if es != [] {
      AsleepStays(Step(q, es[0]), es[1..], q');
    }
  }

  /** With `drain` a wake-up can be lost: the timer fires while a drained handler runs and
      nothing is pending, and then that handler fails. The queue is running and idle with a job
      pending, and stays so until the next enqueue, drain or stop (`AsleepStays`). */
  lemma DrainCanLoseWakeUp() returns (es: seq<Event>, q: Queue)
    ensures Run(Empty(500, 0), es, q)
    ensures Asleep(q)
  {
    DrainTakesTheJob();
    TheWakeUpIsLost();
    q := Queue({"k"}, [HELD_BACK], [], true, false, false, 500, [], 0, 0, [], 1, 2);
    es := [Register("k", 0), Enqueue("a", "k", "", 3, 0, 0), StartUp(0), CallDrain(0)]
          + [TimerFires(1), Continue(1), Fail(0, "boom", 2), DrainAgain(2)];
    RunsCompose(Empty(500, 0), [Register("k", 0), Enqueue("a", "k", "", 3, 0, 0), StartUp(0), CallDrain(0)],
                Queue({"k"}, [], [], true, true, true, 500, [Tick(Drain, 0, [Invoked(VICTIM, 0)])], 0, 0, [], 1, 0),
                [TimerFires(1), Continue(1), Fail(0, "boom", 2), DrainAgain(2)], q);
  }

  // ---------------------------------------------------------------------------------------
  // Work left, and termination
  // ---------------------------------------------------------------------------------------

  /** The attempts some jobs may still make. */
  ghost function Work(jobs: seq<Job>): int {
    if jobs == [] then 0
    else Work(jobs[..|jobs| - 1]) + MaxTries(jobs[|jobs| - 1]) - jobs[|jobs| - 1].attempts
  }

  ghost function WorkLeft(q: Queue): int { Work(q.pending) + Work(InFlight(q)) }

  lemma WorkSnoc(jobs: seq<Job>, j: Job)
    ensures Work(jobs + [j]) == Work(jobs) + MaxTries(j) - j.attempts
  {
    assert (jobs + [j])[..|jobs|] == jobs;
  }

  lemma {:induction false} WorkUncons(jobs: seq<Job>)
    requires jobs != []
    ensures Work(jobs) == MaxTries(jobs[0]) - jobs[0].attempts + Work(jobs[1..])
  {
    if |jobs| > 1 {
      var front := jobs[..|jobs| - 1];
      WorkUncons(front);
      assert jobs[1..][..|jobs| - 2] == front[1..];
    }
  }

  lemma {:induction false} WorkSplit(jobs: seq<Job>, now: int)
    ensures Work(Ready(jobs, now)) + Work(Waiting(jobs, now)) == Work(jobs)
  {
    if jobs != [] {
      hide Ready, Waiting;
      var front, j := jobs[..|jobs| - 1], jobs[|jobs| - 1];
      WorkSplit(front, now);
      PartitionStep(jobs, now);
      WorkSnoc(Ready(front, now), j);
      WorkSnoc(Waiting(front, now), j);
    }
  }

  lemma {:induction false} WorkIsPositive(jobs: seq<Job>)
    requires forall k :: 0 <= k < |jobs| ==> jobs[k].attempts < MaxTries(jobs[k])
    ensures Work(jobs) >= |jobs|
  {
    if jobs != [] { WorkIsPositive(jobs[..|jobs| - 1]); }
  }

  lemma InvWork(q: Queue)
    requires Inv(q)
    ensures WorkLeft(q) >= |q.pending| + |InFlight(q)|
  {
    hide WellTimed;
    WorkIsPositive(q.pending);
    if q.ticks != [] {
      var todo := q.ticks[0].todo;
      assert TickOk(q.ticks[0], q);
      forall k | 0 <= k < |todo| ensures todo[k].attempts < MaxTries(todo[k]) {
        assert k > 0 ==> todo[k] == todo[1..][k - 1] && Retriable(todo[1..][k - 1], q);
      }
      WorkIsPositive(todo);
    }
  }

  lemma {:induction false} AdvanceWork(q: Queue, t: Tick, now: int)
    requires q.ticks == [] && BatchOk(t, q)
    ensures var q' := Advance(q, t, now);
            && WorkLeft(q') <= Work(q.pending) + Work(t.todo)
            && (q'.ticks == [] ==> WorkLeft(q') + |t.todo| <= Work(q.pending) + Work(t.todo))
    decreases |t.todo|
  {
    hide WellTimed;
    if t.todo != [] {
      var j := t.todo[0];
      WorkUncons(t.todo);
      if j.kind !in q.handlers {
        AdvanceWork(q.(failed := q.failed + [j]), t.(todo := t.todo[1..]), now);
      } else {
        var t' := t.(todo := [Invoked(j, now)] + t.todo[1..]);
        WorkUncons(t'.todo);
        assert t'.todo[1..] == t.todo[1..];
        assert Advance(q, t, now).ticks == [t'];
      }
    }
  }

  lemma BeginTickWork(q: Queue, owner: Owner, now: int)
    requires Inv(q) && now == q.clock
    ensures var q' := BeginTick(q, owner, now);
            && WorkLeft(q') <= WorkLeft(q)
            && (!q.processing && Ready(q.pending, now) != [] && q'.ticks == [] ==> WorkLeft(q') < WorkLeft(q))
  {
    hide WellTimed, Retriable;
    if !q.processing && Ready(q.pending, now) != [] {
      Partitioned(q.pending, now);
      WorkSplit(q.pending, now);
      var q' := q.(processing := true, pending := Waiting(q.pending, now));
      StillRetriable(q.pending, q, q');
      AdvanceWork(q', Tick(owner, now, Ready(q.pending, now)), now);
    }
  }

  lemma PutBackWork(q: Queue, j: Job)
    requires j.attempts <= MaxTries(j)
    ensures Work(PutBack(q, j).pending) <= Work(q.pending) + MaxTries(j) - j.attempts
  {
    WorkSnoc(q.pending, j.(nextRunAt := j.updatedAt + q.retryBackoffMs));
  }

  lemma CompletionWork(q: Queue, e: Event)
    requires Inv(q) && Enabled(q, e) && (e.Succeed? || e.Fail?)
    ensures WorkLeft(Step(q, e)) < WorkLeft(q)
  {
    hide WellTimed, Rest, BatchOk;
    TimePasses(q, e.now);
    var q1 := q.(clock := e.now);
    var t := q.ticks[0];
    TakeFirst(q1);
    WorkUncons(t.todo);
    var rest := t.(todo := t.todo[1..]);
    if e.Succeed? {
      var q2 := q1.(ticks := [], finished := q.finished + [t.todo[0]]);
      SameBatch(rest, q1.(ticks := []), q2);
      AdvanceWork(q2, rest, e.now);
    } else {
      var j := Failed(t.todo[0], e.error, e.now);
      PutBackWork(q1.(ticks := []), j);
      SameBatch(rest, q1.(ticks := []), PutBack(q1.(ticks := []), j));
      AdvanceWork(PutBack(q1.(ticks := []), j), rest, e.now);
    }
  }

  lemma SameBatch(t: Tick, q: Queue, q': Queue)
    requires BatchOk(t, q) && q'.clock == q.clock && q'.handlers == q.handlers && q'.retryBackoffMs == q.retryBackoffMs
    ensures BatchOk(t, q')
  {
  }

  lemma StepWork(q: Queue, e: Event)
    requires Inv(q) && Enabled(q, e)
    ensures WorkLeft(Step(q, e)) + (if e.Succeed? || e.Fail? then 1 else 0)
            <= WorkLeft(q) + (if e.Enqueue? then Tries(e.maxAttempts) else 0)
  {
    hide Rest, TickOk;
    TimePasses(q, e.now);
    var q1 := q.(clock := e.now);
    match e
    case Enqueue(_, _, _, _, _, _) => WorkSnoc(q.pending, NewJob(q1, e));
    case TimerFires(now) =>
      SameInv(q1, q1.(armed := false));
      BeginTickWork(q1.(armed := false), Timer, now);
    case CallDrain(now) => BeginTickWork(q1, Drain, now);
    case DrainAgain(now) =>
      SameInv(q1, q1.(drains := q1.drains - 1));
      BeginTickWork(q1.(drains := q1.drains - 1), Drain, now);
    case Succeed(_, _) => CompletionWork(q, e);
    case Fail(_, _, _) => CompletionWork(q, e);
    case _ =>
  }

  ghost function Completions(es: seq<Event>): nat {
    if es == [] then 0 else Completions(es[1..]) + if es[0].Succeed? || es[0].Fail? then 1 else 0
  }

  ghost function Granted(es: seq<Event>): int {
    if es == [] then 0 else Granted(es[1..]) + if es[0].Enqueue? then Tries(es[0].maxAttempts) else 0
  }

  /** In any interleaving, handlers complete at most as often as the attempts left at the start
      plus those granted by the jobs enqueued since. */
  lemma {:induction false} CompletionsAreBounded(q: Queue, es: seq<Event>, q': Queue)
    requires Inv(q) && Run(q, es, q')
    ensures Completions(es) <= WorkLeft(q) + Granted(es)
    ensures Completions(es) + WorkLeft(q') <= WorkLeft(q) + Granted(es)
    decreases |es|
  {
    hide Inv, WorkLeft;
    InvWorkNonNegative(q);
    if es != [] {
      StepKeeps(q, es[0]);
      StepWork(q, es[0]);
      CompletionsAreBounded(Step(q, es[0]), es[1..], q');
    }
  }

  lemma InvWorkNonNegative(q: Queue)
    requires Inv(q)
    ensures WorkLeft(q) >= 0
  {
    InvWork(q);
  }

  // ---------------------------------------------------------------------------------------
  // Every drain ends, whatever runs beside it
  // ---------------------------------------------------------------------------------------

  /** How many rounds the loops of all drains go on to. */
  ghost function Rounds(es: seq<Event>): nat {
    if es == [] then 0 else Rounds(es[1..]) + if es[0].DrainAgain? then 1 else 0
  }

  lemma {:induction false} AdvanceReturns(q: Queue, t: Tick, now: int)
    requires q.ticks == []
    ensures var q' := Advance(q, t, now);
            q.drains <= q'.drains <= q.drains + (if t.owner == Drain && q'.ticks == [] then 1 else 0)
    decreases |t.todo|
  {
    if t.todo != [] && t.todo[0].kind !in q.handlers {
      AdvanceReturns(q.(failed := q.failed + [t.todo[0]]), t.(todo := t.todo[1..]), now);
    }
  }

  /** A tick that makes its drain go round again has used up work. */
  lemma BeginTickRounds(q: Queue, owner: Owner, now: int)
    requires Inv(q) && now == q.clock
    ensures var q' := BeginTick(q, owner, now); WorkLeft(q') + q'.drains <= WorkLeft(q) + q.drains
  {
    hide Rest, TickOk, WorkLeft, Ready, Waiting;
    BeginTickWork(q, owner, now);
    if !q.processing && Ready(q.pending, now) != [] {
      AdvanceReturns(q.(processing := true, pending := Waiting(q.pending, now)),
                     Tick(owner, now, Ready(q.pending, now)), now);
    }
  }

  lemma CompletionRounds(q: Queue, e: Event)
    requires Inv(q) && Enabled(q, e) && (e.Succeed? || e.Fail?)
    ensures Step(q, e).drains <= q.drains + 1
  {
    hide Rest, TickOk;
    var t := q.ticks[0];
    var rest := t.(todo := t.todo[1..]);
    var q1 := q.(clock := e.now, ticks := []);
    assert Without(q.ticks, 0) == [];
    if e.Succeed? {
      AdvanceReturns(q1.(finished := q.finished + [t.todo[0]]), rest, e.now);
    } else {
      AdvanceReturns(PutBack(q1, Failed(t.todo[0], e.error, e.now)), rest, e.now);
    }
  }

  lemma StepRounds(q: Queue, e: Event)
    requires Inv(q) && Enabled(q, e)
    ensures var q' := Step(q, e);
            (if e.DrainAgain? then 1 else 0) + q'.drains + WorkLeft(q')
            <= q.drains + WorkLeft(q) + (if e.Enqueue? then Tries(e.maxAttempts) else 0)
  {
    hide Rest, TickOk, WorkLeft, BeginTick;
    TimePasses(q, e.now);
    StepWork(q, e);
    var q1 := q.(clock := e.now);
    assert WorkLeft(q1) == WorkLeft(q) by { SameWork(q, q1); }
    match e
    case TimerFires(now) =>
      SameInv(q1, q1.(armed := false));
      SameWork(q1, q1.(armed := false));
      BeginTickRounds(q1.(armed := false), Timer, now);
    case CallDrain(now) => BeginTickRounds(q1, Drain, now);
    case DrainAgain(now) =>
      SameInv(q1, q1.(drains := q1.drains - 1));
      SameWork(q1, q1.(drains := q1.drains - 1));
      BeginTickRounds(q1.(drains := q1.drains - 1), Drain, now);
    case Succeed(_, _) => CompletionRounds(q, e);
    case Fail(_, _, _) => CompletionRounds(q, e);
    case _ =>
  }

  lemma SameWork(q: Queue, q': Queue)
    requires q'.pending == q.pending && q'.ticks == q.ticks
    ensures WorkLeft(q') == WorkLeft(q)
  {
  }

  /** In any interleaving with timers, handlers, starts, stops and other drains, all drains
      together go on to at most as many rounds as there were drains about to, plus the attempts
      left, plus those granted by jobs enqueued since. So if nothing is enqueued every drain
      ends, whether its rounds run handlers or only dead-letter jobs that have none. */
  lemma {:induction false} RoundsAreBounded(q: Queue, es: seq<Event>, q': Queue)
    requires Inv(q) && Run(q, es, q')
    ensures Rounds(es) + q'.drains + WorkLeft(q') <= q.drains + WorkLeft(q) + Granted(es)
    ensures WorkLeft(q') >= 0
    decreases |es|
  {
    hide Inv, WorkLeft;
    if es == [] {
      InvWorkNonNegative(q);
    } else {
      StepKeeps(q, es[0]);
      StepRounds(q, es[0]);
      RoundsAreBounded(Step(q, es[0]), es[1..], q');
    }
  }

  /** A drain's loop ends at a round exactly when another tick is running or nothing pending is
      due at the clock reading of that round. */
  lemma DrainEndsIff(q: Queue, e: Event)
    requires Inv(q) && Enabled(q, e) && (e.CallDrain? || e.DrainAgain?)
    ensures var q' := Step(q, e);
            q'.ticks == q.ticks && q'.drains == q.drains - (if e.DrainAgain? then 1 else 0)
            <==> q.processing || forall j :: j in q.pending ==> j.nextRunAt > e.now
  {
    hide Rest, TickOk, Ready, Waiting;
    var q1 := q.(clock := e.now, drains := q.drains - if e.DrainAgain? then 1 else 0);
    assert Step(q, e) == BeginTick(q1, Drain, e.now);
    if !q.processing {
      ReadyIff(q.pending, e.now);
      if Ready(q.pending, e.now) != [] {
        AdvanceGoesOn(q1.(processing := true, pending := Waiting(q.pending, e.now)),
                      Tick(Drain, e.now, Ready(q.pending, e.now)), e.now);
      }
    }
  }

  lemma {:induction false} ReadyIff(jobs: seq<Job>, now: int)
    ensures Ready(jobs, now) == [] <==> forall j :: j in jobs ==> j.nextRunAt > now
  {
    if jobs != [] {
      var front, last := jobs[..|jobs| - 1], jobs[|jobs| - 1];
      ReadyIff(front, now);
      assert jobs == front + [last];
    }
  }

  lemma {:induction false} AdvanceGoesOn(q: Queue, t: Tick, now: int)
    requires q.ticks == [] && t.owner == Drain
    ensures var q' := Advance(q, t, now); q'.ticks != [] || q'.drains == q.drains + 1
    decreases |t.todo|
  {
    if t.todo != [] && t.todo[0].kind !in q.handlers {
      AdvanceGoesOn(q.(failed := q.failed + [t.todo[0]]), t.(todo := t.todo[1..]), now);
    }
  }

  // ---------------------------------------------------------------------------------------
  // First come, first served
  // ---------------------------------------------------------------------------------------

  /** Enqueuing puts a new, untried job, due after its delay, behind everything pending. */
  lemma EnqueueGoesLast(q: Queue, e: Event)
    requires e.Enqueue? && Enabled(q, e)
    ensures Step(q, e).pending
            == q.pending + [Job(q.accepted, e.id, e.kind, e.payload, 0, e.maxAttempts, e.delayMs,
                                e.now, e.now, e.now + e.delayMs, None, [])]
  {
  }

  /** A handler that throws leaves its job behind everything then pending, due after the backoff
      and with one more attempt, if attempts are left, and else behind the dead letters. */
  lemma RetryGoesLast(q: Queue, e: Event)
    requires Inv(q) && e.Fail? && Enabled(q, e)
    ensures var j, q' := q.ticks[0].todo[0], Step(q, e);
            var tried := j.(attempts := j.attempts + 1, updatedAt := e.now, lastError := Some(e.error));
            if j.attempts + 1 < j.maxAttempts then
              q'.pending == q.pending + [tried.(nextRunAt := e.now + q.retryBackoffMs)]
            else
              q'.pending == q.pending && q.failed + [tried] <= q'.failed
  {
    hide Rest, TickOk;
    var t := q.ticks[0];
    var q1 := PutBack(q.(clock := e.now, ticks := []), Failed(t.todo[0], e.error, e.now));
    assert Without(q.ticks, 0) == [];
    AdvanceAccepts(q1, t.(todo := t.todo[1..]), e.now);
    AdvanceAddsDead(q1, t.(todo := t.todo[1..]), e.now);
  }

  lemma {:induction false} AdvanceAddsDead(q: Queue, t: Tick, now: int)
    ensures q.failed <= Advance(q, t, now).failed && Advance(q, t, now).finished == q.finished
    decreases |t.todo|
  {
    if t.todo != [] && t.todo[0].kind !in q.handlers {
      AdvanceAddsDead(q.(failed := q.failed + [t.todo[0]]), t.(todo := t.todo[1..]), now);
    }
  }

  /** The jobs a run has enqueued, in order. */
  ghost function Enqueues(es: seq<Event>): seq<Event> {
    if es == [] then [] else (if es[0].Enqueue? then [es[0]] else []) + Enqueues(es[1..])
  }

  /** The job is the one enqueued under its serial number. */
  ghost predicate AsEnqueued(j: Job, log: seq<Event>) {
    j.serial < |log| && log[j.serial] == Enqueue(j.id, j.kind, j.payload, j.maxAttempts, j.delayMs, j.createdAt)
  }

  /** A job waiting for an attempt is due after its delay, or the backoff after its last failure. */
  ghost predicate InQueue(j: Job, log: seq<Event>, backoff: int, clock: int) {
    && AsEnqueued(j, log)
    && j.updatedAt <= clock
    && j.nextRunAt == if j.attempts == 0 then j.createdAt + j.delayMs else j.updatedAt + backoff
  }

  ghost predicate AllInQueue(jobs: seq<Job>, log: seq<Event>, backoff: int, clock: int) {
    forall j :: j in jobs ==> InQueue(j, log, backoff, clock)
  }

  ghost predicate AllAsEnqueued(jobs: seq<Job>, log: seq<Event>) {
    forall j :: j in jobs ==> AsEnqueued(j, log)
  }

  /** Who joined the queue earlier, and among untried jobs who was accepted earlier. */
  ghost predicate Ahead(a: Job, b: Job) {
    a.updatedAt <= b.updatedAt && (a.attempts == 0 == b.attempts ==> a.serial < b.serial)
  }

  ghost predicate InLine(jobs: seq<Job>) {
    forall i, k :: 0 <= i < k < |jobs| ==> Ahead(jobs[i], jobs[k])
  }

  ghost predicate LinedUp(q: Queue, log: seq<Event>) {
    && |log| == q.accepted
    && InLine(q.pending) && InLine(InFlight(q))
    && AllInQueue(q.pending, log, q.retryBackoffMs, q.clock)
    && AllInQueue(InFlight(q), log, q.retryBackoffMs, q.clock)
    && AllAsEnqueued(q.finished, log) && AllAsEnqueued(q.failed, log)
  }

  lemma {:induction false} PartitionInLine(jobs: seq<Job>, now: int)
    requires InLine(jobs)
    ensures InLine(Ready(jobs, now)) && InLine(Waiting(jobs, now))
  {
    if jobs != [] {
      hide Ready, Waiting, Ahead;
      var front, last := jobs[..|jobs| - 1], jobs[|jobs| - 1];
      PartitionInLine(front, now);
      PartitionStep(jobs, now);
      forall j | j in Ready(front, now) || j in Waiting(front, now) ensures Ahead(j, last) {
        PartitionedAt(front, now, j);
        var k :| 0 <= k < |front| && front[k] == j;
        assert Ahead(jobs[k], jobs[|jobs| - 1]);
      }
    }
  }

  /** The batch loop keeps the line: it takes jobs off its head only. */
  lemma {:induction false} AdvanceLinedUp(q: Queue, t: Tick, now: int, log: seq<Event>)
    requires q.ticks == [] && LinedUp(q, log) && InLine(t.todo)
    requires AllInQueue(t.todo, log, q.retryBackoffMs, q.clock)
    ensures LinedUp(Advance(q, t, now), log)
    decreases |t.todo|
  {
    hide Ahead, AsEnqueued;
    if t.todo != [] {
      var j := t.todo[0];
      assert InQueue(j, log, q.retryBackoffMs, q.clock);
      if j.kind !in q.handlers {
        AdvanceLinedUp(q.(failed := q.failed + [j]), t.(todo := t.todo[1..]), now, log);
      } else {
        HeadIsInvoked(t.todo, now, log, q.retryBackoffMs, q.clock);
      }
    }
  }

  lemma HeadIsInvoked(todo: seq<Job>, now: int, log: seq<Event>, backoff: int, clock: int)
    requires todo != [] && InLine(todo) && AllInQueue(todo, log, backoff, clock)
    ensures var todo' := [Invoked(todo[0], now)] + todo[1..];
            InLine(todo') && AllInQueue(todo', log, backoff, clock)
  {
    var todo' := [Invoked(todo[0], now)] + todo[1..];
    assert InQueue(todo[0], log, backoff, clock);
    forall i, k | 0 <= i < k < |todo'| ensures Ahead(todo'[i], todo'[k]) {
      assert Ahead(todo[i], todo[k]);
    }
  }

  lemma BeginTickLinedUp(q: Queue, owner: Owner, now: int, log: seq<Event>)
    requires LinedUp(q, log) && (q.ticks != [] ==> q.processing)
    ensures LinedUp(BeginTick(q, owner, now), log)
  {
    hide Ahead, AsEnqueued, InLine;
    if !q.processing && Ready(q.pending, now) != [] {
      Partitioned(q.pending, now);
      PartitionInLine(q.pending, now);
      NothingInLine();
      AdvanceLinedUp(q.(processing := true, pending := Waiting(q.pending, now)),
                     Tick(owner, now, Ready(q.pending, now)), now, log);
    }
  }

  lemma NothingInLine()
    ensures InLine([])
  {
  }

  /** A job that joined the queue now goes last. */
  lemma JoinsLine(jobs: seq<Job>, j: Job, log: seq<Event>, backoff: int, clock: int)
    requires (j.attempts == 0 ==> log != [] && j.serial == |log| - 1) && InQueue(j, log, backoff, clock)
    requires InLine(jobs) && AllInQueue(jobs, log[..|log| - if j.attempts == 0 then 1 else 0], backoff, clock)
    requires j.updatedAt == clock
    ensures InLine(jobs + [j]) && AllInQueue(jobs + [j], log, backoff, clock)
  {
    var known := log[..|log| - if j.attempts == 0 then 1 else 0];
    forall x | x in jobs ensures Ahead(x, j) && InQueue(x, log, backoff, clock) {
      assert InQueue(x, known, backoff, clock);
    }
  }

  lemma LaterLinedUp(q: Queue, now: int, log: seq<Event>)
    requires LinedUp(q, log) && q.clock <= now
    ensures LinedUp(q.(clock := now), log)
  {
    hide InLine, AsEnqueued;
  }

  lemma LongerLog(jobs: seq<Job>, log: seq<Event>, e: Event, backoff: int, clock: int)
    ensures AllInQueue(jobs, log, backoff, clock) ==> AllInQueue(jobs, log + [e], backoff, clock)
    ensures AllAsEnqueued(jobs, log) ==> AllAsEnqueued(jobs, log + [e])
  {
  }

  lemma EnqueueLinedUp(q: Queue, e: Event, log: seq<Event>)
    requires LinedUp(q, log) && e.Enqueue? && q.clock == e.now
    ensures LinedUp(q.(pending := q.pending + [NewJob(q, e)], accepted := q.accepted + 1), log + [e])
  {
    hide InLine, InQueue, AsEnqueued, AllInQueue, AllAsEnqueued;
    var j := NewJob(q, e);
    assert InQueue(j, log + [e], q.retryBackoffMs, q.clock) by { NewJobInQueue(q, e, log); }
    assert (log + [e])[..|log|] == log;
    JoinsLine(q.pending, j, log + [e], q.retryBackoffMs, q.clock);
    LongerLog(InFlight(q), log, e, q.retryBackoffMs, q.clock);
    LongerLog(q.finished, log, e, q.retryBackoffMs, q.clock);
    LongerLog(q.failed, log, e, q.retryBackoffMs, q.clock);
  }

  lemma NewJobInQueue(q: Queue, e: Event, log: seq<Event>)
    requires e.Enqueue? && q.accepted == |log| && q.clock == e.now
    ensures InQueue(NewJob(q, e), log + [e], q.retryBackoffMs, q.clock)
  {
  }

  lemma CompletionLinedUp(q: Queue, e: Event, log: seq<Event>)
    requires Inv(q) && LinedUp(q, log) && Enabled(q, e) && (e.Succeed? || e.Fail?)
    ensures LinedUp(Step(q, e), log)
  {
    hide Rest, TickOk, Ahead, Advance;
    var t := q.ticks[0];
    var rest := t.(todo := t.todo[1..]);
    var q1 := q.(clock := e.now, ticks := []);
    assert Without(q.ticks, 0) == [];
    LaterLinedUp(q, e.now, log);
    assert InQueue(t.todo[0], log, q.retryBackoffMs, q.clock);
    if e.Succeed? {
      AdvanceLinedUp(q1.(finished := q.finished + [t.todo[0]]), rest, e.now, log);
    } else {
      var j := Failed(t.todo[0], e.error, e.now);
      FailureLinedUp(q1, j, log);
      AdvanceLinedUp(PutBack(q1, j), rest, e.now, log);
    }
  }

  lemma FailureLinedUp(q: Queue, j: Job, log: seq<Event>)
    requires LinedUp(q, log) && q.ticks == [] && AsEnqueued(j, log) && j.attempts > 0 && j.updatedAt == q.clock
    ensures LinedUp(PutBack(q, j), log)
  {
    hide InLine;
    if j.attempts < j.maxAttempts {
      assert log[..|log| - 0] == log;
      JoinsLine(q.pending, j.(nextRunAt := j.updatedAt + q.retryBackoffMs), log, q.retryBackoffMs, q.clock);
    }
  }

  lemma StepLinedUp(q0: Queue, e: Event, log: seq<Event>)
    requires Inv(q0) && LinedUp(q0, log) && Enabled(q0, e)
    ensures LinedUp(Step(q0, e), log + if e.Enqueue? then [e] else [])
  {
    hide Rest, TickOk, InLine, AllInQueue, AllAsEnqueued, BeginTick;
    var q := q0.(clock := e.now);
    LaterLinedUp(q0, e.now, log);
    assert log + [] == log;
    match e
    case Register(_, _) =>
    case Enqueue(_, _, _, _, _, _) => EnqueueLinedUp(q, e, log);
    case StartUp(_) =>
    case ShutDown(_) =>
    case TimerFires(now) => BeginTickLinedUp(q.(armed := false), Timer, now, log);
    case Continue(_) =>
    case CallDrain(now) => BeginTickLinedUp(q, Drain, now, log);
    case DrainAgain(now) => BeginTickLinedUp(q.(drains := q.drains - 1), Drain, now, log);
    case Succeed(_, _) => CompletionLinedUp(q0, e, log);
    case Fail(_, _, _) => CompletionLinedUp(q0, e, log);
  }

  lemma {:induction false} RunLinedUp(q: Queue, es: seq<Event>, q': Queue, log: seq<Event>)
    requires Inv(q) && LinedUp(q, log) && Run(q, es, q')
    ensures LinedUp(q', log + Enqueues(es))
    decreases |es|
  {
    hide Inv, LinedUp, Step, Enabled;
    if es == [] {
      assert log + [] == log;
    } else {
      StepKeeps(q, es[0]);
      StepLinedUp(q, es[0], log);
      var log' := log + if es[0].Enqueue? then [es[0]] else [];
      RunLinedUp(Step(q, es[0]), es[1..], q', log');
      assert log' + Enqueues(es[1..]) == log + Enqueues(es);
    }
  }

  /** First come, first served. In every interleaving from a new queue, every job is the one
      enqueued under its serial number; jobs stand in `pending` and in the running batch in the
      order in which they joined the queue, so a retried one behind all that had joined before its
      failure, and untried ones in the order of acceptance; and each is due exactly after its delay
      or the backoff after its failure. */
  lemma QueueIsFair(retryBackoffMs: int, start: int, es: seq<Event>, q: Queue)
    requires Run(Empty(retryBackoffMs, start), es, q)
    ensures q.accepted == |Enqueues(es)|
    ensures forall j :: j in q.pending + InFlight(q) + q.finished + q.failed ==>
              && j.serial < |Enqueues(es)|
              && Enqueues(es)[j.serial]
                 == Enqueue(j.id, j.kind, j.payload, j.maxAttempts, j.delayMs, j.createdAt)
    ensures forall i, k :: 0 <= i < k < |q.pending| ==>
              && q.pending[i].updatedAt <= q.pending[k].updatedAt
              && (q.pending[i].attempts == 0 == q.pending[k].attempts ==> q.pending[i].serial < q.pending[k].serial)
    ensures forall i, k :: 0 <= i < k < |InFlight(q)| ==>
              && InFlight(q)[i].updatedAt <= InFlight(q)[k].updatedAt
              && (InFlight(q)[i].attempts == 0 == InFlight(q)[k].attempts ==>
                    InFlight(q)[i].serial < InFlight(q)[k].serial)
    ensures forall j :: j in q.pending + InFlight(q) ==>
              j.nextRunAt == if j.attempts == 0 then j.createdAt + j.delayMs else j.updatedAt + retryBackoffMs
  {
    hide Inv;
    var q0 := Empty(retryBackoffMs, start);
    assert Inv(q0) by { NewQueueIsFine(retryBackoffMs, start); }
    RunLinedUp(q0, es, q, []);
    BackoffIsFixed(q0, es, q);
    assert [] + Enqueues(es) == Enqueues(es);
    var log := Enqueues(es);
    forall i, k | 0 <= i < k < |q.pending|
      ensures Ahead(q.pending[i], q.pending[k])
    {
    }
    forall j | j in q.pending + InFlight(q) ensures InQueue(j, log, retryBackoffMs, q.clock) {
    }
  }

  lemma NewQueueIsFine(retryBackoffMs: int, start: int)
    ensures Inv(Empty(retryBackoffMs, start))
  {
  }

  /** While a batch runs, the job whose handler is called, if untried, was accepted before every
      untried job of the batch still to come, none of which has been called. */
  lemma FirstAcceptedRunsFirst(retryBackoffMs: int, start: int, es: seq<Event>, q: Queue, k: nat)
    requires Run(Empty(retryBackoffMs, start), es, q) && 0 < k < |InFlight(q)|
    requires InFlight(q)[0].attempts == 0 == InFlight(q)[k].attempts
    ensures InFlight(q)[0].serial < InFlight(q)[k].serial
    ensures |InFlight(q)[0].starts| == 1 && InFlight(q)[k].starts == []
  {
    hide Run;
    QueueIsFair(retryBackoffMs, start, es, q);
    assert Inv(Empty(retryBackoffMs, start)) by { NewQueueIsFine(retryBackoffMs, start); }
    RunKeeps(Empty(retryBackoffMs, start), es, q);
    assert TickOk(q.ticks[0], q);
    assert Retriable(q.ticks[0].todo[1..][k - 1], q);
  }

  lemma {:induction false} AdvanceKeepsAll(q: Queue, t: Tick, now: int, j: Job)
    requires q.ticks == [] && j in t.todo
    ensures var q' := Advance(q, t, now);
            || (j in q'.failed && j.kind !in q.handlers)
            || (InFlight(q') != [] && (InFlight(q')[0] == Invoked(j, now) || j in InFlight(q')[1..]))
    decreases |t.todo|
  {
    if t.todo[0].kind !in q.handlers {
      var q1 := q.(failed := q.failed + [t.todo[0]]);
      AdvanceAddsDead(q1, t.(todo := t.todo[1..]), now);
      if j in t.todo[1..] {
        AdvanceKeepsAll(q1, t.(todo := t.todo[1..]), now, j);
      } else {
        assert j in q1.failed;
      }
    } else {
      var todo := [Invoked(t.todo[0], now)] + t.todo[1..];
      assert todo[1..] == t.todo[1..];
    }
  }

  /** A tick that finds the queue idle takes every pending job that is due, and leaves the others
      pending: a due job is dead for want of a handler, has its handler called, or waits for that in
      the batch. */
  lemma TickTakesAllDue(q: Queue, e: Event, j: Job)
    requires Inv(q) && !q.processing && Enabled(q, e) && (e.TimerFires? || e.CallDrain? || e.DrainAgain?)
    requires j in q.pending
    ensures var q' := Step(q, e);
            if j.nextRunAt <= e.now then
              && j !in q'.pending
              && (|| (j in q'.failed && j.kind !in q.handlers)
                  || (InFlight(q') != [] && (InFlight(q')[0] == Invoked(j, e.now) || j in InFlight(q')[1..])))
            else j in q'.pending
  {
    hide Rest, TickOk, Ready, Waiting, Advance;
    var q1 := q.(clock := e.now, armed := if e.TimerFires? then false else q.armed,
                 drains := q.drains - if e.DrainAgain? then 1 else 0);
    var owner := if e.TimerFires? then Timer else Drain;
    assert Step(q, e) == BeginTick(q1, owner, e.now);
    Partitioned(q.pending, e.now);
    ReadyIff(q.pending, e.now);
    if Ready(q.pending, e.now) != [] {
      DueIsReady(q.pending, e.now, j);
      var q2 := q1.(processing := true, pending := Waiting(q.pending, e.now));
      var t := Tick(owner, e.now, Ready(q.pending, e.now));
      AdvanceAccepts(q2, t, e.now);
      if j.nextRunAt <= e.now {
        AdvanceKeepsAll(q2, t, e.now, j);
      }
    }
  }

  lemma {:induction false} DueIsReady(jobs: seq<Job>, now: int, j: Job)
    requires j in jobs
    ensures if j.nextRunAt <= now then j in Ready(jobs, now) else j in Waiting(jobs, now)
  {
    hide Ready, Waiting;
    PartitionStep(jobs, now);
    if j != jobs[|jobs| - 1] {
      assert j in jobs[..|jobs| - 1];
      DueIsReady(jobs[..|jobs| - 1], now, j);
    }
  }

  // ---------------------------------------------------------------------------------------
  // Switching on and off
  // ---------------------------------------------------------------------------------------

  /** Whether the last of the starts and stops was a start. */
  ghost predicate SwitchedOn(es: seq<Event>, before: bool) {
    if es == [] then before
    else SwitchedOn(es[1..], if es[0].StartUp? then true else if es[0].ShutDown? then false else before)
  }

  ghost function Registered(es: seq<Event>): set<string> {
    if es == [] then {} else (if es[0].Register? then {es[0].kind} else {}) + Registered(es[1..])
  }

  lemma StepSwitches(q: Queue, e: Event)
    requires Enabled(q, e)
    ensures Step(q, e).running == (if e.StartUp? then true else if e.ShutDown? then false else q.running)
    ensures Step(q, e).handlers == q.handlers + if e.Register? then {e.kind} else {}
    ensures (q.armed ==> q.running) ==> (Step(q, e).armed ==> Step(q, e).running)
  {
    forall q1: Queue, t: Tick ensures Advance(q1, t, e.now).running == q1.running
      && Advance(q1, t, e.now).handlers == q1.handlers && Advance(q1, t, e.now).armed == q1.armed
    {
      AdvanceAccepts(q1, t, e.now);
    }
  }

  /** A timer is armed exactly by an enqueue, a start or the continuation of a timer tick that finds
      the queue running with jobs pending, and disarmed exactly by firing or a stop. */
  lemma ArmedIff(q: Queue, e: Event)
    requires Enabled(q, e)
    ensures var q' := Step(q, e);
            q'.armed
            <==> if q.armed then !e.TimerFires? && !(e.ShutDown? && q.running)
                 else && (e.Enqueue? || e.Continue? || (e.StartUp? && !q.running))
                      && q'.running && q'.pending != []
  {
    forall q1: Queue, t: Tick ensures Advance(q1, t, e.now).armed == q1.armed {
      AdvanceAccepts(q1, t, e.now);
    }
  }

  /** In every run from a new queue: it is running exactly if it was last started and not stopped
      since, it has exactly the handlers registered, and a stopped queue has no timer armed. */
  lemma {:induction false} SwitchesWork(q: Queue, es: seq<Event>, q': Queue)
    requires Run(q, es, q') && (q.armed ==> q.running)
    ensures q'.running == SwitchedOn(es, q.running)
    ensures q'.handlers == q.handlers + Registered(es)
    ensures q'.armed ==> q'.running
    decreases |es|
  {
    if es != [] {
      StepSwitches(q, es[0]);
      SwitchesWork(Step(q, es[0]), es[1..], q');
    }
  }
}
