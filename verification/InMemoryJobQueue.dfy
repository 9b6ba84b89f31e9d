/** The queue object itself: its fields, its methods and the loops inside them, each proved to
    take the step of the state machine in module JobQueue. */
module InMemoryJobQueues {
  import opened Wrappers
  import opened JobQueue

  class InMemoryJobQueue {
    const retryBackoffMs: int

    var handlers: set<string>
    var pending: seq<Job>
    var failed: seq<Job>
    var running: bool
    var processing: bool
    var timerArmed: bool

    // What the event loop keeps for this object.
    var ticks: seq<Tick>
    var thens: nat
    var drains: nat
    var finished: seq<Job>
    var accepted: nat
    var clock: int

    function State(): Queue
      reads this
    {
      Queue(handlers, pending, failed, running, processing, timerArmed, retryBackoffMs,
            ticks, thens, drains, finished, accepted, clock)
    }

    constructor (retryBackoffMs: int, now: int)
      ensures State() == Empty(retryBackoffMs, now)
    {
      this.retryBackoffMs := retryBackoffMs;
      handlers, pending, failed := {}, [], [];
      running, processing, timerArmed := false, false, false;
      ticks, thens, drains, finished, accepted, clock := [], 0, 0, [], 0, now;
    }

    method RegisterHandler(kind: string, now: int)
      requires clock <= now
      modifies this
      ensures State() == Step(old(State()), JobQueue.Register(kind, now))
    {
      clock := now;
      handlers := handlers + {kind};
    }

    method Enqueue(id: string, kind: string, payload: string, maxAttempts: int, delayMs: int, now: int)
      requires clock <= now
      modifies this
      ensures State() == Step(old(State()), JobQueue.Enqueue(id, kind, payload, maxAttempts, delayMs, now))
    {
      clock := now;
      var job := Job(accepted, id, kind, payload, 0, maxAttempts, delayMs, now, now, now + delayMs, None, []);
      pending := pending + [job];
      accepted := accepted + 1;
      ScheduleIfNeeded();
    }

    method Start(now: int)
      requires clock <= now
      modifies this
      ensures State() == Step(old(State()), StartUp(now))
    {
      clock := now;
      if running { return; }
      running := true;
      ScheduleIfNeeded();
    }

    method Stop(now: int)
      requires clock <= now
      modifies this
      ensures State() == Step(old(State()), ShutDown(now))
    {
      clock := now;
      if !running { return; }
      running := false;
      if timerArmed {
        timerArmed := false;
      }
    }

    method ScheduleIfNeeded()
      modifies this
      ensures State() == Schedule(old(State()))
    {
      if !running || timerArmed || |pending| == 0 {
        return;
      }
      timerArmed := true;
    }

    /** The timer callback up to its first `await`. */
    method FireTimer(now: int)
      requires clock <= now && timerArmed
      modifies this
      ensures State() == Step(old(State()), TimerFires(now))
    {
      clock := now;
      timerArmed := false;
      ProcessTick(Timer, now);
    }

    /** The continuation of a finished timer tick. */
    method AfterTimerTick(now: int)
      requires clock <= now && thens > 0
      modifies this
      ensures State() == Step(old(State()), Continue(now))
    {
      clock := now;
      thens := thens - 1;
      ScheduleIfNeeded();
    }

    /** `_processTick` up to its first `await`, or to its return. */
    method ProcessTick(owner: Owner, now: int)
      modifies this
      ensures State() == BeginTick(old(State()), owner, now)
    {
      if processing {
        ReturnFromTick(owner, false);
        return;
      }
      var ready: seq<Job> := [];
      var waiting: seq<Job> := [];
      var i := 0;
      while i < |pending|
        invariant 0 <= i <= |pending|
        invariant ready == Ready(pending[..i], now) && waiting == Waiting(pending[..i], now)
      {
        var job := pending[i];
        assert pending[..i + 1][..i] == pending[..i];
        if job.nextRunAt <= now {
          ready := ready + [job];
        } else {
          waiting := waiting + [job];
        }
        i := i + 1;
      }
      assert pending[..i] == pending;
      if |ready| == 0 {
        ReturnFromTick(owner, false);
        return;
      }
      processing := true;
      pending := waiting;
      Resume(Tick(owner, now, ready), now);
    }

    method ReturnFromTick(owner: Owner, found: bool)
      modifies this
      ensures State() == Return(old(State()), owner, found)
    {
      if owner == Timer {
        thens := thens + 1;
      } else if found {
        drains := drains + 1;
      }
    }

    /** The loop over the batch until the next handler is awaited or the batch is done. */
    method Resume(t: Tick, now: int)
      modifies this
      ensures State() == Advance(old(State()), t, now)
    {
      var todo := t.todo;
      while todo != [] && todo[0].kind !in handlers
        invariant handlers == old(handlers)
        invariant Advance(old(State()), t, now) == Advance(State(), t.(todo := todo), now)
        decreases |todo|
      {
        failed := failed + [todo[0]];
        todo := todo[1..];
      }
      if todo == [] {
        processing := false;
        ReturnFromTick(t.owner, true);
      } else {
        ticks := ticks + [t.(todo := [Invoked(todo[0], now)] + todo[1..])];
      }
    }

    method HandlerSucceeded(i: nat, now: int)
      requires clock <= now && i < |ticks| && ticks[i].todo != []
      modifies this
      ensures State() == Step(old(State()), Succeed(i, now))
    {
      clock := now;
      var t := ticks[i];
      ticks := Without(ticks, i);
      finished := finished + [t.todo[0]];
      Resume(t.(todo := t.todo[1..]), now);
    }

    method HandlerFailed(i: nat, error: string, now: int)
      requires clock <= now && i < |ticks| && ticks[i].todo != []
      modifies this
      ensures State() == Step(old(State()), Fail(i, error, now))
    {
      hide Advance;
      clock := now;
      var t := ticks[i];
      ticks := Without(ticks, i);
      var job := t.todo[0].(attempts := t.todo[0].attempts + 1, updatedAt := now, lastError := Some(error));
      if job.attempts < job.maxAttempts {
        pending := pending + [job.(nextRunAt := job.updatedAt + retryBackoffMs)];
      } else {
        failed := failed + [job];
      }
      Resume(t.(todo := t.todo[1..]), now);
    }

    /** `drain` up to its first `await`. */
    method BeginDrain(now: int)
      requires clock <= now
      modifies this
      ensures State() == Step(old(State()), CallDrain(now))
    {
      clock := now;
      ProcessTick(Owner.Drain, now);
    }

    /** The next round of `drain`'s loop. */
    method ContinueDrain(now: int)
      requires clock <= now && drains > 0
      modifies this
      ensures State() == Step(old(State()), DrainAgain(now))
    {
      clock := now;
      drains := drains - 1;
      ProcessTick(Owner.Drain, now);
    }

    /** `drain` when nothing else runs and handlers enqueue nothing: the k-th clock reading is
        `now(k)` and the k-th handler outcome `ok(k)`. It ends, whatever the handlers do; if no
        other tick was running, no job left pending was due at its last clock reading. */
    method Drain(now: nat -> int, ok: nat -> bool) returns (lastRead: int)
      requires Inv(State()) && drains == 0
      requires clock <= now(0) && forall k: nat :: now(k) <= now(k + 1)
      modifies this
      ensures Inv(State())
      ensures !old(processing) ==> ticks == [] && !processing && forall j :: j in pending ==> j.nextRunAt > lastRead
      ensures WorkLeft(State()) <= old(WorkLeft(State()))
      ensures accepted == old(accepted) && running == old(running) && timerArmed == old(timerArmed)
    {
      hide Inv, Step, WorkLeft, Draining, DrainEvent;
      var reading, busy := 0, processing;
      ghost var first, q := State(), State();
      lastRead := now(0);
      FirstDrainStep(q, now(0));
      BeginDrain(now(0));
      if busy { return; }
      while drains > 0 || ticks != []
        invariant Draining(State(), lastRead) && clock <= now(reading)
        invariant WorkLeft(State()) <= WorkLeft(first)
        invariant accepted == first.accepted && running == first.running && timerArmed == first.armed
        decreases WorkLeft(State()), if ticks != [] then 1 else 2 * drains
      {
        q := State();
        DrainingHas(q, lastRead);
        reading := reading + 1;
        if drains > 0 {
          DrainStep(q, DrainAgain(now(reading)), lastRead);
          ContinueDrain(now(reading));
          lastRead := now(reading);
        } else if ok(reading) {
          DrainStep(q, Succeed(0, now(reading)), lastRead);
          HandlerSucceeded(0, now(reading));
        } else {
          DrainStep(q, Fail(0, "error", now(reading)), lastRead);
          HandlerFailed(0, "error", now(reading));
        }
      }
      DrainedAll(State(), lastRead);
    }
  }

  /** The states of an undisturbed drain whose last clock reading was `lastRead`. */
  ghost predicate Draining(q: Queue, lastRead: int) {
    && Inv(q)
    && q.drains <= 1
    && (q.drains == 1 ==> q.ticks == [])
    && (q.drains == 0 && q.ticks == [] ==> Ready(q.pending, lastRead) == [])
    && (q.ticks != [] ==> q.ticks[0].owner == Drain)
  }

  ghost predicate DrainEvent(q: Queue, e: Event) {
    && Enabled(q, e)
    && (e.DrainAgain? || ((e.Succeed? || e.Fail?) && e.tick == 0 && q.drains == 0))
  }

  lemma DrainingHas(q: Queue, lastRead: int)
    requires Draining(q, lastRead)
    ensures WorkLeft(q) >= 0
    ensures q.ticks != [] ==> q.ticks[0].todo != []
    ensures forall now :: q.clock <= now && q.drains > 0 ==> DrainEvent(q, DrainAgain(now))
    ensures forall now :: q.clock <= now && q.drains == 0 && q.ticks != [] ==> DrainEvent(q, Succeed(0, now))
    ensures forall now, error :: q.clock <= now && q.drains == 0 && q.ticks != [] ==> DrainEvent(q, Fail(0, error, now))
    ensures forall e :: DrainEvent(q, e) ==> Enabled(q, e)
  {
    InvWork(q);
  }

  lemma DrainedAll(q: Queue, lastRead: int)
    requires Draining(q, lastRead) && q.drains == 0 && q.ticks == []
    ensures Inv(q) && !q.processing
    ensures forall j :: j in q.pending ==> j.nextRunAt > lastRead
  {
    Partitioned(q.pending, lastRead);
  }

  lemma FirstDrainStep(q: Queue, now: int)
    requires Inv(q) && q.drains == 0 && q.clock <= now
    ensures var q' := Step(q, CallDrain(now));
            && Inv(q') && q'.clock == now
            && q'.accepted == q.accepted && q'.running == q.running && q'.armed == q.armed
            && WorkLeft(q') <= WorkLeft(q)
            && (!q.processing ==> Draining(q', now))
  {
    hide Rest, TickOk, BatchOk, Step;
    var e := CallDrain(now);
    StepKeeps(q, e);
    StepWork(q, e);
    AcceptedUnchanged(q, e);
    TickShape(q, e);
  }

  /** Each step of an undisturbed drain uses up work or starts a handler. */
  lemma DrainStep(q: Queue, e: Event, lastRead: int)
    requires Draining(q, lastRead) && DrainEvent(q, e)
    ensures var q' := Step(q, e);
            && Draining(q', if e.DrainAgain? then e.now else lastRead) && q'.clock == e.now
            && q'.accepted == q.accepted && q'.running == q.running && q'.armed == q.armed
            && WorkLeft(q') <= WorkLeft(q)
            && (WorkLeft(q') < WorkLeft(q) || (q.ticks == [] && q'.ticks != []) || (q'.ticks == [] && q'.drains == 0))
  {
    hide Rest, TickOk, BatchOk, Step;
    StepKeeps(q, e);
    StepWork(q, e);
    AcceptedUnchanged(q, e);
    if e.DrainAgain? {
      TickShape(q, e);
    } else {
      CompletionShape(q, e);
    }
  }

  lemma {:induction false} AdvanceShape(q: Queue, t: Tick, now: int)
    requires q.ticks == [] && t.owner == Drain
    ensures var q' := Advance(q, t, now);
            || (q'.ticks == [] && q'.drains == q.drains + 1)
            || (|q'.ticks| == 1 && q'.ticks[0].owner == Drain && q'.drains == q.drains)
    decreases |t.todo|
  {
    if t.todo != [] && t.todo[0].kind !in q.handlers {
      AdvanceShape(q.(failed := q.failed + [t.todo[0]]), t.(todo := t.todo[1..]), now);
    }
  }

  lemma CompletionShape(q: Queue, e: Event)
    requires Inv(q) && Enabled(q, e) && (e.Succeed? || e.Fail?) && q.drains == 0 && q.ticks[0].owner == Drain
    ensures var q' := Step(q, e);
            && ((q'.ticks == [] && q'.drains == 1) || (|q'.ticks| == 1 && q'.ticks[0].owner == Drain && q'.drains == 0))
            && q'.running == q.running && q'.armed == q.armed
  {
    hide Rest, TickOk, BatchOk;
    var t := q.ticks[0].(todo := q.ticks[0].todo[1..]);
    var q1 := q.(clock := e.now, ticks := []);
    assert Without(q.ticks, 0) == [];
    var q2 := if e.Succeed? then q1.(finished := q.finished + [q.ticks[0].todo[0]])
              else PutBack(q1, Failed(q.ticks[0].todo[0], e.error, e.now));
    AdvanceShape(q2, t, e.now);
    AdvanceAccepts(q2, t, e.now);
  }

  lemma TickShape(q: Queue, e: Event)
    requires Inv(q) && Enabled(q, e)
    requires (e.CallDrain? && q.drains == 0) || (e.DrainAgain? && q.drains == 1 && q.ticks == [])
    ensures var q' := Step(q, e);
            && (!q.processing ==>
                 || (q'.ticks == [] && q'.drains == 1)
                 || (|q'.ticks| == 1 && q'.ticks[0].owner == Drain && q'.drains == 0)
                 || (q'.ticks == [] && q'.drains == 0 && Ready(q'.pending, e.now) == []))
            && q'.running == q.running && q'.armed == q.armed
            && (e.DrainAgain? && q'.drains == 1 ==> WorkLeft(q') < WorkLeft(q))
  {
    hide Rest, TickOk, BatchOk, Ready, Waiting, WorkLeft;
    var q1 := q.(clock := e.now, drains := 0);
    TimePasses(q, e.now);
    SameInv(q.(clock := e.now), q1);
    assert Step(q, e) == BeginTick(q1, Drain, e.now);
    if !q.processing && Ready(q.pending, e.now) != [] {
      var q2 := q1.(processing := true, pending := Waiting(q.pending, e.now));
      var t := Tick(Drain, e.now, Ready(q.pending, e.now));
      AdvanceShape(q2, t, e.now);
      AdvanceAccepts(q2, t, e.now);
      BeginTickWork(q1, Drain, e.now);
      SameWork(q, q1);
    }
  }

  lemma SameWork(q: Queue, q': Queue)
    requires q'.pending == q.pending && q'.ticks == q.ticks
    ensures WorkLeft(q') == WorkLeft(q)
  {
  }
}
