/** Outbound webhook deliveries processed as jobs of the queue: the handler's steps interleave
    with everything else the queue does. Each delivery has one job and store calls succeed. */
module WebhookDelivery {
  import opened Wrappers
  import opened JobQueue

  const WEBHOOK_DELIVERY_JOB := "outbound-webhook-delivery"

  datatype Status = Queued | Delivered | Undelivered | DeadLetter

  /** A delivery record. `posts` counts the POSTs made for it and `job` is the serial number of
      the job enqueued for it, once that has happened; both are history. */
  datatype Delivery = Delivery(status: Status, attempts: nat, posts: nat, job: Option<nat>)

  type Deliveries = map<string, Delivery>

  /** How far the handler of the running webhook job has got. */
  datatype Phase = Called | Loaded | Posted(ok: bool) | Recorded(ok: bool)

  /** `scheduled` remembers which delivery each webhook job was enqueued for. */
  datatype System = System(queue: Queue, deliveries: Deliveries, phase: Phase, scheduled: map<nat, string>)

  function DeliveryMaxAttempts(j: Job): int {
    if j.maxAttempts < 1 then 1 else j.maxAttempts
  }

  // ---------------------------------------------------------------------------------------
  // The handler
  // ---------------------------------------------------------------------------------------

  function AfterPost(ds: Deliveries, id: string): Deliveries
    requires id in ds
  {
    ds[id := ds[id].(posts := ds[id].posts + 1)]
  }

  function AfterRecord(ds: Deliveries, j: Job, ok: bool): Deliveries
    requires j.payload in ds
  {
    var attempt := j.attempts + 1;
    var status := if ok then Delivered
                  else if attempt >= DeliveryMaxAttempts(j) then DeadLetter else Undelivered;
    ds[j.payload := ds[j.payload].(status := status, attempts := attempt)]
  }

  class OutboundWebhookDispatcher {
    var deliveries: Deliveries

    /** The handler run on its own; `ok` is whether the POST gets a 2xx answer. It throws when
        the record is missing or the POST fails. */
    method ProcessDeliveryJob(job: Job, ok: bool) returns (threw: bool)
      modifies this
      ensures job.payload !in old(deliveries) ==> threw && deliveries == old(deliveries)
      ensures job.payload in old(deliveries) ==>
                && threw == !ok
                && deliveries == AfterRecord(AfterPost(old(deliveries), job.payload), job, ok)
    {
      var id := job.payload;
      if id !in deliveries {
        return true;
      }
      var attempt := job.attempts + 1;
      deliveries := deliveries[id := deliveries[id].(posts := deliveries[id].posts + 1)];
      if ok {
        deliveries := deliveries[id := deliveries[id].(status := Delivered, attempts := attempt)];
        return false;
      }
      var finalAttempt := attempt >= DeliveryMaxAttempts(job);
      var status := if finalAttempt then DeadLetter else Undelivered;
      deliveries := deliveries[id := deliveries[id].(status := status, attempts := attempt)];
      return true;
    }
  }

  // ---------------------------------------------------------------------------------------
  // Steps of the whole system
  // ---------------------------------------------------------------------------------------

  datatype Action =
    | Create(id: string)
    | Schedule(id: string, jobId: string, maxAttempts: int, now: int)
    | Other(event: Event)
    | Load
    | Post(ok: bool)
    | Record
    | Settle(error: string, now: int)

  /** A webhook handler is the one being awaited. */
  predicate Busy(q: Queue) {
    q.ticks != [] && q.ticks[0].todo != [] && q.ticks[0].todo[0].kind == WEBHOOK_DELIVERY_JOB
  }

  function Running(q: Queue): Job
    requires Busy(q)
  {
    q.ticks[0].todo[0]
  }

  predicate Allowed(s: System, a: Action) {
    match a
    case Create(id) => id !in s.deliveries
    case Schedule(id, _, _, now) => id in s.deliveries && s.deliveries[id].job.None? && s.queue.clock <= now
    case Other(e) =>
      && Enabled(s.queue, e)
      && (e.Enqueue? ==> e.kind != WEBHOOK_DELIVERY_JOB)
      && (e.Succeed? || e.Fail? ==> !Busy(s.queue))
    case Load => Busy(s.queue) && s.phase == Called && Running(s.queue).payload in s.deliveries
    case Post(_) => Busy(s.queue) && s.phase == Loaded && Running(s.queue).payload in s.deliveries
    case Record => Busy(s.queue) && s.phase.Posted? && Running(s.queue).payload in s.deliveries
    case Settle(_, now) => Busy(s.queue) && s.phase.Recorded? && s.queue.clock <= now
  }

  function Act(s: System, a: Action): System
    requires Allowed(s, a)
  {
    match a
    case Create(id) => s.(deliveries := s.deliveries[id := Delivery(Queued, 0, 0, None)])
    case Schedule(id, jobId, maxAttempts, now) =>
      s.(deliveries := s.deliveries[id := s.deliveries[id].(job := Some(s.queue.accepted))],
         scheduled := s.scheduled[s.queue.accepted := id],
         queue := Step(s.queue, Enqueue(jobId, WEBHOOK_DELIVERY_JOB, id, maxAttempts, 0, now)))
    case Other(e) => s.(queue := Step(s.queue, e))
    case Load => s.(phase := Loaded)
    case Post(ok) => s.(deliveries := AfterPost(s.deliveries, Running(s.queue).payload), phase := Posted(ok))
    case Record =>
      s.(deliveries := AfterRecord(s.deliveries, Running(s.queue), s.phase.ok), phase := Recorded(s.phase.ok))
    case Settle(error, now) =>
      s.(queue := Step(s.queue, if s.phase.ok then Succeed(0, now) else Fail(0, error, now)), phase := Called)
  }

  ghost predicate SystemRun(s: System, actions: seq<Action>, s': System)
    decreases |actions|
  {
    if actions == [] then s' == s
    else Allowed(s, actions[0]) && SystemRun(Act(s, actions[0]), actions[1..], s')
  }

  /** The dispatcher registers its handler on construction. */
  function NewSystem(retryBackoffMs: int, now: int): System {
    System(Empty(retryBackoffMs, now).(handlers := {WEBHOOK_DELIVERY_JOB}), map[], Called, map[])
  }

  // ---------------------------------------------------------------------------------------
  // Invariant
  // ---------------------------------------------------------------------------------------

  ghost predicate Tally(d: Delivery, serial: nat, status: Status, attempts: int, posts: int) {
    d == Delivery(status, d.attempts, d.posts, Some(serial)) && d.attempts == attempts && d.posts == posts
  }

  function WaitingStatus(j: Job): Status { if j.attempts == 0 then Queued else Undelivered }

  ghost predicate Has(ds: Deliveries, j: Job, status: Status, attempts: int, posts: int) {
    j.kind == WEBHOOK_DELIVERY_JOB ==>
      j.payload in ds && Tally(ds[j.payload], j.serial, status, attempts, posts)
  }

  ghost predicate Waits(ds: Deliveries, j: Job) { Has(ds, j, WaitingStatus(j), j.attempts, j.attempts) }

  ghost predicate IsDone(ds: Deliveries, j: Job) { Has(ds, j, Delivered, j.attempts + 1, j.attempts + 1) }

  ghost predicate IsDead(ds: Deliveries, j: Job) { Has(ds, j, DeadLetter, j.attempts, j.attempts) }

  /** The delivery of the running job, by how far its handler has got. */
  ghost predicate InHand(ds: Deliveries, j: Job, phase: Phase) {
    match phase
    case Called => Waits(ds, j)
    case Loaded => Waits(ds, j)
    case Posted(_) => Has(ds, j, WaitingStatus(j), j.attempts, j.attempts + 1)
    case Recorded(ok) =>
      Has(ds, j, if ok then Delivered else if j.attempts + 1 >= MaxTries(j) then DeadLetter else Undelivered,
          j.attempts + 1, j.attempts + 1)
  }

  ghost predicate Settled(q: Queue, ds: Deliveries) {
    && (forall j :: j in q.pending ==> Waits(ds, j))
    && (forall j :: j in q.finished ==> IsDone(ds, j))
    && (forall j :: j in q.failed ==> IsDead(ds, j))
  }

  ghost predicate Matches(q: Queue, ds: Deliveries, phase: Phase) {
    && WEBHOOK_DELIVERY_JOB in q.handlers
    && Settled(q, ds)
    && (q.ticks != [] ==> q.ticks[0].todo != [] && InHand(ds, q.ticks[0].todo[0], phase)
                          && forall j :: j in q.ticks[0].todo[1..] ==> Waits(ds, j))
    && (phase != Called ==> Busy(q))
  }

  ghost function Everywhere(q: Queue): seq<Job> { q.pending + InFlight(q) + q.finished + q.failed }

  /** Jobs and the record of what they were scheduled for agree. */
  ghost predicate Known(j: Job, scheduled: map<nat, string>) {
    && (j.kind == WEBHOOK_DELIVERY_JOB <==> j.serial in scheduled)
    && (j.kind == WEBHOOK_DELIVERY_JOB ==> scheduled[j.serial] == j.payload)
  }

  /** A delivery is known under its job's serial number, or has not been scheduled yet. */
  ghost predicate Filed(s: System, id: string)
    requires id in s.deliveries
  {
    var d := s.deliveries[id];
    match d.job
    case Some(n) => n in s.scheduled && s.scheduled[n] == id
    case None => d == Delivery(Queued, 0, 0, None)
  }

  ghost predicate Bookkept(s: System) {
    && (forall j :: j in Everywhere(s.queue) ==> Known(j, s.scheduled))
    && (forall n :: n in s.scheduled ==> n < s.queue.accepted)
    && (forall id :: id in s.deliveries ==> Filed(s, id))
  }

  ghost predicate OnePlaceEach(q: Queue) {
    forall serial: nat :: Places(serial, q) == if serial < q.accepted then 1 else 0
  }

  ghost predicate SystemInv(s: System) {
    Inv(s.queue) && OnePlaceEach(s.queue) && Matches(s.queue, s.deliveries, s.phase) && Bookkept(s)
  }

  // ---------------------------------------------------------------------------------------
  // The queue's own moves do not disturb the deliveries
  // ---------------------------------------------------------------------------------------

  lemma {:induction false} AdvanceMatches(q: Queue, t: Tick, now: int, ds: Deliveries)
    requires q.ticks == [] && WEBHOOK_DELIVERY_JOB in q.handlers && Settled(q, ds)
    requires forall j :: j in t.todo ==> Waits(ds, j)
    ensures Matches(Advance(q, t, now), ds, Called)
    decreases |t.todo|
  {
    if t.todo != [] {
      var j := t.todo[0];
      assert Waits(ds, j);
      if j.kind !in q.handlers {
        AdvanceMatches(q.(failed := q.failed + [j]), t.(todo := t.todo[1..]), now, ds);
      } else {
        var t' := t.(todo := [Invoked(j, now)] + t.todo[1..]);
        assert t'.todo[1..] == t.todo[1..];
        assert Advance(q, t, now).ticks == [t'];
      }
    }
  }

  lemma BeginTickMatches(q: Queue, owner: Owner, now: int, ds: Deliveries, phase: Phase)
    requires Inv(q) && Matches(q, ds, phase)
    ensures Matches(BeginTick(q, owner, now), ds, phase)
  {
    hide Rest, TickOk, BatchOk, Waits, IsDone, IsDead;
    if !q.processing && Ready(q.pending, now) != [] {
      Partitioned(q.pending, now);
      AdvanceMatches(q.(processing := true, pending := Waiting(q.pending, now)),
                     Tick(owner, now, Ready(q.pending, now)), now, ds);
    }
  }

  lemma OtherMatches(q0: Queue, e: Event, ds: Deliveries, phase: Phase)
    requires Inv(q0) && Enabled(q0, e) && Matches(q0, ds, phase)
    requires (e.Enqueue? ==> e.kind != WEBHOOK_DELIVERY_JOB) && (e.Succeed? || e.Fail? ==> !Busy(q0))
    ensures Matches(Step(q0, e), ds, phase)
  {
    hide Rest, TickOk, BatchOk;
    TimePasses(q0, e.now);
    var q := q0.(clock := e.now);
    match e
    case Register(_, _) =>
    case Enqueue(_, _, _, _, _, _) => assert Waits(ds, NewJob(q, e));
    case StartUp(_) =>
    case ShutDown(_) =>
    case TimerFires(now) =>
      SameInv(q, q.(armed := false));
      BeginTickMatches(q.(armed := false), Timer, now, ds, phase);
    case Continue(_) =>
    case CallDrain(now) => BeginTickMatches(q, Drain, now, ds, phase);
    case DrainAgain(now) =>
      SameInv(q, q.(drains := q.drains - 1));
      BeginTickMatches(q.(drains := q.drains - 1), Drain, now, ds, phase);
    case Succeed(_, now) => CompletionMatches(q0, e, ds, phase);
    case Fail(_, _, now) => CompletionMatches(q0, e, ds, phase);
  }

  lemma CompletionMatches(q: Queue, e: Event, ds: Deliveries, phase: Phase)
    requires Inv(q) && Enabled(q, e) && Matches(q, ds, phase) && !Busy(q) && (e.Succeed? || e.Fail?)
    ensures Matches(Step(q, e), ds, phase)
  {
    hide Rest, TickOk, BatchOk, Tally, Advance;
    var t := q.ticks[0];
    var rest := t.(todo := t.todo[1..]);
    var q1 := q.(clock := e.now, ticks := []);
    assert Without(q.ticks, 0) == [];
    if e.Succeed? {
      AdvanceMatches(q1.(finished := q.finished + [t.todo[0]]), rest, e.now, ds);
    } else {
      AdvanceMatches(PutBack(q1, Failed(t.todo[0], e.error, e.now)), rest, e.now, ds);
    }
  }

  /** The queue and the handler agree on which attempt is the last. */
  lemma SettleMatches(q: Queue, e: Event, ds: Deliveries, ok: bool)
    requires Inv(q) && Busy(q) && Enabled(q, e) && Matches(q, ds, Recorded(ok))
    requires if ok then e.Succeed? else e.Fail?
    ensures Matches(Step(q, e), ds, Called)
  {
    hide Rest, BatchOk, WellTimed;
    var t := q.ticks[0];
    var rest := t.(todo := t.todo[1..]);
    var q1 := q.(clock := e.now, ticks := []);
    assert Without(q.ticks, 0) == [];
    assert TickOk(t, q);
    if ok {
      AdvanceMatches(q1.(finished := q.finished + [t.todo[0]]), rest, e.now, ds);
    } else {
      var j := Failed(t.todo[0], e.error, e.now);
      if j.attempts < j.maxAttempts {
        assert Waits(ds, j.(nextRunAt := j.updatedAt + q.retryBackoffMs));
      } else {
        assert IsDead(ds, j);
      }
      AdvanceMatches(PutBack(q1, j), rest, e.now, ds);
    }
  }

  // ---------------------------------------------------------------------------------------
  // The handler touches one delivery only
  // ---------------------------------------------------------------------------------------

  lemma {:induction false} CountFinds(serial: nat, jobs: seq<Job>) returns (j: Job)
    requires Count(serial, jobs) > 0
    ensures j in jobs && j.serial == serial
  {
    var last := jobs[|jobs| - 1];
    if last.serial == serial {
      j := last;
    } else {
      j := CountFinds(serial, jobs[..|jobs| - 1]);
    }
  }

  lemma {:induction false} CountMisses(jobs: seq<Job>, j: Job)
    requires j in jobs
    ensures Count(j.serial, jobs) > 0
  {
    if jobs[|jobs| - 1] != j {
      assert j in jobs[..|jobs| - 1];
      CountMisses(jobs[..|jobs| - 1], j);
    }
  }

  /** No other job has the running job's serial number. */
  lemma RunningIsAlone(q: Queue, j: Job)
    requires Busy(q) && OnePlaceEach(q)
    requires j in q.pending || j in q.ticks[0].todo[1..] || j in q.finished || j in q.failed
    ensures j.serial != Running(q).serial
  {
    hide Count;
    var serial := j.serial;
    var todo := q.ticks[0].todo;
    CountUncons(serial, todo);
    assert Places(serial, q) <= 1;
    if j in q.pending { CountMisses(q.pending, j); }
    if j in todo[1..] { CountMisses(todo[1..], j); }
    if j in q.finished { CountMisses(q.finished, j); }
    if j in q.failed { CountMisses(q.failed, j); }
  }

  /** Changing the running job's delivery leaves every other job's claim intact. */
  lemma OthersUntouched(q: Queue, ds: Deliveries, ds': Deliveries, phase: Phase)
    requires Matches(q, ds, phase) && Busy(q) && OnePlaceEach(q)
    requires Running(q).payload in ds
    requires ds[Running(q).payload].job == Some(Running(q).serial)
    requires ds'.Keys == ds.Keys
    requires forall id :: id in ds && id != Running(q).payload ==> ds'[id] == ds[id]
    ensures Settled(q, ds')
    ensures forall j :: j in q.ticks[0].todo[1..] ==> Waits(ds', j)
  {
    hide OnePlaceEach;
    var id := Running(q).payload;
    forall j | j in q.pending || j in q.ticks[0].todo[1..] || j in q.finished || j in q.failed
      ensures j.kind == WEBHOOK_DELIVERY_JOB ==> j.payload != id
    {
      RunningIsAlone(q, j);
      if j in q.pending { assert Waits(ds, j); }
      if j in q.ticks[0].todo[1..] { assert Waits(ds, j); }
      if j in q.finished { assert IsDone(ds, j); }
      if j in q.failed { assert IsDead(ds, j); }
    }
  }

  // ---------------------------------------------------------------------------------------
  // Bookkeeping of schedules
  // ---------------------------------------------------------------------------------------

  ghost predicate AllKnown(jobs: seq<Job>, scheduled: map<nat, string>) {
    forall j :: j in jobs ==> Known(j, scheduled)
  }

  lemma {:induction false} AdvanceKnown(q: Queue, t: Tick, now: int, scheduled: map<nat, string>)
    requires q.ticks == [] && AllKnown(q.pending, scheduled) && AllKnown(q.finished, scheduled)
    requires AllKnown(q.failed, scheduled) && AllKnown(t.todo, scheduled)
    ensures AllKnown(Everywhere(Advance(q, t, now)), scheduled)
    decreases |t.todo|
  {
    if t.todo != [] {
      var j := t.todo[0];
      if j.kind !in q.handlers {
        AdvanceKnown(q.(failed := q.failed + [j]), t.(todo := t.todo[1..]), now, scheduled);
      } else {
        var t' := t.(todo := [Invoked(j, now)] + t.todo[1..]);
        assert Advance(q, t, now).ticks == [t'];
        assert Known(j, scheduled) && Known(Invoked(j, now), scheduled);
        assert AllKnown(t'.todo, scheduled);
      }
    }
  }

  lemma BeginTickKnown(q: Queue, owner: Owner, now: int, scheduled: map<nat, string>)
    requires |q.ticks| <= 1 && (q.processing <==> |q.ticks| == 1) && AllKnown(Everywhere(q), scheduled)
    ensures AllKnown(Everywhere(BeginTick(q, owner, now)), scheduled)
  {
    hide Known;
    if !q.processing && Ready(q.pending, now) != [] {
      Partitioned(q.pending, now);
      AdvanceKnown(q.(processing := true, pending := Waiting(q.pending, now)),
                   Tick(owner, now, Ready(q.pending, now)), now, scheduled);
    }
  }

  lemma CompletionKnown(q: Queue, e: Event, scheduled: map<nat, string>)
    requires |q.ticks| == 1 && Enabled(q, e) && (e.Succeed? || e.Fail?) && AllKnown(Everywhere(q), scheduled)
    ensures AllKnown(Everywhere(Step(q, e)), scheduled)
  {
    var t := q.ticks[0];
    var rest := t.(todo := t.todo[1..]);
    var q1 := q.(clock := e.now, ticks := []);
    assert Without(q.ticks, 0) == [];
    if e.Succeed? {
      AdvanceKnown(q1.(finished := q.finished + [t.todo[0]]), rest, e.now, scheduled);
    } else {
      var j := Failed(t.todo[0], e.error, e.now);
      assert Known(t.todo[0], scheduled) && Known(j, scheduled);
      assert Known(j.(nextRunAt := j.updatedAt + q.retryBackoffMs), scheduled);
      AdvanceKnown(PutBack(q1, j), rest, e.now, scheduled);
    }
  }

  lemma StepKnown(q0: Queue, e: Event, scheduled: map<nat, string>)
    requires Inv(q0) && Enabled(q0, e) && AllKnown(Everywhere(q0), scheduled)
    requires e.Enqueue? ==> Known(NewJob(q0, e), scheduled)
    ensures AllKnown(Everywhere(Step(q0, e)), scheduled)
  {
    hide Known, Rest, TickOk;
    var q := q0.(clock := e.now);
    match e
    case TimerFires(now) => BeginTickKnown(q.(armed := false), Timer, now, scheduled);
    case CallDrain(now) => BeginTickKnown(q, Drain, now, scheduled);
    case DrainAgain(now) => BeginTickKnown(q.(drains := q.drains - 1), Drain, now, scheduled);
    case Succeed(_, _) => CompletionKnown(q0, e, scheduled);
    case Fail(_, _, _) => CompletionKnown(q0, e, scheduled);
    case _ =>
  }

  // ---------------------------------------------------------------------------------------
  // Every action keeps the invariant
  // ---------------------------------------------------------------------------------------

  lemma QueuePart(q: Queue, e: Event)
    requires Inv(q) && OnePlaceEach(q) && Enabled(q, e)
    ensures Inv(Step(q, e)) && OnePlaceEach(Step(q, e))
  {
    hide Inv, Places;
    StepKeeps(q, e);
    AcceptedUnchanged(q, e);
    forall serial: nat ensures Places(serial, Step(q, e)) == if serial < Step(q, e).accepted then 1 else 0 {
      StepConserves(serial, q, e);
      assert Places(serial, q) == if serial < q.accepted then 1 else 0;
    }
  }

  lemma ScheduleKeeps(s: System, a: Action)
    requires SystemInv(s) && Allowed(s, a) && a.Schedule?
    ensures SystemInv(Act(s, a))
  {
    hide Rest, TickOk, Places;
    var e := Enqueue(a.jobId, WEBHOOK_DELIVERY_JOB, a.id, a.maxAttempts, 0, a.now);
    var s' := Act(s, a);
    QueuePart(s.queue, e);
    AcceptedUnchanged(s.queue, e);
    FreshSerial(s, a.id);
    StepKnown(s.queue, e, s'.scheduled);
    var j := NewJob(s.queue.(clock := a.now), e);
    assert Waits(s'.deliveries, j);
    assert Step(s.queue, e).pending == s.queue.pending + [j];
  }

  /** The serial number of a job about to be enqueued is in use nowhere. */
  lemma FreshSerial(s: System, id: string)
    requires SystemInv(s) && id in s.deliveries
    ensures AllKnown(Everywhere(s.queue), s.scheduled[s.queue.accepted := id])
    ensures forall d :: d in s.deliveries ==> s.deliveries[d].job != Some(s.queue.accepted)
  {
    hide Rest, TickOk, Places, Matches;
    forall j | j in Everywhere(s.queue) ensures j.serial != s.queue.accepted {
      SerialsAreAccepted(s.queue, j);
    }
    forall d | d in s.deliveries ensures s.deliveries[d].job != Some(s.queue.accepted) {
      assert Filed(s, d);
    }
  }

  lemma SerialsAreAccepted(q: Queue, j: Job)
    requires OnePlaceEach(q) && j in Everywhere(q)
    ensures j.serial < q.accepted
  {
    hide Count;
    assert Places(j.serial, q) == if j.serial < q.accepted then 1 else 0;
    if j in q.pending { CountMisses(q.pending, j); }
    if j in InFlight(q) { CountMisses(InFlight(q), j); }
    if j in q.finished { CountMisses(q.finished, j); }
    if j in q.failed { CountMisses(q.failed, j); }
  }

  lemma CreateKeeps(s: System, a: Action)
    requires SystemInv(s) && Allowed(s, a) && a.Create?
    ensures SystemInv(Act(s, a))
  {
    hide Inv, OnePlaceEach, Known;
    var s' := Act(s, a);
    forall id | id in s'.deliveries ensures Filed(s', id) {
      if id != a.id { assert Filed(s, id); }
    }
  }

  lemma OtherKeeps(s: System, a: Action)
    requires SystemInv(s) && Allowed(s, a) && a.Other?
    ensures SystemInv(Act(s, a))
  {
    hide Inv, OnePlaceEach, Matches, Step, Everywhere;
    QueuePart(s.queue, a.event);
    AcceptedUnchanged(s.queue, a.event);
    OtherMatches(s.queue, a.event, s.deliveries, s.phase);
    if a.event.Enqueue? { NewSerialUnscheduled(s); }
    StepKnown(s.queue, a.event, s.scheduled);
  }

  lemma NewSerialUnscheduled(s: System)
    requires Bookkept(s)
    ensures s.queue.accepted !in s.scheduled
  {
  }

  lemma HandlerKeeps(s: System, a: Action)
    requires SystemInv(s) && Allowed(s, a) && (a.Load? || a.Post? || a.Record?)
    ensures SystemInv(Act(s, a))
  {
    hide Inv, OnePlaceEach, Known;
    var q, j := s.queue, Running(s.queue);
    var s' := Act(s, a);
    if !a.Load? {
      OthersUntouched(q, s.deliveries, s'.deliveries, s.phase);
    }
  }

  lemma SettleKeeps(s: System, a: Action)
    requires SystemInv(s) && Allowed(s, a) && a.Settle?
    ensures SystemInv(Act(s, a))
  {
    hide Inv, OnePlaceEach, Matches, Step, Everywhere;
    var e := if s.phase.ok then Succeed(0, a.now) else Fail(0, a.error, a.now);
    QueuePart(s.queue, e);
    AcceptedUnchanged(s.queue, e);
    SettleMatches(s.queue, e, s.deliveries, s.phase.ok);
    StepKnown(s.queue, e, s.scheduled);
  }

  lemma {:induction false} SystemRunKeeps(s: System, actions: seq<Action>, s': System)
    requires SystemInv(s) && SystemRun(s, actions, s')
    ensures SystemInv(s')
    decreases |actions|
  {
    hide SystemInv;
    if actions != [] {
      var a := actions[0];
      match a {
        case Create(_) => CreateKeeps(s, a);
        case Schedule(_, _, _, _) => ScheduleKeeps(s, a);
        case Other(_) => OtherKeeps(s, a);
        case Settle(_, _) => SettleKeeps(s, a);
        case _ => HandlerKeeps(s, a);
      }
      SystemRunKeeps(Act(s, a), actions[1..], s');
    }
  }

  lemma NewSystemInv(retryBackoffMs: int, now: int)
    ensures SystemInv(NewSystem(retryBackoffMs, now))
  {
    var q := NewSystem(retryBackoffMs, now).queue;
    assert forall serial: nat :: Places(serial, q) == 0;
  }

  /** Between ticks, the delivery is queued, failed, delivered or dead-lettered exactly as its
      one job is untried, waiting to retry, finished or dead-lettered, and the attempts on
      record are the POSTs made. */
  lemma DeliveryMirrorsItsJob(retryBackoffMs: int, start: int, actions: seq<Action>, s: System, id: string)
    returns (j: Job)
    requires SystemRun(NewSystem(retryBackoffMs, start), actions, s)
    requires s.queue.ticks == [] && id in s.deliveries && s.deliveries[id].job.Some?
    ensures j.payload == id && j.kind == WEBHOOK_DELIVERY_JOB && Places(j.serial, s.queue) == 1
    ensures var d := s.deliveries[id];
            && d.attempts == d.posts
            && match d.status
               case Queued => j in s.queue.pending && j.attempts == 0 == d.attempts
               case Undelivered => j in s.queue.pending && 0 < j.attempts == d.attempts < MaxTries(j)
               case Delivered => j in s.queue.finished && d.attempts == |j.starts|
               case DeadLetter => j in s.queue.failed && d.attempts == |j.starts|
  {
    NewSystemInv(retryBackoffMs, start);
    SystemRunKeeps(NewSystem(retryBackoffMs, start), actions, s);
    j := WhereIsTheJob(s, id);
  }

  /** A delivery created but not yet enqueued is queued, without attempts or POSTs, and no job
      stands for it. */
  lemma UnscheduledIsQueued(retryBackoffMs: int, start: int, actions: seq<Action>, s: System, id: string)
    requires SystemRun(NewSystem(retryBackoffMs, start), actions, s)
    requires id in s.deliveries && s.deliveries[id].job.None?
    ensures s.deliveries[id] == Delivery(Queued, 0, 0, None)
    ensures forall j :: j in Everywhere(s.queue) && j.kind == WEBHOOK_DELIVERY_JOB ==> j.payload != id
  {
    hide Inv, OnePlaceEach;
    NewSystemInv(retryBackoffMs, start);
    SystemRunKeeps(NewSystem(retryBackoffMs, start), actions, s);
    assert Filed(s, id);
    var q := s.queue;
    forall j | j in Everywhere(q) && j.kind == WEBHOOK_DELIVERY_JOB ensures j.payload != id {
      if j in q.pending { assert Waits(s.deliveries, j); }
      if j in q.finished { assert IsDone(s.deliveries, j); }
      if j in q.failed { assert IsDead(s.deliveries, j); }
      if j in InFlight(q) {
        assert j == q.ticks[0].todo[0] || j in q.ticks[0].todo[1..];
      }
    }
  }

  lemma WhereIsTheJob(s: System, id: string) returns (j: Job)
    requires SystemInv(s) && s.queue.ticks == [] && id in s.deliveries && s.deliveries[id].job.Some?
    ensures j.payload == id && j.kind == WEBHOOK_DELIVERY_JOB && Places(j.serial, s.queue) == 1
    ensures var d := s.deliveries[id];
            && d.attempts == d.posts
            && match d.status
               case Queued => j in s.queue.pending && j.attempts == 0 == d.attempts
               case Undelivered => j in s.queue.pending && 0 < j.attempts == d.attempts < MaxTries(j)
               case Delivered => j in s.queue.finished && d.attempts == |j.starts|
               case DeadLetter => j in s.queue.failed && d.attempts == |j.starts|
  {
    hide WellTimed;
    assert Filed(s, id);
    var q, serial := s.queue, s.deliveries[id].job.value;
    assert Places(serial, q) == 1;
    if Count(serial, q.pending) > 0 {
      j := CountFinds(serial, q.pending);
      assert Waits(s.deliveries, j) && Retriable(j, q);
    } else if Count(serial, q.finished) > 0 {
      j := CountFinds(serial, q.finished);
      assert IsDone(s.deliveries, j) && Invocated(j, q);
    } else {
      j := CountFinds(serial, q.failed);
      assert IsDead(s.deliveries, j) && Dead(j, q);
    }
    assert Known(j, s.scheduled);
  }
}
