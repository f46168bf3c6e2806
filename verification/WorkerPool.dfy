/** The worker runtime: one dispatcher, a bounded job channel, a pool of workers, a tenant
    refresher, and a run that returns once all of them have stopped. */
module WorkerPool {
  type Job = string

  const JOB_QUEUE_MULTIPLIER: nat := 8

  /** `Passing(snapshot, k)` has sent the first `k` tenants of its snapshot. */
  datatype Dispatcher = Starting | Passing(snapshot: seq<Job>, k: nat) | Waiting | Closed

  /** A refresh that is under way at the cancellation may still store the list it has read. */
  datatype Refresher = Ticking | Refreshing | Ended

  datatype Worker = Receiving | Handling(job: Job) | Stopped

  /** `sent`, `received` and `handled` are histories. */
  datatype Pool = Pool(
    tenants: seq<Job>, queue: seq<Job>, dispatcher: Dispatcher, workers: seq<Worker>,
    refresher: Refresher, cancelled: bool, returned: bool,
    sent: seq<Job>, received: seq<Job>, handled: seq<Job>)

  datatype Event =
    | Cancel
    | RefreshStart
    | RefreshFail
    | RefreshStore(tenants: seq<Job>)
    | RefresherStop
    | StartPass
    | Send
    | EndPass
    | CloseQueue
    | Receive(w: nat)
    | Finish(w: nat)
    | WorkerStop(w: nat)
    | Return

  function Capacity(p: Pool): nat {
    if |p.workers| * JOB_QUEUE_MULTIPLIER < 1 then 1 else |p.workers| * JOB_QUEUE_MULTIPLIER
  }

  /** A pass ends when its snapshot is exhausted, when the queue is full, or on cancellation.
      When cancellation and another case of a select are both ready, either may be taken. */
  predicate Enabled(p: Pool, e: Event) {
    !p.returned &&
    match e
    case Cancel => !p.cancelled
    case RefreshStart => p.refresher.Ticking? && !p.cancelled
    case RefreshFail => p.refresher.Refreshing?
    case RefreshStore(_) => p.refresher.Refreshing?
    case RefresherStop => p.refresher.Ticking? && p.cancelled
    case StartPass => p.dispatcher.Starting? || p.dispatcher.Waiting?
    case Send => p.dispatcher.Passing? && p.dispatcher.k < |p.dispatcher.snapshot| && |p.queue| < Capacity(p)
    case EndPass => p.dispatcher.Passing?
                    && (p.dispatcher.k >= |p.dispatcher.snapshot| || |p.queue| >= Capacity(p) || p.cancelled)
    case CloseQueue => p.dispatcher.Waiting? && p.cancelled
    case Receive(w) => w < |p.workers| && p.workers[w].Receiving? && p.queue != []
    case Finish(w) => w < |p.workers| && p.workers[w].Handling?
    case WorkerStop(w) => w < |p.workers| && p.workers[w].Receiving? && p.queue == [] && p.dispatcher.Closed?
    case Return => p.cancelled && p.dispatcher.Closed? && p.refresher.Ended?
                   && forall w :: 0 <= w < |p.workers| ==> p.workers[w].Stopped?
  }

  function SetWorker(p: Pool, w: nat, s: Worker): Pool
    requires w < |p.workers|
  {
    p.(workers := p.workers[w := s])
  }

  function Apply(p: Pool, e: Event): Pool
    requires Enabled(p, e)
  {
    match e
    case Cancel => p.(cancelled := true)
    case RefreshStart => p.(refresher := Refreshing)
    case RefreshFail => p.(refresher := Ticking)
    case RefreshStore(tenants) => p.(refresher := Ticking, tenants := tenants)
    case RefresherStop => p.(refresher := Ended)
    case StartPass => p.(dispatcher := Passing(p.tenants, 0))
    case Send =>
      var job := p.dispatcher.snapshot[p.dispatcher.k];
      p.(dispatcher := Passing(p.dispatcher.snapshot, p.dispatcher.k + 1),
         queue := p.queue + [job], sent := p.sent + [job])
    case EndPass => p.(dispatcher := Waiting)
    case CloseQueue => p.(dispatcher := Closed)
    case Receive(w) =>
      SetWorker(p, w, Handling(p.queue[0])).(queue := p.queue[1..], received := p.received + [p.queue[0]])
    case Finish(w) => SetWorker(p, w, Receiving).(handled := p.handled + [p.workers[w].job])
    case WorkerStop(w) => SetWorker(p, w, Stopped)
    case Return => p.(returned := true)
  }

  function Start(workerCount: nat, tenants: seq<Job>): Pool {
    Pool(tenants, [], Starting, seq(workerCount, _ => Receiving), Ticking, false, false, [], [], [])
  }

  // ---------------------------------------------------------------- invariant

  /** How many workers are handling this job. */
  function InHand(workers: seq<Worker>, job: Job): nat {
    if workers == [] then 0 else (if workers[0] == Handling(job) then 1 else 0) + InHand(workers[1..], job)
  }

  lemma {:induction false} InHandUpdate(workers: seq<Worker>, w: nat, s: Worker, job: Job)
    requires w < |workers|
    ensures InHand(workers[w := s], job)
         == InHand(workers, job)
          - (if workers[w] == Handling(job) then 1 else 0)
          + (if s == Handling(job) then 1 else 0)
  {
    if w == 0 {
      assert workers[w := s][1..] == workers[1..];
    } else {
      InHandUpdate(workers[1..], w - 1, s, job);
      assert workers[w := s][1..] == workers[1..][w - 1 := s];
    }
  }

  /** Every received job is handled already or in the hands of one worker. */
  ghost predicate Accounted(p: Pool) {
    forall job :: multiset(p.received)[job] == multiset(p.handled)[job] + InHand(p.workers, job)
  }

  /** The current pass has sent a prefix of its snapshot, and nothing since. */
  predicate PassOk(d: Dispatcher, sent: seq<Job>) {
    d.Passing? ==> d.k <= |d.snapshot| && d.k <= |sent| && sent[|sent| - d.k..] == d.snapshot[..d.k]
  }

  ghost predicate Inv(p: Pool) {
    && |p.queue| <= Capacity(p)
    && p.sent == p.received + p.queue
    && Accounted(p)
    && (forall w :: 0 <= w < |p.workers| && p.workers[w].Stopped? ==> p.dispatcher.Closed? && p.queue == [])
    && PassOk(p.dispatcher, p.sent)
    && (p.dispatcher.Closed? ==> p.cancelled)
    && (p.returned ==>
          && p.dispatcher.Closed?
          && forall w :: 0 <= w < |p.workers| ==> p.workers[w].Stopped?)
  }

  lemma {:induction false} NothingInHand(workers: seq<Worker>)
    requires forall w :: 0 <= w < |workers| ==> !workers[w].Handling?
    ensures forall job :: InHand(workers, job) == 0
  {
    if workers != [] {
      NothingInHand(workers[1..]);
    }
  }

  lemma StartIsOk(workerCount: nat, tenants: seq<Job>)
    ensures Inv(Start(workerCount, tenants))
  {
    NothingInHand(Start(workerCount, tenants).workers);
  }

  lemma ReceiveKeepsInv(p: Pool, w: nat)
    requires Inv(p) && Enabled(p, Receive(w))
    ensures Inv(Apply(p, Receive(w)))
  {
    var p', first := Apply(p, Receive(w)), p.queue[0];
    forall job ensures multiset(p'.received)[job] == multiset(p'.handled)[job] + InHand(p'.workers, job) {
      InHandUpdate(p.workers, w, Handling(first), job);
      assert multiset(p.received)[job] == multiset(p.handled)[job] + InHand(p.workers, job);
    }
    assert p.received + p.queue == (p.received + [first]) + p.queue[1..];
  }

  /** A worker that finishes its job or stops. */
  lemma WorkerStepKeepsAccount(p: Pool, w: nat, e: Event)
    requires Accounted(p) && Enabled(p, e) && (e == Finish(w) || e == WorkerStop(w))
    ensures Accounted(Apply(p, e))
  {
    var p' := Apply(p, e);
    forall job ensures multiset(p'.received)[job] == multiset(p'.handled)[job] + InHand(p'.workers, job) {
      InHandUpdate(p.workers, w, p'.workers[w], job);
      assert multiset(p.received)[job] == multiset(p.handled)[job] + InHand(p.workers, job);
    }
  }

  lemma PassSends(d: Dispatcher, sent: seq<Job>)
    requires d.Passing? && d.k < |d.snapshot| && PassOk(d, sent)
    ensures PassOk(Passing(d.snapshot, d.k + 1), sent + [d.snapshot[d.k]])
  {
    var sent' := sent + [d.snapshot[d.k]];
    assert sent'[|sent'| - (d.k + 1)..] == sent[|sent| - d.k..] + [d.snapshot[d.k]];
    assert d.snapshot[..d.k + 1] == d.snapshot[..d.k] + [d.snapshot[d.k]];
  }

  lemma SendKeepsInv(p: Pool)
    requires Inv(p) && Enabled(p, Send)
    ensures Inv(Apply(p, Send))
  {
    PassSends(p.dispatcher, p.sent);
    var job := p.dispatcher.snapshot[p.dispatcher.k];
    assert p.received + (p.queue + [job]) == p.received + p.queue + [job];
  }

  lemma WorkerStepKeepsInv(p: Pool, w: nat, e: Event)
    requires Inv(p) && Enabled(p, e) && (e == Finish(w) || e == WorkerStop(w))
    ensures Inv(Apply(p, e))
  {
    WorkerStepKeepsAccount(p, w, e);
  }

  /** A step that moves no job. */
  lemma OtherStepKeepsInv(p: Pool, e: Event)
    requires Inv(p) && Enabled(p, e) && !e.Receive? && !e.Finish? && !e.WorkerStop? && !e.Send?
    ensures Inv(Apply(p, e))
  {
    var p' := Apply(p, e);
    assert p'.workers == p.workers && p'.queue == p.queue && p'.sent == p.sent;
    assert p'.received == p.received && p'.handled == p.handled;
  }

  lemma StepKeepsInv(p: Pool, e: Event)
    requires Inv(p) && Enabled(p, e)
    ensures Inv(Apply(p, e))
  {
    match e
    case Receive(w) => ReceiveKeepsInv(p, w);
    case Finish(w) => WorkerStepKeepsInv(p, w, e);
    case WorkerStop(w) => WorkerStepKeepsInv(p, w, e);
    case Send => SendKeepsInv(p);
    case _ => OtherStepKeepsInv(p, e);
  }

  // ---------------------------------------------------------------- runs

  predicate Valid(p: Pool, events: seq<Event>)
    decreases |events|
  {
    events == [] || (Enabled(p, events[0]) && Valid(Apply(p, events[0]), events[1..]))
  }

  function Exec(p: Pool, events: seq<Event>): Pool
    requires Valid(p, events)
    decreases |events|
  {
    if events == [] then p else Exec(Apply(p, events[0]), events[1..])
  }

  lemma {:induction false} RunKeepsInv(p: Pool, events: seq<Event>)
    requires Inv(p) && Valid(p, events)
    ensures Inv(Exec(p, events))
    decreases |events|
  {
    if events != [] {
      StepKeepsInv(p, events[0]);
      RunKeepsInv(Apply(p, events[0]), events[1..]);
    }
  }

  lemma {:induction false} PoolSizeIsFixed(p: Pool, events: seq<Event>)
    requires Valid(p, events)
    ensures |Exec(p, events).workers| == |p.workers|
    decreases |events|
  {
    if events != [] {
      PoolSizeIsFixed(Apply(p, events[0]), events[1..]);
    }
  }

  /** Jobs leave the queue in the order sent and the queue never exceeds its capacity; the
      current pass has sent a prefix of its snapshot; and once run has returned, every job
      ever sent has been handled exactly once and every worker has stopped. */
  lemma GracefulDrain(workerCount: nat, tenants: seq<Job>, events: seq<Event>)
    requires workerCount > 0 && Valid(Start(workerCount, tenants), events)
    ensures var p := Exec(Start(workerCount, tenants), events);
            && |p.queue| <= 8 * workerCount
            && (p.dispatcher.Closed? ==> p.cancelled)
            && p.received <= p.sent
            && (p.dispatcher.Passing? ==>
                  && p.dispatcher.k <= |p.dispatcher.snapshot|
                  && exists before :: p.sent == before + p.dispatcher.snapshot[..p.dispatcher.k])
            && (p.returned ==>
                  && multiset(p.handled) == multiset(p.sent)
                  && forall w :: 0 <= w < |p.workers| ==> p.workers[w].Stopped?)
  {
    var start := Start(workerCount, tenants);
    var p := Exec(start, events);
    StartIsOk(workerCount, tenants);
    RunKeepsInv(start, events);
    PoolSizeIsFixed(start, events);
    if p.dispatcher.Passing? {
      assert p.sent == p.sent[..|p.sent| - p.dispatcher.k] + p.dispatcher.snapshot[..p.dispatcher.k];
    }
    if p.returned {
      assert p.workers[0].Stopped?;
      NothingInHand(p.workers);
      assert p.sent == p.received;
      forall job ensures multiset(p.handled)[job] == multiset(p.sent)[job] {
        assert multiset(p.received)[job] == multiset(p.handled)[job] + InHand(p.workers, job);
      }
      assert multiset(p.handled) == multiset(p.sent);
    }
  }

  /** The pool is cancelled if and only if a cancellation has happened. */
  lemma {:induction false} CancelledIff(p: Pool, events: seq<Event>)
    requires Valid(p, events)
    ensures Exec(p, events).cancelled <==> p.cancelled || exists i :: 0 <= i < |events| && events[i] == Cancel
    decreases |events|
  {
    if events != [] {
      var rest := events[1..];
      CancelledIff(Apply(p, events[0]), rest);
      assert forall i :: 0 <= i < |rest| ==> rest[i] == events[i + 1];
      assert forall i :: 1 <= i < |events| ==> events[i] == rest[i - 1];
    }
  }

  lemma StartIsNotCancelled(workerCount: nat, tenants: seq<Job>, events: seq<Event>)
    requires Valid(Start(workerCount, tenants), events)
    ensures Exec(Start(workerCount, tenants), events).cancelled
       <==> exists i :: 0 <= i < |events| && events[i] == Cancel
  {
    CancelledIff(Start(workerCount, tenants), events);
  }

  /** A pass ends with its whole snapshot sent, or with the queue full, or on cancellation. */
  lemma PassEndsWhen(p: Pool)
    requires Inv(p) && Enabled(p, EndPass)
    ensures var snapshot := p.dispatcher.snapshot;
            || (|snapshot| <= |p.sent| && p.sent[|p.sent| - |snapshot|..] == snapshot)
            || |p.queue| == (if |p.workers| == 0 then 1 else 8 * |p.workers|)
            || p.cancelled
  {
  }

  /** The last list stored, if any was. */
  function LastStored(tenants: seq<Job>, events: seq<Event>): seq<Job>
    decreases |events|
  {
    if events == [] then tenants
    else LastStored(if events[0].RefreshStore? then events[0].tenants else tenants, events[1..])
  }

  /** A pass works on the list that was stored last. */
  lemma {:induction false} PassesSeeLastList(p: Pool, events: seq<Event>)
    requires Valid(p, events)
    ensures var u := Exec(p, events);
            && u.tenants == LastStored(p.tenants, events)
            && (Enabled(u, StartPass) ==>
                  Apply(u, StartPass).dispatcher == Passing(LastStored(p.tenants, events), 0))
    decreases |events|
  {
    if events != [] {
      PassesSeeLastList(Apply(p, events[0]), events[1..]);
    }
  }

  /** Nothing is sent on a closed channel. */
  lemma {:induction false} NoSendAfterClose(p: Pool, events: seq<Event>)
    requires p.dispatcher.Closed? && Valid(p, events)
    ensures Exec(p, events).sent == p.sent && Exec(p, events).dispatcher.Closed?
    ensures forall i :: 0 <= i < |events| ==> !events[i].Send? && !events[i].CloseQueue?
    decreases |events|
  {
    if events != [] {
      NoSendAfterClose(Apply(p, events[0]), events[1..]);
    }
  }

  // ---------------------------------------------------------------- shutdown ends

  function WorkerWork(workers: seq<Worker>): nat {
    if workers == [] then 0
    else (match workers[0] case Stopped => 0 case Receiving => 1 case Handling(_) => 2) + WorkerWork(workers[1..])
  }

  lemma {:induction false} WorkerWorkUpdate(workers: seq<Worker>, w: nat, s: Worker)
    requires w < |workers|
    ensures WorkerWork(workers[w := s]) == WorkerWork(workers) - WorkerWork([workers[w]]) + WorkerWork([s])
  {
    if w == 0 {
      assert workers[w := s][1..] == workers[1..];
    } else {
      WorkerWorkUpdate(workers[1..], w - 1, s);
      assert workers[w := s][1..] == workers[1..][w - 1 := s];
    }
  }

  /** Steps left before run returns, if no further pass is started. */
  function StepsLeft(p: Pool): nat {
    (if p.returned then 0 else 1)
    + (match p.refresher
       case Ended => 0
       case Ticking => 1
       case Refreshing => 2)
    + (match p.dispatcher
       case Closed => 0
       case Waiting => 1
       case Starting => 1
       case Passing(snapshot, k) => 2 + if k < |snapshot| then 3 * (|snapshot| - k) else 0)
    + 2 * |p.queue| + WorkerWork(p.workers)
  }

  function Passes(events: seq<Event>): nat {
    if events == [] then 0 else (if events[0].StartPass? then 1 else 0) + Passes(events[1..])
  }

  lemma WorkerStepDoesWork(p: Pool, e: Event)
    requires Enabled(p, e) && (e.Receive? || e.Finish? || e.WorkerStop?)
    ensures StepsLeft(Apply(p, e)) < StepsLeft(p)
  {
    WorkerWorkUpdate(p.workers, e.w, Apply(p, e).workers[e.w]);
  }

  lemma StepsLeftDecreases(p: Pool, e: Event)
    requires p.cancelled && Enabled(p, e)
    ensures var p' := Apply(p, e);
            && p'.cancelled && (p'.tenants == p.tenants || (e.RefreshStore? && p'.tenants == e.tenants))
            && StepsLeft(p') < StepsLeft(p) + if e.StartPass? then 2 + 3 * |p.tenants| else 0
  {
    if e.Receive? || e.Finish? || e.WorkerStop? {
      WorkerStepDoesWork(p, e);
    }
  }

  lemma OneMorePass(n: nat, pass: nat)
    ensures (1 + n) * pass == n * pass + pass && (0 + n) * pass == n * pass
  {
  }

  /** Once cancelled, every schedule is finite unless the ticker keeps winning the select: its
      length is bounded by the work at hand plus a fixed amount for each further pass. `most`
      bounds the tenants there are and those that a refresh under way may still store. */
  lemma {:induction false} ShutdownEnds(p: Pool, events: seq<Event>, most: nat)
    requires p.cancelled && Valid(p, events) && |p.tenants| <= most
    requires forall i :: 0 <= i < |events| && events[i].RefreshStore? ==> |events[i].tenants| <= most
    ensures |events| <= StepsLeft(p) + Passes(events) * (2 + 3 * most)
    decreases |events|
  {
    if events != [] {
      StepsLeftDecreases(p, events[0]);
      ShutdownEnds(Apply(p, events[0]), events[1..], most);
      OneMorePass(Passes(events[1..]), 2 + 3 * most);
    }
  }

  function Stores(events: seq<Event>): nat {
    if events == [] then 0 else (if events[0].RefreshStore? then 1 else 0) + Stores(events[1..])
  }

  /** After the cancellation at most one list is stored, by the refresh that was under way. */
  lemma {:induction false} OneStoreAfterCancel(p: Pool, events: seq<Event>)
    requires p.cancelled && Valid(p, events)
    ensures Stores(events) <= if p.refresher.Refreshing? then 1 else 0
    decreases |events|
  {
    if events != [] {
      OneStoreAfterCancel(Apply(p, events[0]), events[1..]);
    }
  }

  /** And it never gets stuck: until run has returned, some step is possible that neither stores
      a list nor, once the first pass has been started, starts another pass. */
  lemma ShutdownMoves(p: Pool) returns (e: Event)
    requires Inv(p) && p.cancelled && !p.returned
    ensures Enabled(p, e) && !e.RefreshStore? && (e.StartPass? ==> p.dispatcher.Starting?)
  {
    if p.refresher.Refreshing? {
      e := RefreshFail;
    } else if p.refresher.Ticking? {
      e := RefresherStop;
    } else if p.dispatcher.Starting? {
      e := StartPass;
    } else if p.dispatcher.Passing? {
      e := EndPass;
    } else if p.dispatcher.Waiting? {
      e := CloseQueue;
    } else if w: nat :| w < |p.workers| && !p.workers[w].Stopped? {
      e := if p.workers[w].Handling? then Finish(w) else if p.queue != [] then Receive(w) else WorkerStop(w);
    } else {
      e := Return;
    }
  }

  // ---------------------------------------------------------------- the dispatcher's code

  predicate ByOther(e: Event) {
    !e.StartPass? && !e.Send? && !e.EndPass? && !e.CloseQueue?
  }

  /** Before one select: what the other goroutines do, and whether a ready Done case is taken. */
  datatype Slot = Slot(others: seq<Event>, takeDone: bool)

  /** What is around one pass: its selects, in turn. */
  type Selects = nat -> Slot

  /** A pass that was made: its snapshot, how much of it was sent, and whether the context was
      cancelled when it began. */
  datatype Pass = Pass(snapshot: seq<Job>, sent: nat, cancelled: bool)

  function SentBy(passes: seq<Pass>): seq<Job>
    requires forall i :: 0 <= i < |passes| ==> passes[i].sent <= |passes[i].snapshot|
  {
    if passes == [] then []
    else
      var last := passes[|passes| - 1];
      SentBy(passes[..|passes| - 1]) + last.snapshot[..last.sent]
  }

  /** The state once the other goroutines have taken whatever steps of `others` they could. */
  function AfterOthers(p: Pool, others: seq<Event>): Pool {
    if others == [] then p
    else
      var before, e := AfterOthers(p, others[..|others| - 1]), others[|others| - 1];
      if ByOther(e) && Enabled(before, e) then Apply(before, e) else before
  }

  /** Others are not held up by the dispatcher's own code. */
  lemma OthersMove(p: Pool, others: seq<Event>, e: Event)
    requires !e.StartPass? && !e.Send? && !e.EndPass? && !e.CloseQueue? && Enabled(AfterOthers(p, others), e)
    ensures AfterOthers(p, others + [e]) == Apply(AfterOthers(p, others), e)
  {
    assert (others + [e])[..|others|] == others;
  }

  lemma PrefixGrows(before: seq<Job>, tenants: seq<Job>, n: nat)
    requires n < |tenants|
    ensures before + tenants[..n] + [tenants[n]] == before + tenants[..n + 1]
  {
  }

  class Runtime {
    var pool: Pool
    ghost var passes: seq<Pass>

    ghost predicate Consistent()
      reads this
    {
      && Inv(pool)
      && (forall i :: 0 <= i < |passes| ==> passes[i].sent <= |passes[i].snapshot|)
    }

    constructor (workerCount: nat, tenants: seq<Job>)
      ensures Consistent() && pool == Start(workerCount, tenants) && passes == []
    {
      pool, passes := Start(workerCount, tenants), [];
      new;
      StartIsOk(workerCount, tenants);
    }

    method Interfere(others: seq<Event>)
      requires Inv(pool)
      modifies this`pool
      ensures Inv(pool) && pool.dispatcher == old(pool.dispatcher) && pool.sent == old(pool.sent)
      ensures |pool.workers| == old(|pool.workers|) && (old(pool.cancelled) ==> pool.cancelled)
      ensures old(pool.returned) == pool.returned || pool.dispatcher.Closed?
      ensures pool == AfterOthers(old(pool), others)
    {
      assert others[..0] == [];
      for i := 0 to |others|
        invariant Inv(pool) && pool.dispatcher == old(pool.dispatcher) && pool.sent == old(pool.sent)
        invariant |pool.workers| == old(|pool.workers|) && (old(pool.cancelled) ==> pool.cancelled)
        invariant old(pool.returned) == pool.returned || pool.dispatcher.Closed?
        invariant pool == AfterOthers(old(pool), others[..i])
      {
        assert others[..i + 1][..i] == others[..i];
        if ByOther(others[i]) && Enabled(pool, others[i]) {
          StepKeepsInv(pool, others[i]);
          pool := Apply(pool, others[i]);
        }
      }
      assert others[..|others|] == others;
    }

    method Step(e: Event)
      requires Inv(pool) && Enabled(pool, e)
      modifies this`pool
      ensures Inv(pool) && pool == Apply(old(pool), e)
    {
      StepKeepsInv(pool, e);
      pool := Apply(pool, e);
    }

    method SendNext()
      requires Inv(pool) && !pool.returned && pool.dispatcher.Passing? && pool.dispatcher.k < |pool.dispatcher.snapshot|
      requires |pool.queue| < Capacity(pool)
      modifies this`pool
      ensures Inv(pool) && !pool.returned && |pool.workers| == old(|pool.workers|)
      ensures pool.cancelled == old(pool.cancelled)
      ensures pool.dispatcher == Passing(old(pool.dispatcher).snapshot, old(pool.dispatcher).k + 1)
      ensures pool.sent == old(pool.sent) + [old(pool.dispatcher).snapshot[old(pool.dispatcher).k]]
      ensures pool.queue == old(pool.queue) + [old(pool.dispatcher).snapshot[old(pool.dispatcher).k]]
    {
      Step(Send);
    }

    /** One select of a pass: Done if it is taken, a send if there is room, else the default. */
    method SelectOnce(tenants: seq<Job>, n: nat, slot: Slot) returns (sent: bool)
      requires Inv(pool) && !pool.returned && n < |tenants| && pool.dispatcher == Passing(tenants, n)
      modifies this`pool
      ensures Inv(pool) && !pool.returned && |pool.workers| == old(|pool.workers|)
      ensures pool.dispatcher == Passing(tenants, if sent then n + 1 else n)
      ensures pool.sent == old(pool.sent) + if sent then [tenants[n]] else []
      ensures sent <==> !(AfterOthers(old(pool), slot.others).cancelled && slot.takeDone)
                        && |AfterOthers(old(pool), slot.others).queue| < Capacity(AfterOthers(old(pool), slot.others))
      ensures !sent ==> (pool.cancelled && slot.takeDone) || |pool.queue| >= Capacity(pool)
      ensures old(pool.cancelled) ==> pool.cancelled && (sent ==> !slot.takeDone)
    {
      Interfere(slot.others);
      sent := !(pool.cancelled && slot.takeDone) && |pool.queue| < Capacity(pool);
      if sent {
        SendNext();
      }
    }

    /** The selects of one pass, until one does not send. */
    method SendWhilePossible(tenants: seq<Job>, selects: Selects) returns (n: nat)
      requires Inv(pool) && !pool.returned && pool.dispatcher == Passing(tenants, 0)
      modifies this`pool
      ensures Inv(pool) && !pool.returned && n <= |tenants| && pool.dispatcher == Passing(tenants, n)
      ensures pool.sent == old(pool.sent) + tenants[..n]
      ensures n < |tenants| ==> (pool.cancelled && selects(n).takeDone) || |pool.queue| >= Capacity(pool)
      ensures old(pool.cancelled) ==> pool.cancelled && forall i :: 0 <= i < n ==> !selects(i).takeDone
      ensures |pool.workers| == old(|pool.workers|)
    {
      n := 0;
      ghost var before := pool.sent;
      assert before + tenants[..0] == before;
      while n < |tenants|
        invariant n <= |tenants|
        invariant Inv(pool) && !pool.returned && pool.dispatcher == Passing(tenants, n)
        invariant pool.sent == before + tenants[..n]
        invariant |pool.workers| == old(|pool.workers|)
        invariant old(pool.cancelled) ==> pool.cancelled && forall i :: 0 <= i < n ==> !selects(i).takeDone
      {
        var sent := SelectOnce(tenants, n, selects(n));
        if !sent {
          return;
        }
        PrefixGrows(before, tenants, n);
        n := n + 1;
      }
    }

    /** One dispatch pass over a snapshot of the tenants. It sends exactly the first `n` of them,
        in order, and stops early only on cancellation or with the queue full. */
    method EnqueueTenantJobs(selects: Selects) returns (n: nat)
      requires Consistent() && !pool.returned && (pool.dispatcher.Starting? || pool.dispatcher.Waiting?)
      modifies this
      ensures Consistent() && !pool.returned && pool.dispatcher.Waiting?
      ensures n <= |old(pool.tenants)| && passes == old(passes) + [Pass(old(pool.tenants), n, old(pool.cancelled))]
      ensures pool.sent == old(pool.sent) + old(pool.tenants)[..n]
      ensures n < |old(pool.tenants)| ==>
                || (pool.cancelled && selects(n).takeDone)
                || |pool.queue| == if |pool.workers| == 0 then 1 else 8 * |pool.workers|
      ensures old(pool.cancelled) ==> pool.cancelled && forall i :: 0 <= i < n ==> !selects(i).takeDone
      ensures |pool.workers| == old(|pool.workers|)
    {
      var tenants := pool.tenants;
      ghost var cancelled := pool.cancelled;
      Step(StartPass);
      n := SendWhilePossible(tenants, selects);
      Step(EndPass);
      passes := passes + [Pass(tenants, n, cancelled)];
    }

    /** A pass, told by what was sent before it. */
    method MakePass(selects: Selects, ghost first: nat, ghost before: seq<Job>)
      requires Consistent() && !pool.returned && (pool.dispatcher.Starting? || pool.dispatcher.Waiting?)
      requires first <= |passes| && pool.sent == before + SentBy(passes[first..])
      modifies this
      ensures Consistent() && !pool.returned && pool.dispatcher.Waiting?
      ensures |passes| == old(|passes|) + 1 && old(passes) <= passes
      ensures passes[old(|passes|)].snapshot == old(pool.tenants)
      ensures passes[old(|passes|)].cancelled == old(pool.cancelled)
      ensures old(pool.cancelled) ==> pool.cancelled
      ensures pool.sent == before + SentBy(passes[first..])
    {
      var n := EnqueueTenantJobs(selects);
      assert passes[first..][..|passes| - 1 - first] == old(passes)[first..];
    }

    /** One select of the dispatcher: Done if it is taken, else a pass. */
    method DispatchOnce(tick: Slot, selects: Selects, ghost first: nat, ghost before: seq<Job>) returns (closed: bool)
      requires Consistent() && !pool.returned && pool.dispatcher.Waiting?
      requires first <= |passes| && pool.sent == before + SentBy(passes[first..])
      modifies this
      ensures Consistent()
      ensures closed <==> AfterOthers(old(pool), tick.others).cancelled && tick.takeDone
      ensures closed ==> pool.dispatcher.Closed? && pool.cancelled && tick.takeDone && passes == old(passes)
      ensures !closed ==>
                && !pool.returned && pool.dispatcher.Waiting? && |passes| == old(|passes|) + 1
                && old(passes) <= passes && !(passes[old(|passes|)].cancelled && tick.takeDone)
                && passes[old(|passes|)].snapshot == AfterOthers(old(pool), tick.others).tenants
      ensures pool.sent == before + SentBy(passes[first..])
    {
      Interfere(tick.others);
      closed := pool.cancelled && tick.takeDone;
      if closed {
        Step(CloseQueue);
      } else {
        MakePass(selects, first, before);
      }
    }

    /** The dispatcher: a first pass at once and one more for each tick it takes; it closes the
        channel when it stops, and it stops exactly when it takes the Done case, which is ready
        once the context is cancelled. What it has sent is what its passes have sent. */
    method DispatchLoop(first: Selects, ticks: seq<(Slot, Selects)>) returns (closed: bool, taken: nat)
      requires Consistent() && !pool.returned && pool.dispatcher.Starting?
      modifies this
      ensures Consistent()
      ensures |passes| == old(|passes|) + 1 + taken && old(passes) <= passes
      ensures passes[old(|passes|)].snapshot == old(pool.tenants)
      ensures pool.sent == old(pool.sent) + SentBy(passes[old(|passes|)..])
      ensures closed ==> pool.dispatcher.Closed? && pool.cancelled && taken < |ticks| && ticks[taken].0.takeDone
      ensures !closed ==> pool.dispatcher.Waiting? && taken == |ticks|
      ensures forall i :: 0 <= i < taken ==> !(passes[old(|passes|) + 1 + i].cancelled && ticks[i].0.takeDone)
    {
      ghost var start, before := |passes|, pool.sent;
      MakePass(first, start, before);
      taken := 0;
      while taken < |ticks|
        invariant taken <= |ticks|
        invariant Consistent() && !pool.returned && pool.dispatcher.Waiting?
        invariant |passes| == start + 1 + taken && old(passes) <= passes
        invariant passes[start].snapshot == old(pool.tenants)
        invariant pool.sent == before + SentBy(passes[start..])
        invariant forall i :: 0 <= i < taken ==> !(passes[start + 1 + i].cancelled && ticks[i].0.takeDone)
      {
        closed := DispatchOnce(ticks[taken].0, ticks[taken].1, start, before);
        if closed {
          return true, taken;
        }
        taken := taken + 1;
      }
      return false, taken;
    }
  }
}
