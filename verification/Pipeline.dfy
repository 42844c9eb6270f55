/** The event-processing pipeline: a chain of OverlappedEventHandler stages, each farming its buffers out
    to a ThreadPool (src/base/OverlappedEventHandler.tpp, src/base/ThreadPool.cpp).

    The program is a step system. One step is what one thread does between two points where another
    thread can intervene: taking a mutex, one test or update made while holding it, falling asleep on a
    condition variable (which gives the mutex back), or one unit of lock-free work. Mutexes and wait sets
    are explicit, a signal wakes one sleeper of the scheduler's choosing, and sleepers may also wake
    spuriously. */
module Pipeline {
  import opened Options

  /** What a stage receives and emits. Its content is never inspected here. */
  type Buffer = seq<int>

  /** The job made for the index-th buffer pushed into a stage. */
  datatype JobId = JobId(stage: nat, index: nat)

  datatype Thread = MainThread | WorkerThread(t: nat)

  /** Who is responsible for a job next: its pool's queue, one worker thread, or nobody any more. */
  datatype Owner = Waiting | Taken(t: nat) | Released

  /** A ThreadPool::Job together with the OverlappedEventHandler::Worker that it runs. */
  datatype Job = Job(input: Buffer, out: Option<Buffer>, finished: bool, lock: Option<Thread>, owner: Owner)

  datatype Pool = Pool(queue: seq<JobId>, lock: Option<Thread>, die: bool, nClients: nat)

  /** Where a pool thread stands in ThreadPool::Worker::run. */
  datatype WorkerPc =
    | Acquire                   // about to lock the pool
    | TestDie                   // holds the pool lock, at while(!die)
    | TestQueue                 // holds the pool lock, at if(queue.size() == 0)
    | Asleep                    // in the wait set of condJobQueued
    | Start(job: JobId)         // has popped job and given the lock back
    | Run(job: JobId)           // inside handleEvents
    | Finish(job: JobId)        // about to lock the job
    | SetFlag(job: JobId)       // holds the job lock
    | Unlock(job: JobId)        // has set finished and signalled, still holds the job lock
    | Exited

  /** Where the main thread stands in the activation of one stage's pushEvents or finish. */
  datatype StagePc =
    | Idle
    | LockPool                  // queueJob: about to lock the pool
    | TestRoom                  // queueJob: holds the pool lock, at while(queue.size() >= maxQueueSize)
    | AwaitRoom                 // queueJob: in the wait set of condJobStarted
    | Poll                      // pushEvents: at while(workers.size() > 0 && ...)
    | Polled(job: JobId)        // isFinished: holds the job lock
    | Drain                     // finish: at while(workers.size() > 0)
    | LockJob(job: JobId)       // wait: about to lock the job
    | TestDone(job: JobId)      // wait: holds the job lock, at while(!finished)
    | AwaitDone(job: JobId)     // wait: in the wait set of condJobFinished
    | Hand(job: JobId)          // about to call sink->pushEvents(outBuffer)
    | InSink(job: JobId)        // inside that call, or just back from it

  /** What the program around the pipeline is doing: pushing the reader's buffers, running finish() (at
      the given stage), or destroying the stages one by one. */
  datatype Phase =
    | Feeding
    | Finishing(stage: nat)
    | Closing(stage: nat)           // clientDecrease of the stage's pool
    | CloseDie(stage: nat)          // about to set die, without the lock
    | CloseBroadcast(stage: nat)    // about to broadcast condJobQueued under the lock
    | CloseJoin(stage: nat)         // joining the pool's threads
    | Finished

  /** poolOf[k] is the pool of stage k, home[t] the pool of thread t. */
  datatype Config = Config(
    inputs: seq<Buffer>,
    poolOf: seq<nat>,
    maxQueue: seq<nat>,
    home: seq<nat>,
    handle: (nat, Buffer) -> Buffer)
  {
    function N(): nat { |poolOf| }

    ghost predicate Valid() {
      && N() >= 1
      && (forall k :: 0 <= k < N() ==> poolOf[k] < |maxQueue|)
      && (forall p :: 0 <= p < |maxQueue| ==> maxQueue[p] >= 1)
      && (forall p :: 0 <= p < |maxQueue| ==> HasWorker(p))
      && (forall t :: 0 <= t < |home| ==> home[t] < |maxQueue|)
      && (forall t :: 0 <= t < |home| ==> ClientsFrom(home[t], 0) >= 1)
    }

    ghost predicate HasWorker(p: nat) {
      exists t :: 0 <= t < |home| && home[t] == p
    }

    /** How many of the stages from k on use pool p. */
    function ClientsFrom(p: nat, k: nat): nat
      decreases |poolOf| - k
    {
      if k >= |poolOf| then 0 else (if poolOf[k] == p then 1 else 0) + ClientsFrom(p, k + 1)
    }

    /** The input as the first k stages transform it, one after the other. */
    function Through(k: nat, b: Buffer): Buffer {
      if k == 0 then b else handle(k - 1, Through(k - 1, b))
    }
  }

  /** received[k] lists what stage k's pushEvents was called with, received[N] what the last sink got;
      begun[k] lists the buffers of stage k in the order their handleEvents started. Both, and the owner
      of a job, only record history: no step tests them. */
  datatype State = State(
    jobs: map<JobId, Job>,
    pools: seq<Pool>,
    workers: seq<WorkerPc>,
    stages: seq<StagePc>,
    deques: seq<seq<JobId>>,
    phase: Phase,
    cur: int,
    fed: nat,
    received: seq<seq<Buffer>>,
    begun: seq<seq<nat>>)

  ghost predicate Shape(c: Config, s: State) {
    && |s.pools| == |c.maxQueue|
    && |s.workers| == |c.home|
    && |s.stages| == |s.deques| == |s.begun| == c.N()
    && |s.received| == c.N() + 1
    && -1 <= s.cur < c.N()
    && s.fed <= |c.inputs|
  }

  function Initial(c: Config): State {
    State(
      map[],
      seq(|c.maxQueue|, p requires 0 <= p < |c.maxQueue| => Pool([], None, false, c.ClientsFrom(p, 0))),
      seq(|c.home|, t => Acquire),
      seq(c.N(), k => Idle),
      seq(c.N(), k => []),
      Feeding, -1, 0,
      seq(c.N() + 1, k => []),
      seq(c.N(), k => []))
  }

  // ---------------------------------------------------------------- pool threads

  ghost predicate WorkerEnabled(c: Config, s: State, t: nat) {
    && c.Valid() && Shape(c, s) && t < |s.workers|
    && match s.workers[t]
       case Acquire => s.pools[c.home[t]].lock == None
       case TestDie => true
       case TestQueue => s.pools[c.home[t]].queue != [] ==> s.pools[c.home[t]].queue[0] in s.jobs
       case Start(j) => j.stage < c.N()
       case Run(j) => j in s.jobs
       case Finish(j) => j in s.jobs && s.jobs[j].lock == None
       case SetFlag(j) => j in s.jobs
       case Unlock(j) => j in s.jobs
       case Asleep => false
       case Exited => false
  }

  /** The signal on condJobStarted: only the main thread can be waiting there. */
  function WakeForRoom(c: Config, s: State, p: nat): seq<StagePc> {
    if 0 <= s.cur < |s.stages| && s.cur < |c.poolOf| && s.stages[s.cur] == AwaitRoom && c.poolOf[s.cur] == p
    then s.stages[s.cur := LockPool]
    else s.stages
  }

  /** The signal on a job's condJobFinished. */
  function WakeForDone(s: State, j: JobId): seq<StagePc> {
    if 0 <= s.cur < |s.stages| && s.stages[s.cur] == AwaitDone(j)
    then s.stages[s.cur := LockJob(j)]
    else s.stages
  }

  function WorkerStep(c: Config, s: State, t: nat): State
    requires WorkerEnabled(c, s, t)
  {
    var p := c.home[t];
    match s.workers[t]
    case Acquire =>
      s.(pools := s.pools[p := s.pools[p].(lock := Some(WorkerThread(t)))], workers := s.workers[t := TestDie])
    case TestDie =>
      if s.pools[p].die then
        s.(pools := s.pools[p := s.pools[p].(lock := None)], workers := s.workers[t := Exited])
      else
        s.(workers := s.workers[t := TestQueue])
    case TestQueue =>
      if s.pools[p].queue == [] then
        s.(pools := s.pools[p := s.pools[p].(lock := None)], workers := s.workers[t := Asleep])
      else
        var j := s.pools[p].queue[0];
        s.(pools := s.pools[p := s.pools[p].(queue := s.pools[p].queue[1..], lock := None)],
           jobs := s.jobs[j := s.jobs[j].(owner := Taken(t))],
           workers := s.workers[t := Start(j)],
           stages := WakeForRoom(c, s, p))
    case Start(j) =>
      s.(workers := s.workers[t := Run(j)], begun := s.begun[j.stage := s.begun[j.stage] + [j.index]])
    case Run(j) =>
      s.(jobs := s.jobs[j := s.jobs[j].(out := Some(c.handle(j.stage, s.jobs[j].input)))],
         workers := s.workers[t := Finish(j)])
    case Finish(j) =>
      s.(jobs := s.jobs[j := s.jobs[j].(lock := Some(WorkerThread(t)))], workers := s.workers[t := SetFlag(j)])
    case SetFlag(j) =>
      s.(jobs := s.jobs[j := s.jobs[j].(finished := true)],
         workers := s.workers[t := Unlock(j)],
         stages := WakeForDone(s, j))
    case Unlock(j) =>
      s.(jobs := s.jobs[j := s.jobs[j].(lock := None, owner := Released)], workers := s.workers[t := Acquire])
  }

  // ---------------------------------------------------------------- main thread

  ghost predicate MainEnabled(c: Config, s: State) {
    && c.Valid() && Shape(c, s)
    && if s.cur >= 0 then StageEnabled(c, s, s.cur) else OutsideEnabled(c, s)
  }

  ghost predicate StageEnabled(c: Config, s: State, k: nat)
    requires c.Valid() && Shape(c, s) && k < c.N()
  {
    match s.stages[k]
    case Idle => false
    case LockPool => s.pools[c.poolOf[k]].lock == None
    case TestRoom => s.received[k] != []
    case AwaitRoom => false
    case Poll => s.deques[k] != [] ==> s.deques[k][0] in s.jobs && s.jobs[s.deques[k][0]].lock == None
    case Polled(j) => j in s.jobs && s.deques[k] != []
    case Drain => true
    case LockJob(j) => j in s.jobs && s.jobs[j].lock == None
    case TestDone(j) => j in s.jobs
    case AwaitDone(j) => false
    case Hand(j) => j in s.jobs
    case InSink(j) => j in s.jobs
  }

  ghost predicate OutsideEnabled(c: Config, s: State)
    requires c.Valid() && Shape(c, s)
  {
    match s.phase
    case Feeding => true
    case Finishing(k) => false
    case Closing(k) => k <= c.N()
    case CloseDie(k) => k < c.N()
    case CloseBroadcast(k) => k < c.N() && s.pools[c.poolOf[k]].lock == None
    case CloseJoin(k) =>
      k < c.N() && forall t :: 0 <= t < |s.workers| && c.home[t] == c.poolOf[k] ==> s.workers[t] == Exited
    case Finished => false
  }

  /** sink->pushEvents(b) on stage k, or on the last sink; a NULL buffer is ignored. */
  function CallSink(c: Config, s: State, k: nat, b: Option<Buffer>): State
    requires Shape(c, s) && k <= c.N()
  {
    match b
    case None => s
    case Some(buffer) =>
      var s1 := s.(received := s.received[k := s.received[k] + [buffer]]);
      if k < c.N() then s1.(stages := s.stages[k := LockPool], cur := k) else s1
  }

  /** The signal on condJobQueued wakes the sleeper wake, if there is one to wake. */
  ghost predicate GoodWake(c: Config, s: State, p: nat, wake: Option<nat>) {
    match wake
    case Some(t) => t < |s.workers| && t < |c.home| && c.home[t] == p && s.workers[t] == Asleep
    case None => forall t :: 0 <= t < |s.workers| && t < |c.home| && c.home[t] == p ==> s.workers[t] != Asleep
  }

  function Woken(s: State, wake: Option<nat>): seq<WorkerPc> {
    if wake.Some? && wake.value < |s.workers| then s.workers[wake.value := Acquire] else s.workers
  }

  function Return(s: State, k: nat): State
    requires k < |s.stages|
  {
    s.(stages := s.stages[k := Idle], cur := k - 1)
  }

  ghost predicate PicksWaker(c: Config, s: State, wake: Option<nat>) {
    0 <= s.cur < |s.stages| && s.cur < |c.poolOf| && s.stages[s.cur] == TestRoom
    ==> GoodWake(c, s, c.poolOf[s.cur], wake)
  }

  function MainStep(c: Config, s: State, wake: Option<nat>): State
    requires MainEnabled(c, s)
  {
    if s.cur >= 0 then StageStep(c, s, s.cur, wake) else OutsideStep(c, s)
  }

  function StageStep(c: Config, s: State, k: nat, wake: Option<nat>): State
    requires c.Valid() && Shape(c, s) && k < c.N() && StageEnabled(c, s, k)
  {
    var p := c.poolOf[k];
    match s.stages[k]
    case LockPool =>
      s.(pools := s.pools[p := s.pools[p].(lock := Some(MainThread))], stages := s.stages[k := TestRoom])
    case TestRoom =>
      if |s.pools[p].queue| >= c.maxQueue[p] then
        s.(pools := s.pools[p := s.pools[p].(lock := None)], stages := s.stages[k := AwaitRoom])
      else
        var i := |s.received[k]| - 1;
        var j := JobId(k, i);
        s.(jobs := s.jobs[j := Job(s.received[k][i], None, false, None, Waiting)],
           pools := s.pools[p := s.pools[p].(queue := s.pools[p].queue + [j], lock := None)],
           workers := Woken(s, wake),
           deques := s.deques[k := s.deques[k] + [j]],
           stages := s.stages[k := Poll])
    case Poll =>
      if s.deques[k] == [] then Return(s, k)
      else
        var j := s.deques[k][0];
        s.(jobs := s.jobs[j := s.jobs[j].(lock := Some(MainThread))], stages := s.stages[k := Polled(j)])
    case Polled(j) =>
      var s1 := s.(jobs := s.jobs[j := s.jobs[j].(lock := None)]);
      if s.jobs[j].finished then
        s1.(deques := s.deques[k := s.deques[k][1..]], stages := s.stages[k := LockJob(j)])
      else Return(s1, k)
    case Drain =>
      if s.deques[k] != [] then
        s.(deques := s.deques[k := s.deques[k][1..]], stages := s.stages[k := LockJob(s.deques[k][0])])
      else if k + 1 < c.N() then
        s.(stages := s.stages[k := Idle][k + 1 := Drain], phase := Finishing(k + 1), cur := k + 1)
      else
        s.(stages := s.stages[k := Idle], phase := Closing(0), cur := -1)
    case LockJob(j) =>
      s.(jobs := s.jobs[j := s.jobs[j].(lock := Some(MainThread))], stages := s.stages[k := TestDone(j)])
    case TestDone(j) =>
      s.(jobs := s.jobs[j := s.jobs[j].(lock := None)],
         stages := s.stages[k := if s.jobs[j].finished then Hand(j) else AwaitDone(j)])
    case Hand(j) =>
      CallSink(c, s.(stages := s.stages[k := InSink(j)]), k + 1, s.jobs[j].out)
    case InSink(j) =>
      s.(jobs := s.jobs - {j}, stages := s.stages[k := if s.phase == Finishing(k) then Drain else Poll])
  }

  function OutsideStep(c: Config, s: State): State
    requires c.Valid() && Shape(c, s) && OutsideEnabled(c, s)
  {
    match s.phase
    case Feeding =>
      if s.fed < |c.inputs| then CallSink(c, s.(fed := s.fed + 1), 0, Some(c.inputs[s.fed]))
      else s.(phase := Finishing(0), stages := s.stages[0 := Drain], cur := 0)
    case Closing(k) =>
      if k == c.N() then s.(phase := Finished)
      else
        var p := c.poolOf[k];
        var left := if s.pools[p].nClients > 1 then s.pools[p].nClients - 1 else 0;
        s.(pools := s.pools[p := s.pools[p].(nClients := left)],
           phase := if left > 0 then Closing(k + 1) else CloseDie(k))
    case CloseDie(k) =>
      var p := c.poolOf[k];
      s.(pools := s.pools[p := s.pools[p].(die := true)], phase := CloseBroadcast(k))
    case CloseBroadcast(k) =>
      s.(workers := seq(|s.workers|, t requires 0 <= t < |s.workers| && t < |c.home| =>
           if c.home[t] == c.poolOf[k] && s.workers[t] == Asleep then Acquire else s.workers[t]),
         phase := CloseJoin(k))
    case CloseJoin(k) => s.(phase := Closing(k + 1))
  }

  // ---------------------------------------------------------------- runs

  /** Who moves next; a Spurious step is a wake-up that no signal caused. */
  datatype Move = MainMove(wake: Option<nat>) | WorkerMove(t: nat) | SpuriousWorker(t: nat) | SpuriousMain

  ghost predicate Enabled(c: Config, s: State, m: Move) {
    match m
    case MainMove(wake) => MainEnabled(c, s) && PicksWaker(c, s, wake)
    case WorkerMove(t) => WorkerEnabled(c, s, t)
    case SpuriousWorker(t) => c.Valid() && Shape(c, s) && t < |s.workers| && s.workers[t] == Asleep
    case SpuriousMain => c.Valid() && Shape(c, s) && s.cur >= 0
                         && (s.stages[s.cur].AwaitRoom? || s.stages[s.cur].AwaitDone?)
  }

  ghost function Step(c: Config, s: State, m: Move): State
    requires Enabled(c, s, m)
  {
    match m
    case MainMove(wake) => MainStep(c, s, wake)
    case WorkerMove(t) => WorkerStep(c, s, t)
    case SpuriousWorker(t) => s.(workers := s.workers[t := Acquire])
    case SpuriousMain =>
      s.(stages := s.stages[s.cur := if s.stages[s.cur].AwaitRoom? then LockPool else LockJob(s.stages[s.cur].job)])
  }

  /** The schedule ms can be followed from s and ends in s'. */
  ghost predicate Runs(c: Config, s: State, ms: seq<Move>, s': State)
    decreases |ms|
  {
    if ms == [] then s' == s
    else Enabled(c, s, ms[0]) && Runs(c, Step(c, s, ms[0]), ms[1..], s')
  }
}
