/** What every interleaving of the pipeline keeps: mutual exclusion, no use of a deleted job, queue
    bound, FIFO order, no lost wake-up, and delivery of exactly the handled buffers in push order.
    Each part of the invariant names the fields it depends on, so that a step which leaves them alone
    keeps the part at no cost. */
module PipelineSafety {
  import opened Options
  import opened Pipeline

  // ---------------------------------------------------------------- main thread

  /** A stage that has been called but whose job is not queued yet. */
  function Pending(pc: StagePc): nat {
    if pc.LockPool? || pc.TestRoom? || pc.AwaitRoom? then 1 else 0
  }

  /** A stage that has popped a worker whose output it has not handed on yet. */
  predicate Extracting(pc: StagePc) {
    pc.LockJob? || pc.TestDone? || pc.AwaitDone? || pc.Hand?
  }

  ghost predicate Closed(ph: Phase) {
    ph.Closing? || ph.CloseDie? || ph.CloseBroadcast? || ph.CloseJoin? || ph.Finished?
  }

  /** The call stack: stages below cur wait inside their sink, stages above it are not active. */
  ghost predicate Control(c: Config, stages: seq<StagePc>, deques: seq<seq<JobId>>, phase: Phase, cur: int, fed: nat)
    requires |stages| == |deques| == c.N() && -1 <= cur < c.N()
  {
    && (forall k :: cur < k < c.N() ==> stages[k] == Idle)
    && (cur >= 0 ==> stages[cur] != Idle)
    && match phase
       case Feeding =>
         && (forall k :: 0 <= k < cur ==> stages[k].InSink?)
         && (cur >= 0 ==> !stages[cur].Drain?)
       case Finishing(b) =>
         && b <= cur && fed == |c.inputs|
         && (forall k :: 0 <= k < b ==> stages[k] == Idle && deques[k] == [])
         && (forall k :: b <= k < cur ==> stages[k].InSink?)
         && (stages[cur].Drain? ==> cur == b)
         && (cur == b ==> !stages[b].Poll? && !stages[b].Polled? && Pending(stages[b]) == 0)
       case _ =>
         && cur == -1 && fed == |c.inputs|
         && (forall k :: 0 <= k < c.N() ==> deques[k] == [])
  }

  /** Each sink has received exactly what the stage before it made of its own first buffers, in order. */
  ghost predicate DataFlow(c: Config, received: seq<seq<Buffer>>, fed: nat)
    requires |received| == c.N() + 1 && fed <= |c.inputs|
  {
    && received[0] == c.inputs[..fed]
    && forall k :: 0 <= k < c.N() ==> Relays(c, k, received[k], received[k + 1])
  }

  ghost predicate Relays(c: Config, k: nat, from: seq<Buffer>, to: seq<Buffer>) {
    && |to| <= |from|
    && forall i :: 0 <= i < |to| ==> to[i] == c.handle(k, from[i])
  }

  /** Stage k's deque holds the jobs that are queued and not yet extracted, oldest first; in and out
      count the buffers it received and handed on. */
  ghost predicate DequeOk(k: nat, pc: StagePc, deque: seq<JobId>, in_: nat, out: nat) {
    var popped := out + if Extracting(pc) then 1 else 0;
    && |deque| == in_ - Pending(pc) - popped
    && (forall i :: 0 <= i < |deque| ==> deque[i] == JobId(k, popped + i))
    && (pc.Polled? ==> deque != [] && pc.job == deque[0])
    && (Extracting(pc) ==> pc.job == JobId(k, out))
    && (pc.InSink? ==> out > 0 && pc.job == JobId(k, out - 1))
  }

  ghost predicate Deques(c: Config, stages: seq<StagePc>, deques: seq<seq<JobId>>, received: seq<seq<Buffer>>)
    requires |stages| == |deques| == c.N() && |received| == c.N() + 1
  {
    forall k :: 0 <= k < c.N() ==> DequeOk(k, stages[k], deques[k], |received[k]|, |received[k + 1]|)
  }

  // ---------------------------------------------------------------- jobs

  /** The index-th buffer of a stage has been queued and its Worker object has not been deleted. */
  predicate LiveIndex(pc: StagePc, in_: nat, out: nat, index: nat) {
    out - (if pc.InSink? then 1 else 0) <= index < in_ - Pending(pc)
  }

  ghost predicate IsLive(c: Config, stages: seq<StagePc>, received: seq<seq<Buffer>>, j: JobId)
    requires |stages| == c.N() && |received| == c.N() + 1
  {
    j.stage < c.N() && LiveIndex(stages[j.stage], |received[j.stage]|, |received[j.stage + 1]|, j.index)
  }

  ghost predicate Domain(c: Config, jobs: map<JobId, Job>, stages: seq<StagePc>, received: seq<seq<Buffer>>)
    requires |stages| == c.N() && |received| == c.N() + 1
  {
    forall j :: j in jobs <==> IsLive(c, stages, received, j)
  }

  /** A job carries its stage's buffer, and an output only if it is what the stage makes of it. */
  ghost predicate JobData(c: Config, j: JobId, job: Job, received: seq<seq<Buffer>>) {
    && j.stage < c.N() && j.stage < |received| && j.index < |received[j.stage]|
    && job.input == received[j.stage][j.index]
    && (job.out.Some? ==> job.out.value == c.handle(j.stage, job.input))
    && (job.finished ==> job.out.Some?)
  }

  ghost predicate Data(c: Config, jobs: map<JobId, Job>, received: seq<seq<Buffer>>) {
    forall j :: j in jobs ==> JobData(c, j, jobs[j], received)
  }

  /** The job that a pool thread has in hand. */
  function Holding(pc: WorkerPc): Option<JobId> {
    match pc
    case Start(j) => Some(j)
    case Run(j) => Some(j)
    case Finish(j) => Some(j)
    case SetFlag(j) => Some(j)
    case Unlock(j) => Some(j)
    case _ => None
  }

  /** A thread that has a job in hand owns it, and the job is alive and as far as the thread is. */
  ghost predicate WorkerOk(c: Config, jobs: map<JobId, Job>, t: nat, pc: WorkerPc) {
    Holding(pc).Some? ==>
      var j := Holding(pc).value;
      && j in jobs && jobs[j].owner == Taken(t)
      && j.stage < c.N() && t < |c.home| && c.poolOf[j.stage] == c.home[t]
      && (jobs[j].out.Some? <==> (pc.Finish? || pc.SetFlag? || pc.Unlock?))
      && (jobs[j].finished <==> pc.Unlock?)
      && (jobs[j].lock == Some(WorkerThread(t)) <==> (pc.SetFlag? || pc.Unlock?))
  }

  ghost predicate Workers(c: Config, jobs: map<JobId, Job>, workers: seq<WorkerPc>) {
    forall t :: 0 <= t < |workers| ==> WorkerOk(c, jobs, t, workers[t])
  }

  /** A job in nobody's hands is either queued and untouched, or finished. */
  ghost predicate OwnerOk(job: Job, j: JobId, workers: seq<WorkerPc>) {
    && (job.owner == Waiting ==> !job.finished && job.out == None)
    && (job.owner == Released ==> job.finished)
    && (job.owner.Taken? ==> job.owner.t < |workers| && Holding(workers[job.owner.t]) == Some(j))
    && (job.lock.Some? && job.lock.value.WorkerThread? ==> job.owner == Taken(job.lock.value.t))
  }

  ghost predicate Owners(jobs: map<JobId, Job>, workers: seq<WorkerPc>) {
    forall j :: j in jobs ==> OwnerOk(jobs[j], j, workers)
  }

  /** The job whose mutex the main thread holds. */
  function MainJob(stages: seq<StagePc>, cur: int): Option<JobId> {
    if 0 <= cur < |stages| && (stages[cur].Polled? || stages[cur].TestDone?) then Some(stages[cur].job) else None
  }

  ghost predicate MainJobLock(jobs: map<JobId, Job>, held: Option<JobId>) {
    && (held.Some? ==> held.value in jobs)
    && forall j :: j in jobs ==> (jobs[j].lock == Some(MainThread) <==> held == Some(j))
  }

  // ---------------------------------------------------------------- pools

  predicate WorkerHolds(pc: WorkerPc) { pc.TestDie? || pc.TestQueue? }

  /** The pool whose mutex the main thread holds. */
  function MainPool(c: Config, stages: seq<StagePc>, cur: int): Option<nat> {
    if 0 <= cur < |stages| && cur < c.N() && stages[cur].TestRoom? then Some(c.poolOf[cur]) else None
  }

  /** A pool's mutex is held exactly by the thread that is inside its critical section. */
  ghost predicate PoolLock(c: Config, p: nat, lock: Option<Thread>, workers: seq<WorkerPc>, main: Option<nat>) {
    && (lock == Some(MainThread) <==> main == Some(p))
    && (lock.Some? && lock.value.WorkerThread? ==>
          var t := lock.value.t; t < |workers| && t < |c.home| && c.home[t] == p && WorkerHolds(workers[t]))
    && (forall t :: 0 <= t < |workers| && t < |c.home| && c.home[t] == p && WorkerHolds(workers[t]) ==>
          lock == Some(WorkerThread(t)))
  }

  ghost predicate PoolLocks(c: Config, pools: seq<Pool>, workers: seq<WorkerPc>, main: Option<nat>) {
    forall p :: 0 <= p < |pools| ==> PoolLock(c, p, pools[p].lock, workers, main)
  }

  /** A queue is never longer than its bound and keeps each stage's jobs in push order. */
  ghost predicate QueueOk(c: Config, p: nat, q: seq<JobId>) {
    && p < |c.maxQueue| && |q| <= c.maxQueue[p]
    && (forall a :: 0 <= a < |q| ==> q[a].stage < c.N() && c.poolOf[q[a].stage] == p)
    && (forall a, b :: 0 <= a < b < |q| && q[a].stage == q[b].stage ==> q[a].index < q[b].index)
  }

  ghost predicate Queues(c: Config, pools: seq<Pool>) {
    forall p :: 0 <= p < |pools| ==> QueueOk(c, p, pools[p].queue)
  }

  /** Exactly the jobs still waiting are in a queue, each in its own stage's pool. */
  ghost predicate Queued(c: Config, pools: seq<Pool>, jobs: map<JobId, Job>)
    requires c.Valid() && |pools| == |c.maxQueue|
  {
    && (forall p, a :: 0 <= p < |pools| && 0 <= a < |pools[p].queue| ==>
          pools[p].queue[a] in jobs && jobs[pools[p].queue[a]].owner == Waiting)
    && (forall j :: j in jobs && jobs[j].owner == Waiting ==>
          j.stage < c.N() && j in pools[c.poolOf[j.stage]].queue)
  }

  ghost predicate Awake(pc: WorkerPc) { !pc.Asleep? && !pc.Exited? }

  ghost predicate SomeAwake(c: Config, workers: seq<WorkerPc>, p: nat) {
    exists t :: 0 <= t < |workers| && t < |c.home| && c.home[t] == p && Awake(workers[t])
  }

  /** No wake-up of a pool thread is lost. */
  ghost predicate Wakeful(c: Config, pools: seq<Pool>, workers: seq<WorkerPc>) {
    forall p :: 0 <= p < |pools| && pools[p].queue != [] ==> SomeAwake(c, workers, p)
  }

  /** The main thread sleeps only while the queue is full, or the job unfinished: no wake-up is lost. */
  ghost predicate RoomWait(c: Config, stages: seq<StagePc>, cur: int, pools: seq<Pool>) {
    (&& 0 <= cur < |stages| && cur < c.N() && c.poolOf[cur] < |pools| && c.poolOf[cur] < |c.maxQueue|
     && stages[cur].AwaitRoom?)
    ==> |pools[c.poolOf[cur]].queue| >= c.maxQueue[c.poolOf[cur]]
  }

  ghost predicate DoneWait(stages: seq<StagePc>, cur: int, jobs: map<JobId, Job>) {
    0 <= cur < |stages| && stages[cur].AwaitDone? ==> stages[cur].job in jobs && !jobs[stages[cur].job].finished
  }

  /** What is handed on, and then deleted, no pool thread can reach any more. */
  ghost predicate Settled(stages: seq<StagePc>, jobs: map<JobId, Job>) {
    forall k :: 0 <= k < |stages| && (stages[k].Hand? || stages[k].InSink?) ==>
      stages[k].job in jobs && jobs[stages[k].job].owner == Released
  }

  /** Pools die only after the last finish() has returned, and threads exit only from a dead pool. */
  ghost predicate Dying(c: Config, pools: seq<Pool>, workers: seq<WorkerPc>, phase: Phase) {
    && (forall p :: 0 <= p < |pools| && pools[p].die ==> Closed(phase))
    && (forall t :: 0 <= t < |workers| && workers[t].Exited? ==>
          t < |c.home| && c.home[t] < |pools| && pools[c.home[t]].die)
  }

  ghost predicate MainInv(c: Config, s: State)
    requires c.Valid() && Shape(c, s)
  {
    && Control(c, s.stages, s.deques, s.phase, s.cur, s.fed)
    && Deques(c, s.stages, s.deques, s.received)
    && Domain(c, s.jobs, s.stages, s.received)
  }

  ghost predicate JobInv(c: Config, jobs: map<JobId, Job>, workers: seq<WorkerPc>, held: Option<JobId>) {
    Workers(c, jobs, workers) && Owners(jobs, workers) && MainJobLock(jobs, held)
  }

  ghost predicate PoolInv(c: Config, pools: seq<Pool>, workers: seq<WorkerPc>, main: Option<nat>) {
    PoolLocks(c, pools, workers, main) && Queues(c, pools) && Wakeful(c, pools, workers)
  }

  /** Everything but the main thread's wait conditions, which a signal may settle a moment later. */
  ghost predicate Core(c: Config, s: State) {
    && c.Valid() && Shape(c, s)
    && MainInv(c, s)
    && DataFlow(c, s.received, s.fed)
    && Data(c, s.jobs, s.received)
    && JobInv(c, s.jobs, s.workers, MainJob(s.stages, s.cur))
    && PoolInv(c, s.pools, s.workers, MainPool(c, s.stages, s.cur))
    && Queued(c, s.pools, s.jobs)
    && Settled(s.stages, s.jobs)
    && Dying(c, s.pools, s.workers, s.phase)
  }

  ghost predicate Inv(c: Config, s: State) {
    Core(c, s) && RoomWait(c, s.stages, s.cur, s.pools) && DoneWait(s.stages, s.cur, s.jobs)
  }

  // ---------------------------------------------------------------- single updates

  /** One thread moves, and takes, gives back or leaves alone its pool's mutex. */
  lemma PoolStep(c: Config, pools: seq<Pool>, workers: seq<WorkerPc>, main: Option<nat>, t: nat, pool: Pool, pc: WorkerPc)
    requires t < |workers| && t < |c.home| && c.home[t] < |pools| && PoolInv(c, pools, workers, main)
    requires var lock, me := pools[c.home[t]].lock, Some(WorkerThread(t));
      || (lock == pool.lock && WorkerHolds(pc) == WorkerHolds(workers[t]))
      || (lock == None && pool.lock == me && WorkerHolds(pc))
      || (lock == me && pool.lock == None && !WorkerHolds(pc))
    requires Awake(pc) || pool.queue == []
    requires QueueOk(c, c.home[t], pool.queue)
    ensures PoolInv(c, pools[c.home[t] := pool], workers[t := pc], main)
  {
    var pools', workers' := pools[c.home[t] := pool], workers[t := pc];
    forall p | 0 <= p < |pools'|
      ensures PoolLock(c, p, pools'[p].lock, workers', main)
    {
      assert PoolLock(c, p, pools[p].lock, workers, main);
    }
    forall p | 0 <= p < |pools'| && pools'[p].queue != []
      ensures SomeAwake(c, workers', p)
    {
      if p == c.home[t] {
        assert Awake(workers'[t]);
      } else {
        var t' :| 0 <= t' < |workers| && t' < |c.home| && c.home[t'] == p && Awake(workers[t']);
        assert Awake(workers'[t']);
      }
    }
  }

  /** One thread moves with the job it has in hand, or takes up one that was waiting. */
  lemma JobStep(c: Config, jobs: map<JobId, Job>, workers: seq<WorkerPc>, held: Option<JobId>,
                j: JobId, job: Job, t: nat, pc: WorkerPc)
    requires JobInv(c, jobs, workers, held) && j in jobs && t < |workers|
    requires Holding(workers[t]) == Some(j) || (Holding(workers[t]) == None && jobs[j].owner == Waiting)
    requires Holding(pc) == Some(j) || Holding(pc) == None
    requires job.lock == Some(MainThread) <==> jobs[j].lock == Some(MainThread)
    requires WorkerOk(c, jobs[j := job], t, pc) && OwnerOk(job, j, workers[t := pc])
    ensures JobInv(c, jobs[j := job], workers[t := pc], held)
  {
    JobStepWorkers(c, jobs, workers, held, j, job, t, pc);
    JobStepOwners(c, jobs, workers, held, j, job, t, pc);
    hide Workers, Owners, WorkerOk, OwnerOk;
  }

  lemma JobStepWorkers(c: Config, jobs: map<JobId, Job>, workers: seq<WorkerPc>, held: Option<JobId>,
                       j: JobId, job: Job, t: nat, pc: WorkerPc)
    requires JobInv(c, jobs, workers, held) && j in jobs && t < |workers|
    requires Holding(workers[t]) == Some(j) || (Holding(workers[t]) == None && jobs[j].owner == Waiting)
    requires WorkerOk(c, jobs[j := job], t, pc)
    ensures Workers(c, jobs[j := job], workers[t := pc])
  {
    hide Owners, MainJobLock;
    var jobs', workers' := jobs[j := job], workers[t := pc];
    forall t' | 0 <= t' < |workers'|
      ensures WorkerOk(c, jobs', t', workers'[t'])
    {
      assert WorkerOk(c, jobs, t', workers[t']) && WorkerOk(c, jobs, t, workers[t]);
    }
  }

  lemma JobStepOwners(c: Config, jobs: map<JobId, Job>, workers: seq<WorkerPc>, held: Option<JobId>,
                      j: JobId, job: Job, t: nat, pc: WorkerPc)
    requires JobInv(c, jobs, workers, held) && j in jobs && t < |workers|
    requires Holding(workers[t]) == Some(j) || (Holding(workers[t]) == None && jobs[j].owner == Waiting)
    requires OwnerOk(job, j, workers[t := pc])
    ensures Owners(jobs[j := job], workers[t := pc])
  {
    hide Workers, MainJobLock;
    var jobs', workers' := jobs[j := job], workers[t := pc];
    forall i | i in jobs'
      ensures OwnerOk(jobs'[i], i, workers')
    {
      assert i != j ==> OwnerOk(jobs[i], i, workers);
    }
  }

  /** A thread moves with no job in hand. */
  lemma IdleStep(c: Config, jobs: map<JobId, Job>, workers: seq<WorkerPc>, held: Option<JobId>, t: nat, pc: WorkerPc)
    requires JobInv(c, jobs, workers, held) && t < |workers|
    requires Holding(workers[t]) == None && Holding(pc) == None
    ensures JobInv(c, jobs, workers[t := pc], held)
  {
    var workers' := workers[t := pc];
    forall t' | 0 <= t' < |workers'|
      ensures WorkerOk(c, jobs, t', workers'[t'])
    {
      assert WorkerOk(c, jobs, t', workers[t']);
    }
    forall i | i in jobs
      ensures OwnerOk(jobs[i], i, workers')
    {
      assert OwnerOk(jobs[i], i, workers);
    }
  }

  predicate Wakes(pc: StagePc, pc': StagePc) {
    (pc.AwaitRoom? && pc' == LockPool) || (pc.AwaitDone? && pc' == LockJob(pc.job))
  }

  /** Waking the main thread changes nothing but where it stands. */
  lemma WakeControl(c: Config, stages: seq<StagePc>, deques: seq<seq<JobId>>, phase: Phase, cur: int, fed: nat, pc: StagePc)
    requires |stages| == |deques| == c.N() && 0 <= cur < c.N() && Wakes(stages[cur], pc)
    requires Control(c, stages, deques, phase, cur, fed)
    ensures Control(c, stages[cur := pc], deques, phase, cur, fed)
    ensures MainJob(stages[cur := pc], cur) == MainJob(stages, cur)
    ensures MainPool(c, stages[cur := pc], cur) == MainPool(c, stages, cur)
  {
  }

  /** The two places mean the same for what a stage has received, queued and handed on. */
  predicate SameFlow(a: StagePc, b: StagePc) {
    && Pending(a) == Pending(b) && Extracting(a) == Extracting(b) && (a.InSink? <==> b.InSink?) && !b.Polled?
    && (Extracting(a) || a.InSink? ==> a.job == b.job)
  }

  lemma FlowKept(c: Config, stages: seq<StagePc>, stages': seq<StagePc>, deques: seq<seq<JobId>>,
                 received: seq<seq<Buffer>>, jobs: map<JobId, Job>)
    requires |stages| == |stages'| == |deques| == c.N() && |received| == c.N() + 1
    requires Deques(c, stages, deques, received) && Domain(c, jobs, stages, received)
    requires forall k :: 0 <= k < c.N() ==> stages'[k] == stages[k] || SameFlow(stages[k], stages'[k])
    ensures Deques(c, stages', deques, received) && Domain(c, jobs, stages', received)
  {
    forall k | 0 <= k < c.N()
      ensures DequeOk(k, stages'[k], deques[k], |received[k]|, |received[k + 1]|)
    {
      assert DequeOk(k, stages[k], deques[k], |received[k]|, |received[k + 1]|);
    }
    hide DequeOk, Pending, Extracting;
    forall j: JobId
      ensures IsLive(c, stages, received, j) <==> IsLive(c, stages', received, j)
    {
    }
  }

  lemma WakeDeques(c: Config, stages: seq<StagePc>, deques: seq<seq<JobId>>, received: seq<seq<Buffer>>,
                   jobs: map<JobId, Job>, cur: nat, pc: StagePc)
    requires |stages| == |deques| == c.N() && |received| == c.N() + 1 && cur < c.N() && Wakes(stages[cur], pc)
    requires Deques(c, stages, deques, received) && Domain(c, jobs, stages, received) && Settled(stages, jobs)
    ensures Deques(c, stages[cur := pc], deques, received) && Domain(c, jobs, stages[cur := pc], received)
    ensures Settled(stages[cur := pc], jobs)
  {
    hide Deques, Domain;
    FlowKept(c, stages, stages[cur := pc], deques, received, jobs);
  }

  lemma WakeMain(c: Config, s: State, pc: StagePc)
    requires Core(c, s) && s.cur >= 0 && Wakes(s.stages[s.cur], pc)
    ensures Inv(c, s.(stages := s.stages[s.cur := pc]))
  {
    WakeControl(c, s.stages, s.deques, s.phase, s.cur, s.fed, pc);
    WakeDeques(c, s.stages, s.deques, s.received, s.jobs, s.cur, pc);
  }

  /** Rewriting the record of a job that a pool thread can still reach. */
  lemma Touch(c: Config, s: State, j: JobId, job: Job)
    requires c.Valid() && Shape(c, s) && MainInv(c, s) && Data(c, s.jobs, s.received) && Settled(s.stages, s.jobs)
    requires j in s.jobs && s.jobs[j].owner != Released && JobData(c, j, job, s.received)
    ensures var jobs := s.jobs[j := job];
      Domain(c, jobs, s.stages, s.received) && Data(c, jobs, s.received) && Settled(s.stages, jobs)
  {
  }

  lemma StillQueued(c: Config, pools: seq<Pool>, jobs: map<JobId, Job>, j: JobId, job: Job)
    requires c.Valid() && |pools| == |c.maxQueue| && Queued(c, pools, jobs)
    requires j in jobs && jobs[j].owner != Waiting && job.owner != Waiting
    ensures Queued(c, pools, jobs[j := job])
  {
  }

  /** The head of a queue is taken out. */
  lemma PopQueue(c: Config, pools: seq<Pool>, jobs: map<JobId, Job>, p: nat, pool: Pool, job: Job)
    requires c.Valid() && p < |pools| == |c.maxQueue| && Queues(c, pools) && Queued(c, pools, jobs)
    requires pools[p].queue != [] && pool.queue == pools[p].queue[1..] && job.owner != Waiting
    ensures QueueOk(c, p, pool.queue) && Queued(c, pools[p := pool], jobs[pools[p].queue[0] := job])
  {
    var j, q := pools[p].queue[0], pools[p].queue;
    var pools', jobs' := pools[p := pool], jobs[j := job];
    assert QueueOk(c, p, q) && pool.queue == q[1..];
    forall p', a | 0 <= p' < |pools'| && 0 <= a < |pools'[p'].queue|
      ensures pools'[p'].queue[a] in jobs' && jobs'[pools'[p'].queue[a]].owner == Waiting
    {
      var i := pools'[p'].queue[a];
      if p' == p {
        assert i == q[a + 1] && (i.stage == q[0].stage ==> q[0].index < i.index);
      } else {
        assert QueueOk(c, p', pools[p'].queue) && i == pools[p'].queue[a];
      }
    }
    forall i | i in jobs' && jobs'[i].owner == Waiting
      ensures i.stage < c.N() && i in pools'[c.poolOf[i.stage]].queue
    {
      assert i != j && i in pools[c.poolOf[i.stage]].queue;
      assert q == [q[0]] + q[1..];
    }
  }

  // ---------------------------------------------------------------- pool threads

  /** What the invariant says of a thread that has a job in hand. */
  lemma InHand(c: Config, s: State, t: nat)
    requires Inv(c, s) && t < |s.workers| && Holding(s.workers[t]).Some?
    ensures var j := Holding(s.workers[t]).value;
      j in s.jobs && JobData(c, j, s.jobs[j], s.received) && WorkerOk(c, s.jobs, t, s.workers[t])
      && OwnerOk(s.jobs[j], j, s.workers)
  {
    assert WorkerOk(c, s.jobs, t, s.workers[t]);
  }

  lemma HeldLock(c: Config, s: State, t: nat)
    requires Inv(c, s) && t < |s.workers| && WorkerHolds(s.workers[t])
    ensures s.pools[c.home[t]].lock == Some(WorkerThread(t)) && QueueOk(c, c.home[t], s.pools[c.home[t]].queue)
  {
    assert PoolLock(c, c.home[t], s.pools[c.home[t]].lock, s.workers, MainPool(c, s.stages, s.cur));
  }

  lemma QueuedAlive(c: Config, pools: seq<Pool>, jobs: map<JobId, Job>, p: nat)
    requires c.Valid() && p < |pools| == |c.maxQueue| && Queued(c, pools, jobs)
    ensures pools[p].queue != [] ==> jobs != map[]
  {
    if pools[p].queue != [] {
      assert pools[p].queue[0] in jobs;
    }
  }

  /** When the stages are being destroyed there is no job left anywhere. */
  lemma NothingLeft(c: Config, s: State)
    requires Inv(c, s) && Closed(s.phase)
    ensures s.jobs == map[]
    ensures forall p :: 0 <= p < |s.pools| ==> s.pools[p].queue == []
  {
    hide JobInv, PoolInv, DataFlow, Data, Settled, Dying, Queued;
    forall k | 0 <= k < c.N()
      ensures |s.received[k]| == |s.received[k + 1]|
    {
      assert DequeOk(k, s.stages[k], s.deques[k], |s.received[k]|, |s.received[k + 1]|);
    }
    assert forall j :: !IsLive(c, s.stages, s.received, j);
    forall p | 0 <= p < |s.pools|
      ensures s.pools[p].queue == []
    {
      QueuedAlive(c, s.pools, s.jobs, p);
    }
  }

  /** A thread with no job in hand moves, and takes, gives back or leaves alone its pool's mutex. */
  lemma PoolCore(c: Config, s: State, t: nat, lock: Option<Thread>, pc: WorkerPc)
    requires Inv(c, s) && t < |s.workers| && Holding(s.workers[t]) == None && Holding(pc) == None
    requires var was, me := s.pools[c.home[t]].lock, Some(WorkerThread(t));
      || (was == lock && WorkerHolds(pc) == WorkerHolds(s.workers[t]))
      || (was == None && lock == me && WorkerHolds(pc))
      || (was == me && lock == None && !WorkerHolds(pc))
    requires Awake(pc) || s.pools[c.home[t]].queue == []
    requires pc.Exited? ==> s.pools[c.home[t]].die
    ensures var pool := s.pools[c.home[t]].(lock := lock);
      Inv(c, s.(pools := s.pools[c.home[t] := pool], workers := s.workers[t := pc]))
  {
    hide JobInv, Domain, Data, Settled, Control, Deques, DataFlow;
    assert QueueOk(c, c.home[t], s.pools[c.home[t]].queue);
    PoolStep(c, s.pools, s.workers, MainPool(c, s.stages, s.cur), t, s.pools[c.home[t]].(lock := lock), pc);
    IdleStep(c, s.jobs, s.workers, MainJob(s.stages, s.cur), t, pc);
  }

  /** A thread rewrites the record of the job it has in hand. */
  lemma JobCore(c: Config, s: State, t: nat, job: Job, pc: WorkerPc)
    requires Inv(c, s) && t < |s.workers| && Holding(s.workers[t]).Some? && Awake(pc)
    requires !WorkerHolds(pc)
    requires var j := Holding(s.workers[t]).value;
      && (Holding(pc) == Some(j) || (Holding(pc) == None && job.owner == Released))
      && job.owner != Waiting && JobData(c, j, job, s.received)
      && (j in s.jobs ==> (job.lock == Some(MainThread) <==> s.jobs[j].lock == Some(MainThread)))
      && OwnerOk(job, j, s.workers[t := pc]) && WorkerOk(c, s.jobs[j := job], t, pc)
    ensures Core(c, s.(jobs := s.jobs[Holding(s.workers[t]).value := job], workers := s.workers[t := pc]))
  {
    hide JobInv, Queued, Domain, Data, Settled, Control, Deques, DataFlow;
    var j := Holding(s.workers[t]).value;
    InHand(c, s, t);
    PoolStep(c, s.pools, s.workers, MainPool(c, s.stages, s.cur), t, s.pools[c.home[t]], pc);
    assert s.pools[c.home[t] := s.pools[c.home[t]]] == s.pools;
    JobStep(c, s.jobs, s.workers, MainJob(s.stages, s.cur), j, job, t, pc);
    Touch(c, s, j, job);
    StillQueued(c, s.pools, s.jobs, j, job);
  }

  /** The state after a thread has taken the head of its queue, before the main thread is signalled. */
  function Popped(c: Config, s: State, t: nat): State
    requires Shape(c, s) && t < |s.workers| && c.home[t] < |s.pools|
    requires s.pools[c.home[t]].queue != [] && s.pools[c.home[t]].queue[0] in s.jobs
  {
    var p := c.home[t];
    var j := s.pools[p].queue[0];
    s.(pools := s.pools[p := s.pools[p].(queue := s.pools[p].queue[1..], lock := None)],
       jobs := s.jobs[j := s.jobs[j].(owner := Taken(t))],
       workers := s.workers[t := Start(j)])
  }

  lemma QueueHead(c: Config, s: State, p: nat)
    requires Inv(c, s) && p < |s.pools| && s.pools[p].queue != []
    ensures var j := s.pools[p].queue[0];
      j in s.jobs && s.jobs[j].owner == Waiting && j.stage < c.N() && c.poolOf[j.stage] == p
      && OwnerOk(s.jobs[j], j, s.workers) && JobData(c, j, s.jobs[j], s.received)
  {
    assert QueueOk(c, p, s.pools[p].queue);
    assert s.pools[p].queue[0] in s.jobs;
  }

  lemma PopPools(c: Config, s: State, t: nat)
    requires Inv(c, s) && t < |s.workers| && s.workers[t].TestQueue? && s.pools[c.home[t]].queue != []
    requires s.pools[c.home[t]].queue[0] in s.jobs
    ensures var s' := Popped(c, s, t);
      PoolInv(c, s'.pools, s'.workers, MainPool(c, s.stages, s.cur)) && Queued(c, s'.pools, s'.jobs)
  {
    hide JobInv, MainInv, DataFlow, Data, Settled, Dying;
    var p := c.home[t];
    var j, pool := s.pools[p].queue[0], s.pools[p].(queue := s.pools[p].queue[1..], lock := None);
    HeldLock(c, s, t);
    PopQueue(c, s.pools, s.jobs, p, pool, s.jobs[j].(owner := Taken(t)));
    PoolStep(c, s.pools, s.workers, MainPool(c, s.stages, s.cur), t, pool, Start(j));
  }

  lemma PopJobs(c: Config, s: State, t: nat)
    requires Inv(c, s) && t < |s.workers| && s.workers[t].TestQueue? && s.pools[c.home[t]].queue != []
    requires s.pools[c.home[t]].queue[0] in s.jobs
    ensures var s' := Popped(c, s, t);
      && JobInv(c, s'.jobs, s'.workers, MainJob(s.stages, s.cur))
      && Domain(c, s'.jobs, s.stages, s.received) && Data(c, s'.jobs, s.received) && Settled(s.stages, s'.jobs)
  {
    hide PoolInv, Queued, DataFlow, Dying, JobInv, Domain, Data, Settled, Control, Deques;
    var j := s.pools[c.home[t]].queue[0];
    var job := s.jobs[j].(owner := Taken(t));
    QueueHead(c, s, c.home[t]);
    JobStep(c, s.jobs, s.workers, MainJob(s.stages, s.cur), j, job, t, Start(j));
    Touch(c, s, j, job);
  }

  lemma PopCore(c: Config, s: State, t: nat)
    requires Inv(c, s) && t < |s.workers| && s.workers[t].TestQueue? && s.pools[c.home[t]].queue != []
    requires s.pools[c.home[t]].queue[0] in s.jobs
    ensures Core(c, Popped(c, s, t))
  {
    hide JobInv, PoolInv, Queued, Domain, Data, Settled, Control, Deques, DataFlow;
    PopPools(c, s, t);
    PopJobs(c, s, t);
  }

  lemma SignalRoom(c: Config, s: State, p: nat)
    requires Core(c, s) && DoneWait(s.stages, s.cur, s.jobs)
    requires s.cur >= 0 && c.poolOf[s.cur] != p ==> RoomWait(c, s.stages, s.cur, s.pools)
    ensures Inv(c, s.(stages := WakeForRoom(c, s, p)))
  {
    if s.cur >= 0 && s.stages[s.cur] == AwaitRoom && c.poolOf[s.cur] == p {
      WakeMain(c, s, LockPool);
    } else {
      assert s.(stages := WakeForRoom(c, s, p)) == s;
    }
  }

  lemma SignalDone(c: Config, s: State, j: JobId)
    requires Core(c, s) && RoomWait(c, s.stages, s.cur, s.pools)
    requires s.cur >= 0 && s.stages[s.cur] != AwaitDone(j) ==> DoneWait(s.stages, s.cur, s.jobs)
    ensures Inv(c, s.(stages := WakeForDone(s, j)))
  {
    if s.cur >= 0 && s.stages[s.cur] == AwaitDone(j) {
      WakeMain(c, s, LockJob(j));
    } else {
      assert s.(stages := WakeForDone(s, j)) == s;
    }
  }

  lemma KeepsIdle(c: Config, s: State, t: nat)
    requires Inv(c, s) && WorkerEnabled(c, s, t)
    requires s.workers[t].Acquire? || s.workers[t].TestDie?
      || (s.workers[t].TestQueue? && s.pools[c.home[t]].queue == [])
    ensures Inv(c, WorkerStep(c, s, t))
  {
    var p := c.home[t];
    if s.workers[t].Acquire? {
      PoolCore(c, s, t, Some(WorkerThread(t)), TestDie);
    } else {
      HeldLock(c, s, t);
      if s.workers[t].TestQueue? {
        PoolCore(c, s, t, None, Asleep);
      } else if s.pools[p].die {
        NothingLeft(c, s);
        PoolCore(c, s, t, None, Exited);
      } else {
        PoolCore(c, s, t, s.pools[p].lock, TestQueue);
        assert s.pools[p := s.pools[p].(lock := s.pools[p].lock)] == s.pools;
      }
    }
  }

  lemma KeepsPop(c: Config, s: State, t: nat)
    requires Inv(c, s) && WorkerEnabled(c, s, t) && s.workers[t].TestQueue? && s.pools[c.home[t]].queue != []
    ensures Inv(c, WorkerStep(c, s, t))
  {
    hide Core;
    QueueHead(c, s, c.home[t]);
    PopCore(c, s, t);
    SignalRoom(c, Popped(c, s, t), c.home[t]);
  }

  lemma HistoryFree(c: Config, s: State, begun: seq<seq<nat>>)
    requires Core(c, s) && |begun| == c.N()
    ensures Core(c, s.(begun := begun))
  {
  }

  lemma KeepsStart(c: Config, s: State, t: nat)
    requires Inv(c, s) && WorkerEnabled(c, s, t) && s.workers[t].Start?
    ensures Inv(c, WorkerStep(c, s, t))
  {
    hide Core, JobData, WakeForRoom, WakeForDone;
    InHand(c, s, t);
    var j := s.workers[t].job;
    JobCore(c, s, t, s.jobs[j], Run(j));
    assert s.jobs[j := s.jobs[j]] == s.jobs;
    HistoryFree(c, s.(workers := s.workers[t := Run(j)]), s.begun[j.stage := s.begun[j.stage] + [j.index]]);
  }

  lemma KeepsSetFlag(c: Config, s: State, t: nat)
    requires Inv(c, s) && WorkerEnabled(c, s, t) && s.workers[t].SetFlag?
    ensures Inv(c, WorkerStep(c, s, t))
  {
    hide Core, WakeForRoom;
    InHand(c, s, t);
    var j := s.workers[t].job;
    JobCore(c, s, t, s.jobs[j].(finished := true), Unlock(j));
    SignalDone(c, WorkerStep(c, s, t).(stages := s.stages), j);
  }

  lemma KeepsJob(c: Config, s: State, t: nat)
    requires Inv(c, s) && WorkerEnabled(c, s, t) && Holding(s.workers[t]).Some?
    ensures Inv(c, WorkerStep(c, s, t))
  {
    hide Core, WakeForRoom, WakeForDone;
    var j := Holding(s.workers[t]).value;
    match s.workers[t]
    case Start(_) => KeepsStart(c, s, t);
    case SetFlag(_) => KeepsSetFlag(c, s, t);
    case Run(_) =>
      InHand(c, s, t);
      JobCore(c, s, t, s.jobs[j].(out := Some(c.handle(j.stage, s.jobs[j].input))), Finish(j));
    case Finish(_) =>
      InHand(c, s, t);
      JobCore(c, s, t, s.jobs[j].(lock := Some(WorkerThread(t))), SetFlag(j));
    case Unlock(_) =>
      InHand(c, s, t);
      JobCore(c, s, t, s.jobs[j].(lock := None, owner := Released), Acquire);
  }

  /** Whatever a pool thread does next, the invariant survives. */
  lemma WorkerKeeps(c: Config, s: State, t: nat)
    requires Inv(c, s) && WorkerEnabled(c, s, t)
    ensures Inv(c, WorkerStep(c, s, t))
  {
    hide Inv;
    if Holding(s.workers[t]).Some? {
      KeepsJob(c, s, t);
    } else if s.workers[t].TestQueue? && s.pools[c.home[t]].queue != [] {
      KeepsPop(c, s, t);
    } else {
      KeepsIdle(c, s, t);
    }
  }

  // ---------------------------------------------------------------- main thread: single updates

  /** The active stage moves on; its deque and the set of live jobs may change with it. */
  lemma StageMove(c: Config, s: State, pc: StagePc, deque: seq<JobId>, jobs: map<JobId, Job>)
    requires c.Valid() && Shape(c, s) && MainInv(c, s) && s.cur >= 0 && pc != Idle
    requires pc.Drain? ==> s.phase == Finishing(s.cur)
    requires s.phase == Finishing(s.cur) ==> !pc.Poll? && !pc.Polled? && Pending(pc) == 0
    requires DequeOk(s.cur, pc, deque, |s.received[s.cur]|, |s.received[s.cur + 1]|)
    requires forall j :: j in jobs <==>
      if j.stage == s.cur then LiveIndex(pc, |s.received[s.cur]|, |s.received[s.cur + 1]|, j.index) else j in s.jobs
    ensures MainInv(c, s.(stages := s.stages[s.cur := pc], deques := s.deques[s.cur := deque], jobs := jobs))
  {
    StageMoveFlow(c, s, pc, deque, jobs);
    hide Deques, Domain, DequeOk;
  }

  lemma StageMoveFlow(c: Config, s: State, pc: StagePc, deque: seq<JobId>, jobs: map<JobId, Job>)
    requires c.Valid() && Shape(c, s) && MainInv(c, s) && s.cur >= 0
    requires DequeOk(s.cur, pc, deque, |s.received[s.cur]|, |s.received[s.cur + 1]|)
    requires forall j :: j in jobs <==>
      if j.stage == s.cur then LiveIndex(pc, |s.received[s.cur]|, |s.received[s.cur + 1]|, j.index) else j in s.jobs
    ensures Deques(c, s.stages[s.cur := pc], s.deques[s.cur := deque], s.received)
    ensures Domain(c, jobs, s.stages[s.cur := pc], s.received)
  {
    hide Control, LiveIndex;
    var stages, deques := s.stages[s.cur := pc], s.deques[s.cur := deque];
    forall k | 0 <= k < c.N()
      ensures DequeOk(k, stages[k], deques[k], |s.received[k]|, |s.received[k + 1]|)
    {
      assert DequeOk(k, s.stages[k], s.deques[k], |s.received[k]|, |s.received[k + 1]|);
    }
    hide DequeOk;
    forall j: JobId
      ensures j in jobs <==> IsLive(c, stages, s.received, j)
    {
      assert j in s.jobs <==> IsLive(c, s.stages, s.received, j);
    }
  }

  /** The active stage moves on and the live jobs stay the same. */
  lemma StageShift(c: Config, s: State, pc: StagePc, deque: seq<JobId>, jobs: map<JobId, Job>)
    requires c.Valid() && Shape(c, s) && MainInv(c, s) && s.cur >= 0 && pc != Idle
    requires pc.Drain? ==> s.phase == Finishing(s.cur)
    requires s.phase == Finishing(s.cur) ==> !pc.Poll? && !pc.Polled? && Pending(pc) == 0
    requires DequeOk(s.cur, pc, deque, |s.received[s.cur]|, |s.received[s.cur + 1]|)
    requires jobs.Keys == s.jobs.Keys
    requires Pending(pc) == Pending(s.stages[s.cur]) && (pc.InSink? <==> s.stages[s.cur].InSink?)
    ensures MainInv(c, s.(stages := s.stages[s.cur := pc], deques := s.deques[s.cur := deque], jobs := jobs))
  {
    forall j: JobId
      ensures j in jobs <==>
        if j.stage == s.cur then LiveIndex(pc, |s.received[s.cur]|, |s.received[s.cur + 1]|, j.index) else j in s.jobs
    {
      assert j in s.jobs <==> j in s.jobs.Keys;
      assert j in s.jobs <==> IsLive(c, s.stages, s.received, j);
    }
    StageMove(c, s, pc, deque, jobs);
  }

  /** pushEvents returns to the stage before, or to the reader. */
  lemma ReturnMove(c: Config, s: State)
    requires c.Valid() && Shape(c, s) && MainInv(c, s) && s.cur >= 0
    requires s.stages[s.cur].Poll? || s.stages[s.cur].Polled?
    ensures MainInv(c, Return(s, s.cur))
    ensures s.cur > 0 ==> s.stages[s.cur - 1].InSink?
  {
    hide Deques, Domain;
    FlowKept(c, s.stages, s.stages[s.cur := Idle], s.deques, s.received, s.jobs);
  }

  lemma KeysFree(c: Config, s: State, jobs: map<JobId, Job>)
    requires c.Valid() && Shape(c, s) && MainInv(c, s) && jobs.Keys == s.jobs.Keys
    ensures MainInv(c, s.(jobs := jobs))
  {
    assert forall j :: j in s.jobs <==> j in s.jobs.Keys;
  }

  /** The main thread takes or gives back the mutex of a job. */
  lemma MainLocks(c: Config, jobs: map<JobId, Job>, workers: seq<WorkerPc>, held: Option<JobId>, held': Option<JobId>,
                  j: JobId, lock: Option<Thread>)
    requires JobInv(c, jobs, workers, held) && j in jobs
    requires || (jobs[j].lock == None && lock == Some(MainThread) && held == None && held' == Some(j))
             || (held == Some(j) && lock == None && held' == None)
    ensures JobInv(c, jobs[j := jobs[j].(lock := lock)], workers, held')
  {
    var jobs' := jobs[j := jobs[j].(lock := lock)];
    assert OwnerOk(jobs[j], j, workers);
    forall t | 0 <= t < |workers|
      ensures WorkerOk(c, jobs', t, workers[t])
    {
      assert WorkerOk(c, jobs, t, workers[t]);
    }
    forall i | i in jobs'
      ensures OwnerOk(jobs'[i], i, workers)
    {
      assert OwnerOk(jobs[i], i, workers);
    }
  }

  /** The main thread takes or gives back the mutex of a pool, whose queue stays as it is. */
  lemma MainLocksPool(c: Config, pools: seq<Pool>, workers: seq<WorkerPc>, main: Option<nat>, main': Option<nat>,
                      p: nat, lock: Option<Thread>)
    requires PoolInv(c, pools, workers, main) && p < |pools|
    requires || (pools[p].lock == None && lock == Some(MainThread) && main == None && main' == Some(p))
             || (main == Some(p) && lock == None && main' == None)
    ensures PoolInv(c, pools[p := pools[p].(lock := lock)], workers, main')
  {
    var pools' := pools[p := pools[p].(lock := lock)];
    forall q | 0 <= q < |pools'|
      ensures PoolLock(c, q, pools'[q].lock, workers, main')
    {
      assert PoolLock(c, q, pools[q].lock, workers, main);
    }
  }

  // ---------------------------------------------------------------- main thread: steps of a stage

  /** What the invariant says of the active stage. */
  lemma ActiveStage(c: Config, s: State)
    requires Inv(c, s) && s.cur >= 0
    ensures !Closed(s.phase)
    ensures var k := s.cur;
      && s.stages[k] != Idle
      && DequeOk(k, s.stages[k], s.deques[k], |s.received[k]|, |s.received[k + 1]|)
      && (s.stages[k].Drain? ==> s.phase == Finishing(k))
      && (s.phase == Finishing(k) ==> !s.stages[k].Poll? && !s.stages[k].Polled? && Pending(s.stages[k]) == 0)
  {
  }

  lemma ActiveJobs(c: Config, s: State, j: JobId)
    requires Inv(c, s) && s.cur >= 0
    ensures j in s.jobs ==> JobData(c, j, s.jobs[j], s.received) && OwnerOk(s.jobs[j], j, s.workers)
    ensures j.stage == s.cur ==>
      (j in s.jobs <==> LiveIndex(s.stages[s.cur], |s.received[s.cur]|, |s.received[s.cur + 1]|, j.index))
    ensures j in s.jobs && j.stage == s.cur ==> (s.jobs[j].lock == Some(MainThread) <==> MainJob(s.stages, s.cur) == Some(j))
  {
    assert j in s.jobs <==> IsLive(c, s.stages, s.received, j);
  }

  /** The active stage takes the pool lock, or gives it back to sleep until there is room. */
  lemma KeepsPoolLock(c: Config, s: State)
    requires Inv(c, s) && MainEnabled(c, s) && s.cur >= 0
    requires s.stages[s.cur].LockPool?
      || (s.stages[s.cur].TestRoom? && |s.pools[c.poolOf[s.cur]].queue| >= c.maxQueue[c.poolOf[s.cur]])
    ensures Inv(c, StageStep(c, s, s.cur, None))
  {
    hide JobInv, DataFlow, Data, Queued, Control, Deques, Domain;
    ActiveStage(c, s);
    var k, p := s.cur, c.poolOf[s.cur];
    var pc, lock := if s.stages[k].LockPool? then TestRoom else AwaitRoom,
                    if s.stages[k].LockPool? then Some(MainThread) else None;
    StageShift(c, s, pc, s.deques[k], s.jobs);
    assert s.deques[k := s.deques[k]] == s.deques;
    MainLocksPool(c, s.pools, s.workers, MainPool(c, s.stages, k), MainPool(c, s.stages[k := pc], k), p, lock);
    PoolLocksFree(c, s, p, s.pools[p].(lock := lock));
  }

  lemma PoolLocksFree(c: Config, s: State, p: nat, pool: Pool)
    requires Inv(c, s) && p < |s.pools| && pool.queue == s.pools[p].queue && pool.die == s.pools[p].die
    ensures Queued(c, s.pools[p := pool], s.jobs) && Dying(c, s.pools[p := pool], s.workers, s.phase)
  {
  }

  /** A job's record changes in its lock only. */
  lemma LockFree(c: Config, s: State, j: JobId, lock: Option<Thread>)
    requires Inv(c, s) && j in s.jobs
    ensures var jobs := s.jobs[j := s.jobs[j].(lock := lock)];
      && jobs.Keys == s.jobs.Keys && Data(c, jobs, s.received) && Queued(c, s.pools, jobs)
      && Settled(s.stages, jobs)
  {
    hide JobInv, PoolInv, DataFlow, MainInv, Dying;
  }

  /** isFinished and wait take the mutex of a job. */
  lemma KeepsJobLock(c: Config, s: State)
    requires Inv(c, s) && MainEnabled(c, s) && s.cur >= 0
    requires s.stages[s.cur].LockJob? || (s.stages[s.cur].Poll? && s.deques[s.cur] != [])
    ensures Inv(c, StageStep(c, s, s.cur, None))
  {
    hide JobInv, PoolInv, DataFlow, Data, Queued, Control, Deques, Domain, Dying;
    var k := s.cur;
    var j := if s.stages[k].Poll? then s.deques[k][0] else s.stages[k].job;
    var pc := if s.stages[k].Poll? then Polled(j) else TestDone(j);
    var jobs := s.jobs[j := s.jobs[j].(lock := Some(MainThread))];
    ActiveStage(c, s);
    LockFree(c, s, j, Some(MainThread));
    StageShift(c, s, pc, s.deques[k], jobs);
    assert s.deques[k := s.deques[k]] == s.deques;
    MainLocks(c, s.jobs, s.workers, None, Some(j), j, Some(MainThread));
  }

  /** wait gives the mutex of its job back, to go on or to sleep. */
  lemma KeepsTestDone(c: Config, s: State)
    requires Inv(c, s) && MainEnabled(c, s) && s.cur >= 0 && s.stages[s.cur].TestDone?
    ensures Inv(c, StageStep(c, s, s.cur, None))
  {
    hide JobInv, PoolInv, DataFlow, Data, Queued, Control, Deques, Domain, Dying;
    var k, j := s.cur, s.stages[s.cur].job;
    var pc := if s.jobs[j].finished then Hand(j) else AwaitDone(j);
    var jobs := s.jobs[j := s.jobs[j].(lock := None)];
    ActiveStage(c, s);
    LockFree(c, s, j, None);
    StageShift(c, s, pc, s.deques[k], jobs);
    assert s.deques[k := s.deques[k]] == s.deques;
    MainLocks(c, s.jobs, s.workers, Some(j), None, j, None);
    MainHeldJob(c, s, j);
  }

  /** A finished job whose mutex the main thread holds has been let go of by its thread. */
  lemma MainHeldJob(c: Config, s: State, j: JobId)
    requires Inv(c, s) && MainJob(s.stages, s.cur) == Some(j)
    ensures j in s.jobs && (s.jobs[j].finished ==> s.jobs[j].owner == Released)
  {
    assert OwnerOk(s.jobs[j], j, s.workers);
    if s.jobs[j].owner.Taken? {
      assert WorkerOk(c, s.jobs, s.jobs[j].owner.t, s.workers[s.jobs[j].owner.t]);
    }
  }

  /** The front worker is popped, after isFinished said so or because the stage is finishing. */
  lemma KeepsExtract(c: Config, s: State)
    requires Inv(c, s) && MainEnabled(c, s) && s.cur >= 0
    requires (s.stages[s.cur].Polled? && s.stages[s.cur].job in s.jobs && s.jobs[s.stages[s.cur].job].finished)
          || (s.stages[s.cur].Drain? && s.deques[s.cur] != [])
    ensures Inv(c, StageStep(c, s, s.cur, None))
  {
    hide JobInv, PoolInv, DataFlow, Data, Queued, Control, Deques, Domain, Dying;
    var k, j := s.cur, s.deques[s.cur][0];
    ActiveStage(c, s);
    if s.stages[k].Polled? {
      LockFree(c, s, j, None);
      StageShift(c, s, LockJob(j), s.deques[k][1..], s.jobs[j := s.jobs[j].(lock := None)]);
      MainLocks(c, s.jobs, s.workers, Some(j), None, j, None);
    } else {
      StageShift(c, s, LockJob(j), s.deques[k][1..], s.jobs);
    }
  }

  /** pushEvents returns: nothing to extract, or the front worker is not finished. */
  lemma KeepsReturn(c: Config, s: State)
    requires Inv(c, s) && MainEnabled(c, s) && s.cur >= 0
    requires (s.stages[s.cur].Polled? && s.stages[s.cur].job in s.jobs && !s.jobs[s.stages[s.cur].job].finished)
          || (s.stages[s.cur].Poll? && s.deques[s.cur] == [])
    ensures Inv(c, StageStep(c, s, s.cur, None))
  {
    hide JobInv, PoolInv, DataFlow, Data, Queued, Control, Deques, Domain, Dying;
    var k := s.cur;
    ActiveStage(c, s);
    if s.stages[k].Polled? {
      var j := s.stages[k].job;
      LockFree(c, s, j, None);
      ReturnMove(c, s);
      KeysFree(c, Return(s, k), s.jobs[j := s.jobs[j].(lock := None)]);
      MainLocks(c, s.jobs, s.workers, Some(j), None, j, None);
    } else {
      ReturnMove(c, s);
    }
  }

  /** Of the deleted job nothing is left behind. */
  lemma DeleteMove(c: Config, s: State, pc: StagePc)
    requires Inv(c, s) && s.cur >= 0 && s.stages[s.cur].InSink?
    requires pc == if s.phase == Finishing(s.cur) then Drain else Poll
    ensures MainInv(c, s.(stages := s.stages[s.cur := pc], jobs := s.jobs - {s.stages[s.cur].job}))
  {
    hide JobInv, PoolInv, DataFlow, Data, Queued, Dying, Control, Deques, Domain;
    var k, j := s.cur, s.stages[s.cur].job;
    ActiveStage(c, s);
    forall i: JobId
      ensures i in s.jobs - {j} <==>
        if i.stage == k then LiveIndex(pc, |s.received[k]|, |s.received[k + 1]|, i.index) else i in s.jobs
    {
      ActiveJobs(c, s, i);
    }
    StageMove(c, s, pc, s.deques[k], s.jobs - {j});
    assert s.deques[k := s.deques[k]] == s.deques;
  }

  lemma JobsGone(c: Config, jobs: map<JobId, Job>, workers: seq<WorkerPc>, held: Option<JobId>, j: JobId)
    requires JobInv(c, jobs, workers, held) && j in jobs && jobs[j].owner == Released && held != Some(j)
    ensures JobInv(c, jobs - {j}, workers, held)
  {
    forall t | 0 <= t < |workers|
      ensures WorkerOk(c, jobs - {j}, t, workers[t])
    {
      assert WorkerOk(c, jobs, t, workers[t]);
    }
    forall i | i in jobs - {j}
      ensures OwnerOk((jobs - {j})[i], i, workers)
    {
      assert OwnerOk(jobs[i], i, workers);
    }
  }

  lemma OthersStay(c: Config, s: State, pc: StagePc)
    requires Inv(c, s) && s.cur >= 0 && s.stages[s.cur].InSink? && !pc.Hand? && !pc.InSink?
    ensures var jobs := s.jobs - {s.stages[s.cur].job};
      Settled(s.stages[s.cur := pc], jobs) && Data(c, jobs, s.received) && Queued(c, s.pools, jobs)
  {
    hide JobInv, PoolInv, DataFlow, Control, Domain, Dying;
    assert DequeOk(s.cur, s.stages[s.cur], s.deques[s.cur], |s.received[s.cur]|, |s.received[s.cur + 1]|);
    forall k | 0 <= k < c.N() && (s.stages[k].Hand? || s.stages[k].InSink?)
      ensures s.stages[k].job.stage == k
    {
      assert DequeOk(k, s.stages[k], s.deques[k], |s.received[k]|, |s.received[k + 1]|);
    }
  }

  /** The worker is deleted once the sink call has returned. */
  lemma KeepsDelete(c: Config, s: State)
    requires Inv(c, s) && MainEnabled(c, s) && s.cur >= 0 && s.stages[s.cur].InSink?
    ensures Inv(c, StageStep(c, s, s.cur, None))
  {
    hide PoolInv, JobInv, DataFlow, Control, Deques, Domain, Data, Queued, Dying;
    var pc := if s.phase == Finishing(s.cur) then Drain else Poll;
    DeleteMove(c, s, pc);
    JobsGone(c, s.jobs, s.workers, None, s.stages[s.cur].job);
    OthersStay(c, s, pc);
  }

  lemma DrainedMove(c: Config, s: State)
    requires c.Valid() && Shape(c, s) && MainInv(c, s) && s.cur >= 0 && s.stages[s.cur].Drain? && s.deques[s.cur] == []
    ensures var k := s.cur;
      if k + 1 < c.N()
      then MainInv(c, s.(stages := s.stages[k := Idle][k + 1 := Drain], phase := Finishing(k + 1), cur := k + 1))
      else MainInv(c, s.(stages := s.stages[k := Idle], phase := Closing(0), cur := -1))
  {
    hide Deques, Domain;
    var k := s.cur;
    var stages := if k + 1 < c.N() then s.stages[k := Idle][k + 1 := Drain] else s.stages[k := Idle];
    FlowKept(c, s.stages, stages, s.deques, s.received, s.jobs);
  }

  /** finish() of a drained stage hands over to the next stage, or returns to the program. */
  lemma KeepsDrained(c: Config, s: State)
    requires Inv(c, s) && MainEnabled(c, s) && s.cur >= 0 && s.stages[s.cur].Drain? && s.deques[s.cur] == []
    ensures Inv(c, StageStep(c, s, s.cur, None))
  {
    hide JobInv, PoolInv, DataFlow, Data, Queued, MainInv;
    DrainedMove(c, s);
    ActiveStage(c, s);
  }

  // ---------------------------------------------------------------- main thread: queueing a job

  /** The mutex is given back, and threads that sleep are woken. */
  lemma EnqueueLocks(c: Config, pools: seq<Pool>, workers: seq<WorkerPc>, p: nat, pool: Pool, wake: Option<nat>)
    requires p < |pools| && PoolLocks(c, pools, workers, Some(p)) && pool.lock == None
    requires wake.Some? ==> wake.value < |workers| && workers[wake.value].Asleep?
    ensures PoolLocks(c, pools[p := pool], if wake.Some? then workers[wake.value := Acquire] else workers, None)
  {
    var pools', workers' := pools[p := pool], if wake.Some? then workers[wake.value := Acquire] else workers;
    forall q | 0 <= q < |pools'|
      ensures PoolLock(c, q, pools'[q].lock, workers', None)
    {
      assert PoolLock(c, q, pools[q].lock, workers, Some(p));
    }
  }

  /** The job is the newest of its stage. */
  lemma EnqueueQueue(c: Config, pools: seq<Pool>, jobs: map<JobId, Job>, p: nat, pool: Pool, j: JobId)
    requires c.Valid() && |pools| == |c.maxQueue| && p < |pools| && Queues(c, pools) && Queued(c, pools, jobs)
    requires |pools[p].queue| < c.maxQueue[p] && pool.queue == pools[p].queue + [j]
    requires j.stage < c.N() && c.poolOf[j.stage] == p && forall i :: i in jobs && i.stage == j.stage ==> i.index < j.index
    ensures Queues(c, pools[p := pool])
  {
    var q := pools[p].queue;
    assert QueueOk(c, p, q);
    forall a | 0 <= a < |q| && q[a].stage == j.stage
      ensures q[a].index < j.index
    {
      assert pools[p].queue[a] in jobs;
    }
    assert QueueOk(c, p, q + [j]);
    hide Queued;
    var pools' := pools[p := pool];
    forall r | 0 <= r < |pools'|
      ensures QueueOk(c, r, pools'[r].queue)
    {
      assert QueueOk(c, r, pools[r].queue);
    }
  }

  lemma EnqueueWakeful(c: Config, pools: seq<Pool>, workers: seq<WorkerPc>, p: nat, pool: Pool, wake: Option<nat>)
    requires p < |pools| && Wakeful(c, pools, workers)
    requires wake.Some? ==> wake.value < |workers| && workers[wake.value].Asleep?
    requires SomeAwake(c, if wake.Some? then workers[wake.value := Acquire] else workers, p)
    ensures Wakeful(c, pools[p := pool], if wake.Some? then workers[wake.value := Acquire] else workers)
  {
    var workers' := if wake.Some? then workers[wake.value := Acquire] else workers;
    forall r | 0 <= r < |pools| && pools[p := pool][r].queue != []
      ensures SomeAwake(c, workers', r)
    {
      if r != p {
        var t :| 0 <= t < |workers| && t < |c.home| && c.home[t] == r && Awake(workers[t]);
        assert Awake(workers'[t]);
      }
    }
  }

  /** The pool after a job has been queued and a sleeping thread woken. */
  lemma EnqueuePool(c: Config, s: State, j: JobId, wake: Option<nat>)
    requires Inv(c, s) && s.cur >= 0 && s.stages[s.cur].TestRoom? && j.stage == s.cur
    requires |s.pools[c.poolOf[s.cur]].queue| < c.maxQueue[c.poolOf[s.cur]]
    requires GoodWake(c, s, c.poolOf[s.cur], wake)
    requires forall i :: i in s.jobs && i.stage == s.cur ==> i.index < j.index
    ensures var p := c.poolOf[s.cur];
      PoolInv(c, s.pools[p := s.pools[p].(queue := s.pools[p].queue + [j], lock := None)], Woken(s, wake), None)
  {
    hide JobInv, MainInv, Data, DataFlow, PoolLocks, Queues, Wakeful, Queued, Settled, Dying, SomeAwake;
    var p := c.poolOf[s.cur];
    var pool := s.pools[p].(queue := s.pools[p].queue + [j], lock := None);
    ActiveStage(c, s);
    SomeoneAwake(c, s, p, wake);
    EnqueueLocks(c, s.pools, s.workers, p, pool, wake);
    EnqueueQueue(c, s.pools, s.jobs, p, pool, j);
    EnqueueWakeful(c, s.pools, s.workers, p, pool, wake);
  }

  lemma SomeoneAwake(c: Config, s: State, p: nat, wake: Option<nat>)
    requires Inv(c, s) && !Closed(s.phase) && p < |s.pools| && GoodWake(c, s, p, wake)
    ensures SomeAwake(c, Woken(s, wake), p)
  {
    hide JobInv, PoolInv, MainInv, Data, DataFlow, Queued;
    assert c.HasWorker(p);
    var t :| 0 <= t < |c.home| && c.home[t] == p;
    match wake
    case Some(t') => assert Awake(Woken(s, wake)[t']);
    case None => assert Awake(Woken(s, wake)[t]);
  }

  lemma AddJob(c: Config, jobs: map<JobId, Job>, workers: seq<WorkerPc>, held: Option<JobId>, j: JobId, job: Job)
    requires JobInv(c, jobs, workers, held) && j !in jobs
    requires job.owner == Waiting && !job.finished && job.out == None && job.lock == None
    ensures JobInv(c, jobs[j := job], workers, held)
  {
    var jobs' := jobs[j := job];
    forall t | 0 <= t < |workers|
      ensures WorkerOk(c, jobs', t, workers[t])
    {
      assert WorkerOk(c, jobs, t, workers[t]);
    }
    forall i | i in jobs'
      ensures OwnerOk(jobs'[i], i, workers)
    {
      assert i != j ==> OwnerOk(jobs[i], i, workers);
    }
  }

  lemma EnqueueJobs(c: Config, s: State, job: Job)
    requires Inv(c, s) && s.cur >= 0 && s.stages[s.cur].TestRoom? && s.received[s.cur] != []
    requires job == Job(s.received[s.cur][|s.received[s.cur]| - 1], None, false, None, Waiting)
    ensures var j, p := JobId(s.cur, |s.received[s.cur]| - 1), c.poolOf[s.cur];
      var jobs := s.jobs[j := job];
      && j !in s.jobs && (forall i :: i in s.jobs && i.stage == s.cur ==> i.index < j.index)
      && Data(c, jobs, s.received) && Settled(s.stages, jobs)
      && Queued(c, s.pools[p := s.pools[p].(queue := s.pools[p].queue + [j], lock := None)], jobs)
  {
    hide JobInv, PoolInv, DataFlow, Dying, Deques, Control;
    var j, p, q := JobId(s.cur, |s.received[s.cur]| - 1), c.poolOf[s.cur], s.pools[c.poolOf[s.cur]].queue;
    var jobs, pools := s.jobs[j := job], s.pools[p := s.pools[p].(queue := q + [j], lock := None)];
    forall i | i in s.jobs && i.stage == s.cur
      ensures i.index < j.index
    {
      assert IsLive(c, s.stages, s.received, i);
    }
    forall i | i in jobs && jobs[i].owner == Waiting
      ensures i.stage < c.N() && i in pools[c.poolOf[i.stage]].queue
    {
      if i == j {
        assert pools[p].queue[|q|] == j;
      } else {
        assert i in s.pools[c.poolOf[i.stage]].queue;
      }
    }
  }

  lemma EnqueueMove(c: Config, s: State, jobs: map<JobId, Job>)
    requires Inv(c, s) && s.cur >= 0 && s.stages[s.cur].TestRoom? && s.received[s.cur] != []
    requires jobs.Keys == s.jobs.Keys + {JobId(s.cur, |s.received[s.cur]| - 1)}
    ensures var j := JobId(s.cur, |s.received[s.cur]| - 1);
      MainInv(c, s.(stages := s.stages[s.cur := Poll], deques := s.deques[s.cur := s.deques[s.cur] + [j]], jobs := jobs))
  {
    hide JobInv, PoolInv, DataFlow, Data, Queued, Dying, Control, Deques, Domain;
    var k, j := s.cur, JobId(s.cur, |s.received[s.cur]| - 1);
    ActiveStage(c, s);
    forall i: JobId
      ensures i in jobs <==>
        if i.stage == k then LiveIndex(Poll, |s.received[k]|, |s.received[k + 1]|, i.index) else i in s.jobs
    {
      ActiveJobs(c, s, i);
      assert i in jobs <==> i in jobs.Keys;
    }
    StageMove(c, s, Poll, s.deques[k] + [j], jobs);
  }

  lemma WakeWorker(c: Config, s: State, wake: Option<nat>, p: nat, pool: Pool)
    requires Inv(c, s) && p < |s.pools| && pool.die == s.pools[p].die
    requires wake.Some? ==> wake.value < |s.workers| && s.workers[wake.value].Asleep?
    ensures JobInv(c, s.jobs, Woken(s, wake), MainJob(s.stages, s.cur))
    ensures Dying(c, s.pools[p := pool], Woken(s, wake), s.phase)
  {
    hide PoolInv, MainInv, Data, DataFlow, Queued;
    if wake.Some? {
      IdleStep(c, s.jobs, s.workers, MainJob(s.stages, s.cur), wake.value, Acquire);
    }
  }

  /** queueJob puts the job into the queue and signals condJobQueued. */
  lemma KeepsEnqueue(c: Config, s: State, wake: Option<nat>)
    requires Inv(c, s) && MainEnabled(c, s) && s.cur >= 0 && s.stages[s.cur].TestRoom?
    requires |s.pools[c.poolOf[s.cur]].queue| < c.maxQueue[c.poolOf[s.cur]] && GoodWake(c, s, c.poolOf[s.cur], wake)
    ensures Inv(c, StageStep(c, s, s.cur, wake))
  {
    hide JobInv, PoolInv, DataFlow, Data, Queued, Control, Deques, Domain, Dying;
    var k := s.cur;
    var j := JobId(k, |s.received[k]| - 1);
    var job := Job(s.received[k][j.index], None, false, None, Waiting);
    EnqueueJobs(c, s, job);
    EnqueuePool(c, s, j, wake);
    EnqueueMove(c, s, s.jobs[j := job]);
    var p := c.poolOf[k];
    WakeWorker(c, s, wake, p, s.pools[p].(queue := s.pools[p].queue + [j], lock := None));
    AddJob(c, s.jobs, Woken(s, wake), None, j, job);
  }

  // ---------------------------------------------------------------- main thread: handing buffers on

  /** Stage k is called with one more buffer. */
  lemma CallDeques(c: Config, s: State, stages: seq<StagePc>, received: seq<seq<Buffer>>, k: nat, b: Buffer)
    requires c.Valid() && Shape(c, s) && MainInv(c, s) && k <= c.N() && k == s.cur + 1
    requires s.cur >= 0 ==> s.stages[s.cur].Hand?
    requires received == s.received[k := s.received[k] + [b]]
    requires var up := if s.cur >= 0 then s.stages[s.cur := InSink(s.stages[s.cur].job)] else s.stages;
      stages == if k < c.N() then up[k := LockPool] else up
    ensures Deques(c, stages, s.deques, received) && Domain(c, s.jobs, stages, received)
  {
    forall i | 0 <= i < c.N()
      ensures DequeOk(i, stages[i], s.deques[i], |received[i]|, |received[i + 1]|)
    {
      assert DequeOk(i, s.stages[i], s.deques[i], |s.received[i]|, |s.received[i + 1]|);
    }
    forall j: JobId
      ensures j in s.jobs <==> IsLive(c, stages, received, j)
    {
      assert j in s.jobs <==> IsLive(c, s.stages, s.received, j);
    }
  }

  lemma CallFlow(c: Config, received: seq<seq<Buffer>>, fed: nat, k: nat, b: Buffer)
    requires |received| == c.N() + 1 && fed <= |c.inputs| && DataFlow(c, received, fed) && 0 < k <= c.N()
    requires |received[k]| < |received[k - 1]| && b == c.handle(k - 1, received[k - 1][|received[k]|])
    ensures DataFlow(c, received[k := received[k] + [b]], fed)
  {
    var received' := received[k := received[k] + [b]];
    forall i | 0 <= i < c.N()
      ensures Relays(c, i, received'[i], received'[i + 1])
    {
      assert Relays(c, i, received[i], received[i + 1]);
    }
  }

  lemma CallData(c: Config, jobs: map<JobId, Job>, received: seq<seq<Buffer>>, k: nat, b: Buffer)
    requires k < |received| && Data(c, jobs, received)
    ensures Data(c, jobs, received[k := received[k] + [b]])
  {
    forall j | j in jobs
      ensures JobData(c, j, jobs[j], received[k := received[k] + [b]])
    {
      assert JobData(c, j, jobs[j], received);
    }
  }

  /** What a stage hands on is what handleEvents made of the oldest buffer not handed on before. */
  lemma HandedOn(c: Config, s: State)
    requires Inv(c, s) && s.cur >= 0 && s.stages[s.cur].Hand?
    ensures var k, j := s.cur, s.stages[s.cur].job;
      && j == JobId(k, |s.received[k + 1]|) && |s.received[k + 1]| < |s.received[k]|
      && j in s.jobs && s.jobs[j].owner == Released
      && s.jobs[j].out == Some(c.handle(k, s.received[k][|s.received[k + 1]|]))
  {
    hide PoolInv, DataFlow, Queued, Dying;
    ActiveStage(c, s);
    ActiveJobs(c, s, s.stages[s.cur].job);
  }

  lemma HandControl(c: Config, s: State)
    requires Inv(c, s) && s.cur >= 0 && s.stages[s.cur].Hand?
    ensures var k, up := s.cur, s.stages[s.cur := InSink(s.stages[s.cur].job)];
      if k + 1 < c.N() then Control(c, up[k + 1 := LockPool], s.deques, s.phase, k + 1, s.fed)
      else Control(c, up, s.deques, s.phase, k, s.fed)
  {
    hide JobInv, PoolInv, DataFlow, Data, Queued, Dying, Deques, Domain;
  }

  /** extractWorker hands the output to the sink. */
  lemma KeepsHand(c: Config, s: State)
    requires Inv(c, s) && MainEnabled(c, s) && s.cur >= 0 && s.stages[s.cur].Hand?
    ensures Inv(c, StageStep(c, s, s.cur, None))
  {
    hide JobInv, PoolInv, DataFlow, Data, Queued, Control, Deques, Domain, Dying;
    var k, j := s.cur, s.stages[s.cur].job;
    var s' := StageStep(c, s, k, None);
    HandedOn(c, s);
    HandControl(c, s);
    var b := s.jobs[j].out.value;
    CallDeques(c, s, s'.stages, s'.received, k + 1, b);
    CallFlow(c, s.received, s.fed, k + 1, b);
    CallData(c, s.jobs, s.received, k + 1, b);
  }

  // ---------------------------------------------------------------- main thread: outside the pipeline

  lemma FeedControl(c: Config, s: State)
    requires Inv(c, s) && s.cur == -1 && s.phase == Feeding
    ensures s.fed < |c.inputs| ==> Control(c, s.stages[0 := LockPool], s.deques, Feeding, 0, s.fed + 1)
    ensures s.fed == |c.inputs| ==> Control(c, s.stages[0 := Drain], s.deques, Finishing(0), 0, s.fed)
  {
    hide JobInv, PoolInv, DataFlow, Data, Queued, Dying, Deques, Domain;
  }

  lemma FeedFlow(c: Config, s: State)
    requires Inv(c, s) && s.fed < |c.inputs|
    ensures DataFlow(c, s.received[0 := s.received[0] + [c.inputs[s.fed]]], s.fed + 1)
  {
    hide JobInv, PoolInv, Data, Queued, Dying, Deques, Domain, Control;
    var received' := s.received[0 := s.received[0] + [c.inputs[s.fed]]];
    forall i | 0 <= i < c.N()
      ensures Relays(c, i, received'[i], received'[i + 1])
    {
      assert Relays(c, i, s.received[i], s.received[i + 1]);
    }
  }

  /** The reader pushes its next buffer, or calls finish(). */
  lemma KeepsFeed(c: Config, s: State)
    requires Inv(c, s) && s.cur == -1 && s.phase == Feeding && MainEnabled(c, s)
    ensures Inv(c, OutsideStep(c, s))
  {
    hide JobInv, PoolInv, DataFlow, Data, Queued, Control, Deques, Domain;
    var s' := OutsideStep(c, s);
    FeedControl(c, s);
    if s.fed < |c.inputs| {
      FeedFlow(c, s);
      CallDeques(c, s, s'.stages, s'.received, 0, c.inputs[s.fed]);
      CallData(c, s.jobs, s.received, 0, c.inputs[s.fed]);
    } else {
      FinishDeques(c, s);
    }
  }

  lemma FinishDeques(c: Config, s: State)
    requires c.Valid() && Shape(c, s) && MainInv(c, s) && s.cur == -1
    ensures Deques(c, s.stages[0 := Drain], s.deques, s.received)
    ensures Domain(c, s.jobs, s.stages[0 := Drain], s.received)
  {
    hide Deques, Domain;
    FlowKept(c, s.stages, s.stages[0 := Drain], s.deques, s.received, s.jobs);
  }

  /** Setting die, or counting a client off, leaves queues and locks alone. */
  lemma PoolMarks(c: Config, s: State, p: nat, pool: Pool)
    requires Inv(c, s) && p < |s.pools| && pool.queue == s.pools[p].queue && pool.lock == s.pools[p].lock
    ensures PoolInv(c, s.pools[p := pool], s.workers, MainPool(c, s.stages, s.cur))
    ensures Queued(c, s.pools[p := pool], s.jobs)
  {
    hide JobInv, MainInv, DataFlow, Data, Dying;
    var pools := s.pools[p := pool];
    forall q | 0 <= q < |pools|
      ensures PoolLock(c, q, pools[q].lock, s.workers, MainPool(c, s.stages, s.cur))
    {
      assert PoolLock(c, q, s.pools[q].lock, s.workers, MainPool(c, s.stages, s.cur));
    }
  }

  /** The broadcast wakes every sleeper of the pool. */
  lemma BroadcastPools(c: Config, s: State, workers: seq<WorkerPc>)
    requires Inv(c, s) && Closed(s.phase) && |workers| == |s.workers|
    requires forall t :: 0 <= t < |workers| ==> workers[t] == s.workers[t] || (s.workers[t] == Asleep && workers[t] == Acquire)
    ensures PoolInv(c, s.pools, workers, MainPool(c, s.stages, s.cur)) && JobInv(c, s.jobs, workers, MainJob(s.stages, s.cur))
  {
    hide MainInv, DataFlow, Data, Dying, Queued;
    NothingLeft(c, s);
    forall q | 0 <= q < |s.pools|
      ensures PoolLock(c, q, s.pools[q].lock, workers, MainPool(c, s.stages, s.cur))
    {
      assert PoolLock(c, q, s.pools[q].lock, s.workers, MainPool(c, s.stages, s.cur));
    }
    forall t | 0 <= t < |workers|
      ensures WorkerOk(c, s.jobs, t, workers[t])
    {
      assert WorkerOk(c, s.jobs, t, s.workers[t]);
    }
  }

  /** Destroying the stages. */
  lemma KeepsClosing(c: Config, s: State)
    requires Inv(c, s) && s.cur == -1 && s.phase != Feeding && MainEnabled(c, s)
    ensures Inv(c, OutsideStep(c, s))
  {
    hide JobInv, PoolInv, DataFlow, Data, Queued, Deques, Domain;
    match s.phase
    case Closing(k) =>
      if k < c.N() {
        var p := c.poolOf[k];
        var left := if s.pools[p].nClients > 1 then s.pools[p].nClients - 1 else 0;
        PoolMarks(c, s, p, s.pools[p].(nClients := left));
      }
    case CloseDie(k) => PoolMarks(c, s, c.poolOf[k], s.pools[c.poolOf[k]].(die := true));
    case CloseBroadcast(k) => BroadcastPools(c, s, OutsideStep(c, s).workers);
    case _ =>
  }

  // ---------------------------------------------------------------- every step, every run

  lemma StageKeeps(c: Config, s: State, wake: Option<nat>)
    requires Inv(c, s) && MainEnabled(c, s) && s.cur >= 0 && PicksWaker(c, s, wake)
    ensures Inv(c, StageStep(c, s, s.cur, wake))
  {
    hide Inv;
    var k := s.cur;
    match s.stages[k]
    case LockPool => KeepsPoolLock(c, s);
    case TestRoom =>
      if |s.pools[c.poolOf[k]].queue| >= c.maxQueue[c.poolOf[k]] { KeepsPoolLock(c, s); } else { KeepsEnqueue(c, s, wake); }
    case Poll => if s.deques[k] == [] { KeepsReturn(c, s); } else { KeepsJobLock(c, s); }
    case Polled(j) => if s.jobs[j].finished { KeepsExtract(c, s); } else { KeepsReturn(c, s); }
    case Drain => if s.deques[k] == [] { KeepsDrained(c, s); } else { KeepsExtract(c, s); }
    case LockJob(_) => KeepsJobLock(c, s);
    case TestDone(_) => KeepsTestDone(c, s);
    case Hand(_) => KeepsHand(c, s);
    case InSink(_) => KeepsDelete(c, s);
    case _ =>
  }

  lemma SpuriousKeeps(c: Config, s: State, m: Move)
    requires Inv(c, s) && Enabled(c, s, m) && (m.SpuriousWorker? || m.SpuriousMain?)
    ensures Inv(c, Step(c, s, m))
  {
    hide Core;
    if m.SpuriousWorker? {
      PoolCore(c, s, m.t, s.pools[c.home[m.t]].lock, Acquire);
      var p := c.home[m.t];
      assert s.pools[p := s.pools[p].(lock := s.pools[p].lock)] == s.pools;
    } else {
      WakeMain(c, s, if s.stages[s.cur].AwaitRoom? then LockPool else LockJob(s.stages[s.cur].job));
    }
  }

  lemma StepKeeps(c: Config, s: State, m: Move)
    requires Inv(c, s) && Enabled(c, s, m)
    ensures Inv(c, Step(c, s, m))
  {
    hide Core;
    match m
    case MainMove(wake) =>
      if s.cur >= 0 { StageKeeps(c, s, wake); }
      else if s.phase == Feeding { KeepsFeed(c, s); }
      else { KeepsClosing(c, s); }
    case WorkerMove(t) => WorkerKeeps(c, s, t);
    case _ => SpuriousKeeps(c, s, m);
  }

  lemma InitialInv(c: Config)
    requires c.Valid()
    ensures Inv(c, Initial(c))
  {
  }

  lemma {:induction false} RunKeeps(c: Config, s: State, ms: seq<Move>, s': State)
    requires Inv(c, s) && Runs(c, s, ms, s')
    ensures Inv(c, s')
    decreases |ms|
  {
    hide Inv;
    if ms != [] {
      StepKeeps(c, s, ms[0]);
      RunKeeps(c, Step(c, s, ms[0]), ms[1..], s');
    }
  }
}
