/** The pipeline never deadlocks and, but for spurious wake-ups, every step uses up a finite budget: so
    every run that goes on as long as it can ends with the stages destroyed and all threads joined. */
module PipelineProgress {
  import opened Options
  import opened Pipeline
  import opened PipelineSafety

  // ---------------------------------------------------------------- destroying the pools

  /** The first stage whose clientDecrease has not been counted yet. */
  function NextClient(c: Config, ph: Phase): nat {
    match ph
    case Closing(k) => k
    case CloseDie(k) => k + 1
    case CloseBroadcast(k) => k + 1
    case CloseJoin(k) => k + 1
    case Finished => c.N()
    case _ => 0
  }

  /** The pool whose threads are being told to quit. */
  function DyingPool(c: Config, ph: Phase): Option<nat> {
    match ph
    case CloseDie(k) => if k < c.N() then Some(c.poolOf[k]) else None
    case CloseBroadcast(k) => if k < c.N() then Some(c.poolOf[k]) else None
    case CloseJoin(k) => if k < c.N() then Some(c.poolOf[k]) else None
    case _ => None
  }

  ghost predicate AllExited(c: Config, workers: seq<WorkerPc>, p: nat) {
    forall t :: 0 <= t < |workers| && t < |c.home| && c.home[t] == p ==> workers[t] == Exited
  }

  ghost predicate ClosingOk(c: Config, pools: seq<Pool>, workers: seq<WorkerPc>, phase: Phase) {
    && NextClient(c, phase) <= c.N()
    && (phase.CloseDie? || phase.CloseBroadcast? || phase.CloseJoin? ==> phase.stage < c.N())
    && (forall p :: 0 <= p < |pools| ==>
          && pools[p].nClients == c.ClientsFrom(p, NextClient(c, phase))
          && (pools[p].die ==> pools[p].nClients == 0)
          && (pools[p].nClients == 0 && DyingPool(c, phase) != Some(p) ==> AllExited(c, workers, p))
          && (DyingPool(c, phase) == Some(p) ==> pools[p].nClients == 0 && (phase.CloseDie? || pools[p].die)))
    && (phase.CloseJoin? ==> JoinOk(c, workers, DyingPool(c, phase)))
  }

  /** No thread of a pool being joined can sleep any more. */
  ghost predicate JoinOk(c: Config, workers: seq<WorkerPc>, p: Option<nat>) {
    forall t :: 0 <= t < |workers| && t < |c.home| && Some(c.home[t]) == p ==> !workers[t].Asleep? && !workers[t].TestQueue?
  }

  ghost predicate ClosingInv(c: Config, s: State) {
    ClosingOk(c, s.pools, s.workers, s.phase)
  }

  lemma ClosingFrame(c: Config, pools: seq<Pool>, workers: seq<WorkerPc>, phase: Phase,
                     pools': seq<Pool>, workers': seq<WorkerPc>, phase': Phase)
    requires ClosingOk(c, pools, workers, phase) && |pools'| == |pools| && |workers'| == |workers|
    requires forall p :: 0 <= p < |pools| ==> pools'[p].nClients == pools[p].nClients && pools'[p].die == pools[p].die
    requires phase' == phase || (NextClient(c, phase) == NextClient(c, phase') == 0
                                 && (phase'.Feeding? || phase'.Finishing? || phase'.Closing?)
                                 && (phase.Feeding? || phase.Finishing? || phase.Closing?))
    requires forall t :: 0 <= t < |workers| && workers[t] == Exited ==> workers'[t] == Exited
    requires phase'.CloseJoin? ==> JoinOk(c, workers', DyingPool(c, phase'))
    ensures ClosingOk(c, pools', workers', phase')
  {
  }

  lemma WorkerClosing(c: Config, s: State, t: nat)
    requires Inv(c, s) && ClosingInv(c, s) && WorkerEnabled(c, s, t)
    ensures ClosingInv(c, WorkerStep(c, s, t))
  {
    hide Inv, ClosingOk, WakeForDone, WakeForRoom;
    var s' := WorkerStep(c, s, t);
    if s.phase.CloseJoin? {
      JoinDies(c, s, t);
    }
    ClosingFrame(c, s.pools, s.workers, s.phase, s'.pools, s'.workers, s'.phase);
  }

  lemma JoinHolds(c: Config, s: State)
    requires ClosingInv(c, s) && s.phase.CloseJoin?
    ensures JoinOk(c, s.workers, DyingPool(c, s.phase))
  {
  }

  lemma JoinDies(c: Config, s: State, t: nat)
    requires Shape(c, s) && c.Valid() && ClosingInv(c, s) && s.phase.CloseJoin? && t < |s.workers|
    ensures JoinOk(c, s.workers, DyingPool(c, s.phase))
    ensures Some(c.home[t]) == DyingPool(c, s.phase) ==> s.pools[c.home[t]].die && !s.workers[t].TestQueue?
  {
  }

  lemma StageClosing(c: Config, s: State, wake: Option<nat>)
    requires Inv(c, s) && ClosingInv(c, s) && MainEnabled(c, s) && s.cur >= 0 && PicksWaker(c, s, wake)
    ensures ClosingInv(c, StageStep(c, s, s.cur, wake))
  {
    hide Inv, ClosingOk;
    ActiveStage(c, s);
    hide DequeOk;
    var s' := StageStep(c, s, s.cur, wake);
    ClosingFrame(c, s.pools, s.workers, s.phase, s'.pools, s'.workers, s'.phase);
  }

  lemma OutsideClosing(c: Config, s: State)
    requires Inv(c, s) && ClosingInv(c, s) && MainEnabled(c, s) && s.cur == -1
    ensures ClosingInv(c, OutsideStep(c, s))
  {
    hide JobInv, DataFlow, Data, Queued, Deques, Domain, Control, PoolInv, Dying, Settled;
    if s.phase.CloseBroadcast? {
      BroadcastClosing(c, s);
    } else {
      hide JoinOk;
      var s' := OutsideStep(c, s);
      assert forall q :: AllExited(c, s.workers, q) ==> AllExited(c, s'.workers, q);
    }
  }

  /** The broadcast leaves no thread of the pool asleep. */
  lemma BroadcastClosing(c: Config, s: State)
    requires Inv(c, s) && ClosingInv(c, s) && MainEnabled(c, s) && s.cur == -1 && s.phase.CloseBroadcast?
    ensures ClosingInv(c, OutsideStep(c, s))
  {
    hide JobInv, DataFlow, Data, Queued, Deques, Domain, Control, Queues, Wakeful, Dying, Settled;
    var p := c.poolOf[s.phase.stage];
    var s' := OutsideStep(c, s);
    assert PoolLock(c, p, s.pools[p].lock, s.workers, MainPool(c, s.stages, s.cur));
    assert forall q :: AllExited(c, s.workers, q) ==> AllExited(c, s'.workers, q);
  }

  lemma StepClosing(c: Config, s: State, m: Move)
    requires Inv(c, s) && ClosingInv(c, s) && Enabled(c, s, m)
    ensures ClosingInv(c, Step(c, s, m))
  {
    hide Core, ClosingOk;
    var s' := Step(c, s, m);
    match m
    case MainMove(wake) => if s.cur >= 0 { StageClosing(c, s, wake); } else { OutsideClosing(c, s); }
    case WorkerMove(t) => WorkerClosing(c, s, t);
    case _ =>
      if s.phase.CloseJoin? { JoinHolds(c, s); }
      ClosingFrame(c, s.pools, s.workers, s.phase, s'.pools, s'.workers, s'.phase);
  }

  // ---------------------------------------------------------------- some thread can always move

  lemma LockHolders(job: Job, j: JobId, workers: seq<WorkerPc>, t: nat)
    requires OwnerOk(job, j, workers) && job.owner == Taken(t)
    ensures job.lock == None || job.lock == Some(MainThread) || job.lock == Some(WorkerThread(t))
  {
    match job.lock
    case Some(WorkerThread(t')) => assert t' == t;
    case _ =>
  }

  /** A thread that waits for no mutex, or for a free one, can move. */
  lemma FreeMoves(c: Config, s: State, t: nat)
    requires Inv(c, s) && t < |s.workers| && Awake(s.workers[t])
    requires MainJob(s.stages, s.cur) == None && (s.workers[t].Acquire? ==> s.pools[c.home[t]].lock == None)
    ensures WorkerEnabled(c, s, t)
  {
    hide DataFlow, Data, Deques, Domain, Dying, PoolInv, Control;
    if Holding(s.workers[t]).Some? {
      InHand(c, s, t);
      var j := Holding(s.workers[t]).value;
      assert MainJobLock(s.jobs, None);
      assert s.jobs[j].lock != Some(MainThread);
      LockHolders(s.jobs[j], j, s.workers, t);
    } else if s.workers[t].TestQueue? && s.pools[c.home[t]].queue != [] {
      QueueHead(c, s, c.home[t]);
    }
  }

  /** A thread that is awake can move, or waits for a mutex whose holder can. */
  lemma AwakeMoves(c: Config, s: State, t: nat) returns (m: Move)
    requires Inv(c, s) && t < |s.workers| && Awake(s.workers[t])
    requires MainPool(c, s.stages, s.cur) == None && MainJob(s.stages, s.cur) == None
    ensures m.WorkerMove? && Enabled(c, s, m)
    ensures t < |c.home| && m.t < |c.home| && c.home[m.t] == c.home[t]
  {
    var lock := s.pools[c.home[t]].lock;
    assert PoolLock(c, c.home[t], lock, s.workers, None);
    if s.workers[t].Acquire? && lock.Some? {
      m := WorkerMove(lock.value.t);
      FreeMoves(c, s, lock.value.t);
    } else {
      m := WorkerMove(t);
      FreeMoves(c, s, t);
    }
  }

  /** As long as a pool's queue holds a job, one of its threads is awake. */
  lemma QueueMoves(c: Config, s: State, p: nat) returns (m: Move)
    requires Inv(c, s) && p < |s.pools| && s.pools[p].queue != []
    requires MainPool(c, s.stages, s.cur) == None && MainJob(s.stages, s.cur) == None
    ensures m.WorkerMove? && m.t < |c.home| && c.home[m.t] == p && Enabled(c, s, m)
  {
    assert SomeAwake(c, s.workers, p);
    var t :| 0 <= t < |s.workers| && t < |c.home| && c.home[t] == p && Awake(s.workers[t]);
    m := AwakeMoves(c, s, t);
  }

  /** An unfinished job is in a queue or in the hands of a thread: either way a thread can move. */
  lemma JobMoves(c: Config, s: State, j: JobId) returns (m: Move)
    requires Inv(c, s) && j in s.jobs && (!s.jobs[j].finished || s.jobs[j].lock.Some?)
    requires MainPool(c, s.stages, s.cur) == None && MainJob(s.stages, s.cur) == None
    ensures m.WorkerMove? && Enabled(c, s, m)
  {
    hide DataFlow, Data, Dying, PoolInv, Deques, Domain, Control, Settled, Workers;
    assert OwnerOk(s.jobs[j], j, s.workers);
    match s.jobs[j].owner
    case Waiting =>
      assert j in s.pools[c.poolOf[j.stage]].queue;
      m := QueueMoves(c, s, c.poolOf[j.stage]);
    case Taken(t) => m := AwakeMoves(c, s, t);
    case Released => assert false;
  }

  lemma LockMoves(c: Config, s: State, p: nat) returns (m: Move)
    requires Inv(c, s) && p < |s.pools| && s.pools[p].lock.Some?
    requires MainPool(c, s.stages, s.cur) == None && MainJob(s.stages, s.cur) == None
    ensures m.WorkerMove? && Enabled(c, s, m)
  {
    assert PoolLock(c, p, s.pools[p].lock, s.workers, None);
    m := AwakeMoves(c, s, s.pools[p].lock.value.t);
  }

  lemma StageMoves(c: Config, s: State) returns (m: Move)
    requires Inv(c, s) && s.cur >= 0
    ensures Enabled(c, s, m) && !m.SpuriousWorker? && !m.SpuriousMain?
  {
    hide DataFlow, Data, Dying, PoolInv, JobInv, Queued, Settled, Deques, Domain, Control, DequeOk;
    ActiveStage(c, s);
    var k, pc := s.cur, s.stages[s.cur];
    var p := c.poolOf[k];
    match pc
    case LockPool =>
      if s.pools[p].lock.Some? { m := LockMoves(c, s, p); } else { m := MainMove(None); }
    case TestRoom => m := EnqueueMoves(c, s);
    case AwaitRoom => m := QueueMoves(c, s, p);
    case AwaitDone(j) => m := JobMoves(c, s, j);
    case LockJob(_) => m := StageJobMoves(c, s);
    case Poll => m := StageJobMoves(c, s);
    case Polled(_) => m := StageJobMoves(c, s);
    case TestDone(_) => m := StageJobMoves(c, s);
    case InSink(_) => m := StageJobMoves(c, s);
    case Hand(j) => HandedOn(c, s); m := MainMove(None);
    case _ => m := MainMove(None);
  }

  /** The signal wakes a sleeping thread of the pool, if there is one. */
  lemma EnqueueMoves(c: Config, s: State) returns (m: Move)
    requires Inv(c, s) && s.cur >= 0 && s.stages[s.cur].TestRoom?
    ensures Enabled(c, s, m) && m.MainMove?
  {
    hide DataFlow, Data, Dying, PoolInv, JobInv, Queued, Settled, Domain, Control;
    ActiveStage(c, s);
    var p := c.poolOf[s.cur];
    if t :| 0 <= t < |s.workers| && t < |c.home| && c.home[t] == p && s.workers[t] == Asleep {
      m := MainMove(Some(t));
    } else {
      m := MainMove(None);
    }
  }

  /** A stage that deals with a job can go on, or the thread that holds the job's mutex can. */
  lemma StageJobMoves(c: Config, s: State) returns (m: Move)
    requires Inv(c, s) && s.cur >= 0
    requires var pc := s.stages[s.cur]; pc.LockJob? || pc.Poll? || pc.Polled? || pc.TestDone? || pc.InSink?
    ensures Enabled(c, s, m) && !m.SpuriousWorker? && !m.SpuriousMain?
  {
    hide DataFlow, Data, Dying, PoolInv, Queued, Owners, Workers, Domain, Control;
    ActiveStage(c, s);
    var k, pc := s.cur, s.stages[s.cur];
    m := MainMove(None);
    match pc
    case LockJob(j) =>
      ActiveJobs(c, s, j);
      if s.jobs[j].lock.Some? { m := JobMoves(c, s, j); }
    case Poll =>
      if s.deques[k] != [] {
        ActiveJobs(c, s, s.deques[k][0]);
        if s.jobs[s.deques[k][0]].lock.Some? { m := JobMoves(c, s, s.deques[k][0]); }
      }
    case _ =>
  }

  lemma OutsideMoves(c: Config, s: State) returns (m: Move)
    requires Inv(c, s) && ClosingInv(c, s) && s.cur == -1 && s.phase != Finished
    ensures Enabled(c, s, m) && !m.SpuriousWorker? && !m.SpuriousMain?
  {
    hide DataFlow, Data, Dying, PoolInv, Queued, JobInv, Deques, Domain;
    m := MainMove(None);
    match s.phase
    case CloseBroadcast(k) =>
      if s.pools[c.poolOf[k]].lock.Some? { m := LockMoves(c, s, c.poolOf[k]); }
    case CloseJoin(k) =>
      if t :| 0 <= t < |s.workers| && c.home[t] == c.poolOf[k] && s.workers[t] != Exited {
        JoinDies(c, s, t);
        m := AwakeMoves(c, s, t);
      }
    case _ =>
  }

  lemma Shapely(c: Config, s: State)
    requires Inv(c, s)
    ensures c.Valid() && Shape(c, s)
  {
  }

  /** No deadlock: until everything is finished, a thread can move without a spurious wake-up. */
  lemma CanMove(c: Config, s: State) returns (m: Move)
    requires Inv(c, s) && ClosingInv(c, s) && s.phase != Finished
    ensures Enabled(c, s, m) && !m.SpuriousWorker? && !m.SpuriousMain?
  {
    hide Core;
    assert Shape(c, s) by { Shapely(c, s); }
    if s.cur >= 0 { m := StageMoves(c, s); } else { m := OutsideMoves(c, s); }
  }
}
