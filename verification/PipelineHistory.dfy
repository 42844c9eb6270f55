/** Each buffer is handled exactly once, and on a single-worker stage in push order: the order of the
    handleEvents calls is tracked through every step. */
module PipelineHistory {
  import opened Options
  import opened Pipeline
  import opened PipelineSafety

  /** How many buffers of stage k have been queued so far. */
  function Queued(s: State, k: nat): int
    requires k < |s.stages| && k < |s.received|
  {
    |s.received[k]| - Pending(s.stages[k])
  }

  predicate IsWaiting(jobs: map<JobId, Job>, j: JobId) { j in jobs && jobs[j].owner == Waiting }

  /** A thread has popped the job and not yet called handleEvents. */
  predicate IsStarting(jobs: map<JobId, Job>, workers: seq<WorkerPc>, j: JobId) {
    j in jobs && jobs[j].owner.Taken? && jobs[j].owner.t < |workers| && workers[jobs[j].owner.t] == Start(j)
  }

  /** begun[k] lists, without repetition, the buffers whose handleEvents has been called. */
  ghost predicate OnceOk(s: State, k: nat)
    requires k < |s.stages| && k < |s.received| && k < |s.begun|
  {
    && (forall a, b :: 0 <= a < b < |s.begun[k]| ==> s.begun[k][a] != s.begun[k][b])
    && (forall i: nat :: i in s.begun[k] <==>
          i < Queued(s, k) && !IsWaiting(s.jobs, JobId(k, i)) && !IsStarting(s.jobs, s.workers, JobId(k, i)))
  }

  /** w is the only thread of stage k's pool. */
  ghost predicate Single(c: Config, k: nat, w: nat)
    requires k < c.N()
  {
    w < |c.home| && forall t :: 0 <= t < |c.home| && c.home[t] == c.poolOf[k] ==> t == w
  }

  /** The only thread of the pool takes stage k's jobs one after the other. */
  ghost predicate InOrder(s: State, k: nat)
    requires k < |s.stages| && k < |s.received| && k < |s.begun|
  {
    var b := |s.begun[k]|;
    && (forall a :: 0 <= a < b ==> s.begun[k][a] == a)
    && (forall i: nat :: IsStarting(s.jobs, s.workers, JobId(k, i)) ==> i == b)
    && (forall i: nat :: IsWaiting(s.jobs, JobId(k, i)) <==>
          b + (if IsStarting(s.jobs, s.workers, JobId(k, b)) then 1 else 0) <= i < Queued(s, k))
  }

  ghost predicate History(c: Config, s: State)
    requires Shape(c, s)
  {
    forall k :: 0 <= k < c.N() ==> OnceOk(s, k) && ((exists w :: Single(c, k, w)) ==> InOrder(s, k))
  }

  /** Nothing that the history depends on has changed. */
  ghost predicate Quiet(c: Config, s: State, s': State)
    requires Shape(c, s) && Shape(c, s')
  {
    && s'.begun == s.begun
    && (forall k :: 0 <= k < c.N() ==> Queued(s', k) == Queued(s, k))
    && (forall j :: IsWaiting(s'.jobs, j) <==> IsWaiting(s.jobs, j))
    && (forall j :: IsStarting(s'.jobs, s'.workers, j) <==> IsStarting(s.jobs, s.workers, j))
  }

  lemma QuietKeeps(c: Config, s: State, s': State)
    requires Shape(c, s) && Shape(c, s') && History(c, s) && Quiet(c, s, s')
    ensures History(c, s')
  {
    forall k | 0 <= k < c.N()
      ensures OnceOk(s', k) && ((exists w :: Single(c, k, w)) ==> InOrder(s', k))
    {
      assert OnceOk(s, k);
    }
  }

  // ---------------------------------------------------------------- pool threads

  /** A thread that is not about to start a job moves, and may rewrite the job it has. */
  lemma QuietMove(c: Config, s: State, s': State, t: nat)
    requires Shape(c, s) && Shape(c, s') && t < |s.workers|
    requires s'.begun == s.begun && s'.received == s.received
    requires forall k :: 0 <= k < c.N() ==> Pending(s'.stages[k]) == Pending(s.stages[k])
    requires s'.workers == s.workers[t := s'.workers[t]] && !s.workers[t].Start? && !s'.workers[t].Start?
    requires s'.jobs.Keys == s.jobs.Keys
    requires forall j :: j in s.jobs ==>
      s'.jobs[j].owner == s.jobs[j].owner || (s.jobs[j].owner == Taken(t) && s'.jobs[j].owner == Released)
    ensures Quiet(c, s, s')
  {
    assert forall j :: j in s'.jobs <==> j in s'.jobs.Keys;
    assert forall j :: j in s.jobs <==> j in s.jobs.Keys;
  }

  lemma WorkerQuiet(c: Config, s: State, t: nat)
    requires Inv(c, s) && WorkerEnabled(c, s, t) && !s.workers[t].Start?
    requires s.workers[t].TestQueue? ==> s.pools[c.home[t]].queue == []
    ensures Shape(c, WorkerStep(c, s, t)) && Quiet(c, s, WorkerStep(c, s, t))
  {
    hide Inv, Quiet, JobData, OwnerOk;
    if Holding(s.workers[t]).Some? {
      InHand(c, s, t);
    }
    QuietMove(c, s, WorkerStep(c, s, t), t);
  }

  /** Popping a job makes it neither begun nor any longer waiting. */
  lemma PopHistory(c: Config, s: State, t: nat)
    requires Inv(c, s) && History(c, s) && WorkerEnabled(c, s, t)
    requires s.workers[t].TestQueue? && s.pools[c.home[t]].queue != []
    ensures Shape(c, WorkerStep(c, s, t)) && History(c, WorkerStep(c, s, t))
  {
    hide Inv, OnceOk, InOrder, JobData, OwnerOk, WakeForRoom;
    QueueHead(c, s, c.home[t]);
    var s' := WorkerStep(c, s, t);
    var j := s.pools[c.home[t]].queue[0];
    RoomPending(c, s, c.home[t]);
    PopMarks(c, s, t, s');
    forall k | 0 <= k < c.N()
      ensures OnceOk(s', k)
      ensures (exists w :: Single(c, k, w)) ==> InOrder(s', k)
    {
      PopOnce(c, s, s', j, k);
      if w :| Single(c, k, w) {
        PopInOrder(c, s, t, s', k, w);
      }
    }
  }

  lemma RoomPending(c: Config, s: State, p: nat)
    requires Shape(c, s)
    ensures |WakeForRoom(c, s, p)| == |s.stages|
    ensures forall k :: 0 <= k < |s.stages| ==> Pending(WakeForRoom(c, s, p)[k]) == Pending(s.stages[k])
  {
  }

  lemma PopMarks(c: Config, s: State, t: nat, s': State)
    requires Inv(c, s) && Shape(c, s') && t < |s.workers| && s.workers[t].TestQueue?
    requires s.pools[c.home[t]].queue != [] && s.pools[c.home[t]].queue[0] in s.jobs
    requires s'.jobs == Popped(c, s, t).jobs && s'.workers == Popped(c, s, t).workers
    ensures var j := s.pools[c.home[t]].queue[0];
      && IsWaiting(s.jobs, j) && IsStarting(s'.jobs, s'.workers, j)
      && (forall i :: IsWaiting(s'.jobs, i) <==> IsWaiting(s.jobs, i) && i != j)
      && (forall i :: i != j ==> (IsStarting(s'.jobs, s'.workers, i) <==> IsStarting(s.jobs, s.workers, i)))
  {
    hide PoolInv, DataFlow, Dying, Control, Deques, Domain, Data, PipelineSafety.Queued;
    QueueHead(c, s, c.home[t]);
    forall i | i in s.jobs
      ensures s.jobs[i].owner != Taken(t)
    {
      assert OwnerOk(s.jobs[i], i, s.workers);
    }
  }

  lemma PopOnce(c: Config, s: State, s': State, j: JobId, k: nat)
    requires Shape(c, s) && Shape(c, s') && k < c.N() && OnceOk(s, k)
    requires s'.begun == s.begun && Queued(s', k) == Queued(s, k)
    requires IsWaiting(s.jobs, j) && IsStarting(s'.jobs, s'.workers, j)
    requires forall i :: IsWaiting(s'.jobs, i) <==> IsWaiting(s.jobs, i) && i != j
    requires forall i :: i != j ==> (IsStarting(s'.jobs, s'.workers, i) <==> IsStarting(s.jobs, s.workers, i))
    ensures OnceOk(s', k)
  {
  }

  /** A stage's oldest waiting job is the one its pool's queue has first. */
  lemma HeadIsOldest(c: Config, s: State, p: nat, i: nat)
    requires Inv(c, s) && p < |s.pools| && s.pools[p].queue != []
    requires var j := s.pools[p].queue[0]; IsWaiting(s.jobs, JobId(j.stage, i))
    ensures s.pools[p].queue[0].index <= i
  {
    hide JobInv, DataFlow, Dying, Control, Deques, Domain, Data, PoolLocks, Wakeful;
    var j, q := s.pools[p].queue[0], s.pools[p].queue;
    QueueHead(c, s, p);
    assert JobId(j.stage, i) in q;
    var a :| 0 <= a < |q| && q[a] == JobId(j.stage, i);
    assert QueueOk(c, p, q);
  }

  lemma PopInOrder(c: Config, s: State, t: nat, s': State, k: nat, w: nat)
    requires Inv(c, s) && Shape(c, s') && t < |s.workers| && s.workers[t].TestQueue? && k < c.N()
    requires c.Valid() && Shape(c, s)
    requires s.pools[c.home[t]].queue != [] && Single(c, k, w) && OnceOk(s, k) && InOrder(s, k)
    requires s'.begun == s.begun && Queued(s', k) == Queued(s, k)
    requires var j := s.pools[c.home[t]].queue[0];
      && j.stage < c.N() && c.poolOf[j.stage] == c.home[t]
      && IsWaiting(s.jobs, j) && IsStarting(s'.jobs, s'.workers, j)
      && (forall i :: IsWaiting(s'.jobs, i) <==> IsWaiting(s.jobs, i) && i != j)
      && (forall i :: i != j ==> (IsStarting(s'.jobs, s'.workers, i) <==> IsStarting(s.jobs, s.workers, i)))
    ensures InOrder(s', k)
  {
    hide Inv;
    var j, b := s.pools[c.home[t]].queue[0], |s.begun[k]|;
    if j.stage == k {
      assert !IsStarting(s.jobs, s.workers, JobId(k, b)) by {
        if IsStarting(s.jobs, s.workers, JobId(k, b)) {
          StarterPool(c, s, JobId(k, b));
        }
      }
      assert IsWaiting(s.jobs, JobId(k, j.index));
      assert IsWaiting(s.jobs, JobId(k, b));
      HeadIsOldest(c, s, c.home[t], b);
      assert j == JobId(k, b);
    }
  }

  /** The thread about to start a job belongs to the job's pool. */
  lemma StarterPool(c: Config, s: State, j: JobId)
    requires Inv(c, s) && IsStarting(s.jobs, s.workers, j)
    ensures j.stage < c.N() && c.home[s.jobs[j].owner.t] == c.poolOf[j.stage]
  {
    assert WorkerOk(c, s.jobs, s.jobs[j].owner.t, s.workers[s.jobs[j].owner.t]);
  }

  /** Calling handleEvents adds the job to the begun ones. */
  lemma StartHistory(c: Config, s: State, t: nat)
    requires Inv(c, s) && History(c, s) && WorkerEnabled(c, s, t) && s.workers[t].Start?
    ensures Shape(c, WorkerStep(c, s, t)) && History(c, WorkerStep(c, s, t))
  {
    hide Inv, JobData, OwnerOk;
    InHand(c, s, t);
    StartLive(c, s, s.workers[t].job);
    var s', j := WorkerStep(c, s, t), s.workers[t].job;
    assert IsStarting(s.jobs, s.workers, j);
    forall i
      ensures IsStarting(s'.jobs, s'.workers, i) <==> IsStarting(s.jobs, s.workers, i) && i != j
    {
    }
    forall k | 0 <= k < c.N()
      ensures OnceOk(s', k)
      ensures (exists w :: Single(c, k, w)) ==> InOrder(s', k)
    {
      StartOnce(c, s, s', j, k);
    }
  }

  lemma StartLive(c: Config, s: State, j: JobId)
    requires Inv(c, s) && j in s.jobs
    ensures j.stage < c.N() && j.index < Queued(s, j.stage)
  {
    assert IsLive(c, s.stages, s.received, j);
  }

  lemma StartOnce(c: Config, s: State, s': State, j: JobId, k: nat)
    requires Shape(c, s) && Shape(c, s') && k < c.N() && OnceOk(s, k) && j.stage < c.N()
    requires s'.begun == s.begun[j.stage := s.begun[j.stage] + [j.index]] && Queued(s', k) == Queued(s, k)
    requires IsStarting(s.jobs, s.workers, j) && j.index < Queued(s, j.stage)
    requires forall i :: IsWaiting(s'.jobs, i) <==> IsWaiting(s.jobs, i)
    requires forall i :: IsStarting(s'.jobs, s'.workers, i) <==> IsStarting(s.jobs, s.workers, i) && i != j
    ensures OnceOk(s', k) && (InOrder(s, k) ==> InOrder(s', k))
  {
    if j.stage == k {
      assert j == JobId(k, j.index);
      var b, b' := s.begun[k], s'.begun[k];
      assert forall i: nat :: i in b' <==> i in b || i == j.index;
    }
  }

  // ---------------------------------------------------------------- main thread

  /** Only released jobs disappear, only idle threads move. */
  lemma QuietMain(c: Config, s: State, s': State)
    requires Shape(c, s) && Shape(c, s') && s'.begun == s.begun
    requires forall k :: 0 <= k < c.N() ==> Queued(s', k) == Queued(s, k)
    requires forall t :: 0 <= t < |s.workers| ==>
      s'.workers[t] == s.workers[t] || (!s.workers[t].Start? && !s'.workers[t].Start?)
    requires forall j :: j in s'.jobs ==> j in s.jobs && s'.jobs[j].owner == s.jobs[j].owner
    requires forall j :: j in s.jobs && s.jobs[j].owner != Released ==> j in s'.jobs
    ensures Quiet(c, s, s')
  {
  }

  lemma StageQuiet(c: Config, s: State, wake: Option<nat>)
    requires Inv(c, s) && MainEnabled(c, s) && s.cur >= 0 && !s.stages[s.cur].TestRoom? && !s.stages[s.cur].Hand?
    ensures Shape(c, StageStep(c, s, s.cur, wake)) && Quiet(c, s, StageStep(c, s, s.cur, wake))
  {
    hide StageStep, Inv, Quiet;
    var pc := s.stages[s.cur];
    if pc.LockJob? || pc.TestDone? || pc.InSink? || pc.Poll? || pc.Polled? {
      StageJobQuiet(c, s, wake);
    } else {
      StagePoolQuiet(c, s, wake);
    }
  }

  lemma StageJobQuiet(c: Config, s: State, wake: Option<nat>)
    requires Inv(c, s) && MainEnabled(c, s) && s.cur >= 0
    requires var pc := s.stages[s.cur]; pc.LockJob? || pc.TestDone? || pc.InSink? || pc.Poll? || pc.Polled?
    ensures Shape(c, StageStep(c, s, s.cur, wake)) && Quiet(c, s, StageStep(c, s, s.cur, wake))
  {
    hide JobInv, PoolInv, DataFlow, Data, PipelineSafety.Queued, Deques, Domain, Dying, Quiet, DequeOk, Control;
    ActiveStage(c, s);
    QuietMain(c, s, StageStep(c, s, s.cur, wake));
  }

  lemma StagePoolQuiet(c: Config, s: State, wake: Option<nat>)
    requires Inv(c, s) && MainEnabled(c, s) && s.cur >= 0 && !s.stages[s.cur].TestRoom? && !s.stages[s.cur].Hand?
    requires var pc := s.stages[s.cur]; !(pc.LockJob? || pc.TestDone? || pc.InSink? || pc.Poll? || pc.Polled?)
    ensures Shape(c, StageStep(c, s, s.cur, wake)) && Quiet(c, s, StageStep(c, s, s.cur, wake))
  {
    hide JobInv, PoolInv, DataFlow, Data, PipelineSafety.Queued, Deques, Domain, Dying, Quiet, DequeOk, Settled;
    ActiveStage(c, s);
    QuietMain(c, s, StageStep(c, s, s.cur, wake));
  }

  lemma CallQuiet(c: Config, s: State)
    requires Inv(c, s) && MainEnabled(c, s) && s.cur >= 0 && s.stages[s.cur].Hand?
    ensures Shape(c, StageStep(c, s, s.cur, None)) && Quiet(c, s, StageStep(c, s, s.cur, None))
  {
    hide JobInv, PoolInv, DataFlow, Data, PipelineSafety.Queued, Deques, Domain, Dying, Quiet;
    HandedOn(c, s);
    QuietMain(c, s, StageStep(c, s, s.cur, None));
  }

  lemma OutsideQuiet(c: Config, s: State)
    requires Inv(c, s) && MainEnabled(c, s) && s.cur == -1
    ensures Shape(c, OutsideStep(c, s)) && Quiet(c, s, OutsideStep(c, s))
  {
    hide JobInv, PoolInv, DataFlow, Data, PipelineSafety.Queued, Deques, Domain, Dying, Quiet;
    QuietMain(c, s, OutsideStep(c, s));
  }

  /** Queueing a job adds one waiting job, the youngest of its stage. */
  lemma EnqueueHistory(c: Config, s: State, wake: Option<nat>)
    requires Inv(c, s) && History(c, s) && MainEnabled(c, s) && s.cur >= 0 && s.stages[s.cur].TestRoom?
    requires PicksWaker(c, s, wake)
    ensures Shape(c, StageStep(c, s, s.cur, wake)) && History(c, StageStep(c, s, s.cur, wake))
  {
    hide Inv, OnceOk, InOrder, Quiet;
    var s' := StageStep(c, s, s.cur, wake);
    var k, p := s.cur, c.poolOf[s.cur];
    if |s.pools[p].queue| >= c.maxQueue[p] {
      QuietMain(c, s, s');
      QuietKeeps(c, s, s');
    } else {
      var j := JobId(k, |s.received[k]| - 1);
      NewJob(c, s, s', j);
      forall i | 0 <= i < c.N()
        ensures OnceOk(s', i)
        ensures (exists w :: Single(c, i, w)) ==> InOrder(s', i)
      {
        EnqueueOnce(c, s, s', j, i);
      }
    }
  }

  lemma NewJob(c: Config, s: State, s': State, j: JobId)
    requires Inv(c, s) && Shape(c, s') && s.cur >= 0 && s.stages[s.cur].TestRoom? && s.received[s.cur] != []
    requires j == JobId(s.cur, |s.received[s.cur]| - 1)
    requires j in s'.jobs && s'.jobs[j].owner == Waiting && s'.jobs == s.jobs[j := s'.jobs[j]]
    requires forall t :: 0 <= t < |s.workers| ==>
      s'.workers[t] == s.workers[t] || (!s.workers[t].Start? && !s'.workers[t].Start?)
    ensures j !in s.jobs
    ensures forall i :: IsWaiting(s'.jobs, i) <==> IsWaiting(s.jobs, i) || i == j
    ensures forall i :: IsStarting(s'.jobs, s'.workers, i) <==> IsStarting(s.jobs, s.workers, i)
    ensures forall i :: i in s.jobs ==> i.stage < c.N() && i.index < Queued(s, i.stage)
  {
    hide JobInv, PoolInv, DataFlow, Data, PipelineSafety.Queued, Deques, Control, Dying, Settled, Domain, IsLive;
    IndexBelow(c, s);
    assert j !in s.jobs;
    hide Queued;
  }

  /** The jobs that exist have been queued before. */
  lemma IndexBelow(c: Config, s: State)
    requires Inv(c, s) && s.cur >= 0 && s.stages[s.cur].TestRoom? && s.received[s.cur] != []
    ensures forall i :: i in s.jobs ==> i.stage < c.N() && i.index < Queued(s, i.stage)
    ensures Queued(s, s.cur) == |s.received[s.cur]| - 1
  {
    hide JobInv, PoolInv, DataFlow, Data, PipelineSafety.Queued, Deques, Control, Dying, Settled;
    forall i | i in s.jobs
      ensures i.stage < c.N() && i.index < Queued(s, i.stage)
    {
      assert IsLive(c, s.stages, s.received, i);
    }
  }

  lemma EnqueueOnce(c: Config, s: State, s': State, j: JobId, k: nat)
    requires Shape(c, s) && Shape(c, s') && k < c.N() && OnceOk(s, k) && j.stage < c.N()
    requires s'.begun == s.begun && j !in s.jobs && j.index == Queued(s, j.stage)
    requires Queued(s', k) == Queued(s, k) + if k == j.stage then 1 else 0
    requires forall i :: IsWaiting(s'.jobs, i) <==> IsWaiting(s.jobs, i) || i == j
    requires forall i :: IsStarting(s'.jobs, s'.workers, i) <==> IsStarting(s.jobs, s.workers, i)
    requires forall i :: i in s.jobs ==> i.stage < c.N() && i.index < Queued(s, i.stage)
    ensures OnceOk(s', k) && (InOrder(s, k) ==> InOrder(s', k))
  {
    var b := |s.begun[k]|;
    assert b > 0 ==> s.begun[k][b - 1] in s.begun[k];
  }

  // ---------------------------------------------------------------- runs

  lemma StepHistory(c: Config, s: State, m: Move)
    requires Inv(c, s) && History(c, s) && Enabled(c, s, m)
    ensures Shape(c, Step(c, s, m)) && History(c, Step(c, s, m))
  {
    hide Inv, History, Quiet;
    var s' := Step(c, s, m);
    match m
    case MainMove(wake) =>
      if s.cur < 0 { OutsideQuiet(c, s); QuietKeeps(c, s, s'); }
      else if s.stages[s.cur].TestRoom? { EnqueueHistory(c, s, wake); }
      else if s.stages[s.cur].Hand? { CallQuiet(c, s); QuietKeeps(c, s, s'); }
      else { StageQuiet(c, s, wake); QuietKeeps(c, s, s'); }
    case WorkerMove(t) =>
      if s.workers[t].Start? { StartHistory(c, s, t); }
      else if s.workers[t].TestQueue? && s.pools[c.home[t]].queue != [] { PopHistory(c, s, t); }
      else { WorkerQuiet(c, s, t); QuietKeeps(c, s, s'); }
    case _ => QuietMain(c, s, s'); QuietKeeps(c, s, s');
  }

  lemma {:induction false} RunHistory(c: Config, s: State, ms: seq<Move>, s': State)
    requires Inv(c, s) && History(c, s) && Runs(c, s, ms, s')
    ensures Inv(c, s') && History(c, s')
    decreases |ms|
  {
    hide Inv, History;
    if ms != [] {
      StepKeeps(c, s, ms[0]);
      StepHistory(c, s, ms[0]);
      RunHistory(c, Step(c, s, ms[0]), ms[1..], s');
    }
  }
}
