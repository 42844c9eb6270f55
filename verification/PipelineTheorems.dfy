/** The guarantees of the pipeline over all runs. */
module PipelineTheorems {
  import opened Options
  import opened Pipeline
  import opened PipelineSafety
  import PipelineHistory

  lemma {:induction false} Composed(c: Config, s: State, k: nat, i: nat)
    requires Inv(c, s) && k <= c.N() && i < |s.received[k]|
    ensures i < |c.inputs| && s.received[k][i] == c.Through(k, c.inputs[i])
  {
    if k > 0 {
      assert Relays(c, k - 1, s.received[k - 1], s.received[k]);
      Composed(c, s, k - 1, i);
    }
  }

  /** Whatever the scheduler does, at every moment each sink has received, in push order and each once,
      what the stages before it make of the first few inputs. */
  lemma DeliveredInOrder(c: Config, ms: seq<Move>, s: State, k: nat)
    requires c.Valid() && Runs(c, Initial(c), ms, s) && k <= c.N()
    ensures |s.received| == c.N() + 1 && |s.received[k]| <= |c.inputs|
    ensures forall i :: 0 <= i < |s.received[k]| ==> s.received[k][i] == c.Through(k, c.inputs[i])
  {
    Reached(c, ms, s);
    forall i | 0 <= i < |s.received[k]|
      ensures i < |c.inputs| && s.received[k][i] == c.Through(k, c.inputs[i])
    {
      Composed(c, s, k, i);
    }
    if s.received[k] != [] {
      Composed(c, s, k, |s.received[k]| - 1);
    }
  }

  lemma Reached(c: Config, ms: seq<Move>, s: State)
    requires c.Valid() && Runs(c, Initial(c), ms, s)
    ensures Inv(c, s)
  {
    hide Inv;
    InitialInv(c);
    RunKeeps(c, Initial(c), ms, s);
  }

  /** Once finish() has returned, every sink has received everything and every job has been deleted. */
  lemma DeliveredByFinish(c: Config, ms: seq<Move>, s: State, k: nat)
    requires c.Valid() && Runs(c, Initial(c), ms, s) && k <= c.N()
    requires s.phase.Closing? || s.phase.CloseDie? || s.phase.CloseBroadcast? || s.phase.CloseJoin? || s.phase.Finished?
    ensures |s.received| == c.N() + 1 && s.received[k] == seq(|c.inputs|, i requires 0 <= i < |c.inputs| => c.Through(k, c.inputs[i]))
    ensures s.jobs == map[]
  {
    Reached(c, ms, s);
    NothingLeft(c, s);
    AllHandedOn(c, s, k);
    DeliveredInOrder(c, ms, s, k);
  }

  lemma {:induction false} AllHandedOn(c: Config, s: State, k: nat)
    requires Inv(c, s) && Closed(s.phase) && k <= c.N()
    ensures |s.received[k]| == |c.inputs|
  {
    if k > 0 {
      AllHandedOn(c, s, k - 1);
      assert DequeOk(k - 1, s.stages[k - 1], s.deques[k - 1], |s.received[k - 1]|, |s.received[k]|);
    }
  }

  /** At every moment: a thread works only on a job that has not been deleted and that no other thread
      has; the main thread deletes only a job that no thread can reach; no queue is longer than its bound;
      and no pool dies while a job is left. */
  lemma SafeAccess(c: Config, ms: seq<Move>, s: State)
    requires c.Valid() && Runs(c, Initial(c), ms, s)
    ensures forall t :: 0 <= t < |s.workers| && Holding(s.workers[t]).Some? ==> Holding(s.workers[t]).value in s.jobs
    ensures forall t, t' :: 0 <= t < t' < |s.workers| && Holding(s.workers[t]).Some? ==>
              Holding(s.workers[t]) != Holding(s.workers[t'])
    ensures MainJob(s.stages, s.cur).Some? ==> MainJob(s.stages, s.cur).value in s.jobs
    ensures forall k, t :: 0 <= k < |s.stages| && 0 <= t < |s.workers| && s.stages[k].InSink? ==>
              Holding(s.workers[t]) != Some(s.stages[k].job)
    ensures forall p :: 0 <= p < |s.pools| ==> p < |c.maxQueue| && |s.pools[p].queue| <= c.maxQueue[p]
    ensures (exists p :: 0 <= p < |s.pools| && s.pools[p].die) ==> s.jobs == map[]
  {
    Reached(c, ms, s);
    forall t | 0 <= t < |s.workers|
      ensures WorkerOk(c, s.jobs, t, s.workers[t])
    {
    }
    forall p | 0 <= p < |s.pools|
      ensures QueueOk(c, p, s.pools[p].queue)
    {
    }
    if Closed(s.phase) {
      NothingLeft(c, s);
    }
  }

  /** handleEvents is called at most once for each buffer that was pushed, and once finish() has returned,
      exactly once for each. */
  lemma HandledOnce(c: Config, ms: seq<Move>, s: State, k: nat)
    requires c.Valid() && Runs(c, Initial(c), ms, s) && k < c.N()
    ensures |s.begun| == c.N()
    ensures forall a, b :: 0 <= a < b < |s.begun[k]| ==> s.begun[k][a] != s.begun[k][b]
    ensures forall i :: i in s.begun[k] ==> i < |c.inputs|
    ensures s.phase.Closing? || s.phase.Finished? ==> forall i: nat :: i in s.begun[k] <==> i < |c.inputs|
  {
    Remembered(c, ms, s);
    assert PipelineHistory.OnceOk(s, k);
    DeliveredInOrder(c, ms, s, k);
    if Closed(s.phase) {
      NothingLeft(c, s);
      AllHandedOn(c, s, k);
    }
  }

  /** A stage whose pool has a single thread handles its buffers in push order: so the file that the last
      stage writes is in the order of the input. */
  lemma HandledInOrder(c: Config, ms: seq<Move>, s: State, k: nat, w: nat)
    requires c.Valid() && Runs(c, Initial(c), ms, s) && k < c.N()
    requires w < |c.home| && forall t :: 0 <= t < |c.home| && c.home[t] == c.poolOf[k] ==> t == w
    ensures |s.begun| == c.N() && |s.begun[k]| <= |c.inputs|
    ensures forall a :: 0 <= a < |s.begun[k]| ==> s.begun[k][a] == a
    ensures s.phase.Closing? || s.phase.Finished? ==> |s.begun[k]| == |c.inputs|
  {
    Remembered(c, ms, s);
    assert PipelineHistory.Single(c, k, w);
    assert PipelineHistory.OnceOk(s, k) && PipelineHistory.InOrder(s, k);
    HandledOnce(c, ms, s, k);
    var b := |s.begun[k]|;
    assert b > 0 ==> s.begun[k][b - 1] in s.begun[k];
    if Closed(s.phase) && |c.inputs| > 0 {
      assert |c.inputs| - 1 in s.begun[k] || s.phase.CloseDie? || s.phase.CloseBroadcast? || s.phase.CloseJoin?;
    }
  }

  /** On such a stage two calls of handleEvents never overlap. */
  lemma NeverOverlap(c: Config, ms: seq<Move>, s: State, k: nat, w: nat, t: nat, t': nat)
    requires c.Valid() && Runs(c, Initial(c), ms, s) && k < c.N()
    requires w < |c.home| && forall t :: 0 <= t < |c.home| && c.home[t] == c.poolOf[k] ==> t == w
    requires t < |s.workers| && s.workers[t].Run? && s.workers[t].job.stage == k
    requires t' < |s.workers| && s.workers[t'].Run? && s.workers[t'].job.stage == k
    ensures t == t'
  {
    hide Inv, Runs;
    Reached(c, ms, s);
    RunsAtHome(c, s, t);
    RunsAtHome(c, s, t');
  }

  lemma RunsAtHome(c: Config, s: State, t: nat)
    requires Inv(c, s) && t < |s.workers| && s.workers[t].Run?
    ensures t < |c.home| && s.workers[t].job.stage < |c.poolOf| && c.home[t] == c.poolOf[s.workers[t].job.stage]
  {
    hide MainInv, DataFlow, Data, PoolInv, Queued, Settled, Dying, Owners, MainJobLock;
    assert WorkerOk(c, s.jobs, t, s.workers[t]);
  }

  lemma Remembered(c: Config, ms: seq<Move>, s: State)
    requires c.Valid() && Runs(c, Initial(c), ms, s)
    ensures Inv(c, s) && PipelineHistory.History(c, s)
  {
    hide Inv;
    InitialInv(c);
    PipelineHistory.RunHistory(c, Initial(c), ms, s);
  }

  /** A step of the main thread wakes no sleeper but the one that is signalled, of the pool whose queue has got a
      job, and those of the pool that is closed. */
  lemma WakesOwnPool(c: Config, s: State, wake: Option<nat>, t: nat)
    requires Enabled(c, s, MainMove(wake)) && t < |s.workers| && s.workers[t] == Asleep
    requires Step(c, s, MainMove(wake)).workers[t] != Asleep
    ensures t < |c.home|
    ensures if s.cur >= 0 then wake == Some(t) && c.home[t] == c.poolOf[s.cur]
            else s.phase.CloseBroadcast? && c.home[t] == c.poolOf[s.phase.stage]
  {
  }
}
