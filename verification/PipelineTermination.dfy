/** A budget that every step but a spurious wake-up spends from, and the resulting end of every run. */
module PipelineTermination {
  import opened Options
  import opened Pipeline
  import opened PipelineSafety
  import opened PipelineProgress
  import PipelineTheorems

  // ---------------------------------------------------------------- sums

  function Total<T>(s: seq<T>, weight: T -> nat): nat {
    if s == [] then 0 else weight(s[0]) + Total(s[1..], weight)
  }

  lemma {:induction false} TotalUpdate<T>(s: seq<T>, i: nat, x: T, weight: T -> nat)
    requires i < |s|
    ensures Total(s[i := x], weight) == Total(s, weight) - weight(s[i]) + weight(x)
  {
    if i == 0 {
      assert s[0 := x][1..] == s[1..];
    } else {
      assert s[i := x][1..] == s[1..][i - 1 := x];
      TotalUpdate(s[1..], i - 1, x, weight);
    }
  }

  lemma {:induction false} TotalRaise<T>(s: seq<T>, s': seq<T>, weight: T -> nat, d: nat)
    requires |s'| == |s| && forall i :: 0 <= i < |s| ==> weight(s'[i]) <= weight(s[i]) + d
    ensures Total(s', weight) <= Total(s, weight) + d * |s|
  {
    if s != [] {
      TotalRaise(s[1..], s'[1..], weight, d);
    }
  }

  lemma {:induction false} TotalBound<T>(s: seq<T>, weight: T -> nat, m: nat)
    requires forall i :: 0 <= i < |s| ==> weight(s[i]) <= m
    ensures Total(s, weight) <= m * |s|
  {
    if s != [] {
      TotalBound(s[1..], weight, m);
    }
  }

  // ---------------------------------------------------------------- the budget

  function WorkerWeight(pc: WorkerPc): nat {
    match pc
    case Exited => 0
    case Asleep => 1
    case TestQueue => 2
    case TestDie => 3
    case Acquire => 4
    case Unlock(_) => 5
    case SetFlag(_) => 8
    case Finish(_) => 9
    case Run(_) => 10
    case Start(_) => 11
  }

  function StageWeight(pc: StagePc): nat {
    match pc
    case Idle => 0
    case Hand(_) => 1
    case AwaitDone(_) => 2
    case TestDone(_) => 3
    case LockJob(_) => 4
    case Polled(_) => 5
    case Poll => 6
    case Drain => 6
    case InSink(_) => 7
    case AwaitRoom => 21
    case TestRoom => 22
    case LockPool => 23
  }

  function QueueWeight(p: Pool): nat { |p.queue| }

  function Count(r: seq<Buffer>): nat { |r| }

  /** What destroying one stage may cost. */
  function CloseCost(c: Config): nat { 3 * |c.home| + 4 }

  function Cost(c: Config, stages: int): int { stages * CloseCost(c) }

  function PhaseWeight(c: Config, ph: Phase): int {
    match ph
    case Feeding => Cost(c, c.N()) + 1 + c.N() + 7
    case Finishing(k) => Cost(c, c.N()) + 1 + c.N() - k
    case Closing(k) => Cost(c, c.N() - k) + 1
    case CloseDie(k) => Cost(c, c.N() - k)
    case CloseBroadcast(k) => Cost(c, c.N() - k) - 1
    case CloseJoin(k) => Cost(c, c.N() - k - 1) + 2
    case Finished => 0
  }

  /** The pushEvents calls of a whole run. */
  function Pushes(c: Config): nat { (c.N() + 1) * |c.inputs| }

  function Budget(c: Config, s: State): int {
    30 * (Pushes(c) - Total(s.received, Count))
    + Total(s.stages, StageWeight) + Total(s.workers, WorkerWeight) + 12 * Total(s.pools, QueueWeight)
    + PhaseWeight(c, s.phase)
  }

  lemma CostStep(c: Config, k: int)
    ensures Cost(c, k + 1) == Cost(c, k) + 3 * |c.home| + 4
    ensures k >= 0 ==> Cost(c, k) >= 0
  {
  }

  lemma ReceivedBound(c: Config, s: State)
    requires Inv(c, s)
    ensures Total(s.received, Count) <= Pushes(c)
  {
    hide Inv;
    PipelineProgress.Shapely(c, s);
    forall k | 0 <= k < |s.received|
      ensures Count(s.received[k]) <= |c.inputs|
    {
      if s.received[k] != [] {
        PipelineTheorems.Composed(c, s, k, |s.received[k]| - 1);
      }
    }
    TotalBound(s.received, Count, |c.inputs|);
    assert |c.inputs| * |s.received| == (c.N() + 1) * |c.inputs|;
  }

  lemma PhaseNonNegative(c: Config, ph: Phase)
    requires ph.Finishing? || ph.Closing? ==> ph.stage <= c.N()
    requires ph.CloseDie? || ph.CloseBroadcast? || ph.CloseJoin? ==> ph.stage < c.N()
    ensures PhaseWeight(c, ph) >= 0
  {
    hide Cost, CloseCost;
    CostStep(c, c.N());
    if !ph.Feeding? && !ph.Finished? {
      CostStep(c, c.N() - ph.stage);
      CostStep(c, c.N() - ph.stage - 1);
    }
  }

  lemma PhaseBound(c: Config, s: State)
    requires Inv(c, s) && ClosingInv(c, s)
    ensures s.phase.Finishing? || s.phase.Closing? ==> s.phase.stage <= c.N()
    ensures s.phase.CloseDie? || s.phase.CloseBroadcast? || s.phase.CloseJoin? ==> s.phase.stage < c.N()
  {
    hide JobInv, PoolInv, Data, Queued, Deques, Domain, Dying, DataFlow;
  }

  lemma BudgetNonNegative(c: Config, s: State)
    requires Inv(c, s) && ClosingInv(c, s)
    ensures Budget(c, s) >= 0
  {
    hide Inv, ClosingInv, Total, Pushes, PhaseWeight;
    ReceivedBound(c, s);
    PhaseBound(c, s);
    PhaseNonNegative(c, s.phase);
  }

  // ---------------------------------------------------------------- pool threads

  lemma WorkerSpends(c: Config, s: State, t: nat)
    requires Inv(c, s) && WorkerEnabled(c, s, t)
    ensures Budget(c, WorkerStep(c, s, t)) < Budget(c, s)
  {
    hide Inv, WakeForRoom, WakeForDone, Cost, Pushes, CloseCost, Total;
    var s', p := WorkerStep(c, s, t), c.home[t];
    TotalUpdate(s.workers, t, s'.workers[t], WorkerWeight);
    match s.workers[t]
    case Acquire => TotalUpdate(s.pools, p, s'.pools[p], QueueWeight);
    case TestDie => if s.pools[p].die { TotalUpdate(s.pools, p, s'.pools[p], QueueWeight); }
    case TestQueue =>
      TotalUpdate(s.pools, p, s'.pools[p], QueueWeight);
      if s.pools[p].queue != [] { RoomWeight(c, s, p); }
    case SetFlag(j) => DoneWeight(s, j);
    case _ =>
  }

  lemma RoomWeight(c: Config, s: State, p: nat)
    ensures Total(WakeForRoom(c, s, p), StageWeight) <= Total(s.stages, StageWeight) + 2
  {
    if WakeForRoom(c, s, p) != s.stages {
      TotalUpdate(s.stages, s.cur, LockPool, StageWeight);
    }
  }

  lemma DoneWeight(s: State, j: JobId)
    ensures Total(WakeForDone(s, j), StageWeight) <= Total(s.stages, StageWeight) + 2
  {
    if WakeForDone(s, j) != s.stages {
      TotalUpdate(s.stages, s.cur, LockJob(j), StageWeight);
    }
  }

  // ---------------------------------------------------------------- main thread

  /** queueJob pays for the job's whole way through a thread, and for the thread it wakes. */
  lemma QueueSpends(c: Config, s: State, wake: Option<nat>)
    requires Inv(c, s) && MainEnabled(c, s) && s.cur >= 0 && PicksWaker(c, s, wake)
    requires s.stages[s.cur].LockPool? || s.stages[s.cur].TestRoom?
    ensures Budget(c, StageStep(c, s, s.cur, wake)) < Budget(c, s)
  {
    hide Inv, PhaseWeight, Pushes, Total;
    var k, p := s.cur, c.poolOf[s.cur];
    var s' := StageStep(c, s, k, wake);
    TotalUpdate(s.stages, k, s'.stages[k], StageWeight);
    TotalUpdate(s.pools, p, s'.pools[p], QueueWeight);
    if s.stages[k].TestRoom? && wake.Some? {
      TotalUpdate(s.workers, wake.value, Acquire, WorkerWeight);
    }
  }

  /** A sink call is paid for by the buffer it delivers. */
  lemma HandSpends(c: Config, s: State)
    requires Inv(c, s) && MainEnabled(c, s) && s.cur >= 0 && s.stages[s.cur].Hand?
    ensures Budget(c, StageStep(c, s, s.cur, None)) < Budget(c, s)
  {
    hide Inv, PhaseWeight, Pushes, Total;
    var k, j := s.cur, s.stages[s.cur].job;
    var s' := StageStep(c, s, k, None);
    HandedOn(c, s);
    TotalUpdate(s.stages, k, InSink(j), StageWeight);
    TotalUpdate(s.received, k + 1, s'.received[k + 1], Count);
    if k + 1 < c.N() {
      StageAbove(c, s);
      TotalUpdate(s.stages[k := InSink(j)], k + 1, LockPool, StageWeight);
    }
  }

  /** finish() of one stage after the other. */
  lemma DrainSpends(c: Config, s: State)
    requires Inv(c, s) && MainEnabled(c, s) && s.cur >= 0 && s.stages[s.cur].Drain?
    ensures Budget(c, StageStep(c, s, s.cur, None)) < Budget(c, s)
  {
    hide Inv, Cost, Pushes, CloseCost, Total, DequeOk;
    var k := s.cur;
    var s' := StageStep(c, s, k, None);
    ActiveStage(c, s);
    TotalUpdate(s.stages, k, if s.deques[k] == [] then Idle else s'.stages[k], StageWeight);
    if s.deques[k] == [] && k + 1 < c.N() {
      StageAbove(c, s);
      TotalUpdate(s.stages[k := Idle], k + 1, Drain, StageWeight);
    }
  }

  lemma StageSpends(c: Config, s: State, wake: Option<nat>)
    requires Inv(c, s) && MainEnabled(c, s) && s.cur >= 0 && PicksWaker(c, s, wake)
    ensures Budget(c, StageStep(c, s, s.cur, wake)) < Budget(c, s)
  {
    hide Inv, PhaseWeight, Pushes, Total;
    var k := s.cur;
    var pc := s.stages[k];
    if pc.LockPool? || pc.TestRoom? { QueueSpends(c, s, wake); }
    else if pc.Drain? { DrainSpends(c, s); }
    else if pc.Hand? { HandSpends(c, s); }
    else { TotalUpdate(s.stages, k, StageStep(c, s, k, wake).stages[k], StageWeight); }
  }

  lemma StageAbove(c: Config, s: State)
    requires Inv(c, s) && s.cur + 1 < c.N()
    ensures s.stages[s.cur + 1] == Idle
  {
  }

  lemma OutsideSpends(c: Config, s: State)
    requires Inv(c, s) && MainEnabled(c, s) && s.cur == -1
    ensures Budget(c, OutsideStep(c, s)) < Budget(c, s)
  {
    hide Inv, Cost, Pushes, CloseCost, Total;
    var s' := OutsideStep(c, s);
    match s.phase
    case Feeding =>
      StageAbove(c, s);
      TotalUpdate(s.stages, 0, s'.stages[0], StageWeight);
      if s.fed < |c.inputs| { TotalUpdate(s.received, 0, s'.received[0], Count); }
    case Closing(k) =>
      if k < c.N() {
        TotalUpdate(s.pools, c.poolOf[k], s'.pools[c.poolOf[k]], QueueWeight);
        CostStep(c, c.N() - k - 1);
      } else {
        CostStep(c, 0);
      }
    case CloseDie(k) => TotalUpdate(s.pools, c.poolOf[k], s'.pools[c.poolOf[k]], QueueWeight);
    case CloseBroadcast(k) =>
      TotalRaise(s.workers, s'.workers, WorkerWeight, 3);
      CostStep(c, c.N() - k - 1);
    case _ =>
  }

  // ---------------------------------------------------------------- runs

  predicate IsSpurious(m: Move) { m.SpuriousWorker? || m.SpuriousMain? }

  function Spurious(ms: seq<Move>): nat {
    if ms == [] then 0 else (if IsSpurious(ms[0]) then 1 else 0) + Spurious(ms[1..])
  }

  lemma StepSpends(c: Config, s: State, m: Move)
    requires Inv(c, s) && Enabled(c, s, m)
    ensures Budget(c, Step(c, s, m)) <= Budget(c, s) + if IsSpurious(m) then 3 else -1
  {
    hide Inv;
    match m
    case MainMove(wake) => if s.cur >= 0 { StageSpends(c, s, wake); } else { OutsideSpends(c, s); }
    case WorkerMove(t) => WorkerSpends(c, s, t);
    case SpuriousWorker(t) => TotalUpdate(s.workers, t, Acquire, WorkerWeight);
    case SpuriousMain => TotalUpdate(s.stages, s.cur, Step(c, s, m).stages[s.cur], StageWeight);
  }

  lemma {:induction false} RunSpends(c: Config, s: State, ms: seq<Move>, s': State)
    requires Inv(c, s) && ClosingInv(c, s) && Runs(c, s, ms, s')
    ensures Inv(c, s') && ClosingInv(c, s')
    ensures Budget(c, s') + |ms| <= Budget(c, s) + 4 * Spurious(ms)
    decreases |ms|
  {
    hide Inv, ClosingInv, Budget;
    if ms != [] {
      StepKeeps(c, s, ms[0]);
      StepClosing(c, s, ms[0]);
      StepSpends(c, s, ms[0]);
      RunSpends(c, Step(c, s, ms[0]), ms[1..], s');
    }
  }

  lemma StartsOpen(c: Config)
    requires c.Valid()
    ensures ClosingInv(c, Initial(c))
  {
    forall p | 0 <= p < |c.maxQueue|
      ensures c.ClientsFrom(p, 0) >= 1
    {
      assert c.HasWorker(p);
    }
  }

  /** How many steps a run can have, apart from spurious wake-ups: linear in the number of buffers. */
  function MaxSteps(c: Config): nat {
    30 * Pushes(c) + 4 * |c.home| + c.N() * CloseCost(c) + c.N() + 8
  }

  /** The pipeline always terminates: a run is at most MaxSteps long, plus four steps for each spurious
      wake-up; until it is finished some thread can move without one; and once it is, every thread of
      every pool has been joined. */
  lemma Terminates(c: Config, ms: seq<Move>, s: State) returns (next: Move)
    requires c.Valid() && Runs(c, Initial(c), ms, s)
    ensures |ms| <= MaxSteps(c) + 4 * Spurious(ms)
    ensures s.phase != Finished ==> !IsSpurious(next) && Enabled(c, s, next)
    ensures s.phase == Finished ==> forall t :: 0 <= t < |s.workers| ==> s.workers[t] == Exited
  {
    InitialInv(c);
    StartsOpen(c);
    RunSpends(c, Initial(c), ms, s);
    BudgetNonNegative(c, s);
    InitialBudget(c);
    if s.phase == Finished {
      AllJoined(c, s);
      next := MainMove(None);
    } else {
      next := CanMove(c, s);
    }
  }

  lemma AllJoined(c: Config, s: State)
    requires Inv(c, s) && ClosingInv(c, s) && s.phase == Finished
    ensures forall t :: 0 <= t < |s.workers| ==> s.workers[t] == Exited
  {
    forall t | 0 <= t < |s.workers|
      ensures s.workers[t] == Exited
    {
      assert AllExited(c, s.workers, c.home[t]);
    }
  }

  lemma InitialBudget(c: Config)
    requires c.Valid()
    ensures Budget(c, Initial(c)) <= MaxSteps(c)
  {
    hide Total;
    var s := Initial(c);
    TotalBound(s.workers, WorkerWeight, 4);
    TotalBound(s.stages, StageWeight, 0);
    TotalBound(s.pools, QueueWeight, 0);
  }
}
