/** The consumer reads exactly the published frames, whole and in order, as long as they fit a slot; and
    only then. */
module RingSafety {
  import opened Options
  import opened Arithmetic
  import opened WrapRing
  import opened SharedMemory
  import opened FrameRing
  import opened RingPlaces

  /** Published frames are whole until they are consumed, and the consumer has read them. */
  ghost predicate Intact(s: State)
    requires Placed(s)
  {
    && (forall k :: |s.consumed| <= k < |s.published| ==> s.slots[Index(k, s.n)] == Whole(s.published[k].frame))
    && (forall k :: 0 <= k < |s.consumed| ==> s.consumed[k] == Whole(s.published[k].frame))
    && (s.worker.Filled? && s.worker.slot.Some? ==> s.slots[s.worker.slot.value] == Whole(s.worker.frame))
  }

  /** A frame on its way into a slot has room there. */
  predicate Fits(w: Worker) {
    && (w.Decided? && w.keep ==> w.size <= MAX_FRAME_SIZE)
    && (w.Filling? && w.slot.Some? ==> w.size <= MAX_FRAME_SIZE)
  }

  ghost predicate Inv(s: State) {
    Placed(s) && Intact(s) && Fits(s.worker)
  }

  /** The slot being filled lies outside the window that the consumer may read. */
  lemma StoreKeeps(s: State, content: Slot, words: nat)
    requires Inv(s) && s.worker.Filling? && words <= s.worker.size
    ensures var s' := Store(s, content, words);
      Inv(s') && (s.worker.slot.Some? ==> s'.slots[s.worker.slot.value] == content)
  {
    hide Index, Wrapped, Stored;
    if s.worker.slot.Some? {
      StaysInSlot(s.slots, s.worker.slot.value, content, s.worker.frame, words);
      forall k | |s.consumed| <= k < |s.published|
        ensures Index(k, s.n) != s.worker.slot.value
      {
        NextSlotFree(|s.published|, |s.consumed|, s.n, k);
      }
    }
  }

  lemma StaysInSlot(slots: seq<Slot>, i: nat, content: Slot, frame: nat, words: nat)
    requires i < |slots| && words <= MAX_FRAME_SIZE
    ensures Stored(slots, i, content, frame, words) == slots[i := content]
  {
    CoversOne(words);
    hide Covered;
  }

  lemma ConsumeKeeps(s: State, count: nat)
    requires Inv(s) && Enabled(s, Consume(count))
    ensures Inv(Step(s, Consume(count)))
  {
    hide Index, Wrapped, Occupancy, IsFull;
    ConsumePlaces(s, count);
    var s' := Step(s, Consume(count));
    forall k | |s.consumed| <= k < |s'.consumed|
      ensures s'.consumed[k] == Whole(s.published[k].frame)
    {
      assert s'.consumed[k] == Window(s, count)[k - |s.consumed|];
    }
  }

  /** Between resets every step keeps the ring safe as long as the frames fit: the pointers tell the
      occupancy, published frames sit whole in the slots they were claimed for until they are consumed, and
      the consumer reads exactly the published frames in order. */
  lemma StepKeeps(s: State, m: Move)
    requires Inv(s) && Enabled(s, m) && !IsReset(m) && (m.Header? ==> m.size <= MAX_FRAME_SIZE)
    ensures Inv(Step(s, m))
  {
    hide Index, Wrapped, Occupancy, IsFull;
    StepPlaces(s, m);
    match m
    case Write(words) => StoreKeeps(s, Partial(s.worker.frame), words);
    case Complete => StoreKeeps(s, Whole(s.worker.frame), s.worker.size);
    case Consume(count) => ConsumeKeeps(s, count);
    case _ =>
  }

  lemma {:induction false} RunKeeps(s: State, ms: seq<Move>, s': State)
    requires Inv(s) && Runs(s, ms, s') && AllWithin(ms, MAX_FRAME_SIZE)
    ensures Inv(s')
    decreases |ms|
  {
    hide Inv;
    if ms != [] {
      StepKeeps(s, ms[0]);
      RunKeeps(Step(s, ms[0]), ms[1..], s');
    }
  }

  /** Wiping the pointers while no slot is claimed leaves a safe ring, whatever the slots contain. */
  lemma StartIsSafe(s: State, on: bool)
    requires Shape(s) && SlotOf(s.worker) == None && Fits(s.worker)
    ensures Inv(Step(s, Start(on)))
  {
  }

  /** Over all runs of a fresh ring once it has been started, with frames that fit a slot: the occupancy is
      between 0 and n and the full test is exact; what was consumed is a prefix of what was published; and
      a slot that is being filled is none of those the consumer may read. */
  lemma RingSafe(n: nat, on: bool, ms: seq<Move>, s: State)
    requires n > 0 && Runs(Step(Fresh(n), Start(on)), ms, s) && AllWithin(ms, MAX_FRAME_SIZE)
    ensures Shape(s) && Occupancy(s.wr, s.rd, s.n) == |s.published| - |s.consumed| <= s.n
    ensures IsFull(s.wr, s.rd, s.n) <==> Occupancy(s.wr, s.rd, s.n) == s.n
    ensures forall k :: 0 <= k < |s.consumed| ==> k < |s.published| && s.consumed[k] == Whole(s.published[k].frame)
    ensures SlotOf(s.worker).Some? ==>
              forall k :: 0 <= k < Occupancy(s.wr, s.rd, s.n) ==> WindowSlot(s, k) != SlotOf(s.worker).value
  {
    hide Index, Wrapped, Occupancy, IsFull;
    StartIsSafe(Fresh(n), on);
    RunKeeps(Step(Fresh(n), Start(on)), ms, s);
    PointersSuffice(|s.published|, |s.consumed|, s.n);
    if SlotOf(s.worker).Some? {
      forall k | 0 <= k < Occupancy(s.wr, s.rd, s.n)
        ensures WindowSlot(s, k) != SlotOf(s.worker).value
      {
        SameSlot(|s.consumed|, k, s.n);
        NextSlotFree(|s.published|, |s.consumed|, s.n, |s.consumed| + k);
      }
    }
  }

  // ---------------------------------------------------------------- frames that do not fit

  /** Whatever the consumer reads is the frame that was published there, in every run without frames larger
      than limit. */
  ghost predicate ReadsWhole(n: nat, limit: nat)
    requires n > 0
  {
    forall ms: seq<Move>, s: State :: Runs(Step(Fresh(n), Start(true)), ms, s) && AllWithin(ms, limit) ==> AsPublished(s)
  }

  ghost predicate AsPublished(s: State) {
    forall k :: 0 <= k < |s.consumed| ==> k < |s.published| && s.consumed[k] == Whole(s.published[k].frame)
  }

  lemma {:induction false} RunsOn(s: State, ms: seq<Move>, s1: State, more: seq<Move>, s2: State)
    requires Runs(s, ms, s1) && Runs(s1, more, s2)
    ensures Runs(s, ms + more, s2)
    decreases |ms|
  {
    if ms == [] {
      assert ms + more == more;
    } else {
      assert (ms + more)[1..] == ms[1..] + more;
      RunsOn(Step(s, ms[0]), ms[1..], s1, more, s2);
    }
  }

  /** A ring with k whole frames in its first slots, none of them consumed. */
  function Loaded(n: nat, k: nat): State
    requires n > 0 && k <= n
  {
    State(n, k, 0, true, seq(n, i requires 0 <= i => if i < k then Whole(i) else Blank), Reading,
          seq(k, i requires 0 <= i => Entry(i, i)), [])
  }

  lemma LoadOne(n: nat, k: nat)
    requires k < n
    ensures Runs(Loaded(n, k), [Header(k, false, 2), Claim, Complete, Publish], Loaded(n, k + 1))
  {
    DivUnique(k, n, 0, k);
    DivUnique(0, n, 0, 0);
    DivUnique(k + 1, 2 * n, 0, k + 1);
    assert !IsFull(k, 0, n) && Index(k, n) == k && Wrapped(k + 1, n) == k + 1;
    hide Stored, IsFull, Index, Wrapped, Occupancy;
    var s := Loaded(n, k);
    var s1 := Step(s, Header(k, false, 2));
    var s2 := Step(s1, Claim);
    StaysInSlot(s2.slots, k, Whole(k), k, 2);
    var s3 := Step(s2, Complete);
    var s4 := Step(s3, Publish);
    assert s3.slots == Loaded(n, k + 1).slots;
    assert s4.published == Loaded(n, k + 1).published;
    Four(s, Header(k, false, 2), Claim, Complete, Publish);
  }

  lemma Four(s: State, a: Move, b: Move, c: Move, d: Move)
    requires Enabled(s, a) && !IsReset(a)
    requires var s1 := Step(s, a); Enabled(s1, b) && !IsReset(b)
    requires var s2 := Step(Step(s, a), b); Enabled(s2, c) && !IsReset(c)
    requires var s3 := Step(Step(Step(s, a), b), c); Enabled(s3, d) && !IsReset(d)
    ensures Runs(s, [a, b, c, d], Step(Step(Step(Step(s, a), b), c), d))
  {
    hide Step, Enabled;
    assert [a, b, c, d][1..] == [b, c, d] && [b, c, d][1..] == [c, d] && [c, d][1..] == [d] && [d][1..] == [];
    var s1 := Step(s, a);
    var s2 := Step(s1, b);
    var s3 := Step(s2, c);
    var s4 := Step(s3, d);
    assert Runs(s4, [], s4);
    assert Runs(s3, [d], s4);
    assert Runs(s2, [c, d], s4);
    assert Runs(s1, [b, c, d], s4);
  }

  lemma {:induction false} Load(n: nat, k: nat) returns (ms: seq<Move>)
    requires n > 0 && k <= n
    ensures Runs(Step(Fresh(n), Start(true)), ms, Loaded(n, k)) && AllWithin(ms, MAX_FRAME_SIZE)
  {
    ms := [];
    if k == 0 {
      assert Step(Fresh(n), Start(true)).slots == Loaded(n, 0).slots;
      assert Loaded(n, 0).published == [];
    } else {
      var before := Load(n, k - 1);
      LoadOne(n, k - 1);
      var more := [Header(k - 1, false, 2), Claim, Complete, Publish];
      RunsOn(Step(Fresh(n), Start(true)), before, Loaded(n, k - 1), more, Loaded(n, k));
      ms := before + more;
    }
  }

  /** A full ring of which the first frame has been consumed: while the next frame, one word too long, is
      stored in the first slot, the consumer finds it in the second. */
  lemma Overrun(n: nat) returns (ms: seq<Move>, s: State)
    requires n >= 2
    ensures Runs(Loaded(n, n), ms, s) && AllWithin(ms, MAX_FRAME_SIZE + 1)
    ensures |s.consumed| == 2 && s.published == Loaded(n, n).published && s.consumed[1] == Partial(n)
  {
    var long := Header(n, false, MAX_FRAME_SIZE + 1);
    var s0 := Loaded(n, n);
    DivUnique(n, n, 1, 0);
    DivUnique(0, n, 0, 0);
    DivUnique(1, n, 0, 1);
    DivUnique(1, 2 * n, 0, 1);
    var s1 := Step(s0, Consume(1));
    assert s1.rd == 1 && |s1.consumed| == 1;
    var s2 := Step(s1, long);
    var s3 := Step(s2, Claim);
    assert s3.worker == Filling(n, MAX_FRAME_SIZE + 1, Some(0));
    var s4 := Step(s3, Write(MAX_FRAME_SIZE + 1));
    CoversOne(MAX_FRAME_SIZE + 1);
    assert s4.slots[1] == Partial(n);
    assert WindowSlot(s4, 0) == 1;
    s := Step(s4, Consume(1));
    Four(s1, long, Claim, Write(MAX_FRAME_SIZE + 1), Consume(1));
    ms := [Consume(1)] + [long, Claim, Write(MAX_FRAME_SIZE + 1), Consume(1)];
    assert ms[1..] == [long, Claim, Write(MAX_FRAME_SIZE + 1), Consume(1)];
  }

  /** A slot's room is the exact bound, for every ring of at least two slots: the consumer always reads what
      was published if and only if no frame larger than that is met. The code lets frames of up to 16384
      words pass. */
  lemma ReadsWholeIff(n: nat, limit: nat)
    requires n >= 2
    ensures ReadsWhole(n, limit) <==> limit <= MAX_FRAME_SIZE
  {
    hide Runs, Step;
    if limit <= MAX_FRAME_SIZE {
      forall ms: seq<Move>, s: State | Runs(Step(Fresh(n), Start(true)), ms, s) && AllWithin(ms, limit)
        ensures AsPublished(s)
      {
        RingSafe(n, true, ms, s);
      }
    } else {
      var before := Load(n, n);
      var more, s := Overrun(n);
      RunsOn(Step(Fresh(n), Start(true)), before, Loaded(n, n), more, s);
      assert AllWithin(before + more, limit);
      assert s.consumed[1] != Whole(s.published[1].frame);
    }
  }
}
