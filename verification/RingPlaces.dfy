/** Between resets the pointers tell the occupancy and every frame is published where it was claimed,
    whatever the sizes of the frames. */
module RingPlaces {
  import opened WrapRing
  import opened FrameRing

  /** The pointers tell the occupancy, and frames are where they were claimed to be. */
  ghost predicate Placed(s: State) {
    && Shape(s)
    && |s.consumed| <= |s.published| <= |s.consumed| + s.n
    && s.wr == Wrapped(|s.published|, s.n) && s.rd == Wrapped(|s.consumed|, s.n)
    && (forall k :: 0 <= k < |s.published| ==> s.published[k].slot == Index(k, s.n))
    && (SlotOf(s.worker).Some? ==>
          |s.published| < |s.consumed| + s.n && SlotOf(s.worker).value == Index(|s.published|, s.n))
  }

  lemma ClaimPlaces(s: State)
    requires Placed(s) && Enabled(s, Claim)
    ensures Placed(Step(s, Claim))
  {
    PointersSuffice(|s.published|, |s.consumed|, s.n);
    ModHalf(|s.published|, s.n);
  }

  lemma PublishPlaces(s: State)
    requires Placed(s) && Enabled(s, Publish)
    ensures Placed(Step(s, Publish))
  {
    Advance(|s.published|, s.n);
  }

  lemma ConsumePlaces(s: State, count: nat)
    requires Placed(s) && Enabled(s, Consume(count))
    ensures Placed(Step(s, Consume(count)))
    ensures |s.consumed| + count <= |s.published|
    ensures forall k :: 0 <= k < count ==> WindowSlot(s, k) == Index(|s.consumed| + k, s.n)
  {
    hide Index, Wrapped, Occupancy, IsFull;
    var c := |s.consumed|;
    PointersSuffice(|s.published|, c, s.n);
    AdvanceBy(c, count, s.n);
    forall k | 0 <= k < count
      ensures WindowSlot(s, k) == Index(c + k, s.n)
    {
      SameSlot(c, k, s.n);
    }
  }

  /** Between resets every step keeps the pointers and the places right, whatever the sizes of the frames. */
  lemma StepPlaces(s: State, m: Move)
    requires Placed(s) && Enabled(s, m) && !IsReset(m)
    ensures Placed(Step(s, m))
  {
    hide Index, Wrapped, Occupancy, IsFull;
    match m
    case Claim => ClaimPlaces(s);
    case Publish => PublishPlaces(s);
    case Consume(count) => ConsumePlaces(s, count);
    case _ =>
  }

  lemma {:induction false} RunPlaces(s: State, ms: seq<Move>, s': State)
    requires Placed(s) && Runs(s, ms, s')
    ensures Placed(s')
    decreases |ms|
  {
    hide Placed;
    if ms != [] {
      StepPlaces(s, ms[0]);
      RunPlaces(Step(s, ms[0]), ms[1..], s');
    }
  }
}
