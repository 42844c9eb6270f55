/** The two-phase reset that starts an acquisition, and what a single wipe leaves. */
module RingReset {
  import opened Options
  import opened WrapRing
  import opened SharedMemory
  import opened FrameRing
  import opened RingPlaces
  import opened RingSafety

  /** Right after the pointers have been wiped. */
  ghost predicate JustWiped(s: State) {
    Shape(s) && s.wr == s.rd == 0 && s.published == [] && s.consumed == []
  }

  /** Every frame published from here on, however the run goes, is at the index it was claimed for. */
  ghost predicate AlwaysPlaced(s: State) {
    forall ms: seq<Move>, s': State :: Runs(s, ms, s') ==>
      s'.n > 0 && forall k :: 0 <= k < |s'.published| ==> s'.published[k].slot == Index(k, s'.n)
  }

  /** After a wipe this is so if and only if the frame in flight at that moment, if there is one, has not
      claimed a slot other than the first. */
  lemma WipeIsSafeIff(s: State)
    requires JustWiped(s)
    ensures AlwaysPlaced(s) <==> SlotOf(s.worker) == None || SlotOf(s.worker) == Some(0)
  {
    if SlotOf(s.worker) == None || SlotOf(s.worker) == Some(0) {
      forall ms: seq<Move>, s': State | Runs(s, ms, s')
        ensures s'.n > 0 && forall k :: 0 <= k < |s'.published| ==> s'.published[k].slot == Index(k, s'.n)
      {
        RunPlaces(s, ms, s');
      }
    } else {
      var i := SlotOf(s.worker).value;
      var ms := if s.worker.Filling? then [Complete, Publish] else [Publish];
      var s1 := if s.worker.Filling? then Step(s, Complete) else s;
      var s' := Step(s1, Publish);
      assert Runs(s', [], s');
      assert [Publish][1..] == [] && [Complete, Publish][1..] == [Publish];
      assert Runs(s1, [Publish], s');
      assert Runs(s, ms, s');
      assert s'.published[0].slot == i;
      assert Index(0, s'.n) == 0;
    }
  }

  /** With acquisition off, a worker that is back at reading stays away from the ring. */
  ghost predicate Away(s: State) {
    Shape(s) && !s.mode && SlotOf(s.worker) == None && (s.worker.Decided? ==> !s.worker.keep)
  }

  /** What the worker can still publish with acquisition off: the frame it has in flight. */
  function InFlight(s: State): nat {
    match s.worker
    case Reading => 0
    case Decided(_, _, keep) => if keep then 1 else 0
    case Filling(_, _, slot) => if slot.Some? then 1 else 0
    case Filled(_, slot) => if slot.Some? then 1 else 0
  }

  lemma {:induction false} OffRuns(s: State, ms: seq<Move>, s': State)
    requires Shape(s) && !s.mode && Runs(s, ms, s')
    ensures Shape(s') && !s'.mode && |s'.published| + InFlight(s') <= |s.published| + InFlight(s)
    ensures Away(s) ==> Away(s')
    decreases |ms|
  {
    if ms != [] {
      var t := Step(s, ms[0]);
      assert Shape(t) by {
        if ms[0].Claim? {
          ModBound(s.wr, s.n);
        }
      }
      OffRuns(t, ms[1..], s');
    }
  }

  lemma ModBound(x: nat, n: nat)
    requires n > 0
    ensures x % n < n
  {
  }

  /** A frame was met, and not dropped, in the course of some moves. */
  ghost predicate MetIn(frame: nat, ms: seq<Move>) {
    exists k :: 0 <= k < |ms| && ms[k].Header? && ms[k].frame == frame && !ms[k].drop
  }

  /** Whatever has been published or can still be was met in the course of the moves seen. */
  ghost predicate OnlyFrom(s: State, seen: seq<Move>) {
    && (forall k :: 0 <= k < |s.published| ==> MetIn(s.published[k].frame, seen))
    && (s.worker.Decided? && s.worker.keep ==> MetIn(s.worker.frame, seen))
    && (SlotOf(s.worker).Some? ==> MetIn(s.worker.frame, seen))
  }

  lemma MetMore(seen: seq<Move>, m: Move)
    ensures forall f :: MetIn(f, seen) ==> MetIn(f, seen + [m])
    ensures m.Header? && !m.drop ==> MetIn(m.frame, seen + [m])
  {
    var more := seen + [m];
    forall f | MetIn(f, seen) ensures MetIn(f, more) {
      var k :| 0 <= k < |seen| && seen[k].Header? && seen[k].frame == f && !seen[k].drop;
      assert more[k] == seen[k];
    }
    assert more[|seen|] == m;
  }

  lemma StepOnlyFrom(s: State, seen: seq<Move>, m: Move)
    requires OnlyFrom(s, seen) && Enabled(s, m) && !IsReset(m)
    ensures OnlyFrom(Step(s, m), seen + [m])
  {
    hide MetIn, Index, Wrapped, Occupancy, IsFull, Stored;
    MetMore(seen, m);
  }

  lemma {:induction false} RunOnlyFrom(s: State, seen: seq<Move>, ms: seq<Move>, s': State)
    requires OnlyFrom(s, seen) && Runs(s, ms, s')
    ensures OnlyFrom(s', seen + ms)
    decreases |ms|
  {
    hide OnlyFrom, Step, Enabled;
    if ms == [] {
      assert seen + ms == seen;
    } else {
      StepOnlyFrom(s, seen, ms[0]);
      RunOnlyFrom(Step(s, ms[0]), seen + [ms[0]], ms[1..], s');
      assert seen + [ms[0]] + ms[1..] == seen + ms;
    }
  }

  /** startAcquisition from any state whatever: if the frame in flight at the first wipe is done with at
      some moment before the second, then at most one stale frame is published in between; after the second
      wipe every published frame was met after it and is at the index it was claimed for; and if the frames
      met after it fit a slot the ring is safe for good: all of RingSafe holds, whatever the old slots
      contain. */
  lemma TwoPhaseReset(s: State, on: bool, before: seq<Move>, idle: State, between: seq<Move>, s1: State, after: seq<Move>,
                      s2: State)
    requires Shape(s)
    requires Runs(Step(s, Wipe), before, idle) && idle.worker == Reading
    requires Runs(idle, between, s1)
    requires Enabled(s1, Start(on)) && Runs(Step(s1, Start(on)), after, s2)
    ensures |s1.published| <= 1
    ensures s2.n > 0 && forall k :: 0 <= k < |s2.published| ==> s2.published[k].slot == k % s2.n
    ensures forall k :: 0 <= k < |s2.published| ==> MetIn(s2.published[k].frame, after)
    ensures AllWithin(after, MAX_FRAME_SIZE) ==> Inv(s2)
  {
    assert Enabled(s, Wipe);
    hide MetIn, Step, Enabled, Inv, OnlyFrom, Placed;
    WipedOff(s);
    OffRuns(Step(s, Wipe), before, idle);
    OffRuns(idle, between, s1);
    StartsClean(s1, on);
    var start := Step(s1, Start(on));
    RunPlaces(start, after, s2);
    PlacedSlots(s2);
    RunOnlyFrom(start, [], after, s2);
    assert [] + after == after;
    PublishedMet(s2, after);
    if AllWithin(after, MAX_FRAME_SIZE) {
      RunKeeps(start, after, s2);
    }
  }

  lemma WipedOff(s: State)
    requires Shape(s)
    ensures var s' := Step(s, Wipe); Shape(s') && !s'.mode && s'.published == [] && InFlight(s') <= 1
  {
  }

  lemma StartsClean(s: State, on: bool)
    requires Away(s)
    ensures var s' := Step(s, Start(on)); Inv(s') && Placed(s') && OnlyFrom(s', [])
  {
  }

  lemma PlacedSlots(s: State)
    requires Placed(s)
    ensures s.n > 0 && forall k :: 0 <= k < |s.published| ==> s.published[k].slot == k % s.n
  {
  }

  lemma PublishedMet(s: State, seen: seq<Move>)
    requires OnlyFrom(s, seen)
    ensures forall k :: 0 <= k < |s.published| ==> MetIn(s.published[k].frame, seen)
  {
  }
}
