/** The acquisition loop of the Python library, which feeds blocks of frames from the shared-memory ring to
    write_raw (src/petsys_py_lib/daqd.py:1285-1364). Frame IDs are taken to be contiguous. */
module Acquire {
  import opened Arithmetic
  import opened WrapRing

  /** daqd as the loop sees it. Frame number k, counted from the first one in the ring, has ID first + k. */
  class FrameSource {
    const bs: nat
    const first: int
    var written: nat
    var freed: nat
    var frameIDs: seq<int>

    ghost predicate Valid()
      reads this
    {
      && bs >= 2 && |frameIDs| == bs && freed <= written <= freed + bs
      && forall k :: freed <= k < written ==> frameIDs[Index(k, bs)] == first + k
    }

    constructor (bs: nat, first: int)
      requires bs >= 2
      ensures Valid() && written == freed == 0 && this.bs == bs && this.first == first
    {
      this.bs := bs;
      this.first := first;
      written, freed := 0, 0;
      frameIDs := seq(bs, k => 0);
    }

    /** The pointers as daqd reports them. By then it has tried to get as far as frame goal, and stopped
        where the ring was full. */
    method GetDataFrameWriteReadPointer(goal: nat) returns (wr: nat, rd: nat)
      requires Valid()
      modifies this`written, this`frameIDs
      ensures Valid() && written >= old(written)
      ensures wr == Wrapped(written, bs) && rd == Wrapped(freed, bs)
    {
      while written < goal && written < freed + bs
        invariant Valid() && written >= old(written)
        decreases goal - written
      {
        forall k | freed <= k < written
          ensures Index(k, bs) != Index(written, bs)
        {
          NextSlotFree(written, freed, bs, k);
        }
        frameIDs := frameIDs[Index(written, bs) := first + written];
        written := written + 1;
      }
      wr, rd := Wrapped(written, bs), Wrapped(freed, bs);
    }

    method SetDataFrameReadPointer(rd: nat, ghost count: nat)
      requires Valid() && count <= written - freed && rd == Wrapped(freed + count, bs)
      modifies this`freed
      ensures Valid() && freed == old(freed) + count
    {
      var wr := Wrapped(written, bs);
      PointersSuffice(written, freed + count, bs);
      freed := written - Occupancy(wr, rd, bs);
    }
  }

  /** A block handed to write_raw: frames from up to from + count - 1. */
  datatype Block = Block(from: nat, count: nat)

  /** The blocks are of at most limit frames and follow one another, from frame number from up to number to,
      that one excluded. */
  ghost predicate Covers(blocks: seq<Block>, limit: nat, from: nat, to: nat) {
    && (forall k :: 0 <= k < |blocks| ==> 1 <= blocks[k].count <= limit)
    && (forall k :: 0 <= k < |blocks| ==>
          blocks[k].from == if k == 0 then from else blocks[k - 1].from + blocks[k - 1].count)
    && to == if blocks == [] then from else blocks[|blocks| - 1].from + blocks[|blocks| - 1].count
  }

  lemma CoversNone(limit: nat, from: nat)
    ensures Covers([], limit, from, from)
  {
  }

  lemma CoversMore(blocks: seq<Block>, limit: nat, from: nat, to: nat, n: nat)
    requires Covers(blocks, limit, from, to) && 1 <= n <= limit
    ensures Covers(blocks + [Block(to, n)], limit, from, to + n)
  {
  }

  /** Polls the pointers until they differ, at the goals from poll on. */
  method AwaitFrames(source: FrameSource, goals: seq<nat>, poll: nat)
    returns (stalled: bool, wrPointer: nat, rdPointer: nat, next: nat)
    requires source.Valid() && poll <= |goals|
    modifies source`written, source`frameIDs
    ensures source.Valid() && poll <= next <= |goals|
    ensures wrPointer == Wrapped(source.written, source.bs) && rdPointer == Wrapped(source.freed, source.bs)
    ensures !stalled ==> wrPointer != rdPointer
  {
    wrPointer, rdPointer := Wrapped(source.written, source.bs), Wrapped(source.freed, source.bs);
    next := poll;
    while true
      invariant source.Valid() && poll <= next <= |goals|
      invariant wrPointer == Wrapped(source.written, source.bs) && rdPointer == Wrapped(source.freed, source.bs)
      decreases |goals| - next
    {
      if next == |goals| { return true, wrPointer, rdPointer, next; }
      wrPointer, rdPointer := source.GetDataFrameWriteReadPointer(goals[next]);
      next := next + 1;
      if wrPointer != rdPointer { return false, wrPointer, rdPointer, next; }
    }
  }

  /** How many frames to hand over: what is there, but no more than needed and than half the ring. */
  method FramesInBlock(wrPointer: nat, rdPointer: nat, bs: nat, framesToTarget: nat) returns (n: nat)
    requires bs >= 2 && wrPointer < 2 * bs && rdPointer < 2 * bs
    ensures n <= Folded(wrPointer, rdPointer, bs) && n <= framesToTarget && n <= bs / 2
    ensures n == Folded(wrPointer, rdPointer, bs) || n == framesToTarget || n == bs / 2
  {
    n := if wrPointer >= rdPointer then wrPointer - rdPointer else rdPointer - wrPointer;
    if n > bs { n := 2 * bs - n; }
    if n > framesToTarget { n := framesToTarget; }
    if n > bs / 2 { n := bs / 2; }
  }

  /** One block: write_raw processes it and answers with the pointer it has reached, whose last frame then
      is the current one. */
  method PassBlock(source: FrameSource, wrPointer: nat, rdPointer: nat, framesToTarget: nat)
    returns (n: nat, currentFrame: int)
    requires source.Valid() && source.written > source.freed && framesToTarget > 0
    requires wrPointer == Wrapped(source.written, source.bs) && rdPointer == Wrapped(source.freed, source.bs)
    modifies source`freed
    ensures source.Valid() && 1 <= n <= framesToTarget && n <= source.bs / 2 && n <= source.written - old(source.freed)
    ensures source.freed == old(source.freed) + n && currentFrame == source.first + source.freed - 1
  {
    hide Wrapped, Index;
    FoldedIsOccupancy(source.written, source.freed, source.bs);
    n := FramesInBlock(wrPointer, rdPointer, source.bs, framesToTarget);
    AdvanceBy(source.freed, n, source.bs);
    var reached := Wrapped(rdPointer + n, source.bs);
    LastSlot(source.freed + n, source.bs);
    currentFrame := source.frameIDs[Index(reached + source.bs - 1, source.bs)];
    source.SetDataFrameReadPointer(reached, n);
  }

  /** goals says how far daqd has got at each poll of the pointers; if they run out while the loop still
      waits for frames, the result is stalled. The ring may be anywhere in its course, with frames waiting
      or not: the first frame taken is the one at the read pointer. */
  method RunAcquire(source: FrameSource, nRequiredFrames: nat, goals: seq<nat>)
    returns (stalled: bool, currentFrame: int, blocks: seq<Block>)
    requires source.Valid()
    modifies source
    ensures source.Valid() && source.freed >= old(source.freed)
    ensures Covers(blocks, source.bs / 2, old(source.freed), source.freed)
    ensures !stalled && nRequiredFrames > 0 ==>
              && currentFrame == source.first + old(source.freed) + nRequiredFrames
              && source.freed == old(source.freed) + nRequiredFrames + 1
    ensures !stalled && nRequiredFrames == 0 ==> currentFrame == source.first + old(source.freed) && blocks == []
    ensures source.freed <= old(source.freed) + nRequiredFrames + 1
  {
    hide Wrapped, Index, Covers, Occupancy, IsFull;
    ghost var base: nat := source.freed;
    blocks, currentFrame := [], 0;
    var half := source.bs / 2;
    CoversNone(half, base);
    var wrPointer, rdPointer, poll;
    stalled, wrPointer, rdPointer, poll := AwaitFrames(source, goals, 0);
    if stalled { return; }
    ModHalf(base, source.bs);
    PointersSuffice(source.written, base, source.bs);
    var startFrame := source.frameIDs[Index(rdPointer, source.bs)];
    var stopFrame := startFrame + nRequiredFrames;
    currentFrame := startFrame;
    while currentFrame < stopFrame
      invariant source.Valid() && poll <= |goals| && startFrame == source.first + base
      invariant base <= source.freed && Covers(blocks, half, base, source.freed)
      invariant if source.freed == base then blocks == [] else nRequiredFrames > 0
      invariant currentFrame == if source.freed == base then startFrame else source.first + source.freed - 1
      invariant currentFrame <= stopFrame
      decreases stopFrame - currentFrame, source.freed == base
    {
      stalled, wrPointer, rdPointer, poll := AwaitFrames(source, goals, poll);
      if stalled { return; }
      PointersSuffice(source.written, source.freed, source.bs);
      var from := source.freed;
      var n;
      n, currentFrame := PassBlock(source, wrPointer, rdPointer, stopFrame - currentFrame);
      CoversMore(blocks, half, base, from, n);
      blocks := blocks + [Block(from, n)];
    }
    stalled := false;
  }

  /** The slot before the read pointer is that of the last frame. */
  lemma LastSlot(k: nat, n: nat)
    requires n > 0 && k > 0
    ensures Index(Wrapped(k, n) + n - 1, n) == Index(k - 1, n)
  {
    SameSlot(k, n - 1, n);
    DivSplit(k - 1, n);
    var q, r := (k - 1) / n, (k - 1) % n;
    assert n * (q + 1) == n * q + n;
    DivUnique(k + (n - 1), n, q + 1, r);
  }
}
