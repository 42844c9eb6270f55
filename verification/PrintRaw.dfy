/** The statistics that print_raw derives from a step of the raw file (src/petsys_util/print_raw.cpp,
    lines 94-180). The flag firstFrame is never cleared there, so that the IDs left out between two records
    are not counted; those after the last record are. The histogram of frame sizes and the channel checks are
    left out, and so is overflow of the 64-bit sums. */
module PrintRaw {
  import opened ByteWords
  import opened Sequences
  import opened RawFrames
  import opened RawRecords
  import opened WriteRaw

  /** Whether the file says that events of an ID were lost. */
  ghost function LostAt(records: seq<RawFrame>): int -> bool
    requires AllWellFormed(records)
  {
    id => Decoded(records, id).lost
  }

  /** How many IDs were left out between record i and the one before. */
  function Gap(records: seq<RawFrame>, i: nat): int
    requires AllWellFormed(records) && i < |records|
  {
    if i == 0 then 0 else FrameID(records[i]) - FrameID(records[i - 1]) - 1
  }

  /** No ID is left out between record i and the one before, or, if only lost ones matter, the one before
      says that they are not lost. */
  predicate FollowsOn(records: seq<RawFrame>, onlyLost: bool, i: nat)
    requires AllWellFormed(records) && i < |records|
  {
    Gap(records, i) == 0 || (onlyLost && i > 0 && !FrameLost(records[i - 1]))
  }

  predicate NoneLeftOut(records: seq<RawFrame>, onlyLost: bool)
    requires AllWellFormed(records)
  {
    forall i :: 0 <= i < |records| ==> FollowsOn(records, onlyLost, i)
  }

  /** The number of IDs left out between records, or of those of them that are lost. */
  function Skipped(records: seq<RawFrame>, onlyLost: bool): int
    requires AllWellFormed(records)
  {
    if |records| <= 1 then 0
    else var n := |records| - 1;
      Skipped(records[..n], onlyLost) + if onlyLost && !FrameLost(records[n - 1]) then 0 else Gap(records, n)
  }

  lemma {:induction false} NoneSkipped(records: seq<RawFrame>, onlyLost: bool)
    requires Ordered(records)
    ensures Skipped(records, onlyLost) >= 0 && (Skipped(records, onlyLost) == 0 <==> NoneLeftOut(records, onlyLost))
    decreases |records|
  {
    var n := |records| - 1;
    if n > 0 {
      var rs := records[..n];
      NoneSkipped(rs, onlyLost);
      assert FrameID(records[n - 1]) < FrameID(records[n]);
      LeftOutSnoc(records, onlyLost);
      hide FrameID, FrameLost, Ordered, NoneLeftOut;
    }
  }

  lemma LeftOutSnoc(records: seq<RawFrame>, onlyLost: bool)
    requires AllWellFormed(records) && |records| > 1
    ensures var n := |records| - 1;
      NoneLeftOut(records, onlyLost) <==> NoneLeftOut(records[..n], onlyLost) && FollowsOn(records, onlyLost, n)
  {
    var n := |records| - 1;
    var rs := records[..n];
    forall i | 0 <= i < n ensures FollowsOn(rs, onlyLost, i) == FollowsOn(records, onlyLost, i) {
      assert rs[i] == records[i];
    }
    if NoneLeftOut(rs, onlyLost) && FollowsOn(records, onlyLost, n) {
      forall i | 0 <= i < |records| ensures FollowsOn(records, onlyLost, i) {
        assert i < n ==> FollowsOn(rs, onlyLost, i);
      }
    }
    if NoneLeftOut(records, onlyLost) {
      forall i | 0 <= i < n ensures FollowsOn(rs, onlyLost, i) {
        assert FollowsOn(records, onlyLost, i);
      }
    }
  }

  /** A record decides about its own ID and those left out before it. */
  lemma LostSnoc(records: seq<RawFrame>, r: RawFrame)
    requires Ordered(records) && Ordered(records + [r]) && records != [] && WellFormed(r)
    ensures var first, last, id := FrameID(records[0]), FrameID(records[|records| - 1]), FrameID(r);
      && first <= last < id
      && Count(LostAt(records + [r]), first, id + 1)
         == Count(LostAt(records), first, last + 1)
            + (if FrameLost(records[|records| - 1]) then id - last - 1 else 0) + if FrameLost(r) then 1 else 0
  {
    var first, last, id := FrameID(records[0]), FrameID(records[|records| - 1]), FrameID(r);
    OrderedPrefix(records, r);
    assert |records| > 1 ==> FrameID(records[0]) < FrameID(records[|records| - 1]);
    Snoc(records, r);
    var b := FrameLost(records[|records| - 1]);
    forall j | last < j < id ensures Decoded(records, j).lost == b {
      DecodedBeyond(records, j);
    }
    hide Decoded;
    CountGrows(LostAt(records), LostAt(records + [r]), first, last, id, b);
  }

  /** The IDs after the last record, up to end, are like the last record. */
  lemma LostToEnd(records: seq<RawFrame>, end: int)
    requires Ordered(records) && records != [] && FrameID(records[|records| - 1]) < end
    ensures var first, last, lost := FrameID(records[0]), FrameID(records[|records| - 1]), FrameLost(records[|records| - 1]);
      Count(LostAt(records), first, end)
      == Count(LostAt(records), first, last + 1) + if lost then end - last - 1 else 0
  {
    var first, last := FrameID(records[0]), FrameID(records[|records| - 1]);
    assert first <= last by {
      assert |records| > 1 ==> FrameID(records[0]) < FrameID(records[|records| - 1]);
    }
    forall j | last < j < end ensures Decoded(records, j).lost == FrameLost(records[|records| - 1]) {
      DecodedBeyond(records, j);
    }
    CountSplit(LostAt(records), first, last + 1, end);
    CountUniform(LostAt(records), last + 1, end, FrameLost(records[|records| - 1]));
  }

  /** The sums after some records, against what the records say of the IDs up to the last of them. */
  ghost predicate Summed(records: seq<RawFrame>, frames: int, lost: int, events: int)
    requires Ordered(records)
  {
    if records == [] then frames == lost == events == 0
    else
      var first, last := FrameID(records[0]), FrameID(records[|records| - 1]);
      && frames == last + 1 - first - Skipped(records, false)
      && lost == Count(LostAt(records), first, last + 1) - Skipped(records, true)
      && events == EventCount(records)
  }

  lemma SummedSnoc(records: seq<RawFrame>, r: RawFrame, frames: int, lost: int, events: int)
    requires Ordered(records) && Ordered(records + [r]) && WellFormed(r) && Summed(records, frames, lost, events)
    ensures Summed(records + [r], frames + 1, lost + (if FrameLost(r) then 1 else 0), events + NEvents(r))
  {
    var all := records + [r];
    assert all[..|records|] == records;
    if records == [] {
      Snoc(records, r);
      assert Count(LostAt(all), FrameID(r), FrameID(r)) == 0;
    } else {
      LostSnoc(records, r);
      hide FrameID, FrameLost, NEvents, Decoded, Ordered, Count;
      assert all[|records| - 1] == records[|records| - 1] && all[0] == records[0];
    }
  }

  function FramesCompacted(firstFrame: bool, frameID: int, lastFrameID: int): int {
    if firstFrame then 0 else frameID - lastFrameID - 1
  }

  /** One step of the index. With all IDs from startFrame up to endFrame, that one excluded, in mind, the total
      is right if and only if no ID is left out between records, and the number of lost frames if and only
      if none is left out after a record of a lost frame. A step without records is counted as if frame 0
      had been seen, so that with the writer's -1 for both ends the total is -2. */
  method PrintStep(words: seq<Word>, startFrame: int, endFrame: int, ghost records: seq<RawFrame>)
    returns (sumDataFrames: int, sumDataFramesLost: int, sumEvents: int)
    requires Ordered(records) && words == Flatten(records)
    requires records != [] ==> FrameID(records[0]) == startFrame && FrameID(records[|records| - 1]) <= endFrame
    ensures records == [] ==> sumDataFrames == endFrame - 1 && sumDataFramesLost == 0
    ensures records != [] ==> sumDataFrames == endFrame - startFrame - Skipped(records, false)
    ensures records != [] ==> (sumDataFrames == endFrame - startFrame <==> NoneLeftOut(records, false))
    ensures records != [] ==>
              (sumDataFramesLost == Count(LostAt(records), startFrame, endFrame) <==> NoneLeftOut(records, true))
    ensures sumEvents == EventCount(records)
  {
    hide Flatten, Count, Decoded, Skipped, FrameID, FrameLost, NEvents, FrameSize, NoneLeftOut, Increasing, SummedTo;
    var firstFrame := true;
    var lastFrameID, last1FrameLost := 0, false;
    sumDataFrames, sumDataFramesLost, sumEvents := 0, 0, 0;
    var position := 0;
    ghost var k := 0;
    Positions(records, 0);
    NothingSummed(records);
    while position < |words|
      invariant 0 <= k <= |records| && position == |Flatten(records[..k])|
      invariant position < |words| <==> k < |records|
      invariant firstFrame
      invariant k == 0 ==> lastFrameID == 0 && !last1FrameLost
      invariant k > 0 ==> lastFrameID == FrameID(records[k - 1]) && last1FrameLost == FrameLost(records[k - 1])
      invariant SummedTo(records, k, sumDataFrames, sumDataFramesLost, sumEvents)
      decreases |records| - k
    {
      NextRecord(records, k);
      Turn(records, k, sumDataFrames, sumDataFramesLost, sumEvents);
      var frameSize := FrameSize(words[position..position + 2]);
      var frame := words[position..position + frameSize];
      position := position + frameSize;
      var frameID, frameLost, nEvents := FrameID(frame), FrameLost(frame), NEvents(frame);

      var framesCompacted := FramesCompacted(firstFrame, frameID, lastFrameID);
      sumDataFrames := sumDataFrames + framesCompacted;
      sumDataFramesLost := sumDataFramesLost + if last1FrameLost then framesCompacted else 0;
      lastFrameID := frameID;
      last1FrameLost := frameLost;
      sumDataFrames := sumDataFrames + 1;
      sumDataFramesLost := sumDataFramesLost + if frameLost then 1 else 0;
      sumEvents := sumEvents + nEvents;
      k := k + 1;
      Positions(records, k);
    }
    if records != [] {
      AllSummed(records, endFrame, sumDataFrames, sumDataFramesLost, sumEvents);
    } else {
      NoneSummed(records, sumDataFrames, sumDataFramesLost, sumEvents);
    }
    var framesCompacted := endFrame - lastFrameID - 1;
    sumDataFrames := sumDataFrames + framesCompacted;
    sumDataFramesLost := sumDataFramesLost + if last1FrameLost then framesCompacted else 0;
    NoneSkipped(records, false);
    NoneSkipped(records, true);
  }

  ghost predicate SummedTo(records: seq<RawFrame>, k: nat, frames: int, lost: int, events: int) {
    && Ordered(records) && k <= |records| && Ordered(records[..k])
    && Summed(records[..k], frames, lost, events)
  }

  lemma NothingSummed(records: seq<RawFrame>)
    requires Ordered(records)
    ensures SummedTo(records, 0, 0, 0, 0)
  {
    assert records[..0] == [];
  }

  lemma NoneSummed(records: seq<RawFrame>, frames: int, lost: int, events: int)
    requires records == [] && SummedTo(records, 0, frames, lost, events)
    ensures frames == lost == events == EventCount(records) == 0
  {
  }

  lemma AllSummed(records: seq<RawFrame>, end: int, frames: int, lost: int, events: int)
    requires records != [] && SummedTo(records, |records|, frames, lost, events)
    requires FrameID(records[|records| - 1]) <= end
    ensures var first, last := FrameID(records[0]), records[|records| - 1];
      var compacted := end - FrameID(last) - 1;
      && frames + compacted == end - first - Skipped(records, false)
      && lost + (if FrameLost(last) then compacted else 0) == Count(LostAt(records), first, end) - Skipped(records, true)
      && events == EventCount(records)
  {
    assert records[..|records|] == records;
    CountToEnd(records, end);
  }

  lemma Turn(records: seq<RawFrame>, k: nat, frames: int, lost: int, events: int)
    requires k < |records| && SummedTo(records, k, frames, lost, events)
    ensures var r := records[k];
      && WellFormed(r)
      && SummedTo(records, k + 1, frames + 1, lost + (if FrameLost(r) then 1 else 0), events + NEvents(r))
  {
    hide Count, Decoded, Skipped, FrameID, FrameLost, NEvents, Flatten;
    Positions(records, k + 1);
    assert records[..k + 1] == records[..k] + [records[k]];
    SummedSnoc(records[..k], records[k], frames, lost, events);
  }

  lemma Positions(records: seq<RawFrame>, k: nat)
    requires Ordered(records) && k <= |records|
    ensures |Flatten(records[..k])| < |Flatten(records)| <==> k < |records|
    ensures Ordered(records[..k]) && Flatten<Word>([]) == [] && records[..0] == []
  {
    if k < |records| {
      NextRecord(records, k);
    } else {
      assert records[..k] == records;
    }
  }

  lemma CountToEnd(records: seq<RawFrame>, end: int)
    requires Ordered(records) && records != [] && FrameID(records[|records| - 1]) <= end
    ensures var first, last, lost := FrameID(records[0]), FrameID(records[|records| - 1]), FrameLost(records[|records| - 1]);
      Count(LostAt(records), first, end)
      == Count(LostAt(records), first, last + 1) + if lost then end - last - 1 else 0
  {
    var first, last := FrameID(records[0]), FrameID(records[|records| - 1]);
    if last < end {
      LostToEnd(records, end);
    } else {
      assert |records| > 1 ==> FrameID(records[0]) < FrameID(records[|records| - 1]);
      var p := LostAt(records);
      assert Count(p, first, last + 1) == Count(p, first, last) + if p(last) then 1 else 0;
    }
  }

  /** When the file recovers the step, its lost IDs are those that the acquisition lost. */
  lemma LostIsLost(labels: Labels, frames: seq<RawFrame>, closing: seq<bool>)
    requires Ordered(frames) && |closing| == |frames| && NoBadGap(labels, frames, closing)
    ensures var st := Write(labels, frames, closing);
      && AllWellFormed(st.records)
      && Count(LostAt(st.records), st.firstID, st.lastID) == Count(id => Truth(frames, id).lost, st.firstID, st.lastID)
  {
    RecoversIff(labels, frames, closing);
    var st := Write(labels, frames, closing);
    CountSame(LostAt(st.records), id => Truth(frames, id).lost, st.firstID, st.lastID);
  }

  /** The total falls short as soon as a good empty frame is suppressed and another record follows: of the
      frames 0 and 1, good and empty, and 2, lost, only 0 and 2 are written, and 1 is not counted. */
  lemma TotalFallsShort()
    ensures var frames := [GoodEmpty(0), GoodEmpty(1), GapRecord(2)];
      && Ordered(frames)
      && var records := Write(AsWritten, frames, [false, false, false]).records;
        records == [GoodEmpty(0), GapRecord(2)] && !NoneLeftOut(records, false) && Skipped(records, false) == 1
  {
    hide FrameID, FrameLost, NEvents, Write, WellFormed;
    var a, b, c := GoodEmpty(0), GoodEmpty(1), GapRecord(2);
    GoodEmptyShape(0);
    GoodEmptyShape(1);
    GapRecordShape(2);
    var frames, records := [a, b, c], [a, c];
    WriteThree(a, b, c);
    assert records[..1] == [a];
    assert Gap(records, 1) == 1;
    assert !FollowsOn(records, false, 1);
    assert Skipped(records[..1], false) == 0;
  }

  lemma WriteThree(a: RawFrame, b: RawFrame, c: RawFrame)
    requires WellFormed(a) && WellFormed(b) && WellFormed(c) && NEvents(a) == NEvents(b) == NEvents(c) == 0
    requires !FrameLost(a) && !FrameLost(b) && FrameLost(c)
    requires FrameID(a) == 0 && FrameID(b) == 1 && FrameID(c) == 2
    ensures AllWellFormed([a, b, c]) && Write(AsWritten, [a, b, c], [false, false, false]).records == [a, c]
  {
    hide FrameID, FrameLost, NEvents, Write, WellFormed;
    EmptyWrite(AsWritten);
    WriteSnoc(AsWritten, [], [], a, false);
    WriteSnoc(AsWritten, [a], [false], b, false);
    WriteSnoc(AsWritten, [a, b], [false, false], c, false);
    assert [] + [a] == [a] && [a] + [b] == [a, b] && [a, b] + [c] == [a, b, c];
    assert [] + [false] == [false] && [false] + [false] == [false, false];
    assert [false, false] + [false] == [false, false, false];
    assert Write(AsWritten, [a], [false]) == Step(AllLost, 0, 0, [a], 1, 0, 0, 0);
    assert Write(AsWritten, [a, b], [false, false]) == Step(AllLost, 1, 0, [a], 2, 0, 0, 0);
  }
}
