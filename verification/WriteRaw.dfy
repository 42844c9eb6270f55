/** The writer of raw data files (src/raw_data/write_raw.cpp): runs of empty frames and of lost frames are
    not written out, and a run of frame IDs that never came is announced by one record. */
module WriteRaw {
  import opened RawFrames
  import opened RawRecords

  datatype FrameType = Unknown | SomeData | ZeroData | SomeLost | AllLost

  /** Which names lost and good frames get: those in the code, where the two branches at lines 188-193 are
      swapped, or those that the names of the frame types call for. */
  datatype Labels = AsWritten | Intended

  function TypeOf(labels: Labels, lost: bool, nEvents: nat): FrameType {
    if lost == labels.AsWritten? then if nEvents == 0 then ZeroData else SomeData
    else if nEvents == 0 then AllLost else SomeLost
  }

  /** The writer's variables within one step, and the records written since the step began. */
  datatype Step = Step(
    lastType: FrameType, lastID: int, firstID: int, records: seq<RawFrame>,
    allFrames: int, lostN: nat, lost0: int, events: nat)

  const NEW_STEP := Step(Unknown, -1, -1, [], 0, 0, 0, 0)

  /** Announces that the IDs from this one on are lost. */
  function GapRecord(id: nat): (r: RawFrame)
    requires id < ID_SPAN
  {
    [2 * ID_SPAN + id, 0x1_0000]
  }

  lemma GapRecordShape(id: nat)
    requires id < ID_SPAN
    ensures var r := GapRecord(id); WellFormed(r) && FrameID(r) == id && FrameLost(r) && NEvents(r) == 0
  {
  }

  predicate IsGap(lastID: int, id: int) {
    id > lastID && lastID >= 0 && id != lastID + 1
  }

  /** Lines 124-151: accounts for skipped IDs. */
  function NoteGap(st: Step, id: nat): Step
    requires id < ID_SPAN && st.lastID >= -1
  {
    var st' := if st.firstID == -1 then st.(firstID := id) else st;
    if IsGap(st.lastID, id) then
      var skipped := id - st.lastID - 1;
      st'.(allFrames := st.allFrames + skipped, lost0 := st.lost0 + skipped,
           records := st.records + [GapRecord(st.lastID + 1)], lastType := AllLost)
    else st'
  }

  predicate Suppressed(lastType: FrameType, frameType: FrameType, endOfStep: bool) {
    !endOfStep && (lastType == ZeroData || lastType == AllLost) && frameType == lastType
  }

  /** The body of the frame loop, lines 121-212. */
  function WriteOne(labels: Labels, st: Step, f: RawFrame, endOfStep: bool): (st': Step)
    requires WellFormed(f) && st.lastID >= -1
    ensures st'.lastID == FrameID(f)
  {
    var n := NEvents(f);
    var st1 := NoteGap(st, FrameID(f)).(lastID := FrameID(f));
    var st2 := st1.(
      events := st1.events + n, allFrames := st1.allFrames + 1,
      lost0 := st1.lost0 + (if FrameLost(f) && n == 0 then 1 else 0),
      lostN := st1.lostN + if FrameLost(f) && n != 0 then 1 else 0);
    var frameType := TypeOf(labels, FrameLost(f), n);
    if Suppressed(st2.lastType, frameType, endOfStep) then st2
    else st2.(lastType := frameType, records := st2.records + [f])
  }

  /** The frames of a step; of each, whether it came in the block that ends the step. */
  function Write(labels: Labels, frames: seq<RawFrame>, closing: seq<bool>): (st: Step)
    requires AllWellFormed(frames) && |closing| == |frames|
    ensures st.lastID == if frames == [] then -1 else FrameID(frames[|frames| - 1])
  {
    if frames == [] then NEW_STEP
    else var n := |frames| - 1;
      WriteOne(labels, Write(labels, frames[..n], closing[..n]), frames[n], closing[n])
  }

  lemma WriteSnoc(labels: Labels, frames: seq<RawFrame>, closing: seq<bool>, f: RawFrame, endOfStep: bool)
    requires AllWellFormed(frames) && |closing| == |frames| && WellFormed(f)
    ensures AllWellFormed(frames + [f])
    ensures Write(labels, frames + [f], closing + [endOfStep])
         == WriteOne(labels, Write(labels, frames, closing), f, endOfStep)
  {
    assert (frames + [f])[..|frames|] == frames && (closing + [endOfStep])[..|frames|] == closing;
  }

  /** The step's first and last ID are those of its first and last frame, in whatever order the IDs come. */
  lemma {:induction false} FirstAndLast(labels: Labels, frames: seq<RawFrame>, closing: seq<bool>)
    requires AllWellFormed(frames) && |closing| == |frames|
    ensures var st := Write(labels, frames, closing);
      if frames == [] then st.firstID == st.lastID == -1
      else st.firstID == FrameID(frames[0]) && st.lastID == FrameID(frames[|frames| - 1])
  {
    hide FrameLost, NEvents;
    if frames != [] {
      var n := |frames| - 1;
      FirstAndLast(labels, frames[..n], closing[..n]);
    }
  }

  // ---------------------------------------------------------------- what is written

  predicate LostFrame(f: RawFrame) { |f| >= 2 && f[1] / 0x8000 % 4 != 0 }

  /** IDs are missing right before frame k. */
  predicate AfterGap(frames: seq<RawFrame>, k: nat)
    requires AllWellFormed(frames) && k < |frames|
  {
    k > 0 && FrameID(frames[k]) > FrameID(frames[k - 1]) + 1
  }

  /** A frame is left out if it has no words behind its header, does not come in the step's last block, and is like
      what came before: the frame before, if that is as empty and as lost; or, after missing IDs, what the
      names of the frame types make of them: good frames as written, and lost ones as intended. */
  predicate LeftOut(labels: Labels, frames: seq<RawFrame>, closing: seq<bool>, k: nat)
    requires AllWellFormed(frames) && k < |frames| == |closing|
  {
    && k > 0 && !closing[k] && |frames[k]| == 2
    && if AfterGap(frames, k) then LostFrame(frames[k]) == labels.Intended?
       else |frames[k - 1]| == 2 && LostFrame(frames[k]) == LostFrame(frames[k - 1])
  }

  /** The record before the last frame, if IDs are missing there. */
  function GapBefore(frames: seq<RawFrame>): seq<RawFrame>
    requires AllWellFormed(frames) && frames != []
  {
    var k := |frames| - 1;
    if AfterGap(frames, k) then [[2 * 0x10_0000_0000 + (FrameID(frames[k - 1]) + 1), 0x1_0000]] else []
  }

  /** All other frames, with a record of two words before each that comes after missing IDs: the first of these, and
      a loss mark. */
  function Recorded(labels: Labels, frames: seq<RawFrame>, closing: seq<bool>): seq<RawFrame>
    requires AllWellFormed(frames) && |closing| == |frames|
  {
    if frames == [] then []
    else
      var k := |frames| - 1;
      Recorded(labels, frames[..k], closing[..k])
      + GapBefore(frames)
      + if LeftOut(labels, frames, closing, k) then [] else [frames[k]]
  }

  /** The last frame type is that of the last frame, written or not. */
  predicate TypeOfLast(labels: Labels, st: Step, frames: seq<RawFrame>)
    requires AllWellFormed(frames)
  {
    st.lastType == if frames == [] then Unknown
                   else TypeOf(labels, FrameLost(frames[|frames| - 1]), NEvents(frames[|frames| - 1]))
  }

  /** The records of a step are exactly these, for any frames, in whatever order the IDs come. */
  lemma {:induction false} RecordsExact(labels: Labels, frames: seq<RawFrame>, closing: seq<bool>)
    requires AllWellFormed(frames) && |closing| == |frames|
    ensures Write(labels, frames, closing).records == Recorded(labels, frames, closing)
    ensures TypeOfLast(labels, Write(labels, frames, closing), frames)
  {
    if frames != [] {
      var k := |frames| - 1;
      RecordsExact(labels, frames[..k], closing[..k]);
      OneRecorded(labels, Write(labels, frames[..k], closing[..k]), frames, closing);
      hide Recorded, LeftOut, AfterGap, WriteOne, TypeOf, FrameID, FrameLost, NEvents;
    }
  }

  lemma OneRecorded(labels: Labels, st: Step, frames: seq<RawFrame>, closing: seq<bool>)
    requires AllWellFormed(frames) && |closing| == |frames| > 0
    requires var k := |frames| - 1;
      st.records == Recorded(labels, frames[..k], closing[..k]) && TypeOfLast(labels, st, frames[..k])
      && st.lastID == if k == 0 then -1 else FrameID(frames[k - 1])
    ensures var k := |frames| - 1;
      var st' := WriteOne(labels, st, frames[k], closing[k]);
      st'.records == Recorded(labels, frames, closing) && TypeOfLast(labels, st', frames)
  {
    hide Recorded, LeftOut, WriteOne, TypeOf, AfterGap, NoteGap, FrameID, FrameLost, NEvents;
    var k := |frames| - 1;
    GapRecorded(st, frames);
    Keeps(labels, st, frames[k], closing[k]);
    RecordedLast(labels, frames, closing);
    LeftOutIs(labels, NoteGap(st, FrameID(frames[k])).lastType, frames, closing);
  }

  lemma RecordedLast(labels: Labels, frames: seq<RawFrame>, closing: seq<bool>)
    requires AllWellFormed(frames) && |closing| == |frames| > 0
    ensures var k := |frames| - 1;
      Recorded(labels, frames, closing)
      == Recorded(labels, frames[..k], closing[..k]) + GapBefore(frames)
         + if LeftOut(labels, frames, closing, k) then [] else [frames[k]]
  {
    hide LeftOut, FrameID, WellFormed;
  }

  lemma GapRecorded(st: Step, frames: seq<RawFrame>)
    requires AllWellFormed(frames) && frames != []
    requires st.lastID == if |frames| == 1 then -1 else FrameID(frames[|frames| - 2])
    ensures var k := |frames| - 1;
      var st' := NoteGap(st, FrameID(frames[k]));
      && st'.records == st.records + GapBefore(frames)
      && st'.lastType == if AfterGap(frames, k) then AllLost else st.lastType
  {
    hide WellFormed;
  }

  lemma Keeps(labels: Labels, st: Step, f: RawFrame, endOfStep: bool)
    requires WellFormed(f) && st.lastID >= -1
    ensures var before, st' := NoteGap(st, FrameID(f)), WriteOne(labels, st, f, endOfStep);
      var frameType := TypeOf(labels, FrameLost(f), NEvents(f));
      && st'.records == before.records + (if Suppressed(before.lastType, frameType, endOfStep) then [] else [f])
      && st'.lastType == frameType
  {
    hide NoteGap, FrameID, FrameLost, NEvents, WellFormed, TypeOf;
  }

  lemma LeftOutIs(labels: Labels, lastType: FrameType, frames: seq<RawFrame>, closing: seq<bool>)
    requires AllWellFormed(frames) && |closing| == |frames| > 0
    requires var k := |frames| - 1;
      lastType == if AfterGap(frames, k) then AllLost
                  else if k == 0 then Unknown
                  else TypeOf(labels, FrameLost(frames[k - 1]), NEvents(frames[k - 1]))
    ensures var k := |frames| - 1;
      var frameType := TypeOf(labels, FrameLost(frames[k]), NEvents(frames[k]));
      LeftOut(labels, frames, closing, k) <==> Suppressed(lastType, frameType, closing[k])
  {
    var k := |frames| - 1;
    EmptyIsShort(frames[k]);
    if k > 0 {
      EmptyIsShort(frames[k - 1]);
    }
    hide FrameID, FrameLost, NEvents, WellFormed, LostFrame;
  }

  lemma EmptyIsShort(f: RawFrame)
    requires WellFormed(f)
    ensures |f| == 2 <==> NEvents(f) == 0
    ensures LostFrame(f) <==> FrameLost(f)
  {
  }

  // ---------------------------------------------------------------- what can be recovered

  /** The reader gets back what the acquisition saw, for every ID up to the last one. */
  ghost predicate Recovers(labels: Labels, frames: seq<RawFrame>, closing: seq<bool>)
    requires Ordered(frames) && |closing| == |frames|
  {
    var st := Write(labels, frames, closing);
    && AllWellFormed(st.records)
    && forall id :: st.firstID <= id <= st.lastID ==> Decoded(st.records, id) == Truth(frames, id)
  }

  /** The k-th frame is empty and good, comes right after missing IDs, and does not close the step. */
  predicate BadGap(frames: seq<RawFrame>, closing: seq<bool>, k: nat)
    requires AllWellFormed(frames) && |closing| == |frames| && 0 < k < |frames|
  {
    && FrameID(frames[k]) != FrameID(frames[k - 1]) + 1
    && !FrameLost(frames[k]) && NEvents(frames[k]) == 0 && !closing[k]
  }

  predicate HasBadGap(frames: seq<RawFrame>, closing: seq<bool>)
    requires AllWellFormed(frames) && |closing| == |frames|
  {
    exists k :: 0 < k < |frames| && BadGap(frames, closing, k)
  }

  lemma HasBadGapSnoc(frames: seq<RawFrame>, closing: seq<bool>, f: RawFrame, endOfStep: bool)
    requires AllWellFormed(frames) && |closing| == |frames| > 0 && WellFormed(f)
    ensures AllWellFormed(frames + [f])
    ensures HasBadGap(frames + [f], closing + [endOfStep])
       <==> HasBadGap(frames, closing) || BadGap(frames + [f], closing + [endOfStep], |frames|)
  {
    var n := |frames|;
    var fs, cs := frames + [f], closing + [endOfStep];
    if HasBadGap(fs, cs) {
      var k :| 0 < k < |fs| && BadGap(fs, cs, k);
      assert k < n ==> BadGap(frames, closing, k);
    }
    if HasBadGap(frames, closing) {
      var k :| 0 < k < n && BadGap(frames, closing, k);
      assert BadGap(fs, cs, k);
    }
  }

  /** What holds after any frame: the records span the same IDs as the frames. */
  ghost predicate Shape(st: Step, frames: seq<RawFrame>)
    requires Ordered(frames)
  {
    if frames == [] then st == NEW_STEP
    else
      && st.firstID == FrameID(frames[0]) && st.lastID == FrameID(frames[|frames| - 1])
      && st.records != [] && Ordered(st.records)
      && FrameID(st.records[0]) == st.firstID && FrameID(st.records[|st.records| - 1]) <= st.lastID
  }

  /** The last frame type tells whether the last record is a lost one. */
  ghost predicate TypeTells(labels: Labels, st: Step)
    requires AllWellFormed(st.records)
  {
    st.records != [] ==>
      var lost := FrameLost(st.records[|st.records| - 1]);
      && (st.lastType == ZeroData ==> lost == labels.AsWritten?)
      && (st.lastType == AllLost ==> lost == labels.Intended?)
  }

  /** Records are only added beyond the last ID, so nothing that could be decoded before changes. */
  lemma GapKeeps(st: Step, frames: seq<RawFrame>, id: nat)
    requires Ordered(frames) && frames != [] && Shape(st, frames) && st.lastID < id < ID_SPAN
    ensures var st' := NoteGap(st, id);
      && st'.firstID == st.firstID && st'.records != [] && Ordered(st'.records)
      && st'.records[0] == st.records[0] && FrameID(st'.records[|st'.records| - 1]) < id
      && (forall j: int :: j <= st.lastID ==> Decoded(st'.records, j) == Decoded(st.records, j))
      && (forall j: int :: st.lastID < j < id ==> Decoded(st'.records, j) == Content(true, []))
      && (if id == st.lastID + 1 then st'.records == st.records && st'.lastType == st.lastType
          else FrameLost(st'.records[|st'.records| - 1]) && st'.lastType == AllLost)
  {
    if IsGap(st.lastID, id) {
      var r := GapRecord(st.lastID + 1);
      GapRecordShape(st.lastID + 1);
      Snoc(st.records, r);
      SnocOrdered(st.records, r);
    }
  }

  /** A frame that is left out is decoded from the last record. */
  lemma DecodedBeyond(records: seq<RawFrame>, id: int)
    requires AllWellFormed(records) && records != [] && FrameID(records[|records| - 1]) < id
    ensures Decoded(records, id) == Content(FrameLost(records[|records| - 1]), [])
  {
  }

  lemma EmptyFrame(f: RawFrame)
    requires WellFormed(f)
    ensures NEvents(f) == 0 <==> Payload(f) == []
  {
  }

  /** One frame after others: it is recovered unless it closes a bad gap. */
  lemma WriteKeeps(labels: Labels, st: Step, frames: seq<RawFrame>, f: RawFrame, endOfStep: bool)
    requires Ordered(frames) && frames != [] && Shape(st, frames) && WellFormed(f) && Ordered(frames + [f])
    requires FrameID(f) > st.lastID
    ensures var st' := WriteOne(labels, st, f, endOfStep);
      var bad := labels.AsWritten? && FrameID(f) != st.lastID + 1 && !FrameLost(f) && NEvents(f) == 0 && !endOfStep;
      && Shape(st', frames + [f])
      && (TypeTells(labels, st) && !bad ==> TypeTells(labels, st'))
      && (forall j: int :: j <= st.lastID ==> Decoded(st'.records, j) == Decoded(st.records, j))
      && (forall j: int :: st.lastID < j < FrameID(f) ==> Decoded(st'.records, j) == Content(true, []))
      && (TypeTells(labels, st) ==> (Decoded(st'.records, FrameID(f)) == Of(f) <==> !bad))
  {
    hide FrameID, FrameLost, NEvents, Payload, Ordered, NoteGap, Truth, Decoded;
    var id := FrameID(f);
    GapKeeps(st, frames, id);
    EmptyFrame(f);
    var st1 := NoteGap(st, id);
    Snoc(st1.records, f);
    SnocOrdered(st1.records, f);
    DecodedBeyond(st1.records, id);
  }

  predicate NoBadGap(labels: Labels, frames: seq<RawFrame>, closing: seq<bool>)
    requires AllWellFormed(frames) && |closing| == |frames|
  {
    labels.Intended? || !HasBadGap(frames, closing)
  }

  ghost predicate RecoversExactly(labels: Labels, frames: seq<RawFrame>, closing: seq<bool>)
    requires Ordered(frames) && |closing| == |frames|
  {
    var st := Write(labels, frames, closing);
    && Shape(st, frames)
    && (NoBadGap(labels, frames, closing) ==> TypeTells(labels, st))
    && (Recovers(labels, frames, closing) <==> NoBadGap(labels, frames, closing))
  }

  /** For any step and any way its frames come in blocks, the file is right about every ID from the first
      to the last if and only if no gap is directly followed by a good empty frame before the step's last
      block; with the intended frame types it always is. */
  lemma {:induction false} RecoversIff(labels: Labels, frames: seq<RawFrame>, closing: seq<bool>)
    requires Ordered(frames) && |closing| == |frames|
    ensures RecoversExactly(labels, frames, closing)
    decreases |frames|
  {
    if |frames| == 1 {
      FirstFrame(labels, frames[0], closing[0]);
      assert frames == [frames[0]] && closing == [closing[0]];
    } else if frames != [] {
      var n := |frames| - 1;
      var fs, cs, f := frames[..n], closing[..n], frames[n];
      assert frames == fs + [f] && closing == cs + [closing[n]];
      OrderedPrefix(fs, f);
      RecoversIff(labels, fs, cs);
      RecoversSnoc(labels, fs, cs, f, closing[n]);
      hide *;
    }
  }

  lemma OrderedPrefix(frames: seq<RawFrame>, f: RawFrame)
    requires Ordered(frames + [f])
    ensures Ordered(frames) && WellFormed(f)
    ensures frames != [] ==> FrameID(frames[|frames| - 1]) < FrameID(f)
  {
    var all := frames + [f];
    assert frames == all[..|frames|] && all[|frames|] == f;
    assert frames != [] ==> all[|frames| - 1] == frames[|frames| - 1];
  }

  lemma FirstFrame(labels: Labels, f: RawFrame, endOfStep: bool)
    requires WellFormed(f)
    ensures RecoversExactly(labels, [f], [endOfStep])
  {
    hide FrameID, FrameLost, NEvents, Payload, Write, Truth, Decoded;
    EmptyWrite(labels);
    WriteSnoc(labels, [], [], f, endOfStep);
    assert [] + [f] == [f] && [] + [endOfStep] == [endOfStep];
    var st := Write(labels, [f], [endOfStep]);
    assert st.records == [f];
    Snoc([], f);
  }

  lemma RecoversSnoc(labels: Labels, frames: seq<RawFrame>, closing: seq<bool>, f: RawFrame, endOfStep: bool)
    requires Ordered(frames) && |closing| == |frames| > 0 && Ordered(frames + [f])
    requires RecoversExactly(labels, frames, closing)
    ensures RecoversExactly(labels, frames + [f], closing + [endOfStep])
  {
    hide Write, WriteOne, Truth, Decoded, FrameID, FrameLost, NEvents, HasBadGap;
    var st := Write(labels, frames, closing);
    OrderedPrefix(frames, f);
    WriteSnoc(labels, frames, closing, f, endOfStep);
    WriteKeeps(labels, st, frames, f, endOfStep);
    Snoc(frames, f);
    HasBadGapSnoc(frames, closing, f, endOfStep);
    TruthOfSkipped(frames, f);
    hide Ordered, TypeTells;
    var st' := Write(labels, frames + [f], closing + [endOfStep]);
    assert st'.firstID == st.firstID;
  }

  lemma TruthOfSkipped(frames: seq<RawFrame>, f: RawFrame)
    requires Ordered(frames + [f]) && AllWellFormed(frames) && frames != [] && WellFormed(f)
    ensures forall id :: FrameID(frames[|frames| - 1]) < id < FrameID(f) ==>
                     Truth(frames + [f], id) == Content(true, [])
  {
    OrderedPrefix(frames, f);
    Snoc(frames, f);
    forall id | FrameID(frames[|frames| - 1]) < id < FrameID(f) ensures Truth(frames, id) == Content(true, []) {
      TruthOfMissing(frames, id);
    }
  }

  /** In particular, every frame that came is read back as it was, and every ID between the first and the last
      that never came as lost. */
  lemma FramesComeBack(labels: Labels, frames: seq<RawFrame>, closing: seq<bool>, id: int)
    requires Ordered(frames) && |closing| == |frames| && frames != [] && NoBadGap(labels, frames, closing)
    requires FrameID(frames[0]) <= id <= FrameID(frames[|frames| - 1])
    ensures AllWellFormed(Write(labels, frames, closing).records)
    ensures forall i :: 0 <= i < |frames| && FrameID(frames[i]) == id ==>
                    Decoded(Write(labels, frames, closing).records, id) == Of(frames[i])
    ensures (forall i :: 0 <= i < |frames| ==> FrameID(frames[i]) != id) ==>
              Decoded(Write(labels, frames, closing).records, id) == Content(true, [])
  {
    RecoversIff(labels, frames, closing);
    hide Write, Truth, Decoded, NoBadGap, FrameID;
    if i :| 0 <= i < |frames| && FrameID(frames[i]) == id {
      forall j | 0 <= j < |frames| && FrameID(frames[j]) == id ensures Truth(frames, id) == Of(frames[j]) {
        TruthOfFrame(frames, j);
      }
    } else {
      TruthOfMissing(frames, id);
    }
  }

  function GoodEmpty(id: nat): RawFrame
    requires id < ID_SPAN
  {
    [2 * ID_SPAN + id, 0]
  }

  lemma GoodEmptyShape(id: nat)
    requires id < ID_SPAN
    ensures var f := GoodEmpty(id); WellFormed(f) && FrameID(f) == id && !FrameLost(f) && NEvents(f) == 0
  {
  }

  /** A step of two good empty frames with the frame between them missing: the code leaves the second one out,
      and it reads as lost; with the intended frame types it does not. */
  lemma LabelsMatter()
    ensures var frames, closing := [GoodEmpty(0), GoodEmpty(2)], [false, false];
      Ordered(frames) && !Recovers(AsWritten, frames, closing) && Recovers(Intended, frames, closing)
  {
    hide GoodEmpty, Write, WellFormed, FrameID, FrameLost, NEvents, Shape, TypeTells, Recovers;
    var frames, closing := [GoodEmpty(0), GoodEmpty(2)], [false, false];
    GoodEmptyShape(0);
    GoodEmptyShape(2);
    assert BadGap(frames, closing, 1);
    RecoversIff(AsWritten, frames, closing);
    RecoversIff(Intended, frames, closing);
  }

  // ---------------------------------------------------------------- the step's statistics

  /** No event of the ID was seen. */
  ghost function AllLostAt(frames: seq<RawFrame>): int -> bool
    requires AllWellFormed(frames)
  {
    id => Truth(frames, id) == Content(true, [])
  }

  /** Some events of the ID were seen, but not all. */
  ghost function SomeLostAt(frames: seq<RawFrame>): int -> bool
    requires AllWellFormed(frames)
  {
    id => Truth(frames, id).lost && Truth(frames, id).payload != []
  }

  function EventCount(frames: seq<RawFrame>): nat
    requires AllWellFormed(frames)
  {
    if frames == [] then 0 else EventCount(frames[..|frames| - 1]) + NEvents(frames[|frames| - 1])
  }

  /** The statistics printed at the end of a step cover every ID from the first to the last, once. */
  ghost predicate Accounted(st: Step, frames: seq<RawFrame>)
    requires AllWellFormed(frames)
  {
    if frames == [] then st.allFrames == st.lostN == st.lost0 == st.events == 0
    else
      && 0 <= st.firstID <= st.lastID
      && st.allFrames == st.lastID + 1 - st.firstID
      && st.lost0 == Count(AllLostAt(frames), st.firstID, st.lastID + 1)
      && st.lostN == Count(SomeLostAt(frames), st.firstID, st.lastID + 1)
      && st.events == EventCount(frames)
  }

  lemma {:induction false} StatisticsHold(labels: Labels, frames: seq<RawFrame>, closing: seq<bool>)
    requires Ordered(frames) && |closing| == |frames|
    ensures Accounted(Write(labels, frames, closing), frames)
    decreases |frames|
  {
    if frames != [] {
      var n := |frames| - 1;
      var fs, cs, f := frames[..n], closing[..n], frames[n];
      assert frames == fs + [f] && closing == cs + [closing[n]];
      OrderedPrefix(fs, f);
      StatisticsHold(labels, fs, cs);
      AccountedSnoc(labels, fs, cs, f, closing[n]);
      hide *;
    }
  }

  lemma AccountedSnoc(labels: Labels, frames: seq<RawFrame>, closing: seq<bool>, f: RawFrame, endOfStep: bool)
    requires Ordered(frames + [f]) && AllWellFormed(frames) && |closing| == |frames|
    requires Accounted(Write(labels, frames, closing), frames)
    ensures Accounted(Write(labels, frames + [f], closing + [endOfStep]), frames + [f])
  {
    hide Write, WriteOne, Truth, Ordered, FrameID, FrameLost, NEvents, Payload, Count;
    var st := Write(labels, frames, closing);
    OrderedPrefix(frames, f);
    WriteSnoc(labels, frames, closing, f, endOfStep);
    assert (frames + [f])[..|frames|] == frames;
    CountsOfOne(labels, st, f, endOfStep);
    if frames == [] {
      FirstCounts(f);
      assert st == NEW_STEP by { EmptyWrite(labels); assert closing == []; }
      assert frames + [f] == [] + [f];
      var st' := Write(labels, frames + [f], closing + [endOfStep]);
      assert st'.events == EventCount(frames + [f]);
    } else {
      NextCounts(frames, f, st.firstID);
    }
  }

  lemma EmptyWrite(labels: Labels)
    ensures Write(labels, [], []) == NEW_STEP
  {
  }

  lemma FirstCounts(f: RawFrame)
    requires WellFormed(f)
    ensures AllWellFormed([] + [f])
    ensures var id, n := FrameID(f), NEvents(f);
      && Count(AllLostAt([] + [f]), id, id + 1) == (if FrameLost(f) && n == 0 then 1 else 0)
      && Count(SomeLostAt([] + [f]), id, id + 1) == (if FrameLost(f) && n != 0 then 1 else 0)
  {
    var id := FrameID(f);
    Snoc([], f);
    EmptyFrame(f);
    assert Count(AllLostAt([] + [f]), id, id) == Count(SomeLostAt([] + [f]), id, id) == 0;
  }

  lemma NextCounts(frames: seq<RawFrame>, f: RawFrame, first: int)
    requires Ordered(frames + [f]) && AllWellFormed(frames) && WellFormed(f) && frames != []
    requires first <= FrameID(frames[|frames| - 1]) < FrameID(f)
    ensures var last, id, n := FrameID(frames[|frames| - 1]), FrameID(f), NEvents(f);
      && Count(AllLostAt(frames + [f]), first, id + 1)
         == Count(AllLostAt(frames), first, last + 1) + (id - last - 1) + (if FrameLost(f) && n == 0 then 1 else 0)
      && Count(SomeLostAt(frames + [f]), first, id + 1)
         == Count(SomeLostAt(frames), first, last + 1) + (if FrameLost(f) && n != 0 then 1 else 0)
  {
    hide Ordered, FrameID, FrameLost, NEvents, Payload, Count;
    var last, id := FrameID(frames[|frames| - 1]), FrameID(f);
    Snoc(frames, f);
    EmptyFrame(f);
    TruthOfSkipped(frames, f);
    hide Truth;
    CountGrows(AllLostAt(frames), AllLostAt(frames + [f]), first, last, id, true);
    CountGrows(SomeLostAt(frames), SomeLostAt(frames + [f]), first, last, id, false);
  }

  /** Skipped IDs count as frames with all events lost. */
  lemma CountsOfOne(labels: Labels, st: Step, f: RawFrame, endOfStep: bool)
    requires WellFormed(f) && -1 <= st.lastID < FrameID(f)
    ensures var st', n := WriteOne(labels, st, f, endOfStep), NEvents(f);
      var skipped := if st.lastID == -1 then 0 else FrameID(f) - st.lastID - 1;
      && st'.firstID == (if st.firstID == -1 then FrameID(f) else st.firstID)
      && st'.allFrames == st.allFrames + skipped + 1
      && st'.lost0 == st.lost0 + skipped + (if FrameLost(f) && n == 0 then 1 else 0)
      && st'.lostN == st.lostN + (if FrameLost(f) && n != 0 then 1 else 0)
      && st'.events == st.events + n
  {
    hide FrameID, FrameLost, NEvents, WellFormed;
  }
}
