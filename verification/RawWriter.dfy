/** The main loop of the raw data writer (src/raw_data/write_raw.cpp): it takes blocks of frames out of the
    shared-memory ring and writes each step to the data file and to the index. Files are the sequences of
    what was written to them; the two step values and the printing are left out. */
module RawWriter {
  import opened Arithmetic
  import opened WrapRing
  import opened ByteWords
  import opened Sequences
  import opened RawFrames
  import opened RawRecords
  import opened WriteRaw
  import opened CalibrationSet

  /** A line of the index file: where the step lies in the data file, and its first and last frame. */
  datatype IndexEntry = IndexEntry(begin: nat, end: nat, firstID: int, lastID: int)

  /** The frames between two pointers of the ring. */
  function Window(shm: seq<RawFrame>, rd: nat, wr: nat): seq<RawFrame>
    requires |shm| > 0 && rd < 2 * |shm| && wr < 2 * |shm|
  {
    seq(Occupancy(wr, rd, |shm|), k requires 0 <= k => shm[Index(Wrapped(rd + k, |shm|), |shm|)])
  }

  lemma WindowEnds(rd: nat, wr: nat, n: nat, k: nat)
    requires n > 0 && rd < 2 * n && wr < 2 * n && k <= Occupancy(wr, rd, n)
    ensures Wrapped(rd + k, n) == wr <==> k == Occupancy(wr, rd, n)
    ensures Wrapped(Wrapped(rd + k, n) + 1, n) == Wrapped(rd + (k + 1), n)
  {
    Advance(rd + k, n);
    Turn(rd, k, 2 * n);
  }

  lemma Turn(rd: nat, k: nat, m: nat)
    requires rd < m && k < m
    ensures (rd + k) % m == if rd + k < m then rd + k else rd + k - m
  {
    DivUnique(rd, m, 0, rd);
    ModAdd(rd, k, m);
  }

  lemma StartsThere(rd: nat, n: nat)
    requires n > 0 && rd < 2 * n
    ensures Wrapped(rd, n) == rd
  {
    DivUnique(rd, 2 * n, 0, rd);
  }

  lemma WindowAt(shm: seq<RawFrame>, rd: nat, wr: nat, k: nat)
    requires |shm| > 0 && rd < 2 * |shm| && wr < 2 * |shm| && k < Occupancy(wr, rd, |shm|)
    ensures |Window(shm, rd, wr)| == Occupancy(wr, rd, |shm|)
    ensures Window(shm, rd, wr)[k] == shm[Index(Wrapped(rd + k, |shm|), |shm|)]
  {
  }

  /** The frames between two pointers are those published and not given back, in the order they came in. */
  lemma WindowIs(shm: seq<RawFrame>, freed: nat, written: nat, k: nat)
    requires |shm| > 0 && freed <= written <= freed + |shm|
    ensures var window := Window(shm, Wrapped(freed, |shm|), Wrapped(written, |shm|));
      |window| == written - freed && (k < |window| ==> window[k] == shm[(freed + k) % |shm|])
  {
    hide Wrapped;
    PointersSuffice(written, freed, |shm|);
    if k < written - freed {
      WindowAt(shm, Wrapped(freed, |shm|), Wrapped(written, |shm|), k);
      ModHalf(Wrapped(freed, |shm|) + k, |shm|);
      SameSlot(freed, k, |shm|);
    }
  }

  /** All event words of some frames. */
  function Events(frames: seq<RawFrame>): multiset<nat>
    requires AllWellFormed(frames)
  {
    if frames == [] then multiset{}
    else Events(frames[..|frames| - 1]) + multiset(EventWords(frames[|frames| - 1]))
  }

  lemma EventsSnoc(frames: seq<RawFrame>, f: RawFrame)
    requires AllWellFormed(frames) && WellFormed(f)
    ensures AllWellFormed(frames + [f]) && Events(frames + [f]) == Events(frames) + multiset(EventWords(f))
  {
    assert (frames + [f])[..|frames|] == frames;
  }

  function Repeat(b: bool, n: nat): (bs: seq<bool>)
    ensures |bs| == n
  {
    seq(n, i => b)
  }

  /** A step that has been closed, and which words of the data file, or calibration records, are its own. */
  datatype Done = Done(frames: seq<RawFrame>, closing: seq<bool>, from: nat, to: nat)

  /** A position in the data file, after so many words or calibration records. */
  function FileOffset(std: bool, n: nat): nat { 64 + (if std then 8 else 32) * n }

  /** The index entry says where the step lies, and there lie exactly its records or its compressed events. */
  ghost predicate EntryHolds(std: bool, data: seq<Word>, calibration: seq<CalibrationRecord>, e: IndexEntry, d: Done) {
    && AllWellFormed(d.frames) && |d.closing| == |d.frames| && d.from <= d.to
    && var st := Write(AsWritten, d.frames, d.closing);
    && e.begin == 64 + (if std then 8 else 32) * d.from && e.end == 64 + (if std then 8 else 32) * d.to
    && (d.frames == [] ==> e.firstID == e.lastID == -1)
    && (d.frames != [] ==> e.firstID == FrameID(d.frames[0]) && e.lastID == FrameID(d.frames[|d.frames| - 1]))
    && if std then d.to <= |data| && data[d.from..d.to] == Flatten(st.records)
       else d.to <= |calibration| && Compressed(calibration[d.from..d.to], Events(d.frames))
  }

  ghost predicate IndexHolds(std: bool, data: seq<Word>, calibration: seq<CalibrationRecord>, index: seq<IndexEntry>,
                             steps: seq<Done>) {
    |steps| == |index| && forall i :: 0 <= i < |index| ==> EntryHolds(std, data, calibration, index[i], steps[i])
  }

  lemma EntryStays(std: bool, data: seq<Word>, calibration: seq<CalibrationRecord>, e: IndexEntry, d: Done,
                   data': seq<Word>, calibration': seq<CalibrationRecord>)
    requires EntryHolds(std, data, calibration, e, d) && data <= data' && calibration <= calibration'
    ensures EntryHolds(std, data', calibration', e, d)
  {
    hide Write, Flatten, Compressed, Events;
    if std {
      assert data'[d.from..d.to] == data[d.from..d.to];
    } else {
      assert calibration'[d.from..d.to] == calibration[d.from..d.to];
    }
  }

  lemma IndexGrows(std: bool, data: seq<Word>, calibration: seq<CalibrationRecord>, index: seq<IndexEntry>, steps: seq<Done>,
                   data': seq<Word>, calibration': seq<CalibrationRecord>, e: IndexEntry, d: Done)
    requires IndexHolds(std, data, calibration, index, steps) && data <= data' && calibration <= calibration'
    requires EntryHolds(std, data', calibration', e, d)
    ensures IndexHolds(std, data', calibration', index + [e], steps + [d])
  {
    hide EntryHolds;
    forall i | 0 <= i < |index|
      ensures EntryHolds(std, data', calibration', index[i], steps[i])
    {
      EntryStays(std, data, calibration, index[i], steps[i], data', calibration');
    }
  }

  class Writer {
    const std: bool

    var lastFrameType: FrameType
    var lastFrameID: int
    var stepFirstFrameID: int
    var stepAllFrames: int
    var stepLostFramesN: nat
    var stepLostFrames0: int
    var stepEvents: nat
    var calEventSet: seq<nat>

    var dataFile: seq<Word>
    var calibrationFile: seq<CalibrationRecord>
    var indexFile: seq<IndexEntry>
    var stepStartOffset: nat

    // The frames of the current step, whether each came in the step's last block, and what was written
    // before it and for it.
    ghost var frames: seq<RawFrame>
    ghost var closing: seq<bool>
    ghost var dataBefore: seq<Word>
    ghost var records: seq<RawFrame>
    // The steps closed so far.
    ghost var steps: seq<Done>

    ghost predicate Valid()
      reads this
    {
      && AllWellFormed(frames) && |closing| == |frames|
      && Current() == Write(AsWritten, frames, closing)
      && FileHolds()
      && Sorted(calEventSet) && multiset(calEventSet) == Collected(frames)
      && FilesInOrder()
    }

    /** The current step begins where the last one ends, and all steps before it are in the index. */
    ghost predicate FilesInOrder()
      reads this`dataBefore, this`calibrationFile, this`indexFile, this`steps, this`stepStartOffset
    {
      && (if std then calibrationFile == [] else dataBefore == [])
      && stepStartOffset == FileOffset(std, Written())
      && IndexHolds(std, dataBefore, calibrationFile, indexFile, steps)
    }

    /** How much has been written for the steps before the current one. */
    ghost function Written(): nat
      reads this`dataBefore, this`calibrationFile
    {
      if std then |dataBefore| else |calibrationFile|
    }

    ghost predicate FileHolds()
      reads this`dataFile, this`dataBefore, this`records
    {
      dataFile == dataBefore + InFile(records)
    }

    /** What the data file gets of some records, and the calibration set of some frames. */
    ghost function InFile(records: seq<RawFrame>): seq<Word> { if std then Flatten(records) else [] }

    ghost function Collected(frames: seq<RawFrame>): multiset<nat>
      requires AllWellFormed(frames)
    {
      if std then multiset{} else Events(frames)
    }

    ghost function Current(): Step
      reads this
    {
      Step(lastFrameType, lastFrameID, stepFirstFrameID, records, stepAllFrames, stepLostFramesN, stepLostFrames0,
           stepEvents)
    }

    /** The position in the data file: a header of 64 bytes, 8 bytes a word, 32 a calibration record. */
    function Offset(): nat
      reads this
    {
      64 + 8 * |dataFile| + 32 * |calibrationFile|
    }

    constructor (std: bool)
      ensures Valid() && this.std == std && frames == [] && dataFile == [] && indexFile == [] && steps == []
      ensures calibrationFile == []
    {
      this.std := std;
      lastFrameType, lastFrameID, stepFirstFrameID := Unknown, -1, -1;
      stepAllFrames, stepLostFramesN, stepLostFrames0, stepEvents := 0, 0, 0, 0;
      calEventSet, dataFile, calibrationFile, indexFile, stepStartOffset := [], [], [], [], 64;
      frames, closing, dataBefore, records, steps := [], [], [], [], [];
    }

    method Append(record: RawFrame)
      requires FileHolds()
      modifies this`dataFile, this`records
      ensures FileHolds() && records == old(records) + [record]
    {
      FlattenSnoc(records, record);
      records := records + [record];
      if std {
        dataFile := dataFile + record;
      }
    }

    /** Lines 125-151. */
    method CheckFrameID(frameID: nat)
      requires frameID < ID_SPAN && lastFrameID >= -1 && FileHolds()
      modifies this`stepFirstFrameID, this`stepAllFrames, this`stepLostFrames0, this`lastFrameType, this`dataFile,
               this`records
      ensures FileHolds() && Current() == NoteGap(old(Current()), frameID)
    {
      hide GapRecord, Flatten;
      if stepFirstFrameID == -1 {
        stepFirstFrameID := frameID;
      }
      if frameID <= lastFrameID {
        // Only a warning.
      } else if lastFrameID >= 0 && frameID != lastFrameID + 1 {
        var skippedFrames := frameID - lastFrameID - 1;
        stepAllFrames := stepAllFrames + skippedFrames;
        stepLostFrames0 := stepLostFrames0 + skippedFrames;
        var lostFrameBuffer := GapRecord(lastFrameID + 1);
        Append(lostFrameBuffer);
        lastFrameType := AllLost;
      }
    }

    /** Lines 166-173. */
    method CollectEvents(f: RawFrame)
      requires WellFormed(f) && Sorted(calEventSet)
      modifies this`calEventSet
      ensures Sorted(calEventSet)
      ensures multiset(calEventSet) == old(multiset(calEventSet)) + if std then multiset{} else multiset(EventWords(f))
    {
      if !std {
        var words := EventWords(f);
        for i := 0 to NEvents(f)
          invariant Sorted(calEventSet)
          invariant multiset(calEventSet) == old(multiset(calEventSet)) + multiset(words[..i])
        {
          assert words[..i + 1] == words[..i] + [words[i]];
          calEventSet := Insert(calEventSet, FrameEvent(f, i));
        }
        assert words[..|words|] == words;
      }
    }

    /** Lines 175-184. */
    method Account(frameLost: bool, nEvents: nat)
      modifies this`stepAllFrames, this`stepLostFramesN, this`stepLostFrames0, this`stepEvents
      ensures stepEvents == old(stepEvents) + nEvents && stepAllFrames == old(stepAllFrames) + 1
      ensures stepLostFrames0 == old(stepLostFrames0) + if frameLost && nEvents == 0 then 1 else 0
      ensures stepLostFramesN == old(stepLostFramesN) + if frameLost && nEvents != 0 then 1 else 0
    {
      stepEvents := stepEvents + nEvents;
      if frameLost {
        if nEvents == 0 {
          stepLostFrames0 := stepLostFrames0 + 1;
        } else {
          stepLostFramesN := stepLostFramesN + 1;
        }
      }
      stepAllFrames := stepAllFrames + 1;
    }

    /** Lines 186-210. */
    method WriteOut(f: RawFrame, frameLost: bool, nEvents: nat, endOfStep: bool)
      requires FileHolds()
      modifies this`lastFrameType, this`dataFile, this`records
      ensures FileHolds()
      ensures var frameType := TypeOf(AsWritten, frameLost, nEvents);
        if Suppressed(old(lastFrameType), frameType, endOfStep)
        then records == old(records) && lastFrameType == old(lastFrameType)
        else records == old(records) + [f] && lastFrameType == frameType
    {
      var frameType;
      if frameLost {
        frameType := if nEvents == 0 then ZeroData else SomeData;
      } else {
        frameType := if nEvents == 0 then AllLost else SomeLost;
      }
      if !endOfStep && lastFrameType == ZeroData && frameType == lastFrameType {
        return;
      }
      if !endOfStep && lastFrameType == AllLost && frameType == lastFrameType {
        return;
      }
      lastFrameType := frameType;
      Append(f);
    }

    /** What one frame does to the step. */
    method NoteFrame(f: RawFrame, endOfStep: bool)
      requires WellFormed(f) && lastFrameID >= -1 && FileHolds()
      modifies this`lastFrameType, this`lastFrameID, this`stepFirstFrameID, this`stepAllFrames, this`stepLostFramesN,
               this`stepLostFrames0, this`stepEvents, this`dataFile, this`records
      ensures FileHolds() && Current() == WriteOne(AsWritten, old(Current()), f, endOfStep)
    {
      hide NoteGap, FileHolds, TypeOf, Suppressed, FrameID, FrameLost, NEvents;
      var frameID := FrameID(f);
      CheckFrameID(frameID);
      lastFrameID := frameID;
      Account(FrameLost(f), NEvents(f));
      WriteOut(f, FrameLost(f), NEvents(f), endOfStep);
    }

    /** One turn of the frame loop. */
    method WriteFrame(f: RawFrame, endOfStep: bool)
      requires Valid() && WellFormed(f)
      modifies this`lastFrameType, this`lastFrameID, this`stepFirstFrameID, this`stepAllFrames, this`stepLostFramesN,
               this`stepLostFrames0, this`stepEvents, this`calEventSet, this`dataFile, this`frames, this`closing,
               this`records
      ensures Valid() && frames == old(frames) + [f] && closing == old(closing) + [endOfStep]
    {
      hide Write, WriteOne, Events, EventWords, FileHolds, FilesInOrder, Sorted, WellFormed, FrameID, NEvents, FrameLost, Flatten;
      WriteSnoc(AsWritten, frames, closing, f, endOfStep);
      EventsSnoc(frames, f);
      NoteFrame(f, endOfStep);
      CollectEvents(f);
      frames, closing := frames + [f], closing + [endOfStep];
    }

    /** The frame loop. */
    method TakeFrames(shm: seq<RawFrame>, rd: nat, wrPointer: nat, endOfStep: bool)
      requires Valid() && |shm| > 0 && rd < 2 * |shm| && wrPointer < 2 * |shm|
      requires AllWellFormed(Window(shm, rd, wrPointer))
      modifies this`lastFrameType, this`lastFrameID, this`stepFirstFrameID, this`stepAllFrames, this`stepLostFramesN,
               this`stepLostFrames0, this`stepEvents, this`calEventSet, this`dataFile, this`frames, this`closing,
               this`records
      ensures Valid() && frames == old(frames) + Window(shm, rd, wrPointer)
      ensures closing == old(closing) + Repeat(endOfStep, Occupancy(wrPointer, rd, |shm|))
    {
      hide Valid, Wrapped, Index, WellFormed, Occupancy;
      var bs := |shm|;
      var rdPointer := rd;
      ghost var n := Occupancy(wrPointer, rd, bs);
      ghost var block, cl := Window(shm, rd, wrPointer), Repeat(endOfStep, n);
      ghost var k := 0;
      assert Wrapped(rd + 0, bs) == rd by { StartsThere(rd, bs); }
      WindowEnds(rd, wrPointer, bs, 0);
      assert |block| == n;
      while rdPointer != wrPointer
        invariant Valid() && 0 <= k <= n && rdPointer == Wrapped(rd + k, bs)
        invariant rdPointer == wrPointer <==> k == n
        invariant frames == old(frames) + block[..k] && closing == old(closing) + cl[..k]
        decreases n - k
      {
        var index := Index(rdPointer, bs);
        WindowAt(shm, rd, wrPointer, k);
        assert block[..k + 1] == block[..k] + [block[k]] && cl[..k + 1] == cl[..k] + [cl[k]];
        WriteFrame(shm[index], endOfStep);
        WindowEnds(rd, wrPointer, bs, k);
        rdPointer := Wrapped(rdPointer + 1, bs);
        k := k + 1;
        WindowEnds(rd, wrPointer, bs, k);
      }
      assert block[..k] == block && cl[..k] == cl;
    }

    /** Lines 216-231. */
    method WriteCalibration()
      requires Valid()
      modifies this`calibrationFile, this`calEventSet
      ensures calEventSet == []
      ensures |calibrationFile| >= |old(calibrationFile)|
      ensures calibrationFile[..|old(calibrationFile)|] == old(calibrationFile)
      ensures std ==> calibrationFile == old(calibrationFile)
      ensures !std ==> Compressed(calibrationFile[|old(calibrationFile)|..], Events(frames))
    {
      hide Compressed, Write, Events, Flatten, Sorted;
      if !std {
        var records := Compress(calEventSet);
        assert (calibrationFile + records)[|calibrationFile|..] == records;
        calibrationFile := calibrationFile + records;
        calEventSet := [];
      } else {
        assert |multiset(calEventSet)| == |calEventSet|;
      }
    }

    /** Lines 251-258. */
    method StartStep()
      requires calEventSet == [] && FilesInOrder() && dataBefore == dataFile
      modifies this`stepAllFrames, this`stepEvents, this`stepLostFramesN, this`stepLostFrames0, this`lastFrameID,
               this`stepFirstFrameID, this`lastFrameType, this`frames, this`closing, this`records
      ensures Valid() && frames == []
    {
      hide Write, Flatten, Events, Sorted, FilesInOrder;
      EmptyStep();
      records := [];
      ResetVariables();
      frames, closing := [], [];
      assert dataFile == dataBefore + [];
    }

    method ResetVariables()
      requires records == []
      modifies this`stepAllFrames, this`stepEvents, this`stepLostFramesN, this`stepLostFrames0, this`lastFrameID,
               this`stepFirstFrameID, this`lastFrameType
      ensures Current() == NEW_STEP
    {
      stepAllFrames := 0;
      stepEvents := 0;
      stepLostFramesN := 0;
      stepLostFrames0 := 0;
      lastFrameID := -1;
      stepFirstFrameID := -1;
      lastFrameType := Unknown;
    }

    /** Lines 215-249: the step's compressed events are written out, and the step is entered in the index. */
    method IndexStep()
      requires Valid()
      modifies this`calibrationFile, this`calEventSet, this`indexFile, this`stepStartOffset, this`steps, this`dataBefore
      ensures calEventSet == [] && FilesInOrder() && dataBefore == dataFile
      ensures old(calibrationFile) <= calibrationFile && old(indexFile) <= indexFile
      ensures steps == old(steps) + [Done(frames, closing, old(Written()), Written())]
    {
      hide Compressed, Write, Events, Flatten, Sorted, IndexHolds, EntryHolds;
      ghost var from, was := Written(), calibrationFile;
      WriteCalibration();
      var entry := IndexEntry(stepStartOffset, Offset(), stepFirstFrameID, lastFrameID);
      ghost var d := Done(frames, closing, from, if std then |dataFile| else |calibrationFile|);
      StepEntered(std, dataBefore, dataFile, was, calibrationFile, entry, d);
      IndexGrows(std, dataBefore, was, indexFile, steps, dataFile, calibrationFile, entry, d);
      indexFile := indexFile + [entry];
      stepStartOffset := Offset();
      steps, dataBefore := steps + [d], dataFile;
    }

    /** Lines 214-259: the step is written out and entered in the index, and the next one starts afresh. */
    method CloseStep()
      requires Valid()
      modifies this
      ensures Valid() && frames == [] && old(indexFile) <= indexFile && old(calibrationFile) <= calibrationFile
      ensures dataFile == old(dataFile)
      ensures steps == old(steps) + [Done(old(frames), old(closing), old(Written()), Written())]
    {
      hide Compressed, Write, Events, Flatten, Sorted, IndexHolds, FileHolds;
      IndexStep();
      StartStep();
    }

    /** One block of frames. At the end of a step the step is in the index, and what belongs to it in the file
        begins where the step before ends. */
    method ProcessBlock(shm: seq<RawFrame>, blockRdPointer: nat, blockWrPointer: nat, endOfStep: bool)
      returns (rdPointer: nat)
      requires Valid() && |shm| > 0
      requires AllWellFormed(Window(shm, Wrapped(blockRdPointer, |shm|), Wrapped(blockWrPointer, |shm|)))
      modifies this
      ensures Valid() && rdPointer == Wrapped(blockWrPointer, |shm|)
      ensures old(indexFile) <= indexFile
      ensures var block := Window(shm, Wrapped(blockRdPointer, |shm|), Wrapped(blockWrPointer, |shm|));
        var all, cl := old(frames) + block, old(closing) + Repeat(endOfStep, |block|);
        && AllWellFormed(all)
        && if endOfStep then frames == [] && steps == old(steps) + [Done(all, cl, old(Written()), Written())]
           else frames == all && closing == cl && steps == old(steps) && Written() == old(Written())
    {
      hide Write, Window, Wrapped, Compressed, Events, Sorted, Flatten, IndexHolds;
      rdPointer := Wrapped(blockWrPointer, |shm|);
      TakeFrames(shm, Wrapped(blockRdPointer, |shm|), rdPointer, endOfStep);
      if endOfStep {
        CloseStep();
      }
    }
  }

  /** What has been written for a step is where its index entry says. */
  lemma StepEntered(std: bool, dataBefore: seq<Word>, data: seq<Word>, before: seq<CalibrationRecord>,
                    calibration: seq<CalibrationRecord>, e: IndexEntry, d: Done)
    requires AllWellFormed(d.frames) && |d.closing| == |d.frames|
    requires var st := Write(AsWritten, d.frames, d.closing);
      && data == dataBefore + (if std then Flatten(st.records) else [])
      && e == IndexEntry(FileOffset(std, d.from), FileOffset(std, d.to), st.firstID, st.lastID)
    requires before <= calibration && (!std ==> Compressed(calibration[|before|..], Events(d.frames)))
    requires d.from == if std then |dataBefore| else |before|
    requires d.to == if std then |data| else |calibration|
    ensures EntryHolds(std, data, calibration, e, d)
  {
    hide Write, Flatten, Compressed, Events;
    FirstAndLast(AsWritten, d.frames, d.closing);
    if !std {
      assert calibration[|before|..|calibration|] == calibration[|before|..];
    }
  }

  lemma EmptyStep()
    ensures Write(AsWritten, [], []) == NEW_STEP && Flatten<Word>([]) == [] && Events([]) == multiset{} && Sorted([])
  {
  }
}
