/** Writer and reader of the raw file together: whatever the writer leaves out, the reader delivers every
    event that the acquisition saw (src/raw_data/write_raw.cpp:121-212, src/raw_data/RawReader.cpp:221-310). */
module RawChain {
  import opened ByteWords
  import opened Sequences
  import opened RawFrames
  import opened RawRecords
  import opened WriteRaw
  import opened RawWriter
  import opened RawReader
  import opened RawBatches

  lemma NoHits(f: RawFrame, base: int)
    requires WellFormed(f) && NEvents(f) == 0
    ensures FrameHits(f, base) == []
  {
  }

  /** One frame: the record of a gap has no events, and a frame that is left out has none. */
  lemma OneFrameSurvives(labels: Labels, st: Step, f: RawFrame, endOfStep: bool, base: int)
    requires WellFormed(f) && st.lastID >= -1 && AllWellFormed(st.records)
    ensures var st' := WriteOne(labels, st, f, endOfStep);
      AllWellFormed(st'.records) && FileHits(st'.records, base) == FileHits(st.records, base) + FrameHits(f, base)
  {
    hide FrameID, FrameLost, NEvents, GapRecord, FileHits, FrameHits;
    if IsGap(st.lastID, FrameID(f)) {
      var gap := GapRecord(st.lastID + 1);
      GapRecordShape(st.lastID + 1);
      SnocFileHits(st.records, gap, base);
      NoHits(gap, base);
    }
    var records := NoteGap(st, FrameID(f)).records;
    SnocFileHits(records, f, base);
    if NEvents(f) == 0 {
      NoHits(f, base);
    }
  }

  /** The records of a step have exactly the events of its frames, in their order, for any frames, even
      with IDs out of order, in any blocks, and with the frame types as written or as intended. */
  lemma {:induction false} EventsSurvive(labels: Labels, frames: seq<RawFrame>, closing: seq<bool>, base: int)
    requires AllWellFormed(frames) && |closing| == |frames|
    ensures var st := Write(labels, frames, closing);
      AllWellFormed(st.records) && FileHits(st.records, base) == FileHits(frames, base)
    decreases |frames|
  {
    if frames != [] {
      var n := |frames| - 1;
      EventsSurvive(labels, frames[..n], closing[..n], base);
      var st := Write(labels, frames[..n], closing[..n]);
      assert Write(labels, frames, closing) == WriteOne(labels, st, frames[n], closing[n]);
      OneFrameSurvives(labels, st, frames[n], closing[n], base);
      assert frames == frames[..n] + [frames[n]];
      SnocFileHits(frames[..n], frames[n], base);
      hide *;
    }
  }

  /** The step's number of events, which the writer counts and the printer sums, is that of the hits. */
  lemma {:induction false} EventsCounted(frames: seq<RawFrame>, base: int)
    requires AllWellFormed(frames)
    ensures |FileHits(frames, base)| == EventCount(frames)
  {
    if frames != [] {
      EventsCounted(frames[..|frames| - 1], base);
    }
  }

  lemma OneFrameShort(labels: Labels, st: Step, f: RawFrame, endOfStep: bool)
    requires WellFormed(f) && st.lastID >= -1
    ensures AllShort(WriteOne(labels, st, f, endOfStep).records) <==> AllShort(st.records) && IsShort(f)
  {
    hide FrameID, FrameLost, NEvents;
    var st1 := NoteGap(st, FrameID(f));
    if IsGap(st.lastID, FrameID(f)) {
      SnocShort(st.records, GapRecord(st.lastID + 1));
    }
    SnocShort(st1.records, f);
    assert AllShort(st1.records) <==> AllShort(st.records);
  }

  lemma SnocShort(records: seq<RawFrame>, r: RawFrame)
    ensures AllShort(records + [r]) <==> AllShort(records) && IsShort(r)
  {
    assert forall i :: 0 <= i < |records| ==> (records + [r])[i] == records[i];
    assert (records + [r])[|records|] == r;
  }

  /** A frame that the reader cannot take has events, so it is written; nothing else is too long for it. */
  lemma {:induction false} RecordsShort(labels: Labels, frames: seq<RawFrame>, closing: seq<bool>)
    requires AllWellFormed(frames) && |closing| == |frames|
    ensures AllShort(Write(labels, frames, closing).records) <==> AllShort(frames)
    decreases |frames|
  {
    hide WellFormed, WriteOne, IsShort;
    if frames != [] {
      var n := |frames| - 1;
      RecordsShort(labels, frames[..n], closing[..n]);
      var st := Write(labels, frames[..n], closing[..n]);
      OneFrameShort(labels, st, frames[n], closing[n]);
      SnocShort(frames[..n], frames[n]);
      assert frames == frames[..n] + [frames[n]];
      assert Write(labels, frames, closing) == WriteOne(labels, st, frames[n], closing[n]);
    }
  }

  /** In order, and not beyond an ID. */
  predicate InOrderUpTo(records: seq<RawFrame>, last: int)
    requires AllWellFormed(records)
  {
    NonDecreasing(records) && forall i :: 0 <= i < |records| ==> FrameID(records[i]) <= last
  }

  lemma SnocInOrder(records: seq<RawFrame>, r: RawFrame, last: int)
    requires AllWellFormed(records) && WellFormed(r) && InOrderUpTo(records, last) && last <= FrameID(r)
    ensures InOrderUpTo(records + [r], FrameID(r))
  {
    hide FrameID;
  }

  lemma OneFrameInOrder(labels: Labels, st: Step, f: RawFrame, endOfStep: bool)
    requires WellFormed(f) && st.lastID >= -1 && AllWellFormed(st.records)
    requires InOrderUpTo(st.records, st.lastID) && st.lastID <= FrameID(f)
    ensures AllWellFormed(WriteOne(labels, st, f, endOfStep).records)
    ensures InOrderUpTo(WriteOne(labels, st, f, endOfStep).records, FrameID(f))
  {
    hide FrameID, FrameLost, NEvents, GapRecord;
    if IsGap(st.lastID, FrameID(f)) {
      GapRecordShape(st.lastID + 1);
      SnocInOrder(st.records, GapRecord(st.lastID + 1), st.lastID);
      SnocInOrder(NoteGap(st, FrameID(f)).records, f, st.lastID + 1);
    } else {
      SnocInOrder(st.records, f, st.lastID);
    }
  }

  lemma {:induction false} RecordsInOrder(labels: Labels, frames: seq<RawFrame>, closing: seq<bool>)
    requires AllWellFormed(frames) && |closing| == |frames| && NonDecreasing(frames)
    ensures var st := Write(labels, frames, closing); AllWellFormed(st.records) && InOrderUpTo(st.records, st.lastID)
    decreases |frames|
  {
    if frames != [] {
      var n := |frames| - 1;
      RecordsInOrder(labels, frames[..n], closing[..n]);
      var st := Write(labels, frames[..n], closing[..n]);
      assert n > 0 ==> FrameID(frames[n - 1]) <= FrameID(frames[n]);
      OneFrameInOrder(labels, st, frames[n], closing[n]);
      assert Write(labels, frames, closing) == WriteOne(labels, st, frames[n], closing[n]);
    }
  }

  /** What a step that was written to a file gives when it is read, for any frames, in any order of their IDs:
      its records hold every event of every frame, in order; they are short enough for the reader exactly
      if the frames are; and their IDs never decrease if those of the frames do not. */
  lemma WrittenIsReadable(labels: Labels, frames: seq<RawFrame>, closing: seq<bool>, file: seq<Byte>, begin: nat, end: nat)
    requires AllWellFormed(frames) && |closing| == |frames|
    requires var words := Flatten(Write(labels, frames, closing).records);
      begin <= end <= |file| && end - begin == 8 * |words| && Words(file[begin..end]) == words
    ensures var records := Write(labels, frames, closing).records;
      && Stored(file, begin, end, records) && FileHits(records, 0) == FileHits(frames, 0)
      && (AllShort(records) <==> AllShort(frames))
      && (NonDecreasing(frames) ==> NonDecreasing(records))
  {
    EventsSurvive(labels, frames, closing, 0);
    RecordsShort(labels, frames, closing);
    if NonDecreasing(frames) {
      RecordsInOrder(labels, frames, closing);
    }
    hide Write, FrameID, FrameLost, NEvents, FileHits, Words, Flatten;
  }

  // ---------------------------------------------------------------- the file in bytes

  /** A part of the data, in the file behind its header. */
  lemma PartOfFile(header: seq<Byte>, data: seq<Word>, from: nat, to: nat)
    requires |header| == 64 && from <= to <= |data|
    ensures |(header + Bytes(data))[64 + 8 * from..64 + 8 * to]| == 8 * (to - from)
    ensures Words((header + Bytes(data))[64 + 8 * from..64 + 8 * to]) == data[from..to]
  {
    hide Words, Bytes;
    WordsOfBytes(data);
    WordsOfPart(Bytes(data), from, to);
    assert (header + Bytes(data))[64 + 8 * from..64 + 8 * to] == Bytes(data)[8 * from..8 * to];
  }

  /** At any time, every step that is in the index lies in the file as the reader expects it. */
  lemma IndexedIsReadable(w: Writer, header: seq<Byte>, i: nat)
    requires w.Valid() && w.std && |header| == 64 && i < |w.indexFile|
    ensures |w.steps| == |w.indexFile| && AllWellFormed(w.steps[i].frames) && |w.steps[i].closing| == |w.steps[i].frames|
    ensures var d, e := w.steps[i], w.indexFile[i];
      var records := Write(AsWritten, d.frames, d.closing).records;
      && Stored(header + Bytes(w.dataFile), e.begin, e.end, records) && FileHits(records, 0) == FileHits(d.frames, 0)
      && (AllShort(records) <==> AllShort(d.frames))
      && (NonDecreasing(d.frames) ==> NonDecreasing(records))
  {
    hide Write, FileHits, Words, Bytes, Flatten, Stored, NonDecreasing, AllShort, RawWriter.Events;
    var d, e := w.steps[i], w.indexFile[i];
    assert EntryHolds(w.std, w.dataBefore, w.calibrationFile, e, d);
    EntryStays(w.std, w.dataBefore, w.calibrationFile, e, d, w.dataFile, w.calibrationFile);
    PartOfFile(header, w.dataFile, d.from, d.to);
    assert d.to - d.from == |w.dataFile[d.from..d.to]|;
    WrittenIsReadable(AsWritten, d.frames, d.closing, header + Bytes(w.dataFile), e.begin, e.end);
  }

  /** Writer, file, index and reader together, for any step that is in the index, in whatever order its frame
      IDs came: reading it fails exactly if the writer got a frame of 2048 words or more for it; otherwise
      the sink gets every event of every frame, in order, with its absolute times, in buffers within their
      limits, and in timely ones if the IDs never decreased. */
  method ReadBack(w: Writer, header: seq<Byte>, i: nat) returns (ok: bool, sink: seq<Batch>)
    requires w.Valid() && w.std && |header| == 64 && i < |w.indexFile|
    ensures i < |w.steps| && AllWellFormed(w.steps[i].frames)
    ensures ok <==> AllShort(w.steps[i].frames)
    ensures ok ==> SinkHits(sink) == FileHits(w.steps[i].frames, 0)
    ensures ok ==> GoodBatches(sink, NonDecreasing(w.steps[i].frames))
    ensures ok ==> EventsOut(w.steps[i].frames, sink)
  {
    hide Write, FileHits, Words, Bytes, SinkHits, Stored, NonDecreasing, AllShort, EventsOut;
    IndexedIsReadable(w, header, i);
    var reader := new Reader(header + Bytes(w.dataFile));
    var step := w.indexFile[i];
    ok, sink := reader.ProcessStep(step.begin, step.end, Write(AsWritten, w.steps[i].frames, w.steps[i].closing).records);
    if ok {
      AllEventsOut(w.steps[i].frames, sink);
    }
  }
}
