/** Reading a step back from the raw file (src/raw_data/RawReader.cpp:169-310): buffered reads that may be
    short, and regrouping of the frames into buffers of hits with a time base of their own. The accounting
    of lost frames is left out. */
module RawReader {
  import opened ByteWords
  import opened Sequences
  import opened RawFrames
  import opened RawRecords
  import opened Events
  import opened HitTimes
  import opened SharedMemory
  import opened RawBatches

  const BUFFER_SIZE := 131072

  // ---------------------------------------------------------------- the file

  lemma SliceOfSlice(s: seq<Byte>, start: nat, count: nat, n: nat, more: nat)
    requires start + count <= |s| && n + more <= count
    ensures s[start..start + count][n..n + more] == s[start + n..start + n + more]
  {
    var a, b := s[start..start + count][n..n + more], s[start + n..start + n + more];
    forall i | 0 <= i < more ensures a[i] == b[i] {
      assert a[i] == s[start..start + count][n + i];
    }
    assert a == b;
  }

  /** A part of the file holds some frames. */
  ghost predicate Stored(file: seq<Byte>, begin: nat, end: nat, records: seq<RawFrame>) {
    && AllWellFormed(records)
    && begin <= end <= |file| && end - begin == 8 * |Flatten(records)|
    && Words(file[begin..end]) == Flatten(records)
  }

  /** The reader asserts this of a frame with events. */
  predicate IsShort(f: RawFrame) { |f| < 2048 }

  predicate AllShort(frames: seq<RawFrame>) { forall i :: 0 <= i < |frames| ==> IsShort(frames[i]) }

  /** Where frame k begins. */
  function FrameAt(begin: nat, records: seq<RawFrame>, k: nat): nat
    requires k <= |records|
  {
    begin + 8 * |Flatten(records[..k])|
  }

  lemma FrameThere(file: seq<Byte>, begin: nat, end: nat, records: seq<RawFrame>, k: nat)
    requires Stored(file, begin, end, records) && k < |records|
    ensures var at, r := FrameAt(begin, records, k), records[k];
      && WellFormed(r) && 2 <= |r| && at + 8 * |r| == FrameAt(begin, records, k + 1) <= end <= |file|
      && Words(file[at..at + 8 * |r|]) == r
      && FrameSize(Words(file[at..at + 16])) == |r|
  {
    hide Words, WordAt, FrameSize, NEvents;
    var n, m := |Flatten(records[..k])|, |records[k]|;
    NextRecord(records, k);
    hide Flatten;
    var part := file[begin..end];
    WordsOfPart(part, n, n + m);
    WordsOfPart(part, n, n + 2);
    SliceOfSlice(file, begin, end - begin, 8 * n, 8 * m);
    SliceOfSlice(file, begin, end - begin, 8 * n, 16);
  }

  lemma StoredInFile(file: seq<Byte>, begin: nat, end: nat, records: seq<RawFrame>)
    requires Stored(file, begin, end, records)
    ensures begin <= |file| && AllWellFormed(records)
  {
  }

  lemma Whole(file: seq<Byte>, begin: nat, end: nat, records: seq<RawFrame>, k: nat)
    requires Stored(file, begin, end, records) && k <= |records|
    ensures FrameAt(begin, records, 0) == begin && (FrameAt(begin, records, k) < end <==> k < |records|)
  {
    if k < |records| {
      FrameThere(file, begin, end, records, k);
    } else {
      assert records[..k] == records;
    }
  }

  // ---------------------------------------------------------------- the reader

  lemma PrefixesEqual(s: seq<Byte>, a: nat, b: nat, t: seq<Byte>, c: nat, d: nat, n: nat)
    requires a <= b <= |s| && c <= d <= |t| && s[a..b] == t[c..d] && n <= b - a
    ensures s[a..a + n] == t[c..c + n]
  {
    assert s[a..a + n] == s[a..b][..n];
    assert t[c..c + n] == t[c..d][..n];
  }

  lemma Join(s: seq<Byte>, t: seq<Byte>, start: nat, m: nat, n: nat)
    requires m + n <= |s| && start + m + n <= |t|
    requires s[..m] == t[start..start + m] && s[m..m + n] == t[start + m..start + m + n]
    ensures s[..m + n] == t[start..start + (m + n)]
  {
    assert s[..m + n] == s[..m] + s[m..m + n];
    assert t[start..start + (m + n)] == t[start..start + m] + t[start + m..start + m + n];
  }

  /** Of the bytes wanted at some place of a buffer the first n are there, and the rest of it is as before. */
  ghost predicate Holds(was: seq<Byte>, buf: seq<Byte>, at: nat, n: nat, count: nat, wanted: seq<Byte>) {
    && |was| == |buf| && n <= count == |wanted| && at + count <= |buf|
    && buf[..at] == was[..at] && buf[at + count..] == was[at + count..] && buf[at..at + n] == wanted[..n]
  }

  lemma NothingYet(buf: seq<Byte>, at: nat, count: nat, wanted: seq<Byte>)
    requires |wanted| == count && at + count <= |buf|
    ensures Holds(buf, buf, at, 0, count, wanted)
  {
  }

  lemma AllThere(was: seq<Byte>, buf: seq<Byte>, at: nat, count: nat, wanted: seq<Byte>)
    requires Holds(was, buf, at, count, count, wanted)
    ensures |was| == |buf| && at + count <= |buf| && buf[..at] == was[..at] && buf[at + count..] == was[at + count..]
    ensures buf[at..at + count] == wanted
  {
  }

  lemma Extend(was: seq<Byte>, before: seq<Byte>, buf: seq<Byte>, at: nat, n: nat, more: nat, count: nat, wanted: seq<Byte>)
    requires Holds(was, before, at, n, count, wanted) && n + more <= count
    requires |buf| == |before| && buf[..at + n] == before[..at + n] && buf[at + n + more..] == before[at + n + more..]
    requires buf[at + n..at + n + more] == wanted[n..n + more]
    ensures Holds(was, buf, at, n + more, count, wanted)
  {
    assert buf[..at] == buf[..at + n][..at] && before[..at] == before[..at + n][..at];
    assert buf[at..at + n] == buf[..at + n][at..] && before[at..at + n] == before[..at + n][at..];
    assert buf[at + count..] == buf[at + n + more..][count - n - more..];
    assert before[at + count..] == before[at + n + more..][count - n - more..];
    assert buf[at..at + n + more] == buf[at..at + n] + buf[at + n..at + n + more];
    assert wanted[..n + more] == wanted[..n] + wanted[n..n + more];
  }

  /** Where the frame loop stands: the open buffer, if any, and the time base of its first frame. */
  ghost predicate Standing(done: seq<RawFrame>, sink: seq<Batch>, outBuffer: EventBuffer?<RawHit>, first: nat, last: nat,
                           ordered: bool)
    reads outBuffer, if outBuffer == null then {} else {outBuffer.buffer}
  {
    && GoodBatches(sink, ordered)
    && if outBuffer == null then sink == [] && Delivered(done, sink, [], 0)
       else
         && outBuffer.Valid() && Open(outBuffer.Contents(), first, last, ordered)
         && outBuffer.tMin == first * 1024 && outBuffer.tMax == (last + 1) * 1024
         && Delivered(done, sink, outBuffer.Contents(), outBuffer.tMin)
  }

  lemma NothingStanding(ordered: bool)
    ensures Standing([], [], null, 0, 0, ordered)
  {
    NothingDelivered();
  }

  class Reader {
    const dataFile: seq<Byte>
    var filePosition: nat
    const dataFileBuffer: array<Byte>
    var bufferPtr: nat
    var bufferEnd: nat

    ghost predicate Valid()
      reads this, dataFileBuffer
    {
      && dataFileBuffer.Length == BUFFER_SIZE && bufferPtr <= bufferEnd <= BUFFER_SIZE
      && bufferEnd - bufferPtr <= filePosition <= |dataFile|
      && dataFileBuffer[bufferPtr..bufferEnd] == dataFile[Position()..filePosition]
    }

    /** The place in the file that the caller has read up to. */
    ghost function Position(): int
      reads this
    {
      filePosition - (bufferEnd - bufferPtr)
    }

    constructor (dataFile: seq<Byte>)
      ensures Valid() && this.dataFile == dataFile && fresh(dataFileBuffer)
    {
      this.dataFile := dataFile;
      filePosition, bufferPtr, bufferEnd := 0, 0, 0;
      dataFileBuffer := new Byte[BUFFER_SIZE];
    }

    /** A system call that may return fewer bytes than asked for, but at least one before the end. */
    method Fill()
      requires Valid() && bufferPtr == bufferEnd && filePosition < |dataFile|
      modifies this`filePosition, this`bufferPtr, this`bufferEnd, dataFileBuffer
      ensures Valid() && Position() == old(Position()) && bufferPtr < bufferEnd
    {
      var r: nat :| 1 <= r <= BUFFER_SIZE && r <= |dataFile| - filePosition;
      for i := 0 to r
        invariant filePosition == old(filePosition)
        invariant dataFileBuffer[..i] == dataFile[filePosition..filePosition + i]
      {
        dataFileBuffer[i] := dataFile[filePosition + i];
      }
      bufferPtr, bufferEnd := 0, r;
      filePosition := filePosition + r;
    }

    /** Delivers exactly count bytes, however short the reads are. */
    method ReadFromDataFile(buf: array<Byte>, at: nat, count: nat) returns (rval: nat)
      requires Valid() && buf != dataFileBuffer && at + count <= buf.Length && Position() + count <= |dataFile|
      modifies this`filePosition, this`bufferPtr, this`bufferEnd, dataFileBuffer, buf
      ensures Valid() && rval == count && Position() == old(Position()) + count
      ensures buf[..at] == old(buf[..at]) && buf[at + count..] == old(buf[at + count..])
      ensures buf[at..at + count] == dataFile[old(Position())..old(Position()) + count]
    {
      rval := 0;
      ghost var start: nat, was := Position(), buf[..];
      hide Holds, Valid;
      NothingYet(was, at, count, dataFile[start..start + count]);
      while rval < count
        invariant Valid() && rval <= count && Position() == start + rval
        invariant Holds(was, buf[..], at, rval, count, dataFile[start..start + count])
      {
        ghost var before := buf[..];
        var count2 := ReadSome(buf, at + rval, count - rval);
        SliceOfSlice(dataFile, start, count, rval, count2);
        Extend(was, before, buf[..], at, rval, count2, count, dataFile[start..start + count]);
        rval := rval + count2;
      }
      AllThere(was, buf[..], at, count, dataFile[start..start + count]);
    }

    /** One turn of the loop: what the buffer has, refilled when it is empty. */
    method ReadSome(buf: array<Byte>, at: nat, countRemaining: nat) returns (count2: nat)
      requires Valid() && buf != dataFileBuffer && countRemaining > 0
      requires at + countRemaining <= buf.Length && Position() + countRemaining <= |dataFile|
      modifies this`filePosition, this`bufferPtr, this`bufferEnd, dataFileBuffer, buf
      ensures Valid() && 1 <= count2 <= countRemaining && Position() == old(Position()) + count2
      ensures buf[..at] == old(buf[..at]) && buf[at + count2..] == old(buf[at + count2..])
      ensures buf[at..at + count2] == dataFile[old(Position())..old(Position()) + count2]
    {
      if bufferPtr == bufferEnd {
        Fill();
      }
      var bufferRemaining := bufferEnd - bufferPtr;
      count2 := if countRemaining < bufferRemaining then countRemaining else bufferRemaining;
      CopyOut(buf, at, count2);
    }

    method CopyOut(buf: array<Byte>, at: nat, count: nat)
      requires Valid() && buf != dataFileBuffer && at + count <= buf.Length && count <= bufferEnd - bufferPtr
      modifies this`bufferPtr, buf
      ensures Valid() && Position() == old(Position()) + count
      ensures buf[..at] == old(buf[..at]) && buf[at + count..] == old(buf[at + count..])
      ensures buf[at..at + count] == dataFile[old(Position())..old(Position()) + count]
    {
      ghost var from := Position();
      PrefixesEqual(dataFileBuffer[..], bufferPtr, bufferEnd, dataFile, from, filePosition, count);
      for i := 0 to count
        invariant buf[..at] == old(buf[..at]) && buf[at + count..] == old(buf[at + count..])
        invariant dataFileBuffer[..] == old(dataFileBuffer[..]) && bufferPtr == old(bufferPtr)
        invariant buf[at..at + i] == dataFileBuffer[bufferPtr..bufferPtr + i]
      {
        buf[at + i] := dataFileBuffer[bufferPtr + i];
      }
      bufferPtr := bufferPtr + count;
    }

    /** Reads a frame: first its header, then as many words as the header says, if the assertion holds. */
    method ReadFrame(data: array<Byte>, ghost size: nat) returns (ok: bool, frame: seq<Word>)
      requires Valid() && data != dataFileBuffer && data.Length == 8 * MAX_FRAME_SIZE
      requires 2 <= size && Position() + 8 * size <= |dataFile|
      requires FrameSize(Words(dataFile[Position()..Position() + 16])) == size
      modifies this`filePosition, this`bufferPtr, this`bufferEnd, dataFileBuffer, data
      ensures ok <==> size < MAX_FRAME_SIZE
      ensures ok ==> Valid() && |frame| == size && Position() == old(Position()) + 8 * size
      ensures ok ==> frame == Words(dataFile[old(Position())..old(Position()) + 8 * size])
    {
      ghost var start: nat := Position();
      hide Valid, Words, WordAt, FrameSize;
      var N := ReadHeader(data, start);
      assert N + 2 == size;
      if N != 0 && N + 2 >= MAX_FRAME_SIZE { return false, []; }
      frame := FrameBehind(data, N, start);
      ok := true;
    }

    /** What follows the header, and all of the frame. */
    method FrameBehind(data: array<Byte>, N: nat, ghost start: nat) returns (frame: seq<Word>)
      requires Valid() && data != dataFileBuffer && data.Length == 8 * MAX_FRAME_SIZE && N + 2 < MAX_FRAME_SIZE
      requires Position() == start + 16 && start + 8 * (N + 2) <= |dataFile|
      requires data[..16] == dataFile[start..start + 16]
      modifies this`filePosition, this`bufferPtr, this`bufferEnd, dataFileBuffer, data
      ensures Valid() && Position() == start + 8 * (N + 2)
      ensures |frame| == N + 2 && frame == Words(dataFile[start..start + 8 * (N + 2)])
    {
      hide Valid, WordAt;
      var words := N + 2;
      if N != 0 {
        ReadPayload(data, N, words, start);
      }
      frame := Words(data[..8 * words]);
    }

    method ReadPayload(data: array<Byte>, N: nat, ghost words: nat, ghost start: nat)
      requires Valid() && data != dataFileBuffer && data.Length == 8 * MAX_FRAME_SIZE && words == N + 2 < MAX_FRAME_SIZE
      requires Position() == start + 16 && start + 8 * words <= |dataFile|
      requires data[..16] == dataFile[start..start + 16]
      modifies this`filePosition, this`bufferPtr, this`bufferEnd, dataFileBuffer, data
      ensures Valid() && Position() == start + 8 * words
      ensures data[..8 * words] == dataFile[start..start + 8 * words]
    {
      hide Valid;
      var r := ReadFromDataFile(data, 16, 8 * N);
      Join(data[..], dataFile, start, 16, 8 * N);
    }

    /** Reads the header and returns how many words follow it. */
    method ReadHeader(data: array<Byte>, ghost start: nat) returns (N: int)
      requires Valid() && data != dataFileBuffer && data.Length == 8 * MAX_FRAME_SIZE
      requires start == Position() && start + 16 <= |dataFile|
      modifies this`filePosition, this`bufferPtr, this`bufferEnd, dataFileBuffer, data
      ensures Valid() && Position() == start + 16
      ensures data[..16] == dataFile[start..start + 16]
      ensures N == FrameSize(Words(dataFile[start..start + 16])) - 2
    {
      hide Words, WordAt, FrameSize;
      var r := ReadFromDataFile(data, 0, 16);
      assert data[..16] == data[0..16];
      N := FrameSize(Words(data[..16])) - 2;
    }

    /** The event loop of a frame. */
    method FillEvents(outBuffer: EventBuffer<RawHit>, frame: RawFrame, base: int)
      requires outBuffer.Valid() && WellFormed(frame)
      modifies outBuffer, outBuffer.buffer
      ensures outBuffer.Valid() && outBuffer.Contents() == old(outBuffer.Contents()) + FrameHits(frame, base)
      ensures outBuffer.tMin == old(outBuffer.tMin)
      ensures outBuffer.buffer == old(outBuffer.buffer) || fresh(outBuffer.buffer)
    {
      ghost var hits := FrameHits(frame, base);
      hide FrameHits, HitOf, FrameEvent, FrameID, NEvents;
      for i := 0 to NEvents(frame)
        invariant outBuffer.Valid() && outBuffer.Contents() == old(outBuffer.Contents()) + hits[..i]
        invariant outBuffer.tMin == old(outBuffer.tMin)
        invariant outBuffer.buffer == old(outBuffer.buffer) || fresh(outBuffer.buffer)
      {
        NextHit(frame, base, i);
        outBuffer.Push(HitOf(FrameEvent(frame, i), FrameID(frame), base));
      }
      assert hits[..|hits|] == hits;
    }

    /** Opens a buffer for a frame, or goes on with the open one if the frame fits. */
    method BufferFor(frame: RawFrame, outBuffer: EventBuffer?<RawHit>, first: nat, sink: seq<Batch>,
                     ghost done: seq<RawFrame>, ghost last: nat, ghost ordered: bool)
      returns (outBuffer': EventBuffer<RawHit>, first': nat, sink': seq<Batch>)
      requires WellFormed(frame) && 2 < |frame| < MAX_FRAME_SIZE && Standing(done, sink, outBuffer, first, last, ordered)
      requires ordered && outBuffer != null ==> last <= FrameID(frame)
      ensures outBuffer'.Valid()
      ensures outBuffer' == outBuffer || (fresh(outBuffer') && fresh(outBuffer'.buffer))
      ensures GoodBatches(sink', ordered)
      ensures Delivered(done, sink', outBuffer'.Contents(), outBuffer'.tMin) && outBuffer'.tMin == first' * 1024
      ensures FrameID(frame) <= first' + MAX_SPAN && (ordered ==> first' <= FrameID(frame))
      ensures |outBuffer'.Contents()| + NEvents(frame) <= OUT_BLOCK_SIZE
      ensures outBuffer'.Contents() == []
              || (ordered ==> InOrder(outBuffer'.Contents(), first', last) && last <= FrameID(frame))
    {
      hide Delivered, FrameID, NEvents, GoodBatches;
      var N := |frame| - 2;
      var frameID := FrameID(frame);
      first', sink' := first, sink;
      if outBuffer == null {
        first' := frameID;
        outBuffer' := new EventBuffer<RawHit>(OUT_BLOCK_SIZE, first' * 1024);
        AnyBase(done, sink, first' * 1024);
      } else if outBuffer.used + N > OUT_BLOCK_SIZE || frameID - first > MAX_SPAN {
        OpenIsGood(sink, outBuffer.Contents(), first, last, ordered);
        DeliveredPush(done, sink, outBuffer.Contents(), outBuffer.tMin, outBuffer.tMax, frameID * 1024);
        sink' := sink + [Batch(outBuffer.tMin, outBuffer.tMax, outBuffer.Contents())];
        first' := frameID;
        outBuffer' := new EventBuffer<RawHit>(OUT_BLOCK_SIZE, first' * 1024);
      } else {
        outBuffer' := outBuffer;
      }
    }

    /** What one frame with events does. */
    method TakeFrame(frame: RawFrame, outBuffer: EventBuffer?<RawHit>, first: nat, sink: seq<Batch>,
                     ghost done: seq<RawFrame>, ghost last: nat, ghost ordered: bool)
      returns (outBuffer': EventBuffer<RawHit>, first': nat, sink': seq<Batch>)
      requires WellFormed(frame) && 2 < |frame| < MAX_FRAME_SIZE && Standing(done, sink, outBuffer, first, last, ordered)
      requires ordered && outBuffer != null ==> last <= FrameID(frame)
      modifies outBuffer, if outBuffer == null then {} else {outBuffer.buffer}
      ensures Standing(done + [frame], sink', outBuffer', first', FrameID(frame), ordered)
      ensures outBuffer' == outBuffer || fresh(outBuffer')
      ensures fresh(outBuffer'.buffer) || (outBuffer' == outBuffer && outBuffer'.buffer == old(outBuffer.buffer))
    {
      hide Delivered, FrameID, NEvents, GoodBatches, Open, InOrder;
      outBuffer', first', sink' := BufferFor(frame, outBuffer, first, sink, done, last, ordered);
      DeliveredFrame(done, frame, sink', outBuffer'.Contents(), outBuffer'.tMin);
      assert NEvents(frame) > 0;
      OpenMore(outBuffer'.Contents(), first', last, frame, ordered);
      FillEvents(outBuffer', frame, first' * 1024);
      outBuffer'.tMax := (FrameID(frame) + 1) * 1024;
    }

    /** What any frame does; one without events, nothing. */
    method PassFrame(frame: RawFrame, outBuffer: EventBuffer?<RawHit>, first: nat, sink: seq<Batch>,
                     ghost done: seq<RawFrame>, ghost last: nat, ghost ordered: bool)
      returns (outBuffer': EventBuffer?<RawHit>, first': nat, sink': seq<Batch>, ghost last': nat)
      requires WellFormed(frame) && |frame| < MAX_FRAME_SIZE && Standing(done, sink, outBuffer, first, last, ordered)
      requires ordered && outBuffer != null ==> last <= FrameID(frame)
      modifies outBuffer, if outBuffer == null then {} else {outBuffer.buffer}
      ensures Standing(done + [frame], sink', outBuffer', first', last', ordered)
      ensures outBuffer' == null || outBuffer' == outBuffer || fresh(outBuffer')
      ensures outBuffer' != null ==>
                (ordered ==> last' <= FrameID(frame))
                && (fresh(outBuffer'.buffer) || (outBuffer' == outBuffer && outBuffer'.buffer == old(outBuffer.buffer)))
    {
      hide Delivered, FrameID, NEvents, GoodBatches, Open;
      if |frame| == 2 {
        outBuffer', first', sink', last' := outBuffer, first, sink, last;
        if outBuffer == null {
          DeliveredNothing(done, frame, sink, [], 0);
        } else {
          DeliveredNothing(done, frame, sink, outBuffer.Contents(), outBuffer.tMin);
        }
      } else {
        outBuffer', first', sink' := TakeFrame(frame, outBuffer, first, sink, done, last, ordered);
        last' := FrameID(frame);
      }
    }

    /** Pushes the last buffer. */
    method Flush(outBuffer: EventBuffer?<RawHit>, first: nat, sink: seq<Batch>, ghost done: seq<RawFrame>, ghost last: nat,
                 ghost ordered: bool)
      returns (sink': seq<Batch>)
      requires Standing(done, sink, outBuffer, first, last, ordered)
      ensures AllWellFormed(done) && SinkHits(sink') == FileHits(done, 0)
      ensures GoodBatches(sink', ordered)
    {
      hide Delivered, GoodBatches, Open;
      sink' := sink;
      if outBuffer != null {
        OpenIsGood(sink, outBuffer.Contents(), first, last, ordered);
        DeliveredPush(done, sink, outBuffer.Contents(), outBuffer.tMin, outBuffer.tMax, 0);
        sink' := sink + [Batch(outBuffer.tMin, outBuffer.tMax, outBuffer.Contents())];
      }
      DeliveredAll(done, sink');
    }

    /** The reader fails exactly if some frame has 2048 words or more. Otherwise, whatever the frame IDs are, the
        sink gets all events of the step in file order, in buffers within their limits, and for IDs that never
        decrease the times of a buffer lie between its limits. Frames without events are passed over. */
    method ProcessStep(stepBegin: nat, stepEnd: nat, ghost records: seq<RawFrame>) returns (ok: bool, sink: seq<Batch>)
      requires dataFileBuffer.Length == BUFFER_SIZE && Stored(dataFile, stepBegin, stepEnd, records)
      modifies this`filePosition, this`bufferPtr, this`bufferEnd, dataFileBuffer
      ensures ok <==> AllShort(records)
      ensures ok ==> SinkHits(sink) == FileHits(records, 0) && GoodBatches(sink, NonDecreasing(records))
      ensures ok ==> EventsOut(records, sink)
    {
      hide FrameAt, Delivered, FrameID, NEvents, GoodBatches, Open, Words, FrameSize, Flatten, Standing, Valid, Stored,
           NonDecreasing, EventsOut;
      StoredInFile(dataFile, stepBegin, stepEnd, records);
      sink := [];
      var data := new Byte[8 * MAX_FRAME_SIZE];
      var outBuffer: EventBuffer?<RawHit> := null;
      var currentBufferFirstFrame := 0;
      Seek(stepBegin);
      var currentPosition := stepBegin;
      ghost var k: nat, last: nat, ordered := 0, 0, NonDecreasing(records);
      Whole(dataFile, stepBegin, stepEnd, records, 0);
      NothingStanding(ordered);
      assert records[..0] == [];
      while currentPosition < stepEnd
        invariant k <= |records| && AllShort(records[..k])
        invariant Valid() && currentPosition == Position() == FrameAt(stepBegin, records, k)
        invariant currentPosition < stepEnd <==> k < |records|
        invariant outBuffer != null ==> fresh(outBuffer) && fresh(outBuffer.buffer)
        invariant ordered && outBuffer != null ==> k > 0 && last <= FrameID(records[k - 1])
        invariant Standing(records[..k], sink, outBuffer, currentBufferFirstFrame, last, ordered)
        decreases |records| - k
      {
        FrameThere(dataFile, stepBegin, stepEnd, records, k);
        if ordered && k > 0 {
          NotBefore(records, k);
        }
        var frame;
        ok, frame := ReadFrame(data, |records[k]|);
        if !ok {
          assert !IsShort(records[k]);
          return;
        }
        currentPosition := currentPosition + 8 * |frame|;
        assert records[..k + 1] == records[..k] + [frame];
        outBuffer, currentBufferFirstFrame, sink, last :=
          PassFrame(frame, outBuffer, currentBufferFirstFrame, sink, records[..k], last, ordered);
        k := k + 1;
        Whole(dataFile, stepBegin, stepEnd, records, k);
      }
      assert records[..k] == records;
      sink := Flush(outBuffer, currentBufferFirstFrame, sink, records, last, ordered);
      AllEventsOut(records, sink);
      ok := true;
    }

    method Seek(offset: nat)
      requires dataFileBuffer.Length == BUFFER_SIZE && offset <= |dataFile|
      modifies this`filePosition, this`bufferPtr, this`bufferEnd
      ensures Valid() && Position() == offset
    {
      filePosition, bufferPtr, bufferEnd := offset, 0, 0;
    }
  }
}
