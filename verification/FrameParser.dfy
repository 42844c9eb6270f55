/** The word-stream parser in DAQFrameServer::doWork: it finds length-delimited frames between header and
    trailer words, stores them in the ring, and after an error skips to the next idle word
    (src/daqd/DAQFrameServer.cpp:163-276, src/daqd/FrameServer.cpp:185-200). The stream is what DP->getWords
    delivers; where it ends, the worker waits for more. */
module FrameParser {
  import opened Options
  import opened Arithmetic
  import opened ByteWords
  import opened WrapRing
  import opened SharedMemory

  const IDLE: Word := 0xFFFF_FFFF_FFFF_FFFF
  const HEADER: Word := 0xFFFF_FFFF_FFFF_FFF5
  const TRAILER: Word := 0xFFFF_FFFF_FFFF_FFFA

  function FrameSize(w0: Word): nat { w0 / 0x10_0000_0000 % 0x8000 }

  function NEvents(w1: Word): nat { w1 % 0x1_0000 }

  predicate FrameLost(w1: Word) { w1 / 0x1_0000 % 2 == 1 }

  /** Of the frames that lost all their events only one in 128 is kept. */
  predicate Dropped(w1: Word, frameCount: nat) { NEvents(w1) == 0 && FrameLost(w1) && frameCount % 128 != 0 }

  /** parseDataFrame: the size in the header agrees with the number of event words. */
  predicate Consistent(frame: seq<Word>)
    requires |frame| >= 2
  {
    FrameSize(frame[0]) == 2 + NEvents(frame[1])
  }

  /** How many words getWords(data + 2, frameSize - 2) delivers: none if the count is negative. */
  function Payload(w0: Word): nat { if FrameSize(w0) > 2 then FrameSize(w0) - 2 else 0 }

  /** Whether frame number f finds a slot when index slots have been published before. */
  type Room = (nat, nat) -> bool

  /** A frame as far as the stream goes: its words, the number of the slot they were stored in, if it was not
      devNull, and whether it was published. */
  datatype FrameRead = FrameRead(slot: Option<nat>, words: seq<Word>, published: bool)

  /** The frames met in a stream. bad says that the last frame was bad. */
  function Reads(ws: seq<Word>, bad: bool, frameCount: nat, index: nat, room: Room): seq<FrameRead>
    decreases |ws|
  {
    if ws == [] then []
    else if bad then Reads(ws[1..], ws[0] != IDLE, frameCount, index, room)
    else if ws[0] == IDLE then Reads(ws[1..], false, frameCount, index, room)
    else if ws[0] != HEADER then Reads(ws[1..], true, frameCount, index, room)
    else if |ws| < 3 then []
    else if FrameSize(ws[1]) > QUEUE_SIZE then Reads(ws[3..], true, frameCount, index, room)
    else
      var slot := Slot(ws[2], frameCount, index, room);
      if |ws| < 4 + Payload(ws[1]) then [FrameRead(slot, ws[1..AtMost(|ws|, 3 + Payload(ws[1]))], false)]
      else
        var frame, trailer, rest := ws[1..3 + Payload(ws[1])], ws[3 + Payload(ws[1])], ws[4 + Payload(ws[1])..];
        if trailer != TRAILER then [FrameRead(slot, frame, false)] + Reads(rest, true, frameCount + 1, index, room)
        else
          var published := Consistent(frame) && slot.Some?;
          [FrameRead(slot, frame, published)]
          + Reads(rest, false, frameCount + 1, if published then index + 1 else index, room)
  }

  function AtMost(m: nat, n: nat): nat { if m < n then m else n }

  function Slot(w1: Word, frameCount: nat, index: nat, room: Room): Option<nat> {
    if !Dropped(w1, frameCount) && room(frameCount, index) then Some(index) else None
  }

  function Published(rs: seq<FrameRead>): seq<seq<Word>> {
    if rs == [] then []
    else (if rs[0].published then [rs[0].words] else []) + Published(rs[1..])
  }

  lemma PublishedCons(r: FrameRead, rs: seq<FrameRead>)
    ensures Published([r] + rs) == (if r.published then [r.words] else []) + Published(rs)
  {
    assert ([r] + rs)[1..] == rs;
  }

  // ---------------------------------------------------------------- memory

  /** Words stored from an address on, wherever that leads. */
  function Poke(mem: map<nat, Word>, at: nat, ws: seq<Word>): map<nat, Word> {
    if ws == [] then mem
    else var k := |ws| - 1; Poke(mem, at, ws[..k])[at + k := ws[k]]
  }

  function Address(slot: nat, n: nat): nat
    requires n > 0
  {
    Index(slot, n) * MAX_FRAME_SIZE
  }

  /** The ring's memory after some frames; what goes to devNull is elsewhere. */
  function Memory(mem: map<nat, Word>, rs: seq<FrameRead>, n: nat): map<nat, Word>
    requires n > 0
    decreases |rs|
  {
    if rs == [] then mem
    else
      var r := rs[0];
      Memory(if r.slot.Some? then Poke(mem, Address(r.slot.value, n), r.words) else mem, rs[1..], n)
  }

  lemma MemoryCons(mem: map<nat, Word>, r: FrameRead, rs: seq<FrameRead>, n: nat)
    requires n > 0
    ensures Memory(mem, [r] + rs, n)
         == Memory(if r.slot.Some? then Poke(mem, Address(r.slot.value, n), r.words) else mem, rs, n)
  {
    assert ([r] + rs)[1..] == rs;
  }

  // ---------------------------------------------------------------- the worker

  /** There is room as long as acquisition is on and fewer than n frames are waiting; progress says how far
      the consumer has read by the time a frame is met. */
  function RoomIn(n: nat, mode: nat -> bool, progress: nat -> nat): Room {
    (frame: nat, index: nat) => mode(frame) && index < progress(frame) + n
  }

  class DAQFrameServer {
    const n: nat
    var dataFrameSharedMemory: map<nat, Word>
    var dataFrameWritePointer: nat
    var index: nat // the number of slots published since the pointers were wiped

    ghost predicate Valid()
      reads this
    {
      n > 0 && dataFrameWritePointer == Wrapped(index, n)
    }

    constructor (n: nat)
      requires n > 0
      ensures Valid() && this.n == n && index == 0 && dataFrameSharedMemory == map[]
    {
      this.n := n;
      dataFrameSharedMemory, dataFrameWritePointer, index := map[], 0, 0;
      DivUnique(0, 2 * n, 0, 0);
    }

    /** getWords, word by word. */
    method Store(at: nat, ws: seq<Word>)
      modifies this`dataFrameSharedMemory
      ensures dataFrameSharedMemory == Poke(old(dataFrameSharedMemory), at, ws)
    {
      for i := 0 to |ws|
        invariant dataFrameSharedMemory == Poke(old(dataFrameSharedMemory), at, ws[..i])
      {
        assert ws[..i + 1][..i] == ws[..i];
        dataFrameSharedMemory := dataFrameSharedMemory[at + i := ws[i]];
      }
      assert ws[..|ws|] == ws;
    }

    /** The address of a free slot, if there is one and the frame is to be kept. */
    method ClaimSlot(w1: Word, frameCount: nat, mode: nat -> bool, progress: nat -> nat) returns (at: Option<nat>)
      requires Valid() && index <= progress(frameCount) + n
      ensures var slot := Slot(w1, frameCount, index, RoomIn(n, mode, progress));
        at == if slot.Some? then Some(Address(slot.value, n)) else None
      ensures at.Some? ==> index < progress(frameCount) + n
    {
      hide Wrapped, Index, Occupancy, IsFull, NEvents, FrameLost;
      var dropLostFrame := NEvents(w1) == 0 && FrameLost(w1) && frameCount % 128 != 0;
      at := None;
      if mode(frameCount) && !dropLostFrame {
        var freed := AtMost(progress(frameCount), index);
        var dataFrameReadPointer := Wrapped(freed, n);
        PointersSuffice(index, freed, n);
        ModHalf(index, n);
        if !IsFull(dataFrameWritePointer, dataFrameReadPointer, n) {
          at := Some(Index(dataFrameWritePointer, n) * MAX_FRAME_SIZE);
        }
      }
    }

    /** doWork from behind a header word on: the frame, as far as the stream holds it. */
    method ReadFrame(words: seq<Word>, start: nat, frameCount: nat, mode: nat -> bool, progress: nat -> nat)
      returns (waits: bool, pos: nat, bad: bool, count: nat, ghost rs: seq<FrameRead>)
      requires Valid() && index <= progress(frameCount) + n && progress(frameCount) <= progress(frameCount + 1)
      requires 0 < start <= |words| && words[start - 1] == HEADER
      modifies this
      ensures Valid() && dataFrameSharedMemory == Memory(old(dataFrameSharedMemory), rs, n)
      ensures index == old(index) + |Published(rs)| && index <= progress(count) + n
      ensures var all := Reads(words[start - 1..], false, frameCount, old(index), RoomIn(n, mode, progress));
        if waits then all == rs
        else start < pos <= |words| && frameCount <= count <= frameCount + 1
             && all == rs + Reads(words[pos..], bad, count, index, RoomIn(n, mode, progress))
    {
      hide FrameSize, NEvents, FrameLost, Consistent, Wrapped, Index, Poke, Reads, Slot, RoomIn;
      ghost var room := RoomIn(n, mode, progress);
      ReadsFrame(words, start, frameCount, index, room);
      MemoryNone(dataFrameSharedMemory, n);
      waits, pos, bad, count, rs := true, start, false, frameCount, [];
      if pos + 2 > |words| { return; }
      var w0, w1 := words[pos], words[pos + 1];
      pos := pos + 2;
      if FrameSize(w0) > QUEUE_SIZE {
        waits, bad := false, true;
        assert rs + Reads(words[pos..], true, frameCount, index, room) == Reads(words[pos..], true, frameCount, index, room);
        return;
      }
      ghost var slot := Slot(w1, frameCount, index, room);
      var at := ClaimSlot(w1, frameCount, mode, progress);
      count := frameCount + 1;
      var length := if FrameSize(w0) > 2 then FrameSize(w0) - 2 else 0;
      var got := AtMost(length, |words| - pos);
      var dataFrame := [w0, w1] + words[pos..pos + got];
      assert dataFrame == words[start..pos + got];
      if at.Some? {
        Store(at.value, dataFrame);
      }
      MemoryOne(old(dataFrameSharedMemory), FrameRead(slot, dataFrame, false), n);
      MemoryOne(old(dataFrameSharedMemory), FrameRead(slot, dataFrame, true), n);
      pos := pos + got;
      rs := [FrameRead(slot, dataFrame, false)];
      if pos == |words| {
        assert dataFrame == words[start..];
        return;
      }
      var trailerWord := words[pos];
      pos := pos + 1;
      waits := false;
      if trailerWord != TRAILER {
        bad := true;
      } else if Consistent(dataFrame) && at.Some? {
        rs := [FrameRead(slot, dataFrame, true)];
        Publish();
      }
    }

    method Publish()
      requires Valid()
      modifies this`dataFrameWritePointer, this`index
      ensures Valid() && index == old(index) + 1
    {
      Advance(index, n);
      dataFrameWritePointer := Wrapped(dataFrameWritePointer + 1, n);
      index := index + 1;
    }

    /** doWork. words is all that the card will ever deliver, mode(f) says whether acquisition is on when
        frame number f is met, and progress(f) how many slots the consumer has given back by then. */
    method DoWork(words: seq<Word>, mode: nat -> bool, progress: nat -> nat) returns (ghost rs: seq<FrameRead>)
      requires Valid() && index <= progress(0) + n && forall f: nat :: progress(f) <= progress(f + 1)
      modifies this
      ensures Valid() && rs == Reads(words, true, 0, old(index), RoomIn(n, mode, progress))
      ensures dataFrameSharedMemory == Memory(old(dataFrameSharedMemory), rs, n)
      ensures index == old(index) + |Published(rs)|
    {
      hide Reads, Memory, Published, RoomIn;
      ghost var room, from := RoomIn(n, mode, progress), index;
      rs := [];
      MemoryNone(dataFrameSharedMemory, n);
      var pos, frameCount, lastFrameWasBad := 0, 0, true;
      assert words[0..] == words;
      while true
        invariant pos <= |words| && Valid() && index <= progress(frameCount) + n
        invariant dataFrameSharedMemory == Memory(old(dataFrameSharedMemory), rs, n)
        invariant index == from + |Published(rs)|
        invariant rs + Reads(words[pos..], lastFrameWasBad, frameCount, index, room) == Reads(words, true, 0, from, room)
        decreases |words| - pos, lastFrameWasBad
      {
        ReadsWord(words, pos, frameCount, index, room);
        if pos == |words| { return; }
        if lastFrameWasBad {
          pos := pos + 1;
          if words[pos - 1] != IDLE { continue; }
          lastFrameWasBad := false;
          ReadsWord(words, pos, frameCount, index, room);
          if pos == |words| { return; }
        }
        var headerWord := words[pos];
        pos := pos + 1;
        if headerWord == IDLE { continue; }
        if headerWord != HEADER { lastFrameWasBad := true; continue; }
        ghost var more;
        var waits, next, bad, count;
        waits, next, bad, count, more := ReadFrame(words, pos, frameCount, mode, progress);
        MemoryConcat(old(dataFrameSharedMemory), rs, more, n);
        PublishedConcat(rs, more);
        rs := rs + more;
        if waits { return; }
        pos, lastFrameWasBad, frameCount := next, bad, count;
      }
    }
  }

  lemma MemoryNone(mem: map<nat, Word>, n: nat)
    requires n > 0
    ensures Memory(mem, [], n) == mem && Published([]) == []
  {
  }

  lemma MemoryOne(mem: map<nat, Word>, r: FrameRead, n: nat)
    requires n > 0
    ensures Memory(mem, [r], n) == if r.slot.Some? then Poke(mem, Address(r.slot.value, n), r.words) else mem
    ensures |Published([r])| == if r.published then 1 else 0
  {
    assert [r][1..] == [];
  }

  lemma {:induction false} MemoryConcat(mem: map<nat, Word>, a: seq<FrameRead>, b: seq<FrameRead>, n: nat)
    requires n > 0
    ensures Memory(mem, a + b, n) == Memory(Memory(mem, a, n), b, n)
    decreases |a|
  {
    if a == [] {
      assert a + b == b;
    } else {
      assert a == [a[0]] + a[1..] && a + b == [a[0]] + (a[1..] + b);
      var mem' := if a[0].slot.Some? then Poke(mem, Address(a[0].slot.value, n), a[0].words) else mem;
      MemoryConcat(mem', a[1..], b, n);
      hide Poke, Address;
    }
  }

  lemma {:induction false} PublishedConcat(a: seq<FrameRead>, b: seq<FrameRead>)
    ensures Published(a + b) == Published(a) + Published(b)
  {
    if a == [] {
      assert a + b == b;
    } else {
      assert (a + b)[1..] == a[1..] + b;
      PublishedConcat(a[1..], b);
    }
  }

  /** Reads, one word at a time. */
  lemma ReadsWord(words: seq<Word>, pos: nat, frameCount: nat, index: nat, room: Room)
    requires pos <= |words|
    ensures pos == |words| ==> forall bad :: Reads(words[pos..], bad, frameCount, index, room) == []
    ensures pos < |words| ==>
              Reads(words[pos..], true, frameCount, index, room)
              == Reads(words[pos + 1..], words[pos] != IDLE, frameCount, index, room)
    ensures pos < |words| && words[pos] != HEADER ==>
              Reads(words[pos..], false, frameCount, index, room)
              == Reads(words[pos + 1..], words[pos] != IDLE, frameCount, index, room)
  {
    if pos < |words| {
      assert words[pos..][1..] == words[pos + 1..];
    }
  }

  /** Reads, behind a header word. */
  lemma ReadsFrame(words: seq<Word>, start: nat, frameCount: nat, index: nat, room: Room)
    requires 0 < start <= |words| && words[start - 1] == HEADER
    ensures var all := Reads(words[start - 1..], false, frameCount, index, room);
      if start + 2 > |words| then all == []
      else if FrameSize(words[start]) > QUEUE_SIZE then all == Reads(words[start + 2..], true, frameCount, index, room)
      else
        var end := start + 2 + Payload(words[start]);
        var slot := Slot(words[start + 1], frameCount, index, room);
        if end >= |words| then all == [FrameRead(slot, words[start..], false)]
        else
          var frame := words[start..end];
          var published := Consistent(frame) && slot.Some?;
          if words[end] != TRAILER then
            all == [FrameRead(slot, frame, false)] + Reads(words[end + 1..], true, frameCount + 1, index, room)
          else
            all == [FrameRead(slot, frame, published)]
                   + Reads(words[end + 1..], false, frameCount + 1, if published then index + 1 else index, room)
  {
    hide FrameSize, NEvents, FrameLost, Consistent, Slot;
    var ws := words[start - 1..];
    if start + 2 <= |words| {
      assert ws[1] == words[start] && ws[2] == words[start + 1];
      var length := Payload(ws[1]);
      assert ws[3..] == words[start + 2..];
      if |ws| < 4 + length {
        assert ws[1..|ws|] == words[start..];
      } else {
        Cut(words, start, length);
      }
    }
  }

  /** The parts of the stream from the header word on. */
  lemma Cut(words: seq<Word>, start: nat, n: nat)
    requires 0 < start && start + 2 + n < |words|
    ensures var ws := words[start - 1..];
      && ws[1..3 + n] == words[start..start + 2 + n]
      && ws[3 + n] == words[start + 2 + n] && ws[4 + n..] == words[start + 3 + n..]
  {
  }
}
