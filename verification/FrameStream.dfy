/** What the parser makes of streams: which frames it publishes, and when its stores stay in the slots that
    they are meant for (src/daqd/DAQFrameServer.cpp:186-276). */
module FrameStream {
  import opened Options
  import opened Arithmetic
  import opened ByteWords
  import opened WrapRing
  import opened SharedMemory
  import opened FrameParser

  // ---------------------------------------------------------------- any stream

  /** A frame whose length is what both counts in its header say. */
  predicate Sized(frame: seq<Word>) {
    |frame| >= 2 && |frame| == FrameSize(frame[0]) == 2 + NEvents(frame[1]) && |frame| <= QUEUE_SIZE
  }

  /** No word of it has been stored behind its slot. */
  predicate InSlot(r: FrameRead) { |r.words| <= MAX_FRAME_SIZE }

  predicate AllInSlot(rs: seq<FrameRead>) { forall r :: r in rs ==> InSlot(r) }

  /** Somewhere the parser acts on a size word between the room of a slot and its own limit, and the stream
      goes on for more words than a slot has room for. */
  predicate Overruns(ws: seq<Word>, bad: bool)
    decreases |ws|
  {
    if ws == [] then false
    else if bad then Overruns(ws[1..], ws[0] != IDLE)
    else if ws[0] != HEADER then Overruns(ws[1..], ws[0] != IDLE)
    else if |ws| < 3 then false
    else if FrameSize(ws[1]) > QUEUE_SIZE then Overruns(ws[3..], true)
    else if FrameSize(ws[1]) > MAX_FRAME_SIZE && |ws| > 1 + MAX_FRAME_SIZE then true
    else if |ws| < 4 + Payload(ws[1]) then false
    else Overruns(ws[4 + Payload(ws[1])..], ws[3 + Payload(ws[1])] != TRAILER)
  }

  lemma InSlotCons(r: FrameRead, rs: seq<FrameRead>)
    ensures AllInSlot([r] + rs) <==> InSlot(r) && AllInSlot(rs)
  {
    assert r in [r] + rs;
    assert forall x :: x in rs ==> x in [r] + rs;
  }

  /** For every stream, whatever the ring is like: all stores stay in the claimed slots if and only if the
      parser never goes on behind a size word that is too large. */
  lemma {:induction false} StaysIff(ws: seq<Word>, bad: bool, frameCount: nat, index: nat, room: Room)
    ensures AllInSlot(Reads(ws, bad, frameCount, index, room)) <==> !Overruns(ws, bad)
    decreases |ws|
  {
    hide FrameSize, NEvents, Consistent, Slot;
    if ws == [] {
    } else if bad || ws[0] != HEADER {
      StaysIff(ws[1..], ws[0] != IDLE, frameCount, index, room);
    } else if |ws| < 3 {
    } else if FrameSize(ws[1]) > QUEUE_SIZE {
      StaysIff(ws[3..], true, frameCount, index, room);
    } else {
      var length, slot := Payload(ws[1]), Slot(ws[2], frameCount, index, room);
      if |ws| < 4 + length {
        InSlotCons(FrameRead(slot, ws[1..AtMost(|ws|, 3 + length)], false), []);
      } else {
        var frame, trailer, rest := ws[1..3 + length], ws[3 + length], ws[4 + length..];
        var published := trailer == TRAILER && Consistent(frame) && slot.Some?;
        var index' := if published then index + 1 else index;
        StaysIff(rest, trailer != TRAILER, frameCount + 1, index', room);
        InSlotCons(FrameRead(slot, frame, published), Reads(rest, trailer != TRAILER, frameCount + 1, index', room));
      }
    }
  }

  /** Whatever the stream is, a published frame has the length that its header says. */
  lemma {:induction false} OnlySized(ws: seq<Word>, bad: bool, frameCount: nat, index: nat, room: Room)
    ensures forall r :: r in Reads(ws, bad, frameCount, index, room) && r.published ==> Sized(r.words)
    decreases |ws|
  {
    if ws == [] {
    } else if bad || ws[0] != HEADER {
      OnlySized(ws[1..], ws[0] != IDLE, frameCount, index, room);
    } else if |ws| < 3 {
    } else if FrameSize(ws[1]) > QUEUE_SIZE {
      OnlySized(ws[3..], true, frameCount, index, room);
    } else if |ws| >= 4 + Payload(ws[1]) {
      var rest, trailer := ws[4 + Payload(ws[1])..], ws[3 + Payload(ws[1])];
      var slot := Slot(ws[2], frameCount, index, room);
      var published := trailer == TRAILER && Consistent(ws[1..3 + Payload(ws[1])]) && slot.Some?;
      OnlySized(rest, trailer != TRAILER, frameCount + 1, if published then index + 1 else index, room);
    }
  }

  // ---------------------------------------------------------------- what the consumer finds in memory

  /** The words are there, from an address on. */
  predicate Holds(mem: map<nat, Word>, at: nat, ws: seq<Word>) {
    forall a: nat :: at <= a < at + |ws| ==> a in mem && mem[a] == ws[a - at]
  }

  lemma {:induction false} PokeAt(mem: map<nat, Word>, at: nat, ws: seq<Word>, a: nat)
    ensures at <= a < at + |ws| ==> a in Poke(mem, at, ws) && Poke(mem, at, ws)[a] == ws[a - at]
    ensures !(at <= a < at + |ws|) ==>
              (a in Poke(mem, at, ws) <==> a in mem) && (a in mem ==> Poke(mem, at, ws)[a] == mem[a])
  {
    if ws != [] {
      PokeAt(mem, at, ws[..|ws| - 1], a);
    }
  }

  lemma PokeHolds(mem: map<nat, Word>, at: nat, ws: seq<Word>)
    ensures Holds(Poke(mem, at, ws), at, ws)
  {
    forall a | at <= a < at + |ws|
      ensures a in Poke(mem, at, ws) && Poke(mem, at, ws)[a] == ws[a - at]
    {
      PokeAt(mem, at, ws, a);
    }
  }

  lemma PokeElsewhere(mem: map<nat, Word>, at: nat, ws: seq<Word>, at': nat, ws': seq<Word>)
    requires Holds(mem, at', ws') && (at + |ws| <= at' || at' + |ws'| <= at)
    ensures Holds(Poke(mem, at, ws), at', ws')
  {
    forall a | at' <= a < at' + |ws'|
      ensures a in Poke(mem, at, ws) && Poke(mem, at, ws)[a] == ws'[a - at']
    {
      PokeAt(mem, at, ws, a);
    }
  }

  /** Slots are claimed from some number on and below some other. */
  predicate SlotsWithin(rs: seq<FrameRead>, from: nat, to: nat) {
    forall r :: r in rs && r.slot.Some? ==> from <= r.slot.value < to
  }

  ghost predicate RoomBelow(room: Room, to: nat) {
    forall f: nat, i: nat :: room(f, i) ==> i < to
  }

  lemma SlotsCons(r: FrameRead, rs: seq<FrameRead>, from: nat, from': nat, to: nat)
    requires r.slot.Some? ==> from <= r.slot.value < to
    requires SlotsWithin(rs, from', to) && from <= from'
    ensures SlotsWithin([r] + rs, from, to)
  {
  }

  lemma {:induction false} ReadsSlots(ws: seq<Word>, bad: bool, frameCount: nat, index: nat, room: Room, to: nat)
    requires RoomBelow(room, to)
    ensures SlotsWithin(Reads(ws, bad, frameCount, index, room), index, to)
    decreases |ws|
  {
    hide FrameSize, NEvents, FrameLost, Consistent;
    if ws == [] {
    } else if bad || ws[0] != HEADER {
      ReadsSlots(ws[1..], ws[0] != IDLE, frameCount, index, room, to);
    } else if |ws| < 3 {
    } else if FrameSize(ws[1]) > QUEUE_SIZE {
      ReadsSlots(ws[3..], true, frameCount, index, room, to);
    } else if |ws| >= 4 + Payload(ws[1]) {
      var rest, trailer, frame := ws[4 + Payload(ws[1])..], ws[3 + Payload(ws[1])], ws[1..3 + Payload(ws[1])];
      var slot := Slot(ws[2], frameCount, index, room);
      var published := trailer == TRAILER && Consistent(frame) && slot.Some?;
      var index' := if published then index + 1 else index;
      ReadsSlots(rest, trailer != TRAILER, frameCount + 1, index', room, to);
      SlotsCons(FrameRead(slot, frame, published), Reads(rest, trailer != TRAILER, frameCount + 1, index', room), index, index', to);
    }
  }

  /** Two of n successive slots do not overlap. */
  lemma Apart(j: nat, t: nat, n: nat)
    requires n > 0 && j < t < j + n
    ensures Address(t, n) + MAX_FRAME_SIZE <= Address(j, n) || Address(j, n) + MAX_FRAME_SIZE <= Address(t, n)
  {
    NextSlotFree(t, j, n, j);
  }

  /** A frame in memory stays there while later slots are filled. */
  lemma {:induction false} SlotKept(mem: map<nat, Word>, rs: seq<FrameRead>, n: nat, j: nat, ws: seq<Word>)
    requires n > 0 && AllInSlot(rs) && SlotsWithin(rs, j + 1, j + n) && |ws| <= MAX_FRAME_SIZE
    requires Holds(mem, Address(j, n), ws)
    ensures Holds(Memory(mem, rs, n), Address(j, n), ws)
    decreases |rs|
  {
    hide Holds, Address, Poke;
    if rs != [] {
      var r := rs[0];
      assert r in rs;
      var mem' := mem;
      if r.slot.Some? {
        Apart(j, r.slot.value, n);
        PokeElsewhere(mem, Address(r.slot.value, n), r.words, Address(j, n), ws);
        mem' := Poke(mem, Address(r.slot.value, n), r.words);
      }
      assert forall x :: x in rs[1..] ==> x in rs;
      SlotKept(mem', rs[1..], n, j, ws);
    }
  }

  /** The k-th published frame is whole in its slot. */
  predicate WholeAt(mem: map<nat, Word>, rs: seq<FrameRead>, n: nat, index: nat, k: nat)
    requires n > 0 && k < |Published(rs)|
  {
    Holds(mem, Address(index + k, n), Published(rs)[k])
  }

  lemma FirstWhole(mem: map<nat, Word>, r: FrameRead, more: seq<FrameRead>, n: nat, index: nat, freed: nat)
    requires n > 0 && r.published && r.slot == Some(index) && InSlot(r) && AllInSlot(more)
    requires SlotsWithin(more, index + 1, freed + n) && freed <= index
    ensures |Published([r] + more)| > 0 && WholeAt(Memory(mem, [r] + more, n), [r] + more, n, index, 0)
  {
    hide Holds, Address, Poke;
    PublishedCons(r, more);
    MemoryCons(mem, r, more, n);
    PokeHolds(mem, Address(index, n), r.words);
    SlotKept(Poke(mem, Address(index, n), r.words), more, n, index, r.words);
  }

  lemma LaterWhole(mem: map<nat, Word>, r: FrameRead, more: seq<FrameRead>, n: nat, index: nat, k: nat)
    requires n > 0 && (r.published ==> k > 0)
    requires var k' := if r.published then k - 1 else k;
      k' < |Published(more)|
      && WholeAt(Memory(if r.slot.Some? then Poke(mem, Address(r.slot.value, n), r.words) else mem, more, n), more, n,
                 if r.published then index + 1 else index, k')
    ensures k < |Published([r] + more)| && WholeAt(Memory(mem, [r] + more, n), [r] + more, n, index, k)
  {
    hide Holds, Address, Poke;
    PublishedCons(r, more);
    MemoryCons(mem, r, more, n);
  }

  /** If no store leaves its slot, then when the stream has been read, every published frame that the
      consumer has not given back, which are those from slot number freed on, is whole in memory. */
  lemma {:induction false} UnreadWhole(ws: seq<Word>, bad: bool, frameCount: nat, index: nat, room: Room, n: nat, freed: nat,
                                       mem: map<nat, Word>, k: nat)
    requires n > 0 && RoomBelow(room, freed + n) && !Overruns(ws, bad)
    requires k < |Published(Reads(ws, bad, frameCount, index, room))| && freed <= index + k
    ensures var rs := Reads(ws, bad, frameCount, index, room); WholeAt(Memory(mem, rs, n), rs, n, index, k)
    decreases |ws|
  {
    hide FrameSize, NEvents, FrameLost, Consistent, Dropped, Holds, Poke, Address, Memory, RoomBelow;
    if bad || ws[0] != HEADER {
      UnreadWhole(ws[1..], ws[0] != IDLE, frameCount, index, room, n, freed, mem, k);
    } else if FrameSize(ws[1]) > QUEUE_SIZE {
      UnreadWhole(ws[3..], true, frameCount, index, room, n, freed, mem, k);
    } else if |ws| >= 4 + Payload(ws[1]) {
      var rest, trailer, frame := ws[4 + Payload(ws[1])..], ws[3 + Payload(ws[1])], ws[1..3 + Payload(ws[1])];
      var slot := Slot(ws[2], frameCount, index, room);
      var published := trailer == TRAILER && Consistent(frame) && slot.Some?;
      var index' := if published then index + 1 else index;
      var r, more := FrameRead(slot, frame, published), Reads(rest, trailer != TRAILER, frameCount + 1, index', room);
      var mem' := if slot.Some? then Poke(mem, Address(slot.value, n), frame) else mem;
      if published && k == 0 {
        StaysIff(rest, trailer != TRAILER, frameCount + 1, index', room);
        ReadsSlots(rest, trailer != TRAILER, frameCount + 1, index', room, freed + n);
        FirstWhole(mem, r, more, n, index, freed);
      } else {
        UnreadWhole(rest, trailer != TRAILER, frameCount + 1, index', room, n, freed, mem', if published then k - 1 else k);
        LaterWhole(mem, r, more, n, index, k);
      }
    }
  }

  // ---------------------------------------------------------------- what the card sends

  /** What the card sends for one frame: idle words, a header word, the frame and a trailer word. */
  datatype Unit = Unit(idles: nat, frame: seq<Word>)

  predicate AllSized(units: seq<Unit>) { forall k :: 0 <= k < |units| ==> Sized(units[k].frame) }

  predicate AllFit(units: seq<Unit>) { forall k :: 0 <= k < |units| ==> |units[k].frame| <= MAX_FRAME_SIZE }

  function Idles(n: nat): seq<Word> { seq(n, k => IDLE) }

  function Sent(u: Unit): seq<Word> { Idles(u.idles) + [HEADER] + u.frame + [TRAILER] }

  function Stream(units: seq<Unit>): seq<Word> {
    if units == [] then [] else Sent(units[0]) + Stream(units[1..])
  }

  /** Each frame sent is read, and published if it is not dropped and finds a slot; the first is frame number
      frameCount. */
  function Received(units: seq<Unit>, frameCount: nat, index: nat, room: Room): seq<FrameRead>
    requires AllSized(units)
  {
    if units == [] then []
    else
      var slot := Slot(units[0].frame[1], frameCount, index, room);
      [FrameRead(slot, units[0].frame, slot.Some?)]
      + Received(units[1..], frameCount + 1, if slot.Some? then index + 1 else index, room)
  }

  lemma {:induction false} SkipIdles(n: nat, ws: seq<Word>, frameCount: nat, index: nat, room: Room)
    ensures Reads(Idles(n) + ws, false, frameCount, index, room) == Reads(ws, false, frameCount, index, room)
  {
    if n == 0 {
      assert Idles(0) + ws == ws;
    } else {
      assert (Idles(n) + ws)[1..] == Idles(n - 1) + ws;
      SkipIdles(n - 1, ws, frameCount, index, room);
    }
  }

  lemma ReadsUnit(u: Unit, ws: seq<Word>, frameCount: nat, index: nat, room: Room)
    requires Sized(u.frame)
    ensures var slot := Slot(u.frame[1], frameCount, index, room);
      Reads(Sent(u) + ws, false, frameCount, index, room)
      == [FrameRead(slot, u.frame, slot.Some?)]
         + Reads(ws, false, frameCount + 1, if slot.Some? then index + 1 else index, room)
  {
    hide FrameSize, NEvents, Slot;
    var body := [HEADER] + u.frame + [TRAILER] + ws;
    assert Sent(u) + ws == Idles(u.idles) + body;
    SkipIdles(u.idles, body, frameCount, index, room);
    assert body[1] == u.frame[0] && body[2] == u.frame[1];
    assert body[1..3 + Payload(body[1])] == u.frame;
    assert body[4 + Payload(body[1])..] == ws;
  }

  lemma {:induction false} ReadsStream(units: seq<Unit>, tail: seq<Word>, frameCount: nat, index: nat, room: Room)
    requires AllSized(units)
    ensures var rs := Received(units, frameCount, index, room);
      Reads(Stream(units) + tail, false, frameCount, index, room)
      == rs + Reads(tail, false, frameCount + |units|, index + |Published(rs)|, room)
  {
    hide Reads, Sent, Slot, FrameSize, NEvents;
    if units == [] {
      assert Stream(units) + tail == tail;
      assert [] + Reads(tail, false, frameCount, index, room) == Reads(tail, false, frameCount, index, room);
    } else {
      assert Stream(units) + tail == Sent(units[0]) + (Stream(units[1..]) + tail);
      ReadsUnit(units[0], Stream(units[1..]) + tail, frameCount, index, room);
      var slot := Slot(units[0].frame[1], frameCount, index, room);
      var index' := if slot.Some? then index + 1 else index;
      ReadsStream(units[1..], tail, frameCount + 1, index', room);
      PublishedCons(FrameRead(slot, units[0].frame, slot.Some?), Received(units[1..], frameCount + 1, index', room));
    }
  }

  lemma {:induction false} Resync(noise: seq<Word>, ws: seq<Word>, frameCount: nat, index: nat, room: Room)
    requires IDLE !in noise
    ensures Reads(noise + [IDLE] + ws, true, frameCount, index, room) == Reads(ws, false, frameCount, index, room)
  {
    var all := noise + [IDLE] + ws;
    if noise == [] {
      assert all[1..] == ws;
    } else {
      assert all[1..] == noise[1..] + [IDLE] + ws;
      assert noise[0] in noise;
      Resync(noise[1..], ws, frameCount, index, room);
    }
  }

  /** Words from a bad state on: noise, an idle word, and frames. */
  function AfterNoise(noise: seq<Word>, units: seq<Unit>): seq<Word> { noise + [IDLE] + Stream(units) }

  /** Parser and sender are inverse to each other, with recovery: from the bad state, which is also the
      initial one, anything up to the next idle word is skipped, and then every frame is read, in order,
      whatever its payload words are, and published if it is not dropped and finds a slot. */
  lemma ReadsEveryFrame(noise: seq<Word>, units: seq<Unit>, tail: seq<Word>, frameCount: nat, index: nat, room: Room)
    requires IDLE !in noise && AllSized(units)
    ensures var rs := Received(units, frameCount, index, room);
      Reads(AfterNoise(noise, units) + tail, true, frameCount, index, room)
      == rs + Reads(tail, false, frameCount + |units|, index + |Published(rs)|, room)
  {
    assert AfterNoise(noise, units) + tail == noise + [IDLE] + (Stream(units) + tail);
    Resync(noise, Stream(units) + tail, frameCount, index, room);
    ReadsStream(units, tail, frameCount, index, room);
  }

  lemma {:induction false} ReceivedInSlot(units: seq<Unit>, frameCount: nat, index: nat, room: Room)
    requires AllSized(units)
    ensures AllInSlot(Received(units, frameCount, index, room)) <==> AllFit(units)
  {
    hide Slot, FrameSize, NEvents;
    if units != [] {
      var slot := Slot(units[0].frame[1], frameCount, index, room);
      var index' := if slot.Some? then index + 1 else index;
      ReceivedInSlot(units[1..], frameCount + 1, index', room);
      InSlotCons(FrameRead(slot, units[0].frame, slot.Some?), Received(units[1..], frameCount + 1, index', room));
      assert AllFit(units) <==> |units[0].frame| <= MAX_FRAME_SIZE && AllFit(units[1..]) by {
        assert forall k :: 0 <= k < |units| - 1 ==> units[1..][k] == units[k + 1];
        if AllFit(units[1..]) && |units[0].frame| <= MAX_FRAME_SIZE {
          forall k | 0 <= k < |units| ensures |units[k].frame| <= MAX_FRAME_SIZE {
            assert k > 0 ==> units[1..][k - 1] == units[k];
          }
        }
      }
    }
  }

  /** For the streams that the card sends: all stores stay in their slots if and only if every frame has room
      in a slot. */
  lemma StoresStayIff(noise: seq<Word>, units: seq<Unit>, frameCount: nat, index: nat, room: Room)
    requires IDLE !in noise && AllSized(units)
    ensures Reads(AfterNoise(noise, units), true, frameCount, index, room) == Received(units, frameCount, index, room)
    ensures AllInSlot(Reads(AfterNoise(noise, units), true, frameCount, index, room)) <==> AllFit(units)
  {
    hide Reads, Received, AllFit, AllInSlot, Published;
    ReadsEveryFrame(noise, units, [], frameCount, index, room);
    assert AfterNoise(noise, units) + [] == AfterNoise(noise, units);
    var all := Received(units, frameCount, index, room);
    NothingToRead(frameCount + |units|, index + |Published(all)|, room);
    assert all + [] == all;
    ReceivedInSlot(units, frameCount, index, room);
  }

  /** When such a stream has been read and its frames have room in the slots, every frame that was not dropped
      and found a slot has been published, in order, and those that the consumer has not given back are
      whole in memory. */
  lemma RecoversEveryFrame(noise: seq<Word>, units: seq<Unit>, frameCount: nat, index: nat, room: Room, n: nat, freed: nat,
                           mem: map<nat, Word>)
    requires IDLE !in noise && AllSized(units) && AllFit(units)
    requires n > 0 && RoomBelow(room, freed + n)
    ensures var rs := Reads(AfterNoise(noise, units), true, frameCount, index, room);
      && rs == Received(units, frameCount, index, room)
      && forall k :: 0 <= k < |Published(rs)| && freed <= index + k ==> WholeAt(Memory(mem, rs, n), rs, n, index, k)
  {
    hide Reads, Received, AllFit, AllInSlot, RoomBelow, WholeAt, Memory, Published, Overruns;
    var ws := AfterNoise(noise, units);
    var rs := Reads(ws, true, frameCount, index, room);
    StoresStayIff(noise, units, frameCount, index, room);
    StaysIff(ws, true, frameCount, index, room);
    forall k | 0 <= k < |Published(rs)| && freed <= index + k
      ensures WholeAt(Memory(mem, rs, n), rs, n, index, k)
    {
      UnreadWhole(ws, true, frameCount, index, room, n, freed, mem, k);
    }
  }

  /** The worker claims no slot that the consumer has not given back in the end. */
  lemma RoomInBelow(n: nat, mode: nat -> bool, progress: nat -> nat, freed: nat)
    requires forall f: nat :: progress(f) <= freed
    ensures RoomBelow(RoomIn(n, mode, progress), freed + n)
  {
  }

  /** The worker on such a stream: what it leaves in shared memory for the consumer. */
  method ReadSent(server: DAQFrameServer, noise: seq<Word>, units: seq<Unit>, mode: nat -> bool, progress: nat -> nat, freed: nat)
    returns (ghost rs: seq<FrameRead>)
    requires server.Valid() && IDLE !in noise && AllSized(units) && AllFit(units)
    requires server.index <= progress(0) + server.n && forall f: nat :: progress(f) <= progress(f + 1)
    requires forall f: nat :: progress(f) <= freed
    modifies server
    ensures rs == Received(units, 0, old(server.index), RoomIn(server.n, mode, progress))
    ensures server.n > 0 && server.index == old(server.index) + |Published(rs)|
    ensures forall k :: 0 <= k < |Published(rs)| && freed <= old(server.index) + k ==>
                    WholeAt(server.dataFrameSharedMemory, rs, server.n, old(server.index), k)
  {
    hide Reads, Received, AllFit, AllSized, RoomIn, WholeAt, Memory, Published;
    ghost var mem, index := server.dataFrameSharedMemory, server.index;
    RoomInBelow(server.n, mode, progress, freed);
    RecoversEveryFrame(noise, units, 0, index, RoomIn(server.n, mode, progress), server.n, freed, mem);
    rs := server.DoWork(AfterNoise(noise, units), mode, progress);
  }

  lemma NothingToRead(frameCount: nat, index: nat, room: Room)
    ensures Reads([], false, frameCount, index, room) == []
  {
  }

  /** With room in the ring, and in the slots, no frame that carries an event or is not marked lost is ever
      missing. */
  lemma {:induction false} KeepsAllData(units: seq<Unit>, frameCount: nat, index: nat)
    requires AllSized(units) && AllFit(units)
    requires forall k :: 0 <= k < |units| ==> NEvents(units[k].frame[1]) > 0 || !FrameLost(units[k].frame[1])
    ensures Published(Received(units, frameCount, index, (f, i) => true))
         == seq(|units|, k requires 0 <= k < |units| => units[k].frame)
  {
    if units != [] {
      KeepsAllData(units[1..], frameCount + 1, index + 1);
      PublishedCons(FrameRead(Some(index), units[0].frame, true),
                    Received(units[1..], frameCount + 1, index + 1, (f, i) => true));
    }
  }

  // ---------------------------------------------------------------- a frame that is too large

  /** The parser's own limit lets frames pass that no slot has room for. This one has 2050 words. */
  function Big(): seq<Word> { [2050 * 0x10_0000_0000, 2048] + seq(2048, k => 0) }

  function Small(): seq<Word> { [2 * 0x10_0000_0000, 0] }

  /** Both are published, in two neighbouring slots, but what the consumer finds of the first is spoilt by
      the second. */
  lemma BigFrameSpoilt(n: nat)
    requires n >= 2
    ensures var units := [Unit(0, Big()), Unit(0, Small())];
      var rs := Reads(AfterNoise([], units), true, 0, 0, (f, i) => true);
      && AllSized(units) && Published(rs) == [Big(), Small()] && !AllInSlot(rs)
      && !WholeAt(Memory(map[], rs, n), rs, n, 0, 0) && WholeAt(Memory(map[], rs, n), rs, n, 0, 1)
  {
    hide Big, Small, Holds, Poke, Memory, Reads, WholeAt;
    SizesOfBoth();
    TwoReceived(Big(), Small());
    var a, b := FrameRead(Some(0), Big(), true), FrameRead(Some(1), Small(), true);
    PublishedCons(a, [b]);
    PublishedCons(b, []);
    BothStored(n, a, b);
    assert a in [a, b] && !InSlot(a);
  }

  lemma TwoReceived(x: seq<Word>, y: seq<Word>)
    requires Sized(x) && Sized(y) && !Dropped(x[1], 0) && !Dropped(y[1], 1)
    ensures AllSized([Unit(0, x), Unit(0, y)])
    ensures Reads(AfterNoise([], [Unit(0, x), Unit(0, y)]), true, 0, 0, (f, i) => true)
         == [FrameRead(Some(0), x, true), FrameRead(Some(1), y, true)]
  {
    hide FrameSize, NEvents, Dropped, Reads;
    var units, room: Room := [Unit(0, x), Unit(0, y)], (f, i) => true;
    ReadsEveryFrame([], units, [], 0, 0, room);
    assert AfterNoise([], units) + [] == AfterNoise([], units);
    var a, b := FrameRead(Some(0), x, true), FrameRead(Some(1), y, true);
    assert units[1..] == [Unit(0, y)] && units[1..][1..] == [];
    assert Received([Unit(0, y)], 1, 1, room) == [b];
    assert Received(units, 0, 0, room) == [a, b];
    NothingToRead(2, |Published([a, b])|, room);
  }

  lemma SizesOfBoth()
    ensures Sized(Big()) && Sized(Small()) && |Big()| == 2050 && |Small()| == 2 && Big()[2048] != Small()[0]
    ensures !Dropped(Big()[1], 0) && !Dropped(Small()[1], 1)
  {
  }

  lemma BothStored(n: nat, a: FrameRead, b: FrameRead)
    requires n >= 2 && a == FrameRead(Some(0), Big(), true) && b == FrameRead(Some(1), Small(), true)
    ensures |Published([a, b])| == 2
    ensures !WholeAt(Memory(map[], [a, b], n), [a, b], n, 0, 0) && WholeAt(Memory(map[], [a, b], n), [a, b], n, 0, 1)
  {
    SizesOfBoth();
    hide Big, Small, Holds, Poke;
    PublishedCons(a, [b]);
    PublishedCons(b, []);
    DivUnique(0, n, 0, 0);
    DivUnique(1, n, 0, 1);
    var one := Poke(map[], 0, Big());
    var two := Poke(one, MAX_FRAME_SIZE, Small());
    MemoryCons(map[], a, [b], n);
    MemoryOne(one, b, n);
    PokeHolds(one, MAX_FRAME_SIZE, Small());
    PokeAt(one, MAX_FRAME_SIZE, Small(), MAX_FRAME_SIZE);
    assert two[MAX_FRAME_SIZE] == Small()[0];
    NotHeld(two, Big());
  }

  lemma NotHeld(mem: map<nat, Word>, ws: seq<Word>)
    requires |ws| > MAX_FRAME_SIZE && MAX_FRAME_SIZE in mem && mem[MAX_FRAME_SIZE] != ws[MAX_FRAME_SIZE]
    ensures !Holds(mem, 0, ws)
  {
  }
}
