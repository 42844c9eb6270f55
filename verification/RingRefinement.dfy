/** The worker that parses words and stores them in memory is an instance of the slot-level step system: with
    acquisition on, whatever it does to a stream is a run of the ring, and where a slot of the ring has a
    whole frame, memory has its words (src/daqd/DAQFrameServer.cpp:163-276). */
module RingRefinement {
  import opened Options
  import opened ByteWords
  import opened WrapRing
  import opened SharedMemory
  import opened FrameParser
  import opened FrameStream
  import opened RingPlaces
  import opened RingSafety
  import R = FrameRing

  // ---------------------------------------------------------------- what frames a worker meets

  function SizeOf(words: seq<Word>): nat
    requires |words| > 0
  {
    2 + Payload(words[0])
  }

  /** A frame as the parser meets it, as frame number f when index slots have been published. */
  predicate Met(r: FrameRead, f: nat, index: nat, room: Room) {
    && 2 <= |r.words| <= SizeOf(r.words) <= QUEUE_SIZE
    && r.slot == Slot(r.words[1], f, index, room)
    && (r.published ==> r.slot.Some? && |r.words| == SizeOf(r.words))
  }

  function NextIndex(r: FrameRead, index: nat): nat { if r.published then index + 1 else index }

  /** Frames with successive numbers, each met when those before it have been published. */
  predicate AllMet(rs: seq<FrameRead>, f: nat, index: nat, room: Room) {
    rs == [] || (Met(rs[0], f, index, room) && AllMet(rs[1..], f + 1, NextIndex(rs[0], index), room))
  }

  lemma MetCons(r: FrameRead, rs: seq<FrameRead>, f: nat, index: nat, room: Room)
    requires Met(r, f, index, room) && AllMet(rs, f + 1, NextIndex(r, index), room)
    ensures AllMet([r] + rs, f, index, room)
  {
    assert ([r] + rs)[1..] == rs;
  }

  lemma {:induction false} ReadsMet(ws: seq<Word>, bad: bool, f: nat, index: nat, room: Room)
    ensures AllMet(Reads(ws, bad, f, index, room), f, index, room)
    decreases |ws|
  {
    hide FrameSize, NEvents, Consistent, Slot;
    if ws == [] {
    } else if bad || ws[0] != HEADER {
      ReadsMet(ws[1..], ws[0] != IDLE, f, index, room);
    } else if |ws| < 3 {
    } else if FrameSize(ws[1]) > QUEUE_SIZE {
      ReadsMet(ws[3..], true, f, index, room);
    } else {
      var length, slot := Payload(ws[1]), Slot(ws[2], f, index, room);
      if |ws| < 4 + length {
        MetCons(FrameRead(slot, ws[1..AtMost(|ws|, 3 + length)], false), [], f, index, room);
      } else {
        var frame, trailer, rest := ws[1..3 + length], ws[3 + length], ws[4 + length..];
        var published := trailer == TRAILER && Consistent(frame) && slot.Some?;
        var r := FrameRead(slot, frame, published);
        ReadsMet(rest, trailer != TRAILER, f + 1, NextIndex(r, index), room);
        MetCons(r, Reads(rest, trailer != TRAILER, f + 1, NextIndex(r, index), room), f, index, room);
      }
    }
  }

  // ---------------------------------------------------------------- slots and memory

  /** As much of a frame as a slot has room for. */
  function Head(ws: seq<Word>): (h: seq<Word>)
    ensures |h| <= MAX_FRAME_SIZE && h <= ws
    ensures |ws| <= MAX_FRAME_SIZE ==> h == ws
  {
    ws[..AtMost(|ws|, MAX_FRAME_SIZE)]
  }

  /** Where a slot has a whole frame, memory has its words. */
  predicate Agrees(slots: seq<R.Slot>, mem: map<nat, Word>, frames: map<nat, seq<Word>>) {
    forall i :: 0 <= i < |slots| ==> SlotAgrees(slots[i], i, mem, frames)
  }

  predicate SlotAgrees(slot: R.Slot, i: nat, mem: map<nat, Word>, frames: map<nat, seq<Word>>) {
    slot.Whole? ==> slot.frame in frames && Holds(mem, i * MAX_FRAME_SIZE, Head(frames[slot.frame]))
  }

  /** The frames up to a number. */
  predicate Below(frames: map<nat, seq<Word>>, f: nat) { forall k :: k in frames ==> k < f }

  /** Storing the words of a frame in memory is what Stored does to the slots. */
  lemma StoreAgrees(slots: seq<R.Slot>, mem: map<nat, Word>, frames: map<nat, seq<Word>>, i: nat, content: R.Slot, f: nat,
                    ws: seq<Word>)
    requires Agrees(slots, mem, frames) && i < |slots| && Below(frames, f)
    requires content == R.Whole(f) || content == R.Partial(f)
    ensures Agrees(R.Stored(slots, i, content, f, |ws|), Poke(mem, i * MAX_FRAME_SIZE, ws), frames[f := ws])
  {
    hide Holds, Poke;
    var slots', mem' := R.Stored(slots, i, content, f, |ws|), Poke(mem, i * MAX_FRAME_SIZE, ws);
    forall j | 0 <= j < |slots'|
      ensures SlotAgrees(slots'[j], j, mem', frames[f := ws])
    {
      if j == i {
        PokeHolds(mem, i * MAX_FRAME_SIZE, ws);
        HeadHolds(mem', i * MAX_FRAME_SIZE, ws);
      } else if !(i < j < i + R.Covered(|ws|)) && slots[j].Whole? {
        assert SlotAgrees(slots[j], j, mem, frames);
        OtherSlot(i, j, |ws|);
        PokeElsewhere(mem, i * MAX_FRAME_SIZE, ws, j * MAX_FRAME_SIZE, Head(frames[slots[j].frame]));
      }
    }
  }

  lemma HeadHolds(mem: map<nat, Word>, at: nat, ws: seq<Word>)
    requires Holds(mem, at, ws)
    ensures Holds(mem, at, Head(ws))
  {
  }

  lemma OtherSlot(i: nat, j: nat, words: nat)
    requires j < i || i + R.Covered(words) <= j
    requires i != j
    ensures j * MAX_FRAME_SIZE + MAX_FRAME_SIZE <= i * MAX_FRAME_SIZE || i * MAX_FRAME_SIZE + words <= j * MAX_FRAME_SIZE
  {
  }

  lemma NothingStored(slots: seq<R.Slot>, mem: map<nat, Word>, frames: map<nat, seq<Word>>, f: nat, ws: seq<Word>)
    requires Agrees(slots, mem, frames) && Below(frames, f)
    ensures Agrees(slots, mem, frames[f := ws])
  {
    hide Holds;
    forall i | 0 <= i < |slots| ensures SlotAgrees(slots[i], i, mem, frames[f := ws]) {
      assert SlotAgrees(slots[i], i, mem, frames);
    }
  }

  // ---------------------------------------------------------------- one frame

  /** A state of the ring and a state of the worker between frames: the first f frames have been met and index
      of them have been published. */
  ghost predicate Simulates(s: R.State, mem: map<nat, Word>, frames: map<nat, seq<Word>>, n: nat, f: nat, index: nat) {
    && Placed(s) && s.n == n && s.mode && s.worker == R.Reading && |s.published| == index
    && Agrees(s.slots, mem, frames) && Below(frames, f)
  }

  /** What the consumer gives back until a frame is met. */
  function Given(progress: nat -> nat, f: nat, index: nat): nat { AtMost(progress(f), index) }

  /** What the worker does to a frame. */
  function MovesOf(r: FrameRead, f: nat, count: nat): (ms: seq<R.Move>)
    requires |r.words| >= 2
    ensures |ms| == 5
  {
    [R.Consume(count), R.Header(f, Dropped(r.words[1], f), SizeOf(r.words)), R.Claim]
    + if r.published then [R.Complete, R.Publish] else [R.Write(|r.words|), R.Bad]
  }

  function Always(): nat -> bool { f => true }

  /** The worker's state after the claim. */
  lemma Claims(s: R.State, r: FrameRead, n: nat, f: nat, index: nat, progress: nat -> nat)
    requires Placed(s) && s.n == n && s.mode && s.worker == R.Reading && |s.published| == index
    requires |s.consumed| <= Given(progress, f, index) && Met(r, f, index, RoomIn(n, Always(), progress))
    requires index <= progress(f) + n
    ensures var d := Given(progress, f, index) - |s.consumed|;
      && R.Enabled(s, R.Consume(d))
      && var s1 := R.Step(s, R.Consume(d));
      && R.Enabled(s1, R.Header(f, Dropped(r.words[1], f), SizeOf(r.words)))
      && var s2 := R.Step(s1, R.Header(f, Dropped(r.words[1], f), SizeOf(r.words)));
      && R.Enabled(s2, R.Claim)
      && var s3 := R.Step(s2, R.Claim);
      && s3 == s1.(worker := R.Filling(f, SizeOf(r.words), if r.slot.Some? then Some(Index(index, n)) else None))
      && Placed(s3) && s3.n == n && s3.mode && |s3.consumed| == Given(progress, f, index)
      && s3.published == s.published && s3.slots == s.slots
  {
    hide Index, Wrapped, Occupancy, IsFull, Dropped, SizeOf;
    var c := Given(progress, f, index);
    var d := c - |s.consumed|;
    PointersSuffice(index, |s.consumed|, n);
    ConsumePlaces(s, d);
    var s1 := R.Step(s, R.Consume(d));
    assert |s1.consumed| == c;
    var s2 := R.Step(s1, R.Header(f, Dropped(r.words[1], f), SizeOf(r.words)));
    PointersSuffice(index, c, n);
    ModHalf(index, n);
    assert Placed(s2);
    ClaimPlaces(s2);
  }

  lemma FiveMoves(s: R.State, r: FrameRead, f: nat, d: nat)
    requires |r.words| >= 2
    requires R.Enabled(s, R.Consume(d))
    requires var s1 := R.Step(s, R.Consume(d)); R.Enabled(s1, MovesOf(r, f, d)[1])
    requires var s2 := R.Step(R.Step(s, R.Consume(d)), MovesOf(r, f, d)[1]); R.Enabled(s2, R.Claim)
    requires var s3 := R.Step(R.Step(R.Step(s, R.Consume(d)), MovesOf(r, f, d)[1]), R.Claim);
      R.Enabled(s3, MovesOf(r, f, d)[3]) && R.Enabled(R.Step(s3, MovesOf(r, f, d)[3]), MovesOf(r, f, d)[4])
    ensures var s3 := R.Step(R.Step(R.Step(s, R.Consume(d)), MovesOf(r, f, d)[1]), R.Claim);
      R.Runs(s, MovesOf(r, f, d), R.Step(R.Step(s3, MovesOf(r, f, d)[3]), MovesOf(r, f, d)[4]))
  {
    hide R.Step, R.Enabled;
    var ms := MovesOf(r, f, d);
    var s1 := R.Step(s, ms[0]);
    var s2 := R.Step(s1, ms[1]);
    var s3 := R.Step(s2, ms[2]);
    var s4 := R.Step(s3, ms[3]);
    var s5 := R.Step(s4, ms[4]);
    assert R.Runs(s5, [], s5);
    assert ms[4..] == [ms[4]] && ms[4..][1..] == [];
    assert R.Runs(s4, ms[4..], s5);
    assert ms[3..][1..] == ms[4..];
    assert R.Runs(s3, ms[3..], s5);
    assert ms[2..][1..] == ms[3..];
    assert R.Runs(s2, ms[2..], s5);
    assert ms[1..][1..] == ms[2..];
    assert R.Runs(s1, ms[1..], s5);
  }

  function Stored(mem: map<nat, Word>, r: FrameRead, n: nat): map<nat, Word>
    requires n > 0
  {
    if r.slot.Some? then Poke(mem, Address(r.slot.value, n), r.words) else mem
  }

  /** The last two moves, from the claim on. */
  lemma Finishes(s3: R.State, mem: map<nat, Word>, frames: map<nat, seq<Word>>, r: FrameRead, n: nat, f: nat, index: nat,
                 progress: nat -> nat, count: nat)
    requires Met(r, f, index, RoomIn(n, Always(), progress)) && Placed(s3) && s3.n == n && s3.mode && |s3.published| == index
    requires s3.worker == R.Filling(f, SizeOf(r.words), if r.slot.Some? then Some(Index(index, n)) else None)
    requires Agrees(s3.slots, mem, frames) && Below(frames, f)
    ensures var ms := MovesOf(r, f, count);
      && R.Enabled(s3, ms[3])
      && var s4 := R.Step(s3, ms[3]);
      && R.Enabled(s4, ms[4])
      && var s5 := R.Step(s4, ms[4]);
      && Simulates(s5, Stored(mem, r, n), frames[f := r.words], n, f + 1, NextIndex(r, index))
      && s5.consumed == s3.consumed
      && s5.published == s3.published + if r.published then [R.Entry(f, Index(index, n))] else []
  {
    hide Index, Wrapped, Occupancy, IsFull, Dropped, SizeOf, Agrees, R.Stored, Poke;
    var ms := MovesOf(r, f, count);
    if r.slot.Some? {
      StoreAgrees(s3.slots, mem, frames, Index(index, n), if r.published then R.Whole(f) else R.Partial(f), f, r.words);
    } else {
      NothingStored(s3.slots, mem, frames, f, r.words);
    }
    StepPlaces(s3, ms[3]);
    StepPlaces(R.Step(s3, ms[3]), ms[4]);
  }

  lemma OneFrame(s: R.State, mem: map<nat, Word>, frames: map<nat, seq<Word>>, r: FrameRead, n: nat, f: nat, index: nat,
                 progress: nat -> nat) returns (ms: seq<R.Move>, s': R.State)
    requires n > 0 && Simulates(s, mem, frames, n, f, index) && Met(r, f, index, RoomIn(n, Always(), progress))
    requires |s.consumed| <= Given(progress, f, index) && index <= progress(f) + n
    ensures R.Runs(s, ms, s') && s'.published == s.published + if r.published then [R.Entry(f, Index(index, n))] else []
    ensures Simulates(s', Stored(mem, r, n), frames[f := r.words], n, f + 1, NextIndex(r, index))
    ensures |s'.consumed| == Given(progress, f, index) && NextIndex(r, index) <= progress(f) + n
    ensures R.AllWithin(ms, SizeOf(r.words))
  {
    hide Index, Wrapped, Occupancy, IsFull, Dropped, SizeOf, Agrees, R.Step, R.Enabled, Placed;
    var d := Given(progress, f, index) - |s.consumed|;
    Claims(s, r, n, f, index, progress);
    ms := MovesOf(r, f, d);
    var s3 := R.Step(R.Step(R.Step(s, R.Consume(d)), ms[1]), R.Claim);
    Finishes(s3, mem, frames, r, n, f, index, progress, d);
    FiveMoves(s, r, f, d);
    s' := R.Step(R.Step(s3, ms[3]), ms[4]);
  }

  // ---------------------------------------------------------------- whole streams

  /** The entries of the frames published, of which the first is frame number f. */
  function Entries(rs: seq<FrameRead>, f: nat, index: nat, n: nat): seq<R.Entry>
    requires n > 0
  {
    if rs == [] then []
    else (if rs[0].published then [R.Entry(f, Index(index, n))] else []) + Entries(rs[1..], f + 1, NextIndex(rs[0], index), n)
  }

  /** The words of the frames by their numbers. */
  function Numbered(frames: map<nat, seq<Word>>, rs: seq<FrameRead>, f: nat): map<nat, seq<Word>>
    decreases |rs|
  {
    if rs == [] then frames else Numbered(frames[f := rs[0].words], rs[1..], f + 1)
  }

  predicate AllSmall(rs: seq<FrameRead>, limit: nat) {
    forall r :: r in rs ==> r.words != [] && SizeOf(r.words) <= limit
  }

  lemma {:induction false} AllFrames(s: R.State, mem: map<nat, Word>, frames: map<nat, seq<Word>>, rs: seq<FrameRead>, n: nat,
                                     f: nat, index: nat, progress: nat -> nat) returns (ms: seq<R.Move>, s': R.State)
    requires n > 0 && Simulates(s, mem, frames, n, f, index) && AllMet(rs, f, index, RoomIn(n, Always(), progress))
    requires |s.consumed| <= Given(progress, f, index) && index <= progress(f) + n
    requires forall k: nat :: progress(k) <= progress(k + 1)
    ensures R.Runs(s, ms, s') && s'.published == s.published + Entries(rs, f, index, n)
    ensures Placed(s') && s'.n == n && Agrees(s'.slots, Memory(mem, rs, n), Numbered(frames, rs, f))
    ensures forall limit :: AllSmall(rs, limit) ==> R.AllWithin(ms, limit)
    decreases |rs|
  {
    hide Index, Agrees, R.Runs, Placed, Met, Poke, SizeOf;
    if rs == [] {
      ms, s' := [], s;
      assert R.Runs(s, [], s) by { Standstill(s); }
      assert s.published + [] == s.published;
    } else {
      var before, s1 := OneFrame(s, mem, frames, rs[0], n, f, index, progress);
      var more;
      more, s' := AllFrames(s1, Stored(mem, rs[0], n), frames[f := rs[0].words], rs[1..], n, f + 1, NextIndex(rs[0], index),
                            progress);
      RunsOn(s, before, s1, more, s');
      ms := before + more;
      forall limit | AllSmall(rs, limit) ensures R.AllWithin(ms, limit) {
        assert rs[0] in rs && forall r :: r in rs[1..] ==> r in rs;
        assert AllSmall(rs[1..], limit);
      }
    }
  }

  lemma Standstill(s: R.State)
    ensures R.Runs(s, [], s)
  {
  }

  lemma Started(n: nat, mem: map<nat, Word>)
    requires n > 0
    ensures R.Enabled(R.Fresh(n), R.Start(true))
    ensures var s := R.Step(R.Fresh(n), R.Start(true));
      Simulates(s, mem, map[], n, 0, 0) && Inv(s) && s.consumed == [] && s.published == []
  {
    StartIsSafe(R.Fresh(n), true);
  }

  /** For every stream and any progress of the consumer, the worker's frames are those of a run of the ring: the
      same are published, at the same indices, and where a slot has a whole frame, memory has its words, or
      as many as a slot has room for. If all frames have room in a slot, that holds for every frame that the
      consumer has not given back. */
  lemma WorkerIsRun(ws: seq<Word>, n: nat, progress: nat -> nat, mem: map<nat, Word>) returns (ms: seq<R.Move>, s: R.State)
    requires n > 0 && forall k: nat :: progress(k) <= progress(k + 1)
    ensures R.Runs(R.Step(R.Fresh(n), R.Start(true)), ms, s)
    ensures var rs := Reads(ws, true, 0, 0, RoomIn(n, Always(), progress));
      var mem', frames := Memory(mem, rs, n), Numbered(map[], rs, 0);
      && s.published == Entries(rs, 0, 0, n) && Agrees(s.slots, mem', frames)
      && (AllSmall(rs, MAX_FRAME_SIZE) ==>
            forall k :: |s.consumed| <= k < |s.published| ==>
              SlotAgrees(R.Whole(s.published[k].frame), Index(k, n), mem', frames))
  {
    hide R.Step, R.Runs, Inv, Reads, Memory, Entries, Numbered, RoomIn, AllSmall, R.AllWithin, Holds;
    var rs := Reads(ws, true, 0, 0, RoomIn(n, Always(), progress));
    var start := R.Step(R.Fresh(n), R.Start(true));
    Started(n, mem);
    ReadsMet(ws, true, 0, 0, RoomIn(n, Always(), progress));
    ms, s := AllFrames(start, mem, map[], rs, n, 0, 0, progress);
    assert start.published + Entries(rs, 0, 0, n) == Entries(rs, 0, 0, n);
    if AllSmall(rs, MAX_FRAME_SIZE) {
      RunKeeps(start, ms, s);
      forall k | |s.consumed| <= k < |s.published|
        ensures SlotAgrees(R.Whole(s.published[k].frame), Index(k, n), Memory(mem, rs, n), Numbered(map[], rs, 0))
      {
        WholeThere(s, k);
        assert SlotAgrees(s.slots[Index(k, n)], Index(k, n), Memory(mem, rs, n), Numbered(map[], rs, 0));
      }
    }
  }

  lemma WholeThere(s: R.State, k: nat)
    requires Inv(s) && |s.consumed| <= k < |s.published|
    ensures |s.slots| == s.n && s.slots[Index(k, s.n)] == R.Whole(s.published[k].frame)
  {
  }
}
