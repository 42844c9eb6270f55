/** The shared-memory ring between the daqd worker, which claims a slot under the lock, fills it without
    the lock and publishes it under the lock again, and the consumer, which reads and frees published
    slots (src/daqd/FrameServer.cpp, src/daqd/DAQFrameServer.cpp). Frames are numbered in the order the
    worker meets them. */
module FrameRing {
  import opened Options
  import opened WrapRing
  import opened SharedMemory

  datatype Slot = Blank | Partial(frame: nat) | Whole(frame: nat)

  /** A frame made visible to the consumer, and the slot it was claimed for. */
  datatype Entry = Entry(frame: nat, slot: nat)

  /** Where the worker stands in doWork; no slot means that the frame goes to devNull. */
  datatype Worker =
    | Reading                                   // before or inside a header
    | Decided(frame: nat, size: nat, keep: bool)        // has tested acquisitionMode and the lost-frame filter
    | Filling(frame: nat, size: nat, slot: Option<nat>) // has claimed a slot, or not
    | Filled(frame: nat, slot: Option<nat>)             // frame read completely and found consistent

  /** published and consumed record what happened since the pointers were last wiped. */
  datatype State = State(
    n: nat, wr: nat, rd: nat, mode: bool, slots: seq<Slot>, worker: Worker,
    published: seq<Entry>, consumed: seq<Slot>)

  datatype Move =
    | Header(frame: nat, drop: bool, size: nat)
    | Claim
    | Write(words: nat) // so many words of the frame have been stored
    | Complete
    | Bad
    | Publish
    | Consume(count: nat)
    | Wipe          // first half of startAcquisition, and stopAcquisition
    | Start(on: bool)   // second half of startAcquisition, with a mode that is not 0 or is

  predicate Shape(s: State) {
    && s.n > 0 && |s.slots| == s.n && s.wr < 2 * s.n && s.rd < 2 * s.n
    && (SlotOf(s.worker).Some? ==> SlotOf(s.worker).value < s.n)
  }

  /** The slot that the worker is filling or has filled. */
  function SlotOf(w: Worker): Option<nat> {
    match w
    case Filling(_, _, slot) => slot
    case Filled(_, slot) => slot
    case _ => None
  }

  predicate Enabled(s: State, m: Move) {
    && Shape(s)
    && match m
       case Header(_, _, size) => s.worker == Reading && size <= QUEUE_SIZE
       case Claim => s.worker.Decided?
       case Write(words) => s.worker.Filling? && words <= s.worker.size
       case Complete => s.worker.Filling?
       case Bad => s.worker.Filling?
       case Publish => s.worker.Filled?
       case Consume(count) => count <= Occupancy(s.wr, s.rd, s.n)
       case Wipe => true
       case Start(_) => true
  }

  /** The k-th slot from the read pointer on. */
  function WindowSlot(s: State, k: nat): (i: nat)
    requires s.n > 0
    ensures i < s.n
  {
    Index(s.rd + k, s.n)
  }

  /** What the consumer finds in count slots from rd on. */
  function Window(s: State, count: nat): seq<Slot>
    requires Shape(s)
  {
    seq(count, k requires 0 <= k < count => s.slots[WindowSlot(s, k)])
  }

  function Step(s: State, m: Move): State
    requires Enabled(s, m)
  {
    match m
    case Header(frame, drop, size) => s.(worker := Decided(frame, size, s.mode && !drop))
    case Claim =>
      var slot := if s.worker.keep && !IsFull(s.wr, s.rd, s.n) then Some(Index(s.wr, s.n)) else None;
      s.(worker := Filling(s.worker.frame, s.worker.size, slot))
    case Write(words) => Store(s, Partial(s.worker.frame), words)
    case Complete => Store(s, Whole(s.worker.frame), s.worker.size).(worker := Filled(s.worker.frame, s.worker.slot))
    case Bad => s.(worker := Reading)
    case Publish =>
      if s.worker.slot == None then s.(worker := Reading)
      else s.(worker := Reading, wr := Wrapped(s.wr + 1, s.n),
              published := s.published + [Entry(s.worker.frame, s.worker.slot.value)])
    case Consume(count) =>
      s.(rd := Wrapped(s.rd + count, s.n), consumed := s.consumed + Window(s, count))
    case Wipe => s.(wr := 0, rd := 0, mode := false, published := [], consumed := [])
    case Start(on) => s.(wr := 0, rd := 0, mode := on, published := [], consumed := [])
  }

  /** So many words of a frame, stored from the start of the claimed slot on. What does not fit runs into
      the slots behind it, and after the last slot out of the ring. */
  function Store(s: State, content: Slot, words: nat): State
    requires Shape(s) && s.worker.Filling?
  {
    match s.worker.slot
    case None => s
    case Some(i) => s.(slots := Stored(s.slots, i, content, s.worker.frame, words))
  }

  function Stored(slots: seq<Slot>, i: nat, content: Slot, frame: nat, words: nat): (r: seq<Slot>)
    requires i < |slots|
    ensures |r| == |slots|
  {
    seq(|slots|, j requires 0 <= j < |slots| =>
      if j == i then content else if i < j < i + Covered(words) then Partial(frame) else slots[j])
  }

  /** How many slots so many words reach into, at 2048 words a slot. */
  function Covered(words: nat): nat { (words + 2047) / 2048 }

  lemma CoversOne(words: nat)
    ensures Covered(words) <= 1 <==> words <= MAX_FRAME_SIZE
  {
  }

  predicate IsReset(m: Move) { m.Wipe? || m.Start? }

  ghost predicate Runs(s: State, ms: seq<Move>, s': State)
    decreases |ms|
  {
    if ms == [] then s' == s
    else Enabled(s, ms[0]) && !IsReset(ms[0]) && Runs(Step(s, ms[0]), ms[1..], s')
  }

  /** No frame met on the way is larger than limit. */
  predicate AllWithin(ms: seq<Move>, limit: nat) {
    forall k :: 0 <= k < |ms| && ms[k].Header? ==> ms[k].size <= limit
  }

  function Fresh(n: nat): State {
    State(n, 0, 0, false, seq(n, k => Blank), Reading, [], [])
  }

  // ---------------------------------------------------------------- the server object

  /** FrameServer: each method is what one thread does while it holds the lock. */
  class FrameServer {
    var dataFrameWritePointer: nat
    var dataFrameReadPointer: nat
    var acquisitionMode: int
    const dataFrameSharedMemory: array<Slot>
    ghost var worker: Worker
    ghost var published: seq<Entry>
    ghost var consumed: seq<Slot>

    ghost function View(): State
      reads this, dataFrameSharedMemory
    {
      State(dataFrameSharedMemory.Length, dataFrameWritePointer, dataFrameReadPointer, acquisitionMode != 0,
            dataFrameSharedMemory[..], worker, published, consumed)
    }

    constructor (maxRawDataFrameQueueSize: nat)
      requires maxRawDataFrameQueueSize > 0
      ensures View() == Fresh(maxRawDataFrameQueueSize)
      ensures dataFrameWritePointer == dataFrameReadPointer == 0 && acquisitionMode == 0
      ensures fresh(dataFrameSharedMemory)
    {
      dataFrameSharedMemory := new Slot[maxRawDataFrameQueueSize](k => Blank);
      dataFrameWritePointer, dataFrameReadPointer, acquisitionMode := 0, 0, 0;
      worker, published, consumed := Reading, [], [];
      new;
      assert dataFrameSharedMemory[..] == seq(maxRawDataFrameQueueSize, k => Blank);
    }

    method WipePointers()
      requires Shape(View())
      modifies this
      ensures View() == Step(old(View()), Wipe)
      ensures dataFrameWritePointer == dataFrameReadPointer == 0 && acquisitionMode == 0
    {
      dataFrameWritePointer := 0;
      dataFrameReadPointer := 0;
      acquisitionMode := 0;
      published, consumed := [], [];
    }

    method Restart(mode: int)
      requires Shape(View())
      modifies this
      ensures View() == Step(old(View()), Start(mode != 0))
      ensures dataFrameWritePointer == dataFrameReadPointer == 0 && acquisitionMode == mode
    {
      dataFrameWritePointer := 0;
      dataFrameReadPointer := 0;
      acquisitionMode := mode;
      published, consumed := [], [];
    }

    method ClaimSlot(keep: bool) returns (slot: Option<nat>)
      requires Enabled(View(), Claim) && worker.keep == keep
      modifies this`worker
      ensures View() == Step(old(View()), Claim) && worker.slot == slot
      ensures var wr, rd, n := dataFrameWritePointer, dataFrameReadPointer, dataFrameSharedMemory.Length;
        slot == if keep && (wr == rd || wr % n != rd % n) then Some(wr % n) else None
    {
      slot := None;
      if keep {
        if !IsFull(dataFrameWritePointer, dataFrameReadPointer, dataFrameSharedMemory.Length) {
          slot := Some(dataFrameWritePointer % dataFrameSharedMemory.Length);
        }
      }
      worker := Filling(worker.frame, worker.size, slot);
    }

    /** So many words of the frame have reached memory from the start of the claimed slot on. */
    method FillSlot(slot: nat, content: Slot, frame: nat, words: nat)
      requires Shape(View()) && worker.Filling? && worker.slot == Some(slot) && worker.frame == frame
      modifies dataFrameSharedMemory
      ensures View() == Store(old(View()), content, words)
    {
      var a := dataFrameSharedMemory;
      ghost var was := a[..];
      a[slot] := content;
      var j := slot + 1;
      while j < a.Length && j < slot + Covered(words)
        invariant slot < j <= a.Length
        invariant forall i :: slot < i < j ==> i < slot + Covered(words) && a[i] == Partial(frame)
        invariant a[slot] == content && forall i :: 0 <= i < slot || j <= i < a.Length ==> a[i] == was[i]
      {
        a[j] := Partial(frame);
        j := j + 1;
      }
      assert a[..] == Stored(was, slot, content, frame, words);
    }

    method PublishSlot()
      requires Enabled(View(), Publish) && worker.slot.Some?
      modifies this
      ensures View() == Step(old(View()), Publish)
      ensures dataFrameWritePointer == (old(dataFrameWritePointer) + 1) % (2 * dataFrameSharedMemory.Length)
    {
      dataFrameWritePointer := (dataFrameWritePointer + 1) % (2 * dataFrameSharedMemory.Length);
      published := published + [Entry(worker.frame, worker.slot.value)];
      worker := Reading;
    }

    /** The consumer moves the read pointer to ptr, which is count slots on. */
    method SetDataFrameReadPointer(ptr: nat, ghost count: nat)
      requires Enabled(View(), Consume(count))
      requires ptr % (2 * dataFrameSharedMemory.Length) == (dataFrameReadPointer + count) % (2 * dataFrameSharedMemory.Length)
      modifies this
      ensures View() == Step(old(View()), Consume(count))
      ensures dataFrameReadPointer == ptr % (2 * dataFrameSharedMemory.Length)
    {
      consumed := consumed + Window(View(), count);
      dataFrameReadPointer := ptr % (2 * dataFrameSharedMemory.Length);
    }
  }
}
