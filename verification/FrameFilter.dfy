/** Which frames the worker publishes, in terms of the words that the card sends: the filter that lets one in 128
    of the frames through that lost all their events (src/daqd/DAQFrameServer.cpp:226-275). */
module FrameFilter {
  import opened Arithmetic
  import opened ByteWords
  import opened FrameParser
  import opened FrameStream

  /** Bits 36 to 50 of the first word are the number of words, the low 16 bits of the second that of events. */
  predicate CardFrame(frame: seq<Word>) {
    && 2 <= |frame| <= 2048
    && frame[0] / 0x10_0000_0000 % 0x8000 == |frame|
    && frame[1] % 0x1_0000 == |frame| - 2
  }

  predicate AllCardFrames(units: seq<Unit>) { forall k :: 0 <= k < |units| ==> CardFrame(units[k].frame) }

  /** The words on the wire: idle words, a header word, the frame, a trailer word. */
  function Wire(units: seq<Unit>): seq<Word> {
    if units == [] then []
    else
      seq(units[0].idles, k => 0xFFFF_FFFF_FFFF_FFFF) + [0xFFFF_FFFF_FFFF_FFF5] + units[0].frame + [0xFFFF_FFFF_FFFF_FFFA]
      + Wire(units[1..])
  }

  /** The frames that are to be published, the first being frame number n: those with events, those not marked
      as lost by bit 16, and of the others those whose number is a multiple of 128. */
  function Kept(units: seq<Unit>, n: nat): seq<seq<Word>> {
    if units == [] then []
    else
      var frame := units[0].frame;
      (if |frame| >= 2 && (frame[1] % 0x1_0000 != 0 || frame[1] / 0x1_0000 % 2 == 0 || n % 128 == 0) then [frame] else [])
      + Kept(units[1..], n + 1)
  }

  lemma {:induction false} WireIsStream(units: seq<Unit>)
    ensures Wire(units) == Stream(units)
  {
    if units != [] {
      WireIsStream(units[1..]);
    }
  }

  lemma CardFramesSized(units: seq<Unit>)
    requires AllCardFrames(units)
    ensures AllSized(units) && AllFit(units)
  {
  }

  /** So many frames find a slot, whichever of them are published. */
  ghost predicate RoomForAll(room: Room, frameCount: nat, index: nat, count: nat) {
    forall f: nat, i: nat :: frameCount <= f < frameCount + count && index <= i <= index + f - frameCount ==> room(f, i)
  }

  lemma RoomForRest(room: Room, frameCount: nat, index: nat, count: nat, index': nat)
    requires RoomForAll(room, frameCount, index, count) && count > 0 && index <= index' <= index + 1
    ensures room(frameCount, index) && RoomForAll(room, frameCount + 1, index', count - 1)
  {
  }

  lemma {:induction false} ReceivedKept(units: seq<Unit>, frameCount: nat, index: nat, room: Room)
    requires AllSized(units) && RoomForAll(room, frameCount, index, |units|)
    ensures Published(Received(units, frameCount, index, room)) == Kept(units, frameCount)
  {
    if units != [] {
      hide RoomForAll;
      var slot := Slot(units[0].frame[1], frameCount, index, room);
      var index' := if slot.Some? then index + 1 else index;
      RoomForRest(room, frameCount, index, |units|, index');
      ReceivedKept(units[1..], frameCount + 1, index', room);
      PublishedCons(FrameRead(slot, units[0].frame, slot.Some?), Received(units[1..], frameCount + 1, index', room));
    }
  }

  /** From the bad state, after any words up to an idle one, the frames published are exactly those, in order,
      as long as there is room in the ring. */
  lemma PublishesKept(noise: seq<Word>, units: seq<Unit>, frameCount: nat, index: nat, room: Room)
    requires 0xFFFF_FFFF_FFFF_FFFF !in noise && AllCardFrames(units) && RoomForAll(room, frameCount, index, |units|)
    ensures Published(Reads(noise + [0xFFFF_FFFF_FFFF_FFFF] + Wire(units), true, frameCount, index, room))
         == Kept(units, frameCount)
  {
    hide Reads, Received, Published, RoomForAll, Wire, Stream, Kept, AllFit, AllInSlot;
    WireIsStream(units);
    CardFramesSized(units);
    StoresStayIff(noise, units, frameCount, index, room);
    ReceivedKept(units, frameCount, index, room);
  }

  /** The words are in the k-th slot. */
  predicate InSlotOf2048(mem: map<nat, Word>, k: nat, ws: seq<Word>) {
    forall a :: 0 <= a < |ws| ==> k * 2048 + a in mem && mem[k * 2048 + a] == ws[a]
  }

  /** The worker on an empty ring with acquisition on, and no more frames than slots: when it has read such a
      stream, the k-th frame to be published is in the k-th slot of 2048 words, whole. */
  method ReadKept(server: DAQFrameServer, noise: seq<Word>, units: seq<Unit>)
    requires server.Valid() && server.index == 0 && |units| <= server.n
    requires 0xFFFF_FFFF_FFFF_FFFF !in noise && AllCardFrames(units)
    modifies server
    ensures server.index == |Kept(units, 0)|
    ensures forall k :: 0 <= k < |Kept(units, 0)| ==> InSlotOf2048(server.dataFrameSharedMemory, k, Kept(units, 0)[k])
  {
    hide Received, Published, WholeAt, RoomForAll, Kept, AllFit, AllSized, AllCardFrames;
    CardFramesSized(units);
    var mode, progress: nat -> nat := f => true, f => 0;
    ghost var room := RoomIn(server.n, mode, progress);
    RoomInRing(server.n, mode, progress, |units|);
    ReceivedKept(units, 0, 0, room);
    ghost var rs := ReadSent(server, noise, units, mode, progress, 0);
    KeptFits(units, 0);
    assert Published(rs) == Kept(units, 0);
    forall k | 0 <= k < |Kept(units, 0)| ensures InSlotOf2048(server.dataFrameSharedMemory, k, Kept(units, 0)[k]) {
      assert WholeAt(server.dataFrameSharedMemory, rs, server.n, 0, k);
      SlotOfFrame(server.dataFrameSharedMemory, rs, server.n, k);
    }
  }

  lemma RoomInRing(n: nat, mode: nat -> bool, progress: nat -> nat, count: nat)
    requires count <= n && forall f: nat :: mode(f)
    ensures RoomForAll(RoomIn(n, mode, progress), 0, 0, count)
  {
  }

  lemma {:induction false} KeptFits(units: seq<Unit>, n: nat)
    ensures |Kept(units, n)| <= |units|
  {
    if units != [] {
      KeptFits(units[1..], n + 1);
    }
  }

  lemma SlotOfFrame(mem: map<nat, Word>, rs: seq<FrameRead>, n: nat, k: nat)
    requires 0 < n && k < n && k < |Published(rs)| && WholeAt(mem, rs, n, 0, k)
    ensures InSlotOf2048(mem, k, Published(rs)[k])
  {
    hide Published;
    DivUnique(k, n, 0, k);
    assert Address(0 + k, n) == k * 2048;
    var ws := Published(rs)[k];
    forall a | 0 <= a < |ws| ensures k * 2048 + a in mem && mem[k * 2048 + a] == ws[a] {
      assert k * 2048 <= k * 2048 + a < k * 2048 + |ws|;
    }
  }

  // ---------------------------------------------------------------- one in 128

  /** The card lost all events of the frame. */
  predicate Empty(u: Unit) {
    |u.frame| >= 2 && u.frame[1] % 0x1_0000 == 0 && u.frame[1] / 0x1_0000 % 2 == 1
  }

  lemma {:induction false} KeptConcat(a: seq<Unit>, b: seq<Unit>, n: nat)
    ensures Kept(a + b, n) == Kept(a, n) + Kept(b, n + |a|)
  {
    if a == [] {
      assert a + b == b;
    } else {
      assert (a + b)[1..] == a[1..] + b;
      KeptConcat(a[1..], b, n + 1);
    }
  }

  predicate HasTurn(n: nat) { n % 128 == 0 }

  lemma {:induction false} NoneKept(units: seq<Unit>, n: nat)
    requires forall k :: 0 <= k < |units| ==> Empty(units[k])
    requires forall f: nat :: n <= f < n + |units| ==> !HasTurn(f)
    ensures Kept(units, n) == []
  {
    if units != [] {
      assert !HasTurn(n);
      NoneKept(units[1..], n + 1);
    }
  }

  /** One of 128 successive numbers is a multiple. */
  lemma NextTurn(n: nat) returns (j: nat)
    ensures j < 128 && forall f: nat :: n <= f < n + 128 ==> (HasTurn(f) <==> f == n + j)
  {
    j := if n % 128 == 0 then 0 else 128 - n % 128;
    forall f: nat | n <= f < n + 128 ensures HasTurn(f) <==> f == n + j {
    }
  }

  /** Of any 128 successive frames that lost all their events exactly one is published: the one whose number is
      a multiple of 128. */
  lemma OneInRun(units: seq<Unit>, n: nat) returns (j: nat)
    requires |units| == 128 && forall k :: 0 <= k < |units| ==> Empty(units[k])
    ensures j < 128 && HasTurn(n + j) && Kept(units, n) == [units[j].frame]
  {
    j := NextTurn(n);
    assert HasTurn(n + j);
    hide HasTurn, Kept, Empty;
    var before, after := units[..j], units[j + 1..];
    CutAt(units, j);
    KeptAround(before, units[j], after, n);
    NoneKept(before, n);
    NoneKept(after, n + |before| + 1);
    OneKept(units[j], n + |before|);
  }

  lemma KeptAround(before: seq<Unit>, u: Unit, after: seq<Unit>, n: nat)
    ensures Kept(before + ([u] + after), n)
         == Kept(before, n) + (Kept([u], n + |before|) + Kept(after, n + |before| + 1))
  {
    hide Kept;
    KeptConcat(before, [u] + after, n);
    KeptConcat([u], after, n + |before|);
  }

  lemma CutAt(units: seq<Unit>, j: nat)
    requires j < |units|
    ensures units == units[..j] + ([units[j]] + units[j + 1..])
  {
  }

  lemma OneKept(u: Unit, n: nat)
    requires Empty(u) && HasTurn(n)
    ensures Kept([u], n) == [u.frame]
  {
    assert [u][1..] == [];
  }

  /** So it is wherever they come in a stream. */
  lemma OneIn128(before: seq<Unit>, run: seq<Unit>, after: seq<Unit>, n: nat) returns (j: nat)
    requires |run| == 128 && forall k :: 0 <= k < |run| ==> Empty(run[k])
    ensures j < 128 && HasTurn(n + |before| + j)
    ensures Kept(before + run + after, n) == Kept(before, n) + [run[j].frame] + Kept(after, n + |before| + 128)
  {
    j := OneInRun(run, n + |before|);
    KeptConcat(before + run, after, n);
    KeptConcat(before, run, n);
  }
}
