/** What a reader hands on of the frames of a step: buffers of hits, each with a time base of its own
    (src/raw_data/RawReader.cpp:240-309). */
module RawBatches {
  import opened ByteWords
  import opened RawFrames
  import opened RawRecords
  import opened Events
  import opened HitTimes

  const OUT_BLOCK_SIZE := 4096
  const MAX_SPAN := 0x1_0000_0000

  /** A buffer as it was pushed to the sink. */
  datatype Batch = Batch(tMin: int, tMax: int, hits: seq<RawHit>)

  /** The events of a frame. */
  function FrameHits(f: RawFrame, base: int): (hits: seq<RawHit>)
    requires WellFormed(f)
    ensures |hits| == NEvents(f)
  {
    seq(NEvents(f), i requires 0 <= i < NEvents(f) => HitOf(FrameEvent(f, i), FrameID(f), base))
  }

  /** The events of some frames, in file order. */
  function FileHits(frames: seq<RawFrame>, base: int): seq<RawHit>
    requires AllWellFormed(frames)
  {
    if frames == [] then []
    else FileHits(frames[..|frames| - 1], base) + FrameHits(frames[|frames| - 1], base)
  }

  function DelayedAll(hits: seq<RawHit>, d: int): (r: seq<RawHit>)
    ensures |r| == |hits|
  {
    seq(|hits|, i requires 0 <= i < |hits| => Delayed(hits[i], d))
  }

  /** All hits of the buffers, with the buffers' time bases added back. */
  function SinkHits(batches: seq<Batch>): seq<RawHit> {
    if batches == [] then []
    else var b := batches[|batches| - 1];
      SinkHits(batches[..|batches| - 1]) + DelayedAll(b.hits, b.tMin)
  }

  predicate NonDecreasing(frames: seq<RawFrame>)
    requires AllWellFormed(frames)
  {
    forall i, j :: 0 <= i < j < |frames| ==> FrameID(frames[i]) <= FrameID(frames[j])
  }

  lemma NotBefore(frames: seq<RawFrame>, k: nat)
    requires AllWellFormed(frames) && NonDecreasing(frames) && 0 < k < |frames|
    ensures FrameID(frames[k - 1]) <= FrameID(frames[k])
  {
  }

  predicate FitsBlock(b: Batch) { 0 < |b.hits| <= 4096 }

  /** All times are from its start on and before its end, and these are not too far apart. */
  predicate Timely(b: Batch) {
    && b.tMax - b.tMin <= (0x1_0000_0000 + 1) * 1024
    && forall i :: 0 <= i < |b.hits| ==> 0 <= b.hits[i].time < b.tMax - b.tMin
  }

  lemma SnocFileHits(frames: seq<RawFrame>, f: RawFrame, base: int)
    requires AllWellFormed(frames) && WellFormed(f)
    ensures AllWellFormed(frames + [f]) && FileHits(frames + [f], base) == FileHits(frames, base) + FrameHits(f, base)
  {
    assert (frames + [f])[..|frames|] == frames;
  }

  lemma FrameHitsShift(f: RawFrame, base: int)
    requires WellFormed(f)
    ensures DelayedAll(FrameHits(f, base), base) == FrameHits(f, 0)
  {
    forall i | 0 <= i < NEvents(f)
      ensures Delayed(HitOf(FrameEvent(f, i), FrameID(f), base), base) == HitOf(FrameEvent(f, i), FrameID(f), 0)
    {
      BaseShifts(FrameEvent(f, i), FrameID(f), base);
    }
  }

  lemma NextHit(f: RawFrame, base: int, i: nat)
    requires WellFormed(f) && i < NEvents(f)
    ensures FrameHits(f, base)[..i + 1]
         == FrameHits(f, base)[..i] + [HitOf(FrameEvent(f, i), FrameID(f), base)]
  {
  }

  lemma DelayedConcat(a: seq<RawHit>, b: seq<RawHit>, d: int)
    ensures DelayedAll(a + b, d) == DelayedAll(a, d) + DelayedAll(b, d)
  {
  }

  /** The buffers pushed so far and the hits in the open one are those of the frames done. */
  ghost predicate Delivered(done: seq<RawFrame>, sink: seq<Batch>, hits: seq<RawHit>, base: int) {
    AllWellFormed(done) && SinkHits(sink) + DelayedAll(hits, base) == FileHits(done, 0)
  }

  lemma DeliveredFrame(done: seq<RawFrame>, f: RawFrame, sink: seq<Batch>, hits: seq<RawHit>, base: int)
    requires Delivered(done, sink, hits, base) && WellFormed(f)
    ensures Delivered(done + [f], sink, hits + FrameHits(f, base), base)
  {
    SnocFileHits(done, f, 0);
    FrameHitsShift(f, base);
    DelayedConcat(hits, FrameHits(f, base), base);
  }

  lemma DeliveredNothing(done: seq<RawFrame>, f: RawFrame, sink: seq<Batch>, hits: seq<RawHit>, base: int)
    requires Delivered(done, sink, hits, base) && WellFormed(f) && NEvents(f) == 0
    ensures Delivered(done + [f], sink, hits, base)
  {
    SnocFileHits(done, f, 0);
    assert FrameHits(f, 0) == [];
  }

  lemma NothingDelivered()
    ensures Delivered([], [], [], 0)
  {
  }

  lemma DeliveredAll(done: seq<RawFrame>, sink: seq<Batch>)
    requires Delivered(done, sink, [], 0)
    ensures AllWellFormed(done) && SinkHits(sink) == FileHits(done, 0)
  {
    assert DelayedAll([], 0) == [];
  }

  lemma AnyBase(done: seq<RawFrame>, sink: seq<Batch>, base: int)
    requires Delivered(done, sink, [], 0)
    ensures Delivered(done, sink, [], base)
  {
  }

  lemma DeliveredPush(done: seq<RawFrame>, sink: seq<Batch>, hits: seq<RawHit>, base: int, tMax: int, base': int)
    requires Delivered(done, sink, hits, base)
    ensures Delivered(done, sink + [Batch(base, tMax, hits)], [], base')
  {
    assert (sink + [Batch(base, tMax, hits)])[..|sink|] == sink;
  }

  /** Buffers within their limits, and timely ones if the frames come in order. */
  predicate GoodBatches(sink: seq<Batch>, ordered: bool) {
    forall i :: 0 <= i < |sink| ==> FitsBlock(sink[i]) && (ordered ==> Timely(sink[i]))
  }

  /** The open buffer, of frames from first to last. */
  ghost predicate Open(hits: seq<RawHit>, first: nat, last: nat, ordered: bool) {
    && 0 < |hits| <= OUT_BLOCK_SIZE
    && (ordered ==> InOrder(hits, first, last))
  }

  ghost predicate InOrder(hits: seq<RawHit>, first: nat, last: nat) {
    && first <= last <= first + MAX_SPAN
    && forall i :: 0 <= i < |hits| ==> 0 <= hits[i].time < (last + 1 - first) * 1024
  }

  lemma OpenMore(hits: seq<RawHit>, first: nat, last: nat, f: RawFrame, ordered: bool)
    requires WellFormed(f) && NEvents(f) > 0 && FrameID(f) <= first + MAX_SPAN
    requires |hits| + NEvents(f) <= OUT_BLOCK_SIZE
    requires hits == [] || (ordered ==> InOrder(hits, first, last) && last <= FrameID(f))
    requires ordered ==> first <= FrameID(f)
    ensures Open(hits + FrameHits(f, first * 1024), first, FrameID(f), ordered)
  {
    if ordered {
      InOrderMore(hits, first, last, f);
    }
  }

  lemma InOrderMore(hits: seq<RawHit>, first: nat, last: nat, f: RawFrame)
    requires WellFormed(f) && first <= FrameID(f) <= first + MAX_SPAN
    requires hits == [] || (InOrder(hits, first, last) && last <= FrameID(f))
    ensures InOrder(hits + FrameHits(f, first * 1024), first, FrameID(f))
  {
    var more := FrameHits(f, first * 1024);
    forall i | 0 <= i < |more| ensures 0 <= more[i].time < (FrameID(f) + 1 - first) * 1024 {
      TimeInFrame(FrameEvent(f, i), FrameID(f), first * 1024);
    }
    hide FrameHits, FrameID, NEvents;
  }

  lemma OpenIsGood(sink: seq<Batch>, hits: seq<RawHit>, first: nat, last: nat, ordered: bool)
    requires GoodBatches(sink, ordered) && Open(hits, first, last, ordered)
    ensures GoodBatches(sink + [Batch(first * 1024, (last + 1) * 1024, hits)], ordered)
  {
  }

  // ---------------------------------------------------------------- the events that the words carry

  /** Of each event of some frames, in file order: the frame's ID, and its two words. */
  datatype Source = Source(id: nat, high: Word, low: Word)

  function Sources(frames: seq<RawFrame>): seq<Source> {
    if frames == [] then []
    else
      var f := frames[|frames| - 1];
      Sources(frames[..|frames| - 1])
      + if |f| < 2 then []
        else seq((|f| - 2) / 2, i requires 0 <= i < (|f| - 2) / 2 => Source(f[0] % 0x10_0000_0000, f[2 + 2 * i], f[3 + 2 * i]))
  }

  /** A hit as it comes out, with the time base of its buffer. */
  datatype Tagged = Tagged(tMin: int, hit: RawHit)

  function AllTagged(sink: seq<Batch>): seq<Tagged> {
    if sink == [] then []
    else
      var b := sink[|sink| - 1];
      AllTagged(sink[..|sink| - 1]) + seq(|b.hits|, i requires 0 <= i < |b.hits| => Tagged(b.tMin, b.hits[i]))
  }

  /** The hit is that event: it has its fields, and with the time base added its times, which are those within a
      turn of the counters from the first one on, or before it, that have the counters' values. */
  predicate IsEvent(t: Tagged, id: nat, e: Event) {
    var hit, t1 := t.hit, id * 1024 + e.t1coarse;
    && hit.valid && hit.channelID == 32 * e.asic + e.channel && hit.tacID == e.tac
    && hit.t1fine == e.t1fine && hit.t2fine == e.t2fine && hit.qfine == e.qfine && hit.prevEventFlags == e.prevFlags
    && hit.time + t.tMin == t1
    && t1 <= hit.timeEnd + t.tMin < t1 + 1024 && (hit.timeEnd + t.tMin) % 1024 == e.t2coarse
    && t1 <= hit.timeEndQ + t.tMin < t1 + 1024 && (hit.timeEndQ + t.tMin) % 1024 == e.qcoarse
    && t1 - 4096 <= hit.prevEventTime + t.tMin < t1 && (hit.prevEventTime + t.tMin) % 4096 == 4 * e.prevTime
  }

  /** The hits that come out are, one for one, the events that the words of the frames carry. */
  ghost predicate EventsOut(frames: seq<RawFrame>, sink: seq<Batch>) {
    var sources, hits := Sources(frames), AllTagged(sink);
    |hits| == |sources| && forall k :: 0 <= k < |hits| ==> EventOut(hits[k], sources[k])
  }

  ghost predicate EventOut(t: Tagged, s: Source) {
    forall e: Event :: Carries(e, s.high, s.low) ==> IsEvent(t, s.id, e)
  }

  /** The times that a hit gets from the counters. */
  lemma TimesOfHit(t1: nat, e: Event)
    requires e.t2coarse < 1024 && e.qcoarse < 1024 && e.prevTime < 1024
    ensures var t2 := Later(t1, e.t2coarse); t1 <= t2 < t1 + 1024 && t2 % 1024 == e.t2coarse
    ensures var tq := Later(t1, e.qcoarse); t1 <= tq < t1 + 1024 && tq % 1024 == e.qcoarse
    ensures var tp := Earlier(t1, e.prevTime); t1 - 4096 <= tp < t1 && tp % 4096 == 4 * e.prevTime
  {
    LaterUnique(t1, e.t2coarse, Later(t1, e.t2coarse));
    LaterUnique(t1, e.qcoarse, Later(t1, e.qcoarse));
    EarlierUnique(t1, e.prevTime, Earlier(t1, e.prevTime));
    hide Later, Earlier;
  }

  lemma HitIsEvent(s: Source, t: Tagged)
    requires Delayed(t.hit, t.tMin) == HitOf(EventWord(s.high, s.low), s.id, 0)
    ensures EventOut(t, s)
  {
    hide Decode, EventWord, Carries, ChannelID, Later, Earlier;
    forall e: Event | Carries(e, s.high, s.low) ensures IsEvent(t, s.id, e) {
      EventRoundTrip(e, s.high, s.low);
      CarriesInRange(e, s.high, s.low);
      TimesOfHit(s.id * 1024 + e.t1coarse, e);
    }
  }

  lemma CarriesInRange(e: Event, high: Word, low: Word)
    requires Carries(e, high, low)
    ensures InRange(e)
  {
  }

  /** The hits of a frame are made from its words. */
  predicate FromWords(hits: seq<RawHit>, sources: seq<Source>) {
    |hits| == |sources|
    && forall k :: 0 <= k < |hits| ==> hits[k] == HitOf(EventWord(sources[k].high, sources[k].low), sources[k].id, 0)
  }

  lemma {:induction false} FileHitsFrom(frames: seq<RawFrame>)
    requires AllWellFormed(frames)
    ensures FromWords(FileHits(frames, 0), Sources(frames))
  {
    hide HitOf, EventWord, FrameSize;
    if frames != [] {
      FileHitsFrom(frames[..|frames| - 1]);
    }
  }

  lemma {:induction false} TaggedHits(sink: seq<Batch>)
    ensures |AllTagged(sink)| == |SinkHits(sink)|
    ensures forall k :: 0 <= k < |AllTagged(sink)| ==>
                    Delayed(AllTagged(sink)[k].hit, AllTagged(sink)[k].tMin) == SinkHits(sink)[k]
  {
    hide Delayed;
    if sink != [] {
      TaggedHits(sink[..|sink| - 1]);
    }
  }

  lemma AllEventsOut(frames: seq<RawFrame>, sink: seq<Batch>)
    requires AllWellFormed(frames) && SinkHits(sink) == FileHits(frames, 0)
    ensures EventsOut(frames, sink)
  {
    hide FileHits, SinkHits, Delayed, HitOf, EventOut, Sources, AllTagged;
    FileHitsFrom(frames);
    TaggedHits(sink);
    forall k | 0 <= k < |AllTagged(sink)| ensures EventOut(AllTagged(sink)[k], Sources(frames)[k]) {
      HitIsEvent(Sources(frames)[k], AllTagged(sink)[k]);
    }
  }
}
