/** How a raw hit's times are rebuilt from the frame ID and the truncated counters of the event word
    (src/raw_data/RawReader.cpp:274-300). */
module HitTimes {
  import opened RawFrames
  import opened Events

  /** A hit word; times in clock cycles from base on. */
  function HitOf(word: nat, frameID: nat, base: int): RawHit {
    var e := Decode(word);
    var t1 := frameID * 1024 + e.t1coarse;
    RawHit(true, t1 - base, Later(t1, e.t2coarse) - base, Later(t1, e.qcoarse) - base, Earlier(t1, e.prevTime) - base,
           e.prevFlags, ChannelID(word), e.tac, e.t1fine, e.t2fine, e.qfine)
  }

  /** Puts a 10-bit counter in the place of t1's low bits; if that is before t1, takes the next turn. */
  function Later(t1: nat, coarse: nat): int {
    var t := t1 / 1024 * 1024 + coarse;
    if t < t1 then t + 1024 else t
  }

  /** The same for the previous event's time, which counts four cycles and comes before t1. */
  function Earlier(t1: nat, prev: nat): int {
    var t := t1 / 4096 * 4096 + 4 * prev;
    if t >= t1 then t - 4096 else t
  }

  /** The end time is the only one within a turn of the counter from t1 on that has the counter's value. */
  lemma LaterUnique(t1: nat, coarse: nat, t: int)
    requires coarse < 1024
    ensures t1 <= t < t1 + 1024 && t % 1024 == coarse <==> t == Later(t1, coarse)
  {
  }

  lemma EarlierUnique(t1: nat, prev: nat, t: int)
    requires prev < 1024
    ensures t1 - 4096 <= t < t1 && t % 4096 == 4 * prev <==> t == Earlier(t1, prev)
  {
  }

  /** Hits of later frames are not in earlier ones' time: each starts within its frame's 1024 cycles. */
  lemma TimeInFrame(word: nat, frameID: nat, base: int)
    ensures frameID * 1024 <= HitOf(word, frameID, base).time + base < (frameID + 1) * 1024
  {
  }

  /** Hits whose true times are within a turn of the counters are read back with those times. */
  lemma TimesComeBack(t1: nat, t2: int, tq: int, tp: int, word: nat, frameID: nat, base: int)
    requires Decode(word).t1coarse == t1 % 1024 && frameID == t1 / 1024
    requires Decode(word).t2coarse == t2 % 1024 && t1 <= t2 < t1 + 1024
    requires Decode(word).qcoarse == tq % 1024 && t1 <= tq < t1 + 1024
    requires 4 * Decode(word).prevTime == tp % 4096 && t1 - 4096 <= tp < t1
    ensures var h := HitOf(word, frameID, base);
      h.time == t1 - base && h.timeEnd == t2 - base && h.timeEndQ == tq - base && h.prevEventTime == tp - base
  {
    hide Decode, ChannelID, Later, Earlier;
    LaterUnique(t1, t2 % 1024, t2);
    LaterUnique(t1, tq % 1024, tq);
    EarlierUnique(t1, Decode(word).prevTime, tp);
  }

  /** Adds to all times of a hit. */
  function Delayed(h: RawHit, d: int): RawHit {
    h.(time := h.time + d, timeEnd := h.timeEnd + d, timeEndQ := h.timeEndQ + d, prevEventTime := h.prevEventTime + d)
  }

  /** The base only moves the times. */
  lemma BaseShifts(word: nat, frameID: nat, base: int)
    ensures Delayed(HitOf(word, frameID, base), base) == HitOf(word, frameID, 0)
  {
  }
}
