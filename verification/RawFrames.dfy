/** Raw data frames and event words as they lie in shared memory and in the raw file
    (src/raw_data/shm_raw.hpp, src/raw_data/event_decode.hpp). Shifts and masks are written as divisions
    and remainders. */
module RawFrames {
  import opened Arithmetic
  import opened ByteWords

  /** A frame: two header words and two words for each event. */
  type RawFrame = seq<Word>

  const ID_SPAN := 0x10_0000_0000

  function FrameSize(f: RawFrame): nat
    requires |f| >= 2
  {
    f[0] / ID_SPAN % 0x8000
  }

  function FrameID(f: RawFrame): (id: nat)
    requires |f| >= 2
    ensures id < ID_SPAN
  {
    f[0] % ID_SPAN
  }

  /** Any of bits 15 and 16. */
  predicate FrameLost(f: RawFrame)
    requires |f| >= 2
  {
    f[1] / 0x8000 % 4 != 0
  }

  function NEvents(f: RawFrame): nat
    requires |f| >= 2
  {
    f[1] % 0x8000 / 2
  }

  function Payload(f: RawFrame): seq<Word>
    requires |f| >= 2
  {
    f[2..]
  }

  /** The length agrees with both counts in the header. */
  predicate WellFormed(f: RawFrame) {
    |f| >= 2 && |f| == FrameSize(f) == 2 + 2 * NEvents(f)
  }

  /** The fields of the two header words: 36 bits of ID, 15 of size and 13 spare ones; 15 bits of twice the number
      of events, two loss marks and 47 spare ones. */
  lemma HeaderRoundTrip(f: RawFrame, id: nat, size: nat, spare: nat, twice: nat, lost: nat, spare': nat)
    requires |f| >= 2 && id < 0x10_0000_0000 && size < 0x8000 && twice < 0x8000 && lost < 4
    requires f[0] == spare * 0x8_0000_0000_0000 + size * 0x10_0000_0000 + id
    requires f[1] == spare' * 0x2_0000 + lost * 0x8000 + twice
    ensures FrameID(f) == id && FrameSize(f) == size && NEvents(f) == twice / 2 && (FrameLost(f) <==> lost != 0)
    ensures Payload(f) == f[2..]
    ensures WellFormed(f) <==> |f| == size == 2 + twice / 2 * 2
  {
    DivUnique(f[0], 0x10_0000_0000, spare * 0x8000 + size, id);
    DivUnique(spare * 0x8000 + size, 0x8000, spare, size);
    DivUnique(f[1], 0x8000, spare' * 4 + lost, twice);
    DivUnique(spare' * 4 + lost, 4, spare', lost);
  }

  // ---------------------------------------------------------------- event words

  /** The fields of an event, with their widths in bits. */
  datatype Event = Event(
    asic: nat,       // 15: 10 of port and slave, 5 of the chip
    t1coarse: nat, t2coarse: nat, qcoarse: nat, qfine: nat, t2fine: nat, t1fine: nat, prevTime: nat, // 10 each
    prevFlags: nat,  // 4
    tac: nat,        // 3
    channel: nat)    // 5

  predicate InRange(e: Event) {
    && e.asic < 0x8000 && e.t1coarse < 1024 && e.t2coarse < 1024 && e.qcoarse < 1024 && e.qfine < 1024
    && e.t2fine < 1024 && e.t1fine < 1024 && e.prevTime < 1024 && e.prevFlags < 16 && e.tac < 8 && e.channel < 32
  }

  const HALF := 0x1000_0000_0000 // 2 to the 44th

  /** getEventWord: ten bits of the upper word, then 44 bits of each. */
  function EventWord(high: Word, low: Word): nat {
    (high / 0x40_0000_0000_0000 * HALF + high % HALF) * HALF + low % HALF
  }

  /** Bits lo and up of a word, width of them; b is 2 to the lo and w is 2 to the width. */
  function Bits(word: nat, b: nat, w: nat): nat
    requires b > 0 && w > 0
  {
    word / b % w
  }

  /** What the getters of RawEventWord return; the channel number joins asic and channel. */
  function Decode(word: nat): Event {
    Event(word / 0x8_0000_0000_0000_0000_0000,
          Bits(word, 0x200_0000_0000_0000_0000, 1024),
          Bits(word, 0x8000_0000_0000_0000, 1024),
          Bits(word, 0x20_0000_0000_0000, 1024),
          Bits(word, 0x800_0000_0000, 1024),
          Bits(word, 0x2_0000_0000, 1024),
          Bits(word, 0x80_0000, 1024),
          Bits(word, 0x2000, 1024),
          Bits(word, 0x100, 16),
          Bits(word, 0x20, 8),
          word % 32)
  }

  function ChannelID(word: nat): nat { word / 0x8_0000_0000_0000_0000_0000 * 32 + word % 32 }

  /** Puts one more field above those below. */
  function Above(field: nat, b: nat, below: nat): nat { field * b + below }

  /** The fields up to qfine's lowest bit, 44 bits: what the lower word carries. Bit 12 belongs to no field. */
  function PackLow(e: Event, bit12: nat): nat {
    Above(e.qfine % 2, 0x800_0000_0000, Above(e.t2fine, 0x2_0000_0000, Above(e.t1fine, 0x80_0000,
      Above(e.prevTime, 0x2000, Above(bit12, 0x1000, Above(e.prevFlags, 0x100, Above(e.tac, 0x20, e.channel)))))))
  }

  /** The fields from the rest of qfine on, 44 bits without the upper ten bits of the ASIC number. */
  function PackHigh(e: Event): nat {
    Above(e.asic % 32, 0x80_0000_0000, Above(e.t1coarse, 0x2000_0000,
      Above(e.t2coarse, 0x8_0000, Above(e.qcoarse, 0x200, e.qfine / 2))))
  }

  /** Splitting off the field on top. */
  lemma SplitAbove(field: nat, b: nat, below: nat)
    requires 0 < b && below < b
    ensures Above(field, b, below) / b == field && Above(field, b, below) % b == below
  {
    assert (field * b + below) / b == field && (field * b + below) % b == below by {
      DivUnique(field * b + below, b, field, below);
    }
  }

  /** The word whose fields are those of the event. */
  function Packed(e: Event, bit12: nat): nat {
    Above(Above(e.asic / 32, HALF, PackHigh(e)), HALF, PackLow(e, bit12))
  }

  lemma PackLowFits(e: Event, bit12: nat)
    requires InRange(e) && bit12 < 2
    ensures PackLow(e, bit12) < HALF
  {
  }

  lemma PackHighFits(e: Event)
    requires InRange(e)
    ensures PackHigh(e) < HALF
  {
  }

  /** The two words of an event; the bits above the 44 used ones are free in the lower word, ten of them in
      the upper word, and bit 12. */
  lemma WordsCarryEvent(e: Event, spareHigh: nat, spareLow: nat, bit12: nat, high: Word, low: Word)
    requires InRange(e) && spareHigh < 1024 && spareLow < 0x10_0000 && bit12 < 2
    requires high == Above(e.asic / 32, 0x40_0000_0000_0000, Above(spareHigh, HALF, PackHigh(e)))
    requires low == Above(spareLow, HALF, PackLow(e, bit12))
    ensures EventWord(high, low) == Packed(e, bit12)
  {
    PackLowFits(e, bit12);
    PackHighFits(e);
    LowerHalf(spareLow, PackLow(e, bit12));
    UpperHalf(e.asic / 32, spareHigh, PackHigh(e));
    hide PackLow, PackHigh;
  }

  lemma LowerHalf(spare: nat, l: nat)
    requires l < HALF
    ensures Above(spare, HALF, l) % HALF == l
  {
    SplitAbove(spare, HALF, l);
  }

  lemma UpperHalf(asic: nat, spare: nat, h: nat)
    requires spare < 1024 && h < HALF
    ensures var word := Above(asic, 0x40_0000_0000_0000, Above(spare, HALF, h));
      word % HALF == h && word / 0x40_0000_0000_0000 == asic
  {
    var below := Above(spare, HALF, h);
    SplitAbove(asic, 0x40_0000_0000_0000, below);
    assert Above(asic, 0x40_0000_0000_0000, below) == Above(asic * 1024 + spare, HALF, h);
    SplitAbove(asic * 1024 + spare, HALF, h);
  }

  /** Reads a field from between what is above and what is below it. */
  lemma FieldAt(word: nat, b: nat, width: nat, rest: nat, field: nat, below: nat)
    requires 0 < b && 0 < width && field < width && below < b
    requires word == Above(Above(rest, width, field), b, below)
    ensures Bits(word, b, width) == field
  {
    SplitAbove(Above(rest, width, field), b, below);
    SplitAbove(rest, width, field);
  }

  /** The fields from qcoarse on, and those below: bits 53 to 97, and 0 to 52. */
  function Upper(e: Event): nat {
    ((e.asic * 1024 + e.t1coarse) * 1024 + e.t2coarse) * 1024 + e.qcoarse
  }

  function Lower(e: Event, bit12: nat): nat {
    e.qfine * 0x800_0000_0000 + (e.t2fine * 0x2_0000_0000 + (e.t1fine * 0x80_0000
      + (e.prevTime * 0x2000 + (bit12 * 0x1000 + (e.prevFlags * 0x100 + (e.tac * 0x20 + e.channel))))))
  }

  /** Packed leaves no gap at qfine, which lies across the boundary of the halves. */
  lemma PackedSplit(e: Event, bit12: nat)
    requires InRange(e) && bit12 < 2
    ensures Packed(e, bit12) == Above(Upper(e), 0x20_0000_0000_0000, Lower(e, bit12)) && Lower(e, bit12) < 0x20_0000_0000_0000
  {
    assert e.asic == e.asic / 32 * 32 + e.asic % 32;
    assert e.qfine == e.qfine / 2 * 2 + e.qfine % 2;
  }

  lemma UpperFields(e: Event, w: nat, lower: nat)
    requires InRange(e) && lower < 0x20_0000_0000_0000 && w == Above(Upper(e), 0x20_0000_0000_0000, lower)
    ensures w / 0x8_0000_0000_0000_0000_0000 == e.asic && Bits(w, 0x200_0000_0000_0000_0000, 1024) == e.t1coarse
    ensures Bits(w, 0x8000_0000_0000_0000, 1024) == e.t2coarse && Bits(w, 0x20_0000_0000_0000, 1024) == e.qcoarse
  {
    var f63 := e.qcoarse * 0x20_0000_0000_0000 + lower;
    var f73 := e.t2coarse * 0x8000_0000_0000_0000 + f63;
    var f83 := e.t1coarse * 0x200_0000_0000_0000_0000 + f73;
    var a73 := e.asic * 1024 + e.t1coarse;
    var a63 := a73 * 1024 + e.t2coarse;
    hide Bits;
    FieldAt(w, 0x200_0000_0000_0000_0000, 1024, e.asic, e.t1coarse, f73);
    FieldAt(w, 0x8000_0000_0000_0000, 1024, a73, e.t2coarse, f63);
    FieldAt(w, 0x20_0000_0000_0000, 1024, a63, e.qcoarse, lower);
    SplitAbove(e.asic, 0x8_0000_0000_0000_0000_0000, f83);
  }

  /** Of the lower fields, those from t1fine on, and the rest. */
  function Low23(e: Event, bit12: nat): nat {
    e.prevTime * 0x2000 + (bit12 * 0x1000 + (e.prevFlags * 0x100 + (e.tac * 0x20 + e.channel)))
  }

  lemma FineFields(e: Event, bit12: nat, w: nat, upper: nat)
    requires InRange(e) && bit12 < 2 && w == Above(upper, 0x20_0000_0000_0000, Lower(e, bit12))
    ensures Bits(w, 0x800_0000_0000, 1024) == e.qfine && Bits(w, 0x2_0000_0000, 1024) == e.t2fine
    ensures Bits(w, 0x80_0000, 1024) == e.t1fine
    ensures exists above: nat :: w == Above(above, 0x80_0000, Low23(e, bit12))
  {
    var f23 := e.t1fine * 0x80_0000 + Low23(e, bit12);
    var f33 := e.t2fine * 0x2_0000_0000 + f23;
    var a33 := upper * 1024 + e.qfine;
    var a23 := a33 * 1024 + e.t2fine;
    hide Bits;
    FieldAt(w, 0x800_0000_0000, 1024, upper, e.qfine, f33);
    FieldAt(w, 0x2_0000_0000, 1024, a33, e.t2fine, f23);
    FieldAt(w, 0x80_0000, 1024, a23, e.t1fine, Low23(e, bit12));
    assert w == Above(a23 * 1024 + e.t1fine, 0x80_0000, Low23(e, bit12));
  }

  lemma LastFields(e: Event, bit12: nat, w: nat, above: nat)
    requires InRange(e) && bit12 < 2 && w == Above(above, 0x80_0000, Low23(e, bit12))
    ensures Bits(w, 0x2000, 1024) == e.prevTime
    ensures Bits(w, 0x100, 16) == e.prevFlags && Bits(w, 0x20, 8) == e.tac && w % 32 == e.channel
  {
    var f8 := e.prevFlags * 0x100 + (e.tac * 0x20 + e.channel);
    var a8 := (above * 1024 + e.prevTime) * 2 + bit12;
    var a5 := a8 * 16 + e.prevFlags;
    hide Bits;
    FieldAt(w, 0x2000, 1024, above, e.prevTime, bit12 * 0x1000 + f8);
    FieldAt(w, 0x100, 16, a8, e.prevFlags, e.tac * 0x20 + e.channel);
    FieldAt(w, 0x20, 8, a5, e.tac, e.channel);
    SplitAbove(a5 * 8 + e.tac, 32, e.channel);
  }

  /** Every field comes back from the word it was packed into. */
  lemma FieldsComeBack(e: Event, bit12: nat)
    requires InRange(e) && bit12 < 2
    ensures Decode(Packed(e, bit12)) == e
    ensures ChannelID(Packed(e, bit12)) == e.asic * 32 + e.channel
  {
    var w := Packed(e, bit12);
    PackedSplit(e, bit12);
    UpperFields(e, w, Lower(e, bit12));
    FineFields(e, bit12, w, Upper(e));
    var above: nat :| w == Above(above, 0x80_0000, Low23(e, bit12));
    LastFields(e, bit12, w, above);
    hide Packed, Upper, Lower, Bits, Above;
  }

  /** The two words of an event: bit by bit, the fields, with anything in the spare bits. */
  ghost predicate Carries(e: Event, high: Word, low: Word) {
    && e.asic < 0x8000 && e.t1coarse < 1024 && e.t2coarse < 1024 && e.qcoarse < 1024 && e.qfine < 1024
    && e.t2fine < 1024 && e.t1fine < 1024 && e.prevTime < 1024 && e.prevFlags < 16 && e.tac < 8 && e.channel < 32
    && exists spareHigh: nat, spareLow: nat, bit12: nat ::
         spareHigh < 1024 && spareLow < 0x10_0000 && bit12 < 2 && Spelled(e, spareHigh, spareLow, bit12, high, low)
  }

  predicate Spelled(e: Event, spareHigh: nat, spareLow: nat, bit12: nat, high: Word, low: Word) {
    && high == e.asic / 32 * 0x40_0000_0000_0000 + spareHigh * 0x1000_0000_0000 + e.asic % 32 * 0x80_0000_0000
               + e.t1coarse * 0x2000_0000 + e.t2coarse * 0x8_0000 + e.qcoarse * 0x200 + e.qfine / 2
    && low == spareLow * 0x1000_0000_0000 + e.qfine % 2 * 0x800_0000_0000 + e.t2fine * 0x2_0000_0000
              + e.t1fine * 0x80_0000 + e.prevTime * 0x2000 + bit12 * 0x1000 + e.prevFlags * 0x100 + e.tac * 0x20 + e.channel
  }

  /** Packing any field values into the two words of an event and decoding them gives them back. */
  lemma EventRoundTrip(e: Event, high: Word, low: Word)
    requires Carries(e, high, low)
    ensures Decode(EventWord(high, low)) == e
    ensures ChannelID(EventWord(high, low)) == 32 * e.asic + e.channel
  {
    var spareHigh: nat, spareLow: nat, bit12: nat :|
      spareHigh < 1024 && spareLow < 0x10_0000 && bit12 < 2 && Spelled(e, spareHigh, spareLow, bit12, high, low);
    WordsCarryEvent(e, spareHigh, spareLow, bit12, high, low);
    FieldsComeBack(e, bit12);
  }

  /** The bits of a number from the lowest up to c, cut at b. */
  lemma Cut(x: nat, b: nat, w: nat, c: nat)
    requires b > 0 && w > 0 && c == b * w
    ensures x % c == x / b % w * b + x % b && x / b % w < w && x / c == x / b / w
  {
    DivSplit(x, b);
    DivSplit(x / b, w);
    var q, r := x / b / w, x / b % w;
    assert x == c * q + (r * b + x % b) by {
      assert b * (w * q + r) == b * w * q + b * r;
    }
    MulLess(b, r, w);
    DivUnique(x, c, q, r * b + x % b);
  }

  lemma LowFields(low: Word)
    returns (spare: nat, one: nat, t2fine: nat, t1fine: nat, prevTime: nat, bit12: nat, flags: nat, tac: nat, channel: nat)
    ensures spare < 0x10_0000 && one < 2 && t2fine < 1024 && t1fine < 1024 && prevTime < 1024 && bit12 < 2 && flags < 16
    ensures tac < 8 && channel < 32
    ensures low == spare * 0x1000_0000_0000 + one * 0x800_0000_0000 + t2fine * 0x2_0000_0000 + t1fine * 0x80_0000
                   + prevTime * 0x2000 + bit12 * 0x1000 + flags * 0x100 + tac * 0x20 + channel
  {
    Cut(low, 0x20, 8, 0x100);
    Cut(low, 0x100, 16, 0x1000);
    Cut(low, 0x1000, 2, 0x2000);
    Cut(low, 0x2000, 1024, 0x80_0000);
    Cut(low, 0x80_0000, 1024, 0x2_0000_0000);
    Cut(low, 0x2_0000_0000, 1024, 0x800_0000_0000);
    Cut(low, 0x800_0000_0000, 2, 0x1000_0000_0000);
    DivSplit(low, 0x1000_0000_0000);
    spare, one, t2fine := low / 0x1000_0000_0000, low / 0x800_0000_0000 % 2, low / 0x2_0000_0000 % 1024;
    t1fine, prevTime, bit12 := low / 0x80_0000 % 1024, low / 0x2000 % 1024, low / 0x1000 % 2;
    flags, tac, channel := low / 0x100 % 16, low / 0x20 % 8, low % 0x20;
  }

  lemma HighFields(high: Word) returns (top: nat, spare: nat, five: nat, t1coarse: nat, t2coarse: nat, qcoarse: nat, nine: nat)
    ensures top < 1024 && spare < 1024 && five < 32 && t1coarse < 1024 && t2coarse < 1024 && qcoarse < 1024 && nine < 512
    ensures high == top * 0x40_0000_0000_0000 + spare * 0x1000_0000_0000 + five * 0x80_0000_0000 + t1coarse * 0x2000_0000
                    + t2coarse * 0x8_0000 + qcoarse * 0x200 + nine
  {
    Cut(high, 0x200, 1024, 0x8_0000);
    Cut(high, 0x8_0000, 1024, 0x2000_0000);
    Cut(high, 0x2000_0000, 1024, 0x80_0000_0000);
    Cut(high, 0x80_0000_0000, 32, 0x1000_0000_0000);
    Cut(high, 0x1000_0000_0000, 1024, 0x40_0000_0000_0000);
    DivSplit(high, 0x40_0000_0000_0000);
    top, spare, five := high / 0x40_0000_0000_0000, high / 0x1000_0000_0000 % 1024, high / 0x80_0000_0000 % 32;
    t1coarse, t2coarse, qcoarse := high / 0x2000_0000 % 1024, high / 0x8_0000 % 1024, high / 0x200 % 1024;
    nine := high % 0x200;
  }

  /** Every pair of words is that of some event. */
  lemma EveryPairCarries(high: Word, low: Word) returns (e: Event)
    ensures Carries(e, high, low)
  {
    var top, spareHigh, five, t1coarse, t2coarse, qcoarse, nine := HighFields(high);
    var spareLow, one, t2fine, t1fine, prevTime, bit12, flags, tac, channel := LowFields(low);
    e := Event(top * 32 + five, t1coarse, t2coarse, qcoarse, nine * 2 + one, t2fine, t1fine, prevTime, flags, tac, channel);
    assert e.asic / 32 == top && e.asic % 32 == five && e.qfine / 2 == nine && e.qfine % 2 == one;
    assert Spelled(e, spareHigh, spareLow, bit12, high, low);
  }

  /** The event getter reads the pair of words at its place in the frame. */
  function FrameEvent(f: RawFrame, i: nat): nat
    requires 2 + 2 * i + 1 < |f|
  {
    EventWord(f[2 + 2 * i], f[2 + 2 * i + 1])
  }

  function EventWords(f: RawFrame): (words: seq<nat>)
    requires WellFormed(f)
    ensures |words| == NEvents(f)
  {
    seq(NEvents(f), i requires 0 <= i < NEvents(f) => FrameEvent(f, i))
  }
}
