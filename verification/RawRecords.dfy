/** What a sequence of frame records says about every frame ID of a step: the records written to the raw
    file leave IDs out, and a reader fills them in from the record before (print_raw.cpp, lines 114-118). */
module RawRecords {
  import opened ByteWords
  import opened Sequences
  import opened RawFrames

  /** What is known of one frame ID. */
  datatype Content = Content(lost: bool, payload: seq<Word>)

  function Of(f: RawFrame): Content
    requires WellFormed(f)
  {
    Content(FrameLost(f), Payload(f))
  }

  predicate AllWellFormed(frames: seq<RawFrame>) {
    forall i :: 0 <= i < |frames| ==> WellFormed(frames[i])
  }

  ghost predicate Increasing(frames: seq<RawFrame>)
    requires AllWellFormed(frames)
  {
    forall i, j :: 0 <= i < j < |frames| ==> FrameID(frames[i]) < FrameID(frames[j])
  }

  /** Well-formed frames in strictly increasing order of their IDs. */
  ghost predicate Ordered(frames: seq<RawFrame>) {
    AllWellFormed(frames) && Increasing(frames)
  }

  /** What the acquisition saw of an ID: a frame that never came is lost. */
  ghost function Truth(frames: seq<RawFrame>, id: int): Content
    requires AllWellFormed(frames)
  {
    if frames == [] then Content(true, [])
    else var f := frames[|frames| - 1];
      if FrameID(f) == id then Of(f) else Truth(frames[..|frames| - 1], id)
  }

  /** What the file says of an ID: an ID without a record is like the record before, and empty. */
  ghost function Decoded(records: seq<RawFrame>, id: int): Content
    requires AllWellFormed(records)
  {
    if records == [] then Content(true, [])
    else var r := records[|records| - 1];
      if FrameID(r) == id then Of(r)
      else if FrameID(r) < id then Content(FrameLost(r), [])
      else Decoded(records[..|records| - 1], id)
  }

  lemma {:induction false} TruthOfFrame(frames: seq<RawFrame>, i: nat)
    requires Ordered(frames) && i < |frames|
    ensures Truth(frames, FrameID(frames[i])) == Of(frames[i])
  {
    if i < |frames| - 1 {
      TruthOfFrame(frames[..|frames| - 1], i);
    }
  }

  lemma {:induction false} TruthOfMissing(frames: seq<RawFrame>, id: int)
    requires AllWellFormed(frames) && forall i :: 0 <= i < |frames| ==> FrameID(frames[i]) != id
    ensures Truth(frames, id) == Content(true, [])
  {
    if frames != [] {
      TruthOfMissing(frames[..|frames| - 1], id);
    }
  }

  /** Decoded looks up the last record that is not beyond the ID. */
  lemma {:induction false} DecodedLooksBack(records: seq<RawFrame>, j: nat, id: int)
    requires Ordered(records) && j < |records| && FrameID(records[j]) <= id
    requires j + 1 < |records| ==> id < FrameID(records[j + 1])
    ensures Decoded(records, id) ==
            if FrameID(records[j]) == id then Of(records[j]) else Content(FrameLost(records[j]), [])
  {
    if j < |records| - 1 {
      assert j + 1 < |records| - 1 ==> FrameID(records[j + 1]) < FrameID(records[|records| - 1]);
      DecodedLooksBack(records[..|records| - 1], j, id);
    }
  }

  lemma Snoc(frames: seq<RawFrame>, f: RawFrame)
    requires AllWellFormed(frames) && WellFormed(f)
    ensures AllWellFormed(frames + [f]) && (frames + [f])[..|frames|] == frames
    ensures forall id: int :: Truth(frames + [f], id) == if FrameID(f) == id then Of(f) else Truth(frames, id)
    ensures forall id: int :: Decoded(frames + [f], id) ==
                       if FrameID(f) == id then Of(f)
                       else if FrameID(f) < id then Content(FrameLost(f), [])
                       else Decoded(frames, id)
  {
    assert (frames + [f])[..|frames|] == frames;
  }

  lemma SnocOrdered(frames: seq<RawFrame>, f: RawFrame)
    requires Ordered(frames) && WellFormed(f)
    requires frames != [] ==> FrameID(frames[|frames| - 1]) < FrameID(f)
    ensures Ordered(frames + [f])
  {
    forall i, j | 0 <= i < j < |frames + [f]|
      ensures FrameID((frames + [f])[i]) < FrameID((frames + [f])[j])
    {
      if j == |frames| && i < |frames| - 1 {
        assert FrameID(frames[i]) < FrameID(frames[|frames| - 1]);
      }
    }
  }

  /** How many of the IDs from lo up to hi, hi excluded, satisfy p. */
  ghost function Count(p: int -> bool, lo: int, hi: int): (n: nat)
    ensures n <= if lo <= hi then hi - lo else 0
    decreases hi - lo
  {
    if hi <= lo then 0 else Count(p, lo, hi - 1) + if p(hi - 1) then 1 else 0
  }

  lemma {:induction false} CountSame(p: int -> bool, q: int -> bool, lo: int, hi: int)
    requires forall id :: lo <= id < hi ==> p(id) == q(id)
    ensures Count(p, lo, hi) == Count(q, lo, hi)
    decreases hi - lo
  {
    if lo < hi {
      CountSame(p, q, lo, hi - 1);
    }
  }

  lemma {:induction false} CountSplit(p: int -> bool, lo: int, mid: int, hi: int)
    requires lo <= mid <= hi
    ensures Count(p, lo, hi) == Count(p, lo, mid) + Count(p, mid, hi)
    decreases hi - mid
  {
    if mid < hi {
      CountSplit(p, lo, mid, hi - 1);
    }
  }

  lemma {:induction false} CountUniform(p: int -> bool, lo: int, hi: int, b: bool)
    requires lo <= hi && forall id :: lo <= id < hi ==> p(id) == b
    ensures Count(p, lo, hi) == if b then hi - lo else 0
    decreases hi - lo
  {
    if lo < hi {
      CountUniform(p, lo, hi - 1, b);
    }
  }

  /** The count when the range grows by a uniform stretch and one more ID. */
  lemma CountGrows(p: int -> bool, q: int -> bool, lo: int, last: int, id: int, stretch: bool)
    requires lo <= last < id && (forall j :: lo <= j <= last ==> p(j) == q(j))
    requires forall j :: last < j < id ==> q(j) == stretch
    ensures Count(q, lo, id + 1)
         == Count(p, lo, last + 1) + (if stretch then id - last - 1 else 0) + if q(id) then 1 else 0
  {
    CountSplit(q, lo, last + 1, id);
    CountSame(p, q, lo, last + 1);
    CountUniform(q, last + 1, id, stretch);
  }

  // ---------------------------------------------------------------- the records as words of the file

  /** A reader finds the records again by the lengths in their headers. */
  lemma {:induction false} NextRecord(records: seq<RawFrame>, i: nat)
    requires AllWellFormed(records) && i < |records|
    ensures var at := |Flatten(records[..i])|;
      && at + 2 <= |Flatten(records)|
      && FrameSize(Flatten(records)[at..at + 2]) == |records[i]|
      && at + |records[i]| == |Flatten(records[..i + 1])| <= |Flatten(records)|
      && Flatten(records)[at..at + |records[i]|] == records[i]
  {
    var at := |Flatten(records[..i])|;
    assert records == records[..i + 1] + records[i + 1..];
    FlattenConcat(records[..i + 1], records[i + 1..]);
    assert records[..i + 1] == records[..i] + [records[i]];
    FlattenSnoc(records[..i], records[i]);
    var words := Flatten(records);
    assert words == Flatten(records[..i]) + records[i] + Flatten(records[i + 1..]);
    assert words[at] == records[i][0];
  }
}
