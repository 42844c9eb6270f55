/** The first stage: hits are put into coarse time order (src/base/CoarseSorter.cpp). */
module CoarseSorter {
  import opened Events

  datatype SortEntry = SortEntry(frameID: int, time: int, index: nat)

  /** Integer division as C++ does it, rounding towards zero. */
  function TruncDiv(a: int, b: int): int
    requires b > 0
  {
    if a >= 0 then a / b else -((-a) / b)
  }

  function Entry(time: int, index: nat): SortEntry {
    SortEntry(TruncDiv(time, 1024), TruncDiv(time, 4), index)
  }

  /** The comparison handed to std::sort. */
  predicate Less(lhs: SortEntry, rhs: SortEntry) {
    lhs.frameID < rhs.frameID || lhs.time < rhs.time
  }

  /** The comparison looks like no lexicographic order, but since the frame number only repeats the top
      of the coarse time it is the strict weak order by coarse time, for negative times too. */
  lemma LessIsCoarseTime(a: int, b: int, i: nat, j: nat)
    ensures Less(Entry(a, i), Entry(b, j)) <==> TruncDiv(a, 4) < TruncDiv(b, 4)
  {
    FrameOfCoarse(a);
    FrameOfCoarse(b);
  }

  lemma FrameOfCoarse(t: int)
    ensures TruncDiv(t, 1024) == TruncDiv(TruncDiv(t, 4), 256)
  {
    var u := if t >= 0 then t else -t;
    assert u / 1024 == u / 4 / 256;
  }

  /** What std::sort promises when its comparison is a strict weak order. */
  ghost predicate SortResult(list: seq<SortEntry>, sorted: seq<SortEntry>) {
    && multiset(sorted) == multiset(list)
    && forall i, j :: 0 <= i < j < |sorted| ==> !Less(sorted[j], sorted[i])
  }

  function Insert(e: SortEntry, s: seq<SortEntry>): (r: seq<SortEntry>)
    ensures multiset(r) == multiset([e]) + multiset(s)
  {
    if s == [] || !Less(s[0], e) then [e] + s
    else
      assert s == [s[0]] + s[1..];
      [s[0]] + Insert(e, s[1..])
  }

  function InsertionSorted(list: seq<SortEntry>): (r: seq<SortEntry>)
    ensures multiset(r) == multiset(list)
  {
    if list == [] then []
    else
      assert list == [list[0]] + list[1..];
      Insert(list[0], InsertionSorted(list[1..]))
  }

  ghost predicate IsEntry(e: SortEntry) { e.frameID == TruncDiv(e.time, 256) }

  lemma LessByTime(a: SortEntry, b: SortEntry)
    requires IsEntry(a) && IsEntry(b)
    ensures Less(a, b) <==> a.time < b.time
  {
  }

  ghost predicate Ordered(s: seq<SortEntry>) {
    && (forall i :: 0 <= i < |s| ==> IsEntry(s[i]))
    && (forall i, j :: 0 <= i < j < |s| ==> s[i].time <= s[j].time)
  }

  lemma {:induction false} InsertOrdered(e: SortEntry, s: seq<SortEntry>)
    requires Ordered(s) && IsEntry(e)
    ensures Ordered(Insert(e, s))
  {
    if s != [] {
      LessByTime(s[0], e);
      if s[0].time < e.time {
        InsertOrdered(e, s[1..]);
        var r := Insert(e, s[1..]);
        forall i | 0 <= i < |r|
          ensures s[0].time <= r[i].time
        {
          assert r[i] in multiset(r);
          assert r[i] == e || r[i] in s[1..];
        }
      }
    }
  }

  lemma {:induction false} InsertionOrdered(list: seq<SortEntry>)
    requires forall i :: 0 <= i < |list| ==> IsEntry(list[i])
    ensures Ordered(InsertionSorted(list))
  {
    if list != [] {
      InsertionOrdered(list[1..]);
      InsertOrdered(list[0], InsertionSorted(list[1..]));
    }
  }

  /** std::sort. Callers know its contract only, so any sorting order of equal elements is covered; the
      body shows that the contract can be met. */
  method StdSort(list: seq<SortEntry>) returns (sorted: seq<SortEntry>)
    requires forall i :: 0 <= i < |list| ==> IsEntry(list[i])
    ensures SortResult(list, sorted)
  {
    InsertionOrdered(list);
    sorted := InsertionSorted(list);
    forall i, j | 0 <= i < j < |sorted|
      ensures !Less(sorted[j], sorted[i])
    {
      LessByTime(sorted[j], sorted[i]);
    }
  }

  // ---------------------------------------------------------------- the handler

  function EntriesOf(hits: seq<RawHit>): seq<SortEntry> {
    seq(|hits|, i requires 0 <= i < |hits| => Entry(hits[i].time, i))
  }

  /** The hits that a list of entries points at. */
  function Pick(entries: seq<SortEntry>, hits: seq<RawHit>): seq<RawHit>
    requires forall e :: e in entries ==> e.index < |hits|
  {
    seq(|entries|, i requires 0 <= i < |entries| => assert entries[i] in entries; hits[entries[i].index])
  }

  /** out is hits in coarse time order. */
  ghost predicate CoarseOrder(hits: seq<RawHit>, out: seq<RawHit>) {
    && multiset(out) == multiset(hits)
    && forall i, j :: 0 <= i < j < |out| ==> TruncDiv(out[i].time, 4) <= TruncDiv(out[j].time, 4)
  }

  lemma RemoveAt<T>(s: seq<T>, k: nat)
    requires k < |s|
    ensures multiset(s[..k] + s[k + 1..]) == multiset(s) - multiset{s[k]}
    ensures |s[..k] + s[k + 1..]| == |s| - 1
    ensures forall e :: e in s[..k] + s[k + 1..] ==> e in s
  {
    assert s == s[..k] + [s[k]] + s[k + 1..];
  }

  lemma PickRemoves(s: seq<SortEntry>, k: nat, hits: seq<RawHit>)
    requires k < |s| && forall e :: e in s ==> e.index < |hits|
    ensures multiset(Pick(s, hits)) == multiset{hits[s[k].index]} + multiset(Pick(s[..k] + s[k + 1..], hits))
  {
    var p := Pick(s, hits);
    assert p == p[..k] + [p[k]] + p[k + 1..];
    assert Pick(s[..k] + s[k + 1..], hits) == p[..k] + p[k + 1..];
  }

  lemma IndexIn(b: seq<SortEntry>, e: SortEntry) returns (k: nat)
    requires e in multiset(b)
    ensures k < |b| && b[k] == e
  {
    k :| 0 <= k < |b| && b[k] == e;
  }

  lemma {:induction false} PickPermutes(a: seq<SortEntry>, b: seq<SortEntry>, hits: seq<RawHit>)
    requires multiset(a) == multiset(b)
    requires forall e :: e in a ==> e.index < |hits|
    requires forall e :: e in b ==> e.index < |hits|
    ensures multiset(Pick(a, hits)) == multiset(Pick(b, hits))
    decreases |a|
  {
    hide Pick;
    if a == [] {
      assert |b| == |multiset(b)| == 0;
      assert b == a;
    } else {
      assert a[0] in multiset(a);
      var k := IndexIn(b, a[0]);
      var a', b' := a[..0] + a[0 + 1..], b[..k] + b[k + 1..];
      RemoveAt(a, 0);
      RemoveAt(b, k);
      PickPermutes(a', b', hits);
      PickRemoves(a, 0, hits);
      PickRemoves(b, k, hits);
    }
  }

  lemma PickEntries(hits: seq<RawHit>)
    ensures forall e :: e in EntriesOf(hits) ==> e.index < |hits|
    ensures Pick(EntriesOf(hits), hits) == hits
  {
  }

  /** Following a sorted list of entries puts the hits in coarse time order. */
  lemma SortedPick(hits: seq<RawHit>, sorted: seq<SortEntry>)
    requires SortResult(EntriesOf(hits), sorted)
    ensures forall e :: e in sorted ==> e.index < |hits|
    ensures CoarseOrder(hits, Pick(sorted, hits))
  {
    PickEntries(hits);
    forall e | e in sorted
      ensures e in EntriesOf(hits) && e.index < |hits| && e == Entry(hits[e.index].time, e.index)
    {
      assert e in multiset(EntriesOf(hits));
    }
    PickPermutes(sorted, EntriesOf(hits), hits);
    var out := Pick(sorted, hits);
    forall i, j | 0 <= i < j < |out|
      ensures TruncDiv(out[i].time, 4) <= TruncDiv(out[j].time, 4)
    {
      assert sorted[i] in sorted && sorted[j] in sorted;
      LessIsCoarseTime(out[j].time, out[i].time, sorted[j].index, sorted[i].index);
    }
  }

  class CoarseSorter {
    var nSingleRead: nat

    constructor ()
      ensures nSingleRead == 0
    {
      nSingleRead := 0;
    }

    method HandleEvents(inBuffer: EventBuffer<RawHit>) returns (outBuffer: EventBuffer<RawHit>)
      requires inBuffer.Valid()
      modifies this
      ensures fresh(outBuffer) && outBuffer.Valid() && outBuffer.tMin == inBuffer.tMin
      ensures CoarseOrder(inBuffer.Contents(), outBuffer.Contents())
      ensures nSingleRead == Add32(old(nSingleRead), inBuffer.used)
    {
      var hits, n := inBuffer.Contents(), inBuffer.used;
      outBuffer := new EventBuffer<RawHit>(n, inBuffer.tMin);
      var sortList: seq<SortEntry> := [];
      for i := 0 to n
        invariant sortList == EntriesOf(hits)[..i]
      {
        var p := inBuffer.buffer[i];
        sortList := sortList + [SortEntry(TruncDiv(p.time, 1024), TruncDiv(p.time, 4), i)];
      }
      assert sortList == EntriesOf(hits);
      forall i | 0 <= i < n
        ensures IsEntry(sortList[i])
      {
        FrameOfCoarse(hits[i].time);
      }
      var sorted := StdSort(sortList);
      SortedPick(hits, sorted);
      var lSingleRead := 0;
      for j := 0 to |sorted|
        invariant fresh(outBuffer) && fresh(outBuffer.buffer) && outBuffer.Valid() && outBuffer.tMin == inBuffer.tMin
        invariant inBuffer.Valid() && inBuffer.Contents() == hits
        invariant lSingleRead == j && nSingleRead == old(nSingleRead)
        invariant outBuffer.Contents() == Pick(sorted, hits)[..j]
      {
        assert sorted[j] in sorted;
        outBuffer.Push(inBuffer.buffer[sorted[j].index]);
        lSingleRead := lSingleRead + 1;
      }
      assert Pick(sorted, hits)[..|sorted|] == Pick(sorted, hits);
      assert |sorted| == n by {
        assert |multiset(sorted)| == |multiset(EntriesOf(hits))|;
      }
      nSingleRead := Add32(nSingleRead, lSingleRead);
    }
  }

  /** How far a later hit can precede an earlier one after coarse sorting: three ticks, for times that
      are not negative. */
  lemma CoarseDisorder(hits: seq<RawHit>, out: seq<RawHit>, i: nat, j: nat)
    requires CoarseOrder(hits, out) && i < j < |out|
    requires forall k :: 0 <= k < |hits| ==> hits[k].time >= 0
    ensures out[i].time <= out[j].time + 3
  {
    assert out[i] in multiset(hits) && out[j] in multiset(hits);
    assert out[i] in hits && out[j] in hits;
    assert TruncDiv(out[i].time, 4) <= TruncDiv(out[j].time, 4);
  }
}
