/** The kernel driver's read call, which turns DMA blocks into a byte stream (src/kernel/psdaq.c:346-377). */
module DmaRead {
  import opened Sequences
  import opened ByteWords

  lemma SplitSlice<T>(s: seq<T>, from: nat, mid: nat, to: nat)
    requires from <= mid <= to <= |s|
    ensures s[from..to] == s[from..mid] + s[mid..to]
  {
  }

  /** Part of a buffer overwritten. */
  lemma Pasted(was: seq<Byte>, buf: seq<Byte>, at: nat, part: seq<Byte>)
    requires |was| == |buf| && at + |part| <= |buf|
    requires forall k :: 0 <= k < |part| ==> buf[at + k] == part[k]
    requires forall k :: 0 <= k < |buf| && !(at <= k < at + |part|) ==> buf[k] == was[k]
    ensures buf[..at] == was[..at] && buf[at..at + |part|] == part && buf[at + |part|..] == was[at + |part|..]
  {
    forall k | at <= k < at + |part| ensures buf[k] == part[k - at] {
      assert buf[at + (k - at)] == part[k - at];
    }
  }

  lemma Consumed(a: seq<Byte>, b: seq<Byte>, rest: seq<Byte>)
    ensures a + b + rest == a + (b + rest)
    ensures (a + b + rest)[..|a|] == a && (a + b + rest)[|a|..] == b + rest
  {
  }

  /** The stream when n bytes have been taken out of the buffer in front of it. */
  lemma StreamAfter(d: seq<Byte>, from: nat, n: nat, fill: nat, rest: seq<Byte>, was: seq<Byte>, now: seq<Byte>)
    requires from + n <= fill <= |d| && was == d[from..fill] + rest && now == d[from + n..fill] + rest
    ensures n <= |was| && now == was[n..] && was[..n] == d[from..from + n]
  {
    SplitSlice(d, from, from + n, fill);
    Consumed(d[from..from + n], d[from + n..fill], rest);
  }

  /** After rc of count bytes of a stream have been put at the beginning of a buffer. */
  ghost predicate Taken(was: seq<Byte>, buf: seq<Byte>, stream: seq<Byte>, left: seq<Byte>, rc: nat, count: nat) {
    && |was| == |buf| && rc <= count <= |buf| && count <= |stream|
    && buf[..rc] == stream[..rc] && buf[count..] == was[count..] && left == stream[rc..]
  }

  lemma NoneTaken(buf: seq<Byte>, stream: seq<Byte>, count: nat)
    requires count <= |buf| && count <= |stream|
    ensures Taken(buf, buf, stream, stream, 0, count)
  {
  }

  lemma TakenRest(was: seq<Byte>, buf: seq<Byte>, stream: seq<Byte>, left: seq<Byte>, rc: nat, count: nat)
    requires Taken(was, buf, stream, left, rc, count)
    ensures |left| == |stream| - rc && count <= |stream| && |was| == |buf|
    ensures rc == count ==>
              buf[..count] == stream[..count] && buf[count..] == was[count..] && left == stream[count..]
  {
  }

  lemma TakeMore(was: seq<Byte>, before: seq<Byte>, buf: seq<Byte>, stream: seq<Byte>, left: seq<Byte>,
                 left': seq<Byte>, rc: nat, n: nat, count: nat)
    requires Taken(was, before, stream, left, rc, count) && rc + n <= count && |buf| == |before| && n <= |left|
    requires buf[..rc] == before[..rc] && buf[rc..rc + n] == left[..n] && buf[rc + n..] == before[rc + n..]
    requires left' == left[n..]
    ensures Taken(was, buf, stream, left', rc + n, count)
  {
    SplitSlice(buf, 0, rc, rc + n);
    SplitSlice(stream, 0, rc, rc + n);
    DropTwice(stream, rc, n);
    DropTwice(buf, rc + n, count - rc - n);
    DropTwice(before, rc + n, count - rc - n);
  }

  lemma DropTwice<T>(s: seq<T>, m: nat, n: nat)
    requires m + n <= |s|
    ensures s[m..][n..] == s[m + n..] && s[m..][..n] == s[m..m + n]
  {
  }

  class PsdaqDevice {
    const dmaBuf: array<Byte>
    const blockSize: nat        // tlp_count * tlp_size
    var dmaUsed: nat
    var dmaFill: nat
    var pending: seq<seq<Byte>> // the DMA transfers that the card will make, in order

    ghost predicate Valid()
      reads this
    {
      && 0 < blockSize <= dmaBuf.Length && dmaUsed <= dmaFill <= blockSize
      && forall k :: 0 <= k < |pending| ==> |pending[k]| == blockSize
    }

    /** The bytes not read yet. */
    ghost function Stream(): seq<Byte>
      requires Valid()
      reads this, dmaBuf
    {
      dmaBuf[dmaUsed..dmaFill] + Flatten(pending)
    }

    constructor (blockSize: nat, pending: seq<seq<Byte>>)
      requires blockSize > 0 && forall k :: 0 <= k < |pending| ==> |pending[k]| == blockSize
      ensures Valid() && Stream() == Flatten(pending) && fresh(dmaBuf)
    {
      dmaBuf := new Byte[blockSize];
      this.blockSize := blockSize;
      dmaUsed, dmaFill := 0, 0;
      this.pending := pending;
    }

    /** Starts a DMA transfer and waits for it. */
    method Transfer()
      requires Valid() && dmaUsed == dmaFill && pending != []
      modifies this, dmaBuf
      ensures Valid() && Stream() == old(Stream()) && dmaUsed == 0 && dmaFill == blockSize
    {
      var block := pending[0];
      FlattenCons(pending);
      assert pending[1..] + [] == pending[1..];
      forall k | 0 <= k < blockSize {
        dmaBuf[k] := block[k];
      }
      dmaUsed := 0;
      dmaFill := blockSize;
      pending := pending[1..];
      assert dmaBuf[0..blockSize] == block;
    }

    /** copy_to_user of the next n bytes of the transfer at hand. */
    method CopyOut(buf: array<Byte>, rc: nat, n: nat)
      requires Valid() && buf != dmaBuf && rc + n <= buf.Length && n <= dmaFill - dmaUsed
      modifies this`dmaUsed, buf
      ensures Valid() && n <= |old(Stream())| && Stream() == old(Stream())[n..]
      ensures buf[..rc] == old(buf[..rc]) && buf[rc..rc + n] == old(Stream())[..n] && buf[rc + n..] == old(buf[rc + n..])
    {
      hide Flatten;
      ghost var from, d, b, rest := dmaUsed, dmaBuf[..], buf[..], Flatten(pending);
      forall k | 0 <= k < n {
        buf[rc + k] := dmaBuf[dmaUsed + k];
      }
      dmaUsed := dmaUsed + n;
      Pasted(b, buf[..], rc, d[from..from + n]);
      StreamAfter(d, from, n, dmaFill, rest, old(Stream()), Stream());
    }

    /** Delivers exactly count bytes, the next ones of the stream, across any number of transfers; as long
        as the card goes on delivering, a read is never short. */
    method Read(buf: array<Byte>, count: nat) returns (rc: nat)
      requires Valid() && count <= buf.Length && buf != dmaBuf && count <= |Stream()|
      modifies this, dmaBuf, buf
      ensures Valid() && rc == count
      ensures buf[..count] == old(Stream())[..count] && buf[count..] == old(buf[count..])
      ensures Stream() == old(Stream())[count..]
    {
      hide Flatten, Valid, Stream, Taken;
      ghost var was, b := Stream(), buf[..];
      rc := 0;
      NoneTaken(b, was, count);
      while rc < count
        invariant rc <= count && Valid() && Taken(b, buf[..], was, Stream(), rc, count)
      {
        TakenRest(b, buf[..], was, Stream(), rc, count);
        ghost var before, stream := buf[..], Stream();
        var n := ReadSome(buf, rc, count - rc);
        TakeMore(b, before, buf[..], was, stream, Stream(), rc, n, count);
        rc := rc + n;
      }
      TakenRest(b, buf[..], was, Stream(), rc, count);
    }

    /** One turn of the loop. */
    method ReadSome(buf: array<Byte>, rc: nat, wanted: nat) returns (n: nat)
      requires Valid() && buf != dmaBuf && rc + wanted <= buf.Length && 0 < wanted <= |Stream()|
      modifies this, dmaBuf, buf
      ensures Valid() && 0 < n <= wanted && n <= |old(Stream())| && Stream() == old(Stream())[n..]
      ensures buf[..rc] == old(buf[..rc]) && buf[rc..rc + n] == old(Stream())[..n] && buf[rc + n..] == old(buf[rc + n..])
    {
      hide Flatten;
      if dmaUsed == dmaFill {
        MoreToCome();
        Transfer();
      }
      var available := dmaFill - dmaUsed;
      n := if wanted < available then wanted else available;
      CopyOut(buf, rc, n);
    }

    lemma MoreToCome()
      requires Valid() && dmaUsed == dmaFill && Stream() != []
      ensures pending != []
    {
    }
  }
}
