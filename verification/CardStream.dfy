/** The double buffer on top of the kernel driver: the byte stream that the driver's read calls deliver reaches
    the callers of getWords (src/daqd/PFP_KX7.cpp:125-166 and 264-306, src/kernel/psdaq.c:346-377). */
module CardStream {
  import opened ByteWords
  import opened DmaRead
  import opened DoubleBuffer

  // ---------------------------------------------------------------- filling a half

  /** read, for so many words. */
  method ReadWords(device: PsdaqDevice, n: nat) returns (words: seq<Word>)
    requires device.Valid() && 8 * n <= |device.Stream()|
    modifies device, device.dmaBuf
    ensures device.Valid() && words == ByteWords.Words(old(device.Stream())[..8 * n])
    ensures device.Stream() == old(device.Stream())[8 * n..]
  {
    var buf := new Byte[8 * n];
    var r := device.Read(buf, 8 * n);
    words := ByteWords.Words(buf[..r]);
  }

  /** The reading loop. Although every read stores at the beginning of the half, the half then holds the next
      words of the stream, as the driver delivers all of them in the first one. */
  method FillHalf(device: PsdaqDevice, buffer: array<Word>)
    requires device.Valid() && 8 * buffer.Length <= |device.Stream()|
    modifies device, device.dmaBuf, buffer
    ensures device.Valid() && buffer[..] == ByteWords.Words(old(device.Stream())[..8 * buffer.Length])
    ensures device.Stream() == old(device.Stream())[8 * buffer.Length..]
  {
    hide device.Valid, device.Stream, WordAt;
    var c := 0;
    assert buffer.Length == 0 ==> buffer[..] == ByteWords.Words(device.Stream()[..0]);
    while c < buffer.Length
      invariant device.Valid() && (c == 0 || c == buffer.Length)
      invariant c < buffer.Length ==> device.Stream() == old(device.Stream())
      invariant c == buffer.Length ==>
                  && buffer[..] == ByteWords.Words(old(device.Stream())[..8 * c])
                  && device.Stream() == old(device.Stream())[8 * c..]
    {
      var words := ReadWords(device, buffer.Length - c);
      forall i | 0 <= i < |words| {
        buffer[i] := words[i];
      }
      c := c + |words|;
      assert buffer[..] == words;
    }
  }

  // ---------------------------------------------------------------- runs on the driver's stream

  /** The bytes that a step of the producer takes from the driver. */
  function BytesTaken(s: State, m: Move): nat
    requires Shape(s)
  {
    if m.Produce? then 8 * Asked(s) else 0
  }

  /** What a read returns is what the driver delivers. */
  predicate ReadsStream(s: State, m: Move, stream: seq<Byte>)
    requires Shape(s)
  {
    BytesTaken(s, m) <= |stream| && (m.Produce? ==> m.words == ByteWords.Words(stream[..BytesTaken(s, m)]))
  }

  ghost predicate CardRuns(s: State, stream: seq<Byte>, ms: seq<Move>, s': State)
    decreases |ms|
  {
    if ms == [] then s' == s
    else Enabled(s, ms[0]) && ReadsStream(s, ms[0], stream)
         && CardRuns(Step(s, ms[0]), stream[BytesTaken(s, ms[0])..], ms[1..], s')
  }

  /** One step takes so many words more from the stream. */
  lemma StepTakes(s: State, m: Move, stream: seq<Byte>)
    requires Enabled(s, m) && ReadsStream(s, m, stream)
    ensures ReadsEnough(s, m, s.size) && Step(s, m).size == s.size
    ensures BytesTaken(s, m) <= |stream| && BytesTaken(s, m) == 8 * (BytesTaken(s, m) / 8)
    ensures Step(s, m).dma == s.dma + ByteWords.Words(stream[..BytesTaken(s, m)])
  {
    hide WordAt;
    assert ByteWords.Words([]) == [];
    assert s.dma + [] == s.dma;
  }

  lemma TakeTwice(stream: seq<Byte>, m: nat, n: nat)
    requires 8 * (m + n) <= |stream|
    ensures ByteWords.Words(stream[..8 * m]) + ByteWords.Words(stream[8 * m..][..8 * n]) == ByteWords.Words(stream[..8 * (m + n)])
  {
    hide ByteWords.Words;
    var words := ByteWords.Words(stream);
    WordsOfPart(stream, 0, m);
    WordsOfPart(stream, m, m + n);
    WordsOfPart(stream, 0, m + n);
    assert stream[..8 * m] == stream[8 * 0..8 * m] && stream[..8 * (m + n)] == stream[8 * 0..8 * (m + n)];
    assert stream[8 * m..][..8 * n] == stream[8 * m..8 * (m + n)];
    assert words[0..m] + words[m..m + n] == words[0..m + n];
  }

  lemma TakeMore(a: seq<Word>, b: seq<Word>, c: seq<Word>, stream: seq<Byte>, m: nat, n: nat)
    requires 8 * m <= |stream| && b == a + ByteWords.Words(stream[..8 * m])
    requires 8 * n <= |stream| - 8 * m && c == b + ByteWords.Words(stream[8 * m..][..8 * n])
    ensures c == a + ByteWords.Words(stream[..8 * (m + n)])
  {
    hide ByteWords.Words;
    TakeTwice(stream, m, n);
  }

  /** Reads of the driver are full, and the words read are the first ones of the stream. */
  lemma {:induction false} RunTakes(s: State, stream: seq<Byte>, ms: seq<Move>, s': State) returns (n: nat)
    requires CardRuns(s, stream, ms, s')
    ensures Runs(s, ms, s', s.size)
    ensures 8 * n <= |stream| && s'.dma == s.dma + ByteWords.Words(stream[..8 * n])
    decreases |ms|
  {
    hide Step, ReadsStream, ReadsEnough, Asked, ByteWords.Words;
    if ms == [] {
      n := 0;
      assert ByteWords.Words(stream[..0]) == [];
    } else {
      var t, k := Step(s, ms[0]), BytesTaken(s, ms[0]) / 8;
      StepTakes(s, ms[0], stream);
      var rest := RunTakes(t, stream[8 * k..], ms[1..], s');
      TakeMore(s.dma, t.dma, s'.dma, stream, k, rest);
      n := k + rest;
    }
  }

  /** From the card's bytes to the callers: in every run of both threads on the driver's stream, what the
      getWords calls return, one after the other, is a beginning of the words of that stream, and each call
      that has returned has got as many as it asked for. */
  lemma CardIntegrity(size: nat, stream: seq<Byte>, ms: seq<Move>, s: State)
    requires size > 0 && CardRuns(Fresh(size), stream, ms, s)
    ensures Delivered(s) <= ByteWords.Words(stream)
    ensures |s.wants| == |s.returned| && forall k :: 0 <= k < |s.wants| ==> |s.returned[k]| == s.wants[k]
  {
    hide Runs, Delivered, CardRuns, ByteWords.Words;
    var n := RunTakes(Fresh(size), stream, ms, s);
    StreamIntegrity(size, ms, s);
    WordsOfPart(stream, 0, n);
    assert stream[..8 * n] == stream[8 * 0..8 * n];
    assert Fresh(size).dma == [];
    assert s.dma == ByteWords.Words(stream)[0..n];
  }
}
