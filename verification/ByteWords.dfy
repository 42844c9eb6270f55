/** Words of 64 bits, and the bytes they are made of, the least significant one first. */
module ByteWords {
  type Byte = b: nat | b < 256

  type Word = w: nat | w < 0x1_0000_0000_0000_0000

  function WordAt(bytes: seq<Byte>, i: nat): Word
    requires 8 * i + 8 <= |bytes|
  {
    var b := (k: nat) requires k < 8 => bytes[8 * i + k] as nat;
    b(0) + 0x100 * b(1) + 0x1_0000 * b(2) + 0x100_0000 * b(3) + 0x1_0000_0000 * b(4) + 0x100_0000_0000 * b(5)
    + 0x1_0000_0000_0000 * b(6) + 0x100_0000_0000_0000 * b(7)
  }

  function Words(bytes: seq<Byte>): (words: seq<Word>)
    ensures |words| == |bytes| / 8
  {
    seq(|bytes| / 8, i requires 0 <= i < |bytes| / 8 => WordAt(bytes, i))
  }

  lemma WordsOfPart(bytes: seq<Byte>, from: nat, to: nat)
    requires from <= to && 8 * to <= |bytes|
    ensures Words(bytes[8 * from..8 * to]) == Words(bytes)[from..to]
  {
    hide WordAt, Words;
    var part := bytes[8 * from..8 * to];
    forall i | 0 <= i < to - from ensures Words(part)[i] == Words(bytes)[from + i] {
      WordOfPart(bytes, part, from, i);
      WordIn(part, i);
      WordIn(bytes, from + i);
    }
  }

  lemma WordIn(bytes: seq<Byte>, i: nat)
    requires 8 * i + 8 <= |bytes|
    ensures Words(bytes)[i] == WordAt(bytes, i)
  {
  }

  lemma WordOfPart(bytes: seq<Byte>, part: seq<Byte>, from: nat, i: nat)
    requires 8 * i + 8 <= |part| && 8 * from + |part| <= |bytes| && part == bytes[8 * from..8 * from + |part|]
    ensures WordAt(part, i) == WordAt(bytes, from + i)
  {
    var at, at' := 8 * i, 8 * (from + i);
    assert part[at] == bytes[at'] && part[at + 1] == bytes[at' + 1] && part[at + 2] == bytes[at' + 2];
    assert part[at + 3] == bytes[at' + 3] && part[at + 4] == bytes[at' + 4] && part[at + 5] == bytes[at' + 5];
    assert part[at + 6] == bytes[at' + 6] && part[at + 7] == bytes[at' + 7];
  }

  // ---------------------------------------------------------------- words as bytes

  /** The lowest n bytes of a number, the least significant one first. */
  function LittleEndian(w: nat, n: nat): (bytes: seq<Byte>)
    ensures |bytes| == n
  {
    if n == 0 then [] else [w % 256] + LittleEndian(w / 256, n - 1)
  }

  /** Words as fwrite puts them into a file. */
  function Bytes(ws: seq<Word>): (bytes: seq<Byte>)
    ensures |bytes| == 8 * |ws|
  {
    if ws == [] then [] else Bytes(ws[..|ws| - 1]) + LittleEndian(ws[|ws| - 1], 8)
  }

  lemma ByteAt(w: nat, n: nat, v: nat)
    requires n > 0 && v == w / 256
    ensures LittleEndian(w, n)[0] == w % 256 && LittleEndian(w, n)[1..] == LittleEndian(v, n - 1)
    ensures w == 256 * v + w % 256
  {
  }

  lemma WordOfBytes(w: Word)
    ensures WordAt(LittleEndian(w, 8), 0) == w
  {
    hide LittleEndian;
    var w1, w2, w3, w4 := w / 0x100, w / 0x100 / 0x100, w / 0x100 / 0x100 / 0x100, w / 0x100 / 0x100 / 0x100 / 0x100;
    var w5 := w4 / 0x100;
    var w6 := w5 / 0x100;
    var w7 := w6 / 0x100;
    ByteAt(w, 8, w1);
    ByteAt(w1, 7, w2);
    ByteAt(w2, 6, w3);
    ByteAt(w3, 5, w4);
    ByteAt(w4, 4, w5);
    ByteAt(w5, 3, w6);
    ByteAt(w6, 2, w7);
    ByteAt(w7, 1, w7 / 0x100);
    var b := LittleEndian(w, 8);
    assert b[0] == w % 0x100 && b[1] == w1 % 0x100 && b[2] == w2 % 0x100 && b[3] == w3 % 0x100;
    assert b[4] == w4 % 0x100 && b[5] == w5 % 0x100 && b[6] == w6 % 0x100 && b[7] == w7 % 0x100;
    assert w7 < 0x100;
  }

  lemma {:induction false} WordsOfBytes(ws: seq<Word>)
    ensures Words(Bytes(ws)) == ws
  {
    hide Words, WordAt, LittleEndian, Bytes;
    if ws == [] {
      assert Words(Bytes(ws)) == [];
    } else {
      var n := |ws| - 1;
      var bytes := Bytes(ws);
      LastBytes(ws, 8 * n);
      WordsOfBytes(ws[..n]);
      WordsOfPart(bytes, 0, n);
      WordOfPart(bytes, bytes[8 * n..8 * n + 8], n, 0);
      WordOfBytes(ws[n]);
      WordIn(bytes, n);
      assert Words(bytes) == Words(bytes)[0..n] + [Words(bytes)[n]];
    }
  }

  lemma LastBytes(ws: seq<Word>, at: nat)
    requires ws != [] && at == |Bytes(ws[..|ws| - 1])|
    ensures at + 8 == |Bytes(ws)|
    ensures Bytes(ws)[0..at] == Bytes(ws[..|ws| - 1]) && Bytes(ws)[at..at + 8] == LittleEndian(ws[|ws| - 1], 8)
  {
    BytesSnoc(ws);
    hide LittleEndian, Bytes;
    Halved(Bytes(ws), Bytes(ws[..|ws| - 1]), LittleEndian(ws[|ws| - 1], 8), at);
  }

  lemma BytesSnoc(ws: seq<Word>)
    requires ws != []
    ensures Bytes(ws) == Bytes(ws[..|ws| - 1]) + LittleEndian(ws[|ws| - 1], 8)
  {
    hide LittleEndian;
  }

  lemma Halved(all: seq<Byte>, a: seq<Byte>, b: seq<Byte>, m: nat)
    requires all == a + b && |a| == m
    ensures all[0..m] == a && all[m..m + |b|] == b
  {
  }
}
