/** Configuration words of the ASICs: named bit fields in one bit array (src/petsys_py_lib/tofhir2.py:7-94,
    src/petsys_py_lib/bitarray_utils.py:4-26). */
module ConfigBits {
  import opened Arithmetic

  // ---------------------------------------------------------------- numbers as bits

  function Pow2(n: nat): (p: nat)
    ensures p > 0
  {
    if n == 0 then 1 else 2 * Pow2(n - 1)
  }

  /** The number that bits spell, the most significant one first. */
  function Value(s: seq<bool>): (v: nat)
    ensures v < Pow2(|s|)
  {
    if s == [] then 0 else 2 * Value(s[..|s| - 1]) + if s[|s| - 1] then 1 else 0
  }

  function Clamp(v: int, n: nat): (c: nat)
    ensures c < Pow2(n) && (0 <= v < Pow2(n) ==> c == v) && (v < 0 ==> c == 0) && (v >= Pow2(n) ==> c + 1 == Pow2(n))
  {
    if v < 0 then 0 else if v > Pow2(n) - 1 then Pow2(n) - 1 else v
  }

  /** The value of one more bit in front. */
  lemma {:induction false} ValueCons(b: bool, s: seq<bool>)
    ensures Value([b] + s) == (if b then Pow2(|s|) else 0) + Value(s)
  {
    if s == [] {
      assert [b] + s == [b];
      assert [b][..0] == [];
    } else {
      var s' := s[..|s| - 1];
      assert ([b] + s)[..|s|] == [b] + s';
      ValueCons(b, s');
    }
  }

  lemma {:induction false} PowDivides(v: nat, i: nat)
    ensures v / Pow2(i) / 2 == v / Pow2(i + 1)
  {
    var p := Pow2(i);
    var q, r := v / p, v % p;
    assert v == p * q + r;
    var q', r' := q / 2, q % 2;
    Halves(p, q, q', r');
    DivUnique(v, 2 * p, q', p * r' + r);
  }

  /** The low bits of v, i of them. */
  ghost predicate LowBits(v: nat, i: nat, s: seq<bool>) {
    |s| == i && v == Pow2(i) * (v / Pow2(i)) + Value(s)
  }

  lemma OneMoreBit(v: nat, i: nat, s: seq<bool>)
    requires LowBits(v, i, s)
    ensures LowBits(v, i + 1, [v / Pow2(i) % 2 != 0] + s)
  {
    hide Value;
    var p, q := Pow2(i), v / Pow2(i);
    PowDivides(v, i);
    ValueCons(q % 2 != 0, s);
    Halves(p, q, q / 2, q % 2);
    assert p * (q % 2) == if q % 2 != 0 then p else 0;
    assert Pow2(i + 1) == 2 * p;
  }

  lemma Halves(p: nat, q: nat, half: nat, r: nat)
    requires q == 2 * half + r
    ensures p * q == (2 * p) * half + p * r
  {
    assert p * (2 * half + r) == p * (2 * half) + p * r;
    assert p * (2 * half) == (2 * p) * half;
  }

  lemma AllBits(v: nat, n: nat, s: seq<bool>)
    requires LowBits(v, n, s) && v < Pow2(n)
    ensures Value(s) == v
  {
    DivUnique(v, Pow2(n), 0, v);
  }

  /** Bits of the clamped value, from the least significant one on. */
  method IntToBin(value: int, n: nat) returns (s: seq<bool>)
    ensures |s| == n && Value(s) == Clamp(value, n)
  {
    var v := value;
    if v < 0 {
      v := 0;
    }
    if v > Pow2(n) - 1 {
      v := Pow2(n) - 1;
    }
    assert v == Clamp(value, n);
    hide LowBits, Pow2, Value, Clamp;
    var a := new bool[n];
    NoBits(v);
    for i := 0 to n
      invariant LowBits(v, i, a[n - i..])
    {
      ghost var low := a[n - i..];
      OneMoreBit(v, i, low);
      a[n - i - 1] := v / Pow2(i) % 2 != 0;
      assert a[n - i - 1..] == [a[n - i - 1]] + low;
    }
    s := a[..];
    AllBits(v, n, s);
  }

  lemma NoBits(v: nat)
    ensures LowBits(v, 0, [])
  {
  }

  method BinToInt(s: seq<bool>) returns (r: nat)
    ensures r == Value(s)
  {
    hide Pow2, Value;
    r := 0;
    var n := |s|;
    NoBitsYet(s);
    for i := 0 to n
      invariant r == Pow2(n - i) * Value(s[..i])
    {
      NextPlace(s, i, r);
      r := r + if s[i] then Pow2(n - i - 1) else 0;
    }
    assert s[..n] == s;
  }

  lemma NoBitsYet(s: seq<bool>)
    ensures Pow2(|s|) * Value(s[..0]) == 0 && Pow2(0) == 1
  {
  }

  lemma NextPlace(s: seq<bool>, i: nat, r: nat)
    requires i < |s| && r == Pow2(|s| - i) * Value(s[..i])
    ensures r + (if s[i] then Pow2(|s| - i - 1) else 0) == Pow2(|s| - (i + 1)) * Value(s[..i + 1])
  {
    var p, v, t := Pow2(|s| - i - 1), Value(s[..i]), if s[i] then 1 else 0;
    assert s[..i + 1][..i] == s[..i];
    assert Value(s[..i + 1]) == 2 * v + t && Pow2(|s| - i) == 2 * p;
    Halves(p, 2 * v + t, v, t);
  }

  /** Bits are determined by their number and what they spell. */
  lemma {:induction false} ValueDetermines(a: seq<bool>, b: seq<bool>)
    requires |a| == |b| && Value(a) == Value(b)
    ensures a == b
  {
    if a != [] {
      var n := |a| - 1;
      ValueDetermines(a[..n], b[..n]);
      assert a == a[..n] + [a[n]] && b == b[..n] + [b[n]];
    }
  }

  /** Each bit is the one of the value at its place, the last one the lowest. */
  lemma {:induction false} BitOfValue(s: seq<bool>, i: nat)
    requires i < |s|
    ensures Value(s) / Pow2(|s| - 1 - i) % 2 == if s[i] then 1 else 0
  {
    var n := |s| - 1;
    if i < n {
      BitOfValue(s[..n], i);
      var v, k := Value(s[..n]), n - 1 - i;
      PowDivides(Value(s), k);
      DivTwice(Value(s), Pow2(k));
      assert Value(s) / 2 == v;
    }
  }

  lemma DivTwice(v: nat, p: nat)
    requires p > 0
    ensures v / p / 2 == v / 2 / p
  {
    var q, r := v / p / 2, v / p % 2;
    var h, one := v / 2, v % 2;
    DivSplit(v, p);
    assert v == p * (2 * q + r) + v % p;
    var low := p * r + v % p;
    assert p * (2 * q + r) == 2 * (p * q) + p * r;
    assert v == 2 * (p * q) + low;
    assert low < 2 * p;
    assert h == p * q + low / 2;
    DivUnique(h, p, q, low / 2);
  }
}
