/** The formulas of the time and charge calibrations (src/base/ProcessHit.cpp:65-105), over real numbers. */
module CalibrationFormulas {
  /** One time-to-amplitude converter. */
  datatype Tac = Tac(t0: real, a0: real, a1: real, a2: real)
  {
    function Discriminant(fine: real): real { a1 * a1 - 4.0 * (a0 - fine) * a2 }
  }

  /** The fraction of a clock cycle that a fine count stands for. Without a quadratic coefficient the code
      divides by zero; what comes of that is not part of this model. */
  function FineTime(sqrt: real -> real, tac: Tac, fine: real): real {
    if tac.a2 == 0.0 then 0.0 else (-tac.a1 + sqrt(tac.Discriminant(fine))) / (2.0 * tac.a2)
  }

  /** It solves the quadratic equation that the calibration was fitted with, and it is the solution at which
      the derivative is not negative. */
  lemma FineTimeSolves(sqrt: real -> real, tac: Tac, fine: real, d: real)
    requires tac.a2 != 0.0 && d == tac.a1 * tac.a1 - 4.0 * tac.a2 * (tac.a0 - fine)
    requires sqrt(d) >= 0.0 && sqrt(d) * sqrt(d) == d
    ensures var q := FineTime(sqrt, tac, fine);
      tac.a0 + tac.a1 * q + tac.a2 * q * q == fine && tac.a1 + 2.0 * tac.a2 * q >= 0.0
  {
    var q, a, b, c := FineTime(sqrt, tac, fine), tac.a2, tac.a1, tac.a0 - fine;
    var root := sqrt(d);
    assert tac.Discriminant(fine) == d by {
      assert 4.0 * a * c == 4.0 * c * a;
    }
    Divides(-b + root, 2.0 * a);
    var s := 2.0 * a * q + b;
    assert s == root;
    assert s * s == d;
    Squares(a, b, c, q);
    assert 4.0 * a * (c + b * q + a * q * q) == 0.0;
    NonZero(a, c + b * q + a * q * q);
  }

  lemma Divides(x: real, y: real)
    requires y != 0.0
    ensures y * (x / y) == x
  {
  }

  lemma NonZero(a: real, x: real)
    requires a != 0.0 && 4.0 * a * x == 0.0
    ensures x == 0.0
  {
  }

  /** Completing the square. */
  lemma Squares(a: real, b: real, c: real, q: real)
    ensures (2.0 * a * q + b) * (2.0 * a * q + b) == 4.0 * a * (c + b * q + a * q * q) + (b * b - 4.0 * a * c)
  {
    var x := 2.0 * a * q;
    assert (x + b) * (x + b) == x * x + 2.0 * x * b + b * b;
    assert x * x == 4.0 * a * (a * q * q);
    assert 2.0 * x * b == 4.0 * a * (b * q);
    assert 4.0 * a * (c + b * q + a * q * q) == 4.0 * a * c + 4.0 * a * (b * q) + 4.0 * a * (a * q * q);
  }

  // ---------------------------------------------------------------- charge

  function Power(t: real, k: nat): real { if k == 0 then 1.0 else Power(t, k - 1) * t }

  /** A polynomial, term by term. */
  function Sum(p: seq<real>, t: real): real {
    if p == [] then 0.0 else var k := |p| - 1; Sum(p[..k], t) + p[k] * Power(t, k)
  }

  /** The same from the inside out. */
  function Horner(p: seq<real>, t: real): real {
    if p == [] then 0.0 else p[0] + t * Horner(p[1..], t)
  }

  /** Both are the same value. */
  lemma {:induction false} SumIsHorner(p: seq<real>, t: real)
    ensures Sum(p, t) == Horner(p, t)
  {
    if p != [] {
      var k := |p| - 1;
      SumIsHorner(p[..k], t);
      HornerSnoc(p[..k], p[k], t);
      assert p == p[..k] + [p[k]];
    }
  }

  lemma {:induction false} HornerSnoc(p: seq<real>, c: real, t: real)
    ensures Horner(p + [c], t) == Horner(p, t) + c * Power(t, |p|)
  {
    if p == [] {
      assert ([] + [c])[1..] == [];
    } else {
      assert (p + [c])[1..] == p[1..] + [c];
      HornerSnoc(p[1..], c, t);
      Distribute(t, Horner(p[1..], t), c, Power(t, |p| - 1));
    }
  }

  lemma Distribute(t: real, h: real, c: real, power: real)
    ensures t * (h + c * power) == t * h + c * (power * t)
  {
  }
}
