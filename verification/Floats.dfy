/** Binary floating-point numbers by their fields, what they mean, and arithmetic whose result needs no rounding. */
module Floats {
  function Pow2(n: nat): (r: nat)
    ensures r > 0
  {
    if n == 0 then 1 else 2 * Pow2(n - 1)
  }

  /** `p` stored mantissa bits, and exponents around `bias`, of which the largest is not for numbers. */
  datatype Format = Format(p: nat, bias: nat) {
    ghost predicate Ok() { 0 < p < bias }
    function Top(): nat { 2 * bias + 1 }
    /** The exponents that whole mantissas are scaled by. */
    function Least(): int { 1 - bias - p }
    function Most(): int { bias - p }
  }
  const DOUBLE := Format(52, 1023)
  const FLOAT := Format(23, 127)

  datatype Float = Float(sign: bool, exponent: nat, mantissa: nat) {
    predicate Ok(f: Format) { exponent <= f.Top() && mantissa < Pow2(f.p) }
    predicate Finite(f: Format) { Ok(f) && exponent < f.Top() }
    predicate Zero() { exponent == 0 && mantissa == 0 }
    /** The mantissa with its implicit bit, and the exponent it is scaled by. */
    function Whole(f: Format): nat { if exponent == 0 then mantissa else Pow2(f.p) + mantissa }
    function Scale(f: Format): int { (if exponent == 0 then 1 else exponent) - f.bias - f.p }
    ghost function Magnitude(f: Format): real { Whole(f) as real * Exp2(Scale(f)) }
    ghost function Value(f: Format): real { if sign then -Magnitude(f) else Magnitude(f) }
  }

  // ---- powers of two

  ghost function Exp2(e: int): (r: real)
    ensures r > 0.0
  {
    if e >= 0 then Pow2(e) as real else 1.0 / Pow2(-e) as real
  }

  lemma Exp2Next(e: int)
    ensures Exp2(e + 1) == 2.0 * Exp2(e)
  {
    if e < 0 {
      var a, b := Pow2(-e) as real, Pow2(-e - 1) as real;
      assert a == 2.0 * b;
      if e < -1 { assert Exp2(e + 1) == 1.0 / b; }
      assert 1.0 / b == 2.0 * (1.0 / a);
    }
  }

  lemma {:induction false} Exp2Up(e: int, n: nat)
    ensures Exp2(e + n) == Pow2(n) as real * Exp2(e)
  {
    hide Exp2, Pow2;
    if n == 0 {
      Pow2Zero();
    } else {
      Exp2Up(e, n - 1);
      Exp2Next(e + n - 1);
      Pow2Next(n - 1);
      Twice(Pow2(n - 1), Exp2(e));
    }
  }

  lemma Pow2Zero() ensures Pow2(0) == 1 {}
  lemma Pow2Next(n: nat) ensures Pow2(n + 1) == 2 * Pow2(n) {}

  lemma Twice(a: nat, x: real)
    ensures 2.0 * (a as real * x) == (2 * a) as real * x
  {}

  lemma {:induction false} Pow2Sum(a: nat, b: nat)
    ensures Pow2(a + b) == Pow2(a) * Pow2(b)
  {
    hide Pow2;
    if b == 0 {
      Pow2Zero();
    } else {
      Pow2Sum(a, b - 1);
      Pow2Next(b - 1);
      Pow2Next(a + b - 1);
    }
  }

  // ---- exact results

  /** `m` times two to the `e` is the magnitude of some number of the format, as `w` and `s` say. */
  ghost predicate Fits(f: Format, m: nat, e: int, w: nat, s: int) {
    m as real * Exp2(e) == w as real * Exp2(s) && w < 2 * Pow2(f.p) && f.Least() <= s <= f.Most()
  }

  /** Where the scales differ, one of the two is a multiple of the other. */
  lemma Scaled(m: nat, e: int, w: nat, s: int)
    requires m as real * Exp2(e) == w as real * Exp2(s) && e <= s
    ensures m == w * Pow2(s - e)
  {
    hide Exp2, Pow2;
    Exp2Up(e, s - e);
    Regroup(w, Pow2(s - e), Exp2(e));
    Cancel(m, w * Pow2(s - e), Exp2(e));
  }

  lemma Regroup(w: nat, n: nat, x: real)
    ensures w as real * (n as real * x) == (w * n) as real * x
  {
    assert (w * n) as real == w as real * n as real;
  }

  lemma Cancel(a: nat, b: nat, x: real)
    requires x > 0.0 && a as real * x == b as real * x
    ensures a == b
  {
    assert (a - b) as real * x == 0.0;
  }

  /** Too long a mantissa has a zero at its end. */
  lemma Halve(f: Format, m: nat, e: int, w: nat, s: int)
    requires Fits(f, m, e, w, s) && m >= 2 * Pow2(f.p)
    ensures m % 2 == 0 && (m / 2) as real * Exp2(e + 1) == m as real * Exp2(e)
  {
    hide Exp2, Pow2;
    if s <= e {
      Scaled(w, s, m, e);
      AtLeast(m, Pow2(e - s));
    } else {
      Scaled(m, e, w, s);
      Pow2Next(s - e - 1);
      assert m == 2 * (w * Pow2(s - e - 1));
      Exp2Next(e);
      Twice(m / 2, Exp2(e));
      Regroup(m / 2, 2, Exp2(e));
    }
  }

  lemma AtLeast(m: nat, n: nat)
    requires n > 0
    ensures m * n >= m
  {}

  lemma Double(m: nat, e: int)
    ensures (2 * m) as real * Exp2(e - 1) == m as real * Exp2(e)
  {
    hide Exp2;
    Exp2Next(e - 1);
    Regroup(m, 2, Exp2(e - 1));
  }

  /** A full mantissa leaves no room for a larger scale. */
  lemma FullScale(f: Format, m: nat, e: int, w: nat, s: int)
    requires Fits(f, m, e, w, s) && Pow2(f.p) <= m
    ensures e <= f.Most()
  {
    hide Exp2, Pow2;
    if e > s { Larger(w, s, m, e); }
  }

  lemma Larger(w: nat, s: int, m: nat, e: int)
    requires w as real * Exp2(s) == m as real * Exp2(e) && s < e
    ensures w >= 2 * m
  {
    hide Exp2, Pow2;
    Scaled(w, s, m, e);
    Pow2Next(e - s - 1);
    assert m * (2 * Pow2(e - s - 1)) == (2 * m) * Pow2(e - s - 1);
    AtLeast(2 * m, Pow2(e - s - 1));
  }

  /** The number with a given sign and magnitude, if there is one. */
  function Encode(f: Format, sign: bool, m: nat, e: int, ghost w: nat, ghost s: int): (r: Float)
    requires f.Ok() && f.Least() <= e && Fits(f, m, e, w, s)
    ensures r.Finite(f) && r.sign == sign && r.Magnitude(f) == m as real * Exp2(e)
    decreases if m >= 2 * Pow2(f.p) then m else 0, e - f.Least()
  {
    hide Exp2, Pow2;
    if m >= 2 * Pow2(f.p) then
      Halve(f, m, e, w, s);
      Encode(f, sign, m / 2, e + 1, w, s)
    else if m >= Pow2(f.p) then
      FullScale(f, m, e, w, s);
      Float(sign, e + f.bias + f.p, m - Pow2(f.p))
    else if e == f.Least() then Float(sign, 0, m)
    else
      Double(m, e);
      Encode(f, sign, 2 * m, e - 1, w, s)
  }

  /** Fields and magnitude determine each other. */
  lemma EncodeFields(f: Format, x: Float)
    requires f.Ok() && x.Finite(f)
    ensures Fits(f, x.Whole(f), x.Scale(f), x.Whole(f), x.Scale(f)) && x.Scale(f) >= f.Least()
    ensures Encode(f, x.sign, x.Whole(f), x.Scale(f), x.Whole(f), x.Scale(f)) == x
  {
    hide Exp2, Pow2;
  }

  /** The whole mantissa with its sign, at a scale no larger than its own. */
  function At(f: Format, x: Float, e: int): int
    requires e <= x.Scale(f)
  {
    var m := x.Whole(f) * Pow2(x.Scale(f) - e);
    if x.sign then -m else m
  }

  lemma AtValue(f: Format, x: Float, e: int)
    requires e <= x.Scale(f)
    ensures x.Value(f) == At(f, x, e) as real * Exp2(e)
  {
    hide Exp2, Pow2;
    Exp2Up(e, x.Scale(f) - e);
    Regroup(x.Whole(f), Pow2(x.Scale(f) - e), Exp2(e));
  }

  ghost function Abs(x: real): real { if x < 0.0 then -x else x }

  lemma AbsTimes(a: int, x: real)
    requires x > 0.0
    ensures Abs(a as real * x) == (if a < 0 then -a else a) as real * x && (a as real * x == 0.0 <==> a == 0)
    ensures a as real * x < 0.0 <==> a < 0
  {
    if a < 0 { assert (-a) as real * x > 0.0; }
    if a > 0 { assert a as real * x > 0.0; }
  }

  lemma Distribute(a: int, b: int, x: real)
    ensures a as real * x + b as real * x == (a + b) as real * x
  {}

  function Finer(f: Format, x: Float, y: Float): int { if x.Scale(f) < y.Scale(f) then x.Scale(f) else y.Scale(f) }
  function Aligned(f: Format, x: Float, y: Float): int { At(f, x, Finer(f, x, y)) + At(f, y, Finer(f, x, y)) }

  lemma SumAt(f: Format, x: Float, y: Float)
    ensures x.Value(f) + y.Value(f) == Aligned(f, x, y) as real * Exp2(Finer(f, x, y))
  {
    hide Exp2, Pow2, At, Float.Value, Float.Scale;
    var e := Finer(f, x, y);
    AtValue(f, x, e);
    AtValue(f, y, e);
    Distribute(At(f, x, e), At(f, y, e), Exp2(e));
  }

  /** A sum that is a number of the format, as `w` and `s` say, is computed exactly. */
  function Add(f: Format, x: Float, y: Float, ghost w: nat, ghost s: int): (r: Float)
    requires f.Ok() && x.Finite(f) && y.Finite(f)
    requires Abs(x.Value(f) + y.Value(f)) == w as real * Exp2(s) && w < 2 * Pow2(f.p) && f.Least() <= s <= f.Most()
    ensures r.Finite(f) && r.Value(f) == x.Value(f) + y.Value(f)
    ensures r.Value(f) == 0.0 ==> r.sign == (x.sign && y.sign)
    ensures r.Value(f) < 0.0 ==> r.sign
    ensures r.Value(f) > 0.0 ==> !r.sign
  {
    hide Exp2, Pow2, Aligned, Float.Magnitude;
    var e, a := Finer(f, x, y), Aligned(f, x, y);
    SumAt(f, x, y);
    AbsTimes(a, Exp2(e));
    Encode(f, if a == 0 then x.sign && y.sign else a < 0, if a < 0 then -a else a, e, w, s)
  }
}
