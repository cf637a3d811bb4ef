/** Rounding to an integer by editing the fields of a number, and splitting a number into integer and fraction. */
module Rounding {
  import opened Floats

  datatype Mode = ToZero | Up | Down | ToEven

  // ---- what the functions of section 7.12.9 of C11 compute

  /**
   * The greatest integer not above, the least not below, the next towards zero, and the nearest with halves away from
   * zero.
   */
  ghost function Rounded(v: real, mode: Mode): int {
    match mode
    case Down => v.Floor
    case Up => -(-v).Floor
    case ToZero => if v < 0.0 then -(-v).Floor else v.Floor
    case ToEven => if v < 0.0 then -(-v + 0.5).Floor else (v + 0.5).Floor
  }

  ghost predicate Integral(v: real) { v == v.Floor as real }

  /** Floor and ceiling are the nearest integers below and above. */
  lemma DirectedIs(v: real, i: int)
    ensures Rounded(v, Down) as real <= v <= Rounded(v, Up) as real
    ensures i as real <= v ==> i <= Rounded(v, Down)
    ensures i as real >= v ==> i >= Rounded(v, Up)
  {
    Floored(v, i);
    Floored(-v, -i);
  }

  lemma Floored(v: real, i: int)
    ensures v.Floor as real <= v < v.Floor as real + 1.0 && (i as real <= v ==> i <= v.Floor)
  {}

  /** Nothing is nearer, and a half goes away from zero. */
  lemma NearestIs(v: real, i: int)
    ensures var n := Rounded(v, ToEven) as real;
            && Abs(v - n) <= 0.5 && Abs(v - n) <= Abs(v - i as real) && (Abs(v - n) == 0.5 ==> Abs(n) > Abs(v))
  {
    var u, j := Abs(v), if v < 0.0 then -i else i;
    var k := (u + 0.5).Floor;
    assert -0.5 < k as real - u <= 0.5;
    if j != k { assert j as real - k as real >= 1.0 || j as real - k as real <= -1.0; }
  }

  /** The nearest integer, with halves to the even neighbour. */
  ghost function HalfEven(v: real): int {
    var u := Abs(v);
    var n :=
      if u - u.Floor as real > 0.5 || (u - u.Floor as real == 0.5 && u.Floor % 2 == 1) then u.Floor + 1
      else u.Floor;
    if v < 0.0 then -n else n
  }

  /** Halfway from an even integer to the next, away from zero. */
  ghost predicate HalfAboveEven(v: real) { Abs(v) - Abs(v).Floor as real == 0.5 && Abs(v).Floor % 2 == 0 }

  /** What nearbyint is for: the direction the floating-point environment is set to. */
  ghost function Nearby(v: real, mode: Mode): int { if mode == ToEven then HalfEven(v) else Rounded(v, mode) }

  /** The mode called to even takes a half above an even magnitude away from zero. */
  lemma EvenDiffers(v: real)
    ensures Rounded(v, ToEven) == HalfEven(v) <==> !HalfAboveEven(v)
  {
    var u := Abs(v);
    var y := u - u.Floor as real;
    assert (u + 0.5).Floor == if y >= 0.5 then u.Floor + 1 else u.Floor;
  }

  // ---- magnitudes

  lemma {:induction false} Exp2Below(a: int, b: int)
    requires a <= b
    ensures Exp2(a) <= Exp2(b)
    decreases b - a
  {
    hide Exp2;
    if a < b {
      Exp2Below(a, b - 1);
      Exp2Next(b - 1);
    }
  }

  lemma Times(a: nat, b: nat, x: real)
    requires x > 0.0
    ensures a < b ==> a as real * x < b as real * x
    ensures a <= b ==> a as real * x <= b as real * x
  {}

  lemma Exp2Small()
    ensures Exp2(0) == 1.0 && Exp2(-1) == 0.5
  {
    assert Pow2(1) == 2;
  }

  /** A number lies between two powers of two. */
  lemma Between(f: Format, x: Float)
    requires f.Ok() && x.Finite(f)
    ensures x.exponent > 0 ==> Exp2(x.exponent - f.bias) <= x.Magnitude(f)
    ensures x.Magnitude(f) < Exp2((if x.exponent == 0 then 0 else x.exponent) - f.bias + 1)
  {
    hide Exp2, Pow2;
    var s, w, b := x.Scale(f), x.Whole(f), Pow2(f.p);
    Exp2Up(s, f.p);
    MagnitudeIs(f, x);
    hide Float.Magnitude;
    if x.exponent == 0 {
      assert s + f.p == 1 - f.bias;
      assert Exp2(1 - f.bias) == b as real * Exp2(s);
      Times(w, b, Exp2(s));
    } else {
      assert s + f.p == x.exponent - f.bias;
      Times(b, w, Exp2(s));
      Times(w, 2 * b, Exp2(s));
      Exp2Next(s + f.p);
      Twice(b, Exp2(s));
    }
  }

  /** A negative exponent: the number is between zero and one, and at least a half with exponent minus one only. */
  lemma Fraction(f: Format, x: Float)
    requires f.Ok() && x.Finite(f) && x.exponent < f.bias
    ensures 0.0 <= x.Magnitude(f) < 1.0 && (x.Magnitude(f) == 0.0 <==> x.Zero())
    ensures x.Magnitude(f) >= 0.5 <==> x.exponent == f.bias - 1
  {
    hide Exp2, Pow2;
    Between(f, x);
    Exp2Small();
    var e := (if x.exponent == 0 then 0 else x.exponent) - f.bias + 1;
    Exp2Below(e, 0);
    if x.exponent < f.bias - 1 { Exp2Below(e, -1); }
    AbsTimes(x.Whole(f), Exp2(x.Scale(f)));
  }

  /** A large exponent: the number is an integer. */
  lemma Large(f: Format, x: Float)
    requires f.Ok() && x.Finite(f) && x.exponent >= f.bias + f.p
    ensures Integral(x.Magnitude(f))
  {
    assert x.Magnitude(f) == (x.Whole(f) * Pow2(x.Scale(f))) as real;
  }

  /** Otherwise `d` bits of the mantissa are behind the point. */
  lemma Behind(f: Format, x: Float, d: int)
    requires f.Ok() && x.Finite(f) && f.bias <= x.exponent < f.bias + f.p && d == f.bias + f.p - x.exponent
    ensures d > 0 && x.Magnitude(f) * Pow2(d) as real == x.Whole(f) as real
  {
    hide Pow2;
    var n := Pow2(d) as real;
    assert x.Scale(f) == -d && Exp2(-d) == 1.0 / n;
    Unscale(x.Whole(f) as real, n);
  }

  lemma Unscale(a: real, n: real)
    requires n > 0.0
    ensures a * (1.0 / n) * n == a
  {
    assert (1.0 / n) * n == 1.0;
    assert a * (1.0 / n) * n == a * ((1.0 / n) * n);
  }

  /** A quotient and remainder give the integer and the fraction. */
  lemma Quotient(v: real, n: nat, m: nat, t: nat, r: nat)
    requires n > 0 && v * n as real == m as real && m == t * n + r && r < n
    ensures v.Floor == t && (r == 0 <==> v == t as real) && (2 * r >= n <==> v - t as real >= 0.5)
  {
    Rest(v, n, t, r);
    Share(v - t as real, n, r);
  }

  lemma Rest(v: real, n: nat, t: nat, r: nat)
    requires v * n as real == (t * n + r) as real
    ensures (v - t as real) * n as real == r as real
  {
    assert (t * n) as real == t as real * n as real;
  }

  lemma Share(y: real, n: nat, r: nat)
    requires n > 0 && y * n as real == r as real && r < n
    ensures 0.0 <= y < 1.0 && (r == 0 <==> y == 0.0) && (2 * r >= n <==> y >= 0.5)
  {
    var x := n as real;
    Smaller(y, 0.0, x);
    Smaller(y, 0.5, x);
    Smaller(y, 1.0, x);
    assert 2 * r < n <==> r as real < 0.5 * x;
  }

  lemma Smaller(a: real, b: real, x: real)
    requires x > 0.0
    ensures (a * x < b * x <==> a < b) && (a * x == b * x <==> a == b)
  {
    if a < b { assert (b - a) * x > 0.0; }
    if a > b { assert (a - b) * x > 0.0; }
  }

  // ---- to_integer

  /** What is left of a number without its fraction, and whether the fraction has the half bit and others. */
  ghost predicate Cut(f: Format, x: Float, t: Float, half: bool, other: bool) {
    && t.Finite(f) && t.sign == x.sign && t.Magnitude(f) == x.Magnitude(f).Floor as real
    && (half <==> x.Magnitude(f) - t.Magnitude(f) >= 0.5)
    && (half || other <==> x.Magnitude(f) > t.Magnitude(f) || x.Zero())
  }

  lemma CutBelowOne(f: Format, x: Float)
    requires f.Ok() && x.Finite(f) && x.exponent < f.bias
    ensures Cut(f, x, Float(x.sign, 0, 0), x.exponent == f.bias - 1, x.exponent < f.bias - 1 || x.mantissa != 0)
    ensures x.Magnitude(f).Floor < Pow2(f.p)
  {
    Fraction(f, x);
    hide Exp2, Pow2;
  }

  /** The whole mantissa in units of the integer's last bit. */
  lemma DeadBits(f: Format, x: Float, d: int, n: nat, dead: nat, q: nat)
    requires f.Ok() && x.Finite(f) && f.bias <= x.exponent < f.bias + f.p && d == f.bias + f.p - x.exponent
    requires n == Pow2(d) && q == Pow2(x.exponent - f.bias) + x.mantissa / n && dead == x.mantissa % n
    ensures x.Whole(f) == q * n + dead && dead < n && dead <= x.mantissa && q < Pow2(f.p)
  {
    hide Pow2;
    Pow2Sum(x.exponent - f.bias, d);
    Divided(x.mantissa, n);
    Units(Pow2(x.exponent - f.bias), x.mantissa / n, n);
    Pow2Next(d - 1);
    Shorter(q, n, dead, Pow2(f.p));
  }

  lemma Divided(m: nat, n: nat)
    requires n > 0
    ensures m == m / n * n + m % n && m % n < n && m % n <= m
  {
    assert m / n * n >= 0;
  }

  lemma Units(a: nat, b: nat, n: nat) ensures (a + b) * n == a * n + b * n {}

  lemma Shorter(q: nat, n: nat, r: nat, b: nat)
    requires q * n + r < 2 * b && n >= 2
    ensures q < b
  {
    assert q * n >= 2 * q;
  }

  lemma CutAbove(f: Format, x: Float, d: int)
    requires f.Ok() && x.Finite(f) && f.bias <= x.exponent < f.bias + f.p && d == f.bias + f.p - x.exponent
    ensures var n := Pow2(d);
            var dead := x.mantissa % n;
            && dead <= x.mantissa && x.Magnitude(f).Floor < Pow2(f.p)
            && Cut(f, x, x.(mantissa := x.mantissa - dead), dead >= Pow2(d - 1), dead % Pow2(d - 1) != 0)
  {
    hide Pow2, Exp2, Float.Magnitude;
    var n := Pow2(d);
    var dead := x.mantissa % n;
    var q := Pow2(x.exponent - f.bias) + x.mantissa / n;
    DeadBits(f, x, d, n, dead, q);
    var t := x.(mantissa := x.mantissa - dead);
    assert t.Whole(f) == q * n + 0;
    Behind(f, x, d);
    Behind(f, t, d);
    Quotient(x.Magnitude(f), n, x.Whole(f), q, dead);
    Quotient(t.Magnitude(f), n, t.Whole(f), q, 0);
    Pow2Next(d - 1);
    Remains(dead, Pow2(d - 1));
  }

  lemma Remains(m: nat, n: nat)
    requires n > 0
    ensures m < n ==> m % n == m
  {}

  /** Whether the integer is one further from zero than the number without its fraction. */
  predicate Away(mode: Mode, sign: bool, half: bool, other: bool) {
    match mode
    case ToEven => half
    case Up => !sign && (other || half)
    case Down => sign && (other || half)
    case ToZero => false
  }

  /** Zero counts as having a fraction, so it does not survive rounding away from zero. */
  predicate Astray(x: Float, mode: Mode) { x.Zero() && ((mode == Up && !x.sign) || (mode == Down && x.sign)) }

  lemma AwayRight(f: Format, x: Float, t: Float, half: bool, other: bool, mode: Mode)
    requires f.Ok() && x.Finite(f) && Cut(f, x, t, half, other) && x.Magnitude(f) >= 0.0
    ensures var i := x.Magnitude(f).Floor + if Away(mode, x.sign, half, other) then 1 else 0;
            Rounded(x.Value(f), mode) == (if x.sign then -i else i) <==> !Astray(x, mode)
  {
    hide Pow2, Exp2, Float.Magnitude;
    var m := x.Magnitude(f);
    var k := m.Floor;
    ZeroMagnitude(f, x);
    assert (m + 0.5).Floor == if m - k as real >= 0.5 then k + 1 else k;
    assert m > k as real ==> -(-m).Floor == k + 1;
    assert m == k as real ==> -(-m).Floor == k;
  }

  lemma ZeroMagnitude(f: Format, x: Float)
    ensures x.Magnitude(f) >= 0.0 && (x.Magnitude(f) == 0.0 <==> x.Whole(f) == 0) && (x.Whole(f) == 0 <==> x.Zero())
  {
    AbsTimes(x.Whole(f), Exp2(x.Scale(f)));
  }

  /** The number one with a sign. */
  function One(f: Format, sign: bool): (r: Float)
    requires f.Ok()
    ensures r.Finite(f) && r.sign == sign && r.Magnitude(f) == 1.0
  {
    var r := Float(sign, f.bias, 0);
    Unscale(1.0, Pow2(f.p) as real);
    r
  }

  lemma Further(f: Format, t: Float, k: nat)
    requires f.Ok() && t.Finite(f) && t.Magnitude(f) == k as real && k < Pow2(f.p)
    ensures Abs(t.Value(f) + One(f, t.sign).Value(f)) == (k + 1) as real * Exp2(0) && k + 1 < 2 * Pow2(f.p)
    ensures f.Least() <= 0 <= f.Most()
  {
    Exp2Small();
    hide Pow2, Exp2;
  }

  /** Every finite number comes out rounded, except that a zero may come out as one or minus one. */
  method ToInteger(f: Format, x: Float, mode: Mode) returns (r: Float)
    requires f.Ok() && x.Ok(f)
    ensures !x.Finite(f) ==> r == x
    ensures x.Finite(f) ==> r.Finite(f) && r.sign == x.sign && Integral(r.Value(f))
    ensures x.Finite(f) ==> (r.Value(f) == Rounded(x.Value(f), mode) as real <==> !Astray(x, mode))
    ensures x.Finite(f) && Astray(x, mode) ==> r.Value(f) == if x.sign then -1.0 else 1.0
  {
    hide Pow2, Exp2, Float.Magnitude, Cut, Rounded, Astray;
    if !x.Finite(f) { return x; }
    ZeroMagnitude(f, x);
    var half, other := false, false;
    var t := x;
    if x.exponent < f.bias {
      half := x.exponent == f.bias - 1;
      other := x.exponent < f.bias - 1 || x.mantissa != 0;
      t := Float(x.sign, 0, 0);
      CutBelowOne(f, x);
    } else {
      if x.exponent - f.bias >= f.p {
        Large(f, x);
        WholeRounded(f, x, mode);
        return x;
      }
      var d := f.p - (x.exponent - f.bias);
      var dead := x.mantissa % Pow2(d);
      CutAbove(f, x, d);
      t := x.(mantissa := x.mantissa - dead);
      other := dead % Pow2(d - 1) != 0;
      half := dead >= Pow2(d - 1);
    }
    r := Settle(f, x, t, half, other, mode);
  }

  lemma WholeRounded(f: Format, x: Float, mode: Mode)
    requires Integral(x.Magnitude(f)) && x.exponent > 0
    ensures Integral(x.Value(f)) && Rounded(x.Value(f), mode) as real == x.Value(f) && !Astray(x, mode)
  {
    hide Pow2, Exp2, Float.Magnitude;
    var m := x.Magnitude(f);
    assert (-m).Floor == -m.Floor && (m + 0.5).Floor == m.Floor && (-m + 0.5).Floor == -m.Floor;
  }

  /** The last step: one further from zero, or not. */
  method Settle(f: Format, x: Float, t: Float, half: bool, other: bool, mode: Mode) returns (r: Float)
    requires f.Ok() && x.Finite(f) && Cut(f, x, t, half, other) && 0.0 <= x.Magnitude(f)
    requires x.Magnitude(f).Floor < Pow2(f.p)
    ensures r.Finite(f) && r.sign == x.sign && Integral(r.Value(f))
    ensures r.Value(f) == Rounded(x.Value(f), mode) as real <==> !Astray(x, mode)
    ensures Astray(x, mode) ==> r.Value(f) == if x.sign then -1.0 else 1.0
  {
    hide Pow2, Exp2, Float.Magnitude, Float.Value, Rounded, Astray, Cut, Integral, Abs, Away;
    ghost var k := x.Magnitude(f).Floor;
    AstrayAway(f, x, t, half, other, mode);
    AwayRight(f, x, t, half, other, mode);
    CutValue(f, x, t, half, other);
    if Away(mode, x.sign, half, other) {
      r := OneFurther(f, t, k);
      IntegralOf(if x.sign then -(k + 1) else k + 1, r.Value(f));
    } else {
      r := t;
      IntegralOf(if x.sign then -k else k, r.Value(f));
    }
  }

  lemma AstrayAway(f: Format, x: Float, t: Float, half: bool, other: bool, mode: Mode)
    requires f.Ok() && x.Finite(f) && Cut(f, x, t, half, other)
    ensures Astray(x, mode) ==> x.Magnitude(f).Floor == 0 && Away(mode, x.sign, half, other)
  {
    ZeroMagnitude(f, x);
    hide Pow2, Exp2, Float.Magnitude;
  }

  /** Adding one, with the sign of the number. */
  method OneFurther(f: Format, t: Float, ghost k: nat) returns (r: Float)
    requires f.Ok() && t.Finite(f) && t.Magnitude(f) == k as real && k < Pow2(f.p)
    ensures r.Finite(f) && r.sign == t.sign && r.Value(f) == (if t.sign then -(k + 1) else k + 1) as real
  {
    hide Pow2, Exp2, Float.Magnitude, Abs;
    Further(f, t, k);
    OneValue(f, t.sign);
    r := Add(f, t, One(f, t.sign), k + 1, 0);
  }

  lemma IntegralOf(i: int, v: real)
    requires v == i as real
    ensures Integral(v)
  {}

  lemma CutValue(f: Format, x: Float, t: Float, half: bool, other: bool)
    requires f.Ok() && x.Finite(f) && Cut(f, x, t, half, other) && x.Magnitude(f) >= 0.0
    ensures var k := x.Magnitude(f).Floor;
            && k >= 0 && t.Finite(f) && t.sign == x.sign && t.Magnitude(f) == k as real
            && t.Value(f) == (if x.sign then -k else k) as real
  {
    hide Pow2, Exp2, Float.Magnitude;
  }

  lemma OneValue(f: Format, sign: bool)
    requires f.Ok()
    ensures One(f, sign).Value(f) == if sign then -1.0 else 1.0
  {
    hide Pow2, Exp2;
  }

  // ---- the functions of the library

  method Ceil(f: Format, x: Float) returns (r: Float)
    requires f.Ok() && x.Finite(f)
    ensures r.Finite(f) && (r.Value(f) == Rounded(x.Value(f), Up) as real <==> !(x.Zero() && !x.sign))
  {
    r := ToInteger(f, x, Up);
  }

  method Floor(f: Format, x: Float) returns (r: Float)
    requires f.Ok() && x.Finite(f)
    ensures r.Finite(f) && (r.Value(f) == Rounded(x.Value(f), Down) as real <==> !(x.Zero() && x.sign))
  {
    r := ToInteger(f, x, Down);
  }

  method Round(f: Format, x: Float) returns (r: Float)
    requires f.Ok() && x.Finite(f)
    ensures r.Finite(f) && r.Value(f) == Rounded(x.Value(f), ToEven) as real
  {
    r := ToInteger(f, x, ToEven);
  }

  /** In the mode of the environment: right, unless it is to even and the number a half above an even magnitude. */
  method Nearbyint(f: Format, x: Float, mode: Mode) returns (r: Float)
    requires f.Ok() && x.Ok(f)
    ensures !x.Finite(f) ==> r == x
    ensures x.Finite(f) ==> r.Finite(f) && Integral(r.Value(f))
    ensures x.Finite(f) ==>
      (r.Value(f) == Nearby(x.Value(f), mode) as real <==>
       !Astray(x, mode) && !(mode == ToEven && HalfAboveEven(x.Value(f))))
    ensures x.Finite(f) && mode == ToEven ==> r.Value(f) == Rounded(x.Value(f), ToEven) as real
  {
    hide Pow2, Exp2, Float.Magnitude, Float.Value, Rounded, HalfEven, HalfAboveEven, Integral;
    r := ToInteger(f, x, mode);
    EvenDiffers(x.Value(f));
    if mode == ToEven { SameInteger(Rounded(x.Value(f), ToEven), HalfEven(x.Value(f))); }
  }

  lemma SameInteger(i: int, j: int) ensures i == j <==> i as real == j as real {}

  /** One half comes out as one, where the even neighbour is zero. */
  method HalfToOne(f: Format) returns (r: Float)
    requires f.Ok()
    ensures var half := Float(false, f.bias - 1, 0);
            half.Finite(f) && half.Value(f) == 0.5 && HalfEven(0.5) == 0 && r.Value(f) == 1.0
  {
    hide Pow2, Exp2;
    var half := Float(false, f.bias - 1, 0);
    HalfValue(f);
    assert Rounded(0.5, ToEven) == 1 && HalfEven(0.5) == 0;
    r := Nearbyint(f, half, ToEven);
  }

  lemma HalfValue(f: Format)
    requires f.Ok()
    ensures Float(false, f.bias - 1, 0).Value(f) == 0.5
  {
    hide Pow2, Exp2;
    Exp2Small();
    Exp2Up(-1 - f.p, f.p);
  }

  /** The fraction of a number is itself a number. */
  lemma FractionFits(f: Format, x: Float) returns (w: nat, s: int)
    requires f.Ok() && x.Finite(f)
    ensures x.Magnitude(f) - x.Magnitude(f).Floor as real == w as real * Exp2(s) && w < 2 * Pow2(f.p)
    ensures f.Least() <= s <= f.Most()
  {
    hide Pow2, Exp2, Float.Magnitude;
    s := x.Scale(f);
    if x.exponent < f.bias {
      Fraction(f, x);
      MagnitudeIs(f, x);
      w := x.Whole(f);
    } else if x.exponent >= f.bias + f.p {
      Large(f, x);
      w := 0;
    } else {
      w := FractionBits(f, x);
    }
  }

  lemma MagnitudeIs(f: Format, x: Float) ensures x.Magnitude(f) == x.Whole(f) as real * Exp2(x.Scale(f)) {}

  lemma FractionBits(f: Format, x: Float) returns (w: nat)
    requires f.Ok() && x.Finite(f) && f.bias <= x.exponent < f.bias + f.p
    ensures x.Magnitude(f) - x.Magnitude(f).Floor as real == w as real * Exp2(x.Scale(f)) && w < 2 * Pow2(f.p)
  {
    hide Pow2, Exp2, Float.Magnitude;
    var d := f.bias + f.p - x.exponent;
    var n := Pow2(d);
    w := x.mantissa % n;
    var q := Pow2(x.exponent - f.bias) + x.mantissa / n;
    DeadBits(f, x, d, n, w, q);
    Behind(f, x, d);
    Quotient(x.Magnitude(f), n, x.Whole(f), q, w);
    Rest(x.Magnitude(f), n, q, w);
    DeadPart(f, x, d, n, q, w);
  }

  lemma DeadPart(f: Format, x: Float, d: int, n: nat, q: nat, w: nat)
    requires d > 0 && n == Pow2(d) && x.Scale(f) == -d && (x.Magnitude(f) - q as real) * n as real == w as real
    ensures x.Magnitude(f) - q as real == w as real * Exp2(x.Scale(f))
  {
    hide Pow2, Float.Magnitude;
    var y, a := x.Magnitude(f) - q as real, n as real;
    assert Exp2(-d) == 1.0 / a;
    Unscale(w as real, a);
    Smaller(y, w as real * (1.0 / a), a);
  }

  /** Integer and fraction add up to the number, and both have its sign. */
  method Modf(f: Format, x: Float) returns (fraction: Float, whole: Float)
    requires f.Ok() && x.Finite(f)
    ensures whole.Finite(f) && fraction.Finite(f) && whole.sign == fraction.sign == x.sign
    ensures whole.Value(f) + fraction.Value(f) == x.Value(f) && Integral(whole.Value(f)) && Abs(fraction.Value(f)) < 1.0
  {
    hide Pow2, Exp2, Float.Magnitude, Abs;
    whole := ToInteger(f, x, ToZero);
    ghost var w, s := FractionFits(f, x);
    ghost var v := x.Value(f);
    ZeroMagnitude(f, x);
    Parts(v, x.Magnitude(f));
    fraction := Add(f, x, Minus(f, whole), w, s);
    SameSign(f, x);
    if fraction.sign != x.sign { fraction := Minus(f, fraction); }
  }

  function Minus(f: Format, x: Float): (r: Float)
    ensures (x.Finite(f) ==> r.Finite(f)) && r.Value(f) == -x.Value(f) && r.sign == !x.sign
  {
    hide Pow2, Exp2;
    x.(sign := !x.sign)
  }

  lemma Parts(v: real, m: real)
    requires m >= 0.0 && (v == m || v == -m)
    ensures var k := Rounded(v, ToZero) as real;
            && Abs(v - k) == m - m.Floor as real && Abs(v - k) < 1.0 && (v - k > 0.0 ==> v > 0.0)
            && (v - k < 0.0 ==> v < 0.0)
  {}

  lemma SameSign(f: Format, x: Float)
    ensures (x.Value(f) > 0.0 ==> !x.sign) && (x.Value(f) < 0.0 ==> x.sign)
  {
    ZeroMagnitude(f, x);
    hide Exp2, Pow2, Float.Magnitude;
  }
}
