/** The prime numbers the constants of SHA-2 come from, and the fractions of their roots. */
module Primes {
  ghost predicate Prime(n: nat) { n >= 2 && forall k | 2 <= k < n :: n % k != 0 }

  /** How many prime numbers there are below `n`. */
  ghost function Below(n: nat): nat { if n == 0 then 0 else Below(n - 1) + if Prime(n - 1) then 1 else 0 }

  /** The prime with `t` primes below it. */
  ghost predicate Numbered(p: nat, t: nat) { Prime(p) && Below(p) == t }

  // ---- finding them

  /** Neither 2, 3, 5, 7, 11, 13, 17 nor 19 divides `n`, unless it is that number. */
  predicate Sieved(n: nat) {
    && n >= 2 && (n % 2 != 0 || n == 2) && (n % 3 != 0 || n == 3) && (n % 5 != 0 || n == 5)
    && (n % 7 != 0 || n == 7) && (n % 11 != 0 || n == 11) && (n % 13 != 0 || n == 13)
    && (n % 17 != 0 || n == 17) && (n % 19 != 0 || n == 19)
  }

  lemma Divides(n: nat, k: nat, d: nat)
    requires k > 0 && d > 0 && n % k == 0 && k % d == 0
    ensures n % d == 0
  {
    var a, b := n / k, k / d;
    assert n == k * a && k == d * b;
    assert n == d * (b * a);
    Multiple(d, b * a);
  }

  lemma Multiple(d: nat, x: nat)
    requires d > 0
    ensures (d * x) % d == 0
  {
    DivisionIs(d * x, d, x, 0);
  }

  lemma Grows(d: nat, e: int)
    ensures (e >= 1 ==> d * e >= d) && (e <= -1 ==> d * e <= -(d as int))
  {}

  lemma DivisionIs(n: int, d: nat, q: int, r: nat)
    requires d > 0 && n == q * d + r && r < d
    ensures n / d == q && n % d == r
  {
    var e := n / d - q;
    assert n == d * (n / d) + n % d;
    assert d * e == r - n % d;
    Grows(d, e);
  }

  /** A divisor up to 22 has one of the eight primes as a divisor. */
  lemma Factor(k: nat) returns (d: nat)
    requires 2 <= k < 23
    ensures d in {2, 3, 5, 7, 11, 13, 17, 19} && k % d == 0
  {
    d := if k % 2 == 0 then 2 else if k % 3 == 0 then 3 else if k % 5 == 0 then 5 else if k % 7 == 0 then 7 else k;
  }

  /** Below 529, the square of 23, the eight primes suffice. */
  lemma PrimeSieved(n: nat)
    requires n < 529
    ensures Prime(n) <==> Sieved(n)
  {
    if Sieved(n) {
      forall k | 2 <= k < n ensures n % k != 0 {
        if n % k == 0 { Undivided(n, k); }
      }
    }
  }

  lemma Undivided(n: nat, k: nat)
    requires n < 529 && Sieved(n) && 2 <= k < n
    ensures n % k != 0
  {
    hide Sieved;
    if n % k == 0 {
      var m := n / k;
      assert n == k * m;
      Cofactor(n, k, m);
      var s := if k < 23 then k else m;
      var d := Factor(s);
      Divides(n, s, d);
      SievedBy(n, d);
      assert false;
    }
  }

  lemma Product(k: nat, m: nat)
    ensures k >= 23 && m >= 23 ==> k * m >= 529
  {}

  lemma Cofactor(n: nat, k: nat, m: nat)
    requires n == k * m && n < 529 && 2 <= k < n
    ensures 2 <= m < n && (k < 23 || m < 23) && n % m == 0
  {
    Product(k, m);
    assert m != 0 && m != 1;
    assert k * m >= 2 * m;
    DivisionIs(n, m, k, 0);
  }

  lemma SievedBy(n: nat, d: nat)
    requires Sieved(n) && d in {2, 3, 5, 7, 11, 13, 17, 19} && n % d == 0
    ensures n == d
  {}

  lemma FirstPrime() ensures Numbered(2, 0) {
    assert Below(0) == Below(1) == Below(2) == 0;
  }

  /** Nothing between `p` and `q` is left by the sieve. */
  predicate Gap(p: nat, q: nat) { q <= p + 1 || (!Sieved(q - 1) && Gap(p, q - 1)) }

  lemma {:induction false} NoneBetween(p: nat, q: nat)
    requires p < q <= 529 && Prime(p) && Gap(p, q)
    ensures Below(q) == Below(p) + 1
  {
    if q > p + 1 {
      PrimeSieved(q - 1);
      NoneBetween(p, q - 1);
    }
  }

  lemma NextPrime(p: nat, q: nat, t: nat)
    requires p < q < 529 && Numbered(p, t) && Sieved(q) && Gap(p, q)
    ensures Numbered(q, t + 1)
  {
    hide Sieved;
    PrimeSieved(q);
    NoneBetween(p, q);
  }

  // The first eighty primes.

  lemma Primes0()
    ensures Numbered(2, 0) && Numbered(3, 1) && Numbered(5, 2) && Numbered(7, 3)
  {
    hide Numbered;
    FirstPrime();
    NextPrime(2, 3, 0);
    NextPrime(3, 5, 1);
    NextPrime(5, 7, 2);
  }

  lemma Primes1()
    ensures Numbered(11, 4) && Numbered(13, 5) && Numbered(17, 6) && Numbered(19, 7)
  {
    hide Numbered;
    Primes0();
    NextPrime(7, 11, 3);
    NextPrime(11, 13, 4);
    NextPrime(13, 17, 5);
    NextPrime(17, 19, 6);
  }

  lemma Primes2()
    ensures Numbered(23, 8) && Numbered(29, 9) && Numbered(31, 10) && Numbered(37, 11)
  {
    hide Numbered;
    Primes1();
    NextPrime(19, 23, 7);
    NextPrime(23, 29, 8);
    NextPrime(29, 31, 9);
    NextPrime(31, 37, 10);
  }

  lemma Primes3()
    ensures Numbered(41, 12) && Numbered(43, 13) && Numbered(47, 14) && Numbered(53, 15)
  {
    hide Numbered;
    Primes2();
    NextPrime(37, 41, 11);
    NextPrime(41, 43, 12);
    NextPrime(43, 47, 13);
    NextPrime(47, 53, 14);
  }

  lemma Primes4()
    ensures Numbered(59, 16) && Numbered(61, 17) && Numbered(67, 18) && Numbered(71, 19)
  {
    hide Numbered;
    Primes3();
    NextPrime(53, 59, 15);
    NextPrime(59, 61, 16);
    NextPrime(61, 67, 17);
    NextPrime(67, 71, 18);
  }

  lemma Primes5()
    ensures Numbered(73, 20) && Numbered(79, 21) && Numbered(83, 22) && Numbered(89, 23)
  {
    hide Numbered;
    Primes4();
    NextPrime(71, 73, 19);
    NextPrime(73, 79, 20);
    NextPrime(79, 83, 21);
    NextPrime(83, 89, 22);
  }

  lemma Primes6()
    ensures Numbered(97, 24) && Numbered(101, 25) && Numbered(103, 26) && Numbered(107, 27)
  {
    hide Numbered;
    Primes5();
    NextPrime(89, 97, 23);
    NextPrime(97, 101, 24);
    NextPrime(101, 103, 25);
    NextPrime(103, 107, 26);
  }

  lemma Primes7()
    ensures Numbered(109, 28) && Numbered(113, 29) && Numbered(127, 30) && Numbered(131, 31)
  {
    hide Numbered;
    Primes6();
    NextPrime(107, 109, 27);
    NextPrime(109, 113, 28);
    NextPrime(113, 127, 29);
    NextPrime(127, 131, 30);
  }

  lemma Primes8()
    ensures Numbered(137, 32) && Numbered(139, 33) && Numbered(149, 34) && Numbered(151, 35)
  {
    hide Numbered;
    Primes7();
    NextPrime(131, 137, 31);
    NextPrime(137, 139, 32);
    NextPrime(139, 149, 33);
    NextPrime(149, 151, 34);
  }

  lemma Primes9()
    ensures Numbered(157, 36) && Numbered(163, 37) && Numbered(167, 38) && Numbered(173, 39)
  {
    hide Numbered;
    Primes8();
    NextPrime(151, 157, 35);
    NextPrime(157, 163, 36);
    NextPrime(163, 167, 37);
    NextPrime(167, 173, 38);
  }

  lemma Primes10()
    ensures Numbered(179, 40) && Numbered(181, 41) && Numbered(191, 42) && Numbered(193, 43)
  {
    hide Numbered;
    Primes9();
    NextPrime(173, 179, 39);
    NextPrime(179, 181, 40);
    NextPrime(181, 191, 41);
    NextPrime(191, 193, 42);
  }

  lemma Primes11()
    ensures Numbered(197, 44) && Numbered(199, 45) && Numbered(211, 46) && Numbered(223, 47)
  {
    hide Numbered;
    Primes10();
    NextPrime(193, 197, 43);
    NextPrime(197, 199, 44);
    NextPrime(199, 211, 45);
    NextPrime(211, 223, 46);
  }

  lemma Primes12()
    ensures Numbered(227, 48) && Numbered(229, 49) && Numbered(233, 50) && Numbered(239, 51)
  {
    hide Numbered;
    Primes11();
    NextPrime(223, 227, 47);
    NextPrime(227, 229, 48);
    NextPrime(229, 233, 49);
    NextPrime(233, 239, 50);
  }

  lemma Primes13()
    ensures Numbered(241, 52) && Numbered(251, 53) && Numbered(257, 54) && Numbered(263, 55)
  {
    hide Numbered;
    Primes12();
    NextPrime(239, 241, 51);
    NextPrime(241, 251, 52);
    NextPrime(251, 257, 53);
    NextPrime(257, 263, 54);
  }

  lemma Primes14()
    ensures Numbered(269, 56) && Numbered(271, 57) && Numbered(277, 58) && Numbered(281, 59)
  {
    hide Numbered;
    Primes13();
    NextPrime(263, 269, 55);
    NextPrime(269, 271, 56);
    NextPrime(271, 277, 57);
    NextPrime(277, 281, 58);
  }

  lemma Primes15()
    ensures Numbered(283, 60) && Numbered(293, 61) && Numbered(307, 62) && Numbered(311, 63)
  {
    hide Numbered;
    Primes14();
    NextPrime(281, 283, 59);
    NextPrime(283, 293, 60);
    NextPrime(293, 307, 61);
    NextPrime(307, 311, 62);
  }

  lemma Primes16()
    ensures Numbered(313, 64) && Numbered(317, 65) && Numbered(331, 66) && Numbered(337, 67)
  {
    hide Numbered;
    Primes15();
    NextPrime(311, 313, 63);
    NextPrime(313, 317, 64);
    NextPrime(317, 331, 65);
    NextPrime(331, 337, 66);
  }

  lemma Primes17()
    ensures Numbered(347, 68) && Numbered(349, 69) && Numbered(353, 70) && Numbered(359, 71)
  {
    hide Numbered;
    Primes16();
    NextPrime(337, 347, 67);
    NextPrime(347, 349, 68);
    NextPrime(349, 353, 69);
    NextPrime(353, 359, 70);
  }

  lemma Primes18()
    ensures Numbered(367, 72) && Numbered(373, 73) && Numbered(379, 74) && Numbered(383, 75)
  {
    hide Numbered;
    Primes17();
    NextPrime(359, 367, 71);
    NextPrime(367, 373, 72);
    NextPrime(373, 379, 73);
    NextPrime(379, 383, 74);
  }

  lemma Primes19()
    ensures Numbered(389, 76) && Numbered(397, 77) && Numbered(401, 78) && Numbered(409, 79)
  {
    hide Numbered;
    Primes18();
    NextPrime(383, 389, 75);
    NextPrime(389, 397, 76);
    NextPrime(397, 401, 77);
    NextPrime(401, 409, 78);
  }

  // ---- fractions of roots

  function Cube(x: int): int { x * x * x }
  function Square(x: int): int { x * x }

  /** `k` is the fraction of the cube root of `p`, cut off after as many bits as `scale` has. */
  ghost predicate CubeRootFraction(k: int, p: int, scale: int) {
    0 <= k < scale && exists q: nat {:trigger Cube(q)} ::
      Cube(q) <= p < Cube(q + 1) && Cube(q * scale + k) <= p * Cube(scale) < Cube(q * scale + k + 1)
  }

  ghost predicate SquareRootFraction(k: int, p: int, scale: int) {
    0 <= k < scale && exists q: nat {:trigger Square(q)} ::
      Square(q) <= p < Square(q + 1) && Square(q * scale + k) <= p * Square(scale) < Square(q * scale + k + 1)
  }

  lemma CubeRoot(k: int, p: int, scale: int, q: nat)
    requires 0 <= k < scale && Cube(q) <= p < Cube(q + 1)
    requires Cube(q * scale + k) <= p * Cube(scale) < Cube(q * scale + k + 1)
    ensures CubeRootFraction(k, p, scale)
  {
    hide Cube;
  }

  lemma SquareRoot(k: int, p: int, scale: int, q: nat)
    requires 0 <= k < scale && Square(q) <= p < Square(q + 1)
    requires Square(q * scale + k) <= p * Square(scale) < Square(q * scale + k + 1)
    ensures SquareRootFraction(k, p, scale)
  {
    hide Square;
  }
}
