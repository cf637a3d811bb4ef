/** The constants of section 4.2.3 of FIPS 180-4 and the initial values of section 5.3.4 and 5.3.5, by what they are. */
module Sha512Constants {
  import opened Primes
  import Sha512

  const SCALE := 0x1_0000_0000_0000_0000

  /** The first bits of the fraction of the cube root of the prime with `t` primes below it. */
  ghost predicate FromCubeRoot(k: int, t: nat, scale: int) {
    exists p: nat :: Numbered(p, t) && CubeRootFraction(k, p, scale)
  }

  ghost predicate FromSquareRoot(k: int, t: nat, scale: int) {
    exists p: nat :: Numbered(p, t) && SquareRootFraction(k, p, scale)
  }

  lemma FromPrime(t: nat, p: nat, q: nat)
    requires t < 80 && Numbered(p, t) && Cube(q) <= p < Cube(q + 1)
    requires 0 <= Sha512.K(t) as int < SCALE
    requires Cube(q * SCALE + Sha512.K(t) as int) <= p * Cube(SCALE) < Cube(q * SCALE + Sha512.K(t) as int + 1)
    ensures FromCubeRoot(Sha512.K(t) as int, t, SCALE)
  {
    hide Numbered, Cube, CubeRootFraction;
    CubeRoot(Sha512.K(t) as int, p, SCALE, q);
  }

  lemma FromSquare(k: int, p: nat, t: nat, q: nat)
    requires 0 <= k < SCALE && Numbered(p, t) && Square(q) <= p < Square(q + 1)
    requires Square(q * SCALE + k) <= p * Square(SCALE) < Square(q * SCALE + k + 1)
    ensures FromSquareRoot(k, t, SCALE)
  {
    hide Numbered, Square, SquareRootFraction;
    SquareRoot(k, p, SCALE, q);
  }

  lemma Row0(t: nat)
    requires 0 <= t < 8
    ensures FromCubeRoot(Sha512.K(t) as int, t, SCALE)
  {
    hide FromCubeRoot, Numbered, CubeRootFraction;
    Primes0();
    Primes1();
    if t == 0 {
      FromPrime(t, 2, 1);
    } else if t == 1 {
      FromPrime(t, 3, 1);
    } else if t == 2 {
      FromPrime(t, 5, 1);
    } else if t == 3 {
      FromPrime(t, 7, 1);
    } else if t == 4 {
      FromPrime(t, 11, 2);
    } else if t == 5 {
      FromPrime(t, 13, 2);
    } else if t == 6 {
      FromPrime(t, 17, 2);
    } else {
      FromPrime(t, 19, 2);
    }
  }

  lemma Row1(t: nat)
    requires 8 <= t < 16
    ensures FromCubeRoot(Sha512.K(t) as int, t, SCALE)
  {
    hide FromCubeRoot, Numbered, CubeRootFraction;
    Primes2();
    Primes3();
    if t == 8 {
      FromPrime(t, 23, 2);
    } else if t == 9 {
      FromPrime(t, 29, 3);
    } else if t == 10 {
      FromPrime(t, 31, 3);
    } else if t == 11 {
      FromPrime(t, 37, 3);
    } else if t == 12 {
      FromPrime(t, 41, 3);
    } else if t == 13 {
      FromPrime(t, 43, 3);
    } else if t == 14 {
      FromPrime(t, 47, 3);
    } else {
      FromPrime(t, 53, 3);
    }
  }

  lemma Row2(t: nat)
    requires 16 <= t < 24
    ensures FromCubeRoot(Sha512.K(t) as int, t, SCALE)
  {
    hide FromCubeRoot, Numbered, CubeRootFraction;
    Primes4();
    Primes5();
    if t == 16 {
      FromPrime(t, 59, 3);
    } else if t == 17 {
      FromPrime(t, 61, 3);
    } else if t == 18 {
      FromPrime(t, 67, 4);
    } else if t == 19 {
      FromPrime(t, 71, 4);
    } else if t == 20 {
      FromPrime(t, 73, 4);
    } else if t == 21 {
      FromPrime(t, 79, 4);
    } else if t == 22 {
      FromPrime(t, 83, 4);
    } else {
      FromPrime(t, 89, 4);
    }
  }

  lemma Row3(t: nat)
    requires 24 <= t < 32
    ensures FromCubeRoot(Sha512.K(t) as int, t, SCALE)
  {
    hide FromCubeRoot, Numbered, CubeRootFraction;
    Primes6();
    Primes7();
    if t == 24 {
      FromPrime(t, 97, 4);
    } else if t == 25 {
      FromPrime(t, 101, 4);
    } else if t == 26 {
      FromPrime(t, 103, 4);
    } else if t == 27 {
      FromPrime(t, 107, 4);
    } else if t == 28 {
      FromPrime(t, 109, 4);
    } else if t == 29 {
      FromPrime(t, 113, 4);
    } else if t == 30 {
      FromPrime(t, 127, 5);
    } else {
      FromPrime(t, 131, 5);
    }
  }

  lemma Row4(t: nat)
    requires 32 <= t < 40
    ensures FromCubeRoot(Sha512.K(t) as int, t, SCALE)
  {
    hide FromCubeRoot, Numbered, CubeRootFraction;
    Primes8();
    Primes9();
    if t == 32 {
      FromPrime(t, 137, 5);
    } else if t == 33 {
      FromPrime(t, 139, 5);
    } else if t == 34 {
      FromPrime(t, 149, 5);
    } else if t == 35 {
      FromPrime(t, 151, 5);
    } else if t == 36 {
      FromPrime(t, 157, 5);
    } else if t == 37 {
      FromPrime(t, 163, 5);
    } else if t == 38 {
      FromPrime(t, 167, 5);
    } else {
      FromPrime(t, 173, 5);
    }
  }

  lemma Row5(t: nat)
    requires 40 <= t < 48
    ensures FromCubeRoot(Sha512.K(t) as int, t, SCALE)
  {
    hide FromCubeRoot, Numbered, CubeRootFraction;
    Primes10();
    Primes11();
    if t == 40 {
      FromPrime(t, 179, 5);
    } else if t == 41 {
      FromPrime(t, 181, 5);
    } else if t == 42 {
      FromPrime(t, 191, 5);
    } else if t == 43 {
      FromPrime(t, 193, 5);
    } else if t == 44 {
      FromPrime(t, 197, 5);
    } else if t == 45 {
      FromPrime(t, 199, 5);
    } else if t == 46 {
      FromPrime(t, 211, 5);
    } else {
      FromPrime(t, 223, 6);
    }
  }

  lemma Row6(t: nat)
    requires 48 <= t < 56
    ensures FromCubeRoot(Sha512.K(t) as int, t, SCALE)
  {
    hide FromCubeRoot, Numbered, CubeRootFraction;
    Primes12();
    Primes13();
    if t == 48 {
      FromPrime(t, 227, 6);
    } else if t == 49 {
      FromPrime(t, 229, 6);
    } else if t == 50 {
      FromPrime(t, 233, 6);
    } else if t == 51 {
      FromPrime(t, 239, 6);
    } else if t == 52 {
      FromPrime(t, 241, 6);
    } else if t == 53 {
      FromPrime(t, 251, 6);
    } else if t == 54 {
      FromPrime(t, 257, 6);
    } else {
      FromPrime(t, 263, 6);
    }
  }

  lemma Row7(t: nat)
    requires 56 <= t < 64
    ensures FromCubeRoot(Sha512.K(t) as int, t, SCALE)
  {
    hide FromCubeRoot, Numbered, CubeRootFraction;
    Primes14();
    Primes15();
    if t == 56 {
      FromPrime(t, 269, 6);
    } else if t == 57 {
      FromPrime(t, 271, 6);
    } else if t == 58 {
      FromPrime(t, 277, 6);
    } else if t == 59 {
      FromPrime(t, 281, 6);
    } else if t == 60 {
      FromPrime(t, 283, 6);
    } else if t == 61 {
      FromPrime(t, 293, 6);
    } else if t == 62 {
      FromPrime(t, 307, 6);
    } else {
      FromPrime(t, 311, 6);
    }
  }

  lemma Row8(t: nat)
    requires 64 <= t < 72
    ensures FromCubeRoot(Sha512.K(t) as int, t, SCALE)
  {
    hide FromCubeRoot, Numbered, CubeRootFraction;
    Primes16();
    Primes17();
    if t == 64 {
      FromPrime(t, 313, 6);
    } else if t == 65 {
      FromPrime(t, 317, 6);
    } else if t == 66 {
      FromPrime(t, 331, 6);
    } else if t == 67 {
      FromPrime(t, 337, 6);
    } else if t == 68 {
      FromPrime(t, 347, 7);
    } else if t == 69 {
      FromPrime(t, 349, 7);
    } else if t == 70 {
      FromPrime(t, 353, 7);
    } else {
      FromPrime(t, 359, 7);
    }
  }

  lemma Row9(t: nat)
    requires 72 <= t < 80
    ensures FromCubeRoot(Sha512.K(t) as int, t, SCALE)
  {
    hide FromCubeRoot, Numbered, CubeRootFraction;
    Primes18();
    Primes19();
    if t == 72 {
      FromPrime(t, 367, 7);
    } else if t == 73 {
      FromPrime(t, 373, 7);
    } else if t == 74 {
      FromPrime(t, 379, 7);
    } else if t == 75 {
      FromPrime(t, 383, 7);
    } else if t == 76 {
      FromPrime(t, 389, 7);
    } else if t == 77 {
      FromPrime(t, 397, 7);
    } else if t == 78 {
      FromPrime(t, 401, 7);
    } else {
      FromPrime(t, 409, 7);
    }
  }

  /** Constant `t` is the first bits of the fraction of the cube root of the prime with `t` primes below it. */
  lemma KRoots(t: nat)
    requires t < 80
    ensures FromCubeRoot(Sha512.K(t) as int, t, SCALE)
  {
    hide FromCubeRoot;
    if t < 8 {
      Row0(t);
    } else if t < 16 {
      Row1(t);
    } else if t < 24 {
      Row2(t);
    } else if t < 32 {
      Row3(t);
    } else if t < 40 {
      Row4(t);
    } else if t < 48 {
      Row5(t);
    } else if t < 56 {
      Row6(t);
    } else if t < 64 {
      Row7(t);
    } else if t < 72 {
      Row8(t);
    } else {
      Row9(t);
    }
  }

  /** The initial value is the same of the square roots of the first eight primes. */
  lemma InitialRoots(j: nat)
    requires j < 8
    ensures FromSquareRoot(Sha512.Reg(Sha512.Initial(), j) as int, j, SCALE)
  {
    hide FromSquareRoot, Numbered, SquareRootFraction;
    Primes0();
    Primes1();
    FromSquare(Sha512.Initial().a as int, 2, 0, 1);
    FromSquare(Sha512.Initial().b as int, 3, 1, 1);
    FromSquare(Sha512.Initial().c as int, 5, 2, 2);
    FromSquare(Sha512.Initial().d as int, 7, 3, 2);
    FromSquare(Sha512.Initial().e as int, 11, 4, 3);
    FromSquare(Sha512.Initial().f as int, 13, 5, 3);
    FromSquare(Sha512.Initial().g as int, 17, 6, 4);
    FromSquare(Sha512.Initial().h as int, 19, 7, 4);
  }

  /** That of SHA-384 comes from the ninth to the sixteenth. */
  lemma Initial384Roots(j: nat)
    requires j < 8
    ensures FromSquareRoot(Sha512.Reg(Sha512.Initial384(), j) as int, 8 + j, SCALE)
  {
    hide FromSquareRoot, Numbered, SquareRootFraction;
    Primes2();
    Primes3();
    FromSquare(Sha512.Initial384().a as int, 23, 8, 4);
    FromSquare(Sha512.Initial384().b as int, 29, 9, 5);
    FromSquare(Sha512.Initial384().c as int, 31, 10, 5);
    FromSquare(Sha512.Initial384().d as int, 37, 11, 6);
    FromSquare(Sha512.Initial384().e as int, 41, 12, 6);
    FromSquare(Sha512.Initial384().f as int, 43, 13, 6);
    FromSquare(Sha512.Initial384().g as int, 47, 14, 6);
    FromSquare(Sha512.Initial384().h as int, 53, 15, 7);
  }
}
