/** Messages taken in blocks: iterated compression, what is left over, and padding, for any block length. */
module Streams {
  import opened Sha2Words

  /** Fold a compression function over the full blocks at the front of `data`. */
  ghost function Absorb<S>(f: (S, seq<bv8>) -> S, s: S, data: seq<bv8>, n: nat): S
    requires n > 0
    decreases |data|
  {
    if |data| < n then s else Absorb(f, f(s, data[..n]), data[n..], n)
  }

  /** The bytes after the last full block. */
  ghost function Rest(data: seq<bv8>, n: nat): (r: seq<bv8>)
    requires n > 0
    ensures |r| < n && |r| <= |data|
    decreases |data|
  {
    if |data| < n then data else Rest(data[n..], n)
  }

  /** What was absorbed before only matters through the state and the bytes left over. */
  lemma {:induction false} AbsorbMore<S>(f: (S, seq<bv8>) -> S, s: S, a: seq<bv8>, b: seq<bv8>, n: nat)
    requires n > 0
    ensures Absorb(f, s, a + b, n) == Absorb(f, Absorb(f, s, a, n), Rest(a, n) + b, n)
    ensures Rest(a + b, n) == Rest(Rest(a, n) + b, n)
    decreases |a|
  {
    if |a| >= n {
      assert (a + b)[..n] == a[..n] && (a + b)[n..] == a[n..] + b;
      AbsorbMore(f, f(s, a[..n]), a[n..], b, n);
    }
  }

  /** A full block. */
  lemma AbsorbBlock<S>(f: (S, seq<bv8>) -> S, s: S, a: seq<bv8>, block: seq<bv8>, n: nat)
    requires n > 0 && |Rest(a, n) + block| == n
    ensures Absorb(f, s, a + block, n) == f(Absorb(f, s, a, n), Rest(a, n) + block) && Rest(a + block, n) == []
  {
    AbsorbMore(f, s, a, block, n);
    var r := Rest(a, n) + block;
    assert r[..n] == r && r[n..] == [];
    assert Absorb(f, f(Absorb(f, s, a, n), r), [], n) == f(Absorb(f, s, a, n), r);
  }

  /** Not enough for a block. */
  lemma AbsorbPart<S>(f: (S, seq<bv8>) -> S, s: S, a: seq<bv8>, part: seq<bv8>, n: nat)
    requires n > 0 && |Rest(a, n)| + |part| < n
    ensures Absorb(f, s, a + part, n) == Absorb(f, s, a, n) && Rest(a + part, n) == Rest(a, n) + part
  {
    AbsorbMore(f, s, a, part, n);
  }

  ghost function Zeros(n: nat): (z: seq<bv8>) ensures |z| == n { seq(n, _ => 0 as bv8) }

  /** The byte with a given value. */
  function ByteOf(x: int): bv8 requires 0 <= x < 256 { x as bv8 }

  /** `x` as `k` bytes, most significant first. */
  function BigEndian(x: nat, k: nat): (b: seq<bv8>)
    ensures |b| == k
  {
    if k == 0 then [] else BigEndian(x / 256, k - 1) + [ByteOf(x % 256)]
  }

  /** Byte number `k` of a number, from the least significant. */
  function Digit(x: nat, k: nat): bv8 { if k == 0 then ByteOf(x % 256) else Digit(x / 256, k - 1) }

  /** A number below 2^64 as a word. */
  function WordOf(x: nat): bv64 {
    Word64(Digit(x, 0), Digit(x, 1), Digit(x, 2), Digit(x, 3), Digit(x, 4), Digit(x, 5), Digit(x, 6), Digit(x, 7))
  }

  lemma {:induction false} DigitAt(x: nat, k: nat, i: nat)
    requires i < k
    ensures BigEndian(x, k)[k - 1 - i] == Digit(x, i)
  {
    if i > 0 { DigitAt(x / 256, k - 1, i - 1); }
  }

  /** The reversed word, in host order, is the number with its most significant byte first. */
  lemma ReversedNumber(x: nat)
    ensures forall i: nat | i < 8 :: Byte64(Reverse64(WordOf(x)), i) == BigEndian(x, 8)[i]
  {
    hide Reverse64, Byte64, Word64, Digit, BigEndian;
    var a, b, c, d := Digit(x, 0), Digit(x, 1), Digit(x, 2), Digit(x, 3);
    var e, f, g, h := Digit(x, 4), Digit(x, 5), Digit(x, 6), Digit(x, 7);
    Reversed64(a, b, c, d, e, f, g, h);
    Bytes64(h, g, f, e, d, c, b, a);
    forall i: nat | i < 8 ensures BigEndian(x, 8)[i] == Digit(x, 7 - i) { DigitAt(x, 8, 7 - i); }
    forall i: nat | i < 8 ensures Byte64(Reverse64(WordOf(x)), i) == BigEndian(x, 8)[i] {
      assert i == 0 || i == 1 || i == 2 || i == 3 || i == 4 || i == 5 || i == 6 || i == 7;
    }
  }

  /** How many zero bytes go between the mark and a length field of `l` bytes when `used` bytes are left over. */
  function Gap(used: nat, n: nat, l: nat): (z: nat)
    requires used < n && l < n
    ensures z < n && (used + 1 + z + l == n || used + 1 + z + l == 2 * n)
  {
    if used + 1 + l <= n then n - l - used - 1 else 2 * n - l - used - 1
  }

  /** A one bit, zeros, and the length in bits, to a whole number of blocks. */
  ghost function Padded(msg: seq<bv8>, n: nat, l: nat): seq<bv8>
    requires 0 < n && l < n
  {
    msg + [0x80 as bv8] + Zeros(Gap(|Rest(msg, n)|, n, l)) + BigEndian(8 * |msg|, l)
  }

  // ---- the last blocks

  /** The mark, the zeros and the length fit after the bytes left over. */
  lemma PadOne<S>(f: (S, seq<bv8>) -> S, s: S, msg: seq<bv8>, n: nat, l: nat)
    requires 0 < n && l < n && |Rest(msg, n)| + 1 + l <= n
    ensures var r := Rest(msg, n);
            var last := r + [0x80 as bv8] + Zeros(n - l - |r| - 1) + BigEndian(8 * |msg|, l);
            Absorb(f, s, Padded(msg, n, l), n) == f(Absorb(f, s, msg, n), last)
  {
    var r := Rest(msg, n);
    var z, e := Zeros(n - l - |r| - 1), BigEndian(8 * |msg|, l);
    assert Padded(msg, n, l) == msg + ([0x80 as bv8] + z + e);
    assert r + ([0x80 as bv8] + z + e) == r + [0x80 as bv8] + z + e;
    AbsorbBlock(f, s, msg, [0x80 as bv8] + z + e, n);
  }

  /** They do not: the length comes in a block of its own. */
  lemma PadTwo<S>(f: (S, seq<bv8>) -> S, s: S, msg: seq<bv8>, n: nat, l: nat)
    requires 0 < n && l < n && |Rest(msg, n)| + 1 + l > n
    ensures var r := Rest(msg, n);
            var a, b := r + [0x80 as bv8] + Zeros(n - |r| - 1), Zeros(n - l) + BigEndian(8 * |msg|, l);
            Absorb(f, s, Padded(msg, n, l), n) == f(f(Absorb(f, s, msg, n), a), b)
  {
    var r := Rest(msg, n);
    var a, b := [0x80 as bv8] + Zeros(n - |r| - 1), Zeros(n - l) + BigEndian(8 * |msg|, l);
    assert Zeros(2 * n - l - |r| - 1) == Zeros(n - |r| - 1) + Zeros(n - l);
    assert Padded(msg, n, l) == (msg + a) + b;
    assert r + a == r + [0x80 as bv8] + Zeros(n - |r| - 1);
    AbsorbBlock(f, s, msg, a, n);
    AbsorbBlock(f, s, msg + a, b, n);
    assert Rest(msg + a, n) + b == b;
  }

  function Pow256(k: nat): nat { if k == 0 then 1 else 256 * Pow256(k - 1) }

  /** The bytes of a number in two halves. */
  lemma {:induction false} BigEndianHalves(h: nat, l: nat, k: nat, j: nat)
    requires l < Pow256(j)
    ensures BigEndian(h * Pow256(j) + l, k + j) == BigEndian(h, k) + BigEndian(l, j)
    decreases j
  {
    hide ByteOf;
    if j == 0 {
      assert h * Pow256(0) + l == h;
    } else {
      var p := Pow256(j - 1);
      var x := h * Pow256(j) + l;
      Shift(h, p, l);
      BigEndianHalves(h, l / 256, k, j - 1);
      assert BigEndian(x, k + j) == BigEndian(x / 256, k + j - 1) + [ByteOf(x % 256)];
      assert BigEndian(l, j) == BigEndian(l / 256, j - 1) + [ByteOf(l % 256)];
    }
  }

  lemma Shift(h: nat, p: nat, l: nat)
    ensures (h * (256 * p) + l) / 256 == h * p + l / 256 && (h * (256 * p) + l) % 256 == l % 256
  {
    Digits(h * p, l);
    assert h * (256 * p) == 256 * (h * p);
  }

  lemma Digits(a: nat, l: nat)
    ensures (256 * a + l) / 256 == a + l / 256 && (256 * a + l) % 256 == l % 256
  {}

  /** The pieces of a message, put together. */
  ghost function Joined(parts: seq<seq<bv8>>): seq<bv8> {
    if parts == [] then [] else Joined(parts[..|parts| - 1]) + parts[|parts| - 1]
  }

  lemma JoinedNone(parts: seq<seq<bv8>>) ensures Joined(parts[..0]) == [] {}

  lemma {:induction false} JoinedNext(parts: seq<seq<bv8>>, i: nat)
    requires i < |parts|
    ensures Joined(parts[..i + 1]) == Joined(parts[..i]) + parts[i] && |Joined(parts[..i + 1])| <= |Joined(parts)|
    decreases |parts| - i
  {
    assert parts[..i + 1][..i] == parts[..i];
    if i + 1 < |parts| {
      JoinedNext(parts, i + 1);
    } else {
      assert parts[..i + 1] == parts;
    }
  }
}
