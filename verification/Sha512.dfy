/**
 * The compression function of section 6.4 of FIPS 180-4, and the transform that computes it in the context's own
 * buffer.
 */
module Sha512 {
  import opened Sha2Words
  import opened Streams

  // ---- the standard

  function And(x: bv64, y: bv64): bv64 { x & y }
  function Or(x: bv64, y: bv64): bv64 { x | y }
  function Xor(x: bv64, y: bv64): bv64 { x ^ y }
  function Not(x: bv64): bv64 { !x }
  function Shr(n: bv7, x: bv64): bv64 requires n < 64 { x >> n }
  function Shl(n: bv7, x: bv64): bv64 requires n < 64 { x << n }

  function Rotr(n: bv7, x: bv64): bv64 requires 0 < n < 64 { Or(Shr(n, x), Shl(64 - n, x)) }
  function Ch(x: bv64, y: bv64, z: bv64): bv64 { Xor(And(x, y), And(Not(x), z)) }
  function Maj(x: bv64, y: bv64, z: bv64): bv64 { Xor(Xor(And(x, y), And(x, z)), And(y, z)) }
  function BigSigma0(x: bv64): bv64 { Xor(Xor(Rotr(28, x), Rotr(34, x)), Rotr(39, x)) }
  function BigSigma1(x: bv64): bv64 { Xor(Xor(Rotr(14, x), Rotr(18, x)), Rotr(41, x)) }
  function SmallSigma0(x: bv64): bv64 { Xor(Xor(Rotr(1, x), Rotr(8, x)), Shr(7, x)) }
  function SmallSigma1(x: bv64): bv64 { Xor(Xor(Rotr(19, x), Rotr(61, x)), Shr(6, x)) }

  /** Addition of words, which wraps around. */
  function Plus(x: bv64, y: bv64): bv64 { x + y }

  // The constants, eight to a row.
  function K0(t: nat): bv64 {
    if t == 0 then 0x428a2f98d728ae22 else if t == 1 then 0x7137449123ef65cd else
    if t == 2 then 0xb5c0fbcfec4d3b2f else if t == 3 then 0xe9b5dba58189dbbc else
    if t == 4 then 0x3956c25bf348b538 else if t == 5 then 0x59f111f1b605d019 else
    if t == 6 then 0x923f82a4af194f9b else 0xab1c5ed5da6d8118
  }

  function K1(t: nat): bv64 {
    if t == 0 then 0xd807aa98a3030242 else if t == 1 then 0x12835b0145706fbe else
    if t == 2 then 0x243185be4ee4b28c else if t == 3 then 0x550c7dc3d5ffb4e2 else
    if t == 4 then 0x72be5d74f27b896f else if t == 5 then 0x80deb1fe3b1696b1 else
    if t == 6 then 0x9bdc06a725c71235 else 0xc19bf174cf692694
  }

  function K2(t: nat): bv64 {
    if t == 0 then 0xe49b69c19ef14ad2 else if t == 1 then 0xefbe4786384f25e3 else
    if t == 2 then 0x0fc19dc68b8cd5b5 else if t == 3 then 0x240ca1cc77ac9c65 else
    if t == 4 then 0x2de92c6f592b0275 else if t == 5 then 0x4a7484aa6ea6e483 else
    if t == 6 then 0x5cb0a9dcbd41fbd4 else 0x76f988da831153b5
  }

  function K3(t: nat): bv64 {
    if t == 0 then 0x983e5152ee66dfab else if t == 1 then 0xa831c66d2db43210 else
    if t == 2 then 0xb00327c898fb213f else if t == 3 then 0xbf597fc7beef0ee4 else
    if t == 4 then 0xc6e00bf33da88fc2 else if t == 5 then 0xd5a79147930aa725 else
    if t == 6 then 0x06ca6351e003826f else 0x142929670a0e6e70
  }

  function K4(t: nat): bv64 {
    if t == 0 then 0x27b70a8546d22ffc else if t == 1 then 0x2e1b21385c26c926 else
    if t == 2 then 0x4d2c6dfc5ac42aed else if t == 3 then 0x53380d139d95b3df else
    if t == 4 then 0x650a73548baf63de else if t == 5 then 0x766a0abb3c77b2a8 else
    if t == 6 then 0x81c2c92e47edaee6 else 0x92722c851482353b
  }

  function K5(t: nat): bv64 {
    if t == 0 then 0xa2bfe8a14cf10364 else if t == 1 then 0xa81a664bbc423001 else
    if t == 2 then 0xc24b8b70d0f89791 else if t == 3 then 0xc76c51a30654be30 else
    if t == 4 then 0xd192e819d6ef5218 else if t == 5 then 0xd69906245565a910 else
    if t == 6 then 0xf40e35855771202a else 0x106aa07032bbd1b8
  }

  function K6(t: nat): bv64 {
    if t == 0 then 0x19a4c116b8d2d0c8 else if t == 1 then 0x1e376c085141ab53 else
    if t == 2 then 0x2748774cdf8eeb99 else if t == 3 then 0x34b0bcb5e19b48a8 else
    if t == 4 then 0x391c0cb3c5c95a63 else if t == 5 then 0x4ed8aa4ae3418acb else
    if t == 6 then 0x5b9cca4f7763e373 else 0x682e6ff3d6b2b8a3
  }

  function K7(t: nat): bv64 {
    if t == 0 then 0x748f82ee5defb2fc else if t == 1 then 0x78a5636f43172f60 else
    if t == 2 then 0x84c87814a1f0ab72 else if t == 3 then 0x8cc702081a6439ec else
    if t == 4 then 0x90befffa23631e28 else if t == 5 then 0xa4506cebde82bde9 else
    if t == 6 then 0xbef9a3f7b2c67915 else 0xc67178f2e372532b
  }

  function K8(t: nat): bv64 {
    if t == 0 then 0xca273eceea26619c else if t == 1 then 0xd186b8c721c0c207 else
    if t == 2 then 0xeada7dd6cde0eb1e else if t == 3 then 0xf57d4f7fee6ed178 else
    if t == 4 then 0x06f067aa72176fba else if t == 5 then 0x0a637dc5a2c898a6 else
    if t == 6 then 0x113f9804bef90dae else 0x1b710b35131c471b
  }

  function K9(t: nat): bv64 {
    if t == 0 then 0x28db77f523047d84 else if t == 1 then 0x32caab7b40c72493 else
    if t == 2 then 0x3c9ebe0a15c9bebc else if t == 3 then 0x431d67c49c100d4c else
    if t == 4 then 0x4cc5d4becb3e42b6 else if t == 5 then 0x597f299cfc657e2a else
    if t == 6 then 0x5fcb6fab3ad6faec else 0x6c44198c4a475817
  }

  function K(t: nat): bv64 requires t < 80 {
    if t < 8 then K0(t - 0) else
    if t < 16 then K1(t - 8) else
    if t < 24 then K2(t - 16) else
    if t < 32 then K3(t - 24) else
    if t < 40 then K4(t - 32) else
    if t < 48 then K5(t - 40) else
    if t < 56 then K6(t - 48) else
    if t < 64 then K7(t - 56) else
    if t < 72 then K8(t - 64) else K9(t - 72)
  }

  /** The word of a block at byte `i`, most significant byte first. */
  function Big(s: seq<bv8>, i: nat): bv64
    requires i + 8 <= |s|
  {
    Word64(s[i + 7], s[i + 6], s[i + 5], s[i + 4], s[i + 3], s[i + 2], s[i + 1], s[i])
  }

  /** The message schedule. */
  ghost function W(block: seq<bv8>, t: nat): bv64
    requires |block| == 128 && t < 80
  {
    if t < 16 then Big(block, 8 * t)
    else
      var sum := Plus(Plus(SmallSigma1(W(block, t - 2)), W(block, t - 7)), SmallSigma0(W(block, t - 15)));
      Plus(sum, W(block, t - 16))
  }

  datatype Regs = Regs(a: bv64, b: bv64, c: bv64, d: bv64, e: bv64, f: bv64, g: bv64, h: bv64)

  function T1(r: Regs, k: bv64, w: bv64): bv64 { Plus(Plus(Plus(Plus(r.h, BigSigma1(r.e)), Ch(r.e, r.f, r.g)), k), w) }
  function T2(r: Regs): bv64 { Plus(BigSigma0(r.a), Maj(r.a, r.b, r.c)) }

  function Round(r: Regs, k: bv64, w: bv64): Regs {
    Regs(Plus(T1(r, k, w), T2(r)), r.a, r.b, r.c, Plus(r.d, T1(r, k, w)), r.e, r.f, r.g)
  }

  ghost function Rounds(r: Regs, block: seq<bv8>, t: nat): Regs
    requires |block| == 128 && t <= 80
  {
    if t == 0 then r else Round(Rounds(r, block, t - 1), K(t - 1), W(block, t - 1))
  }

  function Added(s: Regs, r: Regs): Regs {
    Regs(Plus(s.a, r.a), Plus(s.b, r.b), Plus(s.c, r.c), Plus(s.d, r.d),
         Plus(s.e, r.e), Plus(s.f, r.f), Plus(s.g, r.g), Plus(s.h, r.h))
  }

  /** One block into the hash value; anything that is not a block leaves it alone. */
  ghost function Compress(s: Regs, block: seq<bv8>): Regs {
    if |block| == 128 then Added(s, Rounds(s, block, 80)) else s
  }

  // ---- words in byte buffers

  function Load(b: array<bv8>, i: nat): bv64
    requires i + 8 <= b.Length
    reads b
  {
    Word64(b[i], b[i + 1], b[i + 2], b[i + 3], b[i + 4], b[i + 5], b[i + 6], b[i + 7])
  }

  method Store(b: array<bv8>, i: nat, w: bv64)
    requires i + 8 <= b.Length
    modifies b
    ensures Load(b, i) == w
    ensures forall k | 0 <= k < b.Length && !(i <= k < i + 8) :: b[k] == old(b[k])
  {
    b[i] := Byte64(w, 0);
    b[i + 1] := Byte64(w, 1);
    b[i + 2] := Byte64(w, 2);
    b[i + 3] := Byte64(w, 3);
    b[i + 4] := Byte64(w, 4);
    b[i + 5] := Byte64(w, 5);
    b[i + 6] := Byte64(w, 6);
    b[i + 7] := Byte64(w, 7);
    FromBytes64(w);
    hide Word64, Byte64;
  }

  /** Reading a word of the block in host order and reversing its bytes gives the word of the standard. */
  lemma LoadBig(s: seq<bv8>, i: nat)
    requires i + 8 <= |s|
    ensures Reverse64(Word64(s[i], s[i + 1], s[i + 2], s[i + 3], s[i + 4], s[i + 5], s[i + 6], s[i + 7])) == Big(s, i)
  {
    Reversed64(s[i], s[i + 1], s[i + 2], s[i + 3], s[i + 4], s[i + 5], s[i + 6], s[i + 7]);
    hide Word64, Reverse64;
  }

  // ---- the transform

  function Unpack(s: array<bv64>): Regs
    requires s.Length == 8
    reads s
  {
    Regs(s[0], s[1], s[2], s[3], s[4], s[5], s[6], s[7])
  }

  method Accumulate(state: array<bv64>, r: Regs)
    requires state.Length == 8
    modifies state
    ensures Unpack(state) == Added(old(Unpack(state)), r)
  {
    hide Plus;
    state[0] := Plus(state[0], r.a);
    state[1] := Plus(state[1], r.b);
    state[2] := Plus(state[2], r.c);
    state[3] := Plus(state[3], r.d);
    state[4] := Plus(state[4], r.e);
    state[5] := Plus(state[5], r.f);
    state[6] := Plus(state[6], r.g);
    state[7] := Plus(state[7], r.h);
  }

  /** The first sixteen words of the schedule are in the buffer as far as `j`, the rest of the input is as it was. */
  ghost predicate Read(buffer: array<bv8>, data: array<bv8>, off: nat, block: seq<bv8>, j: nat)
    requires buffer.Length == 128 && off + 128 <= data.Length && |block| == 128 && j <= 16
    reads buffer, data
  {
    && (forall i: nat {:trigger Load(buffer, 8 * i)} | i < j :: Load(buffer, 8 * i) == W(block, i))
    && (forall k | 8 * j <= k < 128 :: data[off + k] == block[k])
  }

  method ReadWord(buffer: array<bv8>, data: array<bv8>, off: nat, ghost block: seq<bv8>, j: nat) returns (w: bv64)
    requires buffer.Length == 128 && off + 128 <= data.Length && |block| == 128 && j < 16
    requires (data == buffer ==> off == 0)
    requires Read(buffer, data, off, block, j)
    modifies buffer
    ensures Read(buffer, data, off, block, j + 1) && w == W(block, j)
  {
    hide Word64, Reverse64, Big;
    LoadBig(block, 8 * j);
    w := Reverse64(Load(data, off + 8 * j));
    assert w == Big(block, 8 * j);
    Store(buffer, 8 * j, w);
    forall i: nat {:trigger Load(buffer, 8 * i)} | i < j + 1 ensures Load(buffer, 8 * i) == W(block, i) {
      if i < j { assert Load(buffer, 8 * i) == old(Load(buffer, 8 * i)); }
    }
  }

  /** Word `t` of the schedule has its place in the buffer until word `t` + 16 replaces it. */
  function Slot(t: nat): nat { 8 * (t % 16) }

  ghost predicate Window(buffer: array<bv8>, block: seq<bv8>, j: nat)
    requires buffer.Length == 128 && |block| == 128 && 16 <= j <= 80
    reads buffer
  {
    forall t: nat {:trigger Slot(t)} | j - 16 <= t < j :: Slot(t) + 8 <= 128 && Load(buffer, Slot(t)) == W(block, t)
  }

  lemma Slots(t: nat)
    ensures Slot(t) + 8 <= 128 && Slot(t + 16) == Slot(t)
    ensures forall u: nat {:trigger Slot(u)} | t < u < t + 16 :: Slot(u) + 8 <= Slot(t) || Slot(t) + 8 <= Slot(u)
  {
    forall u: nat {:trigger Slot(u)} | t < u < t + 16 ensures Slot(u) + 8 <= Slot(t) || Slot(t) + 8 <= Slot(u) {
      assert u % 16 != t % 16;
    }
  }

  lemma FirstWindow(buffer: array<bv8>, data: array<bv8>, off: nat, block: seq<bv8>)
    requires buffer.Length == 128 && off + 128 <= data.Length && |block| == 128 && Read(buffer, data, off, block, 16)
    ensures Window(buffer, block, 16)
  {
    forall t: nat {:trigger Slot(t)} | t < 16 ensures Slot(t) + 8 <= 128 && Load(buffer, Slot(t)) == W(block, t) {
      assert Slot(t) == 8 * t;
      assert Load(buffer, 8 * t) == W(block, t);
    }
  }

  lemma Sum(x: bv64, s1: bv64, y: bv64, s0: bv64)
    ensures Plus(x, Plus(Plus(s1, y), s0)) == Plus(Plus(Plus(s1, y), s0), x)
  {}

  lemma NextW(block: seq<bv8>, j: nat, s1: bv64, y: bv64, s0: bv64, x: bv64)
    requires |block| == 128 && 16 <= j < 80
    requires s1 == SmallSigma1(W(block, j - 2)) && y == W(block, j - 7) && s0 == SmallSigma0(W(block, j - 15))
    requires x == W(block, j - 16)
    ensures Expand(x, s1, y, s0) == W(block, j)
  {
    hide SmallSigma0, SmallSigma1, Plus;
    Sum(x, s1, y, s0);
  }

  function Expand(x: bv64, s1: bv64, y: bv64, s0: bv64): bv64 { Plus(x, Plus(Plus(s1, y), s0)) }

  /** Part of the message block expansion: the next word replaces the one sixteen rounds ago. */
  method NextWord(buffer: array<bv8>, ghost block: seq<bv8>, j: nat) returns (w: bv64)
    requires buffer.Length == 128 && |block| == 128 && 16 <= j < 80 && Window(buffer, block, j)
    modifies buffer
    ensures Window(buffer, block, j + 1) && w == W(block, j)
  {
    hide Word64, W, SmallSigma0, SmallSigma1, Slot, Expand;
    SlotsRead(j);
    var s0 := SmallSigma0(Load(buffer, Slot(j + 1)));
    var s1 := SmallSigma1(Load(buffer, Slot(j + 14)));
    var y := Load(buffer, Slot(j + 9));
    NextW(block, j, s1, y, s0, Load(buffer, Slot(j)));
    w := Expand(Load(buffer, Slot(j)), s1, y, s0);
    Store(buffer, Slot(j), w);
    Slots(j - 16);
    forall t: nat {:trigger Slot(t)} | j - 15 <= t < j + 1
      ensures Slot(t) + 8 <= 128 && Load(buffer, Slot(t)) == W(block, t)
    {
      if t < j {
        assert old(Load(buffer, Slot(t))) == W(block, t);
      }
    }
  }

  lemma SlotsRead(j: nat)
    requires j >= 16
    ensures Slot(j) == Slot(j - 16) && Slot(j + 1) == Slot(j - 15) && Slot(j + 14) == Slot(j - 2)
    ensures Slot(j + 9) == Slot(j - 7)
  {}

  /** The transform with a loop over the rounds. */
  method Transform(state: array<bv64>, buffer: array<bv8>, data: array<bv8>, off: nat)
    requires state.Length == 8 && buffer.Length == 128 && off + 128 <= data.Length && (data == buffer ==> off == 0)
    modifies state, buffer
    ensures Unpack(state) == Compress(old(Unpack(state)), old(data[off..off + 128]))
  {
    hide W, K, Round, T1, T2, Plus, Added;
    ghost var block := data[off..off + 128];
    ghost var r0 := Unpack(state);
    var r := Unpack(state);
    var j := 0;
    while j < 16
      invariant 0 <= j <= 16 && Read(buffer, data, off, block, j) && r == Rounds(r0, block, j) && Unpack(state) == r0
    {
      var w := ReadWord(buffer, data, off, block, j);
      r := Step(r, j, w);
      j := j + 1;
    }
    FirstWindow(buffer, data, off, block);
    while j < 80
      invariant 16 <= j <= 80 && Window(buffer, block, j) && r == Rounds(r0, block, j) && Unpack(state) == r0
    {
      var w := NextWord(buffer, block, j);
      r := Step(r, j, w);
      j := j + 1;
    }
    Accumulate(state, r);
  }

  /** One round of the loop: every register is shifted. */
  method Step(r: Regs, j: nat, w: bv64) returns (n: Regs)
    requires j < 80
    ensures n == Round(r, K(j), w)
  {
    hide T1, T2, K, Plus;
    var a, b, c, d, e, f, g, h := r.a, r.b, r.c, r.d, r.e, r.f, r.g, r.h;
    var t1 := T1(r, K(j), w);
    var t2 := T2(r);
    h := g;
    g := f;
    f := e;
    e := Plus(d, t1);
    d := c;
    c := b;
    b := a;
    a := Plus(t1, t2);
    n := Regs(a, b, c, d, e, f, g, h);
  }

  // ---- the unrolled transform

  /** The round macro: only two variables change, and the callers rename the others instead of moving them. */
  method RoundMacro(a: bv64, b: bv64, c: bv64, d0: bv64, e: bv64, f: bv64, g: bv64, h0: bv64, j: nat, w: bv64)
    returns (d: bv64, h: bv64)
    requires j < 80
    ensures Regs(h, a, b, c, d, e, f, g) == Round(Regs(a, b, c, d0, e, f, g, h0), K(j), w)
  {
    hide K, Plus, BigSigma0, BigSigma1, Ch, Maj;
    var t1 := Plus(Plus(Plus(Plus(h0, BigSigma1(e)), Ch(e, f, g)), K(j)), w);
    d := Plus(d0, t1);
    h := Plus(t1, Plus(BigSigma0(a), Maj(a, b, c)));
  }

  /** The registers, by their current names, after `t` rounds. */
  ghost predicate At(r0: Regs, block: seq<bv8>, t: nat, a: bv64, b: bv64, c: bv64, d: bv64, e: bv64, f: bv64, g: bv64,
                     h: bv64)
    requires |block| == 128 && t <= 80
  {
    Regs(a, b, c, d, e, f, g, h) == Rounds(r0, block, t)
  }

  /** Rounds 0 to 15: the word comes from the input. */
  method RoundRead(a: bv64, b: bv64, c: bv64, d0: bv64, e: bv64, f: bv64, g: bv64, h0: bv64,
                   buffer: array<bv8>, data: array<bv8>, off: nat, ghost block: seq<bv8>, j: nat, ghost r0: Regs)
    returns (d: bv64, h: bv64)
    requires buffer.Length == 128 && off + 128 <= data.Length && |block| == 128 && j < 16
    requires (data == buffer ==> off == 0)
    requires Read(buffer, data, off, block, j) && At(r0, block, j, a, b, c, d0, e, f, g, h0)
    modifies buffer
    ensures Read(buffer, data, off, block, j + 1) && At(r0, block, j + 1, h, a, b, c, d, e, f, g)
  {
    hide W, K, Round, Read;
    var w := ReadWord(buffer, data, off, block, j);
    d, h := RoundMacro(a, b, c, d0, e, f, g, h0, j, w);
  }

  /** The other rounds: the word comes from the schedule. */
  method RoundNext(a: bv64, b: bv64, c: bv64, d0: bv64, e: bv64, f: bv64, g: bv64, h0: bv64,
                   buffer: array<bv8>, ghost block: seq<bv8>, j: nat, ghost r0: Regs) returns (d: bv64, h: bv64)
    requires buffer.Length == 128 && |block| == 128 && 16 <= j < 80
    requires Window(buffer, block, j) && At(r0, block, j, a, b, c, d0, e, f, g, h0)
    modifies buffer
    ensures Window(buffer, block, j + 1) && At(r0, block, j + 1, h, a, b, c, d, e, f, g)
  {
    hide W, K, Round, Window;
    var w := NextWord(buffer, block, j);
    d, h := RoundMacro(a, b, c, d0, e, f, g, h0, j, w);
  }

  method EightReads(r: Regs, buffer: array<bv8>, data: array<bv8>, off: nat, ghost block: seq<bv8>, j: nat,
                    ghost r0: Regs) returns (n: Regs)
    requires buffer.Length == 128 && off + 128 <= data.Length && |block| == 128 && j <= 8
    requires (data == buffer ==> off == 0)
    requires Read(buffer, data, off, block, j) && At(r0, block, j, r.a, r.b, r.c, r.d, r.e, r.f, r.g, r.h)
    modifies buffer
    ensures Read(buffer, data, off, block, j + 8) && At(r0, block, j + 8, n.a, n.b, n.c, n.d, n.e, n.f, n.g, n.h)
  {
    hide At, Read;
    var a, b, c, d, e, f, g, h := r.a, r.b, r.c, r.d, r.e, r.f, r.g, r.h;
    d, h := RoundRead(a, b, c, d, e, f, g, h, buffer, data, off, block, j, r0);
    c, g := RoundRead(h, a, b, c, d, e, f, g, buffer, data, off, block, j + 1, r0);
    b, f := RoundRead(g, h, a, b, c, d, e, f, buffer, data, off, block, j + 2, r0);
    a, e := RoundRead(f, g, h, a, b, c, d, e, buffer, data, off, block, j + 3, r0);
    h, d := RoundRead(e, f, g, h, a, b, c, d, buffer, data, off, block, j + 4, r0);
    g, c := RoundRead(d, e, f, g, h, a, b, c, buffer, data, off, block, j + 5, r0);
    f, b := RoundRead(c, d, e, f, g, h, a, b, buffer, data, off, block, j + 6, r0);
    e, a := RoundRead(b, c, d, e, f, g, h, a, buffer, data, off, block, j + 7, r0);
    n := Regs(a, b, c, d, e, f, g, h);
  }

  method EightRounds(r: Regs, buffer: array<bv8>, ghost block: seq<bv8>, j: nat, ghost r0: Regs) returns (n: Regs)
    requires buffer.Length == 128 && |block| == 128 && 16 <= j && j + 8 <= 80
    requires Window(buffer, block, j) && At(r0, block, j, r.a, r.b, r.c, r.d, r.e, r.f, r.g, r.h)
    modifies buffer
    ensures Window(buffer, block, j + 8) && At(r0, block, j + 8, n.a, n.b, n.c, n.d, n.e, n.f, n.g, n.h)
  {
    hide At, Window;
    var a, b, c, d, e, f, g, h := r.a, r.b, r.c, r.d, r.e, r.f, r.g, r.h;
    d, h := RoundNext(a, b, c, d, e, f, g, h, buffer, block, j, r0);
    c, g := RoundNext(h, a, b, c, d, e, f, g, buffer, block, j + 1, r0);
    b, f := RoundNext(g, h, a, b, c, d, e, f, buffer, block, j + 2, r0);
    a, e := RoundNext(f, g, h, a, b, c, d, e, buffer, block, j + 3, r0);
    h, d := RoundNext(e, f, g, h, a, b, c, d, buffer, block, j + 4, r0);
    g, c := RoundNext(d, e, f, g, h, a, b, c, buffer, block, j + 5, r0);
    f, b := RoundNext(c, d, e, f, g, h, a, b, buffer, block, j + 6, r0);
    e, a := RoundNext(b, c, d, e, f, g, h, a, buffer, block, j + 7, r0);
    n := Regs(a, b, c, d, e, f, g, h);
  }

  lemma Start(r: Regs, buffer: array<bv8>, data: array<bv8>, off: nat, block: seq<bv8>)
    requires buffer.Length == 128 && off + 128 <= data.Length && block == data[off..off + 128]
    ensures Read(buffer, data, off, block, 0) && At(r, block, 0, r.a, r.b, r.c, r.d, r.e, r.f, r.g, r.h)
  {
    hide W;
  }

  lemma Finish(r0: Regs, r: Regs, block: seq<bv8>)
    requires |block| == 128 && At(r0, block, 80, r.a, r.b, r.c, r.d, r.e, r.f, r.g, r.h)
    ensures Compress(r0, block) == Added(r0, r)
  {
    hide Round, Added, W, K;
  }

  /** The transform with eight rounds to a loop iteration: it computes the same. */
  method TransformUnrolled(state: array<bv64>, buffer: array<bv8>, data: array<bv8>, off: nat)
    requires state.Length == 8 && buffer.Length == 128 && off + 128 <= data.Length && (data == buffer ==> off == 0)
    modifies state, buffer
    ensures Unpack(state) == Compress(old(Unpack(state)), old(data[off..off + 128]))
  {
    hide Rounds, Added, Read, Window, At, Compress, Unpack;
    ghost var block := data[off..off + 128];
    var r := Unpack(state);
    ghost var r0 := r;
    Start(r, buffer, data, off, block);
    r := EightReads(r, buffer, data, off, block, 0, r0);
    r := EightReads(r, buffer, data, off, block, 8, r0);
    FirstWindow(buffer, data, off, block);
    var j := 2;
    while j < 10
      invariant 2 <= j <= 10 && Window(buffer, block, 8 * j) && Unpack(state) == r0
      invariant At(r0, block, 8 * j, r.a, r.b, r.c, r.d, r.e, r.f, r.g, r.h)
    {
      r := EightRounds(r, buffer, block, 8 * j, r0);
      j := j + 1;
    }
    Accumulate(state, r);
    Finish(r0, r, block);
  }

  // ---- the incremental interface

  /** Chaining value after all full blocks of a message. */
  ghost function Chain(iv: Regs, msg: seq<bv8>): Regs { Absorb(Compress, iv, msg, 128) }
  /** The hash of a whole message: padded, and compressed block by block. */
  ghost function Hash(iv: Regs, msg: seq<bv8>): Regs { Absorb(Compress, iv, Padded(msg, 128, 16), 128) }

  function WordBytes(x: bv64): (b: seq<bv8>) ensures |b| == 8 {
    [Byte64(x, 7), Byte64(x, 6), Byte64(x, 5), Byte64(x, 4), Byte64(x, 3), Byte64(x, 2), Byte64(x, 1), Byte64(x, 0)]
  }

  function Reg(r: Regs, j: nat): bv64 requires j < 8 {
    if j == 0 then r.a else if j == 1 then r.b else if j == 2 then r.c else if j == 3 then r.d
    else if j == 4 then r.e else if j == 5 then r.f else if j == 6 then r.g else r.h
  }

  /** The first `words` words of a hash value as bytes. */
  ghost function Digest(r: Regs, words: nat): (b: seq<bv8>)
    requires words <= 8
    ensures |b| == 8 * words
  {
    if words == 0 then [] else Digest(r, words - 1) + WordBytes(Reg(r, words - 1))
  }

  lemma DigestNone(r: Regs) ensures Digest(r, 0) == [] {}

  lemma DigestNext(r: Regs, j: nat)
    requires j < 8
    ensures Digest(r, j + 1) == Digest(r, j) + WordBytes(Reg(r, j))
  {}

  lemma RegAt(state: array<bv64>, j: nat)
    requires state.Length == 8 && j < 8
    ensures Reg(Unpack(state), j) == state[j]
  {}

  lemma {:induction false} RestLength(msg: seq<bv8>)
    ensures |Rest(msg, 128)| == |msg| % 128
    decreases |msg|
  {
    if |msg| >= 128 {
      RestLength(msg[128..]);
    }
  }

  /**
   * The padding is that of section 5.1.2: after the one bit, the least number of zero bits that leaves the length
   * field at the end of a block.
   */
  lemma LeastPadding(msg: seq<bv8>)
    ensures var zeros := 7 + 8 * Gap(|Rest(msg, 128)|, 128, 16);
            Ends(|msg|, zeros) && forall k: nat | Ends(|msg|, k) :: k >= zeros
  {
    hide Ends, Rest, Gap;
    RestLength(msg);
    var len, used := |msg|, |msg| % 128;
    forall k: nat | Ends(len, k) ensures k >= 7 + 8 * Gap(used, 128, 16) {
      BitsUsed(len, used, k);
      LeastGap(used, k);
    }
    BitsUsed(len, used, 7 + 8 * Gap(used, 128, 16));
    LeastGap(used, 0);
  }

  /** After `len` bytes, a one bit and `k` zero bits, the length field ends a block. */
  predicate Ends(len: nat, k: nat) { (8 * len + 1 + k) % 1024 == 896 }

  lemma LeastGap(used: nat, k: nat)
    requires used < 128
    ensures Ends(used, k) ==> k >= 7 + 8 * Gap(used, 128, 16)
    ensures Ends(used, 7 + 8 * Gap(used, 128, 16))
  {
    assert Gap(used, 128, 16) == if used < 112 then 112 - 1 - used else 112 + 128 - 1 - used;
  }

  lemma BitsUsed(len: nat, used: nat, k: nat)
    requires used == len % 128
    ensures Ends(len, k) <==> Ends(used, k)
  {
    assert 8 * len + 1 + k == 1024 * (len / 128) + (8 * used + 1 + k);
  }

  function Initial(): Regs {
    Regs(0x6a09e667f3bcc908, 0xbb67ae8584caa73b, 0x3c6ef372fe94f82b, 0xa54ff53a5f1d36f1,
         0x510e527fade682d1, 0x9b05688c2b3e6c1f, 0x1f83d9abfb41bd6b, 0x5be0cd19137e2179)
  }

  function Initial384(): Regs {
    Regs(0xcbbb9d5dc1059ed8, 0x629a292a367cd507, 0x9159015a3070dd17, 0x152fecd8f70e5939,
         0x67332667ffc00b31, 0x8eb44a8768581511, 0xdb0c2e0d64f98fa7, 0x47b5481dbefa4fa4)
  }

  /** The two halves of the count of bits. */
  ghost predicate CountOk(lo: nat, hi: nat, n: nat) {
    lo < 0x1_0000_0000_0000_0000 && hi < 0x1_0000_0000_0000_0000 && n == hi * 0x1_0000_0000_0000_0000 + lo
  }

  lemma CountHalves(hi: nat, lo: nat)
    requires lo < 0x1_0000_0000_0000_0000
    ensures BigEndian(hi * 0x1_0000_0000_0000_0000 + lo, 16) == BigEndian(hi, 8) + BigEndian(lo, 8)
  {
    Pow256At8();
    hide Pow256, BigEndian;
    BigEndianHalves(hi, lo, 8, 8);
  }

  lemma Pow256At8()
    ensures Pow256(8) == 0x1_0000_0000_0000_0000
  {
    assert Pow256(4) == 0x1_0000_0000;
  }

  /** The low half alone tells how full the buffer is. */
  lemma LowHalf(lo: nat, hi: nat, n: nat)
    requires CountOk(lo, hi, 8 * n)
    ensures lo / 8 % 128 == n % 128
  {
    assert lo / 8 == n - hi * 0x2000_0000_0000_0000;
    assert hi * 0x2000_0000_0000_0000 == 128 * (hi * 0x40_0000_0000_0000);
  }

  lemma EmptyChain(iv: Regs)
    ensures Chain(iv, []) == iv && Rest([], 128) == []
  {
    hide Compress;
  }

  class Context {
    const iv: Regs
    const state: array<bv64>
    const buffer: array<bv8>
    var bitcount0: nat
    var bitcount1: nat

    /** All the bytes given so far. */
    ghost var msg: seq<bv8>

    ghost predicate Sized() { state.Length == 8 && buffer.Length == 128 }

    ghost predicate Valid()
      reads this, state, buffer
    {
      && Sized() && CountOk(bitcount0, bitcount1, 8 * |msg|)
      && Unpack(state) == Chain(iv, msg)
      && |Rest(msg, 128)| <= 128 && buffer[..|Rest(msg, 128)|] == Rest(msg, 128)
    }

    constructor (iv0: Regs)
      ensures Valid() && msg == [] && iv == iv0 && fresh(state) && fresh(buffer)
    {
      iv := iv0;
      state := new bv64[8](i requires 0 <= i < 8 => Reg(iv0, i));
      buffer := new bv8[128](i => 0 as bv8);
      bitcount0, bitcount1 := 0, 0;
      msg := [];
      new;
      EmptyChain(iv0);
      hide Compress, Chain, Absorb;
    }

    /** ADDINC128 */
    method AddBits(n: nat)
      requires n < 0x1_0000_0000_0000_0000
      modifies `bitcount0, `bitcount1
      ensures forall k: nat | CountOk(old(bitcount0), old(bitcount1), k)
                              && k + n < 0x1_0000_0000_0000_0000 * 0x1_0000_0000_0000_0000 ::
                CountOk(bitcount0, bitcount1, k + n)
    {
      bitcount0 := (bitcount0 + n) % 0x1_0000_0000_0000_0000;
      if bitcount0 < n { bitcount1 := (bitcount1 + 1) % 0x1_0000_0000_0000_0000; }
    }

    lemma CountBytes()
      requires Valid()
      ensures BigEndian(8 * |msg|, 16) == BigEndian(bitcount1, 8) + BigEndian(bitcount0, 8)
    {
      hide Chain, Unpack, BigEndian, Rest, Read;
      CountHalves(bitcount1, bitcount0);
    }

    /** Bytes in the buffer, from the count of bits. */
    method UsedSpace() returns (used: nat)
      requires Valid()
      ensures used == |Rest(msg, 128)|
    {
      RestLength(msg);
      hide Compress, Chain, Unpack;
      used := bitcount0 / 8 % 128;
      LowHalf(bitcount0, bitcount1, |msg|);
    }

    /** memcpy into the buffer. */
    method Copy(at: nat, data: array<bv8>, from: nat, n: nat)
      requires Sized() && data != buffer && at + n <= 128 && from + n <= data.Length
      modifies buffer
      ensures buffer[..at + n] == old(buffer[..at]) + data[from..from + n]
    {
      forall i | 0 <= i < n { buffer[at + i] := data[from + i]; }
    }

    /** Completing the block in the buffer. */
    method Fill(data: array<bv8>, n: nat, ghost used: nat)
      requires Valid() && data != buffer && n <= data.Length && used == |Rest(msg, 128)| && used + n == 128
      requires 8 * (|msg| + n) < 0x1_0000_0000_0000_0000 * 0x1_0000_0000_0000_0000
      modifies this, state, buffer
      ensures Valid() && msg == old(msg) + data[..n] && Rest(msg, 128) == []
    {
      hide Compress, Absorb, Rest, Unpack;
      ghost var r := Rest(msg, 128);
      AbsorbBlock(Compress, iv, msg, data[..n], 128);
      Copy(128 - n, data, 0, n);
      assert buffer[..] == r + data[..n];
      AddBits(8 * n);
      Transform(state, buffer, buffer, 0);
      assert old(data[..n]) == data[..n];
      msg := msg + data[..n];
    }

    /** What does not fill a block stays in the buffer. */
    method Keep(data: array<bv8>, from: nat, n: nat, ghost used: nat)
      requires Valid() && data != buffer && from + n <= data.Length && used == |Rest(msg, 128)| && used + n < 128
      requires 8 * (|msg| + n) < 0x1_0000_0000_0000_0000 * 0x1_0000_0000_0000_0000
      modifies this, buffer
      ensures Valid() && msg == old(msg) + data[from..from + n]
    {
      hide Compress, Unpack, Absorb, Rest;
      ghost var r := Rest(msg, 128);
      AbsorbPart(Compress, iv, msg, data[from..from + n], 128);
      var at := UsedSpace();
      Copy(at, data, from, n);
      assert buffer[..used + n] == r + data[from..from + n];
      AddBits(8 * n);
      msg := msg + data[from..from + n];
    }

    /** A whole block straight from the input. */
    method Whole(data: array<bv8>, from: nat)
      requires Valid() && data != buffer && from + 128 <= data.Length && Rest(msg, 128) == []
      requires (var n := 128; 8 * (|msg| + n) < 0x1_0000_0000_0000_0000 * 0x1_0000_0000_0000_0000)
      modifies this, state, buffer
      ensures Valid() && msg == old(msg) + data[from..from + 128] && Rest(msg, 128) == []
    {
      hide Compress;
      AbsorbBlock(Compress, iv, msg, data[from..from + 128], 128);
      assert Rest(msg, 128) + data[from..from + 128] == data[from..from + 128];
      Transform(state, buffer, data, from);
      AddBits(8 * 128);
      msg := msg + data[from..from + 128];
    }

    /** Any number of bytes, in any state of the buffer, are added to the message. */
    method Update(data: array<bv8>)
      requires Valid() && data != buffer
      requires (var n := data.Length; 8 * (|msg| + n) < 0x1_0000_0000_0000_0000 * 0x1_0000_0000_0000_0000)
      modifies this, state, buffer
      ensures Valid() && msg == old(msg) + data[..]
    {
      hide Valid, Rest;
      var len, pos := data.Length, 0;
      if len == 0 { return; }
      var used := UsedSpace();
      if used > 0 {
        var free := 128 - used;
        if len >= free {
          Fill(data, free, used);
          len := len - free;
          pos := free;
        } else {
          Keep(data, 0, len, used);
          return;
        }
      }
      while len >= 128
        invariant 0 <= pos <= data.Length && pos + len == data.Length && Valid() && Rest(msg, 128) == []
        invariant msg == old(msg) + data[..pos]
      {
        Whole(data, pos);
        assert data[..pos] + data[pos..pos + 128] == data[..pos + 128];
        len := len - 128;
        pos := pos + 128;
      }
      assert data[..pos] + data[pos..] == data[..];
      if len > 0 {
        Keep(data, pos, len, 0);
        assert data[pos..pos + len] == data[pos..];
      }
    }

    method Zero(from: nat, to: nat)
      requires Sized() && from <= to <= 128
      modifies buffer
      ensures buffer[..] == old(buffer[..from]) + Zeros(to - from) + old(buffer[to..])
    {
      forall i | from <= i < to { buffer[i] := 0; }
    }

    /** The count of bits, most significant byte first, ends the last block. */
    method StoreCount()
      requires Sized()
      modifies buffer
      ensures buffer[..] == old(buffer[..112]) + BigEndian(bitcount1, 8) + BigEndian(bitcount0, 8)
    {
      hide Reverse64, Byte64, BigEndian;
      var high, low := Reverse64(WordOf(bitcount1)), Reverse64(WordOf(bitcount0));
      ReversedNumber(bitcount1);
      ReversedNumber(bitcount0);
      forall i | 0 <= i < 8 { buffer[112 + i] := Byte64(high, i); }
      forall i | 0 <= i < 8 { buffer[120 + i] := Byte64(low, i); }
    }

    /** The rest of the message with its mark and zeros, when the count still fits in the block. */
    method PadShort(used: nat)
      requires Sized() && used < 112
      modifies buffer
      ensures buffer[..112] == old(buffer[..used]) + [0x80 as bv8] + Zeros(112 - used - 1)
    {
      ghost var r := buffer[..used];
      if used > 0 {
        buffer[used] := 0x80;
        assert buffer[..used + 1] == r + [0x80 as bv8];
        Zero(used + 1, 112);
      } else {
        Zero(0, 112);
        assert buffer[..][1..112] == Zeros(112 - 1);
        buffer[0] := 0x80;
        assert buffer[..112] == [buffer[0]] + buffer[1..112];
        assert buffer[1..112] == Zeros(112 - 1);
      }
    }

    /** The same when it does not. */
    method PadLong(used: nat)
      requires Sized() && 112 <= used < 128
      modifies buffer
      ensures buffer[..] == old(buffer[..used]) + [0x80 as bv8] + Zeros(128 - used - 1)
    {
      ghost var r := buffer[..used];
      buffer[used] := 0x80;
      assert buffer[..used + 1] == r + [0x80 as bv8];
      if used + 1 < 128 { Zero(used + 1, 128); }
    }

    /** Padding and the last transforms. */
    method Last()
      requires Valid()
      modifies this, state, buffer
      ensures Unpack(state) == Hash(iv, old(msg))
    {
      hide Compress, Absorb, Rest, Zeros, BigEndian, Unpack;
      var used := UsedSpace();
      ghost var r := Rest(msg, 128);
      ghost var count := BigEndian(8 * |msg|, 16);
      CountBytes();
      if used < 112 {
        PadOne(Compress, iv, msg, 128, 16);
        PadShort(used);
        StoreCount();
        assert buffer[0..128] == r + [0x80 as bv8] + Zeros(112 - used - 1) + count;
      } else {
        PadTwo(Compress, iv, msg, 128, 16);
        PadLong(used);
        assert buffer[0..128] == r + [0x80 as bv8] + Zeros(128 - used - 1);
        Transform(state, buffer, buffer, 0);
        ClearStart();
        StoreCount();
        assert buffer[0..128] == Zeros(112) + count;
      }
      Transform(state, buffer, buffer, 0);
    }

    method ClearStart()
      requires Sized()
      modifies buffer
      ensures buffer[..112] == Zeros(112)
    {
      Zero(0, 126);
    }

    /** The first `words` words of the state, most significant byte first. */
    method Output(digest: array<bv8>, words: nat)
      requires Sized() && words <= 8 && digest.Length == 8 * words
      modifies digest
      ensures digest[..] == Digest(Unpack(state), words)
    {
      hide WordBytes, Reverse64, Unpack, Digest, Reg;
      ghost var out := Unpack(state);
      DigestNone(out);
      var j := 0;
      while j < words
        invariant 0 <= j <= words && digest[..8 * j] == Digest(out, j)
      {
        RegAt(state, j);
        DigestNext(out, j);
        StoreReversed(digest, 8 * j, state[j], Reverse64(state[j]));
        assert digest[..8 * j + 8] == digest[..8 * j] + digest[8 * j..8 * j + 8];
        j := j + 1;
      }
      assert digest[..] == digest[..8 * words];
    }

    ghost predicate Cleared()
      reads this, state, buffer
    {
      && bitcount0 == 0 && bitcount1 == 0 && (forall i | 0 <= i < state.Length :: state[i] == 0)
      && (forall i | 0 <= i < buffer.Length :: buffer[i] == 0)
    }

    method Clear()
      modifies this, state, buffer
      ensures Cleared()
    {
      bitcount0, bitcount1 := 0, 0;
      forall i | 0 <= i < state.Length { state[i] := 0; }
      forall i | 0 <= i < buffer.Length { buffer[i] := 0; }
    }

    /** The digest of all the bytes given, if it is asked for; nothing of the message stays in the context. */
    method Final(digest: array?<bv8>, words: nat)
      requires Valid() && digest != buffer && words <= 8 && (digest != null ==> digest.Length == 8 * words)
      modifies this, state, buffer, if digest == null then {} else {digest}
      ensures digest != null ==> digest[..] == Digest(Hash(iv, old(msg)), words)
      ensures Cleared()
    {
      hide Absorb, Hash, Chain, Rest, Digest;
      if digest != null {
        Last();
        Output(digest, words);
      }
      Clear();
    }
  }

  /** However a message is cut into calls, the digest is that of the whole message. */
  method DigestOf(iv: Regs, pieces: seq<array<bv8>>, ghost parts: seq<seq<bv8>>, digest: array<bv8>, words: nat)
    requires |parts| == |pieces| && forall k | 0 <= k < |parts| :: pieces[k][..] == parts[k]
    requires words <= 8 && digest.Length == 8 * words
    requires (var n := |Joined(parts)|; 8 * n < 0x1_0000_0000_0000_0000 * 0x1_0000_0000_0000_0000)
    modifies digest
    ensures digest[..] == Digest(Hash(iv, Joined(parts)), words)
  {
    hide Hash, Digest, Chain, Absorb, Rest, Unpack;
    var context := new Context(iv);
    Feed(context, pieces, parts);
    context.Final(digest, words);
  }

  /** SHA-512, section 6.4. */
  method Digest512(pieces: seq<array<bv8>>, ghost parts: seq<seq<bv8>>, digest: array<bv8>)
    requires |parts| == |pieces| && forall k | 0 <= k < |parts| :: pieces[k][..] == parts[k]
    requires digest.Length == 64
    requires (var n := |Joined(parts)|; 8 * n < 0x1_0000_0000_0000_0000 * 0x1_0000_0000_0000_0000)
    modifies digest
    ensures digest[..] == Digest(Hash(Initial(), Joined(parts)), 8)
  {
    DigestOf(Initial(), pieces, parts, digest, 8);
  }

  /** SHA-384, section 6.5: another initial value, and six of the eight words. */
  method Digest384(pieces: seq<array<bv8>>, ghost parts: seq<seq<bv8>>, digest: array<bv8>)
    requires |parts| == |pieces| && forall k | 0 <= k < |parts| :: pieces[k][..] == parts[k]
    requires digest.Length == 48
    requires (var n := |Joined(parts)|; 8 * n < 0x1_0000_0000_0000_0000 * 0x1_0000_0000_0000_0000)
    modifies digest
    ensures digest[..] == Digest(Hash(Initial384(), Joined(parts)), 6)
  {
    DigestOf(Initial384(), pieces, parts, digest, 6);
  }

  method Feed(context: Context, pieces: seq<array<bv8>>, ghost parts: seq<seq<bv8>>)
    requires context.Valid() && context.msg == [] && context.buffer !in pieces
    requires |parts| == |pieces| && forall k | 0 <= k < |parts| :: pieces[k][..] == parts[k]
    requires var n := |Joined(parts)|; 8 * n < 0x1_0000_0000_0000_0000 * 0x1_0000_0000_0000_0000
    modifies context, context.state, context.buffer
    ensures context.Valid() && context.msg == Joined(parts)
  {
    hide *;
    JoinedNone(parts);
    var i := 0;
    while i < |pieces|
      invariant 0 <= i <= |pieces| && context.Valid() && context.msg == Joined(parts[..i])
      invariant forall k | 0 <= k < |parts| :: pieces[k][..] == parts[k]
    {
      JoinedNext(parts, i);
      assert pieces[i][..] == parts[i];
      context.Update(pieces[i]);
      i := i + 1;
    }
    assert parts[..i] == parts;
  }

  /** A reversed word in host order is the word, most significant byte first. */
  method StoreReversed(b: array<bv8>, i: nat, x: bv64, w: bv64)
    requires i + 8 <= b.Length && w == Reverse64(x)
    modifies b
    ensures b[..i] == old(b[..i]) && b[i..i + 8] == WordBytes(x)
  {
    ReversedBytes(x);
    hide Reverse64, Byte64;
    b[i] := Byte64(w, 0);
    b[i + 1] := Byte64(w, 1);
    b[i + 2] := Byte64(w, 2);
    b[i + 3] := Byte64(w, 3);
    b[i + 4] := Byte64(w, 4);
    b[i + 5] := Byte64(w, 5);
    b[i + 6] := Byte64(w, 6);
    b[i + 7] := Byte64(w, 7);
    assert b[i..i + 8] == WordBytes(x);
  }

  lemma ReversedBytes(x: bv64)
    ensures var w := Reverse64(x);
            Byte64(w, 0) == Byte64(x, 7) && Byte64(w, 1) == Byte64(x, 6) && Byte64(w, 2) == Byte64(x, 5)
                && Byte64(w, 3) == Byte64(x, 4) && Byte64(w, 4) == Byte64(x, 3) && Byte64(w, 5) == Byte64(x, 2)
                && Byte64(w, 6) == Byte64(x, 1) && Byte64(w, 7) == Byte64(x, 0)
  {
    FromBytes64(x);
    Reversed64(Byte64(x, 0), Byte64(x, 1), Byte64(x, 2), Byte64(x, 3), Byte64(x, 4), Byte64(x, 5), Byte64(x, 6),
        Byte64(x, 7));
    Bytes64(Byte64(x, 7), Byte64(x, 6), Byte64(x, 5), Byte64(x, 4), Byte64(x, 3), Byte64(x, 2), Byte64(x, 1),
        Byte64(x, 0));
    hide Reverse64, Byte64, Word64;
  }
}
