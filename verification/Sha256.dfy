/**
 * The compression function of section 6.2 of FIPS 180-4, and the transform that computes it in the context's own
 * buffer.
 */
module Sha256 {
  import opened Sha2Words
  import opened Streams

  // ---- the standard

  function And(x: bv32, y: bv32): bv32 { x & y }
  function Or(x: bv32, y: bv32): bv32 { x | y }
  function Xor(x: bv32, y: bv32): bv32 { x ^ y }
  function Not(x: bv32): bv32 { !x }
  function Shr(n: bv6, x: bv32): bv32 requires n < 32 { x >> n }
  function Shl(n: bv6, x: bv32): bv32 requires n < 32 { x << n }

  function Rotr(n: bv6, x: bv32): bv32 requires 0 < n < 32 { Or(Shr(n, x), Shl(32 - n, x)) }
  function Ch(x: bv32, y: bv32, z: bv32): bv32 { Xor(And(x, y), And(Not(x), z)) }
  function Maj(x: bv32, y: bv32, z: bv32): bv32 { Xor(Xor(And(x, y), And(x, z)), And(y, z)) }
  function BigSigma0(x: bv32): bv32 { Xor(Xor(Rotr(2, x), Rotr(13, x)), Rotr(22, x)) }
  function BigSigma1(x: bv32): bv32 { Xor(Xor(Rotr(6, x), Rotr(11, x)), Rotr(25, x)) }
  function SmallSigma0(x: bv32): bv32 { Xor(Xor(Rotr(7, x), Rotr(18, x)), Shr(3, x)) }
  function SmallSigma1(x: bv32): bv32 { Xor(Xor(Rotr(17, x), Rotr(19, x)), Shr(10, x)) }

  /** Addition of words, which wraps around. */
  function Plus(x: bv32, y: bv32): bv32 { x + y }

  // The constants, eight to a row.
  function K0(t: nat): bv32 {
    if t == 0 then 0x428a2f98 else if t == 1 then 0x71374491 else if t == 2 then 0xb5c0fbcf else
    if t == 3 then 0xe9b5dba5 else if t == 4 then 0x3956c25b else if t == 5 then 0x59f111f1 else
    if t == 6 then 0x923f82a4 else 0xab1c5ed5
  }

  function K1(t: nat): bv32 {
    if t == 0 then 0xd807aa98 else if t == 1 then 0x12835b01 else if t == 2 then 0x243185be else
    if t == 3 then 0x550c7dc3 else if t == 4 then 0x72be5d74 else if t == 5 then 0x80deb1fe else
    if t == 6 then 0x9bdc06a7 else 0xc19bf174
  }

  function K2(t: nat): bv32 {
    if t == 0 then 0xe49b69c1 else if t == 1 then 0xefbe4786 else if t == 2 then 0x0fc19dc6 else
    if t == 3 then 0x240ca1cc else if t == 4 then 0x2de92c6f else if t == 5 then 0x4a7484aa else
    if t == 6 then 0x5cb0a9dc else 0x76f988da
  }

  function K3(t: nat): bv32 {
    if t == 0 then 0x983e5152 else if t == 1 then 0xa831c66d else if t == 2 then 0xb00327c8 else
    if t == 3 then 0xbf597fc7 else if t == 4 then 0xc6e00bf3 else if t == 5 then 0xd5a79147 else
    if t == 6 then 0x06ca6351 else 0x14292967
  }

  function K4(t: nat): bv32 {
    if t == 0 then 0x27b70a85 else if t == 1 then 0x2e1b2138 else if t == 2 then 0x4d2c6dfc else
    if t == 3 then 0x53380d13 else if t == 4 then 0x650a7354 else if t == 5 then 0x766a0abb else
    if t == 6 then 0x81c2c92e else 0x92722c85
  }

  function K5(t: nat): bv32 {
    if t == 0 then 0xa2bfe8a1 else if t == 1 then 0xa81a664b else if t == 2 then 0xc24b8b70 else
    if t == 3 then 0xc76c51a3 else if t == 4 then 0xd192e819 else if t == 5 then 0xd6990624 else
    if t == 6 then 0xf40e3585 else 0x106aa070
  }

  function K6(t: nat): bv32 {
    if t == 0 then 0x19a4c116 else if t == 1 then 0x1e376c08 else if t == 2 then 0x2748774c else
    if t == 3 then 0x34b0bcb5 else if t == 4 then 0x391c0cb3 else if t == 5 then 0x4ed8aa4a else
    if t == 6 then 0x5b9cca4f else 0x682e6ff3
  }

  function K7(t: nat): bv32 {
    if t == 0 then 0x748f82ee else if t == 1 then 0x78a5636f else if t == 2 then 0x84c87814 else
    if t == 3 then 0x8cc70208 else if t == 4 then 0x90befffa else if t == 5 then 0xa4506ceb else
    if t == 6 then 0xbef9a3f7 else 0xc67178f2
  }

  function K(t: nat): bv32 requires t < 64 {
    if t < 8 then K0(t - 0) else
    if t < 16 then K1(t - 8) else
    if t < 24 then K2(t - 16) else
    if t < 32 then K3(t - 24) else
    if t < 40 then K4(t - 32) else
    if t < 48 then K5(t - 40) else
    if t < 56 then K6(t - 48) else K7(t - 56)
  }

  /** The word of a block at byte `i`, most significant byte first. */
  function Big(s: seq<bv8>, i: nat): bv32 requires i + 4 <= |s| { Word32(s[i + 3], s[i + 2], s[i + 1], s[i]) }

  /** The message schedule. */
  ghost function W(block: seq<bv8>, t: nat): bv32
    requires |block| == 64 && t < 64
  {
    if t < 16 then Big(block, 4 * t)
    else
      var sum := Plus(Plus(SmallSigma1(W(block, t - 2)), W(block, t - 7)), SmallSigma0(W(block, t - 15)));
      Plus(sum, W(block, t - 16))
  }

  datatype Regs = Regs(a: bv32, b: bv32, c: bv32, d: bv32, e: bv32, f: bv32, g: bv32, h: bv32)

  function T1(r: Regs, k: bv32, w: bv32): bv32 { Plus(Plus(Plus(Plus(r.h, BigSigma1(r.e)), Ch(r.e, r.f, r.g)), k), w) }
  function T2(r: Regs): bv32 { Plus(BigSigma0(r.a), Maj(r.a, r.b, r.c)) }

  function Round(r: Regs, k: bv32, w: bv32): Regs {
    Regs(Plus(T1(r, k, w), T2(r)), r.a, r.b, r.c, Plus(r.d, T1(r, k, w)), r.e, r.f, r.g)
  }

  ghost function Rounds(r: Regs, block: seq<bv8>, t: nat): Regs
    requires |block| == 64 && t <= 64
  {
    if t == 0 then r else Round(Rounds(r, block, t - 1), K(t - 1), W(block, t - 1))
  }

  function Added(s: Regs, r: Regs): Regs {
    Regs(Plus(s.a, r.a), Plus(s.b, r.b), Plus(s.c, r.c), Plus(s.d, r.d),
         Plus(s.e, r.e), Plus(s.f, r.f), Plus(s.g, r.g), Plus(s.h, r.h))
  }

  /** One block into the hash value; anything that is not a block leaves it alone. */
  ghost function Compress(s: Regs, block: seq<bv8>): Regs {
    if |block| == 64 then Added(s, Rounds(s, block, 64)) else s
  }

  // ---- words in byte buffers

  function Load(b: array<bv8>, i: nat): bv32
    requires i + 4 <= b.Length
    reads b
  {
    Word32(b[i], b[i + 1], b[i + 2], b[i + 3])
  }

  method Store(b: array<bv8>, i: nat, w: bv32)
    requires i + 4 <= b.Length
    modifies b
    ensures Load(b, i) == w
    ensures forall k | 0 <= k < b.Length && !(i <= k < i + 4) :: b[k] == old(b[k])
  {
    b[i] := Byte32(w, 0);
    b[i + 1] := Byte32(w, 1);
    b[i + 2] := Byte32(w, 2);
    b[i + 3] := Byte32(w, 3);
    FromBytes32(w);
    hide Word32, Byte32;
  }

  /** Reading a word of the block in host order and reversing its bytes gives the word of the standard. */
  lemma LoadBig(s: seq<bv8>, i: nat)
    requires i + 4 <= |s|
    ensures Reverse32(Word32(s[i], s[i + 1], s[i + 2], s[i + 3])) == Big(s, i)
  {
    Reversed32(s[i], s[i + 1], s[i + 2], s[i + 3]);
    hide Word32, Reverse32;
  }

  // ---- the transform

  function Unpack(s: array<bv32>): Regs
    requires s.Length == 8
    reads s
  {
    Regs(s[0], s[1], s[2], s[3], s[4], s[5], s[6], s[7])
  }

  method Accumulate(state: array<bv32>, r: Regs)
    requires state.Length == 8
    modifies state
    ensures Unpack(state) == Added(old(Unpack(state)), r)
  {
    hide Plus;
    state[0] := Plus(state[0], r.a);
    state[1] := Plus(state[1], r.b);
    state[2] := Plus(state[2], r.c);
    state[3] := Plus(state[3], r.d);
    state[4] := Plus(state[4], r.e);
    state[5] := Plus(state[5], r.f);
    state[6] := Plus(state[6], r.g);
    state[7] := Plus(state[7], r.h);
  }

  /** The first sixteen words of the schedule are in the buffer as far as `j`, the rest of the input is as it was. */
  ghost predicate Read(buffer: array<bv8>, data: array<bv8>, off: nat, block: seq<bv8>, j: nat)
    requires buffer.Length == 64 && off + 64 <= data.Length && |block| == 64 && j <= 16
    reads buffer, data
  {
    && (forall i: nat {:trigger Load(buffer, 4 * i)} | i < j :: Load(buffer, 4 * i) == W(block, i))
    && (forall k | 4 * j <= k < 64 :: data[off + k] == block[k])
  }

  method ReadWord(buffer: array<bv8>, data: array<bv8>, off: nat, ghost block: seq<bv8>, j: nat) returns (w: bv32)
    requires buffer.Length == 64 && off + 64 <= data.Length && |block| == 64 && j < 16 && (data == buffer ==> off == 0)
    requires Read(buffer, data, off, block, j)
    modifies buffer
    ensures Read(buffer, data, off, block, j + 1) && w == W(block, j)
  {
    hide Word32, Reverse32, Big;
    LoadBig(block, 4 * j);
    w := Reverse32(Load(data, off + 4 * j));
    assert w == Big(block, 4 * j);
    Store(buffer, 4 * j, w);
    forall i: nat {:trigger Load(buffer, 4 * i)} | i < j + 1 ensures Load(buffer, 4 * i) == W(block, i) {
      if i < j { assert Load(buffer, 4 * i) == old(Load(buffer, 4 * i)); }
    }
  }

  /** Word `t` of the schedule has its place in the buffer until word `t` + 16 replaces it. */
  function Slot(t: nat): nat { 4 * (t % 16) }

  ghost predicate Window(buffer: array<bv8>, block: seq<bv8>, j: nat)
    requires buffer.Length == 64 && |block| == 64 && 16 <= j <= 64
    reads buffer
  {
    forall t: nat {:trigger Slot(t)} | j - 16 <= t < j :: Slot(t) + 4 <= 64 && Load(buffer, Slot(t)) == W(block, t)
  }

  lemma Slots(t: nat)
    ensures Slot(t) + 4 <= 64 && Slot(t + 16) == Slot(t)
    ensures forall u: nat {:trigger Slot(u)} | t < u < t + 16 :: Slot(u) + 4 <= Slot(t) || Slot(t) + 4 <= Slot(u)
  {
    forall u: nat {:trigger Slot(u)} | t < u < t + 16 ensures Slot(u) + 4 <= Slot(t) || Slot(t) + 4 <= Slot(u) {
      assert u % 16 != t % 16;
    }
  }

  lemma FirstWindow(buffer: array<bv8>, data: array<bv8>, off: nat, block: seq<bv8>)
    requires buffer.Length == 64 && off + 64 <= data.Length && |block| == 64 && Read(buffer, data, off, block, 16)
    ensures Window(buffer, block, 16)
  {
    forall t: nat {:trigger Slot(t)} | t < 16 ensures Slot(t) + 4 <= 64 && Load(buffer, Slot(t)) == W(block, t) {
      assert Slot(t) == 4 * t;
      assert Load(buffer, 4 * t) == W(block, t);
    }
  }

  lemma Sum(x: bv32, s1: bv32, y: bv32, s0: bv32)
    ensures Plus(x, Plus(Plus(s1, y), s0)) == Plus(Plus(Plus(s1, y), s0), x)
  {}

  lemma NextW(block: seq<bv8>, j: nat, s1: bv32, y: bv32, s0: bv32, x: bv32)
    requires |block| == 64 && 16 <= j < 64
    requires s1 == SmallSigma1(W(block, j - 2)) && y == W(block, j - 7) && s0 == SmallSigma0(W(block, j - 15))
    requires x == W(block, j - 16)
    ensures Expand(x, s1, y, s0) == W(block, j)
  {
    hide SmallSigma0, SmallSigma1, Plus;
    Sum(x, s1, y, s0);
  }

  function Expand(x: bv32, s1: bv32, y: bv32, s0: bv32): bv32 { Plus(x, Plus(Plus(s1, y), s0)) }

  /** Part of the message block expansion: the next word replaces the one sixteen rounds ago. */
  method NextWord(buffer: array<bv8>, ghost block: seq<bv8>, j: nat) returns (w: bv32)
    requires buffer.Length == 64 && |block| == 64 && 16 <= j < 64 && Window(buffer, block, j)
    modifies buffer
    ensures Window(buffer, block, j + 1) && w == W(block, j)
  {
    hide Word32, W, SmallSigma0, SmallSigma1, Slot, Expand;
    SlotsRead(j);
    var s0 := SmallSigma0(Load(buffer, Slot(j + 1)));
    var s1 := SmallSigma1(Load(buffer, Slot(j + 14)));
    var y := Load(buffer, Slot(j + 9));
    NextW(block, j, s1, y, s0, Load(buffer, Slot(j)));
    w := Expand(Load(buffer, Slot(j)), s1, y, s0);
    Store(buffer, Slot(j), w);
    Slots(j - 16);
    forall t: nat {:trigger Slot(t)} | j - 15 <= t < j + 1
      ensures Slot(t) + 4 <= 64 && Load(buffer, Slot(t)) == W(block, t)
    {
      if t < j {
        assert old(Load(buffer, Slot(t))) == W(block, t);
      }
    }
  }

  lemma SlotsRead(j: nat)
    requires j >= 16
    ensures Slot(j) == Slot(j - 16) && Slot(j + 1) == Slot(j - 15) && Slot(j + 14) == Slot(j - 2)
    ensures Slot(j + 9) == Slot(j - 7)
  {}

  /** The transform with a loop over the rounds. */
  method Transform(state: array<bv32>, buffer: array<bv8>, data: array<bv8>, off: nat)
    requires state.Length == 8 && buffer.Length == 64 && off + 64 <= data.Length && (data == buffer ==> off == 0)
    modifies state, buffer
    ensures Unpack(state) == Compress(old(Unpack(state)), old(data[off..off + 64]))
  {
    hide W, K, Round, T1, T2, Plus, Added;
    ghost var block := data[off..off + 64];
    ghost var r0 := Unpack(state);
    var r := Unpack(state);
    var j := 0;
    while j < 16
      invariant 0 <= j <= 16 && Read(buffer, data, off, block, j) && r == Rounds(r0, block, j) && Unpack(state) == r0
    {
      var w := ReadWord(buffer, data, off, block, j);
      r := Step(r, j, w);
      j := j + 1;
    }
    FirstWindow(buffer, data, off, block);
    while j < 64
      invariant 16 <= j <= 64 && Window(buffer, block, j) && r == Rounds(r0, block, j) && Unpack(state) == r0
    {
      var w := NextWord(buffer, block, j);
      r := Step(r, j, w);
      j := j + 1;
    }
    Accumulate(state, r);
  }

  /** One round of the loop: every register is shifted. */
  method Step(r: Regs, j: nat, w: bv32) returns (n: Regs)
    requires j < 64
    ensures n == Round(r, K(j), w)
  {
    hide T1, T2, K, Plus;
    var a, b, c, d, e, f, g, h := r.a, r.b, r.c, r.d, r.e, r.f, r.g, r.h;
    var t1 := T1(r, K(j), w);
    var t2 := T2(r);
    h := g;
    g := f;
    f := e;
    e := Plus(d, t1);
    d := c;
    c := b;
    b := a;
    a := Plus(t1, t2);
    n := Regs(a, b, c, d, e, f, g, h);
  }

  // ---- the unrolled transform

  /** The round macro: only two variables change, and the callers rename the others instead of moving them. */
  method RoundMacro(a: bv32, b: bv32, c: bv32, d0: bv32, e: bv32, f: bv32, g: bv32, h0: bv32, j: nat, w: bv32)
    returns (d: bv32, h: bv32)
    requires j < 64
    ensures Regs(h, a, b, c, d, e, f, g) == Round(Regs(a, b, c, d0, e, f, g, h0), K(j), w)
  {
    hide K, Plus, BigSigma0, BigSigma1, Ch, Maj;
    var t1 := Plus(Plus(Plus(Plus(h0, BigSigma1(e)), Ch(e, f, g)), K(j)), w);
    d := Plus(d0, t1);
    h := Plus(t1, Plus(BigSigma0(a), Maj(a, b, c)));
  }

  /** The registers, by their current names, after `t` rounds. */
  ghost predicate At(r0: Regs, block: seq<bv8>, t: nat, a: bv32, b: bv32, c: bv32, d: bv32, e: bv32, f: bv32, g: bv32,
                     h: bv32)
    requires |block| == 64 && t <= 64
  {
    Regs(a, b, c, d, e, f, g, h) == Rounds(r0, block, t)
  }

  /** Rounds 0 to 15: the word comes from the input. */
  method RoundRead(a: bv32, b: bv32, c: bv32, d0: bv32, e: bv32, f: bv32, g: bv32, h0: bv32,
                   buffer: array<bv8>, data: array<bv8>, off: nat, ghost block: seq<bv8>, j: nat, ghost r0: Regs)
    returns (d: bv32, h: bv32)
    requires buffer.Length == 64 && off + 64 <= data.Length && |block| == 64 && j < 16 && (data == buffer ==> off == 0)
    requires Read(buffer, data, off, block, j) && At(r0, block, j, a, b, c, d0, e, f, g, h0)
    modifies buffer
    ensures Read(buffer, data, off, block, j + 1) && At(r0, block, j + 1, h, a, b, c, d, e, f, g)
  {
    hide W, K, Round, Read;
    var w := ReadWord(buffer, data, off, block, j);
    d, h := RoundMacro(a, b, c, d0, e, f, g, h0, j, w);
  }

  /** The other rounds: the word comes from the schedule. */
  method RoundNext(a: bv32, b: bv32, c: bv32, d0: bv32, e: bv32, f: bv32, g: bv32, h0: bv32,
                   buffer: array<bv8>, ghost block: seq<bv8>, j: nat, ghost r0: Regs) returns (d: bv32, h: bv32)
    requires buffer.Length == 64 && |block| == 64 && 16 <= j < 64
    requires Window(buffer, block, j) && At(r0, block, j, a, b, c, d0, e, f, g, h0)
    modifies buffer
    ensures Window(buffer, block, j + 1) && At(r0, block, j + 1, h, a, b, c, d, e, f, g)
  {
    hide W, K, Round, Window;
    var w := NextWord(buffer, block, j);
    d, h := RoundMacro(a, b, c, d0, e, f, g, h0, j, w);
  }

  method EightReads(r: Regs, buffer: array<bv8>, data: array<bv8>, off: nat, ghost block: seq<bv8>, j: nat,
                    ghost r0: Regs) returns (n: Regs)
    requires buffer.Length == 64 && off + 64 <= data.Length && |block| == 64 && j <= 8 && (data == buffer ==> off == 0)
    requires Read(buffer, data, off, block, j) && At(r0, block, j, r.a, r.b, r.c, r.d, r.e, r.f, r.g, r.h)
    modifies buffer
    ensures Read(buffer, data, off, block, j + 8) && At(r0, block, j + 8, n.a, n.b, n.c, n.d, n.e, n.f, n.g, n.h)
  {
    hide At, Read;
    var a, b, c, d, e, f, g, h := r.a, r.b, r.c, r.d, r.e, r.f, r.g, r.h;
    d, h := RoundRead(a, b, c, d, e, f, g, h, buffer, data, off, block, j, r0);
    c, g := RoundRead(h, a, b, c, d, e, f, g, buffer, data, off, block, j + 1, r0);
    b, f := RoundRead(g, h, a, b, c, d, e, f, buffer, data, off, block, j + 2, r0);
    a, e := RoundRead(f, g, h, a, b, c, d, e, buffer, data, off, block, j + 3, r0);
    h, d := RoundRead(e, f, g, h, a, b, c, d, buffer, data, off, block, j + 4, r0);
    g, c := RoundRead(d, e, f, g, h, a, b, c, buffer, data, off, block, j + 5, r0);
    f, b := RoundRead(c, d, e, f, g, h, a, b, buffer, data, off, block, j + 6, r0);
    e, a := RoundRead(b, c, d, e, f, g, h, a, buffer, data, off, block, j + 7, r0);
    n := Regs(a, b, c, d, e, f, g, h);
  }

  method EightRounds(r: Regs, buffer: array<bv8>, ghost block: seq<bv8>, j: nat, ghost r0: Regs) returns (n: Regs)
    requires buffer.Length == 64 && |block| == 64 && 16 <= j && j + 8 <= 64
    requires Window(buffer, block, j) && At(r0, block, j, r.a, r.b, r.c, r.d, r.e, r.f, r.g, r.h)
    modifies buffer
    ensures Window(buffer, block, j + 8) && At(r0, block, j + 8, n.a, n.b, n.c, n.d, n.e, n.f, n.g, n.h)
  {
    hide At, Window;
    var a, b, c, d, e, f, g, h := r.a, r.b, r.c, r.d, r.e, r.f, r.g, r.h;
    d, h := RoundNext(a, b, c, d, e, f, g, h, buffer, block, j, r0);
    c, g := RoundNext(h, a, b, c, d, e, f, g, buffer, block, j + 1, r0);
    b, f := RoundNext(g, h, a, b, c, d, e, f, buffer, block, j + 2, r0);
    a, e := RoundNext(f, g, h, a, b, c, d, e, buffer, block, j + 3, r0);
    h, d := RoundNext(e, f, g, h, a, b, c, d, buffer, block, j + 4, r0);
    g, c := RoundNext(d, e, f, g, h, a, b, c, buffer, block, j + 5, r0);
    f, b := RoundNext(c, d, e, f, g, h, a, b, buffer, block, j + 6, r0);
    e, a := RoundNext(b, c, d, e, f, g, h, a, buffer, block, j + 7, r0);
    n := Regs(a, b, c, d, e, f, g, h);
  }

  lemma Start(r: Regs, buffer: array<bv8>, data: array<bv8>, off: nat, block: seq<bv8>)
    requires buffer.Length == 64 && off + 64 <= data.Length && block == data[off..off + 64]
    ensures Read(buffer, data, off, block, 0) && At(r, block, 0, r.a, r.b, r.c, r.d, r.e, r.f, r.g, r.h)
  {
    hide W;
  }

  lemma Finish(r0: Regs, r: Regs, block: seq<bv8>)
    requires |block| == 64 && At(r0, block, 64, r.a, r.b, r.c, r.d, r.e, r.f, r.g, r.h)
    ensures Compress(r0, block) == Added(r0, r)
  {
    hide Round, Added, W, K;
  }

  /** The transform with eight rounds to a loop iteration: it computes the same. */
  method TransformUnrolled(state: array<bv32>, buffer: array<bv8>, data: array<bv8>, off: nat)
    requires state.Length == 8 && buffer.Length == 64 && off + 64 <= data.Length && (data == buffer ==> off == 0)
    modifies state, buffer
    ensures Unpack(state) == Compress(old(Unpack(state)), old(data[off..off + 64]))
  {
    hide Rounds, Added, Read, Window, At, Compress, Unpack;
    ghost var block := data[off..off + 64];
    var r := Unpack(state);
    ghost var r0 := r;
    Start(r, buffer, data, off, block);
    r := EightReads(r, buffer, data, off, block, 0, r0);
    r := EightReads(r, buffer, data, off, block, 8, r0);
    FirstWindow(buffer, data, off, block);
    var j := 2;
    while j < 8
      invariant 2 <= j <= 8 && Window(buffer, block, 8 * j) && Unpack(state) == r0
      invariant At(r0, block, 8 * j, r.a, r.b, r.c, r.d, r.e, r.f, r.g, r.h)
    {
      r := EightRounds(r, buffer, block, 8 * j, r0);
      j := j + 1;
    }
    Accumulate(state, r);
    Finish(r0, r, block);
  }

  // ---- the incremental interface

  /** Chaining value after all full blocks of a message. */
  ghost function Chain(iv: Regs, msg: seq<bv8>): Regs { Absorb(Compress, iv, msg, 64) }
  /** The hash of a whole message: padded, and compressed block by block. */
  ghost function Hash(iv: Regs, msg: seq<bv8>): Regs { Absorb(Compress, iv, Padded(msg, 64, 8), 64) }

  function WordBytes(x: bv32): (b: seq<bv8>) ensures |b| == 4 {
    [Byte32(x, 3), Byte32(x, 2), Byte32(x, 1), Byte32(x, 0)]
  }

  function Reg(r: Regs, j: nat): bv32 requires j < 8 {
    if j == 0 then r.a else if j == 1 then r.b else if j == 2 then r.c else if j == 3 then r.d
    else if j == 4 then r.e else if j == 5 then r.f else if j == 6 then r.g else r.h
  }

  /** The first `words` words of a hash value as bytes. */
  ghost function Digest(r: Regs, words: nat): (b: seq<bv8>)
    requires words <= 8
    ensures |b| == 4 * words
  {
    if words == 0 then [] else Digest(r, words - 1) + WordBytes(Reg(r, words - 1))
  }

  lemma DigestNone(r: Regs) ensures Digest(r, 0) == [] {}

  lemma DigestNext(r: Regs, j: nat)
    requires j < 8
    ensures Digest(r, j + 1) == Digest(r, j) + WordBytes(Reg(r, j))
  {}

  lemma RegAt(state: array<bv32>, j: nat)
    requires state.Length == 8 && j < 8
    ensures Reg(Unpack(state), j) == state[j]
  {}

  lemma {:induction false} RestLength(msg: seq<bv8>)
    ensures |Rest(msg, 64)| == |msg| % 64
    decreases |msg|
  {
    if |msg| >= 64 {
      RestLength(msg[64..]);
    }
  }

  /**
   * The padding is that of section 5.1.1: after the one bit, the least number of zero bits that leaves the length
   * field at the end of a block.
   */
  lemma LeastPadding(msg: seq<bv8>)
    ensures var zeros := 7 + 8 * Gap(|Rest(msg, 64)|, 64, 8);
            Ends(|msg|, zeros) && forall k: nat | Ends(|msg|, k) :: k >= zeros
  {
    hide Ends, Rest, Gap;
    RestLength(msg);
    var len, used := |msg|, |msg| % 64;
    forall k: nat | Ends(len, k) ensures k >= 7 + 8 * Gap(used, 64, 8) {
      BitsUsed(len, used, k);
      LeastGap(used, k);
    }
    BitsUsed(len, used, 7 + 8 * Gap(used, 64, 8));
    LeastGap(used, 0);
  }

  /** After `len` bytes, a one bit and `k` zero bits, the length field ends a block. */
  predicate Ends(len: nat, k: nat) { (8 * len + 1 + k) % 512 == 448 }

  lemma LeastGap(used: nat, k: nat)
    requires used < 64
    ensures Ends(used, k) ==> k >= 7 + 8 * Gap(used, 64, 8)
    ensures Ends(used, 7 + 8 * Gap(used, 64, 8))
  {
    assert Gap(used, 64, 8) == if used < 56 then 56 - 1 - used else 56 + 64 - 1 - used;
  }

  lemma BitsUsed(len: nat, used: nat, k: nat)
    requires used == len % 64
    ensures Ends(len, k) <==> Ends(used, k)
  {
    assert 8 * len + 1 + k == 512 * (len / 64) + (8 * used + 1 + k);
  }

  function Initial(): Regs {
    Regs(0x6a09e667, 0xbb67ae85, 0x3c6ef372, 0xa54ff53a,
         0x510e527f, 0x9b05688c, 0x1f83d9ab, 0x5be0cd19)
  }

  lemma EmptyChain(iv: Regs)
    ensures Chain(iv, []) == iv && Rest([], 64) == []
  {
    hide Compress;
  }

  class Context {
    const iv: Regs
    const state: array<bv32>
    const buffer: array<bv8>
    var bitcount: nat

    /** All the bytes given so far. */
    ghost var msg: seq<bv8>

    ghost predicate Sized() { state.Length == 8 && buffer.Length == 64 }

    ghost predicate Valid()
      reads this, state, buffer
    {
      && Sized() && bitcount == 8 * |msg| < 0x1_0000_0000_0000_0000
      && Unpack(state) == Chain(iv, msg)
      && |Rest(msg, 64)| <= 64 && buffer[..|Rest(msg, 64)|] == Rest(msg, 64)
    }

    constructor (iv0: Regs)
      ensures Valid() && msg == [] && iv == iv0 && fresh(state) && fresh(buffer)
    {
      iv := iv0;
      state := new bv32[8](i requires 0 <= i < 8 => Reg(iv0, i));
      buffer := new bv8[64](i => 0 as bv8);
      bitcount := 0;
      msg := [];
      new;
      EmptyChain(iv0);
      hide Compress, Chain, Absorb;
    }

    method AddBits(n: nat)
      modifies `bitcount
      ensures bitcount == (old(bitcount) + n) % 0x1_0000_0000_0000_0000
    {
      bitcount := (bitcount + n) % 0x1_0000_0000_0000_0000;
    }

    lemma CountBytes()
      requires Valid()
      ensures BigEndian(8 * |msg|, 8) == BigEndian(bitcount, 8)
    {
    }

    /** Bytes in the buffer, from the count of bits. */
    method UsedSpace() returns (used: nat)
      requires Valid()
      ensures used == |Rest(msg, 64)|
    {
      RestLength(msg);
      hide Compress, Chain, Unpack;
      used := bitcount / 8 % 64;
    }

    /** memcpy into the buffer. */
    method Copy(at: nat, data: array<bv8>, from: nat, n: nat)
      requires Sized() && data != buffer && at + n <= 64 && from + n <= data.Length
      modifies buffer
      ensures buffer[..at + n] == old(buffer[..at]) + data[from..from + n]
    {
      forall i | 0 <= i < n { buffer[at + i] := data[from + i]; }
    }

    /** Completing the block in the buffer. */
    method Fill(data: array<bv8>, n: nat, ghost used: nat)
      requires Valid() && data != buffer && n <= data.Length && used == |Rest(msg, 64)| && used + n == 64
      requires 8 * (|msg| + n) < 0x1_0000_0000_0000_0000
      modifies this, state, buffer
      ensures Valid() && msg == old(msg) + data[..n] && Rest(msg, 64) == []
    {
      hide Compress, Absorb, Rest, Unpack;
      ghost var r := Rest(msg, 64);
      AbsorbBlock(Compress, iv, msg, data[..n], 64);
      Copy(64 - n, data, 0, n);
      assert buffer[..] == r + data[..n];
      AddBits(8 * n);
      Transform(state, buffer, buffer, 0);
      assert old(data[..n]) == data[..n];
      msg := msg + data[..n];
    }

    /** What does not fill a block stays in the buffer. */
    method Keep(data: array<bv8>, from: nat, n: nat, ghost used: nat)
      requires Valid() && data != buffer && from + n <= data.Length && used == |Rest(msg, 64)| && used + n < 64
      requires 8 * (|msg| + n) < 0x1_0000_0000_0000_0000
      modifies this, buffer
      ensures Valid() && msg == old(msg) + data[from..from + n]
    {
      hide Compress, Unpack, Absorb, Rest;
      ghost var r := Rest(msg, 64);
      AbsorbPart(Compress, iv, msg, data[from..from + n], 64);
      var at := UsedSpace();
      Copy(at, data, from, n);
      assert buffer[..used + n] == r + data[from..from + n];
      AddBits(8 * n);
      msg := msg + data[from..from + n];
    }

    /** A whole block straight from the input. */
    method Whole(data: array<bv8>, from: nat)
      requires Valid() && data != buffer && from + 64 <= data.Length && Rest(msg, 64) == []
      requires (var n := 64; 8 * (|msg| + n) < 0x1_0000_0000_0000_0000)
      modifies this, state, buffer
      ensures Valid() && msg == old(msg) + data[from..from + 64] && Rest(msg, 64) == []
    {
      hide Compress;
      AbsorbBlock(Compress, iv, msg, data[from..from + 64], 64);
      assert Rest(msg, 64) + data[from..from + 64] == data[from..from + 64];
      Transform(state, buffer, data, from);
      AddBits(8 * 64);
      msg := msg + data[from..from + 64];
    }

    /** Any number of bytes, in any state of the buffer, are added to the message. */
    method Update(data: array<bv8>)
      requires Valid() && data != buffer && (var n := data.Length; 8 * (|msg| + n) < 0x1_0000_0000_0000_0000)
      modifies this, state, buffer
      ensures Valid() && msg == old(msg) + data[..]
    {
      hide Valid, Rest;
      var len, pos := data.Length, 0;
      if len == 0 { return; }
      var used := UsedSpace();
      if used > 0 {
        var free := 64 - used;
        if len >= free {
          Fill(data, free, used);
          len := len - free;
          pos := free;
        } else {
          Keep(data, 0, len, used);
          return;
        }
      }
      while len >= 64
        invariant 0 <= pos <= data.Length && pos + len == data.Length && Valid() && Rest(msg, 64) == []
        invariant msg == old(msg) + data[..pos]
      {
        Whole(data, pos);
        assert data[..pos] + data[pos..pos + 64] == data[..pos + 64];
        len := len - 64;
        pos := pos + 64;
      }
      assert data[..pos] + data[pos..] == data[..];
      if len > 0 {
        Keep(data, pos, len, 0);
        assert data[pos..pos + len] == data[pos..];
      }
    }

    method Zero(from: nat, to: nat)
      requires Sized() && from <= to <= 64
      modifies buffer
      ensures buffer[..] == old(buffer[..from]) + Zeros(to - from) + old(buffer[to..])
    {
      forall i | from <= i < to { buffer[i] := 0; }
    }

    /** The count of bits, most significant byte first, ends the last block. */
    method StoreCount()
      requires Sized()
      modifies buffer
      ensures buffer[..] == old(buffer[..56]) + BigEndian(bitcount, 8)
    {
      hide Reverse64, Byte64, BigEndian;
      var w := Reverse64(WordOf(bitcount));
      ReversedNumber(bitcount);
      forall i | 0 <= i < 8 { buffer[56 + i] := Byte64(w, i); }
    }

    /** The rest of the message with its mark and zeros, when the count still fits in the block. */
    method PadShort(used: nat)
      requires Sized() && used < 56
      modifies buffer
      ensures buffer[..56] == old(buffer[..used]) + [0x80 as bv8] + Zeros(56 - used - 1)
    {
      ghost var r := buffer[..used];
      if used > 0 {
        buffer[used] := 0x80;
        assert buffer[..used + 1] == r + [0x80 as bv8];
        Zero(used + 1, 56);
      } else {
        Zero(0, 56);
        assert buffer[..][1..56] == Zeros(56 - 1);
        buffer[0] := 0x80;
        assert buffer[..56] == [buffer[0]] + buffer[1..56];
        assert buffer[1..56] == Zeros(56 - 1);
      }
    }

    /** The same when it does not. */
    method PadLong(used: nat)
      requires Sized() && 56 <= used < 64
      modifies buffer
      ensures buffer[..] == old(buffer[..used]) + [0x80 as bv8] + Zeros(64 - used - 1)
    {
      ghost var r := buffer[..used];
      buffer[used] := 0x80;
      assert buffer[..used + 1] == r + [0x80 as bv8];
      if used + 1 < 64 { Zero(used + 1, 64); }
    }

    /** Padding and the last transforms. */
    method Last()
      requires Valid()
      modifies this, state, buffer
      ensures Unpack(state) == Hash(iv, old(msg))
    {
      hide Compress, Absorb, Rest, Zeros, BigEndian, Unpack;
      var used := UsedSpace();
      ghost var r := Rest(msg, 64);
      ghost var count := BigEndian(8 * |msg|, 8);
      CountBytes();
      if used < 56 {
        PadOne(Compress, iv, msg, 64, 8);
        PadShort(used);
        StoreCount();
        assert buffer[0..64] == r + [0x80 as bv8] + Zeros(56 - used - 1) + count;
      } else {
        PadTwo(Compress, iv, msg, 64, 8);
        PadLong(used);
        assert buffer[0..64] == r + [0x80 as bv8] + Zeros(64 - used - 1);
        Transform(state, buffer, buffer, 0);
        ClearStart();
        StoreCount();
        assert buffer[0..64] == Zeros(56) + count;
      }
      Transform(state, buffer, buffer, 0);
    }

    method ClearStart()
      requires Sized()
      modifies buffer
      ensures buffer[..56] == Zeros(56)
    {
      Zero(0, 56);
    }

    /** The first `words` words of the state, most significant byte first. */
    method Output(digest: array<bv8>, words: nat)
      requires Sized() && words <= 8 && digest.Length == 4 * words
      modifies digest
      ensures digest[..] == Digest(Unpack(state), words)
    {
      hide WordBytes, Reverse32, Unpack, Digest, Reg;
      ghost var out := Unpack(state);
      DigestNone(out);
      var j := 0;
      while j < words
        invariant 0 <= j <= words && digest[..4 * j] == Digest(out, j)
      {
        RegAt(state, j);
        DigestNext(out, j);
        StoreReversed(digest, 4 * j, state[j], Reverse32(state[j]));
        assert digest[..4 * j + 4] == digest[..4 * j] + digest[4 * j..4 * j + 4];
        j := j + 1;
      }
      assert digest[..] == digest[..4 * words];
    }

    ghost predicate Cleared()
      reads this, state, buffer
    {
      && bitcount == 0 && (forall i | 0 <= i < state.Length :: state[i] == 0)
      && (forall i | 0 <= i < buffer.Length :: buffer[i] == 0)
    }

    method Clear()
      modifies this, state, buffer
      ensures Cleared()
    {
      bitcount := 0;
      forall i | 0 <= i < state.Length { state[i] := 0; }
      forall i | 0 <= i < buffer.Length { buffer[i] := 0; }
    }

    /** The digest of all the bytes given, if it is asked for; nothing of the message stays in the context. */
    method Final(digest: array?<bv8>, words: nat)
      requires Valid() && digest != buffer && words <= 8 && (digest != null ==> digest.Length == 4 * words)
      modifies this, state, buffer, if digest == null then {} else {digest}
      ensures digest != null ==> digest[..] == Digest(Hash(iv, old(msg)), words)
      ensures Cleared()
    {
      hide Absorb, Hash, Chain, Rest, Digest;
      if digest != null {
        Last();
        Output(digest, words);
      }
      Clear();
    }
  }

  /** However a message is cut into calls, the digest is that of the whole message. */
  method DigestOf(iv: Regs, pieces: seq<array<bv8>>, ghost parts: seq<seq<bv8>>, digest: array<bv8>, words: nat)
    requires |parts| == |pieces| && forall k | 0 <= k < |parts| :: pieces[k][..] == parts[k]
    requires words <= 8 && digest.Length == 4 * words && (var n := |Joined(parts)|; 8 * n < 0x1_0000_0000_0000_0000)
    modifies digest
    ensures digest[..] == Digest(Hash(iv, Joined(parts)), words)
  {
    hide Hash, Digest, Chain, Absorb, Rest, Unpack;
    var context := new Context(iv);
    Feed(context, pieces, parts);
    context.Final(digest, words);
  }

  /** SHA-256, section 6.2. */
  method Digest256(pieces: seq<array<bv8>>, ghost parts: seq<seq<bv8>>, digest: array<bv8>)
    requires |parts| == |pieces| && forall k | 0 <= k < |parts| :: pieces[k][..] == parts[k]
    requires digest.Length == 32 && (var n := |Joined(parts)|; 8 * n < 0x1_0000_0000_0000_0000)
    modifies digest
    ensures digest[..] == Digest(Hash(Initial(), Joined(parts)), 8)
  {
    DigestOf(Initial(), pieces, parts, digest, 8);
  }

  method Feed(context: Context, pieces: seq<array<bv8>>, ghost parts: seq<seq<bv8>>)
    requires context.Valid() && context.msg == [] && context.buffer !in pieces
    requires |parts| == |pieces| && forall k | 0 <= k < |parts| :: pieces[k][..] == parts[k]
    requires var n := |Joined(parts)|; 8 * n < 0x1_0000_0000_0000_0000
    modifies context, context.state, context.buffer
    ensures context.Valid() && context.msg == Joined(parts)
  {
    hide *;
    JoinedNone(parts);
    var i := 0;
    while i < |pieces|
      invariant 0 <= i <= |pieces| && context.Valid() && context.msg == Joined(parts[..i])
      invariant forall k | 0 <= k < |parts| :: pieces[k][..] == parts[k]
    {
      JoinedNext(parts, i);
      assert pieces[i][..] == parts[i];
      context.Update(pieces[i]);
      i := i + 1;
    }
    assert parts[..i] == parts;
  }

  /** A reversed word in host order is the word, most significant byte first. */
  method StoreReversed(b: array<bv8>, i: nat, x: bv32, w: bv32)
    requires i + 4 <= b.Length && w == Reverse32(x)
    modifies b
    ensures b[..i] == old(b[..i]) && b[i..i + 4] == WordBytes(x)
  {
    ReversedBytes(x);
    hide Reverse32, Byte32;
    b[i] := Byte32(w, 0);
    b[i + 1] := Byte32(w, 1);
    b[i + 2] := Byte32(w, 2);
    b[i + 3] := Byte32(w, 3);
    assert b[i..i + 4] == WordBytes(x);
  }

  lemma ReversedBytes(x: bv32)
    ensures var w := Reverse32(x);
            Byte32(w, 0) == Byte32(x, 3) && Byte32(w, 1) == Byte32(x, 2) && Byte32(w, 2) == Byte32(x, 1)
                && Byte32(w, 3) == Byte32(x, 0)
  {
    FromBytes32(x);
    Reversed32(Byte32(x, 0), Byte32(x, 1), Byte32(x, 2), Byte32(x, 3));
    Bytes32(Byte32(x, 3), Byte32(x, 2), Byte32(x, 1), Byte32(x, 0));
    hide Reverse32, Byte32, Word32;
  }
}
