/** Words and their bytes, and the byte-reversing macros. */
module Sha2Words {
  function Byte32(x: bv32, k: nat): bv8 requires k < 4 {
    if k == 0 then (x & 0xff) as bv8
    else if k == 1 then ((x >> 8) & 0xff) as bv8
    else if k == 2 then ((x >> 16) & 0xff) as bv8
    else ((x >> 24) & 0xff) as bv8
  }

  /** The word whose bytes, least significant first, are a, b, c, d. */
  function Word32(a: bv8, b: bv8, c: bv8, d: bv8): bv32 {
    (a as bv32) | ((b as bv32) << 8) | ((c as bv32) << 16) | ((d as bv32) << 24)
  }

  /** REVERSE32 */
  function Reverse32(w: bv32): bv32 {
    var tmp := (w >> 16) | (w << 16);
    ((tmp & 0xff00ff00) >> 8) | ((tmp & 0x00ff00ff) << 8)
  }

  lemma Reversed32(a: bv8, b: bv8, c: bv8, d: bv8)
    ensures Reverse32(Word32(a, b, c, d)) == Word32(d, c, b, a)
  {}

  lemma Bytes32(a: bv8, b: bv8, c: bv8, d: bv8)
    ensures var x := Word32(a, b, c, d);
            Byte32(x, 0) == a && Byte32(x, 1) == b && Byte32(x, 2) == c && Byte32(x, 3) == d
  {}

  lemma FromBytes32(x: bv32)
    ensures Word32(Byte32(x, 0), Byte32(x, 1), Byte32(x, 2), Byte32(x, 3)) == x
  {}

  function Byte64(x: bv64, k: nat): bv8 requires k < 8 {
    if k == 0 then (x & 0xff) as bv8
    else if k == 1 then ((x >> 8) & 0xff) as bv8
    else if k == 2 then ((x >> 16) & 0xff) as bv8
    else if k == 3 then ((x >> 24) & 0xff) as bv8
    else if k == 4 then ((x >> 32) & 0xff) as bv8
    else if k == 5 then ((x >> 40) & 0xff) as bv8
    else if k == 6 then ((x >> 48) & 0xff) as bv8
    else ((x >> 56) & 0xff) as bv8
  }

  function Word64(a: bv8, b: bv8, c: bv8, d: bv8, e: bv8, f: bv8, g: bv8, h: bv8): bv64 {
    (a as bv64) | ((b as bv64) << 8) | ((c as bv64) << 16) | ((d as bv64) << 24)
    | ((e as bv64) << 32) | ((f as bv64) << 40) | ((g as bv64) << 48) | ((h as bv64) << 56)
  }

  /** REVERSE64 */
  function Reverse64(w: bv64): bv64 {
    var tmp := (w >> 32) | (w << 32);
    var tmp2 := ((tmp & 0xff00ff00ff00ff00) >> 8) | ((tmp & 0x00ff00ff00ff00ff) << 8);
    ((tmp2 & 0xffff0000ffff0000) >> 16) | ((tmp2 & 0x0000ffff0000ffff) << 16)
  }

  lemma Reversed64(a: bv8, b: bv8, c: bv8, d: bv8, e: bv8, f: bv8, g: bv8, h: bv8)
    ensures Reverse64(Word64(a, b, c, d, e, f, g, h)) == Word64(h, g, f, e, d, c, b, a)
  {}

  lemma Bytes64(a: bv8, b: bv8, c: bv8, d: bv8, e: bv8, f: bv8, g: bv8, h: bv8)
    ensures var x := Word64(a, b, c, d, e, f, g, h);
            Byte64(x, 0) == a && Byte64(x, 1) == b && Byte64(x, 2) == c && Byte64(x, 3) == d && Byte64(x, 4) == e
                && Byte64(x, 5) == f && Byte64(x, 6) == g && Byte64(x, 7) == h
  {}

  lemma FromBytes64(x: bv64)
    ensures Word64(Byte64(x, 0), Byte64(x, 1), Byte64(x, 2), Byte64(x, 3), Byte64(x, 4), Byte64(x, 5), Byte64(x, 6),
                Byte64(x, 7)) == x
  {}
}
