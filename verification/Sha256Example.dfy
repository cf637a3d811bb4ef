/** The message "abc", worked out as in the examples published with FIPS 180-4, section 6.2. */
module Sha256Example {
  import opened Sha2Words
  import opened Streams
  import opened Sha256

  const ABC: seq<bv8> := [0x61, 0x62, 0x63]

  /** The message with its padding. */
  ghost predicate IsBlock(b: seq<bv8>) {
    && |b| == 64 && b[0] == 0x61 && b[1] == 0x62 && b[2] == 0x63 && b[3] == 0x80 && b[63] == 0x18
    && forall i | 4 <= i < 63 :: b[i] == 0
  }

  lemma NextWordIs(b: seq<bv8>, t: nat)
    requires |b| == 64 && 16 <= t < 64
    ensures W(b, t)
            == Plus(Plus(Plus(SmallSigma1(W(b, t - 2)), W(b, t - 7)), SmallSigma0(W(b, t - 15))), W(b, t - 16))
  {
    hide SmallSigma0, SmallSigma1, Plus;
  }

  lemma NoRounds(b: seq<bv8>)
    requires |b| == 64
    ensures Rounds(Initial(), b, 0) == Initial()
  {}

  lemma NextRound(b: seq<bv8>, t: nat)
    requires |b| == 64 && t < 64
    ensures Rounds(Initial(), b, t + 1) == Round(Rounds(Initial(), b, t), K(t), W(b, t))
  {
    hide W, K, Round;
  }

  lemma Words0(b: seq<bv8>)
    requires IsBlock(b)
    ensures W(b, 0) == 0x61626380 && W(b, 1) == 0x00000000 && W(b, 2) == 0x00000000 && W(b, 3) == 0x00000000
    ensures W(b, 4) == 0x00000000 && W(b, 5) == 0x00000000 && W(b, 6) == 0x00000000 && W(b, 7) == 0x00000000
  {
  }

  lemma Words1(b: seq<bv8>)
    requires IsBlock(b)
    ensures W(b, 8) == 0x00000000 && W(b, 9) == 0x00000000 && W(b, 10) == 0x00000000 && W(b, 11) == 0x00000000
    ensures W(b, 12) == 0x00000000 && W(b, 13) == 0x00000000 && W(b, 14) == 0x00000000 && W(b, 15) == 0x00000018
  {
  }

  lemma Words2(b: seq<bv8>)
    requires IsBlock(b)
    ensures W(b, 16) == 0x61626380 && W(b, 17) == 0x000f0000 && W(b, 18) == 0x7da86405 && W(b, 19) == 0x600003c6
    ensures W(b, 20) == 0x3e9d7b78 && W(b, 21) == 0x0183fc00 && W(b, 22) == 0x12dcbfdb && W(b, 23) == 0xe2e2c38e
  {
    Words0(b);
    Words1(b);
    hide W;
    NextWordIs(b, 16);
    NextWordIs(b, 17);
    NextWordIs(b, 18);
    NextWordIs(b, 19);
    NextWordIs(b, 20);
    NextWordIs(b, 21);
    NextWordIs(b, 22);
    NextWordIs(b, 23);
  }

  lemma Words3(b: seq<bv8>)
    requires IsBlock(b)
    ensures W(b, 24) == 0xc8215c1a && W(b, 25) == 0xb73679a2 && W(b, 26) == 0xe5bc3909 && W(b, 27) == 0x32663c5b
    ensures W(b, 28) == 0x9d209d67 && W(b, 29) == 0xec8726cb && W(b, 30) == 0x702138a4 && W(b, 31) == 0xd3b7973b
  {
    Words1(b);
    Words2(b);
    hide W;
    NextWordIs(b, 24);
    NextWordIs(b, 25);
    NextWordIs(b, 26);
    NextWordIs(b, 27);
    NextWordIs(b, 28);
    NextWordIs(b, 29);
    NextWordIs(b, 30);
    NextWordIs(b, 31);
  }

  lemma Words4(b: seq<bv8>)
    requires IsBlock(b)
    ensures W(b, 32) == 0x93f5997f && W(b, 33) == 0x3b68ba73 && W(b, 34) == 0xaff4ffc1 && W(b, 35) == 0xf10a5c62
    ensures W(b, 36) == 0x0a8b3996 && W(b, 37) == 0x72af830a && W(b, 38) == 0x9409e33e && W(b, 39) == 0x24641522
  {
    Words2(b);
    Words3(b);
    hide W;
    NextWordIs(b, 32);
    NextWordIs(b, 33);
    NextWordIs(b, 34);
    NextWordIs(b, 35);
    NextWordIs(b, 36);
    NextWordIs(b, 37);
    NextWordIs(b, 38);
    NextWordIs(b, 39);
  }

  lemma Words5(b: seq<bv8>)
    requires IsBlock(b)
    ensures W(b, 40) == 0x9f47bf94 && W(b, 41) == 0xf0a64f5a && W(b, 42) == 0x3e246a79 && W(b, 43) == 0x27333ba3
    ensures W(b, 44) == 0x0c4763f2 && W(b, 45) == 0x840abf27 && W(b, 46) == 0x7a290d5d && W(b, 47) == 0x065c43da
  {
    Words3(b);
    Words4(b);
    hide W;
    NextWordIs(b, 40);
    NextWordIs(b, 41);
    NextWordIs(b, 42);
    NextWordIs(b, 43);
    NextWordIs(b, 44);
    NextWordIs(b, 45);
    NextWordIs(b, 46);
    NextWordIs(b, 47);
  }

  lemma Words6(b: seq<bv8>)
    requires IsBlock(b)
    ensures W(b, 48) == 0xfb3e89cb && W(b, 49) == 0xcc7617db && W(b, 50) == 0xb9e66c34 && W(b, 51) == 0xa9993667
    ensures W(b, 52) == 0x84badedd && W(b, 53) == 0xc21462bc && W(b, 54) == 0x1487472c && W(b, 55) == 0xb20f7a99
  {
    Words4(b);
    Words5(b);
    hide W;
    NextWordIs(b, 48);
    NextWordIs(b, 49);
    NextWordIs(b, 50);
    NextWordIs(b, 51);
    NextWordIs(b, 52);
    NextWordIs(b, 53);
    NextWordIs(b, 54);
    NextWordIs(b, 55);
  }

  lemma Words7(b: seq<bv8>)
    requires IsBlock(b)
    ensures W(b, 56) == 0xef57b9cd && W(b, 57) == 0xebe6b238 && W(b, 58) == 0x9fe3095e && W(b, 59) == 0x78bc8d4b
    ensures W(b, 60) == 0xa43fcf15 && W(b, 61) == 0x668b2ff8 && W(b, 62) == 0xeeaba2cc && W(b, 63) == 0x12b1edeb
  {
    Words5(b);
    Words6(b);
    hide W;
    NextWordIs(b, 56);
    NextWordIs(b, 57);
    NextWordIs(b, 58);
    NextWordIs(b, 59);
    NextWordIs(b, 60);
    NextWordIs(b, 61);
    NextWordIs(b, 62);
    NextWordIs(b, 63);
  }

  lemma Constants0()
    ensures K(0) == 0x428a2f98 && K(1) == 0x71374491 && K(2) == 0xb5c0fbcf && K(3) == 0xe9b5dba5
    ensures K(4) == 0x3956c25b && K(5) == 0x59f111f1 && K(6) == 0x923f82a4 && K(7) == 0xab1c5ed5
  {}

  lemma Rounds0(b: seq<bv8>)
    requires IsBlock(b)
    ensures Rounds(Initial(), b, 8)
            == Regs(0x85a07b5f, 0xe5030380, 0x2b4209f5, 0x04409a6a, 0x0c657a79, 0x9b27a401, 0x714260ad, 0x43ada245)
  {
    Words0(b);
    NoRounds(b);
    Constants0();
    hide Rounds, W, K;
    NextRound(b, 0);
    NextRound(b, 1);
    NextRound(b, 2);
    NextRound(b, 3);
    NextRound(b, 4);
    NextRound(b, 5);
    NextRound(b, 6);
    NextRound(b, 7);
  }

  lemma Constants1()
    ensures K(8) == 0xd807aa98 && K(9) == 0x12835b01 && K(10) == 0x243185be && K(11) == 0x550c7dc3
    ensures K(12) == 0x72be5d74 && K(13) == 0x80deb1fe && K(14) == 0x9bdc06a7 && K(15) == 0xc19bf174
  {}

  lemma Rounds1(b: seq<bv8>)
    requires IsBlock(b)
    ensures Rounds(Initial(), b, 16)
            == Regs(0xb0fa238e, 0xc0645fde, 0xd932eb16, 0x87912990, 0x07590dcd, 0x0b92f20c, 0x745a48de, 0x1e578218)
  {
    Words1(b);
    Rounds0(b);
    Constants1();
    hide Rounds, W, K;
    NextRound(b, 8);
    NextRound(b, 9);
    NextRound(b, 10);
    NextRound(b, 11);
    NextRound(b, 12);
    NextRound(b, 13);
    NextRound(b, 14);
    NextRound(b, 15);
  }

  lemma Constants2()
    ensures K(16) == 0xe49b69c1 && K(17) == 0xefbe4786 && K(18) == 0x0fc19dc6 && K(19) == 0x240ca1cc
    ensures K(20) == 0x2de92c6f && K(21) == 0x4a7484aa && K(22) == 0x5cb0a9dc && K(23) == 0x76f988da
  {}

  lemma Rounds2(b: seq<bv8>)
    requires IsBlock(b)
    ensures Rounds(Initial(), b, 24)
            == Regs(0xc5d53d8d, 0xa7a3623f, 0xc2606d6d, 0x9dc68b63, 0xaa47c347, 0x49f5114a, 0xe1257970, 0x8ada8930)
  {
    Words2(b);
    Rounds1(b);
    Constants2();
    hide Rounds, W, K;
    NextRound(b, 16);
    NextRound(b, 17);
    NextRound(b, 18);
    NextRound(b, 19);
    NextRound(b, 20);
    NextRound(b, 21);
    NextRound(b, 22);
    NextRound(b, 23);
  }

  lemma Constants3()
    ensures K(24) == 0x983e5152 && K(25) == 0xa831c66d && K(26) == 0xb00327c8 && K(27) == 0xbf597fc7
    ensures K(28) == 0xc6e00bf3 && K(29) == 0xd5a79147 && K(30) == 0x06ca6351 && K(31) == 0x14292967
  {}

  lemma Rounds3(b: seq<bv8>)
    requires IsBlock(b)
    ensures Rounds(Initial(), b, 32)
            == Regs(0x73b33bf5, 0xea992a22, 0xa0060b30, 0x363482c9, 0xba591112, 0x0109ab3a, 0xade79437, 0x6112a3b7)
  {
    Words3(b);
    Rounds2(b);
    Constants3();
    hide Rounds, W, K;
    NextRound(b, 24);
    NextRound(b, 25);
    NextRound(b, 26);
    NextRound(b, 27);
    NextRound(b, 28);
    NextRound(b, 29);
    NextRound(b, 30);
    NextRound(b, 31);
  }

  lemma Constants4()
    ensures K(32) == 0x27b70a85 && K(33) == 0x2e1b2138 && K(34) == 0x4d2c6dfc && K(35) == 0x53380d13
    ensures K(36) == 0x650a7354 && K(37) == 0x766a0abb && K(38) == 0x81c2c92e && K(39) == 0x92722c85
  {}

  lemma Rounds4(b: seq<bv8>)
    requires IsBlock(b)
    ensures Rounds(Initial(), b, 40)
            == Regs(0x79ea687a, 0x6dc57a8a, 0x34df1604, 0x41a65cb1, 0x1efbc0a0, 0xf0781bc8, 0xa507a53d, 0x0772a26b)
  {
    Words4(b);
    Rounds3(b);
    Constants4();
    hide Rounds, W, K;
    NextRound(b, 32);
    NextRound(b, 33);
    NextRound(b, 34);
    NextRound(b, 35);
    NextRound(b, 36);
    NextRound(b, 37);
    NextRound(b, 38);
    NextRound(b, 39);
  }

  lemma Constants5()
    ensures K(40) == 0xa2bfe8a1 && K(41) == 0xa81a664b && K(42) == 0xc24b8b70 && K(43) == 0xc76c51a3
    ensures K(44) == 0xd192e819 && K(45) == 0xd6990624 && K(46) == 0xf40e3585 && K(47) == 0x106aa070
  {}

  lemma Rounds5(b: seq<bv8>)
    requires IsBlock(b)
    ensures Rounds(Initial(), b, 48)
            == Regs(0x4172328d, 0xa14c14b0, 0x72ab4b91, 0x26628815, 0xfecf0bc6, 0xd57b94a9, 0xb7755da1, 0xa80f11f0)
  {
    Words5(b);
    Rounds4(b);
    Constants5();
    hide Rounds, W, K;
    NextRound(b, 40);
    NextRound(b, 41);
    NextRound(b, 42);
    NextRound(b, 43);
    NextRound(b, 44);
    NextRound(b, 45);
    NextRound(b, 46);
    NextRound(b, 47);
  }

  lemma Constants6()
    ensures K(48) == 0x19a4c116 && K(49) == 0x1e376c08 && K(50) == 0x2748774c && K(51) == 0x34b0bcb5
    ensures K(52) == 0x391c0cb3 && K(53) == 0x4ed8aa4a && K(54) == 0x5b9cca4f && K(55) == 0x682e6ff3
  {}

  lemma Rounds6(b: seq<bv8>)
    requires IsBlock(b)
    ensures Rounds(Initial(), b, 56)
            == Regs(0x38cc9913, 0x3ec45cdb, 0xf5702fdb, 0x101fd28f, 0x54cb266b, 0xe50e1b4f, 0x9f4787c3, 0x529e7d00)
  {
    Words6(b);
    Rounds5(b);
    Constants6();
    hide Rounds, W, K;
    NextRound(b, 48);
    NextRound(b, 49);
    NextRound(b, 50);
    NextRound(b, 51);
    NextRound(b, 52);
    NextRound(b, 53);
    NextRound(b, 54);
    NextRound(b, 55);
  }

  lemma Constants7()
    ensures K(56) == 0x748f82ee && K(57) == 0x78a5636f && K(58) == 0x84c87814 && K(59) == 0x8cc70208
    ensures K(60) == 0x90befffa && K(61) == 0xa4506ceb && K(62) == 0xbef9a3f7 && K(63) == 0xc67178f2
  {}

  lemma Rounds7(b: seq<bv8>)
    requires IsBlock(b)
    ensures Rounds(Initial(), b, 64)
            == Regs(0x506e3058, 0xd39a2165, 0x04d24d6c, 0xb85e2ce9, 0x5ef50f24, 0xfb121210, 0x948d25b6, 0x961f4894)
  {
    Words7(b);
    Rounds6(b);
    Constants7();
    hide Rounds, W, K;
    NextRound(b, 56);
    NextRound(b, 57);
    NextRound(b, 58);
    NextRound(b, 59);
    NextRound(b, 60);
    NextRound(b, 61);
    NextRound(b, 62);
    NextRound(b, 63);
  }

  lemma {:induction false} NoDigits(k: nat)
    ensures forall i | 0 <= i < k :: BigEndian(0, k)[i] == 0
  {
    if k > 0 { NoDigits(k - 1); }
  }

  lemma Padding()
    ensures IsBlock(Padded(ABC, 64, 8))
  {
    NoDigits(7);
    assert BigEndian(8 * |ABC|, 8) == BigEndian(0, 7) + [ByteOf(24)];
    hide BigEndian;
  }

  lemma OneBlock(b: seq<bv8>)
    requires |b| == 64
    ensures Absorb(Compress, Initial(), b, 64) == Compress(Initial(), b)
  {
    hide Compress;
    assert b[..64] == b;
  }

  lemma HashIs()
    ensures Hash(Initial(), ABC)
            == Regs(0xba7816bf, 0x8f01cfea, 0x414140de, 0x5dae2223, 0xb00361a3, 0x96177a9c, 0xb410ff61, 0xf20015ad)
  {
    var b := Padded(ABC, 64, 8);
    Padding();
    OneBlock(b);
    Rounds7(b);
    hide Rounds, Absorb, Padded;
  }

  lemma WordsOut()
    ensures WordBytes(0xba7816bf) == [0xba, 0x78, 0x16, 0xbf]
    ensures WordBytes(0x8f01cfea) == [0x8f, 0x01, 0xcf, 0xea]
    ensures WordBytes(0x414140de) == [0x41, 0x41, 0x40, 0xde]
    ensures WordBytes(0x5dae2223) == [0x5d, 0xae, 0x22, 0x23]
    ensures WordBytes(0xb00361a3) == [0xb0, 0x03, 0x61, 0xa3]
    ensures WordBytes(0x96177a9c) == [0x96, 0x17, 0x7a, 0x9c]
    ensures WordBytes(0xb410ff61) == [0xb4, 0x10, 0xff, 0x61]
    ensures WordBytes(0xf20015ad) == [0xf2, 0x00, 0x15, 0xad]
  {}

  /** The digest of the message. */
  lemma AbcDigest()
    ensures Digest(Hash(Initial(), ABC), 8)
            == WordBytes(0xba7816bf) + WordBytes(0x8f01cfea) + WordBytes(0x414140de) + WordBytes(0x5dae2223) +
               WordBytes(0xb00361a3) + WordBytes(0x96177a9c) + WordBytes(0xb410ff61) + WordBytes(0xf20015ad)
  {
    HashIs();
    var h := Hash(Initial(), ABC);
    DigestNone(h);
    DigestNext(h, 0);
    DigestNext(h, 1);
    DigestNext(h, 2);
    DigestNext(h, 3);
    DigestNext(h, 4);
    DigestNext(h, 5);
    DigestNext(h, 6);
    DigestNext(h, 7);
    hide Hash, WordBytes, Digest;
    assert [] + WordBytes(0xba7816bf) == WordBytes(0xba7816bf);
  }
}
