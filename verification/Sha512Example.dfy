/** The message "abc", worked out as in the examples published with FIPS 180-4, section 6.4. */
module Sha512Example {
  import opened Sha2Words
  import opened Streams
  import opened Sha512

  const ABC: seq<bv8> := [0x61, 0x62, 0x63]

  /** The message with its padding. */
  ghost predicate IsBlock(b: seq<bv8>) {
    && |b| == 128 && b[0] == 0x61 && b[1] == 0x62 && b[2] == 0x63 && b[3] == 0x80 && b[127] == 0x18
    && forall i | 4 <= i < 127 :: b[i] == 0
  }

  lemma NextWordIs(b: seq<bv8>, t: nat)
    requires |b| == 128 && 16 <= t < 80
    ensures W(b, t)
            == Plus(Plus(Plus(SmallSigma1(W(b, t - 2)), W(b, t - 7)), SmallSigma0(W(b, t - 15))), W(b, t - 16))
  {
    hide SmallSigma0, SmallSigma1, Plus;
  }

  lemma NoRounds(b: seq<bv8>)
    requires |b| == 128
    ensures Rounds(Initial(), b, 0) == Initial()
  {}

  lemma NextRound(b: seq<bv8>, t: nat)
    requires |b| == 128 && t < 80
    ensures Rounds(Initial(), b, t + 1) == Round(Rounds(Initial(), b, t), K(t), W(b, t))
  {
    hide W, K, Round;
  }

  lemma Words0(b: seq<bv8>)
    requires IsBlock(b)
    ensures W(b, 0) == 0x6162638000000000 && W(b, 1) == 0x0000000000000000
    ensures W(b, 2) == 0x0000000000000000 && W(b, 3) == 0x0000000000000000
    ensures W(b, 4) == 0x0000000000000000 && W(b, 5) == 0x0000000000000000
    ensures W(b, 6) == 0x0000000000000000 && W(b, 7) == 0x0000000000000000
  {
  }

  lemma Words1(b: seq<bv8>)
    requires IsBlock(b)
    ensures W(b, 8) == 0x0000000000000000 && W(b, 9) == 0x0000000000000000
    ensures W(b, 10) == 0x0000000000000000 && W(b, 11) == 0x0000000000000000
    ensures W(b, 12) == 0x0000000000000000 && W(b, 13) == 0x0000000000000000
    ensures W(b, 14) == 0x0000000000000000 && W(b, 15) == 0x0000000000000018
  {
  }

  lemma Words2(b: seq<bv8>)
    requires IsBlock(b)
    ensures W(b, 16) == 0x6162638000000000 && W(b, 17) == 0x00030000000000c0
    ensures W(b, 18) == 0x0a9699a24c700003 && W(b, 19) == 0x00000c0060000603
    ensures W(b, 20) == 0x549ef62639858996 && W(b, 21) == 0x00c0003300003c00
    ensures W(b, 22) == 0x1497007a8a0e9dbc && W(b, 23) == 0x62e56500cc0780f0
  {
    Words0(b);
    Words1(b);
    hide W;
    NextWordIs(b, 16);
    NextWordIs(b, 17);
    NextWordIs(b, 18);
    NextWordIs(b, 19);
    NextWordIs(b, 20);
    NextWordIs(b, 21);
    NextWordIs(b, 22);
    NextWordIs(b, 23);
  }

  lemma Words3(b: seq<bv8>)
    requires IsBlock(b)
    ensures W(b, 24) == 0x7760dd475a538797 && W(b, 25) == 0xf1554b711c1c0003
    ensures W(b, 26) == 0xca2993a4345d9ff2 && W(b, 27) == 0x5e0e66b5c783dd32
    ensures W(b, 28) == 0xe25a625d00494b62 && W(b, 29) == 0x9f44486fb1e4fbd2
    ensures W(b, 30) == 0xb31b8c2b06085f2f && W(b, 31) == 0x0e987660934142f6
  {
    Words1(b);
    Words2(b);
    hide W;
    NextWordIs(b, 24);
    NextWordIs(b, 25);
    NextWordIs(b, 26);
    NextWordIs(b, 27);
    NextWordIs(b, 28);
    NextWordIs(b, 29);
    NextWordIs(b, 30);
    NextWordIs(b, 31);
  }

  lemma Words4(b: seq<bv8>)
    requires IsBlock(b)
    ensures W(b, 32) == 0xa4af2cfd09fbb924 && W(b, 33) == 0xad289e2e0bd53186
    ensures W(b, 34) == 0x3c74563aa2f9673e && W(b, 35) == 0x6ccdcd14cc14b53f
    ensures W(b, 36) == 0xc3f925b337f22bde && W(b, 37) == 0x5bcc77a75ad95b54
    ensures W(b, 38) == 0x3ec2257adca09a52 && W(b, 39) == 0x28246960001fc5eb
  {
    Words2(b);
    Words3(b);
    hide W;
    NextWordIs(b, 32);
    NextWordIs(b, 33);
    NextWordIs(b, 34);
    NextWordIs(b, 35);
    NextWordIs(b, 36);
    NextWordIs(b, 37);
    NextWordIs(b, 38);
    NextWordIs(b, 39);
  }

  lemma Words5(b: seq<bv8>)
    requires IsBlock(b)
    ensures W(b, 40) == 0x04e33a75ce2be88a && W(b, 41) == 0x7d5314b3c359e0e7
    ensures W(b, 42) == 0xaef7a285ff251266 && W(b, 43) == 0x0b8472581deea04f
    ensures W(b, 44) == 0xb174e26eddc7b033 && W(b, 45) == 0x5d63bae58ddd88de
    ensures W(b, 46) == 0x4c044007b744ccbb && W(b, 47) == 0xe6a9aa4d74dc7d43
  {
    Words3(b);
    Words4(b);
    hide W;
    NextWordIs(b, 40);
    NextWordIs(b, 41);
    NextWordIs(b, 42);
    NextWordIs(b, 43);
    NextWordIs(b, 44);
    NextWordIs(b, 45);
    NextWordIs(b, 46);
    NextWordIs(b, 47);
  }

  lemma Words6(b: seq<bv8>)
    requires IsBlock(b)
    ensures W(b, 48) == 0xebeaf1237248019c && W(b, 49) == 0x361e80b2d00f3193
    ensures W(b, 50) == 0x2e9839125df3b175 && W(b, 51) == 0x3319629293ad5363
    ensures W(b, 52) == 0x9cbc5d89ac1b89d5 && W(b, 53) == 0x275e23ffeeca50b7
    ensures W(b, 54) == 0x3b80d680bf69ef58 && W(b, 55) == 0x0d0696933945a125
  {
    Words4(b);
    Words5(b);
    hide W;
    NextWordIs(b, 48);
    NextWordIs(b, 49);
    NextWordIs(b, 50);
    NextWordIs(b, 51);
    NextWordIs(b, 52);
    NextWordIs(b, 53);
    NextWordIs(b, 54);
    NextWordIs(b, 55);
  }

  lemma Words7(b: seq<bv8>)
    requires IsBlock(b)
    ensures W(b, 56) == 0x7533eabcb786ff00 && W(b, 57) == 0xb89826cee6fbf0e5
    ensures W(b, 58) == 0x249b4fbcad623e9f && W(b, 59) == 0x4aea9df2b02d6f1e
    ensures W(b, 60) == 0x2cc57475a55e8d8f && W(b, 61) == 0xb2574ae938d8be89
    ensures W(b, 62) == 0xc1b35a57b16d6aea && W(b, 63) == 0xcc4918b5949206bb
  {
    Words5(b);
    Words6(b);
    hide W;
    NextWordIs(b, 56);
    NextWordIs(b, 57);
    NextWordIs(b, 58);
    NextWordIs(b, 59);
    NextWordIs(b, 60);
    NextWordIs(b, 61);
    NextWordIs(b, 62);
    NextWordIs(b, 63);
  }

  lemma Words8(b: seq<bv8>)
    requires IsBlock(b)
    ensures W(b, 64) == 0x5099c3add79f90ec && W(b, 65) == 0x5ea81d78e7660bf1
    ensures W(b, 66) == 0xebee6267405ac2a9 && W(b, 67) == 0xb01f21926108a4ab
    ensures W(b, 68) == 0x786433dd2fe65556 && W(b, 69) == 0xc54a6eaa24a0552c
    ensures W(b, 70) == 0xb3c8f1530bdbaa9e && W(b, 71) == 0xbb8abfe56f469338
  {
    Words6(b);
    Words7(b);
    hide W;
    NextWordIs(b, 64);
    NextWordIs(b, 65);
    NextWordIs(b, 66);
    NextWordIs(b, 67);
    NextWordIs(b, 68);
    NextWordIs(b, 69);
    NextWordIs(b, 70);
    NextWordIs(b, 71);
  }

  lemma Words9(b: seq<bv8>)
    requires IsBlock(b)
    ensures W(b, 72) == 0xf63d4265cc1c5a78 && W(b, 73) == 0xbe8355ea73129afb
    ensures W(b, 74) == 0x49e2db8ebdcfbeb5 && W(b, 75) == 0x82269d4a883a3d99
    ensures W(b, 76) == 0xfdf53df3011f362b && W(b, 77) == 0x464af5671d71c12e
    ensures W(b, 78) == 0xe449b68198ec611c && W(b, 79) == 0x92aeeed1a7bcf7d2
  {
    Words7(b);
    Words8(b);
    hide W;
    NextWordIs(b, 72);
    NextWordIs(b, 73);
    NextWordIs(b, 74);
    NextWordIs(b, 75);
    NextWordIs(b, 76);
    NextWordIs(b, 77);
    NextWordIs(b, 78);
    NextWordIs(b, 79);
  }

  lemma Constants0()
    ensures K(0) == 0x428a2f98d728ae22 && K(1) == 0x7137449123ef65cd
    ensures K(2) == 0xb5c0fbcfec4d3b2f && K(3) == 0xe9b5dba58189dbbc
    ensures K(4) == 0x3956c25bf348b538 && K(5) == 0x59f111f1b605d019
    ensures K(6) == 0x923f82a4af194f9b && K(7) == 0xab1c5ed5da6d8118
  {}

  lemma Rounds0(b: seq<bv8>)
    requires IsBlock(b)
    ensures Rounds(Initial(), b, 8)
            == Regs(0x8093d195e0054fa3, 0xc4875b0c7abc076b, 0xaf573b02403e89cd, 0xb680953951604860,
             0x86f67263a0f0ec0a, 0x5a6c781f54dcc00c, 0x96f60209b6dc35ba, 0x745aca4a342ed2e2)
  {
    Words0(b);
    NoRounds(b);
    Constants0();
    hide Rounds, W, K;
    NextRound(b, 0);
    NextRound(b, 1);
    NextRound(b, 2);
    NextRound(b, 3);
    NextRound(b, 4);
    NextRound(b, 5);
    NextRound(b, 6);
    NextRound(b, 7);
  }

  lemma Constants1()
    ensures K(8) == 0xd807aa98a3030242 && K(9) == 0x12835b0145706fbe
    ensures K(10) == 0x243185be4ee4b28c && K(11) == 0x550c7dc3d5ffb4e2
    ensures K(12) == 0x72be5d74f27b896f && K(13) == 0x80deb1fe3b1696b1
    ensures K(14) == 0x9bdc06a725c71235 && K(15) == 0xc19bf174cf692694
  {}

  lemma Rounds1(b: seq<bv8>)
    requires IsBlock(b)
    ensures Rounds(Initial(), b, 16)
            == Regs(0x0ae07c86b1181c75, 0xfa967eed85a08028, 0x44249631255d2ca0, 0x5e41214388186c14,
             0xa77b7c035dd4c161, 0x874bfe5f6aae9f2f, 0x860acf9effba6f61, 0xcdf3bff2883fc9d9)
  {
    Words1(b);
    Rounds0(b);
    Constants1();
    hide Rounds, W, K;
    NextRound(b, 8);
    NextRound(b, 9);
    NextRound(b, 10);
    NextRound(b, 11);
    NextRound(b, 12);
    NextRound(b, 13);
    NextRound(b, 14);
    NextRound(b, 15);
  }

  lemma Constants2()
    ensures K(16) == 0xe49b69c19ef14ad2 && K(17) == 0xefbe4786384f25e3
    ensures K(18) == 0x0fc19dc68b8cd5b5 && K(19) == 0x240ca1cc77ac9c65
    ensures K(20) == 0x2de92c6f592b0275 && K(21) == 0x4a7484aa6ea6e483
    ensures K(22) == 0x5cb0a9dcbd41fbd4 && K(23) == 0x76f988da831153b5
  {}

  lemma Rounds2(b: seq<bv8>)
    requires IsBlock(b)
    ensures Rounds(Initial(), b, 24)
            == Regs(0x4f6877b58fe55484, 0x3e2644567b709a78, 0xda34d6673d452dcf, 0x8dc5ae65569d3855,
             0xc66005f87db55233, 0x0ac2b11da8f571c6, 0x8e30ff09ad488753, 0x4bb9e66d1145bfdc)
  {
    Words2(b);
    Rounds1(b);
    Constants2();
    hide Rounds, W, K;
    NextRound(b, 16);
    NextRound(b, 17);
    NextRound(b, 18);
    NextRound(b, 19);
    NextRound(b, 20);
    NextRound(b, 21);
    NextRound(b, 22);
    NextRound(b, 23);
  }

  lemma Constants3()
    ensures K(24) == 0x983e5152ee66dfab && K(25) == 0xa831c66d2db43210
    ensures K(26) == 0xb00327c898fb213f && K(27) == 0xbf597fc7beef0ee4
    ensures K(28) == 0xc6e00bf33da88fc2 && K(29) == 0xd5a79147930aa725
    ensures K(30) == 0x06ca6351e003826f && K(31) == 0x142929670a0e6e70
  {}

  lemma Rounds3(b: seq<bv8>)
    requires IsBlock(b)
    ensures Rounds(Initial(), b, 32)
            == Regs(0xff4d3f1f0d46a736, 0x4c4fbbb75f1873a6, 0x74bf40f869094c63, 0xe62349090f47d30a,
             0x3cd388e119e8162e, 0x73e025d91b9efea3, 0xf0aec2fe1437f085, 0x0fcdf99710f21584)
  {
    Words3(b);
    Rounds2(b);
    Constants3();
    hide Rounds, W, K;
    NextRound(b, 24);
    NextRound(b, 25);
    NextRound(b, 26);
    NextRound(b, 27);
    NextRound(b, 28);
    NextRound(b, 29);
    NextRound(b, 30);
    NextRound(b, 31);
  }

  lemma Constants4()
    ensures K(32) == 0x27b70a8546d22ffc && K(33) == 0x2e1b21385c26c926
    ensures K(34) == 0x4d2c6dfc5ac42aed && K(35) == 0x53380d139d95b3df
    ensures K(36) == 0x650a73548baf63de && K(37) == 0x766a0abb3c77b2a8
    ensures K(38) == 0x81c2c92e47edaee6 && K(39) == 0x92722c851482353b
  {}

  lemma Rounds4(b: seq<bv8>)
    requires IsBlock(b)
    ensures Rounds(Initial(), b, 40)
            == Regs(0x8e01e125b855d225, 0xb3bb8542b3376de5, 0x002bb8e4cd989567, 0x88df85b0bbe77514,
             0x0c710a47ba6a567b, 0xb49596c20feba7de, 0x66adcfa249ac7bbd, 0x8fbfd0162bbf4675)
  {
    Words4(b);
    Rounds3(b);
    Constants4();
    hide Rounds, W, K;
    NextRound(b, 32);
    NextRound(b, 33);
    NextRound(b, 34);
    NextRound(b, 35);
    NextRound(b, 36);
    NextRound(b, 37);
    NextRound(b, 38);
    NextRound(b, 39);
  }

  lemma Constants5()
    ensures K(40) == 0xa2bfe8a14cf10364 && K(41) == 0xa81a664bbc423001
    ensures K(42) == 0xc24b8b70d0f89791 && K(43) == 0xc76c51a30654be30
    ensures K(44) == 0xd192e819d6ef5218 && K(45) == 0xd69906245565a910
    ensures K(46) == 0xf40e35855771202a && K(47) == 0x106aa07032bbd1b8
  {}

  lemma Rounds5(b: seq<bv8>)
    requires IsBlock(b)
    ensures Rounds(Initial(), b, 48)
            == Regs(0x6b69fc1bb482feac, 0xf61e672694de2d67, 0x021fbadbabab5ac6, 0xc47c9d5c7ea8a234,
             0x35264334c03ac8ad, 0xc6bc35740d8daa9a, 0xe95c2a57572d64d9, 0x858d832ae0e8911c)
  {
    Words5(b);
    Rounds4(b);
    Constants5();
    hide Rounds, W, K;
    NextRound(b, 40);
    NextRound(b, 41);
    NextRound(b, 42);
    NextRound(b, 43);
    NextRound(b, 44);
    NextRound(b, 45);
    NextRound(b, 46);
    NextRound(b, 47);
  }

  lemma Constants6()
    ensures K(48) == 0x19a4c116b8d2d0c8 && K(49) == 0x1e376c085141ab53
    ensures K(50) == 0x2748774cdf8eeb99 && K(51) == 0x34b0bcb5e19b48a8
    ensures K(52) == 0x391c0cb3c5c95a63 && K(53) == 0x4ed8aa4ae3418acb
    ensures K(54) == 0x5b9cca4f7763e373 && K(55) == 0x682e6ff3d6b2b8a3
  {}

  lemma Rounds6(b: seq<bv8>)
    requires IsBlock(b)
    ensures Rounds(Initial(), b, 56)
            == Regs(0x63b460e42748817e, 0xf650857b5babda4d, 0xd63f68037ddf06aa, 0x03df11b32d42e203,
             0xc6b4dd2a9931c509, 0x9ccfb31a86df0f86, 0xa6781efe1aa1ce02, 0x504f94e40591cffa)
  {
    Words6(b);
    Rounds5(b);
    Constants6();
    hide Rounds, W, K;
    NextRound(b, 48);
    NextRound(b, 49);
    NextRound(b, 50);
    NextRound(b, 51);
    NextRound(b, 52);
    NextRound(b, 53);
    NextRound(b, 54);
    NextRound(b, 55);
  }

  lemma Constants7()
    ensures K(56) == 0x748f82ee5defb2fc && K(57) == 0x78a5636f43172f60
    ensures K(58) == 0x84c87814a1f0ab72 && K(59) == 0x8cc702081a6439ec
    ensures K(60) == 0x90befffa23631e28 && K(61) == 0xa4506cebde82bde9
    ensures K(62) == 0xbef9a3f7b2c67915 && K(63) == 0xc67178f2e372532b
  {}

  lemma Rounds7(b: seq<bv8>)
    requires IsBlock(b)
    ensures Rounds(Initial(), b, 64)
            == Regs(0xab44e86276478d85, 0xa81dedbb9f19e643, 0xcfcd928c5424e2b6, 0x3857dfd2fc37d3ba,
             0xcd881ee59ca6bc53, 0x84058865d60a05fa, 0x09aee5bda1644de5, 0xa6af4e9c9f807e51)
  {
    Words7(b);
    Rounds6(b);
    Constants7();
    hide Rounds, W, K;
    NextRound(b, 56);
    NextRound(b, 57);
    NextRound(b, 58);
    NextRound(b, 59);
    NextRound(b, 60);
    NextRound(b, 61);
    NextRound(b, 62);
    NextRound(b, 63);
  }

  lemma Constants8()
    ensures K(64) == 0xca273eceea26619c && K(65) == 0xd186b8c721c0c207
    ensures K(66) == 0xeada7dd6cde0eb1e && K(67) == 0xf57d4f7fee6ed178
    ensures K(68) == 0x06f067aa72176fba && K(69) == 0x0a637dc5a2c898a6
    ensures K(70) == 0x113f9804bef90dae && K(71) == 0x1b710b35131c471b
  {}

  lemma Rounds8(b: seq<bv8>)
    requires IsBlock(b)
    ensures Rounds(Initial(), b, 72)
            == Regs(0xf15e9664b2803575, 0x7652c579cb60f19c, 0xfb6aaae5d0b6a447, 0x181839d609c79748,
             0x947c3dfafee570ef, 0xaff62c9665ff80fa, 0xe3711cb6564d112d, 0x0ada78ba2d446140)
  {
    Words8(b);
    Rounds7(b);
    Constants8();
    hide Rounds, W, K;
    NextRound(b, 64);
    NextRound(b, 65);
    NextRound(b, 66);
    NextRound(b, 67);
    NextRound(b, 68);
    NextRound(b, 69);
    NextRound(b, 70);
    NextRound(b, 71);
  }

  lemma Constants9()
    ensures K(72) == 0x28db77f523047d84 && K(73) == 0x32caab7b40c72493
    ensures K(74) == 0x3c9ebe0a15c9bebc && K(75) == 0x431d67c49c100d4c
    ensures K(76) == 0x4cc5d4becb3e42b6 && K(77) == 0x597f299cfc657e2a
    ensures K(78) == 0x5fcb6fab3ad6faec && K(79) == 0x6c44198c4a475817
  {}

  lemma Rounds9(b: seq<bv8>)
    requires IsBlock(b)
    ensures Rounds(Initial(), b, 80)
            == Regs(0x73a54f399fa4b1b2, 0x10d9c4c4295599f6, 0xd67806db8b148677, 0x654ef9abec389ca9,
             0xd08446aa79693ed7, 0x9bb4d39778c07f9e, 0x25c96a7768fb2aa3, 0xceb9fc3691ce8326)
  {
    Words9(b);
    Rounds8(b);
    Constants9();
    hide Rounds, W, K;
    NextRound(b, 72);
    NextRound(b, 73);
    NextRound(b, 74);
    NextRound(b, 75);
    NextRound(b, 76);
    NextRound(b, 77);
    NextRound(b, 78);
    NextRound(b, 79);
  }

  lemma {:induction false} NoDigits(k: nat)
    ensures forall i | 0 <= i < k :: BigEndian(0, k)[i] == 0
  {
    if k > 0 { NoDigits(k - 1); }
  }

  lemma Padding()
    ensures IsBlock(Padded(ABC, 128, 16))
  {
    NoDigits(15);
    assert BigEndian(8 * |ABC|, 16) == BigEndian(0, 15) + [ByteOf(24)];
    hide BigEndian;
  }

  lemma OneBlock(b: seq<bv8>)
    requires |b| == 128
    ensures Absorb(Compress, Initial(), b, 128) == Compress(Initial(), b)
  {
    hide Compress;
    assert b[..128] == b;
  }

  lemma HashIs()
    ensures Hash(Initial(), ABC)
            == Regs(0xddaf35a193617aba, 0xcc417349ae204131, 0x12e6fa4e89a97ea2, 0x0a9eeee64b55d39a,
             0x2192992a274fc1a8, 0x36ba3c23a3feebbd, 0x454d4423643ce80e, 0x2a9ac94fa54ca49f)
  {
    var b := Padded(ABC, 128, 16);
    Padding();
    OneBlock(b);
    Rounds9(b);
    hide Rounds, Absorb, Padded;
  }

  lemma WordsOut()
    ensures WordBytes(0xddaf35a193617aba) == [0xdd, 0xaf, 0x35, 0xa1, 0x93, 0x61, 0x7a, 0xba]
    ensures WordBytes(0xcc417349ae204131) == [0xcc, 0x41, 0x73, 0x49, 0xae, 0x20, 0x41, 0x31]
    ensures WordBytes(0x12e6fa4e89a97ea2) == [0x12, 0xe6, 0xfa, 0x4e, 0x89, 0xa9, 0x7e, 0xa2]
    ensures WordBytes(0x0a9eeee64b55d39a) == [0x0a, 0x9e, 0xee, 0xe6, 0x4b, 0x55, 0xd3, 0x9a]
    ensures WordBytes(0x2192992a274fc1a8) == [0x21, 0x92, 0x99, 0x2a, 0x27, 0x4f, 0xc1, 0xa8]
    ensures WordBytes(0x36ba3c23a3feebbd) == [0x36, 0xba, 0x3c, 0x23, 0xa3, 0xfe, 0xeb, 0xbd]
    ensures WordBytes(0x454d4423643ce80e) == [0x45, 0x4d, 0x44, 0x23, 0x64, 0x3c, 0xe8, 0x0e]
    ensures WordBytes(0x2a9ac94fa54ca49f) == [0x2a, 0x9a, 0xc9, 0x4f, 0xa5, 0x4c, 0xa4, 0x9f]
  {}

  /** The digest of the message. */
  lemma AbcDigest()
    ensures Digest(Hash(Initial(), ABC), 8)
            == WordBytes(0xddaf35a193617aba) + WordBytes(0xcc417349ae204131) +
               WordBytes(0x12e6fa4e89a97ea2) + WordBytes(0x0a9eeee64b55d39a) +
               WordBytes(0x2192992a274fc1a8) + WordBytes(0x36ba3c23a3feebbd) +
               WordBytes(0x454d4423643ce80e) + WordBytes(0x2a9ac94fa54ca49f)
  {
    HashIs();
    var h := Hash(Initial(), ABC);
    DigestNone(h);
    DigestNext(h, 0);
    DigestNext(h, 1);
    DigestNext(h, 2);
    DigestNext(h, 3);
    DigestNext(h, 4);
    DigestNext(h, 5);
    DigestNext(h, 6);
    DigestNext(h, 7);
    hide Hash, WordBytes, Digest;
    assert [] + WordBytes(0xddaf35a193617aba) == WordBytes(0xddaf35a193617aba);
  }
}
