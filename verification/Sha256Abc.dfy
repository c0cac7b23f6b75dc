/**
  The one-block example of FIPS 180-4: the digest of "abc", round by round.
 */
module Sha256Abc {
  import opened Bits
  import opened Sha256

  const ABC: seq<byte> := [97, 98, 99]

  lemma {:induction false} NoBytes(k: nat)
    ensures BigEndian(0, k) == Zeros(k)
  {
    if k > 0 {
      NoBytes(k - 1);
    }
  }

  lemma LengthBytes()
    ensures BigEndian(24, 8) == Zeros(7) + [24]
  {
    NoBytes(7);
  }

  /** The padded message is one block: the text, the marker, zeros, and the length in bits. */
  ghost predicate Block(p: seq<byte>)
  {
    && |p| == 64 && p[0] == 97 && p[1] == 98 && p[2] == 99 && p[3] == 128 && p[63] == 24
    && forall i :: 4 <= i < 63 ==> p[i] == 0
  }

  lemma PaddedIsBlock()
    ensures Block(Pad(ABC))
  {
    LengthBytes();
    hide BigEndian;
    assert ZeroCount(3) == 52;
    var p := Pad(ABC);
    assert p == ABC + [0x80] + Zeros(52) + (Zeros(7) + [24]);
  }

  // ---- the schedule -----------------------------------------------------------------------

  lemma TextWord(p: seq<byte>)
    requires |p| == 64 && p[0] == 97 && p[1] == 98 && p[2] == 99 && p[3] == 128
    ensures WordAt(p, 0) == 0x61626380
  {
    assert p[0] as word == 0x61 && p[1] as word == 0x62 && p[2] as word == 0x63 && p[3] as word == 0x80;
    FourBytes(p[0] as word, p[1] as word, p[2] as word, p[3] as word);
  }

  lemma FourBytes(a: word, b: word, c: word, d: word)
    requires a == 0x61 && b == 0x62 && c == 0x63 && d == 0x80
    ensures (a << 24) | (b << 16) | (c << 8) | d == 0x61626380
  {
  }

  lemma ZeroWord(p: seq<byte>, k: nat)
    requires k + 4 <= |p| && p[k] == 0 && p[k + 1] == 0 && p[k + 2] == 0 && p[k + 3] == 0
    ensures WordAt(p, k) == 0
  {
  }

  lemma LengthWord(p: seq<byte>)
    requires |p| == 64 && p[60] == 0 && p[61] == 0 && p[62] == 0 && p[63] == 24
    ensures WordAt(p, 60) == 24
  {
  }

  lemma Words0(p: seq<byte>)
    requires Block(p)
    ensures W(p, 0) == 0x61626380 && W(p, 15) == 24
    ensures W(p, 1) == W(p, 2) == W(p, 3) == W(p, 4) == W(p, 5) == W(p, 6) == W(p, 7) == 0
    ensures W(p, 8) == W(p, 9) == W(p, 10) == W(p, 11) == W(p, 12) == W(p, 13) == W(p, 14) == 0
  {
    hide WordAt;
    TextWord(p);
    LengthWord(p);
    forall t | 1 <= t < 15
      ensures W(p, t) == 0
    {
      ZeroWord(p, 4 * t);
    }
  }

  lemma WordStep(p: seq<byte>, t: nat)
    requires |p| == 64 && t >= 16
    ensures W(p, t) == Add(Add(Add(W(p, t - 16), Sig0(W(p, t - 15))), W(p, t - 7)), Sig1(W(p, t - 2)))
  {
    hide Add, Sig0, Sig1, WordAt;
  }

  lemma Words16(p: seq<byte>)
    requires Block(p)
    ensures W(p, 16) == 0x61626380 && W(p, 17) == 0x000f0000 && W(p, 18) == 0x7da86405 && W(p, 19) == 0x600003c6
    ensures W(p, 20) == 0x3e9d7b78 && W(p, 21) == 0x0183fc00 && W(p, 22) == 0x12dcbfdb && W(p, 23) == 0xe2e2c38e
  {
    hide W, WordAt, Block;
    BlockLength(p);
    Words0(p);
    WordStep(p, 16);
    WordStep(p, 17);
    WordStep(p, 18);
    WordStep(p, 19);
    WordStep(p, 20);
    WordStep(p, 21);
    WordStep(p, 22);
    WordStep(p, 23);
  }

  lemma Words24(p: seq<byte>)
    requires Block(p)
    ensures W(p, 24) == 0xc8215c1a && W(p, 25) == 0xb73679a2 && W(p, 26) == 0xe5bc3909 && W(p, 27) == 0x32663c5b
    ensures W(p, 28) == 0x9d209d67 && W(p, 29) == 0xec8726cb && W(p, 30) == 0x702138a4 && W(p, 31) == 0xd3b7973b
  {
    hide W, WordAt, Block;
    BlockLength(p);
    Words0(p);
    Words16(p);
    WordStep(p, 24);
    WordStep(p, 25);
    WordStep(p, 26);
    WordStep(p, 27);
    WordStep(p, 28);
    WordStep(p, 29);
    WordStep(p, 30);
    WordStep(p, 31);
  }

  lemma Words32(p: seq<byte>)
    requires Block(p)
    ensures W(p, 32) == 0x93f5997f && W(p, 33) == 0x3b68ba73 && W(p, 34) == 0xaff4ffc1 && W(p, 35) == 0xf10a5c62
    ensures W(p, 36) == 0x0a8b3996 && W(p, 37) == 0x72af830a && W(p, 38) == 0x9409e33e && W(p, 39) == 0x24641522
  {
    hide W, WordAt, Block;
    BlockLength(p);
    Words16(p);
    Words24(p);
    WordStep(p, 32);
    WordStep(p, 33);
    WordStep(p, 34);
    WordStep(p, 35);
    WordStep(p, 36);
    WordStep(p, 37);
    WordStep(p, 38);
    WordStep(p, 39);
  }

  lemma Words40(p: seq<byte>)
    requires Block(p)
    ensures W(p, 40) == 0x9f47bf94 && W(p, 41) == 0xf0a64f5a && W(p, 42) == 0x3e246a79 && W(p, 43) == 0x27333ba3
    ensures W(p, 44) == 0x0c4763f2 && W(p, 45) == 0x840abf27 && W(p, 46) == 0x7a290d5d && W(p, 47) == 0x065c43da
  {
    hide W, WordAt, Block;
    BlockLength(p);
    Words24(p);
    Words32(p);
    WordStep(p, 40);
    WordStep(p, 41);
    WordStep(p, 42);
    WordStep(p, 43);
    WordStep(p, 44);
    WordStep(p, 45);
    WordStep(p, 46);
    WordStep(p, 47);
  }

  lemma Words48(p: seq<byte>)
    requires Block(p)
    ensures W(p, 48) == 0xfb3e89cb && W(p, 49) == 0xcc7617db && W(p, 50) == 0xb9e66c34 && W(p, 51) == 0xa9993667
    ensures W(p, 52) == 0x84badedd && W(p, 53) == 0xc21462bc && W(p, 54) == 0x1487472c && W(p, 55) == 0xb20f7a99
  {
    hide W, WordAt, Block;
    BlockLength(p);
    Words32(p);
    Words40(p);
    WordStep(p, 48);
    WordStep(p, 49);
    WordStep(p, 50);
    WordStep(p, 51);
    WordStep(p, 52);
    WordStep(p, 53);
    WordStep(p, 54);
    WordStep(p, 55);
  }

  lemma Words56(p: seq<byte>)
    requires Block(p)
    ensures W(p, 56) == 0xef57b9cd && W(p, 57) == 0xebe6b238 && W(p, 58) == 0x9fe3095e && W(p, 59) == 0x78bc8d4b
    ensures W(p, 60) == 0xa43fcf15 && W(p, 61) == 0x668b2ff8 && W(p, 62) == 0xeeaba2cc && W(p, 63) == 0x12b1edeb
  {
    hide W, WordAt, Block;
    BlockLength(p);
    Words40(p);
    Words48(p);
    WordStep(p, 56);
    WordStep(p, 57);
    WordStep(p, 58);
    WordStep(p, 59);
    WordStep(p, 60);
    WordStep(p, 61);
    WordStep(p, 62);
    WordStep(p, 63);
  }

  lemma BlockLength(p: seq<byte>)
    requires Block(p)
    ensures |p| == 64
  {
  }

  // ---- the rounds ---------------------------------------------------------------------------

  lemma RoundStep(p: seq<byte>, t: nat)
    requires |p| == 64 && t < 64
    ensures Rounds(H0, p, t + 1) == Round(Rounds(H0, p, t), K(t), W(p, t)) && Rounds(H0, p, 0) == H0
  {
    hide Round, K, W;
  }

  lemma Rounds8(p: seq<byte>)
    requires Block(p)
    ensures |p| == 64
    ensures Rounds(H0, p, 8)
           == State(0x85a07b5f, 0xe5030380, 0x2b4209f5, 0x04409a6a, 0x0c657a79, 0x9b27a401, 0x714260ad, 0x43ada245)
  {
    assert K(0) == 0x428a2f98 && K(1) == 0x71374491 && K(2) == 0xb5c0fbcf && K(3) == 0xe9b5dba5;
    assert K(4) == 0x3956c25b && K(5) == 0x59f111f1 && K(6) == 0x923f82a4 && K(7) == 0xab1c5ed5;
    hide Rounds, W, Block, K;
    BlockLength(p);
    Words0(p);
    RoundStep(p, 0);
    assert Rounds(H0, p, 1)
           == State(0x5d6aebcd, 0x6a09e667, 0xbb67ae85, 0x3c6ef372, 0xfa2a4622, 0x510e527f, 0x9b05688c, 0x1f83d9ab);
    RoundStep(p, 1);
    assert Rounds(H0, p, 2)
           == State(0x5a6ad9ad, 0x5d6aebcd, 0x6a09e667, 0xbb67ae85, 0x78ce7989, 0xfa2a4622, 0x510e527f, 0x9b05688c);
    RoundStep(p, 2);
    assert Rounds(H0, p, 3)
           == State(0xc8c347a7, 0x5a6ad9ad, 0x5d6aebcd, 0x6a09e667, 0xf92939eb, 0x78ce7989, 0xfa2a4622, 0x510e527f);
    RoundStep(p, 3);
    assert Rounds(H0, p, 4)
           == State(0xd550f666, 0xc8c347a7, 0x5a6ad9ad, 0x5d6aebcd, 0x24e00850, 0xf92939eb, 0x78ce7989, 0xfa2a4622);
    RoundStep(p, 4);
    assert Rounds(H0, p, 5)
           == State(0x04409a6a, 0xd550f666, 0xc8c347a7, 0x5a6ad9ad, 0x43ada245, 0x24e00850, 0xf92939eb, 0x78ce7989);
    RoundStep(p, 5);
    assert Rounds(H0, p, 6)
           == State(0x2b4209f5, 0x04409a6a, 0xd550f666, 0xc8c347a7, 0x714260ad, 0x43ada245, 0x24e00850, 0xf92939eb);
    RoundStep(p, 6);
    assert Rounds(H0, p, 7)
           == State(0xe5030380, 0x2b4209f5, 0x04409a6a, 0xd550f666, 0x9b27a401, 0x714260ad, 0x43ada245, 0x24e00850);
    RoundStep(p, 7);
  }

  lemma Rounds16(p: seq<byte>)
    requires Block(p)
    ensures |p| == 64
    ensures Rounds(H0, p, 16)
           == State(0xb0fa238e, 0xc0645fde, 0xd932eb16, 0x87912990, 0x07590dcd, 0x0b92f20c, 0x745a48de, 0x1e578218)
  {
    assert K(8) == 0xd807aa98 && K(9) == 0x12835b01 && K(10) == 0x243185be && K(11) == 0x550c7dc3;
    assert K(12) == 0x72be5d74 && K(13) == 0x80deb1fe && K(14) == 0x9bdc06a7 && K(15) == 0xc19bf174;
    hide Rounds, W, Block, K;
    BlockLength(p);
    Words0(p);
    Rounds8(p);
    RoundStep(p, 8);
    assert Rounds(H0, p, 9)
           == State(0x8e04ecb9, 0x85a07b5f, 0xe5030380, 0x2b4209f5, 0x32ca2d8c, 0x0c657a79, 0x9b27a401, 0x714260ad);
    RoundStep(p, 9);
    assert Rounds(H0, p, 10)
           == State(0x8c87346b, 0x8e04ecb9, 0x85a07b5f, 0xe5030380, 0x1cc92596, 0x32ca2d8c, 0x0c657a79, 0x9b27a401);
    RoundStep(p, 10);
    assert Rounds(H0, p, 11)
           == State(0x4798a3f4, 0x8c87346b, 0x8e04ecb9, 0x85a07b5f, 0x436b23e8, 0x1cc92596, 0x32ca2d8c, 0x0c657a79);
    RoundStep(p, 11);
    assert Rounds(H0, p, 12)
           == State(0xf71fc5a9, 0x4798a3f4, 0x8c87346b, 0x8e04ecb9, 0x816fd6e9, 0x436b23e8, 0x1cc92596, 0x32ca2d8c);
    RoundStep(p, 12);
    assert Rounds(H0, p, 13)
           == State(0x87912990, 0xf71fc5a9, 0x4798a3f4, 0x8c87346b, 0x1e578218, 0x816fd6e9, 0x436b23e8, 0x1cc92596);
    RoundStep(p, 13);
    assert Rounds(H0, p, 14)
           == State(0xd932eb16, 0x87912990, 0xf71fc5a9, 0x4798a3f4, 0x745a48de, 0x1e578218, 0x816fd6e9, 0x436b23e8);
    RoundStep(p, 14);
    assert Rounds(H0, p, 15)
           == State(0xc0645fde, 0xd932eb16, 0x87912990, 0xf71fc5a9, 0x0b92f20c, 0x745a48de, 0x1e578218, 0x816fd6e9);
    RoundStep(p, 15);
  }

  lemma Rounds24(p: seq<byte>)
    requires Block(p)
    ensures |p| == 64
    ensures Rounds(H0, p, 24)
           == State(0xc5d53d8d, 0xa7a3623f, 0xc2606d6d, 0x9dc68b63, 0xaa47c347, 0x49f5114a, 0xe1257970, 0x8ada8930)
  {
    assert K(16) == 0xe49b69c1 && K(17) == 0xefbe4786 && K(18) == 0x0fc19dc6 && K(19) == 0x240ca1cc;
    assert K(20) == 0x2de92c6f && K(21) == 0x4a7484aa && K(22) == 0x5cb0a9dc && K(23) == 0x76f988da;
    hide Rounds, W, Block, K;
    BlockLength(p);
    Words16(p);
    Rounds16(p);
    RoundStep(p, 16);
    assert Rounds(H0, p, 17)
           == State(0x21da9a9b, 0xb0fa238e, 0xc0645fde, 0xd932eb16, 0x8034229c, 0x07590dcd, 0x0b92f20c, 0x745a48de);
    RoundStep(p, 17);
    assert Rounds(H0, p, 18)
           == State(0xc2fbd9d1, 0x21da9a9b, 0xb0fa238e, 0xc0645fde, 0x846ee454, 0x8034229c, 0x07590dcd, 0x0b92f20c);
    RoundStep(p, 18);
    assert Rounds(H0, p, 19)
           == State(0xfe777bbf, 0xc2fbd9d1, 0x21da9a9b, 0xb0fa238e, 0xcc899961, 0x846ee454, 0x8034229c, 0x07590dcd);
    RoundStep(p, 19);
    assert Rounds(H0, p, 20)
           == State(0xe1f20c33, 0xfe777bbf, 0xc2fbd9d1, 0x21da9a9b, 0xb0638179, 0xcc899961, 0x846ee454, 0x8034229c);
    RoundStep(p, 20);
    assert Rounds(H0, p, 21)
           == State(0x9dc68b63, 0xe1f20c33, 0xfe777bbf, 0xc2fbd9d1, 0x8ada8930, 0xb0638179, 0xcc899961, 0x846ee454);
    RoundStep(p, 21);
    assert Rounds(H0, p, 22)
           == State(0xc2606d6d, 0x9dc68b63, 0xe1f20c33, 0xfe777bbf, 0xe1257970, 0x8ada8930, 0xb0638179, 0xcc899961);
    RoundStep(p, 22);
    assert Rounds(H0, p, 23)
           == State(0xa7a3623f, 0xc2606d6d, 0x9dc68b63, 0xe1f20c33, 0x49f5114a, 0xe1257970, 0x8ada8930, 0xb0638179);
    RoundStep(p, 23);
  }

  lemma Rounds32(p: seq<byte>)
    requires Block(p)
    ensures |p| == 64
    ensures Rounds(H0, p, 32)
           == State(0x73b33bf5, 0xea992a22, 0xa0060b30, 0x363482c9, 0xba591112, 0x0109ab3a, 0xade79437, 0x6112a3b7)
  {
    assert K(24) == 0x983e5152 && K(25) == 0xa831c66d && K(26) == 0xb00327c8 && K(27) == 0xbf597fc7;
    assert K(28) == 0xc6e00bf3 && K(29) == 0xd5a79147 && K(30) == 0x06ca6351 && K(31) == 0x14292967;
    hide Rounds, W, Block, K;
    BlockLength(p);
    Words24(p);
    Rounds24(p);
    RoundStep(p, 24);
    assert Rounds(H0, p, 25)
           == State(0x1c2c2838, 0xc5d53d8d, 0xa7a3623f, 0xc2606d6d, 0x2823ef91, 0xaa47c347, 0x49f5114a, 0xe1257970);
    RoundStep(p, 25);
    assert Rounds(H0, p, 26)
           == State(0xcde8037d, 0x1c2c2838, 0xc5d53d8d, 0xa7a3623f, 0x14383d8e, 0x2823ef91, 0xaa47c347, 0x49f5114a);
    RoundStep(p, 26);
    assert Rounds(H0, p, 27)
           == State(0xb62ec4bc, 0xcde8037d, 0x1c2c2838, 0xc5d53d8d, 0xc74c6516, 0x14383d8e, 0x2823ef91, 0xaa47c347);
    RoundStep(p, 27);
    assert Rounds(H0, p, 28)
           == State(0x77d37528, 0xb62ec4bc, 0xcde8037d, 0x1c2c2838, 0xedffbff8, 0xc74c6516, 0x14383d8e, 0x2823ef91);
    RoundStep(p, 28);
    assert Rounds(H0, p, 29)
           == State(0x363482c9, 0x77d37528, 0xb62ec4bc, 0xcde8037d, 0x6112a3b7, 0xedffbff8, 0xc74c6516, 0x14383d8e);
    RoundStep(p, 29);
    assert Rounds(H0, p, 30)
           == State(0xa0060b30, 0x363482c9, 0x77d37528, 0xb62ec4bc, 0xade79437, 0x6112a3b7, 0xedffbff8, 0xc74c6516);
    RoundStep(p, 30);
    assert Rounds(H0, p, 31)
           == State(0xea992a22, 0xa0060b30, 0x363482c9, 0x77d37528, 0x0109ab3a, 0xade79437, 0x6112a3b7, 0xedffbff8);
    RoundStep(p, 31);
  }

  lemma Rounds40(p: seq<byte>)
    requires Block(p)
    ensures |p| == 64
    ensures Rounds(H0, p, 40)
           == State(0x79ea687a, 0x6dc57a8a, 0x34df1604, 0x41a65cb1, 0x1efbc0a0, 0xf0781bc8, 0xa507a53d, 0x0772a26b)
  {
    assert K(32) == 0x27b70a85 && K(33) == 0x2e1b2138 && K(34) == 0x4d2c6dfc && K(35) == 0x53380d13;
    assert K(36) == 0x650a7354 && K(37) == 0x766a0abb && K(38) == 0x81c2c92e && K(39) == 0x92722c85;
    hide Rounds, W, Block, K;
    BlockLength(p);
    Words32(p);
    Rounds32(p);
    RoundStep(p, 32);
    assert Rounds(H0, p, 33)
           == State(0x98e12507, 0x73b33bf5, 0xea992a22, 0xa0060b30, 0x9cd9f5f6, 0xba591112, 0x0109ab3a, 0xade79437);
    RoundStep(p, 33);
    assert Rounds(H0, p, 34)
           == State(0xfe604df5, 0x98e12507, 0x73b33bf5, 0xea992a22, 0x59249dd3, 0x9cd9f5f6, 0xba591112, 0x0109ab3a);
    RoundStep(p, 34);
    assert Rounds(H0, p, 35)
           == State(0xa9a7738c, 0xfe604df5, 0x98e12507, 0x73b33bf5, 0x085f3833, 0x59249dd3, 0x9cd9f5f6, 0xba591112);
    RoundStep(p, 35);
    assert Rounds(H0, p, 36)
           == State(0x65a0cfe4, 0xa9a7738c, 0xfe604df5, 0x98e12507, 0xf4b002d6, 0x085f3833, 0x59249dd3, 0x9cd9f5f6);
    RoundStep(p, 36);
    assert Rounds(H0, p, 37)
           == State(0x41a65cb1, 0x65a0cfe4, 0xa9a7738c, 0xfe604df5, 0x0772a26b, 0xf4b002d6, 0x085f3833, 0x59249dd3);
    RoundStep(p, 37);
    assert Rounds(H0, p, 38)
           == State(0x34df1604, 0x41a65cb1, 0x65a0cfe4, 0xa9a7738c, 0xa507a53d, 0x0772a26b, 0xf4b002d6, 0x085f3833);
    RoundStep(p, 38);
    assert Rounds(H0, p, 39)
           == State(0x6dc57a8a, 0x34df1604, 0x41a65cb1, 0x65a0cfe4, 0xf0781bc8, 0xa507a53d, 0x0772a26b, 0xf4b002d6);
    RoundStep(p, 39);
  }

  lemma Rounds48(p: seq<byte>)
    requires Block(p)
    ensures |p| == 64
    ensures Rounds(H0, p, 48)
           == State(0x4172328d, 0xa14c14b0, 0x72ab4b91, 0x26628815, 0xfecf0bc6, 0xd57b94a9, 0xb7755da1, 0xa80f11f0)
  {
    assert K(40) == 0xa2bfe8a1 && K(41) == 0xa81a664b && K(42) == 0xc24b8b70 && K(43) == 0xc76c51a3;
    assert K(44) == 0xd192e819 && K(45) == 0xd6990624 && K(46) == 0xf40e3585 && K(47) == 0x106aa070;
    hide Rounds, W, Block, K;
    BlockLength(p);
    Words40(p);
    Rounds40(p);
    RoundStep(p, 40);
    assert Rounds(H0, p, 41)
           == State(0xd6670766, 0x79ea687a, 0x6dc57a8a, 0x34df1604, 0x26352d63, 0x1efbc0a0, 0xf0781bc8, 0xa507a53d);
    RoundStep(p, 41);
    assert Rounds(H0, p, 42)
           == State(0xdf46652f, 0xd6670766, 0x79ea687a, 0x6dc57a8a, 0x838b2711, 0x26352d63, 0x1efbc0a0, 0xf0781bc8);
    RoundStep(p, 42);
    assert Rounds(H0, p, 43)
           == State(0x17aa0dfe, 0xdf46652f, 0xd6670766, 0x79ea687a, 0xdecd4715, 0x838b2711, 0x26352d63, 0x1efbc0a0);
    RoundStep(p, 43);
    assert Rounds(H0, p, 44)
           == State(0x9d4baf93, 0x17aa0dfe, 0xdf46652f, 0xd6670766, 0xfda24c2e, 0xdecd4715, 0x838b2711, 0x26352d63);
    RoundStep(p, 44);
    assert Rounds(H0, p, 45)
           == State(0x26628815, 0x9d4baf93, 0x17aa0dfe, 0xdf46652f, 0xa80f11f0, 0xfda24c2e, 0xdecd4715, 0x838b2711);
    RoundStep(p, 45);
    assert Rounds(H0, p, 46)
           == State(0x72ab4b91, 0x26628815, 0x9d4baf93, 0x17aa0dfe, 0xb7755da1, 0xa80f11f0, 0xfda24c2e, 0xdecd4715);
    RoundStep(p, 46);
    assert Rounds(H0, p, 47)
           == State(0xa14c14b0, 0x72ab4b91, 0x26628815, 0x9d4baf93, 0xd57b94a9, 0xb7755da1, 0xa80f11f0, 0xfda24c2e);
    RoundStep(p, 47);
  }

  lemma Rounds56(p: seq<byte>)
    requires Block(p)
    ensures |p| == 64
    ensures Rounds(H0, p, 56)
           == State(0x38cc9913, 0x3ec45cdb, 0xf5702fdb, 0x101fd28f, 0x54cb266b, 0xe50e1b4f, 0x9f4787c3, 0x529e7d00)
  {
    assert K(48) == 0x19a4c116 && K(49) == 0x1e376c08 && K(50) == 0x2748774c && K(51) == 0x34b0bcb5;
    assert K(52) == 0x391c0cb3 && K(53) == 0x4ed8aa4a && K(54) == 0x5b9cca4f && K(55) == 0x682e6ff3;
    hide Rounds, W, Block, K;
    BlockLength(p);
    Words48(p);
    Rounds48(p);
    RoundStep(p, 48);
    assert Rounds(H0, p, 49)
           == State(0x05757ceb, 0x4172328d, 0xa14c14b0, 0x72ab4b91, 0xbd714038, 0xfecf0bc6, 0xd57b94a9, 0xb7755da1);
    RoundStep(p, 49);
    assert Rounds(H0, p, 50)
           == State(0xf11bfaa8, 0x05757ceb, 0x4172328d, 0xa14c14b0, 0x6e5c390c, 0xbd714038, 0xfecf0bc6, 0xd57b94a9);
    RoundStep(p, 50);
    assert Rounds(H0, p, 51)
           == State(0x7a0508a1, 0xf11bfaa8, 0x05757ceb, 0x4172328d, 0x52f1ccf7, 0x6e5c390c, 0xbd714038, 0xfecf0bc6);
    RoundStep(p, 51);
    assert Rounds(H0, p, 52)
           == State(0x886e7a22, 0x7a0508a1, 0xf11bfaa8, 0x05757ceb, 0x49231c1e, 0x52f1ccf7, 0x6e5c390c, 0xbd714038);
    RoundStep(p, 52);
    assert Rounds(H0, p, 53)
           == State(0x101fd28f, 0x886e7a22, 0x7a0508a1, 0xf11bfaa8, 0x529e7d00, 0x49231c1e, 0x52f1ccf7, 0x6e5c390c);
    RoundStep(p, 53);
    assert Rounds(H0, p, 54)
           == State(0xf5702fdb, 0x101fd28f, 0x886e7a22, 0x7a0508a1, 0x9f4787c3, 0x529e7d00, 0x49231c1e, 0x52f1ccf7);
    RoundStep(p, 54);
    assert Rounds(H0, p, 55)
           == State(0x3ec45cdb, 0xf5702fdb, 0x101fd28f, 0x886e7a22, 0xe50e1b4f, 0x9f4787c3, 0x529e7d00, 0x49231c1e);
    RoundStep(p, 55);
  }

  lemma Rounds64(p: seq<byte>)
    requires Block(p)
    ensures |p| == 64
    ensures Rounds(H0, p, 64)
           == State(0x506e3058, 0xd39a2165, 0x04d24d6c, 0xb85e2ce9, 0x5ef50f24, 0xfb121210, 0x948d25b6, 0x961f4894)
  {
    assert K(56) == 0x748f82ee && K(57) == 0x78a5636f && K(58) == 0x84c87814 && K(59) == 0x8cc70208;
    assert K(60) == 0x90befffa && K(61) == 0xa4506ceb && K(62) == 0xbef9a3f7 && K(63) == 0xc67178f2;
    hide Rounds, W, Block, K;
    BlockLength(p);
    Words56(p);
    Rounds56(p);
    RoundStep(p, 56);
    assert Rounds(H0, p, 57)
           == State(0xfcd1887b, 0x38cc9913, 0x3ec45cdb, 0xf5702fdb, 0x9b5e906c, 0x54cb266b, 0xe50e1b4f, 0x9f4787c3);
    RoundStep(p, 57);
    assert Rounds(H0, p, 58)
           == State(0xc062d46f, 0xfcd1887b, 0x38cc9913, 0x3ec45cdb, 0x7e44008e, 0x9b5e906c, 0x54cb266b, 0xe50e1b4f);
    RoundStep(p, 58);
    assert Rounds(H0, p, 59)
           == State(0xffb70472, 0xc062d46f, 0xfcd1887b, 0x38cc9913, 0x6d83bfc6, 0x7e44008e, 0x9b5e906c, 0x54cb266b);
    RoundStep(p, 59);
    assert Rounds(H0, p, 60)
           == State(0xb6ae8fff, 0xffb70472, 0xc062d46f, 0xfcd1887b, 0xb21bad3d, 0x6d83bfc6, 0x7e44008e, 0x9b5e906c);
    RoundStep(p, 60);
    assert Rounds(H0, p, 61)
           == State(0xb85e2ce9, 0xb6ae8fff, 0xffb70472, 0xc062d46f, 0x961f4894, 0xb21bad3d, 0x6d83bfc6, 0x7e44008e);
    RoundStep(p, 61);
    assert Rounds(H0, p, 62)
           == State(0x04d24d6c, 0xb85e2ce9, 0xb6ae8fff, 0xffb70472, 0x948d25b6, 0x961f4894, 0xb21bad3d, 0x6d83bfc6);
    RoundStep(p, 62);
    assert Rounds(H0, p, 63)
           == State(0xd39a2165, 0x04d24d6c, 0xb85e2ce9, 0xb6ae8fff, 0xfb121210, 0x948d25b6, 0x961f4894, 0xb21bad3d);
    RoundStep(p, 63);
  }

  const DIGEST := State(0xba7816bf, 0x8f01cfea, 0x414140de, 0x5dae2223, 0xb00361a3, 0x96177a9c, 0xb410ff61, 0xf20015ad)

  lemma LastSum(s: State)
    requires s == State(0x506e3058, 0xd39a2165, 0x04d24d6c, 0xb85e2ce9, 0x5ef50f24, 0xfb121210, 0x948d25b6, 0x961f4894)
    ensures Plus(H0, s) == DIGEST
  {
  }

  /** The digest of "abc". */
  lemma AbcHash()
    ensures Hash(ABC) == DIGEST
  {
    hide Pad, Rounds, Plus, H0, DIGEST;
    PaddedIsBlock();
    var p := Pad(ABC);
    Rounds64(p);
    LastSum(Rounds(H0, p, 64));
    assert p[64 * 0..64 * 1] == p;
    OneBlock(p);
  }

  lemma OneBlock(p: seq<byte>)
    requires |p| == 64
    ensures Blocks(H0, p, 1) == Compress(H0, p[64 * 0..64 * 1])
  {
    hide Compress;
    assert Blocks(H0, p, 0) == H0;
  }

  lemma Hex0()
    ensures HexWord(0xba7816bf) == "ba7816bf"
  {
    HexDigits(0xba7816bf);
    hide HexWord;
  }

  lemma Hex1()
    ensures HexWord(0x8f01cfea) == "8f01cfea"
  {
    HexDigits(0x8f01cfea);
    hide HexWord;
  }

  lemma Hex2()
    ensures HexWord(0x414140de) == "414140de"
  {
    HexDigits(0x414140de);
    hide HexWord;
  }

  lemma Hex3()
    ensures HexWord(0x5dae2223) == "5dae2223"
  {
    HexDigits(0x5dae2223);
    hide HexWord;
  }

  lemma Hex4()
    ensures HexWord(0xb00361a3) == "b00361a3"
  {
    HexDigits(0xb00361a3);
    hide HexWord;
  }

  lemma Hex5()
    ensures HexWord(0x96177a9c) == "96177a9c"
  {
    HexDigits(0x96177a9c);
    hide HexWord;
  }

  lemma Hex6()
    ensures HexWord(0xb410ff61) == "b410ff61"
  {
    HexDigits(0xb410ff61);
    hide HexWord;
  }

  lemma Hex7()
    ensures HexWord(0xf20015ad) == "f20015ad"
  {
    HexDigits(0xf20015ad);
    hide HexWord;
  }

  lemma HexDigits(x: word)
    ensures HexWord(x) == HexByte(ByteOf(x, 0)) + HexByte(ByteOf(x, 1)) + HexByte(ByteOf(x, 2)) + HexByte(ByteOf(x, 3))
  {
    hide HexByte, ByteOf;
    assert HexUpTo(x, 1) == HexByte(ByteOf(x, 0));
    assert HexUpTo(x, 3) == HexUpTo(x, 2) + HexByte(ByteOf(x, 2));
  }

  lemma HexPrepend(x: word, ws: seq<word>)
    ensures HexAll([x] + ws) == HexWord(x) + HexAll(ws)
  {
    hide HexWord;
    assert ([x] + ws)[1..] == ws;
  }

  lemma {:induction false} HexJoined(x: seq<word>, y: seq<word>)
    ensures HexAll(x + y) == HexAll(x) + HexAll(y)
  {
    hide HexWord;
    if x == [] {
      assert x + y == y;
    } else {
      assert (x + y)[1..] == x[1..] + y;
      HexJoined(x[1..], y);
    }
  }

  lemma HexTwo(x: word, y: word)
    ensures HexAll([x, y]) == HexWord(x) + HexWord(y)
  {
    hide HexWord;
    HexPrepend(x, [y]);
    HexPrepend(y, []);
    assert [x] + [y] == [x, y] && [y] + [] == [y];
  }

  /** And its text. */
  lemma AbcHex()
    ensures Hex(Hash(ABC)) == ("ba7816bf" + "8f01cfea") + ("414140de" + "5dae2223") + ("b00361a3" + "96177a9c")
            + ("b410ff61" + "f20015ad")
  {
    AbcHash();
    hide Hash, HexWord, HexAll;
    Hex0();
    Hex1();
    Hex2();
    Hex3();
    Hex4();
    Hex5();
    Hex6();
    Hex7();
    HexTwo(DIGEST.a, DIGEST.b);
    HexTwo(DIGEST.c, DIGEST.d);
    HexTwo(DIGEST.e, DIGEST.f);
    HexTwo(DIGEST.g, DIGEST.h);
    var ab, cd, ef, gh := [DIGEST.a, DIGEST.b], [DIGEST.c, DIGEST.d], [DIGEST.e, DIGEST.f], [DIGEST.g, DIGEST.h];
    HexJoined(ab, cd);
    HexJoined(ab + cd, ef);
    HexJoined(ab + cd + ef, gh);
    assert Words(DIGEST) == ab + cd + ef + gh;
  }
}
