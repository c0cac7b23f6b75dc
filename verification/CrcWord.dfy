/**
  The CRC register as the machine word it is, and what a message followed by its
  own CRC leaves in it.
 */
module CrcWord {
  import opened Bits
  import opened Crc

  function Half(x: bv32): bv32
  {
    x >> 1
  }

  /** `x` shifted right `i` times. */
  function Down1(x: bv32, i: nat): bv32
  {
    if i == 0 then x else Half(Down1(x, i - 1))
  }

  function Bit(x: bv32): bit
  {
    if x & 1 == 1 then 1 else 0
  }

  /** The register of a machine word. */
  function Word(x: bv32): (w: word)
    ensures forall i :: 0 <= i < 32 ==> w[i] == Bit(Down1(x, i))
  {
    seq(32, i requires 0 <= i < 32 => Bit(Down1(x, i)))
  }

  function TurnWord(x: bv32): bv32
  {
    if x & 1 == 1 then (x >> 1) ^ 0xEDB88320 else x >> 1
  }

  lemma {:induction false} DownMore(x: bv32, i: nat, j: nat)
    ensures Down1(Down1(x, i), j) == Down1(x, i + j)
    decreases j
  {
    hide Half;
    if j > 0 {
      DownMore(x, i, j - 1);
    }
  }

  lemma DownStep(x: bv32, i: nat)
    ensures Down1(x, i + 1) == Half(Down1(x, i)) && Down1(x, 0) == x
  {
  }

  function Four(x: bv32): bv32
  {
    x >> 4
  }

  lemma FourHalves(x: bv32)
    ensures Half(Half(Half(Half(x)))) == Four(x)
  {
  }

  lemma DownFour(x: bv32)
    ensures Down1(x, 4) == Four(x)
  {
    hide Half, Four, Down1;
    FourHalves(x);
    DownStep(x, 0);
    DownStep(x, 1);
    DownStep(x, 2);
    DownStep(x, 3);
  }

  function Sixteen(x: bv32): bv32
  {
    Four(Four(Four(Four(x))))
  }

  lemma NothingLeft(x: bv32)
    ensures Sixteen(Sixteen(x)) == 0
  {
  }

  lemma DownSixteen(x: bv32)
    ensures Down1(x, 16) == Sixteen(x)
  {
    hide Down1, Four;
    DownFour(x);
    DownMore(x, 4, 4);
    DownFour(Four(x));
    DownMore(x, 8, 4);
    DownFour(Four(Four(x)));
    DownMore(x, 12, 4);
    DownFour(Four(Four(Four(x))));
  }

  lemma DownAll(x: bv32)
    ensures Down1(x, 32) == 0
  {
    hide Down1, Sixteen;
    NothingLeft(x);
    DownSixteen(x);
    DownSixteen(Sixteen(x));
    DownMore(x, 16, 16);
  }

  function Xor(x: bv32, y: bv32): bv32
  {
    x ^ y
  }

  lemma HalfXor(x: bv32, y: bv32)
    ensures Half(Xor(x, y)) == Xor(Half(x), Half(y))
  {
  }

  lemma {:induction false} DownXor(x: bv32, y: bv32, i: nat)
    ensures Down1(Xor(x, y), i) == Xor(Down1(x, i), Down1(y, i))
  {
    hide Half, Xor;
    if i > 0 {
      DownXor(x, y, i - 1);
      HalfXor(Down1(x, i - 1), Down1(y, i - 1));
    }
  }

  lemma XorBit(a: bv32, b: bv32)
    ensures Bit(Xor(a, b)) == Flip(Bit(a), Bit(b))
  {
  }

  lemma ShiftWord(x: bv32)
    ensures ShiftRight(Word(x)) == Word(Half(x))
  {
    assert Bit(0) == 0;
    hide Down1, Word, Bit, Half;
    DownStep(x, 0);
    DownAll(x);
    var a, b := ShiftRight(Word(x)), Word(Half(x));
    forall i | 0 <= i < 32
      ensures a[i] == b[i]
    {
      DownMore(x, 1, i);
      assert i < 31 ==> a[i] == Word(x)[i + 1];
    }
  }

  lemma XorWord(x: bv32, y: bv32)
    ensures XorLow(Word(x), Word(y)) == Word(Xor(x, y))
  {
    hide Down1, Bit, Word, XorLow, Flip, Xor;
    var a, b := XorLow(Word(x), Word(y)), Word(Xor(x, y));
    forall i | 0 <= i < 32
      ensures a[i] == b[i]
    {
      DownXor(x, y, i);
      XorBit(Down1(x, i), Down1(y, i));
    }
  }

  /** The generator, reflected, is 0xEDB88320. */
  lemma PolyWord()
    ensures POLY == Word(0xEDB88320)
  {
    hide Down1, Bit, POLY, Word;
    var w := Word(0xEDB88320);
    forall i | 0 <= i < 32
      ensures POLY[i] == w[i]
    {
      if i < 8 {
        PolyAt0(i);
      } else if i < 16 {
        PolyAt8(i);
      } else if i < 24 {
        PolyAt16(i);
      } else {
        PolyAt24(i);
      }
    }
  }

  lemma PolyAt0(i: nat)
    requires 0 <= i < 8
    ensures POLY[i] == Bit(Down1(0xEDB88320, i))
  {
    hide Down1, Bit;
    assert POLY[0] == 0 && POLY[1] == 0 && POLY[2] == 0 && POLY[3] == 0;
    assert POLY[4] == 0 && POLY[5] == 1 && POLY[6] == 0 && POLY[7] == 0;
    hide POLY;
    PolyBits0();
  }

  lemma PolyAt8(i: nat)
    requires 8 <= i < 16
    ensures POLY[i] == Bit(Down1(0xEDB88320, i))
  {
    hide Down1, Bit;
    assert POLY[8] == 1 && POLY[9] == 1 && POLY[10] == 0 && POLY[11] == 0;
    assert POLY[12] == 0 && POLY[13] == 0 && POLY[14] == 0 && POLY[15] == 1;
    hide POLY;
    PolyBits8();
  }

  lemma PolyAt16(i: nat)
    requires 16 <= i < 24
    ensures POLY[i] == Bit(Down1(0xEDB88320, i))
  {
    hide Down1, Bit;
    assert POLY[16] == 0 && POLY[17] == 0 && POLY[18] == 0 && POLY[19] == 1;
    assert POLY[20] == 1 && POLY[21] == 1 && POLY[22] == 0 && POLY[23] == 1;
    hide POLY;
    PolyBits16();
  }

  lemma PolyAt24(i: nat)
    requires 24 <= i < 32
    ensures POLY[i] == Bit(Down1(0xEDB88320, i))
  {
    hide Down1, Bit;
    assert POLY[24] == 1 && POLY[25] == 0 && POLY[26] == 1 && POLY[27] == 1;
    assert POLY[28] == 0 && POLY[29] == 1 && POLY[30] == 1 && POLY[31] == 1;
    hide POLY;
    PolyBits24();
  }

  lemma PolyBits0()
    ensures Bit(Down1(0xEDB88320, 0)) == 0 && Bit(Down1(0xEDB88320, 1)) == 0 && Bit(Down1(0xEDB88320, 2)) == 0
            && Bit(Down1(0xEDB88320, 3)) == 0 && Bit(Down1(0xEDB88320, 4)) == 0 && Bit(Down1(0xEDB88320, 5)) == 1
            && Bit(Down1(0xEDB88320, 6)) == 0 && Bit(Down1(0xEDB88320, 7)) == 0
  {
    assert Down1(0xEDB88320, 1) == 0x76DC4190;
    assert Down1(0xEDB88320, 2) == 0x3B6E20C8;
    assert Down1(0xEDB88320, 3) == 0x1DB71064;
    assert Down1(0xEDB88320, 4) == 0xEDB8832;
    assert Down1(0xEDB88320, 5) == 0x76DC419;
    assert Down1(0xEDB88320, 6) == 0x3B6E20C;
    assert Down1(0xEDB88320, 7) == 0x1DB7106;
  }

  lemma PolyBits8()
    ensures Bit(Down1(0xEDB88320, 8)) == 1 && Bit(Down1(0xEDB88320, 9)) == 1 && Bit(Down1(0xEDB88320, 10)) == 0
            && Bit(Down1(0xEDB88320, 11)) == 0 && Bit(Down1(0xEDB88320, 12)) == 0 && Bit(Down1(0xEDB88320, 13)) == 0
            && Bit(Down1(0xEDB88320, 14)) == 0 && Bit(Down1(0xEDB88320, 15)) == 1
  {
    DownTo8();
    assert Down1(0xEDB88320, 9) == 0x76DC41;
    assert Down1(0xEDB88320, 10) == 0x3B6E20;
    assert Down1(0xEDB88320, 11) == 0x1DB710;
    assert Down1(0xEDB88320, 12) == 0xEDB88;
    assert Down1(0xEDB88320, 13) == 0x76DC4;
    assert Down1(0xEDB88320, 14) == 0x3B6E2;
    assert Down1(0xEDB88320, 15) == 0x1DB71;
  }

  lemma PolyBits16()
    ensures Bit(Down1(0xEDB88320, 16)) == 0 && Bit(Down1(0xEDB88320, 17)) == 0 && Bit(Down1(0xEDB88320, 18)) == 0
            && Bit(Down1(0xEDB88320, 19)) == 1 && Bit(Down1(0xEDB88320, 20)) == 1 && Bit(Down1(0xEDB88320, 21)) == 1
            && Bit(Down1(0xEDB88320, 22)) == 0 && Bit(Down1(0xEDB88320, 23)) == 1
  {
    DownTo16();
    assert Down1(0xEDB88320, 17) == 0x76DC;
    assert Down1(0xEDB88320, 18) == 0x3B6E;
    assert Down1(0xEDB88320, 19) == 0x1DB7;
    assert Down1(0xEDB88320, 20) == 0xEDB;
    assert Down1(0xEDB88320, 21) == 0x76D;
    assert Down1(0xEDB88320, 22) == 0x3B6;
    assert Down1(0xEDB88320, 23) == 0x1DB;
  }

  lemma PolyBits24()
    ensures Bit(Down1(0xEDB88320, 24)) == 1 && Bit(Down1(0xEDB88320, 25)) == 0 && Bit(Down1(0xEDB88320, 26)) == 1
            && Bit(Down1(0xEDB88320, 27)) == 1 && Bit(Down1(0xEDB88320, 28)) == 0 && Bit(Down1(0xEDB88320, 29)) == 1
            && Bit(Down1(0xEDB88320, 30)) == 1 && Bit(Down1(0xEDB88320, 31)) == 1
  {
    DownTo24();
    assert Down1(0xEDB88320, 25) == 0x76;
    assert Down1(0xEDB88320, 26) == 0x3B;
    assert Down1(0xEDB88320, 27) == 0x1D;
    assert Down1(0xEDB88320, 28) == 0xE;
    assert Down1(0xEDB88320, 29) == 0x7;
    assert Down1(0xEDB88320, 30) == 0x3;
    assert Down1(0xEDB88320, 31) == 0x1;
  }

  lemma DownTo8()
    ensures Down1(0xEDB88320, 8) == 0xEDB883
  {
    hide Down1;
    DownFour(0xEDB88320);
    DownFour(0xEDB8832);
    DownMore(0xEDB88320, 0, 4);
    DownMore(0xEDB88320, 4, 4);
    DownNone();
  }

  lemma DownTo16()
    ensures Down1(0xEDB88320, 16) == 0xEDB8
  {
    hide Down1;
    DownTo8();
    DownFour(0xEDB883);
    DownFour(0xEDB88);
    DownMore(0xEDB88320, 8, 4);
    DownMore(0xEDB88320, 12, 4);
  }

  lemma DownTo24()
    ensures Down1(0xEDB88320, 24) == 0xED
  {
    hide Down1;
    DownTo16();
    DownFour(0xEDB8);
    DownFour(0xEDB);
    DownMore(0xEDB88320, 16, 4);
    DownMore(0xEDB88320, 20, 4);
  }

  lemma DownNone()
    ensures Down1(0xEDB88320, 0) == 0xEDB88320
  {
  }

  lemma TurnWordIs(x: bv32)
    ensures TurnWord(x) == if Bit(x) == 1 then Xor(Half(x), 0xEDB88320) else Half(x)
  {
  }

  /** One turn, on the machine word. */
  lemma TurnOfWord(x: bv32)
    ensures Turn(Word(x)) == Word(TurnWord(x))
  {
    hide Word, POLY, XorLow, ShiftRight, Down1, Half, Xor, Bit, TurnWord;
    TurnWordIs(x);
    ShiftWord(x);
    PolyWord();
    XorWord(Half(x), 0xEDB88320);
    DownStep(x, 0);
    assert Word(x)[0] == Bit(x);
  }

  function TurnsWord(x: bv32, n: nat): bv32
    decreases n
  {
    if n == 0 then x else TurnsWord(TurnWord(x), n - 1)
  }

  lemma {:induction false} TurnsOfWord(x: bv32, n: nat)
    ensures Turns(Word(x), n) == Word(TurnsWord(x, n))
    decreases n
  {
    hide Word, Turn, TurnWord;
    if n > 0 {
      TurnOfWord(x);
      TurnsOfWord(TurnWord(x), n - 1);
    }
  }

  lemma {:induction false} TurnsMore(x: bv32, n: nat, m: nat)
    ensures TurnsWord(x, n + m) == TurnsWord(TurnsWord(x, n), m)
    decreases n
  {
    hide TurnWord;
    if n > 0 {
      TurnsMore(TurnWord(x), n - 1, m);
    }
  }

  lemma TurnsOne(x: bv32, n: nat)
    ensures TurnsWord(x, n + 1) == TurnsWord(TurnWord(x), n) && TurnsWord(x, 0) == x
  {
  }

  lemma FourTurns(x: bv32)
    ensures TurnsWord(x, 4) == TurnWord(TurnWord(TurnWord(TurnWord(x))))
  {
    hide TurnWord, TurnsWord;
    TurnsOne(x, 3);
    TurnsOne(TurnWord(x), 2);
    TurnsOne(TurnWord(TurnWord(x)), 1);
    TurnsOne(TurnWord(TurnWord(TurnWord(x))), 0);
    TurnsOne(TurnWord(TurnWord(TurnWord(TurnWord(x)))), 0);
  }

  lemma Turns0()
    ensures TurnsWord(0xFFFFFFFF, 4) == 0xB2420DE3
  {
    FourTurns(0xFFFFFFFF);
    hide TurnsWord;
  }

  lemma Turns4()
    ensures TurnsWord(0xB2420DE3, 4) == 0x2DFD1072
  {
    FourTurns(0xB2420DE3);
    hide TurnsWord;
  }

  lemma Turns8()
    ensures TurnsWord(0x2DFD1072, 4) == 0x39B1F1CF
  {
    FourTurns(0x2DFD1072);
    hide TurnsWord;
  }

  lemma Turns12()
    ensures TurnsWord(0x39B1F1CF, 4) == 0xBE26ED00
  {
    FourTurns(0x39B1F1CF);
    hide TurnsWord;
  }

  lemma Turns16()
    ensures TurnsWord(0xBE26ED00, 4) == 0x0BE26ED0
  {
    FourTurns(0xBE26ED00);
    hide TurnsWord;
  }

  lemma Turns20()
    ensures TurnsWord(0x0BE26ED0, 4) == 0x00BE26ED
  {
    FourTurns(0x0BE26ED0);
    hide TurnsWord;
  }

  lemma Turns24()
    ensures TurnsWord(0x00BE26ED, 4) == 0x86D830BA
  {
    FourTurns(0x00BE26ED);
    hide TurnsWord;
  }

  lemma Turns28()
    ensures TurnsWord(0x86D830BA, 4) == 0xDEBB20E3
  {
    FourTurns(0x86D830BA);
    hide TurnsWord;
  }

  lemma ResidueTurns()
    ensures TurnsWord(0xFFFFFFFF, 32) == 0xDEBB20E3
  {
    hide TurnsWord;
    Turns0();
    TurnsMore(0xFFFFFFFF, 4, 28);
    Turns4();
    TurnsMore(0xB2420DE3, 4, 24);
    Turns8();
    TurnsMore(0x2DFD1072, 4, 20);
    Turns12();
    TurnsMore(0x39B1F1CF, 4, 16);
    Turns16();
    TurnsMore(0xBE26ED00, 4, 12);
    Turns20();
    TurnsMore(0x0BE26ED0, 4, 8);
    Turns24();
    TurnsMore(0x00BE26ED, 4, 4);
    Turns28();
  }

  lemma OnesWord()
    ensures ONES == Word(0xFFFFFFFF)
  {
    forall i | 0 <= i < 32
      ensures Bit(Down1(0xFFFFFFFF, i)) == 1
    {
      OnesDown(i);
    }
    hide Down1, Bit;
  }

  lemma {:induction false} OnesDown(i: nat)
    requires i < 32
    ensures Bit(Down1(0xFFFFFFFF, i)) == 1
  {
    hide Down1, Bit;
    if i < 8 {
      OnesDown0();
    } else if i < 16 {
      OnesDown8();
    } else if i < 24 {
      OnesDown16();
    } else {
      OnesDown24();
    }
  }

  lemma OnesDown0()
    ensures Bit(Down1(0xFFFFFFFF, 0)) == 1 && Bit(Down1(0xFFFFFFFF, 1)) == 1 && Bit(Down1(0xFFFFFFFF, 2)) == 1
            && Bit(Down1(0xFFFFFFFF, 3)) == 1 && Bit(Down1(0xFFFFFFFF, 4)) == 1 && Bit(Down1(0xFFFFFFFF, 5)) == 1
            && Bit(Down1(0xFFFFFFFF, 6)) == 1 && Bit(Down1(0xFFFFFFFF, 7)) == 1
  {
    assert Down1(0xFFFFFFFF, 1) == 0x7FFFFFFF;
    assert Down1(0xFFFFFFFF, 2) == 0x3FFFFFFF;
    assert Down1(0xFFFFFFFF, 3) == 0x1FFFFFFF;
    assert Down1(0xFFFFFFFF, 4) == 0xFFFFFFF;
    assert Down1(0xFFFFFFFF, 5) == 0x7FFFFFF;
    assert Down1(0xFFFFFFFF, 6) == 0x3FFFFFF;
    assert Down1(0xFFFFFFFF, 7) == 0x1FFFFFF;
  }

  lemma OnesDown8()
    ensures Bit(Down1(0xFFFFFFFF, 8)) == 1 && Bit(Down1(0xFFFFFFFF, 9)) == 1 && Bit(Down1(0xFFFFFFFF, 10)) == 1
            && Bit(Down1(0xFFFFFFFF, 11)) == 1 && Bit(Down1(0xFFFFFFFF, 12)) == 1
            && Bit(Down1(0xFFFFFFFF, 13)) == 1 && Bit(Down1(0xFFFFFFFF, 14)) == 1 && Bit(Down1(0xFFFFFFFF, 15)) == 1
  {
    OnesTo8();
    assert Down1(0xFFFFFFFF, 9) == 0x7FFFFF;
    assert Down1(0xFFFFFFFF, 10) == 0x3FFFFF;
    assert Down1(0xFFFFFFFF, 11) == 0x1FFFFF;
    assert Down1(0xFFFFFFFF, 12) == 0xFFFFF;
    assert Down1(0xFFFFFFFF, 13) == 0x7FFFF;
    assert Down1(0xFFFFFFFF, 14) == 0x3FFFF;
    assert Down1(0xFFFFFFFF, 15) == 0x1FFFF;
  }

  lemma OnesDown16()
    ensures Bit(Down1(0xFFFFFFFF, 16)) == 1 && Bit(Down1(0xFFFFFFFF, 17)) == 1 && Bit(Down1(0xFFFFFFFF, 18)) == 1
            && Bit(Down1(0xFFFFFFFF, 19)) == 1 && Bit(Down1(0xFFFFFFFF, 20)) == 1
            && Bit(Down1(0xFFFFFFFF, 21)) == 1 && Bit(Down1(0xFFFFFFFF, 22)) == 1 && Bit(Down1(0xFFFFFFFF, 23)) == 1
  {
    OnesTo16();
    assert Down1(0xFFFFFFFF, 17) == 0x7FFF;
    assert Down1(0xFFFFFFFF, 18) == 0x3FFF;
    assert Down1(0xFFFFFFFF, 19) == 0x1FFF;
    assert Down1(0xFFFFFFFF, 20) == 0xFFF;
    assert Down1(0xFFFFFFFF, 21) == 0x7FF;
    assert Down1(0xFFFFFFFF, 22) == 0x3FF;
    assert Down1(0xFFFFFFFF, 23) == 0x1FF;
  }

  lemma OnesDown24()
    ensures Bit(Down1(0xFFFFFFFF, 24)) == 1 && Bit(Down1(0xFFFFFFFF, 25)) == 1 && Bit(Down1(0xFFFFFFFF, 26)) == 1
            && Bit(Down1(0xFFFFFFFF, 27)) == 1 && Bit(Down1(0xFFFFFFFF, 28)) == 1
            && Bit(Down1(0xFFFFFFFF, 29)) == 1 && Bit(Down1(0xFFFFFFFF, 30)) == 1 && Bit(Down1(0xFFFFFFFF, 31)) == 1
  {
    OnesTo24();
    assert Down1(0xFFFFFFFF, 25) == 0x7F;
    assert Down1(0xFFFFFFFF, 26) == 0x3F;
    assert Down1(0xFFFFFFFF, 27) == 0x1F;
    assert Down1(0xFFFFFFFF, 28) == 0xF;
    assert Down1(0xFFFFFFFF, 29) == 0x7;
    assert Down1(0xFFFFFFFF, 30) == 0x3;
    assert Down1(0xFFFFFFFF, 31) == 0x1;
  }

  lemma OnesTo8()
    ensures Down1(0xFFFFFFFF, 8) == 0xFFFFFF
  {
    assert Down1(0xFFFFFFFF, 0) == 0xFFFFFFFF;
    hide Down1;
    DownFour(0xFFFFFFFF);
    DownFour(0xFFFFFFF);
    DownMore(0xFFFFFFFF, 0, 4);
    DownMore(0xFFFFFFFF, 4, 4);
  }

  lemma OnesTo16()
    ensures Down1(0xFFFFFFFF, 16) == 0xFFFF
  {
    OnesTo8();
    hide Down1;
    DownFour(0xFFFFFF);
    DownFour(0xFFFFF);
    DownMore(0xFFFFFFFF, 8, 4);
    DownMore(0xFFFFFFFF, 12, 4);
  }

  lemma OnesTo24()
    ensures Down1(0xFFFFFFFF, 24) == 0xFF
  {
    OnesTo16();
    hide Down1;
    DownFour(0xFFFF);
    DownFour(0xFFF);
    DownMore(0xFFFFFFFF, 16, 4);
    DownMore(0xFFFFFFFF, 20, 4);
  }

  // ---- the residue --------------------------------------------------------------------------

  /** Feeding a register its own complement sets every bit and turns 32 times. */
  lemma FeedComplement(c: word)
    ensures FeedAll(c, Complement(c)) == Turns(ONES, 32)
  {
    hide Turns, FeedAll, POLY;
    LoadThenShift(c, Complement(c));
    assert XorLow(c, Complement(c)) == ONES;
  }

  /** Any message followed by its own CRC leaves the register at 0xDEBB20E3. */
  lemma Residue(data: seq<byte>, trailer: seq<byte>)
    requires Stream(trailer) == Crc32(data)
    ensures FeedAll(ONES, Stream(data + trailer)) == Word(0xDEBB20E3)
  {
    hide FeedAll, Stream, Turns, TurnsWord, Complement, ONES, Word;
    StreamJoined(data, trailer);
    FeedAppend(ONES, Stream(data), Stream(trailer));
    FeedComplement(FeedAll(ONES, Stream(data)));
    OnesWord();
    TurnsOfWord(0xFFFFFFFF, 32);
    ResidueTurns();
  }
}
