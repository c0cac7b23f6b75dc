/**
  What the functions of section 4.1.2 of FIPS 180-4 do to the bits of a word.
 */
module Sha256Numbers {
  import opened Sha256

  // ---- section 4.1.2 ----------------------------------------------------------------------

  /** On whatever bits of `m` the first has, the second is chosen; where it has none, the third. */
  lemma Choice(x: word, y: word, z: word, m: word)
    ensures x & m == m ==> Ch(x, y, z) & m == y & m
    ensures x & m == 0 ==> Ch(x, y, z) & m == z & m
  {
  }

  /** On whatever bits two agree, that is the majority. */
  lemma Majority(x: word, y: word, z: word, m: word)
    ensures x & m == y & m ==> Maj(x, y, z) & m == x & m
    ensures x & m == z & m ==> Maj(x, y, z) & m == x & m
    ensures y & m == z & m ==> Maj(x, y, z) & m == y & m
  {
    MajOfTwo(x, y, z, m);
    MajOfTwo(x, z, y, m);
    MajOfTwo(y, z, x, m);
    MajSwaps(x, y, z);
    hide Maj;
  }

  lemma MajOfTwo(x: word, y: word, z: word, m: word)
    ensures x & m == y & m ==> Maj(x, y, z) & m == x & m
  {
  }

  lemma MajSwaps(x: word, y: word, z: word)
    ensures Maj(x, z, y) == Maj(x, y, z) && Maj(y, z, x) == Maj(x, y, z)
  {
  }

  /** Round by one bit. */
  function Turn(x: word): word
  {
    (x >> 1) | (x << 31)
  }

  lemma XorAssoc(a: word, b: word, c: word)
    ensures Xor(Xor(a, b), c) == Xor(a, Xor(b, c))
  {
  }

  lemma XorComm(a: word, b: word)
    ensures Xor(a, b) == Xor(b, a)
  {
  }

  lemma XorPairs(a: word, b: word, c: word, d: word)
    ensures Xor(Xor(a, b), Xor(c, d)) == Xor(Xor(a, c), Xor(b, d))
  {
    hide Xor;
    XorAssoc(a, b, Xor(c, d));
    XorAssoc(b, c, d);
    XorComm(b, c);
    XorAssoc(c, b, d);
    XorAssoc(a, c, Xor(b, d));
  }

  lemma TurnXor(x: word, y: word)
    ensures Turn(Xor(x, y)) == Xor(Turn(x), Turn(y))
  {
  }

  function Next2(x: word): word { (x >> 3) | (x << 29) }

  lemma Rotr2OfTurn(x: word)
    ensures Rotr2(Turn(x)) == Next2(x)
  {
  }

  lemma TurnOfRotr2(x: word)
    ensures Turn(Rotr2(x)) == Next2(x)
  {
  }

  lemma Rotr2Turn(x: word)
    ensures Rotr2(Turn(x)) == Turn(Rotr2(x))
  {
    hide Rotr2, Turn, Next2;
    Rotr2OfTurn(x);
    TurnOfRotr2(x);
  }

  lemma Rotr2Xor(x: word, y: word)
    ensures Rotr2(Xor(x, y)) == Xor(Rotr2(x), Rotr2(y))
  {
  }

  function Next6(x: word): word { (x >> 7) | (x << 25) }

  lemma Rotr6OfTurn(x: word)
    ensures Rotr6(Turn(x)) == Next6(x)
  {
  }

  lemma TurnOfRotr6(x: word)
    ensures Turn(Rotr6(x)) == Next6(x)
  {
  }

  lemma Rotr6Turn(x: word)
    ensures Rotr6(Turn(x)) == Turn(Rotr6(x))
  {
    hide Rotr6, Turn, Next6;
    Rotr6OfTurn(x);
    TurnOfRotr6(x);
  }

  lemma Rotr6Xor(x: word, y: word)
    ensures Rotr6(Xor(x, y)) == Xor(Rotr6(x), Rotr6(y))
  {
  }

  function Next7(x: word): word { (x >> 8) | (x << 24) }

  lemma Rotr7OfTurn(x: word)
    ensures Rotr7(Turn(x)) == Next7(x)
  {
  }

  lemma TurnOfRotr7(x: word)
    ensures Turn(Rotr7(x)) == Next7(x)
  {
  }

  lemma Rotr7Turn(x: word)
    ensures Rotr7(Turn(x)) == Turn(Rotr7(x))
  {
    hide Rotr7, Turn, Next7;
    Rotr7OfTurn(x);
    TurnOfRotr7(x);
  }

  lemma Rotr7Xor(x: word, y: word)
    ensures Rotr7(Xor(x, y)) == Xor(Rotr7(x), Rotr7(y))
  {
  }

  function Next11(x: word): word { (x >> 12) | (x << 20) }

  lemma Rotr11OfTurn(x: word)
    ensures Rotr11(Turn(x)) == Next11(x)
  {
  }

  lemma TurnOfRotr11(x: word)
    ensures Turn(Rotr11(x)) == Next11(x)
  {
  }

  lemma Rotr11Turn(x: word)
    ensures Rotr11(Turn(x)) == Turn(Rotr11(x))
  {
    hide Rotr11, Turn, Next11;
    Rotr11OfTurn(x);
    TurnOfRotr11(x);
  }

  lemma Rotr11Xor(x: word, y: word)
    ensures Rotr11(Xor(x, y)) == Xor(Rotr11(x), Rotr11(y))
  {
  }

  function Next13(x: word): word { (x >> 14) | (x << 18) }

  lemma Rotr13OfTurn(x: word)
    ensures Rotr13(Turn(x)) == Next13(x)
  {
  }

  lemma TurnOfRotr13(x: word)
    ensures Turn(Rotr13(x)) == Next13(x)
  {
  }

  lemma Rotr13Turn(x: word)
    ensures Rotr13(Turn(x)) == Turn(Rotr13(x))
  {
    hide Rotr13, Turn, Next13;
    Rotr13OfTurn(x);
    TurnOfRotr13(x);
  }

  lemma Rotr13Xor(x: word, y: word)
    ensures Rotr13(Xor(x, y)) == Xor(Rotr13(x), Rotr13(y))
  {
  }

  function Next17(x: word): word { (x >> 18) | (x << 14) }

  lemma Rotr17OfTurn(x: word)
    ensures Rotr17(Turn(x)) == Next17(x)
  {
  }

  lemma TurnOfRotr17(x: word)
    ensures Turn(Rotr17(x)) == Next17(x)
  {
  }

  lemma Rotr17Turn(x: word)
    ensures Rotr17(Turn(x)) == Turn(Rotr17(x))
  {
    hide Rotr17, Turn, Next17;
    Rotr17OfTurn(x);
    TurnOfRotr17(x);
  }

  lemma Rotr17Xor(x: word, y: word)
    ensures Rotr17(Xor(x, y)) == Xor(Rotr17(x), Rotr17(y))
  {
  }

  function Next18(x: word): word { (x >> 19) | (x << 13) }

  lemma Rotr18OfTurn(x: word)
    ensures Rotr18(Turn(x)) == Next18(x)
  {
  }

  lemma TurnOfRotr18(x: word)
    ensures Turn(Rotr18(x)) == Next18(x)
  {
  }

  lemma Rotr18Turn(x: word)
    ensures Rotr18(Turn(x)) == Turn(Rotr18(x))
  {
    hide Rotr18, Turn, Next18;
    Rotr18OfTurn(x);
    TurnOfRotr18(x);
  }

  lemma Rotr18Xor(x: word, y: word)
    ensures Rotr18(Xor(x, y)) == Xor(Rotr18(x), Rotr18(y))
  {
  }

  function Next19(x: word): word { (x >> 20) | (x << 12) }

  lemma Rotr19OfTurn(x: word)
    ensures Rotr19(Turn(x)) == Next19(x)
  {
  }

  lemma TurnOfRotr19(x: word)
    ensures Turn(Rotr19(x)) == Next19(x)
  {
  }

  lemma Rotr19Turn(x: word)
    ensures Rotr19(Turn(x)) == Turn(Rotr19(x))
  {
    hide Rotr19, Turn, Next19;
    Rotr19OfTurn(x);
    TurnOfRotr19(x);
  }

  lemma Rotr19Xor(x: word, y: word)
    ensures Rotr19(Xor(x, y)) == Xor(Rotr19(x), Rotr19(y))
  {
  }

  function Next22(x: word): word { (x >> 23) | (x << 9) }

  lemma Rotr22OfTurn(x: word)
    ensures Rotr22(Turn(x)) == Next22(x)
  {
  }

  lemma TurnOfRotr22(x: word)
    ensures Turn(Rotr22(x)) == Next22(x)
  {
  }

  lemma Rotr22Turn(x: word)
    ensures Rotr22(Turn(x)) == Turn(Rotr22(x))
  {
    hide Rotr22, Turn, Next22;
    Rotr22OfTurn(x);
    TurnOfRotr22(x);
  }

  lemma Rotr22Xor(x: word, y: word)
    ensures Rotr22(Xor(x, y)) == Xor(Rotr22(x), Rotr22(y))
  {
  }

  function Next25(x: word): word { (x >> 26) | (x << 6) }

  lemma Rotr25OfTurn(x: word)
    ensures Rotr25(Turn(x)) == Next25(x)
  {
  }

  lemma TurnOfRotr25(x: word)
    ensures Turn(Rotr25(x)) == Next25(x)
  {
  }

  lemma Rotr25Turn(x: word)
    ensures Rotr25(Turn(x)) == Turn(Rotr25(x))
  {
    hide Rotr25, Turn, Next25;
    Rotr25OfTurn(x);
    TurnOfRotr25(x);
  }

  lemma Rotr25Xor(x: word, y: word)
    ensures Rotr25(Xor(x, y)) == Xor(Rotr25(x), Rotr25(y))
  {
  }

  lemma Shr3Xor(x: word, y: word)
    ensures Shr3(Xor(x, y)) == Xor(Shr3(x), Shr3(y))
  {
  }

  lemma Shr10Xor(x: word, y: word)
    ensures Shr10(Xor(x, y)) == Xor(Shr10(x), Shr10(y))
  {
  }

  /** Linear, the same for every bit counted round, and for bit 0 the bits 30, 19 and 10. */
  lemma Sum0Is(x: word, y: word)
    ensures Sum0(Xor(x, y)) == Xor(Sum0(x), Sum0(y)) && Sum0(Turn(x)) == Turn(Sum0(x))
    ensures Sum0(1) == (1 << 30) | (1 << 19) | (1 << 10)
  {
    hide Xor, Turn, Rotr2, Rotr13, Rotr22;
    Rotr2Xor(x, y);
    Rotr2Turn(x);
    Rotr13Xor(x, y);
    Rotr13Turn(x);
    Rotr22Xor(x, y);
    Rotr22Turn(x);
    XorPairs(Rotr2(x), Rotr2(y), Rotr13(x), Rotr13(y));
    XorPairs(Xor(Rotr2(x), Rotr13(x)), Xor(Rotr2(y), Rotr13(y)), Rotr22(x), Rotr22(y));
    TurnXor(Rotr2(x), Rotr13(x));
    TurnXor(Xor(Rotr2(x), Rotr13(x)), Rotr22(x));
    Sum0OfOne();
  }

  lemma Sum0OfOne()
    ensures Sum0(1) == (1 << 30) | (1 << 19) | (1 << 10)
  {
  }

  /** Linear, the same for every bit counted round, and for bit 0 the bits 26, 21 and 7. */
  lemma Sum1Is(x: word, y: word)
    ensures Sum1(Xor(x, y)) == Xor(Sum1(x), Sum1(y)) && Sum1(Turn(x)) == Turn(Sum1(x))
    ensures Sum1(1) == (1 << 26) | (1 << 21) | (1 << 7)
  {
    hide Xor, Turn, Rotr6, Rotr11, Rotr25;
    Rotr6Xor(x, y);
    Rotr6Turn(x);
    Rotr11Xor(x, y);
    Rotr11Turn(x);
    Rotr25Xor(x, y);
    Rotr25Turn(x);
    XorPairs(Rotr6(x), Rotr6(y), Rotr11(x), Rotr11(y));
    XorPairs(Xor(Rotr6(x), Rotr11(x)), Xor(Rotr6(y), Rotr11(y)), Rotr25(x), Rotr25(y));
    TurnXor(Rotr6(x), Rotr11(x));
    TurnXor(Xor(Rotr6(x), Rotr11(x)), Rotr25(x));
    Sum1OfOne();
  }

  lemma Sum1OfOne()
    ensures Sum1(1) == (1 << 26) | (1 << 21) | (1 << 7)
  {
  }

  /** Linear; the shift by 3 beside a part that is the same for every bit counted round, for bit 0 the bits 25 and 14. */
  lemma Sig0Is(x: word, y: word)
    ensures Sig0(Xor(x, y)) == Xor(Sig0(x), Sig0(y))
    ensures Xor(Sig0(Turn(x)), Shr3(Turn(x))) == Turn(Xor(Sig0(x), Shr3(x)))
    ensures Xor(Sig0(1), Shr3(1)) == (1 << 25) | (1 << 14)
  {
    hide Xor, Turn, Rotr7, Rotr18, Shr3;
    Rotr7Xor(x, y);
    Rotr7Turn(x);
    Rotr18Xor(x, y);
    Rotr18Turn(x);
    Shr3Xor(x, y);
    XorPairs(Rotr7(x), Rotr7(y), Rotr18(x), Rotr18(y));
    XorPairs(Xor(Rotr7(x), Rotr18(x)), Xor(Rotr7(y), Rotr18(y)), Shr3(x), Shr3(y));
    XorCancels(Xor(Rotr7(x), Rotr18(x)), Shr3(x));
    XorCancels(Xor(Rotr7(Turn(x)), Rotr18(Turn(x))), Shr3(Turn(x)));
    TurnXor(Rotr7(x), Rotr18(x));
    Sig0OfOne();
  }

  lemma Sig0OfOne()
    ensures Xor(Sig0(1), Shr3(1)) == (1 << 25) | (1 << 14)
  {
  }

  /** Linear; the shift by 10 beside a part that is the same for every bit counted round, for bit 0 the bits 15 and 13. */
  lemma Sig1Is(x: word, y: word)
    ensures Sig1(Xor(x, y)) == Xor(Sig1(x), Sig1(y))
    ensures Xor(Sig1(Turn(x)), Shr10(Turn(x))) == Turn(Xor(Sig1(x), Shr10(x)))
    ensures Xor(Sig1(1), Shr10(1)) == (1 << 15) | (1 << 13)
  {
    hide Xor, Turn, Rotr17, Rotr19, Shr10;
    Rotr17Xor(x, y);
    Rotr17Turn(x);
    Rotr19Xor(x, y);
    Rotr19Turn(x);
    Shr10Xor(x, y);
    XorPairs(Rotr17(x), Rotr17(y), Rotr19(x), Rotr19(y));
    XorPairs(Xor(Rotr17(x), Rotr19(x)), Xor(Rotr17(y), Rotr19(y)), Shr10(x), Shr10(y));
    XorCancels(Xor(Rotr17(x), Rotr19(x)), Shr10(x));
    XorCancels(Xor(Rotr17(Turn(x)), Rotr19(Turn(x))), Shr10(Turn(x)));
    TurnXor(Rotr17(x), Rotr19(x));
    Sig1OfOne();
  }

  lemma Sig1OfOne()
    ensures Xor(Sig1(1), Shr10(1)) == (1 << 15) | (1 << 13)
  {
  }

  lemma XorCancels(a: word, b: word)
    ensures Xor(Xor(a, b), b) == a
  {
  }
}
