/**
  The constants of SHA-256: sections 4.2.2 and 5.3.3 of FIPS 180-4.
 */
module Sha256Constants {
  import opened Sha256

  predicate IsPrime(n: nat)
  {
    n >= 2 && forall d :: 2 <= d < n ==> n % d != 0
  }

  /** Divided by none of the primes up to 17, unless it is one of them. */
  predicate Sieved(n: nat)
  {
    && n >= 2 && (n == 2 || n % 2 != 0) && (n == 3 || n % 3 != 0) && (n == 5 || n % 5 != 0) && (n == 7 || n % 7 != 0)
    && (n == 11 || n % 11 != 0) && (n == 13 || n % 13 != 0) && (n == 17 || n % 17 != 0)
  }

  /** The first 64 primes. */
  function Prime(i: nat): nat
    requires i < 64
  {
    if i < 8 then [2, 3, 5, 7, 11, 13, 17, 19][i]
    else if i < 16 then [23, 29, 31, 37, 41, 43, 47, 53][i - 8]
    else if i < 24 then [59, 61, 67, 71, 73, 79, 83, 89][i - 16]
    else if i < 32 then [97, 101, 103, 107, 109, 113, 127, 131][i - 24]
    else if i < 40 then [137, 139, 149, 151, 157, 163, 167, 173][i - 32]
    else if i < 48 then [179, 181, 191, 193, 197, 199, 211, 223][i - 40]
    else if i < 56 then [227, 229, 233, 239, 241, 251, 257, 263][i - 48]
    else [269, 271, 277, 281, 283, 293, 307, 311][i - 56]
  }

  lemma WholeMultiple(t: int, e: nat)
    requires e > 0
    ensures t >= 1 ==> t * e >= e
    ensures t <= -1 ==> t * e < 0
  {
  }

  lemma MultipleOf(d: nat, e: nat)
    requires e > 0
    ensures (d * e) % e == 0
  {
    var q := (d * e) / e;
    var r := (d * e) % e;
    assert d * e == q * e + r;
    assert (d - q) * e == r;
    WholeMultiple(d - q, e);
  }

  lemma FactorDivides(n: nat, a: nat, b: nat)
    requires a > 0 && b > 0 && n % (a * b) == 0
    ensures n % a == 0
  {
    var q := n / (a * b);
    assert n == q * (a * b);
    Regroup(q, a, b);
    MultipleOf(q * b, a);
  }

  lemma Regroup(q: nat, a: nat, b: nat)
    ensures q * (a * b) == (q * b) * a
  {
  }

  lemma Factors(n: nat, d: nat)
    requires 2 <= d <= 17 && n % d == 0
    ensures d % 2 == 0 ==> n % 2 == 0
    ensures d == 9 ==> n % 3 == 0
    ensures d == 15 ==> n % 5 == 0
  {
    if d % 2 == 0 {
      assert 2 * (d / 2) == d;
      FactorDivides(n, 2, d / 2);
    } else if d == 9 {
      FactorDivides(n, 3, 3);
    } else if d == 15 {
      FactorDivides(n, 5, 3);
    }
  }

  lemma SmallDivisor(n: nat, d: nat)
    requires Sieved(n) && 2 <= d <= 17 && d < n
    ensures n % d != 0
  {
    if n % d == 0 {
      Factors(n, d);
    }
  }

  /** A divisor of 18 or more leaves one of 17 or less. */
  lemma Cofactor(n: nat, d: nat) returns (e: nat)
    requires 18 <= d < n < 324 && n % d == 0
    ensures 2 <= e <= 17 && n % e == 0
  {
    e := n / d;
    assert n == d * e;
    ProductGrows(d, e);
    MultipleOf(d, e);
  }

  lemma ProductGrows(d: nat, e: nat)
    requires d >= 18
    ensures d * e >= 18 * e
  {
  }

  lemma SievedIsPrime(n: nat)
    requires Sieved(n) && n < 324
    ensures IsPrime(n)
  {
    forall d | 2 <= d < n
      ensures n % d != 0
    {
      if d <= 17 {
        SmallDivisor(n, d);
      } else if n % d == 0 {
        var e := Cofactor(n, d);
        SmallDivisor(n, e);
      }
    }
  }

  lemma PrimeIsSieved(n: nat)
    requires IsPrime(n)
    ensures Sieved(n)
  {
    assert n > 2 ==> n % 2 != 0;
    assert n > 3 ==> n % 3 != 0;
    assert n > 5 ==> n % 5 != 0;
    assert n > 7 ==> n % 7 != 0;
    assert n > 11 ==> n % 11 != 0;
    assert n > 13 ==> n % 13 != 0;
    assert n > 17 ==> n % 17 != 0;
  }

  // Between two primes of the list every odd number is sieved out.

  lemma Listed0(n: nat) returns (i: nat)
    requires Sieved(n) && 2 <= n < 23
    ensures i < 64 && Prime(i) == n
  {
    assert !Sieved(9) && !Sieved(15) && !Sieved(21);
    assert n == 2 || n % 2 != 0;
    assert Prime(0) == 2 && Prime(1) == 3 && Prime(2) == 5 && Prime(3) == 7 && Prime(4) == 11 &&
           Prime(5) == 13 && Prime(6) == 17 && Prime(7) == 19;
    hide Sieved, Prime;
    i := if n == 2 then 0 else if n == 3 then 1 else if n == 5 then 2 else if n == 7 then 3
         else if n == 11 then 4 else if n == 13 then 5 else if n == 17 then 6 else 7;
  }

  lemma Listed8(n: nat) returns (i: nat)
    requires Sieved(n) && 23 <= n < 59
    ensures i < 64 && Prime(i) == n
  {
    assert !Sieved(25) && !Sieved(27) && !Sieved(33) && !Sieved(35) && !Sieved(39) && !Sieved(45) &&
           !Sieved(49) && !Sieved(51) && !Sieved(55) && !Sieved(57);
    assert n % 2 != 0;
    assert Prime(8) == 23 && Prime(9) == 29 && Prime(10) == 31 && Prime(11) == 37 && Prime(12) == 41 &&
           Prime(13) == 43 && Prime(14) == 47 && Prime(15) == 53;
    hide Sieved, Prime;
    i := if n == 23 then 8 else if n == 29 then 9 else if n == 31 then 10 else if n == 37 then 11
         else if n == 41 then 12 else if n == 43 then 13 else if n == 47 then 14 else 15;
  }

  lemma Listed16(n: nat) returns (i: nat)
    requires Sieved(n) && 59 <= n < 97
    ensures i < 64 && Prime(i) == n
  {
    assert !Sieved(63) && !Sieved(65) && !Sieved(69) && !Sieved(75) && !Sieved(77) && !Sieved(81) &&
           !Sieved(85) && !Sieved(87) && !Sieved(91) && !Sieved(93) && !Sieved(95);
    assert n % 2 != 0;
    assert Prime(16) == 59 && Prime(17) == 61 && Prime(18) == 67 && Prime(19) == 71 && Prime(20) == 73 &&
           Prime(21) == 79 && Prime(22) == 83 && Prime(23) == 89;
    hide Sieved, Prime;
    i := if n == 59 then 16 else if n == 61 then 17 else if n == 67 then 18 else if n == 71 then 19
         else if n == 73 then 20 else if n == 79 then 21 else if n == 83 then 22 else 23;
  }

  lemma Listed24(n: nat) returns (i: nat)
    requires Sieved(n) && 97 <= n < 137
    ensures i < 64 && Prime(i) == n
  {
    assert !Sieved(99) && !Sieved(105) && !Sieved(111) && !Sieved(115) && !Sieved(117) && !Sieved(119) &&
           !Sieved(121) && !Sieved(123) && !Sieved(125) && !Sieved(129) && !Sieved(133) && !Sieved(135);
    assert n % 2 != 0;
    assert Prime(24) == 97 && Prime(25) == 101 && Prime(26) == 103 && Prime(27) == 107 && Prime(28) == 109 &&
           Prime(29) == 113 && Prime(30) == 127 && Prime(31) == 131;
    hide Sieved, Prime;
    i := if n == 97 then 24 else if n == 101 then 25 else if n == 103 then 26 else if n == 107 then 27
         else if n == 109 then 28 else if n == 113 then 29 else if n == 127 then 30 else 31;
  }

  lemma Listed32(n: nat) returns (i: nat)
    requires Sieved(n) && 137 <= n < 179
    ensures i < 64 && Prime(i) == n
  {
    assert !Sieved(141) && !Sieved(143) && !Sieved(145) && !Sieved(147) && !Sieved(153) && !Sieved(155) &&
           !Sieved(159) && !Sieved(161) && !Sieved(165) && !Sieved(169) && !Sieved(171) && !Sieved(175) &&
           !Sieved(177);
    assert n % 2 != 0;
    assert Prime(32) == 137 && Prime(33) == 139 && Prime(34) == 149 && Prime(35) == 151 && Prime(36) == 157 &&
           Prime(37) == 163 && Prime(38) == 167 && Prime(39) == 173;
    hide Sieved, Prime;
    i := if n == 137 then 32 else if n == 139 then 33 else if n == 149 then 34 else if n == 151 then 35
         else if n == 157 then 36 else if n == 163 then 37 else if n == 167 then 38 else 39;
  }

  lemma Listed40(n: nat) returns (i: nat)
    requires Sieved(n) && 179 <= n < 227
    ensures i < 64 && Prime(i) == n
  {
    assert !Sieved(183) && !Sieved(185) && !Sieved(187) && !Sieved(189) && !Sieved(195) && !Sieved(201) &&
           !Sieved(203) && !Sieved(205) && !Sieved(207) && !Sieved(209) && !Sieved(213) && !Sieved(215) &&
           !Sieved(217) && !Sieved(219) && !Sieved(221) && !Sieved(225);
    assert n % 2 != 0;
    assert Prime(40) == 179 && Prime(41) == 181 && Prime(42) == 191 && Prime(43) == 193 && Prime(44) == 197 &&
           Prime(45) == 199 && Prime(46) == 211 && Prime(47) == 223;
    hide Sieved, Prime;
    i := if n == 179 then 40 else if n == 181 then 41 else if n == 191 then 42 else if n == 193 then 43
         else if n == 197 then 44 else if n == 199 then 45 else if n == 211 then 46 else 47;
  }

  lemma Listed48(n: nat) returns (i: nat)
    requires Sieved(n) && 227 <= n < 269
    ensures i < 64 && Prime(i) == n
  {
    assert !Sieved(231) && !Sieved(235) && !Sieved(237) && !Sieved(243) && !Sieved(245) && !Sieved(247) &&
           !Sieved(249) && !Sieved(253) && !Sieved(255) && !Sieved(259) && !Sieved(261) && !Sieved(265) &&
           !Sieved(267);
    assert n % 2 != 0;
    assert Prime(48) == 227 && Prime(49) == 229 && Prime(50) == 233 && Prime(51) == 239 && Prime(52) == 241 &&
           Prime(53) == 251 && Prime(54) == 257 && Prime(55) == 263;
    hide Sieved, Prime;
    i := if n == 227 then 48 else if n == 229 then 49 else if n == 233 then 50 else if n == 239 then 51
         else if n == 241 then 52 else if n == 251 then 53 else if n == 257 then 54 else 55;
  }

  lemma Listed56(n: nat) returns (i: nat)
    requires Sieved(n) && 269 <= n < 312
    ensures i < 64 && Prime(i) == n
  {
    assert !Sieved(273) && !Sieved(275) && !Sieved(279) && !Sieved(285) && !Sieved(287) && !Sieved(289) &&
           !Sieved(291) && !Sieved(295) && !Sieved(297) && !Sieved(299) && !Sieved(301) && !Sieved(303) &&
           !Sieved(305) && !Sieved(309);
    assert n % 2 != 0;
    assert Prime(56) == 269 && Prime(57) == 271 && Prime(58) == 277 && Prime(59) == 281 && Prime(60) == 283 &&
           Prime(61) == 293 && Prime(62) == 307 && Prime(63) == 311;
    hide Sieved, Prime;
    i := if n == 269 then 56 else if n == 271 then 57 else if n == 277 then 58 else if n == 281 then 59
         else if n == 283 then 60 else if n == 293 then 61 else if n == 307 then 62 else 63;
  }

  /** Every prime up to 311 is in the list. */
  lemma Listed(n: nat) returns (i: nat)
    requires IsPrime(n) && n <= 311
    ensures i < 64 && Prime(i) == n
  {
    hide Prime, IsPrime, Sieved;
    PrimeIsSieved(n);
    AtLeastTwo(n);
    if n < 23 {
      i := Listed0(n);
    } else if n < 59 {
      i := Listed8(n);
    } else if n < 97 {
      i := Listed16(n);
    } else if n < 137 {
      i := Listed24(n);
    } else if n < 179 {
      i := Listed32(n);
    } else if n < 227 {
      i := Listed40(n);
    } else if n < 269 {
      i := Listed48(n);
    } else {
      i := Listed56(n);
    }
  }

  lemma AtLeastTwo(n: nat)
    requires IsPrime(n)
    ensures n >= 2
  {
  }

  predicate PrimeOk(i: nat)
    requires i < 64
  {
    Sieved(Prime(i)) && Prime(i) <= 311 && (i < 63 ==> Prime(i) < Prime(i + 1))
  }

  lemma Primes0()
    ensures PrimeOk(0) && PrimeOk(1) && PrimeOk(2) && PrimeOk(3)
            && PrimeOk(4) && PrimeOk(5) && PrimeOk(6) && PrimeOk(7)
  {
  }

  lemma Primes8()
    ensures PrimeOk(8) && PrimeOk(9) && PrimeOk(10) && PrimeOk(11)
            && PrimeOk(12) && PrimeOk(13) && PrimeOk(14) && PrimeOk(15)
  {
  }

  lemma Primes16()
    ensures PrimeOk(16) && PrimeOk(17) && PrimeOk(18) && PrimeOk(19)
            && PrimeOk(20) && PrimeOk(21) && PrimeOk(22) && PrimeOk(23)
  {
  }

  lemma Primes24()
    ensures PrimeOk(24) && PrimeOk(25) && PrimeOk(26) && PrimeOk(27)
            && PrimeOk(28) && PrimeOk(29) && PrimeOk(30) && PrimeOk(31)
  {
  }

  lemma Primes32()
    ensures PrimeOk(32) && PrimeOk(33) && PrimeOk(34) && PrimeOk(35)
            && PrimeOk(36) && PrimeOk(37) && PrimeOk(38) && PrimeOk(39)
  {
  }

  lemma Primes40()
    ensures PrimeOk(40) && PrimeOk(41) && PrimeOk(42) && PrimeOk(43)
            && PrimeOk(44) && PrimeOk(45) && PrimeOk(46) && PrimeOk(47)
  {
  }

  lemma Primes48()
    ensures PrimeOk(48) && PrimeOk(49) && PrimeOk(50) && PrimeOk(51)
            && PrimeOk(52) && PrimeOk(53) && PrimeOk(54) && PrimeOk(55)
  {
  }

  lemma Primes56()
    ensures PrimeOk(56) && PrimeOk(57) && PrimeOk(58) && PrimeOk(59)
            && PrimeOk(60) && PrimeOk(61) && PrimeOk(62) && PrimeOk(63)
  {
  }

  lemma PrimesOk(i: nat)
    requires i < 64
    ensures PrimeOk(i)
  {
    hide PrimeOk;
    if i < 8 {
      Primes0();
    } else if i < 16 {
      Primes8();
    } else if i < 24 {
      Primes16();
    } else if i < 32 {
      Primes24();
    } else if i < 40 {
      Primes32();
    } else if i < 48 {
      Primes40();
    } else if i < 56 {
      Primes48();
    } else {
      Primes56();
    }
  }

  /** Every number in the list is prime, and they are in order. */
  lemma PrimesAre(i: nat)
    requires i < 64
    ensures IsPrime(Prime(i)) && Prime(i) <= 311 && (i < 63 ==> Prime(i) < Prime(i + 1))
  {
    PrimesOk(i);
    hide Prime, Sieved, IsPrime;
    SievedIsPrime(Prime(i));
  }

  // ---- roots ------------------------------------------------------------------------------------

  /** `n` in units of 2^-32 is the cube root of `p`, rounded down. */
  predicate CubeRoot(n: nat, p: nat)
  {
    n * n * n <= p * 0x1_00000000_00000000_00000000 < (n + 1) * (n + 1) * (n + 1)
  }

  predicate SquareRoot(n: nat, p: nat)
  {
    n * n <= p * 0x1_00000000_00000000 < (n + 1) * (n + 1)
  }

  /** The whole part of the cube root of a prime up to 311. */
  function Whole(i: nat): nat
  {
    if i < 4 then 1 else if i < 9 then 2 else if i < 18 then 3 else if i < 30 then 4 else if i < 47 then 5 else 6
  }

  predicate RootOf(i: nat)
    requires i < 64
  {
    CubeRoot(Whole(i) * 0x1_00000000 + K(i) as int, Prime(i))
  }

  lemma Roots0()
    ensures RootOf(0) && RootOf(1) && RootOf(2) && RootOf(3)
  {
  }

  lemma Roots4()
    ensures RootOf(4) && RootOf(5) && RootOf(6) && RootOf(7)
  {
  }

  lemma Roots8()
    ensures RootOf(8) && RootOf(9) && RootOf(10) && RootOf(11)
  {
  }

  lemma Roots12()
    ensures RootOf(12) && RootOf(13) && RootOf(14) && RootOf(15)
  {
  }

  lemma Roots16()
    ensures RootOf(16) && RootOf(17) && RootOf(18) && RootOf(19)
  {
  }

  lemma Roots20()
    ensures RootOf(20) && RootOf(21) && RootOf(22) && RootOf(23)
  {
  }

  lemma Roots24()
    ensures RootOf(24) && RootOf(25) && RootOf(26) && RootOf(27)
  {
  }

  lemma Roots28()
    ensures RootOf(28) && RootOf(29) && RootOf(30) && RootOf(31)
  {
  }

  lemma Roots32()
    ensures RootOf(32) && RootOf(33) && RootOf(34) && RootOf(35)
  {
  }

  lemma Roots36()
    ensures RootOf(36) && RootOf(37) && RootOf(38) && RootOf(39)
  {
  }

  lemma Roots40()
    ensures RootOf(40) && RootOf(41) && RootOf(42) && RootOf(43)
  {
  }

  lemma Roots44()
    ensures RootOf(44) && RootOf(45) && RootOf(46) && RootOf(47)
  {
  }

  lemma Roots48()
    ensures RootOf(48) && RootOf(49) && RootOf(50) && RootOf(51)
  {
  }

  lemma Roots52()
    ensures RootOf(52) && RootOf(53) && RootOf(54) && RootOf(55)
  {
  }

  lemma Roots56()
    ensures RootOf(56) && RootOf(57) && RootOf(58) && RootOf(59)
  {
  }

  lemma Roots60()
    ensures RootOf(60) && RootOf(61) && RootOf(62) && RootOf(63)
  {
  }

  lemma RootsAre(i: nat)
    requires i < 64
    ensures RootOf(i)
  {
    hide RootOf;
    if i < 4 {
      Roots0();
    } else if i < 8 {
      Roots4();
    } else if i < 12 {
      Roots8();
    } else if i < 16 {
      Roots12();
    } else if i < 20 {
      Roots16();
    } else if i < 24 {
      Roots20();
    } else if i < 28 {
      Roots24();
    } else if i < 32 {
      Roots28();
    } else if i < 36 {
      Roots32();
    } else if i < 40 {
      Roots36();
    } else if i < 44 {
      Roots40();
    } else if i < 48 {
      Roots44();
    } else if i < 52 {
      Roots48();
    } else if i < 56 {
      Roots52();
    } else if i < 60 {
      Roots56();
    } else {
      Roots60();
    }
  }

  /** Each round constant is the first 32 bits of the fraction of the cube root of its prime. */
  lemma KIsCubeRoot(i: nat)
    requires i < 64
    ensures CubeRoot(Whole(i) * 0x1_00000000 + K(i) as int, Prime(i))
  {
    hide K, Prime, Whole, CubeRoot;
    RootsAre(i);
  }

  /** The initial state is the same of the square roots of the first eight. */
  lemma H0IsSquareRoots()
    ensures SquareRoot(1 * 0x1_00000000 + H0.a as int, Prime(0))
    ensures SquareRoot(1 * 0x1_00000000 + H0.b as int, Prime(1))
    ensures SquareRoot(2 * 0x1_00000000 + H0.c as int, Prime(2))
    ensures SquareRoot(2 * 0x1_00000000 + H0.d as int, Prime(3))
    ensures SquareRoot(3 * 0x1_00000000 + H0.e as int, Prime(4))
    ensures SquareRoot(3 * 0x1_00000000 + H0.f as int, Prime(5))
    ensures SquareRoot(4 * 0x1_00000000 + H0.g as int, Prime(6))
    ensures SquareRoot(4 * 0x1_00000000 + H0.h as int, Prime(7))
  {
  }
}
