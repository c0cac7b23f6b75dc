/**
  CRC-32 as arithmetic: polynomials over the two-element field, each the set of
  its exponents, and the register as a remainder on division by the generator.
 */
module CrcPoly {
  import opened Bits
  import opened Crc

  type Poly = set<nat>

  /** The generator of section 8 of RFC 1952 and of ISO 3309. */
  const GENERATOR: Poly := {32, 26, 23, 22, 16, 12, 11, 10, 8, 7, 5, 4, 2, 1, 0}

  /** Coefficients add without carry. */
  function Sum(a: Poly, b: Poly): (r: Poly)
    ensures forall e :: e in r <==> (e in a) != (e in b)
  {
    (a - b) + (b - a)
  }

  function Up(e: nat, n: nat): nat
  {
    e + n
  }

  /** Every power below x^n. */
  function Below(n: nat): (r: Poly)
    ensures forall e: nat :: e in r <==> e < n
  {
    if n == 0 then {} else Below(n - 1) + {n - 1}
  }

  /** Times x^n. */
  function Shift(a: Poly, n: nat): (r: Poly)
    ensures forall e :: e in r <==> e >= n && e - n in a
  {
    ShiftHas(a, n);
    set e | e in a :: Up(e, n)
  }

  lemma ShiftHas(a: Poly, n: nat)
    ensures var r := set e | e in a :: Up(e, n);
            forall e :: e in r <==> e >= n && e - n in a
  {
    var r := set e | e in a :: Up(e, n);
    forall e: nat
      ensures e in r <==> e >= n && e - n in a
    {
      if e >= n && e - n in a {
        assert Up(e - n, n) == e;
      }
    }
  }

  /** The terms of `q` below x^n, each times `g`, added up. */
  function Product(q: Poly, g: Poly, n: nat): Poly
  {
    if n == 0 then {} else Sum(Product(q, g, n - 1), if n - 1 in q then Shift(g, n - 1) else {})
  }

  /** `f` is a multiple of the generator and `r`, and `r` is of lower degree. */
  ghost predicate Remainder(f: Poly, r: Poly)
  {
    (forall e :: e in r ==> e < 32) && exists q: Poly, n: nat :: Sum(f, r) == Product(q, GENERATOR, n)
  }

  // ---- the register and the message as polynomials --------------------------------------

  predicate Coefficient(s: seq<bit>, e: nat)
  {
    e < |s| && s[|s| - 1 - e] == 1
  }

  /** The first bit is the coefficient of the highest power. */
  function AsPoly(s: seq<bit>): (r: Poly)
    ensures forall e :: e in r <==> Coefficient(s, e)
  {
    set e: nat | e < |s| && Coefficient(s, e)
  }

  lemma PolyBits(e: nat)
    requires e < 32
    ensures POLY[31 - e] == 1 <==> e in GENERATOR
  {
  }

  lemma TurnBits(c: word, e: nat)
    requires e < 32
    ensures Coefficient(Turn(c), e) <==> (e > 0 && c[32 - e] == 1) != (c[0] == 1 && e in GENERATOR)
  {
    PolyBits(e);
    hide POLY, GENERATOR;
    assert ShiftRight(c)[31 - e] == if e == 0 then 0 else c[32 - e];
  }

  lemma GeneratorTop()
    ensures 32 in GENERATOR && forall e :: e in GENERATOR ==> e <= 32
  {
  }

  /** One turn multiplies by x, and takes the generator away if that made x^32. */
  lemma TurnIs(c: word)
    ensures AsPoly(Turn(c)) == Sum(Shift(AsPoly(c), 1), if c[0] == 1 then GENERATOR else {})
  {
    hide Turn, GENERATOR;
    var t, f := AsPoly(Turn(c)), Sum(Shift(AsPoly(c), 1), if c[0] == 1 then GENERATOR else {});
    GeneratorTop();
    forall e: nat
      ensures e in t <==> e in f
    {
      if e < 32 {
        TurnBits(c, e);
      }
    }
  }

  /** Feeding a bit multiplies by x and adds the bit times x^32, modulo the generator. */
  lemma FeedIs(c: word, b: bit) returns (t: bool)
    ensures Sum(Sum(Shift(AsPoly(c), 1), if b == 1 then {32} else {}), AsPoly(Feed(c, b))) == if t then GENERATOR else {}
  {
    hide Turn, GENERATOR;
    var x := XorLow(c, [b]);
    t := x[0] == 1;
    TurnIs(x);
    forall e: nat
      ensures e in Shift(AsPoly(x), 1) <==> e in Sum(Shift(AsPoly(c), 1), if b == 1 then {32} else {})
    {
      assert e >= 1 && e - 1 < 31 ==> x[32 - e] == c[32 - e];
    }
    assert Shift(AsPoly(x), 1) == Sum(Shift(AsPoly(c), 1), if b == 1 then {32} else {});
  }

  // ---- adding up ------------------------------------------------------------------------

  lemma SumShift(a: Poly, b: Poly, n: nat)
    ensures Shift(Sum(a, b), n) == Sum(Shift(a, n), Shift(b, n))
  {
  }

  lemma ShiftTwice(a: Poly, n: nat, m: nat)
    ensures Shift(Shift(a, n), m) == Shift(a, n + m)
  {
  }

  lemma {:induction false} ProductAgrees(q: Poly, q': Poly, g: Poly, n: nat)
    requires forall e :: e < n ==> (e in q <==> e in q')
    ensures Product(q, g, n) == Product(q', g, n)
    decreases n
  {
    if n > 0 {
      ProductAgrees(q, q', g, n - 1);
    }
  }

  /** What is divided: the register times x^n, and the message times x^32. */
  function Dividend(c: Poly, bits: seq<bit>): Poly
  {
    Sum(Shift(c, |bits|), Shift(AsPoly(bits), 32))
  }

  lemma NothingFed(c: word)
    ensures Sum(Dividend(AsPoly(c), []), AsPoly(FeedAll(c, []))) == Product({}, GENERATOR, 0)
  {
    hide GENERATOR;
    assert Shift(AsPoly(c), 0) == AsPoly(c) && Shift(AsPoly([]), 32) == {};
  }

  /** Dividing bit by bit. */
  lemma {:induction false} FeedAllIs(c: word, bits: seq<bit>) returns (q: Poly)
    ensures Sum(Dividend(AsPoly(c), bits), AsPoly(FeedAll(c, bits))) == Product(q, GENERATOR, |bits|)
    decreases |bits|
  {
    hide Feed, GENERATOR, Sum, Shift, AsPoly, Dividend, Product;
    if bits == [] {
      q := {};
      NothingFed(c);
    } else {
      var n := |bits| - 1;
      var c1 := Feed(c, bits[0]);
      var t := FeedIs(c, bits[0]);
      var q1 := FeedAllIs(c1, bits[1..]);
      var g: Poly := if t then GENERATOR else {};
      DividendStep(AsPoly(c), bits, AsPoly(c1), g);
      q := DigitMore(q1, n, t);
      SumsAgree(Dividend(AsPoly(c), bits), Dividend(AsPoly(c1), bits[1..]), AsPoly(FeedAll(c, bits)), Shift(g, n));
    }
  }

  /** The quotient's next digit, above the `n` it has. */
  lemma DigitMore(q1: Poly, n: nat, t: bool) returns (q: Poly)
    ensures Product(q, GENERATOR, n + 1) == Sum(Product(q1, GENERATOR, n), Shift(if t then GENERATOR else {}, n))
  {
    q := (q1 - {n}) + if t then {n} else {};
    ProductAgrees(q, q1, GENERATOR, n);
    hide Sum, Shift, Product, GENERATOR;
    ProductTop(q, n);
    ShiftNone(n);
  }

  lemma ShiftNone(n: nat)
    ensures Shift({}, n) == {}
  {
  }

  lemma ProductTop(q: Poly, n: nat)
    ensures Product(q, GENERATOR, n + 1) == Sum(Product(q, GENERATOR, n), if n in q then Shift(GENERATOR, n) else {})
  {
  }

  lemma SumsAgree(d: Poly, d1: Poly, r: Poly, g: Poly)
    requires d == Sum(d1, g)
    ensures Sum(d, r) == Sum(Sum(d1, r), g)
  {
  }

  lemma FirstBit(bits: seq<bit>)
    requires bits != []
    ensures Shift(AsPoly(bits), 32)
            == Sum(Shift(if bits[0] == 1 then {32} else {}, |bits| - 1), Shift(AsPoly(bits[1..]), 32))
  {
    var n := |bits| - 1;
    var x, y := Shift(AsPoly(bits), 32), Sum(Shift(if bits[0] == 1 then {32} else {}, n), Shift(AsPoly(bits[1..]), 32));
    forall e: nat
      ensures e in x <==> e in y
    {
      if e >= 32 {
        assert e - 32 < n ==> bits[1..][n - 1 - (e - 32)] == bits[n - (e - 32)];
      }
    }
  }

  lemma DividendStep(c: Poly, bits: seq<bit>, c1: Poly, g: Poly)
    requires bits != [] && Sum(Sum(Shift(c, 1), if bits[0] == 1 then {32} else {}), c1) == g
    ensures Dividend(c, bits) == Sum(Dividend(c1, bits[1..]), Shift(g, |bits| - 1))
  {
    hide Shift, AsPoly, Sum;
    var n := |bits| - 1;
    var b: Poly := if bits[0] == 1 then {32} else {};
    var more := Shift(AsPoly(bits[1..]), 32);
    assert Dividend(c, bits) == Sum(Shift(c, n + 1), Sum(Shift(b, n), more)) by {
      FirstBit(bits);
    }
    assert Shift(g, n) == Sum(Sum(Shift(c, n + 1), Shift(b, n)), Shift(c1, n)) by {
      ShiftTwice(c, 1, n);
      SumShift(Sum(Shift(c, 1), b), c1, n);
      SumShift(Shift(c, 1), b, n);
    }
    SumsCancel(Shift(c, n + 1), Shift(b, n), Shift(c1, n), more);
  }

  lemma SumsCancel(x: Poly, y: Poly, z: Poly, m: Poly)
    ensures Sum(x, Sum(y, m)) == Sum(Sum(z, m), Sum(Sum(x, y), z))
  {
  }

  /** The register after a message is the remainder of the register before it, and the message, divided by the generator. */
  lemma RegisterIsRemainder(c: word, bits: seq<bit>)
    ensures Remainder(Dividend(AsPoly(c), bits), AsPoly(FeedAll(c, bits)))
  {
    hide GENERATOR, FeedAll, Dividend;
    var q := FeedAllIs(c, bits);
  }

  // ---- a remainder is the only one --------------------------------------------------------

  lemma {:induction false} ProductBound(q: Poly, n: nat, e: nat)
    requires e in Product(q, GENERATOR, n)
    ensures n > 0 && e < n + 32
  {
    GeneratorTop();
    hide GENERATOR;
    if n > 0 && e in Product(q, GENERATOR, n - 1) {
      ProductBound(q, n - 1, e);
    }
  }

  /** A multiple of the generator is zero or of degree 32 at least. */
  lemma {:induction false} ProductHigh(q: Poly, n: nat)
    ensures Product(q, GENERATOR, n) == {} || exists e :: e in Product(q, GENERATOR, n) && e >= 32
  {
    GeneratorTop();
    hide GENERATOR;
    if n > 0 {
      ProductHigh(q, n - 1);
      var low, all := Product(q, GENERATOR, n - 1), Product(q, GENERATOR, n);
      if n - 1 in q {
        var top := n + 31;
        if top in low {
          ProductBound(q, n - 1, top);
        }
        assert top in all;
      } else {
        assert all == low;
      }
    }
  }

  lemma {:induction false} ProductLonger(q: Poly, n: nat, m: nat)
    requires n <= m
    ensures Product(q * Below(n), GENERATOR, m) == Product(q, GENERATOR, n)
    decreases m
  {
    hide GENERATOR;
    var q' := q * Below(n);
    if n == m {
      ProductAgrees(q', q, GENERATOR, n);
    } else {
      ProductLonger(q, n, m - 1);
      assert m - 1 !in q';
    }
  }

  lemma {:induction false} ProductSum(p: Poly, q: Poly, n: nat)
    ensures Sum(Product(p, GENERATOR, n), Product(q, GENERATOR, n)) == Product(Sum(p, q), GENERATOR, n)
  {
    hide GENERATOR;
    if n > 0 {
      ProductSum(p, q, n - 1);
    }
  }

  lemma RemainderUnique(f: Poly, r: Poly, s: Poly)
    requires Remainder(f, r) && Remainder(f, s)
    ensures r == s
  {
    hide GENERATOR, Product;
    var p: Poly, n: nat :| Sum(f, r) == Product(p, GENERATOR, n);
    var q: Poly, m: nat :| Sum(f, s) == Product(q, GENERATOR, m);
    var k := if n < m then m else n;
    var p', q' := p * Below(n), q * Below(m);
    ProductLonger(p, n, k);
    ProductLonger(q, m, k);
    ProductSum(p', q', k);
    ProductHigh(Sum(p', q'), k);
    assert Sum(Sum(f, r), Sum(f, s)) == Sum(r, s);
    forall e: nat
      ensures e in r <==> e in s
    {
      assert e !in Sum(r, s);
    }
  }

  // ---- the CRC ----------------------------------------------------------------------------

  lemma OnesIs()
    ensures AsPoly(ONES) == Below(32)
  {
  }

  lemma AsPolyInjective(a: word, b: word)
    requires AsPoly(a) == AsPoly(b)
    ensures a == b
  {
    forall i | 0 <= i < 32
      ensures a[i] == b[i]
    {
      assert Coefficient(a, 31 - i) <==> Coefficient(b, 31 - i);
    }
  }

  lemma ComplementTwice(c: word)
    ensures Complement(Complement(c)) == c
  {
  }

  /**
    The CRC of a message is the complement of the remainder on division by the
    generator of the message times x^32 with its first 32 bits inverted.
   */
  lemma CrcIsRemainder(data: seq<byte>, c: word)
    ensures c == Crc32(data) <==>
            Remainder(Sum(Shift(Below(32), 8 * |data|), Shift(AsPoly(Stream(data)), 32)), AsPoly(Complement(c)))
  {
    hide FeedAll, Stream, Remainder, Complement, ONES, AsPoly;
    var r := FeedAll(ONES, Stream(data));
    RegisterIsRemainder(ONES, Stream(data));
    OnesIs();
    ComplementTwice(r);
    if Remainder(Dividend(AsPoly(ONES), Stream(data)), AsPoly(Complement(c))) {
      RemainderUnique(Dividend(AsPoly(ONES), Stream(data)), AsPoly(Complement(c)), AsPoly(r));
      AsPolyInjective(Complement(c), r);
      ComplementTwice(c);
    }
  }
}
