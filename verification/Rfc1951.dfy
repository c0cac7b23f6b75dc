/**
  RFC 1951 by its numbers: what the tables and codes of the decoder are, written
  out without them.
 */
module Rfc1951 {
  import opened Bits
  import opened Huffman
  import opened Deflate
  import opened DynamicHeader
  import opened DeflateStream

  // ---- section 3.2.5 ------------------------------------------------------------------

  function LengthExtraBits(i: nat): nat
  {
    if i < 4 || i == 28 then 0 else i / 4 - 1
  }

  function DistExtraBits(i: nat): nat
  {
    if i < 2 then 0 else i / 2 - 1
  }

  /** Extra bits by formula; bases from 3, each beyond the last by what its extra bits reach, and 258 at the end. */
  lemma LengthTable(i: nat)
    requires i < 29
    ensures LengthExtra(i) == LengthExtraBits(i)
    ensures LengthBase(0) == 3 && LengthBase(28) == 258
    ensures i < 27 ==> LengthBase(i + 1) == LengthBase(i) + Pow2(LengthExtraBits(i))
  {
    LengthExtras(i);
    LengthTop();
    if i < 27 {
      LengthNext(i);
    }
    hide Pow2, LengthBase, LengthExtra, LengthExtraBits;
  }

  lemma LengthExtras(i: nat)
    requires i < 29
    ensures LengthExtra(i) == LengthExtraBits(i)
  {
  }

  lemma LengthNext(i: nat)
    requires i < 27
    ensures LengthBase(i + 1) == LengthBase(i) + Pow2(LengthExtra(i))
  {
    SmallPowers();
    hide Pow2;
  }

  /** The same for distances, from 1. */
  lemma DistTable(i: nat)
    requires i < 30
    ensures DistExtra(i) == DistExtraBits(i)
    ensures DistBase(0) == 1
    ensures i < 29 ==> DistBase(i + 1) == DistBase(i) + Pow2(DistExtraBits(i))
  {
    DistExtras(i);
    DistTop();
    DistStep(i);
    hide Pow2, DistBase, DistExtra, DistExtraBits;
  }

  lemma DistExtras(i: nat)
    requires i < 30
    ensures DistExtra(i) == DistExtraBits(i)
  {
  }

  // ---- section 3.2.7 ------------------------------------------------------------------

  /** The order of the code-length lengths: 16, 17, 18, 0, then outwards from 8 and 7 by turns. */
  lemma OrderIs(j: nat)
    ensures Order(0) == 16 && Order(1) == 17 && Order(2) == 18 && Order(3) == 0
    ensures j < 8 ==> Order(4 + 2 * j) == 8 + j
    ensures j < 7 ==> Order(5 + 2 * j) == 7 - j
  {
  }

  /** The three repeat codes: their extra bits, what they repeat and how often. */
  lemma RepeatCodes(cl: seq<int>, acc: seq<int>, e: nat)
    ensures ValidRun(cl, Run(16, e)) <==> HasCode(cl, 16) && |cl| == 19 && e < 4
    ensures ValidRun(cl, Run(17, e)) <==> HasCode(cl, 17) && |cl| == 19 && e < 8
    ensures ValidRun(cl, Run(18, e)) <==> HasCode(cl, 18) && |cl| == 19 && e < 128
    ensures ValidRun(cl, Run(16, e)) ==> RunBits(cl, Run(16, e)) == CodeBits(cl, 16) + LowFirst(e, 2)
    ensures ValidRun(cl, Run(17, e)) ==> RunBits(cl, Run(17, e)) == CodeBits(cl, 17) + LowFirst(e, 3)
    ensures ValidRun(cl, Run(18, e)) ==> RunBits(cl, Run(18, e)) == CodeBits(cl, 18) + LowFirst(e, 7)
    ensures acc != [] ==> ApplyRun(acc, Run(16, e)) == acc + Repeat(acc[|acc| - 1], 3 + e)
    ensures ApplyRun(acc, Run(17, e)) == acc + Repeat(0, 3 + e)
    ensures ApplyRun(acc, Run(18, e)) == acc + Repeat(0, 11 + e)
    ensures e < 16 ==> ApplyRun(acc, Run(e, 0)) == acc + [e]
  {
    hide CodeBits, LowFirst, Pow2;
    SmallPowers();
  }

  // ---- counting lengths ---------------------------------------------------------------

  lemma {:induction false} CountRepeat(lens: seq<int>, v: int, n: nat, l: int)
    ensures Count(lens + Repeat(v, n), l) == Count(lens, l) + if v == l then n else 0
    decreases n
  {
    if n == 0 {
      assert lens + Repeat(v, n) == lens;
    } else {
      var s := lens + Repeat(v, n);
      assert s[..|s| - 1] == lens + Repeat(v, n - 1) && s[|s| - 1] == v;
      CountRepeat(lens, v, n - 1, l);
    }
  }

  lemma CountNone(l: int)
    ensures Count([], l) == 0
  {
  }

  /** The first `a` lengths 8, `b` lengths 9, `c` lengths 7 and `d` lengths 8. */
  function Lens(a: nat, b: nat, c: nat, d: nat): (r: seq<int>)
    ensures |r| == a + b + c + d
  {
    Repeat(8, a) + Repeat(9, b) + Repeat(7, c) + Repeat(8, d)
  }

  lemma CountLens(a: nat, b: nat, c: nat, d: nat, l: int)
    ensures Count(Lens(a, b, c, d), l) == if l == 8 then a + d else if l == 9 then b else if l == 7 then c else 0
  {
    hide Count, Repeat;
    CountNone(l);
    CountRepeat([], 8, a, l);
    assert [] + Repeat(8, a) == Repeat(8, a);
    CountRepeat(Repeat(8, a), 9, b, l);
    CountRepeat(Repeat(8, a) + Repeat(9, b), 7, c, l);
    CountRepeat(Repeat(8, a) + Repeat(9, b) + Repeat(7, c), 8, d, l);
  }

  lemma {:induction false} FirstOfNone(lens: seq<int>, l: nat)
    requires l >= 1 && forall i :: 1 <= i < l ==> Count(lens, i) == 0
    ensures First(lens, l) == 0
  {
    hide Count;
    if l > 1 {
      FirstOfNone(lens, l - 1);
    }
  }

  lemma FirstOfLens(lens: seq<int>)
    requires lens == Lens(144, 112, 24, 8)
    ensures First(lens, 7) == 0 && First(lens, 8) == 0x30 && First(lens, 9) == 0x190
  {
    hide Count, First, Lens;
    forall i | 1 <= i < 7
      ensures Count(lens, i) == 0
    {
      CountLens(144, 112, 24, 8, i);
    }
    FirstOfNone(lens, 7);
    CountLens(144, 112, 24, 8, 7);
    CountLens(144, 112, 24, 8, 8);
    FirstStep(lens, 7);
    FirstStep(lens, 8);
  }

  // ---- section 3.2.6 ------------------------------------------------------------------

  /** The width and the number of each fixed code. */
  function Width(s: nat): nat
  {
    if s < 144 then 8 else if s < 256 then 9 else if s < 280 then 7 else 8
  }

  function Number(s: nat): nat
  {
    if s < 144 then 0x30 + s else if s < 256 then 0x190 + s - 144 else if s < 280 then s - 256 else 0xC0 + s - 280
  }

  lemma PrefixOfLens(s: nat) returns (a: nat, b: nat, c: nat, d: nat)
    requires s < 288
    ensures Lens(144, 112, 24, 8)[..s] == Lens(a, b, c, d)
    ensures Lens(144, 112, 24, 8)[s] == Width(s)
    ensures a + b + c + d == s
    ensures if s < 144 then b == c == d == 0
            else if s < 256 then a == 144 && c == d == 0
            else if s < 280 then a == 144 && b == 112 && d == 0
            else a == 144 && b == 112 && c == 24
  {
    a, b, c, d := 0, 0, 0, 0;
    if s < 144 {
      a := s;
    } else if s < 256 {
      a, b := 144, s - 144;
    } else if s < 280 {
      a, b, c := 144, 112, s - 256;
    } else {
      a, b, c, d := 144, 112, 24, s - 280;
    }
    var x, y := Lens(144, 112, 24, 8)[..s], Lens(a, b, c, d);
    assert forall i :: 0 <= i < s ==> x[i] == y[i];
  }

  /** The fixed literal and length code, symbol by symbol. */
  lemma FixedCode(s: nat)
    requires s < 288
    ensures |FixedLitLens| == 288 && FixedLitLens[s] == Width(s) && Code(FixedLitLens, s) == Number(s)
  {
    var lens := FixedLitLens;
    assert lens == Lens(144, 112, 24, 8);
    FirstOfLens(lens);
    var a, b, c, d := PrefixOfLens(s);
    CountLens(a, b, c, d, Width(s));
    hide First, Count, Lens;
  }

  /** The fixed distance codes are the symbols themselves, in five bits. */
  lemma FixedDistCode(s: nat)
    requires s < 30
    ensures |FixedDistLens| == 30 && FixedDistLens[s] == 5 && Code(FixedDistLens, s) == s
  {
    hide First, Count;
    forall i | 1 <= i < 5
      ensures Count(FixedDistLens, i) == 0
    {
      CountNone(i);
      CountRepeat([], 5, 30, i);
      assert [] + FixedDistLens == FixedDistLens;
    }
    FirstOfNone(FixedDistLens, 5);
    CountNone(5);
    CountRepeat([], 5, s, 5);
    assert FixedDistLens[..s] == [] + Repeat(5, s);
  }

  /** An item in the fixed codes, by number. */
  function ItemByNumber(t: Item): seq<bit>
  {
    match t
    case Literal(b) => HighFirst(Number(b), Width(b))
    case End => HighFirst(0, 7)
    case Copy(ls, le, ds, de) =>
      HighFirst(Number(257 + ls), Width(257 + ls)) + LowFirst(le, LengthExtraBits(ls))
      + HighFirst(ds, 5) + LowFirst(de, DistExtraBits(ds))
  }

  lemma ItemIs(t: Item)
    requires ValidItem(t)
    ensures Codable(FixedLitLens, FixedDistLens, t) && ItemBits(FixedLitLens, FixedDistLens, t) == ItemByNumber(t)
  {
    FixedCodesEverything(t);
    hide HighFirst, LowFirst, Code, Number, Width, LengthExtra, DistExtra, LengthExtraBits, DistExtraBits, FixedLitLens, FixedDistLens,
         Pow2;
    match t
    case Literal(b) => FixedCode(b);
    case End => FixedCode(256); EndNumber();
    case Copy(ls, le, ds, de) =>
      FixedCode(257 + ls);
      FixedDistCode(ds);
      LengthTable(ls);
      DistTable(ds);
  }

  lemma EndNumber()
    ensures Number(256) == 0 && Width(256) == 7
  {
  }

  function BodyByNumber(ts: seq<Item>): seq<bit>
  {
    if ts == [] then HighFirst(0, 7) else ItemByNumber(ts[0]) + BodyByNumber(ts[1..])
  }

  predicate Plain(ts: seq<Item>)
  {
    forall i :: 0 <= i < |ts| ==> !ts[i].End? && ValidItem(ts[i])
  }

  lemma {:induction false} BodyIs(ts: seq<Item>)
    requires Plain(ts)
    ensures AllCodable(FixedLitLens, FixedDistLens, ts) && BodyBits(FixedLitLens, FixedDistLens, ts) == BodyByNumber(ts)
  {
    hide ItemByNumber, ItemBits, Codable, ValidItem, FixedLitLens, FixedDistLens;
    AllItems(ts);
    if ts == [] {
      EndIs();
    } else {
      ItemIs(ts[0]);
      BodyIs(ts[1..]);
    }
  }

  lemma AllItems(ts: seq<Item>)
    requires Plain(ts)
    ensures AllCodable(FixedLitLens, FixedDistLens, ts)
  {
    hide Codable, ValidItem, FixedLitLens, FixedDistLens;
    EndIs();
    forall i | 0 <= i < |ts|
      ensures Codable(FixedLitLens, FixedDistLens, ts[i])
    {
      ItemIs(ts[i]);
    }
  }

  lemma EndIs()
    ensures Codable(FixedLitLens, FixedDistLens, End) && ItemBits(FixedLitLens, FixedDistLens, End) == HighFirst(0, 7)
  {
    ItemIs(End);
  }

  /** One last fixed block, written by number: it decompresses to what its items say. */
  lemma FixedBlockReads(s: seq<bit>, ts: seq<Item>, cap: nat)
    requires Plain(ts) && Expands([], ts) && |Expand([], ts)| <= cap && At(s, 0, [1, 1, 0] + BodyByNumber(ts))
    ensures ReadStream(s, 0, [], cap) == Got(Expand([], ts), 3 + |BodyByNumber(ts)|)
  {
    hide BodyByNumber, BodyBits, AllCodable, Expands, Expand, FixedLitLens, FixedDistLens, ReadStream, At;
    BodyIs(ts);
    var bs := [Fixed(ts)];
    OneBlock(ts);
    var rest := BodyByNumber(ts);
    assert [1] + ([1, 0] + rest) == [1, 1, 0] + rest;
    ReadStreamInverts(s, 0, [], cap, bs);
  }

  lemma OneBlock(ts: seq<Item>)
    requires AllCodable(FixedLitLens, FixedDistLens, ts) && Expands([], ts)
    ensures var bs := [Fixed(ts)];
            && ValidStream(bs, 0) && StreamDecodable(bs) && StreamExpands([], bs)
            && StreamOutput([], bs) == Expand([], ts)
            && StreamBits(bs, 0) == [1] + ([1, 0] + BodyBits(FixedLitLens, FixedDistLens, ts))
  {
    hide AllCodable, Expands, Expand, BodyBits;
    assert LowFirst(1, 2) == [1, 0];
  }

  // ---- text ---------------------------------------------------------------------------

  function Literals(data: seq<byte>): (ts: seq<Item>)
    ensures |ts| == |data| && forall i :: 0 <= i < |ts| ==> ts[i] == Literal(data[i])
  {
    seq(|data|, i requires 0 <= i < |data| => Literal(data[i]))
  }

  lemma {:induction false} LiteralsExpand(out: seq<byte>, data: seq<byte>)
    ensures Expands(out, Literals(data)) && Expand(out, Literals(data)) == out + data
    decreases |data|
  {
    if data == [] {
      assert out + data == out;
    } else {
      assert Literals(data)[1..] == Literals(data[1..]);
      LiteralsExpand(out + [data[0]], data[1..]);
      assert out + [data[0]] + data[1..] == out + data;
    }
  }

  /** Any text, each byte written with its number, decompresses to itself. */
  lemma TextReads(s: seq<bit>, data: seq<byte>)
    requires At(s, 0, [1, 1, 0] + BodyByNumber(Literals(data)))
    ensures ReadStream(s, 0, [], |data|) == Got(data, 3 + |BodyByNumber(Literals(data))|)
  {
    hide BodyByNumber, ReadStream, At, Expand, Expands;
    LiteralsExpand([], data);
    assert [] + data == data;
    FixedBlockReads(s, Literals(data), |data|);
  }

  /** The ordinary block for the letter a. */
  lemma LetterA()
    ensures ReadStream(Stream([0x4b, 0x04, 0x00]), 0, [], 1) == Got([97], 18)
  {
    hide ReadStream, Stream;
    BodyOfA();
    BytesOfA();
    hide BodyByNumber;
    TextReads(Stream([0x4b, 0x04, 0x00]), [97]);
  }

  const A_BITS: seq<bit> := [1, 0, 0, 1, 0, 0, 0, 1] + [0, 0, 0, 0, 0, 0, 0]

  lemma BodyOfA()
    ensures BodyByNumber(Literals([97])) == A_BITS
  {
    var ts := Literals([97]);
    assert ts[1..] == [] && ts[0] == Literal(97);
    Bits145();
    hide HighFirst;
    assert ItemByNumber(Literal(97)) == HighFirst(145, 8);
  }

  lemma Bits145()
    ensures HighFirst(145, 8) == [1, 0, 0, 1, 0, 0, 0, 1] && HighFirst(0, 7) == [0, 0, 0, 0, 0, 0, 0]
  {
    assert HighFirst(9, 4) == [1, 0, 0, 1];
    assert HighFirst(145, 8) == HighFirst(9, 4) + [0, 0, 0, 1];
    assert HighFirst(0, 3) == [0, 0, 0];
  }

  lemma BytesOfA()
    ensures At(Stream([0x4b, 0x04, 0x00]), 0, [1, 1, 0] + A_BITS)
  {
    var s := Stream([0x4b, 0x04, 0x00]);
    var want := [1, 1, 0] + A_BITS;
    BitsOfA();
    hide BitOf;
    assert s[..8] == want[..8];
    assert s[8..16] == want[8..16];
    assert s[16..18] == want[16..];
    assert s[0..18] == s[..8] + s[8..16] + s[16..18];
  }

  lemma BitsOfA()
    ensures BitOf(0x4b, 0) == 1 && BitOf(0x4b, 1) == 1 && BitOf(0x4b, 2) == 0 && BitOf(0x4b, 3) == 1
    ensures BitOf(0x4b, 4) == 0 && BitOf(0x4b, 5) == 0 && BitOf(0x4b, 6) == 1 && BitOf(0x4b, 7) == 0
    ensures BitOf(4, 0) == 0 && BitOf(4, 1) == 0 && BitOf(4, 2) == 1 && BitOf(4, 3) == 0
    ensures BitOf(4, 4) == 0 && BitOf(4, 5) == 0 && BitOf(4, 6) == 0 && BitOf(4, 7) == 0
    ensures BitOf(0, 0) == 0 && BitOf(0, 1) == 0
  {
  }

  // ---- section 3.2.4 ------------------------------------------------------------------

  lemma ByteIsLowFirst(b: byte)
    ensures Stream([b]) == LowFirst(b, 8)
  {
    hide Val, At, Stream, LowFirst;
    StreamByte([b], 0);
    assert b < Pow2(8) by { assert Pow2(8) == 256; }
    LowFirstReadsBack(Stream([b]), 0, b, 8);
    AtWhole(Stream([b]), LowFirst(b, 8));
  }

  lemma {:induction false} LowFirstJoined(lo: nat, hi: nat, n: nat, m: nat)
    requires lo < Pow2(n)
    ensures LowFirst(lo + Pow2(n) * hi, n + m) == LowFirst(lo, n) + LowFirst(hi, m)
    decreases n
  {
    if n > 0 {
      var v := lo + Pow2(n) * hi;
      PowTimes(n, hi);
      hide Pow2;
      var w := Pow2(n - 1) * hi;
      assert v == lo + 2 * w;
      assert v % 2 == lo % 2 && v / 2 == lo / 2 + w;
      HalfBelow(lo, n);
      LowFirstJoined(lo / 2, hi, n - 1, m);
    }
  }

  lemma HalfBelow(lo: nat, n: nat)
    requires n > 0 && lo < Pow2(n)
    ensures lo / 2 < Pow2(n - 1)
  {
  }

  lemma TwoBytes(n: nat)
    requires n < 65536
    ensures Stream([n % 256, n / 256]) == LowFirst(n, 16)
  {
    hide Stream, LowFirst;
    var lo, hi: byte := n % 256, n / 256;
    ByteIsLowFirst(lo);
    ByteIsLowFirst(hi);
    assert [lo] + [hi] == [lo, hi];
    StreamJoined([lo], [hi]);
    assert Pow2(8) == 256;
    LowFirstJoined(lo, hi, 8, 8);
  }

  /** A last stored block: the byte 1, the length and its complement in two bytes each, and the data. */
  function StoredBytes(data: seq<byte>): seq<byte>
    requires |data| < 65536
  {
    var n := |data|;
    [1] + [n % 256, n / 256] + [255 - n % 256, 255 - n / 256] + data
  }

  lemma OneBits()
    ensures Stream([1]) == [1] + ([0, 0] + [0, 0, 0, 0, 0])
  {
    ByteIsLowFirst(1);
    hide Stream;
    assert LowFirst(0, 4) == [0, 0, 0, 0];
  }

  lemma StoredBitsAre(data: seq<byte>)
    requires |data| < 65536
    ensures Stream(StoredBytes(data)) == [1] + ([0, 0] + StoredBits([0, 0, 0, 0, 0], data))
  {
    hide Stream, LowFirst;
    var n := |data|;
    var a, b, c := [1], [n % 256, n / 256], [255 - n % 256, 255 - n / 256];
    StreamJoined(a + b + c, data);
    StreamJoined(a + b, c);
    StreamJoined(a, b);
    TwoBytes(n);
    TwoBytes(65535 - n);
    assert (65535 - n) % 256 == 255 - n % 256 && (65535 - n) / 256 == 255 - n / 256;
    OneBits();
  }

  /** Every text of less than 64 KiB, stored, decompresses to itself. */
  lemma StoredReads(data: seq<byte>)
    requires |data| < 65536
    ensures ReadStream(Stream(StoredBytes(data)), 0, [], |data|) == Got(data, 40 + 8 * |data|)
  {
    hide Stream, StoredBytes, ReadStream, StoredBits;
    var s, bs := Stream(StoredBytes(data)), [Stored([0, 0, 0, 0, 0], data)];
    StoredBitsAre(data);
    OneStored(data);
    AtWhole(s, StreamBits(bs, 0));
    assert [] + data == data;
    ReadStreamInverts(s, 0, [], |data|, bs);
  }

  lemma OneStored(data: seq<byte>)
    requires |data| < 65536
    ensures var bs := [Stored([0, 0, 0, 0, 0], data)];
            && ValidStream(bs, 0) && StreamDecodable(bs) && StreamExpands([], bs)
            && StreamOutput([], bs) == [] + data
            && StreamBits(bs, 0) == [1] + ([0, 0] + StoredBits([0, 0, 0, 0, 0], data))
            && |StreamBits(bs, 0)| == 40 + 8 * |data|
  {
    assert LowFirst(0, 2) == [0, 0];
    hide Stream;
  }

  // ---- a dynamic block, bit by bit ----------------------------------------------------

  function BitZeros(n: nat): (r: seq<bit>)
    ensures |r| == n && forall i :: 0 <= i < n ==> r[i] == 0
  {
    seq(n, _ => 0)
  }

  /** The lengths listed: 18 third, then nothing up to 1, which is last. */
  lemma TinyListed(i: nat)
    requires i < 18
    ensures |TINY_CL| == 19 && TINY_CL[Order(i)] == if i == 2 || i == 17 then 1 else 0
  {
    OrderOfOnes(i);
    hide Order;
  }

  lemma OrderOfOnes(i: nat)
    requires i < 18
    ensures (Order(i) == 18 <==> i == 2) && (Order(i) == 1 <==> i == 17)
  {
  }

  lemma ThreeBits()
    ensures LowFirst(0, 3) == [0, 0, 0] && LowFirst(1, 3) == [1, 0, 0]
  {
  }

  lemma {:induction false} TinyListTail(i: nat)
    requires 3 <= i <= 17 && IsClLengths(TINY_CL)
    ensures ClBits(TINY_CL, i, 18) == BitZeros(3 * (17 - i)) + [1, 0, 0]
    decreases 17 - i
  {
    hide Order, LowFirst, TINY_CL;
    ThreeBits();
    TinyListed(i);
    if i == 17 {
      assert ClBits(TINY_CL, 18, 18) == [];
    } else {
      TinyListTail(i + 1);
      assert [0, 0, 0] + BitZeros(3 * (16 - i)) == BitZeros(3 * (17 - i));
    }
  }

  lemma TinyList()
    requires IsClLengths(TINY_CL)
    ensures ClBits(TINY_CL, 0, 18) == [0, 0, 0] + ([0, 0, 0] + ([1, 0, 0] + (BitZeros(42) + [1, 0, 0])))
  {
    hide Order, LowFirst, TINY_CL, ClBits;
    ThreeBits();
    TinyListed(0);
    TinyListed(1);
    TinyListed(2);
    TinyListTail(3);
    ListOne(0);
    ListOne(1);
    ListOne(2);
  }

  lemma ListOne(i: nat)
    requires i < 18 && IsClLengths(TINY_CL)
    ensures ClBits(TINY_CL, i, 18) == LowFirst(TINY_CL[Order(i)], 3) + ClBits(TINY_CL, i + 1, 18)
  {
  }

  /** With one bit each, 1 is written 0 and 18 is written 1. */
  lemma TinyCodes()
    ensures |TINY_CL| == 19 && TINY_CL[1] == 1 && TINY_CL[18] == 1
    ensures CodeBits(TINY_CL, 1) == [0] && CodeBits(TINY_CL, 18) == [1]
  {
    var cl := TINY_CL;
    assert cl[..1] == [] + Repeat(0, 1);
    assert cl[..18] == [] + Repeat(0, 1) + Repeat(1, 1) + Repeat(0, 16);
    hide Count, SymsOfLen;
    CountNone(1);
    CountRepeat([], 0, 1, 1);
    CountRepeat([] + Repeat(0, 1), 1, 1, 1);
    CountRepeat([] + Repeat(0, 1) + Repeat(1, 1), 0, 16, 1);
    OneBit();
  }

  lemma OneBit()
    ensures HighFirst(0, 1) == [0] && HighFirst(1, 1) == [1]
  {
  }

  lemma TinyRuns()
    requires AllRuns(TINY_CL, TINY.runs)
    ensures RunsBits(TINY_CL, TINY.runs)
            == [1] + [1, 1, 1, 1, 1, 1, 1] + ([1] + [1, 1, 0, 1, 0, 1, 1] + ([0] + ([0] + [])))
  {
    TinyCodes();
    SevenBits();
    hide CodeBits, LowFirst, TINY_CL, Pow2;
    var r := TINY.runs;
    assert r[1..] == [r[1], r[2], r[3]] && r[1..][1..] == [r[2], r[3]] && r[1..][1..][1..] == [r[3]] && r[1..][1..][1..][1..] == [];
    RunsOne(r);
    RunsOne(r[1..]);
    RunsOne(r[1..][1..]);
    RunsOne(r[1..][1..][1..]);
    assert LowFirst(0, 0) == [] by { assert |LowFirst(0, 0)| == 0; }
  }

  lemma RunsOne(ops: seq<Run>)
    requires AllRuns(TINY_CL, ops) && ops != []
    ensures AllRuns(TINY_CL, ops[1..]) && RunsBits(TINY_CL, ops) == RunBits(TINY_CL, ops[0]) + RunsBits(TINY_CL, ops[1..])
  {
  }

  lemma SevenBits()
    ensures LowFirst(127, 7) == [1, 1, 1, 1, 1, 1, 1] && LowFirst(107, 7) == [1, 1, 0, 1, 0, 1, 1]
    ensures LowFirst(0, 5) == [0, 0, 0, 0, 0] && LowFirst(14, 4) == [0, 1, 1, 1] && LowFirst(2, 2) == [0, 1]
  {
    hide LowFirst;
    Bits107();
    Bits127();
    FewBits();
  }

  lemma Bits107()
    ensures LowFirst(107, 7) == [1, 1, 0, 1, 0, 1, 1]
  {
    LowBits(107);
    hide LowFirst;
  }

  lemma Bits127()
    ensures LowFirst(127, 7) == [1, 1, 1, 1, 1, 1, 1]
  {
    LowBits(127);
    hide LowFirst;
  }

  lemma LowBits(n: nat)
    ensures LowFirst(n, 7) == [n % 2, n / 2 % 2, n / 4 % 2, n / 8 % 2, n / 16 % 2, n / 32 % 2, n / 64 % 2]
  {
    hide LowFirst;
    LowOne(n, 7);
    LowOne(n / 2, 6);
    LowOne(n / 4, 5);
    LowOne(n / 8, 4);
    LowOne(n / 16, 3);
    LowOne(n / 32, 2);
    LowOne(n / 64, 1);
    assert n / 2 / 2 == n / 4 && n / 4 / 2 == n / 8 && n / 8 / 2 == n / 16 && n / 16 / 2 == n / 32 && n / 32 / 2 == n / 64;
    assert |LowFirst(n / 64 / 2, 0)| == 0;
  }

  lemma LowOne(n: nat, k: nat)
    requires k > 0
    ensures LowFirst(n, k) == [n % 2] + LowFirst(n / 2, k - 1)
  {
  }

  lemma FewBits()
    ensures LowFirst(0, 5) == [0, 0, 0, 0, 0] && LowFirst(14, 4) == [0, 1, 1, 1] && LowFirst(2, 2) == [0, 1]
  {
    assert LowFirst(0, 3) == [0, 0, 0] && LowFirst(7, 3) == [1, 1, 1];
  }

  /** The end code of a block in which it has the only literal code. */
  lemma TinyEnd()
    ensures CodeBits(Repeat(0, 256) + [1], 256) == [0]
  {
    var ll := Repeat(0, 256) + [1];
    assert ll[..256] == [] + Repeat(0, 256);
    hide Count, SymsOfLen;
    CountNone(1);
    CountRepeat([], 0, 256, 1);
    OneBit();
  }

  const TINY_BITS: seq<bit> :=
    [1] + [0, 1] + [0, 0, 0, 0, 0] + [0, 0, 0, 0, 0] + [0, 1, 1, 1]
    + [0, 0, 0] + [0, 0, 0] + [1, 0, 0] + BitZeros(42) + [1, 0, 0]
    + [1] + [1, 1, 1, 1, 1, 1, 1] + [1] + [1, 1, 0, 1, 0, 1, 1] + [0] + [0] + [0]

  lemma TinyHeader()
    requires ValidHeader(TINY)
    ensures HeaderBits(TINY)
            == [0, 0, 0, 0, 0] + [0, 0, 0, 0, 0] + [0, 1, 1, 1]
               + (([0, 0, 0] + ([0, 0, 0] + ([1, 0, 0] + (BitZeros(42) + [1, 0, 0]))))
                  + ([1] + [1, 1, 1, 1, 1, 1, 1] + ([1] + [1, 1, 0, 1, 0, 1, 1] + ([0] + ([0] + [])))))
  {
    hide ClBits, RunsBits, LowFirst, TINY_CL, AgreeOutside, Unroll, Unrolls, Pow2;
    SevenBits();
    TinyList();
    TinyRuns();
  }

  /** Two zero runs, two ones and the end code: the last dynamic block of an empty output, every bit of it. */
  lemma TinyReads()
    ensures ReadStream(TINY_BITS, 0, [], 0) == Got([], |TINY_BITS|)
  {
    hide ReadStream, HeaderBits, BodyBits, ValidHeader, TINY_BITS, At;
    var bs := [Dynamic(TINY, [])];
    TinyStream();
    AtWhole(TINY_BITS, StreamBits(bs, 0));
    ReadStreamInverts(TINY_BITS, 0, [], 0, bs);
  }

  lemma TinyStream()
    ensures var bs := [Dynamic(TINY, [])];
            && ValidStream(bs, 0) && StreamDecodable(bs) && StreamExpands([], bs) && StreamOutput([], bs) == []
            && StreamBits(bs, 0) == TINY_BITS
  {
    TinyDynamicBlock(1, []);
    hide HeaderBits, LowFirst, BodyBits, ValidBlock, ValidHeader, Decodable, AllCodable, TINY, TINY_CL, HeaderLens, BlockBits,
         StreamBits, ValidStream, StreamDecodable, StreamExpands, StreamOutput, BlockExpands, BlockOutput;
    OneDynamic(TINY);
    TinyHeader();
    TinyBody();
    SevenBits();
    TinyJoins(BitZeros(42));
  }

  lemma OneDynamic(h: DynamicHeader.Header)
    requires ValidBlock(Dynamic(h, []), 1) && Decodable(Dynamic(h, []))
    ensures ValidHeader(h)
    ensures var bs := [Dynamic(h, [])];
            && ValidStream(bs, 0) && StreamDecodable(bs) && StreamExpands([], bs) && StreamOutput([], bs) == []
            && AllCodable(HeaderLens(h).0, HeaderLens(h).1, [])
            && StreamBits(bs, 0)
               == [1] + (LowFirst(2, 2) + (HeaderBits(h) + BodyBits(HeaderLens(h).0, HeaderLens(h).1, [])))
  {
    hide HeaderBits, LowFirst, BodyBits, ValidHeader, Decodable, AllCodable, HeaderLens;
  }

  lemma TinyBody()
    requires ValidBlock(Dynamic(TINY, []), 1)
    ensures BodyBits(HeaderLens(TINY).0, HeaderLens(TINY).1, []) == [0]
  {
    TinyRunsUnroll();
    TinyEnd();
    hide Unroll, Unrolls, CodeBits, TINY_CL, AgreeOutside, AllRuns;
    var all := Repeat(0, 256) + [1, 1];
    assert all[..257] == Repeat(0, 256) + [1];
  }

  lemma TinyJoins(z: seq<bit>)
    ensures [1] + ([0, 1] + (([0, 0, 0, 0, 0] + [0, 0, 0, 0, 0] + [0, 1, 1, 1]
               + (([0, 0, 0] + ([0, 0, 0] + ([1, 0, 0] + (z + [1, 0, 0]))))
                  + ([1] + [1, 1, 1, 1, 1, 1, 1] + ([1] + [1, 1, 0, 1, 0, 1, 1] + ([0] + ([0] + []))))) ) + [0]))
            == [1] + [0, 1] + [0, 0, 0, 0, 0] + [0, 0, 0, 0, 0] + [0, 1, 1, 1]
    + [0, 0, 0] + [0, 0, 0] + [1, 0, 0] + z + [1, 0, 0]
    + [1] + [1, 1, 1, 1, 1, 1, 1] + [1] + [1, 1, 0, 1, 0, 1, 1] + [0] + [0] + [0]
  {
  }
}
