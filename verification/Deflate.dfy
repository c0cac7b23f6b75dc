/**
  The DEFLATE format (RFC 1951) twice over: as a writer, which turns blocks of
  tokens into bits, and as a reader over a bit sequence.  The lemmas say the two
  are inverse, in both directions.
 */
module Deflate {
  import opened Bits
  import opened Huffman

  // ---- tokens ---------------------------------------------------------------

  // The length and distance tables of section 3.2.5: base values and extra bits.

  function LengthBase(i: nat): (r: nat)
    requires i < 29
  {
    [3, 4, 5, 6, 7, 8, 9, 10, 11, 13, 15, 17, 19, 23, 27,
     31, 35, 43, 51, 59, 67, 83, 99, 115, 131, 163, 195, 227, 258][i]
  }

  function LengthExtra(i: nat): (r: nat)
    requires i < 29
  {
    [0, 0, 0, 0, 0, 0, 0, 0, 1, 1, 1, 1, 2, 2, 2,
     2, 3, 3, 3, 3, 4, 4, 4, 4, 5, 5, 5, 5, 0][i]
  }

  function DistBase(i: nat): (r: nat)
    requires i < 30
    ensures r >= 1
  {
    [1, 2, 3, 4, 5, 7, 9, 13, 17, 25, 33, 49, 65, 97, 129,
     193, 257, 385, 513, 769, 1025, 1537, 2049, 3073, 4097, 6145, 8193, 12289, 16385, 24577][i]
  }

  function DistExtra(i: nat): (r: nat)
    requires i < 30
  {
    [0, 0, 0, 0, 1, 1, 2, 2, 3, 3, 4, 4, 5, 5, 6,
     6, 7, 7, 8, 8, 9, 9, 10, 10, 11, 11, 12, 12, 13, 13][i]
  }

  /** One step of a compressed block: a byte, a copy of earlier output, or the end. */
  datatype Item =
    | Literal(b: byte)
    | Copy(lsym: nat, lext: nat, dsym: nat, dext: nat)
    | End

  predicate ValidItem(t: Item)
  {
    t.Copy? ==>
      && t.lsym < 29 && t.lext < Pow2(LengthExtra(t.lsym))
      && t.dsym < 30 && t.dext < Pow2(DistExtra(t.dsym))
  }

  function Length(t: Item): nat
    requires t.Copy? && ValidItem(t)
  {
    LengthBase(t.lsym) + t.lext
  }

  function Distance(t: Item): (d: nat)
    requires t.Copy? && ValidItem(t)
    ensures d >= 1
  {
    DistBase(t.dsym) + t.dext
  }

  /** The bases and extra bits leave no gaps: every length from 3 to 258 and every distance up to 32768 has an item. */
  lemma EveryCopyHasItem(len: nat, dist: nat) returns (t: Item)
    requires 3 <= len <= 258 && 1 <= dist <= 32768
    ensures ValidItem(t) && t.Copy? && Length(t) == len && Distance(t) == dist
  {
    hide LengthBase, LengthExtra, DistBase, DistExtra, Pow2;
    LengthTop();
    var i: nat := 28;
    while LengthBase(i) > len
      invariant i <= 28
      invariant i < 28 ==> len < LengthBase(i + 1)
      decreases i
    {
      LengthTile(i);
      i := i - 1;
    }
    var j: nat := 29;
    DistTop();
    while DistBase(j) > dist
      invariant j <= 29
      invariant if j < 29 then dist < DistBase(j + 1) else dist < DistBase(29) + Pow2(DistExtra(29))
      decreases j
    {
      DistTile(j);
      j := j - 1;
    }
    LengthStep(i);
    DistStep(j);
    t := Copy(i, len - LengthBase(i), j, dist - DistBase(j));
  }

  lemma LengthTop()
    ensures LengthBase(0) == 3 && LengthBase(28) == 258
  {
  }

  lemma LengthTile(i: nat)
    requires i < 29 && LengthBase(i) > 3
    ensures i > 0
  {
  }

  lemma LengthStep(i: nat)
    requires i < 29
    ensures i < 28 ==> LengthBase(i + 1) <= LengthBase(i) + Pow2(LengthExtra(i))
    ensures Pow2(LengthExtra(i)) >= 1
  {
    SmallPowers();
    hide Pow2;
  }

  lemma DistTop()
    ensures DistBase(0) == 1 && DistBase(29) + Pow2(DistExtra(29)) == 32769
  {
    SmallPowers();
  }

  lemma DistTile(i: nat)
    requires i < 30 && DistBase(i) > 1
    ensures i > 0
  {
  }

  lemma DistStep(i: nat)
    requires i < 30
    ensures i < 29 ==> DistBase(i + 1) == DistBase(i) + Pow2(DistExtra(i))
  {
    SmallPowers();
    hide Pow2;
    assert DistBase(i) >= 1;
  }

  lemma SmallPowers()
    ensures Pow2(0) == 1 && Pow2(1) == 2 && Pow2(2) == 4 && Pow2(3) == 8 && Pow2(4) == 16 && Pow2(5) == 32 && Pow2(6) == 64
    ensures Pow2(7) == 128 && Pow2(8) == 256 && Pow2(9) == 512 && Pow2(10) == 1024 && Pow2(11) == 2048
    ensures Pow2(12) == 4096 && Pow2(13) == 8192
  {
  }

  /** `len` bytes copied from `dist` back, one at a time, so a copy may read what it wrote. */
  function CopyBack(out: seq<byte>, dist: nat, len: nat): (r: seq<byte>)
    requires 1 <= dist <= |out|
    ensures |r| == |out| + len && out <= r
    decreases len
  {
    if len == 0 then out else CopyBack(out + [out[|out| - dist]], dist, len - 1)
  }

  /** A copy, overlapping or not, is the one extension of the output with period `dist`. */
  lemma {:induction false} CopyBackIsPeriodic(out: seq<byte>, dist: nat, len: nat, r: seq<byte>)
    requires 1 <= dist <= |out|
    ensures r == CopyBack(out, dist, len) <==>
            |r| == |out| + len && out <= r && forall j :: |out| <= j < |r| ==> r[j] == r[j - dist]
    decreases len
  {
    if len > 0 {
      var next := out + [out[|out| - dist]];
      CopyBackIsPeriodic(next, dist, len - 1, r);
      if out <= r && |r| == |out| + len && r[|out|] == r[|out| - dist] {
        assert next <= r;
      }
    }
  }

  predicate Applies(out: seq<byte>, t: Item, cap: nat)
    requires ValidItem(t)
  {
    match t
    case Literal(b) => |out| < cap
    case Copy(_, _, _, _) => Distance(t) <= |out| && |out| + Length(t) <= cap
    case End => true
  }

  function Apply(out: seq<byte>, t: Item): (r: seq<byte>)
    requires ValidItem(t) && (t.Copy? ==> Distance(t) <= |out|)
    ensures out <= r
  {
    match t
    case Literal(b) => out + [b]
    case Copy(_, _, _, _) => CopyBack(out, Distance(t), Length(t))
    case End => out
  }

  // ---- items as bits ------------------------------------------------------------

  function Take(s: seq<bit>, k: nat, n: nat): (r: Parsed<nat>)
    ensures r.Got? ==> r.next == k + n <= |s|
  {
    if k + n <= |s| then Got(Val(s, k, n), k + n) else Fail
  }

  predicate HasCode(lens: seq<int>, sym: int)
  {
    0 <= sym < |lens| && lens[sym] > 0
  }

  /** Every symbol the item needs has a code. */
  predicate Codable(ll: seq<int>, dl: seq<int>, t: Item)
  {
    && ValidItem(t)
    && match t
       case Literal(b) => HasCode(ll, b)
       case Copy(ls, _, ds, _) => HasCode(ll, 257 + ls) && HasCode(dl, ds)
       case End => HasCode(ll, 256)
  }

  function ItemBits(ll: seq<int>, dl: seq<int>, t: Item): (r: seq<bit>)
    requires Codable(ll, dl, t)
  {
    match t
    case Literal(b) => CodeBits(ll, b)
    case Copy(ls, le, ds, de) =>
      CodeBits(ll, 257 + ls) + LowFirst(le, LengthExtra(ls)) + CodeBits(dl, ds) + LowFirst(de, DistExtra(ds))
    case End => CodeBits(ll, 256)
  }

  function ReadItem(s: seq<bit>, k: nat, ll: seq<int>, dl: seq<int>): (r: Parsed<Item>)
    requires k <= |s|
    ensures r.Got? ==> k < r.next <= |s| && ValidItem(r.value)
  {
    var (sym, k1) :- Decode(s, k, ll);
    if sym < 256 then Got(Literal(sym), k1)
    else if sym == 256 then Got(End, k1)
    else if sym - 257 >= 29 then Fail
    else
      var ls := sym - 257;
      var (le, k2) :- Take(s, k1, LengthExtra(ls));
      var (ds, k3) :- Decode(s, k2, dl);
      if ds >= 30 then Fail
      else
        var (de, k4) :- Take(s, k3, DistExtra(ds));
        ValBound(s, k1, LengthExtra(ls));
        ValBound(s, k3, DistExtra(ds));
        Got(Copy(ls, le, ds, de), k4)
  }

  lemma TakeIff(s: seq<bit>, k: nat, v: nat, n: nat)
    requires v < Pow2(n)
    ensures At(s, k, LowFirst(v, n)) <==> Take(s, k, n) == Got(v, k + n)
  {
    if k + n <= |s| {
      LowFirstReadsBack(s, k, v, n);
    }
  }

  /** An item that was read lies in the input exactly as the writer puts it. */
  lemma ReadItemSound(s: seq<bit>, k: nat, ll: seq<int>, dl: seq<int>)
    requires k <= |s|
    ensures var r := ReadItem(s, k, ll, dl);
            r.Got? ==> Codable(ll, dl, r.value)
                       && At(s, k, ItemBits(ll, dl, r.value))
                       && r.next == k + |ItemBits(ll, dl, r.value)|
  {
    hide CodeBits, Decode, At, Val, LowFirst, Pow2, LengthExtra, DistExtra;
    var r := ReadItem(s, k, ll, dl);
    DecodeSound(s, k, ll);
    CodeLength(ll);
    CodeLength(dl);
    if r.Got? && r.value.Copy? {
      var Copy(ls, le, ds, de) := r.value;
      var k1 := Decode(s, k, ll).next;
      var k2 := k1 + LengthExtra(ls);
      DecodeSound(s, k2, dl);
      TakeIff(s, k1, le, LengthExtra(ls));
      TakeIff(s, k2 + dl[ds], de, DistExtra(ds));
      AtSplit4(s, k, CodeBits(ll, 257 + ls), LowFirst(le, LengthExtra(ls)), CodeBits(dl, ds), LowFirst(de, DistExtra(ds)));
    }
  }

  lemma CodeLength(lens: seq<int>)
    ensures forall sym | HasCode(lens, sym) :: |CodeBits(lens, sym)| == lens[sym]
  {
  }

  /** What the writer put, followed by anything, is read back. */
  lemma ReadItemInverts(s: seq<bit>, k: nat, ll: seq<int>, dl: seq<int>, t: Item)
    requires IsLengths(ll) && Kraft(ll) && IsLengths(dl) && Kraft(dl) && Codable(ll, dl, t)
    requires At(s, k, ItemBits(ll, dl, t)) && k <= |s|
    ensures ReadItem(s, k, ll, dl) == Got(t, k + |ItemBits(ll, dl, t)|)
  {
    hide CodeBits, Decode, At, Val, LowFirst, Pow2, LengthExtra, DistExtra, KraftSum;
    CodeLength(ll);
    CodeLength(dl);
    match t
    case Literal(b) => DecodeInvertsCode(s, k, ll, b);
    case End => DecodeInvertsCode(s, k, ll, 256);
    case Copy(ls, le, ds, de) =>
      AtSplit4(s, k, CodeBits(ll, 257 + ls), LowFirst(le, LengthExtra(ls)), CodeBits(dl, ds), LowFirst(de, DistExtra(ds)));
      DecodeInvertsCode(s, k, ll, 257 + ls);
      var k1 := k + ll[257 + ls];
      TakeIff(s, k1, le, LengthExtra(ls));
      DecodeInvertsCode(s, k1 + LengthExtra(ls), dl, ds);
      TakeIff(s, k1 + LengthExtra(ls) + dl[ds], de, DistExtra(ds));
  }

  // ---- the body of a compressed block ------------------------------------------

  predicate AllCodable(ll: seq<int>, dl: seq<int>, ts: seq<Item>)
  {
    && Codable(ll, dl, End)
    && forall i :: 0 <= i < |ts| ==> !ts[i].End? && Codable(ll, dl, ts[i])
  }

  /** The items one after the other, then the end-of-block code. */
  function BodyBits(ll: seq<int>, dl: seq<int>, ts: seq<Item>): (r: seq<bit>)
    requires AllCodable(ll, dl, ts)
  {
    if ts == [] then ItemBits(ll, dl, End)
    else ItemBits(ll, dl, ts[0]) + BodyBits(ll, dl, ts[1..])
  }

  /** No copy reaches back before the start of the output. */
  predicate Expands(out: seq<byte>, ts: seq<Item>)
    decreases |ts|
  {
    ts != [] ==>
      && ValidItem(ts[0])
      && (ts[0].Copy? ==> Distance(ts[0]) <= |out|)
      && Expands(Apply(out, ts[0]), ts[1..])
  }

  function Expand(out: seq<byte>, ts: seq<Item>): (r: seq<byte>)
    requires Expands(out, ts)
    ensures out <= r
    decreases |ts|
  {
    if ts == [] then out else Expand(Apply(out, ts[0]), ts[1..])
  }

  function ReadBody(s: seq<bit>, k: nat, out: seq<byte>, cap: nat, ll: seq<int>, dl: seq<int>): (r: Parsed<seq<byte>>)
    requires k <= |s|
    ensures r.Got? ==> k < r.next <= |s|
    decreases |s| - k
  {
    var (t, k1) :- ReadItem(s, k, ll, dl);
    if !Applies(out, t, cap) then Fail
    else if t.End? then Got(out, k1)
    else ReadBody(s, k1, Apply(out, t), cap, ll, dl)
  }

  lemma {:induction false} ReadBodyInverts(s: seq<bit>, k: nat, out: seq<byte>, cap: nat, ll: seq<int>, dl: seq<int>, ts: seq<Item>)
    requires IsLengths(ll) && Kraft(ll) && IsLengths(dl) && Kraft(dl) && AllCodable(ll, dl, ts)
    requires Expands(out, ts) && |Expand(out, ts)| <= cap
    requires k <= |s| && At(s, k, BodyBits(ll, dl, ts))
    ensures ReadBody(s, k, out, cap, ll, dl) == Got(Expand(out, ts), k + |BodyBits(ll, dl, ts)|)
    decreases ts
  {
    hide ItemBits, ReadItem, At, KraftSum, Codable, CopyBack, LengthBase, DistBase;
    if ts == [] {
      ReadItemInverts(s, k, ll, dl, End);
    } else {
      AtSplit(s, k, ItemBits(ll, dl, ts[0]), BodyBits(ll, dl, ts[1..]));
      ReadItemInverts(s, k, ll, dl, ts[0]);
      AtBounds(s, k + |ItemBits(ll, dl, ts[0])|, BodyBits(ll, dl, ts[1..]));
      ReadBodyInverts(s, k + |ItemBits(ll, dl, ts[0])|, Apply(out, ts[0]), cap, ll, dl, ts[1..]);
    }
  }

  lemma BodyNil(ll: seq<int>, dl: seq<int>, out: seq<byte>)
    ensures AllCodable(ll, dl, []) <==> Codable(ll, dl, End)
    ensures AllCodable(ll, dl, []) ==> BodyBits(ll, dl, []) == ItemBits(ll, dl, End)
    ensures Expands(out, []) && Expand(out, []) == out
  {
    hide Codable, ItemBits;
  }

  lemma BodyCons(ll: seq<int>, dl: seq<int>, out: seq<byte>, t: Item, rest: seq<Item>)
    requires AllCodable(ll, dl, rest) && Codable(ll, dl, t) && !t.End? && ValidItem(t)
    requires t.Copy? ==> Distance(t) <= |out|
    requires Expands(Apply(out, t), rest)
    ensures AllCodable(ll, dl, [t] + rest)
    ensures BodyBits(ll, dl, [t] + rest) == ItemBits(ll, dl, t) + BodyBits(ll, dl, rest)
    ensures Expands(out, [t] + rest) && Expand(out, [t] + rest) == Expand(Apply(out, t), rest)
  {
    hide Codable, ItemBits, Apply, Distance, ValidItem;
    assert ([t] + rest)[1..] == rest;
  }

  /** A body that was read is some item sequence as the writer puts it. */
  lemma {:induction false} ReadBodySound(s: seq<bit>, k: nat, out: seq<byte>, cap: nat, ll: seq<int>, dl: seq<int>) returns (ts: seq<Item>)
    requires k <= |s| && |out| <= cap && ReadBody(s, k, out, cap, ll, dl).Got?
    ensures AllCodable(ll, dl, ts) && Expands(out, ts) && |Expand(out, ts)| <= cap
    ensures At(s, k, BodyBits(ll, dl, ts))
    ensures ReadBody(s, k, out, cap, ll, dl) == Got(Expand(out, ts), k + |BodyBits(ll, dl, ts)|)
    decreases |s| - k
  {
    hide ItemBits, ReadItem, At, KraftSum, Codable, CopyBack, LengthBase, DistBase, Expands, Expand, BodyBits, AllCodable;
    BodyNil(ll, dl, out);
    ReadItemSound(s, k, ll, dl);
    var Got(t, k1) := ReadItem(s, k, ll, dl);
    if t.End? {
      ts := [];
    } else {
      var rest := ReadBodySound(s, k1, Apply(out, t), cap, ll, dl);
      ts := [t] + rest;
      BodyCons(ll, dl, out, t, rest);
      AtSplit(s, k, ItemBits(ll, dl, t), BodyBits(ll, dl, rest));
    }
  }
}
