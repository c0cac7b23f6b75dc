/**
  Whole DEFLATE streams: stored, fixed and dynamic blocks, the last one marked.
 */
module DeflateStream {
  import opened Bits
  import opened Huffman
  import opened Deflate
  import opened DynamicHeader

  // ---- the fixed code --------------------------------------------------------------

  const FixedLitLens: seq<int> := Repeat(8, 144) + Repeat(9, 112) + Repeat(7, 24) + Repeat(8, 8)
  const FixedDistLens: seq<int> := Repeat(5, 30)

  lemma KraftSnoc(lens: seq<int>, v: int)
    requires IsLengths(lens) && |lens| < 320 && 1 <= v <= 15
    ensures IsLengths(lens + [v]) && KraftSum(lens + [v]) == KraftSum(lens) + Pow2(15 - v)
  {
    assert (lens + [v])[..|lens|] == lens;
  }

  lemma {:induction false} KraftOfRepeat(lens: seq<int>, v: int, n: nat, w: nat)
    requires IsLengths(lens) && |lens| + n <= 320 && 1 <= v <= 15 && w == Pow2(15 - v)
    ensures IsLengths(lens + Repeat(v, n))
    ensures KraftSum(lens + Repeat(v, n)) == KraftSum(lens) + n * w
    decreases n
  {
    hide Pow2, Repeat, KraftSum, IsLengths;
    if n == 0 {
      assert lens + Repeat(v, n) == lens;
    } else {
      KraftOfRepeat(lens, v, n - 1, w);
      KraftSnoc(lens + Repeat(v, n - 1), v);
      assert lens + Repeat(v, n) == lens + Repeat(v, n - 1) + [v];
      assert n * w == (n - 1) * w + w;
    }
  }

  /** The fixed literal code uses up the code space; the distance code leaves two codes unused. */
  lemma FixedCodesFit()
    ensures IsLengths(FixedLitLens) && KraftSum(FixedLitLens) == Pow2(15)
    ensures IsLengths(FixedDistLens) && KraftSum(FixedDistLens) == Pow2(15) - 2 * Pow2(10)
  {
    hide KraftSum, IsLengths, Repeat;
    FixedWidths();
    NoLengthsFit();
    KraftOfRepeat([], 8, 144, 128);
    KraftOfRepeat([] + Repeat(8, 144), 9, 112, 64);
    KraftOfRepeat([] + Repeat(8, 144) + Repeat(9, 112), 7, 24, 256);
    KraftOfRepeat([] + Repeat(8, 144) + Repeat(9, 112) + Repeat(7, 24), 8, 8, 128);
    KraftOfRepeat([], 5, 30, 1024);
    assert [] + Repeat(8, 144) == Repeat(8, 144) && [] + FixedDistLens == FixedDistLens;
  }

  lemma FixedWidths()
    ensures Pow2(6) == 64 && Pow2(7) == 128 && Pow2(8) == 256 && Pow2(10) == 1024 && Pow2(15) == 32768
  {
  }

  lemma NoLengthsFit()
    ensures IsLengths([]) && KraftSum([]) == 0
  {
  }

  /** Under the fixed codes every item can be written. */
  lemma FixedCodesEverything(t: Item)
    requires ValidItem(t)
    ensures Codable(FixedLitLens, FixedDistLens, t)
  {
    hide LengthExtra, DistExtra, Pow2;
  }

  // ---- blocks ---------------------------------------------------------------------

  /** `pad` is whatever the writer leaves in the bits up to the next byte. */
  datatype Block =
    | Stored(pad: seq<bit>, data: seq<byte>)
    | Fixed(items: seq<Item>)
    | Dynamic(header: Header, items: seq<Item>)

  function PadLength(k: nat): nat
  {
    (8 - k % 8) % 8
  }

  /** A block the format allows at bit `k` (the position of its type). */
  ghost predicate ValidBlock(b: Block, k: nat)
  {
    match b
    case Stored(pad, data) => |pad| == PadLength(k + 2) && |data| < 65536
    case Fixed(items) => AllCodable(FixedLitLens, FixedDistLens, items)
    case Dynamic(h, items) => ValidHeader(h) && AllCodable(HeaderLens(h).0, HeaderLens(h).1, items)
  }

  /** None of the block's own codes is over-subscribed. */
  ghost predicate Decodable(b: Block)
    requires b.Dynamic? ==> ValidHeader(b.header)
  {
    b.Dynamic? ==>
      && Kraft(b.header.cl)
      && IsLengths(HeaderLens(b.header).0) && Kraft(HeaderLens(b.header).0)
      && IsLengths(HeaderLens(b.header).1) && Kraft(HeaderLens(b.header).1)
  }

  function StoredBits(pad: seq<bit>, data: seq<byte>): (r: seq<bit>)
    requires |data| < 65536
  {
    pad + LowFirst(|data|, 16) + LowFirst(65535 - |data|, 16) + Stream(data)
  }

  function BlockBits(b: Block, k: nat): (r: seq<bit>)
    requires ValidBlock(b, k)
  {
    match b
    case Stored(pad, data) => LowFirst(0, 2) + StoredBits(pad, data)
    case Fixed(items) => LowFirst(1, 2) + BodyBits(FixedLitLens, FixedDistLens, items)
    case Dynamic(h, items) =>
      LowFirst(2, 2) + (HeaderBits(h) + BodyBits(HeaderLens(h).0, HeaderLens(h).1, items))
  }

  predicate BlockExpands(out: seq<byte>, b: Block)
  {
    b.Stored? || Expands(out, b.items)
  }

  function BlockOutput(out: seq<byte>, b: Block): (r: seq<byte>)
    requires BlockExpands(out, b)
    ensures out <= r
  {
    if b.Stored? then out + b.data else Expand(out, b.items)
  }

  // ---- reading one block -------------------------------------------------------------

  /** The `n` bytes at the byte-aligned position `k`. */
  function BytesAt(s: seq<bit>, k: nat, n: nat): (r: seq<byte>)
    requires k + 8 * n <= |s|
    ensures |r| == n
  {
    seq(n, i requires 0 <= i < n => ByteAt(s, k + 8 * i))
  }

  function ByteAt(s: seq<bit>, k: nat): (r: byte)
    requires k + 8 <= |s|
  {
    ValBound(s, k, 8);
    assert Pow2(8) == 256;
    Val(s, k, 8)
  }

  function ReadStored(s: seq<bit>, k: nat, out: seq<byte>, cap: nat): (r: Parsed<seq<byte>>)
    requires k <= |s|
    ensures r.Got? ==> k < r.next <= |s|
  {
    var k0 := k + PadLength(k);
    var (len, k1) :- Take(s, k0, 16);
    var (nlen, k2) :- Take(s, k1, 16);
    if len + nlen != 65535 || k2 + 8 * len > |s| || |out| + len > cap then Fail
    else Got(out + BytesAt(s, k2, len), k2 + 8 * len)
  }

  function ReadBlock(s: seq<bit>, k: nat, out: seq<byte>, cap: nat): (r: Parsed<seq<byte>>)
    requires k <= |s|
    ensures r.Got? ==> k < r.next <= |s|
  {
    var (kind, k1) :- Take(s, k, 2);
    match kind
    case 0 => ReadStored(s, k1, out, cap)
    case 1 => ReadBody(s, k1, out, cap, FixedLitLens, FixedDistLens)
    case 2 =>
      var (lens, k2) :- ReadHeader(s, k1);
      ReadBody(s, k2, out, cap, lens.0, lens.1)
    case _ => Fail
  }

  lemma ByteIff(s: seq<bit>, k: nat, b: byte)
    requires k + 8 <= |s|
    ensures At(s, k, Stream([b])) <==> ByteAt(s, k) == b
  {
    hide Val, At, Stream;
    var t := Stream([b]);
    StreamByte([b], 0);
    assert b < Pow2(8) by { assert Pow2(8) == 256; }
    LowFirstReadsBack(t, 0, b, 8);
    AtWhole(t, LowFirst(b, 8));
    LowFirstReadsBack(s, k, b, 8);
  }

  lemma AtWhole<T>(s: seq<T>, t: seq<T>)
    requires |s| == |t|
    ensures At(s, 0, t) <==> s == t
  {
  }

  /** The stored bytes are in the input exactly when they are what is read from it. */
  lemma {:induction false} BytesIff(s: seq<bit>, k: nat, data: seq<byte>)
    requires k + 8 * |data| <= |s|
    ensures At(s, k, Stream(data)) <==> BytesAt(s, k, |data|) == data
    decreases |data|
  {
    hide At, Stream, ByteAt;
    if data == [] {
      assert Stream(data) == [] by { assert |Stream(data)| == 0; }
      AtEmpty(s, k);
    } else {
      StreamHead(data);
      AtSplit(s, k, Stream(data[..1]), Stream(data[1..]));
      ByteIff(s, k, data[0]);
      assert data[..1] == [data[0]];
      BytesIff(s, k + 8, data[1..]);
      var all, rest := BytesAt(s, k, |data|), BytesAt(s, k + 8, |data| - 1);
      assert all == [ByteAt(s, k)] + rest;
      assert data == [data[0]] + data[1..];
    }
  }

  lemma Sixteen()
    ensures Pow2(16) == 65536
  {
    assert Pow2(8) == 256;
  }

  lemma ReadStoredInverts(s: seq<bit>, k: nat, out: seq<byte>, cap: nat, pad: seq<bit>, data: seq<byte>)
    requires k <= |s| && |pad| == PadLength(k) && |data| < 65536 && |out| + |data| <= cap
    requires At(s, k, StoredBits(pad, data))
    ensures ReadStored(s, k, out, cap) == Got(out + data, k + |StoredBits(pad, data)|)
  {
    hide At, Stream, LowFirst, Val, Pow2, BytesAt, PadLength;
    Sixteen();
    AtSplit4(s, k, pad, LowFirst(|data|, 16), LowFirst(65535 - |data|, 16), Stream(data));
    var k0 := k + |pad|;
    TakeIff(s, k0, |data|, 16);
    TakeIff(s, k0 + 16, 65535 - |data|, 16);
    AtBounds(s, k0 + 32, Stream(data));
    BytesIff(s, k0 + 32, data);
  }

  lemma ReadStoredSound(s: seq<bit>, k: nat, out: seq<byte>, cap: nat) returns (pad: seq<bit>, data: seq<byte>)
    requires k <= |s| && ReadStored(s, k, out, cap).Got?
    ensures |pad| == PadLength(k) && |data| < 65536 && |out| + |data| <= cap
    ensures At(s, k, StoredBits(pad, data))
    ensures ReadStored(s, k, out, cap) == Got(out + data, k + |StoredBits(pad, data)|)
  {
    hide Stream, LowFirst, Val, Pow2, BytesAt, PadLength;
    Sixteen();
    var k0 := k + PadLength(k);
    pad := s[k..k0];
    var len := Val(s, k0, 16);
    ValBound(s, k0, 16);
    data := BytesAt(s, k0 + 32, len);
    TakeIff(s, k0, |data|, 16);
    TakeIff(s, k0 + 16, 65535 - |data|, 16);
    BytesIff(s, k0 + 32, data);
    AtSplit4(s, k, pad, LowFirst(|data|, 16), LowFirst(65535 - |data|, 16), Stream(data));
  }

  lemma TypeBits(s: seq<bit>, k: nat, v: nat)
    requires v < 4
    ensures At(s, k, LowFirst(v, 2)) <==> Take(s, k, 2) == Got(v, k + 2)
  {
    assert Pow2(2) == 4;
    TakeIff(s, k, v, 2);
  }

  lemma ReadBlockInverts(s: seq<bit>, k: nat, out: seq<byte>, cap: nat, b: Block)
    requires k <= |s| && ValidBlock(b, k) && Decodable(b)
    requires BlockExpands(out, b) && |BlockOutput(out, b)| <= cap
    requires At(s, k, BlockBits(b, k))
    ensures ReadBlock(s, k, out, cap) == Got(BlockOutput(out, b), k + |BlockBits(b, k)|)
  {
    hide At, LowFirst, Val, BodyBits, HeaderBits, StoredBits, ReadBody, ReadHeader, ReadStored;
    hide FixedLitLens, FixedDistLens, KraftSum, Expand, Expands, HeaderLens, Unroll;
    hide AllCodable, ValidHeader, PadLength;
    match b
    case Stored(pad, data) =>
      TypeBits(s, k, 0);
      AtSplit(s, k, LowFirst(0, 2), StoredBits(pad, data));
      ReadStoredInverts(s, k + 2, out, cap, pad, data);
    case Fixed(items) =>
      TypeBits(s, k, 1);
      AtSplit(s, k, LowFirst(1, 2), BodyBits(FixedLitLens, FixedDistLens, items));
      FixedCodesFit();
      ReadBodyInverts(s, k + 2, out, cap, FixedLitLens, FixedDistLens, items);
    case Dynamic(h, items) =>
      TypeBits(s, k, 2);
      var (ll, dl) := HeaderLens(h);
      AtSplit(s, k, LowFirst(2, 2), HeaderBits(h) + BodyBits(ll, dl, items));
      AtSplit(s, k + 2, HeaderBits(h), BodyBits(ll, dl, items));
      ReadHeaderInverts(s, k + 2, h);
      ReadBodyInverts(s, k + 2 + |HeaderBits(h)|, out, cap, ll, dl, items);
  }

  lemma ReadBlockSound(s: seq<bit>, k: nat, out: seq<byte>, cap: nat) returns (b: Block)
    requires k <= |s| && |out| <= cap && ReadBlock(s, k, out, cap).Got?
    ensures ValidBlock(b, k) && BlockExpands(out, b) && |BlockOutput(out, b)| <= cap
    ensures At(s, k, BlockBits(b, k))
    ensures ReadBlock(s, k, out, cap) == Got(BlockOutput(out, b), k + |BlockBits(b, k)|)
  {
    hide At, LowFirst, Val, BodyBits, HeaderBits, StoredBits, ReadBody, ReadHeader, ReadStored;
    hide FixedLitLens, FixedDistLens, Expand, Expands, HeaderLens, Unroll;
    hide AllCodable, ValidHeader, PadLength;
    var kind := Val(s, k, 2);
    if kind == 0 {
      var pad, data := ReadStoredSound(s, k + 2, out, cap);
      b := Stored(pad, data);
      TypeBits(s, k, 0);
      AtSplit(s, k, LowFirst(0, 2), StoredBits(pad, data));
    } else if kind == 1 {
      var items := ReadBodySound(s, k + 2, out, cap, FixedLitLens, FixedDistLens);
      b := Fixed(items);
      TypeBits(s, k, 1);
      AtSplit(s, k, LowFirst(1, 2), BodyBits(FixedLitLens, FixedDistLens, items));
    } else {
      var h := ReadHeaderSound(s, k + 2);
      var (ll, dl) := HeaderLens(h);
      var items := ReadBodySound(s, k + 2 + |HeaderBits(h)|, out, cap, ll, dl);
      b := Dynamic(h, items);
      TypeBits(s, k, 2);
      AtSplit(s, k, LowFirst(2, 2), HeaderBits(h) + BodyBits(ll, dl, items));
      AtSplit(s, k + 2, HeaderBits(h), BodyBits(ll, dl, items));
    }
  }

  // ---- streams ---------------------------------------------------------------------

  /** Where the block after `b` begins, when `b`'s own last-block flag is bit `k`. */
  ghost function After(b: Block, k: nat): nat
    requires ValidBlock(b, k + 1)
  {
    k + 1 + |BlockBits(b, k + 1)|
  }

  ghost predicate ValidStream(bs: seq<Block>, k: nat)
    decreases |bs|
  {
    && bs != []
    && ValidBlock(bs[0], k + 1)
    && (|bs| > 1 ==> ValidStream(bs[1..], After(bs[0], k)))
  }

  /** The blocks one after the other from bit `k`, the last one marked as such. */
  ghost function StreamBits(bs: seq<Block>, k: nat): (r: seq<bit>)
    requires ValidStream(bs, k)
    decreases |bs|
  {
    if |bs| == 1 then [1] + BlockBits(bs[0], k + 1)
    else [0] + BlockBits(bs[0], k + 1) + StreamBits(bs[1..], After(bs[0], k))
  }

  ghost predicate StreamDecodable(bs: seq<Block>)
  {
    forall i :: 0 <= i < |bs| ==> (bs[i].Dynamic? ==> ValidHeader(bs[i].header)) && Decodable(bs[i])
  }

  predicate StreamExpands(out: seq<byte>, bs: seq<Block>)
    decreases |bs|
  {
    bs != [] ==> BlockExpands(out, bs[0]) && StreamExpands(BlockOutput(out, bs[0]), bs[1..])
  }

  function StreamOutput(out: seq<byte>, bs: seq<Block>): (r: seq<byte>)
    requires StreamExpands(out, bs)
    ensures out <= r
    decreases |bs|
  {
    if bs == [] then out else StreamOutput(BlockOutput(out, bs[0]), bs[1..])
  }

  /** The decompressed bytes, or failure. */
  function ReadStream(s: seq<bit>, k: nat, out: seq<byte>, cap: nat): (r: Parsed<seq<byte>>)
    requires k <= |s|
    ensures r.Got? ==> k < r.next <= |s|
    decreases |s| - k
  {
    var (last, k1) :- Take(s, k, 1);
    var (out', k2) :- ReadBlock(s, k1, out, cap);
    if last == 1 then Got(out', k2) else ReadStream(s, k2, out', cap)
  }

  lemma BitIff(s: seq<bit>, k: nat, b: bit)
    ensures At(s, k, [b]) <==> Take(s, k, 1) == Got(b, k + 1)
  {
    assert LowFirst(b, 1) == [b];
    TakeIff(s, k, b, 1);
  }

  lemma AtSplit3<T>(s: seq<T>, k: nat, a: seq<T>, b: seq<T>, c: seq<T>)
    ensures At(s, k, a + b + c) <==> At(s, k, a) && At(s, k + |a|, b) && At(s, k + |a| + |b|, c)
  {
    hide At;
    AtSplit(s, k, a, b);
    AtSplit(s, k, a + b, c);
  }

  /**
    Every stream of stored, fixed and dynamic blocks whose codes are not
    over-subscribed expands to exactly what its items say, whatever bits follow.
   */
  lemma {:induction false} ReadStreamInverts(s: seq<bit>, k: nat, out: seq<byte>, cap: nat, bs: seq<Block>)
    requires k <= |s| && ValidStream(bs, k) && StreamDecodable(bs)
    requires StreamExpands(out, bs) && |StreamOutput(out, bs)| <= cap
    requires At(s, k, StreamBits(bs, k))
    ensures ReadStream(s, k, out, cap) == Got(StreamOutput(out, bs), k + |StreamBits(bs, k)|)
    decreases |bs|
  {
    hide At, BlockBits, ReadBlock, ValidBlock, Decodable, BlockOutput, BlockExpands, Val, ValidHeader;
    var b := bs[0];
    var bits := BlockBits(b, k + 1);
    if |bs| == 1 {
      AtSplit(s, k, [1], bits);
      BitIff(s, k, 1);
      AtBounds(s, k + 1, bits);
      ReadBlockInverts(s, k + 1, out, cap, b);
    } else {
      var k2 := k + 1 + |bits|;
      AtSplit3(s, k, [0], bits, StreamBits(bs[1..], k2));
      BitIff(s, k, 0);
      AtBounds(s, k + 1, bits);
      ReadBlockInverts(s, k + 1, out, cap, b);
      ReadStreamInverts(s, k2, BlockOutput(out, b), cap, bs[1..]);
    }
  }

  /** Conversely, whatever decompresses is such a stream: nothing else is accepted. */
  lemma {:induction false} ReadStreamSound(s: seq<bit>, k: nat, out: seq<byte>, cap: nat) returns (bs: seq<Block>)
    requires k <= |s| && |out| <= cap && ReadStream(s, k, out, cap).Got?
    ensures ValidStream(bs, k) && StreamExpands(out, bs) && |StreamOutput(out, bs)| <= cap
    ensures At(s, k, StreamBits(bs, k))
    ensures ReadStream(s, k, out, cap) == Got(StreamOutput(out, bs), k + |StreamBits(bs, k)|)
    decreases |s| - k
  {
    hide At, BlockBits, ReadBlock, ValidBlock, BlockOutput, BlockExpands, Val;
    var b := ReadBlockSound(s, k + 1, out, cap);
    var bits := BlockBits(b, k + 1);
    var last := Val(s, k, 1);
    Val1(s, k);
    BitIff(s, k, last);
    if last == 1 {
      bs := [b];
      assert bs[1..] == [];
      AtSplit(s, k, [1], bits);
    } else {
      var k2 := k + 1 + |bits|;
      var rest := ReadStreamSound(s, k2, BlockOutput(out, b), cap);
      bs := [b] + rest;
      assert bs[1..] == rest;
      AtSplit3(s, k, [0], bits, StreamBits(rest, k2));
    }
  }

  lemma Val1(s: seq<bit>, k: nat)
    requires k < |s|
    ensures Val(s, k, 1) == s[k]
  {
  }

  // ---- every output can be written ---------------------------------------------------------

  /** A stored block at bit `k` of `data`. */
  function StoredAs(data: seq<byte>, k: nat): Block
  {
    Stored(LowFirst(0, PadLength(k + 2)), data)
  }

  /** Any bytes at all, cut into stored blocks from bit `k` on. */
  lemma {:induction false} StoreAll(data: seq<byte>, out: seq<byte>, k: nat) returns (bs: seq<Block>)
    ensures ValidStream(bs, k) && StreamDecodable(bs)
    ensures StreamExpands(out, bs) && StreamOutput(out, bs) == out + data
    decreases |data|
  {
    hide BlockBits, PadLength, LowFirst;
    if |data| < 65536 {
      bs := [StoredAs(data, k + 1)];
      assert bs[1..] == [];
    } else {
      var b := StoredAs(data[..65535], k + 1);
      var rest := StoreAll(data[65535..], out + data[..65535], After(b, k));
      bs := [b] + rest;
      assert bs[1..] == rest;
      assert out + data[..65535] + data[65535..] == out + data;
    }
  }

  // ---- the smallest dynamic block ---------------------------------------------------------

  lemma {:induction false} KraftOfZeros(lens: seq<int>, n: nat)
    requires IsLengths(lens) && |lens| + n <= 320
    ensures IsLengths(lens + Repeat(0, n)) && KraftSum(lens + Repeat(0, n)) == KraftSum(lens)
    decreases n
  {
    if n == 0 {
      assert lens + Repeat(0, n) == lens;
    } else {
      KraftOfZeros(lens, n - 1);
      assert lens + Repeat(0, n) == lens + Repeat(0, n - 1) + [0];
      assert (lens + Repeat(0, n))[..|lens| + n - 1] == lens + Repeat(0, n - 1);
    }
  }

  // Only the end-of-block code and one distance code, announced by two zero runs and two ones.
  const TINY_CL: seq<int> := Repeat(0, 1) + [1] + Repeat(0, 16) + [1]
  const TINY := Header(257, 1, 18, TINY_CL, [Run(18, 127), Run(18, 107), Run(1, 0), Run(1, 0)])

  /** The one length the header leaves out is that of 15, and it is zero. */
  lemma TinyClPlaces()
    ensures |NoLengths| == |TINY_CL| == 19 && AgreeOutside(NoLengths, TINY_CL, 0, 18)
  {
    forall x | 0 <= x < 19 && !(0 <= PlaceOf(x) < 18)
      ensures NoLengths[x] == TINY_CL[x]
    {
      assert x == 15;
    }
  }

  lemma TinyCl()
    ensures IsClLengths(TINY_CL) && KraftSum(TINY_CL) == Pow2(15)
    ensures AgreeOutside(NoLengths, TINY_CL, 0, 18)
  {
    TinyClPlaces();
    TinyClFit();
    hide AgreeOutside, KraftSum, Pow2, IsLengths;
    NoLengthsFit();
    Doubled(14);
    assert [] + Repeat(0, 1) == Repeat(0, 1);
    KraftOfZeros([], 1);
    KraftSnoc(Repeat(0, 1), 1);
    KraftOfZeros(Repeat(0, 1) + [1], 16);
    KraftSnoc(Repeat(0, 1) + [1] + Repeat(0, 16), 1);
  }

  lemma TinyClFit()
    ensures IsClLengths(TINY_CL)
  {
  }

  lemma TinyRunsFit()
    ensures AllRuns(TINY_CL, TINY.runs)
  {
    assert Pow2(7) == 128 && Pow2(0) == 1;
    hide Pow2;
    assert TINY_CL[18] == 1 && TINY_CL[1] == 1;
  }

  lemma TinyRunsUnroll()
    ensures Unrolls([], TINY.runs) && Unroll([], TINY.runs) == Repeat(0, 256) + [1, 1]
  {
    hide Unrolls, Unroll, TINY_CL;
    var a, b, c := Run(18, 127), Run(18, 107), Run(1, 0);
    var x, y := Repeat(0, 138), Repeat(0, 256);
    assert ApplyRun([], a) == x && ApplyRun(x, b) == y;
    assert ApplyRun(y, c) == y + [1] && ApplyRun(y + [1], c) == y + [1, 1];
    UnrollOne([], a, [b, c, c]);
    UnrollOne(x, b, [c, c]);
    UnrollOne(y, c, [c]);
    UnrollOne(y + [1], c, []);
    assert [a] + [b, c, c] == TINY.runs && [b] + [c, c] == [b, c, c] && [c] + [c] == [c, c] && [c] + [] == [c];
  }

  lemma UnrollOne(acc: seq<int>, op: Run, rest: seq<Run>)
    requires op.sym != 16
    ensures Unrolls(acc, [op] + rest) <==> Unrolls(ApplyRun(acc, op), rest)
    ensures Unrolls(ApplyRun(acc, op), rest) ==> Unroll(acc, [op] + rest) == Unroll(ApplyRun(acc, op), rest)
    ensures Unrolls(ApplyRun(acc, op), []) && Unroll(ApplyRun(acc, op), []) == ApplyRun(acc, op)
  {
    hide ApplyRun;
    assert ([op] + rest)[1..] == rest;
  }

  /** There are dynamic blocks to which all of the above applies: this one, with any output before it. */
  lemma TinyDynamicBlock(k: nat, out: seq<byte>)
    ensures ValidBlock(Dynamic(TINY, []), k) && Decodable(Dynamic(TINY, []))
    ensures BlockExpands(out, Dynamic(TINY, [])) && BlockOutput(out, Dynamic(TINY, [])) == out
  {
    hide KraftSum, Pow2, Unroll, Unrolls, AllRuns, AgreeOutside, TINY_CL;
    TinyCl();
    TinyRunsFit();
    TinyRunsUnroll();
    var all := Repeat(0, 256) + [1, 1];
    assert all[..257] == [] + Repeat(0, 256) + [1] && all[257..] == [] + [1];
    NoLengthsFit();
    KraftOfZeros([], 256);
    KraftSnoc([] + Repeat(0, 256), 1);
    KraftSnoc([], 1);
    assert Pow2(14) <= Pow2(15) by { Doubled(14); }
  }

  lemma Doubled(n: nat)
    ensures Pow2(n + 1) == 2 * Pow2(n)
  {
  }
}
