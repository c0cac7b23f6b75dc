/**
  One gzip member (section 2.3 of RFC 1952): the header with its optional fields,
  a DEFLATE stream, and a trailer the output is checked against.
 */
module Gzip {
  import opened Bits
  import opened DeflateStream
  import opened Inflate
  import opened Crc

  predicate HasExtra(flg: byte) { BitOf(flg, 2) == 1 }
  predicate HasName(flg: byte) { BitOf(flg, 3) == 1 }
  predicate HasComment(flg: byte) { BitOf(flg, 4) == 1 }
  predicate HasHcrc(flg: byte) { BitOf(flg, 1) == 1 }

  // ---- reading the header --------------------------------------------------------

  /** Just past the first zero byte at or after `p`, or past the end. */
  function SkipZ(g: seq<byte>, p: nat): (r: nat)
    ensures r > p
    decreases |g| - p
  {
    if p < |g| && g[p] != 0 then SkipZ(g, p + 1) else p + 1
  }

  /** Where the compressed data begins; past the end when a field runs over it. */
  function HeaderEnd(g: seq<byte>): (r: nat)
    requires |g| >= 18
  {
    var flg := g[3];
    var p1 := if HasExtra(flg) then 12 + Le16(g[10], g[11]) else 10;
    var p2 := if HasName(flg) then SkipZ(g, p1) else p1;
    var p3 := if HasComment(flg) then SkipZ(g, p2) else p2;
    if HasHcrc(flg) then p3 + 2 else p3
  }

  /** The flag bits by number, as section 2.3.1 of RFC 1952 lists them. */
  lemma FlagNumbers(g: seq<byte>)
    requires |g| >= 18
    ensures g[3] == 0 ==> HeaderEnd(g) == 10
    ensures g[3] == 1 ==> HeaderEnd(g) == 10
    ensures g[3] == 2 ==> HeaderEnd(g) == 12
    ensures g[3] == 4 ==> HeaderEnd(g) == 12 + g[10] as int + 256 * g[11] as int
    ensures g[3] == 8 || g[3] == 16 ==> HeaderEnd(g) == SkipZ(g, 10)
    ensures g[3] == 24 ==> HeaderEnd(g) == SkipZ(g, SkipZ(g, 10))
    ensures g[3] == 10 || g[3] == 18 ==> HeaderEnd(g) == SkipZ(g, 10) + 2
    ensures g[3] == 12 ==> HeaderEnd(g) == SkipZ(g, 12 + g[10] as int + 256 * g[11] as int)
  {
    hide SkipZ, BitOf, Shr, HasExtra, HasName, HasComment, HasHcrc;
    if g[3] < 32 {
      FlagBits(g[3]);
    }
  }

  lemma FlagBits(flg: byte)
    requires flg < 32
    ensures HasHcrc(flg) <==> flg % 4 >= 2
    ensures HasExtra(flg) <==> flg % 8 >= 4
    ensures HasName(flg) <==> flg % 16 >= 8
    ensures HasComment(flg) <==> flg >= 16
  {
    assert Shr(flg, 1) == flg / 2 && Shr(flg, 2) == flg / 4;
    assert Shr(flg, 3) == Shr(flg, 2) / 2 == flg / 8;
    assert Shr(flg, 4) == Shr(flg, 3) / 2 == flg / 16;
  }

  /** What a zero-terminated field is: up to and with its first zero byte. */
  lemma {:induction false} SkipZIs(g: seq<byte>, p: nat, q: nat)
    requires p <= q < |g| && g[q] == 0 && forall i :: p <= i < q ==> g[i] != 0
    ensures SkipZ(g, p) == q + 1
    decreases q - p
  {
    if p < q {
      SkipZIs(g, p + 1, q);
    }
  }

  /** A size that only a decompression bomb would announce. */
  predicate Bomb(isize: nat, glen: nat): (r: bool)
    ensures r <==> isize > 64 * 1024 * 1024 && (isize > 1024 * 1024 * 1024 || isize >= 20 * (glen + 1))
  {
    isize > 0x4000000 && (isize / 20 > glen || isize > 0x40000000)
  }

  /** The decompressed bytes of a member, when everything about it checks. */
  function Gunzip(g: seq<byte>): (r: Option<seq<byte>>)
  {
    if |g| < 18 || g[..3] != [0x1f, 0x8b, 8] then None
    else
      var p, n := HeaderEnd(g), |g|;
      if p >= n - 8 then None
      else
        var isize := Get32(g, n - 4);
        if Bomb(isize, n) then None
        else
          match ReadStream(Stream(g[p..n - 8]), 0, [], isize)
          case Fail => None
          case Got(o, _) =>
            if |o| != isize || Crc32(o) != Stream(g[n - 8..n - 4]) then None else Some(o)
  }

  /** Whatever is returned has the trailer's length and the trailer's CRC. */
  lemma GunzipChecked(g: seq<byte>)
    requires Gunzip(g).Some?
    ensures |g| >= 18
    ensures var o := Gunzip(g).value;
            |o| == Get32(g, |g| - 4) && Crc32(o) == Stream(g[|g| - 8..|g| - 4])
  {
    hide Crc32, Stream, ReadStream, HeaderEnd;
  }

  // ---- writing a member ------------------------------------------------------------

  /** A header's contents; a field is present when its flag is. */
  datatype Header = Header(flg: byte, misc: seq<byte>, extra: seq<byte>, name: seq<byte>, comment: seq<byte>, hcrc: seq<byte>)

  ghost predicate ValidHeader(h: Header)
  {
    && |h.misc| == 6 && |h.extra| < 65536 && |h.hcrc| == 2
    && 0 !in h.name && 0 !in h.comment
  }

  function ExtraField(h: Header): seq<byte>
    requires |h.extra| < 65536
  {
    if HasExtra(h.flg) then [|h.extra| % 256, |h.extra| / 256] + h.extra else []
  }

  function NameField(h: Header): seq<byte>
  {
    if HasName(h.flg) then h.name + [0] else []
  }

  function CommentField(h: Header): seq<byte>
  {
    if HasComment(h.flg) then h.comment + [0] else []
  }

  function HcrcField(h: Header): seq<byte>
  {
    if HasHcrc(h.flg) then h.hcrc else []
  }

  function Fixed10(h: Header): seq<byte>
  {
    [0x1f, 0x8b, 8, h.flg] + h.misc
  }

  function HeaderBytes(h: Header): (r: seq<byte>)
    requires |h.extra| < 65536
  {
    Fixed10(h) + ExtraField(h) + NameField(h) + CommentField(h) + HcrcField(h)
  }

  /** `g` is a member with header `h`, compressed data `z`, and the trailer of `o`. */
  ghost predicate IsMember(g: seq<byte>, h: Header, z: seq<byte>, o: seq<byte>)
  {
    && ValidHeader(h)
    && |g| == |HeaderBytes(h)| + |z| + 8
    && g[..|g| - 8] == HeaderBytes(h) + z
    && Stream(g[|g| - 8..|g| - 4]) == Crc32(o)
    && Get32(g, |g| - 4) == |o|
  }

  lemma {:induction false} SkipZFinds(g: seq<byte>, p: nat, text: seq<byte>)
    requires 0 !in text && At(g, p, text + [0])
    ensures SkipZ(g, p) == p + |text| + 1
    decreases |text|
  {
    var part := text + [0];
    assert g[p..p + |part|][0] == part[0] == g[p];
    if text != [] {
      assert part[1..] == text[1..] + [0];
      assert g[p + 1..p + |part|] == g[p..p + |part|][1..];
      SkipZFinds(g, p + 1, text[1..]);
    }
  }

  /** Every mix of optional header fields is skipped exactly. */
  lemma HeaderEndExact(g: seq<byte>, h: Header)
    requires |g| >= 18 && ValidHeader(h) && At(g, 0, HeaderBytes(h))
    ensures g[..3] == [0x1f, 0x8b, 8] && HeaderEnd(g) == |HeaderBytes(h)|
  {
    hide SkipZ, At, BitOf;
    var a, b, c, d, e := Fixed10(h), ExtraField(h), NameField(h), CommentField(h), HcrcField(h);
    AtSplit(g, 0, a + b + c + d, e);
    AtSplit4(g, 0, a, b, c, d);
    AtFixed(g, h);
    if HasExtra(h.flg) {
      AtExtra(g, h);
    }
    var p1 := 10 + |b|;
    if HasName(h.flg) {
      SkipZFinds(g, p1, h.name);
    }
    if HasComment(h.flg) {
      SkipZFinds(g, p1 + |c|, h.comment);
    }
  }

  lemma AtFixed(g: seq<byte>, h: Header)
    requires |h.misc| == 6 && At(g, 0, Fixed10(h))
    ensures |g| >= 10 && g[..3] == [0x1f, 0x8b, 8] && g[3] == h.flg
  {
    var f := Fixed10(h);
    assert g[..10] == f;
    assert g[0] == f[0] && g[1] == f[1] && g[2] == f[2] && g[3] == f[3];
  }

  lemma AtExtra(g: seq<byte>, h: Header)
    requires HasExtra(h.flg) && |h.extra| < 65536 && At(g, 10, ExtraField(h))
    ensures |g| >= 12 && Le16(g[10], g[11]) == |h.extra|
  {
    var f := ExtraField(h);
    assert g[10..10 + |f|] == f;
    assert g[10] == f[0] && g[11] == f[1];
  }

  /** A member whose data decompresses to `o` comes back as `o`. */
  lemma GunzipInverts(g: seq<byte>, h: Header, z: seq<byte>, o: seq<byte>, next: nat)
    requires IsMember(g, h, z, o) && |g| >= 18 && z != []
    requires ReadStream(Stream(z), 0, [], |o|) == Got(o, next)
    requires !Bomb(|o|, |g|)
    ensures Gunzip(g) == Some(o)
  {
    hide Crc32, Stream, ReadStream, HeaderEnd, HeaderBytes;
    var hb := HeaderBytes(h);
    assert At(g, 0, hb) by {
      assert g[..|hb|] == g[..|g| - 8][..|hb|];
    }
    HeaderEndExact(g, h);
    assert g[|hb|..|g| - 8] == g[..|g| - 8][|hb|..] == z;
  }

  // ---- from blocks to a member -------------------------------------------------------

  /** Bits packed into bytes. */
  function Pack(s: seq<bit>): (r: seq<byte>)
    requires |s| % 8 == 0
  {
    BytesAt(s, 0, |s| / 8)
  }

  lemma PackUnpacks(s: seq<bit>)
    requires |s| % 8 == 0
    ensures Stream(Pack(s)) == s
  {
    hide Stream, BytesAt;
    var data := Pack(s);
    BytesIff(s, 0, data);
    assert s[0..|s|] == s;
  }

  /**
    End to end: any blocks whose codes are not over-subscribed, packed into bytes
    and framed with any header, decompress to exactly what the blocks say.
   */
  lemma GunzipOfBlocks(g: seq<byte>, h: Header, bs: seq<Block>, pad: seq<bit>)
    requires ValidStream(bs, 0) && StreamDecodable(bs) && StreamExpands([], bs)
    requires |StreamBits(bs, 0) + pad| % 8 == 0
    requires IsMember(g, h, Pack(StreamBits(bs, 0) + pad), StreamOutput([], bs))
    requires !Bomb(|StreamOutput([], bs)|, |g|)
    ensures Gunzip(g) == Some(StreamOutput([], bs))
  {
    hide ReadStream, ValidStream, StreamDecodable, StreamExpands, StreamOutput, Stream, Pack;
    hide HeaderBytes, Crc32, ValidHeader, Gunzip, Bomb, BlockBits;
    var bits, o := StreamBits(bs, 0) + pad, StreamOutput([], bs);
    PackUnpacks(bits);
    assert At(bits, 0, StreamBits(bs, 0));
    StreamNotEmpty(bs);
    ReadStreamInverts(bits, 0, [], |o|, bs);
    HeaderLength(h);
    GunzipInverts(g, h, Pack(bits), o, |StreamBits(bs, 0)|);
  }

  lemma StreamNotEmpty(bs: seq<Block>)
    requires ValidStream(bs, 0)
    ensures |StreamBits(bs, 0)| > 0
  {
    hide BlockBits, ValidBlock;
  }

  lemma HeaderLength(h: Header)
    requires ValidHeader(h)
    ensures |HeaderBytes(h)| >= 10
  {
    hide BitOf;
  }

  // ---- every output has a member ------------------------------------------------------------

  /** A whole member: header, compressed data, CRC and length. */
  function Member(h: Header, z: seq<byte>, o: seq<byte>): seq<byte>
    requires |h.extra| < 65536
  {
    HeaderBytes(h) + z + Pack(Crc32(o)) + Put32(|o|)
  }

  lemma MemberIsMember(h: Header, z: seq<byte>, o: seq<byte>)
    requires ValidHeader(h) && |o| < 0x1_0000_0000
    ensures IsMember(Member(h, z, o), h, z, o)
  {
    hide Crc32, Stream, HeaderBytes, Put32, Get32, BytesAt;
    var g, crc := Member(h, z, o), Pack(Crc32(o));
    PackUnpacks(Crc32(o));
    assert g == (HeaderBytes(h) + z) + (crc + Put32(|o|));
    assert g[..|g| - 8] == HeaderBytes(h) + z;
    assert g[|g| - 8..|g| - 4] == crc;
    assert g[|g| - 4..] == Put32(|o|);
    Get32OfPut32(|o|, g, |g| - 4);
  }

  lemma Padding(n: nat) returns (pad: seq<bit>)
    ensures (n + |pad|) % 8 == 0
  {
    pad := LowFirst(0, (8 - n % 8) % 8);
  }

  /** Every byte string up to 64 MiB is what some member decompresses to, under every header. */
  lemma EveryOutputHasMember(h: Header, o: seq<byte>) returns (g: seq<byte>)
    requires ValidHeader(h) && |o| <= 0x4000000
    ensures Gunzip(g) == Some(o) && exists z :: IsMember(g, h, z, o)
  {
    hide Gunzip, ValidStream, StreamDecodable, StreamExpands, StreamOutput, StreamBits, Pack, Member, IsMember, ValidHeader;
    var bs := StoreAll(o, [], 0);
    assert [] + o == o;
    var pad := Padding(|StreamBits(bs, 0)|);
    var z := Pack(StreamBits(bs, 0) + pad);
    assert |h.extra| < 65536 by { ExtraFits(h); }
    g := Member(h, z, o);
    MemberIsMember(h, z, o);
    GunzipOfBlocks(g, h, bs, pad);
  }

  lemma ExtraFits(h: Header)
    requires ValidHeader(h)
    ensures |h.extra| < 65536
  {
  }

  // ---- the loops ----------------------------------------------------------------------

  method SkipField(g: seq<byte>, p0: nat) returns (p: nat)
    ensures p == SkipZ(g, p0)
  {
    p := p0;
    while p < |g| && g[p] != 0
      invariant SkipZ(g, p) == SkipZ(g, p0)
      decreases |g| - p
    {
      p := p + 1;
    }
    p := p + 1;
  }

  /** Decompress a member; `mapped` says whether the output mapping was granted. */
  method GunzipMember(g: seq<byte>, mapped: bool) returns (ok: bool, out: array<byte>, outlen: nat)
    requires |g| < 0xFFFF_FFF0
    ensures ok <==> mapped && Gunzip(g).Some?
    ensures ok ==> outlen <= out.Length && out[..outlen] == Gunzip(g).value
  {
    hide Stream, Crc32, ReadStream, SkipZ, BitOf, Le16;
    out := new byte[0];
    outlen := 0;
    var glen := |g|;
    if glen < 18 || g[0] != 0x1f || g[1] != 0x8b || g[2] != 8 {
      return false, out, 0;
    }
    assert g[..3] == [0x1f, 0x8b, 8];
    var flg, p := g[3], 10;
    if HasExtra(flg) {
      p := p + 2 + Le16(g[p], g[p + 1]);
    }
    if HasName(flg) {
      p := SkipField(g, p);
    }
    if HasComment(flg) {
      p := SkipField(g, p);
    }
    if HasHcrc(flg) {
      p := p + 2;
    }
    assert p == HeaderEnd(g);
    hide HeaderEnd, HasExtra, HasName, HasComment, HasHcrc;
    if p >= glen - 8 {
      return false, out, 0;
    }
    var isize := Get32(g, glen - 4);
    if Bomb(isize, glen) || !mapped {
      return false, out, 0;
    }
    out := new byte[isize + 1];
    var rc, got := Inflate.Inflate(g[p..glen - 8], out, isize);
    if rc != 0 || got != isize {
      return false, out, 0;
    }
    var crc := ComputeCrc(out[..got]);
    if crc != Stream(g[glen - 8..glen - 4]) {
      return false, out, 0;
    }
    return true, out, got;
  }
}
