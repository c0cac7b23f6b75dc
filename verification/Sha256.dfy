/**
  SHA-256 (FIPS 180-4): the compression function as the standard writes it, the
  padding of section 5.1.1, and the unpacker's loops, which hash whole blocks in
  place and build one or two padded blocks for the rest.
 */
module Sha256 {
  import opened Bits

  type word = bv32

  function K(i: nat): word
    requires i < 64
  {
    if i < 8 then [0x428a2f98, 0x71374491, 0xb5c0fbcf, 0xe9b5dba5, 0x3956c25b, 0x59f111f1, 0x923f82a4, 0xab1c5ed5][i]
    else if i < 16 then [0xd807aa98, 0x12835b01, 0x243185be, 0x550c7dc3, 0x72be5d74, 0x80deb1fe, 0x9bdc06a7, 0xc19bf174][i - 8]
    else if i < 24 then [0xe49b69c1, 0xefbe4786, 0x0fc19dc6, 0x240ca1cc, 0x2de92c6f, 0x4a7484aa, 0x5cb0a9dc, 0x76f988da][i - 16]
    else if i < 32 then [0x983e5152, 0xa831c66d, 0xb00327c8, 0xbf597fc7, 0xc6e00bf3, 0xd5a79147, 0x06ca6351, 0x14292967][i - 24]
    else if i < 40 then [0x27b70a85, 0x2e1b2138, 0x4d2c6dfc, 0x53380d13, 0x650a7354, 0x766a0abb, 0x81c2c92e, 0x92722c85][i - 32]
    else if i < 48 then [0xa2bfe8a1, 0xa81a664b, 0xc24b8b70, 0xc76c51a3, 0xd192e819, 0xd6990624, 0xf40e3585, 0x106aa070][i - 40]
    else if i < 56 then [0x19a4c116, 0x1e376c08, 0x2748774c, 0x34b0bcb5, 0x391c0cb3, 0x4ed8aa4a, 0x5b9cca4f, 0x682e6ff3][i - 48]
    else [0x748f82ee, 0x78a5636f, 0x84c87814, 0x8cc70208, 0x90befffa, 0xa4506ceb, 0xbef9a3f7, 0xc67178f2][i - 56]
  }

  // Rotations and shifts to the right, by the amounts the standard uses.
  function Rotr2(x: word): word { (x >> 2) | (x << 30) }
  function Rotr6(x: word): word { (x >> 6) | (x << 26) }
  function Rotr7(x: word): word { (x >> 7) | (x << 25) }
  function Rotr11(x: word): word { (x >> 11) | (x << 21) }
  function Rotr13(x: word): word { (x >> 13) | (x << 19) }
  function Rotr17(x: word): word { (x >> 17) | (x << 15) }
  function Rotr18(x: word): word { (x >> 18) | (x << 14) }
  function Rotr19(x: word): word { (x >> 19) | (x << 13) }
  function Rotr22(x: word): word { (x >> 22) | (x << 10) }
  function Rotr25(x: word): word { (x >> 25) | (x << 7) }
  function Shr3(x: word): word { x >> 3 }
  function Shr10(x: word): word { x >> 10 }

  // ---- section 4.1.2 ---------------------------------------------------------------------

  function Xor(x: word, y: word): word { x ^ y }
  function Ch(x: word, y: word, z: word): word { (x & y) ^ (!x & z) }
  function Maj(x: word, y: word, z: word): word { (x & y) ^ (x & z) ^ (y & z) }
  function Sum0(x: word): word { Xor(Xor(Rotr2(x), Rotr13(x)), Rotr22(x)) }
  function Sum1(x: word): word { Xor(Xor(Rotr6(x), Rotr11(x)), Rotr25(x)) }
  function Sig0(x: word): word { Xor(Xor(Rotr7(x), Rotr18(x)), Shr3(x)) }
  function Sig1(x: word): word { Xor(Xor(Rotr17(x), Rotr19(x)), Shr10(x)) }
  function Add(x: word, y: word): word { x + y }

  // ---- section 6.2.2 ---------------------------------------------------------------------

  function WordAt(p: seq<byte>, k: nat): word
    requires k + 4 <= |p|
  {
    ((p[k] as word) << 24) | ((p[k + 1] as word) << 16) | ((p[k + 2] as word) << 8) | (p[k + 3] as word)
  }

  /** The message schedule. */
  function W(p: seq<byte>, t: nat): word
    requires |p| == 64
  {
    if t < 16 then WordAt(p, 4 * t)
    else Add(Add(Add(W(p, t - 16), Sig0(W(p, t - 15))), W(p, t - 7)), Sig1(W(p, t - 2)))
  }

  datatype State = State(a: word, b: word, c: word, d: word, e: word, f: word, g: word, h: word)

  function T1(s: State, k: word, w: word): word
  {
    Add(Add(Add(Add(s.h, Sum1(s.e)), Ch(s.e, s.f, s.g)), k), w)
  }

  function T2(s: State): word
  {
    Add(Sum0(s.a), Maj(s.a, s.b, s.c))
  }

  function Round(s: State, k: word, w: word): State
  {
    State(Add(T1(s, k, w), T2(s)), s.a, s.b, s.c, Add(s.d, T1(s, k, w)), s.e, s.f, s.g)
  }

  function Rounds(s: State, p: seq<byte>, n: nat): State
    requires |p| == 64 && n <= 64
  {
    if n == 0 then s else Round(Rounds(s, p, n - 1), K(n - 1), W(p, n - 1))
  }

  function Plus(s: State, r: State): State
  {
    State(Add(s.a, r.a), Add(s.b, r.b), Add(s.c, r.c), Add(s.d, r.d),
          Add(s.e, r.e), Add(s.f, r.f), Add(s.g, r.g), Add(s.h, r.h))
  }

  function Compress(s: State, p: seq<byte>): State
    requires |p| == 64
  {
    Plus(s, Rounds(s, p, 64))
  }

  const H0 := State(0x6a09e667, 0xbb67ae85, 0x3c6ef372, 0xa54ff53a, 0x510e527f, 0x9b05688c, 0x1f83d9ab, 0x5be0cd19)

  /** The first `n` blocks of `m`, one after the other. */
  function Blocks(s: State, m: seq<byte>, n: nat): State
    requires 64 * n <= |m|
  {
    if n == 0 then s else Compress(Blocks(s, m, n - 1), m[64 * (n - 1)..64 * n])
  }

  /** Blocks and then more blocks: the state carries over, first block first. */
  lemma {:induction false} BlocksCarryOver(s: State, x: seq<byte>, y: seq<byte>, m: nat, n: nat)
    requires |x| == 64 * m && 64 * n <= |y|
    ensures Blocks(s, x + y, m + n) == Blocks(Blocks(s, x, m), y, n)
    decreases n
  {
    hide Compress;
    if n == 0 {
      BlocksOfPrefix(s, x, y, m);
    } else {
      BlocksCarryOver(s, x, y, m, n - 1);
      assert (x + y)[64 * (m + n - 1)..64 * (m + n)] == y[64 * (n - 1)..64 * n];
    }
  }

  lemma {:induction false} BlocksOfPrefix(s: State, x: seq<byte>, y: seq<byte>, m: nat)
    requires 64 * m <= |x|
    ensures Blocks(s, x + y, m) == Blocks(s, x, m)
    decreases m
  {
    hide Compress;
    if m > 0 {
      BlocksOfPrefix(s, x, y, m - 1);
      assert (x + y)[64 * (m - 1)..64 * m] == x[64 * (m - 1)..64 * m];
    }
  }

  function Less(x: word, y: word): word { x - y }

  lemma LessOfAdd(x: word, y: word)
    ensures Less(Add(x, y), x) == y && Less(Add(y, x), x) == y
  {
  }

  lemma SameSum(x: word, y: word, z: word)
    ensures Add(x, y) == Add(x, z) ==> y == z
    ensures Add(y, x) == Add(z, x) ==> y == z
  {
    hide Add, Less;
    LessOfAdd(x, y);
    LessOfAdd(x, z);
  }

  /** A round can be taken back. */
  lemma RoundInjective(s: State, t: State, k: word, w: word)
    requires Round(s, k, w) == Round(t, k, w)
    ensures s == t
  {
    hide Add, Sum0, Sum1, Ch, Maj;
    SameSum(T2(s), T1(s, k, w), T1(t, k, w));
    SameSum(T1(s, k, w), s.d, t.d);
    SameSum(w, Add(Add(Add(s.h, Sum1(s.e)), Ch(s.e, s.f, s.g)), k),
            Add(Add(Add(t.h, Sum1(s.e)), Ch(s.e, s.f, s.g)), k));
    SameSum(k, Add(Add(s.h, Sum1(s.e)), Ch(s.e, s.f, s.g)), Add(Add(t.h, Sum1(s.e)), Ch(s.e, s.f, s.g)));
    SameSum(Ch(s.e, s.f, s.g), Add(s.h, Sum1(s.e)), Add(t.h, Sum1(s.e)));
    SameSum(Sum1(s.e), s.h, t.h);
  }

  lemma {:induction false} RoundsInjective(s: State, t: State, p: seq<byte>, n: nat)
    requires |p| == 64 && n <= 64 && Rounds(s, p, n) == Rounds(t, p, n)
    ensures s == t
    decreases n
  {
    hide Round, W, K;
    if n > 0 {
      RoundInjective(Rounds(s, p, n - 1), Rounds(t, p, n - 1), K(n - 1), W(p, n - 1));
      RoundsInjective(s, t, p, n - 1);
    }
  }

  /** What a block adds to the state is a permutation of the state: no two states get the same added. */
  lemma BlockAddsPermuted(s: State, t: State, p: seq<byte>, added: State)
    requires |p| == 64 && Compress(s, p) == Plus(s, added) && Compress(t, p) == Plus(t, added)
    ensures s == t
  {
    hide Rounds;
    SamePlus(s, Rounds(s, p, 64), added);
    SamePlus(t, Rounds(t, p, 64), added);
    RoundsInjective(s, t, p, 64);
  }

  lemma SamePlus(s: State, x: State, y: State)
    requires Plus(s, x) == Plus(s, y)
    ensures x == y
  {
    hide Add;
    SameSum(s.a, x.a, y.a);
    SameSum(s.b, x.b, y.b);
    SameSum(s.c, x.c, y.c);
    SameSum(s.d, x.d, y.d);
    SameSum(s.e, x.e, y.e);
    SameSum(s.f, x.f, y.f);
    SameSum(s.g, x.g, y.g);
    SameSum(s.h, x.h, y.h);
  }

  // ---- section 5.1.1 ---------------------------------------------------------------------

  /** `n` as `k` bytes, most significant first. */
  function BigEndian(n: nat, k: nat): (r: seq<byte>)
    ensures |r| == k
    decreases k
  {
    if k == 0 then [] else BigEndian(n / 256, k - 1) + [n % 256]
  }

  /** How many zero bytes bring the message, the marker and the length to whole blocks. */
  function ZeroCount(len: nat): (z: nat)
    ensures z < 64 && (len + 9 + z) % 64 == 0
  {
    var r := len % 64;
    if r < 56 then 55 - r else 119 - r
  }

  function Pad(m: seq<byte>): (r: seq<byte>)
    ensures |r| % 64 == 0 && |r| > |m| + 8
  {
    m + [0x80] + Zeros(ZeroCount(|m|)) + BigEndian(8 * |m|, 8)
  }

  function Hash(m: seq<byte>): State
  {
    Blocks(H0, Pad(m), |Pad(m)| / 64)
  }

  lemma {:induction false} BigEndianInjective(x: nat, y: nat, k: nat)
    requires x < Pow256(k) && y < Pow256(k) && BigEndian(x, k) == BigEndian(y, k)
    ensures x == y
    decreases k
  {
    if k > 0 {
      var a, b := BigEndian(x, k), BigEndian(y, k);
      assert a[..k - 1] == BigEndian(x / 256, k - 1) && b[..k - 1] == BigEndian(y / 256, k - 1);
      assert a[k - 1] == x % 256 && b[k - 1] == y % 256;
      BigEndianInjective(x / 256, y / 256, k - 1);
    }
  }

  /** Different messages have different padded forms. */
  lemma PadInjective(m: seq<byte>, n: seq<byte>)
    requires 8 * |m| < Pow256(8) && 8 * |n| < Pow256(8) && Pad(m) == Pad(n)
    ensures m == n
  {
    hide BigEndian, Zeros, Pow256, ZeroCount;
    var p := Pad(m);
    assert p[|p| - 8..] == BigEndian(8 * |m|, 8);
    assert p[|p| - 8..] == BigEndian(8 * |n|, 8);
    BigEndianInjective(8 * |m|, 8 * |n|, 8);
    assert m == p[..|m|] && n == p[..|n|];
  }

  // ---- one block ---------------------------------------------------------------------------

  method Schedule(p: seq<byte>) returns (w: array<word>)
    requires |p| == 64
    ensures w.Length == 64 && forall t :: 0 <= t < 64 ==> w[t] == W(p, t)
  {
    hide WordAt, Sig0, Sig1, Add;
    w := new word[64];
    for i := 0 to 16
      invariant forall t :: 0 <= t < i ==> w[t] == W(p, t)
    {
      w[i] := WordAt(p, 4 * i);
    }
    for i := 16 to 64
      invariant forall t :: 0 <= t < i ==> w[t] == W(p, t)
    {
      var s0 := Sig0(w[i - 15]);
      var s1 := Sig1(w[i - 2]);
      w[i] := Add(Add(Add(w[i - 16], s0), w[i - 7]), s1);
    }
  }

  method CompressBlock(s: State, p: seq<byte>) returns (r: State)
    requires |p| == 64
    ensures r == Compress(s, p)
  {
    hide W, K, Ch, Maj, Sum0, Sum1, Add;
    var w := Schedule(p);
    var a, b, c, d, e, f, g, h := s.a, s.b, s.c, s.d, s.e, s.f, s.g, s.h;
    for i := 0 to 64
      invariant State(a, b, c, d, e, f, g, h) == Rounds(s, p, i)
    {
      var t1 := Add(Add(Add(Add(h, Sum1(e)), Ch(e, f, g)), K(i)), w[i]);
      var t2 := Add(Sum0(a), Maj(a, b, c));
      h := g;
      g := f;
      f := e;
      e := Add(d, t1);
      d := c;
      c := b;
      b := a;
      a := Add(t1, t2);
    }
    r := Plus(s, State(a, b, c, d, e, f, g, h));
  }

  // ---- the whole message ---------------------------------------------------------------------

  lemma {:induction false} BlocksPrefix(s: State, m: seq<byte>, t: seq<byte>, n: nat)
    requires 64 * n <= |m| && 64 * n <= |t| && m[..64 * n] == t[..64 * n]
    ensures Blocks(s, m, n) == Blocks(s, t, n)
  {
    hide Compress;
    if n > 0 {
      assert m[..64 * (n - 1)] == m[..64 * n][..64 * (n - 1)];
      assert t[..64 * (n - 1)] == t[..64 * n][..64 * (n - 1)];
      BlocksPrefix(s, m, t, n - 1);
      assert m[64 * (n - 1)..64 * n] == m[..64 * n][64 * (n - 1)..];
      assert t[64 * (n - 1)..64 * n] == t[..64 * n][64 * (n - 1)..];
    }
  }

  /** The bytes after the last whole block, padded: one block, or two when they leave no room for the length. */
  function Tail(m: seq<byte>): (r: seq<byte>)
    ensures |r| == if |m| % 64 < 56 then 64 else 128
  {
    var i := |m| / 64 * 64;
    m[i..] + [0x80] + Zeros(ZeroCount(|m|)) + BigEndian(8 * |m|, 8)
  }

  lemma PadIsTail(m: seq<byte>)
    ensures var i := |m| / 64 * 64; Pad(m) == m[..i] + Tail(m)
  {
    hide Zeros, BigEndian, ZeroCount;
    var i := |m| / 64 * 64;
    assert m == m[..i] + m[i..];
  }

  lemma {:induction false} BigEndianAt(n: nat, k: nat, j: nat)
    requires j < k
    ensures BigEndian(n, k)[k - 1 - j] == Byte(n, j)
    decreases k
  {
    if j > 0 {
      BigEndianAt(n / 256, k - 1, j - 1);
      ByteOfQuotient(n, j);
    }
  }

  lemma {:induction false} ByteOfQuotient(n: nat, j: nat)
    requires j > 0
    ensures Down(n, j) == Down(n / 256, j - 1)
  {
    if j > 1 {
      ByteOfQuotient(n, j - 1);
    }
  }

  method BuildTail(m: seq<byte>) returns (tail: array<byte>, tl: nat)
    ensures tail.Length == 128 && tl == |Tail(m)| && tail[..tl] == Tail(m)
  {
    hide Down, BigEndian, Zeros;
    var i := |m| / 64 * 64;
    var r := |m| - i;
    tail := new byte[128](_ => 0);
    for k := 0 to r
      invariant forall j :: 0 <= j < k ==> tail[j] == m[i + j]
      invariant forall j :: k <= j < 128 ==> tail[j] == 0
    {
      tail[k] := m[i + k];
    }
    tail[r] := 0x80;
    tl := if r < 56 then 64 else 128;
    var bits := 8 * |m|;
    for k := 0 to 8
      invariant forall j :: 0 <= j < r ==> tail[j] == m[i + j]
      invariant tail[r] == 0x80
      invariant forall j :: r < j < tl - k ==> tail[j] == 0
      invariant forall j :: 0 <= j < k ==> tail[tl - 1 - j] == Byte(bits, j)
    {
      tail[tl - 1 - k] := Byte(bits, k);
    }
    TailAt(m, tail[..tl]);
  }

  /** A buffer with the right bytes in the right places is the padded tail. */
  lemma TailAt(m: seq<byte>, t: seq<byte>)
    requires |t| == |Tail(m)|
    requires var i := |m| / 64 * 64;
             var r := |m| - i;
             && (forall j :: 0 <= j < r ==> t[j] == m[i + j])
             && t[r] == 0x80
             && (forall j :: r < j < |t| - 8 ==> t[j] == 0)
             && (forall j :: 0 <= j < 8 ==> t[|t| - 1 - j] == Byte(8 * |m|, j))
    ensures t == Tail(m)
  {
    hide Down, BigEndian, Zeros;
    var i := |m| / 64 * 64;
    var r := |m| - i;
    var z, be := ZeroCount(|m|), BigEndian(8 * |m|, 8);
    assert |t| == r + 1 + z + 8;
    forall k | |t| - 8 <= k < |t|
      ensures t[k] == Tail(m)[k]
    {
      var j := |t| - 1 - k;
      assert t[|t| - 1 - j] == Byte(8 * |m|, j);
      BigEndianAt(8 * |m|, 8, j);
    }
  }

  /** The digest of a message of any length is the standard's. */
  method Sha(m: seq<byte>) returns (h: State)
    ensures h == Hash(m)
  {
    hide Compress, Tail, Pad;
    h := H0;
    var i := 0;
    while i + 64 <= |m|
      invariant 0 <= i <= |m| && i % 64 == 0 && h == Blocks(H0, m, i / 64)
    {
      h := CompressBlock(h, m[i..i + 64]);
      i := i + 64;
    }
    var tail, tl := BuildTail(m);
    ghost var n := i / 64;
    WholeBlocks(m, i);
    h := CompressBlock(h, tail[..64]);
    assert tail[..64] == tail[..tl][..64];
    if tl == 128 {
      h := CompressBlock(h, tail[64..]);
      assert tail[64..] == tail[..tl][64..];
    }
  }

  lemma WholeBlocks(m: seq<byte>, i: nat)
    requires i % 64 == 0 && i <= |m| < i + 64
    ensures var p, t, n := Pad(m), Tail(m), i / 64;
            && |p| == i + |t|
            && Blocks(H0, p, n) == Blocks(H0, m, n)
            && Blocks(H0, p, n + 1) == Compress(Blocks(H0, m, n), t[..64])
            && (|t| == 128 ==> Blocks(H0, p, n + 2) == Compress(Compress(Blocks(H0, m, n), t[..64]), t[64..]))
  {
    hide Compress, Tail, Pad, H0;
    var p, t, n := Pad(m), Tail(m), i / 64;
    assert |m| / 64 * 64 == i;
    PadIsTail(m);
    assert p == m[..i] + t;
    BlocksPrefix(H0, p, m, n);
    assert p[64 * n..64 * (n + 1)] == t[..64];
    if |t| == 128 {
      assert p[64 * (n + 1)..64 * (n + 2)] == t[64..];
    }
  }

  // ---- the digest as text -----------------------------------------------------------------------

  function HexDigit(x: bv4): char
  {
    "0123456789abcdef"[x as int]
  }

  /** A byte as two digits. */
  function HexByte(b: bv8): (r: string)
    ensures |r| == 2
  {
    [HexDigit((b >> 4) as bv4), HexDigit((b & 15) as bv4)]
  }

  /** Byte `j` of a word, most significant first. */
  function ByteOf(x: word, j: nat): bv8
    requires j < 4
  {
    ((match j case 0 => x >> 24 case 1 => x >> 16 case 2 => x >> 8 case _ => x) & 255) as bv8
  }

  function HexUpTo(x: word, j: nat): (r: string)
    requires j <= 4
    ensures |r| == 2 * j
  {
    if j == 0 then "" else HexUpTo(x, j - 1) + HexByte(ByteOf(x, j - 1))
  }

  function HexWord(x: word): (r: string)
    ensures |r| == 8
  {
    HexUpTo(x, 4)
  }

  function HexAll(ws: seq<word>): (r: string)
    ensures |r| == 8 * |ws|
  {
    if ws == [] then "" else HexWord(ws[0]) + HexAll(ws[1..])
  }

  function Words(s: State): seq<word>
  {
    [s.a, s.b, s.c, s.d, s.e, s.f, s.g, s.h]
  }

  /** The 64 hexadecimal digits a blob is named by. */
  function Hex(s: State): string
  {
    HexAll(Words(s))
  }

  lemma HexDigitInjective(x: bv4, y: bv4)
    ensures HexDigit(x) == HexDigit(y) <==> x == y
  {
  }

  lemma HexByteInjective(a: bv8, b: bv8)
    requires HexByte(a) == HexByte(b)
    ensures a == b
  {
    hide HexDigit;
    assert HexByte(a)[0] == HexByte(b)[0] && HexByte(a)[1] == HexByte(b)[1];
    HexDigitInjective((a >> 4) as bv4, (b >> 4) as bv4);
    HexDigitInjective((a & 15) as bv4, (b & 15) as bv4);
  }

  lemma {:induction false} HexUpToInjective(x: word, y: word, j: nat, i: nat)
    requires j <= 4 && i < j && HexUpTo(x, j) == HexUpTo(y, j)
    ensures ByteOf(x, i) == ByteOf(y, i)
    decreases j
  {
    hide HexByte, ByteOf;
    var p, q := HexUpTo(x, j), HexUpTo(y, j);
    assert p[..2 * (j - 1)] == HexUpTo(x, j - 1) && q[..2 * (j - 1)] == HexUpTo(y, j - 1);
    assert p[2 * (j - 1)..] == HexByte(ByteOf(x, j - 1)) && q[2 * (j - 1)..] == HexByte(ByteOf(y, j - 1));
    if i < j - 1 {
      HexUpToInjective(x, y, j - 1, i);
    } else {
      HexByteInjective(ByteOf(x, i), ByteOf(y, i));
    }
  }

  lemma HexWordInjective(x: word, y: word)
    requires HexWord(x) == HexWord(y)
    ensures x == y
  {
    hide HexUpTo, ByteOf;
    HexUpToInjective(x, y, 4, 0);
    HexUpToInjective(x, y, 4, 1);
    HexUpToInjective(x, y, 4, 2);
    HexUpToInjective(x, y, 4, 3);
    SameBytes(x, y);
  }

  lemma SameBytes(x: word, y: word)
    requires ByteOf(x, 0) == ByteOf(y, 0) && ByteOf(x, 1) == ByteOf(y, 1)
    requires ByteOf(x, 2) == ByteOf(y, 2) && ByteOf(x, 3) == ByteOf(y, 3)
    ensures x == y
  {
    BytesAre(x);
    BytesAre(y);
    hide ByteOf;
    Joined(x, y);
  }

  lemma BytesAre(x: word)
    ensures ByteOf(x, 0) == ((x >> 24) & 255) as bv8 && ByteOf(x, 1) == ((x >> 16) & 255) as bv8
    ensures ByteOf(x, 2) == ((x >> 8) & 255) as bv8 && ByteOf(x, 3) == (x & 255) as bv8
  {
  }

  lemma Joined(x: word, y: word)
    requires ((x >> 24) & 255) as bv8 == ((y >> 24) & 255) as bv8 && ((x >> 16) & 255) as bv8 == ((y >> 16) & 255) as bv8
    requires ((x >> 8) & 255) as bv8 == ((y >> 8) & 255) as bv8 && (x & 255) as bv8 == (y & 255) as bv8
    ensures x == y
  {
  }

  lemma {:induction false} HexAllInjective(x: seq<word>, y: seq<word>)
    requires |x| == |y| && HexAll(x) == HexAll(y)
    ensures x == y
  {
    hide HexWord;
    if x != [] {
      var p, q := HexAll(x), HexAll(y);
      assert p[..8] == HexWord(x[0]) && q[..8] == HexWord(y[0]);
      assert p[8..] == HexAll(x[1..]) && q[8..] == HexAll(y[1..]);
      HexWordInjective(x[0], y[0]);
      HexAllInjective(x[1..], y[1..]);
      assert x == [x[0]] + x[1..] && y == [y[0]] + y[1..];
    }
  }

  /** Comparing two digests as text is comparing the digests. */
  lemma HexInjective(s: State, t: State)
    requires Hex(s) == Hex(t)
    ensures s == t
  {
    hide HexAll;
    HexAllInjective(Words(s), Words(t));
    var x, y := Words(s), Words(t);
    assert x[0] == y[0] && x[1] == y[1] && x[2] == y[2] && x[3] == y[3];
    assert x[4] == y[4] && x[5] == y[5] && x[6] == y[6] && x[7] == y[7];
  }

  /** The digest text of a message, digit by digit. */
  method ShaHex(m: seq<byte>) returns (out: string)
    ensures out == Hex(Hash(m))
  {
    hide Hash, HexByte, HexAll, HexWord, ByteOf;
    var h := Sha(m);
    var ws := Words(h);
    out := "";
    NoHex();
    for k := 0 to 8
      invariant out == HexAll(ws[..k])
    {
      ghost var done := out;
      for j := 0 to 4
        invariant out == done + HexUpTo(ws[k], j)
      {
        out := out + HexByte(ByteOf(ws[k], j));
      }
      HexSnoc(ws, k);
    }
    assert ws[..8] == ws;
  }

  lemma NoHex()
    ensures HexAll([]) == ""
  {
  }

  lemma {:induction false} HexSnoc(ws: seq<word>, k: nat)
    requires k < |ws|
    ensures HexAll(ws[..k + 1]) == HexAll(ws[..k]) + HexUpTo(ws[k], 4)
  {
    assert HexUpTo(ws[k], 4) == HexWord(ws[k]);
    hide HexWord, HexUpTo;
    if k == 0 {
      assert ws[..1] == [ws[0]] && ws[..0] == [];
      assert [ws[0]][1..] == [];
    } else {
      HexSnoc(ws[1..], k - 1);
      assert ws[1..][..k] == ws[..k + 1][1..] && ws[1..][..k - 1] == ws[..k][1..];
    }
  }
}
