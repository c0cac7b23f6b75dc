/**
  Bytes, bits and the two bit orders DEFLATE uses: numbers are packed least
  significant bit first, Huffman codes most significant bit first.
 */
module Bits {

  type byte = x: int | 0 <= x < 256
  type bit = x: int | 0 <= x < 2

  /** What a step-by-step reader yields: nothing, or a value and the position after it. */
  datatype Parsed<+T> = Fail | Got(value: T, next: nat) {
    predicate IsFailure() {
      Fail?
    }

    function PropagateFailure<U>(): Parsed<U>
      requires Fail?
    {
      Fail
    }

    function Extract(): (T, nat)
      requires Got?
    {
      (value, next)
    }
  }

  datatype Option<+T> = None | Some(value: T)

  function Pow2(n: nat): (r: nat)
    ensures r > 0
  {
    if n == 0 then 1 else 2 * Pow2(n - 1)
  }

  /** Two bytes as a number, low byte first. */
  function Le16(lo: byte, hi: byte): (r: nat)
    ensures r < 65536
  {
    (lo as int) + 256 * (hi as int)
  }

  function Zeros(n: nat): (r: seq<byte>)
    ensures |r| == n && forall i :: 0 <= i < n ==> r[i] == 0
  {
    seq(n, _ => 0)
  }

  function Pow256(k: nat): (r: nat)
    ensures r > 0
  {
    if k == 0 then 1 else 256 * Pow256(k - 1)
  }

  /** `n` with its low `j` bytes dropped. */
  function Down(n: nat, j: nat): nat
  {
    if j == 0 then n else Down(n, j - 1) / 256
  }

  /** Byte `j` of `n`, counting from the least significant. */
  function Byte(n: nat, j: nat): byte
  {
    Down(n, j) % 256
  }

  /** Four bytes of a number, low byte first. */
  function Put32(v: nat): (r: seq<byte>)
    ensures |r| == 4
  {
    [v % 256, v / 256 % 256, v / 256 / 256 % 256, v / 256 / 256 / 256 % 256]
  }

  function Get32(p: seq<byte>, k: nat): (r: nat)
    requires k + 4 <= |p|
    ensures r < 0x1_0000_0000
  {
    Le16(p[k], p[k + 1]) + 65536 * Le16(p[k + 2], p[k + 3])
  }

  /** `b` shifted right `i` places. */
  function Shr(b: nat, i: nat): nat
  {
    if i == 0 then b else Shr(b, i - 1) / 2
  }

  /** Bit `i` of `b`, bit 0 being the least significant. */
  function BitOf(b: nat, i: nat): bit
  {
    Shr(b, i) % 2
  }

  /** The bit stream of a byte string, in the order DEFLATE consumes it. */
  function Stream(p: seq<byte>): (s: seq<bit>)
    ensures |s| == 8 * |p|
  {
    seq(8 * |p|, k requires 0 <= k < 8 * |p| => BitOf(p[k / 8], k % 8))
  }

  /** The number written in the `n` bits from `k`, least significant first. */
  function Val(s: seq<bit>, k: nat, n: nat): (v: nat)
    requires k + n <= |s|
    decreases n
  {
    if n == 0 then 0 else s[k] + 2 * Val(s, k + 1, n - 1)
  }

  /** The number written in the `n` bits from `k`, most significant first. */
  function Msb(s: seq<bit>, k: nat, n: nat): (v: nat)
    requires k + n <= |s|
  {
    if n == 0 then 0 else 2 * Msb(s, k, n - 1) + s[k + n - 1]
  }

  /** `n` bits of `v`, least significant first. */
  function LowFirst(v: nat, n: nat): (r: seq<bit>)
    ensures |r| == n
    decreases n
  {
    if n == 0 then [] else [v % 2] + LowFirst(v / 2, n - 1)
  }

  /** `n` bits of `v`, most significant first. */
  function HighFirst(v: nat, n: nat): (r: seq<bit>)
    ensures |r| == n
    decreases n
  {
    if n == 0 then [] else HighFirst(v / 2, n - 1) + [v % 2]
  }

  /** `part` lies in `s` at offset `k`. */
  predicate At<T(==)>(s: seq<T>, k: nat, part: seq<T>)
  {
    k + |part| <= |s| && s[k..k + |part|] == part
  }

  lemma AtSplit<T>(s: seq<T>, k: nat, a: seq<T>, b: seq<T>)
    ensures At(s, k, a + b) <==> At(s, k, a) && At(s, k + |a|, b)
  {
    if At(s, k, a + b) {
      assert s[k..k + |a|] == (a + b)[..|a|];
      assert s[k + |a|..k + |a| + |b|] == (a + b)[|a|..];
    }
    if At(s, k, a) && At(s, k + |a|, b) {
      assert s[k..k + |a + b|] == s[k..k + |a|] + s[k + |a|..k + |a| + |b|];
    }
  }

  lemma AtSplit4<T>(s: seq<T>, k: nat, a: seq<T>, b: seq<T>, c: seq<T>, d: seq<T>)
    ensures At(s, k, a + b + c + d) <==>
            At(s, k, a) && At(s, k + |a|, b) && At(s, k + |a| + |b|, c) && At(s, k + |a| + |b| + |c|, d)
  {
    hide At;
    AtSplit(s, k, a, b);
    AtSplit(s, k, a + b, c);
    AtSplit(s, k, a + b + c, d);
  }

  lemma AtBounds<T>(s: seq<T>, k: nat, a: seq<T>)
    requires At(s, k, a)
    ensures k + |a| <= |s|
  {
  }

  lemma Get32OfPut32(v: nat, p: seq<byte>, k: nat)
    requires v < 0x1_0000_0000 && At(p, k, Put32(v))
    ensures Get32(p, k) == v
  {
    var b := Put32(v);
    assert p[k..k + 4] == b;
    assert p[k] == b[0] && p[k + 1] == b[1] && p[k + 2] == b[2] && p[k + 3] == b[3];
    FourBytes(v);
  }

  lemma FourBytes(v: nat)
    requires v < 0x1_0000_0000
    ensures v == v % 256 + 256 * (v / 256 % 256) + 65536 * (v / 256 / 256 % 256 + 256 * (v / 256 / 256 / 256 % 256))
  {
    var x := v / 256;
    var y := x / 256;
  }

  lemma {:induction false} ValSnoc(s: seq<bit>, k: nat, n: nat)
    requires k + n < |s|
    ensures Val(s, k, n + 1) == Val(s, k, n) + (if s[k + n] == 1 then Pow2(n) else 0)
    decreases n
  {
    if n > 0 {
      ValSnoc(s, k + 1, n - 1);
    }
  }

  lemma {:induction false} ValBound(s: seq<bit>, k: nat, n: nat)
    requires k + n <= |s|
    ensures Val(s, k, n) < Pow2(n)
    decreases n
  {
    if n > 0 {
      ValBound(s, k + 1, n - 1);
    }
  }

  lemma {:induction false} MsbBound(s: seq<bit>, k: nat, n: nat)
    requires k + n <= |s|
    ensures Msb(s, k, n) < Pow2(n)
  {
    if n > 0 {
      MsbBound(s, k, n - 1);
    }
  }

  /** Writing a number in `n` bits and reading those bits back are inverse. */
  lemma {:induction false} LowFirstReadsBack(s: seq<bit>, k: nat, v: nat, n: nat)
    requires v < Pow2(n) && k + n <= |s|
    ensures At(s, k, LowFirst(v, n)) <==> Val(s, k, n) == v
    decreases n
  {
    if n > 0 {
      AtSplit(s, k, [v % 2], LowFirst(v / 2, n - 1));
      LowFirstReadsBack(s, k + 1, v / 2, n - 1);
      assert At(s, k, [v % 2]) <==> s[k] == v % 2 by {
        assert s[k..k + 1] == [s[k]];
      }
    }
  }

  lemma {:induction false} HighFirstReadsBack(s: seq<bit>, k: nat, v: nat, n: nat)
    requires v < Pow2(n) && k + n <= |s|
    ensures At(s, k, HighFirst(v, n)) <==> Msb(s, k, n) == v
    decreases n
  {
    if n > 0 {
      AtSplit(s, k, HighFirst(v / 2, n - 1), [v % 2]);
      HighFirstReadsBack(s, k, v / 2, n - 1);
      assert At(s, k + n - 1, [v % 2]) <==> s[k + n - 1] == v % 2 by {
        assert s[k + n - 1..k + n] == [s[k + n - 1]];
      }
    }
  }

  lemma {:induction false} ShrBound(b: nat, i: nat, w: nat)
    requires i <= w && b < Pow2(w)
    ensures Shr(b, i) < Pow2(w - i)
  {
    if i > 0 {
      ShrBound(b, i - 1, w);
    }
  }

  lemma {:induction false} StreamByteFrom(p: seq<byte>, j: nat, i: nat)
    requires j < |p| && i <= 8
    ensures Val(Stream(p), 8 * j + i, 8 - i) == Shr(p[j], i)
    decreases 8 - i
  {
    if i == 8 {
      assert Pow2(8) == 256;
      ShrBound(p[j], 8, 8);
    } else {
      StreamByteFrom(p, j, i + 1);
      hide Pow2;
      assert (8 * j + i) / 8 == j && (8 * j + i) % 8 == i;
    }
  }

  /** An aligned byte of the input is the number its eight bits spell. */
  lemma StreamByte(p: seq<byte>, j: nat)
    requires j < |p|
    ensures Val(Stream(p), 8 * j, 8) == p[j]
  {
    StreamByteFrom(p, j, 0);
  }

  lemma PowTimes(m: nat, w: nat)
    requires m > 0
    ensures Pow2(m) * w == 2 * (Pow2(m - 1) * w)
  {
  }

  lemma {:induction false} ValConcat(s: seq<bit>, k: nat, m: nat, n: nat)
    requires k + m + n <= |s|
    ensures Val(s, k, m + n) == Val(s, k, m) + Pow2(m) * Val(s, k + m, n)
    decreases m
  {
    if m > 0 {
      ValConcat(s, k + 1, m - 1, n);
      PowTimes(m, Val(s, k + m, n));
      hide Pow2;
    }
  }

  lemma {:induction false} StreamHead(data: seq<byte>)
    requires data != []
    ensures Stream(data) == Stream(data[..1]) + Stream(data[1..])
  {
    var a, b := Stream(data[..1]), Stream(data[1..]);
    forall k | 0 <= k < 8 * |data|
      ensures Stream(data)[k] == (a + b)[k]
    {
      if k >= 8 {
        assert k / 8 - 1 == (k - 8) / 8 && k % 8 == (k - 8) % 8;
      }
    }
  }

  lemma {:induction false} StreamJoined(a: seq<byte>, b: seq<byte>)
    ensures Stream(a + b) == Stream(a) + Stream(b)
    decreases |a|
  {
    hide Stream;
    if a == [] {
      assert a + b == b;
      assert Stream(a) == [] by { assert |Stream(a)| == 0; }
      assert [] + Stream(b) == Stream(b);
    } else {
      StreamHead(a);
      StreamHead(a + b);
      assert (a + b)[..1] == a[..1] && (a + b)[1..] == a[1..] + b;
      StreamJoined(a[1..], b);
      assert Stream(a[..1]) + Stream(a[1..]) + Stream(b) == Stream(a[..1]) + (Stream(a[1..]) + Stream(b));
    }
  }
}
