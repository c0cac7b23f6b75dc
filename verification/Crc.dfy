/**
  CRC-32 as the unpacker computes it (section 8 of RFC 1952).  The 32-bit register
  is its bits, low bit first, so shifting right drops the first one.
 */
module Crc {
  import opened Bits

  type word = s: seq<bit> | |s| == 32 witness LowFirst(0, 32)

  const ONES: word := [1, 1, 1, 1, 1, 1, 1, 1, 1, 1, 1, 1, 1, 1, 1, 1,
                       1, 1, 1, 1, 1, 1, 1, 1, 1, 1, 1, 1, 1, 1, 1, 1]

  // 0xEDB88320, low bit first
  const POLY: word := [0, 0, 0, 0, 0, 1, 0, 0, 1, 1, 0, 0, 0, 0, 0, 1,
                       0, 0, 0, 1, 1, 1, 0, 1, 1, 0, 1, 1, 0, 1, 1, 1]

  function Flip(a: bit, b: bit): (r: bit)
    ensures r == 0 <==> a == b
  {
    if a == b then 0 else 1
  }

  /** `w` exclusive-ored onto the low bits of `c`. */
  function XorLow(c: word, w: seq<bit>): (r: word)
    requires |w| <= 32
    ensures forall i :: 0 <= i < |w| ==> r[i] == Flip(c[i], w[i])
    ensures forall i :: |w| <= i < 32 ==> r[i] == c[i]
  {
    seq(|w|, i requires 0 <= i < |w| => Flip(c[i], w[i])) + c[|w|..]
  }

  function ShiftRight(c: word): (r: word)
  {
    c[1..] + [0]
  }

  /** One turn of the inner loop. */
  function Turn(c: word): (r: word)
  {
    if c[0] == 1 then XorLow(ShiftRight(c), POLY) else ShiftRight(c)
  }

  function Turns(c: word, n: nat): word
    decreases n
  {
    if n == 0 then c else Turns(Turn(c), n - 1)
  }

  // ---- the reference: one message bit at a time ----------------------------------

  function Feed(c: word, b: bit): word
  {
    Turn(XorLow(c, [b]))
  }

  function FeedAll(c: word, bits: seq<bit>): word
    decreases |bits|
  {
    if bits == [] then c else FeedAll(Feed(c, bits[0]), bits[1..])
  }

  function Complement(c: word): (r: word)
    ensures forall i :: 0 <= i < 32 ==> r[i] == 1 - c[i]
  {
    seq(32, i requires 0 <= i < 32 => 1 - c[i])
  }

  /** The CRC of a byte string, defined on its bit stream. */
  function Crc32(data: seq<byte>): word
  {
    Complement(FeedAll(ONES, Stream(data)))
  }

  // ---- loading several bits at once -------------------------------------------------

  /** The order of two exclusive-ors does not matter. */
  lemma XorSwaps(c: word, v: seq<bit>, w: seq<bit>)
    requires |v| <= 32 && |w| <= 32
    ensures XorLow(XorLow(c, v), w) == XorLow(XorLow(c, w), v)
  {
    var a, b := XorLow(XorLow(c, v), w), XorLow(XorLow(c, w), v);
    forall i | 0 <= i < 32
      ensures a[i] == b[i]
    {
    }
  }

  lemma TurnLoaded(c: word, w: seq<bit>)
    requires 1 <= |w| <= 32
    ensures Turn(XorLow(c, w)) == XorLow(Feed(c, w[0]), w[1..])
  {
    hide POLY;
    var a, b := XorLow(c, w), XorLow(c, [w[0]]);
    assert a[0] == b[0];
    var t, u := ShiftRight(a), XorLow(ShiftRight(b), w[1..]);
    assert t == u;
    if a[0] == 1 {
      XorSwaps(ShiftRight(b), w[1..], POLY);
    }
  }

  /** Up to 32 message bits may be exclusive-ored in first and shifted through after. */
  lemma {:induction false} LoadThenShift(c: word, w: seq<bit>)
    requires |w| <= 32
    ensures FeedAll(c, w) == Turns(XorLow(c, w), |w|)
    decreases |w|
  {
    hide Turn, XorLow;
    if w == [] {
      assert XorLow(c, w) == c;
    } else {
      TurnLoaded(c, w);
      LoadThenShift(Feed(c, w[0]), w[1..]);
    }
  }

  // ---- what the CRC detects -----------------------------------------------------------

  lemma TurnInjective(a: word, b: word)
    requires Turn(a) == Turn(b)
    ensures a == b
  {
    hide POLY;
    assert POLY[31] == 1 by { TopOfPoly(); }
    assert Turn(a)[31] == a[0] && Turn(b)[31] == b[0];
    forall i | 1 <= i < 32
      ensures a[i] == b[i]
    {
      assert Turn(a)[i - 1] == Turn(b)[i - 1];
    }
  }

  /** The register before a turn, from the one after it. */
  function TurnBack(c: word): (r: word)
  {
    var s := if c[31] == 1 then XorLow(c, POLY) else c;
    [c[31]] + s[..31]
  }

  /** A turn is a bijection of the register. */
  lemma TurnBijective(c: word)
    ensures Turn(TurnBack(c)) == c && TurnBack(Turn(c)) == c
  {
    hide Turn, TurnBack;
    TurnOfBack(c);
    TurnOfBack(Turn(c));
    TurnInjective(TurnBack(Turn(c)), c);
  }

  lemma TurnOfBack(c: word)
    ensures Turn(TurnBack(c)) == c
  {
    hide POLY;
    TopOfPoly();
    var b := TurnBack(c);
    forall i | 0 <= i < 32
      ensures Turn(b)[i] == c[i]
    {
      if i < 31 {
        assert b[i + 1] == if c[31] == 1 then Flip(c[i], POLY[i]) else c[i];
      }
    }
  }

  lemma TopOfPoly()
    ensures POLY[31] == 1
  {
  }

  lemma {:induction false} TurnsInjective(a: word, b: word, n: nat)
    requires Turns(a, n) == Turns(b, n)
    ensures a == b
    decreases n
  {
    hide Turn;
    if n > 0 {
      TurnsInjective(Turn(a), Turn(b), n - 1);
      TurnInjective(a, b);
    }
  }

  lemma {:induction false} FeedInjective(a: word, b: word, bits: seq<bit>)
    requires FeedAll(a, bits) == FeedAll(b, bits)
    ensures a == b
    decreases |bits|
  {
    hide Turn, XorLow;
    if bits != [] {
      FeedInjective(Feed(a, bits[0]), Feed(b, bits[0]), bits[1..]);
      TurnInjective(XorLow(a, [bits[0]]), XorLow(b, [bits[0]]));
      XorLowInjective(a, b, [bits[0]]);
    }
  }

  lemma XorLowInjective(a: word, b: word, w: seq<bit>)
    requires |w| <= 32 && XorLow(a, w) == XorLow(b, w)
    ensures a == b
  {
    forall i | 0 <= i < 32
      ensures a[i] == b[i]
    {
      assert XorLow(a, w)[i] == XorLow(b, w)[i];
    }
  }

  lemma {:induction false} FeedAppend(c: word, x: seq<bit>, y: seq<bit>)
    ensures FeedAll(c, x + y) == FeedAll(FeedAll(c, x), y)
    decreases |x|
  {
    hide Feed;
    if x == [] {
      assert x + y == y;
    } else {
      assert (x + y)[1..] == x[1..] + y;
      FeedAppend(Feed(c, x[0]), x[1..], y);
    }
  }

  /** Two different loads never lead to the same register. */
  lemma LoadInjective(c: word, u: seq<bit>, v: seq<bit>)
    requires |u| == |v| <= 32 && u != v
    ensures FeedAll(c, u) != FeedAll(c, v)
  {
    hide FeedAll, Turns;
    LoadThenShift(c, u);
    LoadThenShift(c, v);
    if FeedAll(c, u) == FeedAll(c, v) {
      TurnsInjective(XorLow(c, u), XorLow(c, v), |u|);
      forall i | 0 <= i < |u|
        ensures u[i] == v[i]
      {
        assert XorLow(c, u)[i] == XorLow(c, v)[i];
      }
    }
  }

  /**
    Any two messages of one length that differ, but only within 32 or fewer
    consecutive bits, have different CRCs: at every length and position.
   */
  lemma BurstDetected(x: seq<byte>, y: seq<byte>, at: nat, n: nat)
    requires |x| == |y| && x != y
    requires n <= 32 && at + n <= 8 * |x|
    requires forall k :: 0 <= k < 8 * |x| && !(at <= k < at + n) ==> Stream(x)[k] == Stream(y)[k]
    ensures Crc32(x) != Crc32(y)
  {
    hide Stream, FeedAll;
    var p, q := Stream(x), Stream(y);
    var u, v, rest := p[at..at + n], q[at..at + n], p[at + n..];
    assert p == p[..at] + u + rest && q == p[..at] + v + rest;
    if u == v {
      StreamInjective(x, y);
    }
    var c := FeedAll(ONES, p[..at]);
    LoadInjective(c, u, v);
    FeedAppend(ONES, p[..at], u);
    FeedAppend(ONES, p[..at], v);
    FeedAppend(ONES, p[..at] + u, rest);
    FeedAppend(ONES, p[..at] + v, rest);
    if FeedAll(ONES, p) == FeedAll(ONES, q) {
      FeedInjective(FeedAll(c, u), FeedAll(c, v), rest);
    } else {
      ComplementInjective(FeedAll(ONES, p), FeedAll(ONES, q));
    }
  }

  lemma ComplementInjective(a: word, b: word)
    ensures Complement(a) == Complement(b) ==> a == b
  {
    if Complement(a) == Complement(b) {
      forall i | 0 <= i < 32
        ensures a[i] == b[i]
      {
        assert Complement(a)[i] == Complement(b)[i];
      }
    }
  }

  lemma StreamInjective(x: seq<byte>, y: seq<byte>)
    requires |x| == |y| && Stream(x) == Stream(y)
    ensures x == y
  {
    hide Stream, Val;
    forall j | 0 <= j < |x|
      ensures x[j] == y[j]
    {
      StreamByte(x, j);
      StreamByte(y, j);
    }
  }

  /** In particular one changed byte is always detected. */
  lemma ByteChangeDetected(x: seq<byte>, i: nat, b: byte)
    requires i < |x| && b != x[i]
    ensures Crc32(x[i := b]) != Crc32(x)
  {
    forall k | 0 <= k < 8 * |x| && !(8 * i <= k < 8 * i + 8)
      ensures Stream(x[i := b])[k] == Stream(x)[k]
    {
      assert k / 8 != i;
    }
    hide Stream;
    BurstDetected(x[i := b], x, 8 * i, 8);
  }

  // ---- the loop --------------------------------------------------------------------------

  lemma StreamSnoc(p: seq<byte>, i: nat)
    requires i < |p|
    ensures Stream(p[..i + 1]) == Stream(p[..i]) + Stream([p[i]])
  {
    var a, b := Stream(p[..i]), Stream([p[i]]);
    forall k | 0 <= k < 8 * (i + 1)
      ensures Stream(p[..i + 1])[k] == (a + b)[k]
    {
      if k >= 8 * i {
        assert k / 8 == i && k % 8 == k - 8 * i && (k - 8 * i) / 8 == 0;
      } else {
        assert k / 8 < i;
      }
    }
  }

  lemma {:induction false} TurnsSnoc(c: word, n: nat)
    ensures Turns(c, n + 1) == Turn(Turns(c, n))
    decreases n
  {
    hide Turn;
    if n > 0 {
      TurnsSnoc(Turn(c), n - 1);
    }
  }

  /** The byte-at-a-time loop computes the bit-serial CRC. */
  method ComputeCrc(p: seq<byte>) returns (crc: word)
    ensures crc == Crc32(p)
  {
    hide Turn, XorLow, Stream, FeedAll, Turns;
    var c := ONES;
    assert FeedAll(ONES, Stream(p[..0])) == c by { FeedNone(c); }
    for i := 0 to |p|
      invariant c == FeedAll(ONES, Stream(p[..i]))
    {
      ghost var was := c;
      c := XorLow(c, Stream([p[i]]));
      ghost var loaded := c;
      NoTurns(c);
      for k := 0 to 8
        invariant c == Turns(loaded, k)
      {
        TurnsSnoc(loaded, k);
        c := Turn(c);
      }
      LoadThenShift(was, Stream([p[i]]));
      StreamSnoc(p, i);
      FeedAppend(ONES, Stream(p[..i]), Stream([p[i]]));
    }
    assert p[..|p|] == p;
    crc := Complement(c);
  }

  lemma FeedNone(c: word)
    ensures Stream([]) == [] && FeedAll(c, []) == c
  {
  }

  lemma NoTurns(c: word)
    ensures Turns(c, 0) == c
  {
  }
}
