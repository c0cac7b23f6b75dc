/**
  Canonical Huffman codes (section 3.2.2 of RFC 1951): the code a vector of
  lengths stands for, the table the decompressor builds from it, and the decoder
  that walks the table one bit at a time.
 */
module Huffman {
  import opened Bits
  import opened BitReader

  predicate IsLengths(lens: seq<int>)
  {
    |lens| <= 320 && forall i :: 0 <= i < |lens| ==> 0 <= lens[i] <= 15
  }

  // ---- the code a length vector stands for ----------------------------------

  /** The symbols of length `l`, in increasing order. */
  function SymsOfLen(lens: seq<int>, l: int): (r: seq<nat>)
    ensures |r| <= |lens|
  {
    if lens == [] then [] else
    var n := |lens| - 1;
    SymsOfLen(lens[..n], l) + if lens[n] == l then [n] else []
  }

  function Count(lens: seq<int>, l: int): nat
  {
    |SymsOfLen(lens, l)|
  }

  /** The smallest code of length `l`: RFC 1951's next_code. */
  function First(lens: seq<int>, l: nat): nat
    requires l >= 1
  {
    if l == 1 then 0 else 2 * (First(lens, l - 1) + Count(lens, l - 1))
  }

  /** How many symbols of the same length come before `sym`. */
  function Rank(lens: seq<int>, sym: nat): nat
    requires sym < |lens|
  {
    Count(lens[..sym], lens[sym])
  }

  function Code(lens: seq<int>, sym: nat): nat
    requires sym < |lens| && lens[sym] > 0
  {
    First(lens, lens[sym]) + Rank(lens, sym)
  }

  function CodeBits(lens: seq<int>, sym: nat): (r: seq<bit>)
    requires sym < |lens| && lens[sym] > 0
  {
    HighFirst(Code(lens, sym), lens[sym])
  }

  /** The Kraft sum, in units of 2^-15, summed symbol by symbol. */
  function KraftSum(lens: seq<int>): nat
    requires IsLengths(lens)
  {
    if lens == [] then 0 else
    var n := |lens| - 1;
    KraftSum(lens[..n]) + if lens[n] > 0 then Pow2(15 - lens[n]) else 0
  }

  /** The code is not over-subscribed. */
  predicate Kraft(lens: seq<int>)
    requires IsLengths(lens)
  {
    KraftSum(lens) <= Pow2(15)
  }

  // ---- facts about the code ----------------------------------------------------

  lemma {:induction false} SymAt(lens: seq<int>, l: int, j: nat)
    requires j < Count(lens, l)
    ensures j < |SymsOfLen(lens, l)|
    ensures var sym := SymsOfLen(lens, l)[j];
            sym < |lens| && lens[sym] == l && Rank(lens, sym) == j
  {
    var n := |lens| - 1;
    if j < Count(lens[..n], l) {
      SymAt(lens[..n], l, j);
      var sym := SymsOfLen(lens[..n], l)[j];
      assert lens[..n][..sym] == lens[..sym];
    }
  }

  lemma {:induction false} RankAt(lens: seq<int>, sym: nat)
    requires sym < |lens|
    ensures Rank(lens, sym) < Count(lens, lens[sym])
    ensures SymsOfLen(lens, lens[sym])[Rank(lens, sym)] == sym
  {
    var n := |lens| - 1;
    if sym < n {
      RankAt(lens[..n], sym);
      assert lens[..n][..sym] == lens[..sym];
    }
  }

  lemma {:induction false} FirstSnoc(lens: seq<int>, x: int, l: nat)
    requires 1 <= l && 0 <= x
    ensures First(lens + [x], l) == First(lens, l) + if 1 <= x < l then Pow2(l - x) else 0
  {
    if l > 1 {
      FirstSnoc(lens, x, l - 1);
      assert (lens + [x])[..|lens|] == lens;
    }
  }

  /** The code space used up at the last level is the Kraft sum. */
  lemma {:induction false} KraftSumIsLastCode(lens: seq<int>)
    requires IsLengths(lens)
    ensures KraftSum(lens) == First(lens, 15) + Count(lens, 15)
  {
    if lens == [] {
      FirstOfNone(15);
    } else {
      var n := |lens| - 1;
      KraftSumIsLastCode(lens[..n]);
      FirstSnoc(lens[..n], lens[n], 15);
      assert lens[..n] + [lens[n]] == lens;
    }
  }

  lemma {:induction false} FirstOfNone(l: nat)
    requires l >= 1
    ensures First([], l) == 0
  {
    if l > 1 {
      FirstOfNone(l - 1);
    }
  }

  lemma {:induction false} CodesFitBelow(lens: seq<int>, l: nat, m: nat)
    requires 1 <= l <= m && First(lens, m) + Count(lens, m) <= Pow2(m)
    ensures First(lens, l) + Count(lens, l) <= Pow2(l)
    decreases m - l
  {
    hide Pow2, First, Count;
    if l < m {
      CodesFitBelow(lens, l + 1, m);
      PowTimes(l + 1, 1);
      FirstStep(lens, l);
    }
  }

  /** Kraft's inequality holds exactly when every level's codes fit its bits. */
  lemma KraftIffCodesFit(lens: seq<int>)
    requires IsLengths(lens)
    ensures Kraft(lens) <==> forall l :: 1 <= l <= 15 ==> First(lens, l) + Count(lens, l) <= Pow2(l)
  {
    KraftSumIsLastCode(lens);
    if Kraft(lens) {
      forall l | 1 <= l <= 15
        ensures First(lens, l) + Count(lens, l) <= Pow2(l)
      {
        CodesFitBelow(lens, l, 15);
      }
    }
  }

  lemma CodeFits(lens: seq<int>, sym: nat)
    requires IsLengths(lens) && Kraft(lens) && sym < |lens| && lens[sym] > 0
    ensures Code(lens, sym) < Pow2(lens[sym])
  {
    KraftIffCodesFit(lens);
    RankAt(lens, sym);
  }

  // ---- decoding ---------------------------------------------------------------

  lemma NotBelowFirst(s: seq<bit>, k: nat, lens: seq<int>, l: nat)
    requires l >= 1 && k + l <= |s|
    requires l > 1 ==> Msb(s, k, l - 1) >= First(lens, l - 1) + Count(lens, l - 1)
    ensures Msb(s, k, l) >= First(lens, l)
  {
    hide Count;
  }

  /** The symbol whose code is next in `s`, trying lengths from `l` up. */
  function DecodeFrom(s: seq<bit>, k: nat, lens: seq<int>, l: nat): (r: Parsed<nat>)
    requires l >= 1 && k + l - 1 <= |s|
    requires l > 1 ==> Msb(s, k, l - 1) >= First(lens, l - 1) + Count(lens, l - 1)
    ensures r.Got? ==> k < r.next <= |s| && r.value < |lens|
    decreases 16 - l
  {
    hide SymsOfLen, Count, First, Msb;
    if l > 15 || k + l > |s| then Fail
    else if Msb(s, k, l) < First(lens, l) + Count(lens, l) then
      NotBelowFirst(s, k, lens, l);
      SymAt(lens, l, Msb(s, k, l) - First(lens, l));
      Got(SymsOfLen(lens, l)[Msb(s, k, l) - First(lens, l)], k + l)
    else DecodeFrom(s, k, lens, l + 1)
  }

  function Decode(s: seq<bit>, k: nat, lens: seq<int>): (r: Parsed<nat>)
    requires k <= |s|
    ensures r.Got? ==> k < r.next <= |s| && r.value < |lens|
  {
    DecodeFrom(s, k, lens, 1)
  }

  lemma {:induction false} DecodeFromSound(s: seq<bit>, k: nat, lens: seq<int>, l: nat)
    requires l >= 1 && k + l - 1 <= |s|
    requires l > 1 ==> Msb(s, k, l - 1) >= First(lens, l - 1) + Count(lens, l - 1)
    ensures CodeRead(s, k, lens, DecodeFrom(s, k, lens, l))
    decreases 16 - l
  {
    hide SymsOfLen, HighFirst;
    if l > 15 || k + l > |s| {
    } else if Msb(s, k, l) < First(lens, l) + Count(lens, l) {
      var v := Msb(s, k, l);
      SymAt(lens, l, v - First(lens, l));
      MsbBound(s, k, l);
      HighFirstReadsBack(s, k, v, l);
    } else {
      DecodeFromSound(s, k, lens, l + 1);
    }
  }

  /** If a symbol was found, its own code is what lies between `k` and where reading stopped. */
  ghost predicate CodeRead(s: seq<bit>, k: nat, lens: seq<int>, r: Parsed<nat>)
  {
    r.Got? ==>
      && r.value < |lens| && lens[r.value] > 0
      && r.next == k + lens[r.value]
      && At(s, k, CodeBits(lens, r.value))
  }

  /** Whatever the lengths, even over-subscribed: a decoded symbol's own code was read. */
  lemma DecodeSound(s: seq<bit>, k: nat, lens: seq<int>)
    requires k <= |s|
    ensures CodeRead(s, k, lens, Decode(s, k, lens))
  {
    DecodeFromSound(s, k, lens, 1);
  }

  lemma {:induction false} MsbPrefix(s: seq<bit>, k: nat, l: nat, n: nat, c: nat)
    requires l <= n && k + n <= |s| && Msb(s, k, n) >= c * Pow2(n - l)
    ensures Msb(s, k, l) >= c
    decreases n - l
  {
    if l < n {
      assert c * Pow2(n - l) == 2 * (c * Pow2(n - l - 1));
      MsbPrefix(s, k, l, n - 1, c);
    }
  }

  lemma FirstStep(lens: seq<int>, l: nat)
    requires l >= 1
    ensures First(lens, l + 1) == 2 * (First(lens, l) + Count(lens, l))
  {
  }

  function Scaled(c: nat, n: nat): nat
  {
    c * Pow2(n)
  }

  lemma ScaledStep(c: nat, n: nat)
    requires n > 0
    ensures Scaled(c, n) == 2 * Scaled(c, n - 1) && Scaled(c, 0) == c
  {
    PowTimes(n, c);
  }

  lemma {:induction false} FirstGrows(lens: seq<int>, l: nat, n: nat, c: nat)
    requires 1 <= l < n && c == First(lens, l) + Count(lens, l)
    ensures First(lens, n) >= Scaled(c, n - l)
    decreases n
  {
    hide Scaled, First, Count;
    FirstStep(lens, n - 1);
    ScaledStep(c, n - l);
    if l + 1 < n {
      FirstGrows(lens, l, n - 1, c);
    }
  }

  lemma {:induction false} DecodeFromFinds(s: seq<bit>, k: nat, lens: seq<int>, sym: nat, l: nat)
    requires sym < |lens| && 1 <= l <= lens[sym] <= 15 && k + lens[sym] <= |s|
    requires Msb(s, k, lens[sym]) == Code(lens, sym)
    requires l > 1 ==> Msb(s, k, l - 1) >= First(lens, l - 1) + Count(lens, l - 1)
    ensures DecodeFrom(s, k, lens, l) == Got(sym, k + lens[sym])
    decreases lens[sym] - l
  {
    hide SymsOfLen;
    RankAt(lens, sym);
    if l < lens[sym] {
      FirstGrows(lens, l, lens[sym], First(lens, l) + Count(lens, l));
      MsbPrefix(s, k, l, lens[sym], First(lens, l) + Count(lens, l));
      DecodeFromFinds(s, k, lens, sym, l + 1);
    }
  }

  /** The bits of a symbol's code, followed by anything, decode to that symbol and no further. */
  lemma DecodeInvertsCode(s: seq<bit>, k: nat, lens: seq<int>, sym: nat)
    requires IsLengths(lens) && Kraft(lens) && sym < |lens| && lens[sym] > 0
    requires At(s, k, CodeBits(lens, sym))
    ensures Decode(s, k, lens) == Got(sym, k + lens[sym])
  {
    CodeFits(lens, sym);
    HighFirstReadsBack(s, k, Code(lens, sym), lens[sym]);
    DecodeFromFinds(s, k, lens, sym, 1);
  }

  /** Decoding succeeds exactly when some symbol's code comes next. */
  lemma DecodeIffCode(s: seq<bit>, k: nat, lens: seq<int>, sym: nat)
    requires IsLengths(lens) && Kraft(lens) && k <= |s| && sym < |lens| && lens[sym] > 0
    ensures At(s, k, CodeBits(lens, sym)) <==> Decode(s, k, lens) == Got(sym, k + lens[sym])
  {
    if At(s, k, CodeBits(lens, sym)) {
      DecodeInvertsCode(s, k, lens, sym);
    }
    DecodeSound(s, k, lens);
  }

  /** No code is a prefix of another. */
  lemma CodesPrefixFree(lens: seq<int>, a: nat, b: nat)
    requires IsLengths(lens) && Kraft(lens)
    requires a < |lens| && b < |lens| && lens[a] > 0 && lens[b] > 0
    requires CodeBits(lens, a) <= CodeBits(lens, b)
    ensures a == b
  {
    var s := CodeBits(lens, b);
    DecodeInvertsCode(s, 0, lens, a);
    DecodeInvertsCode(s, 0, lens, b);
  }

  // ---- the table ------------------------------------------------------------------

  datatype Huff = Huff(count: seq<int>, sym: seq<int>)

  /** Where the symbols of length `l` start in the table. */
  function Offset(lens: seq<int>, l: nat): nat
    requires l >= 1
  {
    if l == 1 then 0 else Offset(lens, l - 1) + Count(lens, l - 1)
  }

  lemma {:induction false} OffsetSnoc(lens: seq<int>, x: int, l: nat)
    requires 1 <= l
    ensures Offset(lens + [x], l) == Offset(lens, l) + if 1 <= x < l then 1 else 0
  {
    assert (lens + [x])[..|lens|] == lens;
    if l > 1 {
      OffsetSnoc(lens, x, l - 1);
    }
  }

  lemma {:induction false} OffsetBound(lens: seq<int>, l: nat)
    requires 1 <= l
    ensures Offset(lens, l) <= |lens|
    decreases |lens|, l
  {
    if lens == [] {
      if l > 1 {
        OffsetBound(lens, l - 1);
      }
    } else {
      var n := |lens| - 1;
      OffsetBound(lens[..n], l);
      OffsetSnoc(lens[..n], lens[n], l);
      assert lens[..n] + [lens[n]] == lens;
    }
  }

  lemma {:induction false} OffsetMono(lens: seq<int>, l: nat, m: nat)
    requires 1 <= l < m
    ensures Offset(lens, l) + Count(lens, l) <= Offset(lens, m)
  {
    if l + 1 < m {
      OffsetMono(lens, l, m - 1);
    }
  }

  lemma {:induction false} CountMono(lens: seq<int>, i: nat, l: int)
    requires i <= |lens|
    ensures SymsOfLen(lens[..i], l) <= SymsOfLen(lens, l)
    decreases |lens|
  {
    if i < |lens| {
      CountMono(lens[..|lens| - 1], i, l);
      assert lens[..|lens| - 1][..i] == lens[..i];
    } else {
      assert lens[..i] == lens;
    }
  }

  ghost predicate Holds(sym: seq<int>, lens: seq<int>, l: nat, upto: seq<int>)
    requires l >= 1
  {
    && Offset(lens, l) + Count(upto, l) <= |sym|
    && forall j :: 0 <= j < Count(upto, l) ==> sym[Offset(lens, l) + j] == SymsOfLen(upto, l)[j]
  }

  ghost predicate Placed(sym: seq<int>, lens: seq<int>, upto: seq<int>)
  {
    forall l :: 1 <= l <= 15 ==> Holds(sym, lens, l, upto)
  }

  /** The table lists, length by length, exactly the symbols of that length. */
  ghost predicate Built(h: Huff, lens: seq<int>)
  {
    && |h.count| == 16 && |h.sym| == 320
    && (forall l :: 1 <= l <= 15 ==> h.count[l] == Count(lens, l))
    && Placed(h.sym, lens, lens)
  }

  /** The slot symbol `i` goes to once the symbols before it are placed. */
  ghost function Slot(lens: seq<int>, i: nat): nat
    requires i < |lens| && lens[i] > 0
  {
    Offset(lens, lens[i]) + Count(lens[..i], lens[i])
  }

  lemma SlotInTable(lens: seq<int>, i: nat)
    requires IsLengths(lens) && i < |lens| && lens[i] > 0
    ensures Slot(lens, i) < Offset(lens, lens[i]) + Count(lens, lens[i]) <= 320
  {
    RankAt(lens, i);
    OffsetBound(lens, lens[i] + 1);
  }

  lemma PlaceKeeps(sym: seq<int>, lens: seq<int>, i: nat, l: nat)
    requires IsLengths(lens) && i < |lens| && lens[i] > 0 && |sym| == 320 && 1 <= l <= 15
    requires Holds(sym, lens, l, lens[..i]) && Slot(lens, i) < 320
    ensures Holds(sym[Slot(lens, i) := i], lens, l, lens[..i + 1])
  {
    hide SymsOfLen, Offset;
    CountSnoc(lens, i, l);
    CountMono(lens, i, l);
    RankAt(lens, i);
    if l < lens[i] {
      OffsetMono(lens, l, lens[i]);
    } else if l > lens[i] {
      OffsetMono(lens, lens[i], l);
    }
  }

  lemma PlaceKeepsAll(sym: seq<int>, lens: seq<int>, i: nat)
    requires IsLengths(lens) && i < |lens| && lens[i] > 0 && |sym| == 320
    requires Placed(sym, lens, lens[..i])
    ensures Slot(lens, i) < 320
    ensures Placed(sym[Slot(lens, i) := i], lens, lens[..i + 1])
  {
    hide SymsOfLen, Offset, Holds;
    SlotInTable(lens, i);
    var upto, placed := lens[..i + 1], sym[Slot(lens, i) := i];
    forall l | 1 <= l < 16
      ensures Holds(placed, lens, l, upto)
    {
      PlaceKeeps(sym, lens, i, l);
    }
  }

  lemma CountSnoc(lens: seq<int>, i: nat, l: int)
    requires i < |lens|
    ensures SymsOfLen(lens[..i + 1], l) == SymsOfLen(lens[..i], l) + if lens[i] == l then [i] else []
  {
    assert lens[..i + 1][..i] == lens[..i];
  }

  lemma CountSnocAll(lens: seq<int>, i: nat)
    requires i < |lens|
    ensures forall l {:trigger Count(lens[..i + 1], l)} ::
              Count(lens[..i + 1], l) == Count(lens[..i], l) + if lens[i] == l then 1 else 0
  {
    assert lens[..i + 1][..i] == lens[..i];
  }

  lemma NoneYet(lens: seq<int>)
    ensures forall l {:trigger Count(lens[..0], l)} :: Count(lens[..0], l) == 0
  {
  }

  lemma NonePlaced(sym: seq<int>, lens: seq<int>)
    requires IsLengths(lens) && |sym| == 320
    ensures forall l {:trigger Count(lens[..0], l)} :: Count(lens[..0], l) == 0
    ensures Placed(sym, lens, lens[..0])
  {
    forall l | 1 <= l < 16
      ensures Holds(sym, lens, l, lens[..0])
    {
      OffsetBound(lens, l);
    }
  }

  lemma SkipKeepsAll(sym: seq<int>, lens: seq<int>, i: nat)
    requires i < |lens| && lens[i] == 0
    requires Placed(sym, lens, lens[..i])
    ensures Placed(sym, lens, lens[..i + 1])
  {
    var upto := lens[..i + 1];
    forall l | 1 <= l < 16
      ensures Holds(sym, lens, l, upto)
    {
      CountSnoc(lens, i, l);
      assert Holds(sym, lens, l, lens[..i]);
    }
  }

  method CountLengths(lens: seq<int>) returns (count: array<int>)
    requires IsLengths(lens)
    ensures fresh(count) && count.Length == 16
    ensures count[0] == 0 && forall l :: 1 <= l <= 15 ==> count[l] == Count(lens, l)
  {
    hide SymsOfLen;
    count := new int[16](_ => 0);
    NoneYet(lens);
    for i := 0 to |lens|
      invariant forall l :: 0 <= l < 16 ==> count[l] == Count(lens[..i], l)
    {
      CountSnocAll(lens, i);
      count[lens[i]] := count[lens[i]] + 1;
    }
    assert lens[..|lens|] == lens;
    count[0] := 0;
  }

  method StartOffsets(count: array<int>, ghost lens: seq<int>) returns (offs: array<int>)
    requires count.Length == 16 && forall l :: 1 <= l <= 15 ==> count[l] == Count(lens, l)
    ensures fresh(offs) && offs.Length == 16
    ensures forall l :: 1 <= l <= 15 ==> offs[l] == Offset(lens, l)
  {
    hide SymsOfLen;
    offs := new int[16](_ => 0);
    for i := 1 to 15
      invariant forall l :: 1 <= l <= i ==> offs[l] == Offset(lens, l)
    {
      offs[i + 1] := offs[i] + count[i];
    }
  }

  /** Counting sort of the symbols by length. */
  method Build(lens: seq<int>) returns (h: Huff)
    requires IsLengths(lens)
    ensures Built(h, lens)
  {
    hide SymsOfLen, Holds, Placed;
    var count := CountLengths(lens);
    var offs := StartOffsets(count, lens);
    ghost var counted := count[..];
    var sym := new int[320](_ => 0);
    NonePlaced(sym[..], lens);
    for i := 0 to |lens|
      invariant count[..] == counted
      invariant forall l :: 1 <= l < 16 ==> offs[l] == Offset(lens, l) + Count(lens[..i], l)
      invariant Placed(sym[..], lens, lens[..i])
    {
      CountSnocAll(lens, i);
      if lens[i] != 0 {
        PlaceKeepsAll(sym[..], lens, i);
        assert sym[..][offs[lens[i]] := i] == sym[..][Slot(lens, i) := i];
        sym[offs[lens[i]]] := i;
        offs[lens[i]] := offs[lens[i]] + 1;
      } else {
        SkipKeepsAll(sym[..], lens, i);
      }
    }
    assert lens[..|lens|] == lens;
    h := Huff(count[..], sym[..]);
  }

  lemma DecodeStart(s: seq<bit>, k: nat, lens: seq<int>)
    requires k <= |s|
    ensures Msb(s, k, 0) == 0 && First(lens, 1) == 0 && Offset(lens, 1) == 0
    ensures Decode(s, k, lens) == DecodeFrom(s, k, lens, 1)
  {
  }

  lemma DecodeEnd(s: seq<bit>, k: nat, lens: seq<int>)
    requires k + 15 <= |s| && Msb(s, k, 15) >= First(lens, 15) + Count(lens, 15)
    ensures DecodeFrom(s, k, lens, 16) == Fail
  {
  }

  /** One turn of the decoding loop, for any table built from `lens`. */
  lemma DecodeStep(s: seq<bit>, k: nat, lens: seq<int>, l: nat, h: Huff)
    requires 1 <= l <= 15 && k + l - 1 <= |s|
    requires l > 1 ==> Msb(s, k, l - 1) >= First(lens, l - 1) + Count(lens, l - 1)
    requires Built(h, lens)
    ensures |h.count| == 16 && |h.sym| == 320 && h.count[l] == Count(lens, l)
    ensures First(lens, l + 1) == 2 * (First(lens, l) + Count(lens, l))
    ensures Offset(lens, l + 1) == Offset(lens, l) + Count(lens, l)
    ensures k + l > |s| ==> DecodeFrom(s, k, lens, l) == Fail
    ensures k + l <= |s| ==> Msb(s, k, l) == 2 * Msb(s, k, l - 1) + s[k + l - 1] >= First(lens, l)
    ensures k + l <= |s| && Msb(s, k, l) < First(lens, l) + Count(lens, l) ==>
              var at := Offset(lens, l) + Msb(s, k, l) - First(lens, l);
              0 <= at < 320 && DecodeFrom(s, k, lens, l) == Got(h.sym[at], k + l)
    ensures k + l <= |s| && Msb(s, k, l) >= First(lens, l) + Count(lens, l) ==>
              DecodeFrom(s, k, lens, l) == DecodeFrom(s, k, lens, l + 1)
  {
    hide SymsOfLen;
    assert Holds(h.sym, lens, l, lens);
  }

  /** Read one symbol with table `h`, or -1. */
  method DecodeSymbol(s: Reader, h: Huff, ghost lens: seq<int>) returns (r: int)
    requires s.Valid() && IsLengths(lens) && Built(h, lens)
    modifies s
    ensures s.Valid()
    ensures match Decode(Stream(s.p), old(s.Where()), lens)
            case Fail => r == -1
            case Got(sym, next) => r == sym && s.Where() == next
  {
    hide *;
    ghost var bits, k := Stream(s.p), s.Where();
    var code, first, index := 0, 0, 0;
    DecodeStart(bits, k, lens);
    for len := 1 to 16
      invariant s.Valid() && s.Where() == k + len - 1 <= |bits|
      invariant code == 2 * Msb(bits, k, len - 1)
      invariant first == First(lens, len) && index == Offset(lens, len)
      invariant code >= first
      invariant len > 1 ==> Msb(bits, k, len - 1) >= First(lens, len - 1) + Count(lens, len - 1)
      invariant Decode(bits, k, lens) == DecodeFrom(bits, k, lens, len)
    {
      DecodeStep(bits, k, lens, len, h);
      var b := s.GetBit();
      if b < 0 {
        return -1;
      }
      code := code + b;
      var count := h.count[len];
      if code - count < first {
        return h.sym[index + (code - first)];
      }
      index, first := index + count, first + count;
      first, code := 2 * first, 2 * code;
    }
    DecodeEnd(bits, k, lens);
    return -1;
  }
}
