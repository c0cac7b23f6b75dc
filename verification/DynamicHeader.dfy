/**
  The header of a dynamic block (section 3.2.7 of RFC 1951): a code for code
  lengths, and the two length vectors run-length coded with it.
 */
module DynamicHeader {
  import opened Bits
  import opened Huffman
  import opened Deflate

  // ---- the code-length code ------------------------------------------------------

  /** The order the header lists the 19 code-length lengths in. */
  function Order(i: nat): (r: nat)
    requires i < 19
    ensures r < 19
  {
    [16, 17, 18, 0, 8, 7, 9, 6, 10, 5, 11, 4, 12, 3, 13, 2, 14, 1, 15][i]
  }

  function PlaceOf(x: nat): (r: nat)
    requires x < 19
    ensures r < 19
  {
    [3, 17, 15, 13, 11, 9, 7, 5, 4, 6, 8, 10, 12, 14, 16, 18, 0, 1, 2][x]
  }

  lemma OrderIsPermutation(i: nat, x: nat)
    requires i < 19 && x < 19
    ensures Order(i) == x <==> PlaceOf(x) == i
  {
  }

  predicate IsClLengths(cl: seq<int>)
  {
    |cl| == 19 && forall i :: 0 <= i < 19 ==> 0 <= cl[i] <= 7
  }

  function ClBits(cl: seq<int>, i: nat, ncode: nat): (r: seq<bit>)
    requires IsClLengths(cl) && i <= ncode <= 19
    decreases ncode - i
  {
    if i == ncode then [] else LowFirst(cl[Order(i)], 3) + ClBits(cl, i + 1, ncode)
  }

  /** Fill in `cl` from the 3-bit lengths listed from place `i` on. */
  function ReadCl(s: seq<bit>, k: nat, cl: seq<int>, i: nat, ncode: nat): (r: Parsed<seq<int>>)
    requires k <= |s| && IsClLengths(cl) && i <= ncode <= 19
    ensures r.Got? ==> k <= r.next <= |s| && IsClLengths(r.value)
    decreases ncode - i
  {
    if i == ncode then Got(cl, k)
    else
      var (v, k1) :- Take(s, k, 3);
      ValBound(s, k, 3);
      assert Pow2(3) == 8;
      ReadCl(s, k1, cl[Order(i) := v], i + 1, ncode)
  }

  /** `a` and `b` agree on the lengths not listed at places `i` to `ncode`. */
  predicate AgreeOutside(a: seq<int>, b: seq<int>, i: nat, ncode: nat)
    requires |a| == 19 && |b| == 19
  {
    forall x :: 0 <= x < 19 && !(i <= PlaceOf(x) < ncode) ==> a[x] == b[x]
  }

  lemma AgreeStep(a: seq<int>, b: seq<int>, i: nat, ncode: nat)
    requires |a| == 19 && |b| == 19 && i < ncode <= 19
    ensures AgreeOutside(a[Order(i) := b[Order(i)]], b, i + 1, ncode) <==> AgreeOutside(a, b, i, ncode)
  {
    hide Order, PlaceOf;
    forall x | 0 <= x < 19
      ensures Order(i) == x <==> PlaceOf(x) == i
    {
      OrderIsPermutation(i, x);
    }
  }

  lemma {:induction false} ReadClIff(s: seq<bit>, k: nat, start: seq<int>, cl: seq<int>, i: nat, ncode: nat)
    requires k <= |s| && IsClLengths(start) && IsClLengths(cl) && i <= ncode <= 19
    ensures At(s, k, ClBits(cl, i, ncode)) && AgreeOutside(start, cl, i, ncode)
            <==> ReadCl(s, k, start, i, ncode) == Got(cl, k + |ClBits(cl, i, ncode)|)
    decreases ncode - i
  {
    hide Order, PlaceOf, LowFirst, Val, At, Pow2, AgreeOutside;
    if i == ncode {
      assert At(s, k, []) by { AtEmpty(s, k); }
      AgreeEverywhere(start, cl, i);
    } else {
      var x := Order(i);
      AgreeStep(start, cl, i, ncode);
      Three(cl[x]);
      TakeIff(s, k, cl[x], 3);
      AtSplit(s, k, LowFirst(cl[x], 3), ClBits(cl, i + 1, ncode));
      if Take(s, k, 3).Got? {
        var v := Take(s, k, 3).value;
        Val3(s, k);
        OrderIsPermutation(i, x);
        ReadClKeeps(s, k + 3, start[x := v], i + 1, ncode, x);
        if v == cl[x] {
          ReadClIff(s, k + 3, start[x := v], cl, i + 1, ncode);
        }
      }
    }
  }

  lemma Three(v: int)
    requires 0 <= v <= 7
    ensures v < Pow2(3)
  {
  }

  lemma Val3(s: seq<bit>, k: nat)
    requires k + 3 <= |s|
    ensures Val(s, k, 3) <= 7
  {
    ValBound(s, k, 3);
    assert Pow2(3) == 8;
  }

  lemma AtEmpty<T>(s: seq<T>, k: nat)
    requires k <= |s|
    ensures At(s, k, [])
  {
  }

  lemma AgreeEverywhere(a: seq<int>, b: seq<int>, i: nat)
    requires |a| == 19 && |b| == 19
    ensures AgreeOutside(a, b, i, i) <==> a == b
  {
    hide PlaceOf;
  }

  lemma {:induction false} ReadClKeeps(s: seq<bit>, k: nat, cl: seq<int>, i: nat, ncode: nat, x: nat)
    requires k <= |s| && IsClLengths(cl) && i <= ncode <= 19 && x < 19 && PlaceOf(x) < i
    ensures var r := ReadCl(s, k, cl, i, ncode); r.Got? ==> r.value[x] == cl[x]
    decreases ncode - i
  {
    hide Order, PlaceOf, Val, Pow2;
    if i < ncode && Take(s, k, 3).Got? {
      Val3(s, k);
      OrderIsPermutation(i, x);
      ReadClKeeps(s, k + 3, cl[Order(i) := Take(s, k, 3).value], i + 1, ncode, x);
    }
  }

  // ---- run-length coded lengths --------------------------------------------------

  /** A symbol of the code-length code and its extra bits. */
  datatype Run = Run(sym: nat, ext: nat)

  function RunExtra(sym: nat): nat
  {
    if sym < 16 then 0 else if sym == 16 then 2 else if sym == 17 then 3 else 7
  }

  predicate ValidRun(cl: seq<int>, op: Run)
  {
    |cl| == 19 && HasCode(cl, op.sym) && op.ext < Pow2(RunExtra(op.sym))
  }

  function RunBits(cl: seq<int>, op: Run): (r: seq<bit>)
    requires ValidRun(cl, op)
  {
    CodeBits(cl, op.sym) + LowFirst(op.ext, RunExtra(op.sym))
  }

  function Repeat(v: int, n: nat): (r: seq<int>)
    ensures |r| == n && forall i :: 0 <= i < n ==> r[i] == v
  {
    seq(n, _ => v)
  }

  function RunCount(op: Run): nat
  {
    if op.sym < 16 then 1 else if op.sym < 18 then 3 + op.ext else 11 + op.ext
  }

  /** A length itself, the previous length again, or zeros. */
  function RunValue(acc: seq<int>, op: Run): (v: int)
    requires op.sym == 16 ==> acc != []
  {
    if op.sym < 16 then op.sym else if op.sym == 16 then acc[|acc| - 1] else 0
  }

  function ApplyRun(acc: seq<int>, op: Run): (r: seq<int>)
    requires op.sym == 16 ==> acc != []
  {
    acc + Repeat(RunValue(acc, op), RunCount(op))
  }

  predicate Unrolls(acc: seq<int>, ops: seq<Run>)
    decreases |ops|
  {
    ops != [] ==>
      && (ops[0].sym == 16 ==> acc != [])
      && Unrolls(ApplyRun(acc, ops[0]), ops[1..])
  }

  function Unroll(acc: seq<int>, ops: seq<Run>): (r: seq<int>)
    requires Unrolls(acc, ops)
    ensures acc <= r
    decreases |ops|
  {
    if ops == [] then acc else Unroll(ApplyRun(acc, ops[0]), ops[1..])
  }

  function RunsBits(cl: seq<int>, ops: seq<Run>): (r: seq<bit>)
    requires forall i :: 0 <= i < |ops| ==> ValidRun(cl, ops[i])
  {
    if ops == [] then [] else RunBits(cl, ops[0]) + RunsBits(cl, ops[1..])
  }

  function ReadRun(s: seq<bit>, k: nat, cl: seq<int>): (r: Parsed<Run>)
    requires k <= |s| && |cl| == 19
    ensures r.Got? ==> k < r.next <= |s| && r.value.sym < 19
  {
    var (sym, k1) :- Decode(s, k, cl);
    var (ext, k2) :- Take(s, k1, RunExtra(sym));
    Got(Run(sym, ext), k2)
  }

  function ReadRuns(s: seq<bit>, k: nat, cl: seq<int>, acc: seq<int>, total: nat): (r: Parsed<seq<int>>)
    requires k <= |s| && |cl| == 19 && |acc| <= total <= 320 && IsLengths(acc)
    ensures r.Got? ==> k <= r.next <= |s| && |r.value| == total && IsLengths(r.value)
    decreases |s| - k
  {
    if |acc| == total then Got(acc, k)
    else
      var (op, k1) :- ReadRun(s, k, cl);
      if op.sym == 16 && acc == [] then Fail
      else if |acc| + RunCount(op) > total then Fail
      else ReadRuns(s, k1, cl, ApplyRun(acc, op), total)
  }

  lemma ReadRunSound(s: seq<bit>, k: nat, cl: seq<int>)
    requires k <= |s| && |cl| == 19
    ensures var r := ReadRun(s, k, cl);
            r.Got? ==> ValidRun(cl, r.value) && At(s, k, RunBits(cl, r.value)) && r.next == k + |RunBits(cl, r.value)|
  {
    hide CodeBits, Decode, At, Val, LowFirst, Pow2, RunExtra;
    if ReadRun(s, k, cl).Got? {
      var Got(Run(sym, ext), _) := ReadRun(s, k, cl);
      DecodeSound(s, k, cl);
      CodeLength(cl);
      var k1 := k + cl[sym];
      ValBound(s, k1, RunExtra(sym));
      TakeIff(s, k1, ext, RunExtra(sym));
      AtSplit(s, k, CodeBits(cl, sym), LowFirst(ext, RunExtra(sym)));
    }
  }

  lemma ReadRunInverts(s: seq<bit>, k: nat, cl: seq<int>, op: Run)
    requires k <= |s| && IsLengths(cl) && Kraft(cl) && ValidRun(cl, op) && At(s, k, RunBits(cl, op))
    ensures ReadRun(s, k, cl) == Got(op, k + |RunBits(cl, op)|)
  {
    hide CodeBits, Decode, At, Val, LowFirst, Pow2, RunExtra, KraftSum;
    CodeLength(cl);
    AtSplit(s, k, CodeBits(cl, op.sym), LowFirst(op.ext, RunExtra(op.sym)));
    DecodeInvertsCode(s, k, cl, op.sym);
    TakeIff(s, k + cl[op.sym], op.ext, RunExtra(op.sym));
  }

  predicate AllRuns(cl: seq<int>, ops: seq<Run>)
  {
    forall i :: 0 <= i < |ops| ==> ValidRun(cl, ops[i])
  }

  lemma {:induction false} ReadRunsInverts(s: seq<bit>, k: nat, cl: seq<int>, acc: seq<int>, ops: seq<Run>, total: nat)
    requires k <= |s| && |acc| <= total <= 320 && IsLengths(acc)
    requires IsLengths(cl) && |cl| == 19 && Kraft(cl) && AllRuns(cl, ops)
    requires Unrolls(acc, ops) && |Unroll(acc, ops)| == total
    requires At(s, k, RunsBits(cl, ops))
    ensures ReadRuns(s, k, cl, acc, total) == Got(Unroll(acc, ops), k + |RunsBits(cl, ops)|)
    decreases |ops|
  {
    hide RunBits, ReadRun, At, KraftSum;
    if ops != [] {
      AtSplit(s, k, RunBits(cl, ops[0]), RunsBits(cl, ops[1..]));
      ReadRunInverts(s, k, cl, ops[0]);
      var k1 := k + |RunBits(cl, ops[0])|;
      AtBounds(s, k1, RunsBits(cl, ops[1..]));
      ReadRunsInverts(s, k1, cl, ApplyRun(acc, ops[0]), ops[1..], total);
    }
  }

  lemma {:induction false} ReadRunsSound(s: seq<bit>, k: nat, cl: seq<int>, acc: seq<int>, total: nat) returns (ops: seq<Run>)
    requires k <= |s| && |cl| == 19 && |acc| <= total <= 320 && IsLengths(acc)
    requires ReadRuns(s, k, cl, acc, total).Got?
    ensures AllRuns(cl, ops) && Unrolls(acc, ops) && |Unroll(acc, ops)| == total
    ensures At(s, k, RunsBits(cl, ops))
    ensures ReadRuns(s, k, cl, acc, total) == Got(Unroll(acc, ops), k + |RunsBits(cl, ops)|)
    decreases |s| - k
  {
    hide RunBits, ReadRun, At;
    if |acc| == total {
      ops := [];
      AtEmpty(s, k);
    } else {
      ReadRunSound(s, k, cl);
      var Got(op, k1) := ReadRun(s, k, cl);
      var rest := ReadRunsSound(s, k1, cl, ApplyRun(acc, op), total);
      ops := [op] + rest;
      assert ops[1..] == rest;
      AtSplit(s, k, RunBits(cl, op), RunsBits(cl, rest));
    }
  }

  // ---- the whole header -----------------------------------------------------------

  datatype Header = Header(nlen: nat, ndist: nat, ncode: nat, cl: seq<int>, runs: seq<Run>)

  const NoLengths: seq<int> := Repeat(0, 19)

  ghost predicate ValidHeader(h: Header)
  {
    && 257 <= h.nlen <= 286 && 1 <= h.ndist <= 30 && 4 <= h.ncode <= 19
    && IsClLengths(h.cl) && AgreeOutside(NoLengths, h.cl, 0, h.ncode)
    && AllRuns(h.cl, h.runs)
    && Unrolls([], h.runs) && |Unroll([], h.runs)| == h.nlen + h.ndist
    && IsLengths(Unroll([], h.runs))
  }

  function HeaderBits(h: Header): (r: seq<bit>)
    requires ValidHeader(h)
  {
    LowFirst(h.nlen - 257, 5) + LowFirst(h.ndist - 1, 5) + LowFirst(h.ncode - 4, 4)
    + (ClBits(h.cl, 0, h.ncode) + RunsBits(h.cl, h.runs))
  }

  /** The literal/length and distance lengths the header spells. */
  function HeaderLens(h: Header): (r: (seq<int>, seq<int>))
    requires ValidHeader(h)
  {
    var all := Unroll([], h.runs);
    (all[..h.nlen], all[h.nlen..])
  }

  function ReadHeader(s: seq<bit>, k: nat): (r: Parsed<(seq<int>, seq<int>)>)
    requires k <= |s|
    ensures r.Got? ==> k < r.next <= |s| && IsLengths(r.value.0) && IsLengths(r.value.1)
  {
    var (a, k1) :- Take(s, k, 5);
    var (b, k2) :- Take(s, k1, 5);
    var (c, k3) :- Take(s, k2, 4);
    if a + 257 > 286 || b + 1 > 30 then Fail
    else
      Val4(s, k2);
      var (cl, k4) :- ReadCl(s, k3, NoLengths, 0, c + 4);
      var (all, k5) :- ReadRuns(s, k4, cl, [], a + 257 + b + 1);
      Got((all[..a + 257], all[a + 257..]), k5)
  }

  lemma Val4(s: seq<bit>, k: nat)
    requires k + 4 <= |s|
    ensures Val(s, k, 4) <= 15
  {
    ValBound(s, k, 4);
    assert Pow2(4) == 16;
  }

  lemma Widths()
    ensures Pow2(4) == 16 && Pow2(5) == 32
  {
    assert Pow2(3) == 8;
  }

  /** A header the writer put is read back, whatever follows it. */
  lemma ReadHeaderInverts(s: seq<bit>, k: nat, h: Header)
    requires k <= |s| && ValidHeader(h) && Kraft(h.cl) && At(s, k, HeaderBits(h))
    ensures ReadHeader(s, k) == Got(HeaderLens(h), k + |HeaderBits(h)|)
  {
    hide LowFirst, Val, Pow2, At, ClBits, RunsBits, ReadCl, ReadRuns, Unrolls, Unroll, KraftSum, Repeat;
    hide AgreeOutside;
    Widths();
    var a, b, c := h.nlen - 257, h.ndist - 1, h.ncode - 4;
    var clBits, runBits := ClBits(h.cl, 0, h.ncode), RunsBits(h.cl, h.runs);
    AtSplit4(s, k, LowFirst(a, 5), LowFirst(b, 5), LowFirst(c, 4), clBits + runBits);
    TakeIff(s, k, a, 5);
    TakeIff(s, k + 5, b, 5);
    TakeIff(s, k + 10, c, 4);
    AtSplit(s, k + 14, clBits, runBits);
    ReadClIff(s, k + 14, NoLengths, h.cl, 0, h.ncode);
    ReadRunsInverts(s, k + 14 + |clBits|, h.cl, [], h.runs, h.nlen + h.ndist);
  }

  /** A header that was read is some header as the writer puts it. */
  lemma ReadHeaderSound(s: seq<bit>, k: nat) returns (h: Header)
    requires k <= |s| && ReadHeader(s, k).Got?
    ensures ValidHeader(h) && At(s, k, HeaderBits(h))
    ensures ReadHeader(s, k) == Got(HeaderLens(h), k + |HeaderBits(h)|)
  {
    hide LowFirst, Val, Pow2, At, ClBits, RunsBits, ReadCl, ReadRuns, Unrolls, Unroll, Repeat;
    hide AgreeOutside;
    Widths();
    var a, b, c := Val(s, k, 5), Val(s, k + 5, 5), Val(s, k + 10, 4);
    Val4(s, k + 10);
    TakeIff(s, k, a, 5);
    TakeIff(s, k + 5, b, 5);
    TakeIff(s, k + 10, c, 4);
    var Got(cl, k4) := ReadCl(s, k + 14, NoLengths, 0, c + 4);
    ReadClLength(s, k + 14, NoLengths, cl, 0, c + 4);
    ReadClIff(s, k + 14, NoLengths, cl, 0, c + 4);
    var runs := ReadRunsSound(s, k4, cl, [], a + 257 + b + 1);
    h := Header(a + 257, b + 1, c + 4, cl, runs);
    AtSplit4(s, k, LowFirst(a, 5), LowFirst(b, 5), LowFirst(c, 4), ClBits(cl, 0, c + 4) + RunsBits(cl, runs));
    AtSplit(s, k + 14, ClBits(cl, 0, c + 4), RunsBits(cl, runs));
  }

  lemma {:induction false} ReadClLength(s: seq<bit>, k: nat, start: seq<int>, cl: seq<int>, i: nat, ncode: nat)
    requires k <= |s| && IsClLengths(start) && IsClLengths(cl) && i <= ncode <= 19
    ensures var r := ReadCl(s, k, start, i, ncode); r.Got? ==> r.next == k + |ClBits(cl, i, ncode)|
    decreases ncode - i
  {
    hide Order, Val, Pow2;
    if i < ncode && Take(s, k, 3).Got? {
      Val3(s, k);
      ReadClLength(s, k + 3, start[Order(i) := Take(s, k, 3).value], cl, i + 1, ncode);
    }
  }
}
