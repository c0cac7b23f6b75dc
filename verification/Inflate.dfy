/**
  The decompressor itself: loops over a bit source, an output buffer written in
  place and tables built on the way.  Each method is proved to compute what the
  reader of `DeflateStream` says, for every input, valid or not.
 */
module Inflate {
  import opened Bits
  import opened BitReader
  import opened Huffman
  import opened Deflate
  import opened DynamicHeader
  import opened DeflateStream

  /** The copy of a back-reference, byte by byte so that it may overlap itself. */
  method CopyMatch(out: array<byte>, op: nat, dist: nat, len: nat)
    requires 1 <= dist <= op && op + len <= out.Length
    modifies out
    ensures out[..op + len] == CopyBack(old(out[..op]), dist, len)
  {
    hide CopyBack;
    ghost var first := out[..op];
    NothingToCopy(first, dist);
    for i := 0 to len
      invariant CopyBack(out[..op + i], dist, len - i) == CopyBack(old(out[..op]), dist, len)
    {
      ghost var was := out[..op + i];
      out[op + i] := out[op + i - dist];
      assert out[..op + i + 1] == was + [was[|was| - dist]];
      CopyOne(was, dist, len - i);
    }
    NothingToCopy(out[..op + len], dist);
  }

  lemma CopyOne(o: seq<byte>, dist: nat, len: nat)
    requires 1 <= dist <= |o| && len > 0
    ensures CopyBack(o, dist, len) == CopyBack(o + [o[|o| - dist]], dist, len - 1)
  {
  }

  lemma NothingToCopy(o: seq<byte>, dist: nat)
    requires 1 <= dist <= |o|
    ensures CopyBack(o, dist, 0) == o
  {
  }

  /** What reading one item does to the rest of a block. */
  lemma BodyStep(bits: seq<bit>, k: nat, o: seq<byte>, cap: nat, ll: seq<int>, dl: seq<int>)
    requires k <= |bits|
    ensures var r, rest := ReadItem(bits, k, ll, dl), ReadBody(bits, k, o, cap, ll, dl);
            if r.Fail? || !Applies(o, r.value, cap) then rest == Fail
            else if r.value.End? then rest == Got(o, r.next)
            else rest == ReadBody(bits, r.next, Apply(o, r.value), cap, ll, dl)
  {
  }

  /** The items of one block up to its end code; -1 on anything malformed. */
  method Codes(s: Reader, out: array<byte>, cap: nat, op0: nat, lc: Huff, dc: Huff, ghost ll: seq<int>, ghost dl: seq<int>)
    returns (rc: int, op: nat)
    requires s.Valid() && op0 <= cap <= out.Length
    requires IsLengths(ll) && Built(lc, ll) && IsLengths(dl) && Built(dc, dl)
    modifies s, out
    ensures s.Valid()
    ensures match ReadBody(Stream(s.p), old(s.Where()), old(out[..op0]), cap, ll, dl)
            case Fail => rc == -1
            case Got(o, next) => rc == 0 && op <= cap && out[..op] == o && s.Where() == next
  {
    hide *;
    op := op0;
    ghost var bits := Stream(s.p);
    ghost var goal := ReadBody(bits, s.Where(), out[..op], cap, ll, dl);
    while true
      invariant s.Valid() && op <= cap
      invariant goal == ReadBody(bits, s.Where(), out[..op], cap, ll, dl)
      decreases |bits| - s.Where()
    {
      ghost var o, k := out[..op], s.Where();
      BodyStep(bits, k, o, cap, ll, dl);
      var sym := DecodeSymbol(s, lc, ll);
      if sym < 0 {
        ItemFails(bits, k, ll, dl);
        return -1, op;
      }
      if sym < 256 {
        ItemLiteral(bits, k, ll, dl);
        AppliesLiteral(o, sym, cap);
        if op >= cap {
          return -1, op;
        }
        out[op] := sym;
        op := op + 1;
        assert out[..op] == o + [sym];
        continue;
      }
      if sym == 256 {
        ItemEnd(bits, k, ll, dl, o, cap);
        return 0, op;
      }
      sym := sym - 257;
      ghost var k1 := s.Where();
      ItemCopy(bits, k, ll, dl);
      if sym >= 29 {
        return -1, op;
      }
      var e := s.GetBits(LengthExtra(sym));
      if e < 0 {
        return -1, op;
      }
      ghost var k2, le := s.Where(), e;
      var len := LengthBase(sym) + e;
      var ds := DecodeSymbol(s, dc, dl);
      if ds < 0 || ds >= 30 {
        return -1, op;
      }
      e := s.GetBits(DistExtra(ds));
      if e < 0 {
        return -1, op;
      }
      var dist := DistBase(ds) + e;
      AppliesCopy(o, Copy(sym, le, ds, e), cap);
      if dist > op || op + len > cap {
        return -1, op;
      }
      CopyMatch(out, op, dist, len);
      op := op + len;
    }
  }

  lemma ItemFails(bits: seq<bit>, k: nat, ll: seq<int>, dl: seq<int>)
    requires k <= |bits| && Decode(bits, k, ll) == Fail
    ensures ReadItem(bits, k, ll, dl) == Fail
  {
  }

  lemma ItemLiteral(bits: seq<bit>, k: nat, ll: seq<int>, dl: seq<int>)
    requires k <= |bits| && Decode(bits, k, ll).Got? && Decode(bits, k, ll).value < 256
    ensures ReadItem(bits, k, ll, dl) == Got(Literal(Decode(bits, k, ll).value), Decode(bits, k, ll).next)
  {
  }

  lemma ItemEnd(bits: seq<bit>, k: nat, ll: seq<int>, dl: seq<int>, o: seq<byte>, cap: nat)
    requires k <= |bits| && Decode(bits, k, ll).Got? && Decode(bits, k, ll).value == 256
    ensures ReadItem(bits, k, ll, dl) == Got(End, Decode(bits, k, ll).next) && Applies(o, End, cap)
  {
  }

  /** The four reads of a back-reference, any of which may fail. */
  lemma ItemCopy(bits: seq<bit>, k: nat, ll: seq<int>, dl: seq<int>)
    requires k <= |bits| && Decode(bits, k, ll).Got? && Decode(bits, k, ll).value > 256
    ensures var ls, k1 := Decode(bits, k, ll).value - 257, Decode(bits, k, ll).next;
            if ls >= 29 || k1 + LengthExtra(ls) > |bits| then ReadItem(bits, k, ll, dl) == Fail
            else
              var d := Decode(bits, k1 + LengthExtra(ls), dl);
              if d.Fail? || d.value >= 30 || d.next + DistExtra(d.value) > |bits| then ReadItem(bits, k, ll, dl) == Fail
              else
                var t := Copy(ls, Val(bits, k1, LengthExtra(ls)), d.value, Val(bits, d.next, DistExtra(d.value)));
                ReadItem(bits, k, ll, dl) == Got(t, d.next + DistExtra(d.value)) && ValidItem(t)
  {
    hide Decode, Val, Pow2, LengthExtra, DistExtra;
  }

  lemma AppliesLiteral(o: seq<byte>, b: byte, cap: nat)
    ensures Applies(o, Literal(b), cap) <==> |o| < cap
    ensures Apply(o, Literal(b)) == o + [b]
  {
  }

  lemma AppliesCopy(o: seq<byte>, t: Item, cap: nat)
    requires t.Copy? && ValidItem(t)
    ensures t.lsym < 29 && t.dsym < 30
    ensures var dist, len := DistBase(t.dsym) + t.dext, LengthBase(t.lsym) + t.lext;
            && (Applies(o, t, cap) <==> dist <= |o| && |o| + len <= cap)
            && (dist <= |o| ==> dist >= 1 && Apply(o, t) == CopyBack(o, dist, len))
  {
    hide LengthBase, LengthExtra, DistBase, DistExtra, CopyBack, Pow2;
  }

  // ---- stored blocks ------------------------------------------------------------

  lemma WordAt(p: seq<byte>, j: nat)
    requires j + 2 <= |p|
    ensures Take(Stream(p), 8 * j, 16) == Got(Le16(p[j], p[j + 1]), 8 * j + 16)
  {
    hide Val, Stream;
    StreamByte(p, j);
    StreamByte(p, j + 1);
    ValConcat(Stream(p), 8 * j, 8, 8);
    assert Pow2(8) == 256;
  }

  lemma StoredAt(p: seq<byte>, j: nat, n: nat)
    requires j + n <= |p|
    ensures BytesAt(Stream(p), 8 * j, n) == p[j..j + n]
  {
    hide Val, Stream;
    var r := BytesAt(Stream(p), 8 * j, n);
    forall i | 0 <= i < n
      ensures r[i] == p[j + i]
    {
      StreamByte(p, j + i);
    }
  }

  lemma PadTo(pos: nat, bitcnt: nat)
    requires bitcnt <= 7 && bitcnt <= 8 * pos
    ensures 8 * pos - bitcnt + PadLength(8 * pos - bitcnt) == 8 * pos
  {
  }

  /** A stored block in terms of bytes, once the position is rounded up to byte `j`. */
  lemma StoredStep(p: seq<byte>, k: nat, j: nat, o: seq<byte>, cap: nat)
    requires k + PadLength(k) == 8 * j && j <= |p|
    ensures j + 4 > |p| ==> ReadStored(Stream(p), k, o, cap) == Fail
    ensures j + 4 <= |p| ==>
              var len, nlen := Le16(p[j], p[j + 1]), Le16(p[j + 2], p[j + 3]);
              ReadStored(Stream(p), k, o, cap)
              == if 65535 - len != nlen || j + 4 + len > |p| || |o| + len > cap then Fail
                 else Got(o + p[j + 4..j + 4 + len], 8 * (j + 4 + len))
  {
    hide Stream, Val, PadLength, BytesAt;
    if j + 4 <= |p| {
      WordAt(p, j);
      WordAt(p, j + 2);
      var len := Le16(p[j], p[j + 1]);
      if j + 4 + len <= |p| {
        StoredAt(p, j + 4, len);
      }
    }
  }

  method StoredBlock(s: Reader, out: array<byte>, cap: nat, op0: nat) returns (rc: int, op: nat)
    requires s.Valid() && op0 <= cap <= out.Length
    modifies s, out
    ensures s.Valid()
    ensures match ReadStored(Stream(s.p), old(s.Where()), old(out[..op0]), cap)
            case Fail => rc == -1
            case Got(o, next) => rc == 0 && op <= cap && out[..op] == o && s.Where() == next
  {
    hide Stream, Val, PadLength, BytesAt, Shr, ReadStored, Le16;
    op := op0;
    PadTo(s.pos, s.bitcnt);
    StoredStep(s.p, s.Where(), s.pos, out[..op], cap);
    s.bitcnt := 0;
    if s.pos + 4 > |s.p| {
      return -1, op;
    }
    var len := Le16(s.p[s.pos], s.p[s.pos + 1]);
    var nlen := Le16(s.p[s.pos + 2], s.p[s.pos + 3]);
    s.pos := s.pos + 4;
    if 65535 - len != nlen || s.pos + len > |s.p| || op + len > cap {
      return -1, op;
    }
    CopyIn(s.p[s.pos..s.pos + len], out, op);
    s.pos := s.pos + len;
    op := op + len;
    rc := 0;
  }

  method CopyIn(data: seq<byte>, out: array<byte>, op: nat)
    requires op + |data| <= out.Length
    modifies out
    ensures out[..op + |data|] == old(out[..op]) + data
  {
    for i := 0 to |data|
      invariant out[..op + i] == old(out[..op]) + data[..i]
    {
      out[op + i] := data[i];
      assert out[..op + i + 1] == out[..op + i] + [data[i]];
    }
    assert data[..|data|] == data;
  }

  // ---- the tables of a dynamic block --------------------------------------------------

  lemma ReadClStep(bits: seq<bit>, k: nat, cl: seq<int>, i: nat, ncode: nat)
    requires k <= |bits| && IsClLengths(cl) && i < ncode <= 19
    ensures k + 3 > |bits| ==> ReadCl(bits, k, cl, i, ncode) == Fail
    ensures k + 3 <= |bits| ==>
              var v := Val(bits, k, 3);
              v <= 7 && IsClLengths(cl[Order(i) := v])
              && ReadCl(bits, k, cl, i, ncode) == ReadCl(bits, k + 3, cl[Order(i) := v], i + 1, ncode)
  {
    hide Order, Val;
    if k + 3 <= |bits| {
      Val3(bits, k);
    }
  }

  /** The 3-bit lengths of the code-length code, into the first 19 slots of `lens`. */
  method ReadClLengths(s: Reader, lens: array<int>, ncode: int, ghost ranOut: bool) returns (rc: int)
    requires s.Valid() && lens.Length == 320 && lens[..19] == NoLengths && 3 <= ncode <= 19
    requires ranOut ==> s.Where() == 8 * |s.p|
    modifies s, lens
    ensures s.Valid() && (rc == 0 ==> !ranOut)
    ensures match ReadCl(Stream(s.p), old(s.Where()), NoLengths, 0, ncode)
            case Fail => rc == -1
            case Got(cl, next) => rc == 0 && lens[..19] == cl && s.Where() == next
  {
    hide *;
    ghost var bits, k := Stream(s.p), s.Where();
    NoLengthsValid();
    for i := 0 to ncode
      invariant s.Valid() && IsClLengths(lens[..19])
      invariant ReadCl(bits, k, NoLengths, 0, ncode) == ReadCl(bits, s.Where(), lens[..19], i, ncode)
      invariant ranOut ==> i == 0 && s.Where() == |bits|
    {
      ReadClStep(bits, s.Where(), lens[..19], i, ncode);
      ghost var was := lens[..19];
      var v := s.GetBits(3);
      if v < 0 {
        return -1;
      }
      lens[Order(i)] := v;
      assert lens[..19] == was[Order(i) := v];
    }
    ReadClDone(bits, s.Where(), lens[..19], ncode);
    rc := 0;
  }

  lemma NoLengthsValid()
    ensures IsClLengths(NoLengths)
  {
  }

  lemma ReadClDone(bits: seq<bit>, k: nat, cl: seq<int>, ncode: nat)
    requires k <= |bits| && IsClLengths(cl) && ncode <= 19
    ensures ReadCl(bits, k, cl, ncode, ncode) == Got(cl, k)
  {
  }

  lemma ReadRunsStep(bits: seq<bit>, k: nat, cl: seq<int>, acc: seq<int>, total: nat)
    requires k <= |bits| && |cl| == 19 && |acc| < total <= 320 && IsLengths(acc)
    ensures var d := Decode(bits, k, cl);
            if d.Fail? then ReadRuns(bits, k, cl, acc, total) == Fail
            else
              && d.value < 19
              && (d.next + RunExtra(d.value) > |bits| ==> ReadRuns(bits, k, cl, acc, total) == Fail)
              && (d.next + RunExtra(d.value) <= |bits| ==>
                    var op := Run(d.value, Val(bits, d.next, RunExtra(d.value)));
                    if (op.sym == 16 && acc == []) || |acc| + RunCount(op) > total then
                      ReadRuns(bits, k, cl, acc, total) == Fail
                    else
                      && IsLengths(ApplyRun(acc, op)) && |ApplyRun(acc, op)| <= total
                      && ReadRuns(bits, k, cl, acc, total)
                         == ReadRuns(bits, d.next + RunExtra(d.value), cl, ApplyRun(acc, op), total))
  {
    hide Decode, Val, RunExtra;
  }

  lemma ReadRunsDone(bits: seq<bit>, k: nat, cl: seq<int>, acc: seq<int>)
    requires k <= |bits| && |cl| == 19 && |acc| <= 320 && IsLengths(acc)
    ensures ReadRuns(bits, k, cl, acc, |acc|) == Got(acc, k)
  {
  }

  lemma DecodeAtEnd(bits: seq<bit>, lens: seq<int>)
    ensures Decode(bits, |bits|, lens) == Fail
  {
  }

  /** `rep` copies of `val` from `idx`. */
  method Fill(lens: array<int>, idx: nat, rep: nat, val: int)
    requires idx + rep <= lens.Length
    modifies lens
    ensures lens[..idx + rep] == old(lens[..idx]) + Repeat(val, rep)
  {
    for i := 0 to rep
      invariant lens[..idx + i] == old(lens[..idx]) + Repeat(val, i)
    {
      lens[idx + i] := val;
      assert lens[..idx + i + 1] == lens[..idx + i] + [val];
      assert Repeat(val, i + 1) == Repeat(val, i) + [val];
    }
  }

  lemma FillIsRun(acc: seq<int>, sym: nat, ext: nat, val: int)
    requires IsLengths(acc) && sym < 19 && (sym == 16 ==> acc != [])
    requires val == if sym == 16 then acc[|acc| - 1] else if sym < 16 then sym else 0
    ensures 0 <= val <= 15
    ensures ApplyRun(acc, Run(sym, ext)) == acc + Repeat(val, RunCount(Run(sym, ext)))
    ensures sym < 16 ==> acc + [val] == ApplyRun(acc, Run(sym, ext))
  {
  }

  lemma RunTable(sym: nat, ext: nat)
    ensures RunExtra(sym) == if sym < 16 then 0 else if sym == 16 then 2 else if sym == 17 then 3 else 7
    ensures RunCount(Run(sym, ext)) == if sym < 16 then 1 else if sym < 18 then 3 + ext else 11 + ext
  {
  }

  lemma IsLengthsSnoc(acc: seq<int>, val: int, n: nat)
    requires IsLengths(acc) && 0 <= val <= 15 && |acc| + n <= 320
    ensures IsLengths(acc + Repeat(val, n))
  {
  }

  /**
    The run-length coded lengths.  A repeat count whose extra bits run out is
    taken as if they read -1; the input is then exhausted, so nothing built from
    such lengths can ever be used: the reader is left at the end.
   */
  method ReadLengths(s: Reader, h: Huff, ghost cl: seq<int>, lens: array<int>, total: int) returns (rc: int)
    requires s.Valid() && lens.Length == 320 && 0 <= total <= 320
    requires |cl| == 19 && IsLengths(cl) && Built(h, cl)
    modifies s, lens
    ensures s.Valid()
    ensures rc == 0 || rc == -1
    ensures rc == 0 ==> IsLengths(lens[..total])
    ensures match ReadRuns(Stream(s.p), old(s.Where()), cl, [], total)
            case Fail => rc == 0 ==> s.Where() == 8 * |s.p|
            case Got(all, next) => rc == 0 && lens[..total] == all && s.Where() == next
  {
    hide *;
    ghost var bits := Stream(s.p);
    ghost var ranOut := false;
    NoLengthsFit();
    ghost var goal := ReadRuns(bits, s.Where(), cl, [], total);
    assert lens[..0] == [];
    var idx := 0;
    while idx < total
      invariant s.Valid() && 0 <= idx <= total && IsLengths(lens[..idx])
      invariant ranOut ==> s.Where() == |bits| && goal == Fail
      invariant !ranOut ==> goal == ReadRuns(bits, s.Where(), cl, lens[..idx], total)
    {
      ghost var acc, k := lens[..idx], s.Where();
      ReadRunsStep(bits, k, cl, acc, total);
      DecodeAtEnd(bits, cl);
      var sym := DecodeSymbol(s, h, cl);
      if sym < 0 {
        return -1;
      }
      RunTable(sym, 0);
      if sym < 16 {
        Val0(bits, s.Where());
        FillIsRun(acc, sym, 0, sym);
        lens[idx] := sym;
        idx := idx + 1;
        assert lens[..idx] == acc + [sym];
        continue;
      }
      var rep, val := 0, 0;
      ghost var ext;
      if sym == 16 {
        if idx == 0 {
          return -1;
        }
        val := lens[idx - 1];
        var e := s.GetBits(2);
        rep := 3 + e;
        ext := e;
      } else if sym == 17 {
        var e := s.GetBits(3);
        rep := 3 + e;
        ext := e;
      } else {
        var e := s.GetBits(7);
        rep := 11 + e;
        ext := e;
      }
      if ext >= 0 {
        RunTable(sym, ext);
        FillIsRun(acc, sym, ext, val);
      } else {
        FillIsRun(acc, sym, 0, val);
        ranOut := true;
      }
      if idx + rep > total {
        return -1;
      }
      IsLengthsSnoc(acc, val, rep);
      Fill(lens, idx, rep, val);
      idx := idx + rep;
    }
    if !ranOut {
      ReadRunsDone(bits, s.Where(), cl, lens[..total]);
    }
    rc := 0;
  }

  lemma Val0(bits: seq<bit>, k: nat)
    requires k <= |bits|
    ensures Val(bits, k, 0) == 0
  {
  }

  lemma IsLengthsSlice(all: seq<int>, n: nat)
    requires IsLengths(all) && n <= |all|
    ensures IsLengths(all[..n]) && IsLengths(all[n..])
  {
  }

  lemma ClLengthsAreLengths(cl: seq<int>)
    requires IsClLengths(cl)
    ensures IsLengths(cl) && |cl| == 19
  {
  }

  /** The header of a dynamic block, read bit field by bit field. */
  lemma HeaderSteps(bits: seq<bit>, k: nat)
    requires k <= |bits|
    ensures k + 14 > |bits| ==> ReadHeader(bits, k) == Fail
    ensures k + 14 <= |bits| ==>
              var a, b, c := Val(bits, k, 5), Val(bits, k + 5, 5), Val(bits, k + 10, 4);
              && c <= 15
              && (a + 257 > 286 || b + 1 > 30 ==> ReadHeader(bits, k) == Fail)
              && (a + 257 <= 286 && b + 1 <= 30 ==>
                    IsClLengths(NoLengths) &&
                    var r := ReadCl(bits, k + 14, NoLengths, 0, c + 4);
                    if r.Fail? then ReadHeader(bits, k) == Fail
                    else
                      IsLengths([]) &&
                      var q := ReadRuns(bits, r.next, r.value, [], a + 257 + b + 1);
                      if q.Fail? then ReadHeader(bits, k) == Fail
                      else ReadHeader(bits, k) == Got((q.value[..a + 257], q.value[a + 257..]), q.next))
  {
    hide Val, ReadCl, ReadRuns, NoLengths;
    NoLengthsValid();
    if k + 14 <= |bits| {
      Val4(bits, k + 10);
    }
  }

  /**
    The two tables of a dynamic block.  Where a field of the header runs out the
    arithmetic goes on with its -1, but then either a later read fails here or
    the input is left exhausted.
   */
  method DynamicTables(s: Reader) returns (rc: int, lc: Huff, dc: Huff, ghost ll: seq<int>, ghost dl: seq<int>)
    requires s.Valid()
    modifies s
    ensures s.Valid()
    ensures rc == 0 ==> IsLengths(ll) && Built(lc, ll) && IsLengths(dl) && Built(dc, dl)
    ensures match ReadHeader(Stream(s.p), old(s.Where()))
            case Fail => rc == -1 || (rc == 0 && s.Where() == 8 * |s.p|)
            case Got(lens, next) => rc == 0 && ll == lens.0 && dl == lens.1 && s.Where() == next
  {
    hide *;
    ghost var bits, k := Stream(s.p), s.Where();
    rc, lc, dc, ll, dl := -1, Huff([], []), Huff([], []), [], [];
    HeaderSteps(bits, k);
    var nlen := s.GetBits(5);
    nlen := nlen + 257;
    var ndist := s.GetBits(5);
    ndist := ndist + 1;
    var ncode := s.GetBits(4);
    ncode := ncode + 4;
    ghost var ranOut := k + 14 > |bits|;
    if nlen > 286 || ndist > 30 {
      return;
    }
    var lens := new int[320];
    Fill(lens, 0, 19, 0);
    NoLengthsAre();
    assert lens[..0] + Repeat(0, 19) == NoLengths;
    NoLengthsValid();
    assert ranOut ==> ncode == 3 && s.Where() == |bits|;
    var e := ReadClLengths(s, lens, ncode, ranOut);
    if e != 0 {
      return;
    }
    ghost var cl := lens[..19];
    ClLengthsAreLengths(cl);
    var h := Build(lens[..19]);
    NoLengthsFit();
    e := ReadLengths(s, h, cl, lens, nlen + ndist);
    if e != 0 {
      return;
    }
    ghost var all := lens[..nlen + ndist];
    IsLengthsSlice(all, nlen);
    assert lens[..nlen] == all[..nlen] && lens[nlen..nlen + ndist] == all[nlen..];
    ll, dl := lens[..nlen], lens[nlen..nlen + ndist];
    lc := Build(lens[..nlen]);
    dc := Build(lens[nlen..nlen + ndist]);
    rc := 0;
  }

  lemma NoLengthsAre()
    ensures NoLengths == Repeat(0, 19)
  {
  }

  method FixedTables() returns (lc: Huff, dc: Huff)
    ensures IsLengths(FixedLitLens) && Built(lc, FixedLitLens)
    ensures IsLengths(FixedDistLens) && Built(dc, FixedDistLens)
  {
    hide IsLengths, Built, Pow2, KraftSum;
    var l := new int[288];
    Fill(l, 0, 144, 8);
    Fill(l, 144, 112, 9);
    Fill(l, 256, 24, 7);
    Fill(l, 280, 8, 8);
    assert l[..288] == FixedLitLens;
    var d := new int[30];
    Fill(d, 0, 30, 5);
    assert d[..30] == FixedDistLens;
    FixedCodesFit();
    lc := Build(l[..288]);
    dc := Build(d[..30]);
  }

  // ---- the whole stream -------------------------------------------------------------

  lemma BodyAtEnd(bits: seq<bit>, o: seq<byte>, cap: nat, ll: seq<int>, dl: seq<int>)
    ensures ReadBody(bits, |bits|, o, cap, ll, dl) == Fail
  {
    DecodeAtEnd(bits, ll);
  }

  lemma BlockSteps(bits: seq<bit>, k: nat, o: seq<byte>, cap: nat)
    requires k + 2 <= |bits|
    ensures var kind, r := Val(bits, k, 2), ReadBlock(bits, k, o, cap);
            && (kind == 0 ==> r == ReadStored(bits, k + 2, o, cap))
            && (kind == 1 ==> r == ReadBody(bits, k + 2, o, cap, FixedLitLens, FixedDistLens))
            && (kind == 2 ==>
                  var h := ReadHeader(bits, k + 2);
                  if h.Fail? then r == Fail else r == ReadBody(bits, h.next, o, cap, h.value.0, h.value.1))
            && (kind > 2 ==> r == Fail)
  {
    hide Val, ReadStored, ReadBody, ReadHeader, FixedLitLens, FixedDistLens;
  }

  /** One block of the given kind, its type bits already consumed. */
  method BlockOf(s: Reader, kind: int, out: array<byte>, cap: nat, op0: nat) returns (rc: int, op: nat)
    requires s.Valid() && op0 <= cap <= out.Length
    requires s.Where() >= 2 && kind == Val(Stream(s.p), s.Where() - 2, 2)
    modifies s, out
    ensures s.Valid()
    ensures match ReadBlock(Stream(s.p), old(s.Where()) - 2, old(out[..op0]), cap)
            case Fail => rc == -1
            case Got(o, next) => rc == 0 && op <= cap && out[..op] == o && s.Where() == next
  {
    hide *;
    ghost var bits, o0 := Stream(s.p), out[..op0];
    BlockSteps(bits, s.Where() - 2, o0, cap);
    if kind == 0 {
      rc, op := StoredBlock(s, out, cap, op0);
    } else if kind == 1 {
      var lc, dc := FixedTables();
      rc, op := Codes(s, out, cap, op0, lc, dc, FixedLitLens, FixedDistLens);
    } else if kind == 2 {
      var e, lc, dc;
      ghost var ll, dl;
      e, lc, dc, ll, dl := DynamicTables(s);
      if e != 0 {
        return -1, op0;
      }
      BodyAtEnd(bits, o0, cap, ll, dl);
      rc, op := Codes(s, out, cap, op0, lc, dc, ll, dl);
    } else {
      return -1, op0;
    }
  }

  lemma StreamStep(bits: seq<bit>, k: nat, o: seq<byte>, cap: nat)
    requires k <= |bits|
    ensures var r := ReadStream(bits, k, o, cap);
            && (k + 3 > |bits| ==> r == Fail)
            && (k + 3 <= |bits| ==>
                  var b := ReadBlock(bits, k + 1, o, cap);
                  if b.Fail? then r == Fail
                  else if bits[k] == 1 then r == b
                  else r == ReadStream(bits, b.next, b.value, cap))
  {
    hide ReadStored, ReadBody, ReadHeader, FixedLitLens, FixedDistLens;
    if k < |bits| {
      Val1(bits, k);
    }
  }

  /**
    Decompress `input` into `out`.  For every byte string the call returns, with
    every index in range, and it succeeds exactly when the format's reader does,
    with its result.
   */
  method Inflate(input: seq<byte>, out: array<byte>, cap: nat) returns (rc: int, outlen: nat)
    requires cap <= out.Length
    modifies out
    ensures match ReadStream(Stream(input), 0, [], cap)
            case Fail => rc == -1
            case Got(o, _) => rc == 0 && outlen <= cap && out[..outlen] == o
  {
    hide *;
    var s := new Reader(input);
    ghost var bits := Stream(input);
    var op: nat := 0;
    assert out[..op] == [];
    ghost var goal := ReadStream(bits, 0, [], cap);
    while true
      invariant s.Valid() && fresh(s) && s.p == input && op <= cap
      invariant goal == ReadStream(bits, s.Where(), out[..op], cap)
      decreases |bits| - s.Where()
    {
      StreamStep(bits, s.Where(), out[..op], cap);
      var last := s.GetBit();
      var kind := s.GetBits(2);
      if last < 0 || kind < 0 {
        return -1, 0;
      }
      var e;
      e, op := BlockOf(s, kind, out, cap, op);
      if e != 0 {
        return -1, 0;
      }
      if last != 0 {
        return 0, op;
      }
    }
  }
}
