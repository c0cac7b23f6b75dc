/**
  The bit source of the decompressor: one byte of look-ahead, consumed from its
  low end.
 */
module BitReader {
  import opened Bits

  class Reader {
    const p: seq<byte>
    var pos: nat
    var bitbuf: nat
    var bitcnt: nat

    ghost predicate Valid()
      reads this
    {
      && pos <= |p|
      && bitcnt <= 7
      && (bitcnt > 0 ==> pos > 0 && bitbuf == Shr(p[pos - 1], 8 - bitcnt))
    }

    /** The index in `Stream(p)` of the next bit. */
    ghost function Where(): (k: nat)
      requires Valid()
      reads this
      ensures k <= 8 * |p|
    {
      8 * pos - bitcnt
    }

    constructor (p: seq<byte>)
      ensures Valid() && this.p == p && Where() == 0
    {
      this.p := p;
      pos, bitbuf, bitcnt := 0, 0, 0;
    }

    /** The next bit, or -1 (and no change) when the input has run out. */
    method GetBit() returns (b: int)
      requires Valid()
      modifies this
      ensures Valid()
      ensures old(Where()) == 8 * |p| ==> b == -1 && Where() == old(Where())
      ensures old(Where()) < 8 * |p| ==> b == Stream(p)[old(Where())] && Where() == old(Where()) + 1
    {
      if bitcnt == 0 {
        if pos >= |p| {
          return -1;
        }
        bitbuf := p[pos];
        pos := pos + 1;
        bitcnt := 8;
      }
      b := bitbuf % 2;
      bitbuf := bitbuf / 2;
      bitcnt := bitcnt - 1;
    }

    /** The next `n` bits as a number, or -1 with the input exhausted. */
    method GetBits(n: nat) returns (v: int)
      requires Valid()
      modifies this
      ensures Valid()
      ensures old(Where()) + n > 8 * |p| ==> v == -1 && Where() == 8 * |p|
      ensures old(Where()) + n <= 8 * |p| ==>
                v == Val(Stream(p), old(Where()), n) && Where() == old(Where()) + n
    {
      hide Stream, Shr;
      v := 0;
      for i := 0 to n
        invariant Valid() && Where() == old(Where()) + i <= 8 * |p|
        invariant v == Val(Stream(p), old(Where()), i)
      {
        var b := GetBit();
        if b < 0 {
          return -1;
        }
        ValSnoc(Stream(p), old(Where()), i);
        v := v + if b == 1 then Pow2(i) else 0;
      }
    }
  }
}
