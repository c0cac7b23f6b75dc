/**
  The guest's `struct stat`, written from a description of where each field lives
  and how wide it is, so that one marshaller serves three guests.
 */
module StatLayout {
  import opened Bits

  /** Byte offsets and widths; 0xFF means the guest has no such field, and 0 no st_rdev. */
  datatype Layout = Layout(bytes: nat, dev: nat, ino: nat, inoW: nat, ino32: nat, mode: nat, nlink: nat, nlinkW: nat,
                           uid: nat, gid: nat, size: nat, blksize: nat, blksizeW: nat, blocks: nat, rdev: nat)

  const I386 := Layout(96, 0, 88, 8, 12, 16, 20, 4, 24, 28, 44, 52, 4, 56, 32)
  const AMD64 := Layout(144, 0, 8, 8, 0xFF, 24, 16, 8, 28, 32, 48, 56, 8, 64, 40)
  const ARM64 := Layout(128, 0, 8, 8, 0xFF, 16, 20, 4, 24, 28, 48, 56, 4, 64, 32)

  /** What the file system knows about a file; the numbers are already 64- and 32-bit values. */
  datatype Stat = Stat(size: nat, ino: nat, mode: nat, uid: nat, gid: nat, nlink: nat, major: bv32, minor: bv32)

  // ---- device numbers ---------------------------------------------------------------------

  /** The 64-bit device number of a 32-bit major and minor. */
  function MakeDev(major: bv32, minor: bv32): bv64
  {
    var ma, mi := major as bv64, minor as bv64;
    ((ma & 0xfffff000) << 32) | ((ma & 0xfff) << 8) | ((mi & 0xffffff00) << 12) | (mi & 0xff)
  }

  function Major(dev: bv64): bv32
  {
    (((dev >> 32) & 0xfffff000) | ((dev >> 8) & 0xfff)) as bv32
  }

  function Minor(dev: bv64): bv32
  {
    (((dev >> 12) & 0xffffff00) | (dev & 0xff)) as bv32
  }

  /** Packing loses nothing, and every 64-bit value is a packed pair. */
  lemma DevBijection(major: bv32, minor: bv32, dev: bv64)
    ensures Major(MakeDev(major, minor)) == major && Minor(MakeDev(major, minor)) == minor
    ensures MakeDev(Major(dev), Minor(dev)) == dev
  {
  }

  /** Small numbers are packed as they always were: the major above the minor's eight bits. */
  lemma SmallDev(major: bv32, minor: bv32)
    requires major < 4096 && minor < 256
    ensures MakeDev(major, minor) == ((major as bv64) << 8) + (minor as bv64)
  {
  }

  // ---- fields -------------------------------------------------------------------------------

  /** One field to write: `w` bytes at `off`. */
  datatype Put = Put(off: nat, w: nat, v: nat)

  function Optional(p: Put): seq<Put>
  {
    if p.off == 0xFF then [] else [p]
  }

  function RdevOf(k: Stat): nat
  {
    MakeDev(k.major, k.minor) as int
  }

  function Rdev(l: Layout, k: Stat): seq<Put>
  {
    if l.rdev == 0 then [] else Optional(Put(l.rdev, 8, RdevOf(k)))
  }

  /** 512-byte blocks, in 64-bit arithmetic. */
  function BlockCount(size: nat): nat
  {
    (size + 511) % 0x1_0000_0000_0000_0000 / 512
  }

  /** As many blocks as the size needs and no more. */
  lemma BlocksCover(size: nat)
    requires size + 511 < 0x1_0000_0000_0000_0000
    ensures 512 * (BlockCount(size) - 1) < size <= 512 * BlockCount(size)
  {
  }

  /** The fields in the order they are written. */
  function Fields(l: Layout, k: Stat): seq<Put>
  {
    Optional(Put(l.dev, 8, 1)) + Optional(Put(l.ino, l.inoW, k.ino)) + Optional(Put(l.ino32, 4, k.ino))
    + Optional(Put(l.mode, 4, k.mode)) + Optional(Put(l.nlink, l.nlinkW, k.nlink)) + Optional(Put(l.uid, 4, k.uid))
    + Optional(Put(l.gid, 4, k.gid)) + Rdev(l, k) + Optional(Put(l.size, 8, k.size))
    + Optional(Put(l.blksize, l.blksizeW, 4096)) + Optional(Put(l.blocks, 8, BlockCount(k.size)))
  }

  predicate Apart(p: Put, q: Put)
  {
    p.off + p.w <= q.off || q.off + q.w <= p.off
  }

  /** Every field lies inside the structure and no two overlap. */
  predicate WellLaid(ps: seq<Put>, n: nat)
  {
    && (forall i :: 0 <= i < |ps| ==> ps[i].off + ps[i].w <= n)
    && (forall i, j :: 0 <= i < j < |ps| ==> Apart(ps[i], ps[j]))
  }

  // ---- writing ------------------------------------------------------------------------------

  function WriteField(b: seq<byte>, p: Put): (r: seq<byte>)
    ensures |r| == |b|
  {
    seq(|b|, x requires 0 <= x < |b| => ByteAfter(b, p, x))
  }

  function ByteAfter(b: seq<byte>, p: Put, x: nat): byte
    requires x < |b|
  {
    if p.off <= x < p.off + p.w then Byte(p.v, x - p.off) else b[x]
  }

  function WriteAll(b: seq<byte>, ps: seq<Put>): (r: seq<byte>)
    ensures |r| == |b|
  {
    if ps == [] then b else WriteField(WriteAll(b, ps[..|ps| - 1]), ps[|ps| - 1])
  }

  function StatBytes(l: Layout, k: Stat): seq<byte>
  {
    WriteAll(Zeros(l.bytes), Fields(l, k))
  }

  /** A field as the guest reads it: little-endian. */
  function Read(b: seq<byte>, off: nat, w: nat): nat
    requires off + w <= |b|
    decreases w
  {
    if w == 0 then 0 else b[off] + 256 * Read(b, off + 1, w - 1)
  }

  lemma {:induction false} AllBytesOf(b: seq<byte>, ps: seq<Put>, i: nat, j: nat)
    requires i < |ps| && WellLaid(ps, |b|) && j < ps[i].w
    ensures WriteAll(b, ps)[ps[i].off + j] == Byte(ps[i].v, j)
    decreases |ps|
  {
    hide Byte;
    var n := |ps| - 1;
    if i < n {
      assert Apart(ps[i], ps[n]);
      AllBytesOf(b, ps[..n], i, j);
    }
  }

  lemma {:induction false} UntouchedByte(b: seq<byte>, ps: seq<Put>, x: nat)
    requires x < |b| && forall i :: 0 <= i < |ps| ==> !(ps[i].off <= x < ps[i].off + ps[i].w)
    ensures WriteAll(b, ps)[x] == b[x]
    decreases |ps|
  {
    if ps != [] {
      UntouchedByte(b, ps[..|ps| - 1], x);
    }
  }

  lemma {:induction false} ReadOfBytes(b: seq<byte>, off: nat, w: nat, v: nat, start: nat)
    requires start <= off && off + w <= |b|
    requires forall x :: off <= x < off + w ==> b[x] == Byte(v, x - start)
    ensures Read(b, off, w) < Pow256(w)
    ensures Down(v, off - start) == Read(b, off, w) + Pow256(w) * Down(v, off - start + w)
    decreases w
  {
    if w > 0 {
      ReadOfBytes(b, off + 1, w - 1, v, start);
      var x, d := off - start, Down(v, off - start + w);
      assert Down(v, x + 1) == Down(v, x) / 256 && b[off] == Down(v, x) % 256;
      var r := Read(b, off + 1, w - 1);
      hide *;
      Scaled(r, Pow256(w - 1), d);
    }
  }

  lemma Scaled(r: nat, m: nat, d: nat)
    ensures 256 * (r + m * d) == 256 * r + 256 * m * d
  {
  }

  /**
    Each field of a well-laid layout reads back as its value modulo its width:
    the remainder of dividing by 256^w, and the value itself when it fits.
   */
  lemma FieldReadsBack(l: Layout, k: Stat, i: nat)
    requires WellLaid(Fields(l, k), l.bytes) && i < |Fields(l, k)|
    ensures var p := Fields(l, k)[i];
            var r := Read(StatBytes(l, k), p.off, p.w);
            && r < Pow256(p.w)
            && p.v == r + Pow256(p.w) * Down(p.v, p.w)
            && (p.v < Pow256(p.w) ==> r == p.v)
  {
    hide Fields, WriteAll, Byte, WellLaid;
    var ps := Fields(l, k);
    var p := ps[i];
    assert p.off + p.w <= l.bytes by { FieldFits(ps, l.bytes, i); }
    forall x | p.off <= x < p.off + p.w
      ensures StatBytes(l, k)[x] == Byte(p.v, x - p.off)
    {
      AllBytesOf(Zeros(l.bytes), ps, i, x - p.off);
    }
    ReadOfBytes(StatBytes(l, k), p.off, p.w, p.v, p.off);
    assert Down(p.v, 0) == p.v;
    if p.v < Pow256(p.w) {
      NoQuotient(p.v, Pow256(p.w), Down(p.v, p.w));
    }
  }

  lemma NoQuotient(v: nat, m: nat, q: nat)
    requires v < m && m * q <= v
    ensures q == 0
  {
    assert m * q >= m * (if q > 0 then 1 else 0);
  }

  lemma FieldFits(ps: seq<Put>, n: nat, i: nat)
    requires WellLaid(ps, n) && i < |ps|
    ensures ps[i].off + ps[i].w <= n
  {
  }

  /** Every byte outside the fields is zero. */
  lemma RestIsZero(l: Layout, k: Stat, x: nat)
    requires x < l.bytes
    requires forall i :: 0 <= i < |Fields(l, k)| ==> !(Fields(l, k)[i].off <= x < Fields(l, k)[i].off + Fields(l, k)[i].w)
    ensures StatBytes(l, k)[x] == 0
  {
    hide Fields;
    UntouchedByte(Zeros(l.bytes), Fields(l, k), x);
  }

  /** The three shipped layouts are well laid, whatever the file. */
  lemma ShippedLayouts(k: Stat)
    ensures WellLaid(Fields(I386, k), I386.bytes) && InRange(I386)
    ensures WellLaid(Fields(AMD64, k), AMD64.bytes) && InRange(AMD64)
    ensures WellLaid(Fields(ARM64, k), ARM64.bytes) && InRange(ARM64)
  {
    hide WellLaid, RdevOf, BlockCount;
    LayI386(k);
    LayAmd64(k);
    LayArm64(k);
  }

  lemma FieldsI386(k: Stat) returns (ps: seq<Put>)
    ensures Fields(I386, k) == ps
            == [Put(0, 8, 1), Put(88, 8, k.ino), Put(12, 4, k.ino), Put(16, 4, k.mode), Put(20, 4, k.nlink), Put(24,
              4, k.uid), Put(28, 4, k.gid), Put(32, 8, RdevOf(k)), Put(44, 8, k.size), Put(52, 4, 4096), Put(56, 8,
              BlockCount(k.size))]
  {
    hide RdevOf, BlockCount;
    ps := Fields(I386, k);
  }

  lemma LayI386(k: Stat)
    ensures WellLaid(Fields(I386, k), I386.bytes)
  {
    hide RdevOf, BlockCount, Fields;
    var ps := FieldsI386(k);
  }

  lemma FieldsAmd64(k: Stat) returns (ps: seq<Put>)
    ensures Fields(AMD64, k) == ps
            == [Put(0, 8, 1), Put(8, 8, k.ino), Put(24, 4, k.mode), Put(16, 8, k.nlink), Put(28, 4, k.uid), Put(32, 4,
              k.gid), Put(40, 8, RdevOf(k)), Put(48, 8, k.size), Put(56, 8, 4096), Put(64, 8, BlockCount(k.size))]
  {
    hide RdevOf, BlockCount;
    ps := Fields(AMD64, k);
  }

  lemma LayAmd64(k: Stat)
    ensures WellLaid(Fields(AMD64, k), AMD64.bytes)
  {
    hide RdevOf, BlockCount, Fields;
    var ps := FieldsAmd64(k);
  }

  lemma FieldsArm64(k: Stat) returns (ps: seq<Put>)
    ensures Fields(ARM64, k) == ps
            == [Put(0, 8, 1), Put(8, 8, k.ino), Put(16, 4, k.mode), Put(20, 4, k.nlink), Put(24, 4, k.uid), Put(28, 4,
              k.gid), Put(32, 8, RdevOf(k)), Put(48, 8, k.size), Put(56, 4, 4096), Put(64, 8, BlockCount(k.size))]
  {
    hide RdevOf, BlockCount;
    ps := Fields(ARM64, k);
  }

  lemma LayArm64(k: Stat)
    ensures WellLaid(Fields(ARM64, k), ARM64.bytes)
  {
    hide RdevOf, BlockCount, Fields;
    var ps := FieldsArm64(k);
  }

  // ---- in place -------------------------------------------------------------------------------

  lemma {:induction false} WriteAllAppend(b: seq<byte>, x: seq<Put>, y: seq<Put>)
    ensures WriteAll(b, x + y) == WriteAll(WriteAll(b, x), y)
    decreases |y|
  {
    hide WriteField;
    if y == [] {
      assert x + y == x;
    } else {
      var n := |y| - 1;
      assert (x + y)[..|x + y| - 1] == x + y[..n];
      WriteAllAppend(b, x, y[..n]);
    }
  }

  /** Write one field, unless the guest has none; `done` are the fields written so far. */
  method StPut(b: array<byte>, off: nat, w: nat, v: nat, ghost done: seq<Put>, ghost base: seq<byte>) returns (ghost now: seq<Put>)
    requires Fits(off, w, b.Length) && b[..] == WriteAll(base, done)
    modifies b
    ensures now == done + Optional(Put(off, w, v)) && b[..] == WriteAll(base, now)
  {
    ghost var p := Put(off, w, v);
    now := done + Optional(p);
    WriteAllAppend(base, done, Optional(p));
    if off == 0xFF {
      return;
    }
    ghost var was := b[..];
    var rest := v;
    for i := 0 to w
      invariant rest == Down(v, i)
      invariant forall x :: 0 <= x < b.Length ==> b[x] == if off <= x < off + i then Byte(v, x - off) else was[x]
    {
      b[off + i] := rest % 256;
      rest := rest / 256;
    }
    WriteOne(was, p);
    assert b[..] == WriteField(was, p);
  }

  lemma WriteOne(b: seq<byte>, p: Put)
    ensures WriteAll(b, [p]) == WriteField(b, p)
  {
    hide WriteField;
    assert [p][..0] == [];
  }

  predicate Fits(off: nat, w: nat, n: nat)
  {
    off == 0xFF || off + w <= n
  }

  /** No field runs past the end of the structure. */
  predicate InRange(l: Layout)
  {
    && Fits(l.dev, 8, l.bytes) && Fits(l.ino, l.inoW, l.bytes) && Fits(l.ino32, 4, l.bytes)
    && Fits(l.mode, 4, l.bytes) && Fits(l.nlink, l.nlinkW, l.bytes) && Fits(l.uid, 4, l.bytes)
    && Fits(l.gid, 4, l.bytes) && Fits(l.rdev, 8, l.bytes) && Fits(l.size, 8, l.bytes)
    && Fits(l.blksize, l.blksizeW, l.bytes) && Fits(l.blocks, 8, l.bytes)
  }

  /** The marshaller; `writable` is the guest-memory check, done before anything is written. */
  method PutStat(b: array<byte>, layout: Option<Layout>, k: Stat, writable: bool) returns (rc: int)
    requires layout.Some? ==> b.Length == layout.value.bytes && InRange(layout.value)
    modifies b
    ensures layout.None? ==> rc == -38 && b[..] == old(b[..])
    ensures layout.Some? && !writable ==> rc == -14 && b[..] == old(b[..])
    ensures layout.Some? && writable ==> rc == 0 && b[..] == StatBytes(layout.value, k)
  {
    hide WriteAll, Optional, RdevOf, BlockCount;
    if layout.None? {
      return -38;
    }
    var l := layout.value;
    if !writable {
      return -14;
    }
    ZeroFill(b);
    ghost var z := Zeros(l.bytes);
    WriteNone(z);
    ghost var ps := StPut(b, l.dev, 8, 1, [], z);
    assert ps == Optional(Put(l.dev, 8, 1));
    ps := StPut(b, l.ino, l.inoW, k.ino, ps, z);
    ps := StPut(b, l.ino32, 4, k.ino, ps, z);
    ps := StPut(b, l.mode, 4, k.mode, ps, z);
    ps := StPut(b, l.nlink, l.nlinkW, k.nlink, ps, z);
    ps := StPut(b, l.uid, 4, k.uid, ps, z);
    ps := StPut(b, l.gid, 4, k.gid, ps, z);
    ghost var before := ps;
    if l.rdev != 0 {
      ps := StPut(b, l.rdev, 8, RdevOf(k), ps, z);
    }
    assert ps == before + Rdev(l, k);
    ps := StPut(b, l.size, 8, k.size, ps, z);
    ps := StPut(b, l.blksize, l.blksizeW, 4096, ps, z);
    ps := StPut(b, l.blocks, 8, BlockCount(k.size), ps, z);
    rc := 0;
  }

  method ZeroFill(b: array<byte>)
    modifies b
    ensures b[..] == Zeros(b.Length)
  {
    for i := 0 to b.Length
      invariant forall j :: 0 <= j < i ==> b[j] == 0
    {
      b[i] := 0;
    }
  }

  lemma WriteNone(b: seq<byte>)
    ensures WriteAll(b, []) == b
  {
  }
}
