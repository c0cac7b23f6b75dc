/**
  Finding a member in an uncompressed ustar archive: 512-byte headers, octal
  sizes, data rounded up to whole blocks.
 */
module Tar {
  import opened Bits

  // ---- reading headers ----------------------------------------------------------------

  /** An octal field, with the machine's word wrapping at `w`. */
  function Octal(f: seq<byte>, v: nat, w: nat): (r: nat)
    requires w > 0 && v < w
    ensures r < w
    decreases |f|
  {
    if f == [] || f[0] == 0 then v
    else if f[0] == 32 then Octal(f[1..], v, w)
    else if f[0] < 48 || f[0] > 55 then v
    else Octal(f[1..], (8 * v + f[0] as int - 48) % w, w)
  }

  /** Up to the first zero byte. */
  function CStr(f: seq<byte>): (r: seq<byte>)
    ensures |r| <= |f| && r == f[..|r|] && 0 !in r && (|r| < |f| ==> f[|r|] == 0)
  {
    if f == [] || f[0] == 0 then []
    else
      var r := CStr(f[1..]);
      assert [f[0]] + r == f[..|r| + 1];
      [f[0]] + r
  }

  /** A name cut to what the 256-byte name buffer takes. */
  function Cut(s: seq<byte>): (r: seq<byte>)
    ensures |r| <= 250
  {
    if |s| <= 250 then s else s[..250]
  }

  function FullName(prefix: seq<byte>, base: seq<byte>): seq<byte>
  {
    (if prefix == [] then [] else prefix + [47]) + base
  }

  function NameOf(h: seq<byte>): seq<byte>
    requires |h| == 512
  {
    Cut(FullName(CStr(h[345..500]), CStr(h[0..100])))
  }

  function SizeOf(h: seq<byte>, w: nat): nat
    requires |h| == 512 && w > 0
  {
    Octal(h[124..136], 0, w)
  }

  function Blocks(n: nat): (r: nat)
    ensures r >= n && r % 512 == 0 && r < n + 512
  {
    (n + 511) / 512 * 512
  }

  /** Start and size of the data of the first member of that name, from header `off` on. */
  function Find(t: seq<byte>, off: nat, name: seq<byte>, w: nat): (r: Option<(nat, nat)>)
    requires w > 0
    ensures r.Some? ==> r.value.0 + r.value.1 <= |t|
    decreases |t| - off
  {
    if off + 512 > |t| || t[off] == 0 then None
    else
      var h := t[off..off + 512];
      var sz := SizeOf(h, w);
      if sz > |t| - off - 512 then None
      else if NameOf(h) == name then Some((off + 512, sz))
      else Find(t, off + 512 + Blocks(sz), name, w)
  }

  // ---- writing archives ------------------------------------------------------------------

  function Digits(n: nat, d: nat): (r: seq<byte>)
    ensures |r| == d
    decreases d
  {
    if d == 0 then [] else Digits(n / 8, d - 1) + [48 + n % 8]
  }

  function Pow8(d: nat): (r: nat)
    ensures r > 0
  {
    if d == 0 then 1 else 8 * Pow8(d - 1)
  }

  function Spaces(k: nat): (r: seq<byte>)
    ensures |r| == k
  {
    if k == 0 then [] else [32] + Spaces(k - 1)
  }

  /** A size field: leading spaces, octal digits, and either the end of the field or a zero byte. */
  ghost predicate SizeField(f: seq<byte>, n: nat)
  {
    exists k: nat, d: nat, rest: seq<byte> ::
      && f == Spaces(k) + Digits(n, d) + rest && n < Pow8(d)
      && (rest == [] || rest[0] == 0)
  }

  lemma {:induction false} OctalSkipsSpaces(k: nat, f: seq<byte>, w: nat)
    requires w > 0
    ensures Octal(Spaces(k) + f, 0, w) == Octal(f, 0, w)
  {
    if k == 0 {
      assert Spaces(0) + f == f;
    } else {
      assert (Spaces(k) + f)[1..] == Spaces(k - 1) + f;
      OctalSkipsSpaces(k - 1, f, w);
    }
  }

  lemma OctalStops(rest: seq<byte>, v: nat, w: nat)
    requires v < w && (rest == [] || rest[0] == 0)
    ensures Octal(rest, v, w) == v
  {
  }

  lemma OctalOne(x: nat, rest: seq<byte>, v: nat, w: nat)
    requires x < 8 && v < w && 8 * v + x < w
    ensures Octal([48 + x] + rest, v, w) == Octal(rest, 8 * v + x, w)
  {
    assert ([48 + x] + rest)[1..] == rest;
    assert (8 * v + x) % w == 8 * v + x;
  }

  lemma {:induction false} OctalOfDigits(n: nat, d: nat, rest: seq<byte>, w: nat)
    requires n < w && n < Pow8(d)
    ensures Octal(Digits(n, d) + rest, 0, w) == Octal(rest, n, w)
    decreases d
  {
    hide Octal;
    if d == 0 {
      assert Digits(n, d) + rest == rest;
    } else {
      assert Digits(n, d) + rest == Digits(n / 8, d - 1) + ([48 + n % 8] + rest);
      OctalOfDigits(n / 8, d - 1, [48 + n % 8] + rest, w);
      OctalOne(n % 8, rest, n / 8, w);
    }
  }

  /** Any size field a writer may produce is read back, if the word can hold it. */
  lemma SizeReadsBack(f: seq<byte>, n: nat, w: nat)
    requires SizeField(f, n) && n < w
    ensures Octal(f, 0, w) == n
  {
    hide Octal, Digits, Spaces, Pow8;
    var k: nat, d: nat, rest: seq<byte> :| f == Spaces(k) + Digits(n, d) + rest && n < Pow8(d) && (rest == [] || rest[0] == 0);
    assert f == Spaces(k) + (Digits(n, d) + rest);
    OctalSkipsSpaces(k, Digits(n, d) + rest, w);
    OctalOfDigits(n, d, rest, w);
    OctalStops(rest, n, w);
  }

  /** One member as it lies in an archive. */
  datatype Entry = Entry(prefix: seq<byte>, base: seq<byte>, header: seq<byte>, data: seq<byte>, pad: seq<byte>)

  ghost predicate Field(f: seq<byte>, s: seq<byte>)
  {
    |s| <= |f| && f[..|s|] == s && 0 !in s && forall i :: |s| <= i < |f| ==> f[i] == 0
  }

  ghost predicate ValidEntry(e: Entry)
  {
    && |e.header| == 512 && e.base != []
    && Field(e.header[0..100], e.base) && Field(e.header[345..500], e.prefix)
    && SizeField(e.header[124..136], |e.data|)
    && |e.data| + |e.pad| == Blocks(|e.data|)
  }

  function EntryBytes(e: Entry): (r: seq<byte>)
  {
    e.header + e.data + e.pad
  }

  function Archive(es: seq<Entry>): (r: seq<byte>)
  {
    if es == [] then [] else EntryBytes(es[0]) + Archive(es[1..])
  }

  /** What a lookup should give: the first entry of that name. */
  function FirstNamed(es: seq<Entry>, name: seq<byte>): (r: Option<nat>)
    ensures r.Some? ==> r.value < |es|
  {
    if es == [] then None
    else if Cut(FullName(es[0].prefix, es[0].base)) == name then Some(0)
    else
      match FirstNamed(es[1..], name)
      case None => None
      case Some(i) => Some(i + 1)
  }

  function DataStart(es: seq<Entry>, i: nat): nat
    requires i < |es|
  {
    if i == 0 then 512 else |EntryBytes(es[0])| + DataStart(es[1..], i - 1)
  }

  lemma CStrOfField(f: seq<byte>, s: seq<byte>)
    requires Field(f, s)
    ensures CStr(f) == s
  {
    var r := CStr(f);
    assert forall i :: 0 <= i < |r| ==> f[i] == r[i] && r[i] in r;
    assert forall i :: 0 <= i < |s| ==> f[i] == f[..|s|][i] == s[i] && s[i] in s;
    assert forall i :: 0 <= i < |r| ==> f[i] != 0;
    assert forall i :: 0 <= i < |s| ==> f[i] != 0;
    assert (|s| < |f| ==> f[|s|] == 0) && (|r| < |f| ==> f[|r|] == 0);
  }

  lemma EntryRead(e: Entry, w: nat)
    requires ValidEntry(e) && |e.data| < w
    ensures e.header[0] != 0 && SizeOf(e.header, w) == |e.data|
    ensures NameOf(e.header) == Cut(FullName(e.prefix, e.base))
  {
    hide Octal, CStr, SizeField;
    CStrOfField(e.header[0..100], e.base);
    CStrOfField(e.header[345..500], e.prefix);
    SizeReadsBack(e.header[124..136], |e.data|, w);
    assert e.header[0..100][0] == e.base[0];
    assert e.base[0] in e.base;
  }

  /** Beyond the last member: the end, or a zero block. */
  predicate EndMark(tail: seq<byte>)
  {
    |tail| < 512 || tail[0] == 0
  }

  lemma {:induction false} FindInArchive(t: seq<byte>, off: nat, es: seq<Entry>, tail: seq<byte>, name: seq<byte>, w: nat)
    requires off <= |t| && t[off..] == Archive(es) + tail && EndMark(tail) && |t| < w
    requires forall i :: 0 <= i < |es| ==> ValidEntry(es[i])
    ensures match FirstNamed(es, name)
            case None => Find(t, off, name, w) == None
            case Some(i) =>
              && Find(t, off, name, w) == Some((off + DataStart(es, i), |es[i].data|))
              && At(t, off + DataStart(es, i), es[i].data)
    decreases |es|
  {
    hide SizeOf, NameOf, FullName, Cut, Blocks, At, ValidEntry, EntryBytes;
    if es == [] {
      assert t[off..] == tail;
      assert |tail| >= 512 ==> t[off] == tail[0];
    } else {
      hide Find, EndMark;
      var e := es[0];
      var more := Archive(es[1..]) + tail;
      assert EntryBytes(e) + Archive(es[1..]) + tail == EntryBytes(e) + more;
      EntryLies(t, off, e, more);
      FindStep(t, off, e, more, name, w);
      FindInArchive(t, off + |EntryBytes(e)|, es[1..], tail, name, w);
    }
  }

  /** The lookup at an entry: this one, or on past it. */
  lemma FindStep(t: seq<byte>, off: nat, e: Entry, more: seq<byte>, name: seq<byte>, w: nat)
    requires ValidEntry(e) && off <= |t| && t[off..] == EntryBytes(e) + more && |t| < w
    ensures Find(t, off, name, w)
            == if Cut(FullName(e.prefix, e.base)) == name then Some((off + 512, |e.data|))
               else Find(t, off + |EntryBytes(e)|, name, w)
  {
    hide SizeOf, NameOf, FullName, Cut, Blocks, At, ValidEntry, EntryBytes;
    EntryLies(t, off, e, more);
    EntryRead(e, w);
  }

  /** The pieces of the entry that begins at `off`. */
  lemma EntryLies(t: seq<byte>, off: nat, e: Entry, more: seq<byte>)
    requires ValidEntry(e) && off <= |t| && t[off..] == EntryBytes(e) + more
    ensures |EntryBytes(e)| == 512 + Blocks(|e.data|)
    ensures off + 512 + |e.data| <= off + |EntryBytes(e)| <= |t| && t[off] == e.header[0]
    ensures t[off..off + 512] == e.header && At(t, off + 512, e.data) && t[off + |EntryBytes(e)|..] == more
  {
    hide SizeField, Field, Blocks;
    var rest, body := t[off..], t[off + 512..];
    assert rest == e.header + (e.data + e.pad + more);
    assert t[off..off + 512] == rest[..512] == e.header;
    assert body == rest[512..] == e.data + (e.pad + more);
    assert t[off + 512..off + 512 + |e.data|] == body[..|e.data|] == e.data;
    assert t[off + |EntryBytes(e)|..] == rest[|EntryBytes(e)|..] == more;
  }

  /** Looking a name up in a written archive gives the data of the first member of that name, or nothing. */
  lemma FindExact(es: seq<Entry>, tail: seq<byte>, name: seq<byte>, w: nat)
    requires EndMark(tail) && |Archive(es) + tail| < w
    requires forall i :: 0 <= i < |es| ==> ValidEntry(es[i])
    ensures var t := Archive(es) + tail;
            match FirstNamed(es, name)
            case None => Find(t, 0, name, w) == None
            case Some(i) =>
              && Find(t, 0, name, w) == Some((DataStart(es, i), |es[i].data|))
              && At(t, DataStart(es, i), es[i].data)
  {
    hide Find, Archive, DataStart, FirstNamed, ValidEntry;
    var t := Archive(es) + tail;
    assert t[0..] == t;
    FindInArchive(t, 0, es, tail, name, w);
  }

  /** `name` is the entry's: its prefix and base joined by a slash, or the base alone. */
  predicate Named(e: Entry, name: seq<byte>)
  {
    name == if e.prefix == [] then e.base else e.prefix + [47] + e.base
  }

  lemma {:induction false} FirstNamedIs(es: seq<Entry>, name: seq<byte>)
    requires forall i :: 0 <= i < |es| ==> |es[i].prefix| + 1 + |es[i].base| <= 250
    ensures var r := FirstNamed(es, name);
            && (r.Some? ==> Named(es[r.value], name))
            && forall j :: 0 <= j < (if r.Some? then r.value else |es|) ==> !Named(es[j], name)
  {
    hide Cut, FullName, Named;
    if es != [] {
      var more := es[1..];
      FirstNamedIs(more, name);
      NameWhole(es[0], name);
      assert forall j :: 0 < j < |es| ==> es[j] == more[j - 1];
    }
  }

  lemma NameWhole(e: Entry, name: seq<byte>)
    requires |e.prefix| + 1 + |e.base| <= 250
    ensures Cut(FullName(e.prefix, e.base)) == name <==> Named(e, name)
  {
  }

  /** Full names of at most 250 bytes: the data of the first entry of that name, or nothing exactly when there is none. */
  lemma FindByName(es: seq<Entry>, tail: seq<byte>, name: seq<byte>, w: nat)
    requires EndMark(tail) && |Archive(es) + tail| < w
    requires forall i :: 0 <= i < |es| ==> ValidEntry(es[i]) && |es[i].prefix| + 1 + |es[i].base| <= 250
    ensures var t := Archive(es) + tail;
            match Find(t, 0, name, w)
            case None => forall j :: 0 <= j < |es| ==> !Named(es[j], name)
            case Some(at) => exists i :: 0 <= i < |es| && Named(es[i], name) && At(t, at.0, es[i].data) && at.1 == |es[i].data|
                                         && forall j :: 0 <= j < i ==> !Named(es[j], name)
  {
    hide Find, Archive, DataStart, FirstNamed, ValidEntry, Named, At;
    FindExact(es, tail, name, w);
    FirstNamedIs(es, name);
  }

  // ---- the loops -----------------------------------------------------------------------------

  method ReadOctal(p: seq<byte>, w: nat) returns (v: nat)
    requires w > 0
    ensures v == Octal(p, 0, w)
  {
    v := 0;
    var i := 0;
    assert p[0..] == p;
    while i < |p| && p[i] != 0
      invariant 0 <= i <= |p| && v < w && Octal(p[i..], v, w) == Octal(p, 0, w)
    {
      if p[i] == 32 {
        i := i + 1;
        continue;
      }
      if p[i] < 48 || p[i] > 55 {
        break;
      }
      v := (8 * v + p[i] as int - 48) % w;
      i := i + 1;
    }
  }

  /** Copy a zero-terminated field to `nm[k0..]`, while `k` is below `limit`. */
  method CopyField(f: seq<byte>, nm: array<byte>, k0: nat, limit: nat) returns (k: nat)
    requires nm.Length == 256 && k0 <= limit <= 256
    modifies nm
    ensures k == k0 + (if |CStr(f)| < limit - k0 then |CStr(f)| else limit - k0)
    ensures nm[..k] == old(nm[..k0]) + CStr(f)[..k - k0]
  {
    k := k0;
    var i := 0;
    ghost var c := CStr(f);
    while i < |f| && f[i] != 0 && k < limit
      invariant 0 <= i <= |c| && k == k0 + i <= limit
      invariant nm[..k] == old(nm[..k0]) + c[..i]
    {
      nm[k] := f[i];
      k := k + 1;
      i := i + 1;
    }
  }

  method ReadName(h: seq<byte>) returns (name: seq<byte>)
    requires |h| == 512
    ensures name == NameOf(h)
  {
    hide CStr;
    var nm := new byte[256];
    var k: nat := 0;
    if h[345] != 0 {
      k := CopyField(h[345..500], nm, 0, 200);
      nm[k] := 47;
      k := k + 1;
      assert nm[..k] == CStr(h[345..500]) + [47];
    }
    PrefixEmpty(h);
    ghost var front := nm[..k];
    k := CopyField(h[0..100], nm, k, 250);
    name := nm[..k];
    assert name == front + CStr(h[0..100])[..k - |front|];
  }

  lemma PrefixEmpty(h: seq<byte>)
    requires |h| == 512
    ensures CStr(h[345..500]) == [] <==> h[345] == 0
  {
  }

  /** The walk over the headers, for any bytes at all; `w` is 2^32 or 2^64. */
  method TarFind(t: seq<byte>, name: seq<byte>, w: nat) returns (r: Option<(nat, nat)>)
    requires |t| < 0xFFFF_FC00 && w >= 0x1_0000_0000
    ensures r == Find(t, 0, name, w)
  {
    hide NameOf, Octal;
    var off: nat := 0;
    while off + 512 <= |t|
      invariant Find(t, off, name, w) == Find(t, 0, name, w)
      decreases |t| - off
    {
      var h := t[off..off + 512];
      if h[0] == 0 {
        break;
      }
      var sz := ReadOctal(h[124..136], w);
      var nm := ReadName(h);
      if sz > |t| - off - 512 {
        return None;
      }
      if nm == name {
        return Some((off + 512, sz));
      }
      off := off + 512 + Blocks(sz);
    }
    return None;
  }
}
