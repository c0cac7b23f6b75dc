/**
  Where a symbolic link of an image points: its target resolved against the
  link's own directory and normalised in place, confined to the image's root.
  C strings are strings without the terminating zero.
 */
module LinkPath {

  // ---- the meaning of a path ---------------------------------------------------------

  function FirstSlash(s: string): (k: nat)
    ensures k <= |s| && '/' !in s[..k] && (k < |s| ==> s[k] == '/')
  {
    if s == "" || s[0] == '/' then 0
    else
      var k := FirstSlash(s[1..]);
      assert s[..k + 1] == [s[0]] + s[1..][..k];
      k + 1
  }

  /** What one component does to the directory stack; ".." at the root stays there. */
  function Enter(st: seq<string>, c: string): seq<string>
  {
    if c == "" || c == "." then st
    else if c == ".." then if st == [] then st else st[..|st| - 1]
    else st + [c]
  }

  /** Walk a path, component by component, from the directory `st`. */
  function Walk(st: seq<string>, s: string): seq<string>
    decreases |s|
  {
    if s == "" then st
    else
      var k := FirstSlash(s);
      Walk(Enter(st, s[..k]), if k < |s| then s[k + 1..] else "")
  }

  /** The path that names a stack of directories. */
  function Path(st: seq<string>): string
  {
    if st == [] then ""
    else if |st| == 1 then st[0]
    else Path(st[..|st| - 1]) + "/" + st[|st| - 1]
  }

  predicate Proper(c: string)
  {
    c != "" && c != "." && c != ".." && '/' !in c
  }

  ghost predicate AllProper(st: seq<string>)
  {
    forall i :: 0 <= i < |st| ==> Proper(st[i])
  }

  /** A path with its ".", ".." and empty components carried out. */
  function Normal(s: string): string
  {
    Path(Walk([], s))
  }

  // ---- facts about it -----------------------------------------------------------------

  /** A name goes down, ".." after it comes back, "." stays; a path lists the names, slashes between them. */
  lemma StepsMean(st: seq<string>, c: string)
    requires Proper(c)
    ensures Walk(st, c) == st + [c] && Walk(st, c + "/" + "..") == st && Walk(st, ".") == st && Walk(st, "") == st
    ensures Path([c]) == c && (st != [] ==> Path(st + [c]) == Path(st) + "/" + c)
  {
    WalkJoined(st, c, "..");
    assert FirstSlash(c) == |c| && c[..|c|] == c;
    assert FirstSlash("..") == 2 && FirstSlash(".") == 1;
    assert (st + [c])[..|st|] == st;
  }

  /** Nothing but ordinary names is left. */
  lemma {:induction false} WalkIsProper(st: seq<string>, s: string)
    requires AllProper(st)
    ensures AllProper(Walk(st, s))
    decreases |s|
  {
    if s != "" {
      var k := FirstSlash(s);
      WalkIsProper(Enter(st, s[..k]), if k < |s| then s[k + 1..] else "");
    }
  }

  lemma {:induction false} SlashOfJoined(a: string, b: string)
    ensures FirstSlash(a + "/" + b) == if FirstSlash(a) < |a| then FirstSlash(a) else |a|
  {
    var s := a + "/" + b;
    if a == "" {
      assert s[0] == '/';
    } else {
      assert s[0] == a[0] && s[1..] == a[1..] + "/" + b;
      if a[0] != '/' {
        SlashOfJoined(a[1..], b);
      }
    }
  }

  lemma WalkOnce(st: seq<string>, s: string, c: string, rest: string)
    requires s != "" && c == s[..FirstSlash(s)]
    requires rest == if FirstSlash(s) < |s| then s[FirstSlash(s) + 1..] else ""
    ensures Walk(st, s) == Walk(Enter(st, c), rest)
    ensures forall t: seq<string> {:trigger Walk(t, "")} :: Walk(t, "") == t
  {
    hide FirstSlash, Enter;
  }

  /** Walking `a` and then `b` is walking them joined by a slash. */
  lemma {:induction false} WalkJoined(st: seq<string>, a: string, b: string)
    ensures Walk(st, a + "/" + b) == Walk(Walk(st, a), b)
    decreases |a|
  {
    hide FirstSlash, Enter, Walk;
    var s, k := a + "/" + b, FirstSlash(a);
    SlashOfJoined(a, b);
    assert s[..k] == a[..k];
    if k < |a| {
      assert s[k + 1..] == a[k + 1..] + "/" + b;
      WalkOnce(st, s, a[..k], a[k + 1..] + "/" + b);
      WalkOnce(st, a, a[..k], a[k + 1..]);
      WalkJoined(Enter(st, a[..k]), a[k + 1..], b);
    } else {
      assert s[k + 1..] == b;
      WalkOnce(st, s, a[..k], b);
      if a == "" {
        EnterNothing(st);
      } else {
        WalkOnce(st, a, a[..k], "");
      }
    }
  }

  lemma EnterNothing(st: seq<string>)
    ensures Enter(st, "") == st && FirstSlash("") == 0
  {
  }

  lemma NoSlash(c: string)
    requires '/' !in c
    ensures FirstSlash(c) == |c|
  {
  }

  /** The normal path of a stack leads back to that stack. */
  lemma {:induction false} WalkOfPath(st: seq<string>)
    requires AllProper(st)
    ensures Walk([], Path(st)) == st
  {
    if st != [] {
      var n := |st| - 1;
      var c := st[n];
      NoSlash(c);
      assert c[..|c|] == c;
      assert st[..n] + [c] == st;
      assert Walk(st[..n], c) == Walk(Enter(st[..n], c), "");
      if n > 0 {
        WalkOfPath(st[..n]);
        WalkJoined([], Path(st[..n]), c);
      } else {
        assert st[..0] == [];
      }
    }
  }

  /** Normalising twice changes nothing, and the meaning is kept. */
  lemma NormalIsIdempotent(s: string)
    ensures Walk([], Normal(s)) == Walk([], s) && Normal(Normal(s)) == Normal(s)
  {
    hide Walk, Path;
    WalkIsProper([], s);
    WalkOfPath(Walk([], s));
  }

  /** The room a stack and a path still to walk need together. */
  function Room(st: seq<string>, s: string): nat
  {
    |Path(st)| + |s| + if st != [] && s != "" then 1 else 0
  }

  lemma EnterFits(st: seq<string>, c: string)
    ensures |Path(Enter(st, c))| <= |Path(st)| + |c| + if st != [] then 1 else 0
  {
    if c != "" && c != "." && c != ".." {
      assert (st + [c])[..|st|] == st;
    } else if c == ".." && st != [] {
      PathOfInit(st);
    }
  }

  lemma PathOfInit(st: seq<string>)
    requires st != []
    ensures |Path(st[..|st| - 1])| <= |Path(st)|
  {
  }

  /** The result is never longer than the path. */
  lemma {:induction false} WalkFits(st: seq<string>, s: string)
    ensures |Path(Walk(st, s))| <= Room(st, s)
    decreases |s|
  {
    hide Path, Enter, FirstSlash;
    if s != "" {
      var k := FirstSlash(s);
      EnterFits(st, s[..k]);
      var rest := if k < |s| then s[k + 1..] else "";
      WalkFits(Enter(st, s[..k]), rest);
    }
  }

  lemma NormalIsNoLonger(s: string)
    ensures |Normal(s)| <= |s|
  {
    hide Walk;
    WalkFits([], s);
  }

  /** Any number of ".." at the front is at the root already. */
  lemma DotDotAtRoot(s: string)
    ensures Normal("../" + s) == Normal(s)
  {
    hide Path;
    assert ".." + "/" + s == "../" + s;
    NoSlash("..");
    assert ".."[..2] == "..";
    assert Walk([], "..") == Walk(Enter([], ".."), "") == [];
    WalkJoined([], "..", s);
  }

  // ---- the link's own directory --------------------------------------------------------

  /** Up to and including the last slash. */
  function DirPart(s: string): (r: string)
    ensures r <= s && (r != "" ==> r[|r| - 1] == '/')
  {
    if s == "" || s[|s| - 1] == '/' then s else DirPart(s[..|s| - 1])
  }

  /** `d` with `s` appended, cut to what a buffer of `cap` bytes holds. */
  function Cat(d: string, s: string, cap: nat): (r: string)
    requires |d| < cap
    ensures |r| < cap && d <= r && (|d| + |s| < cap ==> r == d + s)
  {
    if |d| + |s| < cap then d + s else d + s[..cap - 1 - |d|]
  }

  predicate Absolute(target: string)
  {
    target != "" && target[0] == '/'
  }

  /** The path the normaliser is given, in its 256-byte buffer. */
  function RelPath(link: string, target: string): (r: string)
    ensures |r| < 256
  {
    if Absolute(target) then Cat("", target[1..], 256)
    else Cat(DirPart(Cat("", link, 256)), target, 256)
  }

  function ResolveLink(link: string, target: string): string
  {
    Normal(RelPath(link, target))
  }

  lemma WalkFromRoot(t: string)
    ensures Walk([], "/" + t) == Walk([], t)
  {
    hide FirstSlash, Enter;
    assert "" + "/" + t == "/" + t;
    WalkJoined([], "", t);
    assert Walk([], "") == [];
  }

  lemma WalkFromDir(d: string, t: string)
    requires d != "" && d[|d| - 1] == '/'
    ensures Walk([], d + t) == Walk(Walk([], d), t)
  {
    var d' := d[..|d| - 1];
    assert d == d' + "/" + "" && d + t == d' + "/" + t;
    WalkJoined([], d', t);
    WalkJoined([], d', "");
    assert Walk(Walk([], d'), "") == Walk([], d');
  }

  /** What of `s` fits in `n` bytes. */
  function Cut(s: string, n: nat): (r: string)
    ensures |r| <= n && r <= s
  {
    if |s| <= n then s else s[..n]
  }

  lemma CatIsCut(d: string, s: string, cap: nat)
    requires |d| < cap
    ensures Cat(d, s, cap) == d + Cut(s, cap - 1 - |d|)
  {
  }

  lemma CopyIsCut(s: string, cap: nat)
    requires cap > 0
    ensures Cat("", s, cap) == Cut(s, cap - 1)
  {
  }

  /** The directory a link's target is walked from. */
  function LinkDir(link: string): (r: string)
    ensures |r| <= 255 && (r != "" ==> r[|r| - 1] == '/')
  {
    DirPart(Cut(link, 255))
  }

  lemma RelPathIs(link: string, target: string)
    ensures RelPath(link, target)
            == if Absolute(target) then Cut(target[1..], 255)
               else LinkDir(link) + Cut(target, 255 - |LinkDir(link)|)
  {
    hide DirPart, Cat, Cut;
    CopyIsCut(link, 256);
    if Absolute(target) {
      CopyIsCut(target[1..], 256);
    } else {
      CatIsCut(LinkDir(link), target, 256);
    }
  }

  /**
    For every link and target: a relative target is walked from the link's
    directory and an absolute one from the root, each as far as it fits.
   */
  lemma LinkMeans(link: string, target: string)
    ensures ResolveLink(link, target)
            == Path(if target != "" && target[0] == '/' then Walk([], Cut(target, 256))
                    else Walk(Walk([], LinkDir(link)), Cut(target, 255 - |LinkDir(link)|)))
  {
    RelPathIs(link, target);
    hide Path, Walk, RelPath, LinkDir;
    var d := LinkDir(link);
    if Absolute(target) {
      assert "/" + Cut(target[1..], 255) == Cut(target, 256);
      WalkFromRoot(Cut(target[1..], 255));
    } else {
      var t := Cut(target, 255 - |d|);
      if d == "" {
        assert d + t == t;
        assert Walk([], "") == [] by { WalkNothing([], ""); }
      } else {
        WalkFromDir(d, t);
      }
    }
  }

  lemma {:induction false} DirOfBeside(d: string, name: string)
    requires '/' !in name
    ensures DirPart(d + "/" + name) == d + "/"
  {
    var s := d + "/" + name;
    if name == "" {
      assert s == d + "/";
    } else {
      var n := |name| - 1;
      assert s[|s| - 1] == name[n];
      assert s[..|s| - 1] == d + "/" + name[..n];
      assert '/' !in name[..n];
      DirOfBeside(d, name[..n]);
    }
  }

  /** A link beside other names in directory `d`: its target is found from there, or from the root. */
  lemma LinkBeside(d: string, name: string, t: string)
    requires '/' !in name && |d + "/" + name| < 256 && |d + "/" + t| < 256
    ensures ResolveLink(d + "/" + name, "/" + t) == Path(Walk([], t))
    ensures t == "" || t[0] != '/' ==> ResolveLink(d + "/" + name, t) == Path(Walk(Walk([], d), t))
  {
    hide Path, Walk, ResolveLink;
    LinkToRoot(d + "/" + name, t);
    DirOfBeside(d, name);
    if t == "" || t[0] != '/' {
      LinkFromDir(d + "/" + name, d, t);
    }
  }

  lemma LinkToRoot(link: string, t: string)
    requires |t| < 256
    ensures ResolveLink(link, "/" + t) == Path(Walk([], t))
  {
    LinkMeans(link, "/" + t);
    hide Path, Walk, LinkDir, ResolveLink;
    assert Cut("/" + t, 256) == "/" + t;
    WalkFromRoot(t);
  }

  lemma LinkFromDir(link: string, d: string, t: string)
    requires |link| < 256 && |d + "/" + t| < 256 && DirPart(link) == d + "/"
    requires t == "" || t[0] != '/'
    ensures ResolveLink(link, t) == Path(Walk(Walk([], d), t))
  {
    LinkMeans(link, t);
    hide Path, Walk, DirPart, ResolveLink;
    assert LinkDir(link) == d + "/";
    assert d + "/" + "" == d + "/";
    WalkJoined([], d, "");
    WalkNothing(Walk([], d), "");
  }

  // ---- in place -------------------------------------------------------------------------

  /** Drop the last component of `norm[..n]`. */
  method PopLast(norm: array<char>, n0: nat, ghost st: seq<string>) returns (n: nat)
    requires n0 <= norm.Length && AllProper(st) && norm[..n0] == Path(st)
    ensures n <= n0 && norm[..n] == Path(Enter(st, ".."))
  {
    hide Path, Enter, Proper;
    n := n0;
    ghost var front := if |st| <= 1 then "" else Path(st[..|st| - 1]) + "/";
    LastPart(st, front);
    PopEnds(st, front);
    assert forall i :: 0 <= i < n0 ==> norm[i] == Path(st)[i];
    assert front != "" ==> norm[|front| - 1] == '/';
    while n > 0 && norm[n - 1] != '/'
      invariant |front| <= n <= n0
    {
      n := n - 1;
    }
    if n > 0 {
      n := n - 1;
    }
    assert norm[..n] == Path(st)[..n];
  }

  lemma LastPart(st: seq<string>, front: string)
    requires AllProper(st) && front == if |st| <= 1 then "" else Path(st[..|st| - 1]) + "/"
    ensures front <= Path(st)
    ensures forall i :: |front| <= i < |Path(st)| ==> Path(st)[i] != '/'
  {
    if st != [] {
      var c := st[|st| - 1];
      assert Path(st) == front + c;
      assert Proper(c);
    }
  }

  lemma PopEnds(st: seq<string>, front: string)
    requires AllProper(st) && front == if |st| <= 1 then "" else Path(st[..|st| - 1]) + "/"
    ensures Path(Enter(st, "..")) == if front == "" then "" else front[..|front| - 1]
  {
    if |st| > 1 {
      assert front[..|front| - 1] == Path(st[..|st| - 1]);
    }
  }

  /** Append `c`, after a slash unless it comes first, while there is room. */
  method AppendName(norm: array<char>, n0: nat, c: string) returns (n: nat)
    requires norm.Length == 256 && n0 + |c| + (if n0 > 0 then 1 else 0) <= 255
    modifies norm
    ensures n == n0 + |c| + (if n0 > 0 then 1 else 0) && n <= 256
    ensures norm[..n] == old(norm[..n0]) + (if n0 > 0 then "/" else "") + c
  {
    n := n0;
    if n > 0 {
      norm[n] := '/';
      n := n + 1;
    }
    ghost var base := norm[..n];
    assert base == old(norm[..n0]) + if n0 > 0 then "/" else "";
    var i := 0;
    while i < |c| && n + 1 < 256
      invariant 0 <= i <= |c| && n == |base| + i && norm[..n] == base + c[..i]
    {
      norm[n] := c[i];
      n := n + 1;
      i := i + 1;
    }
    assert c[..|c|] == c;
  }

  /** The in-place normaliser: no write is ever refused for want of room. */
  method Normalise(rel: string) returns (norm: array<char>, nn: nat)
    requires |rel| < 256
    ensures norm.Length == 256 && nn <= |rel| && norm[..nn] == Normal(rel)
  {
    hide Walk, Path, Enter, Proper, AllProper;
    norm := new char[256];
    nn := 0;
    var p := 0;
    ghost var st: seq<string> := [];
    PathOfNone();
    assert rel[0..] == rel;
    while p < |rel|
      invariant p <= |rel| && AllProper(st)
      invariant nn <= p && norm[..nn] == Path(st)
      invariant nn > 0 && p < |rel| ==> nn + 1 <= p
      invariant Walk(st, rel[p..]) == Walk([], rel)
    {
      var s := p;
      p := NextSlash(rel, s);
      ghost var c := rel[s..p];
      var l := p - s;
      WalkStep(st, rel, s, p);
      if p < |rel| {
        p := p + 1;
      }
      if l == 0 || (l == 1 && rel[s] == '.') {
        EnterSkips(st, c);
        continue;
      }
      if l == 2 && rel[s] == '.' && rel[s + 1] == '.' {
        assert c == "..";
        nn := PopLast(norm, nn, st);
        EnterPops(st);
        st := Enter(st, "..");
        continue;
      }
      EnterPushes(st, c);
      nn := AppendName(norm, nn, rel[s..s + l]);
      st := Enter(st, c);
    }
    WalkNothing(st, rel);
  }

  method NextSlash(rel: string, s: nat) returns (p: nat)
    requires s <= |rel|
    ensures s <= p <= |rel| && '/' !in rel[s..p] && (p < |rel| ==> rel[p] == '/')
  {
    p := s;
    while p < |rel| && rel[p] != '/'
      invariant s <= p <= |rel| && '/' !in rel[s..p]
    {
      p := p + 1;
    }
  }

  lemma PathOfNone()
    ensures Path([]) == "" && AllProper([])
  {
  }

  lemma WalkNothing(st: seq<string>, rel: string)
    ensures Walk(st, rel[|rel|..]) == st
  {
  }

  lemma WalkStep(st: seq<string>, rel: string, s: nat, e: nat)
    requires s <= e <= |rel| && s < |rel| && '/' !in rel[s..e] && (e < |rel| ==> rel[e] == '/')
    ensures Walk(st, rel[s..]) == Walk(Enter(st, rel[s..e]), rel[if e < |rel| then e + 1 else e..])
  {
    var t := rel[s..];
    FirstSlashIs(t, e - s);
    assert t[..e - s] == rel[s..e];
    if e < |rel| {
      assert t[e - s + 1..] == rel[e + 1..];
    } else {
      assert rel[e..] == "";
    }
  }

  lemma FirstSlashIs(t: string, k: nat)
    requires k <= |t| && '/' !in t[..k] && (k < |t| ==> t[k] == '/')
    ensures FirstSlash(t) == k
  {
    var f := FirstSlash(t);
    forall i | 0 <= i < k
      ensures t[i] != '/'
    {
      assert t[i] in t[..k];
    }
    forall i | 0 <= i < f
      ensures t[i] != '/'
    {
      assert t[i] in t[..f];
    }
  }

  lemma EnterSkips(st: seq<string>, c: string)
    requires c == "" || c == "."
    ensures Enter(st, c) == st
  {
  }

  lemma EnterPops(st: seq<string>)
    requires AllProper(st)
    ensures AllProper(Enter(st, ".."))
  {
  }

  lemma EnterPushes(st: seq<string>, c: string)
    requires AllProper(st) && '/' !in c && c != "" && c != "." && c != ".."
    ensures AllProper(Enter(st, c))
    ensures Path(Enter(st, c)) == if Path(st) == "" then c else Path(st) + "/" + c
    ensures Path(st) == "" <==> st == []
  {
    assert (st + [c])[..|st|] == st;
  }

  // ---- the whole call -----------------------------------------------------------------------

  /** Append in a buffer of `cap` bytes, one of them for the terminator. */
  method Scat(d: string, s: string, cap: nat) returns (r: string)
    requires |d| < cap
    ensures r == Cat(d, s, cap)
  {
    r := d;
    var i := 0;
    while i < |s| && |r| + 1 < cap
      invariant 0 <= i <= |s| && r == d + s[..i] && |r| < cap
    {
      r := r + [s[i]];
      i := i + 1;
    }
    assert s[..|s|] == s;
  }

  lemma DirPartOfCut(rel: string, n: nat)
    requires n <= |rel|
    ensures DirPart(rel[..n])
            == if n == 0 || rel[n - 1] == '/' then rel[..n] else DirPart(rel[..n - 1])
  {
    assert n > 0 ==> rel[..n][..n - 1] == rel[..n - 1];
  }

  /** The length of the directory part. */
  method CutToDir(rel: string) returns (n: nat)
    ensures n <= |rel| && rel[..n] == DirPart(rel)
  {
    hide DirPart;
    n := |rel|;
    assert rel[..n] == rel;
    while n > 0 && rel[n - 1] != '/'
      invariant 0 <= n <= |rel| && DirPart(rel[..n]) == DirPart(rel)
    {
      DirPartOfCut(rel, n);
      n := n - 1;
    }
    DirPartOfCut(rel, n);
  }

  /** Where a link points, relative to the image's root. */
  method Resolve(link: string, target: string) returns (r: string)
    ensures r == ResolveLink(link, target)
  {
    hide Normal, Cat, DirPart;
    var rel;
    if target != "" && target[0] == '/' {
      rel := Scat("", target[1..], 256);
    } else {
      rel := Scat("", link, 256);
      var n := CutToDir(rel);
      rel := Scat(rel[..n], target, 256);
    }
    assert rel == RelPath(link, target);
    hide RelPath;
    var norm, nn := Normalise(rel);
    r := norm[..nn];
  }
}
