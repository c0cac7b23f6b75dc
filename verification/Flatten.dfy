/**
  From contours to polygons.  The reference first writes out the on-curve point
  that two off-curve points in a row imply, then draws lines and quadratics; the
  script does both in one pass with a pending control point.
 */
module Flatten {
  import opened Bits
  import opened Glyph

  datatype CPoint = CPoint(p: Pt, on: bool)

  type Vertex = (int, int)

  // ---- the reference -----------------------------------------------------------------------

  /** The points with every implied on-curve point written out. */
  function Explicit(cs: seq<CPoint>): (r: seq<CPoint>)
    ensures |r| >= |cs|
  {
    if |cs| < 2 then cs
    else if !cs[0].on && !cs[1].on then [cs[0], CPoint(Mid(cs[0].p, cs[1].p), true)] + Explicit(cs[1..])
    else [cs[0]] + Explicit(cs[1..])
  }

  function QuadTail(p0: Pt, p1: Pt, p2: Pt, tol: real): seq<Pt>
  {
    Polyline(p0, p1, p2, Segments(p0, p1, p2, tol))[1..]
  }

  /** Lines to on-curve points, quadratics around off-curve ones; one left at the end leads home. */
  function Trace(cur: Pt, cs: seq<CPoint>, home: Pt, tol: real): (r: seq<Pt>)
    decreases |cs|
  {
    if cs == [] then []
    else if cs[0].on then [cs[0].p] + Trace(cs[0].p, cs[1..], home, tol)
    else if |cs| == 1 then QuadTail(cur, cs[0].p, home, tol)
    else QuadTail(cur, cs[0].p, cs[1].p, tol) + Trace(cs[1].p, cs[2..], home, tol)
  }

  /** Where the contour is entered: its first on-curve point, or between its ends if it has none. */
  function FirstOn(c: seq<CPoint>): (k: nat)
    ensures k <= |c| && (k < |c| ==> c[k].on) && forall i :: 0 <= i < k ==> !c[i].on
  {
    if c == [] || c[0].on then 0 else 1 + FirstOn(c[1..])
  }

  function Start(c: seq<CPoint>): Pt
    requires c != []
  {
    var k := FirstOn(c);
    if k < |c| then c[k].p else Mid(c[0].p, c[|c| - 1].p)
  }

  function Rest(c: seq<CPoint>): seq<CPoint>
  {
    var k := FirstOn(c);
    if k < |c| then (c[k..] + c[..k])[1..] else c
  }

  function Outline(c: seq<CPoint>, tol: real): seq<Pt>
    requires c != []
  {
    [Start(c)] + Trace(Start(c), Explicit(Rest(c) + [CPoint(Start(c), true)]), Start(c), tol)
  }

  /** To the nearest integer, halves to even. */
  function Round(x: real): int
  {
    var f := x.Floor;
    var frac := x - f as real;
    if frac < 0.5 || (frac == 0.5 && f % 2 == 0) then f else f + 1
  }

  function Grid(p: Pt): Vertex
  {
    (Round(p.x), Round(p.y))
  }

  /** The outline on the grid, runs of one vertex collapsed. */
  function Vertices(ps: seq<Pt>): (r: seq<Vertex>)
  {
    if ps == [] then []
    else
      var r, v := Vertices(ps[..|ps| - 1]), Grid(ps[|ps| - 1]);
      if r == [] || v != r[|r| - 1] then r + [v] else r
  }

  function Close(ip: seq<Vertex>): seq<Vertex>
  {
    if ip != [] && ip[0] != ip[|ip| - 1] then ip + [ip[0]] else ip
  }

  /** A contour becomes a polygon, or nothing when it collapses on the grid. */
  function Polygons(cs: seq<seq<CPoint>>, tol: real): (r: seq<seq<Vertex>>)
    requires forall i :: 0 <= i < |cs| ==> cs[i] != []
  {
    if cs == [] then []
    else
      var n := |cs| - 1;
      var ip := Vertices(Outline(cs[n], tol));
      Polygons(cs[..n], tol) + if |ip| >= 3 then [Close(ip)] else []
  }

  // ---- what every polygon is ------------------------------------------------------------------

  predicate NoRepeat(ip: seq<Vertex>)
  {
    forall i :: 0 <= i < |ip| - 1 ==> ip[i] != ip[i + 1]
  }

  lemma {:induction false} VerticesNoRepeat(ps: seq<Pt>)
    ensures NoRepeat(Vertices(ps))
    ensures ps != [] ==> Vertices(ps) != [] && Vertices(ps)[0] == Grid(ps[0])
    ensures ps != [] ==> Vertices(ps)[|Vertices(ps)| - 1] == Grid(ps[|ps| - 1])
  {
    hide Grid;
    if ps != [] {
      VerticesNoRepeat(ps[..|ps| - 1]);
    }
  }

  lemma {:induction false} ExplicitLast(cs: seq<CPoint>)
    requires cs != []
    ensures Explicit(cs)[|Explicit(cs)| - 1] == cs[|cs| - 1]
  {
    if |cs| >= 2 {
      ExplicitLast(cs[1..]);
    }
  }

  /** Between two off-curve points there is always an on-curve one. */
  predicate Alternates(cs: seq<CPoint>)
  {
    forall i :: 0 <= i < |cs| - 1 ==> cs[i].on || cs[i + 1].on
  }

  lemma {:induction false} ExplicitAlternates(cs: seq<CPoint>)
    ensures Alternates(Explicit(cs))
    ensures cs != [] ==> Explicit(cs)[0] == cs[0]
  {
    if |cs| >= 2 {
      ExplicitAlternates(cs[1..]);
    }
  }

  lemma QuadTailLast(p0: Pt, p1: Pt, p2: Pt, tol: real)
    ensures var q := QuadTail(p0, p1, p2, tol); q != [] && q[|q| - 1] == p2
  {
    var n := Segments(p0, p1, p2, tol);
    var all := Polyline(p0, p1, p2, n);
    assert n as real / n as real == 1.0;
    assert all[n] == Curve(p0, p1, p2, 1.0) == p2;
  }

  lemma {:induction false} TraceLast(cur: Pt, cs: seq<CPoint>, home: Pt, tol: real)
    requires cs != [] && Alternates(cs) && cs[|cs| - 1].on
    ensures var r := Trace(cur, cs, home, tol); r != [] && r[|r| - 1] == cs[|cs| - 1].p
    decreases |cs|
  {
    hide QuadTail;
    if cs[0].on {
      if |cs| > 1 {
        TraceLast(cs[0].p, cs[1..], home, tol);
      }
    } else {
      QuadTailLast(cur, cs[0].p, cs[1].p, tol);
      if |cs| > 2 {
        TraceLast(cs[1].p, cs[2..], home, tol);
      }
    }
  }

  /** The outline of any contour comes back to where it started. */
  lemma OutlineCloses(c: seq<CPoint>, tol: real)
    requires c != []
    ensures var o := Outline(c, tol); o != [] && o[0] == o[|o| - 1] == Start(c)
  {
    hide Explicit, Trace, Start, Rest;
    var cs := Rest(c) + [CPoint(Start(c), true)];
    ExplicitAlternates(cs);
    ExplicitLast(cs);
    TraceLast(Start(c), Explicit(cs), Start(c), tol);
  }

  /** Every polygon is closed, has at least three vertices and no two equal in a row; closing it by hand is never needed. */
  lemma {:induction false} PolygonsClosed(cs: seq<seq<CPoint>>, tol: real, k: nat)
    requires forall i :: 0 <= i < |cs| ==> cs[i] != []
    requires k < |Polygons(cs, tol)|
    ensures var ip := Polygons(cs, tol)[k];
            |ip| >= 3 && ip[0] == ip[|ip| - 1] && NoRepeat(ip) && Close(ip) == ip
    decreases |cs|
  {
    hide Outline, Vertices, NoRepeat;
    var n := |cs| - 1;
    if k < |Polygons(cs[..n], tol)| {
      PolygonsClosed(cs[..n], tol, k);
    } else {
      var o := Outline(cs[n], tol);
      OutlineCloses(cs[n], tol);
      VerticesNoRepeat(o);
      assert Close(Vertices(o)) == Vertices(o);
      assert Polygons(cs, tol)[k] == Vertices(o);
    }
  }

  // ---- implied points -------------------------------------------------------------------------

  /** Half way between two points, by coordinates. */
  predicate HalfWay(m: Pt, a: Pt, b: Pt)
  {
    m.x + m.x == a.x + b.x && m.y + m.y == a.y + b.y
  }

  lemma MidIsHalfWay(m: Pt, a: Pt, b: Pt)
    ensures HalfWay(m, a, b) <==> m == Mid(a, b)
    ensures Mid(a, b) == Mid(b, a)
  {
  }

  /** Two off-curve points meet, with `m` half way between them. */
  predicate Implied(x: seq<CPoint>, m: Pt, y: seq<CPoint>)
  {
    && x != [] && y != [] && !x[|x| - 1].on && !y[0].on
    && HalfWay(m, x[|x| - 1].p, y[0].p)
  }

  /** Writing an implied point out changes nothing. */
  lemma {:induction false} ExplicitImplied(x: seq<CPoint>, m: Pt, y: seq<CPoint>)
    requires Implied(x, m, y)
    ensures Explicit(x + [CPoint(m, true)] + y) == Explicit(x + y)
  {
    var M := CPoint(m, true);
    MidIsHalfWay(m, x[|x| - 1].p, y[0].p);
    hide Mid, HalfWay;
    var s, t := x + y, x + [M] + y;
    if |x| == 1 {
      assert s[1..] == y && t[1..] == [M] + y;
      ExplicitOn(M, y);
    } else {
      assert s[1..] == x[1..] + y && t[1..] == x[1..] + [M] + y;
      assert s[0] == t[0] && s[1] == t[1];
      ExplicitImplied(x[1..], m, y);
    }
  }

  lemma {:induction false} ExplicitSplits(x: seq<CPoint>, c: CPoint, y: seq<CPoint>)
    requires c.on
    ensures Explicit(x + [c] + y) == Explicit(x + [c]) + Explicit(y)
  {
    hide Mid;
    if x == [] {
      assert x + [c] + y == [c] + y && x + [c] == [c];
      ExplicitOn(c, y);
    } else {
      var s, t := x + [c] + y, x + [c];
      assert s[1..] == x[1..] + [c] + y && t[1..] == x[1..] + [c];
      assert s[0] == t[0] && s[1] == t[1];
      ExplicitSplits(x[1..], c, y);
    }
  }

  /** Drawing on from an on-curve point is drawing the rest from there. */
  lemma {:induction false} TraceSplits(cur: Pt, x: seq<CPoint>, y: seq<CPoint>, home: Pt, home': Pt, tol: real)
    requires x != [] && Alternates(x) && x[|x| - 1].on
    ensures Trace(cur, x + y, home, tol) == Trace(cur, x, home', tol) + Trace(x[|x| - 1].p, y, home, tol)
    decreases |x|
  {
    hide QuadTail;
    if x[0].on {
      assert (x + y)[1..] == x[1..] + y;
      if |x| == 1 {
        assert x[1..] + y == y;
      } else {
        TraceSplits(x[0].p, x[1..], y, home, home', tol);
      }
    } else {
      assert (x + y)[2..] == x[2..] + y;
      if |x| == 2 {
        assert x[2..] + y == y;
      } else {
        TraceSplits(x[1].p, x[2..], y, home, home', tol);
      }
    }
  }

  /** What is drawn from an on-curve point to the next one named. */
  function Part(from: Pt, x: seq<CPoint>, to: CPoint, tol: real): seq<Pt>
  {
    Trace(from, Explicit(x + [to]), to.p, tol)
  }

  lemma PartSplits(from: Pt, x: seq<CPoint>, c: CPoint, y: seq<CPoint>, to: CPoint, tol: real)
    requires c.on && to.on
    ensures Part(from, x + [c] + y, to, tol) == Part(from, x, c, tol) + Part(c.p, y, to, tol)
  {
    hide Trace, Explicit;
    assert x + [c] + y + [to] == x + [c] + (y + [to]);
    ExplicitSplits(x, c, y + [to]);
    ExplicitAlternates(x + [c]);
    ExplicitLast(x + [c]);
    TraceSplits(from, Explicit(x + [c]), Explicit(y + [to]), to.p, c.p, tol);
  }

  lemma {:induction false} FirstOnIs(c: seq<CPoint>, k: nat)
    requires k <= |c| && (k < |c| ==> c[k].on) && forall i :: 0 <= i < k ==> !c[i].on
    ensures FirstOn(c) == k
  {
    if k > 0 {
      assert !c[0].on;
      FirstOnIs(c[1..], k - 1);
    }
  }

  /** Where a contour is entered, and the points from there round to it. */
  lemma EnteredAt(c: seq<CPoint>, k: nat)
    requires k < |c| && c[k].on && forall i :: 0 <= i < k ==> !c[i].on
    ensures Start(c) == c[k].p && Rest(c) == c[k + 1..] + c[..k]
  {
    FirstOnIs(c, k);
    hide FirstOn, Mid;
    assert c[k..][1..] == c[k + 1..];
    assert (c[k..] + c[..k])[1..] == c[k..][1..] + c[..k];
  }

  lemma SliceOf(u: seq<CPoint>, w: seq<CPoint>, k: nat)
    requires k < |u|
    ensures (u + w)[k] == u[k] && (u + w)[..k] == u[..k] && (u + w)[k + 1..] == u[k + 1..] + w
  {
  }

  lemma OutlineOfJoined(u: seq<CPoint>, w: seq<CPoint>, tol: real)
    requires FirstOn(u) < |u|
    ensures var k := FirstOn(u);
            var S := CPoint(u[k].p, true);
            Outline(u + w, tol) == [S.p] + Part(S.p, u[k + 1..] + w + u[..k], S, tol)
  {
    hide FirstOn, Part, Rest, Start;
    var k := FirstOn(u);
    SliceOf(u, w, k);
    forall i | 0 <= i < k
      ensures !(u + w)[i].on
    {
    }
    EnteredAt(u + w, k);
    OutlineIsPart(u + w, tol);
  }

  lemma PartImplied(from: Pt, x: seq<CPoint>, m: Pt, y: seq<CPoint>, to: CPoint, tol: real)
    requires Implied(x, m, y)
    ensures Part(from, x + [CPoint(m, true)] + y, to, tol) == Part(from, x + y, to, tol)
  {
    hide HalfWay, Trace, Explicit;
    assert x + y + [to] == x + (y + [to]);
    assert x + [CPoint(m, true)] + y + [to] == x + [CPoint(m, true)] + (y + [to]);
    ExplicitImplied(x, m, y + [to]);
  }

  lemma Assoc(x: seq<CPoint>, y: seq<CPoint>, z: seq<CPoint>)
    ensures x + y + z == x + (y + z)
  {
  }

  lemma AssocMiddle(x: seq<CPoint>, y: seq<CPoint>, z: seq<CPoint>, w: seq<CPoint>)
    ensures x + (y + z) + w == x + y + (z + w)
  {
  }

  /**
    The contour with the point between two adjacent off-curve points written out
    has the same outline.
   */
  lemma OutlineImplied(u: seq<CPoint>, m: Pt, v: seq<CPoint>, tol: real)
    requires Implied(u, m, v) && FirstOn(u) < |u|
    ensures Outline(u + [CPoint(m, true)] + v, tol) == Outline(u + v, tol)
  {
    hide HalfWay, Outline, FirstOn, Part;
    var k, M := FirstOn(u), CPoint(m, true);
    Assoc(u, [M], v);
    OutlineOfJoined(u, v, tol);
    OutlineOfJoined(u, [M] + v, tol);
    Assoc(u[k + 1..], v, u[..k]);
    AssocMiddle(u[k + 1..], [M], v, u[..k]);
    ImpliedInside(u, m, v, k);
    PartImplied(u[k].p, u[k + 1..], m, v + u[..k], CPoint(u[k].p, true), tol);
  }

  lemma ImpliedInside(u: seq<CPoint>, m: Pt, v: seq<CPoint>, k: nat)
    requires Implied(u, m, v) && k < |u| && u[k].on
    ensures Implied(u[k + 1..], m, v + u[..k])
  {
  }

  /** A contour without on-curve points starts half way between its last and its first. */
  lemma StartIsHalfWay(c: seq<CPoint>)
    requires c != [] && FirstOn(c) == |c|
    ensures Implied(c, Start(c), c) && Rest(c) == c
  {
  }

  /** The points after the first on-curve one, and those before it. */
  function Past(v: seq<CPoint>): seq<CPoint>
  {
    if FirstOn(v) < |v| then v[FirstOn(v) + 1..] else []
  }

  function Before(v: seq<CPoint>): seq<CPoint>
  {
    v[..FirstOn(v)]
  }

  /** With no on-curve point in `u`, the contour is entered in `v`. */
  lemma EnteredLater(u: seq<CPoint>, v: seq<CPoint>, j: nat)
    requires FirstOn(u) == |u| && j == FirstOn(v) < |v|
    ensures Start(u + v) == v[j].p && Rest(u + v) == v[j + 1..] + u + v[..j]
  {
    AllOffBefore(u, v);
    hide FirstOn, Start, Rest;
    var c, k := u + v, |u| + j;
    assert c[k] == v[j];
    EnteredAt(c, k);
    assert c[k + 1..] == v[j + 1..] && c[..k] == u + v[..j];
    Assoc(v[j + 1..], u, v[..j]);
  }

  lemma NeverOn(u: seq<CPoint>, v: seq<CPoint>)
    requires FirstOn(u) == |u| && FirstOn(v) == |v|
    ensures FirstOn(u + v) == |u + v|
  {
    AllOffBefore(u, v);
    FirstOnIs(u + v, |u + v|);
  }

  lemma RestAround(u: seq<CPoint>, v: seq<CPoint>)
    requires u != [] && v != [] && FirstOn(u) == |u|
    ensures Rest(u + v) == Past(v) + u + Before(v)
  {
    hide FirstOn, Start, Rest;
    var j := FirstOn(v);
    if j < |v| {
      EnteredLater(u, v, j);
    } else {
      NeverOn(u, v);
      StartIsHalfWay(u + v);
      assert [] + u == u && v[..j] == v;
    }
  }

  lemma AllOffBefore(u: seq<CPoint>, v: seq<CPoint>)
    requires FirstOn(u) == |u|
    ensures forall i :: 0 <= i < |u| + FirstOn(v) ==> !(u + v)[i].on
  {
  }

  /** With the point between them written out, it is entered there. */
  lemma RestFrom(u: seq<CPoint>, m: Pt, v: seq<CPoint>)
    requires FirstOn(u) == |u|
    ensures var c := u + [CPoint(m, true)] + v; Start(c) == m && Rest(c) == v + u
  {
    var n, c := |u|, u + [CPoint(m, true)] + v;
    assert c[n] == CPoint(m, true);
    forall i | 0 <= i < n
      ensures !c[i].on
    {
      assert c[i] == u[i];
    }
    EnteredAt(c, n);
    hide FirstOn, Rest, Start;
    assert c[n + 1..] == v && c[..n] == u;
  }

  lemma SplitAt(v: seq<CPoint>, j: nat, u: seq<CPoint>)
    requires j < |v|
    ensures v + u == v[..j] + [v[j]] + (v[j + 1..] + u)
  {
    assert v == v[..j] + [v[j]] + v[j + 1..];
    Assoc(v[..j] + [v[j]], v[j + 1..], u);
  }

  /** From the point written out, round to it again, by way of the old start. */
  lemma PartRound(u: seq<CPoint>, m: Pt, v: seq<CPoint>, tol: real)
    requires u != [] && v != [] && FirstOn(u) == |u|
    ensures var M, S := CPoint(m, true), CPoint(Start(u + v), true);
            Part(m, v + u, M, tol) == Part(m, Before(v) + [S] + (Past(v) + u), M, tol)
  {
    hide Part, Start, FirstOn, Rest;
    var j := FirstOn(v);
    if j < |v| {
      EnteredLater(u, v, j);
      OnAt(v);
      SplitAt(v, j, u);
    } else {
      NeverOn(u, v);
      StartIsHalfWay(u + v);
      ImpliedAround(u, Start(u + v), v);
      PartImplied(m, v, Start(u + v), u, CPoint(m, true), tol);
      assert v[..|v|] == v && [] + u == u;
    }
  }

  lemma OnAt(v: seq<CPoint>)
    ensures FirstOn(v) < |v| ==> v[FirstOn(v)].on
  {
  }

  lemma ImpliedAround(u: seq<CPoint>, m: Pt, v: seq<CPoint>)
    requires u != [] && v != [] && Implied(u + v, m, u + v)
    ensures Implied(v, m, u)
  {
    HalfWayTurned(m, v[|v| - 1].p, u[0].p);
  }

  lemma HalfWayTurned(m: Pt, a: Pt, b: Pt)
    ensures HalfWay(m, a, b) <==> HalfWay(m, b, a)
  {
  }

  /**
    If no on-curve point comes before, the outline is the same curve entered at the
    point written out instead.
   */
  lemma OutlineTurned(u: seq<CPoint>, m: Pt, v: seq<CPoint>, tol: real) returns (x: seq<Pt>, y: seq<Pt>)
    requires Implied(u, m, v) && FirstOn(u) == |u|
    ensures Outline(u + v, tol) == [Start(u + v)] + (x + y)
    ensures Outline(u + [CPoint(m, true)] + v, tol) == [m] + (y + x)
  {
    var c, M := u + v, CPoint(m, true);
    var S, pre, post := CPoint(Start(c), true), Past(v), Before(v);
    RestAround(u, v);
    RestFrom(u, m, v);
    OutlineIsPart(c, tol);
    OutlineIsPart(u + [M] + v, tol);
    assert post != [] && post[0] == v[0];
    hide HalfWay, Outline, Start, Rest, Part, Past, Before, FirstOn;
    PartImplied(S.p, pre + u, m, post, S, tol);
    PartSplits(S.p, pre + u, M, post, S, tol);
    PartRound(u, m, v, tol);
    PartSplits(m, post, S, pre + u, M, tol);
    x := Part(S.p, pre + u, M, tol);
    y := Part(m, post, S, tol);
  }

  lemma OutlineIsPart(c: seq<CPoint>, tol: real)
    requires c != []
    ensures Outline(c, tol) == [Start(c)] + Part(Start(c), Rest(c), CPoint(Start(c), true), tol)
  {
  }

  /** Unless the point is where the contour starts anyway, the outline stays exactly if an on-curve point comes before. */
  lemma OutlineSameIff(u: seq<CPoint>, m: Pt, v: seq<CPoint>, tol: real)
    requires Implied(u, m, v) && m != Start(u + v)
    ensures Outline(u + [CPoint(m, true)] + v, tol) == Outline(u + v, tol) <==> exists i :: 0 <= i < |u| && u[i].on
  {
    assert u + v != [];
    hide Outline, Start, Implied;
    if FirstOn(u) < |u| {
      OutlineImplied(u, m, v, tol);
      assert u[FirstOn(u)].on;
    } else {
      var x, y := OutlineTurned(u, m, v, tol);
      assert Outline(u + v, tol)[0] == Start(u + v);
    }
  }

  lemma {:induction false} PolygonsSame(cs: seq<seq<CPoint>>, ds: seq<seq<CPoint>>, tol: real)
    requires |cs| == |ds| && forall i :: 0 <= i < |cs| ==> cs[i] != [] && ds[i] != [] && Outline(cs[i], tol) == Outline(ds[i], tol)
    ensures Polygons(cs, tol) == Polygons(ds, tol)
    decreases |cs|
  {
    hide Outline, Vertices, Close;
    if cs != [] {
      PolygonsSame(cs[..|cs| - 1], ds[..|ds| - 1], tol);
    }
  }

  /** So the glyph has the same polygons. */
  lemma PolygonsImplied(cs: seq<seq<CPoint>>, i: nat, u: seq<CPoint>, m: Pt, v: seq<CPoint>, tol: real)
    requires i < |cs| && (forall k :: 0 <= k < |cs| ==> cs[k] != []) && cs[i] == u + v
    requires Implied(u, m, v) && FirstOn(u) < |u|
    ensures Polygons(cs[i := u + [CPoint(m, true)] + v], tol) == Polygons(cs, tol)
  {
    hide Outline, HalfWay, Polygons;
    OutlineImplied(u, m, v, tol);
    PolygonsSame(cs[i := u + [CPoint(m, true)] + v], cs, tol);
  }

  /** Straight lines only: the outline is the contour itself, closed. */
  lemma {:induction false} TraceOfLines(cur: Pt, cs: seq<CPoint>, home: Pt, tol: real)
    requires forall i :: 0 <= i < |cs| ==> cs[i].on
    ensures Explicit(cs) == cs
    ensures Trace(cur, cs, home, tol) == seq(|cs|, i requires 0 <= i < |cs| => cs[i].p)
    decreases |cs|
  {
    hide Mid;
    if cs != [] {
      TraceOfLines(cs[0].p, cs[1..], home, tol);
    }
  }

  lemma OutlineOfLines(c: seq<CPoint>, tol: real)
    requires c != [] && forall i :: 0 <= i < |c| ==> c[i].on
    ensures Outline(c, tol) == seq(|c|, i requires 0 <= i < |c| => c[i].p) + [c[0].p]
  {
    hide Trace, Explicit, Rest, Start, FirstOn;
    EnteredAt(c, 0);
    var S := c[0].p;
    var cs := c[1..] + [CPoint(S, true)];
    assert c[1..] + c[..0] == c[1..];
    TraceOfLines(S, cs, S, tol);
    var t := Trace(S, cs, S, tol);
    assert forall i :: 0 <= i < |c| - 1 ==> t[i] == c[i + 1].p;
    assert t[|c| - 1] == S;
    var all := seq(|c|, i requires 0 <= i < |c| => c[i].p) + [S];
    assert [S] + t == all;
  }

  /** To the nearest integer; between two, to the even one. */
  lemma RoundIsNearest(x: real)
    ensures -0.5 <= x - Round(x) as real <= 0.5
    ensures x - Round(x) as real == 0.5 || x - Round(x) as real == -0.5 ==> Round(x) % 2 == 0
  {
  }

  // ---- the script's loops -----------------------------------------------------------------------

  method Quad(p0: Pt, p1: Pt, p2: Pt, tol: real, n: nat) returns (pts: seq<Pt>)
    requires n == Segments(p0, p1, p2, tol)
    ensures pts == Polyline(p0, p1, p2, n)
  {
    pts := [];
    for i := 0 to n + 1
      invariant pts == Polyline(p0, p1, p2, n)[..i]
    {
      var t := i as real / n as real;
      pts := pts + [Curve(p0, p1, p2, t)];
    }
  }

  function Pending(ctrl: Option<Pt>): seq<CPoint>
  {
    if ctrl.Some? then [CPoint(ctrl.value, false)] else []
  }

  /** What is still to be drawn from `cur` with a control point pending. */
  function Todo(cur: Pt, ctrl: Option<Pt>, cs: seq<CPoint>, home: Pt, tol: real): seq<Pt>
  {
    Trace(cur, Explicit(Pending(ctrl) + cs), home, tol)
  }

  /** One turn of the drawing loop, in each of its four cases. */
  lemma DrawStep(cur: Pt, ctrl: Option<Pt>, cs: seq<CPoint>, home: Pt, tol: real)
    requires cs != []
    ensures var p, on, rest := cs[0].p, cs[0].on, cs[1..];
            Todo(cur, ctrl, cs, home, tol)
            == if on then
                 (if ctrl.None? then [p] else QuadTail(cur, ctrl.value, p, tol)) + Todo(p, None, rest, home, tol)
               else if ctrl.None? then Todo(cur, Some(p), rest, home, tol)
               else
                 var mid := Mid(ctrl.value, p);
                 QuadTail(cur, ctrl.value, mid, tol) + Todo(mid, Some(p), rest, home, tol)
  {
    hide QuadTail, Mid;
    var c, rest := cs[0], cs[1..];
    assert [] + cs == cs && [] + rest == rest && cs == [c] + rest;
    if ctrl.Some? {
      var b := CPoint(ctrl.value, false);
      assert ([b] + cs)[1..] == cs;
      if c.on {
        ExplicitOn(c, rest);
        TraceAround(cur, b, c, Explicit(rest), home, tol);
      } else {
        TraceAround(cur, b, CPoint(Mid(b.p, c.p), true), Explicit(cs), home, tol);
        assert [b, CPoint(Mid(b.p, c.p), true)] + Explicit(cs) == [b] + ([CPoint(Mid(b.p, c.p), true)] + Explicit(cs));
      }
    } else if c.on {
      ExplicitOn(c, rest);
      assert ([c] + Explicit(rest))[1..] == Explicit(rest);
    }
  }

  lemma ExplicitOn(c: CPoint, rest: seq<CPoint>)
    requires c.on
    ensures Explicit([c] + rest) == [c] + Explicit(rest)
  {
    assert ([c] + rest)[1..] == rest;
  }

  lemma TraceAround(cur: Pt, b: CPoint, c: CPoint, rest: seq<CPoint>, home: Pt, tol: real)
    requires !b.on
    ensures Trace(cur, [b] + ([c] + rest), home, tol) == QuadTail(cur, b.p, c.p, tol) + Trace(c.p, rest, home, tol)
  {
    assert ([b] + ([c] + rest))[2..] == rest;
  }

  method Draw(start: Pt, rest: seq<CPoint>, tol: real) returns (out: seq<Pt>)
    ensures out == [start] + Trace(start, Explicit(rest + [CPoint(start, true)]), start, tol)
  {
    hide Trace, Explicit, Mid;
    out := [start];
    var cur, ctrl: Option<Pt> := start, None;
    var cs := rest + [CPoint(start, true)];
    ghost var whole := [start] + Todo(cur, ctrl, cs, start, tol);
    assert Pending(None) + cs == cs;
    for i := 0 to |cs|
      invariant out + Todo(cur, ctrl, cs[i..], start, tol) == whole
    {
      DrawStep(cur, ctrl, cs[i..], start, tol);
      var p := cs[i].p;
      if cs[i].on {
        if ctrl.None? {
          out := out + [p];
        } else {
          var q := Quad(cur, ctrl.value, p, tol, Segments(cur, ctrl.value, p, tol));
          out := out + q[1..];
          ctrl := None;
        }
        cur := p;
      } else {
        if ctrl.Some? {
          var mid := Mid(ctrl.value, p);
          var q := Quad(cur, ctrl.value, mid, tol, Segments(cur, ctrl.value, mid, tol));
          out := out + q[1..];
          cur := mid;
        }
        ctrl := Some(p);
      }
    }
    NothingTodo(cur, ctrl, start, tol);
    assert cs[|cs|..] == [];
    if ctrl.Some? {
      var q := Quad(cur, ctrl.value, start, tol, Segments(cur, ctrl.value, start, tol));
      out := out + q[1..];
    }
  }

  lemma NothingTodo(cur: Pt, ctrl: Option<Pt>, home: Pt, tol: real)
    ensures Todo(cur, ctrl, [], home, tol) == if ctrl.None? then [] else QuadTail(cur, ctrl.value, home, tol)
  {
    hide QuadTail;
  }

  method Snap(out: seq<Pt>) returns (ip: seq<Vertex>)
    ensures ip == Vertices(out)
  {
    ip := [];
    for i := 0 to |out|
      invariant ip == Vertices(out[..i])
    {
      assert out[..i + 1][..i] == out[..i];
      var p := Grid(out[i]);
      if ip == [] || p != ip[|ip| - 1] {
        ip := ip + [p];
      }
    }
    assert out[..|out|] == out;
  }

  method EnterContour(c: seq<CPoint>) returns (start: Pt, rest: seq<CPoint>)
    requires c != []
    ensures start == Start(c) && rest == Rest(c)
  {
    hide Mid;
    var k := 0;
    while k < |c| && !c[k].on
      invariant 0 <= k <= |c| && forall i :: 0 <= i < k ==> !c[i].on
    {
      k := k + 1;
    }
    assert k == FirstOn(c);
    if k < |c| {
      var r := c[k..] + c[..k];
      start, rest := r[0].p, r[1..];
    } else {
      start, rest := Mid(c[0].p, c[|c| - 1].p), c;
    }
  }

  lemma PolygonsSnoc(cs: seq<seq<CPoint>>, j: nat, tol: real)
    requires j < |cs| && forall i :: 0 <= i < |cs| ==> cs[i] != []
    ensures var ip := Vertices(Outline(cs[j], tol));
            Polygons(cs[..j + 1], tol) == Polygons(cs[..j], tol) + if |ip| >= 3 then [Close(ip)] else []
  {
    hide Vertices, Outline, Close;
    assert cs[..j + 1][..j] == cs[..j];
  }

  /** The script: every contour entered, drawn, snapped and closed. */
  method FlattenAll(contours: seq<seq<CPoint>>, tol: real) returns (polys: seq<seq<Vertex>>)
    requires forall i :: 0 <= i < |contours| ==> contours[i] != []
    ensures polys == Polygons(contours, tol)
  {
    hide Trace, Explicit, Vertices, Start, Rest, Polygons;
    polys := [];
    assert Polygons(contours[..0], tol) == [] by { NoPolygons(tol); }
    for j := 0 to |contours|
      invariant polys == Polygons(contours[..j], tol)
    {
      var start, rest := EnterContour(contours[j]);
      var out := Draw(start, rest, tol);
      var ip := Snap(out);
      PolygonsSnoc(contours, j, tol);
      if |ip| >= 3 {
        if ip[0] != ip[|ip| - 1] {
          ip := ip + [ip[0]];
        }
        polys := polys + [ip];
      }
    }
    assert contours[..|contours|] == contours;
  }

  lemma NoPolygons(tol: real)
    ensures Polygons([], tol) == []
  {
  }
}
