/**
  Glyph outlines: TrueType contours with implied on-curve points, flattened to
  closed integer polygons.  Coordinates are reals; rounding to the nearest
  double is not modelled, rounding to integers is.
 */
module Glyph {
  datatype Pt = Pt(x: real, y: real)

  function Mid(p: Pt, q: Pt): Pt
  {
    Pt((p.x + q.x) / 2.0, (p.y + q.y) / 2.0)
  }

  // ---- one quadratic ----------------------------------------------------------------------

  function Axis(a: real, b: real, c: real, t: real): real
  {
    var u := 1.0 - t;
    u * u * a + 2.0 * u * t * b + t * t * c
  }

  /** The point of the curve at parameter `t`. */
  function Curve(p0: Pt, p1: Pt, p2: Pt, t: real): Pt
  {
    Pt(Axis(p0.x, p1.x, p2.x, t), Axis(p0.y, p1.y, p2.y, t))
  }

  /** P0 - 2*P1 + P2, which measures how far from straight the curve is. */
  function Bend(p0: Pt, p1: Pt, p2: Pt): Pt
  {
    Pt(p0.x - 2.0 * p1.x + p2.x, p0.y - 2.0 * p1.y + p2.y)
  }

  function Norm2(p: Pt): real
  {
    Sq(p.x) + Sq(p.y)
  }

  function Mul(x: real, y: real): real
  {
    x * y
  }

  function Sq(x: real): real
  {
    Mul(x, x)
  }

  /** `n` segments are enough by the script's formula: |bend| / (8 n^2) < tol, both sides squared. */
  predicate Enough(d2: real, tol: real, n: nat)
  {
    d2 < Sq(Reach(tol, n as real))
  }

  /** The least number of segments from `n` up that is enough, or 32. */
  function SegmentsFrom(d2: real, tol: real, n: nat): (r: nat)
    requires 1 <= n <= 32
    ensures n <= r <= 32
    decreases 32 - n
  {
    if n == 32 || Enough(d2, tol, n) then n else SegmentsFrom(d2, tol, n + 1)
  }

  function Segments(p0: Pt, p1: Pt, p2: Pt, tol: real): (r: nat)
    ensures 1 <= r <= 32
  {
    var d2 := Norm2(Bend(p0, p1, p2));
    if d2 > 0.0 && tol > 0.0 then SegmentsFrom(d2, tol, 1) else 1
  }

  lemma Positive(x: real, y: real)
    requires x > 0.0 && y > 0.0
    ensures Mul(x, y) > 0.0
  {
  }

  lemma MulMono(x: real, y: real, z: real)
    requires 0.0 <= x <= y && 0.0 <= z
    ensures 0.0 <= Mul(x, z) <= Mul(y, z)
    ensures x < y && 0.0 < z ==> Mul(x, z) < Mul(y, z)
  {
    if x < y && 0.0 < z {
      Positive(y - x, z);
    }
  }

  lemma MulComm(x: real, y: real)
    ensures Mul(x, y) == Mul(y, x)
  {
  }

  lemma SqMono(a: real, b: real)
    requires 0.0 <= a && 0.0 <= b
    ensures a < b <==> Sq(a) < Sq(b)
    ensures 0.0 <= Sq(a)
  {
    hide Mul;
    MulComm(a, b);
    MulMono(a, a, a);
    if a <= b {
      MulMono(a, b, a);
      MulMono(a, b, b);
    } else {
      MulMono(b, a, b);
      MulMono(b, a, a);
    }
  }

  /** `n` squared, scaled: the bend that needs more than `n` segments. */
  function Reach(tol: real, q: real): real
  {
    Mul(8.0 * tol, Sq(q))
  }

  lemma ReachMono(tol: real, q: real, m: real)
    requires tol > 0.0 && q >= 0.0 && m >= 0.0
    ensures q < m <==> Sq(Reach(tol, q)) < Sq(Reach(tol, m))
    ensures Reach(tol, q) >= 0.0
  {
    hide Mul;
    SqMono(q, m);
    SqMono(m, q);
    MulComm(8.0 * tol, Sq(q));
    MulComm(8.0 * tol, Sq(m));
    if Sq(q) <= Sq(m) {
      MulMono(Sq(q), Sq(m), 8.0 * tol);
    } else {
      MulMono(Sq(m), Sq(q), 8.0 * tol);
    }
    SqMono(Reach(tol, q), Reach(tol, m));
  }

  lemma {:induction false} SegmentsFromIs(d2: real, tol: real, q: real, n: nat)
    requires tol > 0.0 && q >= 0.0 && d2 == Sq(Reach(tol, q)) && 1 <= n <= 32
    requires n as real <= q + 1.0
    ensures SegmentsFrom(d2, tol, n) == if q.Floor + 1 > 32 then 32 else q.Floor + 1
    decreases 32 - n
  {
    hide Sq, Reach;
    ReachMono(tol, q, n as real);
    if n < 32 && !(q < n as real) {
      SegmentsFromIs(d2, tol, q, n + 1);
    }
  }

  /** The count is the script's: the square root of |bend| / (8 tol), floored, plus one, at most 32. */
  lemma SegmentsIsClosedForm(p0: Pt, p1: Pt, p2: Pt, tol: real, d: real, q: real)
    requires d > 0.0 && Sq(d) == Norm2(Bend(p0, p1, p2)) && tol > 0.0
    requires q >= 0.0 && Sq(q) == d / (8.0 * tol)
    ensures Segments(p0, p1, p2, tol) == if q.Floor + 1 > 32 then 32 else q.Floor + 1
  {
    hide Bend, Norm2, SegmentsFrom;
    assert Reach(tol, q) == d;
    Positive(d, d);
    SegmentsFromIs(Sq(d), tol, q, 1);
  }

  /** The polyline, from P0 to P2. */
  function Polyline(p0: Pt, p1: Pt, p2: Pt, n: nat): (r: seq<Pt>)
    requires n >= 1
    ensures |r| == n + 1
  {
    seq(n + 1, i requires 0 <= i <= n => Curve(p0, p1, p2, i as real / n as real))
  }

  // ---- how far the polyline is from the curve -------------------------------------------------

  function Mix(x: real, y: real, s: real): real
  {
    Mul(1.0 - s, x) + Mul(s, y)
  }

  /** The point a fraction `s` along the chord from `a` to `b`. */
  function Along(a: Pt, b: Pt, s: real): Pt
  {
    Pt(Mix(a.x, b.x, s), Mix(a.y, b.y, s))
  }

  lemma MixOfMixes(a: real, b: real, c: real, t: real)
    ensures Axis(a, b, c, t) == Mix(Mix(a, b, t), Mix(b, c, t), t)
  {
    var u := 1.0 - t;
    assert Mix(Mix(a, b, t), Mix(b, c, t), t) == u * (u * a + t * b) + t * (u * b + t * c);
    assert u * (u * a + t * b) == u * u * a + u * t * b;
    assert t * (u * b + t * c) == u * t * b + t * t * c;
  }

  /** De Casteljau's construction: along both legs, and then along the line between, the same fraction each time. */
  lemma CurveByFractions(p0: Pt, p1: Pt, p2: Pt, t: real)
    ensures Curve(p0, p1, p2, t) == Along(Along(p0, p1, t), Along(p1, p2, t), t)
  {
    hide Axis, Mix;
    MixOfMixes(p0.x, p1.x, p2.x, t);
    MixOfMixes(p0.y, p1.y, p2.y, t);
  }

  function Dist2(a: Pt, b: Pt): real
  {
    Sq(a.x - b.x) + Sq(a.y - b.y)
  }

  /** `s` of the way from `t0` to `t0 + h`. */
  function Partway(t0: real, h: real, s: real): real
  {
    t0 + Mul(s, h)
  }

  /** s(1-s)h^2. */
  function Sag(s: real, h: real): real
  {
    Mul(Mul(s, 1.0 - s), Sq(h))
  }

  function Power(a: real, k1: real, k2: real, t: real): real
  {
    a + Mul(k1, t) + Mul(k2, Sq(t))
  }

  lemma CurveAsPowers(a: real, b: real, c: real, t: real)
    ensures Axis(a, b, c, t) == Power(a, 2.0 * (b - a), a - 2.0 * b + c, t)
  {
    var u := 1.0 - t;
    assert u * u == 1.0 - 2.0 * t + t * t;
    assert u * t == t - t * t;
    assert u * u * a == a - 2.0 * (t * a) + t * t * a;
    assert 2.0 * u * t * b == 2.0 * (t * b) - 2.0 * (t * t * b);
  }

  lemma SquareGap(t0: real, h: real, s: real)
    ensures Mix(Sq(t0), Sq(t0 + h), s) - Sq(Partway(t0, h, s)) == Sag(s, h)
  {
    var p := s * h;
    assert (t0 + h) * (t0 + h) == t0 * t0 + 2.0 * (t0 * h) + h * h;
    assert (t0 + p) * (t0 + p) == t0 * t0 + 2.0 * (t0 * p) + p * p;
    assert p * p == s * s * (h * h);
    assert t0 * p == s * (t0 * h);
  }

  lemma MixOfPowers(a: real, k1: real, k2: real, t0: real, t1: real, s: real, q0: real, q1: real)
    ensures Mix(a + Mul(k1, t0) + Mul(k2, q0), a + Mul(k1, t1) + Mul(k2, q1), s)
            == a + Mul(k1, Mix(t0, t1, s)) + Mul(k2, Mix(q0, q1, s))
  {
    assert s * (k1 * t1) == k1 * (s * t1) && s * (k1 * t0) == k1 * (s * t0);
    assert s * (k2 * q1) == k2 * (s * q1) && s * (k2 * q0) == k2 * (s * q0);
  }

  lemma MixIsPartway(t0: real, h: real, s: real)
    ensures Mix(t0, t0 + h, s) == Partway(t0, h, s)
  {
  }

  lemma MulMinus(k: real, x: real, y: real)
    ensures Mul(k, x) - Mul(k, y) == Mul(k, x - y)
  {
  }

  lemma GapOnAxis(a: real, b: real, c: real, t0: real, h: real, s: real)
    ensures Mix(Axis(a, b, c, t0), Axis(a, b, c, t0 + h), s) - Axis(a, b, c, Partway(t0, h, s))
            == Mul(a - 2.0 * b + c, Sag(s, h))
  {
    hide Axis, Mix, Mul, Partway, Sq, Sag;
    var k1, k2, t := 2.0 * (b - a), a - 2.0 * b + c, Partway(t0, h, s);
    CurveAsPowers(a, b, c, t0);
    CurveAsPowers(a, b, c, t0 + h);
    CurveAsPowers(a, b, c, t);
    MixOfPowers(a, k1, k2, t0, t0 + h, s, Sq(t0), Sq(t0 + h));
    MixIsPartway(t0, h, s);
    MulMinus(k2, Mix(Sq(t0), Sq(t0 + h), s), Sq(t));
    SquareGap(t0, h, s);
  }

  /** The parameter a fraction `s` of the way through segment `i` of `n`. */
  function Param(n: nat, i: nat, s: real): real
    requires n >= 1
  {
    Partway(i as real / n as real, 1.0 / n as real, s)
  }

  /** Chord point and curve point at the same parameter. */
  function Chord(p0: Pt, p1: Pt, p2: Pt, n: nat, i: nat, s: real): Pt
    requires i < n
  {
    Along(Polyline(p0, p1, p2, n)[i], Polyline(p0, p1, p2, n)[i + 1], s)
  }

  /** How far apart they are, squared. */
  function Gap2(p0: Pt, p1: Pt, p2: Pt, n: nat, i: nat, s: real): real
    requires i < n
  {
    Dist2(Chord(p0, p1, p2, n, i, s), Curve(p0, p1, p2, Param(n, i, s)))
  }

  /** The gap is exactly s(1-s)/n^2 times the bend. */
  lemma GapExact(p0: Pt, p1: Pt, p2: Pt, n: nat, i: nat, s: real)
    requires i < n
    ensures var g, a := Sag(s, 1.0 / n as real), Bend(p0, p1, p2);
            var c, e := Chord(p0, p1, p2, n, i, s), Curve(p0, p1, p2, Param(n, i, s));
            c.x - e.x == Mul(a.x, g) && c.y - e.y == Mul(a.y, g)
  {
    hide Axis, Mix, Mul, Partway, Sag;
    var h, t0 := 1.0 / n as real, i as real / n as real;
    NextParam(n, i);
    GapOnAxis(p0.x, p1.x, p2.x, t0, h, s);
    GapOnAxis(p0.y, p1.y, p2.y, t0, h, s);
  }

  lemma NextParam(n: nat, i: nat)
    requires n >= 1
    ensures (i + 1) as real / n as real == i as real / n as real + 1.0 / n as real
  {
  }

  lemma Scale2(g: real, a: Pt)
    ensures Sq(Mul(a.x, g)) + Sq(Mul(a.y, g)) == Mul(Sq(g), Norm2(a))
  {
    assert (a.x * g) * (a.x * g) == (g * g) * (a.x * a.x);
    assert (a.y * g) * (a.y * g) == (g * g) * (a.y * a.y);
  }

  lemma SqNonNegative(x: real)
    ensures Sq(x) >= 0.0
  {
    if x > 0.0 {
      Positive(x, x);
    } else if x < 0.0 {
      Positive(-x, -x);
    }
  }

  lemma QuarterAtMost(s: real)
    requires 0.0 <= s <= 1.0
    ensures 0.0 <= Mul(s, 1.0 - s) <= 0.25
  {
    SqNonNegative(s - 0.5);
    assert Sq(s - 0.5) == 0.25 - Mul(s, 1.0 - s);
    MulMono(0.0, s, 1.0 - s);
  }

  /** The worst gap of an `n`-segment polyline, squared: |bend| / (4 n^2). */
  function Worst2(p0: Pt, p1: Pt, p2: Pt, n: nat): real
    requires n >= 1
  {
    Mul(Sq(Mul(0.25, Sq(1.0 / n as real))), Norm2(Bend(p0, p1, p2)))
  }

  lemma GapIs(p0: Pt, p1: Pt, p2: Pt, n: nat, i: nat, s: real)
    requires i < n
    ensures Gap2(p0, p1, p2, n, i, s) == Mul(Sq(Sag(s, 1.0 / n as real)), Norm2(Bend(p0, p1, p2)))
  {
    hide Curve, Chord, Bend, Norm2, Param, Mul, Sag, Sq;
    GapExact(p0, p1, p2, n, i, s);
    Scale2(Sag(s, 1.0 / n as real), Bend(p0, p1, p2));
  }

  /** Everywhere on the curve the gap is at most |bend| / (4 n^2), and it is that in the middle of each segment. */
  lemma GapBound(p0: Pt, p1: Pt, p2: Pt, n: nat, i: nat, s: real)
    requires i < n && 0.0 <= s <= 1.0
    ensures Gap2(p0, p1, p2, n, i, s) <= Worst2(p0, p1, p2, n)
    ensures Gap2(p0, p1, p2, n, i, 0.5) == Worst2(p0, p1, p2, n)
  {
    assert Mul(0.5, 1.0 - 0.5) == 0.25;
    hide Gap2, Bend, Mul, Sq;
    var h, a := 1.0 / n as real, Bend(p0, p1, p2);
    GapIs(p0, p1, p2, n, i, s);
    GapIs(p0, p1, p2, n, i, 0.5);
    QuarterAtMost(s);
    SqNonNegative(h);
    var g, w := Sag(s, h), Mul(0.25, Sq(h));
    MulMono(Mul(s, 1.0 - s), 0.25, Sq(h));
    SqMono(w, g);
    SqMono(g, w);
    SqNonNegative(a.x);
    SqNonNegative(a.y);
    MulMono(Sq(g), Sq(w), Norm2(a));
  }

  /** The polyline is within `tol` of the curve at every parameter. */
  ghost predicate WithinTol(p0: Pt, p1: Pt, p2: Pt, n: nat, tol: real)
  {
    forall i: nat, s: real :: i < n && 0.0 <= s <= 1.0 ==> Gap2(p0, p1, p2, n, i, s) <= Sq(tol)
  }

  /** It is, exactly when |bend| / (4 n^2) is within `tol`: the script's 8 n^2 claims twice as much. */
  lemma WithinTolIff(p0: Pt, p1: Pt, p2: Pt, n: nat, tol: real)
    requires n >= 1
    ensures WithinTol(p0, p1, p2, n, tol) <==> Worst2(p0, p1, p2, n) <= Sq(tol)
  {
    hide Gap2, Worst2;
    GapBound(p0, p1, p2, n, 0, 0.5);
    if Worst2(p0, p1, p2, n) <= Sq(tol) {
      forall i: nat, s: real | i < n && 0.0 <= s <= 1.0
        ensures Gap2(p0, p1, p2, n, i, s) <= Sq(tol)
      {
        GapBound(p0, p1, p2, n, i, s);
      }
    }
  }

  lemma RatioAtMostOne(x: real, m: real)
    requires x >= 0.0 && m > 0.0
    ensures Mul(x, Sq(1.0 / m)) >= 0.0
    ensures Mul(x, Sq(1.0 / m)) <= 1.0 <==> x <= Sq(m)
  {
    var r := 1.0 / m;
    assert r * m == 1.0;
    assert (m * m) * (r * r) == (r * m) * (r * m);
    assert Mul(Sq(m), Sq(r)) == 1.0;
    Positive(r, r);
    Positive(m, m);
    hide Mul;
    MulMono(x, x, Sq(r));
    if x <= Sq(m) {
      MulMono(x, Sq(m), Sq(r));
    } else {
      MulMono(Sq(m), x, Sq(r));
    }
  }

  /** With d = 8 tol q^2, the worst gap is tol times 2 q^2 / n^2. */
  lemma WorstIs(tol: real, d: real, q2: real, k: real)
    requires d == Mul(8.0 * tol, q2)
    ensures Mul(Sq(Mul(0.25, k)), Sq(d)) == Sq(Mul(tol, Mul(2.0 * q2, k)))
  {
    SqOfMul(Mul(0.25, k), d);
    assert (0.25 * k) * (8.0 * tol * q2) == tol * (2.0 * q2 * k);
  }

  lemma TimesAtMost(tol: real, y: real)
    requires tol > 0.0 && y >= 0.0
    ensures Mul(tol, y) >= 0.0
    ensures Mul(tol, y) <= tol <==> y <= 1.0
  {
    assert Mul(1.0, tol) == tol;
    MulComm(tol, y);
    hide Mul;
    MulMono(y, y, tol);
    if y <= 1.0 {
      MulMono(y, 1.0, tol);
    } else {
      MulMono(1.0, y, tol);
    }
  }

  /** With q the script's square root, `n` segments keep the tolerance exactly when 2 q^2 <= n^2. */
  lemma WithinTolByCount(p0: Pt, p1: Pt, p2: Pt, n: nat, tol: real, d: real, q: real)
    requires n >= 1 && d > 0.0 && Sq(d) == Norm2(Bend(p0, p1, p2)) && tol > 0.0
    requires q >= 0.0 && Sq(q) == d / (8.0 * tol)
    ensures WithinTol(p0, p1, p2, n, tol) <==> 2.0 * Sq(q) <= Sq(n as real)
  {
    assert d == Mul(8.0 * tol, Sq(q));
    SqNonNegative(q);
    hide Mul, Sq, Norm2, Bend, WithinTol;
    var k := Sq(1.0 / n as real);
    WithinTolIff(p0, p1, p2, n, tol);
    WorstIs(tol, d, Sq(q), k);
    RatioAtMostOne(2.0 * Sq(q), n as real);
    TimesAtMost(tol, Mul(2.0 * Sq(q), k));
    SqMono(tol, Mul(tol, Mul(2.0 * Sq(q), k)));
  }

  /** The computed count keeps the tolerance exactly when 2 q^2 <= (floor(q) + 1)^2, or 2 q^2 <= 32^2 if it was cut. */
  lemma CountKeepsTolIff(p0: Pt, p1: Pt, p2: Pt, tol: real, d: real, q: real)
    requires d > 0.0 && Sq(d) == Norm2(Bend(p0, p1, p2)) && tol > 0.0
    requires q >= 0.0 && Sq(q) == d / (8.0 * tol)
    ensures WithinTol(p0, p1, p2, Segments(p0, p1, p2, tol), tol) <==>
            2.0 * Sq(q) <= Sq((if q.Floor + 1 > 32 then 32 else q.Floor + 1) as real)
  {
    hide WithinTol, Segments, Sq, Norm2, Bend;
    SegmentsIsClosedForm(p0, p1, p2, tol, d, q);
    WithinTolByCount(p0, p1, p2, Segments(p0, p1, p2, tol), tol, d, q);
  }

  lemma {:induction false} SegmentsEnough(d2: real, tol: real, n: nat)
    requires 1 <= n <= 32 && SegmentsFrom(d2, tol, n) < 32
    ensures Enough(d2, tol, SegmentsFrom(d2, tol, n))
    decreases 32 - n
  {
    if n < 32 && !Enough(d2, tol, n) {
      SegmentsEnough(d2, tol, n + 1);
    }
  }

  lemma Halve(d2: real, tol: real, m: real)
    requires m > 0.0 && d2 < Sq(Reach(tol, m))
    ensures Mul(Sq(Mul(0.25, Sq(1.0 / m))), d2) < Sq(2.0 * tol)
  {
    var w := Mul(0.25, Sq(1.0 / m));
    Positive(1.0 / m, 1.0 / m);
    Positive(w, w);
    HalveProduct(tol, m);
    SqOfMul(w, Reach(tol, m));
    hide Mul, Sq, Reach;
    Positive(Sq(w), Sq(Reach(tol, m)) - d2);
    MulMinus(Sq(w), Sq(Reach(tol, m)), d2);
  }

  lemma HalveProduct(tol: real, m: real)
    requires m > 0.0
    ensures Mul(Mul(0.25, Sq(1.0 / m)), Reach(tol, m)) == 2.0 * tol
  {
    var r := 1.0 / m;
    assert r * m == 1.0;
    assert (r * r) * (m * m) == (r * m) * (r * m);
    assert (0.25 * (r * r)) * (8.0 * tol * (m * m)) == 2.0 * tol * ((r * r) * (m * m));
  }

  lemma SqOfMul(x: real, y: real)
    ensures Mul(Sq(x), Sq(y)) == Sq(Mul(x, y))
  {
    assert (x * x) * (y * y) == (x * y) * (x * y);
  }

  /** What the computed count does guarantee, unless it was cut to 32: less than twice the tolerance. */
  lemma TwiceTol(p0: Pt, p1: Pt, p2: Pt, tol: real)
    requires tol > 0.0 && Segments(p0, p1, p2, tol) < 32
    ensures Worst2(p0, p1, p2, Segments(p0, p1, p2, tol)) < Sq(2.0 * tol)
    ensures WithinTol(p0, p1, p2, Segments(p0, p1, p2, tol), 2.0 * tol)
  {
    Positive(2.0 * tol, 2.0 * tol);
    SqNonNegative(Bend(p0, p1, p2).x);
    SqNonNegative(Bend(p0, p1, p2).y);
    hide WithinTol, Bend, Sq, SegmentsFrom, Enough, Reach;
    var n, d2 := Segments(p0, p1, p2, tol), Norm2(Bend(p0, p1, p2));
    if d2 > 0.0 {
      hide Mul;
      SegmentsEnough(d2, tol, 1);
      EnoughMeans(d2, tol, n);
      Halve(d2, tol, n as real);
    }
    WithinTolIff(p0, p1, p2, n, 2.0 * tol);
  }

  lemma EnoughMeans(d2: real, tol: real, n: nat)
    requires Enough(d2, tol, n)
    ensures d2 < Sq(Reach(tol, n as real))
  {
  }

  /**
    The tolerance itself is not kept: for this curve and tolerance one segment is
    used, and the top of the curve is further than `tol` from every point of it.
   */
  lemma TolNotKept(s: real)
    requires 0.0 <= s <= 1.0
    ensures var p0, p1, p2 := Pt(-1.0, 0.0), Pt(0.0, 4.0), Pt(1.0, 0.0);
            && Segments(p0, p1, p2, 1.5) == 1
            && Dist2(Along(p0, p2, s), Curve(p0, p1, p2, 0.5)) > Sq(1.5)
  {
    var p0, p1, p2 := Pt(-1.0, 0.0), Pt(0.0, 4.0), Pt(1.0, 0.0);
    OneSegment();
    hide Segments;
    var c, e := Along(p0, p2, s), Curve(p0, p1, p2, 0.5);
    assert e == Pt(0.0, 2.0);
    assert c.y == 0.0;
    SqNonNegative(c.x - e.x);
  }

  /**
    Nor is any factor of it below two: for every r below 2 there is a curve that
    gets one segment at tolerance 1, with its top further than r from all of it.
   */
  lemma AlmostTwice(r: real, s: real)
    requires 0.0 <= r < 2.0 && 0.0 <= s <= 1.0
    ensures var p0, p1, p2 := Pt(-1.0, 0.0), Pt(0.0, r + 2.0), Pt(1.0, 0.0);
            && Segments(p0, p1, p2, 1.0) == 1
            && Dist2(Along(p0, p2, s), Curve(p0, p1, p2, 0.5)) > Sq(r)
  {
    var h := r + 2.0;
    var p0, p1, p2 := Pt(-1.0, 0.0), Pt(0.0, h), Pt(1.0, 0.0);
    TallSegment(h);
    hide Segments;
    var c, e := Along(p0, p2, s), Curve(p0, p1, p2, 0.5);
    assert e == Pt(0.0, h / 2.0);
    assert c.y == 0.0;
    SqNonNegative(c.x - e.x);
    SqMono(r, h / 2.0);
    assert Sq(0.0 - h / 2.0) == Sq(h / 2.0);
  }

  lemma TallSegment(h: real)
    requires 0.0 < h < 4.0
    ensures Segments(Pt(-1.0, 0.0), Pt(0.0, h), Pt(1.0, 0.0), 1.0) == 1
  {
    var d2 := Norm2(Bend(Pt(-1.0, 0.0), Pt(0.0, h), Pt(1.0, 0.0)));
    assert d2 == Sq(2.0 * h);
    assert Reach(1.0, 1.0) == 8.0;
    SqMono(2.0 * h, 8.0);
    Positive(2.0 * h, 2.0 * h);
    assert Enough(d2, 1.0, 1);
  }

  lemma OneSegment()
    ensures Segments(Pt(-1.0, 0.0), Pt(0.0, 4.0), Pt(1.0, 0.0), 1.5) == 1
  {
    assert Norm2(Bend(Pt(-1.0, 0.0), Pt(0.0, 4.0), Pt(1.0, 0.0))) == 64.0;
    assert Reach(1.5, 1.0) == 12.0;
    assert Enough(64.0, 1.5, 1);
  }
}
