/** Corner cutting (`chaikin` in scripts/build-crew-vibes-font.py) and the outline as a whole. */
module Smooth {
  import opened Simplify

  /** The point three quarters of the way from `far` to `near`. */
  function Cut(near: Point, far: Point): Point {
    Point(0.75 * near.x + 0.25 * far.x, 0.75 * near.y + 0.25 * far.y)
  }

  /** The first point and two new ones for each of the first `n` segments. */
  function CutUpTo(pts: seq<Point>, n: nat): (out: seq<Point>)
    requires n < |pts|
    ensures |out| == 1 + 2 * n
  {
    if n == 0 then [pts[0]]
    else
      CutUpTo(pts, n - 1) + [Cut(pts[n - 1], pts[n]), Cut(pts[n], pts[n - 1])]
  }

  function CutAll(pts: seq<Point>): seq<Point>
    requires pts != []
  {
    CutUpTo(pts, |pts| - 1) + [pts[|pts| - 1]]
  }

  function Smoothed(pts: seq<Point>, iters: nat): seq<Point>
    requires pts != []
  {
    if iters == 0 then pts else CutAll(Smoothed(pts, iters - 1))
  }

  method Chaikin(points: seq<Point>, iters: nat) returns (pts: seq<Point>)
    requires points != []
    ensures pts == Smoothed(points, iters)
  {
    pts := points;
    for round := 0 to iters
      invariant pts == Smoothed(points, round)
    {
      var out := [pts[0]];
      for i := 0 to |pts| - 1
        invariant out == CutUpTo(pts, i)
      {
        var a, b := pts[i], pts[i + 1];
        out := out + [Point(0.75 * a.x + 0.25 * b.x, 0.75 * a.y + 0.25 * b.y)];
        out := out + [Point(0.25 * a.x + 0.75 * b.x, 0.25 * a.y + 0.75 * b.y)];
        assert out == CutUpTo(pts, i + 1);
      }
      out := out + [pts[|pts| - 1]];
      pts := out;
    }
  }

  // ---------- where the corners are cut ----------

  /** Each segment gives the points a quarter and three quarters of the way along it. */
  lemma CutPoints(pts: seq<Point>, i: nat)
    requires i + 1 < |pts|
    ensures |CutAll(pts)| == 2 * |pts|
    ensures CutAll(pts)[2 * i + 1] == Along(pts[i], pts[i + 1], 0.25)
    ensures CutAll(pts)[2 * i + 2] == Along(pts[i], pts[i + 1], 0.75)
  {
    CutUpToPoints(pts, |pts| - 1, i);
  }

  lemma {:induction false} CutUpToPoints(pts: seq<Point>, n: nat, i: nat)
    requires i < n < |pts|
    ensures CutUpTo(pts, n)[2 * i + 1] == Along(pts[i], pts[i + 1], 0.25)
    ensures CutUpTo(pts, n)[2 * i + 2] == Along(pts[i], pts[i + 1], 0.75)
  {
    if i == n - 1 {
    } else {
      CutUpToPoints(pts, n - 1, i);
    }
  }

  // ---------- shape ----------

  function Pow2(n: nat): nat { if n == 0 then 1 else 2 * Pow2(n - 1) }

  /** Each round doubles the number of points and keeps both end points, so a closed outline
      stays closed. */
  lemma {:induction false} SmoothedEnds(pts: seq<Point>, iters: nat)
    requires pts != []
    ensures |Smoothed(pts, iters)| == Pow2(iters) * |pts|
    ensures Smoothed(pts, iters)[0] == pts[0]
    ensures Smoothed(pts, iters)[|Smoothed(pts, iters)| - 1] == pts[|pts| - 1]
  {
    hide *;
    if iters == 0 {
      SmoothedNever(pts);
    } else {
      SmoothedEnds(pts, iters - 1);
      SmoothedOnce(pts, iters);
      assert 2 * (Pow2(iters - 1) * |pts|) == (2 * Pow2(iters - 1)) * |pts|;
    }
  }

  lemma SmoothedNever(pts: seq<Point>)
    requires pts != []
    ensures Smoothed(pts, 0) == pts && Pow2(0) == 1
  {
  }

  lemma SmoothedOnce(pts: seq<Point>, iters: nat)
    requires pts != [] && iters > 0
    ensures var s, t := Smoothed(pts, iters - 1), Smoothed(pts, iters);
            s != [] && |t| == 2 * |s| && t[0] == s[0] && t[|t| - 1] == s[|s| - 1]
    ensures Pow2(iters) == 2 * Pow2(iters - 1)
  {
    hide CutUpTo;
    var s := Smoothed(pts, iters - 1);
    CutUpToStart(s, |s| - 1);
  }

  lemma {:induction false} CutUpToStart(pts: seq<Point>, n: nat)
    requires n < |pts|
    ensures CutUpTo(pts, n)[0] == pts[0]
  {
    if n == 0 {
    } else {
      CutUpToStart(pts, n - 1);
    }
  }

  // ---------- nothing leaves the convex hull ----------

  /** Points with `a * x + b * y <= c`. */
  datatype HalfPlane = HalfPlane(a: real, b: real, c: real) {
    predicate Has(p: Point) { a * p.x + b * p.y <= c }
  }

  predicate AllIn(pts: seq<Point>, h: HalfPlane) {
    forall p <- pts :: h.Has(p)
  }

  lemma CutStaysIn(h: HalfPlane, p: Point, q: Point)
    requires h.Has(p) && h.Has(q)
    ensures h.Has(Cut(p, q))
  {
    var u, v := h.a * p.x + h.b * p.y, h.a * q.x + h.b * q.y;
    assert h.a * (0.75 * p.x + 0.25 * q.x) == 0.75 * (h.a * p.x) + 0.25 * (h.a * q.x);
    assert h.b * (0.75 * p.y + 0.25 * q.y) == 0.75 * (h.b * p.y) + 0.25 * (h.b * q.y);
    assert 0.75 * u + 0.25 * v <= h.c;
  }

  lemma {:induction false} CutUpToStaysIn(pts: seq<Point>, n: nat, h: HalfPlane)
    requires n < |pts| && AllIn(pts, h)
    ensures AllIn(CutUpTo(pts, n), h)
  {
    if n == 0 {
    } else {
      CutUpToStaysIn(pts, n - 1, h);
      assert pts[n] in pts && pts[n - 1] in pts;
      CutStaysIn(h, pts[n - 1], pts[n]);
      CutStaysIn(h, pts[n], pts[n - 1]);
    }
  }

  lemma {:induction false} SmoothedStaysIn(pts: seq<Point>, iters: nat, h: HalfPlane)
    requires pts != [] && AllIn(pts, h)
    ensures AllIn(Smoothed(pts, iters), h)
  {
    if iters == 0 {
    } else {
      SmoothedStaysIn(pts, iters - 1, h);
      var s := Smoothed(pts, iters - 1);
      CutUpToStaysIn(s, |s| - 1, h);
      assert s[|s| - 1] in s;
    }
  }

  /** The whole outline: every half-plane that holds the traced points holds the simplified and
      smoothed ones, so the glyph never grows beyond the convex hull of the sprite. */
  lemma OutlineStaysInHull(chain: seq<Point>, eps: real, iters: nat, h: HalfPlane)
    requires |chain| >= 2 && eps >= 0.0 && AllIn(chain, h)
    ensures |Simplified(chain, eps)| >= 2
    ensures AllIn(Smoothed(Simplified(chain, eps), iters), h)
  {
    var kept := SimplifiedFits(chain, eps);
    var s := Simplified(chain, eps);
    forall p | p in s ensures h.Has(p) {
      var i :| 0 <= i < |s| && s[i] == p;
      assert s[i] == chain[kept[i]] && chain[kept[i]] in chain;
    }
    SmoothedStaysIn(s, iters, h);
  }
}
