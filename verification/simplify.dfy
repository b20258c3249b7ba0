/**
 Turning a traced outline into a smooth one (`point_line_dist`, `douglas_peucker` and `chaikin`
 in scripts/build-crew-vibes-font.py). Coordinates are exact reals and distances are compared by
 their squares.
 */
module Simplify {
  datatype Point = Point(x: real, y: real)

  function Sq(x: real): real { x * x }

  function SqLength(p: Point, q: Point): real { Sq(p.x - q.x) + Sq(p.y - q.y) }

  /** The point a fraction `t` of the way from `a` to `b`. */
  function Along(a: Point, b: Point, t: real): Point {
    Point(a.x + t * (b.x - a.x), a.y + t * (b.y - a.y))
  }

  // ---------- distance to a segment ----------

  function Dot(p: Point, a: Point, b: Point): real {
    (p.x - a.x) * (b.x - a.x) + (p.y - a.y) * (b.y - a.y)
  }

  function Clamp(t: real): real { if t < 0.0 then 0.0 else if t > 1.0 then 1.0 else t }

  lemma SqLengthPositive(a: Point, b: Point)
    requires a != b
    ensures SqLength(b, a) > 0.0
  {
    if a.x != b.x { SquareOfNonZero(b.x - a.x); } else { SquareOfNonZero(b.y - a.y); }
    SquareNotNegative(b.x - a.x);
    SquareNotNegative(b.y - a.y);
  }

  lemma SquareNotNegative(x: real)
    ensures Sq(x) >= 0.0
  {
  }

  lemma SquareOfNonZero(x: real)
    requires x != 0.0
    ensures Sq(x) > 0.0
  {
    var y := if x < 0.0 then -x else x;
    PositiveProduct(y, y, Sq(x));
  }

  lemma PositiveProduct(x: real, y: real, z: real)
    requires x > 0.0 && y > 0.0 && z == x * y
    ensures z > 0.0
  {
  }

  /** Square of the distance of `p` from the segment from `a` to `b`. */
  function SqDist(p: Point, a: Point, b: Point): real {
    if a == b then SqLength(p, a)
    else
      SqLengthPositive(a, b);
      SqLength(p, Along(a, b, Clamp(Dot(p, a, b) / SqLength(b, a))))
  }

  function Curve(c: real, m: real, n: real, t: real): real { c - 2.0 * t * m + t * t * n }

  /** Where `p` and `b` are as seen from `a`, and how far along the fraction gets. */
  datatype Seen = Seen(ux: real, uy: real, vx: real, vy: real, wx: real, wy: real) {
    predicate IsOf(p: Point, a: Point, b: Point, t: real) {
      && SqLength(p, Along(a, b, t)) == Sq(ux - wx) + Sq(uy - wy)
      && SqLength(p, a) == Sq(ux) + Sq(uy) && SqLength(b, a) == Sq(vx) + Sq(vy)
      && Dot(p, a, b) == ux * vx + uy * vy && IsAlong(t)
    }

    predicate IsAlong(t: real) { wx == t * vx && wy == t * vy }
  }

  lemma SeenFrom(p: Point, a: Point, b: Point, t: real) returns (s: Seen)
    ensures s.IsOf(p, a, b, t)
  {
    s := Seen(p.x - a.x, p.y - a.y, b.x - a.x, b.y - a.y, t * (b.x - a.x), t * (b.y - a.y));
    assert p.x - (a.x + s.wx) == s.ux - s.wx && p.y - (a.y + s.wy) == s.uy - s.wy;
    assert SqLength(p, Along(a, b, t)) == Sq(s.ux - s.wx) + Sq(s.uy - s.wy);
    hide Sq;
  }

  /** As a function of the fraction the squared distance is a parabola. */
  lemma Parabola(p: Point, a: Point, b: Point, t: real)
    ensures SqLength(p, Along(a, b, t)) == Curve(SqLength(p, a), Dot(p, a, b), SqLength(b, a), t)
  {
    hide Sq, SqLength, Dot, Along, Curve, Seen.IsAlong;
    var s := SeenFrom(p, a, b, t);
    ParabolaOfCoordinates(s, t, SqLength(p, a), Dot(p, a, b), SqLength(b, a));
  }

  lemma ParabolaOfCoordinates(s: Seen, t: real, c: real, m: real, n: real)
    requires c == Sq(s.ux) + Sq(s.uy) && m == s.ux * s.vx + s.uy * s.vy && n == Sq(s.vx) + Sq(s.vy) && s.IsAlong(t)
    ensures Sq(s.ux - s.wx) + Sq(s.uy - s.wy) == Curve(c, m, n, t)
  {
    hide Sq;
    Binomial(s.ux, t, s.vx, s.wx);
    Binomial(s.uy, t, s.vy, s.wy);
    Distributes(2.0 * t, s.ux * s.vx, s.uy * s.vy);
    Distributes(t * t, Sq(s.vx), Sq(s.vy));
  }

  lemma Distributes(c: real, x: real, y: real)
    ensures c * x + c * y == c * (x + y)
  {
  }

  lemma Binomial(u: real, t: real, v: real, w: real)
    requires w == t * v
    ensures Sq(u - w) == Sq(u) - 2.0 * t * (u * v) + t * t * Sq(v)
  {
    assert Sq(u - w) == u * u - 2.0 * (u * w) + w * w;
    assert u * w == t * (u * v);
    assert w * w == t * t * (v * v);
  }

  /** Of all fractions between 0 and 1 the clamped one gives the least value. */
  lemma ClampIsBest(n: real, m: real, t: real)
    requires n > 0.0 && 0.0 <= t <= 1.0
    ensures var s := Clamp(m / n); s * s * n - 2.0 * s * m <= t * t * n - 2.0 * t * m
  {
    var r := m / n;
    assert r * n == m;
    if r < 0.0 {
      assert m < 0.0;
      assert t * m <= 0.0 && t * t * n >= 0.0;
    } else if r > 1.0 {
      BeyondOne(n, m, r, t);
    } else {
      var d := t - r;
      assert d * d * n >= 0.0;
      assert d * d * n == t * t * n - 2.0 * t * (r * n) + r * (r * n);
    }
  }

  lemma BeyondOne(n: real, m: real, r: real, t: real)
    requires n > 0.0 && r > 1.0 && r * n == m && t <= 1.0 && 0.0 <= t
    ensures n - 2.0 * m <= t * t * n - 2.0 * t * m
  {
    assert m > n;
    var d := 1.0 - t;
    assert d * (2.0 * m - (1.0 + t) * n) >= 0.0 by {
      assert (1.0 + t) * n <= 2.0 * n;
    }
    assert d * (2.0 * m - (1.0 + t) * n) == 2.0 * m - 2.0 * t * m - (n - t * t * n);
  }

  lemma ClampedIsLeast(p: Point, a: Point, b: Point, t: real)
    requires a != b && 0.0 <= t <= 1.0
    ensures SqDist(p, a, b) <= SqLength(p, Along(a, b, t))
  {
    SqLengthPositive(a, b);
    hide Along, SqLength, Sq, Dot, Clamp, Curve;
    Parabola(p, a, b, Clamp(Dot(p, a, b) / SqLength(b, a)));
    Parabola(p, a, b, t);
    CurveIsLeast(SqLength(p, a), Dot(p, a, b), SqLength(b, a), t);
  }

  lemma CurveIsLeast(c: real, m: real, n: real, t: real)
    requires n > 0.0 && 0.0 <= t <= 1.0
    ensures Curve(c, m, n, Clamp(m / n)) <= Curve(c, m, n, t)
  {
    hide Clamp;
    ClampIsBest(n, m, t);
  }

  lemma SqDistIsAttained(p: Point, a: Point, b: Point) returns (t: real)
    ensures 0.0 <= t <= 1.0 && SqDist(p, a, b) == SqLength(p, Along(a, b, t))
  {
    hide SqLength;
    if a == b {
      t := 0.0;
      assert Along(a, b, t) == a;
    } else {
      SqLengthPositive(a, b);
      t := Clamp(Dot(p, a, b) / SqLength(b, a));
    }
  }

  /** The computed distance is the distance to the nearest point of the segment. */
  lemma SqDistIsNearest(p: Point, a: Point, b: Point)
    ensures exists t :: 0.0 <= t <= 1.0 && SqDist(p, a, b) == SqLength(p, Along(a, b, t))
    ensures forall t :: 0.0 <= t <= 1.0 ==> SqDist(p, a, b) <= SqLength(p, Along(a, b, t))
  {
    var s := SqDistIsAttained(p, a, b);
    forall t | 0.0 <= t <= 1.0 ensures SqDist(p, a, b) <= SqLength(p, Along(a, b, t)) {
      if a == b {
        assert Along(a, b, t) == a;
      } else {
        ClampedIsLeast(p, a, b, t);
      }
    }
  }

  lemma SqDistOfEnd(a: Point, b: Point)
    ensures SqDist(a, a, b) == 0.0
  {
    if a != b {
      SqLengthPositive(a, b);
      assert Dot(a, a, b) == 0.0;
      assert Along(a, b, 0.0) == a;
    }
  }

  // ---------- Douglas-Peucker ----------

  /** How far point `i` is from the line between the end points. */
  function Dev(points: seq<Point>, i: nat): real
    requires i < |points|
  {
    SqDist(points[i], points[0], points[|points| - 1])
  }

  /** The first of the inner points below `n` that are farthest away; 0 if none is away at all. */
  function Farthest(points: seq<Point>, n: nat): (k: nat)
    requires 1 <= n <= |points|
    ensures k < n
  {
    if n == 1 then 0
    else
      var k := Farthest(points, n - 1);
      if Dev(points, n - 1) > Dev(points, k) then n - 1 else k
  }

  lemma {:induction false} FarthestIsFarthest(points: seq<Point>, n: nat, i: nat)
    requires 1 <= i < n <= |points|
    ensures Dev(points, i) <= Dev(points, Farthest(points, n))
    ensures i < Farthest(points, n) ==> Dev(points, i) < Dev(points, Farthest(points, n))
  {
    if i < n - 1 {
      FarthestIsFarthest(points, n - 1, i);
    }
  }

  lemma {:induction false} FirstFarthest(points: seq<Point>, n: nat, k: nat)
    requires 1 <= k < n <= |points| && Dev(points, k) > Dev(points, 0)
    requires forall i :: 1 <= i < k ==> Dev(points, i) < Dev(points, k)
    requires forall i :: k < i < n ==> Dev(points, i) <= Dev(points, k)
    ensures Farthest(points, n) == k
  {
    if k < n - 1 {
      FirstFarthest(points, n - 1, k);
    }
  }

  /** What the recursion returns. */
  function Simplified(points: seq<Point>, eps: real): (r: seq<Point>)
    requires eps >= 0.0
    ensures |points| >= 1 ==> |r| >= 1
    decreases |points|
  {
    if |points| < 3 then points
    else
      var k := Farthest(points, |points| - 1);
      SqDistOfEnd(points[0], points[|points| - 1]);
      if Dev(points, k) > eps * eps then
        var left := Simplified(points[..k + 1], eps);
        left[..|left| - 1] + Simplified(points[k..], eps)
      else [points[0], points[|points| - 1]]
  }

  method DouglasPeucker(points: seq<Point>, eps: real) returns (r: seq<Point>)
    requires eps >= 0.0
    ensures r == Simplified(points, eps)
    decreases |points|
  {
    if |points| < 3 {
      return points;
    }
    var last := |points| - 1;
    var dmax, idx := 0.0, 0;
    SqDistOfEnd(points[0], points[last]);
    for i := 1 to last
      invariant idx == Farthest(points, i) && dmax == Dev(points, idx)
    {
      var d := SqDist(points[i], points[0], points[last]);
      if d > dmax {
        dmax, idx := d, i;
      }
    }
    if dmax > eps * eps {
      var left := DouglasPeucker(points[..idx + 1], eps);
      var right := DouglasPeucker(points[idx..], eps);
      r := left[..|left| - 1] + right;
    } else {
      r := [points[0], points[last]];
    }
  }

  // ---------- what is kept, and how well it fits ----------

  /** Positions of a selection of points, both ends among them. */
  predicate IsSelection(points: seq<Point>, kept: seq<nat>) {
    && |kept| >= 2 && kept[0] == 0 && kept[|kept| - 1] == |points| - 1
    && (forall i :: 0 <= i < |kept| ==> kept[i] < |points|)
    && forall i, j :: 0 <= i < j < |kept| ==> kept[i] < kept[j]
  }

  function Select(points: seq<Point>, kept: seq<nat>): (q: seq<Point>)
    requires forall i :: 0 <= i < |kept| ==> kept[i] < |points|
    ensures |q| == |kept|
  {
    seq(|kept|, i requires 0 <= i < |kept| => points[kept[i]])
  }

  /** The points from `i` to `j` are within `eps` of the segment between these two. */
  ghost predicate Fits(points: seq<Point>, i: nat, j: nat, eps: real)
    requires i < |points| && j < |points|
  {
    forall m :: i <= m <= j ==> SqDist(points[m], points[i], points[j]) <= eps * eps
  }

  /** Every point passed over between two neighbours of the selection is within `eps` of the
      segment between them. */
  ghost predicate FitsWithin(points: seq<Point>, kept: seq<nat>, eps: real)
    requires IsSelection(points, kept)
  {
    forall i :: 0 <= i < |kept| - 1 ==> Fits(points, kept[i], kept[i + 1], eps)
  }

  /** `kept` selects what `left` selects up to point `k` and what `right` selects from there. */
  predicate Joins(left: seq<nat>, right: seq<nat>, k: nat, kept: seq<nat>) {
    && left != [] && right != [] && |kept| == |left| - 1 + |right|
    && (forall i :: 0 <= i < |left| ==> kept[i] == left[i])
    && (forall i :: |left| - 1 <= i < |kept| ==> kept[i] == k + right[i - (|left| - 1)])
  }

  lemma SelectionOfHalves(points: seq<Point>, k: nat, left: seq<nat>, right: seq<nat>) returns (kept: seq<nat>)
    requires 1 <= k < |points| - 1
    requires IsSelection(points[..k + 1], left) && IsSelection(points[k..], right)
    ensures IsSelection(points, kept) && Joins(left, right, k, kept)
  {
    var n := |left| - 1;
    kept := seq(n + |right|, i requires 0 <= i < n + |right| => if i < n then left[i] else k + right[i - n]);
  }

  lemma FitsInLonger(points: seq<Point>, k: nat, i: nat, j: nat, eps: real)
    requires k < |points|
    ensures i <= j <= k && Fits(points[..k + 1], i, j, eps) ==> Fits(points, i, j, eps)
    ensures i <= j < |points| - k && Fits(points[k..], i, j, eps) ==> Fits(points, k + i, k + j, eps)
  {
    hide SqDist;
    if i <= j < |points| - k && Fits(points[k..], i, j, eps) {
      forall m | k + i <= m <= k + j ensures SqDist(points[m], points[k + i], points[k + j]) <= eps * eps {
        assert points[k..][m - k] == points[m];
      }
    }
    if i <= j <= k && Fits(points[..k + 1], i, j, eps) {
      forall m | i <= m <= j ensures SqDist(points[m], points[i], points[j]) <= eps * eps {
        assert points[..k + 1][m] == points[m];
      }
    }
  }

  lemma FitOfHalves(points: seq<Point>, k: nat, left: seq<nat>, right: seq<nat>, kept: seq<nat>, eps: real)
    requires 1 <= k < |points| - 1
    requires IsSelection(points[..k + 1], left) && IsSelection(points[k..], right) && IsSelection(points, kept)
    requires Joins(left, right, k, kept)
    requires FitsWithin(points[..k + 1], left, eps) && FitsWithin(points[k..], right, eps)
    ensures FitsWithin(points, kept, eps)
  {
    hide SqDist, Fits;
    var n := |left| - 1;
    forall i | 0 <= i < |kept| - 1 ensures Fits(points, kept[i], kept[i + 1], eps) {
      if i < n {
        FitsInLonger(points, k, left[i], left[i + 1], eps);
        assert left[i] < left[i + 1];
      } else {
        FitsInLonger(points, k, right[i - n], right[i - n + 1], eps);
        assert right[i - n] < right[i - n + 1];
      }
    }
  }

  lemma SelectHalves(points: seq<Point>, k: nat, left: seq<nat>, right: seq<nat>, kept: seq<nat>)
    requires 1 <= k < |points| - 1
    requires IsSelection(points[..k + 1], left) && IsSelection(points[k..], right) && IsSelection(points, kept)
    requires Joins(left, right, k, kept)
    ensures Select(points, kept) == Select(points[..k + 1], left)[..|left| - 1] + Select(points[k..], right)
  {
    var n := |left| - 1;
    var l, r := Select(points[..k + 1], left), Select(points[k..], right);
    forall i | 0 <= i < |kept| ensures Select(points, kept)[i] == (l[..n] + r)[i] {
      if i >= n {
        assert points[k..][right[i - n]] == points[k + right[i - n]];
      }
    }
  }

  /** The two end points alone fit if no point between them is far away. */
  lemma EndsFit(points: seq<Point>, eps: real)
    requires eps >= 0.0 && |points| >= 2
    requires forall m | 1 <= m < |points| - 1 :: Dev(points, m) <= eps * eps
    ensures var kept := [0, |points| - 1];
            && IsSelection(points, kept) && FitsWithin(points, kept, eps)
            && Select(points, kept) == [points[0], points[|points| - 1]]
  {
    var last := |points| - 1;
    SqDistOfEnd(points[0], points[last]);
    SqDistOfOtherEnd(points[0], points[last]);
    EpsSquare(eps);
    hide SqDist;
    assert Fits(points, 0, last, eps) by {
      forall m | 0 <= m <= last ensures SqDist(points[m], points[0], points[last]) <= eps * eps {
        assert 1 <= m < last ==> Dev(points, m) <= eps * eps;
      }
    }
  }

  /** The result is a selection of the points that keeps both end points, and every point that was
      dropped is within `eps` of the kept segment that replaces it. */
  lemma {:induction false} SimplifiedFits(points: seq<Point>, eps: real) returns (kept: seq<nat>)
    requires eps >= 0.0 && |points| >= 2
    ensures IsSelection(points, kept) && Simplified(points, eps) == Select(points, kept)
    ensures FitsWithin(points, kept, eps)
    decreases |points|
  {
    hide *;
    var last := |points| - 1;
    if |points| < 3 || Dev(points, Farthest(points, last)) <= eps * eps {
      kept := [0, last];
      SimplifiedStops(points, eps);
      EndsFit(points, eps);
    } else {
      var k := Farthest(points, last);
      SimplifiedSplits(points, k, eps);
      var left := SimplifiedFits(points[..k + 1], eps);
      var right := SimplifiedFits(points[k..], eps);
      kept := SelectionOfHalves(points, k, left, right);
      FitOfHalves(points, k, left, right, kept, eps);
      SelectHalves(points, k, left, right, kept);
    }
  }

  lemma SimplifiedStops(points: seq<Point>, eps: real)
    requires eps >= 0.0 && |points| >= 2
    requires |points| < 3 || Dev(points, Farthest(points, |points| - 1)) <= eps * eps
    ensures Simplified(points, eps) == [points[0], points[|points| - 1]]
    ensures forall m | 1 <= m < |points| - 1 :: Dev(points, m) <= eps * eps
    ensures IsFlat(points, eps)
  {
    hide SqDist, Farthest;
    forall m | 1 <= m < |points| - 1 ensures Dev(points, m) <= eps * eps {
      FarthestIsFarthest(points, |points| - 1, m);
    }
    forall i | 0 < i < |points| - 1
      ensures SqDist(points[i], points[0], points[|points| - 1]) <= eps * eps
    {
      assert Dev(points, i) <= eps * eps;
    }
  }

  lemma EpsSquare(eps: real)
    ensures eps * eps >= 0.0
  {
  }

  lemma SqDistOfOtherEnd(a: Point, b: Point)
    ensures SqDist(b, a, b) == 0.0
  {
    if a != b {
      SqLengthPositive(a, b);
      assert Dot(b, a, b) == SqLength(b, a);
      assert Dot(b, a, b) / SqLength(b, a) == 1.0;
      assert Along(a, b, 1.0) == b;
    }
  }

  // ---------- what is dropped, and where a chain is split ----------

  /** All inner points are within `eps` of the segment between the ends. */
  ghost predicate IsFlat(points: seq<Point>, eps: real)
    requires points != []
  {
    forall i :: 0 < i < |points| - 1 ==> SqDist(points[i], points[0], points[|points| - 1]) <= eps * eps
  }

  /** The first of the inner points that are farthest from the segment between the ends. */
  ghost predicate IsPeak(points: seq<Point>, k: nat) {
    && 0 < k < |points| - 1
    && (forall i :: 0 < i < |points| - 1 ==> SqDist(points[i], points[0], points[|points| - 1])
                                             <= SqDist(points[k], points[0], points[|points| - 1]))
    && (forall i :: 0 < i < k ==> SqDist(points[i], points[0], points[|points| - 1])
                                  < SqDist(points[k], points[0], points[|points| - 1]))
  }

  /** A chain whose inner points are all within `eps` of the segment between its ends becomes these ends;
      every other one is split at its peak, which is kept, and the halves are simplified in the same way. */
  lemma FlatOrSplit(points: seq<Point>, eps: real) returns (k: nat)
    requires eps >= 0.0 && |points| >= 2
    ensures IsFlat(points, eps) ==> Simplified(points, eps) == [points[0], points[|points| - 1]]
    ensures !IsFlat(points, eps) ==>
              && IsPeak(points, k)
              && var left, right := Simplified(points[..k + 1], eps), Simplified(points[k..], eps);
                 && left != [] && left[|left| - 1] == right[0] == points[k]
                 && Simplified(points, eps) == left + right[1..]
  {
    k := 0;
    if |points| < 3 {
      assert Simplified(points, eps) == [points[0], points[|points| - 1]];
    } else {
      hide *;
      k := Farthest(points, |points| - 1);
      if Dev(points, k) <= eps * eps {
        SimplifiedStops(points, eps);
      } else {
        PeakIsHigh(points, k, eps);
        SimplifiedSplits(points, k, eps);
        FarthestIsPeak(points, k);
        HalvesMeet(points, k, eps);
        PeakIsInside(points, k);
      }
    }
  }

  lemma PeakIsInside(points: seq<Point>, k: nat)
    requires IsPeak(points, k)
    ensures 0 < k < |points| - 1
  {
  }

  lemma PeakIsHigh(points: seq<Point>, k: nat, eps: real)
    requires |points| >= 2 && k < |points| - 1 && Dev(points, k) > eps * eps
    ensures k > 0 && !IsFlat(points, eps)
  {
    SqDistOfEnd(points[0], points[|points| - 1]);
    EpsSquare(eps);
    hide SqDist;
    assert SqDist(points[k], points[0], points[|points| - 1]) > eps * eps;
  }

  lemma FarthestIsPeak(points: seq<Point>, k: nat)
    requires |points| >= 3 && k == Farthest(points, |points| - 1) && k > 0
    ensures IsPeak(points, k)
  {
    hide SqDist, Farthest;
    var a, b := points[0], points[|points| - 1];
    forall i | 0 < i < |points| - 1
      ensures SqDist(points[i], a, b) <= SqDist(points[k], a, b)
      ensures i < k ==> SqDist(points[i], a, b) < SqDist(points[k], a, b)
    {
      FarthestIsFarthest(points, |points| - 1, i);
      assert Dev(points, i) == SqDist(points[i], a, b) && Dev(points, k) == SqDist(points[k], a, b);
    }
  }

  lemma SimplifiedKeepsEnds(points: seq<Point>, eps: real)
    requires eps >= 0.0 && |points| >= 2
    ensures var s := Simplified(points, eps);
            |s| >= 2 && s[0] == points[0] && s[|s| - 1] == points[|points| - 1]
  {
    hide *;
    var kept := SimplifiedFits(points, eps);
    SelectEnds(points, kept);
  }

  lemma SelectEnds(points: seq<Point>, kept: seq<nat>)
    requires IsSelection(points, kept)
    ensures var s := Select(points, kept);
            |s| >= 2 && s[0] == points[0] && s[|s| - 1] == points[|points| - 1]
  {
  }

  lemma HalvesMeet(points: seq<Point>, k: nat, eps: real)
    requires eps >= 0.0 && 0 < k < |points| - 1
    ensures var left, right := Simplified(points[..k + 1], eps), Simplified(points[k..], eps);
            && left != [] && right != [] && left[|left| - 1] == right[0] == points[k]
            && left[..|left| - 1] + right == left + right[1..]
  {
    SimplifiedKeepsEnds(points[..k + 1], eps);
    SimplifiedKeepsEnds(points[k..], eps);
    hide *;
    LastIsFirst(Simplified(points[..k + 1], eps), Simplified(points[k..], eps), points[k]);
  }

  lemma LastIsFirst<T>(left: seq<T>, right: seq<T>, x: T)
    requires left != [] && right != [] && left[|left| - 1] == right[0] == x
    ensures left[..|left| - 1] + right == left + right[1..]
  {
    assert left == left[..|left| - 1] + [x] && right == [x] + right[1..];
  }

  // ---------- simplifying twice changes nothing ----------

  lemma DevOfSelection(points: seq<Point>, kept: seq<nat>, i: nat)
    requires IsSelection(points, kept) && i < |kept|
    ensures Dev(Select(points, kept), i) == Dev(points, kept[i])
  {
    hide SqDist;
  }

  lemma SplitStaysFarthest(points: seq<Point>, k: nat, left: seq<nat>, right: seq<nat>, kept: seq<nat>)
    requires |points| >= 3 && k == Farthest(points, |points| - 1) && 1 <= k && Dev(points, k) > Dev(points, 0)
    requires IsSelection(points[..k + 1], left) && IsSelection(points[k..], right) && IsSelection(points, kept)
    requires Joins(left, right, k, kept)
    ensures Farthest(Select(points, kept), |kept| - 1) == |left| - 1
    ensures Dev(Select(points, kept), |left| - 1) == Dev(points, k)
  {
    hide SqDist, Farthest, Select, Dev;
    var q, n := Select(points, kept), |left| - 1;
    assert |q| == |kept| && kept[n] == k && kept[0] == 0;
    DevOfSelection(points, kept, n);
    DevOfSelection(points, kept, 0);
    forall i | 1 <= i < |q| - 1
      ensures Dev(q, i) <= Dev(q, n) && (i < n ==> Dev(q, i) < Dev(q, n))
    {
      DevOfSelection(points, kept, i);
      FarthestIsFarthest(points, |points| - 1, kept[i]);
    }
    FirstFarthest(q, |q| - 1, n);
  }

  lemma SimplifiedSplits(points: seq<Point>, k: nat, eps: real)
    requires eps >= 0.0 && |points| >= 3
    requires k == Farthest(points, |points| - 1) && Dev(points, k) > eps * eps
    ensures 1 <= k && Dev(points, k) > Dev(points, 0)
    ensures var left := Simplified(points[..k + 1], eps);
            Simplified(points, eps) == left[..|left| - 1] + Simplified(points[k..], eps)
  {
    hide SqDist, Farthest;
    SqDistOfEnd(points[0], points[|points| - 1]);
    EpsSquare(eps);
    assert Dev(points, 0) == 0.0;
  }

  lemma SimplifiedEnds(points: seq<Point>, eps: real)
    requires eps >= 0.0 && (|points| < 3 || Dev(points, Farthest(points, |points| - 1)) <= eps * eps)
    ensures |Simplified(points, eps)| < 3
    ensures Simplified(Simplified(points, eps), eps) == Simplified(points, eps)
  {
  }

  lemma {:induction false} SimplifiedTwice(points: seq<Point>, eps: real)
    requires eps >= 0.0
    ensures Simplified(Simplified(points, eps), eps) == Simplified(points, eps)
    decreases |points|
  {
    hide *;
    if |points| < 3 || Dev(points, Farthest(points, |points| - 1)) <= eps * eps {
      SimplifiedEnds(points, eps);
    } else {
      var k := Farthest(points, |points| - 1);
      SimplifiedSplits(points, k, eps);
      var a, b := points[..k + 1], points[k..];
      var l, r := Simplified(a, eps), Simplified(b, eps);
      SimplifiedTwice(a, eps);
      SimplifiedTwice(b, eps);
      var left := SimplifiedFits(a, eps);
      var right := SimplifiedFits(b, eps);
      var kept := SelectionOfHalves(points, k, left, right);
      SelectHalves(points, k, left, right, kept);
      SelectionIsLong(points, left, right, kept, k);
      SplitStaysFarthest(points, k, left, right, kept);
      SplitEnds(a, b, left, right, points[k]);
      SplitHalves(l, r, points[k]);
      SimplifiedSplits(l[..|l| - 1] + r, |l| - 1, eps);
    }
  }

  lemma SelectionIsLong(points: seq<Point>, left: seq<nat>, right: seq<nat>, kept: seq<nat>, k: nat)
    requires k < |points| && IsSelection(points[..k + 1], left) && IsSelection(points[k..], right)
    requires Joins(left, right, k, kept)
    requires forall i :: 0 <= i < |kept| ==> kept[i] < |points|
    ensures |left| >= 2 && |right| >= 2 && |kept| == |left| - 1 + |right|
    ensures |Select(points, kept)| == |kept|
  {
  }

  lemma SplitHalves(l: seq<Point>, r: seq<Point>, p: Point)
    requires |l| >= 2 && |r| >= 2 && l[|l| - 1] == p == r[0]
    ensures var q := l[..|l| - 1] + r; q[..|l|] == l && q[|l| - 1..] == r
  {
  }

  lemma SplitEnds(a: seq<Point>, b: seq<Point>, left: seq<nat>, right: seq<nat>, p: Point)
    requires IsSelection(a, left) && IsSelection(b, right) && a[|a| - 1] == p == b[0]
    ensures Select(a, left)[|left| - 1] == p == Select(b, right)[0]
  {
  }
}
