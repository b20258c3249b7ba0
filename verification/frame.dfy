/**
 The outline of one sprite (the chain of tracing, simplifying and smoothing in `trace_frame` of
 scripts/build-crew-vibes-font.py). Trimming and scaling are not part of this model.
 */
module Frame {
  import opened Bitmaps
  import opened MooreOutline
  import opened MooreTrace
  import opened Simplify
  import opened Smooth
  import opened Wrappers

  const TOLERANCE: real := 1.5
  const ROUNDS: nat := 2
  const LEAST_POINTS: nat := 6

  function Centre(p: Pixel): Point { Point(p.x as real, p.y as real) }

  /** The traced pixels as points, closed by the first one. */
  function Closed(contour: seq<Pixel>): (chain: seq<Point>)
    requires contour != []
    ensures |chain| == |contour| + 1 && chain[0] == chain[|contour|] == Centre(contour[0])
  {
    seq(|contour|, i requires 0 <= i < |contour| => Centre(contour[i])) + [Centre(contour[0])]
  }

  function Drawn(contour: seq<Pixel>): Option<seq<Point>> {
    if |contour| < LEAST_POINTS then None
    else
      var simple := Simplified(Closed(contour), TOLERANCE);
      if simple == [] then None
      else
        var smooth := Smoothed(simple, ROUNDS);
        if |smooth| < LEAST_POINTS then None else Some(smooth)
  }

  method Draw(sub: Bitmap) returns (pts: Option<seq<Point>>, ghost walk: seq<Stance>, ghost contour: seq<Pixel>)
    requires IsRectangular(sub)
    ensures contour == [] <==> forall p :: !Ink(sub, p)
    ensures contour != [] ==> IsFullWalk(sub, contour[0], walk) && contour == Outline(contour[0], walk)
    ensures pts == Drawn(contour)
  {
    var chain: seq<Pixel>;
    chain, walk := Trace(sub);
    contour := chain;
    if |chain| < LEAST_POINTS {
      return None, walk, contour;
    }
    var points := [];
    for i := 0 to |chain|
      invariant points == Closed(chain)[..i]
    {
      points := points + [Centre(chain[i])];
    }
    points := points + [Centre(chain[0])];
    assert points == Closed(chain);
    KeepsEnds(points);
    var simple := DouglasPeucker(points, TOLERANCE);
    var smooth := Chaikin(simple, ROUNDS);
    pts := if |smooth| < LEAST_POINTS then None else Some(smooth);
  }

  lemma KeepsEnds(points: seq<Point>)
    requires |points| >= 2
    ensures var s := Simplified(points, TOLERANCE);
            |s| >= 2 && s[0] == points[0] && s[|s| - 1] == points[|points| - 1]
  {
    var kept := SimplifiedFits(points, TOLERANCE);
  }

  /** What is drawn is a closed outline that begins at the first inked pixel and stays in every half-plane
      that holds the ink, so the glyph never grows beyond the convex hull of the sprite. There is one
      exactly if at least six pixels were traced: the second test of the length never fails. */
  lemma OutlineIsClosedInHull(b: Bitmap, start: Pixel, walk: seq<Stance>, h: HalfPlane)
    requires IsFullWalk(b, start, walk)
    requires forall p :: Ink(b, p) ==> h.Has(Centre(p))
    ensures var drawn := Drawn(Outline(start, walk));
            && (drawn.Some? <==> |Outline(start, walk)| >= LEAST_POINTS)
            && (drawn.Some? ==>
                  && |drawn.value| >= 8 && drawn.value[0] == drawn.value[|drawn.value| - 1] == Centre(start)
                  && AllIn(drawn.value, h))
  {
    var contour := Outline(start, walk);
    ContourIsClosedChain(b, start, walk);
    ChainStaysIn(b, contour, h);
    assert contour[0] == start;
    hide IsFullWalk, Outline, Ink;
    if |contour| >= LEAST_POINTS {
      SmoothOutline(Closed(contour), h);
    }
  }

  lemma SmoothOutline(chain: seq<Point>, h: HalfPlane)
    requires |chain| >= 2 && AllIn(chain, h)
    ensures |Simplified(chain, TOLERANCE)| >= 2
    ensures var smooth := Smoothed(Simplified(chain, TOLERANCE), ROUNDS);
            && |smooth| >= 8 && AllIn(smooth, h)
            && smooth[0] == chain[0] && smooth[|smooth| - 1] == chain[|chain| - 1]
  {
    hide Simplified, Smoothed;
    KeepsEnds(chain);
    SmoothedEnds(Simplified(chain, TOLERANCE), ROUNDS);
    TwoRounds();
    OutlineStaysInHull(chain, TOLERANCE, ROUNDS, h);
  }

  lemma TwoRounds()
    ensures Pow2(ROUNDS) == 4
  {
  }

  lemma ChainStaysIn(b: Bitmap, contour: seq<Pixel>, h: HalfPlane)
    requires contour != [] && forall i :: 0 <= i < |contour| ==> Ink(b, contour[i])
    requires forall p :: Ink(b, p) ==> h.Has(Centre(p))
    ensures AllIn(Closed(contour), h)
  {
    hide Ink;
    forall p | p in Closed(contour) ensures h.Has(p) {
      var i :| 0 <= i < |Closed(contour)| && Closed(contour)[i] == p;
      assert p == Centre(contour[if i < |contour| then i else 0]);
    }
  }
}
