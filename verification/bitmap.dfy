/** Black-and-white images as the sprite tracer sees them: rows of booleans, `true` is ink. */
module Bitmaps {
  type Bitmap = seq<seq<bool>>

  datatype Pixel = Pixel(x: int, y: int)

  function Width(b: Bitmap): nat { if b == [] then 0 else |b[0]| }

  predicate IsRectangular(b: Bitmap) {
    forall y :: 0 <= y < |b| ==> |b[y]| == Width(b)
  }

  /** The pixel lies inside the image and is filled. */
  predicate Ink(b: Bitmap, p: Pixel) {
    0 <= p.y < |b| && 0 <= p.x < |b[p.y]| && b[p.y][p.x]
  }

  ghost function InkSet(b: Bitmap): (s: set<Pixel>)
    ensures forall p :: p in s <==> Ink(b, p)
  {
    set x, y | 0 <= y < |b| && 0 <= x < |b[y]| && b[y][x] :: Pixel(x, y)
  }

  /** The two pixels share an edge. */
  predicate Touch4(p: Pixel, q: Pixel) {
    (p.x == q.x && (p.y == q.y + 1 || q.y == p.y + 1)) || (p.y == q.y && (p.x == q.x + 1 || q.x == p.x + 1))
  }

  /** The two pixels differ and share an edge or a corner. */
  predicate Touch8(p: Pixel, q: Pixel) {
    p != q && -1 <= p.x - q.x <= 1 && -1 <= p.y - q.y <= 1
  }

  // ---------- the background outside a drawing ----------

  ghost predicate IsBackgroundPath(b: Bitmap, path: seq<Pixel>) {
    && path != []
    && (forall p <- path :: !Ink(b, p))
    && forall i :: 0 <= i < |path| - 1 ==> Touch4(path[i], path[i + 1])
  }

  /** An unfilled pixel from which edge steps over unfilled pixels lead out of the image. */
  ghost predicate IsOutside(b: Bitmap, p: Pixel) {
    exists path: seq<Pixel> :: IsBackgroundPath(b, path) && path[0] == p && path[|path| - 1].y < 0
  }

  lemma OutsideSpreads(b: Bitmap, p: Pixel, q: Pixel)
    requires IsOutside(b, q) && !Ink(b, p) && Touch4(p, q)
    ensures IsOutside(b, p)
  {
    var path: seq<Pixel> :| IsBackgroundPath(b, path) && path[0] == q && path[|path| - 1].y < 0;
    var longer := [p] + path;
    assert IsBackgroundPath(b, longer) && longer[0] == p && longer[|longer| - 1].y < 0;
  }

  /** Everything above the topmost ink is outside. */
  lemma {:induction false} AboveInkIsOutside(b: Bitmap, p: Pixel)
    requires forall q: Pixel :: q.y <= p.y ==> !Ink(b, q)
    ensures IsOutside(b, p)
    decreases p.y + 1
  {
    if p.y < 0 {
      assert IsBackgroundPath(b, [p]) && [p][0] == p && [p][|[p]| - 1].y < 0;
    } else {
      AboveInkIsOutside(b, Pixel(p.x, p.y - 1));
      OutsideSpreads(b, p, Pixel(p.x, p.y - 1));
    }
  }
}
