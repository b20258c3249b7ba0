/**
 What the contour returned by the boundary walk is: a closed chain of neighbouring filled pixels
 along the outer edge of the drawing, never along a hole, and never longer than the number of
 stances. Also when the walk stops too early.
 */
module MooreOutline {
  import opened Bitmaps
  import opened MooreTrace

  // ---------- the contour is a closed chain ----------

  lemma NeighboursTouch(p: Pixel, d: Direction)
    ensures Touch8(p, Neighbour(p, d))
  {
  }

  lemma StepTouches(b: Bitmap, s: Stance, t: Stance)
    requires Follows(b, s, t)
    ensures Touch8(s.at, t.at) && Ink(b, t.at)
  {
    var k: nat :| FirstInkAt(b, s, k) && t == s.Leave(k);
    NeighboursTouch(s.at, Turn(s.back, k));
  }

  /** Point `i` of the outline is where the walk stands after `i` steps. */
  lemma OutlinePoint(start: Pixel, walk: seq<Stance>, i: nat)
    requires i < |Outline(start, walk)|
    ensures i <= |walk| && Outline(start, walk)[i] == Tip(start, walk[..i]).at
  {
  }

  lemma WalkStep(b: Bitmap, start: Pixel, walk: seq<Stance>, i: nat)
    requires IsWalk(b, start, walk) && i < |walk|
    ensures Touch8(Tip(start, walk[..i]).at, walk[i].at) && Ink(b, walk[i].at)
    ensures Tip(start, walk[..i + 1]) == walk[i]
  {
    StepTouches(b, Tip(start, walk[..i]), walk[i]);
  }

  /** Every contour point is filled, neighbours along the contour touch, the last one touches the
      first, and there are at most eight points for each filled pixel. */
  lemma ContourIsClosedChain(b: Bitmap, start: Pixel, walk: seq<Stance>)
    requires IsFullWalk(b, start, walk)
    ensures forall i :: 0 <= i < |Outline(start, walk)| ==> Ink(b, Outline(start, walk)[i])
    ensures forall i :: 0 <= i < |Outline(start, walk)| - 1 ==>
              Touch8(Outline(start, walk)[i], Outline(start, walk)[i + 1])
    ensures walk != [] ==> |walk| == |Outline(start, walk)| > 1 && Touch8(Outline(start, walk)[|walk| - 1], start)
    ensures |Outline(start, walk)| <= 8 * |InkSet(b)|
  {
    var c := Outline(start, walk);
    WalkLength(b, start, walk);
    assert start in InkSet(b);
    assert |InkSet(b)| > 0;
    if walk != [] {
      WalkStep(b, start, walk, |walk| - 1);
      OutlinePoint(start, walk, |walk| - 1);
    }
    hide Touch8, Ink, Follows, Tip;
    forall i | 0 <= i < |c| ensures Ink(b, c[i]) && (i < |c| - 1 ==> Touch8(c[i], c[i + 1])) {
      OutlinePoint(start, walk, i);
      if i > 0 { WalkStep(b, start, walk, i - 1); }
      if i < |c| - 1 {
        OutlinePoint(start, walk, i + 1);
        WalkStep(b, start, walk, i);
      }
    }
  }

  // ---------- the walk is determined by the image ----------

  /** Two full walks over one image are the same, so the contour is a function of the image. */
  lemma FullWalkIsUnique(b: Bitmap, start: Pixel, v: seq<Stance>, w: seq<Stance>)
    requires IsFullWalk(b, start, v) && IsFullWalk(b, start, w) && |v| <= |w|
    ensures v == w
  {
    FullWalksAgree(b, start, v, w, |v|);
  }

  lemma {:induction false} FullWalksAgree(b: Bitmap, start: Pixel, v: seq<Stance>, w: seq<Stance>, n: nat)
    requires IsWalk(b, start, v) && IsWalk(b, start, w) && n <= |v| && n <= |w|
    ensures v[..n] == w[..n]
  {
    if n == 0 {
    } else {
      FullWalksAgree(b, start, v, w, n - 1);
      var from := Tip(start, v[..n - 1]);
      assert from == Tip(start, w[..n - 1]);
      StepIsDeterministic(b, from, v[n - 1], w[n - 1]);
      assert v[..n] == v[..n - 1] + [v[n - 1]] && w[..n] == w[..n - 1] + [w[n - 1]];
    }
  }

  // ---------- only the outer edge is followed ----------

  /** A stance keeps the outside at its side: the pixel next to the back direction is empty,
      after an edge step the one after it too, and of these the one that shares an edge with the
      stance lies outside. */
  function SideTurn(s: Stance): nat { if s.back % 2 == 0 then 2 else 1 }

  ghost predicate KeepsOutsideBeside(b: Bitmap, s: Stance) {
    !Ink(b, s.Beside(1)) && !Ink(b, s.Beside(SideTurn(s))) && IsOutside(b, s.Beside(SideTurn(s)))
  }

  lemma RingStep(s: Stance, j: nat)
    ensures Touch4(s.Beside(j + 1), s.Beside(j))
  {
    var d := Turn(s.back, j);
    assert Turn(s.back, j + 1) == Turn(d, 1);
  }

  /** Along the empty arc that a search sweeps over, being outside carries on. */
  lemma {:induction false} OutsideAlongArc(b: Bitmap, s: Stance, i: nat, j: nat, k: nat)
    requires 1 <= i <= j < k && NoInkBefore(b, s, k) && IsOutside(b, s.Beside(i))
    ensures IsOutside(b, s.Beside(j))
    decreases j
  {
    hide IsOutside, Ink, Turn, Neighbour, Touch4, Stance.Beside;
    if i < j {
      OutsideAlongArc(b, s, i, j - 1, k);
      RingStep(s, j - 1);
      OutsideSpreads(b, s.Beside(j), s.Beside(j - 1));
    }
  }

  lemma TurnTwice(d: Direction, m: nat, n: nat)
    ensures Turn(Turn(d, m), n) == Turn(d, m + n)
    ensures m >= 8 ==> Turn(d, m) == Turn(d, m - 8)
  {
  }

  lemma TurnParity(d: Direction, k: nat)
    ensures Turn(d, k) % 2 == (d + k) % 2
  {
  }

  /** Seen from the pixel just entered, the two pixels clockwise of the way back are the two that
      lie anticlockwise of the way taken. */
  lemma SideGeometry(p: Pixel, d: Direction)
    ensures d % 2 == 1 ==> Neighbour(Neighbour(p, d), Turn(d, 5)) == Neighbour(p, Turn(d, 7))
    ensures d % 2 == 0 ==> Neighbour(Neighbour(p, d), Turn(d, 6)) == Neighbour(p, Turn(d, 7))
    ensures d % 2 == 0 ==> Neighbour(Neighbour(p, d), Turn(d, 5)) == Neighbour(p, Turn(d, 6))
  {
  }

  /** The pixels beside the new stance are the last ones swept over around the old one. */
  lemma SideAfterStep(s: Stance, k: nat)
    requires 2 <= k <= 8
    ensures var t := s.Leave(k); t.Beside(SideTurn(t)) == s.Beside(k - 1)
    ensures var t := s.Leave(k); t.back % 2 == 0 ==> t.Beside(1) == s.Beside(k - 2)
    ensures s.Leave(k).back % 2 == (s.back + k) % 2
  {
    var d, t := Turn(s.back, k), s.Leave(k);
    SideGeometry(s.at, d);
    hide Turn, Neighbour;
    TurnParity(s.back, k);
    TurnParity(s.back, k + 4);
    TurnTwice(s.back, k, 7);
    TurnTwice(s.back, k + 7, 0);
    TurnTwice(s.back, k, 6);
    TurnTwice(s.back, k + 6, 0);
    TurnTwice(s.back, k, 4);
    TurnTwice(d, 4, 1);
    TurnTwice(d, 4, 2);
  }

  lemma StepKeepsOutside(b: Bitmap, s: Stance, t: Stance)
    requires KeepsOutsideBeside(b, s) && Follows(b, s, t)
    ensures KeepsOutsideBeside(b, t)
  {
    hide Turn, Neighbour, Ink, IsOutside;
    var k: nat :| FirstInkAt(b, s, k) && t == s.Leave(k);
    var i := SideTurn(s);
    assert k != 1 && k != i;
    SideAfterStep(s, k);
    OutsideAlongArc(b, s, i, k - 1, k);
    assert !Ink(b, s.Beside(k - 1));
    if t.back % 2 == 0 {
      assert !Ink(b, s.Beside(k - 2));
    }
  }

  lemma SetOutKeepsOutside(b: Bitmap, start: Pixel)
    requires IsFirstInk(b, start)
    ensures KeepsOutsideBeside(b, SetOut(start))
  {
    assert SetOut(start).Beside(1) == Pixel(start.x - 1, start.y - 1);
    assert SetOut(start).Beside(2) == Pixel(start.x, start.y - 1);
    AboveInkIsOutside(b, Pixel(start.x, start.y - 1));
  }

  lemma {:induction false} WalkKeepsOutside(b: Bitmap, start: Pixel, walk: seq<Stance>, i: nat)
    requires IsWalk(b, start, walk) && i <= |walk|
    ensures KeepsOutsideBeside(b, Tip(start, walk[..i]))
  {
    if i == 0 {
      SetOutKeepsOutside(b, start);
    } else {
      WalkKeepsOutside(b, start, walk, i - 1);
      StepKeepsOutside(b, Tip(start, walk[..i - 1]), walk[i - 1]);
    }
  }

  lemma SideSharesEdge(s: Stance)
    ensures Touch4(s.at, s.Beside(SideTurn(s)))
  {
  }

  /** Every contour point shares an edge with an unfilled pixel from which the surroundings of
      the image can be reached: the walk never follows the rim of a hole. */
  lemma ContourFollowsOuterEdge(b: Bitmap, start: Pixel, walk: seq<Stance>, i: nat)
    requires IsFullWalk(b, start, walk) && i < |Outline(start, walk)|
    ensures exists q :: Touch4(Outline(start, walk)[i], q) && !Ink(b, q) && IsOutside(b, q)
  {
    hide Turn, Neighbour, Ink, IsOutside, Touch4;
    WalkKeepsOutside(b, start, walk, i);
    var s := Tip(start, walk[..i]);
    SideSharesEdge(s);
    assert Outline(start, walk)[i] == s.at;
  }
}
