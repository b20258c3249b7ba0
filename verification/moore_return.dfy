/**
 When the boundary walk of `moore_trace` is cut short: its loop ends at the first return to the start
 pixel, which need not be the return to its first stance.
 */
module MooreReturn {
  import opened Bitmaps
  import opened MooreTrace
  import opened MooreOutline

  /** The start has ink below it on both sides with nothing straight below to join them. */
  predicate ForksBelow(b: Bitmap, start: Pixel) {
    && Ink(b, Neighbour(start, 3)) && !Ink(b, Neighbour(start, 2))
    && (Ink(b, Neighbour(start, 0)) || Ink(b, Neighbour(start, 1)))
  }

  /** Going on after the last stance would repeat the first one: the stances of the walk are
      a whole cycle of the step. */
  ghost predicate IsWholeCycle(b: Bitmap, walk: seq<Stance>) {
    walk != [] && Follows(b, walk[|walk| - 1], walk[0])
  }

  /** Around the start only the directions from east clockwise to south-west can hold ink. */
  lemma StartNeighbours(b: Bitmap, start: Pixel, d: Direction)
    requires IsFirstInk(b, start) && Ink(b, Neighbour(start, d))
    ensures d <= 3
  {
  }

  /** The walk comes home from the last of the start's filled neighbours, clockwise from east, unless
      it can come up between the two arms of a fork. */
  lemma ArrivesFromLastNeighbour(b: Bitmap, start: Pixel, s: Stance)
    requires IsFirstInk(b, start) && s.at == start && IsStance(b, s) && KeepsOutsideBeside(b, s)
    requires !(ForksBelow(b, start) && IsOutside(b, Neighbour(start, 2)))
    ensures s.back <= 3 && forall d: Direction :: s.back < d ==> !Ink(b, Neighbour(start, d))
  {
    StartNeighbours(b, start, s.back);
    var below := Neighbour(start, 2);
    assert s.back <= 1 ==> s.Beside(SideTurn(s)) == below;
    assert Turn(s.back, 1) == s.back + 1;
    assert Turn(s.back, SideTurn(s)) == s.back + SideTurn(s);
    forall d: Direction | s.back < d ensures !Ink(b, Neighbour(start, d)) {
      if Ink(b, Neighbour(start, d)) {
        StartNeighbours(b, start, d);
        assert false;
      }
    }
  }

  lemma TurnPast(d: Direction, k: nat)
    requires k <= 8
    ensures Turn(d, k) == if d + k < 8 then d + k else d + k - 8
  {
  }

  lemma SameDeparture(b: Bitmap, start: Pixel, last: Stance, k: nat)
    requires IsFirstInk(b, start) && last.at == start && last.back <= 3
    requires forall d: Direction :: last.back < d ==> !Ink(b, Neighbour(start, d))
    requires FirstInkAt(b, SetOut(start), k)
    ensures Follows(b, last, SetOut(start).Leave(k))
  {
    var d := Turn(4, k);
    StartNeighbours(b, start, d);
    TurnPast(4, k);
    var l := 8 - last.back + d;
    TurnPast(last.back, l);
    TurnTwice(last.back, l, 4);
    TurnTwice(4, k, 4);
    assert last.Leave(l) == SetOut(start).Leave(k);
    assert Ink(b, Neighbour(start, d));
    hide Turn, Neighbour, Ink;
    forall j | 1 <= j < l ensures !Ink(b, last.Beside(j)) {
      TurnPast(last.back, j);
      var e := Turn(last.back, j);
      if e <= last.back {
        TurnPast(4, 4 + e);
        assert !Ink(b, SetOut(start).Beside(4 + e));
      }
    }
    assert FirstInkAt(b, last, l);
  }

  lemma WholeUnlessCut(b: Bitmap, start: Pixel, walk: seq<Stance>)
    requires IsFullWalk(b, start, walk) && walk != []
    requires !(ForksBelow(b, start) && IsOutside(b, Neighbour(start, 2)))
    ensures IsWholeCycle(b, walk)
  {
    hide Ink, Turn, Neighbour, ForksBelow, KeepsOutsideBeside, IsOutside;
    var last := walk[|walk| - 1];
    assert walk[..|walk|] == walk;
    WalkKeepsOutside(b, start, walk, |walk|);
    WalkStances(b, start, walk, |walk| - 1);
    ArrivesFromLastNeighbour(b, start, last);
    var k: nat :| FirstInkAt(b, SetOut(start), k) && walk[0] == SetOut(start).Leave(k);
    SameDeparture(b, start, last, k);
  }

  // ---------- which side of a closed chain a pixel is on ----------

  /** The edge passes above the pixel, just to the right of its column's middle. */
  predicate PassesAbove(u: Pixel, v: Pixel, p: Pixel) {
    (u.x == p.x && u.y < p.y && v.x == p.x + 1) || (v.x == p.x && v.y < p.y && u.x == p.x + 1)
  }

  /** Whether an odd number of the edges of the chain pass above the pixel. */
  predicate IsEnclosed(chain: seq<Pixel>, p: Pixel) {
    |chain| >= 2
    && IsEnclosed(chain[..|chain| - 1], p) != PassesAbove(chain[|chain| - 2], chain[|chain| - 1], p)
  }

  predicate IsInkChain(b: Bitmap, chain: seq<Pixel>) {
    && (forall i :: 0 <= i < |chain| ==> Ink(b, chain[i]))
    && (forall i :: 0 <= i < |chain| - 1 ==> Touch8(chain[i], chain[i + 1]))
  }

  lemma ChainFront(b: Bitmap, chain: seq<Pixel>)
    requires IsInkChain(b, chain) && chain != []
    ensures IsInkChain(b, chain[..|chain| - 1])
  {
  }

  lemma {:induction false} EnclosedBelow(b: Bitmap, chain: seq<Pixel>, p: Pixel)
    requires IsInkChain(b, chain) && !Ink(b, p)
    ensures IsEnclosed(chain, p) == IsEnclosed(chain, Pixel(p.x, p.y + 1))
  {
    if |chain| >= 2 {
      ChainFront(b, chain);
      EnclosedBelow(b, chain[..|chain| - 1], p);
    }
  }

  /** A pixel of the chain in column `x` above row `y`. */
  predicate IsAbove(u: Pixel, x: int, y: int) { u.x == x && u.y < y }

  /** From one column to the next only the ends of the chain make a difference. */
  lemma {:induction false} EnclosedBeside(b: Bitmap, chain: seq<Pixel>, p: Pixel)
    requires IsInkChain(b, chain) && chain != [] && !Ink(b, p) && !Ink(b, Pixel(p.x + 1, p.y))
    ensures (IsEnclosed(chain, p) != IsEnclosed(chain, Pixel(p.x + 1, p.y))) ==
            (IsAbove(chain[0], p.x + 1, p.y) != IsAbove(chain[|chain| - 1], p.x + 1, p.y))
  {
    if |chain| >= 2 {
      ChainFront(b, chain);
      EnclosedBeside(b, chain[..|chain| - 1], p);
      EdgeBeside(b, chain[|chain| - 2], chain[|chain| - 1], p);
    }
  }

  lemma EdgeBeside(b: Bitmap, u: Pixel, v: Pixel, p: Pixel)
    requires Ink(b, u) && Ink(b, v) && Touch8(u, v) && !Ink(b, p) && !Ink(b, Pixel(p.x + 1, p.y))
    ensures (PassesAbove(u, v, p) != PassesAbove(u, v, Pixel(p.x + 1, p.y))) ==
            (IsAbove(u, p.x + 1, p.y) != IsAbove(v, p.x + 1, p.y))
  {
    assert u != p && v != p && u != Pixel(p.x + 1, p.y) && v != Pixel(p.x + 1, p.y);
  }

  lemma EnclosedSpreads(b: Bitmap, chain: seq<Pixel>, p: Pixel, q: Pixel)
    requires IsInkChain(b, chain) && chain != [] && chain[0] == chain[|chain| - 1]
    requires !Ink(b, p) && !Ink(b, q) && Touch4(p, q)
    ensures IsEnclosed(chain, p) == IsEnclosed(chain, q)
  {
    hide IsEnclosed, Ink;
    if p.x == q.x {
      EnclosedBelow(b, chain, if p.y < q.y then p else q);
    } else {
      EnclosedBeside(b, chain, if p.x < q.x then p else q);
    }
  }

  lemma {:induction false} AboveAllNotEnclosed(b: Bitmap, chain: seq<Pixel>, p: Pixel)
    requires IsInkChain(b, chain) && p.y < 0
    ensures !IsEnclosed(chain, p)
  {
    if |chain| >= 2 {
      ChainFront(b, chain);
      AboveAllNotEnclosed(b, chain[..|chain| - 1], p);
    }
  }

  /** What lies outside the drawing is not enclosed by a closed chain of ink. */
  lemma {:induction false} PathNotEnclosed(b: Bitmap, chain: seq<Pixel>, path: seq<Pixel>)
    requires IsInkChain(b, chain) && chain != [] && chain[0] == chain[|chain| - 1]
    requires IsBackgroundPath(b, path) && path[|path| - 1].y < 0
    ensures !IsEnclosed(chain, path[0])
  {
    hide IsEnclosed, Ink, IsInkChain;
    if |path| == 1 {
      AboveAllNotEnclosed(b, chain, path[0]);
    } else {
      assert IsBackgroundPath(b, path[1..]);
      PathNotEnclosed(b, chain, path[1..]);
      EnclosedSpreads(b, chain, path[0], path[1]);
    }
  }

  lemma OutsideNotEnclosed(b: Bitmap, chain: seq<Pixel>, p: Pixel)
    requires IsInkChain(b, chain) && chain != [] && chain[0] == chain[|chain| - 1] && IsOutside(b, p)
    ensures !IsEnclosed(chain, p)
  {
    hide IsEnclosed, IsInkChain;
    var path: seq<Pixel> :| IsBackgroundPath(b, path) && path[0] == p && path[|path| - 1].y < 0;
    PathNotEnclosed(b, chain, path);
  }

  // ---------- a whole walk that forks encloses the pixel below its start ----------

  /** A chain that leaves the start to the right and has not come back encloses the pixel below it:
      only the start is above that pixel in its column. */
  lemma {:induction false} EnclosesBelowStart(b: Bitmap, start: Pixel, chain: seq<Pixel>, n: nat)
    requires IsFirstInk(b, start) && IsInkChain(b, chain) && 2 <= n <= |chain|
    requires chain[0] == start && chain[1].x == start.x + 1 && forall i :: 0 < i < n ==> chain[i] != start
    ensures IsEnclosed(chain[..n], Neighbour(start, 2))
  {
    var q := Neighbour(start, 2);
    assert chain[..n][..n - 1] == chain[..n - 1];
    assert forall u: Pixel :: Ink(b, u) && u.x == q.x && u.y < q.y ==> u == start;
    if n == 2 {
      assert !IsEnclosed(chain[..1], q);
    } else {
      EnclosesBelowStart(b, start, chain, n - 1);
    }
  }

  /** Setting out, the search from the west meets the right arm first. */
  lemma FirstArm(b: Bitmap, start: Pixel, k: nat)
    requires IsFirstInk(b, start) && ForksBelow(b, start) && FirstInkAt(b, SetOut(start), k)
    ensures Turn(4, k) == if Ink(b, Neighbour(start, 0)) then 0 else 1
  {
    assert Turn(4, 4) == 0 && Turn(4, 5) == 1;
    var east, southEast := SetOut(start).Beside(4), SetOut(start).Beside(5);
    assert Ink(b, east) || Ink(b, southEast);
    StartNeighbours(b, start, Turn(4, k));
  }

  /** Coming home from the right arm, the search does not get past the left one. */
  lemma LeftArmComesNext(b: Bitmap, last: Stance, l: nat)
    requires last.back <= 1 && Ink(b, Neighbour(last.at, 3)) && FirstInkAt(b, last, l)
    ensures Turn(last.back, l) == last.back + l <= 3
  {
    assert Turn(last.back, 3 - last.back) == 3;
    var arm := last.Beside(3 - last.back);
    assert Ink(b, arm);
  }

  /** A forked walk that would go on to its first stance has come home from the left arm. */
  lemma ReturnsFromLeftArm(b: Bitmap, start: Pixel, last: Stance, t: Stance)
    requires IsFirstInk(b, start) && ForksBelow(b, start) && last.at == start && IsStance(b, last)
    requires Follows(b, SetOut(start), t) && Follows(b, last, t)
    ensures last.back == 3
  {
    var k: nat :| FirstInkAt(b, SetOut(start), k) && t == SetOut(start).Leave(k);
    var l: nat :| FirstInkAt(b, last, l) && t == last.Leave(l);
    FirstArm(b, start, k);
    StartNeighbours(b, start, last.back);
    ArrivalFixesDeparture(SetOut(start), k, last, l);
    hide Turn;
    if last.back <= 1 {
      LeftArmComesNext(b, last, l);
    }
  }

  /** If the pixel straight below a forked start is open to the outside, the walk never gets to the left
      arm, which is next to the start and on the outer edge like the right one. */
  lemma CutLosesLeftArm(b: Bitmap, start: Pixel, walk: seq<Stance>)
    requires IsFullWalk(b, start, walk) && walk != [] && ForksBelow(b, start) && IsOutside(b, Neighbour(start, 2))
    ensures Neighbour(start, 3) !in Outline(start, walk)
    ensures Ink(b, Neighbour(start, 3)) && Touch8(Neighbour(start, 3), start)
    ensures Touch4(Neighbour(start, 3), Neighbour(start, 4)) && IsOutside(b, Neighbour(start, 4))
  {
    WestIsOutside(b, start);
    var c := Outline(start, walk);
    if Neighbour(start, 3) in c {
      var i :| 0 <= i < |c| && c[i] == Neighbour(start, 3);
      ReachedArmEncloses(b, start, walk, i);
      OutsideNotEnclosed(b, c[..i + 1] + [start], Neighbour(start, 2));
      assert false;
    }
  }

  lemma WestIsOutside(b: Bitmap, start: Pixel)
    requires IsFirstInk(b, start)
    ensures IsOutside(b, Neighbour(start, 4))
  {
    AboveInkIsOutside(b, Pixel(start.x - 1, start.y - 1));
    OutsideSpreads(b, Neighbour(start, 4), Pixel(start.x - 1, start.y - 1));
  }

  lemma OutlineIsInkChain(b: Bitmap, start: Pixel, walk: seq<Stance>)
    requires IsFullWalk(b, start, walk)
    ensures IsInkChain(b, Outline(start, walk))
  {
    ContourIsClosedChain(b, start, walk);
  }

  lemma ClosedUp(b: Bitmap, chain: seq<Pixel>, n: nat, p: Pixel)
    requires IsInkChain(b, chain) && 0 < n <= |chain| && Ink(b, p) && Touch8(chain[n - 1], p)
    ensures IsInkChain(b, chain[..n] + [p])
  {
    hide Ink, Touch8;
  }

  lemma ReachedArmEncloses(b: Bitmap, start: Pixel, walk: seq<Stance>, i: nat)
    requires IsFullWalk(b, start, walk) && walk != [] && ForksBelow(b, start)
    requires i < |Outline(start, walk)| && Outline(start, walk)[i] == Neighbour(start, 3)
    ensures var chain := Outline(start, walk)[..i + 1] + [start];
            IsInkChain(b, chain) && chain[0] == start && IsEnclosed(chain, Neighbour(start, 2))
  {
    var c := Outline(start, walk);
    OutlineIsInkChain(b, start, walk);
    SetsOutRight(b, start, walk);
    ClosedUp(b, c, i + 1, start);
    assert c[0] == start && (forall j :: 0 < j <= i ==> c[j] != start) && c[1] == walk[0].at;
    hide IsInkChain, Outline, IsFullWalk, ForksBelow;
    EnclosesBelowStart(b, start, c, i + 1);
    var chain := c[..i + 1] + [start];
    assert chain[..|chain| - 1] == c[..i + 1];
  }

  lemma SetsOutRight(b: Bitmap, start: Pixel, walk: seq<Stance>)
    requires IsWalk(b, start, walk) && walk != [] && ForksBelow(b, start)
    ensures walk[0].at.x == start.x + 1
  {
    var k: nat :| FirstInkAt(b, SetOut(start), k) && walk[0] == SetOut(start).Leave(k);
    FirstArm(b, start, k);
  }

  lemma WholeReachesLeftArm(b: Bitmap, start: Pixel, walk: seq<Stance>)
    requires IsFullWalk(b, start, walk) && ForksBelow(b, start) && IsWholeCycle(b, walk)
    ensures Neighbour(start, 3) in Outline(start, walk)
  {
    var n := |walk|;
    ContourIsClosedChain(b, start, walk);
    WalkStances(b, start, walk, n - 1);
    ReturnsFromLeftArm(b, start, walk[n - 1], walk[0]);
    WalkArrives(b, start, walk);
    OutlinePoint(start, walk, n - 1);
    assert Outline(start, walk)[n - 1] in Outline(start, walk);
  }

  lemma WalkArrives(b: Bitmap, start: Pixel, walk: seq<Stance>)
    requires IsWalk(b, start, walk) && walk != []
    ensures var last := walk[|walk| - 1];
            Neighbour(last.at, last.back) == Tip(start, walk[..|walk| - 1]).at
  {
    var from := Tip(start, walk[..|walk| - 1]);
    assert Follows(b, from, walk[|walk| - 1]);
    var k: nat :| FirstInkAt(b, from, k) && walk[|walk| - 1] == from.Leave(k);
    LeaveRemembersDeparture(from, k);
  }

  /** The walk is cut short exactly if its start has ink below it on both sides and the pixel between
      them, straight below the start, is open to the outside. */
  lemma WalkIsWholeIff(b: Bitmap, start: Pixel, walk: seq<Stance>)
    requires IsFullWalk(b, start, walk) && walk != []
    ensures IsWholeCycle(b, walk) <==> !(ForksBelow(b, start) && IsOutside(b, Neighbour(start, 2)))
  {
    hide *;
    if ForksBelow(b, start) && IsOutside(b, Neighbour(start, 2)) {
      CutLosesLeftArm(b, start, walk);
      if IsWholeCycle(b, walk) {
        WholeReachesLeftArm(b, start, walk);
      }
    } else {
      WholeUnlessCut(b, start, walk);
    }
  }

  // ---------- an image that is cut short ----------

  /** Ink at the top with one pixel below it on each side. */
  const FORK: Bitmap := [[false, true, false],
                         [true, false, true]]

  /** The condition is needed: on the fork the walk is back at the start after visiting only the
      right arm, so the left arm, just as much on the outer edge, is missing from the contour. */
  lemma ForkIsCutShort(start: Pixel, walk: seq<Stance>)
    requires IsFullWalk(FORK, start, walk)
    ensures ForksBelow(FORK, start)
    ensures Outline(start, walk) == [Pixel(1, 0), Pixel(2, 1)]
    ensures Ink(FORK, Pixel(0, 1)) && Touch8(Pixel(0, 1), start) && IsOutside(FORK, Pixel(0, 0)) &&
              Touch4(Pixel(0, 1), Pixel(0, 0))
    ensures !IsWholeCycle(FORK, walk)
  {
    var s := Pixel(1, 0);
    assert Ink(FORK, s);
    assert IsFirstInk(FORK, s);
    assert start == s by {
      assert Ink(FORK, start);
    }
    ForkFirstStep();
    ForkSecondStep();
    ForkThirdStep();
    var w := [Stance(Pixel(2, 1), 5), Stance(s, 1)];
    assert IsFullWalk(FORK, s, w);
    if |walk| <= 2 {
      FullWalkIsUnique(FORK, s, walk, w);
    } else {
      FullWalkIsUnique(FORK, s, w, walk);
    }
    assert Outline(s, w) == [s, Pixel(2, 1)];
    ForkOutside();
    if IsWholeCycle(FORK, walk) {
      StepIsDeterministic(FORK, Stance(s, 1), w[0], Stance(Pixel(0, 1), 7));
    }
  }

  lemma ForkFirstStep()
    ensures Follows(FORK, SetOut(Pixel(1, 0)), Stance(Pixel(2, 1), 5))
  {
    assert FirstInkAt(FORK, SetOut(Pixel(1, 0)), 5);
  }

  lemma ForkSecondStep()
    ensures Follows(FORK, Stance(Pixel(2, 1), 5), Stance(Pixel(1, 0), 1))
  {
    assert FirstInkAt(FORK, Stance(Pixel(2, 1), 5), 8);
  }

  lemma ForkThirdStep()
    ensures Follows(FORK, Stance(Pixel(1, 0), 1), Stance(Pixel(0, 1), 7))
  {
    assert FirstInkAt(FORK, Stance(Pixel(1, 0), 1), 2);
  }

  lemma ForkOutside()
    ensures IsOutside(FORK, Pixel(0, 0))
  {
    var path := [Pixel(0, 0), Pixel(0, -1)];
    assert IsBackgroundPath(FORK, path) && path[0] == Pixel(0, 0) && path[|path| - 1].y < 0;
  }
}
