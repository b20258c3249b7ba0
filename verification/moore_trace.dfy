/**
 Boundary walk over a bitmap (`moore_trace` in scripts/build-crew-vibes-font.py).

 A stance is a filled pixel together with the direction the walk came from. Where that direction
 points back at a filled pixel the step from one stance to the next is injective, and that is
 what makes the unbounded loop end: the walk cannot run into itself without passing the start.
 */
module MooreTrace {
  import opened Bitmaps

  type Direction = d: nat | d < 8

  /** Directions clockwise on the screen (y grows downwards): east is 0, south 2, west 4, north 6. */
  function Neighbour(p: Pixel, d: Direction): Pixel {
    match d
    case 0 => Pixel(p.x + 1, p.y)
    case 1 => Pixel(p.x + 1, p.y + 1)
    case 2 => Pixel(p.x, p.y + 1)
    case 3 => Pixel(p.x - 1, p.y + 1)
    case 4 => Pixel(p.x - 1, p.y)
    case 5 => Pixel(p.x - 1, p.y - 1)
    case 6 => Pixel(p.x, p.y - 1)
    case _ => Pixel(p.x + 1, p.y - 1)
  }

  function Turn(d: Direction, k: nat): Direction { (d + k) % 8 }

  datatype Stance = Stance(at: Pixel, back: Direction) {
    function Beside(k: nat): Pixel { Neighbour(at, Turn(back, k)) }

    /** Where the walk stands after leaving clockwise by `k` eighths from the back direction. */
    function Leave(k: nat): Stance { Stance(Beside(k), Turn(back, k + 4)) }
  }

  predicate NoInkBefore(b: Bitmap, s: Stance, k: nat) {
    forall j :: 1 <= j < k ==> !Ink(b, s.Beside(j))
  }

  /** Searching clockwise from the back direction, the `k`-th neighbour is the first filled one. */
  predicate FirstInkAt(b: Bitmap, s: Stance, k: nat) {
    1 <= k <= 8 && Ink(b, s.Beside(k)) && NoInkBefore(b, s, k)
  }

  ghost predicate Follows(b: Bitmap, s: Stance, t: Stance) {
    exists k: nat :: FirstInkAt(b, s, k) && t == s.Leave(k)
  }

  /** A filled pixel whose back direction points at a filled pixel. */
  predicate IsStance(b: Bitmap, s: Stance) {
    Ink(b, s.at) && Ink(b, Neighbour(s.at, s.back))
  }

  // ---------- the step is injective ----------

  lemma LeaveRemembersDeparture(s: Stance, k: nat)
    ensures Neighbour(s.Leave(k).at, s.Leave(k).back) == s.at
    ensures Turn(s.Leave(k).back, 4) == Turn(s.back, k)
  {
  }

  /** Equal arrivals come from one pixel, left in one direction. */
  lemma ArrivalFixesDeparture(s: Stance, k: nat, t: Stance, l: nat)
    requires s.Leave(k) == t.Leave(l)
    ensures s.at == t.at && Turn(s.back, k) == Turn(t.back, l)
  {
    LeaveRemembersDeparture(s, k);
    LeaveRemembersDeparture(t, l);
  }

  lemma TurnDifference(d: Direction, k: nat, e: Direction, l: nat)
    requires k <= l <= 8 && Turn(d, k) == Turn(e, l)
    ensures d == Turn(e, l - k)
  {
  }

  /** Of two departures from one pixel in one direction, the shorter search sets the back
      direction: a longer one would have met that filled pixel first. */
  lemma SearchesAgree(b: Bitmap, s: Stance, k: nat, t: Stance, l: nat)
    requires s.at == t.at && Turn(s.back, k) == Turn(t.back, l)
    requires Ink(b, Neighbour(s.at, s.back)) && FirstInkAt(b, t, l) && 1 <= k <= l
    ensures s == t
  {
    TurnDifference(s.back, k, t.back, l);
    assert Ink(b, t.Beside(l - k));
    assert Turn(t.back, 0) == t.back;
  }

  lemma StepIsInjective(b: Bitmap, s: Stance, t: Stance, u: Stance)
    requires IsStance(b, s) && IsStance(b, t)
    requires Follows(b, s, u) && Follows(b, t, u)
    ensures s == t
  {
    hide Turn, Neighbour, Ink;
    var k: nat :| FirstInkAt(b, s, k) && u == s.Leave(k);
    var l: nat :| FirstInkAt(b, t, l) && u == t.Leave(l);
    ArrivalFixesDeparture(s, k, t, l);
    if k <= l {
      SearchesAgree(b, s, k, t, l);
    } else {
      SearchesAgree(b, t, l, s, k);
    }
  }

  lemma StepIsTotal(b: Bitmap, s: Stance)
    requires IsStance(b, s)
    ensures exists t :: Follows(b, s, t) && IsStance(b, t)
  {
    assert Turn(s.back, 8) == s.back;
    assert Ink(b, s.Beside(8));
    hide Ink, Neighbour, Turn;
    var k := 1;
    while !Ink(b, s.Beside(k))
      invariant 1 <= k <= 8
      invariant forall j :: 1 <= j < k ==> !Ink(b, s.Beside(j))
      decreases 8 - k
    {
      k := k + 1;
    }
    assert FirstInkAt(b, s, k);
    LeaveRemembersDeparture(s, k);
    assert Follows(b, s, s.Leave(k));
  }

  lemma StepIsDeterministic(b: Bitmap, s: Stance, t: Stance, u: Stance)
    requires Follows(b, s, t) && Follows(b, s, u)
    ensures t == u
  {
    var k: nat :| FirstInkAt(b, s, k) && t == s.Leave(k);
    var l: nat :| FirstInkAt(b, s, l) && u == s.Leave(l);
    assert k == l;
  }

  // ---------- walks ----------

  /** The first filled pixel in reading order: the start of the walk. */
  ghost predicate IsFirstInk(b: Bitmap, p: Pixel) {
    Ink(b, p) && forall q: Pixel :: q.y < p.y || (q.y == p.y && q.x < p.x) ==> !Ink(b, q)
  }

  /** The walk sets out as if it had come from the west. */
  function SetOut(start: Pixel): Stance { Stance(start, 4) }

  /** The stances taken one after the other, not counting the one at the start; none of them but
      possibly the last is back at the start. */
  ghost predicate IsWalk(b: Bitmap, start: Pixel, walk: seq<Stance>) {
    && IsFirstInk(b, start)
    && (walk != [] ==> Follows(b, SetOut(start), walk[0]))
    && (forall i :: 0 <= i < |walk| - 1 ==> Follows(b, walk[i], walk[i + 1]))
    && (forall i :: 0 <= i < |walk| - 1 ==> walk[i].at != start)
  }

  /** A walk that went on as far as the loop goes: back to the start, or nowhere at all because
      the start has no filled neighbour. */
  ghost predicate IsFullWalk(b: Bitmap, start: Pixel, walk: seq<Stance>) {
    && IsWalk(b, start, walk)
    && (walk == [] ==> forall d: Direction :: !Ink(b, Neighbour(start, d)))
    && (walk != [] ==> walk[|walk| - 1].at == start)
  }

  /** The pixels of a walk, the start first and not repeated at the end. */
  function Outline(start: Pixel, walk: seq<Stance>): seq<Pixel> {
    [start] + seq(if walk == [] then 0 else |walk| - 1, i requires 0 <= i < |walk| => walk[i].at)
  }

  lemma {:induction false} WalkStances(b: Bitmap, start: Pixel, walk: seq<Stance>, i: nat)
    requires IsWalk(b, start, walk) && i < |walk|
    ensures IsStance(b, walk[i])
  {
    var from := if i == 0 then SetOut(start) else walk[i - 1];
    if i > 0 {
      WalkStances(b, start, walk, i - 1);
    }
    assert Follows(b, from, walk[i]);
    var k: nat :| FirstInkAt(b, from, k) && walk[i] == from.Leave(k);
    LeaveRemembersDeparture(from, k);
  }

  /** No stance occurs twice: going back along both occurrences would lead to the start. */
  lemma {:induction false} WalkIsDistinct(b: Bitmap, start: Pixel, walk: seq<Stance>, i: nat, j: nat)
    requires IsWalk(b, start, walk) && i < j < |walk|
    ensures walk[i] != walk[j]
  {
    if walk[i] == walk[j] {
      WalkStances(b, start, walk, j - 1);
      if i == 0 {
        var k: nat :| FirstInkAt(b, SetOut(start), k) && walk[0] == SetOut(start).Leave(k);
        var l: nat :| FirstInkAt(b, walk[j - 1], l) && walk[j] == walk[j - 1].Leave(l);
        ArrivalFixesDeparture(SetOut(start), k, walk[j - 1], l);
      } else {
        WalkStances(b, start, walk, i - 1);
        StepIsInjective(b, walk[i - 1], walk[j - 1], walk[i]);
        WalkIsDistinct(b, start, walk, i - 1, j - 1);
      }
      assert false;
    }
  }

  // ---------- how many stances there are ----------

  ghost function StancesOf(pixels: set<Pixel>): set<Stance> {
    set p, d: Direction | p in pixels && d in {0, 1, 2, 3, 4, 5, 6, 7} :: Stance(p, d)
  }

  lemma StancesOfOne(p: Pixel)
    ensures |StancesOf({p})| <= 8
  {
    assert StancesOf({p}) == {Stance(p, 0), Stance(p, 1), Stance(p, 2), Stance(p, 3),
                              Stance(p, 4), Stance(p, 5), Stance(p, 6), Stance(p, 7)};
  }

  lemma {:induction false} CountStances(pixels: set<Pixel>)
    ensures |StancesOf(pixels)| <= 8 * |pixels|
  {
    if pixels == {} {
      assert StancesOf(pixels) == {};
    } else {
      var p :| p in pixels;
      CountStances(pixels - {p});
      StancesOfOne(p);
      assert StancesOf(pixels) == StancesOf(pixels - {p}) + StancesOf({p});
    }
  }

  lemma {:induction false} DistinctFits<T>(xs: seq<T>, s: set<T>)
    requires forall x <- xs :: x in s
    requires forall i, j :: 0 <= i < j < |xs| ==> xs[i] != xs[j]
    ensures |xs| <= |s|
  {
    if xs == [] {
    } else {
      var last := xs[|xs| - 1];
      DistinctFits(xs[..|xs| - 1], s - {last});
    }
  }

  lemma WalkLength(b: Bitmap, start: Pixel, walk: seq<Stance>)
    requires IsWalk(b, start, walk)
    ensures |walk| <= 8 * |InkSet(b)|
  {
    CountStances(InkSet(b));
    forall i | 0 <= i < |walk| ensures walk[i] in StancesOf(InkSet(b)) {
      WalkStances(b, start, walk, i);
    }
    forall i, j | 0 <= i < j < |walk| ensures walk[i] != walk[j] {
      WalkIsDistinct(b, start, walk, i, j);
    }
    DistinctFits(walk, StancesOf(InkSet(b)));
  }

  // ---------- the program ----------

  method FindFirstInk(b: Bitmap) returns (found: bool, start: Pixel)
    requires IsRectangular(b)
    ensures found ==> IsFirstInk(b, start)
    ensures !found ==> forall p :: !Ink(b, p)
  {
    found, start := false, Pixel(0, 0);
    for y := 0 to |b|
      invariant !found
      invariant forall q: Pixel :: q.y < y ==> !Ink(b, q)
    {
      for x := 0 to Width(b)
        invariant forall q: Pixel :: q.y < y || (q.y == y && q.x < x) ==> !Ink(b, q)
      {
        if b[y][x] {
          return true, Pixel(x, y);
        }
      }
    }
  }

  /** The loop ends on every image, and the result is the outline of a full walk. */
  method Trace(b: Bitmap) returns (contour: seq<Pixel>, ghost walk: seq<Stance>)
    requires IsRectangular(b)
    ensures contour == [] <==> forall p :: !Ink(b, p)
    ensures contour != [] ==> IsFullWalk(b, contour[0], walk) && contour == Outline(contour[0], walk)
  {
    walk := [];
    var some, start := FindFirstInk(b);
    if !some {
      return [], [];
    }
    contour := [start];
    var cur: Pixel, bdir: Direction := start, 4;
    ghost var limit := 8 * |InkSet(b)|;
    hide *;
    while true
      invariant IsWalk(b, start, walk)
      invariant walk != [] ==> cur != start
      invariant Stance(cur, bdir) == Tip(start, walk)
      invariant contour == [start] + Positions(walk)
      decreases limit - |walk|
    {
      ghost var here := Stance(cur, bdir);
      var found := false;
      SearchBegins(b, here);
      for k := 1 to 9
        invariant !found && Stance(cur, bdir) == here
        invariant NoInkBefore(b, here, k)
      {
        var d := Turn(bdir, k);
        var next := Neighbour(cur, d);
        SearchGoesOn(b, here, k);
        if Ink(b, next) {
          bdir := Turn(d, 4);
          cur := next;
          found := true;
          break;
        }
      }
      if !found {
        NowhereMeansIsolated(b, start, walk);
        OutlineOf(start);
        break;
      }
      WalkGrows(b, start, walk, Stance(cur, bdir));
      OutlineGrows(start, walk, Stance(cur, bdir));
      walk := walk + [Stance(cur, bdir)];
      WalkLength(b, start, walk);
      if cur == start {
        break;
      }
      contour := contour + [cur];
    }
  }

  // ---------- proof steps of the program ----------

  function Tip(start: Pixel, walk: seq<Stance>): Stance {
    if walk == [] then SetOut(start) else walk[|walk| - 1]
  }

  function Positions(walk: seq<Stance>): seq<Pixel> {
    seq(|walk|, i requires 0 <= i < |walk| => walk[i].at)
  }

  lemma SearchBegins(b: Bitmap, s: Stance)
    ensures NoInkBefore(b, s, 1)
  {
  }

  lemma SearchGoesOn(b: Bitmap, s: Stance, k: nat)
    requires 1 <= k <= 8 && NoInkBefore(b, s, k)
    ensures Neighbour(s.at, Turn(s.back, k)) == s.Beside(k)
    ensures if Ink(b, s.Beside(k)) then
              Follows(b, s, Stance(s.Beside(k), Turn(Turn(s.back, k), 4)))
            else
              NoInkBefore(b, s, k + 1)
  {
    assert Turn(Turn(s.back, k), 4) == Turn(s.back, k + 4);
    if Ink(b, s.Beside(k)) {
      assert FirstInkAt(b, s, k);
    }
  }

  lemma WalkGrows(b: Bitmap, start: Pixel, walk: seq<Stance>, t: Stance)
    requires IsWalk(b, start, walk) && Follows(b, Tip(start, walk), t)
    requires walk != [] ==> Tip(start, walk).at != start
    ensures IsWalk(b, start, walk + [t])
  {
  }

  lemma OutlineOf(start: Pixel)
    ensures Outline(start, []) == [start]
  {
  }

  lemma OutlineGrows(start: Pixel, walk: seq<Stance>, t: Stance)
    ensures Tip(start, walk + [t]) == t
    ensures Outline(start, walk + [t]) == [start] + Positions(walk)
    ensures [start] + Positions(walk + [t]) == ([start] + Positions(walk)) + [t.at]
  {
    assert Positions(walk + [t]) == Positions(walk) + [t.at];
    assert (walk + [t])[..|walk|] == walk;
  }

  /** The search can only fail on the very first step. */
  lemma NowhereMeansIsolated(b: Bitmap, start: Pixel, walk: seq<Stance>)
    requires IsWalk(b, start, walk) && NoInkBefore(b, Tip(start, walk), 9)
    ensures walk == [] && forall d: Direction :: !Ink(b, Neighbour(start, d))
  {
    var here := Tip(start, walk);
    assert Turn(here.back, 8) == here.back;
    assert !Ink(b, here.Beside(8));
    if walk != [] {
      WalkStances(b, start, walk, |walk| - 1);
      assert false;
    }
    forall d: Direction ensures !Ink(b, Neighbour(start, d)) {
      var j := if d > 4 then d - 4 else d + 4;
      assert Turn(here.back, j) == d;
      assert !Ink(b, here.Beside(j));
    }
  }
}
