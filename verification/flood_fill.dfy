/**
 Finding the sprites in a band of rows (`connected_components_in_band` in
 scripts/build-crew-vibes-font.py): a flood fill with an explicit stack.
 */
module FloodFill {
  import opened Bitmaps
  import opened Sorting

  /** Rows `top` (included) to `bottom` (excluded) of an image, columns below `width`.
      Pixels of a band are counted from its own top row. */
  datatype Band = Band(image: Bitmap, width: nat, top: nat, bottom: nat) {
    predicate Valid() {
      bottom <= |image| && forall y :: top <= y < bottom ==> width <= |image[y]|
    }

    function Height(): nat { if top <= bottom then bottom - top else 0 }

    predicate Has(p: Pixel)
      requires Valid()
    {
      0 <= p.x < width && 0 <= p.y < Height() && image[top + p.y][p.x]
    }

    ghost function InkPixels(): (s: set<Pixel>)
      requires Valid()
      ensures forall p :: p in s <==> Has(p)
    {
      set x, y | 0 <= x < width && 0 <= y < Height() && image[top + y][x] :: Pixel(x, y)
    }
  }

  // ---------- components ----------

  ghost predicate IsInkPath(b: Band, path: seq<Pixel>)
    requires b.Valid()
  {
    && path != []
    && (forall p <- path :: b.Has(p))
    && forall i :: 0 <= i < |path| - 1 ==> Touch4(path[i], path[i + 1])
  }

  /** Ink leads from `p` to `q` by edge steps. */
  ghost predicate Connected(b: Band, p: Pixel, q: Pixel)
    requires b.Valid()
  {
    exists path: seq<Pixel> :: IsInkPath(b, path) && path[0] == p && path[|path| - 1] == q
  }

  ghost function ComponentOf(b: Band, p: Pixel): (c: set<Pixel>)
    requires b.Valid()
    ensures forall q :: q in c <==> b.Has(q) && Connected(b, p, q)
  {
    set q | q in b.InkPixels() && Connected(b, p, q)
  }

  lemma ConnectedSelf(b: Band, p: Pixel)
    requires b.Valid() && b.Has(p)
    ensures Connected(b, p, p)
  {
    assert IsInkPath(b, [p]) && [p][0] == p && [p][|[p]| - 1] == p;
  }

  lemma ConnectedStep(b: Band, p: Pixel, q: Pixel, r: Pixel)
    requires b.Valid() && Connected(b, p, q) && b.Has(r) && Touch4(q, r)
    ensures Connected(b, p, r)
  {
    var path: seq<Pixel> :| IsInkPath(b, path) && path[0] == p && path[|path| - 1] == q;
    var longer := path + [r];
    assert IsInkPath(b, longer) && longer[0] == p && longer[|longer| - 1] == r;
  }

  lemma {:induction false} PathStaysIn(b: Band, path: seq<Pixel>, c: set<Pixel>, n: nat)
    requires b.Valid() && IsInkPath(b, path) && path[0] in c && n < |path|
    requires forall p, q :: p in c && b.Has(q) && Touch4(p, q) ==> q in c
    ensures path[n] in c
  {
    if n == 0 {
    } else {
      PathStaysIn(b, path, c, n - 1);
    }
  }

  /** A set of ink that holds `seed`, is closed under edge steps and reachable from `seed`
      is the component of `seed`. */
  lemma ClosedReachableIsComponent(b: Band, seed: Pixel, c: set<Pixel>)
    requires b.Valid() && seed in c
    requires forall p :: p in c ==> b.Has(p) && Connected(b, seed, p)
    requires forall p, q :: p in c && b.Has(q) && Touch4(p, q) ==> q in c
    ensures c == ComponentOf(b, seed)
  {
    forall q | q in ComponentOf(b, seed) ensures q in c {
      var path: seq<Pixel> :| IsInkPath(b, path) && path[0] == seed && path[|path| - 1] == q;
      PathStaysIn(b, path, c, |path| - 1);
    }
  }

  lemma PathBackwards(b: Band, path: seq<Pixel>)
    requires b.Valid() && IsInkPath(b, path)
    ensures Connected(b, path[|path| - 1], path[0])
  {
    var back := seq(|path|, i requires 0 <= i < |path| => path[|path| - 1 - i]);
    assert IsInkPath(b, back) && back[0] == path[|path| - 1] && back[|back| - 1] == path[0];
  }

  lemma ConnectedTrans(b: Band, p: Pixel, q: Pixel, r: Pixel)
    requires b.Valid() && Connected(b, p, q) && Connected(b, q, r)
    ensures Connected(b, p, r)
  {
    var s: seq<Pixel> :| IsInkPath(b, s) && s[0] == p && s[|s| - 1] == q;
    var t: seq<Pixel> :| IsInkPath(b, t) && t[0] == q && t[|t| - 1] == r;
    var u := s + t[1..];
    assert IsInkPath(b, u) && u[0] == p && u[|u| - 1] == r;
  }

  lemma ConnectedSym(b: Band, p: Pixel, q: Pixel)
    requires b.Valid() && Connected(b, p, q)
    ensures Connected(b, q, p)
  {
    var path: seq<Pixel> :| IsInkPath(b, path) && path[0] == p && path[|path| - 1] == q;
    PathBackwards(b, path);
  }

  /** Components are equal or disjoint: a connected pixel has the same component. */
  lemma SameComponent(b: Band, p: Pixel, q: Pixel)
    requires b.Valid() && Connected(b, p, q)
    ensures ComponentOf(b, p) == ComponentOf(b, q)
  {
    ConnectedSym(b, p, q);
    forall r | b.Has(r) ensures Connected(b, p, r) <==> Connected(b, q, r) {
      if Connected(b, p, r) { ConnectedTrans(b, q, p, r); }
      if Connected(b, q, r) { ConnectedTrans(b, p, q, r); }
    }
  }

  // ---------- bounding boxes ----------

  /** Left and top edges are inside, right and bottom edges just outside. */
  datatype Box = Box(left: int, top: int, right: int, bottom: int)

  /** The smallest box around the pixels of a band, in image coordinates. */
  ghost predicate Bounds(box: Box, c: set<Pixel>, top: nat) {
    && (forall p <- c :: box.left <= p.x < box.right && box.top <= top + p.y < box.bottom)
    && (exists p <- c :: p.x == box.left) && (exists p <- c :: p.x + 1 == box.right)
    && (exists p <- c :: top + p.y == box.top) && (exists p <- c :: top + p.y + 1 == box.bottom)
  }

  function Min(s: seq<int>): (m: int)
    requires s != []
    ensures m in s && forall x <- s :: m <= x
  {
    if |s| == 1 then s[0]
    else var m := Min(s[1..]); assert s == [s[0]] + s[1..]; if s[0] <= m then s[0] else m
  }

  function Max(s: seq<int>): (m: int)
    requires s != []
    ensures m in s && forall x <- s :: x <= m
  {
    if |s| == 1 then s[0]
    else var m := Max(s[1..]); assert s == [s[0]] + s[1..]; if s[0] >= m then s[0] else m
  }

  function BoxOf(xs: seq<int>, ys: seq<int>, top: nat): Box
    requires xs != [] && ys != []
  {
    Box(Min(xs), top + Min(ys), Max(xs) + 1, top + Max(ys) + 1)
  }

  lemma BoxOfLists(order: seq<Pixel>, xs: seq<int>, ys: seq<int>, c: set<Pixel>, top: nat)
    requires order != [] && |xs| == |ys| == |order|
    requires forall i :: 0 <= i < |order| ==> xs[i] == order[i].x && ys[i] == order[i].y
    requires forall p :: p in order <==> p in c
    ensures Bounds(BoxOf(xs, ys, top), c, top)
  {
    var i :| 0 <= i < |xs| && xs[i] == Min(xs);
    var j :| 0 <= j < |xs| && xs[j] == Max(xs);
    var k :| 0 <= k < |ys| && ys[k] == Min(ys);
    var l :| 0 <= l < |ys| && ys[l] == Max(ys);
    assert order[i] in c && order[j] in c && order[k] in c && order[l] in c;
    forall p | p in c ensures Min(xs) <= p.x <= Max(xs) && Min(ys) <= p.y <= Max(ys) {
      var n :| 0 <= n < |order| && order[n] == p;
      assert xs[n] in xs && ys[n] in ys;
    }
  }

  // ---------- filling one component ----------

  ghost predicate Marks(visited: array2<bool>, b: Band, v: set<Pixel>)
    reads visited
  {
    && visited.Length0 == b.Height() && visited.Length1 == b.width
    && forall x, y :: 0 <= x < b.width && 0 <= y < b.Height() ==> (visited[y, x] <==> Pixel(x, y) in v)
  }

  ghost predicate IsClosed(b: Band, v: set<Pixel>)
    requires b.Valid()
  {
    forall p, q :: p in v && b.Has(q) && Touch4(p, q) ==> q in v
  }

  const STEPS: seq<(int, int)> := [(1, 0), (-1, 0), (0, 1), (0, -1)]

  /** Pixels touching `p` that lie in one of the first `k` step directions. */
  predicate InFirstSteps(p: Pixel, q: Pixel, k: nat)
    requires k <= 4
  {
    exists i :: 0 <= i < k && q == Pixel(p.x + STEPS[i].0, p.y + STEPS[i].1)
  }

  lemma StepsCoverTouch(p: Pixel, q: Pixel)
    ensures Touch4(p, q) <==> InFirstSteps(p, q, 4)
  {
    if Touch4(p, q) {
      var i := if q.x == p.x + 1 then 0 else if q.x == p.x - 1 then 1 else if q.y == p.y + 1 then 2 else 3;
      assert q == Pixel(p.x + STEPS[i].0, p.y + STEPS[i].1);
    }
  }

  ghost predicate IsDistinct(s: seq<Pixel>) {
    forall i, j :: 0 <= i < j < |s| ==> s[i] != s[j]
  }

  lemma {:induction false} DistinctCount(s: seq<Pixel>, c: set<Pixel>)
    requires IsDistinct(s) && forall p <- s :: p in c
    ensures |s| <= |c|
    ensures (forall p <- c :: p in s) ==> |s| == |c|
  {
    if s == [] {
      if c != {} { var p :| p in c; }
    } else {
      var last := s[|s| - 1];
      DistinctCount(s[..|s| - 1], c - {last});
    }
  }

  /** State of a fill: `filled` is everything marked since it began, `order` what was taken off
      the stack. Every pixel is pushed once, so `order` can only grow as long as ink is left. */
  ghost predicate Filling(b: Band, seed: Pixel, before: set<Pixel>, filled: set<Pixel>, order: seq<Pixel>,
          stack: seq<Pixel>)
    requires b.Valid()
  {
    && seed in filled && filled !! before
    && (forall p :: p in filled ==> b.Has(p) && Connected(b, seed, p))
    && (forall p :: p in filled <==> p in order || p in stack)
    && IsDistinct(order) && IsDistinct(stack) && (forall p <- order :: p !in stack)
  }

  /** The first `k` neighbours of `p` have been looked at. */
  ghost predicate LookedAround(b: Band, marked: set<Pixel>, p: Pixel, k: nat)
    requires b.Valid() && k <= 4
  {
    forall q :: b.Has(q) && InFirstSteps(p, q, k) ==> q in marked
  }

  lemma LookOn(b: Band, marked: set<Pixel>, marked': set<Pixel>, p: Pixel, k: nat)
    requires b.Valid() && k < 4 && marked <= marked' && LookedAround(b, marked, p, k)
    requires var q := Pixel(p.x + STEPS[k].0, p.y + STEPS[k].1); b.Has(q) ==> q in marked'
    ensures LookedAround(b, marked', p, k + 1)
  {
  }

  ghost predicate DoneAround(b: Band, marked: set<Pixel>, order: seq<Pixel>)
    requires b.Valid()
  {
    forall p, q :: p in order && b.Has(q) && Touch4(p, q) ==> q in marked
  }

  lemma Pop(b: Band, seed: Pixel, before: set<Pixel>, filled: set<Pixel>, order: seq<Pixel>, stack: seq<Pixel>)
    requires b.Valid() && Filling(b, seed, before, filled, order, stack) && stack != []
    ensures Filling(b, seed, before, filled, order + [stack[|stack| - 1]], stack[..|stack| - 1])
    ensures |order| < |b.InkPixels()|
  {
    var top := stack[|stack| - 1];
    var o, s := order + [top], stack[..|stack| - 1];
    assert stack == s + [top];
    assert top in stack && forall q <- order :: q != top;
    DistinctCount(o, b.InkPixels());
  }

  lemma PopIsFilled(b: Band, seed: Pixel, before: set<Pixel>, filled: set<Pixel>, order: seq<Pixel>, stack: seq<Pixel>)
    requires b.Valid() && Filling(b, seed, before, filled, order, stack) && stack != []
    ensures stack[|stack| - 1] in filled
    ensures LookedAround(b, before + filled, stack[|stack| - 1], 0)
  {
    assert stack[|stack| - 1] in stack;
  }

  lemma SeedIsTaken(b: Band, seed: Pixel, before: set<Pixel>, filled: set<Pixel>, order: seq<Pixel>)
    requires b.Valid() && Filling(b, seed, before, filled, order, [])
    ensures order != [] && (forall p :: p in order <==> p in filled) && filled !! before
  {
  }

  lemma Push(b: Band, seed: Pixel, before: set<Pixel>, filled: set<Pixel>, order: seq<Pixel>, stack: seq<Pixel>,
          p: Pixel, q: Pixel)
    requires b.Valid() && Filling(b, seed, before, filled, order, stack)
    requires p in filled && b.Has(q) && Touch4(p, q) && q !in before && q !in filled
    ensures Filling(b, seed, before, filled + {q}, order, stack + [q])
  {
    ConnectedStep(b, seed, p, q);
  }

  lemma FillIsComponent(b: Band, seed: Pixel, before: set<Pixel>, filled: set<Pixel>, order: seq<Pixel>)
    requires b.Valid() && IsClosed(b, before) && Filling(b, seed, before, filled, order, [])
    requires DoneAround(b, before + filled, order)
    ensures filled == ComponentOf(b, seed) && |order| == |filled|
    ensures IsClosed(b, before + filled)
  {
    forall p, q | p in filled && b.Has(q) && Touch4(p, q) ensures q in filled {
      assert q in before + filled && Touch4(q, p);
    }
    ClosedReachableIsComponent(b, seed, filled);
    DistinctCount(order, filled);
  }

  lemma StepTouches(p: Pixel, k: nat)
    requires k < 4
    ensures Touch4(p, Pixel(p.x + STEPS[k].0, p.y + STEPS[k].1))
  {
  }

  lemma FillBegins(b: Band, seed: Pixel, before: set<Pixel>)
    requires b.Valid() && b.Has(seed) && seed !in before
    ensures Filling(b, seed, before, {seed}, [], [seed]) && DoneAround(b, before + {seed}, [])
    ensures LookedAround(b, before, seed, 0)
  {
    ConnectedSelf(b, seed);
  }

  lemma DoneAroundOneMore(b: Band, marked: set<Pixel>, marked': set<Pixel>, order: seq<Pixel>, p: Pixel)
    requires b.Valid() && marked <= marked' && DoneAround(b, marked, order) && LookedAround(b, marked', p, 4)
    ensures DoneAround(b, marked', order + [p])
  {
    forall q | b.Has(q) && Touch4(p, q) ensures q in marked' {
      StepsCoverTouch(p, q);
    }
  }

  method Fill(b: Band, visited: array2<bool>, sx: nat, sy: nat, ghost before: set<Pixel>)
    returns (xs: seq<int>, ys: seq<int>, area: nat)
    requires b.Valid() && b.Has(Pixel(sx, sy)) && Pixel(sx, sy) !in before
    requires Marks(visited, b, before) && IsClosed(b, before)
    modifies visited
    ensures Marks(visited, b, before + ComponentOf(b, Pixel(sx, sy)))
    ensures IsClosed(b, before + ComponentOf(b, Pixel(sx, sy)))
    ensures ComponentOf(b, Pixel(sx, sy)) !! before
    ensures area == |ComponentOf(b, Pixel(sx, sy))|
    ensures xs != [] && ys != [] && Bounds(BoxOf(xs, ys, b.top), ComponentOf(b, Pixel(sx, sy)), b.top)
  {
    hide Filling, DoneAround, LookedAround, IsClosed, Connected, ComponentOf, InFirstSteps, Touch4, Band.InkPixels,
        Min, Max, Bounds;
    ghost var seed := Pixel(sx, sy);
    var stack := [Pixel(sx, sy)];
    visited[sy, sx] := true;
    ghost var filled := {seed};
    xs, ys, area := [], [], 0;
    ghost var order: seq<Pixel> := [];
    FillBegins(b, seed, before);
    while stack != []
      invariant Marks(visited, b, before + filled)
      invariant Filling(b, seed, before, filled, order, stack)
      invariant DoneAround(b, before + filled, order)
      invariant |xs| == |ys| == area == |order|
      invariant forall i :: 0 <= i < |order| ==> xs[i] == order[i].x && ys[i] == order[i].y
      decreases |b.InkPixels()| - |order|
    {
      var p := stack[|stack| - 1];
      ghost var marked := before + filled;
      PopIsFilled(b, seed, before, filled, order, stack);
      Pop(b, seed, before, filled, order, stack);
      stack := stack[..|stack| - 1];
      xs, ys, area, order := xs + [p.x], ys + [p.y], area + 1, order + [p];
      for k := 0 to 4
        invariant Marks(visited, b, before + filled) && p in filled && marked <= before + filled
        invariant Filling(b, seed, before, filled, order, stack)
        invariant LookedAround(b, before + filled, p, k)
      {
        var q := Pixel(p.x + STEPS[k].0, p.y + STEPS[k].1);
        ghost var m := before + filled;
        StepTouches(p, k);
        if 0 <= q.x < b.width && 0 <= q.y < b.Height() && b.image[b.top + q.y][q.x] && !visited[q.y, q.x] {
          Push(b, seed, before, filled, order, stack, p, q);
          visited[q.y, q.x] := true;
          stack := stack + [q];
          filled := filled + {q};
          assert before + filled == m + {q};
        }
        LookOn(b, m, before + filled, p, k);
      }
      DoneAroundOneMore(b, marked, before + filled, order[..|order| - 1], p);
      assert order[..|order| - 1] + [p] == order;
    }
    FillIsComponent(b, seed, before, filled, order);
    SeedIsTaken(b, seed, before, filled, order);
    BoxOfLists(order, xs, ys, filled, b.top);
  }

  // ---------- all components of a band ----------

  ghost predicate IsComponent(b: Band, c: set<Pixel>)
    requires b.Valid()
  {
    exists p :: b.Has(p) && c == ComponentOf(b, p)
  }

  predicate ReadsBefore(p: Pixel, q: Pixel) {
    p.y < q.y || (p.y == q.y && p.x < q.x)
  }

  /** Some pixel of `c` is read before every pixel of `d`. */
  ghost predicate MetBefore(c: set<Pixel>, d: set<Pixel>) {
    exists p <- c :: forall q <- d :: ReadsBefore(p, q)
  }

  /** The components of at least `minArea` pixels, each once, in the order reading meets them. */
  ghost predicate IsListing(b: Band, minArea: int, found: seq<set<Pixel>>)
    requires b.Valid()
  {
    && (forall c :: c in found <==> IsComponent(b, c) && |c| >= minArea)
    && (forall i, j :: 0 <= i < j < |found| ==> found[i] != found[j] && MetBefore(found[i], found[j]))
  }

  /** The marked ink is whole components, and all ink read before `at` is marked. */
  ghost predicate Marked(b: Band, v: set<Pixel>, at: Pixel)
    requires b.Valid()
  {
    && IsClosed(b, v) && (forall p <- v :: b.Has(p))
    && (forall p :: b.Has(p) && ReadsBefore(p, at) ==> p in v)
  }

  ghost predicate Complete(b: Band, minArea: int, v: set<Pixel>, found: seq<set<Pixel>>)
    requires b.Valid()
  {
    forall p <- v :: |ComponentOf(b, p)| >= minArea ==> ComponentOf(b, p) in found
  }

  ghost predicate Listed(b: Band, minArea: int, v: set<Pixel>, at: Pixel, found: seq<set<Pixel>>)
    requires b.Valid()
  {
    && (forall c <- found :: IsComponent(b, c) && |c| >= minArea && c <= v)
    && (forall c <- found :: exists p <- c :: ReadsBefore(p, at))
  }

  ghost predicate InOrder(found: seq<set<Pixel>>) {
    forall i, j :: 0 <= i < j < |found| ==> found[i] != found[j] && MetBefore(found[i], found[j])
  }

  /** The listing restricted to what has been marked when reading has come to `at`. */
  ghost predicate Census(b: Band, minArea: int, v: set<Pixel>, at: Pixel, found: seq<set<Pixel>>)
    requires b.Valid()
  {
    Marked(b, v, at) && Complete(b, minArea, v, found) && Listed(b, minArea, v, at, found) && InOrder(found)
  }

  lemma CensusBegins(b: Band, minArea: int)
    requires b.Valid()
    ensures Census(b, minArea, {}, Pixel(0, 0), [])
  {
  }

  /** Reading on over a pixel without unmarked ink. */
  lemma CensusReadsOn(b: Band, minArea: int, v: set<Pixel>, at: Pixel, next: Pixel, found: seq<set<Pixel>>)
    requires b.Valid() && Census(b, minArea, v, at, found)
    requires b.Has(at) ==> at in v
    requires forall p :: b.Has(p) && ReadsBefore(p, next) ==> ReadsBefore(p, at) || p == at
    requires forall p :: ReadsBefore(p, at) ==> ReadsBefore(p, next)
    ensures Census(b, minArea, v, next, found)
  {
  }

  lemma ComponentMembers(b: Band, at: Pixel)
    requires b.Valid() && b.Has(at)
    ensures at in ComponentOf(b, at) && IsComponent(b, ComponentOf(b, at))
    ensures forall p <- ComponentOf(b, at) :: b.Has(p) && ComponentOf(b, p) == ComponentOf(b, at)
  {
    ConnectedSelf(b, at);
    forall p | p in ComponentOf(b, at) ensures ComponentOf(b, p) == ComponentOf(b, at) {
      SameComponent(b, at, p);
    }
  }

  lemma ListedAreMetBefore(b: Band, minArea: int, v: set<Pixel>, at: Pixel, found: seq<set<Pixel>>, c: set<Pixel>,
          d: set<Pixel>)
    requires b.Valid() && Census(b, minArea, v, at, found) && d in found
    requires at in c && c !! v && forall p <- c :: b.Has(p)
    ensures MetBefore(d, c) && d != c
  {
    hide IsComponent, IsClosed, ComponentOf;
    var p :| p in d && ReadsBefore(p, at);
    forall q | q in c ensures ReadsBefore(p, q) {
      assert q !in v;
    }
    assert at !in d;
  }

  lemma CensusTakesComponent(b: Band, minArea: int, v: set<Pixel>, at: Pixel, next: Pixel, found: seq<set<Pixel>>)
    requires b.Valid() && Census(b, minArea, v, at, found) && b.Has(at) && at !in v && next == Pixel(at.x + 1, at.y)
    requires ComponentOf(b, at) !! v && IsClosed(b, v + ComponentOf(b, at))
    ensures var c := ComponentOf(b, at);
            Census(b, minArea, v + c, next, if |c| >= minArea then found + [c] else found)
  {
    hide Census, MetBefore, ComponentOf, IsComponent, IsClosed, Connected, Band.InkPixels, ReadsBefore;
    var c := ComponentOf(b, at);
    ComponentMembers(b, at);
    forall d | d in found ensures MetBefore(d, c) && d != c {
      ListedAreMetBefore(b, minArea, v, at, found, c, d);
    }
    CensusHolds(b, minArea, v, at, next, found, c);
  }

  lemma CensusHolds(b: Band, minArea: int, v: set<Pixel>, at: Pixel, next: Pixel, found: seq<set<Pixel>>, c: set<Pixel>)
    requires b.Valid() && Census(b, minArea, v, at, found) && next == Pixel(at.x + 1, at.y)
    requires IsClosed(b, v + c) && IsComponent(b, c) && at in c && (forall p <- c :: b.Has(p) && ComponentOf(b, p) == c)
    requires forall d <- found :: MetBefore(d, c) && d != c
    ensures Census(b, minArea, v + c, next, if |c| >= minArea then found + [c] else found)
  {
    hide Marked, Complete, Listed, InOrder, MetBefore;
    MarkedHolds(b, v, at, next, c);
    CompleteHolds(b, minArea, v, found, c);
    if |c| >= minArea {
      ListedHolds(b, minArea, v, at, next, found, c);
      InOrderHolds(found, c);
    } else {
      ListedStays(b, minArea, v, at, next, found, c);
    }
  }

  lemma MarkedHolds(b: Band, v: set<Pixel>, at: Pixel, next: Pixel, c: set<Pixel>)
    requires b.Valid() && Marked(b, v, at) && next == Pixel(at.x + 1, at.y)
    requires IsClosed(b, v + c) && at in c && forall p <- c :: b.Has(p)
    ensures Marked(b, v + c, next)
  {
    NextIsRead(at, next);
    hide IsClosed, ReadsBefore;
  }

  lemma CompleteHolds(b: Band, minArea: int, v: set<Pixel>, found: seq<set<Pixel>>, c: set<Pixel>)
    requires b.Valid() && Complete(b, minArea, v, found) && forall p <- c :: ComponentOf(b, p) == c
    ensures Complete(b, minArea, v + c, if |c| >= minArea then found + [c] else found)
  {
    hide ComponentOf;
  }

  lemma ListedStays(b: Band, minArea: int, v: set<Pixel>, at: Pixel, next: Pixel, found: seq<set<Pixel>>, c: set<Pixel>)
    requires b.Valid() && Listed(b, minArea, v, at, found) && next == Pixel(at.x + 1, at.y)
    ensures Listed(b, minArea, v + c, next, found)
  {
    NextIsRead(at, next);
    hide IsComponent, ReadsBefore;
  }

  lemma ListedHolds(b: Band, minArea: int, v: set<Pixel>, at: Pixel, next: Pixel, found: seq<set<Pixel>>, c: set<Pixel>)
    requires b.Valid() && Listed(b, minArea, v, at, found) && next == Pixel(at.x + 1, at.y)
    requires IsComponent(b, c) && at in c && |c| >= minArea
    ensures Listed(b, minArea, v + c, next, found + [c])
  {
    ListedStays(b, minArea, v, at, next, found, c);
    NextIsRead(at, next);
    hide IsComponent, ReadsBefore;
    assert ReadsBefore(at, next);
  }

  lemma InOrderHolds(found: seq<set<Pixel>>, c: set<Pixel>)
    requires InOrder(found) && forall d <- found :: MetBefore(d, c) && d != c
    ensures InOrder(found + [c])
  {
    hide MetBefore;
    var f := found + [c];
    forall i, j | 0 <= i < j < |f| ensures f[i] != f[j] && MetBefore(f[i], f[j]) {
      assert f[i] == found[i] && found[i] in found;
    }
  }

  lemma NextIsRead(at: Pixel, next: Pixel)
    requires next == Pixel(at.x + 1, at.y)
    ensures forall p :: ReadsBefore(p, next) <==> ReadsBefore(p, at) || p == at
  {
  }

  lemma CensusEnds(b: Band, minArea: int, v: set<Pixel>, at: Pixel, found: seq<set<Pixel>>)
    requires b.Valid() && Census(b, minArea, v, at, found) && at.y >= b.Height()
    ensures IsListing(b, minArea, found)
  {
    forall c | IsComponent(b, c) && |c| >= minArea ensures c in found {
      var p :| b.Has(p) && c == ComponentOf(b, p);
      assert ReadsBefore(p, at);
    }
  }

  ghost predicate AllBounds(boxes: seq<Box>, found: seq<set<Pixel>>, top: nat) {
    |boxes| == |found| && forall i :: 0 <= i < |found| ==> Bounds(boxes[i], found[i], top)
  }

  lemma AllBoundsGrow(boxes: seq<Box>, found: seq<set<Pixel>>, top: nat, box: Box, c: set<Pixel>)
    requires AllBounds(boxes, found, top) && Bounds(box, c, top)
    ensures AllBounds(boxes + [box], found + [c], top)
  {
  }

  function LeftOf(): Box -> int { (box: Box) => box.left }

  /** What the scan does at one pixel. */
  method ScanPixel(b: Band, visited: array2<bool>, sx: nat, sy: nat, minArea: int, comps: seq<Box>,
                   ghost found: seq<set<Pixel>>, ghost v: set<Pixel>)
    returns (comps': seq<Box>, ghost found': seq<set<Pixel>>, ghost v': set<Pixel>)
    requires b.Valid() && sx < b.width && sy < b.Height()
    requires Marks(visited, b, v) && Census(b, minArea, v, Pixel(sx, sy), found) && AllBounds(comps, found, b.top)
    modifies visited
    ensures Marks(visited, b, v') && Census(b, minArea, v', Pixel(sx + 1, sy), found') &&
              AllBounds(comps', found', b.top)
  {
    hide *;
    comps', found', v' := comps, found, v;
    ghost var at := Pixel(sx, sy);
    ghost var c := ComponentOf(b, at);
    MarksOne(visited, b, v, sx, sy);
    if b.Has(Pixel(sx, sy)) && !visited[sy, sx] {
      CensusIsClosed(b, minArea, v, at, found);
      var xs, ys, area := Fill(b, visited, sx, sy, v);
      CensusTakesComponent(b, minArea, v, at, Pixel(sx + 1, sy), found);
      v' := v + c;
      if area >= minArea {
        AllBoundsGrow(comps, found, b.top, BoxOf(xs, ys, b.top), c);
        comps' := comps + [BoxOf(xs, ys, b.top)];
        found' := found + [c];
      }
    } else {
      CensusReadsPixel(b, minArea, v, sx, sy, found);
    }
  }

  /** The smallest boxes around the listed components, stably sorted by their left edges. */
  ghost predicate AreComponents(b: Band, minArea: int, comps: seq<Box>)
    requires b.Valid()
  {
    exists found, boxes ::
      IsListing(b, minArea, found) && AllBounds(boxes, found, b.top) && comps == SortBy(boxes, LeftOf())
  }

  method ConnectedComponentsInBand(b: Band, minArea: int) returns (comps: seq<Box>)
    requires b.Valid()
    ensures AreComponents(b, minArea, comps)
  {
    var visited := new bool[b.Height(), b.width]((i, j) => false);
    comps := [];
    ghost var found: seq<set<Pixel>>, v: set<Pixel> := [], {};
    CensusBegins(b, minArea);
    assert AllBounds(comps, found, b.top);
    MarksNothing(visited, b);
    hide *;
    for sy := 0 to b.Height()
      invariant Marks(visited, b, v) && Census(b, minArea, v, Pixel(0, sy), found) && AllBounds(comps, found, b.top)
    {
      for sx := 0 to b.width
        invariant Marks(visited, b, v) && Census(b, minArea, v, Pixel(sx, sy), found) && AllBounds(comps, found, b.top)
      {
        comps, found, v := ScanPixel(b, visited, sx, sy, minArea, comps, found, v);
      }
      CensusNextRow(b, minArea, v, sy, found);
    }
    CensusEnds(b, minArea, v, Pixel(0, b.Height()), found);
    ghost var boxes := comps;
    comps := SortBy(comps, LeftOf());
    AreSorted(b, minArea, found, boxes, comps);
  }

  lemma AreSorted(b: Band, minArea: int, found: seq<set<Pixel>>, boxes: seq<Box>, comps: seq<Box>)
    requires b.Valid() && IsListing(b, minArea, found) && AllBounds(boxes, found, b.top)
    requires comps == SortBy(boxes, LeftOf())
    ensures AreComponents(b, minArea, comps)
  {
  }

  lemma MarksNothing(visited: array2<bool>, b: Band)
    requires visited.Length0 == b.Height() && visited.Length1 == b.width
    requires forall x, y :: 0 <= x < b.width && 0 <= y < b.Height() ==> !visited[y, x]
    ensures Marks(visited, b, {})
  {
  }

  lemma MarksOne(visited: array2<bool>, b: Band, v: set<Pixel>, sx: nat, sy: nat)
    requires Marks(visited, b, v) && sx < b.width && sy < b.Height()
    ensures visited.Length0 == b.Height() && visited.Length1 == b.width
    ensures visited[sy, sx] <==> Pixel(sx, sy) in v
  {
  }

  lemma CensusReadsPixel(b: Band, minArea: int, v: set<Pixel>, sx: nat, sy: nat, found: seq<set<Pixel>>)
    requires b.Valid() && Census(b, minArea, v, Pixel(sx, sy), found)
    requires b.Has(Pixel(sx, sy)) ==> Pixel(sx, sy) in v
    ensures Census(b, minArea, v, Pixel(sx + 1, sy), found)
  {
    CensusReadsOn(b, minArea, v, Pixel(sx, sy), Pixel(sx + 1, sy), found);
  }

  lemma CensusIsClosed(b: Band, minArea: int, v: set<Pixel>, at: Pixel, found: seq<set<Pixel>>)
    requires b.Valid() && Census(b, minArea, v, at, found)
    ensures IsClosed(b, v)
  {
  }

  lemma CensusNextRow(b: Band, minArea: int, v: set<Pixel>, sy: nat, found: seq<set<Pixel>>)
    requires b.Valid() && Census(b, minArea, v, Pixel(b.width, sy), found)
    ensures Census(b, minArea, v, Pixel(0, sy + 1), found)
  {
    CensusReadsOn(b, minArea, v, Pixel(b.width, sy), Pixel(0, sy + 1), found);
  }

  // ---------- what the boxes are ----------

  /** Each large component has its box, each box is that of a large component, and they are ordered by
      left edge. */
  lemma BoxesAreComponents(b: Band, minArea: int, comps: seq<Box>)
    requires b.Valid() && AreComponents(b, minArea, comps)
    ensures forall i, j :: 0 <= i < j < |comps| ==> comps[i].left <= comps[j].left
    ensures forall box <- comps :: exists c :: IsComponent(b, c) && |c| >= minArea && Bounds(box, c, b.top)
    ensures forall c :: IsComponent(b, c) && |c| >= minArea ==> exists box <- comps :: Bounds(box, c, b.top)
  {
    hide Bounds, IsComponent, MetBefore;
    var found: seq<set<Pixel>>, boxes: seq<Box> :| IsListing(b, minArea, found) && AllBounds(boxes, found, b.top) &&
        comps == SortBy(boxes, LeftOf());
    SortByIsStableSort(boxes, LeftOf());
    SortByElements(boxes, LeftOf());
    forall i, j | 0 <= i < j < |comps| ensures comps[i].left <= comps[j].left {
      assert LeftOf()(comps[i]) <= LeftOf()(comps[j]);
    }
    forall box <- comps ensures exists c :: IsComponent(b, c) && |c| >= minArea && Bounds(box, c, b.top) {
      var i :| 0 <= i < |boxes| && boxes[i] == box;
      assert found[i] in found && Bounds(boxes[i], found[i], b.top);
    }
    forall c | IsComponent(b, c) && |c| >= minArea ensures exists box <- comps :: Bounds(box, c, b.top) {
      var i :| 0 <= i < |found| && found[i] == c;
      assert Bounds(boxes[i], found[i], b.top) && boxes[i] in comps;
    }
  }

  lemma BoundsAreUnique(x: Box, y: Box, c: set<Pixel>, top: nat)
    requires Bounds(x, c, top) && Bounds(y, c, top)
    ensures x == y
  {
  }

  lemma MetBeforeOneWay(c: set<Pixel>, d: set<Pixel>)
    requires MetBefore(c, d) && d != {}
    ensures !MetBefore(d, c)
  {
  }

  lemma {:induction false} ListingIsUnique(s: seq<set<Pixel>>, t: seq<set<Pixel>>)
    requires forall c :: c in s <==> c in t
    requires forall c <- s :: c != {}
    requires forall i, j :: 0 <= i < j < |s| ==> s[i] != s[j] && MetBefore(s[i], s[j])
    requires forall i, j :: 0 <= i < j < |t| ==> t[i] != t[j] && MetBefore(t[i], t[j])
    ensures s == t
  {
    hide MetBefore;
    assert s != [] ==> s[0] in t;
    assert t != [] ==> t[0] in s;
    if s == [] {
    } else {
      if s[0] != t[0] {
        MetBeforeOneWay(s[0], t[0]);
        assert false;
      }
      forall c ensures c in s[1..] <==> c in t[1..] {
        assert c in s <==> c == s[0] || c in s[1..];
        assert c in t <==> c == t[0] || c in t[1..];
        assert s[0] !in s[1..] && t[0] !in t[1..];
      }
      assert forall c <- s[1..] :: c in s;
      ListingIsUnique(s[1..], t[1..]);
    }
  }

  /** The image has one list of boxes: nothing depends on the order in which the fill takes pixels. */
  lemma BoxesAreUnique(b: Band, minArea: int, s: seq<Box>, t: seq<Box>)
    requires b.Valid() && AreComponents(b, minArea, s) && AreComponents(b, minArea, t)
    ensures s == t
  {
    hide Bounds, IsListing, SortBy;
    var found: seq<set<Pixel>>, boxes: seq<Box> :| IsListing(b, minArea, found) && AllBounds(boxes, found, b.top) &&
        s == SortBy(boxes, LeftOf());
    var found': seq<set<Pixel>>, boxes': seq<Box> :| IsListing(b, minArea, found') &&
        AllBounds(boxes', found', b.top) && t == SortBy(boxes', LeftOf());
    ListingsAgree(b, minArea, found, found');
    forall i | 0 <= i < |boxes| ensures boxes[i] == boxes'[i] {
      BoundsAreUnique(boxes[i], boxes'[i], found[i], b.top);
    }
    assert boxes == boxes';
  }

  lemma ListingsAgree(b: Band, minArea: int, s: seq<set<Pixel>>, t: seq<set<Pixel>>)
    requires b.Valid() && IsListing(b, minArea, s) && IsListing(b, minArea, t)
    ensures s == t
  {
    hide MetBefore, ComponentOf, Connected, Band.InkPixels;
    forall c <- s ensures c != {} {
      assert IsComponent(b, c);
      var p :| b.Has(p) && c == ComponentOf(b, p);
      ConnectedSelf(b, p);
      assert p in c;
    }
    hide IsComponent;
    ListingIsUnique(s, t);
  }
}
