/**
 Splitting the sprite sheet into bands of rows (`detect_rows` in
 scripts/build-crew-vibes-font.py), and what `main` makes of the bands.
 */
module RowBands {
  import opened Bitmaps
  import FloodFill

  /** First and last row, both included. */
  datatype Run = Run(first: int, last: int)

  /** Row `y` has ink in one of the first `w` columns. Rows that do not exist have none. */
  predicate Inked(b: Bitmap, w: nat, y: int) {
    exists x :: 0 <= x < w && Ink(b, Pixel(x, y))
  }

  // ---------- runs of inked rows ----------

  /** A run of inked rows that cannot be made longer and has at least `minHeight` rows. */
  ghost predicate IsTallRun(b: Bitmap, w: nat, minHeight: int, r: Run) {
    && r.first <= r.last && r.last - r.first + 1 >= minHeight
    && (forall y :: r.first <= y <= r.last ==> Inked(b, w, y))
    && !Inked(b, w, r.first - 1) && !Inked(b, w, r.last + 1)
  }

  /** All tall runs that end above row `below`, from top to bottom. */
  ghost predicate AreTallRuns(b: Bitmap, w: nat, minHeight: int, below: int, runs: seq<Run>) {
    && (forall r :: r in runs <==> IsTallRun(b, w, minHeight, r) && r.last < below)
    && forall i, j :: 0 <= i < j < |runs| ==> runs[i].last + 1 < runs[j].first
  }

  lemma RunsSkipRow(b: Bitmap, w: nat, minHeight: int, y: int, runs: seq<Run>)
    requires AreTallRuns(b, w, minHeight, y, runs) && !Inked(b, w, y)
    ensures AreTallRuns(b, w, minHeight, y + 1, runs)
  {
    assert forall r :: IsTallRun(b, w, minHeight, r) ==> Inked(b, w, r.last);
  }

  /** The only run that ends in the inked stretch `from..to` is the stretch itself. */
  lemma RunInStretch(b: Bitmap, w: nat, minHeight: int, from: int, to: int, r: Run)
    requires from < to && !Inked(b, w, from - 1) && !Inked(b, w, to)
    requires forall y :: from <= y < to ==> Inked(b, w, y)
    ensures IsTallRun(b, w, minHeight, r) && from <= r.last < to ==> r == Run(from, to - 1)
  {
    assert r.first <= from - 1 <= r.last && IsTallRun(b, w, minHeight, r) ==> Inked(b, w, from - 1);
    assert from <= r.last + 1 < to ==> Inked(b, w, r.last + 1);
    assert from <= r.first - 1 < to ==> Inked(b, w, r.first - 1);
  }

  lemma RunsTakeStretch(b: Bitmap, w: nat, minHeight: int, from: int, to: int, runs: seq<Run>)
    requires AreTallRuns(b, w, minHeight, from, runs)
    requires from < to && !Inked(b, w, from - 1) && !Inked(b, w, to)
    requires forall y :: from <= y < to ==> Inked(b, w, y)
    ensures AreTallRuns(b, w, minHeight, to, if to - from >= minHeight then runs + [Run(from, to - 1)] else runs)
  {
    forall s | IsTallRun(b, w, minHeight, s) && from <= s.last < to ensures s == Run(from, to - 1) {
      RunInStretch(b, w, minHeight, from, to, s);
    }
    forall s | s in runs ensures s.last + 1 < from {
      assert Inked(b, w, s.last);
    }
    assert to - from >= minHeight ==> IsTallRun(b, w, minHeight, Run(from, to - 1));
  }

  lemma ImageEdges(b: Bitmap, w: nat, minHeight: int, y: int)
    ensures AreTallRuns(b, w, minHeight, 0, [])
    ensures y < 0 || y >= |b| ==> !Inked(b, w, y)
  {
    assert forall r :: IsTallRun(b, w, minHeight, r) ==> Inked(b, w, r.last);
  }

  /** The first loop of the source. */
  method FindTallRuns(b: Bitmap, w: nat, minHeight: int) returns (runs: seq<Run>)
    ensures AreTallRuns(b, w, minHeight, |b|, runs)
  {
    runs := [];
    var i := 0;
    ImageEdges(b, w, minHeight, -1);
    hide *;
    while i < |b|
      invariant 0 <= i <= |b| && AreTallRuns(b, w, minHeight, i, runs)
      invariant Inked(b, w, i - 1) ==> !Inked(b, w, i)
    {
      if Inked(b, w, i) {
        var j := i;
        while j < |b| && Inked(b, w, j)
          invariant i <= j <= |b| && forall y :: i <= y < j ==> Inked(b, w, y)
          invariant j == i ==> Inked(b, w, j)
        {
          j := j + 1;
        }
        ImageEdges(b, w, minHeight, j);
        RunsTakeStretch(b, w, minHeight, i, j, runs);
        if j - i >= minHeight {
          runs := runs + [Run(i, j - 1)];
        }
        i := j;
      } else {
        RunsSkipRow(b, w, minHeight, i, runs);
        i := i + 1;
      }
    }
  }

  // ---------- joining runs to bands ----------

  /** `band` joins the runs `from..to`, neighbours among them at most `gap` apart. */
  ghost predicate IsGroup(runs: seq<Run>, gap: int, from: nat, to: nat, band: Run) {
    && from < to <= |runs|
    && band == Run(runs[from].first, runs[to - 1].last)
    && forall i :: from < i < to ==> runs[i].first - runs[i - 1].last <= gap
  }

  /** `cuts[k]` counts the runs before band `k`. Bands join all the runs there are, each into one
      band, and between two bands the distance is larger than `gap`. */
  ghost predicate IsGrouping(runs: seq<Run>, gap: int, bands: seq<Run>, cuts: seq<nat>) {
    && |cuts| == |bands| + 1 && cuts[0] == 0 && cuts[|bands|] == |runs|
    && (forall k :: 0 <= k < |bands| ==> IsGroup(runs, gap, cuts[k], cuts[k + 1], bands[k]))
    && (forall k :: 0 < k < |bands| ==> bands[k].first - bands[k - 1].last > gap)
  }

  lemma GroupInLonger(runs: seq<Run>, r: Run, gap: int, from: nat, to: nat, band: Run)
    requires IsGroup(runs, gap, from, to, band)
    ensures IsGroup(runs + [r], gap, from, to, band)
  {
  }

  lemma JoinLast(runs: seq<Run>, r: Run, gap: int, bands: seq<Run>, cuts: seq<nat>)
    requires IsGrouping(runs, gap, bands, cuts) && bands != [] && r.first - bands[|bands| - 1].last <= gap
    ensures var m := |bands| - 1;
            IsGrouping(runs + [r], gap, bands[..m] + [Run(bands[m].first, r.last)], cuts[..m + 1] + [|runs| + 1])
  {
    var m := |bands| - 1;
    var joined := Run(bands[m].first, r.last);
    var bands', cuts' := bands[..m] + [joined], cuts[..m + 1] + [|runs| + 1];
    assert IsGroup(runs, gap, cuts[m], |runs|, bands[m]);
    forall k | 0 <= k <= m ensures IsGroup(runs + [r], gap, cuts'[k], cuts'[k + 1], bands'[k]) {
      if k < m {
        GroupInLonger(runs, r, gap, cuts[k], cuts[k + 1], bands[k]);
      }
    }
  }

  lemma BeginBand(runs: seq<Run>, r: Run, gap: int, bands: seq<Run>, cuts: seq<nat>)
    requires IsGrouping(runs, gap, bands, cuts) && (bands != [] ==> r.first - bands[|bands| - 1].last > gap)
    ensures IsGrouping(runs + [r], gap, bands + [r], cuts + [|runs| + 1])
  {
    var bands', cuts' := bands + [r], cuts + [|runs| + 1];
    forall k | 0 <= k < |bands'| ensures IsGroup(runs + [r], gap, cuts'[k], cuts'[k + 1], bands'[k]) {
      if k < |bands| {
        GroupInLonger(runs, r, gap, cuts[k], cuts[k + 1], bands[k]);
      }
    }
  }

  /** The second loop of the source: the last band is made longer or a new one begun. */
  method JoinRuns(runs: seq<Run>, gap: int) returns (bands: seq<Run>)
    ensures exists cuts :: IsGrouping(runs, gap, bands, cuts)
  {
    bands := [];
    ghost var cuts: seq<nat> := [0];
    for n := 0 to |runs|
      invariant IsGrouping(runs[..n], gap, bands, cuts)
    {
      var r := runs[n];
      assert runs[..n + 1] == runs[..n] + [r];
      if bands != [] && r.first - bands[|bands| - 1].last <= gap {
        JoinLast(runs[..n], r, gap, bands, cuts);
        bands, cuts := bands[..|bands| - 1] + [Run(bands[|bands| - 1].first, r.last)], cuts[..|bands|] + [n + 1];
      } else {
        BeginBand(runs[..n], r, gap, bands, cuts);
        bands, cuts := bands + [r], cuts + [n + 1];
      }
    }
    assert runs[..|runs|] == runs;
  }

  /** The bands that join the tall runs of the image. */
  ghost predicate AreBands(b: Bitmap, w: nat, minHeight: int, gap: int, bands: seq<Run>) {
    exists runs, cuts :: AreTallRuns(b, w, minHeight, |b|, runs) && IsGrouping(runs, gap, bands, cuts)
  }

  method DetectRows(b: Bitmap, w: nat, minHeight: int, gap: int) returns (bands: seq<Run>)
    ensures AreBands(b, w, minHeight, gap, bands)
  {
    var runs := FindTallRuns(b, w, minHeight);
    bands := JoinRuns(runs, gap);
  }

  // ---------- what the bands are used for ----------

  /** The band as `main` hands it on: the last row of a run is passed where the flood fill takes
      the first row below the band. */
  function ScannedBand(b: Bitmap, w: nat, band: Run): FloodFill.Band
    requires 0 <= band.first <= band.last
  {
    FloodFill.Band(b, w, band.first, band.last)
  }

  lemma BandEdges(b: Bitmap, w: nat, minHeight: int, gap: int, bands: seq<Run>, k: nat)
    requires AreBands(b, w, minHeight, gap, bands) && k < |bands|
    ensures 0 <= bands[k].first <= bands[k].last < |b| && Inked(b, w, bands[k].first) && Inked(b, w, bands[k].last)
  {
    var runs: seq<Run>, cuts: seq<nat> :| AreTallRuns(b, w, minHeight, |b|, runs) && IsGrouping(runs, gap, bands, cuts);
    assert IsGroup(runs, gap, cuts[k], cuts[k + 1], bands[k]);
    var i, j := cuts[k], cuts[k + 1] - 1;
    assert runs[i] in runs && runs[j] in runs;
    assert Inked(b, w, runs[i].first) && Inked(b, w, runs[j].last);
    ImageEdges(b, w, minHeight, runs[i].first);
    assert i < j ==> runs[i].last + 1 < runs[j].first;
  }

  /** The scan sees the ink of all rows of the band but the last. */
  ghost predicate ScansAllButLast(b: Bitmap, w: nat, band: Run)
    requires 0 <= band.first <= band.last
  {
    var scanned := ScannedBand(b, w, band);
    && scanned.Valid()
    && forall p: Pixel :: scanned.Has(p) <==>
                            p.y >= 0 && p.y + band.first < band.last && Ink(b, Pixel(p.x, p.y + band.first))
  }

  /** So the last row of every band holds ink that is never scanned for sprites, while all other
      rows of the band are. */
  lemma LastRowIsNotScanned(b: Bitmap, w: nat, minHeight: int, gap: int, bands: seq<Run>, k: nat)
    requires IsRectangular(b) && w == Width(b) && AreBands(b, w, minHeight, gap, bands) && k < |bands|
    ensures 0 <= bands[k].first <= bands[k].last < |b| && Inked(b, w, bands[k].last)
    ensures ScansAllButLast(b, w, bands[k])
  {
    hide *;
    BandEdges(b, w, minHeight, gap, bands, k);
    ScannedPixels(b, w, bands[k]);
  }

  lemma ScannedPixels(b: Bitmap, w: nat, band: Run)
    requires IsRectangular(b) && w == Width(b) && 0 <= band.first <= band.last < |b|
    ensures ScansAllButLast(b, w, band)
  {
    var scanned := ScannedBand(b, w, band);
    assert scanned.Valid();
    forall p: Pixel
      ensures scanned.Has(p) <==>
              p.y >= 0 && p.y + band.first < band.last && Ink(b, Pixel(p.x, p.y + band.first))
    {
      ScannedPixel(b, w, band, p);
    }
  }

  lemma ScannedPixel(b: Bitmap, w: nat, band: Run, p: Pixel)
    requires IsRectangular(b) && w == Width(b) && 0 <= band.first <= band.last < |b|
    requires ScannedBand(b, w, band).Valid()
    ensures ScannedBand(b, w, band).Has(p) <==>
            p.y >= 0 && p.y + band.first < band.last && Ink(b, Pixel(p.x, p.y + band.first))
  {
  }
}
