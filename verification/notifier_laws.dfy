/**
 At most one notice for each run, although the memory of the notifier is bounded: over every number
 of ticks, on a list of runs that only grows.
 */
module NotifierLaws {
  import opened Wrappers
  import opened Notifier

  /** With at most this many ids remembered at the start, none is forgotten too early. */
  const MAX_SEED: nat := 218

  // ---------- lists of runs ----------

  predicate SameRun(a: Run, b: Run) {
    a.id == b.id && a.owner == b.owner && a.team == b.team && a.workflow == b.workflow
  }

  /** The p-th oldest. */
  function FromEnd<T>(s: seq<T>, p: nat): T
    requires p < |s|
  {
    s[|s| - 1 - p]
  }

  /** Runs are added; of those there are, only the status and the time of the last update change. */
  predicate Grown(older: seq<Run>, newer: seq<Run>) {
    |older| <= |newer| && forall p: nat | p < |older| :: SameRun(FromEnd(older, p), FromEnd(newer, p))
  }

  predicate DistinctRuns(runs: seq<Run>) {
    forall i, j :: 0 <= i < j < |runs| ==> runs[i].id != runs[j].id
  }

  predicate Distinct(s: seq<string>) {
    forall i, j :: 0 <= i < j < |s| ==> s[i] != s[j]
  }

  function Ids(runs: seq<Run>): (r: seq<string>)
    ensures |r| == |runs|
  {
    seq(|runs|, i requires 0 <= i < |runs| => runs[i].id)
  }

  lemma GrownTail(older: seq<Run>, newer: seq<Run>)
    requires Grown(older, newer) && newer != []
    ensures |newer| > |older| ==> Grown(older, newer[1..])
    ensures |newer| == |older| ==> SameRun(older[0], newer[0]) && Grown(older[1..], newer[1..])
  {
    if |newer| == |older| {
      assert SameRun(FromEnd(older, |older| - 1), FromEnd(newer, |older| - 1));
      forall p: nat | p < |older[1..]| ensures SameRun(FromEnd(older[1..], p), FromEnd(newer[1..], p)) {
        assert SameRun(FromEnd(older, p), FromEnd(newer, p));
      }
    } else {
      forall p: nat | p < |older| ensures SameRun(FromEnd(older, p), FromEnd(newer[1..], p)) {
        assert SameRun(FromEnd(older, p), FromEnd(newer, p));
      }
    }
  }

  lemma GrownPlus(older: seq<Run>, newer: seq<Run>, a: Run, b: Run)
    requires Grown(older, newer)
    ensures Grown(older, [b] + newer)
    ensures |older| == |newer| && SameRun(a, b) ==> Grown([a] + older, [b] + newer)
  {
    hide SameRun;
    forall p: nat | p < |older|
      ensures FromEnd([b] + newer, p) == FromEnd(newer, p) && FromEnd([a] + older, p) == FromEnd(older, p)
    {
    }
  }

  lemma {:induction false} OwnedSame(sid: Option<string>, older: seq<Run>, newer: seq<Run>)
    requires Grown(older, newer) && |older| == |newer|
    ensures Grown(Owned(sid, older), Owned(sid, newer)) && |Owned(sid, older)| == |Owned(sid, newer)|
  {
    if newer == [] {
    } else {
      GrownTail(older, newer);
      OwnedSame(sid, older[1..], newer[1..]);
      var a, b := Owned(sid, older[1..]), Owned(sid, newer[1..]);
      GrownPlus(a, b, older[0], newer[0]);
      assert [] + a == a && [] + b == b;
    }
  }

  lemma {:induction false} OwnedGrown(sid: Option<string>, older: seq<Run>, newer: seq<Run>)
    requires Grown(older, newer)
    ensures Grown(Owned(sid, older), Owned(sid, newer))
  {
    assert |older| <= |newer|;
    hide Grown, SameRun;
    if |newer| > |older| {
      GrownTail(older, newer);
      OwnedGrown(sid, older, newer[1..]);
      var rest := Owned(sid, newer[1..]);
      GrownPlus(Owned(sid, older), rest, newer[0], newer[0]);
      assert [] + rest == rest;
    } else {
      OwnedSame(sid, older, newer);
    }
  }

  lemma {:induction false} OwnedAreRuns(sid: Option<string>, runs: seq<Run>)
    ensures forall r :: r in Owned(sid, runs) <==> r in runs && Owns(sid, r)
  {
    if runs == [] {
    } else {
      OwnedAreRuns(sid, runs[1..]);
      assert runs == [runs[0]] + runs[1..];
    }
  }

  lemma {:induction false} OwnedDistinct(sid: Option<string>, runs: seq<Run>)
    requires DistinctRuns(runs)
    ensures DistinctRuns(Owned(sid, runs))
  {
    if runs == [] {
    } else {
      var rest := Owned(sid, runs[1..]);
      OwnedDistinct(sid, runs[1..]);
      OwnedAreRuns(sid, runs[1..]);
      forall i | 0 <= i < |rest| ensures rest[i].id != runs[0].id {
        assert rest[i] in runs[1..];
      }
    }
  }

  lemma {:induction false} OwnedOfFirst(sid: Option<string>, runs: seq<Run>, n: nat)
    ensures var part := Owned(sid, First(runs, n));
            |part| <= |Owned(sid, runs)| && part == Owned(sid, runs)[..|part|]
  {
    if runs != [] && |runs| > n > 0 {
      OwnedOfFirst(sid, runs[1..], n - 1);
      assert First(runs, n)[1..] == First(runs[1..], n - 1);
    } else if |runs| <= n {
      var o := Owned(sid, runs);
      assert o == o[..|o|];
    }
  }

  /** What is polled are the newest of the owned runs. */
  lemma PolledAreNewest(sid: Option<string>, runs: seq<Run>)
    ensures var polled := Polled(sid, runs);
            |polled| <= MAX_POLLED && |polled| <= |Owned(sid, runs)| && polled == Owned(sid, runs)[..|polled|]
  {
    OwnedOfFirst(sid, runs, MAX_LISTED);
  }

  // ---------- what has been inserted ----------

  /** A remembered run: the p-th oldest of the owned ones, polled when there were n of them. */
  datatype Mark = Mark(id: string, p: nat, n: nat, internal: bool)

  predicate IsMark(m: Mark, owned: seq<Run>) {
    && m.p < m.n <= |owned| && m.n <= m.p + MAX_POLLED
    && FromEnd(owned, m.p).id == m.id && IsInternal(FromEnd(owned, m.p)) == m.internal
  }

  function MarkIds(marks: seq<Mark>): (r: seq<string>)
    ensures |r| == |marks|
  {
    seq(|marks|, i requires 0 <= i < |marks| => marks[i].id)
  }

  /** The ids to give notice of. */
  function Announced(marks: seq<Mark>): seq<string> {
    if marks == [] then []
    else Announced(marks[..|marks| - 1]) + if marks[|marks| - 1].internal then [] else [marks[|marks| - 1].id]
  }

  function CallIds(calls: seq<Notice>): (r: seq<string>)
    ensures |r| == |calls|
  {
    seq(|calls|, i requires 0 <= i < |calls| => calls[i].id)
  }

  /** Each id is that of one of the n0 oldest of the owned runs. */
  predicate AreIdsOf(seeds: seq<string>, owned: seq<Run>, n0: nat) {
    n0 <= |owned| && forall i | 0 <= i < |seeds| :: IsIdOf(seeds[i], owned, n0)
  }

  predicate IsIdOf(id: string, owned: seq<Run>, n0: nat)
    requires n0 <= |owned|
  {
    exists p: nat | p < n0 :: FromEnd(owned, p).id == id
  }

  predicate AreMarks(marks: seq<Mark>, owned: seq<Run>, n0: nat) {
    && (forall j | 0 <= j < |marks| :: IsMark(marks[j], owned) && n0 <= marks[j].n)
    && (forall j, k | 0 <= j < k < |marks| :: marks[j].n <= marks[k].n)
  }

  /** The cached runs are among the newest when there were n of the owned runs. */
  predicate WasPolled(cached: seq<Run>, owned: seq<Run>, n: nat) {
    n <= |owned| && forall i | 0 <= i < |cached| :: IsRecent(cached[i], owned, n)
  }

  predicate IsRecent(r: Run, owned: seq<Run>, n: nat)
    requires n <= |owned|
  {
    exists p: nat | p < n <= p + MAX_POLLED :: SameRun(r, FromEnd(owned, p))
  }

  predicate NoneLater(marks: seq<Mark>, n: nat) { forall j | 0 <= j < |marks| :: marks[j].n <= n }

  predicate Remembers(seen: seq<string>, seeds: seq<string>, marks: seq<Mark>) {
    Distinct(seeds + MarkIds(marks)) && seen == Trim(seeds + MarkIds(marks))
  }

  ghost predicate Inv(s: State, calls0: seq<string>, seeds: seq<string>, marks: seq<Mark>, owned: seq<Run>, n0: nat,
          n: nat)
  {
    && DistinctRuns(owned) && |seeds| <= MAX_SEED
    && AreIdsOf(seeds, owned, n0) && AreMarks(marks, owned, n0) && NoneLater(marks, n) && n0 <= n <= |owned|
    && Remembers(s.seen, seeds, marks)
    && (s.cached.Some? ==> WasPolled(s.cached.value, owned, n))
    && CallIds(s.calls) == calls0 + Announced(marks)
  }

  // ---------- no id is forgotten while its run is polled ----------

  /** Different integers of an interval without one of its members. */
  lemma Crowded(s: seq<int>, lo: int, hi: int, hole: int)
    requires forall i, j :: 0 <= i < j < |s| ==> s[i] != s[j]
    requires lo <= hole < hi && (forall i :: 0 <= i < |s| ==> lo <= s[i] < hi && s[i] != hole)
    ensures |s| <= hi - lo - 1
  {
    var all := Interval(lo, hi) - {hole};
    IntervalIs(lo, hi);
    var mine := set x | x in s;
    SeqSize(s);
    assert all == mine + (all - mine);
  }

  function Interval(lo: int, hi: int): set<int>
    decreases hi - lo
  {
    if lo < hi then Interval(lo, hi - 1) + {hi - 1} else {}
  }

  lemma {:induction false} IntervalIs(lo: int, hi: int)
    requires lo <= hi
    ensures forall x :: x in Interval(lo, hi) <==> lo <= x < hi
    ensures |Interval(lo, hi)| == hi - lo
    decreases hi - lo
  {
    if lo < hi {
      IntervalIs(lo, hi - 1);
    }
  }

  lemma {:induction false} SeqSize(s: seq<int>)
    requires forall i, j :: 0 <= i < j < |s| ==> s[i] != s[j]
    ensures |set x | x in s| == |s|
  {
    if s == [] {
    } else {
      var n := |s| - 1;
      SeqSize(s[..n]);
      assert s == s[..n] + [s[n]];
      assert (set x | x in s) == (set x | x in s[..n]) + {s[n]};
    }
  }

  /** At most 38 other runs can be inserted from when a run is polled first to when it is polled
      last: 19 older ones and 19 newer ones. */
  lemma FewInsertedMeanwhile(marks: seq<Mark>, owned: seq<Run>, from: nat, p: nat, n: nat)
    requires from <= |marks| && Distinct(MarkIds(marks)) && NoneLater(marks, n)
    requires forall j | from <= j < |marks| :: IsMark(marks[j], owned) && p < marks[j].n && marks[j].p != p
    requires n <= p + MAX_POLLED
    ensures |marks| - from <= 2 * (MAX_POLLED - 1)
  {
    var later := marks[from..];
    var s := seq(|later|, i requires 0 <= i < |later| => later[i].p);
    forall i, j | 0 <= i < j < |s| ensures s[i] != s[j] {
      assert MarkIds(marks)[from + i] != MarkIds(marks)[from + j];
      assert later[i] == marks[from + i] && later[j] == marks[from + j];
    }
    forall i | 0 <= i < |s| ensures p - (MAX_POLLED - 1) <= s[i] < p + MAX_POLLED && s[i] != p {
      assert later[i] == marks[from + i];
      assert IsMark(marks[from + i], owned);
    }
    Crowded(s, p - (MAX_POLLED - 1), p + MAX_POLLED, p);
  }

  /** The id of a polled run that was ever inserted is still remembered. */
  lemma StillRemembered(s: State, calls0: seq<string>, seeds: seq<string>, marks: seq<Mark>, owned: seq<Run>, n0: nat,
          n: nat, i: nat)
    requires Inv(s, calls0, seeds, marks, owned, n0, n)
    requires s.cached.Some? && i < |s.cached.value| && s.cached.value[i].id in seeds + MarkIds(marks)
    ensures s.cached.value[i].id in s.seen
  {
    var id := s.cached.value[i].id;
    var all := seeds + MarkIds(marks);
    var k :| 0 <= k < |all| && all[k] == id;
    assert IsRecent(s.cached.value[i], owned, n);
    assert |MarkIds(marks)| == |marks| && (k >= |seeds| ==> marks[k - |seeds|].id == id);
    assert s.seen == Trim(all);
    hide AreIdsOf, AreMarks, NoneLater, DistinctRuns, MarkIds, Trim, FromEnd, Distinct;
    var p: nat :| p < n <= p + MAX_POLLED && SameRun(s.cached.value[i], FromEnd(owned, p));
    if k < |seeds| {
      FewAfterSeed(seeds, marks, owned, n0, n, k, p);
    } else {
      FewAfterMark(seeds, marks, owned, n0, n, k - |seeds|, p);
    }
    TrimKeepsLast(all, k);
  }

  lemma TrimKeepsLast(all: seq<string>, k: nat)
    requires k < |all| && |all| - k <= MAX_SEEN
    ensures all[k] in Trim(all)
  {
    assert all[k] == Trim(all)[if |all| > MAX_SEEN then k - (|all| - MAX_SEEN) else k];
  }

  lemma DistinctMarkIds(seeds: seq<string>, marks: seq<Mark>)
    requires Distinct(seeds + MarkIds(marks))
    ensures Distinct(MarkIds(marks))
  {
    var all := seeds + MarkIds(marks);
    forall i, j | 0 <= i < j < |marks| ensures MarkIds(marks)[i] != MarkIds(marks)[j] {
      assert all[|seeds| + i] != all[|seeds| + j];
    }
  }

  lemma FewAfterSeed(seeds: seq<string>, marks: seq<Mark>, owned: seq<Run>, n0: nat, n: nat, k: nat, p: nat)
    requires DistinctRuns(owned) && |seeds| <= MAX_SEED && AreIdsOf(seeds, owned, n0)
    requires AreMarks(marks, owned, n0) && NoneLater(marks, n) && Distinct(seeds + MarkIds(marks))
    requires k < |seeds| && p < n <= p + MAX_POLLED && n <= |owned| && FromEnd(owned, p).id == seeds[k]
    ensures |seeds| + |marks| - k <= MAX_SEEN
  {
    DistinctMarkIds(seeds, marks);
    var all := seeds + MarkIds(marks);
    assert IsIdOf(seeds[k], owned, n0);
    var q: nat :| q < n0 && FromEnd(owned, q).id == seeds[k];
    assert p == q;
    forall j | 0 <= j < |marks| ensures IsMark(marks[j], owned) && p < marks[j].n && marks[j].p != p {
      assert all[k] != all[|seeds| + j];
    }
    FewInsertedMeanwhile(marks, owned, 0, p, n);
  }

  lemma FewAfterMark(seeds: seq<string>, marks: seq<Mark>, owned: seq<Run>, n0: nat, n: nat, k: nat, p: nat)
    requires DistinctRuns(owned)
    requires AreMarks(marks, owned, n0) && NoneLater(marks, n) && Distinct(seeds + MarkIds(marks))
    requires k < |marks| && p < n <= p + MAX_POLLED && n <= |owned| && FromEnd(owned, p).id == marks[k].id
    ensures |marks| - k <= MAX_SEEN
  {
    DistinctMarkIds(seeds, marks);
    assert IsMark(marks[k], owned);
    assert p == marks[k].p;
    forall j | k + 1 <= j < |marks| ensures IsMark(marks[j], owned) && p < marks[j].n && marks[j].p != p {
      assert MarkIds(marks)[k] != MarkIds(marks)[j];
      assert marks[k].n <= marks[j].n;
    }
    FewInsertedMeanwhile(marks, owned, k + 1, p, n);
  }

  // ---------- every step keeps it ----------

  lemma MarksGrow(marks: seq<Mark>, older: seq<Run>, newer: seq<Run>, n0: nat)
    requires AreMarks(marks, older, n0) && Grown(older, newer)
    ensures AreMarks(marks, newer, n0)
  {
    forall j | 0 <= j < |marks| ensures IsMark(marks[j], newer) && n0 <= marks[j].n {
      assert IsMark(marks[j], older);
      assert SameRun(FromEnd(older, marks[j].p), FromEnd(newer, marks[j].p));
    }
  }

  lemma IdsGrow(seeds: seq<string>, older: seq<Run>, newer: seq<Run>, n0: nat)
    requires AreIdsOf(seeds, older, n0) && Grown(older, newer)
    ensures AreIdsOf(seeds, newer, n0)
  {
    forall i | 0 <= i < |seeds| ensures IsIdOf(seeds[i], newer, n0) {
      assert IsIdOf(seeds[i], older, n0);
      var p: nat :| p < n0 && FromEnd(older, p).id == seeds[i];
      assert SameRun(FromEnd(older, p), FromEnd(newer, p));
    }
  }

  lemma PolledGrow(cached: seq<Run>, older: seq<Run>, newer: seq<Run>, n: nat)
    requires WasPolled(cached, older, n) && Grown(older, newer)
    ensures WasPolled(cached, newer, n)
  {
    forall i | 0 <= i < |cached|
      ensures IsRecent(cached[i], newer, n)
    {
      assert IsRecent(cached[i], older, n);
      var p: nat :| p < n <= p + MAX_POLLED && SameRun(cached[i], FromEnd(older, p));
      assert SameRun(FromEnd(older, p), FromEnd(newer, p));
    }
  }

  lemma GrowthKeepsInv(s: State, calls0: seq<string>, seeds: seq<string>, marks: seq<Mark>, older: seq<Run>,
          newer: seq<Run>, n0: nat, n: nat)
    requires Inv(s, calls0, seeds, marks, older, n0, n) && Grown(older, newer) && DistinctRuns(newer)
    ensures Inv(s, calls0, seeds, marks, newer, n0, n)
  {
    assert |older| <= |newer|;
    hide AreIdsOf, AreMarks, WasPolled, Grown, DistinctRuns, Remembers, NoneLater, CallIds, Announced;
    MarksGrow(marks, older, newer, n0);
    IdsGrow(seeds, older, newer, n0);
    if s.cached.Some? {
      PolledGrow(s.cached.value, older, newer, n);
    }
  }

  lemma NewestIsRecent(r: Run, o: seq<Run>, i: nat)
    requires i < |o| && i < MAX_POLLED && r == o[i]
    ensures IsRecent(r, o, |o|)
  {
    var p: nat := |o| - 1 - i;
    assert p < |o| <= p + MAX_POLLED && SameRun(r, FromEnd(o, p));
  }

  lemma NewestArePolled(sid: Option<string>, runs: seq<Run>)
    ensures WasPolled(Polled(sid, runs), Owned(sid, runs), |Owned(sid, runs)|)
  {
    PolledAreNewest(sid, runs);
    var c, o := Polled(sid, runs), Owned(sid, runs);
    hide Polled, Owned, IsRecent;
    forall i | 0 <= i < |c| ensures IsRecent(c[i], o, |o|) {
      assert c[i] == o[..|c|][i];
      NewestIsRecent(c[i], o, i);
    }
  }

  lemma ListingKeepsInv(s: State, now: int, runs: seq<Run>, calls0: seq<string>, seeds: seq<string>, marks: seq<Mark>,
          n0: nat, n: nat)
    returns (m: nat)
    requires Inv(s, calls0, seeds, marks, Owned(s.sid, runs), n0, n)
    ensures Inv(Listed(s, now, runs), calls0, seeds, marks, Owned(s.sid, runs), n0, m)
  {
    hide AreIdsOf, AreMarks, WasPolled, DistinctRuns, Remembers, CallIds, Announced, Polled, Owned;
    NewestArePolled(s.sid, runs);
    m := if Listed(s, now, runs) == s then n else |Owned(s.sid, runs)|;
  }

  lemma DistinctPlus(s: seq<string>, x: string)
    requires Distinct(s) && x !in s
    ensures Distinct(s + [x])
  {
  }

  lemma TrimTwice(s: seq<string>, x: string)
    ensures Trim(Trim(s) + [x]) == Trim(s + [x])
  {
  }

  lemma RememberOneMore(seen: seq<string>, seeds: seq<string>, marks: seq<Mark>, m: Mark)
    requires Remembers(seen, seeds, marks) && m.id !in seeds + MarkIds(marks)
    ensures Remembers(Add(seen, m.id), seeds, marks + [m])
  {
    var all := seeds + MarkIds(marks);
    assert MarkIds(marks + [m]) == MarkIds(marks) + [m.id];
    assert seeds + MarkIds(marks + [m]) == all + [m.id];
    DistinctPlus(all, m.id);
    TrimTwice(all, m.id);
    assert forall x <- seen :: x in all;
  }

  lemma AreMarksPlus(marks: seq<Mark>, owned: seq<Run>, n0: nat, m: Mark)
    requires AreMarks(marks, owned, n0) && NoneLater(marks, m.n) && IsMark(m, owned) && n0 <= m.n
    ensures AreMarks(marks + [m], owned, n0) && NoneLater(marks + [m], m.n)
  {
  }

  lemma AnnouncedPlus(calls: seq<Notice>, calls0: seq<string>, marks: seq<Mark>, m: Mark, x: Notice)
    requires CallIds(calls) == calls0 + Announced(marks) && x.id == m.id
    ensures CallIds(calls + if m.internal then [] else [x]) == calls0 + Announced(marks + [m])
  {
    assert (marks + [m])[..|marks|] == marks;
    assert CallIds(calls + [x]) == CallIds(calls) + [x.id];
    assert calls + [] == calls;
    assert Announced(marks) + [] == Announced(marks);
  }

  /** A run of which nothing was known yet is marked. */
  lemma MarkOf(c: Run, owned: seq<Run>, cached: seq<Run>, n: nat) returns (m: Mark)
    requires WasPolled(cached, owned, n) && c in cached
    ensures IsMark(m, owned) && m.id == c.id && m.n == n && m.internal == IsInternal(c)
  {
    var i :| 0 <= i < |cached| && cached[i] == c;
    assert IsRecent(cached[i], owned, n);
    var p: nat :| p < n <= p + MAX_POLLED && SameRun(cached[i], FromEnd(owned, p));
    m := Mark(c.id, p, n, IsInternal(c));
  }

  lemma VisitKeepsInv(s: State, c: Run, died: set<string>, throws: bool, calls0: seq<string>, seeds: seq<string>,
          marks: seq<Mark>, owned: seq<Run>, n0: nat, n: nat)
    returns (more: seq<Mark>)
    requires Inv(s, calls0, seeds, marks, owned, n0, n) && s.cached.Some? && c in s.cached.value
    ensures Inv(Visited(s, Current(c, died), throws), calls0, seeds, marks + more, owned, n0, n)
    ensures IsFinished(Current(c, died).status) ==> c.id in seeds + MarkIds(marks + more)
    ensures forall m <- more :: !m.internal <==> !IsInternal(c)
  {
    hide AreIdsOf, AreMarks, WasPolled, DistinctRuns, Remembers, CallIds, Announced, NoneLater, Owned, Add, IsMark,
        IsInternal, MarkIds;
    more := [];
    assert marks + [] == marks;
    var r := Current(c, died);
    var i :| 0 <= i < |s.cached.value| && s.cached.value[i] == c;
    if IsFinished(r.status) && r.id in s.seen {
      SeenWasInserted(s.seen, seeds, marks, c.id);
    } else if IsFinished(r.status) {
      if c.id in seeds + MarkIds(marks) {
        StillRemembered(s, calls0, seeds, marks, owned, n0, n, i);
      }
      var m := MarkOf(c, owned, s.cached.value, n);
      more := [m];
      RememberOneMore(s.seen, seeds, marks, m);
      AreMarksPlus(marks, owned, n0, m);
      assert IsInternal(r) == IsInternal(c) by { InternalCurrent(c, died); }
      AnnouncedPlus(s.calls, calls0, marks, m, Notice(r.id, r.status, LevelOf(r.status), throws));
      LastIsIn(seeds, marks, m);
    }
  }

  lemma InternalCurrent(c: Run, died: set<string>)
    ensures IsInternal(Current(c, died)) == IsInternal(c)
  {
  }

  lemma SeenWasInserted(seen: seq<string>, seeds: seq<string>, marks: seq<Mark>, id: string)
    requires Remembers(seen, seeds, marks) && id in seen
    ensures id in seeds + MarkIds(marks)
  {
  }

  lemma LastIsIn(seeds: seq<string>, marks: seq<Mark>, m: Mark)
    ensures m.id in seeds + MarkIds(marks + [m])
  {
    assert MarkIds(marks + [m])[|marks|] == m.id;
  }

  lemma InsertedStay(seeds: seq<string>, marks: seq<Mark>, more: seq<Mark>, id: string)
    requires id in seeds + MarkIds(marks)
    ensures id in seeds + MarkIds(marks + more)
  {
    assert MarkIds(marks + more) == MarkIds(marks) + MarkIds(more);
  }

  lemma {:induction false} VisitedSame(s: State, runs: seq<Run>, died: set<string>, throws: bool)
    ensures var t := VisitedAll(s, runs, died, throws); t == s.(seen := t.seen, calls := t.calls)
  {
    if runs == [] {
    } else {
      VisitedSame(s, runs[..|runs| - 1], died, false);
    }
  }

  lemma {:induction false} VisitsKeepInv(s: State, runs: seq<Run>, died: set<string>, throws: bool,
          calls0: seq<string>, seeds: seq<string>, marks: seq<Mark>, owned: seq<Run>, n0: nat, n: nat)
    returns (after: seq<Mark>)
    requires Inv(s, calls0, seeds, marks, owned, n0, n) && s.cached.Some? && (forall c <- runs :: c in s.cached.value)
    ensures Inv(VisitedAll(s, runs, died, throws), calls0, seeds, after, owned, n0, n)
    ensures forall c <- runs :: IsFinished(Current(c, died).status) ==> c.id in seeds + MarkIds(after)
  {
    hide Inv, Visited, MarkIds;
    after := marks;
    if runs == [] {
    } else {
      var c, before := runs[|runs| - 1], runs[..|runs| - 1];
      after := VisitsKeepInv(s, before, died, false, calls0, seeds, marks, owned, n0, n);
      VisitedSame(s, before, died, false);
      var more := VisitKeepsInv(VisitedAll(s, before, died, false), c, died, throws, calls0, seeds, after, owned, n0,
          n);
      forall b <- runs | IsFinished(Current(b, died).status) ensures b.id in seeds + MarkIds(after + more) {
        if b in before {
          InsertedStay(seeds, after, more, b.id);
        }
      }
      after := after + more;
    }
  }

  // ---------- runs ----------

  datatype Tick = Tick(now: int, runs: seq<Run>, died: set<string>, upTo: nat, throws: bool)

  function After(s: State, ticks: seq<Tick>): State {
    if ticks == [] then s
    else
      var t := ticks[|ticks| - 1];
      Ticked(After(s, ticks[..|ticks| - 1]), t.now, t.runs, t.died, t.upTo, t.throws)
  }

  function LastRuns(first: seq<Run>, ticks: seq<Tick>): seq<Run> {
    if ticks == [] then first else ticks[|ticks| - 1].runs
  }

  /** From the first list on, every tick finds a list that has grown. */
  predicate Growing(first: seq<Run>, ticks: seq<Tick>) {
    if ticks == [] then DistinctRuns(first)
    else
      var runs := ticks[|ticks| - 1].runs;
      var before := ticks[..|ticks| - 1];
      Growing(first, before) && DistinctRuns(runs) && Grown(LastRuns(first, before), runs)
  }

  /** A notifier that has listed nothing yet and remembers some of the owned runs. */
  predicate IsSeeded(s: State, first: seq<Run>) {
    && s.cached.None? && Distinct(s.seen) && |s.seen| <= MAX_SEED
    && AreIdsOf(s.seen, Owned(s.sid, first), |Owned(s.sid, first)|)
  }

  lemma SeededHasInv(s: State, first: seq<Run>)
    requires IsSeeded(s, first) && DistinctRuns(first)
    ensures var o := Owned(s.sid, first); Inv(s, CallIds(s.calls), s.seen, [], o, |o|, |o|)
  {
    OwnedDistinct(s.sid, first);
    assert s.seen + MarkIds([]) == s.seen;
    assert CallIds(s.calls) + Announced([]) == CallIds(s.calls);
  }

  lemma TickKeepsInv(s: State, t: Tick, older: seq<Run>, calls0: seq<string>, seeds: seq<string>, marks: seq<Mark>,
          n0: nat, n: nat)
    returns (after: seq<Mark>, m: nat)
    requires Inv(s, calls0, seeds, marks, Owned(s.sid, older), n0, n) && Grown(older, t.runs) && DistinctRuns(t.runs)
    ensures Inv(Ticked(s, t.now, t.runs, t.died, t.upTo, t.throws), calls0, seeds, after, Owned(s.sid, t.runs), n0, m)
    ensures Ticked(s, t.now, t.runs, t.died, t.upTo, t.throws).sid == s.sid
    ensures var u := Ticked(s, t.now, t.runs, t.died, t.upTo, t.throws);
            u.cached.Some? && forall c <- First(u.cached.value, t.upTo) ::
              IsFinished(Current(c, t.died).status) ==> c.id in seeds + MarkIds(after)
  {
    hide Inv, Grown, DistinctRuns, Owned, Polled, MarkIds, VisitedAll, IsFinished;
    OwnedGrown(s.sid, older, t.runs);
    OwnedDistinct(s.sid, t.runs);
    GrowthKeepsInv(s, calls0, seeds, marks, Owned(s.sid, older), Owned(s.sid, t.runs), n0, n);
    m := ListingKeepsInv(s, t.now, t.runs, calls0, seeds, marks, n0, n);
    var l := Listed(s, t.now, t.runs);
    var polled := First(l.cached.value, t.upTo);
    VisitedSame(l, polled, t.died, t.throws);
    after := VisitsKeepInv(l, polled, t.died, t.throws, calls0, seeds, marks, Owned(s.sid, t.runs), n0, m);
  }

  lemma {:induction false} RunKeepsInv(s: State, first: seq<Run>, ticks: seq<Tick>) returns (marks: seq<Mark>, n: nat)
    requires IsSeeded(s, first) && Growing(first, ticks)
    ensures After(s, ticks).sid == s.sid
    ensures Inv(After(s, ticks), CallIds(s.calls), s.seen, marks, Owned(s.sid, LastRuns(first, ticks)),
              |Owned(s.sid, first)|, n)
    ensures var t := After(s, ticks);
            ticks != [] ==> t.cached.Some? && forall c <- First(t.cached.value, ticks[|ticks| - 1].upTo) ::
              IsFinished(Current(c, ticks[|ticks| - 1].died).status) ==> c.id in s.seen + MarkIds(marks)
  {
    hide Inv, Grown, DistinctRuns, Owned, MarkIds, Ticked, IsSeeded, IsFinished;
    if ticks == [] {
      SeededHasInv(s, first);
      marks, n := [], |Owned(s.sid, first)|;
    } else {
      var before := ticks[..|ticks| - 1];
      marks, n := RunKeepsInv(s, first, before);
      marks, n := TickKeepsInv(After(s, before), ticks[|ticks| - 1], LastRuns(first, before), CallIds(s.calls), s.seen,
          marks, |Owned(s.sid, first)|, n);
    }
  }

  // ---------- what it means ----------

  lemma {:induction false} AnnouncedAreMarked(marks: seq<Mark>)
    ensures forall id :: id in Announced(marks) <==>
                         exists j :: 0 <= j < |marks| && marks[j].id == id && !marks[j].internal
  {
    if marks == [] {
    } else {
      var n := |marks| - 1;
      AnnouncedAreMarked(marks[..n]);
      forall id | id in Announced(marks)
        ensures exists j :: 0 <= j < |marks| && marks[j].id == id && !marks[j].internal
      {
        if id in Announced(marks[..n]) {
          var j :| 0 <= j < n && marks[..n][j].id == id && !marks[..n][j].internal;
          assert marks[j].id == id;
        } else {
          assert marks[n].id == id;
        }
      }
      forall j | 0 <= j < |marks| && !marks[j].internal ensures marks[j].id in Announced(marks) {
        if j < n {
          assert marks[..n][j] == marks[j];
        }
      }
    }
  }

  lemma {:induction false} AnnouncedDistinct(seeds: seq<string>, marks: seq<Mark>)
    requires Distinct(seeds + MarkIds(marks))
    ensures Distinct(Announced(marks)) && forall id <- Announced(marks) :: id !in seeds
  {
    if marks == [] {
    } else {
      var n := |marks| - 1;
      var before := seeds + MarkIds(marks[..n]);
      var all := seeds + MarkIds(marks);
      assert all == before + [marks[n].id] by {
        assert MarkIds(marks) == MarkIds(marks[..n]) + [marks[n].id];
      }
      assert Distinct(before) by {
        forall i, j | 0 <= i < j < |before| ensures before[i] != before[j] {
          assert all[i] == before[i] && all[j] == before[j];
        }
      }
      AnnouncedDistinct(seeds, marks[..n]);
      forall i | 0 <= i < |before| ensures before[i] != marks[n].id {
        assert all[i] != all[|before|];
      }
      LastIsNew(seeds, marks[..n], marks[n].id);
    }
  }

  lemma LastIsNew(seeds: seq<string>, marks: seq<Mark>, id: string)
    requires var before := seeds + MarkIds(marks); forall i | 0 <= i < |before| :: before[i] != id
    ensures id !in seeds && id !in Announced(marks)
  {
    var before := seeds + MarkIds(marks);
    assert forall i | 0 <= i < |seeds| :: before[i] == seeds[i];
    AnnouncedAreMarked(marks);
    forall j | 0 <= j < |marks| ensures marks[j].id != id {
      assert before[|seeds| + j] == marks[j].id;
    }
  }

  /** The calls of `notify` since the beginning. */
  function NewCalls(s: State, t: State): seq<Notice> {
    if |s.calls| <= |t.calls| then t.calls[|s.calls|..] else []
  }

  function NewIds(s: State, t: State): seq<string> { CallIds(NewCalls(s, t)) }

  /** A call for the run returned. */
  predicate WasTold(calls: seq<Notice>, id: string) { exists x <- calls :: x.id == id && !x.threw }

  predicate HasThrown(calls: seq<Notice>, id: string) { exists x <- calls :: x.id == id && x.threw }

  lemma NewIdsAreAnnounced(s: State, t: State, announced: seq<string>)
    requires CallIds(t.calls) == CallIds(s.calls) + announced
    ensures NewIds(s, t) == announced
  {
    assert |t.calls| == |s.calls| + |announced|;
    forall i | 0 <= i < |announced| ensures NewIds(s, t)[i] == announced[i] {
      assert CallIds(t.calls)[|s.calls| + i] == announced[i];
    }
  }

  /** In one generation `notify` is called at most once for each run, whether the call throws or not,
      and not for a run that was remembered at the start; it is called only for owned runs that are no
      turns of a goal loop. */
  lemma AtMostOneNotice(s: State, first: seq<Run>, ticks: seq<Tick>)
    requires IsSeeded(s, first) && Growing(first, ticks)
    ensures var told := NewIds(s, After(s, ticks));
            && Distinct(told) && (forall id <- told :: id !in s.seen)
            && forall id <- told :: exists r <- LastRuns(first, ticks) ::
                 && r.id == id && (s.sid.None? || r.owner.None? || r.owner == s.sid)
                 && !(r.workflow == Some("goal-turn") && "goal-" <= r.team)
  {
    var marks, n := RunKeepsInv(s, first, ticks);
    NewIdsAreAnnounced(s, After(s, ticks), Announced(marks));
    var runs := LastRuns(first, ticks);
    var owned := Owned(s.sid, runs);
    AnnouncedDistinct(s.seen, marks);
    AnnouncedAreMarked(marks);
    OwnedAreRuns(s.sid, runs);
    forall id <- Announced(marks) ensures exists r <- runs :: r.id == id && Owns(s.sid, r) && !IsInternal(r) {
      var j :| 0 <= j < |marks| && marks[j].id == id && !marks[j].internal;
      assert IsMark(marks[j], owned);
      var r := FromEnd(owned, marks[j].p);
      assert r in owned;
    }
  }

  lemma CallOf(calls: seq<Notice>, id: string)
    requires Distinct(CallIds(calls))
    ensures id in CallIds(calls) <==> WasTold(calls, id) || HasThrown(calls, id)
    ensures !(WasTold(calls, id) && HasThrown(calls, id))
  {
    if id in CallIds(calls) {
      var i :| 0 <= i < |calls| && CallIds(calls)[i] == id;
      assert calls[i] in calls;
    }
    forall x <- calls, y <- calls | x.id == y.id ensures x == y {
      var i :| 0 <= i < |calls| && calls[i] == x;
      var j :| 0 <= j < |calls| && calls[j] == y;
      assert CallIds(calls)[i] == CallIds(calls)[j];
    }
    forall x <- calls ensures x.id in CallIds(calls) {
      var i :| 0 <= i < |calls| && calls[i] == x;
      assert CallIds(calls)[i] == x.id;
    }
  }

  lemma ToldIff(s: State, first: seq<Run>, ticks: seq<Tick>, c: Run)
    requires IsSeeded(s, first) && Growing(first, ticks) && ticks != []
    requires var t := ticks[|ticks| - 1];
             After(s, ticks).cached.Some? && c in First(After(s, ticks).cached.value, t.upTo)
             && IsFinished(Current(c, t.died).status)
    ensures var calls := NewCalls(s, After(s, ticks));
            WasTold(calls, c.id) <==> c.id !in s.seen && !IsInternal(c) && !HasThrown(calls, c.id)
  {
    hide After, Owned, Growing, IsSeeded, IsInternal, NewCalls;
    var marks, n := RunKeepsInv(s, first, ticks);
    NewIdsAreAnnounced(s, After(s, ticks), Announced(marks));
    AnnouncedDistinct(s.seen, marks);
    CallOf(NewCalls(s, After(s, ticks)), c.id);
    AnnouncedIff(s.seen, marks, After(s, ticks).cached.value, Owned(s.sid, LastRuns(first, ticks)), n, c);
  }

  /** A finished run that a tick got to has had its notice exactly if it was not remembered at the start,
      is no turn of a goal loop, and no call of `notify` for it has thrown: a run whose call threw is
      remembered, so it is never told in this generation. */
  lemma EveryFinishIsTold(s: State, first: seq<Run>, ticks: seq<Tick>, c: Run)
    requires IsSeeded(s, first) && Growing(first, ticks) && ticks != []
    requires var t := ticks[|ticks| - 1];
             After(s, ticks).cached.Some? && c in First(After(s, ticks).cached.value, t.upTo)
             && Current(c, t.died).status != Active
    ensures var calls := NewCalls(s, After(s, ticks));
            WasTold(calls, c.id) <==>
              && c.id !in s.seen && !(c.workflow == Some("goal-turn") && "goal-" <= c.team)
              && !HasThrown(calls, c.id)
  {
    hide After, Owned, Growing, IsSeeded, NewCalls, WasTold, HasThrown, First;
    ToldIff(s, first, ticks, c);
  }

  lemma {:induction false} AnnouncedIff(seeds: seq<string>, marks: seq<Mark>, cached: seq<Run>, owned: seq<Run>,
          n: nat, c: Run)
    requires Distinct(seeds + MarkIds(marks)) && c.id in seeds + MarkIds(marks)
    requires WasPolled(cached, owned, n) && c in cached && DistinctRuns(owned)
    requires forall j | 0 <= j < |marks| :: IsMark(marks[j], owned)
    ensures c.id in Announced(marks) <==> c.id !in seeds && !IsInternal(c)
  {
    AnnouncedDistinct(seeds, marks);
    AnnouncedAreMarked(marks);
    forall j | 0 <= j < |marks| && marks[j].id == c.id ensures IsInternal(c) == marks[j].internal {
      SameInternal(cached, owned, n, c, marks[j]);
    }
    if c.id !in seeds {
      var j :| 0 <= j < |marks| && marks[j].id == c.id;
    }
  }

  lemma SameInternal(cached: seq<Run>, owned: seq<Run>, n: nat, c: Run, m: Mark)
    requires WasPolled(cached, owned, n) && c in cached && IsMark(m, owned) && m.id == c.id && DistinctRuns(owned)
    ensures IsInternal(c) == m.internal
  {
    var k := MarkOf(c, owned, cached, n);
    assert FromEnd(owned, k.p).id == FromEnd(owned, m.p).id;
    assert k.p == m.p;
  }

  // ---------- what is remembered at the start ----------

  function FinishedBefore(runs: seq<Run>, staleBefore: int): seq<string> {
    if runs == [] then []
    else (if WasFinished(runs[0], staleBefore) then [runs[0].id] else []) + FinishedBefore(runs[1..], staleBefore)
  }

  lemma {:induction false} FinishedAreRuns(runs: seq<Run>, staleBefore: int)
    requires DistinctRuns(runs)
    ensures Distinct(FinishedBefore(runs, staleBefore))
    ensures forall id <- FinishedBefore(runs, staleBefore) :: id in Ids(runs)
  {
    if runs == [] {
    } else {
      FinishedAreRuns(runs[1..], staleBefore);
      assert Ids(runs) == [runs[0].id] + Ids(runs[1..]);
      assert runs[0].id !in Ids(runs[1..]);
      var rest := FinishedBefore(runs[1..], staleBefore);
      assert [] + rest == rest;
    }
  }

  /** The run is one of this session, or of nobody, and had ended before that time. */
  predicate IsFormer(sid: Option<string>, r: Run, staleBefore: int) {
    (sid.None? || r.owner.None? || r.owner == sid) && r.status != Active && r.updatedAt < staleBefore
  }

  /** The former runs by their names: exactly the owned ones that had ended before the notifier was stopped,
      or before now if it never was. */
  lemma {:induction false} FormerAre(sid: Option<string>, runs: seq<Run>, staleBefore: int, id: string)
    ensures id in FinishedBefore(Owned(sid, runs), staleBefore) <==>
            exists r <- runs :: r.id == id && IsFormer(sid, r, staleBefore)
  {
    if runs == [] {
    } else {
      var r, rest := runs[0], runs[1..];
      FormerAre(sid, rest, staleBefore, id);
      assert runs == [r] + rest;
      var o := Owned(sid, rest);
      assert ([r] + o)[1..] == o && [] + o == o;
      assert FinishedBefore([r] + o, staleBefore) ==
             (if WasFinished(r, staleBefore) then [r.id] else []) + FinishedBefore(o, staleBefore);
      hide FinishedBefore, Owned;
      assert (exists x <- runs :: x.id == id && IsFormer(sid, x, staleBefore)) <==>
             (r.id == id && IsFormer(sid, r, staleBefore)) ||
             (exists x <- rest :: x.id == id && IsFormer(sid, x, staleBefore));
    }
  }

  lemma DistinctInMiddle(x: seq<string>, id: string, y: seq<string>)
    requires Distinct(x + ([id] + y))
    ensures id !in x && Distinct(x + [id] + y)
  {
    var all := x + ([id] + y);
    assert all == x + [id] + y;
    forall i | 0 <= i < |x| ensures x[i] != id {
      assert all[i] != all[|x|];
    }
  }

  lemma FirstFront(id: string, rest: seq<string>, n: nat)
    requires n > 0
    ensures First([id] + rest, n) == [id] + First(rest, n - 1)
  {
  }

  lemma {:induction false} SeededIs(seen: seq<string>, runs: seq<Run>, staleBefore: int)
    requires |seen| <= MAX_SEEN && Distinct(seen + FinishedBefore(runs, staleBefore))
    ensures Seeded(seen, runs, staleBefore) == seen + First(FinishedBefore(runs, staleBefore), MAX_SEEN - |seen|)
    decreases |runs|
  {
    if runs != [] && |seen| < MAX_SEEN {
      var rest := FinishedBefore(runs[1..], staleBefore);
      if WasFinished(runs[0], staleBefore) {
        var id := runs[0].id;
        assert FinishedBefore(runs, staleBefore) == [id] + rest;
        DistinctInMiddle(seen, id, rest);
        SeededIs(seen + [id], runs[1..], staleBefore);
        FirstFront(id, rest, MAX_SEEN - |seen|);
        hide Distinct, First, WasFinished;
      } else {
        assert FinishedBefore(runs, staleBefore) == rest;
        SeededIs(seen, runs[1..], staleBefore);
      }
    }
  }

  lemma IdsAreTheirs(seeds: seq<string>, owned: seq<Run>)
    requires forall id <- seeds :: id in Ids(owned)
    ensures AreIdsOf(seeds, owned, |owned|)
  {
    forall i | 0 <= i < |seeds| ensures IsIdOf(seeds[i], owned, |owned|) {
      assert seeds[i] in Ids(owned);
      var k :| 0 <= k < |owned| && Ids(owned)[k] == seeds[i];
      assert FromEnd(owned, |owned| - 1 - k).id == seeds[i];
    }
  }

  function StaleBefore(s: State, now: int): int {
    if s.lastStopped.Some? then s.lastStopped.value else now
  }

  /** A notifier that is new or was stopped remembers the newest runs that had finished before; it is
      within the bound exactly if there are few enough of them. */
  lemma StartSeeds(s: State, sid: Option<string>, first: seq<Run>, now: int)
    requires s.seen == [] && DistinctRuns(first)
    ensures var t := Started(s, sid, first, now);
            var former := FinishedBefore(Owned(sid, first), StaleBefore(s, now));
            && t.seen == First(former, 256)
            && (IsSeeded(t, first) <==> |former| <= 218)
  {
    var owned := Owned(sid, first);
    var finished := FinishedBefore(owned, StaleBefore(s, now));
    OwnedDistinct(sid, first);
    FinishedAreRuns(owned, StaleBefore(s, now));
    assert [] + finished == finished;
    SeededIs([], owned, StaleBefore(s, now));
    assert [] + First(finished, MAX_SEEN) == First(finished, MAX_SEEN);
    if |finished| <= MAX_SEED {
      IdsAreTheirs(finished, owned);
    }
  }

  // ---------- the bound cannot be raised ----------

  function Name(n: nat): (r: string)
    ensures |r| == n
  {
    seq(n, _ => 'a')
  }

  function Sample(n: nat, status: Status): Run { Run(Name(n), None, "team", None, status, 0) }

  function Samples(from: nat, count: nat, status: Status): (r: seq<Run>)
    ensures |r| == count
  {
    seq(count, i requires 0 <= i < count => Sample(from + i, status))
  }

  lemma {:induction false} AllOwned(runs: seq<Run>)
    ensures Owned(None, runs) == runs
  {
    if runs == [] {
    } else {
      AllOwned(runs[1..]);
    }
  }

  lemma PolledUnowned(runs: seq<Run>)
    ensures Polled(None, runs) == First(runs, MAX_POLLED)
  {
    AllOwned(First(runs, MAX_LISTED));
  }

  lemma {:induction false} VisitedInTwo(s: State, a: seq<Run>, b: seq<Run>, died: set<string>)
    ensures VisitedAll(s, a + b, died, false) == VisitedAll(VisitedAll(s, a, died, false), b, died, false)
  {
    if b == [] {
      assert a + b == a;
    } else {
      assert (a + b)[..|a + b| - 1] == a + b[..|b| - 1];
      VisitedInTwo(s, a, b[..|b| - 1], died);
    }
  }

  lemma DistinctFront(s: seq<string>, x: string)
    requires Distinct(s + [x])
    ensures Distinct(s) && x !in s
  {
    var all := s + [x];
    forall i, j | 0 <= i < j < |s| ensures s[i] != s[j] {
      assert all[i] == s[i] && all[j] == s[j];
    }
    forall i | 0 <= i < |s| ensures s[i] != x {
      assert all[i] == s[i] && all[|s|] == x;
    }
  }

  lemma VisitAdds(s: State, base: seq<string>, r: Run)
    requires s.seen == Trim(base) && r.id !in base && IsFinished(r.status)
    ensures Visited(s, r, false).seen == Trim(base + [r.id])
  {
    TrimTwice(base, r.id);
    assert forall x <- Trim(base) :: x in base;
  }

  /** Runs that are all finished and not remembered push out the oldest ids. */
  lemma {:induction false} VisitsPushOut(s: State, base: seq<string>, runs: seq<Run>)
    requires s.seen == Trim(base) && Distinct(base + Ids(runs))
    requires forall r <- runs :: IsFinished(r.status)
    ensures VisitedAll(s, runs, {}, false).seen == Trim(base + Ids(runs))
  {
    hide Trim, Distinct, Visited;
    if runs == [] {
      assert base + Ids(runs) == base;
    } else {
      var n := |runs| - 1;
      var before := base + Ids(runs[..n]);
      assert base + Ids(runs) == before + [runs[n].id] by {
        assert Ids(runs) == Ids(runs[..n]) + [runs[n].id];
      }
      DistinctFront(before, runs[n].id);
      VisitsPushOut(s, base, runs[..n]);
      VisitAdds(VisitedAll(s, runs[..n], {}, false), before, runs[n]);
    }
  }

  lemma {:induction false} CallsStay(s: State, runs: seq<Run>, died: set<string>)
    ensures s.calls <= VisitedAll(s, runs, died, false).calls
  {
    if runs == [] {
    } else {
      CallsStay(s, runs[..|runs| - 1], died);
    }
  }

  lemma {:induction false} FinishedOfSum(a: seq<Run>, b: seq<Run>, staleBefore: int)
    ensures FinishedBefore(a + b, staleBefore) == FinishedBefore(a, staleBefore) + FinishedBefore(b, staleBefore)
  {
    if a == [] {
      assert a + b == b;
    } else {
      assert (a + b)[1..] == a[1..] + b;
      FinishedOfSum(a[1..], b, staleBefore);
    }
  }

  lemma {:induction false} FinishedSamples(from: nat, count: nat, status: Status)
    ensures FinishedBefore(Samples(from, count, status), 1) ==
            if IsFinished(status) then Ids(Samples(from, count, status)) else []
    decreases count
  {
    var s := Samples(from, count, status);
    if count == 0 {
    } else {
      assert s[1..] == Samples(from + 1, count - 1, status);
      FinishedSamples(from + 1, count - 1, status);
      assert Ids(s) == [s[0].id] + Ids(s[1..]);
      assert s[0] == Sample(from, status);
      assert [] + FinishedBefore(s[1..], 1) == FinishedBefore(s[1..], 1);
    }
  }

  const NEW: nat := 1000

  /** A run that had finished, then nineteen active ones, then all the others. */
  function Beginning(size: nat): seq<Run>
    requires size > 0
  {
    Samples(0, 1, Completed) + (Samples(1, 19, Active) + Samples(20, size - 1, Completed))
  }

  function SampleTicks(size: nat): seq<Tick>
    requires size > 0
  {
    [Tick(100_000, Samples(0, size + 19, Completed), {}, MAX_POLLED, false),
     Tick(200_000, Samples(NEW, 19, Completed) + Samples(0, size + 19, Completed), {}, MAX_POLLED, false)]
  }

  const NOBODY := State(None, [], None, None, None, [])

  lemma OldNamesAreDistinct(size: nat)
    requires size > 0
    ensures Distinct([Name(0)] + Ids(Samples(20, size - 1, Completed)))
  {
    var ids := [Name(0)] + Ids(Samples(20, size - 1, Completed));
    forall i, j | 0 <= i < j < |ids| ensures |ids[i]| < |ids[j]| {
      assert ids[j] == Name(20 + j - 1);
      assert i > 0 ==> ids[i] == Name(20 + i - 1);
    }
  }

  lemma BeginningSeeds(size: nat)
    requires 0 < size <= MAX_SEEN
    ensures Started(NOBODY, None, Beginning(size), 1).seen == [Name(0)] + Ids(Samples(20, size - 1, Completed))
  {
    hide Samples, Name, Distinct, Seeded, FinishedBefore;
    var a, b, c := Samples(0, 1, Completed), Samples(1, 19, Active), Samples(20, size - 1, Completed);
    AllOwned(Beginning(size));
    FinishedOfSum(a, b + c, 1);
    FinishedOfSum(b, c, 1);
    FinishedSamples(0, 1, Completed);
    FinishedSamples(1, 19, Active);
    FinishedSamples(20, size - 1, Completed);
    var ids := [Name(0)] + Ids(c);
    assert Ids(a) == [Name(0)] by { FirstSample(); }
    assert FinishedBefore(Beginning(size), 1) == ids;
    assert [] + ids == ids;
    OldNamesAreDistinct(size);
    SeededIs([], Beginning(size), 1);
  }

  lemma FirstSample()
    ensures Ids(Samples(0, 1, Completed)) == [Name(0)] && Samples(0, 1, Completed) == [Sample(0, Completed)]
  {
    assert Samples(0, 1, Completed)[0] == Sample(0, Completed);
  }

  /** The number of the i-th run, in each of the lists. */
  predicate IsNumbered(runs: seq<Run>, shift: nat) {
    forall i | 0 <= i < |runs| :: runs[i].id == Name(if i < shift then NEW + i else i - shift)
  }

  lemma NumberedDistinct(runs: seq<Run>, shift: nat)
    requires IsNumbered(runs, shift) && |runs| <= NEW
    ensures DistinctRuns(runs)
  {
    forall i, j | 0 <= i < j < |runs| ensures runs[i].id != runs[j].id {
      assert |runs[i].id| != |runs[j].id|;
    }
  }

  lemma SamplesGrow(size: nat)
    requires 0 < size <= MAX_SEEN
    ensures Growing(Beginning(size), SampleTicks(size))
  {
    var first, second, third := Beginning(size), SampleTicks(size)[0].runs, SampleTicks(size)[1].runs;
    var ticks := SampleTicks(size);
    assert ticks[..1] == [ticks[0]] && ticks[..1][..0] == [];
    forall i | 0 <= i < |first| ensures SameRun(first[i], second[i]) && first[i].id == Name(i) {
      var status := if 1 <= i < 20 then Active else Completed;
      assert first[i] == Sample(i, status);
      assert second[i] == Sample(i, Completed);
    }
    assert forall i | 0 <= i < |second| :: third[19 + i] == second[i];
    NumberedDistinct(first, 0);
    NumberedDistinct(second, 0);
    NumberedDistinct(third, 19);
    assert Grown(first, second);
    assert Grown(second, third);
  }

  lemma VisitedOne(s: State, r: Run)
    ensures VisitedAll(s, [r], {}, false) == Visited(s, r, false)
  {
    assert VisitedAll(s, [r][..0], {}, false) == s;
  }

  lemma DistinctNames(size: nat)
    requires 0 < size <= MAX_SEEN
    ensures var base := [Name(0)] + Ids(Samples(20, size - 1, Completed)) + Ids(Samples(1, 19, Completed));
            var all := base + Ids(Samples(NEW, 19, Completed));
            Distinct(base) && Distinct(all) && forall i | 0 < i < |all| :: all[i] != Name(0)
  {
    var base := [Name(0)] + Ids(Samples(20, size - 1, Completed)) + Ids(Samples(1, 19, Completed));
    var all := base + Ids(Samples(NEW, 19, Completed));
    forall i | 0 <= i < |all|
      ensures all[i] == Name(if i == 0 then 0
                             else if i < size then 19 + i
                             else if i < size + 19 then i - size + 1
                             else NEW + i - size - 19)
    {
    }
    forall i, j | 0 <= i < j < |all| ensures all[i] != all[j] {
      assert |all[i]| != |all[j]|;
    }
    assert forall i | 0 <= i < |base| :: base[i] == all[i];
  }

  lemma FirstTick(s: State, size: nat, b: seq<Run>)
    requires 0 < size <= MAX_SEEN && s.sid == None && s.cached == None && b == Samples(1, 19, Completed)
    requires s.seen == [Name(0)] + Ids(Samples(20, size - 1, Completed))
    ensures var t := SampleTicks(size)[0];
            var m := Ticked(s, t.now, t.runs, t.died, t.upTo, t.throws);
            && m.seen == Trim(s.seen + Ids(b)) && m.sid == None && m.lastList == Some(t.now)
            && m.cached.Some? && s.calls <= m.calls
  {
    hide Polled, Trim, Distinct, VisitedAll;
    var t, r := SampleTicks(size)[0], [Sample(0, Completed)];
    PolledUnowned(t.runs);
    var l := Listed(s, t.now, t.runs);
    assert First(First(t.runs, MAX_POLLED), MAX_POLLED) == r + b;
    VisitedInTwo(l, r, b, {});
    VisitedOne(l, r[0]);
    assert s.seen[0] == r[0].id;
    DistinctNames(size);
    assert s.seen == Trim(s.seen) by { TrimShort(s.seen); }
    VisitsPushOut(l, s.seen, b);
    VisitedSame(l, r + b, {}, false);
    CallsStay(l, r + b, {});
  }

  lemma TrimShort(s: seq<string>)
    requires |s| <= MAX_SEEN
    ensures Trim(s) == s
  {
  }

  lemma SecondTick(m: State, size: nat, base: seq<string>)
    requires MAX_SEED < size <= MAX_SEEN && m.sid == None && m.cached.Some? && m.lastList == Some(100_000)
    requires base == [Name(0)] + Ids(Samples(20, size - 1, Completed)) + Ids(Samples(1, 19, Completed))
    requires m.seen == Trim(base)
    ensures var t := SampleTicks(size)[1];
            var v := Ticked(m, t.now, t.runs, t.died, t.upTo, t.throws);
            m.calls < v.calls && v.calls[|v.calls| - 1] == Notice(Name(0), Completed, Info, false)
  {
    hide Polled, Trim, Distinct, VisitedAll;
    var t, r, d := SampleTicks(size)[1], [Sample(0, Completed)], Samples(NEW, 19, Completed);
    PolledUnowned(t.runs);
    var k := Listed(m, t.now, t.runs);
    assert First(First(t.runs, MAX_POLLED), MAX_POLLED) == d + r;
    VisitedInTwo(k, d, r, {});
    DistinctNames(size);
    VisitsPushOut(k, base, d);
    var v := VisitedAll(k, d, {}, false);
    VisitedOne(v, r[0]);
    CallsStay(k, d, {});
    FirstPushedOut(base + Ids(d));
  }

  lemma FirstPushedOut(s: seq<string>)
    requires |s| > MAX_SEEN && forall i | 0 < i < |s| :: s[i] != s[0]
    ensures s[0] !in Trim(s)
  {
  }

  /** From each larger number of remembered ids on there is a run of the notifier that gives notice of
      a run that had finished before it started. */
  lemma SeedBoundIsExact(size: nat)
    requires 218 < size <= 256
    ensures var s := Started(NOBODY, None, Beginning(size), 1);
            && |s.seen| == size && Growing(Beginning(size), SampleTicks(size))
            && Name(0) in s.seen && WasTold(NewCalls(s, After(s, SampleTicks(size))), Name(0))
  {
    hide Ticked, Seeded, Trim, SampleTicks, Growing;
    SamplesGrow(size);
    BeginningSeeds(size);
    var s := Started(NOBODY, None, Beginning(size), 1);
    var ticks := SampleTicks(size);
    var b := Samples(1, 19, Completed);
    FirstTick(s, size, b);
    assert |ticks| == 2 && ticks[0].now == 100_000 by { TwoTicks(size); }
    var m := Ticked(s, ticks[0].now, ticks[0].runs, ticks[0].died, ticks[0].upTo, ticks[0].throws);
    SecondTick(m, size, s.seen + Ids(b));
    assert ticks[..1] == [ticks[0]] && ticks[..1][..0] == [];
    assert After(s, [ticks[0]]) == m;
    var t := After(s, ticks);
    var calls := NewCalls(s, t);
    assert calls[|calls| - 1] in calls;
  }

  lemma TwoTicks(size: nat)
    requires size > 0
    ensures |SampleTicks(size)| == 2 && SampleTicks(size)[0].now == 100_000
  {
  }

  // ---------- a notice that was lost ----------

  /** One finished run, a tick whose call of `notify` throws, and one that gets to its end. */
  function ThrowingTicks(): seq<Tick> {
    [Tick(100_000, [Sample(0, Completed)], {}, MAX_POLLED, true),
     Tick(200_000, [Sample(0, Completed)], {}, MAX_POLLED, false)]
  }

  lemma ThrownNoticeIsLost()
    ensures var t := After(NOBODY, ThrowingTicks());
            && IsSeeded(NOBODY, []) && Growing([], ThrowingTicks()) && t.cached == Some([Sample(0, Completed)])
            && HasThrown(NewCalls(NOBODY, t), Name(0)) && !WasTold(NewCalls(NOBODY, t), Name(0))
  {
    var ticks, c := ThrowingTicks(), Sample(0, Completed);
    assert ticks[..1] == [ticks[0]] && ticks[..1][..0] == [];
    PolledUnowned([c]);
    var l := Listed(NOBODY, 100_000, [c]);
    VisitedOnce(l, c, true);
    assert l.seen == [] && [] + [Name(0)] == [Name(0)];
    var m := Visited(l, c, true);
    assert m.seen == [Name(0)] && m.calls == [Notice(Name(0), Completed, Info, true)];
    assert After(NOBODY, [ticks[0]]) == m;
    VisitedOnce(Listed(m, 200_000, [c]), c, false);
    assert After(NOBODY, ticks).calls == m.calls;
    assert NewCalls(NOBODY, After(NOBODY, ticks)) == m.calls;
  }

  lemma VisitedOnce(s: State, r: Run, throws: bool)
    ensures VisitedAll(s, [r], {}, throws) == Visited(s, r, throws)
  {
    assert VisitedAll(s, [r][..0], {}, false) == s;
  }
}
