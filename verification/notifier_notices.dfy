/**
 What the calls of `notify` say, and which runs a tick looks at (src/extension/async-notifier.ts).
 */
module NotifierNotices {
  import opened Wrappers
  import opened Notifier
  import opened NotifierLaws

  // ---------- what a notice says ----------

  /** A completed run is information, a cancelled one a warning, and any other end an error. */
  predicate IsLevelOf(level: Level, status: Status) {
    && (level.Info? <==> status.Completed?) && (level.Warning? <==> status.Cancelled?)
  }

  /** The call is about a run of the list, with the status it was found to have. */
  predicate IsAbout(x: Notice, c: Run, died: set<string>) {
    var r := Current(c, died);
    x.id == c.id && x.status == r.status && IsFinished(r.status) && IsLevelOf(x.level, r.status)
  }

  predicate IsAboutSome(x: Notice, runs: seq<Run>, died: set<string>) { exists c <- runs :: IsAbout(x, c, died) }

  lemma {:induction false} VisitsCall(s: State, runs: seq<Run>, died: set<string>, throws: bool)
    ensures var t := VisitedAll(s, runs, died, throws);
            && s.calls <= t.calls && t.cached == s.cached
            && forall i :: |s.calls| <= i < |t.calls| ==> IsAboutSome(t.calls[i], runs, died)
  {
    if runs == [] {
    } else {
      var n := |runs| - 1;
      VisitsCall(s, runs[..n], died, false);
      var u, t := VisitedAll(s, runs[..n], died, false), VisitedAll(s, runs, died, throws);
      assert runs == runs[..n] + [runs[n]];
      hide VisitedAll, Add, IsInternal;
      assert t == Visited(u, Current(runs[n], died), throws) by { VisitedLast(s, runs, died, throws); }
      hide IsAbout;
      forall i | |s.calls| <= i < |t.calls| ensures IsAboutSome(t.calls[i], runs, died) {
        if i < |u.calls| {
          var c :| c in runs[..n] && IsAbout(u.calls[i], c, died);
          assert c in runs && t.calls[i] == u.calls[i];
        } else {
          assert IsAbout(t.calls[i], runs[n], died) by { LastCall(u, runs[n], died, throws, i); }
        }
      }
    }
  }

  lemma VisitedLast(s: State, runs: seq<Run>, died: set<string>, throws: bool)
    requires runs != []
    ensures VisitedAll(s, runs, died, throws) ==
            Visited(VisitedAll(s, runs[..|runs| - 1], died, false), Current(runs[|runs| - 1], died), throws)
  {
  }

  lemma LastCall(u: State, c: Run, died: set<string>, throws: bool, i: nat)
    requires |u.calls| <= i < |Visited(u, Current(c, died), throws).calls|
    ensures IsAbout(Visited(u, Current(c, died), throws).calls[i], c, died)
  {
    hide Add, IsInternal;
  }

  /** In some tick the run was in the list, with that status. */
  ghost predicate WasSeen(s: State, ticks: seq<Tick>, x: Notice, k: nat) {
    && k < |ticks| && After(s, ticks[..k + 1]).cached.Some?
    && IsAboutSome(x, After(s, ticks[..k + 1]).cached.value, ticks[k].died)
  }

  /** Over every run: each call of `notify` names a run that some tick found finished, with the status it
      found and the level for that status. */
  lemma {:induction false} NoticesTellStatus(s: State, ticks: seq<Tick>, i: nat)
    requires |s.calls| <= i < |After(s, ticks).calls|
    ensures exists k: nat :: WasSeen(s, ticks, After(s, ticks).calls[i], k)
  {
    if ticks == [] {
      assert false;
    } else {
      var n := |ticks| - 1;
      var before, t := ticks[..n], ticks[n];
      var u, x := After(s, before), After(s, ticks).calls[i];
      var l := Listed(u, t.now, t.runs);
      var polled := First(l.cached.value, t.upTo);
      VisitsCall(l, polled, t.died, t.throws);
      assert ticks[..n + 1] == ticks && l.calls == u.calls;
      hide VisitedAll, IsAbout, Polled;
      assert After(s, ticks) == VisitedAll(l, polled, t.died, t.throws);
      if i < |u.calls| {
        NoticesTellStatus(s, before, i);
        var k: nat :| WasSeen(s, before, u.calls[i], k);
        assert before[..k + 1] == ticks[..k + 1] && before[k] == ticks[k];
        assert WasSeen(s, ticks, x, k);
      } else {
        var c :| c in polled && IsAbout(x, c, t.died);
        assert c in l.cached.value;
        assert WasSeen(s, ticks, x, n);
      }
    }
  }

  // ---------- which runs are looked at ----------

  lemma OwnedFront(sid: Option<string>, r: Run, rest: seq<Run>)
    ensures Owned(sid, [r] + rest) == (if Owns(sid, r) then [r] else []) + Owned(sid, rest)
  {
    hide Owns;
    assert ([r] + rest)[1..] == rest;
  }

  lemma {:induction false} OwnedConcat(sid: Option<string>, a: seq<Run>, b: seq<Run>)
    ensures Owned(sid, a + b) == Owned(sid, a) + Owned(sid, b)
  {
    if a == [] {
      assert a + b == b && [] + Owned(sid, b) == Owned(sid, b);
    } else {
      hide *;
      var r, rest := a[0], a[1..];
      assert a == [r] + rest && a + b == [r] + (rest + b);
      OwnedConcat(sid, rest, b);
      OwnedFront(sid, r, rest);
      OwnedFront(sid, r, rest + b);
      var front := if Owns(sid, r) then [r] else [];
      assert front + (Owned(sid, rest) + Owned(sid, b)) == (front + Owned(sid, rest)) + Owned(sid, b);
    }
  }

  /** Every owned one among the newest 40 runs is polled, unless 20 newer ones are. */
  lemma PolledIsFull(sid: Option<string>, runs: seq<Run>, i: nat)
    requires i < |runs| && i < 40 && |Owned(sid, runs[..i])| < 20
    requires sid.None? || runs[i].owner.None? || runs[i].owner == sid
    ensures runs[i] in Polled(sid, runs)
  {
    var part := First(runs, MAX_LISTED);
    var j := |Owned(sid, runs[..i])|;
    assert part[..i] == runs[..i] && part == part[..i] + ([part[i]] + part[i + 1..]);
    OwnedConcat(sid, part[..i], [part[i]] + part[i + 1..]);
    assert ([part[i]] + part[i + 1..])[1..] == part[i + 1..];
    assert Owned(sid, part)[j] == runs[i];
    assert Polled(sid, runs)[j] == runs[i];
  }

  /** What is polled after a tick is the list of that tick, or of one at most 30 seconds before it. */
  ghost predicate IsListOf(s: State, ticks: seq<Tick>, k: nat) {
    && k < |ticks|
    && After(s, ticks).cached == Some(Polled(s.sid, ticks[k].runs))
    && After(s, ticks).lastList == Some(ticks[k].now)
  }

  lemma {:induction false} ListIsRecent(s: State, ticks: seq<Tick>) returns (k: nat)
    requires s.cached.None? && ticks != []
    ensures IsListOf(s, ticks, k) && ticks[|ticks| - 1].now - ticks[k].now <= (if k == |ticks| - 1 then 0 else 30_000)
    ensures After(s, ticks).sid == s.sid
  {
    var n := |ticks| - 1;
    var before, t := ticks[..n], ticks[n];
    var u := After(s, before);
    var l := Listed(u, t.now, t.runs);
    VisitsList(l, First(l.cached.value, t.upTo), t.died, t.throws);
    k := n;
    hide VisitedAll, Polled;
    if before != [] {
      var j := ListIsRecent(s, before);
      if l == u {
        k := j;
        assert before[j] == ticks[j];
      }
    }
  }

  lemma {:induction false} VisitsList(s: State, runs: seq<Run>, died: set<string>, throws: bool)
    ensures var t := VisitedAll(s, runs, died, throws);
            t.cached == s.cached && t.lastList == s.lastList && t.sid == s.sid
  {
    if runs == [] {
    } else {
      VisitsList(s, runs[..|runs| - 1], died, false);
    }
  }
}
