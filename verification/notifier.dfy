/**
 The notifier of finished runs (`startAsyncRunNotifier`, `addSeenFinishedRunId` and
 `stopAsyncRunNotifier` in src/extension/async-notifier.ts). A list of runs has the newest run first,
 as `listRuns` returns it. What `markDeadAsyncRunIfNeeded` finds out is an input of each tick, and so
 is how many runs a tick gets to before an error ends it, and whether that error was thrown by `notify`
 at the last of them.
 */
module Notifier {
  import opened Wrappers

  const MAX_SEEN: nat := 256
  const MAX_LISTED: nat := 40
  const MAX_POLLED: nat := 20
  const LIST_RUNS_DEBOUNCE_MS: int := 30_000

  /** The statuses of a run; `Active` stands for all the others. */
  datatype Status = Active | Completed | Failed | Cancelled | Blocked

  datatype Run = Run(id: string, owner: Option<string>, team: string, workflow: Option<string>, status: Status,
      updatedAt: int)

  datatype Level = Info | Warning | Error

  /** A call of `notify`. */
  datatype Notice = Notice(id: string, status: Status, level: Level, threw: bool)

  predicate IsFinished(s: Status) { !s.Active? }

  predicate Owns(sid: Option<string>, r: Run) { sid.None? || r.owner.None? || r.owner == sid }

  /** A turn of a goal loop, which nobody started directly. */
  predicate IsInternal(r: Run) { r.workflow == Some("goal-turn") && "goal-" <= r.team }

  function LevelOf(s: Status): Level {
    match s
    case Completed => Info
    case Cancelled => Warning
    case _ => Error
  }

  function Owned(sid: Option<string>, runs: seq<Run>): seq<Run> {
    if runs == [] then []
    else (if Owns(sid, runs[0]) then [runs[0]] else []) + Owned(sid, runs[1..])
  }

  function First<T>(s: seq<T>, n: nat): seq<T> { if |s| <= n then s else s[..n] }

  function Polled(sid: Option<string>, runs: seq<Run>): seq<Run> {
    First(Owned(sid, First(runs, MAX_LISTED)), MAX_POLLED)
  }

  // ---------- what is remembered ----------

  function Trim(seen: seq<string>): seq<string> {
    if |seen| > MAX_SEEN then seen[|seen| - MAX_SEEN..] else seen
  }

  function Add(seen: seq<string>, id: string): seq<string> {
    Trim(if id in seen then seen else seen + [id])
  }

  predicate WasFinished(r: Run, staleBefore: int) { IsFinished(r.status) && r.updatedAt < staleBefore }

  function Seeded(seen: seq<string>, runs: seq<Run>, staleBefore: int): seq<string>
    decreases |runs|
  {
    if runs == [] || |seen| >= MAX_SEEN then seen
    else Seeded(if WasFinished(runs[0], staleBefore) then Add(seen, runs[0].id) else seen, runs[1..], staleBefore)
  }

  /** The notifier, and all its calls of `notify`. */
  datatype State = State(sid: Option<string>, seen: seq<string>, cached: Option<seq<Run>>, lastList: Option<int>,
                         lastStopped: Option<int>, calls: seq<Notice>)

  function Started(s: State, sid: Option<string>, runs: seq<Run>, now: int): State {
    var staleBefore := if s.lastStopped.Some? then s.lastStopped.value else now;
    s.(sid := sid, seen := Seeded(s.seen, Owned(sid, runs), staleBefore), cached := None)
  }

  function Stopped(s: State, now: int): State { s.(seen := [], lastStopped := Some(now)) }

  function Listed(s: State, now: int, runs: seq<Run>): State {
    if s.cached.None? || now - (if s.lastList.Some? then s.lastList.value else 0) > LIST_RUNS_DEBOUNCE_MS
    then s.(cached := Some(Polled(s.sid, runs)), lastList := Some(now))
    else s
  }

  /** The run as it is after looking whether its process has died. */
  function Current(r: Run, died: set<string>): Run {
    if r.id in died && r.status.Active? then r.(status := Failed) else r
  }

  /** The id is remembered before `notify` is called. */
  function Visited(s: State, r: Run, throws: bool): State {
    if !IsFinished(r.status) || r.id in s.seen then s
    else s.(seen := Add(s.seen, r.id),
            calls := s.calls + if IsInternal(r) then [] else [Notice(r.id, r.status, LevelOf(r.status), throws)])
  }

  /** The runs one after the other; at the last of them `notify` may throw. */
  function VisitedAll(s: State, runs: seq<Run>, died: set<string>, throws: bool): State {
    if runs == [] then s
    else
      var n := |runs| - 1;
      Visited(VisitedAll(s, runs[..n], died, false), Current(runs[n], died), throws)
  }

  lemma VisitedOneMore(s: State, runs: seq<Run>, i: nat, died: set<string>, throws: bool)
    requires i < |runs|
    ensures VisitedAll(s, runs[..i + 1], died, throws)
            == Visited(VisitedAll(s, runs[..i], died, false), Current(runs[i], died), throws)
  {
    assert runs[..i + 1][..i] == runs[..i];
  }

  function Ticked(s: State, now: int, runs: seq<Run>, died: set<string>, upTo: nat, throws: bool): State {
    var t := Listed(s, now, runs);
    VisitedAll(t, First(t.cached.value, upTo), died, throws)
  }

  // ---------- the program ----------

  class AsyncNotifier {
    var sid: Option<string>
    var seen: seq<string>
    var cachedRuns: Option<seq<Run>>
    var lastListRunsMs: Option<int>
    var lastStoppedAtMs: Option<int>
    var calls: seq<Notice>

    ghost function Value(): State
      reads this
    {
      State(sid, seen, cachedRuns, lastListRunsMs, lastStoppedAtMs, calls)
    }

    constructor ()
      ensures Value() == State(None, [], None, None, None, [])
    {
      sid, seen, cachedRuns, lastListRunsMs, lastStoppedAtMs, calls := None, [], None, None, None, [];
    }

    method AddSeenFinishedRunId(id: string)
      modifies this`seen
      ensures seen == Add(old(seen), id)
    {
      if id !in seen {
        seen := seen + [id];
      }
      ghost var all := seen;
      while |seen| > MAX_SEEN
        invariant |seen| <= |all| && seen == all[|all| - |seen|..]
        invariant |all| <= MAX_SEEN ==> seen == all
        invariant |all| > MAX_SEEN ==> |seen| >= MAX_SEEN
      {
        seen := seen[1..];
      }
    }

    method Start(session: Option<string>, runs: seq<Run>, now: int)
      modifies this
      ensures Value() == Started(old(Value()), session, runs, now)
    {
      sid := session;
      var staleBeforeMs := if lastStoppedAtMs.Some? then lastStoppedAtMs.value else now;
      var left := Owned(sid, runs);
      while left != []
        invariant Seeded(seen, left, staleBeforeMs) == Seeded(old(seen), Owned(sid, runs), staleBeforeMs)
        invariant Value() == old(Value()).(sid := session, seen := seen)
        decreases |left|
      {
        if |seen| >= MAX_SEEN {
          break;
        }
        if WasFinished(left[0], staleBeforeMs) {
          AddSeenFinishedRunId(left[0].id);
        }
        left := left[1..];
      }
      cachedRuns := None;
    }

    method Tick(now: int, runs: seq<Run>, died: set<string>, upTo: nat, throws: bool)
      modifies this
      ensures Value() == Ticked(old(Value()), now, runs, died, upTo, throws)
    {
      if cachedRuns.None?
         || now - (if lastListRunsMs.Some? then lastListRunsMs.value else 0) > LIST_RUNS_DEBOUNCE_MS {
        cachedRuns := Some(Polled(sid, runs));
        lastListRunsMs := Some(now);
      }
      ghost var listed := Value();
      assert listed == Listed(old(Value()), now, runs);
      var polled := First(cachedRuns.value, upTo);
      assert VisitedAll(listed, [], died, throws) == listed;
      hide *;
      var i := 0;
      assert polled[..0] == [];
      while i < |polled|
        invariant 0 <= i <= |polled|
        invariant Value() == VisitedAll(listed, polled[..i], died, throws && i == |polled|)
      {
        VisitedOneMore(listed, polled, i, died, throws && i + 1 == |polled|);
        Visit(Current(polled[i], died), throws && i + 1 == |polled|);
        i := i + 1;
      }
      assert polled[..i] == polled;
    }

    method Visit(r: Run, throws: bool)
      modifies this
      ensures Value() == Visited(old(Value()), r, throws)
    {
      if !IsFinished(r.status) || r.id in seen {
        return;
      }
      AddSeenFinishedRunId(r.id);
      if IsInternal(r) {
        return;
      }
      calls := calls + [Notice(r.id, r.status, LevelOf(r.status), throws)];
    }

    method Stop(now: int)
      modifies this
      ensures Value() == Stopped(old(Value()), now)
    {
      seen := [];
      lastStoppedAtMs := Some(now);
    }
  }
}
