/**
 The sliding-window limiter of run requests (`checkRpcRateLimit`, `recordRpcRun`,
 `resetRpcRateLimit` and their use in the run channel of src/extension/cross-extension-rpc.ts).
 The clock is read once to check and once more to record; it never goes back.
 */
module RateLimit {

  const MAX_REQUESTS: nat := 5
  const WINDOW_MS: nat := 60_000
  const MIN_RETRY_MS: nat := 1000

  datatype Verdict = Allowed | Refused(retryAfterMs: int)

  function Max(x: int, y: int): int { if x >= y then x else y }

  /** The stamps from the first one that is not before the cutoff. */
  function Evicted(stamps: seq<int>, cutoff: int): seq<int> {
    if stamps != [] && stamps[0] < cutoff then Evicted(stamps[1..], cutoff) else stamps
  }

  function Checked(stamps: seq<int>, now: int): Verdict {
    var kept := Evicted(stamps, now - WINDOW_MS);
    if |kept| >= MAX_REQUESTS then Refused(Max(kept[0] + WINDOW_MS - now, MIN_RETRY_MS)) else Allowed
  }

  function AfterRequest(stamps: seq<int>, check: int, record: int): seq<int> {
    Evicted(stamps, check - WINDOW_MS) + if Checked(stamps, check).Allowed? then [record] else []
  }

  // ---------- the program ----------

  class RpcRateLimiter {
    var stamps: seq<int>

    constructor ()
      ensures stamps == []
    {
      stamps := [];
    }

    method Check(now: int) returns (v: Verdict)
      modifies this
      ensures stamps == Evicted(old(stamps), now - WINDOW_MS)
      ensures v == Checked(old(stamps), now)
    {
      var cutoff := now - WINDOW_MS;
      while |stamps| > 0 && stamps[0] < cutoff
        invariant Evicted(stamps, cutoff) == Evicted(old(stamps), cutoff)
        decreases |stamps|
      {
        stamps := stamps[1..];
      }
      if |stamps| >= MAX_REQUESTS {
        var oldestInWindow := stamps[0];
        return Refused(Max(oldestInWindow + WINDOW_MS - now, MIN_RETRY_MS));
      }
      v := Allowed;
    }

    method Record(now: int)
      modifies this
      ensures stamps == old(stamps) + [now]
    {
      stamps := stamps + [now];
    }

    /** One message on the run channel. */
    method Request(check: int, record: int) returns (v: Verdict)
      modifies this
      ensures stamps == AfterRequest(old(stamps), check, record)
      ensures v == Checked(old(stamps), check)
    {
      v := Check(check);
      if v.Allowed? {
        Record(record);
      }
    }

    method Reset()
      modifies this
      ensures stamps == []
    {
      stamps := [];
    }
  }

  // ---------- runs ----------

  datatype Event = Request(check: int, record: int) | Reset

  /** The stamps, the accepted requests since the last reset, and the clock. */
  datatype State = State(stamps: seq<int>, accepted: seq<int>, now: int)

  function Step(s: State, e: Event): State {
    match e
    case Reset => State([], [], s.now)
    case Request(check, record) =>
      State(AfterRequest(s.stamps, check, record),
            s.accepted + if Checked(s.stamps, check).Allowed? then [record] else [],
            record)
  }

  function Begin(now: int): State { State([], [], now) }

  function Run(now: int, events: seq<Event>): State {
    if events == [] then Begin(now) else Step(Run(now, events[..|events| - 1]), events[|events| - 1])
  }

  /** The clock does not go back. */
  predicate Timely(now: int, events: seq<Event>) {
    events == [] || (
      && Timely(now, events[..|events| - 1])
      && (events[|events| - 1].Request? ==>
            Run(now, events[..|events| - 1]).now <= events[|events| - 1].check <= events[|events| - 1].record))
  }

  predicate Sorted(s: seq<int>) {
    forall i, j :: 0 <= i < j < |s| ==> s[i] <= s[j]
  }

  predicate NoneAfter(s: seq<int>, now: int) {
    forall i :: 0 <= i < |s| ==> s[i] <= now
  }

  /** How many are not before the cutoff. */
  function CountSince(s: seq<int>, cutoff: int): nat {
    if s == [] then 0 else CountSince(s[1..], cutoff) + if s[0] >= cutoff then 1 else 0
  }

  predicate SixSpanTheWindow(accepted: seq<int>) {
    forall i :: 0 <= i < |accepted| - MAX_REQUESTS ==> accepted[i + MAX_REQUESTS] - accepted[i] > WINDOW_MS
  }

  /** The stamps are the last of the accepted requests, the others are out of the window for good. */
  predicate Inv(s: State) {
    && |s.stamps| <= MAX_REQUESTS && |s.stamps| <= |s.accepted|
    && s.stamps == s.accepted[|s.accepted| - |s.stamps|..]
    && Sorted(s.accepted) && NoneAfter(s.accepted, s.now)
    && (forall i :: 0 <= i < |s.accepted| - |s.stamps| ==> s.accepted[i] < s.now - WINDOW_MS)
    && SixSpanTheWindow(s.accepted)
  }

  lemma {:induction false} EvictedIsSuffix(stamps: seq<int>, cutoff: int) returns (n: nat)
    ensures n <= |stamps| && Evicted(stamps, cutoff) == stamps[n..]
    ensures forall i :: 0 <= i < n ==> stamps[i] < cutoff
    ensures n < |stamps| ==> stamps[n] >= cutoff
  {
    n := 0;
    if stamps != [] && stamps[0] < cutoff {
      var m := EvictedIsSuffix(stamps[1..], cutoff);
      n := m + 1;
      assert forall i :: 1 <= i < n ==> stamps[i] == stamps[1..][i - 1];
    }
  }

  /** Evicting leaves exactly the accepted requests that are not before the cutoff. */
  lemma EvictedFromAccepted(s: State, check: int) returns (n: nat)
    requires Inv(s) && s.now <= check
    ensures n <= |s.accepted| && Evicted(s.stamps, check - WINDOW_MS) == s.accepted[n..]
    ensures forall i :: 0 <= i < n ==> s.accepted[i] < check - WINDOW_MS
    ensures forall i :: n <= i < |s.accepted| ==> s.accepted[i] >= check - WINDOW_MS
  {
    hide Evicted, SixSpanTheWindow;
    var m := EvictedIsSuffix(s.stamps, check - WINDOW_MS);
    var before := |s.accepted| - |s.stamps|;
    n := before + m;
    assert s.stamps[m..] == s.accepted[n..];
    forall i | 0 <= i < n ensures s.accepted[i] < check - WINDOW_MS {
      if i >= before {
        assert s.accepted[i] == s.stamps[i - before];
      }
    }
    if m < |s.stamps| {
      assert s.accepted[n] == s.stamps[m];
    }
  }

  lemma StepKeepsInv(s: State, e: Event)
    requires Inv(s) && (e.Request? ==> s.now <= e.check <= e.record)
    ensures Inv(Step(s, e))
  {
    if e.Request? {
      RequestKeepsInv(s, e.check, e.record);
    }
  }

  lemma RequestKeepsInv(s: State, check: int, record: int)
    requires Inv(s) && s.now <= check <= record
    ensures Inv(Step(s, Request(check, record)))
  {
    hide Inv, Evicted;
    var n := EvictedFromAccepted(s, check);
    EvictedIsShort(s, check);
    if |s.accepted| - n >= MAX_REQUESTS {
      Refuse(s, check, record, n);
      assert Step(s, Request(check, record)) == State(s.accepted[n..], s.accepted, record);
    } else {
      Accept(s, check, record, n);
      assert Step(s, Request(check, record)) == State(s.accepted[n..] + [record], s.accepted + [record], record);
    }
  }

  lemma EvictedIsShort(s: State, check: int)
    requires Inv(s)
    ensures |Evicted(s.stamps, check - WINDOW_MS)| <= MAX_REQUESTS
  {
    var n := EvictedIsSuffix(s.stamps, check - WINDOW_MS);
  }

  lemma Refuse(s: State, check: int, record: int, n: nat)
    requires Inv(s) && s.now <= check <= record
    requires n <= |s.accepted| <= n + MAX_REQUESTS
    requires forall i :: 0 <= i < n ==> s.accepted[i] < check - WINDOW_MS
    ensures Inv(State(s.accepted[n..], s.accepted, record))
  {
    hide Sorted, SixSpanTheWindow;
  }

  lemma Accept(s: State, check: int, record: int, n: nat)
    requires Inv(s) && s.now <= check <= record
    requires n <= |s.accepted| < n + MAX_REQUESTS
    requires forall i :: 0 <= i < n ==> s.accepted[i] < check - WINDOW_MS
    ensures Inv(State(s.accepted[n..] + [record], s.accepted + [record], record))
  {
    var a := s.accepted + [record];
    assert a[n..] == s.accepted[n..] + [record];
    SortedPlus(s.accepted, s.now, record);
    SpanPlus(s.accepted, n, check, record);
  }

  lemma SortedPlus(a: seq<int>, now: int, record: int)
    requires Sorted(a) && NoneAfter(a, now) && now <= record
    ensures Sorted(a + [record]) && NoneAfter(a + [record], record)
  {
  }

  lemma SpanPlus(a: seq<int>, n: nat, check: int, record: int)
    requires SixSpanTheWindow(a) && check <= record
    requires n <= |a| < n + MAX_REQUESTS
    requires forall i :: 0 <= i < n ==> a[i] < check - WINDOW_MS
    ensures SixSpanTheWindow(a + [record])
  {
    var b := a + [record];
    forall i | 0 <= i < |b| - MAX_REQUESTS ensures b[i + MAX_REQUESTS] - b[i] > WINDOW_MS {
      assert b[i] == a[i];
      if i + MAX_REQUESTS < |a| {
        assert a[i + MAX_REQUESTS] - a[i] > WINDOW_MS;
      }
    }
  }

  lemma {:induction false} RunKeepsInv(now: int, events: seq<Event>)
    requires Timely(now, events)
    ensures Inv(Run(now, events))
  {
    if events == [] {
    } else {
      RunKeepsInv(now, events[..|events| - 1]);
      StepKeepsInv(Run(now, events[..|events| - 1]), events[|events| - 1]);
    }
  }

  /** Any six accepted requests span more than the window. */
  lemma SixAcceptedSpan(now: int, events: seq<Event>, i: nat, j: nat)
    requires Timely(now, events) && i + MAX_REQUESTS <= j < |Run(now, events).accepted|
    ensures Run(now, events).accepted[j] - Run(now, events).accepted[i] > 60_000
  {
    RunKeepsInv(now, events);
    var a := Run(now, events).accepted;
    assert a[i + MAX_REQUESTS] - a[i] > WINDOW_MS;
    assert i + MAX_REQUESTS < j ==> a[i + MAX_REQUESTS] <= a[j];
  }

  lemma {:induction false} CountOfLate(s: seq<int>, n: nat, cutoff: int)
    requires n <= |s| && (forall i :: 0 <= i < n ==> s[i] < cutoff) && (forall i :: n <= i < |s| ==> s[i] >= cutoff)
    ensures CountSince(s, cutoff) == |s| - n
  {
    if s == [] {
    } else {
      CountOfLate(s[1..], if n == 0 then 0 else n - 1, cutoff);
    }
  }

  /** A request is refused exactly when five accepted ones lie in the closed window before it. */
  lemma RefusedIffWindowFull(now: int, events: seq<Event>, check: int)
    requires Timely(now, events) && check >= Run(now, events).now
    ensures var s := Run(now, events);
            Checked(s.stamps, check).Refused? <==> CountSince(s.accepted, check - 60_000) >= 5
  {
    hide Evicted, CountSince, Inv, Run, Timely;
    RunKeepsInv(now, events);
    var s := Run(now, events);
    var n := EvictedFromAccepted(s, check);
    CountOfLate(s.accepted, n, check - WINDOW_MS);
  }

  /** After a refusal, with no other request in between: waiting longer than the reported delay is
      enough, and where the delay is not the fixed minimum, waiting no longer than it is not. */
  lemma RetryDelayIsEnough(now: int, events: seq<Event>, check: int, record: int, wait: nat)
    requires Timely(now, events) && Run(now, events).now <= check <= record <= check + wait
    requires Checked(Run(now, events).stamps, check).Refused?
    ensures var s := Run(now, events);
            var delay := Checked(s.stamps, check).retryAfterMs;
            var again := Checked(Step(s, Request(check, record)).stamps, check + wait);
            && 1000 <= delay <= 60_000
            && (wait > delay ==> again.Allowed?)
            && (delay > MIN_RETRY_MS && wait <= delay ==> again.Refused?)
  {
    RunKeepsInv(now, events);
    var s := Run(now, events);
    var kept := Evicted(s.stamps, check - WINDOW_MS);
    var n := EvictedFromAccepted(s, check);
    assert kept[0] == s.accepted[n];
    var m := EvictedIsSuffix(kept, check + wait - WINDOW_MS);
    assert |kept| <= |s.stamps| by {
      var k := EvictedIsSuffix(s.stamps, check - WINDOW_MS);
    }
    assert AfterRequest(s.stamps, check, record) == kept;
  }
}
