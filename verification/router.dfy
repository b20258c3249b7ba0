/**
 The router of notifications (`NotificationRouter` in src/extension/notification-router.ts). The
 clock and the local minute of the day are inputs. The `deliver` callback does not throw; what it
 gets is recorded, each time with the notifications it stands for.
 */
module Router {
  import opened Wrappers
  import Sorting
  import QuietHours

  datatype Severity = Info | Warning | Error | Critical

  datatype Notification = Notification(id: Option<string>, severity: Severity, source: string, runId: Option<string>,
                                       title: string, body: Option<string>, timestamp: Option<int>, clear: bool)

  datatype Options = Options(dedupWindowMs: Option<int>, batchWindowMs: Option<int>, quietHours: Option<string>,
                             severityFilter: Option<seq<Severity>>)
  {
    function DedupWindow(): int { if dedupWindowMs.Some? then dedupWindowMs.value else 30_000 }
    function BatchWindow(): int { if batchWindowMs.Some? then batchWindowMs.value else 0 }
    function Filter(): seq<Severity> {
      if severityFilter.Some? then severityFilter.value else [Warning, Error, Critical]
    }
  }

  const SEEN_MAP_MAX_SIZE: nat := 10000

  function Rank(s: Severity): int {
    match s
    case Info => 0
    case Warning => 1
    case Error => 2
    case Critical => 3
  }

  function NotificationKey(n: Notification): string {
    if n.id.Some? then n.id.value
    else n.source + ":" + (if n.runId.Some? then n.runId.value else "global") + ":" + n.title
  }

  // ---------- the map of seen keys, in the order of insertion ----------

  datatype Seen = Seen(key: string, time: int)

  function Lookup(seen: seq<Seen>, key: string): Option<int> {
    if seen == [] then None
    else if seen[0].key == key then Some(seen[0].time)
    else Lookup(seen[1..], key)
  }

  /** A key that is there keeps its place. */
  function Put(seen: seq<Seen>, key: string, time: int): seq<Seen> {
    if seen == [] then [Seen(key, time)]
    else if seen[0].key == key then [Seen(key, time)] + seen[1..]
    else [seen[0]] + Put(seen[1..], key, time)
  }

  function Without(seen: seq<Seen>, key: string): seq<Seen> {
    if seen == [] then []
    else if seen[0].key == key then seen[1..]
    else [seen[0]] + Without(seen[1..], key)
  }

  function WithoutAll(seen: seq<Seen>, dropped: seq<Seen>): seq<Seen>
    decreases |dropped|
  {
    if dropped == [] then seen else WithoutAll(Without(seen, dropped[0].key), dropped[1..])
  }

  function TimeOf(e: Seen): int { e.time }

  /** The oldest entries, all but half of the capacity. */
  function Oldest(seen: seq<Seen>): seq<Seen> {
    var entries := Sorting.SortBy(seen, TimeOf);
    if SEEN_MAP_MAX_SIZE < |seen| && |entries| == |seen| then entries[..|entries| - SEEN_MAP_MAX_SIZE / 2] else []
  }

  function Evicted(seen: seq<Seen>): seq<Seen> { WithoutAll(seen, Oldest(seen)) }

  // ---------- summaries ----------

  function Decimal(n: nat): string {
    (if n < 10 then "" else Decimal(n / 10)) + [('0' as int + n % 10) as char]
  }

  function Joined(parts: seq<string>, separator: string): string {
    if parts == [] then ""
    else if |parts| == 1 then parts[0]
    else parts[0] + separator + Joined(parts[1..], separator)
  }

  function BatchSeverity(items: seq<Notification>): Severity {
    if items == [] then Info
    else
      var highest := BatchSeverity(items[..|items| - 1]);
      var item := items[|items| - 1];
      if Rank(item.severity) > Rank(highest) then item.severity else highest
  }

  function Summary(items: seq<Notification>, now: int): Notification {
    Notification(
      Some("batch:" + Joined(seq(|items|, i requires 0 <= i < |items| => NotificationKey(items[i])), ",")),
      BatchSeverity(items), "batch", None, Decimal(|items|) + " pi-crew notifications",
      Some(Joined(seq(|items|, i requires 0 <= i < |items| => "• " + items[i].title), "\n")),
      Some(now), false)
  }

  // ---------- what each call does ----------

  datatype Delivery = Delivery(shown: Notification, items: seq<Notification>)

  /** `timer` holds the delay it was set with. */
  datatype State = State(seen: seq<Seen>, batch: seq<Notification>, timer: Option<int>, delivered: seq<Delivery>)

  datatype Verdict = Cleared(wasInSeen: bool) | Throws | Dropped | Accepted

  datatype Outcome = Threw | Returned(accepted: bool)

  function WithTime(n: Notification, now: int): Notification {
    n.(timestamp := Some(if n.timestamp.Some? then n.timestamp.value else now))
  }

  function VerdictOn(o: Options, s: State, n: Notification, now: int, minute: int): Verdict {
    if n.clear then Cleared(Lookup(s.seen, NotificationKey(n)).Some?)
    else if n.severity !in o.Filter() then Dropped
    else
      var quiet := if o.quietHours.None? || o.quietHours.value == "" then Some(false)
                   else QuietHours.IsInQuietHours(o.quietHours.value, minute);
      if quiet.None? then Throws
      else if quiet.value then Dropped
      else
        var previous := Lookup(s.seen, NotificationKey(n));
        if previous.Some? && now - previous.value < o.DedupWindow() then Dropped else Accepted
  }

  function Deliver(s: State, shown: Notification, items: seq<Notification>): State {
    s.(delivered := s.delivered + [Delivery(shown, items)])
  }

  function Enqueued(o: Options, s: State, n: Notification, now: int, minute: int): State {
    var m := WithTime(n, now);
    match VerdictOn(o, s, n, now, minute)
    case Cleared(wasInSeen) =>
      if wasInSeen then Deliver(s.(seen := Without(s.seen, NotificationKey(n))), m, [m]) else s
    case Accepted =>
      var t := s.(seen := Evicted(Put(s.seen, NotificationKey(n), now)));
      if o.BatchWindow() <= 0 then Deliver(t, m, [m])
      else t.(batch := t.batch + [m], timer := if t.timer.Some? then t.timer else Some(o.BatchWindow()))
    case _ => s
  }

  function OutcomeOf(v: Verdict): Outcome {
    match v
    case Throws => Threw
    case Dropped => Returned(false)
    case _ => Returned(true)
  }

  function Flushed(s: State, now: int): State {
    var t := s.(timer := None, batch := []);
    if s.batch == [] then t
    else if |s.batch| == 1 then Deliver(t, s.batch[0], s.batch)
    else Deliver(t, Summary(s.batch, now), s.batch)
  }

  // ---------- the program ----------

  class NotificationRouter {
    const opts: Options
    var seen: seq<Seen>
    var batch: seq<Notification>
    var timer: Option<int>
    var delivered: seq<Delivery>

    ghost function Value(): State
      reads this
    {
      State(seen, batch, timer, delivered)
    }

    constructor (o: Options)
      ensures opts == o && Value() == State([], [], None, [])
    {
      opts := o;
      seen, batch, timer, delivered := [], [], None, [];
    }

    method EvictSeenIfNeeded()
      modifies this`seen
      ensures seen == Evicted(old(seen))
    {
      if |seen| > SEEN_MAP_MAX_SIZE {
        var entries := Sorting.SortBy(seen, TimeOf);
        Sorting.SortByElements(seen, TimeOf);
        var keepCount := SEEN_MAP_MAX_SIZE / 2;
        var dropped := entries[..|entries| - keepCount];
        assert dropped == Oldest(seen);
        while dropped != []
          invariant WithoutAll(seen, dropped) == Evicted(old(seen))
          decreases |dropped|
        {
          seen := Without(seen, dropped[0].key);
          dropped := dropped[1..];
        }
      }
    }

    method Enqueue(notification: Notification, now: int, minute: int) returns (r: Outcome)
      modifies this
      ensures Value() == Enqueued(opts, old(Value()), notification, now, minute)
      ensures r == OutcomeOf(VerdictOn(opts, old(Value()), notification, now, minute))
    {
      var withTime := WithTime(notification, now);
      var key := NotificationKey(withTime);
      if withTime.clear {
        if Lookup(seen, key).Some? {
          seen := Without(seen, key);
          delivered := delivered + [Delivery(withTime, [withTime])];
        }
        return Returned(true);
      }
      if withTime.severity !in opts.Filter() {
        return Returned(false);
      }
      if opts.quietHours.Some? && opts.quietHours.value != "" {
        var quiet := QuietHours.IsInQuietHours(opts.quietHours.value, minute);
        if quiet.None? {
          return Threw;
        }
        if quiet.value {
          return Returned(false);
        }
      }
      var previous := Lookup(seen, key);
      if previous.Some? && now - previous.value < opts.DedupWindow() {
        return Returned(false);
      }
      seen := Put(seen, key, now);
      EvictSeenIfNeeded();
      if opts.BatchWindow() <= 0 {
        delivered := delivered + [Delivery(withTime, [withTime])];
        return Returned(true);
      }
      batch := batch + [withTime];
      if timer.None? {
        timer := Some(opts.BatchWindow());
      }
      return Returned(true);
    }

    /** Called, or run by the timer. */
    method Flush(now: int)
      modifies this
      ensures Value() == Flushed(old(Value()), now)
    {
      timer := None;
      if |batch| == 0 {
        return;
      }
      var items := batch;
      batch := [];
      if |items| == 1 {
        delivered := delivered + [Delivery(items[0], items)];
        return;
      }
      delivered := delivered + [Delivery(Summary(items, now), items)];
    }

    method Dispose()
      modifies this
      ensures Value() == State([], [], None, old(delivered))
    {
      timer, batch, seen := None, [], [];
    }
  }
}
