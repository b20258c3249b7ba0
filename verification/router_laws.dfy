/** What the router keeps over every run. */
module RouterLaws {
  import opened Wrappers
  import opened Router
  import Sorting
  import QuietHours

  predicate DistinctKeys(seen: seq<Seen>) {
    forall i, j :: 0 <= i < j < |seen| ==> seen[i].key != seen[j].key
  }

  predicate HasKey(seen: seq<Seen>, key: string) { exists i :: 0 <= i < |seen| && seen[i].key == key }

  // ---------- the map ----------

  lemma DistinctTail(seen: seq<Seen>)
    requires DistinctKeys(seen) && seen != []
    ensures DistinctKeys(seen[1..]) && !HasKey(seen[1..], seen[0].key)
  {
  }

  lemma DistinctFront(e: Seen, seen: seq<Seen>)
    requires DistinctKeys(seen) && !HasKey(seen, e.key)
    ensures DistinctKeys([e] + seen)
  {
  }

  lemma KeyOfFront(e: Seen, seen: seq<Seen>, key: string)
    ensures HasKey([e] + seen, key) <==> e.key == key || HasKey(seen, key)
  {
    assert ([e] + seen)[0] == e;
    assert forall i | 0 <= i < |seen| :: ([e] + seen)[i + 1] == seen[i];
  }

  lemma {:induction false} LookupIsHasKey(seen: seq<Seen>, key: string)
    ensures Lookup(seen, key).Some? <==> HasKey(seen, key)
  {
    if seen == [] {
    } else {
      LookupIsHasKey(seen[1..], key);
      assert seen == [seen[0]] + seen[1..];
      KeyOfFront(seen[0], seen[1..], key);
    }
  }

  lemma {:induction false} PutLaws(seen: seq<Seen>, key: string, time: int)
    requires DistinctKeys(seen)
    ensures DistinctKeys(Put(seen, key, time))
    ensures forall k :: HasKey(Put(seen, key, time), k) <==> k == key || HasKey(seen, k)
    ensures forall k :: Lookup(Put(seen, key, time), k) == if k == key then Some(time) else Lookup(seen, k)
    ensures |Put(seen, key, time)| == |seen| + if HasKey(seen, key) then 0 else 1
    ensures !HasKey(seen, key) ==> Put(seen, key, time) == seen + [Seen(key, time)]
  {
    if seen == [] {
      KeyOfFront(Seen(key, time), [], key);
      forall k ensures HasKey(Put(seen, key, time), k) <==> k == key {
        KeyOfFront(Seen(key, time), [], k);
      }
    } else {
      var rest := seen[1..];
      assert seen == [seen[0]] + rest;
      DistinctTail(seen);
      forall k ensures HasKey(seen, k) <==> seen[0].key == k || HasKey(rest, k) {
        KeyOfFront(seen[0], rest, k);
      }
      if seen[0].key == key {
        DistinctFront(Seen(key, time), rest);
        forall k ensures HasKey(Put(seen, key, time), k) <==> k == key || HasKey(rest, k) {
          KeyOfFront(Seen(key, time), rest, k);
        }
      } else {
        PutLaws(rest, key, time);
        DistinctFront(seen[0], Put(rest, key, time));
        forall k ensures HasKey(Put(seen, key, time), k) <==> seen[0].key == k || HasKey(Put(rest, key, time), k) {
          KeyOfFront(seen[0], Put(rest, key, time), k);
        }
      }
    }
  }

  lemma {:induction false} WithoutLaws(seen: seq<Seen>, key: string)
    requires DistinctKeys(seen)
    ensures DistinctKeys(Without(seen, key))
    ensures forall k :: HasKey(Without(seen, key), k) <==> k != key && HasKey(seen, k)
    ensures forall k :: Lookup(Without(seen, key), k) == if k == key then None else Lookup(seen, k)
    ensures forall e <- Without(seen, key) :: e in seen
  {
    if seen == [] {
    } else {
      var rest := seen[1..];
      assert seen == [seen[0]] + rest;
      DistinctTail(seen);
      forall k ensures HasKey(seen, k) <==> seen[0].key == k || HasKey(rest, k) {
        KeyOfFront(seen[0], rest, k);
      }
      LookupIsHasKey(rest, key);
      if seen[0].key != key {
        WithoutLaws(rest, key);
        DistinctFront(seen[0], Without(rest, key));
        forall k
          ensures HasKey([seen[0]] + Without(rest, key), k) <==> seen[0].key == k || HasKey(Without(rest, key), k)
        {
          KeyOfFront(seen[0], Without(rest, key), k);
        }
      }
    }
  }

  lemma {:induction false} WithoutOne(seen: seq<Seen>, e: Seen)
    requires DistinctKeys(seen) && e in seen
    ensures multiset(seen) == multiset(Without(seen, e.key)) + multiset{e}
  {
    assert seen == [seen[0]] + seen[1..];
    DistinctTail(seen);
    if seen[0].key != e.key {
      WithoutOne(seen[1..], e);
    } else {
      assert seen[0] == e;
    }
  }

  // ---------- eviction ----------

  lemma {:induction false} WithoutAllLaws(seen: seq<Seen>, dropped: seq<Seen>)
    requires DistinctKeys(seen)
    ensures DistinctKeys(WithoutAll(seen, dropped))
    ensures forall k :: Lookup(WithoutAll(seen, dropped), k) == if HasKey(dropped, k) then None else Lookup(seen, k)
    ensures forall e <- WithoutAll(seen, dropped) :: e in seen
    decreases |dropped|
  {
    if dropped == [] {
    } else {
      var key := dropped[0].key;
      WithoutLaws(seen, key);
      WithoutAllLaws(Without(seen, key), dropped[1..]);
      assert dropped == [dropped[0]] + dropped[1..];
      forall k ensures HasKey(dropped, k) <==> key == k || HasKey(dropped[1..], k) {
        KeyOfFront(dropped[0], dropped[1..], k);
      }
    }
  }

  lemma {:induction false} WithoutAllKeeps(seen: seq<Seen>, dropped: seq<Seen>, kept: multiset<Seen>)
    requires DistinctKeys(seen) && multiset(seen) == multiset(dropped) + kept
    ensures multiset(WithoutAll(seen, dropped)) == kept
    decreases |dropped|
  {
    if dropped == [] {
    } else {
      var e := dropped[0];
      assert dropped == [e] + dropped[1..];
      assert e in multiset(seen);
      WithoutOne(seen, e);
      WithoutLaws(seen, e.key);
      var rest := multiset(Without(seen, e.key));
      assert rest == (rest + multiset{e}) - multiset{e};
      assert multiset(dropped[1..]) + kept == (multiset{e} + multiset(dropped[1..]) + kept) - multiset{e};
      assert multiset(dropped) == multiset{e} + multiset(dropped[1..]);
      WithoutAllKeeps(Without(seen, e.key), dropped[1..], kept);
    }
  }

  /** The sorted entries are the dropped ones and then the others. */
  function Newest(seen: seq<Seen>): seq<Seen> {
    var entries := Sorting.SortBy(seen, TimeOf);
    if SEEN_MAP_MAX_SIZE < |seen| && |entries| == |seen| then entries[|entries| - SEEN_MAP_MAX_SIZE / 2..] else entries
  }

  lemma SortedInTwo(seen: seq<Seen>)
    ensures Oldest(seen) + Newest(seen) == Sorting.SortBy(seen, TimeOf)
    ensures |Newest(seen)| == if SEEN_MAP_MAX_SIZE < |seen| then SEEN_MAP_MAX_SIZE / 2 else |seen|
    ensures multiset(seen) == multiset(Oldest(seen)) + multiset(Newest(seen))
    ensures forall x <- Oldest(seen), y <- Newest(seen) :: x.time <= y.time
  {
    Sorting.SortByIsStableSort(seen, TimeOf);
    Sorting.SortByElements(seen, TimeOf);
    assert Sorting.SortBy(seen, TimeOf) == Oldest(seen) + Newest(seen);
    assert |Newest(seen)| == if SEEN_MAP_MAX_SIZE < |seen| then SEEN_MAP_MAX_SIZE / 2 else |seen|;
    hide Oldest, Newest, Sorting.SortBy;
    SortedParts(Oldest(seen), Newest(seen));
  }

  lemma SortedParts(a: seq<Seen>, b: seq<Seen>)
    requires Sorting.IsSortedBy(a + b, TimeOf)
    ensures forall x <- a, y <- b :: x.time <= y.time
  {
    forall x <- a, y <- b ensures x.time <= y.time {
      var i :| 0 <= i < |a| && a[i] == x;
      var j :| 0 <= j < |b| && b[j] == y;
      assert (a + b)[i] == x && (a + b)[|a| + j] == y;
      assert TimeOf((a + b)[i]) <= TimeOf((a + b)[|a| + j]);
    }
  }

  /** Above the capacity, exactly half of it is kept, and nothing newer is dropped than what is kept;
      otherwise everything stays. */
  lemma EvictionDropsOldest(seen: seq<Seen>)
    requires DistinctKeys(seen)
    ensures DistinctKeys(Evicted(seen))
    ensures |Evicted(seen)| == if |seen| > 10_000 then 5000 else |seen|
    ensures forall e <- Evicted(seen) :: e in seen
    ensures forall x <- seen, y <- Evicted(seen) :: x !in Evicted(seen) ==> x.time <= y.time
  {
    hide Oldest, Newest;
    SortedInTwo(seen);
    WithoutAllLaws(seen, Oldest(seen));
    WithoutAllKeeps(seen, Oldest(seen), multiset(Newest(seen)));
    assert |multiset(Evicted(seen))| == |multiset(Newest(seen))|;
    forall x <- seen, y <- Evicted(seen) | x !in Evicted(seen) ensures x.time <= y.time {
      assert x in multiset(seen) && x !in multiset(Evicted(seen));
      assert x in multiset(Oldest(seen));
      assert y in multiset(Newest(seen));
    }
  }

  lemma {:induction false} InsertBelow(x: Seen, s: seq<Seen>, last: Seen, key: Seen -> int)
    requires key(x) <= key(last)
    ensures Sorting.Insert(x, s + [last], key) == Sorting.Insert(x, s, key) + [last]
  {
    if s == [] {
      assert Sorting.Insert(x, [last], key) == [x] + [last];
    } else {
      assert (s + [last])[1..] == s[1..] + [last];
      InsertBelow(x, s[1..], last, key);
    }
  }

  lemma {:induction false} SortWithLast(s: seq<Seen>, last: Seen, key: Seen -> int)
    requires forall x <- s :: key(x) <= key(last)
    ensures Sorting.SortBy(s + [last], key) == Sorting.SortBy(s, key) + [last]
  {
    if s == [] {
      assert [] + [last] == [last];
      assert Sorting.SortBy([last], key) == Sorting.Insert(last, Sorting.SortBy([last][1..], key), key);
    } else {
      assert (s + [last])[1..] == s[1..] + [last];
      SortWithLast(s[1..], last, key);
      InsertBelow(s[0], Sorting.SortBy(s[1..], key), last, key);
    }
  }

  /** A new key, with no later time among the others, survives the eviction it causes. */
  lemma NewestSurvives(seen: seq<Seen>, e: Seen)
    requires DistinctKeys(seen + [e]) && forall x <- seen :: x.time <= e.time
    ensures e in Evicted(seen + [e])
  {
    hide Oldest, Newest;
    var key := TimeOf;
    var all := seen + [e];
    SortWithLast(seen, e, key);
    SortedInTwo(all);
    assert Newest(all)[|Newest(all)| - 1] == e by {
      var s := Sorting.SortBy(all, key);
      assert s[|s| - 1] == e;
    }
    WithoutAllKeeps(all, Oldest(all), multiset(Newest(all)));
    assert e in multiset(Newest(all));
  }

  // ---------- runs ----------

  datatype Event = Enqueue(n: Notification, now: int, minute: int) | Flush(now: int)

  /** What happened to a key: it was accepted, or it was cleared or evicted. */
  datatype Fact = Accept(key: string, time: int) | Forget(key: string)

  datatype World = World(state: State, accepted: seq<Notification>, facts: seq<Fact>, now: int)

  predicate Accepts(o: Options, s: State, e: Event) {
    e.Enqueue? && VerdictOn(o, s, e.n, e.now, e.minute).Accepted?
  }

  function Forgets(dropped: seq<Seen>): (r: seq<Fact>)
    ensures |r| == |dropped|
  {
    seq(|dropped|, i requires 0 <= i < |dropped| => Forget(dropped[i].key))
  }

  function NewFacts(o: Options, s: State, e: Event): seq<Fact> {
    match e
    case Flush(_) => []
    case Enqueue(n, now, minute) =>
      match VerdictOn(o, s, n, now, minute)
      case Cleared(_) => [Forget(NotificationKey(n))]
      case Accepted => [Accept(NotificationKey(n), now)] + Forgets(Oldest(Put(s.seen, NotificationKey(n), now)))
      case _ => []
  }

  function StateAfter(o: Options, s: State, e: Event): State {
    match e
    case Flush(now) => Flushed(s, now)
    case Enqueue(n, now, minute) => Enqueued(o, s, n, now, minute)
  }

  function Step(o: Options, w: World, e: Event): World {
    World(StateAfter(o, w.state, e),
          w.accepted + if Accepts(o, w.state, e) then [WithTime(e.n, e.now)] else [],
          w.facts + NewFacts(o, w.state, e), e.now)
  }

  function Begin(now: int): World { World(State([], [], None, []), [], [], now) }

  function Run(o: Options, now: int, events: seq<Event>): World {
    if events == [] then Begin(now) else Step(o, Run(o, now, events[..|events| - 1]), events[|events| - 1])
  }

  /** The clock does not go back. */
  predicate Timely(now: int, events: seq<Event>) {
    events == [] || (
      var before := events[..|events| - 1];
      Timely(now, before) && (if before == [] then now else before[|before| - 1].now) <= events[|events| - 1].now)
  }

  lemma RunClock(o: Options, now: int, events: seq<Event>)
    ensures Run(o, now, events).now == if events == [] then now else events[|events| - 1].now
  {
  }

  /** The same notification, with the time of the call if it had none. */
  predicate IsStamped(m: Notification, n: Notification, now: int) {
    && m.(timestamp := None) == n.(timestamp := None)
    && m.timestamp == Some(if n.timestamp.Some? then n.timestamp.value else now)
  }

  /** What is accepted is what was handed in: each event adds its notification, stamped, or nothing. */
  lemma AcceptedIsHandedIn(o: Options, now: int, events: seq<Event>)
    ensures events == [] ==> Run(o, now, events).accepted == []
    ensures events != [] ==>
              var e, before := events[|events| - 1], Run(o, now, events[..|events| - 1]).accepted;
              var after := Run(o, now, events).accepted;
              || after == before
              || (e.Enqueue? && after[..|after| - 1] == before && IsStamped(after[|after| - 1], e.n, e.now))
    decreases events
  {
    if events == [] {
    } else {
      var e, w := events[|events| - 1], Run(o, now, events[..|events| - 1]);
      hide Run, VerdictOn, NewFacts, Enqueued;
      assert Run(o, now, events) == Step(o, w, e) by { RunLast(o, now, events); }
      AcceptsEnqueued(o, w.state, e);
      if Accepts(o, w.state, e) {
        assert (w.accepted + [WithTime(e.n, e.now)])[..|w.accepted|] == w.accepted;
      } else {
        assert w.accepted + [] == w.accepted;
      }
    }
  }

  lemma RunLast(o: Options, now: int, events: seq<Event>)
    requires events != []
    ensures Run(o, now, events) == Step(o, Run(o, now, events[..|events| - 1]), events[|events| - 1])
  {
    hide Step;
  }

  lemma AcceptsEnqueued(o: Options, s: State, e: Event)
    ensures Accepts(o, s, e) ==> e.Enqueue?
  {
    hide VerdictOn;
  }

  // ---------- conservation ----------

  /** All notifications delivered, alone or inside a batch, other than clears. */
  function Items(delivered: seq<Delivery>): seq<Notification> {
    if delivered == [] then []
    else
      var d := delivered[|delivered| - 1];
      Items(delivered[..|delivered| - 1]) + if d.shown.clear then [] else d.items
  }

  lemma ColonIsFirst(a: string, b: string)
    requires ':' !in a
    ensures var s := a + ":" + b;
            && |a| < |s| && s[|a|] == ':' && (forall i :: 0 <= i < |a| ==> s[i] != ':')
            && s[..|a|] == a && s[|a| + 1..] == b
  {
  }

  lemma SplitAtColon(a: string, b: string, c: string, d: string)
    requires ':' !in a && ':' !in c && a + ":" + b == c + ":" + d
    ensures a == c && b == d
  {
    ColonIsFirst(a, b);
    ColonIsFirst(c, d);
  }

  function RunOf(n: Notification): string { if n.runId.Some? then n.runId.value else "global" }

  /** An id is the key; notifications without one, with sources and runs that hold no colon, have one key
      exactly if they agree in source, run and title. */
  lemma KeysTellApart(m: Notification, n: Notification)
    ensures n.id.Some? ==> NotificationKey(n) == n.id.value
    ensures m.id.None? && n.id.None? && ':' !in m.source + RunOf(m) && ':' !in n.source + RunOf(n) ==>
              (NotificationKey(m) == NotificationKey(n) <==>
               m.source == n.source && RunOf(m) == RunOf(n) && m.title == n.title)
  {
    if m.id.None? && n.id.None? && ':' !in m.source + RunOf(m) && ':' !in n.source + RunOf(n) {
      var x, y := RunOf(m) + ":" + m.title, RunOf(n) + ":" + n.title;
      assert NotificationKey(m) == m.source + ":" + x && NotificationKey(n) == n.source + ":" + y;
      assert forall c <- m.source :: c in m.source + RunOf(m);
      assert forall c <- RunOf(m) :: c in m.source + RunOf(m);
      assert forall c <- n.source :: c in n.source + RunOf(n);
      assert forall c <- RunOf(n) :: c in n.source + RunOf(n);
      hide NotificationKey, RunOf;
      if m.source + ":" + x == n.source + ":" + y {
        SplitAtColon(m.source, x, n.source, y);
        SplitAtColon(RunOf(m), m.title, RunOf(n), n.title);
      }
    }
  }

  /** The text holds the parts in order, each after the bullet, with the separator between neighbours. */
  predicate Lists(text: string, parts: seq<string>, bullet: string, separator: string)
    decreases |parts|
  {
    if parts == [] then text == ""
    else if |parts| == 1 then text == bullet + parts[0]
    else
      var line := bullet + parts[0] + separator;
      line <= text && Lists(text[|line|..], parts[1..], bullet, separator)
  }

  /** The text reads as the number. */
  predicate ReadsAs(text: string, n: nat) {
    && text != "" && '0' <= text[|text| - 1] <= '9'
    && (if |text| == 1 then 0 else 10) <= n
    && n % 10 == text[|text| - 1] as int - '0' as int
    && (|text| > 1 ==> ReadsAs(text[..|text| - 1], n / 10))
    && (n >= 10 ==> |text| > 1)
  }

  function Titles(items: seq<Notification>): seq<string> {
    seq(|items|, i requires 0 <= i < |items| => items[i].title)
  }

  function Keys(items: seq<Notification>): seq<string> {
    seq(|items|, i requires 0 <= i < |items| => NotificationKey(items[i]))
  }

  const BATCH: string := "batch:"
  const COUNTED: string := " pi-crew notifications"

  /** One notification that stands for several: it names them all, counts them, and is as severe as the
      most severe of them. */
  ghost predicate Summarizes(n: Notification, items: seq<Notification>) {
    && n.body.Some? && Lists(n.body.value, Titles(items), "• ", "\n")
    && n.id.Some? && BATCH <= n.id.value && Lists(n.id.value[|BATCH|..], Keys(items), "", ",")
    && |n.title| > |COUNTED| && n.title[|n.title| - |COUNTED|..] == COUNTED
    && ReadsAs(n.title[..|n.title| - |COUNTED|], |items|)
    && (exists x <- items :: x.severity == n.severity) && (forall x <- items :: Rank(x.severity) <= Rank(n.severity))
    && n.source == "batch" && n.runId.None? && n.timestamp.Some? && !n.clear
  }

  lemma {:induction false} JoinedLists(parts: seq<string>, bullet: string, separator: string)
    ensures var lines := seq(|parts|, i requires 0 <= i < |parts| => bullet + parts[i]);
            Lists(Joined(lines, separator), parts, bullet, separator)
    decreases |parts|
  {
    var lines := seq(|parts|, i requires 0 <= i < |parts| => bullet + parts[i]);
    if |parts| <= 1 {
    } else {
      var rest := seq(|parts| - 1, i requires 0 <= i < |parts| - 1 => bullet + parts[1..][i]);
      JoinedLists(parts[1..], bullet, separator);
      assert lines[1..] == rest;
      var line := bullet + parts[0] + separator;
      assert Joined(lines, separator) == line + Joined(rest, separator);
      assert (line + Joined(rest, separator))[|line|..] == Joined(rest, separator);
    }
  }

  lemma {:induction false} DecimalReads(n: nat)
    ensures ReadsAs(Decimal(n), n)
  {
    var last := [('0' as int + n % 10) as char];
    if n < 10 {
      assert Decimal(n) == "" + last == last;
    } else {
      DecimalReads(n / 10);
      var before := Decimal(n / 10);
      assert Decimal(n) == before + last && (before + last)[..|before|] == before;
    }
  }

  lemma SummaryBody(items: seq<Notification>, now: int)
    ensures var n := Summary(items, now);
            n.body.Some? && Lists(n.body.value, Titles(items), "• ", "\n")
  {
    JoinedLists(Titles(items), "• ", "\n");
    assert seq(|items|, i requires 0 <= i < |items| => "• " + items[i].title)
           == seq(|items|, i requires 0 <= i < |items| => "• " + Titles(items)[i]);
    hide Joined, Decimal, BatchSeverity, Lists, NotificationKey;
  }

  lemma SummaryId(items: seq<Notification>, now: int)
    ensures var n := Summary(items, now);
            n.id.Some? && BATCH <= n.id.value && Lists(n.id.value[|BATCH|..], Keys(items), "", ",")
  {
    JoinedLists(Keys(items), "", ",");
    hide Joined, Decimal, BatchSeverity, Lists, NotificationKey;
    var keys := seq(|items|, i requires 0 <= i < |items| => NotificationKey(items[i]));
    var lines := seq(|items|, i requires 0 <= i < |items| => "" + Keys(items)[i]);
    forall i | 0 <= i < |items| ensures lines[i] == keys[i] {
      assert "" + Keys(items)[i] == Keys(items)[i];
    }
    assert lines == keys;
    assert (BATCH + Joined(keys, ","))[|BATCH|..] == Joined(keys, ",");
  }

  lemma SummaryTitle(items: seq<Notification>, now: int)
    ensures var n := Summary(items, now);
            && |n.title| > |COUNTED| && n.title[|n.title| - |COUNTED|..] == COUNTED
            && ReadsAs(n.title[..|n.title| - |COUNTED|], |items|)
  {
    DecimalReads(|items|);
    var digits := Decimal(|items|);
    assert digits != "";
    hide Joined, Decimal, BatchSeverity, ReadsAs, NotificationKey;
    var n := Summary(items, now);
    assert n.title == digits + COUNTED;
    assert n.title[..|digits|] == digits && n.title[|digits|..] == COUNTED;
  }

  lemma SummarySummarizes(items: seq<Notification>, now: int)
    requires |items| >= 2
    ensures Summarizes(Summary(items, now), items) && !Summary(items, now).clear
  {
    BatchSeverityIsHighest(items);
    SummaryBody(items, now);
    SummaryId(items, now);
    SummaryTitle(items, now);
    hide Joined, Decimal, BatchSeverity, Lists, ReadsAs, Titles, Keys, NotificationKey, Rank;
  }

  /** A delivery is one notification, or one that stands for several. */
  ghost predicate IsDelivery(d: Delivery) {
    d.items == [d.shown] || (|d.items| >= 2 && Summarizes(d.shown, d.items))
  }

  ghost predicate Conserves(o: Options, w: World) {
    && Items(w.state.delivered) + w.state.batch == w.accepted
    && (w.state.timer.Some? <==> w.state.batch != []) && (w.state.batch != [] ==> o.BatchWindow() > 0)
    && (forall n <- w.state.batch :: !n.clear)
    && (forall d <- w.state.delivered :: IsDelivery(d))
  }

  lemma ItemsPlus(delivered: seq<Delivery>, d: Delivery)
    ensures Items(delivered + [d]) == Items(delivered) + if d.shown.clear then [] else d.items
  {
    assert (delivered + [d])[..|delivered|] == delivered;
  }

  lemma VerdictClear(o: Options, s: State, n: Notification, now: int, minute: int)
    ensures VerdictOn(o, s, n, now, minute).Cleared? <==> n.clear
  {
  }

  lemma DeliverConserves(o: Options, w: World, m: Notification)
    requires Conserves(o, w) && (m.clear || o.BatchWindow() <= 0)
    ensures Conserves(o, w.(state := Deliver(w.state, m, [m]), accepted := w.accepted + if m.clear then [] else [m]))
  {
    hide Items, Summary;
    ItemsPlus(w.state.delivered, Delivery(m, [m]));
    assert w.accepted + [] == w.accepted;
    assert Items(w.state.delivered) + [] == Items(w.state.delivered);
  }

  lemma WaitConserves(o: Options, w: World, m: Notification)
    requires Conserves(o, w) && !m.clear && o.BatchWindow() > 0
    ensures var timer := if w.state.timer.Some? then w.state.timer else Some(o.BatchWindow());
            Conserves(o, w.(state := w.state.(batch := w.state.batch + [m], timer := timer),
                            accepted := w.accepted + [m]))
  {
    hide Items, IsDelivery;
    assert Items(w.state.delivered) + (w.state.batch + [m]) == Items(w.state.delivered) + w.state.batch + [m];
  }

  lemma EnqueueConserves(o: Options, w: World, e: Event)
    requires Conserves(o, w) && e.Enqueue?
    ensures Conserves(o, Step(o, w, e))
  {
    VerdictClear(o, w.state, e.n, e.now, e.minute);
    hide Items, IsDelivery, VerdictOn, Evicted, Put, NotificationKey, NewFacts, Lookup, Without;
    var m := WithTime(e.n, e.now);
    var v := w.(state := w.state.(seen := Step(o, w, e).state.seen), facts := Step(o, w, e).facts, now := e.now);
    assert Conserves(o, v);
    assert w.accepted + [] == w.accepted;
    hide Conserves;
    match VerdictOn(o, w.state, e.n, e.now, e.minute) {
      case Cleared(wasInSeen) => if wasInSeen { DeliverConserves(o, v, m); }
      case Accepted => if o.BatchWindow() <= 0 { DeliverConserves(o, v, m); } else { WaitConserves(o, v, m); }
      case _ =>
    }
  }

  lemma FlushConserves(o: Options, w: World, now: int)
    requires Conserves(o, w)
    ensures Conserves(o, Step(o, w, Flush(now)))
  {
    hide Items, Summary, Summarizes;
    var s := w.state;
    assert w.accepted + [] == w.accepted;
    if |s.batch| == 1 {
      ItemsPlus(s.delivered, Delivery(s.batch[0], s.batch));
    } else if |s.batch| > 1 {
      SummarySummarizes(s.batch, now);
      ItemsPlus(s.delivered, Delivery(Summary(s.batch, now), s.batch));
    }
  }

  lemma {:induction false} RunConserves(o: Options, now: int, events: seq<Event>)
    ensures Conserves(o, Run(o, now, events))
  {
    if events == [] {
    } else {
      hide Conserves, Step;
      var before := events[..|events| - 1];
      RunConserves(o, now, before);
      var e := events[|events| - 1];
      if e.Enqueue? {
        EnqueueConserves(o, Run(o, now, before), e);
      } else {
        FlushConserves(o, Run(o, now, before), e.now);
      }
    }
  }

  /** Every accepted notification was delivered exactly once, in order, or still waits in the batch; a
      timer is set exactly if one waits; each delivery is one notification or a summary of several. */
  lemma RouterConserves(o: Options, now: int, events: seq<Event>)
    ensures var w := Run(o, now, events);
            && Items(w.state.delivered) + w.state.batch == w.accepted
            && (w.state.timer.Some? <==> w.state.batch != []) && (o.BatchWindow() <= 0 ==> w.state.batch == [])
            && forall d <- w.state.delivered :: IsDelivery(d)
  {
    RunConserves(o, now, events);
  }

  lemma {:induction false} SeverityIsAttained(items: seq<Notification>) returns (i: nat)
    requires items != []
    ensures i < |items| && items[i].severity == BatchSeverity(items)
  {
    var before, last := items[..|items| - 1], items[|items| - 1];
    assert items == before + [last];
    SeverityOneMore(before, last);
    hide *;
    i := |items| - 1;
    if BatchSeverity(items) != last.severity {
      i := SeverityIsAttained(before);
    }
  }

  lemma {:induction false} SeverityIsHighest(items: seq<Notification>, i: nat)
    requires i < |items|
    ensures Rank(items[i].severity) <= Rank(BatchSeverity(items))
  {
    var before, last := items[..|items| - 1], items[|items| - 1];
    assert items == before + [last];
    SeverityOneMore(before, last);
    hide *;
    if i < |before| {
      SeverityIsHighest(before, i);
    }
  }

  /** The severity of a summary is one of its items' and none is more severe. */
  lemma BatchSeverityIsHighest(items: seq<Notification>)
    requires items != []
    ensures exists n <- items :: n.severity == BatchSeverity(items)
    ensures forall n <- items :: Rank(n.severity) <= Rank(BatchSeverity(items))
  {
    hide *;
    var k := SeverityIsAttained(items);
    assert items[k] in items;
    forall n | n in items ensures Rank(n.severity) <= Rank(BatchSeverity(items)) {
      var i :| 0 <= i < |items| && items[i] == n;
      SeverityIsHighest(items, i);
    }
  }

  lemma SeverityOneMore(before: seq<Notification>, last: Notification)
    ensures var was := BatchSeverity(before);
            BatchSeverity(before + [last]) == if Rank(last.severity) > Rank(was) then last.severity else was
    ensures before == [] ==> BatchSeverity(before + [last]) == last.severity
  {
    assert (before + [last])[..|before|] == before;
  }

  // ---------- the dedup window ----------

  /** When the key was last accepted, if nothing has forgotten it since. */
  function LastAccepted(facts: seq<Fact>, key: string): Option<int> {
    if facts == [] then None
    else
      var f := facts[|facts| - 1];
      if f.key == key then (if f.Accept? then Some(f.time) else None)
      else LastAccepted(facts[..|facts| - 1], key)
  }

  /** The times of the acceptances are in order. */
  predicate InOrder(facts: seq<Fact>, now: int) {
    && (forall i :: 0 <= i < |facts| && facts[i].Accept? ==> facts[i].time <= now)
    && (forall i, j :: 0 <= i < j < |facts| && facts[i].Accept? && facts[j].Accept? ==> facts[i].time <= facts[j].time)
  }

  /** The key is not forgotten between the two. */
  predicate Kept(facts: seq<Fact>, key: string, i: nat, j: nat)
    requires j <= |facts|
  {
    forall k :: i < k < j ==> facts[k] != Forget(key)
  }

  predicate IsRepeat(facts: seq<Fact>, i: nat, j: nat)
    requires i < j < |facts|
  {
    facts[i].Accept? && facts[j].Accept? && facts[i].key == facts[j].key && Kept(facts, facts[i].key, i, j)
  }

  predicate WellSpaced(facts: seq<Fact>, window: int) {
    forall i: nat, j: nat :: i < j < |facts| && IsRepeat(facts, i, j) ==> facts[j].time - facts[i].time >= window
  }

  ghost predicate Agrees(seen: seq<Seen>, facts: seq<Fact>) {
    forall k :: LastAccepted(facts, k) == Lookup(seen, k)
  }

  ghost predicate Spaces(o: Options, w: World) {
    && DistinctKeys(w.state.seen) && |w.state.seen| <= SEEN_MAP_MAX_SIZE
    && (forall e <- w.state.seen :: e.time <= w.now)
    && Agrees(w.state.seen, w.facts) && InOrder(w.facts, w.now) && WellSpaced(w.facts, o.DedupWindow())
  }

  lemma LastAcceptedPlus(facts: seq<Fact>, f: Fact, key: string)
    ensures LastAccepted(facts + [f], key) ==
            if f.key != key then LastAccepted(facts, key) else if f.Accept? then Some(f.time) else None
  {
    assert (facts + [f])[..|facts|] == facts;
  }

  lemma {:induction false} LastAcceptedForgets(facts: seq<Fact>, dropped: seq<Seen>, key: string)
    ensures LastAccepted(facts + Forgets(dropped), key) ==
              if HasKey(dropped, key) then None else LastAccepted(facts, key)
  {
    if dropped == [] {
      assert facts + Forgets(dropped) == facts;
    } else {
      var n := |dropped| - 1;
      LastAcceptedForgets(facts, dropped[..n], key);
      assert Forgets(dropped) == Forgets(dropped[..n]) + [Forget(dropped[n].key)];
      assert facts + Forgets(dropped) == facts + Forgets(dropped[..n]) + [Forget(dropped[n].key)];
      LastAcceptedPlus(facts + Forgets(dropped[..n]), Forget(dropped[n].key), key);
      assert HasKey(dropped, key) <==> dropped[n].key == key || HasKey(dropped[..n], key) by {
        assert forall i | 0 <= i < n :: dropped[..n][i] == dropped[i];
      }
    }
  }

  /** An acceptance not forgotten since is not after the last one. */
  lemma {:induction false} LastAcceptedIsLatest(facts: seq<Fact>, now: int, i: nat)
    requires i < |facts| && facts[i].Accept? && InOrder(facts, now) && Kept(facts, facts[i].key, i, |facts|)
    ensures LastAccepted(facts, facts[i].key).Some? && facts[i].time <= LastAccepted(facts, facts[i].key).value
  {
    var n := |facts| - 1;
    if i < n && facts[n].key != facts[i].key {
      var before := facts[..n];
      assert before[i] == facts[i];
      assert forall k | i < k < n :: before[k] == facts[k];
      LastAcceptedIsLatest(before, now, i);
    } else if i < n {
      assert facts[n] != Forget(facts[i].key);
    }
  }

  lemma AcceptSpaced(facts: seq<Fact>, window: int, was: int, key: string, now: int)
    requires WellSpaced(facts, window) && InOrder(facts, was) && was <= now
    requires var last := LastAccepted(facts, key); last.Some? ==> now - last.value >= window
    ensures WellSpaced(facts + [Accept(key, now)], window) && InOrder(facts + [Accept(key, now)], now)
  {
    var n := |facts|;
    var all := facts + [Accept(key, now)];
    forall i: nat, j: nat | i < j < |all| && IsRepeat(all, i, j) ensures all[j].time - all[i].time >= window {
      assert all[i] == facts[i];
      assert forall k | i < k < j :: all[k] == facts[k] && all[k] != Forget(all[i].key);
      if j < n {
        assert IsRepeat(facts, i, j);
      } else {
        assert Kept(facts, facts[i].key, i, n);
        LastAcceptedIsLatest(facts, was, i);
      }
    }
  }

  lemma ForgetsSpaced(facts: seq<Fact>, window: int, now: int, dropped: seq<Seen>)
    requires WellSpaced(facts, window) && InOrder(facts, now)
    ensures WellSpaced(facts + Forgets(dropped), window) && InOrder(facts + Forgets(dropped), now)
  {
    var all := facts + Forgets(dropped);
    forall i: nat, j: nat | i < j < |all| && IsRepeat(all, i, j) ensures all[j].time - all[i].time >= window {
      assert j < |facts| && all[j] == facts[j] && all[i] == facts[i];
      assert forall k | i < k < j :: all[k] == facts[k] && all[k] != Forget(all[i].key);
      assert IsRepeat(facts, i, j);
    }
  }

  /** An accepted notification: its key is put in the map, and the oldest keys may be evicted. */
  lemma AcceptAgrees(seen: seq<Seen>, facts: seq<Fact>, key: string, now: int)
    requires Agrees(seen, facts) && DistinctKeys(seen)
    ensures var put := Put(seen, key, now);
            Agrees(Evicted(put), facts + [Accept(key, now)] + Forgets(Oldest(put)))
  {
    hide Oldest;
    var put := Put(seen, key, now);
    PutLaws(seen, key, now);
    WithoutAllLaws(put, Oldest(put));
    forall k ensures LastAccepted(facts + [Accept(key, now)] + Forgets(Oldest(put)), k) == Lookup(Evicted(put), k) {
      LastAcceptedForgets(facts + [Accept(key, now)], Oldest(put), k);
      LastAcceptedPlus(facts, Accept(key, now), k);
    }
  }

  lemma {:induction false} PutTimes(seen: seq<Seen>, key: string, now: int)
    requires forall e <- seen :: e.time <= now
    ensures forall e <- Put(seen, key, now) :: e.time <= now
  {
    if seen != [] && seen[0].key != key {
      PutTimes(seen[1..], key, now);
    }
  }

  lemma AcceptKeepsMap(seen: seq<Seen>, key: string, now: int)
    requires DistinctKeys(seen) && |seen| <= SEEN_MAP_MAX_SIZE && forall e <- seen :: e.time <= now
    ensures var t := Evicted(Put(seen, key, now));
            DistinctKeys(t) && |t| <= SEEN_MAP_MAX_SIZE && forall e <- t :: e.time <= now
  {
    hide Evicted, Put;
    PutLaws(seen, key, now);
    PutTimes(seen, key, now);
    EvictionDropsOldest(Put(seen, key, now));
  }

  lemma AcceptSpaces(o: Options, w: World, e: Event)
    requires Spaces(o, w) && w.now <= e.now && Accepts(o, w.state, e)
    ensures Spaces(o, Step(o, w, e))
  {
    var key, now := NotificationKey(e.n), e.now;
    var seen, put := w.state.seen, Put(w.state.seen, key, now);
    assert Agrees(seen, w.facts);
    AcceptAgrees(seen, w.facts, key, now);
    AcceptKeepsMap(seen, key, now);
    assert LastAccepted(w.facts, key) == Lookup(seen, key);
    NotTooEarly(o, w.state, e);
    AcceptSpaced(w.facts, o.DedupWindow(), w.now, key, now);
    ForgetsSpaced(w.facts + [Accept(key, now)], o.DedupWindow(), now, Oldest(put));
    AcceptStep(o, w, e);
  }

  lemma NotTooEarly(o: Options, s: State, e: Event)
    requires Accepts(o, s, e)
    ensures var last := Lookup(s.seen, NotificationKey(e.n)); last.Some? ==> e.now - last.value >= o.DedupWindow()
  {
  }

  lemma AcceptStep(o: Options, w: World, e: Event)
    requires Accepts(o, w.state, e)
    ensures var put := Put(w.state.seen, NotificationKey(e.n), e.now);
            && Step(o, w, e).state.seen == Evicted(put) && Step(o, w, e).now == e.now
            && Step(o, w, e).facts == w.facts + [Accept(NotificationKey(e.n), e.now)] + Forgets(Oldest(put))
  {
    var put := Put(w.state.seen, NotificationKey(e.n), e.now);
    var f := [Accept(NotificationKey(e.n), e.now)];
    assert w.facts + (f + Forgets(Oldest(put))) == w.facts + f + Forgets(Oldest(put));
  }

  lemma ClearSpaces(o: Options, w: World, e: Event)
    requires Spaces(o, w) && w.now <= e.now && e.Enqueue? && e.n.clear
    ensures Spaces(o, Step(o, w, e))
  {
    hide WellSpaced, InOrder;
    var key := NotificationKey(e.n);
    var t := Step(o, w, e);
    WithoutLaws(w.state.seen, key);
    LookupIsHasKey(w.state.seen, key);
    forall k ensures LastAccepted(t.facts, k) == Lookup(t.state.seen, k) {
      LastAcceptedPlus(w.facts, Forget(key), k);
    }
    WithoutIsShort(w.state.seen, key);
    assert Forgets([Seen(key, 0)]) == [Forget(key)];
    LaterInOrder(w.facts, w.now, e.now);
    ForgetsSpaced(w.facts, o.DedupWindow(), e.now, [Seen(key, 0)]);
  }

  lemma {:induction false} WithoutIsShort(seen: seq<Seen>, key: string)
    ensures |Without(seen, key)| <= |seen|
  {
    if seen != [] && seen[0].key != key {
      WithoutIsShort(seen[1..], key);
    }
  }

  lemma LaterInOrder(facts: seq<Fact>, was: int, now: int)
    requires InOrder(facts, was) && was <= now
    ensures InOrder(facts, now)
  {
  }

  lemma OtherSpaces(o: Options, w: World, e: Event)
    requires Spaces(o, w) && w.now <= e.now && !Accepts(o, w.state, e) && (e.Enqueue? ==> !e.n.clear)
    ensures Spaces(o, Step(o, w, e))
  {
    assert w.facts + [] == w.facts;
    assert Step(o, w, e).state.seen == w.state.seen;
    LaterInOrder(w.facts, w.now, e.now);
  }

  lemma {:induction false} RunSpaces(o: Options, now: int, events: seq<Event>)
    requires Timely(now, events)
    ensures Spaces(o, Run(o, now, events))
  {
    if events != [] {
      hide Spaces, Step, Accepts;
      var before, e := events[..|events| - 1], events[|events| - 1];
      RunSpaces(o, now, before);
      var w := Run(o, now, before);
      RunClock(o, now, before);
      if Accepts(o, w.state, e) {
        AcceptSpaces(o, w, e);
      } else if e.Enqueue? && e.n.clear {
        ClearSpaces(o, w, e);
      } else {
        OtherSpaces(o, w, e);
      }
    } else {
      assert Spaces(o, Begin(now)) by { BeginSpaces(o, now); }
    }
  }

  lemma BeginSpaces(o: Options, now: int)
    ensures Spaces(o, Begin(now))
  {
  }

  /** Two acceptances of one key, with no clear or eviction of it between them, are at least the window
      apart; the map never outgrows its capacity. */
  lemma AcceptancesAreSpaced(o: Options, now: int, events: seq<Event>, i: nat, j: nat)
    requires Timely(now, events) && i < j < |Run(o, now, events).facts| && IsRepeat(Run(o, now, events).facts, i, j)
    ensures var w := Run(o, now, events);
            w.facts[j].time - w.facts[i].time >= o.DedupWindow() && |w.state.seen| <= 10_000
  {
    RunSpaces(o, now, events);
  }

  /** The quiet hours, if any are set, are the text of a range that the minute is not in. */
  predicate IsLoud(o: Options, minute: int) {
    || o.quietHours.None? || o.quietHours.value == ""
    || QuietHours.IsInQuietHours(o.quietHours.value, minute) == Some(false)
  }

  /** A notification is accepted exactly if it is no clear, passes the filter outside quiet hours, and
      its key was not accepted less than the window ago, or was forgotten since. */
  lemma AcceptedIff(o: Options, start: int, events: seq<Event>, n: Notification, now: int, minute: int)
    requires Timely(start, events)
    ensures var w := Run(o, start, events);
            var last := LastAccepted(w.facts, NotificationKey(n));
            VerdictOn(o, w.state, n, now, minute).Accepted? <==>
              && !n.clear && n.severity in o.Filter() && IsLoud(o, minute)
              && (last.Some? ==> now - last.value >= o.DedupWindow())
  {
    RunSpaces(o, start, events);
    var w := Run(o, start, events);
    assert Agrees(w.state.seen, w.facts);
    assert LastAccepted(w.facts, NotificationKey(n)) == Lookup(w.state.seen, NotificationKey(n));
    hide Run, Spaces, Agrees, LastAccepted, Lookup, NotificationKey;
  }

  /** A call fails exactly if the filter lets the notification through to quiet hours that are no text of
      a range. */
  lemma ThrowsIff(o: Options, s: State, n: Notification, now: int, minute: int)
    ensures VerdictOn(o, s, n, now, minute).Throws? <==>
              && !n.clear && n.severity in o.Filter() && o.quietHours.Some? && o.quietHours.value != ""
              && !exists r: QuietHours.Range ::
                   && QuietHours.IsMinute(r.startMin) && QuietHours.IsMinute(r.endMin)
                   && QuietHours.Printed(r) == o.quietHours.value
  {
    if o.quietHours.Some? {
      var text := o.quietHours.value;
      forall r: QuietHours.Range ensures QuietHours.ParseHHMMRange(text) == Some(r) <==>
          QuietHours.IsMinute(r.startMin) && QuietHours.IsMinute(r.endMin) && text == QuietHours.Printed(r) {
        QuietHours.ParsesExactlyRanges(text, r);
      }
      hide QuietHours.ParseHHMMRange, QuietHours.Printed, Lookup, NotificationKey, QuietHours.IsIn;
      if QuietHours.ParseHHMMRange(text).Some? {
        var r := QuietHours.ParseHHMMRange(text).value;
        assert QuietHours.Printed(r) == text;
      }
    }
  }

  /** A clear is delivered exactly if its key was accepted and not forgotten since. */
  lemma ClearsFollowAcceptances(o: Options, start: int, events: seq<Event>, n: Notification, now: int, minute: int)
    requires Timely(start, events) && n.clear
    ensures var w := Run(o, start, events);
            VerdictOn(o, w.state, n, now, minute) == Cleared(LastAccepted(w.facts, NotificationKey(n)).Some?)
  {
    RunSpaces(o, start, events);
    var w := Run(o, start, events);
    assert Agrees(w.state.seen, w.facts);
  }

  /** What was just accepted is remembered, whatever was evicted for it. */
  lemma AcceptedIsRemembered(o: Options, now: int, events: seq<Event>)
    requires Timely(now, events) && events != []
    requires var before := events[..|events| - 1]; Accepts(o, Run(o, now, before).state, events[|events| - 1])
    ensures var e := events[|events| - 1];
            Lookup(Run(o, now, events).state.seen, NotificationKey(e.n)) == Some(e.now)
  {
    var before, e := events[..|events| - 1], events[|events| - 1];
    RunSpaces(o, now, before);
    RunClock(o, now, before);
    AcceptStep(o, Run(o, now, before), e);
    JustPutSurvives(Run(o, now, before).state.seen, NotificationKey(e.n), e.now);
  }

  lemma JustPutSurvives(seen: seq<Seen>, key: string, now: int)
    requires DistinctKeys(seen) && |seen| <= SEEN_MAP_MAX_SIZE && forall e <- seen :: e.time <= now
    ensures Lookup(Evicted(Put(seen, key, now)), key) == Some(now)
  {
    hide Oldest, Put;
    var put := Put(seen, key, now);
    PutLaws(seen, key, now);
    WithoutAllLaws(put, Oldest(put));
    if HasKey(seen, key) {
      assert Oldest(put) == [] by { NoneOldest(put); }
    } else {
      NewestSurvives(seen, Seen(key, now));
      InIsLookup(Evicted(put), Seen(key, now));
    }
  }

  lemma NoneOldest(seen: seq<Seen>)
    requires |seen| <= SEEN_MAP_MAX_SIZE
    ensures Oldest(seen) == []
  {
  }

  lemma {:induction false} InIsLookup(seen: seq<Seen>, e: Seen)
    requires DistinctKeys(seen) && e in seen
    ensures Lookup(seen, e.key) == Some(e.time)
  {
    if seen[0].key != e.key {
      assert seen == [seen[0]] + seen[1..];
      DistinctTail(seen);
      InIsLookup(seen[1..], e);
    } else {
      assert seen[0] == e;
    }
  }
}
