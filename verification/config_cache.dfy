/**
 The cache of loaded configurations (`configCache`, `loadConfig`, `updateConfig` and
 `invalidateConfigCache` in src/config/config.ts). What a load yields is a given function of the
 contents of the watched files.
 */
module ConfigCache {

  datatype File = File(mtime: int, content: string)

  /** A moment: the clock and the files there are. */
  datatype World = World(now: int, files: map<string, File>)

  datatype Entry<+V> = Entry(value: V, mtimes: map<string, int>, cachedAt: int)

  /** How configurations are loaded: the files a key watches, the result of reading them, and how
      long a result may be kept. */
  datatype Loader<!V> = Loader(watched: string -> set<string>, parse: (string, map<string, string>) -> V, ttl: int)

  function Mtimes<V>(l: Loader<V>, w: World, key: string): map<string, int> {
    map p | p in l.watched(key) && p in w.files :: w.files[p].mtime
  }

  function Contents<V>(l: Loader<V>, w: World, key: string): map<string, string> {
    map p | p in l.watched(key) && p in w.files :: w.files[p].content
  }

  /** What reading the files now yields. */
  function Fresh<V>(l: Loader<V>, w: World, key: string): V { l.parse(key, Contents(l, w, key)) }

  predicate IsHit<V>(l: Loader<V>, w: World, entries: map<string, Entry<V>>, key: string) {
    key in entries && w.now - entries[key].cachedAt <= l.ttl && entries[key].mtimes == Mtimes(l, w, key)
  }

  function Evict<V>(l: Loader<V>, now: int, entries: map<string, Entry<V>>): map<string, Entry<V>> {
    map k | k in entries && now - entries[k].cachedAt <= l.ttl :: entries[k]
  }

  function Answer<V>(l: Loader<V>, w: World, entries: map<string, Entry<V>>, key: string): V {
    if IsHit(l, w, entries, key) then entries[key].value else Fresh(l, w, key)
  }

  /** A hit leaves the entry with its age; a miss stores the new result if a watched file exists and
      then drops what is too old. */
  function AfterLoad<V>(l: Loader<V>, w: World, entries: map<string, Entry<V>>, key: string): map<string, Entry<V>> {
    if IsHit(l, w, entries, key) || Mtimes(l, w, key) == map[] then entries
    else Evict(l, w.now, entries[key := Entry(Fresh(l, w, key), Mtimes(l, w, key), w.now)])
  }

  // ---------- the program ----------

  /** What is there while the keys in `left` are still to be swept. */
  function Swept<V>(l: Loader<V>, now: int, all: map<string, Entry<V>>, left: set<string>): map<string, Entry<V>> {
    map k | k in all && (k in left || now - all[k].cachedAt <= l.ttl) :: all[k]
  }

  lemma SweptEnds<V>(l: Loader<V>, now: int, all: map<string, Entry<V>>)
    ensures Swept(l, now, all, all.Keys) == all && Swept(l, now, all, {}) == Evict(l, now, all)
  {
  }

  lemma SweptOneMore<V>(l: Loader<V>, now: int, all: map<string, Entry<V>>, left: set<string>, k: string)
    requires k in left && k in all
    ensures Swept(l, now, all, left - {k}) ==
            if now - all[k].cachedAt > l.ttl then Swept(l, now, all, left) - {k} else Swept(l, now, all, left)
  {
  }

  class Cache<V(0)> {
    const loader: Loader<V>
    var entries: map<string, Entry<V>>

    constructor (l: Loader<V>)
      ensures loader == l && entries == map[]
    {
      loader := l;
      entries := map[];
    }

    method SetConfigCache(key: string, value: V, mtimes: map<string, int>, now: int)
      modifies this
      ensures entries == Evict(loader, now, old(entries)[key := Entry(value, mtimes, now)])
    {
      if key in entries {
        entries := entries - {key};
      }
      entries := entries[key := Entry(value, mtimes, now)];
      var all := entries;
      var left := entries.Keys;
      assert all == old(entries)[key := Entry(value, mtimes, now)];
      SweptEnds(loader, now, all);
      hide Swept, Evict;
      while left != {}
        invariant left <= all.Keys && entries == Swept(loader, now, all, left)
        decreases left
      {
        var k :| k in left;
        SweptOneMore(loader, now, all, left, k);
        if now - all[k].cachedAt > loader.ttl {
          entries := entries - {k};
        }
        left := left - {k};
      }
    }

    method Load(w: World, key: string) returns (value: V)
      modifies this
      ensures value == Answer(loader, w, old(entries), key)
      ensures entries == AfterLoad(loader, w, old(entries), key)
    {
      var current := Mtimes(loader, w, key);
      if key in entries && w.now - entries[key].cachedAt <= loader.ttl && entries[key].mtimes == current {
        var cached := entries[key];
        entries := entries - {key};
        entries := entries[key := cached];
        assert entries == old(entries);
        return cached.value;
      }
      value := Fresh(loader, w, key);
      if current != map[] {
        SetConfigCache(key, value, current, w.now);
      }
    }

    method Invalidate()
      modifies this
      ensures entries == map[]
    {
      entries := map[];
    }
  }

  // ---------- runs ----------

  /** What can happen: time passes, anybody writes files, a configuration is loaded, an update runs
      (writing files and dropping the cache, or finding nothing to change). */
  datatype Event =
    | Tick(ms: nat)
    | Write(files: map<string, File>)
    | Load(key: string)
    | Update(written: bool, files: map<string, File>)

  /** One answered load: the moment is counted from the beginning of the run. */
  datatype Answered<+V> = Answered(key: string, value: V, moment: nat)

  datatype State<+V> = State(past: seq<World>, entries: map<string, Entry<V>>, answers: seq<Answered<V>>) {
    predicate Started() { past != [] }

    function Now(): World
      requires Started()
    {
      past[|past| - 1]
    }
  }

  function Begin<V>(w: World): State<V> { State([w], map[], []) }

  /** Every event begins a new moment. */
  function Step<V>(l: Loader<V>, s: State<V>, e: Event): State<V>
    requires s.Started()
  {
    var w := s.Now();
    match e
    case Tick(ms) => s.(past := s.past + [World(w.now + ms, w.files)])
    case Write(files) => s.(past := s.past + [World(w.now, files)])
    case Load(key) =>
      var answered := Answered(key, Answer(l, w, s.entries, key), |s.past|);
      State(s.past + [w], AfterLoad(l, w, s.entries, key), s.answers + [answered])
    case Update(written, files) =>
      if written then State(s.past + [World(w.now, files)], map[], s.answers) else s.(past := s.past + [w])
  }

  function Run<V>(l: Loader<V>, s: State<V>, events: seq<Event>): (t: State<V>)
    requires s.Started()
    ensures t.Started()
  {
    if events == [] then s else Step(l, Run(l, s, events[..|events| - 1]), events[|events| - 1])
  }

  /** The value was read from the files at moment `i`, at most the lifetime before moment `at`, and the
      watched files have the same times at both moments. */
  ghost predicate WasReadAt<V>(l: Loader<V>, past: seq<World>, key: string, value: V, at: nat, i: nat) {
    && i <= at < |past|
    && value == Fresh(l, past[i], key) && past[at].now - past[i].now <= l.ttl
    && Mtimes(l, past[i], key) == Mtimes(l, past[at], key)
  }

  /** It was read at some moment, and not before moment `from`. */
  ghost predicate WasRead<V>(l: Loader<V>, past: seq<World>, from: nat, a: Answered<V>) {
    exists i :: from <= i && WasReadAt(l, past, a.key, a.value, a.moment, i)
  }

  /** An entry records a reading at some moment from `from` on. */
  ghost predicate Records<V>(l: Loader<V>, past: seq<World>, from: nat, key: string, e: Entry<V>) {
    exists i :: from <= i < |past| && e == Entry(Fresh(l, past[i], key), Mtimes(l, past[i], key), past[i].now)
  }

  ghost predicate AllRecord<V>(l: Loader<V>, past: seq<World>, from: nat, entries: map<string, Entry<V>>) {
    forall k <- entries :: Records(l, past, from, k, entries[k])
  }

  /** All answers from the `first` one on. */
  ghost predicate AllRead<V>(l: Loader<V>, past: seq<World>, from: nat, answers: seq<Answered<V>>, first: nat) {
    forall n :: first <= n < |answers| ==> WasRead(l, past, from, answers[n])
  }

  ghost predicate Inv<V>(l: Loader<V>, s: State<V>, from: nat, first: nat) {
    && s.Started() && from < |s.past| && first <= |s.answers|
    && AllRecord(l, s.past, from, s.entries) && AllRead(l, s.past, from, s.answers, first)
  }

  lemma WasReadLater<V>(l: Loader<V>, past: seq<World>, w: World, from: nat, a: Answered<V>)
    requires WasRead(l, past, from, a)
    ensures WasRead(l, past + [w], from, a)
  {
    var i :| from <= i && WasReadAt(l, past, a.key, a.value, a.moment, i);
    assert WasReadAt(l, past + [w], a.key, a.value, a.moment, i);
  }

  lemma RecordsLater<V>(l: Loader<V>, past: seq<World>, w: World, from: nat, key: string, e: Entry<V>)
    requires Records(l, past, from, key, e)
    ensures Records(l, past + [w], from, key, e)
  {
    var i :| from <= i < |past| && e == Entry(Fresh(l, past[i], key), Mtimes(l, past[i], key), past[i].now);
    assert (past + [w])[i] == past[i];
  }

  lemma LoadIsRead<V>(l: Loader<V>, s: State<V>, from: nat, first: nat, key: string)
    requires Inv(l, s, from, first) && l.ttl >= 0
    ensures WasRead(l, s.past + [s.Now()], from, Answered(key, Answer(l, s.Now(), s.entries, key), |s.past|))
  {
    var w := s.Now();
    var past := s.past + [w];
    if IsHit(l, w, s.entries, key) {
      var e := s.entries[key];
      assert Records(l, s.past, from, key, e);
      var i :| from <= i < |s.past| && e == Entry(Fresh(l, s.past[i], key), Mtimes(l, s.past[i], key), s.past[i].now);
      assert WasReadAt(l, past, key, e.value, |s.past|, i);
    } else {
      assert WasReadAt(l, past, key, Fresh(l, w, key), |s.past|, |s.past|);
    }
  }

  lemma AllRecordLater<V>(l: Loader<V>, past: seq<World>, w: World, from: nat, entries: map<string, Entry<V>>)
    requires AllRecord(l, past, from, entries)
    ensures AllRecord(l, past + [w], from, entries)
  {
    hide Records;
    forall k <- entries ensures Records(l, past + [w], from, k, entries[k]) {
      RecordsLater(l, past, w, from, k, entries[k]);
    }
  }

  lemma AllReadLater<V>(l: Loader<V>, past: seq<World>, w: World, from: nat, answers: seq<Answered<V>>, first: nat)
    requires AllRead(l, past, from, answers, first)
    ensures AllRead(l, past + [w], from, answers, first)
  {
    hide WasRead;
    forall n | first <= n < |answers| ensures WasRead(l, past + [w], from, answers[n]) {
      WasReadLater(l, past, w, from, answers[n]);
    }
  }

  lemma LoadRecords<V>(l: Loader<V>, past: seq<World>, w: World, from: nat, entries: map<string, Entry<V>>, key: string)
    requires AllRecord(l, past + [w], from, entries) && from <= |past|
    ensures AllRecord(l, past + [w], from, AfterLoad(l, w, entries, key))
  {
    hide Mtimes, Fresh, Records, IsHit;
    var made := Entry(Fresh(l, w, key), Mtimes(l, w, key), w.now);
    RecordsNow(l, past, w, from, key);
    assert AllRecord(l, past + [w], from, entries[key := made]);
  }

  lemma RecordsNow<V>(l: Loader<V>, past: seq<World>, w: World, from: nat, key: string)
    requires from <= |past|
    ensures Records(l, past + [w], from, key, Entry(Fresh(l, w, key), Mtimes(l, w, key), w.now))
  {
    hide Mtimes, Fresh;
    assert (past + [w])[|past|] == w;
  }

  lemma StepKeepsInv<V>(l: Loader<V>, s: State<V>, from: nat, first: nat, e: Event)
    requires Inv(l, s, from, first) && l.ttl >= 0
    ensures Inv(l, Step(l, s, e), from, first)
  {
    hide AllRecord, AllRead, AfterLoad, Answer;
    var t := Step(l, s, e);
    var w := t.past[|s.past|];
    assert t.past == s.past + [w];
    AllRecordLater(l, s.past, w, from, s.entries);
    AllReadLater(l, s.past, w, from, s.answers, first);
    if e.Load? {
      LoadIsRead(l, s, from, first, e.key);
      LoadRecords(l, s.past, w, from, s.entries, e.key);
      AllReadPlus(l, t.past, from, s.answers, first, Answered(e.key, Answer(l, w, s.entries, e.key), |s.past|));
    } else {
      assert AllRecord(l, t.past, from, map[]) by { NoneRecord(l, t.past, from); }
    }
  }

  lemma NoneRecord<V>(l: Loader<V>, past: seq<World>, from: nat)
    ensures AllRecord(l, past, from, map[])
  {
  }

  lemma AllReadPlus<V>(l: Loader<V>, past: seq<World>, from: nat, answers: seq<Answered<V>>, first: nat, a: Answered<V>)
    requires AllRead(l, past, from, answers, first) && WasRead(l, past, from, a)
    ensures AllRead(l, past, from, answers + [a], first)
  {
    hide WasRead;
  }

  lemma {:induction false} RunKeepsInv<V>(l: Loader<V>, s: State<V>, from: nat, first: nat, events: seq<Event>)
    requires Inv(l, s, from, first) && l.ttl >= 0
    ensures Inv(l, Run(l, s, events), from, first)
  {
    if events == [] {
    } else {
      RunKeepsInv(l, s, from, first, events[..|events| - 1]);
      StepKeepsInv(l, Run(l, s, events[..|events| - 1]), from, first, events[|events| - 1]);
    }
  }

  /** Over every run: what a load returned was read at most the lifetime before, however often the
      entry was hit in between. */
  lemma AnswersAreRecent<V>(l: Loader<V>, w: World, events: seq<Event>, n: nat)
    requires l.ttl >= 0 && n < |Run(l, Begin(w), events).answers|
    ensures var s := Run(l, Begin(w), events); WasRead(l, s.past, 0, s.answers[n])
  {
    RunKeepsInv(l, Begin(w), 0, 0, events);
  }

  /** Equal modification times mean equal contents, at all moments of the run. */
  ghost predicate TimesTellContents(past: seq<World>) {
    forall i, j, p :: 0 <= i < |past| && 0 <= j < |past| && p in past[i].files && p in past[j].files
                      && past[i].files[p].mtime == past[j].files[p].mtime ==>
                        past[i].files[p].content == past[j].files[p].content
  }

  /** The cache agrees with the simple loader: if modification times tell contents apart, every load
      returned what reading the files at that moment yields. */
  lemma AnswersAreFresh<V>(l: Loader<V>, w: World, events: seq<Event>, n: nat)
    requires l.ttl >= 0 && n < |Run(l, Begin(w), events).answers|
    requires TimesTellContents(Run(l, Begin(w), events).past)
    ensures var s := Run(l, Begin(w), events);
            && s.answers[n].moment < |s.past|
            && s.answers[n].value == Fresh(l, s.past[s.answers[n].moment], s.answers[n].key)
  {
    AnswersAreRecent(l, w, events, n);
    var s := Run(l, Begin(w), events);
    var a := s.answers[n];
    var i :| 0 <= i && WasReadAt(l, s.past, a.key, a.value, a.moment, i);
    SameTimesSameContents(l, s.past, a.key, i, a.moment);
  }

  lemma SameTimesSameContents<V>(l: Loader<V>, past: seq<World>, key: string, i: nat, j: nat)
    requires TimesTellContents(past) && i < |past| && j < |past| && Mtimes(l, past[i], key) == Mtimes(l, past[j], key)
    ensures Contents(l, past[i], key) == Contents(l, past[j], key)
  {
    var m, n := Mtimes(l, past[i], key), Mtimes(l, past[j], key);
    forall p | p in l.watched(key)
      ensures p in past[i].files <==> p in past[j].files
      ensures p in past[i].files ==> past[i].files[p].content == past[j].files[p].content
    {
      assert p in m <==> p in n;
      assert p in m ==> m[p] == n[p];
    }
  }

  // ---------- runs in parts ----------

  lemma RunOneMore<V>(l: Loader<V>, s: State<V>, events: seq<Event>, e: Event)
    requires s.Started()
    ensures Run(l, s, events + [e]) == Step(l, Run(l, s, events), e)
  {
    hide Step;
    assert (events + [e])[..|events|] == events;
  }

  lemma {:induction false} RunOn<V>(l: Loader<V>, s: State<V>, before: seq<Event>, after: seq<Event>)
    requires s.Started()
    ensures Run(l, s, before + after) == Run(l, Run(l, s, before), after)
  {
    hide *;
    if after == [] {
      RunNothing(l, Run(l, s, before));
      assert before + after == before;
    } else {
      var last := |after| - 1;
      RunOn(l, s, before, after[..last]);
      assert before + after == (before + after[..last]) + [after[last]] && after == after[..last] + [after[last]];
      RunOneMore(l, s, before + after[..last], after[last]);
      RunOneMore(l, Run(l, s, before), after[..last], after[last]);
    }
  }

  lemma RunNothing<V>(l: Loader<V>, s: State<V>)
    requires s.Started()
    ensures Run(l, s, []) == s
  {
  }

  // ---------- what the cache is for ----------

  /** Nothing happens that drops the cache or loads the key. */
  predicate LeavesAlone(events: seq<Event>, key: string) {
    forall e <- events :: e != Load(key) && !(e.Update? && e.written)
  }

  lemma StepLeavesEntry<V>(l: Loader<V>, s: State<V>, e: Event, key: string)
    requires s.Started() && key in s.entries && e != Load(key) && !(e.Update? && e.written)
    requires Step(l, s, e).Now().now - s.entries[key].cachedAt <= l.ttl
    ensures var t := Step(l, s, e);
            key in t.entries && t.entries[key] == s.entries[key] && s.Now().now <= t.Now().now
  {
    hide Fresh, Mtimes, IsHit;
  }

  lemma StepKeepsTime<V>(l: Loader<V>, s: State<V>, e: Event)
    requires s.Started()
    ensures s.Now().now <= Step(l, s, e).Now().now
  {
    hide AfterLoad, Answer;
  }

  lemma LeftAloneBefore(events: seq<Event>, key: string)
    requires LeavesAlone(events, key) && events != []
    ensures LeavesAlone(events[..|events| - 1], key)
    ensures var e := events[|events| - 1]; e != Load(key) && !(e.Update? && e.written)
  {
    assert events[|events| - 1] in events;
    var before := events[..|events| - 1];
    forall e <- before ensures e != Load(key) && !(e.Update? && e.written) {
      var i :| 0 <= i < |before| && before[i] == e;
      assert events[i] in events;
    }
  }

  lemma {:induction false} EntryStays<V>(l: Loader<V>, s: State<V>, events: seq<Event>, key: string)
    requires s.Started() && key in s.entries && LeavesAlone(events, key)
    requires Run(l, s, events).Now().now - s.entries[key].cachedAt <= l.ttl
    ensures var t := Run(l, s, events);
            key in t.entries && t.entries[key] == s.entries[key]
  {
    if events == [] {
    } else {
      var before, e := events[..|events| - 1], events[|events| - 1];
      assert events == before + [e];
      RunOneMore(l, s, before, e);
      LeftAloneBefore(events, key);
      hide *;
      StepKeepsTime(l, Run(l, s, before), e);
      EntryStays(l, s, before, key);
      StepLeavesEntry(l, Run(l, s, before), e, key);
    }
  }

  /** The same ones of the files are there, with the same times. */
  predicate HaveSameTimes(a: map<string, File>, b: map<string, File>, watched: set<string>) {
    forall p <- watched :: (p in a <==> p in b) && (p in a ==> a[p].mtime == b[p].mtime)
  }

  lemma SameTimesSameMtimes<V>(l: Loader<V>, a: World, b: World, key: string)
    ensures HaveSameTimes(a.files, b.files, l.watched(key)) ==> Mtimes(l, a, key) == Mtimes(l, b, key)
    ensures (exists p <- l.watched(key) :: p in a.files) ==> Mtimes(l, a, key) != map[]
  {
    if p :| p in l.watched(key) && p in a.files {
      assert p in Mtimes(l, a, key);
    }
  }

  /** Reading is parsing the contents of those of the watched files that are there. */
  lemma FreshIsParsed<V>(l: Loader<V>, w: World, key: string, contents: map<string, string>)
    requires forall p :: p in contents <==> p in l.watched(key) && p in w.files
    requires forall p <- contents :: contents[p] == w.files[p].content
    ensures Fresh(l, w, key) == l.parse(key, contents)
  {
    assert contents == Contents(l, w, key);
  }

  /** Over every run: a load of a key that was loaded before is answered in the same way, without reading
      the files again, as long as the entry is not too old and the watched files have the same times, if
      no update wrote and the key was not loaded in between. */
  lemma LoadIsRemembered<V>(l: Loader<V>, w: World, before: seq<Event>, key: string, between: seq<Event>)
    requires l.ttl >= 0 && LeavesAlone(between, key)
    requires var s := Run(l, Begin(w), before + [Load(key)]);
             var t := Run(l, Begin(w), before + [Load(key)] + between);
             && (exists p <- l.watched(key) :: p in s.Now().files)
             && HaveSameTimes(s.Now().files, t.Now().files, l.watched(key))
             && (key in s.entries ==> t.Now().now - s.entries[key].cachedAt <= l.ttl)
    ensures var s := Run(l, Begin(w), before + [Load(key)]);
            var u := Run(l, Begin(w), before + [Load(key)] + between + [Load(key)]);
            && s.answers != [] && u.answers != []
            && u.answers[|u.answers| - 1].value == s.answers[|s.answers| - 1].value
  {
    var r := Run(l, Begin(w), before);
    RunOneMore(l, Begin(w), before, Load(key));
    var s := Step(l, r, Load(key));
    RunOn(l, Begin(w), before + [Load(key)], between);
    SameTimesSameMtimes(l, s.Now(), Run(l, s, between).Now(), key);
    LoadStores(l, r, key);
    hide Run, Step, Answer, Mtimes;
    EntryStays(l, s, between, key);
    RunOneMore(l, Begin(w), before + [Load(key)] + between, Load(key));
    HitAnswers(l, Run(l, s, between), key);
  }

  lemma LoadStores<V>(l: Loader<V>, r: State<V>, key: string)
    requires r.Started() && l.ttl >= 0 && Mtimes(l, r.Now(), key) != map[]
    ensures var s := Step(l, r, Load(key));
            && s.Started() && s.Now() == r.Now() && s.answers != [] && key in s.entries
            && s.entries[key].value == s.answers[|s.answers| - 1].value
            && s.entries[key].mtimes == Mtimes(l, r.Now(), key)
  {
    hide Mtimes, Fresh;
  }

  lemma HitAnswers<V>(l: Loader<V>, t: State<V>, key: string)
    requires t.Started() && key in t.entries && t.Now().now - t.entries[key].cachedAt <= l.ttl
    requires t.entries[key].mtimes == Mtimes(l, t.Now(), key)
    ensures var u := Step(l, t, Load(key));
            u.answers != [] && u.answers[|u.answers| - 1].value == t.entries[key].value
  {
  }

  // ---------- updates ----------

  lemma {:induction false} MomentsPass<V>(l: Loader<V>, s: State<V>, events: seq<Event>)
    requires s.Started()
    ensures |Run(l, s, events).past| == |s.past| + |events| && s.answers <= Run(l, s, events).answers
  {
    if events == [] {
    } else {
      MomentsPass(l, s, events[..|events| - 1]);
    }
  }

  /** Over every run with an update that wrote: no load after it returned anything that was read before
      it, whatever the modification times. */
  lemma NothingOlderThanUpdate<V>(l: Loader<V>, w: World, before: seq<Event>, files: map<string, File>,
          after: seq<Event>, n: nat)
    requires l.ttl >= 0
    requires |Run(l, Begin(w), before).answers| <= n
    requires n < |Run(l, Begin(w), before + [Update(true, files)] + after).answers|
    ensures var s := Run(l, Begin(w), before + [Update(true, files)] + after);
            WasRead(l, s.past, |before| + 1, s.answers[n])
  {
    var s := Run(l, Begin(w), before);
    var t := Updated(l, w, before, files);
    RunOn(l, Begin(w), before + [Update(true, files)], after);
    MomentsPass(l, Begin(w), before);
    NoneRecord(l, t.past, |before| + 1);
    hide Run, Records, WasRead;
    RunKeepsInv(l, t, |before| + 1, |s.answers|, after);
  }

  lemma Updated<V>(l: Loader<V>, w: World, before: seq<Event>, files: map<string, File>) returns (t: State<V>)
    ensures t == Run(l, Begin(w), before + [Update(true, files)])
    ensures t == Step(l, Run(l, Begin(w), before), Update(true, files))
  {
    RunOneMore(l, Begin(w), before, Update(true, files));
    t := Run(l, Begin(w), before + [Update(true, files)]);
  }

  lemma {:induction false} KeyStaysOut<V>(l: Loader<V>, s: State<V>, events: seq<Event>, key: string)
    requires s.Started() && key !in s.entries && Load(key) !in events
    ensures key !in Run(l, s, events).entries
  {
    if events == [] {
    } else {
      KeyStaysOut(l, s, events[..|events| - 1], key);
      assert events[|events| - 1] in events;
    }
  }

  /** Over every run: the first load of a key after an update that wrote returns what reading the files at
      that moment yields, whatever happened in between and whatever the modification times. */
  lemma UpdateIsSeen<V>(l: Loader<V>, w: World, before: seq<Event>, files: map<string, File>, between: seq<Event>,
          key: string)
    requires Load(key) !in between
    ensures var s := Run(l, Begin(w), before + [Update(true, files)] + between + [Load(key)]);
            && s.answers != []
            && var a := s.answers[|s.answers| - 1];
               a.key == key && a.moment == |s.past| - 1 && a.value == Fresh(l, s.past[a.moment], key)
  {
    var t := Updated(l, w, before, files);
    var all := before + [Update(true, files)] + between;
    RunOn(l, Begin(w), before + [Update(true, files)], between);
    KeyStaysOut(l, t, between, key);
    RunOneMore(l, Begin(w), all, Load(key));
  }
}
