/**
 Writing a configuration back without losing what the parser does not know (`cloneRawRecord`,
 `overlayKnownKeys` and `preserveUnknownKeys` in src/config/config.ts), on values.
 Which keys are dangerous is a given predicate.
 */
module KnownKeys {
  import opened Wrappers
  import opened Json

  const MAX_PRESERVED_DEPTH: nat := 100

  type KeyFilter = string -> bool

  // ---------- the functions ----------

  function Clone(e: Entries, depth: nat, bad: KeyFilter): Entries
    decreases e, 1
  {
    if depth > MAX_PRESERVED_DEPTH then [] else CloneEntries(e, depth, bad)
  }

  function CloneEntries(e: Entries, depth: nat, bad: KeyFilter): Entries
    decreases e, 0
  {
    if e == [] then []
    else (if bad(e[0].key) then [] else [CloneEntry(e[0], depth, bad)]) + CloneEntries(e[1..], depth, bad)
  }

  function CloneEntry(x: Entry, depth: nat, bad: KeyFilter): Entry
    decreases x
  {
    match x.value
    case Record(e) => Entry(x.key, Record(Clone(e, depth + 1, bad)))
    case _ => x
  }

  function Overlay(target: Entries, source: Entries, depth: nat, bad: KeyFilter): Entries
    decreases source, 1
  {
    if depth > MAX_PRESERVED_DEPTH then target else OverlayEntries(target, source, depth, bad)
  }

  function OverlayEntries(target: Entries, source: Entries, depth: nat, bad: KeyFilter): Entries
    decreases source, 0
  {
    if source == [] then target
    else OverlayEntries(OverlayEntry(target, source[0], depth, bad), source[1..], depth, bad)
  }

  function OverlayEntry(target: Entries, x: Entry, depth: nat, bad: KeyFilter): Entries
    decreases x
  {
    if x.value.Undefined? || bad(x.key) then target
    else
      match (x.value, Lookup(target, x.key))
      case (Record(s), Some(Record(t))) => Put(target, x.key, Record(Overlay(t, s, depth + 1, bad)))
      case _ => Put(target, x.key, x.value)
  }

  /** The parsed configuration laid over what is on disk. */
  function Preserve(parsed: Entries, raw: Entries, bad: KeyFilter): Entries {
    Overlay(Clone(raw, 0, bad), parsed, 0, bad)
  }

  // ---------- what a record says about a path ----------

  datatype Verdict = Leaf(value: Json) | Blocked | Inner | Silent

  /** A value that is no record at the path, such a value at a beginning of the path, a record at
      the path, or nothing. */
  function Says(v: Json, path: seq<string>): Verdict {
    if v.Undefined? then Silent
    else if !v.Record? then if path == [] then Leaf(v) else Blocked
    else if path == [] then Inner
    else
      match Lookup(v.entries, path[0])
      case None => Silent
      case Some(w) => Says(w, path[1..])
  }

  lemma {:induction false} SaysIsRead(v: Json, path: seq<string>)
    ensures match Says(v, path)
            case Leaf(w) => Read(v, path) == Some(w)
            case Inner => Read(v, path).Some? && Read(v, path).value.Record?
            case _ => Read(v, path) == None
  {
    if v.Record? && path != [] && HasKey(v.entries, path[0]) {
      SaysIsRead(Lookup(v.entries, path[0]).value, path[1..]);
    }
  }

  /** Keys are distinct at every level, as in every record in memory. */
  predicate IsKeyed(v: Json) {
    match v
    case Record(e) => DistinctKeys(e) && EntriesKeyed(e)
    case _ => true
  }

  predicate EntriesKeyed(e: Entries) {
    e == [] || (EntryKeyed(e[0]) && EntriesKeyed(e[1..]))
  }

  predicate EntryKeyed(x: Entry) { IsKeyed(x.value) }

  predicate IsSafe(path: seq<string>, bad: KeyFilter) {
    forall k <- path :: !bad(k)
  }

  // ---------- lookups ----------

  lemma {:induction false} CloneLookup(e: Entries, depth: nat, bad: KeyFilter, k: string)
    ensures Lookup(CloneEntries(e, depth, bad), k) ==
            if bad(k) || Lookup(e, k).None? then None
            else Some(CloneEntry(Entry(k, Lookup(e, k).value), depth, bad).value)
  {
    hide *;
    CloneFront(e, depth, bad);
    if e == [] {
      LookupNothing(k);
    } else {
      CloneLookup(e[1..], depth, bad, k);
      LookupFront(CloneEntry(e[0], depth, bad), CloneEntries(e[1..], depth, bad), k);
      LookupFront(e[0], e[1..], k);
      assert [e[0]] + e[1..] == e && e[0] == Entry(e[0].key, e[0].value);
    }
  }

  lemma CloneFront(e: Entries, depth: nat, bad: KeyFilter)
    ensures e == [] ==> CloneEntries(e, depth, bad) == []
    ensures e != [] ==>
              var x, c := CloneEntry(e[0], depth, bad), CloneEntries(e[1..], depth, bad);
              x.key == e[0].key && CloneEntries(e, depth, bad) == if bad(e[0].key) then c else [x] + c
  {
    hide Clone;
    if e != [] {
      var c := CloneEntries(e[1..], depth, bad);
      assert [] + c == c;
    }
  }

  lemma LookupNothing(k: string)
    ensures Lookup([], k) == None
  {
  }

  lemma LookupFront(x: Entry, e: Entries, k: string)
    ensures Lookup([x] + e, k) == if x.key == k then Some(x.value) else Lookup(e, k)
  {
    assert ([x] + e)[1..] == e;
  }

  lemma {:induction false} OverlayLookup(t: Entries, s: Entries, depth: nat, bad: KeyFilter, k: string)
    requires DistinctKeys(s)
    ensures Lookup(OverlayEntries(t, s, depth, bad), k) ==
            if Lookup(s, k).None? then Lookup(t, k)
            else Lookup(OverlayEntry(t, Entry(k, Lookup(s, k).value), depth, bad), k)
    decreases s
  {
    if s == [] {
    } else {
      var t1 := OverlayEntry(t, s[0], depth, bad);
      OverlayLookup(t1, s[1..], depth, bad, k);
      OverlayEntryLookup(t, s[0], depth, bad, k);
      assert s[0] == Entry(s[0].key, s[0].value);
      if s[0].key == k {
        assert !HasKey(s[1..], k) by {
          assert forall i :: 0 <= i < |s[1..]| ==> s[1..][i] == s[i + 1];
        }
      } else if Lookup(s[1..], k).Some? {
        OverlayEntryDepends(t1, t, Entry(k, Lookup(s[1..], k).value), depth, bad);
      }
    }
  }

  lemma OverlayEntryLookup(t: Entries, x: Entry, depth: nat, bad: KeyFilter, k: string)
    ensures k != x.key ==> Lookup(OverlayEntry(t, x, depth, bad), k) == Lookup(t, k)
    ensures Lookup(OverlayEntry(t, x, depth, bad), x.key) ==
            if x.value.Undefined? || bad(x.key) then Lookup(t, x.key)
            else match (x.value, Lookup(t, x.key))
                 case (Record(s), Some(Record(u))) => Some(Record(Overlay(u, s, depth + 1, bad)))
                 case _ => Some(x.value)
  {
    hide Overlay, Put, Lookup;
    var v := match (x.value, Lookup(t, x.key))
             case (Record(s), Some(Record(u))) => Record(Overlay(u, s, depth + 1, bad))
             case _ => x.value;
    PutLookup(t, x.key, v, k);
    PutLookup(t, x.key, v, x.key);
  }

  /** What an entry overlays depends on the target's value for its key only. */
  lemma OverlayEntryDepends(t: Entries, u: Entries, x: Entry, depth: nat, bad: KeyFilter)
    requires Lookup(t, x.key) == Lookup(u, x.key)
    ensures Lookup(OverlayEntry(t, x, depth, bad), x.key) == Lookup(OverlayEntry(u, x, depth, bad), x.key)
  {
    OverlayEntryLookup(t, x, depth, bad, x.key);
    OverlayEntryLookup(u, x, depth, bad, x.key);
  }

  lemma {:induction false} LookupNested(e: Entries, k: string)
    requires Lookup(e, k).Some?
    ensures IsContainer(Lookup(e, k).value) ==> Depth(Lookup(e, k).value) <= EntriesDepth(e)
    ensures EntriesKeyed(e) ==> IsKeyed(Lookup(e, k).value)
  {
    assert EntriesKeyed(e) ==> EntryKeyed(e[0]);
    if e[0].key != k {
      LookupNested(e[1..], k);
    }
  }

  // ---------- cloning loses nothing but dangerous keys ----------

  /** One level down, in the record and in its clone. */
  lemma CloneDescends(e: Entries, depth: nat, bad: KeyFilter, path: seq<string>)
    requires path != [] && depth <= MAX_PRESERVED_DEPTH && !bad(path[0])
    ensures var k, c := path[0], Record(Clone(e, depth, bad));
            if !HasKey(e, k) then Read(Record(e), path) == None && Read(c, path) == None
            else
              var v := Lookup(e, k).value;
              && Read(Record(e), path) == Read(v, path[1..])
              && Read(c, path) == Read(CloneEntry(Entry(k, v), depth, bad).value, path[1..])
  {
    CloneLookup(e, depth, bad, path[0]);
    hide CloneEntry, CloneEntries;
  }

  lemma {:induction false} CloneReads(e: Entries, depth: nat, bad: KeyFilter, path: seq<string>)
    requires IsSafe(path, bad) && depth + Depth(Record(e)) <= MAX_PRESERVED_DEPTH + 1
    ensures Read(Record(Clone(e, depth, bad)), path) ==
            match Read(Record(e), path)
            case Some(Record(f)) => Some(Record(Clone(f, depth + |path|, bad)))
            case r => r
    decreases path
  {
    hide Clone, Depth, Lookup;
    DepthBelow(e);
    if path == [] {
    } else {
      var k := path[0];
      CloneDescends(e, depth, bad, path);
      if HasKey(e, k) {
        var v := Lookup(e, k).value;
        if v.Record? {
          CloneReads(v.entries, depth + 1, bad, path[1..]);
          assert depth + 1 + |path[1..]| == depth + |path|;
        }
      }
    }
  }

  lemma DepthBelow(e: Entries)
    ensures Depth(Record(e)) >= 1
    ensures forall k :: Lookup(e, k).Some? && Lookup(e, k).value.Record? ==>
              Depth(Lookup(e, k).value) < Depth(Record(e))
  {
    forall k | Lookup(e, k).Some? && Lookup(e, k).value.Record? ensures Depth(Lookup(e, k).value) < Depth(Record(e)) {
      LookupNested(e, k);
    }
  }

  lemma {:induction false} CloneHidesDangerous(e: Entries, depth: nat, bad: KeyFilter, path: seq<string>)
    requires !IsSafe(path, bad)
    ensures Read(Record(Clone(e, depth, bad)), path) == None
    decreases path
  {
    var k := path[0];
    if depth > MAX_PRESERVED_DEPTH {
      assert Clone(e, depth, bad) == [];
    } else if bad(k) {
      BadIsHidden(e, depth, bad, path);
    } else {
      hide *;
      CloneDescends(e, depth, bad, path);
      UnsafeRest(path, bad);
      if HasKey(e, k) {
        var v := Lookup(e, k).value;
        CloneEntryIs(v, k, depth, bad);
        if v.Record? {
          CloneHidesDangerous(v.entries, depth + 1, bad, path[1..]);
        } else {
          ReadBelowPlain(v, path[1..]);
        }
      }
    }
  }

  lemma UnsafeRest(path: seq<string>, bad: KeyFilter)
    requires !IsSafe(path, bad) && !bad(path[0])
    ensures path[1..] != [] && !IsSafe(path[1..], bad)
  {
    assert path == [path[0]] + path[1..];
  }

  lemma ReadBelowPlain(v: Json, path: seq<string>)
    requires !v.Record? && path != []
    ensures Read(v, path) == None
  {
  }

  lemma BadIsHidden(e: Entries, depth: nat, bad: KeyFilter, path: seq<string>)
    requires path != [] && bad(path[0]) && depth <= MAX_PRESERVED_DEPTH
    ensures Read(Record(Clone(e, depth, bad)), path) == None
  {
    hide CloneEntries;
    CloneLookup(e, depth, bad, path[0]);
  }

  lemma CloneEntryIs(v: Json, k: string, depth: nat, bad: KeyFilter)
    ensures CloneEntry(Entry(k, v), depth, bad).value ==
            if v.Record? then Record(Clone(v.entries, depth + 1, bad)) else v
  {
    hide Clone;
  }

  lemma {:induction false} CloneDepth(e: Entries, depth: nat, bad: KeyFilter)
    ensures EntriesDepth(Clone(e, depth, bad)) <= EntriesDepth(e)
    decreases e, 1
  {
    CloneEntriesDepth(e, depth, bad);
  }

  lemma {:induction false} CloneEntriesDepth(e: Entries, depth: nat, bad: KeyFilter)
    ensures EntriesDepth(CloneEntries(e, depth, bad)) <= EntriesDepth(e)
    decreases e, 0
  {
    if e == [] {
    } else {
      CloneEntriesDepth(e[1..], depth, bad);
      CloneEntryDepth(e[0], depth, bad);
      var c := CloneEntries(e[1..], depth, bad);
      hide Clone, CloneEntry;
      DepthFront(CloneEntry(e[0], depth, bad), c);
      assert CloneEntries(e, depth, bad) == if bad(e[0].key) then c else [CloneEntry(e[0], depth, bad)] + c;
    }
  }

  lemma DepthFront(x: Entry, e: Entries)
    ensures EntriesDepth([x] + e) == Max(EntryDepth(x), EntriesDepth(e))
  {
    assert ([x] + e)[1..] == e;
  }

  lemma {:induction false} CloneEntryDepth(x: Entry, depth: nat, bad: KeyFilter)
    ensures EntryDepth(CloneEntry(x, depth, bad)) <= EntryDepth(x)
    decreases x
  {
    match x.value {
      case Record(e) => CloneDepth(e, depth + 1, bad);
      case _ =>
    }
  }

  /** A clone is its own clone. */
  lemma {:induction false} CloneTwice(e: Entries, depth: nat, bad: KeyFilter)
    ensures Clone(Clone(e, depth, bad), depth, bad) == Clone(e, depth, bad)
    decreases e, 1
  {
    if depth <= MAX_PRESERVED_DEPTH {
      CloneEntriesTwice(e, depth, bad);
    }
  }

  lemma {:induction false} CloneEntriesTwice(e: Entries, depth: nat, bad: KeyFilter)
    ensures CloneEntries(CloneEntries(e, depth, bad), depth, bad) == CloneEntries(e, depth, bad)
    decreases e, 0
  {
    if e == [] {
    } else {
      CloneEntriesTwice(e[1..], depth, bad);
      var x, c := CloneEntry(e[0], depth, bad), CloneEntries(e[1..], depth, bad);
      CloneEntryTwice(e[0], depth, bad);
      if bad(e[0].key) {
        assert CloneEntries(e, depth, bad) == c;
      } else {
        hide Clone, CloneEntry;
        assert CloneEntries(e, depth, bad) == [x] + c && ([x] + c)[1..] == c;
      }
    }
  }

  lemma {:induction false} CloneEntryTwice(x: Entry, depth: nat, bad: KeyFilter)
    ensures CloneEntry(CloneEntry(x, depth, bad), depth, bad) == CloneEntry(x, depth, bad)
    ensures CloneEntry(x, depth, bad).key == x.key
    decreases x
  {
    match x.value {
      case Record(e) => CloneTwice(e, depth + 1, bad);
      case _ =>
    }
  }

  // ---------- overlaying ----------

  /** One level down in the overlay. */
  lemma OverlayDescends(t: Entries, s: Entries, depth: nat, bad: KeyFilter, path: seq<string>)
    requires path != [] && !bad(path[0]) && DistinctKeys(s) && depth <= MAX_PRESERVED_DEPTH
    ensures var r, rest := Record(Overlay(t, s, depth, bad)), path[1..];
            match (Lookup(s, path[0]), Lookup(t, path[0]))
            case (None, _) => Read(r, path) == Read(Record(t), path)
            case (Some(Undefined), _) => Read(r, path) == Read(Record(t), path)
            case (Some(Record(f)), Some(Record(u))) =>
              Read(r, path) == Read(Record(Overlay(u, f, depth + 1, bad)), rest)
            case (Some(w), _) => Read(r, path) == Read(w, rest)
  {
    var k := path[0];
    OverlayLookup(t, s, depth, bad, k);
    assert Overlay(t, s, depth, bad) == OverlayEntries(t, s, depth, bad);
    hide Overlay, OverlayEntries, OverlayEntry, Lookup;
    if Lookup(s, k).Some? {
      OverlayEntryLookup(t, Entry(k, Lookup(s, k).value), depth, bad, k);
    }
  }

  /** At every path of safe keys the overlay reads as the source where the source says something,
      and as the target where it is silent. */
  lemma {:induction false} OverlayReads(t: Entries, s: Entries, depth: nat, bad: KeyFilter, path: seq<string>)
    requires IsSafe(path, bad) && IsKeyed(Record(s)) && depth + Depth(Record(t)) <= MAX_PRESERVED_DEPTH + 1
    ensures var r := Record(Overlay(t, s, depth, bad));
            match Says(Record(s), path)
            case Leaf(v) => Read(r, path) == Some(v)
            case Blocked => Read(r, path) == None
            case Inner => Read(r, path).Some? && Read(r, path).value.Record?
            case Silent => Read(r, path) == Read(Record(t), path)
    decreases path
  {
    hide Overlay, EntriesDepth, EntryDepth, Lookup;
    if path == [] {
    } else {
      var k := path[0];
      OverlayDescends(t, s, depth, bad, path);
      if Lookup(s, k).Some? {
        var w := Lookup(s, k).value;
        LookupNested(s, k);
        SaysIsRead(w, path[1..]);
        if w.Record? && Lookup(t, k).Some? && Lookup(t, k).value.Record? {
          LookupNested(t, k);
          OverlayReads(Lookup(t, k).value.entries, w.entries, depth + 1, bad, path[1..]);
        }
      }
    }
  }

  /** A dangerous key is never overlaid into a record that is there: behind it the overlay reads as the
      target. Where the target has no record but the source has one, that record is taken as it is. */
  lemma {:induction false} OverlayKeepsOut(t: Entries, s: Entries, depth: nat, bad: KeyFilter, path: seq<string>,
          key: string, rest: seq<string>)
    requires IsSafe(path, bad) && bad(key) && IsKeyed(Record(s)) && depth + Depth(Record(t)) <= MAX_PRESERVED_DEPTH + 1
    requires Says(Record(s), path).Inner?
    ensures var r, all := Record(Overlay(t, s, depth, bad)), path + [key] + rest;
            Read(r, all) == if IsRecordAt(t, path) then Read(Record(t), all) else Read(Record(s), all)
    decreases path
  {
    var all := path + [key] + rest;
    hide Overlay, EntriesDepth, EntryDepth, Lookup;
    if path == [] {
      assert all[0] == key && all[1..] == rest;
      OverlayHasNone(t, s, depth, bad, key);
    } else {
      var k := path[0];
      assert all[0] == k && all[1..] == path[1..] + [key] + rest;
      OverlayDescends(t, s, depth, bad, all);
      var w := Lookup(s, k).value;
      LookupNested(s, k);
      if Lookup(t, k).Some? && Lookup(t, k).value.Record? {
        LookupNested(t, k);
        var u := Lookup(t, k).value.entries;
        OverlayKeepsOut(u, w.entries, depth + 1, bad, path[1..], key, rest);
        assert IsRecordAt(t, path) == IsRecordAt(u, path[1..]);
      } else {
        NoRecordAt(t, path);
        assert Read(Record(s), all) == Read(w, all[1..]);
      }
    }
  }

  lemma NoRecordAt(e: Entries, path: seq<string>)
    requires path != [] && (Lookup(e, path[0]).Some? ==> !Lookup(e, path[0]).value.Record?)
    ensures !IsRecordAt(e, path)
  {
    hide Lookup;
    if Lookup(e, path[0]).Some? {
      var v := Lookup(e, path[0]).value;
      assert Read(Record(e), path) == Read(v, path[1..]);
      assert path[1..] == [] ==> Read(v, path[1..]) == if v.Undefined? then None else Some(v);
    }
  }

  predicate IsRecordAt(e: Entries, path: seq<string>) {
    Read(Record(e), path).Some? && Read(Record(e), path).value.Record?
  }

  lemma OverlayHasNone(t: Entries, s: Entries, depth: nat, bad: KeyFilter, key: string)
    requires bad(key) && DistinctKeys(s)
    ensures Lookup(Overlay(t, s, depth, bad), key) == Lookup(t, key)
  {
    OverlayLookup(t, s, depth, bad, key);
    hide OverlayEntries, Lookup;
  }

  /** Writing back keeps unknown keys: with a raw record that the depth guard accepts, every path of
      safe keys reads as in the parsed configuration where that says something, and as in the raw
      record where it does not. */
  lemma PreserveReads(parsed: Entries, raw: Entries, bad: KeyFilter, path: seq<string>)
    requires IsSafe(path, bad) && IsKeyed(Record(parsed)) && Depth(Record(raw)) <= 100
    ensures var r := Record(Preserve(parsed, raw, bad));
            match Says(Record(parsed), path)
            case Leaf(v) => Read(r, path) == Some(v)
            case Blocked => Read(r, path) == None
            case Inner => Read(r, path).Some? && Read(r, path).value.Record?
            case Silent =>
              match Read(Record(raw), path)
              case Some(Record(f)) => Read(r, path) == Some(Record(Clone(f, |path|, bad)))
              case other => Read(r, path) == other
  {
    CloneDepth(raw, 0, bad);
    assert Depth(Record(raw)) == 1 + EntriesDepth(raw);
    assert Depth(Record(Clone(raw, 0, bad))) == 1 + EntriesDepth(Clone(raw, 0, bad));
    hide Clone, Overlay, Read, Says, IsKeyed, Depth, EntriesDepth, IsSafe;
    CloneReads(raw, 0, bad, path);
    OverlayReads(Clone(raw, 0, bad), parsed, 0, bad, path);
  }

  // ---------- key order ----------

  lemma OverlayEntryKeys(t: Entries, x: Entry, depth: nat, bad: KeyFilter)
    ensures Keys(t) <= Keys(OverlayEntry(t, x, depth, bad))
  {
    hide Overlay;
    match (x.value, Lookup(t, x.key))
    case (Record(s), Some(Record(u))) => PutKeys(t, x.key, Record(Overlay(u, s, depth + 1, bad)));
    case _ => PutKeys(t, x.key, x.value);
  }

  lemma {:induction false} OverlayKeys(t: Entries, s: Entries, depth: nat, bad: KeyFilter)
    ensures Keys(t) <= Keys(OverlayEntries(t, s, depth, bad))
    decreases s
  {
    if s == [] {
    } else {
      hide OverlayEntry, Keys;
      OverlayEntryKeys(t, s[0], depth, bad);
      OverlayKeys(OverlayEntry(t, s[0], depth, bad), s[1..], depth, bad);
    }
  }

  function SafeKeys(keys: seq<string>, bad: KeyFilter): seq<string> {
    if keys == [] then [] else (if bad(keys[0]) then [] else [keys[0]]) + SafeKeys(keys[1..], bad)
  }

  lemma {:induction false} CloneKeys(e: Entries, depth: nat, bad: KeyFilter)
    ensures Keys(CloneEntries(e, depth, bad)) == SafeKeys(Keys(e), bad)
  {
    if e == [] {
    } else {
      var x, c := CloneEntry(e[0], depth, bad), CloneEntries(e[1..], depth, bad);
      CloneKeys(e[1..], depth, bad);
      KeysFront(e[0], e[1..]);
      KeysFront(x, c);
      assert x.key == e[0].key && e == [e[0]] + e[1..];
      hide CloneEntry, Keys;
      assert Keys(e)[1..] == Keys(e[1..]);
      assert [] + c == c;
    }
  }

  /** The file keeps its key order: what was on disk comes first, in its old order. */
  lemma PreserveKeepsKeyOrder(parsed: Entries, raw: Entries, bad: KeyFilter)
    ensures SafeKeys(Keys(raw), bad) <= Keys(Preserve(parsed, raw, bad))
  {
    CloneKeys(raw, 0, bad);
    OverlayKeys(Clone(raw, 0, bad), parsed, 0, bad);
  }
}
