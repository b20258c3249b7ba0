/**
 What an update writes (`updateConfig` in src/config/config.ts): the parsed configuration over a clone
 of what is on disk, from which the listed paths are unset.
 */
module UpdateConfig {
  import opened Wrappers
  import opened Json
  import opened KnownKeys
  import opened RecordHeap
  import opened UnsetPath

  function UnsetAll(e: Entries, paths: seq<string>, bad: KeyFilter): Entries {
    if paths == [] then e else Unset(UnsetAll(e, paths[..|paths| - 1], bad), paths[|paths| - 1], bad)
  }

  function Written(merged: Entries, current: Entries, paths: seq<string>, bad: KeyFilter): Entries {
    Preserve(merged, UnsetAll(Clone(current, 0, bad), paths, bad), bad)
  }

  method ToWrite(merged: RawRecord, current: RawRecord, paths: seq<string>, bad: KeyFilter, ghost m: Entries,
          ghost c: Entries)
    returns (out: RawRecord)
    requires Holds(merged, m) && IsKeyed(Record(m)) && Holds(current, c) && IsKeyed(Record(c))
    ensures Holds(out, Written(m, c, paths, bad)) && Holds(current, c) && fresh(out.repr - merged.repr)
  {
    var rawBase := CloneRawRecord(current, 0, bad, c);
    ghost var e := Clone(c, 0, bad);
    for i := 0 to |paths|
      invariant Holds(rawBase, UnsetAll(e, paths[..i], bad)) && fresh(rawBase.repr)
    {
      assert paths[..i + 1][..i] == paths[..i];
      UnsetPath.UnsetPath(rawBase, paths[i], bad, UnsetAll(e, paths[..i], bad));
    }
    assert paths[..|paths|] == paths;
    CloneKeyed(c, 0, bad);
    UnsetAllKeyed(e, paths, bad);
    out := PreserveUnknownKeys(merged, rawBase, bad, m, UnsetAll(e, paths, bad));
  }

  // ---------- keys stay distinct and records shallow ----------

  lemma KeyedCons(x: Entry, e: Entries)
    requires IsKeyed(x.value) && IsKeyed(Record(e)) && !HasKey(e, x.key)
    ensures IsKeyed(Record([x] + e))
  {
    assert ([x] + e)[1..] == e;
    assert EntriesKeyed([x] + e);
  }

  lemma KeyedTail(e: Entries)
    requires IsKeyed(Record(e)) && e != []
    ensures IsKeyed(e[0].value) && IsKeyed(Record(e[1..])) && !HasKey(e[1..], e[0].key)
  {
    assert EntriesKeyed(e) && EntryKeyed(e[0]) && EntriesKeyed(e[1..]);
    assert DistinctKeys(e) && DistinctKeys(e[1..]);
  }

  lemma {:induction false} CloneKeyed(e: Entries, depth: nat, bad: KeyFilter)
    requires IsKeyed(Record(e))
    ensures IsKeyed(Record(Clone(e, depth, bad)))
    decreases e, 1
  {
    if depth <= MAX_PRESERVED_DEPTH {
      CloneEntriesKeyed(e, depth, bad);
    }
  }

  lemma {:induction false} CloneEntriesKeyed(e: Entries, depth: nat, bad: KeyFilter)
    requires IsKeyed(Record(e))
    ensures IsKeyed(Record(CloneEntries(e, depth, bad)))
    decreases e, 0
  {
    if e == [] {
    } else {
      KeyedTail(e);
      var c := CloneEntries(e[1..], depth, bad);
      CloneEntriesKeyed(e[1..], depth, bad);
      if e[0].value.Record? {
        CloneKeyed(e[0].value.entries, depth + 1, bad);
      }
      CloneNoNewKey(e[1..], depth, bad, e[0].key);
      var x := CloneEntry(e[0], depth, bad);
      assert CloneEntries(e, depth, bad) == if bad(e[0].key) then c else [x] + c by { assert [] + c == c; }
      hide CloneEntries, IsKeyed;
      KeyedCons(x, c);
    }
  }

  lemma {:induction false} DeleteKeyed(e: Entries, key: string)
    requires IsKeyed(Record(e))
    ensures IsKeyed(Record(Delete(e, key)))
    ensures forall x <- Delete(e, key) :: x in e
    ensures EntriesDepth(Delete(e, key)) <= EntriesDepth(e)
  {
    if e == [] {
    } else {
      KeyedTail(e);
      var rest := Delete(e[1..], key);
      DeleteKeyed(e[1..], key);
      DepthFront(e[0], rest);
      if e[0].key != key {
        assert !HasKey(rest, e[0].key) by {
          forall i | 0 <= i < |rest| ensures rest[i].key != e[0].key {
            assert rest[i] in e[1..];
          }
        }
        KeyedCons(e[0], rest);
      }
    }
  }

  lemma {:induction false} PutKeyed(e: Entries, key: string, v: Json)
    requires IsKeyed(Record(e)) && HasKey(e, key) && v.Record? && IsKeyed(v)
    requires Lookup(e, key).value.Record? && Depth(v) <= Depth(Lookup(e, key).value)
    ensures IsKeyed(Record(Put(e, key, v))) && EntriesDepth(Put(e, key, v)) <= EntriesDepth(e)
  {
    KeyedTail(e);
    var rest := Put(e[1..], key, v);
    if e[0].key == key {
      KeyedCons(Entry(key, v), e[1..]);
      DepthFront(Entry(key, v), e[1..]);
    } else {
      PutKeyed(e[1..], key, v);
      assert !HasKey(rest, e[0].key) by {
        PutLookup(e[1..], key, v, e[0].key);
      }
      KeyedCons(e[0], rest);
      DepthFront(e[0], rest);
    }
  }

  lemma {:induction false} UnsetAtKeyed(e: Entries, parts: seq<string>)
    requires parts != [] && IsKeyed(Record(e))
    ensures IsKeyed(Record(UnsetAt(e, parts))) && EntriesDepth(UnsetAt(e, parts)) <= EntriesDepth(e)
    decreases parts
  {
    if |parts| == 1 {
      DeleteKeyed(e, parts[0]);
    } else if HasKey(e, parts[0]) && Lookup(e, parts[0]).value.Record? {
      var f := Lookup(e, parts[0]).value.entries;
      LookupNested(e, parts[0]);
      UnsetAtKeyed(f, parts[1..]);
      PutKeyed(e, parts[0], Record(UnsetAt(f, parts[1..])));
    }
  }

  lemma {:induction false} UnsetAllKeyed(e: Entries, paths: seq<string>, bad: KeyFilter)
    requires IsKeyed(Record(e))
    ensures IsKeyed(Record(UnsetAll(e, paths, bad))) && EntriesDepth(UnsetAll(e, paths, bad)) <= EntriesDepth(e)
  {
    if paths == [] {
    } else {
      UnsetAllKeyed(e, paths[..|paths| - 1], bad);
      var parts := Parts(paths[|paths| - 1], "");
      if parts != [] {
        UnsetAtKeyed(UnsetAll(e, paths[..|paths| - 1], bad), parts);
      }
    }
  }

  // ---------- what is read from what was written ----------

  /** The path to unset is neither empty nor refused. */
  predicate Takes(unset: seq<string>, bad: KeyFilter) { unset != [] && forall p <- unset :: !bad(p) }

  /** The path leads to the unset one, or through it. */
  predicate Touches(unset: seq<string>, bad: KeyFilter, path: seq<string>) {
    Takes(unset, bad) && (unset <= path || path <= unset)
  }

  predicate IsUnset(unsets: seq<seq<string>>, bad: KeyFilter, path: seq<string>) {
    exists u <- unsets :: Takes(u, bad) && u <= path
  }

  predicate NoneTouches(unsets: seq<seq<string>>, bad: KeyFilter, path: seq<string>) {
    forall u <- unsets :: !Touches(u, bad, path)
  }

  /** The dotted texts spell these paths. */
  ghost predicate AllSpell(paths: seq<string>, unsets: seq<seq<string>>) {
    |paths| == |unsets| && forall i :: 0 <= i < |paths| ==> Spells(paths[i], unsets[i])
  }

  lemma {:induction false} UnsetAllReads(e: Entries, paths: seq<string>, unsets: seq<seq<string>>, bad: KeyFilter,
          path: seq<string>)
    requires IsKeyed(Record(e)) && AllSpell(paths, unsets)
    ensures var was, read := Read(Record(e), path), Read(Record(UnsetAll(e, paths, bad)), path);
            && (IsUnset(unsets, bad, path) ==> read == None)
            && (!IsUnset(unsets, bad, path) ==> if IsRecord(was) then IsRecord(read) else read == was)
            && (NoneTouches(unsets, bad, path) ==> read == was)
    decreases |paths|
  {
    if paths == [] {
    } else {
      var n := |paths| - 1;
      assert paths == paths[..n] + [paths[n]] && unsets == unsets[..n] + [unsets[n]];
      assert Spells(paths[n], unsets[n]);
      hide Unset, Read, IsUnset, NoneTouches, Touches, Takes, IsKeyed, IsRecord, Spells, Parts;
      UnsetAllReads(e, paths[..n], unsets[..n], bad, path);
      UnsetAllKeyed(e, paths[..n], bad);
      UnsetOneReads(UnsetAll(e, paths[..n], bad), paths[n], unsets[n], bad, path);
      OneMorePath(unsets[..n], unsets[n], bad, path);
    }
  }

  lemma OneMorePath(before: seq<seq<string>>, u: seq<string>, bad: KeyFilter, path: seq<string>)
    ensures IsUnset(before + [u], bad, path) <==> IsUnset(before, bad, path) || (Takes(u, bad) && u <= path)
    ensures NoneTouches(before + [u], bad, path) <==> NoneTouches(before, bad, path) && !Touches(u, bad, path)
  {
    hide Takes, Touches;
    assert forall x :: x in before + [u] <==> x in before || x == u;
  }

  /** Unsetting one dotted path. */
  lemma UnsetOneReads(e: Entries, text: string, u: seq<string>, bad: KeyFilter, path: seq<string>)
    requires IsKeyed(Record(e)) && Spells(text, u)
    ensures var was, read := Read(Record(e), path), Read(Record(Unset(e, text, bad)), path);
            && (Takes(u, bad) && u <= path ==> read == None)
            && (!(Takes(u, bad) && u <= path) ==> if IsRecord(was) then IsRecord(read) else read == was)
            && (!Touches(u, bad, path) ==> read == was)
  {
    PartsIffSpelled(text, u);
    hide Spells, Parts;
    if Takes(u, bad) {
      UnsetReads(e, u, path);
      hide UnsetAt, Read, IsKeyed;
    }
  }

  predicate IsRecord(v: Option<Json>) { v.Some? && v.value.Record? }

  /** Where the parsed configuration is silent, an unset path is gone from what is written, and every
      other path reads as on disk, records by the same law below them; a record that no unset path leads
      into is the clone of the one on disk. No unknown key is lost. */
  lemma UnknownKeysSurvive(merged: Entries, current: Entries, paths: seq<string>, unsets: seq<seq<string>>,
          bad: KeyFilter, path: seq<string>)
    requires IsSafe(path, bad) && IsKeyed(Record(merged)) && IsKeyed(Record(current)) && AllSpell(paths, unsets)
    requires Depth(Record(current)) <= 100 && Says(Record(merged), path).Silent?
    ensures var was, read := Read(Record(current), path), Read(Record(Written(merged, current, paths, bad)), path);
            && (IsUnset(unsets, bad, path) ==> read == None)
            && (!IsUnset(unsets, bad, path) ==> if IsRecord(was) then IsRecord(read) else read == was)
            && (NoneTouches(unsets, bad, path) && IsRecord(was) ==>
                  read == Some(Record(Clone(was.value.entries, |path|, bad))))
  {
    var c := Clone(current, 0, bad);
    hide *;
    BaseFacts(current, paths, bad);
    UnsetAllReads(c, paths, unsets, bad, path);
    CloneReads(current, 0, bad, path);
    var was := Read(Record(current), path);
    RecordCase(was);
    RecordCase(Read(Record(UnsetAll(c, paths, bad)), path));
    RecordCase(Read(Record(Written(merged, current, paths, bad)), path));
    if IsRecord(was) {
      CloneTwice(was.value.entries, |path|, bad);
    }
    WrittenIs(merged, current, paths, bad);
    PreserveReads(merged, UnsetAll(c, paths, bad), bad, path);
  }

  lemma BaseFacts(current: Entries, paths: seq<string>, bad: KeyFilter)
    requires IsKeyed(Record(current))
    ensures var c := Clone(current, 0, bad);
            IsKeyed(Record(c)) && Depth(Record(UnsetAll(c, paths, bad))) <= Depth(Record(current))
  {
    var c := Clone(current, 0, bad);
    CloneKeyed(current, 0, bad);
    CloneDepth(current, 0, bad);
    UnsetAllKeyed(c, paths, bad);
    hide Clone, UnsetAll, EntriesDepth, IsKeyed;
  }

  lemma RecordCase(v: Option<Json>)
    ensures IsRecord(v) <==> v.Some? && v.value.Record?
  {
  }

  lemma WrittenIs(merged: Entries, current: Entries, paths: seq<string>, bad: KeyFilter)
    ensures Written(merged, current, paths, bad) == Preserve(merged, UnsetAll(Clone(current, 0, bad), paths, bad), bad)
  {
  }
}
