/**
 JSON values as the configuration code holds them in memory: records keep the order of their keys,
 and a key can be there with the value `undefined`.
 */
module Json {
  import opened Wrappers

  datatype Json =
    | Undefined
    | Null
    | Bool(bool)
    | Number(real)
    | Text(string)
    | Array(items: seq<Json>)
    | Record(entries: seq<Entry>)

  datatype Entry = Entry(key: string, value: Json)

  type Entries = seq<Entry>

  predicate IsContainer(v: Json) { v.Array? || v.Record? }

  function Values(e: Entries): (r: seq<Json>)
    ensures |r| == |e|
  {
    seq(|e|, i requires 0 <= i < |e| => e[i].value)
  }

  function Children(v: Json): seq<Json> {
    match v
    case Array(items) => items
    case Record(e) => Values(e)
    case _ => []
  }

  // ---------- nesting ----------

  function Max(x: nat, y: nat): nat { if x >= y then x else y }

  /** Levels of containers; a value that is no container counts as one level, but adds none to the
      container it is in. */
  function Depth(v: Json): nat {
    match v
    case Array(items) => 1 + ItemsDepth(items)
    case Record(e) => 1 + EntriesDepth(e)
    case _ => 1
  }

  function ItemsDepth(items: seq<Json>): nat {
    if items == [] then 0
    else Max(if IsContainer(items[0]) then Depth(items[0]) else 0, ItemsDepth(items[1..]))
  }

  function EntriesDepth(e: Entries): nat {
    if e == [] then 0
    else Max(EntryDepth(e[0]), EntriesDepth(e[1..]))
  }

  function EntryDepth(x: Entry): nat {
    if IsContainer(x.value) then Depth(x.value) else 0
  }

  function Size(v: Json): nat {
    match v
    case Array(items) => 1 + ItemsSize(items)
    case Record(e) => 1 + EntriesSize(e)
    case _ => 1
  }

  function ItemsSize(items: seq<Json>): nat {
    if items == [] then 0 else Size(items[0]) + ItemsSize(items[1..])
  }

  function EntriesSize(e: Entries): nat {
    if e == [] then 0 else EntrySize(e[0]) + EntriesSize(e[1..])
  }

  function EntrySize(x: Entry): nat { Size(x.value) }

  lemma {:induction false} ValuesMeasures(e: Entries)
    ensures ItemsDepth(Values(e)) == EntriesDepth(e) && ItemsSize(Values(e)) == EntriesSize(e)
  {
    if e == [] {
    } else {
      ValuesMeasures(e[1..]);
      assert Values(e)[1..] == Values(e[1..]);
    }
  }

  lemma ChildrenMeasures(v: Json)
    ensures Depth(v) == 1 + ItemsDepth(Children(v)) && Size(v) == 1 + ItemsSize(Children(v))
  {
    if v.Record? {
      ValuesMeasures(v.entries);
    }
  }

  // ---------- records as maps ----------

  predicate DistinctKeys(e: Entries) {
    forall i, j :: 0 <= i < j < |e| ==> e[i].key != e[j].key
  }

  predicate HasKey(e: Entries, key: string) {
    exists i :: 0 <= i < |e| && e[i].key == key
  }

  function Keys(e: Entries): seq<string> { seq(|e|, i requires 0 <= i < |e| => e[i].key) }

  /** The value of a key. */
  function Lookup(e: Entries, key: string): (r: Option<Json>)
    ensures r.Some? <==> HasKey(e, key)
    ensures r.Some? ==> exists i :: 0 <= i < |e| && e[i] == Entry(key, r.value)
  {
    if e == [] then None
    else if e[0].key == key then Some(e[0].value)
    else
      var r := Lookup(e[1..], key);
      assert HasKey(e, key) ==> HasKey(e[1..], key) by {
        if HasKey(e, key) {
          var i :| 0 <= i < |e| && e[i].key == key;
          assert e[1..][i - 1].key == key;
        }
      }
      assert forall i :: 0 <= i < |e[1..]| ==> e[1..][i] == e[i + 1];
      r
  }

  /** A known key keeps its place, a new one goes to the end. */
  function Put(e: Entries, key: string, v: Json): (r: Entries)
  {
    if e == [] then [Entry(key, v)]
    else if e[0].key == key then [Entry(key, v)] + e[1..]
    else [e[0]] + Put(e[1..], key, v)
  }

  lemma {:induction false} PutLookup(e: Entries, key: string, v: Json, k: string)
    ensures Lookup(Put(e, key, v), k) == if k == key then Some(v) else Lookup(e, k)
  {
    if e != [] {
      if e[0].key == key {
        assert ([Entry(key, v)] + e[1..])[1..] == e[1..];
      } else {
        PutLookup(e[1..], key, v, k);
        assert ([e[0]] + Put(e[1..], key, v))[1..] == Put(e[1..], key, v);
      }
    } else {
      assert [Entry(key, v)][1..] == [];
    }
  }

  lemma KeysFront(x: Entry, e: Entries)
    ensures Keys([x] + e) == [x.key] + Keys(e)
  {
  }

  lemma HasKeyFront(x: Entry, e: Entries, key: string)
    ensures HasKey([x] + e, key) <==> x.key == key || HasKey(e, key)
  {
    var all := [x] + e;
    assert forall i :: 0 <= i < |e| ==> all[i + 1] == e[i];
    assert all[0] == x;
    if HasKey(e, key) {
      var i :| 0 <= i < |e| && e[i].key == key;
      assert all[i + 1].key == key;
    }
    if HasKey(all, key) && x.key != key {
      var i :| 0 <= i < |all| && all[i].key == key;
      assert e[i - 1].key == key;
    }
  }

  lemma PutFront(x: Entry, e: Entries, key: string, v: Json)
    ensures Put([x] + e, key, v) == if x.key == key then [Entry(key, v)] + e else [x] + Put(e, key, v)
  {
    assert ([x] + e)[1..] == e;
  }

  lemma {:induction false} PutKeys(e: Entries, key: string, v: Json)
    ensures Keys(Put(e, key, v)) == if HasKey(e, key) then Keys(e) else Keys(e) + [key]
  {
    if e == [] {
    } else {
      hide *;
      var x, rest := e[0], e[1..];
      assert e == [x] + rest;
      PutKeys(rest, key, v);
      PutFront(x, rest, key, v);
      KeysFront(x, rest);
      HasKeyFront(x, rest, key);
      KeysFront(x, Put(rest, key, v));
      KeysFront(Entry(key, v), rest);
      assert [x.key] + (Keys(rest) + [key]) == [x.key] + Keys(rest) + [key];
    }
  }

  // ---------- reading along a path ----------

  /** The value at a path of keys; `undefined` reads like a missing key. */
  function Read(v: Json, path: seq<string>): Option<Json> {
    if v.Undefined? then None
    else if path == [] then Some(v)
    else if v.Record? && HasKey(v.entries, path[0]) then Read(Lookup(v.entries, path[0]).value, path[1..])
    else None
  }
}
