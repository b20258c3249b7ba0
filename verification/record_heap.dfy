/**
 Records as objects that are changed in place (`cloneRawRecord`, `overlayKnownKeys` and
 `preserveUnknownKeys` in src/config/config.ts), against the functions on values: the clone
 shares no record with what is on disk, its nested records are overlaid in place, and records of the
 parsed configuration are put in by reference.
 */
module RecordHeap {
  import opened Wrappers
  import opened Json
  import opened KnownKeys

  /** A value that is no record, or a record. */
  datatype Cell = Plain(value: Json) | Node(record: RawRecord)

  datatype Field = Field(key: string, cell: Cell)

  class RawRecord {
    var fields: seq<Field>
    ghost var repr: set<RawRecord>

    constructor ()
      ensures Holds(this, []) && fresh(this) && repr == {this}
    {
      fields := [];
      repr := {this};
    }

    /** `this[key] = cell`. */
    method Set(key: string, cell: Cell, ghost e: Entries, ghost v: Json)
      requires Holds(this, e) && IsCell(cell, v) && ReprOf(cell) !! repr
      modifies this
      ensures Holds(this, Put(e, key, v))
      ensures repr == old(repr) + ReprOf(cell)
      ensures forall f <- fields :: f.key != key ==> f in old(fields)
    {
      hide Holds, Put, IsCell;
      FieldsOf(this, e);
      var i := Find(this, key);
      PutAt(e, key, v, i);
      SetAt(i, key, cell, e, v);
    }

    method SetAt(i: nat, key: string, cell: Cell, ghost e: Entries, ghost v: Json)
      requires Holds(this, e) && IsCell(cell, v) && ReprOf(cell) !! repr && i <= |fields|
      modifies this
      ensures Holds(this, if i < |e| then e[i := Entry(key, v)] else e + [Entry(key, v)])
      ensures repr == old(repr) + ReprOf(cell)
      ensures fields == if i < |e| then old(fields)[i := Field(key, cell)] else old(fields) + [Field(key, cell)]
    {
      ghost var e' := if i < |e| then e[i := Entry(key, v)] else e + [Entry(key, v)];
      if i < |fields| {
        fields := fields[i := Field(key, cell)];
      } else {
        fields := fields + [Field(key, cell)];
      }
      repr := repr + ReprOf(cell);

    }
  }

  lemma FieldsOf(r: RawRecord, e: Entries)
    requires Holds(r, e)
    ensures |r.fields| == |e| && r in r.repr
    ensures forall i :: 0 <= i < |e| ==> r.fields[i].key == e[i].key
  {
  }

  /** The first place of a key, or the number of fields. */
  method Find(r: RawRecord, key: string) returns (i: nat)
    ensures i <= |r.fields| && (i < |r.fields| ==> r.fields[i].key == key)
    ensures forall j :: 0 <= j < i ==> r.fields[j].key != key
  {
    i := 0;
    while i < |r.fields| && r.fields[i].key != key
      invariant 0 <= i <= |r.fields| && forall j :: 0 <= j < i ==> r.fields[j].key != key
    {
      i := i + 1;
    }
  }

  /** Putting a value at the first place of its key, or at the end. */
  lemma {:induction false} PutAt(e: Entries, key: string, v: Json, i: nat)
    requires i <= |e| && (forall j :: 0 <= j < i ==> e[j].key != key) && (i < |e| ==> e[i].key == key)
    ensures Put(e, key, v) == if i < |e| then e[i := Entry(key, v)] else e + [Entry(key, v)]
  {
    if i == 0 {
    } else {
      PutAt(e[1..], key, v, i - 1);
    }
  }

  ghost function ReprOf(cell: Cell): set<RawRecord>
    reads set c <- [cell] | c.Node? :: c.record
  {
    if cell.Node? then cell.record.repr else {}
  }

  ghost predicate IsCell(cell: Cell, v: Json)
    reads (set c <- [cell] | c.Node? :: c.record), ReprOf(cell)
    decreases v
  {
    match cell
    case Plain(w) => w == v && !v.Record?
    case Node(c) => v.Record? && Holds(c, v.entries)
  }

  /** The object and those below it hold a record: a tree, in which no object comes twice. */
  ghost predicate Holds(r: RawRecord, e: Entries)
    reads r, r.repr
    decreases e
  {
    && r in r.repr && |r.fields| == |e|
    && (forall i :: 0 <= i < |e| ==>
          var cell := r.fields[i].cell;
          && r.fields[i].key == e[i].key && (cell.Node? ==> cell.record in r.repr)
          && ReprOf(cell) <= r.repr - {r} && IsCell(cell, e[i].value))
    && (forall i, j :: 0 <= i < j < |e| ==> ReprOf(r.fields[i].cell) !! ReprOf(r.fields[j].cell))
  }

  // ---------- cloning ----------

  lemma {:induction false} CloneOneMore(e: Entries, n: nat, depth: nat, bad: KeyFilter)
    requires n < |e|
    ensures CloneEntries(e[..n + 1], depth, bad) ==
            CloneEntries(e[..n], depth, bad) + if bad(e[n].key) then [] else [CloneEntry(e[n], depth, bad)]
  {
    var a, b := e[..n + 1], e[..n];
    assert a[0] == e[0];
    if n > 0 {
      assert b[0] == e[0] && a[1..] == e[1..][..n] && b[1..] == e[1..][..n - 1];
      CloneOneMore(e[1..], n - 1, depth, bad);
    } else {
      assert a[1..] == [] && b == [];
    }
  }

  /** Cloned keys are among the keys. */
  lemma {:induction false} CloneNoNewKey(e: Entries, depth: nat, bad: KeyFilter, key: string)
    requires !HasKey(e, key)
    ensures forall x <- CloneEntries(e, depth, bad) :: x.key != key
  {
    if e == [] {
    } else {
      assert !HasKey(e[1..], key) by {
        assert forall i | 0 <= i < |e[1..]| :: e[1..][i] == e[i + 1];
      }
      CloneNoNewKey(e[1..], depth, bad, key);
      assert e[0].key != key;
    }
  }

  lemma NewKey(e: Entries, i: nat, depth: nat, bad: KeyFilter)
    requires DistinctKeys(e) && i < |e|
    ensures var done := CloneEntries(e[..i], depth, bad);
            forall v :: Put(done, e[i].key, v) == done + [Entry(e[i].key, v)]
  {
    var done := CloneEntries(e[..i], depth, bad);
    CloneNoNewKey(e[..i], depth, bad, e[i].key);
    forall v ensures Put(done, e[i].key, v) == done + [Entry(e[i].key, v)] {
      PutAt(done, e[i].key, v, |done|);
    }
  }

  lemma {:induction false} KeyedAt(e: Entries, i: nat)
    requires EntriesKeyed(e) && i < |e|
    ensures IsKeyed(e[i].value)
  {
    if i == 0 {
    } else {
      KeyedAt(e[1..], i - 1);
    }
  }

  lemma CellOf(r: RawRecord, e: Entries, i: nat)
    requires Holds(r, e) && i < |e|
    ensures |r.fields| == |e| && r.fields[i].key == e[i].key && IsCell(r.fields[i].cell, e[i].value)
    ensures ReprOf(r.fields[i].cell) <= r.repr - {r}
    ensures e[i].value.Record? <==> r.fields[i].cell.Node?
    ensures r.fields[i].cell.Node? ==>
              r.fields[i].cell.record in r.repr && Holds(r.fields[i].cell.record, e[i].value.entries)
  {
  }

  /** The clone holds the cloned record in new objects; nothing there was is changed. */
  method CloneRawRecord(source: RawRecord, depth: nat, bad: KeyFilter, ghost e: Entries) returns (out: RawRecord)
    requires Holds(source, e) && IsKeyed(Record(e))
    ensures Holds(out, Clone(e, depth, bad)) && fresh(out.repr)
    decreases e, 2
  {
    out := new RawRecord();
    if depth > MAX_PRESERVED_DEPTH {
      return;
    }
    FieldsOf(source, e);
    assert Clone(e, depth, bad) == CloneEntries(e, depth, bad) && CloneEntries(e[..0], depth, bad) == [];
    hide Holds, Clone, CloneEntry, CloneEntries, IsKeyed, IsCell, ReprOf;
    for i := 0 to |source.fields|
      invariant Holds(source, e) && |source.fields| == |e| && fresh(out.repr)
      invariant Holds(out, CloneEntries(e[..i], depth, bad))
    {
      var key, cell := source.fields[i].key, source.fields[i].cell;
      CellOf(source, e, i);
      if bad(key) {
        CloneOneMore(e, i, depth, bad);
        continue;
      }
      CloneField(out, key, cell, depth, bad, e, i);
    }
    assert e[..|e|] == e;
  }

  method CloneField(out: RawRecord, key: string, cell: Cell, depth: nat, bad: KeyFilter, ghost e: Entries, ghost i: nat)
    requires i < |e| && key == e[i].key && !bad(key) && IsCell(cell, e[i].value) && IsKeyed(Record(e))
    requires Holds(out, CloneEntries(e[..i], depth, bad))
    modifies out
    ensures Holds(out, CloneEntries(e[..i + 1], depth, bad)) && fresh(out.repr - old(out.repr))
    decreases e, 1
  {
    assert DistinctKeys(e);
    hide Holds, CloneEntry, CloneEntries, IsKeyed;
    CloneOneMore(e, i, depth, bad);
    NewKey(e, i, depth, bad);
    var copy := CloneCell(key, cell, depth, bad, e, i);
    out.Set(key, copy, CloneEntries(e[..i], depth, bad), CloneEntry(e[i], depth, bad).value);
  }

  method CloneCell(key: string, cell: Cell, depth: nat, bad: KeyFilter, ghost e: Entries, ghost i: nat)
    returns (copy: Cell)
    requires i < |e| && key == e[i].key && IsCell(cell, e[i].value) && IsKeyed(Record(e))
    ensures IsCell(copy, CloneEntry(e[i], depth, bad).value) && fresh(ReprOf(copy))
    ensures CloneEntry(e[i], depth, bad).key == key
    decreases e, 0
  {
    KeyedAt(e, i);
    copy := cell;
    if cell.Node? {
      var c := CloneRawRecord(cell.record, depth + 1, bad, e[i].value.entries);
      copy := Node(c);
    }
  }

  // ---------- overlaying ----------

  lemma {:induction false} OverlayOneMore(t: Entries, s: Entries, n: nat, depth: nat, bad: KeyFilter)
    requires n < |s|
    ensures OverlayEntries(t, s[..n + 1], depth, bad) ==
              OverlayEntry(OverlayEntries(t, s[..n], depth, bad), s[n], depth, bad)
    decreases n
  {
    var a, b := s[..n + 1], s[..n];
    assert a[0] == s[0];
    if n > 0 {
      assert b[0] == s[0] && a[1..] == s[1..][..n] && b[1..] == s[1..][..n - 1];
      OverlayOneMore(OverlayEntry(t, s[0], depth, bad), s[1..], n - 1, depth, bad);
    } else {
      assert a[1..] == [] && b == [];
    }
  }

  /** The first place of a key is where it is looked up. */
  lemma {:induction false} LookupFirst(e: Entries, key: string, i: nat)
    requires i <= |e| && (forall j :: 0 <= j < i ==> e[j].key != key) && (i < |e| ==> e[i].key == key)
    ensures Lookup(e, key) == if i < |e| then Some(e[i].value) else None
  {
    if i == 0 {
    } else {
      LookupFirst(e[1..], key, i - 1);
    }
  }

  /** Overlaying one key by its place in the target. */
  lemma OverlayEntryAt(t: Entries, key: string, v: Json, i: nat, depth: nat, bad: KeyFilter)
    requires i <= |t| && (forall j :: 0 <= j < i ==> t[j].key != key) && (i < |t| ==> t[i].key == key)
    requires !v.Undefined? && !bad(key)
    ensures OverlayEntry(t, Entry(key, v), depth, bad) ==
            if i < |t| && v.Record? && t[i].value.Record? then
              t[i := Entry(key, Record(Overlay(t[i].value.entries, v.entries, depth + 1, bad)))]
            else Put(t, key, v)
  {
    hide Overlay;
    LookupFirst(t, key, i);
    if i < |t| && v.Record? && t[i].value.Record? {
      PutAt(t, key, Record(Overlay(t[i].value.entries, v.entries, depth + 1, bad)), i);
    }
  }

  /** Fields below other keys are what they were, in the objects they were. */
  twostate predicate OthersStay(target: RawRecord, key: string)
    reads target, set f <- target.fields | f.cell.Node? :: f.cell.record
  {
    forall f <- target.fields :: f.key != key ==> f in old(target.fields) && ReprOf(f.cell) == old(ReprOf(f.cell))
  }

  method OverlaySet(target: RawRecord, key: string, cell: Cell, ghost t: Entries, ghost v: Json)
    requires Holds(target, t) && IsCell(cell, v) && ReprOf(cell) !! target.repr
    modifies target
    ensures Holds(target, Put(t, key, v)) && target.repr == old(target.repr + ReprOf(cell)) && OthersStay(target, key)
  {
    AllCells(target, t);
    hide Holds;
    target.Set(key, cell, t, v);
  }

  /** One key of the source. `mine` are the objects that belong to the target alone. */
  method OverlayOne(target: RawRecord, key: string, cell: Cell, depth: nat, bad: KeyFilter,
                    ghost t: Entries, ghost v: Json, ghost mine: set<RawRecord>)
    requires Holds(target, t) && IsCell(cell, v) && IsKeyed(v)
    requires ReprOf(cell) !! target.repr && ReprOf(cell) !! mine
    requires target in mine && forall j :: 0 <= j < |t| && t[j].key == key ==> ReprOf(target.fields[j].cell) <= mine
    modifies mine
    ensures Holds(target, OverlayEntry(t, Entry(key, v), depth, bad))
    ensures target.repr <= old(target.repr + ReprOf(cell)) && OthersStay(target, key)
    decreases v
  {
    if cell == Plain(Undefined) || bad(key) {
      return;
    }
    FieldsOf(target, t);
    var i := Find(target, key);
    OverlayEntryAt(t, key, v, i, depth, bad);
    hide OverlayEntry, OthersStay;
    if i < |target.fields| && cell.Node? && target.fields[i].cell.Node? {
      OverlayNested(target, i, cell.record, depth, bad, t, v.entries, mine);
    } else {
      assert i < |t| && v.Record? ==> !t[i].value.Record?;
      hide Holds;
      OverlaySet(target, key, cell, t, v);
    }
  }

  method OverlayNested(target: RawRecord, i: nat, source: RawRecord, depth: nat, bad: KeyFilter,
                       ghost t: Entries, ghost s: Entries, ghost mine: set<RawRecord>)
    requires Holds(target, t) && Holds(source, s) && IsKeyed(Record(s))
    requires source.repr !! target.repr && source.repr !! mine
    requires i < |t| && target.fields[i].cell.Node? && ReprOf(target.fields[i].cell) <= mine && target in mine
    modifies mine
    ensures t[i].value.Record?
    ensures Holds(target, t[i := Entry(t[i].key, Record(Overlay(t[i].value.entries, s, depth + 1, bad)))])
    ensures target.repr <= old(target.repr + source.repr) && OthersStay(target, t[i].key)
    decreases s, 2
  {
    AllCells(target, t);
    var existing := target.fields[i].cell.record;
    OverlayKnownKeys(existing, source, depth + 1, bad, t[i].value.entries, s);
    target.repr := target.repr + existing.repr;
    ghost var t' := t[i := Entry(t[i].key, Record(Overlay(t[i].value.entries, s, depth + 1, bad)))];
    forall j | 0 <= j < |t| && j != i
      ensures ReprOf(target.fields[j].cell) == old(ReprOf(target.fields[j].cell)) &&
                IsCell(target.fields[j].cell, t[j].value)
    {
      assert old(ReprOf(target.fields[j].cell) !! existing.repr);
      assert old(IsCell(target.fields[j].cell, t[j].value));
    }
    assert existing.repr <= old(existing.repr) + source.repr;
    assert IsCell(target.fields[i].cell, t'[i].value);
    assert existing.repr <= target.repr - {target};
    assert existing in existing.repr;
    forall j | 0 <= j < |t| && j != i
      ensures ReprOf(target.fields[j].cell) !! existing.repr && ReprOf(target.fields[j].cell) <= target.repr - {target}
    {
      assert old(ReprOf(target.fields[j].cell) !! existing.repr);
      assert old(ReprOf(target.fields[j].cell)) <= old(target.repr) - {target};
    }
    Assemble(target, t');
  }

  lemma Assemble(r: RawRecord, e: Entries)
    requires r in r.repr && |r.fields| == |e|
    requires forall i :: 0 <= i < |e| ==> r.fields[i].key == e[i].key
    requires forall i :: 0 <= i < |e| ==> ReprOf(r.fields[i].cell) <= r.repr - {r}
    requires forall i :: 0 <= i < |e| ==> r.fields[i].cell.Node? ==> r.fields[i].cell.record in r.repr
    requires forall i :: 0 <= i < |e| ==> IsCell(r.fields[i].cell, e[i].value)
    requires forall i, j :: 0 <= i < |e| && 0 <= j < |e| && i != j ==>
               ReprOf(r.fields[i].cell) !! ReprOf(r.fields[j].cell)
    ensures Holds(r, e)
  {
  }

  lemma AllCells(r: RawRecord, e: Entries)
    requires Holds(r, e)
    ensures r in r.repr && |r.fields| == |e|
    ensures forall i :: 0 <= i < |e| ==>
              var cell := r.fields[i].cell;
              && r.fields[i].key == e[i].key && ReprOf(cell) <= r.repr - {r} && IsCell(cell, e[i].value)
              && (cell.Node? ==> cell.record in ReprOf(cell) && e[i].value.Record?)
    ensures forall i, j :: 0 <= i < |e| && 0 <= j < |e| && i != j ==>
              ReprOf(r.fields[i].cell) !! ReprOf(r.fields[j].cell)
  {
    forall i | 0 <= i < |e|
      ensures r.fields[i].cell.Node? ==> r.fields[i].cell.record in ReprOf(r.fields[i].cell) && e[i].value.Record?
    {
      CellOf(r, e, i);
    }
  }

  /** The records of the source from its n-th field on are none of these. */
  ghost predicate AwayFrom(source: RawRecord, s: Entries, n: nat, others: set<RawRecord>)
    requires Holds(source, s)
    reads source, source.repr
  {
    forall j :: n <= j < |s| ==> ReprOf(source.fields[j].cell) !! others
  }

  /** Below other keys than those listed the target has records of its own only. */
  ghost predicate KeepsOthers(target: RawRecord, t: Entries, keys: seq<string>, mine: set<RawRecord>)
    requires Holds(target, t)
    reads target, target.repr
  {
    forall j :: 0 <= j < |t| && t[j].key !in keys ==> ReprOf(target.fields[j].cell) <= mine
  }

  lemma KeysOneMore(s: Entries, i: nat)
    requires i < |s|
    ensures Keys(s[..i + 1]) == Keys(s[..i]) + [s[i].key]
    ensures DistinctKeys(s) ==> s[i].key !in Keys(s[..i])
  {
  }

  /** One field of the source. */
  method OverlayField(target: RawRecord, source: RawRecord, i: nat, depth: nat, bad: KeyFilter,
                      ghost u: Entries, ghost s: Entries, ghost mine: set<RawRecord>)
    requires Holds(source, s) && IsKeyed(Record(s)) && i < |s| && source.repr !! mine
    requires Holds(target, u) && target in mine
    requires AwayFrom(source, s, i, target.repr) && KeepsOthers(target, u, Keys(s[..i]), mine)
    modifies mine
    ensures Holds(source, s) && source.repr == old(source.repr)
    ensures Holds(target, OverlayEntry(u, s[i], depth, bad)) && target.repr <= old(target.repr) + source.repr
    ensures AwayFrom(source, s, i + 1, target.repr)
    ensures KeepsOthers(target, OverlayEntry(u, s[i], depth, bad), Keys(s[..i + 1]), mine)
    decreases s, 0
  {
    hide Holds, OverlayEntry, Keys, EntriesKeyed;
    AllCells(source, s);
    AllCells(target, u);
    KeyedAt(s, i);
    KeysOneMore(s, i);
    OverlayOne(target, source.fields[i].key, source.fields[i].cell, depth, bad, u, s[i].value, mine);
    AllCells(source, s);
    AllCells(target, OverlayEntry(u, s[i], depth, bad));
  }

  method OverlayKnownKeys(target: RawRecord, source: RawRecord, depth: nat, bad: KeyFilter, ghost t: Entries,
          ghost s: Entries)
    requires Holds(target, t) && Holds(source, s) && IsKeyed(Record(s)) && target.repr !! source.repr
    modifies target.repr
    ensures Holds(target, Overlay(t, s, depth, bad))
    ensures target.repr <= old(target.repr) + source.repr
    decreases s, 1
  {
    if depth > MAX_PRESERVED_DEPTH {
      return;
    }
    ghost var mine, below := target.repr, source.repr;
    AllCells(source, s);
    AllCells(target, t);
    assert s[..0] == [];
    for i := 0 to |source.fields|
      invariant Holds(source, s) && source.repr == below
      invariant Holds(target, OverlayEntries(t, s[..i], depth, bad)) && target.repr <= mine + below && target in mine
      invariant AwayFrom(source, s, i, target.repr)
      invariant KeepsOthers(target, OverlayEntries(t, s[..i], depth, bad), Keys(s[..i]), mine)
    {
      hide Holds, AwayFrom, KeepsOthers, IsKeyed, OverlayEntries;
      OverlayOneMore(t, s, i, depth, bad);
      OverlayField(target, source, i, depth, bad, OverlayEntries(t, s[..i], depth, bad), s, mine);
    }
    assert s[..|s|] == s;
  }

  /** What is written: the parsed configuration over a clone of what is on disk. The record on disk keeps
      its objects to itself, only records of the parsed configuration are shared. */
  method PreserveUnknownKeys(parsed: RawRecord, raw: RawRecord, bad: KeyFilter, ghost p: Entries, ghost r: Entries)
    returns (out: RawRecord)
    requires Holds(parsed, p) && IsKeyed(Record(p)) && Holds(raw, r) && IsKeyed(Record(r))
    ensures Holds(out, Preserve(p, r, bad)) && Holds(parsed, p) && Holds(raw, r)
    ensures fresh(out.repr - parsed.repr)
  {
    out := CloneRawRecord(raw, 0, bad, r);
    OverlayKnownKeys(out, parsed, 0, bad, Clone(r, 0, bad), p);
  }
}
