/** Unsetting a dotted path of a record in place (`unsetPath` in src/config/config.ts). */
module UnsetPath {
  import opened Wrappers
  import opened Json
  import opened KnownKeys
  import opened RecordHeap

  // ---------- the function ----------

  /** The parts between the dots, without the empty ones. */
  function Parts(path: string, part: string): seq<string>
    decreases |path|
  {
    if path == "" then if part == "" then [] else [part]
    else if path[0] == '.' then (if part == "" then [] else [part]) + Parts(path[1..], "")
    else Parts(path[1..], part + [path[0]])
  }

  function Delete(e: Entries, key: string): Entries {
    if e == [] then []
    else if e[0].key == key then e[1..]
    else [e[0]] + Delete(e[1..], key)
  }

  function UnsetAt(e: Entries, parts: seq<string>): Entries
    requires parts != []
  {
    if |parts| == 1 then Delete(e, parts[0])
    else
      match Lookup(e, parts[0])
      case Some(Record(f)) => Put(e, parts[0], Record(UnsetAt(f, parts[1..])))
      case _ => e
  }

  function Unset(e: Entries, path: string, bad: KeyFilter): Entries {
    var parts := Parts(path, "");
    if parts == [] || exists p <- parts :: bad(p) then e else UnsetAt(e, parts)
  }

  // ---------- what splitting yields ----------

  predicate IsPlain(s: string) { '.' !in s }

  /** The pieces with a dot between neighbours. */
  function Dotted(pieces: seq<string>): string
    requires pieces != []
  {
    if |pieces| == 1 then pieces[0] else pieces[0] + "." + Dotted(pieces[1..])
  }

  function NonEmpty(pieces: seq<string>): seq<string> {
    if pieces == [] then [] else (if pieces[0] == "" then [] else [pieces[0]]) + NonEmpty(pieces[1..])
  }

  /** The text is pieces without dots, with dots between them, and the parts are those that are not empty. */
  ghost predicate Spells(text: string, parts: seq<string>) {
    exists pieces: seq<string> ::
      pieces != [] && text == Dotted(pieces) && (forall p <- pieces :: IsPlain(p)) && parts == NonEmpty(pieces)
  }

  function OrNothing(part: string): seq<string> { if part == "" then [] else [part] }

  lemma {:induction false} PartsOfPiece(piece: string, rest: string, part: string)
    requires IsPlain(piece)
    ensures Parts(piece, part) == OrNothing(part + piece)
    ensures Parts(piece + "." + rest, part) == OrNothing(part + piece) + Parts(rest, "")
    decreases |piece|
  {
    var all := piece + "." + rest;
    if piece == "" {
      assert part + "" == part && all[0] == '.' && all[1..] == rest;
    } else {
      PartsOfPiece(piece[1..], rest, part + [piece[0]]);
      assert all[0] == piece[0] && all[1..] == piece[1..] + "." + rest;
      assert part + [piece[0]] + piece[1..] == part + piece;
    }
  }

  lemma {:induction false} PartsOfDotted(pieces: seq<string>)
    requires pieces != [] && forall p <- pieces :: IsPlain(p)
    ensures Parts(Dotted(pieces), "") == NonEmpty(pieces)
  {
    assert "" + pieces[0] == pieces[0];
    if |pieces| == 1 {
      PartsOfPiece(pieces[0], "", "");
      assert NonEmpty(pieces[1..]) == [];
    } else {
      PartsOfDotted(pieces[1..]);
      PartsOfPiece(pieces[0], Dotted(pieces[1..]), "");
    }
  }

  lemma {:induction false} SomePieces(text: string) returns (pieces: seq<string>)
    ensures pieces != [] && Dotted(pieces) == text && forall p <- pieces :: IsPlain(p)
    decreases |text|
  {
    if text == "" {
      pieces := [""];
    } else {
      var rest := SomePieces(text[1..]);
      assert rest[0] in rest && forall p <- rest[1..] :: p in rest;
      if text[0] == '.' {
        pieces := [""] + rest;
        assert pieces[1..] == rest;
        assert "" + "." + text[1..] == text;
      } else {
        pieces := [[text[0]] + rest[0]] + rest[1..];
        assert pieces[1..] == rest[1..];
        assert [text[0]] + text[1..] == text && IsPlain([text[0]] + rest[0]);
        if |rest| > 1 {
          assert [text[0]] + (rest[0] + "." + Dotted(rest[1..])) == ([text[0]] + rest[0]) + "." + Dotted(rest[1..]);
        }
      }
    }
  }

  /** Splitting yields exactly the parts that the text spells: dots separate them, and the empty parts of
      doubled or outer dots vanish. */
  lemma PartsIffSpelled(text: string, parts: seq<string>)
    ensures Spells(text, parts) <==> Parts(text, "") == parts
  {
    if Spells(text, parts) {
      var pieces: seq<string> :|
        pieces != [] && text == Dotted(pieces) && (forall p <- pieces :: IsPlain(p)) && parts == NonEmpty(pieces);
      PartsOfDotted(pieces);
    }
    var pieces := SomePieces(text);
    PartsOfDotted(pieces);
  }

  lemma {:induction false} NonEmptyKeeps(pieces: seq<string>)
    ensures forall p :: p in NonEmpty(pieces) <==> p in pieces && p != ""
    ensures "" !in pieces ==> NonEmpty(pieces) == pieces
  {
    if pieces == [] {
    } else {
      NonEmptyKeeps(pieces[1..]);
      assert pieces == [pieces[0]] + pieces[1..];
    }
  }

  /** A list of parts that are neither empty nor hold a dot comes back from its dotted text, and whatever
      the text, only such parts come out. */
  lemma PartsComeBack(parts: seq<string>, text: string)
    ensures parts != [] && (forall p <- parts :: p != "" && IsPlain(p)) ==> Parts(Dotted(parts), "") == parts
    ensures forall p <- Parts(text, "") :: p != "" && IsPlain(p)
  {
    if parts != [] && forall p <- parts :: p != "" && IsPlain(p) {
      PartsOfDotted(parts);
      NonEmptyKeeps(parts);
    }
    var pieces := SomePieces(text);
    PartsOfDotted(pieces);
    NonEmptyKeeps(pieces);
  }

  // ---------- what it does to readings ----------

  lemma {:induction false} DeleteLookup(e: Entries, key: string, k: string)
    requires DistinctKeys(e)
    ensures Lookup(Delete(e, key), k) == if k == key then None else Lookup(e, k)
  {
    if e == [] {
    } else {
      var rest := e[1..];
      assert DistinctKeys(rest);
      assert e[0].key == key ==> !HasKey(rest, key);
      if e[0].key != key {
        DeleteLookup(rest, key, k);
        LookupFront(e[0], Delete(rest, key), k);
      }
    }
  }

  /** Below an unset path nothing is read any more, and every other path that does not lead to it reads
      as before. */
  lemma {:induction false} UnsetReads(e: Entries, parts: seq<string>, path: seq<string>)
    requires parts != [] && IsKeyed(Record(e))
    ensures parts <= path ==> Read(Record(UnsetAt(e, parts)), path) == None
    ensures !(parts <= path) && !(path <= parts) ==> Read(Record(UnsetAt(e, parts)), path) == Read(Record(e), path)
    ensures path < parts ==>
              match Read(Record(e), path)
              case Some(Record(f)) => Read(Record(UnsetAt(e, parts)), path) == Some(Record(UnsetAt(f, parts[|path|..])))
              case other => Read(Record(UnsetAt(e, parts)), path) == other
    decreases parts
  {
    hide Delete, Put;
    if path == [] {
    } else {
      var k := parts[0];
      if |parts| == 1 {
        DeleteLookup(e, k, path[0]);
      } else if HasKey(e, k) && Lookup(e, k).value.Record? {
        var f := Lookup(e, k).value.entries;
        LookupNested(e, k);
        PutLookup(e, k, Record(UnsetAt(f, parts[1..])), path[0]);
        UnsetReads(f, parts[1..], path[1..]);
      }
    }
  }

  // ---------- the program ----------

  predicate IsFirst(e: Entries, key: string, i: nat) {
    i < |e| && e[i].key == key && forall j :: 0 <= j < i ==> e[j].key != key
  }

  /** From a record, which holds `e`, along the parts down to another one, which holds `f`. */
  datatype Way = Way(top: RawRecord, e: Entries, parts: seq<string>, end: RawRecord, f: Entries)

  /** The i-th field leads down. */
  ghost predicate IsStep(w: Way, i: nat)
    reads w.top
  {
    && w.parts != [] && IsFirst(w.e, w.parts[0], i) && w.e[i].value.Record?
    && i < |w.top.fields| && w.top.fields[i].cell.Node?
    && w.top.fields[i].cell.record in w.top.repr
  }

  ghost function Rest(w: Way, i: nat): Way
    requires IsStep(w, i)
    reads w.top
  {
    Way(w.top.fields[i].cell.record, w.e[i].value.entries, w.parts[1..], w.end, w.f)
  }

  ghost predicate Leads(w: Way)
    reads w.top, w.top.repr
    decreases w.parts, 1
  {
    if w.parts == [] then w.top == w.end && w.e == w.f else exists i: nat :: LeadsBy(w, i)
  }

  ghost predicate LeadsBy(w: Way, i: nat)
    requires w.parts != []
    reads w.top, w.top.repr
    decreases w.parts, 0
  {
    IsStep(w, i) && Rest(w, i).top.repr <= w.top.repr && Leads(Rest(w, i))
  }

  lemma {:induction false} LeadsInside(w: Way)
    requires Holds(w.top, w.e) && Leads(w)
    ensures w.end in w.top.repr && w.end.repr <= w.top.repr && Holds(w.end, w.f)
    ensures IsKeyed(Record(w.e)) ==> IsKeyed(Record(w.f))
    decreases w.parts
  {
    if w.parts == [] {
    } else {
      var i: nat :| LeadsBy(w, i);
      CellOf(w.top, w.e, i);
      LeadsInside(Rest(w, i));
      if IsKeyed(Record(w.e)) {
        KeyedAt(w.e, i);
      }
    }
  }

  /** One step more at the end. */
  lemma {:induction false} LeadsFurther(w: Way, last: Way, i: nat)
    requires Holds(w.top, w.e) && Leads(w)
    requires last.top == w.end && last.e == w.f && |last.parts| == 1
    requires IsStep(last, i) && Rest(last, i).end == Rest(last, i).top
    requires last.f == last.e[i].value.entries
    ensures Leads(Way(w.top, w.e, w.parts + last.parts, last.end, last.f))
    decreases w.parts
  {
    var longer := Way(w.top, w.e, w.parts + last.parts, last.end, last.f);
    if w.parts == [] {
      CellOf(w.top, w.e, i);
      assert longer.parts == last.parts;
      assert LeadsBy(longer, i);
    } else {
      var k: nat :| LeadsBy(w, k);
      CellOf(w.top, w.e, k);
      LeadsFurther(Rest(w, k), last, i);
      assert longer.parts[1..] == w.parts[1..] + last.parts;
      assert LeadsBy(longer, k);
    }
  }

  lemma PutSame(e: Entries, key: string, i: nat)
    requires IsFirst(e, key, i)
    ensures Lookup(e, key) == Some(e[i].value)
    ensures forall v :: Put(e, key, v) == e[i := Entry(key, v)]
  {
    LookupFirst(e, key, i);
    forall v ensures Put(e, key, v) == e[i := Entry(key, v)] {
      PutAt(e, key, v, i);
    }
  }

  /** Where the path ends early, nothing is unset. */
  lemma {:induction false} NothingToUnset(w: Way, rest: seq<string>)
    requires Leads(w)
    requires |rest| >= 2 && (Lookup(w.f, rest[0]).Some? ==> !Lookup(w.f, rest[0]).value.Record?)
    ensures UnsetAt(w.e, w.parts + rest) == w.e
    decreases w.parts
  {
    if w.parts == [] {
      assert w.parts + rest == rest;
    } else {
      var i: nat :| LeadsBy(w, i);
      NothingToUnset(Rest(w, i), rest);
      var all := w.parts + rest;
      assert all[0] == w.parts[0] && all[1..] == w.parts[1..] + rest;
      PutSame(w.e, w.parts[0], i);
      assert w.e[i := Entry(w.parts[0], w.e[i].value)] == w.e;
    }
  }

  lemma WithoutBehindFront(x: Entry, e: Entries, i: nat)
    requires i < |e|
    ensures ([x] + e)[..i + 1] + ([x] + e)[i + 2..] == [x] + (e[..i] + e[i + 1..])
  {
  }

  lemma DeleteFront(x: Entry, e: Entries, key: string)
    ensures Delete([x] + e, key) == if x.key == key then e else [x] + Delete(e, key)
  {
    assert ([x] + e)[1..] == e;
  }

  lemma {:induction false} DeleteAt(e: Entries, key: string, i: nat)
    requires i <= |e| && (forall j :: 0 <= j < i ==> e[j].key != key) && (i < |e| ==> e[i].key == key)
    ensures Delete(e, key) == if i < |e| then e[..i] + e[i + 1..] else e
  {
    if i == 0 {
      assert e != [] ==> e[..0] + e[1..] == e[1..];
    } else {
      hide Delete;
      var x, rest := e[0], e[1..];
      assert e == [x] + rest;
      DeleteFront(x, rest, key);
      DeleteAt(rest, key, i - 1);
      if i < |e| {
        WithoutBehindFront(x, rest, i - 1);
      }
    }
  }

  /** A key of a record deep down is deleted. */
  datatype Deletion = Deletion(way: Way, key: string)

  /** Only the end of the way has changed: it holds one key less, in the same objects. */
  twostate predicate IsDone(d: Deletion)
    reads d.way.top, d.way.end, d.way.end.repr, d.way.top.repr
  {
    && d.way.top.repr == old(d.way.top.repr) && d.way.end.repr == old(d.way.end.repr)
    && Holds(d.way.end, Delete(d.way.f, d.key))
    && forall o <- d.way.top.repr :: o != d.way.end ==> unchanged(o)
  }

  twostate lemma {:induction false} LedInside(w: Way)
    requires old(Holds(w.top, w.e) && Leads(w))
    ensures old(w.end in w.top.repr)
    decreases w.parts
  {
    if w.parts == [] {
    } else {
      var i: nat :| old(LeadsBy(w, i));
      LedInside(old(Rest(w, i)));
    }
  }

  /** Then the path is unset in the record at the top. */
  twostate lemma {:induction false} DeletedBelow(d: Deletion)
    requires old(Holds(d.way.top, d.way.e) && Leads(d.way)) && IsDone(d)
    ensures Holds(d.way.top, UnsetAt(d.way.e, d.way.parts + [d.key]))
    decreases d.way.parts
  {
    var w := d.way;
    if w.parts == [] {
      assert w.parts + [d.key] == [d.key];
    } else {
      var i: nat :| old(LeadsBy(w, i));
      var below := old(Rest(w, i));
      LedInside(below);
      DeletedBelow(Deletion(below, d.key));
      var v := Record(UnsetAt(below.e, below.parts + [d.key]));
      var e' := w.e[i := Entry(w.parts[0], v)];
      UnsetFurther(w.e, w.parts, d.key, i);
      assert w.top != w.end && w.top.fields == old(w.top.fields);
      forall j | 0 <= j < |w.e| && j != i
        ensures ReprOf(w.top.fields[j].cell) == old(ReprOf(w.top.fields[j].cell)) &&
                  IsCell(w.top.fields[j].cell, w.e[j].value)
      {
        assert old(ReprOf(w.top.fields[j].cell) !! ReprOf(w.top.fields[i].cell));
        assert old(IsCell(w.top.fields[j].cell, w.e[j].value));
        assert unchanged(old(ReprOf(w.top.fields[j].cell)));
      }
      Assemble(w.top, e');
    }
  }

  lemma UnsetFurther(e: Entries, parts: seq<string>, key: string, i: nat)
    requires parts != [] && IsFirst(e, parts[0], i) && e[i].value.Record?
    ensures var below := UnsetAt(e[i].value.entries, parts[1..] + [key]);
            UnsetAt(e, parts + [key]) == e[i := Entry(parts[0], Record(below))]
  {
    var all := parts + [key];
    assert all[0] == parts[0] && all[1..] == parts[1..] + [key];
    PutSame(e, parts[0], i);
  }

  lemma WithoutAt<T>(s: seq<T>, k: nat, j: nat)
    requires k < |s| && j < |s| - 1
    ensures (s[..k] + s[k + 1..])[j] == s[if j < k then j else j + 1]
  {
  }

  method DeleteField(target: RawRecord, k: nat, ghost f: Entries)
    requires Holds(target, f) && k < |target.fields|
    modifies target
    ensures Holds(target, f[..k] + f[k + 1..]) && target.repr == old(target.repr)
  {
    AllCells(target, f);
    hide *;
    ghost var was, g := target.fields, f[..k] + f[k + 1..];
    target.fields := target.fields[..k] + target.fields[k + 1..];
    forall j | 0 <= j < |g|
      ensures var m := if j < k then j else j + 1;
              && target.fields[j] == was[m] && g[j] == f[m]
              && ReprOf(target.fields[j].cell) == old(ReprOf(was[m].cell))
              && IsCell(target.fields[j].cell, g[j].value)
    {
      var m := if j < k then j else j + 1;
      WithoutAt(was, k, j);
      WithoutAt(f, k, j);
      assert old(IsCell(was[m].cell, f[m].value) && target !in ReprOf(was[m].cell));
    }
    Assemble(target, g);
  }

  /** `delete target[key]` */
  method DeleteKey(target: RawRecord, key: string, ghost f: Entries)
    requires Holds(target, f)
    modifies target
    ensures Holds(target, Delete(f, key)) && target.repr == old(target.repr)
  {
    FieldsOf(target, f);
    var k := Find(target, key);
    DeleteAt(f, key, k);
    hide *;
    if k < |target.fields| {
      DeleteField(target, k, f);
    }
  }

  /** One part of the path: the record below, if there is one. */
  method Below(target: RawRecord, key: string, ghost w: Way, ghost rest: seq<string>)
    returns (next: Cell, ghost g: Entries)
    requires Holds(w.top, w.e) && Leads(w) && target == w.end && |rest| >= 2 && rest[0] == key
    ensures next.Node? ==> Leads(Way(w.top, w.e, w.parts + [key], next.record, g))
    ensures next.Plain? ==> UnsetAt(w.e, w.parts + rest) == w.e
  {
    g := w.f;
    LeadsInside(w);
    FieldsOf(target, w.f);
    var k := Find(target, key);
    LookupFirst(w.f, key, k);
    hide Holds, Leads, UnsetAt, Lookup;
    if k < |target.fields| {
      CellOf(target, w.f, k);
      next := target.fields[k].cell;
      if next.Node? {
        g := w.f[k].value.entries;
        LeadsFurther(w, Way(target, w.f, [key], next.record, g), k);
      } else {
        NothingToUnset(w, rest);
      }
    } else {
      next := Plain(Undefined);
      NothingToUnset(w, rest);
    }
  }

  /** The loop of the source: the record that the parts but for the last one lead to, if there is one. */
  method Descend(record: RawRecord, parts: seq<string>, ghost e: Entries) returns (end: Cell, ghost f: Entries)
    requires Holds(record, e) && parts != []
    ensures end.Node? ==> Leads(Way(record, e, parts[..|parts| - 1], end.record, f))
    ensures end.Plain? ==> UnsetAt(e, parts) == e
  {
    var last := |parts| - 1;
    var target := record;
    f := e;
    assert Leads(Way(record, e, parts[..0], target, f));
    hide *;
    for i := 0 to last
      invariant Leads(Way(record, e, parts[..i], target, f))
    {
      assert parts[..i] + parts[i..] == parts && parts[..i + 1] == parts[..i] + [parts[i]];
      end, f := Below(target, parts[i], Way(record, e, parts[..i], target, f), parts[i..]);
      if end.Plain? {
        return;
      }
      target := end.record;
    }
    end := Node(target);
  }

  method DeleteBelow(target: RawRecord, key: string, ghost w: Way)
    requires Holds(w.top, w.e) && Leads(w) && target == w.end
    modifies w.top.repr
    ensures Holds(w.top, UnsetAt(w.e, w.parts + [key])) && w.top.repr == old(w.top.repr)
  {
    LeadsInside(w);
    hide Leads, UnsetAt, Delete;
    DeleteKey(target, key, w.f);
    DeletedBelow(Deletion(w, key));
  }

  method UnsetPath(record: RawRecord, path: string, bad: KeyFilter, ghost e: Entries)
    requires Holds(record, e)
    modifies record.repr
    ensures Holds(record, Unset(e, path, bad)) && record.repr == old(record.repr)
  {
    var parts := Parts(path, "");
    if exists p <- parts :: bad(p) {
      return;
    }
    if |parts| == 0 {
      return;
    }
    var end, f := Descend(record, parts, e);
    if end.Plain? {
      return;
    }
    ghost var way := Way(record, e, parts[..|parts| - 1], end.record, f);
    assert parts == way.parts + [parts[|parts| - 1]];
    DeleteBelow(end.record, parts[|parts| - 1], way);
  }
}
