/**
 Injecting and removing guidance in a file (`injectGuidance` and `removeGuidance` in
 src/config/markers.ts). The content sanitizer is a given function.
 */
module Guidance {
  import opened Text
  import opened Blocks
  import opened BlockOrder
  import opened Markers
  import opened Sorting
  import opened Wrappers

  // ---------- the section of a file ----------

  datatype Parts = Parts(before: string, inner: string, after: string)

  /** The file cut at its first start marker and first end marker, if they are in this order. */
  function Locate(f: string): Option<Parts> {
    var s, e := IndexOf(f, StartMarker()), IndexOf(f, EndMarker());
    if s != -1 && e != -1 && e > s then
      var innerFrom := s + |StartMarker()|;
      Some(Parts(f[..s], if innerFrom <= e then f[innerFrom..e] else "", f[e + |EndMarker()|..]))
    else None
  }

  /** A file without a section is all "before". */
  function Cut(f: string): Parts {
    match Locate(f)
    case Some(p) => p
    case None => Parts(f, "", "")
  }

  function Existing(f: string): seq<Block> {
    match Locate(f)
    case Some(p) => ParseBlocks(p.inner)
    case None => []
  }

  /** A section can be told apart: either it has both markers in order, or neither occurs. */
  ghost predicate IsWellFormed(f: string) {
    Locate(f).Some? || (!Contains(f, StartMarker()) && !Contains(f, EndMarker()))
  }

  function Section(body: string): string {
    "\n" + StartMarker() + "\n" + body + "\n" + EndMarker() + "\n"
  }

  /** The file with the section taken out. */
  function WithoutSection(p: Parts): string { TrimEnd(p.before) + p.after }

  function WithSection(p: Parts, blocks: seq<Block>): string {
    TrimEnd(p.before) + Section(RenderBlocks(blocks)) + TrimStart(p.after)
  }

  // ---------- what the operations write ----------

  predicate IsValidId(id: string) {
    id != "" && forall c <- id :: 'a' <= c <= 'z' || 'A' <= c <= 'Z' || '0' <= c <= '9' || c == '_' || c == '-'
  }

  function InjectedText(f: string, blocks: seq<Block>, sanitize: string -> string): string {
    var merged := Merge(Existing(f), blocks, sanitize);
    if merged != [] then WithSection(Cut(f), merged)
    else if IndexOf(f, StartMarker()) == -1 then f
    else WithoutSection(Cut(f))
  }

  function DropAll(m: seq<Block>, ids: seq<string>): seq<Block> {
    if ids == [] then m else Drop(DropAll(m, ids[..|ids| - 1]), ids[|ids| - 1])
  }

  /** The ids of the list that are there when their turn comes. */
  function Dropped(m: seq<Block>, ids: seq<string>): seq<string> {
    if ids == [] then []
    else
      var before, last := ids[..|ids| - 1], ids[|ids| - 1];
      Dropped(m, before) + if HasId(DropAll(m, before), last) then [last] else []
  }

  function RemovedText(f: string, ids: Option<seq<string>>): string {
    match Locate(f)
    case None => f
    case Some(p) =>
      if ids.None? then WithoutSection(p)
      else
        var m := ParseBlocks(p.inner);
        var rest := DropAll(m, ids.value);
        if Dropped(m, ids.value) == [] then f
        else if rest == [] then WithoutSection(p)
        else WithSection(p, rest)
  }

  /** Ids reported as added and as removed by an injection. */
  function Added(blocks: seq<Block>): seq<string> {
    if blocks == [] then []
    else
      var last := blocks[|blocks| - 1];
      Added(blocks[..|blocks| - 1]) + if last.content != "" then [last.id] else []
  }

  function Deleted(m: seq<Block>, blocks: seq<Block>, sanitize: string -> string): seq<string> {
    if blocks == [] then []
    else
      var before, last := blocks[..|blocks| - 1], blocks[|blocks| - 1];
      Deleted(m, before, sanitize) +
      if last.content == "" && HasId(Merge(m, before, sanitize), last.id) then [last.id] else []
  }

  datatype Outcome =
    | InvalidId
    | Done(modified: bool, added: seq<string>, removed: seq<string>)

  predicate AllValid(blocks: seq<Block>) {
    forall b <- blocks :: IsValidId(b.id)
  }

  lemma ExistingOf(f: string, existing: seq<Block>)
    requires existing == match Locate(f) case Some(p) => ParseBlocks(p.inner) case None => []
    ensures existing == Existing(f)
  {
  }

  lemma InjectedCases(f: string, blocks: seq<Block>, sanitize: string -> string, merged: seq<Block>)
    requires merged == Merge(Existing(f), blocks, sanitize)
    ensures InjectedText(f, blocks, sanitize) ==
            if |merged| == 0 && IndexOf(f, StartMarker()) == -1 then f
            else if |merged| == 0 then WithoutSection(Cut(f))
            else WithSection(Cut(f), merged)
    ensures merged == [] <==> |merged| == 0
  {
  }

  /** The loop over the requested blocks. */
  method MergeBlocks(existing: seq<Block>, blocks: seq<Block>, sanitize: string -> string)
    returns (merged: seq<Block>, added: seq<string>, removed: seq<string>)
    ensures merged == Merge(existing, blocks, sanitize)
    ensures added == Added(blocks) && removed == Deleted(existing, blocks, sanitize)
  {
    merged, added, removed := existing, [], [];
    for i := 0 to |blocks|
      invariant merged == Merge(existing, blocks[..i], sanitize)
      invariant added == Added(blocks[..i]) && removed == Deleted(existing, blocks[..i], sanitize)
    {
      var b := blocks[i];
      assert blocks[..i + 1][..i] == blocks[..i];
      if b.content == "" {
        if HasId(merged, b.id) {
          removed := removed + [b.id];
        }
        merged := Drop(merged, b.id);
      } else {
        merged := Put(merged, b.(content := sanitize(b.content)));
        added := added + [b.id];
      }
    }
    assert blocks[..|blocks|] == blocks;
  }

  /** The loop over the ids to remove. */
  method DropBlocks(existing: seq<Block>, ids: seq<string>) returns (m: seq<Block>, removed: seq<string>)
    ensures m == DropAll(existing, ids) && removed == Dropped(existing, ids)
  {
    m, removed := existing, [];
    hide Drop, HasId;
    for i := 0 to |ids|
      invariant m == DropAll(existing, ids[..i]) && removed == Dropped(existing, ids[..i])
    {
      assert ids[..i + 1][..i] == ids[..i];
      if HasId(m, ids[i]) {
        removed := removed + [ids[i]];
      }
      m := Drop(m, ids[i]);
    }
    assert ids[..|ids|] == ids;
  }

  class GuidanceFile {
    /** `None` is a file that does not exist. */
    var text: Option<string>

    constructor (initial: Option<string>)
      ensures text == initial
    {
      text := initial;
    }

    function Content(): string
      reads this
    {
      if text.Some? then text.value else ""
    }

    method Inject(blocks: seq<Block>, sanitize: string -> string) returns (r: Outcome)
      modifies this
      ensures r == InvalidId <==> !AllValid(blocks)
      ensures r == InvalidId ==> text == old(text)
      ensures r != InvalidId ==>
                var f := old(Content());
                var g := InjectedText(f, blocks, sanitize);
                && text == (if g == f then old(text) else Some(g))
                && r.modified == (g != f)
                && r.added == (if g != f && Merge(Existing(f), blocks, sanitize) != [] then Added(blocks) else [])
                && r.removed == (if Merge(Existing(f), blocks, sanitize) != [] || IndexOf(f, StartMarker()) != -1 then
                                   Deleted(Existing(f), blocks, sanitize)
                                 else [])
    {
      hide *;
      if !AllValid(blocks) {
        return InvalidId;
      }
      var original := Content();
      var existing := [];
      var parts := Locate(original);
      if parts.Some? {
        existing := ParseExistingBlocks(parts.value.inner);
      }
      ExistingOf(original, existing);
      var cut := Cut(original);
      var merged, added, removed := MergeBlocks(existing, blocks, sanitize);
      InjectedCases(original, blocks, sanitize, merged);
      if |merged| == 0 && IndexOf(original, StartMarker()) == -1 {
        return Done(false, [], []);
      }
      var next := if |merged| == 0 then WithoutSection(cut) else WithSection(cut, merged);
      if next == original {
        return Done(false, [], removed);
      }
      text := Some(next);
      return Done(true, if |merged| == 0 then [] else added, removed);
    }

    /** Without a list of ids the whole section goes, and the ids of all opening tags in it are reported. */
    method Remove(ids: Option<seq<string>>) returns (modified: bool, removed: seq<string>)
      modifies this
      ensures var next := RemovedText(old(Content()), ids);
              text == if old(Content()) == next then old(text) else Some(next)
      ensures ids.None? ==>
                && modified == (RemovedText(old(Content()), ids) != old(Content()))
                && removed == if modified then OpenIds(Cut(old(Content())).inner) else []
      ensures ids.Some? ==> removed == Dropped(Existing(old(Content())), ids.value) && modified == (removed != [])
    {
      if text.None? {
        NothingInEmptyText(ids);
        return false, [];
      }
      var original := text.value;
      var parts := Locate(original);
      if parts.None? {
        if ids.Some? {
          NothingToDrop(ids.value);
        }
        return false, [];
      }
      var p := parts.value;
      hide Locate, Drop, HasId, WithSection, WithoutSection, Dropped, DropAll, ParseBlocks;
      if ids.None? {
        var next := WithoutSection(p);
        if next == original {
          return false, [];
        }
        var allIds := ExtractGuidanceIds(p.inner);
        text := Some(next);
        return true, allIds;
      }
      var existing := ParseExistingBlocks(p.inner);
      var m, gone := DropBlocks(existing, ids.value);
      removed := gone;
      if |removed| == 0 {
        return false, [];
      }
      text := Some(if |m| == 0 then WithoutSection(p) else WithSection(p, m));
      return true, removed;
    }
  }

  lemma {:induction false} NothingToDrop(ids: seq<string>)
    ensures DropAll([], ids) == [] && Dropped([], ids) == []
  {
    if ids == [] {
    } else {
      NothingToDrop(ids[..|ids| - 1]);
    }
  }

  lemma NothingInEmptyText(ids: Option<seq<string>>)
    ensures Locate("") == None
    ensures ids.Some? ==> Dropped([], ids.value) == []
  {
    if ids.Some? {
      NothingToDrop(ids.value);
    }
  }
}
