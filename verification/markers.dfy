/**
 Managed guidance blocks inside a text file (src/config/markers.ts): printing blocks, and reading
 them back with the semantics of the source's regular expression.
 */
module Markers {
  import opened Text
  import opened Blocks
  import opened Sorting
  import opened BlockOrder
  import opened Wrappers

  function StartMarker(): string { "<!-- PI-CREW:GUIDANCE:START -->" }

  function EndMarker(): string { "<!-- PI-CREW:GUIDANCE:END -->" }

  function OpenPrefix(): string { "<!-- PI-CREW:BLOCK:" }

  function ClosePrefix(): string { "<!-- PI-CREW:/BLOCK:" }

  function TagSuffix(): string { " -->" }

  function OpenTag(id: string): string { OpenPrefix() + id + TagSuffix() }

  function CloseTag(id: string): string { ClosePrefix() + id + TagSuffix() }

  // ---------- printing ----------

  function RenderBlock(b: Block): string {
    OpenTag(b.id) + "\n" + b.content + "\n" + CloseTag(b.id)
  }

  function Join(blocks: seq<Block>): string {
    if blocks == [] then ""
    else if |blocks| == 1 then RenderBlock(blocks[0])
    else RenderBlock(blocks[0]) + "\n\n" + Join(blocks[1..])
  }

  /** Most urgent first, one blank line between blocks. */
  function RenderBlocks(blocks: seq<Block>): string { Join(Printed(blocks)) }

  // ---------- reading ----------

  /** White space of regular expressions. */
  predicate IsSpace(c: char) {
    c in "\t\n\r \U{0B}\U{0C}\U{A0}\U{FEFF}\U{1680}\U{2028}\U{2029}\U{202F}\U{205F}\U{3000}"
    || '\U{2000}' <= c <= '\U{200A}'
  }

  predicate IsIdChar(c: char) { !IsSpace(c) && c != '>' }

  predicate IsId(id: string) { id != "" && forall c <- id :: IsIdChar(c) }

  /** The longest beginning made of id characters. */
  function TakeId(s: string): (id: string)
    ensures id <= s && forall c <- id :: IsIdChar(c)
    ensures |id| < |s| ==> !IsIdChar(s[|id|])
  {
    if s != "" && IsIdChar(s[0]) then [s[0]] + TakeId(s[1..]) else ""
  }

  datatype Match = Match(id: string, inner: string, rest: string)

  datatype Opening = Opening(id: string, rest: string)

  /** An opening tag and a newline at the very beginning of `s`. The id cannot match in another way,
      because the blank after it is no id character. */
  function OpeningAt(s: string): (r: Option<Opening>)
    ensures r.Some? ==> |r.value.rest| < |s|
  {
    if !(OpenPrefix() <= s) then None
    else
      var t := s[|OpenPrefix()|..];
      var id := TakeId(t);
      var u := t[|id|..];
      if id == "" || !(TagSuffix() + "\n" <= u) then None
      else Some(Opening(id, u[|TagSuffix()| + 1..]))
  }

  /** A match of the block expression at the very beginning of `s`: opening tag, newline, the
      shortest text before the closing tag of the same id. */
  function MatchAt(s: string): (r: Option<Match>)
    ensures r.Some? ==> |r.value.rest| < |s|
  {
    match OpeningAt(s)
    case None => None
    case Some(o) =>
      var v, k := o.rest, IndexOf(o.rest, CloseTag(o.id));
      if k == -1 then None else Some(Match(o.id, v[..k], v[k + |CloseTag(o.id)|..]))
  }

  /** All matches from left to right, as blocks without priority. */
  function Matches(s: string): seq<Block>
    decreases |s|
  {
    if s == "" then []
    else
      match MatchAt(s)
      case None => Matches(s[1..])
      case Some(m) => [Found(m)] + Matches(m.rest)
  }

  /** A later match of an id replaces the content of an earlier one but keeps its place. */
  function Collect(found: seq<Block>): seq<Block> {
    if found == [] then [] else Put(Collect(found[..|found| - 1]), found[|found| - 1])
  }

  function ParseBlocks(inner: string): seq<Block> { Collect(Matches(inner)) }

  lemma NothingCollected()
    ensures Collect([]) == [] && Matches("") == []
  {
  }

  lemma CollectOneMore(found: seq<Block>, b: Block)
    ensures Collect(found + [b]) == Put(Collect(found), b)
  {
    assert (found + [b])[..|found|] == found;
  }

  function Found(m: Match): Block { Block(m.id, DropNewline(m.inner), 0) }

  /** The matches of `inner` are those found so far and those of the text still to be read. */
  ghost predicate Reading(inner: string, found: seq<Block>, rest: string) {
    Matches(inner) == found + Matches(rest)
  }

  lemma ReadOn(inner: string, found: seq<Block>, rest: string)
    requires Reading(inner, found, rest) && rest != ""
    ensures match MatchAt(rest)
            case None => Reading(inner, found, rest[1..])
            case Some(m) => Reading(inner, found + [Found(m)], m.rest)
  {
    if MatchAt(rest).Some? {
      var m := MatchAt(rest).value;
      assert Matches(rest) == [Found(m)] + Matches(m.rest);
      assert found + ([Found(m)] + Matches(m.rest)) == found + [Found(m)] + Matches(m.rest);
    }
  }

  lemma ReadToEnd(inner: string, found: seq<Block>)
    requires Reading(inner, found, "")
    ensures ParseBlocks(inner) == Collect(found)
  {
    assert found + [] == found;
  }

  lemma ReadFromStart(inner: string)
    ensures Reading(inner, [], inner) && Collect([]) == []
  {
  }

  /** The loop over the matches, filling a map. */
  method ParseExistingBlocks(inner: string) returns (m: seq<Block>)
    ensures m == ParseBlocks(inner)
  {
    hide *;
    m := [];
    var rest := inner;
    ghost var found: seq<Block> := [];
    ReadFromStart(inner);
    while rest != ""
      invariant m == Collect(found) && Reading(inner, found, rest)
      decreases |rest|
    {
      ReadOn(inner, found, rest);
      var hit := MatchAt(rest);
      if hit.Some? {
        CollectOneMore(found, Found(hit.value));
        m := Put(m, Found(hit.value));
        found := found + [Found(hit.value)];
        rest := hit.value.rest;
      } else {
        rest := rest[1..];
      }
    }
    ReadToEnd(inner, found);
  }

  // ---------- reading back what was printed ----------

  /** A block that can be printed and read back: its content does not hold its own closing tag. */
  ghost predicate IsReadable(b: Block) {
    IsId(b.id) && !Contains(b.content, CloseTag(b.id))
  }

  lemma {:induction false} TakeIdStops(id: string, rest: string)
    requires (forall c <- id :: IsIdChar(c)) && rest != "" && !IsIdChar(rest[0])
    ensures TakeId(id + rest) == id
  {
    if id == "" {
      assert id + rest == rest;
    } else {
      assert (id + rest)[1..] == id[1..] + rest;
      TakeIdStops(id[1..], rest);
    }
  }

  lemma CloseTagHasNoNewline(id: string)
    requires IsId(id)
    ensures '\n' !in CloseTag(id) && CloseTag(id) != ""
  {
    assert forall c <- id :: c != '\n';
  }

  /** The text after an opening tag and its newline. */
  function AfterOpening(id: string, v: string): string { OpenPrefix() + id + TagSuffix() + "\n" + v }

  lemma TagSuffixFacts()
    ensures |TagSuffix()| == 4 && TagSuffix()[0] == ' ' && !IsIdChar(' ')
  {
  }

  lemma MatchAfterOpening(id: string, v: string)
    requires IsId(id)
    ensures var k := IndexOf(v, CloseTag(id));
            MatchAt(AfterOpening(id, v)) ==
            if k == -1 then None else Some(Match(id, v[..k], v[k + |CloseTag(id)|..]))
  {
    hide IndexOf, CloseTag, OpenPrefix, TagSuffix, IsIdChar, TakeId, Contains, At;
    TagSuffixFacts();
    var s := AfterOpening(id, v);
    var u := TagSuffix() + "\n" + v;
    assert s == OpenPrefix() + (id + u);
    assert s[|OpenPrefix()|..] == id + u;
    TakeIdStops(id, u);
    assert (id + u)[|id|..] == u;
    assert u[|TagSuffix()| + 1..] == v;
  }

  lemma MatchPrinted(b: Block, rest: string)
    requires IsReadable(b)
    ensures MatchAt(RenderBlock(b) + rest) == Some(Match(b.id, b.content + "\n", rest))
  {
    hide MatchAt, IndexOf, CloseTag, OpenPrefix, TagSuffix;
    var v := b.content + "\n" + CloseTag(b.id) + rest;
    assert RenderBlock(b) + rest == AfterOpening(b.id, v);
    MatchAfterOpening(b.id, v);
    CloseTagHasNoNewline(b.id);
    IndexAfterNewline(b.content, rest, CloseTag(b.id));
    var k := |b.content| + 1;
    assert v[..k] == b.content + "\n";
    assert v[k + |CloseTag(b.id)|..] == rest;
  }

  lemma MatchesPrinted(b: Block, rest: string)
    requires IsReadable(b)
    ensures Matches(RenderBlock(b) + rest) == [b.(priority := 0)] + Matches(rest)
  {
    MatchPrinted(b, rest);
    assert (b.content + "\n")[..|b.content|] == b.content;
  }

  lemma MatchesSkipNewline(s: string)
    ensures Matches("\n" + s) == Matches(s)
  {
    assert ("\n" + s)[0] == '\n' && OpenPrefix()[0] == '<';
    assert ("\n" + s)[1..] == s;
  }

  /** Reading printed blocks gives back the same ids and contents in the same order, for any
      contents that do not hold their own closing tag. */
  lemma MatchesJoinedOne(b: Block)
    requires IsReadable(b)
    ensures Matches(Join([b]) + "\n") == Unranked([b])
  {
    assert Join([b]) == RenderBlock(b);
    hide Matches, RenderBlock;
    MatchesPrinted(b, "\n");
    MatchesSkipNewline("");
    NothingCollected();
    assert "\n" + "" == "\n";
  }

  lemma {:induction false} MatchesJoined(blocks: seq<Block>)
    requires forall b <- blocks :: IsReadable(b)
    ensures Matches(Join(blocks) + "\n") == Unranked(blocks)
  {
    hide *;
    if blocks == [] {
      MatchesJoinedNone();
    } else if |blocks| == 1 {
      MatchesJoinedOne(blocks[0]);
      assert blocks == [blocks[0]];
    } else {
      var tail := Join(blocks[1..]) + "\n";
      JoinedTail(blocks);
      MatchesPrinted(blocks[0], "\n" + ("\n" + tail));
      MatchesSkipNewline("\n" + tail);
      MatchesSkipNewline(tail);
      MatchesJoined(blocks[1..]);
      UnrankedTail(blocks);
    }
  }

  lemma MatchesJoinedNone()
    ensures Matches(Join([]) + "\n") == Unranked([])
  {
    MatchesSkipNewline("");
    NothingCollected();
    assert Join([]) + "\n" == "\n" + "";
  }

  lemma UnrankedTail(blocks: seq<Block>)
    requires blocks != []
    ensures Unranked(blocks) == [blocks[0].(priority := 0)] + Unranked(blocks[1..])
  {
  }

  lemma JoinedTail(blocks: seq<Block>)
    requires |blocks| >= 2
    ensures Join(blocks) + "\n" == RenderBlock(blocks[0]) + ("\n" + ("\n" + (Join(blocks[1..]) + "\n")))
  {
    var r, j := RenderBlock(blocks[0]), Join(blocks[1..]);
    assert Join(blocks) == r + "\n\n" + j;
    hide *;
    RegroupNewlines(r, j);
  }

  lemma RegroupNewlines(r: string, j: string)
    ensures r + "\n\n" + j + "\n" == r + ("\n" + ("\n" + (j + "\n")))
  {
  }

  lemma {:induction false} CollectDistinct(found: seq<Block>)
    requires DistinctIds(found)
    ensures Collect(found) == found
  {
    if found == [] {
    } else {
      var before := found[..|found| - 1];
      CollectDistinct(before);
      assert found == before + [found[|found| - 1]];
      assert !HasId(before, found[|found| - 1].id);
    }
  }

  /** The round trip of the printed section body. */
  lemma ParsePrinted(blocks: seq<Block>)
    requires DistinctIds(blocks) && forall b <- blocks :: IsReadable(b)
    ensures ParseBlocks("\n" + Join(blocks) + "\n") == Unranked(blocks)
  {
    assert "\n" + Join(blocks) + "\n" == "\n" + (Join(blocks) + "\n");
    MatchesSkipNewline(Join(blocks) + "\n");
    MatchesJoined(blocks);
    UnrankedIds(blocks);
    CollectDistinct(Unranked(blocks));
  }

  // ---------- what reading yields ----------

  lemma PrefixFreeOfFirst(v: string, pat: string, k: nat)
    requires k <= |v| && forall i :: 0 <= i < k ==> !At(v, pat, i)
    requires pat != ""
    ensures !Contains(v[..k], pat)
  {
    forall i | At(v[..k], pat, i) ensures At(v, pat, i) && 0 <= i < k {
      assert v[..k][i..i + |pat|] == v[i..i + |pat|];
    }
  }

  lemma DropNewlineContainsLess(s: string, pat: string)
    requires !Contains(s, pat)
    ensures !Contains(DropNewline(s), pat)
  {
    if DropNewline(s) != s {
      assert s == DropNewline(s) + s[|s| - 1..];
      PrefixContainsLess(DropNewline(s), s[|s| - 1..], pat);
    }
  }

  lemma OpeningShape(s: string)
    requires OpeningAt(s).Some?
    ensures var o := OpeningAt(s).value; IsId(o.id) && s == AfterOpening(o.id, o.rest)
  {
    var o := OpeningAt(s).value;
    hide OpenPrefix, TagSuffix, IsIdChar, TakeId;
    ThreePieces(s, OpenPrefix(), o.id, TagSuffix(), o.rest);
  }

  lemma ThreePieces(s: string, x: string, y: string, z: string, rest: string)
    requires x <= s && y <= s[|x|..] && z + "\n" <= s[|x|..][|y|..] && rest == s[|x|..][|y|..][|z| + 1..]
    ensures s == x + y + z + "\n" + rest
  {
    var u := s[|x|..][|y|..];
    assert s == x + s[|x|..] && s[|x|..] == y + u && u == z + "\n" + rest;
  }

  /** What a match says about the text. */
  lemma MatchShape(s: string) returns (v: string)
    requires MatchAt(s).Some?
    ensures var m := MatchAt(s).value;
            var tag := CloseTag(m.id);
            var k := IndexOf(v, tag);
            IsId(m.id) && s == AfterOpening(m.id, v) && k != -1 && m.inner == v[..k] && m.rest == v[k + |tag|..]
  {
    OpeningShape(s);
    hide OpeningAt, IndexOf, CloseTag, AfterOpening, IsId;
    v := OpeningAt(s).value.rest;
  }

  lemma SuffixContainsLess(x: string, z: string, pat: string)
    requires !Contains(x + z, pat)
    ensures !Contains(z, pat)
  {
    assert x + z + "" == x + z;
    PartContainsLess(x, z, "", pat);
  }

  lemma InnerIsFree(v: string, tag: string, k: int)
    requires k == IndexOf(v, tag) && k != -1 && tag != ""
    ensures 0 <= k && k + |tag| <= |v| && !Contains(DropNewline(v[..k]), tag)
  {
    PrefixFreeOfFirst(v, tag, k);
    DropNewlineContainsLess(v[..k], tag);
  }

  lemma PiecesAreFree(s: string, id: string, v: string, i: nat, j: nat, pat: string)
    requires s == AfterOpening(id, v) && i <= j <= |v| && !Contains(s, pat)
    ensures !Contains(DropNewline(v[..i]), pat) && !Contains(v[j..], pat)
  {
    hide Contains, OpenPrefix, TagSuffix, DropNewline;
    SuffixContainsLess(OpenPrefix() + id + TagSuffix() + "\n", v, pat);
    PiecesContainLess(v, i, j, pat);
    DropNewlineContainsLess(v[..i], pat);
  }

  /** A match is a piece of the text: its id is an id, its content is free of its own closing tag
      and of everything the text is free of. */
  lemma MatchIsReadable(s: string, pat: string)
    requires MatchAt(s).Some?
    ensures var m := MatchAt(s).value;
            && IsReadable(Found(m))
            && (!Contains(s, pat) ==> !Contains(DropNewline(m.inner), pat) && !Contains(m.rest, pat))
  {
    hide *;
    var m := MatchAt(s).value;
    var v := MatchShape(s);
    CloseTagNotEmpty(m.id);
    var k := IndexOf(v, CloseTag(m.id));
    InnerIsFree(v, CloseTag(m.id), k);
    FoundIsReadable(m);
    if !Contains(s, pat) {
      PiecesAreFree(s, m.id, v, k, k + |CloseTag(m.id)|, pat);
    }
  }

  lemma FoundIsReadable(m: Match)
    ensures IsReadable(Found(m)) <==> IsId(m.id) && !Contains(DropNewline(m.inner), CloseTag(m.id))
  {
    hide Contains, DropNewline, CloseTag;
  }

  lemma PiecesContainLess(v: string, i: nat, j: nat, pat: string)
    requires i <= j <= |v| && !Contains(v, pat)
    ensures !Contains(v[..i], pat) && !Contains(v[j..], pat)
  {
    hide Contains;
    assert v == v[..i] + v[i..] && v == v[..j] + v[j..];
    PrefixContainsLess(v[..i], v[i..], pat);
    SuffixContainsLess(v[..j], v[j..], pat);
  }

  lemma CloseTagNotEmpty(id: string)
    ensures CloseTag(id) != ""
  {
  }

  lemma {:induction false} MatchesAreReadable(s: string, pat: string)
    requires !Contains(s, pat)
    ensures forall b <- Matches(s) :: IsReadable(b) && b.priority == 0 && !Contains(b.content, pat)
    decreases |s|
  {
    if s == "" {
    } else {
      if MatchAt(s).Some? {
        MatchIsReadable(s, pat);
        MatchesAreReadable(MatchAt(s).value.rest, pat);
      } else {
        assert s == s[..1] + s[1..] + "";
        PartContainsLess(s[..1], s[1..], "", pat);
        MatchesAreReadable(s[1..], pat);
      }
    }
  }

  lemma {:induction false} CollectIsMap(found: seq<Block>)
    ensures DistinctIds(Collect(found))
    ensures forall b <- Collect(found) :: b in found
  {
    if found == [] {
    } else {
      var before, last := found[..|found| - 1], found[|found| - 1];
      CollectIsMap(before);
      assert found == before + [last];
      if HasId(Collect(before), last.id) {
        PutFacts(Collect(before), last);
      }
    }
  }

  /** Whatever is read, each id is there once, can be printed and read back, and has priority 0. */
  lemma ParsedIsReadable(inner: string, pat: string)
    requires !Contains(inner, pat)
    ensures DistinctIds(ParseBlocks(inner)) && AllUnranked(ParseBlocks(inner))
    ensures forall b <- ParseBlocks(inner) :: IsReadable(b) && !Contains(b.content, pat)
  {
    MatchesAreReadable(inner, pat);
    CollectIsMap(Matches(inner));
  }

  // ---------- the ids of all opening tags ----------

  /** An opening tag at the very beginning of `s`, whatever follows it. */
  function TagAt(s: string): (r: Option<Opening>)
    ensures r.Some? ==> |r.value.rest| < |s|
  {
    if !(OpenPrefix() <= s) then None
    else
      var t := s[|OpenPrefix()|..];
      var id := TakeId(t);
      var u := t[|id|..];
      if id == "" || !(TagSuffix() <= u) then None else Some(Opening(id, u[|TagSuffix()|..]))
  }

  function OpenIds(s: string): seq<string>
    decreases |s|
  {
    if s == "" then []
    else
      match TagAt(s)
      case None => OpenIds(s[1..])
      case Some(o) => [o.id] + OpenIds(o.rest)
  }

  method ExtractGuidanceIds(content: string) returns (ids: seq<string>)
    ensures ids == OpenIds(content)
  {
    ids := [];
    var rest := content;
    hide TagAt;
    while rest != ""
      invariant ids + OpenIds(rest) == OpenIds(content)
      decreases |rest|
    {
      var hit := TagAt(rest);
      if hit.Some? {
        assert ids + ([hit.value.id] + OpenIds(hit.value.rest)) == ids + [hit.value.id] + OpenIds(hit.value.rest);
        ids := ids + [hit.value.id];
        rest := hit.value.rest;
      } else {
        rest := rest[1..];
      }
    }
    assert ids + [] == ids;
  }

  /** The id of each opening tag comes, and text without `<` is passed over. */
  lemma OpenIdsOfTag(id: string, rest: string)
    requires IsId(id)
    ensures OpenIds(OpenTag(id) + rest) == [id] + OpenIds(rest)
  {
    var s, u := OpenTag(id) + rest, TagSuffix() + rest;
    TagSuffixFacts();
    assert u[0] == TagSuffix()[0] && |OpenPrefix()| > 0;
    hide OpenPrefix, TagSuffix, IsIdChar;
    assert s == OpenPrefix() + (id + u);
    assert s[|OpenPrefix()|..] == id + u && OpenPrefix() <= s;
    TakeIdStops(id, u);
    assert (id + u)[|id|..] == u && u[|TagSuffix()|..] == rest;
    hide TakeId;
    assert TagAt(s) == Some(Opening(id, rest));
  }

  lemma {:induction false} OpenIdsPassOver(x: string, s: string)
    requires '<' !in x
    ensures OpenIds(x + s) == OpenIds(s)
    decreases |x|
  {
    if x == "" {
      assert x + s == s;
    } else {
      OpenIdsPassOver(x[1..], s);
      assert (x + s)[0] == x[0] && (x + s)[1..] == x[1..] + s && x[0] in x;
      NoTag(x + s);
      hide TagAt;
    }
  }

  lemma NoTag(s: string)
    requires s != "" && s[0] != '<'
    ensures TagAt(s).None?
  {
    assert OpenPrefix()[0] == '<';
  }

  // ---------- text between the blocks, and ids that come twice ----------

  /** Text in front of a block, or between two, is passed over as long as it holds no `<`. */
  lemma {:induction false} TextIsPassedOver(x: string, s: string)
    requires '<' !in x
    ensures Matches(x + s) == Matches(s)
    decreases |x|
  {
    if x == "" {
      assert x + s == s;
    } else {
      TextIsPassedOver(x[1..], s);
      assert (x + s)[0] == x[0] && (x + s)[1..] == x[1..] + s && x[0] in x;
      NoOpening(x + s);
      hide MatchAt;
    }
  }

  lemma NoOpening(s: string)
    requires s != "" && s[0] != '<'
    ensures MatchAt(s).None?
  {
    assert OpenPrefix()[0] == '<';
  }

  /** Of the blocks found for an id the last one is kept, and nothing else. */
  lemma {:induction false} CollectKeepsLast(found: seq<Block>, i: nat)
    requires i < |found| && forall j :: i < j < |found| ==> found[j].id != found[i].id
    ensures found[i] in Collect(found)
  {
    var n := |found| - 1;
    var before, last := found[..n], found[n];
    CollectIsMap(before);
    if i == n {
      PutIsThere(Collect(before), last);
    } else {
      CollectKeepsLast(before, i);
      PutLeaves(Collect(before), last, found[i]);
    }
  }

  lemma PutIsThere(m: seq<Block>, b: Block)
    ensures b in Put(m, b)
  {
    assert Put(m, b)[Place(m, b.id)] == b;
  }

  lemma PutLeaves(m: seq<Block>, b: Block, x: Block)
    requires x in m && x.id != b.id
    ensures x in Put(m, b)
  {
    var i :| 0 <= i < |m| && m[i] == x;
    assert Put(m, b)[i] == x;
  }

  /** The blocks are in the order in which their ids were first found. */
  lemma {:induction false} CollectKeepsOrder(found: seq<Block>, i: nat, j: nat)
    requires i < j < |Collect(found)|
    ensures Place(found, Collect(found)[i].id) < Place(found, Collect(found)[j].id) < |found|
  {
    if found == [] {
      assert false;
    } else {
      var n := |found| - 1;
      var before, last := found[..n], found[n];
      var c := Collect(before);
      assert found == before + [last];
      CollectIsMap(before);
      PutShape(c, last);
      hide Place, Put, Collect, HasId, DistinctIds;
      if j < |c| {
        CollectKeepsOrder(before, i, j);
        PlaceInLonger(before, last, c[i].id);
        PlaceInLonger(before, last, c[j].id);
      } else {
        CollectedIsFound(before, i);
        PlaceInLonger(before, last, c[i].id);
        CollectHasFound(before, last.id);
        PlaceInLonger(before, last, last.id);
      }
    }
  }

  lemma PutShape(m: seq<Block>, b: Block)
    ensures |Put(m, b)| == |m| + (if HasId(m, b.id) then 0 else 1)
    ensures forall i :: 0 <= i < |m| ==> Put(m, b)[i].id == m[i].id
    ensures !HasId(m, b.id) ==> Put(m, b)[|m|] == b
  {
  }

  lemma PlaceInLonger(m: seq<Block>, b: Block, id: string)
    ensures Place(m + [b], id) == if HasId(m, id) then Place(m, id) else if b.id == id then |m| else |m| + 1
    ensures HasId(m, id) ==> Place(m, id) < |m|
  {
    var k, l := Place(m, id), Place(m + [b], id);
    if HasId(m, id) {
      assert (m + [b])[k].id == id && HasId(m + [b], id);
      assert forall i :: 0 <= i < |m| ==> (m + [b])[i] == m[i];
    } else {
      assert forall i :: 0 <= i < |m| ==> (m + [b])[i].id == m[i].id && m[i].id != id;
      assert (m + [b])[|m|] == b;
      assert b.id == id ==> HasId(m + [b], id);
    }
  }

  lemma CollectedIsFound(found: seq<Block>, i: nat)
    requires i < |Collect(found)|
    ensures HasId(found, Collect(found)[i].id)
  {
    CollectIsMap(found);
    var b := Collect(found)[i];
    assert b in Collect(found);
    var k :| 0 <= k < |found| && found[k] == b;
  }

  lemma {:induction false} CollectHasFound(found: seq<Block>, id: string)
    ensures HasId(found, id) ==> HasId(Collect(found), id)
  {
    if found == [] {
    } else {
      var n := |found| - 1;
      var before, last := found[..n], found[n];
      CollectHasFound(before, id);
      PutShape(Collect(before), last);
      assert found == before + [last];
      if HasId(before, id) {
        var k :| 0 <= k < |Collect(before)| && Collect(before)[k].id == id;
        assert Put(Collect(before), last)[k].id == id;
      } else if last.id == id {
        PutIsThere(Collect(before), last);
        var k :| 0 <= k < |Collect(found)| && Collect(found)[k] == last;
      }
    }
  }
}
