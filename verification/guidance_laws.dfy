/**
 What injecting and removing guidance means for the file as a whole: the section is an ordered map,
 and the text around it is kept up to newlines at the seams.
 */
module GuidanceLaws {
  import opened Text
  import opened Blocks
  import opened BlockOrder
  import opened Markers
  import opened Guidance
  import opened Sorting
  import opened Wrappers

  // ---------- markers and tags do not hold one another ----------

  lemma AtChar(s: string, pat: string, i: int, k: nat)
    requires At(s, pat, i) && k < |pat|
    ensures s[i + k] == pat[k]
  {
    assert s[i..i + |pat|][k] == s[i + k];
  }

  lemma EndMarkerChars(s: string, i: int)
    requires At(s, EndMarker(), i)
    ensures 0 <= i && i + 29 <= |s| && s[i] == '<' && s[i + 1] == '!' && s[i + 2] == '-' && s[i + 3] == '-'
    ensures s[i + 4] == ' ' && s[i + 5] == 'P' && s[i + 13] == 'G' && s[i + 22] == 'E'
  {
    var e := EndMarker();
    assert |e| == 29 && e[0] == '<' && e[1] == '!' && e[2] == '-' && e[3] == '-';
    assert e[4] == ' ' && e[5] == 'P' && e[13] == 'G' && e[22] == 'E';
    hide EndMarker;
    AtChar(s, e, i, 0);
    AtChar(s, e, i, 1);
    AtChar(s, e, i, 2);
    AtChar(s, e, i, 3);
    AtChar(s, e, i, 4);
    AtChar(s, e, i, 5);
    AtChar(s, e, i, 13);
    AtChar(s, e, i, 22);
  }

  lemma MarkerFacts()
    ensures '\n' !in StartMarker() && StartMarker() != "" && '\n' !in EndMarker() && EndMarker() != ""
  {
  }

  lemma StartFreeOfEnd()
    ensures !Contains(StartMarker(), EndMarker())
  {
    var m := StartMarker();
    assert forall k :: 1 <= k < |m| ==> m[k] != '<';
    assert m[22] == 'S';
    hide StartMarker, EndMarker, At;
    forall i | At(m, EndMarker(), i) ensures false {
      EndMarkerChars(m, i);
    }
  }

  lemma PrefixFacts(prefix: string)
    requires prefix == OpenPrefix() || prefix == ClosePrefix()
    ensures |prefix| >= 19 && prefix[13] != 'G' && forall k :: 1 <= k < |prefix| ==> prefix[k] != '<'
  {
  }

  lemma IdHasNoBlank(id: string, k: nat)
    requires IsId(id) && k < |id|
    ensures id[k] != ' '
  {
    assert !IsIdChar(' ');
    assert id[k] in id;
  }

  lemma SuffixFacts(x: string)
    ensures var s := x + TagSuffix(); var n := |x|;
            |s| == n + 4 && s[n] == ' ' && s[n + 1] == '-' && s[n + 2] == '-' && s[n + 3] == '>'
  {
  }

  /** An end marker can begin neither in the prefix of a tag, nor in its id, nor in its suffix. */
  lemma TagFreeOfEnd(prefix: string, id: string)
    requires IsId(id) && (prefix == OpenPrefix() || prefix == ClosePrefix())
    ensures !Contains(prefix + id + TagSuffix(), EndMarker())
  {
    var s, n := prefix + id + TagSuffix(), |prefix| + |id|;
    PrefixFacts(prefix);
    SuffixFacts(prefix + id);
    hide OpenPrefix, ClosePrefix, TagSuffix, EndMarker, At, IsId;
    forall i | At(s, EndMarker(), i) ensures false {
      EndMarkerChars(s, i);
      if |prefix| <= i && i + 4 < n {
        IdHasNoBlank(id, i + 4 - |prefix|);
      }
    }
  }

  // ---------- printed bodies are free of end markers ----------

  /** A block that can be printed into a section and read back from the file. */
  ghost predicate IsStorable(b: Block) {
    IsReadable(b) && !Contains(b.content, EndMarker())
  }

  lemma RenderedFreeOfEnd(b: Block)
    requires IsStorable(b)
    ensures !Contains(RenderBlock(b), EndMarker())
  {
    MarkerFacts();
    TagFreeOfEnd(OpenPrefix(), b.id);
    TagFreeOfEnd(ClosePrefix(), b.id);
    hide Contains, EndMarker, OpenPrefix, ClosePrefix, TagSuffix;
    ContainsAcrossNewline(OpenTag(b.id), b.content, EndMarker());
    ContainsAcrossNewline(OpenTag(b.id) + "\n" + b.content, CloseTag(b.id), EndMarker());
  }

  lemma EmptyFreeOfEnd()
    ensures !Contains("", EndMarker())
  {
  }

  lemma {:induction false} JoinedFreeOfEnd(blocks: seq<Block>)
    requires forall b <- blocks :: IsStorable(b)
    ensures !Contains(Join(blocks), EndMarker())
  {
    EmptyFreeOfEnd();
    if |blocks| == 1 {
      RenderedFreeOfEnd(blocks[0]);
    } else if |blocks| > 1 {
      MarkerFacts();
      var r, j := RenderBlock(blocks[0]), Join(blocks[1..]);
      assert Join(blocks) == r + "\n\n" + j;
      hide Contains, EndMarker, RenderBlock, Join, IsStorable;
      RenderedFreeOfEnd(blocks[0]);
      JoinedFreeOfEnd(blocks[1..]);
      ContainsAcrossNewline(r, "", EndMarker());
      ContainsAcrossNewline(r + "\n" + "", j, EndMarker());
      assert r + "\n" + "" + "\n" + j == r + "\n\n" + j;
    }
  }

  // ---------- finding the section again ----------

  lemma LocatedParts(f: string)
    requires Locate(f).Some?
    ensures var p := Locate(f).value;
            && !Contains(p.before, StartMarker()) && !Contains(p.before, EndMarker()) && !Contains(p.inner, EndMarker())
  {
    MarkerFacts();
    var s, e := IndexOf(f, StartMarker()), IndexOf(f, EndMarker());
    hide StartMarker, EndMarker, IndexOf, Contains;
    PrefixFreeOfFirst(f, StartMarker(), s);
    PrefixFreeOfFirst(f, EndMarker(), e);
    assert f[..e] == f[..s] + f[s..e];
    PrefixContainsLess(f[..s], f[s..e], EndMarker());
    var innerFrom := s + |StartMarker()|;
    if innerFrom <= e {
      assert f[..e] == f[..innerFrom] + f[innerFrom..e];
      SuffixContainsLess(f[..innerFrom], f[innerFrom..e], EndMarker());
    } else {
      EmptyFreeOfEnd();
    }
  }

  lemma CutIsFree(f: string)
    requires IsWellFormed(f)
    ensures !Contains(TrimEnd(Cut(f).before), StartMarker()) && !Contains(TrimEnd(Cut(f).before), EndMarker())
  {
    if Locate(f).Some? {
      LocatedParts(f);
    }
    hide IsWellFormed, StartMarker, EndMarker, Contains, Locate;
    var b := Cut(f).before;
    var t := TrimEnd(b);
    assert b == t + b[|t|..];
    PrefixContainsLess(t, b[|t|..], StartMarker());
    PrefixContainsLess(t, b[|t|..], EndMarker());
  }

  /** The written text seen from its first and from its second marker. */
  lemma Regroup(b: string, sm: string, body: string, em: string, a: string)
    ensures var f := b + ("\n" + sm + "\n" + body + "\n" + em + "\n") + a;
            && f == b + "\n" + sm + ("\n" + body + "\n" + em + "\n" + a)
            && f == (b + "\n" + sm + "\n" + body) + "\n" + em + ("\n" + a)
  {
  }

  lemma SlicesAround(f: string, x: string, m: string, z: string)
    requires f == x + "\n" + m + z
    ensures f[..|x| + 1] == x + "\n" && f[|x| + 1 + |m|..] == z
  {
  }

  lemma SliceBetween(f: string, x: string, y: string, z: string)
    requires f == x + y + z
    ensures f[|x|..|x| + |y|] == y
  {
  }

  lemma LocateAt(f: string, s: nat, e: nat, p: Parts)
    requires IndexOf(f, StartMarker()) == s && IndexOf(f, EndMarker()) == e && s + |StartMarker()| <= e
    requires e + |EndMarker()| <= |f|
    requires p == Parts(f[..s], f[s + |StartMarker()|..e], f[e + |EndMarker()|..])
    ensures Locate(f) == Some(p)
  {
    assert |StartMarker()| > 0;
    hide StartMarker, EndMarker, IndexOf, Contains, At;
  }

  function Written(b: string, body: string, a: string): string { b + Section(body) + a }

  /** What stands before the end marker of the written text, without the newline. */
  function UpToBody(b: string, body: string): string { b + "\n" + StartMarker() + "\n" + body }

  lemma IndexOfStart(b: string, body: string, a: string)
    requires !Contains(b, StartMarker())
    ensures IndexOf(Written(b, body, a), StartMarker()) == |b| + 1
    ensures Written(b, body, a)[..|b| + 1] == b + "\n"
  {
    MarkerFacts();
    hide StartMarker, EndMarker, Contains, IndexOf;
    var z := "\n" + body + "\n" + EndMarker() + "\n" + a;
    Regroup(b, StartMarker(), body, EndMarker(), a);
    IndexAfterNewline(b, z, StartMarker());
    SlicesAround(Written(b, body, a), b, StartMarker(), z);
  }

  lemma IndexOfEnd(b: string, body: string, a: string)
    requires !Contains(b, EndMarker()) && !Contains(body, EndMarker())
    ensures var e := |UpToBody(b, body)| + 1;
            && IndexOf(Written(b, body, a), EndMarker()) == e
            && e + |EndMarker()| <= |Written(b, body, a)|
            && Written(b, body, a)[e + |EndMarker()|..] == "\n" + a
  {
    MarkerFacts();
    WrittenFreeOfEnd(b, body);
    hide StartMarker, EndMarker, Contains, IndexOf;
    Regroup(b, StartMarker(), body, EndMarker(), a);
    IndexAfterNewline(UpToBody(b, body), "\n" + a, EndMarker());
    SlicesAround(Written(b, body, a), UpToBody(b, body), EndMarker(), "\n" + a);
  }

  /** Text with a section in it, cut where the section says. */
  lemma LocateWritten(b: string, body: string, a: string)
    requires !Contains(b, StartMarker()) && !Contains(b, EndMarker()) && !Contains(body, EndMarker())
    ensures Locate(Written(b, body, a)) == Some(Parts(b + "\n", "\n" + body + "\n", "\n" + a))
  {
    hide *;
    var f, p := Written(b, body, a), Parts(b + "\n", "\n" + body + "\n", "\n" + a);
    IndexOfStart(b, body, a);
    IndexOfEnd(b, body, a);
    InnerOfWritten(b, body, a);
    LengthOfUpToBody(b, body);
    LocateAt(f, |b| + 1, |UpToBody(b, body)| + 1, p);
  }

  lemma LengthOfUpToBody(b: string, body: string)
    ensures |b| + 1 + |StartMarker()| <= |UpToBody(b, body)| + 1
  {
  }

  lemma InnerOfWritten(b: string, body: string, a: string)
    ensures var from := |b| + 1 + |StartMarker()|;
            var to := |UpToBody(b, body)| + 1;
            from <= to <= |Written(b, body, a)| && Written(b, body, a)[from..to] == "\n" + body + "\n"
  {
    hide StartMarker, EndMarker;
    var x, y, z := b + "\n" + StartMarker(), "\n" + body + "\n", EndMarker() + "\n" + a;
    RegroupInner(b, StartMarker(), body, EndMarker(), a);
    SliceBetween(Written(b, body, a), x, y, z);
    assert |UpToBody(b, body)| + 1 == |x| + |y|;
  }

  lemma RegroupInner(b: string, sm: string, body: string, em: string, a: string)
    ensures b + ("\n" + sm + "\n" + body + "\n" + em + "\n") + a ==
            (b + "\n" + sm) + ("\n" + body + "\n") + (em + "\n" + a)
  {
  }

  lemma WrittenFreeOfEnd(b: string, body: string)
    requires !Contains(b, EndMarker()) && !Contains(body, EndMarker())
    ensures !Contains(b + "\n" + StartMarker() + "\n" + body, EndMarker())
  {
    MarkerFacts();
    StartFreeOfEnd();
    var sm, em := StartMarker(), EndMarker();
    hide StartMarker, EndMarker, Contains;
    ContainsAcrossNewline(b, sm, em);
    ContainsAcrossNewline(b + "\n" + sm, body, em);
  }

  /** Writing storable blocks and reading the file again: the same blocks in printing order, and the
      same text around the section up to newlines next to it. */
  lemma WriteThenRead(p: Parts, blocks: seq<Block>)
    requires !Contains(TrimEnd(p.before), StartMarker()) && !Contains(TrimEnd(p.before), EndMarker())
    requires DistinctIds(Printed(blocks)) && forall b <- Printed(blocks) :: IsStorable(b)
    ensures var g := WithSection(p, blocks);
            && Locate(g).Some? && Existing(g) == Unranked(Printed(blocks))
            && Cut(g).before == TrimEnd(p.before) + "\n" && Cut(g).after == "\n" + TrimStart(p.after)
            && TrimEnd(Cut(g).before) == TrimEnd(p.before) && TrimStart(Cut(g).after) == TrimStart(p.after)
  {
    var body := RenderBlocks(blocks);
    JoinedFreeOfEnd(Printed(blocks));
    LocateWritten(TrimEnd(p.before), body, TrimStart(p.after));
    ParsePrinted(Printed(blocks));
    TrimEndStays(TrimEnd(p.before));
    TrimStartStays(TrimStart(p.after));
  }

  /** What is written, letter by letter, for two blocks. */
  lemma WrittenByLetter(body: string)
    ensures var x, y := Block("x", "one", 0), Block("y", "two", 1);
            && RenderBlock(x) == "<!-- PI-CREW:BLOCK:x -->\none\n<!-- PI-CREW:/BLOCK:x -->"
            && RenderBlock(y) == "<!-- PI-CREW:BLOCK:y -->\ntwo\n<!-- PI-CREW:/BLOCK:y -->"
            && RenderBlocks([x, y]) == RenderBlock(y) + "\n\n" + RenderBlock(x)
            && WithSection(Parts("Notes\n\n", "", "\nMore"), [x, y]) == "Notes" + Section(RenderBlocks([x, y])) + "More"
    ensures Section(body) == "\n" + "<!-- PI-CREW:GUIDANCE:START -->" + "\n" + body
                             + "\n" + "<!-- PI-CREW:GUIDANCE:END -->" + "\n"
  {
    var x, y := Block("x", "one", 0), Block("y", "two", 1);
    assert Section(body) == "\n" + StartMarker() + "\n" + body + "\n" + EndMarker() + "\n";
    BlocksByLetter();
    TwoInOrder(x, y);
    SeamsTrimmed();
    hide *;
    TwoJoined(x, y);
    WithSectionIs(Parts("Notes\n\n", "", "\nMore"), [x, y]);
  }

  lemma WithSectionIs(p: Parts, blocks: seq<Block>)
    ensures WithSection(p, blocks) == TrimEnd(p.before) + Section(RenderBlocks(blocks)) + TrimStart(p.after)
  {
  }

  lemma TwoJoined(x: Block, y: Block)
    requires Printed([x, y]) == [y, x]
    ensures RenderBlocks([x, y]) == RenderBlock(y) + "\n\n" + RenderBlock(x)
  {
    hide RenderBlock, Printed;
    assert [y, x][1..] == [x];
    assert Join([x]) == RenderBlock(x) && Join([y, x]) == RenderBlock(y) + "\n\n" + Join([x]);
  }

  lemma BlocksByLetter()
    ensures RenderBlock(Block("x", "one", 0)) == "<!-- PI-CREW:BLOCK:x -->\none\n<!-- PI-CREW:/BLOCK:x -->"
    ensures RenderBlock(Block("y", "two", 1)) == "<!-- PI-CREW:BLOCK:y -->\ntwo\n<!-- PI-CREW:/BLOCK:y -->"
  {
    TagsByLetter();
    hide OpenTag, CloseTag;
    FirstLines();
    SecondLines();
  }

  lemma FirstLines()
    ensures "<!-- PI-CREW:BLOCK:x -->" + "\n" + "one" + "\n" + "<!-- PI-CREW:/BLOCK:x -->" ==
            "<!-- PI-CREW:BLOCK:x -->\none\n<!-- PI-CREW:/BLOCK:x -->"
  {
  }

  lemma SecondLines()
    ensures "<!-- PI-CREW:BLOCK:y -->" + "\n" + "two" + "\n" + "<!-- PI-CREW:/BLOCK:y -->" ==
            "<!-- PI-CREW:BLOCK:y -->\ntwo\n<!-- PI-CREW:/BLOCK:y -->"
  {
  }

  lemma TagsByLetter()
    ensures OpenTag("x") == "<!-- PI-CREW:BLOCK:x -->" && CloseTag("x") == "<!-- PI-CREW:/BLOCK:x -->"
    ensures OpenTag("y") == "<!-- PI-CREW:BLOCK:y -->" && CloseTag("y") == "<!-- PI-CREW:/BLOCK:y -->"
  {
  }

  lemma TwoInOrder(x: Block, y: Block)
    requires x.priority < y.priority
    ensures Printed([x, y]) == [y, x]
  {
    assert [x, y][1..] == [y] && [y][1..] == [] && SortBy([], Urgency()) == [];
    assert SortBy([y], Urgency()) == [y];
    assert Insert(x, [y], Urgency()) == [y] + Insert(x, [], Urgency());
  }

  lemma SeamsTrimmed()
    ensures TrimEnd("Notes\n\n") == "Notes" && TrimStart("\nMore") == "More"
  {
    TrimmedIs("Notes\n\n", "Notes");
    TrimStartStays("More");
    assert "\n" + "More" == "\nMore";
  }

  // ---------- injecting ----------

  /** Requested blocks that can be stored once their contents are sanitized. */
  ghost predicate AreStorable(blocks: seq<Block>, sanitize: string -> string) {
    forall b <- blocks :: IsId(b.id) && (b.content != "" ==> IsStorable(b.(content := sanitize(b.content))))
  }

  /** The sanitized contents hold neither the end marker nor their own closing tag. */
  ghost predicate ContentsFit(blocks: seq<Block>, sanitize: string -> string) {
    forall b <- blocks :: b.content != "" ==> Fits(sanitize(b.content), b.id)
  }

  ghost predicate Fits(content: string, id: string) {
    !Contains(content, EndMarker()) && !Contains(content, CloseTag(id))
  }

  /** Every id that is accepted is an id for the reading expression too. */
  lemma ValidIdIsId(id: string)
    requires IsValidId(id)
    ensures IsId(id)
  {
    forall c | c in id ensures IsIdChar(c) {
    }
  }

  lemma ValidAreStorable(blocks: seq<Block>, sanitize: string -> string)
    requires AllValid(blocks) && ContentsFit(blocks, sanitize)
    ensures AreStorable(blocks, sanitize)
  {
    hide EndMarker, CloseTag, IsValidId;
    forall b | b in blocks
      ensures IsId(b.id) && (b.content != "" ==> IsStorable(b.(content := sanitize(b.content))))
    {
      ValidIdIsId(b.id);
      assert b.content != "" ==> Fits(sanitize(b.content), b.id);
    }
  }

  lemma {:induction false} FinalIsStorable(m: seq<Block>, blocks: seq<Block>, sanitize: string -> string, id: string)
    requires Alive(m, blocks, id) && AreStorable(blocks, sanitize) && forall b <- m :: IsStorable(b)
    ensures IsStorable(Final(m, blocks, sanitize, id))
  {
    if blocks == [] {
      assert m[Place(m, id)] in m;
    } else if blocks[|blocks| - 1].id != id {
      FinalIsStorable(m, blocks[..|blocks| - 1], sanitize, id);
    }
  }

  lemma ExistingIsStorable(f: string)
    ensures DistinctIds(Existing(f)) && AllUnranked(Existing(f)) && forall b <- Existing(f) :: IsStorable(b)
  {
    if Locate(f).Some? {
      LocatedParts(f);
      ParsedIsReadable(Locate(f).value.inner, EndMarker());
    }
  }

  lemma RoundIsStorable(m: seq<Block>, blocks: seq<Block>, sanitize: string -> string)
    requires DistinctIds(m) && (forall b <- m :: IsStorable(b)) && AreStorable(blocks, sanitize)
    ensures DistinctIds(Round(m, blocks, sanitize)) && forall b <- Round(m, blocks, sanitize) :: IsStorable(b)
  {
    RoundIsRanked(m, blocks, sanitize);
    hide Round, IsStorable, AreStorable;
    forall b | b in Round(m, blocks, sanitize) ensures IsStorable(b) {
      FinalIsStorable(m, blocks, sanitize, b.id);
    }
  }

  /** The text around the section is the same up to newlines next to it. */
  predicate KeepsAround(p: Parts, q: Parts) {
    var before, after := TrimEnd(p.before), TrimStart(p.after);
    && IsThenNewlines(p.before, before) && IsThenNewlines(q.before, before)
    && IsNewlinesThen(p.after, after) && IsNewlinesThen(q.after, after)
  }

  lemma TrimmedAlike(p: Parts, q: Parts)
    requires TrimEnd(p.before) == TrimEnd(q.before) && TrimStart(p.after) == TrimStart(q.after)
    ensures KeepsAround(p, q)
  {
    TrimEndTakesNewlines(p.before);
    TrimEndTakesNewlines(q.before);
    TrimStartTakesNewlines(p.after);
    TrimStartTakesNewlines(q.after);
  }

  /** Injection refines the ordered map: reading the new file gives the merged blocks in printing
      order, and the text around the section is the old one up to newlines next to it. */
  lemma InjectRefinesMap(f: string, blocks: seq<Block>, sanitize: string -> string)
    requires IsWellFormed(f) && AllValid(blocks) && ContentsFit(blocks, sanitize)
    requires Merge(Existing(f), blocks, sanitize) != []
    ensures var g := InjectedText(f, blocks, sanitize);
            && Locate(g).Some? && Existing(g) == Unranked(Round(Existing(f), blocks, sanitize))
            && Cut(g).before == TrimEnd(Cut(f).before) + "\n" && Cut(g).after == "\n" + TrimStart(Cut(f).after)
            && TrimEnd(Cut(g).before) == TrimEnd(Cut(f).before) && TrimStart(Cut(g).after) == TrimStart(Cut(f).after)
            && KeepsAround(Cut(f), Cut(g))
  {
    ValidAreStorable(blocks, sanitize);
    hide IsWellFormed, AreStorable, AllValid, ContentsFit, IsStorable, Locate, WithSection, Contains, KeepsAround;
    CutIsFree(f);
    ExistingIsStorable(f);
    RoundIsStorable(Existing(f), blocks, sanitize);
    WriteThenRead(Cut(f), Merge(Existing(f), blocks, sanitize));
    TrimmedAlike(Cut(f), Cut(InjectedText(f, blocks, sanitize)));
  }

  // ---------- what an injection reports ----------

  /** Reported as added are the ids that are requested with a content. */
  lemma {:induction false} AddedAreRequested(blocks: seq<Block>)
    ensures forall id :: id in Added(blocks) <==> exists b <- blocks :: b.id == id && b.content != ""
  {
    if blocks == [] {
    } else {
      AddedAreRequested(blocks[..|blocks| - 1]);
      assert blocks == blocks[..|blocks| - 1] + [blocks[|blocks| - 1]];
    }
  }

  /** The request empties an id that is there when its turn comes. */
  predicate Empties(m: seq<Block>, blocks: seq<Block>, k: nat, id: string) {
    k < |blocks| && blocks[k].id == id && blocks[k].content == "" && Alive(m, blocks[..k], id)
  }

  predicate SomeEmpties(m: seq<Block>, blocks: seq<Block>, id: string) {
    exists k :: 0 <= k < |blocks| && Empties(m, blocks, k, id)
  }

  lemma EmptiesOneMore(m: seq<Block>, before: seq<Block>, b: Block, id: string)
    ensures SomeEmpties(m, before + [b], id) <==>
            SomeEmpties(m, before, id) || (b.id == id && b.content == "" && Alive(m, before, id))
  {
    hide Alive;
    var all, n := before + [b], |before|;
    assert all[..n] == before;
    forall k: nat | k < n ensures Empties(m, all, k, id) <==> Empties(m, before, k, id) {
      assert all[k] == before[k] && all[..k] == before[..k];
    }
    if SomeEmpties(m, before, id) {
      var k :| 0 <= k < n && Empties(m, before, k, id);
      assert Empties(m, all, k, id);
    }
    assert Empties(m, all, n, id) <==> b.id == id && b.content == "" && Alive(m, before, id);
  }

  lemma DeletedOneMore(m: seq<Block>, before: seq<Block>, b: Block, sanitize: string -> string)
    requires DistinctIds(m)
    ensures Deleted(m, before + [b], sanitize) ==
            Deleted(m, before, sanitize) + if b.content == "" && Alive(m, before, b.id) then [b.id] else []
  {
    MergeIsMerged(m, before, sanitize);
    assert (before + [b])[..|before|] == before;
    hide Merge, Alive, HasId, DistinctIds;
  }

  /** Reported as removed are the ids that some request empties. */
  lemma {:induction false} DeletedWereThere(m: seq<Block>, blocks: seq<Block>, sanitize: string -> string, id: string)
    requires DistinctIds(m)
    ensures id in Deleted(m, blocks, sanitize) <==> SomeEmpties(m, blocks, id)
  {
    if blocks == [] {
    } else {
      hide *;
      var before, last := blocks[..|blocks| - 1], blocks[|blocks| - 1];
      assert blocks == before + [last];
      DeletedWereThere(m, before, sanitize, id);
      DeletedOneMore(m, before, last, sanitize);
      EmptiesOneMore(m, before, last, id);
    }
  }
}
