/**
 Injecting the same list of guidance blocks twice (`injectGuidance` in src/config/markers.ts): exactly
 when the second time changes nothing.
 */
module GuidanceTwice {
  import opened Text
  import opened Blocks
  import opened BlockOrder
  import opened Markers
  import opened Guidance
  import opened GuidanceLaws
  import opened Sorting
  import opened Wrappers

  // ---------- with blocks left to write ----------

  /** Equal printed bodies come from equal rounds. */
  lemma RoundsPrintAlike(m: seq<Block>, m2: seq<Block>, blocks: seq<Block>, sanitize: string -> string)
    requires m2 == Unranked(Round(m, blocks, sanitize)) && DistinctIds(m) && AllUnranked(m)
    requires (forall b <- m :: IsStorable(b)) && (forall b <- m2 :: IsStorable(b)) && AreStorable(blocks, sanitize)
    ensures Join(Round(m2, blocks, sanitize)) == Join(Round(m, blocks, sanitize)) <==>
            Round(m2, blocks, sanitize) == Round(m, blocks, sanitize)
  {
    var s, t := Round(m, blocks, sanitize), Round(m2, blocks, sanitize);
    RoundIsStorable(m, blocks, sanitize);
    RoundIsRanked(m, blocks, sanitize);
    UnrankedIds(s);
    RoundIsStorable(m2, blocks, sanitize);
    RoundIsRanked(m2, blocks, sanitize);
    hide Round, Join, ParseBlocks, Final, Alive;
    if Join(s) == Join(t) {
      StorableIsReadable(s);
      StorableIsReadable(t);
      ParsePrinted(s);
      ParsePrinted(t);
      assert |s| == |Unranked(s)| == |Unranked(t)| == |t|;
      forall i | 0 <= i < |s| ensures s[i] == t[i] {
        assert Unranked(s)[i] == Unranked(t)[i];
        assert s[i] in s && t[i] in t;
        SecondRoundSameBlock(m, blocks, sanitize, s[i].id);
      }
    }
  }

  lemma StorableIsReadable(s: seq<Block>)
    requires forall b <- s :: IsStorable(b)
    ensures forall b <- s :: IsReadable(b)
  {
  }

  /** With blocks left to write: injecting the same list again leaves the file alone if and only if
      no block that the list empties and fills again is overtaken by one of equal priority. */
  lemma InjectTwice(f: string, blocks: seq<Block>, sanitize: string -> string)
    requires IsWellFormed(f) && AllValid(blocks) && ContentsFit(blocks, sanitize)
    requires Merge(Existing(f), blocks, sanitize) != []
    ensures var g := InjectedText(f, blocks, sanitize);
            InjectedText(g, blocks, sanitize) == g <==>
            !exists x, y :: Overtakes(Existing(f), blocks, sanitize, x, y)
  {
    var g := InjectedText(f, blocks, sanitize);
    var m, m2 := Existing(f), Existing(g);
    ValidAreStorable(blocks, sanitize);
    InjectRefinesMap(f, blocks, sanitize);
    ExistingIsStorable(f);
    ExistingIsStorable(g);
    RoundsPrintAlike(m, m2, blocks, sanitize);
    SecondRoundAgrees(m, blocks, sanitize);
    StillBlocks(m, blocks, sanitize);
    var p := Cut(f);
    assert g == WithSection(p, Merge(m, blocks, sanitize));
    assert InjectedText(g, blocks, sanitize) == WithSection(Cut(g), Merge(m2, blocks, sanitize));
    hide *;
    SectionsDiffer(p, Cut(g), Merge(m, blocks, sanitize), Merge(m2, blocks, sanitize));
    RoundBody(m, blocks, sanitize);
    RoundBody(m2, blocks, sanitize);
  }

  lemma RoundBody(m: seq<Block>, blocks: seq<Block>, sanitize: string -> string)
    ensures RenderBlocks(Merge(m, blocks, sanitize)) == Join(Round(m, blocks, sanitize))
  {
  }

  lemma SectionsDiffer(p: Parts, q: Parts, m: seq<Block>, n: seq<Block>)
    requires TrimEnd(p.before) == TrimEnd(q.before) && TrimStart(p.after) == TrimStart(q.after)
    ensures WithSection(p, m) == WithSection(q, n) <==> RenderBlocks(m) == RenderBlocks(n)
  {
    var b, a := TrimEnd(p.before), TrimStart(p.after);
    var bm, bn := RenderBlocks(m), RenderBlocks(n);
    hide RenderBlocks, StartMarker, EndMarker, TrimEnd, TrimStart;
    if WithSection(p, m) == WithSection(q, n) {
      RegroupInner(b, StartMarker(), bm, EndMarker(), a);
      RegroupInner(b, StartMarker(), bn, EndMarker(), a);
      BodyFromText(b + "\n" + StartMarker(), bm, EndMarker() + "\n" + a);
      BodyFromText(b + "\n" + StartMarker(), bn, EndMarker() + "\n" + a);
    }
  }

  lemma BodyFromText(x: string, body: string, z: string)
    ensures var f := x + ("\n" + body + "\n") + z;
            |f| == |x| + |body| + 2 + |z| && f[|x| + 1..|f| - |z| - 1] == body
  {
  }

  /** What is merged a second time is not empty if it was not empty the first time. */
  lemma StillBlocks(m: seq<Block>, blocks: seq<Block>, sanitize: string -> string)
    requires DistinctIds(m) && AllUnranked(m)
    ensures Merge(Unranked(Round(m, blocks, sanitize)), blocks, sanitize) == [] <==> Merge(m, blocks, sanitize) == []
  {
    var s := Round(m, blocks, sanitize);
    RoundIsRanked(m, blocks, sanitize);
    UnrankedIds(s);
    MergeIsMerged(m, blocks, sanitize);
    MergeIsMerged(Unranked(s), blocks, sanitize);
    var r, t := Merge(m, blocks, sanitize), Merge(Unranked(s), blocks, sanitize);
    if r != [] {
      SecondRoundSameBlock(m, blocks, sanitize, r[0].id);
      assert HasId(r, r[0].id);
    }
    if t != [] {
      SecondRoundSameBlock(m, blocks, sanitize, t[0].id);
      assert HasId(t, t[0].id);
    }
  }

  /** One id emptied and filled again, and then another one put. */
  const REFILL: seq<Block> := [Block("x", "", 0), Block("x", "a", 0), Block("y", "b", 0)]

  function Verbatim(): string -> string { (content: string) => content }

  /** Idempotence does fail: in a file that has no block of the second id, whatever else it holds, that
      id comes behind the refilled one the first time and before it the second time. */
  lemma RefilledIsOvertaken(f: string)
    requires IsWellFormed(f) && !HasId(Existing(f), "y")
    ensures Overtakes(Existing(f), REFILL, Verbatim(), "x", "y")
    ensures var g := InjectedText(f, REFILL, Verbatim());
            InjectedText(g, REFILL, Verbatim()) != g
  {
    var m := Existing(f);
    RefillOvertakes(m);
    RefillFits();
    ExistingIsStorable(f);
    MergeIsMerged(m, REFILL, Verbatim());
    assert HasId(Merge(m, REFILL, Verbatim()), "x");
    hide Merge, Existing, Overtakes, Alive, IsWellFormed, ContentsFit, AllValid, InjectedText;
    InjectTwice(f, REFILL, Verbatim());
  }

  lemma OneRequestMore(m: seq<Block>, before: seq<Block>, b: Block, id: string)
    ensures Alive(m, before + [b], id) == if b.id == id then b.content != "" else Alive(m, before, id)
    ensures Birth(m, before + [b], id) ==
            if b.id == id && !Alive(m, before, id) then |m| + |before| else Birth(m, before, id)
    ensures Alive(m, before + [b], id) ==>
              Final(m, before + [b], Verbatim(), id) ==
              if b.id == id then b else Final(m, before, Verbatim(), id)
  {
    assert (before + [b])[..|before|] == before;
  }

  lemma RefillOvertakes(m: seq<Block>)
    requires !HasId(m, "y")
    ensures Overtakes(m, REFILL, Verbatim(), "x", "y")
  {
    var none: seq<Block>, one, two := [], [] + [REFILL[0]], [] + [REFILL[0]] + [REFILL[1]];
    assert REFILL == two + [REFILL[2]];
    assert Emptied(REFILL, "x") by {
      assert REFILL[0].id == "x" && REFILL[0].content == "";
    }
    assert !Alive(m, none, "y");
    hide Alive, Birth, Final;
    OneRequestMore(m, none, REFILL[0], "x");
    OneRequestMore(m, none, REFILL[0], "y");
    OneRequestMore(m, one, REFILL[1], "x");
    OneRequestMore(m, one, REFILL[1], "y");
    OneRequestMore(m, two, REFILL[2], "x");
    OneRequestMore(m, two, REFILL[2], "y");
  }

  lemma RefillFits()
    ensures AllValid(REFILL) && ContentsFit(REFILL, Verbatim())
  {
    assert |EndMarker()| > 1 && |CloseTag("x")| > 1 && |CloseTag("y")| > 1;
    hide EndMarker, CloseTag;
    assert Fits("a", "x") && Fits("b", "y");
  }

  // ---------- with no block left to write ----------

  /** Nothing of the list would be changed in the text: it has no start marker, or one with no section and
      no newline at its end to trim, or a section as it is printed, with blocks in it of which none is
      listed. */
  ghost predicate IsSettled(rest: string, blocks: seq<Block>) {
    if !Contains(rest, StartMarker()) then true
    else if Locate(rest).None? then TrimEnd(rest) == rest
    else
      && Existing(rest) != [] && rest == WithSection(Cut(rest), Existing(rest))
      && forall b <- blocks :: !HasId(Existing(rest), b.id)
  }

  lemma MarkersStayInTrimmed(f: string, pat: string)
    requires '\n' !in pat && pat != ""
    ensures IndexOf(TrimEnd(f), pat) == IndexOf(f, pat)
  {
    TrimEndTakesNewlines(f);
    var t := TrimEnd(f);
    forall i ensures At(t, pat, i) <==> At(f, pat, i) {
      if At(f, pat, i) {
        AtCovers(f, pat, i, i + |pat| - 1);
        assert f[i..i + |pat|] == t[i..i + |pat|];
      }
      if At(t, pat, i) {
        assert f[i..i + |pat|] == t[i..i + |pat|];
      }
    }
    hide At, TrimEnd;
    var k := IndexOf(f, pat);
    if k != -1 {
      IndexIsFirst(t, pat, k);
    }
  }

  lemma NoSectionInTrimmed(f: string)
    requires Locate(f).None?
    ensures Locate(TrimEnd(f)).None?
  {
    MarkerFacts();
    hide StartMarker, EndMarker, IndexOf, TrimEnd;
    MarkersStayInTrimmed(f, StartMarker());
    MarkersStayInTrimmed(f, EndMarker());
  }

  /** Where the list leaves nothing of one file, it leaves none of its ids in any. */
  lemma ListedAreGone(m: seq<Block>, n: seq<Block>, blocks: seq<Block>, sanitize: string -> string)
    requires DistinctIds(m) && Merge(m, blocks, sanitize) == []
    ensures forall id :: Touched(blocks, id) ==> !Alive(n, blocks, id)
  {
    MergeIsMerged(m, blocks, sanitize);
    forall id | Touched(blocks, id) ensures !Alive(n, blocks, id) {
      TouchedIsIndependent(m, n, blocks, sanitize, id);
      assert !HasId(Merge(m, blocks, sanitize), id);
    }
  }

  /** Then merging takes the listed blocks away and leaves the others as they are. */
  lemma MergeTakesListed(n: seq<Block>, blocks: seq<Block>, sanitize: string -> string)
    requires DistinctIds(n) && forall id :: Touched(blocks, id) ==> !Alive(n, blocks, id)
    ensures forall id :: HasId(Merge(n, blocks, sanitize), id) <==> HasId(n, id) && !Touched(blocks, id)
    ensures forall b <- Merge(n, blocks, sanitize) :: b in n
    ensures (forall b <- blocks :: !HasId(n, b.id)) ==> Merge(n, blocks, sanitize) == n
  {
    var r := Merge(n, blocks, sanitize);
    MergeIsMerged(n, blocks, sanitize);
    forall id ensures HasId(r, id) <==> HasId(n, id) && !Touched(blocks, id) {
      if !Touched(blocks, id) {
        UntouchedStays(n, blocks, sanitize, id);
      }
    }
    hide Alive, Final, Touched;
    forall b | b in r ensures b in n {
      SurvivorIsOld(n, blocks, sanitize, b);
    }
    if forall b <- blocks :: !HasId(n, b.id) {
      OthersStay(n, blocks, sanitize);
    }
  }

  lemma SurvivorIsOld(n: seq<Block>, blocks: seq<Block>, sanitize: string -> string, b: Block)
    requires Alive(n, blocks, b.id) && !Touched(blocks, b.id) && b == Final(n, blocks, sanitize, b.id)
    ensures b in n
  {
    UntouchedStays(n, blocks, sanitize, b.id);
  }

  lemma OthersStay(n: seq<Block>, blocks: seq<Block>, sanitize: string -> string)
    requires DistinctIds(n) && IsMerged(n, blocks, sanitize, Merge(n, blocks, sanitize))
    requires forall b <- Merge(n, blocks, sanitize) :: b in n
    requires forall id :: HasId(Merge(n, blocks, sanitize), id) <==> HasId(n, id) && !Touched(blocks, id)
    requires forall b <- blocks :: !HasId(n, b.id)
    ensures Merge(n, blocks, sanitize) == n
  {
    var r := Merge(n, blocks, sanitize);
    var rank := BirthRank(n, blocks);
    forall i | 0 <= i < |n| ensures n[i] in r && rank(n[i]) == i {
      PlaceIsIndex(n, i);
      assert !Touched(blocks, n[i].id) && !Emptied(blocks, n[i].id);
      KeptPlace(n, blocks, n[i].id);
      assert HasId(r, n[i].id);
      var j :| 0 <= j < |r| && r[j].id == n[i].id;
      assert r[j] in r;
      UntouchedStays(n, blocks, sanitize, n[i].id);
    }
    RankedIsUnique(r, n, (b: Block) => 0, rank);
  }

  lemma NoIdsNoBlocks(m: seq<Block>)
    requires forall id :: !HasId(m, id)
    ensures m == []
  {
    if m != [] {
      assert HasId(m, m[0].id);
    }
  }

  /** A text with a section: what injecting a list of which nothing is left does to it. */
  lemma InjectAgain(rest: string, blocks: seq<Block>, sanitize: string -> string)
    requires Contains(rest, StartMarker()) && Locate(rest).Some?
    requires forall id, n :: Touched(blocks, id) ==> !Alive(n, blocks, id)
    ensures InjectedText(rest, blocks, sanitize) == rest <==> IsSettled(rest, blocks)
  {
    var n, m := Existing(rest), Merge(Existing(rest), blocks, sanitize);
    hide *;
    LeftCanBeWritten(rest, blocks, sanitize);
    InjectedCases(rest, blocks, sanitize, m);
    HasStart(rest);
    SettledSection(rest, blocks);
    if m == [] {
      TakingOutShortens(rest);
    } else {
      WrittenAgain(rest, m);
    }
  }

  /** What the list leaves of a section: all of it exactly if none of it is listed. */
  lemma LeftCanBeWritten(rest: string, blocks: seq<Block>, sanitize: string -> string)
    requires forall id, n :: Touched(blocks, id) ==> !Alive(n, blocks, id)
    ensures var m := Merge(Existing(rest), blocks, sanitize);
            && DistinctIds(m) && AllUnranked(m) && (forall b <- m :: IsStorable(b))
            && (m == Existing(rest) <==> forall b <- blocks :: !HasId(Existing(rest), b.id))
  {
    var n, m := Existing(rest), Merge(Existing(rest), blocks, sanitize);
    ExistingIsStorable(rest);
    MergeTakesListed(n, blocks, sanitize);
    MergeIsMerged(n, blocks, sanitize);
    hide IsStorable, Existing, Merge, HasId, Touched, Alive, IsMerged, DistinctIds;
    if b :| b in blocks && HasId(n, b.id) {
      ListedIsTouched(blocks, b);
      assert !HasId(m, b.id);
    }
  }

  lemma HasStart(rest: string)
    requires Contains(rest, StartMarker())
    ensures IndexOf(rest, StartMarker()) != -1
  {
  }

  lemma SettledSection(rest: string, blocks: seq<Block>)
    requires Contains(rest, StartMarker()) && Locate(rest).Some?
    ensures IsSettled(rest, blocks) <==>
            && Existing(rest) != [] && rest == WithSection(Cut(rest), Existing(rest))
            && forall b <- blocks :: !HasId(Existing(rest), b.id)
  {
  }

  lemma ListedIsTouched(blocks: seq<Block>, b: Block)
    requires b in blocks
    ensures Touched(blocks, b.id)
  {
    var k :| 0 <= k < |blocks| && blocks[k] == b;
  }

  lemma TakingOutShortens(rest: string)
    requires Locate(rest).Some?
    ensures WithoutSection(Cut(rest)) != rest
  {
    var s, e := IndexOf(rest, StartMarker()), IndexOf(rest, EndMarker());
    assert |EndMarker()| > 0;
    assert |WithoutSection(Cut(rest))| <= s + (|rest| - e - |EndMarker()|);
  }

  /** Blocks of a section are written as they stand there only if they are all of its blocks. */
  lemma WrittenAgain(rest: string, m: seq<Block>)
    requires Locate(rest).Some? && DistinctIds(m) && AllUnranked(m) && forall b <- m :: IsStorable(b)
    ensures rest == WithSection(Cut(rest), m) ==> Existing(rest) == m
  {
    CutIsFree(rest);
    UnrankedPrintsAsIs(m);
    WriteThenRead(Cut(rest), m);
  }

  /** With no block left to write, injecting the same list again leaves the file alone exactly if the file
      had no section, or what is left without it is settled. */
  lemma InjectTwiceEmpty(f: string, blocks: seq<Block>, sanitize: string -> string)
    requires Merge(Existing(f), blocks, sanitize) == []
    ensures var g := InjectedText(f, blocks, sanitize);
            InjectedText(g, blocks, sanitize) == g <==>
            Locate(f).None? || IsSettled(WithoutSection(Locate(f).value), blocks)
  {
    hide *;
    ExistingIsStorable(f);
    forall id, n | Touched(blocks, id) ensures !Alive(n, blocks, id) {
      ListedAreGone(Existing(f), n, blocks, sanitize);
    }
    if Locate(f).Some? {
      InjectedNothing(f, blocks, sanitize);
      var rest := WithoutSection(Locate(f).value);
      if Contains(rest, StartMarker()) && Locate(rest).Some? {
        InjectAgain(rest, blocks, sanitize);
      } else {
        NothingInText(rest, blocks, sanitize);
      }
    } else {
      NoSectionInTrimmed(f);
      TrimmedStays(f);
      NothingInText(f, blocks, sanitize);
      NothingInText(TrimEnd(f), blocks, sanitize);
    }
  }

  lemma InjectedNothing(f: string, blocks: seq<Block>, sanitize: string -> string)
    requires Merge(Existing(f), blocks, sanitize) == [] && Locate(f).Some?
    ensures InjectedText(f, blocks, sanitize) == WithoutSection(Locate(f).value)
  {
    hide Merge, Existing;
  }

  lemma TrimmedStays(s: string)
    ensures TrimEnd(TrimEnd(s)) == TrimEnd(s)
  {
  }

  /** Without a section there are no blocks, and the list puts none. */
  lemma NothingInText(g: string, blocks: seq<Block>, sanitize: string -> string)
    requires forall id, n :: Touched(blocks, id) ==> !Alive(n, blocks, id)
    requires Locate(g).None? || !Contains(g, StartMarker())
    ensures InjectedText(g, blocks, sanitize) == if Contains(g, StartMarker()) then TrimEnd(g) else g
    ensures IsSettled(g, blocks) <==> Contains(g, StartMarker()) ==> TrimEnd(g) == g
  {
    assert Locate(g).None?;
    MergeTakesListed([], blocks, sanitize);
    var m := Merge([], blocks, sanitize);
    NoIdsNoBlocks(m);
    assert TrimEnd(g) + "" == TrimEnd(g);
  }

  lemma PlainBlock()
    ensures var x := Block("x", "a", 0);
            IsStorable(x) && Printed([x]) == [x] && Unranked([x]) == [x] && DistinctIds([x])
  {
    var x := Block("x", "a", 0);
    RefillFits();
    ValidAreStorable(REFILL, Verbatim());
    assert REFILL[1].(content := Verbatim()(REFILL[1].content)) == x && REFILL[1] in REFILL;
    hide IsStorable, AreStorable, ContentsFit, AllValid;
    UnrankedPrintsAsIs([x]);
  }

  /** A text without markers, a section with one block, and more text. */
  lemma OneBlockBetween(b: string, a: string)
    requires b == "" || b == "\n"
    ensures var x := Block("x", "a", 0);
            var f := b + Section(RenderBlocks([x])) + a;
            && Locate(f).Some? && Locate(f).value.before == b + "\n" && Locate(f).value.after == "\n" + a
            && Existing(f) == [x] && Contains(f, StartMarker())
  {
    var x := Block("x", "a", 0);
    var body := RenderBlocks([x]);
    PlainBlock();
    assert |StartMarker()| > 1 && |EndMarker()| > 1;
    assert !Contains(b, StartMarker()) && !Contains(b, EndMarker());
    hide StartMarker, EndMarker, Contains, IsStorable, ParseBlocks;
    JoinedFreeOfEnd([x]);
    LocateWritten(b, body, a);
    assert Written(b, body, a) == b + Section(body) + a;
    ParsePrinted([x]);
  }

  /** Such a list goes through a file with two sections one section at a time. */
  lemma SectionsGoOneByOne()
    ensures var x := Block("x", "a", 0);
            var f := Section(RenderBlocks([x])) + Section(RenderBlocks([x]));
            var blocks := [x.(content := "")];
            var g := InjectedText(f, blocks, Verbatim());
            Merge(Existing(f), blocks, Verbatim()) == [] && InjectedText(g, blocks, Verbatim()) != g
  {
    var x := Block("x", "a", 0);
    var one := Section(RenderBlocks([x]));
    var f, blocks := one + one, [x.(content := "")];
    hide *;
    RestOfTwo(f, one);
    var rest := WithoutSection(Locate(f).value);
    ListedMergesAway(x, blocks);
    NotSettled(rest, x, blocks);
    InjectTwiceEmpty(f, blocks, Verbatim());
  }

  lemma RestOfTwo(f: string, one: string)
    requires one == Section(RenderBlocks([Block("x", "a", 0)])) && f == one + one
    ensures Locate(f).Some? && Existing(f) == [Block("x", "a", 0)]
    ensures var rest := WithoutSection(Locate(f).value);
            Locate(rest).Some? && Contains(rest, StartMarker()) && Existing(rest) == [Block("x", "a", 0)]
  {
    hide *;
    assert f == "" + one + one;
    OneBlockBetween("", one);
    RestAfterNewline(Locate(f).value, one);
    OneBlockBetween("\n", "");
  }

  lemma RestAfterNewline(p: Parts, one: string)
    requires p.before == "" + "\n" && p.after == "\n" + one
    ensures WithoutSection(p) == "\n" + one + ""
  {
    assert TrimEnd("\n") == "";
  }

  lemma ListedMergesAway(x: Block, blocks: seq<Block>)
    requires blocks == [x.(content := "")]
    ensures Merge([x], blocks, Verbatim()) == []
  {
    assert blocks[..0] == [];
  }

  lemma NotSettled(rest: string, x: Block, blocks: seq<Block>)
    requires blocks == [x.(content := "")] && Existing(rest) == [x]
    requires Locate(rest).Some? && Contains(rest, StartMarker())
    ensures !IsSettled(rest, blocks)
  {
    hide Existing, Locate, Contains;
    assert [x][0].id == x.id && HasId([x], x.id) && blocks[0] in blocks;
  }
}
