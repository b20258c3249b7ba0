/**
 Printing order of merged blocks, and exactly when injecting the same list a second time changes
 it. Priorities are not stored in the file: a block read back has priority 0.
 */
module BlockOrder {
  import opened Sorting
  import opened Blocks

  /** Descending priority as an ascending key. */
  function Urgency(): Block -> int { (b: Block) => -b.priority }

  function Printed(m: seq<Block>): seq<Block> { SortBy(m, Urgency()) }

  function Unranked(m: seq<Block>): (r: seq<Block>)
    ensures |r| == |m|
  {
    seq(|m|, i requires 0 <= i < |m| => m[i].(priority := 0))
  }

  predicate AllUnranked(m: seq<Block>) {
    forall b <- m :: b.priority == 0
  }

  /** The requests that follow one another on one file: merge into what is there, print. */
  function Round(m: seq<Block>, blocks: seq<Block>, sanitize: string -> string): seq<Block> {
    Printed(Merge(m, blocks, sanitize))
  }

  // ---------- the order of a round ----------

  function BirthRank(m: seq<Block>, blocks: seq<Block>): Block -> int {
    (b: Block) => Birth(m, blocks, b.id)
  }

  /** A round prints exactly the live ids with their final blocks, the most urgent first, blocks of
      equal priority in the order of birth. */
  lemma RoundIsRanked(m: seq<Block>, blocks: seq<Block>, sanitize: string -> string)
    requires DistinctIds(m)
    ensures var s := Round(m, blocks, sanitize);
            && IsRankedBy(s, Urgency(), BirthRank(m, blocks))
            && (forall b: Block :: b in s <==> Alive(m, blocks, b.id) && b == Final(m, blocks, sanitize, b.id))
            && (forall id :: HasId(s, id) <==> Alive(m, blocks, id))
            && DistinctIds(s)
  {
    var r := Merge(m, blocks, sanitize);
    MergeIsMerged(m, blocks, sanitize);
    SortByKeepsRanks(r, Urgency(), BirthRank(m, blocks));
    SortByElements(r, Urgency());
    var s := Printed(r);
    forall b: Block | Alive(m, blocks, b.id) && b == Final(m, blocks, sanitize, b.id) ensures b in r {
      assert HasId(r, b.id);
      var i :| 0 <= i < |r| && r[i].id == b.id;
      assert r[i] in r;
    }
    SameIds(r, s);
    RankedIdsDistinct(m, blocks, sanitize, s);
  }

  lemma SameIds(r: seq<Block>, s: seq<Block>)
    requires forall b :: b in r <==> b in s
    ensures forall id :: HasId(r, id) <==> HasId(s, id)
  {
    forall id ensures HasId(r, id) <==> HasId(s, id) {
      if HasId(r, id) {
        var i :| 0 <= i < |r| && r[i].id == id;
        assert r[i] in s;
      }
      if HasId(s, id) {
        var i :| 0 <= i < |s| && s[i].id == id;
        assert s[i] in r;
      }
    }
  }

  lemma RankedIdsDistinct(m: seq<Block>, blocks: seq<Block>, sanitize: string -> string, s: seq<Block>)
    requires IsRankedBy(s, Urgency(), BirthRank(m, blocks))
    requires forall b <- s :: Alive(m, blocks, b.id) && b == Final(m, blocks, sanitize, b.id)
    ensures DistinctIds(s)
  {
    forall i, j | 0 <= i < j < |s| ensures s[i].id != s[j].id {
      assert Precedes(s[i], s[j], Urgency(), BirthRank(m, blocks));
      assert s[i] in s && s[j] in s;
    }
  }

  // ---------- what does not depend on the file ----------

  predicate Touched(blocks: seq<Block>, id: string) {
    exists k :: 0 <= k < |blocks| && blocks[k].id == id
  }

  /** The list asks for the id to be deleted at some point. */
  predicate Emptied(blocks: seq<Block>, id: string) {
    exists k :: 0 <= k < |blocks| && blocks[k].id == id && blocks[k].content == ""
  }

  lemma {:induction false} TouchedIsIndependent(m: seq<Block>, n: seq<Block>, blocks: seq<Block>,
          sanitize: string -> string, id: string)
    requires Touched(blocks, id)
    ensures Alive(m, blocks, id) == Alive(n, blocks, id)
    ensures Alive(m, blocks, id) ==> Final(m, blocks, sanitize, id) == Final(n, blocks, sanitize, id)
  {
    var before := blocks[..|blocks| - 1];
    if blocks[|blocks| - 1].id != id {
      var k :| 0 <= k < |blocks| && blocks[k].id == id;
      assert before[k].id == id;
      TouchedIsIndependent(m, n, before, sanitize, id);
    }
  }

  lemma {:induction false} UntouchedStays(m: seq<Block>, blocks: seq<Block>, sanitize: string -> string, id: string)
    requires !Touched(blocks, id)
    ensures Alive(m, blocks, id) == HasId(m, id)
    ensures HasId(m, id) ==> Final(m, blocks, sanitize, id) == m[Place(m, id)]
  {
    if blocks == [] {
    } else {
      var before := blocks[..|blocks| - 1];
      assert blocks[|blocks| - 1].id != id;
      assert forall k :: 0 <= k < |before| ==> before[k] == blocks[k];
      UntouchedStays(m, before, sanitize, id);
    }
  }

  /** An id that is never emptied and was there keeps its place. */
  lemma {:induction false} KeptPlace(m: seq<Block>, blocks: seq<Block>, id: string)
    requires HasId(m, id) && !Emptied(blocks, id)
    ensures Alive(m, blocks, id) && Birth(m, blocks, id) == Place(m, id)
  {
    if blocks == [] {
    } else {
      var before := blocks[..|blocks| - 1];
      assert forall k :: 0 <= k < |before| ==> before[k] == blocks[k];
      KeptPlace(m, before, id);
      assert blocks[|blocks| - 1].id == id ==> blocks[|blocks| - 1].content != "";
    }
  }

  /** An id that is emptied and put in again takes a new place at the end, at a time that depends
      on the list only. */
  lemma {:induction false} Reborn(m: seq<Block>, n: seq<Block>, blocks: seq<Block>, sanitize: string -> string,
          id: string)
    requires Emptied(blocks, id) && Alive(m, blocks, id)
    ensures Alive(n, blocks, id) && Birth(m, blocks, id) >= |m|
    ensures Birth(m, blocks, id) - |m| == Birth(n, blocks, id) - |n|
  {
    var before, last := blocks[..|blocks| - 1], blocks[|blocks| - 1];
    var k :| 0 <= k < |blocks| && blocks[k].id == id && blocks[k].content == "";
    assert k < |before|;
    assert before[k].id == id && before[k].content == "";
    assert Touched(before, id);
    TouchedIsIndependent(m, n, before, sanitize, id);
    if last.id != id || Alive(m, before, id) {
      Reborn(m, n, before, sanitize, id);
    }
  }

  // ---------- the second round ----------

  /** `x` and `y` end up with equal priorities, the list empties `x` and fills it again, it never
      empties `y`, and `y` came in after `x`: the second time `y` is already there, so `x` falls
      behind it. */
  predicate Overtakes(m: seq<Block>, blocks: seq<Block>, sanitize: string -> string, x: string, y: string) {
    && Alive(m, blocks, x) && Alive(m, blocks, y)
    && Emptied(blocks, x) && !Emptied(blocks, y)
    && Final(m, blocks, sanitize, x).priority == Final(m, blocks, sanitize, y).priority
    && Birth(m, blocks, x) < Birth(m, blocks, y)
  }

  lemma PlaceIsIndex(m: seq<Block>, i: nat)
    requires DistinctIds(m) && i < |m|
    ensures Place(m, m[i].id) == i && HasId(m, m[i].id)
  {
  }

  lemma UnrankedIds(s: seq<Block>)
    ensures forall id :: HasId(Unranked(s), id) <==> HasId(s, id)
    ensures DistinctIds(s) ==> DistinctIds(Unranked(s))
  {
    var u := Unranked(s);
    forall id ensures HasId(u, id) <==> HasId(s, id) {
      assert forall i :: 0 <= i < |s| ==> u[i].id == s[i].id;
      assert HasId(u, id) ==> exists i :: 0 <= i < |s| && s[i].id == id;
      if HasId(s, id) {
        var i :| 0 <= i < |s| && s[i].id == id;
        assert u[i].id == id;
      }
    }
  }

  /** Reading the printed blocks back and merging the same list gives the same blocks. */
  lemma SecondRoundSameBlock(m: seq<Block>, blocks: seq<Block>, sanitize: string -> string, id: string)
    requires DistinctIds(m) && AllUnranked(m)
    ensures var m2 := Unranked(Round(m, blocks, sanitize));
            && Alive(m2, blocks, id) == Alive(m, blocks, id)
            && (Alive(m, blocks, id) ==> Final(m2, blocks, sanitize, id) == Final(m, blocks, sanitize, id))
  {
    var s := Round(m, blocks, sanitize);
    var m2 := Unranked(s);
    RoundIsRanked(m, blocks, sanitize);
    UnrankedIds(s);
    if Touched(blocks, id) {
      TouchedIsIndependent(m, m2, blocks, sanitize, id);
    } else {
      UntouchedStays(m, blocks, sanitize, id);
      UntouchedStays(m2, blocks, sanitize, id);
      if HasId(m, id) {
        var b := m[Place(m, id)];
        assert b in m;
        assert Alive(m, blocks, b.id) && b == Final(m, blocks, sanitize, b.id);
        var i :| 0 <= i < |s| && s[i] == b;
        PlaceIsIndex(m2, i);
      }
    }
  }

  /** The second round prints what the first did if and only if nothing is overtaken. */
  lemma SecondRoundAgrees(m: seq<Block>, blocks: seq<Block>, sanitize: string -> string)
    requires DistinctIds(m) && AllUnranked(m)
    ensures var s := Round(m, blocks, sanitize);
            Round(Unranked(s), blocks, sanitize) == s <==>
            !exists x, y :: Overtakes(m, blocks, sanitize, x, y)
  {
    var s := Round(m, blocks, sanitize);
    var m2 := Unranked(s);
    var t := Round(m2, blocks, sanitize);
    RoundIsRanked(m, blocks, sanitize);
    UnrankedIds(s);
    RoundIsRanked(m2, blocks, sanitize);
    forall id ensures Alive(m2, blocks, id) == Alive(m, blocks, id)
                      && (Alive(m, blocks, id) ==> Final(m2, blocks, sanitize, id) == Final(m, blocks, sanitize, id))
    {
      SecondRoundSameBlock(m, blocks, sanitize, id);
    }
    if x, y :| Overtakes(m, blocks, sanitize, x, y) {
      OvertakenMoves(m, blocks, sanitize, x, y);
    } else {
      NothingMoves(m, blocks, sanitize);
      RankedIsUnique(s, t, Urgency(), BirthRank(m2, blocks));
    }
  }

  lemma OvertakenIsFirst(m: seq<Block>, blocks: seq<Block>, sanitize: string -> string, x: string, y: string)
    returns (i: nat, j: nat)
    requires DistinctIds(m) && Overtakes(m, blocks, sanitize, x, y)
    ensures var s := Round(m, blocks, sanitize);
            i < j < |s| && s[i].id == x && s[j].id == y && s[i].priority == s[j].priority
  {
    var s := Round(m, blocks, sanitize);
    RoundIsRanked(m, blocks, sanitize);
    var fx, fy := Final(m, blocks, sanitize, x), Final(m, blocks, sanitize, y);
    FinalId(m, blocks, sanitize, x);
    FinalId(m, blocks, sanitize, y);
    i :| 0 <= i < |s| && s[i] == fx;
    j :| 0 <= j < |s| && s[j] == fy;
    assert !Precedes(fy, fx, Urgency(), BirthRank(m, blocks)) && i != j;
  }

  lemma OvertakenMoves(m: seq<Block>, blocks: seq<Block>, sanitize: string -> string, x: string, y: string)
    requires DistinctIds(m) && AllUnranked(m) && Overtakes(m, blocks, sanitize, x, y)
    ensures var s := Round(m, blocks, sanitize); Round(Unranked(s), blocks, sanitize) != s
  {
    var s := Round(m, blocks, sanitize);
    var m2 := Unranked(s);
    RoundIsRanked(m, blocks, sanitize);
    UnrankedIds(s);
    RoundIsRanked(m2, blocks, sanitize);
    var i, j := OvertakenIsFirst(m, blocks, sanitize, x, y);
    hide Round, Alive, Emptied, Final, HasId, DistinctIds;
    Reborn(m, m2, blocks, sanitize, x);
    Reborn(m2, m, blocks, sanitize, x);
    PlaceIsIndex(m2, j);
    KeptPlace(m2, blocks, y);
    hide Birth, Place;
    assert !Precedes(s[i], s[j], Urgency(), BirthRank(m2, blocks));
  }

  lemma {:induction false} FinalId(m: seq<Block>, blocks: seq<Block>, sanitize: string -> string, id: string)
    requires Alive(m, blocks, id)
    ensures Final(m, blocks, sanitize, id).id == id
  {
    if blocks != [] && blocks[|blocks| - 1].id != id {
      FinalId(m, blocks[..|blocks| - 1], sanitize, id);
    }
  }

  lemma NothingMoves(m: seq<Block>, blocks: seq<Block>, sanitize: string -> string)
    requires DistinctIds(m) && AllUnranked(m)
    requires !exists x, y :: Overtakes(m, blocks, sanitize, x, y)
    ensures var s := Round(m, blocks, sanitize);
            IsRankedBy(s, Urgency(), BirthRank(Unranked(s), blocks))
  {
    var s := Round(m, blocks, sanitize);
    var m2 := Unranked(s);
    RoundIsRanked(m, blocks, sanitize);
    UnrankedIds(s);
    forall i, j | 0 <= i < j < |s| ensures Precedes(s[i], s[j], Urgency(), BirthRank(m2, blocks)) {
      assert Precedes(s[i], s[j], Urgency(), BirthRank(m, blocks));
      if s[i].priority == s[j].priority {
        NeighboursStay(m, blocks, sanitize, i, j);
      }
    }
  }

  lemma NeighboursStay(m: seq<Block>, blocks: seq<Block>, sanitize: string -> string, i: nat, j: nat)
    requires DistinctIds(m) && AllUnranked(m)
    requires !exists x, y :: Overtakes(m, blocks, sanitize, x, y)
    requires var s := Round(m, blocks, sanitize);
             i < j < |s| && s[i].priority == s[j].priority
    ensures var s := Round(m, blocks, sanitize);
            Birth(Unranked(s), blocks, s[i].id) < Birth(Unranked(s), blocks, s[j].id)
  {
    var s := Round(m, blocks, sanitize);
    var m2 := Unranked(s);
    RoundIsRanked(m, blocks, sanitize);
    UnrankedIds(s);
    var x, y := s[i].id, s[j].id;
    assert s[i] in s && s[j] in s;
    assert Precedes(s[i], s[j], Urgency(), BirthRank(m, blocks));
    assert !Overtakes(m, blocks, sanitize, x, y);
    PlaceIsIndex(m2, i);
    PlaceIsIndex(m2, j);
    if Emptied(blocks, y) {
      Reborn(m, m2, blocks, sanitize, y);
      Reborn(m2, m, blocks, sanitize, y);
    } else {
      KeptPlace(m2, blocks, y);
    }
    if Emptied(blocks, x) {
      Reborn(m, m2, blocks, sanitize, x);
      Reborn(m2, m, blocks, sanitize, x);
    } else {
      KeptPlace(m2, blocks, x);
    }
  }

  lemma UnrankedPrintsAsIs(m: seq<Block>)
    requires AllUnranked(m)
    ensures Printed(m) == m && Unranked(m) == m
  {
    forall i | 0 <= i < |m| ensures m[i].priority == 0 {
      assert m[i] in m;
    }
    SortedStaysPut(m, Urgency());
  }
}
