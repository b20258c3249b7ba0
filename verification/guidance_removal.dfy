/**
 Removing guidance (`removeGuidance` in src/config/markers.ts), and the whole section going when an
 injection leaves no block: what stays of the file and what is reported.
 */
module GuidanceRemoval {
  import opened Text
  import opened Blocks
  import opened BlockOrder
  import opened Markers
  import opened Guidance
  import opened GuidanceLaws
  import opened Wrappers

  lemma NoMarkers(f: string)
    requires !Contains(f, StartMarker()) && !Contains(f, EndMarker())
    ensures IsWellFormed(f) && Locate(f) == None && Cut(f) == Parts(f, "", "") && Existing(f) == []
  {
  }

  /** Injecting into a file without markers and taking the whole section out again gives the text
      back with its trailing newlines replaced by one. */
  lemma InjectThenRemoveAll(f: string, blocks: seq<Block>, sanitize: string -> string)
    requires !Contains(f, StartMarker()) && !Contains(f, EndMarker())
    requires AllValid(blocks) && ContentsFit(blocks, sanitize) && Merge([], blocks, sanitize) != []
    ensures RemovedText(InjectedText(f, blocks, sanitize), None) == TrimEnd(f) + "\n"
  {
    NoMarkers(f);
    InjectRefinesMap(f, blocks, sanitize);
    hide Contains, Locate, Cut, InjectedText, TrimEnd, Merge, AllValid, ContentsFit, KeepsAround;
    assert TrimStart("") == "";
  }

  /** The blocks that are not listed, in their order. */
  function Without(m: seq<Block>, ids: seq<string>): seq<Block> {
    if m == [] then []
    else (if m[0].id in ids then [] else [m[0]]) + Without(m[1..], ids)
  }

  lemma {:induction false} WithoutNone(m: seq<Block>)
    ensures Without(m, []) == m
  {
    if m == [] {
    } else {
      WithoutNone(m[1..]);
    }
  }

  lemma PlaceFromFront(b: Block, w: seq<Block>, id: string)
    ensures Place([b] + w, id) == if b.id == id then 0 else 1 + Place(w, id)
  {
    assert ([b] + w)[1..] == w;
    hide HasId;
  }

  lemma CutBehindFront<T>(x: T, w: seq<T>, i: nat)
    requires i < |w|
    ensures ([x] + w)[..i + 1] + ([x] + w)[i + 2..] == [x] + (w[..i] + w[i + 1..])
  {
  }

  lemma DropFromFront(b: Block, w: seq<Block>, id: string)
    ensures Drop([b] + w, id) == if b.id == id then w else [b] + Drop(w, id)
  {
    PlaceFromFront(b, w, id);
    var i := Place(w, id);
    hide Place, HasId;
    if b.id == id {
      assert ([b] + w)[..0] + ([b] + w)[1..] == w;
    } else if i < |w| {
      CutBehindFront(b, w, i);
    }
  }

  lemma {:induction false} DropFromWithout(m: seq<Block>, ids: seq<string>, id: string)
    requires DistinctIds(m)
    ensures Drop(Without(m, ids), id) == Without(m, ids + [id])
  {
    if m != [] {
      WithoutFront(m, ids);
      WithoutFront(m, ids + [id]);
      DropFromWithout(m[1..], ids, id);
      hide *;
      var w := Without(m[1..], ids);
      assert m[0].id in ids + [id] <==> m[0].id in ids || m[0].id == id;
      if m[0].id !in ids {
        DropFromFront(m[0], w, id);
        if m[0].id == id {
          NotInTail(m, ids, id);
          DropMissing(w, id);
        }
      }
    } else {
      DropMissing([], id);
    }
  }

  lemma WithoutFront(m: seq<Block>, ids: seq<string>)
    requires m != []
    ensures Without(m, ids) == if m[0].id in ids then Without(m[1..], ids) else [m[0]] + Without(m[1..], ids)
  {
  }

  lemma DropMissing(w: seq<Block>, id: string)
    requires !HasId(w, id)
    ensures Drop(w, id) == w
  {
  }

  lemma NotInTail(m: seq<Block>, ids: seq<string>, id: string)
    requires m != [] && DistinctIds(m) && m[0].id == id
    ensures !HasId(Without(m[1..], ids), id)
  {
    WithoutMembers(m[1..], ids);
    var w := Without(m[1..], ids);
    forall i | 0 <= i < |w| ensures w[i].id != id {
      assert w[i] in w;
      var j :| 0 <= j < |m[1..]| && m[1..][j] == w[i];
    }
  }

  lemma {:induction false} WithoutMembers(m: seq<Block>, ids: seq<string>)
    ensures forall b :: b in Without(m, ids) <==> b in m && b.id !in ids
  {
    if m == [] {
    } else {
      WithoutMembers(m[1..], ids);
      assert m == [m[0]] + m[1..];
    }
  }

  lemma {:induction false} WithoutDistinct(m: seq<Block>, ids: seq<string>)
    requires DistinctIds(m)
    ensures DistinctIds(Without(m, ids))
  {
    if m == [] {
    } else {
      WithoutDistinct(m[1..], ids);
      NotInTail(m, ids, m[0].id);
    }
  }

  /** The deleting loop leaves exactly the blocks that are not listed. */
  lemma {:induction false} DropAllIsWithout(m: seq<Block>, ids: seq<string>)
    requires DistinctIds(m)
    ensures DropAll(m, ids) == Without(m, ids)
  {
    hide Drop, Without, DistinctIds;
    if ids == [] {
      WithoutNone(m);
    } else {
      var before, last := ids[..|ids| - 1], ids[|ids| - 1];
      DropAllIsWithout(m, before);
      DropFromWithout(m, before, last);
      assert before + [last] == ids;
    }
  }

  /** What is reported as removed: each listed id that was there, once, in the order of the list. */
  lemma {:induction false} DroppedAreListed(m: seq<Block>, ids: seq<string>)
    requires DistinctIds(m)
    ensures forall id :: id in Dropped(m, ids) <==> id in ids && HasId(m, id)
    ensures forall i, j :: 0 <= i < j < |Dropped(m, ids)| ==> ComesBefore(ids, Dropped(m, ids)[i], Dropped(m, ids)[j])
  {
    if ids == [] {
    } else {
      var before, last := ids[..|ids| - 1], ids[|ids| - 1];
      assert ids == before + [last];
      DroppedAreListed(m, before);
      DropAllIsWithout(m, before);
      HasIdWithout(m, before, last);
      hide DropAll, HasId, Without, DistinctIds;
      DroppedOneMore(m, before, last);
      var d := Dropped(m, before);
      hide Dropped;
      forall i, j | 0 <= i < j < |Dropped(m, ids)|
        ensures ComesBefore(ids, Dropped(m, ids)[i], Dropped(m, ids)[j])
      {
        assert d[i] in d;
        if j < |d| {
          BeforeInLonger(before, last, d[i], d[j]);
        } else {
          LastComesAfter(before, last, d[i]);
        }
      }
    }
  }

  /** The first id is in the list at a place up to which the second one is not. */
  predicate ComesBefore(ids: seq<string>, x: string, y: string) {
    exists k :: 0 <= k < |ids| && ids[k] == x && y !in ids[..k + 1]
  }

  lemma BeforeInLonger(ids: seq<string>, last: string, x: string, y: string)
    requires ComesBefore(ids, x, y)
    ensures ComesBefore(ids + [last], x, y)
  {
    var k :| 0 <= k < |ids| && ids[k] == x && y !in ids[..k + 1];
    assert (ids + [last])[k] == x && (ids + [last])[..k + 1] == ids[..k + 1];
  }

  lemma LastComesAfter(ids: seq<string>, last: string, x: string)
    requires x in ids && last !in ids
    ensures ComesBefore(ids + [last], x, last)
  {
    var k :| 0 <= k < |ids| && ids[k] == x;
    assert (ids + [last])[k] == x && (ids + [last])[..k + 1] == ids[..k + 1];
  }

  lemma DroppedOneMore(m: seq<Block>, before: seq<string>, last: string)
    ensures Dropped(m, before + [last]) == Dropped(m, before) + if HasId(DropAll(m, before), last) then [last] else []
  {
    assert (before + [last])[..|before|] == before;
  }

  lemma HasIdWithout(m: seq<Block>, ids: seq<string>, id: string)
    ensures HasId(Without(m, ids), id) <==> HasId(m, id) && id !in ids
  {
    WithoutMembers(m, ids);
    var w := Without(m, ids);
    hide Without;
    if HasId(w, id) {
      var i :| 0 <= i < |w| && w[i].id == id;
      assert w[i] in w && w[i] in m;
    }
    if HasId(m, id) && id !in ids {
      var i :| 0 <= i < |m| && m[i].id == id;
      assert m[i] in m && m[i] in w;
    }
  }

  predicate SomeListed(m: seq<Block>, ids: seq<string>) { exists id <- ids :: HasId(m, id) }

  predicate AllListed(m: seq<Block>, ids: seq<string>) { forall b <- m :: b.id in ids }

  lemma DroppedNone(m: seq<Block>, ids: seq<string>)
    requires DistinctIds(m)
    ensures Dropped(m, ids) == [] <==> !SomeListed(m, ids)
  {
    DroppedAreListed(m, ids);
    hide HasId;
    if Dropped(m, ids) != [] {
      assert Dropped(m, ids)[0] in Dropped(m, ids);
    }
  }

  lemma DropAllNone(m: seq<Block>, ids: seq<string>)
    requires DistinctIds(m)
    ensures DropAll(m, ids) == [] <==> AllListed(m, ids)
  {
    DropAllIsWithout(m, ids);
    WithoutMembers(m, ids);
    hide Without, DropAll;
    if Without(m, ids) != [] {
      assert Without(m, ids)[0] in m;
    }
  }

  /** Removing some ids while others are left: the file reads back as the others in their order, in the
      same text up to newlines next to the section. */
  lemma RemoveKeepsOthers(f: string, ids: seq<string>)
    requires Locate(f).Some? && SomeListed(Existing(f), ids) && !AllListed(Existing(f), ids)
    ensures var g := RemovedText(f, Some(ids));
            && Locate(g).Some? && Existing(g) == Without(Existing(f), ids)
            && KeepsAround(Cut(f), Cut(g))
  {
    var m := Existing(f);
    var rest := DropAll(m, ids);
    ExistingIsStorable(f);
    DroppedNone(m, ids);
    DropAllNone(m, ids);
    DropAllIsWithout(m, ids);
    WithoutMembers(m, ids);
    WithoutDistinct(m, ids);
    UnrankedPrintsAsIs(rest);
    CutIsFree(f);
    WriteThenRead(Cut(f), rest);
    TrimmedAlike(Cut(f), Cut(WithSection(Cut(f), rest)));
  }

  /** Removing ids of which none is there changes nothing, and neither does a file without a section;
      removing all that are there takes the whole section. */
  lemma RemoveNoneOrAll(f: string, ids: seq<string>)
    ensures Locate(f).None? || !SomeListed(Existing(f), ids) ==> RemovedText(f, Some(ids)) == f
    ensures Locate(f).None? ==> RemovedText(f, None) == f
    ensures Locate(f).Some? && SomeListed(Existing(f), ids) && AllListed(Existing(f), ids) ==>
              RemovedText(f, Some(ids)) == RemovedText(f, None)
  {
    ExistingIsStorable(f);
    DroppedNone(Existing(f), ids);
    DropAllNone(Existing(f), ids);
    hide SomeListed, AllListed, WithoutSection, WithSection, Dropped, DropAll;
  }

  /** A text with a section: the first markers are where the parts say. */
  ghost predicate IsAround(f: string, before: string, inner: string, after: string) {
    && f == before + StartMarker() + inner + EndMarker() + after
    && IndexOf(f, StartMarker()) == |before| && IndexOf(f, EndMarker()) == |before| + |StartMarker()| + |inner|
  }

  lemma LocatedAround(f: string, before: string, inner: string, after: string)
    requires IsAround(f, before, inner, after)
    ensures Locate(f) == Some(Parts(before, inner, after))
  {
    var s, e := |before|, |before| + |StartMarker()| + |inner|;
    hide StartMarker, EndMarker, IndexOf;
    FiveParts(f, before, StartMarker(), inner, EndMarker(), after);
    LocateAt(f, s, e, Parts(before, inner, after));
  }

  lemma MarkersApart(f: string, s: int, e: int)
    requires At(f, StartMarker(), s) && At(f, EndMarker(), e) && e > s
    ensures e >= s + |StartMarker()|
  {
    assert forall k :: 1 <= k < |StartMarker()| ==> StartMarker()[k] != '<';
    assert EndMarker()[0] == '<' && |EndMarker()| > 0;
    hide StartMarker, EndMarker, At;
    AtChar(f, EndMarker(), e, 0);
    if e < s + |StartMarker()| {
      AtChar(f, StartMarker(), s, e - s);
    }
  }

  lemma FiveSlices(f: string, i: nat, j: nat, k: nat, l: nat)
    requires i <= j <= k <= l <= |f|
    ensures f == f[..i] + f[i..j] + f[j..k] + f[k..l] + f[l..]
  {
  }

  lemma LocatedIs(f: string) returns (s: nat, e: nat)
    requires Locate(f).Some?
    ensures IndexOf(f, StartMarker()) == s && IndexOf(f, EndMarker()) == e && e > s
    ensures At(f, StartMarker(), s) && At(f, EndMarker(), e)
    ensures s + |StartMarker()| <= e ==>
              Locate(f).value == Parts(f[..s], f[s + |StartMarker()|..e], f[e + |EndMarker()|..])
  {
    s, e := IndexOf(f, StartMarker()), IndexOf(f, EndMarker());
    hide StartMarker, EndMarker;
  }

  /** Every text in which a section is found is of this form: the markers do not overlap. */
  lemma FoundIsAround(f: string)
    requires Locate(f).Some?
    ensures var p := Locate(f).value; IsAround(f, p.before, p.inner, p.after)
  {
    hide StartMarker, EndMarker, IndexOf, Locate, Contains;
    var s, e := LocatedIs(f);
    MarkersApart(f, s, e);
    FiveSlices(f, s, s + |StartMarker()|, e, e + |EndMarker()|);
  }

  lemma FiveParts(f: string, a: string, b: string, c: string, d: string, e: string)
    requires f == a + b + c + d + e
    ensures f[..|a|] == a && f[|a| + |b|..|a| + |b| + |c|] == c && f[|a| + |b| + |c| + |d|..] == e
  {
  }

  /** Taking the whole section out, by a removal without ids or by a list that leaves no block, keeps
      exactly the text before it, without the newlines at its end, and the text after it. */
  lemma SectionTakenOut(f: string, before: string, inner: string, after: string, kept: string)
    requires IsAround(f, before, inner, after)
    requires IsThenNewlines(before, kept) && (kept == "" || kept[|kept| - 1] != '\n')
    ensures RemovedText(f, None) == kept + after
    ensures forall blocks, sanitize ::
              Merge(Existing(f), blocks, sanitize) == [] ==> InjectedText(f, blocks, sanitize) == kept + after
  {
    LocatedAround(f, before, inner, after);
    TrimmedIs(before, kept);
    hide IsAround, Locate, TrimEnd, IsThenNewlines, Merge, Existing;
  }
}
