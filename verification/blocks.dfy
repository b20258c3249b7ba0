/**
 The managed blocks of a file as an ordered map from ids to blocks, like the `Map` of
 src/config/markers.ts: a new id goes to the end, a known id keeps its place.
 */
module Blocks {
  import opened Sorting

  datatype Block = Block(id: string, content: string, priority: int)

  predicate DistinctIds(m: seq<Block>) {
    forall i, j :: 0 <= i < j < |m| ==> m[i].id != m[j].id
  }

  predicate HasId(m: seq<Block>, id: string) {
    exists i :: 0 <= i < |m| && m[i].id == id
  }

  /** Position of an id, or the length if it is missing. */
  function Place(m: seq<Block>, id: string): (i: nat)
    ensures i <= |m|
    ensures i < |m| ==> m[i].id == id
    ensures i < |m| <==> HasId(m, id)
    ensures forall j :: 0 <= j < i ==> m[j].id != id
  {
    if m == [] || m[0].id == id then 0
    else
      assert HasId(m, id) ==> HasId(m[1..], id) by {
        if HasId(m, id) {
          var k :| 0 <= k < |m| && m[k].id == id;
          assert m[1..][k - 1].id == id;
        }
      }
      1 + Place(m[1..], id)
  }

  function Put(m: seq<Block>, b: Block): seq<Block> {
    var i := Place(m, b.id);
    if i < |m| then m[i := b] else m + [b]
  }

  function Drop(m: seq<Block>, id: string): seq<Block> {
    var i := Place(m, id);
    if i < |m| then m[..i] + m[i + 1..] else m
  }

  /** One requested block: empty content deletes, other content is sanitized and stored. */
  function Request(m: seq<Block>, b: Block, sanitize: string -> string): seq<Block> {
    if b.content == "" then Drop(m, b.id)
    else Put(m, b.(content := sanitize(b.content)))
  }

  /** All requested blocks one after the other. */
  function Merge(m: seq<Block>, blocks: seq<Block>, sanitize: string -> string): seq<Block> {
    if blocks == [] then m
    else Request(Merge(m, blocks[..|blocks| - 1], sanitize), blocks[|blocks| - 1], sanitize)
  }

  // ---------- what merging does to one id ----------

  /** The id is there after merging. */
  predicate Alive(m: seq<Block>, blocks: seq<Block>, id: string) {
    if blocks == [] then HasId(m, id)
    else
      var last := blocks[|blocks| - 1];
      if last.id == id then last.content != ""
      else Alive(m, blocks[..|blocks| - 1], id)
  }

  /** The block it then has. */
  function Final(m: seq<Block>, blocks: seq<Block>, sanitize: string -> string, id: string): Block
    requires Alive(m, blocks, id)
  {
    if blocks == [] then m[Place(m, id)]
    else
      var last := blocks[|blocks| - 1];
      if last.id == id then last.(content := sanitize(last.content))
      else Final(m, blocks[..|blocks| - 1], sanitize, id)
  }

  /** When it took its place: ids the map began with count by position, ids put in later by the
      request that put them in for good. */
  function Birth(m: seq<Block>, blocks: seq<Block>, id: string): (t: nat)
    ensures Alive(m, blocks, id) ==> t < |m| + |blocks|
  {
    if blocks == [] then Place(m, id)
    else
      var before := blocks[..|blocks| - 1];
      if blocks[|blocks| - 1].id == id && !Alive(m, before, id) then |m| + |before|
      else Birth(m, before, id)
  }

  /** The merged map: exactly the live ids, each with its final block, in the order of birth. */
  ghost predicate IsMerged(m: seq<Block>, blocks: seq<Block>, sanitize: string -> string, r: seq<Block>) {
    && (forall id :: HasId(r, id) <==> Alive(m, blocks, id))
    && (forall b <- r :: Alive(m, blocks, b.id) && b == Final(m, blocks, sanitize, b.id))
    && (forall i, j :: 0 <= i < j < |r| ==> Birth(m, blocks, r[i].id) < Birth(m, blocks, r[j].id))
  }

  lemma {:induction false} MergeIsMerged(m: seq<Block>, blocks: seq<Block>, sanitize: string -> string)
    requires DistinctIds(m)
    ensures IsMerged(m, blocks, sanitize, Merge(m, blocks, sanitize))
    ensures DistinctIds(Merge(m, blocks, sanitize))
  {
    if blocks == [] {
      forall i | 0 <= i < |m| ensures Place(m, m[i].id) == i {
      }
    } else {
      var before, last := blocks[..|blocks| - 1], blocks[|blocks| - 1];
      MergeIsMerged(m, before, sanitize);
      var r := Merge(m, before, sanitize);
      if last.content == "" {
        DropMerged(m, blocks, sanitize, r);
      } else if HasId(r, last.id) {
        ReplaceMerged(m, blocks, sanitize, r);
      } else {
        AppendMerged(m, blocks, sanitize, r);
      }
    }
  }

  lemma CutOut<T>(s: seq<T>, k: nat, i: nat)
    requires k < |s| && i < |s| - 1
    ensures (s[..k] + s[k + 1..])[i] == s[if i < k then i else i + 1]
  {
  }

  lemma DropAt(r: seq<Block>, id: string, i: nat)
    requires i < |Drop(r, id)|
    ensures var j := if i < Place(r, id) then i else i + 1;
            j < |r| && Drop(r, id)[i] == r[j]
  {
    var k := Place(r, id);
    assert k <= |r|;
    hide HasId, Place;
    if k < |r| {
      CutOut(r, k, i);
    }
  }

  lemma DropFacts(r: seq<Block>, id: string)
    requires DistinctIds(r)
    ensures DistinctIds(Drop(r, id))
    ensures forall x :: HasId(Drop(r, id), x) <==> HasId(r, x) && x != id
    ensures forall b <- Drop(r, id) :: b in r && b.id != id
  {
    var k, d := Place(r, id), Drop(r, id);
    forall i | 0 <= i < |d| ensures d[i].id != id && d[i] in r {
      DropAt(r, id, i);
    }
    forall i, j | 0 <= i < j < |d| ensures d[i].id != d[j].id {
      DropAt(r, id, i);
      DropAt(r, id, j);
    }
    forall x | HasId(r, x) && x != id ensures HasId(d, x) {
      var i := Place(r, x);
      assert d[if i < k then i else i - 1].id == x;
    }
    forall x | HasId(d, x) ensures HasId(r, x) && x != id {
      var i := Place(d, x);
      assert d[i] in r;
    }
  }

  lemma DropMerged(m: seq<Block>, blocks: seq<Block>, sanitize: string -> string, r: seq<Block>)
    requires blocks != [] && IsMerged(m, blocks[..|blocks| - 1], sanitize, r) && DistinctIds(r)
    requires blocks[|blocks| - 1].content == ""
    ensures IsMerged(m, blocks, sanitize, Drop(r, blocks[|blocks| - 1].id))
    ensures DistinctIds(Drop(r, blocks[|blocks| - 1].id))
  {
    hide Place, Drop, HasId, DistinctIds;
    var id := blocks[|blocks| - 1].id;
    DropFacts(r, id);
    var d := Drop(r, id);
    forall i, j | 0 <= i < j < |d| ensures Birth(m, blocks, d[i].id) < Birth(m, blocks, d[j].id) {
      DropAt(r, id, i);
      DropAt(r, id, j);
      assert d[i] in d && d[j] in d;
    }
  }

  lemma PutFacts(r: seq<Block>, b: Block)
    requires DistinctIds(r) && HasId(r, b.id)
    ensures DistinctIds(Put(r, b)) && |Put(r, b)| == |r|
    ensures forall x :: HasId(Put(r, b), x) <==> HasId(r, x)
    ensures forall c <- Put(r, b) :: c == b || (c in r && c.id != b.id)
    ensures forall i :: 0 <= i < |r| ==> Put(r, b)[i].id == r[i].id
  {
    var p := Put(r, b);
    forall x ensures HasId(p, x) <==> HasId(r, x) {
      assert forall i :: 0 <= i < |r| && r[i].id == x ==> p[i].id == x;
    }
  }

  lemma ReplaceMerged(m: seq<Block>, blocks: seq<Block>, sanitize: string -> string, r: seq<Block>)
    requires blocks != [] && IsMerged(m, blocks[..|blocks| - 1], sanitize, r) && DistinctIds(r)
    requires var last := blocks[|blocks| - 1]; last.content != "" && HasId(r, last.id)
    ensures var last := blocks[|blocks| - 1];
            IsMerged(m, blocks, sanitize, Put(r, last.(content := sanitize(last.content))))
    ensures var last := blocks[|blocks| - 1]; DistinctIds(Put(r, last.(content := sanitize(last.content))))
  {
    hide Place, Put, HasId, DistinctIds;
    var last := blocks[|blocks| - 1];
    PutFacts(r, last.(content := sanitize(last.content)));
  }

  lemma AppendFacts(r: seq<Block>, b: Block)
    requires DistinctIds(r) && !HasId(r, b.id)
    ensures Put(r, b) == r + [b] && DistinctIds(r + [b])
    ensures forall id :: HasId(r + [b], id) <==> HasId(r, id) || id == b.id
    ensures forall c <- r :: c.id != b.id
  {
    var p := r + [b];
    forall id ensures HasId(p, id) <==> HasId(r, id) || id == b.id {
      assert forall i :: 0 <= i < |r| && r[i].id == id ==> p[i].id == id;
      assert p[|r|].id == b.id;
    }
  }

  lemma AppendMerged(m: seq<Block>, blocks: seq<Block>, sanitize: string -> string, r: seq<Block>)
    requires blocks != [] && IsMerged(m, blocks[..|blocks| - 1], sanitize, r) && DistinctIds(r)
    requires var last := blocks[|blocks| - 1]; last.content != "" && !HasId(r, last.id)
    ensures var last := blocks[|blocks| - 1];
            IsMerged(m, blocks, sanitize, Put(r, last.(content := sanitize(last.content))))
    ensures var last := blocks[|blocks| - 1]; DistinctIds(Put(r, last.(content := sanitize(last.content))))
  {
    hide Place, Put, HasId, DistinctIds;
    var last := blocks[|blocks| - 1];
    AppendFacts(r, last.(content := sanitize(last.content)));
  }
}
