/**
 Edit distance between two strings (src/config/suggestions.ts).

 An edit script is a list of single-character edits run from left to right on a string.
 The two-row loop of the source is proved to return the length of a shortest script.
 */
module EditDistance {
  import opened Wrappers

  // ---------- edit scripts ----------

  /** One single-character edit of a string, at a position counted from the left. */
  datatype Edit =
    | Insert(at: nat, c: char)
    | Delete(at: nat)
    | Replace(at: nat, c: char)

  predicate Applies(e: Edit, s: string) {
    match e
    case Insert(at, _) => at <= |s|
    case Delete(at) => at < |s|
    case Replace(at, _) => at < |s|
  }

  function Apply(e: Edit, s: string): string
    requires Applies(e, s)
  {
    match e
    case Insert(at, c) => s[..at] + [c] + s[at..]
    case Delete(at) => s[..at] + s[at + 1..]
    case Replace(at, c) => s[..at] + [c] + s[at + 1..]
  }

  /** Running `script` on `a` is possible and gives `b`. */
  predicate IsScript(script: seq<Edit>, a: string, b: string) {
    if script == [] then a == b
    else Applies(script[0], a) && IsScript(script[1..], Apply(script[0], a), b)
  }

  lemma ScriptFront(e: Edit, rest: seq<Edit>, a: string, b: string)
    ensures IsScript([e] + rest, a, b) <==> Applies(e, a) && IsScript(rest, Apply(e, a), b)
  {
    hide Apply, Applies;
    assert ([e] + rest)[1..] == rest;
  }

  lemma NoEdits(a: string, b: string)
    ensures IsScript([], a, b) <==> a == b
  {
  }

  lemma {:induction false} ScriptConcat(s1: seq<Edit>, s2: seq<Edit>, a: string, b: string, c: string)
    requires IsScript(s1, a, b) && IsScript(s2, b, c)
    ensures IsScript(s1 + s2, a, c)
  {
    hide *;
    if s1 == [] {
      NoEdits(a, b);
      assert s1 + s2 == s2;
    } else {
      var e, rest := s1[0], s1[1..];
      assert [e] + rest == s1;
      ScriptFront(e, rest, a, b);
      ScriptConcat(rest, s2, Apply(e, a), b, c);
      ScriptFront(e, rest + s2, a, c);
      assert [e] + (rest + s2) == s1 + s2;
    }
  }

  /** A script still works when the same character is put at the end of both strings. */
  lemma {:induction false} ScriptLift(s: seq<Edit>, a: string, b: string, c: char)
    requires IsScript(s, a, b)
    ensures IsScript(s, a + [c], b + [c])
  {
    if s == [] {
    } else {
      assert Apply(s[0], a + [c]) == Apply(s[0], a) + [c];
      ScriptLift(s[1..], Apply(s[0], a), b, c);
    }
  }

  // ---------- the recurrence ----------

  function Min3(x: nat, y: nat, z: nat): nat {
    if x <= y && x <= z then x else if y <= z then y else z
  }

  function Cost(x: char, y: char): nat { if x == y then 0 else 1 }

  function Init(s: string): string
    requires s != ""
  {
    s[..|s| - 1]
  }

  function Last(s: string): char
    requires s != ""
  {
    s[|s| - 1]
  }

  /** The value the dynamic programme gives to a pair of prefixes. */
  function Distance(a: string, b: string): nat
    decreases |a| + |b|
  {
    if a == "" then |b|
    else if b == "" then |a|
    else Min3(Distance(Init(a), b) + 1,
              Distance(a, Init(b)) + 1,
              Distance(Init(a), Init(b)) + Cost(Last(a), Last(b)))
  }

  // ---------- the distance is the length of a shortest script ----------

  lemma EndWithInsert(s: seq<Edit>, a: string, b: string)
    requires b != "" && IsScript(s, a, Init(b))
    ensures IsScript(s + [Insert(|b| - 1, Last(b))], a, b)
  {
    var e := Insert(|b| - 1, Last(b));
    assert Apply(e, Init(b)) == b;
    assert [e][1..] == [];
    ScriptConcat(s, [e], a, Init(b), b);
  }

  lemma BeginWithDelete(s: seq<Edit>, a: string, b: string)
    requires a != "" && IsScript(s, Init(a), b)
    ensures IsScript([Delete(|a| - 1)] + s, a, b)
  {
    assert Apply(Delete(|a| - 1), a) == Init(a);
    assert ([Delete(|a| - 1)] + s)[1..] == s;
  }

  lemma BeginWithReplace(s: seq<Edit>, a: string, b: string)
    requires a != "" && b != "" && IsScript(s, Init(a), Init(b))
    ensures IsScript([Replace(|a| - 1, Last(b))] + s, a, b)
  {
    var e := Replace(|a| - 1, Last(b));
    assert Applies(e, a) && Apply(e, a) == Init(a) + [Last(b)];
    assert Init(b) + [Last(b)] == b;
    hide *;
    ScriptLift(s, Init(a), Init(b), Last(b));
    ScriptFront(e, s, a, b);
  }

  lemma KeepLast(s: seq<Edit>, a: string, b: string)
    requires a != "" && b != "" && Last(a) == Last(b) && IsScript(s, Init(a), Init(b))
    ensures IsScript(s, a, b)
  {
    hide IsScript;
    ScriptLift(s, Init(a), Init(b), Last(b));
    assert Init(b) + [Last(b)] == b && Init(a) + [Last(a)] == a;
  }

  /** Some script from `a` to `b` has exactly the computed length. */
  lemma {:induction false} DistanceIsAttained(a: string, b: string) returns (script: seq<Edit>)
    ensures IsScript(script, a, b)
    ensures |script| == Distance(a, b)
    decreases |a| + |b|
  {
    if a == "" && b == "" {
      script := [];
    } else if a == "" || (b != "" && Distance(a, b) == Distance(a, Init(b)) + 1) {
      var s := DistanceIsAttained(a, Init(b));
      EndWithInsert(s, a, b);
      script := s + [Insert(|b| - 1, Last(b))];
    } else if b == "" || Distance(a, b) == Distance(Init(a), b) + 1 {
      var s := DistanceIsAttained(Init(a), b);
      BeginWithDelete(s, a, b);
      script := [Delete(|a| - 1)] + s;
    } else {
      script := DistanceIsAttained(Init(a), Init(b));
      if Last(a) == Last(b) {
        KeepLast(script, a, b);
      } else {
        BeginWithReplace(script, a, b);
        script := [Replace(|a| - 1, Last(b))] + script;
      }
    }
  }

  lemma {:induction false} DistanceBounds(a: string, b: string)
    ensures |a| <= |b| + Distance(a, b)
    ensures |b| <= |a| + Distance(a, b)
    ensures Distance(a, b) <= if |a| <= |b| then |b| else |a|
    decreases |a| + |b|
  {
    if a != "" && b != "" {
      DistanceBounds(Init(a), b);
      DistanceBounds(a, Init(b));
      DistanceBounds(Init(a), Init(b));
    }
  }

  lemma {:induction false} DistanceSelf(a: string)
    ensures Distance(a, a) == 0
  {
    if a == "" {
    } else {
      DistanceSelf(Init(a));
    }
  }

  lemma {:induction false} DistanceZeroOnlyForEqual(a: string, b: string)
    ensures Distance(a, b) == 0 <==> a == b
    decreases |a| + |b|
  {
    DistanceSelf(a);
    if a != "" && b != "" && Distance(a, b) == 0 {
      DistanceZeroOnlyForEqual(Init(a), Init(b));
      assert a == Init(a) + [Last(a)] == Init(b) + [Last(b)] == b;
    }
  }

  lemma {:induction false} DistanceSymmetric(a: string, b: string)
    ensures Distance(a, b) == Distance(b, a)
    decreases |a| + |b|
  {
    if a != "" && b != "" {
      DistanceSymmetric(Init(a), b);
      DistanceSymmetric(a, Init(b));
      DistanceSymmetric(Init(a), Init(b));
    }
  }

  lemma DistanceStep(a: string, b: string)
    requires a != "" && b != ""
    ensures Distance(a, b) <= Distance(Init(a), b) + 1 && Distance(a, b) <= Distance(a, Init(b)) + 1
    ensures Distance(a, b) <= Distance(Init(a), Init(b)) + Cost(Last(a), Last(b))
    ensures Distance(a, b) == Distance(Init(a), b) + 1 || Distance(a, b) == Distance(a, Init(b)) + 1
            || Distance(a, b) == Distance(Init(a), Init(b)) + Cost(Last(a), Last(b))
  {
  }

  lemma {:induction false} DistanceTriangle(a: string, b: string, c: string)
    ensures Distance(a, c) <= Distance(a, b) + Distance(b, c)
    decreases |a| + |b| + |c|
  {
    hide Distance, Last;
    DistanceBounds(a, b);
    DistanceBounds(b, c);
    if a != "" && b != "" && c != "" {
      DistanceStep(a, b);
      DistanceStep(b, c);
      DistanceStep(a, c);
      DistanceTriangle(Init(a), b, c);
      DistanceTriangle(a, b, Init(c));
      DistanceTriangle(a, Init(b), c);
      DistanceTriangle(Init(a), Init(b), c);
      DistanceTriangle(a, Init(b), Init(c));
      DistanceTriangle(Init(a), Init(b), Init(c));
    } else {
      DistanceBounds(a, c);
    }
  }

  /** A common ending never increases the distance. */
  lemma {:induction false} DistanceCommonSuffix(a: string, b: string, s: string)
    ensures Distance(a + s, b + s) <= Distance(a, b)
    decreases |s|
  {
    if s == "" {
      assert a + s == a && b + s == b;
    } else {
      DistanceCommonSuffix(a, b, Init(s));
      assert Init(a + s) == a + Init(s) && Init(b + s) == b + Init(s);
      assert Last(a + s) == Last(s) == Last(b + s);
    }
  }

  /** Growing a string by one character, or changing its last one, costs at most one. */
  lemma LastCharacterDistance(p: string, x: char, y: char)
    ensures Distance(p, p + [y]) <= 1
    ensures Distance(p + [x], p) <= 1
    ensures Distance(p + [x], p + [y]) <= 1
  {
    DistanceSelf(p);
    assert Init(p + [x]) == p && Init(p + [y]) == p;
  }

  lemma DistanceBeforeSuffix(x: string, y: string, s: string, a: string, b: string)
    requires a == x + s && b == y + s
    ensures Distance(a, b) <= Distance(x, y)
  {
    DistanceCommonSuffix(x, y, s);
  }

  lemma OneEditDistance(e: Edit, a: string)
    requires Applies(e, a)
    ensures Distance(a, Apply(e, a)) <= 1
  {
    hide Distance;
    var p, x := a[..e.at], if e.at < |a| then a[e.at] else ' ';
    var c := if e.Delete? then x else e.c;
    LastCharacterDistance(p, x, c);
    match e {
      case Insert(_, _) => DistanceBeforeSuffix(p, p + [c], a[e.at..], a, Apply(e, a));
      case Delete(_) => DistanceBeforeSuffix(p + [x], p, a[e.at + 1..], a, Apply(e, a));
      case Replace(_, _) => DistanceBeforeSuffix(p + [x], p + [c], a[e.at + 1..], a, Apply(e, a));
    }
  }

  /** No script from `a` to `b` is shorter than the computed distance. */
  lemma {:induction false} DistanceIsLeast(script: seq<Edit>, a: string, b: string)
    requires IsScript(script, a, b)
    ensures Distance(a, b) <= |script|
  {
    if script == [] {
      DistanceSelf(a);
    } else {
      var a1 := Apply(script[0], a);
      DistanceIsLeast(script[1..], a1, b);
      OneEditDistance(script[0], a);
      DistanceTriangle(a, a1, b);
    }
  }

  // ---------- the two-row loop ----------

  const UINT32_LIMIT: nat := 0x1_0000_0000

  /** What storing a non-negative number into a cell of a Uint32Array keeps of it. */
  function ToUint32(n: nat): nat { n % UINT32_LIMIT }

  /** Distance between the first `i` characters of `a` and the first `j` of `b`. */
  function Cell(a: string, b: string, i: nat, j: nat): nat
    requires i <= |a| && j <= |b|
  {
    Distance(a[..i], b[..j])
  }

  /** The first `filled` cells of the row hold the distances from `a[..i]`. */
  ghost predicate IsRow(row: array<nat>, a: string, b: string, i: nat, filled: nat)
    reads row
    requires i <= |a| && filled <= row.Length && filled <= |b| + 1
  {
    forall j :: 0 <= j < filled ==> row[j] == Cell(a, b, i, j)
  }

  lemma CellIsDistance(a: string, b: string)
    ensures Cell(a, b, |a|, |b|) == Distance(a, b)
  {
    assert a[..|a|] == a && b[..|b|] == b;
  }

  /** Row and column zero, as stored. */
  lemma EdgeCells(a: string, b: string, k: nat)
    ensures k <= |b| && |b| < UINT32_LIMIT ==> ToUint32(k) == Cell(a, b, 0, k)
    ensures k <= |a| && |a| < UINT32_LIMIT ==> ToUint32(k) == Cell(a, b, k, 0)
  {
  }

  /** One cell of the new row from its three neighbours. */
  lemma CellFromNeighbours(a: string, b: string, i: nat, j: nat)
    requires 1 <= i <= |a| && 1 <= j <= |b|
    ensures Cell(a, b, i, j) ==
            Min3(Cell(a, b, i - 1, j) + 1,
                 Cell(a, b, i, j - 1) + 1,
                 Cell(a, b, i - 1, j - 1) + if a[i - 1] == b[j - 1] then 0 else 1)
  {
    assert Init(a[..i]) == a[..i - 1] && Init(b[..j]) == b[..j - 1];
  }

  /** The cell fits: storing it does not change it. */
  lemma CellFits(a: string, b: string, i: nat, j: nat)
    requires i <= |a| < UINT32_LIMIT && j <= |b| < UINT32_LIMIT
    ensures ToUint32(Cell(a, b, i, j)) == Cell(a, b, i, j)
  {
    DistanceBounds(a[..i], b[..j]);
  }

  /** The two-row programme. While a row is being written only cells already rewritten in this
      round are read from it, so the stale numbers a swap leaves behind are never seen: the
      invariants say nothing about them. Cells wrap like those of a Uint32Array; for strings
      shorter than the cell range no cell ever wraps. */
  method Levenshtein(a: string, b: string) returns (d: nat)
    ensures |a| < UINT32_LIMIT && |b| < UINT32_LIMIT ==> d == Distance(a, b)
  {
    hide Distance, Cell, ToUint32, Min3;
    var la, lb := |a|, |b|;
    DistanceBounds(a, b);
    if la == 0 {
      return lb;
    }
    if lb == 0 {
      return la;
    }
    ghost var fits := la < UINT32_LIMIT && lb < UINT32_LIMIT;
    var prev := new nat[lb + 1](_ => 0);
    var curr := new nat[lb + 1](_ => 0);
    for j := 0 to lb + 1
      invariant fits ==> IsRow(prev, a, b, 0, j)
    {
      prev[j] := ToUint32(j);
      EdgeCells(a, b, j);
    }
    for i := 1 to la + 1
      invariant prev.Length == curr.Length == lb + 1 && prev != curr && fresh(prev) && fresh(curr)
      invariant fits ==> IsRow(prev, a, b, i - 1, lb + 1)
    {
      curr[0] := ToUint32(i);
      EdgeCells(a, b, i);
      for j := 1 to lb + 1
        invariant fits ==> IsRow(prev, a, b, i - 1, lb + 1)
        invariant fits ==> IsRow(curr, a, b, i, j)
      {
        var cost := if a[i - 1] == b[j - 1] then 0 else 1;
        curr[j] := ToUint32(Min3(prev[j] + 1, curr[j - 1] + 1, prev[j - 1] + cost));
        if fits {
          CellFromNeighbours(a, b, i, j);
          CellFits(a, b, i, j);
        }
      }
      var swap := prev;
      prev := curr;
      curr := swap;
    }
    d := prev[lb];
    CellIsDistance(a, b);
  }

  // ---------- suggestions ----------

  /** Distance from the input to a key, both lower-cased. Lower-casing is a given function. */
  function KeyDistance(lower: string -> string, input: string, key: string): nat {
    Distance(lower(input), lower(key))
  }

  predicate ShortEnough(lower: string -> string, input: string, keys: seq<string>) {
    |lower(input)| < UINT32_LIMIT && forall k <- keys :: |lower(k)| < UINT32_LIMIT
  }

  /** The answer is the first of the nearest keys, and there is an answer exactly when some key
      is near enough. */
  method FindClosestKey(lower: string -> string, input: string, validKeys: seq<string>, maxDistance: int)
    returns (r: Option<string>)
    requires ShortEnough(lower, input, validKeys)
    ensures r.Some? <==> exists k <- validKeys :: KeyDistance(lower, input, k) <= maxDistance
    ensures r.Some? ==>
              exists i :: 0 <= i < |validKeys| && validKeys[i] == r.value
                          && (forall j :: 0 <= j < i ==>
                                KeyDistance(lower, input, validKeys[i]) < KeyDistance(lower, input, validKeys[j]))
                          && (forall j :: i <= j < |validKeys| ==>
                                KeyDistance(lower, input, validKeys[i]) <= KeyDistance(lower, input, validKeys[j]))
  {
    if |validKeys| == 0 {
      return None;
    }
    var low := lower(input);
    var bestKey: Option<string> := None;
    var bestDist: int := maxDistance + 1;
    ghost var at := 0;
    for n := 0 to |validKeys|
      invariant bestKey.None? ==> bestDist == maxDistance + 1
      invariant bestKey.Some? ==>
                  && bestDist <= maxDistance
                  && at < n && validKeys[at] == bestKey.value
                  && bestDist == KeyDistance(lower, input, validKeys[at])
                  && forall j :: 0 <= j < at ==> bestDist < KeyDistance(lower, input, validKeys[j])
      invariant forall j :: 0 <= j < n ==> bestDist <= KeyDistance(lower, input, validKeys[j])
    {
      var dist := Levenshtein(low, lower(validKeys[n]));
      if dist < bestDist {
        bestDist := dist;
        bestKey := Some(validKeys[n]);
        at := n;
      }
    }
    r := if bestDist <= maxDistance then bestKey else None;
  }
}
