/** Strings as the host language treats them: first occurrences and newline trimming. */
module Text {

  predicate At(s: string, pat: string, i: int) {
    0 <= i && i + |pat| <= |s| && s[i..i + |pat|] == pat
  }

  ghost predicate Contains(s: string, pat: string) {
    exists i :: At(s, pat, i)
  }

  function IndexFrom(s: string, pat: string, from: nat): (r: int)
    requires from <= |s|
    ensures r == -1 ==> forall i :: from <= i ==> !At(s, pat, i)
    ensures r != -1 ==> from <= r && At(s, pat, r) && forall i :: from <= i < r ==> !At(s, pat, i)
    decreases |s| - from
  {
    if At(s, pat, from) then from
    else if from == |s| then -1
    else IndexFrom(s, pat, from + 1)
  }

  /** Position of the first occurrence, -1 if there is none. */
  function IndexOf(s: string, pat: string): (r: int)
    ensures r == -1 <==> !Contains(s, pat)
    ensures r != -1 ==> At(s, pat, r) && forall i :: 0 <= i < r ==> !At(s, pat, i)
  {
    IndexFrom(s, pat, 0)
  }

  lemma IndexIsFirst(s: string, pat: string, k: int)
    requires At(s, pat, k) && forall i :: 0 <= i < k ==> !At(s, pat, i)
    ensures IndexOf(s, pat) == k
  {
  }

  // ---------- parts of a string ----------

  lemma AtInPart(x: string, y: string, z: string, pat: string, i: int)
    requires At(y, pat, i)
    ensures At(x + y + z, pat, |x| + i)
  {
    var s := x + y + z;
    assert s[|x| + i..|x| + i + |pat|] == y[i..i + |pat|];
  }

  lemma PartContainsLess(x: string, y: string, z: string, pat: string)
    requires !Contains(x + y + z, pat)
    ensures !Contains(y, pat)
  {
    forall i | At(y, pat, i) ensures false {
      AtInPart(x, y, z, pat, i);
    }
  }

  lemma PrefixContainsLess(x: string, z: string, pat: string)
    requires !Contains(x + z, pat)
    ensures !Contains(x, pat)
  {
    assert [] + x + z == x + z;
    PartContainsLess([], x, z, pat);
  }

  lemma AtCovers(s: string, pat: string, i: int, k: int)
    requires At(s, pat, i)
    ensures i <= k < i + |pat| ==> s[k] in pat
  {
    assert i <= k < i + |pat| ==> s[i..i + |pat|][k - i] == s[k];
  }

  /** A pattern without a newline lies on one side of a newline. */
  lemma AtAcrossNewline(x: string, y: string, pat: string, i: int)
    requires '\n' !in pat && pat != "" && At(x + "\n" + y, pat, i)
    ensures i + |pat| <= |x| ==> At(x, pat, i)
    ensures i + |pat| > |x| ==> i >= |x| + 1 && At(y, pat, i - |x| - 1)
  {
    var s := x + "\n" + y;
    AtCovers(s, pat, i, |x|);
    if i + |pat| <= |x| {
      assert s[i..i + |pat|] == x[i..i + |pat|];
    } else {
      var j := i - |x| - 1;
      assert s[i..i + |pat|] == y[j..j + |pat|];
    }
  }

  lemma ContainsAcrossNewline(x: string, y: string, pat: string)
    requires '\n' !in pat && pat != "" && !Contains(x, pat) && !Contains(y, pat)
    ensures !Contains(x + "\n" + y, pat)
  {
    forall i | At(x + "\n" + y, pat, i) ensures false {
      AtAcrossNewline(x, y, pat, i);
    }
  }

  /** The first occurrence is the one right after the newline if there is none before it. */
  lemma IndexAfterNewline(x: string, z: string, pat: string)
    requires '\n' !in pat && pat != "" && !Contains(x, pat)
    ensures IndexOf(x + "\n" + pat + z, pat) == |x| + 1
  {
    var s := x + "\n" + pat + z;
    assert s == x + "\n" + (pat + z);
    assert s[|x| + 1..|x| + 1 + |pat|] == pat;
    forall i | 0 <= i < |x| + 1 ensures !At(s, pat, i) {
      if At(s, pat, i) {
        AtAcrossNewline(x, pat + z, pat, i);
      }
    }
    IndexIsFirst(s, pat, |x| + 1);
  }

  // ---------- trimming newlines ----------

  function TrimEnd(s: string): (r: string)
    ensures r <= s
    ensures r == "" || r[|r| - 1] != '\n'
  {
    if s != "" && s[|s| - 1] == '\n' then TrimEnd(s[..|s| - 1]) else s
  }

  function TrimStart(s: string): (r: string)
    ensures r == "" || r[0] != '\n'
  {
    if s != "" && s[0] == '\n' then TrimStart(s[1..]) else s
  }

  /** Without one trailing newline, if there is one. */
  function DropNewline(s: string): string {
    if s != "" && s[|s| - 1] == '\n' then s[..|s| - 1] else s
  }

  /** `s` is `t` and newlines after it. */
  predicate IsThenNewlines(s: string, t: string) {
    t <= s && forall i :: |t| <= i < |s| ==> s[i] == '\n'
  }

  /** `s` is newlines and `t` after them. */
  predicate IsNewlinesThen(s: string, t: string) {
    |t| <= |s| && s[|s| - |t|..] == t && forall i :: 0 <= i < |s| - |t| ==> s[i] == '\n'
  }

  /** What trimming takes away is newlines. */
  lemma {:induction false} TrimEndTakesNewlines(s: string)
    ensures IsThenNewlines(s, TrimEnd(s))
  {
    if s != "" && s[|s| - 1] == '\n' {
      TrimEndTakesNewlines(s[..|s| - 1]);
    }
  }

  lemma {:induction false} TrimStartTakesNewlines(s: string)
    ensures IsNewlinesThen(s, TrimStart(s))
  {
    if s != "" && s[0] == '\n' {
      TrimStartTakesNewlines(s[1..]);
    }
  }

  lemma {:induction false} TrimmedIs(s: string, kept: string)
    requires IsThenNewlines(s, kept) && (kept == "" || kept[|kept| - 1] != '\n')
    ensures TrimEnd(s) == kept
  {
    if |s| == |kept| {
    } else {
      TrimmedIs(s[..|s| - 1], kept);
    }
  }

  lemma TrimEndStays(s: string)
    requires s == "" || s[|s| - 1] != '\n'
    ensures TrimEnd(s + "\n") == s
  {
    assert (s + "\n")[..|s|] == s;
  }

  lemma TrimStartStays(s: string)
    requires s == "" || s[0] != '\n'
    ensures TrimStart("\n" + s) == s
  {
    assert ("\n" + s)[1..] == s;
  }
}
