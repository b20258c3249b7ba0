/**
 Choosing what to show of the knowledge file (`parseKnowledgeSections`, `computeIdf` and
 `selectSessionLog` in src/extension/knowledge-injection.ts). Which lines are headings, which
 headings are conventions, the words of a text and the logarithm are given functions.
 */
module Knowledge {
  import opened Wrappers

  datatype Section = Section(header: string, lines: seq<string>)

  type HeadingReader = string -> Option<string>

  function AllLines(sections: seq<Section>): seq<string> {
    if sections == [] then [] else AllLines(sections[..|sections| - 1]) + sections[|sections| - 1].lines
  }

  /** The lines from the first heading on. */
  function FromFirstHeading(lines: seq<string>, heading: HeadingReader): seq<string> {
    if lines == [] || heading(lines[0]).Some? then lines else FromFirstHeading(lines[1..], heading)
  }

  /** A section is its heading and the lines to the next one. */
  predicate IsSection(s: Section, heading: HeadingReader) {
    && s.lines != [] && heading(s.lines[0]) == Some(s.header)
    && forall i :: 1 <= i < |s.lines| ==> heading(s.lines[i]).None?
  }

  /** The sections take the lines from the first heading on to pieces, each with one heading. */
  predicate AreSections(sections: seq<Section>, lines: seq<string>, heading: HeadingReader) {
    && AllLines(sections) == FromFirstHeading(lines, heading)
    && forall s <- sections :: IsSection(s, heading)
  }

  /** The conventions are the longest beginning of sections that are ones. */
  predicate IsClassified(sections: seq<Section>, conventions: seq<Section>, sessionLog: seq<Section>,
          isConvention: string -> bool)
  {
    && sections == conventions + sessionLog
    && (forall s <- conventions :: isConvention(s.header))
    && (sessionLog != [] ==> !isConvention(sessionLog[0].header))
  }

  /** No line before the k-th is a heading, and that one is, if there is one. */
  predicate IsFirstHeading(lines: seq<string>, heading: HeadingReader, k: nat) {
    && k <= |lines| && (forall i :: 0 <= i < k ==> heading(lines[i]).None?)
    && (k < |lines| ==> heading(lines[k]).Some?)
  }

  lemma {:induction false} FromFirstHeadingIs(lines: seq<string>, heading: HeadingReader, k: nat)
    requires IsFirstHeading(lines, heading, k)
    ensures FromFirstHeading(lines, heading) == lines[k..]
  {
    if k == 0 {
      assert lines[0..] == lines;
    } else {
      FromFirstHeadingIs(lines[1..], heading, k - 1);
      assert lines[1..][k - 1..] == lines[k..];
    }
  }

  // ---------- the sections ----------

  lemma {:induction false} FirstHeadingStays(lines: seq<string>, line: string, heading: HeadingReader)
    ensures FromFirstHeading(lines + [line], heading) ==
            if FromFirstHeading(lines, heading) == [] && heading(line).None? then []
            else FromFirstHeading(lines, heading) + [line]
  {
    if lines == [] {
      assert [line][1..] == [];
      assert lines + [line] == [line];
    } else {
      assert (lines + [line])[0] == lines[0] && (lines + [line])[1..] == lines[1..] + [line];
      if heading(lines[0]).None? {
        FirstHeadingStays(lines[1..], line, heading);
      }
    }
  }

  lemma AllLinesPlus(sections: seq<Section>, s: Section)
    ensures AllLines(sections + [s]) == AllLines(sections) + s.lines
  {
    assert (sections + [s])[..|sections|] == sections;
  }

  /** What is read so far, with the section at hand. */
  function SoFar(sections: seq<Section>, current: Option<Section>): seq<Section> {
    sections + if current.Some? then [current.value] else []
  }

  method ParseSections(lines: seq<string>, heading: HeadingReader) returns (sections: seq<Section>)
    ensures AreSections(sections, lines, heading)
  {
    sections := [];
    var current: Option<Section> := None;
    for i := 0 to |lines|
      invariant AreSections(SoFar(sections, current), lines[..i], heading)
      invariant current.None? ==> sections == []
    {
      var line := lines[i];
      ReadLine(sections, current, lines[..i], line, heading);
      assert lines[..i + 1] == lines[..i] + [line];
      var m := heading(line);
      if m.Some? {
        if current.Some? {
          sections := sections + [current.value];
        }
        current := Some(Section(m.value, [line]));
      } else if current.Some? {
        current := Some(Section(current.value.header, current.value.lines + [line]));
      }
    }
    assert lines[..|lines|] == lines;
    if current.Some? {
      sections := sections + [current.value];
    }
  }

  lemma ReadLine(sections: seq<Section>, current: Option<Section>, lines: seq<string>, line: string,
          heading: HeadingReader)
    requires AreSections(SoFar(sections, current), lines, heading) && (current.None? ==> sections == [])
    ensures heading(line).Some? ==>
              var begun := Section(heading(line).value, [line]);
              AreSections(SoFar(SoFar(sections, current), Some(begun)), lines + [line], heading)
    ensures heading(line).None? && current.Some? ==>
              var longer := Section(current.value.header, current.value.lines + [line]);
              AreSections(SoFar(sections, Some(longer)), lines + [line], heading)
    ensures heading(line).None? && current.None? ==> AreSections([], lines + [line], heading)
  {
    FirstHeadingStays(lines, line, heading);
    hide *;
    if heading(line).Some? {
      OpenSection(SoFar(sections, current), lines, line, heading);
    } else if current.Some? {
      LengthenSection(sections, current.value, lines, line, heading);
    } else {
      BeforeSections(lines, line, heading);
    }
  }

  lemma OpenSection(sections: seq<Section>, lines: seq<string>, line: string, heading: HeadingReader)
    requires AreSections(sections, lines, heading) && heading(line).Some?
    ensures AreSections(SoFar(sections, Some(Section(heading(line).value, [line]))), lines + [line], heading)
  {
    FirstHeadingStays(lines, line, heading);
    AllLinesPlus(sections, Section(heading(line).value, [line]));
    hide FromFirstHeading, AllLines;
  }

  lemma LengthenSection(sections: seq<Section>, s: Section, lines: seq<string>, line: string, heading: HeadingReader)
    requires AreSections(SoFar(sections, Some(s)), lines, heading) && heading(line).None?
    ensures AreSections(SoFar(sections, Some(Section(s.header, s.lines + [line]))), lines + [line], heading)
  {
    var longer := Section(s.header, s.lines + [line]);
    FirstHeadingStays(lines, line, heading);
    AllLinesPlus(sections, s);
    AllLinesPlus(sections, longer);
    hide FromFirstHeading, AllLines;
    assert s in SoFar(sections, Some(s)) && forall t <- sections :: t in SoFar(sections, Some(s));
    assert IsSection(longer, heading);
    hide IsSection;
    assert AllLines(sections) + longer.lines == AllLines(sections) + s.lines + [line];
  }

  lemma BeforeSections(lines: seq<string>, line: string, heading: HeadingReader)
    requires AreSections(SoFar([], None), lines, heading) && heading(line).None?
    ensures AreSections([], lines + [line], heading)
  {
    FirstHeadingStays(lines, line, heading);
    assert SoFar([], None) == [];
  }

  method ParseKnowledgeSections(lines: seq<string>, heading: HeadingReader, isConvention: string -> bool)
    returns (conventions: seq<Section>, sessionLog: seq<Section>)
    ensures AreSections(conventions + sessionLog, lines, heading)
    ensures IsClassified(conventions + sessionLog, conventions, sessionLog, isConvention)
  {
    var sections := ParseSections(lines, heading);
    conventions, sessionLog := [], [];
    var leftConventionRun := false;
    for i := 0 to |sections|
      invariant IsClassified(sections[..i], conventions, sessionLog, isConvention)
      invariant leftConventionRun <==> sessionLog != []
    {
      var sec := sections[i];
      assert sections[..i + 1] == sections[..i] + [sec];
      if !leftConventionRun && isConvention(sec.header) {
        conventions := conventions + [sec];
      } else {
        leftConventionRun := true;
        sessionLog := sessionLog + [sec];
      }
    }
    assert sections[..|sections|] == sections;
  }

  lemma LastHeading(before: seq<string>, x: Section, heading: HeadingReader)
    requires IsSection(x, heading)
    ensures var all := before + x.lines;
            && |before| < |all| && heading(all[|before|]) == Some(x.header)
            && forall i :: |before| < i < |all| ==> heading(all[i]).None?
  {
  }

  lemma SomeLines(s: seq<Section>, heading: HeadingReader)
    requires forall x <- s :: IsSection(x, heading)
    ensures s != [] <==> AllLines(s) != []
  {
    assert s != [] ==> IsSection(s[|s| - 1], heading);
  }

  /** The lines determine the sections. */
  lemma {:induction false} SectionsAreUnique(s: seq<Section>, t: seq<Section>, heading: HeadingReader)
    requires AllLines(s) == AllLines(t)
    requires (forall x <- s :: IsSection(x, heading)) && (forall x <- t :: IsSection(x, heading))
    ensures s == t
    decreases |s|
  {
    hide IsSection, AllLines;
    SomeLines(s, heading);
    SomeLines(t, heading);
    if s == [] {
    } else {
      var x, y := s[|s| - 1], t[|t| - 1];
      var s', t' := s[..|s| - 1], t[..|t| - 1];
      assert s == s' + [x] && t == t' + [y];
      assert forall z <- s' :: z in s;
      assert forall z <- t' :: z in t;
      var a, b, all := AllLines(s'), AllLines(t'), AllLines(s);
      AllLinesPlus(s', x);
      AllLinesPlus(t', y);
      assert x in s && y in t && all == a + x.lines == b + y.lines;
      LastHeading(a, x, heading);
      LastHeading(b, y, heading);
      assert |a| == |b|;
      assert a == all[..|a|] == b && x.lines == all[|a|..] == y.lines;
      SectionsAreUnique(s', t', heading);
    }
  }

  // ---------- words and their weights ----------

  /** A section of the session log: its text and the words of its heading. */
  datatype Topic = Topic(body: string, words: set<string>)

  type Weights = map<string, real>

  /** In how many headings a word is. */
  function Frequency(topics: seq<Topic>, word: string): nat {
    if topics == [] then 0
    else Frequency(topics[..|topics| - 1], word) + if word in topics[|topics| - 1].words then 1 else 0
  }

  ghost function With(topics: seq<Topic>, word: string): set<nat> {
    set i: nat | i < |topics| && word in topics[i].words
  }

  /** The frequency is the number of topics with the word. */
  lemma {:induction false} FrequencyCounts(topics: seq<Topic>, word: string)
    ensures Frequency(topics, word) == |With(topics, word)|
  {
    if topics == [] {
      assert With(topics, word) == {};
    } else {
      var n := |topics| - 1;
      FrequencyCounts(topics[..n], word);
      assert With(topics, word) == With(topics[..n], word) + if word in topics[n].words then {n} else {};
    }
  }

  /** The logarithm, as far as it matters. */
  ghost predicate IsLogarithm(ln: real -> real) { forall x :: x >= 1.0 ==> ln(x) >= 0.0 }

  ghost predicate AreWeights(idf: Weights, topics: seq<Topic>, ln: real -> real) {
    forall w :: (w in idf <==> Frequency(topics, w) > 0)
                && (w in idf ==>
                      && Frequency(topics, w) > 0
                      && idf[w] == ln(|topics| as real / Frequency(topics, w) as real))
  }

  /** The counts for some topics, and for those words of another one that are no longer left. */
  ghost predicate Counts(df: map<string, nat>, topics: seq<Topic>, more: set<string>) {
    forall w :: var n := Frequency(topics, w) + (if w in more then 1 else 0);
                (w in df <==> n > 0) && (w in df ==> df[w] == n)
  }

  lemma CountsNext(df: map<string, nat>, topics: seq<Topic>, t: Topic)
    requires Counts(df, topics, t.words)
    ensures Counts(df, topics + [t], {})
  {
    assert (topics + [t])[..|topics|] == topics;
  }

  method CountWords(df0: map<string, nat>, topics: seq<Topic>, t: Topic) returns (df: map<string, nat>)
    requires Counts(df0, topics, {})
    ensures Counts(df, topics + [t], {})
  {
    df := df0;
    var left := t.words;
    assert t.words - left == {};
    while left != {}
      invariant left <= t.words && Counts(df, topics, t.words - left)
      decreases left
    {
      var token :| token in left;
      df := df[token := (if token in df then df[token] else 0) + 1];
      left := left - {token};
    }
    assert t.words - left == t.words;
    CountsNext(df, topics, t);
  }

  method ComputeIdf(topics: seq<Topic>, ln: real -> real) returns (idf: Weights)
    ensures AreWeights(idf, topics, ln)
  {
    var df: map<string, nat> := map[];
    for i := 0 to |topics|
      invariant Counts(df, topics[..i], {})
    {
      assert topics[..i + 1] == topics[..i] + [topics[i]];
      df := CountWords(df, topics[..i], topics[i]);
    }
    assert topics[..|topics|] == topics;
    idf := map[];
    var left := df.Keys;
    while left != {}
      invariant left <= df.Keys && idf.Keys == df.Keys - left
      invariant forall w <- idf :: df[w] > 0 && idf[w] == ln(|topics| as real / df[w] as real)
      decreases left
    {
      var token :| token in left;
      assert df[token] > 0;
      idf := idf[token := ln(|topics| as real / df[token] as real)];
      left := left - {token};
    }
  }

  function Score(query: seq<string>, words: set<string>, idf: Weights): real {
    if query == [] then 0.0
    else
      var t := query[|query| - 1];
      Score(query[..|query| - 1], words, idf) + if t in words && t in idf then idf[t] else 0.0
  }

  /** The score is the sum of the weights of the words of the query that are in the heading: it adds up,
      and one word gives its weight if it is there. */
  lemma {:induction false} ScoreAddsUp(p: seq<string>, q: seq<string>, words: set<string>, idf: Weights)
    ensures Score(p + q, words, idf) == Score(p, words, idf) + Score(q, words, idf)
  {
    if q == [] {
      assert p + q == p;
    } else {
      ScoreAddsUp(p, q[..|q| - 1], words, idf);
      assert (p + q)[..|p + q| - 1] == p + q[..|q| - 1];
    }
  }

  lemma ScoreOfWord(word: string, words: set<string>, idf: Weights)
    ensures Score([word], words, idf) == if word in words && word in idf then idf[word] else 0.0
  {
    assert [word][..0] == [];
  }

  lemma {:induction false} FrequencyBound(topics: seq<Topic>, word: string)
    ensures Frequency(topics, word) <= |topics|
  {
    if topics == [] {
    } else {
      FrequencyBound(topics[..|topics| - 1], word);
    }
  }

  lemma AtLeastOne(n: nat, d: nat)
    requires 0 < d <= n
    ensures n as real / d as real >= 1.0
  {
  }

  lemma {:induction false} ScoreNotNegative(query: seq<string>, words: set<string>, idf: Weights, topics: seq<Topic>,
          ln: real -> real)
    requires AreWeights(idf, topics, ln) && IsLogarithm(ln)
    ensures Score(query, words, idf) >= 0.0
  {
    if query == [] {
    } else {
      ScoreNotNegative(query[..|query| - 1], words, idf, topics, ln);
      var t := query[|query| - 1];
      FrequencyBound(topics, t);
      if t in idf {
        AtLeastOne(|topics|, Frequency(topics, t));
      }
    }
  }

  // ---------- ranking ----------

  datatype Match = Match(topic: Topic, score: real, idx: nat)

  predicate Overlaps(query: seq<string>, words: set<string>) { exists t <- query :: t in words }

  /** The topics that share a word with the query, in the order of the file. */
  function MatchesOf(topics: seq<Topic>, query: seq<string>, idf: Weights): seq<Match> {
    if topics == [] then []
    else
      var n := |topics| - 1;
      MatchesOf(topics[..n], query, idf) +
      if Overlaps(query, topics[n].words) then [Match(topics[n], Score(query, topics[n].words, idf), n)] else []
  }

  predicate Before(x: Match, y: Match) { x.score > y.score || (x.score == y.score && x.idx < y.idx) }

  predicate IsRanked(s: seq<Match>) { forall i, j :: 0 <= i < j < |s| ==> Before(s[i], s[j]) }

  function Insert(x: Match, s: seq<Match>): seq<Match> {
    if s == [] || Before(x, s[0]) then [x] + s else [s[0]] + Insert(x, s[1..])
  }

  function Ranked(s: seq<Match>): seq<Match> {
    if s == [] then [] else Insert(s[|s| - 1], Ranked(s[..|s| - 1]))
  }

  lemma RankedCons(x: Match, s: seq<Match>)
    requires IsRanked(s) && forall y <- s :: Before(x, y)
    ensures IsRanked([x] + s)
  {
  }

  lemma {:induction false} InsertRanks(x: Match, s: seq<Match>)
    requires IsRanked(s) && forall y <- s :: y.idx != x.idx
    ensures IsRanked(Insert(x, s)) && |Insert(x, s)| == |s| + 1
    ensures forall y :: y in Insert(x, s) <==> y == x || y in s
  {
    if s == [] {
    } else {
      assert s == [s[0]] + s[1..];
      assert forall y <- s[1..] :: Before(s[0], y);
      if Before(x, s[0]) {
        RankedCons(x, s);
      } else {
        InsertRanks(x, s[1..]);
        RankedCons(s[0], Insert(x, s[1..]));
      }
    }
  }

  predicate InFileOrder(s: seq<Match>) { forall i, j :: 0 <= i < j < |s| ==> s[i].idx < s[j].idx }

  /** The best scores come first, equal ones in the order of the file. */
  lemma {:induction false} RankedRanks(s: seq<Match>)
    requires InFileOrder(s)
    ensures IsRanked(Ranked(s)) && |Ranked(s)| == |s| && (forall y :: y in Ranked(s) <==> y in s)
  {
    if s == [] {
    } else {
      var before, x := s[..|s| - 1], s[|s| - 1];
      assert s == before + [x];
      RankedRanks(before);
      InsertRanks(x, Ranked(before));
    }
  }

  predicate IsMatch(y: Match, topics: seq<Topic>, query: seq<string>, idf: Weights) {
    && y.idx < |topics| && Overlaps(query, topics[y.idx].words)
    && y == Match(topics[y.idx], Score(query, topics[y.idx].words, idf), y.idx)
  }

  lemma {:induction false} MatchesAreOverlaps(topics: seq<Topic>, query: seq<string>, idf: Weights)
    ensures var m := MatchesOf(topics, query, idf);
            InFileOrder(m) && (forall y :: y in m <==> IsMatch(y, topics, query, idf))
  {
    hide Overlaps, Score;
    if topics == [] {
    } else {
      var n := |topics| - 1;
      var before := MatchesOf(topics[..n], query, idf);
      MatchesAreOverlaps(topics[..n], query, idf);
      forall i | 0 <= i < |before| ensures before[i].idx < n {
        assert IsMatch(before[i], topics[..n], query, idf);
      }
      forall y ensures IsMatch(y, topics, query, idf) <==>
                       IsMatch(y, topics[..n], query, idf)
                       || (&& Overlaps(query, topics[n].words)
                           && y == Match(topics[n], Score(query, topics[n].words, idf), n))
    {
        assert y.idx < n ==> topics[..n][y.idx] == topics[y.idx];
      }
    }
  }

  // ---------- the greedy choice ----------

  function Used(s: seq<Match>): nat {
    if s == [] then 0 else Used(s[..|s| - 1]) + |s[|s| - 1].topic.body|
  }

  /** Each in turn is taken if it still fits. */
  function Greedy(ranked: seq<Match>, budget: int): seq<Match> {
    if ranked == [] then []
    else
      var taken, next := Greedy(ranked[..|ranked| - 1], budget), ranked[|ranked| - 1];
      if Used(taken) + |next.topic.body| <= budget then taken + [next] else taken
  }

  lemma UsedPlus(s: seq<Match>, x: Match)
    ensures Used(s + [x]) == Used(s) + |x.topic.body|
  {
    assert (s + [x])[..|s|] == s;
  }

  lemma GreedyStep(ranked: seq<Match>, budget: int)
    requires ranked != []
    ensures var before, next := ranked[..|ranked| - 1], ranked[|ranked| - 1];
            var taken := Greedy(before, budget);
            && ranked == before + [next]
            && Greedy(ranked, budget) == (if Used(taken) + |next.topic.body| <= budget then taken + [next] else taken)
            && Used(taken + [next]) == Used(taken) + |next.topic.body|
  {
    var before, next := ranked[..|ranked| - 1], ranked[|ranked| - 1];
    UsedPlus(Greedy(before, budget), next);
  }

  /** What is taken is within the budget and in the order of the ranks. */
  lemma {:induction false} GreedyFits(ranked: seq<Match>, budget: int)
    requires IsRanked(ranked)
    ensures var taken := Greedy(ranked, budget);
            (taken != [] ==> Used(taken) <= budget) && IsRanked(taken) && (forall x <- taken :: x in ranked)
  {
    hide *;
    if ranked == [] {
      NothingGreedy(budget);
      RankedNone(ranked);
    } else {
      var before, next := ranked[..|ranked| - 1], ranked[|ranked| - 1];
      GreedyStep(ranked, budget);
      RankedWithoutLast(before, next);
      GreedyFits(before, budget);
      var taken := Greedy(before, budget);
      RankedPlus(taken, next);
    }
  }

  lemma RankedNone(s: seq<Match>)
    requires s == []
    ensures IsRanked(s)
  {
  }

  lemma RankedWithoutLast(before: seq<Match>, last: Match)
    requires IsRanked(before + [last])
    ensures IsRanked(before) && forall x <- before :: Before(x, last)
  {
    hide Before;
    var all := before + [last];
    forall i, j | 0 <= i < j < |before| ensures Before(before[i], before[j]) {
      assert Before(all[i], all[j]);
    }
    forall x <- before ensures Before(x, last) {
      var i :| 0 <= i < |before| && before[i] == x;
      assert Before(all[i], all[|before|]);
    }
  }

  lemma RankedPlus(s: seq<Match>, x: Match)
    requires IsRanked(s)
    ensures (forall y <- s :: Before(y, x)) ==> IsRanked(s + [x])
  {
    hide Before;
  }

  lemma NothingGreedy(budget: int)
    ensures Greedy([], budget) == [] && Used([]) == 0
  {
  }

  /** Nothing that was passed over would still fit. */
  lemma {:induction false} GreedyFills(ranked: seq<Match>, budget: int)
    ensures forall x <- ranked :: x !in Greedy(ranked, budget) ==>
              Used(Greedy(ranked, budget)) + |x.topic.body| > budget
  {
    hide Greedy, Used;
    if ranked == [] {
    } else {
      GreedyStep(ranked, budget);
      GreedyFills(ranked[..|ranked| - 1], budget);
    }
  }

  /** A better ranked one is never given up for a worse one: the choice among the best k does not depend
      on those after them. */
  lemma {:induction false} GreedyIsStable(ranked: seq<Match>, budget: int, k: nat)
    requires k <= |ranked|
    ensures Greedy(ranked[..k], budget) <= Greedy(ranked, budget)
  {
    if k == |ranked| {
      assert ranked[..k] == ranked;
    } else {
      var before := ranked[..|ranked| - 1];
      assert ranked[..k] == before[..k];
      GreedyIsStable(before, budget, k);
    }
  }

  function Topics(s: seq<Match>): seq<Topic> { seq(|s|, i requires 0 <= i < |s| => s[i].topic) }

  function HeadSlice(body: string, budget: int): string {
    if budget <= 0 then "" else if budget >= |body| then body else body[..budget]
  }

  function Selected(topics: seq<Topic>, query: seq<string>, idf: Weights, budget: int, notice: string): seq<Topic> {
    var ranked := Ranked(MatchesOf(topics, query, idf));
    var taken := Greedy(ranked, budget);
    if ranked != [] && taken == [] then
      [ranked[0].topic.(body := HeadSlice(ranked[0].topic.body, budget) + notice)]
    else Topics(taken)
  }

  method MatchTopics(topics: seq<Topic>, query: seq<string>, idf: Weights) returns (scored: seq<Match>)
    ensures scored == MatchesOf(topics, query, idf)
  {
    scored := [];
    for i := 0 to |topics|
      invariant scored == MatchesOf(topics[..i], query, idf)
    {
      assert topics[..i + 1][..i] == topics[..i];
      if Overlaps(query, topics[i].words) {
        scored := scored + [Match(topics[i], Score(query, topics[i].words, idf), i)];
      }
    }
    assert topics[..|topics|] == topics;
  }

  lemma FirstIsBest(ranked: seq<Match>, i: nat)
    requires IsRanked(ranked) && i < |ranked| && forall x <- ranked :: x.score >= 0.0
    ensures ranked[i].score >= 0.0 && ranked[i].score <= ranked[0].score
  {
    assert ranked[i] in ranked && (i > 0 ==> Before(ranked[0], ranked[i]));
  }

  /** The loop over the ranked matches, which also looks for the best one. */
  method TakeInTurn(ranked: seq<Match>, budget: int) returns (selected: seq<Topic>, bestMatch: Option<Match>)
    requires IsRanked(ranked) && forall x <- ranked :: x.score >= 0.0
    ensures selected == Topics(Greedy(ranked, budget))
    ensures bestMatch == if ranked == [] then None else Some(ranked[0])
  {
    var used := 0;
    selected, bestMatch := [], None;
    NothingGreedy(budget);
    assert ranked[..0] == [];
    hide Greedy, Used, IsRanked, Topics, Before;
    NoTopics();
    for i := 0 to |ranked|
      invariant used == Used(Greedy(ranked[..i], budget)) && selected == Topics(Greedy(ranked[..i], budget))
      invariant bestMatch == if i == 0 then None else Some(ranked[0])
    {
      var x := ranked[i];
      FirstIsBest(ranked, i);
      if x.score > (if bestMatch.Some? then bestMatch.value.score else -1.0) {
        bestMatch := Some(x);
      }
      TakeNext(ranked, budget, i);
      if used + |x.topic.body| <= budget {
        selected := selected + [x.topic];
        used := used + |x.topic.body|;
      }
    }
    assert ranked[..|ranked|] == ranked;
  }

  lemma TakeNext(ranked: seq<Match>, budget: int, i: nat)
    requires i < |ranked|
    ensures var taken, x := Greedy(ranked[..i], budget), ranked[i];
            var fits := Used(taken) + |x.topic.body| <= budget;
            && Used(Greedy(ranked[..i + 1], budget)) == Used(taken) + (if fits then |x.topic.body| else 0)
            && Topics(Greedy(ranked[..i + 1], budget)) == Topics(taken) + (if fits then [x.topic] else [])
  {
    hide Greedy, Used, Topics;
    GreedyStep(ranked[..i + 1], budget);
    assert ranked[..i + 1][..i] == ranked[..i];
    TopicsPlus(Greedy(ranked[..i], budget), ranked[i]);
    assert Topics(Greedy(ranked[..i], budget)) + [] == Topics(Greedy(ranked[..i], budget));
  }

  lemma NoTopics()
    ensures Topics([]) == []
  {
  }

  lemma TopicsPlus(s: seq<Match>, x: Match)
    ensures Topics(s + [x]) == Topics(s) + [x.topic]
  {
  }

  /** What is selected under the weights of the words. */
  ghost predicate IsSelection(topics: seq<Topic>, query: seq<string>, budget: int, notice: string, ln: real -> real,
          selected: seq<Topic>)
  {
    exists idf :: AreWeights(idf, topics, ln) && selected == Selected(topics, query, idf, budget, notice)
  }

  /** `query` holds the words of the query, `notice` what is put after a slice. */
  method SelectSessionLog(topics: seq<Topic>, query: seq<string>, blank: bool, budget: int, notice: string,
          ln: real -> real)
    returns (selected: seq<Topic>)
    requires IsLogarithm(ln)
    ensures if topics == [] || blank then selected == [] else IsSelection(topics, query, budget, notice, ln, selected)
  {
    if topics == [] || blank {
      return [];
    }
    var idf := ComputeIdf(topics, ln);
    var scored := MatchTopics(topics, query, idf);
    MatchesAreOverlaps(topics, query, idf);
    RankedRanks(scored);
    var ranked := Ranked(scored);
    forall x <- ranked ensures x.score >= 0.0 {
      assert IsMatch(x, topics, query, idf);
      ScoreNotNegative(query, x.topic.words, idf, topics, ln);
    }
    var bestMatch;
    selected, bestMatch := TakeInTurn(ranked, budget);
    if |selected| == 0 && bestMatch.Some? {
      var sliced := HeadSlice(bestMatch.value.topic.body, budget);
      selected := selected + [bestMatch.value.topic.(body := sliced + notice)];
    }
    assert selected == Selected(topics, query, idf, budget, notice);
  }

  // ---------- what is promised ----------

  function Bytes(s: seq<Topic>): nat {
    if s == [] then 0 else Bytes(s[..|s| - 1]) + |s[|s| - 1].body|
  }

  lemma {:induction false} BytesOfTopics(s: seq<Match>)
    ensures Bytes(Topics(s)) == Used(s)
  {
    if s == [] {
    } else {
      BytesOfTopics(s[..|s| - 1]);
      assert Topics(s)[..|s| - 1] == Topics(s[..|s| - 1]);
    }
  }

  /** The ranked matches of the query. */
  predicate RanksMatches(ranked: seq<Match>, topics: seq<Topic>, query: seq<string>) {
    && IsRanked(ranked)
    && (forall x <- ranked :: x.topic in topics && Overlaps(query, x.topic.words))
    && (forall t <- topics :: Overlaps(query, t.words) ==> exists x <- ranked :: x.topic == t)
  }

  lemma MatchesAreRanked(topics: seq<Topic>, query: seq<string>, idf: Weights)
    ensures RanksMatches(Ranked(MatchesOf(topics, query, idf)), topics, query)
  {
    hide *;
    MatchesAreOverlaps(topics, query, idf);
    RankedRanks(MatchesOf(topics, query, idf));
    AllRanked(Ranked(MatchesOf(topics, query, idf)), topics, query, idf);
  }

  lemma AllRanked(ranked: seq<Match>, topics: seq<Topic>, query: seq<string>, idf: Weights)
    requires IsRanked(ranked) && forall y :: y in ranked <==> IsMatch(y, topics, query, idf)
    ensures RanksMatches(ranked, topics, query)
  {
    hide Overlaps, Score, IsRanked;
    forall t <- topics | Overlaps(query, t.words) ensures exists x <- ranked :: x.topic == t {
      var i: nat :| i < |topics| && topics[i] == t;
      assert IsMatch(Match(t, Score(query, t.words, idf), i), topics, query, idf);
    }
  }

  predicate Matches(topics: seq<Topic>, query: seq<string>) { exists t <- topics :: Overlaps(query, t.words) }

  predicate SomeFits(topics: seq<Topic>, query: seq<string>, budget: int) {
    exists t <- topics :: Overlaps(query, t.words) && |t.body| <= budget
  }

  /** Whole matching sections within the budget, and none left out that would still fit. */
  predicate FillsBudget(topics: seq<Topic>, query: seq<string>, budget: int, selected: seq<Topic>) {
    && Bytes(selected) <= budget
    && (forall t <- selected :: t in topics && Overlaps(query, t.words))
    && (forall t <- topics :: Overlaps(query, t.words) && t !in selected ==> Bytes(selected) + |t.body| > budget)
  }

  /** No matching section is scored higher, or as high and comes earlier. */
  predicate IsBest(topics: seq<Topic>, query: seq<string>, idf: Weights, i: nat) {
    && i < |topics| && Overlaps(query, topics[i].words)
    && forall j :: 0 <= j < |topics| && Overlaps(query, topics[j].words) ==>
                     Score(query, topics[j].words, idf) < Score(query, topics[i].words, idf) ||
                     (Score(query, topics[j].words, idf) == Score(query, topics[i].words, idf) && i <= j)
  }

  /** The beginning of a body, as much of it as the budget allows. */
  predicate IsHeadOf(head: string, body: string, budget: int) {
    head <= body && (|head| == |body| <= budget || |head| == budget < |body| || (head == "" && budget <= 0))
  }

  /** The head of the best matching section. */
  ghost predicate IsHead(topics: seq<Topic>, query: seq<string>, idf: Weights, budget: int, notice: string,
          selected: seq<Topic>)
  {
    exists i: nat, head :: IsHeadAt(topics, query, idf, budget, notice, selected, i, head)
  }

  ghost predicate IsHeadAt(topics: seq<Topic>, query: seq<string>, idf: Weights, budget: int, notice: string,
          selected: seq<Topic>, i: nat, head: string)
  {
    IsBest(topics, query, idf, i) && IsHeadOf(head, topics[i].body, budget)
    && selected == [topics[i].(body := head + notice)]
  }

  lemma TakenFill(topics: seq<Topic>, query: seq<string>, budget: int, ranked: seq<Match>)
    requires RanksMatches(ranked, topics, query)
    ensures var taken := Greedy(ranked, budget);
            && (taken != [] <==> SomeFits(topics, query, budget))
            && (taken != [] ==> FillsBudget(topics, query, budget, Topics(taken)))
  {
    GreedyFits(ranked, budget);
    GreedyFills(ranked, budget);
    var taken := Greedy(ranked, budget);
    BytesOfTopics(taken);
    hide Overlaps, Greedy, IsRanked, Used, Bytes;
    forall t <- topics | Overlaps(query, t.words) && t !in Topics(taken) ensures Used(taken) + |t.body| > budget {
      var x :| x in ranked && x.topic == t;
      if x in taken {
        InTopics(taken, x);
      }
    }
    forall t <- Topics(taken) ensures exists x <- taken :: x.topic == t {
      var i :| 0 <= i < |taken| && Topics(taken)[i] == t;
      assert taken[i] in taken;
    }
    if taken != [] {
      assert Topics(taken)[0] in Topics(taken);
      FirstIsShort(taken, budget);
    } else {
      NothingGreedy(budget);
    }
  }

  lemma InTopics(s: seq<Match>, x: Match)
    requires x in s
    ensures x.topic in Topics(s)
  {
    var i :| 0 <= i < |s| && s[i] == x;
    assert Topics(s)[i] == x.topic;
  }

  lemma {:induction false} FirstIsShort(s: seq<Match>, budget: int)
    requires s != [] && Used(s) <= budget
    ensures |s[0].topic.body| <= budget
  {
    if |s| > 1 {
      FirstIsShort(s[..|s| - 1], budget);
    }
  }

  lemma HeadSliceIsHead(body: string, budget: int)
    ensures IsHeadOf(HeadSlice(body, budget), body, budget)
  {
  }

  /** The first of the ranked matches is the best one. */
  lemma FirstRankedIsBest(topics: seq<Topic>, query: seq<string>, idf: Weights, ranked: seq<Match>)
    requires IsRanked(ranked) && ranked != [] && forall y :: y in ranked <==> IsMatch(y, topics, query, idf)
    ensures ranked[0].idx < |topics| && ranked[0].topic == topics[ranked[0].idx]
    ensures IsBest(topics, query, idf, ranked[0].idx)
  {
    hide Overlaps, Score;
    var x := ranked[0];
    assert x in ranked;
    forall j | 0 <= j < |topics| && Overlaps(query, topics[j].words)
      ensures Score(query, topics[j].words, idf) < Score(query, topics[x.idx].words, idf) ||
              (Score(query, topics[j].words, idf) == Score(query, topics[x.idx].words, idf) && x.idx <= j)
    {
      var y := Match(topics[j], Score(query, topics[j].words, idf), j);
      assert IsMatch(y, topics, query, idf);
      var i :| 0 <= i < |ranked| && ranked[i] == y;
      assert i > 0 ==> Before(x, y);
    }
  }

  lemma HeadOfBest(topics: seq<Topic>, query: seq<string>, idf: Weights, budget: int, notice: string)
    requires var ranked := Ranked(MatchesOf(topics, query, idf)); ranked != [] && Greedy(ranked, budget) == []
    ensures IsHead(topics, query, idf, budget, notice, Selected(topics, query, idf, budget, notice))
  {
    hide *;
    var ranked := Ranked(MatchesOf(topics, query, idf));
    MatchesAreOverlaps(topics, query, idf);
    RankedRanks(MatchesOf(topics, query, idf));
    FirstRankedIsBest(topics, query, idf, ranked);
    var t := ranked[0].topic;
    HeadSliceIsHead(t.body, budget);
    SelectedNone(topics, query, idf, budget, notice);
    HeadAt(topics, query, idf, budget, notice, ranked[0].idx, HeadSlice(t.body, budget));
  }

  lemma SelectedNone(topics: seq<Topic>, query: seq<string>, idf: Weights, budget: int, notice: string)
    requires var ranked := Ranked(MatchesOf(topics, query, idf)); ranked != [] && Greedy(ranked, budget) == []
    ensures var best := Ranked(MatchesOf(topics, query, idf))[0].topic;
            Selected(topics, query, idf, budget, notice) == [best.(body := HeadSlice(best.body, budget) + notice)]
  {
  }

  lemma HeadAt(topics: seq<Topic>, query: seq<string>, idf: Weights, budget: int, notice: string, i: nat, head: string)
    requires IsBest(topics, query, idf, i) && i < |topics| && IsHeadOf(head, topics[i].body, budget)
    ensures IsHead(topics, query, idf, budget, notice, [topics[i].(body := head + notice)])
  {
    hide IsBest, IsHeadOf;
    assert IsHeadAt(topics, query, idf, budget, notice, [topics[i].(body := head + notice)], i, head);
  }

  /** The head of the section that is best under the weights of the words. */
  ghost predicate IsBestHead(topics: seq<Topic>, query: seq<string>, budget: int, notice: string, ln: real -> real,
          selected: seq<Topic>)
  {
    exists idf :: AreWeights(idf, topics, ln) && IsHead(topics, query, idf, budget, notice, selected)
  }

  /** A query that matches anything gets something: whole sections that fill the budget, or, exactly when
      no matching section fits, the head of the best one. */
  lemma SelectionLaws(topics: seq<Topic>, query: seq<string>, budget: int, notice: string, ln: real -> real,
          selected: seq<Topic>)
    requires IsSelection(topics, query, budget, notice, ln, selected)
    ensures if !Matches(topics, query) then selected == []
            else if SomeFits(topics, query, budget) then selected != [] && FillsBudget(topics, query, budget, selected)
            else IsBestHead(topics, query, budget, notice, ln, selected)
  {
    var idf :| AreWeights(idf, topics, ln) && selected == Selected(topics, query, idf, budget, notice);
    var ranked := Ranked(MatchesOf(topics, query, idf));
    MatchesAreRanked(topics, query, idf);
    TakenFill(topics, query, budget, ranked);
    hide Overlaps, Greedy, IsRanked, Ranked, MatchesOf, FillsBudget, HeadSlice, SomeFits, AreWeights, IsHead;
    SelectedCases(topics, query, ranked);
    assert SomeFits(topics, query, budget) ==> Matches(topics, query) by { FitsMatches(topics, query, budget); }
    if ranked != [] && Greedy(ranked, budget) == [] {
      HeadOfBest(topics, query, idf, budget, notice);
    }
  }

  lemma SelectedCases(topics: seq<Topic>, query: seq<string>, ranked: seq<Match>)
    requires RanksMatches(ranked, topics, query)
    ensures Matches(topics, query) <==> ranked != []
  {
    hide Overlaps, IsRanked;
    assert ranked != [] ==> ranked[0] in ranked;
  }

  lemma FitsMatches(topics: seq<Topic>, query: seq<string>, budget: int)
    ensures SomeFits(topics, query, budget) ==> Matches(topics, query)
  {
    hide Overlaps;
  }
}
