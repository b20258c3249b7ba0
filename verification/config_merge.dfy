/** Merging two configuration layers (src/config/config-merge.ts). Whether an OTLP header is free of
    injection is a given predicate. */
module ConfigMerge {
  import opened ConfigValues

  type HeaderCheck = (string, Value) -> bool

  /** Sections merged key by key; everything else is replaced as a whole. */
  const SECTIONS: set<string> := {
    "autonomous", "broker", "nesting", "limits", "runtime", "control", "worktree", "ui", "agents", "tools",
    "telemetry", "policy", "notifications", "observability", "reliability", "otlp"}

  /** Records inside a section that are merged key by key as well. */
  predicate IsNested(section: string, key: string) {
    || (section == "runtime" && (key == "modelFallback" || key == "surface"))
    || (section == "agents" && key == "overrides")
    || (section == "reliability" && key == "retryPolicy")
    || (section == "otlp" && key == "headers")
  }

  // ---------- the sections ----------

  function Both(b: Config, o: Config, key: string): Config { Spread(Fields(Get(b, key)), Fields(Get(o, key))) }

  predicate InEither(b: Config, o: Config, key: string) { Get(b, key).Rec? || Get(o, key).Rec? }

  function WithNested(merged: Config, b: Config, o: Config, key: string): Config {
    if InEither(b, o, key) then merged[key := Rec(Both(b, o, key))] else merged
  }

  function MergeRuntime(b: Config, o: Config): Config {
    WithNested(WithNested(Spread(b, o), b, o, "modelFallback"), b, o, "surface")
  }

  /** The overrides are always merged, and left out again if there are none. */
  function MergeAgents(b: Config, o: Config): Config {
    var overrides := Both(b, o, "overrides");
    if overrides == map[] then Spread(b, o) - {"overrides"} else Spread(b, o)["overrides" := Rec(overrides)]
  }

  function MergeReliability(b: Config, o: Config): Config {
    Spread(b, o)["retryPolicy" := if InEither(b, o, "retryPolicy") then Rec(Both(b, o, "retryPolicy")) else Undefined]
  }

  function Headers(b: Config, o: Config): Config {
    SpreadAll(Fields(Get(b, "headers")), Fields(Get(o, "headers")))
  }

  predicate AllOk(headers: Config, ok: HeaderCheck) {
    forall k <- headers :: ok(k, headers[k])
  }

  /** One bad header removes all headers. */
  function MergeOtlp(b: Config, o: Config, ok: HeaderCheck): Config {
    var headers := Headers(b, o);
    if headers == map[] || !AllOk(headers, ok) then Spread(b, o) - {"headers"}
    else Spread(b, o)["headers" := Rec(headers)]
  }

  function MergeSection(section: string, b: Config, o: Config, ok: HeaderCheck): Config {
    if section == "runtime" then MergeRuntime(b, o)
    else if section == "agents" then MergeAgents(b, o)
    else if section == "reliability" then MergeReliability(b, o)
    else if section == "otlp" then MergeOtlp(b, o, ok)
    else Spread(b, o)
  }

  function MergeKey(base: Config, override: Config, ok: HeaderCheck, key: string): Value {
    if key in SECTIONS && InEither(base, override, key) then
      Rec(MergeSection(key, Fields(Get(base, key)), Fields(Get(override, key)), ok))
    else Get(Spread(base, override), key)
  }

  /** The override wins key by key. */
  function Merge(base: Config, override: Config, ok: HeaderCheck): Config {
    map k | k in Spread(base, override) :: MergeKey(base, override, ok, k)
  }

  // ---------- well-formed layers ----------

  predicate IsRecord(v: Value) { v.Undefined? || v.Rec? }

  predicate NestedTyped(section: string, c: Config) {
    && (forall k <- c :: IsNested(section, k) ==> IsRecord(c[k]))
    && (section == "otlp" ==> forall k <- Fields(Get(c, "headers")) :: Fields(Get(c, "headers"))[k] != Undefined)
  }

  /** Sections are records, as the parser builds them, and headers have values. */
  predicate IsTyped(c: Config) {
    forall k <- c :: k in SECTIONS ==> IsRecord(c[k]) && NestedTyped(k, Fields(c[k]))
  }

  predicate HeadersOk(c: Config, ok: HeaderCheck) { AllOk(Fields(At(c, "otlp", "headers")), ok) }

  // ---------- reading the result ----------

  lemma MergeGet(b: Config, o: Config, ok: HeaderCheck, key: string)
    ensures Get(Merge(b, o, ok), key) == MergeKey(b, o, ok, key)
  {
    SpreadGet(b, o, key);
  }

  /** Keys that are merged as one value: the override's if it is defined, the base's otherwise. */
  lemma SectionLeaf(section: string, b: Config, o: Config, ok: HeaderCheck, key: string)
    requires !IsNested(section, key)
    ensures Get(MergeSection(section, b, o, ok), key) == if Get(o, key).Undefined? then Get(b, key) else Get(o, key)
  {
    SpreadGet(b, o, key);
  }

  lemma SectionNested(section: string, b: Config, o: Config, ok: HeaderCheck, key: string, leaf: string)
    requires IsNested(section, key) && NestedTyped(section, b) && NestedTyped(section, o)
    requires section == "otlp" ==> AllOk(Headers(b, o), ok)
    ensures IsRecord(Get(MergeSection(section, b, o, ok), key))
    ensures Get(Fields(Get(MergeSection(section, b, o, ok), key)), leaf) ==
            if Get(Fields(Get(o, key)), leaf).Undefined? then Get(Fields(Get(b, key)), leaf)
            else Get(Fields(Get(o, key)), leaf)
  {
    SpreadGet(b, o, key);
    SpreadGet(Fields(Get(b, key)), Fields(Get(o, key)), leaf);
    assert key in b ==> IsRecord(b[key]);
    assert key in o ==> IsRecord(o[key]);
  }

  /** A path at the granularity of merging. */
  predicate IsLeafPath(path: seq<string>) {
    match |path|
    case 1 => path[0] !in SECTIONS
    case 2 => path[0] in SECTIONS && !IsNested(path[0], path[1])
    case 3 => path[0] in SECTIONS && IsNested(path[0], path[1])
    case _ => false
  }

  function First(v: Value, w: Value): Value { if v.Undefined? then w else v }

  /** Every leaf of the result is the override's where the override defines it, else the base's. */
  lemma MergeReads(b: Config, o: Config, ok: HeaderCheck, path: seq<string>)
    requires IsTyped(b) && IsTyped(o) && IsLeafPath(path)
    requires |path| == 3 && path[0] == "otlp" ==> HeadersOk(b, ok) && HeadersOk(o, ok)
    ensures Read(Merge(b, o, ok), path) == First(Read(o, path), Read(b, path))
  {
    var s := path[0];
    MergeGet(b, o, ok, s);
    SpreadGet(b, o, s);
    if |path| > 1 {
      var bs, os := Fields(Get(b, s)), Fields(Get(o, s));
      TypedSection(b, s);
      TypedSection(o, s);
      if |path| == 2 {
        ReadTwo(b, path);
        ReadTwo(o, path);
        ReadTwo(Merge(b, o, ok), path);
        SectionLeaf(s, bs, os, ok, path[1]);
      } else {
        ReadThree(b, path);
        ReadThree(o, path);
        ReadThree(Merge(b, o, ok), path);
        SectionNested(s, bs, os, ok, path[1], path[2]);
      }
    }
  }

  lemma ReadTwo(c: Config, path: seq<string>)
    requires |path| == 2
    ensures Read(c, path) == At(c, path[0], path[1])
  {
    assert path[1..] == [path[1]];
  }

  lemma ReadThree(c: Config, path: seq<string>)
    requires |path| == 3
    ensures Read(c, path) == Get(Fields(At(c, path[0], path[1])), path[2])
  {
    ReadTwo(Fields(Get(c, path[0])), path[1..]);
  }

  lemma TypedSection(c: Config, s: string)
    requires IsTyped(c) && s in SECTIONS
    ensures IsRecord(Get(c, s)) && NestedTyped(s, Fields(Get(c, s)))
  {
  }

  // ---------- the tables, by name ----------

  /** The names of the sections that are merged key by key, and of the records in them that are. */
  predicate IsMergedSection(s: string) {
    || s == "autonomous" || s == "broker" || s == "nesting" || s == "limits" || s == "runtime" || s == "control"
    || s == "worktree" || s == "ui" || s == "agents" || s == "tools" || s == "telemetry" || s == "policy"
    || s == "notifications" || s == "observability" || s == "reliability" || s == "otlp"
  }

  predicate IsMergedRecord(s: string, k: string) {
    [s, k] in [["runtime", "modelFallback"], ["runtime", "surface"], ["agents", "overrides"],
               ["reliability", "retryPolicy"], ["otlp", "headers"]]
  }

  /** Exactly in these sections does a key survive that only the layer below has, next to a section on top;
      elsewhere the value on top replaces the one below. The same one level further down. */
  lemma MergedByName(b: Config, o: Config, ok: HeaderCheck, s: string, k: string, leaf: string)
    requires IsTyped(b) && IsTyped(o) && HeadersOk(b, ok) && HeadersOk(o, ok)
    ensures !IsMergedSection(s) ==> Get(Merge(b, o, ok), s) == First(Get(o, s), Get(b, s))
    ensures IsMergedSection(s) && !IsMergedRecord(s, k) ==>
              At(Merge(b, o, ok), s, k) == First(At(o, s, k), At(b, s, k))
    ensures IsMergedSection(s) && IsMergedRecord(s, k) ==>
              var read := (c: Config) => Get(Fields(At(c, s, k)), leaf);
              read(Merge(b, o, ok)) == First(read(o), read(b))
  {
    NamesAre(s, k);
    hide IsMergedSection, IsMergedRecord;
    if s !in SECTIONS {
      MergeReads(b, o, ok, [s]);
    } else if !IsNested(s, k) {
      MergeReads(b, o, ok, [s, k]);
      ReadTwo(b, [s, k]);
      ReadTwo(o, [s, k]);
      ReadTwo(Merge(b, o, ok), [s, k]);
    } else {
      MergeReads(b, o, ok, [s, k, leaf]);
      ReadThree(b, [s, k, leaf]);
      ReadThree(o, [s, k, leaf]);
      ReadThree(Merge(b, o, ok), [s, k, leaf]);
    }
  }

  lemma NamesAre(s: string, k: string)
    ensures s in SECTIONS <==> IsMergedSection(s)
    ensures IsNested(s, k) <==> IsMergedRecord(s, k)
  {
    var table := [["runtime", "modelFallback"], ["runtime", "surface"], ["agents", "overrides"],
                  ["reliability", "retryPolicy"], ["otlp", "headers"]];
    assert IsMergedRecord(s, k) <==> exists i :: 0 <= i < 5 && table[i][0] == s && table[i][1] == k by {
      forall i | 0 <= i < 5 ensures table[i] == [s, k] <==> table[i][0] == s && table[i][1] == k {
      }
    }
  }

  /** One bad header takes all headers of the merged layers away. */
  lemma BadHeaderTakesAll(b: Config, o: Config, ok: HeaderCheck, header: string)
    requires IsTyped(b) && IsTyped(o)
    requires var below, above := Fields(At(b, "otlp", "headers")), Fields(At(o, "otlp", "headers"));
             var v := First(Get(above, header), Get(below, header));
             !v.Undefined? && !ok(header, v)
    ensures At(Merge(b, o, ok), "otlp", "headers").Undefined?
  {
    MergeGet(b, o, ok, "otlp");
    SpreadGet(b, o, "otlp");
    TypedSection(b, "otlp");
    TypedSection(o, "otlp");
    var bs, os := Fields(Get(b, "otlp")), Fields(Get(o, "otlp"));
    assert header in Headers(bs, os);
  }

  // ---------- layers stay well-formed ----------

  lemma MergeTyped(b: Config, o: Config, ok: HeaderCheck)
    requires IsTyped(b) && IsTyped(o)
    ensures IsTyped(Merge(b, o, ok))
  {
    var m := Merge(b, o, ok);
    forall s | s in m && s in SECTIONS ensures IsRecord(m[s]) && NestedTyped(s, Fields(m[s])) {
      MergeGet(b, o, ok, s);
      SpreadGet(b, o, s);
      TypedSection(b, s);
      TypedSection(o, s);
      SectionTyped(s, Fields(Get(b, s)), Fields(Get(o, s)), ok);
    }
  }

  lemma SectionTyped(section: string, b: Config, o: Config, ok: HeaderCheck)
    requires NestedTyped(section, b) && NestedTyped(section, o)
    ensures NestedTyped(section, MergeSection(section, b, o, ok))
  {
    var m := MergeSection(section, b, o, ok);
    forall k | k in m && IsNested(section, k) ensures IsRecord(m[k]) {
      SpreadGet(b, o, k);
    }
  }

  lemma MergeHeadersOk(b: Config, o: Config, ok: HeaderCheck)
    ensures IsTyped(b) && IsTyped(o) ==> HeadersOk(Merge(b, o, ok), ok)
  {
    MergeGet(b, o, ok, "otlp");
    SpreadGet(b, o, "otlp");
  }

  // ---------- merging is a monoid ----------

  lemma HeadersAreSpread(b: Config, o: Config)
    requires NestedTyped("otlp", b) && NestedTyped("otlp", o)
    ensures Headers(b, o) == Both(b, o, "headers")
  {
    assert Defined(Fields(Get(o, "headers"))) == Fields(Get(o, "headers"));
  }

  /** Overrides and headers are there if there are any, the other nested records if a layer has one. */
  predicate NestedPresent(section: string, b: Config, o: Config, key: string) {
    if section == "agents" || section == "otlp" then Both(b, o, key) != map[] else InEither(b, o, key)
  }

  lemma NestedValue(section: string, b: Config, o: Config, ok: HeaderCheck, key: string)
    requires IsNested(section, key) && NestedTyped(section, b) && NestedTyped(section, o)
    requires section == "otlp" ==> AllOk(Headers(b, o), ok)
    ensures Get(MergeSection(section, b, o, ok), key) ==
            if NestedPresent(section, b, o, key) then Rec(Both(b, o, key)) else Undefined
  {
    if section == "otlp" { HeadersAreSpread(b, o); }
    SpreadGet(b, o, key);
    assert key in b ==> IsRecord(b[key]);
    assert key in o ==> IsRecord(o[key]);
  }

  lemma NestedFields(section: string, b: Config, o: Config, ok: HeaderCheck, key: string)
    requires IsNested(section, key) && NestedTyped(section, b) && NestedTyped(section, o)
    requires section == "otlp" ==> AllOk(Headers(b, o), ok)
    ensures Fields(Get(MergeSection(section, b, o, ok), key)) == Both(b, o, key)
  {
    NestedValue(section, b, o, ok, key);
    assert !InEither(b, o, key) ==> Both(b, o, key) == map[];
  }

  ghost predicate OtlpOk(section: string, c: Config, ok: HeaderCheck) {
    section == "otlp" ==> AllOk(Fields(Get(c, "headers")), ok)
  }

  lemma OtlpOkMerges(section: string, b: Config, o: Config, ok: HeaderCheck)
    requires NestedTyped(section, b) && NestedTyped(section, o) && OtlpOk(section, b, ok) && OtlpOk(section, o, ok)
    ensures section == "otlp" ==> AllOk(Headers(b, o), ok)
    ensures OtlpOk(section, MergeSection(section, b, o, ok), ok) &&
              NestedTyped(section, MergeSection(section, b, o, ok))
  {
    SectionTyped(section, b, o, ok);
  }

  lemma NestedAssociative(section: string, a: Config, b: Config, c: Config, ok: HeaderCheck, key: string)
    requires IsNested(section, key)
    requires NestedTyped(section, a) && NestedTyped(section, b) && NestedTyped(section, c)
    requires OtlpOk(section, a, ok) && OtlpOk(section, b, ok) && OtlpOk(section, c, ok)
    ensures Get(MergeSection(section, MergeSection(section, a, b, ok), c, ok), key) ==
            Get(MergeSection(section, a, MergeSection(section, b, c, ok), ok), key)
  {
    var ab, bc := MergeSection(section, a, b, ok), MergeSection(section, b, c, ok);
    OtlpOkMerges(section, a, b, ok);
    OtlpOkMerges(section, b, c, ok);
    OtlpOkMerges(section, ab, c, ok);
    OtlpOkMerges(section, a, bc, ok);
    hide MergeSection, NestedTyped, OtlpOk, Headers, AllOk, IsNested, Spread, Get, Fields;
    NestedFields(section, a, b, ok, key);
    NestedFields(section, b, c, ok, key);
    NestedValue(section, a, b, ok, key);
    NestedValue(section, b, c, ok, key);
    NestedValue(section, ab, c, ok, key);
    NestedValue(section, a, bc, ok, key);
    SpreadAssociative(Fields(Get(a, key)), Fields(Get(b, key)), Fields(Get(c, key)));
    PresenceAssociates(section, a, b, c, ab, bc, key);
  }

  lemma PresenceAssociates(section: string, a: Config, b: Config, c: Config, ab: Config, bc: Config, key: string)
    requires Get(ab, key) == if NestedPresent(section, a, b, key) then Rec(Both(a, b, key)) else Undefined
    requires Get(bc, key) == if NestedPresent(section, b, c, key) then Rec(Both(b, c, key)) else Undefined
    requires Both(ab, c, key) == Both(a, bc, key)
    ensures NestedPresent(section, ab, c, key) == NestedPresent(section, a, bc, key)
  {
  }

  lemma SectionAssociative(section: string, a: Config, b: Config, c: Config, ok: HeaderCheck)
    requires NestedTyped(section, a) && NestedTyped(section, b) && NestedTyped(section, c)
    requires OtlpOk(section, a, ok) && OtlpOk(section, b, ok) && OtlpOk(section, c, ok)
    ensures Same2(MergeSection(section, MergeSection(section, a, b, ok), c, ok),
                  MergeSection(section, a, MergeSection(section, b, c, ok), ok))
  {
    hide MergeSection, NestedTyped, OtlpOk, Get;
    var ab, bc := MergeSection(section, a, b, ok), MergeSection(section, b, c, ok);
    forall k ensures SameValue2(Get(MergeSection(section, ab, c, ok), k), Get(MergeSection(section, a, bc, ok), k)) {
      if IsNested(section, k) {
        NestedAssociative(section, a, b, c, ok, k);
      } else {
        SectionLeaf(section, a, b, ok, k);
        SectionLeaf(section, ab, c, ok, k);
        SectionLeaf(section, b, c, ok, k);
        SectionLeaf(section, a, bc, ok, k);
      }
    }
  }

  /** A layer without the section acts like one with an empty section. */
  lemma EmptySection(section: string, c: Config, ok: HeaderCheck)
    ensures MergeSection(section, MergeSection(section, map[], map[], ok), c, ok) == MergeSection(section, map[], c, ok)
    ensures MergeSection(section, c, MergeSection(section, map[], map[], ok), ok) == MergeSection(section, c, map[], ok)
  {
    var e := MergeSection(section, map[], map[], ok);
    assert e == if section == "reliability" then map["retryPolicy" := Undefined] else map[];
    assert Defined(e) == map[];
    assert Fields(Get(e, "retryPolicy")) == map[];
  }

  lemma OtlpOkOf(c: Config, ok: HeaderCheck, key: string)
    requires IsTyped(c) && HeadersOk(c, ok) && key in SECTIONS
    ensures OtlpOk(key, Fields(Get(c, key)), ok)
    ensures IsRecord(Get(c, key)) && NestedTyped(key, Fields(Get(c, key)))
  {
  }

  /** The section of a merged layer, the missing section counting as an empty one. */
  lemma MergedSection(b: Config, o: Config, ok: HeaderCheck, key: string)
    requires key in SECTIONS && IsRecord(Get(b, key)) && IsRecord(Get(o, key))
    ensures Get(Merge(b, o, ok), key) ==
            if InEither(b, o, key) then Rec(MergeSection(key, Fields(Get(b, key)), Fields(Get(o, key)), ok))
            else Undefined
  {
    MergeGet(b, o, ok, key);
    SpreadGet(b, o, key);
  }

  lemma SectionKeyAssociative(a: Config, b: Config, c: Config, ok: HeaderCheck, k: string)
    requires IsTyped(a) && IsTyped(b) && IsTyped(c) && k in SECTIONS
    requires HeadersOk(a, ok) && HeadersOk(b, ok) && HeadersOk(c, ok)
    ensures SameValue3(Get(Merge(Merge(a, b, ok), c, ok), k), Get(Merge(a, Merge(b, c, ok), ok), k))
  {
    var ab, bc := Merge(a, b, ok), Merge(b, c, ok);
    OtlpOkOf(a, ok, k);
    OtlpOkOf(b, ok, k);
    OtlpOkOf(c, ok, k);
    MergedSection(a, b, ok, k);
    MergedSection(b, c, ok, k);
    MergedSection(ab, c, ok, k);
    MergedSection(a, bc, ok, k);
    hide Merge, MergeSection, IsTyped, HeadersOk, NestedTyped, OtlpOk, Get, Same2;
    SectionAssociative(k, Fields(Get(a, k)), Fields(Get(b, k)), Fields(Get(c, k)), ok);
    EmptySection(k, Fields(Get(a, k)), ok);
    EmptySection(k, Fields(Get(c, k)), ok);
  }

  /** Merging is associative when the headers of all layers pass the check. */
  lemma MergeAssociative(a: Config, b: Config, c: Config, ok: HeaderCheck)
    requires IsTyped(a) && IsTyped(b) && IsTyped(c)
    requires HeadersOk(a, ok) && HeadersOk(b, ok) && HeadersOk(c, ok)
    ensures Same(Merge(Merge(a, b, ok), c, ok), Merge(a, Merge(b, c, ok), ok))
  {
    var l, r := Merge(Merge(a, b, ok), c, ok), Merge(a, Merge(b, c, ok), ok);
    forall k ensures SameValue3(Get(l, k), Get(r, k)) {
      if k in SECTIONS {
        SectionKeyAssociative(a, b, c, ok, k);
      } else {
        MergeGet(Merge(a, b, ok), c, ok, k);
        MergeGet(a, Merge(b, c, ok), ok, k);
        MergeGet(a, b, ok, k);
        MergeGet(b, c, ok, k);
        SpreadGet(a, b, k);
        SpreadGet(b, c, k);
        SpreadGet(Merge(a, b, ok), c, k);
        SpreadGet(a, Merge(b, c, ok), k);
      }
    }
  }

  /** No overrides or headers without a value in them: the parser leaves such records out. */
  predicate IsCompact(c: Config) {
    && (At(c, "agents", "overrides").Rec? ==> Defined(At(c, "agents", "overrides").fields) != map[])
    && (At(c, "otlp", "headers").Rec? ==> Defined(At(c, "otlp", "headers").fields) != map[])
  }

  predicate NestedCompact(section: string, c: Config) {
    forall k <- c :: IsNested(section, k) && (section == "agents" || section == "otlp") && c[k].Rec? ==>
        Defined(c[k].fields) != map[]
  }

  lemma SectionWithNothing(section: string, c: Config, ok: HeaderCheck)
    requires NestedTyped(section, c) && OtlpOk(section, c, ok) && NestedCompact(section, c)
    ensures Same2(MergeSection(section, map[], c, ok), c) && Same2(MergeSection(section, c, map[], ok), c)
  {
    var l, r := MergeSection(section, map[], c, ok), MergeSection(section, c, map[], ok);
    forall k ensures SameValue2(Get(l, k), Get(c, k)) && SameValue2(Get(r, k), Get(c, k)) {
      if IsNested(section, k) {
        NestedValue(section, map[], c, ok, k);
        NestedValue(section, c, map[], ok, k);
        var f := Fields(Get(c, k));
        assert Both(map[], c, k) == Defined(f) && Both(c, map[], k) == f;
        DefinedIsSame(f);
        assert k in c ==> IsRecord(c[k]);
      } else {
        SectionLeaf(section, map[], c, ok, k);
        SectionLeaf(section, c, map[], ok, k);
      }
    }
  }

  lemma SectionCompact(c: Config, s: string)
    requires IsCompact(c)
    ensures NestedCompact(s, Fields(Get(c, s)))
  {
  }

  lemma SectionNotNeutral(section: string, c: Config, ok: HeaderCheck, key: string)
    requires IsNested(section, key) && (section == "agents" || section == "otlp") && Get(c, key).Rec?
    requires Defined(Fields(Get(c, key))) == map[] || (section == "otlp" && !AllOk(Fields(Get(c, key)), ok))
    requires NestedTyped(section, c)
    ensures !Same2(MergeSection(section, map[], c, ok), c)
  {
    var f := Fields(Get(c, key));
    assert SpreadAll(map[], f) == f && Both(map[], c, key) == Defined(f);
    assert section == "otlp" ==> Defined(f) == f;
    var m := MergeSection(section, map[], c, ok);
    assert Get(m, key).Undefined?;
    assert !SameValue2(Get(m, key), Get(c, key));
  }

  lemma NotNeutral(c: Config, ok: HeaderCheck)
    requires IsTyped(c) && !(HeadersOk(c, ok) && IsCompact(c))
    ensures !Same(Merge(map[], c, ok), c)
  {
    var overrides := At(c, "agents", "overrides");
    var (s, k) := if overrides.Rec? && Defined(overrides.fields) == map[] then ("agents", "overrides")
                  else ("otlp", "headers");
    TypedSection(c, s);
    MergedSection(map[], c, ok, s);
    SectionNotNeutral(s, Fields(Get(c, s)), ok, k);
    hide Same2, MergeSection, Merge;
    assert !SameValue3(Get(Merge(map[], c, ok), s), Get(c, s));
  }

  lemma Neutral(c: Config, ok: HeaderCheck)
    requires IsTyped(c) && HeadersOk(c, ok) && IsCompact(c)
    ensures Same(Merge(map[], c, ok), c) && Same(Merge(c, map[], ok), c)
  {
    var l, r := Merge(map[], c, ok), Merge(c, map[], ok);
    forall k ensures SameValue3(Get(l, k), Get(c, k)) && SameValue3(Get(r, k), Get(c, k)) {
      if k in SECTIONS {
        OtlpOkOf(c, ok, k);
        SectionCompact(c, k);
        SectionWithNothing(k, Fields(Get(c, k)), ok);
        MergedSection(map[], c, ok, k);
        MergedSection(c, map[], ok, k);
      } else {
        MergeGet(map[], c, ok, k);
        MergeGet(c, map[], ok, k);
        SpreadGet(map[], c, k);
        SpreadGet(c, map[], k);
      }
    }
  }

  /** The empty configuration is neutral on both sides exactly for those configurations whose headers
      pass the check and whose overrides and headers hold a value. */
  lemma MergeIdentity(c: Config, ok: HeaderCheck)
    requires IsTyped(c)
    ensures Same(Merge(map[], c, ok), c) && Same(Merge(c, map[], ok), c) <==> HeadersOk(c, ok) && IsCompact(c)
  {
    hide Same, Merge, HeadersOk, IsCompact, IsTyped;
    if HeadersOk(c, ok) && IsCompact(c) {
      Neutral(c, ok);
    } else {
      NotNeutral(c, ok);
    }
  }
}
