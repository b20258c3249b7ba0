/** Parsed configurations as the loader combines them: records of records, where a key can be there
    with the value `undefined`. */
module ConfigValues {

  datatype Atom = Flag(bool) | Word(string) | Other(int)

  datatype Value = Undefined | Atom(atom: Atom) | Rec(fields: Config)

  type Config = map<string, Value>

  function Get(c: Config, key: string): Value { if key in c then c[key] else Undefined }

  function Fields(v: Value): Config { if v.Rec? then v.fields else map[] }

  /** Value of a key of a section. */
  function At(c: Config, section: string, key: string): Value { Get(Fields(Get(c, section)), key) }

  function Read(c: Config, path: seq<string>): Value
    decreases |path|
  {
    if path == [] then Undefined
    else if |path| == 1 then Get(c, path[0])
    else Read(Fields(Get(c, path[0])), path[1..])
  }

  /** Spreading one object after another: every own key of the second wins, even with `undefined`. */
  function SpreadAll(b: Config, o: Config): Config { b + o }

  function Defined(c: Config): Config { map k | k in c && !c[k].Undefined? :: c[k] }

  /** Spreading `b` and then the defined keys of `o`. */
  function Spread(b: Config, o: Config): Config { b + Defined(o) }

  lemma SpreadGet(b: Config, o: Config, key: string)
    ensures Get(Spread(b, o), key) == if Get(o, key).Undefined? then Get(b, key) else Get(o, key)
    ensures key in Spread(b, o) <==> key in b || !Get(o, key).Undefined?
  {
  }

  lemma DefinedIsSame(c: Config)
    ensures Same1(Defined(c), c)
  {
  }

  lemma DefinedOfSpread(b: Config, c: Config)
    ensures Defined(Spread(b, c)) == Defined(b) + Defined(c)
  {
  }

  lemma SpreadAssociative(a: Config, b: Config, c: Config)
    ensures Spread(Spread(a, b), c) == Spread(a, Spread(b, c))
  {
    DefinedOfSpread(b, c);
    hide Defined;
  }

  // ---------- equality up to absent versus undefined ----------

  ghost predicate Same1(c: Config, d: Config) {
    forall k :: Get(c, k) == Get(d, k)
  }

  ghost predicate SameValue2(v: Value, w: Value) {
    v == w || (v.Rec? && w.Rec? && Same1(v.fields, w.fields))
  }

  ghost predicate Same2(c: Config, d: Config) {
    forall k :: SameValue2(Get(c, k), Get(d, k))
  }

  ghost predicate SameValue3(v: Value, w: Value) {
    v == w || (v.Rec? && w.Rec? && Same2(v.fields, w.fields))
  }

  /** Configurations that differ only in keys that are absent in one and `undefined` in the other,
      down to the third level. */
  ghost predicate Same(c: Config, d: Config) {
    forall k :: SameValue3(Get(c, k), Get(d, k))
  }
}
