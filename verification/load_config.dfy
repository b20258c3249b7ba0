/**
 The configuration loader (`loadConfig` in src/config/config.ts) over parsed files. Users trust their
 own files; a project file must not be able to set a sensitive key or to loosen a guard.
 */
module LoadConfig {
  import opened Wrappers
  import opened ConfigValues
  import opened ConfigMerge
  import opened Sanitize
  import Text

  /** The broker and fsync switches of the environment, `None` if unset. */
  datatype Env = Env(broker: Option<bool>, skipTasksFsync: Option<bool>)

  datatype Defaults = Defaults(broker: Config, nesting: Config, persistence: Config)

  /** What does not change between two loads: sensitive paths, header check, environment, defaults. */
  datatype Setting = Setting(paths: seq<string>, ok: HeaderCheck, env: Env, defaults: Defaults)

  /** Parsed user-level files; a missing file is `None`. */
  datatype UserFiles = UserFiles(user: Option<Config>, legacy: Option<Config>)

  /** Parsed project files: `config.json` in the crew root and `.pi/pi-crew.json`. */
  datatype ProjectFiles = ProjectFiles(crewRoot: Option<Config>, piCrew: Option<Config>)

  function OrEmpty(c: Option<Config>): Config { if c.Some? then c.value else map[] }

  function UserLayer(st: Setting, u: UserFiles): Config {
    Merge(OrEmpty(u.legacy), OrEmpty(u.user), st.ok)
  }

  /** The crew-root file goes under the user layer, the other project file under both. */
  function WithCrewRoot(st: Setting, layer: Config, file: Option<Config>): Config {
    var effective := if file.Some? then Merge(map[], Sanitized(file.value, st.paths), st.ok) else map[];
    Merge(effective, layer, st.ok)
  }

  function WithPiCrew(st: Setting, layer: Config, file: Option<Config>): Config {
    if file.Some? then Merge(Sanitized(file.value, st.paths), layer, st.ok) else layer
  }

  function Layered(st: Setting, u: UserFiles, p: ProjectFiles): Config {
    WithPiCrew(st, WithCrewRoot(st, UserLayer(st, u), p.crewRoot), p.piCrew)
  }

  /** Defaults are spread first, so an own key with the value `undefined` takes a default away. */
  function WithDefaults(st: Setting, c: Config): Config {
    var broker := Fields(Get(c, "broker"));
    var switched := if st.env.broker.Some? then broker["enabled" := Atom(Flag(st.env.broker.value))] else broker;
    var persistence := SpreadAll(st.defaults.persistence, Fields(Get(c, "persistence")));
    var fsync := if st.env.skipTasksFsync.None? then persistence
                 else persistence["skipTasksFsync" := Atom(Flag(st.env.skipTasksFsync.value))];
    c["broker" := Rec(SpreadAll(st.defaults.broker, switched))]
     ["nesting" := Rec(SpreadAll(st.defaults.nesting, Fields(Get(c, "nesting"))))]
     ["persistence" := Rec(fsync)]
  }

  /** A load for a project directory. */
  function Load(st: Setting, u: UserFiles, p: ProjectFiles): Config {
    WithDefaults(st, Layered(st, u, p))
  }

  // ---------- conditions on the inputs ----------

  predicate TypedFile(c: Option<Config>) { c.Some? ==> IsTyped(c.value) }

  predicate TypedUser(u: UserFiles) { TypedFile(u.user) && TypedFile(u.legacy) }

  predicate TypedProject(p: ProjectFiles) { TypedFile(p.crewRoot) && TypedFile(p.piCrew) }

  /** No section is sensitive as a whole and in one of its keys: marked keys of the schema are not
      searched for further marks. */
  predicate IsPrefixFree(paths: seq<string>) {
    forall i, j :: 0 <= i < |paths| && 0 <= j < |paths| ==>
                     (Split(paths[i]).section == "" ==>
                        Split(paths[j]).section == "" || Split(paths[j]).section != Split(paths[i]).key)
  }

  const DEFAULTED: set<string> := {"broker", "nesting", "persistence"}

  // ---------- what is left of a project file ----------

  lemma SanitizedTyped(c: Config, paths: seq<string>)
    requires IsTyped(c)
    ensures IsTyped(Sanitized(c, paths))
  {
    var g := GroupsOf(paths);
    var w := Unconditional(c, g);
    forall s | s in w && s in SECTIONS ensures IsRecord(w[s]) && NestedTyped(s, Fields(w[s])) {
      if IsRewritten(c, g, s) {
        RedactTyped(s, Fields(c[s]), g[s]);
      }
    }
    var r := Conditional(w);
    forall s | s in r && s in SECTIONS ensures IsRecord(r[s]) && NestedTyped(s, Fields(r[s])) {
    }
  }

  lemma RedactTyped(s: string, fields: Config, keys: seq<string>)
    requires NestedTyped(s, fields)
    ensures NestedTyped(s, Redact(s, fields, keys))
  {
    var r := Redact(s, fields, keys);
    assert Get(r, "headers").Undefined? || Get(r, "headers") == Get(fields, "headers");
  }

  /** A sensitive top-level key has no value any more. */
  lemma TopIsDropped(c: Config, paths: seq<string>, key: string)
    requires IsSensitive(paths, Place("", key)) && IsPrefixFree(paths)
    ensures Get(Sanitized(c, paths), key).Undefined?
  {
    var g := GroupsOf(paths);
    GroupsHoldPaths(paths, Place("", key));
    assert key !in g || key == "" by {
      if key in g && key != "" {
        GroupsAreNotEmpty(paths, key);
        var k := g[key][0];
        GroupsHoldPaths(paths, Place(key, k));
        assert false;
      }
    }
  }

  lemma {:induction false} GroupsAreNotEmpty(paths: seq<string>, section: string)
    requires section in GroupsOf(paths)
    ensures GroupsOf(paths)[section] != []
  {
    if paths != [] && section in GroupsOf(paths[..|paths| - 1]) {
      GroupsAreNotEmpty(paths[..|paths| - 1], section);
    }
  }

  lemma UnconditionalDrops(c: Config, g: Groups, section: string, key: string)
    requires section != "" && key in KeysIn(g, section)
    ensures At(Unconditional(c, g), section, key).Undefined?
  {
    assert section in g && key in g[section];
    if Get(c, section).Rec? && !IsRewritten(c, g, section) {
      assert Get(Fields(c[section]), key).Undefined?;
    }
  }

  lemma ConditionalAddsNothing(w: Config, section: string, key: string)
    requires At(w, section, key).Undefined?
    ensures At(Conditional(w), section, key).Undefined?
  {
    hide Loosens;
  }

  /** A sensitive key of a section has no value any more. */
  lemma KeyIsDropped(c: Config, paths: seq<string>, section: string, key: string)
    requires section != "" && IsSensitive(paths, Place(section, key))
    ensures At(Sanitized(c, paths), section, key).Undefined?
  {
    hide Unconditional, Conditional, GroupsOf, At;
    GroupsHoldPaths(paths, Place(section, key));
    UnconditionalDrops(c, GroupsOf(paths), section, key);
    ConditionalAddsNothing(Unconditional(c, GroupsOf(paths)), section, key);
  }

  /** No guard is loosened by what is left. */
  lemma NothingLoosened(c: Config, paths: seq<string>, section: string, key: string)
    ensures !Loosens(section, key, At(Sanitized(c, paths), section, key))
  {
  }

  // ---------- sensitive keys ----------

  /** What one merge makes of a sensitive value of the layer on top when the layer below has none. */
  function Settled(section: string, key: string, v: Value, ok: HeaderCheck): Value {
    if section !in SECTIONS || !IsNested(section, key) || !v.Rec? then v
    else if section == "agents" && Defined(v.fields) == map[] then Undefined
    else if section == "otlp" then if v.fields == map[] || !AllOk(v.fields, ok) then Undefined else v
    else Rec(Defined(v.fields))
  }

  lemma SettledTwice(section: string, key: string, v: Value, ok: HeaderCheck)
    ensures Settled(section, key, Settled(section, key, v, ok), ok) == Settled(section, key, v, ok)
  {
  }

  lemma SectionSettles(section: string, b: Config, o: Config, ok: HeaderCheck, key: string)
    requires section in SECTIONS && NestedTyped(section, b) && NestedTyped(section, o) && Get(b, key).Undefined?
    ensures Get(MergeSection(section, b, o, ok), key) == Settled(section, key, Get(o, key), ok)
  {
    SpreadGet(b, o, key);
    if IsNested(section, key) {
      var f := Fields(Get(o, key));
      assert Fields(Get(b, key)) == map[];
      assert Both(b, o, key) == Defined(f);
      assert key in o ==> IsRecord(o[key]);
      if section == "otlp" {
        assert Headers(b, o) == f;
      }
      hide Spread, NestedTyped, IsNested;
    } else {
      SectionLeaf(section, b, o, ok, key);
    }
  }

  lemma MergeSettles(b: Config, o: Config, ok: HeaderCheck, section: string, key: string)
    requires IsTyped(b) && IsTyped(o) && At(b, section, key).Undefined?
    ensures At(Merge(b, o, ok), section, key) == Settled(section, key, At(o, section, key), ok)
  {
    if section in SECTIONS {
      TypedSection(b, section);
      TypedSection(o, section);
      MergedSection(b, o, ok, section);
      hide MergeSection, Merge, IsTyped, NestedTyped;
      SectionSettles(section, Fields(Get(b, section)), Fields(Get(o, section)), ok, key);
    } else {
      MergeGet(b, o, ok, section);
      SpreadGet(b, o, section);
    }
  }

  lemma LayersTyped(st: Setting, u: UserFiles, p: ProjectFiles)
    requires TypedUser(u) && TypedProject(p)
    ensures IsTyped(UserLayer(st, u)) && IsTyped(WithCrewRoot(st, UserLayer(st, u), p.crewRoot))
    ensures IsTyped(Layered(st, u, p))
  {
    hide IsTyped, Merge, Sanitized;
    EmptyTyped();
    MergeTyped(OrEmpty(u.legacy), OrEmpty(u.user), st.ok);
    var l := UserLayer(st, u);
    if p.crewRoot.Some? {
      SanitizedTyped(p.crewRoot.value, st.paths);
      MergeTyped(map[], Sanitized(p.crewRoot.value, st.paths), st.ok);
      MergeTyped(Merge(map[], Sanitized(p.crewRoot.value, st.paths), st.ok), l, st.ok);
    } else {
      MergeTyped(map[], l, st.ok);
    }
    if p.piCrew.Some? {
      SanitizedTyped(p.piCrew.value, st.paths);
      MergeTyped(Sanitized(p.piCrew.value, st.paths), WithCrewRoot(st, l, p.crewRoot), st.ok);
    }
  }

  lemma EmptyTyped()
    ensures IsTyped(map[])
  {
  }

  /** Before the defaults: a sensitive key of a section comes from the user layer alone. */
  lemma LayeredSensitive(st: Setting, u: UserFiles, p: ProjectFiles, section: string, key: string)
    requires TypedUser(u) && TypedProject(p)
    requires section != "" && IsSensitive(st.paths, Place(section, key))
    ensures At(Layered(st, u, p), section, key) == Settled(section, key, At(UserLayer(st, u), section, key), st.ok)
  {
    hide IsTyped, Merge, Sanitized, Settled, At;
    LayersTyped(st, u, p);
    var l := UserLayer(st, u);
    EmptyTyped();
    NothingAt(section, key);
    if p.crewRoot.Some? {
      var s := Sanitized(p.crewRoot.value, st.paths);
      SanitizedTyped(p.crewRoot.value, st.paths);
      KeyIsDropped(p.crewRoot.value, st.paths, section, key);
      MergeSettles(map[], s, st.ok, section, key);
      MergeTyped(map[], s, st.ok);
      UndefinedSettles(section, key, st.ok);
      MergeSettles(Merge(map[], s, st.ok), l, st.ok, section, key);
    } else {
      MergeSettles(map[], l, st.ok, section, key);
    }
    if p.piCrew.Some? {
      SanitizedTyped(p.piCrew.value, st.paths);
      KeyIsDropped(p.piCrew.value, st.paths, section, key);
      MergeSettles(Sanitized(p.piCrew.value, st.paths), WithCrewRoot(st, l, p.crewRoot), st.ok, section, key);
      SettledTwice(section, key, At(l, section, key), st.ok);
    }
  }

  lemma NothingAt(section: string, key: string)
    ensures At(map[], section, key).Undefined?
  {
  }

  lemma UndefinedSettles(section: string, key: string, ok: HeaderCheck)
    ensures Settled(section, key, Undefined, ok).Undefined?
  {
  }

  // ---------- what stays of a project file ----------

  lemma SanitizedGet(c: Config, paths: seq<string>, section: string)
    ensures var g, v := GroupsOf(paths), Get(c, section);
            Get(Sanitized(c, paths), section) ==
            Guarded(section, if IsRewritten(c, g, section) then Collapse(Redact(section, Fields(v), g[section]))
                             else if IsDroppedTop(c, g, section) then Undefined
                             else v)
  {
  }

  lemma CollapseKeeps(fields: Config, key: string)
    ensures Get(Fields(Collapse(fields)), key) == Get(fields, key)
  {
    assert !Get(fields, key).Undefined? ==> key in Defined(fields);
  }

  lemma RedactKeeps(section: string, fields: Config, keys: seq<string>, key: string)
    requires key !in keys
    ensures Get(Redact(section, fields, keys), key) == Get(fields, key)
  {
  }

  lemma GuardedKeeps(section: string, v: Value, key: string)
    requires !Loosens(section, key, Get(Fields(v), key))
    ensures Get(Fields(Guarded(section, v)), key) == Get(Fields(v), key)
  {
    if v.Rec? {
      CollapseKeeps(Tighten(section, v.fields), key);
      assert Get(Tighten(section, v.fields), key) == Get(v.fields, key);
    }
  }

  /** A key of any section that is not sensitive, by itself or with its section, and does not loosen a guard
      reads after sanitizing as in the file. */
  lemma HarmlessSurvives(c: Config, paths: seq<string>, section: string, key: string)
    requires !IsSensitive(paths, Place(section, key)) && !IsSensitive(paths, Place("", section))
    requires !Loosens(section, key, At(c, section, key))
    ensures At(Sanitized(c, paths), section, key) == At(c, section, key)
  {
    var g, v := GroupsOf(paths), Get(c, section);
    SanitizedGet(c, paths, section);
    GroupsHoldPaths(paths, Place(section, key));
    GroupsHoldPaths(paths, Place("", section));
    assert key !in KeysIn(g, section) && section !in KeysIn(g, "");
    hide Sanitized, GroupsOf, IsSensitive, Guarded, Collapse, Redact, Loosens;
    if IsRewritten(c, g, section) {
      var r := Redact(section, Fields(v), g[section]);
      RedactKeeps(section, Fields(v), g[section], key);
      CollapseKeeps(r, key);
      GuardedKeeps(section, Collapse(r), key);
    } else {
      GuardedKeeps(section, v, key);
    }
  }

  /** No sensitive path leads into the section. */
  predicate NoMarksIn(paths: seq<string>, section: string) {
    forall i :: 0 <= i < |paths| ==> Split(paths[i]).section != section
  }

  /** A top-level key that is not sensitive keeps its value, if that is no record, or if it is a record into
      which no sensitive path leads and that holds no guard. */
  lemma HarmlessTopSurvives(c: Config, paths: seq<string>, key: string)
    requires !IsSensitive(paths, Place("", key))
    requires Get(c, key).Rec? ==> NoMarksIn(paths, key) && GuardKeys(key) == {}
    ensures Get(Sanitized(c, paths), key) == Get(c, key)
  {
    var g, v := GroupsOf(paths), Get(c, key);
    SanitizedGet(c, paths, key);
    GroupsHoldPaths(paths, Place("", key));
    assert !IsDroppedTop(c, g, key);
    if v.Rec? {
      if key in g {
        GroupsAreNotEmpty(paths, key);
        GroupsHoldPaths(paths, Place(key, g[key][0]));
      }
      assert Tighten(key, v.fields) == v.fields;
    }
  }

  /** Each guard by its name: no project file makes one loose. */
  lemma GuardsByName(c: Config, paths: seq<string>)
    ensures var s := Sanitized(c, paths);
            && At(s, "runtime", "requirePlanApproval") != Atom(Flag(false))
            && At(s, "runtime", "completionMutationGuard") != Atom(Word("off"))
            && At(s, "runtime", "effectivenessGuard") != Atom(Word("off"))
            && At(s, "limits", "allowUnboundedConcurrency") != Atom(Flag(true))
            && At(s, "reliability", "autoRecover") != Atom(Flag(false))
            && At(s, "reliability", "scopeModels") != Atom(Flag(false))
            && At(s, "broker", "enabled") != Atom(Flag(false))
  {
    hide Sanitized;
    NothingLoosened(c, paths, "runtime", "requirePlanApproval");
    NothingLoosened(c, paths, "runtime", "completionMutationGuard");
    NothingLoosened(c, paths, "runtime", "effectivenessGuard");
    NothingLoosened(c, paths, "limits", "allowUnboundedConcurrency");
    NothingLoosened(c, paths, "reliability", "autoRecover");
    NothingLoosened(c, paths, "reliability", "scopeModels");
    NothingLoosened(c, paths, "broker", "enabled");
  }

  // ---------- blocks with defaults in a project file ----------

  /** What sanitizing leaves of a block of a project file: keys without a value, and the values that are
      neither sensitive nor loosen a guard. */
  function Left(paths: seq<string>, section: string, fields: Config): Config {
    map k | && k in fields
            && (fields[k].Undefined? ||
                (!IsSensitive(paths, Place(section, k)) && !Loosens(section, k, fields[k])))
      :: fields[k]
  }

  predicate IsCut(paths: seq<string>, section: string, fields: Config) {
    exists k <- fields :: !fields[k].Undefined? && IsSensitive(paths, Place(section, k))
  }

  /** The block is not dropped: it has no value to lose, or does not lose all. A block that is sensitive
      as a whole goes, unless a cut in it puts the rest back. */
  predicate BlockStays(c: Config, paths: seq<string>, section: string) {
    var v := Get(c, section);
    && !v.Undefined?
    && (v.Rec? ==> Defined(v.fields) == map[] || Defined(Left(paths, section, v.fields)) != map[])
    && (IsSensitive(paths, Place("", section)) ==> IsCut(paths, section, Fields(v)))
  }

  lemma KeysAreSensitive(paths: seq<string>, section: string)
    ensures forall k :: k in KeysIn(GroupsOf(paths), section) <==> IsSensitive(paths, Place(section, k))
  {
    hide GroupsOf, KeysIn, IsSensitive;
    forall k ensures k in KeysIn(GroupsOf(paths), section) <==> IsSensitive(paths, Place(section, k)) {
      GroupsHoldPaths(paths, Place(section, k));
    }
  }

  lemma CutIsRewritten(c: Config, paths: seq<string>, section: string)
    requires section in DEFAULTED
    ensures IsRewritten(c, GroupsOf(paths), section) <==>
            Get(c, section).Rec? && IsCut(paths, section, Fields(Get(c, section)))
    ensures IsDroppedTop(c, GroupsOf(paths), section) <==>
            IsSensitive(paths, Place("", section)) && !Get(c, section).Undefined?
    ensures forall k :: k in KeysIn(GroupsOf(paths), section) <==> IsSensitive(paths, Place(section, k))
  {
    KeysAreSensitive(paths, "");
    KeysAreSensitive(paths, section);
    hide GroupsOf, IsSensitive;
    CutIsChange(paths, section, Fields(Get(c, section)), KeysIn(GroupsOf(paths), section));
    hide IsCut, Changes;
  }

  lemma CutIsChange(paths: seq<string>, section: string, f: Config, keys: seq<string>)
    requires forall k :: k in keys <==> IsSensitive(paths, Place(section, k))
    ensures IsCut(paths, section, f) <==> Changes(f, keys)
    ensures keys == [] ==> !Changes(f, keys)
  {
    hide IsSensitive;
    if IsCut(paths, section, f) {
      var k :| k in f && !f[k].Undefined? && IsSensitive(paths, Place(section, k));
      assert k in keys && !Get(f, k).Undefined?;
    }
  }

  lemma CutBlock(paths: seq<string>, section: string, f: Config, keys: seq<string>)
    requires section in DEFAULTED && IsCut(paths, section, f)
    requires forall k :: k in keys <==> IsSensitive(paths, Place(section, k))
    ensures Guarded(section, Collapse(Redact(section, f, keys))) == Collapse(Left(paths, section, f))
    ensures Defined(f) != map[]
  {
    hide IsSensitive;
    var r := Redact(section, f, keys);
    assert Tighten(section, r) == Left(paths, section, f);
    var k :| k in f && !f[k].Undefined? && IsSensitive(paths, Place(section, k));
    assert k in Defined(f);
    assert Defined(r) == map[] ==> Defined(Left(paths, section, f)) == map[];
  }

  lemma UncutBlock(paths: seq<string>, section: string, f: Config)
    requires !IsCut(paths, section, f)
    ensures var t := Left(paths, section, f);
            Guarded(section, Rec(f)) == if Defined(f) == map[] || Defined(t) != map[] then Rec(t) else Undefined
  {
    hide IsSensitive;
    var t := Left(paths, section, f);
    assert Tighten(section, f) == t;
    if t != f {
      var k :| k in f && k !in t;
      assert k in Defined(f);
    }
  }

  /** Exactly what a project file's block becomes. */
  lemma BlockAfterSanitizing(c: Config, paths: seq<string>, section: string)
    requires section in DEFAULTED
    ensures Get(Sanitized(c, paths), section) ==
            if !BlockStays(c, paths, section) then Undefined
            else if Get(c, section).Rec? then Rec(Left(paths, section, Fields(Get(c, section))))
            else Get(c, section)
  {
    SanitizedGet(c, paths, section);
    CutIsRewritten(c, paths, section);
    var g, v := GroupsOf(paths), Get(c, section);
    hide IsSensitive, GroupsOf, Sanitized, Redact, Left, IsCut, IsRewritten, IsDroppedTop;
    if v.Rec? {
      if IsCut(paths, section, v.fields) {
        CutBlock(paths, section, v.fields, KeysIn(g, section));
      } else {
        UncutBlock(paths, section, v.fields);
      }
    }
  }

  // ---------- sensitive keys with a default ----------

  /** The file brings the key along with no value, in a block that stays. */
  predicate ErasedIn(c: Option<Config>, paths: seq<string>, section: string, key: string) {
    && c.Some? && BlockStays(c.value, paths, section)
    && key in Fields(Get(c.value, section)) && At(c.value, section, key).Undefined?
  }

  /** A project file takes the default of a sensitive key away. The persistence block is taken as a whole,
      from the first file that has one; the other blocks keep the keys of `.pi/pi-crew.json`. */
  predicate Erases(st: Setting, p: ProjectFiles, section: string, key: string) {
    if section == "persistence" && p.crewRoot.Some? && BlockStays(p.crewRoot.value, st.paths, section) then
      ErasedIn(p.crewRoot, st.paths, section, key)
    else ErasedIn(p.piCrew, st.paths, section, key)
  }

  /** The value a defaulted section gives to a key with a default. */
  function DefaultFor(st: Setting, section: string, key: string): Value {
    if section == "broker" then Get(st.defaults.broker, key)
    else if section == "nesting" then Get(st.defaults.nesting, key)
    else Get(st.defaults.persistence, key)
  }

  function Switched(st: Setting, section: string, key: string): Option<Value> {
    if section == "broker" && key == "enabled" && st.env.broker.Some? then Some(Atom(Flag(st.env.broker.value)))
    else if section == "persistence" && key == "skipTasksFsync" && st.env.skipTasksFsync.Some? then
      Some(Atom(Flag(st.env.skipTasksFsync.value)))
    else None
  }

  /** What the user says about the key: a value, or with any persistence block whatever that block says,
      the default if the block does not have the key. */
  function UserSays(st: Setting, u: UserFiles, section: string, key: string): Option<Value> {
    var l := UserLayer(st, u);
    if section == "persistence" then
      if Get(l, section).Undefined? then None
      else if key in Fields(Get(l, section)) then Some(Fields(Get(l, section))[key])
      else Some(DefaultFor(st, section, key))
    else if At(l, section, key).Undefined? then None
    else Some(At(l, section, key))
  }

  /** The environment wins; otherwise an own key of the configuration, even one with no value, wins
      over the default. */
  lemma DefaultsRead(st: Setting, c: Config, section: string, key: string)
    ensures section !in DEFAULTED ==> At(WithDefaults(st, c), section, key) == At(c, section, key)
    ensures section in DEFAULTED ==>
              At(WithDefaults(st, c), section, key) ==
              if Switched(st, section, key).Some? then Switched(st, section, key).value
              else if key in Fields(Get(c, section)) then Fields(Get(c, section))[key]
              else DefaultFor(st, section, key)
  {
  }

  /** A merged plain section has a key of its own if the layer on top defines it or the layer below
      has it. */
  lemma MergeOwnKey(b: Config, o: Config, ok: HeaderCheck, section: string, key: string)
    requires IsTyped(b) && IsTyped(o) && (section == "broker" || section == "nesting")
    ensures key in Fields(Get(Merge(b, o, ok), section)) <==>
            key in Fields(Get(b, section)) || !At(o, section, key).Undefined?
  {
    TypedSection(b, section);
    TypedSection(o, section);
    MergedSection(b, o, ok, section);
    SpreadGet(Fields(Get(b, section)), Fields(Get(o, section)), key);
  }

  /** Exactly what a sensitive key of a section with defaults is loaded as: the environment, else what
      the user says, else the default - unless a project file takes it away. */
  lemma SensitiveWithDefault(st: Setting, u: UserFiles, p: ProjectFiles, section: string, key: string)
    requires TypedUser(u) && TypedProject(p) && section in DEFAULTED
    requires IsSensitive(st.paths, Place(section, key))
    ensures At(Load(st, u, p), section, key) ==
            if Switched(st, section, key).Some? then Switched(st, section, key).value
            else if UserSays(st, u, section, key).Some? then UserSays(st, u, section, key).value
            else if Erases(st, p, section, key) then Undefined
            else DefaultFor(st, section, key)
  {
    DefaultsRead(st, Layered(st, u, p), section, key);
    if section == "persistence" {
      PersistenceIsWhole(st, u, p);
      FilesPersistence(st, p, key);
    } else {
      OwnAfterPiCrew(st, u, p, section, key);
    }
  }

  /** The persistence block is the user's if the user has one, else that of the first project file that
      still has one after sanitizing. */
  lemma PersistenceIsWhole(st: Setting, u: UserFiles, p: ProjectFiles)
    ensures Get(Layered(st, u, p), "persistence") ==
            First(Get(UserLayer(st, u), "persistence"),
            First(FileBlock(st, p.crewRoot, "persistence"), FileBlock(st, p.piCrew, "persistence")))
  {
    hide Sanitized;
    var l := UserLayer(st, u);
    if p.crewRoot.Some? {
      var s := Sanitized(p.crewRoot.value, st.paths);
      WholeKey(map[], s, st.ok, "persistence");
      WholeKey(Merge(map[], s, st.ok), l, st.ok, "persistence");
    } else {
      WholeKey(map[], l, st.ok, "persistence");
    }
    if p.piCrew.Some? {
      WholeKey(Sanitized(p.piCrew.value, st.paths), WithCrewRoot(st, l, p.crewRoot), st.ok, "persistence");
    }
  }

  function FileBlock(st: Setting, c: Option<Config>, section: string): Value {
    if c.Some? then Get(Sanitized(c.value, st.paths), section) else Undefined
  }

  lemma FileBlockOwns(st: Setting, c: Option<Config>, section: string, key: string)
    requires section in DEFAULTED && IsSensitive(st.paths, Place(section, key))
    ensures FileBlock(st, c, section).Undefined? <==> !(c.Some? && BlockStays(c.value, st.paths, section))
    ensures key in Fields(FileBlock(st, c, section)) <==> ErasedIn(c, st.paths, section, key)
    ensures key in Fields(FileBlock(st, c, section)) ==> Fields(FileBlock(st, c, section))[key].Undefined?
  {
    if c.Some? {
      BlockAfterSanitizing(c.value, st.paths, section);
    }
  }

  lemma FilesPersistence(st: Setting, p: ProjectFiles, key: string)
    requires IsSensitive(st.paths, Place("persistence", key))
    ensures var f := Fields(First(FileBlock(st, p.crewRoot, "persistence"), FileBlock(st, p.piCrew, "persistence")));
            (key in f <==> Erases(st, p, "persistence", key)) && (key in f ==> f[key].Undefined?)
  {
    hide FileBlock, BlockStays, IsSensitive;
    FileBlockOwns(st, p.crewRoot, "persistence", key);
    FileBlockOwns(st, p.piCrew, "persistence", key);
  }

  lemma OwnAfterPiCrew(st: Setting, u: UserFiles, p: ProjectFiles, section: string, key: string)
    requires TypedUser(u) && TypedProject(p) && (section == "broker" || section == "nesting")
    requires IsSensitive(st.paths, Place(section, key))
    ensures At(Layered(st, u, p), section, key) == At(UserLayer(st, u), section, key)
    ensures key in Fields(Get(Layered(st, u, p), section)) <==>
            !At(UserLayer(st, u), section, key).Undefined? || Erases(st, p, section, key)
  {
    hide *;
    OwnAfterCrewRoot(st, u, p, section, key);
    LayersTyped(st, u, p);
    LayeredSensitive(st, u, p, section, key);
    EraseAtPiCrew(st, p, section, key);
    FileBlockOwns(st, p.piCrew, section, key);
    LayeredIs(st, u, p);
    SettledPlain(section, key, At(UserLayer(st, u), section, key), st.ok);
    if p.piCrew.Some? {
      SanitizedTyped(p.piCrew.value, st.paths);
      MergeOwnKey(Sanitized(p.piCrew.value, st.paths), WithCrewRoot(st, UserLayer(st, u), p.crewRoot), st.ok, section,
          key);
    }
  }

  lemma LayeredIs(st: Setting, u: UserFiles, p: ProjectFiles)
    ensures var w := WithCrewRoot(st, UserLayer(st, u), p.crewRoot);
            Layered(st, u, p) == if p.piCrew.Some? then Merge(Sanitized(p.piCrew.value, st.paths), w, st.ok) else w
    ensures TypedProject(p) && p.piCrew.Some? ==> IsTyped(p.piCrew.value)
  {
  }

  lemma EraseAtPiCrew(st: Setting, p: ProjectFiles, section: string, key: string)
    requires section == "broker" || section == "nesting"
    ensures section in DEFAULTED && (Erases(st, p, section, key) <==> ErasedIn(p.piCrew, st.paths, section, key))
    ensures p.piCrew.Some? ==> FileBlock(st, p.piCrew, section) == Get(Sanitized(p.piCrew.value, st.paths), section)
    ensures p.piCrew.None? ==> !ErasedIn(p.piCrew, st.paths, section, key)
  {
    hide BlockStays, Sanitized;
  }

  lemma SettledPlain(section: string, key: string, v: Value, ok: HeaderCheck)
    requires section == "broker" || section == "nesting"
    ensures Settled(section, key, v, ok) == v
  {
  }

  lemma OwnAfterCrewRoot(st: Setting, u: UserFiles, p: ProjectFiles, section: string, key: string)
    requires TypedUser(u) && TypedProject(p) && (section == "broker" || section == "nesting")
    requires IsSensitive(st.paths, Place(section, key))
    ensures var w := WithCrewRoot(st, UserLayer(st, u), p.crewRoot);
            && (key in Fields(Get(w, section)) <==> !At(UserLayer(st, u), section, key).Undefined?)
            && At(w, section, key) == At(UserLayer(st, u), section, key)
  {
    hide IsTyped, Merge, Sanitized, Fields;
    var l := UserLayer(st, u);
    var none := ProjectFiles(p.crewRoot, None);
    LayersTyped(st, u, none);
    LayeredSensitive(st, u, none, section, key);
    EmptyTyped();
    NothingOwned(section, key);
    if p.crewRoot.Some? {
      var s := Sanitized(p.crewRoot.value, st.paths);
      SanitizedTyped(p.crewRoot.value, st.paths);
      KeyIsDropped(p.crewRoot.value, st.paths, section, key);
      MergeOwnKey(map[], s, st.ok, section, key);
      MergeTyped(map[], s, st.ok);
      MergeOwnKey(Merge(map[], s, st.ok), l, st.ok, section, key);
    } else {
      MergeOwnKey(map[], l, st.ok, section, key);
    }
  }

  lemma NothingOwned(section: string, key: string)
    ensures key !in Fields(Get(map[], section))
  {
  }

  /** Project files do not matter at a sensitive key of any section, whatever the two choices of files,
      as long as neither choice takes a default away. */
  lemma IndependentOfProject(st: Setting, u: UserFiles, p: ProjectFiles, q: ProjectFiles, section: string, key: string)
    requires TypedUser(u) && TypedProject(p) && TypedProject(q) && section != ""
    requires IsSensitive(st.paths, Place(section, key))
    requires section in DEFAULTED ==> !Erases(st, p, section, key) && !Erases(st, q, section, key)
    ensures At(Load(st, u, p), section, key) == At(Load(st, u, q), section, key)
  {
    hide Erases, UserSays, UserLayer, Layered, IsSensitive;
    if section in DEFAULTED {
      SensitiveWithDefault(st, u, p, section, key);
      SensitiveWithDefault(st, u, q, section, key);
    } else {
      LayeredSensitive(st, u, p, section, key);
      LayeredSensitive(st, u, q, section, key);
      DefaultsRead(st, Layered(st, u, p), section, key);
      DefaultsRead(st, Layered(st, u, q), section, key);
    }
  }

  /** The exception is real, and exact: two choices of project files agree at a sensitive key of a section
      with defaults if and only if the environment or the user settles it, there is no default, or both
      or neither of the choices take it away. */
  lemma IndependentOfDefaultIff(st: Setting, u: UserFiles, p: ProjectFiles, q: ProjectFiles, section: string,
          key: string)
    requires TypedUser(u) && TypedProject(p) && TypedProject(q) && section in DEFAULTED
    requires IsSensitive(st.paths, Place(section, key))
    ensures At(Load(st, u, p), section, key) == At(Load(st, u, q), section, key) <==>
            || Switched(st, section, key).Some? || UserSays(st, u, section, key).Some?
            || DefaultFor(st, section, key).Undefined?
            || (Erases(st, p, section, key) <==> Erases(st, q, section, key))
  {
    hide Erases, UserSays, Switched, DefaultFor, IsSensitive;
    SensitiveWithDefault(st, u, p, section, key);
    SensitiveWithDefault(st, u, q, section, key);
  }

  /** A project file that sets another key of the nesting block, as the parser hands it on. */
  const ONLY_MAX_SLOTS: Config := map["nesting" := Rec(map["enabled" := Undefined, "maxSlots" := Atom(Other(3))])]

  /** The exception happens: with nesting switched on by default and a sensitive switch, a project
      file that only asks for three slots leaves the switch with no value. */
  lemma DefaultTakenAway(ok: HeaderCheck)
    ensures var st := Setting(["nesting.enabled"], ok, Env(None, None),
              Defaults(map[], map["enabled" := Atom(Flag(true))], map[]));
            var u := UserFiles(None, None);
            && IsSensitive(st.paths, Place("nesting", "enabled"))
            && At(Load(st, u, ProjectFiles(None, None)), "nesting", "enabled") == Atom(Flag(true))
            && At(Load(st, u, ProjectFiles(None, Some(ONLY_MAX_SLOTS))), "nesting", "enabled") == Undefined
  {
    var paths := ["nesting.enabled"];
    var st := Setting(paths, ok, Env(None, None), Defaults(map[], map["enabled" := Atom(Flag(true))], map[]));
    var u := UserFiles(None, None);
    SplitNestingEnabled();
    assert Split(paths[0]) == Place("nesting", "enabled");
    assert IsSensitive(paths, Place("nesting", "enabled"));
    MaxSlotsTyped();
    MaxSlotsErases();
    NothingForUser(st);
    SensitiveWithDefault(st, u, ProjectFiles(None, None), "nesting", "enabled");
    SensitiveWithDefault(st, u, ProjectFiles(None, Some(ONLY_MAX_SLOTS)), "nesting", "enabled");
  }

  lemma NothingForUser(st: Setting)
    ensures At(UserLayer(st, UserFiles(None, None)), "nesting", "enabled").Undefined?
  {
    MergeGet(map[], map[], st.ok, "nesting");
    SpreadGet(map[], map[], "nesting");
  }

  lemma AtTheDot(s: string, i: nat)
    requires i < |s| && s[i] == '.'
    ensures s == s[..i] + "." + s[i + 1..]
  {
  }

  lemma SplitNestingEnabled()
    ensures Split("nesting.enabled") == Place("nesting", "enabled")
  {
    var s := "nesting.enabled";
    assert s[..7] == "nesting" && s[8..] == "enabled" && '.' !in s[..7];
    AtTheDot(s, 7);
    SplitAtFirstDot(s[..7], s[8..]);
  }

  lemma MaxSlotsErases()
    ensures ErasedIn(Some(ONLY_MAX_SLOTS), ["nesting.enabled"], "nesting", "enabled")
  {
    SplitNestingEnabled();
    var paths := ["nesting.enabled"];
    OnlyPath(paths[0], Place("", "nesting"));
    OnlyPath(paths[0], Place("nesting", "maxSlots"));
    hide IsSensitive, Split;
    OneValueStays(ONLY_MAX_SLOTS, paths, "nesting", "maxSlots");
  }

  lemma MaxSlotsTyped()
    ensures IsTyped(ONLY_MAX_SLOTS)
  {
  }

  lemma OneValueStays(c: Config, paths: seq<string>, section: string, key: string)
    requires !At(c, section, key).Undefined? && !IsSensitive(paths, Place("", section))
    requires !IsSensitive(paths, Place(section, key)) && !Loosens(section, key, At(c, section, key))
    ensures BlockStays(c, paths, section)
  {
    hide Loosens, IsSensitive;
    assert key in Defined(Left(paths, section, Fields(Get(c, section))));
  }

  lemma OnlyPath(path: string, p: Place)
    ensures IsSensitive([path], p) <==> Split(path) == p
  {
    assert Split([path][0]) == Split(path);
  }

  // ---------- sensitive top-level keys ----------

  /** What one merge leaves of a value of the layer on top when the layer below has none. */
  function SettledTop(key: string, v: Value, ok: HeaderCheck): Value {
    if key in SECTIONS && v.Rec? then Rec(MergeSection(key, map[], v.fields, ok)) else v
  }

  lemma SettledTopTwice(key: string, v: Value, ok: HeaderCheck)
    ensures SettledTop(key, SettledTop(key, v, ok), ok) == SettledTop(key, v, ok)
  {
    if key in SECTIONS && v.Rec? {
      SectionSettledTwice(key, v.fields, ok);
    }
  }

  lemma SectionSettledTwice(section: string, f: Config, ok: HeaderCheck)
    ensures MergeSection(section, map[], MergeSection(section, map[], f, ok), ok) == MergeSection(section, map[], f, ok)
  {
    var d := Defined(f);
    assert Spread(map[], f) == d && Defined(d) == d;
    hide MergeAgents, MergeReliability, MergeRuntime, MergeOtlp;
    if section == "otlp" {
      OtlpSettledTwice(f, ok);
    } else if section == "agents" {
      AgentsSettledTwice(f);
    } else if section == "reliability" {
      ReliabilitySettledTwice(f);
    } else if section == "runtime" {
      RuntimeSettledTwice(f);
    }
  }

  lemma OtlpSettledTwice(f: Config, ok: HeaderCheck)
    ensures MergeOtlp(map[], MergeOtlp(map[], f, ok), ok) == MergeOtlp(map[], f, ok)
  {
    var m := MergeOtlp(map[], f, ok);
    assert SpreadAll(map[], Fields(Get(f, "headers"))) == Fields(Get(f, "headers"));
    assert SpreadAll(map[], Fields(Get(m, "headers"))) == Fields(Get(m, "headers"));
  }

  lemma AgentsSettledTwice(f: Config)
    ensures MergeAgents(map[], MergeAgents(map[], f)) == MergeAgents(map[], f)
  {
    SettledNested(f, "overrides");
  }

  lemma ReliabilitySettledTwice(f: Config)
    ensures MergeReliability(map[], MergeReliability(map[], f)) == MergeReliability(map[], f)
  {
    SettledNested(f, "retryPolicy");
  }

  lemma RuntimeSettledTwice(f: Config)
    ensures MergeRuntime(map[], MergeRuntime(map[], f)) == MergeRuntime(map[], f)
  {
    SettledNested(f, "modelFallback");
    SettledNested(f, "surface");
    SettledSpread(f, "modelFallback");
    SettledSpread(f, "surface");
  }

  lemma SettledSpread(f: Config, key: string)
    ensures Spread(map[], f) == Defined(f) && Defined(Defined(f)) == Defined(f)
    ensures Get(Defined(f), key) == Get(f, key)
  {
  }

  lemma SettledNested(f: Config, key: string)
    ensures Both(map[], f, key) == Defined(Fields(Get(f, key)))
    ensures Defined(Defined(Fields(Get(f, key)))) == Defined(Fields(Get(f, key)))
  {
  }

  lemma MergeTop(b: Config, o: Config, ok: HeaderCheck, key: string)
    requires Get(b, key).Undefined?
    ensures Get(Merge(b, o, ok), key) == SettledTop(key, Get(o, key), ok)
  {
    MergeGet(b, o, ok, key);
    SpreadGet(b, o, key);
  }

  lemma LayeredTop(st: Setting, u: UserFiles, p: ProjectFiles, key: string)
    requires IsSensitive(st.paths, Place("", key)) && IsPrefixFree(st.paths)
    ensures Get(Layered(st, u, p), key) == SettledTop(key, Get(UserLayer(st, u), key), st.ok)
  {
    hide IsPrefixFree, Sanitized, IsSensitive, SettledTop;
    var l := UserLayer(st, u);
    SettledTopTwice(key, Get(l, key), st.ok);
    if p.crewRoot.Some? {
      var s := Sanitized(p.crewRoot.value, st.paths);
      TopIsDropped(p.crewRoot.value, st.paths, key);
      MergeTop(map[], s, st.ok, key);
      NothingSettles(key, st.ok);
      MergeTop(Merge(map[], s, st.ok), l, st.ok, key);
    } else {
      MergeTop(map[], l, st.ok, key);
    }
    if p.piCrew.Some? {
      TopIsDropped(p.piCrew.value, st.paths, key);
      MergeTop(Sanitized(p.piCrew.value, st.paths), WithCrewRoot(st, l, p.crewRoot), st.ok, key);
    }
  }

  lemma NothingSettles(key: string, ok: HeaderCheck)
    ensures SettledTop(key, Undefined, ok).Undefined?
  {
  }

  /** A key, or a whole section, that is sensitive by itself: project files do not matter at all, not
      even to its defaults. */
  lemma TopLevelIndependent(st: Setting, u: UserFiles, p: ProjectFiles, q: ProjectFiles, key: string)
    requires IsSensitive(st.paths, Place("", key)) && IsPrefixFree(st.paths)
    ensures Get(Load(st, u, p), key) == Get(Load(st, u, q), key)
    ensures key !in DEFAULTED ==> Get(Load(st, u, p), key) == SettledTop(key, Get(UserLayer(st, u), key), st.ok)
  {
    LayeredTop(st, u, p, key);
    LayeredTop(st, u, q, key);
    TopDefaults(st, Layered(st, u, p), Layered(st, u, q), key);
  }

  lemma TopDefaults(st: Setting, c: Config, d: Config, key: string)
    requires Get(c, key) == Get(d, key)
    ensures Get(WithDefaults(st, c), key) == Get(WithDefaults(st, d), key)
    ensures key !in DEFAULTED ==> Get(WithDefaults(st, c), key) == Get(c, key)
  {
  }

  lemma WholeKey(b: Config, o: Config, ok: HeaderCheck, key: string)
    requires key !in SECTIONS
    ensures Get(Merge(b, o, ok), key) == First(Get(o, key), Get(b, key))
  {
    MergeGet(b, o, ok, key);
    SpreadGet(b, o, key);
  }

  // ---------- guards ----------

  /** The value a layer below contributes can only show where the layer on top has none. */
  lemma MergedGuard(b: Config, o: Config, ok: HeaderCheck, section: string, key: string)
    requires IsTyped(b) && IsTyped(o) && key in GuardKeys(section)
    ensures At(Merge(b, o, ok), section, key) == First(At(o, section, key), At(b, section, key))
  {
    var path := [section, key];
    MergeReads(b, o, ok, path);
    ReadTwo(Merge(b, o, ok), path);
    ReadTwo(b, path);
    ReadTwo(o, path);
  }

  /** A guard is loose in the result only if the user layer or the environment loosened it. */
  lemma GuardsStayTight(st: Setting, u: UserFiles, p: ProjectFiles, section: string, key: string)
    requires TypedUser(u) && TypedProject(p)
    requires !Loosens("broker", "enabled", Get(st.defaults.broker, "enabled"))
    requires Loosens(section, key, At(Load(st, u, p), section, key))
    ensures Loosens(section, key, At(UserLayer(st, u), section, key))
            || (section == "broker" && key == "enabled" && st.env.broker == Some(false))
  {
    hide IsTyped, Merge, Sanitized, Loosens;
    var l := UserLayer(st, u);
    LayersTyped(st, u, p);
    EmptyTyped();
    NothingAt(section, key);
    GuardFacts(section, key, At(Load(st, u, p), section, key));
    DefaultsRead(st, Layered(st, u, p), section, key);
    var low: Config := map[];
    if p.crewRoot.Some? {
      var s := Sanitized(p.crewRoot.value, st.paths);
      SanitizedTyped(p.crewRoot.value, st.paths);
      NothingLoosened(p.crewRoot.value, st.paths, section, key);
      MergedGuard(map[], s, st.ok, section, key);
      MergeTyped(map[], s, st.ok);
      low := Merge(map[], s, st.ok);
    }
    MergedGuard(low, l, st.ok, section, key);
    if p.piCrew.Some? {
      SanitizedTyped(p.piCrew.value, st.paths);
      NothingLoosened(p.piCrew.value, st.paths, section, key);
      MergedGuard(Sanitized(p.piCrew.value, st.paths), WithCrewRoot(st, l, p.crewRoot), st.ok, section, key);
    }
    NotLoose(section, key);
  }

  lemma NotLoose(section: string, key: string)
    ensures !Loosens(section, key, Undefined)
  {
  }

  lemma GuardFacts(section: string, key: string, v: Value)
    requires Loosens(section, key, v)
    ensures key in GuardKeys(section) && section != "nesting" && section != "persistence"
    ensures section == "broker" ==> key == "enabled" && v == Atom(Flag(false))
  {
  }

  // ---------- precedence ----------

  function ReadFile(c: Option<Config>, path: seq<string>): Value { ConfigValues.Read(OrEmpty(c), path) }

  function SanitizedFile(st: Setting, c: Option<Config>): Option<Config> {
    if c.Some? then Some(Sanitized(c.value, st.paths)) else None
  }

  /** The headers of every file pass the check, where the path is a header. */
  predicate HeadersPass(st: Setting, u: UserFiles, p: ProjectFiles, path: seq<string>) {
    |path| == 3 && path[0] == "otlp" ==>
      && HeadersOk(OrEmpty(u.user), st.ok) && HeadersOk(OrEmpty(u.legacy), st.ok)
      && HeadersOk(OrEmpty(SanitizedFile(st, p.crewRoot)), st.ok)
      && HeadersOk(OrEmpty(SanitizedFile(st, p.piCrew)), st.ok)
  }

  /** Before the defaults, every leaf at all is the first one defined among the user's file, the legacy
      file, and what sanitizing leaves of the crew-root file and of the other project file. */
  lemma FirstLeftWins(st: Setting, u: UserFiles, p: ProjectFiles, path: seq<string>)
    requires TypedUser(u) && TypedProject(p) && IsLeafPath(path) && HeadersPass(st, u, p, path)
    ensures ConfigValues.Read(Layered(st, u, p), path) ==
            First(ReadFile(u.user, path),
            First(ReadFile(u.legacy, path),
            First(ReadFile(SanitizedFile(st, p.crewRoot), path),
                  ReadFile(SanitizedFile(st, p.piCrew), path))))
  {
    hide IsTyped, Merge, Sanitized, IsLeafPath, ConfigValues.Read, HeadersOk;
    EmptyTyped();
    EmptyReads(path);
    EmptyHeaders(st.ok);
    LayersTyped(st, u, p);
    var l := UserLayer(st, u);
    MergeReads(OrEmpty(u.legacy), OrEmpty(u.user), st.ok, path);
    MergeHeadersOk(OrEmpty(u.legacy), OrEmpty(u.user), st.ok);
    var low: Config := map[];
    if p.crewRoot.Some? {
      var s := Sanitized(p.crewRoot.value, st.paths);
      SanitizedTyped(p.crewRoot.value, st.paths);
      MergeReads(map[], s, st.ok, path);
      MergeTyped(map[], s, st.ok);
      MergeHeadersOk(map[], s, st.ok);
      low := Merge(map[], s, st.ok);
    }
    MergeReads(low, l, st.ok, path);
    MergeHeadersOk(low, l, st.ok);
    if p.piCrew.Some? {
      SanitizedTyped(p.piCrew.value, st.paths);
      MergeReads(Sanitized(p.piCrew.value, st.paths), WithCrewRoot(st, l, p.crewRoot), st.ok, path);
    }
  }

  /** Nothing at the path is taken from the file. */
  predicate IsHarmless(st: Setting, c: Option<Config>, path: seq<string>)
    requires path != []
  {
    c.Some? ==>
      && !IsSensitive(st.paths, Place("", path[0]))
      && (if |path| == 1 then Get(c.value, path[0]).Rec? ==> NoMarksIn(st.paths, path[0]) && GuardKeys(path[0]) == {}
          else
            && !IsSensitive(st.paths, Place(path[0], path[1]))
            && !Loosens(path[0], path[1], At(c.value, path[0], path[1])))
  }

  lemma HarmlessReads(st: Setting, c: Option<Config>, path: seq<string>)
    requires IsLeafPath(path) && IsHarmless(st, c, path)
    ensures ReadFile(SanitizedFile(st, c), path) == ReadFile(c, path)
    ensures |path| == 3 && path[0] == "otlp" ==>
              HeadersOk(OrEmpty(SanitizedFile(st, c)), st.ok) == HeadersOk(OrEmpty(c), st.ok)
  {
    if c.Some? {
      var s := Sanitized(c.value, st.paths);
      if |path| == 1 {
        HarmlessTopSurvives(c.value, st.paths, path[0]);
      } else {
        HarmlessSurvives(c.value, st.paths, path[0], path[1]);
        hide Sanitized, IsSensitive, Loosens, NoMarksIn;
        if |path| == 2 {
          ReadTwo(s, path);
          ReadTwo(c.value, path);
        } else {
          ReadThree(s, path);
          ReadThree(c.value, path);
        }
      }
    }
  }

  /** What a load gives at a leaf, as far as the files say something there. */
  function FromFiles(u: UserFiles, p: ProjectFiles, path: seq<string>): Value {
    First(ReadFile(u.user, path),
    First(ReadFile(u.legacy, path),
    First(ReadFile(p.crewRoot, path),
          ReadFile(p.piCrew, path))))
  }

  predicate FileHeadersPass(st: Setting, u: UserFiles, p: ProjectFiles, path: seq<string>) {
    |path| == 3 && path[0] == "otlp" ==>
      && HeadersOk(OrEmpty(u.user), st.ok) && HeadersOk(OrEmpty(u.legacy), st.ok)
      && HeadersOk(OrEmpty(p.crewRoot), st.ok) && HeadersOk(OrEmpty(p.piCrew), st.ok)
  }

  /** Every leaf of which sanitizing takes nothing is loaded as the first one defined among the user's file,
      the legacy file, the crew-root file and the other project file; in a section with defaults, if
      there is one and the environment does not switch the key. */
  lemma FirstDefinedWins(st: Setting, u: UserFiles, p: ProjectFiles, path: seq<string>)
    requires TypedUser(u) && TypedProject(p) && IsLeafPath(path) && FileHeadersPass(st, u, p, path)
    requires IsHarmless(st, p.crewRoot, path) && IsHarmless(st, p.piCrew, path)
    ensures ConfigValues.Read(Layered(st, u, p), path) == FromFiles(u, p, path)
    ensures path[0] !in DEFAULTED ==> ConfigValues.Read(Load(st, u, p), path) == FromFiles(u, p, path)
    ensures path[0] in DEFAULTED && |path| == 2 && Switched(st, path[0], path[1]).None?
            && !FromFiles(u, p, path).Undefined? ==>
              ConfigValues.Read(Load(st, u, p), path) == FromFiles(u, p, path)
  {
    HarmlessReads(st, p.crewRoot, path);
    HarmlessReads(st, p.piCrew, path);
    hide SanitizedFile, IsHarmless, TypedUser, TypedProject, HeadersOk, ReadFile, Layered;
    FirstLeftWins(st, u, p, path);
    ReadOfLoad(st, Layered(st, u, p), path);
  }

  lemma ReadOfLoad(st: Setting, c: Config, path: seq<string>)
    requires path != []
    ensures path[0] !in DEFAULTED ==> ConfigValues.Read(WithDefaults(st, c), path) == ConfigValues.Read(c, path)
    ensures path[0] in DEFAULTED && |path| == 2 && Switched(st, path[0], path[1]).None?
            && !ConfigValues.Read(c, path).Undefined? ==>
              ConfigValues.Read(WithDefaults(st, c), path) == ConfigValues.Read(c, path)
  {
    if path[0] in DEFAULTED {
      if |path| == 2 {
        ReadTwo(c, path);
        ReadTwo(WithDefaults(st, c), path);
        DefaultsRead(st, c, path[0], path[1]);
      }
    } else {
      assert Get(WithDefaults(st, c), path[0]) == Get(c, path[0]);
    }
  }

  lemma EmptyHeaders(ok: HeaderCheck)
    ensures HeadersOk(map[], ok)
  {
  }

  lemma EmptyReads(path: seq<string>)
    ensures ConfigValues.Read(map[], path).Undefined?
    decreases |path|
  {
    if |path| > 1 {
      EmptyReads(path[1..]);
    }
  }
}
