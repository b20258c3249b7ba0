/**
 What a project file may say (src/config/sanitize-project-config.ts). The list of sensitive paths is
 given; like the source, a path is split at its first dot. Warnings are not modelled.
 */
module Sanitize {
  import opened ConfigValues
  import opened ConfigMerge
  import opened Text

  // ---------- sensitive paths ----------

  datatype Place = Place(section: string, key: string)

  /** A path without a dot belongs to the section with the empty name. */
  function Split(dotted: string): Place {
    var i := IndexOf(dotted, ".");
    if i == -1 then Place("", dotted) else Place(dotted[..i], dotted[i + 1..])
  }

  /** The section is what stands before the first dot, if there is one, and the key is the rest. */
  lemma SplitAtFirstDot(section: string, key: string)
    ensures '.' !in section ==> Split(section + "." + key) == Place(section, key)
    ensures '.' !in key ==> Split(key) == Place("", key)
  {
    if '.' !in section {
      var s, n := section + "." + key, |section|;
      assert s[n..n + 1] == "." && s[..n] == section && s[n + 1..] == key;
      forall i | 0 <= i < n ensures !Text.At(s, ".", i) {
        assert s[i..i + 1] == [section[i]] && section[i] != '.';
      }
      IndexIsFirst(s, ".", n);
    }
    if '.' !in key {
      forall i ensures !Text.At(key, ".", i) {
        assert 0 <= i < |key| ==> key[i..i + 1] == [key[i]] && key[i] != '.';
      }
    }
  }

  type Groups = map<string, seq<string>>

  function KeysIn(groups: Groups, section: string): seq<string> {
    if section in groups then groups[section] else []
  }

  function GroupsOf(paths: seq<string>): Groups {
    if paths == [] then map[]
    else
      var g, p := GroupsOf(paths[..|paths| - 1]), Split(paths[|paths| - 1]);
      g[p.section := KeysIn(g, p.section) + [p.key]]
  }

  lemma GroupsStep(paths: seq<string>, i: nat)
    requires i < |paths|
    ensures var g, p := GroupsOf(paths[..i]), Split(paths[i]);
            GroupsOf(paths[..i + 1]) == g[p.section := KeysIn(g, p.section) + [p.key]]
  {
    hide Split;
    assert paths[..i + 1][..i] == paths[..i];
  }

  method GroupPathsBySection(paths: seq<string>) returns (groups: Groups)
    ensures groups == GroupsOf(paths)
  {
    groups := map[];
    assert paths[..|paths|] == paths && GroupsOf(paths[..0]) == map[];
    hide GroupsOf, Split;
    for i := 0 to |paths|
      invariant groups == GroupsOf(paths[..i])
    {
      var p := Split(paths[i]);
      GroupsStep(paths, i);
      assert [] + [p.key] == [p.key];
      if p.section in groups {
        groups := groups[p.section := groups[p.section] + [p.key]];
      } else {
        groups := groups[p.section := [p.key]];
      }
    }
  }

  /** The path names this key of this section. */
  predicate IsSensitive(paths: seq<string>, p: Place) {
    exists i :: 0 <= i < |paths| && Split(paths[i]) == p
  }

  lemma SensitiveOneMore(paths: seq<string>, path: string, p: Place)
    ensures IsSensitive(paths + [path], p) <==> IsSensitive(paths, p) || Split(path) == p
  {
    hide Split;
    var longer := paths + [path];
    assert forall i :: 0 <= i < |paths| ==> longer[i] == paths[i];
    assert longer[|paths|] == path;
  }

  lemma GroupsOneMore(paths: seq<string>, path: string, p: Place)
    ensures p.key in KeysIn(GroupsOf(paths + [path]), p.section) <==>
            p.key in KeysIn(GroupsOf(paths), p.section) || Split(path) == p
  {
    hide Split;
    assert (paths + [path])[..|paths|] == paths;
  }

  lemma {:induction false} GroupsHoldPaths(paths: seq<string>, p: Place)
    ensures p.key in KeysIn(GroupsOf(paths), p.section) <==> IsSensitive(paths, p)
  {
    if paths == [] {
    } else {
      hide *;
      var before, last := paths[..|paths| - 1], paths[|paths| - 1];
      GroupsHoldPaths(before, p);
      assert paths == before + [last];
      GroupsOneMore(before, last, p);
      SensitiveOneMore(before, last, p);
    }
  }

  // ---------- dropping sensitive keys ----------

  const ALWAYS_COPIED: set<string> := {"runtime", "autonomous"}
  const ASSIGNED: set<string> := {"worktree", "otlp"}

  function Redact(section: string, fields: Config, keys: seq<string>): Config {
    if section in ASSIGNED then map k | k in fields :: if k in keys then Undefined else fields[k]
    else map k | k in fields && (k in keys ==> fields[k].Undefined?) :: fields[k]
  }

  predicate Changes(fields: Config, keys: seq<string>) {
    exists k <- keys :: !Get(fields, k).Undefined?
  }

  /** A section without a value in it becomes `undefined`. */
  function Collapse(fields: Config): Value {
    if Defined(fields) != map[] then Rec(fields) else Undefined
  }

  predicate IsRewritten(config: Config, groups: Groups, s: string) {
    && s != "" && s in groups && Get(config, s).Rec?
    && (Changes(Fields(config[s]), groups[s]) || s in ALWAYS_COPIED)
  }

  predicate IsDroppedTop(config: Config, groups: Groups, k: string) {
    k in KeysIn(groups, "") && !Get(config, k).Undefined?
  }

  /** The walk over the sensitive paths. A section is read from the original configuration. */
  function Unconditional(config: Config, groups: Groups): Config {
    map k | k in config && (IsRewritten(config, groups, k) || !IsDroppedTop(config, groups, k)) ::
      if IsRewritten(config, groups, k) then Collapse(Redact(k, Fields(config[k]), groups[k])) else config[k]
  }

  // ---------- a project may tighten a guard, not loosen it ----------

  const GUARDED: set<string> := {"runtime", "limits", "reliability", "broker"}

  function GuardKeys(section: string): set<string> {
    if section == "runtime" then {"requirePlanApproval", "completionMutationGuard", "effectivenessGuard"}
    else if section == "limits" then {"allowUnboundedConcurrency"}
    else if section == "reliability" then {"autoRecover", "scopeModels"}
    else if section == "broker" then {"enabled"}
    else {}
  }

  function LooseValue(section: string, key: string): Value {
    if section == "runtime" && key != "requirePlanApproval" then Atom(Word("off"))
    else Atom(Flag(section == "limits"))
  }

  predicate Loosens(section: string, key: string, v: Value) {
    key in GuardKeys(section) && v == LooseValue(section, key)
  }

  function Tighten(section: string, fields: Config): Config {
    map k | k in fields && !Loosens(section, k, fields[k]) :: fields[k]
  }

  function Guarded(section: string, v: Value): Value {
    if v.Rec? && Tighten(section, v.fields) != v.fields then Collapse(Tighten(section, v.fields)) else v
  }

  function Conditional(config: Config): Config {
    map k | k in config :: Guarded(k, config[k])
  }

  function Sanitized(config: Config, paths: seq<string>): Config {
    Conditional(Unconditional(config, GroupsOf(paths)))
  }

  // ---------- the program ----------

  method RedactSection(section: string, fields: Config, keys: seq<string>) returns (copy: Config, changed: bool)
    ensures copy == Redact(section, fields, keys) && changed == Changes(fields, keys)
  {
    copy, changed := fields, false;
    for i := 0 to |keys|
      invariant copy == Redact(section, fields, keys[..i]) && changed == Changes(fields, keys[..i])
    {
      var key := keys[i];
      assert keys[..i + 1] == keys[..i] + [key];
      if !Get(copy, key).Undefined? {
        if section in ASSIGNED {
          copy := copy[key := Undefined];
        } else {
          copy := copy - {key};
        }
        changed := true;
      }
    }
    assert keys[..|keys|] == keys;
  }

  method TightenSection(section: string, fields: Config) returns (copy: Config, changed: bool)
    ensures copy == Tighten(section, fields) && changed == (copy != fields)
  {
    copy, changed := fields, false;
    var keys := GuardKeys(section);
    while keys != {}
      invariant keys <= GuardKeys(section)
      invariant copy == map k | k in fields && (k in keys || !Loosens(section, k, fields[k])) :: fields[k]
      invariant changed == (copy != fields)
      decreases keys
    {
      var key :| key in keys;
      if Loosens(section, key, Get(copy, key)) {
        copy := copy - {key};
        changed := true;
      }
      keys := keys - {key};
    }
  }

  method DropTopLevel(config: Config, top: seq<string>) returns (sanitized: Config)
    ensures sanitized == map k | k in config && !(k in top && !config[k].Undefined?) :: config[k]
  {
    sanitized := config;
    for i := 0 to |top|
      invariant sanitized == map k | k in config && !(k in top[..i] && !config[k].Undefined?) :: config[k]
    {
      assert top[..i + 1] == top[..i] + [top[i]];
      if !Get(config, top[i]).Undefined? {
        sanitized := sanitized - {top[i]};
      }
    }
    assert top[..|top|] == top;
  }

  /** What the walk has made of the configuration while `left` are the sections still to visit. */
  function Walked(config: Config, groups: Groups, left: set<string>): Config {
    map k | k in config && ((k !in left && IsRewritten(config, groups, k)) || !IsDroppedTop(config, groups, k)) ::
      if k !in left && IsRewritten(config, groups, k) then Collapse(Redact(k, Fields(config[k]), groups[k]))
      else config[k]
  }

  lemma WalkedBefore(config: Config, groups: Groups)
    ensures Walked(config, groups, groups.Keys - {""}) ==
            map k | k in config && !(k in KeysIn(groups, "") && !config[k].Undefined?) :: config[k]
    ensures Walked(config, groups, {}) == Unconditional(config, groups)
  {
  }

  lemma WalkedOneMore(config: Config, groups: Groups, left: set<string>, s: string)
    requires s in left && s in groups && s != ""
    ensures Walked(config, groups, left - {s}) ==
            if IsRewritten(config, groups, s) then
              Walked(config, groups, left)[s := Collapse(Redact(s, Fields(config[s]), groups[s]))]
            else Walked(config, groups, left)
  {
  }

  method WalkSections(config: Config, groups: Groups, before: Config) returns (sanitized: Config)
    requires before == Walked(config, groups, groups.Keys - {""})
    ensures sanitized == Unconditional(config, groups)
  {
    sanitized := before;
    var sections := groups.Keys - {""};
    hide Walked, Redact, Collapse, Changes, Unconditional;
    while sections != {}
      invariant sections <= groups.Keys - {""} && sanitized == Walked(config, groups, sections)
      decreases sections
    {
      var section :| section in sections;
      WalkedOneMore(config, groups, sections, section);
      if Get(config, section).Rec? {
        var copy, changed := RedactSection(section, Fields(config[section]), groups[section]);
        if changed || section in ALWAYS_COPIED {
          sanitized := sanitized[section := Collapse(copy)];
        }
      }
      sections := sections - {section};
    }
    WalkedBefore(config, groups);
  }

  function Tightened(config: Config, left: set<string>): Config {
    map k | k in config :: if k in left then config[k] else Guarded(k, config[k])
  }

  lemma TightenedEnds(config: Config)
    ensures Tightened(config, GUARDED) == config && Tightened(config, {}) == Conditional(config)
  {
    forall k | k in config && k !in GUARDED ensures Guarded(k, config[k]) == config[k] {
      assert GuardKeys(k) == {};
      if config[k].Rec? {
        assert Tighten(k, config[k].fields) == config[k].fields;
      }
    }
  }

  lemma TightenedOneMore(config: Config, left: set<string>, s: string)
    requires s in left
    ensures Tightened(config, left - {s}) ==
            if Get(config, s).Rec? && Tighten(s, Fields(config[s])) != Fields(config[s]) then
              Tightened(config, left)[s := Collapse(Tighten(s, Fields(config[s])))]
            else Tightened(config, left)
    ensures Get(Tightened(config, left), s) == Get(config, s)
  {
  }

  method TightenSections(config: Config) returns (sanitized: Config)
    ensures sanitized == Conditional(config)
  {
    sanitized := config;
    var guarded := GUARDED;
    TightenedEnds(config);
    hide Tightened, Tighten, Conditional, Collapse;
    while guarded != {}
      invariant guarded <= GUARDED && sanitized == Tightened(config, guarded)
      decreases guarded
    {
      var section :| section in guarded;
      TightenedOneMore(config, guarded, section);
      if Get(sanitized, section).Rec? {
        var copy, changed := TightenSection(section, sanitized[section].fields);
        if changed {
          sanitized := sanitized[section := Collapse(copy)];
        }
      }
      guarded := guarded - {section};
    }
  }

  method SanitizeProjectConfig(config: Config, paths: seq<string>) returns (sanitized: Config)
    ensures sanitized == Sanitized(config, paths)
  {
    var groups := GroupPathsBySection(paths);
    sanitized := DropTopLevel(config, KeysIn(groups, ""));
    WalkedBefore(config, groups);
    sanitized := WalkSections(config, groups, sanitized);
    sanitized := TightenSections(sanitized);
  }
}
