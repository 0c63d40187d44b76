/**
 * How the extension builds the initialization options it hands to the ccls
 * server (src/extension.ts): `${workspaceFolder}` is substituted into the
 * configured values, each configured value is written under a dotted key
 * into a nested object that starts out as the defaults, and a configuration
 * change prompts for a reload when some top-level option comes out
 * differently.
 *
 * The VS Code configuration is a map from setting name to JSON value, a
 * missing name reading as `undefined`; the workspace root path is a
 * parameter. Options are JSON values; the nested objects the source
 * mutates in place are modelled as values.
 */
module Extension {
  import opened Wrappers

  /** A JavaScript value as far as configuration and JSON go. */
  datatype Json =
    | JUndefined
    | JNull
    | JBool(b: bool)
    | JNumber(n: int)
    | JString(s: string)
    | JArray(items: seq<Json>)
    | JObject(fields: map<string, Json>)

  /** `pat` occurs in `s` starting at index `j`. */
  predicate OccursAt(s: string, pat: string, j: int)
  {
    0 <= j && j + |pat| <= |s| && s[j..j + |pat|] == pat
  }

  /** The first index at or after `from` where `pat` occurs in `s`. */
  function IndexFrom(s: string, pat: string, from: nat): (r: Option<nat>)
    ensures r.Some? ==> from <= r.value && OccursAt(s, pat, r.value)
    ensures r.Some? ==> forall j :: from <= j < r.value ==> !OccursAt(s, pat, j)
    ensures r.None? ==> forall j :: from <= j ==> !OccursAt(s, pat, j)
    decreases |s| - from
  {
    if from + |pat| > |s| then None
    else if s[from..from + |pat|] == pat then Some(from)
    else IndexFrom(s, pat, from + 1)
  }

  /** `s.indexOf(pat)`: the first occurrence of `pat` in `s`, if any. */
  function IndexOf(s: string, pat: string): (r: Option<nat>)
    ensures r.Some? ==> OccursAt(s, pat, r.value) && forall j :: 0 <= j < r.value ==> !OccursAt(s, pat, j)
    ensures r.None? ==> forall j :: !OccursAt(s, pat, j)
  {
    IndexFrom(s, pat, 0)
  }

  /**
   * `s.replace(pat, rep)` with a string pattern: the first occurrence of
   * `pat` is replaced by `rep`, and the rest of `s` is copied as it is,
   * further occurrences included.
   */
  function ReplaceFirst(s: string, pat: string, rep: string): (r: string)
    ensures IndexOf(s, pat).None? ==> r == s
    ensures IndexOf(s, pat).Some? ==>
      var i := IndexOf(s, pat).value;
      |r| == |s| - |pat| + |rep| &&
      r[..i] == s[..i] && r[i..i + |rep|] == rep && r[i + |rep|..] == s[i + |pat|..]
  {
    match IndexOf(s, pat)
    case None => s
    case Some(i) => s[..i] + rep + s[i + |pat|..]
  }

  const WorkspaceFolder: string := "${workspaceFolder}"

  /**
   * `resolveVariables`: a string has its first `${workspaceFolder}`
   * replaced by the workspace root, an array is resolved element by
   * element, and any other value is returned as it is.
   */
  function ResolveVariables(value: Json, rootPath: string): (r: Json)
    ensures value.JString? ==> r == JString(ReplaceFirst(value.s, WorkspaceFolder, rootPath))
    ensures value.JArray? ==>
      r.JArray? && |r.items| == |value.items| &&
      forall i :: 0 <= i < |value.items| ==> r.items[i] == ResolveVariables(value.items[i], rootPath)
    ensures !value.JString? && !value.JArray? ==> r == value
  {
    match value
    case JString(s) => JString(ReplaceFirst(s, WorkspaceFolder, rootPath))
    case JArray(items) =>
      JArray(seq(|items|, i requires 0 <= i < |items| => ResolveVariables(items[i], rootPath)))
    case _ => value
  }

  /** A value without `${workspaceFolder}` anywhere in it. */
  predicate Resolved(value: Json)
  {
    match value
    case JString(s) => IndexOf(s, WorkspaceFolder).None?
    case JArray(items) => forall i :: 0 <= i < |items| ==> Resolved(items[i])
    case _ => true
  }

  /** A value that mentions no `${workspaceFolder}` comes back unchanged. */
  lemma {:induction false} ResolveVariablesResolved(value: Json, rootPath: string)
    requires Resolved(value)
    ensures ResolveVariables(value, rootPath) == value
  {
    match value
    case JArray(items) =>
      forall i | 0 <= i < |items|
        ensures ResolveVariables(items[i], rootPath) == items[i]
      {
        ResolveVariablesResolved(items[i], rootPath);
      }
      assert ResolveVariables(value, rootPath).items == items;
    case _ =>
  }

  /** `s.split('.')`: the pieces between the dots, at least one. */
  function Split(s: string): (parts: seq<string>)
    ensures |parts| >= 1
    ensures forall i :: 0 <= i < |parts| ==> '.' !in parts[i]
    ensures Join(parts) == s
    decreases |s|
  {
    match IndexOf(s, ".")
    case None =>
      NoDotBefore(s, |s|);
      [s]
    case Some(i) =>
      NoDotBefore(s, i);
      assert s == s[..i] + "." + s[i + 1..] by {
        assert s[i..i + 1] == ".";
      }
      [s[..i]] + Split(s[i + 1..])
  }

  /** Where `"."` does not occur, there is no dot character. */
  lemma NoDotBefore(s: string, n: nat)
    requires n <= |s| && forall j :: 0 <= j < n ==> !OccursAt(s, ".", j)
    ensures '.' !in s[..n]
  {
    forall j | 0 <= j < n
      ensures s[j] != '.'
    {
      assert !OccursAt(s, ".", j);
      assert s[j..j + 1] == [s[j]];
    }
  }

  /** A key without dots is one piece. */
  lemma SplitNoDot(s: string)
    requires '.' !in s
    ensures Split(s) == [s]
  {
  }

  /** The first piece of a dotted key is a prefix of it. */
  lemma SplitFirst(s: string)
    ensures Split(s)[0] <= s
  {
    var parts := Split(s);
    if |parts| > 1 {
      assert Join(parts) == parts[0] + "." + Join(parts[1..]);
    }
  }

  /** The pieces put back together with dots in between. */
  function Join(parts: seq<string>): string
    requires |parts| >= 1
  {
    if |parts| == 1 then parts[0] else parts[0] + "." + Join(parts[1..])
  }

  /** The value at `path` inside `j`, following nested objects. */
  function LookupPath(j: Json, path: seq<string>): Option<Json>
  {
    if path == [] then Some(j)
    else match j
      case JObject(m) => if path[0] in m then LookupPath(m[path[0]], path[1..]) else None
      case _ => None
  }

  /**
   * The walk of `getInitializationOptions` for one dotted key: every
   * intermediate key that is missing gets a fresh empty object, one that
   * holds an object is descended into, and the last key receives `value`.
   * An intermediate key holding anything other than an object makes the
   * walk fail (in the source, a property write on a non-object).
   */
  function SetPath(obj: map<string, Json>, path: seq<string>, value: Json): (r: Option<map<string, Json>>)
    requires |path| >= 1
    ensures r.Some? ==> obj.Keys + {path[0]} == r.value.Keys
    ensures r.Some? ==> forall k :: k in obj && k != path[0] ==> r.value[k] == obj[k]
    decreases |path|
  {
    var key := path[0];
    if |path| == 1 then Some(obj[key := value])
    else if key !in obj then
      match SetPath(map[], path[1..], value)
      case None => None
      case Some(inner) => Some(obj[key := JObject(inner)])
    else match obj[key]
      case JObject(m) =>
        (match SetPath(m, path[1..], value)
         case None => None
         case Some(inner) => Some(obj[key := JObject(inner)]))
      case _ => None
  }

  /** Every proper prefix of `path` leads nowhere or to an object. */
  predicate Walkable(obj: map<string, Json>, path: seq<string>)
    requires |path| >= 1
  {
    forall k :: 1 <= k < |path| ==>
      var at := LookupPath(JObject(obj), path[..k]);
      at.None? || at.value.JObject?
  }

  /** The walk fails exactly when it meets a non-object on the way down. */
  lemma {:induction false} SetPathSucceeds(obj: map<string, Json>, path: seq<string>, value: Json)
    requires |path| >= 1
    ensures SetPath(obj, path, value).Some? <==> Walkable(obj, path)
    decreases |path|
  {
    if |path| > 1 {
      var key := path[0];
      var rest := path[1..];
      assert forall k :: 1 <= k < |path| ==> path[..k][0] == key && path[..k][1..] == rest[..k - 1];
      if key !in obj {
        WalkableEmpty(rest);
        SetPathSucceeds(map[], rest, value);
        assert Walkable(obj, path) by {
          forall k | 1 <= k < |path|
            ensures LookupPath(JObject(obj), path[..k]).None?
          {
            assert path[..k][0] == key;
          }
        }
      } else if obj[key].JObject? {
        var m := obj[key].fields;
        SetPathSucceeds(m, rest, value);
        assert LookupPath(JObject(obj), path[..1]) == Some(obj[key]) by {
          assert path[..1][1..] == [];
        }
        forall k | 2 <= k < |path|
          ensures LookupPath(JObject(obj), path[..k]) == LookupPath(JObject(m), rest[..k - 1])
        {
          assert path[..k][1..] == rest[..k - 1];
        }
        assert Walkable(obj, path) <==> Walkable(m, rest) by {
          if Walkable(m, rest) {
            forall k | 1 <= k < |path|
              ensures var at := LookupPath(JObject(obj), path[..k]); at.None? || at.value.JObject?
            {
              if k >= 2 {
                assert LookupPath(JObject(obj), path[..k]) == LookupPath(JObject(m), rest[..k - 1]);
              }
            }
          }
          if Walkable(obj, path) {
            forall k | 1 <= k < |rest|
              ensures var at := LookupPath(JObject(m), rest[..k]); at.None? || at.value.JObject?
            {
              assert LookupPath(JObject(obj), path[..k + 1]) == LookupPath(JObject(m), rest[..k]);
            }
          }
        }
      } else {
        assert LookupPath(JObject(obj), path[..1]) == Some(obj[key]) by {
          assert path[..1][1..] == [];
        }
      }
    }
  }

  /** In an empty object every path is walkable. */
  lemma WalkableEmpty(path: seq<string>)
    requires |path| >= 1
    ensures Walkable(map[], path)
  {
  }

  /** After the walk, looking the dotted key up again gives the value written. */
  lemma {:induction false} SetThenLookup(obj: map<string, Json>, path: seq<string>, value: Json)
    requires |path| >= 1 && SetPath(obj, path, value).Some?
    ensures LookupPath(JObject(SetPath(obj, path, value).value), path) == Some(value)
    decreases |path|
  {
    if |path| > 1 {
      var key := path[0];
      if key !in obj {
        SetThenLookup(map[], path[1..], value);
      } else {
        SetThenLookup(obj[key].fields, path[1..], value);
      }
    }
  }

  /** `p` and `q` part ways at some key: neither lies inside the other. */
  predicate Diverge(p: seq<string>, q: seq<string>)
  {
    exists k :: 0 <= k < |p| && k < |q| && p[k] != q[k]
  }

  /**
   * Intermediate objects are reused, not replaced: a path that parts ways
   * with the written one reads the same before and after.
   */
  lemma {:induction false} SetPathKeepsOthers(obj: map<string, Json>, path: seq<string>, value: Json, other: seq<string>)
    requires |path| >= 1 && SetPath(obj, path, value).Some? && Diverge(path, other)
    ensures LookupPath(JObject(SetPath(obj, path, value).value), other) == LookupPath(JObject(obj), other)
    decreases |path|
  {
    var r := SetPath(obj, path, value).value;
    var key := path[0];
    if other[0] != key {
    } else {
      var k :| 0 <= k < |path| && k < |other| && path[k] != other[k];
      assert 1 <= k;
      assert Diverge(path[1..], other[1..]) by {
        assert path[1..][k - 1] != other[1..][k - 1];
      }
      if key !in obj {
        SetPathKeepsOthers(map[], path[1..], value, other[1..]);
        assert LookupPath(JObject(map[]), other[1..]) == None;
      } else {
        SetPathKeepsOthers(obj[key].fields, path[1..], value, other[1..]);
      }
    }
  }

  /**
   * `highlight.lsRanges`, one of the defaults, survives when the
   * `highlight.blacklist` setting is written into the same object.
   */
  lemma BlacklistKeepsLsRanges(obj: map<string, Json>, value: Json)
    requires SetPath(obj, ["highlight", "blacklist"], value).Some?
    ensures LookupPath(JObject(SetPath(obj, ["highlight", "blacklist"], value).value), ["highlight", "lsRanges"])
      == LookupPath(JObject(obj), ["highlight", "lsRanges"])
  {
  }

  /** One line of the mapping table: the key in the options, and the setting it comes from. */
  datatype Mapping = Mapping(option: string, setting: string)

  /** `configMapping`, in order; the settings are read under the `ccls.` section. */
  const ConfigMapping: seq<Mapping> := [
    Mapping("cacheDirectory", "cacheDirectory"),
    Mapping("compilationDatabaseCommand", "misc.compilationDatabaseCommand"),
    Mapping("compilationDatabaseDirectory", "misc.compilationDatabaseDirectory"),
    Mapping("clang.excludeArgs", "clang.excludeArgs"),
    Mapping("clang.extraArgs", "clang.extraArgs"),
    Mapping("clang.pathMappings", "clang.pathMappings"),
    Mapping("clang.resourceDir", "clang.resourceDir"),
    Mapping("codeLens.localVariables", "codeLens.localVariables"),
    Mapping("completion.caseSensitivity", "completion.caseSensitivity"),
    Mapping("completion.detailedLabel", "completion.detailedLabel"),
    Mapping("completion.duplicateOptional", "completion.duplicateOptional"),
    Mapping("completion.filterAndSort", "completion.filterAndSort"),
    Mapping("completion.include.maxPathSize", "completion.include.maxPathSize"),
    Mapping("completion.include.suffixWhitelist", "completion.include.suffixWhitelist"),
    Mapping("completion.include.whitelist", "completion.include.whitelist"),
    Mapping("completion.include.blacklist", "completion.include.blacklist"),
    Mapping("client.snippetSupport", "completion.enableSnippetInsertion"),
    Mapping("diagnostics.blacklist", "diagnostics.blacklist"),
    Mapping("diagnostics.whitelist", "diagnostics.whitelist"),
    Mapping("diagnostics.onChange", "diagnostics.onChange"),
    Mapping("diagnostics.onOpen", "diagnostics.onOpen"),
    Mapping("diagnostics.onSave", "diagnostics.onSave"),
    Mapping("diagnostics.spellChecking", "diagnostics.spellChecking"),
    Mapping("highlight.blacklist", "highlight.blacklist"),
    Mapping("highlight.whitelist", "highlight.whitelist"),
    Mapping("largeFileSize", "highlight.largeFileSize"),
    Mapping("index.whitelist", "index.whitelist"),
    Mapping("index.blacklist", "index.blacklist"),
    Mapping("index.initialWhitelist", "index.initialWhitelist"),
    Mapping("index.initialBlacklist", "index.initialBlacklist"),
    Mapping("index.multiVersion", "index.multiVersion"),
    Mapping("index.onChange", "index.onChange"),
    Mapping("index.threads", "index.threads"),
    Mapping("workspaceSymbol.maxNum", "workspaceSymbol.maxNum"),
    Mapping("workspaceSymbol.caseSensitivity", "workspaceSymbol.caseSensitivity")
  ]

  /**
   * The options before any setting is applied. The highlight blacklist is
   * left undefined when some semantic highlighting category is enabled and
   * otherwise turns highlighting off for every file.
   */
  function Defaults(hasAnySemanticHighlighting: bool): (d: map<string, Json>)
    ensures d.Keys == {"cacheDirectory", "highlight", "workspaceSymbol"}
  {
    map[
      "cacheDirectory" := JString(".ccls-cache"),
      "highlight" := JObject(map[
        "lsRanges" := JBool(true),
        "blacklist" := if hasAnySemanticHighlighting then JUndefined else JArray([JString(".*")])]),
      "workspaceSymbol" := JObject(map["sort" := JBool(false)])]
  }

  /** `config.get(setting)`: a setting that is not there reads as `undefined`. */
  function Get(config: map<string, Json>, setting: string): Json
  {
    if setting in config then config[setting] else JUndefined
  }

  /** `value != null`: neither `null` nor `undefined`. */
  predicate Present(value: Json)
  {
    !value.JNull? && !value.JUndefined?
  }

  /** One step of the loop: a present setting is resolved and written under its dotted key. */
  function ApplyMapping(opts: map<string, Json>, config: map<string, Json>, rootPath: string, m: Mapping)
    : (r: Option<map<string, Json>>)
    ensures !Present(Get(config, m.setting)) ==> r == Some(opts)
    ensures Present(Get(config, m.setting)) && r.Some? ==>
      LookupPath(JObject(r.value), Split(m.option)) == Some(ResolveVariables(Get(config, m.setting), rootPath))
  {
    var value := Get(config, m.setting);
    if !Present(value) then Some(opts)
    else
      var r := SetPath(opts, Split(m.option), ResolveVariables(value, rootPath));
      if r.None? then r
      else SetThenLookup(opts, Split(m.option), ResolveVariables(value, rootPath)); r
  }

  /** The options after the lines of `table`, in order; `None` once a write has failed. */
  function ApplyAll(opts: map<string, Json>, config: map<string, Json>, rootPath: string, table: seq<Mapping>)
    : Option<map<string, Json>>
  {
    if table == [] then Some(opts)
    else match ApplyAll(opts, config, rootPath, table[..|table| - 1])
      case None => None
      case Some(o) => ApplyMapping(o, config, rootPath, table[|table| - 1])
  }

  /** With none of the table's settings present, the options are exactly the starting ones. */
  lemma {:induction false} NothingConfigured(opts: map<string, Json>, config: map<string, Json>, rootPath: string, table: seq<Mapping>)
    requires forall i :: 0 <= i < |table| ==> !Present(Get(config, table[i].setting))
    ensures ApplyAll(opts, config, rootPath, table) == Some(opts)
  {
    if table != [] {
      NothingConfigured(opts, config, rootPath, table[..|table| - 1]);
      assert !Present(Get(config, table[|table| - 1].setting));
    }
  }

  /** Applying two tables one after the other is applying their concatenation. */
  lemma {:induction false} ApplyAllAppend(opts: map<string, Json>, config: map<string, Json>, rootPath: string,
                                          a: seq<Mapping>, b: seq<Mapping>)
    ensures ApplyAll(opts, config, rootPath, a + b) ==
      match ApplyAll(opts, config, rootPath, a)
      case None => None
      case Some(o) => ApplyAll(o, config, rootPath, b)
    decreases |b|
  {
    if b == [] {
      assert a + b == a;
    } else {
      ApplyAllAppend(opts, config, rootPath, a, b[..|b| - 1]);
      assert (a + b)[..|a + b| - 1] == a + b[..|b| - 1];
    }
  }

  /** A top-level option that no line of the table writes under keeps its value. */
  lemma {:induction false} ApplyAllKeeps(opts: map<string, Json>, config: map<string, Json>, rootPath: string,
                                         table: seq<Mapping>, key: string)
    requires key in opts
    requires forall i :: 0 <= i < |table| ==> !(key <= table[i].option)
    ensures ApplyAll(opts, config, rootPath, table).Some? ==>
      var r := ApplyAll(opts, config, rootPath, table).value; key in r && r[key] == opts[key]
  {
    if table != [] {
      ApplyAllKeeps(opts, config, rootPath, table[..|table| - 1], key);
      var o := table[|table| - 1].option;
      assert !(key <= o);
      SplitFirst(o);
    }
  }

  /**
   * Of the mapping table only its first line writes under the top-level
   * `cacheDirectory`: no other option key starts with it.
   */
  lemma CacheDirectoryWrittenOnce()
    ensures ConfigMapping[0] == Mapping("cacheDirectory", "cacheDirectory")
    ensures forall i :: 1 <= i < |ConfigMapping| ==> !("cacheDirectory" <= ConfigMapping[i].option)
  {
    forall i | 1 <= i < |ConfigMapping|
      ensures !("cacheDirectory" <= ConfigMapping[i].option)
    {
      if i < 12 {
        LinesOneToElevenNotUnderCacheDirectory(i);
      } else if i < 24 {
        LinesTwelveToTwentyThreeNotUnderCacheDirectory(i);
      } else {
        LinesTwentyFourOnNotUnderCacheDirectory(i);
      }
    }
  }

  /** The option key starts differently from `ca`, so not with `cacheDirectory`. */
  predicate NotUnderCacheDirectory(o: string)
  {
    |o| >= 2 && (o[0] != 'c' || o[1] != 'a')
  }

  /** Lines 1 to 11 of the mapping table (checked in three parts to keep each proof small). */
  lemma LinesOneToElevenNotUnderCacheDirectory(i: int)
    requires 1 <= i < 12
    ensures NotUnderCacheDirectory(ConfigMapping[i].option)
  {
  }

  /** Lines 12 to 23 of the mapping table. */
  lemma LinesTwelveToTwentyThreeNotUnderCacheDirectory(i: int)
    requires 12 <= i < 24
    ensures NotUnderCacheDirectory(ConfigMapping[i].option)
  {
  }

  /** Lines 24 to 34 of the mapping table. */
  lemma LinesTwentyFourOnNotUnderCacheDirectory(i: int)
    requires 24 <= i < 35
    ensures NotUnderCacheDirectory(ConfigMapping[i].option)
  {
  }

  /**
   * When the first line of a table is the only one writing under the
   * top-level `key`, that option ends up holding the first line's
   * resolved setting.
   */
  lemma FirstLineOnly(opts: map<string, Json>, config: map<string, Json>, rootPath: string,
                      table: seq<Mapping>, key: string)
    requires |table| >= 1 && table[0].option == key && '.' !in key && key in opts
    requires Present(Get(config, table[0].setting))
    requires forall i :: 1 <= i < |table| ==> !(key <= table[i].option)
    requires ApplyAll(opts, config, rootPath, table).Some?
    ensures key in ApplyAll(opts, config, rootPath, table).value
    ensures ApplyAll(opts, config, rootPath, table).value[key] == ResolveVariables(Get(config, table[0].setting), rootPath)
  {
    SplitNoDot(key);
    var first := ApplyAll(opts, config, rootPath, [table[0]]);
    assert [table[0]][..0] == [];
    assert ApplyAll(opts, config, rootPath, [table[0]][..0]) == Some(opts);
    assert first == ApplyMapping(opts, config, rootPath, table[0]);
    assert SetPath(opts, [key], ResolveVariables(Get(config, table[0].setting), rootPath))
      == Some(opts[key := ResolveVariables(Get(config, table[0].setting), rootPath)]);
    assert first == Some(opts[key := ResolveVariables(Get(config, table[0].setting), rootPath)]);
    assert [table[0]] + table[1..] == table;
    ApplyAllAppend(opts, config, rootPath, [table[0]], table[1..]);
    ApplyAllKeeps(first.value, config, rootPath, table[1..], key);
  }

  /**
   * A change of the `cacheDirectory` setting that survives substitution
   * changes the top-level `cacheDirectory` option, so the reload prompt
   * is due, whatever the other settings are.
   */
  lemma CacheDirectoryChangePrompts(h: bool, prevConfig: map<string, Json>, nextConfig: map<string, Json>,
                                    rootPath: string, prevDir: string, nextDir: string)
    requires Get(prevConfig, "cacheDirectory") == JString(prevDir)
    requires Get(nextConfig, "cacheDirectory") == JString(nextDir)
    requires ResolveVariables(JString(prevDir), rootPath) != ResolveVariables(JString(nextDir), rootPath)
    requires ApplyAll(Defaults(h), prevConfig, rootPath, ConfigMapping).Some?
    requires ApplyAll(Defaults(h), nextConfig, rootPath, ConfigMapping).Some?
    ensures Changed(ApplyAll(Defaults(h), prevConfig, rootPath, ConfigMapping).value,
                    ApplyAll(Defaults(h), nextConfig, rootPath, ConfigMapping).value, "cacheDirectory")
  {
    CacheDirectoryWrittenOnce();
    FirstLineOnly(Defaults(h), prevConfig, rootPath, ConfigMapping, "cacheDirectory");
    FirstLineOnly(Defaults(h), nextConfig, rootPath, ConfigMapping, "cacheDirectory");
  }

  /**
   * `getInitializationOptions`: the defaults, with every present setting of
   * the mapping table written under its dotted key, table order; `None`
   * when a write fails.
   */
  method GetInitializationOptions(config: map<string, Json>, hasAnySemanticHighlighting: bool, rootPath: string)
    returns (r: Option<map<string, Json>>)
    ensures r == ApplyAll(Defaults(hasAnySemanticHighlighting), config, rootPath, ConfigMapping)
  {
    r := ApplySettings(Defaults(hasAnySemanticHighlighting), config, rootPath, ConfigMapping);
  }

  /** The loop over the mapping table, starting from `start`. */
  method ApplySettings(start: map<string, Json>, config: map<string, Json>, rootPath: string, table: seq<Mapping>)
    returns (r: Option<map<string, Json>>)
    ensures r == ApplyAll(start, config, rootPath, table)
  {
    var opts := start;
    var i := 0;
    while i < |table|
      invariant 0 <= i <= |table|
      invariant ApplyAll(start, config, rootPath, table[..i]) == Some(opts)
    {
      var m := table[i];
      var value := Get(config, m.setting);
      assert table[..i + 1][..i] == table[..i];
      if Present(value) {
        var written := SetPath(opts, Split(m.option), ResolveVariables(value, rootPath));
        if written.None? {
          NoneStays(start, config, rootPath, table, i + 1);
          return None;
        }
        opts := written.value;
      }
      i := i + 1;
    }
    assert table[..i] == table;
    r := Some(opts);
  }

  /** Once a write has failed, the rest of the table does not matter. */
  lemma {:induction false} NoneStays(opts: map<string, Json>, config: map<string, Json>, rootPath: string, table: seq<Mapping>, n: nat)
    requires n <= |table| && ApplyAll(opts, config, rootPath, table[..n]).None?
    ensures ApplyAll(opts, config, rootPath, table).None?
    decreases |table| - n
  {
    if n < |table| {
      assert table[..n + 1][..n] == table[..n];
      NoneStays(opts, config, rootPath, table, n + 1);
    } else {
      assert table[..n] == table;
    }
  }

  /** With no `ccls` settings at all, the options are the defaults. */
  lemma NoSettingsGivesDefaults(hasAnySemanticHighlighting: bool, rootPath: string)
    ensures ApplyAll(Defaults(hasAnySemanticHighlighting), map[], rootPath, ConfigMapping)
      == Some(Defaults(hasAnySemanticHighlighting))
  {
    NothingConfigured(Defaults(hasAnySemanticHighlighting), map[], rootPath, ConfigMapping);
  }

  /**
   * What `JSON.stringify` keeps of a value: object properties that are
   * `undefined` are dropped and `undefined` array elements become `null`.
   */
  function Serialized(j: Json): (r: Json)
    ensures r.JUndefined? <==> j.JUndefined?
    ensures j.JObject? ==> (
      r.JObject? &&
      r.fields.Keys == (set k | k in j.fields && !j.fields[k].JUndefined?) &&
      forall k :: k in r.fields ==> r.fields[k] == Serialized(j.fields[k]))
    ensures j.JArray? ==> (
      r.JArray? && |r.items| == |j.items| &&
      forall i :: 0 <= i < |j.items| ==>
        r.items[i] == if j.items[i].JUndefined? then JNull else Serialized(j.items[i]))
    ensures !j.JObject? && !j.JArray? ==> r == j
  {
    match j
    case JArray(items) =>
      JArray(seq(|items|, i requires 0 <= i < |items| =>
        if items[i].JUndefined? then JNull else Serialized(items[i])))
    case JObject(m) => JObject(map k | k in m && !m[k].JUndefined? :: Serialized(m[k]))
    case _ => j
  }

  /** No `undefined` is left anywhere below the top of `j`. */
  predicate NoUndefinedInside(j: Json)
  {
    match j
    case JArray(items) => forall i :: 0 <= i < |items| ==> !items[i].JUndefined? && NoUndefinedInside(items[i])
    case JObject(m) => forall k :: k in m ==> !m[k].JUndefined? && NoUndefinedInside(m[k])
    case _ => true
  }

  /**
   * What `JSON.stringify` keeps has no `undefined` inside it, and
   * serialising it again changes nothing.
   */
  lemma {:induction false} SerializedClean(j: Json)
    ensures NoUndefinedInside(Serialized(j))
    ensures Serialized(Serialized(j)) == Serialized(j)
  {
    var r := Serialized(j);
    match j
    case JArray(items) =>
      forall i | 0 <= i < |items|
        ensures !r.items[i].JUndefined? && NoUndefinedInside(r.items[i])
        ensures Serialized(r.items[i]) == r.items[i]
      {
        if !items[i].JUndefined? {
          SerializedClean(items[i]);
        }
      }
      assert Serialized(r).items == r.items;
    case JObject(m) =>
      forall k | k in r.fields
        ensures !r.fields[k].JUndefined? && NoUndefinedInside(r.fields[k])
        ensures Serialized(r.fields[k]) == r.fields[k]
      {
        SerializedClean(m[k]);
      }
      assert Serialized(r).fields == r.fields;
    case _ =>
  }

  /** The top-level option `key` of `next` serialises differently from the one in `prev`. */
  predicate Changed(prev: map<string, Json>, next: map<string, Json>, key: string)
  {
    key in next && Serialized(Get(prev, key)) != Serialized(next[key])
  }

  /**
   * The `onDidChangeConfiguration` handler: the new options' top-level keys
   * are compared with the options the server was started with, and the
   * first key found to differ is the one named in the single reload prompt.
   * No prompt when no key differs.
   */
  method ChangedKey(prev: map<string, Json>, next: map<string, Json>) returns (prompt: Option<string>)
    ensures prompt.Some? <==> exists key :: Changed(prev, next, key)
    ensures prompt.Some? ==> Changed(prev, next, prompt.value)
  {
    var pending := next.Keys;
    while pending != {}
      invariant pending <= next.Keys
      invariant forall key :: key in next && key !in pending ==> !Changed(prev, next, key)
      decreases |pending|
    {
      var key :| key in pending;
      if Serialized(Get(prev, key)) != Serialized(next[key]) {
        assert Changed(prev, next, key);
        return Some(key);
      }
      pending := pending - {key};
    }
    return None;
  }

}
