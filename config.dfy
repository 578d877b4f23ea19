/**
 * The manifest access of config.py: nested key-path lookup and update over a
 * tree of string-keyed tables (`_get_config_value`, `_set_config_value`), and
 * the `Config` object that applies them to the project manifest and to the
 * plugin configuration.
 */
module Configs {
  import opened Results

  /** A manifest value: a TOML-like tree whose inner nodes are tables. */
  datatype Value =
    | Str(s: string)
    | Int(i: int)
    | Bool(b: bool)
    | Array(items: seq<Value>)
    | Table(entries: map<string, Value>)

  type Mapping = map<string, Value>

  // ---------------------------------------------------------------------------
  // Lookup

  /**
   * The value at a key path. A missing section or key gives None; a section
   * that is not a table has no `keys()`, so walking through it raises.
   */
  function Lookup(config: Mapping, keys: seq<string>): Result<Option<Value>>
    requires |keys| >= 1
    decreases |keys|
  {
    if |keys| == 1 then Ok(if keys[0] in config then Some(config[keys[0]]) else None)
    else if keys[0] !in config then Ok(None)
    else match config[keys[0]]
      case Table(t) => Lookup(t, keys[1..])
      case _ => Err(NotATable)
  }

  /**
   * `_get_config_value`: rebinds the current table and the remaining keys on
   * every section it descends into, then reads the last key.
   */
  method GetConfigValue(config: Mapping, keys: seq<string>) returns (r: Result<Option<Value>>)
    requires |keys| >= 1
    ensures r == Lookup(config, keys)
  {
    var current := config;
    var rest := keys;
    while |rest| > 1
      invariant |rest| >= 1
      invariant Lookup(config, keys) == Lookup(current, rest)
      decreases |rest|
    {
      var front := rest[0];
      if front in current {
        match current[front] {
          case Table(t) =>
            current := t;
          case _ =>
            // The next `keys()` call on the non-table value raises.
            return Err(NotATable);
        }
        rest := rest[1..];
      } else {
        return Ok(None);
      }
    }
    r := Ok(if rest[0] in current then Some(current[rest[0]]) else None);
  }

  /** A missing first section makes every path below it read as None. */
  lemma {:induction false} LookupMissing(config: Mapping, keys: seq<string>, j: nat)
    requires 1 <= j <= |keys|
    requires Lookup(config, keys[..j]) == Ok(None)
    ensures Lookup(config, keys) == Ok(None)
    decreases j
  {
    assert keys[..j][0] == keys[0];
    if j > 1 && keys[0] in config {
      assert keys[..j][1..] == keys[1..][..j - 1];
      match config[keys[0]] {
        case Table(t) => LookupMissing(t, keys[1..], j - 1);
      }
    }
  }

  /** A path through a table reads on in that table: lookups compose. */
  lemma {:induction false} LookupConcat(config: Mapping, a: seq<string>, b: seq<string>, t: Mapping)
    requires |a| >= 1 && |b| >= 1
    requires Lookup(config, a) == Ok(Some(Table(t)))
    ensures Lookup(config, a + b) == Lookup(t, b)
    decreases |a|
  {
    assert (a + b)[0] == a[0];
    if |a| > 1 {
      assert (a + b)[1..] == a[1..] + b;
      match config[a[0]] {
        case Table(u) => LookupConcat(u, a[1..], b, t);
      }
    } else {
      assert (a + b)[1..] == b;
    }
  }

  // ---------------------------------------------------------------------------
  // Update

  /** The table `_set_config_value` descends into under `key`: a fresh empty one when missing. */
  function Child(config: Mapping, key: string): Option<Mapping>
  {
    if key !in config then Some(map[])
    else match config[key]
      case Table(t) => Some(t)
      case _ => None
  }

  /** The manifest after `_set_config_value`, or the error it raises. */
  function Put(config: Mapping, keys: seq<string>, value: Value): Result<Mapping>
    requires |keys| >= 1
    decreases |keys|
  {
    if |keys| == 1 then Ok(config[keys[0] := value])
    else match Child(config, keys[0])
      case None => Err(NotATable)
      case Some(t) =>
        match Put(t, keys[1..], value)
        case Ok(t') => Ok(config[keys[0] := Table(t')])
        case Err(e) => Err(e)
  }

  lemma PutStep(config: Mapping, keys: seq<string>, i: nat, value: Value, t: Mapping)
    requires i + 1 < |keys|
    requires Child(config, keys[i]) == Some(t)
    ensures Put(config, keys[i..], value) ==
      match Put(t, keys[i + 1..], value)
      case Ok(t') => Ok(config[keys[i] := Table(t')])
      case Err(e) => Err(e)
  {
    assert keys[i..][0] == keys[i];
    assert keys[i..][1..] == keys[i + 1..];
  }

  lemma PutBlocked(config: Mapping, keys: seq<string>, i: nat, value: Value)
    requires i + 1 < |keys|
    requires Child(config, keys[i]).None?
    ensures Put(config, keys[i..], value) == Err(NotATable)
  {
    assert keys[i..][0] == keys[i];
  }

  lemma {:induction false} PutErrorPropagates(tables: seq<Mapping>, keys: seq<string>, i: nat, value: Value, e: Error)
    requires i < |tables| && i < |keys|
    requires forall j :: 0 <= j < i ==> Child(tables[j], keys[j]) == Some(tables[j + 1])
    requires Put(tables[i], keys[i..], value) == Err(e)
    ensures Put(tables[0], keys, value) == Err(e)
  {
    if i > 0 {
      PutStep(tables[i - 1], keys, i - 1, value, tables[i]);
      PutErrorPropagates(tables, keys, i - 1, value, e);
    } else {
      assert keys[0..] == keys;
    }
  }

  /**
   * `_set_config_value`. The source descends, adding an empty table for each
   * missing section, and assigns the value in the innermost table in place;
   * on values the walk collects the tables on the way down and rebuilds them
   * on the way up.
   */
  method SetConfigValue(config: Mapping, value: Value, keys: seq<string>) returns (r: Result<Mapping>)
    requires |keys| >= 1
    ensures r == Put(config, keys, value)
  {
    var tables: seq<Mapping> := [config];
    var i := 0;
    while i < |keys| - 1
      invariant 0 <= i <= |keys| - 1
      invariant |tables| == i + 1 && tables[0] == config
      invariant forall j :: 0 <= j < i ==> Child(tables[j], keys[j]) == Some(tables[j + 1])
    {
      var front := keys[i];
      var next: Mapping;
      if front !in tables[i] {
        next := map[];
      } else {
        match tables[i][front] {
          case Table(t) =>
            next := t;
          case _ =>
            PutBlocked(tables[i], keys, i, value);
            PutErrorPropagates(tables, keys, i, value, NotATable);
            return Err(NotATable);
        }
      }
      tables := tables + [next];
      i := i + 1;
    }
    assert keys[i..] == [keys[i]];
    var acc := tables[i][keys[i] := value];
    while i > 0
      invariant 0 <= i <= |keys| - 1
      invariant Put(tables[i], keys[i..], value) == Ok(acc)
    {
      PutStep(tables[i - 1], keys, i - 1, value, tables[i]);
      i := i - 1;
      acc := tables[i][keys[i] := Table(acc)];
    }
    assert keys[0..] == keys;
    r := Ok(acc);
  }

  /** Set then get: the value written is the value read back. */
  lemma {:induction false} GetAfterSet(config: Mapping, keys: seq<string>, value: Value)
    requires |keys| >= 1 && Put(config, keys, value).Ok?
    ensures Lookup(Put(config, keys, value).value, keys) == Ok(Some(value))
    decreases |keys|
  {
    if |keys| > 1 {
      var t := Child(config, keys[0]).value;
      GetAfterSet(t, keys[1..], value);
    }
  }

  /** Whether `_set_config_value` can reach the parent of the target: missing sections or tables all the way. */
  predicate ParentWritable(config: Mapping, keys: seq<string>)
    requires |keys| >= 1
  {
    |keys| == 1 ||
      (var parent := Lookup(config, keys[..|keys| - 1]);
       parent.Ok? && (parent.value.None? || parent.value.value.Table?))
  }

  lemma {:induction false} PutEmptySucceeds(keys: seq<string>, value: Value)
    requires |keys| >= 1
    ensures Put(map[], keys, value).Ok?
    decreases |keys|
  {
    if |keys| > 1 { PutEmptySucceeds(keys[1..], value); }
  }

  /** `_set_config_value` fails exactly when a section on the path holds something other than a table. */
  lemma {:induction false} PutSucceedsIff(config: Mapping, keys: seq<string>, value: Value)
    requires |keys| >= 1
    ensures Put(config, keys, value).Ok? <==> ParentWritable(config, keys)
    decreases |keys|
  {
    if |keys| > 1 {
      var p := keys[..|keys| - 1];
      assert p[0] == keys[0];
      if |keys| > 2 {
        assert p[1..] == keys[1..][..|keys[1..]| - 1];
        if keys[0] !in config {
          PutEmptySucceeds(keys[1..], value);
        } else if config[keys[0]].Table? {
          PutSucceedsIff(config[keys[0]].entries, keys[1..], value);
        }
      }
    }
  }

  /** Every section on the path is a table afterwards; one that was missing holds only the next key. */
  lemma {:induction false} SetCreatesTables(config: Mapping, keys: seq<string>, value: Value, j: nat)
    requires 1 <= j < |keys| && Put(config, keys, value).Ok?
    ensures var after := Lookup(Put(config, keys, value).value, keys[..j]);
      && after.Ok? && after.value.Some? && after.value.value.Table?
      && keys[j] in after.value.value.entries
      && (Lookup(config, keys[..j]) == Ok(None) ==> after.value.value.entries.Keys == {keys[j]})
    decreases j
  {
    var t := Child(config, keys[0]).value;
    var t' := Put(t, keys[1..], value).value;
    assert keys[..j][0] == keys[0];
    if j == 1 {
      assert keys[..1] == [keys[0]];
      GetAfterSetKeys(t, keys[1..], value);
      if keys[0] !in config {
        PutFreshKeys(keys[1..], value);
      }
    } else {
      assert keys[..j][1..] == keys[1..][..j - 1];
      SetCreatesTables(t, keys[1..], value, j - 1);
      if keys[0] !in config {
        assert Lookup(t, keys[1..][..j - 1]) == Ok(None);
      }
    }
  }

  lemma GetAfterSetKeys(config: Mapping, keys: seq<string>, value: Value)
    requires |keys| >= 1 && Put(config, keys, value).Ok?
    ensures keys[0] in Put(config, keys, value).value
  {
  }

  lemma PutFreshKeys(keys: seq<string>, value: Value)
    requires |keys| >= 1
    ensures Put(map[], keys, value).Ok? ==> Put(map[], keys, value).value.Keys == {keys[0]}
  {
  }

  /** A path that leaves the target path at position `d` reads the same before and after the update. */
  lemma {:induction false} OtherPathsUnchanged(config: Mapping, keys: seq<string>, value: Value,
                                               path: seq<string>, d: nat)
    requires |keys| >= 1 && Put(config, keys, value).Ok?
    requires d < |path| && d < |keys| && path[..d] == keys[..d] && path[d] != keys[d]
    ensures Lookup(Put(config, keys, value).value, path) == Lookup(config, path)
    decreases d
  {
    var after := Put(config, keys, value).value;
    if d == 0 {
      assert path[0] in after <==> path[0] in config;
      assert path[0] in config ==> after[path[0]] == config[path[0]];
    } else {
      assert path[0] == keys[0];
      var t := Child(config, keys[0]).value;
      var t' := Put(t, keys[1..], value).value;
      assert path[1..][..d - 1] == keys[1..][..d - 1];
      OtherPathsUnchanged(t, keys[1..], value, path[1..], d - 1);
      assert after[keys[0]] == Table(t');
      if keys[0] !in config {
        assert Lookup(map[], path[1..]) == Ok(None);
      }
    }
  }

  /** The key set of the table a lookup yields, empty when the lookup yields no table. */
  function TableKeys(r: Result<Option<Value>>): set<string>
  {
    if r.Ok? && r.value.Some? && r.value.value.Table? then r.value.value.entries.Keys else {}
  }

  /** Setting an existing path replaces only its leaf: every section on the way keeps its keys. */
  lemma {:induction false} SetExistingKeepsShape(config: Mapping, keys: seq<string>, value: Value, j: nat)
    requires |keys| >= 1 && Lookup(config, keys).Ok? && Lookup(config, keys).value.Some?
    requires 1 <= j < |keys|
    ensures Put(config, keys, value).Ok?
    ensures Put(config, keys, value).value.Keys == config.Keys
    ensures TableKeys(Lookup(Put(config, keys, value).value, keys[..j])) == TableKeys(Lookup(config, keys[..j]))
    decreases |keys|
  {
    var t := config[keys[0]].entries;
    assert keys[..j][0] == keys[0];
    if |keys| > 2 && j > 1 {
      assert keys[..j][1..] == keys[1..][..j - 1];
      SetExistingKeepsShape(t, keys[1..], value, j - 1);
    } else if |keys| > 2 {
      assert keys[..1] == [keys[0]];
      SetExistingKeepsShape(t, keys[1..], value, 1);
    } else {
      assert keys[..1] == [keys[0]];
    }
  }

  // ---------------------------------------------------------------------------
  // Falling back from the plugin configuration to the manifest

  /** Python truthiness of a looked-up value: None, "", 0, False, [] and {} are false. */
  predicate Truthy(v: Option<Value>)
  {
    match v
    case None => false
    case Some(Str(s)) => s != ""
    case Some(Int(i)) => i != 0
    case Some(Bool(b)) => b
    case Some(Array(items)) => items != []
    case Some(Table(t)) => t != map[]
  }

  /** `_get_config_value(config1, *keys) or _get_config_value(config2, *keys)`. */
  function ConfigOrPyproject(pluginConfig: Mapping, pyproject: Mapping, keys: seq<string>): Result<Option<Value>>
    requires |keys| >= 1
  {
    match Lookup(pluginConfig, keys)
    case Err(e) => Err(e)
    case Ok(first) => if Truthy(first) then Ok(first) else Lookup(pyproject, keys)
  }

  lemma ConfigOrPyprojectFallback(pluginConfig: Mapping, pyproject: Mapping, keys: seq<string>)
    requires |keys| >= 1
    ensures Lookup(pluginConfig, keys).Ok? && Truthy(Lookup(pluginConfig, keys).value) ==>
      ConfigOrPyproject(pluginConfig, pyproject, keys) == Lookup(pluginConfig, keys)
    ensures Lookup(pluginConfig, keys).Ok? && !Truthy(Lookup(pluginConfig, keys).value) ==>
      ConfigOrPyproject(pluginConfig, pyproject, keys) == Lookup(pyproject, keys)
    ensures Lookup(pluginConfig, keys).Err? ==> ConfigOrPyproject(pluginConfig, pyproject, keys).Err?
  {
  }

  // ---------------------------------------------------------------------------
  // The Config object

  /**
   * `Config`: the manifest as a table (the dictionary form of the project's
   * pyproject) and the plugin configuration of the project.
   */
  class Config {
    var pyproject: Mapping
    var projectConfig: Mapping

    constructor (pyproject: Mapping, projectConfig: Mapping)
      ensures this.pyproject == pyproject && this.projectConfig == projectConfig
    {
      this.pyproject := pyproject;
      this.projectConfig := projectConfig;
    }

    /** `get_pyproject_value`. */
    method GetPyprojectValue(keys: seq<string>) returns (r: Result<Option<Value>>)
      requires |keys| >= 1
      ensures r == Lookup(pyproject, keys)
    {
      r := GetConfigValue(pyproject, keys);
    }

    /** `get_config_value`. */
    method GetPluginConfigValue(keys: seq<string>) returns (r: Result<Option<Value>>)
      requires |keys| >= 1
      ensures r == Lookup(projectConfig, keys)
    {
      r := GetConfigValue(projectConfig, keys);
    }

    /** `get_config_or_pyproject_value`. */
    method GetConfigOrPyprojectValue(keys: seq<string>) returns (r: Result<Option<Value>>)
      requires |keys| >= 1
      ensures r == ConfigOrPyproject(projectConfig, pyproject, keys)
    {
      var first := GetConfigValue(projectConfig, keys);
      match first {
        case Err(e) => r := Err(e);
        case Ok(v) =>
          if Truthy(v) {
            r := first;
          } else {
            r := GetConfigValue(pyproject, keys);
          }
      }
    }

    /** `set_pyproject_value`: the manifest is updated in place; on failure it is left as it was. */
    method SetPyprojectValue(value: Value, keys: seq<string>) returns (r: Outcome)
      requires |keys| >= 1
      modifies this
      ensures projectConfig == old(projectConfig)
      ensures Put(old(pyproject), keys, value).Ok? ==>
        r == Pass && pyproject == Put(old(pyproject), keys, value).value
      ensures Put(old(pyproject), keys, value).Err? ==>
        r == Fail(Put(old(pyproject), keys, value).error) && pyproject == old(pyproject)
    {
      var updated := SetConfigValue(pyproject, value, keys);
      match updated {
        case Ok(m) =>
          pyproject := m;
          r := Pass;
        case Err(e) =>
          r := Fail(e);
      }
    }
  }
}
