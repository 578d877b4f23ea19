/**
 * The static version source of source.py: the version written literally at
 * `project.version` of the manifest, read through the parser and written
 * through the formatter.
 */
module StaticSource {
  import opened Results
  import opened Versions
  import opened Formatter
  import opened Configs
  import Dynamic

  const VersionKey: seq<string> := ["project", "version"]

  /** `is_enabled`: whether `project.version` is present. */
  function StaticEnabled(pyproject: Mapping): Result<bool>
  {
    match Lookup(pyproject, VersionKey)
    case Err(e) => Err(e)
    case Ok(v) => Ok(v.Some?)
  }

  /** The getter: parses whatever is at `project.version`; anything but a string cannot be parsed. */
  function StaticVersion(pyproject: Mapping, parse: string -> Option<Version>): Result<Version>
  {
    match Lookup(pyproject, VersionKey)
    case Err(e) => Err(e)
    case Ok(Some(Str(s))) => (if parse(s).Some? then Ok(parse(s).value) else Err(VersionParse))
    case Ok(_) => Err(NotAString)
  }

  /** The manifest after the setter stores `v`, or the error it raises. */
  function StoreVersion(pyproject: Mapping, v: Version): Result<Mapping>
  {
    Put(pyproject, VersionKey, Str(Format(v)))
  }

  /** The setter works unless `project` holds something other than a table. */
  lemma StoreSucceedsIff(pyproject: Mapping, v: Version)
    ensures StoreVersion(pyproject, v).Ok? <==>
      "project" !in pyproject || pyproject["project"].Table?
  {
    PutSucceedsIff(pyproject, VersionKey, Str(Format(v)));
    assert VersionKey[..1] == ["project"];
  }

  /**
   * Set then get: the stored text is the formatted version, the source is
   * enabled afterwards, and reading gives back what the parser makes of it.
   */
  lemma StoreThenRead(pyproject: Mapping, v: Version, parse: string -> Option<Version>)
    requires StoreVersion(pyproject, v).Ok?
    ensures Lookup(StoreVersion(pyproject, v).value, VersionKey) == Ok(Some(Str(Format(v))))
    ensures StaticEnabled(StoreVersion(pyproject, v).value) == Ok(true)
    ensures parse(Format(v)) == Some(v) ==> StaticVersion(StoreVersion(pyproject, v).value, parse) == Ok(v)
  {
    GetAfterSet(pyproject, VersionKey, Str(Format(v)));
  }

  /**
   * The setter changes no other manifest path: a path that leaves
   * `project.version` anywhere reads the same, so in particular the
   * dynamic-source gate and the version-file descriptor are untouched.
   */
  lemma StoreKeepsOtherPaths(pyproject: Mapping, v: Version, path: seq<string>, d: nat)
    requires StoreVersion(pyproject, v).Ok?
    requires d < |path| && d < 2 && path[..d] == VersionKey[..d] && path[d] != VersionKey[d]
    ensures Lookup(StoreVersion(pyproject, v).value, path) == Lookup(pyproject, path)
  {
    OtherPathsUnchanged(pyproject, VersionKey, Str(Format(v)), path, d);
  }

  lemma StoreKeepsDynamicGate(pyproject: Mapping, v: Version, root: string)
    requires StoreVersion(pyproject, v).Ok?
    ensures Dynamic.IsDynamicEnabled(StoreVersion(pyproject, v).value) == Dynamic.IsDynamicEnabled(pyproject)
    ensures Dynamic.FindDynamicConfig(StoreVersion(pyproject, v).value, root) == Dynamic.FindDynamicConfig(pyproject, root)
  {
    StoreKeepsOtherPaths(pyproject, v, Dynamic.DynamicKey, 1);
    StoreKeepsOtherPaths(pyproject, v, Dynamic.BuildBackendKey, 0);
    StoreKeepsOtherPaths(pyproject, v, Dynamic.VersionSourceKey, 0);
    StoreKeepsOtherPaths(pyproject, v, Dynamic.VersionPathKey, 0);
  }

  /** `StaticPep621VersionSource` over the shared configuration, with `Version.from_string` as parser. */
  class StaticPep621VersionSource {
    const config: Config
    const parse: string -> Option<Version>

    constructor (config: Config, parse: string -> Option<Version>)
      ensures this.config == config && this.parse == parse
    {
      this.config := config;
      this.parse := parse;
    }

    /** `is_enabled`. */
    method IsEnabled() returns (r: Result<bool>)
      ensures r == StaticEnabled(config.pyproject)
    {
      var found := config.GetPyprojectValue(VersionKey);
      match found {
        case Err(e) => r := Err(e);
        case Ok(v) => r := Ok(v.Some?);
      }
    }

    /** The `current_version` getter: no cache, the manifest is read every time. */
    method GetCurrentVersion() returns (r: Result<Version>)
      ensures r == StaticVersion(config.pyproject, parse)
    {
      var found := config.GetPyprojectValue(VersionKey);
      match found {
        case Err(e) =>
          r := Err(e);
        case Ok(Some(Str(s))) =>
          var parsed := parse(s);
          if parsed.Some? {
            r := Ok(parsed.value);
          } else {
            r := Err(VersionParse);
          }
        case Ok(_) =>
          r := Err(NotAString);
      }
    }

    /** The `current_version` setter: stores the formatted version at `project.version`. */
    method SetCurrentVersion(v: Version) returns (r: Outcome)
      modifies config
      ensures config.projectConfig == old(config.projectConfig)
      ensures StoreVersion(old(config.pyproject), v).Ok? ==>
        r == Pass && config.pyproject == StoreVersion(old(config.pyproject), v).value
      ensures StoreVersion(old(config.pyproject), v).Err? ==>
        r == Fail(StoreVersion(old(config.pyproject), v).error) && config.pyproject == old(config.pyproject)
    {
      var text := Format(v);
      r := config.SetPyprojectValue(Str(text), VersionKey);
    }
  }
}
