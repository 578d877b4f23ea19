/**
 * The file-based version source of dynamic.py: locating the version file
 * from the manifest (`find_dynamic_config`), reading and rewriting the
 * `version` group of `DEFAULT_REGEX` in it (`dynamic_version`,
 * `replace_dynamic_version`), and `DynamicVersionSource` with its lazily
 * filled version cache.
 */
module Dynamic {
  import opened Results
  import opened Versions
  import opened Formatter
  import opened Configs
  import opened VersionPattern

  /** `root_path / file_path` on POSIX paths: an absolute path replaces the root. */
  function JoinPath(root: string, path: string): string
  {
    if |path| > 0 && path[0] == '/' then path else root + "/" + path
  }

  /**
   * `DynamicVersionConfig`: the version file. Every configuration the modelled
   * code creates is searched with `DEFAULT_REGEX`, so the pattern is not a field.
   */
  datatype DynamicVersionConfig = DynamicVersionConfig(file: string)

  // ---------------------------------------------------------------------------
  // The text of the version file

  /** The `version` group of the first match of `DEFAULT_REGEX`, or None. */
  function DynamicVersion(content: string): Option<string>
  {
    match Search(content)
    case None => None
    case Some(m) => Some(Group(content, m))
  }

  /** The text `replace_dynamic_version` writes back, or the error it raises when nothing matches. */
  function ReplacedContent(content: string, nv: string): Result<string>
  {
    match Search(content)
    case None => Err(VersionNotFound)
    case Some(m) => Ok(Splice(content, m, nv))
  }

  /**
   * The rewrite replaces exactly the group of the first match: the text on
   * either side is kept character for character. It fails exactly when there
   * is no version to read.
   */
  lemma ReplaceSplices(content: string, nv: string)
    ensures ReplacedContent(content, nv).Err? <==> DynamicVersion(content).None?
    ensures ReplacedContent(content, nv).Err? ==> ReplacedContent(content, nv).error == VersionNotFound
    ensures ReplacedContent(content, nv).Ok? ==>
      var m := Search(content).value;
      var r := ReplacedContent(content, nv).value;
      && DynamicVersion(content) == Some(content[m.groupStart..m.groupEnd])
      && |r| == |content| - (m.groupEnd - m.groupStart) + |nv|
      && r[..m.groupStart] == content[..m.groupStart]
      && r[m.groupStart..m.groupStart + |nv|] == nv
      && r[m.groupStart + |nv|..] == content[m.groupEnd..]
  {
    if Search(content).Some? {
      SpliceLayout(content, Search(content).value, nv);
    }
  }

  /** Round trip: after writing a well-formed version, reading the file gives that version. */
  lemma ReplaceThenRead(content: string, nv: string)
    requires DynamicVersion(content).Some? && Replaceable(nv)
    ensures ReplacedContent(content, nv).Ok?
    ensures DynamicVersion(ReplacedContent(content, nv).value) == Some(nv)
  {
    SearchAfterSplice(content, nv);
  }

  /** Writing back the version that is already there leaves the file as it was. */
  lemma ReplaceWithCurrent(content: string)
    requires DynamicVersion(content).Some?
    ensures ReplacedContent(content, DynamicVersion(content).value) == Ok(content)
  {
    SpliceSameText(content, Search(content).value);
  }

  /** The formatter's output can stand in the `version` group whenever its local part can. */
  lemma FormatReplaceable(v: Version)
    requires ValidVersion(v) && |v.release| >= 1
    requires v.local.Some? ==> forall i :: 0 <= i < |v.local.value| ==>
      !IsQuote(v.local.value[i]) && v.local.value[i] != '\n'
    ensures Replaceable(Format(v))
  {
    PublicTextChars(v);
    var p := PublicText(v);
    var e := if v.epoch > 0 then NatToString(v.epoch) + "!" else "";
    assert |JoinRelease(v.release)| >= 1;
    assert |p| >= 1;
    var f := Format(v);
    forall i | 0 <= i < |f| ensures !IsQuote(f[i]) && f[i] != '\n' {
      if i < |p| {
        assert f[i] == p[i] && PublicChar(p[i]);
      } else if i > |p| {
        assert f[i] == v.local.value[i - |p| - 1];
      }
    }
  }

  // ---------------------------------------------------------------------------
  // The file system

  /** The files the source reads and writes, by path. */
  class FileSystem {
    var files: map<string, string>

    constructor (files: map<string, string>)
      ensures this.files == files
    {
      this.files := files;
    }

    /** Opening a file for reading: a missing file raises. */
    method ReadText(path: string) returns (r: Result<string>)
      ensures path in files ==> r == Ok(files[path])
      ensures path !in files ==> r == Err(FileNotFound)
    {
      if path in files {
        r := Ok(files[path]);
      } else {
        r := Err(FileNotFound);
      }
    }

    /** Opening a file for writing and writing `text`: the file's contents become `text`. */
    method WriteText(path: string, text: string)
      modifies this
      ensures files == old(files)[path := text]
    {
      files := files[path := text];
    }
  }

  /** `DynamicVersionConfig.dynamic_version`: reads the file and returns its version text; the file is not written. */
  method ReadDynamicVersion(cfg: DynamicVersionConfig, fs: FileSystem) returns (r: Result<Option<string>>)
    ensures cfg.file in fs.files ==> r == Ok(DynamicVersion(fs.files[cfg.file]))
    ensures cfg.file !in fs.files ==> r == Err(FileNotFound)
  {
    var text := fs.ReadText(cfg.file);
    match text {
      case Err(e) => r := Err(e);
      case Ok(content) => r := Ok(DynamicVersion(content));
    }
  }

  /** The files after `replace_dynamic_version(nv)` on `file`, or the error it raises. */
  function WriteResult(files: map<string, string>, file: string, nv: string): Result<map<string, string>>
  {
    if file !in files then Err(FileNotFound)
    else match ReplacedContent(files[file], nv)
      case Err(e) => Err(e)
      case Ok(text) => Ok(files[file := text])
  }

  /** `DynamicVersionConfig.replace_dynamic_version`: on failure nothing is written. */
  method ReplaceDynamicVersion(cfg: DynamicVersionConfig, fs: FileSystem, nv: string) returns (r: Outcome)
    modifies fs
    ensures WriteResult(old(fs.files), cfg.file, nv).Ok? ==>
      r == Pass && fs.files == WriteResult(old(fs.files), cfg.file, nv).value
    ensures WriteResult(old(fs.files), cfg.file, nv).Err? ==>
      r == Fail(WriteResult(old(fs.files), cfg.file, nv).error) && fs.files == old(fs.files)
  {
    var text := fs.ReadText(cfg.file);
    match text {
      case Err(e) =>
        return Fail(e);
      case Ok(content) =>
        match Search(content) {
          case None =>
            return Fail(VersionNotFound);
          case Some(m) =>
            fs.WriteText(cfg.file, Splice(content, m, nv));
            r := Pass;
        }
    }
  }

  // ---------------------------------------------------------------------------
  // Locating the version file from the manifest

  const BuildBackendKey: seq<string> := ["build-system", "build-backend"]
  const VersionSourceKey: seq<string> := ["tool", "pdm", "version", "source"]
  const VersionPathKey: seq<string> := ["tool", "pdm", "version", "path"]
  const DynamicKey: seq<string> := ["project", "dynamic"]

  /**
   * `DynamicVersionConfig.find_dynamic_config`. The two tests short-circuit;
   * a path that is missing or not a string cannot be joined to the root.
   */
  function FindDynamicConfig(pyproject: Mapping, root: string): Result<Option<DynamicVersionConfig>>
  {
    match Lookup(pyproject, BuildBackendKey)
    case Err(e) => Err(e)
    case Ok(backend) =>
      if backend != Some(Str("pdm.pep517.api")) then Ok(None)
      else match Lookup(pyproject, VersionSourceKey)
        case Err(e) => Err(e)
        case Ok(source) =>
          if source != Some(Str("file")) then Ok(None)
          else match Lookup(pyproject, VersionPathKey)
            case Err(e) => Err(e)
            case Ok(Some(Str(path))) => Ok(Some(DynamicVersionConfig(JoinPath(root, path))))
            case Ok(_) => Err(InvalidPath)
  }

  /** The manifest names pdm-pep517 as build backend and a file as version source. */
  predicate DeclaresFileSource(pyproject: Mapping)
  {
    Lookup(pyproject, BuildBackendKey) == Ok(Some(Str("pdm.pep517.api")))
      && Lookup(pyproject, VersionSourceKey) == Ok(Some(Str("file")))
  }

  /**
   * A configuration is found exactly when the manifest declares a file
   * source (and the path is a string); its file is the path under the root.
   * No configuration is found exactly when a test reads a different value.
   */
  lemma FindDynamicConfigCases(pyproject: Mapping, root: string, path: string)
    ensures FindDynamicConfig(pyproject, root).Ok? && FindDynamicConfig(pyproject, root).value.Some? <==>
      DeclaresFileSource(pyproject) && Lookup(pyproject, VersionPathKey).Ok?
        && Lookup(pyproject, VersionPathKey).value.Some? && Lookup(pyproject, VersionPathKey).value.value.Str?
    ensures DeclaresFileSource(pyproject) && Lookup(pyproject, VersionPathKey) == Ok(Some(Str(path))) ==>
      FindDynamicConfig(pyproject, root) == Ok(Some(DynamicVersionConfig(JoinPath(root, path))))
    ensures FindDynamicConfig(pyproject, root) == Ok(None) <==>
      (Lookup(pyproject, BuildBackendKey).Ok? && Lookup(pyproject, BuildBackendKey).value != Some(Str("pdm.pep517.api")))
      || (Lookup(pyproject, BuildBackendKey) == Ok(Some(Str("pdm.pep517.api")))
          && Lookup(pyproject, VersionSourceKey).Ok? && Lookup(pyproject, VersionSourceKey).value != Some(Str("file")))
  {
  }

  /** `DynamicVersionSource.__get_dynamic_version`: no file source is a configuration error. */
  function GetDynamicVersion(pyproject: Mapping, root: string): Result<DynamicVersionConfig>
  {
    match FindDynamicConfig(pyproject, root)
    case Err(e) => Err(e)
    case Ok(None) => Err(NoDynamicSource)
    case Ok(Some(cfg)) => Ok(cfg)
  }

  /**
   * The same method as written: the call at dynamic.py:131 names a free
   * function the class body mangles to `_DynamicVersionSource__find_dynamic_config`,
   * which is not defined.
   */
  function GetDynamicVersionAsWritten(pyproject: Mapping, root: string): Result<DynamicVersionConfig>
  {
    Err(UndefinedName)
  }

  /** The manifest of a project whose version lives in `src/pkg/__init__.py`. */
  function ExampleManifest(): Mapping
  {
    map[
      "build-system" := Table(map["build-backend" := Str("pdm.pep517.api")]),
      "tool" := Table(map["pdm" := Table(map["version" := Table(map[
        "source" := Str("file"), "path" := Str("src/pkg/__init__.py")])])])]
  }

  /** As written, locating the version file fails even for a manifest that declares one. */
  lemma MangledNameExample()
    ensures GetDynamicVersionAsWritten(ExampleManifest(), "/work") == Err(UndefinedName)
    ensures GetDynamicVersion(ExampleManifest(), "/work") == Ok(DynamicVersionConfig("/work/src/pkg/__init__.py"))
  {
    var m := ExampleManifest();
    assert Lookup(m, BuildBackendKey) == Ok(Some(Str("pdm.pep517.api")));
    assert Lookup(m, VersionSourceKey) == Ok(Some(Str("file")));
    assert Lookup(m, VersionPathKey) == Ok(Some(Str("src/pkg/__init__.py")));
    assert JoinPath("/work", "src/pkg/__init__.py") == "/work/src/pkg/__init__.py";
  }

  /** A configuration error is raised exactly when the manifest names no file source. */
  lemma NoDescriptorIsConfigurationError(pyproject: Mapping, root: string)
    ensures GetDynamicVersion(pyproject, root) == Err(NoDynamicSource) <==> FindDynamicConfig(pyproject, root) == Ok(None)
    ensures GetDynamicVersion(pyproject, root).Ok? ==> FindDynamicConfig(pyproject, root) == Ok(Some(GetDynamicVersion(pyproject, root).value))
  {
  }

  // ---------------------------------------------------------------------------
  // The `project.dynamic` gate

  /** `sub in text` on strings. */
  predicate Occurs(sub: string, text: string)
    decreases |text|
  {
    |sub| <= |text| && (text[..|sub|] == sub || (|text| > 0 && Occurs(sub, text[1..])))
  }

  /** `sub` stands in `text` at position `i`. */
  predicate At(sub: string, text: string, i: nat)
  {
    i + |sub| <= |text| && text[i..i + |sub|] == sub
  }

  lemma {:induction false} OccursFrom(sub: string, text: string, i: nat)
    requires At(sub, text, i)
    ensures Occurs(sub, text)
    decreases i
  {
    if i > 0 {
      assert text[1..][i - 1..i - 1 + |sub|] == text[i..i + |sub|];
      OccursFrom(sub, text[1..], i - 1);
    }
  }

  lemma {:induction false} OccursWitness(sub: string, text: string) returns (i: nat)
    requires Occurs(sub, text)
    ensures At(sub, text, i)
    decreases |text|
  {
    if text[..|sub|] == sub {
      i := 0;
    } else {
      var j := OccursWitness(sub, text[1..]);
      assert text[1..][j..j + |sub|] == text[j + 1..j + 1 + |sub|];
      i := j + 1;
    }
  }

  /** `"version" in value`, for each kind of manifest value; numbers and booleans support no membership test. */
  function Contains(value: Value, item: string): Result<bool>
  {
    match value
    case Array(items) => Ok(Str(item) in items)
    case Str(s) => Ok(Occurs(item, s))
    case Table(t) => Ok(item in t)
    case Int(_) => Err(NotAContainer)
    case Bool(_) => Err(NotAContainer)
  }

  /** `DynamicVersionSource.is_enabled`. */
  function IsDynamicEnabled(pyproject: Mapping): Result<bool>
  {
    match Lookup(pyproject, DynamicKey)
    case Err(e) => Err(e)
    case Ok(None) => Ok(false)
    case Ok(Some(v)) => Contains(v, "version")
  }

  /** The gate holds exactly when `project.dynamic` is present and lists "version". */
  lemma DynamicEnabledIff(pyproject: Mapping, items: seq<Value>)
    ensures IsDynamicEnabled(pyproject) == Ok(true) ==> Lookup(pyproject, DynamicKey).Ok? && Lookup(pyproject, DynamicKey).value.Some?
    ensures Lookup(pyproject, DynamicKey) == Ok(None) ==> IsDynamicEnabled(pyproject) == Ok(false)
    ensures Lookup(pyproject, DynamicKey) == Ok(Some(Array(items))) ==>
      (IsDynamicEnabled(pyproject) == Ok(true) <==> Str("version") in items)
    ensures Lookup(pyproject, DynamicKey) == Ok(Some(Array(items))) ==> IsDynamicEnabled(pyproject).Ok?
  {
  }

  /** On a string value, the gate is a substring test. */
  lemma DynamicEnabledOnString(pyproject: Mapping, s: string)
    requires Lookup(pyproject, DynamicKey) == Ok(Some(Str(s)))
    ensures IsDynamicEnabled(pyproject).Ok?
    ensures IsDynamicEnabled(pyproject) == Ok(true) <==> exists i: nat :: At("version", s, i)
  {
    if IsDynamicEnabled(pyproject) == Ok(true) {
      var i := OccursWitness("version", s);
    }
    forall i: nat | At("version", s, i) ensures Occurs("version", s) {
      OccursFrom("version", s, i);
    }
  }

  // ---------------------------------------------------------------------------
  // What the source reads and writes

  /** The version a source with an empty cache reads, or the error it raises. */
  function Resolve(pyproject: Mapping, root: string, files: map<string, string>,
                   parse: string -> Option<Version>): Result<Version>
  {
    match GetDynamicVersion(pyproject, root)
    case Err(e) => Err(e)
    case Ok(cfg) =>
      if cfg.file !in files then Err(FileNotFound)
      else match DynamicVersion(files[cfg.file])
        case None => Err(VersionNotFound)
        case Some(text) =>
          match parse(text)
          case None => Err(VersionParse)
          case Some(v) => Ok(v)
  }

  /** The files after `save_value` writes `text`, or the error it raises. */
  function SaveFiles(pyproject: Mapping, root: string, files: map<string, string>, text: string): Result<map<string, string>>
  {
    match GetDynamicVersion(pyproject, root)
    case Err(e) => Err(e)
    case Ok(cfg) => WriteResult(files, cfg.file, text)
  }

  /** A version file is configured, exists and holds a version assignment. */
  predicate Located(pyproject: Mapping, root: string, files: map<string, string>)
  {
    var cfg := GetDynamicVersion(pyproject, root);
    cfg.Ok? && cfg.value.file in files && DynamicVersion(files[cfg.value.file]).Some?
  }

  /**
   * Saving succeeds exactly when there is a version to replace, and then only
   * the version file changes; without one, reading fails too.
   */
  lemma SaveSucceedsIff(pyproject: Mapping, root: string, files: map<string, string>, text: string,
                        parse: string -> Option<Version>)
    ensures SaveFiles(pyproject, root, files, text).Ok? <==> Located(pyproject, root, files)
    ensures SaveFiles(pyproject, root, files, text).Ok? ==>
      var file := GetDynamicVersion(pyproject, root).value.file;
      SaveFiles(pyproject, root, files, text).value == files[file := ReplacedContent(files[file], text).value]
    ensures !Located(pyproject, root, files) ==> Resolve(pyproject, root, files, parse).Err?
  {
    var cfg := GetDynamicVersion(pyproject, root);
    if cfg.Ok? && cfg.value.file in files {
      ReplaceSplices(files[cfg.value.file], text);
    }
  }

  /**
   * Saving a version and reading it back gives that version, provided the
   * parser reads the formatter's output back.
   */
  lemma SaveThenResolve(pyproject: Mapping, root: string, files: map<string, string>,
                        v: Version, parse: string -> Option<Version>)
    requires Located(pyproject, root, files)
    requires ValidVersion(v) && |v.release| >= 1
    requires v.local.Some? ==> forall i :: 0 <= i < |v.local.value| ==>
      !IsQuote(v.local.value[i]) && v.local.value[i] != '\n'
    requires parse(Format(v)) == Some(v)
    ensures SaveFiles(pyproject, root, files, Format(v)).Ok?
    ensures Resolve(pyproject, root, SaveFiles(pyproject, root, files, Format(v)).value, parse) == Ok(v)
  {
    var cfg := GetDynamicVersion(pyproject, root).value;
    FormatReplaceable(v);
    ReplaceThenRead(files[cfg.file], Format(v));
  }

  // ---------------------------------------------------------------------------
  // The source object

  /**
   * `DynamicVersionSource`: the project root, the configuration, the files
   * it can reach and the parser `Version.from_string`, with a cache that is
   * empty until the version is read or set.
   */
  class DynamicVersionSource {
    const projectRoot: string
    const config: Config
    const fs: FileSystem
    const parse: string -> Option<Version>
    var currentVersion: Option<Version>

    constructor (projectRoot: string, config: Config, fs: FileSystem, parse: string -> Option<Version>)
      ensures this.projectRoot == projectRoot && this.config == config && this.fs == fs && this.parse == parse
      ensures currentVersion == None
    {
      this.projectRoot := projectRoot;
      this.config := config;
      this.fs := fs;
      this.parse := parse;
      currentVersion := None;
    }

    /** `is_enabled`. */
    method IsEnabled() returns (r: Result<bool>)
      ensures r == IsDynamicEnabled(config.pyproject)
    {
      var items := config.GetPyprojectValue(DynamicKey);
      match items {
        case Err(e) => r := Err(e);
        case Ok(None) => r := Ok(false);
        case Ok(Some(v)) => r := Contains(v, "version");
      }
    }

    /** `__get_dynamic_version`. */
    method LocateConfig() returns (r: Result<DynamicVersionConfig>)
      ensures r == GetDynamicVersion(config.pyproject, projectRoot)
    {
      var found := FindDynamicConfig(config.pyproject, projectRoot);
      match found {
        case Err(e) => r := Err(e);
        case Ok(None) => r := Err(NoDynamicSource);
        case Ok(Some(cfg)) => r := Ok(cfg);
      }
    }

    /**
     * The `current_version` getter: a cached version is returned without
     * reading any file; otherwise the version file is read and parsed, and
     * the result cached when that succeeds.
     */
    method GetCurrentVersion() returns (r: Result<Version>)
      modifies this
      ensures old(currentVersion).Some? ==> r == Ok(old(currentVersion).value) && currentVersion == old(currentVersion)
      ensures old(currentVersion).None? ==> r == Resolve(config.pyproject, projectRoot, fs.files, parse)
      ensures old(currentVersion).None? ==> currentVersion == (if r.Ok? then Some(r.value) else None)
    {
      if currentVersion.Some? {
        return Ok(currentVersion.value);
      }
      var located := LocateConfig();
      if located.Err? {
        return Err(located.error);
      }
      var text := ReadDynamicVersion(located.value, fs);
      match text {
        case Err(e) =>
          r := Err(e);
        case Ok(None) =>
          r := Err(VersionNotFound);
        case Ok(Some(s)) =>
          match parse(s) {
            case None =>
              r := Err(VersionParse);
            case Some(v) =>
              currentVersion := Some(v);
              r := Ok(v);
          }
      }
    }

    /** The `current_version` setter: overwrites the cache. */
    method SetCurrentVersion(v: Version)
      modifies this
      ensures currentVersion == Some(v)
    {
      currentVersion := Some(v);
    }

    /**
     * `save_value`: an empty cache raises; otherwise the formatted cached
     * version is written into the version file. The cache is kept.
     */
    method SaveValue() returns (r: Outcome)
      modifies fs
      ensures currentVersion == old(currentVersion)
      ensures currentVersion.None? ==> r == Fail(NoCurrentValue) && fs.files == old(fs.files)
      ensures currentVersion.Some? ==>
        var saved := SaveFiles(config.pyproject, projectRoot, old(fs.files), Format(currentVersion.value));
        && (saved.Ok? ==> r == Pass && fs.files == saved.value)
        && (saved.Err? ==> r == Fail(saved.error) && fs.files == old(fs.files))
    {
      if currentVersion.None? {
        return Fail(NoCurrentValue);
      }
      var text := Format(currentVersion.value);
      var located := LocateConfig();
      if located.Err? {
        return Fail(located.error);
      }
      r := ReplaceDynamicVersion(located.value, fs, text);
    }
  }
}
