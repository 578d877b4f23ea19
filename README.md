# pdm-bump: a verified model of the version-bumping core

pdm-bump is a plugin for the pdm package manager that bumps a project's
version according to PEP 440. This project models its core in Dafny:

- the `Version` record with its accessors and kind predicates, and the PEP 440
  formatter (`version.dfy`, `formatter.dfy`);
- the bump rules (`VersionModifier` and its subclasses) and the
  command-to-rule table that `create_actions` builds (`action.dfy`);
- reading and writing values at key paths of the manifest tree, and the
  `Config` object that holds the manifest and the plugin configuration
  (`config.dfy`);
- the default version pattern `DEFAULT_REGEX`, written out as the search the
  regular-expression engine performs (`pattern.dfy`);
- the file-based version source: locating the version file from the
  manifest, reading and rewriting the `version` group, and
  `DynamicVersionSource` with its version cache (`dynamic.dfy`);
- the static source, which keeps the version at `project.version`
  (`source.dfy`).

Exceptions become values of `Results.Error` inside `Result` or `Outcome`.
The manifest is a `Value` tree whose inner nodes are tables. State that the
Python code changes in place is held in classes:

- `Config` holds the manifest;
- `FileSystem` maps paths to file contents;
- `DynamicVersionSource` holds the version cache.

`Version.from_string` belongs to the external `packaging` library. Every
member that needs it takes it as a parameter `parse: string -> Option<Version>`.

Where the code and its evident intent differ, the model follows the intent,
and each case is listed below:

- `version.py:80-90`: inside the class body Python mangles `__ALPHA_PART`,
  `__BETA_PART` and `__RC_PART` to undefined names. The module tuples at
  `version.py:27-29` are used instead.
- `action.py:263` and `action.py:273`: the `isinstance(choice, str)` test
  always passes, because no table entry is a string.
- `action.py:43`: see "Findings".
- `dynamic.py:131`: see "Findings". The same mangling affects the calls at
  `dynamic.py:106` and `dynamic.py:126`. They are modelled as the intended
  `dynamic.dynamic_version` and `config.replace_dynamic_version(ver)`.
- `dynamic.py:112`: the error message reads `dynamic.regex`, which does not
  exist, so the code raises an AttributeError where it means to raise a
  ValueError. The model returns `VersionNotFound`.

## Model

| member | source | states |
|---|---|---|
| Versions.Version.Major | src/pdm_bump/version.py:50-52 | `release[0]` when the release has a part, 0 otherwise |
| Versions.Version.Minor | src/pdm_bump/version.py:54-56 | `release[1]` when the release has two parts, 0 otherwise |
| Versions.Version.Micro | src/pdm_bump/version.py:58-60 | `release[2]` when the release has three parts, 0 otherwise |
| Versions.Version.IsPreRelease | src/pdm_bump/version.py:62-64 | computes: a preview part or a dev part exists (properties in Versions.PreviewKinds) |
| Versions.Version.IsDevelopmentVersion | src/pdm_bump/version.py:66-68 | computes: a dev part exists |
| Versions.Version.IsPostRelease | src/pdm_bump/version.py:70-72 | computes: a post part exists |
| Versions.Version.IsLocalVersion | src/pdm_bump/version.py:74-76 | computes: a local part exists |
| Versions.Version.ComparePreview | src/pdm_bump/version.py:92-96 | computes: a preview exists and its tag is one of the given tags; false without a preview |
| Versions.Version.IsAlpha | src/pdm_bump/version.py:78-82 | computes: a preview with tag "a" or "alpha", the module tuple of version.py:27 (see the deviation for version.py:80-90) |
| Versions.Version.IsBeta | src/pdm_bump/version.py:84-86 | computes: a preview with tag "b" or "beta", the module tuple of version.py:28 |
| Versions.Version.IsReleaseCandidate | src/pdm_bump/version.py:88-90 | computes: a preview with tag "c" or "rc", the module tuple of version.py:29 |
| Versions.Version.IsFinal | src/pdm_bump/action.py:122-133 | computes: no preview, post, dev or local part, the shape `_create_new_constructional_args` produces |
| Versions.Default | src/pdm_bump/version.py:124-126 | epoch 0, release (1,), accessors 1/0/0, no optional part, a final version |
| Versions.PaddedAt | src/pdm_bump/action.py:63-68 | padding keeps every existing part and appends zeros up to the requested length |
| Versions.AccessorsReadPaddedRelease | src/pdm_bump/version.py:50-60 | major, minor and micro read the release as if it were padded with zeros to three parts |
| Versions.PreviewKinds | src/pdm_bump/version.py:62-96 | a pre-release is a preview or dev part; alpha/beta/rc hold exactly for the tags ("a","alpha")/("b","beta")/("c","rc"); they are mutually exclusive and together cover every admitted tag |
| Formatter.NatToString | src/pdm_bump/version.py:173 | `str(n)` is a non-empty run of decimal digits |
| Formatter.NatToStringRoundTrip | src/pdm_bump/version.py:173 | the digits of `str(n)` denote n |
| Formatter.Format | src/pdm_bump/version.py:166-187 | computes `format`: `E!` when the epoch is positive, the dot-joined release, tag and number, `.postN`, `.devN`, `+local` (properties in the Formatter rows below and in Dynamic.FormatReplaceable) |
| Formatter.PublicTextChars | src/pdm_bump/version.py:168-182 | everything before the local part is digits, dots, '!' and lower-case letters |
| Formatter.FormatLocalPart | src/pdm_bump/version.py:184-185 | a '+' appears exactly when there is a local part, and the text after the first '+' is that local part |
| Formatter.FormatEpochPrefix | src/pdm_bump/version.py:170-171 | the output starts with `N!` exactly when the epoch is positive, and then N is the epoch |
| Formatter.ReleaseRoundTrip | src/pdm_bump/version.py:173 | splitting the dot-joined release at the dots and reading each field gives the release back |
| Formatter.FormatReleaseOnly | src/pdm_bump/version.py:168-187 | a final version with epoch 0 formats as its dot-joined release, which reads back as the release |
| Formatter.FormatExampleRelease | src/pdm_bump/version.py:173 | (1,2,3) formats as "1.2.3" |
| Formatter.FormatExampleFull | src/pdm_bump/version.py:168-187 | every segment in order: epoch 1, release (2,0), rc1, post 3, dev 4, local "abc" give "1!2.0rc1.post3.dev4+abc" |
| Actions.ReleaseBumpedAt | src/pdm_bump/action.py:161-168 | the bumped release keeps its length, increments index i, zeroes every later index and keeps every earlier one |
| Actions.UpdateReleaseVersionPart | src/pdm_bump/action.py:158-168 | the loop computes that bumped release; an index past the end leaves the release unchanged |
| Actions.ReleaseBump | src/pdm_bump/action.py:135-168 | computes the release bump at a part, dropping the non-final parts when remove_parts is set (properties in Actions.ReleaseBumpSpec) |
| Actions.NextPreReleaseRelease | src/pdm_bump/action.py:58-72 | the copy-and-pad loop yields at least three parts, the new micro at index 2, and every other part kept or zero |
| Actions.PreReleaseBumpSpec | src/pdm_bump/action.py:33-48 | fails with PreviewMismatch exactly when a preview exists that the bump does not accept; otherwise keeps the epoch, major and minor, sets micro (+1 with increment_micro), starts at (letter, 1) or increments the current preview, and clears post, dev and local |
| Actions.PreReleaseAccepts | src/pdm_bump/action.py:75-105 | alpha accepts a current alpha; beta accepts alpha or beta; rc accepts alpha, beta or rc |
| Actions.PreReleaseAsWrittenFails | src/pdm_bump/action.py:43 | as written, every accepted bump of an existing preview raises AttributeError, where the intended bump succeeds |
| Actions.PreReleaseAsWrittenExample | src/pdm_bump/action.py:38-44 | as written the alpha bump of 1.0.0a1 raises; as intended it gives 1.0.0a2 |
| Actions.PreReleaseBump | src/pdm_bump/action.py:33-48 | computes the pre-release bump as intended, not as written at line 43 (see "Findings"): the padded release with the new micro, then (letter, 1), the incremented current preview, or PreviewMismatch (properties in Actions.PreReleaseBumpSpec) |
| Actions.ReleaseBumpSpec | src/pdm_bump/action.py:135-168 | the release is bumped at the given part; epoch kept; with remove_parts the result is final, without it only the release changes |
| Actions.MajorBump | src/pdm_bump/action.py:184-189 | the major bump increments part 0 and zeroes the rest |
| Actions.MinorBump | src/pdm_bump/action.py:192-197 | the minor bump keeps major, increments part 1 and zeroes the rest |
| Actions.MicroBump | src/pdm_bump/action.py:200-205 | the micro bump keeps major and minor, increments part 2 and zeroes the rest |
| Actions.Finalize | src/pdm_bump/action.py:171-181 | computes: epoch and release kept, every other part cleared (properties in Actions.FinalizeSpec) |
| Actions.FinalizeSpec | src/pdm_bump/action.py:171-181 | keeps epoch and release, clears every non-final part, is idempotent and leaves a final version unchanged |
| Actions.EpochBump | src/pdm_bump/action.py:208-225 | computes: epoch + 1 on the default version, on the release with the other parts cleared, or on the version itself, by the two flags (properties in Actions.EpochBumpSpec) |
| Actions.EpochBumpSpec | src/pdm_bump/action.py:208-225 | epoch + 1 always; reset_version gives release (1,) and a final version; remove_parts alone keeps the release and clears the rest; neither flag changes nothing else |
| Actions.DevBump | src/pdm_bump/action.py:228-238 | computes: dev becomes 1, or n+1 when present (properties in Actions.DevPostBumpSpec) |
| Actions.PostBump | src/pdm_bump/action.py:241-251 | computes: post becomes 1, or n+1 when present (properties in Actions.DevPostBumpSpec) |
| Actions.DevPostBumpSpec | src/pdm_bump/action.py:228-251 | dev/post become 1 when absent and n+1 when present; every other field is unchanged |
| Actions.CreateNewVersionKeepsValid | src/pdm_bump/action.py:308-343 | only pre-release rules can fail, and every rule maps a version with an admitted tag to one |
| Actions.GetAction | src/pdm_bump/action.py:260-266 | computes: the entry stored under the command, or InvalidCommand (properties in Actions.LookupErrors) |
| Actions.GetActionWithOption | src/pdm_bump/action.py:268-281 | computes: the option's factory in the command's table, InvalidOption for an unknown option, NoOptionTable when the entry is a factory, InvalidCommand for an unknown command (properties in Actions.LookupErrors) |
| Actions.CreateActions | src/pdm_bump/action.py:300-345 | computes the command table for the three flags (properties in Actions.CreateActionsTable) |
| Actions.CreateActionsTable | src/pdm_bump/action.py:300-369 | the command keys are exactly COMMAND_NAMES; "patch" is "micro"; "pre-release" holds a table whose keys are exactly PRERELEASE_OPTIONS, with "c" the same as "rc"; every other command is a factory |
| Actions.LookupErrors | src/pdm_bump/action.py:259-281 | looking up a command fails exactly for a name outside COMMAND_NAMES; a "pre-release" option lookup succeeds exactly for PRERELEASE_OPTIONS and otherwise raises the option error |
| Actions.AliasesBehaveAlike | src/pdm_bump/action.py:314-332 | "patch" and "micro" bump alike, and so do options "c" and "rc" |
| Actions.DefaultActions | src/pdm_bump/action.py:300-305 | computes `create_actions()` with its defaults: remove_parts and reset_version on, increment_micro off |
| Actions.DefaultActionsBehave | src/pdm_bump/action.py:300-345 | with the defaults, "major" gives a final version, "epoch" gives epoch + 1 with release (1,), and "pre-release alpha" keeps the micro |
| Configs.GetConfigValue | src/pdm_bump/config.py:42-63 | the loop computes the lookup at the key path |
| Configs.Lookup | src/pdm_bump/config.py:42-63 | computes the value at a key path: None for a missing section or key, NotATable when a section on the path is not a table (properties in Configs.LookupMissing, Configs.LookupConcat) |
| Configs.LookupMissing | src/pdm_bump/config.py:55-57 | when a section on the path is missing, the whole path reads as None |
| Configs.LookupConcat | src/pdm_bump/config.py:49-57 | a lookup through a table continues in that table: the value at the path of every intermediate table composes |
| Configs.SetConfigValue | src/pdm_bump/config.py:67-84 | the descending and rebuilding loops compute the updated manifest or the error |
| Configs.Put | src/pdm_bump/config.py:67-84 | computes the manifest after the set: missing sections become empty tables, NotATable when a section on the path is not a table (properties in Configs.GetAfterSet, Configs.PutSucceedsIff, Configs.OtherPathsUnchanged) |
| Configs.GetAfterSet | src/pdm_bump/config.py:67-84 | after a successful set, reading the path gives the value written |
| Configs.PutSucceedsIff | src/pdm_bump/config.py:73-84 | setting fails exactly when the parent path runs through a non-table |
| Configs.SetCreatesTables | src/pdm_bump/config.py:75-79 | every section on the path is a table after the set and holds the next key; a section that was missing holds only that key |
| Configs.OtherPathsUnchanged | src/pdm_bump/config.py:73-84 | every path that leaves the target path somewhere reads the same before and after the set |
| Configs.SetExistingKeepsShape | src/pdm_bump/config.py:84 | setting an existing path succeeds and keeps the key set of the root and of every section on the path |
| Configs.ConfigOrPyproject | src/pdm_bump/config.py:101-108 | computes the Python `or` of the plugin lookup and the manifest lookup (properties in Configs.ConfigOrPyprojectFallback) |
| Configs.ConfigOrPyprojectFallback | src/pdm_bump/config.py:102-108 | the plugin value is returned when it is truthy; when it is absent or falsy, the manifest value is returned |
| Configs.Config.GetPyprojectValue | src/pdm_bump/config.py:92-94 | reads the manifest at the path |
| Configs.Config.GetPluginConfigValue | src/pdm_bump/config.py:97-99 | reads the plugin configuration at the path |
| Configs.Config.GetConfigOrPyprojectValue | src/pdm_bump/config.py:102-108 | computes the `or` of both lookups |
| Configs.Config.SetPyprojectValue | src/pdm_bump/config.py:111-113 | the manifest becomes the updated tree; on failure it is unchanged; the plugin configuration is never touched |
| VersionPattern.SkipSpacesStops | src/pdm_bump/dynamic.py:21 | `\s*` stops at the first character that is not whitespace, having passed only whitespace |
| VersionPattern.HeaderEnd | src/pdm_bump/dynamic.py:21 | a matched header starts with `__version__` and ends just after a quote |
| VersionPattern.CloseFromBounds | src/pdm_bump/dynamic.py:21 | the group ends at a quote followed by spaces and then end of line, end of text or a comment, and holds no line break |
| VersionPattern.CloseFromFirst | src/pdm_bump/dynamic.py:21 | the lazy group ends at the first such quote on its line |
| VersionPattern.MatchAt | src/pdm_bump/dynamic.py:20-23 | a match starts where it was tried and its group is a non-empty span inside the text |
| VersionPattern.Search | src/pdm_bump/dynamic.py:20-23 | a match found is the attempt at a line start |
| VersionPattern.SearchLeftmost | src/pdm_bump/dynamic.py:20-23 | the search is leftmost: no earlier line start begins a match, and it finds nothing only when no attempt matches |
| VersionPattern.SearchFindsFirst | src/pdm_bump/dynamic.py:45 | the first line start whose attempt matches is the one found |
| VersionPattern.SearchExample | src/pdm_bump/dynamic.py:20-23 | `__version__ = '1.0' # set` matches with the group "1.0" |
| VersionPattern.Splice | src/pdm_bump/dynamic.py:57-62 | the text before the group, the new version, the text after the group; its length is the old length less the group plus the new version (layout in VersionPattern.SpliceLayout) |
| VersionPattern.SpliceLayout | src/pdm_bump/dynamic.py:58-62 | the new text keeps everything before and after the group character for character, with the new version in between |
| VersionPattern.SpliceSameText | src/pdm_bump/dynamic.py:58-62 | splicing in the group's own text changes nothing |
| VersionPattern.SearchAfterSplice | src/pdm_bump/dynamic.py:57-62 | after replacing the group with non-empty text without quotes or line breaks, the search finds the same line and the group is exactly the new text |
| Dynamic.JoinPath | src/pdm_bump/dynamic.py:82 | computes `root_path / file_path` on POSIX paths: an absolute path replaces the root (differences listed under "Left out") |
| Dynamic.DynamicVersion | src/pdm_bump/dynamic.py:42-48 | computes the `version` group of the first match, or None (properties in Dynamic.ReplaceSplices, Dynamic.ReplaceThenRead) |
| Dynamic.ReplacedContent | src/pdm_bump/dynamic.py:50-64 | computes the text written back, or VersionNotFound when nothing matches (properties in Dynamic.ReplaceSplices) |
| Dynamic.ReplaceSplices | src/pdm_bump/dynamic.py:50-64 | the rewrite fails with VersionNotFound exactly when there is no version to read; otherwise it replaces just the group |
| Dynamic.ReplaceThenRead | src/pdm_bump/dynamic.py:42-64 | after writing a well-formed version, reading the file gives that version |
| Dynamic.ReplaceWithCurrent | src/pdm_bump/dynamic.py:57-62 | writing back the current version leaves the file as it was |
| Dynamic.FormatReplaceable | src/pdm_bump/version.py:166-187 | the formatter's output is non-empty and holds no quote or line break, when the local part holds none |
| Dynamic.FileSystem.ReadText | src/pdm_bump/dynamic.py:44-45 | reading an existing file gives its contents; a missing file raises |
| Dynamic.FileSystem.WriteText | src/pdm_bump/dynamic.py:63-64 | the written file's contents become the new text, and no other file changes |
| Dynamic.ReadDynamicVersion | src/pdm_bump/dynamic.py:42-48 | gives the group of the first match, or None; a missing file raises; nothing is written |
| Dynamic.ReplaceDynamicVersion | src/pdm_bump/dynamic.py:50-64 | the version file becomes the spliced text; when the file is missing or nothing matches the error is returned and no file changes |
| Dynamic.FindDynamicConfig | src/pdm_bump/dynamic.py:66-85 | computes the configuration, None, or the error of a lookup or of a path that is missing or not a string (properties in Dynamic.FindDynamicConfigCases) |
| Dynamic.FindDynamicConfigCases | src/pdm_bump/dynamic.py:66-85 | a configuration exists exactly when the backend is "pdm.pep517.api", the source is "file" and the path is a string; its file is the path under the root; none exists exactly when a test reads another value |
| Dynamic.GetDynamicVersion | src/pdm_bump/dynamic.py:128-140 | computes, as intended and not as written at line 131 (see "Findings"), the located configuration or NoDynamicSource (properties in Dynamic.NoDescriptorIsConfigurationError) |
| Dynamic.NoDescriptorIsConfigurationError | src/pdm_bump/dynamic.py:128-140 | locating the file raises the configuration error exactly when no configuration is found |
| Dynamic.MangledNameExample | src/pdm_bump/dynamic.py:128-136 | as written, locating the version file fails even for a manifest that declares one |
| Dynamic.IsDynamicEnabled | src/pdm_bump/dynamic.py:94-99 | computes `"version" in project.dynamic`, false when `project.dynamic` is absent (properties in Dynamic.DynamicEnabledIff, Dynamic.DynamicEnabledOnString) |
| Dynamic.DynamicEnabledIff | src/pdm_bump/dynamic.py:94-99 | enabled only when `project.dynamic` is present; absent gives false; on a list, enabled exactly when it lists "version" |
| Dynamic.DynamicEnabledOnString | src/pdm_bump/dynamic.py:99 | on a string, enabled exactly when "version" occurs in it |
| Dynamic.SaveSucceedsIff | src/pdm_bump/dynamic.py:120-126 | saving succeeds exactly when a version file is located, exists and holds a version, and then only that file changes; otherwise reading fails as well |
| Dynamic.SaveThenResolve | src/pdm_bump/dynamic.py:101-126 | when the parser reads the formatter's output back, saving a version and reading with an empty cache gives that version |
| Dynamic.DynamicVersionSource.IsEnabled | src/pdm_bump/dynamic.py:94-99 | computes the `project.dynamic` gate |
| Dynamic.DynamicVersionSource.LocateConfig | src/pdm_bump/dynamic.py:128-140 | gives the located configuration or the configuration error |
| Dynamic.DynamicVersionSource.GetCurrentVersion | src/pdm_bump/dynamic.py:101-113 | a cached version is returned without reading any file; otherwise the version file is read and parsed, and the result is cached exactly when that succeeds |
| Dynamic.DynamicVersionSource.SetCurrentVersion | src/pdm_bump/dynamic.py:115-116 | the cache holds the given version |
| Dynamic.DynamicVersionSource.SaveValue | src/pdm_bump/dynamic.py:120-126 | an empty cache raises and writes nothing; otherwise the formatted cached version is spliced into the version file; the cache is kept |
| StaticSource.StaticEnabled | src/pdm_bump/source.py:20-22 | computes whether `project.version` is present (property in StaticSource.StoreThenRead) |
| StaticSource.StaticVersion | src/pdm_bump/source.py:24-26 | computes the parse of the string at `project.version`, NotAString for any other value (property in StaticSource.StoreThenRead) |
| StaticSource.StoreVersion | src/pdm_bump/source.py:28-31 | computes the manifest with the formatted version at `project.version` (properties in StaticSource.StoreSucceedsIff, StaticSource.StoreKeepsOtherPaths) |
| StaticSource.StoreSucceedsIff | src/pdm_bump/source.py:28-31 | the setter succeeds exactly when `project` is missing or a table |
| StaticSource.StoreThenRead | src/pdm_bump/source.py:24-31 | after the setter, `project.version` holds the formatted version, the source is enabled, and the getter gives the version back when the parser reads the formatter's output back |
| StaticSource.StoreKeepsOtherPaths | src/pdm_bump/source.py:31 | the setter leaves every other manifest path as it was |
| StaticSource.StoreKeepsDynamicGate | src/pdm_bump/source.py:31 | the setter changes neither the dynamic-source gate nor the version-file descriptor |
| StaticSource.StaticPep621VersionSource.IsEnabled | src/pdm_bump/source.py:20-22 | enabled exactly when `project.version` is present |
| StaticSource.StaticPep621VersionSource.GetCurrentVersion | src/pdm_bump/source.py:24-26 | no cache: parses whatever string is at `project.version` whenever called; a value that is not a string raises |
| StaticSource.StaticPep621VersionSource.SetCurrentVersion | src/pdm_bump/source.py:28-31 | the manifest receives the formatted version at `project.version`; on failure it is unchanged |

## Left out

- `Version.from_string` and `can_parse_to_version` (version.py:128-161) wrap the external `packaging` library. Parsing is the parameter `parse`, and round trips assume that it reads the formatter's output back.
- `Version.__eq__` (version.py:98-108) compares `post` with the other version's `dev`. `Version.__lt__` (version.py:110-122) compares tuples that mix `None` and values, which raises. No property rests on either.
- Other regular expressions: `DynamicVersionConfig` accepts any pattern, but the modelled code only ever passes `DEFAULT_REGEX`, so the pattern is not a field.
- `cached_property` on `dynamic_version`: every configuration is freshly created, so its caching cannot be observed.
- File I/O: files are a map from path to text. Encodings, permissions and concurrent changes are not modelled.
- Dynamic.JoinPath: differs from `pathlib` in three ways, all about normalisation:
  - `.` components are kept: JoinPath("/w", "./src/x.py") is "/w/./src/x.py", where `pathlib` gives "/w/src/x.py".
  - Repeated and trailing slashes are kept, where `pathlib` collapses or drops them.
  - An empty path gives the root followed by "/", where `Path(root) / ""` is the root.
- `Config._get_pyproject_config` (config.py:116-131) depends on pdm's `PyProject` and tomlkit. Only its dictionary case is modelled, in which both views of the manifest are the same table.
- Configs.SetConfigValue: returns the updated tree as a value. The source updates the nested dictionaries in place, so other holders of those dictionaries would see the change; that sharing is not modelled.
- Configs.Lookup, Configs.Put: a key path is non-empty. Every caller passes a literal non-empty path, and an empty one would raise IndexError at `keys[0]`.
- `StaticPep621VersionSource.save_value` (source.py:35-36) calls `write_pyproject`, which `Config` does not define.
- Error messages and logging (`traced_function`, `logger.debug`): only the kind of error is kept.
- plugin.py, cli.py, `__init__.py`, logging.py and the vcs package: command-line dispatch, plugin registration, logging setup and version-control helpers outside the core.

## Findings

| source | as written | input that shows it | evidently intended | confidence | as-written member | corrected member |
|---|---|---|---|---|---|---|
| src/pdm_bump/action.py:43 | reads the attribute `pre` of the bound method `create_new_version`, which raises AttributeError whenever a preview is present and accepted. As written, the mangled tuple names of version.py:80-90 raise NameError first, at line 39, so line 43 is reached only once those are fixed | alpha bump of 1.0.0a1 | keep the current preview tag and increment its number, giving 1.0.0a2 | not executed | Actions.PreReleaseBumpAsWritten, Actions.PreReleaseAsWrittenExample | Actions.PreReleaseBump, Actions.PreReleaseBumpSpec |
| src/pdm_bump/dynamic.py:131 | calls `__find_dynamic_config`, which the class body mangles to an undefined global name, so locating the version file always raises NameError (as do the calls at lines 106 and 126) | a manifest with build-backend "pdm.pep517.api", version source "file" and path "src/pkg/__init__.py", read with an empty cache | call `DynamicVersionConfig.find_dynamic_config(...)` | not executed | Dynamic.GetDynamicVersionAsWritten, Dynamic.MangledNameExample | Dynamic.GetDynamicVersion, Dynamic.NoDescriptorIsConfigurationError |
