/**
 * The bump rules of action.py: one `VersionModifier` per command, each a
 * function from the current version to the next (pre-release bumps may fail),
 * and the two-level command table built by `create_actions`.
 */
module Actions {
  import opened Results
  import opened Versions

  // ---------------------------------------------------------------------------
  // Release tuple helpers

  /** The release tuple with part `i` incremented and every later part set to 0 (an independent, recursive definition). */
  function ReleaseBumped(r: seq<nat>, i: int): seq<nat>
  {
    if |r| == 0 then []
    else [if i == 0 then r[0] + 1 else if i < 0 then 0 else r[0]] + ReleaseBumped(r[1..], i - 1)
  }

  lemma {:induction false} ReleaseBumpedAt(r: seq<nat>, i: int)
    ensures |ReleaseBumped(r, i)| == |r|
    ensures forall k :: 0 <= k < |r| ==>
      ReleaseBumped(r, i)[k] == if k == i then r[k] + 1 else if k > i then 0 else r[k]
  {
    if |r| > 0 {
      ReleaseBumpedAt(r[1..], i - 1);
      var b := ReleaseBumped(r, i);
      forall k | 0 <= k < |r|
        ensures b[k] == if k == i then r[k] + 1 else if k > i then 0 else r[k]
      {
        if k > 0 {
          assert b[k] == ReleaseBumped(r[1..], i - 1)[k - 1];
          assert r[1..][k - 1] == r[k];
        }
      }
    }
  }

  /**
   * `_ReleaseVersionModifier._update_release_version_part`: walks the copied
   * release list, incrementing the part `partId` and zeroing the parts after it.
   */
  method UpdateReleaseVersionPart(release: seq<nat>, partId: nat) returns (next: seq<nat>)
    ensures |next| == |release|
    ensures forall k :: 0 <= k < |release| && k < partId ==> next[k] == release[k]
    ensures partId < |release| ==> next[partId] == release[partId] + 1
    ensures forall k :: partId < k < |release| ==> next[k] == 0
    ensures partId >= |release| ==> next == release
    ensures next == ReleaseBumped(release, partId)
  {
    var parts := release;
    for i := 0 to |parts|
      invariant |parts| == |release|
      invariant forall k :: 0 <= k < i ==>
        parts[k] == if k == partId then release[k] + 1 else if k > partId then 0 else release[k]
      invariant forall k :: i <= k < |release| ==> parts[k] == release[k]
    {
      if i == partId {
        parts := parts[i := parts[i] + 1];
      } else if i > partId {
        parts := parts[i := 0];
      }
    }
    next := parts;
    ReleaseBumpedAt(release, partId);
  }

  /** The release a pre-release bump produces: padded to three parts, with `micro` as the third. */
  function PreReleaseRelease(release: seq<nat>, micro: nat): seq<nat>
  {
    PaddedAt(release, 3);
    Padded(release, 3)[2 := micro]
  }

  /**
   * `_PreReleaseIncrementingVersionModified._get_next_release` once the micro
   * part is chosen: copy the release, append zeros up to three parts, then set
   * the third.
   */
  method NextPreReleaseRelease(release: seq<nat>, micro: nat) returns (next: seq<nat>)
    ensures |next| == if |release| >= 3 then |release| else 3
    ensures next[2] == micro
    ensures forall k :: 0 <= k < |release| && k != 2 ==> next[k] == release[k]
    ensures forall k :: |release| <= k < 3 && k != 2 ==> next[k] == 0
    ensures next == PreReleaseRelease(release, micro)
  {
    var ret: seq<nat> := [];
    for i := 0 to |release|
      invariant ret == release[..i]
    {
      ret := ret + [release[i]];
    }
    assert ret == release;
    while |ret| < 3
      invariant |release| <= |ret| <= (if |release| >= 3 then |release| else 3)
      invariant ret[..|release|] == release
      invariant forall k :: |release| <= k < |ret| ==> ret[k] == 0
      decreases 3 - |ret|
    {
      ret := ret + [0];
    }
    next := ret[2 := micro];
    PaddedAt(release, 3);
    assert forall k :: 0 <= k < |release| ==> ret[k] == ret[..|release|][k];
  }

  // ---------------------------------------------------------------------------
  // The modifiers

  /** The three pre-release modifiers. */
  datatype PreKind = AlphaKind | BetaKind | RcKind

  /** The letter of `pre_release_part`. */
  function Letter(kind: PreKind): string
  {
    match kind
    case AlphaKind => "a"
    case BetaKind => "b"
    case RcKind => "rc"
  }

  /** `_is_valid_preview_version`: alpha accepts alpha; beta accepts alpha or beta; rc accepts all three. */
  predicate ValidPreviewFor(kind: PreKind, v: Version)
  {
    match kind
    case AlphaKind => v.IsAlpha()
    case BetaKind => v.IsAlpha() || v.IsBeta()
    case RcKind => v.IsAlpha() || v.IsBeta() || v.IsReleaseCandidate()
  }

  /** The micro part a pre-release bump writes. */
  function NextMicro(v: Version, incrementMicro: bool): nat
  {
    if incrementMicro then v.Micro() + 1 else v.Micro()
  }

  /**
   * `_PreReleaseIncrementingVersionModified.create_new_version` with the
   * evident intent of action.py:43: an existing preview keeps its tag and
   * its number is incremented.
   */
  function PreReleaseBump(v: Version, kind: PreKind, incrementMicro: bool): Result<Version>
  {
    var release := PreReleaseRelease(v.release, NextMicro(v, incrementMicro));
    if v.preview.None? then
      Ok(Version(v.epoch, release, Some(Preview(Letter(kind), 1)), None, None, None))
    else if !ValidPreviewFor(kind, v) then
      Err(PreviewMismatch)
    else
      Ok(Version(v.epoch, release, Some(Preview(v.preview.value.tag, v.preview.value.number + 1)),
                 None, None, None))
  }

  /** The same method as written: line 43 reads the attribute `pre` of a bound method, which does not exist. */
  function PreReleaseBumpAsWritten(v: Version, kind: PreKind, incrementMicro: bool): Result<Version>
  {
    var release := PreReleaseRelease(v.release, NextMicro(v, incrementMicro));
    if v.preview.None? then
      Ok(Version(v.epoch, release, Some(Preview(Letter(kind), 1)), None, None, None))
    else if !ValidPreviewFor(kind, v) then
      Err(PreviewMismatch)
    else
      Err(MissingAttribute)
  }

  lemma PreReleaseBumpSpec(v: Version, kind: PreKind, incrementMicro: bool)
    ensures var r := PreReleaseBump(v, kind, incrementMicro);
      && (r.Err? <==> v.preview.Some? && !ValidPreviewFor(kind, v))
      && (r.Err? ==> r.error == PreviewMismatch)
      && (r.Ok? ==>
        var w := r.value;
        && w.epoch == v.epoch
        && |w.release| >= 3
        && |w.release| == (if |v.release| >= 3 then |v.release| else 3)
        && w.Major() == v.Major() && w.Minor() == v.Minor()
        && w.Micro() == (if incrementMicro then v.Micro() + 1 else v.Micro())
        && (forall k :: 3 <= k < |w.release| ==> w.release[k] == v.release[k])
        && w.post.None? && w.dev.None? && w.local.None?
        && w.preview == if v.preview.None? then Some(Preview(Letter(kind), 1))
                        else Some(Preview(v.preview.value.tag, v.preview.value.number + 1)))
  {
    PaddedAt(v.release, 3);
  }

  /** Which current previews each pre-release bump accepts. */
  lemma PreReleaseAccepts(v: Version)
    requires v.preview.Some?
    ensures PreReleaseBump(v, AlphaKind, false).Ok? <==> v.preview.value.tag in {"a", "alpha"}
    ensures PreReleaseBump(v, BetaKind, false).Ok? <==> v.preview.value.tag in {"a", "alpha", "b", "beta"}
    ensures PreReleaseBump(v, RcKind, false).Ok? <==>
      v.preview.value.tag in {"a", "alpha", "b", "beta", "c", "rc"}
  {
  }

  /** Line 43 as written makes every accepted bump of an existing preview fail. */
  lemma PreReleaseAsWrittenFails(v: Version, kind: PreKind, incrementMicro: bool)
    requires v.preview.Some? && ValidPreviewFor(kind, v)
    ensures PreReleaseBumpAsWritten(v, kind, incrementMicro) == Err(MissingAttribute)
    ensures PreReleaseBump(v, kind, incrementMicro).Ok?
  {
  }

  /** The input that shows it: an alpha bump of 1.0.0a1 raises as written, and evidently yields 1.0.0a2. */
  lemma PreReleaseAsWrittenExample()
    ensures PreReleaseBumpAsWritten(Version(0, [1, 0, 0], Some(Preview("a", 1)), None, None, None), AlphaKind, false)
      == Err(MissingAttribute)
    ensures PreReleaseBump(Version(0, [1, 0, 0], Some(Preview("a", 1)), None, None, None), AlphaKind, false)
      == Ok(Version(0, [1, 0, 0], Some(Preview("a", 2)), None, None, None))
  {
    var v := Version(0, [1, 0, 0], Some(Preview("a", 1)), None, None, None);
    assert v.IsAlpha();
    assert Padded(v.release, 3) == [1, 0, 0];
    assert NextMicro(v, false) == 0;
    assert PreReleaseRelease(v.release, 0) == [1, 0, 0];
  }

  /** `_ReleaseVersionModifier.create_new_version` for release part `part`. */
  function ReleaseBump(v: Version, part: nat, removeParts: bool): Version
  {
    var next := ReleaseBumped(v.release, part);
    if removeParts then Version(v.epoch, next, None, None, None, None)
    else v.(release := next)
  }

  lemma ReleaseBumpSpec(v: Version, part: nat, removeParts: bool)
    ensures var w := ReleaseBump(v, part, removeParts);
      && |w.release| == |v.release|
      && (forall k :: 0 <= k < part && k < |v.release| ==> w.release[k] == v.release[k])
      && (part < |v.release| ==> w.release[part] == v.release[part] + 1)
      && (forall k :: part < k < |v.release| ==> w.release[k] == 0)
      && w.epoch == v.epoch
      && (removeParts ==> w.IsFinal())
      && (!removeParts ==> w == v.(release := w.release))
  {
    ReleaseBumpedAt(v.release, part);
  }

  lemma MajorBump(v: Version, removeParts: bool)
    requires |v.release| >= 1
    ensures var w := ReleaseBump(v, 0, removeParts);
      w.Major() == v.Major() + 1 && w.Minor() == 0 && w.Micro() == 0
  {
    ReleaseBumpSpec(v, 0, removeParts);
  }

  lemma MinorBump(v: Version, removeParts: bool)
    requires |v.release| >= 2
    ensures var w := ReleaseBump(v, 1, removeParts);
      w.Major() == v.Major() && w.Minor() == v.Minor() + 1 && w.Micro() == 0
  {
    ReleaseBumpSpec(v, 1, removeParts);
  }

  lemma MicroBump(v: Version, removeParts: bool)
    requires |v.release| >= 3
    ensures var w := ReleaseBump(v, 2, removeParts);
      w.Major() == v.Major() && w.Minor() == v.Minor() && w.Micro() == v.Micro() + 1
  {
    ReleaseBumpSpec(v, 2, removeParts);
  }

  /** `FinalizingVersionModifier.create_new_version`. */
  function Finalize(v: Version): Version
  {
    Version(v.epoch, v.release, None, None, None, None)
  }

  lemma FinalizeSpec(v: Version)
    ensures Finalize(v).epoch == v.epoch && Finalize(v).release == v.release
    ensures Finalize(v).IsFinal() && !Finalize(v).IsPreRelease()
    ensures Finalize(Finalize(v)) == Finalize(v)
    ensures v.IsFinal() ==> Finalize(v) == v
  {
  }

  /** `EpochIncrementingVersionModifier.create_new_version`. */
  function EpochBump(v: Version, removeParts: bool, resetVersion: bool): Version
  {
    var base :=
      if resetVersion || removeParts then
        (if !resetVersion then Default().(release := v.release) else Default())
      else v;
    base.(epoch := v.epoch + 1)
  }

  lemma EpochBumpSpec(v: Version, removeParts: bool, resetVersion: bool)
    ensures var w := EpochBump(v, removeParts, resetVersion);
      && w.epoch == v.epoch + 1
      && (resetVersion ==> w.release == [1] && w.IsFinal())
      && (!resetVersion && removeParts ==> w.release == v.release && w.IsFinal())
      && (!resetVersion && !removeParts ==> w == v.(epoch := v.epoch + 1))
  {
  }

  /** `DevelopmentVersionIncrementingVersionModifier.create_new_version`. */
  function DevBump(v: Version): Version
  {
    v.(dev := Some(if v.IsDevelopmentVersion() then v.dev.value + 1 else 1))
  }

  /** `PostVersionIncrementingVersionModifier.create_new_version`. */
  function PostBump(v: Version): Version
  {
    v.(post := Some(if v.IsPostRelease() then v.post.value + 1 else 1))
  }

  lemma DevPostBumpSpec(v: Version)
    ensures DevBump(v).dev == Some(if v.dev.None? then 1 else v.dev.value + 1)
    ensures DevBump(v) == v.(dev := DevBump(v).dev)
    ensures PostBump(v).post == Some(if v.post.None? then 1 else v.post.value + 1)
    ensures PostBump(v) == v.(post := PostBump(v).post)
    ensures DevBump(v).IsDevelopmentVersion() && DevBump(v).IsPreRelease()
    ensures PostBump(v).IsPostRelease()
  {
  }

  /** A modifier instance: its class and the constructor flags it keeps. */
  datatype Modifier =
    | MajorIncrement(removeParts: bool)
    | MinorIncrement(removeParts: bool)
    | MicroIncrement(removeParts: bool)
    | PreReleaseIncrement(kind: PreKind, incrementMicro: bool)
    | Finalizing
    | EpochIncrement(removeParts: bool, resetVersion: bool)
    | DevIncrement
    | PostIncrement

  /** `create_new_version` of the modifier `m` built for version `v`. */
  function CreateNewVersion(m: Modifier, v: Version): Result<Version>
  {
    match m
    case MajorIncrement(rp) => Ok(ReleaseBump(v, 0, rp))
    case MinorIncrement(rp) => Ok(ReleaseBump(v, 1, rp))
    case MicroIncrement(rp) => Ok(ReleaseBump(v, 2, rp))
    case PreReleaseIncrement(kind, im) => PreReleaseBump(v, kind, im)
    case Finalizing => Ok(Finalize(v))
    case EpochIncrement(rp, rv) => Ok(EpochBump(v, rp, rv))
    case DevIncrement => Ok(DevBump(v))
    case PostIncrement => Ok(PostBump(v))
  }

  /** Only a pre-release bump can fail, and every rule keeps a version's preview tag among the admitted ones. */
  lemma CreateNewVersionKeepsValid(m: Modifier, v: Version)
    requires ValidVersion(v)
    ensures CreateNewVersion(m, v).Err? ==> m.PreReleaseIncrement?
    ensures CreateNewVersion(m, v).Ok? ==> ValidVersion(CreateNewVersion(m, v).value)
  {
  }

  // ---------------------------------------------------------------------------
  // The command table

  /** An entry of the table: a modifier factory, or a nested table of options. */
  datatype ActionChoice = Factory(modifier: Modifier) | OptionTable(options: map<string, Modifier>)

  type ActionCollection = map<string, ActionChoice>

  /** `ActionCollection.get_action`: no entry is a string, so whatever is stored under the command is returned. */
  function GetAction(actions: ActionCollection, action: string): Result<ActionChoice>
  {
    if action in actions then Ok(actions[action]) else Err(InvalidCommand)
  }

  /** `ActionCollection.get_action_with_option`; a plain factory has no `keys()`, which raises. */
  function GetActionWithOption(actions: ActionCollection, action: string, option: string): Result<Modifier>
  {
    if action in actions then
      match actions[action]
      case OptionTable(table) => if option in table then Ok(table[option]) else Err(InvalidOption)
      case Factory(_) => Err(NoOptionTable)
    else Err(InvalidCommand)
  }

  const CommandMajor: string := "major"
  const CommandMinor: string := "minor"
  const CommandMicro: string := "micro"
  const CommandPatch: string := "patch"
  const CommandEpoch: string := "epoch"
  const CommandNoPreRelease: string := "no-pre-release"
  const CommandPreRelease: string := "pre-release"
  const CommandDev: string := "dev"
  const CommandPost: string := "post"

  const OptionAlpha: string := "alpha"
  const OptionBeta: string := "beta"
  const OptionRc: string := "rc"
  const OptionRcAlt: string := "c"

  const CommandNames: set<string> :=
    {CommandMajor, CommandMinor, CommandMicro, CommandPatch, CommandPreRelease,
     CommandNoPreRelease, CommandEpoch, CommandDev, CommandPost}

  const PrereleaseOptions: set<string> := {OptionAlpha, OptionBeta, OptionRc, OptionRcAlt}

  /** `create_actions`. */
  function CreateActions(removeParts: bool, resetVersion: bool, incrementMicro: bool): ActionCollection
  {
    map[
      CommandMajor := Factory(MajorIncrement(removeParts)),
      CommandMinor := Factory(MinorIncrement(removeParts)),
      CommandMicro := Factory(MicroIncrement(removeParts)),
      CommandPatch := Factory(MicroIncrement(removeParts)),
      CommandPreRelease := OptionTable(map[
        OptionAlpha := PreReleaseIncrement(AlphaKind, incrementMicro),
        OptionBeta := PreReleaseIncrement(BetaKind, incrementMicro),
        OptionRc := PreReleaseIncrement(RcKind, incrementMicro),
        OptionRcAlt := PreReleaseIncrement(RcKind, incrementMicro)]),
      CommandNoPreRelease := Factory(Finalizing),
      CommandEpoch := Factory(EpochIncrement(removeParts, resetVersion)),
      CommandDev := Factory(DevIncrement),
      CommandPost := Factory(PostIncrement)]
  }

  lemma CreateActionsTable(removeParts: bool, resetVersion: bool, incrementMicro: bool)
    ensures var actions := CreateActions(removeParts, resetVersion, incrementMicro);
      && actions.Keys == CommandNames
      && actions[CommandPatch] == actions[CommandMicro]
      && actions[CommandPreRelease].OptionTable?
      && actions[CommandPreRelease].options.Keys == PrereleaseOptions
      && actions[CommandPreRelease].options[OptionRcAlt] == actions[CommandPreRelease].options[OptionRc]
      && (forall c :: c in CommandNames && c != CommandPreRelease ==> actions[c].Factory?)
  {
  }

  /** The lookups fail exactly for an unknown command or, under "pre-release", an unknown option. */
  lemma LookupErrors(removeParts: bool, resetVersion: bool, incrementMicro: bool, action: string, option: string)
    ensures var actions := CreateActions(removeParts, resetVersion, incrementMicro);
      && (GetAction(actions, action).Err? <==> action !in CommandNames)
      && (GetAction(actions, action).Err? ==> GetAction(actions, action).error == InvalidCommand)
      && (GetActionWithOption(actions, CommandPreRelease, option).Ok? <==> option in PrereleaseOptions)
      && (option !in PrereleaseOptions ==>
            GetActionWithOption(actions, CommandPreRelease, option) == Err(InvalidOption))
      && (action !in CommandNames ==> GetActionWithOption(actions, action, option) == Err(InvalidCommand))
      && (action in CommandNames && action != CommandPreRelease ==>
            GetActionWithOption(actions, action, option) == Err(NoOptionTable))
  {
    CreateActionsTable(removeParts, resetVersion, incrementMicro);
  }

  /** `create_actions()` with its keyword defaults: remove_parts and reset_version on, increment_micro off. */
  function DefaultActions(): ActionCollection
  {
    CreateActions(true, true, false)
  }

  /**
   * Under the defaults a release bump drops every non-release part, an epoch
   * bump resets the release to (1,), and a pre-release bump keeps the micro part.
   */
  lemma DefaultActionsBehave(v: Version)
    requires |v.release| >= 1
    ensures var actions := DefaultActions();
      && CreateNewVersion(actions[CommandMajor].modifier, v).Ok?
      && CreateNewVersion(actions[CommandMajor].modifier, v).value.IsFinal()
      && CreateNewVersion(actions[CommandEpoch].modifier, v).Ok?
      && CreateNewVersion(actions[CommandEpoch].modifier, v).value.epoch == v.epoch + 1
      && CreateNewVersion(actions[CommandEpoch].modifier, v).value.release == [1]
      && (CreateNewVersion(actions[CommandPreRelease].options[OptionAlpha], v).Ok? ==>
            CreateNewVersion(actions[CommandPreRelease].options[OptionAlpha], v).value.Micro() == v.Micro())
  {
    CreateActionsTable(true, true, false);
    ReleaseBumpSpec(v, 0, true);
    EpochBumpSpec(v, true, true);
    PreReleaseBumpSpec(v, AlphaKind, false);
  }

  /** "patch" bumps exactly like "micro", and option "c" exactly like "rc". */
  lemma AliasesBehaveAlike(removeParts: bool, resetVersion: bool, incrementMicro: bool, v: Version)
    ensures var actions := CreateActions(removeParts, resetVersion, incrementMicro);
      && CreateNewVersion(actions[CommandPatch].modifier, v) == Ok(ReleaseBump(v, 2, removeParts))
      && CreateNewVersion(actions[CommandMicro].modifier, v) == Ok(ReleaseBump(v, 2, removeParts))
      && CreateNewVersion(actions[CommandPreRelease].options[OptionRcAlt], v)
         == PreReleaseBump(v, RcKind, incrementMicro)
  {
    CreateActionsTable(removeParts, resetVersion, incrementMicro);
  }
}
