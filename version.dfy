/**
 * The PEP 440 version record of pdm-bump (`Version` in version.py): an epoch,
 * a release tuple and the optional pre-release, post-release, development and
 * local parts, with the derived accessors and kind predicates.
 */
module Versions {
  import opened Results

  /** A pre-release segment: its tag ("a", "b", "c", "alpha", "beta" or "rc") and number. */
  datatype Preview = Preview(tag: string, number: nat)

  /**
   * The frozen record. The post and dev parts are the pairs ("post", n) and
   * ("dev", n) of the source; their tag is fixed, so only the number is kept.
   */
  datatype Version = Version(
    epoch: nat,
    release: seq<nat>,
    preview: Option<Preview>,
    post: Option<nat>,
    dev: Option<nat>,
    local: Option<string>)
  {
    /** The first release part, 0 when the release tuple is empty. */
    function Major(): (r: nat)
      ensures |release| >= 1 ==> r == release[0]
      ensures |release| < 1 ==> r == 0
    {
      if |release| >= 1 then release[0] else 0
    }

    /** The second release part, 0 when the release tuple is shorter. */
    function Minor(): (r: nat)
      ensures |release| >= 2 ==> r == release[1]
      ensures |release| < 2 ==> r == 0
    {
      if |release| >= 2 then release[1] else 0
    }

    /** The third release part, 0 when the release tuple is shorter. */
    function Micro(): (r: nat)
      ensures |release| >= 3 ==> r == release[2]
      ensures |release| < 3 ==> r == 0
    {
      if |release| >= 3 then release[2] else 0
    }

    predicate IsDevelopmentVersion() { dev.Some? }

    predicate IsPreRelease() { preview.Some? || IsDevelopmentVersion() }

    predicate IsPostRelease() { post.Some? }

    predicate IsLocalVersion() { local.Some? }

    /** Whether a preview exists and its tag is one of `validParts`. */
    predicate ComparePreview(validParts: seq<string>)
    {
      preview.Some? && preview.value.tag in validParts
    }

    predicate IsAlpha() { preview.Some? && ComparePreview(AlphaPart) }

    predicate IsBeta() { preview.Some? && ComparePreview(BetaPart) }

    predicate IsReleaseCandidate() { preview.Some? && ComparePreview(RcPart) }

    /** Neither a pre-release, post-release, development nor local part. */
    predicate IsFinal()
    {
      preview.None? && post.None? && dev.None? && local.None?
    }
  }

  const AlphaPart: seq<string> := ["a", "alpha"]
  const BetaPart: seq<string> := ["b", "beta"]
  const RcPart: seq<string> := ["c", "rc"]

  /** The preview tags the record's type admits. */
  const PreviewTags: seq<string> := AlphaPart + BetaPart + RcPart

  /** A record whose preview tag, if any, is one the type admits. */
  predicate ValidVersion(v: Version)
  {
    v.preview.Some? ==> v.preview.value.tag in PreviewTags
  }

  /** `Version.default()`: 1, with epoch 0 and no optional part. */
  function Default(): (v: Version)
    ensures v.epoch == 0 && v.release == [1]
    ensures v.Major() == 1 && v.Minor() == 0 && v.Micro() == 0
    ensures v.IsFinal() && !v.IsPreRelease() && !v.IsPostRelease() && !v.IsLocalVersion()
    ensures ValidVersion(v)
  {
    Version(0, [1], None, None, None, None)
  }

  /** `r` extended with zeros up to length `n`; unchanged when already that long. */
  function Padded(r: seq<nat>, n: nat): seq<nat>
    decreases n - |r|
  {
    if |r| >= n then r else Padded(r + [0], n)
  }

  lemma {:induction false} PaddedAt(r: seq<nat>, n: nat)
    ensures |Padded(r, n)| == if |r| >= n then |r| else n
    ensures forall k :: 0 <= k < |r| ==> Padded(r, n)[k] == r[k]
    ensures forall k :: |r| <= k < n ==> Padded(r, n)[k] == 0
    decreases n - |r|
  {
    if |r| < n {
      PaddedAt(r + [0], n);
    }
  }

  /** The accessors read the release tuple as if it were padded with zeros to three parts. */
  lemma AccessorsReadPaddedRelease(v: Version)
    ensures |Padded(v.release, 3)| >= 3
    ensures Padded(v.release, 3)[..3] == [v.Major(), v.Minor(), v.Micro()]
  {
    PaddedAt(v.release, 3);
  }

  /**
   * The kind predicates: a pre-release is a preview or a development part;
   * alpha, beta and release candidate are told apart by the preview tag, are
   * mutually exclusive, and together cover every admitted preview.
   */
  lemma PreviewKinds(v: Version)
    ensures v.IsPreRelease() <==> v.preview.Some? || v.dev.Some?
    ensures v.IsAlpha() <==> v.preview.Some? && v.preview.value.tag in {"a", "alpha"}
    ensures v.IsBeta() <==> v.preview.Some? && v.preview.value.tag in {"b", "beta"}
    ensures v.IsReleaseCandidate() <==> v.preview.Some? && v.preview.value.tag in {"c", "rc"}
    ensures !(v.IsAlpha() && v.IsBeta()) && !(v.IsAlpha() && v.IsReleaseCandidate())
    ensures !(v.IsBeta() && v.IsReleaseCandidate())
    ensures ValidVersion(v) ==>
      (v.preview.Some? <==> v.IsAlpha() || v.IsBeta() || v.IsReleaseCandidate())
  {
  }
}
