/**
 * `Pep440VersionFormatter.format` of version.py: the string layout of PEP 440,
 * sections "Public version identifiers" and "Local version identifiers":
 * `N!`, the dotted release, `aN`/`bN`/`rcN`, `.postN`, `.devN`, `+local`.
 */
module Formatter {
  import opened Results
  import opened Versions

  predicate IsDigit(c: char) { '0' <= c <= '9' }

  function DigitChar(d: nat): (c: char)
    requires d < 10
    ensures IsDigit(c)
  {
    (('0' as int) + d) as char
  }

  /** `str(n)` for a non-negative integer: its decimal digits, most significant first. */
  function NatToString(n: nat): (s: string)
    ensures |s| >= 1
    ensures forall i :: 0 <= i < |s| ==> IsDigit(s[i])
    ensures s[0] == '0' <==> n == 0
    ensures |s| > 1 ==> s[0] != '0'
  {
    if n < 10 then [DigitChar(n)] else NatToString(n / 10) + [DigitChar(n % 10)]
  }

  function DigitValue(c: char): nat
    requires IsDigit(c)
  {
    (c as int) - ('0' as int)
  }

  /** The number a string of decimal digits denotes. */
  function DigitsValue(s: string): nat
    requires forall i :: 0 <= i < |s| ==> IsDigit(s[i])
  {
    if |s| == 0 then 0
    else DigitsValue(s[..|s| - 1]) * 10 + DigitValue(s[|s| - 1])
  }

  /** Decimal rendering loses nothing: reading the digits back gives the number. */
  lemma {:induction false} NatToStringRoundTrip(n: nat)
    ensures DigitsValue(NatToString(n)) == n
  {
    if n >= 10 {
      var s := NatToString(n);
      assert s[..|s| - 1] == NatToString(n / 10);
      NatToStringRoundTrip(n / 10);
    }
  }

  /** `".".join(str(part) for part in release)`. */
  function JoinRelease(r: seq<nat>): string
  {
    if |r| == 0 then ""
    else if |r| == 1 then NatToString(r[0])
    else NatToString(r[0]) + "." + JoinRelease(r[1..])
  }

  function PreviewSegment(v: Version): string
  {
    match v.preview
    case Some(p) => p.tag + NatToString(p.number)
    case None => ""
  }

  function PostSegment(v: Version): string
  {
    if v.post.Some? then ".post" + NatToString(v.post.value) else ""
  }

  function DevSegment(v: Version): string
  {
    if v.dev.Some? then ".dev" + NatToString(v.dev.value) else ""
  }

  /** Everything the formatter emits before the local part. */
  function PublicText(v: Version): string
  {
    (if v.epoch > 0 then NatToString(v.epoch) + "!" else "")
    + JoinRelease(v.release) + PreviewSegment(v) + PostSegment(v) + DevSegment(v)
  }

  /** `Pep440VersionFormatter.format`. */
  function Format(v: Version): string
  {
    PublicText(v) + (if v.IsLocalVersion() then "+" + v.local.value else "")
  }

  // ---------------------------------------------------------------------------
  // Characters of the public part

  /** The characters the public part of a formatted version is made of. */
  predicate PublicChar(c: char)
  {
    IsDigit(c) || c == '.' || c == '!' || ('a' <= c <= 'z')
  }

  predicate AllPublic(s: string)
  {
    forall i :: 0 <= i < |s| ==> PublicChar(s[i])
  }

  lemma AllPublicAppend(a: string, b: string)
    requires AllPublic(a) && AllPublic(b)
    ensures AllPublic(a + b)
  {
    forall i | 0 <= i < |a + b| ensures PublicChar((a + b)[i]) {
      if i < |a| { assert (a + b)[i] == a[i]; } else { assert (a + b)[i] == b[i - |a|]; }
    }
  }

  /** Dot-joined release parts consist of digits and dots only. */
  lemma {:induction false} JoinReleaseChars(r: seq<nat>)
    ensures forall i :: 0 <= i < |JoinRelease(r)| ==>
      IsDigit(JoinRelease(r)[i]) || JoinRelease(r)[i] == '.'
  {
    if |r| > 1 {
      JoinReleaseChars(r[1..]);
      var a, t := NatToString(r[0]), JoinRelease(r[1..]);
      assert JoinRelease(r) == a + "." + t;
      forall i | 0 <= i < |JoinRelease(r)|
        ensures IsDigit(JoinRelease(r)[i]) || JoinRelease(r)[i] == '.'
      {
        if i < |a| { assert JoinRelease(r)[i] == a[i]; }
        else if i > |a| { assert JoinRelease(r)[i] == t[i - |a| - 1]; }
      }
    }
  }

  lemma TagsAreLowerCase(v: Version)
    requires ValidVersion(v) && v.preview.Some?
    ensures |v.preview.value.tag| >= 1
    ensures forall i :: 0 <= i < |v.preview.value.tag| ==> 'a' <= v.preview.value.tag[i] <= 'z'
  {
  }

  lemma {:induction false} PublicTextChars(v: Version)
    requires ValidVersion(v)
    ensures AllPublic(PublicText(v))
  {
    var e := if v.epoch > 0 then NatToString(v.epoch) + "!" else "";
    JoinReleaseChars(v.release);
    if v.preview.Some? { TagsAreLowerCase(v); }
    assert AllPublic(e);
    assert AllPublic(JoinRelease(v.release));
    assert AllPublic(PreviewSegment(v));
    assert AllPublic(PostSegment(v));
    assert AllPublic(DevSegment(v));
    AllPublicAppend(e, JoinRelease(v.release));
    AllPublicAppend(e + JoinRelease(v.release), PreviewSegment(v));
    AllPublicAppend(e + JoinRelease(v.release) + PreviewSegment(v), PostSegment(v));
    AllPublicAppend(e + JoinRelease(v.release) + PreviewSegment(v) + PostSegment(v), DevSegment(v));
  }

  // ---------------------------------------------------------------------------
  // The local part is recovered from the text after the first '+'

  /** The text after the first '+', or None when there is none. */
  function LocalOf(s: string): Option<string>
  {
    if |s| == 0 then None
    else if s[0] == '+' then Some(s[1..])
    else LocalOf(s[1..])
  }

  lemma {:induction false} LocalOfSkipsPublic(a: string, b: string)
    requires AllPublic(a)
    ensures LocalOf(a + b) == LocalOf(b)
  {
    if |a| > 0 {
      assert (a + b)[0] == a[0] && PublicChar(a[0]);
      assert (a + b)[1..] == a[1..] + b;
      assert forall i :: 0 <= i < |a[1..]| ==> a[1..][i] == a[i + 1];
      LocalOfSkipsPublic(a[1..], b);
      assert (a + b)[0] != '+';
      assert LocalOf(a + b) == LocalOf((a + b)[1..]);
    } else {
      assert a + b == b;
    }
  }

  /** `format` emits `+local` exactly when the local part exists, and that text is the local part. */
  lemma FormatLocalPart(v: Version)
    requires ValidVersion(v)
    ensures LocalOf(Format(v)) == v.local
    ensures v.local.Some? <==> '+' in Format(v)
  {
    PublicTextChars(v);
    if v.local.Some? {
      LocalOfSkipsPublic(PublicText(v), "+" + v.local.value);
      assert Format(v)[|PublicText(v)|] == '+';
    } else {
      LocalOfSkipsPublic(PublicText(v), "");
      assert Format(v) == PublicText(v);
      assert forall i :: 0 <= i < |Format(v)| ==> PublicChar(Format(v)[i]);
    }
  }

  // ---------------------------------------------------------------------------
  // The epoch prefix

  /** The length of the longest run of digits `s` starts with. */
  function LeadingDigits(s: string): (k: nat)
    ensures k <= |s|
  {
    if |s| == 0 || !IsDigit(s[0]) then 0 else 1 + LeadingDigits(s[1..])
  }

  /** The first character after the leading digits is '!'. */
  predicate StopsAtBang(s: string)
  {
    LeadingDigits(s) < |s| && s[LeadingDigits(s)] == '!'
  }

  /** `s` starts with `N!` for a non-empty run of digits N. */
  predicate HasEpochPrefix(s: string)
  {
    0 < LeadingDigits(s) && StopsAtBang(s)
  }

  lemma {:induction false} LeadingDigitsOverDigits(a: string, b: string)
    requires forall i :: 0 <= i < |a| ==> IsDigit(a[i])
    ensures LeadingDigits(a + b) == |a| + LeadingDigits(b)
  {
    if |a| > 0 {
      assert (a + b)[0] == a[0] && IsDigit(a[0]);
      assert (a + b)[1..] == a[1..] + b;
      assert forall i :: 0 <= i < |a[1..]| ==> a[1..][i] == a[i + 1];
      LeadingDigitsOverDigits(a[1..], b);
      assert LeadingDigits(a + b) == 1 + LeadingDigits((a + b)[1..]);
    } else {
      assert a + b == b;
    }
  }

  /** Digits and dots followed by a text that does not start with a digit or '!' never stop at '!'. */
  lemma {:induction false} NoBangAfterRelease(j: string, t: string)
    requires forall i :: 0 <= i < |j| ==> IsDigit(j[i]) || j[i] == '.'
    requires |t| > 0 ==> !IsDigit(t[0]) && t[0] != '!'
    ensures !StopsAtBang(j + t)
  {
    if |j| > 0 {
      assert (j + t)[0] == j[0];
      if IsDigit(j[0]) {
        assert (j + t)[1..] == j[1..] + t;
        NoBangAfterRelease(j[1..], t);
      }
    } else {
      assert j + t == t;
    }
  }

  /** What follows the release in a formatted version. */
  function AfterRelease(v: Version): string
  {
    PreviewSegment(v) + PostSegment(v) + DevSegment(v)
    + (if v.IsLocalVersion() then "+" + v.local.value else "")
  }

  lemma FormatSplit(v: Version)
    ensures Format(v) == (if v.epoch > 0 then NatToString(v.epoch) + "!" else "")
      + JoinRelease(v.release) + AfterRelease(v)
  {
  }

  lemma AfterReleaseStart(v: Version)
    requires ValidVersion(v)
    ensures |AfterRelease(v)| > 0 ==> !IsDigit(AfterRelease(v)[0]) && AfterRelease(v)[0] != '!'
  {
    var t := AfterRelease(v);
    if v.preview.Some? {
      TagsAreLowerCase(v);
      assert t[0] == v.preview.value.tag[0];
    } else if v.post.Some? {
      assert t[0] == '.';
    } else if v.dev.Some? {
      assert t[0] == '.';
    } else if v.local.Some? {
      assert t[0] == '+';
    }
  }

  /** A non-empty run of digits followed by '!' is an epoch prefix, and the digits are read back whole. */
  lemma DigitsThenBang(n: string, j: string, t: string)
    requires |n| >= 1 && (forall i :: 0 <= i < |n| ==> IsDigit(n[i]))
    ensures HasEpochPrefix(n + "!" + j + t) && (n + "!" + j + t)[..LeadingDigits(n + "!" + j + t)] == n
  {
    var rest := "!" + j + t;
    assert n + "!" + j + t == n + rest;
    LeadingDigitsOverDigits(n, rest);
    assert LeadingDigits(rest) == 0;
    assert (n + rest)[|n|] == rest[0];
  }

  lemma EpochPrefixPositive(v: Version)
    requires v.epoch > 0
    ensures HasEpochPrefix(Format(v))
    ensures Format(v)[..LeadingDigits(Format(v))] == NatToString(v.epoch)
  {
    DigitsThenBang(NatToString(v.epoch), JoinRelease(v.release), AfterRelease(v));
    FormatSplit(v);
  }

  /** Without an epoch, the formatted text is the release followed by what comes after it. */
  lemma NoEpochNoBang(j: string, t: string)
    requires forall i :: 0 <= i < |j| ==> IsDigit(j[i]) || j[i] == '.'
    requires |t| > 0 ==> !IsDigit(t[0]) && t[0] != '!'
    ensures !HasEpochPrefix("" + j + t)
  {
    NoBangAfterRelease(j, t);
    assert "" + j + t == j + t;
  }

  lemma EpochPrefixZero(v: Version)
    requires ValidVersion(v) && v.epoch == 0
    ensures !HasEpochPrefix(Format(v))
  {
    JoinReleaseChars(v.release);
    AfterReleaseStart(v);
    NoEpochNoBang(JoinRelease(v.release), AfterRelease(v));
    FormatSplit(v);
  }

  /** `format` emits the `E!` prefix if and only if the epoch is positive, and then with E the epoch. */
  lemma FormatEpochPrefix(v: Version)
    requires ValidVersion(v)
    ensures HasEpochPrefix(Format(v)) <==> v.epoch > 0
    ensures v.epoch > 0 ==> Format(v)[..LeadingDigits(Format(v))] == NatToString(v.epoch)
  {
    if v.epoch > 0 { EpochPrefixPositive(v); } else { EpochPrefixZero(v); }
  }

  // ---------------------------------------------------------------------------
  // The release part

  /** The '.'-separated fields of a text. */
  function SplitDots(s: string): (fields: seq<string>)
    ensures |fields| >= 1
  {
    if |s| == 0 then [""]
    else if s[0] == '.' then [""] + SplitDots(s[1..])
    else var rest := SplitDots(s[1..]); [[s[0]] + rest[0]] + rest[1..]
  }

  lemma {:induction false} SplitDotsNoDot(a: string, b: string)
    requires forall i :: 0 <= i < |a| ==> a[i] != '.'
    ensures SplitDots(a) == [a]
    ensures SplitDots(a + "." + b) == [a] + SplitDots(b)
  {
    if |a| > 0 {
      assert (a + "." + b)[0] == a[0];
      assert (a + "." + b)[1..] == a[1..] + "." + b;
      SplitDotsNoDot(a[1..], b);
      assert [a[0]] + a[1..] == a;
    } else {
      assert a + "." + b == "." + b;
      assert ("." + b)[1..] == b;
    }
  }

  /** Reads a dot-joined release back: each field's decimal value. */
  function ParseRelease(s: string): seq<nat>
  {
    var fields := SplitDots(s);
    seq(|fields|, i requires 0 <= i < |fields| =>
      if forall k :: 0 <= k < |fields[i]| ==> IsDigit(fields[i][k]) then DigitsValue(fields[i]) else 0)
  }

  lemma {:induction false} ReleaseRoundTrip(r: seq<nat>)
    requires |r| >= 1
    ensures ParseRelease(JoinRelease(r)) == r
  {
    var a := NatToString(r[0]);
    NatToStringRoundTrip(r[0]);
    if |r| == 1 {
      SplitDotsNoDot(a, "");
    } else {
      ReleaseRoundTrip(r[1..]);
      SplitDotsNoDot(a, JoinRelease(r[1..]));
      var fs := SplitDots(JoinRelease(r));
      assert fs == [a] + SplitDots(JoinRelease(r[1..]));
      var p := ParseRelease(JoinRelease(r));
      forall i | 0 <= i < |r| ensures p[i] == r[i] {
        if i > 0 {
          assert fs[i] == SplitDots(JoinRelease(r[1..]))[i - 1];
          assert ParseRelease(JoinRelease(r[1..]))[i - 1] == r[1..][i - 1];
        }
      }
    }
  }

  /** A version with release parts only is formatted as its dot-joined release, which reads back as the release. */
  lemma FormatReleaseOnly(v: Version)
    requires v.epoch == 0 && v.IsFinal() && |v.release| >= 1
    ensures Format(v) == JoinRelease(v.release)
    ensures ParseRelease(Format(v)) == v.release
  {
    ReleaseRoundTrip(v.release);
  }

  lemma FormatExampleRelease()
    ensures Format(Version(0, [1, 2, 3], None, None, None, None)) == "1.2.3"
  {
    assert JoinRelease([3]) == "3";
    assert JoinRelease([2, 3]) == "2.3";
  }

  lemma SmallNumbers()
    ensures NatToString(0) == "0" && NatToString(1) == "1" && NatToString(2) == "2"
    ensures NatToString(3) == "3" && NatToString(4) == "4"
  {
  }

  const FullExample: Version := Version(1, [2, 0], Some(Preview("rc", 1)), Some(3), Some(4), Some("abc"))

  lemma FullExampleSegments()
    ensures JoinRelease(FullExample.release) == "2.0"
    ensures PreviewSegment(FullExample) == "rc1"
    ensures PostSegment(FullExample) == ".post3"
    ensures DevSegment(FullExample) == ".dev4"
  {
    SmallNumbers();
    assert JoinRelease([0]) == "0";
  }

  lemma FormatExampleFull()
    ensures Format(FullExample) == "1!2.0rc1.post3.dev4+abc"
  {
    FullExampleSegments();
    assert NatToString(1) == "1";
    assert PublicText(FullExample) == "1!" + "2.0" + "rc1" + ".post3" + ".dev4";
  }
}
