/**
 Semantic versions: parsing a tag, the order of section 11 of Semantic Versioning 2.0.0 as the trigger
 package computes it, and the version constraints built on it.
 */
module Semver {
  import opened Wrappers
  import opened Text

  const TWO_64: nat := 0x1_0000_0000_0000_0000

  /** Build metadata takes no part in ordering and is discarded. */
  datatype Version = Version(major: nat, minor: nat, patch: nat, pre: seq<string>)

  // ----- identifiers -----

  predicate IsIdChar(c: char) {
    IsDigit(c) || 'a' <= c <= 'z' || 'A' <= c <= 'Z' || c == '-'
  }

  /** A dot-separated identifier: not empty, ASCII alphanumerics and hyphens. */
  predicate IsId(s: string) {
    s != "" && forall i :: 0 <= i < |s| ==> IsIdChar(s[i])
  }

  /** A prerelease identifier made of digits has no leading zero. */
  predicate IsPreId(s: string) {
    IsId(s) && (AllDigits(s) ==> IsNumeral(s))
  }

  predicate ValidParts(parts: seq<string>, prerelease: bool) {
    forall i :: 0 <= i < |parts| ==> if prerelease then IsPreId(parts[i]) else IsId(parts[i])
  }

  /** parseNumericID: a numeral that fits 64 bits. */
  function NumericId(s: string): Option<nat> {
    if IsNumeral(s) && ValueOf(s) < TWO_64 then Some(ValueOf(s)) else None
  }

  method ParseNumericId(s: string) returns (n: Option<nat>)
    ensures n == NumericId(s)
  {
    if s == "" || (|s| > 1 && s[0] == '0') { return None; }
    for i := 0 to |s|
      invariant forall j :: 0 <= j < i ==> IsDigit(s[j])
    {
      if s[i] < '0' || s[i] > '9' { return None; }
    }
    n := if ValueOf(s) < TWO_64 then Some(ValueOf(s)) else None;
  }

  method ValidDotSeparated(s: string, prerelease: bool) returns (ok: bool)
    ensures ok <==> ValidDotted(s, prerelease)
  {
    if s == "" { return false; }
    var parts := Split(s, '.');
    for k := 0 to |parts|
      invariant ValidParts(parts[..k], prerelease)
    {
      var id := parts[k];
      if id == "" { return false; }
      var numeric := true;
      for i := 0 to |id|
        invariant forall j :: 0 <= j < i ==> IsIdChar(id[j])
        invariant numeric <==> forall j :: 0 <= j < i ==> IsDigit(id[j])
      {
        var c := id[i];
        if IsDigit(c) {
        } else if 'a' <= c <= 'z' || 'A' <= c <= 'Z' || c == '-' {
          numeric := false;
        } else {
          return false;
        }
      }
      if prerelease && numeric && |id| > 1 && id[0] == '0' { return false; }
    }
    ok := true;
  }

  // ----- parsing -----

  /** The text before the first c, and the text after it if there is one. */
  function CutAt(s: string, c: char): (r: (string, Option<string>))
    ensures c !in r.0
    ensures s == r.0 + (if r.1.Some? then [c] + r.1.value else "")
  {
    if s == "" then ("", None)
    else if s[0] == c then ("", Some(s[1..]))
    else
      var (head, tail) := CutAt(s[1..], c);
      ([s[0]] + head, tail)
  }

  function ParseCore(core: string, pre: seq<string>): Option<Version> {
    var parts := Split(core, '.');
    if |parts| != 3 then None
    else
      match (NumericId(parts[0]), NumericId(parts[1]), NumericId(parts[2]))
      case (Some(a), Some(b), Some(c)) => Some(Version(a, b, c, pre))
      case _ => None
  }

  predicate ValidDotted(s: string, prerelease: bool) {
    s != "" && ValidParts(Split(s, '.'), prerelease)
  }

  /** The core and the prerelease, build metadata gone. */
  function ParsePre(s: string): Option<Version> {
    var (core, pre) := CutAt(s, '-');
    match pre
    case None => ParseCore(core, [])
    case Some(p) => if ValidDotted(p, true) then ParseCore(core, Split(p, '.')) else None
  }

  /** Build metadata first: it may itself contain a hyphen. */
  function ParseBare(s: string): Option<Version> {
    var (rest, build) := CutAt(s, '+');
    if build.Some? && !ValidDotted(build.value, false) then None else ParsePre(rest)
  }

  /** parseVersion: a tag read as a version, or not a version at all. */
  function ParseVersion(tag: string): Option<Version> {
    var t := Trim(tag);
    if t == "" then None
    else ParseBare(if t[0] == 'v' || t[0] == 'V' then t[1..] else t)
  }

  /** parseVersion as it runs, on the checks above. */
  method ParseTag(tag: string) returns (v: Option<Version>)
    ensures v == ParseVersion(tag)
  {
    var s := Trim(tag);
    if s == "" { return None; }
    if s[0] == 'v' || s[0] == 'V' { s := s[1..]; }
    var (rest, build) := CutAt(s, '+');
    if build.Some? {
      var ok := ValidDotSeparated(build.value, false);
      if !ok { return None; }
    }
    var (core, pre) := CutAt(rest, '-');
    var ids: seq<string> := [];
    if pre.Some? {
      var ok := ValidDotSeparated(pre.value, true);
      if !ok { return None; }
      ids := Split(pre.value, '.');
    }
    v := ParseNumbers(core, ids);
  }

  /** The loop over the three numbers. */
  method ParseNumbers(core: string, pre: seq<string>) returns (v: Option<Version>)
    ensures v == ParseCore(core, pre)
  {
    var parts := Split(core, '.');
    if |parts| != 3 { return None; }
    var nums: seq<nat> := [];
    for i := 0 to 3
      invariant |nums| == i && forall j :: 0 <= j < i ==> NumericId(parts[j]) == Some(nums[j])
    {
      var n := ParseNumericId(parts[i]);
      if n.None? { return None; }
      nums := nums + [n.value];
    }
    v := Some(Version(nums[0], nums[1], nums[2], pre));
  }

  predicate WellFormed(v: Version) {
    v.major < TWO_64 && v.minor < TWO_64 && v.patch < TWO_64 && forall i :: 0 <= i < |v.pre| ==> IsPreId(v.pre[i])
  }

  lemma ParsedWellFormed(tag: string)
    requires ParseVersion(tag).Some?
    ensures WellFormed(ParseVersion(tag).value)
  {
    var t := Trim(tag);
    var bare := if t[0] == 'v' || t[0] == 'V' then t[1..] else t;
    PreWellFormed(CutAt(bare, '+').0);
  }

  lemma PreWellFormed(s: string)
    requires ParsePre(s).Some?
    ensures WellFormed(ParsePre(s).value)
  {
  }

  // ----- rendering, the inverse -----

  function Render(v: Version): string {
    if v.pre == [] then Core(v) else Core(v) + "-" + Join(v.pre, '.')
  }

  lemma {:induction false} CutNowhere(s: string, c: char)
    requires c !in s
    ensures CutAt(s, c) == (s, None)
  {
    if s != "" {
      CutNowhere(s[1..], c);
      assert [s[0]] + s[1..] == s;
    }
  }

  lemma CutPastFirst(s: string, c: char, head: string, tail: string)
    requires s != "" && s[0] != c && CutAt(s[1..], c) == (head, Some(tail))
    ensures CutAt(s, c) == ([s[0]] + head, Some(tail))
  {
  }

  lemma {:induction false} CutAtFirst(head: string, c: char, tail: string)
    requires c !in head
    ensures CutAt(head + [c] + tail, c) == (head, Some(tail))
  {
    var s := head + [c] + tail;
    if head == "" {
      assert s[1..] == tail;
    } else {
      CutAtFirst(head[1..], c, tail);
      assert s[1..] == head[1..] + [c] + tail;
      CutPastFirst(s, c, head[1..], tail);
      assert [head[0]] + head[1..] == head;
    }
  }

  /** Only the characters of a rendered version. */
  predicate Plain(s: string) {
    forall i :: 0 <= i < |s| ==> IsIdChar(s[i]) || s[i] == '.'
  }

  lemma PlainHasNone(s: string, c: char)
    requires Plain(s) && !IsIdChar(c) && c != '.'
    ensures c !in s
  {
  }

  lemma DigitsHaveNone(s: string, c: char)
    requires AllDigits(s) && !IsDigit(c)
    ensures c !in s
  {
  }

  lemma {:induction false} JoinedPlain(ids: seq<string>)
    requires PreIds(ids)
    ensures Plain(Join(ids, '.')) && (ids != [] ==> Join(ids, '.') != "")
  {
    if |ids| > 1 { JoinedPlain(ids[1..]); }
  }

  function Core(v: Version): string {
    Join([Numeral(v.major), Numeral(v.minor), Numeral(v.patch)], '.')
  }

  lemma NumeralHasNone(n: nat)
    ensures '.' !in Numeral(n) && '-' !in Numeral(n)
  {
    DigitsHaveNone(Numeral(n), '.');
    DigitsHaveNone(Numeral(n), '-');
  }

  lemma CoreParses(v: Version)
    requires WellFormed(v)
    ensures ParseCore(Core(v), v.pre) == Some(v)
  {
    var a, b, c := Numeral(v.major), Numeral(v.minor), Numeral(v.patch);
    NumeralHasNone(v.major);
    NumeralHasNone(v.minor);
    NumeralHasNone(v.patch);
    SplitJoin([a, b, c], '.');
  }

  lemma CorePlain(v: Version)
    ensures '-' !in Core(v) && Core(v) != "" && IsDigit(Core(v)[0]) && Plain(Core(v))
  {
    CoreText(v);
    NumeralHasNone(v.major);
    NumeralHasNone(v.minor);
    NumeralHasNone(v.patch);
  }

  lemma CoreText(v: Version)
    ensures Core(v) == Numeral(v.major) + "." + (Numeral(v.minor) + "." + Numeral(v.patch))
  {
    var parts := [Numeral(v.major), Numeral(v.minor), Numeral(v.patch)];
    var b, c := Numeral(v.minor), Numeral(v.patch);
    assert parts[1..] == [b, c] && [b, c][1..] == [c];
    assert Join([c], '.') == c;
    assert Join([b, c], '.') == b + "." + c;
  }

  lemma TrimPlain(s: string)
    requires s != "" && Plain(s)
    ensures Trim(s) == s
  {
    assert !IsBlank(s[0]) && !IsBlank(s[|s| - 1]);
  }

  lemma PreParses(v: Version)
    requires WellFormed(v)
    ensures ParsePre(Render(v)) == Some(v)
  {
    CoreParses(v);
    CorePlain(v);
    if v.pre == [] {
      CutNowhere(Core(v), '-');
    } else {
      var p := Join(v.pre, '.');
      CutAtFirst(Core(v), '-', p);
      JoinedPlain(v.pre);
      forall id | id in v.pre ensures '.' !in id {
        var i :| 0 <= i < |v.pre| && v.pre[i] == id;
        assert IsPreId(v.pre[i]);
      }
      SplitJoin(v.pre, '.');
    }
  }

  lemma RenderedPlain(v: Version)
    requires WellFormed(v)
    ensures Render(v) != "" && IsDigit(Render(v)[0]) && Plain(Render(v))
  {
    CorePlain(v);
    JoinedPlain(v.pre);
  }

  /** A plain text that starts with a digit is a tag with nothing to strip, or just the v. */
  lemma PlainTag(s: string)
    requires s != "" && IsDigit(s[0]) && Plain(s)
    ensures ParseVersion(s) == ParsePre(s) && ParseVersion("v" + s) == ParsePre(s)
  {
    PlainHasNone(s, '+');
    CutNowhere(s, '+');
    TrimPlain(s);
    TrimPlain("v" + s);
    assert ("v" + s)[1..] == s;
  }

  /** A rendered version, with or without the leading v, reads back as itself. */
  lemma ParseRendered(v: Version)
    requires WellFormed(v)
    ensures ParseVersion(Render(v)) == Some(v) && ParseVersion("v" + Render(v)) == Some(v)
  {
    RenderedPlain(v);
    PreParses(v);
    PlainTag(Render(v));
  }

  // ----- exactly what is accepted -----

  /** A version as a tag may write it: with build metadata or without. */
  ghost predicate Writes(s: string, v: Version) {
    s == Render(v) || exists build :: ValidDotted(build, false) && s == Render(v) + "+" + build
  }

  function WithoutV(t: string): string {
    if t != "" && (t[0] == 'v' || t[0] == 'V') then t[1..] else t
  }

  lemma NumericIdText(s: string, n: nat)
    requires NumericId(s) == Some(n)
    ensures s == Numeral(n)
  {
    NumeralOfValue(s);
  }

  lemma CoreRendered(core: string, v: Version)
    requires ParseCore(core, v.pre) == Some(v)
    ensures core == Core(v)
  {
    var parts := Split(core, '.');
    NumericIdText(parts[0], v.major);
    NumericIdText(parts[1], v.minor);
    NumericIdText(parts[2], v.patch);
    assert parts == [Numeral(v.major), Numeral(v.minor), Numeral(v.patch)];
    JoinSplit(core, '.');
  }

  lemma PreRendered(s: string, v: Version)
    requires ParsePre(s) == Some(v)
    ensures s == Render(v)
  {
    var (core, pre) := CutAt(s, '-');
    CoreRendered(core, v);
    if pre.Some? { JoinSplit(pre.value, '.'); }
  }

  lemma BareRendered(s: string, v: Version)
    requires ParseBare(s) == Some(v)
    ensures WellFormed(v) && Writes(s, v)
  {
    var (rest, build) := CutAt(s, '+');
    PreRendered(rest, v);
    PreWellFormed(rest);
    if build.Some? { assert ValidDotted(build.value, false) && s == Render(v) + "+" + build.value; }
  }

  lemma BuildIgnored(v: Version, build: string)
    requires WellFormed(v) && ValidDotted(build, false)
    ensures ParseBare(Render(v) + "+" + build) == Some(v)
  {
    RenderedPlain(v);
    PlainHasNone(Render(v), '+');
    CutAtFirst(Render(v), '+', build);
    PreParses(v);
  }

  lemma BareParses(v: Version)
    requires WellFormed(v)
    ensures ParseBare(Render(v)) == Some(v)
  {
    RenderedPlain(v);
    PlainHasNone(Render(v), '+');
    CutNowhere(Render(v), '+');
    PreParses(v);
  }

  lemma BareExactly(s: string, v: Version)
    ensures ParseBare(s) == Some(v) <==> WellFormed(v) && Writes(s, v)
  {
    if ParseBare(s) == Some(v) { BareRendered(s, v); }
    if WellFormed(v) && Writes(s, v) {
      if s == Render(v) {
        BareParses(v);
      } else {
        var b :| ValidDotted(b, false) && s == Render(v) + "+" + b;
        BuildIgnored(v, b);
      }
    }
  }

  /** A tag is a version exactly when, trimmed and without its v, it is the version written out, build metadata aside. */
  lemma AcceptedExactly(tag: string, v: Version)
    ensures ParseVersion(tag) == Some(v) <==> WellFormed(v) && Writes(WithoutV(Trim(tag)), v)
  {
    BareExactly(WithoutV(Trim(tag)), v);
    if WellFormed(v) && Writes(WithoutV(Trim(tag)), v) { RenderedPlain(v); }
  }

  // ----- order -----

  function ComparePreId(a: string, b: string): int {
    match (NumericId(a), NumericId(b))
    case (Some(m), Some(n)) => CompareInt(m, n)
    case (Some(_), None) => -1
    case (None, Some(_)) => 1
    case (None, None) => CompareText(a, b)
  }

  function CompareIds(a: seq<string>, b: seq<string>): int {
    if a == [] || b == [] then CompareInt(|a|, |b|)
    else if ComparePreId(a[0], b[0]) != 0 then ComparePreId(a[0], b[0])
    else CompareIds(a[1..], b[1..])
  }

  /** A release is above any prerelease of the same version. */
  function ComparePre(a: seq<string>, b: seq<string>): int {
    if a == [] && b == [] then 0
    else if a == [] then 1
    else if b == [] then -1
    else CompareIds(a, b)
  }

  function Compare(a: Version, b: Version): int {
    if a.major != b.major then CompareInt(a.major, b.major)
    else if a.minor != b.minor then CompareInt(a.minor, b.minor)
    else if a.patch != b.patch then CompareInt(a.patch, b.patch)
    else ComparePre(a.pre, b.pre)
  }

  /** comparePre as it runs: identifier by identifier, then by length. */
  method ComparePreLoop(a: seq<string>, b: seq<string>) returns (c: int)
    ensures c == ComparePre(a, b)
  {
    if a == [] && b == [] { return 0; }
    if a == [] { return 1; }
    if b == [] { return -1; }
    var i := 0;
    while i < |a| && i < |b|
      invariant i <= |a| && i <= |b|
      invariant CompareIds(a, b) == CompareIds(a[i..], b[i..])
    {
      c := ComparePreId(a[i], b[i]);
      if c != 0 { return; }
      assert a[i..][1..] == a[i + 1..] && b[i..][1..] == b[i + 1..];
      i := i + 1;
    }
    c := CompareInt(|a|, |b|);
  }

  // ----- the order is total -----

  lemma PreIdOrder(a: string, b: string)
    requires IsPreId(a) && IsPreId(b)
    ensures ComparePreId(a, b) == -ComparePreId(b, a) && -1 <= ComparePreId(a, b) <= 1
    ensures ComparePreId(a, b) == 0 <==> a == b
  {
    TextOrder(a, b);
    if NumericId(a).Some? && NumericId(b).Some? {
      NumeralOfValue(a);
      NumeralOfValue(b);
    }
  }

  lemma PreIdTransitive(a: string, b: string, c: string)
    requires ComparePreId(a, b) <= 0 && ComparePreId(b, c) <= 0
    ensures ComparePreId(a, c) <= 0
  {
    if NumericId(a).None? && NumericId(b).None? && NumericId(c).None? { TextTransitive(a, b, c); }
  }

  predicate PreIds(ids: seq<string>) {
    forall i :: 0 <= i < |ids| ==> IsPreId(ids[i])
  }

  lemma {:induction false} IdsOrder(a: seq<string>, b: seq<string>)
    requires PreIds(a) && PreIds(b)
    ensures CompareIds(a, b) == -CompareIds(b, a) && -1 <= CompareIds(a, b) <= 1
    ensures CompareIds(a, b) == 0 <==> a == b
  {
    if a != [] && b != [] {
      PreIdOrder(a[0], b[0]);
      IdsOrder(a[1..], b[1..]);
      assert a == [a[0]] + a[1..] && b == [b[0]] + b[1..];
    }
  }

  lemma {:induction false} IdsTransitive(a: seq<string>, b: seq<string>, c: seq<string>)
    requires PreIds(a) && PreIds(b) && PreIds(c)
    requires CompareIds(a, b) <= 0 && CompareIds(b, c) <= 0
    ensures CompareIds(a, c) <= 0
  {
    if a != [] && b != [] && c != [] {
      PreIdOrder(a[0], b[0]);
      PreIdOrder(b[0], c[0]);
      PreIdOrder(a[0], c[0]);
      PreIdTransitive(a[0], b[0], c[0]);
      if a[0] == b[0] && b[0] == c[0] { IdsTransitive(a[1..], b[1..], c[1..]); }
    }
  }

  /** Comparison is antisymmetric, and zero exactly on equal versions. */
  lemma CompareOrder(a: Version, b: Version)
    requires WellFormed(a) && WellFormed(b)
    ensures Compare(a, b) == -Compare(b, a) && -1 <= Compare(a, b) <= 1
    ensures Compare(a, b) == 0 <==> a == b
  {
    IdsOrder(a.pre, b.pre);
  }

  lemma CompareTransitive(a: Version, b: Version, c: Version)
    requires WellFormed(a) && WellFormed(b) && WellFormed(c)
    requires Compare(a, b) <= 0 && Compare(b, c) <= 0
    ensures Compare(a, c) <= 0
  {
    if a.pre != [] && b.pre != [] && c.pre != [] && CompareIds(a.pre, b.pre) <= 0 && CompareIds(b.pre, c.pre) <= 0 {
      IdsTransitive(a.pre, b.pre, c.pre);
    }
  }

  // ----- agreement with section 11 -----

  /** Section 11.4: numeric identifiers numerically, below alphanumeric ones, which compare by ASCII. */
  function SpecPreId(a: string, b: string): int {
    if AllDigits(a) && AllDigits(b) then CompareInt(ValueOf(a), ValueOf(b))
    else if AllDigits(a) then -1
    else if AllDigits(b) then 1
    else CompareText(a, b)
  }

  function SpecIds(a: seq<string>, b: seq<string>): int {
    if a == [] || b == [] then CompareInt(|a|, |b|)
    else if SpecPreId(a[0], b[0]) != 0 then SpecPreId(a[0], b[0])
    else SpecIds(a[1..], b[1..])
  }

  /** Section 11.2 and 11.3: major, minor, patch numerically, and a prerelease below its release. */
  function SpecCompare(a: Version, b: Version): int {
    if (a.major, a.minor, a.patch) == (b.major, b.minor, b.patch) then
      if a.pre == [] && b.pre == [] then 0
      else if a.pre == [] then 1
      else if b.pre == [] then -1
      else SpecIds(a.pre, b.pre)
    else if a.major < b.major || (a.major == b.major && (a.minor < b.minor || (a.minor == b.minor && a.patch < b.patch)))
    then -1 else 1
  }

  /** A numeric identifier too big for 64 bits, which the code compares as text. */
  predicate Oversized(id: string) {
    AllDigits(id) && ValueOf(id) >= TWO_64
  }

  lemma PreIdAgrees(a: string, b: string)
    requires IsPreId(a) && IsPreId(b) && !Oversized(a) && !Oversized(b)
    ensures ComparePreId(a, b) == SpecPreId(a, b)
  {
  }

  lemma {:induction false} IdsAgree(a: seq<string>, b: seq<string>)
    requires PreIds(a) && PreIds(b)
    requires (forall i :: 0 <= i < |a| ==> !Oversized(a[i])) && (forall i :: 0 <= i < |b| ==> !Oversized(b[i]))
    ensures CompareIds(a, b) == SpecIds(a, b)
  {
    if a != [] && b != [] {
      PreIdAgrees(a[0], b[0]);
      IdsAgree(a[1..], b[1..]);
    }
  }

  /** On versions whose numeric identifiers fit 64 bits the order is the standard's. */
  lemma CompareAgrees(a: Version, b: Version)
    requires WellFormed(a) && WellFormed(b)
    requires (forall i :: 0 <= i < |a.pre| ==> !Oversized(a.pre[i])) && (forall i :: 0 <= i < |b.pre| ==> !Oversized(b.pre[i]))
    ensures Compare(a, b) == SpecCompare(a, b)
  {
    IdsAgree(a.pre, b.pre);
  }

  /**
   And only then: an identifier is ordered as the standard says against every identifier of ordinary size
   exactly when it is itself of ordinary size. An oversized one is misplaced against "-".
   */
  lemma AgreesExactlyWhen(a: string)
    requires IsPreId(a)
    ensures (forall b :: IsPreId(b) && !Oversized(b) ==> ComparePreId(a, b) == SpecPreId(a, b)) <==> !Oversized(a)
  {
    if Oversized(a) {
      var b := "-";
      assert IsPreId(b) && !AllDigits(b) by { assert !IsDigit(b[0]); }
      assert IsDigit(a[0]);
      assert ComparePreId(a, b) == 1 && SpecPreId(a, b) == -1;
    } else {
      forall b | IsPreId(b) && !Oversized(b) ensures ComparePreId(a, b) == SpecPreId(a, b) { PreIdAgrees(a, b); }
    }
  }

  /** Two different identifiers the code puts in the other order than the standard; one of them is oversized. */
  predicate Misordered(a: string, b: string) {
    || (Oversized(a) && Oversized(b) && CompareText(a, b) != CompareInt(ValueOf(a), ValueOf(b)))
    || (Oversized(a) && !AllDigits(b) && CompareText(a, b) > 0)
    || (Oversized(b) && !AllDigits(a) && CompareText(a, b) < 0)
  }

  /** The first position at which both lists have an identifier and they differ. */
  function FirstDifference(a: seq<string>, b: seq<string>): Option<(string, string)> {
    if a == [] || b == [] then None
    else if a[0] != b[0] then Some((a[0], b[0]))
    else FirstDifference(a[1..], b[1..])
  }

  lemma NumeralUnique(a: string, b: string)
    requires IsNumeral(a) && IsNumeral(b) && ValueOf(a) == ValueOf(b)
    ensures a == b
  {
    NumeralOfValue(a);
    NumeralOfValue(b);
  }

  lemma SpecPreIdEqual(a: string, b: string)
    requires IsPreId(a) && IsPreId(b)
    ensures SpecPreId(a, b) == 0 <==> a == b
  {
    TextOrder(a, b);
    if AllDigits(a) && AllDigits(b) && ValueOf(a) == ValueOf(b) { NumeralUnique(a, b); }
  }

  lemma PreIdAgreesExactlyWhen(a: string, b: string)
    requires IsPreId(a) && IsPreId(b) && a != b
    ensures ComparePreId(a, b) == SpecPreId(a, b) <==> !Misordered(a, b)
  {
    TextOrder(a, b);
  }

  lemma {:induction false} IdsAgreeExactlyWhen(a: seq<string>, b: seq<string>)
    requires PreIds(a) && PreIds(b)
    ensures CompareIds(a, b) == SpecIds(a, b) <==>
            var d := FirstDifference(a, b); d.Some? ==> !Misordered(d.value.0, d.value.1)
  {
    if a != [] && b != [] {
      PreIdOrder(a[0], b[0]);
      SpecPreIdEqual(a[0], b[0]);
      if a[0] == b[0] {
        IdsAgreeExactlyWhen(a[1..], b[1..]);
      } else {
        PreIdAgreesExactlyWhen(a[0], b[0]);
      }
    }
  }

  /**
   The order of two versions is the standard's exactly when they differ in a number, one is a release, or the
   first identifiers in which their prereleases differ are not misordered.
   */
  lemma CompareAgreesExactlyWhen(a: Version, b: Version)
    requires WellFormed(a) && WellFormed(b)
    ensures Compare(a, b) == SpecCompare(a, b) <==>
            || (a.major, a.minor, a.patch) != (b.major, b.minor, b.patch)
            || a.pre == [] || b.pre == []
            || var d := FirstDifference(a.pre, b.pre); d.Some? ==> !Misordered(d.value.0, d.value.1)
  {
    IdsAgreeExactlyWhen(a.pre, b.pre);
  }

  function Repeat(c: char, n: nat): string {
    if n == 0 then "" else Repeat(c, n - 1) + [c]
  }

  function PowerOfTen(n: nat): nat {
    if n == 0 then 1 else 10 * PowerOfTen(n - 1)
  }

  lemma {:induction false} NinesValue(n: nat)
    ensures var s := Repeat('9', n); |s| == n && AllDigits(s) && ValueOf(s) + 1 == PowerOfTen(n) && (n > 0 ==> s[0] == '9')
  {
    if n > 0 {
      NinesValue(n - 1);
      var s := Repeat('9', n);
      assert s[..n - 1] == Repeat('9', n - 1);
    }
  }

  lemma {:induction false} PowerValue(n: nat)
    ensures var s := "1" + Repeat('0', n); |s| == n + 1 && AllDigits(s) && ValueOf(s) == PowerOfTen(n) && s[0] == '1'
  {
    var s := "1" + Repeat('0', n);
    if n == 0 {
      assert s[..0] == "";
    } else {
      PowerValue(n - 1);
      assert s[..n] == "1" + Repeat('0', n - 1);
    }
  }

  lemma TenToTwenty()
    ensures PowerOfTen(20) > TWO_64 + 1
  {
    assert PowerOfTen(4) == 10_000;
    assert PowerOfTen(8) == 100_000_000;
    assert PowerOfTen(12) == 1_000_000_000_000;
    assert PowerOfTen(16) == 10_000_000_000_000_000;
    assert PowerOfTen(20) == 100_000_000_000_000_000_000;
  }

  /** Twenty nines come before ten to the twentieth in the standard, and after it in the code. */
  lemma LargeNumbersMisordered()
    ensures var a, b := Version(1, 0, 0, [Repeat('9', 20)]), Version(1, 0, 0, ["1" + Repeat('0', 20)]);
            WellFormed(a) && WellFormed(b) && Compare(a, b) == 1 && SpecCompare(a, b) == -1
  {
    var nines, power := Repeat('9', 20), "1" + Repeat('0', 20);
    NinesValue(20);
    PowerValue(20);
    TenToTwenty();
    assert IsPreId(nines) && IsPreId(power);
    assert CompareText(nines, power) == 1;
    var a, b := Version(1, 0, 0, [nines]), Version(1, 0, 0, [power]);
    assert CompareIds(a.pre, b.pre) == ComparePreId(nines, power) == 1;
    assert SpecIds(a.pre, b.pre) == SpecPreId(nines, power) == -1;
  }

  // ----- constraints -----

  datatype Op = Ge | Le | Gt | Lt | Ne | Eq

  datatype Constraint = Constraint(op: Op, v: Version)

  predicate Satisfied(c: Constraint, v: Version) {
    var cmp := Compare(v, c.v);
    match c.op
    case Ge => cmp >= 0
    case Le => cmp <= 0
    case Gt => cmp > 0
    case Lt => cmp < 0
    case Ne => cmp != 0
    case Eq => cmp == 0
  }

  /** All comparisons are ANDed. */
  predicate Accepts(cs: seq<Constraint>, v: Version) {
    forall i :: 0 <= i < |cs| ==> Satisfied(cs[i], v)
  }

  predicate Sound(cs: seq<Constraint>) {
    forall i :: 0 <= i < |cs| ==> WellFormed(cs[i].v)
  }

  lemma SatisfiedConvex(c: Constraint, lo: Version, v: Version, hi: Version)
    requires WellFormed(c.v) && WellFormed(lo) && WellFormed(v) && WellFormed(hi) && c.op != Ne
    requires Compare(lo, v) <= 0 && Compare(v, hi) <= 0 && Satisfied(c, lo) && Satisfied(c, hi)
    ensures Satisfied(c, v)
  {
    CompareOrder(lo, c.v);
    CompareOrder(hi, c.v);
    CompareOrder(v, c.v);
    CompareOrder(lo, v);
    CompareOrder(v, hi);
    if Compare(lo, c.v) >= 0 {
      CompareTransitive(c.v, lo, v);
    }
    if Compare(hi, c.v) <= 0 {
      CompareTransitive(v, hi, c.v);
    }
  }

  /** Without != a constraint list accepts an interval: whatever lies between two accepted versions. */
  lemma AcceptsConvex(cs: seq<Constraint>, lo: Version, v: Version, hi: Version)
    requires Sound(cs) && WellFormed(lo) && WellFormed(v) && WellFormed(hi)
    requires forall i :: 0 <= i < |cs| ==> cs[i].op != Ne
    requires Compare(lo, v) <= 0 && Compare(v, hi) <= 0 && Accepts(cs, lo) && Accepts(cs, hi)
    ensures Accepts(cs, v)
  {
    forall i | 0 <= i < |cs| ensures Satisfied(cs[i], v) { SatisfiedConvex(cs[i], lo, v, hi); }
  }

  /** The order and repetition of the comparisons do not matter. */
  lemma AcceptsUnordered(cs: seq<Constraint>, ds: seq<Constraint>, v: Version)
    requires forall c :: c in cs <==> c in ds
    ensures Accepts(cs, v) <==> Accepts(ds, v)
  {
    if Accepts(cs, v) {
      forall i | 0 <= i < |ds| ensures Satisfied(ds[i], v) { assert ds[i] in cs; }
    }
    if Accepts(ds, v) {
      forall i | 0 <= i < |cs| ensures Satisfied(cs[i], v) { assert cs[i] in ds; }
    }
  }

  function OpText(op: Op): string {
    match op
    case Ge => ">="
    case Le => "<="
    case Gt => ">"
    case Lt => "<"
    case Ne => "!="
    case Eq => "="
  }

  /** The operator a field starts with and the text after it; a bare version means equality. */
  function SplitOp(f: string): (Op, string) {
    if Starts(f, '>', '=') then (Ge, f[2..])
    else if Starts(f, '<', '=') then (Le, f[2..])
    else if Starts(f, '=', '=') then (Eq, f[2..])
    else if Starts(f, '!', '=') then (Ne, f[2..])
    else if f != "" && f[0] == '>' then (Gt, f[1..])
    else if f != "" && f[0] == '<' then (Lt, f[1..])
    else if f != "" && f[0] == '=' then (Eq, f[1..])
    else (Eq, f)
  }

  predicate Starts(f: string, a: char, b: char) {
    |f| >= 2 && f[0] == a && f[1] == b
  }

  predicate IsSeparator(c: char) {
    c == ',' || c == ' ' || c == '\t' || c == '\n'
  }

  /** strings.FieldsFunc: the maximal runs without a separator. */
  function Fields(s: string): seq<string> {
    if s == "" then []
    else if IsSeparator(s[0]) then Fields(s[1..])
    else if |s| == 1 || IsSeparator(s[1]) then [[s[0]]] + Fields(s[1..])
    else
      var rest := Fields(s[1..]);
      if rest == [] then [[s[0]]] else [[s[0]] + rest[0]] + rest[1..]
  }

  function ParseConstraint(f: string): Option<Constraint> {
    var (op, rest) := SplitOp(f);
    match ParseVersion(Trim(rest))
    case Some(v) => Some(Constraint(op, v))
    case None => None
  }

  datatype ConstraintError = NoConstraint | NotAVersion(field: string)

  method ParseField(f: string) returns (c: Result<Constraint, ConstraintError>)
    ensures ParseConstraint(f) == if c.Ok? then Some(c.value) else None
    ensures c.Ok? ==> WellFormed(c.value.v)
  {
    var (op, rest) := SplitOp(f);
    var v := ParseTag(Trim(rest));
    if v.None? { return Err(NotAVersion(rest)); }
    ParsedWellFormed(Trim(rest));
    return Ok(Constraint(op, v.value));
  }

  /** The comparisons the fields write, in order. */
  predicate Written(fields: seq<string>, cs: seq<Constraint>) {
    |cs| == |fields| && forall i :: 0 <= i < |cs| ==> Reads(fields[i], cs[i])
  }

  predicate Reads(f: string, c: Constraint) {
    ParseConstraint(f) == Some(c)
  }

  lemma WrittenOneMore(fields: seq<string>, k: nat, cs: seq<Constraint>, c: Constraint)
    requires k < |fields| && Written(fields[..k], cs) && Sound(cs) && Reads(fields[k], c) && WellFormed(c.v)
    ensures Written(fields[..k + 1], cs + [c]) && Sound(cs + [c])
  {
    forall i | 0 <= i < k + 1 ensures Reads(fields[..k + 1][i], (cs + [c])[i]) {
      if i < k { assert fields[..k + 1][i] == fields[..k][i]; }
    }
  }

  /** The loop of parseConstraints: every field a comparison, or the first that is not. */
  method ParseAll(fields: seq<string>) returns (r: Result<seq<Constraint>, ConstraintError>)
    ensures r.Ok? ==> Written(fields, r.value) && Sound(r.value)
    ensures r.Err? ==> exists f :: f in fields && ParseConstraint(f).None?
  {
    var out: seq<Constraint> := [];
    for k := 0 to |fields|
      invariant Written(fields[..k], out) && Sound(out)
    {
      var c := ParseField(fields[k]);
      if c.Err? {
        assert fields[k] in fields;
        return Err(c.error);
      }
      WrittenOneMore(fields, k, out, c.value);
      out := out + [c.value];
    }
    assert fields[..|fields|] == fields;
    return Ok(out);
  }

  method ParseConstraints(s: string) returns (r: Result<seq<Constraint>, ConstraintError>)
    ensures r.Ok? ==> Fields(s) != [] && Written(Fields(s), r.value) && Sound(r.value)
    ensures r.Err? ==> Fields(s) == [] || exists f :: f in Fields(s) && ParseConstraint(f).None?
  {
    var fields := Fields(s);
    if fields == [] { return Err(NoConstraint); }
    r := ParseAll(fields);
  }

  /** A written comparison parses as the comparison written. */
  lemma ConstraintRoundTrip(c: Constraint)
    requires WellFormed(c.v)
    ensures ParseConstraint(OpText(c.op) + Render(c.v)) == Some(c)
    ensures c.op == Eq ==> ParseConstraint(Render(c.v)) == Some(c) && ParseConstraint("==" + Render(c.v)) == Some(c)
  {
    var s := Render(c.v);
    ParseRendered(c.v);
    RenderedPlain(c.v);
    TrimPlain(s);
    OpSplits(c.op, s);
  }

  lemma OpSplits(op: Op, s: string)
    requires s != "" && IsDigit(s[0])
    ensures SplitOp(OpText(op) + s) == (op, s) && SplitOp(s) == (Eq, s) && SplitOp("==" + s) == (Eq, s)
  {
    var f, g := OpText(op) + s, "==" + s;
    assert g[0] == '=' && g[1] == '=' && g[2..] == s;
    assert f[0] == OpText(op)[0];
    if |OpText(op)| == 2 {
      assert f[1] == '=' && f[2..] == s;
    } else {
      assert f[1] == s[0] && f[1..] == s;
    }
  }

  // ----- spelled out -----

  /** Of two versions in order, which one each operator accepts against the other, and against itself. */
  lemma OperatorsMean(lo: Version, hi: Version)
    requires WellFormed(lo) && WellFormed(hi) && Compare(lo, hi) < 0
    ensures Satisfied(Constraint(Ge, lo), hi) && !Satisfied(Constraint(Ge, hi), lo) && Satisfied(Constraint(Ge, lo), lo)
    ensures Satisfied(Constraint(Le, hi), lo) && !Satisfied(Constraint(Le, lo), hi) && Satisfied(Constraint(Le, lo), lo)
    ensures Satisfied(Constraint(Gt, lo), hi) && !Satisfied(Constraint(Gt, hi), lo) && !Satisfied(Constraint(Gt, lo), lo)
    ensures Satisfied(Constraint(Lt, hi), lo) && !Satisfied(Constraint(Lt, lo), hi) && !Satisfied(Constraint(Lt, lo), lo)
    ensures !Satisfied(Constraint(Eq, lo), hi) && !Satisfied(Constraint(Eq, hi), lo) && Satisfied(Constraint(Eq, lo), lo)
    ensures Satisfied(Constraint(Ne, lo), hi) && Satisfied(Constraint(Ne, hi), lo) && !Satisfied(Constraint(Ne, lo), lo)
  {
    CompareOrder(lo, hi);
    CompareOrder(lo, lo);
  }

  function Release(pre: seq<string>): Version {
    Version(1, 0, 0, pre)
  }

  lemma SmallNumbers()
    ensures NumericId("1") == Some(1) && NumericId("2") == Some(2) && NumericId("11") == Some(11)
  {
    assert ""[..0] == "" && "1"[..0] == "" && "2"[..0] == "" && "11"[..1] == "1";
    assert ValueOf("1") == 1 && ValueOf("2") == 2;
    assert ValueOf("11") == 11;
  }

  lemma Words()
    ensures NumericId("alpha").None? && NumericId("beta").None? && NumericId("rc").None?
    ensures CompareText("alpha", "beta") == -1 && CompareText("beta", "rc") == -1
  {
    assert !IsDigit("alpha"[0]) && !IsDigit("beta"[0]) && !IsDigit("rc"[0]);
  }

  lemma FirstDecides(a: seq<string>, b: seq<string>)
    requires a != [] && b != [] && ComparePreId(a[0], b[0]) == -1
    ensures Compare(Release(a), Release(b)) == -1
  {
  }

  lemma SecondDecides(x: string, a: string, b: string)
    requires ComparePreId(x, x) == 0 && ComparePreId(a, b) == -1
    ensures Compare(Release([x, a]), Release([x, b])) == -1 && Compare(Release([x]), Release([x, a])) == -1
  {
    assert [x, a][1..] == [a] && [x, b][1..] == [b] && [x][1..] == [];
    assert CompareIds([a], [b]) == -1 && CompareIds([], [a]) == -1;
    assert CompareIds([x], [x, a]) == -1;
  }

  /** The example chain of section 11.4 of Semantic Versioning 2.0.0, and that of section 11.2. */
  lemma SectionElevenExamples()
    ensures Compare(Release(["alpha"]), Release(["alpha", "1"])) == -1
    ensures Compare(Release(["alpha", "1"]), Release(["alpha", "beta"])) == -1
    ensures Compare(Release(["alpha", "beta"]), Release(["beta"])) == -1
    ensures Compare(Release(["beta"]), Release(["beta", "2"])) == -1
    ensures Compare(Release(["beta", "2"]), Release(["beta", "11"])) == -1
    ensures Compare(Release(["beta", "11"]), Release(["rc", "1"])) == -1
    ensures Compare(Release(["rc", "1"]), Release([])) == -1
    ensures Compare(Version(1, 0, 0, []), Version(2, 0, 0, [])) == -1
    ensures Compare(Version(2, 0, 0, []), Version(2, 1, 0, [])) == -1 && Compare(Version(2, 1, 0, []), Version(2, 1, 1, [])) == -1
  {
    SmallNumbers();
    Words();
    TextOrder("alpha", "alpha");
    TextOrder("beta", "beta");
    SecondDecides("alpha", "1", "beta");
    SecondDecides("beta", "2", "11");
    FirstDecides(["alpha", "beta"], ["beta"]);
    FirstDecides(["beta", "11"], ["rc", "1"]);
  }

  lemma OneTwoThree()
    ensures Numeral(1) == "1" && Numeral(2) == "2" && Numeral(3) == "3"
    ensures Core(Version(1, 2, 3, [])) == "1.2.3" && Render(Version(1, 2, 3, [])) == "1.2.3"
    ensures WellFormed(Version(1, 2, 3, []))
  {
    CoreText(Version(1, 2, 3, []));
  }

  /** How a tag is read. */
  lemma TagExample(tag: string)
    requires tag == "1.2.3"
    ensures ParseVersion(tag) == Some(Version(1, 2, 3, [])) && ParseVersion("v" + tag) == Some(Version(1, 2, 3, []))
  {
    OneTwoThree();
    ParseRendered(Version(1, 2, 3, []));
  }

  lemma ReadAs(f: string, op: Op, s: string, v: Version)
    requires SplitOp(f) == (op, s) && Trim(s) == s && ParseVersion(s) == Some(v)
    ensures ParseConstraint(f) == Some(Constraint(op, v))
  {
  }

  /** How comparisons with a version are read. */
  lemma ReadOperators(v: Version)
    requires WellFormed(v)
    ensures var s := Render(v);
            && ParseConstraint(">=" + s) == Some(Constraint(Ge, v)) && ParseConstraint("<=" + s) == Some(Constraint(Le, v))
            && ParseConstraint(">" + s) == Some(Constraint(Gt, v)) && ParseConstraint("<" + s) == Some(Constraint(Lt, v))
            && ParseConstraint("!=" + s) == Some(Constraint(Ne, v)) && ParseConstraint("==" + s) == Some(Constraint(Eq, v))
            && ParseConstraint("=" + s) == Some(Constraint(Eq, v)) && ParseConstraint(s) == Some(Constraint(Eq, v))
  {
    var s := Render(v);
    RenderedPlain(v);
    TrimPlain(s);
    ParseRendered(v);
    Operators(s);
    ReadAs(">=" + s, Ge, s, v);
    ReadAs("<=" + s, Le, s, v);
    ReadAs(">" + s, Gt, s, v);
    ReadAs("<" + s, Lt, s, v);
    ReadAs("!=" + s, Ne, s, v);
    ReadAs("==" + s, Eq, s, v);
    ReadAs("=" + s, Eq, s, v);
    ReadAs(s, Eq, s, v);
  }

  /** The operators as they are written in front of a version. */
  lemma Operators(s: string)
    requires s != "" && IsDigit(s[0])
    ensures SplitOp(">=" + s) == (Ge, s) && SplitOp("<=" + s) == (Le, s) && SplitOp("!=" + s) == (Ne, s)
    ensures SplitOp("==" + s) == (Eq, s) && SplitOp("=" + s) == (Eq, s) && SplitOp(s) == (Eq, s)
    ensures SplitOp(">" + s) == (Gt, s) && SplitOp("<" + s) == (Lt, s)
  {
    OpSplits(Ge, s);
    OpSplits(Le, s);
    OpSplits(Ne, s);
    OpSplits(Gt, s);
    OpSplits(Lt, s);
    OpSplits(Eq, s);
  }

  // ----- fields -----

  predicate Solid(f: string) {
    f != "" && forall i :: 0 <= i < |f| ==> !IsSeparator(f[i])
  }

  lemma SkipSeparator(c: char, s: string)
    requires c == ',' || c == ' ' || c == '\t' || c == '\n'
    ensures Fields([c] + s) == Fields(s)
  {
    assert ([c] + s)[1..] == s;
  }

  /** A field ends at the text's end or at a separator. */
  lemma {:induction false} FieldFirst(f: string, rest: string)
    requires Solid(f) && (rest == "" || IsSeparator(rest[0]))
    ensures Fields(f + rest) == [f] + Fields(rest)
  {
    var s := f + rest;
    assert s[1..] == f[1..] + rest;
    if |f| > 1 {
      FieldFirst(f[1..], rest);
      assert [f[0]] + f[1..] == f;
      assert ([f[1..]] + Fields(rest))[1..] == Fields(rest);
    } else {
      assert s[1..] == rest && f == [f[0]];
    }
  }

  /** Every field is non-empty and holds no separator. */
  lemma {:induction false} FieldsSolid(s: string)
    ensures forall f :: f in Fields(s) ==> Solid(f)
  {
    if s != "" {
      FieldsSolid(s[1..]);
      if !IsSeparator(s[0]) && |s| > 1 && !IsSeparator(s[1]) {
        var rest := Fields(s[1..]);
        if rest != [] {
          assert rest[0] in rest;
          forall f | f in Fields(s) ensures Solid(f) {
            if f != [s[0]] + rest[0] { assert f in rest[1..] && f in rest; }
          }
        }
      }
    }
  }
}
