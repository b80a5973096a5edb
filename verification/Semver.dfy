/** Strict SemVer parsing and ordering, from `src/lib/semver.ts`, against section 11 of Semantic
    Versioning 2.0.0. */
module Semver {
  import opened Strings
  import opened Wrappers

  /** `version` leaves out the build metadata, which has no precedence. */
  datatype Version = Version(major: string, minor: string, patch: string, prerelease: seq<string>, version: string)

  // Characters and identifiers.

  predicate IsDigit(c: char) { '0' <= c <= '9' }

  predicate IsIdentifierChar(c: char) {
    IsDigit(c) || 'A' <= c <= 'Z' || 'a' <= c <= 'z' || c == '-'
  }

  predicate AllDigits(s: string) {
    s != "" && forall k :: 0 <= k < |s| ==> IsDigit(s[k])
  }

  /** A number with no leading zero. */
  predicate IsNumeric(s: string) {
    AllDigits(s) && (s[0] == '0' ==> |s| == 1)
  }

  predicate IsIdentifier(s: string) {
    s != "" && forall k :: 0 <= k < |s| ==> IsIdentifierChar(s[k])
  }

  /** A prerelease identifier: one of digits alone has no leading zero. */
  predicate IsPrerelease(s: string) {
    IsIdentifier(s) && (AllDigits(s) ==> IsNumeric(s))
  }

  // Comparing.

  function CompareNumeric(left: string, right: string): int {
    if |left| != |right| then (if |left| < |right| then -1 else 1)
    else if left == right then 0
    else if Less(left, right) then -1 else 1
  }

  /** Two different identifiers. */
  function CompareParts(left: string, right: string): int {
    var leftNumeric := AllDigits(left);
    var rightNumeric := AllDigits(right);
    if leftNumeric && rightNumeric then CompareNumeric(left, right)
    else if leftNumeric != rightNumeric then (if leftNumeric then -1 else 1)
    else if Less(left, right) then -1 else 1
  }

  function CompareFrom(left: seq<string>, right: seq<string>): int {
    if left == [] && right == [] then 0
    else if left == [] then -1
    else if right == [] then 1
    else if left[0] == right[0] then CompareFrom(left[1..], right[1..])
    else CompareParts(left[0], right[0])
  }

  function ComparePrerelease(left: seq<string>, right: seq<string>): int {
    if left == [] || right == [] then (if |left| == |right| then 0 else if left == [] then 1 else -1)
    else CompareFrom(left, right)
  }

  function Compare(left: Version, right: Version): int {
    var major := CompareNumeric(left.major, right.major);
    var minor := CompareNumeric(left.minor, right.minor);
    var patch := CompareNumeric(left.patch, right.patch);
    if major != 0 then major else if minor != 0 then minor else if patch != 0 then patch
    else ComparePrerelease(left.prerelease, right.prerelease)
  }

  method ComparePrereleases(left: seq<string>, right: seq<string>) returns (r: int)
    ensures r == ComparePrerelease(left, right)
  {
    if |left| == 0 || |right| == 0 {
      if |left| == |right| { return 0; }
      return if |left| == 0 then 1 else -1;
    }
    var index := 0;
    while index < |left| || index < |right|
      invariant 0 <= index <= |left| && index <= |right|
      invariant CompareFrom(left, right) == CompareFrom(left[index..], right[index..])
      decreases |left| - index
    {
      if index >= |left| || index >= |right| { return if index >= |left| then -1 else 1; }
      if left[index] != right[index] {
        var leftNumeric := AllDigits(left[index]);
        var rightNumeric := AllDigits(right[index]);
        if leftNumeric && rightNumeric { return CompareNumeric(left[index], right[index]); }
        if leftNumeric != rightNumeric { return if leftNumeric then -1 else 1; }
        return if Less(left[index], right[index]) then -1 else 1;
      }
      assert left[index..][1..] == left[index + 1..] && right[index..][1..] == right[index + 1..];
      index := index + 1;
    }
    r := 0;
  }

  method CompareSemver(left: Version, right: Version) returns (r: int)
    ensures r == Compare(left, right)
  {
    var lefts, rights := [left.major, left.minor, left.patch], [right.major, right.minor, right.patch];
    for k := 0 to 3
      invariant forall j :: 0 <= j < k ==> CompareNumeric(lefts[j], rights[j]) == 0
    {
      assert k > 0 ==> CompareNumeric(lefts[0], rights[0]) == 0;
      assert k > 1 ==> CompareNumeric(lefts[1], rights[1]) == 0;
      var compared := CompareNumeric(lefts[k], rights[k]);
      if compared != 0 { return compared; }
    }
    assert CompareNumeric(lefts[0], rights[0]) == CompareNumeric(lefts[1], rights[1]) == CompareNumeric(lefts[2], rights[2]) == 0;
    r := ComparePrereleases(left.prerelease, right.prerelease);
  }

  // Numbers of any length.

  function Pow10(n: nat): nat {
    if n == 0 then 1 else 10 * Pow10(n - 1)
  }

  function Digit(c: char): nat
    requires IsDigit(c)
  {
    c as int - '0' as int
  }

  /** What digits mean. */
  function Value(s: string): nat
    requires forall k :: 0 <= k < |s| ==> IsDigit(s[k])
  {
    if s == "" then 0 else Digit(s[0]) * Pow10(|s| - 1) + Value(s[1..])
  }

  lemma {:induction false} ValueBound(s: string)
    requires forall k :: 0 <= k < |s| ==> IsDigit(s[k])
    ensures Value(s) < Pow10(|s|)
    ensures s != "" && s[0] != '0' ==> Value(s) >= Pow10(|s| - 1)
  {
    if s != "" {
      ValueBound(s[1..]);
      Scaled(Digit(s[0]), Pow10(|s| - 1));
    }
  }

  lemma Scaled(d: nat, p: nat)
    requires d <= 9
    ensures d * p <= 9 * p
    ensures d > 0 ==> d * p >= p
  {
    assert (9 - d) * p >= 0;
    if d > 0 { assert (d - 1) * p >= 0; }
  }

  lemma {:induction false} Pow10Grows(m: nat, n: nat)
    requires m <= n
    ensures 1 <= Pow10(m) <= Pow10(n)
    decreases n
  {
    if m == n {
      if m > 0 { Pow10Grows(m - 1, m - 1); }
    } else {
      Pow10Grows(m, n - 1);
    }
  }

  lemma {:induction false} LessIsSmaller(a: string, b: string)
    requires |a| == |b| && (forall k :: 0 <= k < |a| ==> IsDigit(a[k])) && (forall k :: 0 <= k < |b| ==> IsDigit(b[k]))
    ensures Less(a, b) <==> Value(a) < Value(b)
    ensures a == b <==> Value(a) == Value(b)
  {
    if a != "" {
      LessIsSmaller(a[1..], b[1..]);
      ValueBound(a[1..]);
      ValueBound(b[1..]);
      var p := Pow10(|a| - 1);
      var d, e := Digit(a[0]), Digit(b[0]);
      if d < e { Leads(d, e, p); } else if e < d { Leads(e, d, p); } else { assert a == [a[0]] + a[1..] && b == [b[0]] + b[1..]; }
    }
  }

  lemma Leads(d: nat, e: nat, p: nat)
    requires d < e
    ensures d * p + p <= e * p
  {
    assert (d + 1) * p <= e * p;
  }

  function Sign(x: int): int {
    if x < 0 then -1 else if x > 0 then 1 else 0
  }

  /** Comparing lengths, then digits, compares the numbers themselves, however long. */
  lemma CompareIsNumeric(left: string, right: string)
    requires IsNumeric(left) && IsNumeric(right)
    ensures CompareNumeric(left, right) == Sign(Value(left) - Value(right))
    ensures CompareNumeric(left, right) == 0 <==> left == right
  {
    ValueBound(left);
    ValueBound(right);
    if |left| == |right| {
      LessIsSmaller(left, right);
    } else if |left| < |right| {
      Pow10Grows(|left|, |right| - 1);
    } else {
      Pow10Grows(|right|, |left| - 1);
    }
  }

  // Section 11.

  /** Items 11.4.1 to 11.4.3: numeric identifiers numerically, others in ASCII order, numeric ones first. */
  predicate LowerPart(a: string, b: string)
    requires IsPrerelease(a) && IsPrerelease(b)
  {
    if AllDigits(a) && AllDigits(b) then Value(a) < Value(b)
    else if AllDigits(a) || AllDigits(b) then AllDigits(a)
    else Less(a, b)
  }

  predicate ValidPrerelease(parts: seq<string>) {
    forall k :: 0 <= k < |parts| ==> IsPrerelease(parts[k])
  }

  /** Items 11.3 and 11.4: a prerelease is below the release; otherwise the first identifiers that differ
      decide, and when none does, having fewer is lower. */
  ghost predicate LowerPrerelease(a: seq<string>, b: seq<string>)
    requires ValidPrerelease(a) && ValidPrerelease(b)
  {
    a != [] && (b == [] || FewerOrLower(a, b))
  }

  ghost predicate FewerOrLower(a: seq<string>, b: seq<string>)
    requires ValidPrerelease(a) && ValidPrerelease(b)
  {
    || (|a| < |b| && a == b[..|a|])
    || exists k :: 0 <= k < |a| && k < |b| && a[..k] == b[..k] && a[k] != b[k] && LowerPart(a[k], b[k])
  }

  predicate Valid(v: Version) {
    IsNumeric(v.major) && IsNumeric(v.minor) && IsNumeric(v.patch) && ValidPrerelease(v.prerelease) && v.version == Text(v)
  }

  /** Section 11, item 2 first: the version core numerically, then the prerelease. */
  ghost predicate Precedes(a: Version, b: Version)
    requires Valid(a) && Valid(b)
  {
    || Value(a.major) < Value(b.major)
    || (Value(a.major) == Value(b.major)
        && (|| Value(a.minor) < Value(b.minor)
            || (Value(a.minor) == Value(b.minor)
                && (|| Value(a.patch) < Value(b.patch)
                    || (Value(a.patch) == Value(b.patch) && LowerPrerelease(a.prerelease, b.prerelease))))))
  }

  lemma PartsCompare(a: string, b: string)
    requires IsPrerelease(a) && IsPrerelease(b) && a != b
    ensures CompareParts(a, b) == if LowerPart(a, b) then -1 else 1
    ensures LowerPart(a, b) <==> !LowerPart(b, a)
  {
    LessTotal(a, b);
    if AllDigits(a) && AllDigits(b) { CompareIsNumeric(a, b); CompareIsNumeric(b, a); }
  }

  lemma LowerInTail(a: seq<string>, b: seq<string>)
    requires ValidPrerelease(a) && ValidPrerelease(b)
    requires a != [] && b != [] && a[0] == b[0] && FewerOrLower(a, b)
    ensures FewerOrLower(a[1..], b[1..])
  {
    var x, y := a[1..], b[1..];
    if |a| < |b| && a == b[..|a|] {
      assert y[..|x|] == b[..|a|][1..];
    } else {
      var k :| 0 <= k < |a| && k < |b| && a[..k] == b[..k] && a[k] != b[k] && LowerPart(a[k], b[k]);
      assert x[..k - 1] == a[..k][1..] && y[..k - 1] == b[..k][1..];
      assert x[k - 1] != y[k - 1] && LowerPart(x[k - 1], y[k - 1]);
    }
  }

  lemma LowerFromTail(a: seq<string>, b: seq<string>)
    requires ValidPrerelease(a) && ValidPrerelease(b)
    requires a != [] && b != [] && a[0] == b[0] && FewerOrLower(a[1..], b[1..])
    ensures FewerOrLower(a, b)
  {
    var x, y := a[1..], b[1..];
    assert a == [a[0]] + x && b == [b[0]] + y;
    if |x| < |y| && x == y[..|x|] {
      assert b[..|a|] == [b[0]] + y[..|x|];
    } else {
      var k :| 0 <= k < |x| && k < |y| && x[..k] == y[..k] && x[k] != y[k] && LowerPart(x[k], y[k]);
      assert a[..k + 1] == [a[0]] + x[..k] && b[..k + 1] == [b[0]] + y[..k];
      assert a[k + 1] != b[k + 1] && LowerPart(a[k + 1], b[k + 1]);
    }
  }

  lemma LowerAtHead(a: seq<string>, b: seq<string>)
    requires ValidPrerelease(a) && ValidPrerelease(b)
    requires a != [] && b != [] && a[0] != b[0]
    ensures FewerOrLower(a, b) <==> LowerPart(a[0], b[0])
  {
    assert a[..0] == b[..0];
    forall k | 0 < k <= |a| && k <= |b| ensures a[..k] != b[..k] { assert a[..k][0] != b[..k][0]; }
    if LowerPart(a[0], b[0]) { assert FewerOrLower(a, b); }
    if |a| <= |b| { assert a[..|a|] == a; }
  }

  lemma {:induction false} FromMatches(a: seq<string>, b: seq<string>)
    requires ValidPrerelease(a) && ValidPrerelease(b)
    ensures CompareFrom(a, b) in {-1, 0, 1}
    ensures CompareFrom(a, b) == -1 <==> FewerOrLower(a, b)
    ensures CompareFrom(a, b) == 0 <==> a == b
  {
    if a == [] {
      assert b != [] ==> a == b[..0];
    } else if b == [] {
    } else if a[0] != b[0] {
      PartsCompare(a[0], b[0]);
      LowerAtHead(a, b);
    } else {
      FromMatches(a[1..], b[1..]);
      assert a == [a[0]] + a[1..] && b == [b[0]] + b[1..];
      if FewerOrLower(a[1..], b[1..]) { LowerFromTail(a, b); }
      if FewerOrLower(a, b) { LowerInTail(a, b); }
    }
  }

  /** The order is section 11's, prerelease and all. */
  lemma CompareIsSection11(a: Version, b: Version)
    requires Valid(a) && Valid(b)
    ensures Compare(a, b) in {-1, 0, 1}
    ensures Compare(a, b) == -1 <==> Precedes(a, b)
    ensures Compare(a, b) == 0 <==> a.major == b.major && a.minor == b.minor && a.patch == b.patch && a.prerelease == b.prerelease
  {
    CompareIsNumeric(a.major, b.major);
    CompareIsNumeric(a.minor, b.minor);
    CompareIsNumeric(a.patch, b.patch);
    FromMatches(a.prerelease, b.prerelease);
  }

  lemma {:induction false} FromOpposite(a: seq<string>, b: seq<string>)
    requires ValidPrerelease(a) && ValidPrerelease(b)
    ensures CompareFrom(a, b) == -CompareFrom(b, a)
  {
    if a != [] && b != [] {
      if a[0] == b[0] { FromOpposite(a[1..], b[1..]); } else { PartsCompare(a[0], b[0]); PartsCompare(b[0], a[0]); }
    }
  }

  lemma LowerPartTransitive(a: string, b: string, c: string)
    requires IsPrerelease(a) && IsPrerelease(b) && IsPrerelease(c) && LowerPart(a, b) && LowerPart(b, c)
    ensures LowerPart(a, c)
  {
    if !AllDigits(a) && !AllDigits(b) && !AllDigits(c) { LessTransitive(a, b, c); }
  }

  lemma {:induction false} FromTransitive(a: seq<string>, b: seq<string>, c: seq<string>)
    requires ValidPrerelease(a) && ValidPrerelease(b) && ValidPrerelease(c)
    requires CompareFrom(a, b) == -1 && CompareFrom(b, c) == -1
    ensures CompareFrom(a, c) == -1
  {
    if a != [] {
      if a[0] != b[0] { PartsCompare(a[0], b[0]); }
      if b[0] != c[0] { PartsCompare(b[0], c[0]); }
      if a[0] == b[0] && b[0] == c[0] {
        FromTransitive(a[1..], b[1..], c[1..]);
      } else {
        if a[0] != b[0] && b[0] != c[0] { LowerPartTransitive(a[0], b[0], c[0]); }
        LowerPartIrreflexive(a[0]);
        if a[0] != c[0] { PartsCompare(a[0], c[0]); }
      }
    }
  }

  lemma LowerPartIrreflexive(a: string)
    requires IsPrerelease(a)
    ensures !LowerPart(a, a)
  {
    LessTotal(a, a);
  }

  /** A total order on parsed versions: opposite ways round when swapped, transitive, and zero exactly for
      versions whose text is the same. */
  lemma TotalOrder(a: Version, b: Version, c: Version)
    requires Valid(a) && Valid(b) && Valid(c)
    ensures Compare(a, b) == -Compare(b, a)
    ensures Compare(a, b) <= 0 && Compare(b, c) <= 0 ==> Compare(a, c) <= 0
    ensures Compare(a, b) == 0 <==> a.version == b.version
  {
    CompareIsSection11(a, b);
    CompareIsSection11(b, a);
    CompareIsSection11(b, c);
    CompareIsSection11(a, c);
    FromOpposite(a.prerelease, b.prerelease);
    CompareIsNumeric(a.major, b.major);
    CompareIsNumeric(a.minor, b.minor);
    CompareIsNumeric(a.patch, b.patch);
    CompareIsNumeric(b.major, a.major);
    CompareIsNumeric(b.minor, a.minor);
    CompareIsNumeric(b.patch, a.patch);
    if Compare(a, b) <= 0 && Compare(b, c) <= 0 { Transitive(a, b, c); }
    if a.version == b.version { TextDetermines(a, b); }
  }

  lemma Transitive(a: Version, b: Version, c: Version)
    requires Valid(a) && Valid(b) && Valid(c) && Compare(a, b) <= 0 && Compare(b, c) <= 0
    ensures Compare(a, c) <= 0
  {
    CompareIsNumeric(a.major, b.major); CompareIsNumeric(b.major, c.major); CompareIsNumeric(a.major, c.major);
    CompareIsNumeric(a.minor, b.minor); CompareIsNumeric(b.minor, c.minor); CompareIsNumeric(a.minor, c.minor);
    CompareIsNumeric(a.patch, b.patch); CompareIsNumeric(b.patch, c.patch); CompareIsNumeric(a.patch, c.patch);
    PrereleaseTransitive(a.prerelease, b.prerelease, c.prerelease);
  }

  lemma PrereleaseTransitive(a: seq<string>, b: seq<string>, c: seq<string>)
    requires ValidPrerelease(a) && ValidPrerelease(b) && ValidPrerelease(c)
    ensures ComparePrerelease(a, b) <= 0 && ComparePrerelease(b, c) <= 0 ==> ComparePrerelease(a, c) <= 0
  {
    FromMatches(a, b);
    FromMatches(b, c);
    FromMatches(a, c);
    if CompareFrom(a, b) == -1 && CompareFrom(b, c) == -1 { FromTransitive(a, b, c); }
  }

  // Text and back.

  function Core(v: Version): string {
    v.major + "." + v.minor + "." + v.patch
  }

  /** The text of a version without its build metadata. */
  function Text(v: Version): string {
    Core(v) + if v.prerelease == [] then "" else "-" + Join(v.prerelease, '.')
  }

  /** What comes before the first `c`, and what after it when there is one. */
  function Cut(s: string, c: char): (string, Option<string>) {
    if s == "" then ("", None)
    else if s[0] == c then ("", Some(s[1..]))
    else
      var (before, after) := Cut(s[1..], c);
      ([s[0]] + before, after)
  }

  predicate AllIdentifiers(parts: seq<string>) {
    forall k :: 0 <= k < |parts| ==> IsIdentifier(parts[k])
  }

  function Normalized(input: string): string {
    var s := Trim(input);
    if s != "" && s[0] == 'v' then s[1..] else s
  }

  predicate NoLeadingZero(parts: seq<string>) {
    forall k :: 0 <= k < |parts| ==> !(AllDigits(parts[k]) && parts[k][0] == '0' && |parts[k]| > 1)
  }

  /** The version a normalized text is, or nothing: a core of three numbers, then identifiers after `-`,
      then build identifiers after `+`. */
  function Parse(s: string): Option<Version> {
    var (head, build) := Cut(s, '+');
    var (core, pre) := Cut(head, '-');
    var numbers := Split(core, '.');
    if |numbers| != 3 || !IsNumeric(numbers[0]) || !IsNumeric(numbers[1]) || !IsNumeric(numbers[2]) then None
    else if pre.Some? && !AllIdentifiers(Split(pre.value, '.')) then None
    else if build.Some? && !AllIdentifiers(Split(build.value, '.')) then None
    else
      var prerelease := if pre.Some? then Split(pre.value, '.') else [];
      if !NoLeadingZero(prerelease) then None
      else
        var v := Version(numbers[0], numbers[1], numbers[2], prerelease, "");
        Some(v.(version := Text(v)))
  }

  function ParseSemver(input: string): Option<Version> {
    Parse(Normalized(input))
  }

  lemma {:induction false} CutPlain(s: string, c: char)
    requires Plain(s, c)
    ensures Cut(s, c) == (s, None)
  {
    if s != "" { CutPlain(s[1..], c); assert s == [s[0]] + s[1..]; }
  }

  lemma {:induction false} CutAt(s: string, c: char, rest: string)
    requires Plain(s, c)
    ensures Cut(s + [c] + rest, c) == (s, Some(rest))
  {
    var all := s + [c] + rest;
    if s == "" {
      assert all[1..] == rest;
    } else {
      assert all[1..] == s[1..] + [c] + rest;
      CutAt(s[1..], c, rest);
      assert s == [s[0]] + s[1..];
    }
  }

  lemma {:induction false} CutRebuilds(s: string, c: char)
    ensures var (before, after) := Cut(s, c); Plain(before, c) && s == before + if after.Some? then [c] + after.value else ""
  {
    if s != "" {
      assert s == [s[0]] + s[1..];
      if s[0] != c { CutRebuilds(s[1..], c); }
    }
  }

  /** A version's text, followed by its build identifiers when it has some. */
  function Whole(v: Version, build: seq<string>): string {
    Text(v) + if build == [] then "" else "+" + Join(build, '.')
  }

  lemma TextPlain(v: Version)
    requires Valid(v)
    ensures Plain(Core(v), '+') && Plain(Core(v), '-') && Plain(Text(v), '+')
  {
    JoinPlain(v.prerelease, '.', '+');
  }

  lemma TextCuts(v: Version)
    requires Valid(v)
    ensures Cut(Text(v), '-') == (Core(v), if v.prerelease == [] then None else Some(Join(v.prerelease, '.')))
  {
    TextPlain(v);
    if v.prerelease == [] {
      assert Text(v) == Core(v);
      CutPlain(Core(v), '-');
    } else {
      CutAt(Core(v), '-', Join(v.prerelease, '.'));
      assert Text(v) == Core(v) + ['-'] + Join(v.prerelease, '.');
    }
  }

  lemma WholeCuts(v: Version, build: seq<string>)
    requires Valid(v)
    ensures Cut(Whole(v, build), '+') == (Text(v), if build == [] then None else Some(Join(build, '.')))
  {
    TextPlain(v);
    if build == [] {
      assert Whole(v, build) == Text(v);
      CutPlain(Text(v), '+');
    } else {
      CutAt(Text(v), '+', Join(build, '.'));
      assert Whole(v, build) == Text(v) + ['+'] + Join(build, '.');
    }
  }

  /** Every valid version, with any build identifiers, parses back as itself. */
  lemma ParsesItsText(v: Version, build: seq<string>)
    requires Valid(v) && AllIdentifiers(build)
    ensures Parse(Whole(v, build)) == Some(v)
  {
    WholeCuts(v, build);
    TextCuts(v);
    CoreSplits(v);
    if build != [] { SplitJoin(build, '.'); }
    if v.prerelease != [] { SplitJoin(v.prerelease, '.'); }
  }

  lemma CoreSplits(v: Version)
    requires IsNumeric(v.major) && IsNumeric(v.minor) && IsNumeric(v.patch)
    ensures Split(Core(v), '.') == [v.major, v.minor, v.patch]
  {
    SplitAt(v.major, v.minor + "." + v.patch, '.');
    SplitAt(v.minor, v.patch, '.');
    SplitPlain(v.patch, '.');
    assert Core(v) == v.major + "." + (v.minor + "." + v.patch);
  }

  /** The text of a valid version determines its parts. */
  lemma TextDetermines(a: Version, b: Version)
    requires Valid(a) && Valid(b) && a.version == b.version
    ensures a == b
  {
    ParsesItsText(a, []);
    ParsesItsText(b, []);
    assert Whole(a, []) == Text(a) && Whole(b, []) == Text(b);
  }

  lemma HeadIsText(head: string, v: Version)
    requires var (core, pre) := Cut(head, '-');
      && Split(core, '.') == [v.major, v.minor, v.patch]
      && v.prerelease == if pre.Some? then Split(pre.value, '.') else []
    ensures head == Text(v)
  {
    var (core, pre) := Cut(head, '-');
    CutRebuilds(head, '-');
    JoinSplit(core, '.');
    ThreeJoined(v.major, v.minor, v.patch);
    if pre.Some? { JoinSplit(pre.value, '.'); }
  }

  /** What parses is a valid version, and its text with some build identifiers is what was parsed. */
  lemma ParsedIsText(s: string)
    requires Parse(s).Some?
    ensures Valid(Parse(s).value)
    ensures exists build :: AllIdentifiers(build) && s == Whole(Parse(s).value, build)
  {
    var v := Parse(s).value;
    var (head, build) := Cut(s, '+');
    var (core, _) := Cut(head, '-');
    assert Split(core, '.') == [v.major, v.minor, v.patch];
    HeadIsText(head, v);
    CutRebuilds(s, '+');
    var parts := if build.Some? then Split(build.value, '.') else [];
    if build.Some? { JoinSplit(build.value, '.'); }
    assert AllIdentifiers(parts) && s == Whole(v, parts);
    assert AllIdentifiers(v.prerelease) && NoLeadingZero(v.prerelease);
  }

  /** Parsing takes exactly the texts of valid versions, with or without build identifiers. */
  lemma ParsesExactly(s: string, v: Version)
    ensures Parse(s) == Some(v) <==> Valid(v) && exists build :: AllIdentifiers(build) && s == Whole(v, build)
  {
    if Parse(s) == Some(v) { ParsedIsText(s); }
    if Valid(v) && exists build :: AllIdentifiers(build) && s == Whole(v, build) {
      var build :| AllIdentifiers(build) && s == Whole(v, build);
      ParsesItsText(v, build);
    }
  }

  lemma {:induction false} JoinEnds(parts: seq<string>)
    requires parts != [] && AllIdentifiers(parts)
    ensures Join(parts, '.') != "" && IsIdentifierChar(Join(parts, '.')[|Join(parts, '.')| - 1])
  {
    if |parts| == 1 { assert IsIdentifier(parts[0]); } else { JoinEnds(parts[1..]); }
  }

  lemma WholeEnds(v: Version, build: seq<string>)
    requires Valid(v) && AllIdentifiers(build)
    ensures var s := Whole(v, build); s != "" && IsDigit(s[0]) && IsIdentifierChar(s[|s| - 1])
  {
    assert IsDigit(v.major[0]) && IsDigit(v.patch[|v.patch| - 1]);
    if v.prerelease != [] { JoinEnds(v.prerelease); }
    if build != [] { JoinEnds(build); }
  }

  /** A Git tag's `v`, and white space around it, change nothing. */
  lemma TagsParse(v: Version, build: seq<string>, before: string, after: string, tagged: bool)
    requires Valid(v) && AllIdentifiers(build) && Blank(before) && Blank(after)
    ensures ParseSemver(before + ((if tagged then "v" else "") + Whole(v, build)) + after) == Some(v)
  {
    var s := Whole(v, build);
    var tag := (if tagged then "v" else "") + s;
    WholeEnds(v, build);
    assert tag[|tag| - 1] == s[|s| - 1] && (tag[0] == 'v' || tag[0] == s[0]);
    TrimPeels(before, tag, after);
    assert tagged ==> tag[1..] == s;
    assert !tagged ==> tag == s;
    ParsesItsText(v, build);
  }

  ghost predicate Tags(input: string, v: Version, before: string, tagged: bool, build: seq<string>, after: string) {
    && Blank(before) && Blank(after) && AllIdentifiers(build)
    && input == before + ((if tagged then "v" else "") + Whole(v, build)) + after
  }

  lemma InputTags(input: string)
    requires ParseSemver(input).Some?
    ensures exists before, tagged, build, after :: Tags(input, ParseSemver(input).value, before, tagged, build, after)
  {
    var body, v := Trim(input), ParseSemver(input).value;
    TrimTrims(input);
    var before, after :| Peels(input, before, body, after);
    ParsedIsText(Normalized(input));
    var build :| AllIdentifiers(build) && Normalized(input) == Whole(v, build);
    var tagged := body != "" && body[0] == 'v';
    assert tagged ==> body == "v" + body[1..];
    assert body == (if tagged then "v" else "") + Whole(v, build);
    assert Tags(input, v, before, tagged, build, after);
  }

  /** And nothing else parses: an input is a version exactly when, apart from white space around it and one
      leading `v`, it is the text of a valid version. */
  lemma InputsExactly(input: string, v: Version)
    ensures ParseSemver(input) == Some(v) <==> Valid(v) && exists before, tagged, build, after :: Tags(input, v, before, tagged, build, after)
  {
    if ParseSemver(input) == Some(v) {
      InputTags(input);
      ParsedIsText(Normalized(input));
    }
    if Valid(v) {
      if before, tagged, build, after :| Tags(input, v, before, tagged, build, after) { TagsParse(v, build, before, after, tagged); }
    }
  }

  lemma ThreeJoined(a: string, b: string, c: string)
    ensures Join([a, b, c], '.') == a + "." + b + "." + c
  {
    assert [a, b, c][1..] == [b, c] && [b, c][1..] == [c];
    assert Join([b, c], '.') == b + "." + c;
  }
}
