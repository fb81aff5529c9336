/** Version numbers: parsing, printing, order, and the policy that admits an update. */
module Versions {
  import opened Text

  /** A parsed version; `pre` empty means a final release. */
  datatype Version = Version(major: nat, minor: nat, patch: nat, pre: Bytes)

  // ---------------------------------------------------------------- parsing and printing

  /** One dotted component: a non-empty number that is not negative. */
  function ParseComponent(p: Bytes): Option<nat> {
    match Atoi(p)
    case Some(n) => if n >= 0 then Some(n) else None
    case None => None
  }

  function ParseComponents(parts: seq<Bytes>): (nums: Option<seq<nat>>)
    ensures nums.Some? ==> |nums.value| == |parts|
  {
    if parts == [] then Some([])
    else
      var n, ns := ParseComponent(parts[0]), ParseComponents(parts[1..]);
      if n.Some? && ns.Some? then Some([n.value] + ns.value) else None
  }

  function NumberAt(nums: seq<nat>, i: nat): nat { if i < |nums| then nums[i] else 0 }

  /** The numbers before the first dash: one to three of them, missing ones zero. */
  function ParseCore(core: Bytes, pre: Bytes): Option<Version> {
    var parts := Split(core, '.');
    if |parts| > 3 then None
    else
      var nums := ParseComponents(parts);
      if nums.None? then None
      else Some(Version(NumberAt(nums.value, 0), NumberAt(nums.value, 1), NumberAt(nums.value, 2), pre))
  }

  function Parse(text: Bytes): Option<Version> {
    var s := TrimSpace(text);
    var i := FirstIndex(s, '-');
    if s == [] then None
    else if i == |s| then ParseCore(s, [])
    else if i + 1 == |s| then None
    else ParseCore(s[..i], s[i + 1..])
  }

  /** ParseVersion: the loop that fills the three numbers. */
  method ParseVersion(text: Bytes) returns (v: Option<Version>)
    ensures v == Parse(text)
  {
    hide TrimSpace, Split, FirstIndex;
    var s := TrimSpace(text);
    if s == "" {
      return None;
    }
    var pre: Bytes := [];
    var i := FirstIndex(s, '-');
    if i < |s| {
      pre := s[i + 1..];
      s := s[..i];
      if pre == "" {
        return None;
      }
    }
    var parts := Split(s, '.');
    if |parts| > 3 {
      return None;
    }
    var nums := new nat[3](_ => 0);
    assert nums[..0] == [] && parts[0..] == parts;
    BehindStep([], 0, ParseComponents(parts));
    for k := 0 to |parts|
      invariant forall j :: k <= j < 3 ==> nums[j] == 0
      invariant ParseComponents(parts) == Behind(nums[..k], ParseComponents(parts[k..]))
    {
      assert parts[k..][0] == parts[k] && parts[k..][1..] == parts[k + 1..];
      var n := Atoi(parts[k]);
      if n.None? || n.value < 0 {
        return None;
      }
      ghost var done := nums[..k];
      nums[k] := n.value;
      assert nums[..k + 1] == done + [n.value];
      BehindStep(done, n.value, ParseComponents(parts[k + 1..]));
    }
    assert nums[..|parts|] + [] == nums[..|parts|];
    return Some(Version(nums[0], nums[1], nums[2], pre));
  }

  ghost function Behind(done: seq<nat>, rest: Option<seq<nat>>): Option<seq<nat>> {
    if rest.None? then None else Some(done + rest.value)
  }

  lemma BehindStep(done: seq<nat>, n: nat, rest: Option<seq<nat>>)
    ensures Behind([], rest) == rest
    ensures Behind(done, Behind([n], rest)) == Behind(done + [n], rest)
  {
    if rest.Some? {
      assert [] + rest.value == rest.value;
      assert done + ([n] + rest.value) == done + [n] + rest.value;
    }
  }

  /** The three numbers with dots between them. */
  function CoreText(v: Version): Bytes {
    Itoa(v.major) + ['.'] + (Itoa(v.minor) + ['.'] + Itoa(v.patch))
  }

  /** Version.String. */
  function Print(v: Version): Bytes {
    if v.pre == [] then CoreText(v) else CoreText(v) + ['-'] + v.pre
  }

  /** What parsing can return: 64-bit numbers and a tag without trailing white space. */
  predicate Canonical(v: Version) {
    && v.major <= MAX_INT64 && v.minor <= MAX_INT64 && v.patch <= MAX_INT64
    && SpaceSuffix(v.pre) == 0
  }

  lemma {:induction false} ParsedNumbersFit(parts: seq<Bytes>)
    ensures var nums := ParseComponents(parts);
            nums.Some? ==> forall i :: 0 <= i < |nums.value| ==> nums.value[i] <= MAX_INT64
  {
    if parts != [] {
      ParsedNumbersFit(parts[1..]);
    }
  }

  lemma SuffixOfSuffix(s: Bytes, i: nat)
    requires i <= |s| && SpaceSuffix(s) == 0
    ensures SpaceSuffix(s[i..]) == 0
  {
    var t := s[i..];
    assert forall k :: 0 <= k < |t| ==> t[k] == s[i + k];
  }

  lemma CoreIsCanonical(core: Bytes, pre: Bytes)
    requires SpaceSuffix(pre) == 0
    ensures ParseCore(core, pre).Some? ==> Canonical(ParseCore(core, pre).value)
  {
    ParsedNumbersFit(Split(core, '.'));
    hide Split, ParseComponents, SpaceSuffix;
  }

  lemma ParsedIsCanonical(text: Bytes)
    ensures Parse(text).Some? ==> Canonical(Parse(text).value)
  {
    hide ParseCore, TrimSpace, SpaceSuffix, Canonical, FirstIndex;
    var s := TrimSpace(text);
    var i := FirstIndex(s, '-');
    TrimSpaceStable(text);
    SuffixOfSuffix(s, |s|);
    assert s[|s|..] == [];
    CoreIsCanonical(s, []);
    if i < |s| {
      SuffixOfSuffix(s, i + 1);
      CoreIsCanonical(s[..i], s[i + 1..]);
    }
  }

  lemma CoreTextShape(v: Version)
    ensures var core := CoreText(v);
            && core != [] && IsDigit(core[0]) && IsDigit(core[|core| - 1]) && '-' !in core
            && Split(core, '.') == [Itoa(v.major), Itoa(v.minor), Itoa(v.patch)]
  {
    hide Itoa, Split;
    var a, b, c := Itoa(v.major), Itoa(v.minor), Itoa(v.patch);
    var core := a + ['.'] + (b + ['.'] + c);
    SplitStep(a, '.', b + ['.'] + c);
    SplitStep(b, '.', c);
    SplitStep(c, '.', []);
    assert [a] + ([b] + [c]) == [a, b, c];
    assert core[0] == a[0] && core[|core| - 1] == c[|c| - 1];
  }

  lemma NothingToTrim(core: Bytes)
    requires core != [] && IsDigit(core[0]) && IsDigit(core[|core| - 1])
    ensures TrimSpace(core) == core
  {
    hide TrimSpace;
    TrimSpaceStable(core);
  }

  lemma NothingToTrimBehindDash(core: Bytes, pre: Bytes)
    requires core != [] && IsDigit(core[0]) && IsDigit(core[|core| - 1])
    requires pre != [] && SpaceSuffix(pre) == 0
    ensures TrimSpace(core + ['-'] + pre) == core + ['-'] + pre
  {
    hide TrimSpace, SpaceSuffix;
    var s := core + ['-'] + pre;
    TrimSpaceStable(s);
    assert s[0] == core[0];
    SuffixBehindAscii(core, '-', pre);
  }

  lemma ParseComponentsCons(n: nat, rest: seq<Bytes>)
    requires n <= MAX_INT64 && ParseComponents(rest).Some?
    ensures ParseComponents([Itoa(n)] + rest) == Some([n] + ParseComponents(rest).value)
  {
    AtoiItoa(n);
    assert ([Itoa(n)] + rest)[1..] == rest;
  }

  lemma ThreeNumbers(v: Version)
    requires Canonical(v)
    ensures ParseComponents([Itoa(v.major), Itoa(v.minor), Itoa(v.patch)]) == Some([v.major, v.minor, v.patch])
  {
    hide Itoa, ParseComponent;
    ParseComponentsCons(v.patch, []);
    ParseComponentsCons(v.minor, [Itoa(v.patch)] + []);
    ParseComponentsCons(v.major, [Itoa(v.minor)] + ([Itoa(v.patch)] + []));
    assert [Itoa(v.major)] + ([Itoa(v.minor)] + ([Itoa(v.patch)] + []))
        == [Itoa(v.major), Itoa(v.minor), Itoa(v.patch)];
    assert [v.major] + ([v.minor] + ([v.patch] + [])) == [v.major, v.minor, v.patch];
  }

  lemma PrintThenParse(v: Version)
    requires Canonical(v)
    ensures Parse(Print(v)) == Some(v)
  {
    hide TrimSpace, Split, ParseComponents, Itoa, CoreText, SpaceSuffix;
    var core := CoreText(v);
    CoreTextShape(v);
    ThreeNumbers(v);
    if v.pre == [] {
      NothingToTrim(core);
      FirstIndexAbsent(core, '-');
    } else {
      NothingToTrimBehindDash(core, v.pre);
      FirstIndexIs(core, '-', v.pre);
      assert (core + ['-'] + v.pre)[..|core|] == core;
      assert (core + ['-'] + v.pre)[|core| + 1..] == v.pre;
    }
  }

  /** Printing then parsing is the identity on exactly the versions that parsing returns. */
  lemma PrintParseIdentity(v: Version)
    ensures Parse(Print(v)) == Some(v) <==> Canonical(v)
    ensures forall text :: Parse(text) == Some(v) ==> Parse(Print(v)) == Some(v)
  {
    ParsedIsCanonical(Print(v));
    if Canonical(v) {
      PrintThenParse(v);
    }
    forall text | Parse(text) == Some(v) ensures Parse(Print(v)) == Some(v) {
      ParsedIsCanonical(text);
    }
  }

  /** A component is a 64-bit number in decimal, with or without a plus sign. */
  predicate IsNumber(p: Bytes) {
    var digits := if p != [] && p[0] == '+' then p[1..] else p;
    digits != [] && AllDigits(digits) && DecimalValue(digits) <= MAX_INT64
  }

  lemma {:induction false} DigitsAreNotNegative(s: Bytes)
    requires AllDigits(s)
    ensures DecimalValue(s) >= 0
  {
    if s != [] {
      assert s[|s| - 1] in s;
      DigitsAreNotNegative(s[..|s| - 1]);
    }
  }

  lemma ComponentExactly(p: Bytes)
    requires '-' !in p
    ensures ParseComponent(p).Some? <==> IsNumber(p)
  {
    var digits := if p != [] && p[0] == '+' then p[1..] else p;
    if AllDigits(digits) {
      DigitsAreNotNegative(digits);
    }
  }

  lemma {:induction false} ComponentsExactly(parts: seq<Bytes>)
    requires forall p :: p in parts ==> '-' !in p
    ensures ParseComponents(parts).Some? <==> forall p :: p in parts ==> IsNumber(p)
    decreases |parts|
  {
    if parts != [] {
      ComponentExactly(parts[0]);
      ComponentsExactly(parts[1..]);
      assert parts == [parts[0]] + parts[1..];
      hide IsNumber, ParseComponent;
    }
  }

  /** What is left of the first dash, where there is one. */
  function Core(s: Bytes): Bytes { s[..FirstIndex(s, '-')] }

  lemma {:induction false} PartsAreOfTheText(s: Bytes, sep: Byte, c: Byte)
    requires c !in s
    ensures forall p :: p in Split(s, sep) ==> c !in p
    decreases |s|
  {
    var i := FirstIndex(s, sep);
    if i < |s| {
      PartsAreOfTheText(s[i + 1..], sep, c);
    }
  }

  /**
   * Which texts are versions: once trimmed, one to three numbers with dots between them, and behind a dash, if there
   * is one, something.
   */
  lemma WellFormedExactly(text: Bytes)
    ensures Parse(text).Some? <==>
              var s := TrimSpace(text); var parts := Split(Core(s), '.');
              && s != [] && FirstIndex(s, '-') + 1 != |s|
              && |parts| <= 3 && forall p :: p in parts ==> IsNumber(p)
  {
    var s := TrimSpace(text);
    CoreIs(s);
    hide TrimSpace, Split, ParseCore, IsNumber, FirstIndex, Core;
    var i := FirstIndex(s, '-');
    CoreExactly(Core(s), []);
    if i + 1 < |s| {
      CoreExactly(Core(s), s[i + 1..]);
    }
  }

  lemma CoreIs(s: Bytes)
    ensures '-' !in Core(s) && Core(s) == s[..FirstIndex(s, '-')] && (FirstIndex(s, '-') == |s| ==> Core(s) == s)
  {
  }

  lemma CoreExactly(core: Bytes, pre: Bytes)
    requires '-' !in core
    ensures ParseCore(core, pre).Some? <==> |Split(core, '.')| <= 3 && forall p :: p in Split(core, '.') ==> IsNumber(p)
  {
    PartsAreOfTheText(core, '.', '-');
    ComponentsExactly(Split(core, '.'));
    hide Split, ParseComponents, IsNumber;
  }

  /** Missing numbers are zero. */
  lemma ShortVersions(major: nat, minor: nat)
    requires major <= MAX_INT64 && minor <= MAX_INT64
    ensures ParseCore(Itoa(major), []) == Some(Version(major, 0, 0, []))
    ensures ParseCore(Itoa(major) + ['.'] + Itoa(minor), []) == Some(Version(major, minor, 0, []))
  {
    hide Itoa, Split, ParseComponents;
    SplitStep(Itoa(major), '.', Itoa(minor));
    SplitStep(Itoa(minor), '.', []);
    NoComponents();
    ParseComponentsCons(minor, []);
    ParseComponentsCons(major, []);
    ParseComponentsCons(major, [Itoa(minor)] + []);
    assert [Itoa(major)] + [] == [Itoa(major)] && [Itoa(major)] + ([Itoa(minor)] + []) == [Itoa(major)] + [Itoa(minor)];
    assert [major] + [] == [major] && [minor] + [] == [minor];
  }

  lemma NoComponents()
    ensures ParseComponents([]) == Some([])
  {
  }

  // ---------------------------------------------------------------- order

  function CompareInt(a: int, b: int): int { if a < b then -1 else if a > b then 1 else 0 }

  /** strings.Compare: bytewise lexicographic order. */
  function CompareBytes(a: Bytes, b: Bytes): int {
    if a == [] || b == [] then CompareInt(|a|, |b|)
    else if a[0] != b[0] then CompareInt(a[0] as int, b[0] as int)
    else CompareBytes(a[1..], b[1..])
  }

  function Compare(v: Version, o: Version): int {
    if v.major != o.major then CompareInt(v.major, o.major)
    else if v.minor != o.minor then CompareInt(v.minor, o.minor)
    else if v.patch != o.patch then CompareInt(v.patch, o.patch)
    else if v.pre == o.pre then 0
    else if v.pre == [] then 1
    else if o.pre == [] then -1
    else CompareBytes(v.pre, o.pre)
  }

  lemma {:induction false} BytesAntisymmetric(a: Bytes, b: Bytes)
    ensures CompareBytes(a, b) == -CompareBytes(b, a)
    ensures CompareBytes(a, b) == 0 <==> a == b
    decreases |a|
  {
    if a != [] && b != [] && a[0] == b[0] {
      BytesAntisymmetric(a[1..], b[1..]);
      assert a == [a[0]] + a[1..] && b == [b[0]] + b[1..];
    }
  }

  lemma {:induction false} BytesTransitive(a: Bytes, b: Bytes, c: Bytes)
    requires CompareBytes(a, b) < 0 && CompareBytes(b, c) < 0
    ensures CompareBytes(a, c) < 0
    decreases |a|
  {
    if a != [] && b != [] && c != [] && a[0] == b[0] == c[0] {
      BytesTransitive(a[1..], b[1..], c[1..]);
    }
  }

  /** Compare is a total order: the three outcomes mirror, zero means equal, less-than is transitive. */
  lemma CompareIsTotalOrder(a: Version, b: Version, c: Version)
    ensures -1 <= Compare(a, b) <= 1
    ensures Compare(a, b) == -Compare(b, a)
    ensures Compare(a, b) == 0 <==> a == b
    ensures Compare(a, b) < 0 && Compare(b, c) < 0 ==> Compare(a, c) < 0
  {
    BytesRange(a.pre, b.pre);
    BytesAntisymmetric(a.pre, b.pre);
    if CompareBytes(a.pre, b.pre) < 0 && CompareBytes(b.pre, c.pre) < 0 {
      BytesTransitive(a.pre, b.pre, c.pre);
    }
    BytesAntisymmetric(a.pre, c.pre);
  }

  lemma {:induction false} BytesRange(a: Bytes, b: Bytes)
    ensures -1 <= CompareBytes(a, b) <= 1
    decreases |a|
  {
    if a != [] && b != [] && a[0] == b[0] {
      BytesRange(a[1..], b[1..]);
    }
  }

  /** Bytewise order: at the first difference the smaller byte, or the shorter text where there is none. */
  ghost predicate ComesBefore(a: Bytes, b: Bytes) {
    exists k :: 0 <= k <= |a| && DiffersAt(a, b, k)
  }

  predicate DiffersAt(a: Bytes, b: Bytes, k: nat)
    requires k <= |a|
  {
    k < |b| && a[..k] == b[..k] && (k == |a| || a[k] < b[k])
  }

  lemma {:induction false} CompareBytesExactly(a: Bytes, b: Bytes)
    ensures CompareBytes(a, b) < 0 <==> ComesBefore(a, b)
    decreases |a|
  {
    if a == [] || b == [] {
      if b != [] {
        assert DiffersAt(a, b, 0);
      }
    } else if a[0] != b[0] {
      if a[0] < b[0] {
        assert DiffersAt(a, b, 0);
      }
      forall k | 0 < k <= |a| ensures !DiffersAt(a, b, k) {
        assert k < |b| ==> a[..k][0] != b[..k][0];
      }
    } else {
      CompareBytesExactly(a[1..], b[1..]);
      if ComesBefore(a[1..], b[1..]) {
        var k :| 0 <= k < |a| && DiffersAt(a[1..], b[1..], k);
        DiffersOneOn(a, b, k);
      }
      if ComesBefore(a, b) {
        var k :| 0 <= k <= |a| && DiffersAt(a, b, k);
        assert k > 0;
        DiffersOneOn(a, b, k - 1);
      }
    }
  }

  lemma DiffersOneOn(a: Bytes, b: Bytes, k: nat)
    requires a != [] && b != [] && a[0] == b[0] && k < |a|
    ensures DiffersAt(a[1..], b[1..], k) <==> DiffersAt(a, b, k + 1)
  {
    if k + 1 < |b| {
      assert a[..k + 1] == [a[0]] + a[1..][..k] && b[..k + 1] == [b[0]] + b[1..][..k];
    }
  }

  /**
   * Which version is the older one: by number from the left; of the same numbers a prerelease is older than the
   * final release, and of two prereleases the one whose tag comes first.
   */
  lemma OlderExactly(v: Version, o: Version)
    ensures Compare(v, o) < 0 <==>
              || v.major < o.major
              || (v.major == o.major && v.minor < o.minor)
              || (v.major == o.major && v.minor == o.minor && v.patch < o.patch)
              || (v.major == o.major && v.minor == o.minor && v.patch == o.patch && v.pre != []
                  && (o.pre == [] || ComesBefore(v.pre, o.pre)))
  {
    CompareBytesExactly(v.pre, o.pre);
    BytesAntisymmetric(v.pre, o.pre);
  }

  // ---------------------------------------------------------------- the update policy

  function IsNewerThan(current: Bytes, candidate: Bytes): Option<bool> {
    match (Parse(current), Parse(candidate))
    case (Some(c), Some(n)) => Some(Compare(n, c) > 0)
    case _ => None
  }

  datatype Verdict = Accepted | BadCurrent | BadTarget | NotNewer | BadMinimum | BelowMinimum

  function Acceptable(current: Bytes, target: Bytes, minimum: Bytes): Verdict {
    match Parse(current)
    case None => BadCurrent
    case Some(c) =>
      match Parse(target)
      case None => BadTarget
      case Some(t) =>
        if Compare(t, c) <= 0 then NotNewer
        else if minimum == [] then Accepted
        else match Parse(minimum)
          case None => BadMinimum
          case Some(m) => if Compare(c, m) < 0 then BelowMinimum else Accepted
  }

  /** Which updates are accepted: to a newer version, from one not older than the minimum, all of them well formed. */
  lemma AcceptedExactly(current: Bytes, target: Bytes, minimum: Bytes)
    ensures Acceptable(current, target, minimum) == Accepted
            <==> && IsNewerThan(current, target) == Some(true)
                 && (minimum != [] ==> IsNewerThan(current, minimum) == Some(false))
    ensures Acceptable(current, target, minimum) == BadCurrent <==> Parse(current).None?
    ensures Acceptable(current, target, minimum) == NotNewer <==> IsNewerThan(current, target) == Some(false)
    ensures Acceptable(current, target, minimum) == BelowMinimum
            <==> IsNewerThan(current, target) == Some(true) && minimum != [] && IsNewerThan(current, minimum) == Some(true)
  {
    hide Parse, Compare;
    if Parse(current).Some? && Parse(minimum).Some? {
      CompareIsTotalOrder(Parse(current).value, Parse(minimum).value, Parse(current).value);
    }
  }

  /** Candidates are newer exactly when the current version is older. */
  lemma NewerExactly(current: Bytes, candidate: Bytes)
    requires Parse(current).Some? && Parse(candidate).Some?
    ensures IsNewerThan(current, candidate) == Some(Compare(Parse(current).value, Parse(candidate).value) < 0)
  {
    CompareIsTotalOrder(Parse(current).value, Parse(candidate).value, Parse(current).value);
    hide Parse, Compare;
  }

  /** A run of updates: each next version was accepted over the one before it. */
  predicate AcceptedChain(versions: seq<Bytes>, minimums: seq<Bytes>) {
    && |versions| == |minimums| + 1
    && forall i :: 0 <= i < |minimums| ==> Acceptable(versions[i], versions[i + 1], minimums[i]) == Accepted
  }

  /** Along any accepted run versions strictly increase, none comes back, and no step starts below its minimum. */
  lemma {:induction false} ChainsOnlyClimb(versions: seq<Bytes>, minimums: seq<Bytes>, i: nat, j: nat)
    requires AcceptedChain(versions, minimums) && i < j < |versions|
    ensures IsNewerThan(versions[i], versions[j]) == Some(true)
    ensures versions[i] != versions[j] && Parse(versions[i]) != Parse(versions[j])
    ensures minimums[i] != [] ==> IsNewerThan(versions[i], minimums[i]) == Some(false)
    decreases j
  {
    hide Parse, Compare;
    var step := Acceptable(versions[j - 1], versions[j], minimums[j - 1]);
    assert step == Accepted && Acceptable(versions[i], versions[i + 1], minimums[i]) == Accepted;
    var a, b, c := Parse(versions[i]).value, Parse(versions[j - 1]).value, Parse(versions[j]).value;
    CompareIsTotalOrder(b, c, b);
    if i < j - 1 {
      ChainsOnlyClimb(versions, minimums, i, j - 1);
      CompareIsTotalOrder(a, b, c);
    }
    CompareIsTotalOrder(c, a, c);
    if minimums[i] != [] {
      CompareIsTotalOrder(a, Parse(minimums[i]).value, a);
    }
  }
}
