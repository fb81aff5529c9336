/** Byte strings and the few Go standard-library text operations the backend leans on. */
module Text {

  /** A Go string is a sequence of bytes; a byte is written here as the character with its value. */
  type Byte = char
  type Bytes = string

  predicate IsByte(c: char) { c as int < 256 }

  /** Every character is a byte: stated where the 8-bit range matters. */
  predicate IsBytes(s: string) { forall k :: 0 <= k < |s| ==> IsByte(s[k]) }

  datatype Option<+T> = None | Some(value: T)

  /** SHA-256, taken as injective: the digest of some bytes stands for those bytes. */
  datatype Digest = Sha256(of: Bytes)

  // ---------------------------------------------------------------- slices of concatenations

  lemma Grouping(a: Bytes, b: Bytes, c: Bytes)
    ensures a + b + c == a + (b + c)
  {
  }

  lemma SliceLeft(a: Bytes, b: Bytes, j: nat)
    requires j <= |a|
    ensures (a + b)[..j] == a[..j] && (a + b)[j..] == a[j..] + b
  {
  }

  lemma SliceRight(a: Bytes, b: Bytes, j: nat)
    requires j <= |b|
    ensures (a + b)[..|a| + j] == a + b[..j] && (a + b)[|a| + j..] == b[j..]
  {
  }

  // ---------------------------------------------------------------- searching

  /** Position of the first `c` in `s`, or |s| when there is none. */
  function FirstIndex(s: Bytes, c: Byte): (i: nat)
    ensures i <= |s| && forall k :: 0 <= k < i ==> s[k] != c
    ensures i < |s| ==> s[i] == c
  {
    if s == [] || s[0] == c then 0 else FirstIndex(s[1..], c) + 1
  }

  /** Position of the last `c` in `s`, or -1 when there is none. */
  function LastIndex(s: Bytes, c: Byte): (i: int)
    ensures -1 <= i < |s| && forall k :: i < k < |s| ==> s[k] != c
    ensures i >= 0 ==> s[i] == c
  {
    if s == [] then -1
    else if s[|s| - 1] == c then |s| - 1
    else LastIndex(s[..|s| - 1], c)
  }

  lemma FirstIndexIs(a: Bytes, c: Byte, b: Bytes)
    requires c !in a
    ensures FirstIndex(a + [c] + b, c) == |a|
  {
    var s := a + [c] + b;
    assert s[|a|] == c && forall k :: 0 <= k < |a| ==> s[k] == a[k];
  }

  lemma {:induction false} LastIndexIs(a: Bytes, c: Byte, b: Bytes)
    requires c !in b
    ensures LastIndex(a + [c] + b, c) == |a|
  {
    var s := a + [c] + b;
    if b != [] {
      assert s[|s| - 1] == b[|b| - 1];
      assert s[..|s| - 1] == a + [c] + b[..|b| - 1];
      LastIndexIs(a, c, b[..|b| - 1]);
    }
  }

  lemma FirstIndexAbsent(s: Bytes, c: Byte)
    requires c !in s
    ensures FirstIndex(s, c) == |s|
  {
  }

  predicate OccursAt(s: Bytes, m: Bytes, i: int) { 0 <= i && i + |m| <= |s| && s[i..i + |m|] == m }

  /** strings.Index: the first place at or after `i` where `m` occurs, or -1. */
  function Index(s: Bytes, m: Bytes, i: nat): (r: int)
    ensures r == -1 || (i <= r && OccursAt(s, m, r))
    ensures forall k :: i <= k && (r == -1 || k < r) ==> !OccursAt(s, m, k)
    decreases |s| + 1 - i
  {
    if i + |m| > |s| then -1 else if OccursAt(s, m, i) then i else Index(s, m, i + 1)
  }

  lemma IndexIs(s: Bytes, m: Bytes, i: int)
    requires i == -1 || OccursAt(s, m, i)
    requires forall k :: 0 <= k && (i == -1 || k < i) ==> !OccursAt(s, m, k)
    ensures Index(s, m, 0) == i
  {
  }

  function TrimPrefix(s: Bytes, p: Bytes): Bytes {
    if p <= s then s[|p|..] else s
  }

  // ---------------------------------------------------------------- splitting

  /** strings.Split for a one-byte separator. */
  function Split(s: Bytes, sep: Byte): (parts: seq<Bytes>)
    ensures parts != []
    ensures forall p :: p in parts ==> sep !in p
    decreases |s|
  {
    var i := FirstIndex(s, sep);
    if i == |s| then assert s[..i] == s; [s] else [s[..i]] + Split(s[i + 1..], sep)
  }

  /** strings.Join. */
  function Join(parts: seq<Bytes>, sep: Bytes): Bytes {
    if parts == [] then []
    else if |parts| == 1 then parts[0]
    else parts[0] + sep + Join(parts[1..], sep)
  }

  lemma SplitStep(a: Bytes, sep: Byte, rest: Bytes)
    requires sep !in a
    ensures Split(a, sep) == [a]
    ensures Split(a + [sep] + rest, sep) == [a] + Split(rest, sep)
  {
    FirstIndexAbsent(a, sep);
    FirstIndexIs(a, sep, rest);
    assert (a + [sep] + rest)[..|a|] == a && (a + [sep] + rest)[|a| + 1..] == rest;
  }

  lemma {:induction false} SplitJoin(parts: seq<Bytes>, sep: Byte)
    requires parts != []
    requires forall p :: p in parts ==> sep !in p
    ensures Split(Join(parts, [sep]), sep) == parts
    decreases |parts|
  {
    hide Split;
    SplitStep(parts[0], sep, Join(parts[1..], [sep]));
    if |parts| > 1 {
      SplitJoin(parts[1..], sep);
      assert parts == [parts[0]] + parts[1..];
    }
  }

  // ---------------------------------------------------------------- white space

  predicate IsAsciiSpace(c: Byte) {
    c == '\t' || c == '\n' || c == '\U{b}' || c == '\U{c}' || c == '\r' || c == ' '
  }

  /** The white-space code points above U+007F with a two-byte UTF-8 encoding. */
  predicate IsWideSpace2(a: Byte, b: Byte) {
    a == '\U{c2}' && (b == '\U{85}' || b == '\U{a0}')
  }

  /** Those with a three-byte encoding. */
  predicate IsWideSpace3(a: Byte, b: Byte, c: Byte) {
    || (a == '\U{e1}' && b == '\U{9a}' && c == '\U{80}')
    || (a == '\U{e2}' && b == '\U{80}' &&
        ('\U{80}' <= c <= '\U{8a}' || c == '\U{a8}' || c == '\U{a9}' || c == '\U{af}'))
    || (a == '\U{e2}' && b == '\U{81}' && c == '\U{9f}')
    || (a == '\U{e3}' && b == '\U{80}' && c == '\U{80}')
  }

  /** Number of bytes of the white-space character `s` starts with (0 if it starts with another). */
  function SpacePrefix(s: Bytes): (n: nat)
    ensures n <= |s|
  {
    if |s| >= 1 && IsAsciiSpace(s[0]) then 1
    else if |s| >= 2 && IsWideSpace2(s[0], s[1]) then 2
    else if |s| >= 3 && IsWideSpace3(s[0], s[1], s[2]) then 3
    else 0
  }

  /** Number of bytes of the white-space character `s` ends with (0 if it ends with another). */
  function SpaceSuffix(s: Bytes): (n: nat)
    ensures n <= |s|
  {
    var n := |s|;
    if n >= 1 && IsAsciiSpace(s[n - 1]) then 1
    else if n >= 2 && IsWideSpace2(s[n - 2], s[n - 1]) then 2
    else if n >= 3 && IsWideSpace3(s[n - 3], s[n - 2], s[n - 1]) then 3
    else 0
  }

  /** White space at the end of a text does not reach back over an ASCII byte. */
  lemma SuffixBehindAscii(a: Bytes, c: Byte, b: Bytes)
    requires c < '\U{80}' && b != []
    ensures SpaceSuffix(a + [c] + b) == SpaceSuffix(b)
  {
    var s, n := a + [c] + b, |a| + 1 + |b|;
    assert s[n - 1] == b[|b| - 1];
    if |b| == 1 {
      assert s[n - 2] == c;
    } else {
      assert s[n - 2] == b[|b| - 2];
      assert s[n - 3] == if |b| == 2 then c else b[|b| - 3];
    }
  }

  function TrimLeft(s: Bytes): (r: Bytes)
    ensures |r| <= |s| && r == s[|s| - |r|..]
    ensures SpacePrefix(r) == 0
    decreases |s|
  {
    if SpacePrefix(s) == 0 then s else TrimLeft(s[SpacePrefix(s)..])
  }

  function TrimRight(s: Bytes): (r: Bytes)
    ensures r <= s
    ensures SpaceSuffix(r) == 0
    decreases |s|
  {
    if SpaceSuffix(s) == 0 then s else TrimRight(s[..|s| - SpaceSuffix(s)])
  }

  /** strings.TrimSpace. */
  function TrimSpace(s: Bytes): (r: Bytes)
    ensures |r| <= |s|
    ensures forall c :: c in r ==> c in s
  {
    TrimRight(TrimLeft(s))
  }

  /** Trimming leaves nothing to trim, and leaves a string with nothing to trim alone. */
  lemma TrimSpaceStable(s: Bytes)
    ensures SpacePrefix(TrimSpace(s)) == 0 && SpaceSuffix(TrimSpace(s)) == 0
    ensures SpacePrefix(s) == 0 && SpaceSuffix(s) == 0 ==> TrimSpace(s) == s
  {
    var l := TrimLeft(s);
    var r := TrimRight(l);
    assert forall k :: 0 <= k < |r| ==> r[k] == l[k];
  }

  // ---------------------------------------------------------------- decimal numbers

  const MAX_INT64 := 0x7FFF_FFFF_FFFF_FFFF

  predicate IsDigit(c: Byte) { '0' <= c <= '9' }

  function DigitValue(c: Byte): int { c as int - '0' as int }

  function DigitChar(d: nat): (c: Byte)
    requires d < 10
    ensures IsDigit(c) && DigitValue(c) == d
  {
    (d + '0' as int) as char
  }

  predicate AllDigits(s: Bytes) { forall c :: c in s ==> IsDigit(c) }

  /** strconv.Itoa on a non-negative number. */
  function Itoa(n: nat): (s: Bytes)
    ensures s != [] && AllDigits(s)
  {
    if n < 10 then [DigitChar(n)] else Itoa(n / 10) + [DigitChar(n % 10)]
  }

  function DecimalValue(s: Bytes): int {
    if s == [] then 0 else 10 * DecimalValue(s[..|s| - 1]) + DigitValue(s[|s| - 1])
  }

  /** strconv.Atoi: an optional sign, then digits, within the 64-bit range. */
  function Atoi(s: Bytes): Option<int> {
    var body := if s != [] && (s[0] == '+' || s[0] == '-') then s[1..] else s;
    if body == [] || !AllDigits(body) then None
    else
      var v := if s[0] == '-' then -DecimalValue(body) else DecimalValue(body);
      if -MAX_INT64 - 1 <= v <= MAX_INT64 then Some(v) else None
  }

  lemma {:induction false} DecimalOfItoa(n: nat)
    ensures DecimalValue(Itoa(n)) == n
  {
    if n >= 10 {
      DecimalOfItoa(n / 10);
      assert Itoa(n)[..|Itoa(n)| - 1] == Itoa(n / 10);
    }
  }

  /** Printing then reading a number that fits 64 bits gives it back. */
  lemma AtoiItoa(n: nat)
    ensures Atoi(Itoa(n)) == if n <= MAX_INT64 then Some(n) else None
  {
    DecimalOfItoa(n);
    assert IsDigit(Itoa(n)[0]);
  }

  lemma ItoaInjective(m: nat, n: nat)
    requires Itoa(m) == Itoa(n)
    ensures m == n
  {
    DecimalOfItoa(m);
    DecimalOfItoa(n);
  }
}
