/** Log redaction: five scanning passes against the one-sweep description of what they hide. */
module Redaction {
  import opened Text

  const MARKERS: seq<Bytes> := ["uuid=", "password=", "passwd=", "token=", "pbk="]
  const STARS: Bytes := "***"

  predicate IsDelimiter(c: Byte) {
    c == ' ' || c == '\t' || c == '\n' || c == '\r' || c == '"' || c == '\'' || c == ',' || c == ';'
  }

  predicate DelimiterFree(s: Bytes) { forall k :: 0 <= k < |s| ==> !IsDelimiter(s[k]) }

  /** A usable marker: lower case text that holds no delimiter and does not end in a star. */
  predicate IsMarker(m: Bytes) { m != [] && DelimiterFree(m) && m[|m| - 1] != '*' }

  predicate AllMarkers(ms: seq<Bytes>) { forall m :: m in ms ==> IsMarker(m) }

  function LowerByte(c: Byte): Byte {
    if 'A' <= c <= 'Z' then (c as int + 32) as char else c
  }

  /** strings.ToLower on ASCII text. */
  function Lower(s: Bytes): (r: Bytes)
    ensures |r| == |s| && forall k :: 0 <= k < |s| ==> r[k] == LowerByte(s[k])
  {
    seq(|s|, k requires 0 <= k < |s| => LowerByte(s[k]))
  }

  // ---------------------------------------------------------------- one pass, as the code scans

  /** strings.IndexAny for the delimiters, |s| when there is none. */
  function FirstDelimiter(s: Bytes): (e: nat)
    ensures e <= |s| && DelimiterFree(s[..e])
    ensures e < |s| ==> IsDelimiter(s[e])
  {
    if s == [] || IsDelimiter(s[0]) then 0
    else
      var e := FirstDelimiter(s[1..]) + 1;
      assert forall k :: 0 < k < e ==> s[..e][k] == s[1..][..e - 1][k - 1];
      e
  }

  /** The text one pass makes of `msg`. */
  function Pass(msg: Bytes, m: Bytes): Bytes
    requires m != []
    decreases |msg|, 0
  {
    var i := Index(Lower(msg), m, 0);
    if i < 0 then msg else msg[..i + |m|] + (STARS + PassAfter(msg[i + |m|..], m))
  }

  /** How the pass goes on behind a marker it has found: at the next delimiter. */
  function PassAfter(rest: Bytes, m: Bytes): Bytes
    requires m != []
    decreases |rest|, 1
  {
    var e := FirstDelimiter(rest);
    if e == |rest| then [] else Pass(rest[e..], m)
  }

  /** redactMarker: the scanning loop. */
  method RedactMarker(text: Bytes, marker: Bytes) returns (out: Bytes)
    requires marker != []
    ensures out == Pass(text, marker)
  {
    hide Pass, PassAfter, Index, FirstDelimiter;
    var msg, lower := text, Lower(text);
    out := [];
    while true
      invariant lower == Lower(msg)
      invariant Pass(text, marker) == out + Pass(msg, marker)
      decreases |msg|
    {
      ghost var before := out;
      var i := Index(lower, marker, 0);
      if i < 0 {
        PassNothing(msg, marker);
        out := out + msg;
        break;
      }
      var kept, rest := msg[..i + |marker|], msg[i + |marker|..];
      var e := FirstDelimiter(rest);
      out := out + kept + STARS;
      PassFound(msg, marker, i + |marker|);
      PassContinues(before, kept, PassAfter(rest, marker));
      PassAfterIs(rest, marker);
      if e == |rest| {
        assert out + [] == out;
        break;
      }
      msg, lower := rest[e..], Lower(rest[e..]);
    }
  }

  lemma PassNothing(msg: Bytes, m: Bytes)
    requires m != [] && Index(Lower(msg), m, 0) < 0
    ensures Pass(msg, m) == msg
  {
  }

  lemma PassFound(msg: Bytes, m: Bytes, j: nat)
    requires m != [] && j >= |m| && Index(Lower(msg), m, 0) == j - |m|
    ensures j <= |msg| && Pass(msg, m) == msg[..j] + (STARS + PassAfter(msg[j..], m))
  {
  }

  lemma PassAfterIs(rest: Bytes, m: Bytes)
    requires m != []
    ensures var e := FirstDelimiter(rest);
            PassAfter(rest, m) == if e == |rest| then [] else Pass(rest[e..], m)
  {
  }

  lemma PassContinues(before: Bytes, kept: Bytes, after: Bytes)
    ensures before + (kept + (STARS + after)) == before + kept + STARS + after
  {
  }

  /** The passes of Redact, one marker after the other. */
  function Passes(msg: Bytes, ms: seq<Bytes>): Bytes
    requires AllMarkers(ms)
    decreases |ms|
  {
    if ms == [] then msg else assert ms[0] in ms; Passes(Pass(msg, ms[0]), ms[1..])
  }

  /** Redact: its result is the text with everything behind the first marker of each chunk hidden. */
  method Redact(text: Bytes) returns (msg: Bytes)
    ensures msg == Sweep(text, MARKERS)
  {
    hide Sweep, Pass, IsMarker;
    var markers := MARKERS;
    MarkersAreMarkers();
    msg := text;
    SweepNothing(text);
    assert markers[..0] == [];
    for k := 0 to |markers|
      invariant msg == Sweep(text, markers[..k])
    {
      assert markers[k] in markers;
      SweepPass(text, markers[..k], markers[k]);
      assert markers[..k + 1] == markers[..k] + [markers[k]];
      msg := RedactMarker(msg, markers[k]);
    }
    assert markers[..|markers|] == markers;
  }

  // ---------------------------------------------------------------- the simple form

  predicate EndsAt(s: Bytes, m: Bytes, j: int) { |m| <= j <= |s| && Lower(s[j - |m|..j]) == m }

  predicate SomeEndsAt(s: Bytes, ms: seq<Bytes>, j: int) { exists m :: m in ms && EndsAt(s, m, j) }

  /** The smallest position at or after `j` where some marker ends, or -1. */
  function FirstEnd(s: Bytes, ms: seq<Bytes>, j: nat): (r: int)
    ensures r == -1 || (j <= r <= |s| && SomeEndsAt(s, ms, r))
    ensures forall k :: j <= k <= |s| && (r == -1 || k < r) ==> !SomeEndsAt(s, ms, k)
    decreases |s| + 1 - j
  {
    if j > |s| then -1 else if SomeEndsAt(s, ms, j) then j else FirstEnd(s, ms, j + 1)
  }

  /** A chunk keeps its text through the first marker of any kind; the rest becomes three stars. */
  function Cut(chunk: Bytes, ms: seq<Bytes>): Bytes {
    var j := FirstEnd(chunk, ms, 0);
    if j < 0 then chunk else chunk[..j] + STARS
  }

  /** Every delimiter-free chunk cut, the delimiters kept. */
  function Sweep(msg: Bytes, ms: seq<Bytes>): Bytes
    decreases |msg|
  {
    var e := FirstDelimiter(msg);
    if e == |msg| then Cut(msg, ms)
    else Cut(msg[..e], ms) + [msg[e]] + Sweep(msg[e + 1..], ms)
  }

  // ---------------------------------------------------------------- chunk by chunk

  lemma FirstDelimiterIs(chunk: Bytes, rest: Bytes)
    requires DelimiterFree(chunk)
    requires rest == [] || IsDelimiter(rest[0])
    ensures FirstDelimiter(chunk + rest) == |chunk|
  {
    var s := chunk + rest;
    var e := FirstDelimiter(s);
    assert forall k :: 0 <= k < e ==> s[..e][k] == s[k];
    assert rest != [] ==> s[|chunk|] == rest[0];
    assert forall k :: 0 <= k < |chunk| ==> s[k] == chunk[k];
  }

  lemma SweepPeel(chunk: Bytes, d: Byte, rest: Bytes, ms: seq<Bytes>)
    requires DelimiterFree(chunk) && IsDelimiter(d)
    ensures Sweep(chunk + ([d] + rest), ms) == Cut(chunk, ms) + ([d] + Sweep(rest, ms))
  {
    var s := chunk + ([d] + rest);
    FirstDelimiterIs(chunk, [d] + rest);
    SliceRight(chunk, [d] + rest, 0);
    SliceRight(chunk, [d] + rest, 1);
    Grouping(Cut(chunk, ms), [d], Sweep(rest, ms));
    assert s[..|chunk|] == chunk && s[|chunk|] == d && s[|chunk| + 1..] == rest;
  }

  lemma SweepChunk(chunk: Bytes, rest: Bytes, ms: seq<Bytes>)
    requires DelimiterFree(chunk) && AllMarkers(ms)
    requires rest == [] || IsDelimiter(rest[0])
    ensures Sweep(chunk + rest, ms) == Cut(chunk, ms) + Sweep(rest, ms)
  {
    CutEmpty(ms);
    if rest == [] {
      assert chunk + rest == chunk;
      FirstDelimiterIs(chunk, []);
      assert Cut(chunk, ms) + [] == Cut(chunk, ms);
    } else {
      assert rest == [rest[0]] + rest[1..] == [] + ([rest[0]] + rest[1..]);
      SweepPeel(chunk, rest[0], rest[1..], ms);
      SweepPeel([], rest[0], rest[1..], ms);
      assert [] + ([rest[0]] + Sweep(rest[1..], ms)) == [rest[0]] + Sweep(rest[1..], ms);
    }
  }

  lemma CutEmpty(ms: seq<Bytes>)
    requires AllMarkers(ms)
    ensures Cut([], ms) == [] && Sweep([], ms) == []
  {
    assert !SomeEndsAt([], ms, 0);
  }

  lemma CutDelimiterFree(chunk: Bytes, ms: seq<Bytes>)
    requires DelimiterFree(chunk)
    ensures DelimiterFree(Cut(chunk, ms))
  {
  }

  lemma SweepLast(chunk: Bytes, ms: seq<Bytes>)
    requires DelimiterFree(chunk)
    ensures Sweep(chunk, ms) == Cut(chunk, ms)
  {
    FirstDelimiterIs(chunk, []);
    assert chunk + [] == chunk;
  }

  lemma CutNothing(chunk: Bytes)
    ensures Cut(chunk, []) == chunk
  {
  }

  lemma {:induction false} SweepNothing(msg: Bytes)
    ensures Sweep(msg, []) == msg
    decreases |msg|
  {
    hide Sweep, Cut;
    var e := FirstDelimiter(msg);
    CutNothing(msg[..e]);
    if e < |msg| {
      SweepPeel(msg[..e], msg[e], msg[e + 1..], []);
      SweepNothing(msg[e + 1..]);
      assert msg == msg[..e] + ([msg[e]] + msg[e + 1..]);
    } else {
      assert msg[..e] == msg;
      SweepLast(msg, []);
    }
  }

  // ---------------------------------------------------------------- a pass is a sweep for one marker

  predicate StartsAt(s: Bytes, m: Bytes, i: int) { OccursAt(Lower(s), m, i) }

  lemma StartsMeansEnds(s: Bytes, m: Bytes, i: nat)
    ensures StartsAt(s, m, i) <==> EndsAt(s, m, i + |m|)
  {
    if i + |m| <= |s| {
      assert Lower(s[i..i + |m|]) == Lower(s)[i..i + |m|];
    }
  }

  lemma StartsInTail(p: Bytes, t: Bytes, m: Bytes, i: nat)
    requires |p| <= i
    ensures StartsAt(p + t, m, i) <==> StartsAt(t, m, i - |p|)
  {
    if i + |m| <= |p| + |t| {
      assert Lower(p + t)[i..i + |m|] == Lower(t)[i - |p|..i - |p| + |m|];
    }
  }

  lemma IndexBehind(p: Bytes, t: Bytes, m: Bytes)
    requires forall i :: 0 <= i < |p| ==> !StartsAt(p + t, m, i)
    ensures var k := Index(Lower(t), m, 0);
            Index(Lower(p + t), m, 0) == if k < 0 then -1 else |p| + k
  {
    var k := Index(Lower(t), m, 0);
    var i := if k < 0 then -1 else |p| + k;
    if k >= 0 {
      assert StartsAt(t, m, k);
      StartsInTail(p, t, m, i);
      assert OccursAt(Lower(p + t), m, i);
    }
    forall j | 0 <= j && (i == -1 || j < i) ensures !OccursAt(Lower(p + t), m, j) {
      assert StartsAt(p + t, m, j) <==> OccursAt(Lower(p + t), m, j);
      if j >= |p| {
        StartsInTail(p, t, m, j);
        assert StartsAt(t, m, j - |p|) <==> OccursAt(Lower(t), m, j - |p|);
      }
    }
    IndexIs(Lower(p + t), m, i);
  }

  /** A pass leaves alone a prefix in which no occurrence begins. */
  lemma PassSkips(p: Bytes, t: Bytes, m: Bytes)
    requires m != []
    requires forall i :: 0 <= i < |p| ==> !StartsAt(p + t, m, i)
    ensures Pass(p + t, m) == p + Pass(t, m)
  {
    hide *;
    IndexBehind(p, t, m);
    var k := Index(Lower(t), m, 0);
    if k >= 0 {
      var j := k + |m|;
      PassFound(t, m, j);
      PassFound(p + t, m, |p| + j);
      SliceRight(p, t, j);
      Grouping(p, t[..j], STARS + PassAfter(t[j..], m));
    } else {
      PassNothing(t, m);
      PassNothing(p + t, m);
    }
  }

  /** No marker straddles a delimiter. */
  lemma NoStraddle(msg: Bytes, m: Bytes, e: nat, i: nat)
    requires IsMarker(m) && e < |msg| && IsDelimiter(msg[e])
    requires i <= e < i + |m|
    ensures !StartsAt(msg, m, i)
  {
    if i + |m| <= |msg| {
      assert Lower(msg)[i..i + |m|][e - i] == Lower(msg)[e] == msg[e];
    }
  }

  lemma PassOfEmpty(m: Bytes)
    requires m != []
    ensures Pass([], m) == []
  {
  }

  lemma {:induction false} PassIsSweep(msg: Bytes, m: Bytes)
    requires IsMarker(m)
    ensures Pass(msg, m) == Sweep(msg, [m])
    decreases |msg|
  {
    hide Pass, Sweep, Cut, StartsAt;
    var e := FirstDelimiter(msg);
    var chunk, tail := msg[..e], msg[e..];
    assert msg == chunk + tail;
    SweepChunk(chunk, tail, [m]);
    PassOfChunk(chunk, tail, m);
    CutEmpty([m]);
    if e == |msg| {
      PassOfEmpty(m);
    } else {
      assert tail == [tail[0]] + tail[1..] == [] + ([tail[0]] + tail[1..]);
      NoStraddle(tail, m, 0, 0);
      PassSkips([tail[0]], tail[1..], m);
      SweepPeel([], tail[0], tail[1..], [m]);
      PassIsSweep(tail[1..], m);
    }
  }

  lemma StartsInChunk(chunk: Bytes, tail: Bytes, m: Bytes, i: nat)
    requires IsMarker(m) && i < |chunk|
    requires tail == [] || IsDelimiter(tail[0])
    ensures StartsAt(chunk + tail, m, i) <==> SomeEndsAt(chunk, [m], i + |m|)
  {
    var msg := chunk + tail;
    if i + |m| <= |chunk| {
      StartsMeansEnds(msg, m, i);
      assert msg[i..i + |m|] == chunk[i..i + |m|];
      assert m in [m];
    } else if tail != [] {
      assert msg[|chunk|] == tail[0];
      NoStraddle(msg, m, |chunk|, i);
    }
  }

  lemma PassAfterChunk(chunk: Bytes, tail: Bytes, m: Bytes)
    requires m != [] && DelimiterFree(chunk)
    requires tail == [] || IsDelimiter(tail[0])
    ensures PassAfter(chunk + tail, m) == Pass(tail, m)
  {
    FirstDelimiterIs(chunk, tail);
    assert (chunk + tail)[|chunk|..] == tail;
  }

  /** The first chunk of a pass is cut, and the pass goes on with the delimiter after it. */
  lemma PassOfChunk(chunk: Bytes, tail: Bytes, m: Bytes)
    requires IsMarker(m) && DelimiterFree(chunk)
    requires tail == [] || IsDelimiter(tail[0])
    ensures Pass(chunk + tail, m) == Cut(chunk, [m]) + Pass(tail, m)
  {
    hide Pass, PassAfter, StartsAt, SomeEndsAt, EndsAt;
    var msg := chunk + tail;
    var j := FirstEnd(chunk, [m], 0);
    if j < 0 {
      forall i | 0 <= i < |chunk| ensures !StartsAt(msg, m, i) {
        StartsInChunk(chunk, tail, m, i);
        EndsInside(chunk, [m], i + |m|);
      }
      PassSkips(chunk, tail, m);
    } else {
      IndexInChunk(chunk, tail, m, j);
      PassFound(msg, m, j);
      SliceLeft(chunk, tail, j);
      PassAfterChunk(chunk[j..], tail, m);
      Grouping(chunk[..j], STARS, Pass(tail, m));
    }
  }

  lemma EndsInside(s: Bytes, ms: seq<Bytes>, j: int)
    ensures SomeEndsAt(s, ms, j) ==> 0 <= j <= |s|
  {
  }

  lemma IndexInChunk(chunk: Bytes, tail: Bytes, m: Bytes, j: nat)
    requires IsMarker(m) && (tail == [] || IsDelimiter(tail[0]))
    requires j == FirstEnd(chunk, [m], 0)
    ensures j >= |m| && Index(Lower(chunk + tail), m, 0) == j - |m|
  {
    hide Index, FirstEnd, OccursAt;
    var msg, i := chunk + tail, j - |m|;
    assert i >= 0 && SomeEndsAt(chunk, [m], j);
    StartsInChunk(chunk, tail, m, i);
    assert StartsAt(msg, m, i);
    forall k | 0 <= k < i ensures !OccursAt(Lower(msg), m, k) {
      StartsInChunk(chunk, tail, m, k);
      assert !SomeEndsAt(chunk, [m], k + |m|);
      assert !StartsAt(msg, m, k);
    }
    IndexIs(Lower(msg), m, i);
  }

  // ---------------------------------------------------------------- sweeps compose

  lemma EndsOfUnion(c: Bytes, ms: seq<Bytes>, ns: seq<Bytes>, k: int)
    ensures SomeEndsAt(c, ms + ns, k) <==> SomeEndsAt(c, ms, k) || SomeEndsAt(c, ns, k)
  {
    if SomeEndsAt(c, ms, k) { var m :| m in ms && EndsAt(c, m, k); assert m in ms + ns; }
    if SomeEndsAt(c, ns, k) { var m :| m in ns && EndsAt(c, m, k); assert m in ms + ns; }
  }

  lemma FirstEndIs(s: Bytes, ms: seq<Bytes>, j: int)
    requires j == -1 || (0 <= j <= |s| && SomeEndsAt(s, ms, j))
    requires forall k :: 0 <= k <= |s| && (j == -1 || k < j) ==> !SomeEndsAt(s, ms, k)
    ensures FirstEnd(s, ms, 0) == j
  {
  }

  lemma CutCut(c: Bytes, ms: seq<Bytes>, ns: seq<Bytes>)
    requires AllMarkers(ms) && AllMarkers(ns)
    ensures Cut(Cut(c, ms), ns) == Cut(c, ms + ns)
  {
    var j := FirstEnd(c, ms, 0);
    var d := Cut(c, ms);
    var i := FirstEnd(d, ns, 0);
    forall k ensures SomeEndsAt(c, ms + ns, k) <==> SomeEndsAt(c, ms, k) || SomeEndsAt(c, ns, k) {
      EndsOfUnion(c, ms, ns, k);
    }
    if j >= 0 {
      forall k ensures SomeEndsAt(d, ns, k) <==> k <= j && SomeEndsAt(c, ns, k) {
        CutKeepsEnds(c, ns, j, k);
      }
      FirstEndIs(c, ms + ns, if i >= 0 then i else j);
      if i >= 0 {
        SliceLeft(c[..j], STARS, i);
        assert c[..j][..i] == c[..i];
      }
    } else {
      FirstEndIs(c, ms + ns, i);
    }
  }

  /** In cut text, markers end exactly where they ended before, up to the cut. */
  lemma CutKeepsEnds(c: Bytes, ns: seq<Bytes>, j: nat, k: int)
    requires AllMarkers(ns) && j <= |c|
    ensures SomeEndsAt(c[..j] + STARS, ns, k) <==> k <= j && SomeEndsAt(c, ns, k)
  {
    var d := c[..j] + STARS;
    forall m | m in ns ensures EndsAt(d, m, k) <==> k <= j && EndsAt(c, m, k) {
      if |m| <= k <= j {
        assert d[k - |m|..k] == c[k - |m|..k];
      } else if |m| <= k && j < k <= |d| {
        assert Lower(d[k - |m|..k])[|m| - 1] == '*';
      }
    }
  }

  lemma {:induction false} SweepSweep(msg: Bytes, ms: seq<Bytes>, ns: seq<Bytes>)
    requires AllMarkers(ms) && AllMarkers(ns)
    ensures Sweep(Sweep(msg, ms), ns) == Sweep(msg, ms + ns)
    decreases |msg|
  {
    hide Sweep, Cut;
    var e := FirstDelimiter(msg);
    var chunk := msg[..e];
    CutCut(chunk, ms, ns);
    CutDelimiterFree(chunk, ms);
    if e == |msg| {
      assert chunk == msg;
      SweepLast(msg, ms);
      SweepLast(msg, ms + ns);
      SweepLast(Cut(msg, ms), ns);
    } else {
      assert msg == chunk + ([msg[e]] + msg[e + 1..]);
      SweepPeel(chunk, msg[e], msg[e + 1..], ms);
      SweepPeel(chunk, msg[e], msg[e + 1..], ms + ns);
      SweepPeel(Cut(chunk, ms), msg[e], Sweep(msg[e + 1..], ms), ns);
      SweepSweep(msg[e + 1..], ms, ns);
    }
  }

  lemma SweepPass(msg: Bytes, ms: seq<Bytes>, m: Bytes)
    requires AllMarkers(ms) && IsMarker(m)
    ensures Pass(Sweep(msg, ms), m) == Sweep(msg, ms + [m])
  {
    PassIsSweep(Sweep(msg, ms), m);
    SweepSweep(msg, ms, [m]);
  }

  // ---------------------------------------------------------------- what redaction promises

  /** Any list of passes equals one sweep for all their markers. */
  lemma {:induction false} PassesAreOneSweep(msg: Bytes, ms: seq<Bytes>)
    requires AllMarkers(ms)
    ensures Passes(msg, ms) == Sweep(msg, ms)
    decreases |ms|
  {
    if ms == [] {
      SweepNothing(msg);
    } else {
      assert ms == [ms[0]] + ms[1..];
      PassIsSweep(msg, ms[0]);
      PassesAreOneSweep(Pass(msg, ms[0]), ms[1..]);
      SweepSweep(msg, [ms[0]], ms[1..]);
    }
  }

  /** Only which markers are swept for matters, not their order or repetition. */
  lemma {:induction false} SweepSameMarkers(msg: Bytes, ms: seq<Bytes>, ns: seq<Bytes>)
    requires forall m :: m in ms <==> m in ns
    ensures Sweep(msg, ms) == Sweep(msg, ns)
    decreases |msg|
  {
    hide Cut, FirstDelimiter;
    var e := FirstDelimiter(msg);
    if e < |msg| {
      SameCut(msg[..e], ms, ns);
      SweepSameMarkers(msg[e + 1..], ms, ns);
    } else {
      SameCut(msg, ms, ns);
    }
  }

  lemma SameCut(chunk: Bytes, ms: seq<Bytes>, ns: seq<Bytes>)
    requires forall m :: m in ms <==> m in ns
    ensures Cut(chunk, ms) == Cut(chunk, ns)
  {
    hide FirstEnd;
    SameFirstEnd(chunk, ms, ns, 0);
  }

  lemma {:induction false} SameFirstEnd(s: Bytes, ms: seq<Bytes>, ns: seq<Bytes>, j: nat)
    requires forall m :: m in ms <==> m in ns
    ensures FirstEnd(s, ms, j) == FirstEnd(s, ns, j)
    decreases |s| + 1 - j
  {
    assert SomeEndsAt(s, ms, j) <==> SomeEndsAt(s, ns, j);
    hide SomeEndsAt;
    if j <= |s| {
      SameFirstEnd(s, ms, ns, j + 1);
    }
  }

  lemma MarkersAreMarkers()
    ensures AllMarkers(MARKERS)
  {
    forall m | m in MARKERS ensures IsMarker(m) {
      assert m == MARKERS[0] || m == MARKERS[1] || m == MARKERS[2] || m == MARKERS[3] || m == MARKERS[4];
    }
  }

  /** The passes may run in any order: the result is the same. */
  lemma PassOrderIsIrrelevant(msg: Bytes, ms: seq<Bytes>)
    requires AllMarkers(ms) && forall m :: m in ms <==> m in MARKERS
    ensures Passes(msg, ms) == Sweep(msg, MARKERS)
  {
    PassesAreOneSweep(msg, ms);
    SweepSameMarkers(msg, ms, MARKERS);
  }

  /** Redacting twice is redacting once, and no single pass changes redacted text. */
  lemma RedactIsIdempotent(msg: Bytes)
    ensures Sweep(Sweep(msg, MARKERS), MARKERS) == Sweep(msg, MARKERS)
    ensures forall m :: m in MARKERS ==> IsMarker(m) && Pass(Sweep(msg, MARKERS), m) == Sweep(msg, MARKERS)
  {
    MarkersAreMarkers();
    SweepSweep(msg, MARKERS, MARKERS);
    SweepSameMarkers(msg, MARKERS + MARKERS, MARKERS);
    forall m | m in MARKERS ensures IsMarker(m) && Pass(Sweep(msg, MARKERS), m) == Sweep(msg, MARKERS) {
      SweepPass(msg, MARKERS, m);
      SweepSameMarkers(msg, MARKERS + [m], MARKERS);
    }
  }

  predicate EndsInStars(s: Bytes) { |s| >= 3 && s[|s| - 3..] == STARS }

  /** The text after a marker, up to the next delimiter, never influences the result. */
  lemma {:induction false} SecretIsHidden(pre: Bytes, mark: Bytes, secret: Bytes, post: Bytes)
    requires Lower(mark) in MARKERS
    requires DelimiterFree(secret)
    requires post == [] || IsDelimiter(post[0])
    ensures EndsInStars(Sweep(pre + mark, MARKERS))
    ensures Sweep(pre + mark + secret + post, MARKERS) == Sweep(pre + mark, MARKERS) + Sweep(post, MARKERS)
    decreases |pre|
  {
    hide Sweep, Cut;
    var e := FirstDelimiter(pre);
    if e < |pre| {
      SecretIsHidden(pre[e + 1..], mark, secret, post);
      SecretInLaterChunk(pre[..e], pre[e], pre[e + 1..], mark, secret, post);
      assert pre == pre[..e] + ([pre[e]] + pre[e + 1..]);
    } else {
      assert pre[..e] == pre;
      SecretInLastChunk(pre, mark, secret, post);
    }
  }

  lemma SecretInLaterChunk(chunk: Bytes, d: Byte, t: Bytes, mark: Bytes, secret: Bytes, post: Bytes)
    requires DelimiterFree(chunk) && IsDelimiter(d)
    requires EndsInStars(Sweep(t + mark, MARKERS))
    requires Sweep(t + mark + secret + post, MARKERS) == Sweep(t + mark, MARKERS) + Sweep(post, MARKERS)
    ensures var pre := chunk + ([d] + t);
            && EndsInStars(Sweep(pre + mark, MARKERS))
            && Sweep(pre + mark + secret + post, MARKERS) == Sweep(pre + mark, MARKERS) + Sweep(post, MARKERS)
  {
    hide *;
    var pre := chunk + ([d] + t);
    assert pre + mark == chunk + ([d] + (t + mark));
    assert pre + mark + secret + post == chunk + ([d] + (t + mark + secret + post));
    SweepPeel(chunk, d, t + mark, MARKERS);
    SweepPeel(chunk, d, t + mark + secret + post, MARKERS);
    SameLastThree(Cut(chunk, MARKERS), [d], Sweep(t + mark, MARKERS), Sweep(post, MARKERS));
  }

  lemma SecretInLastChunk(pre: Bytes, mark: Bytes, secret: Bytes, post: Bytes)
    requires Lower(mark) in MARKERS
    requires DelimiterFree(pre) && DelimiterFree(secret)
    requires post == [] || IsDelimiter(post[0])
    ensures EndsInStars(Sweep(pre + mark, MARKERS))
    ensures Sweep(pre + mark + secret + post, MARKERS) == Sweep(pre + mark, MARKERS) + Sweep(post, MARKERS)
  {
    hide Sweep, Cut;
    var shown := pre + mark;
    MarkersAreMarkers();
    MarkIsDelimiterFree(mark);
    SweepChunk(shown + secret, post, MARKERS);
    SweepLast(shown, MARKERS);
    SecretIsCut(pre, mark, secret);
  }

  lemma SameLastThree(a: Bytes, b: Bytes, c: Bytes, d: Bytes)
    requires EndsInStars(c)
    ensures EndsInStars(a + (b + c)) && a + (b + (c + d)) == a + (b + c) + d
  {
    assert (a + (b + c))[|a| + |b| + |c| - 3..] == c[|c| - 3..];
  }

  lemma MarkIsDelimiterFree(mark: Bytes)
    requires Lower(mark) in MARKERS
    ensures DelimiterFree(mark) && mark != []
  {
    MarkersAreMarkers();
    forall k | 0 <= k < |mark| ensures !IsDelimiter(mark[k]) {
      assert !IsDelimiter(Lower(mark)[k]);
    }
  }

  lemma SecretIsCut(pre: Bytes, mark: Bytes, secret: Bytes)
    requires Lower(mark) in MARKERS
    ensures Cut(pre + mark + secret, MARKERS) == Cut(pre + mark, MARKERS)
    ensures EndsInStars(Cut(pre + mark, MARKERS))
  {
    var shown := pre + mark;
    assert shown[|pre|..] == mark;
    assert EndsAt(shown, Lower(mark), |shown|);
    assert SomeEndsAt(shown, MARKERS, |shown|);
    var all := shown + secret;
    forall j | j <= |shown| ensures SomeEndsAt(all, MARKERS, j) <==> SomeEndsAt(shown, MARKERS, j) {
      forall m: Bytes ensures EndsAt(all, m, j) <==> EndsAt(shown, m, j) {
        if |m| <= j { assert all[j - |m|..j] == shown[j - |m|..j]; }
      }
    }
    var j := FirstEnd(shown, MARKERS, 0);
    assert j == FirstEnd(all, MARKERS, 0);
    assert all[..j] == shown[..j];
  }

  /** Two messages that differ only in a secret redact to the same text. */
  lemma SecretsAreInterchangeable(pre: Bytes, mark: Bytes, secret: Bytes, other: Bytes, post: Bytes)
    requires Lower(mark) in MARKERS
    requires DelimiterFree(secret) && DelimiterFree(other)
    requires post == [] || IsDelimiter(post[0])
    ensures Sweep(pre + mark + secret + post, MARKERS) == Sweep(pre + mark + other + post, MARKERS)
  {
    SecretIsHidden(pre, mark, secret, post);
    SecretIsHidden(pre, mark, other, post);
  }

  /** Text in which no marker occurs passes through unchanged. */
  lemma {:induction false} InnocentTextIsKept(msg: Bytes)
    requires forall j :: 0 <= j <= |msg| ==> !SomeEndsAt(msg, MARKERS, j)
    ensures Sweep(msg, MARKERS) == msg
    decreases |msg|
  {
    hide Sweep;
    var e := FirstDelimiter(msg);
    NoEndInSlice(msg, 0, e);
    assert Cut(msg[..e], MARKERS) == msg[..e] by { assert msg[0..e] == msg[..e]; }
    if e == |msg| {
      assert msg[..e] == msg;
      SweepLast(msg, MARKERS);
    } else {
      assert msg == msg[..e] + ([msg[e]] + msg[e + 1..]);
      NoEndInSlice(msg, e + 1, |msg|);
      assert msg[e + 1..|msg|] == msg[e + 1..];
      InnocentTextIsKept(msg[e + 1..]);
      SweepPeel(msg[..e], msg[e], msg[e + 1..], MARKERS);
    }
  }

  /** Nothing in `pre + mark` reads as a marker before its end. */
  ghost predicate FirstMarkerIs(pre: Bytes, mark: Bytes) {
    forall j :: 0 <= j < |pre| + |mark| ==> !SomeEndsAt(pre + mark, MARKERS, j)
  }

  /** Text through its first marker is kept, and a mask put behind it. */
  lemma {:induction false} MaskStandsBehind(pre: Bytes, mark: Bytes)
    requires Lower(mark) in MARKERS && FirstMarkerIs(pre, mark)
    ensures Sweep(pre + mark, MARKERS) == pre + mark + STARS
    decreases |pre|
  {
    hide Sweep;
    var e := FirstDelimiter(pre);
    MarkIsDelimiterFree(mark);
    if e == |pre| {
      assert pre[..e] == pre;
      MaskInOneChunk(pre, mark);
    } else {
      var chunk, rest := pre[..e], pre[e + 1..];
      assert pre == chunk + ([pre[e]] + rest);
      LaterMarkerIsFirst(pre, mark, e);
      MaskStandsBehind(rest, mark);
      assert pre + mark == chunk + ([pre[e]] + (rest + mark));
      SweepPeel(chunk, pre[e], rest + mark, MARKERS);
      assert chunk + ([pre[e]] + (rest + mark + STARS)) == pre + mark + STARS;
    }
  }

  lemma MaskInOneChunk(pre: Bytes, mark: Bytes)
    requires DelimiterFree(pre) && Lower(mark) in MARKERS && FirstMarkerIs(pre, mark)
    ensures Sweep(pre + mark, MARKERS) == pre + mark + STARS
  {
    var shown := pre + mark;
    MarkIsDelimiterFree(mark);
    SweepLast(shown, MARKERS);
    assert shown[|pre|..] == mark;
    assert EndsAt(shown, Lower(mark), |shown|);
    assert SomeEndsAt(shown, MARKERS, |shown|);
    hide Sweep;
    assert FirstEnd(shown, MARKERS, 0) == |shown|;
    assert shown[..|shown|] == shown;
  }

  /** The chunk before a delimiter holds no marker, and in the text behind it the same marker is the first. */
  lemma LaterMarkerIsFirst(pre: Bytes, mark: Bytes, e: nat)
    requires e < |pre| && FirstMarkerIs(pre, mark)
    ensures Cut(pre[..e], MARKERS) == pre[..e] && FirstMarkerIs(pre[e + 1..], mark)
  {
    var shown := pre + mark;
    assert shown[0..e] == pre[..e];
    assert shown[e + 1..|shown|] == pre[e + 1..] + mark;
    forall j | 0 <= j <= e ensures !SomeEndsAt(pre[..e], MARKERS, j) {
      EndsInSlice(shown, 0, e, MARKERS, j);
    }
    var later := pre[e + 1..] + mark;
    forall j | 0 <= j < |later| ensures !SomeEndsAt(later, MARKERS, j) {
      EndsInSlice(shown, e + 1, |shown|, MARKERS, j);
    }
  }

  /** The whole result for a message with one marker: only the secret behind it is replaced. */
  lemma OnlyTheSecretGoes(pre: Bytes, mark: Bytes, secret: Bytes, post: Bytes)
    requires Lower(mark) in MARKERS && FirstMarkerIs(pre, mark) && DelimiterFree(secret)
    requires post == [] || IsDelimiter(post[0])
    requires forall j :: 0 <= j <= |post| ==> !SomeEndsAt(post, MARKERS, j)
    ensures Sweep(pre + mark + secret + post, MARKERS) == pre + mark + "***" + post
  {
    hide Sweep, SomeEndsAt, Lower, IsDelimiter, DelimiterFree;
    SecretIsHidden(pre, mark, secret, post);
    MaskStandsBehind(pre, mark);
    InnocentTextIsKept(post);
  }

  const CAPITALS: Bytes := "ABCDEFGHIJKLMNOPQRSTUVWXYZ"
  const SMALL: Bytes := "abcdefghijklmnopqrstuvwxyz"

  /** The same text up to capitals. */
  predicate SameButCase(s: Bytes, t: Bytes) {
    |s| == |t| && forall k :: 0 <= k < |s| ==>
      s[k] == t[k] || exists i :: 0 <= i < 26 && CAPITALS[i] == s[k] && SMALL[i] == t[k]
  }

  lemma CapitalsFold(i: nat)
    requires i < 26
    ensures LowerByte(CAPITALS[i]) == SMALL[i] == LowerByte(SMALL[i])
  {
    assert CAPITALS[i] as int == 65 + i && SMALL[i] as int == 97 + i;
  }

  /** A marker counts however its letters are capitalised. */
  lemma CapitalsCount(mark: Bytes, m: Bytes)
    requires m in MARKERS && SameButCase(mark, m)
    ensures Lower(mark) == m
  {
    MarkersAreSmall(m);
    forall k | 0 <= k < |mark| ensures Lower(mark)[k] == m[k] {
      if mark[k] != m[k] {
        var i :| 0 <= i < 26 && CAPITALS[i] == mark[k] && SMALL[i] == m[k];
        CapitalsFold(i);
      }
    }
  }

  lemma MarkersAreSmall(m: Bytes)
    requires m in MARKERS
    ensures forall k :: 0 <= k < |m| ==> LowerByte(m[k]) == m[k]
  {
    assert m == MARKERS[0] || m == MARKERS[1] || m == MARKERS[2] || m == MARKERS[3] || m == MARKERS[4];
  }

  /** What ends a secret. */
  lemma DelimitersExactly(c: Byte)
    ensures IsDelimiter(c) <==> c in " \t\n\r\"',;"
  {
  }

  lemma NoEndInSlice(msg: Bytes, a: nat, b: nat)
    requires a <= b <= |msg|
    requires forall j :: 0 <= j <= |msg| ==> !SomeEndsAt(msg, MARKERS, j)
    ensures forall j :: 0 <= j <= b - a ==> !SomeEndsAt(msg[a..b], MARKERS, j)
  {
    forall j | 0 <= j <= b - a ensures !SomeEndsAt(msg[a..b], MARKERS, j) {
      EndsInSlice(msg, a, b, MARKERS, j);
    }
  }

  lemma SliceOfSlice(msg: Bytes, a: nat, b: nat, p: nat, q: nat)
    requires a <= b <= |msg| && p <= q <= b - a
    ensures msg[a..b][p..q] == msg[a + p..a + q]
  {
    var s, t := msg[a..b][p..q], msg[a + p..a + q];
    assert |s| == |t| && forall k :: 0 <= k < |s| ==> s[k] == msg[a + (p + k)] == t[k];
  }

  lemma EndsInSlice(msg: Bytes, a: nat, b: nat, ms: seq<Bytes>, j: nat)
    requires a <= b <= |msg|
    ensures SomeEndsAt(msg[a..b], ms, j) ==> SomeEndsAt(msg, ms, a + j)
  {
    var s := msg[a..b];
    if SomeEndsAt(s, ms, j) {
      var m :| m in ms && EndsAt(s, m, j);
      var i := a + j;
      assert j <= |s| && i <= |msg|;
      SliceOfSlice(msg, a, b, j - |m|, j);
      assert EndsAt(msg, m, i);
    }
  }

  // ---------------------------------------------------------------- text that lower case makes longer

  /**
   * A pass with any lower-casing, whose result may be longer than the text: offsets found in the
   * lowered text index the text itself. None is a slice out of range.
   */
  function PassIn(lower: Bytes -> Bytes, msg: Bytes, m: Bytes): Option<Bytes>
    requires m != []
    decreases |msg|
  {
    var i := Index(lower(msg), m, 0);
    if i < 0 then Some(msg)
    else if i + |m| > |msg| then None
    else
      var rest := msg[i + |m|..];
      var e := FirstDelimiter(rest);
      if e == |rest| then Some(msg[..i + |m|] + STARS)
      else
        var tail := PassIn(lower, rest[e..], m);
        if tail.None? then None else Some(msg[..i + |m|] + (STARS + tail.value))
  }

  /** The first marker found in the lowered text ends within the text. */
  predicate FindsWithin(lower: Bytes -> Bytes, msg: Bytes, m: Bytes) {
    var i := Index(lower(msg), m, 0);
    i < 0 || i + |m| <= |msg|
  }

  /** The texts the pass starts on: the message, then what is left at the delimiter behind each mask. */
  function Entered(lower: Bytes -> Bytes, msg: Bytes, m: Bytes): seq<Bytes>
    requires m != []
    decreases |msg|
  {
    var i := Index(lower(msg), m, 0);
    if i < 0 || i + |m| > |msg| then [msg]
    else
      var rest := msg[i + |m|..];
      var e := FirstDelimiter(rest);
      [msg] + if e == |rest| then [] else Entered(lower, rest[e..], m)
  }

  lemma EnteredOnce(lower: Bytes -> Bytes, msg: Bytes, m: Bytes)
    requires m != []
    requires var i := Index(lower(msg), m, 0);
             i < 0 || i + |m| > |msg| || FirstDelimiter(msg[i + |m|..]) == |msg[i + |m|..]|
    ensures Entered(lower, msg, m) == [msg]
  {
    hide Index, FirstDelimiter;
  }

  lemma EnteredOnwards(lower: Bytes -> Bytes, msg: Bytes, m: Bytes, j: nat)
    requires m != [] && |m| <= j <= |msg| && Index(lower(msg), m, 0) == j - |m|
    requires FirstDelimiter(msg[j..]) < |msg[j..]|
    ensures var next := msg[j..][FirstDelimiter(msg[j..])..];
            forall t :: t in Entered(lower, msg, m) <==> t == msg || t in Entered(lower, next, m)
  {
    hide Index, FirstDelimiter;
  }

  /** A pass over a message stays in range if and only if each text it starts on holds its first marker whole. */
  lemma {:induction false} PassStaysInRangeExactly(lower: Bytes -> Bytes, msg: Bytes, m: Bytes)
    requires m != []
    ensures PassIn(lower, msg, m).Some? <==> forall t :: t in Entered(lower, msg, m) ==> FindsWithin(lower, t, m)
    decreases |msg|
  {
    hide Index, FirstDelimiter, PassIn, Entered;
    var i := Index(lower(msg), m, 0);
    if i < 0 {
      PassInNothing(lower, msg, m);
      EnteredOnce(lower, msg, m);
    } else if i + |m| > |msg| {
      OutsideIsOutOfRange(lower, msg, m);
      EnteredOnce(lower, msg, m);
      assert msg in Entered(lower, msg, m);
    } else {
      var rest := msg[i + |m|..];
      var e := FirstDelimiter(rest);
      PassInFound(lower, msg, m, i + |m|);
      if e < |rest| {
        PassStaysInRangeExactly(lower, rest[e..], m);
        EnteredOnwards(lower, msg, m, i + |m|);
      } else {
        EnteredOnce(lower, msg, m);
      }
    }
  }

  /** The pass starts on suffixes of the message only. */
  lemma {:induction false} EnteredAreSuffixes(lower: Bytes -> Bytes, msg: Bytes, m: Bytes, t: Bytes)
    requires m != [] && t in Entered(lower, msg, m)
    ensures |t| <= |msg| && t == msg[|msg| - |t|..]
    decreases |msg|
  {
    hide Index, FirstDelimiter, Entered;
    var i := Index(lower(msg), m, 0);
    if i < 0 || i + |m| > |msg| || FirstDelimiter(msg[i + |m|..]) == |msg[i + |m|..]| {
      EnteredOnce(lower, msg, m);
    } else if t != msg {
      var rest := msg[i + |m|..];
      var e := FirstDelimiter(rest);
      EnteredOnwards(lower, msg, m, i + |m|);
      EnteredAreSuffixes(lower, rest[e..], m, t);
      SuffixOfSuffix(msg, i + |m|, e, |rest[e..]| - |t|);
    }
  }

  lemma SuffixOfSuffix(s: Bytes, a: nat, b: nat, c: nat)
    requires a + b + c <= |s|
    ensures s[a..][b..][c..] == s[a + b + c..]
  {
  }

  /** So it is enough that every suffix of the message holds its first marker whole. */
  lemma SuffixesStayInRange(lower: Bytes -> Bytes, msg: Bytes, m: Bytes)
    requires m != [] && forall k :: 0 <= k <= |msg| ==> FindsWithin(lower, msg[k..], m)
    ensures PassIn(lower, msg, m).Some?
  {
    PassStaysInRangeExactly(lower, msg, m);
    hide PassIn, Entered, FindsWithin;
    forall t | t in Entered(lower, msg, m) ensures FindsWithin(lower, t, m) {
      EnteredAreSuffixes(lower, msg, m, t);
    }
  }

  /** A lower-casing that keeps lengths stays in range; on ASCII text the pass is the one above. */
  lemma SameLengthStaysInRange(lower: Bytes -> Bytes, msg: Bytes, m: Bytes)
    requires m != [] && forall t :: |lower(t)| == |t|
    ensures PassIn(lower, msg, m).Some?
  {
    forall t ensures FindsWithin(lower, t, m) {
      assert |lower(t)| == |t|;
    }
    SuffixesStayInRange(lower, msg, m);
  }

  lemma PassInNothing(lower: Bytes -> Bytes, msg: Bytes, m: Bytes)
    requires m != [] && Index(lower(msg), m, 0) < 0
    ensures PassIn(lower, msg, m) == Some(msg)
  {
  }

  lemma PassInFound(lower: Bytes -> Bytes, msg: Bytes, m: Bytes, j: nat)
    requires m != [] && |m| <= j <= |msg| && Index(lower(msg), m, 0) == j - |m|
    ensures var rest := msg[j..];
            var e := FirstDelimiter(rest);
            PassIn(lower, msg, m) ==
            if e == |rest| then Some(msg[..j] + STARS)
            else
              var tail := PassIn(lower, rest[e..], m);
              if tail.None? then None else Some(msg[..j] + (STARS + tail.value))
  {
    hide Index, FirstDelimiter;
  }

  lemma {:induction false} PassInIsPass(msg: Bytes, m: Bytes)
    requires m != []
    ensures PassIn(Lower, msg, m) == Some(Pass(msg, m))
    decreases |msg|
  {
    var i := Index(Lower(msg), m, 0);
    hide *;
    if i < 0 {
      PassNothing(msg, m);
      PassInNothing(Lower, msg, m);
    } else {
      var j := i + |m|;
      PassFound(msg, m, j);
      PassInFound(Lower, msg, m, j);
      var rest := msg[j..];
      PassAfterIs(rest, m);
      if FirstDelimiter(rest) < |rest| {
        PassInIsPass(rest[FirstDelimiter(rest)..], m);
      } else {
        assert STARS + [] == STARS;
      }
    }
  }

  lemma OutsideIsOutOfRange(lower: Bytes -> Bytes, msg: Bytes, m: Bytes)
    requires m != [] && !FindsWithin(lower, msg, m)
    ensures PassIn(lower, msg, m).None?
  {
    hide Index, FirstDelimiter;
  }

  /**
   * Where the cut falls when the marker stands at `p` but is found at `i` in the lowered text: out of range
   * when that is too far, and otherwise as far behind or before the marker's end as the text before the
   * marker has grown or shrunk. All behind the marker is hidden if and only if that text has not grown.
   */
  lemma SecretIsHiddenExactly(lower: Bytes -> Bytes, msg: Bytes, m: Bytes, p: nat, i: nat)
    requires m != [] && p + |m| <= |msg| && DelimiterFree(msg[p..])
    requires Index(lower(msg), m, 0) == i && p <= i + |m|
    ensures var r := PassIn(lower, msg, m);
            && (r.Some? <==> i + |m| <= |msg|)
            && (r.Some? ==> r == Some(msg[..i + |m|] + STARS))
            && (r.Some? ==> (msg[..i + |m|] <= msg[..p + |m|] <==> i <= p))
  {
    hide *;
    if i + |m| > |msg| {
      FoundBehindTheEnd(lower, msg, m);
    } else {
      FreeFromThere(msg, p, i + |m|);
      CutAt(lower, msg, m, i + |m|);
    }
  }

  lemma FreeFromThere(msg: Bytes, p: nat, j: nat)
    requires p <= j <= |msg| && DelimiterFree(msg[p..])
    ensures DelimiterFree(msg[j..])
  {
    forall k | 0 <= k < |msg| - j ensures !IsDelimiter(msg[j..][k]) {
      assert msg[j..][k] == msg[p..][j - p + k];
    }
  }

  lemma FoundBehindTheEnd(lower: Bytes -> Bytes, msg: Bytes, m: Bytes)
    requires m != [] && Index(lower(msg), m, 0) + |m| > |msg| && Index(lower(msg), m, 0) >= 0
    ensures PassIn(lower, msg, m).None?
  {
    hide PassIn, Index;
    OutsideIsOutOfRange(lower, msg, m);
  }

  lemma CutAt(lower: Bytes -> Bytes, msg: Bytes, m: Bytes, j: nat)
    requires m != [] && |m| <= j <= |msg| && Index(lower(msg), m, 0) == j - |m| && DelimiterFree(msg[j..])
    ensures PassIn(lower, msg, m) == Some(msg[..j] + STARS)
  {
    hide *;
    PassInFound(lower, msg, m, j);
    NoDelimiterAhead(msg[j..]);
  }

  lemma NoDelimiterAhead(s: Bytes)
    requires DelimiterFree(s)
    ensures FirstDelimiter(s) == |s|
  {
  }

  /** Text that grows before a marker by less than stands behind it: that much of the secret is kept. */
  lemma GrownTextShowsTheSecret(lower: Bytes -> Bytes, pre: Bytes, grown: Bytes, m: Bytes, secret: Bytes, shown: Bytes)
    requires m != [] && m[0] !in grown && DelimiterFree(secret)
    requires lower(pre + m + secret) == grown + m + shown && |pre| <= |grown| <= |pre| + |secret|
    ensures PassIn(lower, pre + m + secret, m) == Some(pre + m + secret[..|grown| - |pre|] + STARS)
  {
    hide *;
    MarkerIsFound(grown, m, shown);
    assert secret[0..] == secret;
    FreeFromThere(secret, 0, |grown| - |pre|);
    CutOfTwo(lower, pre + m, secret, m, |grown| - |pre|);
  }

  lemma CutOfTwo(lower: Bytes -> Bytes, front: Bytes, secret: Bytes, m: Bytes, g: nat)
    requires m != [] && |m| <= |front| + g && g <= |secret| && DelimiterFree(secret[g..])
    requires Index(lower(front + secret), m, 0) == |front| + g - |m|
    ensures PassIn(lower, front + secret, m) == Some(front + secret[..g] + STARS)
  {
    hide *;
    SliceRight(front, secret, g);
    CutAt(lower, front + secret, m, |front| + g);
  }

  /** Text that grows, before a marker, by more than stands behind it. */
  lemma GrownTextLeavesTheRange(lower: Bytes -> Bytes, pre: Bytes, grown: Bytes, m: Bytes, secret: Bytes, shown: Bytes)
    requires m != [] && m[0] !in grown
    requires lower(pre + m + secret) == grown + m + shown
    requires |grown| > |pre| + |secret|
    ensures PassIn(lower, pre + m + secret, m).None?
  {
    var msg, low := pre + m + secret, lower(pre + m + secret);
    MarkerIsFound(grown, m, shown);
    hide Index, PassIn;
    assert Index(low, m, 0) + |m| > |msg|;
    OutsideIsOutOfRange(lower, msg, m);
  }

  lemma MarkerIsFound(grown: Bytes, m: Bytes, shown: Bytes)
    requires m != [] && m[0] !in grown
    ensures Index(grown + m + shown, m, 0) == |grown|
  {
    var low := grown + m + shown;
    assert low[|grown|..|grown| + |m|] == m;
    assert OccursAt(low, m, |grown|);
    forall k | 0 <= k < |grown| ensures !OccursAt(low, m, k) {
      assert low[k] == grown[k] != m[0];
    }
    IndexIs(low, m, |grown|);
  }

  /** U+023A takes two bytes, its lower case three: four of them before "password=x" are enough. */
  lemma FourGrownLetters(lower: Bytes -> Bytes)
    requires lower("\U{C8}\U{BA}\U{C8}\U{BA}\U{C8}\U{BA}\U{C8}\U{BA}" + "password=" + "x")
          == "\U{E2}\U{B1}\U{A5}\U{E2}\U{B1}\U{A5}\U{E2}\U{B1}\U{A5}\U{E2}\U{B1}\U{A5}" + "password=" + "x"
    ensures PassIn(lower, "\U{C8}\U{BA}\U{C8}\U{BA}\U{C8}\U{BA}\U{C8}\U{BA}" + "password=" + "x", "password=").None?
  {
    hide *;
    GrownTextLeavesTheRange(lower, "\U{C8}\U{BA}\U{C8}\U{BA}\U{C8}\U{BA}\U{C8}\U{BA}",
      "\U{E2}\U{B1}\U{A5}\U{E2}\U{B1}\U{A5}\U{E2}\U{B1}\U{A5}\U{E2}\U{B1}\U{A5}", "password=", "x", "x");
  }

  /** Two of them before "password=xyz" leave the first two letters of the secret. */
  lemma TwoGrownLetters(lower: Bytes -> Bytes)
    requires lower("\U{C8}\U{BA}\U{C8}\U{BA}" + "password=" + "xyz")
          == "\U{E2}\U{B1}\U{A5}\U{E2}\U{B1}\U{A5}" + "password=" + "xyz"
    ensures PassIn(lower, "\U{C8}\U{BA}\U{C8}\U{BA}" + "password=" + "xyz", "password=")
         == Some("\U{C8}\U{BA}\U{C8}\U{BA}" + "password=" + "xy" + STARS)
  {
    hide PassIn;
    var secret: Bytes := "xyz";
    GrownTextShowsTheSecret(lower, "\U{C8}\U{BA}\U{C8}\U{BA}",
      "\U{E2}\U{B1}\U{A5}\U{E2}\U{B1}\U{A5}", "password=", secret, "xyz");
    assert secret[..2] == "xy";
  }
}
