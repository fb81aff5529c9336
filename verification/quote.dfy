/** The Windows command line the updater is started with: quoting against the reader that splits it. */
module Quote {
  import opened Text

  function Backslashes(n: nat): Bytes { seq(n, _ => '\\') }

  predicate NeedsNoQuotes(s: Bytes) { s != [] && ' ' !in s && '\t' !in s && '"' !in s }

  /** What follows the opening quote for `s`, when `slashes` backslashes are still pending. */
  function QuotedBody(s: Bytes, slashes: nat): Bytes {
    if s == [] then Backslashes(2 * slashes)
    else if s[0] == '\\' then QuotedBody(s[1..], slashes + 1)
    else if s[0] == '"' then Backslashes(2 * slashes + 1) + ['"'] + QuotedBody(s[1..], 0)
    else Backslashes(slashes) + [s[0]] + QuotedBody(s[1..], 0)
  }

  function Quoted(s: Bytes): Bytes {
    if NeedsNoQuotes(s) then s else ['"'] + QuotedBody(s, 0) + ['"']
  }

  /** winQuote: the byte loop with its count of pending backslashes. */
  method WinQuote(s: Bytes) returns (r: Bytes)
    ensures r == Quoted(s)
  {
    if s != "" && ' ' !in s && '\t' !in s && '"' !in s {
      return s;
    }
    r := ['"'];
    var slashes: nat := 0;
    for i := 0 to |s|
      invariant r + QuotedBody(s[i..], slashes) == ['"'] + QuotedBody(s, 0)
    {
      assert s[i..][0] == s[i] && s[i..][1..] == s[i + 1..];
      if s[i] == '\\' {
        slashes := slashes + 1;
      } else if s[i] == '"' {
        r := r + Backslashes(slashes * 2 + 1) + ['"'];
        slashes := 0;
      } else {
        r := r + Backslashes(slashes) + [s[i]];
        slashes := 0;
      }
    }
    r := r + Backslashes(slashes * 2) + ['"'];
  }

  // ---------------------------------------------------------------- the reader

  /** The reader's local variables. */
  datatype Reader = Reader(args: seq<Bytes>, cur: Bytes, inQuotes: bool, started: bool, slashes: nat)

  function Between(args: seq<Bytes>): Reader { Reader(args, [], false, false, 0) }

  function AtQuote(r: Reader, next: Bytes): (Reader, nat) {
    var cur := r.cur + Backslashes(r.slashes / 2);
    if r.slashes % 2 == 1 then (Reader(r.args, cur + ['"'], r.inQuotes, true, 0), 1)
    else if r.inQuotes && next != [] && next[0] == '"' then (Reader(r.args, cur + ['"'], true, true, 0), 2)
    else (Reader(r.args, cur, !r.inQuotes, true, 0), 1)
  }

  function AtOther(r: Reader, c: Byte): Reader {
    var cur := r.cur + Backslashes(r.slashes);
    var started := r.started || r.slashes > 0;
    if !r.inQuotes && (c == ' ' || c == '\t') then
      if started then Between(r.args + [cur]) else Reader(r.args, cur, false, false, 0)
    else Reader(r.args, cur + [c], r.inQuotes, true, 0)
  }

  function AtEnd(r: Reader): seq<Bytes> {
    if r.started || r.slashes > 0 || r.inQuotes then r.args + [r.cur + Backslashes(r.slashes)] else r.args
  }

  /** The argument list read from `s` by a reader already in state `r`. */
  function ReadFrom(r: Reader, s: Bytes): seq<Bytes>
    decreases |s|
  {
    if s == [] then AtEnd(r)
    else if s[0] == '\\' then ReadFrom(r.(slashes := r.slashes + 1), s[1..])
    else if s[0] == '"' then var (r', n) := AtQuote(r, s[1..]); ReadFrom(r', s[n..])
    else ReadFrom(AtOther(r, s[0]), s[1..])
  }

  /** parseWinArgs: the CommandLineToArgvW loop. */
  method ParseWinArgs(s: Bytes) returns (args: seq<Bytes>)
    ensures args == ReadFrom(Between([]), s)
  {
    args := [];
    var cur: Bytes := [];
    var inQuotes, started := false, false;
    var slashes: nat := 0;
    var i := 0;
    while i < |s|
      invariant 0 <= i <= |s|
      invariant ReadFrom(Reader(args, cur, inQuotes, started, slashes), s[i..]) == ReadFrom(Between([]), s)
    {
      var c := s[i];
      assert s[i..][0] == c && s[i..][1..] == s[i + 1..];
      if c == '\\' {
        slashes := slashes + 1;
        i := i + 1;
        continue;
      }
      if c == '"' {
        started := true;
        cur := cur + Backslashes(slashes / 2);
        if slashes % 2 == 1 {
          cur := cur + ['"'];
        } else if inQuotes && i + 1 < |s| && s[i + 1] == '"' {
          cur := cur + ['"'];
          assert s[i..][2..] == s[i + 2..];
          i := i + 1;
        } else {
          inQuotes := !inQuotes;
        }
        slashes := 0;
        i := i + 1;
        continue;
      }
      if slashes > 0 {
        cur := cur + Backslashes(slashes);
        started := true;
      } else {
        assert cur + Backslashes(0) == cur;
      }
      slashes := 0;
      if !inQuotes && (c == ' ' || c == '\t') {
        if started {
          args := args + [cur];
          cur := [];
          started := false;
        }
        i := i + 1;
        continue;
      }
      started := true;
      cur := cur + [c];
      i := i + 1;
    }
    if slashes > 0 {
      cur := cur + Backslashes(slashes);
      started := true;
    } else {
      assert cur + Backslashes(0) == cur;
    }
    if started || inQuotes {
      args := args + [cur];
    }
  }

  // ---------------------------------------------------------------- reading back what was quoted

  lemma {:induction false} ReadSlashes(r: Reader, n: nat, rest: Bytes)
    ensures ReadFrom(r, Backslashes(n) + rest) == ReadFrom(r.(slashes := r.slashes + n), rest)
    decreases n
  {
    if n == 0 {
      assert Backslashes(0) + rest == rest;
    } else {
      var s := Backslashes(n) + rest;
      assert s[1..] == Backslashes(n - 1) + rest;
      ReadSlashes(r.(slashes := r.slashes + 1), n - 1, rest);
    }
  }

  lemma ReadStep(r: Reader, c: Byte, rest: Bytes)
    requires c != '\\'
    ensures c != '"' ==> ReadFrom(r, [c] + rest) == ReadFrom(AtOther(r, c), rest)
    ensures c == '"' && AtQuote(r, rest).1 == 1 ==> ReadFrom(r, [c] + rest) == ReadFrom(AtQuote(r, rest).0, rest)
  {
    assert ([c] + rest)[1..] == rest;
  }

  /** Inside quotes, one escaped character reads as `k` backslashes and that character. */
  lemma ReadEscaped(r: Reader, c: Byte, k: nat, rest: Bytes)
    requires r.inQuotes && r.started && r.slashes == 0 && c != '\\'
    ensures ReadFrom(r, Backslashes(if c == '"' then 2 * k + 1 else k) + ([c] + rest))
         == ReadFrom(Reader(r.args, r.cur + Backslashes(k) + [c], true, true, 0), rest)
  {
    hide ReadFrom, Backslashes;
    var n := if c == '"' then 2 * k + 1 else k;
    ReadSlashes(r, n, [c] + rest);
    ReadStep(r.(slashes := n), c, rest);
    assert (2 * k + 1) / 2 == k;
  }

  lemma ReadClosing(r: Reader, k: nat, rest: Bytes)
    requires r.inQuotes && r.started && r.slashes == 0
    requires rest == [] || rest[0] != '"'
    ensures ReadFrom(r, Backslashes(2 * k) + (['"'] + rest))
         == ReadFrom(Reader(r.args, r.cur + Backslashes(k), false, true, 0), rest)
  {
    hide ReadFrom, Backslashes;
    ReadSlashes(r, 2 * k, ['"'] + rest);
    ReadStep(r.(slashes := 2 * k), '"', rest);
  }

  /** Inside quotes, a quoted body followed by the closing quote restores the original text. */
  lemma {:induction false} ReadQuotedBody(r: Reader, s: Bytes, k: nat, rest: Bytes)
    requires r.inQuotes && r.started && r.slashes == 0
    requires rest == [] || rest[0] != '"'
    ensures ReadFrom(r, QuotedBody(s, k) + ['"'] + rest)
         == ReadFrom(Reader(r.args, r.cur + Backslashes(k) + s, false, true, 0), rest)
    decreases |s|
  {
    hide ReadFrom, AtQuote, AtOther;
    var text := QuotedBody(s, k) + ['"'] + rest;
    if s == [] {
      assert text == Backslashes(2 * k) + (['"'] + rest);
      ReadClosing(r, k, rest);
      assert r.cur + Backslashes(k) + s == r.cur + Backslashes(k);
    } else if s[0] == '\\' {
      ReadQuotedBody(r, s[1..], k + 1, rest);
      assert r.cur + Backslashes(k) + s == r.cur + Backslashes(k + 1) + s[1..];
    } else {
      var more := QuotedBody(s[1..], 0) + ['"'] + rest;
      assert text == Backslashes(if s[0] == '"' then 2 * k + 1 else k) + ([s[0]] + more);
      ReadEscaped(r, s[0], k, more);
      var r' := Reader(r.args, r.cur + Backslashes(k) + [s[0]], true, true, 0);
      ReadQuotedBody(r', s[1..], 0, rest);
      assert r.cur + Backslashes(k) + s == r'.cur + Backslashes(0) + s[1..];
    }
  }

  /** Outside quotes, harmless text up to the separator is one argument as it stands. */
  lemma {:induction false} ReadBare(r: Reader, s: Bytes, rest: Bytes)
    requires !r.inQuotes && (r.started || r.slashes > 0 || s != [])
    requires ' ' !in s && '\t' !in s && '"' !in s
    requires rest == [] || rest[0] == ' '
    ensures var args := r.args + [r.cur + Backslashes(r.slashes) + s];
            ReadFrom(r, s + rest) == if rest == [] then args else ReadFrom(Between(args), rest[1..])
    decreases |s|
  {
    if s == [] {
      assert s + rest == rest;
      assert r.cur + Backslashes(r.slashes) + s == r.cur + Backslashes(r.slashes);
    } else {
      assert (s + rest)[0] == s[0] && (s + rest)[1..] == s[1..] + rest;
      if s[0] == '\\' {
        ReadBare(r.(slashes := r.slashes + 1), s[1..], rest);
        assert r.cur + Backslashes(r.slashes) + s == r.cur + Backslashes(r.slashes + 1) + s[1..];
      } else {
        var r' := AtOther(r, s[0]);
        ReadBare(r', s[1..], rest);
        assert r'.cur + Backslashes(0) + s[1..] == r.cur + Backslashes(r.slashes) + s;
      }
    }
  }

  lemma ReadOpening(done: seq<Bytes>, rest: Bytes)
    ensures ReadFrom(Between(done), ['"'] + rest) == ReadFrom(Reader(done, [], true, true, 0), rest)
  {
    assert (['"'] + rest)[1..] == rest;
    assert [] + Backslashes(0) == [];
  }

  lemma ReadOneArgument(done: seq<Bytes>, a: Bytes, rest: Bytes)
    requires rest == [] || rest[0] == ' '
    ensures ReadFrom(Between(done), Quoted(a) + rest)
         == if rest == [] then done + [a] else ReadFrom(Between(done + [a]), rest[1..])
  {
    hide ReadFrom, QuotedBody;
    if NeedsNoQuotes(a) {
      ReadBare(Between(done), a, rest);
      assert [] + Backslashes(0) + a == a;
    } else {
      assert Quoted(a) + rest == ['"'] + (QuotedBody(a, 0) + ['"'] + rest);
      ReadOpening(done, QuotedBody(a, 0) + ['"'] + rest);
      var open := Reader(done, [], true, true, 0);
      ReadQuotedBody(open, a, 0, rest);
      assert open.cur + Backslashes(0) + a == a;
      ReadBare(Reader(done, a, false, true, 0), [], rest);
      assert a + Backslashes(0) + [] == a;
      assert [] + rest == rest;
    }
  }

  /** Every argument quoted, joined with single spaces. */
  function CommandLine(args: seq<Bytes>): Bytes {
    Join(seq(|args|, i requires 0 <= i < |args| => Quoted(args[i])), " ")
  }

  lemma CommandLineStep(args: seq<Bytes>)
    requires |args| > 1
    ensures CommandLine(args) == Quoted(args[0]) + ([' '] + CommandLine(args[1..]))
  {
    hide Quoted;
    var q := seq(|args|, i requires 0 <= i < |args| => Quoted(args[i]));
    var r := seq(|args| - 1, i requires 0 <= i < |args| - 1 => Quoted(args[1..][i]));
    assert |q[1..]| == |r| && forall i :: 0 <= i < |r| ==> q[1..][i] == r[i];
    assert q[1..] == r;
    assert Join(q, " ") == q[0] + " " + Join(q[1..], " ");
  }

  lemma {:induction false} ReadsTheRest(done: seq<Bytes>, args: seq<Bytes>)
    ensures ReadFrom(Between(done), CommandLine(args)) == done + args
    decreases |args|
  {
    if args == [] {
      assert done + args == done;
    } else if |args| == 1 {
      ReadOneArgument(done, args[0], []);
      assert CommandLine(args) == Quoted(args[0]) + [];
      assert done + args == done + [args[0]];
    } else {
      var rest := [' '] + CommandLine(args[1..]);
      CommandLineStep(args);
      ReadOneArgument(done, args[0], rest);
      assert rest[1..] == CommandLine(args[1..]);
      ReadsTheRest(done + [args[0]], args[1..]);
      assert done + [args[0]] + args[1..] == done + args;
    }
  }

  /** Quoting, joining and reading back returns exactly the argument list. */
  lemma CommandLineRoundTrip(args: seq<Bytes>)
    ensures ReadFrom(Between([]), CommandLine(args)) == args
  {
    ReadsTheRest([], args);
    assert [] + args == args;
  }

  /** A plain argument stays bare; one with white space or a quote, and the empty one, stand in quotes. */
  lemma PlainStaysBare(s: Bytes)
    ensures s != [] && (forall c :: c in s ==> c !in " \t\"") ==> Quoted(s) == s
    ensures s == [] || ' ' in s || '\t' in s || '"' in s ==>
              |Quoted(s)| >= 2 && Quoted(s)[0] == '"' == Quoted(s)[|Quoted(s)| - 1]
  {
    assert ' ' in " \t\"" && '\t' in " \t\"" && '"' in " \t\"";
  }

  // ---------------------------------------------------------------- PowerShell literals

  /** strings.ReplaceAll(s, "'", "''"). */
  function DoubledQuotes(s: Bytes): Bytes {
    if s == [] then []
    else (if s[0] == '\'' then ['\'', '\''] else [s[0]]) + DoubledQuotes(s[1..])
  }

  function PsQuote(s: Bytes): Bytes { ['\''] + DoubledQuotes(s) + ['\''] }

  /** Reads a single-quoted literal whose opening quote is already consumed: its value and the text after it. */
  function ScanLiteral(s: Bytes): Option<(Bytes, Bytes)>
    decreases |s|
  {
    if s == [] then None
    else if s[0] == '\'' && (|s| == 1 || s[1] != '\'') then Some(([], s[1..]))
    else match ScanLiteral(s[if s[0] == '\'' then 2 else 1..])
      case None => None
      case Some((v, rest)) => Some(([s[0]] + v, rest))
  }

  function ReadLiteral(s: Bytes): Option<(Bytes, Bytes)> {
    if s != [] && s[0] == '\'' then ScanLiteral(s[1..]) else None
  }

  /** A quote behind a literal would read as part of it. */
  predicate StartsApart(rest: Bytes) { rest == [] || rest[0] != '\'' }

  lemma {:induction false} ScanShortens(s: Bytes)
    ensures ScanLiteral(s).Some? ==> |ScanLiteral(s).value.1| < |s|
    decreases |s|
  {
    if s != [] && !(s[0] == '\'' && (|s| == 1 || s[1] != '\'')) {
      ScanShortens(s[if s[0] == '\'' then 2 else 1..]);
    }
  }

  lemma {:induction false} ScanDoubled(s: Bytes, rest: Bytes)
    ensures ScanLiteral(DoubledQuotes(s) + ['\''] + rest) == Some((s, rest)) <==> StartsApart(rest)
  {
    var text := DoubledQuotes(s) + ['\''] + rest;
    if s == [] {
      assert text[1..] == rest;
      if !StartsApart(rest) {
        ScanShortens(text[2..]);
      }
    } else {
      var n := if s[0] == '\'' then 2 else 1;
      assert text[n..] == DoubledQuotes(s[1..]) + ['\''] + rest;
      ScanDoubled(s[1..], rest);
      assert [s[0]] + s[1..] == s;
    }
  }

  /** A literal reads back, with the text behind it, exactly when that text does not start with a quote. */
  lemma PsQuoteRoundTrip(s: Bytes, rest: Bytes)
    ensures ReadLiteral(PsQuote(s) + rest) == Some((s, rest)) <==> StartsApart(rest)
  {
    ScanDoubled(s, rest);
    assert (PsQuote(s) + rest)[1..] == DoubledQuotes(s) + ['\''] + rest;
  }

  // ---------------------------------------------------------------- the whole launch line

  const LAUNCH_HEAD: Bytes := "$p = Start-Process -FilePath "
  const LAUNCH_ARGS: Bytes := " -ArgumentList "
  const LAUNCH_TAIL: Bytes := " -Verb RunAs -PassThru;" + " $p.WaitForExit();" + " exit $p.ExitCode"

  /** Two literals in fixed surroundings. */
  function TwoLiterals(head: Bytes, bin: Bytes, mid: Bytes, line: Bytes, tail: Bytes): Bytes {
    head + (PsQuote(bin) + (mid + (PsQuote(line) + tail)))
  }

  function ReadTwoLiterals(head: Bytes, mid: Bytes, tail: Bytes, cmd: Bytes): Option<(Bytes, Bytes)> {
    if !(head <= cmd) then None
    else match ReadLiteral(cmd[|head|..])
      case None => None
      case Some((bin, rest)) =>
        if !(mid <= rest) then None
        else match ReadLiteral(rest[|mid|..])
          case None => None
          case Some((line, end)) => if end == tail then Some((bin, line)) else None
  }

  lemma TwoLiteralsRoundTrip(head: Bytes, bin: Bytes, mid: Bytes, line: Bytes, tail: Bytes)
    requires mid != [] && mid[0] != '\'' && tail != [] && tail[0] != '\''
    ensures ReadTwoLiterals(head, mid, tail, TwoLiterals(head, bin, mid, line, tail)) == Some((bin, line))
  {
    hide ReadLiteral, PsQuote;
    var last := PsQuote(line) + tail;
    PsQuoteRoundTrip(bin, mid + last);
    PsQuoteRoundTrip(line, tail);
    assert (mid + last)[|mid|..] == last;
    var first := PsQuote(bin) + (mid + last);
    assert (head + first)[|head|..] == first;
  }

  /** The PowerShell command that starts `bin` elevated with `args`. */
  function LaunchCommand(bin: Bytes, args: seq<Bytes>): Bytes {
    TwoLiterals(LAUNCH_HEAD, bin, LAUNCH_ARGS, CommandLine(args), LAUNCH_TAIL)
  }

  /** What that command asks for: the two literals, the second split by the child's own reader. */
  function ReadLaunch(cmd: Bytes): Option<(Bytes, seq<Bytes>)> {
    match ReadTwoLiterals(LAUNCH_HEAD, LAUNCH_ARGS, LAUNCH_TAIL, cmd)
    case None => None
    case Some((bin, line)) => Some((bin, ReadFrom(Between([]), line)))
  }

  /** The child starts as the named binary with exactly the given arguments, whatever bytes they hold. */
  lemma LaunchRoundTrip(bin: Bytes, args: seq<Bytes>)
    ensures ReadLaunch(LaunchCommand(bin, args)) == Some((bin, args))
  {
    hide ReadTwoLiterals, TwoLiterals, ReadFrom, CommandLine;
    TwoLiteralsRoundTrip(LAUNCH_HEAD, bin, LAUNCH_ARGS, CommandLine(args), LAUNCH_TAIL);
    CommandLineRoundTrip(args);
  }
}
