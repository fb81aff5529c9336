/** The resuming downloader: attempts over one temp file, against any server and against an honest one. */
module Download {
  import opened Text

  datatype Scheme = Web | Local | Unsupported

  datatype After = More | Eof | Broken

  /**
   * One pass of the read loop: whether the context is done, the bytes read, how many of them the
   * write gets out, whether OnProgress asks to stop, and what the read reports after its bytes.
   */
  datatype Turn = Turn(cancelled: bool, data: Bytes, saved: nat, refused: bool, after: After)

  /** What opening the source yields. A failing rewind or seek of the temp file is `rewinds` or `seeks` false. */
  datatype Reply =
    | Unreachable
    | Response(status: nat, length: int, rangeTotal: Option<int>, rewinds: bool, seeks: bool, body: seq<Turn>)
    | Opened(size: Option<int>, rewinds: bool, seeks: bool, body: seq<Turn>)

  /** Everything one attempt meets. */
  datatype Try = Try(cancelledBefore: bool, statted: bool, reply: Reply, closes: bool, cancelledAfter: bool)

  const MAX_TRIES := 3

  // ---------------------------------------------------------------- specification

  /** The file after writing `data` at offset `at`. */
  function WriteAt(file: Bytes, at: nat, data: Bytes): (out: Bytes)
    requires at <= |file|
    ensures |out| == if at + |data| > |file| then at + |data| else |file|
  {
    if at + |data| >= |file| then file[..at] + data else file[..at] + data + file[at + |data|..]
  }

  /** How a read loop ends: the file, and at end of input the bytes that went into the hash. */
  datatype LoopEnd = LoopEnd(file: Bytes, hashed: Option<Bytes>)

  function ReadLoop(file: Bytes, fed: Bytes, turns: seq<Turn>, cap: nat): (e: LoopEnd)
    requires |fed| <= |file|
    ensures e.hashed.Some? ==> |e.hashed.value| <= |e.file|
    decreases |turns|
  {
    if turns == [] then LoopEnd(file, None)
    else
      var t := turns[0];
      if t.cancelled || (t.data != [] && |fed| + |t.data| > cap) then LoopEnd(file, None)
      else if t.saved < |t.data| then LoopEnd(WriteAt(file, |fed|, t.data[..t.saved]), None)
      else
        var file' := WriteAt(file, |fed|, t.data);
        var fed' := fed + t.data;
        if (t.data != [] && t.refused) || t.after.Broken? then LoopEnd(file', None)
        else if t.after.Eof? then LoopEnd(file', Some(fed'))
        else ReadLoop(file', fed', turns[1..], cap)
  }

  /** An attempt: the file it leaves and, if it did not fail, its hashed bytes and the total it goes by. */
  datatype Passed = Passed(hashed: Bytes, total: int)
  datatype Ended = Ended(file: Bytes, passed: Option<Passed>)

  function Outcome(e: LoopEnd, total: int): Ended {
    Ended(e.file, if e.hashed.None? then None else Some(Passed(e.hashed.value, total)))
  }

  function Resume(file: Bytes, have: nat, total: int, seeks: bool, body: seq<Turn>, cap: nat): Ended
    requires have <= |file|
  {
    if !seeks then Ended(file, None) else Outcome(ReadLoop(file, file[..have], body, cap), total)
  }

  function Attempt(scheme: Scheme, file: Bytes, have: nat, reply: Reply, expected: int, cap: nat): Ended
    requires have <= |file|
  {
    match scheme
    case Unsupported => Ended(file, None)
    case Local =>
      if !reply.Opened? || !reply.rewinds then Ended(file, None)
      else Resume([], 0, if expected <= 0 && reply.size.Some? then reply.size.value else expected,
                  reply.seeks, reply.body, cap)
    case Web =>
      if !reply.Response? then Ended(file, None)
      else if reply.status == 200 then
        if have > 0 && !reply.rewinds then Ended(file, None)
        else Resume(if have > 0 then [] else file, 0, if expected <= 0 then reply.length else expected,
                    reply.seeks, reply.body, cap)
      else if reply.status == 206 then
        Resume(file, have, if expected <= 0 && reply.rangeTotal.Some? then reply.rangeTotal.value else expected,
               reply.seeks, reply.body, cap)
      else Ended(file, None)
  }

  /** How far the attempt believes the file already reaches. */
  function Have(file: Bytes, t: Try): nat { if t.statted then |file| else 0 }

  datatype Fetched = Gone | Staged(file: Bytes, sum: Digest, total: int)

  function Finish(e: Ended, closes: bool): Fetched
    requires e.passed.Some?
  {
    var p := e.passed.value;
    if !closes || (p.total > 0 && |p.hashed| != p.total) then Gone else Staged(e.file, Sha256(p.hashed), p.total)
  }

  function FetchFrom(scheme: Scheme, file: Bytes, tries: seq<Try>, expected: int, cap: nat): Fetched
    decreases |tries|
  {
    if tries == [] || tries[0].cancelledBefore then Gone
    else
      var e := Attempt(scheme, file, Have(file, tries[0]), tries[0].reply, expected, cap);
      if e.passed.Some? then Finish(e, tries[0].closes)
      else if tries[0].cancelledAfter then Gone
      else FetchFrom(scheme, e.file, tries[1..], expected, cap)
  }

  /** The staged file after the first `k` attempts, as long as they all fail. */
  function FileAfter(scheme: Scheme, tries: seq<Try>, k: nat, expected: int, cap: nat): Bytes
    requires k <= |tries|
  {
    if k == 0 then []
    else
      var file := FileAfter(scheme, tries, k - 1, expected, cap);
      Attempt(scheme, file, Have(file, tries[k - 1]), tries[k - 1].reply, expected, cap).file
  }

  // ---------------------------------------------------------------- any server

  lemma WriteAtEnd(file: Bytes, data: Bytes)
    ensures WriteAt(file, |file|, data) == file + data
  {
  }

  /** A loop that starts at the end of the file hashes exactly the file, and never writes past the cap. */
  lemma {:induction false} LoopHashesTheFile(file: Bytes, turns: seq<Turn>, cap: nat)
    requires |file| <= cap
    ensures var e := ReadLoop(file, file, turns, cap);
            |e.file| <= cap && (e.hashed.Some? ==> e.hashed.value == e.file)
    decreases |turns|
  {
    if turns != [] {
      var t := turns[0];
      WriteAtEnd(file, t.data);
      if |file| + |t.data| <= cap {
        LoopHashesTheFile(file + t.data, turns[1..], cap);
      }
    }
  }

  /** So does a resumed or restarted attempt, whatever the server sends. */
  lemma AttemptHashesTheFile(scheme: Scheme, file: Bytes, reply: Reply, expected: int, cap: nat)
    requires |file| <= cap
    ensures var e := Attempt(scheme, file, |file|, reply, expected, cap);
            |e.file| <= cap
            && (e.passed.Some? ==> e.passed.value.hashed == e.file && (expected > 0 ==> e.passed.value.total == expected))
  {
    assert file[..|file|] == file && file[..0] == [];
    hide ReadLoop;
    if !reply.Unreachable? {
      LoopHashesTheFile(file, reply.body, cap);
      LoopHashesTheFile([], reply.body, cap);
    }
  }

  /** A fetch, if it succeeds, reports the hash of the whole file, which has the known size and fits the cap. */
  predicate IsSoundResult(f: Fetched, expected: int, cap: nat) {
    f.Staged? ==>
      && f.sum == Sha256(f.file) && |f.file| <= cap
      && (f.total > 0 ==> |f.file| == f.total)
      && (expected > 0 ==> f.total == expected)
  }

  lemma FinishIsSound(e: Ended, closes: bool, expected: int, cap: nat)
    requires e.passed.Some? && e.passed.value.hashed == e.file && |e.file| <= cap
    requires expected > 0 ==> e.passed.value.total == expected
    ensures IsSoundResult(Finish(e, closes), expected, cap)
  {
  }

  /** The first attempt finds an empty file, so only later ones need its size. */
  lemma {:induction false} StattedFetchIsSound(scheme: Scheme, file: Bytes, tries: seq<Try>, expected: int, cap: nat)
    requires |file| <= cap && (file == [] || tries == [] || tries[0].statted)
    requires forall i :: 0 < i < |tries| ==> tries[i].statted
    ensures IsSoundResult(FetchFrom(scheme, file, tries, expected, cap), expected, cap)
    decreases |tries|
  {
    if tries != [] {
      assert Have(file, tries[0]) == |file|;
      AttemptHashesTheFile(scheme, file, tries[0].reply, expected, cap);
      var e := Attempt(scheme, file, |file|, tries[0].reply, expected, cap);
      hide Attempt;
      if e.passed.Some? {
        FinishIsSound(e, tries[0].closes, expected, cap);
      }
      StattedFetchIsSound(scheme, e.file, tries[1..], expected, cap);
    }
  }

  /** A local file is copied from the start by every attempt, whatever the size of the temp file. */
  lemma {:induction false} LocalFetchIsSound(scheme: Scheme, file: Bytes, tries: seq<Try>, expected: int, cap: nat)
    requires !scheme.Web? && |file| <= cap
    ensures IsSoundResult(FetchFrom(scheme, file, tries, expected, cap), expected, cap)
    decreases |tries|
  {
    if tries != [] {
      AttemptHashesTheFile(scheme, file, tries[0].reply, expected, cap);
      var e := Attempt(scheme, file, |file|, tries[0].reply, expected, cap);
      assert e == Attempt(scheme, file, Have(file, tries[0]), tries[0].reply, expected, cap);
      hide Attempt;
      if e.passed.Some? {
        FinishIsSound(e, tries[0].closes, expected, cap);
      }
      LocalFetchIsSound(scheme, e.file, tries[1..], expected, cap);
    }
  }

  /** From wherever it starts, a loop hashes a prefix of the file it leaves, within the cap. */
  lemma {:induction false} LoopHashesAPrefix(file: Bytes, fed: Bytes, turns: seq<Turn>, cap: nat)
    requires fed <= file && |file| <= cap
    ensures var e := ReadLoop(file, fed, turns, cap);
            |e.file| <= cap && (e.hashed.Some? ==> e.hashed.value <= e.file)
    decreases |turns|
  {
    if turns != [] {
      var t := turns[0];
      if |fed| + |t.data| <= cap {
        assert fed + t.data <= WriteAt(file, |fed|, t.data);
        hide WriteAt;
        LoopHashesAPrefix(WriteAt(file, |fed|, t.data), fed + t.data, turns[1..], cap);
      }
    }
  }

  lemma AttemptHashesAPrefix(scheme: Scheme, file: Bytes, have: nat, reply: Reply, expected: int, cap: nat)
    requires have <= |file| <= cap
    ensures var e := Attempt(scheme, file, have, reply, expected, cap);
            |e.file| <= cap
            && (e.passed.Some? ==> e.passed.value.hashed <= e.file && (expected > 0 ==> e.passed.value.total == expected))
  {
    hide ReadLoop;
    assert file[..have] <= file && file[..0] == [];
    if !reply.Unreachable? {
      LoopHashesAPrefix([], [], reply.body, cap);
      LoopHashesAPrefix(file, [], reply.body, cap);
      LoopHashesAPrefix(file, file[..have], reply.body, cap);
    }
  }

  /** With no room above the expected size there is no room for a stale tail either. */
  lemma {:induction false} TightFetchIsSound(scheme: Scheme, file: Bytes, tries: seq<Try>, expected: int, cap: nat)
    requires |file| <= cap && (cap == 0 || cap <= expected)
    ensures IsSoundResult(FetchFrom(scheme, file, tries, expected, cap), expected, cap)
    decreases |tries|
  {
    if tries != [] {
      var have := Have(file, tries[0]);
      AttemptHashesAPrefix(scheme, file, have, tries[0].reply, expected, cap);
      var e := Attempt(scheme, file, have, tries[0].reply, expected, cap);
      hide Attempt;
      if e.passed.Some? && Finish(e, tries[0].closes).Staged? {
        assert |e.passed.value.hashed| == |e.file|;
        FinishIsSound(e, tries[0].closes, expected, cap);
      }
      TightFetchIsSound(scheme, e.file, tries[1..], expected, cap);
    }
  }

  // ---------------------------------------------------------------- when the size has to be known

  function Repeat(c: Byte, n: nat): (s: Bytes)
    ensures |s| == n && forall i :: 0 <= i < n ==> s[i] == c
  {
    seq(n, _ => c)
  }

  function Larger(expected: int): nat { if expected > 0 then expected else 0 }

  /** A reply that brings one byte more than expected and breaks, and one that brings what is expected. */
  function LongReply(expected: int): Reply {
    var n := Larger(expected) + 1;
    Response(200, -1, None, true, true, [Turn(false, Repeat('a', n), n, false, Broken)])
  }

  function ExactReply(expected: int): Reply {
    var n := Larger(expected);
    Response(200, -1, None, true, true, [Turn(false, Repeat('c', n), n, false, Eof)])
  }

  /** Attempt `k` starts over without truncating what attempt `k - 1` left. */
  function StaleTries(stats: seq<bool>, k: nat, expected: int): (tries: seq<Try>)
    ensures |tries| == |stats| && forall i :: 0 <= i < |stats| ==> tries[i].statted == stats[i]
  {
    seq(|stats|, i requires 0 <= i < |stats| =>
      Try(false, stats[i], if i + 1 == k then LongReply(expected) else if i == k then ExactReply(expected) else Unreachable,
          true, false))
  }

  /** What the broken attempt leaves, and what the one after it makes of it. */
  lemma LongAttempt(expected: int, cap: nat)
    requires cap > Larger(expected)
    ensures Attempt(Web, [], 0, LongReply(expected), expected, cap) == Ended(Repeat('a', Larger(expected) + 1), None)
  {
    var n := Larger(expected) + 1;
    var long := Repeat('a', n);
    var body := [Turn(false, long, n, false, Broken)];
    assert WriteAt([], 0, long) == long;
    assert ReadLoop([], [], body, cap) == LoopEnd(long, None);
  }

  lemma StaleAttempt(expected: int, cap: nat)
    requires cap > Larger(expected)
    ensures var n := Larger(expected);
            var e := Attempt(Web, Repeat('a', n + 1), 0, ExactReply(expected), expected, cap);
            && |e.file| == n + 1
            && e.passed == Some(Passed(Repeat('c', n), if expected > 0 then expected else -1))
  {
    var n := Larger(expected);
    var long, exact := Repeat('a', n + 1), Repeat('c', n);
    var body := [Turn(false, exact, n, false, Eof)];
    assert [] + exact == exact && long[..0] == [];
    assert ReadLoop(long, [], body, cap) == LoopEnd(WriteAt(long, 0, exact), Some(exact));
  }

  /** Attempts that fail to connect change nothing. */
  lemma {:induction false} IdleAttempts(stats: seq<bool>, k: nat, expected: int, cap: nat, i: nat)
    requires 0 < k < |stats| && i < k
    ensures var tries := StaleTries(stats, k, expected);
            FetchFrom(Web, [], tries[i..], expected, cap) == FetchFrom(Web, [], tries[k - 1..], expected, cap)
    decreases k - i
  {
    var tries := StaleTries(stats, k, expected);
    if i < k - 1 {
      assert tries[i..][0] == tries[i] && tries[i..][1..] == tries[i + 1..];
      hide StaleTries, LongReply, ExactReply;
      IdleAttempts(stats, k, expected, cap, i + 1);
    }
  }

  /**
   * When the size cannot be read before some later attempt, that attempt may start over without
   * truncating, and the tail of the one before stays behind the bytes that were hashed.
   */
  lemma FailedStatKeepsAStaleTail(stats: seq<bool>, k: nat, expected: int, cap: nat)
    requires 0 < k < |stats| && !stats[k] && cap > Larger(expected)
    ensures var f := FetchFrom(Web, [], StaleTries(stats, k, expected), expected, cap);
            f.Staged? && |f.sum.of| < |f.file| && !IsSoundResult(f, expected, cap)
  {
    var tries := StaleTries(stats, k, expected);
    assert tries[0..] == tries;
    IdleAttempts(stats, k, expected, cap, 0);
    LongAttempt(expected, cap);
    StaleAttempt(expected, cap);
    assert tries[k - 1..][0] == tries[k - 1] && tries[k - 1..][1..] == tries[k..];
    assert tries[k..][0] == tries[k];
    var long := Repeat('a', Larger(expected) + 1);
    hide Attempt, LongReply, ExactReply, Repeat;
    assert FetchFrom(Web, [], tries[k - 1..], expected, cap) == FetchFrom(Web, long, tries[k..], expected, cap);
  }

  ghost predicate Matches(tries: seq<Try>, stats: seq<bool>) {
    |tries| == |stats| && forall i :: 0 <= i < |tries| ==> tries[i].statted == stats[i]
  }

  /**
   * The exact condition, for each pattern of readable sizes, expected size and cap: every fetch is
   * sound if and only if the source is not a web server, or nothing above the expected size is
   * allowed, or the size can be read before every attempt but the first.
   */
  lemma FetchIsSoundExactly(scheme: Scheme, stats: seq<bool>, expected: int, cap: nat)
    ensures (forall tries :: Matches(tries, stats) ==>
               IsSoundResult(FetchFrom(scheme, [], tries, expected, cap), expected, cap))
            <==> (!scheme.Web? || cap <= Larger(expected) || forall i :: 0 < i < |stats| ==> stats[i])
  {
    hide IsSoundResult, FetchFrom;
    if !scheme.Web? || cap <= Larger(expected) || forall i :: 0 < i < |stats| ==> stats[i] {
      forall tries | Matches(tries, stats)
        ensures IsSoundResult(FetchFrom(scheme, [], tries, expected, cap), expected, cap)
      {
        FetchIsSound(scheme, tries, expected, cap);
      }
    } else {
      var k :| 0 < k < |stats| && !stats[k];
      FailedStatKeepsAStaleTail(stats, k, expected, cap);
      assert Matches(StaleTries(stats, k, expected), stats);
    }
  }

  lemma FetchIsSound(scheme: Scheme, tries: seq<Try>, expected: int, cap: nat)
    requires !scheme.Web? || cap <= Larger(expected) || forall i :: 0 < i < |tries| ==> tries[i].statted
    ensures IsSoundResult(FetchFrom(scheme, [], tries, expected, cap), expected, cap)
  {
    hide IsSoundResult, FetchFrom;
    if !scheme.Web? {
      LocalFetchIsSound(scheme, [], tries, expected, cap);
    } else if cap <= Larger(expected) {
      TightFetchIsSound(scheme, [], tries, expected, cap);
    } else {
      StattedFetchIsSound(scheme, [], tries, expected, cap);
    }
  }

  // ---------------------------------------------------------------- an honest server

  /** The body brings bytes of `rest` in order; it may stop anywhere, even looking like a proper end. */
  ghost predicate Serves(turns: seq<Turn>, rest: Bytes)
    decreases |turns|
  {
    turns == [] || (turns[0].data <= rest && Serves(turns[1..], rest[|turns[0].data|..]))
  }

  /** An honest answer about `content` to a request that asks for everything from `have` on. */
  ghost predicate IsHonest(reply: Reply, content: Bytes, have: nat) {
    match reply
    case Unreachable => true
    case Opened(_, _, _, body) => Serves(body, content)
    case Response(status, _, _, _, _, body) =>
      && (status == 200 ==> Serves(body, content))
      && (status == 206 ==> have <= |content| && Serves(body, content[have..]))
  }

  lemma WriteKeepsPrefix(file: Bytes, at: nat, data: Bytes, content: Bytes)
    requires at <= |file| && file <= content && data <= content[at..]
    ensures WriteAt(file, at, data) <= content
  {
    var w := WriteAt(file, at, data);
    forall i | 0 <= i < |w| ensures w[i] == content[i] {
      if at <= i < at + |data| {
        assert data[i - at] == content[at..][i - at];
      }
    }
  }

  lemma FedGrows(fed: Bytes, data: Bytes, content: Bytes)
    requires fed <= content && data <= content[|fed|..]
    ensures fed + data <= content && content[|fed| + |data|..] == content[|fed|..][|data|..]
  {
    forall i | 0 <= i < |fed| + |data| ensures (fed + data)[i] == content[i] {
      if i >= |fed| {
        assert data[i - |fed|] == content[|fed|..][i - |fed|];
      }
    }
  }

  /** One turn: what it writes keeps the file a prefix of the content, and the hash input a prefix of the file. */
  lemma HonestTurn(file: Bytes, fed: Bytes, t: Turn, content: Bytes)
    requires fed <= file <= content && t.data <= content[|fed|..]
    ensures WriteAt(file, |fed|, t.data[..if t.saved < |t.data| then t.saved else |t.data|]) <= content
    ensures fed + t.data <= WriteAt(file, |fed|, t.data) <= content
    ensures content[|fed| + |t.data|..] == content[|fed|..][|t.data|..]
  {
    assert t.data[..|t.data|] == t.data;
    var cut := t.data[..if t.saved < |t.data| then t.saved else |t.data|];
    WriteKeepsPrefix(file, |fed|, cut, content);
    WriteKeepsPrefix(file, |fed|, t.data, content);
    FedGrows(fed, t.data, content);
    PrefixesOfOne(fed + t.data, WriteAt(file, |fed|, t.data), content);
  }

  lemma {:induction false} HonestLoop(file: Bytes, fed: Bytes, turns: seq<Turn>, cap: nat, content: Bytes)
    requires fed <= file <= content && Serves(turns, content[|fed|..])
    ensures var e := ReadLoop(file, fed, turns, cap);
            e.file <= content && (e.hashed.Some? ==> e.hashed.value <= content)
    decreases |turns|
  {
    hide WriteAt;
    if turns != [] {
      var t := turns[0];
      HonestTurn(file, fed, t, content);
      HonestLoop(WriteAt(file, |fed|, t.data), fed + t.data, turns[1..], cap, content);
    }
  }

  lemma PrefixesOfOne(a: Bytes, b: Bytes, content: Bytes)
    requires a <= content && b <= content
    ensures |a| <= |b| ==> a <= b
  {
  }

  lemma HonestAttempt(scheme: Scheme, file: Bytes, have: nat, reply: Reply, expected: int, cap: nat, content: Bytes)
    requires have <= |file| && file <= content && IsHonest(reply, content, have)
    ensures var e := Attempt(scheme, file, have, reply, expected, cap);
            e.file <= content && (e.passed.Some? ==> e.passed.value.hashed <= content)
    ensures var e := Attempt(scheme, file, have, reply, expected, cap);
            e.passed.Some? ==> |e.passed.value.hashed| <= |e.file| && (expected > 0 ==> e.passed.value.total == expected)
  {
    hide ReadLoop, Serves;
    assert content[0..] == content && file[..0] == [];
    if !reply.Unreachable? && Serves(reply.body, content) {
      HonestLoop([], [], reply.body, cap, content);
      HonestLoop(file, [], reply.body, cap, content);
    }
    if reply.Response? && reply.status == 206 {
      HonestLoop(file, file[..have], reply.body, cap, content);
    }
  }

  /** Every attempt meets an honest answer to the range it asks for. */
  ghost predicate AllHonest(scheme: Scheme, tries: seq<Try>, expected: int, cap: nat, content: Bytes) {
    forall k :: 0 <= k < |tries| ==>
      IsHonest(tries[k].reply, content, Have(FileAfter(scheme, tries, k, expected, cap), tries[k]))
  }

  lemma HonestAt(scheme: Scheme, tries: seq<Try>, k: nat, expected: int, cap: nat, content: Bytes)
    requires k < |tries| && AllHonest(scheme, tries, expected, cap, content)
    ensures IsHonest(tries[k].reply, content, Have(FileAfter(scheme, tries, k, expected, cap), tries[k]))
  {
    hide IsHonest, FileAfter;
  }

  /** After any number of attempts, wherever connections dropped, the file is a prefix of the content. */
  lemma {:induction false} FileStaysAPrefix(scheme: Scheme, tries: seq<Try>, k: nat, expected: int, cap: nat,
                                            content: Bytes)
    requires k <= |tries| && AllHonest(scheme, tries, expected, cap, content)
    ensures FileAfter(scheme, tries, k, expected, cap) <= content
  {
    hide Attempt, IsHonest, AllHonest;
    if k > 0 {
      var file := FileAfter(scheme, tries, k - 1, expected, cap);
      var t := tries[k - 1];
      assert FileAfter(scheme, tries, k, expected, cap)
             == Attempt(scheme, file, Have(file, t), t.reply, expected, cap).file;
      hide FileAfter;
      FileStaysAPrefix(scheme, tries, k - 1, expected, cap, content);
      HonestAt(scheme, tries, k - 1, expected, cap, content);
      HonestAttempt(scheme, file, Have(file, t), t.reply, expected, cap, content);
    }
  }

  /** The fetch continued after `k` failed attempts. */
  lemma {:induction false} HonestFetchFrom(scheme: Scheme, tries: seq<Try>, k: nat, cap: nat, content: Bytes)
    requires k <= |tries| && AllHonest(scheme, tries, |content|, cap, content)
    ensures var f := FetchFrom(scheme, FileAfter(scheme, tries, k, |content|, cap), tries[k..], |content|, cap);
            f.Staged? ==> f.file == content && f.sum == Sha256(content)
    decreases |tries| - k
  {
    hide Attempt, IsHonest, AllHonest;
    if k < |tries| {
      FileStaysAPrefix(scheme, tries, k, |content|, cap, content);
      HonestAt(scheme, tries, k, |content|, cap, content);
      NextFile(scheme, tries, k, |content|, cap);
      hide FileAfter;
      var file := FileAfter(scheme, tries, k, |content|, cap);
      var t := tries[k];
      assert tries[k..][0] == t && tries[k..][1..] == tries[k + 1..];
      HonestAttempt(scheme, file, Have(file, t), t.reply, |content|, cap, content);
      HonestFetchFrom(scheme, tries, k + 1, cap, content);
    }
  }

  lemma NextFile(scheme: Scheme, tries: seq<Try>, k: nat, expected: int, cap: nat)
    requires k < |tries|
    ensures var file := FileAfter(scheme, tries, k, expected, cap);
            FileAfter(scheme, tries, k + 1, expected, cap)
            == Attempt(scheme, file, Have(file, tries[k]), tries[k].reply, expected, cap).file
  {
    hide Attempt;
  }

  /** Against an honest server, a fetch told the right size ends with exactly the content, or fails. */
  lemma HonestFetchIsExact(scheme: Scheme, tries: seq<Try>, cap: nat, content: Bytes)
    requires AllHonest(scheme, tries, |content|, cap, content)
    ensures var f := FetchFrom(scheme, [], tries, |content|, cap);
            f.Staged? ==> f.file == content && f.sum == Sha256(content)
  {
    assert tries[0..] == tries;
    HonestFetchFrom(scheme, tries, 0, cap, content);
  }

  // ---------------------------------------------------------------- which attempts pass, and what they leave

  /** All the bytes the turns bring. */
  function Joined(turns: seq<Turn>): Bytes {
    if turns == [] then [] else Joined(turns[..|turns| - 1]) + turns[|turns| - 1].data
  }

  /** Nothing disturbs a turn that starts at offset `at`: not cancelled, within the cap, written whole, not refused. */
  predicate IsSmooth(t: Turn, at: nat, cap: nat) {
    !t.cancelled && t.saved >= |t.data| && (t.data != [] ==> at + |t.data| <= cap && !t.refused)
  }

  /** What gets into the file in the turn a loop stops in. */
  function Landed(t: Turn, at: nat, cap: nat): Bytes {
    if t.cancelled || (t.data != [] && at + |t.data| > cap) then []
    else if t.saved < |t.data| then t.data[..t.saved]
    else t.data
  }

  /** What gets into the file in all, when the loop stops in turn `n`. */
  function Arrived(turns: seq<Turn>, n: nat, have: nat, cap: nat): Bytes
    requires n < |turns|
  {
    var before := Joined(turns[..n]);
    before + Landed(turns[n], have + |before|, cap)
  }

  /** The first `n` turns of a body that continues a file of `have` bytes are smooth, and none of them ends it. */
  ghost predicate GoesOn(turns: seq<Turn>, n: nat, have: nat, cap: nat)
    requires n <= |turns|
  {
    forall i :: 0 <= i < n ==> IsSmooth(turns[i], have + |Joined(turns[..i])|, cap) && turns[i].after.More?
  }

  /** The body goes on to turn `n`, which is not like the ones before. */
  ghost predicate StopsAt(turns: seq<Turn>, n: nat, have: nat, cap: nat)
    requires n < |turns|
  {
    GoesOn(turns, n, have, cap)
    && !(IsSmooth(turns[n], have + |Joined(turns[..n])|, cap) && turns[n].after.More?)
  }

  /** The body goes on to its end of input, and nothing disturbs that either. */
  ghost predicate CompletesAt(turns: seq<Turn>, n: nat, have: nat, cap: nat)
    requires n < |turns|
  {
    GoesOn(turns, n, have, cap)
    && IsSmooth(turns[n], have + |Joined(turns[..n])|, cap) && turns[n].after.Eof?
  }

  ghost predicate Completes(turns: seq<Turn>, have: nat, cap: nat) {
    exists n :: 0 <= n < |turns| && CompletesAt(turns, n, have, cap)
  }

  lemma JoinedOneMore(turns: seq<Turn>, n: nat)
    requires n < |turns|
    ensures Joined(turns[..n + 1]) == Joined(turns[..n]) + turns[n].data
  {
    assert turns[..n + 1][..n] == turns[..n];
  }

  lemma WriteAtTwice(file: Bytes, at: nat, a: Bytes, b: Bytes)
    requires at <= |file|
    ensures WriteAt(WriteAt(file, at, a), at + |a|, b) == WriteAt(file, at, a + b)
  {
    var once := WriteAt(file, at, a);
    var l, r := WriteAt(once, at + |a|, b), WriteAt(file, at, a + b);
    assert once[..at + |a|] == file[..at] + a;
    if at + |a| < |file| {
      assert once[at + |a|..] == file[at + |a|..];
    }
  }

  lemma LoopGoesOn(file: Bytes, fed: Bytes, turns: seq<Turn>, cap: nat)
    requires |fed| <= |file| && turns != [] && IsSmooth(turns[0], |fed|, cap) && turns[0].after.More?
    ensures ReadLoop(file, fed, turns, cap)
            == ReadLoop(WriteAt(file, |fed|, turns[0].data), fed + turns[0].data, turns[1..], cap)
  {
    hide WriteAt;
  }

  lemma LoopStops(file: Bytes, fed: Bytes, turns: seq<Turn>, cap: nat)
    requires |fed| <= |file| && turns != [] && !(IsSmooth(turns[0], |fed|, cap) && turns[0].after.More?)
    ensures var t := turns[0];
            ReadLoop(file, fed, turns, cap)
            == LoopEnd(WriteAt(file, |fed|, Landed(t, |fed|, cap)),
                       if IsSmooth(t, |fed|, cap) && t.after.Eof? then Some(fed + t.data) else None)
  {
    hide WriteAt;
    WriteNothing(file, |fed|);
  }

  lemma WriteNothing(file: Bytes, at: nat)
    requires at <= |file|
    ensures WriteAt(file, at, []) == file
  {
  }

  /** The loop as it stands before turn `k`, when the body goes on that far. */
  function LoopAt(file: Bytes, have: nat, turns: seq<Turn>, k: nat, cap: nat): LoopEnd
    requires have <= |file| && k <= |turns|
  {
    var before := Joined(turns[..k]);
    ReadLoop(WriteAt(file, have, before), file[..have] + before, turns[k..], cap)
  }

  lemma LoopAtNext(file: Bytes, have: nat, turns: seq<Turn>, k: nat, cap: nat)
    requires have <= |file| && k < |turns|
    requires IsSmooth(turns[k], have + |Joined(turns[..k])|, cap) && turns[k].after.More?
    ensures LoopAt(file, have, turns, k, cap) == LoopAt(file, have, turns, k + 1, cap)
  {
    var t, before := turns[k], Joined(turns[..k]);
    JoinedOneMore(turns, k);
    hide WriteAt, ReadLoop, IsSmooth, Joined;
    assert turns[k..][0] == t && turns[k..][1..] == turns[k + 1..];
    LoopGoesOn(WriteAt(file, have, before), file[..have] + before, turns[k..], cap);
    WriteAtTwice(file, have, before, t.data);
    Grouping(file[..have], before, t.data);
  }

  lemma {:induction false} LoopFrom(file: Bytes, have: nat, turns: seq<Turn>, k: nat, cap: nat)
    requires have <= |file| && k <= |turns| && GoesOn(turns, k, have, cap)
    ensures ReadLoop(file, file[..have], turns, cap) == LoopAt(file, have, turns, k, cap)
    decreases k
  {
    hide *;
    if k == 0 {
      LoopAtStart(file, have, turns, cap);
    } else {
      GoesOnLess(turns, k - 1, have, cap);
      LoopFrom(file, have, turns, k - 1, cap);
      LoopAtNext(file, have, turns, k - 1, cap);
    }
  }

  lemma LoopAtStart(file: Bytes, have: nat, turns: seq<Turn>, cap: nat)
    requires have <= |file|
    ensures ReadLoop(file, file[..have], turns, cap) == LoopAt(file, have, turns, 0, cap)
  {
    assert file[..have] + [] == file[..have] && turns[0..] == turns;
    WriteNothing(file, have);
    hide WriteAt, ReadLoop;
  }

  lemma GoesOnLess(turns: seq<Turn>, n: nat, have: nat, cap: nat)
    requires n < |turns| && GoesOn(turns, n + 1, have, cap)
    ensures GoesOn(turns, n, have, cap)
    ensures IsSmooth(turns[n], have + |Joined(turns[..n])|, cap) && turns[n].after.More?
  {
    hide IsSmooth, Joined;
  }

  lemma StopMeans(turns: seq<Turn>, n: nat, have: nat, cap: nat)
    requires n < |turns| && StopsAt(turns, n, have, cap)
    ensures GoesOn(turns, n, have, cap)
    ensures var smooth := IsSmooth(turns[n], have + |Joined(turns[..n])|, cap);
            !(smooth && turns[n].after.More?) && (CompletesAt(turns, n, have, cap) <==> smooth && turns[n].after.Eof?)
  {
    hide IsSmooth, Joined, GoesOn;
  }

  /**
   * The whole loop, by the turn it stops in: everything before has landed, and of that turn nothing, the part that
   * was saved, or all of it. It passes exactly when it stops at an undisturbed end of input.
   */
  lemma LoopEndsExactly(file: Bytes, have: nat, turns: seq<Turn>, n: nat, cap: nat)
    requires have <= |file| && n < |turns| && StopsAt(turns, n, have, cap)
    ensures var e := ReadLoop(file, file[..have], turns, cap);
            && e.file == WriteAt(file, have, Arrived(turns, n, have, cap))
            && e.hashed == (if CompletesAt(turns, n, have, cap) then Some(file[..have] + Joined(turns[..n + 1])) else None)
  {
    hide *;
    StopMeans(turns, n, have, cap);
    LoopFrom(file, have, turns, n, cap);
    LoopAtStops(file, have, turns, n, cap);
  }

  lemma LoopAtStops(file: Bytes, have: nat, turns: seq<Turn>, n: nat, cap: nat)
    requires have <= |file| && n < |turns|
    requires !(IsSmooth(turns[n], have + |Joined(turns[..n])|, cap) && turns[n].after.More?)
    ensures LoopAt(file, have, turns, n, cap)
            == LoopEnd(WriteAt(file, have, Arrived(turns, n, have, cap)),
                       if IsSmooth(turns[n], have + |Joined(turns[..n])|, cap) && turns[n].after.Eof?
                       then Some(file[..have] + Joined(turns[..n + 1])) else None)
  {
    hide *;
    LoopAtIs(file, have, turns, n, cap);
    JoinedOneMore(turns, n);
    ArrivedIs(turns, n, have, cap);
    var rest := turns[n..];
    assert rest[0] == turns[n];
    LoopStopsBehind(file, have, Joined(turns[..n]), rest, cap);
  }

  lemma ArrivedIs(turns: seq<Turn>, n: nat, have: nat, cap: nat)
    requires n < |turns|
    ensures Arrived(turns, n, have, cap) == Joined(turns[..n]) + Landed(turns[n], have + |Joined(turns[..n])|, cap)
  {
    hide Landed, Joined;
  }

  lemma LoopAtIs(file: Bytes, have: nat, turns: seq<Turn>, k: nat, cap: nat)
    requires have <= |file| && k <= |turns|
    ensures var before := Joined(turns[..k]);
            LoopAt(file, have, turns, k, cap)
            == ReadLoop(WriteAt(file, have, before), file[..have] + before, turns[k..], cap)
  {
    hide ReadLoop, WriteAt, Joined;
  }

  lemma LoopStopsBehind(file: Bytes, have: nat, before: Bytes, rest: seq<Turn>, cap: nat)
    requires have <= |file| && rest != []
    requires !(IsSmooth(rest[0], have + |before|, cap) && rest[0].after.More?)
    ensures var at := have + |before|;
            ReadLoop(WriteAt(file, have, before), file[..have] + before, rest, cap)
            == LoopEnd(WriteAt(file, have, before + Landed(rest[0], at, cap)),
                       if IsSmooth(rest[0], at, cap) && rest[0].after.Eof?
                       then Some(file[..have] + (before + rest[0].data)) else None)
  {
    hide *;
    LoopStops(WriteAt(file, have, before), file[..have] + before, rest, cap);
    WriteAtTwice(file, have, before, Landed(rest[0], have + |before|, cap));
    Grouping(file[..have], before, rest[0].data);
  }

  /** Every body stops somewhere, or runs out of turns, which does not pass. */
  lemma {:induction false} StopsOrRunsOut(turns: seq<Turn>, k: nat, have: nat, cap: nat)
    requires k <= |turns| && GoesOn(turns, k, have, cap)
    ensures (exists n :: k <= n < |turns| && StopsAt(turns, n, have, cap)) || GoesOn(turns, |turns|, have, cap)
    decreases |turns| - k
  {
    hide IsSmooth;
    if k < |turns| && !StopsAt(turns, k, have, cap) {
      assert GoesOn(turns, k + 1, have, cap);
      StopsOrRunsOut(turns, k + 1, have, cap);
    }
  }

  lemma StopsOnce(turns: seq<Turn>, m: nat, n: nat, have: nat, cap: nat)
    requires m < |turns| && n < |turns| && CompletesAt(turns, m, have, cap) && StopsAt(turns, n, have, cap)
    ensures m == n
  {
    hide IsSmooth;
  }

  /** A loop passes if and only if its body completes. */
  lemma LoopPassesExactly(file: Bytes, have: nat, turns: seq<Turn>, cap: nat)
    requires have <= |file|
    ensures ReadLoop(file, file[..have], turns, cap).hashed.Some? <==> Completes(turns, have, cap)
  {
    hide ReadLoop, WriteAt, StopsAt, CompletesAt, Landed;
    assert GoesOn(turns, 0, have, cap);
    StopsOrRunsOut(turns, 0, have, cap);
    if n :| 0 <= n < |turns| && StopsAt(turns, n, have, cap) {
      LoopEndsExactly(file, have, turns, n, cap);
      forall m | 0 <= m < |turns| && CompletesAt(turns, m, have, cap) ensures m == n {
        StopsOnce(turns, m, n, have, cap);
      }
    } else {
      LoopFrom(file, have, turns, |turns|, cap);
      var all := Joined(turns[..|turns|]);
      NothingRead(WriteAt(file, have, all), file[..have] + all, turns[|turns|..], cap);
      NeverCompletes(turns, have, cap);
    }
  }

  lemma NothingRead(file: Bytes, fed: Bytes, turns: seq<Turn>, cap: nat)
    requires |fed| <= |file| && turns == []
    ensures ReadLoop(file, fed, turns, cap).hashed == None
  {
  }

  lemma NeverCompletes(turns: seq<Turn>, have: nat, cap: nat)
    requires GoesOn(turns, |turns|, have, cap)
    ensures !Completes(turns, have, cap)
  {
    hide IsSmooth;
  }

  // ---------------------------------------------------------------- which attempts and fetches succeed

  predicate IsPartial(scheme: Scheme, reply: Reply) { scheme.Web? && reply.Response? && reply.status == 206 }

  /** The reply opens the source, and the temp file can be put in place for it. */
  predicate Accepts(scheme: Scheme, have: nat, reply: Reply) {
    match reply
    case Unreachable => false
    case Opened(_, rewinds, seeks, _) => scheme.Local? && rewinds && seeks
    case Response(status, _, _, rewinds, seeks, _) =>
      scheme.Web? && seeks && (status == 206 || (status == 200 && (have > 0 ==> rewinds)))
  }

  /** Where the bytes of the reply belong. */
  function Start(scheme: Scheme, have: nat, reply: Reply): (at: nat)
    ensures at <= have
  {
    if IsPartial(scheme, reply) then have else 0
  }

  /** What is left of the file when they come: a restart truncates it. */
  function Base(scheme: Scheme, file: Bytes, have: nat, reply: Reply): Bytes {
    if IsPartial(scheme, reply) || (scheme.Web? && have == 0) then file else []
  }

  /** The size the attempt goes by: the one expected, or what the source says of itself. */
  function Total(scheme: Scheme, reply: Reply, expected: int): int {
    if expected > 0 then expected
    else
      match reply
      case Unreachable => expected
      case Opened(size, _, _, _) => if size.Some? then size.value else expected
      case Response(status, length, rangeTotal, _, _, _) =>
        if status == 200 then length else if rangeTotal.Some? then rangeTotal.value else expected
  }

  lemma AttemptIsItsLoop(scheme: Scheme, file: Bytes, have: nat, reply: Reply, expected: int, cap: nat)
    requires have <= |file| && Accepts(scheme, have, reply)
    ensures var base := Base(scheme, file, have, reply); var start := Start(scheme, have, reply);
            && start <= |base|
            && Attempt(scheme, file, have, reply, expected, cap)
               == Outcome(ReadLoop(base, base[..start], reply.body, cap), Total(scheme, reply, expected))
  {
    hide ReadLoop;
  }

  /** An attempt passes if and only if its reply is accepted and the body completes where it belongs. */
  lemma AttemptPassesExactly(scheme: Scheme, file: Bytes, have: nat, reply: Reply, expected: int, cap: nat)
    requires have <= |file|
    ensures Attempt(scheme, file, have, reply, expected, cap).passed.Some?
            <==> Accepts(scheme, have, reply) && Completes(reply.body, Start(scheme, have, reply), cap)
  {
    if Accepts(scheme, have, reply) {
      AttemptIsItsLoop(scheme, file, have, reply, expected, cap);
      hide Attempt, ReadLoop, Completes, Accepts, Base, Start;
      var base := Base(scheme, file, have, reply);
      LoopPassesExactly(base, Start(scheme, have, reply), reply.body, cap);
    } else {
      hide ReadLoop, Completes;
    }
  }

  /** What an accepted reply leaves, by the turn its body stops in: everything that got through is in the file. */
  lemma AttemptLeaves(scheme: Scheme, file: Bytes, have: nat, reply: Reply, expected: int, cap: nat, n: nat)
    requires have <= |file| && Accepts(scheme, have, reply)
    requires n < |reply.body| && StopsAt(reply.body, n, Start(scheme, have, reply), cap)
    ensures var base := Base(scheme, file, have, reply); var start := Start(scheme, have, reply);
            var e := Attempt(scheme, file, have, reply, expected, cap);
            && start <= |base|
            && e.file == WriteAt(base, start, Arrived(reply.body, n, start, cap))
            && (CompletesAt(reply.body, n, start, cap) ==>
                  e.passed == Some(Passed(base[..start] + Joined(reply.body[..n + 1]), Total(scheme, reply, expected))))
  {
    assert !reply.Unreachable?;
    hide *;
    AttemptIsItsLoop(scheme, file, have, reply, expected, cap);
    var base, start := Base(scheme, file, have, reply), Start(scheme, have, reply);
    LoopEndsExactly(base, start, reply.body, n, cap);
    OutcomeIs(ReadLoop(base, base[..start], reply.body, cap), Total(scheme, reply, expected));
  }

  lemma OutcomeIs(e: LoopEnd, total: int)
    ensures Outcome(e, total).file == e.file
    ensures e.hashed.Some? ==> Outcome(e, total).passed == Some(Passed(e.hashed.value, total))
  {
  }

  lemma CompletingStops(turns: seq<Turn>, n: nat, have: nat, cap: nat)
    requires n < |turns| && CompletesAt(turns, n, have, cap)
    ensures StopsAt(turns, n, have, cap)
    ensures Arrived(turns, n, have, cap) == Joined(turns[..n + 1])
  {
    JoinedOneMore(turns, n);
    hide GoesOn, Joined;
  }

  /** A resume that completes: the file and what came, hashed as a whole. */
  lemma ResumeCompletes(file: Bytes, reply: Reply, expected: int, cap: nat, n: nat)
    requires reply.Response? && reply.status == 206 && reply.seeks
    requires n < |reply.body| && CompletesAt(reply.body, n, |file|, cap)
    ensures var whole := file + Joined(reply.body[..n + 1]);
            Attempt(Web, file, |file|, reply, expected, cap)
            == Ended(whole, Some(Passed(whole, Total(Web, reply, expected))))
  {
    CompletingStops(reply.body, n, |file|, cap);
    AttemptLeaves(Web, file, |file|, reply, expected, cap, n);
    WriteAtEnd(file, Joined(reply.body[..n + 1]));
    assert file[..|file|] == file;
    hide Attempt, CompletesAt, StopsAt, Joined, Arrived, WriteAt, Total;
  }

  /** A reply with the whole content that completes, local or not: exactly what came. */
  lemma RestartCompletes(scheme: Scheme, file: Bytes, reply: Reply, expected: int, cap: nat, n: nat)
    requires Accepts(scheme, |file|, reply) && !IsPartial(scheme, reply)
    requires n < |reply.body| && CompletesAt(reply.body, n, 0, cap)
    ensures var whole := Joined(reply.body[..n + 1]);
            Attempt(scheme, file, |file|, reply, expected, cap)
            == Ended(whole, Some(Passed(whole, Total(scheme, reply, expected))))
  {
    CompletingStops(reply.body, n, 0, cap);
    AttemptLeaves(scheme, file, |file|, reply, expected, cap, n);
    WriteAtEnd([], Joined(reply.body[..n + 1]));
    var whole := Joined(reply.body[..n + 1]);
    assert Base(scheme, file, |file|, reply) == [];
    assert ([] + whole) == whole;
    hide Attempt, CompletesAt, StopsAt, Joined, Arrived, WriteAt, Total, Accepts;
  }

  // ---------------------------------------------------------------- whole fetches

  /** What attempt `k` of a fetch finds, and whether its reply passes. */
  ghost predicate PassesAt(scheme: Scheme, tries: seq<Try>, k: nat, expected: int, cap: nat)
    requires k < |tries|
  {
    var have := Have(FileAfter(scheme, tries, k, expected, cap), tries[k]);
    Accepts(scheme, have, tries[k].reply) && Completes(tries[k].reply.body, Start(scheme, have, tries[k].reply), cap)
  }

  /** Attempt `k` fails, and nobody cancels around it. */
  ghost predicate RetriesAt(scheme: Scheme, tries: seq<Try>, k: nat, expected: int, cap: nat)
    requires k < |tries|
  {
    !tries[k].cancelledBefore && !PassesAt(scheme, tries, k, expected, cap) && !tries[k].cancelledAfter
  }

  /** The size that attempt `k` ends with is the one it goes by, where it goes by any. */
  ghost predicate SizeFitsAt(scheme: Scheme, tries: seq<Try>, k: nat, expected: int, cap: nat)
    requires k < |tries|
  {
    var reply := tries[k].reply;
    var start := Start(scheme, Have(FileAfter(scheme, tries, k, expected, cap), tries[k]), reply);
    var total := Total(scheme, reply, expected);
    !reply.Unreachable?
    && exists n :: 0 <= n < |reply.body| && CompletesAt(reply.body, n, start, cap)
                   && (total > 0 ==> start + |Joined(reply.body[..n + 1])| == total)
  }

  /** Attempt `k` is the first to pass; it brings the right size, the file closes, and nobody cancels before. */
  ghost predicate DeliversAt(scheme: Scheme, tries: seq<Try>, k: nat, expected: int, cap: nat)
    requires k < |tries|
  {
    && (forall j :: 0 <= j < k ==> RetriesAt(scheme, tries, j, expected, cap))
    && !tries[k].cancelledBefore && PassesAt(scheme, tries, k, expected, cap)
    && SizeFitsAt(scheme, tries, k, expected, cap) && tries[k].closes
  }

  /** The fetch as it stands before attempt `k`. */
  function FetchAt(scheme: Scheme, tries: seq<Try>, k: nat, expected: int, cap: nat): Fetched
    requires k <= |tries|
  {
    FetchFrom(scheme, FileAfter(scheme, tries, k, expected, cap), tries[k..], expected, cap)
  }

  lemma PassesAtIs(scheme: Scheme, tries: seq<Try>, k: nat, expected: int, cap: nat)
    requires k < |tries|
    ensures var file := FileAfter(scheme, tries, k, expected, cap);
            Attempt(scheme, file, Have(file, tries[k]), tries[k].reply, expected, cap).passed.Some?
            <==> PassesAt(scheme, tries, k, expected, cap)
  {
    var file := FileAfter(scheme, tries, k, expected, cap);
    AttemptPassesExactly(scheme, file, Have(file, tries[k]), tries[k].reply, expected, cap);
    hide Attempt, Completes, Accepts, Start, FileAfter;
  }

  /** One attempt of a fetch, by its outcome. */
  lemma FetchAtIs(scheme: Scheme, tries: seq<Try>, k: nat, expected: int, cap: nat)
    requires k < |tries|
    ensures var file := FileAfter(scheme, tries, k, expected, cap);
            var e := Attempt(scheme, file, Have(file, tries[k]), tries[k].reply, expected, cap);
            FetchAt(scheme, tries, k, expected, cap)
            == (if tries[k].cancelledBefore then Gone
                else if e.passed.Some? then Finish(e, tries[k].closes)
                else if tries[k].cancelledAfter then Gone
                else FetchAt(scheme, tries, k + 1, expected, cap))
  {
    NextFile(scheme, tries, k, expected, cap);
    assert tries[k..][0] == tries[k] && tries[k..][1..] == tries[k + 1..];
    hide Attempt, FileAfter, Finish;
  }

  lemma {:induction false} RetriedUpTo(scheme: Scheme, tries: seq<Try>, k: nat, expected: int, cap: nat)
    requires k <= |tries| && forall j :: 0 <= j < k ==> RetriesAt(scheme, tries, j, expected, cap)
    ensures FetchFrom(scheme, [], tries, expected, cap) == FetchAt(scheme, tries, k, expected, cap)
  {
    if k == 0 {
      assert tries[0..] == tries;
    } else {
      RetriedUpTo(scheme, tries, k - 1, expected, cap);
      FetchAtIs(scheme, tries, k - 1, expected, cap);
      PassesAtIs(scheme, tries, k - 1, expected, cap);
      hide FetchAt, Attempt, FileAfter, PassesAt, FetchFrom, Finish;
      assert RetriesAt(scheme, tries, k - 1, expected, cap);
    }
  }

  lemma FirstNotRetried(scheme: Scheme, tries: seq<Try>, k: nat, expected: int, cap: nat) returns (n: nat)
    requires k <= |tries| && forall j :: 0 <= j < k ==> RetriesAt(scheme, tries, j, expected, cap)
    ensures k <= n <= |tries| && forall j :: 0 <= j < n ==> RetriesAt(scheme, tries, j, expected, cap)
    ensures n < |tries| ==> !RetriesAt(scheme, tries, n, expected, cap)
    decreases |tries| - k
  {
    hide RetriesAt;
    if k == |tries| || !RetriesAt(scheme, tries, k, expected, cap) {
      n := k;
    } else {
      n := FirstNotRetried(scheme, tries, k + 1, expected, cap);
    }
  }

  lemma OnlyOneEnd(turns: seq<Turn>, m: nat, n: nat, have: nat, cap: nat)
    requires m < |turns| && n < |turns| && CompletesAt(turns, m, have, cap) && CompletesAt(turns, n, have, cap)
    ensures m == n
  {
    CompletingStops(turns, n, have, cap);
    StopsOnce(turns, m, n, have, cap);
  }

  /** An attempt that passes finishes the fetch well if and only if its size fits and the file closes. */
  lemma FinishesExactly(scheme: Scheme, tries: seq<Try>, k: nat, expected: int, cap: nat)
    requires k < |tries| && PassesAt(scheme, tries, k, expected, cap)
    ensures var file := FileAfter(scheme, tries, k, expected, cap);
            var e := Attempt(scheme, file, Have(file, tries[k]), tries[k].reply, expected, cap);
            && e.passed.Some?
            && (Finish(e, tries[k].closes).Staged? <==> tries[k].closes && SizeFitsAt(scheme, tries, k, expected, cap))
  {
    PassesAtIs(scheme, tries, k, expected, cap);
    var file := FileAfter(scheme, tries, k, expected, cap);
    var reply := tries[k].reply;
    var have := Have(file, tries[k]);
    var start := Start(scheme, have, reply);
    hide FileAfter, Attempt, Total, Start, Accepts, CompletesAt, StopsAt, Joined, WriteAt, Arrived, Base, GoesOn, Have,
         SizeFitsAt;
    var n :| 0 <= n < |reply.body| && CompletesAt(reply.body, n, start, cap);
    CompletingStops(reply.body, n, start, cap);
    AttemptLeaves(scheme, file, have, reply, expected, cap, n);
    SizeFitsThere(scheme, tries, k, expected, cap, n);
  }

  lemma SizeFitsThere(scheme: Scheme, tries: seq<Try>, k: nat, expected: int, cap: nat, n: nat)
    requires k < |tries| && !tries[k].reply.Unreachable? && n < |tries[k].reply.body|
    requires CompletesAt(tries[k].reply.body, n,
               Start(scheme, Have(FileAfter(scheme, tries, k, expected, cap), tries[k]), tries[k].reply), cap)
    ensures var reply := tries[k].reply; var total := Total(scheme, reply, expected);
            var start := Start(scheme, Have(FileAfter(scheme, tries, k, expected, cap), tries[k]), reply);
            SizeFitsAt(scheme, tries, k, expected, cap)
            <==> (total > 0 ==> start + |Joined(reply.body[..n + 1])| == total)
  {
    var body := tries[k].reply.body;
    var start := Start(scheme, Have(FileAfter(scheme, tries, k, expected, cap), tries[k]), tries[k].reply);
    hide FileAfter, Total, Start, CompletesAt, Joined, Have;
    forall m | 0 <= m < |body| && CompletesAt(body, m, start, cap) ensures m == n {
      OnlyOneEnd(body, m, n, start, cap);
    }
  }


  lemma DeliversOnlyThere(scheme: Scheme, tries: seq<Try>, k: nat, n: nat, expected: int, cap: nat)
    requires k < |tries| && n <= |tries| && DeliversAt(scheme, tries, k, expected, cap)
    requires forall j :: 0 <= j < n ==> RetriesAt(scheme, tries, j, expected, cap)
    requires n < |tries| ==> !RetriesAt(scheme, tries, n, expected, cap)
    ensures k == n
  {
    assert !RetriesAt(scheme, tries, k, expected, cap);
    hide PassesAt, SizeFitsAt, RetriesAt;
  }

  /**
   * A fetch stages a file if and only if some attempt delivers: the earlier ones fail without a cancel, and that
   * one's reply is accepted, completes where the file stands, and brings the size it goes by.
   */
  lemma FetchStagesExactly(scheme: Scheme, tries: seq<Try>, expected: int, cap: nat)
    ensures FetchFrom(scheme, [], tries, expected, cap).Staged?
            <==> exists k :: 0 <= k < |tries| && DeliversAt(scheme, tries, k, expected, cap)
  {
    hide FetchFrom, FetchAt, FileAfter, Attempt, PassesAt, SizeFitsAt, Finish;
    var n := FirstNotRetried(scheme, tries, 0, expected, cap);
    RetriedUpTo(scheme, tries, n, expected, cap);
    forall k | 0 <= k < |tries| && DeliversAt(scheme, tries, k, expected, cap) ensures k == n {
      DeliversOnlyThere(scheme, tries, k, n, expected, cap);
    }
    if n < |tries| {
      FetchAtIs(scheme, tries, n, expected, cap);
      PassesAtIs(scheme, tries, n, expected, cap);
      if PassesAt(scheme, tries, n, expected, cap) {
        FinishesExactly(scheme, tries, n, expected, cap);
      }
      assert FetchAt(scheme, tries, n, expected, cap).Staged? <==> DeliversAt(scheme, tries, n, expected, cap);
    } else {
      NoTriesLeft(scheme, tries, expected, cap);
    }
  }

  lemma NoTriesLeft(scheme: Scheme, tries: seq<Try>, expected: int, cap: nat)
    ensures FetchAt(scheme, tries, |tries|, expected, cap) == Gone
  {
  }

  /** Against an honest server and told the right size: the content comes if and only if some attempt delivers. */
  lemma HonestFetchDelivers(scheme: Scheme, tries: seq<Try>, cap: nat, content: Bytes)
    requires AllHonest(scheme, tries, |content|, cap, content) && content != []
    ensures FetchFrom(scheme, [], tries, |content|, cap) == Staged(content, Sha256(content), |content|)
            <==> exists k :: 0 <= k < |tries| && DeliversAt(scheme, tries, k, |content|, cap)
  {
    hide DeliversAt, FetchFrom, AllHonest;
    FetchStagesExactly(scheme, tries, |content|, cap);
    HonestFetchIsExact(scheme, tries, cap, content);
    TotalIsExpected(scheme, [], tries, |content|, cap);
  }

  lemma {:induction false} TotalIsExpected(scheme: Scheme, file: Bytes, tries: seq<Try>, expected: int, cap: nat)
    requires expected > 0
    ensures var f := FetchFrom(scheme, file, tries, expected, cap); f.Staged? ==> f.total == expected
    decreases |tries|
  {
    if tries != [] {
      var have := Have(file, tries[0]);
      AttemptTotal(scheme, file, have, tries[0].reply, expected, cap);
      hide Attempt;
      TotalIsExpected(scheme, Attempt(scheme, file, have, tries[0].reply, expected, cap).file, tries[1..], expected, cap);
    }
  }

  lemma AttemptTotal(scheme: Scheme, file: Bytes, have: nat, reply: Reply, expected: int, cap: nat)
    requires have <= |file| && expected > 0
    ensures var e := Attempt(scheme, file, have, reply, expected, cap);
            e.passed.Some? ==> e.passed.value.total == expected
  {
    hide ReadLoop;
  }

  // ---------------------------------------------------------------- the downloader's loops

  /** The temp file of one fetch. */
  class Part {
    var data: Bytes
    var onDisk: bool

    constructor ()
      ensures data == [] && onDisk
    {
      data, onDisk := [], true;
    }

    method Write(at: nat, bytes: Bytes)
      requires at <= |data|
      modifies `data
      ensures data == WriteAt(old(data), at, bytes)
    {
      data := WriteAt(data, at, bytes);
    }

    /** The copying loop of an attempt, from the offset it resumes at. */
    method Copy(have: nat, body: seq<Turn>, cap: nat) returns (ok: bool, done: nat, hashed: Bytes)
      requires have <= |data|
      modifies `data
      ensures var e := ReadLoop(old(data), old(data)[..have], body, cap);
              data == e.file && ok == e.hashed.Some? && (ok ==> hashed == e.hashed.value && done == |hashed|)
    {
      hide WriteAt;
      hashed := data[..have];
      done := have;
      for i := 0 to |body|
        invariant done == |hashed| <= |data|
        invariant ReadLoop(data, hashed, body[i..], cap) == ReadLoop(old(data), old(data)[..have], body, cap)
      {
        var t := body[i];
        assert body[i..][0] == t && body[i..][1..] == body[i + 1..];
        if t.cancelled {
          return false, done, hashed;
        }
        if |t.data| > 0 {
          if done + |t.data| > cap {
            return false, done, hashed;
          }
          if t.saved < |t.data| {
            Write(done, t.data[..t.saved]);
            return false, done, hashed;
          }
          Write(done, t.data);
          hashed := hashed + t.data;
          done := done + |t.data|;
          if t.refused {
            return false, done, hashed;
          }
        } else {
          EmptyWrite(data, done, hashed, t.data);
        }
        if t.after.Eof? {
          return true, done, hashed;
        }
        if t.after.Broken? {
          return false, done, hashed;
        }
      }
      assert body[|body|..] == [];
      return false, done, hashed;
    }

    /** One fetch pass, appending from `have`. */
    method TryOnce(scheme: Scheme, start: nat, reply: Reply, expected: int, cap: nat)
      returns (ok: bool, done: nat, total: int, hashed: Bytes)
      requires start <= |data|
      modifies `data
      ensures var e := Attempt(scheme, old(data), start, reply, expected, cap);
              && data == e.file && ok == e.passed.Some?
              && (ok ==> e.passed.value == Passed(hashed, total) && done == |hashed|)
    {
      hide ReadLoop;
      var have := start;
      ok, done, total, hashed := false, 0, expected, [];
      match scheme {
      case Unsupported =>
        return;
      case Local =>
        if !reply.Opened? {
          return;
        }
        if total <= 0 && reply.size.Some? {
          total := reply.size.value;
        }
        if !reply.rewinds {
          return;
        }
        data := [];
        have := 0;
      case Web =>
        if !reply.Response? {
          return;
        }
        if reply.status == 200 {
          if have > 0 {
            if !reply.rewinds {
              return;
            }
            data := [];
            have := 0;
          }
          if total <= 0 {
            total := reply.length;
          }
        } else if reply.status == 206 {
          if total <= 0 && reply.rangeTotal.Some? {
            total := reply.rangeTotal.value;
          }
        } else {
          return;
        }
      }
      if !reply.seeks {
        return;
      }
      ok, done, hashed := Copy(have, reply.body, cap);
    }

    /** Downloader.Fetch on a fresh temp file. Failing removes the file. */
    method Fetch(scheme: Scheme, tries: seq<Try>, expected: int, cap: nat) returns (sum: Option<Digest>)
      requires |tries| == MAX_TRIES && data == [] && onDisk
      modifies this
      ensures match FetchFrom(scheme, [], tries, expected, cap)
              case Gone => sum == None && !onDisk
              case Staged(file, digest, _) => sum == Some(digest) && onDisk && data == file
    {
      hide Attempt;
      for i := 0 to MAX_TRIES
        invariant onDisk
        invariant FetchFrom(scheme, data, tries[i..], expected, cap) == FetchFrom(scheme, [], tries, expected, cap)
      {
        var t := tries[i];
        assert tries[i..][0] == t && tries[i..][1..] == tries[i + 1..];
        if t.cancelledBefore {
          onDisk := false;
          return None;
        }
        var have := 0;
        if t.statted {
          have := |data|;
        }
        var ok, done, total, hashed := TryOnce(scheme, have, t.reply, expected, cap);
        if ok {
          if !t.closes || (total > 0 && done != total) {
            onDisk := false;
            return None;
          }
          return Some(Sha256(hashed));
        }
        if t.cancelledAfter {
          onDisk := false;
          return None;
        }
      }
      onDisk := false;
      return None;
    }
  }

  lemma EmptyWrite(file: Bytes, at: nat, fed: Bytes, data: Bytes)
    requires at <= |file| && data == []
    ensures WriteAt(file, at, data) == file && fed + data == fed
  {
  }
}
