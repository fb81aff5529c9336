/** With one worker at a time, when the staged file is what its labels say. */
module CoherentManager {
  import opened Text
  import opened UpdateManager
  import opened SoloManager

  /** The selected artifact belongs to the pending release, and the staged file is that artifact. */
  predicate Coherent(s: State) {
    && (s.artifact.Some? ==> s.pending.Some? && s.artifact.value in s.pending.value.artifacts)
    && (s.staged.Some? ==>
          && s.staged.value in s.disk.files && s.artifact.Some?
          && Sha256(s.disk.files[s.staged.value]) == s.artifact.value.sha)
  }

  /** A name handed out, but not the staged file's. */
  predicate OwnFile(s: State, f: nat) { f < s.disk.next && s.staged != Some(f) }

  predicate FileMatches(s: State, f: nat, a: Artifact) {
    OwnFile(s, f) && f in s.disk.files && Sha256(s.disk.files[f]) == a.sha
  }

  /** What a worker in flight knows about the selection and its own file. */
  predicate Fits(s: State, v: Worker) {
    match v
    case Check => true
    case Download(pc, art, _, aborted) =>
      && (!aborted ==> s.artifact == Some(art))
      && (match pc
          case Fetching => true
          case Landed(path) => path.Some? ==> OwnFile(s, path.value)
          case Hashing(f) => OwnFile(s, f)
          case Hashed(f, good) => OwnFile(s, f) && (good ==> FileMatches(s, f, art)))
    case Install(pc, _, rel, cancelled, _) =>
      && (!cancelled ==> s.pending == Some(rel))
      && (match pc
          case Refetching(full) => full in rel.artifacts
          case Refetched(full, f) => full in rel.artifacts && OwnFile(s, f)
          case Rewriting(full, f) => full in rel.artifacts && FileMatches(s, f, full)
          case _ => true)
  }

  ghost predicate AllFit(s: State) { forall w :: w in s.workers ==> Fits(s, s.workers[w]) }

  ghost predicate Orderly(s: State) {
    && Coherent(s) && NamesUsed(s.disk) && (s.staged.Some? ==> s.staged.value < s.disk.next) && AllFit(s)
  }

  /** The guard the fallback's write lacks: the artifact it chose belongs to the pending release. */
  predicate RewriteFits(s: State, a: Action)
    requires Enabled(s, a)
  {
    a.Rewrite? ==> s.pending.Some? && s.workers[a.w].ipc.chosen in s.pending.value.artifacts
  }

  lemma OnlyWorker(s: State, t: State, w: nat, y: Worker)
    requires AtMostOne(s.workers) && w in s.workers && !s.workers[w].Check?
    requires t.workers == s.workers - {w} || (t.workers == s.workers[w := y] && Fits(t, y))
    ensures AllFit(t)
  {
    OthersAreChecks(s.workers, w);
    hide Fits;
    forall x | x in t.workers && x != w ensures Fits(t, t.workers[x]) { CheckFits(t); }
  }

  lemma CheckFits(t: State)
    ensures Fits(t, Check)
  {
  }

  lemma WorkerKnows(s: State, w: nat)
    requires Solo(s) && Orderly(s) && w in s.workers
    ensures Fits(s, s.workers[w]) && InStep(s, w, s.workers[w])
  {
  }

  /** A step of the one worker: the rest of the order has to be shown for its new state only. */
  lemma WorkerStep(s: State, t: State, w: nat, y: Worker)
    requires Solo(s) && w in s.workers && !s.workers[w].Check?
    requires Coherent(t) && NamesUsed(t.disk) && (t.staged.Some? ==> t.staged.value < t.disk.next)
    requires t.workers == s.workers - {w} || (t.workers == s.workers[w := y] && Fits(t, y))
    ensures Orderly(t)
  {
    hide Coherent, NamesUsed, Fits, InStep, AtMostOne, AllFit;
    OnlyWorker(s, t, w, y);
  }

  lemma NamesStayUsed(d: Downloads, f: nat, bytes: Bytes)
    requires NamesUsed(d)
    ensures NamesUsed(d.Without(f)) && NamesUsed(d.With(bytes))
  {
  }

  lemma FetchStaysOrderly(s: State, w: nat, bytes: Option<Bytes>)
    requires Solo(s) && Orderly(s) && Enabled(s, Fetch(w, bytes))
    ensures Orderly(DoFetch(s, w, s.workers[w], bytes))
  {
    WorkerKnows(s, w);
    hide AtMostOne, Moved, AllFit, Solo, InStep;
    var x := s.workers[w];
    var t := DoFetch(s, w, x, bytes);
    NamesStayUsed(s.disk, 0, if bytes.Some? then bytes.value else []);
    WorkerStep(s, t, w, t.workers[w]);
  }

  lemma AfterFetchStaysOrderly(s: State, w: nat, ctxDone: bool)
    requires Solo(s) && Orderly(s) && Enabled(s, AfterFetch(w, ctxDone))
    ensures Orderly(DoAfterFetch(s, w, s.workers[w], ctxDone))
  {
    WorkerKnows(s, w);
    hide AtMostOne, Moved, AllFit, NamesUsed, Solo, InStep;
    var x := s.workers[w];
    var t := DoAfterFetch(s, w, x, ctxDone);
    var f := if x.dpc.path.Some? then x.dpc.path.value else 0;
    NamesStayUsed(s.disk, f, []);
    WorkerStep(s, t, w, x.(dpc := Hashing(f)));
  }

  lemma HashStaysOrderly(s: State, w: nat)
    requires Solo(s) && Orderly(s) && Enabled(s, Hash(w))
    ensures Orderly(DoHash(s, w, s.workers[w]))
  {
    WorkerKnows(s, w);
    hide AtMostOne, Moved, AllFit, NamesUsed, Solo, InStep;
    var x := s.workers[w];
    var t := DoHash(s, w, x);
    NamesStayUsed(s.disk, x.dpc.file, []);
    WorkerStep(s, t, w, t.workers[w]);
  }

  lemma AfterHashStaysOrderly(s: State, w: nat)
    requires Solo(s) && Orderly(s) && Enabled(s, AfterHash(w))
    ensures Orderly(DoAfterHash(s, w, s.workers[w]))
  {
    WorkerKnows(s, w);
    hide AtMostOne, Moved, AllFit, NamesUsed, Solo;
    var x := s.workers[w];
    var t := DoAfterHash(s, w, x);
    NamesStayUsed(s.disk, x.dpc.hashed, []);
    WorkerStep(s, t, w, x);
  }

  lemma AfterFailureFits(s: State, i: Worker, kind: Kind)
    requires i.Install? && (!i.cancelled ==> s.pending == Some(i.rel))
    ensures Fits(s, i.(ipc := AfterFailure(i, kind)))
  {
  }

  lemma UnpackStaysOrderly(s: State, w: nat, ok: bool)
    requires Solo(s) && Orderly(s) && Enabled(s, Unpack(w, ok))
    ensures Orderly(DoUnpack(s, w, s.workers[w], ok))
  {
    WorkerKnows(s, w);
    hide AtMostOne, AllFit, NamesUsed, Solo, InStep, AfterFailure;
    var x := s.workers[w];
    var t := DoUnpack(s, w, x, ok);
    AfterFailureFits(t, x, x.ipc.kind);
    WorkerStep(s, t, w, t.workers[w]);
  }

  lemma PlaceStaysOrderly(s: State, w: nat, ok: bool)
    requires Solo(s) && Orderly(s) && Enabled(s, Place(w, ok))
    ensures Orderly(DoPlace(s, w, s.workers[w], ok))
  {
    WorkerKnows(s, w);
    hide AtMostOne, AllFit, NamesUsed, Solo, InStep, AfterFailure;
    var x := s.workers[w];
    var t := DoPlace(s, w, x, ok);
    AfterFailureFits(t, x, x.ipc.source);
    WorkerStep(s, t, w, t.workers[w]);
  }

  lemma RefetchStaysOrderly(s: State, w: nat, bytes: Option<Bytes>)
    requires Solo(s) && Orderly(s) && Enabled(s, Refetch(w, bytes))
    ensures Orderly(DoRefetch(s, w, s.workers[w], bytes))
  {
    WorkerKnows(s, w);
    hide AtMostOne, AllFit, Solo, InStep;
    var x := s.workers[w];
    var t := DoRefetch(s, w, x, bytes);
    NamesStayUsed(s.disk, 0, if bytes.Some? then bytes.value else []);
    WorkerStep(s, t, w, t.workers[w]);
  }

  lemma RehashStaysOrderly(s: State, w: nat)
    requires Solo(s) && Orderly(s) && Enabled(s, Rehash(w))
    ensures Orderly(DoRehash(s, w, s.workers[w]))
  {
    WorkerKnows(s, w);
    hide AtMostOne, AllFit, NamesUsed, Solo, InStep;
    var x := s.workers[w];
    var t := DoRehash(s, w, x);
    NamesStayUsed(s.disk, x.ipc.path, []);
    WorkerStep(s, t, w, t.workers[w]);
  }

  lemma RewriteStaysOrderly(s: State, w: nat)
    requires Solo(s) && Orderly(s) && Enabled(s, Rewrite(w)) && RewriteFits(s, Rewrite(w))
    ensures Orderly(DoRewrite(s, w, s.workers[w]))
  {
    WorkerKnows(s, w);
    hide AtMostOne, AllFit, NamesUsed, Solo, InStep;
    var x := s.workers[w];
    var t := DoRewrite(s, w, x);
    WorkerStep(s, t, w, t.workers[w]);
  }

  /** The write is coherent exactly when it fits. */
  lemma RewriteIsCoherentExactly(s: State, w: nat)
    requires Solo(s) && Orderly(s) && Enabled(s, Rewrite(w))
    ensures Coherent(DoRewrite(s, w, s.workers[w])) <==> RewriteFits(s, Rewrite(w))
  {
    WorkerKnows(s, w);
    hide AtMostOne, AllFit, NamesUsed, Solo, InStep;
  }

  lemma DecideStaysOrderly(s: State, w: nat, spawnOk: bool)
    requires Solo(s) && Orderly(s) && Enabled(s, Decide(w, spawnOk))
    ensures Orderly(DoDecide(s, w, s.workers[w], spawnOk))
  {
    DecideKeepsSelection(s, w, spawnOk);
    NamesStayUsed(s.disk, if s.staged.Some? then s.staged.value else 0, []);
    hide AtMostOne, AllFit, NamesUsed, Solo, InStep, Fits, DoDecide;
    WorkerStep(s, DoDecide(s, w, s.workers[w], spawnOk), w, s.workers[w]);
  }

  /** The last section of an install either leaves selection and files alone or drops what is staged. */
  lemma DecideKeepsSelection(s: State, w: nat, spawnOk: bool)
    requires Enabled(s, Decide(w, spawnOk))
    ensures var t := DoDecide(s, w, s.workers[w], spawnOk);
            && t.workers == s.workers - {w} && t.pending == s.pending && t.artifact == s.artifact
            && (t.staged.Some? ==> t.staged == s.staged && t.disk == s.disk)
            && (t.disk == s.disk || (s.staged.Some? && t.disk == s.disk.Without(s.staged.value)))
  {
    hide Moved;
  }

  /** A check that completes finds no worker that still relies on the old selection. */
  lemma CheckFindsNone(s: State, w: nat)
    requires Solo(s) && Orderly(s) && w in s.workers && s.phase == Checking
    ensures match s.workers[w]
            case Check => true
            case Download(_, _, _, aborted) => aborted
            case Install(_, _, _, cancelled, _) => cancelled
  {
    WorkerKnows(s, w);
  }

  lemma SelectionReplaced(s: State, t: State, v: Worker)
    requires Fits(s, v) && t.staged == None && t.disk.next == s.disk.next
    requires forall f :: f in s.disk.files && s.staged != Some(f) ==> f in t.disk.files && t.disk.files[f] == s.disk.files[f]
    requires match v
             case Check => true
             case Download(_, _, _, aborted) => aborted
             case Install(_, _, _, cancelled, _) => cancelled
    ensures Fits(t, v)
  {
  }

  lemma SelectionSame(s: State, t: State, v: Worker)
    requires Fits(s, v) && t.staged == s.staged && t.disk == s.disk && t.pending == s.pending && t.artifact == s.artifact
    ensures Fits(t, v)
  {
  }

  lemma FinishCheckStaysOrderly(s: State, x: nat, o: Outcome, trusted: Release -> bool)
    requires Solo(s) && Orderly(s)
    ensures Orderly(DoFinishCheck(s, x, o, trusted))
  {
    hide Moved, Fits, InStep, AtMostOne, NamesUsed;
    var t := DoFinishCheck(s, x, o, trusted);
    NamesStayUsed(s.disk, if s.staged.Some? then s.staged.value else 0, []);
    forall w | w in t.workers ensures Fits(t, t.workers[w]) {
      if t.disk == s.disk && t.pending == s.pending && t.artifact == s.artifact && t.staged == s.staged {
        SelectionSame(s, t, s.workers[w]);
      } else {
        CheckFindsNone(s, w);
        SelectionReplaced(s, t, s.workers[w]);
      }
    }
  }

  lemma CancelledFits(s: State, w: nat, v: Worker)
    requires Fits(s, v)
    ensures Fits(DoCancel(s), CancelWorker(s, w, v))
  {
    hide Moved;
  }

  lemma CancelStaysOrderly(s: State)
    requires Orderly(s)
    ensures Orderly(DoCancel(s))
  {
    hide Moved, Fits;
    var t := DoCancel(s);
    forall w | w in t.workers ensures Fits(t, t.workers[w]) {
      CancelledFits(s, w, s.workers[w]);
    }
  }

  lemma BeginStaysOrderly(s: State, a: Action, trusted: Release -> bool)
    requires Orderly(s) && (a.BeginCheck? || a.BeginDownload? || a.BeginInstall?)
    ensures Orderly(Next(s, a, trusted))
  {
    hide Moved;
    var t := Next(s, a, trusted);
    forall w | w in t.workers ensures Fits(t, t.workers[w]) {
      assert w in s.workers && t.workers[w] == s.workers[w] ==> Fits(s, s.workers[w]);
    }
  }

  lemma QuietStaysOrderly(s: State, a: Action, trusted: Release -> bool)
    requires Orderly(s) && (a.Dismiss? || a.UpdaterExited? || a.UpdaterCleaned? || a.Restart?)
    ensures Orderly(Next(s, a, trusted))
  {
    hide Moved;
    var t := Next(s, a, trusted);
    forall w | w in t.workers ensures Fits(t, t.workers[w]) {
      assert Fits(s, s.workers[w]);
    }
  }

  lemma StepStaysOrderly(s: State, a: Action, trusted: Release -> bool)
    requires Solo(s) && Orderly(s) && Enabled(s, a) && RewriteFits(s, a)
    ensures Orderly(Next(s, a, trusted))
  {
    hide Solo, Orderly, DoFinishCheck, DoFetch, DoAfterFetch, DoHash, DoAfterHash, DoUnpack, DoPlace, DoRefetch, DoRehash,
      DoRewrite, DoDecide, DoCancel, DoBeginCheck, DoBeginDownload, DoBeginInstall, DoRestart, DoDismiss, DoUpdaterExited;
    match a
    case FinishCheck(w, o) => FinishCheckStaysOrderly(s, w, o, trusted);
    case Fetch(w, bytes) => FetchStaysOrderly(s, w, bytes);
    case AfterFetch(w, ctxDone) => AfterFetchStaysOrderly(s, w, ctxDone);
    case Hash(w) => HashStaysOrderly(s, w);
    case AfterHash(w) => AfterHashStaysOrderly(s, w);
    case Unpack(w, ok) => UnpackStaysOrderly(s, w, ok);
    case Place(w, ok) => PlaceStaysOrderly(s, w, ok);
    case Refetch(w, bytes) => RefetchStaysOrderly(s, w, bytes);
    case Rehash(w) => RehashStaysOrderly(s, w);
    case Rewrite(w) => RewriteStaysOrderly(s, w);
    case Decide(w, spawnOk) => DecideStaysOrderly(s, w, spawnOk);
    case Cancel => CancelStaysOrderly(s);
    case Dismiss => QuietStaysOrderly(s, a, trusted);
    case UpdaterExited => QuietStaysOrderly(s, a, trusted);
    case UpdaterCleaned(_) => QuietStaysOrderly(s, a, trusted);
    case Restart(_) => QuietStaysOrderly(s, a, trusted);
    case BeginCheck => BeginStaysOrderly(s, a, trusted);
    case BeginDownload => BeginStaysOrderly(s, a, trusted);
    case BeginInstall => BeginStaysOrderly(s, a, trusted);
  }

  lemma StepIsCoherentExactly(s: State, a: Action, trusted: Release -> bool)
    requires Solo(s) && Orderly(s) && Enabled(s, a)
    ensures Coherent(Next(s, a, trusted)) <==> RewriteFits(s, a)
    ensures RewriteFits(s, a) ==> Orderly(Next(s, a, trusted))
  {
    if a.Rewrite? {
      RewriteIsCoherentExactly(s, a.w);
    }
    if RewriteFits(s, a) {
      StepStaysOrderly(s, a, trusted);
    }
    hide Solo, Coherent, AllFit, NamesUsed, Enabled, DoRewrite;
  }

  /** Every write of the fallback on the way finds its artifact in the pending release. */
  ghost predicate FittingRun(s: State, actions: seq<Action>, trusted: Release -> bool)
    requires SoloRun(s, actions, trusted)
    decreases |actions|
  {
    actions != [] ==> RewriteFits(s, actions[0]) && FittingRun(Next(s, actions[0], trusted), actions[1..], trusted)
  }

  ghost predicate CoherentThroughout(s: State, actions: seq<Action>, trusted: Release -> bool)
    requires SoloRun(s, actions, trusted)
    decreases |actions|
  {
    Coherent(s) && (actions != [] ==> CoherentThroughout(Next(s, actions[0], trusted), actions[1..], trusted))
  }

  lemma {:induction false} CoherentFrom(s: State, actions: seq<Action>, trusted: Release -> bool)
    requires Solo(s) && Orderly(s) && SoloRun(s, actions, trusted)
    ensures CoherentThroughout(s, actions, trusted) <==> FittingRun(s, actions, trusted)
    decreases |actions|
  {
    hide Solo, Coherent, AllFit, NamesUsed, Next, Enabled, AtMostOne, RewriteFits;
    if actions != [] {
      StepIsCoherentExactly(s, actions[0], trusted);
      StepStaysSolo(s, actions[0], trusted);
      if RewriteFits(s, actions[0]) {
        CoherentFrom(Next(s, actions[0], trusted), actions[1..], trusted);
      } else if actions[1..] == [] {
        assert !CoherentThroughout(Next(s, actions[0], trusted), actions[1..], trusted);
      }
    }
  }

  lemma InitialIsOrderly()
    ensures Solo(INITIAL) && Orderly(INITIAL)
  {
  }

  /**
   * In every run from the start with one transfer at a time: a staged file is the selected artifact,
   * and that artifact belongs to the pending release, throughout, if and only if every write of the
   * fallback finds its artifact in the pending release.
   */
  lemma RunsAreCoherentExactly(actions: seq<Action>, trusted: Release -> bool)
    requires SoloRun(INITIAL, actions, trusted)
    ensures CoherentThroughout(INITIAL, actions, trusted) <==> FittingRun(INITIAL, actions, trusted)
  {
    InitialIsOrderly();
    CoherentFrom(INITIAL, actions, trusted);
  }

  // ---------------------------------------------------------------- no check during the fallback

  predicate IsFallback(pc: InstallPc) { pc.Refetching? || pc.Refetched? || pc.Rewriting? }

  /** Somebody is between a failed delta assembly and the write of its replacement. */
  predicate InFallback(s: State) { exists w :: w in s.workers && s.workers[w].Install? && IsFallback(s.workers[w].ipc) }

  predicate NoCheckInFallback(s: State, a: Action) { a.FinishCheck? ==> !InFallback(s) }

  /** Whoever is in the fallback finds its own release pending. */
  predicate FallbackFits(s: State, v: Worker) { v.Install? && IsFallback(v.ipc) ==> s.pending == Some(v.rel) }

  ghost predicate FallbacksFit(s: State) { forall w :: w in s.workers ==> FallbackFits(s, s.workers[w]) }

  lemma DownloadKeepsFallback(s: State, a: Action, trusted: Release -> bool)
    requires Enabled(s, a) && (a.Fetch? || a.AfterFetch? || a.Hash? || a.AfterHash?)
    ensures var t := Next(s, a, trusted);
            t.pending == s.pending && (a.w in t.workers ==> !t.workers[a.w].Install?)
  {
    hide Moved, DoFinishCheck, DoCancel, DoRestart, DoBeginCheck, DoBeginDownload, DoBeginInstall, DoDismiss,
         DoUpdaterExited, DoUnpack, DoPlace, DoRefetch, DoRehash, DoRewrite, DoDecide;
  }

  lemma AssemblyKeepsFallback(s: State, a: Action, trusted: Release -> bool)
    requires Enabled(s, a) && (a.Unpack? || a.Place?)
    requires !s.workers[a.w].cancelled ==> s.pending == Some(s.workers[a.w].rel)
    ensures var t := Next(s, a, trusted);
            t.pending == s.pending && (a.w in t.workers ==> FallbackFits(t, t.workers[a.w]))
  {
    hide FirstFull, Moved, DoFinishCheck, DoCancel, DoRestart, DoBeginCheck, DoBeginDownload, DoBeginInstall, DoDismiss,
         DoUpdaterExited, DoFetch, DoAfterFetch, DoHash, DoAfterHash, DoRefetch, DoRehash, DoRewrite, DoDecide;
  }

  lemma RefetchKeepsFallback(s: State, a: Action, trusted: Release -> bool)
    requires Enabled(s, a) && (a.Refetch? || a.Rehash? || a.Rewrite?) && FallbackFits(s, s.workers[a.w])
    ensures var t := Next(s, a, trusted);
            t.pending == s.pending && (a.w in t.workers ==> FallbackFits(t, t.workers[a.w]))
  {
    hide Moved, DoFinishCheck, DoCancel, DoRestart, DoBeginCheck, DoBeginDownload, DoBeginInstall, DoDismiss,
         DoUpdaterExited, DoFetch, DoAfterFetch, DoHash, DoAfterHash, DoUnpack, DoPlace, DoDecide;
  }

  lemma ActorKeepsFallback(s: State, a: Action, trusted: Release -> bool)
    requires Enabled(s, a) && Actor(a).Some? && Fits(s, s.workers[Actor(a).value])
    requires FallbackFits(s, s.workers[Actor(a).value])
    ensures var t := Next(s, a, trusted); var w := Actor(a).value;
            t.pending == s.pending && (w in t.workers ==> FallbackFits(t, t.workers[w]))
  {
    if a.Decide? {
      DecideKeepsSelection(s, a.w, a.spawnOk);
      hide DoDecide, OwnFile, FileMatches, IsFallback;
    } else {
      hide Next, OwnFile, FileMatches, IsFallback;
      if a.Fetch? || a.AfterFetch? || a.Hash? || a.AfterHash? {
        DownloadKeepsFallback(s, a, trusted);
      } else if a.Unpack? || a.Place? {
        AssemblyKeepsFallback(s, a, trusted);
      } else {
        RefetchKeepsFallback(s, a, trusted);
      }
    }
  }

  lemma OutsideKeepsFallback(s: State, a: Action, trusted: Release -> bool, w: nat)
    requires Enabled(s, a) && Actor(a).None? && NoCheckInFallback(s, a) && w in Next(s, a, trusted).workers
    requires w in s.workers ==> FallbackFits(s, s.workers[w]) && w < s.nextWorker
    ensures FallbackFits(Next(s, a, trusted), Next(s, a, trusted).workers[w])
  {
    hide Moved, DropStaged, DoFinishCheck;
    if a.FinishCheck? {
      FinishCheckIsQuiet(s, a.w, a.outcome, trusted);
    }
  }

  lemma StepKeepsFallbacks(s: State, a: Action, trusted: Release -> bool)
    requires Solo(s) && Orderly(s) && FallbacksFit(s) && Enabled(s, a) && NoCheckInFallback(s, a)
    ensures FallbacksFit(Next(s, a, trusted)) && RewriteFits(s, a)
  {
    var t := Next(s, a, trusted);
    if Actor(a).Some? {
      var x := Actor(a).value;
      ActorExists(s, a);
      OthersAreChecks(s.workers, x);
      WorkerKnows(s, x);
      assert FallbackFits(s, s.workers[x]);
      FallbackIsListed(s, a);
      ActorMoves(s, a, trusted);
      ActorKeepsFallback(s, a, trusted);
      hide Next, Enabled, InStep, FallbackFits, AtMostOne, Orderly, RewriteFits, Fits;
      forall w | w in t.workers ensures FallbackFits(t, t.workers[w]) {
        if w != x {
          CheckIsNoFallback(t);
        }
      }
    } else {
      forall w | w in t.workers ensures FallbackFits(t, t.workers[w]) {
        OutsideKeepsFallback(s, a, trusted, w);
      }
    }
  }

  lemma FallbackIsListed(s: State, a: Action)
    requires Enabled(s, a) && Actor(a).Some?
    requires Fits(s, s.workers[Actor(a).value]) && FallbackFits(s, s.workers[Actor(a).value])
    ensures RewriteFits(s, a)
  {
    hide OwnFile, FileMatches;
  }

  lemma CheckIsNoFallback(t: State)
    ensures FallbackFits(t, Check)
  {
  }

  /** A run in which no check completes while somebody is in the fallback. */
  ghost predicate CalmRun(s: State, actions: seq<Action>, trusted: Release -> bool)
    requires SoloRun(s, actions, trusted)
    decreases |actions|
  {
    actions != [] ==> NoCheckInFallback(s, actions[0]) && CalmRun(Next(s, actions[0], trusted), actions[1..], trusted)
  }

  lemma {:induction false} CalmRunFits(s: State, actions: seq<Action>, trusted: Release -> bool)
    requires Solo(s) && Orderly(s) && FallbacksFit(s) && SoloRun(s, actions, trusted) && CalmRun(s, actions, trusted)
    ensures FittingRun(s, actions, trusted)
    decreases |actions|
  {
    hide Solo, Orderly, Next, Enabled, AtMostOne, NoCheckInFallback, FallbacksFit, RewriteFits;
    if actions != [] {
      StepKeepsFallbacks(s, actions[0], trusted);
      StepStaysOrderly(s, actions[0], trusted);
      StepStaysSolo(s, actions[0], trusted);
      CalmRunFits(Next(s, actions[0], trusted), actions[1..], trusted);
    }
  }

  /** In particular a run stays coherent in which no check completes while somebody is in the fallback. */
  lemma CalmRunsStayCoherent(actions: seq<Action>, trusted: Release -> bool)
    requires SoloRun(INITIAL, actions, trusted) && CalmRun(INITIAL, actions, trusted)
    ensures CoherentThroughout(INITIAL, actions, trusted)
  {
    InitialIsOrderly();
    assert FallbacksFit(INITIAL);
    CalmRunFits(INITIAL, actions, trusted);
    RunsAreCoherentExactly(actions, trusted);
  }
}
