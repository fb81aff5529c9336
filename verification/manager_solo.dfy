/** The update manager with at most one Download or Install in flight: cancelling, and what `staged` means. */
module SoloManager {
  import opened Text
  import opened UpdateManager

  // ---------------------------------------------------------------- one worker at a time

  predicate AtMostOne(ws: map<nat, Worker>) {
    forall x, y :: x in ws && y in ws && !ws[x].Check? && !ws[y].Check? ==> x == y
  }

  /** The phase a download is in while nothing has cancelled it. */
  function DownloadPhase(pc: DownloadPc): Phase {
    match pc
    case Fetching => Downloading
    case Landed(_) => Downloading
    case Hashing(_) => Verifying
    case Hashed(_, _) => Verifying
  }

  /** A worker and the phase agree: its own phase until a Cancel hits it, none of its phases afterwards. */
  predicate InStep(s: State, w: nat, v: Worker) {
    match v
    case Check => true
    case Download(pc, _, _, aborted) =>
      if aborted then s.phase != Downloading && s.phase != Verifying else s.phase == DownloadPhase(pc)
    case Install(_, _, _, cancelled, aborted) =>
      if aborted then cancelled && s.phase != Staging else s.phase == Staging && s.canceller == Some(w)
  }

  ghost predicate Solo(s: State) {
    && AtMostOne(s.workers)
    && (forall w :: w in s.workers ==> w < s.nextWorker)
    && (forall w :: w in s.workers ==> InStep(s, w, s.workers[w]))
  }

  /** The worker an action belongs to. */
  function Actor(a: Action): Option<nat> {
    match a
    case Fetch(w, _) => Some(w)
    case AfterFetch(w, _) => Some(w)
    case Hash(w) => Some(w)
    case AfterHash(w) => Some(w)
    case Unpack(w, _) => Some(w)
    case Place(w, _) => Some(w)
    case Refetch(w, _) => Some(w)
    case Rehash(w) => Some(w)
    case Rewrite(w) => Some(w)
    case Decide(w, _) => Some(w)
    case _ => None
  }

  /** With one worker, its own actions find every other worker to be a check. */
  lemma OthersAreChecks(ws: map<nat, Worker>, w: nat)
    requires AtMostOne(ws) && w in ws && !ws[w].Check?
    ensures forall x :: x in ws && x != w ==> ws[x].Check?
  {
  }

  lemma SoloActor(s: State, t: State, w: nat, y: Worker)
    requires Solo(s) && w in s.workers && !s.workers[w].Check? && t.nextWorker == s.nextWorker
    requires t.workers == s.workers - {w} || (t.workers == s.workers[w := y] && InStep(t, w, y))
    ensures Solo(t)
  {
    OthersAreChecks(s.workers, w);
    hide InStep;
    forall x | x in t.workers && x != w ensures InStep(t, x, t.workers[x]) { CheckInStep(t, x); }
  }

  lemma CheckInStep(t: State, x: nat)
    ensures InStep(t, x, Check)
  {
  }

  /** How an action of worker `w` moves it: on within its task, or to its end. */
  predicate Moves(s: State, t: State, w: nat) {
    && w in s.workers && !s.workers[w].Check? && t.nextWorker == s.nextWorker
    && (t.workers == s.workers - {w} || (w in t.workers && t.workers == s.workers[w := t.workers[w]]))
    && (w in t.workers ==>
          && t.workers[w].Install? == s.workers[w].Install? && !t.workers[w].Check?
          && t.workers[w].aborted == s.workers[w].aborted && t.workers[w].cancelled == s.workers[w].cancelled
          && (t.workers[w].Install? ==> t.workers[w].ver == s.workers[w].ver)
          && InStep(t, w, t.workers[w]))
  }

  lemma DownloadMoves(s: State, a: Action, trusted: Release -> bool)
    requires Enabled(s, a) && Actor(a).Some? && InStep(s, Actor(a).value, s.workers[Actor(a).value])
    requires a.Fetch? || a.AfterFetch? || a.Hash? || a.AfterHash?
    ensures Moves(s, Next(s, a, trusted), Actor(a).value)
  {
  }

  lemma AssemblyMoves(s: State, a: Action, trusted: Release -> bool)
    requires Enabled(s, a) && Actor(a).Some? && InStep(s, Actor(a).value, s.workers[Actor(a).value])
    requires a.Unpack? || a.Place? || a.Decide?
    ensures Moves(s, Next(s, a, trusted), Actor(a).value)
  {
    hide AfterFailure, FirstFull;
  }

  lemma FallbackMoves(s: State, a: Action, trusted: Release -> bool)
    requires Enabled(s, a) && Actor(a).Some? && InStep(s, Actor(a).value, s.workers[Actor(a).value])
    requires a.Refetch? || a.Rehash? || a.Rewrite?
    ensures Moves(s, Next(s, a, trusted), Actor(a).value)
  {
  }

  lemma ActorMoves(s: State, a: Action, trusted: Release -> bool)
    requires Enabled(s, a) && Actor(a).Some? && InStep(s, Actor(a).value, s.workers[Actor(a).value])
    ensures Moves(s, Next(s, a, trusted), Actor(a).value)
  {
    hide Enabled, Next, InStep, Moves;
    if a.Fetch? || a.AfterFetch? || a.Hash? || a.AfterHash? {
      DownloadMoves(s, a, trusted);
    } else if a.Unpack? || a.Place? || a.Decide? {
      AssemblyMoves(s, a, trusted);
    } else {
      FallbackMoves(s, a, trusted);
    }
  }

  lemma ActorExists(s: State, a: Action)
    requires Enabled(s, a) && Actor(a).Some?
    ensures Actor(a).value in s.workers && !s.workers[Actor(a).value].Check?
  {
  }

  lemma ActorStaysSolo(s: State, a: Action, trusted: Release -> bool)
    requires Solo(s) && Enabled(s, a) && Actor(a).Some?
    ensures Solo(Next(s, a, trusted))
  {
    hide Enabled, Next, InStep, AtMostOne, Actor;
    var w, t := Actor(a).value, Next(s, a, trusted);
    ActorExists(s, a);
    ActorMoves(s, a, trusted);
    SoloActor(s, t, w, if w in t.workers then t.workers[w] else Check);
  }

  /** Actions from outside: a check, a begin, a cancel, a restart. */
  lemma OutsideStaysSolo(s: State, a: Action, trusted: Release -> bool)
    requires Solo(s) && Enabled(s, a) && Actor(a).None?
    requires AtMostOne(Next(s, a, trusted).workers)
    ensures Solo(Next(s, a, trusted))
  {
    var t := Next(s, a, trusted);
    forall w | w in t.workers ensures w < t.nextWorker && InStep(t, w, t.workers[w]) {
      if w in s.workers {
        OutsideInStep(s, a, trusted, w);
      } else {
        NewInStep(s, a, trusted, w);
      }
    }
  }

  lemma CancelInStep(s: State, w: nat)
    requires w in s.workers && InStep(s, w, s.workers[w])
    ensures InStep(DoCancel(s), w, DoCancel(s).workers[w])
  {
  }

  /** A second transfer cannot begin beside a first. */
  lemma BeginInStep(s: State, t: State, w: nat)
    requires t == DoBeginDownload(s) || t == DoBeginInstall(s)
    requires w in s.workers && w < s.nextWorker && InStep(s, w, s.workers[w]) && AtMostOne(t.workers)
    ensures w in t.workers && InStep(t, w, t.workers[w])
  {
    if t != s {
      assert s.nextWorker in t.workers && !t.workers[s.nextWorker].Check?;
      assert t.workers[w] == s.workers[w] && s.workers[w].Check?;
    }
  }

  lemma CheckingInStep(s: State, w: nat, other: nat, o: Outcome, trusted: Release -> bool)
    requires w in s.workers && w < s.nextWorker && InStep(s, w, s.workers[w])
    ensures w in DoBeginCheck(s).workers && InStep(DoBeginCheck(s), w, DoBeginCheck(s).workers[w])
    ensures var t := DoFinishCheck(s, other, o, trusted); w in t.workers ==> InStep(t, w, t.workers[w])
  {
  }

  lemma OutsideInStep(s: State, a: Action, trusted: Release -> bool, w: nat)
    requires Solo(s) && Enabled(s, a) && Actor(a).None? && w in s.workers && w in Next(s, a, trusted).workers
    requires AtMostOne(Next(s, a, trusted).workers)
    ensures InStep(Next(s, a, trusted), w, Next(s, a, trusted).workers[w])
  {
    hide DoCancel, DoBeginDownload, DoBeginInstall, DoBeginCheck, DoFinishCheck, AtMostOne;
    assert InStep(s, w, s.workers[w]) && w < s.nextWorker;
    match a
    case Cancel => CancelInStep(s, w);
    case BeginDownload => BeginInStep(s, Next(s, a, trusted), w);
    case BeginInstall => BeginInStep(s, Next(s, a, trusted), w);
    case BeginCheck => CheckingInStep(s, w, w, Nothing, trusted);
    case FinishCheck(x, o) => CheckingInStep(s, w, x, o, trusted);
    case _ =>
  }

  lemma NewInStep(s: State, a: Action, trusted: Release -> bool, w: nat)
    requires Enabled(s, a) && Actor(a).None? && w !in s.workers && w in Next(s, a, trusted).workers
    ensures w < Next(s, a, trusted).nextWorker && InStep(Next(s, a, trusted), w, Next(s, a, trusted).workers[w])
  {
  }

  lemma StepStaysSolo(s: State, a: Action, trusted: Release -> bool)
    requires Solo(s) && Enabled(s, a) && AtMostOne(Next(s, a, trusted).workers)
    ensures Solo(Next(s, a, trusted))
  {
    if Actor(a).Some? {
      ActorStaysSolo(s, a, trusted);
    } else {
      OutsideStaysSolo(s, a, trusted);
    }
  }

  // ---------------------------------------------------------------- the tree of an install

  /** A tree under the install's version is either found by its next unpacking or the one it will hand off. */
  predicate TreeFits(s: State, v: Worker) {
    v.Install? ==>
      && (v.ver in s.stageRoot ==> v.ipc.Assembling? || v.ipc == Deciding(Some(v.ver)))
      && (v.ipc.Deciding? && v.ipc.dir.Some? ==> v.ipc.dir.value == v.ver)
  }

  ghost predicate TreesFit(s: State) { forall w :: w in s.workers ==> TreeFits(s, s.workers[w]) }

  lemma ActorKeepsTree(s: State, a: Action, trusted: Release -> bool)
    requires Enabled(s, a) && Actor(a).Some? && TreeFits(s, s.workers[Actor(a).value])
    ensures var t := Next(s, a, trusted); var w := Actor(a).value;
            w in t.workers ==> TreeFits(t, t.workers[w])
  {
    hide FirstFull, Moved, DoFinishCheck, DoCancel, DoRestart, DoBeginCheck, DoBeginDownload, DoBeginInstall, DoDismiss,
         DoUpdaterExited, DoFetch, DoHash;
    if a.Fetch? || a.Hash? {
      assert s.workers[Actor(a).value].Download?;
      DownloadHasNoTree(s, a, trusted);
    }
  }

  lemma DownloadHasNoTree(s: State, a: Action, trusted: Release -> bool)
    requires Enabled(s, a) && (a.Fetch? || a.Hash?)
    ensures a.w in Next(s, a, trusted).workers && Next(s, a, trusted).workers[a.w].Download?
  {
    hide DoFinishCheck, DoCancel, DoRestart;
  }

  lemma OutsideKeepsTree(s: State, a: Action, trusted: Release -> bool, w: nat)
    requires Enabled(s, a) && Actor(a).None? && w in Next(s, a, trusted).workers
    requires w in s.workers ==> TreeFits(s, s.workers[w])
    requires w in s.workers ==> w < s.nextWorker
    ensures TreeFits(Next(s, a, trusted), Next(s, a, trusted).workers[w])
  {
    hide Moved, DropStaged, DoFinishCheck, DoFetch, DoAfterFetch, DoHash, DoAfterHash, DoUnpack, DoPlace, DoRefetch,
         DoRehash, DoRewrite, DoDecide;
    if a.FinishCheck? {
      FinishCheckIsQuiet(s, a.w, a.outcome, trusted);
    }
  }

  lemma StepKeepsTrees(s: State, a: Action, trusted: Release -> bool)
    requires Solo(s) && TreesFit(s) && Enabled(s, a) && AtMostOne(Next(s, a, trusted).workers)
    ensures TreesFit(Next(s, a, trusted))
  {
    var t := Next(s, a, trusted);
    if Actor(a).Some? {
      var x := Actor(a).value;
      ActorExists(s, a);
      OthersAreChecks(s.workers, x);
      assert InStep(s, x, s.workers[x]);
      ActorMoves(s, a, trusted);
      ActorKeepsTree(s, a, trusted);
      hide Next, Enabled, InStep, TreeFits, AtMostOne;
      forall w | w in t.workers ensures TreeFits(t, t.workers[w]) {
        if w != x {
          CheckHasNoTree(t);
        }
      }
    } else {
      forall w | w in t.workers ensures TreeFits(t, t.workers[w]) {
        OutsideKeepsTree(s, a, trusted, w);
      }
    }
  }

  lemma CheckHasNoTree(t: State)
    ensures TreeFits(t, Check)
  {
  }

  // ---------------------------------------------------------------- a cancelled install or download

  /** A run in which at most one Download or Install is ever in flight. */
  ghost predicate SoloRun(s: State, actions: seq<Action>, trusted: Release -> bool)
    decreases |actions|
  {
    actions != [] ==>
      && Enabled(s, actions[0]) && AtMostOne(Next(s, actions[0], trusted).workers)
      && SoloRun(Next(s, actions[0], trusted), actions[1..], trusted)
  }

  ghost function After(s: State, actions: seq<Action>, trusted: Release -> bool): State
    requires SoloRun(s, actions, trusted)
    decreases |actions|
  {
    if actions == [] then s else After(Next(s, actions[0], trusted), actions[1..], trusted)
  }

  /** Worker `w` is still at work before each of the actions. */
  ghost predicate AliveThroughout(s: State, actions: seq<Action>, trusted: Release -> bool, w: nat)
    requires SoloRun(s, actions, trusted)
    decreases |actions|
  {
    actions != [] ==> w in s.workers && AliveThroughout(Next(s, actions[0], trusted), actions[1..], trusted, w)
  }

  lemma InitialIsSolo()
    ensures Solo(INITIAL) && TreesFit(INITIAL)
  {
  }

  lemma {:induction false} RunStaysSolo(s: State, actions: seq<Action>, trusted: Release -> bool)
    requires Solo(s) && TreesFit(s) && SoloRun(s, actions, trusted)
    ensures Solo(After(s, actions, trusted)) && TreesFit(After(s, actions, trusted))
    decreases |actions|
  {
    hide Solo, Next, Enabled, AtMostOne, TreesFit;
    if actions != [] {
      StepStaysSolo(s, actions[0], trusted);
      StepKeepsTrees(s, actions[0], trusted);
      RunStaysSolo(Next(s, actions[0], trusted), actions[1..], trusted);
    }
  }

  /** A Cancel while a download or install is in its own phases marks it and leaves those phases. */
  lemma CancelAborts(s: State, w: nat)
    requires Solo(s) && w in s.workers && !s.workers[w].Check? && !s.workers[w].aborted
    ensures var t := DoCancel(s);
            && t.phase == Cancelled && w in t.workers && t.workers[w].aborted
            && t.workers[w].Install? == s.workers[w].Install?
            && t.spawned == s.spawned && t.contract == s.contract && t.staged == s.staged
  {
    assert InStep(s, w, s.workers[w]);
  }

  /** The same download or install, further on. */
  predicate SameTask(x: Worker, y: Worker) { x.Install? == y.Install? && (x.Install? && y.Install? ==> x.ver == y.ver) }

  predicate IsAborted(s: State, w: nat) { w in s.workers && !s.workers[w].Check? && s.workers[w].aborted }

  /** The marked worker's last section: it leaves neither its tree nor a staged file nor its download behind. */
  lemma AbortedWorkerBacksOut(s: State, a: Action, trusted: Release -> bool)
    requires Solo(s) && Enabled(s, a) && Actor(a).Some? && IsAborted(s, Actor(a).value)
    ensures var w := Actor(a).value; var x := s.workers[w]; var t := Next(s, a, trusted);
            && t.spawned == s.spawned && t.contract == s.contract
            && (a.Decide? ==> t.staged == None && t.phase == s.phase
                              && (s.staged.Some? ==> s.staged.value !in t.disk.files)
                              && (x.ipc.dir.Some? ==> x.ipc.dir.value !in t.stageRoot))
            && (a.AfterFetch? ==> w !in t.workers && t.staged == s.staged
                                  && (x.dpc.path.Some? ==> x.dpc.path.value !in t.disk.files))
            && (a.AfterHash? ==> t.staged == s.staged && x.dpc.hashed !in t.disk.files)
  {
    assert InStep(s, Actor(a).value, s.workers[Actor(a).value]);
    hide FirstFull, AfterFailure, Moved;
  }

  /** While a marked worker is about, nothing is handed off and nothing new is staged by a download. */
  lemma StepBesideAborted(s: State, a: Action, trusted: Release -> bool, w: nat)
    requires Solo(s) && Enabled(s, a) && AtMostOne(Next(s, a, trusted).workers) && IsAborted(s, w)
    ensures var t := Next(s, a, trusted);
            && t.spawned == s.spawned && (t.contract == s.contract || t.contract == None)
            && (s.workers[w].Download? ==> t.staged == s.staged || t.staged == None)
            && (w in t.workers ==> IsAborted(t, w) && SameTask(s.workers[w], t.workers[w]))
            && (w !in t.workers && !a.Restart? ==> Actor(a) == Some(w))
            && (w !in t.workers && a.Decide? ==> t.staged == None)
  {
    OthersAreChecks(s.workers, w);
    if Actor(a).Some? {
      ActorExists(s, a);
      assert Actor(a) == Some(w);
      assert InStep(s, w, s.workers[w]);
      AbortedWorkerBacksOut(s, a, trusted);
      ActorMoves(s, a, trusted);
      if a.Fetch? || a.AfterFetch? || a.Hash? {
        DownloadStages(s, a, trusted);
      }
      hide Next, Enabled, InStep;
    } else {
      OutsideBesideAborted(s, a, trusted, w);
    }
  }

  /** Only the section after a successful hash makes a download's file the staged one. */
  lemma DownloadStages(s: State, a: Action, trusted: Release -> bool)
    requires Enabled(s, a) && (a.Fetch? || a.AfterFetch? || a.Hash?)
    ensures Next(s, a, trusted).staged == s.staged
  {
    hide Moved;
  }

  lemma OutsideBesideAborted(s: State, a: Action, trusted: Release -> bool, w: nat)
    requires Enabled(s, a) && Actor(a).None? && IsAborted(s, w) && w < s.nextWorker
    ensures var t := Next(s, a, trusted);
            && t.spawned == s.spawned && (t.contract == s.contract || t.contract == None)
            && (t.staged == s.staged || t.staged == None)
            && (w in t.workers ==> IsAborted(t, w) && SameTask(s.workers[w], t.workers[w]))
            && (w !in t.workers ==> a.Restart?)
  {
    hide Moved, DoFinishCheck, DoCancel;
    if a.FinishCheck? {
      FinishCheckIsQuiet(s, a.w, a.outcome, trusted);
    } else if a.Cancel? {
      CancelIsQuiet(s, w);
    }
  }

  lemma FinishCheckIsQuiet(s: State, x: nat, o: Outcome, trusted: Release -> bool)
    ensures var t := DoFinishCheck(s, x, o, trusted);
            && t.spawned == s.spawned && t.contract == s.contract && (t.staged == s.staged || t.staged == None)
            && t.workers == s.workers - {x} && t.stageRoot == s.stageRoot && t.nextWorker == s.nextWorker
            && forall f :: f in t.disk.files ==> f in s.disk.files
  {
    hide Moved;
  }

  lemma CancelIsQuiet(s: State, w: nat)
    requires IsAborted(s, w)
    ensures var t := DoCancel(s);
            && t.spawned == s.spawned && (t.contract == s.contract || t.contract == None) && t.staged == s.staged
            && IsAborted(t, w) && SameTask(s.workers[w], t.workers[w])
  {
    hide Moved;
  }

  lemma {:induction false} CancelledInstallFrom(s: State, actions: seq<Action>, trusted: Release -> bool, w: nat)
    requires Solo(s) && TreesFit(s) && SoloRun(s, actions, trusted) && AliveThroughout(s, actions, trusted, w)
    requires IsAborted(s, w) && s.workers[w].Install?
    ensures var t := After(s, actions, trusted);
            && t.spawned == s.spawned && (t.contract == s.contract || t.contract == None)
            && (w in t.workers ==> IsAborted(t, w) && t.workers[w].Install?)
            && (w !in t.workers && actions[|actions| - 1].Decide? ==>
                  t.staged == None && s.workers[w].ver !in t.stageRoot)
    decreases |actions|
  {
    hide Solo, Next, Enabled, AtMostOne, TreesFit;
    if actions != [] {
      var t := Next(s, actions[0], trusted);
      StepBesideAborted(s, actions[0], trusted, w);
      StepStaysSolo(s, actions[0], trusted);
      StepKeepsTrees(s, actions[0], trusted);
      if |actions| > 1 {
        assert w in t.workers;
        CancelledInstallFrom(t, actions[1..], trusted, w);
        assert actions[1..][|actions| - 2] == actions[|actions| - 1];
      } else {
        assert After(s, actions, trusted) == t;
        if w !in t.workers && actions[0].Decide? {
          LastSectionDropsTree(s, actions[0], trusted);
        }
      }
    }
  }

  lemma LastSectionDropsTree(s: State, a: Action, trusted: Release -> bool)
    requires Solo(s) && TreesFit(s) && Enabled(s, a) && a.Decide? && IsAborted(s, a.w)
    ensures s.workers[a.w].ver !in Next(s, a, trusted).stageRoot
  {
    assert InStep(s, a.w, s.workers[a.w]) && TreeFits(s, s.workers[a.w]);
    hide Moved, DropStaged;
  }

  /**
   * In every run from the start, from a Cancel during staging until that install is gone, whatever
   * else runs: nothing is spawned, pending.json is not written, and the install leaves with its tree
   * removed and nothing staged (unless the daemon dies).
   */
  lemma CancelledInstallNeverHandsOff(before: seq<Action>, actions: seq<Action>, trusted: Release -> bool, w: nat)
    requires SoloRun(INITIAL, before, trusted)
    requires var s := After(INITIAL, before, trusted);
             && SoloRun(s, actions, trusted) && AliveThroughout(s, actions, trusted, w)
             && IsAborted(s, w) && s.workers[w].Install?
    ensures var s := After(INITIAL, before, trusted); var t := After(s, actions, trusted);
            && t.spawned == s.spawned && (t.contract == s.contract || t.contract == None)
            && (w !in t.workers && actions[|actions| - 1].Decide? ==>
                  t.staged == None && s.workers[w].ver !in t.stageRoot)
  {
    InitialIsSolo();
    RunStaysSolo(INITIAL, before, trusted);
    hide Solo, TreesFit, SoloRun, After, AliveThroughout;
    CancelledInstallFrom(After(INITIAL, before, trusted), actions, trusted, w);
  }

  // ---------------------------------------------------------------- a cancelled download

  /** The file a download has brought and not yet given away. */
  function Own(v: Worker): Option<nat> {
    match v
    case Download(Landed(path), _, _, _) => path
    case Download(Hashing(f), _, _, _) => Some(f)
    case Download(Hashed(f, _), _, _, _) => Some(f)
    case _ => None
  }

  /** Every file of the later disk was there before, other than as the download's own, or is its own now. */
  ghost predicate OnlyOwn(s: State, t: State, w: nat)
    requires w in s.workers
  {
    forall f :: f in t.disk.files ==>
      (f in s.disk.files && Own(s.workers[w]) != Some(f)) || (w in t.workers && Own(t.workers[w]) == Some(f))
  }

  lemma OnlyOwnJoins(s: State, t: State, u: State, w: nat)
    requires w in s.workers && w in t.workers && OnlyOwn(s, t, w) && OnlyOwn(t, u, w)
    ensures OnlyOwn(s, u, w)
  {
  }

  lemma ActorLeavesOnlyOwn(s: State, a: Action, trusted: Release -> bool, w: nat)
    requires Enabled(s, a) && IsAborted(s, w) && s.workers[w].Download? && Actor(a) == Some(w) && InStep(s, w, s.workers[w])
    ensures OnlyOwn(s, Next(s, a, trusted), w)
  {
    hide Moved, DoFinishCheck, DoUnpack, DoPlace, DoRefetch, DoRehash, DoRewrite, DoDecide, DoCancel, DoRestart,
         DoBeginCheck, DoBeginDownload, DoBeginInstall, DoDismiss, DoUpdaterExited;
  }

  /** What comes from outside brings no file and leaves the download as it is. */
  lemma OutsideBringsNothing(s: State, a: Action, trusted: Release -> bool, w: nat)
    requires Enabled(s, a) && Actor(a).None? && w in s.workers && w < s.nextWorker && s.workers[w].Download? && !a.Restart?
    ensures var t := Next(s, a, trusted);
            && (forall f :: f in t.disk.files ==> f in s.disk.files)
            && (a.FinishCheck? || t.staged == s.staged)
            && w in t.workers && Own(t.workers[w]) == Own(s.workers[w]) && t.workers[w].Download?
            && (!a.Cancel? ==> t.workers[w].aborted == s.workers[w].aborted)
            && (a.Cancel? ==> t.workers[w].aborted == (s.workers[w].aborted || InPhaseOf(s.phase, s.workers[w])))
  {
    hide Moved, DoFinishCheck;
    if a.FinishCheck? {
      FinishCheckIsQuiet(s, a.w, a.outcome, trusted);
      assert a.w != w;
    }
  }

  lemma StepLeavesOnlyOwn(s: State, a: Action, trusted: Release -> bool, w: nat)
    requires Solo(s) && Enabled(s, a) && IsAborted(s, w) && s.workers[w].Download? && !a.Restart?
    ensures OnlyOwn(s, Next(s, a, trusted), w)
  {
    OthersAreChecks(s.workers, w);
    assert InStep(s, w, s.workers[w]) && w < s.nextWorker;
    if Actor(a).Some? {
      ActorExists(s, a);
      ActorLeavesOnlyOwn(s, a, trusted, w);
    } else {
      OutsideBringsNothing(s, a, trusted, w);
      hide Next, Enabled, InStep, Own;
    }
  }

  lemma {:induction false} CancelledDownloadFrom(s: State, actions: seq<Action>, trusted: Release -> bool, w: nat)
    requires Solo(s) && SoloRun(s, actions, trusted) && AliveThroughout(s, actions, trusted, w)
    requires IsAborted(s, w) && s.workers[w].Download?
    ensures var t := After(s, actions, trusted);
            && (t.staged == s.staged || t.staged == None) && t.spawned == s.spawned
            && (actions != [] && !actions[|actions| - 1].Restart? ==> OnlyOwn(s, t, w))
    decreases |actions|
  {
    hide Solo, Next, Enabled, AtMostOne, OnlyOwn;
    if actions != [] {
      var t := Next(s, actions[0], trusted);
      StepBesideAborted(s, actions[0], trusted, w);
      StepStaysSolo(s, actions[0], trusted);
      if |actions| > 1 {
        assert w in t.workers;
        CancelledDownloadFrom(t, actions[1..], trusted, w);
        assert actions[1..][|actions| - 2] == actions[|actions| - 1];
        if !actions[|actions| - 1].Restart? {
          RestartEndsAll(s, actions[0], trusted, w);
          StepLeavesOnlyOwn(s, actions[0], trusted, w);
          OnlyOwnJoins(s, t, After(s, actions, trusted), w);
        }
      } else {
        assert After(s, actions, trusted) == t;
        if !actions[0].Restart? {
          StepLeavesOnlyOwn(s, actions[0], trusted, w);
        }
      }
    }
  }

  lemma RestartEndsAll(s: State, a: Action, trusted: Release -> bool, w: nat)
    requires Enabled(s, a) && w in Next(s, a, trusted).workers
    ensures !a.Restart?
  {
  }

  /**
   * In every run from the start, from a Cancel during a download until it is gone: nothing becomes
   * staged that was not staged before, and the download's file is gone with it (unless the daemon dies).
   */
  lemma CancelledDownloadStagesNothing(before: seq<Action>, actions: seq<Action>, trusted: Release -> bool, w: nat)
    requires SoloRun(INITIAL, before, trusted)
    requires var s := After(INITIAL, before, trusted);
             && SoloRun(s, actions, trusted) && AliveThroughout(s, actions, trusted, w)
             && IsAborted(s, w) && s.workers[w].Download?
    ensures var s := After(INITIAL, before, trusted); var t := After(s, actions, trusted);
            && (t.staged == s.staged || t.staged == None) && t.spawned == s.spawned
            && (w !in t.workers && !actions[|actions| - 1].Restart? ==>
                  forall f :: f in t.disk.files ==> f in s.disk.files && Own(s.workers[w]) != Some(f))
  {
    InitialIsSolo();
    RunStaysSolo(INITIAL, before, trusted);
    hide Solo, TreesFit, SoloRun, After, AliveThroughout;
    CancelledDownloadFrom(After(INITIAL, before, trusted), actions, trusted, w);
  }

  /** What drops a staged file while a download is about: a check that ends with an update, or the daemon's restart. */
  predicate Drops(s: State, a: Action, trusted: Release -> bool) {
    match a
    case Restart(_) => true
    case FinishCheck(_, Offer(rel, art)) =>
      s.phase == Checking && trusted(rel) && art.Some? && art.value in rel.artifacts
    case _ => false
  }

  /** One of the actions of a run drops what is staged. */
  ghost predicate DropsOnTheWay(s: State, actions: seq<Action>, trusted: Release -> bool)
    requires SoloRun(s, actions, trusted)
    decreases |actions|
  {
    actions != []
    && (Drops(s, actions[0], trusted) || DropsOnTheWay(Next(s, actions[0], trusted), actions[1..], trusted))
  }

  lemma ActorStages(s: State, a: Action, trusted: Release -> bool, w: nat)
    requires Enabled(s, a) && Actor(a) == Some(w) && s.workers[w].Download? && InStep(s, w, s.workers[w])
    requires s.workers[w].aborted || w in Next(s, a, trusted).workers
    ensures Next(s, a, trusted).staged == s.staged
    ensures w in Next(s, a, trusted).workers ==> Next(s, a, trusted).workers[w].aborted == s.workers[w].aborted
                                                 && Next(s, a, trusted).workers[w].Download?
  {
    hide Moved, DoFinishCheck, DoUnpack, DoPlace, DoRefetch, DoRehash, DoRewrite, DoDecide, DoCancel, DoRestart,
         DoBeginCheck, DoBeginDownload, DoBeginInstall, DoDismiss, DoUpdaterExited;
    if a.Fetch? || a.AfterFetch? {
      hide DoHash, DoAfterHash;
    } else {
      hide DoFetch, DoAfterFetch;
    }
  }

  lemma CheckDrops(s: State, a: Action, trusted: Release -> bool)
    requires Enabled(s, a) && a.FinishCheck?
    ensures Next(s, a, trusted).staged == if Drops(s, a, trusted) then None else s.staged
  {
    hide Moved, DoCancel, DoRestart, DoBeginCheck, DoBeginDownload, DoBeginInstall, DoDismiss, DoUpdaterExited, DoFetch,
         DoAfterFetch, DoHash, DoAfterHash, DoUnpack, DoPlace, DoRefetch, DoRehash, DoRewrite, DoDecide;
  }

  lemma RestartDrops(s: State, a: Action, trusted: Release -> bool)
    requires Enabled(s, a) && a.Restart?
    ensures Next(s, a, trusted).staged == None && Next(s, a, trusted).workers == map[] && Drops(s, a, trusted)
  {
  }

  /** Each step leaves staged what was, or drops it, and a Cancel marks the download. */
  lemma StepDrops(s: State, a: Action, trusted: Release -> bool, w: nat)
    requires Solo(s) && Enabled(s, a) && w in s.workers && s.workers[w].Download?
    requires s.workers[w].aborted || w in Next(s, a, trusted).workers
    ensures var t := Next(s, a, trusted);
            && t.staged == (if Drops(s, a, trusted) then None else s.staged)
            && (w in t.workers ==> t.workers[w].Download?
                                   && (t.workers[w].aborted <==> s.workers[w].aborted || a.Cancel?))
  {
    OthersAreChecks(s.workers, w);
    assert InStep(s, w, s.workers[w]) && w < s.nextWorker;
    if Actor(a).Some? {
      ActorExists(s, a);
      ActorStages(s, a, trusted, w);
    } else if a.Restart? {
      RestartDrops(s, a, trusted);
    } else {
      OutsideBringsNothing(s, a, trusted, w);
      if a.FinishCheck? {
        CheckDrops(s, a, trusted);
      }
      hide Next, Enabled, Own;
    }
  }

  lemma NothingDrops(s: State, actions: seq<Action>, trusted: Release -> bool)
    requires actions == []
    ensures SoloRun(s, actions, trusted) && After(s, actions, trusted) == s && !DropsOnTheWay(s, actions, trusted)
  {
  }

  lemma {:induction false} CancelDropsNothing(s: State, actions: seq<Action>, trusted: Release -> bool, w: nat)
    requires Solo(s) && SoloRun(s, actions, trusted) && AliveThroughout(s, actions, trusted, w)
    requires w in s.workers && s.workers[w].Download?
    requires s.workers[w].aborted || exists i :: 0 <= i < |actions| - 1 && actions[i].Cancel?
    ensures After(s, actions, trusted).staged == if DropsOnTheWay(s, actions, trusted) then None else s.staged
    decreases |actions|
  {
    hide Solo, Next, Enabled, AtMostOne, Drops;
    if actions != [] {
      var t := Next(s, actions[0], trusted);
      StepStaysSolo(s, actions[0], trusted);
      if |actions| > 1 {
        assert w in t.workers;
        StepDrops(s, actions[0], trusted, w);
        if !t.workers[w].aborted {
          var i :| 0 <= i < |actions| - 1 && actions[i].Cancel?;
          assert i > 0 && actions[1..][i - 1] == actions[i];
        }
        CancelDropsNothing(t, actions[1..], trusted, w);
      } else {
        StepDrops(s, actions[0], trusted, w);
        NothingDrops(t, actions[1..], trusted);
      }
    }
  }

  /**
   * The plain promise, that a Cancel during a download leaves nothing staged, holds exactly when nothing
   * was staged as the download went on, or a check that found an update or a restart came on the way:
   * what an earlier download staged stays otherwise.
   */
  lemma CancelledDownloadIsCleanExactly(before: seq<Action>, actions: seq<Action>, trusted: Release -> bool, w: nat)
    requires SoloRun(INITIAL, before, trusted)
    requires var s := After(INITIAL, before, trusted);
             && SoloRun(s, actions, trusted) && AliveThroughout(s, actions, trusted, w)
             && w in s.workers && s.workers[w].Download?
    requires exists i :: 0 <= i < |actions| - 1 && actions[i].Cancel?
    ensures var s := After(INITIAL, before, trusted);
            After(s, actions, trusted).staged == None <==> s.staged == None || DropsOnTheWay(s, actions, trusted)
  {
    InitialIsSolo();
    RunStaysSolo(INITIAL, before, trusted);
    hide Solo, TreesFit, SoloRun, After, AliveThroughout, DropsOnTheWay;
    CancelDropsNothing(After(INITIAL, before, trusted), actions, trusted, w);
  }
}
