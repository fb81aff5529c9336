/** How each section of the manager ends, phase by phase, without the table of transitions. */
module ManagerOutcomes {
  import opened Text
  import opened UpdateManager

  // ---------------------------------------------------------------- checks

  /** An offer the manager can act on. */
  predicate IsUsable(o: Outcome, trusted: Release -> bool) {
    o.Offer? && trusted(o.rel) && o.art.Some? && o.art.value in o.rel.artifacts
  }

  /**
   * A check that is still wanted: nothing new ends in NoUpdate; an error, an untrusted manifest or no artifact
   * in Failed; an offer is announced unless its version was dismissed, and selected either way, in place of
   * what was staged.
   */
  lemma CheckEndsExactly(s: State, w: nat, o: Outcome, trusted: Release -> bool)
    requires s.phase == Checking
    ensures var t := DoFinishCheck(s, w, o, trusted);
            && (t.phase == NoUpdate <==> o.Nothing? || (IsUsable(o, trusted) && o.rel.version == s.dismissed))
            && (t.phase == UpdateAvailable <==> IsUsable(o, trusted) && o.rel.version != s.dismissed)
            && (t.phase == Failed <==> !o.Nothing? && !IsUsable(o, trusted))
    ensures var t := DoFinishCheck(s, w, o, trusted);
            if IsUsable(o, trusted)
            then t.pending == Some(o.rel) && t.artifact == o.art && t.staged == None
                 && (s.staged.Some? ==> s.staged.value !in t.disk.files)
            else t.pending == s.pending && t.artifact == s.artifact && t.staged == s.staged && t.disk == s.disk
  {
  }

  /** The answer of a check that was cancelled, or overtaken by the daemon's other work, changes nothing. */
  lemma LateCheckIsIgnored(s: State, w: nat, o: Outcome, trusted: Release -> bool)
    requires s.phase != Checking
    ensures DoFinishCheck(s, w, o, trusted) == s.(workers := s.workers - {w})
  {
  }

  /** A check begins in the phases in which nothing is under way, and in no other. */
  lemma CheckBeginsExactly(s: State)
    ensures var busy := s.phase in {Checking, Downloading, Verifying, Staging, Installing, Restarting};
            if busy then DoBeginCheck(s) == s
            else DoBeginCheck(s).phase == Checking && DoBeginCheck(s).workers == s.workers[s.nextWorker := Check]
  {
  }

  // ---------------------------------------------------------------- downloads

  /** A download begins exactly when there is something to download. */
  lemma DownloadBeginsExactly(s: State)
    ensures var t := DoBeginDownload(s);
            if s.phase == UpdateAvailable && s.pending.Some? && s.artifact.Some?
            then t.phase == Downloading && t.canceller == Some(s.nextWorker)
                 && t.workers == s.workers[s.nextWorker := Download(Fetching, s.artifact.value, false, false)]
            else t == s
  {
  }

  /** A failed fetch ends in Failed, or in Cancelled when its context was ended; bytes that come go on to be verified. */
  lemma FetchEndsExactly(s: State, w: nat, d: Worker, ctxDone: bool)
    requires s.phase == Downloading && d.Download? && d.dpc.Landed?
    ensures var t := DoAfterFetch(s, w, d, ctxDone);
            && t.phase == (if d.dpc.path.Some? then Verifying else if ctxDone then Cancelled else Failed)
            && (w in t.workers <==> d.dpc.path.Some?) && t.disk == s.disk && t.staged == s.staged
  {
  }

  /** Verified bytes are staged and the update is available again; others fail the download. */
  lemma VerifyEndsExactly(s: State, w: nat, d: Worker)
    requires s.phase == Verifying && d.Download? && d.dpc.Hashed?
    ensures var t := DoAfterHash(s, w, d);
            && t.phase == (if d.dpc.good then UpdateAvailable else Failed)
            && t.staged == (if d.dpc.good then Some(d.dpc.hashed) else s.staged) && w !in t.workers
  {
  }

  /** The hash of a file is good exactly when it is the one the artifact names; bad bytes are removed. */
  lemma HashEndsExactly(s: State, w: nat, d: Worker)
    requires d.Download? && d.dpc.Hashing? && d.dpc.file in s.disk.files
    ensures var t := DoHash(s, w, d); var f := d.dpc.file; var good := Sha256(s.disk.files[f]) == d.art.sha;
            && t.workers == s.workers[w := d.(dpc := Hashed(f, good))]
            && (f in t.disk.files <==> good)
  {
  }

  // ---------------------------------------------------------------- installs

  lemma InstallBeginsExactly(s: State)
    ensures var t := DoBeginInstall(s);
            if s.phase == UpdateAvailable && s.pending.Some? && s.artifact.Some? && s.staged.Some?
            then t.phase == Staging && t.canceller == Some(s.nextWorker) && s.nextWorker in t.workers
            else t == s
  {
  }

  /**
   * An install that is still wanted ends in Failed without a tree, or when the updater does not start, and then
   * no contract is left; otherwise in Restarting, with the contract and the updater started on the tree.
   */
  lemma InstallEndsExactly(s: State, w: nat, i: Worker, spawnOk: bool)
    requires s.phase == Staging && i.Install? && i.ipc.Deciding?
    ensures var t := DoDecide(s, w, i, spawnOk);
            if i.ipc.dir.Some? && spawnOk
            then t.phase == Restarting && t.contract == Some(i.ver) && |t.spawned| == |s.spawned| + 1
                 && t.spawned[..|s.spawned|] == s.spawned && t.spawned[|s.spawned|].version == i.ver
            else t.phase == Failed && t.spawned == s.spawned && t.staged == s.staged && t.stageRoot == s.stageRoot
                 && t.contract == (if i.ipc.dir.Some? then None else s.contract)
  {
  }

  /** A delta that cannot be applied is replaced by the full artifact, where there is one and nobody cancelled. */
  lemma FallbackExactly(s: State, w: nat, i: Worker)
    requires i.Install? && i.ipc.Assembling? && i.ver !in s.stageRoot
    ensures var t := DoUnpack(s, w, i, false);
            && w in t.workers && t.workers[w].Install?
            && (t.workers[w].ipc.Refetching? <==>
                  i.ipc.kind == Delta && !i.cancelled && exists a :: a in i.rel.artifacts && a.kind == Full)
            && (!t.workers[w].ipc.Refetching? ==> t.workers[w].ipc == Deciding(None))
  {
    FullIsFound(i.rel.artifacts);
  }

  /** So is one whose tree cannot be put in place. */
  lemma PlaceEndsExactly(s: State, w: nat, i: Worker, ok: bool)
    requires i.Install? && i.ipc.Unpacked?
    ensures var t := DoPlace(s, w, i, ok);
            && w in t.workers && t.workers[w].Install?
            && if ok && i.ver !in s.stageRoot
               then t.stageRoot == s.stageRoot[i.ver := i.ipc.payload] && t.workers[w].ipc == Deciding(Some(i.ver))
               else t.stageRoot == s.stageRoot
                    && (t.workers[w].ipc.Refetching? <==>
                          i.ipc.source == Delta && !i.cancelled && exists a :: a in i.rel.artifacts && a.kind == Full)
                    && (!t.workers[w].ipc.Refetching? ==> t.workers[w].ipc == Deciding(None))
  {
    FullIsFound(i.rel.artifacts);
  }

  /** A tree that is there already is reused; otherwise the artifact is unpacked. */
  lemma UnpackEndsExactly(s: State, w: nat, i: Worker)
    requires i.Install? && i.ipc.Assembling? && i.ipc.file in s.disk.files
    ensures DoUnpack(s, w, i, true).workers
            == s.workers[w := i.(ipc := if i.ver in s.stageRoot then Deciding(Some(i.ver))
                                        else Unpacked(i.ipc.kind, s.disk.files[i.ipc.file]))]
  {
  }

  /** The fallback's artifact is taken when it comes and its hash is right; otherwise the install has no tree. */
  lemma RefetchEndsExactly(s: State, w: nat, i: Worker, bytes: Option<Bytes>)
    requires i.Install? && i.ipc.Refetching?
    ensures var t := DoRefetch(s, w, i, bytes);
            t.workers == s.workers[w := i.(ipc :=
              if bytes.Some? then Refetched(i.ipc.wanted, s.disk.next) else Deciding(None))]
    ensures bytes.Some? ==> var t := DoRefetch(s, w, i, bytes);
              s.disk.next in t.disk.files && t.disk.files[s.disk.next] == bytes.value
  {
  }

  lemma RehashEndsExactly(s: State, w: nat, i: Worker)
    requires i.Install? && i.ipc.Refetched? && i.ipc.path in s.disk.files
    ensures var t := DoRehash(s, w, i); var f := i.ipc.path; var good := Sha256(s.disk.files[f]) == i.ipc.full.sha;
            && t.workers == s.workers[w := i.(ipc := if good then Rewriting(i.ipc.full, f) else Deciding(None))]
            && (f in t.disk.files <==> good)
  {
  }

  lemma {:induction false} FullIsFound(artifacts: seq<Artifact>)
    ensures FirstFull(artifacts).Some? <==> exists a :: a in artifacts && a.kind == Full
  {
    if artifacts != [] && artifacts[0].kind != Full {
      FullIsFound(artifacts[1..]);
      assert artifacts == [artifacts[0]] + artifacts[1..];
    }
  }

  // ---------------------------------------------------------------- from outside

  /**
   * A Cancel ends whatever is under way before the hand-off in Cancelled; while restarting it also withdraws the
   * contract; in any other phase it moves nothing. The worker that could be cancelled knows of it.
   */
  lemma CancelEndsExactly(s: State)
    ensures var t := DoCancel(s);
            && t.phase == (if s.phase in {Checking, Downloading, Verifying, Staging, Restarting} then Cancelled else s.phase)
            && t.contract == (if s.phase == Restarting then None else s.contract)
            && t.canceller == None && t.staged == s.staged && t.disk == s.disk && t.spawned == s.spawned
    ensures s.canceller.Some? && s.canceller.value in s.workers && !s.workers[s.canceller.value].Check? ==>
              DoCancel(s).workers[s.canceller.value].cancelled
  {
  }

  /** A dismissed version is remembered, and the next check that offers it again does not announce it. */
  lemma DismissedStaysQuiet(s: State, w: nat, x: nat, o: Outcome, trusted: Release -> bool)
    requires s.phase == UpdateAvailable && s.pending.Some?
    requires o.Offer? && o.rel.version == s.pending.value.version
    ensures var t := DoDismiss(s);
            && t.phase == Idle && t.dismissed == s.pending.value.version && t.pending == s.pending
            && var u := DoFinishCheck(DoBeginCheck(t), w, o, trusted);
            && DoBeginCheck(t).phase == Checking
            && u.phase == if IsUsable(o, trusted) then NoUpdate else Failed
  {
  }

  /** An updater that dies on its own fails the update while it is waited for, and at no other time. */
  lemma UpdaterExitExactly(s: State)
    ensures var t := DoUpdaterExited(s);
            if s.phase == Restarting && s.contract.Some? then t == s.(phase := Failed) else t == s
  {
  }

  /** After a restart the updater's report is announced once, as a success or a failure; without one nothing is. */
  lemma RestartAnnounces(s: State, seed: Option<(Bytes, bool)>)
    ensures var t := DoRestart(s, seed);
            && t.phase == (if seed.None? then Idle else if seed.value.1 then Updated else Failed)
            && (seed.Some? ==> t.pending.Some? && t.pending.value.version == seed.value.0)
            && t.workers == map[] && t.staged == None && t.contract == None
            && t.stageRoot == s.stageRoot && t.disk == s.disk && t.dismissed == s.dismissed
  {
  }
}
