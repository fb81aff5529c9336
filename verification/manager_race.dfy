/** Why the coherence claim excludes checks during the fallback: a run that mislabels an update. */
module FallbackRace {
  import opened Text
  import opened UpdateManager
  import opened SoloManager
  import opened CoherentManager

  /** `t` is reached from `s` with at most one Download or Install in flight throughout. */
  ghost predicate Reaches(s: State, t: State, trusted: Release -> bool) {
    exists actions :: SoloRun(s, actions, trusted) && After(s, actions, trusted) == t
  }

  lemma ReachesItself(s: State, trusted: Release -> bool)
    ensures Reaches(s, s, trusted)
  {
    assert SoloRun(s, [], trusted) && After(s, [], trusted) == s;
  }

  lemma StepReaches(s: State, a: Action, t: State, trusted: Release -> bool)
    requires Enabled(s, a) && AtMostOne(Next(s, a, trusted).workers) && Reaches(Next(s, a, trusted), t, trusted)
    ensures Reaches(s, t, trusted)
  {
    hide Enabled, Next, AtMostOne;
    var n := Next(s, a, trusted);
    var rest :| SoloRun(n, rest, trusted) && After(n, rest, trusted) == t;
    var actions := [a] + rest;
    assert actions[0] == a && actions[1..] == rest;
    assert SoloRun(s, actions, trusted) && After(s, actions, trusted) == t;
  }

  /** One action leads to `t`, with at most one transfer in flight after it. */
  predicate Leads(s: State, a: Action, t: State, trusted: Release -> bool) {
    Enabled(s, a) && Next(s, a, trusted) == t && AtMostOne(t.workers)
  }

  lemma LeadsOn(s: State, a: Action, u: State, t: State, trusted: Release -> bool)
    requires Leads(s, a, u, trusted) && Reaches(u, t, trusted)
    ensures Reaches(s, t, trusted)
  {
    hide Next, Enabled, Reaches, AtMostOne;
    StepReaches(s, a, t, trusted);
  }

  /** Two releases: the first with a delta and a full artifact, the second without that full artifact. */
  datatype Scene = Scene(first: Release, second: Release, delta: Artifact, full: Artifact, other: Artifact,
                         deltaBytes: Bytes, fullBytes: Bytes)

  predicate IsScene(c: Scene, trusted: Release -> bool) {
    && c.first.artifacts == [c.delta, c.full] && c.delta.kind == Delta && c.full.kind == Full
    && c.second.artifacts == [c.other] && c.other.sha != c.full.sha
    && c.delta.sha == Sha256(c.deltaBytes) && c.full.sha == Sha256(c.fullBytes)
    && trusted(c.first) && trusted(c.second) && c.first.version != [] && c.second.version != []
  }

  /** The delta of the first release is downloaded and an install of it has begun. */
  function InstallingDelta(c: Scene): State {
    INITIAL.(phase := Staging, pending := Some(c.first), artifact := Some(c.delta), staged := Some(0),
             canceller := Some(2), disk := Downloads(map[0 := c.deltaBytes], 1),
             workers := map[2 := Install(Assembling(Delta, 0), c.first.version, c.first, false, false)],
             nextWorker := 3, verified := {c.first})
  }

  /** The delta's download: begun, landed, being hashed, found good, staged. */
  function DeltaBegun(c: Scene): State {
    Offered(c).(phase := Downloading, canceller := Some(1), nextWorker := 2,
                workers := map[1 := Download(Fetching, c.delta, false, false)])
  }

  function DeltaLanded(c: Scene): State {
    DeltaBegun(c).(disk := Downloads(map[0 := c.deltaBytes], 1),
                   workers := map[1 := Download(Landed(Some(0)), c.delta, false, false)])
  }

  function DeltaHashing(c: Scene): State {
    DeltaLanded(c).(phase := Verifying, canceller := None,
                    workers := map[1 := Download(Hashing(0), c.delta, false, false)])
  }

  function DeltaGood(c: Scene): State {
    DeltaHashing(c).(workers := map[1 := Download(Hashed(0, true), c.delta, false, false)])
  }

  function DeltaStaged(c: Scene): State {
    DeltaGood(c).(phase := UpdateAvailable, staged := Some(0), workers := map[])
  }

  lemma DeltaArrives(c: Scene, trusted: Release -> bool)
    ensures Leads(Offered(c), BeginDownload, DeltaBegun(c), trusted)
    ensures Leads(DeltaBegun(c), Fetch(1, Some(c.deltaBytes)), DeltaLanded(c), trusted)
  {
  }

  lemma DeltaIsHashed(c: Scene, trusted: Release -> bool)
    requires IsScene(c, trusted)
    ensures Leads(DeltaLanded(c), AfterFetch(1, false), DeltaHashing(c), trusted)
    ensures Leads(DeltaHashing(c), Hash(1), DeltaGood(c), trusted)
  {
    hide DoBeginCheck, DoFinishCheck, DoBeginDownload, DoFetch, DoAfterHash, DoBeginInstall, DoUnpack, DoPlace, DoRefetch,
         DoRehash, DoRewrite, DoDecide, DoCancel, DoDismiss, DoUpdaterExited, DoRestart;
  }

  lemma DeltaIsStaged(c: Scene, trusted: Release -> bool)
    ensures Leads(DeltaGood(c), AfterHash(1), DeltaStaged(c), trusted)
  {
  }

  lemma DeltaIsInstalled(c: Scene, trusted: Release -> bool)
    requires IsScene(c, trusted)
    ensures Leads(DeltaStaged(c), BeginInstall, InstallingDelta(c), trusted)
  {
  }

  lemma ReachDeltaStaged(c: Scene, trusted: Release -> bool, t: State)
    requires IsScene(c, trusted) && Reaches(DeltaStaged(c), t, trusted)
    ensures Reaches(INITIAL, t, trusted)
  {
    DeltaArrives(c, trusted);
    DeltaIsHashed(c, trusted);
    DeltaIsStaged(c, trusted);
    hide *;
    LeadsOn(DeltaGood(c), AfterHash(1), DeltaStaged(c), t, trusted);
    LeadsOn(DeltaHashing(c), Hash(1), DeltaGood(c), t, trusted);
    LeadsOn(DeltaLanded(c), AfterFetch(1, false), DeltaHashing(c), t, trusted);
    LeadsOn(DeltaBegun(c), Fetch(1, Some(c.deltaBytes)), DeltaLanded(c), t, trusted);
    LeadsOn(Offered(c), BeginDownload, DeltaBegun(c), t, trusted);
    ReachOffered(c, trusted, t);
  }

  lemma ReachInstallingDelta(c: Scene, trusted: Release -> bool, t: State)
    requires IsScene(c, trusted) && Reaches(InstallingDelta(c), t, trusted)
    ensures Reaches(INITIAL, t, trusted)
  {
    DeltaIsInstalled(c, trusted);
    hide *;
    LeadsOn(DeltaStaged(c), BeginInstall, InstallingDelta(c), t, trusted);
    ReachDeltaStaged(c, trusted, t);
  }

  /** The first release has been offered. */
  function Offered(c: Scene): State {
    INITIAL.(phase := UpdateAvailable, pending := Some(c.first), artifact := Some(c.delta), nextWorker := 1,
             verified := {c.first})
  }

  lemma ReachOffered(c: Scene, trusted: Release -> bool, t: State)
    requires IsScene(c, trusted) && Reaches(Offered(c), t, trusted)
    ensures Reaches(INITIAL, t, trusted)
  {
    hide Reaches;
    var s1 := INITIAL.(phase := Checking, workers := map[0 := Check], nextWorker := 1);
    assert Next(s1, FinishCheck(0, Offer(c.first, Some(c.delta))), trusted) == Offered(c);
    StepReaches(s1, FinishCheck(0, Offer(c.first, Some(c.delta))), t, trusted);
    assert Next(INITIAL, BeginCheck, trusted) == s1;
    StepReaches(INITIAL, BeginCheck, t, trusted);
  }

  /** The fallback has fetched the full artifact; the user cancels and a check offers the second release. */
  function SecondOffered(c: Scene): State {
    INITIAL.(phase := UpdateAvailable, pending := Some(c.second), artifact := Some(c.other),
             disk := Downloads(map[1 := c.fullBytes], 2),
             workers := map[2 := Install(Refetched(c.full, 1), c.first.version, c.first, true, true)],
             nextWorker := 4, verified := {c.first, c.second})
  }

  /** The full artifact has landed when the user cancels. */
  function CancelledInFallback(c: Scene): State {
    InstallingDelta(c).(phase := Cancelled, canceller := None,
                        disk := Downloads(map[0 := c.deltaBytes, 1 := c.fullBytes], 2),
                        workers := map[2 := Install(Refetched(c.full, 1), c.first.version, c.first, true, true)])
  }

  /** Unpacking the delta has failed, and the full artifact is being fetched. */
  function FullWanted(c: Scene): State {
    InstallingDelta(c).(workers := map[2 := Install(Refetching(c.full), c.first.version, c.first, false, false)])
  }

  /** It has landed. */
  function FullLanded(c: Scene): State {
    InstallingDelta(c).(disk := Downloads(map[0 := c.deltaBytes, 1 := c.fullBytes], 2),
                        workers := map[2 := Install(Refetched(c.full, 1), c.first.version, c.first, false, false)])
  }

  lemma DeltaFails(c: Scene, trusted: Release -> bool)
    requires IsScene(c, trusted)
    ensures Leads(InstallingDelta(c), Unpack(2, false), FullWanted(c), trusted)
  {
    assert c.first.artifacts[1..] == [c.full];
    assert FirstFull([c.full]) == Some(c.full);
  }

  lemma FullLands(c: Scene, trusted: Release -> bool)
    ensures Leads(FullWanted(c), Refetch(2, Some(c.fullBytes)), FullLanded(c), trusted)
  {
  }

  lemma UserCancels(c: Scene, trusted: Release -> bool)
    ensures Leads(FullLanded(c), Cancel, CancelledInFallback(c), trusted)
  {
    hide DoBeginCheck, DoFinishCheck, DoBeginDownload, DoFetch, DoAfterFetch, DoHash, DoAfterHash, DoBeginInstall, DoUnpack,
         DoPlace, DoRefetch, DoRehash, DoRewrite, DoDecide, DoDismiss, DoUpdaterExited, DoRestart;
  }

  lemma ReachCancelledInFallback(c: Scene, trusted: Release -> bool, t: State)
    requires IsScene(c, trusted) && Reaches(CancelledInFallback(c), t, trusted)
    ensures Reaches(InstallingDelta(c), t, trusted)
  {
    DeltaFails(c, trusted);
    FullLands(c, trusted);
    UserCancels(c, trusted);
    hide *;
    LeadsOn(FullLanded(c), Cancel, CancelledInFallback(c), t, trusted);
    LeadsOn(FullWanted(c), Refetch(2, Some(c.fullBytes)), FullLanded(c), t, trusted);
    LeadsOn(InstallingDelta(c), Unpack(2, false), FullWanted(c), t, trusted);
  }

  /** The next check is on its way. */
  function SecondChecked(c: Scene): State {
    CancelledInFallback(c).(phase := Checking, nextWorker := 4,
      workers := map[2 := Install(Refetched(c.full, 1), c.first.version, c.first, true, true), 3 := Check])
  }

  lemma SecondCheckBegins(c: Scene, trusted: Release -> bool)
    ensures Leads(CancelledInFallback(c), BeginCheck, SecondChecked(c), trusted)
  {
  }

  lemma SecondCheckEnds(c: Scene, trusted: Release -> bool)
    requires IsScene(c, trusted)
    ensures Leads(SecondChecked(c), FinishCheck(3, Offer(c.second, Some(c.other))), SecondOffered(c), trusted)
  {
    hide DoBeginCheck, DoBeginDownload, DoFetch, DoAfterFetch, DoHash, DoAfterHash, DoBeginInstall, DoUnpack, DoPlace,
         DoRefetch, DoRehash, DoRewrite, DoDecide, DoCancel, DoDismiss, DoUpdaterExited, DoRestart;
    assert c.other in c.second.artifacts;
    var i := Install(Refetched(c.full, 1), c.first.version, c.first, true, true);
    assert map[2 := i, 3 := Check] - {3} == map[2 := i];
    assert map[0 := c.deltaBytes, 1 := c.fullBytes] - {0} == map[1 := c.fullBytes];
    assert {c.first} + {c.second} == {c.first, c.second};
  }

  lemma ReachSecondOffered(c: Scene, trusted: Release -> bool, t: State)
    requires IsScene(c, trusted) && Reaches(SecondOffered(c), t, trusted)
    ensures Reaches(InstallingDelta(c), t, trusted)
  {
    SecondCheckBegins(c, trusted);
    SecondCheckEnds(c, trusted);
    hide *;
    LeadsOn(SecondChecked(c), FinishCheck(3, Offer(c.second, Some(c.other))), SecondOffered(c), t, trusted);
    LeadsOn(CancelledInFallback(c), BeginCheck, SecondChecked(c), t, trusted);
    ReachCancelledInFallback(c, trusted, t);
  }

  /** The fallback has written its artifact over the second release's. */
  function Overwritten(c: Scene): State {
    SecondOffered(c).(artifact := Some(c.full), staged := Some(1),
                      workers := map[2 := Install(Assembling(Full, 1), c.first.version, c.first, true, true)])
  }

  lemma ReachOverwritten(c: Scene, trusted: Release -> bool, t: State)
    requires IsScene(c, trusted) && Reaches(Overwritten(c), t, trusted)
    ensures Reaches(SecondOffered(c), t, trusted)
  {
    hide Reaches;
    var s := SecondOffered(c);
    var r := s.(workers := map[2 := Install(Rewriting(c.full, 1), c.first.version, c.first, true, true)]);
    assert Next(r, Rewrite(2), trusted) == Overwritten(c);
    StepReaches(r, Rewrite(2), t, trusted);
    assert Next(s, Rehash(2), trusted) == r;
    StepReaches(s, Rehash(2), t, trusted);
  }

  /** A check completing during the fallback does break coherence. */
  lemma CheckDuringFallbackMislabels(c: Scene, trusted: Release -> bool)
    requires IsScene(c, trusted)
    ensures Reaches(INITIAL, Overwritten(c), trusted) && !Coherent(Overwritten(c))
  {
    hide Reaches;
    ReachesItself(Overwritten(c), trusted);
    ReachOverwritten(c, trusted, Overwritten(c));
    ReachSecondOffered(c, trusted, Overwritten(c));
    ReachInstallingDelta(c, trusted, Overwritten(c));
    assert c.full !in c.second.artifacts;
  }

  /** The install has backed out; what it wrote over the artifact stays behind. */
  function BackedOut(c: Scene): State {
    Overwritten(c).(staged := None, disk := Downloads(map[], 2), workers := map[])
  }

  /** The wrong artifact is downloaded for the second release. */
  function WrongStaged(c: Scene): State {
    BackedOut(c).(staged := Some(2), disk := Downloads(map[2 := c.fullBytes], 3), nextWorker := 5)
  }

  /** The updater was started on the second version with a tree of the first. */
  function HandedOff(c: Scene): State {
    WrongStaged(c).(phase := Restarting, nextWorker := 6, stageRoot := map[c.second.version := c.fullBytes],
                    contract := Some(c.second.version),
                    spawned := [Handoff(c.second.version, Some(c.fullBytes))])
  }

  lemma ReachBackedOut(c: Scene, trusted: Release -> bool, t: State)
    requires IsScene(c, trusted) && Reaches(BackedOut(c), t, trusted)
    ensures Reaches(Overwritten(c), t, trusted)
  {
    hide Reaches;
    var s := Overwritten(c);
    var d := s.(workers := map[2 := Install(Deciding(None), c.first.version, c.first, true, true)]);
    assert Next(d, Decide(2, true), trusted) == BackedOut(c);
    StepReaches(d, Decide(2, true), t, trusted);
    assert Next(s, Unpack(2, false), trusted) == d;
    StepReaches(s, Unpack(2, false), t, trusted);
  }

  /** The wrong download: begun, landed, being hashed, found good. */
  function WrongBegun(c: Scene): State {
    BackedOut(c).(phase := Downloading, canceller := Some(4), nextWorker := 5,
                  workers := map[4 := Download(Fetching, c.full, false, false)])
  }

  function WrongLanded(c: Scene): State {
    WrongBegun(c).(disk := Downloads(map[2 := c.fullBytes], 3),
                   workers := map[4 := Download(Landed(Some(2)), c.full, false, false)])
  }

  function WrongHashing(c: Scene): State {
    WrongLanded(c).(phase := Verifying, canceller := None,
                    workers := map[4 := Download(Hashing(2), c.full, false, false)])
  }

  function WrongGood(c: Scene): State {
    WrongHashing(c).(workers := map[4 := Download(Hashed(2, true), c.full, false, false)])
  }

  lemma WrongArrives(c: Scene, trusted: Release -> bool)
    ensures Leads(BackedOut(c), BeginDownload, WrongBegun(c), trusted)
    ensures Leads(WrongBegun(c), Fetch(4, Some(c.fullBytes)), WrongLanded(c), trusted)
  {
  }

  lemma WrongIsHashed(c: Scene, trusted: Release -> bool)
    requires IsScene(c, trusted)
    ensures Leads(WrongLanded(c), AfterFetch(4, false), WrongHashing(c), trusted)
    ensures Leads(WrongHashing(c), Hash(4), WrongGood(c), trusted)
  {
    hide DoBeginCheck, DoFinishCheck, DoBeginDownload, DoFetch, DoAfterHash, DoBeginInstall, DoUnpack, DoPlace, DoRefetch,
         DoRehash, DoRewrite, DoDecide, DoCancel, DoDismiss, DoUpdaterExited, DoRestart;
  }

  lemma WrongIsStaged(c: Scene, trusted: Release -> bool)
    ensures Leads(WrongGood(c), AfterHash(4), WrongStaged(c), trusted)
  {
  }

  lemma ReachWrongStaged(c: Scene, trusted: Release -> bool, t: State)
    requires IsScene(c, trusted) && Reaches(WrongStaged(c), t, trusted)
    ensures Reaches(BackedOut(c), t, trusted)
  {
    WrongArrives(c, trusted);
    WrongIsHashed(c, trusted);
    WrongIsStaged(c, trusted);
    hide *;
    LeadsOn(WrongGood(c), AfterHash(4), WrongStaged(c), t, trusted);
    LeadsOn(WrongHashing(c), Hash(4), WrongGood(c), t, trusted);
    LeadsOn(WrongLanded(c), AfterFetch(4, false), WrongHashing(c), t, trusted);
    LeadsOn(WrongBegun(c), Fetch(4, Some(c.fullBytes)), WrongLanded(c), t, trusted);
    LeadsOn(BackedOut(c), BeginDownload, WrongBegun(c), t, trusted);
  }

  /** The wrong install: begun, unpacked, in place. */
  function WrongInstalling(c: Scene): State {
    WrongStaged(c).(phase := Staging, canceller := Some(5), nextWorker := 6,
      workers := map[5 := Install(Assembling(Full, 2), c.second.version, c.second, false, false)])
  }

  function WrongUnpacked(c: Scene): State {
    WrongInstalling(c).(
      workers := map[5 := Install(Unpacked(Full, c.fullBytes), c.second.version, c.second, false, false)])
  }

  function WrongPlaced(c: Scene): State {
    WrongInstalling(c).(stageRoot := map[c.second.version := c.fullBytes],
      workers := map[5 := Install(Deciding(Some(c.second.version)), c.second.version, c.second, false, false)])
  }

  lemma WrongIsUnpacked(c: Scene, trusted: Release -> bool)
    requires IsScene(c, trusted)
    ensures Leads(WrongStaged(c), BeginInstall, WrongInstalling(c), trusted)
    ensures Leads(WrongInstalling(c), Unpack(5, true), WrongUnpacked(c), trusted)
  {
    hide DoBeginCheck, DoFinishCheck, DoBeginDownload, DoFetch, DoAfterFetch, DoHash, DoAfterHash, DoPlace, DoRefetch,
         DoRehash, DoRewrite, DoDecide, DoCancel, DoDismiss, DoUpdaterExited, DoRestart;
  }

  lemma WrongIsPlaced(c: Scene, trusted: Release -> bool)
    ensures Leads(WrongUnpacked(c), Place(5, true), WrongPlaced(c), trusted)
  {
  }

  lemma WrongIsHandedOff(c: Scene, trusted: Release -> bool)
    ensures Leads(WrongPlaced(c), Decide(5, true), HandedOff(c), trusted)
  {
    hide DoBeginCheck, DoFinishCheck, DoBeginDownload, DoFetch, DoAfterFetch, DoHash, DoAfterHash, DoBeginInstall, DoUnpack,
         DoPlace, DoRefetch, DoRehash, DoRewrite, DoCancel, DoDismiss, DoUpdaterExited, DoRestart;
  }

  lemma ReachHandedOff(c: Scene, trusted: Release -> bool, t: State)
    requires IsScene(c, trusted) && Reaches(HandedOff(c), t, trusted)
    ensures Reaches(WrongStaged(c), t, trusted)
  {
    WrongIsUnpacked(c, trusted);
    WrongIsPlaced(c, trusted);
    WrongIsHandedOff(c, trusted);
    hide *;
    LeadsOn(WrongPlaced(c), Decide(5, true), HandedOff(c), t, trusted);
    LeadsOn(WrongUnpacked(c), Place(5, true), WrongPlaced(c), t, trusted);
    LeadsOn(WrongInstalling(c), Unpack(5, true), WrongUnpacked(c), t, trusted);
    LeadsOn(WrongStaged(c), BeginInstall, WrongInstalling(c), t, trusted);
  }

  /**
   * The race carries through to the updater: it is started to install the second version from bytes
   * that no artifact of the second release names (they are the first release's).
   */
  lemma MislabelledUpdateIsReachable(c: Scene, trusted: Release -> bool)
    requires IsScene(c, trusted)
    ensures Reaches(INITIAL, HandedOff(c), trusted)
    ensures var h := HandedOff(c).spawned[0];
            && HandedOff(c).pending == Some(c.second) && h.version == c.second.version && h.payload == Some(c.fullBytes)
            && forall a :: a in c.second.artifacts ==> a.sha != Sha256(c.fullBytes)
  {
    hide Reaches;
    ReachesItself(HandedOff(c), trusted);
    ReachHandedOff(c, trusted, HandedOff(c));
    ReachWrongStaged(c, trusted, HandedOff(c));
    ReachBackedOut(c, trusted, HandedOff(c));
    ReachOverwritten(c, trusted, HandedOff(c));
    ReachSecondOffered(c, trusted, HandedOff(c));
    ReachInstallingDelta(c, trusted, HandedOff(c));
  }

  // ---------------------------------------------------------------- a cancelled download beside an earlier one

  /** A second download, with the first one's file still staged: begun, cancelled, given up. */
  function AgainBegun(c: Scene): State {
    DeltaStaged(c).(phase := Downloading, canceller := Some(2), nextWorker := 3,
                    workers := map[2 := Download(Fetching, c.delta, false, false)])
  }

  function AgainCancelled(c: Scene): State {
    AgainBegun(c).(phase := Cancelled, canceller := None,
                   workers := map[2 := Download(Fetching, c.delta, true, true)])
  }

  function AgainFailed(c: Scene): State {
    AgainCancelled(c).(workers := map[2 := Download(Landed(None), c.delta, true, true)])
  }

  function AgainGone(c: Scene): State { AgainCancelled(c).(workers := map[]) }

  lemma AgainIsCancelled(c: Scene, trusted: Release -> bool)
    ensures Leads(DeltaStaged(c), BeginDownload, AgainBegun(c), trusted)
    ensures Leads(AgainBegun(c), Cancel, AgainCancelled(c), trusted)
  {
  }

  lemma AgainIsGivenUp(c: Scene, trusted: Release -> bool)
    ensures Leads(AgainCancelled(c), Fetch(2, None), AgainFailed(c), trusted)
    ensures Leads(AgainFailed(c), AfterFetch(2, true), AgainGone(c), trusted)
  {
  }

  /** A cancelled download leaves a file staged when one was before: what the first download brought stays. */
  lemma EarlierStagedSurvivesCancel(c: Scene, trusted: Release -> bool)
    requires IsScene(c, trusted)
    ensures Reaches(INITIAL, AgainGone(c), trusted)
    ensures AgainGone(c).phase == Cancelled && AgainGone(c).staged == Some(0) && AgainGone(c).workers == map[]
  {
    AgainIsCancelled(c, trusted);
    AgainIsGivenUp(c, trusted);
    ReachesItself(AgainGone(c), trusted);
    hide Leads, Reaches;
    var t := AgainGone(c);
    LeadsOn(AgainFailed(c), AfterFetch(2, true), t, t, trusted);
    LeadsOn(AgainCancelled(c), Fetch(2, None), AgainFailed(c), t, trusted);
    LeadsOn(AgainBegun(c), Cancel, AgainCancelled(c), t, trusted);
    LeadsOn(DeltaStaged(c), BeginDownload, AgainBegun(c), t, trusted);
    ReachDeltaStaged(c, trusted, t);
  }
}
