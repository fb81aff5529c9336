/**
 * The update manager as an object. Its methods are the critical sections and the unlocked work of
 * checks, downloads and installs; the object remembers the actions taken, so that whatever order the
 * methods are called in, its state is one of the state machine's.
 */
module ManagerSections {
  import opened Text
  import opened UpdateManager
  import Backoff

  // ---------------------------------------------------------------- what the object remembers

  /** A durable event of the hand-off: pending.json written or withdrawn, the updater started. */
  datatype Effect = Wrote(version: Bytes) | Started(version: Bytes) | Withdrew

  /** Every start of the updater comes right after its contract was written. */
  predicate ContractFirst(effects: seq<Effect>) {
    forall i :: 0 <= i < |effects| && effects[i].Started? ==> i > 0 && effects[i - 1] == Wrote(effects[i].version)
  }

  /** The contract the events leave. */
  function ContractOf(effects: seq<Effect>): Option<Bytes> {
    if effects == [] then None
    else
      match effects[|effects| - 1]
      case Wrote(v) => Some(v)
      case Withdrew => None
      case Started(_) => ContractOf(effects[..|effects| - 1])
  }

  function StartsOf(effects: seq<Effect>): seq<Bytes> {
    if effects == [] then []
    else
      var rest := StartsOf(effects[..|effects| - 1]);
      var last := effects[|effects| - 1];
      if last.Started? then rest + [last.version] else rest
  }

  function VersionsOf(spawned: seq<Handoff>): (vs: seq<Bytes>)
    ensures |vs| == |spawned|
  {
    seq(|spawned|, i requires 0 <= i < |spawned| => spawned[i].version)
  }

  /** The events account for the contract and for every updater started. */
  ghost predicate Accounts(effects: seq<Effect>, contract: Option<Bytes>, spawned: seq<Handoff>) {
    ContractFirst(effects) && ContractOf(effects) == contract && StartsOf(effects) == VersionsOf(spawned)
  }

  lemma ContractOfMore(effects: seq<Effect>, e: Effect)
    ensures ContractOf(effects + [e])
            == (if e.Wrote? then Some(e.version) else if e.Withdrew? then None else ContractOf(effects))
  {
    assert (effects + [e])[..|effects|] == effects;
  }

  lemma StartsOfMore(effects: seq<Effect>, e: Effect)
    ensures StartsOf(effects + [e]) == (if e.Started? then StartsOf(effects) + [e.version] else StartsOf(effects))
  {
    assert (effects + [e])[..|effects|] == effects;
  }

  lemma FirstMore(effects: seq<Effect>, e: Effect)
    requires ContractFirst(effects)
    requires e.Started? ==> effects != [] && effects[|effects| - 1] == Wrote(e.version)
    ensures ContractFirst(effects + [e])
  {
  }

  lemma Withdraws(effects: seq<Effect>, contract: Option<Bytes>, spawned: seq<Handoff>)
    requires Accounts(effects, contract, spawned)
    ensures Accounts(effects + [Withdrew], None, spawned)
  {
    hide ContractFirst, ContractOf, StartsOf, VersionsOf;
    ContractOfMore(effects, Withdrew);
    StartsOfMore(effects, Withdrew);
    FirstMore(effects, Withdrew);
  }

  lemma Writes(effects: seq<Effect>, contract: Option<Bytes>, spawned: seq<Handoff>, ver: Bytes)
    requires Accounts(effects, contract, spawned)
    ensures Accounts(effects + [Wrote(ver)], Some(ver), spawned)
  {
    hide ContractFirst, ContractOf, StartsOf, VersionsOf;
    ContractOfMore(effects, Wrote(ver));
    StartsOfMore(effects, Wrote(ver));
    FirstMore(effects, Wrote(ver));
  }

  lemma Starts(effects: seq<Effect>, contract: Option<Bytes>, spawned: seq<Handoff>, h: Handoff)
    requires Accounts(effects, contract, spawned) && effects != [] && effects[|effects| - 1] == Wrote(h.version)
    ensures Accounts(effects + [Started(h.version)], contract, spawned + [h])
  {
    assert VersionsOf(spawned + [h]) == VersionsOf(spawned) + [h.version];
    hide ContractFirst, ContractOf, StartsOf, VersionsOf;
    ContractOfMore(effects, Started(h.version));
    StartsOfMore(effects, Started(h.version));
    FirstMore(effects, Started(h.version));
  }

  /** The state is reached by the actions. */
  ghost predicate Reached(history: seq<Action>, s: State, trusted: Release -> bool) {
    IsRun(INITIAL, history, trusted) && Run(INITIAL, history, trusted) == s
  }

  lemma {:induction false} RunOneMore(s: State, history: seq<Action>, a: Action, trusted: Release -> bool)
    requires IsRun(s, history, trusted) && Enabled(Run(s, history, trusted), a)
    ensures IsRun(s, history + [a], trusted)
    ensures Run(s, history + [a], trusted) == Next(Run(s, history, trusted), a, trusted)
    decreases |history|
  {
    hide Next, Enabled;
    var more := history + [a];
    if history == [] {
      assert more[1..] == [] && IsRun(Next(s, a, trusted), [], trusted);
    } else {
      assert more[1..] == history[1..] + [a];
      RunOneMore(Next(s, history[0], trusted), history[1..], a, trusted);
    }
  }

  lemma ReachedOneMore(history: seq<Action>, s: State, a: Action, trusted: Release -> bool)
    requires Reached(history, s, trusted) && Enabled(s, a)
    ensures Reached(history + [a], Next(s, a, trusted), trusted)
  {
    hide Next, Enabled, IsRun, Run;
    RunOneMore(INITIAL, history, a, trusted);
  }

  // ---------------------------------------------------------------- the object

  const CHECK_INTERVAL := 21_600
  const MIN_CHECK_SPACING := 60_000_000_000
  const NANOSECONDS := 1_000_000_000

  /** What StartCheck asks of the clock: spacing, interval and cooldown, and of a manual check nothing. */
  predicate ClockOpen(manual: bool, now: int, lastPoll: Option<int>, lastCheckUnix: int, failCount: nat) {
    manual || (
      && (lastPoll.Some? ==> now - lastPoll.value >= MIN_CHECK_SPACING)
      && now / NANOSECONDS - lastCheckUnix >= CHECK_INTERVAL
      && (failCount > 0 ==>
            now / NANOSECONDS - lastCheckUnix >= Backoff.Min(300 * Backoff.Pow2(failCount - 1), 86_400)))
  }

  /** How long an automatic check stays away after the one before, in seconds. */
  function Silence(failCount: nat): int {
    if failCount <= 7 then 21_600 else if failCount == 8 then 38_400 else if failCount == 9 then 76_800 else 86_400
  }

  /**
   * The clock in plain numbers: a manual check is never held back; an automatic one waits a minute from the last
   * poll and six hours from the last check, which the cooldown only lengthens from the eighth failure in a row on.
   */
  lemma ClockOpenExactly(manual: bool, now: int, lastPoll: Option<int>, lastCheckUnix: int, failCount: nat)
    ensures ClockOpen(manual, now, lastPoll, lastCheckUnix, failCount)
            <==> manual || ((lastPoll.Some? ==> now - lastPoll.value >= 60_000_000_000)
                            && now / 1_000_000_000 - lastCheckUnix >= Silence(failCount))
  {
    assert Backoff.Pow2(6) == 64 && Backoff.Pow2(7) == 128 && Backoff.Pow2(8) == 256 && Backoff.Pow2(9) == 512;
    if 0 < failCount <= 7 {
      Backoff.Pow2Grows(failCount - 1, 6);
    } else if failCount >= 10 {
      Backoff.Pow2Grows(9, failCount - 1);
    }
  }

  class Manager {
    const trusted: Release -> bool
    var phase: Phase
    var pending: Option<Release>
    var artifact: Option<Artifact>
    var staged: Option<nat>
    var canceller: Option<nat>
    var dismissed: Bytes
    var disk: Downloads
    var stageRoot: map<Bytes, Bytes>
    var contract: Option<Bytes>
    var spawned: seq<Handoff>
    var workers: map<nat, Worker>
    var nextWorker: nat
    var verified: set<Release>
    var lastPoll: Option<int>       // in nanoseconds; None before the first check
    var lastCheckUnix: int
    var failCount: nat
    ghost var history: seq<Action>
    ghost var effects: seq<Effect>

    function View(): State
      reads this
    {
      State(phase, pending, artifact, staged, canceller, dismissed, disk, stageRoot, contract, spawned,
            workers, nextWorker, verified)
    }

    ghost predicate Valid()
      reads this
    {
      Reached(history, View(), trusted) && Accounts(effects, contract, spawned)
    }

    constructor (verify: Release -> bool)
      ensures Valid() && View() == INITIAL && history == [] && effects == [] && trusted == verify
    {
      trusted := verify;
      phase, pending, artifact, staged, canceller, dismissed := Idle, None, None, None, None, [];
      disk, stageRoot, contract, spawned := Downloads(map[], 0), map[], None, [];
      workers, nextWorker, verified := map[], 0, {};
      lastPoll, lastCheckUnix, failCount := None, 0, 0;
      history, effects := [], [];
    }

    /** Whatever the methods were called in, staged trees and handed-off ones come from verified manifests. */
    lemma IsGenuine()
      requires Valid()
      ensures TreesGenuine(verified, stageRoot) && HandoffsGenuine(verified, spawned)
      ensures forall r :: r in verified ==> trusted(r)
    {
      EveryRunHasProvenance(history, trusted);
      hide IsRun, Run, TreesGenuine, HandoffsGenuine;
    }

    /** setState: an illegal transition is logged and refused. */
    method SetState(to: Phase)
      modifies `phase
      ensures phase == Moved(old(phase), to)
    {
      if Allowed(phase, to) {
        phase := to;
      }
    }

    method Remove(file: nat)
      modifies `disk
      ensures disk == old(disk).Without(file)
    {
      disk := disk.Without(file);
    }

    method Leave(w: nat)
      modifies `workers
      ensures workers == old(workers) - {w}
    {
      workers := workers - {w};
    }

    method Enter(v: Worker) returns (w: nat)
      modifies `workers, `nextWorker
      ensures w == old(nextWorker) && nextWorker == w + 1 && workers == old(workers)[w := v]
    {
      w := nextWorker;
      workers := workers[w := v];
      nextWorker := w + 1;
    }

    method RemoveStaged()
      modifies `disk, `staged
      ensures staged == None
      ensures disk == if old(staged).Some? then old(disk).Without(old(staged).value) else old(disk)
    {
      if staged.Some? {
        Remove(staged.value);
        staged := None;
      }
    }

    // -------------------------------------------------------------- checks

    predicate ClockAllows(manual: bool, now: int)
      reads this
    {
      ClockOpen(manual, now, lastPoll, lastCheckUnix, failCount)
    }

    /** The clock guards of StartCheck. */
    method AskClock(manual: bool, now: int) returns (yes: bool)
      ensures yes == ClockAllows(manual, now)
    {
      if manual {
        return true;
      }
      if lastPoll.Some? && now - lastPoll.value < MIN_CHECK_SPACING {
        return false;
      }
      if now / NANOSECONDS - lastCheckUnix < CHECK_INTERVAL {
        return false;
      }
      var cooling := Backoff.Cooling(failCount, now / NANOSECONDS, lastCheckUnix);
      return !cooling;
    }

    /** The rest of it: busy, or off to checking. */
    method BeginChecking() returns (ok: bool)
      modifies `phase, `workers, `nextWorker
      ensures View() == DoBeginCheck(old(View())) && ok == IsIdlePhase(old(phase))
    {
      hide Allowed, Moved;
      if phase != Idle && phase != NoUpdate && phase != Updated && phase != Cancelled && phase != Failed
         && phase != RolledBack && phase != UpdateAvailable {
        return false;
      }
      SetState(Checking);
      var _ := Enter(Check);
      return true;
    }

    /** StartCheck: the clock first, then the state; a check that is allowed but busy still counts as a poll. */
    method StartCheck(manual: bool, now: int) returns (ok: bool)
      requires Valid()
      modifies this
      ensures Valid() && ok == (old(ClockAllows(manual, now)) && IsIdlePhase(old(phase)))
      ensures if old(ClockAllows(manual, now))
              then history == old(history) + [BeginCheck] && View() == DoBeginCheck(old(View())) && lastPoll == Some(now)
              else history == old(history) && View() == old(View()) && lastPoll == old(lastPoll)
      ensures lastCheckUnix == (if ok then now / NANOSECONDS else old(lastCheckUnix)) && failCount == old(failCount)
    {
      hide Reached, Accounts, ClockAllows, DoBeginCheck;
      var allowed := AskClock(manual, now);
      if !allowed {
        return false;
      }
      lastPoll := Some(now);
      ReachedOneMore(history, View(), BeginCheck, trusted);
      ok := BeginChecking();
      history := history + [BeginCheck];
      if ok {
        lastCheckUnix := now / NANOSECONDS;
      }
    }

    /** How a check's outcome counts against the cooldown: failed or untrusted adds one, a good one ends it. */
    function Counted(o: Outcome): nat
      reads this
    {
      if phase != Checking then failCount
      else
        match o
        case Nothing => failCount
        case CheckError => failCount + 1
        case Offer(rel, art) =>
          if !trusted(rel) then failCount + 1 else if art.None? || art.value !in rel.artifacts then failCount else 0
    }

    method EndChecking(w: nat, o: Outcome)
      requires w in workers && workers[w].Check?
      modifies `phase, `pending, `artifact, `staged, `disk, `verified, `failCount, `workers
      ensures View() == DoFinishCheck(old(View()), w, o, trusted) && failCount == old(Counted(o))
    {
      hide Reached, Accounts, Allowed, Moved, Settled;
      Leave(w);
      if phase != Checking {
        return;
      }
      match o
      case Nothing =>
        SetState(NoUpdate);
      case CheckError =>
        failCount := failCount + 1;
        SetState(Failed);
      case Offer(rel, art) =>
        Settle(rel, art);
    }

    /** The locked part of RunCheck. */
    method RunCheck(w: nat, o: Outcome)
      requires Valid() && w in workers && workers[w].Check?
      modifies this
      ensures Valid() && history == old(history) + [FinishCheck(w, o)] && failCount == old(Counted(o))
      ensures View() == DoFinishCheck(old(View()), w, o, trusted)
    {
      hide Reached, Accounts, Counted, DoFinishCheck;
      ReachedOneMore(history, View(), FinishCheck(w, o), trusted);
      EndChecking(w, o);
      history := history + [FinishCheck(w, o)];
    }

    /** What RunCheck does with an answer: trust it or not, find its artifact or not, announce it or not. */
    method Settle(rel: Release, art: Option<Artifact>)
      modifies `phase, `pending, `artifact, `staged, `disk, `verified, `failCount
      ensures View() == Settled(old(View()), rel, art, trusted)
      ensures failCount == if !trusted(rel) then old(failCount) + 1
                           else if art.None? || art.value !in rel.artifacts then old(failCount) else 0
    {
      hide Reached, Accounts, Allowed, Moved, Announced;
      if !trusted(rel) {
        failCount := failCount + 1;
        SetState(Failed);
        return;
      }
      verified := verified + {rel};
      if art.None? || art.value !in rel.artifacts {
        SetState(Failed);
        return;
      }
      Announce(rel, art);
      failCount := 0;
    }

    method Announce(rel: Release, art: Option<Artifact>)
      modifies `phase, `pending, `artifact, `staged, `disk
      ensures View() == Announced(old(View()), rel, art)
    {
      hide Reached, Accounts, Allowed, Moved;
      pending := Some(rel);
      artifact := art;
      RemoveStaged();
      SetState(if dismissed == rel.version then NoUpdate else UpdateAvailable);
    }

    // -------------------------------------------------------------- Download

    method BeginTransfer()
      modifies `phase, `canceller, `workers, `nextWorker
      ensures View() == DoBeginDownload(old(View()))
    {
      hide Reached, Accounts, Allowed, Moved;
      if phase != UpdateAvailable || pending.None? || artifact.None? {
        return;
      }
      SetState(Downloading);
      var w := Enter(Download(Fetching, artifact.value, false, false));
      canceller := Some(w);
    }

    /** Download up to the fetch. */
    method StartDownload()
      requires Valid()
      modifies this
      ensures Valid() && history == old(history) + [BeginDownload]
      ensures View() == DoBeginDownload(old(View()))
    {
      hide Reached, Accounts, DoBeginDownload;
      ReachedOneMore(history, View(), BeginDownload, trusted);
      BeginTransfer();
      history := history + [BeginDownload];
    }

    /** The fetch, without the lock: a new file, or none. */
    method FetchBytes(w: nat, bytes: Option<Bytes>)
      requires Valid() && w in workers && workers[w].Download? && workers[w].dpc.Fetching?
      modifies this
      ensures Valid() && history == old(history) + [Fetch(w, bytes)]
      ensures View() == DoFetch(old(View()), w, old(workers)[w], bytes)
    {
      hide Reached, Accounts;
      ReachedOneMore(history, View(), Fetch(w, bytes), trusted);
      history := history + [Fetch(w, bytes)];
      var d := workers[w];
      if bytes.None? {
        workers := workers[w := d.(dpc := Landed(None))];
        return;
      }
      workers := workers[w := d.(dpc := Landed(Some(disk.next)))];
      disk := disk.With(bytes.value);
    }

    method LandTransfer(w: nat, ctxDone: bool)
      requires w in workers && workers[w].Download? && workers[w].dpc.Landed?
      modifies `phase, `canceller, `workers, `disk
      ensures View() == DoAfterFetch(old(View()), w, old(workers)[w], ctxDone)
    {
      hide Reached, Accounts, Allowed, Moved;
      var d := workers[w];
      canceller := None;
      if d.dpc.path.None? {
        SetState(if ctxDone then Cancelled else Failed);
        Leave(w);
        return;
      }
      if phase != Downloading {
        Remove(d.dpc.path.value);
        Leave(w);
        return;
      }
      SetState(Verifying);
      workers := workers[w := d.(dpc := Hashing(d.dpc.path.value))];
    }

    /** Download once the bytes have landed, or have not. */
    method DownloadLanded(w: nat, ctxDone: bool)
      requires Valid() && w in workers && workers[w].Download? && workers[w].dpc.Landed?
      requires workers[w].cancelled ==> ctxDone
      modifies this
      ensures Valid() && history == old(history) + [AfterFetch(w, ctxDone)]
      ensures View() == DoAfterFetch(old(View()), w, old(workers)[w], ctxDone)
    {
      hide Reached, Accounts, DoAfterFetch;
      ReachedOneMore(history, View(), AfterFetch(w, ctxDone), trusted);
      LandTransfer(w, ctxDone);
      history := history + [AfterFetch(w, ctxDone)];
    }

    /** verifyStaged, without the lock. */
    method HashFile(w: nat)
      requires Valid() && w in workers && workers[w].Download? && workers[w].dpc.Hashing?
      modifies this
      ensures Valid() && history == old(history) + [Hash(w)]
      ensures View() == DoHash(old(View()), w, old(workers)[w])
    {
      hide Reached, Accounts;
      ReachedOneMore(history, View(), Hash(w), trusted);
      history := history + [Hash(w)];
      var d := workers[w];
      var f := d.dpc.file;
      var good := f in disk.files && Sha256(disk.files[f]) == d.art.sha;
      if !good {
        Remove(f);
      }
      workers := workers[w := d.(dpc := Hashed(f, good))];
    }

    /** Download once the hash is known. */
    method DownloadHashed(w: nat)
      requires Valid() && w in workers && workers[w].Download? && workers[w].dpc.Hashed?
      modifies this
      ensures Valid() && history == old(history) + [AfterHash(w)]
      ensures View() == DoAfterHash(old(View()), w, old(workers)[w])
    {
      hide Reached, Accounts, Allowed, Moved;
      ReachedOneMore(history, View(), AfterHash(w), trusted);
      history := history + [AfterHash(w)];
      var d := workers[w];
      Leave(w);
      if phase != Verifying {
        Remove(d.dpc.hashed);
        return;
      }
      if !d.dpc.good {
        SetState(Failed);
        return;
      }
      staged := Some(d.dpc.hashed);
      SetState(UpdateAvailable);
    }

    /** A download that nothing interrupts stages exactly the bytes that came, if they hash to the artifact's digest. */
    method DownloadUndisturbed(bytes: Bytes)
      requires Valid() && phase == UpdateAvailable && pending.Some? && artifact.Some?
      modifies this
      ensures Valid() && pending == old(pending) && artifact == old(artifact)
      ensures if Sha256(bytes) == old(artifact).value.sha
              then
                && phase == UpdateAvailable && staged.Some?
                && staged.value in disk.files && disk.files[staged.value] == bytes
              else phase == Failed && staged == old(staged) && disk.files == old(disk).files - {old(disk).next}
    {
      hide Reached, Accounts;
      var w := nextWorker;
      StartDownload();
      FetchBytes(w, Some(bytes));
      DownloadLanded(w, false);
      HashFile(w);
      DownloadHashed(w);
    }

    // -------------------------------------------------------------- Install

    method BeginAssembly()
      modifies `phase, `canceller, `workers, `nextWorker
      ensures View() == DoBeginInstall(old(View()))
    {
      hide Reached, Accounts, Allowed, Moved;
      if phase != UpdateAvailable || pending.None? || artifact.None? || staged.None? {
        return;
      }
      SetState(Staging);
      var w := Enter(Install(Assembling(artifact.value.kind, staged.value), pending.value.version, pending.value,
                             false, false));
      canceller := Some(w);
    }

    /** Install up to the assembly. */
    method StartInstall()
      requires Valid()
      modifies this
      ensures Valid() && history == old(history) + [BeginInstall]
      ensures View() == DoBeginInstall(old(View()))
    {
      hide Reached, Accounts, DoBeginInstall;
      ReachedOneMore(history, View(), BeginInstall, trusted);
      BeginAssembly();
      history := history + [BeginInstall];
    }

    /** The first half of Assemble, without the lock. */
    method UnpackTree(w: nat, ok: bool)
      requires Valid() && w in workers && workers[w].Install? && workers[w].ipc.Assembling?
      modifies this
      ensures Valid() && history == old(history) + [Unpack(w, ok)]
      ensures View() == DoUnpack(old(View()), w, old(workers)[w], ok)
    {
      hide Reached, Accounts, AfterFailure;
      ReachedOneMore(history, View(), Unpack(w, ok), trusted);
      history := history + [Unpack(w, ok)];
      var i := workers[w];
      var pc := AfterFailure(i, i.ipc.kind);
      if i.ver in stageRoot {
        pc := Deciding(Some(i.ver));
      } else if ok && i.ipc.file in disk.files {
        pc := Unpacked(i.ipc.kind, disk.files[i.ipc.file]);
      }
      workers := workers[w := i.(ipc := pc)];
    }

    /** The second half, its rename. */
    method PlaceTree(w: nat, ok: bool)
      requires Valid() && w in workers && workers[w].Install? && workers[w].ipc.Unpacked?
      modifies this
      ensures Valid() && history == old(history) + [Place(w, ok)]
      ensures View() == DoPlace(old(View()), w, old(workers)[w], ok)
    {
      hide Reached, Accounts, AfterFailure;
      ReachedOneMore(history, View(), Place(w, ok), trusted);
      history := history + [Place(w, ok)];
      var i := workers[w];
      if !ok || i.ver in stageRoot {
        workers := workers[w := i.(ipc := AfterFailure(i, i.ipc.source))];
        return;
      }
      stageRoot := stageRoot[i.ver := i.ipc.payload];
      workers := workers[w := i.(ipc := Deciding(Some(i.ver)))];
    }

    /** The fallback's fetch of the full artifact. */
    method RefetchBytes(w: nat, bytes: Option<Bytes>)
      requires Valid() && w in workers && workers[w].Install? && workers[w].ipc.Refetching?
      modifies this
      ensures Valid() && history == old(history) + [Refetch(w, bytes)]
      ensures View() == DoRefetch(old(View()), w, old(workers)[w], bytes)
    {
      hide Reached, Accounts;
      ReachedOneMore(history, View(), Refetch(w, bytes), trusted);
      history := history + [Refetch(w, bytes)];
      var i := workers[w];
      if bytes.None? {
        workers := workers[w := i.(ipc := Deciding(None))];
        return;
      }
      workers := workers[w := i.(ipc := Refetched(i.ipc.wanted, disk.next))];
      disk := disk.With(bytes.value);
    }

    /** And its verification. */
    method RehashFile(w: nat)
      requires Valid() && w in workers && workers[w].Install? && workers[w].ipc.Refetched?
      modifies this
      ensures Valid() && history == old(history) + [Rehash(w)]
      ensures View() == DoRehash(old(View()), w, old(workers)[w])
    {
      hide Reached, Accounts;
      ReachedOneMore(history, View(), Rehash(w), trusted);
      history := history + [Rehash(w)];
      var i := workers[w];
      var f := i.ipc.path;
      if f in disk.files && Sha256(disk.files[f]) == i.ipc.full.sha {
        workers := workers[w := i.(ipc := Rewriting(i.ipc.full, f))];
        return;
      }
      Remove(f);
      workers := workers[w := i.(ipc := Deciding(None))];
    }

    /** The fallback's short section: nothing is checked again. */
    method FallBack(w: nat)
      requires Valid() && w in workers && workers[w].Install? && workers[w].ipc.Rewriting?
      modifies this
      ensures Valid() && history == old(history) + [Rewrite(w)]
      ensures View() == DoRewrite(old(View()), w, old(workers)[w])
    {
      hide Reached, Accounts;
      ReachedOneMore(history, View(), Rewrite(w), trusted);
      history := history + [Rewrite(w)];
      var i := workers[w];
      staged := Some(i.ipc.verified);
      artifact := Some(i.ipc.chosen);
      workers := workers[w := i.(ipc := Assembling(Full, i.ipc.verified))];
    }

    /** The user backed out while the tree was being assembled: drop it, and what is staged. */
    method BackOut(dir: Option<Bytes>)
      modifies `stageRoot, `disk, `staged
      ensures stageRoot == if dir.Some? then old(stageRoot) - {dir.value} else old(stageRoot)
      ensures staged == None
      ensures disk == if old(staged).Some? then old(disk).Without(old(staged).value) else old(disk)
    {
      if dir.Some? {
        stageRoot := stageRoot - {dir.value};
      }
      RemoveStaged();
    }

    /**
     * handoff and what follows it: the contract is written, then the updater started; when that fails
     * the contract is withdrawn. An updater is never started without its contract just written.
     */
    method HandOff(dir: Bytes, ver: Bytes, spawnOk: bool)
      requires Accounts(effects, contract, spawned)
      modifies `phase, `contract, `spawned, `effects
      ensures Accounts(effects, contract, spawned)
      ensures effects == old(effects) + [Wrote(ver)] + [if spawnOk then Started(ver) else Withdrew]
      ensures phase == Moved(Moved(old(phase), Installing), if spawnOk then Restarting else Failed)
      ensures contract == if spawnOk then Some(ver) else None
      ensures spawned == if spawnOk
                then old(spawned) + [Handoff(ver, if dir in stageRoot then Some(stageRoot[dir]) else None)]
                else old(spawned)
    {
      hide Allowed, Moved, Accounts;
      var h := Handoff(ver, if dir in stageRoot then Some(stageRoot[dir]) else None);
      SetState(Installing);
      Writes(effects, contract, spawned, ver);
      contract := Some(ver);
      effects := effects + [Wrote(ver)];
      if !spawnOk {
        Withdraws(effects, contract, spawned);
        contract := None;
        effects := effects + [Withdrew];
        SetState(Failed);
        return;
      }
      Starts(effects, contract, spawned, h);
      spawned := spawned + [h];
      effects := effects + [Started(ver)];
      SetState(Restarting);
    }

    method EndAssembly(w: nat, spawnOk: bool)
      requires w in workers && workers[w].Install? && workers[w].ipc.Deciding? && Accounts(effects, contract, spawned)
      modifies `phase, `canceller, `staged, `disk, `stageRoot, `contract, `spawned, `effects, `workers
      ensures View() == DoDecide(old(View()), w, old(workers)[w], spawnOk)
      ensures Accounts(effects, contract, spawned)
    {
      hide Reached, Accounts, Allowed, Moved;
      var i := workers[w];
      Leave(w);
      canceller := None;
      if phase != Staging {
        BackOut(i.ipc.dir);
        return;
      }
      if i.ipc.dir.None? {
        SetState(Failed);
        return;
      }
      HandOff(i.ipc.dir.value, i.ver, spawnOk);
    }

    /** Install once assembly is over. */
    method InstallAssembled(w: nat, spawnOk: bool)
      requires Valid() && w in workers && workers[w].Install? && workers[w].ipc.Deciding?
      modifies this
      ensures Valid() && history == old(history) + [Decide(w, spawnOk)]
      ensures View() == DoDecide(old(View()), w, old(workers)[w], spawnOk)
    {
      hide Reached, Accounts, DoDecide;
      ReachedOneMore(history, View(), Decide(w, spawnOk), trusted);
      EndAssembly(w, spawnOk);
      history := history + [Decide(w, spawnOk)];
    }

    /** An install that nothing interrupts starts the updater on exactly the staged bytes, its contract written first. */
    method InstallUndisturbed()
      requires Valid() && phase == UpdateAvailable && pending.Some? && artifact.Some?
      requires staged.Some? && staged.value in disk.files && pending.value.version !in stageRoot
      modifies this
      ensures Valid() && phase == Restarting && contract == Some(old(pending).value.version)
      ensures stageRoot == old(stageRoot)[old(pending).value.version := old(disk).files[old(staged).value]]
      ensures spawned == old(spawned) + [Handoff(old(pending).value.version, Some(old(disk).files[old(staged).value]))]
    {
      hide Reached, Accounts;
      var w := nextWorker;
      StartInstall();
      UnpackTree(w, true);
      PlaceTree(w, true);
      InstallAssembled(w, true);
    }

    /** The fallback of an install, with bytes that hash to the full artifact it wants: they become the staged file. */
    method TakeFull(w: nat, bytes: Bytes)
      requires Valid() && w in workers && workers[w].Install? && workers[w].ipc.Refetching?
      requires workers[w].ipc.wanted.sha == Sha256(bytes)
      modifies this
      ensures Valid()
      ensures View() == old(View()).(
                staged := Some(old(disk).next), artifact := Some(old(workers)[w].ipc.wanted), disk := old(disk).With(bytes),
                workers := old(workers)[w := old(workers)[w].(ipc := Assembling(Full, old(disk).next))])
    {
      hide Reached, Accounts;
      RefetchBytes(w, Some(bytes));
      RehashFile(w);
      FallBack(w);
    }

    /** An install whose delta cannot be applied starts the updater on the full artifact of the same release instead. */
    method InstallFallsBack(bytes: Bytes)
      requires Valid() && phase == UpdateAvailable && pending.Some? && artifact.Some? && artifact.value.kind == Delta
      requires staged.Some? && pending.value.version !in stageRoot
      requires var full := FirstFull(pending.value.artifacts); full.Some? && full.value.sha == Sha256(bytes)
      modifies this
      ensures Valid() && phase == Restarting && contract == Some(old(pending).value.version)
      ensures artifact == FirstFull(old(pending).value.artifacts)
      ensures stageRoot == old(stageRoot)[old(pending).value.version := bytes]
      ensures spawned == old(spawned) + [Handoff(old(pending).value.version, Some(bytes))]
    {
      hide Reached, Accounts, FirstFull, DoRefetch, DoRehash, DoRewrite;
      var w := nextWorker;
      StartInstall();
      UnpackTree(w, false);
      TakeFull(w, bytes);
      UnpackTree(w, true);
      PlaceTree(w, true);
      InstallAssembled(w, true);
    }

    // -------------------------------------------------------------- from outside

    /** The context that m.cancel ends is gone for its worker. */
    method MarkCancelled()
      modifies `canceller, `workers
      ensures canceller == None
      ensures workers == map w | w in old(workers) :: CancelWorker(old(View()), w, old(workers)[w])
    {
      hide *;
      workers := map w | w in workers :: CancelWorker(View(), w, workers[w]);
      canceller := None;
    }

    method EndContext()
      requires Accounts(effects, contract, spawned)
      modifies `phase, `canceller, `contract, `effects, `workers
      ensures View() == DoCancel(old(View()))
      ensures Accounts(effects, contract, spawned)
    {
      hide Reached, Accounts, Allowed, Moved, CancelWorker;
      MarkCancelled();
      if phase == Downloading || phase == Verifying || phase == Staging || phase == Checking {
        SetState(Cancelled);
      } else if phase == Restarting {
        Withdraws(effects, contract, spawned);
        effects := effects + [Withdrew];
        contract := None;
        SetState(Cancelled);
      }
    }

    /** m.cancel() ends one context; the switch then moves the phase. */
    method Abort()
      requires Valid()
      modifies this
      ensures Valid() && history == old(history) + [Cancel] && View() == DoCancel(old(View()))
    {
      hide Reached, Accounts, DoCancel;
      ReachedOneMore(history, View(), Cancel, trusted);
      EndContext();
      history := history + [Cancel];
    }

    method DismissUpdate()
      requires Valid()
      modifies this
      ensures Valid() && history == old(history) + [Dismiss] && View() == DoDismiss(old(View()))
    {
      hide Reached, Accounts, Allowed, Moved;
      ReachedOneMore(history, View(), Dismiss, trusted);
      history := history + [Dismiss];
      if phase != UpdateAvailable || pending.None? {
        return;
      }
      dismissed := pending.value.version;
      SetState(Idle);
    }

    /** onUpdaterExit with an error. */
    method UpdaterFailed()
      requires Valid()
      modifies this
      ensures Valid() && history == old(history) + [UpdaterExited] && View() == DoUpdaterExited(old(View()))
    {
      hide Reached, Accounts, Allowed, Moved;
      ReachedOneMore(history, View(), UpdaterExited, trusted);
      history := history + [UpdaterExited];
      if phase != Restarting {
        return;
      }
      if contract.None? {
        return;
      }
      SetState(Failed);
    }
  }
}
