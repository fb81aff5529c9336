/**
 * The update manager as an interleaved state machine. Each action is one critical section of a
 * worker, or the unlocked work between two of them; Cancel, Dismiss and checks may run in between.
 */
module UpdateManager {
  import opened Text

  // ---------------------------------------------------------------- lifecycle

  datatype Phase =
    | Idle | Checking | NoUpdate | UpdateAvailable | Downloading | Verifying | Staging
    | Installing | Restarting | Updated | Cancelled | Failed | RolledBack

  /** The table of legal transitions. */
  predicate Allowed(from: Phase, to: Phase) {
    match from
    case Idle => to == Checking || to == Updated || to == Failed
    case Checking => to == NoUpdate || to == UpdateAvailable || to == Failed || to == Cancelled
    case NoUpdate => to == Checking
    case UpdateAvailable => to == Downloading || to == Staging || to == Checking || to == Cancelled || to == Idle
    case Downloading => to == Verifying || to == Failed || to == Cancelled
    case Verifying => to == Staging || to == UpdateAvailable || to == Failed || to == Cancelled
    case Staging => to == Installing || to == Failed || to == Cancelled
    case Installing => to == Restarting || to == Failed || to == RolledBack
    case Restarting => to == Updated || to == Failed || to == RolledBack || to == Cancelled
    case Updated => to == Checking
    case Cancelled => to == Checking || to == Idle
    case Failed => to == Checking || to == Idle
    case RolledBack => to == Checking || to == Idle
  }

  /** setState: an illegal transition is refused and the phase stays. */
  function Moved(from: Phase, to: Phase): Phase { if Allowed(from, to) then to else from }

  // ---------------------------------------------------------------- releases

  datatype Kind = Full | Delta
  datatype Artifact = Artifact(kind: Kind, sha: Digest)
  datatype Release = Release(version: Bytes, artifacts: seq<Artifact>)

  /** fullArtifactOf: the first full artifact of the list. */
  function FirstFull(artifacts: seq<Artifact>): (a: Option<Artifact>)
    ensures a.Some? ==> a.value in artifacts && a.value.kind == Full
  {
    if artifacts == [] then None
    else if artifacts[0].kind == Full then Some(artifacts[0])
    else FirstFull(artifacts[1..])
  }

  // ---------------------------------------------------------------- state

  datatype DownloadPc =
    | Fetching                          // bytes are landing, unlocked
    | Landed(path: Option<nat>)         // the fetch returned, before taking the lock
    | Hashing(file: nat)                // verifying, unlocked
    | Hashed(hashed: nat, good: bool)   // hash known, before taking the lock

  datatype InstallPc =
    | Assembling(kind: Kind, file: nat)                // about to unpack
    | Unpacked(source: Kind, payload: Bytes)           // tree built, before the rename
    | Refetching(wanted: Artifact)                     // fetching the full artifact instead
    | Refetched(full: Artifact, path: nat)             // it landed, not yet hashed
    | Rewriting(chosen: Artifact, verified: nat)       // it is verified, before taking the lock
    | Deciding(dir: Option<Bytes>)                     // assembly over (None: it failed), before the lock

  /**
   * A goroutine inside RunCheck, Download or Install. `cancelled` is its context; `aborted` records
   * that a Cancel took effect while the manager was in one of this worker's phases.
   */
  datatype Worker =
    | Check
    | Download(dpc: DownloadPc, art: Artifact, cancelled: bool, aborted: bool)
    | Install(ipc: InstallPc, ver: Bytes, rel: Release, cancelled: bool, aborted: bool)

  /** What the updater was started with: the version and the bytes its staged tree was built from. */
  datatype Handoff = Handoff(version: Bytes, payload: Option<Bytes>)

  /** The download directory: files by name, and the next unused name. */
  datatype Downloads = Downloads(files: map<nat, Bytes>, next: nat) {
    function Without(f: nat): Downloads { Downloads(files - {f}, next) }
    function With(bytes: Bytes): Downloads { Downloads(files[next := bytes], next + 1) }
  }

  datatype State = State(
    phase: Phase,
    pending: Option<Release>,
    artifact: Option<Artifact>,
    staged: Option<nat>,
    canceller: Option<nat>,            // the worker whose context m.cancel ends
    dismissed: Bytes,
    disk: Downloads,
    stageRoot: map<Bytes, Bytes>,      // versions/<v> -> the bytes it was assembled from
    contract: Option<Bytes>,           // pending.json
    spawned: seq<Handoff>,
    workers: map<nat, Worker>,
    nextWorker: nat,
    verified: set<Release>)            // manifests that have passed VerifyManifest

  const INITIAL := State(Idle, None, None, None, None, [], Downloads(map[], 0), map[], None, [], map[], 0, {})

  // ---------------------------------------------------------------- actions

  datatype Outcome = Nothing | CheckError | Offer(rel: Release, art: Option<Artifact>)

  datatype Action =
    | BeginCheck
    | FinishCheck(w: nat, outcome: Outcome)
    | BeginDownload
    | Fetch(w: nat, bytes: Option<Bytes>)
    | AfterFetch(w: nat, ctxDone: bool)
    | Hash(w: nat)
    | AfterHash(w: nat)
    | BeginInstall
    | Unpack(w: nat, ok: bool)
    | Place(w: nat, ok: bool)
    | Refetch(w: nat, bytes: Option<Bytes>)
    | Rehash(w: nat)
    | Rewrite(w: nat)
    | Decide(w: nat, spawnOk: bool)
    | Cancel
    | Dismiss
    | UpdaterExited
    | UpdaterCleaned(ver: Bytes)
    | Restart(seed: Option<(Bytes, bool)>)

  function DropFile(s: State, f: nat): State { s.(disk := s.disk.Without(f)) }

  function DropStaged(s: State): State {
    if s.staged.None? then s else s.(disk := s.disk.Without(s.staged.value), staged := None)
  }

  function AddFile(s: State, bytes: Bytes): State { s.(disk := s.disk.With(bytes)) }

  function SetWorker(s: State, w: nat, v: Worker): State { s.(workers := s.workers[w := v]) }

  function EndWorker(s: State, w: nat): State { s.(workers := s.workers - {w}) }

  function AddWorker(s: State, v: Worker): State {
    s.(workers := s.workers[s.nextWorker := v], nextWorker := s.nextWorker + 1)
  }

  predicate IsIdlePhase(p: Phase) {
    p == Idle || p == NoUpdate || p == Updated || p == Cancelled || p == Failed || p == RolledBack || p == UpdateAvailable
  }

  /** StartCheck, once its clock guards let it through. */
  function DoBeginCheck(s: State): State {
    if !IsIdlePhase(s.phase) then s else AddWorker(s.(phase := Moved(s.phase, Checking)), Check)
  }

  /** RunCheck after the provider answered; `trusted` is VerifyManifest, any artifact may be selected. */
  function DoFinishCheck(s: State, w: nat, o: Outcome, trusted: Release -> bool): State {
    var t := EndWorker(s, w);
    if s.phase != Checking then t
    else match o
      case Nothing => t.(phase := Moved(t.phase, NoUpdate))
      case CheckError => t.(phase := Moved(t.phase, Failed))
      case Offer(rel, art) => Settled(t, rel, art, trusted)
  }

  /** An answer is trusted or not, and has a fitting artifact or not. */
  function Settled(s: State, rel: Release, art: Option<Artifact>, trusted: Release -> bool): State {
    if !trusted(rel) then s.(phase := Moved(s.phase, Failed))
    else
      var known := s.(verified := s.verified + {rel});
      if art.None? || art.value !in rel.artifacts then known.(phase := Moved(s.phase, Failed))
      else Announced(known, rel, art)
  }

  /** The update becomes the selected one, unless it was dismissed announced as available. */
  function Announced(s: State, rel: Release, art: Option<Artifact>): State {
    DropStaged(s).(
      pending := Some(rel), artifact := art,
      phase := Moved(s.phase, if s.dismissed == rel.version then NoUpdate else UpdateAvailable))
  }

  function DoBeginDownload(s: State): State {
    if s.phase != UpdateAvailable || s.pending.None? || s.artifact.None? then s
    else AddWorker(s.(phase := Moved(s.phase, Downloading), canceller := Some(s.nextWorker)),
                   Download(Fetching, s.artifact.value, false, false))
  }

  function DoFetch(s: State, w: nat, d: Worker, bytes: Option<Bytes>): State
    requires d.Download?
  {
    if bytes.None? then SetWorker(s, w, d.(dpc := Landed(None)))
    else SetWorker(AddFile(s, bytes.value), w, d.(dpc := Landed(Some(s.disk.next))))
  }

  function DoAfterFetch(s: State, w: nat, d: Worker, ctxDone: bool): State
    requires d.Download? && d.dpc.Landed?
  {
    var t := EndWorker(s, w).(canceller := None);
    if d.dpc.path.None? then t.(phase := Moved(s.phase, if ctxDone then Cancelled else Failed))
    else if s.phase != Downloading then DropFile(t, d.dpc.path.value)
    else SetWorker(s.(phase := Moved(s.phase, Verifying), canceller := None), w, d.(dpc := Hashing(d.dpc.path.value)))
  }

  /** verifyStaged: a file that does not match is removed. */
  function DoHash(s: State, w: nat, d: Worker): State
    requires d.Download? && d.dpc.Hashing?
  {
    var f := d.dpc.file;
    var good := f in s.disk.files && Sha256(s.disk.files[f]) == d.art.sha;
    SetWorker(if good then s else DropFile(s, f), w, d.(dpc := Hashed(f, good)))
  }

  function DoAfterHash(s: State, w: nat, d: Worker): State
    requires d.Download? && d.dpc.Hashed?
  {
    var t := EndWorker(s, w);
    if s.phase != Verifying then DropFile(t, d.dpc.hashed)
    else if !d.dpc.good then t.(phase := Moved(s.phase, Failed))
    else t.(staged := Some(d.dpc.hashed), phase := Moved(s.phase, UpdateAvailable))
  }

  function DoBeginInstall(s: State): State {
    if s.phase != UpdateAvailable || s.pending.None? || s.artifact.None? || s.staged.None? then s
    else AddWorker(s.(phase := Moved(s.phase, Staging), canceller := Some(s.nextWorker)),
                   Install(Assembling(s.artifact.value.kind, s.staged.value), s.pending.value.version,
                           s.pending.value, false, false))
  }

  /** Where an install goes when assembling from an artifact of this kind has failed. */
  function AfterFailure(i: Worker, kind: Kind): InstallPc
    requires i.Install?
  {
    var full := FirstFull(i.rel.artifacts);
    if kind == Delta && full.Some? && !i.cancelled then Refetching(full.value) else Deciding(None)
  }

  /** The first half of Assemble: an existing tree is taken as it is, otherwise the artifact is unpacked. */
  function DoUnpack(s: State, w: nat, i: Worker, ok: bool): State
    requires i.Install? && i.ipc.Assembling?
  {
    var f := i.ipc.file;
    SetWorker(s, w, i.(ipc :=
      if i.ver in s.stageRoot then Deciding(Some(i.ver))
      else if ok && f in s.disk.files then Unpacked(i.ipc.kind, s.disk.files[f])
      else AfterFailure(i, i.ipc.kind)))
  }

  /** The second half: the rename, which fails onto an existing tree. */
  function DoPlace(s: State, w: nat, i: Worker, ok: bool): State
    requires i.Install? && i.ipc.Unpacked?
  {
    if ok && i.ver !in s.stageRoot then
      SetWorker(s.(stageRoot := s.stageRoot[i.ver := i.ipc.payload]), w, i.(ipc := Deciding(Some(i.ver))))
    else SetWorker(s, w, i.(ipc := AfterFailure(i, i.ipc.source)))
  }

  function DoRefetch(s: State, w: nat, i: Worker, bytes: Option<Bytes>): State
    requires i.Install? && i.ipc.Refetching?
  {
    if bytes.None? then SetWorker(s, w, i.(ipc := Deciding(None)))
    else SetWorker(AddFile(s, bytes.value), w, i.(ipc := Refetched(i.ipc.wanted, s.disk.next)))
  }

  function DoRehash(s: State, w: nat, i: Worker): State
    requires i.Install? && i.ipc.Refetched?
  {
    var f := i.ipc.path;
    if f in s.disk.files && Sha256(s.disk.files[f]) == i.ipc.full.sha then SetWorker(s, w, i.(ipc := Rewriting(i.ipc.full, f)))
    else SetWorker(DropFile(s, f), w, i.(ipc := Deciding(None)))
  }

  /** The fallback writes the staged file and the artifact without looking at the phase. */
  function DoRewrite(s: State, w: nat, i: Worker): State
    requires i.Install? && i.ipc.Rewriting?
  {
    SetWorker(s.(staged := Some(i.ipc.verified), artifact := Some(i.ipc.chosen)), w,
              i.(ipc := Assembling(Full, i.ipc.verified)))
  }

  /** The last critical section of Install: back out, fail, or hand off to the updater. */
  function DoDecide(s: State, w: nat, i: Worker, spawnOk: bool): State
    requires i.Install? && i.ipc.Deciding?
  {
    var t := EndWorker(s, w).(canceller := None);
    if s.phase != Staging then
      DropStaged(if i.ipc.dir.Some? then t.(stageRoot := t.stageRoot - {i.ipc.dir.value}) else t)
    else if i.ipc.dir.None? then t.(phase := Moved(s.phase, Failed))
    else
      var installing := Moved(s.phase, Installing);
      if !spawnOk then t.(contract := None, phase := Moved(installing, Failed))
      else
        var tree := if i.ipc.dir.value in s.stageRoot then Some(s.stageRoot[i.ipc.dir.value]) else None;
        t.(contract := Some(i.ver), spawned := s.spawned + [Handoff(i.ver, tree)], phase := Moved(installing, Restarting))
  }

  predicate InPhaseOf(p: Phase, v: Worker) {
    match v
    case Check => false
    case Download(_, _, _, _) => p == Downloading || p == Verifying
    case Install(_, _, _, _, _) => p == Staging
  }

  /** The effect of a Cancel on one worker: its context ends if m.cancel is its own. */
  function CancelWorker(s: State, w: nat, v: Worker): Worker {
    var hit := s.canceller == Some(w);
    match v
    case Check => Check
    case Download(pc, art, c, a) => Download(pc, art, c || hit, a || InPhaseOf(s.phase, v))
    case Install(pc, ver, rel, c, a) => Install(pc, ver, rel, c || hit, a || InPhaseOf(s.phase, v))
  }

  /** The phases a Cancel leads straight to Cancelled from. */
  predicate IsBusyPhase(p: Phase) { p == Downloading || p == Verifying || p == Staging || p == Checking }

  function DoCancel(s: State): State {
    var t := s.(canceller := None, workers := map w | w in s.workers :: CancelWorker(s, w, s.workers[w]));
    if IsBusyPhase(s.phase) then t.(phase := Moved(s.phase, Cancelled))
    else if s.phase == Restarting then t.(contract := None, phase := Moved(s.phase, Cancelled))
    else t
  }

  function DoDismiss(s: State): State {
    if s.phase != UpdateAvailable || s.pending.None? then s
    else s.(dismissed := s.pending.value.version, phase := Moved(s.phase, Idle))
  }

  /** onUpdaterExit with an error. */
  function DoUpdaterExited(s: State): State {
    if s.phase == Restarting && s.contract.Some? then s.(phase := Moved(s.phase, Failed)) else s
  }

  /** The daemon dies and comes back: memory is lost, disk stays, a consumed report seeds one announcement. */
  function DoRestart(s: State, seed: Option<(Bytes, bool)>): State {
    var t := s.(phase := Idle, pending := None, artifact := None, staged := None, canceller := None,
                workers := map[], contract := None);
    match seed
    case None => t
    case Some((ver, ok)) => t.(pending := Some(Release(ver, [])), phase := Moved(Idle, if ok then Updated else Failed))
  }

  /** Which actions can happen: the worker is there, at the right place. */
  predicate Enabled(s: State, a: Action) {
    match a
    case FinishCheck(w, _) => w in s.workers && s.workers[w].Check?
    case Fetch(w, _) => w in s.workers && s.workers[w].Download? && s.workers[w].dpc.Fetching?
    case AfterFetch(w, ctxDone) =>
      && w in s.workers && s.workers[w].Download? && s.workers[w].dpc.Landed? && (s.workers[w].cancelled ==> ctxDone)
    case Hash(w) => w in s.workers && s.workers[w].Download? && s.workers[w].dpc.Hashing?
    case AfterHash(w) => w in s.workers && s.workers[w].Download? && s.workers[w].dpc.Hashed?
    case Unpack(w, _) => w in s.workers && s.workers[w].Install? && s.workers[w].ipc.Assembling?
    case Place(w, _) => w in s.workers && s.workers[w].Install? && s.workers[w].ipc.Unpacked?
    case Refetch(w, _) => w in s.workers && s.workers[w].Install? && s.workers[w].ipc.Refetching?
    case Rehash(w) => w in s.workers && s.workers[w].Install? && s.workers[w].ipc.Refetched?
    case Rewrite(w) => w in s.workers && s.workers[w].Install? && s.workers[w].ipc.Rewriting?
    case Decide(w, _) => w in s.workers && s.workers[w].Install? && s.workers[w].ipc.Deciding?
    case _ => true
  }

  function Next(s: State, a: Action, trusted: Release -> bool): State
    requires Enabled(s, a)
  {
    match a
    case BeginCheck => DoBeginCheck(s)
    case FinishCheck(w, o) => DoFinishCheck(s, w, o, trusted)
    case BeginDownload => DoBeginDownload(s)
    case Fetch(w, bytes) => DoFetch(s, w, s.workers[w], bytes)
    case AfterFetch(w, ctxDone) => DoAfterFetch(s, w, s.workers[w], ctxDone)
    case Hash(w) => DoHash(s, w, s.workers[w])
    case AfterHash(w) => DoAfterHash(s, w, s.workers[w])
    case BeginInstall => DoBeginInstall(s)
    case Unpack(w, ok) => DoUnpack(s, w, s.workers[w], ok)
    case Place(w, ok) => DoPlace(s, w, s.workers[w], ok)
    case Refetch(w, bytes) => DoRefetch(s, w, s.workers[w], bytes)
    case Rehash(w) => DoRehash(s, w, s.workers[w])
    case Rewrite(w) => DoRewrite(s, w, s.workers[w])
    case Decide(w, spawnOk) => DoDecide(s, w, s.workers[w], spawnOk)
    case Cancel => DoCancel(s)
    case Dismiss => DoDismiss(s)
    case UpdaterExited => DoUpdaterExited(s)
    case UpdaterCleaned(ver) => s.(stageRoot := s.stageRoot - {ver})
    case Restart(seed) => DoRestart(s, seed)
  }

  /** A run: actions taken one after the other from a state, each enabled where it is taken. */
  ghost predicate IsRun(s: State, actions: seq<Action>, trusted: Release -> bool)
    decreases |actions|
  {
    actions != [] ==> Enabled(s, actions[0]) && IsRun(Next(s, actions[0], trusted), actions[1..], trusted)
  }

  ghost function Run(s: State, actions: seq<Action>, trusted: Release -> bool): State
    requires IsRun(s, actions, trusted)
    decreases |actions|
  {
    if actions == [] then s else Run(Next(s, actions[0], trusted), actions[1..], trusted)
  }

  // ---------------------------------------------------------------- provenance

  /** The artifact is one a verified manifest names. */
  ghost predicate Known(verified: set<Release>, a: Artifact) { exists r :: r in verified && a in r.artifacts }

  /** The bytes hash to an artifact of a verified manifest. */
  ghost predicate Genuine(verified: set<Release>, bytes: Bytes) {
    exists a :: Known(verified, a) && a.sha == Sha256(bytes)
  }

  /** A file name handed out already; if the file is still there, it is genuine. */
  ghost predicate GenuineFile(verified: set<Release>, d: Downloads, f: nat) {
    f < d.next && (f in d.files ==> Genuine(verified, d.files[f]))
  }

  ghost predicate DownloadGenuine(verified: set<Release>, d: Downloads, pc: DownloadPc) {
    match pc
    case Fetching => true
    case Landed(path) => path.Some? ==> path.value < d.next
    case Hashing(f) => f < d.next
    case Hashed(f, good) => f < d.next && (good ==> GenuineFile(verified, d, f))
  }

  ghost predicate InstallGenuine(verified: set<Release>, d: Downloads, pc: InstallPc, rel: Release) {
    match pc
    case Assembling(_, f) => GenuineFile(verified, d, f)
    case Unpacked(_, payload) => Genuine(verified, payload)
    case Refetching(full) => full in rel.artifacts
    case Refetched(full, f) => full in rel.artifacts && f < d.next
    case Rewriting(full, f) => full in rel.artifacts && GenuineFile(verified, d, f)
    case Deciding(_) => true
  }

  ghost predicate WorkerGenuine(verified: set<Release>, d: Downloads, v: Worker) {
    match v
    case Check => true
    case Download(pc, art, _, _) => Known(verified, art) && DownloadGenuine(verified, d, pc)
    case Install(pc, _, rel, _, _) => rel in verified && InstallGenuine(verified, d, pc, rel)
  }

  ghost predicate WorkersGenuine(verified: set<Release>, d: Downloads, ws: map<nat, Worker>) {
    forall w :: w in ws ==> WorkerGenuine(verified, d, ws[w])
  }

  ghost predicate TreesGenuine(verified: set<Release>, stageRoot: map<Bytes, Bytes>) {
    forall v :: v in stageRoot ==> Genuine(verified, stageRoot[v])
  }

  ghost predicate HandoffsGenuine(verified: set<Release>, spawned: seq<Handoff>) {
    forall h :: h in spawned && h.payload.Some? ==> Genuine(verified, h.payload.value)
  }

  /** No file bears a name not yet handed out. */
  predicate NamesUsed(d: Downloads) { forall f :: f in d.files ==> f < d.next }

  /** The release and artifact the manager would act on. */
  ghost predicate SelectionGenuine(s: State) {
    && (s.artifact.Some? ==> Known(s.verified, s.artifact.value))
    && (s.artifact.Some? || HasInstall(s.workers) ==> s.pending.Some? && s.pending.value in s.verified)
    && (s.staged.Some? ==> GenuineFile(s.verified, s.disk, s.staged.value))
  }

  predicate HasInstall(ws: map<nat, Worker>) { exists w :: w in ws && ws[w].Install? }

  /** Everything the manager builds on comes from a verified manifest. */
  ghost predicate Provenance(s: State) {
    && NamesUsed(s.disk) && SelectionGenuine(s)
    && TreesGenuine(s.verified, s.stageRoot)
    && HandoffsGenuine(s.verified, s.spawned)
    && WorkersGenuine(s.verified, s.disk, s.workers)
  }

  /** The second disk is a later one: more verified manifests, no old name rewritten. */
  ghost predicate Later(v: set<Release>, d: Downloads, v': set<Release>, d': Downloads) {
    && v <= v' && d.next <= d'.next
    && forall f :: f in d'.files && f < d.next ==> f in d.files && d'.files[f] == d.files[f]
  }

  lemma DiskMoves(v: set<Release>, d: Downloads, f: nat, bytes: Bytes)
    requires NamesUsed(d)
    ensures Later(v, d, v, d) && Later(v, d, v, d.Without(f)) && Later(v, d, v, d.With(bytes))
    ensures NamesUsed(d.Without(f)) && NamesUsed(d.With(bytes))
  {
  }

  lemma LaterKnown(v: set<Release>, v': set<Release>, a: Artifact)
    requires v <= v' && Known(v, a)
    ensures Known(v', a)
  {
  }

  lemma LaterGenuine(v: set<Release>, v': set<Release>, bytes: Bytes)
    requires v <= v' && Genuine(v, bytes)
    ensures Genuine(v', bytes)
  {
    var a :| Known(v, a) && a.sha == Sha256(bytes);
    LaterKnown(v, v', a);
  }

  lemma LaterFile(v: set<Release>, d: Downloads, v': set<Release>, d': Downloads, f: nat)
    requires Later(v, d, v', d') && GenuineFile(v, d, f)
    ensures GenuineFile(v', d', f)
  {
    hide Genuine;
    if f in d'.files {
      LaterGenuine(v, v', d.files[f]);
    }
  }

  lemma LaterWorker(v: set<Release>, d: Downloads, v': set<Release>, d': Downloads, x: Worker)
    requires Later(v, d, v', d') && WorkerGenuine(v, d, x)
    ensures WorkerGenuine(v', d', x)
  {
    hide Known, Genuine, GenuineFile;
    forall f: nat | GenuineFile(v, d, f) ensures GenuineFile(v', d', f) { LaterFile(v, d, v', d', f); }
    if x.Download? { LaterKnown(v, v', x.art); }
    if x.Install? && x.ipc.Unpacked? { LaterGenuine(v, v', x.ipc.payload); }
  }

  lemma LaterWorkers(v: set<Release>, d: Downloads, v': set<Release>, d': Downloads, ws: map<nat, Worker>)
    requires Later(v, d, v', d') && WorkersGenuine(v, d, ws)
    ensures WorkersGenuine(v', d', ws)
  {
    hide WorkerGenuine, Later;
    forall w | w in ws ensures WorkerGenuine(v', d', ws[w]) { LaterWorker(v, d, v', d', ws[w]); }
  }

  lemma LaterOutputs(v: set<Release>, v': set<Release>, stageRoot: map<Bytes, Bytes>, spawned: seq<Handoff>)
    requires v <= v' && TreesGenuine(v, stageRoot) && HandoffsGenuine(v, spawned)
    ensures TreesGenuine(v', stageRoot) && HandoffsGenuine(v', spawned)
  {
    hide Genuine;
    forall x | x in stageRoot ensures Genuine(v', stageRoot[x]) { LaterGenuine(v, v', stageRoot[x]); }
    forall h | h in spawned && h.payload.Some? ensures Genuine(v', h.payload.value) {
      LaterGenuine(v, v', h.payload.value);
    }
  }

  lemma WorkerSet(v: set<Release>, d: Downloads, ws: map<nat, Worker>, w: nat, x: Worker)
    requires WorkersGenuine(v, d, ws)
    ensures WorkersGenuine(v, d, ws - {w})
    ensures WorkerGenuine(v, d, x) ==> WorkersGenuine(v, d, ws[w := x])
    ensures HasInstall(ws - {w}) ==> HasInstall(ws)
    ensures HasInstall(ws[w := x]) ==> HasInstall(ws) || x.Install?
    ensures w in ws && ws[w].Install? ==> HasInstall(ws)
  {
    hide WorkerGenuine;
    if HasInstall(ws - {w}) { var y :| y in ws - {w} && (ws - {w})[y].Install?; assert ws[y].Install?; }
    if HasInstall(ws[w := x]) && !x.Install? {
      var y :| y in ws[w := x] && ws[w := x][y].Install?;
      assert ws[y].Install?;
    }
  }

  lemma WorkerAt(v: set<Release>, d: Downloads, ws: map<nat, Worker>, w: nat)
    requires WorkersGenuine(v, d, ws) && w in ws
    ensures WorkerGenuine(v, d, ws[w])
  {
  }

  /** Memory is as genuine as before when nothing of it changed and the disk only grew later. */
  lemma SelectionStays(s: State, t: State)
    requires SelectionGenuine(s) && Later(s.verified, s.disk, t.verified, t.disk)
    requires t.pending == s.pending && t.artifact == s.artifact && (t.staged == s.staged || t.staged == None)
    requires HasInstall(t.workers) ==> HasInstall(s.workers)
    ensures SelectionGenuine(t)
  {
    hide Known, Genuine, GenuineFile, HasInstall;
    if s.staged.Some? { LaterFile(s.verified, s.disk, t.verified, t.disk, s.staged.value); }
    if s.artifact.Some? { LaterKnown(s.verified, t.verified, s.artifact.value); }
  }

  /** A step of worker `w` that leaves the selection alone and turns `w` into `y`, or ends it. */
  lemma WorkerStep(s: State, t: State, w: nat, y: Worker)
    requires Provenance(s) && w in s.workers && y.Install? == s.workers[w].Install?
    requires t.verified == s.verified && Later(s.verified, s.disk, s.verified, t.disk) && NamesUsed(t.disk)
    requires t.pending == s.pending && t.artifact == s.artifact && (t.staged == s.staged || t.staged == None)
    requires t.workers == s.workers - {w} || (t.workers == s.workers[w := y] && WorkerGenuine(t.verified, t.disk, y))
    requires TreesGenuine(t.verified, t.stageRoot) && HandoffsGenuine(t.verified, t.spawned)
    ensures Provenance(t)
  {
    hide Known, Genuine, WorkersGenuine, WorkerGenuine, TreesGenuine, HandoffsGenuine, NamesUsed, Later, HasInstall,
         SelectionGenuine;
    LaterWorkers(s.verified, s.disk, t.verified, t.disk, s.workers);
    WorkerSet(t.verified, t.disk, s.workers, w, y);
    SelectionStays(s, t);
  }

  /** What a finished check does to memory and disk: nothing, one more verified release, or a new selection. */
  lemma CheckMoves(s: State, w: nat, o: Outcome, trusted: Release -> bool)
    ensures var t := DoFinishCheck(s, w, o, trusted);
            && s.verified <= t.verified && t.workers == s.workers - {w}
            && t.stageRoot == s.stageRoot && t.spawned == s.spawned
            && (t.disk == s.disk || (s.staged.Some? && t.disk == s.disk.Without(s.staged.value)))
            && ((t.pending == s.pending && t.artifact == s.artifact && t.staged == s.staged && t.disk == s.disk)
                || (o.Offer? && t.pending == Some(o.rel) && o.rel in t.verified && t.staged == None
                    && t.artifact == o.art && o.art.Some? && o.art.value in o.rel.artifacts))
  {
    hide Moved;
  }

  lemma CheckKeepsProvenance(s: State, w: nat, o: Outcome, trusted: Release -> bool)
    requires Provenance(s)
    ensures Provenance(DoFinishCheck(s, w, o, trusted))
  {
    CheckMoves(s, w, o, trusted);
    hide Known, Genuine, GenuineFile, WorkersGenuine, TreesGenuine, HandoffsGenuine, NamesUsed, HasInstall,
         SelectionGenuine, DoFinishCheck;
    var t := DoFinishCheck(s, w, o, trusted);
    DiskMoves(s.verified, s.disk, if s.staged.Some? then s.staged.value else 0, []);
    LaterWorkers(s.verified, s.disk, t.verified, t.disk, s.workers);
    LaterOutputs(s.verified, t.verified, s.stageRoot, s.spawned);
    WorkerSet(t.verified, t.disk, s.workers, w, Check);
    if t.pending == s.pending && t.artifact == s.artifact && t.staged == s.staged && t.disk == s.disk {
      SelectionStays(s, t);
    } else {
      OfferIsKnown(t.verified, o.rel, o.art.value);
      SelectionFresh(t);
    }
  }

  lemma OfferIsKnown(v: set<Release>, r: Release, a: Artifact)
    requires r in v && a in r.artifacts
    ensures Known(v, a)
  {
  }

  lemma SelectionFresh(t: State)
    requires t.pending.Some? && t.pending.value in t.verified && t.staged.None?
    requires t.artifact.Some? ==> Known(t.verified, t.artifact.value)
    ensures SelectionGenuine(t)
  {
    hide Known, HasInstall;
  }

  lemma FetchKeepsProvenance(s: State, w: nat, bytes: Option<Bytes>)
    requires Provenance(s) && Enabled(s, Fetch(w, bytes))
    ensures Provenance(DoFetch(s, w, s.workers[w], bytes))
  {
    hide Known, Genuine, WorkersGenuine, TreesGenuine, HandoffsGenuine, NamesUsed, Later, HasInstall, Moved;
    var x := s.workers[w];
    var t := DoFetch(s, w, x, bytes);
    WorkerAt(s.verified, s.disk, s.workers, w);
    DiskMoves(s.verified, s.disk, 0, if bytes.Some? then bytes.value else []);
    LaterWorker(s.verified, s.disk, t.verified, t.disk, x);
    WorkerStep(s, t, w, t.workers[w]);
  }

  lemma AfterFetchKeepsProvenance(s: State, w: nat, ctxDone: bool)
    requires Provenance(s) && Enabled(s, AfterFetch(w, ctxDone))
    ensures Provenance(DoAfterFetch(s, w, s.workers[w], ctxDone))
  {
    hide Known, Genuine, WorkersGenuine, TreesGenuine, HandoffsGenuine, NamesUsed, Later, HasInstall, Moved;
    var x := s.workers[w];
    var t := DoAfterFetch(s, w, x, ctxDone);
    WorkerAt(s.verified, s.disk, s.workers, w);
    var f := if x.dpc.path.Some? then x.dpc.path.value else 0;
    DiskMoves(s.verified, s.disk, f, []);
    WorkerStep(s, t, w, x.(dpc := Hashing(f)));
  }

  lemma HashKeepsProvenance(s: State, w: nat)
    requires Provenance(s) && Enabled(s, Hash(w))
    ensures Provenance(DoHash(s, w, s.workers[w]))
  {
    hide Known, Genuine, WorkersGenuine, TreesGenuine, HandoffsGenuine, NamesUsed, Later, HasInstall, Moved;
    var x := s.workers[w];
    var t := DoHash(s, w, x);
    WorkerAt(s.verified, s.disk, s.workers, w);
    DiskMoves(s.verified, s.disk, x.dpc.file, []);
    if t.workers[w].dpc.good {
      GenuineByHash(s.verified, x.art, s.disk.files[x.dpc.file]);
    }
    WorkerStep(s, t, w, t.workers[w]);
  }

  lemma GenuineByHash(v: set<Release>, a: Artifact, bytes: Bytes)
    requires Known(v, a) && a.sha == Sha256(bytes)
    ensures Genuine(v, bytes)
  {
  }

  lemma AfterHashKeepsProvenance(s: State, w: nat)
    requires Provenance(s) && Enabled(s, AfterHash(w))
    ensures Provenance(DoAfterHash(s, w, s.workers[w]))
  {
    hide Known, Genuine, WorkersGenuine, TreesGenuine, HandoffsGenuine, NamesUsed, Later, HasInstall, Moved;
    var x := s.workers[w];
    var t := DoAfterHash(s, w, x);
    WorkerAt(s.verified, s.disk, s.workers, w);
    DiskMoves(s.verified, s.disk, x.dpc.hashed, []);
    WorkerSet(s.verified, s.disk, s.workers, w, x);
    if t.staged == s.staged {
      WorkerStep(s, t, w, x);
    }
  }

  lemma AfterFailureGenuine(v: set<Release>, d: Downloads, i: Worker, kind: Kind)
    requires i.Install? && i.rel in v
    ensures InstallGenuine(v, d, AfterFailure(i, kind), i.rel)
  {
  }

  lemma UnpackKeepsProvenance(s: State, w: nat, ok: bool)
    requires Provenance(s) && Enabled(s, Unpack(w, ok))
    ensures Provenance(DoUnpack(s, w, s.workers[w], ok))
  {
    hide Known, Genuine, WorkersGenuine, TreesGenuine, HandoffsGenuine, NamesUsed, Later, HasInstall, Moved, AfterFailure;
    var x := s.workers[w];
    var t := DoUnpack(s, w, x, ok);
    WorkerAt(s.verified, s.disk, s.workers, w);
    AfterFailureGenuine(s.verified, s.disk, x, x.ipc.kind);
    DiskMoves(s.verified, s.disk, 0, []);
    WorkerStep(s, t, w, t.workers[w]);
  }

  lemma PlaceKeepsProvenance(s: State, w: nat, ok: bool)
    requires Provenance(s) && Enabled(s, Place(w, ok))
    ensures Provenance(DoPlace(s, w, s.workers[w], ok))
  {
    hide Known, Genuine, WorkersGenuine, TreesGenuine, HandoffsGenuine, NamesUsed, Later, HasInstall, Moved, AfterFailure;
    var x := s.workers[w];
    var t := DoPlace(s, w, x, ok);
    WorkerAt(s.verified, s.disk, s.workers, w);
    AfterFailureGenuine(s.verified, s.disk, x, x.ipc.source);
    DiskMoves(s.verified, s.disk, 0, []);
    TreeAdded(s.verified, s.stageRoot, x.ver, x.ipc.payload);
    WorkerStep(s, t, w, t.workers[w]);
  }

  lemma TreeAdded(v: set<Release>, trees: map<Bytes, Bytes>, ver: Bytes, payload: Bytes)
    requires TreesGenuine(v, trees)
    ensures Genuine(v, payload) ==> TreesGenuine(v, trees[ver := payload])
    ensures TreesGenuine(v, trees - {ver})
    ensures ver in trees ==> Genuine(v, trees[ver])
  {
    hide Genuine;
  }

  lemma HandoffAdded(v: set<Release>, spawned: seq<Handoff>, h: Handoff)
    requires HandoffsGenuine(v, spawned) && (h.payload.Some? ==> Genuine(v, h.payload.value))
    ensures HandoffsGenuine(v, spawned + [h])
  {
    hide Genuine;
  }

  lemma RefetchKeepsProvenance(s: State, w: nat, bytes: Option<Bytes>)
    requires Provenance(s) && Enabled(s, Refetch(w, bytes))
    ensures Provenance(DoRefetch(s, w, s.workers[w], bytes))
  {
    hide Known, Genuine, WorkersGenuine, TreesGenuine, HandoffsGenuine, NamesUsed, Later, HasInstall, Moved;
    var x := s.workers[w];
    var t := DoRefetch(s, w, x, bytes);
    WorkerAt(s.verified, s.disk, s.workers, w);
    DiskMoves(s.verified, s.disk, 0, if bytes.Some? then bytes.value else []);
    WorkerStep(s, t, w, t.workers[w]);
  }

  lemma RehashKeepsProvenance(s: State, w: nat)
    requires Provenance(s) && Enabled(s, Rehash(w))
    ensures Provenance(DoRehash(s, w, s.workers[w]))
  {
    hide Known, Genuine, WorkersGenuine, TreesGenuine, HandoffsGenuine, NamesUsed, Later, HasInstall, Moved;
    var x := s.workers[w];
    var t := DoRehash(s, w, x);
    WorkerAt(s.verified, s.disk, s.workers, w);
    DiskMoves(s.verified, s.disk, x.ipc.path, []);
    OfferIsKnown(s.verified, x.rel, x.ipc.full);
    if t.workers[w].ipc.Rewriting? {
      GenuineByHash(s.verified, x.ipc.full, s.disk.files[x.ipc.path]);
    }
    WorkerStep(s, t, w, t.workers[w]);
  }

  lemma RewriteKeepsProvenance(s: State, w: nat)
    requires Provenance(s) && Enabled(s, Rewrite(w))
    ensures Provenance(DoRewrite(s, w, s.workers[w]))
  {
    hide Known, Genuine, WorkersGenuine, TreesGenuine, HandoffsGenuine, NamesUsed, Later, HasInstall, Moved;
    var x := s.workers[w];
    var t := DoRewrite(s, w, x);
    WorkerAt(s.verified, s.disk, s.workers, w);
    OfferIsKnown(s.verified, x.rel, x.ipc.chosen);
    WorkerSet(s.verified, s.disk, s.workers, w, t.workers[w]);
  }

  lemma DecideKeepsProvenance(s: State, w: nat, spawnOk: bool)
    requires Provenance(s) && Enabled(s, Decide(w, spawnOk))
    ensures Provenance(DoDecide(s, w, s.workers[w], spawnOk))
  {
    hide Known, Genuine, WorkersGenuine, TreesGenuine, HandoffsGenuine, NamesUsed, Later, HasInstall, Moved, GenuineFile,
         SelectionGenuine, WorkerGenuine;
    var x := s.workers[w];
    var t := DoDecide(s, w, x, spawnOk);
    WorkerAt(s.verified, s.disk, s.workers, w);
    var ver := if x.ipc.dir.Some? then x.ipc.dir.value else [];
    DiskMoves(s.verified, s.disk, if s.staged.Some? then s.staged.value else 0, []);
    TreeAdded(s.verified, s.stageRoot, ver, []);
    HandoffAdded(s.verified, s.spawned, Handoff(x.ver, if ver in s.stageRoot then Some(s.stageRoot[ver]) else None));
    WorkerStep(s, t, w, x);
  }

  lemma CancelKeepsProvenance(s: State)
    requires Provenance(s)
    ensures Provenance(DoCancel(s))
  {
    hide Known, Genuine, GenuineFile, TreesGenuine, HandoffsGenuine, NamesUsed, Later, Moved, SelectionGenuine;
    var t := DoCancel(s);
    CancelledWorkersGenuine(s);
    DiskMoves(s.verified, s.disk, 0, []);
    if HasInstall(t.workers) { var y :| y in t.workers && t.workers[y].Install?; assert s.workers[y].Install?; }
    SelectionStays(s, t);
  }

  lemma CancelledWorkersGenuine(s: State)
    requires WorkersGenuine(s.verified, s.disk, s.workers)
    ensures WorkersGenuine(s.verified, s.disk, DoCancel(s).workers)
  {
    hide Known, DownloadGenuine, InstallGenuine, Moved;
    var t := DoCancel(s);
    forall w | w in t.workers ensures WorkerGenuine(s.verified, s.disk, t.workers[w]) {
      WorkerAt(s.verified, s.disk, s.workers, w);
    }
  }

  lemma BeginKeepsProvenance(s: State, a: Action, trusted: Release -> bool)
    requires Provenance(s)
    requires a.BeginCheck? || a.BeginDownload? || a.BeginInstall?
    ensures Provenance(Next(s, a, trusted))
  {
    hide Known, Genuine, GenuineFile, WorkersGenuine, TreesGenuine, HandoffsGenuine, NamesUsed, Later, HasInstall, Moved;
    var t := Next(s, a, trusted);
    if s.nextWorker in t.workers {
      WorkerSet(s.verified, s.disk, s.workers, s.nextWorker, t.workers[s.nextWorker]);
    }
  }

  lemma OutsideKeepsProvenance(s: State, a: Action, trusted: Release -> bool)
    requires Provenance(s)
    requires a.Dismiss? || a.UpdaterExited? || a.UpdaterCleaned? || a.Restart?
    ensures Provenance(Next(s, a, trusted))
  {
    hide Known, Genuine, GenuineFile, HandoffsGenuine, NamesUsed, Later, Moved;
    var t := Next(s, a, trusted);
  }

  lemma StepKeepsProvenance(s: State, a: Action, trusted: Release -> bool)
    requires Provenance(s) && Enabled(s, a)
    ensures Provenance(Next(s, a, trusted))
  {
    hide Provenance, DoFinishCheck, DoFetch, DoAfterFetch, DoHash, DoAfterHash, DoUnpack, DoPlace, DoRefetch, DoRehash,
      DoRewrite, DoDecide, DoCancel, DoBeginCheck, DoBeginDownload, DoBeginInstall, DoRestart, DoDismiss, DoUpdaterExited;
    match a
    case FinishCheck(w, o) => CheckKeepsProvenance(s, w, o, trusted);
    case Fetch(w, bytes) => FetchKeepsProvenance(s, w, bytes);
    case AfterFetch(w, ctxDone) => AfterFetchKeepsProvenance(s, w, ctxDone);
    case Hash(w) => HashKeepsProvenance(s, w);
    case AfterHash(w) => AfterHashKeepsProvenance(s, w);
    case Unpack(w, ok) => UnpackKeepsProvenance(s, w, ok);
    case Place(w, ok) => PlaceKeepsProvenance(s, w, ok);
    case Refetch(w, bytes) => RefetchKeepsProvenance(s, w, bytes);
    case Rehash(w) => RehashKeepsProvenance(s, w);
    case Rewrite(w) => RewriteKeepsProvenance(s, w);
    case Decide(w, spawnOk) => DecideKeepsProvenance(s, w, spawnOk);
    case Cancel => CancelKeepsProvenance(s);
    case Dismiss => OutsideKeepsProvenance(s, a, trusted);
    case UpdaterExited => OutsideKeepsProvenance(s, a, trusted);
    case UpdaterCleaned(_) => OutsideKeepsProvenance(s, a, trusted);
    case Restart(_) => OutsideKeepsProvenance(s, a, trusted);
    case BeginCheck => BeginKeepsProvenance(s, a, trusted);
    case BeginDownload => BeginKeepsProvenance(s, a, trusted);
    case BeginInstall => BeginKeepsProvenance(s, a, trusted);
  }

  /** Only releases that pass VerifyManifest are ever remembered as verified. */
  lemma StepVerifies(s: State, a: Action, trusted: Release -> bool)
    requires Enabled(s, a) && forall r :: r in s.verified ==> trusted(r)
    ensures forall r :: r in Next(s, a, trusted).verified ==> trusted(r)
  {
  }

  lemma {:induction false} RunKeepsProvenance(s: State, actions: seq<Action>, trusted: Release -> bool)
    requires Provenance(s) && (forall r :: r in s.verified ==> trusted(r)) && IsRun(s, actions, trusted)
    ensures Provenance(Run(s, actions, trusted)) && forall r :: r in Run(s, actions, trusted).verified ==> trusted(r)
    decreases |actions|
  {
    hide Provenance, Next, Enabled;
    if actions != [] {
      StepKeepsProvenance(s, actions[0], trusted);
      StepVerifies(s, actions[0], trusted);
      RunKeepsProvenance(Next(s, actions[0], trusted), actions[1..], trusted);
    }
  }

  lemma InitialHasProvenance()
    ensures Provenance(INITIAL)
  {
  }

  /**
   * In every interleaving from the start, restarts included: every tree under the stage root, and
   * every tree the updater was started with, was assembled from bytes whose hash an artifact of a
   * verified manifest names, and every manifest counted as verified passed verification.
   */
  lemma EveryRunHasProvenance(actions: seq<Action>, trusted: Release -> bool)
    requires IsRun(INITIAL, actions, trusted)
    ensures var t := Run(INITIAL, actions, trusted);
            && TreesGenuine(t.verified, t.stageRoot) && HandoffsGenuine(t.verified, t.spawned)
            && forall r :: r in t.verified ==> trusted(r)
  {
    InitialHasProvenance();
    RunKeepsProvenance(INITIAL, actions, trusted);
    hide Run, IsRun, TreesGenuine, HandoffsGenuine, NamesUsed, SelectionGenuine, WorkersGenuine;
  }
}
