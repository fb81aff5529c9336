/** The versioned install root: every filesystem call is one step, any call may fail, a crash may follow any step. */
module Installer {
  import opened Text
  import Versions

  datatype File = File(content: Bytes, executable: bool)
  type Tree = map<Bytes, File>

  /** One root directory. Links are named by the version they point at. */
  datatype Disk = Disk(
    versions: map<Bytes, Tree>,    // every entry of versions/, temporary ones included
    scratch: map<Bytes, Tree>,     // staging/assemble-*
    current: Option<Bytes>,
    previous: Option<Bytes>,
    tmpLink: Option<Bytes>)

  /** The updater's report file. */
  datatype Report = NoReport | Success(version: Bytes) | Failure(version: Bytes)

  /** The daemon's stage root, the install root, and the report. */
  datatype World = World(stage: Disk, install: Disk, report: Report)

  /** The disk after each call, in order, and whether the operation reported success. */
  datatype Run<W> = Run(ok: bool, trail: seq<W>)

  function After<W>(start: W, trail: seq<W>): W { if trail == [] then start else trail[|trail| - 1] }

  predicate Parses(v: Bytes) { Versions.Parse(v).Some? }

  /** VersionDir accepts the name. */
  predicate IsVersionName(v: Bytes) { Parses(v) && '/' !in v && '\\' !in v }

  function PromoteName(n: nat): Bytes { "promote-" + Itoa(n) }

  // ---------------------------------------------------------------- Assemble

  /**
   * What happens to the calls of one assembly: the scratch trees that appear while unpacking, the
   * finished tree (or None if unpacking fails), and whether making versions/ and the rename succeed.
   */
  datatype Assembly = Assembly(dir: Bytes, partial: seq<Tree>, built: Option<Tree>, mkdir: bool, rename: bool, cleanup: bool)

  function WithScratch(d: Disk, dir: Bytes, trees: seq<Tree>): (ds: seq<Disk>)
    ensures |ds| == |trees|
    ensures forall i :: 0 <= i < |trees| ==> ds[i] == d.(scratch := d.scratch[dir := trees[i]])
  {
    seq(|trees|, i requires 0 <= i < |trees| => d.(scratch := d.scratch[dir := trees[i]]))
  }

  function DropScratch(d: Disk, dir: Bytes): Disk { d.(scratch := d.scratch - {dir}) }

  function AssembleRun(d: Disk, target: Bytes, a: Assembly): Run<Disk> {
    if !IsVersionName(target) then Run(false, [])
    else if target in d.versions then Run(true, [])
    else
      var unpacked := WithScratch(d, a.dir, a.partial);
      if a.built.None? || !a.mkdir || !a.rename then
        Run(false, unpacked + if a.cleanup then [DropScratch(d, a.dir)] else [])
      else
        var full := d.(scratch := d.scratch[a.dir := a.built.value]);
        var moved := d.(versions := d.versions[target := a.built.value], scratch := d.scratch[a.dir := map[]]);
        Run(true, unpacked + [full, moved] + if a.cleanup then [DropScratch(moved, a.dir)] else [])
  }

  // ---------------------------------------------------------------- PromoteStaged

  /** The copy's temporary directory number, the trees it passes through, and which calls succeed. */
  datatype Promotion = Promotion(dir: nat, partial: seq<Tree>, mkdir: bool, copy: bool, rename: bool, cleanup: bool)

  function WithVersion(d: Disk, name: Bytes, t: Tree): Disk { d.(versions := d.versions[name := t]) }

  function DropVersion(d: Disk, name: Bytes): Disk { d.(versions := d.versions - {name}) }

  function WithPartials(d: Disk, name: Bytes, trees: seq<Tree>): (ds: seq<Disk>)
    ensures |ds| == |trees| && forall i :: 0 <= i < |trees| ==> ds[i] == WithVersion(d, name, trees[i])
  {
    seq(|trees|, i requires 0 <= i < |trees| => WithVersion(d, name, trees[i]))
  }

  /** `staged` is the tree found at the given path; `inPlace` says that path is already the destination. */
  function PromoteRun(d: Disk, staged: Option<Tree>, ver: Bytes, inPlace: bool, p: Promotion): Run<Disk> {
    if !IsVersionName(ver) || staged.None? then Run(false, [])
    else if inPlace || ver in d.versions then Run(true, [])
    else if !p.mkdir then Run(false, [])
    else
      var name := PromoteName(p.dir);
      var copied := WithPartials(d, name, p.partial);
      if !p.copy || !p.rename then
        Run(false, copied + if p.cleanup then [DropVersion(d, name)] else [])
      else
        var full := WithVersion(d, name, staged.value);
        var moved := WithVersion(WithVersion(d, name, map[]), ver, staged.value);
        Run(true, copied + [full, moved] + if p.cleanup then [DropVersion(moved, name)] else [])
  }

  // ---------------------------------------------------------------- Activate and Rollback

  /** Which calls of an activation succeed; removals that fail are ignored by the code. */
  datatype Switch = Switch(readLink: bool, removePrevious: bool, linkPrevious: bool,
                           removeTmp: bool, linkTmp: bool, rename: bool, dropTmp: bool)

  const NO_FAULTS := Switch(true, true, true, true, true, true, true)

  /** Points `current` at `target` through a temporary link and one atomic rename. */
  function SwitchRun(d: Disk, target: Bytes, s: Switch): Run<Disk> {
    var cleared := if s.removeTmp then d.(tmpLink := None) else d;
    if !s.linkTmp || cleared.tmpLink.Some? then Run(false, [cleared])
    else
      var linked := cleared.(tmpLink := Some(target));
      if s.rename then Run(true, [cleared, linked, linked.(tmpLink := None, current := Some(target))])
      else Run(false, [cleared, linked] + if s.dropTmp then [linked.(tmpLink := None)] else [])
  }

  /** Anchors the present `current` in `previous`: the stale anchor goes first. */
  function AnchorRun(d: Disk, s: Switch): Run<Disk> {
    if !s.readLink || d.current.None? then Run(true, [])
    else
      var removed := if s.removePrevious then d.(previous := None) else d;
      if !s.linkPrevious || removed.previous.Some? then Run(false, [removed])
      else Run(true, [removed, removed.(previous := d.current)])
  }

  function ActivateRun(d: Disk, target: Bytes, s: Switch): Run<Disk> {
    if !IsVersionName(target) || target !in d.versions then Run(false, [])
    else
      var anchor := AnchorRun(d, s);
      if !anchor.ok then anchor
      else
        var switch := SwitchRun(After(d, anchor.trail), target, s);
        Run(switch.ok, anchor.trail + switch.trail)
  }

  /** Re-points `current` at the anchored version. */
  function RollbackRun(d: Disk, s: Switch): Run<Disk> {
    if !s.readLink || d.previous.None? then Run(false, []) else SwitchRun(d, d.previous.value, s)
  }

  // ---------------------------------------------------------------- the updater's run

  const REQUIRED_FILES: seq<Bytes> := ["connective", "connectived", "sing-box"]

  /** checkTree: every required file present and executable. */
  predicate HasRequired(t: Tree) {
    forall f :: f in REQUIRED_FILES ==> f in t && t[f].executable
  }

  predicate CheckTree(d: Disk, ver: Bytes) { IsVersionName(ver) && ver in d.versions && HasRequired(d.versions[ver]) }

  function OnInstall(w: World, ds: seq<Disk>): (ws: seq<World>)
    ensures |ws| == |ds| && forall i :: 0 <= i < |ds| ==> ws[i] == w.(install := ds[i])
  {
    seq(|ds|, i requires 0 <= i < |ds| => w.(install := ds[i]))
  }

  function StagedTree(w: World, ver: Bytes): Option<Tree> {
    if ver in w.stage.versions then Some(w.stage.versions[ver]) else None
  }

  /** os.RemoveAll of a version: its tree shrinks call by call before the entry goes, if the last call succeeds. */
  datatype Removal = Removal(partial: seq<Tree>, gone: bool)

  function RemovalTrail(d: Disk, ver: Bytes, r: Removal): seq<Disk> {
    if ver !in d.versions then []
    else WithPartials(d, ver, r.partial) + if r.gone then [DropVersion(d, ver)] else []
  }

  function OnStage(w: World, ds: seq<Disk>): (ws: seq<World>)
    ensures |ws| == |ds| && forall i :: 0 <= i < |ds| ==> ws[i] == w.(stage := ds[i])
  {
    seq(|ds|, i requires 0 <= i < |ds| => w.(stage := ds[i]))
  }

  /** The --staged argument: none, the daemon's stage root, or the very place the version goes. */
  datatype Source = NoStaged | Staged | InPlace

  datatype Reporting = Written | Unwritable | NoFile

  /** Everything runApply meets: the wait, the staged directory, the phases, the report, and the last removal. */
  datatype Apply = Apply(closed: bool, source: Source, promotion: Promotion, switch: Switch,
                         reporting: Reporting, removal: Removal)

  function Reported(w: World, r: Report, reporting: Reporting): seq<World> {
    if reporting.Written? then [w.(report := r)] else []
  }

  function TreeIn(d: Disk, ver: Bytes): Option<Tree> { if ver in d.versions then Some(d.versions[ver]) else None }

  function PromotePart(w: World, ver: Bytes, a: Apply): Run<Disk> {
    match a.source
    case NoStaged => Run(true, [])
    case Staged => PromoteRun(w.install, StagedTree(w, ver), ver, false, a.promotion)
    case InPlace => PromoteRun(w.install, TreeIn(w.install, ver), ver, true, a.promotion)
  }

  /** runApply on unix with nothing to launch, up to its return: promote, check, activate, report. */
  function ApplyCore(w: World, ver: Bytes, a: Apply): Run<World> {
    if !a.closed then Run(false, Reported(w, Failure(ver), a.reporting))
    else
      var promote := PromotePart(w, ver, a);
      var promoted := OnInstall(w, promote.trail);
      var w1 := After(w, promoted);
      if !promote.ok || !CheckTree(w1.install, ver) then
        Run(false, promoted + Reported(w1, Failure(ver), a.reporting))
      else
        var activate := ActivateRun(w1.install, ver, a.switch);
        var activated := OnInstall(w1, activate.trail);
        var w2 := After(w1, activated);
        if !activate.ok then Run(false, promoted + activated + Reported(w2, Failure(ver), a.reporting))
        else Run(!a.reporting.Unwritable?, promoted + activated + Reported(w2, Success(ver), a.reporting))
  }

  /** Once a staged tree is promoted its directory is removed on the way out, whatever the rest does. */
  predicate CleansUp(w: World, ver: Bytes, a: Apply) { a.closed && !a.source.NoStaged? && PromotePart(w, ver, a).ok }

  function CleanupTrail(w: World, ver: Bytes, a: Apply): seq<World> {
    if a.source.InPlace? then OnInstall(w, RemovalTrail(w.install, ver, a.removal))
    else OnStage(w, RemovalTrail(w.stage, ver, a.removal))
  }

  function ApplyRun(w: World, ver: Bytes, a: Apply): Run<World> {
    var core := ApplyCore(w, ver, a);
    if CleansUp(w, ver, a) then Run(core.ok, core.trail + CleanupTrail(After(w, core.trail), ver, a)) else core
  }

  // ---------------------------------------------------------------- what every step keeps

  /** Every visible version is a tree that `complete` admits. */
  ghost predicate OnlyComplete(d: Disk, complete: (Bytes, Tree) -> bool) {
    forall v :: v in d.versions && Parses(v) ==> complete(v, d.versions[v])
  }

  /** Neither link dangles. */
  predicate LinksResolve(d: Disk) {
    && (d.current.Some? ==> d.current.value in d.versions && Parses(d.current.value))
    && (d.previous.Some? ==> d.previous.value in d.versions && Parses(d.previous.value))
  }

  /** What may change from one disk to a later one: versions only get added, `current` never vanishes. */
  ghost predicate Grows(d: Disk, e: Disk) {
    && (forall v :: v in d.versions && Parses(v) ==> v in e.versions && e.versions[v] == d.versions[v])
    && (d.current.Some? ==> e.current.Some?)
  }

  ghost predicate Sound(d: Disk, complete: (Bytes, Tree) -> bool) { OnlyComplete(d, complete) && LinksResolve(d) }

  /** All disks of a trail are sound and have only grown. */
  ghost predicate TrailSound(d: Disk, trail: seq<Disk>, complete: (Bytes, Tree) -> bool) {
    forall i :: 0 <= i < |trail| ==> Sound(trail[i], complete) && Grows(d, trail[i])
  }

  lemma PromoteNameNeverParses(n: nat)
    ensures !Parses(PromoteName(n))
  {
    hide Itoa, Split, TrimSpace, SpacePrefix, SpaceSuffix, FirstIndex, Versions.ParseComponents;
    var digits, s := Itoa(n), PromoteName(n);
    assert s[0] == 'p' && s[|s| - 1] == digits[|digits| - 1];
    NothingToTrimAround(s);
    assert s == "promote" + ['-'] + digits;
    FirstIndexIs("promote", '-', digits);
    assert s[..7] == "promote";
    SplitStep("promote", '.', []);
    NotANumber();
  }

  lemma NothingToTrimAround(s: Bytes)
    requires s != [] && s[0] == 'p' && IsDigit(s[|s| - 1])
    ensures TrimSpace(s) == s
  {
    hide TrimSpace;
    TrimSpaceStable(s);
  }

  lemma NotANumber()
    ensures Versions.ParseComponents(["promote"]).None?
  {
    assert "promote"[0] == 'p' && !IsDigit('p');
    assert !AllDigits("promote");
  }

  /** A temporary directory is invisible: its name is not a version. */
  lemma TemporaryIsInvisible(d: Disk, name: Bytes, t: Tree, complete: (Bytes, Tree) -> bool)
    requires Sound(d, complete) && !Parses(name)
    ensures Sound(WithVersion(d, name, t), complete) && Grows(d, WithVersion(d, name, t))
    ensures Sound(DropVersion(d, name), complete) && Grows(d, DropVersion(d, name))
  {
    hide Parses;
  }

  lemma AddingIsSound(d: Disk, v: Bytes, t: Tree, complete: (Bytes, Tree) -> bool)
    requires Sound(d, complete) && v !in d.versions && complete(v, t)
    ensures Sound(WithVersion(d, v, t), complete) && Grows(d, WithVersion(d, v, t))
  {
    hide Parses;
  }

  lemma ScratchIsInvisible(d: Disk, scratch: map<Bytes, Tree>, complete: (Bytes, Tree) -> bool)
    requires Sound(d, complete)
    ensures Sound(d.(scratch := scratch), complete) && Grows(d, d.(scratch := scratch))
  {
    hide Parses;
  }

  lemma GrowsOn(c: Disk, d: Disk, e: Disk)
    requires Grows(c, d) && Grows(d, e)
    ensures Grows(c, e)
  {
    hide Parses;
  }

  lemma AssembleSound(d: Disk, target: Bytes, a: Assembly, complete: (Bytes, Tree) -> bool)
    requires Sound(d, complete)
    requires a.built.Some? ==> complete(target, a.built.value)
    ensures var r := AssembleRun(d, target, a);
            && TrailSound(d, r.trail, complete)
            && (forall i :: 0 <= i < |r.trail| ==> r.trail[i].current == d.current && r.trail[i].previous == d.previous)
            && (r.ok ==> target in After(d, r.trail).versions)
  {
    var r := AssembleRun(d, target, a);
    hide IsVersionName, Sound, Grows;
    forall i | 0 <= i < |r.trail| ensures Sound(r.trail[i], complete) && Grows(d, r.trail[i]) {
      var e := r.trail[i];
      if e.versions == d.versions {
        ScratchIsInvisible(d, e.scratch, complete);
      } else {
        AddingIsSound(d, target, a.built.value, complete);
        ScratchIsInvisible(WithVersion(d, target, a.built.value), e.scratch, complete);
        GrowsOn(d, WithVersion(d, target, a.built.value), e);
      }
    }
  }

  lemma PromoteSound(d: Disk, staged: Option<Tree>, ver: Bytes, inPlace: bool, p: Promotion, complete: (Bytes, Tree) -> bool)
    requires Sound(d, complete)
    requires staged.Some? && Parses(ver) ==> complete(ver, staged.value)
    ensures var r := PromoteRun(d, staged, ver, inPlace, p);
            && TrailSound(d, r.trail, complete)
            && (forall i :: 0 <= i < |r.trail| ==> r.trail[i].current == d.current && r.trail[i].previous == d.previous)
            && (r.ok && !inPlace ==> ver in After(d, r.trail).versions)
  {
    var r, name := PromoteRun(d, staged, ver, inPlace, p), PromoteName(p.dir);
    PromoteNameNeverParses(p.dir);
    hide Sound, Grows, PromoteName, Versions.Parse;
    var empty := WithVersion(d, name, map[]);
    TemporaryIsInvisible(d, name, map[], complete);
    forall t: Tree ensures Sound(WithVersion(d, name, t), complete) && Grows(d, WithVersion(d, name, t)) {
      TemporaryIsInvisible(d, name, t, complete);
    }
    if r.ok && r.trail != [] {
      var moved := WithVersion(empty, ver, staged.value);
      AddingIsSound(empty, ver, staged.value, complete);
      GrowsOn(d, empty, moved);
      TemporaryIsInvisible(moved, name, map[], complete);
      GrowsOn(d, moved, DropVersion(moved, name));
    }
  }

  // ---------------------------------------------------------------- the links

  /** Along a switch, `current` is the old value until the rename and the target from then on. */
  predicate Switches(d: Disk, r: Run<Disk>, target: Bytes) {
    && (forall i :: 0 <= i < |r.trail| ==>
          r.trail[i].versions == d.versions && (r.trail[i].current == d.current || r.trail[i].current == Some(target)))
    && (r.ok ==> r.trail != [] && After(d, r.trail).current == Some(target))
    && (!r.ok ==> forall i :: 0 <= i < |r.trail| ==> r.trail[i].current == d.current)
  }

  lemma SwitchSwitches(d: Disk, target: Bytes, s: Switch)
    ensures Switches(d, SwitchRun(d, target, s), target)
    ensures forall i :: 0 <= i < |SwitchRun(d, target, s).trail| ==> SwitchRun(d, target, s).trail[i].previous == d.previous
  {
  }

  /**
   * Every disk of an activation: `current` is the old value or the target, the old value throughout
   * when the activation fails, and `previous` is only ever dropped or pointed at the old `current`.
   */
  lemma ActivateSwitches(d: Disk, target: Bytes, s: Switch)
    ensures Switches(d, ActivateRun(d, target, s), target)
    ensures var r := ActivateRun(d, target, s);
            && (forall i :: 0 <= i < |r.trail| ==> r.trail[i].previous in {d.previous, None, d.current})
            && (r.ok ==> IsVersionName(target) && target in d.versions)
            && (r.ok ==> After(d, r.trail).previous == if s.readLink && d.current.Some? then d.current else d.previous)
  {
    hide Versions.Parse;
    var anchor := AnchorRun(d, s);
    SwitchSwitches(After(d, anchor.trail), target, s);
  }

  lemma RollbackSwitches(d: Disk, s: Switch)
    ensures var r := RollbackRun(d, s);
            && (d.previous.Some? ==> Switches(d, r, d.previous.value))
            && (d.previous.None? ==> r == Run(false, []))
            && forall i :: 0 <= i < |r.trail| ==> r.trail[i].previous == d.previous
  {
    if d.previous.Some? {
      SwitchSwitches(d, d.previous.value, s);
    }
  }

  /**
   * A rollback right after a successful activation returns to the version that was current exactly
   * when the activation could read that link, or the stale anchor happened to name it.
   */
  lemma RollbackRestores(d: Disk, target: Bytes, s: Switch, b: Switch)
    requires ActivateRun(d, target, s).ok && d.current.Some?
    requires RollbackRun(After(d, ActivateRun(d, target, s).trail), b).ok
    ensures var e := After(d, ActivateRun(d, target, s).trail);
            After(e, RollbackRun(e, b).trail).current == d.current <==> s.readLink || d.previous == d.current
  {
    hide ActivateRun, RollbackRun;
    ActivateSwitches(d, target, s);
    RollbackSwitches(After(d, ActivateRun(d, target, s).trail), b);
  }

  /** Without faults that rollback does go through. */
  lemma RollbackIsPossible(d: Disk, target: Bytes, s: Switch)
    requires ActivateRun(d, target, s).ok && d.current.Some? && s.readLink
    ensures RollbackRun(After(d, ActivateRun(d, target, s).trail), NO_FAULTS).ok
  {
    hide ActivateRun;
    ActivateSwitches(d, target, s);
  }

  lemma SwitchSound(d: Disk, r: Run<Disk>, target: Bytes, complete: (Bytes, Tree) -> bool)
    requires Sound(d, complete) && Switches(d, r, target) && target in d.versions && Parses(target)
    requires forall i :: 0 <= i < |r.trail| ==> r.trail[i].previous in {d.previous, None, d.current}
    ensures TrailSound(d, r.trail, complete)
  {
    hide Parses;
  }

  lemma ActivateSound(d: Disk, target: Bytes, s: Switch, complete: (Bytes, Tree) -> bool)
    requires Sound(d, complete)
    ensures TrailSound(d, ActivateRun(d, target, s).trail, complete)
  {
    ActivateSwitches(d, target, s);
    if IsVersionName(target) && target in d.versions {
      hide ActivateRun, Sound, TrailSound;
      SwitchSound(d, ActivateRun(d, target, s), target, complete);
    }
  }

  lemma RollbackSound(d: Disk, s: Switch, complete: (Bytes, Tree) -> bool)
    requires Sound(d, complete)
    ensures TrailSound(d, RollbackRun(d, s).trail, complete)
  {
    RollbackSwitches(d, s);
    if d.previous.Some? {
      hide RollbackRun;
      SwitchSound(d, RollbackRun(d, s), d.previous.value, complete);
    }
  }

  // ---------------------------------------------------------------- the updater

  /** What holds of the install root and the report at every point of an apply. */
  ghost predicate ApplyPoint(w: World, e: World, ver: Bytes, complete: (Bytes, Tree) -> bool) {
    && Sound(e.install, complete) && Grows(w.install, e.install)
    && (e.install.current == w.install.current || (e.install.current == Some(ver) && CheckTree(e.install, ver)))
    && (e.report == w.report || e.report == Failure(ver) ||
        (e.report == Success(ver) && e.install.current == Some(ver) && CheckTree(e.install, ver)))
  }

  /** Until the last removal the stage root stays as it is, too. */
  ghost predicate CorePoint(w: World, e: World, ver: Bytes, complete: (Bytes, Tree) -> bool) {
    ApplyPoint(w, e, ver, complete) && e.stage == w.stage
  }

  lemma CheckTreeStays(d: Disk, e: Disk, ver: Bytes)
    requires e.versions == d.versions
    ensures CheckTree(e, ver) == CheckTree(d, ver)
  {
  }

  /** All worlds of a trail, and the one it ends in, are such points. */
  ghost predicate ApplyTrail(w: World, start: World, trail: seq<World>, ver: Bytes, complete: (Bytes, Tree) -> bool) {
    && (forall i :: 0 <= i < |trail| ==> CorePoint(w, trail[i], ver, complete))
    && CorePoint(w, After(start, trail), ver, complete)
  }

  lemma ApplyTrailJoins(w: World, a: World, s: seq<World>, u: seq<World>, ver: Bytes, complete: (Bytes, Tree) -> bool)
    requires ApplyTrail(w, a, s, ver, complete) && ApplyTrail(w, After(a, s), u, ver, complete)
    ensures ApplyTrail(w, a, s + u, ver, complete) && After(a, s + u) == After(After(a, s), u)
  {
    hide CorePoint;
  }

  lemma PromotePhase(w: World, ver: Bytes, a: Apply, complete: (Bytes, Tree) -> bool)
    requires Sound(w.install, complete)
    requires ver in w.stage.versions && Parses(ver) ==> complete(ver, w.stage.versions[ver])
    ensures var promoted := OnInstall(w, PromotePart(w, ver, a).trail);
            && ApplyTrail(w, w, promoted, ver, complete)
            && After(w, promoted).report == w.report
  {
    var trail := PromotePart(w, ver, a).trail;
    PromoteTrail(w, ver, a, complete);
    StartPoint(w, ver, complete);
    hide PromotePart, Sound, CheckTree, Grows, CorePoint, ApplyTrail, OnInstall, TrailSound;
    forall i | 0 <= i < |trail| ensures CorePoint(w, w.(install := trail[i]), ver, complete) {
      PromotePoint(w, trail[i], ver, complete);
    }
    InstallPoints(w, w, trail, ver, complete);
  }

  lemma PromoteTrail(w: World, ver: Bytes, a: Apply, complete: (Bytes, Tree) -> bool)
    requires Sound(w.install, complete)
    requires ver in w.stage.versions && Parses(ver) ==> complete(ver, w.stage.versions[ver])
    ensures forall d :: d in PromotePart(w, ver, a).trail ==>
              Sound(d, complete) && Grows(w.install, d) && d.current == w.install.current
  {
    if a.source.Staged? {
      PromoteSound(w.install, StagedTree(w, ver), ver, false, a.promotion, complete);
    } else if a.source.InPlace? {
      InPlaceStays(w.install, TreeIn(w.install, ver), ver, a.promotion);
    }
    hide PromoteRun, Sound, Grows;
  }

  lemma PromotePoint(w: World, d: Disk, ver: Bytes, complete: (Bytes, Tree) -> bool)
    requires Sound(d, complete) && Grows(w.install, d) && d.current == w.install.current
    ensures CorePoint(w, w.(install := d), ver, complete)
  {
    hide Sound, Grows, CheckTree;
  }

  lemma ActivatePhase(w: World, w1: World, ver: Bytes, s: Switch, complete: (Bytes, Tree) -> bool)
    requires CorePoint(w, w1, ver, complete) && w1.report == w.report && CheckTree(w1.install, ver)
    ensures var run := ActivateRun(w1.install, ver, s); var activated := OnInstall(w1, run.trail);
            && ApplyTrail(w, w1, activated, ver, complete)
            && (run.ok ==> After(w1, activated).install.current == Some(ver) && CheckTree(After(w1, activated).install, ver))
  {
    var run := ActivateRun(w1.install, ver, s);
    ActivateSound(w1.install, ver, s, complete);
    ActivateSwitches(w1.install, ver, s);
    hide ActivateRun, Sound, CheckTree, Grows, CorePoint, ApplyTrail, OnInstall;
    forall i | 0 <= i < |run.trail|
      ensures CorePoint(w, w1.(install := run.trail[i]), ver, complete) && CheckTree(run.trail[i], ver)
    {
      ActivatePoint(w, w1, run.trail[i], ver, complete);
    }
    InstallPoints(w, w1, run.trail, ver, complete);
  }

  lemma InstallPoints(w: World, w1: World, trail: seq<Disk>, ver: Bytes, complete: (Bytes, Tree) -> bool)
    requires CorePoint(w, w1, ver, complete)
    requires forall i :: 0 <= i < |trail| ==> CorePoint(w, w1.(install := trail[i]), ver, complete)
    ensures ApplyTrail(w, w1, OnInstall(w1, trail), ver, complete)
    ensures After(w1, OnInstall(w1, trail)) == w1.(install := After(w1.install, trail))
  {
    hide CorePoint;
  }

  lemma ActivatePoint(w: World, w1: World, d: Disk, ver: Bytes, complete: (Bytes, Tree) -> bool)
    requires CorePoint(w, w1, ver, complete) && w1.report == w.report && CheckTree(w1.install, ver)
    requires Sound(d, complete) && Grows(w1.install, d)
    requires d.versions == w1.install.versions && (d.current == w1.install.current || d.current == Some(ver))
    ensures CorePoint(w, w1.(install := d), ver, complete) && CheckTree(d, ver)
  {
    hide Sound, Grows;
    GrowsOn(w.install, w1.install, d);
    CheckTreeStays(w1.install, d, ver);
  }

  lemma ReportPhase(w: World, e: World, ver: Bytes, r: Report, reporting: Reporting, complete: (Bytes, Tree) -> bool)
    requires CorePoint(w, e, ver, complete)
    requires r == Failure(ver) || (r == Success(ver) && e.install.current == Some(ver) && CheckTree(e.install, ver))
    ensures ApplyTrail(w, e, Reported(e, r, reporting), ver, complete)
  {
    hide Sound, CheckTree, Grows;
  }

  lemma CoreIsSafe(w: World, ver: Bytes, a: Apply, complete: (Bytes, Tree) -> bool)
    requires Sound(w.install, complete)
    requires ver in w.stage.versions && Parses(ver) ==> complete(ver, w.stage.versions[ver])
    ensures var r := ApplyCore(w, ver, a);
            && ApplyTrail(w, w, r.trail, ver, complete)
            && (r.ok && a.reporting.Written? ==> After(w, r.trail).report == Success(ver))
            && (r.ok ==> After(w, r.trail).install.current == Some(ver))
  {
    PromotePhase(w, ver, a, complete);
    StartPoint(w, ver, complete);
    hide PromotePart, ActivateRun, Sound, CheckTree, Grows, CorePoint, OnInstall;
    var promote := PromotePart(w, ver, a);
    var promoted := OnInstall(w, promote.trail);
    var w1 := After(w, promoted);
    if !a.closed {
      ReportPhase(w, w, ver, Failure(ver), a.reporting, complete);
    } else if !promote.ok || !CheckTree(w1.install, ver) {
      ReportPhase(w, w1, ver, Failure(ver), a.reporting, complete);
      ApplyTrailJoins(w, w, promoted, Reported(w1, Failure(ver), a.reporting), ver, complete);
    } else {
      ActivatePhase(w, w1, ver, a.switch, complete);
      var activate := ActivateRun(w1.install, ver, a.switch);
      var activated := OnInstall(w1, activate.trail);
      var w2 := After(w1, activated);
      var r := if activate.ok then Success(ver) else Failure(ver);
      ReportPhase(w, w2, ver, r, a.reporting, complete);
      ApplyTrailJoins(w, w, promoted, activated, ver, complete);
      ApplyTrailJoins(w, w, promoted + activated, Reported(w2, r, a.reporting), ver, complete);
    }
  }

  lemma StartPoint(w: World, ver: Bytes, complete: (Bytes, Tree) -> bool)
    requires Sound(w.install, complete)
    ensures CorePoint(w, w, ver, complete)
  {
    hide Parses;
  }

  /**
   * At every point of an apply from a stage root, the last removal included, whatever fails and
   * wherever it is cut short: the install root is sound, `current` moves only to the checked target,
   * and success is reported only once it has.
   */
  lemma ApplyIsSafe(w: World, ver: Bytes, a: Apply, complete: (Bytes, Tree) -> bool)
    requires Sound(w.install, complete) && !a.source.InPlace?
    requires ver in w.stage.versions && Parses(ver) ==> complete(ver, w.stage.versions[ver])
    ensures var r := ApplyRun(w, ver, a);
            && (forall i :: 0 <= i < |r.trail| ==> ApplyPoint(w, r.trail[i], ver, complete))
            && (r.ok && a.reporting.Written? ==> After(w, r.trail).report == Success(ver))
            && (r.ok ==> After(w, r.trail).install.current == Some(ver))
  {
    CoreIsSafe(w, ver, a, complete);
    hide ApplyCore, CleansUp, ApplyPoint, RemovalTrail, CleanupTrail;
    var core := ApplyCore(w, ver, a);
    var end := After(w, core.trail);
    assert CorePoint(w, end, ver, complete);
    if CleansUp(w, ver, a) {
      TailPoints(w, end, ver, a, complete);
      AfterJoins(w, core.trail, CleanupTrail(end, ver, a));
    }
  }

  /** The last removal touches the stage root alone. */
  lemma TailPoints(w: World, end: World, ver: Bytes, a: Apply, complete: (Bytes, Tree) -> bool)
    requires ApplyPoint(w, end, ver, complete) && !a.source.InPlace?
    ensures var tail := CleanupTrail(end, ver, a);
            && (forall i :: 0 <= i < |tail| ==> ApplyPoint(w, tail[i], ver, complete))
            && After(end, tail).install == end.install && After(end, tail).report == end.report
  {
    hide RemovalTrail, Sound, Grows, CheckTree;
  }

  // ---------------------------------------------------------------- every run, every crash

  datatype Op =
    | DoAssemble(ver: Bytes, assembly: Assembly)
    | DoApply(ver: Bytes, apply: Apply)
    | DoPromote(ver: Bytes, promotion: Promotion)
    | DoActivate(ver: Bytes, switch: Switch)
    | DoRollback(switch: Switch)
    | DoDiscard(ver: Bytes, removal: Removal)

  function OpTrail(w: World, op: Op): seq<World> {
    match op
    case DoAssemble(ver, a) => OnStage(w, AssembleRun(w.stage, ver, a).trail)
    case DoApply(ver, a) => ApplyRun(w, ver, a).trail
    case DoPromote(ver, p) => OnInstall(w, PromoteRun(w.install, StagedTree(w, ver), ver, false, p).trail)
    case DoActivate(ver, s) => OnInstall(w, ActivateRun(w.install, ver, s).trail)
    case DoRollback(s) => OnInstall(w, RollbackRun(w.install, s).trail)
    case DoDiscard(ver, r) => OnStage(w, RemovalTrail(w.stage, ver, r))
  }

  function Least(a: nat, b: nat): nat { if a <= b then a else b }

  /** What is left after the first `cut` calls of a trail: a crash leaves exactly that. */
  function Upto<W>(start: W, trail: seq<W>, cut: nat): W { After(start, trail[..Least(cut, |trail|)]) }

  function Cut(w: World, op: Op, cut: nat): World { Upto(w, OpTrail(w, op), cut) }

  function Execute(w: World, steps: seq<(Op, nat)>): World
    decreases |steps|
  {
    if steps == [] then w else Execute(Cut(w, steps[0].0, steps[0].1), steps[1..])
  }

  /** Both roots sound; the stage root has no links of its own. */
  ghost predicate WorldSound(w: World, complete: (Bytes, Tree) -> bool) {
    && Sound(w.install, complete)
    && OnlyComplete(w.stage, complete) && w.stage.current.None? && w.stage.previous.None?
  }

  /** What the first `k` calls of a removal leave under the name: a complete tree, or nothing a link points at. */
  predicate LeavesSound(d: Disk, ver: Bytes, r: Removal, k: nat, complete: (Bytes, Tree) -> bool) {
    var n := Least(k, |RemovalTrail(d, ver, r)|);
    n > 0 ==>
      if n <= |r.partial| then Parses(ver) ==> complete(ver, r.partial[n - 1])
      else d.current != Some(ver) && d.previous != Some(ver)
  }

  /** Which steps keep the world sound: all but removals stopped in between, or of a version that is linked. */
  predicate StepKeeps(w: World, op: Op, cut: nat, complete: (Bytes, Tree) -> bool) {
    match op
    case DoDiscard(ver, r) => LeavesSound(w.stage, ver, r, cut, complete)
    case DoApply(ver, a) =>
      var core := ApplyCore(w, ver, a).trail;
      var end := After(w, core);
      CleansUp(w, ver, a) && cut > |core| ==>
        LeavesSound(if a.source.InPlace? then end.install else end.stage, ver, a.removal, cut - |core|, complete)
    case _ => true
  }

  /** The unpacking of an artifact yields a complete tree. */
  predicate BuildsComplete(op: Op, complete: (Bytes, Tree) -> bool) {
    op.DoAssemble? && op.assembly.built.Some? ==> complete(op.ver, op.assembly.built.value)
  }

  lemma StageSound(d: Disk, complete: (Bytes, Tree) -> bool)
    requires d.current.None? && d.previous.None?
    ensures Sound(d, complete) <==> OnlyComplete(d, complete)
  {
  }

  lemma ReplacingIsSound(d: Disk, ver: Bytes, t: Tree, complete: (Bytes, Tree) -> bool)
    requires Sound(d, complete) && ver in d.versions
    ensures Sound(WithVersion(d, ver, t), complete) <==> (Parses(ver) ==> complete(ver, t))
  {
    hide Parses;
    var e := WithVersion(d, ver, t);
    assert ver in e.versions && e.versions[ver] == t;
    assert forall v :: v in e.versions && v != ver ==> v in d.versions && e.versions[v] == d.versions[v];
  }

  lemma DroppingIsSound(d: Disk, ver: Bytes, complete: (Bytes, Tree) -> bool)
    requires Sound(d, complete)
    ensures Sound(DropVersion(d, ver), complete) <==> d.current != Some(ver) && d.previous != Some(ver)
  {
    hide Parses;
  }

  lemma RemovalPoint(d: Disk, ver: Bytes, r: Removal, k: nat)
    ensures var n := Least(k, |RemovalTrail(d, ver, r)|);
            Upto(d, RemovalTrail(d, ver, r), k)
            == if n == 0 then d else if n <= |r.partial| then WithVersion(d, ver, r.partial[n - 1]) else DropVersion(d, ver)
  {
  }

  lemma NothingToRemove(d: Disk, ver: Bytes, r: Removal)
    ensures ver !in d.versions ==> RemovalTrail(d, ver, r) == []
  {
  }

  /** A removal cut after any of its calls leaves a sound root exactly when what it leaves is sound. */
  lemma RemovalSound(d: Disk, ver: Bytes, r: Removal, k: nat, complete: (Bytes, Tree) -> bool)
    requires Sound(d, complete)
    ensures Sound(Upto(d, RemovalTrail(d, ver, r), k), complete) <==> LeavesSound(d, ver, r, k, complete)
  {
    RemovalPoint(d, ver, r, k);
    NothingToRemove(d, ver, r);
    hide Upto, RemovalTrail, Sound, WithVersion, DropVersion, Parses;
    var n := Least(k, |RemovalTrail(d, ver, r)|);
    if n == 0 {
    } else if n <= |r.partial| {
      ReplacingIsSound(d, ver, r.partial[n - 1], complete);
    } else {
      DroppingIsSound(d, ver, complete);
    }
  }

  lemma UptoOnStage(w: World, ds: seq<Disk>, k: nat)
    ensures Upto(w, OnStage(w, ds), k) == w.(stage := Upto(w.stage, ds, k))
  {
  }

  lemma UptoOnInstall(w: World, ds: seq<Disk>, k: nat)
    ensures Upto(w, OnInstall(w, ds), k) == w.(install := Upto(w.install, ds, k))
  {
  }

  lemma UptoJoins<W>(w: W, a: seq<W>, b: seq<W>, k: nat)
    ensures Upto(w, a + b, k) == if k <= |a| then Upto(w, a, k) else Upto(After(w, a), b, k - |a|)
  {
    if k <= |a| {
      assert (a + b)[..k] == a[..k];
    } else {
      var n := Least(k - |a|, |b|);
      assert (a + b)[..|a| + n] == a + b[..n];
    }
  }

  lemma LinksStay(d: Disk, ver: Bytes, r: Removal, k: nat)
    ensures var e := Upto(d, RemovalTrail(d, ver, r), k); e.current == d.current && e.previous == d.previous
  {
  }

  /** A removal in the stage root. */
  lemma StageRemovalSound(w: World, ver: Bytes, r: Removal, k: nat, complete: (Bytes, Tree) -> bool)
    requires WorldSound(w, complete)
    ensures var e := Upto(w, OnStage(w, RemovalTrail(w.stage, ver, r)), k);
            (WorldSound(e, complete) <==> LeavesSound(w.stage, ver, r, k, complete)) && e.install == w.install
  {
    StageSound(w.stage, complete);
    RemovalSound(w.stage, ver, r, k, complete);
    UptoOnStage(w, RemovalTrail(w.stage, ver, r), k);
    LinksStay(w.stage, ver, r, k);
    hide RemovalTrail, Sound, OnlyComplete, LeavesSound, OnStage;
    StageSound(Upto(w.stage, RemovalTrail(w.stage, ver, r), k), complete);
  }

  /** And one in the install root. */
  lemma InstallRemovalSound(w: World, ver: Bytes, r: Removal, k: nat, complete: (Bytes, Tree) -> bool)
    requires WorldSound(w, complete)
    ensures var e := Upto(w, OnInstall(w, RemovalTrail(w.install, ver, r)), k);
            WorldSound(e, complete) <==> LeavesSound(w.install, ver, r, k, complete)
  {
    RemovalSound(w.install, ver, r, k, complete);
    UptoOnInstall(w, RemovalTrail(w.install, ver, r), k);
    hide RemovalTrail, Sound, OnlyComplete, LeavesSound, OnInstall;
  }

  ghost predicate WorldTrailSound(w: World, trail: seq<World>, complete: (Bytes, Tree) -> bool) {
    forall i :: 0 <= i < |trail| ==> WorldSound(trail[i], complete) && Grows(w.install, trail[i].install)
  }

  lemma InstallTrailSound(w: World, trail: seq<Disk>, complete: (Bytes, Tree) -> bool)
    requires WorldSound(w, complete) && TrailSound(w.install, trail, complete)
    ensures WorldTrailSound(w, OnInstall(w, trail), complete)
  {
    hide Sound, Grows, OnlyComplete;
  }

  lemma StageTrailSound(w: World, trail: seq<Disk>, complete: (Bytes, Tree) -> bool)
    requires WorldSound(w, complete)
    requires forall i :: 0 <= i < |trail| ==>
               OnlyComplete(trail[i], complete) && trail[i].current.None? && trail[i].previous.None?
    ensures WorldTrailSound(w, OnStage(w, trail), complete)
  {
    hide Sound, OnlyComplete;
  }

  lemma PointIsSound(w: World, e: World, ver: Bytes, complete: (Bytes, Tree) -> bool)
    requires WorldSound(w, complete) && CorePoint(w, e, ver, complete)
    ensures WorldSound(e, complete) && Grows(w.install, e.install) && e.stage == w.stage
  {
    hide Sound, Grows, OnlyComplete, CheckTree;
  }

  lemma CoreTrailSound(w: World, ver: Bytes, a: Apply, complete: (Bytes, Tree) -> bool)
    requires WorldSound(w, complete)
    ensures WorldTrailSound(w, ApplyCore(w, ver, a).trail, complete)
    ensures WorldSound(After(w, ApplyCore(w, ver, a).trail), complete)
    ensures After(w, ApplyCore(w, ver, a).trail).stage == w.stage
    ensures Grows(w.install, After(w, ApplyCore(w, ver, a).trail).install)
  {
    StagedIsComplete(w, ver, complete);
    CoreIsSafe(w, ver, a, complete);
    hide ApplyCore, WorldSound, Grows, CorePoint;
    var trail := ApplyCore(w, ver, a).trail;
    forall i | 0 <= i < |trail| ensures WorldSound(trail[i], complete) && Grows(w.install, trail[i].install) {
      PointIsSound(w, trail[i], ver, complete);
    }
    PointIsSound(w, After(w, trail), ver, complete);
  }

  lemma UptoSound(w: World, trail: seq<World>, cut: nat, complete: (Bytes, Tree) -> bool)
    requires WorldSound(w, complete) && WorldTrailSound(w, trail, complete)
    ensures WorldSound(Upto(w, trail, cut), complete) && Grows(w.install, Upto(w, trail, cut).install)
  {
    hide WorldSound;
    GrowsHere(w.install);
    hide Grows;
  }

  lemma ApplyStep(w: World, ver: Bytes, a: Apply, cut: nat, complete: (Bytes, Tree) -> bool)
    requires WorldSound(w, complete)
    ensures WorldSound(Cut(w, DoApply(ver, a), cut), complete) <==> StepKeeps(w, DoApply(ver, a), cut, complete)
    ensures !a.source.InPlace? ==> Grows(w.install, Cut(w, DoApply(ver, a), cut).install)
  {
    hide ApplyCore, CleansUp, WorldSound, Grows, RemovalTrail, LeavesSound, WorldTrailSound;
    CoreTrailSound(w, ver, a, complete);
    var core := ApplyCore(w, ver, a).trail;
    var end := After(w, core);
    if CleansUp(w, ver, a) {
      UptoJoins(w, core, CleanupTrail(end, ver, a), cut);
    }
    hide Upto;
    if !CleansUp(w, ver, a) || cut <= |core| {
      UptoSound(w, core, cut, complete);
    } else if a.source.InPlace? {
      InstallRemovalSound(end, ver, a.removal, cut - |core|, complete);
    } else {
      StageRemovalSound(end, ver, a.removal, cut - |core|, complete);
    }
  }

  lemma OpTrailSound(w: World, op: Op, complete: (Bytes, Tree) -> bool)
    requires WorldSound(w, complete) && BuildsComplete(op, complete) && !op.DoDiscard? && !op.DoApply?
    ensures WorldTrailSound(w, OpTrail(w, op), complete)
  {
    hide AssembleRun, PromoteRun, ActivateRun, RollbackRun, ApplyRun, OnlyComplete, Grows, WorldTrailSound;
    match op
    case DoAssemble(ver, a) =>
      StageSound(w.stage, complete);
      AssembleSound(w.stage, ver, a, complete);
      StageTrailSound(w, AssembleRun(w.stage, ver, a).trail, complete);
    case DoPromote(ver, p) =>
      StagedIsComplete(w, ver, complete);
      PromoteSound(w.install, StagedTree(w, ver), ver, false, p, complete);
      InstallTrailSound(w, PromoteRun(w.install, StagedTree(w, ver), ver, false, p).trail, complete);
    case DoActivate(ver, s) =>
      ActivateSound(w.install, ver, s, complete);
      InstallTrailSound(w, ActivateRun(w.install, ver, s).trail, complete);
    case DoRollback(s) =>
      RollbackSound(w.install, s, complete);
      InstallTrailSound(w, RollbackRun(w.install, s).trail, complete);
  }

  /**
   * One operation, cut after any of its calls, leaves both roots sound exactly when no removal in it
   * leaves a partial tree or a dangling link; and installed trees stay, unless it is an in-place apply.
   */
  lemma StepSound(w: World, op: Op, cut: nat, complete: (Bytes, Tree) -> bool)
    requires WorldSound(w, complete) && BuildsComplete(op, complete)
    ensures WorldSound(Cut(w, op, cut), complete) <==> StepKeeps(w, op, cut, complete)
    ensures !IsInPlace(op) ==> Grows(w.install, Cut(w, op, cut).install)
  {
    hide WorldSound, Grows, RemovalTrail, LeavesSound, WorldTrailSound, ApplyRun, ApplyCore, CleansUp,
         AssembleRun, PromoteRun, ActivateRun, RollbackRun, Upto;
    if op.DoDiscard? {
      GrowsHere(w.install);
      StageRemovalSound(w, op.ver, op.removal, cut, complete);
    } else if op.DoApply? {
      ApplyStep(w, op.ver, op.apply, cut, complete);
    } else {
      OpTrailSound(w, op, complete);
      UptoSound(w, OpTrail(w, op), cut, complete);
    }
  }

  predicate IsInPlace(op: Op) { op.DoApply? && op.apply.source.InPlace? }

  lemma GrowsHere(d: Disk)
    ensures Grows(d, d)
  {
  }

  /** A name the promotion accepts has a complete tree in the stage root. */
  lemma StagedIsComplete(w: World, ver: Bytes, complete: (Bytes, Tree) -> bool)
    requires WorldSound(w, complete)
    ensures Parses(ver) && ver in w.stage.versions ==> complete(ver, w.stage.versions[ver])
  {
  }

  /** The world is sound at the end of every step. */
  ghost predicate SoundThroughout(w: World, steps: seq<(Op, nat)>, complete: (Bytes, Tree) -> bool)
    decreases |steps|
  {
    WorldSound(w, complete) && (steps != [] ==> SoundThroughout(Cut(w, steps[0].0, steps[0].1), steps[1..], complete))
  }

  /** Every step is one that keeps it so. */
  ghost predicate KeptThroughout(w: World, steps: seq<(Op, nat)>, complete: (Bytes, Tree) -> bool)
    decreases |steps|
  {
    steps != [] ==>
      && StepKeeps(w, steps[0].0, steps[0].1, complete)
      && KeptThroughout(Cut(w, steps[0].0, steps[0].1), steps[1..], complete)
  }

  /**
   * In every run, with calls failing anywhere and a crash after any call: every visible version in
   * either root is complete and neither link dangles after each step, if and only if no removal on
   * the way leaves a partial tree or takes away a version that is linked.
   */
  lemma {:induction false} RunsStaySound(w: World, steps: seq<(Op, nat)>, complete: (Bytes, Tree) -> bool)
    requires WorldSound(w, complete)
    requires forall i :: 0 <= i < |steps| ==> BuildsComplete(steps[i].0, complete)
    ensures SoundThroughout(w, steps, complete) <==> KeptThroughout(w, steps, complete)
    decreases |steps|
  {
    hide Cut, WorldSound, StepKeeps, BuildsComplete;
    if steps != [] {
      var w1 := Cut(w, steps[0].0, steps[0].1);
      StepSound(w, steps[0].0, steps[0].1, complete);
      if WorldSound(w1, complete) {
        RunsStaySound(w1, steps[1..], complete);
      }
    }
  }

  /** And in such a run without in-place applies installed trees never change or vanish, and `current` stays set. */
  lemma {:induction false} InstalledTreesStay(w: World, steps: seq<(Op, nat)>, complete: (Bytes, Tree) -> bool)
    requires SoundThroughout(w, steps, complete)
    requires forall i :: 0 <= i < |steps| ==> BuildsComplete(steps[i].0, complete) && !IsInPlace(steps[i].0)
    ensures Grows(w.install, Execute(w, steps).install)
    decreases |steps|
  {
    GrowsHere(w.install);
    hide Cut, WorldSound, StepKeeps, BuildsComplete, Grows, IsInPlace;
    if steps != [] {
      var w1 := Cut(w, steps[0].0, steps[0].1);
      StepSound(w, steps[0].0, steps[0].1, complete);
      InstalledTreesStay(w1, steps[1..], complete);
      GrowsOn(w.install, w1.install, Execute(w1, steps[1..]).install);
    }
  }

  // ---------------------------------------------------------------- what an interrupted removal leads to

  lemma FirstCallOfDiscard(w: World, ver: Bytes, left: Tree, partial: seq<Tree>, gone: bool)
    requires ver in w.stage.versions
    ensures Cut(w, DoDiscard(ver, Removal([left] + partial, gone)), 1) == w.(stage := WithVersion(w.stage, ver, left))
  {
    var r := Removal([left] + partial, gone);
    UptoOnStage(w, RemovalTrail(w.stage, ver, r), 1);
    var trail := RemovalTrail(w.stage, ver, r);
    assert trail[..1] == [trail[0]];
  }

  /** An apply in which nothing fails. */
  function Flawless(source: Source, n: nat, removal: Removal): Apply {
    Apply(true, source, Promotion(n, [], true, true, true, true), NO_FAULTS, Written, removal)
  }

  /** Without faults a staged tree with the required files is promoted as it is, and its version activated. */
  lemma FlawlessPromote(d: Disk, ver: Bytes, staged: Tree, n: nat)
    requires IsVersionName(ver) && ver !in d.versions
    ensures var r := PromoteRun(d, Some(staged), ver, false, Promotion(n, [], true, true, true, true));
            && r.ok && r.trail != [] && ver in After(d, r.trail).versions && After(d, r.trail).versions[ver] == staged
  {
    PromoteNameNeverParses(n);
    hide Parses, PromoteName;
  }

  lemma FlawlessActivate(d: Disk, ver: Bytes)
    requires IsVersionName(ver) && ver in d.versions
    ensures var r := ActivateRun(d, ver, NO_FAULTS);
            && r.ok && After(d, r.trail).current == Some(ver) && After(d, r.trail).versions == d.versions
  {
    hide IsVersionName;
  }

  lemma FlawlessCore(w: World, ver: Bytes, left: Tree, n: nat, removal: Removal)
    requires IsVersionName(ver) && HasRequired(left) && ver !in w.install.versions
    requires StagedTree(w, ver) == Some(left)
    ensures var r := ApplyCore(w, ver, Flawless(Staged, n, removal)); var e := After(w, r.trail);
            && r.ok && e.install.current == Some(ver) && ver in e.install.versions && e.install.versions[ver] == left
            && e.report == Success(ver)
  {
    FlawlessPromote(w.install, ver, left, n);
    var a := Flawless(Staged, n, removal);
    var d1 := After(w.install, PromotePart(w, ver, a).trail);
    FlawlessActivate(d1, ver);
    CoreEnds(w, ver, a);
    hide PromoteRun, ActivateRun, IsVersionName, HasRequired, ApplyCore;
  }

  /**
   * A removal cut short leaves a partial tree that Assemble's early return then takes for a finished
   * assembly, and that an apply without a single fault installs, activates and reports as a success:
   * all it takes is the three files checkTree looks for.
   */
  lemma InterruptedDiscardIsInstalled(w: World, ver: Bytes, left: Tree, partial: seq<Tree>, gone: bool,
                                      a: Assembly, n: nat, removal: Removal)
    requires IsVersionName(ver) && ver in w.stage.versions && ver !in w.install.versions && HasRequired(left)
    ensures var w1 := Cut(w, DoDiscard(ver, Removal([left] + partial, gone)), 1);
            && AssembleRun(w1.stage, ver, a) == Run(true, [])
            && var r := ApplyRun(w1, ver, Flawless(Staged, n, removal)); var e := After(w1, r.trail);
            && r.ok && e.report == Success(ver)
            && e.install.current == Some(ver) && ver in e.install.versions && e.install.versions[ver] == left
  {
    FirstCallOfDiscard(w, ver, left, partial, gone);
    hide Cut, HasRequired, IsVersionName, ApplyCore, CleansUp, RemovalTrail;
    var w1 := Cut(w, DoDiscard(ver, Removal([left] + partial, gone)), 1);
    FlawlessCore(w1, ver, left, n, removal);
    var fl := Flawless(Staged, n, removal);
    StageCleanup(w1, ver, fl);
  }

  lemma StageCleanup(w: World, ver: Bytes, a: Apply)
    requires a.source.Staged?
    ensures var r := ApplyRun(w, ver, a); var c := ApplyCore(w, ver, a);
            r.ok == c.ok && After(w, r.trail).install == After(w, c.trail).install
            && After(w, r.trail).report == After(w, c.trail).report
  {
    hide ApplyCore, CleansUp, RemovalTrail;
    var end := After(w, ApplyCore(w, ver, a).trail);
    AfterJoins(w, ApplyCore(w, ver, a).trail, CleanupTrail(end, ver, a));
  }

  /** A version that is applied in place is removed again after its activation: `current` dangles behind a success. */
  lemma InPlaceApplyDangles(w: World, ver: Bytes, n: nat, partial: seq<Tree>)
    requires CheckTree(w.install, ver)
    ensures var r := ApplyRun(w, ver, Flawless(InPlace, n, Removal(partial, true))); var e := After(w, r.trail);
            r.ok && e.report == Success(ver) && e.install.current == Some(ver) && ver !in e.install.versions
  {
    var a := Flawless(InPlace, n, Removal(partial, true));
    FlawlessActivate(w.install, ver);
    InPlaceIsPromoted(w, ver, a);
    CoreEnds(w, ver, a);
    ApplyEnds(w, ver, a);
    var end := After(w, ApplyCore(w, ver, a).trail);
    LastOfRemoval(end.install, ver, partial);
    hide HasRequired, IsVersionName, ActivateRun, ApplyCore, ApplyRun, RemovalTrail, PromotePart;
  }

  lemma InPlaceIsPromoted(w: World, ver: Bytes, a: Apply)
    requires CheckTree(w.install, ver) && a.source.InPlace? && a.closed
    ensures PromotePart(w, ver, a) == Run(true, []) && CleansUp(w, ver, a)
  {
    hide HasRequired, IsVersionName;
  }

  lemma LastOfRemoval(d: Disk, ver: Bytes, partial: seq<Tree>)
    requires ver in d.versions
    ensures After(d, RemovalTrail(d, ver, Removal(partial, true))) == DropVersion(d, ver)
  {
  }

  // ---------------------------------------------------------------- the operations as the code runs them

  lemma Joined(a: seq<Disk>, b: seq<Disk>, c: seq<Disk>)
    ensures a + b + c == a + (b + c)
  {
  }

  /** An installer working on its root: `trail` records the disk after each call. */
  class Root {
    var disk: Disk
    ghost var trail: seq<Disk>

    constructor (d: Disk)
      ensures disk == d && trail == []
    {
      disk := d;
      trail := [];
    }

    /** The operation run from `from` to here took exactly the calls of `run`. */
    twostate predicate Did(run: Run<Disk>)
      reads this
    {
      trail == old(trail) + run.trail && disk == After(old(disk), run.trail)
    }

    /** One filesystem call has changed the disk. */
    method Commit(d: Disk)
      modifies this
      ensures disk == d && trail == old(trail) + [d]
    {
      disk := d;
      trail := trail + [d];
    }

    /** A series of calls, the disk passing through the given states. */
    method CommitAll(ds: seq<Disk>)
      modifies this
      ensures disk == After(old(disk), ds) && trail == old(trail) + ds
    {
      for i := 0 to |ds|
        invariant disk == if i == 0 then old(disk) else ds[i - 1]
        invariant trail == old(trail) + ds[..i]
      {
        Commit(ds[i]);
        assert ds[..i + 1] == ds[..i] + [ds[i]];
      }
      assert ds[..|ds|] == ds;
    }

    /** Assemble: unpack into scratch space, then one rename into place. */
    method Assemble(target: Bytes, a: Assembly) returns (ok: bool)
      modifies this
      ensures Did(AssembleRun(old(disk), target, a)) && ok == AssembleRun(old(disk), target, a).ok
    {
      hide IsVersionName;
      if !IsVersionName(target) {
        return false;
      }
      if target in disk.versions {
        return true;
      }
      var start := disk;
      CommitAll(WithScratch(start, a.dir, a.partial));
      ok := a.built.Some? && a.mkdir && a.rename;
      if ok {
        Commit(start.(scratch := start.scratch[a.dir := a.built.value]));
        Commit(start.(versions := start.versions[target := a.built.value], scratch := start.scratch[a.dir := map[]]));
      }
      if a.cleanup {
        Commit(DropScratch(if ok then disk else start, a.dir));
      }
    }

    /** PromoteStaged: copy beside the versions, then one rename into place. */
    method PromoteStaged(staged: Option<Tree>, ver: Bytes, inPlace: bool, p: Promotion) returns (ok: bool)
      modifies this
      ensures Did(PromoteRun(old(disk), staged, ver, inPlace, p))
      ensures ok == PromoteRun(old(disk), staged, ver, inPlace, p).ok
    {
      hide IsVersionName, PromoteName;
      if !IsVersionName(ver) || staged.None? {
        return false;
      }
      if inPlace || ver in disk.versions {
        return true;
      }
      if !p.mkdir {
        return false;
      }
      var start, name := disk, PromoteName(p.dir);
      CommitAll(WithPartials(start, name, p.partial));
      ok := p.copy && p.rename;
      if ok {
        Commit(WithVersion(start, name, staged.value));
        Commit(WithVersion(WithVersion(start, name, map[]), ver, staged.value));
      }
      if p.cleanup {
        Commit(DropVersion(if ok then disk else start, name));
      }
    }

    /** os.RemoveAll of a version's directory. */
    method RemoveAll(ver: Bytes, r: Removal)
      modifies this
      ensures Did(Run(true, RemovalTrail(old(disk), ver, r)))
    {
      if ver !in disk.versions {
        return;
      }
      var start := disk;
      CommitAll(WithPartials(start, ver, r.partial));
      if r.gone {
        Commit(DropVersion(start, ver));
      }
    }

    /** The shared end of Activate and Rollback: a temporary link, then the atomic rename. */
    method SwitchTo(target: Bytes, s: Switch) returns (ok: bool)
      modifies this
      ensures Did(SwitchRun(old(disk), target, s)) && ok == SwitchRun(old(disk), target, s).ok
    {
      Commit(if s.removeTmp then disk.(tmpLink := None) else disk);
      if !s.linkTmp || disk.tmpLink.Some? {
        return false;
      }
      Commit(disk.(tmpLink := Some(target)));
      if !s.rename {
        if s.dropTmp {
          Commit(disk.(tmpLink := None));
        }
        return false;
      }
      Commit(disk.(tmpLink := None, current := Some(target)));
      return true;
    }

    /** Activate: anchor the running version, then switch. */
    method Activate(target: Bytes, s: Switch) returns (ok: bool, prev: Option<Bytes>)
      modifies this
      ensures Did(ActivateRun(old(disk), target, s)) && ok == ActivateRun(old(disk), target, s).ok
      ensures ok ==> prev == if s.readLink then old(disk.current) else None
    {
      hide IsVersionName, SwitchRun;
      prev := None;
      if !IsVersionName(target) || target !in disk.versions {
        return false, None;
      }
      ghost var before := trail;
      if s.readLink && disk.current.Some? {
        prev := disk.current;
        Commit(if s.removePrevious then disk.(previous := None) else disk);
        if !s.linkPrevious || disk.previous.Some? {
          return false, None;
        }
        Commit(disk.(previous := disk.current));
      }
      ghost var anchor := AnchorRun(old(disk), s);
      assert trail == before + anchor.trail && disk == After(old(disk), anchor.trail);
      Joined(before, anchor.trail, SwitchRun(disk, target, s).trail);
      ok := SwitchTo(target, s);
      if !ok {
        prev := None;
      }
    }

    /** Rollback: switch to the anchored version. */
    method Rollback(s: Switch) returns (ok: bool)
      modifies this
      ensures Did(RollbackRun(old(disk), s)) && ok == RollbackRun(old(disk), s).ok
    {
      if !s.readLink || disk.previous.None? {
        return false;
      }
      ok := SwitchTo(disk.previous.value, s);
    }
  }

  /** The end of an apply's phases in terms of the ends of each. */
  lemma CoreEnds(w: World, ver: Bytes, a: Apply)
    ensures var r := ApplyCore(w, ver, a);
            var promote := PromotePart(w, ver, a);
            var d1 := After(w.install, promote.trail);
            var activate := ActivateRun(d1, ver, a.switch);
            var bad := if a.reporting.Written? then Failure(ver) else w.report;
            if !a.closed then !r.ok && After(w, r.trail) == w.(report := bad)
            else if !promote.ok || !CheckTree(d1, ver) then
              !r.ok && After(w, r.trail) == w.(install := d1, report := bad)
            else
              && r.ok == (activate.ok && !a.reporting.Unwritable?)
              && After(w, r.trail) == w.(install := After(d1, activate.trail),
                                         report := if activate.ok && a.reporting.Written? then Success(ver) else bad)
  {
    hide PromotePart, ActivateRun, CheckTree;
    var promote := PromotePart(w, ver, a);
    var promoted := OnInstall(w, promote.trail);
    InstallEnds(w, promote.trail);
    var w1 := After(w, promoted);
    var activate := ActivateRun(w1.install, ver, a.switch);
    InstallEnds(w1, activate.trail);
    var activated := OnInstall(w1, activate.trail);
    AfterJoins(w, promoted, activated);
    AfterJoins(w, promoted, Reported(w1, Failure(ver), a.reporting));
    AfterJoins(w, promoted + activated, Reported(After(w1, activated), Failure(ver), a.reporting));
    AfterJoins(w, promoted + activated, Reported(After(w1, activated), Success(ver), a.reporting));
  }

  lemma InstallEnds(w: World, trail: seq<Disk>)
    ensures After(w, OnInstall(w, trail)) == w.(install := After(w.install, trail))
  {
  }

  lemma StageEnds(w: World, trail: seq<Disk>)
    ensures After(w, OnStage(w, trail)) == w.(stage := After(w.stage, trail))
  {
  }

  lemma AfterJoins(w: World, a: seq<World>, b: seq<World>)
    ensures After(w, a + b) == After(After(w, a), b)
  {
  }

  /** The end of a whole apply: its phases, then the removal in the root the staged tree was found in. */
  lemma ApplyEnds(w: World, ver: Bytes, a: Apply)
    ensures var r := ApplyRun(w, ver, a); var c := ApplyCore(w, ver, a); var e := After(w, c.trail);
            && r.ok == c.ok
            && After(w, r.trail) ==
                 if !CleansUp(w, ver, a) then e
                 else if a.source.InPlace? then e.(install := After(e.install, RemovalTrail(e.install, ver, a.removal)))
                 else e.(stage := After(e.stage, RemovalTrail(e.stage, ver, a.removal)))
  {
    hide ApplyCore, CleansUp, RemovalTrail, OnInstall, OnStage;
    var core := ApplyCore(w, ver, a).trail;
    var end := After(w, core);
    AfterJoins(w, core, CleanupTrail(end, ver, a));
    InstallEnds(end, RemovalTrail(end.install, ver, a.removal));
    StageEnds(end, RemovalTrail(end.stage, ver, a.removal));
  }

  /** promote, check, activate; `failed` is the report of a failure. */
  method RunPhases(install: Root, staged: Option<Tree>, present: Report, ver: Bytes, a: Apply)
    returns (ok: bool, promoted: bool, report: Report)
    requires staged == TreeIn(install.disk, ver) || !a.source.InPlace?
    modifies install
    ensures var promote := if a.source.NoStaged? then Run(true, [])
                           else PromoteRun(old(install.disk), staged, ver, a.source.InPlace?, a.promotion);
            var d1 := After(old(install.disk), promote.trail);
            var activate := ActivateRun(d1, ver, a.switch);
            var bad := if a.reporting.Written? then Failure(ver) else present;
            && promoted == (a.closed && promote.ok)
            && if !a.closed then !ok && install.disk == old(install.disk) && report == bad
               else if !promote.ok || !CheckTree(d1, ver) then !ok && install.disk == d1 && report == bad
               else
                 && ok == (activate.ok && !a.reporting.Unwritable?) && install.disk == After(d1, activate.trail)
                 && report == if activate.ok && a.reporting.Written? then Success(ver) else bad
  {
    hide PromoteRun, ActivateRun, CheckTree;
    var failed := if a.reporting.Written? then Failure(ver) else present;
    if !a.closed {
      return false, false, failed;
    }
    if !a.source.NoStaged? {
      promoted := install.PromoteStaged(staged, ver, a.source.InPlace?, a.promotion);
      if !promoted {
        return false, false, failed;
      }
    }
    if !CheckTree(install.disk, ver) {
      return false, true, failed;
    }
    var activated, _ := install.Activate(ver, a.switch);
    if !activated {
      return false, true, failed;
    }
    return !a.reporting.Unwritable?, true, if a.reporting.Written? then Success(ver) else present;
  }

  /** runApply: its phases, and on the way out the removal of the staged directory. */
  method RunApply(install: Root, stage: Root, present: Report, ver: Bytes, a: Apply) returns (ok: bool, report: Report)
    requires install != stage
    modifies install, stage
    ensures var w := World(old(stage.disk), old(install.disk), present); var r := ApplyRun(w, ver, a);
            ok == r.ok && After(w, r.trail) == World(stage.disk, install.disk, report)
  {
    ghost var w := World(stage.disk, install.disk, present);
    CoreEnds(w, ver, a);
    ApplyEnds(w, ver, a);
    hide ApplyRun, ApplyCore, PromoteRun, ActivateRun, CheckTree, RemovalTrail;
    var staged := TreeIn(if a.source.InPlace? then install.disk else stage.disk, ver);
    var promoted;
    ok, promoted, report := RunPhases(install, staged, present, ver, a);
    if promoted && !a.source.NoStaged? {
      if a.source.InPlace? {
        install.RemoveAll(ver, a.removal);
      } else {
        stage.RemoveAll(ver, a.removal);
      }
    }
  }

  // ---------------------------------------------------------------- when each operation succeeds, and what it leaves

  /** An assembly succeeds exactly when the tree is there already or is built and renamed; then it is the built one. */
  lemma AssembleExactly(d: Disk, target: Bytes, a: Assembly)
    ensures var r := AssembleRun(d, target, a); var e := After(d, r.trail);
            var done := a.built.Some? && a.mkdir && a.rename;
            && (r.ok <==> IsVersionName(target) && (target in d.versions || done))
            && e.versions == (if r.ok && target !in d.versions then d.versions[target := a.built.value] else d.versions)
            && e.current == d.current && e.previous == d.previous
            && (IsVersionName(target) && target !in d.versions && a.cleanup && (done || a.partial != []) ==>
                  e.scratch == d.scratch - {a.dir})
  {
    hide IsVersionName;
  }

  /** Where a promotion's calls end: beside the versions, or with the tree in place. */
  lemma PromoteEnds(d: Disk, staged: Option<Tree>, ver: Bytes, inPlace: bool, p: Promotion)
    ensures var r := PromoteRun(d, staged, ver, inPlace, p); var e := After(d, r.trail); var name := PromoteName(p.dir);
            && (r.ok <==> IsVersionName(ver) && staged.Some?
                          && (inPlace || ver in d.versions || (p.mkdir && p.copy && p.rename)))
            && (if r.ok && !(inPlace || ver in d.versions)
                then var moved := WithVersion(WithVersion(d, name, map[]), ver, staged.value);
                     e == if p.cleanup then DropVersion(moved, name) else moved
                else e == d || e == DropVersion(d, name)
                     || (p.partial != [] && e == WithVersion(d, name, p.partial[|p.partial| - 1])))
  {
    hide IsVersionName, PromoteName, WithVersion, DropVersion;
    if IsVersionName(ver) && staged.Some? && !inPlace && ver !in d.versions && p.mkdir {
      var name := PromoteName(p.dir);
      var full := WithVersion(d, name, staged.value);
      var moved := WithVersion(WithVersion(d, name, map[]), ver, staged.value);
      var copied := WithPartials(d, name, p.partial);
      LastDisk(d, copied + [full], moved);
      LastDisk(d, copied + [full, moved], DropVersion(moved, name));
      LastDisk(d, copied, DropVersion(d, name));
      assert copied + [full, moved] == copied + [full] + [moved];
      assert copied + [full, moved] + [DropVersion(moved, name)] == copied + [full, moved] + [DropVersion(moved, name)];
      assert copied + [] == copied && copied + [full, moved] + [] == copied + [full, moved];
    }
  }

  lemma LastDisk(d: Disk, ds: seq<Disk>, e: Disk)
    ensures After(d, ds + [e]) == e
  {
  }

  lemma BesideIsBeside(d: Disk, name: Bytes, t: Tree)
    ensures var e := DropVersion(d, name); e.versions - {name} == d.versions - {name} && e.(versions := d.versions) == d
    ensures var e := WithVersion(d, name, t); e.versions - {name} == d.versions - {name} && e.(versions := d.versions) == d
  {
  }

  lemma PlacedIsPlaced(d: Disk, name: Bytes, ver: Bytes, t: Tree)
    requires ver != name
    ensures var moved := WithVersion(WithVersion(d, name, map[]), ver, t);
            && moved.versions - {name} == d.versions[ver := t] - {name}
            && DropVersion(moved, name).versions - {name} == d.versions[ver := t] - {name}
            && name !in DropVersion(moved, name).versions
            && moved.(versions := d.versions) == d && DropVersion(moved, name).(versions := d.versions) == d
  {
  }

  /** A promotion succeeds exactly when a tree was staged and it is there already or is copied and renamed. */
  lemma PromoteExactly(d: Disk, staged: Option<Tree>, ver: Bytes, inPlace: bool, p: Promotion)
    ensures var r := PromoteRun(d, staged, ver, inPlace, p); var e := After(d, r.trail);
            var there := inPlace || ver in d.versions; var name := PromoteName(p.dir);
            && (r.ok <==> IsVersionName(ver) && staged.Some? && (there || (p.mkdir && p.copy && p.rename)))
            && e.versions - {name} == (if r.ok && !there then d.versions[ver := staged.value] else d.versions) - {name}
            && (r.ok && !there && p.cleanup ==> name !in e.versions)
            && e.(versions := d.versions) == d
  {
    var name := PromoteName(p.dir);
    PromoteNameNeverParses(p.dir);
    assert IsVersionName(ver) ==> ver != name;
    PromoteEnds(d, staged, ver, inPlace, p);
    hide IsVersionName, PromoteName, PromoteRun, WithVersion, DropVersion;
    BesideIsBeside(d, name, if p.partial == [] then map[] else p.partial[|p.partial| - 1]);
    if IsVersionName(ver) && staged.Some? {
      PlacedIsPlaced(d, name, ver, staged.value);
    }
  }

  /** What a switch needs: room for the temporary link, the link, and the rename. */
  predicate CanSwitch(d: Disk, s: Switch) { (s.removeTmp || d.tmpLink.None?) && s.linkTmp && s.rename }

  /** What anchoring needs, where there is something to anchor: room for the anchor, and the link. */
  predicate CanAnchor(d: Disk, s: Switch) {
    (s.readLink && d.current.Some?) ==> (s.removePrevious || d.previous.None?) && s.linkPrevious
  }

  /** An activation succeeds exactly when the version is there, the running one can be anchored, and the switch works. */
  lemma ActivateExactly(d: Disk, target: Bytes, s: Switch)
    ensures var r := ActivateRun(d, target, s);
            && (r.ok <==> IsVersionName(target) && target in d.versions && CanAnchor(d, s) && CanSwitch(d, s))
            && (r.ok ==> After(d, r.trail).current == Some(target) && After(d, r.trail).tmpLink == None)
            && (!r.ok ==> After(d, r.trail).current == d.current)
            && After(d, r.trail).versions == d.versions
  {
    hide IsVersionName;
    if IsVersionName(target) && target in d.versions {
      var anchor := AnchorRun(d, s);
      var d1 := After(d, anchor.trail);
      SwitchExactly(d1, target, s);
      AnchorExactly(d, s);
      LastOfBoth(d, anchor.trail, SwitchRun(d1, target, s).trail);
      hide AnchorRun, SwitchRun, CanAnchor, CanSwitch;
    }
  }

  lemma SwitchExactly(d: Disk, target: Bytes, s: Switch)
    ensures var r := SwitchRun(d, target, s); var e := After(d, r.trail);
            && (r.ok <==> CanSwitch(d, s)) && e.versions == d.versions
            && (if r.ok then e.current == Some(target) && e.tmpLink == None else e.current == d.current)
  {
  }

  lemma AnchorExactly(d: Disk, s: Switch)
    ensures var r := AnchorRun(d, s); var e := After(d, r.trail);
            && (r.ok <==> CanAnchor(d, s))
            && e.(previous := d.previous) == d && (CanSwitch(e, s) <==> CanSwitch(d, s))
  {
  }

  lemma LastOfBoth(d: Disk, a: seq<Disk>, b: seq<Disk>)
    ensures After(d, a + b) == After(After(d, a), b)
  {
  }

  /** And a rollback exactly when there is an anchor to go back to, and the switch goes through. */
  lemma RollbackExactly(d: Disk, s: Switch)
    ensures var r := RollbackRun(d, s);
            && (r.ok <==> s.readLink && d.previous.Some? && CanSwitch(d, s))
            && (r.ok ==> After(d, r.trail).current == d.previous)
            && (!r.ok ==> After(d, r.trail).current == d.current)
  {
  }

  /** The tree an apply finds under the version once the promotion is over. */
  function PromotedTree(w: World, ver: Bytes, source: Source): Option<Tree> {
    if source.Staged? && ver !in w.install.versions then StagedTree(w, ver) else TreeIn(w.install, ver)
  }

  /** The promotion of an apply goes through. */
  predicate CanPromote(w: World, ver: Bytes, a: Apply) {
    match a.source
    case NoStaged => true
    case InPlace => IsVersionName(ver) && ver in w.install.versions
    case Staged =>
      && IsVersionName(ver) && ver in w.stage.versions
      && (ver in w.install.versions || (a.promotion.mkdir && a.promotion.copy && a.promotion.rename))
  }

  lemma PromotePartExactly(w: World, ver: Bytes, a: Apply)
    ensures var r := PromotePart(w, ver, a); var e := After(w.install, r.trail);
            && (r.ok <==> CanPromote(w, ver, a))
            && e.(versions := w.install.versions) == w.install
            && (r.ok && IsVersionName(ver) ==> TreeIn(e, ver) == PromotedTree(w, ver, a.source))
  {
    hide IsVersionName, PromoteName, PromoteRun;
    if a.source.Staged? {
      PromoteExactly(w.install, StagedTree(w, ver), ver, false, a.promotion);
      NotTheTemporary(ver, a.promotion.dir);
      TreeBeside(After(w.install, PromotePart(w, ver, a).trail), PromoteName(a.promotion.dir), ver);
      TreeBeside(w.install, PromoteName(a.promotion.dir), ver);
      if StagedTree(w, ver).Some? {
        TreeBeside(WithVersion(w.install, ver, StagedTree(w, ver).value), PromoteName(a.promotion.dir), ver);
      }
    } else if a.source.InPlace? {
      PromoteExactly(w.install, TreeIn(w.install, ver), ver, true, a.promotion);
      InPlaceStays(w.install, TreeIn(w.install, ver), ver, a.promotion);
    }
  }

  lemma NotTheTemporary(ver: Bytes, n: nat)
    ensures IsVersionName(ver) ==> ver != PromoteName(n)
  {
    PromoteNameNeverParses(n);
    hide Parses, PromoteName;
  }

  lemma TreeBeside(d: Disk, name: Bytes, ver: Bytes)
    ensures ver != name ==>
              TreeIn(d, ver) == if ver in d.versions - {name} then Some((d.versions - {name})[ver]) else None
  {
  }

  lemma InPlaceStays(d: Disk, tree: Option<Tree>, ver: Bytes, p: Promotion)
    ensures PromoteRun(d, tree, ver, true, p).trail == []
  {
    hide IsVersionName;
  }

  lemma CheckTreeIs(d: Disk, ver: Bytes)
    ensures CheckTree(d, ver) <==> IsVersionName(ver) && TreeIn(d, ver).Some? && HasRequired(TreeIn(d, ver).value)
  {
    hide IsVersionName, HasRequired;
  }

  /** Everything an apply has to meet to end well. */
  predicate CanApply(w: World, ver: Bytes, a: Apply) {
    var tree := PromotedTree(w, ver, a.source);
    && a.closed && IsVersionName(ver) && CanPromote(w, ver, a)
    && tree.Some? && HasRequired(tree.value)
    && CanAnchor(w.install, a.switch) && CanSwitch(w.install, a.switch)
  }

  /**
   * An apply from a stage root, or of a version that is there, activates the version exactly when it meets all of
   * that; otherwise `current` stays. What it reports, if it can, is which of the two it was.
   */
  lemma ApplyExactly(w: World, ver: Bytes, a: Apply)
    requires !a.source.InPlace?
    ensures var r := ApplyRun(w, ver, a); var e := After(w, r.trail); var can := CanApply(w, ver, a);
            && r.ok == (can && !a.reporting.Unwritable?)
            && e.install.current == (if can then Some(ver) else w.install.current)
            && (can ==> TreeIn(e.install, ver) == PromotedTree(w, ver, a.source))
            && e.report == (if !a.reporting.Written? then w.report else if can then Success(ver) else Failure(ver))
  {
    var d1 := After(w.install, PromotePart(w, ver, a).trail);
    PromotePartExactly(w, ver, a);
    CheckTreeIs(d1, ver);
    ActivateExactly(d1, ver, a.switch);
    CoreEnds(w, ver, a);
    ApplyEnds(w, ver, a);
    hide PromotePart, ActivateRun, ApplyCore, ApplyRun, RemovalTrail, IsVersionName, HasRequired, CheckTree, CleansUp,
         CanPromote, PromotedTree, AssembleRun;
  }

  /** A tree that lacks one of the three programs, or has it without its executable bit, is never activated. */
  lemma PartialTreeIsRefused(w: World, ver: Bytes, a: Apply, f: Bytes)
    requires !a.source.InPlace? && f in ["connective", "connectived", "sing-box"]
    requires var t := PromotedTree(w, ver, a.source); t.Some? ==> f !in t.value || !t.value[f].executable
    ensures var r := ApplyRun(w, ver, a);
            !r.ok && After(w, r.trail).install.current == w.install.current
  {
    ApplyExactly(w, ver, a);
    var t := PromotedTree(w, ver, a.source);
    if t.Some? {
      assert f in REQUIRED_FILES;
      assert !HasRequired(t.value);
    }
    hide ApplyRun, PromotedTree, IsVersionName;
  }

  /**
   * From an artifact to the running version: an assembly of a new version into the stage root and an apply of what
   * it left end with exactly the built tree as `current`, if and only if it has the required files.
   */
  lemma FreshVersionIsInstalled(w: World, ver: Bytes, a: Assembly, n: nat, removal: Removal)
    requires IsVersionName(ver) && ver !in w.stage.versions && ver !in w.install.versions
    requires a.built.Some? && a.mkdir && a.rename
    ensures var built := AssembleRun(w.stage, ver, a);
            var w1 := w.(stage := After(w.stage, built.trail));
            var r := ApplyRun(w1, ver, Flawless(Staged, n, removal)); var e := After(w1, r.trail);
            && built.ok && (r.ok <==> HasRequired(a.built.value))
            && (r.ok ==> e.install.current == Some(ver) && TreeIn(e.install, ver) == Some(a.built.value)
                         && e.report == Success(ver))
            && (!r.ok ==> e.install.current == w.install.current && e.report == Failure(ver))
  {
    AssembleExactly(w.stage, ver, a);
    var w1 := w.(stage := After(w.stage, AssembleRun(w.stage, ver, a).trail));
    ApplyExactly(w1, ver, Flawless(Staged, n, removal));
    FlawlessCan(w1, ver, n, removal);
    hide ApplyRun, AssembleRun, IsVersionName, HasRequired, CanApply, Flawless;
  }

  lemma FlawlessCan(w: World, ver: Bytes, n: nat, removal: Removal)
    requires IsVersionName(ver) && ver !in w.install.versions && ver in w.stage.versions
    ensures var a := Flawless(Staged, n, removal);
            && a.reporting.Written? && a.source.Staged?
            && PromotedTree(w, ver, a.source) == Some(w.stage.versions[ver])
            && (CanApply(w, ver, a) <==> HasRequired(w.stage.versions[ver]))
  {
    hide IsVersionName, HasRequired;
  }

  /** A version whose name could lead elsewhere is refused before any call is made. */
  lemma UnsafeVersionIsRefused(d: Disk, ver: Bytes, a: Assembly, staged: Option<Tree>, p: Promotion, s: Switch)
    requires '/' in ver || '\\' in ver || Versions.Parse(ver).None?
    ensures AssembleRun(d, ver, a) == Run(false, []) && PromoteRun(d, staged, ver, false, p) == Run(false, [])
    ensures ActivateRun(d, ver, s) == Run(false, [])
  {
    hide Versions.Parse, PromoteName;
  }
}
