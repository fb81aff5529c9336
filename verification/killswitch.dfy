/** The crash marker of the kill switch: every durable event of the daemon, and a crash after any of them. */
module KillSwitch {
  /** applied.json: nothing there, contents that do not parse, or the two flags. */
  datatype Marker = Absent | Torn | Flags(kill: bool, tun: bool)

  /** What outlives the daemon: the firewall rule and the marker. */
  datatype Disk = Disk(rule: bool, marker: Marker)

  /** The flags the daemon holds in memory. */
  datatype Memory = Memory(kill: bool, tun: bool)

  /**
   * A durable event. A run of the elevated helper reports `ok` or not; one that reports failure may
   * still have acted. Switching on drops any earlier rule first, so a failed run can leave none.
   */
  datatype Event =
    | Mark(marker: Marker)
    | SwitchOn(left: bool, ok: bool)
    | SwitchOff(gone: bool, ok: bool)
    | TunOff(ok: bool)
    | Reboot

  /** The effects the daemon relies on: a helper run that reports success has done its job. */
  predicate IsTruthful(e: Event) {
    && (e.SwitchOn? && e.ok ==> e.left)
    && (e.SwitchOff? && e.ok ==> e.gone)
  }

  function Effect(d: Disk, e: Event): Disk {
    match e
    case Mark(m) => d.(marker := m)
    case SwitchOn(left, _) => d.(rule := left)
    case SwitchOff(gone, _) => d.(rule := d.rule && !gone)
    case TunOff(_) => d
    case Reboot => d.(rule := false)
  }

  function DiskAfter(d: Disk, events: seq<Event>): Disk {
    if events == [] then d else Effect(DiskAfter(d, events[..|events| - 1]), events[|events| - 1])
  }

  predicate SaysKill(m: Marker) { m.Flags? && m.kill }

  predicate SaysTun(m: Marker) { m.Flags? && m.tun }

  // ---------------------------------------------------------------- the operations

  /** An operation: its durable events in order, and the memory it ends with. */
  datatype Run = Run(events: seq<Event>, memory: Memory)

  /** What persisting the flags leaves: no marker when none is set. */
  function Persisted(m: Memory): Marker { if m.kill || m.tun then Flags(m.kill, m.tun) else Absent }

  function SetApplied(m: Memory, kill: bool, tun: bool): Run {
    var m' := Memory(m.kill || kill, m.tun || tun);
    Run([Mark(Persisted(m'))], m')
  }

  function ClearApplied(m: Memory, kill: bool, tun: bool): Run {
    var m' := Memory(m.kill && !kill, m.tun && !tun);
    Run([Mark(Persisted(m'))], m')
  }

  function Then(a: Run, b: Run): Run { Run(a.events + b.events, b.memory) }

  /**
   * How a connect or reconnect goes: whether it gets as far as leaving the disconnected stage, the
   * settings, what starts and verifies, and the helper run.
   */
  datatype Attempt = Attempt(begins: bool, kill: bool, tun: bool, coreStarts: bool, tunUp: bool, routed: bool, on: Event)

  /** bringUp, used for connects and for every reconnect. */
  function BringUp(m: Memory, a: Attempt): Run {
    if !a.begins || !a.coreStarts then Run([], m)
    else
      var r := if a.tun then SetApplied(m, false, true) else Run([], m);
      if (a.tun && !a.tunUp) || !a.routed || !a.kill then r
      else
        var k := SetApplied(r.memory, true, false);
        Run(r.events + k.events + [a.on], k.memory)
  }

  /** The helper runs a cleanup may make. */
  datatype Helpers = Helpers(off: Event, tunOff: Event)

  function CleanKill(m: Memory, h: Helpers): Run {
    if h.off.SwitchOff? && h.off.ok then Then(Run([h.off], m), ClearApplied(m, true, false)) else Run([h.off], m)
  }

  function CleanTun(m: Memory, h: Helpers): Run {
    if h.tunOff.TunOff? && h.tunOff.ok then Then(Run([h.tunOff], m), ClearApplied(m, false, true)) else Run([h.tunOff], m)
  }

  /** cleanupApplied, what a disconnect does unless the daemon is disconnected already. */
  function Cleanup(m: Memory, h: Helpers): Run {
    var r := if m.kill then CleanKill(m, h) else Run([], m);
    if m.tun then Then(r, CleanTun(r.memory, h)) else r
  }

  /** reconcileApplied, at boot: the memory is taken over from the marker. */
  function Reconcile(marker: Marker, h: Helpers): Run {
    match marker
    case Absent => Run([], Memory(false, false))
    case Torn => Run([Mark(Absent)], Memory(false, false))
    case Flags(kill, tun) =>
      if !kill && !tun then Run([Mark(Absent)], Memory(false, false)) else Cleanup(Memory(kill, tun), h)
  }

  // ---------------------------------------------------------------- runs of the machine

  datatype Op = Boot(helpers: Helpers) | Connect(attempt: Attempt) | Disconnect(helpers: Helpers)

  /**
   * An operation may be cut short by a crash after any of its events, and a crash inside the marker
   * write that is event `at` tears the file, which is written in place. The machine may restart at any time.
   */
  datatype Step = Whole(op: Op) | Cut(op: Op, at: nat) | Tear(op: Op, at: nat) | Restart

  /** The daemon is active when its connection stage is any but the disconnected one. */
  datatype Machine = Machine(disk: Disk, memory: Memory, up: bool, active: bool)

  predicate OpIsTruthful(op: Op) {
    match op
    case Connect(a) => a.on.SwitchOn? && IsTruthful(a.on)
    case Boot(h) => h.off.SwitchOff? && IsTruthful(h.off) && h.tunOff.TunOff?
    case Disconnect(h) => h.off.SwitchOff? && IsTruthful(h.off) && h.tunOff.TunOff?
  }

  function RunOf(s: Machine, op: Op): Run {
    match op
    case Boot(h) => Reconcile(s.disk.marker, h)
    case Connect(a) => BringUp(s.memory, a)
    case Disconnect(h) => if s.active then Cleanup(s.memory, h) else Run([], s.memory)
  }

  function ActiveAfter(s: Machine, op: Op): bool { op.Connect? && (s.active || op.attempt.begins) }

  predicate Enabled(s: Machine, step: Step) {
    match step
    case Restart => true
    case Whole(op) => OpIsTruthful(op) && (op.Boot? <==> !s.up)
    case Cut(op, at) => OpIsTruthful(op) && (op.Boot? <==> !s.up) && at <= |RunOf(s, op).events|
    case Tear(op, at) =>
      && OpIsTruthful(op) && (op.Boot? <==> !s.up)
      && at < |RunOf(s, op).events| && WritesFlags(RunOf(s, op).events[at])
  }

  /** The event writes the marker file; removing it cannot tear. */
  predicate WritesFlags(e: Event) { e.Mark? && e.marker.Flags? }

  /** A tear does no harm while the rule is not in force. */
  predicate IsHarmless(s: Machine, step: Step)
    requires Enabled(s, step)
  {
    step.Tear? ==> !DiskAfter(s.disk, RunOf(s, step.op).events[..step.at]).rule
  }

  function EventsOf(s: Machine, step: Step): seq<Event>
    requires Enabled(s, step)
  {
    match step
    case Restart => [Reboot]
    case Whole(op) => RunOf(s, op).events
    case Cut(op, at) => RunOf(s, op).events[..at]
    case Tear(op, at) => RunOf(s, op).events[..at] + [Mark(Torn)]
  }

  function Next(s: Machine, step: Step): Machine
    requires Enabled(s, step)
  {
    var disk := DiskAfter(s.disk, EventsOf(s, step));
    match step
    case Whole(op) => Machine(disk, RunOf(s, op).memory, true, ActiveAfter(s, op))
    case _ => Machine(disk, Memory(false, false), false, false)
  }

  const FRESH := Machine(Disk(false, Absent), Memory(false, false), false, false)

  ghost predicate IsRun(run: seq<Machine>, steps: seq<Step>) {
    && |run| == |steps| + 1
    && run[0] == FRESH
    && forall i :: 0 <= i < |steps| ==> Enabled(run[i], steps[i]) && run[i + 1] == Next(run[i], steps[i])
  }

  // ---------------------------------------------------------------- the invariant

  /** The rule is never in force unmarked. */
  predicate IsMarked(d: Disk) { d.rule ==> SaysKill(d.marker) }

  /** While the daemon is up its memory is exactly what the marker says. */
  predicate Mirrors(m: Memory, d: Disk) { d.marker == Persisted(m) }

  predicate IsSound(s: Machine) { IsMarked(s.disk) && (s.up ==> Mirrors(s.memory, s.disk)) }

  /** After any number of events of an operation, the rule is marked. */
  ghost predicate AlwaysMarked(d: Disk, events: seq<Event>) {
    forall k :: 0 <= k <= |events| ==> IsMarked(DiskAfter(d, events[..k]))
  }

  /** A kill flag leaves the marker only in the event right after a helper run that took the rule away. */
  predicate ClearsAfterOff(d: Disk, events: seq<Event>) {
    forall k :: 0 <= k < |events|
      && SaysKill(DiskAfter(d, events[..k]).marker) && !SaysKill(DiskAfter(d, events[..k + 1]).marker)
      ==> k > 0 && events[k - 1].SwitchOff? && events[k - 1].ok && !DiskAfter(d, events[..k]).rule
  }

  /** Both, for one operation from a given disk. */
  ghost predicate IsSafe(d: Disk, events: seq<Event>) { AlwaysMarked(d, events) && ClearsAfterOff(d, events) }

  /** What a step keeps: both up to a torn write, and the rule marked after that as well. */
  ghost predicate StepHolds(s: Machine, step: Step)
    requires Enabled(s, step)
  {
    var events := EventsOf(s, step);
    AlwaysMarked(s.disk, events) && ClearsAfterOff(s.disk, if step.Tear? then events[..step.at] else events)
  }

  lemma DiskAfterNothing(d: Disk)
    ensures DiskAfter(d, []) == d
  {
  }

  lemma DiskAfterOne(d: Disk, events: seq<Event>, e: Event)
    ensures DiskAfter(d, events + [e]) == Effect(DiskAfter(d, events), e)
  {
    assert (events + [e])[..|events|] == events;
  }

  lemma {:induction false} DiskAfterBoth(d: Disk, first: seq<Event>, second: seq<Event>)
    ensures DiskAfter(d, first + second) == DiskAfter(DiskAfter(d, first), second)
    decreases |second|
  {
    if second == [] {
      assert first + second == first;
    } else {
      var n := |second| - 1;
      DiskAfterBoth(d, first, second[..n]);
      assert first + second == first + second[..n] + [second[n]];
      DiskAfterOne(d, first + second[..n], second[n]);
    }
  }

  lemma PrefixesOfOneMore(events: seq<Event>, e: Event)
    ensures forall k :: 0 <= k <= |events| ==> (events + [e])[..k] == events[..k]
    ensures (events + [e])[..|events| + 1] == events + [e] && events[..|events|] == events
  {
  }

  lemma MarkedOneMore(d: Disk, events: seq<Event>, e: Event)
    requires AlwaysMarked(d, events) && IsMarked(Effect(DiskAfter(d, events), e))
    ensures AlwaysMarked(d, events + [e])
  {
    DiskAfterOne(d, events, e);
    hide DiskAfter, Effect, IsMarked;
    PrefixesOfOneMore(events, e);
  }

  lemma ClearsOneMore(d: Disk, events: seq<Event>, e: Event)
    requires ClearsAfterOff(d, events)
    requires var now := DiskAfter(d, events);
             SaysKill(now.marker) && !SaysKill(Effect(now, e).marker) ==>
               events != [] && events[|events| - 1].SwitchOff? && events[|events| - 1].ok && !now.rule
    ensures ClearsAfterOff(d, events + [e])
  {
    DiskAfterOne(d, events, e);
    hide DiskAfter, Effect, SaysKill;
    PrefixesOfOneMore(events, e);
    var all := events + [e];
    forall k | 0 <= k < |all| && SaysKill(DiskAfter(d, all[..k]).marker) && !SaysKill(DiskAfter(d, all[..k + 1]).marker)
      ensures k > 0 && all[k - 1].SwitchOff? && all[k - 1].ok && !DiskAfter(d, all[..k]).rule
    {
      assert all[..k] == events[..k];
      if k < |events| {
        assert all[..k + 1] == events[..k + 1];
      }
    }
  }

  /** Appending a single event to a safe sequence. */
  lemma SafeOneMore(d: Disk, events: seq<Event>, e: Event)
    requires IsSafe(d, events)
    requires var now := DiskAfter(d, events);
             && IsMarked(Effect(now, e))
             && (SaysKill(now.marker) && !SaysKill(Effect(now, e).marker) ==>
                   events != [] && events[|events| - 1].SwitchOff? && events[|events| - 1].ok && !now.rule)
    ensures IsSafe(d, events + [e])
  {
    hide DiskAfter, Effect, SaysKill, IsMarked, AlwaysMarked, ClearsAfterOff;
    MarkedOneMore(d, events, e);
    ClearsOneMore(d, events, e);
  }

  lemma SafeNothing(d: Disk)
    requires IsMarked(d)
    ensures IsSafe(d, [])
  {
  }

  /** Writing the marker of a memory whose kill flag is set, or whose marker does not say kill yet. */
  lemma SafeMark(d: Disk, events: seq<Event>, m: Memory)
    requires IsSafe(d, events)
    requires m.kill || !SaysKill(DiskAfter(d, events).marker)
    ensures IsSafe(d, events + [Mark(Persisted(m))])
    ensures DiskAfter(d, events + [Mark(Persisted(m))]) == DiskAfter(d, events).(marker := Persisted(m))
  {
    assert events[..|events|] == events;
    assert IsMarked(DiskAfter(d, events));
    DiskAfterOne(d, events, Mark(Persisted(m)));
    hide DiskAfter, IsSafe;
    SafeOneMore(d, events, Mark(Persisted(m)));
  }

  /** A helper run while the marker says kill. */
  lemma SafeHelper(d: Disk, events: seq<Event>, e: Event)
    requires IsSafe(d, events) && (e.SwitchOff? || e.TunOff? || (e.SwitchOn? && SaysKill(DiskAfter(d, events).marker)))
    ensures IsSafe(d, events + [e])
    ensures DiskAfter(d, events + [e]) == Effect(DiskAfter(d, events), e)
  {
    assert events[..|events|] == events;
    assert IsMarked(DiskAfter(d, events));
    DiskAfterOne(d, events, e);
    hide DiskAfter, IsSafe;
    SafeOneMore(d, events, e);
  }

  /** Clearing the kill flag right after a run that took the rule away. */
  lemma SafeClear(d: Disk, events: seq<Event>, off: Event, m: Memory)
    requires IsSafe(d, events) && off.SwitchOff? && off.ok && off.gone
    ensures IsSafe(d, events + [off] + [Mark(Persisted(m))])
    ensures DiskAfter(d, events + [off] + [Mark(Persisted(m))]) == Disk(false, Persisted(m))
  {
    SafeHelper(d, events, off);
    var all := events + [off];
    assert all[|all| - 1] == off;
    DiskAfterOne(d, all, Mark(Persisted(m)));
    hide DiskAfter, IsSafe;
    SafeOneMore(d, all, Mark(Persisted(m)));
  }

  // ---------------------------------------------------------------- each operation keeps it

  lemma BringUpIsSafe(d: Disk, m: Memory, a: Attempt)
    requires IsMarked(d) && Mirrors(m, d) && a.on.SwitchOn?
    ensures var r := BringUp(m, a); IsSafe(d, r.events) && Mirrors(r.memory, DiskAfter(d, r.events))
  {
    SafeNothing(d);
    DiskAfterNothing(d);
    hide DiskAfter, IsSafe;
    if a.begins && a.coreStarts {
      var m1 := if a.tun then Memory(m.kill, true) else m;
      var first := if a.tun then [Mark(Persisted(m1))] else [];
      if a.tun {
        SafeMark(d, [], m1);
        assert [] + first == first;
      }
      if !((a.tun && !a.tunUp) || !a.routed || !a.kill) {
        var m2 := Memory(true, m1.tun);
        SafeMark(d, first, m2);
        SafeHelper(d, first + [Mark(Persisted(m2))], a.on);
      }
    }
  }

  lemma CleanKillIsSafe(d: Disk, m: Memory, h: Helpers)
    requires IsMarked(d) && Mirrors(m, d) && h.off.SwitchOff? && IsTruthful(h.off)
    ensures var r := CleanKill(m, h);
            IsSafe(d, r.events) && Mirrors(r.memory, DiskAfter(d, r.events))
            && (h.off.ok ==> !DiskAfter(d, r.events).rule)
  {
    SafeNothing(d);
    DiskAfterNothing(d);
    hide DiskAfter, IsSafe;
    assert [] + [h.off] == [h.off];
    SafeHelper(d, [], h.off);
    if h.off.ok {
      SafeClear(d, [], h.off, Memory(false, m.tun));
    }
  }

  lemma SafeAfterTun(d: Disk, events: seq<Event>, m: Memory, h: Helpers)
    requires IsSafe(d, events) && Mirrors(m, DiskAfter(d, events)) && h.tunOff.TunOff?
    ensures var r := CleanTun(m, h);
            && IsSafe(d, events + r.events) && Mirrors(r.memory, DiskAfter(d, events + r.events))
            && r.memory.kill == m.kill && DiskAfter(d, events + r.events).rule == DiskAfter(d, events).rule
  {
    hide DiskAfter, IsSafe;
    SafeHelper(d, events, h.tunOff);
    if h.tunOff.ok {
      var m' := Memory(m.kill, false);
      SafeMark(d, events + [h.tunOff], m');
      assert events + [h.tunOff] + [Mark(Persisted(m'))] == events + ([h.tunOff] + [Mark(Persisted(m'))]);
    }
  }

  /** A cleanup: safe throughout; when its kill-switch run succeeds, neither rule nor flag is left. */
  lemma CleanupIsSafe(d: Disk, m: Memory, h: Helpers)
    requires IsMarked(d) && Mirrors(m, d) && h.off.SwitchOff? && IsTruthful(h.off) && h.tunOff.TunOff?
    ensures var r := Cleanup(m, h);
            IsSafe(d, r.events) && Mirrors(r.memory, DiskAfter(d, r.events))
    ensures var last := DiskAfter(d, Cleanup(m, h).events);
            h.off.ok ==> !last.rule && !SaysKill(last.marker)
    ensures !h.off.ok ==> (SaysKill(DiskAfter(d, Cleanup(m, h).events).marker) <==> SaysKill(d.marker))
  {
    SafeNothing(d);
    DiskAfterNothing(d);
    var r := if m.kill then CleanKill(m, h) else Run([], m);
    if m.kill {
      CleanKillIsSafe(d, m, h);
    }
    hide DiskAfter, IsSafe;
    if m.tun {
      SafeAfterTun(d, r.events, r.memory, h);
    }
  }

  lemma ReconcileIsSafe(d: Disk, h: Helpers)
    requires IsMarked(d) && h.off.SwitchOff? && IsTruthful(h.off) && h.tunOff.TunOff?
    ensures var r := Reconcile(d.marker, h);
            IsSafe(d, r.events) && Mirrors(r.memory, DiskAfter(d, r.events))
    ensures var last := DiskAfter(d, Reconcile(d.marker, h).events);
            h.off.ok ==> !last.rule && !SaysKill(last.marker)
  {
    SafeNothing(d);
    DiskAfterNothing(d);
    hide DiskAfter, IsSafe;
    var none := Memory(false, false);
    assert [] + [Mark(Persisted(none))] == [Mark(Absent)];
    if !SaysKill(d.marker) {
      SafeMark(d, [], none);
    }
    if d.marker.Flags? && (d.marker.kill || d.marker.tun) {
      CleanupIsSafe(d, Memory(d.marker.kill, d.marker.tun), h);
    }
  }

  // ---------------------------------------------------------------- what each operation is for

  /** The connect gets as far as the kill switch: everything before it went well, TUN or not. */
  predicate ReachesKill(a: Attempt) {
    a.begins && a.coreStarts && a.routed && a.kill && (a.tun ==> a.tunUp)
  }

  lemma AfterOneMark(d: Disk, m: Marker)
    ensures DiskAfter(d, [Mark(m)]) == d.(marker := m)
  {
    DiskAfterNothing(d);
    assert [] + [Mark(m)] == [Mark(m)];
    DiskAfterOne(d, [], Mark(m));
    hide DiskAfter;
  }

  lemma AfterMarkAndHelper(d: Disk, first: seq<Event>, m: Marker, e: Event)
    ensures DiskAfter(d, first + [Mark(m)] + [e]) == Effect(DiskAfter(d, first).(marker := m), e)
  {
    DiskAfterOne(d, first, Mark(m));
    DiskAfterOne(d, first + [Mark(m)], e);
    hide DiskAfter;
  }

  /**
   * What a connect leaves: the rule as the helper run left it if it gets that far, as it was otherwise, and
   * the flags of all that it may have applied.
   */
  lemma BringUpLeaves(d: Disk, m: Memory, a: Attempt)
    requires a.on.SwitchOn?
    ensures DiskAfter(d, BringUp(m, a).events)
            == if ReachesKill(a) then Disk(a.on.left, Flags(true, m.tun || a.tun))
               else if a.begins && a.coreStarts && a.tun then Disk(d.rule, Flags(m.kill, true))
               else d
  {
    DiskAfterNothing(d);
    AfterOneMark(d, Flags(m.kill, true));
    var first := if a.tun then [Mark(Flags(m.kill, true))] else [];
    var kill := Flags(true, m.tun || a.tun);
    AfterMarkAndHelper(d, first, kill, a.on);
    hide DiskAfter;
    if ReachesKill(a) {
      assert BringUp(m, a).events == first + [Mark(kill)] + [a.on];
    }
  }

  /** A connect that succeeds with the kill switch on ends with the rule in force and marked, TUN or not. */
  lemma ConnectLocksTheNetwork(d: Disk, m: Memory, a: Attempt)
    requires a.on.SwitchOn? && IsTruthful(a.on) && ReachesKill(a) && a.on.ok
    ensures var t := DiskAfter(d, BringUp(m, a).events); t.rule && SaysKill(t.marker)
  {
    BringUpLeaves(d, m, a);
  }

  /**
   * What a cleanup leaves: the helpers of exactly the flags that were set are run, and each flag goes when
   * its own run succeeds.
   */
  lemma CleanupLeaves(d: Disk, m: Memory, h: Helpers)
    requires Mirrors(m, d) && h.off.SwitchOff? && h.tunOff.TunOff?
    ensures var t := DiskAfter(d, Cleanup(m, h).events);
            && t.rule == (d.rule && !(m.kill && h.off.gone))
            && t.marker == Persisted(Memory(m.kill && !h.off.ok, m.tun && !h.tunOff.ok))
  {
    DiskAfterNothing(d);
    var kill := CleanKill(m, h).events;
    CleanKillLeaves(d, m, h);
    var r := if m.kill then CleanKill(m, h) else Run([], m);
    CleanTunLeaves(DiskAfter(d, r.events), r.memory, h);
    DiskAfterBoth(d, r.events, CleanTun(r.memory, h).events);
    hide DiskAfter;
  }

  lemma CleanKillLeaves(d: Disk, m: Memory, h: Helpers)
    requires h.off.SwitchOff?
    ensures DiskAfter(d, CleanKill(m, h).events)
            == Disk(d.rule && !h.off.gone, if h.off.ok then Persisted(Memory(false, m.tun)) else d.marker)
  {
    DiskAfterNothing(d);
    assert [] + [h.off] == [h.off];
    DiskAfterOne(d, [], h.off);
    DiskAfterOne(d, [h.off], Mark(Persisted(Memory(false, m.tun))));
    hide DiskAfter;
  }

  lemma CleanTunLeaves(d: Disk, m: Memory, h: Helpers)
    requires h.tunOff.TunOff?
    ensures DiskAfter(d, CleanTun(m, h).events)
            == Disk(d.rule, if h.tunOff.ok then Persisted(Memory(m.kill, false)) else d.marker)
  {
    DiskAfterNothing(d);
    assert [] + [h.tunOff] == [h.tunOff];
    DiskAfterOne(d, [], h.tunOff);
    DiskAfterOne(d, [h.tunOff], Mark(Persisted(Memory(m.kill, false))));
    hide DiskAfter;
  }

  // ---------------------------------------------------------------- every run

  lemma OpIsSafe(s: Machine, op: Op)
    requires IsSound(s) && OpIsTruthful(op) && (op.Boot? <==> !s.up)
    ensures IsSafe(s.disk, RunOf(s, op).events)
    ensures Mirrors(RunOf(s, op).memory, DiskAfter(s.disk, RunOf(s, op).events))
  {
    hide IsSafe, DiskAfter;
    match op
    case Boot(h) => ReconcileIsSafe(s.disk, h);
    case Connect(a) => BringUpIsSafe(s.disk, s.memory, a);
    case Disconnect(h) =>
      if s.active {
        CleanupIsSafe(s.disk, s.memory, h);
      } else {
        IdleIsSafe(s);
      }
  }

  lemma IdleIsSafe(s: Machine)
    requires IsSound(s) && s.up
    ensures IsSafe(s.disk, []) && Mirrors(s.memory, DiskAfter(s.disk, []))
  {
    SafeNothing(s.disk);
    DiskAfterNothing(s.disk);
  }

  lemma SafePrefix(d: Disk, events: seq<Event>, at: nat)
    requires IsSafe(d, events) && at <= |events|
    ensures IsSafe(d, events[..at]) && IsMarked(DiskAfter(d, events[..at]))
  {
    forall k | 0 <= k <= at ensures events[..at][..k] == events[..k] {}
    hide DiskAfter, SaysKill, IsMarked;
  }

  lemma SafeReboot(d: Disk)
    requires IsMarked(d)
    ensures IsSafe(d, [Reboot]) && IsMarked(DiskAfter(d, [Reboot]))
  {
    SafeNothing(d);
    DiskAfterNothing(d);
    assert [] + [Reboot] == [Reboot];
    DiskAfterOne(d, [], Reboot);
    hide DiskAfter, IsSafe;
    SafeOneMore(d, [], Reboot);
  }

  /** A torn write after some events of an operation keeps the rule marked exactly when it is not in force there. */
  lemma TornMark(d: Disk, events: seq<Event>, at: nat)
    requires IsSafe(d, events) && at <= |events|
    ensures var torn := events[..at] + [Mark(Torn)];
            && (AlwaysMarked(d, torn) <==> !DiskAfter(d, events[..at]).rule)
            && DiskAfter(d, torn) == DiskAfter(d, events[..at]).(marker := Torn)
            && IsSafe(d, events[..at]) && torn[..at] == events[..at]
  {
    SafePrefix(d, events, at);
    var torn := events[..at] + [Mark(Torn)];
    DiskAfterOne(d, events[..at], Mark(Torn));
    assert torn[..|torn|] == torn && torn[..at] == events[..at];
    hide DiskAfter;
    if !DiskAfter(d, events[..at]).rule {
      MarkedOneMore(d, events[..at], Mark(Torn));
    } else {
      assert !IsMarked(DiskAfter(d, torn[..|torn|]));
    }
  }

  /** A step keeps the rule marked after each of its events, and the machine sound, exactly when it is harmless. */
  lemma StepIsSafe(s: Machine, step: Step)
    requires IsSound(s) && Enabled(s, step)
    ensures StepHolds(s, step) <==> IsHarmless(s, step)
    ensures AlwaysMarked(s.disk, EventsOf(s, step)) <==> IsHarmless(s, step)
    ensures IsHarmless(s, step) ==> IsSound(Next(s, step))
  {
    hide DiskAfter, AlwaysMarked, ClearsAfterOff, RunOf, OpIsTruthful;
    match step
    case Restart => SafeReboot(s.disk);
    case Whole(op) =>
      OpIsSafe(s, op);
      WholeMarked(s.disk, RunOf(s, op).events);
    case Cut(op, at) =>
      OpIsSafe(s, op);
      SafePrefix(s.disk, RunOf(s, op).events, at);
    case Tear(op, at) =>
      OpIsSafe(s, op);
      TornMark(s.disk, RunOf(s, op).events, at);
  }

  lemma WholeMarked(d: Disk, events: seq<Event>)
    requires IsSafe(d, events)
    ensures IsMarked(DiskAfter(d, events))
  {
    assert events[..|events|] == events;
    hide DiskAfter;
  }

  /** No tear among the first `n` steps meets the rule in force. */
  ghost predicate HarmlessUpTo(run: seq<Machine>, steps: seq<Step>, n: nat)
    requires IsRun(run, steps) && n <= |steps|
  {
    forall i :: 0 <= i < n ==> Enabled(run[i], steps[i]) && IsHarmless(run[i], steps[i])
  }

  lemma {:induction false} RunsAreSound(run: seq<Machine>, steps: seq<Step>, i: nat)
    requires IsRun(run, steps) && i < |run| && HarmlessUpTo(run, steps, i)
    ensures IsSound(run[i])
  {
    if i > 0 {
      hide IsSound, Next, Enabled, IsHarmless;
      RunsAreSound(run, steps, i - 1);
      assert run[i - 1 + 1] == Next(run[i - 1], steps[i - 1]);
      StepIsSafe(run[i - 1], steps[i - 1]);
    }
  }

  /** A run keeps the rule marked after every event of its first `n` steps. */
  ghost predicate MarkedUpTo(run: seq<Machine>, steps: seq<Step>, n: nat)
    requires IsRun(run, steps) && n <= |steps|
  {
    forall i :: 0 <= i < n ==> Enabled(run[i], steps[i]) && AlwaysMarked(run[i].disk, EventsOf(run[i], steps[i]))
  }

  lemma {:induction false} MarkedMeansHarmless(run: seq<Machine>, steps: seq<Step>, n: nat)
    requires IsRun(run, steps) && n <= |steps|
    ensures MarkedUpTo(run, steps, n) <==> HarmlessUpTo(run, steps, n)
  {
    hide IsSound, AlwaysMarked, IsHarmless, Enabled, Next, EventsOf;
    if n > 0 {
      MarkedMeansHarmless(run, steps, n - 1);
      if HarmlessUpTo(run, steps, n - 1) {
        RunsAreSound(run, steps, n - 1);
        assert Enabled(run[n - 1], steps[n - 1]);
        StepIsSafe(run[n - 1], steps[n - 1]);
      }
    }
  }

  /**
   * In every run of boots, connects, reconnects, disconnects, failing helpers, crashes, torn marker
   * writes and restarts: the rule is marked after every single event if and only if no marker write
   * is torn while the rule is in force.
   */
  lemma RuleIsMarkedExactly(run: seq<Machine>, steps: seq<Step>)
    requires IsRun(run, steps)
    ensures MarkedUpTo(run, steps, |steps|) <==> HarmlessUpTo(run, steps, |steps|)
  {
    MarkedMeansHarmless(run, steps, |steps|);
  }

  /**
   * And in such a run a kill flag has only been cleared, other than by a torn write, right after a
   * helper run that took the rule away.
   */
  lemma EveryRunIsSafe(run: seq<Machine>, steps: seq<Step>, i: nat)
    requires IsRun(run, steps) && i < |steps| && HarmlessUpTo(run, steps, i + 1)
    ensures Enabled(run[i], steps[i]) && StepHolds(run[i], steps[i])
  {
    RunsAreSound(run, steps, i);
    hide IsSound, StepHolds, Next, IsHarmless, Enabled;
    StepIsSafe(run[i], steps[i]);
  }

  /** A boot whose kill-switch cleanup succeeds ends with neither rule nor flag, in every reachable state. */
  lemma BootCleansUp(run: seq<Machine>, steps: seq<Step>, i: nat)
    requires IsRun(run, steps) && i < |steps| && HarmlessUpTo(run, steps, i)
    requires steps[i].Whole? && steps[i].op.Boot? && steps[i].op.helpers.off.SwitchOff? && steps[i].op.helpers.off.ok
    ensures !run[i + 1].disk.rule && !SaysKill(run[i + 1].disk.marker) && !run[i + 1].memory.kill
  {
    RunsAreSound(run, steps, i);
    assert Enabled(run[i], steps[i]) && run[i + 1] == Next(run[i], steps[i]);
    hide DiskAfter, Reconcile, IsHarmless;
    ReconcileIsSafe(run[i].disk, steps[i].op.helpers);
  }

  // ---------------------------------------------------------------- connects

  /** In every run, a connect with the kill switch on that succeeds ends active, with the rule in force and marked. */
  lemma ConnectLocksExactly(run: seq<Machine>, steps: seq<Step>, i: nat)
    requires IsRun(run, steps) && i < |steps| && HarmlessUpTo(run, steps, i) && IsConnect(steps[i])
    ensures var a := steps[i].op.attempt;
            && run[i + 1].disk.rule == (if ReachesKill(a) then a.on.left else run[i].disk.rule)
            && (ReachesKill(a) && a.on.ok ==> run[i + 1].disk.rule && run[i + 1].active && run[i + 1].memory.kill)
  {
    RunsAreSound(run, steps, i);
    assert Enabled(run[i], steps[i]) && run[i + 1] == Next(run[i], steps[i]);
    hide DiskAfter, BringUp, IsHarmless;
    BringUpLeaves(run[i].disk, run[i].memory, steps[i].op.attempt);
    BringUpIsSafe(run[i].disk, run[i].memory, steps[i].op.attempt);
  }

  // ---------------------------------------------------------------- disconnects

  /** What a disconnect whose kill-switch run would succeed leaves of the rule and its flag. */
  predicate IsLifted(s: Machine) { !s.disk.rule && !SaysKill(s.disk.marker) }

  /**
   * A disconnect whose helper would succeed ends without rule and flag exactly when the daemon is
   * active, or they were gone already; one whose helper fails keeps the flag.
   */
  lemma DisconnectCleansUpExactly(run: seq<Machine>, steps: seq<Step>, i: nat)
    requires IsRun(run, steps) && i < |steps| && HarmlessUpTo(run, steps, i)
    requires steps[i].Whole? && steps[i].op.Disconnect? && steps[i].op.helpers.off.SwitchOff?
    ensures steps[i].op.helpers.off.ok ==> (IsLifted(run[i + 1]) <==> run[i].active || IsLifted(run[i]))
    ensures steps[i].op.helpers.off.ok ==> (!run[i + 1].disk.rule <==> run[i].active || !run[i].disk.rule)
    ensures !steps[i].op.helpers.off.ok ==> (SaysKill(run[i + 1].disk.marker) <==> SaysKill(run[i].disk.marker))
  {
    RunsAreSound(run, steps, i);
    assert Enabled(run[i], steps[i]) && run[i + 1] == Next(run[i], steps[i]);
    DiskAfterNothing(run[i].disk);
    hide DiskAfter, Cleanup, IsHarmless;
    CleanupIsSafe(run[i].disk, run[i].memory, steps[i].op.helpers);
  }

  predicate IsConnect(step: Step) { step.Whole? && step.op.Connect? }

  /** Among the first `n` steps one begins a connection, and nothing but connects comes after it. */
  predicate ConnectsSince(steps: seq<Step>, n: nat)
    requires n <= |steps|
  {
    exists k :: 0 <= k < n && BeginsAt(steps, k, n)
  }

  predicate BeginsAt(steps: seq<Step>, k: nat, n: nat)
    requires k < n <= |steps|
  {
    IsConnect(steps[k]) && steps[k].op.attempt.begins && forall j :: k < j < n ==> IsConnect(steps[j])
  }

  /** In every run the daemon is active exactly when a connection has begun since the last boot, crash or disconnect. */
  lemma {:induction false} ActiveExactly(run: seq<Machine>, steps: seq<Step>, n: nat)
    requires IsRun(run, steps) && n <= |steps|
    ensures run[n].active <==> ConnectsSince(steps, n)
  {
    hide IsHarmless, EventsOf, RunOf, Enabled, DiskAfter;
    if n > 0 {
      ActiveExactly(run, steps, n - 1);
      assert run[n - 1 + 1] == Next(run[n - 1], steps[n - 1]);
      BeginsOneMore(steps, n - 1);
    }
  }

  lemma BeginsOneMore(steps: seq<Step>, n: nat)
    requires n < |steps|
    ensures ConnectsSince(steps, n + 1)
            <==> IsConnect(steps[n]) && (steps[n].op.attempt.begins || ConnectsSince(steps, n))
  {
    if ConnectsSince(steps, n + 1) {
      var k :| 0 <= k < n + 1 && BeginsAt(steps, k, n + 1);
      assert k < n ==> BeginsAt(steps, k, n);
    }
    if IsConnect(steps[n]) && steps[n].op.attempt.begins {
      assert BeginsAt(steps, n, n + 1);
    } else if IsConnect(steps[n]) && ConnectsSince(steps, n) {
      var k :| 0 <= k < n && BeginsAt(steps, k, n);
      assert BeginsAt(steps, k, n + 1);
    }
  }

  /**
   * A failed teardown is retried by a later disconnect exactly when a connection has begun in between:
   * with the rule still in force before it, the disconnect lifts it then, and only then.
   */
  lemma RetriedExactly(run: seq<Machine>, steps: seq<Step>, i: nat)
    requires IsRun(run, steps) && i < |steps| && HarmlessUpTo(run, steps, i)
    requires steps[i].Whole? && steps[i].op.Disconnect? && steps[i].op.helpers.off.SwitchOff?
    requires steps[i].op.helpers.off.ok && run[i].disk.rule
    ensures !run[i + 1].disk.rule <==> ConnectsSince(steps, i)
  {
    DisconnectCleansUpExactly(run, steps, i);
    ActiveExactly(run, steps, i);
  }

  // ---------------------------------------------------------------- torn marker writes

  lemma BootAfterTear(d: Disk, h: Helpers)
    ensures DiskAfter(d.(marker := Torn), Reconcile(Torn, h).events) == Disk(d.rule, Absent)
  {
    var torn := d.(marker := Torn);
    assert [Mark(Absent)][..0] == [];
    assert DiskAfter(torn, []) == torn;
    assert DiskAfter(torn, [Mark(Absent)]) == Effect(torn, Mark(Absent));
  }

  /**
   * After a torn write the next boot throws the marker away and runs no helper: the rule it leaves is
   * marked exactly when there is none. One that was in force stays, with nothing to record it.
   */
  lemma TornMarkerForgetsTheRule(s: Machine, op: Op, at: nat, h: Helpers)
    requires IsSound(s) && Enabled(s, Tear(op, at)) && OpIsTruthful(Boot(h))
    ensures var t := Next(s, Tear(op, at));
            && Enabled(t, Whole(Boot(h)))
            && var u := Next(t, Whole(Boot(h)));
            && u.disk == Disk(DiskAfter(s.disk, RunOf(s, op).events[..at]).rule, Absent)
            && u.memory == Memory(false, false)
            && (IsMarked(u.disk) <==> IsHarmless(s, Tear(op, at)))
  {
    OpIsSafe(s, op);
    hide DiskAfter, RunOf, OpIsTruthful, IsSafe;
    var events := RunOf(s, op).events;
    TornMark(s.disk, events, at);
    BootAfterTear(DiskAfter(s.disk, events[..at]), h);
    BootIsReconcile(Next(s, Tear(op, at)), h);
  }

  lemma BootIsReconcile(t: Machine, h: Helpers)
    ensures RunOf(t, Boot(h)) == Reconcile(t.disk.marker, h)
  {
  }

  /** Every reconnect under the rule that writes the marker at all opens that window with its first event. */
  lemma ReconnectCanTear(s: Machine, a: Attempt)
    requires IsSound(s) && s.up && s.disk.rule && OpIsTruthful(Connect(a)) && BringUp(s.memory, a).events != []
    ensures Enabled(s, Tear(Connect(a), 0)) && !IsHarmless(s, Tear(Connect(a), 0))
  {
    assert SaysKill(s.disk.marker) && s.memory.kill;
    assert BringUp(s.memory, a).events[..0] == [];
    DiskAfterNothing(s.disk);
  }

  /** The machine after one connect with the kill switch and nothing else. */
  const LOCKED := Machine(Disk(true, Flags(true, false)), Memory(true, false), true, true)

  const KILL_ONLY := Attempt(true, true, false, true, true, true, SwitchOn(true, true))

  /** The machine after its first boot. */
  const STARTED := Machine(Disk(false, Absent), Memory(false, false), true, false)

  lemma ConnectLocks()
    ensures Enabled(STARTED, Whole(Connect(KILL_ONLY))) && Next(STARTED, Whole(Connect(KILL_ONLY))) == LOCKED
  {
    var d := Disk(false, Absent);
    var events := [Mark(Flags(true, false)), SwitchOn(true, true)];
    assert BringUp(Memory(false, false), KILL_ONLY).events == events;
    assert events[..1] == [Mark(Flags(true, false))] && [Mark(Flags(true, false))][..0] == [];
    DiskAfterNothing(d);
    assert DiskAfter(d, [Mark(Flags(true, false))]) == Disk(false, Flags(true, false));
    assert DiskAfter(d, events) == Disk(true, Flags(true, false));
  }

  /** A rule in force with no marker and no flag in memory. */
  const FORGOTTEN := Machine(Disk(true, Absent), Memory(false, false), true, false)

  lemma FirstBoot(h: Helpers)
    requires OpIsTruthful(Boot(h))
    ensures Enabled(FRESH, Whole(Boot(h))) && Next(FRESH, Whole(Boot(h))) == STARTED
  {
    DiskAfterNothing(FRESH.disk);
  }

  lemma LockedLosesTheRule(h: Helpers)
    requires OpIsTruthful(Boot(h))
    ensures Enabled(LOCKED, Tear(Connect(KILL_ONLY), 0))
    ensures var t := Next(LOCKED, Tear(Connect(KILL_ONLY), 0));
            Enabled(t, Whole(Boot(h))) && Next(t, Whole(Boot(h))) == FORGOTTEN
  {
    assert IsSound(LOCKED);
    ReconnectCanTear(LOCKED, KILL_ONLY);
    DiskAfterNothing(LOCKED.disk);
    assert RunOf(LOCKED, Connect(KILL_ONLY)).events[..0] == [];
    TornMarkerForgetsTheRule(LOCKED, Connect(KILL_ONLY), 0, h);
    hide DiskAfter;
  }

  /** Reachable by a boot, a connect, a reconnect torn in its first write, and a boot. */
  lemma ForgottenRuleIsReachable(h: Helpers)
    requires OpIsTruthful(Boot(h))
    ensures var steps := [Whole(Boot(h)), Whole(Connect(KILL_ONLY)), Tear(Connect(KILL_ONLY), 0), Whole(Boot(h))];
            exists run :: IsRun(run, steps) && run[4] == FORGOTTEN
  {
    FirstBoot(h);
    ConnectLocks();
    LockedLosesTheRule(h);
    hide DiskAfter, RunOf, OpIsTruthful, Enabled, Next;
    var steps := [Whole(Boot(h)), Whole(Connect(KILL_ONLY)), Tear(Connect(KILL_ONLY), 0), Whole(Boot(h))];
    var torn := Next(LOCKED, steps[2]);
    var run := [FRESH, STARTED, LOCKED, torn, FORGOTTEN];
    assert IsRun(run, steps);
  }

  /** And no disconnect or boot takes such a rule away any more, active or not, whatever the helpers would do. */
  lemma ForgottenRuleStays(op: Op, active: bool)
    requires !op.Connect?
    ensures RunOf(FORGOTTEN.(active := active), op).events == []
  {
  }

  // ---------------------------------------------------------------- a teardown that is not retried

  /** LOCKED after a disconnect whose helper failed: disconnected, with the rule and its flag. */
  const STUCK := LOCKED.(active := false)

  predicate LeavesTheRule(h: Helpers) { h.off == SwitchOff(false, false) }

  lemma FailedDisconnectSticks(h: Helpers)
    requires OpIsTruthful(Disconnect(h)) && LeavesTheRule(h)
    ensures Enabled(LOCKED, Whole(Disconnect(h))) && Next(LOCKED, Whole(Disconnect(h))) == STUCK
  {
    assert RunOf(LOCKED, Disconnect(h)) == Run([h.off], LOCKED.memory);
    assert [h.off][..0] == [];
    DiskAfterNothing(LOCKED.disk);
    assert DiskAfter(LOCKED.disk, [h.off]) == Effect(LOCKED.disk, h.off);
  }

  lemma StuckStays(h: Helpers)
    requires OpIsTruthful(Disconnect(h))
    ensures Enabled(STUCK, Whole(Disconnect(h))) && Next(STUCK, Whole(Disconnect(h))) == STUCK
  {
    DiskAfterNothing(STUCK.disk);
  }

  /**
   * Reachable by a boot, a connect, a disconnect whose helper fails and any number of disconnects after
   * it: the rule is in force, whatever the later helpers would do, since none of them is run.
   */
  lemma FailedTeardownIsNotRetried(h: Helpers, failing: Helpers, later: seq<Helpers>)
    requires OpIsTruthful(Boot(h)) && OpIsTruthful(Disconnect(failing)) && LeavesTheRule(failing)
    requires forall k :: 0 <= k < |later| ==> OpIsTruthful(Disconnect(later[k]))
    ensures var steps := [Whole(Boot(h)), Whole(Connect(KILL_ONLY)), Whole(Disconnect(failing))] + Disconnects(later);
            exists run :: IsRun(run, steps) && run[|steps|] == STUCK
  {
    FirstBoot(h);
    ConnectLocks();
    FailedDisconnectSticks(failing);
    var first := [Whole(Boot(h)), Whole(Connect(KILL_ONLY)), Whole(Disconnect(failing))];
    var steps := first + Disconnects(later);
    var run := [FRESH, STARTED, LOCKED] + seq(|later| + 1, _ => STUCK);
    hide DiskAfter, RunOf, OpIsTruthful, Enabled, Next;
    forall i | 0 <= i < |steps| ensures Enabled(run[i], steps[i]) && run[i + 1] == Next(run[i], steps[i]) {
      if i >= 3 {
        assert steps[i] == Whole(Disconnect(later[i - 3]));
        StuckStays(later[i - 3]);
      } else {
        assert steps[i] == first[i];
      }
    }
    assert IsRun(run, steps);
  }

  function Disconnects(later: seq<Helpers>): (steps: seq<Step>)
    ensures |steps| == |later| && forall k :: 0 <= k < |later| ==> steps[k] == Whole(Disconnect(later[k]))
  {
    seq(|later|, k requires 0 <= k < |later| => Whole(Disconnect(later[k])))
  }

  // ---------------------------------------------------------------- the daemon

  lemma RemovesTheMarker(d: Disk)
    ensures DiskAfter(d, [Mark(Absent)]) == Effect(d, Mark(Absent))
  {
    DiskAfterNothing(d);
    assert [] + [Mark(Absent)] == [Mark(Absent)];
    DiskAfterOne(d, [], Mark(Absent));
  }

  /** The stages of the connection's lifecycle. */
  datatype Stage =
    | Disconnected | Testing | Selecting | Connecting | StartingCore | InitializingTun | ApplyingRouting
    | Connected | Degraded | Reconnecting | SwitchingServer | Disconnecting | Error

  /** The table of legal transitions. */
  predicate Allowed(from: Stage, to: Stage) {
    match from
    case Disconnected => to.Testing? || to.Selecting? || to.Connecting?
    case Testing => to.Selecting? || to.Disconnected? || to.Error?
    case Selecting => to.Connecting? || to.Disconnected? || to.Error?
    case Connecting => to.StartingCore? || to.Disconnected? || to.Error?
    case StartingCore => to.InitializingTun? || to.Reconnecting? || to.Disconnecting? || to.Error?
    case InitializingTun => to.ApplyingRouting? || to.Reconnecting? || to.Disconnecting? || to.Error?
    case ApplyingRouting => to.Connected? || to.Reconnecting? || to.Disconnecting? || to.Error?
    case Connected => to.Degraded? || to.SwitchingServer? || to.Reconnecting? || to.Disconnecting? || to.Error?
    case Degraded => to.Connected? || to.SwitchingServer? || to.Reconnecting? || to.Disconnecting? || to.Error?
    case Reconnecting => to.Selecting? || to.Connecting? || to.Connected? || to.Disconnecting? || to.Error?
    case SwitchingServer => to.Connecting? || to.Connected? || to.Degraded? || to.Disconnecting? || to.Error?
    case Disconnecting => to.Disconnected? || to.Error?
    case Error => to.Disconnected? || to.Selecting? || to.Reconnecting?
  }

  /** The stages in which the daemon's lock is free. */
  predicate IsSettled(g: Stage) { g.Disconnected? || g.Connected? || g.Degraded? || g.Error? }

  /** The way up of a connection, and its way out. */
  lemma BringUpIsLegal()
    ensures Allowed(Connecting, StartingCore) && Allowed(StartingCore, InitializingTun)
    ensures Allowed(InitializingTun, ApplyingRouting) && Allowed(ApplyingRouting, Connected)
    ensures Allowed(StartingCore, Error) && Allowed(InitializingTun, Error) && Allowed(ApplyingRouting, Error)
  {
  }

  /** The daemon's stage and flags together with what they protect; `events` is the history of durable events. */
  class Daemon {
    var stage: Stage
    var appliedKill: bool
    var appliedTun: bool
    var disk: Disk
    ghost var events: seq<Event>

    constructor (found: Disk)
      ensures disk == found && events == [] && Flagged() == Memory(false, false) && stage == Disconnected
    {
      stage, appliedKill, appliedTun, disk, events := Disconnected, false, false, found, [];
    }

    /** The daemon as the runs above see it. */
    function View(): Machine
      reads this
    {
      Machine(disk, Flagged(), true, stage != Disconnected)
    }

    /** Transition: an illegal one is refused, which no caller looks at. */
    method Transition(to: Stage)
      modifies `stage
      ensures stage == if Allowed(old(stage), to) then to else old(stage)
    {
      if Allowed(stage, to) {
        stage := to;
      }
    }

    function Flagged(): Memory
      reads this
    {
      Memory(appliedKill, appliedTun)
    }

    /** An event happens. */
    method Emit(e: Event)
      modifies `disk, `events
      ensures disk == Effect(old(disk), e) && events == old(events) + [e]
    {
      disk := Effect(disk, e);
      events := events + [e];
    }

    method Persist()
      modifies `disk, `events
      ensures disk == Effect(old(disk), Mark(Persisted(Flagged())))
      ensures events == old(events) + [Mark(Persisted(Flagged()))]
    {
      if !appliedKill && !appliedTun {
        Emit(Mark(Absent));
      } else {
        Emit(Mark(Flags(appliedKill, appliedTun)));
      }
    }

    method Apply(kill: bool, tun: bool)
      modifies `appliedKill, `appliedTun, `disk, `events
      ensures var r := SetApplied(old(Flagged()), kill, tun);
              events == old(events) + r.events && Flagged() == r.memory
              && disk == Effect(old(disk), r.events[0])
    {
      if kill {
        appliedKill := true;
      }
      if tun {
        appliedTun := true;
      }
      Persist();
    }

    method Clear(kill: bool, tun: bool)
      modifies `appliedKill, `appliedTun, `disk, `events
      ensures var r := ClearApplied(old(Flagged()), kill, tun);
              events == old(events) + r.events && Flagged() == r.memory
              && disk == Effect(old(disk), r.events[0])
    {
      if kill {
        appliedKill := false;
      }
      if tun {
        appliedTun := false;
      }
      Persist();
    }

    /** The kill-switch half of a cleanup. */
    method LiftRule(h: Helpers)
      requires h.off.SwitchOff?
      modifies `appliedKill, `appliedTun, `disk, `events
      ensures var r := CleanKill(old(Flagged()), h);
              events == old(events) + r.events && Flagged() == r.memory
              && disk == DiskAfter(old(disk), r.events)
    {
      DiskAfterNothing(disk);
      DiskAfterOne(disk, [], h.off);
      hide DiskAfter, Effect;
      assert [] + [h.off] == [h.off];
      ghost var start := disk;
      Emit(h.off);
      if h.off.ok {
        Clear(true, false);
        DiskAfterOne(start, [h.off], Mark(Persisted(Flagged())));
      }
    }

    /** The TUN half. */
    method DropTun(h: Helpers)
      requires h.tunOff.TunOff?
      modifies `appliedKill, `appliedTun, `disk, `events
      ensures var r := CleanTun(old(Flagged()), h);
              events == old(events) + r.events && Flagged() == r.memory
              && disk == DiskAfter(old(disk), r.events)
    {
      DiskAfterNothing(disk);
      DiskAfterOne(disk, [], h.tunOff);
      hide DiskAfter, Effect;
      assert [] + [h.tunOff] == [h.tunOff];
      ghost var start := disk;
      Emit(h.tunOff);
      if h.tunOff.ok {
        Clear(false, true);
        DiskAfterOne(start, [h.tunOff], Mark(Persisted(Flagged())));
      }
    }

    /** cleanupApplied. */
    method CleanupApplied(h: Helpers)
      requires h.off.SwitchOff? && h.tunOff.TunOff?
      modifies `appliedKill, `appliedTun, `disk, `events
      ensures var r := Cleanup(old(Flagged()), h);
              events == old(events) + r.events && Flagged() == r.memory
              && disk == DiskAfter(old(disk), r.events)
    {
      hide DiskAfter, CleanKill, CleanTun;
      ghost var start := disk;
      ghost var first: seq<Event> := [];
      DiskAfterNothing(start);
      var kill, tun := appliedKill, appliedTun;
      if kill {
        LiftRule(h);
        first := CleanKill(old(Flagged()), h).events;
      }
      if tun {
        ghost var second := CleanTun(Flagged(), h).events;
        DiskAfterBoth(start, first, second);
        DropTun(h);
      }
    }

    /** reconcileApplied on a daemon that has just started. */
    method ReconcileApplied(h: Helpers)
      requires h.off.SwitchOff? && h.tunOff.TunOff? && Flagged() == Memory(false, false)
      modifies `appliedKill, `appliedTun, `disk, `events
      ensures var r := Reconcile(old(disk).marker, h);
              events == old(events) + r.events && Flagged() == r.memory
              && disk == DiskAfter(old(disk), r.events)
    {
      DiskAfterNothing(disk);
      RemovesTheMarker(disk);
      hide DiskAfter, Cleanup, Effect;
      assert events == events + [];
      if disk.marker.Absent? {
        return;
      }
      if disk.marker.Torn? || (!disk.marker.kill && !disk.marker.tun) {
        Emit(Mark(Absent));
        return;
      }
      appliedKill, appliedTun := disk.marker.kill, disk.marker.tun;
      CleanupApplied(h);
    }

    /** The kill switch goes on: marked first, so that a partial run is cleaned up too. */
    method EngageKillSwitch(on: Event) returns (ok: bool)
      requires on.SwitchOn?
      modifies `appliedKill, `appliedTun, `disk, `events
      ensures Flagged() == Memory(true, old(appliedTun)) && ok == on.ok
      ensures disk == Disk(on.left, Flags(true, old(appliedTun)))
      ensures events == old(events) + [Mark(Flags(true, old(appliedTun))), on]
    {
      Apply(true, false);
      Emit(on);
      return on.ok;
    }

    /** bringUp, as far as stage, marker and rule are concerned. */
    method BringItUp(a: Attempt) returns (ok: bool)
      requires a.on.SwitchOn? && a.begins && stage == Connecting
      modifies this
      ensures var r := BringUp(old(Flagged()), a);
              events == old(events) + r.events && Flagged() == r.memory
              && disk == DiskAfter(old(disk), r.events)
      ensures ok <==> a.coreStarts && (a.tun ==> a.tunUp) && a.routed && (a.kill ==> a.on.ok)
      ensures stage == if ok then Connected else Error
      ensures ok && a.kill && IsTruthful(a.on) ==> disk.rule && SaysKill(disk.marker)
      ensures ok && a.tun ==> SaysTun(disk.marker)
    {
      BringUpLeaves(disk, Flagged(), a);
      BringUpIsLegal();
      hide DiskAfter, Allowed, Effect;
      assert events == events + [];
      Transition(StartingCore);
      if !a.coreStarts {
        Transition(Error);
        return false;
      }
      if a.tun {
        RecordTun();
      }
      Transition(InitializingTun);
      if a.tun && !a.tunUp {
        Transition(Error);
        return false;
      }
      Transition(ApplyingRouting);
      if !a.routed {
        Transition(Error);
        return false;
      }
      if a.kill {
        ok := EngageKillSwitch(a.on);
        if !ok {
          Transition(Error);
          return false;
        }
      }
      Transition(Connected);
      return true;
    }

    /** The core may create the device even if it is not up in the end. */
    method RecordTun()
      modifies `appliedKill, `appliedTun, `disk, `events
      ensures Flagged() == Memory(old(appliedKill), true)
      ensures disk == Disk(old(disk).rule, Flags(old(appliedKill), true))
      ensures events == old(events) + [Mark(Flags(old(appliedKill), true))]
    {
      Apply(false, true);
    }

    /** A user's connect: refused while connected or busy, and before the daemon selects anything, without a trace. */
    method Connect(ready: bool, picked: bool, a: Attempt)
      requires a.on.SwitchOn? && IsSettled(stage)
      requires a.begins <==> ready && (stage.Disconnected? || stage.Error?)
      requires !picked ==> !a.coreStarts
      modifies this
      ensures events == old(events) + RunOf(old(View()), Op.Connect(a)).events && IsSettled(stage)
      ensures disk == DiskAfter(old(disk), RunOf(old(View()), Op.Connect(a)).events)
      ensures Flagged() == RunOf(old(View()), Op.Connect(a)).memory
      ensures View().active == ActiveAfter(old(View()), Op.Connect(a))
    {
      DiskAfterNothing(disk);
      hide DiskAfter, Effect;
      assert events == events + [];
      if stage.Connected? || stage.Degraded? {
        return;
      }
      if !ready {
        Transition(Error);
        return;
      }
      Transition(Selecting);
      if !picked {
        Transition(Error);
        return;
      }
      Transition(Connecting);
      var _ := BringItUp(a);
    }

    /** A reconnect by failover or after a network change, which may find the daemon disconnected meanwhile. */
    method Reconnect(switching: bool, a: Attempt)
      requires a.on.SwitchOn? && IsSettled(stage)
      requires switching ==> stage.Connected? || stage.Degraded?
      modifies this
      ensures events == old(events) + RunOf(old(View()), Op.Connect(a)).events && IsSettled(stage)
      ensures disk == DiskAfter(old(disk), RunOf(old(View()), Op.Connect(a)).events)
      ensures Flagged() == RunOf(old(View()), Op.Connect(a)).memory
      ensures View().active == ActiveAfter(old(View()), Op.Connect(a))
    {
      DiskAfterNothing(disk);
      hide DiskAfter, Effect;
      assert events == events + [];
      if switching {
        Transition(SwitchingServer);
      }
      Transition(Reconnecting);
      if !a.begins {
        Transition(Error);
        return;
      }
      Transition(Connecting);
      var _ := BringItUp(a);
    }

    /** disconnect: refused while disconnected; from every other stage it cleans up and ends disconnected. */
    method Disconnect(h: Helpers) returns (refused: bool)
      requires h.off.SwitchOff? && h.tunOff.TunOff?
      modifies this
      ensures refused <==> old(stage) == Disconnected
      ensures stage == Disconnected
      ensures events == old(events) + RunOf(old(View()), Op.Disconnect(h)).events
      ensures disk == DiskAfter(old(disk), RunOf(old(View()), Op.Disconnect(h)).events)
      ensures Flagged() == RunOf(old(View()), Op.Disconnect(h)).memory
    {
      DiskAfterNothing(disk);
      hide DiskAfter, Effect, Cleanup;
      assert events == events + [];
      if stage == Disconnected {
        return true;
      }
      if !stage.Connected? && !stage.Degraded? {
        CleanupApplied(h);
        stage := Disconnected;
        return false;
      }
      Transition(Disconnecting);
      CleanupApplied(h);
      Transition(Disconnected);
      return false;
    }
  }
}
