/** The network watcher's poll loop: when a change is reported, stated over the readings alone. */
module NetWatcher {
  import opened Text

  /** One call of OnChange, with the number of successful polls it came after. */
  datatype Report = Report(before: string, after: string, at: nat)

  // ---------------------------------------------------------------- what is reported, over the readings alone

  /** The readings of the polls that did not fail. */
  function Successes(polls: seq<Option<string>>): seq<string> {
    if polls == [] then []
    else
      var rest := Successes(polls[..|polls| - 1]);
      if polls[|polls| - 1].None? then rest else rest + [polls[|polls| - 1].value]
  }

  /** The `n` readings up to number `at` are all `value`. */
  predicate Fills(readings: seq<string>, at: nat, n: nat, value: string) {
    n <= at <= |readings| && forall k :: at - n <= k < at ==> readings[k] == value
  }

  /** The last `n` readings are one and the same. */
  predicate IsSteady(readings: seq<string>, n: nat) {
    0 < n <= |readings| && Fills(readings, |readings|, n, readings[|readings| - 1])
  }

  function BaseAfter(baseline: string, reports: seq<Report>): string {
    if reports == [] then baseline else reports[|reports| - 1].after
  }

  function LastAt(reports: seq<Report>): nat {
    if reports == [] then 0 else reports[|reports| - 1].at
  }

  /** The last reading settles a change: it differs from the base and fills `confirm` polls since the last report. */
  predicate Settles(baseline: string, readings: seq<string>, reports: seq<Report>, confirm: nat) {
    && IsSteady(readings, confirm) && LastAt(reports) + confirm <= |readings|
    && readings[|readings| - 1] != BaseAfter(baseline, reports)
  }

  /** The reports made over the successful readings. */
  function Reports(baseline: string, readings: seq<string>, confirm: nat): seq<Report> {
    if readings == [] then []
    else
      var n := |readings|;
      var earlier := Reports(baseline, readings[..n - 1], confirm);
      if Settles(baseline, readings, earlier, confirm)
      then earlier + [Report(BaseAfter(baseline, earlier), readings[n - 1], n)] else earlier
  }

  // ---------------------------------------------------------------- the loop

  /** How many readings at the end of `readings[start..]` are the same. */
  function SameAtEnd(readings: seq<string>, start: nat): (n: nat)
    requires start <= |readings|
    ensures start + n <= |readings|
    ensures n > 0 <==> start < |readings|
    decreases |readings|
  {
    if start == |readings| then 0
    else if start + 1 < |readings| && readings[|readings| - 2] == readings[|readings| - 1] then
      SameAtEnd(readings[..|readings| - 1], start) + 1
    else 1
  }

  /** The counter the loop keeps agrees with the readings. */
  predicate Agrees(base: string, pending: string, rounds: nat, readings: seq<string>, start: nat)
    requires start <= |readings|
  {
    if start == |readings| || readings[|readings| - 1] == base then pending == "" && rounds == 0
    else pending == readings[|readings| - 1] && rounds == SameAtEnd(readings, start)
  }

  lemma {:induction false} SameAtEndIsMaximal(readings: seq<string>, start: nat, n: nat)
    requires start <= |readings| && n > 0
    ensures n <= SameAtEnd(readings, start) <==> IsSteady(readings, n) && start + n <= |readings|
    decreases |readings|
  {
    if start < |readings| && n > 1 {
      var init := readings[..|readings| - 1];
      if start <= |init| {
        SameAtEndIsMaximal(init, start, n - 1);
      }
      if start < |init| && readings[|readings| - 2] == readings[|readings| - 1] {
        assert IsSteady(init, n - 1) <==> IsSteady(readings, n) by {
          SteadyShrinks(readings, n);
        }
      }
    }
  }

  lemma SteadyShrinks(readings: seq<string>, n: nat)
    requires n > 1 && |readings| >= 2 && readings[|readings| - 2] == readings[|readings| - 1]
    ensures IsSteady(readings[..|readings| - 1], n - 1) <==> IsSteady(readings, n)
  {
    var init := readings[..|readings| - 1];
    if IsSteady(init, n - 1) {
      forall i | |readings| - n <= i < |readings| ensures readings[i] == readings[|readings| - 1] {
        assert i < |init| ==> init[i] == readings[i];
      }
    }
  }

  /** The poll loop of a watcher. */
  class Watcher {
    const confirm: nat
    const baseline: string
    var base: string
    var pending: string
    var rounds: nat
    ghost var reports: seq<Report>
    ghost var polls: seq<Option<string>>

    ghost predicate Valid()
      reads this
    {
      var seen := Successes(polls);
      && confirm > 0
      && reports == Reports(baseline, seen, confirm)
      && base == BaseAfter(baseline, reports)
      && LastAt(reports) <= |seen|
      && Agrees(base, pending, rounds, seen, LastAt(reports))
      && rounds < confirm
    }

    /** The first snapshot is the baseline, empty when it cannot be taken; a Confirm of 0 or less counts as 1. */
    constructor (confirmations: int, first: Option<string>)
      ensures Valid() && polls == [] && reports == []
      ensures confirm == if confirmations <= 0 then 1 else confirmations
      ensures baseline == if first.None? then "" else first.value
    {
      confirm := if confirmations <= 0 then 1 else confirmations;
      var b := if first.None? then "" else first.value;
      baseline, base, pending, rounds, reports, polls := b, b, "", 0, [], [];
    }

    /** One tick: after it, the calls of OnChange are those the readings so far call for. */
    method Poll(reading: Option<string>)
      requires Valid()
      modifies this
      ensures Valid() && polls == old(polls) + [reading]
      ensures reports == Reports(baseline, Successes(polls), confirm)
    {
      hide Successes, Reports, Agrees, BaseAfter, LastAt;
      ghost var seen := Successes(polls);
      OnePoll(polls, reading);
      polls := polls + [reading];
      if reading.None? {
        return;
      }
      var cur := reading.value;
      ghost var now := seen + [cur];
      StepIsRight(baseline, seen, cur, confirm, base, pending, rounds);
      if cur == base {
        pending, rounds := "", 0;
        return;
      }
      if cur != pending {
        pending, rounds := cur, 1;
      } else {
        rounds := rounds + 1;
      }
      if rounds >= confirm {
        var before := base;
        base, pending, rounds := cur, "", 0;
        reports := reports + [Report(before, cur, |now|)];
      }
    }
  }

  lemma OnePoll(polls: seq<Option<string>>, reading: Option<string>)
    ensures Successes(polls + [reading])
            == if reading.None? then Successes(polls) else Successes(polls) + [reading.value]
  {
    assert (polls + [reading])[..|polls|] == polls;
  }

  /** One reading against the counter: what is reported, and that the counter goes on agreeing. */
  lemma StepIsRight(baseline: string, seen: seq<string>, cur: string, confirm: nat,
                    base: string, pending: string, rounds: nat)
    requires var earlier := Reports(baseline, seen, confirm);
             && confirm > 0 && base == BaseAfter(baseline, earlier) && LastAt(earlier) <= |seen|
             && Agrees(base, pending, rounds, seen, LastAt(earlier))
    ensures var earlier := Reports(baseline, seen, confirm);
            var start := LastAt(earlier);
            var now := seen + [cur];
            var count := if cur != pending then 1 else rounds + 1;
            && (cur == base ==> Reports(baseline, now, confirm) == earlier && Agrees(base, "", 0, now, start))
            && (cur != base && count < confirm ==>
                  Reports(baseline, now, confirm) == earlier && Agrees(base, cur, count, now, start))
            && (cur != base && count >= confirm ==>
                  && Reports(baseline, now, confirm) == earlier + [Report(base, cur, |now|)]
                  && BaseAfter(baseline, Reports(baseline, now, confirm)) == cur
                  && LastAt(Reports(baseline, now, confirm)) == |now| && Agrees(cur, "", 0, now, |now|))
  {
    var earlier := Reports(baseline, seen, confirm);
    var start := LastAt(earlier);
    var now := seen + [cur];
    assert now[..|now| - 1] == seen;
    Counts(base, pending, rounds, seen, cur, start);
    SameAtEndIsMaximal(now, start, confirm);
    OneReading(baseline, now, confirm);
    hide SameAtEnd, IsSteady, Reports;
  }

  lemma OneReading(baseline: string, now: seq<string>, confirm: nat)
    requires now != []
    ensures var n := |now|;
            var earlier := Reports(baseline, now[..n - 1], confirm);
            Reports(baseline, now, confirm)
            == if Settles(baseline, now, earlier, confirm)
               then earlier + [Report(BaseAfter(baseline, earlier), now[n - 1], n)] else earlier
  {
    hide Settles;
  }

  /** What the counter has to become when a reading off the base comes in; the empty string needs no care. */
  lemma Counts(base: string, pending: string, rounds: nat, seen: seq<string>, cur: string, start: nat)
    requires start <= |seen| && Agrees(base, pending, rounds, seen, start)
    ensures cur != base ==>
              SameAtEnd(seen + [cur], start) == if cur != pending then 1 else rounds + 1
  {
    var now := seen + [cur];
    assert now[..|now| - 1] == seen;
  }

  // ---------------------------------------------------------------- what that means

  /** The reports chain: each starts where the one before ended, the first at the baseline; none reports no change. */
  ghost predicate IsChain(baseline: string, reports: seq<Report>) {
    forall i :: 0 <= i < |reports| ==> Follows(baseline, reports, i)
  }

  predicate Follows(baseline: string, reports: seq<Report>, i: nat)
    requires i < |reports|
  {
    reports[i].before == BaseAfter(baseline, reports[..i]) != reports[i].after
  }

  lemma ChainMore(baseline: string, reports: seq<Report>, r: Report)
    requires IsChain(baseline, reports) && r.before == BaseAfter(baseline, reports) && r.before != r.after
    ensures IsChain(baseline, reports + [r])
  {
    var more := reports + [r];
    forall i | 0 <= i < |more| ensures Follows(baseline, more, i) {
      assert more[..i] == reports[..i];
      if i < |reports| {
        assert Follows(baseline, reports, i) && more[i] == reports[i];
      } else {
        assert reports[..i] == reports && more[i] == r;
      }
    }
  }

  lemma {:induction false} ReportsChain(baseline: string, readings: seq<string>, confirm: nat)
    ensures IsChain(baseline, Reports(baseline, readings, confirm))
  {
    hide IsChain, IsSteady;
    if readings != [] {
      var n := |readings|;
      var earlier := Reports(baseline, readings[..n - 1], confirm);
      ReportsChain(baseline, readings[..n - 1], confirm);
      if Settles(baseline, readings, earlier, confirm) {
        ChainMore(baseline, earlier, Report(BaseAfter(baseline, earlier), readings[n - 1], n));
      }
    } else {
      NothingIsAChain(baseline);
    }
  }

  lemma NothingIsAChain(baseline: string)
    ensures IsChain(baseline, [])
  {
  }

  /** Each report rests on `confirm` equal readings of its own, after those of the report before it. */
  ghost predicate IsGrounded(readings: seq<string>, reports: seq<Report>, confirm: nat) {
    && (forall i :: 0 <= i < |reports| ==> Fills(readings, reports[i].at, confirm, reports[i].after))
    && (forall i :: 0 <= i < |reports| ==> LastAt(reports[..i]) + confirm <= reports[i].at)
  }

  lemma GroundedMore(readings: seq<string>, reports: seq<Report>, confirm: nat)
    requires readings != [] && IsGrounded(readings[..|readings| - 1], reports, confirm)
    ensures IsGrounded(readings, reports, confirm)
  {
    hide LastAt;
    var init := readings[..|readings| - 1];
    forall i | 0 <= i < |reports| ensures Fills(readings, reports[i].at, confirm, reports[i].after) {
      assert Fills(init, reports[i].at, confirm, reports[i].after);
    }
  }

  lemma GroundedReport(readings: seq<string>, reports: seq<Report>, confirm: nat, r: Report)
    requires IsGrounded(readings, reports, confirm)
    requires Fills(readings, r.at, confirm, r.after) && LastAt(reports) + confirm <= r.at
    ensures IsGrounded(readings, reports + [r], confirm)
  {
    hide LastAt, Fills;
    var more := reports + [r];
    forall i | 0 <= i < |more| ensures LastAt(more[..i]) + confirm <= more[i].at {
      assert more[..i] == if i < |reports| then reports[..i] else reports;
    }
  }

  lemma {:induction false} ReportsAreGrounded(baseline: string, readings: seq<string>, confirm: nat)
    ensures IsGrounded(readings, Reports(baseline, readings, confirm), confirm)
  {
    hide IsGrounded, Fills;
    if readings != [] {
      var n := |readings|;
      var earlier := Reports(baseline, readings[..n - 1], confirm);
      ReportsAreGrounded(baseline, readings[..n - 1], confirm);
      GroundedMore(readings, earlier, confirm);
      if Settles(baseline, readings, earlier, confirm) {
        GroundedReport(readings, earlier, confirm, Report(BaseAfter(baseline, earlier), readings[n - 1], n));
      }
    } else {
      NothingIsGrounded(confirm);
    }
  }

  lemma NothingIsGrounded(confirm: nat)
    ensures IsGrounded([], [], confirm)
  {
  }

  /** A value that never fills `confirm` successful polls in a row is never reported. */
  lemma ShortChangesAreSilent(baseline: string, readings: seq<string>, confirm: nat, value: string, i: nat)
    requires forall at: nat :: !Fills(readings, at, confirm, value)
    requires i < |Reports(baseline, readings, confirm)|
    ensures Reports(baseline, readings, confirm)[i].after != value
  {
    ReportsAreGrounded(baseline, readings, confirm);
    hide Reports, Fills, LastAt;
  }

  lemma LastReportIsThere(baseline: string, readings: seq<string>, confirm: nat)
    requires confirm > 0
    ensures var rs := Reports(baseline, readings, confirm);
            LastAt(rs) <= |readings| && (rs != [] ==> LastAt(rs) > 0 && readings[LastAt(rs) - 1] == BaseAfter(baseline, rs))
  {
    ReportsAreGrounded(baseline, readings, confirm);
    hide Reports;
    var rs := Reports(baseline, readings, confirm);
    if rs != [] {
      assert Fills(readings, rs[|rs| - 1].at, confirm, rs[|rs| - 1].after);
    }
  }

  /** No settled change is missed: once `confirm` successful polls in a row read a value, it is the base. */
  lemma SettledValueIsTheBase(baseline: string, readings: seq<string>, confirm: nat)
    requires IsSteady(readings, confirm)
    ensures BaseAfter(baseline, Reports(baseline, readings, confirm)) == readings[|readings| - 1]
  {
    LastReportIsThere(baseline, readings[..|readings| - 1], confirm);
  }

  /** Later readings only add reports, and only later ones. */
  lemma {:induction false} ReportsGrow(baseline: string, readings: seq<string>, confirm: nat, k: nat)
    requires k <= |readings|
    ensures var some, all := Reports(baseline, readings[..k], confirm), Reports(baseline, readings, confirm);
            some <= all && forall i :: |some| <= i < |all| ==> all[i].at > k
    decreases |readings|
  {
    if k == |readings| {
      assert readings[..k] == readings;
    } else {
      var init := readings[..|readings| - 1];
      assert init[..k] == readings[..k];
      hide Settles;
      ReportsGrow(baseline, init, confirm, k);
    }
  }

  lemma OneReportMore(baseline: string, readings: seq<string>, confirm: nat)
    requires readings != []
    ensures var earlier := Reports(baseline, readings[..|readings| - 1], confirm);
            var now := Reports(baseline, readings, confirm);
            if Settles(baseline, readings, earlier, confirm)
            then now == earlier + [now[|now| - 1]] && now[|now| - 1].at == |readings|
            else now == earlier
  {
    hide Settles;
  }

  lemma ReportsLieWithin(baseline: string, readings: seq<string>, confirm: nat, i: nat)
    requires i < |Reports(baseline, readings, confirm)|
    ensures Reports(baseline, readings, confirm)[i].at <= |readings|
  {
    ReportsAreGrounded(baseline, readings, confirm);
    hide Reports;
    var rs := Reports(baseline, readings, confirm);
    assert Fills(readings, rs[i].at, confirm, rs[i].after);
  }

  /** A report comes at a poll exactly when its reading settles a change against the reports before it. */
  lemma ReportedExactlyWhenSettled(baseline: string, readings: seq<string>, confirm: nat, k: nat)
    requires k < |readings|
    ensures var earlier := Reports(baseline, readings[..k], confirm);
            (exists i :: 0 <= i < |Reports(baseline, readings, confirm)| && Reports(baseline, readings, confirm)[i].at == k + 1)
            <==> Settles(baseline, readings[..k + 1], earlier, confirm)
  {
    var now := readings[..k + 1];
    assert now[..k] == readings[..k];
    var earlier := Reports(baseline, readings[..k], confirm);
    var upto, all := Reports(baseline, now, confirm), Reports(baseline, readings, confirm);
    ReportsGrow(baseline, readings, confirm, k + 1);
    OneReportMore(baseline, now, confirm);
    forall i | 0 <= i < |earlier| ensures earlier[i].at <= k {
      ReportsLieWithin(baseline, readings[..k], confirm, i);
    }
    hide Settles, Reports;
    if Settles(baseline, now, earlier, confirm) {
      assert all[|upto| - 1] == upto[|upto| - 1];
    } else {
      forall i | 0 <= i < |all| ensures all[i].at != k + 1 {
        if i < |upto| {
          assert all[i] == earlier[i];
        }
      }
    }
  }
}
