/** Auto server selection over the reals: hysteresis keeps Select from ping-ponging. */
module Selector {
  import opened Text

  datatype Health = Unknown | Healthy | Degraded | Unhealthy

  /** A server as the scorer sees it; a negative latency means never tested. */
  datatype Server = Server(id: string, health: Health, latencyMs: int)

  datatype Params = Params(
    maxLatencyMs: int, latencyWeight: real, healthWeight: real, stabilityWeight: real,
    hysteresis: real, untestedScore: real, unhealthyCap: real)

  const DEFAULTS := Params(3000, 0.55, 0.30, 0.15, 0.15, 35.0, 15.0)

  type Histories = map<string, seq<int>>

  /** The coefficient of variation of two or more samples, whose square root stays abstract; it is never negative. */
  type Spread = seq<int> -> real

  datatype Ranked = Ranked(server: Server, score: real)

  // ---------------------------------------------------------------- scores

  predicate IsTested(s: Server) { s.latencyMs >= 0 }

  function Min(a: real, b: real): real { if a <= b then a else b }

  function LatencyComponent(latencyMs: int, maxMs: int): (r: real)
    requires maxMs > 0
    ensures 0.0 <= r <= 100.0
  {
    if latencyMs < 0 || latencyMs >= maxMs then 0.0
    else
      RatioBelowOne(latencyMs, maxMs);
      100.0 * (1.0 - latencyMs as real / maxMs as real)
  }

  lemma RatioBelowOne(a: int, b: int)
    requires 0 <= a < b
    ensures 0.0 <= a as real / b as real < 1.0
  {
  }

  function HealthComponent(h: Health): real {
    match h
    case Healthy => 100.0
    case Degraded => 50.0
    case Unhealthy => 0.0
    case Unknown => 60.0
  }

  function Sum(samples: seq<int>): int {
    if samples == [] then 0 else Sum(samples[..|samples| - 1]) + samples[|samples| - 1]
  }

  function StabilityComponent(samples: seq<int>, spread: Spread): real {
    if |samples| < 2 || Sum(samples) <= 0 || 1.0 + 3.0 * spread(samples) <= 0.0 then 60.0
    else 100.0 / (1.0 + 3.0 * spread(samples))
  }

  function TotalWeight(p: Params): real { p.latencyWeight + p.healthWeight + p.stabilityWeight }

  /** Parameters the division in the score makes sense for. */
  predicate IsUsable(p: Params) { p.maxLatencyMs > 0 ==> TotalWeight(p) > 0.0 }

  /** Non-positive latency bounds stand for the defaults. */
  function Effective(p: Params): Params { if p.maxLatencyMs <= 0 then DEFAULTS else p }

  /** The score without the incumbent's bonus and before the cap. */
  function Raw(s: Server, samples: seq<int>, q: Params, spread: Spread): real
    requires q.maxLatencyMs > 0 && TotalWeight(q) > 0.0
  {
    if s.health.Unhealthy? then q.unhealthyCap
    else if !IsTested(s) then q.untestedScore
    else (q.latencyWeight * LatencyComponent(s.latencyMs, q.maxLatencyMs)
          + q.healthWeight * HealthComponent(s.health)
          + q.stabilityWeight * StabilityComponent(samples, spread)) / TotalWeight(q)
  }

  /** The incumbent's bonus, then the cap. */
  function Adjusted(raw: real, incumbent: bool, hysteresis: real): real {
    Min(if incumbent then raw * (1.0 + hysteresis) else raw, 100.0)
  }

  function Score(s: Server, samples: seq<int>, incumbent: bool, p: Params, spread: Spread): real
    requires IsUsable(p)
  {
    var q := Effective(p);
    Adjusted(Raw(s, samples, q, spread), incumbent, q.hysteresis)
  }

  // ---------------------------------------------------------------- ranking

  predicate IsSorted(rs: seq<Ranked>) { forall i, j :: 0 <= i < j < |rs| ==> rs[i].score >= rs[j].score }

  /** A sort by descending score: any permutation of its input in that order, equal scores as it likes. */
  ghost predicate Sorts(sort: seq<Ranked> -> seq<Ranked>) {
    forall rs :: IsSorted(sort(rs)) && multiset(sort(rs)) == multiset(rs)
  }

  function HistoryOf(h: Histories, id: string): seq<int> { if id in h then h[id] else [] }

  function Scored(list: seq<Server>, h: Histories, incumbent: string, p: Params, spread: Spread): (rs: seq<Ranked>)
    requires IsUsable(p)
    ensures |rs| == |list|
  {
    seq(|list|, i requires 0 <= i < |list| =>
      Ranked(list[i], Score(list[i], HistoryOf(h, list[i].id), list[i].id == incumbent, p, spread)))
  }

  function UsableOnly(rs: seq<Ranked>): seq<Ranked> {
    if rs == [] then []
    else
      var init := UsableOnly(rs[..|rs| - 1]);
      var last := rs[|rs| - 1];
      if last.server.health.Unhealthy? then init else init + [last]
  }

  /** The unhealthy are left out whenever anything else is there. */
  function UsableOrAll(rs: seq<Ranked>): seq<Ranked> {
    var usable := UsableOnly(rs);
    if usable == [] then rs else usable
  }

  /** Rank: score every server, sort best first, keep the usable ones. */
  method Rank(list: seq<Server>, h: Histories, incumbent: string, p: Params, spread: Spread,
              sort: seq<Ranked> -> seq<Ranked>)
    returns (ranked: seq<Ranked>)
    requires IsUsable(p)
    ensures ranked == UsableOrAll(sort(Scored(list, h, incumbent, p, spread)))
  {
    hide Score, IsUsable;
    var out: seq<Ranked> := [];
    for i := 0 to |list|
      invariant out == Scored(list, h, incumbent, p, spread)[..i]
    {
      var s := list[i];
      out := out + [Ranked(s, Score(s, HistoryOf(h, s.id), s.id == incumbent, p, spread))];
    }
    assert out == Scored(list, h, incumbent, p, spread);
    out := sort(out);
    var usable: seq<Ranked> := [];
    for i := 0 to |out|
      invariant usable == UsableOnly(out[..i])
    {
      assert out[..i + 1][..i] == out[..i];
      if !out[i].server.health.Unhealthy? {
        usable := usable + [out[i]];
      }
    }
    assert out[..|out|] == out;
    return if |usable| > 0 then usable else out;
  }

  function Select(list: seq<Server>, h: Histories, incumbent: string, p: Params, spread: Spread,
                  sort: seq<Ranked> -> seq<Ranked>): Option<Server>
    requires IsUsable(p)
  {
    var ranked := UsableOrAll(sort(Scored(list, h, incumbent, p, spread)));
    if ranked == [] then None else Some(ranked[0].server)
  }

  // ---------------------------------------------------------------- what a pick is

  /** A server Select may choose at all. */
  predicate IsCandidate(list: seq<Server>, s: Server) {
    s in list && (s.health.Unhealthy? ==> forall t :: t in list ==> t.health.Unhealthy?)
  }

  function ScoreIn(s: Server, h: Histories, incumbent: string, p: Params, spread: Spread): real
    requires IsUsable(p)
  {
    Score(s, HistoryOf(h, s.id), s.id == incumbent, p, spread)
  }

  /** A candidate that no candidate outscores. */
  ghost predicate IsPick(list: seq<Server>, h: Histories, incumbent: string, p: Params, spread: Spread, s: Server)
    requires IsUsable(p)
  {
    && IsCandidate(list, s)
    && forall t :: IsCandidate(list, t) ==> ScoreIn(t, h, incumbent, p, spread) <= ScoreIn(s, h, incumbent, p, spread)
  }

  lemma {:induction false} UsableOnlyKeeps(rs: seq<Ranked>)
    ensures forall r :: r in UsableOnly(rs) <==> r in rs && !r.server.health.Unhealthy?
    decreases |rs|
  {
    if rs != [] {
      UsableOnlyKeeps(rs[..|rs| - 1]);
      assert rs == rs[..|rs| - 1] + [rs[|rs| - 1]];
    }
  }

  lemma {:induction false} UsableOnlyIsSorted(rs: seq<Ranked>)
    requires IsSorted(rs)
    ensures IsSorted(UsableOnly(rs))
    decreases |rs|
  {
    if rs != [] {
      var init, last := rs[..|rs| - 1], rs[|rs| - 1];
      UsableOnlyIsSorted(init);
      UsableOnlyKeeps(init);
      var kept := UsableOnly(init);
      forall i | 0 <= i < |kept| ensures kept[i].score >= last.score {
        assert kept[i] in init;
      }
    }
  }

  /** The servers of the ranking, with their scores. */
  lemma RankedAre(list: seq<Server>, h: Histories, incumbent: string, p: Params, spread: Spread,
                  sort: seq<Ranked> -> seq<Ranked>)
    requires IsUsable(p) && Sorts(sort)
    ensures var rs := sort(Scored(list, h, incumbent, p, spread));
            IsSorted(rs) && forall r :: r in rs <==> r.server in list && r.score == ScoreIn(r.server, h, incumbent, p, spread)
  {
    var scored := Scored(list, h, incumbent, p, spread);
    var rs := sort(scored);
    assert IsSorted(rs) && multiset(rs) == multiset(scored);
    hide Score, IsUsable, IsSorted, Sorts;
    forall r ensures r in rs <==> r.server in list && r.score == ScoreIn(r.server, h, incumbent, p, spread) {
      assert r in rs <==> r in multiset(rs);
      assert r in scored <==> r in multiset(scored);
      if r.server in list && r.score == ScoreIn(r.server, h, incumbent, p, spread) {
        var i :| 0 <= i < |list| && list[i] == r.server;
        assert scored[i] == r;
      }
    }
  }

  /** Select returns a pick, and something whenever there is a server. */
  lemma SelectPicks(list: seq<Server>, h: Histories, incumbent: string, p: Params, spread: Spread,
                    sort: seq<Ranked> -> seq<Ranked>)
    requires IsUsable(p) && Sorts(sort)
    ensures var s := Select(list, h, incumbent, p, spread, sort);
            if list == [] then s == None else s.Some? && IsPick(list, h, incumbent, p, spread, s.value)
  {
    RankedAre(list, h, incumbent, p, spread, sort);
    var rs := sort(Scored(list, h, incumbent, p, spread));
    UsableOnlyKeeps(rs);
    UsableOnlyIsSorted(rs);
    var usable := UsableOnly(rs);
    var ranked := UsableOrAll(rs);
    hide Scored, UsableOnly, ScoreIn, IsUsable, Sorts;
    forall s | IsCandidate(list, s) ensures Ranked(s, ScoreIn(s, h, incumbent, p, spread)) in ranked {
      CandidateIsRanked(list, s, rs, h, incumbent, p, spread);
    }
    if list != [] {
      assert Ranked(list[0], ScoreIn(list[0], h, incumbent, p, spread)) in rs;
      var best := ranked[0];
      assert best in ranked && best in rs;
      if best.server.health.Unhealthy? {
        forall t | t in list ensures t.health.Unhealthy? {
          assert Ranked(t, ScoreIn(t, h, incumbent, p, spread)) in rs;
        }
      }
    }
  }

  lemma CandidateIsRanked(list: seq<Server>, s: Server, rs: seq<Ranked>, h: Histories, incumbent: string, p: Params,
                          spread: Spread)
    requires IsUsable(p) && IsCandidate(list, s)
    requires forall r :: r in rs <==> r.server in list && r.score == ScoreIn(r.server, h, incumbent, p, spread)
    requires forall r :: r in UsableOnly(rs) <==> r in rs && !r.server.health.Unhealthy?
    ensures Ranked(s, ScoreIn(s, h, incumbent, p, spread)) in UsableOrAll(rs)
  {
    hide ScoreIn, UsableOnly, IsUsable;
    var r := Ranked(s, ScoreIn(s, h, incumbent, p, spread));
    assert r in rs;
    if UsableOnly(rs) != [] {
      assert UsableOnly(rs)[0] in UsableOnly(rs);
    }
  }

  // ---------------------------------------------------------------- no ping-pong

  predicate DistinctIds(list: seq<Server>) { forall i, j :: 0 <= i < j < |list| ==> list[i].id != list[j].id }

  /** Scores without bonus lie strictly between 0 and the cap. */
  predicate IsInside(list: seq<Server>, h: Histories, p: Params, spread: Spread)
    requires IsUsable(p)
  {
    forall s :: s in list ==> 0.0 < Raw(s, HistoryOf(h, s.id), Effective(p), spread) < 100.0
  }

  /** The bonus lifts a score inside the range strictly, and never lowers one. */
  lemma BonusLifts(raw: real, hysteresis: real)
    requires 0.0 < raw < 100.0 && hysteresis > 0.0
    ensures raw < Adjusted(raw, true, hysteresis) && Adjusted(raw, false, hysteresis) == raw
  {
    assert raw * (1.0 + hysteresis) == raw + raw * hysteresis;
    assert raw * hysteresis > 0.0;
  }

  /** Made the incumbent, a pick that was not one strictly outscores every other candidate. */
  lemma PickWinsAlone(list: seq<Server>, h: Histories, incumbent: string, p: Params, spread: Spread, s: Server, t: Server)
    requires IsUsable(p) && IsInside(list, h, p, spread) && Effective(p).hysteresis > 0.0
    requires IsPick(list, h, incumbent, p, spread, s) && s.id != incumbent
    requires IsCandidate(list, t) && t.id != s.id
    ensures ScoreIn(t, h, s.id, p, spread) < ScoreIn(s, h, s.id, p, spread)
  {
    var q := Effective(p);
    BonusLifts(Raw(s, HistoryOf(h, s.id), q, spread), q.hysteresis);
    BonusLifts(Raw(t, HistoryOf(h, t.id), q, spread), q.hysteresis);
    assert ScoreIn(t, h, incumbent, p, spread) <= ScoreIn(s, h, incumbent, p, spread);
    hide Raw, Adjusted, IsCandidate;
  }

  lemma SameId(list: seq<Server>, s: Server, t: Server)
    requires DistinctIds(list) && s in list && t in list && s.id == t.id
    ensures s == t
  {
    var i :| 0 <= i < |list| && list[i] == s;
    var j :| 0 <= j < |list| && list[j] == t;
  }

  /**
   * Select never ping-pongs: with its own pick as the incumbent it returns that pick again, for every
   * list and every starting incumbent, however the sort orders equal scores.
   */
  lemma SelectIsStable(list: seq<Server>, h: Histories, incumbent: string, p: Params, spread: Spread,
                       sort: seq<Ranked> -> seq<Ranked>)
    requires IsUsable(p) && Sorts(sort) && DistinctIds(list)
    requires IsInside(list, h, p, spread) && Effective(p).hysteresis > 0.0
    requires Select(list, h, incumbent, p, spread, sort).Some?
    ensures var pick := Select(list, h, incumbent, p, spread, sort);
            Select(list, h, pick.value.id, p, spread, sort) == pick
  {
    var s := Select(list, h, incumbent, p, spread, sort).value;
    SelectPicks(list, h, incumbent, p, spread, sort);
    SelectPicks(list, h, s.id, p, spread, sort);
    var t := Select(list, h, s.id, p, spread, sort).value;
    hide Select, Sorts, IsInside, ScoreIn, IsUsable, Effective;
    if s.id != incumbent && t.id != s.id {
      PickWinsAlone(list, h, incumbent, p, spread, s, t);
      assert false;
    }
    SamePick(list, s, t);
  }

  lemma SamePick(list: seq<Server>, s: Server, t: Server)
    requires DistinctIds(list) && s in list && t in list
    ensures s.id == t.id ==> s == t
  {
    if s.id == t.id {
      SameId(list, s, t);
    }
  }

  /** A challenger takes over from a candidate incumbent only with at least the incumbent's raised, capped score. */
  lemma DisplacingTakesTheMargin(list: seq<Server>, h: Histories, c: Server, p: Params, spread: Spread,
                                 sort: seq<Ranked> -> seq<Ranked>)
    requires IsUsable(p) && Sorts(sort) && IsCandidate(list, c)
    ensures var pick := Select(list, h, c.id, p, spread, sort);
            var q := Effective(p);
            pick.Some? && (pick.value.id != c.id ==>
              Score(pick.value, HistoryOf(h, pick.value.id), false, p, spread)
              >= Min((1.0 + q.hysteresis) * Raw(c, HistoryOf(h, c.id), q, spread), 100.0))
  {
    SelectPicks(list, h, c.id, p, spread, sort);
    var pick := Select(list, h, c.id, p, spread, sort).value;
    hide Select, Sorts, Raw, Effective;
    assert ScoreIn(c, h, c.id, p, spread) <= ScoreIn(pick, h, c.id, p, spread);
  }

  // ---------------------------------------------------------------- as the daemon calls it

  /** historiesOf: one sample for each tested server, none for the others. */
  method HistoriesOf(list: seq<Server>) returns (h: Histories)
    ensures forall id :: id in h ==> |h[id]| == 1
    ensures forall s :: s in list && IsTested(s) ==> s.id in h
    ensures forall id :: id in h ==> exists s :: s in list && IsTested(s) && s.id == id && h[id] == [s.latencyMs]
  {
    h := map[];
    for i := 0 to |list|
      invariant forall id :: id in h ==> |h[id]| == 1
      invariant forall j :: 0 <= j < i && IsTested(list[j]) ==> list[j].id in h
      invariant forall id :: id in h ==> exists s :: s in list && IsTested(s) && s.id == id && h[id] == [s.latencyMs]
    {
      var s := list[i];
      if IsTested(s) {
        h := h[s.id := [s.latencyMs]];
      }
    }
  }

  /** With the default parameters and at most one sample a server, no score reaches the cap or 0. */
  lemma DefaultScoresAreInside(s: Server, samples: seq<int>, spread: Spread)
    requires |samples| <= 1
    ensures 15.0 <= Raw(s, samples, DEFAULTS, spread) <= 94.0
  {
    if !s.health.Unhealthy? && IsTested(s) {
      var l := LatencyComponent(s.latencyMs, 3000);
      hide LatencyComponent;
      assert TotalWeight(DEFAULTS) == 1.0;
      assert Raw(s, samples, DEFAULTS, spread) == 0.55 * l + 0.30 * HealthComponent(s.health) + 0.15 * 60.0;
    }
  }

  /** So the daemon's Auto selection is stable, and its margin is 15 per cent. */
  lemma AutoIsStable(list: seq<Server>, h: Histories, incumbent: string, spread: Spread,
                     sort: seq<Ranked> -> seq<Ranked>)
    requires Sorts(sort) && DistinctIds(list) && forall id :: id in h ==> |h[id]| <= 1
    requires Select(list, h, incumbent, DEFAULTS, spread, sort).Some?
    ensures var pick := Select(list, h, incumbent, DEFAULTS, spread, sort);
            Select(list, h, pick.value.id, DEFAULTS, spread, sort) == pick
  {
    forall s | s in list ensures 0.0 < Raw(s, HistoryOf(h, s.id), DEFAULTS, spread) < 100.0 {
      DefaultScoresAreInside(s, HistoryOf(h, s.id), spread);
    }
    hide Select, Raw, Sorts;
    SelectIsStable(list, h, incumbent, DEFAULTS, spread, sort);
  }

  // ---------------------------------------------------------------- whom the daemon prefers

  /** With the default parameters and at most one sample, six hundred times the score, in whole numbers. */
  function Merit(s: Server): int {
    if s.health.Unhealthy? then 9_000
    else if !IsTested(s) then 21_000
    else
      (match s.health case Healthy => 56_400 case Degraded => 47_400 case _ => 49_200)
      - 11 * (if s.latencyMs < 3000 then s.latencyMs else 3000)
  }

  lemma LatencyInPoints(latencyMs: int)
    requires latencyMs >= 0
    ensures 330.0 * LatencyComponent(latencyMs, 3000)
            == 33_000.0 - 11.0 * (if latencyMs < 3000 then latencyMs else 3000) as real
  {
  }

  lemma ScoreIsMerit(s: Server, samples: seq<int>, spread: Spread)
    requires |samples| <= 1
    ensures 600.0 * Raw(s, samples, DEFAULTS, spread) == Merit(s) as real
  {
    if !s.health.Unhealthy? && IsTested(s) {
      LatencyInPoints(s.latencyMs);
      var l := LatencyComponent(s.latencyMs, 3000);
      hide LatencyComponent;
      assert TotalWeight(DEFAULTS) == 1.0;
      assert Raw(s, samples, DEFAULTS, spread) == 0.55 * l + 0.30 * HealthComponent(s.health) + 0.15 * 60.0;
      assert 600.0 * (0.55 * l) == 330.0 * l;
    }
  }

  /** The score of a server that is not the incumbent, and of one that is. */
  lemma MeritDecides(s: Server, samples: seq<int>, spread: Spread)
    requires |samples| <= 1
    ensures 600.0 * Score(s, samples, false, DEFAULTS, spread) == Merit(s) as real
    ensures 60_000.0 * Score(s, samples, true, DEFAULTS, spread)
            == Min((115 * Merit(s)) as real, 6_000_000.0)
    ensures 0 < Merit(s) <= 56_400
  {
    ScoreIsMerit(s, samples, spread);
    DefaultScoresAreInside(s, samples, spread);
    var raw := Raw(s, samples, DEFAULTS, spread);
    hide Raw;
    assert 60_000.0 * (raw * 1.15) == 115.0 * (600.0 * raw);
    assert (115 * Merit(s)) as real == 115.0 * Merit(s) as real;
  }

  predicate AtMostOneSample(h: Histories) { forall id :: id in h ==> |h[id]| <= 1 }

  /** How good a tested server's health is. */
  function Grade(health: Health): int {
    match health
    case Healthy => 3
    case Unknown => 2
    case Degraded => 1
    case Unhealthy => 0
  }

  /** A server that must go before another: by health alone, by latency alone, or by both. */
  predicate IsBetter(t: Server, s: Server) {
    || (!t.health.Unhealthy? && s.health.Unhealthy?)
    || (t.health.Healthy? && IsTested(t) && !IsTested(s))
    || (IsTested(t) && IsTested(s) && t.health == s.health && !t.health.Unhealthy?
        && t.latencyMs < s.latencyMs && t.latencyMs < 3000)
    || (IsTested(t) && IsTested(s) && Grade(t.health) > Grade(s.health) && t.latencyMs <= s.latencyMs)
  }

  lemma BetterHasMoreMerit(t: Server, s: Server)
    requires IsBetter(t, s)
    ensures Merit(t) > Merit(s)
  {
  }

  /** Without an incumbent among the servers, Auto picks one of the most merit, so nothing better is left. */
  lemma AutoPicksTheBest(list: seq<Server>, h: Histories, incumbent: string, spread: Spread,
                         sort: seq<Ranked> -> seq<Ranked>)
    requires Sorts(sort) && AtMostOneSample(h) && list != [] && forall s :: s in list ==> s.id != incumbent
    ensures var pick := Select(list, h, incumbent, DEFAULTS, spread, sort);
            && pick.Some? && pick.value in list
            && forall t :: t in list ==> Merit(t) <= Merit(pick.value) && !IsBetter(t, pick.value)
  {
    SelectPicks(list, h, incumbent, DEFAULTS, spread, sort);
    var s := Select(list, h, incumbent, DEFAULTS, spread, sort).value;
    hide Select, Sorts, Score, IsBetter;
    forall t | t in list ensures Merit(t) <= Merit(s) && !IsBetter(t, s) {
      MeritDecides(s, HistoryOf(h, s.id), spread);
      MeritDecides(t, HistoryOf(h, t.id), spread);
      if !IsCandidate(list, t) {
        UnhealthyIsLast(list, t, s);
      } else {
        assert ScoreIn(t, h, incumbent, DEFAULTS, spread) <= ScoreIn(s, h, incumbent, DEFAULTS, spread);
      }
      if IsBetter(t, s) {
        BetterHasMoreMerit(t, s);
      }
    }
  }

  lemma UnhealthyIsLast(list: seq<Server>, t: Server, s: Server)
    requires t in list && !IsCandidate(list, t) && IsCandidate(list, s)
    ensures Merit(t) <= Merit(s)
  {
  }

  /** An incumbent that may be picked stays if none beats its merit by 15 per cent, and goes if one beats it by more. */
  lemma AutoKeepsTheIncumbent(list: seq<Server>, h: Histories, c: Server, spread: Spread,
                              sort: seq<Ranked> -> seq<Ranked>)
    requires Sorts(sort) && AtMostOneSample(h) && DistinctIds(list) && IsCandidate(list, c)
    ensures var pick := Select(list, h, c.id, DEFAULTS, spread, sort);
            && pick.Some?
            && ((forall t :: IsCandidate(list, t) && t != c ==> 100 * Merit(t) < 115 * Merit(c)) ==> pick.value == c)
            && (pick.value == c ==> forall t :: IsCandidate(list, t) && t != c ==> 100 * Merit(t) <= 115 * Merit(c))
  {
    SelectPicks(list, h, c.id, DEFAULTS, spread, sort);
    var s := Select(list, h, c.id, DEFAULTS, spread, sort).value;
    hide Select, Sorts, Score;
    assert ScoreIn(c, h, c.id, DEFAULTS, spread) <= ScoreIn(s, h, c.id, DEFAULTS, spread);
    MeritDecides(c, HistoryOf(h, c.id), spread);
    MeritDecides(s, HistoryOf(h, s.id), spread);
    SamePick(list, c, s);
    hide Merit;
    if s == c {
      forall t | IsCandidate(list, t) && t != c ensures 100 * Merit(t) <= 115 * Merit(c) {
        SamePick(list, c, t);
        MeritDecides(t, HistoryOf(h, t.id), spread);
        assert ScoreIn(t, h, c.id, DEFAULTS, spread) <= ScoreIn(s, h, c.id, DEFAULTS, spread);
      }
    }
  }

  /** Of two histories the steadier one is worth more, and one without any spread is worth everything. */
  lemma SteadierIsBetter(a: seq<int>, b: seq<int>, spread: Spread)
    requires |a| >= 2 && |b| >= 2 && Sum(a) > 0 && Sum(b) > 0 && 0.0 <= spread(a) < spread(b)
    ensures StabilityComponent(a, spread) > StabilityComponent(b, spread) > 0.0
    ensures spread(a) == 0.0 ==> StabilityComponent(a, spread) == 100.0
  {
    SmallerQuotient(1.0 + 3.0 * spread(a), 1.0 + 3.0 * spread(b));
  }

  lemma SmallerQuotient(x: real, y: real)
    requires 0.0 < x < y
    ensures 100.0 / x > 100.0 / y > 0.0
  {
    assert 100.0 / x - 100.0 / y == 100.0 * (y - x) / (x * y);
  }

  /** Parameters without a latency bound stand for the defaults, in every score. */
  lemma NoBoundMeansDefaults(s: Server, samples: seq<int>, incumbent: bool, p: Params, spread: Spread)
    requires p.maxLatencyMs <= 0
    ensures Score(s, samples, incumbent, p, spread) == Score(s, samples, incumbent, DEFAULTS, spread)
  {
    hide Raw, Adjusted;
  }
}
