/** The generated core configuration: split-tunnel rules against the policy they stand for, and group outbounds. */
module Config {
  import opened Text

  // ---------------------------------------------------------------- rules and how the core evaluates them

  /** Destinations, by what the address matchers of the rules can tell apart. */
  datatype Dest = Loopback | LinkLocal6 | LinkLocal4 | PrivateNet | PublicNet

  /** Where a rule matches: everywhere, `ip_is_private`, or the loopback and fe80::/10 blocks. */
  datatype Where = Anywhere | IsPrivate | HostBlocks

  datatype Action = Sniff | Route(outbound: Bytes) | HijackDns

  /** A rule: `apps` restricts it to process names, `dns` to sniffed DNS. */
  datatype Rule = Rule(apps: Option<seq<Bytes>>, dns: bool, reach: Where, action: Action)

  datatype Packet = Packet(app: Bytes, dns: bool, dest: Dest)

  datatype Decision = To(outbound: Bytes) | Hijacked

  predicate Reaches(w: Where, d: Dest) {
    match w
    case Anywhere => true
    case IsPrivate => !d.PublicNet?
    case HostBlocks => d.Loopback? || d.LinkLocal6?
  }

  /** A rule on DNS sees it only once something before it has sniffed the connection. */
  predicate Matches(r: Rule, p: Packet, sniffed: bool) {
    && (r.apps.Some? ==> p.app in r.apps.value)
    && (r.dns ==> sniffed && p.dns)
    && Reaches(r.reach, p.dest)
  }

  /** First match: sniffing falls through, routing and hijacking end. */
  function Decide(rules: seq<Rule>, final: Bytes, p: Packet, sniffed: bool): Decision {
    if rules == [] then To(final)
    else if !Matches(rules[0], p, sniffed) then Decide(rules[1..], final, p, sniffed)
    else
      match rules[0].action
      case Sniff => Decide(rules[1..], final, p, true)
      case Route(outbound) => To(outbound)
      case HijackDns => Hijacked
  }

  // ---------------------------------------------------------------- what is generated

  datatype Mode = GlobalMode | RulesMode
  datatype Split = Off | Bypass | Only

  const PROXY_TAG: Bytes := "proxy"
  const AUTO_TAG: Bytes := "proxy-auto"
  const DIRECT: Bytes := "direct"
  const BLOCK: Bytes := "block"
  const MAX_APPS := 200

  function Trimmed(names: seq<Bytes>): seq<Bytes>
    decreases |names|
  {
    if names == [] then []
    else
      var s := TrimSpace(names[0]);
      if s == [] then Trimmed(names[1..]) else [s] + Trimmed(names[1..])
  }

  /** The cleaned names: trimmed, the empty ones dropped, the first 200 kept. */
  function Clean(names: seq<Bytes>): seq<Bytes> {
    var all := Trimmed(names);
    if |all| <= MAX_APPS then all else all[..MAX_APPS]
  }

  /** cleanSplitApps as its loop. */
  method CleanSplitApps(names: seq<Bytes>) returns (out: seq<Bytes>)
    ensures out == Clean(names)
  {
    hide TrimSpace;
    out := [];
    assert names[0..] == names;
    for i := 0 to |names|
      invariant |out| < MAX_APPS
      invariant out + Trimmed(names[i..]) == Trimmed(names)
    {
      var s := TrimSpace(names[i]);
      TrimmedStep(names, i, out);
      if s == [] {
        continue;
      }
      out := out + [s];
      if |out| >= MAX_APPS {
        return;
      }
    }
    assert names[|names|..] == [];
  }

  lemma TrimmedStep(names: seq<Bytes>, i: nat, out: seq<Bytes>)
    requires i < |names|
    ensures var s := TrimSpace(names[i]);
            out + Trimmed(names[i..])
            == (if s == [] then out + Trimmed(names[i + 1..]) else out + [s] + Trimmed(names[i + 1..]))
  {
    hide TrimSpace;
    assert names[i..][0] == names[i] && names[i..][1..] == names[i + 1..];
    assert out + ([TrimSpace(names[i])] + Trimmed(names[i + 1..])) == out + [TrimSpace(names[i])] + Trimmed(names[i + 1..]);
  }

  /** Cleaning keeps the names in their order: those of a list come before those appended to it. */
  lemma {:induction false} TrimmedJoins(a: seq<Bytes>, b: seq<Bytes>)
    ensures Trimmed(a + b) == Trimmed(a) + Trimmed(b)
    decreases |a|
  {
    hide TrimSpace;
    if a == [] {
      assert a + b == b;
    } else {
      TrimmedJoins(a[1..], b);
      assert (a + b)[0] == a[0] && (a + b)[1..] == a[1..] + b;
    }
  }

  lemma {:induction false} TrimmedExactly(names: seq<Bytes>)
    ensures forall x :: x in Trimmed(names) <==> x != [] && exists i :: 0 <= i < |names| && TrimSpace(names[i]) == x
    decreases |names|
  {
    hide TrimSpace;
    if names != [] {
      var rest := names[1..];
      TrimmedExactly(rest);
      forall x ensures x in Trimmed(names) <==> x != [] && exists i :: 0 <= i < |names| && TrimSpace(names[i]) == x {
        if x in Trimmed(rest) {
          var i :| 0 <= i < |rest| && TrimSpace(rest[i]) == x;
          assert names[i + 1] == rest[i];
        }
        if x != [] && exists i :: 0 <= i < |names| && TrimSpace(names[i]) == x {
          var i :| 0 <= i < |names| && TrimSpace(names[i]) == x;
          assert i > 0 ==> rest[i - 1] == names[i];
        }
      }
    }
  }

  /** The cleaned names are what is left of the names once they are trimmed, up to the two hundredth. */
  lemma CleanExactly(names: seq<Bytes>)
    ensures Clean(names) <= Trimmed(names) && |Clean(names)| == (if |Trimmed(names)| < 200 then |Trimmed(names)| else 200)
    ensures forall x :: x in Clean(names) ==> x != [] && SpacePrefix(x) == 0 && SpaceSuffix(x) == 0
  {
    TrimmedExactly(names);
    hide TrimSpace, SpacePrefix, SpaceSuffix, Trimmed;
    forall x | x in Clean(names) ensures x != [] && SpacePrefix(x) == 0 && SpaceSuffix(x) == 0 {
      assert x in Trimmed(names);
      var i :| 0 <= i < |names| && TrimSpace(names[i]) == x;
      TrimSpaceStable(names[i]);
    }
  }

  function OrProxy(final: Bytes): Bytes { if final == [] then PROXY_TAG else final }

  datatype RouteSection = RouteSection(rules: seq<Rule>, final: Bytes)

  /** The rules by split mode: those ahead of everything, the global DNS hijack, the address rule. */
  function SplitRules(final: Bytes, split: Split, apps: seq<Bytes>): seq<Rule> {
    if apps == [] then []
    else
      match split
      case Off => []
      case Bypass => [Rule(Some(apps), false, Anywhere, Route(DIRECT))]
      case Only => [Rule(None, false, Anywhere, Sniff),
                    Rule(Some(apps), true, Anywhere, HijackDns),
                    Rule(Some(apps), false, Anywhere, Route(OrProxy(final)))]
  }

  const GLOBAL_HIJACK: seq<Rule> := [Rule(None, false, Anywhere, Sniff), Rule(None, true, Anywhere, HijackDns)]

  function AddressRule(mode: Mode): Rule {
    Rule(None, false, if mode.RulesMode? then IsPrivate else HostBlocks, Route(DIRECT))
  }

  function Routes(mode: Mode, final: Bytes, split: Split, apps: seq<Bytes>): RouteSection {
    var only := split.Only? && apps != [];
    RouteSection(SplitRules(final, split, apps) + (if only then [] else GLOBAL_HIJACK) + [AddressRule(mode)],
                 if only then DIRECT else OrProxy(final))
  }

  /** routeConfig: the list grows by append, `final` and the hijack flag are switched on the way. */
  method RouteConfig(mode: Mode, target: Bytes, split: Split, names: seq<Bytes>) returns (section: RouteSection)
    ensures section == Routes(mode, target, split, Clean(names))
  {
    var apps := CleanSplitApps(names);
    hide Clean;
    var final := target;
    var rules: seq<Rule> := [];
    var globalHijack := true;
    match split {
      case Bypass =>
        if |apps| > 0 {
          rules := rules + [Rule(Some(apps), false, Anywhere, Route(DIRECT))];
        }
      case Only =>
        if |apps| > 0 {
          if final == [] {
            final := PROXY_TAG;
          }
          rules := rules + [Rule(None, false, Anywhere, Sniff)];
          rules := rules + [Rule(Some(apps), true, Anywhere, HijackDns)];
          rules := rules + [Rule(Some(apps), false, Anywhere, Route(final))];
          final := DIRECT;
          globalHijack := false;
        }
      case Off =>
    }
    assert rules == SplitRules(target, split, apps);
    if globalHijack {
      rules := rules + [Rule(None, false, Anywhere, Sniff), Rule(None, true, Anywhere, HijackDns)];
    }
    if mode == RulesMode {
      rules := rules + [Rule(None, false, IsPrivate, Route(DIRECT))];
    } else {
      rules := rules + [Rule(None, false, HostBlocks, Route(DIRECT))];
    }
    if final == [] {
      final := PROXY_TAG;
    }
    section := RouteSection(rules, final);
  }

  // ---------------------------------------------------------------- the policy

  /** Addresses the mode keeps off the proxy. */
  predicate StaysLocal(mode: Mode, d: Dest) {
    if mode.RulesMode? then !d.PublicNet? else d.Loopback? || d.LinkLocal6?
  }

  /** What the split policy says of a packet, with no rules in sight. */
  function Policy(mode: Mode, final: Bytes, split: Split, apps: seq<Bytes>, p: Packet): Decision {
    var listed := p.app in apps;
    if split.Bypass? && listed then To(DIRECT)
    else if split.Only? && apps != [] then
      if !listed then To(DIRECT) else if p.dns then Hijacked else To(OrProxy(final))
    else if p.dns then Hijacked
    else if StaysLocal(mode, p.dest) then To(DIRECT)
    else To(OrProxy(final))
  }

  lemma FirstMisses(rules: seq<Rule>, r: Rule, final: Bytes, p: Packet, sniffed: bool)
    requires !Matches(r, p, sniffed)
    ensures Decide([r] + rules, final, p, sniffed) == Decide(rules, final, p, sniffed)
  {
    assert ([r] + rules)[1..] == rules;
  }

  lemma FirstEnds(rules: seq<Rule>, r: Rule, final: Bytes, p: Packet, sniffed: bool)
    requires Matches(r, p, sniffed) && !r.action.Sniff?
    ensures Decide([r] + rules, final, p, sniffed) == if r.action.Route? then To(r.action.outbound) else Hijacked
  {
  }

  lemma FirstSniffs(rules: seq<Rule>, r: Rule, final: Bytes, p: Packet, sniffed: bool)
    requires Matches(r, p, sniffed) && r.action.Sniff?
    ensures Decide([r] + rules, final, p, sniffed) == Decide(rules, final, p, true)
  {
    assert ([r] + rules)[1..] == rules;
  }

  lemma AddressRuleDecides(mode: Mode, final: Bytes, p: Packet, sniffed: bool)
    ensures Decide([AddressRule(mode)], final, p, sniffed) == if StaysLocal(mode, p.dest) then To(DIRECT) else To(final)
  {
    assert [AddressRule(mode)] + [] == [AddressRule(mode)];
    hide Decide;
    if StaysLocal(mode, p.dest) {
      FirstEnds([], AddressRule(mode), final, p, sniffed);
    } else {
      FirstMisses([], AddressRule(mode), final, p, sniffed);
      NoRules(final, p, sniffed);
    }
  }

  lemma NoRules(final: Bytes, p: Packet, sniffed: bool)
    ensures Decide([], final, p, sniffed) == To(final)
  {
  }

  lemma HijackDecides(rest: seq<Rule>, final: Bytes, p: Packet)
    ensures Decide(GLOBAL_HIJACK + rest, final, p, false) == if p.dns then Hijacked else Decide(rest, final, p, true)
  {
    var sniff, hijack := GLOBAL_HIJACK[0], GLOBAL_HIJACK[1];
    assert GLOBAL_HIJACK + rest == [sniff] + ([hijack] + rest);
    hide Decide;
    FirstSniffs([hijack] + rest, sniff, final, p, false);
    if p.dns {
      FirstEnds(rest, hijack, final, p, true);
    } else {
      FirstMisses(rest, hijack, final, p, true);
    }
  }

  lemma OnlyDecides(rest: seq<Rule>, final: Bytes, target: Bytes, apps: seq<Bytes>, p: Packet)
    requires apps != []
    ensures Decide(SplitRules(target, Only, apps) + rest, final, p, false)
            == if p.app !in apps then Decide(rest, final, p, true)
               else if p.dns then Hijacked else To(OrProxy(target))
  {
    var rules := SplitRules(target, Only, apps);
    assert rules + rest == [rules[0]] + ([rules[1]] + ([rules[2]] + rest));
    hide Decide;
    FirstSniffs([rules[1]] + ([rules[2]] + rest), rules[0], final, p, false);
    if p.app in apps && p.dns {
      FirstEnds([rules[2]] + rest, rules[1], final, p, true);
    } else {
      FirstMisses([rules[2]] + rest, rules[1], final, p, true);
      if p.app in apps {
        FirstEnds(rest, rules[2], final, p, true);
      } else {
        FirstMisses(rest, rules[2], final, p, true);
      }
    }
  }

  lemma BypassDecides(rest: seq<Rule>, final: Bytes, target: Bytes, apps: seq<Bytes>, p: Packet)
    requires apps != []
    ensures Decide(SplitRules(target, Bypass, apps) + rest, final, p, false)
            == if p.app in apps then To(DIRECT) else Decide(rest, final, p, false)
  {
    var rule := SplitRules(target, Bypass, apps)[0];
    hide Decide;
    if p.app in apps {
      FirstEnds(rest, rule, final, p, false);
    } else {
      FirstMisses(rest, rule, final, p, false);
    }
  }

  /** Evaluated first match, the generated rules decide every packet exactly as the policy says. */
  lemma RulesDecideThePolicy(mode: Mode, final: Bytes, split: Split, apps: seq<Bytes>, p: Packet)
    ensures var s := Routes(mode, final, split, apps);
            Decide(s.rules, s.final, p, false) == Policy(mode, final, split, apps, p)
  {
    var s := Routes(mode, final, split, apps);
    var tail := GLOBAL_HIJACK + [AddressRule(mode)];
    hide Decide;
    HijackDecides([AddressRule(mode)], s.final, p);
    AddressRuleDecides(mode, s.final, p, true);
    if apps != [] && split.Only? {
      assert s.rules == SplitRules(final, Only, apps) + [AddressRule(mode)];
      OnlyDecides([AddressRule(mode)], s.final, final, apps, p);
    } else if apps != [] && split.Bypass? {
      assert s.rules == SplitRules(final, Bypass, apps) + tail;
      BypassDecides(tail, s.final, final, apps, p);
    } else {
      assert s.rules == tail;
    }
  }

  // ---------------------------------------------------------------- what that means for the user

  /** Bypass: a listed app always goes direct, DNS included; nothing else changes for the others. */
  lemma BypassedAppsGoDirect(mode: Mode, final: Bytes, apps: seq<Bytes>, p: Packet)
    ensures var s, off := Routes(mode, final, Bypass, apps), Routes(mode, final, Off, apps);
            Decide(s.rules, s.final, p, false)
            == if p.app in apps then To(DIRECT) else Decide(off.rules, off.final, p, false)
  {
    RulesDecideThePolicy(mode, final, Bypass, apps, p);
    RulesDecideThePolicy(mode, final, Off, apps, p);
    hide Decide, Routes;
  }

  /** Only: an unlisted app goes direct whatever it sends; a listed one is proxied and its DNS hijacked. */
  lemma OnlyListedAppsAreProxied(mode: Mode, final: Bytes, apps: seq<Bytes>, p: Packet)
    requires apps != []
    ensures var s := Routes(mode, final, Only, apps);
            Decide(s.rules, s.final, p, false)
            == if p.app !in apps then To(DIRECT) else if p.dns then Hijacked else To(OrProxy(final))
  {
    RulesDecideThePolicy(mode, final, Only, apps, p);
    hide Decide, Routes;
  }

  /** With no usable app name every split mode is the same as off. */
  lemma NoAppsMeansOff(mode: Mode, final: Bytes, split: Split)
    ensures Routes(mode, final, split, []) == Routes(mode, final, Off, [])
  {
  }

  /**
   * Loopback and link-local traffic is meant never to leave the host. It does leave it for exactly the
   * apps listed in "only" mode, whose route rule comes first; and IPv4 link-local addresses are in none
   * of the blocks that global mode keeps direct.
   */
  lemma WhenHostTrafficStays(mode: Mode, final: Bytes, split: Split, apps: seq<Bytes>, p: Packet)
    requires !p.dns && (p.dest.Loopback? || p.dest.LinkLocal6? || p.dest.LinkLocal4?) && OrProxy(final) != DIRECT
    ensures var s := Routes(mode, final, split, apps);
            Decide(s.rules, s.final, p, false) == To(DIRECT) <==>
              if split.Only? && apps != [] then p.app !in apps
              else (split.Bypass? && p.app in apps) || mode.RulesMode? || !p.dest.LinkLocal4?
  {
    RulesDecideThePolicy(mode, final, split, apps, p);
    hide Decide, Routes;
  }

  // ---------------------------------------------------------------- outbounds

  /** A server record: its id, and whether an outbound can be rendered for it. */
  datatype Server = Server(id: Bytes, renders: bool)

  datatype Kind = Proxy(id: Bytes) | UrlTest | Selector | System

  /** An outbound with the tags it refers to; `chosen` is the selector's default. */
  datatype Outbound = Outbound(kind: Kind, tag: Bytes, members: seq<Bytes>, chosen: Option<Bytes>)

  datatype DnsServer = DnsServer(tag: Bytes, detour: Bytes)
  datatype Dns = Dns(servers: seq<DnsServer>, final: Bytes)

  datatype Configuration = Configuration(outbounds: seq<Outbound>, route: RouteSection, dns: Dns)

  const SYSTEM_OUTBOUNDS: seq<Outbound> := [Outbound(System, DIRECT, [], None), Outbound(System, BLOCK, [], None)]

  function DnsConfig(system: bool): Dns {
    var local := DnsServer("local-dns", DIRECT);
    if system then Dns([local], "local-dns") else Dns([DnsServer("proxy-dns", PROXY_TAG), local], "proxy-dns")
  }

  /** The resolver the route section names. */
  const DEFAULT_RESOLVER: Bytes := "local-dns"

  function Tag(i: nat): Bytes { "proxy-" + Itoa(i) }

  function Proxies(list: seq<Server>): seq<Outbound> {
    seq(|list|, i requires 0 <= i < |list| => Outbound(Proxy(list[i].id), Tag(i), [], None))
  }

  function Tags(n: nat): seq<Bytes> { seq(n, i requires 0 <= i < n => Tag(i)) }

  /** The last server with the given id: the map of tags keeps the latest entry. */
  function LastWith(list: seq<Server>, id: Bytes): Option<nat> {
    if list == [] then None
    else if list[|list| - 1].id == id then Some(|list| - 1)
    else LastWith(list[..|list| - 1], id)
  }

  function Chosen(list: seq<Server>, id: Bytes): Bytes {
    var i := LastWith(list, id);
    if i.None? then AUTO_TAG else Tag(i.value)
  }

  function GroupOutbounds(list: seq<Server>, id: Bytes): seq<Outbound> {
    Proxies(list)
    + [Outbound(UrlTest, AUTO_TAG, Tags(|list|), None),
       Outbound(Selector, PROXY_TAG, [AUTO_TAG] + Tags(|list|), Some(Chosen(list, id)))]
    + SYSTEM_OUTBOUNDS
  }

  predicate AllRender(list: seq<Server>) { forall s :: s in list ==> s.renders }

  datatype Options = Options(mode: Mode, split: Split, names: seq<Bytes>, systemDns: bool)

  function Rendered(outbounds: seq<Outbound>, o: Options): Configuration {
    Configuration(outbounds, Routes(o.mode, PROXY_TAG, o.split, Clean(o.names)), DnsConfig(o.systemDns))
  }

  /** renderConfig: one target is its own "proxy"; more, or none, go through the group. */
  function Render(targets: seq<Server>, id: Bytes, o: Options): Option<Configuration> {
    if targets == [] || !AllRender(targets) then None
    else if |targets| == 1 then
      Some(Rendered(Single(targets[0]), o))
    else Some(Rendered(GroupOutbounds(targets, id), o))
  }

  /** GenerateGroup as its loop over the servers. */
  method GenerateGroup(list: seq<Server>, id: Bytes, o: Options) returns (c: Option<Configuration>)
    ensures c == if list == [] || !AllRender(list) then None else Some(Rendered(GroupOutbounds(list, id), o))
  {
    hide Tag, Clean, Routes, LastWith;
    if |list| == 0 {
      return None;
    }
    var outbounds: seq<Outbound> := [];
    var tags: seq<Bytes> := [];
    var tagOf: map<Bytes, Bytes> := map[];
    KnowsNothing();
    assert list[..0] == [];
    for i := 0 to |list|
      invariant outbounds == Proxies(list[..i]) && tags == Tags(i)
      invariant AllRender(list[..i])
      invariant KnowsTags(list[..i], tagOf)
    {
      var tag := Tag(i);
      if !list[i].renders {
        return None;
      }
      GroupStep(list, i);
      KnowsOneMore(list[..i], list[i], tagOf);
      outbounds := outbounds + [Outbound(Proxy(list[i].id), tag, [], None)];
      tags := tags + [tag];
      tagOf := tagOf[list[i].id := tag];
    }
    assert list[..|list|] == list;
    var urltest := Outbound(UrlTest, AUTO_TAG, tags, None);
    var chosen := if id in tagOf then tagOf[id] else AUTO_TAG;
    var selector := Outbound(Selector, PROXY_TAG, [AUTO_TAG] + tags, Some(chosen));
    outbounds := outbounds + [urltest, selector];
    outbounds := outbounds + SYSTEM_OUTBOUNDS;
    var section := RouteConfig(o.mode, PROXY_TAG, o.split, o.names);
    return Some(Configuration(outbounds, section, DnsConfig(o.systemDns)));
  }

  lemma GroupStep(list: seq<Server>, i: nat)
    requires i < |list|
    ensures Proxies(list[..i + 1]) == Proxies(list[..i]) + [Outbound(Proxy(list[i].id), Tag(i), [], None)]
    ensures Tags(i + 1) == Tags(i) + [Tag(i)]
    ensures list[..i + 1] == list[..i] + [list[i]]
    ensures AllRender(list[..i]) && list[i].renders ==> AllRender(list[..i + 1])
  {
    hide Tag;
    assert list[..i + 1][..i] == list[..i];
    assert list[..i + 1] == list[..i] + [list[i]];
    var a, b := Proxies(list[..i + 1]), Proxies(list[..i]) + [Outbound(Proxy(list[i].id), Tag(i), [], None)];
    assert |a| == |b| && forall k :: 0 <= k < |a| ==> a[k] == b[k];
  }

  /** The map of tags, after some of the servers. */
  ghost predicate KnowsTags(list: seq<Server>, tagOf: map<Bytes, Bytes>) {
    forall id: Bytes :: if LastWith(list, id).Some? then id in tagOf && tagOf[id] == Chosen(list, id) else id !in tagOf
  }

  lemma KnowsNothing()
    ensures KnowsTags([], map[])
  {
  }

  lemma KnowsOneMore(list: seq<Server>, server: Server, tagOf: map<Bytes, Bytes>)
    requires KnowsTags(list, tagOf)
    ensures KnowsTags(list + [server], tagOf[server.id := Tag(|list|)])
  {
    hide Tag;
    var more := list + [server];
    assert more[..|more| - 1] == list;
    forall id: Bytes
      ensures LastWith(more, id) == if server.id == id then Some(|list|) else LastWith(list, id)
    {
      LastWithStep(more, id);
    }
  }

  lemma LastWithStep(list: seq<Server>, id: Bytes)
    requires list != []
    ensures LastWith(list, id)
            == if list[|list| - 1].id == id then Some(|list| - 1) else LastWith(list[..|list| - 1], id)
  {
  }

  // ---------------------------------------------------------------- tags

  ghost predicate Distinct(tags: seq<Outbound>) { forall i, j :: 0 <= i < j < |tags| ==> tags[i].tag != tags[j].tag }

  predicate HasTag(outbounds: seq<Outbound>, tag: Bytes) { exists i :: 0 <= i < |outbounds| && outbounds[i].tag == tag }

  predicate HasDns(dns: Dns, tag: Bytes) { exists i :: 0 <= i < |dns.servers| && dns.servers[i].tag == tag }

  /** Every tag an outbound, a rule, the final route or the DNS section refers to is defined. */
  ghost predicate IsClosed(c: Configuration) {
    && (forall i, m :: 0 <= i < |c.outbounds| && m in c.outbounds[i].members ==> HasTag(c.outbounds, m))
    && (forall i :: 0 <= i < |c.outbounds| && c.outbounds[i].chosen.Some? ==>
          HasTag(c.outbounds, c.outbounds[i].chosen.value))
    && (forall r :: r in c.route.rules && r.action.Route? ==> HasTag(c.outbounds, r.action.outbound))
    && HasTag(c.outbounds, c.route.final)
    && (forall i :: 0 <= i < |c.dns.servers| ==> HasTag(c.outbounds, c.dns.servers[i].detour))
    && HasDns(c.dns, c.dns.final) && HasDns(c.dns, DEFAULT_RESOLVER)
  }

  /** A positional tag is no other positional tag and none of the fixed ones. */
  lemma TagIsItsOwn(i: nat, j: nat)
    ensures Tag(i) == Tag(j) ==> i == j
    ensures Tag(i) != PROXY_TAG && Tag(i) != AUTO_TAG && Tag(i) != DIRECT && Tag(i) != BLOCK
  {
    assert Tag(i)[6..] == Itoa(i) && Tag(j)[6..] == Itoa(j);
    if Tag(i) == Tag(j) {
      ItoaInjective(i, j);
    }
    assert Itoa(i)[0] in Itoa(i) && Tag(i)[6] == Itoa(i)[0];
    assert !IsDigit(AUTO_TAG[6]);
    assert Tag(i)[0] == 'p' && |Tag(i)| > |PROXY_TAG|;
  }

  /** Outbounds after the proxies. */
  lemma FixedOutbounds(list: seq<Server>, id: Bytes)
    ensures var os := GroupOutbounds(list, id);
            && |os| == |list| + 4
            && (forall i :: 0 <= i < |list| ==> os[i] == Outbound(Proxy(list[i].id), Tag(i), [], None))
            && os[|list|] == Outbound(UrlTest, AUTO_TAG, Tags(|list|), None)
            && os[|list| + 1] == Outbound(Selector, PROXY_TAG, [AUTO_TAG] + Tags(|list|), Some(Chosen(list, id)))
            && os[|list| + 2] == SYSTEM_OUTBOUNDS[0] && os[|list| + 3] == SYSTEM_OUTBOUNDS[1]
  {
    hide Tag, Tags, Chosen;
  }

  /** In a group no two outbounds share a tag, whatever the number of servers. */
  lemma GroupTagsAreDistinct(list: seq<Server>, id: Bytes)
    ensures Distinct(GroupOutbounds(list, id))
  {
    FixedOutbounds(list, id);
    hide GroupOutbounds, Tag, Tags, Chosen;
    var os := GroupOutbounds(list, id);
    forall i, j | 0 <= i < j < |os| ensures os[i].tag != os[j].tag {
      if i < |list| {
        TagIsItsOwn(i, j);
      }
    }
  }

  lemma {:induction false} LastWithIsThere(list: seq<Server>, id: Bytes)
    ensures var i := LastWith(list, id);
            if i.Some? then i.value < |list| && list[i.value].id == id else forall s :: s in list ==> s.id != id
  {
    if list != [] && list[|list| - 1].id != id {
      LastWithIsThere(list[..|list| - 1], id);
      assert list == list[..|list| - 1] + [list[|list| - 1]];
    }
  }

  lemma MembersAreDefined(list: seq<Server>, id: Bytes, m: Bytes)
    requires m in Tags(|list|) || m == AUTO_TAG || m == PROXY_TAG || m == DIRECT || m == Chosen(list, id)
    ensures HasTag(GroupOutbounds(list, id), m)
  {
    FixedOutbounds(list, id);
    LastWithIsThere(list, id);
    var os := GroupOutbounds(list, id);
    hide GroupOutbounds, Tag, LastWith;
    if m == AUTO_TAG {
      assert os[|list|].tag == m;
    } else if m == PROXY_TAG {
      assert os[|list| + 1].tag == m;
    } else if m == DIRECT {
      assert os[|list| + 2].tag == m;
    } else if m in Tags(|list|) {
      var i :| 0 <= i < |list| && Tags(|list|)[i] == m;
      assert os[i].tag == m;
    } else {
      var i := LastWith(list, id).value;
      assert os[i].tag == m;
    }
  }

  /** Routing refers to the proxy and to "direct" only. */
  lemma RouteRefersTo(mode: Mode, split: Split, apps: seq<Bytes>, r: Rule)
    requires r in Routes(mode, PROXY_TAG, split, apps).rules && r.action.Route?
    ensures r.action.outbound == PROXY_TAG || r.action.outbound == DIRECT
  {
  }

  lemma ConfigurationIsClosed(c: Configuration, o: Options)
    requires c == Rendered(c.outbounds, o) && HasTag(c.outbounds, PROXY_TAG) && HasTag(c.outbounds, DIRECT)
    requires MembersClosed(c.outbounds)
    ensures IsClosed(c)
  {
    hide Clean, HasTag;
    assert c.dns.servers[|c.dns.servers| - 1].tag == "local-dns" && c.dns.servers[0].tag == c.dns.final;
    forall r | r in c.route.rules && r.action.Route? ensures HasTag(c.outbounds, r.action.outbound) {
      RouteRefersTo(o.mode, o.split, Clean(o.names), r);
    }
    assert c.route.final == PROXY_TAG || c.route.final == DIRECT;
  }

  ghost predicate MembersClosed(os: seq<Outbound>) {
    && (forall i, m :: 0 <= i < |os| && m in os[i].members ==> HasTag(os, m))
    && (forall i :: 0 <= i < |os| && os[i].chosen.Some? ==> HasTag(os, os[i].chosen.value))
  }

  lemma GroupMembersClosed(list: seq<Server>, id: Bytes)
    ensures MembersClosed(GroupOutbounds(list, id))
  {
    var os := GroupOutbounds(list, id);
    MembersAreDefined(list, id, AUTO_TAG);
    MembersAreDefined(list, id, Chosen(list, id));
    forall m | m in Tags(|list|) ensures HasTag(os, m) {
      MembersAreDefined(list, id, m);
    }
    FixedOutbounds(list, id);
    hide HasTag, Chosen, Tags, GroupOutbounds;
  }

  lemma GroupIsClosed(list: seq<Server>, id: Bytes, o: Options)
    ensures IsClosed(Rendered(GroupOutbounds(list, id), o))
  {
    GroupMembersClosed(list, id);
    MembersAreDefined(list, id, PROXY_TAG);
    MembersAreDefined(list, id, DIRECT);
    hide Routes, Clean, HasTag, GroupOutbounds, IsClosed;
    ConfigurationIsClosed(Rendered(GroupOutbounds(list, id), o), o);
  }

  function Single(server: Server): seq<Outbound> {
    [Outbound(Proxy(server.id), PROXY_TAG, [], None), SYSTEM_OUTBOUNDS[0], SYSTEM_OUTBOUNDS[1]]
  }

  lemma SingleTags(server: Server)
    ensures HasTag(Single(server), PROXY_TAG) && HasTag(Single(server), DIRECT)
    ensures MembersClosed(Single(server)) && Distinct(Single(server))
  {
    var os := Single(server);
    assert os[0].tag == PROXY_TAG && os[1].tag == DIRECT && os[2].tag == BLOCK;
    assert |PROXY_TAG| == 5 && |DIRECT| == 6 && |BLOCK| == 5 && PROXY_TAG[0] != BLOCK[0];
    hide HasTag;
  }

  lemma SingleIsClosed(server: Server, o: Options)
    ensures IsClosed(Rendered(Single(server), o)) && Distinct(Single(server))
  {
    SingleTags(server);
    hide Routes, Clean, IsClosed, HasTag, MembersClosed, Distinct, Single;
    ConfigurationIsClosed(Rendered(Single(server), o), o);
  }

  /** The outbound that queries to the DNS server with this tag leave by. */
  predicate AsksBy(dns: Dns, tag: Bytes, outbound: Bytes) {
    && (exists i :: 0 <= i < |dns.servers| && dns.servers[i] == DnsServer(tag, outbound))
    && forall i :: 0 <= i < |dns.servers| && dns.servers[i].tag == tag ==> dns.servers[i].detour == outbound
  }

  /**
   * Names are looked up through the proxy, unless the system's resolver is asked for; the resolver that finds the
   * proxy itself is always asked directly.
   */
  lemma DnsGoesByTheProxy(targets: seq<Server>, id: Bytes, o: Options)
    requires Render(targets, id, o).Some?
    ensures var dns := Render(targets, id, o).value.dns;
            && AsksBy(dns, dns.final, if o.systemDns then "direct" else "proxy")
            && AsksBy(dns, DEFAULT_RESOLVER, "direct")
  {
    hide Routes, Clean, GroupOutbounds, Single;
    var dns := Render(targets, id, o).value.dns;
    if o.systemDns {
      assert dns.servers[0] == DnsServer("local-dns", "direct");
    } else {
      assert dns.servers[0] == DnsServer("proxy-dns", "proxy") && dns.servers[1] == DnsServer("local-dns", "direct");
    }
  }

  /** A configuration is rendered exactly when there is a target and all of them render; every target is a choice in it. */
  lemma RenderedExactly(targets: seq<Server>, id: Bytes, o: Options)
    ensures Render(targets, id, o).Some? <==> targets != [] && forall s :: s in targets ==> s.renders
    ensures Render(targets, id, o).Some? && |targets| >= 2 ==>
              var os := Render(targets, id, o).value.outbounds;
              && (forall i :: 0 <= i < |targets| ==> os[i] == Outbound(Proxy(targets[i].id), Tag(i), [], None))
              && os[|targets|].kind == UrlTest && os[|targets|].tag == "proxy-auto"
              && os[|targets|].members == Tags(|targets|)
              && os[|targets| + 1].kind == Selector && os[|targets| + 1].tag == "proxy"
              && os[|targets| + 1].members == ["proxy-auto"] + Tags(|targets|)
  {
    FixedOutbounds(targets, id);
    hide Routes, Clean, GroupOutbounds, Single, Tag, Tags;
  }

  /** Every configuration that is rendered refers only to tags it defines, and defines none twice. */
  lemma RenderedIsClosed(targets: seq<Server>, id: Bytes, o: Options)
    requires Render(targets, id, o).Some?
    ensures IsClosed(Render(targets, id, o).value) && Distinct(Render(targets, id, o).value.outbounds)
  {
    hide Routes, Clean, GroupOutbounds, IsClosed, Distinct, Single;
    if |targets| == 1 {
      SingleIsClosed(targets[0], o);
    } else {
      GroupTagsAreDistinct(targets, id);
      GroupIsClosed(targets, id, o);
    }
  }

  // ---------------------------------------------------------------- switching inside a running group

  /** groupTagFor: the tag of the first rendered target with the wanted id. */
  method GroupTagFor(targets: seq<Server>, id: Bytes) returns (tag: Bytes)
    ensures if exists s :: s in targets && s.id == id
            then exists i :: 0 <= i < |targets| && targets[i].id == id && tag == Tag(i)
                             && forall j :: 0 <= j < i ==> targets[j].id != id
            else tag == AUTO_TAG
  {
    hide Tag;
    for i := 0 to |targets|
      invariant forall j :: 0 <= j < i ==> targets[j].id != id
    {
      if targets[i].id == id {
        return Tag(i);
      }
    }
    return AUTO_TAG;
  }

  ghost predicate DistinctIds(list: seq<Server>) { forall i, j :: 0 <= i < j < |list| ==> list[i].id != list[j].id }

  /** With two or more targets of distinct ids, a positional tag names the outbound of the very server asked for. */
  lemma GroupTagNamesTheServer(targets: seq<Server>, id: Bytes, o: Options, i: nat, k: nat)
    requires |targets| >= 2 && DistinctIds(targets) && i < |targets| && Render(targets, id, o).Some?
    requires k < |Render(targets, id, o).value.outbounds|
    ensures var out := Render(targets, id, o).value.outbounds[k];
            out.tag == Tag(i) <==> out.kind == Proxy(targets[i].id)
  {
    hide Tag, GroupOutbounds, Routes, Clean;
    TagNamesTheProxy(targets, id, i, k);
  }

  lemma TagNamesTheProxy(list: seq<Server>, id: Bytes, i: nat, k: nat)
    requires DistinctIds(list) && i < |list| && k < |GroupOutbounds(list, id)|
    ensures GroupOutbounds(list, id)[k].tag == Tag(i) <==> GroupOutbounds(list, id)[k].kind == Proxy(list[i].id)
  {
    FixedOutbounds(list, id);
    TagIsItsOwn(i, k);
    hide Tag, Tags, Chosen, GroupOutbounds;
  }

  /** The selector's default is the outbound of the active server, or the automatic group when it is no target. */
  lemma DefaultIsTheActiveServer(list: seq<Server>, id: Bytes, i: nat)
    requires DistinctIds(list) && i < |list|
    ensures list[i].id == id ==> Chosen(list, id) == Tag(i)
    ensures Chosen(list, id) == AUTO_TAG <==> forall s :: s in list ==> s.id != id
  {
    LastWithIsThere(list, id);
    var last := LastWith(list, id);
    TagIsItsOwn(if last.Some? then last.value else 0, 0);
    hide Tag, LastWith;
  }

  lemma PositionalTagIsDefined(targets: seq<Server>, id: Bytes, i: nat)
    requires i < |targets|
    ensures HasTag(GroupOutbounds(targets, id), Tag(i))
  {
    FixedOutbounds(targets, id);
    hide Tag, GroupOutbounds, Chosen;
    assert GroupOutbounds(targets, id)[i].tag == Tag(i);
  }

  lemma PositionalTagIsNotSingle(server: Server, i: nat)
    ensures !HasTag(Single(server), Tag(i))
  {
    TagIsItsOwn(i, i);
    hide Tag;
    assert Single(server)[0].tag == PROXY_TAG && Single(server)[1].tag == DIRECT && Single(server)[2].tag == BLOCK;
  }

  /** With a single target there is no positional tag: the tag asked for is defined exactly when the group has two. */
  lemma PositionalTagsNeedAGroup(targets: seq<Server>, id: Bytes, o: Options, i: nat)
    requires i < |targets| && Render(targets, id, o).Some?
    ensures HasTag(Render(targets, id, o).value.outbounds, Tag(i)) <==> |targets| >= 2
  {
    PositionalTagIsDefined(targets, id, i);
    PositionalTagIsNotSingle(targets[0], i);
    hide Tag, Routes, Clean, GroupOutbounds, Single, HasTag;
  }
}
