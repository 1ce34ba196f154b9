/** The pf rules of the macOS firewall: their text, and what they let through. */
module PfRules {
  import opened Wrappers
  import opened Text
  import StringOrder

  const LOOPBACK := "lo0"
  const DNS_PORT := "53"

  /** The lines that are written into an anchor. */
  datatype Rule =
    | Comment(text: string)
    | PassOn(iface: string)
    | PassUdp(ip: string, port: Option<string>)
    | PassUdpPorts(from: string, to: string)
    | PassDns(iface: string, server: string)
    | BlockDns
    | DnsAnchor
    | BlockOut
    | BlockIn

  /** The words of the line that is written for a rule. */
  function Words(r: Rule): seq<string> {
    match r
    case Comment(text) => ["#", text]
    case PassOn(iface) => ["pass", "quick", "on", iface, "all"]
    case PassUdp(ip, None) => ["pass", "out", "quick", "proto", "udp", "to", ip]
    case PassUdp(ip, Some(port)) => ["pass", "out", "quick", "proto", "udp", "to", ip, "port", port]
    case PassUdpPorts(from, to) =>
      ["pass", "out", "quick", "proto", "udp", "from", "any", "port", from, "to", "any", "port", to]
    case PassDns(iface, server) =>
      ["pass", "out", "quick", "on", iface, "proto", "{tcp,", "udp}", "to", server, "port", "53"]
    case BlockDns => ["block", "drop", "out", "quick", "proto", "{tcp,", "udp}", "to", "any", "port", "53"]
    case DnsAnchor => ["anchor", "\"dns\""]
    case BlockOut => ["block", "drop", "out", "all"]
    case BlockIn => ["block", "drop", "in", "all"]
  }

  function Render(r: Rule): string { Join(Words(r), " ") }

  /** What is loaded into an anchor: a line for each rule. */
  function LinesOf(rules: seq<Rule>): seq<string> {
    seq(|rules|, i requires 0 <= i < |rules| => Render(rules[i]))
  }

  // ---------------------------------------------------------------------
  // The rules of a state
  // ---------------------------------------------------------------------

  /** What net.SplitHostPort and net.ParseIP make of a text. */
  datatype Net = Net(split: string -> (string, string), isIP: string -> bool)

  /** ^[a-z]+[0-9]+$ */
  predicate IsIfaceName(s: string) {
    exists n :: 0 < n < |s| && (forall i :: 0 <= i < n ==> 'a' <= s[i] <= 'z') && AllDigits(s[n..])
  }

  type Tunnels = map<string, seq<string>>

  function Host(net: Net, endpoint: string): string {
    var ip := net.split(endpoint).0;
    if ip == "" then endpoint else ip
  }

  function EndpointRule(net: Net, endpoint: string): Rule {
    var port := net.split(endpoint).1;
    PassUdp(Host(net, endpoint), if port != "" then Some(port) else None)
  }

  /** The endpoints in the order in which they are first met. */
  function FirstMet(endpoints: seq<string>): seq<string> {
    if endpoints == [] then []
    else
      var before, last := FirstMet(endpoints[..|endpoints| - 1]), endpoints[|endpoints| - 1];
      if last in before then before else before + [last]
  }

  function EndpointRules(net: Net, endpoints: seq<string>): seq<Rule> {
    if endpoints == [] then []
    else
      var last := endpoints[|endpoints| - 1];
      EndpointRules(net, endpoints[..|endpoints| - 1]) + if Host(net, last) != "" then [EndpointRule(net, last)] else []
  }

  function AllEndpoints(tunnels: Tunnels, ifaces: seq<string>): seq<string>
    requires forall i :: 0 <= i < |ifaces| ==> ifaces[i] in tunnels
  {
    if ifaces == [] then []
    else AllEndpoints(tunnels, ifaces[..|ifaces| - 1]) + tunnels[ifaces[|ifaces| - 1]]
  }

  function IfaceRules(ifaces: seq<string>): seq<Rule> {
    seq(|ifaces|, i requires 0 <= i < |ifaces| => PassOn(ifaces[i]))
  }

  const BASE_START := [Comment("WireGuide kill switch rules"), Comment("Allow loopback"), PassOn(LOOPBACK)]
  const DHCP := [PassUdpPorts("68", "67"), PassUdpPorts("546", "547")]
  const BASE_END := [DnsAnchor, BlockOut, BlockIn]

  predicate EndpointsValid(net: Net, endpoints: seq<string>) {
    forall i :: 0 <= i < |endpoints| && Host(net, endpoints[i]) != "" ==> net.isIP(Host(net, endpoints[i]))
  }

  predicate TunnelsValid(net: Net, tunnels: Tunnels) {
    forall n :: n in tunnels ==> IsIfaceName(n) && EndpointsValid(net, tunnels[n])
  }

  ghost function Ifaces(tunnels: Tunnels): (r: seq<string>)
    ensures forall i :: 0 <= i < |r| ==> r[i] in tunnels
  {
    var r := StringOrder.Ascending(tunnels.Keys);
    assert forall i :: 0 <= i < |r| ==> r[i] in r;
    r
  }

  ghost function KillSwitchRules(net: Net, tunnels: Tunnels): seq<Rule> {
    BASE_START + EndpointRules(net, FirstMet(AllEndpoints(tunnels, Ifaces(tunnels)))) + DHCP + IfaceRules(Ifaces(tunnels)) + BASE_END
  }

  function DnsRules(iface: string, servers: seq<string>): seq<Rule> {
    seq(|servers|, i requires 0 <= i < |servers| => PassDns(iface, servers[i])) + [BlockDns]
  }

  // ---------------------------------------------------------------------
  // Writing the rules, line by line
  // ---------------------------------------------------------------------

  method SortedIfaces(tunnels: Tunnels) returns (ok: bool, ifaces: seq<string>)
    ensures ok <==> forall n :: n in tunnels ==> IsIfaceName(n)
    ensures ok ==> ifaces == Ifaces(tunnels)
  {
    var rest, found := tunnels.Keys, [];
    while rest != {}
      invariant rest <= tunnels.Keys
      invariant forall i, j :: 0 <= i < j < |found| ==> found[i] != found[j]
      invariant forall n :: n in found <==> n in tunnels && n !in rest
      invariant forall n :: n in found ==> IsIfaceName(n)
    {
      var n :| n in rest;
      if !IsIfaceName(n) {
        return false, [];
      }
      found := found + [n];
      rest := rest - {n};
    }
    ok := true;
    ifaces := StringOrder.SortStrings(found);
    StringOrder.SortIsAscending(found);
    StringOrder.SortKeepsMembers(found);
    StringOrder.ListingIsAscending(ifaces, tunnels.Keys);
  }

  /** The builder after one more line. */
  method WriteRule(b: seq<string>, r: Rule, ghost rules: seq<Rule>) returns (b': seq<string>)
    requires b == LinesOf(rules)
    ensures b' == LinesOf(rules + [r])
  {
    b' := b + [Render(r)];
  }

  /** One endpoint that was not seen. */
  method WriteEndpoint(net: Net, b: seq<string>, ep: string, ghost rules: seq<Rule>) returns (ok: bool, b': seq<string>)
    requires b == LinesOf(rules)
    ensures ok <==> (Host(net, ep) != "" ==> net.isIP(Host(net, ep)))
    ensures ok ==> b' == LinesOf(rules + if Host(net, ep) != "" then [EndpointRule(net, ep)] else [])
  {
    ok, b' := true, b;
    assert rules + [] == rules;
    var (ip, port) := net.split(ep);
    if ip == "" {
      ip := ep;
    }
    if ip == "" {
      return;
    }
    if !net.isIP(ip) {
      return false, [];
    }
    if port != "" {
      b' := WriteRule(b, PassUdp(ip, Some(port)), rules);
    } else {
      b' := WriteRule(b, PassUdp(ip, None), rules);
    }
  }

  /** The endpoint loop of one tunnel. */
  method WriteEndpoints(net: Net, b: seq<string>, eps: seq<string>, seen: set<string>, ghost base: seq<Rule>, ghost met: seq<string>)
    returns (ok: bool, b': seq<string>, seen': set<string>)
    requires b == LinesOf(base + EndpointRules(net, FirstMet(met))) && forall e :: e in seen <==> e in met
    requires EndpointsValid(net, met)
    ensures ok <==> EndpointsValid(net, met + eps)
    ensures ok ==> b' == LinesOf(base + EndpointRules(net, FirstMet(met + eps))) && forall e :: e in seen' <==> e in met + eps
  {
    b', seen' := b, seen;
    ghost var now := met;
    assert met + eps[..0] == met;
    for n := 0 to |eps|
      invariant now == met + eps[..n] && b' == LinesOf(base + EndpointRules(net, FirstMet(now)))
      invariant EndpointsValid(net, now) && forall e :: e in seen' <==> e in now
    {
      var ep := eps[n];
      OneMore(met, eps, n);
      EndpointMore(net, base, now, ep);
      if ep in now || (Host(net, ep) != "" ==> net.isIP(Host(net, ep))) {
        ValidMore(net, now, ep);
      }
      if ep !in seen' {
        seen' := seen' + {ep};
        ok, b' := WriteEndpoint(net, b', ep, base + EndpointRules(net, FirstMet(now)));
        if !ok {
          InvalidInside(net, met, eps, n);
          return false, [], {};
        }
      }
      now := now + [ep];
    }
    assert eps[..|eps|] == eps;
    ok := true;
  }

  lemma OneMore(met: seq<string>, eps: seq<string>, n: nat)
    requires n < |eps|
    ensures met + eps[..n + 1] == met + eps[..n] + [eps[n]]
    ensures met + eps[..0] == met
  {
  }

  lemma InvalidInside(net: Net, met: seq<string>, eps: seq<string>, n: nat)
    requires n < |eps| && Host(net, eps[n]) != "" && !net.isIP(Host(net, eps[n]))
    ensures !EndpointsValid(net, met + eps)
  {
    assert (met + eps)[|met| + n] == eps[n];
  }

  lemma EndpointMore(net: Net, base: seq<Rule>, met: seq<string>, ep: string)
    ensures var written := base + EndpointRules(net, FirstMet(met));
            base + EndpointRules(net, FirstMet(met + [ep])) ==
            if ep in met then written
            else written + (if Host(net, ep) != "" then [EndpointRule(net, ep)] else [])
  {
    assert (met + [ep])[..|met|] == met;
    MetFirst(met);
    EndpointRulesMore(net, FirstMet(met), ep);
  }

  lemma ValidMore(net: Net, met: seq<string>, ep: string)
    requires EndpointsValid(net, met) && (ep in met || (Host(net, ep) != "" ==> net.isIP(Host(net, ep))))
    ensures EndpointsValid(net, met + [ep])
  {
    if ep in met {
      var i :| 0 <= i < |met| && met[i] == ep;
    }
  }

  lemma {:induction false} MetFirst(endpoints: seq<string>)
    ensures forall e :: e in FirstMet(endpoints) <==> e in endpoints
    decreases |endpoints|
  {
    if endpoints != [] {
      MetFirst(endpoints[..|endpoints| - 1]);
      InitAndLast(endpoints);
    }
  }

  lemma EndpointRulesMore(net: Net, endpoints: seq<string>, ep: string)
    ensures EndpointRules(net, endpoints + [ep]) ==
            EndpointRules(net, endpoints) + if Host(net, ep) != "" then [EndpointRule(net, ep)] else []
  {
    assert (endpoints + [ep])[..|endpoints|] == endpoints;
  }

  method WriteIfaces(b: seq<string>, ifaces: seq<string>, ghost rules: seq<Rule>) returns (b': seq<string>)
    requires b == LinesOf(rules)
    ensures b' == LinesOf(rules + IfaceRules(ifaces))
  {
    b' := b;
    assert rules + [] == rules;
    for n := 0 to |ifaces|
      invariant b' == LinesOf(rules + IfaceRules(ifaces)[..n])
    {
      IfaceMore(rules, ifaces, n);
      b' := WriteRule(b', PassOn(ifaces[n]), rules + IfaceRules(ifaces)[..n]);
    }
    assert IfaceRules(ifaces)[..|ifaces|] == IfaceRules(ifaces);
  }

  lemma IfaceMore(rules: seq<Rule>, ifaces: seq<string>, n: nat)
    requires n < |ifaces|
    ensures rules + IfaceRules(ifaces)[..n + 1] == rules + IfaceRules(ifaces)[..n] + [PassOn(ifaces[n])]
  {
  }

  lemma EndpointsOf(tunnels: Tunnels, ifaces: seq<string>, n: nat)
    requires n < |ifaces| && forall i :: 0 <= i < |ifaces| ==> ifaces[i] in tunnels
    ensures AllEndpoints(tunnels, ifaces[..n + 1]) == AllEndpoints(tunnels, ifaces[..n]) + tunnels[ifaces[n]]
  {
    assert ifaces[..n + 1][..n] == ifaces[..n];
  }

  lemma {:induction false} ValidEndpoints(net: Net, tunnels: Tunnels, ifaces: seq<string>)
    requires forall i :: 0 <= i < |ifaces| ==> ifaces[i] in tunnels
    ensures EndpointsValid(net, AllEndpoints(tunnels, ifaces)) <==>
            forall i :: 0 <= i < |ifaces| ==> EndpointsValid(net, tunnels[ifaces[i]])
    decreases |ifaces|
  {
    if ifaces != [] {
      var before, last := ifaces[..|ifaces| - 1], ifaces[|ifaces| - 1];
      ValidEndpoints(net, tunnels, before);
      ValidAppend(net, AllEndpoints(tunnels, before), tunnels[last]);
    }
  }

  lemma ValidAppend(net: Net, a: seq<string>, b: seq<string>)
    ensures EndpointsValid(net, a + b) <==> EndpointsValid(net, a) && EndpointsValid(net, b)
  {
    if EndpointsValid(net, a + b) {
      assert forall i :: 0 <= i < |a| ==> a[i] == (a + b)[i];
      assert forall i :: 0 <= i < |b| ==> b[i] == (a + b)[|a| + i];
    }
  }

  /** The endpoints of all the tunnels, in the order of their interfaces. */
  method WriteAllEndpoints(net: Net, b: seq<string>, tunnels: Tunnels, ifaces: seq<string>, ghost rules: seq<Rule>)
    returns (ok: bool, b': seq<string>)
    requires b == LinesOf(rules) && forall i :: 0 <= i < |ifaces| ==> ifaces[i] in tunnels
    ensures ok <==> EndpointsValid(net, AllEndpoints(tunnels, ifaces))
    ensures ok ==> b' == LinesOf(rules + EndpointRules(net, FirstMet(AllEndpoints(tunnels, ifaces))))
  {
    b' := b;
    var seen := {};
    assert rules + [] == rules && ifaces[..|ifaces|] == ifaces;
    for n := 0 to |ifaces|
      invariant forall e :: e in seen <==> e in AllEndpoints(tunnels, ifaces[..n])
      invariant EndpointsValid(net, AllEndpoints(tunnels, ifaces[..n]))
      invariant b' == LinesOf(rules + EndpointRules(net, FirstMet(AllEndpoints(tunnels, ifaces[..n]))))
    {
      EndpointsOf(tunnels, ifaces, n);
      ok, b', seen := WriteEndpoints(net, b', tunnels[ifaces[n]], seen, rules, AllEndpoints(tunnels, ifaces[..n]));
      if !ok {
        ValidEndpoints(net, tunnels, ifaces);
        ValidAppend(net, AllEndpoints(tunnels, ifaces[..n]), tunnels[ifaces[n]]);
        return false, [];
      }
    }
    ok := true;
  }

  /** Some lines that are always the same. */
  method WriteAll(b: seq<string>, rs: seq<Rule>, ghost rules: seq<Rule>) returns (b': seq<string>)
    requires b == LinesOf(rules)
    ensures b' == LinesOf(rules + rs)
  {
    b' := b;
    assert rules + rs[..0] == rules;
    for n := 0 to |rs|
      invariant b' == LinesOf(rules + rs[..n])
    {
      assert rules + rs[..n + 1] == rules + rs[..n] + [rs[n]];
      b' := WriteRule(b', rs[n], rules + rs[..n]);
    }
    assert rs[..|rs|] == rs;
  }

  method BuildKillSwitchRules(net: Net, tunnels: Tunnels) returns (r: Option<seq<string>>)
    ensures r.Some? <==> TunnelsValid(net, tunnels)
    ensures r.Some? ==> r.value == LinesOf(KillSwitchRules(net, tunnels))
  {
    var ok, ifaces := SortedIfaces(tunnels);
    if !ok {
      return None;
    }
    var b := WriteAll([], BASE_START, []);
    assert [] + BASE_START == BASE_START;
    ok, b := WriteAllEndpoints(net, b, tunnels, ifaces, BASE_START);
    ValidEndpoints(net, tunnels, ifaces);
    IfacesList(tunnels);
    if !ok {
      return None;
    }
    ghost var rules := BASE_START + EndpointRules(net, FirstMet(AllEndpoints(tunnels, ifaces)));
    b := WriteAll(b, DHCP, rules);
    b := WriteIfaces(b, ifaces, rules + DHCP);
    b := WriteAll(b, BASE_END, rules + DHCP + IfaceRules(ifaces));
    r := Some(b);
  }

  lemma IfacesList(tunnels: Tunnels)
    ensures forall n :: n in Ifaces(tunnels) <==> n in tunnels
  {
  }

  method BuildDnsRules(net: Net, iface: string, servers: seq<string>) returns (r: Option<seq<string>>)
    ensures r.Some? <==> forall i :: 0 <= i < |servers| ==> net.isIP(servers[i])
    ensures r.Some? ==> r.value == LinesOf(DnsRules(iface, servers))
  {
    var b := [];
    ghost var rules := DnsRules(iface, servers);
    for n := 0 to |servers|
      invariant b == LinesOf(rules[..n]) && forall i :: 0 <= i < n ==> net.isIP(servers[i])
    {
      if !net.isIP(servers[n]) {
        return None;
      }
      assert rules[..n + 1] == rules[..n] + [PassDns(iface, servers[n])];
      b := WriteRule(b, PassDns(iface, servers[n]), rules[..n]);
    }
    assert rules == rules[..|servers|] + [BlockDns];
    b := WriteRule(b, BlockDns, rules[..|servers|]);
    r := Some(b);
  }

  // ---------------------------------------------------------------------
  // What the rules let through
  // ---------------------------------------------------------------------

  /** A packet, as pf sees it; addresses and ports in the texts of the rules. */
  datatype Packet = Packet(out: bool, iface: string, udp: bool, tcp: bool, dst: string, srcPort: string, dstPort: string)

  predicate Matches(r: Rule, p: Packet) {
    match r
    case Comment(_) => false
    case PassOn(iface) => p.iface == iface
    case PassUdp(ip, None) => p.out && p.udp && p.dst == ip
    case PassUdp(ip, Some(port)) => p.out && p.udp && p.dst == ip && p.dstPort == port
    case PassUdpPorts(from, to) => p.out && p.udp && p.srcPort == from && p.dstPort == to
    case PassDns(iface, server) => p.out && p.iface == iface && (p.udp || p.tcp) && p.dst == server && p.dstPort == DNS_PORT
    case BlockDns => p.out && (p.udp || p.tcp) && p.dstPort == DNS_PORT
    case DnsAnchor => false
    case BlockOut => p.out
    case BlockIn => !p.out
  }

  predicate IsQuick(r: Rule) { !r.BlockOut? && !r.BlockIn? }

  predicate Passes(r: Rule) { r.PassOn? || r.PassUdp? || r.PassUdpPorts? || r.PassDns? }

  /** pf's evaluation: the first quick match decides, else the last match, else it passes. */
  function Verdict(rules: seq<Rule>, p: Packet, soFar: bool): bool {
    if rules == [] then soFar
    else if !Matches(rules[0], p) then Verdict(rules[1..], p, soFar)
    else if IsQuick(rules[0]) then Passes(rules[0])
    else Verdict(rules[1..], p, Passes(rules[0]))
  }

  /** An anchor is evaluated where it is named. */
  function Inlined(rules: seq<Rule>, dns: seq<Rule>): seq<Rule> {
    if rules == [] then []
    else (if rules[0].DnsAnchor? then dns else [rules[0]]) + Inlined(rules[1..], dns)
  }

  predicate LetsThrough(main: seq<Rule>, dns: seq<Rule>, p: Packet) { Verdict(Inlined(main, dns), p, true) }

  predicate AnyMatches(rules: seq<Rule>, p: Packet) { exists i :: 0 <= i < |rules| && Matches(rules[i], p) }

  /** Rules that only let through. */
  predicate OnlyPasses(rules: seq<Rule>) { forall i :: 0 <= i < |rules| ==> Passes(rules[i]) || rules[i].Comment? }

  lemma {:induction false} PassesFirst(a: seq<Rule>, b: seq<Rule>, p: Packet, soFar: bool)
    requires OnlyPasses(a)
    ensures Verdict(a + b, p, soFar) == (AnyMatches(a, p) || Verdict(b, p, soFar))
    decreases |a|
  {
    if a == [] {
      assert a + b == b;
    } else {
      assert (a + b)[1..] == a[1..] + b;
      PassesFirst(a[1..], b, p, soFar);
      if AnyMatches(a[1..], p) {
        var i :| 0 <= i < |a[1..]| && Matches(a[1..][i], p);
        assert a[i + 1] == a[1..][i];
      }
    }
  }

  lemma {:induction false} InlinedAppend(a: seq<Rule>, b: seq<Rule>, dns: seq<Rule>)
    ensures Inlined(a + b, dns) == Inlined(a, dns) + Inlined(b, dns)
    decreases |a|
  {
    if a == [] {
      assert a + b == b;
    } else {
      assert (a + b)[1..] == a[1..] + b;
      InlinedAppend(a[1..], b, dns);
    }
  }

  lemma {:induction false} NothingToInline(rules: seq<Rule>, dns: seq<Rule>)
    requires OnlyPasses(rules)
    ensures Inlined(rules, dns) == rules
    decreases |rules|
  {
    if rules != [] {
      NothingToInline(rules[1..], dns);
      assert rules == [rules[0]] + rules[1..];
    }
  }

  // ---------------------------------------------------------------------
  // The policy
  // ---------------------------------------------------------------------

  predicate ToEndpoint(net: Net, ep: string, p: Packet) {
    && p.out && p.udp && Host(net, ep) != "" && p.dst == Host(net, ep)
    && (net.split(ep).1 == "" || p.dstPort == net.split(ep).1)
  }

  predicate IsDhcp(p: Packet) {
    p.out && p.udp && ((p.srcPort == "68" && p.dstPort == "67") || (p.srcPort == "546" && p.dstPort == "547"))
  }

  predicate IsDns(p: Packet) { p.out && (p.udp || p.tcp) && p.dstPort == DNS_PORT }

  predicate ToServer(iface: string, servers: seq<string>, p: Packet) { IsDns(p) && p.iface == iface && p.dst in servers }

  ghost predicate ToSomeEndpoint(net: Net, tunnels: Tunnels, p: Packet) {
    exists n, ep :: n in tunnels && ep in tunnels[n] && ToEndpoint(net, ep, p)
  }

  /** With the kill switch on. */
  ghost predicate KillSwitchPolicy(net: Net, tunnels: Tunnels, p: Packet) {
    p.iface == LOOPBACK || ToSomeEndpoint(net, tunnels, p) || IsDhcp(p) || p.iface in tunnels
  }

  lemma {:induction false} EndpointRulesMatch(net: Net, eps: seq<string>, p: Packet)
    ensures OnlyPasses(EndpointRules(net, eps))
    ensures AnyMatches(EndpointRules(net, eps), p) <==> exists ep :: ep in eps && ToEndpoint(net, ep, p)
    decreases |eps|
  {
    if eps != [] {
      var before, last := eps[..|eps| - 1], eps[|eps| - 1];
      EndpointRulesMatch(net, before, p);
      InitAndLast(eps);
      var added := if Host(net, last) != "" then [EndpointRule(net, last)] else [];
      MatchesAppend(EndpointRules(net, before), added, p);
      assert AnyMatches(added, p) <==> ToEndpoint(net, last, p) by {
        if added != [] {
          assert Matches(added[0], p) <==> ToEndpoint(net, last, p);
        }
      }
    }
  }

  lemma MatchesAppend(a: seq<Rule>, b: seq<Rule>, p: Packet)
    ensures AnyMatches(a + b, p) <==> AnyMatches(a, p) || AnyMatches(b, p)
  {
    if AnyMatches(a, p) {
      var i :| 0 <= i < |a| && Matches(a[i], p);
      assert (a + b)[i] == a[i];
    }
    if AnyMatches(b, p) {
      var i :| 0 <= i < |b| && Matches(b[i], p);
      assert (a + b)[|a| + i] == b[i];
    }
    if AnyMatches(a + b, p) {
      var i :| 0 <= i < |a + b| && Matches((a + b)[i], p);
      assert (a + b)[i] == if i < |a| then a[i] else b[i - |a|];
    }
  }

  lemma {:induction false} EndpointsMembers(tunnels: Tunnels, ifaces: seq<string>)
    requires forall i :: 0 <= i < |ifaces| ==> ifaces[i] in tunnels
    ensures forall ep :: ep in AllEndpoints(tunnels, ifaces) <==> exists i :: 0 <= i < |ifaces| && ep in tunnels[ifaces[i]]
    decreases |ifaces|
  {
    if ifaces != [] {
      var n := |ifaces| - 1;
      EndpointsMembers(tunnels, ifaces[..n]);
      forall ep | exists i :: 0 <= i < |ifaces| && ep in tunnels[ifaces[i]]
        ensures ep in AllEndpoints(tunnels, ifaces)
      {
        var i :| 0 <= i < |ifaces| && ep in tunnels[ifaces[i]];
        if i < n {
          assert ifaces[..n][i] == ifaces[i];
        }
      }
    }
  }

  lemma SomeEndpointMatches(net: Net, tunnels: Tunnels, p: Packet)
    ensures AnyMatches(EndpointRules(net, FirstMet(AllEndpoints(tunnels, Ifaces(tunnels)))), p) <==> ToSomeEndpoint(net, tunnels, p)
    ensures OnlyPasses(EndpointRules(net, FirstMet(AllEndpoints(tunnels, Ifaces(tunnels)))))
  {
    var ifaces := Ifaces(tunnels);
    var eps := AllEndpoints(tunnels, ifaces);
    EndpointRulesMatch(net, FirstMet(eps), p);
    MetFirst(eps);
    EndpointsMembers(tunnels, ifaces);
    IfacesList(tunnels);
    if ToSomeEndpoint(net, tunnels, p) {
      var n, ep :| n in tunnels && ep in tunnels[n] && ToEndpoint(net, ep, p);
      assert n in ifaces;
      assert ep in eps;
    }
  }

  lemma IfaceRulesMatch(ifaces: seq<string>, p: Packet)
    ensures OnlyPasses(IfaceRules(ifaces)) && (AnyMatches(IfaceRules(ifaces), p) <==> p.iface in ifaces)
  {
    if p.iface in ifaces {
      var i :| 0 <= i < |ifaces| && ifaces[i] == p.iface;
      assert Matches(IfaceRules(ifaces)[i], p);
    }
  }

  /** The DNS rules let a query go to a listed server only, on its interface. */
  lemma DnsRulesDecide(iface: string, servers: seq<string>, rest: seq<Rule>, p: Packet, soFar: bool)
    ensures Verdict(DnsRules(iface, servers) + rest, p, soFar) ==
            if IsDns(p) then ToServer(iface, servers, p) else Verdict(rest, p, soFar)
  {
    var passes := seq(|servers|, i requires 0 <= i < |servers| => PassDns(iface, servers[i]));
    assert DnsRules(iface, servers) + rest == passes + ([BlockDns] + rest);
    PassesFirst(passes, [BlockDns] + rest, p, soFar);
    assert ([BlockDns] + rest)[1..] == rest;
    if ToServer(iface, servers, p) {
      var i :| 0 <= i < |servers| && servers[i] == p.dst;
      assert Matches(passes[i], p);
    }
  }

  /** The kill switch's rules, with the DNS sub-anchor empty or filled. */
  lemma KillSwitchRulesDecide(net: Net, tunnels: Tunnels, dns: Option<(string, seq<string>)>, p: Packet)
    ensures LetsThrough(KillSwitchRules(net, tunnels), if dns.None? then [] else DnsRules(dns.value.0, dns.value.1), p) <==>
            KillSwitchPolicy(net, tunnels, p) || (dns.Some? && ToServer(dns.value.0, dns.value.1, p))
  {
    var sub := if dns.None? then [] else DnsRules(dns.value.0, dns.value.1);
    var ifaces := Ifaces(tunnels);
    var eps := EndpointRules(net, FirstMet(AllEndpoints(tunnels, ifaces)));
    var passes := BASE_START + eps + DHCP + IfaceRules(ifaces);
    SomeEndpointMatches(net, tunnels, p);
    IfaceRulesMatch(ifaces, p);
    IfacesList(tunnels);
    BaseMatches(p);
    MatchesAppend(BASE_START + eps + DHCP, IfaceRules(ifaces), p);
    MatchesAppend(BASE_START + eps, DHCP, p);
    MatchesAppend(BASE_START, eps, p);
    assert OnlyPasses(passes);
    InlinedAppend(passes, BASE_END, sub);
    NothingToInline(passes, sub);
    PassesFirst(passes, Inlined(BASE_END, sub), p, true);
    EndDecides(dns, p);
  }

  lemma BaseMatches(p: Packet)
    ensures AnyMatches(BASE_START, p) <==> p.iface == LOOPBACK
    ensures AnyMatches(DHCP, p) <==> IsDhcp(p)
    ensures OnlyPasses(BASE_START) && OnlyPasses(DHCP)
  {
    assert BASE_START[2] == PassOn(LOOPBACK) && Matches(BASE_START[2], p) == (p.iface == LOOPBACK);
    assert Matches(DHCP[0], p) || Matches(DHCP[1], p) <==> IsDhcp(p);
  }

  lemma EndDecides(dns: Option<(string, seq<string>)>, p: Packet)
    ensures var sub := if dns.None? then [] else DnsRules(dns.value.0, dns.value.1);
            Verdict(Inlined(BASE_END, sub), p, true) <==> dns.Some? && ToServer(dns.value.0, dns.value.1, p)
  {
    var sub := if dns.None? then [] else DnsRules(dns.value.0, dns.value.1);
    var blocks := [BlockOut, BlockIn];
    assert BASE_END[1..] == blocks && blocks[1..] == [BlockIn] && blocks[1..][1..] == [];
    assert Inlined(blocks[1..][1..], sub) == [] && Inlined(blocks[1..], sub) == [BlockIn] && Inlined(blocks, sub) == blocks;
    assert !Verdict(blocks[1..][1..], p, false) && Verdict(blocks[1..][1..], p, true);
    assert !Verdict(blocks[1..], p, false) && Verdict(blocks[1..], p, true) == p.out;
    assert !Verdict(blocks, p, true);
    if dns.None? {
      assert sub + blocks == blocks;
    } else {
      DnsRulesDecide(dns.value.0, dns.value.1, blocks, p, true);
    }
  }

  /** Without the kill switch: the DNS rules alone. */
  lemma DnsRulesAlone(iface: string, servers: seq<string>, p: Packet)
    ensures LetsThrough(DnsRules(iface, servers), [], p) <==> (IsDns(p) ==> ToServer(iface, servers, p))
  {
    var rules := DnsRules(iface, servers);
    NoAnchor(rules);
    assert rules + [] == rules;
    DnsRulesDecide(iface, servers, [], p, true);
  }

  lemma {:induction false} NoAnchor(rules: seq<Rule>)
    requires forall i :: 0 <= i < |rules| ==> !rules[i].DnsAnchor?
    ensures Inlined(rules, []) == rules
    decreases |rules|
  {
    if rules != [] {
      NoAnchor(rules[1..]);
      assert rules == [rules[0]] + rules[1..];
    }
  }

  /** What passes with the kill switch and not without it: the queries that
      meet one of its permits before the DNS rules. */
  lemma EscapesDnsRulesExactlyWhen(net: Net, tunnels: Tunnels, iface: string, servers: seq<string>, p: Packet)
    ensures LetsThrough(KillSwitchRules(net, tunnels), DnsRules(iface, servers), p) && !LetsThrough(DnsRules(iface, servers), [], p)
            <==>
            IsDns(p) && !ToServer(iface, servers, p)
            && (p.iface == LOOPBACK || p.iface in tunnels || ToSomeEndpoint(net, tunnels, p))
  {
    KillSwitchRulesDecide(net, tunnels, Some((iface, servers)), p);
    DnsRulesAlone(iface, servers, p);
  }
}
