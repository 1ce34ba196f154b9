/** What the texts in the two anchors let through after a run of calls, told from
    the calls themselves. */
module DarwinHistory {
  import opened Text
  import opened PfRules
  import opened PfText
  import opened DarwinSteps

  // ---------------------------------------------------------------------
  // What a call must give
  // ---------------------------------------------------------------------

  /** Lower-case letters, then digits. */
  ghost predicate IsName(s: string) {
    exists a: string, d: string ::
      s == a + d && a != "" && d != "" && (forall c :: c in a ==> 'a' <= c <= 'z') && (forall c :: c in d ==> '0' <= c <= '9')
  }

  /** The host of an endpoint, or the whole of it without one. */
  function HostPart(net: Net, ep: string): string { if net.split(ep).0 == "" then ep else net.split(ep).0 }

  predicate Good(net: Net, eps: seq<string>) {
    forall ep :: ep in eps && HostPart(net, ep) != "" ==> net.isIP(HostPart(net, ep))
  }

  lemma NameIs(s: string)
    ensures IsIfaceName(s) <==> IsName(s)
  {
    if IsIfaceName(s) {
      var n :| 0 < n < |s| && (forall i :: 0 <= i < n ==> 'a' <= s[i] <= 'z') && AllDigits(s[n..]);
      assert s == s[..n] + s[n..];
      forall c | c in s[n..] ensures '0' <= c <= '9' {
        assert IsDigit(c);
      }
    }
    if a: string, d: string :| s == a + d && a != "" && d != "" && (forall c :: c in a ==> 'a' <= c <= 'z')
                               && (forall c :: c in d ==> '0' <= c <= '9') {
      forall i | 0 <= i < |a| ensures 'a' <= s[i] <= 'z' {
        assert s[i] == a[i] && a[i] in a;
      }
      forall i | 0 <= i < |d| ensures IsDigit(d[i]) {
        assert d[i] in d;
      }
      assert s[|a|..] == d && AllDigits(s[|a|..]) && 0 < |a| < |s|;
    }
  }

  lemma GoodIs(net: Net, eps: seq<string>)
    ensures EndpointsValid(net, eps) <==> Good(net, eps)
  {
    if EndpointsValid(net, eps) {
      forall ep | ep in eps && HostPart(net, ep) != ""
        ensures net.isIP(HostPart(net, ep))
      {
        var i :| 0 <= i < |eps| && eps[i] == ep;
        assert Host(net, eps[i]) == HostPart(net, ep);
      }
    }
    if Good(net, eps) {
      forall i | 0 <= i < |eps| && Host(net, eps[i]) != ""
        ensures net.isIP(Host(net, eps[i]))
      {
        assert eps[i] in eps && Host(net, eps[i]) == HostPart(net, eps[i]);
      }
    }
  }

  // ---------------------------------------------------------------------
  // What stands after the calls
  // ---------------------------------------------------------------------

  ghost predicate TurnsOn(net: Net, c: Call) {
    c.EnableKillSwitch? && (c.iface == "" || (IsName(c.iface) && Good(net, c.endpoints)))
  }

  predicate TurnsOff(c: Call) { c == DisableKillSwitch || c == Cleanup }

  ghost predicate TurnedOnAt(net: Net, calls: seq<Call>, i: nat) {
    i < |calls| && TurnsOn(net, calls[i]) && forall j :: i < j < |calls| ==> !TurnsOff(calls[j])
  }

  ghost predicate On(net: Net, calls: seq<Call>) { exists i: nat :: TurnedOnAt(net, calls, i) }

  ghost predicate Adds(net: Net, before: seq<Call>, c: Call, name: string, eps: seq<string>) {
    && IsName(name) && Good(net, eps)
    && (c == EnableKillSwitch(name, eps) || (c == AddTunnel(name, eps) && On(net, before)))
  }

  /** Enabling the kill switch anew starts with its one tunnel, or with none. */
  ghost predicate Removes(net: Net, c: Call, name: string) {
    || TurnsOff(c) || TurnsOn(net, c) || c == RemoveTunnel(name)
    || (c.AddTunnel? && c.iface == name && IsName(name) && Good(net, c.endpoints))
  }

  ghost predicate AddedAt(net: Net, calls: seq<Call>, name: string, eps: seq<string>, i: nat) {
    i < |calls| && Adds(net, calls[..i], calls[i], name, eps) && forall j :: i < j < |calls| ==> !Removes(net, calls[j], name)
  }

  ghost predicate AddedWith(net: Net, calls: seq<Call>, name: string, eps: seq<string>) {
    exists i: nat :: AddedAt(net, calls, name, eps, i)
  }

  ghost predicate Serves(net: Net, c: Call, iface: string, servers: seq<string>) {
    c == EnableDns(iface, servers) && servers != [] && IsName(iface) && forall s :: s in servers ==> net.isIP(s)
  }

  ghost predicate Unserves(net: Net, c: Call) {
    c == DisableDns || c == Cleanup || (c.EnableDns? && Serves(net, c, c.iface, c.servers))
  }

  ghost predicate ServedAt(net: Net, calls: seq<Call>, iface: string, servers: seq<string>, i: nat) {
    i < |calls| && Serves(net, calls[i], iface, servers) && forall j :: i < j < |calls| ==> !Unserves(net, calls[j])
  }

  ghost predicate ServedWith(net: Net, calls: seq<Call>, iface: string, servers: seq<string>) {
    exists i: nat :: ServedAt(net, calls, iface, servers, i)
  }

  lemma PrefixOf(calls: seq<Call>, c: Call, i: nat)
    requires i <= |calls|
    ensures (calls + [c])[..i] == calls[..i] && (calls + [c])[|calls|] == c && (i < |calls| ==> (calls + [c])[i] == calls[i])
  {
  }

  lemma OnStep(net: Net, calls: seq<Call>, c: Call)
    ensures On(net, calls + [c]) <==> TurnsOn(net, c) || (On(net, calls) && !TurnsOff(c))
  {
    var all := calls + [c];
    if i: nat :| TurnedOnAt(net, all, i) && i < |calls| {
      assert forall j :: i < j < |calls| ==> all[j] == calls[j];
      assert all[|calls|] == c && TurnedOnAt(net, calls, i);
    }
    if TurnsOn(net, c) {
      assert TurnedOnAt(net, all, |calls|);
    } else if i: nat :| TurnedOnAt(net, calls, i) && !TurnsOff(c) {
      assert TurnedOnAt(net, all, i);
    }
  }

  lemma AddedAtStep(net: Net, calls: seq<Call>, c: Call, name: string, eps: seq<string>, i: nat)
    ensures AddedAt(net, calls + [c], name, eps, i) <==>
            (i == |calls| && Adds(net, calls, c, name, eps)) || (AddedAt(net, calls, name, eps, i) && !Removes(net, c, name))
  {
    if i <= |calls| {
      PrefixOf(calls, c, i);
      assert calls[..|calls|] == calls;
    }
    if i < |calls| {
      assert forall j :: i < j < |calls| ==> (calls + [c])[j] == calls[j];
    }
  }

  lemma AddedWithStep(net: Net, calls: seq<Call>, c: Call, name: string, eps: seq<string>)
    ensures AddedWith(net, calls + [c], name, eps) <==>
            Adds(net, calls, c, name, eps) || (AddedWith(net, calls, name, eps) && !Removes(net, c, name))
  {
    if i: nat :| AddedAt(net, calls + [c], name, eps, i) {
      AddedAtStep(net, calls, c, name, eps, i);
    }
    if i: nat :| AddedAt(net, calls, name, eps, i) {
      AddedAtStep(net, calls, c, name, eps, i);
    }
    AddedAtStep(net, calls, c, name, eps, |calls|);
  }

  lemma ServedAtStep(net: Net, calls: seq<Call>, c: Call, iface: string, servers: seq<string>, i: nat)
    ensures ServedAt(net, calls + [c], iface, servers, i) <==>
            (i == |calls| && Serves(net, c, iface, servers)) || (ServedAt(net, calls, iface, servers, i) && !Unserves(net, c))
  {
    if i <= |calls| {
      PrefixOf(calls, c, i);
    }
    if i < |calls| {
      assert forall j :: i < j < |calls| ==> (calls + [c])[j] == calls[j];
    }
  }

  lemma ServedWithStep(net: Net, calls: seq<Call>, c: Call, iface: string, servers: seq<string>)
    ensures ServedWith(net, calls + [c], iface, servers) <==>
            Serves(net, c, iface, servers) || (ServedWith(net, calls, iface, servers) && !Unserves(net, c))
  {
    if i: nat :| ServedAt(net, calls + [c], iface, servers, i) {
      ServedAtStep(net, calls, c, iface, servers, i);
    }
    if i: nat :| ServedAt(net, calls, iface, servers, i) {
      ServedAtStep(net, calls, c, iface, servers, i);
    }
    ServedAtStep(net, calls, c, iface, servers, |calls|);
  }

  // ---------------------------------------------------------------------
  // The state after the calls
  // ---------------------------------------------------------------------

  ghost predicate TunnelIs(net: Net, calls: seq<Call>, s: State, name: string) {
    && (name in s.tunnels ==> AddedWith(net, calls, name, s.tunnels[name]))
    && (forall eps :: AddedWith(net, calls, name, eps) ==> name in s.tunnels && s.tunnels[name] == eps)
  }

  ghost predicate DnsIs(net: Net, calls: seq<Call>, s: State) {
    && (s.dns ==> ServedWith(net, calls, s.dnsIface, s.dnsServers))
    && (forall iface, servers :: ServedWith(net, calls, iface, servers) ==> s.dns && s.dnsIface == iface && s.dnsServers == servers)
  }

  ghost predicate StateIs(net: Net, calls: seq<Call>, s: State) {
    Sound(net, s) && s.killSwitch == On(net, calls) && DnsIs(net, calls, s) && forall name :: TunnelIs(net, calls, s, name)
  }

  lemma ValidTunnelsAre(net: Net, tunnels: Tunnels)
    ensures TunnelsValid(net, tunnels) <==> forall n :: n in tunnels ==> IsName(n) && Good(net, tunnels[n])
  {
    forall n | n in tunnels
      ensures IsIfaceName(n) && EndpointsValid(net, tunnels[n]) <==> IsName(n) && Good(net, tunnels[n])
    {
      NameIs(n);
      GoodIs(net, tunnels[n]);
    }
  }

  lemma ServersAre(net: Net, servers: seq<string>)
    ensures AllIPs(net, servers) <==> forall s :: s in servers ==> net.isIP(s)
  {
    assert forall i :: 0 <= i < |servers| ==> servers[i] in servers;
  }

  /** The calls that are refused, and then change nothing. */
  ghost predicate Refused(net: Net, before: seq<Call>, c: Call) {
    match c
    case EnableKillSwitch(iface, eps) => iface != "" && !(IsName(iface) && Good(net, eps))
    case AddTunnel(iface, eps) => !IsName(iface) || (On(net, before) && !Good(net, eps))
    case EnableDns(iface, servers) => servers != [] && !(IsName(iface) && forall s :: s in servers ==> net.isIP(s))
    case _ => false
  }

  lemma AcceptedIs(net: Net, before: seq<Call>, s: State, c: Call)
    requires Sound(net, s) && s.killSwitch == On(net, before)
    ensures Accepted(net, s, c) <==> !Refused(net, before, c)
  {
    match c
    case EnableKillSwitch(iface, eps) =>
      NameIs(iface);
      ValidTunnelsAre(net, map[iface := eps]);
    case AddTunnel(iface, eps) =>
      NameIs(iface);
      assert !IsName("") by { NameIs(""); }
      if s.killSwitch {
        ValidTunnelsAre(net, s.tunnels);
        ValidTunnelsAre(net, s.tunnels[iface := eps]);
        assert s.tunnels[iface := eps][iface] == eps;
      }
    case EnableDns(iface, servers) =>
      NameIs(iface);
      ServersAre(net, servers);
    case _ =>
  }

  lemma NextIsSound(net: Net, s: State, c: Call)
    requires Sound(net, s)
    ensures Sound(net, Next(net, s, c))
  {
  }

  lemma TunnelStep(net: Net, calls: seq<Call>, c: Call, s: State, name: string)
    requires StateIs(net, calls, s)
    ensures TunnelIs(net, calls + [c], Next(net, s, c), name)
  {
    AcceptedIs(net, calls, s, c);
    assert TunnelIs(net, calls, s, name);
    assert !IsName("") by { NameIs(""); }
    forall eps
      ensures AddedWith(net, calls + [c], name, eps) <==>
              Adds(net, calls, c, name, eps) || (AddedWith(net, calls, name, eps) && !Removes(net, c, name))
    {
      AddedWithStep(net, calls, c, name, eps);
    }
  }

  lemma DnsStep(net: Net, calls: seq<Call>, c: Call, s: State)
    requires StateIs(net, calls, s)
    ensures DnsIs(net, calls + [c], Next(net, s, c))
  {
    AcceptedIs(net, calls, s, c);
    forall iface, servers
      ensures ServedWith(net, calls + [c], iface, servers) <==>
              Serves(net, c, iface, servers) || (ServedWith(net, calls, iface, servers) && !Unserves(net, c))
    {
      ServedWithStep(net, calls, c, iface, servers);
    }
  }

  lemma {:induction false} StateAfter(net: Net, pfOn: bool, calls: seq<Call>)
    ensures StateIs(net, calls, RunOf(net, Fresh(pfOn), calls))
    decreases |calls|
  {
    if calls != [] {
      var before, c := calls[..|calls| - 1], calls[|calls| - 1];
      var s := RunOf(net, Fresh(pfOn), before);
      assert before + [c] == calls;
      StateAfter(net, pfOn, before);
      NextIsSound(net, s, c);
      AcceptedIs(net, before, s, c);
      OnStep(net, before, c);
      DnsStep(net, before, c, s);
      forall name
        ensures TunnelIs(net, calls, Next(net, s, c), name)
      {
        TunnelStep(net, before, c, s, name);
      }
    }
  }

  // ---------------------------------------------------------------------
  // What the texts let through
  // ---------------------------------------------------------------------

  predicate IsQuery(p: Packet) { p.out && (p.udp || p.tcp) && p.dstPort == "53" }

  /** A datagram to the address of an endpoint, and to its port if it names one. */
  predicate ToPeer(net: Net, ep: string, p: Packet) {
    && p.out && p.udp && p.dst == HostPart(net, ep) && p.dst != ""
    && (net.split(ep).1 == "" || p.dstPort == net.split(ep).1)
  }

  ghost predicate ForAddedTunnel(net: Net, calls: seq<Call>, p: Packet) {
    exists name, eps :: AddedWith(net, calls, name, eps) && (p.iface == name || exists ep :: ep in eps && ToPeer(net, ep, p))
  }

  /** Loopback and DHCP. */
  predicate IsBasic(p: Packet) {
    || p.iface == "lo0"
    || (p.out && p.udp && ((p.srcPort == "68" && p.dstPort == "67") || (p.srcPort == "546" && p.dstPort == "547")))
  }

  ghost predicate Served(net: Net, calls: seq<Call>) { exists iface, servers :: ServedWith(net, calls, iface, servers) }

  ghost predicate ToServerOf(net: Net, calls: seq<Call>, p: Packet) {
    IsQuery(p) && exists iface, servers :: ServedWith(net, calls, iface, servers) && p.iface == iface && p.dst in servers
  }

  ghost predicate Allowed(net: Net, calls: seq<Call>, p: Packet) {
    if On(net, calls) then IsBasic(p) || ForAddedTunnel(net, calls, p) || ToServerOf(net, calls, p)
    else Served(net, calls) && IsQuery(p) ==> ToServerOf(net, calls, p)
  }

  /** The ports that the calls name are words. */
  ghost predicate CleanCalls(net: Net, calls: seq<Call>) {
    forall i, ep :: 0 <= i < |calls| && (calls[i].EnableKillSwitch? || calls[i].AddTunnel?) && ep in calls[i].endpoints ==>
                      Word(net.split(ep).1)
  }

  lemma PortsAreClean(net: Net, calls: seq<Call>, s: State)
    requires StateIs(net, calls, s) && CleanCalls(net, calls)
    ensures CleanPorts(net, s.tunnels)
  {
    forall n, ep | n in s.tunnels && ep in s.tunnels[n]
      ensures Word(net.split(ep).1)
    {
      assert TunnelIs(net, calls, s, n);
      var i: nat :| AddedAt(net, calls, n, s.tunnels[n], i);
      assert calls[i].endpoints == s.tunnels[n];
    }
  }

  lemma StateIsAllowed(net: Net, calls: seq<Call>, s: State, p: Packet)
    requires StateIs(net, calls, s)
    ensures LetsThrough(MainAnchor(net, s), DnsAnchorOf(s), p) <==> Allowed(net, calls, p)
  {
    StateDecides(net, s, p);
    assert s.dns <==> Served(net, calls);
    assert s.dns ==> (ToServer(s.dnsIface, s.dnsServers, p) <==> ToServerOf(net, calls, p));
    if p.iface in s.tunnels {
      assert TunnelIs(net, calls, s, p.iface);
    }
    if n, ep :| n in s.tunnels && ep in s.tunnels[n] && ToEndpoint(net, ep, p) {
      assert TunnelIs(net, calls, s, n) && ToPeer(net, ep, p);
    }
    if name, eps :| AddedWith(net, calls, name, eps) && (p.iface == name || exists ep :: ep in eps && ToPeer(net, ep, p)) {
      assert TunnelIs(net, calls, s, name);
      if ep :| ep in eps && ToPeer(net, ep, p) {
        assert ToEndpoint(net, ep, p);
      }
    }
  }

  /** What pf reads in the two anchors of a state is what the calls allow. */
  lemma TextIsAllowed(net: Net, calls: seq<Call>, s: State, p: Packet)
    requires StateIs(net, calls, s) && CleanNet(net) && CleanCalls(net, calls)
    ensures var main, dns := LinesOf(MainAnchor(net, s)), LinesOf(DnsAnchorOf(s));
            Readable(main) && Readable(dns) && (LetsPass(main, dns, p) <==> Allowed(net, calls, p))
  {
    PortsAreClean(net, calls, s);
    if s.killSwitch {
      KillSwitchRulesAreClean(net, s.tunnels);
    }
    if s.dns {
      DnsRulesAreClean(net, s.dnsIface, s.dnsServers);
    }
    TextDecides(MainAnchor(net, s), DnsAnchorOf(s), p);
    StateIsAllowed(net, calls, s, p);
  }

  lemma RefusedExactlyWhen(net: Net, pfOn: bool, before: seq<Call>, c: Call)
    ensures !Accepted(net, RunOf(net, Fresh(pfOn), before), c) <==> Refused(net, before, c)
  {
    StateAfter(net, pfOn, before);
    AcceptedIs(net, before, RunOf(net, Fresh(pfOn), before), c);
  }

  /** After every run. */
  lemma AnchorsAllow(net: Net, pfOn: bool, calls: seq<Call>, s: State)
    requires s == RunOf(net, Fresh(pfOn), calls)
    ensures (s.killSwitch <==> On(net, calls)) && (s.dns <==> Served(net, calls))
    ensures var main, dns := LinesOf(MainAnchor(net, s)), LinesOf(DnsAnchorOf(s));
            CleanNet(net) && CleanCalls(net, calls) ==>
              Readable(main) && Readable(dns) && forall p :: LetsPass(main, dns, p) <==> Allowed(net, calls, p)
  {
    StateAfter(net, pfOn, calls);
    if CleanNet(net) && CleanCalls(net, calls) {
      var main, dns := LinesOf(MainAnchor(net, s)), LinesOf(DnsAnchorOf(s));
      forall p
        ensures Readable(main) && Readable(dns) && (LetsPass(main, dns, p) <==> Allowed(net, calls, p))
      {
        TextIsAllowed(net, calls, s, p);
      }
      TextIsAllowed(net, calls, s, Packet(true, "", false, false, "", "", ""));
    }
  }
}
