/** The macOS firewall: the kill switch and DNS protection as two pf anchors,
    with every pfctl call succeeding. */
module DarwinFirewall {
  import opened PfRules
  import opened DarwinSteps
  import opened PfText
  import opened DarwinHistory

  class DarwinFirewall {
    const net: Net
    var killSwitchEnabled: bool
    var dnsProtectionEnabled: bool
    var pfWasEnabled: bool
    var savedDNSInterface: string
    var savedDNSServers: seq<string>
    var killSwitchTunnels: Tunnels
    // pf itself: what each anchor holds, and whether it filters at all
    var mainAnchor: seq<string>
    var dnsAnchor: seq<string>
    var pfOn: bool

    ghost function S(): State
      reads this
    {
      State(killSwitchEnabled, dnsProtectionEnabled, pfWasEnabled, savedDNSInterface, savedDNSServers, killSwitchTunnels, pfOn)
    }

    /** The anchors hold the lines of what the state says, and nothing else. */
    ghost predicate Valid()
      reads this
    {
      Sound(net, S()) && mainAnchor == LinesOf(MainAnchor(net, S())) && dnsAnchor == LinesOf(DnsAnchorOf(S()))
    }

    constructor (net: Net, pfOn: bool)
      ensures Valid() && this.net == net && S() == Fresh(pfOn)
    {
      this.net, this.pfOn := net, pfOn;
      killSwitchEnabled, dnsProtectionEnabled, pfWasEnabled := false, false, false;
      savedDNSInterface, savedDNSServers, killSwitchTunnels := "", [], map[];
      mainAnchor, dnsAnchor := [], [];
    }

    /** Loading an anchor replaces what it held. */
    method LoadDnsSubAnchor(iface: string, servers: seq<string>) returns (ok: bool)
      modifies this`dnsAnchor
      ensures ok <==> IsIfaceName(iface) && AllIPs(net, servers)
      ensures dnsAnchor == if ok then LinesOf(DnsRules(iface, servers)) else old(dnsAnchor)
    {
      if !IsIfaceName(iface) {
        return false;
      }
      var rules := BuildDnsRules(net, iface, servers);
      if rules.Some? {
        dnsAnchor := rules.value;
      }
      ok := rules.Some?;
    }

    method ReapplyDnsSubAnchorIfActive()
      modifies this`dnsAnchor
      ensures dnsAnchor == if dnsProtectionEnabled && savedDNSInterface != "" && savedDNSServers != []
                              && IsIfaceName(savedDNSInterface) && AllIPs(net, savedDNSServers)
                           then LinesOf(DnsRules(savedDNSInterface, savedDNSServers)) else old(dnsAnchor)
    {
      if !dnsProtectionEnabled || savedDNSInterface == "" || |savedDNSServers| == 0 {
        return;
      }
      var ok := LoadDnsSubAnchor(savedDNSInterface, savedDNSServers);
    }

    method FlushAllAnchors()
      modifies this`mainAnchor, this`dnsAnchor
      ensures mainAnchor == [] && dnsAnchor == []
    {
      mainAnchor, dnsAnchor := [], [];
    }

    /** The main anchor for the given tunnels, and the DNS sub-anchor again. */
    method LoadKillSwitchAnchor(tunnels: Tunnels) returns (ok: bool)
      requires Sound(net, S())
      modifies this`mainAnchor, this`dnsAnchor
      ensures ok == TunnelsValid(net, tunnels)
      ensures mainAnchor == if ok then LinesOf(KillSwitchRules(net, tunnels)) else old(mainAnchor)
      ensures dnsAnchor == if ok && dnsProtectionEnabled then LinesOf(DnsRulesOf(S())) else old(dnsAnchor)
    {
      var rules := BuildKillSwitchRules(net, tunnels);
      ok := rules.Some?;
      if ok {
        mainAnchor := rules.value;
        ReapplyDnsSubAnchorIfActive();
      }
    }

    method EnableKillSwitch(iface: string, endpoints: seq<string>) returns (ok: bool)
      requires Valid()
      modifies this
      ensures Valid() && S() == Next(net, old(S()), Call.EnableKillSwitch(iface, endpoints))
      ensures ok == Accepted(net, old(S()), Call.EnableKillSwitch(iface, endpoints))
    {
      if iface != "" && !IsIfaceName(iface) {
        return false;
      }
      var pfWas := pfOn;
      var tunnels: Tunnels := map[];
      if iface != "" {
        tunnels := tunnels[iface := endpoints];
      }
      ok := LoadKillSwitchAnchor(tunnels);
      if !ok {
        return;
      }
      pfOn := true;
      pfWasEnabled := pfWas;
      killSwitchEnabled := true;
      killSwitchTunnels := tunnels;
    }

    /** The kill switch for other tunnels, unless they are refused. */
    method SwitchTo(tunnels: Tunnels) returns (ok: bool)
      requires Valid() && killSwitchEnabled
      modifies this`mainAnchor, this`dnsAnchor, this`killSwitchTunnels
      ensures ok == TunnelsValid(net, tunnels) && Valid()
      ensures killSwitchTunnels == if ok then tunnels else old(killSwitchTunnels)
    {
      ok := LoadKillSwitchAnchor(tunnels);
      if ok {
        killSwitchTunnels := tunnels;
      }
    }

    method AddKillSwitchTunnel(iface: string, endpoints: seq<string>) returns (ok: bool)
      requires Valid()
      modifies this
      ensures Valid() && S() == Next(net, old(S()), AddTunnel(iface, endpoints))
      ensures ok == Accepted(net, old(S()), AddTunnel(iface, endpoints))
    {
      if iface == "" || !IsIfaceName(iface) {
        return false;
      }
      if !killSwitchEnabled {
        return true;
      }
      var tunnels := killSwitchTunnels[iface := endpoints];
      ok := SwitchTo(tunnels);
    }

    method RemoveKillSwitchTunnel(iface: string) returns (ok: bool)
      requires Valid()
      modifies this
      ensures Valid() && S() == Next(net, old(S()), RemoveTunnel(iface))
      ensures ok == Accepted(net, old(S()), RemoveTunnel(iface))
    {
      if !killSwitchEnabled {
        return true;
      }
      ok := SwitchTo(killSwitchTunnels - {iface});
    }

    method DisableKillSwitch()
      requires Valid()
      modifies this
      ensures Valid() && S() == Next(net, old(S()), Call.DisableKillSwitch)
    {
      var pfWas := pfWasEnabled;
      FlushAllAnchors();
      var dnsReapplied := false;
      if dnsProtectionEnabled && savedDNSInterface != "" && |savedDNSServers| > 0 {
        var rules := BuildDnsRules(net, savedDNSInterface, savedDNSServers);
        if rules.Some? {
          mainAnchor := rules.value;
          dnsReapplied := true;
        }
      }
      if !pfWas && !dnsReapplied {
        pfOn := false;
      }
      killSwitchEnabled := false;
      killSwitchTunnels := map[];
    }

    method EnableDnsProtection(iface: string, servers: seq<string>) returns (ok: bool)
      requires Valid()
      modifies this
      ensures Valid() && S() == Next(net, old(S()), EnableDns(iface, servers))
      ensures ok == Accepted(net, old(S()), EnableDns(iface, servers))
    {
      if |servers| == 0 {
        return true;
      }
      if !IsIfaceName(iface) {
        return false;
      }
      var rules := BuildDnsRules(net, iface, servers);
      if rules.None? {
        return false;
      }
      if killSwitchEnabled {
        dnsAnchor := rules.value;
      } else {
        var pfWas := pfOn;
        mainAnchor := rules.value;
        pfOn := true;
        pfWasEnabled := pfWas;
      }
      dnsProtectionEnabled := true;
      savedDNSInterface := iface;
      savedDNSServers := servers;
      ok := true;
    }

    method DisableDnsProtection()
      requires Valid()
      modifies this
      ensures Valid() && S() == Next(net, old(S()), DisableDns)
    {
      var pfWas := pfWasEnabled;
      if killSwitchEnabled {
        dnsAnchor := [];
      } else {
        FlushAllAnchors();
        if !pfWas {
          pfOn := false;
        }
      }
      dnsProtectionEnabled := false;
      savedDNSInterface := "";
      savedDNSServers := [];
    }

    method CleanUp()
      requires Valid()
      modifies this
      ensures Valid() && S() == Next(net, old(S()), Cleanup)
    {
      var dnsActive, ksActive, pfWas := dnsProtectionEnabled, killSwitchEnabled, pfWasEnabled;
      FlushAllAnchors();
      if ksActive || dnsActive {
        if !pfWas {
          pfOn := false;
        }
      }
      savedDNSInterface := "";
      savedDNSServers := [];
      dnsProtectionEnabled := false;
      killSwitchEnabled := false;
      killSwitchTunnels := map[];
      pfWasEnabled := false;
    }

    method Apply(c: Call)
      requires Valid()
      modifies this
      ensures Valid() && S() == Next(net, old(S()), c)
    {
      var ok := true;
      match c
      case EnableKillSwitch(iface, endpoints) => ok := EnableKillSwitch(iface, endpoints);
      case AddTunnel(iface, endpoints) => ok := AddKillSwitchTunnel(iface, endpoints);
      case RemoveTunnel(iface) => ok := RemoveKillSwitchTunnel(iface);
      case DisableKillSwitch => DisableKillSwitch();
      case EnableDns(iface, servers) => ok := EnableDnsProtection(iface, servers);
      case DisableDns => DisableDnsProtection();
      case Cleanup => CleanUp();
    }
  }

  /** Over every run of calls the two anchors are a function of the kill switch,
      the tunnels and the saved DNS servers alone, and what pf reads in them lets
      through exactly what the calls allow. pf itself is on while it is needed. */
  method Run(net: Net, pfOn: bool, calls: seq<Call>) returns (f: DarwinFirewall)
    ensures fresh(f) && f.Valid() && f.net == net
    ensures f.S() == RunOf(net, Fresh(pfOn), calls)
    ensures CleanNet(net) && CleanCalls(net, calls) ==> Readable(f.mainAnchor) && Readable(f.dnsAnchor)
    ensures CleanNet(net) && CleanCalls(net, calls) ==>
              forall p :: LetsPass(f.mainAnchor, f.dnsAnchor, p) <==> Allowed(net, calls, p)
    ensures On(net, calls) || Served(net, calls) ==> f.pfOn
  {
    f := new DarwinFirewall(net, pfOn);
    ghost var start := f.S();
    for n := 0 to |calls|
      invariant fresh(f) && f.Valid() && f.net == net && f.S() == RunOf(net, start, calls[..n])
    {
      assert calls[..n + 1][..n] == calls[..n];
      f.Apply(calls[n]);
    }
    assert calls[..|calls|] == calls;
    AnchorsAllow(net, pfOn, calls, f.S());
    PfIsOnWhileNeeded(net, pfOn, calls);
  }
}
