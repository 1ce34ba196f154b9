/** The macOS firewall's calls as steps on what it remembers, and the rules of
    each anchor in each state. */
module DarwinSteps {
  import opened Wrappers
  import opened PfRules

  datatype Call =
    | EnableKillSwitch(iface: string, endpoints: seq<string>)
    | AddTunnel(iface: string, endpoints: seq<string>)
    | RemoveTunnel(iface: string)
    | DisableKillSwitch
    | EnableDns(iface: string, servers: seq<string>)
    | DisableDns
    | Cleanup

  /** What the firewall remembers, and whether pf is on. */
  datatype State = State(killSwitch: bool, dns: bool, pfWasEnabled: bool, dnsIface: string, dnsServers: seq<string>,
                         tunnels: Tunnels, pfOn: bool)

  predicate AllIPs(net: Net, servers: seq<string>) { forall i :: 0 <= i < |servers| ==> net.isIP(servers[i]) }

  // ---------------------------------------------------------------------
  // What each call does to the state
  // ---------------------------------------------------------------------

  predicate DnsReapplies(net: Net, s: State) { s.dns && s.dnsIface != "" && s.dnsServers != [] && AllIPs(net, s.dnsServers) }

  predicate Accepted(net: Net, s: State, c: Call) {
    match c
    case EnableKillSwitch(iface, endpoints) =>
      iface != "" ==> IsIfaceName(iface) && TunnelsValid(net, map[iface := endpoints])
    case AddTunnel(iface, endpoints) =>
      iface != "" && IsIfaceName(iface) && (s.killSwitch ==> TunnelsValid(net, s.tunnels[iface := endpoints]))
    case RemoveTunnel(iface) => s.killSwitch ==> TunnelsValid(net, s.tunnels - {iface})
    case EnableDns(iface, servers) => servers == [] || (IsIfaceName(iface) && AllIPs(net, servers))
    case _ => true
  }

  /** The state after a call; a refused call changes nothing. */
  function Next(net: Net, s: State, c: Call): State {
    if !Accepted(net, s, c) then s
    else
      match c
      case EnableKillSwitch(iface, endpoints) =>
        s.(killSwitch := true, tunnels := if iface != "" then map[iface := endpoints] else map[], pfWasEnabled := s.pfOn, pfOn := true)
      case AddTunnel(iface, endpoints) => if s.killSwitch then s.(tunnels := s.tunnels[iface := endpoints]) else s
      case RemoveTunnel(iface) => if s.killSwitch then s.(tunnels := s.tunnels - {iface}) else s
      case DisableKillSwitch =>
        s.(killSwitch := false, tunnels := map[], pfOn := s.pfOn && (s.pfWasEnabled || DnsReapplies(net, s)))
      case EnableDns(iface, servers) =>
        (if servers == [] then s
         else
           var s' := s.(dns := true, dnsIface := iface, dnsServers := servers);
           if s.killSwitch then s' else s'.(pfWasEnabled := s.pfOn, pfOn := true))
      case DisableDns =>
        s.(dns := false, dnsIface := "", dnsServers := [], pfOn := s.pfOn && (s.killSwitch || s.pfWasEnabled))
      case Cleanup =>
        State(false, false, false, "", [], map[], s.pfOn && ((s.killSwitch || s.dns) ==> s.pfWasEnabled))
  }

  /** What is remembered was checked. */
  predicate Sound(net: Net, s: State) {
    && (s.dns ==> IsIfaceName(s.dnsIface) && s.dnsServers != [] && AllIPs(net, s.dnsServers))
    && (s.killSwitch ==> TunnelsValid(net, s.tunnels))
    && (!s.killSwitch ==> s.tunnels == map[])
  }

  // ---------------------------------------------------------------------
  // The anchors
  // ---------------------------------------------------------------------

  function DnsRulesOf(s: State): seq<Rule> { if s.dns then DnsRules(s.dnsIface, s.dnsServers) else [] }

  ghost function MainAnchor(net: Net, s: State): seq<Rule> {
    if s.killSwitch then KillSwitchRules(net, s.tunnels) else DnsRulesOf(s)
  }

  function DnsAnchorOf(s: State): seq<Rule> { if s.killSwitch then DnsRulesOf(s) else [] }

  // ---------------------------------------------------------------------
  // Runs
  // ---------------------------------------------------------------------

  /** Before the first call. */
  function Fresh(pfOn: bool): State { State(false, false, false, "", [], map[], pfOn) }

  function RunOf(net: Net, s: State, calls: seq<Call>): State {
    if calls == [] then s else Next(net, RunOf(net, s, calls[..|calls| - 1]), calls[|calls| - 1])
  }

  /** Adding a new tunnel and removing it again leaves the state and the lines
      of both anchors as they were. */
  lemma AddThenRemove(net: Net, s: State, iface: string, endpoints: seq<string>)
    requires Sound(net, s) && iface !in s.tunnels
    ensures var s' := Next(net, Next(net, s, AddTunnel(iface, endpoints)), RemoveTunnel(iface));
            && s' == s && LinesOf(MainAnchor(net, s')) == LinesOf(MainAnchor(net, s))
            && LinesOf(DnsAnchorOf(s')) == LinesOf(DnsAnchorOf(s))
  {
    assert s.tunnels[iface := endpoints] - {iface} == s.tunnels;
    assert s.tunnels - {iface} == s.tunnels;
  }

  /** What leaves and enters in any state of a run. */
  lemma StateDecides(net: Net, s: State, p: Packet)
    requires Sound(net, s)
    ensures LetsThrough(MainAnchor(net, s), DnsAnchorOf(s), p) <==>
            if s.killSwitch then KillSwitchPolicy(net, s.tunnels, p) || (s.dns && ToServer(s.dnsIface, s.dnsServers, p))
            else if s.dns then IsDns(p) ==> ToServer(s.dnsIface, s.dnsServers, p)
            else true
  {
    if s.killSwitch {
      KillSwitchRulesDecide(net, s.tunnels, if s.dns then Some((s.dnsIface, s.dnsServers)) else None, p);
    } else if s.dns {
      DnsRulesAlone(s.dnsIface, s.dnsServers, p);
    }
  }

  // ---------------------------------------------------------------------
  // Leaving pf on
  // ---------------------------------------------------------------------

  /** Each Disable is called while its flag is set. */
  predicate InTurn(s: State, c: Call) { (c.DisableKillSwitch? ==> s.killSwitch) && (c.DisableDns? ==> s.dns) }

  predicate AllInTurn(net: Net, s: State, calls: seq<Call>) {
    forall n :: 0 <= n < |calls| ==> InTurn(RunOf(net, s, calls[..n]), calls[n])
  }

  /** pf is on, and was on before what is active was enabled. */
  predicate FoundOn(s: State) { s.pfOn && (s.killSwitch || s.dns ==> s.pfWasEnabled) }

  lemma NextKeepsOn(net: Net, s: State, c: Call)
    requires FoundOn(s) && InTurn(s, c)
    ensures FoundOn(Next(net, s, c))
  {
  }

  /** pf that was on beforehand is never left off. */
  lemma {:induction false} PfIsLeftOn(net: Net, s: State, calls: seq<Call>)
    requires FoundOn(s) && AllInTurn(net, s, calls)
    ensures FoundOn(RunOf(net, s, calls))
    decreases |calls|
  {
    if calls != [] {
      var n := |calls| - 1;
      forall k | 0 <= k < n ensures InTurn(RunOf(net, s, calls[..n][..k]), calls[..n][k]) {
        assert calls[..n][..k] == calls[..k];
      }
      PfIsLeftOn(net, s, calls[..n]);
      NextKeepsOn(net, RunOf(net, s, calls[..n]), calls[n]);
    }
  }

  /** A call turns pf off exactly when it is a Disable out of turn, with both
      flags off, and the last enabling found pf off. */
  lemma CallTurnsPfOff(net: Net, s: State, c: Call)
    requires Sound(net, s) && FoundOn(s)
    ensures !Next(net, s, c).pfOn <==> (c.DisableKillSwitch? || c.DisableDns?) && !s.killSwitch && !s.dns && !s.pfWasEnabled
  {
  }

  lemma NextKeepsPfOn(net: Net, s: State, c: Call)
    requires Sound(net, s) && (s.killSwitch || s.dns ==> s.pfOn)
    ensures Sound(net, Next(net, s, c)) && (Next(net, s, c).killSwitch || Next(net, s, c).dns ==> Next(net, s, c).pfOn)
  {
  }

  /** In every run pf is on while there is something for it to enforce, whichever
      calls are made out of turn, and nothing is saved of DNS protection that is off. */
  lemma {:induction false} PfIsOnWhileNeeded(net: Net, pfOn: bool, calls: seq<Call>)
    ensures var s := RunOf(net, Fresh(pfOn), calls);
            Sound(net, s) && (s.killSwitch || s.dns ==> s.pfOn) && (!s.dns ==> s.dnsIface == "" && s.dnsServers == [])
    decreases |calls|
  {
    if calls != [] {
      PfIsOnWhileNeeded(net, pfOn, calls[..|calls| - 1]);
      NextKeepsPfOn(net, RunOf(net, Fresh(pfOn), calls[..|calls| - 1]), calls[|calls| - 1]);
    }
  }

  /** A call that turns something on, and is not refused. */
  predicate Enables(net: Net, s: State, c: Call) {
    Accepted(net, s, c) && (c.EnableKillSwitch? || (c.EnableDns? && c.servers != []))
  }

  /** One feature turned on and off again leaves pf as it was found, as does the
      kill switch around DNS protection, in either order of turning them off. */
  lemma PfIsRestored(net: Net, s: State, ks: Call, dns: Call)
    requires Sound(net, s) && !s.killSwitch && !s.dns
    requires ks.EnableKillSwitch? && dns.EnableDns? && Enables(net, s, ks) && Enables(net, s, dns)
    ensures var on := Next(net, s, ks); on.pfOn && Next(net, on, DisableKillSwitch).pfOn == Next(net, on, Cleanup).pfOn == s.pfOn
    ensures var on := Next(net, s, dns); on.pfOn && Next(net, on, DisableDns).pfOn == Next(net, on, Cleanup).pfOn == s.pfOn
    ensures var both := Next(net, Next(net, s, ks), dns);
            && both.pfOn && Next(net, Next(net, both, DisableDns), DisableKillSwitch).pfOn == s.pfOn
            && Next(net, Next(net, both, DisableKillSwitch), DisableDns).pfOn == s.pfOn
  {
  }

  /** DNS protection first, and the kill switch notes pf as found on: it is then
      left on, whatever it was before, however the two are turned off. */
  lemma PfStaysOn(net: Net, s: State, ks: Call, dns: Call)
    requires Sound(net, s) && !s.killSwitch && !s.dns
    requires ks.EnableKillSwitch? && dns.EnableDns? && Enables(net, s, ks) && Enables(net, s, dns)
    ensures var both := Next(net, Next(net, s, dns), ks);
            && Next(net, Next(net, both, DisableDns), DisableKillSwitch).pfOn
            && Next(net, Next(net, both, DisableKillSwitch), DisableDns).pfOn && Next(net, both, Cleanup).pfOn
  {
  }

  /** A Disable before anything was turned on, or after a clean-up, turns pf off. */
  lemma DisableAtOnce(net: Net, s: State, c: Call)
    requires c.DisableKillSwitch? || c.DisableDns?
    ensures !Next(net, Fresh(true), c).pfOn && !Next(net, Next(net, s, Cleanup), c).pfOn
  {
  }
}
