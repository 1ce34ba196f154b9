/** The weighted WFP filters that the Windows firewall installs, and the packet
    policy that they add up to. */
module WfpPolicy {
  import opened Wrappers

  datatype IP = V4(value: nat) | V6(value: nat)

  /** A network is its base address and the number of low bits left free. */
  datatype Net = Net(base: IP, hostBits: nat)

  function Pow2(n: nat): (r: nat)
    ensures r > 0
  {
    if n == 0 then 1 else 2 * Pow2(n - 1)
  }

  predicate InNet(ip: IP, net: Net) {
    ip.V4? == net.base.V4? && ip.value / Pow2(net.hostBits) == net.base.value / Pow2(net.hostBits)
  }

  function Host(ip: IP): Net { Net(ip, 0) }

  const LOOPBACK_V4 := Net(V4(0x7F00_0000), 24)
  const LOOPBACK_V6 := Net(V6(1), 0)
  const LINK_LOCAL_V6 := Net(V6(0xFE80_0000_0000_0000_0000_0000_0000_0000), 118)

  const UDP: nat := 17
  const TCP: nat := 6
  const ICMPV6: nat := 58

  datatype Layer = AleV4 | AleV6 | TransportV4 | TransportV6
  datatype Action = Permit | Block
  datatype Condition =
    | Protocol(protocol: nat)
    | LocalPort(local: nat)
    | RemotePort(remote: nat)
    | RemoteAddress(net: Net)
    | LocalInterface(luid: nat)
  datatype Filter = Filter(layer: Layer, action: Action, weight: nat, conditions: seq<Condition>)
  datatype Packet = Packet(remote: IP, protocol: nat, localPort: nat, remotePort: nat, luid: nat)

  function AleLayer(ip: IP): Layer { if ip.V4? then AleV4 else AleV6 }

  function TransportLayer(ip: IP): Layer { if ip.V4? then TransportV4 else TransportV6 }

  predicate Holds(c: Condition, p: Packet) {
    match c
    case Protocol(n) => p.protocol == n
    case LocalPort(n) => p.localPort == n
    case RemotePort(n) => p.remotePort == n
    case RemoteAddress(net) => InNet(p.remote, net)
    case LocalInterface(luid) => p.luid == luid
  }

  predicate AllHold(conditions: seq<Condition>, p: Packet) {
    forall i :: 0 <= i < |conditions| ==> Holds(conditions[i], p)
  }

  predicate Matches(f: Filter, layer: Layer, p: Packet) {
    f.layer == layer && AllHold(f.conditions, p)
  }

  // ---------------------------------------------------------------------
  // The filters each feature installs
  // ---------------------------------------------------------------------

  /** What the kill switch permits for one tunnel. */
  datatype TunnelPermit = TunnelPermit(luid: nat, endpoints: seq<IP>)

  /** A peer endpoint protected from looping; port 0 means any port. */
  datatype Target = Target(ip: IP, port: nat)

  datatype LoopGuard = LoopGuard(luid: nat, targets: seq<Target>)

  function BaseFilters(): seq<Filter> {
    [ Filter(AleV4, Permit, 13, [RemoteAddress(LOOPBACK_V4)]),
      Filter(AleV6, Permit, 13, [RemoteAddress(LOOPBACK_V6)]),
      Filter(AleV4, Permit, 12, [Protocol(UDP), LocalPort(68), RemotePort(67)]),
      Filter(AleV6, Permit, 12, [Protocol(UDP), LocalPort(546), RemotePort(547)]),
      Filter(AleV6, Permit, 12, [Protocol(ICMPV6), RemoteAddress(LINK_LOCAL_V6)]),
      CatchAll(AleV4),
      CatchAll(AleV6) ]
  }

  /** The base set grows filter by filter. */
  lemma BaseMore(k: nat)
    requires k < |BaseFilters()|
    ensures BaseFilters()[..k] + [BaseFilters()[k]] == BaseFilters()[..k + 1]
    ensures |BaseFilters()[..k]| == k && (k == 0 ==> BaseFilters()[..k] == [])
  {
  }

  function CatchAll(layer: Layer): Filter { Filter(layer, Block, 0, []) }

  function InterfacePermits(luid: nat): seq<Filter> {
    [Filter(AleV4, Permit, 12, [LocalInterface(luid)]), Filter(AleV6, Permit, 12, [LocalInterface(luid)])]
  }

  function EndpointPermit(ip: IP): Filter {
    Filter(AleLayer(ip), Permit, 12, [Protocol(UDP), RemoteAddress(Host(ip))])
  }

  function EndpointPermits(ips: seq<IP>): seq<Filter> {
    seq(|ips|, i requires 0 <= i < |ips| => EndpointPermit(ips[i]))
  }

  function TunnelFilters(t: TunnelPermit): seq<Filter> {
    InterfacePermits(t.luid) + EndpointPermits(t.endpoints)
  }

  function LoopConditions(t: Target, luid: nat): seq<Condition> {
    [Protocol(UDP), RemoteAddress(Host(t.ip)), LocalInterface(luid)]
    + (if t.port != 0 then [RemotePort(t.port)] else [])
  }

  function LoopBlocks(t: Target, luid: nat): seq<Filter> {
    [ Filter(AleLayer(t.ip), Block, 13, LoopConditions(t, luid)),
      Filter(TransportLayer(t.ip), Block, 13, LoopConditions(t, luid)) ]
  }

  function GuardFilters(targets: seq<Target>, luid: nat): seq<Filter> {
    if targets == [] then []
    else GuardFilters(targets[..|targets| - 1], luid) + LoopBlocks(targets[|targets| - 1], luid)
  }

  /** A loop block stands at the two layers of its endpoint's family. */
  lemma LoopBlocksAt(t: Target, luid: nat)
    ensures var bs := LoopBlocks(t, luid);
            && |bs| == 2 && bs[0].action == bs[1].action == Block && bs[0].conditions == bs[1].conditions
            && bs[0].layer == (match t.ip case V4(_) => AleV4 case V6(_) => AleV6)
            && bs[1].layer == (match t.ip case V4(_) => TransportV4 case V6(_) => TransportV6)
  {
  }

  function DnsPermit(ip: IP, protocol: nat): Filter {
    Filter(AleLayer(ip), Permit, 15, [Protocol(protocol), RemotePort(53), RemoteAddress(Host(ip))])
  }

  function DnsPermits(servers: seq<IP>): seq<Filter> {
    if servers == [] then []
    else DnsPermits(servers[..|servers| - 1])
         + [DnsPermit(servers[|servers| - 1], UDP), DnsPermit(servers[|servers| - 1], TCP)]
  }

  function DnsBlock(layer: Layer, protocol: nat): Filter {
    Filter(layer, Block, 14, [Protocol(protocol), RemotePort(53)])
  }

  function DnsBlocks(): seq<Filter> {
    [DnsBlock(AleV4, UDP), DnsBlock(AleV4, TCP), DnsBlock(AleV6, UDP), DnsBlock(AleV6, TCP)]
  }

  function DnsFilters(servers: seq<IP>): seq<Filter> { DnsPermits(servers) + DnsBlocks() }

  // ---------------------------------------------------------------------
  // What is switched on, who owns which filters
  // ---------------------------------------------------------------------

  /** What the user has switched on: the firewall's abstract state. */
  datatype Rules = Rules(killSwitch: bool, tunnels: map<string, TunnelPermit>,
                         guards: map<string, LoopGuard>, dns: Option<seq<IP>>)

  const NO_RULES := Rules(false, map[], map[], None)

  datatype Owner = Base | Tunnel(tunnel: string) | Guard(guard: string) | Dns

  /** The filters that the rules call for on behalf of one owner. */
  function FiltersOf(r: Rules, o: Owner): seq<Filter> {
    match o
    case Base => if r.killSwitch then BaseFilters() else []
    case Tunnel(name) => if name in r.tunnels then TunnelFilters(r.tunnels[name]) else []
    case Guard(name) => if name in r.guards then GuardFilters(r.guards[name].targets, r.guards[name].luid) else []
    case Dns => if r.dns.Some? then DnsFilters(r.dns.value) else []
  }

  ghost predicate Wanted(r: Rules, f: Filter) { exists o :: f in FiltersOf(r, o) }

  // ---------------------------------------------------------------------
  // Arbitration: the heaviest matching filter decides, no match permits
  // ---------------------------------------------------------------------

  ghost predicate Decides(fs: iset<Filter>, layer: Layer, p: Packet, f: Filter) {
    && f in fs && Matches(f, layer, p)
    && forall g :: g in fs && Matches(g, layer, p) ==> g.weight <= f.weight
  }

  /** The layer may answer `a`; two answers are possible when equal weights tie. */
  ghost predicate MayAnswer(fs: iset<Filter>, layer: Layer, p: Packet, a: Action) {
    || (exists f :: Decides(fs, layer, p, f) && f.action == a)
    || (a == Permit && forall f :: f in fs ==> !Matches(f, layer, p))
  }

  ghost predicate MayLeave(fs: iset<Filter>, p: Packet) {
    MayAnswer(fs, AleLayer(p.remote), p, Permit) && MayAnswer(fs, TransportLayer(p.remote), p, Permit)
  }

  ghost predicate MayBeDropped(fs: iset<Filter>, p: Packet) {
    MayAnswer(fs, AleLayer(p.remote), p, Block) || MayAnswer(fs, TransportLayer(p.remote), p, Block)
  }

  /** The filters that the rules call for, all owners together. */
  ghost function FiltersFor(r: Rules): iset<Filter> { iset f | Wanted(r, f) }

  // ---------------------------------------------------------------------
  // The policy, stated without weights or layers
  // ---------------------------------------------------------------------

  predicate IsDns(p: Packet) { p.remotePort == 53 && (p.protocol == UDP || p.protocol == TCP) }

  predicate IsLoopback(p: Packet) { InNet(p.remote, LOOPBACK_V4) || InNet(p.remote, LOOPBACK_V6) }

  predicate IsDhcp(p: Packet) {
    && p.protocol == UDP
    && if p.remote.V4? then p.localPort == 68 && p.remotePort == 67 else p.localPort == 546 && p.remotePort == 547
  }

  predicate IsNeighbourDiscovery(p: Packet) { p.protocol == ICMPV6 && InNet(p.remote, LINK_LOCAL_V6) }

  predicate OnPermittedTunnel(r: Rules, p: Packet) {
    exists name :: name in r.tunnels && r.tunnels[name].luid == p.luid
  }

  predicate ToPermittedEndpoint(r: Rules, p: Packet) {
    p.protocol == UDP && exists name :: name in r.tunnels && p.remote in r.tunnels[name].endpoints
  }

  predicate Hits(t: Target, p: Packet) {
    p.protocol == UDP && p.remote == t.ip && (t.port == 0 || t.port == p.remotePort)
  }

  predicate GuardHits(g: LoopGuard, p: Packet) {
    p.luid == g.luid && exists i :: 0 <= i < |g.targets| && Hits(g.targets[i], p)
  }

  /** WireGuard's own traffic about to re-enter the tunnel it came out of. */
  predicate Loops(r: Rules, p: Packet) {
    exists name :: name in r.guards && GuardHits(r.guards[name], p)
  }

  predicate KillSwitchAllows(r: Rules, p: Packet) {
    IsLoopback(p) || IsDhcp(p) || IsNeighbourDiscovery(p) || OnPermittedTunnel(r, p) || ToPermittedEndpoint(r, p)
  }

  predicate Policy(r: Rules, p: Packet) {
    && !Loops(r, p)
    && if r.dns.Some? && IsDns(p) then p.remote in r.dns.value
       else r.killSwitch ==> KillSwitchAllows(r, p)
  }

  // ---------------------------------------------------------------------
  // Which filter of each owner a packet matches
  // ---------------------------------------------------------------------

  lemma HostNetIsTheHost(a: IP, b: IP)
    ensures InNet(a, Host(b)) <==> a == b
  {
  }

  lemma {:induction false} GuardMatches(targets: seq<Target>, luid: nat, f: Filter, p: Packet)
    requires f in GuardFilters(targets, luid)
    ensures f.action == Block && f.weight == 13
    ensures Matches(f, f.layer, p) ==> GuardHits(LoopGuard(luid, targets), p)
  {
    var n := |targets| - 1;
    if f in GuardFilters(targets[..n], luid) {
      GuardMatches(targets[..n], luid, f, p);
      if Matches(f, f.layer, p) {
        var i :| 0 <= i < n && Hits(targets[..n][i], p);
        assert Hits(targets[i], p);
      }
    } else {
      assert f in LoopBlocks(targets[n], luid);
      if Matches(f, f.layer, p) {
        LoopMatch(targets[n], luid, p);
      }
    }
  }

  lemma LoopMatch(t: Target, luid: nat, p: Packet)
    ensures AllHold(LoopConditions(t, luid), p) <==> Hits(t, p) && p.luid == luid
  {
    HostNetIsTheHost(p.remote, t.ip);
    var cs := LoopConditions(t, luid);
    if AllHold(cs, p) {
      assert Holds(cs[0], p) && Holds(cs[1], p) && Holds(cs[2], p);
      assert t.port != 0 ==> Holds(cs[3], p);
    }
  }

  lemma {:induction false} GuardCovers(targets: seq<Target>, luid: nat, i: nat, p: Packet, layer: Layer) returns (f: Filter)
    requires i < |targets| && Hits(targets[i], p) && p.luid == luid
    requires layer == AleLayer(p.remote) || layer == TransportLayer(p.remote)
    ensures f in GuardFilters(targets, luid) && Matches(f, layer, p) && f.weight == 13 && f.action == Block
  {
    var n := |targets| - 1;
    if i < n {
      f := GuardCovers(targets[..n], luid, i, p, layer);
    } else {
      LoopMatch(targets[n], luid, p);
      var blocks := LoopBlocks(targets[n], luid);
      f := if layer == AleLayer(p.remote) then blocks[0] else blocks[1];
      assert f in blocks;
    }
  }

  lemma {:induction false} DnsPermitMatches(servers: seq<IP>, f: Filter, p: Packet)
    requires f in DnsPermits(servers)
    ensures f.action == Permit && f.weight == 15 && (f.layer == AleV4 || f.layer == AleV6)
    ensures Matches(f, f.layer, p) ==> IsDns(p) && p.remote in servers
  {
    var n := |servers| - 1;
    if f in DnsPermits(servers[..n]) {
      DnsPermitMatches(servers[..n], f, p);
    } else {
      if Matches(f, f.layer, p) {
        assert Holds(f.conditions[0], p) && Holds(f.conditions[1], p) && Holds(f.conditions[2], p);
      }
      HostNetIsTheHost(p.remote, servers[n]);
    }
  }

  lemma {:induction false} DnsPermitCovers(servers: seq<IP>, p: Packet) returns (f: Filter)
    requires IsDns(p) && p.remote in servers
    ensures f in DnsPermits(servers) && Matches(f, AleLayer(p.remote), p) && f.weight == 15
  {
    var n := |servers| - 1;
    if p.remote == servers[n] {
      HostNetIsTheHost(p.remote, servers[n]);
      f := DnsPermit(p.remote, p.protocol);
    } else {
      f := DnsPermitCovers(servers[..n], p);
    }
  }

  lemma BaseMatches(f: Filter, p: Packet)
    requires f in BaseFilters()
    ensures f.layer == AleV4 || f.layer == AleV6
    ensures f.weight == 13 || f.weight == 12 || f.weight == 0
    ensures f.weight == 0 <==> f.action == Block
    ensures Matches(f, AleLayer(p.remote), p) && f.weight == 13 ==> IsLoopback(p)
    ensures Matches(f, AleLayer(p.remote), p) && f.weight == 12 ==> IsDhcp(p) || IsNeighbourDiscovery(p)
  {
    var cs := f.conditions;
    if Matches(f, AleLayer(p.remote), p) {
      assert |cs| > 0 ==> Holds(cs[0], p);
      assert |cs| > 1 ==> Holds(cs[1], p);
      assert |cs| > 2 ==> Holds(cs[2], p);
    }
  }

  lemma TunnelMatches(t: TunnelPermit, f: Filter, p: Packet)
    requires f in TunnelFilters(t)
    ensures f.action == Permit && f.weight == 12 && (f.layer == AleV4 || f.layer == AleV6)
    ensures Matches(f, AleLayer(p.remote), p) ==> t.luid == p.luid || (p.protocol == UDP && p.remote in t.endpoints)
  {
    var cs := f.conditions;
    if Matches(f, AleLayer(p.remote), p) {
      assert |cs| > 0 ==> Holds(cs[0], p);
      assert |cs| > 1 ==> Holds(cs[1], p);
    }
    if f !in InterfacePermits(t.luid) {
      var i :| 0 <= i < |t.endpoints| && f == EndpointPermit(t.endpoints[i]);
      HostNetIsTheHost(p.remote, t.endpoints[i]);
    }
  }

  /** What matching at the ALE layer says about the packet, weight by weight. */
  lemma AleMatches(r: Rules, f: Filter, p: Packet)
    requires Wanted(r, f) && Matches(f, AleLayer(p.remote), p)
    ensures f.weight == 15 ==> f.action == Permit && r.dns.Some? && IsDns(p) && p.remote in r.dns.value
    ensures f.weight == 14 ==> f.action == Block && r.dns.Some? && IsDns(p)
    ensures f.weight == 13 ==> if f.action == Permit then r.killSwitch && IsLoopback(p) else Loops(r, p)
    ensures f.weight == 12 ==> f.action == Permit && KillSwitchAllows(r, p)
    ensures f.weight == 0 ==> f.action == Block && r.killSwitch
    ensures f.weight in {0, 12, 13, 14, 15}
  {
    var o :| f in FiltersOf(r, o);
    match o
    case Base => BaseMatches(f, p);
    case Tunnel(name) => TunnelMatches(r.tunnels[name], f, p);
    case Guard(name) => GuardMatches(r.guards[name].targets, r.guards[name].luid, f, p);
    case Dns =>
      if f in DnsPermits(r.dns.value) {
        DnsPermitMatches(r.dns.value, f, p);
      } else {
        assert f in DnsBlocks();
        assert Holds(f.conditions[0], p) && Holds(f.conditions[1], p);
      }
  }

  /** Only the loop guards reach the transport layer. */
  lemma TransportMatches(r: Rules, f: Filter, p: Packet)
    requires Wanted(r, f) && Matches(f, TransportLayer(p.remote), p)
    ensures f.action == Block && f.weight == 13 && Loops(r, p)
  {
    var o :| f in FiltersOf(r, o);
    match o
    case Base => BaseMatches(f, p);
    case Tunnel(name) => TunnelMatches(r.tunnels[name], f, p);
    case Guard(name) => GuardMatches(r.guards[name].targets, r.guards[name].luid, f, p);
    case Dns =>
      if f in DnsPermits(r.dns.value) {
        DnsPermitMatches(r.dns.value, f, p);
      }
  }

  /** A looping packet meets a weight-13 block at both of its layers. */
  lemma LoopCovered(r: Rules, p: Packet, layer: Layer) returns (f: Filter)
    requires Loops(r, p)
    requires layer == AleLayer(p.remote) || layer == TransportLayer(p.remote)
    ensures Wanted(r, f) && Matches(f, layer, p) && f.weight == 13 && f.action == Block
  {
    var name :| name in r.guards && GuardHits(r.guards[name], p);
    var g := r.guards[name];
    var i :| 0 <= i < |g.targets| && Hits(g.targets[i], p);
    f := GuardCovers(g.targets, g.luid, i, p, layer);
    assert f in FiltersOf(r, Guard(name));
  }

  lemma DnsCovered(r: Rules, p: Packet) returns (f: Filter)
    requires r.dns.Some? && IsDns(p)
    ensures Wanted(r, f) && Matches(f, AleLayer(p.remote), p)
    ensures if p.remote in r.dns.value then f.weight == 15 else f.weight == 14
  {
    if p.remote in r.dns.value {
      f := DnsPermitCovers(r.dns.value, p);
    } else {
      f := DnsBlock(AleLayer(p.remote), p.protocol);
      assert f in DnsBlocks();
    }
    assert f in FiltersOf(r, Dns);
  }

  lemma TunnelCovered(r: Rules, p: Packet) returns (f: Filter)
    requires OnPermittedTunnel(r, p) || ToPermittedEndpoint(r, p)
    ensures Wanted(r, f) && Matches(f, AleLayer(p.remote), p) && f.weight == 12 && f.action == Permit
  {
    var name;
    if OnPermittedTunnel(r, p) {
      name :| name in r.tunnels && r.tunnels[name].luid == p.luid;
      f := InterfacePermits(p.luid)[if p.remote.V4? then 0 else 1];
    } else {
      name :| name in r.tunnels && p.remote in r.tunnels[name].endpoints;
      var i :| 0 <= i < |r.tunnels[name].endpoints| && r.tunnels[name].endpoints[i] == p.remote;
      f := EndpointPermit(p.remote);
      assert EndpointPermits(r.tunnels[name].endpoints)[i] == f;
      HostNetIsTheHost(p.remote, p.remote);
    }
    assert f in FiltersOf(r, Tunnel(name));
  }

  lemma BaseCovered(r: Rules, p: Packet) returns (f: Filter)
    requires r.killSwitch
    ensures Wanted(r, f) && Matches(f, AleLayer(p.remote), p)
    ensures if IsLoopback(p) then f.weight == 13 && f.action == Permit
            else if IsDhcp(p) || IsNeighbourDiscovery(p) then f.weight == 12 && f.action == Permit
            else f.weight == 0 && f.action == Block
  {
    var v4, base := p.remote.V4?, BaseFilters();
    if IsLoopback(p) {
      f := if v4 then base[0] else base[1];
    } else if IsDhcp(p) {
      f := if v4 then base[2] else base[3];
    } else if IsNeighbourDiscovery(p) {
      f := base[4];
    } else {
      f := if v4 then base[5] else base[6];
    }
    assert f in FiltersOf(r, Base);
  }

  lemma KillSwitchCovered(r: Rules, p: Packet) returns (f: Filter)
    requires r.killSwitch
    ensures Wanted(r, f) && Matches(f, AleLayer(p.remote), p)
    ensures if IsLoopback(p) then f.weight == 13 && f.action == Permit
            else if KillSwitchAllows(r, p) then f.weight == 12 && f.action == Permit
            else f.weight == 0 && f.action == Block
  {
    if !IsLoopback(p) && (OnPermittedTunnel(r, p) || ToPermittedEndpoint(r, p)) {
      f := TunnelCovered(r, p);
    } else {
      f := BaseCovered(r, p);
    }
  }

  lemma DecidesByWeight(r: Rules, layer: Layer, p: Packet, f: Filter)
    requires Wanted(r, f) && Matches(f, layer, p)
    requires forall g :: Wanted(r, g) && Matches(g, layer, p) ==> g.weight <= f.weight
    ensures MayAnswer(FiltersFor(r), layer, p, f.action)
  {
    assert Decides(FiltersFor(r), layer, p, f);
  }

  /** The transport layer answers Block exactly on looping packets. */
  lemma TransportAnswer(r: Rules, p: Packet)
    ensures MayAnswer(FiltersFor(r), TransportLayer(p.remote), p, Block) <==> Loops(r, p)
    ensures MayAnswer(FiltersFor(r), TransportLayer(p.remote), p, Permit) <==> !Loops(r, p)
  {
    var layer := TransportLayer(p.remote);
    forall f | Wanted(r, f) && Matches(f, layer, p) ensures f.action == Block && f.weight == 13 && Loops(r, p) {
      TransportMatches(r, f, p);
    }
    if Loops(r, p) {
      var f := LoopCovered(r, p, layer);
      DecidesByWeight(r, layer, p, f);
    }
  }

  /** Off the loop, the ALE layer has one answer, and it is the policy's. */
  lemma AleAnswer(r: Rules, p: Packet)
    requires !Loops(r, p)
    ensures MayAnswer(FiltersFor(r), AleLayer(p.remote), p, Permit) <==> Policy(r, p)
    ensures MayAnswer(FiltersFor(r), AleLayer(p.remote), p, Block) <==> !Policy(r, p)
  {
    var layer := AleLayer(p.remote);
    forall f | Wanted(r, f) && Matches(f, layer, p)
      ensures f.weight == 15 ==> f.action == Permit && r.dns.Some? && IsDns(p) && p.remote in r.dns.value
      ensures f.weight == 14 ==> f.action == Block && r.dns.Some? && IsDns(p)
      ensures f.weight == 13 ==> f.action == Permit && r.killSwitch && IsLoopback(p)
      ensures f.weight == 12 ==> f.action == Permit && KillSwitchAllows(r, p)
      ensures f.weight == 0 ==> f.action == Block && r.killSwitch
      ensures f.weight in {0, 12, 13, 14, 15}
    {
      AleMatches(r, f, p);
    }
    if r.dns.Some? && IsDns(p) {
      var f := DnsCovered(r, p);
      DecidesByWeight(r, layer, p, f);
    } else if r.killSwitch {
      var f := KillSwitchCovered(r, p);
      DecidesByWeight(r, layer, p, f);
    } else {
      // Only weight 12 can match here, and all of it permits.
      if f :| Wanted(r, f) && Matches(f, layer, p) {
        DecidesByWeight(r, layer, p, f);
      }
    }
  }

  /** The main theorem: whichever way ties between equal weights are broken,
      the filters let a packet out exactly when the policy does. */
  lemma FiltersComputePolicy(r: Rules, p: Packet)
    ensures MayLeave(FiltersFor(r), p) <==> Policy(r, p)
    ensures MayBeDropped(FiltersFor(r), p) <==> !Policy(r, p)
  {
    TransportAnswer(r, p);
    if !Loops(r, p) {
      AleAnswer(r, p);
    }
  }

  /** The tie is real: at the ALE layer alone a protected loopback endpoint has
      two possible answers. Only the transport-layer copy settles it. */
  lemma LoopbackTie(luid: nat) returns (r: Rules, p: Packet)
    ensures MayAnswer(FiltersFor(r), AleLayer(p.remote), p, Permit) && MayAnswer(FiltersFor(r), AleLayer(p.remote), p, Block)
    ensures !MayLeave(FiltersFor(r), p)
  {
    var ip := V6(1);
    p := Packet(ip, UDP, 1, 51820, luid);
    r := Rules(true, map[], map["wg" := LoopGuard(luid, [Target(ip, 51820)])], None);
    assert Hits(r.guards["wg"].targets[0], p);
    var block := LoopCovered(r, p, AleV6);
    var permit := KillSwitchCovered(r, p);
    forall f | Wanted(r, f) && Matches(f, AleV6, p) ensures f.weight <= 13 {
      AleMatches(r, f, p);
    }
    DecidesByWeight(r, AleV6, p, block);
    DecidesByWeight(r, AleV6, p, permit);
    FiltersComputePolicy(r, p);
  }
}
