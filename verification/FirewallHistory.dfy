/** The policy said of the calls alone: what a run of calls without failures lets
    out, told from which call was made last, without rules, filters or weights. */
module FirewallHistory {
  import opened Wrappers
  import opened WfpPolicy
  import opened FirewallSteps

  // ---------------------------------------------------------------------
  // The kill switch
  // ---------------------------------------------------------------------

  predicate TurnsOn(env: Env, op: Op) {
    op.EnableKillSwitch? && (op.tunnel == "" || env.luid(op.tunnel).Some?)
  }

  predicate TurnsOff(op: Op) { op == DisableKillSwitch || op == Cleanup }

  ghost predicate TurnedOnAt(env: Env, ops: seq<Op>, i: nat) {
    i < |ops| && TurnsOn(env, ops[i]) && forall j :: i < j < |ops| ==> !TurnsOff(ops[j])
  }

  /** The kill switch was turned on and not off since. */
  ghost predicate On(env: Env, ops: seq<Op>) { exists i: nat :: TurnedOnAt(env, ops, i) }

  lemma OnStep(env: Env, ops: seq<Op>, op: Op)
    ensures On(env, ops + [op]) <==> TurnsOn(env, op) || (On(env, ops) && !TurnsOff(op))
  {
    var all := ops + [op];
    if i: nat :| TurnedOnAt(env, all, i) {
      if i < |ops| {
        assert forall j :: i < j < |ops| ==> all[j] == ops[j];
        assert all[|ops|] == op && TurnedOnAt(env, ops, i);
      }
    }
    if TurnsOn(env, op) {
      assert TurnedOnAt(env, all, |ops|);
    } else if i: nat :| TurnedOnAt(env, ops, i) && !TurnsOff(op) {
      assert TurnedOnAt(env, all, i);
    }
  }

  // ---------------------------------------------------------------------
  // Tunnels
  // ---------------------------------------------------------------------

  /** The call permits a tunnel, unless it is permitted already. */
  ghost predicate Adds(env: Env, before: seq<Op>, op: Op, name: string, eps: seq<string>) {
    && name != "" && env.luid(name).Some?
    && (op == EnableKillSwitch(name, eps) || (op == AddTunnel(name, eps) && On(env, before)))
  }

  predicate Removes(op: Op, name: string) { op == RemoveTunnel(name) || TurnsOff(op) }

  ghost predicate AddedAt(env: Env, ops: seq<Op>, name: string, eps: seq<string>, i: nat) {
    i < |ops| && Adds(env, ops[..i], ops[i], name, eps) && forall j :: i < j < |ops| ==> !Removes(ops[j], name)
  }

  /** The tunnel was added and not removed since. */
  ghost predicate Added(env: Env, ops: seq<Op>, name: string) { exists eps, i: nat :: AddedAt(env, ops, name, eps, i) }

  /** It was added with these endpoints: the first call to add it counts. */
  ghost predicate AddedWith(env: Env, ops: seq<Op>, name: string, eps: seq<string>) {
    exists i: nat :: AddedAt(env, ops, name, eps, i) && !Added(env, ops[..i], name)
  }

  lemma PrefixOf(ops: seq<Op>, op: Op, i: nat)
    requires i <= |ops|
    ensures (ops + [op])[..i] == ops[..i] && (ops + [op])[|ops|] == op && (i < |ops| ==> (ops + [op])[i] == ops[i])
    ensures (ops + [op])[..|ops|] == ops
  {
  }

  lemma AddedAtStep(env: Env, ops: seq<Op>, op: Op, name: string, eps: seq<string>, i: nat)
    ensures AddedAt(env, ops + [op], name, eps, i) <==>
            (i == |ops| && Adds(env, ops, op, name, eps)) || (AddedAt(env, ops, name, eps, i) && !Removes(op, name))
  {
    if i <= |ops| {
      PrefixOf(ops, op, i);
    }
    if i < |ops| {
      assert forall j :: i < j < |ops| ==> (ops + [op])[j] == ops[j];
    }
  }

  lemma AddedStep(env: Env, ops: seq<Op>, op: Op, name: string)
    ensures Added(env, ops + [op], name) <==>
            (exists eps :: Adds(env, ops, op, name, eps)) || (Added(env, ops, name) && !Removes(op, name))
  {
    if eps, i: nat :| AddedAt(env, ops + [op], name, eps, i) {
      AddedAtStep(env, ops, op, name, eps, i);
    }
    if eps :| Adds(env, ops, op, name, eps) {
      AddedAtStep(env, ops, op, name, eps, |ops|);
    }
    if eps, i: nat :| AddedAt(env, ops, name, eps, i) {
      AddedAtStep(env, ops, op, name, eps, i);
    }
  }

  lemma AddedWithStep(env: Env, ops: seq<Op>, op: Op, name: string, eps: seq<string>)
    ensures AddedWith(env, ops + [op], name, eps) <==>
            (Adds(env, ops, op, name, eps) && !Added(env, ops, name)) || (AddedWith(env, ops, name, eps) && !Removes(op, name))
  {
    if i: nat :| AddedAt(env, ops + [op], name, eps, i) && !Added(env, (ops + [op])[..i], name) {
      AddedAtStep(env, ops, op, name, eps, i);
      PrefixOf(ops, op, i);
    }
    if Adds(env, ops, op, name, eps) && !Added(env, ops, name) {
      AddedAtStep(env, ops, op, name, eps, |ops|);
      PrefixOf(ops, op, |ops|);
    }
    if i: nat :| AddedAt(env, ops, name, eps, i) && !Added(env, ops[..i], name) {
      AddedAtStep(env, ops, op, name, eps, i);
      PrefixOf(ops, op, i);
    }
  }

  // ---------------------------------------------------------------------
  // Loop protection
  // ---------------------------------------------------------------------

  predicate Guards(op: Op, name: string, eps: seq<string>) { op == EnableGuard(name, eps) && name != "" && eps != [] }

  /** Replaced, removed, or gone with the session that disabling DNS protection
      closes while the kill switch is off. */
  ghost predicate Unguards(env: Env, before: seq<Op>, op: Op, name: string) {
    || (op.EnableGuard? && op.tunnel == name && op.endpoints != [])
    || op == DisableGuard(name) || op == Cleanup || (op == DisableDns && !On(env, before))
  }

  ghost predicate GuardedAt(env: Env, ops: seq<Op>, name: string, eps: seq<string>, i: nat) {
    i < |ops| && Guards(ops[i], name, eps) && forall j :: i < j < |ops| ==> !Unguards(env, ops[..j], ops[j], name)
  }

  /** The last call about this tunnel's protection gave these endpoints. */
  ghost predicate GuardedWith(env: Env, ops: seq<Op>, name: string, eps: seq<string>) {
    exists i: nat :: GuardedAt(env, ops, name, eps, i)
  }

  lemma GuardedAtStep(env: Env, ops: seq<Op>, op: Op, name: string, eps: seq<string>, i: nat)
    ensures GuardedAt(env, ops + [op], name, eps, i) <==>
            (i == |ops| && Guards(op, name, eps)) || (GuardedAt(env, ops, name, eps, i) && !Unguards(env, ops, op, name))
  {
    if i <= |ops| {
      PrefixOf(ops, op, i);
    }
    if i < |ops| {
      forall j | i < j < |ops|
        ensures (ops + [op])[..j] == ops[..j] && (ops + [op])[j] == ops[j]
      {
        PrefixOf(ops, op, j);
      }
    }
  }

  lemma GuardedWithStep(env: Env, ops: seq<Op>, op: Op, name: string, eps: seq<string>)
    ensures GuardedWith(env, ops + [op], name, eps) <==>
            Guards(op, name, eps) || (GuardedWith(env, ops, name, eps) && !Unguards(env, ops, op, name))
  {
    if i: nat :| GuardedAt(env, ops + [op], name, eps, i) {
      GuardedAtStep(env, ops, op, name, eps, i);
    }
    if Guards(op, name, eps) {
      GuardedAtStep(env, ops, op, name, eps, |ops|);
    }
    if i: nat :| GuardedAt(env, ops, name, eps, i) {
      GuardedAtStep(env, ops, op, name, eps, i);
    }
  }

  // ---------------------------------------------------------------------
  // DNS protection
  // ---------------------------------------------------------------------

  predicate Serves(op: Op, servers: seq<string>) { op == EnableDns(servers) && servers != [] }

  ghost predicate SomeParse(env: Env, servers: seq<string>) { exists k :: 0 <= k < |servers| && env.parseIP(servers[k]).Some? }

  /** A list of which nothing parsed does not outlive the kill switch. */
  ghost predicate Unserves(env: Env, op: Op, servers: seq<string>) {
    || (op.EnableDns? && op.servers != []) || op == DisableDns || op == Cleanup
    || (op == DisableKillSwitch && !SomeParse(env, servers))
  }

  ghost predicate ServedAt(env: Env, ops: seq<Op>, servers: seq<string>, i: nat) {
    i < |ops| && Serves(ops[i], servers) && forall j :: i < j < |ops| ==> !Unserves(env, ops[j], servers)
  }

  ghost predicate ServedWith(env: Env, ops: seq<Op>, servers: seq<string>) { exists i: nat :: ServedAt(env, ops, servers, i) }

  lemma ServedAtStep(env: Env, ops: seq<Op>, op: Op, servers: seq<string>, i: nat)
    ensures ServedAt(env, ops + [op], servers, i) <==>
            (i == |ops| && Serves(op, servers)) || (ServedAt(env, ops, servers, i) && !Unserves(env, op, servers))
  {
    if i <= |ops| {
      PrefixOf(ops, op, i);
    }
    if i < |ops| {
      assert forall j :: i < j < |ops| ==> (ops + [op])[j] == ops[j];
    }
  }

  lemma ServedWithStep(env: Env, ops: seq<Op>, op: Op, servers: seq<string>)
    ensures ServedWith(env, ops + [op], servers) <==>
            Serves(op, servers) || (ServedWith(env, ops, servers) && !Unserves(env, op, servers))
  {
    if i: nat :| ServedAt(env, ops + [op], servers, i) {
      ServedAtStep(env, ops, op, servers, i);
    }
    if Serves(op, servers) {
      ServedAtStep(env, ops, op, servers, |ops|);
    }
    if i: nat :| ServedAt(env, ops, servers, i) {
      ServedAtStep(env, ops, op, servers, i);
    }
  }

  // ---------------------------------------------------------------------
  // What addresses and endpoints say
  // ---------------------------------------------------------------------

  /** One of the texts is the address. */
  ghost predicate Lists(env: Env, ss: seq<string>, ip: IP) { exists k :: 0 <= k < |ss| && env.parseIP(ss[k]) == Some(ip) }

  lemma {:induction false} ParsedAre(env: Env, ss: seq<string>, ip: IP)
    ensures ip in env.ParseAll(ss) <==> Lists(env, ss, ip)
    ensures env.ParseAll(ss) != [] <==> SomeParse(env, ss)
    decreases |ss|
  {
    if ss != [] {
      var before, n := ss[..|ss| - 1], |ss| - 1;
      ParsedAre(env, before, ip);
      assert forall k :: 0 <= k < n ==> before[k] == ss[k];
      assert env.parseIP(ss[n]) == Some(ip) ==> Lists(env, ss, ip);
      assert env.parseIP(ss[n]).Some? ==> SomeParse(env, ss);
    }
  }

  /** The address that an endpoint gives: of its host, or of the whole text. */
  predicate IsHostOf(env: Env, ep: string, ip: IP) {
    var (host, port) := env.splitHostPort(ep);
    env.parseIP(if host == "" then ep else host) == Some(ip)
  }

  /** Without a host there is no port, and no port or port zero means any. */
  predicate IsPortOf(env: Env, ep: string, port: nat) {
    var (host, text) := env.splitHostPort(ep);
    host != "" && text != "" ==> env.parsePort(text) == Some(0) || env.parsePort(text) == Some(port)
  }

  ghost predicate GivesHost(env: Env, eps: seq<string>, ip: IP) { exists k :: 0 <= k < |eps| && IsHostOf(env, eps[k], ip) }

  ghost predicate GivesPeer(env: Env, eps: seq<string>, ip: IP, port: nat) {
    exists k :: 0 <= k < |eps| && IsHostOf(env, eps[k], ip) && IsPortOf(env, eps[k], port)
  }

  /** Some endpoint can be read. */
  ghost predicate SomeReadable(env: Env, eps: seq<string>) { exists ip, port :: GivesPeer(env, eps, ip, port) }

  lemma HostsAre(env: Env, eps: seq<string>, ip: IP)
    ensures ip in env.ParseAll(env.Hosts(eps)) <==> GivesHost(env, eps, ip)
  {
    var hosts := env.Hosts(eps);
    ParsedAre(env, hosts, ip);
    if k :| 0 <= k < |hosts| && env.parseIP(hosts[k]) == Some(ip) {
      assert IsHostOf(env, eps[k], ip);
    }
    if k :| 0 <= k < |eps| && IsHostOf(env, eps[k], ip) {
      assert env.parseIP(hosts[k]) == Some(ip);
    }
  }

  ghost predicate SomeHit(targets: seq<Target>, p: Packet) { exists i: nat :: 0 <= i < |targets| && Hits(targets[i], p) }

  lemma TargetIs(env: Env, ep: string, p: Packet)
    requires p.protocol == 17
    ensures (env.TargetOf(ep).Some? && Hits(env.TargetOf(ep).value, p)) <==>
            IsHostOf(env, ep, p.remote) && IsPortOf(env, ep, p.remotePort)
  {
  }

  lemma SomeHitMore(targets: seq<Target>, t: Target, p: Packet)
    ensures SomeHit(targets + [t], p) <==> SomeHit(targets, p) || Hits(t, p)
  {
    if Hits(t, p) {
      assert (targets + [t])[|targets|] == t;
    }
    if i: nat :| 0 <= i < |targets| && Hits(targets[i], p) {
      assert (targets + [t])[i] == targets[i];
    }
  }

  lemma {:induction false} TargetsAre(env: Env, eps: seq<string>, p: Packet)
    requires p.protocol == 17
    ensures SomeHit(env.Targets(eps), p) <==> GivesPeer(env, eps, p.remote, p.remotePort)
    decreases |eps|
  {
    if eps != [] {
      var before, n := eps[..|eps| - 1], |eps| - 1;
      TargetsAre(env, before, p);
      TargetIs(env, eps[n], p);
      var t := env.TargetOf(eps[n]);
      if t.Some? {
        SomeHitMore(env.Targets(before), t.value, p);
      }
      assert forall k :: 0 <= k < n ==> before[k] == eps[k];
    }
  }

  lemma {:induction false} ReadableAre(env: Env, eps: seq<string>)
    ensures env.Targets(eps) != [] <==> SomeReadable(env, eps)
  {
    if env.Targets(eps) != [] {
      var t := env.Targets(eps)[0];
      var p := Packet(t.ip, 17, 0, t.port, 0);
      assert Hits(env.Targets(eps)[0], p);
      TargetsAre(env, eps, p);
    }
    if ip, port :| GivesPeer(env, eps, ip, port) {
      TargetsAre(env, eps, Packet(ip, 17, 0, port, 0));
    }
  }

  // ---------------------------------------------------------------------
  // The rules after a run
  // ---------------------------------------------------------------------

  ghost predicate TunnelIs(env: Env, ops: seq<Op>, r: Rules, name: string) {
    && (name in r.tunnels <==> Added(env, ops, name))
    && (forall eps :: AddedWith(env, ops, name, eps) ==>
          env.luid(name).Some? && name in r.tunnels && r.tunnels[name] == env.PermitFor(name, eps))
    && (name in r.tunnels ==> exists eps :: AddedWith(env, ops, name, eps))
  }

  ghost predicate GuardIs(env: Env, ops: seq<Op>, r: Rules, name: string) {
    && (name in r.guards ==> exists eps :: GuardedWith(env, ops, name, eps))
    && (forall eps :: GuardedWith(env, ops, name, eps) ==>
          && (name in r.guards <==> env.luid(name).Some? && env.Targets(eps) != [])
          && (name in r.guards ==> r.guards[name] == env.GuardFor(name, eps)))
  }

  ghost predicate DnsIs(env: Env, ops: seq<Op>, r: Rules) {
    && (r.dns.Some? ==> exists servers :: ServedWith(env, ops, servers))
    && (forall servers :: ServedWith(env, ops, servers) ==> r.dns == Some(env.ParseAll(servers)))
  }

  ghost predicate SwitchIs(env: Env, ops: seq<Op>, r: Rules) {
    r.killSwitch == On(env, ops) && (!r.killSwitch ==> r.tunnels == map[])
  }

  ghost predicate RulesAre(env: Env, ops: seq<Op>, r: Rules) {
    && SwitchIs(env, ops, r) && DnsIs(env, ops, r)
    && (forall name :: TunnelIs(env, ops, r, name)) && (forall name :: GuardIs(env, ops, r, name))
  }

  lemma SwitchStep(env: Env, ops: seq<Op>, op: Op, r: Rules)
    requires SwitchIs(env, ops, r)
    ensures SwitchIs(env, ops + [op], Next(env, r, op).0)
  {
    OnStep(env, ops, op);
  }

  /** What a call does to the permit of one tunnel. */
  lemma OneTunnel(env: Env, ops: seq<Op>, op: Op, r: Rules, name: string)
    requires SwitchIs(env, ops, r) && (name in r.tunnels <==> Added(env, ops, name))
    ensures var r' := Next(env, r, op).0;
            && (Removes(op, name) ==> name !in r'.tunnels)
            && (!Removes(op, name) && name in r.tunnels ==> name in r'.tunnels && r'.tunnels[name] == r.tunnels[name])
            && (!Removes(op, name) && name !in r.tunnels ==>
                  (name in r'.tunnels <==> exists eps :: Adds(env, ops, op, name, eps)))
            && (forall eps :: name !in r.tunnels && Adds(env, ops, op, name, eps) ==>
                  name in r'.tunnels && r'.tunnels[name] == env.PermitFor(name, eps))
            && (forall eps :: Adds(env, ops, op, name, eps) ==> !Removes(op, name))
  {
    if op.EnableKillSwitch? || op.AddTunnel? {
      AddsOwn(env, ops, op, name);
    }
  }

  lemma TunnelStep(env: Env, ops: seq<Op>, op: Op, r: Rules, name: string)
    requires SwitchIs(env, ops, r) && TunnelIs(env, ops, r, name)
    ensures TunnelIs(env, ops + [op], Next(env, r, op).0, name)
  {
    var r' := Next(env, r, op).0;
    OneTunnel(env, ops, op, r, name);
    AddedStep(env, ops, op, name);
    forall eps
      ensures AddedWith(env, ops + [op], name, eps) <==>
              (Adds(env, ops, op, name, eps) && !Added(env, ops, name)) || (AddedWith(env, ops, name, eps) && !Removes(op, name))
    {
      AddedWithStep(env, ops, op, name, eps);
    }
  }

  lemma AddsOwn(env: Env, ops: seq<Op>, op: Op, name: string)
    requires op.EnableKillSwitch? || op.AddTunnel?
    ensures (exists eps :: Adds(env, ops, op, name, eps)) <==> Adds(env, ops, op, name, op.endpoints)
  {
  }

  lemma OneGuard(env: Env, ops: seq<Op>, op: Op, r: Rules, name: string)
    requires SwitchIs(env, ops, r) && name != ""
    ensures var r' := Next(env, r, op).0;
            && (!Unguards(env, ops, op, name) ==> (name in r'.guards <==> name in r.guards)
                                                  && (name in r.guards ==> r'.guards[name] == r.guards[name]))
            && (Unguards(env, ops, op, name) && name in r'.guards ==> op.EnableGuard? && Guards(op, name, op.endpoints))
            && (forall eps :: Guards(op, name, eps) ==>
                  && (name in r'.guards <==> env.luid(name).Some? && env.Targets(eps) != [])
                  && (name in r'.guards ==> r'.guards[name] == env.GuardFor(name, eps)))
  {
  }

  lemma GuardStep(env: Env, ops: seq<Op>, op: Op, r: Rules, name: string)
    requires SwitchIs(env, ops, r) && GuardIs(env, ops, r, name)
    ensures GuardIs(env, ops + [op], Next(env, r, op).0, name)
  {
    forall eps
      ensures GuardedWith(env, ops + [op], name, eps) <==>
              Guards(op, name, eps) || (GuardedWith(env, ops, name, eps) && !Unguards(env, ops, op, name))
      ensures Guards(op, name, eps) ==> Unguards(env, ops, op, name)
    {
      GuardedWithStep(env, ops, op, name, eps);
    }
    if name != "" {
      OneGuard(env, ops, op, r, name);
    }
  }

  /** What a call does to DNS protection by some servers, or to none. */
  lemma OneDns(env: Env, op: Op, r: Rules, servers: seq<string>)
    requires !op.EnableDns? || op.servers == []
    ensures r.dns == None ==> Next(env, r, op).0.dns == None
    ensures r.dns == Some(env.ParseAll(servers)) ==>
              Next(env, r, op).0.dns == if Unserves(env, op, servers) then None else r.dns
  {
    ParsedAre(env, servers, V4(0));
  }

  lemma DnsStep(env: Env, ops: seq<Op>, op: Op, r: Rules)
    requires DnsIs(env, ops, r)
    ensures DnsIs(env, ops + [op], Next(env, r, op).0)
  {
    forall servers
      ensures ServedWith(env, ops + [op], servers) <==>
              Serves(op, servers) || (ServedWith(env, ops, servers) && !Unserves(env, op, servers))
    {
      ServedWithStep(env, ops, op, servers);
    }
    if op.EnableDns? && op.servers != [] {
      assert Serves(op, op.servers);
    } else {
      forall servers
        ensures r.dns == None ==> Next(env, r, op).0.dns == None
        ensures r.dns == Some(env.ParseAll(servers)) ==>
                  Next(env, r, op).0.dns == if Unserves(env, op, servers) then None else r.dns
      {
        OneDns(env, op, r, servers);
      }
      OneDns(env, op, r, []);
    }
  }

  lemma {:induction false} RulesAfter(env: Env, ops: seq<Op>)
    ensures RulesAre(env, ops, NextAll(env, NO_RULES, ops))
    decreases |ops|
  {
    if ops != [] {
      var before, op := ops[..|ops| - 1], ops[|ops| - 1];
      var r := NextAll(env, NO_RULES, before);
      RulesAfter(env, before);
      assert before + [op] == ops;
      SwitchStep(env, before, op, r);
      DnsStep(env, before, op, r);
      forall name
        ensures TunnelIs(env, ops, Next(env, r, op).0, name) && GuardIs(env, ops, Next(env, r, op).0, name)
      {
        TunnelStep(env, before, op, r, name);
        GuardStep(env, before, op, r, name);
      }
    }
  }

  // ---------------------------------------------------------------------
  // The policy of a run
  // ---------------------------------------------------------------------

  /** WireGuard's own traffic, over the tunnel that it is to keep out of. */
  ghost predicate Stopped(env: Env, ops: seq<Op>, p: Packet) {
    p.protocol == 17 && exists name, eps :: GuardedWith(env, ops, name, eps) && env.luid(name) == Some(p.luid)
                                            && GivesPeer(env, eps, p.remote, p.remotePort)
  }

  predicate IsQuery(p: Packet) { p.remotePort == 53 && (p.protocol == 17 || p.protocol == 6) }

  /** 127.0.0.0/8 and ::1, DHCP in both families, and ICMPv6 to fe80::/10. */
  predicate IsBasic(p: Packet) {
    match p.remote
    case V4(a) => a / 0x100_0000 == 127 || (p.protocol == 17 && p.localPort == 68 && p.remotePort == 67)
    case V6(a) =>
      || a == 1 || (p.protocol == 17 && p.localPort == 546 && p.remotePort == 547)
      || (p.protocol == 58 && 0xFE80_0000_0000_0000_0000_0000_0000_0000 <= a < 0xFEC0_0000_0000_0000_0000_0000_0000_0000)
  }

  ghost predicate ForAddedTunnel(env: Env, ops: seq<Op>, p: Packet) {
    exists name, eps :: AddedWith(env, ops, name, eps)
                        && (env.luid(name) == Some(p.luid) || (p.protocol == 17 && GivesHost(env, eps, p.remote)))
  }

  ghost predicate Served(env: Env, ops: seq<Op>) { exists servers :: ServedWith(env, ops, servers) }

  ghost predicate ToServer(env: Env, ops: seq<Op>, p: Packet) {
    exists servers :: ServedWith(env, ops, servers) && Lists(env, servers, p.remote)
  }

  ghost predicate Allowed(env: Env, ops: seq<Op>, p: Packet) {
    && !Stopped(env, ops, p)
    && (if Served(env, ops) && IsQuery(p) then ToServer(env, ops, p)
        else On(env, ops) ==> IsBasic(p) || ForAddedTunnel(env, ops, p))
  }

  lemma StoppedIs(env: Env, ops: seq<Op>, r: Rules, p: Packet)
    requires RulesAre(env, ops, r)
    ensures Loops(r, p) <==> Stopped(env, ops, p)
  {
    if name :| name in r.guards && GuardHits(r.guards[name], p) {
      assert GuardIs(env, ops, r, name);
      var eps :| GuardedWith(env, ops, name, eps);
      assert SomeHit(env.Targets(eps), p);
      TargetsAre(env, eps, p);
    }
    if p.protocol == 17 {
      if name, eps :| GuardedWith(env, ops, name, eps) && env.luid(name) == Some(p.luid)
                      && GivesPeer(env, eps, p.remote, p.remotePort) {
        TargetsAre(env, eps, p);
        assert GuardIs(env, ops, r, name);
        assert SomeHit(r.guards[name].targets, p);
        assert GuardHits(r.guards[name], p);
      }
    }
  }

  lemma TunnelTrafficIs(env: Env, ops: seq<Op>, r: Rules, p: Packet)
    requires RulesAre(env, ops, r)
    ensures OnPermittedTunnel(r, p) || ToPermittedEndpoint(r, p) <==> ForAddedTunnel(env, ops, p)
  {
    forall eps ensures p.remote in env.ParseAll(env.Hosts(eps)) <==> GivesHost(env, eps, p.remote) {
      HostsAre(env, eps, p.remote);
    }
    if name :| name in r.tunnels && (r.tunnels[name].luid == p.luid || (p.protocol == 17 && p.remote in r.tunnels[name].endpoints)) {
      assert TunnelIs(env, ops, r, name);
      var eps :| AddedWith(env, ops, name, eps);
    }
    if name, eps :| AddedWith(env, ops, name, eps)
                    && (env.luid(name) == Some(p.luid) || (p.protocol == 17 && GivesHost(env, eps, p.remote))) {
      assert TunnelIs(env, ops, r, name);
    }
  }

  lemma {:induction false} Pow2Add(m: nat, n: nat)
    ensures Pow2(m + n) == Pow2(m) * Pow2(n)
    decreases n
  {
    if n > 0 {
      Pow2Add(m, n - 1);
      assert Pow2(m + n) == 2 * Pow2(m + (n - 1));
    }
  }

  lemma Power(m: nat, n: nat, x: nat, y: nat, k: nat)
    requires Pow2(m) == x && Pow2(n) == y && k == m + n
    ensures Pow2(k) == x * y
  {
    Pow2Add(m, n);
  }

  lemma PowersAre(a: nat, b: nat)
    requires a == 24 && b == 118
    ensures Pow2(a) == 0x100_0000 && Pow2(b) == 0x40_0000_0000_0000_0000_0000_0000_0000
  {
    var n6, n8, n16, n32, n64, n96, n112 := 6, 8, 16, 32, 64, 96, 112;
    assert Pow2(6) == 0x40 && Pow2(8) == 0x100;
    Power(n8, n8, 0x100, 0x100, n16);
    Power(n16, n8, 0x1_0000, 0x100, a);
    Power(n16, n16, 0x1_0000, 0x1_0000, n32);
    Power(n32, n32, 0x1_0000_0000, 0x1_0000_0000, n64);
    Power(n64, n32, 0x1_0000_0000_0000_0000, 0x1_0000_0000, n96);
    Power(n96, n16, 0x1_0000_0000_0000_0000_0000_0000, 0x1_0000, n112);
    Power(n112, n6, 0x1_0000_0000_0000_0000_0000_0000_0000, 0x40, b);
  }

  lemma BasicIs(p: Packet)
    ensures IsBasic(p) <==> IsLoopback(p) || WfpPolicy.IsDhcp(p) || IsNeighbourDiscovery(p)
  {
    PowersAre(LOOPBACK_V4.hostBits, LINK_LOCAL_V6.hostBits);
    assert Pow2(0) == 1;
  }

  lemma DnsAnswerIs(env: Env, ops: seq<Op>, r: Rules, p: Packet)
    requires RulesAre(env, ops, r)
    ensures r.dns.Some? <==> Served(env, ops)
    ensures r.dns.Some? ==> (p.remote in r.dns.value <==> ToServer(env, ops, p))
  {
    forall servers ensures p.remote in env.ParseAll(servers) <==> Lists(env, servers, p.remote) {
      ParsedAre(env, servers, p.remote);
    }
  }

  /** After every run without failures a packet may leave exactly when the calls
      of the run, told from the last ones of each kind, let it. */
  lemma PolicyIsHistory(env: Env, ops: seq<Op>, p: Packet)
    ensures Policy(NextAll(env, NO_RULES, ops), p) <==> Allowed(env, ops, p)
  {
    var r := NextAll(env, NO_RULES, ops);
    RulesAfter(env, ops);
    StoppedIs(env, ops, r, p);
    TunnelTrafficIs(env, ops, r, p);
    BasicIs(p);
    DnsAnswerIs(env, ops, r, p);
  }

  /** The calls that return an error. */
  ghost predicate Refused(env: Env, before: seq<Op>, op: Op) {
    match op
    case EnableKillSwitch(name, eps) => name != "" && env.luid(name).None?
    case AddTunnel(name, eps) => On(env, before) && (name == "" || env.luid(name).None?)
    case EnableGuard(name, eps) => name == "" || (eps != [] && (env.luid(name).None? || !SomeReadable(env, eps)))
    case _ => false
  }

  lemma RefusedExactlyWhen(env: Env, before: seq<Op>, op: Op)
    ensures !Next(env, NextAll(env, NO_RULES, before), op).1 <==> Refused(env, before, op)
  {
    var r := NextAll(env, NO_RULES, before);
    RulesAfter(env, before);
    if op.EnableGuard? {
      ReadableAre(env, op.endpoints);
    }
    if op.EnableKillSwitch? || op.AddTunnel? {
      assert TunnelIs(env, before, r, op.tunnel);
      if op.tunnel in r.tunnels {
        var eps :| AddedWith(env, before, op.tunnel, eps);
      }
    }
  }

  /** A peer's endpoint of a call that is still in force: a packet to it on the
      tunnel cannot leave, by its own port or, without one, by any. */
  lemma PeerIsStopped(env: Env, before: seq<Op>, name: string, eps: seq<string>, after: seq<Op>, k: nat, p: Packet)
    requires name != "" && k < |eps| && env.luid(name) == Some(p.luid) && p.protocol == 17
    requires IsHostOf(env, eps[k], p.remote) && IsPortOf(env, eps[k], p.remotePort)
    requires var ops := before + [EnableGuard(name, eps)] + after;
             forall j :: |before| < j < |ops| ==> !Unguards(env, ops[..j], ops[j], name)
    ensures !Policy(NextAll(env, NO_RULES, before + [EnableGuard(name, eps)] + after), p)
  {
    var ops := before + [EnableGuard(name, eps)] + after;
    assert ops[|before|] == EnableGuard(name, eps);
    assert GuardedAt(env, ops, name, eps, |before|) && GuardedWith(env, ops, name, eps);
    assert GivesPeer(env, eps, p.remote, p.remotePort);
    PolicyIsHistory(env, ops, p);
  }

  /** Loop protection stops nothing but datagrams to an endpoint on its own tunnel. */
  lemma OthersPass(env: Env, ops: seq<Op>, p: Packet)
    requires forall name, eps :: GuardedWith(env, ops, name, eps) && env.luid(name) == Some(p.luid) ==>
                                   p.protocol != 17 || !GivesPeer(env, eps, p.remote, p.remotePort)
    requires !On(env, ops) && !Served(env, ops)
    ensures Policy(NextAll(env, NO_RULES, ops), p)
  {
    PolicyIsHistory(env, ops, p);
  }
}
