/** The firewall calls as steps on the rules: what each call does to what is
    switched on when no filter-store call fails. */
module FirewallSteps {
  import opened Wrappers
  import opened WfpPolicy

  /** Address parsing and interface lookup, which the firewall only calls. */
  datatype Env = Env(parseIP: string -> Option<IP>, splitHostPort: string -> (string, string),
                     parsePort: string -> Option<nat>, luid: string -> Option<nat>)
  {
    function ParseAll(ss: seq<string>): seq<IP> {
      if ss == [] then []
      else
        var rest := ParseAll(ss[..|ss| - 1]);
        match parseIP(ss[|ss| - 1])
        case None => rest
        case Some(ip) => rest + [ip]
    }

    /** The texts that parse. */
    function Clean(ss: seq<string>): seq<string> {
      if ss == [] then []
      else Clean(ss[..|ss| - 1]) + if parseIP(ss[|ss| - 1]).Some? then [ss[|ss| - 1]] else []
    }

    ghost predicate AllParse(ss: seq<string>) { forall i :: 0 <= i < |ss| ==> parseIP(ss[i]).Some? }

    function HostOf(ep: string): string {
      if splitHostPort(ep).0 == "" then ep else splitHostPort(ep).0
    }

    function Hosts(eps: seq<string>): seq<string> {
      seq(|eps|, i requires 0 <= i < |eps| => HostOf(eps[i]))
    }

    function TargetOf(ep: string): Option<Target> {
      var port := if splitHostPort(ep).0 == "" then "" else splitHostPort(ep).1;
      match parseIP(HostOf(ep))
      case None => None
      case Some(ip) =>
        if port == "" then Some(Target(ip, 0))
        else if parsePort(port).None? then None
        else Some(Target(ip, parsePort(port).value))
    }

    function Targets(eps: seq<string>): seq<Target> {
      if eps == [] then []
      else
        var rest := Targets(eps[..|eps| - 1]);
        match TargetOf(eps[|eps| - 1])
        case None => rest
        case Some(t) => rest + [t]
    }

    function PermitFor(name: string, eps: seq<string>): TunnelPermit
      requires luid(name).Some?
    {
      TunnelPermit(luid(name).value, ParseAll(Hosts(eps)))
    }

    function GuardFor(name: string, eps: seq<string>): LoopGuard
      requires luid(name).Some?
    {
      LoopGuard(luid(name).value, Targets(eps))
    }
  }

  lemma ParseMore(env: Env, ss: seq<string>, s: string)
    ensures env.ParseAll(ss + [s]) ==
            env.ParseAll(ss) + match env.parseIP(s) case None => [] case Some(ip) => [ip]
  {
    assert (ss + [s])[..|ss|] == ss;
  }

  lemma CleanMore(env: Env, ss: seq<string>, s: string)
    ensures env.Clean(ss + [s]) == env.Clean(ss) + if env.parseIP(s).Some? then [s] else []
  {
    assert (ss + [s])[..|ss|] == ss;
  }

  lemma {:induction false} CleanParses(env: Env, ss: seq<string>)
    ensures env.ParseAll(env.Clean(ss)) == env.ParseAll(ss) && env.AllParse(env.Clean(ss))
    ensures env.AllParse(ss) ==> env.Clean(ss) == ss
    decreases |ss|
  {
    if ss != [] {
      var before, last := ss[..|ss| - 1], ss[|ss| - 1];
      CleanParses(env, before);
      assert ss == before + [last];
      ParseMore(env, before, last);
      CleanMore(env, before, last);
      if env.parseIP(last).Some? {
        ParseMore(env, env.Clean(before), last);
      } else {
        assert env.Clean(ss) == env.Clean(before) && env.ParseAll(ss) == env.ParseAll(before);
      }
      assert env.AllParse(ss) ==> env.AllParse(before);
    }
  }

  lemma TargetsMore(env: Env, eps: seq<string>, ep: string)
    ensures env.Targets(eps + [ep]) ==
            env.Targets(eps) + match env.TargetOf(ep) case None => [] case Some(t) => [t]
  {
    assert (eps + [ep])[..|eps|] == eps;
  }

  datatype Op =
    | EnableKillSwitch(tunnel: string, endpoints: seq<string>)
    | AddTunnel(tunnel: string, endpoints: seq<string>)
    | RemoveTunnel(tunnel: string)
    | DisableKillSwitch
    | EnableGuard(tunnel: string, endpoints: seq<string>)
    | DisableGuard(tunnel: string)
    | EnableDns(servers: seq<string>)
    | DisableDns
    | Cleanup

  function Permitted(env: Env, r: Rules, name: string, eps: seq<string>): Rules
    requires env.luid(name).Some?
  {
    r.(tunnels := r.tunnels[name := env.PermitFor(name, eps)])
  }

  function Guarded(env: Env, r: Rules, name: string, eps: seq<string>): Rules
    requires env.luid(name).Some?
  {
    r.(guards := r.guards[name := env.GuardFor(name, eps)])
  }

  function AfterAdd(env: Env, r: Rules, name: string, eps: seq<string>): (Rules, bool) {
    if name in r.tunnels then (r, true)
    else if env.luid(name).None? then (r, false)
    else (Permitted(env, r, name, eps), true)
  }

  function AfterEnableKillSwitch(env: Env, r: Rules, name: string, eps: seq<string>): (Rules, bool) {
    if r.killSwitch then (if name == "" then (r, true) else AfterAdd(env, r, name, eps))
    else if name == "" then (r.(killSwitch := true), true)
    else if env.luid(name).None? then (r, false)
    else (Permitted(env, r.(killSwitch := true), name, eps), true)
  }

  function AfterGuard(env: Env, r: Rules, name: string, eps: seq<string>): (Rules, bool) {
    var bare := r.(guards := r.guards - {name});
    if env.luid(name).None? || env.Targets(eps) == [] then (bare, false)
    else (Guarded(env, bare, name, eps), true)
  }

  /** The next rules, and whether the call returns without an error. */
  function Next(env: Env, r: Rules, op: Op): (Rules, bool) {
    match op
    case EnableKillSwitch(name, eps) => AfterEnableKillSwitch(env, r, name, eps)
    case AddTunnel(name, eps) =>
      if !r.killSwitch then (r, true) else if name == "" then (r, false) else AfterAdd(env, r, name, eps)
    case RemoveTunnel(name) => (if r.killSwitch then r.(tunnels := r.tunnels - {name}) else r, true)
    case DisableKillSwitch =>
      (Rules(false, map[], r.guards, if r.dns.Some? && r.dns.value != [] then r.dns else None), true)
    case EnableGuard(name, eps) =>
      if name == "" then (r, false) else if eps == [] then (r, true) else AfterGuard(env, r, name, eps)
    case DisableGuard(name) => (if name == "" then r else r.(guards := r.guards - {name}), true)
    case EnableDns(servers) => (if servers == [] then r else r.(dns := Some(env.ParseAll(servers))), true)
    case DisableDns => (if r.killSwitch then r.(dns := None) else NO_RULES, true)
    case Cleanup => (NO_RULES, true)
  }

  function NextAll(env: Env, r: Rules, ops: seq<Op>): Rules {
    if ops == [] then r else Next(env, NextAll(env, r, ops[..|ops| - 1]), ops[|ops| - 1]).0
  }

  /** The guards that the snapshot asks to have reinstalled. */
  ghost predicate Rebuilds(env: Env, noted: map<string, seq<string>>, names: set<string>,
                           guards: map<string, LoopGuard>) {
    && guards.Keys == names <= noted.Keys
    && forall name :: name in names ==> env.luid(name).Some? && guards[name] == env.GuardFor(name, noted[name])
  }

  lemma RebuildsMore(env: Env, noted: map<string, seq<string>>, rest: set<string>, guards: map<string, LoopGuard>,
                     name: string)
    requires name in rest && rest <= noted.Keys && env.luid(name).Some?
    requires Rebuilds(env, noted, noted.Keys - rest, guards)
    ensures Rebuilds(env, noted, noted.Keys - (rest - {name}), guards[name := env.GuardFor(name, noted[name])])
    ensures (noted - rest)[name := noted[name]] == noted - (rest - {name})
  {
  }

  // ---------------------------------------------------------------------
  // What the steps mean for packets
  // ---------------------------------------------------------------------

  /** Turning the kill switch off gives up exactly its own restriction: what
      loops is still blocked, and DNS goes where it went before, provided some
      server was listed. */
  lemma DisableKillSwitchKeepsProtections(env: Env, r: Rules, p: Packet)
    requires r.dns.Some? ==> r.dns.value != []
    ensures var r' := Next(env, r, DisableKillSwitch).0;
            && Loops(r', p) == Loops(r, p) && r'.guards == r.guards && r'.dns == r.dns
            && (Policy(r', p) <==> !Loops(r, p) && (r.dns.Some? && IsDns(p) ==> p.remote in r.dns.value))
  {
  }

  /** With a list in which nothing parsed, DNS protection does not survive:
      all port-53 traffic was blocked, and afterwards none is. */
  lemma DisableKillSwitchDropsEmptyDns(env: Env, r: Rules)
    ensures Next(env, r, DisableKillSwitch).0.dns == r.dns <==> r.dns != Some([])
  {
  }

  /** A tunnel that was not there comes and goes without a trace. */
  lemma AddThenRemove(env: Env, r: Rules, name: string, eps: seq<string>)
    requires name !in r.tunnels
    ensures Next(env, Next(env, r, AddTunnel(name, eps)).0, RemoveTunnel(name)).0 == r
  {
    assert r.tunnels - {name} == r.tunnels;
    if r.killSwitch && name != "" && env.luid(name).Some? {
      assert r.tunnels[name := env.PermitFor(name, eps)] - {name} == r.tunnels;
    }
  }

  /** Calls about one feature leave the other features' rules alone, except that
      disabling DNS protection without the kill switch drops all loop protection. */
  lemma FeaturesAreIndependent(env: Env, r: Rules, op: Op)
    requires !op.Cleanup?
    ensures var r' := Next(env, r, op).0;
            && (op.EnableGuard? || op.DisableGuard? || op.EnableDns? ==>
                  r'.killSwitch == r.killSwitch && r'.tunnels == r.tunnels)
            && (!op.EnableGuard? && !op.DisableGuard? ==>
                  (r'.guards == r.guards <==> r.guards == map[] || r.killSwitch || !op.DisableDns?))
            && (!op.EnableDns? && !op.DisableDns? && !op.DisableKillSwitch? ==> r'.dns == r.dns)
  {
  }
}
