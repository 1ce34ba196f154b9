/** Where the installed filters come from, whichever calls fail: nothing is in
    force that no call asked for, and the kill switch fails closed. */
module FirewallOrigins {
  import opened Wrappers
  import opened WfpPolicy
  import opened WfpStore
  import opened WfpBook
  import opened FirewallSteps
  import opened FirewallState

  // ---------------------------------------------------------------------
  // What a call asks for
  // ---------------------------------------------------------------------

  predicate AsksTunnel(env: Env, name: string, eps: seq<string>, g: Filter) {
    env.luid(name).Some? && g in TunnelFilters(env.PermitFor(name, eps))
  }

  predicate AsksGuard(env: Env, name: string, eps: seq<string>, g: Filter) {
    env.luid(name).Some? && g in GuardFilters(env.Targets(eps), env.luid(name).value)
  }

  predicate AsksDns(env: Env, servers: seq<string>, g: Filter) { servers != [] && g in DnsFilters(env.ParseAll(servers)) }

  predicate Asks(env: Env, op: Op, g: Filter) {
    match op
    case EnableKillSwitch(name, eps) => g in BaseFilters() || (name != "" && AsksTunnel(env, name, eps, g))
    case AddTunnel(name, eps) => AsksTunnel(env, name, eps, g)
    case EnableGuard(name, eps) => AsksGuard(env, name, eps, g)
    case EnableDns(servers) => AsksDns(env, servers, g)
    case _ => false
  }

  /** Some call of the run asks for `g`. */
  predicate Asked(env: Env, ops: seq<Op>, g: Filter) { exists i :: 0 <= i < |ops| && Asks(env, ops[i], g) }

  // ---------------------------------------------------------------------
  // What a state can have in force
  // ---------------------------------------------------------------------

  /** `g` is in force, or a snapshot can bring it back. */
  ghost predicate HasOrRestores(env: Env, s: State, g: Filter) {
    || g in s.book.live.Values
    || (exists name :: name in s.noted && AsksGuard(env, name, s.noted[name], g))
    || AsksDns(env, s.servers, g)
  }

  /** A call took `s` to `t` and brought nothing but what it asks for. */
  ghost predicate Brings(env: Env, s: State, t: State, op: Op) {
    forall g :: HasOrRestores(env, t, g) ==> HasOrRestores(env, s, g) || Asks(env, op, g)
  }

  /** Each new filter is asked for, each new snapshot is of the call itself. */
  lemma BringsWhen(env: Env, s: State, t: State, op: Op)
    requires forall id :: id in t.book.live ==>
                            (id in s.book.live && t.book.live[id] == s.book.live[id]) || Asks(env, op, t.book.live[id])
    requires forall name :: name in t.noted ==>
                              (name in s.noted && t.noted[name] == s.noted[name]) || op == EnableGuard(name, t.noted[name])
    requires t.servers != [] && t.servers != s.servers ==>
               op.EnableDns? && op.servers != [] && env.ParseAll(op.servers) == env.ParseAll(t.servers)
    ensures Brings(env, s, t, op)
  {
  }

  lemma BringsNothing(env: Env, s: State, t: State, op: Op)
    requires forall id :: id in t.book.live ==> id in s.book.live && t.book.live[id] == s.book.live[id]
    requires forall name :: name in t.noted ==> name in s.noted && t.noted[name] == s.noted[name]
    requires t.servers == [] || t.servers == s.servers
    ensures Brings(env, s, t, op)
  {
  }

  lemma KillSwitchCameBrings(env: Env, s: State, name: string, eps: seq<string>)
    requires name == "" || env.luid(name).Some?
    ensures Brings(env, s, KillSwitchCame(env, s, name, eps), Op.EnableKillSwitch(name, eps))
  {
    BringsWhen(env, s, KillSwitchCame(env, s, name, eps), Op.EnableKillSwitch(name, eps));
  }

  lemma TunnelAddedBrings(env: Env, s: State, name: string, eps: seq<string>)
    requires env.luid(name).Some?
    ensures Brings(env, s, TunnelAdded(s, name, env.PermitFor(name, eps)), AddTunnel(name, eps))
  {
    BringsWhen(env, s, TunnelAdded(s, name, env.PermitFor(name, eps)), AddTunnel(name, eps));
  }

  lemma GuardAddedBrings(env: Env, s: State, name: string, eps: seq<string>)
    requires env.luid(name).Some?
    ensures Brings(env, s, GuardAdded(s, name, eps, env.GuardFor(name, eps)), EnableGuard(name, eps))
  {
    BringsWhen(env, s, GuardAdded(s, name, eps, env.GuardFor(name, eps)), EnableGuard(name, eps));
  }

  lemma DnsReplacedBrings(env: Env, s: State, store: Store, clean: seq<string>, servers: seq<string>)
    requires Shrunk(store, s.book.live, s.book.dns) && servers != [] && env.ParseAll(clean) == env.ParseAll(servers)
    ensures Brings(env, s, DnsReplaced(s, store, clean, env.ParseAll(servers)), EnableDns(servers))
  {
    BringsWhen(env, s, DnsReplaced(s, store, clean, env.ParseAll(servers)), EnableDns(servers));
  }

  lemma AbandonedBrings(env: Env, s: State, tunnels: map<string, seq<nat>>, txn: Option<Store>, nextId: nat, op: Op)
    ensures Brings(env, s, Abandoned(s, tunnels, txn, nextId), op)
  {
  }

  lemma ThenBrings(env: Env, s: State, t: State, u: State, name: string, op: Op)
    requires Brings(env, s, t, DisableGuard(name)) && Brings(env, t, u, op)
    ensures Brings(env, s, u, op)
  {
  }

  /** A rebuild from the snapshots of `s` brings nothing new. */
  lemma RebuildBrings(env: Env, s: State, t: State, u: State, name: string)
    requires name in s.noted && Brings(env, s, t, Op.DisableKillSwitch) && Brings(env, t, u, EnableGuard(name, s.noted[name]))
    ensures Brings(env, s, u, Op.DisableKillSwitch)
  {
  }

  lemma RebuildBringsDns(env: Env, s: State, t: State, u: State)
    requires Brings(env, s, t, Op.DisableKillSwitch) && Brings(env, t, u, EnableDns(s.servers))
    ensures Brings(env, s, u, Op.DisableKillSwitch)
  {
  }

  /** Everything the state can have in force was asked for in the run. */
  ghost predicate Accounted(env: Env, ops: seq<Op>, s: State) { forall g :: HasOrRestores(env, s, g) ==> Asked(env, ops, g) }

  lemma NextAccounted(env: Env, ops: seq<Op>, op: Op, s: State, t: State)
    requires Accounted(env, ops, s) && Brings(env, s, t, op)
    ensures Accounted(env, ops + [op], t)
  {
    forall g | HasOrRestores(env, t, g)
      ensures Asked(env, ops + [op], g)
    {
      if Asks(env, op, g) {
        assert (ops + [op])[|ops|] == op;
      } else {
        var i :| 0 <= i < |ops| && Asks(env, ops[i], g);
        assert (ops + [op])[i] == ops[i];
      }
    }
  }

  // ---------------------------------------------------------------------
  // Failing closed
  // ---------------------------------------------------------------------

  /** With the base set in force a packet leaves only through an installed permit. */
  lemma LeavesByPermit(live: Store, base: seq<nat>, p: Packet) returns (g: Filter)
    requires BaseInForce(live, base) && MayLeave(InForce(live), p)
    ensures g in InForce(live) && g.action == Permit && Matches(g, AleLayer(p.remote), p)
  {
    var k := if p.remote.V4? then 5 else 6;
    var layer := AleLayer(p.remote);
    var block := live[base[k]];
    assert block == BaseFilters()[k] == CatchAll(layer);
    assert block in InForce(live) && Matches(block, layer, p);
    g :| Decides(InForce(live), layer, p, g) && g.action == Permit;
  }

  /** The call lets `p` out past the kill switch. */
  predicate Excuses(env: Env, op: Op, p: Packet) {
    match op
    case EnableKillSwitch(name, eps) => name != "" && ForTunnel(env, name, eps, p)
    case AddTunnel(name, eps) => ForTunnel(env, name, eps, p)
    case EnableDns(servers) => IsDns(p) && p.remote in env.ParseAll(servers)
    case _ => false
  }

  /** Over the tunnel, or to one of its endpoints. */
  predicate ForTunnel(env: Env, name: string, eps: seq<string>, p: Packet) {
    env.luid(name).Some?
    && (env.luid(name).value == p.luid || (p.protocol == UDP && p.remote in env.ParseAll(env.Hosts(eps))))
  }

  predicate Excused(env: Env, ops: seq<Op>, p: Packet) {
    IsLoopback(p) || IsDhcp(p) || IsNeighbourDiscovery(p) || exists i :: 0 <= i < |ops| && Excuses(env, ops[i], p)
  }

  lemma AskedPermitExcuses(env: Env, op: Op, g: Filter, p: Packet)
    requires Asks(env, op, g) && g.action == Permit && Matches(g, AleLayer(p.remote), p)
    ensures IsLoopback(p) || IsDhcp(p) || IsNeighbourDiscovery(p) || Excuses(env, op, p)
  {
    match op
    case EnableKillSwitch(name, eps) =>
      if g in BaseFilters() {
        BaseMatches(g, p);
      } else {
        TunnelMatches(env.PermitFor(name, eps), g, p);
      }
    case AddTunnel(name, eps) => TunnelMatches(env.PermitFor(name, eps), g, p);
    case EnableGuard(name, eps) => GuardMatches(env.Targets(eps), env.luid(name).value, g, p);
    case EnableDns(servers) =>
      if g in DnsPermits(env.ParseAll(servers)) {
        DnsPermitMatches(env.ParseAll(servers), g, p);
      }
  }

  /** Whichever calls have failed, while the kill switch is on a packet leaves
      only if it is of the base kinds or a call of the run lets it out. */
  lemma FailsClosed(env: Env, ops: seq<Op>, s: State, p: Packet)
    requires Safe(s) && s.killSwitch && Accounted(env, ops, s) && MayLeave(InForce(s.book.live), p)
    ensures Excused(env, ops, p)
  {
    var g := LeavesByPermit(s.book.live, s.book.base, p);
    assert HasOrRestores(env, s, g);
    var i :| 0 <= i < |ops| && Asks(env, ops[i], g);
    AskedPermitExcuses(env, ops[i], g, p);
  }

  lemma AccountedRunFailsClosed(env: Env, ops: seq<Op>, s: State)
    requires Safe(s) && Accounted(env, ops, s)
    ensures forall g :: g in InForce(s.book.live) ==> Asked(env, ops, g)
    ensures s.killSwitch ==> forall p :: MayLeave(InForce(s.book.live), p) ==> Excused(env, ops, p)
  {
    forall g | g in InForce(s.book.live)
      ensures Asked(env, ops, g)
    {
      assert HasOrRestores(env, s, g);
    }
    forall p | s.killSwitch && MayLeave(InForce(s.book.live), p)
      ensures Excused(env, ops, p)
    {
      FailsClosed(env, ops, s, p);
    }
  }
}
