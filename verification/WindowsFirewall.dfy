/** WindowsFirewall: the calls that switch the kill switch, loop protection and
    DNS protection on and off, over a filter store whose calls may fail. */
module WindowsFirewall {
  import opened Wrappers
  import opened WfpPolicy
  import opened WfpStore
  import opened WfpBook
  import opened FirewallSteps
  import opened FirewallState
  import opened FirewallOrigins
  import opened FirewallHistory

  class Firewall {
    const env: Env
    const wfp: Engine
    var sessionHandle: nat
    var killSwitchEnabled: bool
    var dnsProtectionEnabled: bool
    var tunnelFilterIDs: map<string, seq<nat>>
    var endpointProtectionFilterIDs: map<string, seq<nat>>
    var endpointProtectionState: map<string, seq<string>>
    var dnsFilterIDs: seq<nat>
    var dnsServers: seq<string>

    /** The ids of the base set, which the source does not note down. */
    ghost var baseIDs: seq<nat>
    ghost var owner: map<nat, Owner>
    ghost var rules: Rules

    ghost function S(): State
      reads this, wfp
    {
      State(sessionHandle != 0, killSwitchEnabled, dnsProtectionEnabled,
            Book(wfp.live, owner, baseIDs, tunnelFilterIDs, endpointProtectionFilterIDs, dnsFilterIDs),
            endpointProtectionState, dnsServers, wfp.txn, wfp.nextId)
    }

    ghost predicate Valid()
      reads this, wfp
    {
      FirewallState.Valid(env, wfp.faulty, S(), rules)
    }

    ghost predicate IsExact()
      reads this, wfp
    {
      Exact(env, S(), rules)
    }

    constructor (env: Env, faulty: bool)
      ensures Valid() && IsExact() && rules == NO_RULES && this.env == env && wfp.faulty == faulty
      ensures fresh(wfp) && wfp.live == map[] && endpointProtectionState == map[] && dnsServers == []
    {
      this.env := env;
      wfp := new Engine(faulty);
      sessionHandle, killSwitchEnabled, dnsProtectionEnabled := 0, false, false;
      tunnelFilterIDs, endpointProtectionFilterIDs, endpointProtectionState := map[], map[], map[];
      dnsFilterIDs, dnsServers := [], [];
      baseIDs, owner, rules := [], map[], NO_RULES;
      new;
      ClosedIsValid(env, S());
      assert S() == Closed(S());
    }

    /** The bookkeeping that only the proof keeps: who owns what, under which rules. */
    ghost method Became(next: State, r: Rules, lax: bool)
      requires S().(book := S().book.(owner := next.book.owner, base := next.book.base)) == next
      requires FirewallState.Valid(env, lax, next, r) && (lax ==> wfp.faulty)
      modifies `owner, `baseIDs, `rules
      ensures S() == next && rules == r && Valid()
      ensures !lax ==> IsExact()
    {
      owner, baseIDs, rules := next.book.owner, next.book.base, r;
    }

    /** Aborts a transaction begun in state `s`; the abort itself may fail. */
    method Abandon(ghost s: State)
      requires FirewallState.Valid(env, wfp.faulty, s, rules) && s.open && s.nextId <= wfp.nextId
      requires Leftover(s.book.tunnels, tunnelFilterIDs, s.nextId, wfp.nextId)
      requires wfp.faulty || tunnelFilterIDs == s.book.tunnels
      requires S() == Abandoned(s, tunnelFilterIDs, wfp.txn, wfp.nextId)
      modifies wfp`txn
      ensures Valid() && S() == Abandoned(s, tunnelFilterIDs, wfp.txn, wfp.nextId)
    {
      wfp.Abort();
      AbandonedIsValid(env, wfp.faulty, s, rules, tunnelFilterIDs, wfp.txn, wfp.nextId);
    }

    /** Opening the engine and registering the provider and the sublayer. */
    method EnsureSession() returns (ok: bool)
      requires Valid()
      modifies `sessionHandle, wfp`live, wfp`txn
      ensures S() == old(S()).(open := ok) && (old(S()).open ==> ok)
      ensures Valid() && (old(IsExact()) ==> IsExact())
      ensures !wfp.faulty ==> ok
    {
      ghost var s, r, lax := S(), rules, !IsExact();
      ok := sessionHandle != 0;
      if !ok {
        ok := wfp.Status();
        if ok {
          ok := wfp.Status();
          if ok {
            ok := wfp.Status();
          }
          if !ok {
            wfp.Close();
          }
        }
        if ok {
          sessionHandle := 1;
          OpenedIsValid(env, lax, s, r);
        }
      }
    }

    method CloseSession()
      requires Valid()
      modifies this, wfp`live, wfp`txn
      ensures Valid() && IsExact() && rules == NO_RULES
      ensures S() == Closed(old(S()))
    {
      ghost var s := S();
      if sessionHandle != 0 {
        wfp.Close();
        sessionHandle := 0;
        killSwitchEnabled, dnsProtectionEnabled := false, false;
        tunnelFilterIDs, endpointProtectionFilterIDs, endpointProtectionState := map[], map[], map[];
        dnsFilterIDs := [];
      }
      ClosedIsValid(env, s);
      Became(Closed(s), NO_RULES, false);
    }

    method ResolveLuid(name: string) returns (luid: Option<nat>)
      ensures luid == None || luid == env.luid(name)
      ensures !wfp.faulty ==> luid == env.luid(name)
    {
      var ok := wfp.Status();
      luid := if ok then env.luid(name) else None;
    }

    /** Adds one filter after those already in the transaction. */
    method AddFilter(f: Filter, ghost m: Store, ghost n: nat, ghost fs: seq<Filter>) returns (id: nat, ok: bool)
      requires wfp.txn == Some(Extend(m, n, fs)) && wfp.nextId == n + |fs|
      modifies wfp`txn, wfp`nextId
      ensures id == n + |fs|
      ensures ok ==> wfp.txn == Some(Extend(m, n, fs + [f])) && wfp.nextId == n + |fs + [f]|
      ensures !ok ==> wfp.txn == old(wfp.txn) && wfp.nextId == old(wfp.nextId)
      ensures !wfp.faulty ==> ok
    {
      id, ok := wfp.Add(f);
      ExtendMore(m, n, fs, [f]);
    }

    method PermitLoopback(ghost m: Store, ghost n: nat) returns (ok: bool)
      requires wfp.txn == Some(m) && wfp.nextId == n
      modifies wfp`txn, wfp`nextId
      ensures Progress(ok, m, n, BaseFilters()[..2])
    {
      ExtendNone(m, n);
      BaseMore(0);
      BaseMore(1);
      var _, v4 := AddFilter(Filter(AleV4, Permit, 13, [RemoteAddress(LOOPBACK_V4)]), m, n, []);
      if !v4 {
        return false;
      }
      var _, v6 := AddFilter(Filter(AleV6, Permit, 13, [RemoteAddress(LOOPBACK_V6)]), m, n, BaseFilters()[..1]);
      ok := v6;
    }

    method PermitDhcp(ghost m: Store, ghost n: nat) returns (ok: bool)
      requires wfp.txn == Some(Extend(m, n, BaseFilters()[..2])) && wfp.nextId == n + 2
      modifies wfp`txn, wfp`nextId
      ensures Progress(ok, m, n, BaseFilters()[..4])
    {
      BaseMore(2);
      BaseMore(3);
      var _, v4 := AddFilter(Filter(AleV4, Permit, 12, [Protocol(UDP), LocalPort(68), RemotePort(67)]),
                             m, n, BaseFilters()[..2]);
      if !v4 {
        return false;
      }
      var _, v6 := AddFilter(Filter(AleV6, Permit, 12, [Protocol(UDP), LocalPort(546), RemotePort(547)]),
                             m, n, BaseFilters()[..3]);
      ok := v6;
    }

    method PermitICMPv6LinkLocal(ghost m: Store, ghost n: nat) returns (ok: bool)
      requires wfp.txn == Some(Extend(m, n, BaseFilters()[..4])) && wfp.nextId == n + 4
      modifies wfp`txn, wfp`nextId
      ensures Progress(ok, m, n, BaseFilters()[..5])
    {
      BaseMore(4);
      var _, added := AddFilter(Filter(AleV6, Permit, 12, [Protocol(ICMPV6), RemoteAddress(LINK_LOCAL_V6)]),
                                m, n, BaseFilters()[..4]);
      ok := added;
    }

    /** The transaction holds `fs` on top of `m` if the call succeeded. */
    ghost predicate Progress(ok: bool, m: Store, n: nat, fs: seq<Filter>)
      reads this, wfp
    {
      && wfp.txn.Some? && wfp.nextId >= n
      && (ok ==> wfp.txn == Some(Extend(m, n, fs)) && wfp.nextId == n + |fs|)
      && (!wfp.faulty ==> ok)
    }

    method InstallBaseFilters() returns (ok: bool)
      requires wfp.txn.Some?
      modifies wfp`txn, wfp`nextId
      ensures Progress(ok, old(wfp.txn).value, old(wfp.nextId), BaseFilters())
    {
      ghost var m, n := wfp.txn.value, wfp.nextId;
      ok := PermitLoopback(m, n);
      if ok {
        ok := PermitDhcp(m, n);
      }
      if ok {
        ok := PermitICMPv6LinkLocal(m, n);
      }
      if ok {
        ok := BlockTheRest(m, n);
      }
    }

    /** The loop over the two layers, one catch-all block for each. */
    method BlockTheRest(ghost m: Store, ghost n: nat) returns (ok: bool)
      requires wfp.txn == Some(Extend(m, n, BaseFilters()[..5])) && wfp.nextId == n + 5
      modifies wfp`txn, wfp`nextId
      ensures Progress(ok, m, n, BaseFilters())
    {
      var layers := [AleV4, AleV6];
      ghost var fs := BaseFilters()[..5];
      for k := 0 to |layers|
        invariant fs == BaseFilters()[..5 + k]
        invariant wfp.txn == Some(Extend(m, n, fs)) && wfp.nextId == n + |fs|
      {
        BaseMore(5 + k);
        var _, added := AddFilter(CatchAll(layers[k]), m, n, fs);
        if !added {
          return false;
        }
        fs := fs + [CatchAll(layers[k])];
      }
      assert fs == BaseFilters();
      ok := true;
    }

    /** Once committed, the pending transaction will have brought about `next`. */
    ghost predicate WillBe(next: State)
      reads this, wfp
    {
      wfp.txn == Some(next.book.live) && wfp.nextId == next.nextId && tunnelFilterIDs == next.book.tunnels
    }

    method PermitInterface(luid: nat, known: seq<nat>, ghost m: Store, ghost n: nat)
      returns (ok: bool, ids: seq<nat>)
      requires wfp.txn == Some(m) && wfp.nextId == n
      modifies wfp`txn, wfp`nextId
      ensures Progress(ok, m, n, InterfacePermits(luid)) && ids == known + Range(n, wfp.nextId - n)
    {
      ids := known;
      var layers := [AleV4, AleV6];
      ghost var fs: seq<Filter> := [];
      ExtendNone(m, n);
      for k := 0 to |layers|
        invariant fs == InterfacePermits(luid)[..k]
        invariant wfp.txn == Some(Extend(m, n, fs)) && wfp.nextId == n + |fs| && ids == known + Range(n, |fs|)
      {
        var id, added := AddFilter(Filter(layers[k], Permit, 12, [LocalInterface(luid)]), m, n, fs);
        if !added {
          return false, ids;
        }
        ids := ids + [id];
        fs := fs + [InterfacePermits(luid)[k]];
      }
      assert fs == InterfacePermits(luid);
      ok := true;
    }

    method PermitEndpoint(ip: IP, luid: nat, ghost ips: seq<IP>, ghost m: Store, ghost n: nat) returns (id: nat, ok: bool)
      requires var fs := TunnelFilters(TunnelPermit(luid, ips)); wfp.txn == Some(Extend(m, n, fs)) && wfp.nextId == n + |fs|
      modifies wfp`txn, wfp`nextId
      ensures var fs := TunnelFilters(TunnelPermit(luid, ips)); id == n + |fs| && wfp.nextId == id + if ok then 1 else 0
      ensures ok ==> var fs := TunnelFilters(TunnelPermit(luid, ips + [ip]));
                     wfp.txn == Some(Extend(m, n, fs)) && wfp.nextId == n + |fs|
      ensures !ok ==> wfp.txn == old(wfp.txn)
      ensures !wfp.faulty ==> ok
    {
      TunnelFiltersMore(luid, ips, ip);
      id, ok := AddFilter(EndpointPermit(ip), m, n, TunnelFilters(TunnelPermit(luid, ips)));
    }

    method PermitEndpoints(luid: nat, endpoints: seq<string>, known: seq<nat>, ghost m: Store, ghost n: nat)
      returns (ok: bool, ids: seq<nat>)
      requires wfp.txn == Some(Extend(m, n, InterfacePermits(luid))) && wfp.nextId == n + 2
      modifies wfp`txn, wfp`nextId
      ensures Progress(ok, m, n, TunnelFilters(TunnelPermit(luid, env.ParseAll(env.Hosts(endpoints)))))
      ensures wfp.nextId >= n + 2 && ids == known + Range(n + 2, wfp.nextId - (n + 2))
    {
      ids := known;
      ghost var ips := [];
      assert TunnelFilters(TunnelPermit(luid, ips)) == InterfacePermits(luid);
      for k := 0 to |endpoints|
        invariant ips == env.ParseAll(env.Hosts(endpoints[..k])) && wfp.nextId >= n + 2
        invariant var fs := TunnelFilters(TunnelPermit(luid, ips));
                  wfp.txn == Some(Extend(m, n, fs)) && wfp.nextId == n + |fs|
        invariant ids == known + Range(n + 2, wfp.nextId - (n + 2))
      {
        var host := env.HostOf(endpoints[k]);
        assert env.Hosts(endpoints[..k + 1]) == env.Hosts(endpoints[..k]) + [host];
        ParseMore(env, env.Hosts(endpoints[..k]), host);
        var parsed := env.parseIP(host);
        if parsed.None? {
          continue;
        }
        var id, added := PermitEndpoint(parsed.value, luid, ips, m, n);
        if !added {
          return false, ids;
        }
        OneMoreId(known, n + 2, id);
        ids := ids + [id];
        ips := ips + [parsed.value];
      }
      assert endpoints[..|endpoints|] == endpoints;
      ok := true;
    }

    method PermitTunnel(luid: nat, endpoints: seq<string>, known: seq<nat>, ghost m: Store, ghost n: nat)
      returns (ok: bool, ids: seq<nat>)
      requires wfp.txn == Some(m) && wfp.nextId == n
      modifies wfp`txn, wfp`nextId
      ensures Progress(ok, m, n, TunnelFilters(TunnelPermit(luid, env.ParseAll(env.Hosts(endpoints)))))
      ensures ids == known + Range(n, wfp.nextId - n)
    {
      ok, ids := PermitInterface(luid, known, m, n);
      if ok {
        ok, ids := PermitEndpoints(luid, endpoints, ids, m, n);
        RangesJoin(known, n, 2, wfp.nextId - (n + 2));
      }
    }

    method InstallTunnelFilters(name: string, endpoints: seq<string>, ghost s: State) returns (ok: bool)
      requires WillBe(s)
      modifies `tunnelFilterIDs, wfp`txn, wfp`nextId
      ensures wfp.txn.Some? && wfp.nextId >= s.nextId && Leftover(s.book.tunnels, tunnelFilterIDs, s.nextId, wfp.nextId)
      ensures ok ==> env.luid(name).Some? && WillBe(TunnelAdded(s, name, env.PermitFor(name, endpoints)))
      ensures !wfp.faulty ==> (ok <==> env.luid(name).Some?)
      ensures !wfp.faulty && !ok ==> tunnelFilterIDs == s.book.tunnels
    {
      var luid := ResolveLuid(name);
      ok := luid.Some?;
      if ok {
        var ids;
        ok, ids := PermitTunnel(luid.value, endpoints, Noted(tunnelFilterIDs, name), s.book.live, s.nextId);
        NotedIsLeftover(tunnelFilterIDs, name, s.nextId, wfp.nextId - s.nextId);
        tunnelFilterIDs := tunnelFilterIDs[name := ids];
      }
    }

    method InstallKillSwitch(name: string, endpoints: seq<string>, ghost s: State) returns (ok: bool)
      requires WillBe(s)
      modifies `tunnelFilterIDs, wfp`txn, wfp`nextId
      ensures wfp.txn.Some? && wfp.nextId >= s.nextId && Leftover(s.book.tunnels, tunnelFilterIDs, s.nextId, wfp.nextId)
      ensures ok ==> (name == "" || env.luid(name).Some?) && WillBe(KillSwitchCame(env, s, name, endpoints))
      ensures !wfp.faulty ==> (ok <==> name == "" || env.luid(name).Some?)
      ensures !wfp.faulty && !ok ==> tunnelFilterIDs == s.book.tunnels
    {
      ok := InstallBaseFilters();
      if ok && name != "" {
        ok := InstallTunnelFilters(name, endpoints, KillSwitchOn(s));
      }
    }

    method EnableKillSwitch(name: string, endpoints: seq<string>) returns (ok: bool)
      requires Valid()
      modifies this, wfp
      ensures Valid() && killSwitchEnabled == (old(killSwitchEnabled) || ok)
      ensures !wfp.faulty ==> (rules, ok) == Next(env, old(rules), Op.EnableKillSwitch(name, endpoints))
      ensures Brings(env, old(S()), S(), Op.EnableKillSwitch(name, endpoints))
    {
      if killSwitchEnabled {
        if name != "" {
          ok := AddTunnelFilters(name, endpoints);
        } else {
          ok := true;
        }
        return;
      }
      ok := EnsureSession();
      if ok {
        ok := KillSwitchInTransaction(name, endpoints);
      }
    }

    method KillSwitchInTransaction(name: string, endpoints: seq<string>) returns (ok: bool)
      requires Valid() && sessionHandle != 0 && !killSwitchEnabled
      modifies `tunnelFilterIDs, `killSwitchEnabled, `owner, `baseIDs, `rules, wfp
      ensures Valid() && killSwitchEnabled == ok
      ensures !wfp.faulty ==> (rules, ok) == Next(env, old(rules), Op.EnableKillSwitch(name, endpoints))
      ensures Brings(env, old(S()), S(), Op.EnableKillSwitch(name, endpoints))
    {
      ghost var s, r, lax := S(), rules, wfp.faulty;
      ok := wfp.Begin();
      if ok {
        ok := InstallKillSwitch(name, endpoints, s);
        if ok {
          ok := wfp.Commit();
        }
        if ok {
          AdoptKillSwitch(name, endpoints, s, r, lax);
          KillSwitchCameBrings(env, s, name, endpoints);
        } else {
          Abandon(s);
          AbandonedBrings(env, s, tunnelFilterIDs, wfp.txn, wfp.nextId, Op.EnableKillSwitch(name, endpoints));
        }
      }
    }

    method AdoptKillSwitch(name: string, endpoints: seq<string>, ghost s: State, ghost r: Rules, ghost lax: bool)
      requires FirewallState.Valid(env, lax, s, r) && s.open && !s.killSwitch && rules == r && (lax ==> wfp.faulty)
      requires name == "" || env.luid(name).Some?
      requires var next := KillSwitchCame(env, s, name, endpoints);
               S().(book := S().book.(owner := next.book.owner, base := next.book.base)) == next.(killSwitch := false)
      modifies `killSwitchEnabled, `owner, `baseIDs, `rules
      ensures Valid() && S() == KillSwitchCame(env, s, name, endpoints) && rules == KillSwitchRules(env, r, name, endpoints)
    {
      killSwitchEnabled := true;
      KillSwitchCameIsValid(env, lax, s, r, name, endpoints);
      Became(KillSwitchCame(env, s, name, endpoints), KillSwitchRules(env, r, name, endpoints), lax);
    }

    method AddTunnelFilters(name: string, endpoints: seq<string>) returns (ok: bool)
      requires Valid() && killSwitchEnabled
      modifies `tunnelFilterIDs, `owner, `baseIDs, `rules, wfp
      ensures Valid()
      ensures !wfp.faulty ==> (rules, ok) == AfterAdd(env, old(rules), name, endpoints)
      ensures Brings(env, old(S()), S(), AddTunnel(name, endpoints))
    {
      ok := |Noted(tunnelFilterIDs, name)| > 0;
      ghost var s, r, lax := S(), rules, wfp.faulty;
      if !lax {
        UnnotedTunnel(env, s, r, name);
      }
      if !ok {
        ok := TunnelInTransaction(name, endpoints);
      }
    }

    method TunnelInTransaction(name: string, endpoints: seq<string>) returns (ok: bool)
      requires Valid() && killSwitchEnabled && (wfp.faulty || name !in rules.tunnels)
      modifies `tunnelFilterIDs, `owner, `baseIDs, `rules, wfp
      ensures Valid()
      ensures !wfp.faulty ==> (rules, ok) == AfterAdd(env, old(rules), name, endpoints)
      ensures Brings(env, old(S()), S(), AddTunnel(name, endpoints))
    {
      ghost var s, r, lax := S(), rules, wfp.faulty;
      ok := wfp.Begin();
      if ok {
        ok := InstallTunnelFilters(name, endpoints, s);
        if ok {
          ok := wfp.Commit();
        }
        if ok {
          ghost var t := env.PermitFor(name, endpoints);
          TunnelAddedIsValid(env, lax, s, r, name, t);
          TunnelAddedBrings(env, s, name, endpoints);
          Became(TunnelAdded(s, name, t), r.(tunnels := r.tunnels[name := t]), lax);
        } else {
          tunnelFilterIDs := tunnelFilterIDs - {name};
          Abandon(s);
          AbandonedBrings(env, s, tunnelFilterIDs, wfp.txn, wfp.nextId, AddTunnel(name, endpoints));
        }
      }
    }

    method AddKillSwitchTunnel(name: string, endpoints: seq<string>) returns (ok: bool)
      requires Valid()
      modifies `tunnelFilterIDs, `owner, `baseIDs, `rules, wfp
      ensures Valid()
      ensures !wfp.faulty ==> (rules, ok) == Next(env, old(rules), AddTunnel(name, endpoints))
      ensures Brings(env, old(S()), S(), AddTunnel(name, endpoints))
    {
      if !killSwitchEnabled {
        ok := true;
      } else if name == "" {
        ok := false;
      } else {
        ok := AddTunnelFilters(name, endpoints);
      }
    }

    /** Only this tunnel's filters go, and if the call fails not even those. */
    method RemoveKillSwitchTunnel(name: string) returns (ok: bool)
      requires Valid()
      modifies `tunnelFilterIDs, `owner, `baseIDs, `rules, wfp
      ensures Valid()
      ensures !wfp.faulty ==> (rules, ok) == Next(env, old(rules), RemoveTunnel(name))
      ensures Shrunk(wfp.live, old(wfp.live), Noted(old(tunnelFilterIDs), name))
      ensures Brings(env, old(S()), S(), RemoveTunnel(name))
    {
      ghost var s, r, lax := S(), rules, wfp.faulty;
      if !lax {
        UnnotedTunnel(env, s, r, name);
      }
      ok := true;
      var ids := Noted(tunnelFilterIDs, name);
      if killSwitchEnabled && sessionHandle != 0 && |ids| != 0 {
        ok := wfp.DeleteAtomically(ids);
        if ok {
          tunnelFilterIDs := tunnelFilterIDs - {name};
          TunnelRemovedIsValid(env, lax, s, r, name, wfp.live);
          Became(TunnelRemoved(s, name, wfp.live), r.(tunnels := r.tunnels - {name}), lax);
        } else {
          PendingIsValid(env, s, r, wfp.txn);
        }
        BringsNothing(env, s, S(), RemoveTunnel(name));
      }
    }

    // -------------------------------------------------------------------
    // Endpoint loop protection
    // -------------------------------------------------------------------

    method InstallEndpointBlockFilter(t: Target, luid: nat, ghost m: Store, ghost n: nat, ghost fs: seq<Filter>)
      returns (ok: bool, ids: seq<nat>)
      requires wfp.txn == Some(Extend(m, n, fs)) && wfp.nextId == n + |fs|
      modifies wfp`txn, wfp`nextId
      ensures Progress(ok, m, n, fs + LoopBlocks(t, luid))
      ensures ok ==> ids == Range(n + |fs|, 2)
    {
      var blocks := LoopBlocks(t, luid);
      var ale, first := AddFilter(blocks[0], m, n, fs);
      if !first {
        return false, [];
      }
      var tx, second := AddFilter(blocks[1], m, n, fs + [blocks[0]]);
      assert fs + [blocks[0]] + [blocks[1]] == fs + blocks;
      return second, [ale, tx];
    }

    /** The transaction has grown by the blocks for some targets, under these ids. */
    ghost predicate Guarding(targets: seq<Target>, luid: nat, ids: seq<nat>, m: Store, n: nat)
      reads this, wfp
    {
      var fs := GuardFilters(targets, luid);
      && wfp.txn == Some(Extend(m, n, fs)) && wfp.nextId == n + |fs| && ids == Range(n, |fs|)
      && (targets == [] <==> ids == [])
    }

    method InstallGuard(t: Target, luid: nat, known: seq<nat>, ghost targets: seq<Target>, ghost m: Store, ghost n: nat)
      returns (ok: bool, ids: seq<nat>)
      requires Guarding(targets, luid, known, m, n)
      modifies wfp`txn, wfp`nextId
      ensures wfp.txn.Some? && wfp.nextId >= n && (!wfp.faulty ==> ok)
      ensures ok ==> Guarding(targets + [t], luid, ids, m, n)
    {
      ghost var fs := GuardFilters(targets, luid);
      GuardFiltersMore(targets, t, luid);
      var added;
      ok, added := InstallEndpointBlockFilter(t, luid, m, n, fs);
      ids := known + added;
      if ok {
        RangesJoin([], n, |fs|, 2);
        assert |LoopBlocks(t, luid)| == 2;
      }
    }

    /** Refuses an endpoint list of which nothing can be parsed. */
    method InstallGuards(endpoints: seq<string>, luid: nat, ghost m: Store, ghost n: nat)
      returns (ok: bool, ids: seq<nat>)
      requires wfp.txn == Some(m) && wfp.nextId == n
      modifies wfp`txn, wfp`nextId
      ensures wfp.txn.Some? && wfp.nextId >= n
      ensures ok ==> env.Targets(endpoints) != [] && Guarding(env.Targets(endpoints), luid, ids, m, n)
      ensures !wfp.faulty ==> (ok <==> env.Targets(endpoints) != [])
    {
      ids := [];
      ExtendNone(m, n);
      for k := 0 to |endpoints|
        invariant Guarding(env.Targets(endpoints[..k]), luid, ids, m, n)
      {
        assert endpoints[..k + 1] == endpoints[..k] + [endpoints[k]];
        TargetsMore(env, endpoints[..k], endpoints[k]);
        var target := env.TargetOf(endpoints[k]);
        if target.None? {
          continue;
        }
        ok, ids := InstallGuard(target.value, luid, ids, env.Targets(endpoints[..k]), m, n);
        if !ok {
          return;
        }
      }
      assert endpoints[..|endpoints|] == endpoints;
      ok := |ids| != 0;
    }

    method RemoveEndpointProtectionFilters(name: string) returns (ok: bool)
      requires Valid() && sessionHandle != 0
      modifies `endpointProtectionFilterIDs, `endpointProtectionState, `owner, `baseIDs, `rules, wfp
      ensures Valid()
      ensures Brings(env, old(S()), S(), DisableGuard(name))
      ensures wfp.nextId == old(wfp.nextId) && Shrunk(wfp.live, old(wfp.live), Noted(old(endpointProtectionFilterIDs), name))
      ensures !wfp.faulty ==> ok && rules == old(rules).(guards := old(rules).guards - {name})
    {
      ghost var s, r, lax := S(), rules, wfp.faulty;
      if !lax {
        UnnotedGuard(env, s, r, name);
      }
      ok := true;
      var ids := Noted(endpointProtectionFilterIDs, name);
      if |ids| != 0 {
        ok := wfp.DeleteAtomically(ids);
        if ok {
          endpointProtectionFilterIDs := endpointProtectionFilterIDs - {name};
          endpointProtectionState := endpointProtectionState - {name};
          ghost var next := GuardRemoved(s, name, wfp.live);
          GuardRemovedIsValid(env, lax, s, r, name, wfp.live);
          assert S().book.guards == next.book.guards;
          Became(next, r.(guards := r.guards - {name}), lax);
        } else {
          PendingIsValid(env, s, r, wfp.txn);
        }
        BringsNothing(env, s, S(), DisableGuard(name));
      }
    }

    /** A failed clean-up before a new install is logged and ignored. */
    method RemoveStaleFilters(name: string)
      requires Valid() && sessionHandle != 0
      modifies `endpointProtectionFilterIDs, `endpointProtectionState, `owner, `baseIDs, `rules, wfp
      ensures Valid()
      ensures Brings(env, old(S()), S(), DisableGuard(name))
      ensures wfp.nextId == old(wfp.nextId)
      ensures wfp.live.Keys <= old(wfp.live).Keys
      ensures !wfp.faulty ==> rules == old(rules).(guards := old(rules).guards - {name})
      ensures old(IsExact()) && name !in old(rules).guards ==> S() == old(S()) && rules == old(rules)
    {
      if IsExact() {
        UnnotedGuard(env, S(), rules, name);
      }
      if |Noted(endpointProtectionFilterIDs, name)| > 0 {
        var _ := RemoveEndpointProtectionFilters(name);
      }
    }

    method EnableEndpointProtectionLocked(name: string, endpoints: seq<string>) returns (ok: bool)
      requires Valid()
      modifies `sessionHandle, `endpointProtectionFilterIDs, `endpointProtectionState, `owner, `baseIDs, `rules, wfp
      ensures Valid()
      ensures Brings(env, old(S()), S(), EnableGuard(name, endpoints))
      ensures forall id :: id in wfp.live ==> id in old(wfp.live) || id >= old(wfp.nextId)
      ensures wfp.nextId >= old(wfp.nextId)
      ensures !wfp.faulty ==> (rules, ok) == AfterGuard(env, old(rules), name, endpoints)
      ensures ok && old(IsExact()) && name !in old(rules).guards ==>
                IsExact() && env.luid(name).Some? && rules == Guarded(env, old(rules), name, endpoints)
                && endpointProtectionState == old(endpointProtectionState)[name := endpoints]
    {
      ok := EnsureSession();
      if ok {
        ok := ReplaceGuard(name, endpoints);
      }
    }

    method ReplaceGuard(name: string, endpoints: seq<string>) returns (ok: bool)
      requires Valid() && sessionHandle != 0
      modifies `endpointProtectionFilterIDs, `endpointProtectionState, `owner, `baseIDs, `rules, wfp
      ensures Valid()
      ensures Brings(env, old(S()), S(), EnableGuard(name, endpoints))
      ensures forall id :: id in wfp.live ==> id in old(wfp.live) || id >= old(wfp.nextId)
      ensures wfp.nextId >= old(wfp.nextId)
      ensures !wfp.faulty ==> (rules, ok) == AfterGuard(env, old(rules), name, endpoints)
      ensures ok && old(IsExact()) && name !in old(rules).guards ==>
                IsExact() && env.luid(name).Some? && rules == Guarded(env, old(rules), name, endpoints)
                && endpointProtectionState == old(endpointProtectionState)[name := endpoints]
    {
      ghost var s := S();
      RemoveStaleFilters(name);
      ghost var t := S();
      ok := GuardWhenKnown(name, endpoints);
      ThenBrings(env, s, t, S(), name, EnableGuard(name, endpoints));
    }

    method GuardWhenKnown(name: string, endpoints: seq<string>) returns (ok: bool)
      requires Valid() && sessionHandle != 0 && (wfp.faulty || name !in rules.guards)
      modifies `endpointProtectionFilterIDs, `endpointProtectionState, `owner, `baseIDs, `rules, wfp
      ensures Valid()
      ensures Brings(env, old(S()), S(), EnableGuard(name, endpoints))
      ensures forall id :: id in wfp.live ==> id in old(wfp.live) || id >= old(wfp.nextId)
      ensures wfp.nextId >= old(wfp.nextId)
      ensures !ok ==> rules == old(rules)
      ensures !wfp.faulty ==> (ok <==> env.luid(name).Some? && env.Targets(endpoints) != [])
      ensures ok ==> env.luid(name).Some? && rules == Guarded(env, old(rules), name, endpoints)
      ensures ok && old(IsExact()) && name !in old(rules).guards ==> IsExact()
      ensures ok ==> endpointProtectionState == old(endpointProtectionState)[name := endpoints]
    {
      var luid := ResolveLuid(name);
      ok := luid.Some?;
      if ok {
        ok := GuardInFreshTransaction(name, endpoints, luid.value);
      }
    }

    method GuardInFreshTransaction(name: string, endpoints: seq<string>, luid: nat) returns (ok: bool)
      requires Valid() && sessionHandle != 0 && env.luid(name) == Some(luid)
      requires wfp.faulty || name !in rules.guards
      modifies `endpointProtectionFilterIDs, `endpointProtectionState, `owner, `baseIDs, `rules, wfp
      ensures Valid()
      ensures Brings(env, old(S()), S(), EnableGuard(name, endpoints))
      ensures forall id :: id in wfp.live ==> id in old(wfp.live) || id >= old(wfp.nextId)
      ensures wfp.nextId >= old(wfp.nextId)
      ensures !ok ==> rules == old(rules)
      ensures !wfp.faulty ==> (ok <==> env.Targets(endpoints) != [])
      ensures ok ==> rules == Guarded(env, old(rules), name, endpoints)
      ensures ok && old(IsExact()) && name !in old(rules).guards ==> IsExact()
      ensures ok ==> endpointProtectionState == old(endpointProtectionState)[name := endpoints]
    {
      ghost var s, r, lax := S(), rules, !(IsExact() && name !in rules.guards);
      var ids;
      ok, ids := AddGuardFilters(endpoints, luid);
      if ok {
        endpointProtectionFilterIDs := endpointProtectionFilterIDs[name := ids];
        endpointProtectionState := endpointProtectionState[name := endpoints];
        ghost var g := env.GuardFor(name, endpoints);
        GuardAddedIsValid(env, lax, s, r, name, g, endpoints);
        GuardAddedBrings(env, s, name, endpoints);
        Became(GuardAdded(s, name, endpoints, g), r.(guards := r.guards[name := g]), lax);
      } else {
        AbandonedIsValid(env, wfp.faulty, s, r, tunnelFilterIDs, wfp.txn, wfp.nextId);
        AbandonedBrings(env, s, tunnelFilterIDs, wfp.txn, wfp.nextId, EnableGuard(name, endpoints));
      }
    }

    method AddGuardFilters(endpoints: seq<string>, luid: nat) returns (ok: bool, ids: seq<nat>)
      modifies wfp
      ensures ok ==> var fs := GuardFilters(env.Targets(endpoints), luid);
                     env.Targets(endpoints) != [] && old(wfp.txn) == None == wfp.txn
                     && wfp.live == Extend(old(wfp.live), old(wfp.nextId), fs)
                     && ids == Range(old(wfp.nextId), |fs|) && wfp.nextId == old(wfp.nextId) + |fs|
      ensures !ok ==> wfp.live == old(wfp.live) && wfp.nextId >= old(wfp.nextId)
      ensures forall id :: id in wfp.live ==> id in old(wfp.live) || id >= old(wfp.nextId)
      ensures !wfp.faulty && old(wfp.txn) == None ==> wfp.txn == None && (ok <==> env.Targets(endpoints) != [])
    {
      ids := [];
      ok := wfp.Begin();
      if ok {
        ok, ids := InstallGuards(endpoints, luid, wfp.live, wfp.nextId);
        if ok {
          ok := wfp.Commit();
        }
        if !ok {
          wfp.Abort();
        }
      }
    }

    method EnableEndpointProtection(name: string, endpoints: seq<string>) returns (ok: bool)
      requires Valid()
      modifies `sessionHandle, `endpointProtectionFilterIDs, `endpointProtectionState, `owner, `baseIDs, `rules, wfp
      ensures Valid()
      ensures !wfp.faulty ==> (rules, ok) == Next(env, old(rules), EnableGuard(name, endpoints))
      ensures Brings(env, old(S()), S(), EnableGuard(name, endpoints))
    {
      if name == "" {
        ok := false;
      } else if |endpoints| == 0 {
        ok := true;
      } else {
        ok := EnableEndpointProtectionLocked(name, endpoints);
      }
    }

    /** Only this interface's loop protection goes. */
    method DisableEndpointProtection(name: string) returns (ok: bool)
      requires Valid()
      modifies `endpointProtectionFilterIDs, `endpointProtectionState, `owner, `baseIDs, `rules, wfp
      ensures Valid()
      ensures !wfp.faulty ==> (rules, ok) == Next(env, old(rules), DisableGuard(name))
      ensures Shrunk(wfp.live, old(wfp.live), Noted(old(endpointProtectionFilterIDs), name))
      ensures Brings(env, old(S()), S(), DisableGuard(name))
    {
      ok := true;
      if name != "" {
        if sessionHandle == 0 {
          endpointProtectionFilterIDs := endpointProtectionFilterIDs - {name};
          endpointProtectionState := endpointProtectionState - {name};
          assert S() == old(S());
        } else {
          ok := RemoveEndpointProtectionFilters(name);
        }
      }
    }

    // -------------------------------------------------------------------
    // DNS protection
    // -------------------------------------------------------------------

    method PermitDnsServer(ip: IP, ghost ips: seq<IP>, ghost m: Store, ghost n: nat) returns (ok: bool, ids: seq<nat>)
      requires var fs := DnsPermits(ips); wfp.txn == Some(Extend(m, n, fs)) && wfp.nextId == n + |fs|
      modifies wfp`txn, wfp`nextId
      ensures Progress(ok, m, n, DnsPermits(ips + [ip]))
      ensures ok ==> Range(n, |DnsPermits(ips)|) + ids == Range(n, |DnsPermits(ips + [ip])|)
    {
      ghost var fs := DnsPermits(ips);
      DnsPermitsMore(ips, ip);
      var udp, first := AddFilter(DnsPermit(ip, UDP), m, n, fs);
      if !first {
        return false, [];
      }
      var tcp, second := AddFilter(DnsPermit(ip, TCP), m, n, fs + [DnsPermit(ip, UDP)]);
      assert fs + [DnsPermit(ip, UDP)] + [DnsPermit(ip, TCP)] == fs + [DnsPermit(ip, UDP), DnsPermit(ip, TCP)];
      return second, [udp, tcp];
    }

    method BlockAllDns(ghost m: Store, ghost n: nat, ghost fs: seq<Filter>) returns (ok: bool, ids: seq<nat>)
      requires wfp.txn == Some(Extend(m, n, fs)) && wfp.nextId == n + |fs|
      modifies wfp`txn, wfp`nextId
      ensures Progress(ok, m, n, fs + DnsBlocks())
      ensures ok ==> ids == Range(n + |fs|, 4)
    {
      ids := [];
      var layers, protocols := [AleV4, AleV6], [UDP, TCP];
      ghost var done: seq<Filter> := fs;
      for l := 0 to 2
        invariant done == fs + DnsBlocks()[..2 * l]
        invariant wfp.txn == Some(Extend(m, n, done)) && wfp.nextId == n + |done| && ids == Range(n + |fs|, 2 * l)
      {
        for k := 0 to 2
          invariant done == fs + DnsBlocks()[..2 * l + k]
          invariant wfp.txn == Some(Extend(m, n, done)) && wfp.nextId == n + |done|
          invariant ids == Range(n + |fs|, 2 * l + k)
        {
          var id, added := AddFilter(DnsBlock(layers[l], protocols[k]), m, n, done);
          if !added {
            return false, ids;
          }
          assert DnsBlocks()[2 * l + k] == DnsBlock(layers[l], protocols[k]);
          ids, done := ids + [id], done + [DnsBlock(layers[l], protocols[k])];
        }
      }
      assert done == fs + DnsBlocks();
      ok := true;
    }

    /** Servers that do not parse are skipped and forgotten. */
    method PermitDnsServers(servers: seq<string>, ghost m: Store, ghost n: nat)
      returns (ok: bool, ids: seq<nat>, clean: seq<string>)
      requires wfp.txn == Some(m) && wfp.nextId == n
      modifies wfp`txn, wfp`nextId
      ensures Progress(ok, m, n, DnsPermits(env.ParseAll(servers)))
      ensures ok ==> ids == Range(n, |DnsPermits(env.ParseAll(servers))|) && clean == env.Clean(servers)
    {
      ids, clean := [], [];
      ghost var ips := [];
      ExtendNone(m, n);
      for k := 0 to |servers|
        invariant ips == env.ParseAll(servers[..k]) && clean == env.Clean(servers[..k])
        invariant var fs := DnsPermits(ips);
                  wfp.txn == Some(Extend(m, n, fs)) && wfp.nextId == n + |fs| && ids == Range(n, |fs|)
      {
        assert servers[..k + 1] == servers[..k] + [servers[k]];
        ParseMore(env, servers[..k], servers[k]);
        CleanMore(env, servers[..k], servers[k]);
        var ip := env.parseIP(servers[k]);
        if ip.Some? {
          var added, new' := PermitDnsServer(ip.value, ips, m, n);
          if !added {
            return false, ids, clean;
          }
          ids, clean, ips := ids + new', clean + [servers[k]], ips + [ip.value];
        }
      }
      assert servers[..|servers|] == servers;
      ok := true;
    }

    method InstallDns(servers: seq<string>, ghost m: Store, ghost n: nat)
      returns (ok: bool, ids: seq<nat>, clean: seq<string>)
      requires wfp.txn == Some(m) && wfp.nextId == n
      modifies wfp`txn, wfp`nextId
      ensures Progress(ok, m, n, DnsFilters(env.ParseAll(servers)))
      ensures ok ==> ids == Range(n, |DnsFilters(env.ParseAll(servers))|) && clean == env.Clean(servers)
    {
      ok, ids, clean := PermitDnsServers(servers, m, n);
      if ok {
        var blockIDs;
        ok, blockIDs := BlockAllDns(m, n, DnsPermits(env.ParseAll(servers)));
        ids := ids + blockIDs;
      }
    }

    method EnableDnsProtectionLocked(servers: seq<string>) returns (ok: bool)
      requires Valid()
      modifies `sessionHandle, `dnsFilterIDs, `dnsServers, `dnsProtectionEnabled, `owner, `baseIDs, `rules, wfp
      ensures Valid()
      ensures Brings(env, old(S()), S(), EnableDns(servers))
      ensures forall id :: id in wfp.live ==> id in old(wfp.live) || id >= old(wfp.nextId)
      ensures !wfp.faulty ==> (rules, ok) == Next(env, old(rules), EnableDns(servers))
      ensures ok && servers != [] && old(IsExact()) && old(dnsFilterIDs) == [] ==>
                IsExact() && rules == old(rules).(dns := Some(env.ParseAll(servers)))
                && (env.AllParse(servers) ==> dnsServers == servers)
    {
      ok := |servers| == 0;
      if !ok {
        ok := EnsureSession();
        if ok {
          ok := DnsInOneTransaction(servers);
        }
      }
    }

    method DnsInOneTransaction(servers: seq<string>) returns (ok: bool)
      requires Valid() && sessionHandle != 0 && servers != []
      modifies `dnsFilterIDs, `dnsServers, `dnsProtectionEnabled, `owner, `baseIDs, `rules, wfp
      ensures Valid()
      ensures Brings(env, old(S()), S(), EnableDns(servers))
      ensures forall id :: id in wfp.live ==> id in old(wfp.live) || id >= old(wfp.nextId)
      ensures !wfp.faulty ==> ok
      ensures ok ==> rules == old(rules).(dns := Some(env.ParseAll(servers)))
      ensures ok && old(IsExact()) && old(dnsFilterIDs) == [] ==> IsExact()
      ensures ok && env.AllParse(servers) ==> dnsServers == servers
    {
      ghost var s, r, lax := S(), rules, wfp.faulty && !(IsExact() && dnsFilterIDs == []);
      var begun, ids, clean;
      ghost var store;
      begun, ok, ids, clean, store := ReplaceDnsFilters(servers);
      if ok {
        AdoptDns(ids, clean, s, r, lax, store, env.ParseAll(servers));
        DnsReplacedBrings(env, s, store, clean, servers);
      } else if begun {
        ForgetDns(s, r);
        BringsNothing(env, s, S(), EnableDns(servers));
      } else {
        assert S() == s;
      }
    }

    /** A failed transaction: the old ids are forgotten all the same. */
    method ForgetDns(ghost s: State, ghost r: Rules)
      requires FirewallState.Valid(env, true, s, r) && s.open && s.nextId <= wfp.nextId && rules == r && wfp.faulty
      requires S() == s.(txn := wfp.txn, nextId := wfp.nextId)
      modifies `dnsFilterIDs
      ensures Valid() && S() == s.(book := s.book.(dns := []), txn := wfp.txn, nextId := wfp.nextId)
    {
      dnsFilterIDs := [];
      DnsForgottenIsValid(env, s, r, wfp.txn, wfp.nextId);
    }

    /** Notes the DNS filters that a transaction has put in force. */
    method AdoptDns(ids: seq<nat>, clean: seq<string>, ghost s: State, ghost r: Rules, ghost lax: bool, ghost store: Store,
                    ghost ips: seq<IP>)
      requires FirewallState.Valid(env, lax, s, r) && s.open && rules == r && (lax ==> wfp.faulty)
      requires ips == env.ParseAll(clean) && env.AllParse(clean) && Shrunk(store, s.book.live, s.book.dns)
      requires lax || store.Keys !! set id | id in s.book.dns
      requires var fs := DnsFilters(ips);
               wfp.live == Extend(store, s.nextId, fs) && wfp.nextId == s.nextId + |fs| && ids == Range(s.nextId, |fs|)
      requires S() == s.(book := s.book.(live := wfp.live), nextId := wfp.nextId)
      modifies `dnsFilterIDs, `dnsServers, `dnsProtectionEnabled, `owner, `baseIDs, `rules
      ensures Valid() && rules == r.(dns := Some(ips)) && dnsServers == clean && (!lax ==> IsExact())
      ensures S() == DnsReplaced(s, store, clean, ips)
    {
      dnsFilterIDs, dnsServers, dnsProtectionEnabled := ids, clean, true;
      DnsReplacedIsValid(env, lax, s, r, store, clean, ips);
      Became(DnsReplaced(s, store, clean, ips), r.(dns := Some(ips)), lax);
    }

    /** The old filters go and the new ones come, or nothing changes in force. */
    method ReplaceDnsFilters(servers: seq<string>)
      returns (begun: bool, ok: bool, ids: seq<nat>, clean: seq<string>, ghost store: Store)
      modifies wfp
      ensures ok ==> begun && old(wfp.txn) == None == wfp.txn && Shrunk(store, old(wfp.live), dnsFilterIDs)
      ensures ok && !wfp.faulty ==> store.Keys !! set id | id in dnsFilterIDs
      ensures ok ==> var fs := DnsFilters(env.ParseAll(servers));
                     wfp.live == Extend(store, old(wfp.nextId), fs) && ids == Range(old(wfp.nextId), |fs|)
                     && wfp.nextId == old(wfp.nextId) + |fs|
      ensures ok ==> env.ParseAll(clean) == env.ParseAll(servers) && env.AllParse(clean)
      ensures ok && env.AllParse(servers) ==> clean == servers
      ensures !ok ==> wfp.live == old(wfp.live) && wfp.nextId >= old(wfp.nextId)
      ensures forall id :: id in wfp.live ==> id in old(wfp.live) || id >= old(wfp.nextId)
      ensures !begun ==> wfp.txn == old(wfp.txn) && wfp.nextId == old(wfp.nextId)
      ensures !wfp.faulty && old(wfp.txn) == None ==> ok
    {
      CleanParses(env, servers);
      begun := wfp.Begin();
      ok, ids, clean, store := begun, [], [], map[];
      if ok {
        wfp.DeleteAll(dnsFilterIDs);
        store := wfp.txn.value;
        ok, ids, clean := InstallDns(servers, store, wfp.nextId);
        if ok {
          ok := wfp.Commit();
        }
        if !ok {
          wfp.Abort();
        }
      }
    }

    method EnableDnsProtection(servers: seq<string>) returns (ok: bool)
      requires Valid()
      modifies `sessionHandle, `dnsFilterIDs, `dnsServers, `dnsProtectionEnabled, `owner, `baseIDs, `rules, wfp
      ensures Valid()
      ensures !wfp.faulty ==> (rules, ok) == Next(env, old(rules), EnableDns(servers))
      ensures Brings(env, old(S()), S(), EnableDns(servers))
    {
      ok := EnableDnsProtectionLocked(servers);
    }

    method ForgetDeletedDns(ghost s: State, ghost r: Rules, ghost lax: bool)
      requires FirewallState.Valid(env, lax, s, r) && s.open && rules == r && (lax ==> wfp.faulty)
      requires Shrunk(wfp.live, s.book.live, s.book.dns) && (lax || wfp.live.Keys !! set id | id in s.book.dns)
      requires S() == s.(dnsOn := false, servers := [], book := s.book.(live := wfp.live))
      modifies `dnsFilterIDs, `owner, `baseIDs, `rules
      ensures Valid() && S() == DnsRemoved(s, wfp.live) && rules == r.(dns := None) && (!lax ==> IsExact())
    {
      dnsFilterIDs := [];
      DnsRemovedIsValid(env, lax, s, r, wfp.live);
      Became(DnsRemoved(s, wfp.live), r.(dns := None), lax);
    }

    /** With the kill switch off this closes the session, and with it goes any
        loop protection. */
    method DisableDnsProtection() returns (ok: bool)
      requires Valid()
      modifies this, wfp
      ensures Valid() && killSwitchEnabled == old(killSwitchEnabled)
      ensures !wfp.faulty ==> (rules, ok) == Next(env, old(rules), DisableDns)
      ensures Brings(env, old(S()), S(), DisableDns)
    {
      ok := RemoveDnsFilters();
      if ok && !killSwitchEnabled {
        CloseSession();
      }
    }

    /** The flag goes at once, the tracked filters in a transaction. */
    method RemoveDnsFilters() returns (ok: bool)
      requires Valid()
      modifies `dnsFilterIDs, `dnsServers, `dnsProtectionEnabled, `owner, `baseIDs, `rules, wfp
      ensures Valid()
      ensures !wfp.faulty ==> ok && rules == old(rules).(dns := None)
      ensures Brings(env, old(S()), S(), DisableDns)
    {
      ghost var s, r, lax := S(), rules, wfp.faulty;
      dnsProtectionEnabled, dnsServers := false, [];
      ok := true;
      if |dnsFilterIDs| == 0 {
        DnsUnnoted(env, lax, s, r);
      } else {
        ok := wfp.DeleteAtomically(dnsFilterIDs);
        if ok {
          ForgetDeletedDns(s, r, lax);
        } else {
          PendingIsValid(env, s, r, wfp.txn);
          DnsFlagClearedIsValid(env, s.(txn := wfp.txn), r);
        }
      }
      BringsNothing(env, s, S(), DisableDns);
    }

    // -------------------------------------------------------------------
    // Turning the kill switch off, and everything
    // -------------------------------------------------------------------

    /** The state in which `rest` of the snapshot is yet to be reinstalled. */
    ghost predicate Rebuilt(snapshot: map<string, seq<string>>, rest: set<string>)
      requires rest <= snapshot.Keys
      reads this, wfp
    {
      && IsExact() && rules == Rules(false, map[], rules.guards, None)
      && Rebuilds(env, snapshot, snapshot.Keys - rest, rules.guards)
      && endpointProtectionState == snapshot - rest
    }

    /** Reinstalls loop protection from the snapshot, in any order. */
    method RebuildGuards(snapshot: map<string, seq<string>>, ghost was: State) returns (ok: bool)
      requires Valid() && IsExact() && rules == NO_RULES && endpointProtectionState == map[] && dnsFilterIDs == []
      requires !wfp.faulty ==> forall name :: name in snapshot ==> Guardable(env, snapshot[name], name)
      requires snapshot == was.noted && Brings(env, was, S(), Op.DisableKillSwitch)
      modifies `sessionHandle, `endpointProtectionFilterIDs, `endpointProtectionState, `owner, `baseIDs, `rules, wfp
      ensures Valid() && wfp.nextId >= old(wfp.nextId)
      ensures forall id :: id in wfp.live ==> id in old(wfp.live) || id >= old(wfp.nextId)
      ensures Brings(env, was, S(), Op.DisableKillSwitch)
      ensures ok ==> Rebuilt(snapshot, {})
      ensures !wfp.faulty ==> ok
    {
      ok := true;
      var rest := snapshot.Keys;
      while rest != {}
        invariant rest <= snapshot.Keys && Valid() && !killSwitchEnabled && dnsFilterIDs == []
        invariant wfp.nextId >= old(wfp.nextId)
        invariant forall id :: id in wfp.live ==> id in old(wfp.live) || id >= old(wfp.nextId)
        invariant Brings(env, was, S(), Op.DisableKillSwitch)
        invariant ok ==> Rebuilt(snapshot, rest)
        invariant !wfp.faulty ==> ok
      {
        var name :| name in rest;
        ghost var t := S();
        var rebuilt := RebuildOne(snapshot, rest, name, ok);
        RebuildBrings(env, was, t, S(), name);
        ok := ok && rebuilt;
        rest := rest - {name};
      }
    }

    method RebuildOne(snapshot: map<string, seq<string>>, ghost rest: set<string>, name: string, ghost soFar: bool)
      returns (ok: bool)
      requires Valid() && name in rest && rest <= snapshot.Keys && (soFar ==> Rebuilt(snapshot, rest))
      requires !wfp.faulty ==> soFar && Guardable(env, snapshot[name], name)
      modifies `sessionHandle, `endpointProtectionFilterIDs, `endpointProtectionState, `owner, `baseIDs, `rules, wfp
      ensures Valid()
      ensures Brings(env, old(S()), S(), EnableGuard(name, snapshot[name]))
      ensures wfp.nextId >= old(wfp.nextId)
      ensures forall id :: id in wfp.live ==> id in old(wfp.live) || id >= old(wfp.nextId)
      ensures soFar && ok ==> Rebuilt(snapshot, rest - {name})
      ensures !wfp.faulty ==> ok
    {
      ghost var guards := rules.guards;
      if soFar {
        assert name !in guards && guards - {name} == guards;
      }
      ok := EnableEndpointProtectionLocked(name, snapshot[name]);
      if soFar && ok {
        RebuildsMore(env, snapshot, rest, guards, name);
      }
    }

    method RebuildProtections(snapshot: map<string, seq<string>>, servers: seq<string>, ghost was: State) returns (ok: bool)
      requires Valid() && IsExact() && rules == NO_RULES && endpointProtectionState == map[] && dnsFilterIDs == []
      requires !wfp.faulty ==> forall name :: name in snapshot ==> Guardable(env, snapshot[name], name)
      requires snapshot == was.noted && (servers != [] ==> servers == was.servers)
      requires Brings(env, was, S(), Op.DisableKillSwitch)
      modifies `sessionHandle, `endpointProtectionFilterIDs, `endpointProtectionState, `dnsFilterIDs, `dnsServers,
               `dnsProtectionEnabled, `owner, `baseIDs, `rules, wfp
      ensures Valid()
      ensures Brings(env, was, S(), Op.DisableKillSwitch)
      ensures forall id :: id in wfp.live ==> id in old(wfp.live) || id >= old(wfp.nextId)
      ensures ok ==> IsExact() && Rebuilds(env, snapshot, snapshot.Keys, rules.guards)
      ensures ok ==> rules == Rules(false, map[], rules.guards,
                                    if servers == [] then None else Some(env.ParseAll(servers)))
      ensures ok ==> endpointProtectionState == snapshot
      ensures ok && servers != [] && env.AllParse(servers) ==> dnsServers == servers
      ensures !wfp.faulty ==> ok
    {
      ok := RebuildGuards(snapshot, was);
      assert snapshot - {} == snapshot && snapshot.Keys - {} == snapshot.Keys;
      if |servers| > 0 {
        var again := RebuildDns(servers, was, ok);
        ok := ok && again;
      }
    }

    /** Reinstalls DNS protection from the snapshot. */
    method RebuildDns(servers: seq<string>, ghost was: State, ghost soFar: bool) returns (ok: bool)
      requires Valid() && dnsFilterIDs == [] && (soFar ==> IsExact()) && servers != [] && servers == was.servers
      requires Brings(env, was, S(), Op.DisableKillSwitch)
      modifies `sessionHandle, `dnsFilterIDs, `dnsServers, `dnsProtectionEnabled, `owner, `baseIDs, `rules, wfp
      ensures Valid() && Brings(env, was, S(), Op.DisableKillSwitch)
      ensures forall id :: id in wfp.live ==> id in old(wfp.live) || id >= old(wfp.nextId)
      ensures soFar && ok ==> IsExact() && rules == old(rules).(dns := Some(env.ParseAll(servers)))
      ensures soFar && ok && env.AllParse(servers) ==> dnsServers == servers
      ensures !wfp.faulty ==> ok
    {
      ghost var t := S();
      ok := EnableDnsProtectionLocked(servers);
      RebuildBringsDns(env, was, t, S());
    }

    /** If the call succeeds, the book is exact again whatever failed before:
        the same loop protection and the same DNS servers, under fresh ids, and
        nothing of the kill switch. */
    method DisableKillSwitch() returns (ok: bool)
      requires Valid()
      modifies this, wfp
      ensures Valid() && !killSwitchEnabled
      ensures forall id :: id in wfp.live ==> id >= old(wfp.nextId)
      ensures ok ==> IsExact() && endpointProtectionState == old(endpointProtectionState)
                     && Rebuilds(env, endpointProtectionState, endpointProtectionState.Keys, rules.guards)
      ensures ok ==> var servers := DnsSnapshot(old(S()));
                     && rules == Rules(false, map[], rules.guards,
                                       if servers == [] then None else Some(env.ParseAll(servers)))
                     && (servers != [] && env.AllParse(servers) ==> dnsServers == servers)
      ensures !wfp.faulty ==> (rules, ok) == Next(env, old(rules), Op.DisableKillSwitch)
      ensures Brings(env, old(S()), S(), Op.DisableKillSwitch)
    {
      ghost var s, r := S(), rules;
      var snapshot := endpointProtectionState;
      var servers := if dnsProtectionEnabled then dnsServers else [];
      ExactGuardsAreGuardable(env, wfp.faulty, s, r);
      CloseSession();
      BringsNothing(env, s, S(), Op.DisableKillSwitch);
      ok := RebuildProtections(snapshot, servers, s);
      if ok {
        RebuiltRules(env, wfp.faulty, s, r, rules);
      }
    }

    method Cleanup()
      requires Valid()
      modifies this, wfp
      ensures Valid() && IsExact() && wfp.live == map[] && rules == NO_RULES
      ensures Brings(env, old(S()), S(), Op.Cleanup)
    {
      CloseSession();
    }

    // -------------------------------------------------------------------
    // Whole runs
    // -------------------------------------------------------------------

    method Apply(op: Op)
      requires Valid()
      modifies this, wfp
      ensures Valid()
      ensures !wfp.faulty ==> rules == Next(env, old(rules), op).0
      ensures Brings(env, old(S()), S(), op)
    {
      match op
      case EnableKillSwitch(name, eps) => var ok := EnableKillSwitch(name, eps);
      case AddTunnel(name, eps) => var ok := AddKillSwitchTunnel(name, eps);
      case RemoveTunnel(name) => var ok := RemoveKillSwitchTunnel(name);
      case DisableKillSwitch => var ok := DisableKillSwitch();
      case EnableGuard(name, eps) => var ok := EnableEndpointProtection(name, eps);
      case DisableGuard(name) => var ok := DisableEndpointProtection(name);
      case EnableDns(servers) => var ok := EnableDnsProtection(servers);
      case DisableDns => var ok := DisableDnsProtection();
      case Cleanup => Cleanup();
    }
  }

  /** Every run from a new firewall, whatever fails on the way: the store is
      sound, nothing is in force that no call asked for, and while the kill switch
      is on a packet leaves only if it is of the base kinds or a call lets it out.
      Without failures the store is exactly what the rules call for, so that a
      packet leaves exactly when the policy lets it. */
  method Run(env: Env, faulty: bool, ops: seq<Op>) returns (f: Firewall)
    ensures Safe(f.S())
    ensures forall g :: g in InForce(f.wfp.live) ==> Asked(env, ops, g)
    ensures f.killSwitchEnabled ==> forall p :: MayLeave(InForce(f.wfp.live), p) ==> Excused(env, ops, p)
    ensures !faulty ==> Tracks(f.S().book, Wishes(NextAll(env, NO_RULES, ops)))
    ensures !faulty ==> forall p :: MayLeave(InForce(f.wfp.live), p) <==> Policy(NextAll(env, NO_RULES, ops), p)
    ensures !faulty ==> forall p :: MayBeDropped(InForce(f.wfp.live), p) <==> !Policy(NextAll(env, NO_RULES, ops), p)
    ensures !faulty ==> forall p :: MayLeave(InForce(f.wfp.live), p) <==> Allowed(env, ops, p)
  {
    f := new Firewall(env, faulty);
    for k := 0 to |ops|
      invariant f.Valid() && f.env == env && f.wfp.faulty == faulty && fresh(f) && fresh(f.wfp)
      invariant !faulty ==> f.rules == NextAll(env, NO_RULES, ops[..k])
      invariant Accounted(env, ops[..k], f.S())
    {
      ghost var s := f.S();
      f.Apply(ops[k]);
      assert ops[..k + 1][..k] == ops[..k] && ops[..k + 1] == ops[..k] + [ops[k]];
      NextAccounted(env, ops[..k], ops[k], s, f.S());
    }
    assert ops[..|ops|] == ops;
    AccountedRunFailsClosed(env, ops, f.S());
    if !faulty {
      forall p ensures MayLeave(InForce(f.wfp.live), p) <==> Policy(f.rules, p)
               ensures MayBeDropped(InForce(f.wfp.live), p) <==> !Policy(f.rules, p)
      {
        TrackedStoreComputesPolicy(f.S().book, f.rules, p);
      }
      forall p ensures MayLeave(InForce(f.wfp.live), p) <==> Allowed(env, ops, p) {
        PolicyIsHistory(env, ops, p);
      }
    }
  }
}
