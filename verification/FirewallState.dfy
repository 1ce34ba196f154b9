/** The firewall's whole state as a value, what is always true of it, and that
    each step a call can take keeps it so. */
module FirewallState {
  import opened Wrappers
  import opened WfpPolicy
  import opened WfpStore
  import opened WfpBook
  import opened FirewallSteps

  ghost function Wishes(r: Rules): Wish { o => FiltersOf(r, o) }

  datatype State = State(open: bool, killSwitch: bool, dnsOn: bool, book: Book, noted: map<string, seq<string>>,
                         servers: seq<string>, txn: Option<Store>, nextId: nat)

  function Closed(s: State): State {
    s.(open := false, killSwitch := false, dnsOn := false, book := EMPTY_BOOK, noted := map[], txn := None)
  }

  /** True in every reachable state, whichever calls have failed. */
  ghost predicate Safe(s: State) {
    (!s.open ==> s == Closed(s)) && Sound(s.book, s.killSwitch, s.nextId)
  }

  /** The book is exact, and the flags and snapshots say what the rules say. */
  ghost predicate Exact(env: Env, s: State, r: Rules) {
    && s.txn == None
    && (!s.open ==> r == NO_RULES)
    && Tracks(s.book, Wishes(r))
    && r.killSwitch == s.killSwitch
    && (!s.killSwitch ==> r.tunnels == map[])
    && s.book.tunnels.Keys == r.tunnels.Keys
    && s.book.guards.Keys == r.guards.Keys
    && GuardsNoted(env, r.guards, s.noted)
    && r.dns == (if s.dnsOn then Some(env.ParseAll(s.servers)) else None)
    && (s.dnsOn ==> env.AllParse(s.servers))
  }

  /** The endpoint snapshots are the ones the guards were made from. */
  ghost predicate GuardsNoted(env: Env, guards: map<string, LoopGuard>, noted: map<string, seq<string>>) {
    && noted.Keys == guards.Keys
    && forall name :: name in guards ==> GuardNoted(env, guards[name], name, noted[name])
  }

  ghost predicate GuardNoted(env: Env, g: LoopGuard, name: string, eps: seq<string>) {
    env.luid(name) == Some(g.luid) && g.targets == env.Targets(eps) != []
  }

  /** Exactness is promised unless something has failed: `lax` waives it. */
  ghost predicate Valid(env: Env, lax: bool, s: State, r: Rules) {
    Safe(s) && (!lax ==> Exact(env, s, r))
  }

  lemma ClosedIsValid(env: Env, s: State)
    ensures Valid(env, false, Closed(s), NO_RULES)
  {
    forall o ensures CarriesOwn(EMPTY_BOOK, Wishes(NO_RULES), o) {
      assert FiltersOf(NO_RULES, o) == [] && EMPTY_BOOK.Ids(o) == [];
    }
  }

  lemma OpenedIsValid(env: Env, lax: bool, s: State, r: Rules)
    requires Valid(env, lax, s, r)
    ensures Valid(env, lax, s.(open := true), r)
  {
  }

  // ---------------------------------------------------------------------
  // Calls that failed
  // ---------------------------------------------------------------------

  /** Ids not noted before were handed out since `n`, to an aborted transaction. */
  ghost predicate Leftover(was: map<string, seq<nat>>, now: map<string, seq<nat>>, n: nat, n': nat) {
    forall name, id :: name in now && id in now[name] ==> (name in was && id in was[name]) || n <= id < n'
  }

  /** The ids noted so far for a tunnel; an absent entry reads as none. */
  function Noted(ids: map<string, seq<nat>>, name: string): seq<nat> {
    if name in ids then ids[name] else []
  }

  lemma NotedIsLeftover(was: map<string, seq<nat>>, name: string, n: nat, k: nat)
    ensures Leftover(was, was[name := Noted(was, name) + Range(n, k)], n, n + k)
  {
  }

  /** What an abandoned transaction leaves: burnt ids, perhaps noted, perhaps
      the transaction itself. */
  function Abandoned(s: State, tunnels: map<string, seq<nat>>, txn: Option<Store>, nextId: nat): State {
    s.(book := s.book.(tunnels := tunnels), txn := txn, nextId := nextId)
  }

  lemma AbandonedIsValid(env: Env, lax: bool, s: State, r: Rules, tunnels: map<string, seq<nat>>,
                         txn: Option<Store>, nextId: nat)
    requires Valid(env, lax, s, r) && s.open && s.nextId <= nextId
    requires Leftover(s.book.tunnels, tunnels, s.nextId, nextId)
    requires lax || (tunnels == s.book.tunnels && txn == None)
    ensures Valid(env, lax, Abandoned(s, tunnels, txn, nextId), r)
  {
    var b, b' := s.book, s.book.(tunnels := tunnels);
    SoundLater(b, s.killSwitch, s.nextId, nextId);
    forall o ensures NotesApart(b', nextId, o) {
      assert NotesApart(b, s.nextId, o) && NotesApart(b, s.nextId, Base);
      if o.Tunnel? {
        assert forall id :: id in b'.Ids(o) ==> id in b.Ids(o) || s.nextId <= id < nextId;
      } else {
        assert b'.Ids(o) == b.Ids(o);
      }
    }
  }

  /** A transaction that neither committed nor aborted stays pending. */
  lemma PendingIsValid(env: Env, s: State, r: Rules, txn: Option<Store>)
    requires Valid(env, true, s, r) && s.open
    ensures Valid(env, true, s.(txn := txn), r)
  {
  }

  /** A failed DNS re-enable forgets the old ids while the abort keeps the filters. */
  lemma DnsForgottenIsValid(env: Env, s: State, r: Rules, txn: Option<Store>, nextId: nat)
    requires Valid(env, true, s, r) && s.open && s.nextId <= nextId
    ensures Valid(env, true, s.(book := s.book.(dns := []), txn := txn, nextId := nextId), r)
  {
    assert s.book.(dns := []) == s.book.Without(Dns);
    NoteSound(s.book, s.killSwitch, s.nextId, nextId, Dns, []);
  }

  // ---------------------------------------------------------------------
  // Calls that succeeded
  // ---------------------------------------------------------------------

  lemma OnlyGuardChanges(r: Rules, guards: map<string, LoopGuard>, name: string)
    requires forall other :: other != name ==> (other in guards <==> other in r.guards)
    requires forall other :: other != name && other in guards ==> guards[other] == r.guards[other]
    ensures OnlyChanges(Wishes(r), Wishes(r.(guards := guards)), Guard(name))
  {
  }

  lemma OnlyTunnelChanges(r: Rules, tunnels: map<string, TunnelPermit>, name: string)
    requires forall other :: other != name ==> (other in tunnels <==> other in r.tunnels)
    requires forall other :: other != name && other in tunnels ==> tunnels[other] == r.tunnels[other]
    ensures OnlyChanges(Wishes(r), Wishes(r.(tunnels := tunnels)), Tunnel(name))
  {
  }

  lemma OnlyDnsChanges(r: Rules, dns: Option<seq<IP>>)
    ensures OnlyChanges(Wishes(r), Wishes(r.(dns := dns)), Dns)
  {
  }

  /** The same notes over another store, whose new filters are `o`'s. */
  function Stored(b: Book, store: Store, o: Owner): Book {
    b.(live := store, owner := Reassign(store, b.owner, o))
  }

  function KillSwitchOn(s: State): State {
    s.(killSwitch := true, nextId := s.nextId + |BaseFilters()|,
       book := Stored(s.book, Extend(s.book.live, s.nextId, BaseFilters()), Base)
               .(base := Range(s.nextId, |BaseFilters()|)))
  }

  lemma BaseStoredIsPut(b: Book, n: nat, fs: seq<Filter>)
    ensures Stored(b, Extend(b.live, n, fs), Base).(base := Range(n, |fs|)) == b.Put(Base, [], n, fs)
  {
    assert [] + Range(n, |fs|) == Range(n, |fs|);
  }

  lemma OnlyBaseChanges(r: Rules)
    ensures OnlyChanges(Wishes(r), Wishes(r.(killSwitch := true)), Base)
  {
  }

  lemma KillSwitchOnTracks(s: State, r: Rules)
    requires Safe(s) && s.open && Tracks(s.book, Wishes(r)) && !r.killSwitch
    ensures Tracks(KillSwitchOn(s).book, Wishes(r.(killSwitch := true)))
  {
    BaseStoredIsPut(s.book, s.nextId, BaseFilters());
    OnlyBaseChanges(r);
    assert Wishes(r)(Base) == [];
    PutTracks(s.book, Wishes(r), Wishes(r.(killSwitch := true)), Base, s.nextId);
  }

  lemma KillSwitchOnIsValid(env: Env, lax: bool, s: State, r: Rules)
    requires Valid(env, lax, s, r) && s.open && !s.killSwitch
    ensures Valid(env, lax, KillSwitchOn(s), r.(killSwitch := true))
  {
    BaseStoredIsPut(s.book, s.nextId, BaseFilters());
    PutBaseSound(s.book, s.nextId);
    if !lax {
      KillSwitchOnTracks(s, r);
    }
  }

  function TunnelAdded(s: State, name: string, t: TunnelPermit): State {
    var fs := TunnelFilters(t);
    s.(nextId := s.nextId + |fs|,
       book := Stored(s.book, Extend(s.book.live, s.nextId, fs), Tunnel(name))
               .(tunnels := s.book.tunnels[name := Noted(s.book.tunnels, name) + Range(s.nextId, |fs|)]))
  }

  lemma TunnelAddedIsValid(env: Env, lax: bool, s: State, r: Rules, name: string, t: TunnelPermit)
    requires Valid(env, lax, s, r) && s.open && s.killSwitch && (lax || name !in r.tunnels)
    ensures Valid(env, lax, TunnelAdded(s, name, t), r.(tunnels := r.tunnels[name := t]))
  {
    assert TunnelAdded(s, name, t).book
        == s.book.Put(Tunnel(name), Noted(s.book.tunnels, name), s.nextId, TunnelFilters(t));
    PutSound(s.book, s.killSwitch, s.nextId, Tunnel(name), Noted(s.book.tunnels, name), TunnelFilters(t));
    if !lax {
      assert Noted(s.book.tunnels, name) == [] && Wishes(r)(Tunnel(name)) == [];
      OnlyTunnelChanges(r, r.tunnels[name := t], name);
      PutTracks(s.book, Wishes(r), Wishes(r.(tunnels := r.tunnels[name := t])), Tunnel(name), s.nextId);
    }
  }

  /** Both together, as when the kill switch is enabled for a tunnel. */
  function KillSwitchCame(env: Env, s: State, name: string, eps: seq<string>): State
    requires name == "" || env.luid(name).Some?
  {
    if name == "" then KillSwitchOn(s) else TunnelAdded(KillSwitchOn(s), name, env.PermitFor(name, eps))
  }

  function KillSwitchRules(env: Env, r: Rules, name: string, eps: seq<string>): Rules
    requires name == "" || env.luid(name).Some?
  {
    if name == "" then r.(killSwitch := true) else Permitted(env, r.(killSwitch := true), name, eps)
  }

  lemma KillSwitchCameIsValid(env: Env, lax: bool, s: State, r: Rules, name: string, eps: seq<string>)
    requires Valid(env, lax, s, r) && s.open && !s.killSwitch && (name == "" || env.luid(name).Some?)
    ensures Valid(env, lax, KillSwitchCame(env, s, name, eps), KillSwitchRules(env, r, name, eps))
  {
    KillSwitchOnIsValid(env, lax, s, r);
    if name != "" {
      TunnelAddedIsValid(env, lax, KillSwitchOn(s), r.(killSwitch := true), name, env.PermitFor(name, eps));
    }
  }

  function TunnelRemoved(s: State, name: string, store: Store): State {
    s.(book := Stored(s.book, store, Tunnel(name)).(tunnels := s.book.tunnels - {name}))
  }

  lemma TunnelRemovedIsValid(env: Env, lax: bool, s: State, r: Rules, name: string, store: Store)
    requires Valid(env, lax, s, r) && s.open && Shrunk(store, s.book.live, Noted(s.book.tunnels, name))
    requires lax || store.Keys !! set id | id in Noted(s.book.tunnels, name)
    ensures Valid(env, lax, TunnelRemoved(s, name, store), r.(tunnels := r.tunnels - {name}))
  {
    assert s.book.Ids(Tunnel(name)) == Noted(s.book.tunnels, name);
    assert TunnelRemoved(s, name, store).book == s.book.Take(Tunnel(name), store);
    TakeSound(s.book, s.killSwitch, s.nextId, Tunnel(name), store);
    if !lax {
      OnlyTunnelChanges(r, r.tunnels - {name}, name);
      TakeTracks(s.book, Wishes(r), Wishes(r.(tunnels := r.tunnels - {name})), Tunnel(name), store);
    }
  }

  function GuardAdded(s: State, name: string, eps: seq<string>, g: LoopGuard): State {
    var fs := GuardFilters(g.targets, g.luid);
    s.(nextId := s.nextId + |fs|, noted := s.noted[name := eps],
       book := Stored(s.book, Extend(s.book.live, s.nextId, fs), Guard(name))
               .(guards := s.book.guards[name := Range(s.nextId, |fs|)]))
  }

  lemma {:induction false} GuardWeights(targets: seq<Target>, luid: nat)
    ensures forall i :: 0 <= i < |GuardFilters(targets, luid)| ==> GuardFilters(targets, luid)[i].weight == 13
  {
    if targets != [] {
      GuardWeights(targets[..|targets| - 1], luid);
    }
  }

  lemma GuardFiltersMore(targets: seq<Target>, t: Target, luid: nat)
    ensures GuardFilters(targets + [t], luid) == GuardFilters(targets, luid) + LoopBlocks(t, luid)
  {
    assert (targets + [t])[..|targets|] == targets;
  }

  lemma DnsPermitsMore(ips: seq<IP>, ip: IP)
    ensures DnsPermits(ips + [ip]) == DnsPermits(ips) + [DnsPermit(ip, UDP), DnsPermit(ip, TCP)]
  {
    assert (ips + [ip])[..|ips|] == ips;
  }

  lemma TunnelFiltersMore(luid: nat, ips: seq<IP>, ip: IP)
    ensures TunnelFilters(TunnelPermit(luid, ips + [ip])) ==
            TunnelFilters(TunnelPermit(luid, ips)) + [EndpointPermit(ip)]
  {
    assert EndpointPermits(ips + [ip]) == EndpointPermits(ips) + [EndpointPermit(ip)];
  }

  lemma GuardsNotedPut(env: Env, guards: map<string, LoopGuard>, noted: map<string, seq<string>>, name: string,
                       g: LoopGuard, eps: seq<string>)
    requires GuardsNoted(env, guards, noted) && GuardNoted(env, g, name, eps)
    ensures GuardsNoted(env, guards[name := g], noted[name := eps])
  {
  }

  lemma GuardAddedIsPut(s: State, name: string, eps: seq<string>, g: LoopGuard)
    ensures GuardAdded(s, name, eps, g).book == s.book.Put(Guard(name), [], s.nextId, GuardFilters(g.targets, g.luid))
  {
    var ids := Range(s.nextId, |GuardFilters(g.targets, g.luid)|);
    assert [] + ids == ids;
  }

  lemma GuardAddedIsSafe(s: State, name: string, g: LoopGuard, eps: seq<string>)
    requires Safe(s) && s.open
    ensures Safe(GuardAdded(s, name, eps, g))
  {
    GuardAddedIsPut(s, name, eps, g);
    GuardWeights(g.targets, g.luid);
    PutSound(s.book, s.killSwitch, s.nextId, Guard(name), [], GuardFilters(g.targets, g.luid));
  }

  lemma GuardAddedTracks(s: State, r: Rules, name: string, g: LoopGuard, eps: seq<string>)
    requires Safe(s) && Tracks(s.book, Wishes(r)) && name !in r.guards
    ensures Tracks(GuardAdded(s, name, eps, g).book, Wishes(r.(guards := r.guards[name := g])))
  {
    GuardAddedIsPut(s, name, eps, g);
    OnlyGuardChanges(r, r.guards[name := g], name);
    assert Wishes(r)(Guard(name)) == [];
    PutTracks(s.book, Wishes(r), Wishes(r.(guards := r.guards[name := g])), Guard(name), s.nextId);
  }

  lemma GuardAddedIsExact(env: Env, s: State, r: Rules, name: string, g: LoopGuard, eps: seq<string>)
    requires Safe(s) && s.open && Exact(env, s, r) && name !in r.guards && GuardNoted(env, g, name, eps)
    ensures Exact(env, GuardAdded(s, name, eps, g), r.(guards := r.guards[name := g]))
  {
    GuardAddedTracks(s, r, name, g, eps);
    GuardsNotedPut(env, r.guards, s.noted, name, g, eps);
  }

  lemma GuardAddedIsValid(env: Env, lax: bool, s: State, r: Rules, name: string, g: LoopGuard, eps: seq<string>)
    requires Valid(env, lax, s, r) && s.open && GuardNoted(env, g, name, eps) && (lax || name !in r.guards)
    ensures Valid(env, lax, GuardAdded(s, name, eps, g), r.(guards := r.guards[name := g]))
  {
    GuardAddedIsSafe(s, name, g, eps);
    if !lax {
      GuardAddedIsExact(env, s, r, name, g, eps);
    }
  }

  function GuardRemoved(s: State, name: string, store: Store): State {
    s.(book := Stored(s.book, store, Guard(name)).(guards := s.book.guards - {name}), noted := s.noted - {name})
  }

  lemma GuardRemovedIsValid(env: Env, lax: bool, s: State, r: Rules, name: string, store: Store)
    requires Valid(env, lax, s, r) && s.open && Shrunk(store, s.book.live, Noted(s.book.guards, name))
    requires lax || store.Keys !! set id | id in Noted(s.book.guards, name)
    ensures Valid(env, lax, GuardRemoved(s, name, store), r.(guards := r.guards - {name}))
  {
    assert s.book.Ids(Guard(name)) == Noted(s.book.guards, name);
    assert GuardRemoved(s, name, store).book == s.book.Take(Guard(name), store);
    TakeSound(s.book, s.killSwitch, s.nextId, Guard(name), store);
    if !lax {
      OnlyGuardChanges(r, r.guards - {name}, name);
      TakeTracks(s.book, Wishes(r), Wishes(r.(guards := r.guards - {name})), Guard(name), store);
    }
  }

  /** The old DNS filters go and the new ones come in one transaction. */
  function DnsReplaced(s: State, store: Store, clean: seq<string>, ips: seq<IP>): State {
    var fs := DnsFilters(ips);
    s.(nextId := s.nextId + |fs|, dnsOn := true, servers := clean,
       book := Stored(Stored(s.book, store, Dns), Extend(store, s.nextId, fs), Dns)
               .(dns := Range(s.nextId, |fs|)))
  }

  lemma {:induction false} DnsWeights(ips: seq<IP>)
    ensures forall i :: 0 <= i < |DnsFilters(ips)| ==> DnsFilters(ips)[i].weight != 0
  {
    if ips != [] {
      DnsWeights(ips[..|ips| - 1]);
      assert forall i :: 0 <= i < |DnsPermits(ips)| - 2 ==> DnsPermits(ips)[i] == DnsFilters(ips[..|ips| - 1])[i];
    }
  }

  lemma DnsReplacedIsPut(s: State, store: Store, clean: seq<string>, ips: seq<IP>)
    ensures DnsReplaced(s, store, clean, ips).book
         == s.book.Take(Dns, store).Put(Dns, [], s.nextId, DnsFilters(ips))
  {
    var ids := Range(s.nextId, |DnsFilters(ips)|);
    assert [] + ids == ids;
  }

  lemma DnsReplacedIsSafe(s: State, store: Store, clean: seq<string>, ips: seq<IP>)
    requires Safe(s) && s.open && Shrunk(store, s.book.live, s.book.dns)
    ensures Safe(DnsReplaced(s, store, clean, ips))
  {
    DnsReplacedIsPut(s, store, clean, ips);
    DnsWeights(ips);
    TakeSound(s.book, s.killSwitch, s.nextId, Dns, store);
    PutSound(s.book.Take(Dns, store), s.killSwitch, s.nextId, Dns, [], DnsFilters(ips));
  }

  lemma DnsReplacedIsExact(env: Env, s: State, r: Rules, store: Store, clean: seq<string>, ips: seq<IP>)
    requires Safe(s) && s.open && Exact(env, s, r) && ips == env.ParseAll(clean) && env.AllParse(clean)
    requires Shrunk(store, s.book.live, s.book.dns) && store.Keys !! set id | id in s.book.dns
    ensures Exact(env, DnsReplaced(s, store, clean, ips), r.(dns := Some(ips)))
  {
    var off := r.(dns := None);
    DnsReplacedIsPut(s, store, clean, ips);
    OnlyDnsChanges(r, None);
    OnlyDnsChanges(off, Some(ips));
    TakeTracks(s.book, Wishes(r), Wishes(off), Dns, store);
    PutTracks(s.book.Take(Dns, store), Wishes(off), Wishes(off.(dns := Some(ips))), Dns, s.nextId);
  }

  lemma DnsReplacedIsValid(env: Env, lax: bool, s: State, r: Rules, store: Store, clean: seq<string>, ips: seq<IP>)
    requires Valid(env, lax, s, r) && s.open && ips == env.ParseAll(clean) && env.AllParse(clean)
    requires Shrunk(store, s.book.live, s.book.dns)
    requires lax || store.Keys !! set id | id in s.book.dns
    ensures Valid(env, lax, DnsReplaced(s, store, clean, ips), r.(dns := Some(ips)))
  {
    DnsReplacedIsSafe(s, store, clean, ips);
    if !lax {
      DnsReplacedIsExact(env, s, r, store, clean, ips);
    }
  }

  function DnsRemoved(s: State, store: Store): State {
    s.(book := Stored(s.book, store, Dns).(dns := []), dnsOn := false, servers := [])
  }

  lemma DnsRemovedIsValid(env: Env, lax: bool, s: State, r: Rules, store: Store)
    requires Valid(env, lax, s, r) && s.open && Shrunk(store, s.book.live, s.book.dns)
    requires lax || store.Keys !! set id | id in s.book.dns
    ensures Valid(env, lax, DnsRemoved(s, store), r.(dns := None))
  {
    assert DnsRemoved(s, store).book == s.book.Take(Dns, store);
    TakeSound(s.book, s.killSwitch, s.nextId, Dns, store);
    if !lax {
      OnlyDnsChanges(r, None);
      TakeTracks(s.book, Wishes(r), Wishes(r.(dns := None)), Dns, store);
    }
  }

  /** Nothing noted for DNS means that DNS protection is off, or was left so. */
  lemma DnsUnnoted(env: Env, lax: bool, s: State, r: Rules)
    requires Valid(env, lax, s, r) && s.book.dns == []
    ensures Valid(env, lax, s.(dnsOn := false, servers := []), r)
    ensures !lax ==> r.dns == None
  {
    if !lax {
      assert CarriesOwn(s.book, Wishes(r), Dns);
    }
  }

  lemma DnsFlagClearedIsValid(env: Env, s: State, r: Rules)
    requires Valid(env, true, s, r)
    ensures Valid(env, true, s.(dnsOn := false, servers := []), r)
  {
  }

  /** A tunnel without notes is a tunnel without permits; removing them is nothing. */
  lemma UnnotedTunnel(env: Env, s: State, r: Rules, name: string)
    requires Exact(env, s, r)
    ensures |Noted(s.book.tunnels, name)| == 0 <==> name !in r.tunnels
    ensures name !in r.tunnels ==> r.(tunnels := r.tunnels - {name}) == r
  {
    assert CarriesOwn(s.book, Wishes(r), Tunnel(name));
    assert name !in r.tunnels ==> r.tunnels - {name} == r.tunnels;
  }

  lemma UnnotedGuard(env: Env, s: State, r: Rules, name: string)
    requires Exact(env, s, r)
    ensures |Noted(s.book.guards, name)| == 0 <==> name !in r.guards
    ensures name !in r.guards ==> r.(guards := r.guards - {name}) == r
  {
    assert CarriesOwn(s.book, Wishes(r), Guard(name));
    assert name !in r.guards ==> r.guards - {name} == r.guards;
  }

  /** What a rebuild from the snapshot brings back is what was there. */
  lemma GuardsRebuilt(env: Env, lax: bool, s: State, r: Rules, guards: map<string, LoopGuard>)
    requires Valid(env, lax, s, r) && Rebuilds(env, s.noted, s.noted.Keys, guards)
    ensures !lax ==> guards == r.guards
  {
    if !lax {
      forall name | name in guards ensures guards[name] == r.guards[name] {
        assert GuardNoted(env, r.guards[name], name, s.noted[name]);
      }
    }
  }

  /** The DNS servers that survive the kill switch. */
  function DnsSnapshot(s: State): seq<string> { if s.dnsOn then s.servers else [] }

  /** The rules after a rebuild from the snapshots are those of the step. */
  lemma RebuiltRules(env: Env, lax: bool, s: State, r: Rules, r': Rules)
    requires Valid(env, lax, s, r) && Rebuilds(env, s.noted, s.noted.Keys, r'.guards)
    requires r' == Rules(false, map[], r'.guards,
                         if DnsSnapshot(s) == [] then None else Some(env.ParseAll(DnsSnapshot(s))))
    ensures !lax ==> r' == Next(env, r, Op.DisableKillSwitch).0
  {
    if !lax {
      GuardsRebuilt(env, lax, s, r, r'.guards);
      if s.dnsOn {
        ParseAllLength(env, s.servers);
      }
    }
  }

  lemma {:induction false} ParseAllLength(env: Env, ss: seq<string>)
    requires env.AllParse(ss)
    ensures |env.ParseAll(ss)| == |ss|
  {
    if ss != [] {
      ParseAllLength(env, ss[..|ss| - 1]);
    }
  }

  ghost predicate Guardable(env: Env, endpoints: seq<string>, name: string) {
    env.luid(name).Some? && env.Targets(endpoints) != []
  }

  lemma ExactGuardsAreGuardable(env: Env, lax: bool, s: State, r: Rules)
    requires Valid(env, lax, s, r)
    ensures !lax ==> forall name :: name in s.noted ==> Guardable(env, s.noted[name], name)
  {
    if !lax {
      forall name | name in s.noted ensures Guardable(env, s.noted[name], name) {
        assert GuardNoted(env, r.guards[name], name, s.noted[name]);
      }
    }
  }

  /** What an exact store lets through is what the rules let through. */
  lemma TrackedStoreComputesPolicy(b: Book, r: Rules, p: Packet)
    requires Tracks(b, Wishes(r))
    ensures MayLeave(InForce(b.live), p) <==> Policy(r, p)
    ensures MayBeDropped(InForce(b.live), p) <==> !Policy(r, p)
  {
    forall f | f in b.live.Values ensures Wanted(r, f) {
      var id :| id in b.live && b.live[id] == f;
      var o := b.owner[id];
      assert CarriesOwn(b, Wishes(r), o);
      assert f in FiltersOf(r, o);
    }
    forall f | Wanted(r, f) ensures f in b.live.Values {
      var o :| f in FiltersOf(r, o);
      assert CarriesOwn(b, Wishes(r), o);
      var i :| 0 <= i < |FiltersOf(r, o)| && FiltersOf(r, o)[i] == f;
      assert b.live[b.Ids(o)[i]] == f;
    }
    assert InForce(b.live) == FiltersFor(r);
    FiltersComputePolicy(r, p);
  }
}
