/** Opening and closing connection-history sessions from the helper's status
    events. The history store is a map from identifiers, never used twice, to
    sessions, each with the disconnects recorded for it. */
module HistoryReconciler {
  import opened Wrappers
  import opened Text
  import StringOrder

  datatype Close = Close(rx: int, tx: int, reason: string)

  datatype Session = Session(name: string, closes: seq<Close>)

  /** The last counters seen for a tunnel, and the reason for a coming close. */
  datatype Stats = Stats(rx: int, tx: int, reason: string)

  datatype State = State(active: map<string, nat>, pending: set<string>, stats: map<string, Stats>, lastSig: string,
                         sessions: map<nat, Session>, nextId: nat)

  const INITIAL := State(map[], {}, map[], "", map[], 0)

  /** A status event; the handshakes are absent with callers that do not know them. */
  datatype Status = Status(names: seq<string>, handshakes: Option<map<string, bool>>, rx: map<string, int>, tx: map<string, int>,
                           reason: string)

  datatype Event = Reported(status: Status) | Marked(name: string, rx: int, tx: int) | Cleared(name: string)

  const USER := "user"

  // ---------------------------------------------------------------------
  // Signatures
  // ---------------------------------------------------------------------

  function NonEmptyNames(names: seq<string>): seq<string> {
    if names == [] then []
    else NonEmptyNames(names[..|names| - 1]) + if names[|names| - 1] != "" then [names[|names| - 1]] else []
  }

  function ActiveSetSignature(names: seq<string>): string { Join(StringOrder.Sort(NonEmptyNames(names)), [NUL]) }

  method ComputeActiveSetSignature(names: seq<string>) returns (r: string)
    ensures r == ActiveSetSignature(names)
  {
    if |names| == 0 {
      return "";
    }
    var cp := [];
    for n := 0 to |names|
      invariant cp == NonEmptyNames(names[..n])
    {
      assert names[..n + 1][..n] == names[..n];
      if names[n] != "" {
        cp := cp + [names[n]];
      }
    }
    assert names[..|names|] == names;
    cp := StringOrder.SortStrings(cp);
    r := Join(cp, [NUL]);
  }

  predicate Shook(handshakes: map<string, bool>, name: string) { name in handshakes && handshakes[name] }

  function Pair(name: string, shook: bool): string { name + "=" + if shook then "1" else "0" }

  function Pairs(names: seq<string>, handshakes: map<string, bool>): string {
    if names == [] then ""
    else
      var last := names[|names| - 1];
      Pairs(names[..|names| - 1], handshakes) + if last != "" then Pair(last, Shook(handshakes, last)) + ";" else ""
  }

  function HandshakeSignature(names: seq<string>, handshakes: Option<map<string, bool>>): string {
    match handshakes case None => "-" case Some(h) => Pairs(names, h)
  }

  method ComputeHandshakeSignature(names: seq<string>, handshakes: Option<map<string, bool>>) returns (r: string)
    ensures r == HandshakeSignature(names, handshakes)
  {
    if handshakes.None? {
      return "-";
    }
    r := "";
    for n := 0 to |names|
      invariant r == Pairs(names[..n], handshakes.value)
    {
      assert names[..n + 1][..n] == names[..n];
      var name := names[n];
      if name == "" {
        continue;
      }
      r := r + (name + "=" + (if Shook(handshakes.value, name) then "1" else "0") + ";");
    }
    assert names[..|names|] == names;
  }

  function Signature(e: Status): string {
    ActiveSetSignature(e.names) + "|" + HandshakeSignature(e.names, e.handshakes)
  }

  // ---------------------------------------------------------------------
  // What each event does
  // ---------------------------------------------------------------------

  function Active(names: seq<string>): set<string> { set n | n in names && n != "" }

  function Count(counters: map<string, int>, name: string): int { if name in counters then counters[name] else 0 }

  function ReasonOf(stats: map<string, Stats>, name: string): string { if name in stats then stats[name].reason else "" }

  function Refreshed(stats: map<string, Stats>, names: set<string>, e: Status): map<string, Stats> {
    stats + map n | n in names :: Stats(Count(e.rx, n), Count(e.tx, n), ReasonOf(stats, n))
  }

  function DefaultReason(reason: string): string { if reason == "" then "reconnect" else reason }

  /** The close of a tunnel's session: its last counters, and its own reason if it has one. */
  function CloseOf(stats: map<string, Stats>, name: string, reason: string): Close {
    if name !in stats then Close(0, 0, reason)
    else Close(stats[name].rx, stats[name].tx, if stats[name].reason != "" then stats[name].reason else reason)
  }

  /** The session is that of a tunnel among `gone`. */
  predicate Closes(s: State, gone: set<string>, id: nat)
    requires id in s.sessions
  {
    var name := s.sessions[id].name;
    name in gone && name in s.active && s.active[name] == id
  }

  /** The sessions of the tunnels in `gone` closed. */
  function ClosedSessions(s: State, gone: set<string>, reason: string): State {
    s.(active := map n | n in s.active && n !in gone :: s.active[n],
       stats := map n | n in s.stats && !(n in gone && n in s.active) :: s.stats[n],
       sessions := map id | id in s.sessions ::
         if Closes(s, gone, id) then
           s.sessions[id].(closes := s.sessions[id].closes + [CloseOf(s.stats, s.sessions[id].name, reason)])
         else s.sessions[id])
  }

  /** One active tunnel: its session opened, or held back until a handshake. */
  function OpenedOne(s: State, name: string, handshakes: Option<map<string, bool>>): State {
    if name == "" || name in s.active then s
    else if handshakes.Some? && !Shook(handshakes.value, name) then s.(pending := s.pending + {name})
    else s.(active := s.active[name := s.nextId], sessions := s.sessions[s.nextId := Session(name, [])],
            nextId := s.nextId + 1, pending := s.pending - {name})
  }

  function Opened(s: State, names: seq<string>, handshakes: Option<map<string, bool>>): State {
    if names == [] then s
    else OpenedOne(Opened(s, names[..|names| - 1], handshakes), names[|names| - 1], handshakes)
  }

  function WithoutVanished(s: State, names: set<string>, reason: string): State {
    var c := ClosedSessions(s, s.active.Keys - names, reason);
    c.(pending := c.pending * names)
  }

  /** The whole difference between the tracked tunnels and the active ones. */
  function Diffed(s: State, e: Status): State {
    Opened(WithoutVanished(s, Active(e.names), DefaultReason(e.reason)), e.names, e.handshakes)
  }

  function Refresh(s: State, e: Status): State { s.(stats := Refreshed(s.stats, Active(e.names), e), lastSig := Signature(e)) }

  /** A status event: the difference, unless nothing changed since the last one. */
  function Reconciled(s: State, e: Status): State {
    if Signature(e) == s.lastSig then Refresh(s, e) else Diffed(Refresh(s, e), e)
  }

  function WithMark(s: State, name: string, rx: int, tx: int): State {
    if name == "" then s
    else if name in s.stats then s.(stats := s.stats[name := s.stats[name].(reason := USER)])
    else s.(stats := s.stats[name := Stats(rx, tx, USER)])
  }

  function WithoutMark(s: State, name: string): State {
    if name != "" && name in s.stats && s.stats[name].reason == USER then
      s.(stats := s.stats[name := s.stats[name].(reason := "")])
    else s
  }

  function Step(s: State, e: Event): State {
    match e
    case Reported(status) => Reconciled(s, status)
    case Marked(name, rx, tx) => WithMark(s, name, rx, tx)
    case Cleared(name) => WithoutMark(s, name)
  }

  // ---------------------------------------------------------------------
  // The tunnel service
  // ---------------------------------------------------------------------

  /** An open session belongs to the tunnel that names it. */
  predicate WellNamed(s: State) {
    && (forall n :: n in s.active ==> s.active[n] in s.sessions && s.sessions[s.active[n]].name == n)
    && (forall id :: id in s.sessions ==> id < s.nextId)
  }

  class TunnelService {
    var activeSessions: map<string, nat>
    var pendingSessions: set<string>
    var lastKnownStats: map<string, Stats>
    var lastReconcileSig: string
    var sessions: map<nat, Session>
    var nextId: nat

    ghost function S(): State
      reads this
    {
      State(activeSessions, pendingSessions, lastKnownStats, lastReconcileSig, sessions, nextId)
    }

    constructor ()
      ensures S() == INITIAL && WellNamed(S())
    {
      activeSessions, pendingSessions, lastKnownStats := map[], {}, map[];
      lastReconcileSig := "";
      sessions, nextId := map[], 0;
    }

    method RecordConnect(name: string) returns (id: nat)
      modifies this`sessions, this`nextId
      ensures id == old(nextId) && nextId == id + 1 && sessions == old(sessions)[id := Session(name, [])]
    {
      id := nextId;
      sessions := sessions[id := Session(name, [])];
      nextId := nextId + 1;
    }

    method RecordDisconnect(id: nat, rx: int, tx: int, reason: string)
      requires id in sessions
      modifies this`sessions
      ensures sessions == old(sessions)[id := old(sessions)[id].(closes := old(sessions)[id].closes + [Close(rx, tx, reason)])]
    {
      sessions := sessions[id := sessions[id].(closes := sessions[id].closes + [Close(rx, tx, reason)])];
    }

    method MarkUserDisconnect(name: string, snapRx: int, snapTx: int)
      modifies this`lastKnownStats
      ensures S() == WithMark(old(S()), name, snapRx, snapTx)
    {
      if name == "" {
        return;
      }
      if name in lastKnownStats {
        var st := lastKnownStats[name];
        lastKnownStats := lastKnownStats[name := Stats(st.rx, st.tx, USER)];
        return;
      }
      lastKnownStats := lastKnownStats[name := Stats(snapRx, snapTx, USER)];
    }

    method ClearUserDisconnect(name: string)
      modifies this`lastKnownStats
      ensures S() == WithoutMark(old(S()), name)
    {
      if name == "" {
        return;
      }
      if name in lastKnownStats {
        var st := lastKnownStats[name];
        if st.reason == USER {
          lastKnownStats := lastKnownStats[name := Stats(st.rx, st.tx, "")];
        }
      }
    }

    method RefreshStats(names: set<string>, e: Status)
      modifies this`lastKnownStats
      ensures lastKnownStats == Refreshed(old(lastKnownStats), names, e)
    {
      ghost var was := lastKnownStats;
      var rest := names;
      while rest != {}
        invariant rest <= names && lastKnownStats == Refreshed(was, names - rest, e)
      {
        var name :| name in rest;
        RefreshMore(was, names - rest, name, e);
        assert names - (rest - {name}) == names - rest + {name};
        var reason := if name in lastKnownStats then lastKnownStats[name].reason else "";
        lastKnownStats := lastKnownStats[name := Stats(Count(e.rx, name), Count(e.tx, name), reason)];
        rest := rest - {name};
      }
      assert names - rest == names;
    }

    /** The session of a tunnel that is gone. */
    method CloseSession(name: string, disappearReason: string)
      requires WellNamed(S()) && name in activeSessions
      modifies this`activeSessions, this`lastKnownStats, this`sessions
      ensures S() == ClosedSessions(old(S()), {name}, disappearReason)
    {
      var id := activeSessions[name];
      var rx, tx, reason := 0, 0, disappearReason;
      if name in lastKnownStats {
        var st := lastKnownStats[name];
        lastKnownStats := map n | n in lastKnownStats && n != name :: lastKnownStats[n];
        rx, tx := st.rx, st.tx;
        if st.reason != "" {
          reason := st.reason;
        }
      }
      RecordDisconnect(id, rx, tx, reason);
      activeSessions := map n | n in activeSessions && n != name :: activeSessions[n];
    }

    method CloseVanished(names: set<string>, disappearReason: string)
      requires WellNamed(S())
      modifies this`activeSessions, this`lastKnownStats, this`sessions
      ensures S() == ClosedSessions(old(S()), old(activeSessions).Keys - names, disappearReason) && WellNamed(S())
    {
      ghost var was, done: set<string> := S(), {};
      var rest := activeSessions.Keys;
      ClosingNone(was, disappearReason);
      while rest != {}
        invariant rest <= was.active.Keys && done == was.active.Keys - rest - names
        invariant S() == ClosedSessions(was, done, disappearReason) && WellNamed(S())
      {
        var name :| name in rest;
        if name !in names {
          assert done + {name} == was.active.Keys - (rest - {name}) - names;
          CloseOneMore(name, disappearReason, was, done);
          done := done + {name};
        }
        rest := rest - {name};
      }
    }

    method CloseOneMore(name: string, disappearReason: string, ghost was: State, ghost done: set<string>)
      requires WellNamed(was) && S() == ClosedSessions(was, done, disappearReason) && WellNamed(S())
      requires name in was.active && name !in done
      modifies this`activeSessions, this`lastKnownStats, this`sessions
      ensures S() == ClosedSessions(was, done + {name}, disappearReason) && WellNamed(S())
    {
      ClosingMore(was, done, name, disappearReason);
      CloseSession(name, disappearReason);
    }

    method DropVanished(names: set<string>)
      modifies this`pendingSessions
      ensures pendingSessions == old(pendingSessions) * names
    {
      var rest := pendingSessions;
      ghost var was := pendingSessions;
      while rest != {}
        invariant rest <= was && pendingSessions == was * (names + rest)
      {
        var name :| name in rest;
        rest := rest - {name};
        if name !in names {
          pendingSessions := pendingSessions - {name};
        }
      }
    }

    method OpenSessions(names: seq<string>, handshakes: Option<map<string, bool>>)
      requires WellNamed(S())
      modifies this`activeSessions, this`pendingSessions, this`sessions, this`nextId
      ensures S() == Opened(old(S()), names, handshakes) && WellNamed(S())
    {
      ghost var was := S();
      for k := 0 to |names|
        invariant S() == Opened(was, names[..k], handshakes) && WellNamed(S())
        invariant lastKnownStats == was.stats && lastReconcileSig == was.lastSig
      {
        var name := names[k];
        assert names[..k + 1][..k] == names[..k];
        if name == "" {
          continue;
        }
        if name in activeSessions {
          continue;
        }
        if handshakes.Some? && !Shook(handshakes.value, name) {
          pendingSessions := pendingSessions + {name};
          continue;
        }
        var id := RecordConnect(name);
        activeSessions := activeSessions[name := id];
        pendingSessions := pendingSessions - {name};
      }
      assert names[..|names|] == names;
    }

    method ReconcileHistoryFromStatus(e: Status)
      requires WellNamed(S())
      modifies this
      ensures S() == Reconciled(old(S()), e) && WellNamed(S())
    {
      var reason := if e.reason == "" then "reconnect" else e.reason;
      var active := set n | n in e.names && n != "";
      RefreshStats(active, e);
      var activeSig := ComputeActiveSetSignature(e.names);
      var handshakeSig := ComputeHandshakeSignature(e.names, e.handshakes);
      var sig := activeSig + "|" + handshakeSig;
      var same := sig == lastReconcileSig;
      lastReconcileSig := sig;
      if same {
        return;
      }
      CloseVanished(active, reason);
      DropVanished(active);
      OpenSessions(e.names, e.handshakes);
    }
  }

  lemma RefreshMore(stats: map<string, Stats>, names: set<string>, name: string, e: Status)
    requires name !in names
    ensures Refreshed(stats, names + {name}, e) ==
            Refreshed(stats, names, e)[name := Stats(Count(e.rx, name), Count(e.tx, name), ReasonOf(stats, name))]
    ensures ReasonOf(Refreshed(stats, names, e), name) == ReasonOf(stats, name)
  {
  }

  lemma ClosingNone(s: State, reason: string)
    ensures ClosedSessions(s, {}, reason) == s
  {
  }

  /** Closing the sessions one by one. */
  lemma ClosingMore(s: State, gone: set<string>, name: string, reason: string)
    requires WellNamed(s) && name in s.active && name !in gone
    ensures var c := ClosedSessions(s, gone, reason);
            && WellNamed(c) && name in c.active
            && ClosedSessions(c, {name}, reason) == ClosedSessions(s, gone + {name}, reason)
            && WellNamed(ClosedSessions(s, gone + {name}, reason))
  {
  }
}
