/** The history as a ledger: what holds of the recorded sessions over every run. */
module HistoryLedger {
  import opened Wrappers
  import opened Text
  import opened HistoryReconciler
  import opened HistoryLaws

  predicate IsOpen(s: State, id: nat)
    requires id in s.sessions
  {
    var name := s.sessions[id].name;
    name in s.active && s.active[name] == id
  }

  /** The sessions without a close are those of the tracked tunnels, one each;
      none is closed twice. */
  ghost predicate Ledger(s: State) {
    && WellNamed(s)
    && forall id :: id in s.sessions ==> |s.sessions[id].closes| == if IsOpen(s, id) then 0 else 1
  }

  lemma ClosingKeepsLedger(s: State, gone: set<string>, reason: string)
    requires Ledger(s)
    ensures Ledger(ClosedSessions(s, gone, reason))
  {
    var c := ClosedSessions(s, gone, reason);
    forall id | id in c.sessions
      ensures |c.sessions[id].closes| == if IsOpen(c, id) then 0 else 1
    {
      assert id in s.sessions;
    }
  }

  lemma {:induction false} OpeningKeepsLedger(s: State, names: seq<string>, handshakes: Option<map<string, bool>>)
    requires Ledger(s)
    ensures Ledger(Opened(s, names, handshakes))
    decreases |names|
  {
    if names != [] {
      var o := Opened(s, names[..|names| - 1], handshakes);
      OpeningKeepsLedger(s, names[..|names| - 1], handshakes);
      OpeningOneKeepsLedger(o, names[|names| - 1], handshakes);
    }
  }

  lemma OpeningOneKeepsLedger(s: State, name: string, handshakes: Option<map<string, bool>>)
    requires Ledger(s)
    ensures Ledger(OpenedOne(s, name, handshakes))
  {
    var o := OpenedOne(s, name, handshakes);
    assert s.nextId !in s.sessions;
    forall id | id in o.sessions
      ensures |o.sessions[id].closes| == if IsOpen(o, id) then 0 else 1
    {
      if id in s.sessions {
        assert o.sessions[id] == s.sessions[id];
      }
    }
  }

  lemma StepKeepsLedger(s: State, e: Event)
    requires Ledger(s)
    ensures Ledger(Step(s, e))
  {
    match e
    case Reported(f) =>
      var r := Refresh(s, f);
      SameSessions(s, r);
      if Signature(f) != s.lastSig {
        var c := ClosedSessions(r, r.active.Keys - Active(f.names), DefaultReason(f.reason));
        ClosingKeepsLedger(r, r.active.Keys - Active(f.names), DefaultReason(f.reason));
        SameSessions(c, c.(pending := c.pending * Active(f.names)));
        OpeningKeepsLedger(c.(pending := c.pending * Active(f.names)), f.names, f.handshakes);
      }
    case _ =>
      SameSessions(s, Step(s, e));
  }

  lemma SameSessions(s: State, t: State)
    requires Ledger(s) && t.active == s.active && t.sessions == s.sessions && t.nextId == s.nextId
    ensures Ledger(t)
  {
    forall id | id in t.sessions
      ensures |t.sessions[id].closes| == if IsOpen(t, id) then 0 else 1
    {
      assert IsOpen(t, id) == IsOpen(s, id);
    }
  }

  /** Over every run: a tunnel has at most one open session, and every recorded
      session is closed at most once. */
  lemma {:induction false} RunKeepsLedger(es: seq<Event>)
    ensures Ledger(Run(es))
    decreases |es|
  {
    if es != [] {
      RunKeepsLedger(es[..|es| - 1]);
      StepKeepsLedger(Run(es[..|es| - 1]), es[|es| - 1]);
    }
  }

  lemma OneOpenSession(es: seq<Event>, a: nat, b: nat)
    requires a in Run(es).sessions && b in Run(es).sessions && Run(es).sessions[a].name == Run(es).sessions[b].name
    requires Run(es).sessions[a].closes == [] == Run(es).sessions[b].closes
    ensures a == b
  {
    RunKeepsLedger(es);
    assert IsOpen(Run(es), a) && IsOpen(Run(es), b);
  }

  // ---------------------------------------------------------------------
  // Opening
  // ---------------------------------------------------------------------

  lemma {:induction false} OpenedAfterHandshake(s: State, names: seq<string>, handshakes: Option<map<string, bool>>, id: nat)
    requires id in Opened(s, names, handshakes).sessions && id !in s.sessions
    ensures var session := Opened(s, names, handshakes).sessions[id];
            session.name in Active(names) && (handshakes.Some? ==> Shook(handshakes.value, session.name))
    decreases |names|
  {
    if names != [] {
      var o := Opened(s, names[..|names| - 1], handshakes);
      if id in o.sessions && o.sessions[id] == Opened(s, names, handshakes).sessions[id] {
        OpenedAfterHandshake(s, names[..|names| - 1], handshakes, id);
      }
    }
  }

  /** A session appears with an event that reports its tunnel, and reports its
      handshake if it reports handshakes. */
  lemma NoSessionBeforeHandshake(es: seq<Event>, e: Event, id: nat)
    requires id in Run(es + [e]).sessions && id !in Run(es).sessions
    ensures e.Reported?
    ensures var name, f := Run(es + [e]).sessions[id].name, e.status;
            name in Active(f.names) && (f.handshakes.Some? ==> Shook(f.handshakes.value, name))
  {
    assert (es + [e])[..|es|] == es;
    var s, f := Run(es), e.status;
    var w := WithoutVanished(Refresh(s, f), Active(f.names), DefaultReason(f.reason));
    OpenedAfterHandshake(w, f.names, f.handshakes, id);
  }

  // ---------------------------------------------------------------------
  // Closing
  // ---------------------------------------------------------------------

  /** The counters of the tracked tunnels are those of an event. */
  ghost predicate CountersOf(s: State, e: Status) {
    forall n :: n in s.active ==> n in s.stats && s.stats[n].rx == Count(e.rx, n) && s.stats[n].tx == Count(e.tx, n)
  }

  lemma ReconcileRefreshesCounters(s: State, e: Status)
    requires s.active.Keys <= Active(e.names) || Signature(e) != s.lastSig
    ensures CountersOf(Reconciled(s, e), e)
  {
    var r := Refresh(s, e);
    if Signature(e) != s.lastSig {
      var w := WithoutVanished(r, Active(e.names), DefaultReason(e.reason));
      OpeningSettles(w, e.names, e.handshakes);
      OpenedKeepsSignature(w, e.names, e.handshakes);
      forall n | n in Active(e.names)
        ensures n in w.stats && w.stats[n] == r.stats[n]
      {
      }
    }
  }

  /** At any time the counters are those of the last status event. */
  lemma {:induction false} RunCountersAreLast(es: seq<Event>)
    requires CleanEvents(es)
    ensures LastStatus(es).None? ==> Run(es).active == map[]
    ensures LastStatus(es).Some? ==> CountersOf(Run(es), LastStatus(es).value)
    decreases |es|
  {
    RunSettles(es);
    if es != [] {
      var before, last := es[..|es| - 1], es[|es| - 1];
      RunCountersAreLast(before);
      if last.Reported? {
        TrackedAreActive(es);
        ReconcileRefreshesCounters(Run(before), last.status);
      }
    }
  }

  /** An event that changes nothing reports every tracked tunnel. */
  lemma TrackedAreActive(es: seq<Event>)
    requires CleanEvents(es) && es != [] && es[|es| - 1].Reported?
    ensures var s, f := Run(es[..|es| - 1]), es[|es| - 1].status;
            s.active.Keys <= Active(f.names) || Signature(f) != s.lastSig
  {
    var before, f := es[..|es| - 1], es[|es| - 1].status;
    if Signature(f) == Run(before).lastSig {
      RunSettles(before);
      SignatureHasBar(f);
      LastIsClean(before);
      LastIsClean(es);
      SignatureTells(LastStatus(before).value, f);
    }
  }

  /** A session that was open gets its close. */
  ghost predicate ClosesWith(s: State, t: State, id: nat, c: Close) {
    && id in s.sessions && s.sessions[id].closes == [] && id in t.sessions && t.sessions[id].closes == [c]
  }

  lemma {:induction false} OpeningClosesNone(s: State, names: seq<string>, handshakes: Option<map<string, bool>>, id: nat)
    requires WellNamed(s) && id in s.sessions
    ensures WellNamed(Opened(s, names, handshakes))
    ensures id in Opened(s, names, handshakes).sessions && Opened(s, names, handshakes).sessions[id] == s.sessions[id]
    decreases |names|
  {
    if names != [] {
      OpeningClosesNone(s, names[..|names| - 1], handshakes, id);
    }
  }

  lemma OnlyADiffCloses(s: State, e: Event, id: nat, c: Close)
    requires ClosesWith(s, Step(s, e), id, c)
    ensures e.Reported? && Signature(e.status) != s.lastSig
  {
    QuietStepKeepsSessions(s, e);
  }

  lemma QuietStepKeepsSessions(s: State, e: Event)
    ensures !e.Reported? || Signature(e.status) == s.lastSig ==> Step(s, e).sessions == s.sessions
  {
  }

  lemma DiffCloses(s: State, f: Status, id: nat, c: Close)
    requires Ledger(s) && ClosesWith(s, Diffed(s, f), id, c)
    ensures var name := s.sessions[id].name;
            && name !in Active(f.names) && name in s.active && s.active[name] == id
            && c == CloseOf(s.stats, name, DefaultReason(f.reason))
  {
    var gone := s.active.Keys - Active(f.names);
    var w := WithoutVanished(s, Active(f.names), DefaultReason(f.reason));
    assert IsOpen(s, id);
    ClosingKeepsLedger(s, gone, DefaultReason(f.reason));
    OpeningClosesNone(w, f.names, f.handshakes, id);
    assert w.sessions[id].closes == [c];
    assert Closes(s, gone, id);
    assert w.sessions[id].closes == [] + [CloseOf(s.stats, s.sessions[id].name, DefaultReason(f.reason))];
    assert c == w.sessions[id].closes[0];
  }

  /** What closes a session: a status event that lacks its tunnel. */
  lemma ClosingStep(s: State, e: Event, id: nat, c: Close)
    requires Ledger(s) && ClosesWith(s, Step(s, e), id, c)
    ensures e.Reported? && s.sessions[id].name !in Active(e.status.names)
    ensures s.sessions[id].name in s.active && s.active[s.sessions[id].name] == id
    ensures c == CloseOf(s.stats, s.sessions[id].name, DefaultReason(e.status.reason))
  {
    OnlyADiffCloses(s, e, id, c);
    SameSessions(s, Refresh(s, e.status));
    DiffCloses(Refresh(s, e.status), e.status, id, c);
  }

  /** A session is closed with the counters of the last event that reported its
      tunnel, which is the last status event before the close. */
  lemma CloseHasLastCounters(es: seq<Event>, e: Event, id: nat, c: Close)
    requires CleanEvents(es) && ClosesWith(Run(es), Run(es + [e]), id, c)
    ensures LastStatus(es).Some?
    ensures var name, last := Run(es).sessions[id].name, LastStatus(es).value;
            && name in Active(last.names) && c.rx == (if name in last.rx then last.rx[name] else 0)
            && c.tx == (if name in last.tx then last.tx[name] else 0)
  {
    assert (es + [e])[..|es|] == es;
    RunKeepsLedger(es);
    RunSettles(es);
    RunCountersAreLast(es);
    ClosingStep(Run(es), e, id, c);
  }

  // ---------------------------------------------------------------------
  // The user's disconnects
  // ---------------------------------------------------------------------

  /** The session of `name`, open, will be closed as the user's. */
  ghost predicate MarkedOpen(s: State, name: string, id: nat) {
    name != "" && name in s.active && s.active[name] == id && ReasonOf(s.stats, name) == USER
  }

  lemma {:induction false} OpeningKeepsActive(s: State, names: seq<string>, handshakes: Option<map<string, bool>>, name: string)
    requires name in s.active
    ensures name in Opened(s, names, handshakes).active && Opened(s, names, handshakes).active[name] == s.active[name]
    decreases |names|
  {
    if names != [] {
      OpeningKeepsActive(s, names[..|names| - 1], handshakes, name);
    }
  }

  /** The mark stays until it is cleared or the session closes. */
  lemma MarkStays(s: State, e: Event, name: string, id: nat)
    requires Ledger(s) && MarkedOpen(s, name, id) && e != Cleared(name)
    ensures MarkedOpen(Step(s, e), name, id) || exists c :: ClosesWith(s, Step(s, e), id, c) && c.reason == USER
  {
    assert IsOpen(s, id);
    if e.Reported? && Signature(e.status) != s.lastSig {
      var f := e.status;
      var r := Refresh(s, f);
      var w := WithoutVanished(r, Active(f.names), DefaultReason(f.reason));
      SameSessions(s, r);
      ClosingKeepsLedger(r, r.active.Keys - Active(f.names), DefaultReason(f.reason));
      if name in Active(f.names) {
        OpeningKeepsActive(w, f.names, f.handshakes, name);
        OpenedKeepsSignature(w, f.names, f.handshakes);
      } else {
        OpeningClosesNone(w, f.names, f.handshakes, id);
        var c := CloseOf(r.stats, name, DefaultReason(f.reason));
        assert ClosesWith(s, Step(s, e), id, c) && c.reason == USER;
      }
    }
  }

  /** Sessions are never removed, and keep their closes. */
  lemma StepKeepsSessions(s: State, e: Event, id: nat)
    requires Ledger(s) && id in s.sessions
    ensures id in Step(s, e).sessions && s.sessions[id].closes <= Step(s, e).sessions[id].closes
  {
    if e.Reported? && Signature(e.status) != s.lastSig {
      var f := e.status;
      var r := Refresh(s, f);
      SameSessions(s, r);
      ClosingKeepsLedger(r, r.active.Keys - Active(f.names), DefaultReason(f.reason));
      OpeningClosesNone(WithoutVanished(r, Active(f.names), DefaultReason(f.reason)), f.names, f.handshakes, id);
    }
  }

  lemma SessionsGrow(es: seq<Event>, e: Event, id: nat)
    requires id in Run(es).sessions
    ensures id in Run(es + [e]).sessions && Run(es).sessions[id].closes <= Run(es + [e]).sessions[id].closes
  {
    assert (es + [e])[..|es|] == es;
    RunKeepsLedger(es);
    StepKeepsSessions(Run(es), e, id);
  }

  lemma {:induction false} MarkedSessionStays(es: seq<Event>, name: string, rx: int, tx: int, later: seq<Event>, id: nat)
    requires name in Run(es).active && Run(es).active[name] == id
    ensures id in Run(es + [Marked(name, rx, tx)] + later).sessions
    decreases |later|
  {
    var start := es + [Marked(name, rx, tx)];
    RunKeepsLedger(es);
    if later == [] {
      assert start + later == start;
      SessionsGrow(es, Marked(name, rx, tx), id);
    } else {
      var before, last := later[..|later| - 1], later[|later| - 1];
      MarkedSessionStays(es, name, rx, tx, before, id);
      SessionsGrow(start + before, last, id);
      InitAndLast(later);
      assert start + before + [last] == start + later;
    }
  }

  lemma MarkedCloses(es: seq<Event>, name: string, e: Event, id: nat, c: Close)
    requires MarkedOpen(Run(es), name, id) && e != Cleared(name) && ClosesWith(Run(es), Run(es + [e]), id, c)
    ensures c.reason == USER
  {
    assert (es + [e])[..|es|] == es;
    RunKeepsLedger(es);
    RunKeepsLedger(es + [e]);
    MarkStays(Run(es), e, name, id);
  }

  /** A user's mark made while the session is open, and not cleared, labels the close. */
  lemma MarkLabelsClose(es: seq<Event>, name: string, rx: int, tx: int, later: seq<Event>, e: Event, id: nat, c: Close)
    requires name != "" && name in Run(es).active && Run(es).active[name] == id && Cleared(name) !in later && e != Cleared(name)
    requires ClosesWith(Run(es + [Marked(name, rx, tx)] + later), Run(es + [Marked(name, rx, tx)] + later + [e]), id, c)
    ensures c.reason == USER
  {
    MarkedWhileOpen(es, name, rx, tx, later, id);
    MarkedCloses(es + [Marked(name, rx, tx)] + later, name, e, id, c);
  }

  lemma {:induction false} MarkedWhileOpen(es: seq<Event>, name: string, rx: int, tx: int, later: seq<Event>, id: nat)
    requires name != "" && name in Run(es).active && Run(es).active[name] == id && Cleared(name) !in later
    requires id in Run(es + [Marked(name, rx, tx)] + later).sessions
    requires Run(es + [Marked(name, rx, tx)] + later).sessions[id].closes == []
    ensures MarkedOpen(Run(es + [Marked(name, rx, tx)] + later), name, id)
    decreases |later|
  {
    var start := es + [Marked(name, rx, tx)];
    if later == [] {
      assert start + later == start && start[..|es|] == es;
    } else {
      var before, last := later[..|later| - 1], later[|later| - 1];
      InitAndLast(later);
      assert start + later == start + before + [last];
      assert (start + later)[..|start + before|] == start + before;
      MarkedSessionStays(es, name, rx, tx, before, id);
      SessionsGrow(start + before, last, id);
      MarkedWhileOpen(es, name, rx, tx, before, id);
      RunKeepsLedger(start + before);
      MarkStays(Run(start + before), last, name, id);
    }
  }

  /** A mark labels one tunnel and keeps its counters, or notes the given ones if
      it has none; taking it back changes nothing else. */
  lemma MarkTells(s: State, name: string, rx: int, tx: int)
    requires name != ""
    ensures var t := WithMark(s, name, rx, tx);
            && name in t.stats && t.stats[name].reason == "user"
            && (if name in s.stats then t.stats[name].rx == s.stats[name].rx && t.stats[name].tx == s.stats[name].tx
                else t.stats[name].rx == rx && t.stats[name].tx == tx)
            && t.stats - {name} == s.stats - {name} && t.(stats := s.stats) == s
    ensures ReasonOf(s.stats, name) == "" && name in s.stats ==> WithoutMark(WithMark(s, name, rx, tx), name) == s
    ensures ReasonOf(s.stats, name) != "user" ==> WithoutMark(s, name) == s
  {
    if name in s.stats && ReasonOf(s.stats, name) == "" {
      assert WithoutMark(WithMark(s, name, rx, tx), name).stats == s.stats;
    }
  }

  // ---------------------------------------------------------------------
  // The reason of every close
  // ---------------------------------------------------------------------

  /** A session of this tunnel is closed by the event. */
  ghost predicate ClosesOneOf(es: seq<Event>, e: Event, name: string) {
    exists id, c :: ClosesWith(Run(es), Run(es + [e]), id, c) && Run(es).sessions[id].name == name
  }

  ghost predicate MarkedAt(es: seq<Event>, name: string, i: nat) {
    && i < |es| && es[i].Marked? && es[i].name == name
    && forall j :: i < j < |es| ==> es[j] != Cleared(name) && !ClosesOneOf(es[..j], es[j], name)
  }

  /** The user disconnected the tunnel, which was neither taken back nor used up
      by a close since. */
  ghost predicate UserMarked(es: seq<Event>, name: string) { exists i: nat :: MarkedAt(es, name, i) }

  lemma MarkedAtStep(es: seq<Event>, e: Event, name: string, i: nat)
    ensures MarkedAt(es + [e], name, i) <==>
            (i == |es| && e.Marked? && e.name == name)
            || (MarkedAt(es, name, i) && e != Cleared(name) && !ClosesOneOf(es, e, name))
  {
    var all := es + [e];
    assert all[..|es|] == es;
    if i < |es| {
      forall j | i < j < |es|
        ensures all[..j] == es[..j] && all[j] == es[j]
      {
      }
    }
  }

  lemma UserMarkedStep(es: seq<Event>, e: Event, name: string)
    ensures UserMarked(es + [e], name) <==>
            (e.Marked? && e.name == name) || (UserMarked(es, name) && e != Cleared(name) && !ClosesOneOf(es, e, name))
  {
    if i: nat :| MarkedAt(es + [e], name, i) {
      MarkedAtStep(es, e, name, i);
    }
    if i: nat :| MarkedAt(es, name, i) {
      MarkedAtStep(es, e, name, i);
    }
    MarkedAtStep(es, e, name, |es|);
  }

  /** The tunnel vanishes with its session. */
  ghost predicate Vanishes(s: State, e: Event, name: string) {
    e.Reported? && Signature(e.status) != s.lastSig && name in s.active && name !in Active(e.status.names)
  }

  lemma VanishingCloses(s: State, e: Event, name: string)
    requires Ledger(s)
    ensures Vanishes(s, e, name) <==> exists id, c :: ClosesWith(s, Step(s, e), id, c) && s.sessions[id].name == name
  {
    if Vanishes(s, e, name) {
      var id, f := s.active[name], e.status;
      var r := Refresh(s, f);
      var w := WithoutVanished(r, Active(f.names), DefaultReason(f.reason));
      assert IsOpen(s, id);
      SameSessions(s, r);
      ClosingKeepsLedger(r, r.active.Keys - Active(f.names), DefaultReason(f.reason));
      OpeningClosesNone(w, f.names, f.handshakes, id);
      assert ClosesWith(s, Step(s, e), id, CloseOf(r.stats, name, DefaultReason(f.reason)));
    }
    if id, c :| ClosesWith(s, Step(s, e), id, c) && s.sessions[id].name == name {
      ClosingStep(s, e, id, c);
      OnlyADiffCloses(s, e, id, c);
    }
  }

  /** What an event does to the cached reason. */
  lemma ReasonStep(s: State, e: Event, name: string)
    requires name != "" && ReasonOf(s.stats, name) in ["", USER]
    ensures ReasonOf(Step(s, e).stats, name) ==
            if e.Marked? && e.name == name then USER
            else if e == Cleared(name) || Vanishes(s, e, name) then ""
            else ReasonOf(s.stats, name)
  {
    if e.Reported? && Signature(e.status) != s.lastSig {
      var f := e.status;
      var w := WithoutVanished(Refresh(s, f), Active(f.names), DefaultReason(f.reason));
      OpenedKeepsSignature(w, f.names, f.handshakes);
    }
  }

  /** The cached reason is the user's exactly while a mark stands. */
  lemma {:induction false} ReasonIsMark(es: seq<Event>, name: string)
    requires name != ""
    ensures ReasonOf(Run(es).stats, name) == if UserMarked(es, name) then "user" else ""
    decreases |es|
  {
    if es != [] {
      var before, e := es[..|es| - 1], es[|es| - 1];
      assert before + [e] == es;
      ReasonIsMark(before, name);
      RunKeepsLedger(before);
      UserMarkedStep(before, e, name);
      VanishingCloses(Run(before), e, name);
      ReasonStep(Run(before), e, name);
    }
  }

  ghost predicate AllNamed(s: State) { forall id :: id in s.sessions ==> s.sessions[id].name != "" }

  lemma {:induction false} OpeningNames(s: State, names: seq<string>, handshakes: Option<map<string, bool>>)
    requires AllNamed(s)
    ensures AllNamed(Opened(s, names, handshakes))
    decreases |names|
  {
    if names != [] {
      OpeningNames(s, names[..|names| - 1], handshakes);
    }
  }

  /** No session is of the empty name. */
  lemma {:induction false} SessionsAreNamed(es: seq<Event>)
    ensures AllNamed(Run(es))
    decreases |es|
  {
    if es != [] {
      var before, e := Run(es[..|es| - 1]), es[|es| - 1];
      SessionsAreNamed(es[..|es| - 1]);
      if e.Reported? {
        var f := e.status;
        OpeningNames(WithoutVanished(Refresh(before, f), Active(f.names), DefaultReason(f.reason)), f.names, f.handshakes);
      }
    }
  }

  /** Every close is labelled: as the user's while a mark stands, else with the
      event's own reason, and as a reconnect if it has none. */
  lemma CloseReasonIs(es: seq<Event>, e: Event, id: nat, c: Close)
    requires ClosesWith(Run(es), Run(es + [e]), id, c)
    ensures e.Reported?
    ensures c.reason == if UserMarked(es, Run(es).sessions[id].name) then "user"
                        else if e.status.reason == "" then "reconnect" else e.status.reason
  {
    assert (es + [e])[..|es|] == es;
    RunKeepsLedger(es);
    ClosingStep(Run(es), e, id, c);
    SessionsAreNamed(es);
    ReasonIsMark(es, Run(es).sessions[id].name);
  }

  /** Without a mark there is no user's close, unless the event says so. */
  lemma UnmarkedCloses(es: seq<Event>, e: Event, id: nat, c: Close)
    requires ClosesWith(Run(es), Run(es + [e]), id, c)
    requires forall i :: 0 <= i < |es| && es[i].Marked? ==> es[i].name != Run(es).sessions[id].name
    ensures e.Reported? && c.reason == if e.status.reason == "" then "reconnect" else e.status.reason
  {
    CloseReasonIs(es, e, id, c);
  }

  // ---------------------------------------------------------------------
  // A mark that outlives its attempt
  // ---------------------------------------------------------------------

  function Alone(name: string, shook: bool): Status { Status([name], Some(map[name := shook]), map[], map[], "") }

  const NONE_LEFT := Status([], Some(map[]), map[], map[], "")

  lemma AloneIsActive(name: string, shook: bool)
    requires name != ""
    ensures Active(Alone(name, shook).names) == {name} && Active(NONE_LEFT.names) == {}
  {
    assert Active(Alone(name, shook).names) == {name};
  }

  lemma SignaturesDiffer(name: string, shook: bool)
    requires name != "" && CleanName(name)
    ensures Signature(Alone(name, shook)) != Signature(NONE_LEFT)
    ensures Signature(Alone(name, shook)) != "" && Signature(NONE_LEFT) != ""
  {
    AloneIsActive(name, shook);
    SignatureHasBar(Alone(name, shook));
    SignatureHasBar(NONE_LEFT);
    if Signature(Alone(name, shook)) == Signature(NONE_LEFT) {
      SignatureTells(Alone(name, shook), NONE_LEFT);
    }
  }

  lemma OneMoreEvent(es: seq<Event>, e: Event)
    ensures Run(es + [e]) == Step(Run(es), e)
  {
    assert (es + [e])[..|es|] == es;
  }

  lemma StillMarked(es: seq<Event>, e: Event, name: string)
    requires name != "" && ReasonOf(Run(es).stats, name) == USER && e.Reported?
    requires name !in Run(es).active || name in Active(e.status.names)
    ensures ReasonOf(Run(es + [e]).stats, name) == USER
  {
    OneMoreEvent(es, e);
    ReasonStep(Run(es), e, name);
  }

  lemma MarkIsNoted(es: seq<Event>, name: string)
    requires name != ""
    ensures ReasonOf(Run(es + [Marked(name, 0, 0)]).stats, name) == USER
    ensures Run(es + [Marked(name, 0, 0)]).active == Run(es).active
  {
    OneMoreEvent(es, Marked(name, 0, 0));
  }

  lemma DropIsTheUsers(es: seq<Event>, name: string) returns (id: nat, c: Close)
    requires name != "" && CleanName(name) && ReasonOf(Run(es).stats, name) == USER
    requires name in Run(es).active && Run(es).lastSig == Signature(Alone(name, true))
    ensures ClosesWith(Run(es), Run(es + [Reported(NONE_LEFT)]), id, c)
    ensures Run(es).sessions[id].name == name && c.reason == "user"
  {
    var e := Reported(NONE_LEFT);
    OneMoreEvent(es, e);
    SignaturesDiffer(name, true);
    AloneIsActive(name, true);
    RunKeepsLedger(es);
    assert Vanishes(Run(es), e, name);
    VanishingCloses(Run(es), e, name);
    id, c :| ClosesWith(Run(es), Run(es + [e]), id, c) && Run(es).sessions[id].name == name;
    ReasonIsMark(es, name);
    CloseReasonIs(es, e, id, c);
  }

  lemma CleanMore(es: seq<Event>, e: Event)
    requires CleanEvents(es) && (e.Reported? ==> CleanNames(e.status.names))
    ensures CleanEvents(es + [e])
  {
  }

  /** A tunnel without a session, as after an attempt that got no handshake, is
      disconnected by the user, and later connects and drops: the drop is recorded
      as the user's. */
  lemma StaleMark(es: seq<Event>, name: string) returns (id: nat, c: Close)
    requires CleanEvents(es) && name != "" && CleanName(name) && name !in Run(es).active
    ensures var all := es + [Marked(name, 0, 0)] + [Reported(NONE_LEFT)] + [Reported(Alone(name, true))];
            && ClosesWith(Run(all), Run(all + [Reported(NONE_LEFT)]), id, c)
            && Run(all).sessions[id].name == name && c.reason == "user"
  {
    var b := es + [Marked(name, 0, 0)];
    var d := b + [Reported(NONE_LEFT)];
    CleanMore(es, Marked(name, 0, 0));
    CleanMore(b, Reported(NONE_LEFT));
    CleanMore(d, Reported(Alone(name, true)));
    MarkIsNoted(es, name);
    StillMarked(b, Reported(NONE_LEFT), name);
    AloneIsActive(name, true);
    StillMarked(d, Reported(Alone(name, true)), name);
    IsTracked(d, name);
    id, c := DropIsTheUsers(d + [Reported(Alone(name, true))], name);
  }

  lemma IsTracked(es: seq<Event>, name: string)
    requires name != "" && CleanName(name) && CleanEvents(es + [Reported(Alone(name, true))])
    ensures var s := Run(es + [Reported(Alone(name, true))]); name in s.active && s.lastSig == Signature(Alone(name, true))
  {
    var all := es + [Reported(Alone(name, true))];
    RunSettles(all);
    AloneIsActive(name, true);
  }
}
