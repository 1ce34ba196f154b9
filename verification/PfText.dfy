/** The text that is loaded into pf, read word by word, and what it lets through. */
module PfText {
  import opened Wrappers
  import opened Text
  import opened PfRules

  // ---------------------------------------------------------------------
  // Reading a line
  // ---------------------------------------------------------------------

  /** What a pass or block line asks of a packet; None asks nothing. */
  datatype Clause = Clause(pass: bool, incoming: bool, outgoing: bool, quick: bool, iface: Option<string>, protocols: Option<set<string>>,
                           fromPort: Option<string>, to: Option<string>, toPort: Option<string>)

  datatype Line = Nothing | Anchor(name: string) | Decision(c: Clause)

  const ANY := Clause(false, true, true, false, None, None, None, None, None)

  /** The words from the `n`-th on. */
  function Options(ws: seq<string>, n: nat, c: Clause): Option<Clause>
    requires n <= |ws|
    decreases |ws| - n
  {
    var left := |ws| - n;
    if left == 0 then Some(c)
    else if ws[n] == "in" then Options(ws, n + 1, c.(outgoing := false))
    else if ws[n] == "out" then Options(ws, n + 1, c.(incoming := false))
    else if ws[n] == "quick" then Options(ws, n + 1, c.(quick := true))
    else if ws[n] == "all" then Options(ws, n + 1, c)
    else if ws[n] == "on" && left > 1 then Options(ws, n + 2, c.(iface := Some(ws[n + 1])))
    else if ws[n] == "proto" && left > 1 && ws[n + 1] == "udp" then Options(ws, n + 2, c.(protocols := Some({"udp"})))
    else if ws[n] == "proto" && left > 2 && ws[n + 1] == "{tcp," && ws[n + 2] == "udp}" then
      Options(ws, n + 3, c.(protocols := Some({"tcp", "udp"})))
    else if ws[n] == "from" && left > 3 && ws[n + 1] == "any" && ws[n + 2] == "port" then
      Options(ws, n + 4, c.(fromPort := Some(ws[n + 3])))
    else if ws[n] == "to" && left > 1 then
      var to := if ws[n + 1] == "any" then None else Some(ws[n + 1]);
      if left > 3 && ws[n + 2] == "port" then Options(ws, n + 4, c.(to := to, toPort := Some(ws[n + 3])))
      else Options(ws, n + 2, c.(to := to))
    else None
  }

  function ReadWords(ws: seq<string>): Option<Line> {
    if ws == ["anchor", "\"dns\""] then Some(Anchor("dns"))
    else if |ws| > 0 && ws[0] == "pass" then
      match Options(ws, 1, ANY.(pass := true)) case None => None case Some(c) => Some(Decision(c))
    else if |ws| > 1 && ws[0] == "block" && ws[1] == "drop" then
      match Options(ws, 2, ANY) case None => None case Some(c) => Some(Decision(c))
    else None
  }

  /** Nothing for a line that cannot be read. */
  function Read(line: string): Option<Line> {
    if HasPrefix(line, "#") then Some(Nothing) else ReadWords(Split(line, ' '))
  }

  predicate Asks(wanted: Option<string>, found: string) { wanted.None? || wanted.value == found }

  predicate Meets(c: Clause, p: Packet) {
    && (if p.out then c.outgoing else c.incoming)
    && Asks(c.iface, p.iface) && Asks(c.fromPort, p.srcPort) && Asks(c.to, p.dst) && Asks(c.toPort, p.dstPort)
    && (c.protocols.None? || (p.udp && "udp" in c.protocols.value) || (p.tcp && "tcp" in c.protocols.value))
  }

  // ---------------------------------------------------------------------
  // Reading the anchors
  // ---------------------------------------------------------------------

  predicate Readable(lines: seq<string>) { forall i :: 0 <= i < |lines| ==> Read(lines[i]).Some? }

  function ReadAll(lines: seq<string>): seq<Line>
    requires Readable(lines)
  {
    seq(|lines|, i requires 0 <= i < |lines| => Read(lines[i]).value)
  }

  /** The sub-anchor stands where it is named. */
  function Spliced(main: seq<Line>, dns: seq<Line>): seq<Line> {
    if main == [] then []
    else (if main[0] == Anchor("dns") then dns else [main[0]]) + Spliced(main[1..], dns)
  }

  /** The first quick line that a packet meets decides, else the last, else it passes. */
  function Decide(ls: seq<Line>, p: Packet, soFar: bool): bool {
    if ls == [] then soFar
    else if !ls[0].Decision? || !Meets(ls[0].c, p) then Decide(ls[1..], p, soFar)
    else if ls[0].c.quick then ls[0].c.pass
    else Decide(ls[1..], p, ls[0].c.pass)
  }

  /** pf with these texts in its two anchors lets the packet through. */
  predicate LetsPass(main: seq<string>, dns: seq<string>, p: Packet)
    requires Readable(main) && Readable(dns)
  {
    Decide(Spliced(ReadAll(main), ReadAll(dns)), p, true)
  }

  // ---------------------------------------------------------------------
  // The lines of the rules
  // ---------------------------------------------------------------------

  predicate Word(s: string) { ' ' !in s }

  /** The texts in the rule are words, and its addresses addresses. */
  predicate CleanRule(r: Rule) {
    match r
    case PassOn(iface) => Word(iface)
    case PassUdp(ip, port) => Word(ip) && ip != "any" && (port.Some? ==> Word(port.value))
    case PassUdpPorts(from, to) => Word(from) && Word(to)
    case PassDns(iface, server) => Word(iface) && Word(server) && server != "any"
    case _ => true
  }

  /** The line says what the rule says. */
  ghost predicate Means(l: Line, r: Rule) {
    match r
    case Comment(_) => l == Nothing
    case DnsAnchor => l == Anchor("dns")
    case _ => l.Decision? && l.c.pass == Passes(r) && l.c.quick == IsQuick(r) && forall p :: Meets(l.c, p) <==> Matches(r, p)
  }

  lemma WordsSplit(ws: seq<string>)
    requires ws != [] && forall i :: 0 <= i < |ws| ==> Word(ws[i])
    requires ws[0] != "" && ws[0][0] != '#'
    ensures Read(Join(ws, " ")) == ReadWords(ws)
  {
    SplitOfJoin(ws, ' ');
    assert Join(ws, " ")[0] == ws[0][0];
  }

  const UDP_OUT := ANY.(pass := true, incoming := false, quick := true, protocols := Some({"udp"}))

  lemma PassOnReads(iface: string)
    ensures ReadWords(Words(PassOn(iface))) == Some(Decision(ANY.(pass := true, quick := true, iface := Some(iface))))
  {
    var ws := ["pass", "quick", "on", iface, "all"];
    var c := ANY.(pass := true, quick := true, iface := Some(iface));
    assert ws == Words(PassOn(iface));
    assert Options(ws, 5, c) == Options(ws, 4, c) == Some(c);
    assert Options(ws, 2, ANY.(pass := true, quick := true)) == Some(c);
  }

  lemma PassUdpReads(ip: string, port: Option<string>)
    requires ip != "any"
    ensures ReadWords(Words(PassUdp(ip, port))) == Some(Decision(UDP_OUT.(to := Some(ip), toPort := port)))
  {
    var c := UDP_OUT.(to := Some(ip), toPort := port);
    if port.None? {
      var ws := ["pass", "out", "quick", "proto", "udp", "to", ip];
      assert ws == Words(PassUdp(ip, port));
      assert Options(ws, 7, c) == Options(ws, 5, UDP_OUT) == Some(c);
      assert Options(ws, 3, UDP_OUT.(protocols := None)) == Some(c);
      assert Options(ws, 2, ANY.(pass := true, incoming := false)) == Some(c);
    } else {
      var ws := ["pass", "out", "quick", "proto", "udp", "to", ip, "port", port.value];
      assert ws == Words(PassUdp(ip, port));
      assert Options(ws, 9, c) == Options(ws, 5, UDP_OUT) == Some(c);
      assert Options(ws, 3, UDP_OUT.(protocols := None)) == Some(c);
      assert Options(ws, 2, ANY.(pass := true, incoming := false)) == Some(c);
    }
  }

  lemma PortsRead(from: string, to: string)
    ensures ReadWords(Words(PassUdpPorts(from, to))) == Some(Decision(UDP_OUT.(fromPort := Some(from), toPort := Some(to))))
  {
    var ws := ["pass", "out", "quick", "proto", "udp", "from", "any", "port", from, "to", "any", "port", to];
    var c := UDP_OUT.(fromPort := Some(from), toPort := Some(to));
    assert ws == Words(PassUdpPorts(from, to));
    assert Options(ws, 13, c) == Options(ws, 9, UDP_OUT.(fromPort := Some(from))) == Some(c);
    assert Options(ws, 5, UDP_OUT) == Some(c);
    assert Options(ws, 3, UDP_OUT.(protocols := None)) == Some(c);
    assert Options(ws, 2, ANY.(pass := true, incoming := false)) == Some(c);
  }

  lemma DnsReads(iface: string, server: string)
    requires server != "any"
    ensures ReadWords(Words(PassDns(iface, server))) ==
            Some(Decision(UDP_OUT.(iface := Some(iface), protocols := Some({"tcp", "udp"}), to := Some(server), toPort := Some("53"))))
  {
    var ws := ["pass", "out", "quick", "on", iface, "proto", "{tcp,", "udp}", "to", server, "port", "53"];
    var b := UDP_OUT.(protocols := None, iface := Some(iface));
    var d := b.(protocols := Some({"tcp", "udp"}));
    var c := d.(to := Some(server), toPort := Some("53"));
    assert ws == Words(PassDns(iface, server));
    assert Options(ws, 12, c) == Options(ws, 8, d) == Some(c);
    assert Options(ws, 5, b) == Some(c);
    assert Options(ws, 3, UDP_OUT.(protocols := None)) == Some(c);
    assert Options(ws, 2, ANY.(pass := true, incoming := false)) == Some(c);
  }

  lemma BlockDnsReads()
    ensures ReadWords(Words(BlockDns)) ==
            Some(Decision(ANY.(incoming := false, quick := true, protocols := Some({"tcp", "udp"}), toPort := Some("53"))))
  {
    var ws := ["block", "drop", "out", "quick", "proto", "{tcp,", "udp}", "to", "any", "port", "53"];
    var b := ANY.(incoming := false, quick := true);
    var d := b.(protocols := Some({"tcp", "udp"}));
    var c := d.(toPort := Some("53"));
    assert ws == Words(BlockDns);
    assert Options(ws, 11, c) == Options(ws, 7, d) == Some(c);
    assert Options(ws, 4, b) == Some(c);
  }

  lemma BlocksRead()
    ensures ReadWords(Words(BlockOut)) == Some(Decision(ANY.(incoming := false)))
    ensures ReadWords(Words(BlockIn)) == Some(Decision(ANY.(outgoing := false)))
    ensures ReadWords(Words(DnsAnchor)) == Some(Anchor("dns"))
  {
    var out, in_ := ["block", "drop", "out", "all"], ["block", "drop", "in", "all"];
    assert out == Words(BlockOut) && in_ == Words(BlockIn);
    assert Options(out, 4, ANY.(incoming := false)) == Options(out, 3, ANY.(incoming := false));
    assert Options(in_, 4, ANY.(outgoing := false)) == Options(in_, 3, ANY.(outgoing := false));
  }

  lemma WordsMean(r: Rule)
    requires CleanRule(r) && !r.Comment?
    ensures ReadWords(Words(r)).Some? && Means(ReadWords(Words(r)).value, r)
  {
    match r
    case PassOn(iface) => PassOnReads(iface);
    case PassUdp(ip, port) => PassUdpReads(ip, port);
    case PassUdpPorts(from, to) => PortsRead(from, to);
    case PassDns(iface, server) => DnsReads(iface, server);
    case BlockDns => BlockDnsReads();
    case _ => BlocksRead();
  }

  lemma FirstWord(r: Rule)
    requires !r.Comment?
    ensures Words(r)[0] != "" && Words(r)[0][0] != '#'
  {
  }

  lemma WordsAreWords(r: Rule)
    requires CleanRule(r) && !r.Comment?
    ensures forall i :: 0 <= i < |Words(r)| ==> Word(Words(r)[i])
  {
  }

  /** The line written for a rule says what the rule says. */
  lemma RenderedReads(r: Rule)
    requires CleanRule(r)
    ensures Read(Render(r)).Some? && Means(Read(Render(r)).value, r)
  {
    if r.Comment? {
      assert Render(r) == "#" + " " + Join([r.text], " ");
    } else {
      FirstWord(r);
      WordsAreWords(r);
      WordsSplit(Words(r));
      WordsMean(r);
    }
  }

  // ---------------------------------------------------------------------
  // Whole anchors
  // ---------------------------------------------------------------------

  predicate AllClean(rules: seq<Rule>) { forall i :: 0 <= i < |rules| ==> CleanRule(rules[i]) }

  ghost predicate MeanAll(ls: seq<Line>, rules: seq<Rule>) {
    |ls| == |rules| && forall i :: 0 <= i < |ls| ==> Means(ls[i], rules[i])
  }

  lemma LinesMean(rules: seq<Rule>)
    requires AllClean(rules)
    ensures Readable(LinesOf(rules)) && MeanAll(ReadAll(LinesOf(rules)), rules)
  {
    forall i | 0 <= i < |rules|
      ensures Read(LinesOf(rules)[i]).Some? && Means(Read(LinesOf(rules)[i]).value, rules[i])
    {
      RenderedReads(rules[i]);
    }
  }

  lemma MeanAppend(a: seq<Line>, x: seq<Rule>, b: seq<Line>, y: seq<Rule>)
    requires MeanAll(a, x) && MeanAll(b, y)
    ensures MeanAll(a + b, x + y)
  {
  }

  lemma {:induction false} SplicedMeans(main: seq<Line>, rules: seq<Rule>, dns: seq<Line>, sub: seq<Rule>)
    requires MeanAll(main, rules) && MeanAll(dns, sub)
    ensures MeanAll(Spliced(main, dns), Inlined(rules, sub))
    decreases |main|
  {
    if main != [] {
      assert Means(main[0], rules[0]);
      SplicedMeans(main[1..], rules[1..], dns, sub);
      MeanAppend(if main[0] == Anchor("dns") then dns else [main[0]], if rules[0].DnsAnchor? then sub else [rules[0]],
                 Spliced(main[1..], dns), Inlined(rules[1..], sub));
    }
  }

  lemma {:induction false} DecideIsVerdict(ls: seq<Line>, rules: seq<Rule>, p: Packet, soFar: bool)
    requires MeanAll(ls, rules)
    ensures Decide(ls, p, soFar) == Verdict(rules, p, soFar)
    decreases |ls|
  {
    if ls != [] {
      assert Means(ls[0], rules[0]);
      DecideIsVerdict(ls[1..], rules[1..], p, soFar);
      DecideIsVerdict(ls[1..], rules[1..], p, Passes(rules[0]));
    }
  }

  /** What pf reads in the two texts decides as the rules they were written for. */
  lemma TextDecides(main: seq<Rule>, dns: seq<Rule>, p: Packet)
    requires AllClean(main) && AllClean(dns)
    ensures Readable(LinesOf(main)) && Readable(LinesOf(dns))
    ensures LetsPass(LinesOf(main), LinesOf(dns), p) <==> LetsThrough(main, dns, p)
  {
    LinesMean(main);
    LinesMean(dns);
    SplicedMeans(ReadAll(LinesOf(main)), main, ReadAll(LinesOf(dns)), dns);
    DecideIsVerdict(Spliced(ReadAll(LinesOf(main)), ReadAll(LinesOf(dns))), Inlined(main, dns), p, true);
  }

  // ---------------------------------------------------------------------
  // The rules that are written
  // ---------------------------------------------------------------------

  /** An address is a word, and not the word for any. */
  ghost predicate CleanNet(net: Net) { forall s :: net.isIP(s) ==> Word(s) && s != "any" }

  ghost predicate CleanPorts(net: Net, tunnels: Tunnels) {
    forall n, ep :: n in tunnels && ep in tunnels[n] ==> Word(net.split(ep).1)
  }

  lemma IfaceIsWord(s: string)
    requires IsIfaceName(s)
    ensures Word(s)
  {
    var n :| 0 < n < |s| && (forall i :: 0 <= i < n ==> 'a' <= s[i] <= 'z') && AllDigits(s[n..]);
    forall i | 0 <= i < |s|
      ensures s[i] != ' '
    {
      if i >= n {
        assert s[n..][i - n] == s[i] && IsDigit(s[i]);
      }
    }
  }

  lemma {:induction false} EndpointRulesAreClean(net: Net, eps: seq<string>)
    requires CleanNet(net) && EndpointsValid(net, eps) && forall ep :: ep in eps ==> Word(net.split(ep).1)
    ensures AllClean(EndpointRules(net, eps))
    decreases |eps|
  {
    if eps != [] {
      var before, last := eps[..|eps| - 1], eps[|eps| - 1];
      EndpointRulesAreClean(net, before);
      assert last in eps;
      if Host(net, last) != "" {
        assert net.isIP(Host(net, last));
        assert CleanRule(EndpointRule(net, last));
      }
    }
  }

  lemma KillSwitchRulesAreClean(net: Net, tunnels: Tunnels)
    requires CleanNet(net) && CleanPorts(net, tunnels) && TunnelsValid(net, tunnels)
    ensures AllClean(KillSwitchRules(net, tunnels))
  {
    var ifaces := Ifaces(tunnels);
    var eps := AllEndpoints(tunnels, ifaces);
    MetFirst(eps);
    EndpointsMembers(tunnels, ifaces);
    forall i | 0 <= i < |FirstMet(eps)|
      ensures Host(net, FirstMet(eps)[i]) != "" ==> net.isIP(Host(net, FirstMet(eps)[i]))
      ensures Word(net.split(FirstMet(eps)[i]).1)
    {
      var ep := FirstMet(eps)[i];
      assert ep in eps;
      var j :| 0 <= j < |ifaces| && ep in tunnels[ifaces[j]];
      assert EndpointsValid(net, tunnels[ifaces[j]]);
    }
    EndpointRulesAreClean(net, FirstMet(eps));
    forall i | 0 <= i < |ifaces|
      ensures CleanRule(PassOn(ifaces[i]))
    {
      IfaceIsWord(ifaces[i]);
    }
    assert AllClean(BASE_START) && AllClean(DHCP) && AllClean(BASE_END) && AllClean(IfaceRules(ifaces));
  }

  lemma DnsRulesAreClean(net: Net, iface: string, servers: seq<string>)
    requires CleanNet(net) && IsIfaceName(iface) && forall i :: 0 <= i < |servers| ==> net.isIP(servers[i])
    ensures AllClean(DnsRules(iface, servers))
  {
    IfaceIsWord(iface);
  }
}
