/** Reading the resolvers out of the output of scutil --dns. */
module ScutilParser {
  import opened Wrappers
  import opened Text

  datatype Resolver = Resolver(ip: string, isVPN: bool, iface: string)

  /** What the library and the other parts of the package make of a text:
      whether it is an address, whether an interface is that of a VPN, and the
      interface that a line names. */
  datatype Tools = Tools(isIP: string -> bool, isVPN: string -> bool, ifaceIn: string -> Option<string>)

  // ---------------------------------------------------------------------
  // Lines
  // ---------------------------------------------------------------------

  predicate IsResolverHeader(line: string) { HasPrefix(line, "resolver #") || HasPrefix(line, "scoped resolver #") }

  predicate IsInterfaceLine(line: string) { !IsResolverHeader(line) && HasPrefix(line, "if_index :") }

  predicate IsServerLine(line: string) {
    !IsResolverHeader(line) && !IsInterfaceLine(line) && HasPrefix(line, "nameserver[") && ':' in line
  }

  function ServerIn(line: string): string
    requires ':' in line
  {
    Trim(line[IndexOf(line, ':') + 1..])
  }

  function WithoutZone(ip: string): string { ip[..IndexOf(ip, '%')] }

  // ---------------------------------------------------------------------
  // Blocks
  // ---------------------------------------------------------------------

  /** The lines between headers, trimmed. */
  function Blocks(lines: seq<string>): (bs: seq<seq<string>>)
    ensures bs != []
  {
    if lines == [] then [[]]
    else
      var before, line := Blocks(lines[..|lines| - 1]), Trim(lines[|lines| - 1]);
      if IsResolverHeader(line) then before + [[]]
      else before[|before| - 1 := before[|before| - 1] + [line]]
  }

  /** The last interface that a block names. */
  function InterfaceOf(t: Tools, block: seq<string>): string {
    if block == [] then ""
    else
      var line := block[|block| - 1];
      if IsInterfaceLine(line) && t.ifaceIn(line).Some? then t.ifaceIn(line).value
      else InterfaceOf(t, block[..|block| - 1])
  }

  function ServersOf(block: seq<string>): seq<string> {
    if block == [] then []
    else
      var line := block[|block| - 1];
      ServersOf(block[..|block| - 1]) + if IsServerLine(line) then [ServerIn(line)] else []
  }

  /** The valid addresses of a list of servers, attributed to an interface. */
  function Attributed(t: Tools, servers: seq<string>, iface: string): seq<Resolver> {
    if servers == [] then []
    else
      var ip := WithoutZone(servers[|servers| - 1]);
      Attributed(t, servers[..|servers| - 1], iface) + if t.isIP(ip) then [Resolver(ip, t.isVPN(iface), iface)] else []
  }

  function ResolversOf(t: Tools, block: seq<string>): seq<Resolver> {
    Attributed(t, ServersOf(block), InterfaceOf(t, block))
  }

  function AllResolvers(t: Tools, blocks: seq<seq<string>>): seq<Resolver> {
    if blocks == [] then []
    else AllResolvers(t, blocks[..|blocks| - 1]) + ResolversOf(t, blocks[|blocks| - 1])
  }

  predicate Listed(rs: seq<Resolver>, ip: string) { exists i :: 0 <= i < |rs| && rs[i].ip == ip }

  /** The first resolver of each address. */
  function FirstOfEach(rs: seq<Resolver>): seq<Resolver> {
    if rs == [] then []
    else
      var before, last := FirstOfEach(rs[..|rs| - 1]), rs[|rs| - 1];
      if Listed(before, last.ip) then before else before + [last]
  }

  function Parsed(t: Tools, out: string): seq<Resolver> { FirstOfEach(AllResolvers(t, Blocks(Split(out, '\n')))) }

  // ---------------------------------------------------------------------
  // The parser
  // ---------------------------------------------------------------------

  lemma ListedMore(rs: seq<Resolver>, r: Resolver)
    ensures forall ip :: Listed(rs + [r], ip) <==> Listed(rs, ip) || ip == r.ip
  {
    forall ip | Listed(rs, ip)
      ensures Listed(rs + [r], ip)
    {
      var i :| 0 <= i < |rs| && rs[i].ip == ip;
      assert (rs + [r])[i] == rs[i];
    }
    assert (rs + [r])[|rs|] == r;
  }

  lemma FirstMore(rs: seq<Resolver>, r: Resolver)
    ensures FirstOfEach(rs + [r]) == if Listed(FirstOfEach(rs), r.ip) then FirstOfEach(rs) else FirstOfEach(rs) + [r]
  {
    assert (rs + [r])[..|rs|] == rs;
  }

  /** The resolvers kept so far, and their addresses. */
  ghost predicate Keeps(servers: seq<Resolver>, seen: set<string>, all: seq<Resolver>) {
    servers == FirstOfEach(all) && forall ip :: ip in seen <==> Listed(servers, ip)
  }

  lemma KeepsMore(servers: seq<Resolver>, seen: set<string>, all: seq<Resolver>, r: Resolver)
    requires Keeps(servers, seen, all)
    ensures if r.ip in seen then Keeps(servers, seen, all + [r]) else Keeps(servers + [r], seen + {r.ip}, all + [r])
  {
    FirstMore(all, r);
    ListedMore(servers, r);
  }

  /** The closure flush: the pending servers of a block, attributed. */
  method Flush(t: Tools, servers: seq<Resolver>, seen: set<string>, pending: seq<string>, blockIface: string,
               ghost all: seq<Resolver>)
    returns (servers': seq<Resolver>, seen': set<string>)
    requires Keeps(servers, seen, all)
    ensures Keeps(servers', seen', all + Attributed(t, pending, blockIface))
  {
    servers', seen' := servers, seen;
    var vpn := t.isVPN(blockIface);
    ghost var now := all;
    assert all + [] == all;
    for n := 0 to |pending|
      invariant now == all + Attributed(t, pending[..n], blockIface) && Keeps(servers', seen', now)
    {
      var ip := pending[n];
      var i := IndexOf(ip, '%');
      if i < |ip| {
        ip := ip[..i];
      }
      assert ip == WithoutZone(pending[n]);
      AttributedMore(t, pending, n, blockIface, all);
      if !t.isIP(ip) {
        continue;
      }
      KeepsMore(servers', seen', now, Resolver(ip, vpn, blockIface));
      now := now + [Resolver(ip, vpn, blockIface)];
      if ip in seen' {
        continue;
      }
      seen' := seen' + {ip};
      servers' := servers' + [Resolver(ip, vpn, blockIface)];
    }
    assert pending[..|pending|] == pending;
  }

  lemma AttributedMore(t: Tools, pending: seq<string>, n: nat, iface: string, all: seq<Resolver>)
    requires n < |pending|
    ensures var ip, before := WithoutZone(pending[n]), all + Attributed(t, pending[..n], iface);
            all + Attributed(t, pending[..n + 1], iface) ==
            if t.isIP(ip) then before + [Resolver(ip, t.isVPN(iface), iface)] else before
  {
    assert pending[..n + 1][..n] == pending[..n];
    assert Attributed(t, pending[..n], iface) + [] == Attributed(t, pending[..n], iface);
  }

  lemma AllMore(t: Tools, blocks: seq<seq<string>>, block: seq<string>)
    ensures AllResolvers(t, blocks + [block]) == AllResolvers(t, blocks) + ResolversOf(t, block)
  {
    assert (blocks + [block])[..|blocks|] == blocks;
  }

  /** One more line, of the block being read. */
  method ReadLine(t: Tools, line: string, pending: seq<string>, blockIface: string, ghost block: seq<string>)
    returns (pending': seq<string>, blockIface': string)
    requires !IsResolverHeader(line) && pending == ServersOf(block) && blockIface == InterfaceOf(t, block)
    ensures pending' == ServersOf(block + [line]) && blockIface' == InterfaceOf(t, block + [line])
  {
    pending', blockIface' := pending, blockIface;
    assert (block + [line])[..|block|] == block;
    if HasPrefix(line, "if_index :") {
      var m := t.ifaceIn(line);
      if m.Some? {
        blockIface' := m.value;
      }
    } else if HasPrefix(line, "nameserver[") {
      var i := IndexOf(line, ':');
      if i < |line| {
        pending' := pending + [Trim(line[i + 1..])];
      }
    }
  }

  lemma BlocksMore(lines: seq<string>, n: nat, done: seq<seq<string>>, block: seq<string>)
    requires n < |lines| && Blocks(lines[..n]) == done + [block]
    ensures var line := Trim(lines[n]);
            Blocks(lines[..n + 1]) == if IsResolverHeader(line) then done + [block] + [[]] else done + [block + [line]]
  {
    assert lines[..n + 1][..n] == lines[..n];
  }

  method ParseDarwinScutil(t: Tools, out: string) returns (servers: seq<Resolver>)
    ensures servers == Parsed(t, out)
  {
    var lines := Split(out, '\n');
    var seen: set<string>, pending: seq<string>, blockIface := {}, [], "";
    servers := [];
    ghost var done: seq<seq<string>>, block: seq<string> := [], [];
    for n := 0 to |lines|
      invariant Blocks(lines[..n]) == done + [block]
      invariant Keeps(servers, seen, AllResolvers(t, done))
      invariant pending == ServersOf(block) && blockIface == InterfaceOf(t, block)
    {
      var line := Trim(lines[n]);
      BlocksMore(lines, n, done, block);
      if HasPrefix(line, "resolver #") || HasPrefix(line, "scoped resolver #") {
        servers, seen := FlushBlock(t, servers, seen, pending, blockIface, done, block);
        pending, blockIface := [], "";
        done, block := done + [block], [];
      } else {
        pending, blockIface := ReadLine(t, line, pending, blockIface, block);
        block := block + [line];
      }
    }
    assert lines[..|lines|] == lines;
    servers, seen := FlushBlock(t, servers, seen, pending, blockIface, done, block);
  }

  method FlushBlock(t: Tools, servers: seq<Resolver>, seen: set<string>, pending: seq<string>, blockIface: string,
                    ghost done: seq<seq<string>>, ghost block: seq<string>)
    returns (servers': seq<Resolver>, seen': set<string>)
    requires Keeps(servers, seen, AllResolvers(t, done))
    requires pending == ServersOf(block) && blockIface == InterfaceOf(t, block)
    ensures Keeps(servers', seen', AllResolvers(t, done + [block]))
  {
    AllMore(t, done, block);
    servers', seen' := Flush(t, servers, seen, pending, blockIface, AllResolvers(t, done));
  }

  // ---------------------------------------------------------------------
  // Laws
  // ---------------------------------------------------------------------

  /** The first resolver that has an address. */
  function FirstWith(rs: seq<Resolver>, ip: string): Option<Resolver> {
    if rs == [] then None
    else
      var before, last := FirstWith(rs[..|rs| - 1], ip), rs[|rs| - 1];
      if before.Some? then before else if last.ip == ip then Some(last) else None
  }

  lemma {:induction false} FirstWithTells(rs: seq<Resolver>, ip: string)
    ensures FirstWith(rs, ip).Some? <==> Listed(rs, ip)
    ensures FirstWith(rs, ip).Some? ==> FirstWith(rs, ip).value.ip == ip
    decreases |rs|
  {
    if rs != [] {
      FirstWithTells(rs[..|rs| - 1], ip);
      InitAndLast(rs);
      ListedMore(rs[..|rs| - 1], rs[|rs| - 1]);
    }
  }

  /** The first of each: every listed address once, with the first resolver that has it. */
  lemma {:induction false} FirstOfEachTells(rs: seq<Resolver>)
    ensures forall ip :: Listed(FirstOfEach(rs), ip) <==> Listed(rs, ip)
    ensures forall j, k :: 0 <= j < k < |FirstOfEach(rs)| ==> FirstOfEach(rs)[j].ip != FirstOfEach(rs)[k].ip
    ensures forall r :: r in FirstOfEach(rs) <==> FirstWith(rs, r.ip) == Some(r)
    decreases |rs|
  {
    if rs != [] {
      var before, last := rs[..|rs| - 1], rs[|rs| - 1];
      FirstOfEachTells(before);
      InitAndLast(rs);
      ListedMore(before, last);
      ListedMore(FirstOfEach(before), last);
      forall ip
        ensures FirstWith(before, ip).Some? <==> Listed(before, ip)
      {
        FirstWithTells(before, ip);
      }
    }
  }

  /** Where the interface line stands in its block makes no difference. */
  lemma InterfaceLineMoves(t: Tools, a: seq<string>, line: string, b: seq<string>)
    requires IsInterfaceLine(line) && t.ifaceIn(line).Some?
    requires forall i :: 0 <= i < |b| ==> !IsInterfaceLine(b[i])
    ensures ResolversOf(t, a + [line] + b) == ResolversOf(t, a + b + [line])
    ensures InterfaceOf(t, a + [line] + b) == t.ifaceIn(line).value
  {
    LastInterface(t, a + [line], b);
    assert (a + [line])[..|a|] == a && (a + b + [line])[..|a + b|] == a + b;
    ServersAppend(a + [line], b);
    ServersAppend(a, b);
    assert ServersOf(a) + [] == ServersOf(a) && ServersOf(a + b) + [] == ServersOf(a + b);
  }

  lemma {:induction false} LastInterface(t: Tools, a: seq<string>, b: seq<string>)
    requires forall i :: 0 <= i < |b| ==> !IsInterfaceLine(b[i])
    ensures InterfaceOf(t, a + b) == InterfaceOf(t, a)
    decreases |b|
  {
    if b == [] {
      assert a + b == a;
    } else {
      assert (a + b)[..|a + b| - 1] == a + b[..|b| - 1];
      LastInterface(t, a, b[..|b| - 1]);
    }
  }

  lemma {:induction false} ServersAppend(a: seq<string>, b: seq<string>)
    ensures ServersOf(a + b) == ServersOf(a) + ServersOf(b)
    decreases |b|
  {
    if b == [] {
      assert a + b == a;
    } else {
      assert (a + b)[..|a + b| - 1] == a + b[..|b| - 1];
      ServersAppend(a, b[..|b| - 1]);
    }
  }

  /** A valid address, labelled by its interface. */
  predicate IsResolver(t: Tools, r: Resolver) { t.isIP(r.ip) && r.isVPN == t.isVPN(r.iface) }

  lemma {:induction false} AttributedAreResolvers(t: Tools, servers: seq<string>, iface: string)
    ensures forall r :: r in Attributed(t, servers, iface) ==> IsResolver(t, r) && r.iface == iface
    decreases |servers|
  {
    if servers != [] {
      AttributedAreResolvers(t, servers[..|servers| - 1], iface);
    }
  }

  lemma {:induction false} AllAreResolvers(t: Tools, blocks: seq<seq<string>>)
    ensures forall r :: r in AllResolvers(t, blocks) ==>
              IsResolver(t, r) && exists b :: b in blocks && r in ResolversOf(t, b) && r.iface == InterfaceOf(t, b)
    decreases |blocks|
  {
    if blocks != [] {
      var before, last := blocks[..|blocks| - 1], blocks[|blocks| - 1];
      AllAreResolvers(t, before);
      AttributedAreResolvers(t, ServersOf(last), InterfaceOf(t, last));
      InitAndLast(blocks);
    }
  }

  lemma {:induction false} FirstWithIsThere(rs: seq<Resolver>, ip: string)
    ensures FirstWith(rs, ip).Some? ==> FirstWith(rs, ip).value in rs
    decreases |rs|
  {
    if rs != [] {
      FirstWithIsThere(rs[..|rs| - 1], ip);
      InitAndLast(rs);
    }
  }

  /** What is parsed: each valid address once, from the first block that lists
      it, with the interface of that block. */
  lemma ParsedTells(t: Tools, out: string)
    ensures var rs, all := Parsed(t, out), AllResolvers(t, Blocks(Split(out, '\n')));
            && (forall j, k :: 0 <= j < k < |rs| ==> rs[j].ip != rs[k].ip)
            && (forall r :: r in rs <==> FirstWith(all, r.ip) == Some(r))
            && (forall r :: r in rs ==>
                  IsResolver(t, r) && exists b :: b in Blocks(Split(out, '\n')) && r in ResolversOf(t, b) && r.iface == InterfaceOf(t, b))
  {
    var blocks := Blocks(Split(out, '\n'));
    var all := AllResolvers(t, blocks);
    FirstOfEachTells(all);
    AllAreResolvers(t, blocks);
    forall r | r in Parsed(t, out)
      ensures r in all
    {
      FirstWithIsThere(all, r.ip);
    }
  }

  // ---------------------------------------------------------------------
  // A block as scutil writes it
  // ---------------------------------------------------------------------

  /** Blanks before a line. */
  predicate Indents(pad: string) { forall i :: 0 <= i < |pad| ==> pad[i] == ' ' || pad[i] == '\t' }

  function HeaderLine(scoped: bool, n: string): string { (if scoped then "scoped resolver #" else "resolver #") + n }

  /** `index` ends in a bracket and a blank. */
  function ServerLine(index: string, ip: string, zone: string): string { "nameserver[" + index + ":" + (" " + (ip + zone)) }

  function InterfaceLine(rest: string): string { "if_index :" + rest }

  predicate IsIPText(ip: string) { ip != "" && Trimmed(ip) && '%' !in ip }

  predicate IsZone(zone: string) { zone == "" || (zone[0] == '%' && Trimmed(zone)) }

  lemma Unindented(pad: string, line: string)
    requires Indents(pad) && line != "" && Trimmed(line)
    ensures Trim(pad + line) == line
  {
    TrimLeftSpaces(pad, line);
    TrimmedStays(line);
  }

  lemma HeaderIsHeader(scoped: bool, n: string)
    ensures IsResolverHeader(HeaderLine(scoped, n))
  {
  }

  lemma FirstChar(line: string, c: char)
    requires line != "" && line[0] == c
    ensures c != 'r' && c != 's' ==> !IsResolverHeader(line)
    ensures c != 'i' ==> !IsInterfaceLine(line)
  {
  }

  lemma ZoneGoes(ip: string, zone: string)
    requires IsIPText(ip) && IsZone(zone)
    ensures WithoutZone(ip + zone) == ip && Trimmed(ip + zone) && ip + zone != ""
  {
    if zone == "" {
      assert ip + zone == ip;
    } else {
      assert ip + zone == ip + "%" + zone[1..];
      IndexOfFirst(ip, '%', zone[1..]);
    }
  }

  lemma AfterColon(head: string, rest: string)
    requires ':' !in head
    ensures ':' in head + ":" + rest && ServerIn(head + ":" + rest) == Trim(rest)
  {
    var line := head + ":" + rest;
    assert line[|head|] == ':' && line[|head| + 1..] == rest;
    IndexOfFirst(head, ':', rest);
  }

  lemma ServerIsRead(index: string, ip: string, zone: string)
    requires ':' !in index && IsIPText(ip) && IsZone(zone)
    ensures var line := ServerLine(index, ip, zone);
            IsServerLine(line) && ServerIn(line) == ip + zone && !IsResolverHeader(line) && !IsInterfaceLine(line)
  {
    var head := "nameserver[" + index;
    ZoneGoes(ip, zone);
    Unindented(" ", ip + zone);
    AfterColon(head, " " + (ip + zone));
    FirstChar(ServerLine(index, ip, zone), 'n');
    assert "nameserver[" <= head <= ServerLine(index, ip, zone);
  }

  lemma ServerIsTrimmed(index: string, ip: string, zone: string)
    requires IsIPText(ip) && IsZone(zone)
    ensures Trimmed(ServerLine(index, ip, zone)) && ServerLine(index, ip, zone) != ""
  {
    var line, end := ServerLine(index, ip, zone), ip + zone;
    ZoneGoes(ip, zone);
    assert line[0] == 'n' && line[|line| - 1] == end[|end| - 1];
  }

  datatype Server = Server(index: string, ip: string, zone: string)

  predicate IsServer(s: Server) { ':' !in s.index && IsIPText(s.ip) && IsZone(s.zone) }

  predicate AreServers(ss: seq<Server>) { forall i :: 0 <= i < |ss| ==> IsServer(ss[i]) }

  function LineOf(s: Server): string { ServerLine(s.index, s.ip, s.zone) }

  function ServerLines(pad: string, ss: seq<Server>): seq<string> {
    if ss == [] then [] else ServerLines(pad, ss[..|ss| - 1]) + [pad + LineOf(ss[|ss| - 1])]
  }

  /** A header, a line for each server, and perhaps one for the interface. */
  function Written(pad: string, header: string, ss: seq<Server>, rest: Option<string>): seq<string> {
    [header] + ServerLines(pad, ss) + LastLine(pad, rest)
  }

  /** The valid servers, all on one interface. */
  function OnInterface(t: Tools, ss: seq<Server>, iface: string): seq<Resolver> {
    if ss == [] then []
    else
      var ip := ss[|ss| - 1].ip;
      OnInterface(t, ss[..|ss| - 1], iface) + if t.isIP(ip) then [Resolver(ip, t.isVPN(iface), iface)] else []
  }

  /** The block that lines have begun, after others. */
  ghost predicate Begun(lines: seq<string>, done: seq<seq<string>>, block: seq<string>) { Blocks(lines) == done + [block] }

  lemma LineJoins(lines: seq<string>, done: seq<seq<string>>, block: seq<string>, pad: string, line: string)
    requires Begun(lines, done, block) && Indents(pad) && line != "" && Trimmed(line) && !IsResolverHeader(line)
    ensures Begun(lines + [pad + line], done, block + [line])
  {
    Unindented(pad, line);
    assert (lines + [pad + line])[..|lines|] == lines;
    assert (done + [block])[|done| := block + [line]] == done + [block + [line]];
  }

  lemma {:induction false} ServersJoin(t: Tools, lines: seq<string>, done: seq<seq<string>>, pad: string, ss: seq<Server>)
    returns (block: seq<string>)
    requires Begun(lines, done, []) && Indents(pad) && AreServers(ss)
    ensures Begun(lines + ServerLines(pad, ss), done, block) && InterfaceOf(t, block) == ""
    ensures forall iface :: Attributed(t, ServersOf(block), iface) == OnInterface(t, ss, iface)
    decreases |ss|
  {
    if ss == [] {
      block := [];
      assert lines + ServerLines(pad, ss) == lines;
    } else {
      var before, s := ss[..|ss| - 1], ss[|ss| - 1];
      var b := ServersJoin(t, lines, done, pad, before);
      ServerIsRead(s.index, s.ip, s.zone);
      ServerIsTrimmed(s.index, s.ip, s.zone);
      ZoneGoes(s.ip, s.zone);
      LineJoins(lines + ServerLines(pad, before), done, b, pad, LineOf(s));
      assert lines + ServerLines(pad, before) + [pad + LineOf(s)] == lines + ServerLines(pad, ss);
      block := b + [LineOf(s)];
      assert block[..|b|] == b;
      assert (ServersOf(b) + [s.ip + s.zone])[..|ServersOf(b)|] == ServersOf(b);
    }
  }

  lemma HeaderEnds(lines: seq<string>, header: string, scoped: bool, n: string)
    requires Trim(header) == HeaderLine(scoped, n)
    ensures Begun(lines + [header], Blocks(lines), [])
  {
    HeaderIsHeader(scoped, n);
    assert (lines + [header])[..|lines|] == lines;
  }

  lemma InterfaceIsRead(t: Tools, block: seq<string>, rest: string)
    requires t.ifaceIn(InterfaceLine(rest)).Some?
    ensures var line := InterfaceLine(rest); !IsResolverHeader(line)
    ensures InterfaceOf(t, block + [InterfaceLine(rest)]) == t.ifaceIn(InterfaceLine(rest)).value
    ensures ServersOf(block + [InterfaceLine(rest)]) == ServersOf(block)
  {
    FirstChar(InterfaceLine(rest), 'i');
    assert (block + [InterfaceLine(rest)])[..|block|] == block;
    assert IsInterfaceLine(InterfaceLine(rest));
  }

  lemma BlockEnds(t: Tools, lines: seq<string>, done: seq<seq<string>>, block: seq<string>)
    requires Begun(lines, done, block)
    ensures AllResolvers(t, Blocks(lines)) == AllResolvers(t, done) + Attributed(t, ServersOf(block), InterfaceOf(t, block))
  {
    AllMore(t, done, block);
  }

  lemma InterfaceEnds(t: Tools, lines: seq<string>, done: seq<seq<string>>, block: seq<string>, pad: string, rest: string)
    requires Begun(lines, done, block) && Indents(pad)
    requires Trimmed(InterfaceLine(rest)) && t.ifaceIn(InterfaceLine(rest)).Some?
    ensures AllResolvers(t, Blocks(lines + [pad + InterfaceLine(rest)])) ==
            AllResolvers(t, done) + Attributed(t, ServersOf(block), t.ifaceIn(InterfaceLine(rest)).value)
  {
    InterfaceIsRead(t, block, rest);
    LineJoins(lines, done, block, pad, InterfaceLine(rest));
    BlockEnds(t, lines + [pad + InterfaceLine(rest)], done, block + [InterfaceLine(rest)]);
  }

  function LastLine(pad: string, rest: Option<string>): seq<string> {
    match rest case None => [] case Some(r) => [pad + InterfaceLine(r)]
  }

  lemma Assembled(lines: seq<string>, pad: string, header: string, ss: seq<Server>, rest: Option<string>)
    ensures lines + Written(pad, header, ss, rest) == lines + [header] + ServerLines(pad, ss) + LastLine(pad, rest)
  {
  }

  lemma RestIsRead(t: Tools, lines: seq<string>, done: seq<seq<string>>, block: seq<string>, pad: string, rest: Option<string>)
    requires Begun(lines, done, block) && Indents(pad) && InterfaceOf(t, block) == ""
    requires rest.Some? ==> Trimmed(InterfaceLine(rest.value)) && t.ifaceIn(InterfaceLine(rest.value)).Some?
    ensures AllResolvers(t, Blocks(lines + LastLine(pad, rest))) ==
            AllResolvers(t, done)
            + Attributed(t, ServersOf(block), if rest.None? then "" else t.ifaceIn(InterfaceLine(rest.value)).value)
  {
    if rest.None? {
      assert lines + LastLine(pad, rest) == lines;
      BlockEnds(t, lines, done, block);
    } else {
      InterfaceEnds(t, lines, done, block, pad, rest.value);
    }
  }

  /** One more block, as scutil writes it: its valid servers without zones are
      added in order, with its interface, or with none if it names none. */
  lemma BlockIsRead(t: Tools, lines: seq<string>, pad: string, scoped: bool, n: string, header: string, ss: seq<Server>,
                    rest: Option<string>)
    requires Indents(pad) && AreServers(ss) && Trim(header) == HeaderLine(scoped, n)
    requires rest.Some? ==> Trimmed(InterfaceLine(rest.value)) && t.ifaceIn(InterfaceLine(rest.value)).Some?
    ensures AllResolvers(t, Blocks(lines + Written(pad, header, ss, rest))) ==
            AllResolvers(t, Blocks(lines))
            + OnInterface(t, ss, if rest.None? then "" else t.ifaceIn(InterfaceLine(rest.value)).value)
  {
    HeaderEnds(lines, header, scoped, n);
    var block := ServersJoin(t, lines + [header], Blocks(lines), pad, ss);
    Assembled(lines, pad, header, ss, rest);
    RestIsRead(t, lines + [header] + ServerLines(pad, ss), Blocks(lines), block, pad, rest);
  }

  /** A line of any other kind adds nothing. */
  lemma OtherLineIsIgnored(t: Tools, lines: seq<string>, line: string)
    requires var l := Trim(line);
             !("resolver #" <= l) && !("scoped resolver #" <= l) && !("if_index :" <= l) && !("nameserver[" <= l)
    ensures AllResolvers(t, Blocks(lines + [line])) == AllResolvers(t, Blocks(lines))
  {
    var bs, l := Blocks(lines), Trim(line);
    var done, block := bs[..|bs| - 1], bs[|bs| - 1];
    assert (lines + [line])[..|lines|] == lines;
    assert bs == done + [block];
    assert bs[|bs| - 1 := block + [l]] == done + [block + [l]];
    BlockEnds(t, lines, done, block);
    BlockEnds(t, lines + [line], done, block + [l]);
    assert (block + [l])[..|block|] == block;
    assert ServersOf(block) + [] == ServersOf(block);
  }
}
