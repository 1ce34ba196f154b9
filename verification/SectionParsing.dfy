/** The parser as a fold over the assignments of each section: which texts it
    accepts, and what each field of the result is. */
module SectionParsing {
  import opened Wrappers
  import opened Text
  import opened WireGuardConfig
  import opened ConfigParser
  import opened ConfigRoundTrip
  import opened FieldEditor
  import opened FieldEditorLaws
  import HookParsing

  // ---------------------------------------------------------------------
  // Assignments
  // ---------------------------------------------------------------------

  type Pair = (string, string)

  function PairOf(line: string): seq<Pair> {
    if !IsComment(line) && HasKey(line) then [(KeyAt(line), ValueAt(line))] else []
  }

  function PairsOf(lines: seq<string>): seq<Pair> {
    if lines == [] then [] else PairsOf(lines[..|lines| - 1]) + PairOf(lines[|lines| - 1])
  }

  lemma {:induction false} PairsAppend(a: seq<string>, b: seq<string>)
    ensures PairsOf(a + b) == PairsOf(a) + PairsOf(b)
    decreases |b|
  {
    if b == [] {
      assert a + b == a;
    } else {
      assert (a + b)[..|a + b| - 1] == a + b[..|b| - 1];
      PairsAppend(a, b[..|b| - 1]);
    }
  }

  /** The state after some assignments in the current section. */
  function Folded(s: Scan, ps: seq<Pair>): Option<Scan> {
    if ps == [] then Some(s)
    else
      var last := ps[|ps| - 1];
      match Folded(s, ps[..|ps| - 1])
      case None => None
      case Some(t) => match KeyLine(t, last.0, last.1) case Err(_) => None case Ok(u) => Some(u)
  }

  lemma {:induction false} FoldedAppend(s: Scan, a: seq<Pair>, b: seq<Pair>)
    ensures Folded(s, a + b) == match Folded(s, a) case None => None case Some(t) => Folded(t, b)
    decreases |b|
  {
    if b == [] {
      assert a + b == a;
    } else {
      assert (a + b)[..|a + b| - 1] == a + b[..|b| - 1];
      FoldedAppend(s, a, b[..|b| - 1]);
    }
  }

  lemma KeyLineForgetsLine(s: Scan, n: nat, key: string, value: string)
    ensures KeyLine(s, key, value).Ok? <==> KeyLine(s.(line := n), key, value).Ok?
    ensures KeyLine(s, key, value).Ok? ==> KeyLine(s.(line := n), key, value).value == KeyLine(s, key, value).value.(line := n)
  {
  }

  lemma {:induction false} FoldedForgetsLine(s: Scan, n: nat, ps: seq<Pair>)
    ensures Folded(s.(line := n), ps) == match Folded(s, ps) case None => None case Some(t) => Some(t.(line := n))
    decreases |ps|
  {
    if ps != [] {
      var last := ps[|ps| - 1];
      FoldedForgetsLine(s, n, ps[..|ps| - 1]);
      var t := Folded(s, ps[..|ps| - 1]);
      if t.Some? {
        KeyLineForgetsLine(t.value, n, last.0, last.1);
      }
    }
  }

  // ---------------------------------------------------------------------
  // The lines of a section
  // ---------------------------------------------------------------------

  predicate LineOk(line: string) { NUL !in Trim(line) && (IsComment(line) || HasKey(line)) }

  predicate LinesOk(lines: seq<string>) { forall i :: 0 <= i < |lines| ==> LineOk(lines[i]) }

  lemma LineIsPair(s: Scan, line: string)
    requires !IsHeader(line)
    ensures ParseLine(s, line).Ok? <==> LineOk(line) && Folded(s, PairOf(line)).Some?
    ensures ParseLine(s, line).Ok? ==> ParseLine(s, line).value == Folded(s, PairOf(line)).value.(line := s.line + 1)
  {
    var t, s1 := Trim(line), s.(line := s.line + 1);
    HookParsing.HeaderIsNoKey(line);
    LineParses(s, line, t, ParseTrimmed(s1, t));
    if LineOk(line) && !IsComment(line) {
      KeyLineParses(s1, t, KeyAt(line), ValueAt(line));
      KeyLineForgetsLine(s, s.line + 1, KeyAt(line), ValueAt(line));
      assert [(KeyAt(line), ValueAt(line))][..0] == [];
    }
  }

  /** The lines of a section parse as its assignments. */
  lemma {:induction false} BodyIsPairs(s: Scan, body: seq<string>)
    requires NoHeaders(body)
    ensures ParseLines(s, body).Ok? <==> LinesOk(body) && Folded(s, PairsOf(body)).Some?
    ensures ParseLines(s, body).Ok? ==> ParseLines(s, body).value == Folded(s, PairsOf(body)).value.(line := s.line + |body|)
    decreases |body|
  {
    if body != [] {
      var before, last := body[..|body| - 1], body[|body| - 1];
      BodyIsPairs(s, before);
      InitAndLast(body);
      ParseAppend(s, before, [last]);
      FoldedAppend(s, PairsOf(before), PairOf(last));
      assert LinesOk(body) <==> LinesOk(before) && LineOk(last);
      if LinesOk(before) && Folded(s, PairsOf(before)).Some? {
        LastIsPair(s, before, last);
      }
    }
  }

  lemma LastIsPair(s: Scan, before: seq<string>, last: string)
    requires !IsHeader(last) && ParseLines(s, before).Ok? && Folded(s, PairsOf(before)).Some?
    requires ParseLines(s, before).value == Folded(s, PairsOf(before)).value.(line := s.line + |before|)
    ensures var t, u := ParseLines(s, before).value, Folded(s, PairsOf(before)).value;
            && (ParseLines(t, [last]).Ok? <==> LineOk(last) && Folded(u, PairOf(last)).Some?)
            && (ParseLines(t, [last]).Ok? ==> ParseLines(t, [last]).value == Folded(u, PairOf(last)).value.(line := s.line + |before| + 1))
  {
    var t, u := ParseLines(s, before).value, Folded(s, PairsOf(before)).value;
    LineIsPair(t, last);
    FoldedForgetsLine(u, t.line, PairOf(last));
    assert [last][1..] == [];
  }

  // ---------------------------------------------------------------------
  // Sections
  // ---------------------------------------------------------------------

  ghost predicate KnownBlocks(bs: seq<Block>) {
    forall j :: 0 <= j < |bs| ==> KindOf(bs[j].header) != OtherSection && NoHeaders(bs[j].body)
  }

  function Opened(s: Scan, header: string): Scan {
    if KindOf(header) == InterfaceSection then s.(section := InInterface)
    else s.(section := InPeer, peers := s.peers + [NO_PEER])
  }

  /** The state after some sections, but for the line number. */
  function ScanOf(bs: seq<Block>): Option<Scan> {
    if bs == [] then Some(START)
    else
      var b := bs[|bs| - 1];
      match ScanOf(bs[..|bs| - 1])
      case None => None
      case Some(s) => Folded(Opened(s, b.header), PairsOf(b.body))
  }

  predicate BodiesOk(bs: seq<Block>) { forall j :: 0 <= j < |bs| ==> LinesOk(bs[j].body) }

  lemma HeaderOpens(s: Scan, header: string)
    requires KindOf(header) != OtherSection
    ensures ParseLines(s, [header]) == Ok(Opened(s, header).(line := s.line + 1))
  {
    var t, s1 := Trim(header), s.(line := s.line + 1);
    HookParsing.HeaderIsNoKey(header);
    HeadersAreOk(t);
    LineParses(s, header, t, ParseTrimmed(s1, t));
    assert [header][1..] == [];
  }

  lemma HeadersAreOk(t: string)
    requires Lower(t) == "[interface]" || Lower(t) == "[peer]"
    ensures NUL !in t && !IsSkipped(t)
  {
    assert forall i :: 0 <= i < |t| ==> LowerChar(t[i]) == Lower(t)[i];
    assert LowerChar(t[0]) == '[' && t[..1] == [t[0]] && "#"[0] == '#' && ";"[0] == ';';
  }

  lemma BlockIsFold(s: Scan, b: Block)
    requires KindOf(b.header) != OtherSection && NoHeaders(b.body)
    ensures ParseLines(s, BlockLines(b)).Ok? <==> LinesOk(b.body) && Folded(Opened(s, b.header), PairsOf(b.body)).Some?
    ensures ParseLines(s, BlockLines(b)).Ok? ==>
              ParseLines(s, BlockLines(b)).value ==
              Folded(Opened(s, b.header), PairsOf(b.body)).value.(line := s.line + |BlockLines(b)|)
  {
    HeaderOpens(s, b.header);
    ParseAppend(s, [b.header], b.body);
    BodyIsPairs(Opened(s, b.header).(line := s.line + 1), b.body);
    FoldedForgetsLine(Opened(s, b.header), s.line + 1, PairsOf(b.body));
  }

  lemma BlockForgetsLine(s: Scan, k: nat, b: Block)
    requires KindOf(b.header) != OtherSection && NoHeaders(b.body)
    ensures var r, f := ParseLines(s.(line := k), BlockLines(b)), Folded(Opened(s, b.header), PairsOf(b.body));
            && (r.Ok? <==> LinesOk(b.body) && f.Some?)
            && (r.Ok? ==> r.value == f.value.(line := k + |BlockLines(b)|))
  {
    BlockIsFold(s.(line := k), b);
    assert Opened(s.(line := k), b.header) == Opened(s, b.header).(line := k);
    FoldedForgetsLine(Opened(s, b.header), k, PairsOf(b.body));
  }

  /** What parsing the lines of some sections gives, from line `n` on. */
  ghost predicate IsFoldOf(r: Result<Scan, ParseError>, bs: seq<Block>, n: nat) {
    && (r.Ok? <==> BodiesOk(bs) && ScanOf(bs).Some?)
    && (r.Ok? ==> r.value == ScanOf(bs).value.(line := n + |BlocksLines(bs)|))
  }

  lemma OneBlockMore(before: seq<Block>, b: Block)
    ensures BodiesOk(before + [b]) <==> BodiesOk(before) && LinesOk(b.body)
    ensures BlocksLines(before + [b]) == BlocksLines(before) + BlockLines(b)
    ensures ScanOf(before + [b]) == Then(ScanOf(before), b)
  {
    var bs := before + [b];
    assert bs[..|before|] == before && bs[|before|] == b;
  }

  function Then(o: Option<Scan>, b: Block): Option<Scan> {
    match o case None => None case Some(s) => Folded(Opened(s, b.header), PairsOf(b.body))
  }

  /** One result after another. */
  lemma InSequence(r: Result<Scan, ParseError>, q: Result<Scan, ParseError>, ok: bool, more: bool, o: Option<Scan>, f: Option<Scan>,
                   m: nat, n: nat)
    requires (r.Ok? <==> ok && o.Some?) && (r.Ok? ==> r.value == o.value.(line := m)) && (o.None? ==> f.None?)
    requires r.Ok? ==> (q.Ok? <==> more && f.Some?) && (q.Ok? ==> q.value == f.value.(line := n))
    ensures var all := match r case Err(e) => Err(e) case Ok(_) => q;
            (all.Ok? <==> ok && more && f.Some?) && (all.Ok? ==> all.value == f.value.(line := n))
  {
  }

  /** Parsing some lines that gave `o`, if they are `ok`, and then those of a section. */
  lemma NextBlockFolds(s0: Scan, n: nat, a: seq<string>, ok: bool, o: Option<Scan>, b: Block)
    requires KindOf(b.header) != OtherSection && NoHeaders(b.body)
    requires ParseLines(s0, a).Ok? <==> ok && o.Some?
    requires ParseLines(s0, a).Ok? ==> ParseLines(s0, a).value == o.value.(line := n + |a|)
    ensures var r, lines := ParseLines(s0, a + BlockLines(b)), |a + BlockLines(b)|;
            && (r.Ok? <==> ok && LinesOk(b.body) && Then(o, b).Some?)
            && (r.Ok? ==> r.value == Then(o, b).value.(line := n + lines))
  {
    var r := ParseLines(s0, a);
    var q := if r.Ok? then ParseLines(r.value, BlockLines(b)) else r;
    if r.Ok? {
      var k, f := n + |a|, Folded(Opened(o.value, b.header), PairsOf(b.body));
      BlockForgetsLine(o.value, k, b);
      assert r.value == o.value.(line := k) && Then(o, b) == f;
      assert q.Ok? <==> LinesOk(b.body) && f.Some?;
      assert k + |BlockLines(b)| == n + |a + BlockLines(b)|;
    }
    InSequence(r, q, ok, LinesOk(b.body), o, Then(o, b), n + |a|, n + |a + BlockLines(b)|);
    ParseAppend(s0, a, BlockLines(b));
  }

  lemma {:induction false} BlocksAreFolds(n: nat, bs: seq<Block>)
    requires KnownBlocks(bs)
    ensures IsFoldOf(ParseLines(START.(line := n), BlocksLines(bs)), bs, n)
    decreases |bs|
  {
    if bs != [] {
      var before, b := bs[..|bs| - 1], bs[|bs| - 1];
      BlocksAreFolds(n, before);
      NextBlockFolds(START.(line := n), n, BlocksLines(before), BodiesOk(before), ScanOf(before), b);
      OneBlockMore(before, b);
      InitAndLast(bs);
    }
  }

  /** Assignments outside of a section are refused. */
  lemma {:induction false} NothingFolds(s: Scan, ps: seq<Pair>)
    requires s.section == NoSection && ps != []
    ensures Folded(s, ps).None?
    decreases |ps|
  {
    if |ps| > 1 {
      NothingFolds(s, ps[..|ps| - 1]);
    } else {
      assert ps[..0] == [];
    }
  }

  lemma PreambleParses(lines: seq<string>)
    requires NoHeaders(lines)
    ensures ParseLines(START, lines).Ok? <==> LinesOk(lines) && PairsOf(lines) == []
    ensures ParseLines(START, lines).Ok? ==> ParseLines(START, lines).value == START.(line := |lines|)
  {
    BodyIsPairs(START, lines);
    if PairsOf(lines) != [] {
      NothingFolds(START, PairsOf(lines));
    }
  }

  /** Which documents the parser accepts, and what it makes of them. */
  lemma DocumentParses(d: Document)
    requires WellFormed(d) && KnownBlocks(d.blocks)
    ensures ParseLines(START, LinesOf(d)).Ok? <==>
            LinesOk(d.preamble) && PairsOf(d.preamble) == [] && BodiesOk(d.blocks) && ScanOf(d.blocks).Some?
    ensures ParseLines(START, LinesOf(d)).Ok? ==>
              ParseLines(START, LinesOf(d)).value == ScanOf(d.blocks).value.(line := |LinesOf(d)|)
  {
    PreambleParses(d.preamble);
    ParseAppend(START, d.preamble, BlocksLines(d.blocks));
    BlocksAreFolds(|d.preamble|, d.blocks);
  }

  // ---------------------------------------------------------------------
  // What the sections hold
  // ---------------------------------------------------------------------

  function FoldInterface(i: Interface, ps: seq<Pair>): Option<Interface> {
    if ps == [] then Some(i)
    else
      var last := ps[|ps| - 1];
      match FoldInterface(i, ps[..|ps| - 1])
      case None => None
      case Some(j) => WithKey(j, last.0, last.1)
  }

  function FoldPeer(p: Peer, ps: seq<Pair>): Option<Peer> {
    if ps == [] then Some(p)
    else
      var last := ps[|ps| - 1];
      match FoldPeer(p, ps[..|ps| - 1])
      case None => None
      case Some(q) => match WithPeerKey(q, last.0, last.1, 0) case Err(_) => None case Ok(r) => Some(r)
  }

  lemma {:induction false} InterfaceFolded(s: Scan, ps: seq<Pair>)
    requires s.section == InInterface
    ensures Folded(s, ps) == match FoldInterface(s.iface, ps) case None => None case Some(i) => Some(s.(iface := i))
    decreases |ps|
  {
    if ps != [] {
      InterfaceFolded(s, ps[..|ps| - 1]);
    }
  }

  lemma PeerLineFolds(s: Scan, p: Peer, key: string, value: string)
    requires s.section == InPeer && s.peers != []
    ensures var t := s.(peers := s.peers[..|s.peers| - 1] + [p]);
            KeyLine(t, key, value).Ok? <==> WithPeerKey(p, key, value, 0).Ok?
    ensures var t := s.(peers := s.peers[..|s.peers| - 1] + [p]);
            KeyLine(t, key, value).Ok? ==>
              KeyLine(t, key, value).value == s.(peers := s.peers[..|s.peers| - 1] + [WithPeerKey(p, key, value, 0).value])
  {
    var before := s.peers[..|s.peers| - 1];
    assert forall q: Peer :: (before + [p])[|before| := q] == before + [q];
  }

  lemma {:induction false} PeerFolded(s: Scan, ps: seq<Pair>)
    requires s.section == InPeer && s.peers != []
    ensures var before, p := s.peers[..|s.peers| - 1], s.peers[|s.peers| - 1];
            Folded(s, ps) == match FoldPeer(p, ps) case None => None case Some(q) => Some(s.(peers := before + [q]))
    decreases |ps|
  {
    var before, p := s.peers[..|s.peers| - 1], s.peers[|s.peers| - 1];
    if ps == [] {
      assert before + [p] == s.peers;
    } else {
      var last, q := ps[|ps| - 1], FoldPeer(p, ps[..|ps| - 1]);
      PeerFolded(s, ps[..|ps| - 1]);
      if q.Some? {
        PeerLineFolds(s, q.value, last.0, last.1);
      }
    }
  }

  /** The assignments of all [Interface] sections, in order. */
  function InterfacePairs(bs: seq<Block>): seq<Pair> {
    if bs == [] then []
    else
      var b := bs[|bs| - 1];
      InterfacePairs(bs[..|bs| - 1]) + if KindOf(b.header) == InterfaceSection then PairsOf(b.body) else []
  }

  /** The assignments of each [Peer] section. */
  function PeerPairs(bs: seq<Block>): seq<seq<Pair>> {
    if bs == [] then []
    else
      var b := bs[|bs| - 1];
      PeerPairs(bs[..|bs| - 1]) + if KindOf(b.header) == InterfaceSection then [] else [PairsOf(b.body)]
  }

  lemma OneMoreSection(before: seq<Block>, b: Block)
    ensures var isInterface, bs := KindOf(b.header) == InterfaceSection, before + [b];
            && InterfacePairs(bs) == (if isInterface then InterfacePairs(before) + PairsOf(b.body) else InterfacePairs(before))
            && PeerPairs(bs) == (if isInterface then PeerPairs(before) else PeerPairs(before) + [PairsOf(b.body)])
  {
    assert (before + [b])[..|before|] == before;
    assert InterfacePairs(before) + [] == InterfacePairs(before) && PeerPairs(before) + [] == PeerPairs(before);
  }

  function InterfaceOf(bs: seq<Block>): Option<Interface> { FoldInterface(NO_INTERFACE, InterfacePairs(bs)) }

  function PeerOf(ps: seq<Pair>): Option<Peer> { FoldPeer(NO_PEER, ps) }

  predicate PeersFold(pss: seq<seq<Pair>>) { forall j :: 0 <= j < |pss| ==> PeerOf(pss[j]).Some? }

  function PeersOf(pss: seq<seq<Pair>>): seq<Peer>
    requires PeersFold(pss)
  {
    seq(|pss|, j requires 0 <= j < |pss| => PeerOf(pss[j]).value)
  }

  lemma {:induction false} FoldInterfaceAppend(i: Interface, a: seq<Pair>, b: seq<Pair>)
    ensures FoldInterface(i, a + b) == match FoldInterface(i, a) case None => None case Some(j) => FoldInterface(j, b)
    decreases |b|
  {
    if b == [] {
      assert a + b == a;
    } else {
      assert (a + b)[..|a + b| - 1] == a + b[..|b| - 1];
      FoldInterfaceAppend(i, a, b[..|b| - 1]);
    }
  }

  ghost predicate IsScanOf(bs: seq<Block>, s: Option<Scan>) {
    if InterfaceOf(bs).None? || !PeersFold(PeerPairs(bs)) then s.None?
    else s.Some? && s.value.iface == InterfaceOf(bs).value && s.value.peers == PeersOf(PeerPairs(bs))
  }

  lemma PeersFoldMore(pss: seq<seq<Pair>>, ps: seq<Pair>)
    ensures PeersFold(pss + [ps]) <==> PeersFold(pss) && PeerOf(ps).Some?
    ensures PeersFold(pss + [ps]) ==> PeersOf(pss + [ps]) == PeersOf(pss) + [PeerOf(ps).value]
  {
    var all := pss + [ps];
    assert all[|pss|] == ps && forall j :: 0 <= j < |pss| ==> all[j] == pss[j];
  }

  lemma BlockFolds(s: Scan, b: Block)
    requires KindOf(b.header) != OtherSection
    ensures var r := Folded(Opened(s, b.header), PairsOf(b.body));
            if KindOf(b.header) == InterfaceSection then
              match FoldInterface(s.iface, PairsOf(b.body))
              case None => r.None?
              case Some(i) => r.Some? && r.value.iface == i && r.value.peers == s.peers
            else
              match PeerOf(PairsOf(b.body))
              case None => r.None?
              case Some(p) => r.Some? && r.value.iface == s.iface && r.value.peers == s.peers + [p]
  {
    var o := Opened(s, b.header);
    if KindOf(b.header) == InterfaceSection {
      InterfaceFolded(o, PairsOf(b.body));
    } else {
      PeerFolded(o, PairsOf(b.body));
      assert o.peers[..|o.peers| - 1] == s.peers && o.peers[|o.peers| - 1] == NO_PEER;
    }
  }

  lemma {:induction false} ScanIs(bs: seq<Block>)
    requires KnownBlocks(bs)
    ensures IsScanOf(bs, ScanOf(bs))
    decreases |bs|
  {
    if bs != [] {
      var before, b := bs[..|bs| - 1], bs[|bs| - 1];
      ScanIs(before);
      FoldInterfaceAppend(NO_INTERFACE, InterfacePairs(before), PairsOf(b.body));
      PeersFoldMore(PeerPairs(before), PairsOf(b.body));
      assert InterfacePairs(before) + [] == InterfacePairs(before) && PeerPairs(before) + [] == PeerPairs(before);
      if ScanOf(before).Some? {
        BlockFolds(ScanOf(before).value, b);
      }
    }
  }
}
