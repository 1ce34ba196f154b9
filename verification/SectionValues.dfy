/** Each field of a parsed section, from the values assigned to its key. */
module SectionValues {
  import opened Wrappers
  import opened Text
  import opened WireGuardConfig
  import opened ConfigParser
  import opened ConfigRoundTrip
  import opened FieldEditor
  import opened FieldReading
  import opened SectionParsing

  /** The values assigned to a key, whatever its case. */
  function ValuesOf(ps: seq<Pair>, low: string): seq<string> {
    if ps == [] then []
    else ValuesOf(ps[..|ps| - 1], low) + if Lower(ps[|ps| - 1].0) == low then [ps[|ps| - 1].1] else []
  }

  lemma {:induction false} ValuesAppend(a: seq<Pair>, b: seq<Pair>, low: string)
    ensures ValuesOf(a + b, low) == ValuesOf(a, low) + ValuesOf(b, low)
    decreases |b|
  {
    if b == [] {
      assert a + b == a;
    } else {
      assert (a + b)[..|a + b| - 1] == a + b[..|b| - 1];
      ValuesAppend(a, b[..|b| - 1], low);
    }
  }

  lemma {:induction false} ValueHasPair(ps: seq<Pair>, low: string, v: string) returns (j: nat)
    requires v in ValuesOf(ps, low)
    ensures j < |ps| && Lower(ps[j].0) == low && ps[j].1 == v
    decreases |ps|
  {
    var n := |ps| - 1;
    if Lower(ps[n].0) == low && ps[n].1 == v {
      j := n;
    } else {
      j := ValueHasPair(ps[..n], low, v);
    }
  }

  lemma {:induction false} PairHasValue(ps: seq<Pair>, j: nat)
    requires j < |ps|
    ensures ps[j].1 in ValuesOf(ps, Lower(ps[j].0))
    decreases |ps|
  {
    if j < |ps| - 1 {
      PairHasValue(ps[..|ps| - 1], j);
    }
  }

  /** The last value of each key as it is spelled. */
  function LastOf(ps: seq<Pair>): map<string, string> {
    if ps == [] then map[] else LastOf(ps[..|ps| - 1])[ps[|ps| - 1].0 := ps[|ps| - 1].1]
  }

  lemma {:induction false} LastAppend(a: seq<Pair>, b: seq<Pair>)
    ensures LastOf(a + b) == LastOf(a) + LastOf(b)
    decreases |b|
  {
    if b == [] {
      assert a + b == a;
    } else {
      assert (a + b)[..|a + b| - 1] == a + b[..|b| - 1];
      LastAppend(a, b[..|b| - 1]);
    }
  }

  lemma LineReadsLast(g: Fields, ps: seq<Pair>, line: string)
    ensures ReadLine(g + LastOf(ps), line) == g + LastOf(ps + PairOf(line))
  {
    if PairOf(line) == [] {
      assert ps + PairOf(line) == ps;
    } else {
      assert (ps + PairOf(line))[..|ps|] == ps;
    }
  }

  lemma {:induction false} ReadsLast(g: Fields, body: seq<string>)
    ensures ReadBody(g, body) == g + LastOf(PairsOf(body))
    decreases |body|
  {
    if body != [] {
      ReadsLast(g, body[..|body| - 1]);
      LineReadsLast(g, PairsOf(body[..|body| - 1]), body[|body| - 1]);
    }
  }

  predicate PeersReadLast(peers: seq<Fields>, pss: seq<seq<Pair>>) {
    |peers| == |pss| && forall j :: 0 <= j < |peers| ==> peers[j] == LastOf(pss[j])
  }

  /** The field editor reads the last values of each section. */
  ghost predicate ReadsLastOf(f: TunnelFields, bs: seq<Block>) {
    f.iface == LastOf(InterfacePairs(bs)) && PeersReadLast(f.peers, PeerPairs(bs))
  }

  lemma PeersReadLastMore(peers: seq<Fields>, pss: seq<seq<Pair>>, ps: seq<Pair>)
    requires PeersReadLast(peers, pss)
    ensures PeersReadLast(peers + [LastOf(ps)], pss + [ps])
  {
  }

  lemma NextInterfaceReadsLast(before: seq<Block>, b: Block)
    requires KindOf(b.header) == InterfaceSection && ReadsLastOf(ReadBlocks(before), before)
    ensures ReadsLastOf(ReadBlocks(before + [b]), before + [b])
  {
    var f, ps := ReadBlocks(before), PairsOf(b.body);
    OneMoreSection(before, b);
    ReadLast(before, b);
    ReadsLast(f.iface, b.body);
    LastAppend(InterfacePairs(before), ps);
    assert ReadBlock(f, b) == f.(iface := LastOf(InterfacePairs(before) + ps));
  }

  lemma NextPeerReadsLast(before: seq<Block>, b: Block)
    requires KindOf(b.header) == PeerSection && ReadsLastOf(ReadBlocks(before), before)
    ensures ReadsLastOf(ReadBlocks(before + [b]), before + [b])
  {
    var f, ps := ReadBlocks(before), PairsOf(b.body);
    OneMoreSection(before, b);
    ReadLast(before, b);
    ReadsLast(map[], b.body);
    assert ReadBody(map[], b.body) == LastOf(ps);
    PeersReadLastMore(f.peers, PeerPairs(before), ps);
  }

  lemma {:induction false} BlocksReadLast(bs: seq<Block>)
    requires KnownBlocks(bs)
    ensures ReadsLastOf(ReadBlocks(bs), bs)
    decreases |bs|
  {
    if bs != [] {
      BlocksReadLast(bs[..|bs| - 1]);
      if KindOf(bs[|bs| - 1].header) == InterfaceSection {
        NextInterfaceReadsLast(bs[..|bs| - 1], bs[|bs| - 1]);
      } else {
        NextPeerReadsLast(bs[..|bs| - 1], bs[|bs| - 1]);
      }
      InitAndLast(bs);
    }
  }

  /** A key that no field of an interface, or of a peer, has. */
  predicate NoField(inPeer: bool, key: string) {
    if inPeer then PeerKeyOf(Lower(key)).None? else KeyOf(Lower(key)).None?
  }

  function Unknown(inPeer: bool, g: map<string, string>): map<string, string> {
    map key | key in g && NoField(inPeer, key) :: g[key]
  }

  lemma UnknownMore(inPeer: bool, g: map<string, string>, key: string, value: string)
    ensures Unknown(inPeer, g[key := value]) ==
            if NoField(inPeer, key) then Unknown(inPeer, g)[key := value] else Unknown(inPeer, g)
  {
  }

  // ---------------------------------------------------------------------
  // The fields of an interface
  // ---------------------------------------------------------------------

  function LowerName(k: InterfaceKey): string {
    match k
    case AsText(PrivateKey) => "privatekey" case AsText(Table) => "table" case AsText(FwMark) => "fwmark"
    case AsText(H1) => "h1" case AsText(H2) => "h2" case AsText(H3) => "h3" case AsText(H4) => "h4"
    case AsInt(MTU) => "mtu" case AsInt(ListenPort) => "listenport" case AsInt(Jc) => "jc"
    case AsInt(Jmin) => "jmin" case AsInt(Jmax) => "jmax"
    case AsInt(S1) => "s1" case AsInt(S2) => "s2" case AsInt(S3) => "s3" case AsInt(S4) => "s4"
    case AsList(Address) => "address" case AsList(DNS) => "dns"
    case AsScript(PreUp) => "preup" case AsScript(PostUp) => "postup"
    case AsScript(PreDown) => "predown" case AsScript(PostDown) => "postdown"
  }

  lemma KeysAreNamed(low: string, k: InterfaceKey)
    ensures KeyOf(low) == Some(k) <==> low == LowerName(k)
  {
  }

  /** A field after one more value of its key. */
  function Read(k: InterfaceKey, z: Value, v: string): Value {
    match k
    case AsText(_) => Text(v)
    case AsInt(_) => Number(match Atoi(v) case None => 0 case Some(n) => n)
    case AsList(_) => (match z case List(items) => List(items + Items(v)) case _ => z)
    case AsScript(_) => (match z case Script(text) => Script(AppendScript(text, v)) case _ => z)
  }

  function ReadAll(k: InterfaceKey, z: Value, vs: seq<string>): Value {
    if vs == [] then z else Read(k, ReadAll(k, z, vs[..|vs| - 1]), vs[|vs| - 1])
  }

  lemma ReadOneMore(k: InterfaceKey, z: Value, vs: seq<string>, v: string)
    ensures ReadAll(k, z, vs + [v]) == Read(k, ReadAll(k, z, vs), v) && vs + [] == vs
  {
    assert (vs + [v])[..|vs|] == vs;
  }

  lemma KeySets(j: Interface, key: string, value: string, k: InterfaceKey)
    requires WithKey(j, key, value).Some?
    ensures Get(WithKey(j, key, value).value, k) == if Lower(key) == LowerName(k) then Read(k, Get(j, k), value) else Get(j, k)
  {
    KeysAreNamed(Lower(key), k);
    var k' := KeyOf(Lower(key));
    if k'.Some? && k'.value != k {
      SettingAField(j, k'.value, value);
    }
  }

  /** A field is what its values make of it. */
  lemma {:induction false} FieldIs(i: Interface, ps: seq<Pair>, k: InterfaceKey)
    requires FoldInterface(i, ps).Some?
    ensures Get(FoldInterface(i, ps).value, k) == ReadAll(k, Get(i, k), ValuesOf(ps, LowerName(k)))
    decreases |ps|
  {
    if ps != [] {
      var before, last := ps[..|ps| - 1], ps[|ps| - 1];
      FieldIs(i, before, k);
      KeySets(FoldInterface(i, before).value, last.0, last.1, k);
      ReadOneMore(k, Get(i, k), ValuesOf(before, LowerName(k)), last.1);
    }
  }

  predicate PairParses(p: Pair) {
    match KeyOf(Lower(p.0)) case Some(AsInt(_)) => Atoi(p.1).Some? case _ => true
  }

  predicate PairsParse(ps: seq<Pair>) { forall j :: 0 <= j < |ps| ==> PairParses(ps[j]) }

  lemma {:induction false} FoldsWhen(i: Interface, ps: seq<Pair>)
    ensures FoldInterface(i, ps).Some? <==> PairsParse(ps)
    decreases |ps|
  {
    if ps != [] {
      FoldsWhen(i, ps[..|ps| - 1]);
      assert PairsParse(ps) <==> PairsParse(ps[..|ps| - 1]) && PairParses(ps[|ps| - 1]);
    }
  }

  lemma KeyAddsExtra(j: Interface, key: string, value: string)
    requires WithKey(j, key, value).Some?
    ensures WithKey(j, key, value).value.extra == if NoField(false, key) then j.extra[key := value] else j.extra
  {
    if KeyOf(Lower(key)).Some? {
      SettingAField(j, KeyOf(Lower(key)).value, value);
    }
  }

  lemma {:induction false} ExtraIs(ps: seq<Pair>)
    requires FoldInterface(NO_INTERFACE, ps).Some?
    ensures FoldInterface(NO_INTERFACE, ps).value.extra == Unknown(false, LastOf(ps))
    decreases |ps|
  {
    if ps != [] {
      var before, last := ps[..|ps| - 1], ps[|ps| - 1];
      ExtraIs(before);
      KeyAddsExtra(FoldInterface(NO_INTERFACE, before).value, last.0, last.1);
      UnknownMore(false, LastOf(before), last.0, last.1);
    }
  }

  // ---------------------------------------------------------------------
  // The fields of a peer
  // ---------------------------------------------------------------------

  datatype PeerValue = PeerText(text: string) | PeerList(items: seq<string>) | PeerSeconds(seconds: Option<Int64>)

  function GetPeer(p: Peer, k: PeerKey): PeerValue {
    match k
    case PublicKey => PeerText(p.publicKey)
    case PresharedKey => PeerText(p.presharedKey)
    case Endpoint => PeerText(p.endpoint)
    case AllowedIPs => PeerList(p.allowedIPs)
    case PersistentKeepalive => PeerSeconds(p.keepalive)
  }

  function ReadPeer(k: PeerKey, z: PeerValue, v: string): PeerValue {
    match k
    case AllowedIPs => (match z case PeerList(items) => PeerList(items + Items(v)) case _ => z)
    case PersistentKeepalive => PeerSeconds(Keepalive(v))
    case _ => PeerText(v)
  }

  function ReadPeerAll(k: PeerKey, z: PeerValue, vs: seq<string>): PeerValue {
    if vs == [] then z else ReadPeer(k, ReadPeerAll(k, z, vs[..|vs| - 1]), vs[|vs| - 1])
  }

  lemma ReadPeerMore(k: PeerKey, z: PeerValue, vs: seq<string>, v: string)
    ensures ReadPeerAll(k, z, vs + [v]) == ReadPeer(k, ReadPeerAll(k, z, vs), v) && vs + [] == vs
  {
    assert (vs + [v])[..|vs|] == vs;
  }

  lemma PeerKeysAreNamed(low: string, k: PeerKey)
    ensures PeerKeyOf(low) == Some(k) <==> low == LowerPeerName(k)
  {
  }

  lemma PeerKeySets(q: Peer, key: string, value: string, k: PeerKey)
    requires WithPeerKey(q, key, value, 0).Ok?
    ensures GetPeer(WithPeerKey(q, key, value, 0).value, k) ==
            if Lower(key) == LowerPeerName(k) then ReadPeer(k, GetPeer(q, k), value) else GetPeer(q, k)
  {
    PeerKeysAreNamed(Lower(key), k);
  }

  lemma {:induction false} PeerFieldIs(p: Peer, ps: seq<Pair>, k: PeerKey)
    requires FoldPeer(p, ps).Some?
    ensures GetPeer(FoldPeer(p, ps).value, k) == ReadPeerAll(k, GetPeer(p, k), ValuesOf(ps, LowerPeerName(k)))
    decreases |ps|
  {
    if ps != [] {
      var before, last := ps[..|ps| - 1], ps[|ps| - 1];
      PeerFieldIs(p, before, k);
      PeerKeySets(FoldPeer(p, before).value, last.0, last.1, k);
      ReadPeerMore(k, GetPeer(p, k), ValuesOf(before, LowerPeerName(k)), last.1);
    }
  }

  predicate PeerPairParses(p: Pair) { Lower(p.0) == LowerPeerName(PersistentKeepalive) ==> Keepalive(p.1).Some? }

  predicate PeerPairsParse(ps: seq<Pair>) { forall j :: 0 <= j < |ps| ==> PeerPairParses(ps[j]) }

  function ItemCount(vs: seq<string>): nat { if vs == [] then 0 else ItemCount(vs[..|vs| - 1]) + |Items(vs[|vs| - 1])| }

  lemma ItemCountMore(vs: seq<string>, v: string)
    ensures ItemCount(vs + [v]) == ItemCount(vs) + |Items(v)| && vs + [] == vs
  {
    assert (vs + [v])[..|vs|] == vs;
  }

  function Allowed(ps: seq<Pair>): seq<string> { ValuesOf(ps, LowerPeerName(AllowedIPs)) }

  lemma {:induction false} PeerFoldsWhen(p: Peer, ps: seq<Pair>)
    requires |p.allowedIPs| <= MAX_ALLOWED_IPS
    ensures FoldPeer(p, ps).Some? <==> PeerPairsParse(ps) && |p.allowedIPs| + ItemCount(Allowed(ps)) <= MAX_ALLOWED_IPS
    ensures FoldPeer(p, ps).Some? ==> |FoldPeer(p, ps).value.allowedIPs| == |p.allowedIPs| + ItemCount(Allowed(ps))
    decreases |ps|
  {
    if ps != [] {
      var before, last := ps[..|ps| - 1], ps[|ps| - 1];
      PeerFoldsWhen(p, before);
      ItemCountMore(Allowed(before), last.1);
      assert PeerPairsParse(ps) <==> PeerPairsParse(before) && PeerPairParses(last);
      PeerKeysAreNamed(Lower(last.0), PersistentKeepalive);
      PeerKeysAreNamed(Lower(last.0), AllowedIPs);
    }
  }

  lemma {:induction false} PeerExtraIs(ps: seq<Pair>)
    requires PeerOf(ps).Some?
    ensures PeerOf(ps).value.extra == Unknown(true, LastOf(ps))
    decreases |ps|
  {
    if ps != [] {
      var before, last := ps[..|ps| - 1], ps[|ps| - 1];
      PeerExtraIs(before);
      UnknownMore(true, LastOf(before), last.0, last.1);
    }
  }
}
