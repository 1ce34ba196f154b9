/** Printing a configuration as a .conf text. Extra keys come out of a Go map,
    so they are printed in an order the program does not choose. */
module ConfigPrinter {
  import opened Text
  import opened WireGuardConfig

  /** A line of the printed text, before it is spelled out. */
  datatype Entry =
    | Blank
    | InterfaceHeader
    | PeerHeader
    | Field(k: InterfaceKey, value: string)
    | InterfaceExtra(key: string, value: string)
    | PeerField(pk: PeerKey, value: string)
    | PeerExtra(key: string, value: string)

  function Render(e: Entry): string {
    match e
    case Blank => ""
    case InterfaceHeader => "[Interface]"
    case PeerHeader => "[Peer]"
    case Field(k, value) => Assignment(Name(k), value)
    case InterfaceExtra(key, value) => Assignment(key, value)
    case PeerField(k, value) => Assignment(PeerName(k), value)
    case PeerExtra(key, value) => Assignment(key, value)
  }

  function RenderAll(es: seq<Entry>): seq<string> {
    seq(|es|, i requires 0 <= i < |es| => Render(es[i]))
  }

  function TextOf(es: seq<Entry>): string { Unlines(RenderAll(es)) }

  lemma TextMore(es: seq<Entry>, e: Entry)
    ensures TextOf(es + [e]) == TextOf(es) + (Render(e) + "\n")
  {
    assert RenderAll(es + [e]) == RenderAll(es) + [Render(e)];
    UnlinesAppend(RenderAll(es), [Render(e)]);
    assert Unlines([Render(e)]) == Render(e) + "\n" + Unlines([]);
  }

  // ---------------------------------------------------------------------
  // The entries of a configuration
  // ---------------------------------------------------------------------

  const FIELD_COUNT: nat := 22

  /** The fields in the order in which they are printed. */
  function FieldAt(n: nat): InterfaceKey
    requires n < FIELD_COUNT
  {
    match n
    case 0 => AsText(PrivateKey)
    case 1 => AsList(Address)
    case 2 => AsList(DNS)
    case 3 => AsInt(MTU)
    case 4 => AsInt(ListenPort)
    case 5 => AsText(Table)
    case 6 => AsText(FwMark)
    case 7 => AsScript(PreUp)
    case 8 => AsScript(PostUp)
    case 9 => AsScript(PreDown)
    case 10 => AsScript(PostDown)
    case 11 => AsInt(Jc)
    case 12 => AsInt(Jmin)
    case 13 => AsInt(Jmax)
    case 14 => AsInt(S1)
    case 15 => AsInt(S2)
    case 16 => AsInt(S3)
    case 17 => AsInt(S4)
    case 18 => AsText(H1)
    case 19 => AsText(H2)
    case 20 => AsText(H3)
    case _ => AsText(H4)
  }

  function ScriptEntries(h: Hook, parts: seq<string>): seq<Entry> {
    seq(|parts|, i requires 0 <= i < |parts| => Field(AsScript(h), parts[i]))
  }

  /** One field: no entry when it is at its zero value, or negative. */
  function FieldEntries(i: Interface, k: InterfaceKey): seq<Entry> {
    match k
    case AsText(t) => if t == PrivateKey || i.texts[t] != "" then [Field(k, i.texts[t])] else []
    case AsInt(n) => if i.ints[n] > 0 then [Field(k, Itoa(i.ints[n]))] else []
    case AsList(l) => if i.lists[l] != [] then [Field(k, Join(i.lists[l], ", "))] else []
    case AsScript(h) => if i.scripts[h] == "" then [] else ScriptEntries(h, Split(i.scripts[h], NUL))
  }

  /** The first `n` fields. */
  function FieldsEntries(i: Interface, n: nat): seq<Entry>
    requires n <= FIELD_COUNT
  {
    if n == 0 then [] else FieldsEntries(i, n - 1) + FieldEntries(i, FieldAt(n - 1))
  }

  function ExtraEntry(inPeer: bool, key: string, value: string): Entry {
    if inPeer then PeerExtra(key, value) else InterfaceExtra(key, value)
  }

  function ExtraEntries(inPeer: bool, extra: map<string, string>, order: seq<string>): seq<Entry>
    requires forall k :: k in order ==> k in extra
  {
    if order == [] then []
    else
      var last := order[|order| - 1];
      ExtraEntries(inPeer, extra, order[..|order| - 1]) + [ExtraEntry(inPeer, last, extra[last])]
  }

  /** A listing of the keys of a map, each once. */
  ghost predicate Enumerates(order: seq<string>, extra: map<string, string>) {
    && (forall k :: k in order <==> k in extra)
    && (forall i, j :: 0 <= i < j < |order| ==> order[i] != order[j])
  }

  function InterfaceEntries(i: Interface, order: seq<string>): seq<Entry>
    requires forall k :: k in order ==> k in i.extra
  {
    [InterfaceHeader] + FieldsEntries(i, FIELD_COUNT) + ExtraEntries(false, i.extra, order)
  }

  function OptionalEntry(k: PeerKey, value: string): seq<Entry> {
    if value != "" then [PeerField(k, value)] else []
  }

  function PeerTexts(p: Peer): seq<Entry> {
    [PeerField(PublicKey, p.publicKey)]
    + OptionalEntry(PresharedKey, p.presharedKey) + OptionalEntry(Endpoint, p.endpoint)
  }

  function AllowedEntries(p: Peer): seq<Entry> {
    if p.allowedIPs != [] then [PeerField(AllowedIPs, Join(p.allowedIPs, ", "))] else []
  }

  function KeepaliveEntries(p: Peer): seq<Entry> {
    if p.keepalive.Some? then [PeerField(PersistentKeepalive, Itoa(p.keepalive.value))] else []
  }

  function PeerEntries(p: Peer, order: seq<string>): seq<Entry>
    requires forall k :: k in order ==> k in p.extra
  {
    [Blank, PeerHeader] + PeerTexts(p) + AllowedEntries(p) + KeepaliveEntries(p) + ExtraEntries(true, p.extra, order)
  }

  ghost predicate EnumerateAll(orders: seq<seq<string>>, peers: seq<Peer>) {
    |orders| == |peers| && forall i :: 0 <= i < |peers| ==> Enumerates(orders[i], peers[i].extra)
  }

  ghost function PeersEntries(peers: seq<Peer>, orders: seq<seq<string>>): seq<Entry>
    requires EnumerateAll(orders, peers)
  {
    if peers == [] then []
    else
      PeersEntries(peers[..|peers| - 1], orders[..|peers| - 1])
      + PeerEntries(peers[|peers| - 1], orders[|peers| - 1])
  }

  ghost function Entries(c: Config, order: seq<string>, orders: seq<seq<string>>): seq<Entry>
    requires Enumerates(order, c.iface.extra) && EnumerateAll(orders, c.peers)
  {
    InterfaceEntries(c.iface, order) + PeersEntries(c.peers, orders)
  }

  /** The text printed when the extra keys come out in the given orders. */
  ghost function Printed(c: Config, order: seq<string>, orders: seq<seq<string>>): string
    requires Enumerates(order, c.iface.extra) && EnumerateAll(orders, c.peers)
  {
    TextOf(Entries(c, order, orders))
  }

  // ---------------------------------------------------------------------
  // The printer
  // ---------------------------------------------------------------------

  /** The builder after one more line, given the entries it held before. */
  method WriteLine(b: string, key: string, value: string, ghost es: seq<Entry>, ghost e: Entry) returns (b': string)
    requires b == TextOf(es) && Render(e) == Assignment(key, value)
    ensures b' == TextOf(es + [e])
  {
    TextMore(es, e);
    b' := b + (key + " = " + value + "\n");
  }

  method WriteField(b: string, i: Interface, k: InterfaceKey, ghost es: seq<Entry>) returns (b': string)
    requires b == TextOf(es)
    ensures b' == TextOf(es + FieldEntries(i, k))
  {
    assert es + [] == es;
    b' := b;
    match k
    case AsText(t) =>
      if t == PrivateKey || i.texts[t] != "" {
        b' := WriteLine(b, Name(k), i.texts[t], es, Field(k, i.texts[t]));
      }
    case AsInt(n) =>
      if i.ints[n] > 0 {
        b' := WriteLine(b, Name(k), Itoa(i.ints[n]), es, Field(k, Itoa(i.ints[n])));
      }
    case AsList(l) =>
      if |i.lists[l]| > 0 {
        b' := WriteLine(b, Name(k), Join(i.lists[l], ", "), es, Field(k, Join(i.lists[l], ", ")));
      }
    case AsScript(h) =>
      b' := WriteScriptLines(b, h, i.scripts[h], es);
  }

  method WriteScriptLines(b: string, h: Hook, value: string, ghost es: seq<Entry>) returns (b': string)
    requires b == TextOf(es)
    ensures b' == TextOf(es + if value == "" then [] else ScriptEntries(h, Split(value, NUL)))
  {
    assert es + [] == es;
    b' := b;
    if value != "" {
      var parts := Split(value, NUL);
      ghost var all := ScriptEntries(h, parts);
      for n := 0 to |parts|
        invariant b' == TextOf(es + all[..n])
      {
        b' := WriteLine(b', Name(AsScript(h)), parts[n], es + all[..n], all[n]);
        TakeMore(all, n);
        Regroup(es, all[..n], [all[n]]);
      }
      assert all[..|parts|] == all;
    }
  }

  lemma Regroup(l: seq<Entry>, a: seq<Entry>, b: seq<Entry>)
    ensures l + a + b == l + (a + b)
  {
  }

  /** The loop over a Go map, whose order is anyone's choice. */
  method WriteExtras(b: string, inPeer: bool, extra: map<string, string>, ghost es: seq<Entry>)
    returns (b': string, ghost order: seq<string>)
    requires b == TextOf(es)
    ensures Enumerates(order, extra) && b' == TextOf(es + ExtraEntries(inPeer, extra, order))
  {
    b', order := b, [];
    var rest := extra.Keys;
    assert es + [] == es;
    while rest != {}
      invariant rest <= extra.Keys && forall k :: k in order <==> k in extra && k !in rest
      invariant forall i, j :: 0 <= i < j < |order| ==> order[i] != order[j]
      invariant b' == TextOf(es + ExtraEntries(inPeer, extra, order))
    {
      var k :| k in rest;
      rest := rest - {k};
      b' := WriteLine(b', k, extra[k], es + ExtraEntries(inPeer, extra, order), ExtraEntry(inPeer, k, extra[k]));
      assert (order + [k])[..|order|] == order;
      Regroup(es, ExtraEntries(inPeer, extra, order), [ExtraEntry(inPeer, k, extra[k])]);
      order := order + [k];
    }
  }

  method WriteOptional(b: string, k: PeerKey, value: string, ghost es: seq<Entry>) returns (b': string)
    requires b == TextOf(es)
    ensures b' == TextOf(es + OptionalEntry(k, value))
  {
    assert es + [] == es;
    b' := b;
    if value != "" {
      b' := WriteLine(b, PeerName(k), value, es, PeerField(k, value));
    }
  }

  method WritePeerTexts(b: string, p: Peer, ghost es: seq<Entry>) returns (b': string)
    requires b == TextOf(es)
    ensures b' == TextOf(es + PeerTexts(p))
  {
    b' := WriteLine(b, PeerName(PublicKey), p.publicKey, es, PeerField(PublicKey, p.publicKey));
    ghost var e1 := es + [PeerField(PublicKey, p.publicKey)];
    b' := WriteOptional(b', PresharedKey, p.presharedKey, e1);
    ghost var e2 := e1 + OptionalEntry(PresharedKey, p.presharedKey);
    b' := WriteOptional(b', Endpoint, p.endpoint, e2);
    assert e2 + OptionalEntry(Endpoint, p.endpoint) == es + PeerTexts(p);
  }

  method WritePeerValues(b: string, p: Peer, ghost es: seq<Entry>) returns (b': string)
    requires b == TextOf(es)
    ensures b' == TextOf(es + AllowedEntries(p) + KeepaliveEntries(p))
  {
    ghost var e1 := es + AllowedEntries(p);
    assert es + [] == es && e1 + [] == e1;
    b' := b;
    if |p.allowedIPs| > 0 {
      b' := WriteLine(b', PeerName(AllowedIPs), Join(p.allowedIPs, ", "), es, AllowedEntries(p)[0]);
    }
    if p.keepalive.Some? {
      b' := WriteLine(b', PeerName(PersistentKeepalive), Itoa(p.keepalive.value), e1, KeepaliveEntries(p)[0]);
    }
  }

  method WritePeer(b: string, p: Peer, ghost es: seq<Entry>) returns (b': string, ghost order: seq<string>)
    requires b == TextOf(es)
    ensures Enumerates(order, p.extra) && b' == TextOf(es + PeerEntries(p, order))
  {
    ghost var head := es + [Blank, PeerHeader];
    TextMore(es, Blank);
    TextMore(es + [Blank], PeerHeader);
    assert es + [Blank] + [PeerHeader] == head;
    b' := b + ("" + "\n") + ("[Peer]" + "\n");
    b' := WritePeerTexts(b', p, head);
    b' := WritePeerValues(b', p, head + PeerTexts(p));
    b', order := WriteExtras(b', true, p.extra, head + PeerTexts(p) + AllowedEntries(p) + KeepaliveEntries(p));
    Reassociate(es, [Blank, PeerHeader], PeerTexts(p), AllowedEntries(p), KeepaliveEntries(p),
                ExtraEntries(true, p.extra, order));
  }

  lemma Reassociate(l: seq<Entry>, a: seq<Entry>, b: seq<Entry>, c: seq<Entry>, d: seq<Entry>, e: seq<Entry>)
    ensures l + a + b + c + d + e == l + (a + b + c + d + e)
  {
  }

  /** One more field of the [Interface] section, the `n`-th. */
  method WriteNth(b: string, i: Interface, n: nat, k: InterfaceKey) returns (b': string)
    requires n < FIELD_COUNT && FieldAt(n) == k
    requires b == TextOf([InterfaceHeader] + FieldsEntries(i, n))
    ensures b' == TextOf([InterfaceHeader] + FieldsEntries(i, n + 1))
  {
    b' := WriteField(b, i, k, [InterfaceHeader] + FieldsEntries(i, n));
    Regroup([InterfaceHeader], FieldsEntries(i, n), FieldEntries(i, k));
  }

  method WriteInterface(i: Interface) returns (b: string)
    ensures b == TextOf([InterfaceHeader] + FieldsEntries(i, FIELD_COUNT))
  {
    b := "" + ("[Interface]" + "\n");
    TextMore([], InterfaceHeader);
    assert [] + [InterfaceHeader] == [InterfaceHeader] == [InterfaceHeader] + FieldsEntries(i, 0);
    b := WriteNth(b, i, 0, AsText(PrivateKey));
    b := WriteNth(b, i, 1, AsList(Address));
    b := WriteNth(b, i, 2, AsList(DNS));
    b := WriteNth(b, i, 3, AsInt(MTU));
    b := WriteNth(b, i, 4, AsInt(ListenPort));
    b := WriteNth(b, i, 5, AsText(Table));
    b := WriteNth(b, i, 6, AsText(FwMark));
    b := WriteNth(b, i, 7, AsScript(PreUp));
    b := WriteNth(b, i, 8, AsScript(PostUp));
    b := WriteNth(b, i, 9, AsScript(PreDown));
    b := WriteNth(b, i, 10, AsScript(PostDown));
    b := WriteNth(b, i, 11, AsInt(Jc));
    b := WriteNth(b, i, 12, AsInt(Jmin));
    b := WriteNth(b, i, 13, AsInt(Jmax));
    b := WriteNth(b, i, 14, AsInt(S1));
    b := WriteNth(b, i, 15, AsInt(S2));
    b := WriteNth(b, i, 16, AsInt(S3));
    b := WriteNth(b, i, 17, AsInt(S4));
    b := WriteNth(b, i, 18, AsText(H1));
    b := WriteNth(b, i, 19, AsText(H2));
    b := WriteNth(b, i, 20, AsText(H3));
    b := WriteNth(b, i, 21, AsText(H4));
  }

  method WritePeers(b: string, peers: seq<Peer>, ghost es: seq<Entry>)
    returns (b': string, ghost orders: seq<seq<string>>)
    requires b == TextOf(es)
    ensures EnumerateAll(orders, peers) && b' == TextOf(es + PeersEntries(peers, orders))
  {
    b', orders := b, [];
    assert es + [] == es;
    for n := 0 to |peers|
      invariant EnumerateAll(orders, peers[..n]) && b' == TextOf(es + PeersEntries(peers[..n], orders))
    {
      ghost var order;
      b', order := WritePeer(b', peers[n], es + PeersEntries(peers[..n], orders));
      PeersMore(peers[..n], orders, peers[n], order);
      Regroup(es, PeersEntries(peers[..n], orders), PeerEntries(peers[n], order));
      TakeMore(peers, n);
      orders := orders + [order];
    }
    assert peers[..|peers|] == peers;
  }

  lemma PeersMore(peers: seq<Peer>, orders: seq<seq<string>>, p: Peer, order: seq<string>)
    requires EnumerateAll(orders, peers) && Enumerates(order, p.extra)
    ensures EnumerateAll(orders + [order], peers + [p])
    ensures PeersEntries(peers + [p], orders + [order]) == PeersEntries(peers, orders) + PeerEntries(p, order)
  {
    assert (peers + [p])[..|peers|] == peers && (orders + [order])[..|peers|] == orders;
  }

  /** A print of the configuration, in some order of each map of extra keys. */
  ghost predicate IsPrint(c: Config, text: string) {
    exists order, orders :: Enumerates(order, c.iface.extra) && EnumerateAll(orders, c.peers) && text == Printed(c, order, orders)
  }

  method Serialize(c: Config) returns (text: string)
    ensures IsPrint(c, text)
  {
    ghost var order, orders;
    text := WriteInterface(c.iface);
    text, order := WriteExtras(text, false, c.iface.extra, [InterfaceHeader] + FieldsEntries(c.iface, FIELD_COUNT));
    text, orders := WritePeers(text, c.peers, InterfaceEntries(c.iface, order));
    assert text == Printed(c, order, orders);
  }
}
