/** When an edit of the text is an edit of the parsed configuration. */
module FieldAgreement {
  import opened Wrappers
  import opened Text
  import opened StringOrder
  import opened WireGuardConfig
  import opened ConfigParser
  import opened ConfigRoundTrip
  import opened FieldEditor
  import opened FieldEditorLaws
  import opened FieldReading
  import opened SectionParsing
  import opened SectionValues
  import opened FieldParsing
  import HookParsing

  // ---------------------------------------------------------------------
  // Values that are assigned several times
  // ---------------------------------------------------------------------

  /** A value that adds up: `n` lines of it are not one. */
  predicate Repeats(k: InterfaceKey, v: string, n: nat) {
    n != 1 && match k case AsList(_) => Items(v) != [] case AsScript(_) => true case _ => false
  }

  function Times(n: nat, m: nat): nat { if n == 0 then 0 else Times(n - 1, m) + m }

  lemma RepMore(v: string, n: nat)
    requires n > 0
    ensures Rep(v, n)[..n - 1] == Rep(v, n - 1) && Rep(v, n)[n - 1] == v && |Rep(v, n)| == n
  {
  }

  lemma {:induction false} TimesTells(n: nat, m: nat)
    requires n >= 1
    ensures Times(n, m) == m <==> n == 1 || m == 0
    ensures Times(n, m) >= m
    decreases n
  {
    if n > 1 {
      TimesTells(n - 1, m);
    }
  }

  lemma RepStep(k: InterfaceKey, v: string, n: nat)
    requires n > 0
    ensures ReadAll(k, ZeroOf(k), Rep(v, n)) == Read(k, ReadAll(k, ZeroOf(k), Rep(v, n - 1)), v)
    ensures ReadAll(k, ZeroOf(k), Rep(v, 0)) == ZeroOf(k)
  {
    ReadOneMore(k, ZeroOf(k), Rep(v, n - 1), v);
  }

  lemma {:induction false} RepeatedList(k: InterfaceKey, v: string, n: nat)
    requires k.AsList? && n >= 1
    ensures var r := ReadAll(k, ZeroOf(k), Rep(v, n)); r.List? && |r.items| == Times(n, |Items(v)|)
    ensures Items(v) == [] ==> ReadAll(k, ZeroOf(k), Rep(v, n)) == List([])
    decreases n
  {
    RepStep(k, v, n);
    if n > 1 {
      RepeatedList(k, v, n - 1);
    }
  }

  lemma ScriptGrows(k: InterfaceKey, t: string, v: string)
    requires k.AsScript?
    ensures Read(k, Script(t), v) == Script(if t == "" then v else t + [NUL] + v)
  {
  }

  lemma {:induction false} RepeatedScript(k: InterfaceKey, v: string, n: nat)
    requires k.AsScript? && n >= 1 && v != ""
    ensures var r := ReadAll(k, ZeroOf(k), Rep(v, n)); r.Script? && |r.text| >= |v| + n - 1
    ensures n == 1 ==> ReadAll(k, ZeroOf(k), Rep(v, n)) == Script(v)
    decreases n
  {
    RepStep(k, v, n);
    if n == 1 {
      ScriptGrows(k, "", v);
    } else {
      RepeatedScript(k, v, n - 1);
      ScriptGrows(k, ReadAll(k, ZeroOf(k), Rep(v, n - 1)).text, v);
    }
  }

  lemma RepeatedListTells(k: InterfaceKey, v: string, n: nat)
    requires n >= 1 && k.AsList?
    ensures ReadAll(k, ZeroOf(k), Rep(v, n)) == Read(k, ZeroOf(k), v) <==> n == 1 || Items(v) == []
  {
    RepStep(k, v, 1);
    RepeatedList(k, v, n);
    RepeatedList(k, v, 1);
    TimesTells(n, |Items(v)|);
  }

  lemma RepeatedScriptTells(k: InterfaceKey, v: string, n: nat)
    requires n >= 1 && k.AsScript? && v != ""
    ensures ReadAll(k, ZeroOf(k), Rep(v, n)) == Read(k, ZeroOf(k), v) <==> n == 1
  {
    ScriptGrows(k, "", v);
    RepeatedScript(k, v, n);
  }

  lemma RepeatTells(k: InterfaceKey, v: string, n: nat)
    requires n >= 1 && v != ""
    ensures ReadAll(k, ZeroOf(k), Rep(v, n)) == Read(k, ZeroOf(k), v) <==> !Repeats(k, v, n)
  {
    match k
    case AsText(_) => RepStep(k, v, n);
    case AsInt(_) => RepStep(k, v, n);
    case AsList(_) => RepeatedListTells(k, v, n);
    case AsScript(_) => RepeatedScriptTells(k, v, n);
  }

  predicate PeerRepeats(k: PeerKey, v: string, n: nat) { n != 1 && k == AllowedIPs && Items(v) != [] }

  lemma {:induction false} RepeatedItems(v: string, n: nat)
    requires n >= 1
    ensures var r := ReadPeerAll(AllowedIPs, PeerList([]), Rep(v, n)); r.PeerList? && |r.items| == Times(n, |Items(v)|)
    ensures Items(v) == [] ==> ReadPeerAll(AllowedIPs, PeerList([]), Rep(v, n)) == PeerList([])
    ensures ItemCount(Rep(v, n)) == Times(n, |Items(v)|)
    decreases n
  {
    RepMore(v, n);
    if n > 1 {
      RepeatedItems(v, n - 1);
    }
  }

  lemma PeerRepeatTells(k: PeerKey, v: string, n: nat)
    requires n >= 1
    ensures ReadPeerAll(k, GetPeer(NO_PEER, k), Rep(v, n)) == ReadPeer(k, GetPeer(NO_PEER, k), v) <==> !PeerRepeats(k, v, n)
  {
    RepMore(v, n);
    if k == AllowedIPs {
      RepeatedItems(v, n);
      TimesTells(n, |Items(v)|);
      assert [] + Items(v) == Items(v);
    }
  }

  // ---------------------------------------------------------------------
  // One interface
  // ---------------------------------------------------------------------

  ghost function Expected(m: Fields, i: Interface, k: InterfaceKey): Value {
    match Managed(m, Name(k)) case None => Get(i, k) case Some(v) => if v == "" then ZeroOf(k) else Read(k, ZeroOf(k), v)
  }

  /** The keys without a field: as the model says, or as they were. */
  ghost predicate ExtraIsSet(m: Fields, extra: Fields, extra': Fields, inPeer: bool) {
    && (forall key :: NoField(inPeer, key) ==> KeyAgrees(m, extra, extra', key))
    && (forall key :: Wanted(m, key) && NoField(inPeer, key) ==> IsRead(extra', key))
  }

  ghost predicate SetsInterface(i: Interface, i': Interface, m: Fields) {
    InterfaceFieldsAreSet(i, i', m) && ExtraIsSet(m, i.extra, i'.extra, false)
  }

  /** A model value that the parser takes, on one line if more would add up. */
  ghost predicate KeyIsSet(m: Fields, k: InterfaceKey, places: nat) {
    match Managed(m, Name(k))
    case None => true
    case Some(v) =>
      if v == "" then k != AsText(PrivateKey)
      else (k.AsInt? ==> Atoi(v).Some?) && !Repeats(k, v, places)
  }

  lemma LowOf(k: InterfaceKey)
    ensures Lower(Name(k)) == LowerName(k)
  {
    FieldNames(k);
    KeysAreNamed(Lower(Name(k)), k);
  }

  /** The assignments of an interface before and after an edit. */
  ghost predicate InterfaceEdited(m: Fields, bs: seq<Block>, es: seq<Block>) {
    forall name :: ValuesEdited(m, name, bs, es)
  }

  lemma {:induction false} SomePlace(bs: seq<Block>, low: string)
    requires HasInterface(bs)
    ensures Places(bs, low) >= 1
    decreases |bs|
  {
    var b := bs[|bs| - 1];
    if KindOf(b.header) != InterfaceSection {
      var j :| 0 <= j < |bs| && KindOf(bs[j].header) == InterfaceSection;
      assert bs[..|bs| - 1][j] == bs[j];
      SomePlace(bs[..|bs| - 1], low);
    }
  }

  /** The values of one key before and after an edit that leaves `places` lines for it. */
  ghost predicate KeyEdited(m: Fields, ps: seq<Pair>, ps': seq<Pair>, k: InterfaceKey, places: nat) {
    ValuesOf(ps', LowerName(k)) == AllEdits(m, Name(k), ValuesOf(ps, LowerName(k)), places)
  }

  lemma KeyIsEdited(m: Fields, bs: seq<Block>, es: seq<Block>, k: InterfaceKey)
    requires InterfaceEdited(m, bs, es) && HasInterface(bs)
    ensures KeyEdited(m, InterfacePairs(bs), InterfacePairs(es), k, Places(bs, LowerName(k))) && Places(bs, LowerName(k)) >= 1
  {
    LowOf(k);
    assert ValuesEdited(m, Name(k), bs, es);
    SomePlace(bs, LowerName(k));
  }

  lemma FieldIsSet(m: Fields, ps: seq<Pair>, ps': seq<Pair>, k: InterfaceKey, places: nat)
    requires KeyEdited(m, ps, ps', k, places) && places >= 1
    requires FoldInterface(NO_INTERFACE, ps).Some? && FoldInterface(NO_INTERFACE, ps').Some?
    ensures var i, i' := FoldInterface(NO_INTERFACE, ps).value, FoldInterface(NO_INTERFACE, ps').value;
            Get(i', k) == Expected(m, i, k) <==>
            match Managed(m, Name(k)) case None => true case Some(v) => v == "" || !Repeats(k, v, places)
  {
    ZeroValues();
    FieldIs(NO_INTERFACE, ps, k);
    FieldIs(NO_INTERFACE, ps', k);
    assert Get(NO_INTERFACE, k) == ZeroOf(k);
    var v := Managed(m, Name(k));
    if v.Some? && v.value != "" {
      RepeatTells(k, v.value, places);
    }
  }

  lemma {:induction false} RepHas(v: string, n: nat)
    ensures n > 0 ==> v in Rep(v, n)
    ensures forall w :: w in Rep(v, n) ==> w == v
    decreases n
  {
    if n > 0 {
      RepHas(v, n - 1);
      assert Rep(v, n)[n - 1] == v;
    }
  }

  /** An integer key whose value the parser takes. */
  ghost predicate IntParses(m: Fields, k: InterfaceKey) {
    k.AsInt? && Managed(m, Name(k)).Some? && Managed(m, Name(k)).value != "" ==> Atoi(Managed(m, Name(k)).value).Some?
  }

  /** All values of one key parse. */
  ghost predicate KeyParses(ps: seq<Pair>, k: InterfaceKey) {
    k.AsInt? ==> forall v :: v in ValuesOf(ps, LowerName(k)) ==> Atoi(v).Some?
  }

  lemma KeyParsesWhen(m: Fields, ps: seq<Pair>, ps': seq<Pair>, k: InterfaceKey, places: nat)
    requires KeyEdited(m, ps, ps', k, places) && places >= 1 && KeyParses(ps, k)
    ensures KeyParses(ps', k) <==> IntParses(m, k)
  {
    var w := Managed(m, Name(k));
    if w.Some? {
      RepHas(w.value, places);
    }
  }

  lemma PairsParseByKey(ps: seq<Pair>)
    ensures PairsParse(ps) <==> forall k :: KeyParses(ps, k)
  {
    if PairsParse(ps) {
      forall k: InterfaceKey, v | k.AsInt? && v in ValuesOf(ps, LowerName(k))
        ensures Atoi(v).Some?
      {
        KeysAreNamed(LowerName(k), k);
        var j := ValueHasPair(ps, LowerName(k), v);
        assert PairParses(ps[j]);
      }
    }
    if forall k :: KeyParses(ps, k) {
      forall j | 0 <= j < |ps|
        ensures PairParses(ps[j])
      {
        PairHasValue(ps, j);
        var k := KeyOf(Lower(ps[j].0));
        if k.Some? {
          KeysAreNamed(Lower(ps[j].0), k.value);
          assert KeyParses(ps, k.value);
        }
      }
    }
  }

  lemma InterfaceFoldsWhen(m: Fields, bs: seq<Block>, es: seq<Block>)
    requires InterfaceEdited(m, bs, es) && HasInterface(bs) && InterfaceOf(bs).Some?
    ensures InterfaceOf(es).Some? <==> forall k :: IntParses(m, k)
  {
    FoldsWhen(NO_INTERFACE, InterfacePairs(bs));
    FoldsWhen(NO_INTERFACE, InterfacePairs(es));
    PairsParseByKey(InterfacePairs(bs));
    PairsParseByKey(InterfacePairs(es));
    forall k
      ensures KeyParses(InterfacePairs(es), k) <==> IntParses(m, k)
    {
      KeyIsEdited(m, bs, es, k);
      assert KeyParses(InterfacePairs(bs), k);
      KeyParsesWhen(m, InterfacePairs(bs), InterfacePairs(es), k, Places(bs, LowerName(k)));
    }
  }

  // ---------------------------------------------------------------------
  // One peer
  // ---------------------------------------------------------------------

  ghost function ExpectedOfPeer(m: Fields, p: Peer, k: PeerKey): PeerValue {
    match Managed(m, PeerName(k))
    case None => GetPeer(p, k)
    case Some(v) => if v == "" then GetPeer(NO_PEER, k) else ReadPeer(k, GetPeer(NO_PEER, k), v)
  }

  ghost predicate SetsPeer(p: Peer, p': Peer, m: Fields) {
    PeerFieldsAreSet(p, p', m) && ExtraIsSet(m, p.extra, p'.extra, true)
  }

  ghost predicate PeerKeyIsSet(m: Fields, k: PeerKey, places: nat) {
    match Managed(m, PeerName(k))
    case None => true
    case Some(v) =>
      v != "" ==>
        && (k == PersistentKeepalive ==> Keepalive(v).Some?)
        && (k == AllowedIPs ==> |Items(v)| <= MAX_ALLOWED_IPS)
        && !PeerRepeats(k, v, places)
  }

  function LinesFor(ps: seq<Pair>, k: PeerKey): nat { Slots(|ValuesOf(ps, LowerPeerName(k))|) }

  ghost predicate ValuesAreEdited(m: Fields, ps: seq<Pair>, ps': seq<Pair>) {
    forall name :: ValuesOf(ps', Lower(name)) == Edits(m, name, ValuesOf(ps, Lower(name)))
  }

  lemma PeerFieldIsSet(m: Fields, ps: seq<Pair>, ps': seq<Pair>, k: PeerKey)
    requires ValuesAreEdited(m, ps, ps') && PeerOf(ps).Some? && PeerOf(ps').Some?
    ensures GetPeer(PeerOf(ps').value, k) == ExpectedOfPeer(m, PeerOf(ps).value, k) <==>
            match Managed(m, PeerName(k)) case None => true case Some(v) => v == "" || !PeerRepeats(k, v, LinesFor(ps, k))
  {
    PeerNamesLowered(k);
    PeerFieldIs(NO_PEER, ps, k);
    PeerFieldIs(NO_PEER, ps', k);
    var v := Managed(m, PeerName(k));
    if v.Some? && v.value != "" {
      PeerRepeatTells(k, v.value, LinesFor(ps, k));
    }
  }

  lemma KeepaliveParsesWhen(m: Fields, ps: seq<Pair>, ps': seq<Pair>)
    requires ValuesAreEdited(m, ps, ps') && PeerPairsParse(ps)
    ensures PeerPairsParse(ps') <==>
            match Managed(m, PeerName(PersistentKeepalive)) case None => true case Some(v) => v == "" || Keepalive(v).Some?
  {
    var k, low := PersistentKeepalive, LowerPeerName(PersistentKeepalive);
    PeerNamesLowered(k);
    var w := Managed(m, PeerName(k));
    var lines := LinesFor(ps, k);
    if w.Some? && w.value != "" {
      RepHas(w.value, lines);
      var j := ValueHasPair(ps', low, w.value);
      assert PeerPairsParse(ps') ==> PeerPairParses(ps'[j]);
    }
    if w.None? || w.value == "" || Keepalive(w.value).Some? {
      forall j | 0 <= j < |ps'|
        ensures PeerPairParses(ps'[j])
      {
        if Lower(ps'[j].0) == low {
          PairHasValue(ps', j);
          if w.None? {
            var i := ValueHasPair(ps, low, ps'[j].1);
            assert PeerPairParses(ps[i]);
          }
        }
      }
    }
  }

  lemma ItemsFitWhen(m: Fields, ps: seq<Pair>, ps': seq<Pair>)
    requires ValuesAreEdited(m, ps, ps') && ItemCount(Allowed(ps)) <= MAX_ALLOWED_IPS
    ensures PeerKeyIsSet(m, AllowedIPs, LinesFor(ps, AllowedIPs)) ==> ItemCount(Allowed(ps')) <= MAX_ALLOWED_IPS
    ensures ItemCount(Allowed(ps')) <= MAX_ALLOWED_IPS ==>
              match Managed(m, PeerName(AllowedIPs)) case None => true case Some(v) => v == "" || |Items(v)| <= MAX_ALLOWED_IPS
  {
    PeerNamesLowered(AllowedIPs);
    var w := Managed(m, PeerName(AllowedIPs));
    if w.Some? && w.value != "" {
      RepeatedItems(w.value, LinesFor(ps, AllowedIPs));
      TimesTells(LinesFor(ps, AllowedIPs), |Items(w.value)|);
    }
  }

  ghost predicate PeerKeysAreSet(m: Fields, ps: seq<Pair>) { forall k :: PeerKeyIsSet(m, k, LinesFor(ps, k)) }

  ghost predicate PeerFieldsAreSet(p: Peer, p': Peer, m: Fields) { forall k :: GetPeer(p', k) == ExpectedOfPeer(m, p, k) }

  lemma PeerFoldsWhenSet(m: Fields, ps: seq<Pair>, ps': seq<Pair>)
    requires ValuesAreEdited(m, ps, ps') && PeerOf(ps).Some?
    ensures (PeerKeyIsSet(m, PersistentKeepalive, LinesFor(ps, PersistentKeepalive))
             && PeerKeyIsSet(m, AllowedIPs, LinesFor(ps, AllowedIPs))) ==> PeerOf(ps').Some?
    ensures PeerOf(ps').Some? ==>
              (forall v :: Managed(m, PeerName(PersistentKeepalive)) == Some(v) && v != "" ==> Keepalive(v).Some?)
              && forall v :: Managed(m, PeerName(AllowedIPs)) == Some(v) && v != "" ==> |Items(v)| <= MAX_ALLOWED_IPS
  {
    PeerFoldsWhen(NO_PEER, ps);
    PeerFoldsWhen(NO_PEER, ps');
    KeepaliveParsesWhen(m, ps, ps');
    ItemsFitWhen(m, ps, ps');
  }

  lemma PeerFieldIsSetWhen(m: Fields, ps: seq<Pair>, ps': seq<Pair>, k: PeerKey)
    requires ValuesAreEdited(m, ps, ps') && PeerOf(ps).Some? && PeerOf(ps').Some?
    ensures GetPeer(PeerOf(ps').value, k) == ExpectedOfPeer(m, PeerOf(ps).value, k) <==> PeerKeyIsSet(m, k, LinesFor(ps, k))
  {
    PeerFoldsWhenSet(m, ps, ps');
    PeerFieldIsSet(m, ps, ps', k);
  }

  /** A peer is set exactly when each of its keys is. */
  lemma PeerIsSet(m: Fields, ps: seq<Pair>, ps': seq<Pair>)
    requires ValuesAreEdited(m, ps, ps') && PeerOf(ps).Some?
    ensures PeerOf(ps').Some? && PeerFieldsAreSet(PeerOf(ps).value, PeerOf(ps').value, m) <==> PeerKeysAreSet(m, ps)
  {
    PeerFoldsWhenSet(m, ps, ps');
    if PeerOf(ps').Some? {
      forall k
        ensures GetPeer(PeerOf(ps').value, k) == ExpectedOfPeer(m, PeerOf(ps).value, k) <==> PeerKeyIsSet(m, k, LinesFor(ps, k))
      {
        PeerFieldIsSetWhen(m, ps, ps', k);
      }
    }
  }

  // ---------------------------------------------------------------------
  // The whole interface
  // ---------------------------------------------------------------------

  ghost predicate InterfaceKeysAreSet(m: Fields, bs: seq<Block>) { forall k :: KeyIsSet(m, k, Places(bs, LowerName(k))) }

  ghost predicate InterfaceFieldsAreSet(i: Interface, i': Interface, m: Fields) { forall k :: Get(i', k) == Expected(m, i, k) }

  predicate HasPrivateKey(i: Interface) { i.texts[PrivateKey] != "" }

  lemma PrivateKeyStays(i: Interface, i': Interface, m: Fields)
    requires InterfaceFieldsAreSet(i, i', m) && HasPrivateKey(i)
    ensures HasPrivateKey(i') <==> Managed(m, Name(AsText(PrivateKey))) != Some("")
  {
    var k := AsText(PrivateKey);
    assert Get(i', k) == Expected(m, i, k) && Get(i, k) == Text(i.texts[PrivateKey]) && Get(i', k) == Text(i'.texts[PrivateKey]);
  }

  lemma KeyIsSetWhen(m: Fields, bs: seq<Block>, es: seq<Block>, k: InterfaceKey)
    requires InterfaceEdited(m, bs, es) && HasInterface(bs) && InterfaceOf(bs).Some? && InterfaceOf(es).Some?
    ensures Get(InterfaceOf(es).value, k) == Expected(m, InterfaceOf(bs).value, k)
            && (k == AsText(PrivateKey) ==> Managed(m, Name(k)) != Some("")) <==>
            KeyIsSet(m, k, Places(bs, LowerName(k)))
  {
    KeyIsEdited(m, bs, es, k);
    FieldIsSet(m, InterfacePairs(bs), InterfacePairs(es), k, Places(bs, LowerName(k)));
    InterfaceFoldsWhen(m, bs, es);
    assert IntParses(m, k);
  }

  lemma InterfaceFoldsWhenSet(m: Fields, bs: seq<Block>, es: seq<Block>)
    requires InterfaceEdited(m, bs, es) && HasInterface(bs) && InterfaceOf(bs).Some? && InterfaceKeysAreSet(m, bs)
    ensures InterfaceOf(es).Some?
  {
    forall k
      ensures IntParses(m, k)
    {
      assert KeyIsSet(m, k, Places(bs, LowerName(k)));
    }
    InterfaceFoldsWhen(m, bs, es);
  }

  /** An interface is set, and has its private key, exactly when each of its keys is set. */
  lemma InterfaceIsSet(m: Fields, bs: seq<Block>, es: seq<Block>)
    requires InterfaceEdited(m, bs, es) && HasInterface(bs)
    requires InterfaceOf(bs).Some? && HasPrivateKey(InterfaceOf(bs).value)
    ensures var i, i' := InterfaceOf(bs).value, InterfaceOf(es);
            i'.Some? && HasPrivateKey(i'.value) && InterfaceFieldsAreSet(i, i'.value, m) <==> InterfaceKeysAreSet(m, bs)
  {
    var i, i' := InterfaceOf(bs).value, InterfaceOf(es);
    if InterfaceKeysAreSet(m, bs) {
      InterfaceFoldsWhenSet(m, bs, es);
    }
    if i'.Some? {
      forall k
        ensures Get(i'.value, k) == Expected(m, i, k) && (k == AsText(PrivateKey) ==> Managed(m, Name(k)) != Some("")) <==>
                KeyIsSet(m, k, Places(bs, LowerName(k)))
      {
        KeyIsSetWhen(m, bs, es, k);
      }
      if InterfaceFieldsAreSet(i, i'.value, m) {
        PrivateKeyStays(i, i'.value, m);
      }
    }
  }

  lemma ExtraIsSetWhenRead(m: Fields, g: Fields, g': Fields, inPeer: bool)
    requires Agrees(m, g, g') && Covers(m, g')
    ensures ExtraIsSet(m, Unknown(inPeer, g), Unknown(inPeer, g'), inPeer)
  {
    forall key | NoField(inPeer, key)
      ensures KeyAgrees(m, Unknown(inPeer, g), Unknown(inPeer, g'), key)
    {
      assert KeyAgrees(m, g, g', key);
    }
    forall key | Wanted(m, key) && NoField(inPeer, key)
      ensures IsRead(Unknown(inPeer, g'), key)
    {
      assert IsRead(g', key);
      var other :| other in g' && EqualFold(key, other);
      assert other in Unknown(inPeer, g');
    }
  }

  // ---------------------------------------------------------------------
  // Texts
  // ---------------------------------------------------------------------

  lemma DocumentIsKnown(d: Document)
    requires WellFormed(d) && HookParsing.KnownHeaders(LinesOf(d))
    ensures KnownBlocks(d.blocks)
  {
    forall j | 0 <= j < |d.blocks|
      ensures KindOf(d.blocks[j].header) != OtherSection
    {
      var i := HeaderIsLine(d.blocks, j);
      assert LinesOf(d)[|d.preamble| + i] == d.blocks[j].header;
      assert HookParsing.KnownHeader(LinesOf(d)[|d.preamble| + i]);
    }
  }

  lemma {:induction false} HeaderIsLine(bs: seq<Block>, j: nat) returns (i: nat)
    requires j < |bs|
    ensures i < |BlocksLines(bs)| && BlocksLines(bs)[i] == bs[j].header
    decreases |bs|
  {
    var before, b := bs[..|bs| - 1], bs[|bs| - 1];
    if j < |before| {
      i := HeaderIsLine(before, j);
    } else {
      i := |BlocksLines(before)|;
      assert BlockLines(b)[0] == b.header;
    }
  }

  lemma EditIsKnown(f: TunnelFields, d: Document)
    requires Writable(f) && WellFormed(d) && KnownBlocks(d.blocks)
    ensures WellFormed(EditedDocument(f, d)) && KnownBlocks(EditedDocument(f, d).blocks)
  {
    EditKeepsWellFormed(f, d);
    EditKeepsHeaders(f, d.blocks);
  }

  /** What the parser makes of a text that is not too long. */
  lemma TextParses(text: string)
    requires |text| <= MAX_CONFIG_SIZE && !HasPrefix(text, BOM)
    ensures var r := ParseLines(START, Split(text, '\n'));
            && (Parsed(text).Ok? ==> r.Ok? && Parsed(text) == Finished(r.value))
            && (r.Ok? && HasPrivateKey(r.value.iface) ==> Parsed(text) == Finished(r.value))
  {
    var r := ParseLines(START, Split(text, '\n'));
    if Parsed(text).Ok? {
      HookParsing.AcceptedLines(text);
    } else if r.Ok? && HasPrivateKey(r.value.iface) {
      LinesParse(text, Split(text, '\n'), r.value);
    }
  }

  lemma LinesParse(text: string, lines: seq<string>, s: Scan)
    requires |text| <= MAX_CONFIG_SIZE && !HasPrefix(text, BOM) && lines == Split(text, '\n')
    requires ParseLines(START, lines) == Ok(s) && HasPrivateKey(s.iface)
    ensures Parsed(text) == Finished(s)
  {
    SplitParts(text, '\n');
    JoinOfSplit(text, '\n');
    HookParsing.BomIsInFirstLine(lines);
    HookParsing.ParsedLines(text, lines, s);
  }

  // ---------------------------------------------------------------------
  // No NUL comes in
  // ---------------------------------------------------------------------

  ghost predicate NulFree(m: Fields) { forall k :: Wanted(m, k) ==> NUL !in k && NUL !in m[k] }

  ghost predicate AllNulFree(f: TunnelFields) { NulFree(f.iface) && forall j :: 0 <= j < |f.peers| ==> NulFree(f.peers[j]) }

  lemma NoNulInAssignment(key: string, v: string)
    requires CleanSpelling(key) && NUL !in key && NUL !in v
    ensures LineOk(Assignment(key, v))
  {
    var line := Assignment(key, v);
    AssignmentReads(key, v);
    assert NUL !in line;
    TrimIsPart(line);
  }

  lemma KeyIsInLine(line: string)
    requires HasKey(line)
    ensures forall c :: c in KeyAt(line) ==> c in Trim(line)
  {
    var t := Trim(line);
    TrimIsPart(t[..IndexOf(t, '=')]);
  }

  lemma RewrittenLineOk(m: Fields, line: string)
    requires CleanModel(m) && NulFree(m) && LineOk(line)
    ensures LinesOk(RewriteLine(Some(m), line))
  {
    if IsManaged(Some(m), line) && Managed(m, KeyAt(line)).value != "" {
      var k :| k in m && EqualFold(k, KeyAt(line)) && m[k] == Managed(m, KeyAt(line)).value;
      assert Wanted(m, k);
      SpellingIsClean(k, line);
      KeyIsInLine(line);
      NoNulInAssignment(KeyAt(line), m[k]);
    }
  }

  lemma {:induction false} RewrittenLinesOk(m: Fields, body: seq<string>)
    requires CleanModel(m) && NulFree(m) && LinesOk(body)
    ensures LinesOk(RewriteBody(Some(m), body))
    decreases |body|
  {
    if body != [] {
      RewrittenLinesOk(m, body[..|body| - 1]);
      RewrittenLineOk(m, body[|body| - 1]);
    }
  }

  lemma AddedLinesOk(m: Fields, lines: seq<string>)
    requires CleanModel(m) && NulFree(m)
    ensures LinesOk(Added(m, lines))
  {
    var keys := Ascending(Missing(m, Present(lines)));
    MissingAreWanted(m, Present(lines));
    AssignmentsList(m, keys);
    forall i | 0 <= i < |keys|
      ensures LineOk(Added(m, lines)[i])
    {
      assert Wanted(m, keys[i]);
      AllowedKeyIsClean(keys[i]);
      NoNulInAssignment(keys[i], m[keys[i]]);
    }
  }

  lemma EditedLinesOk(t: Option<Fields>, b: Block)
    requires (t.Some? ==> CleanModel(t.value) && NulFree(t.value)) && LinesOk(b.body)
    ensures LinesOk(EditedBlock(t, b).body)
  {
    if t.None? {
      UntouchedBlock(b);
    } else {
      RewrittenLinesOk(t.value, b.body);
      AddedLinesOk(t.value, BlockLines(Rewritten(t, b)));
    }
  }

  lemma {:induction false} EditedBodiesOk(f: TunnelFields, bs: seq<Block>)
    requires CleanFields(f) && AllNulFree(f) && BodiesOk(bs)
    ensures BodiesOk(EditedBlocks(f, bs))
    decreases |bs|
  {
    if bs != [] {
      var before, b := bs[..|bs| - 1], bs[|bs| - 1];
      EditedBodiesOk(f, before);
      EditedLinesOk(TargetFor(f, before, b.header), b);
    }
  }
}
