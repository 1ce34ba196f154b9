/** Saving a text in the field editor as it was read from it: exactly when the
    parsed configuration stays, and what several lines of a list come to. */
module FieldSaving {
  import opened Wrappers
  import opened Text
  import opened StringOrder
  import opened WireGuardConfig
  import opened ConfigParser
  import opened ConfigRoundTrip
  import opened FieldEditor
  import opened FieldEditorLaws
  import opened FieldReading
  import opened SectionParsing
  import opened SectionValues
  import opened FieldParsing
  import opened FieldAgreement
  import opened FieldSetting
  import HookParsing
  import ConfigAccepted

  // ---------------------------------------------------------------------
  // The model that is read
  // ---------------------------------------------------------------------

  lemma {:induction false} PairIsRead(ps: seq<Pair>, j: nat)
    requires j < |ps|
    ensures ps[j].0 in LastOf(ps)
    decreases |ps|
  {
    if j < |ps| - 1 {
      PairIsRead(ps[..|ps| - 1], j);
    }
  }

  /** With one spelling of each key the value read is the last that is assigned. */
  lemma {:induction false} LastValue(ps: seq<Pair>, key: string)
    requires CaseDistinct(LastOf(ps)) && key in LastOf(ps)
    ensures var vs := ValuesOf(ps, Lower(key)); vs != [] && LastOf(ps)[key] == vs[|vs| - 1]
    decreases |ps|
  {
    var before, last := ps[..|ps| - 1], ps[|ps| - 1];
    assert last.0 in LastOf(ps);
    if Lower(last.0) == Lower(key) {
      assert EqualFold(last.0, key);
    } else {
      assert key in LastOf(before) && CaseDistinct(LastOf(before));
      LastValue(before, key);
    }
  }

  lemma OwnValue(ps: seq<Pair>, name: string)
    requires CaseDistinct(LastOf(ps))
    ensures var vs := ValuesOf(ps, Lower(name));
            Managed(LastOf(ps), name) == if vs == [] then None else Some(vs[|vs| - 1])
  {
    var m, vs := LastOf(ps), ValuesOf(ps, Lower(name));
    if key :| key in m && EqualFold(key, name) {
      LastValue(ps, key);
      ManagedIs(m, key, name);
    } else if vs != [] {
      var j := ValueHasPair(ps, Lower(name), vs[0]);
      PairIsRead(ps, j);
      assert EqualFold(ps[j].0, name);
    }
  }

  /** The values after saving: the last one on each of `places` lines, or none if it is empty. */
  function Saved(vs: seq<string>, places: nat): seq<string> {
    if vs == [] || vs[|vs| - 1] == "" then [] else Rep(vs[|vs| - 1], places)
  }

  // ---------------------------------------------------------------------
  // What stays
  // ---------------------------------------------------------------------

  predicate NoneEmpty(inPeer: bool, g: map<string, string>) { forall key :: key in g && NoField(inPeer, key) ==> g[key] != "" }

  lemma UnknownStays(inPeer: bool, g: map<string, string>)
    ensures Unknown(inPeer, WithoutEmpty(g)) == Unknown(inPeer, g) <==> NoneEmpty(inPeer, g)
  {
    if NoneEmpty(inPeer, g) {
      assert Unknown(inPeer, WithoutEmpty(g)) == Unknown(inPeer, g);
    } else {
      var key :| key in g && NoField(inPeer, key) && g[key] == "";
      assert key in Unknown(inPeer, g) && key !in Unknown(inPeer, WithoutEmpty(g));
    }
  }

  function ReadOf(k: InterfaceKey, vs: seq<string>): Value { ReadAll(k, ZeroOf(k), vs) }

  /** A list or a hook reads the same after saving. */
  predicate KeyStays(k: InterfaceKey, vs: seq<string>, places: nat) {
    k.AsList? || k.AsScript? ==> ReadOf(k, Saved(vs, places)) == ReadOf(k, vs)
  }

  lemma OtherKeysStay(k: InterfaceKey, vs: seq<string>, places: nat)
    requires places >= 1 && (k.AsText? || k.AsInt?) && (k.AsInt? ==> forall v :: v in vs ==> Atoi(v).Some?)
    ensures ReadOf(k, Saved(vs, places)) == ReadOf(k, vs)
  {
    if vs != [] {
      var v := vs[|vs| - 1];
      if v == "" {
        assert k.AsInt? ==> v in vs && Atoi(v).None?;
      } else {
        RepStep(k, v, places);
      }
    }
  }

  ghost predicate InterfaceStays(bs: seq<Block>) {
    && (forall k :: KeyStays(k, ValuesOf(InterfacePairs(bs), LowerName(k)), Places(bs, LowerName(k))))
    && NoneEmpty(false, LastOf(InterfacePairs(bs)))
  }

  function ReadOfPeer(k: PeerKey, vs: seq<string>): PeerValue { ReadPeerAll(k, GetPeer(NO_PEER, k), vs) }

  predicate PeerStays(ps: seq<Pair>) {
    && ReadOfPeer(AllowedIPs, Saved(Allowed(ps), LinesFor(ps, AllowedIPs))) == ReadOfPeer(AllowedIPs, Allowed(ps))
    && NoneEmpty(true, LastOf(ps))
  }

  lemma OtherPeerKeysStay(k: PeerKey, vs: seq<string>, places: nat)
    requires places >= 1 && k != AllowedIPs && (k == PersistentKeepalive ==> forall v :: v in vs ==> Keepalive(v).Some?)
    ensures ReadOfPeer(k, Saved(vs, places)) == ReadOfPeer(k, vs)
  {
    if vs != [] {
      var v := vs[|vs| - 1];
      if v == "" {
        EmptyKeepalive();
        assert k == PersistentKeepalive ==> v in vs;
      } else {
        RepMore(v, places);
      }
    }
  }

  lemma EmptyKeepalive()
    ensures Keepalive("").None?
  {
    assert Lower(Trim("")) == "";
    NoUnit("", UNITS);
  }

  // ---------------------------------------------------------------------
  // The interface
  // ---------------------------------------------------------------------

  lemma SavedKey(bs: seq<Block>, es: seq<Block>, k: InterfaceKey)
    requires CaseDistinct(LastOf(InterfacePairs(bs))) && InterfaceEdited(LastOf(InterfacePairs(bs)), bs, es) && HasInterface(bs)
    ensures ValuesOf(InterfacePairs(es), LowerName(k)) ==
            Saved(ValuesOf(InterfacePairs(bs), LowerName(k)), Places(bs, LowerName(k)))
    ensures Places(bs, LowerName(k)) >= 1
  {
    KeyIsEdited(LastOf(InterfacePairs(bs)), bs, es, k);
    LowOf(k);
    OwnValue(InterfacePairs(bs), Name(k));
  }

  lemma SavedField(bs: seq<Block>, es: seq<Block>, k: InterfaceKey)
    requires CaseDistinct(LastOf(InterfacePairs(bs))) && InterfaceEdited(LastOf(InterfacePairs(bs)), bs, es) && HasInterface(bs)
    requires InterfaceOf(bs).Some? && InterfaceOf(es).Some?
    ensures Get(InterfaceOf(es).value, k) == Get(InterfaceOf(bs).value, k) <==>
            KeyStays(k, ValuesOf(InterfacePairs(bs), LowerName(k)), Places(bs, LowerName(k)))
  {
    SavedKey(bs, es, k);
    ZeroValues();
    FieldIs(NO_INTERFACE, InterfacePairs(bs), k);
    FieldIs(NO_INTERFACE, InterfacePairs(es), k);
    assert Get(NO_INTERFACE, k) == ZeroOf(k);
    if k.AsText? || k.AsInt? {
      FoldsWhen(NO_INTERFACE, InterfacePairs(bs));
      PairsParseByKey(InterfacePairs(bs));
      assert KeyParses(InterfacePairs(bs), k);
      OtherKeysStay(k, ValuesOf(InterfacePairs(bs), LowerName(k)), Places(bs, LowerName(k)));
    }
  }

  lemma SavedInterfaceFolds(bs: seq<Block>, es: seq<Block>)
    requires CaseDistinct(LastOf(InterfacePairs(bs))) && InterfaceEdited(LastOf(InterfacePairs(bs)), bs, es) && HasInterface(bs)
    requires InterfaceOf(bs).Some?
    ensures InterfaceOf(es).Some?
  {
    var m := LastOf(InterfacePairs(bs));
    FoldsWhen(NO_INTERFACE, InterfacePairs(bs));
    PairsParseByKey(InterfacePairs(bs));
    forall k
      ensures IntParses(m, k)
    {
      LowOf(k);
      OwnValue(InterfacePairs(bs), Name(k));
      assert KeyParses(InterfacePairs(bs), k);
    }
    InterfaceFoldsWhen(m, bs, es);
  }

  lemma SameInterfaceWhen(bs: seq<Block>, i: Interface, i': Interface)
    requires i.extra == Unknown(false, LastOf(InterfacePairs(bs)))
    requires i'.extra == Unknown(false, WithoutEmpty(LastOf(InterfacePairs(bs))))
    requires forall k :: Get(i', k) == Get(i, k) <==>
                         KeyStays(k, ValuesOf(InterfacePairs(bs), LowerName(k)), Places(bs, LowerName(k)))
    ensures i' == i <==> InterfaceStays(bs)
  {
    UnknownStays(false, LastOf(InterfacePairs(bs)));
    if InterfaceStays(bs) {
      SameFields(i, i');
    }
  }

  /** The interface is the same after saving. */
  lemma InterfaceStaysWhen(bs: seq<Block>, es: seq<Block>)
    requires CaseDistinct(LastOf(InterfacePairs(bs))) && InterfaceEdited(LastOf(InterfacePairs(bs)), bs, es) && HasInterface(bs)
    requires LastOf(InterfacePairs(es)) == WithoutEmpty(LastOf(InterfacePairs(bs))) && InterfaceOf(bs).Some?
    ensures InterfaceOf(es).Some? && (InterfaceOf(es) == InterfaceOf(bs) <==> InterfaceStays(bs))
  {
    SavedInterfaceFolds(bs, es);
    ExtraIs(InterfacePairs(bs));
    ExtraIs(InterfacePairs(es));
    var i, i' := InterfaceOf(bs).value, InterfaceOf(es).value;
    forall k
      ensures Get(i', k) == Get(i, k) <==> KeyStays(k, ValuesOf(InterfacePairs(bs), LowerName(k)), Places(bs, LowerName(k)))
    {
      SavedField(bs, es, k);
    }
    SameInterfaceWhen(bs, i, i');
  }

  // ---------------------------------------------------------------------
  // The peers
  // ---------------------------------------------------------------------

  lemma SavedPeerKey(ps: seq<Pair>, ps': seq<Pair>, k: PeerKey)
    requires CaseDistinct(LastOf(ps)) && ValuesAreEdited(LastOf(ps), ps, ps')
    ensures ValuesOf(ps', LowerPeerName(k)) == Saved(ValuesOf(ps, LowerPeerName(k)), LinesFor(ps, k))
  {
    PeerNamesLowered(k);
    OwnValue(ps, PeerName(k));
  }

  lemma {:induction false} ItemCountIs(vs: seq<string>)
    ensures var r := ReadOfPeer(AllowedIPs, vs); r.PeerList? && |r.items| == ItemCount(vs)
    decreases |vs|
  {
    if vs != [] {
      ItemCountIs(vs[..|vs| - 1]);
    }
  }

  lemma SavedKeepalivesParse(ps: seq<Pair>, ps': seq<Pair>)
    requires CaseDistinct(LastOf(ps)) && ValuesAreEdited(LastOf(ps), ps, ps') && PeerPairsParse(ps)
    ensures PeerPairsParse(ps')
  {
    PeerNamesLowered(PersistentKeepalive);
    OwnValue(ps, PeerName(PersistentKeepalive));
    KeepaliveParsesWhen(LastOf(ps), ps, ps');
    var vs := ValuesOf(ps, LowerPeerName(PersistentKeepalive));
    if vs != [] {
      var j := ValueHasPair(ps, LowerPeerName(PersistentKeepalive), vs[|vs| - 1]);
      assert PeerPairParses(ps[j]);
    }
  }

  lemma SavedPeerField(ps: seq<Pair>, ps': seq<Pair>, k: PeerKey)
    requires CaseDistinct(LastOf(ps)) && ValuesAreEdited(LastOf(ps), ps, ps') && PeerOf(ps).Some? && PeerOf(ps').Some?
    requires k == AllowedIPs ==> ReadOfPeer(k, Saved(Allowed(ps), LinesFor(ps, k))) == ReadOfPeer(k, Allowed(ps))
    ensures GetPeer(PeerOf(ps').value, k) == GetPeer(PeerOf(ps).value, k)
  {
    SavedPeerKey(ps, ps', k);
    PeerFieldIs(NO_PEER, ps, k);
    PeerFieldIs(NO_PEER, ps', k);
    if k != AllowedIPs {
      PeerFoldsWhen(NO_PEER, ps);
      forall v | k == PersistentKeepalive && v in ValuesOf(ps, LowerPeerName(k))
        ensures Keepalive(v).Some?
      {
        var j := ValueHasPair(ps, LowerPeerName(k), v);
        assert PeerPairParses(ps[j]);
      }
      OtherPeerKeysStay(k, ValuesOf(ps, LowerPeerName(k)), LinesFor(ps, k));
    }
  }

  lemma SamePeer(p: Peer, q: Peer)
    requires (forall k :: GetPeer(p, k) == GetPeer(q, k)) && p.extra == q.extra
    ensures p == q
  {
    assert GetPeer(p, PublicKey) == GetPeer(q, PublicKey) && GetPeer(p, PresharedKey) == GetPeer(q, PresharedKey);
    assert GetPeer(p, Endpoint) == GetPeer(q, Endpoint) && GetPeer(p, AllowedIPs) == GetPeer(q, AllowedIPs);
    assert GetPeer(p, PersistentKeepalive) == GetPeer(q, PersistentKeepalive);
  }

  lemma SavedPeerFolds(ps: seq<Pair>, ps': seq<Pair>)
    requires CaseDistinct(LastOf(ps)) && ValuesAreEdited(LastOf(ps), ps, ps') && PeerOf(ps).Some?
    requires ReadOfPeer(AllowedIPs, Saved(Allowed(ps), LinesFor(ps, AllowedIPs))) == ReadOfPeer(AllowedIPs, Allowed(ps))
    ensures PeerOf(ps').Some?
  {
    PeerFoldsWhen(NO_PEER, ps);
    PeerFoldsWhen(NO_PEER, ps');
    SavedKeepalivesParse(ps, ps');
    SavedPeerKey(ps, ps', AllowedIPs);
    ItemCountIs(Allowed(ps));
    ItemCountIs(Allowed(ps'));
  }

  /** A peer is the same after saving. */
  lemma PeerStaysWhen(ps: seq<Pair>, ps': seq<Pair>)
    requires CaseDistinct(LastOf(ps)) && ValuesAreEdited(LastOf(ps), ps, ps') && PeerOf(ps).Some?
    requires LastOf(ps') == WithoutEmpty(LastOf(ps))
    ensures PeerOf(ps') == PeerOf(ps) <==> PeerStays(ps)
  {
    UnknownStays(true, LastOf(ps));
    PeerExtraIs(ps);
    if PeerStays(ps) {
      SavedPeerFolds(ps, ps');
      PeerExtraIs(ps');
      forall k ensures GetPeer(PeerOf(ps').value, k) == GetPeer(PeerOf(ps).value, k) {
        SavedPeerField(ps, ps', k);
      }
      SamePeer(PeerOf(ps').value, PeerOf(ps).value);
    } else if PeerOf(ps') == PeerOf(ps) {
      PeerExtraIs(ps');
      SavedPeerKey(ps, ps', AllowedIPs);
      PeerFieldIs(NO_PEER, ps, AllowedIPs);
      PeerFieldIs(NO_PEER, ps', AllowedIPs);
    }
  }

  // ---------------------------------------------------------------------
  // Whole texts
  // ---------------------------------------------------------------------

  ghost predicate PeersStay(pss: seq<seq<Pair>>) { forall j :: 0 <= j < |pss| ==> PeerStays(pss[j]) }

  /** The sections of a text before and after saving. */
  ghost predicate IsSaving(bs: seq<Block>, es: seq<Block>) {
    && HasInterface(bs) && CaseDistinct(LastOf(InterfacePairs(bs)))
    && InterfaceEdited(LastOf(InterfacePairs(bs)), bs, es)
    && LastOf(InterfacePairs(es)) == WithoutEmpty(LastOf(InterfacePairs(bs)))
    && |PeerPairs(es)| == |PeerPairs(bs)|
    && forall j :: 0 <= j < |PeerPairs(bs)| ==> IsPeerSaving(PeerPairs(bs)[j], PeerPairs(es)[j])
  }

  ghost predicate IsPeerSaving(ps: seq<Pair>, ps': seq<Pair>) {
    && CaseDistinct(LastOf(ps)) && ValuesAreEdited(LastOf(ps), ps, ps')
    && LastOf(ps') == WithoutEmpty(LastOf(ps))
  }

  lemma EditIsSaving(f: TunnelFields, bs: seq<Block>, es: seq<Block>)
    requires IsEdit(f, bs, es) && f == ReadBlocks(bs) && AllCaseDistinct(f)
    requires SavedReads(f, ReadBlocks(es))
    ensures IsSaving(bs, es)
  {
    BlocksReadLast(bs);
    BlocksReadLast(es);
    PeersAre(f, bs, es);
    forall j | 0 <= j < |PeerPairs(bs)|
      ensures IsPeerSaving(PeerPairs(bs)[j], PeerPairs(es)[j])
    {
      assert PeerIsEdit(f, j, PeerPairs(bs)[j], PeerPairs(es)[j]);
      assert f.peers[j] == LastOf(PeerPairs(bs)[j]);
    }
  }

  lemma PeersStayWhen(pss: seq<seq<Pair>>, pss': seq<seq<Pair>>)
    requires PeersFold(pss) && |pss'| == |pss| && forall j :: 0 <= j < |pss| ==> IsPeerSaving(pss[j], pss'[j])
    ensures PeersFold(pss') && PeersOf(pss') == PeersOf(pss) <==> PeersStay(pss)
  {
    forall j | 0 <= j < |pss|
      ensures PeerOf(pss'[j]) == PeerOf(pss[j]) <==> PeerStays(pss[j])
    {
      PeerStaysWhen(pss[j], pss'[j]);
    }
    if PeersFold(pss') && PeersOf(pss') == PeersOf(pss) {
      forall j | 0 <= j < |pss|
        ensures PeerStays(pss[j])
      {
        assert PeersOf(pss')[j] == PeersOf(pss)[j];
      }
    }
  }

  lemma ReadIsClean(f: TunnelFields)
    requires AllKeysAllowed(f) && AllCaseDistinct(f)
    requires CleanRead(f.iface) && forall j :: 0 <= j < |f.peers| ==> CleanRead(f.peers[j])
    ensures CleanFields(f)
  {
  }

  lemma ReadIsNulFree(f: TunnelFields)
    requires AllLackNul(f)
    ensures AllNulFree(f)
  {
  }

  /** The model of an accepted text is one that a text can carry. */
  lemma OwnFieldsAreClean(content: string)
    requires Parsed(content).Ok? && !HasPrefix(content, BOM)
    requires AllKeysAllowed(FieldsOf(content)) && AllCaseDistinct(FieldsOf(content))
    ensures CleanFields(FieldsOf(content)) && AllNulFree(FieldsOf(content))
  {
    FieldReading.FieldsAreClean(content);
    ReadIsClean(FieldsOf(content));
    HookParsing.AcceptedLacksNul(content);
    FieldsLackNul(content);
    ReadIsNulFree(FieldsOf(content));
  }

  /** What is read of the saved sections. */
  ghost predicate SavedReads(f: TunnelFields, g: TunnelFields) {
    && g.iface == WithoutEmpty(f.iface) && |g.peers| == |f.peers|
    && forall j :: 0 <= j < |f.peers| ==> g.peers[j] == WithoutEmpty(f.peers[j])
  }

  lemma SavedSectionsRead(content: string)
    requires CleanFields(FieldsOf(content))
    ensures SavedReads(FieldsOf(content), ReadBlocks(EditedBlocks(FieldsOf(content), BlocksOf(content))))
  {
    SetWhatWasRead(content);
    DocumentOfEdited(content, FieldsOf(content));
  }

  lemma KnownEdit(f: TunnelFields, d: Document)
    requires CleanFields(f) && WellFormed(d) && KnownBlocks(d.blocks) && HasInterface(d.blocks)
    ensures IsEdit(f, d.blocks, EditedBlocks(f, d.blocks))
  {
    EditIsKnown(f, d);
    EditIsEdit(f, d.blocks);
  }

  lemma AcceptedHasInterface(content: string)
    requires Parsed(content).Ok? && !HasPrefix(content, BOM) && HookParsing.KnownHeaders(Split(content, '\n'))
    ensures Acceptable(DocumentOf(Split(content, '\n'))) && HasInterface(BlocksOf(content))
  {
    AcceptedYields(content);
    PrivateKeyHasSection(BlocksOf(content));
  }

  lemma EditsAreSavings(f: TunnelFields, d: Document)
    requires CleanFields(f) && Acceptable(d) && HasInterface(d.blocks) && f == ReadBlocks(d.blocks)
    requires SavedReads(f, ReadBlocks(EditedBlocks(f, d.blocks)))
    ensures IsSaving(d.blocks, EditedBlocks(f, d.blocks))
  {
    KnownEdit(f, d);
    EditIsSaving(f, d.blocks, EditedBlocks(f, d.blocks));
  }

  lemma SavingIsSaving(content: string)
    requires Parsed(content).Ok? && !HasPrefix(content, BOM) && HookParsing.KnownHeaders(Split(content, '\n'))
    requires CleanFields(FieldsOf(content))
    ensures IsSaving(BlocksOf(content), EditedBlocks(FieldsOf(content), BlocksOf(content)))
  {
    AcceptedHasInterface(content);
    SavedSectionsRead(content);
    var f, d := FieldsOf(content), DocumentOf(Split(content, '\n'));
    assert f == ReadBlocks(d.blocks);
    EditsAreSavings(f, d);
  }

  lemma SameResult(bs: seq<Block>, es: seq<Block>, r: Result<Config, ParseError>, r': Result<Config, ParseError>)
    requires r.Ok? && Yields(bs, r) && Yields(es, r') && IsSaving(bs, es)
    ensures r'.Ok? && r'.value.iface == r.value.iface && r'.value.peers == r.value.peers <==>
            InterfaceStays(bs) && PeersStay(PeerPairs(bs))
  {
    InterfaceStaysWhen(bs, es);
    PeersStayWhen(PeerPairs(bs), PeerPairs(es));
  }

  /** Saving a text unchanged keeps the parsed configuration exactly when the
      text still fits, each list and hook reads the same from its last line in
      place of all its lines, and no key without a field has an empty value. */
  lemma SavingKeepsExactlyWhen(content: string)
    requires Parsed(content).Ok? && !HasPrefix(content, BOM) && HookParsing.KnownHeaders(Split(content, '\n'))
    requires AllKeysAllowed(FieldsOf(content)) && AllCaseDistinct(FieldsOf(content))
    ensures Parsed(Edited(content, FieldsOf(content))) == Parsed(content) <==>
            && |Edited(content, FieldsOf(content))| <= MAX_CONFIG_SIZE
            && InterfaceStays(BlocksOf(content)) && PeersStay(PeerPairs(BlocksOf(content)))
  {
    var f, bs := FieldsOf(content), BlocksOf(content);
    var r, r' := Parsed(content), Parsed(Edited(content, f));
    OwnFieldsAreClean(content);
    AcceptedYields(content);
    SavingIsSaving(content);
    if |Edited(content, f)| <= MAX_CONFIG_SIZE {
      EditedYields(content, f);
      SameResult(bs, EditedBlocks(f, bs), r, r');
      ConfigAccepted.ParsedIsPrintable(content);
      if r'.Ok? {
        ConfigAccepted.ParsedIsPrintable(Edited(content, f));
      }
    }
  }

  // ---------------------------------------------------------------------
  // Several lines of a list
  // ---------------------------------------------------------------------

  function Copies(items: seq<string>, n: nat): seq<string> { if n == 0 then [] else Copies(items, n - 1) + items }

  /** The items of several lines. */
  function ItemsOf(vs: seq<string>): seq<string> {
    if vs == [] then [] else ItemsOf(vs[..|vs| - 1]) + Items(vs[|vs| - 1])
  }

  lemma {:induction false} ListIsItems(vs: seq<string>)
    ensures ReadOfPeer(AllowedIPs, vs) == PeerList(ItemsOf(vs))
    decreases |vs|
  {
    if vs != [] {
      ListIsItems(vs[..|vs| - 1]);
    }
  }

  lemma {:induction false} ItemsOfCopies(v: string, n: nat)
    ensures ItemsOf(Rep(v, n)) == Copies(Items(v), n)
    decreases n
  {
    if n > 0 {
      RepMore(v, n);
      ItemsOfCopies(v, n - 1);
    }
  }

  lemma AllowedIs(ps: seq<Pair>)
    requires PeerOf(ps).Some?
    ensures PeerOf(ps).value.allowedIPs == ItemsOf(Allowed(ps))
  {
    PeerFieldIs(NO_PEER, ps, AllowedIPs);
    ListIsItems(Allowed(ps));
    assert GetPeer(PeerOf(ps).value, AllowedIPs) == PeerList(PeerOf(ps).value.allowedIPs);
  }

  lemma AllowedIsCopied(m: Fields, ps: seq<Pair>, ps': seq<Pair>, v: string)
    requires ValuesAreEdited(m, ps, ps') && PeerOf(ps').Some? && Managed(m, PeerName(AllowedIPs)) == Some(v) && v != ""
    ensures PeerOf(ps').value.allowedIPs == Copies(Items(v), LinesFor(ps, AllowedIPs))
  {
    PeerNamesLowered(AllowedIPs);
    AllowedIs(ps');
    ItemsOfCopies(v, LinesFor(ps, AllowedIPs));
  }

  /** A peer with several AllowedIPs lines: of the text the parser reads the items
      of all of them, of the edited text those of the model value once a line. */
  lemma SeveralLinesRepeat(content: string, f: TunnelFields, j: nat, v: string)
    requires Parsed(content).Ok? && !HasPrefix(content, BOM) && HookParsing.KnownHeaders(Split(content, '\n'))
    requires CleanFields(f) && AllNulFree(f) && Parsed(Edited(content, f)).Ok?
    requires j < |f.peers| && j < |PeerPairs(BlocksOf(content))|
    requires Managed(f.peers[j], PeerName(AllowedIPs)) == Some(v) && v != ""
    ensures var ps, c, c' := PeerPairs(BlocksOf(content))[j], Parsed(content).value, Parsed(Edited(content, f)).value;
            && j < |c.peers| && j < |c'.peers|
            && c.peers[j].allowedIPs == ItemsOf(Allowed(ps))
            && c'.peers[j].allowedIPs == Copies(Items(v), LinesFor(ps, AllowedIPs))
  {
    var bs := BlocksOf(content);
    var es := EditedBlocks(f, bs);
    AcceptedYields(content);
    EditedYields(content, f);
    PrivateKeyHasSection(bs);
    EditIsEdit(f, bs);
    PeersAre(f, bs, es);
    assert PeerIsEdit(f, j, PeerPairs(bs)[j], PeerPairs(es)[j]);
    AllowedIs(PeerPairs(bs)[j]);
    AllowedIsCopied(f.peers[j], PeerPairs(bs)[j], PeerPairs(es)[j], v);
  }

  // ---------------------------------------------------------------------
  // A list with a line for each item
  // ---------------------------------------------------------------------

  /** A line for each value. */
  function Assigned(key: string, vs: seq<string>): seq<string> {
    if vs == [] then [] else Assigned(key, vs[..|vs| - 1]) + [Assignment(key, vs[|vs| - 1])]
  }

  function KeySection(): Block { Block("[Interface]", Assigned("PrivateKey", ["k"])) }

  function ListSection(vs: seq<string>): Block { Block("[Peer]", Assigned("AllowedIPs", vs)) }

  /** A configuration whose peer has its addresses on a line each. */
  function Listed(vs: seq<string>): Document {
    Document([], [KeySection(), ListSection(vs)])
  }

  function ListedText(vs: seq<string>): string { Join(LinesOf(Listed(vs)), "\n") }

  predicate PlainKey(key: string) {
    CleanSpelling(key) && NoCommentSign(key) && KeyAllowed(key) && NUL !in key && '\n' !in key
  }

  predicate CleanValues(vs: seq<string>) { forall i :: 0 <= i < |vs| ==> CleanValue(vs[i]) }

  lemma KeysArePlain()
    ensures PlainKey("PrivateKey") && PlainKey("AllowedIPs")
  {
  }

  lemma HeadersAre()
    ensures KindOf("[Interface]") == InterfaceSection && KindOf("[Peer]") == PeerSection
    ensures IsHeader("[Interface]") && IsHeader("[Peer]")
  {
    TrimmedStays("[Interface]");
    TrimmedStays("[Peer]");
    assert Lower("[Interface]") == "[interface]" == Lower("[interface]");
    assert Lower("[Peer]") == "[peer]" == Lower("[peer]");
    assert "[Interface]"[..1] == "[" && "[Peer]"[..1] == "[";
  }

  /** The assignments `key = v` for each value. */
  predicate AssignsEach(ps: seq<Pair>, key: string, vs: seq<string>) {
    && ValuesOf(ps, Lower(key)) == vs && (forall j :: 0 <= j < |ps| ==> ps[j].0 == key)
    && LastOf(ps) == if vs == [] then map[] else map[key := vs[|vs| - 1]]
  }

  lemma AssignsOneMore(ps: seq<Pair>, key: string, vs: seq<string>, v: string)
    requires AssignsEach(ps, key, vs)
    ensures AssignsEach(ps + [(key, v)], key, vs + [v])
  {
    var qs := ps + [(key, v)];
    assert qs[..|qs| - 1] == ps;
    LastAppend(ps, [(key, v)]);
  }

  lemma OneMorePair(key: string, lines: seq<string>, v: string)
    requires PlainKey(key) && CleanValue(v)
    ensures PairsOf(lines + [Assignment(key, v)]) == PairsOf(lines) + [(key, v)]
  {
    AssignmentIsPair(key, v, "");
    PairsAppend(lines, [Assignment(key, v)]);
  }

  lemma {:induction false} AssignedPairs(key: string, vs: seq<string>)
    requires PlainKey(key) && CleanValues(vs)
    ensures AssignsEach(PairsOf(Assigned(key, vs)), key, vs)
    decreases |vs|
  {
    if vs != [] {
      var before, v := vs[..|vs| - 1], vs[|vs| - 1];
      AssignedPairs(key, before);
      OneMorePair(key, Assigned(key, before), v);
      AssignsOneMore(PairsOf(Assigned(key, before)), key, before, v);
      assert before + [v] == vs;
    }
  }

  lemma {:induction false} AssignedLines(key: string, vs: seq<string>)
    requires PlainKey(key) && CleanValues(vs)
    ensures Free(Assigned(key, vs), '\n') && LinesOk(Assigned(key, vs)) && NoHeaders(Assigned(key, vs))
    ensures |Assigned(key, vs)| == |vs|
    decreases |vs|
  {
    if vs != [] {
      AssignedLines(key, vs[..|vs| - 1]);
      NoNulInAssignment(key, vs[|vs| - 1]);
      AssignmentReads(key, vs[|vs| - 1]);
    }
  }

  /** Rewriting the lines of one key. */
  lemma {:induction false} AssignedRewrites(key: string, vs: seq<string>, v: string)
    requires PlainKey(key) && CleanValues(vs) && v != ""
    ensures RewriteBody(Some(map[key := v]), Assigned(key, vs)) == Assigned(key, Rep(v, |vs|))
    decreases |vs|
  {
    if vs != [] {
      var m, n := map[key := v], |vs| - 1;
      AssignedRewrites(key, vs[..n], v);
      AssignmentReads(key, vs[n]);
      ManagedIs(m, key, key);
      assert Assigned(key, vs)[..|Assigned(key, vs[..n])|] == Assigned(key, vs[..n]);
      RepMore(v, n + 1);
    }
  }

  lemma NothingAdded(key: string, v: string, lines: seq<string>)
    requires PlainKey(key) && ValuesOf(PairsOf(lines), Lower(key)) != []
    ensures Added(map[key := v], lines) == []
  {
    PresentExactly(key, lines);
    assert Missing(map[key := v], Present(lines)) == {};
    if Ascending({}) != [] {
      HasMember(Ascending({}));
    }
  }

  lemma HeaderAddsNoPair(header: string, body: seq<string>)
    requires KindOf(header) != OtherSection
    ensures PairsOf([header] + body) == PairsOf(body)
  {
    HeaderHasNoKey(header);
    PairsAppend([header], body);
    OnePair(header, "");
    assert [] + PairsOf(body) == PairsOf(body);
  }

  lemma AssignedLacksNothing(header: string, key: string, vs: seq<string>, v: string)
    requires PlainKey(key) && CleanValues(vs) && vs != [] && KindOf(header) != OtherSection
    ensures Added(map[key := v], [header] + Assigned(key, vs)) == []
  {
    AssignedPairs(key, vs);
    HeaderAddsNoPair(header, Assigned(key, vs));
    NothingAdded(key, v, [header] + Assigned(key, vs));
  }

  lemma OnlyRewritten(m: Fields, b: Block, body: seq<string>)
    requires RewriteBody(Some(m), b.body) == body && Added(m, [b.header] + body) == []
    ensures EditedBlock(Some(m), b) == Block(b.header, body)
  {
    assert body + [] == body;
  }

  lemma AssignedIsEdited(header: string, key: string, vs: seq<string>, v: string)
    requires PlainKey(key) && CleanValues(vs) && CleanValue(v) && v != "" && vs != [] && KindOf(header) != OtherSection
    ensures EditedBlock(Some(map[key := v]), Block(header, Assigned(key, vs))) == Block(header, Assigned(key, Rep(v, |vs|)))
  {
    var body := Assigned(key, Rep(v, |vs|));
    AssignedRewrites(key, vs, v);
    RepIsClean(v, |vs|);
    AssignedLacksNothing(header, key, Rep(v, |vs|), v);
    OnlyRewritten(map[key := v], Block(header, Assigned(key, vs)), body);
  }

  lemma {:induction false} RepIsClean(v: string, n: nat)
    requires CleanValue(v)
    ensures CleanValues(Rep(v, n))
    decreases n
  {
    if n > 0 {
      RepIsClean(v, n - 1);
    }
  }

  predicate TwoSections(a: Block, b: Block) { KindOf(a.header) == InterfaceSection && KindOf(b.header) == PeerSection }

  lemma TwoSectionsAre(a: Block, b: Block)
    requires TwoSections(a, b)
    ensures InterfacePairs([a, b]) == PairsOf(a.body) && PeerPairs([a, b]) == [PairsOf(b.body)]
  {
    var none: seq<Block> := [];
    OneMoreSection(none, a);
    OneMoreSection([a], b);
    assert none + [a] == [a] && [a] + [b] == [a, b];
    assert InterfacePairs(none) == [] && PeerPairs(none) == [];
    assert [] + PairsOf(a.body) == PairsOf(a.body) && [] + [PairsOf(b.body)] == [PairsOf(b.body)];
  }

  lemma TwoSectionsLines(a: Block, b: Block)
    ensures LinesOf(Document([], [a, b])) == BlockLines(a) + BlockLines(b)
  {
    var none: seq<Block> := [];
    assert [a, b][..1] == [a] && [a][..0] == none;
    assert BlocksLines(none) == [];
    assert [] + BlockLines(a) == BlockLines(a);
    assert BlocksLines([a]) == BlockLines(a);
  }

  lemma TwoSectionsEdited(f: TunnelFields, a: Block, b: Block)
    requires TwoSections(a, b) && |f.peers| == 1
    ensures EditedBlocks(f, [a, b]) == [EditedBlock(Some(f.iface), a), EditedBlock(Some(f.peers[0]), b)]
  {
    var none: seq<Block> := [];
    EditedMore(f, none, a);
    EditedMore(f, [a], b);
    assert none + [a] == [a] && [a] + [b] == [a, b] && [a][..0] == none;
    assert EditedBlocks(f, none) == [] && PeerCount(none) == 0 && PeerCount([a]) == 0;
  }

  /** `text` has these two sections and no more. */
  ghost predicate IsTwoSections(text: string, a: Block, b: Block) {
    && TwoSections(a, b) && DocumentOf(Split(text, '\n')) == Document([], [a, b])
    && KnownBlocks([a, b]) && !HasPrefix(text, BOM)
  }

  lemma DocumentIsAccepted(text: string, bs: seq<Block>)
    requires DocumentOf(Split(text, '\n')) == Document([], bs) && KnownBlocks(bs)
    requires |text| <= MAX_CONFIG_SIZE && !HasPrefix(text, BOM)
    requires BodiesOk(bs) && InterfaceIs(InterfacePairs(bs)) && PeersFold(PeerPairs(bs))
    ensures Parsed(text).Ok? && Parsed(text).value.peers == PeersOf(PeerPairs(bs))
  {
    TextIsDocument(text);
    NoPreamble();
  }

  lemma SectionsFold(bs: seq<Block>, ps: seq<Pair>, qs: seq<Pair>)
    requires InterfacePairs(bs) == ps && PeerPairs(bs) == [qs] && InterfaceIs(ps) && PeerOf(qs).Some?
    ensures InterfaceIs(InterfacePairs(bs)) && PeersFold(PeerPairs(bs)) && PeersOf(PeerPairs(bs)) == [PeerOf(qs).value]
  {
  }

  lemma TwoBodies(a: Block, b: Block)
    requires LinesOk(a.body) && LinesOk(b.body)
    ensures BodiesOk([a, b])
  {
  }

  lemma TwoSectionsFold(a: Block, b: Block)
    requires TwoSections(a, b) && InterfaceIs(PairsOf(a.body)) && PeerOf(PairsOf(b.body)).Some?
    ensures InterfaceIs(InterfacePairs([a, b])) && PeersFold(PeerPairs([a, b]))
    ensures PeersOf(PeerPairs([a, b])) == [PeerOf(PairsOf(b.body)).value]
  {
    TwoSectionsAre(a, b);
    SectionsFold([a, b], PairsOf(a.body), PairsOf(b.body));
  }

  lemma TwoSectionsParse(text: string, a: Block, b: Block)
    requires IsTwoSections(text, a, b) && |text| <= MAX_CONFIG_SIZE && LinesOk(a.body) && LinesOk(b.body)
    requires InterfaceIs(PairsOf(a.body)) && PeerOf(PairsOf(b.body)).Some?
    ensures Parsed(text).Ok? && Parsed(text).value.peers == [PeerOf(PairsOf(b.body)).value]
  {
    TwoSectionsFold(a, b);
    TwoBodies(a, b);
    DocumentIsAccepted(text, [a, b]);
  }

  lemma NoPreamble()
    ensures LinesOk([]) && PairsOf([]) == []
  {
  }

  lemma TwoSectionsFields(text: string, a: Block, b: Block)
    requires IsTwoSections(text, a, b)
    ensures FieldsOf(text) == TunnelFields(LastOf(PairsOf(a.body)), [LastOf(PairsOf(b.body))])
  {
    TwoSectionsAre(a, b);
    BlocksReadLast([a, b]);
  }

  lemma ListedIsWellFormed(vs: seq<string>)
    requires CleanValues(vs)
    ensures WellFormed(Listed(vs)) && KnownBlocks(Listed(vs).blocks)
    ensures LinesOk(KeySection().body) && LinesOk(ListSection(vs).body)
    ensures TwoSections(KeySection(), ListSection(vs))
  {
    KeysArePlain();
    HeadersAre();
    AssignedLines("PrivateKey", ["k"]);
    AssignedLines("AllowedIPs", vs);
  }

  lemma ListedLines(vs: seq<string>)
    requires CleanValues(vs)
    ensures LinesOf(Listed(vs)) == BlockLines(KeySection()) + BlockLines(ListSection(vs)) && Free(LinesOf(Listed(vs)), '\n')
  {
    KeysArePlain();
    AssignedLines("PrivateKey", ["k"]);
    AssignedLines("AllowedIPs", vs);
    TwoSectionsLines(KeySection(), ListSection(vs));
  }

  lemma ListedIsDocument(vs: seq<string>)
    requires CleanValues(vs)
    ensures IsTwoSections(ListedText(vs), KeySection(), ListSection(vs))
  {
    ListedIsWellFormed(vs);
    ListedLines(vs);
    SplitOfJoin(LinesOf(Listed(vs)), '\n');
    DocumentOfLines(Listed(vs));
    HookParsing.BomIsInFirstLine(LinesOf(Listed(vs)));
  }

  lemma {:induction false} ItemsOfItems(vs: seq<string>)
    requires CleanItems(vs)
    ensures ItemsOf(vs) == vs && ItemCount(vs) == |vs|
    decreases |vs|
  {
    if vs != [] {
      ItemsOfItems(vs[..|vs| - 1]);
      SpacedItems([vs[|vs| - 1]]);
      InitAndLast(vs);
    }
  }

  lemma OneKeyInterface(ps: seq<Pair>)
    requires ps == [("PrivateKey", "k")]
    ensures InterfaceIs(ps)
  {
    ZeroValues();
    FieldNames(AsText(PrivateKey));
    assert ps[..0] == [];
  }

  predicate InterfaceIs(ps: seq<Pair>) {
    var i := FoldInterface(NO_INTERFACE, ps); i.Some? && HasPrivateKey(i.value)
  }

  lemma AddressesAreNoKeepalive(ps: seq<Pair>)
    requires forall j :: 0 <= j < |ps| ==> ps[j].0 == "AllowedIPs"
    ensures PeerPairsParse(ps)
  {
    PeerNamesLowered(AllowedIPs);
    PeerNamesLowered(PersistentKeepalive);
    assert Lower("AllowedIPs") == "allowedips";
    assert LowerPeerName(PersistentKeepalive) == "persistentkeepalive";
  }

  lemma ListedPeer(ps: seq<Pair>, vs: seq<string>)
    requires AssignsEach(ps, "AllowedIPs", vs) && CleanItems(vs) && |vs| <= MAX_ALLOWED_IPS
    ensures PeerOf(ps).Some? && PeerOf(ps).value.allowedIPs == vs
  {
    assert Allowed(ps) == vs by {
      PeerNamesLowered(AllowedIPs);
    }
    AddressesAreNoKeepalive(ps);
    ItemsOfItems(vs);
    PeerFoldsWhen(NO_PEER, ps);
    AllowedIs(ps);
  }

  lemma ListedInterface()
    ensures var ps := PairsOf(Assigned("PrivateKey", ["k"])); InterfaceIs(ps) && LastOf(ps) == map["PrivateKey" := "k"]
  {
    KeysArePlain();
    AssignedPairs("PrivateKey", ["k"]);
    AssignmentIsPair("PrivateKey", "k", "");
    var none: seq<string> := [];
    assert ["k"][..0] == none && Assigned("PrivateKey", none) == [];
    assert Assigned("PrivateKey", ["k"]) == [Assignment("PrivateKey", "k")];
    OneKeyInterface([("PrivateKey", "k")]);
  }

  /** Such a text is accepted, and its peer has the addresses. */
  lemma ListedParses(vs: seq<string>)
    requires CleanItems(vs) && |vs| <= MAX_ALLOWED_IPS && |ListedText(vs)| <= MAX_CONFIG_SIZE
    ensures Parsed(ListedText(vs)).Ok? && |Parsed(ListedText(vs)).value.peers| == 1
    ensures Parsed(ListedText(vs)).value.peers[0].allowedIPs == vs
  {
    ListedIsDocument(vs);
    ListedIsWellFormed(vs);
    ListedInterface();
    KeysArePlain();
    AssignedPairs("AllowedIPs", vs);
    ListedPeer(PairsOf(ListSection(vs).body), vs);
    TwoSectionsParse(ListedText(vs), KeySection(), ListSection(vs));
  }

  lemma ListedFields(vs: seq<string>)
    requires CleanItems(vs) && vs != []
    ensures FieldsOf(ListedText(vs)) == TunnelFields(map["PrivateKey" := "k"], [map["AllowedIPs" := vs[|vs| - 1]]])
  {
    ListedIsDocument(vs);
    ListedInterface();
    KeysArePlain();
    AssignedPairs("AllowedIPs", vs);
    TwoSectionsFields(ListedText(vs), KeySection(), ListSection(vs));
  }

  lemma KeySectionStays()
    ensures EditedBlock(Some(map["PrivateKey" := "k"]), KeySection()) == KeySection()
  {
    KeysArePlain();
    HeadersAre();
    AssignedIsEdited("[Interface]", "PrivateKey", ["k"], "k");
    RepMore("k", 1);
    assert Rep("k", 0) == [] && Rep("k", 1) == ["k"];
  }

  lemma ListSectionRepeats(vs: seq<string>, v: string)
    requires CleanItems(vs) && vs != [] && CleanItem(v)
    ensures EditedBlock(Some(map["AllowedIPs" := v]), ListSection(vs)) == ListSection(Rep(v, |vs|))
  {
    KeysArePlain();
    HeadersAre();
    AssignedIsEdited("[Peer]", "AllowedIPs", vs, v);
  }

  lemma ListedEdits(vs: seq<string>)
    requires CleanItems(vs) && vs != []
    ensures Edited(ListedText(vs), FieldsOf(ListedText(vs))) == ListedText(Rep(vs[|vs| - 1], |vs|))
  {
    var v := vs[|vs| - 1];
    ListedFields(vs);
    ListedIsDocument(vs);
    KeySectionStays();
    ListSectionRepeats(vs, v);
    TwoSectionsEdited(FieldsOf(ListedText(vs)), KeySection(), ListSection(vs));
  }

  lemma {:induction false} RepIsItems(v: string, n: nat)
    requires CleanItem(v)
    ensures CleanItems(Rep(v, n))
    decreases n
  {
    if n > 0 {
      RepIsItems(v, n - 1);
    }
  }

  /** Saving a peer that has a line for each address loses all but the last of
      them, and repeats that one. */
  lemma SavingRepeatsTheLast(vs: seq<string>)
    requires CleanItems(vs) && vs != [] && |vs| <= MAX_ALLOWED_IPS
    requires |ListedText(vs)| <= MAX_CONFIG_SIZE && |ListedText(Rep(vs[|vs| - 1], |vs|))| <= MAX_CONFIG_SIZE
    ensures var text := ListedText(vs); var saved := Edited(text, FieldsOf(text));
            && Parsed(text).Ok? && |Parsed(text).value.peers| == 1 && Parsed(text).value.peers[0].allowedIPs == vs
            && Parsed(saved).Ok? && |Parsed(saved).value.peers| == 1
            && Parsed(saved).value.peers[0].allowedIPs == Rep(vs[|vs| - 1], |vs|)
  {
    ListedParses(vs);
    ListedEdits(vs);
    RepIsItems(vs[|vs| - 1], |vs|);
    ListedParses(Rep(vs[|vs| - 1], |vs|));
  }

  lemma {:induction false} AssignedSize(key: string, vs: seq<string>, n: nat)
    requires forall i :: 0 <= i < |vs| ==> |vs[i]| == n
    ensures Total(Assigned(key, vs)) == |vs| * (|key| + 3 + n) && |Assigned(key, vs)| == |vs|
    decreases |vs|
  {
    if vs != [] {
      AssignedSize(key, vs[..|vs| - 1], n);
      TotalAppend(Assigned(key, vs[..|vs| - 1]), [Assignment(key, vs[|vs| - 1])]);
      assert [Assignment(key, vs[|vs| - 1])][1..] == [];
      assert |vs| * (|key| + 3 + n) == (|vs| - 1) * (|key| + 3 + n) + (|key| + 3 + n);
    }
  }

  lemma TwoLinesFit(a: string, b: string)
    requires |a| == |b| == 11 && CleanItem(a) && CleanItem(b)
    ensures |ListedText([a, b])| <= MAX_CONFIG_SIZE
  {
    var lines := LinesOf(Listed([a, b]));
    ListedLines([a, b]);
    AssignedSize("PrivateKey", ["k"], 1);
    AssignedSize("AllowedIPs", [a, b], 11);
    TotalAppend(["[Interface]"] + Assigned("PrivateKey", ["k"]), ["[Peer]"] + Assigned("AllowedIPs", [a, b]));
    TotalAppend(["[Interface]"], Assigned("PrivateKey", ["k"]));
    TotalAppend(["[Peer]"], Assigned("AllowedIPs", [a, b]));
    assert ["[Interface]"][1..] == [] && ["[Peer]"][1..] == [];
    JoinLength(lines, "\n");
  }

  /** One text: two addresses on two lines; saving it as it was read loses the first. */
  lemma TwoLinesLoseTheFirst() returns (text: string)
    ensures Parsed(text).Ok? && |Parsed(text).value.peers| == 1
    ensures Parsed(text).value.peers[0].allowedIPs == ["10.0.0.1/32", "10.0.0.2/32"]
    ensures var saved := Parsed(Edited(text, FieldsOf(text)));
            saved.Ok? && |saved.value.peers| == 1 && saved.value.peers[0].allowedIPs == ["10.0.0.2/32", "10.0.0.2/32"]
  {
    var a, b := "10.0.0.1/32", "10.0.0.2/32";
    assert CleanItem(a) && CleanItem(b) && |a| == |b| == 11;
    text := ListedText([a, b]);
    TwoLinesFit(a, b);
    TwoLinesFit(b, b);
    RepMore(b, 2);
    RepMore(b, 1);
    assert Rep(b, 0) == [] && Rep(b, 2) == [b, b];
    SavingRepeatsTheLast([a, b]);
  }
}
