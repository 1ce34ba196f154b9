/** The field editor and the parser agree: exactly when editing fields in the
    text sets them in the parsed configuration. */
module FieldSetting {
  import opened Wrappers
  import opened Text
  import opened WireGuardConfig
  import opened ConfigParser
  import opened FieldEditor
  import opened FieldEditorLaws
  import opened FieldReading
  import opened SectionParsing
  import opened SectionValues
  import opened FieldParsing
  import opened FieldAgreement
  import HookParsing

  ghost predicate SetsPeers(ps: seq<Peer>, ps': seq<Peer>, f: TunnelFields) {
    && |ps'| == |ps|
    && forall j :: 0 <= j < |ps| ==> if j < |f.peers| then SetsPeer(ps[j], ps'[j], f.peers[j]) else ps'[j] == ps[j]
  }

  /** The configuration with each key of the model set, and all else as it was. */
  ghost predicate SetsConfig(c: Config, c': Config, f: TunnelFields) {
    SetsInterface(c.iface, c'.iface, f.iface) && SetsPeers(c.peers, c'.peers, f)
  }

  ghost predicate PeersKeysAreSet(f: TunnelFields, pss: seq<seq<Pair>>) {
    forall j :: 0 <= j < |pss| && j < |f.peers| ==> PeerKeysAreSet(f.peers[j], pss[j])
  }

  /** Every value is one that the parser takes, the private key is kept, and no
      list or command is assigned on several lines. */
  ghost predicate AllKeysAreSet(f: TunnelFields, bs: seq<Block>) {
    InterfaceKeysAreSet(f.iface, bs) && PeersKeysAreSet(f, PeerPairs(bs))
  }

  // ---------------------------------------------------------------------
  // Sections
  // ---------------------------------------------------------------------

  lemma {:induction false} NoInterfaceNoPairs(bs: seq<Block>)
    requires !HasInterface(bs)
    ensures InterfacePairs(bs) == []
    decreases |bs|
  {
    if bs != [] {
      var before := bs[..|bs| - 1];
      if HasInterface(before) {
        HasInterfaceStays(before, bs[|bs| - 1]);
        InitAndLast(bs);
      }
      NoInterfaceNoPairs(before);
      assert KindOf(bs[|bs| - 1].header) != InterfaceSection;
    }
  }

  lemma PrivateKeyHasSection(bs: seq<Block>)
    requires InterfaceOf(bs).Some? && HasPrivateKey(InterfaceOf(bs).value)
    ensures HasInterface(bs)
  {
    ZeroValues();
    if !HasInterface(bs) {
      NoInterfaceNoPairs(bs);
    }
  }

  /** The sections of an edited document, against those of the original. */
  ghost predicate IsEdit(f: TunnelFields, bs: seq<Block>, es: seq<Block>) {
    && KnownBlocks(bs) && KnownBlocks(es) && HasInterface(bs)
    && InterfaceEdited(f.iface, bs, es)
    && PeersEdited(f, PeerPairs(bs), PeerPairs(es))
    && FieldsAgree(f, ReadBlocks(bs), ReadBlocks(es), true)
  }

  lemma InterfaceIsSetWhen(f: TunnelFields, bs: seq<Block>, es: seq<Block>)
    requires IsEdit(f, bs, es) && InterfaceOf(bs).Some? && HasPrivateKey(InterfaceOf(bs).value)
    ensures InterfaceOf(es).Some? && HasPrivateKey(InterfaceOf(es).value) && SetsInterface(InterfaceOf(bs).value, InterfaceOf(es).value, f.iface)
            <==> InterfaceKeysAreSet(f.iface, bs)
  {
    InterfaceIsSet(f.iface, bs, es);
    if InterfaceOf(es).Some? {
      BlocksReadLast(bs);
      BlocksReadLast(es);
      ExtraIs(InterfacePairs(bs));
      ExtraIs(InterfacePairs(es));
      ExtraIsSetWhenRead(f.iface, ReadBlocks(bs).iface, ReadBlocks(es).iface, false);
    }
  }

  lemma PeerIsSetWhen(m: Fields, ps: seq<Pair>, ps': seq<Pair>)
    requires ValuesAreEdited(m, ps, ps') && PeerOf(ps).Some? && Agrees(m, LastOf(ps), LastOf(ps')) && Covers(m, LastOf(ps'))
    ensures PeerOf(ps').Some? && SetsPeer(PeerOf(ps).value, PeerOf(ps').value, m) <==> PeerKeysAreSet(m, ps)
  {
    PeerIsSet(m, ps, ps');
    if PeerOf(ps').Some? {
      PeerExtraIs(ps);
      PeerExtraIs(ps');
      ExtraIsSetWhenRead(m, LastOf(ps), LastOf(ps'), true);
    }
  }

  /** A peer before and after an edit. */
  ghost predicate PeerIsEdit(f: TunnelFields, j: nat, ps: seq<Pair>, ps': seq<Pair>) {
    if j < |f.peers| then
      ValuesAreEdited(f.peers[j], ps, ps') && Agrees(f.peers[j], LastOf(ps), LastOf(ps')) && Covers(f.peers[j], LastOf(ps'))
    else ps' == ps
  }

  ghost predicate PeersAreEdits(f: TunnelFields, pss: seq<seq<Pair>>, pss': seq<seq<Pair>>) {
    |pss'| == |pss| && forall j :: 0 <= j < |pss| ==> PeerIsEdit(f, j, pss[j], pss'[j])
  }

  lemma PeersAre(f: TunnelFields, bs: seq<Block>, es: seq<Block>)
    requires IsEdit(f, bs, es)
    ensures PeersAreEdits(f, PeerPairs(bs), PeerPairs(es))
  {
    BlocksReadLast(bs);
    BlocksReadLast(es);
    forall j | 0 <= j < |PeerPairs(bs)|
      ensures PeerIsEdit(f, j, PeerPairs(bs)[j], PeerPairs(es)[j])
    {
      assert PeerEdited(f, j, PeerPairs(bs)[j], PeerPairs(es)[j]);
      assert PeerAgrees(f, j, ReadBlocks(bs).peers[j], ReadBlocks(es).peers[j]);
    }
  }

  lemma PeersAreSetWhen(f: TunnelFields, pss: seq<seq<Pair>>, pss': seq<seq<Pair>>)
    requires PeersAreEdits(f, pss, pss') && PeersFold(pss)
    ensures PeersFold(pss') && SetsPeers(PeersOf(pss), PeersOf(pss'), f) <==> PeersKeysAreSet(f, pss)
  {
    forall j | 0 <= j < |pss| && j < |f.peers|
      ensures PeerOf(pss'[j]).Some? && SetsPeer(PeerOf(pss[j]).value, PeerOf(pss'[j]).value, f.peers[j]) <==>
              PeerKeysAreSet(f.peers[j], pss[j])
    {
      assert PeerIsEdit(f, j, pss[j], pss'[j]);
      PeerIsSetWhen(f.peers[j], pss[j], pss'[j]);
    }
    forall j | 0 <= j < |pss| && j >= |f.peers|
      ensures pss'[j] == pss[j]
    {
      assert PeerIsEdit(f, j, pss[j], pss'[j]);
    }
  }

  // ---------------------------------------------------------------------
  // Texts
  // ---------------------------------------------------------------------

  lemma EditIsEdit(f: TunnelFields, bs: seq<Block>)
    requires CleanFields(f) && KnownBlocks(bs) && KnownBlocks(EditedBlocks(f, bs)) && HasInterface(bs)
    ensures IsEdit(f, bs, EditedBlocks(f, bs))
  {
    forall name ensures ValuesEdited(f.iface, name, bs, EditedBlocks(f, bs)) {
      InterfaceValues(f, bs, name);
    }
    PeerValues(f, bs);
    BlocksReadAfterEdit(f, bs);
  }

  /** What the parser makes of the document of a text. */
  lemma TextIsDocument(text: string)
    requires |text| <= MAX_CONFIG_SIZE && !HasPrefix(text, BOM) && KnownBlocks(DocumentOf(Split(text, '\n')).blocks)
    ensures var d := DocumentOf(Split(text, '\n')); var i := InterfaceOf(d.blocks);
            && (Parsed(text).Ok? <==> LinesOk(d.preamble) && PairsOf(d.preamble) == [] && BodiesOk(d.blocks)
                                      && i.Some? && PeersFold(PeerPairs(d.blocks)) && HasPrivateKey(i.value))
            && (Parsed(text).Ok? ==> Parsed(text).value.iface == i.value && Parsed(text).value.peers == PeersOf(PeerPairs(d.blocks)))
  {
    var d := DocumentOf(Split(text, '\n'));
    DocumentHasLines(Split(text, '\n'));
    DocumentParses(d);
    ScanIs(d.blocks);
    TextParses(text);
  }

  lemma EditKeepsBom(content: string, f: TunnelFields)
    requires Writable(f) && !HasPrefix(content, BOM)
    ensures !HasPrefix(Edited(content, f), BOM)
  {
    var d := DocumentOf(Split(content, '\n'));
    var e := EditedDocument(f, d);
    DocumentHasLines(Split(content, '\n'));
    SplitParts(content, '\n');
    JoinOfSplit(content, '\n');
    NoLineLess(f, d);
    SameFirstLine(f, d);
    HookParsing.BomIsInFirstLine(LinesOf(d));
    HookParsing.BomIsInFirstLine(LinesOf(e));
  }

  lemma SameFirstLine(f: TunnelFields, d: Document)
    requires LinesOf(d) != []
    ensures LinesOf(EditedDocument(f, d)) != [] && LinesOf(EditedDocument(f, d))[0] == LinesOf(d)[0]
  {
    NoLineLess(f, d);
    if d.preamble == [] {
      EditKeepsHeaders(f, d.blocks);
      FirstIsHeader(d.blocks);
      FirstIsHeader(EditedBlocks(f, d.blocks));
    }
  }

  lemma {:induction false} FirstIsHeader(bs: seq<Block>)
    requires bs != []
    ensures BlocksLines(bs) != [] && BlocksLines(bs)[0] == bs[0].header
    decreases |bs|
  {
    if |bs| > 1 {
      FirstIsHeader(bs[..|bs| - 1]);
    } else {
      assert bs[..0] == [];
    }
  }

  /** What the parser makes of some sections. */
  ghost predicate Yields(bs: seq<Block>, r: Result<Config, ParseError>) {
    var i := InterfaceOf(bs);
    && (r.Ok? <==> i.Some? && PeersFold(PeerPairs(bs)) && HasPrivateKey(i.value))
    && (r.Ok? ==> r.value.iface == i.value && r.value.peers == PeersOf(PeerPairs(bs)))
  }

  ghost predicate Acceptable(d: Document) {
    WellFormed(d) && KnownBlocks(d.blocks) && LinesOk(d.preamble) && PairsOf(d.preamble) == [] && BodiesOk(d.blocks)
  }

  lemma AcceptedYields(content: string)
    requires Parsed(content).Ok? && !HasPrefix(content, BOM) && HookParsing.KnownHeaders(Split(content, '\n'))
    ensures var d := DocumentOf(Split(content, '\n')); Acceptable(d) && Yields(d.blocks, Parsed(content))
  {
    DocumentHasLines(Split(content, '\n'));
    DocumentIsKnown(DocumentOf(Split(content, '\n')));
    TextIsDocument(content);
  }

  lemma EditedYields(content: string, f: TunnelFields)
    requires !HasPrefix(content, BOM) && Acceptable(DocumentOf(Split(content, '\n')))
    requires CleanFields(f) && AllNulFree(f) && |Edited(content, f)| <= MAX_CONFIG_SIZE
    ensures var es := EditedBlocks(f, DocumentOf(Split(content, '\n')).blocks); KnownBlocks(es) && Yields(es, Parsed(Edited(content, f)))
  {
    var d := DocumentOf(Split(content, '\n'));
    DocumentOfEdited(content, f);
    EditIsAcceptable(f, d);
    EditKeepsBom(content, f);
    TextIsDocument(Edited(content, f));
  }

  lemma EditIsAcceptable(f: TunnelFields, d: Document)
    requires Acceptable(d) && CleanFields(f) && AllNulFree(f)
    ensures Acceptable(EditedDocument(f, d))
  {
    EditIsKnown(f, d);
    EditedBodiesOk(f, d.blocks);
  }

  lemma YieldsSet(f: TunnelFields, bs: seq<Block>, es: seq<Block>, r: Result<Config, ParseError>, r': Result<Config, ParseError>)
    requires IsEdit(f, bs, es) && r.Ok? && Yields(bs, r) && Yields(es, r')
    ensures r'.Ok? && SetsConfig(r.value, r'.value, f) <==> AllKeysAreSet(f, bs)
  {
    InterfaceIsSetWhen(f, bs, es);
    PeersAre(f, bs, es);
    PeersAreSetWhen(f, PeerPairs(bs), PeerPairs(es));
  }

  lemma CleanEditAgrees(content: string, f: TunnelFields)
    requires Parsed(content).Ok? && !HasPrefix(content, BOM) && HookParsing.KnownHeaders(Split(content, '\n'))
    requires CleanFields(f) && AllNulFree(f) && |Edited(content, f)| <= MAX_CONFIG_SIZE
    ensures Parsed(Edited(content, f)).Ok? && SetsConfig(Parsed(content).value, Parsed(Edited(content, f)).value, f) <==>
            AllKeysAreSet(f, BlocksOf(content))
  {
    var bs := BlocksOf(content);
    AcceptedYields(content);
    EditedYields(content, f);
    PrivateKeyHasSection(bs);
    EditIsEdit(f, bs);
    YieldsSet(f, bs, EditedBlocks(f, bs), Parsed(content), Parsed(Edited(content, f)));
  }

  // ---------------------------------------------------------------------
  // Any model that the editor takes
  // ---------------------------------------------------------------------

  function BlocksOf(content: string): seq<Block> { DocumentOf(Split(content, '\n')).blocks }

  predicate LacksNul(g: Fields) { forall key :: key in g ==> NUL !in key && NUL !in g[key] }

  lemma LineReadsLack(g: Fields, line: string)
    requires LacksNul(g) && NUL !in line
    ensures LacksNul(ReadLine(g, line))
  {
    if !IsComment(line) && HasKey(line) {
      var t := Trim(line);
      TrimIsPart(line);
      TrimIsPart(t[..IndexOf(t, '=')]);
      TrimIsPart(t[IndexOf(t, '=') + 1..]);
    }
  }

  lemma {:induction false} BodyReadsLack(g: Fields, body: seq<string>)
    requires LacksNul(g) && Free(body, NUL)
    ensures LacksNul(ReadBody(g, body))
    decreases |body|
  {
    if body != [] {
      BodyReadsLack(g, body[..|body| - 1]);
      LineReadsLack(ReadBody(g, body[..|body| - 1]), body[|body| - 1]);
    }
  }

  ghost predicate AllLackNul(f: TunnelFields) {
    LacksNul(f.iface) && forall j :: 0 <= j < |f.peers| ==> LacksNul(f.peers[j])
  }

  lemma {:induction false} BlocksReadLack(bs: seq<Block>)
    requires forall j :: 0 <= j < |bs| ==> Free(bs[j].body, NUL)
    ensures AllLackNul(ReadBlocks(bs))
    decreases |bs|
  {
    if bs != [] {
      var before, b := bs[..|bs| - 1], bs[|bs| - 1];
      BlocksReadLack(before);
      BodyReadsLack(ReadBlocks(before).iface, b.body);
      BodyReadsLack(map[], b.body);
    }
  }

  /** A text without a NUL reads without one. */
  lemma FieldsLackNul(content: string)
    requires NUL !in content
    ensures AllLackNul(FieldsOf(content))
  {
    var d := DocumentOf(Split(content, '\n'));
    DocumentHasLines(Split(content, '\n'));
    SplitParts(content, '\n');
    BodiesAreFree(d, NUL);
    BlocksReadLack(d.blocks);
  }

  /** The values of the sections that a document has. */
  ghost predicate AppliedNulFree(f: TunnelFields, bs: seq<Block>) {
    && (HasInterface(bs) ==> NulFree(f.iface))
    && forall j :: 0 <= j < |f.peers| && j < PeerCount(bs) ==> NulFree(f.peers[j])
  }

  lemma WhatIsReadIsNulFree(m: Fields, before: Fields, after: Fields)
    requires CaseDistinct(m) && Agrees(m, before, after) && Covers(m, after) && LacksNul(after)
    ensures NulFree(m)
  {
    forall k | Wanted(m, k)
      ensures NUL !in k && NUL !in m[k]
    {
      assert IsRead(after, k);
      var key :| key in after && EqualFold(k, key);
      ManagedIs(m, k, key);
      assert KeyAgrees(m, before, after, key);
      SameNul(k, key);
    }
  }

  lemma SameNul(k: string, key: string)
    requires EqualFold(k, key) && NUL !in key
    ensures NUL !in k
  {
    forall i | 0 <= i < |k|
      ensures k[i] != NUL
    {
      assert LowerChar(k[i]) == Lower(k)[i] == Lower(key)[i] == LowerChar(key[i]);
    }
  }

  lemma ReadsBackIsNulFree(content: string, f: TunnelFields)
    requires AllCaseDistinct(f) && ReadsBack(content, f) && NUL !in Edited(content, f)
    ensures AppliedNulFree(f, BlocksOf(content))
  {
    var before, after := FieldsOf(content), FieldsOf(Edited(content, f));
    FieldsLackNul(Edited(content, f));
    PeersAreCounted(BlocksOf(content));
    if HasInterface(BlocksOf(content)) {
      WhatIsReadIsNulFree(f.iface, before.iface, after.iface);
    }
    forall j | 0 <= j < |f.peers| && j < PeerCount(BlocksOf(content))
      ensures NulFree(f.peers[j])
    {
      assert PeerAgrees(f, j, before.peers[j], after.peers[j]);
      WhatIsReadIsNulFree(f.peers[j], before.peers[j], after.peers[j]);
    }
  }

  lemma CoveredIsNulFree(f: TunnelFields, bs: seq<Block>)
    requires AppliedNulFree(f, bs)
    ensures AllNulFree(Covered(f, bs))
  {
  }

  /** The models that are not applied make no difference. */
  lemma CoveredSetsAlike(f: TunnelFields, bs: seq<Block>, c: Config, c': Config)
    requires HasInterface(bs) && |c.peers| == PeerCount(bs)
    ensures SetsConfig(c, c', f) <==> SetsConfig(c, c', Covered(f, bs))
  {
  }

  lemma CoveredKeysAlike(f: TunnelFields, bs: seq<Block>)
    requires HasInterface(bs) && |PeerPairs(bs)| == PeerCount(bs)
    ensures AllKeysAreSet(f, bs) <==> AllKeysAreSet(Covered(f, bs), bs)
  {
  }

  lemma AppliedEditAgrees(content: string, f: TunnelFields)
    requires Parsed(content).Ok? && !HasPrefix(content, BOM) && HookParsing.KnownHeaders(Split(content, '\n'))
    requires AllKeysAllowed(f) && AllCaseDistinct(f) && |Edited(content, f)| <= MAX_CONFIG_SIZE
    requires AppliedSurvive(f, BlocksOf(content)) && AppliedNulFree(f, BlocksOf(content))
    ensures Parsed(Edited(content, f)).Ok? && SetsConfig(Parsed(content).value, Parsed(Edited(content, f)).value, f) <==>
            AllKeysAreSet(f, BlocksOf(content))
  {
    var bs := BlocksOf(content);
    var g := Covered(f, bs);
    AcceptedYields(content);
    PrivateKeyHasSection(bs);
    BlocksReadLast(bs);
    PeersAreCounted(bs);
    CoveredIsClean(f, bs);
    CoveredIsNulFree(f, bs);
    SameEdits(f, g, PeerCount(bs), bs);
    assert Edited(content, g) == Edited(content, f);
    CleanEditAgrees(content, g);
    CoveredKeysAlike(f, bs);
    if Parsed(Edited(content, f)).Ok? {
      CoveredSetsAlike(f, bs, Parsed(content).value, Parsed(Edited(content, f)).value);
    }
  }

  /** The model is set in the text as the editor reads it, and in the
      configuration as the parser does. */
  ghost predicate IsSet(content: string, f: TunnelFields)
    requires Parsed(content).Ok?
  {
    && ReadsBack(content, f)
    && Parsed(Edited(content, f)).Ok? && SetsConfig(Parsed(content).value, Parsed(Edited(content, f)).value, f)
  }

  lemma EditedLacksBom(content: string, f: TunnelFields)
    requires !HasPrefix(content, BOM) && AllKeysAllowed(f) && AllCaseDistinct(f) && AppliedSurvive(f, BlocksOf(content))
    ensures !HasPrefix(Edited(content, f), BOM)
  {
    var bs := BlocksOf(content);
    CoveredIsClean(f, bs);
    SameEdits(f, Covered(f, bs), PeerCount(bs), bs);
    assert Edited(content, Covered(f, bs)) == Edited(content, f);
    EditKeepsBom(content, Covered(f, bs));
  }

  /** Editing fields in a text that the parser accepts, with no other brackets
      than the headers, sets them both for the editor and for the parser exactly
      when the text still fits, every value that is written survives on its line,
      has no NUL and is one that the parser takes, the private key is kept, and
      no list or command comes to stand on several lines. */
  lemma SetAgreesExactlyWhen(content: string, f: TunnelFields)
    requires Parsed(content).Ok? && !HasPrefix(content, BOM) && HookParsing.KnownHeaders(Split(content, '\n'))
    requires AllKeysAllowed(f) && AllCaseDistinct(f)
    ensures IsSet(content, f) <==>
            && |Edited(content, f)| <= MAX_CONFIG_SIZE
            && AppliedSurvive(f, BlocksOf(content)) && AppliedNulFree(f, BlocksOf(content)) && AllKeysAreSet(f, BlocksOf(content))
  {
    GetAfterSetExactlyWhen(content, f);
    if IsSet(content, f) {
      EditedLacksBom(content, f);
      HookParsing.AcceptedLacksNul(Edited(content, f));
      ReadsBackIsNulFree(content, f);
    }
    if |Edited(content, f)| <= MAX_CONFIG_SIZE && AppliedSurvive(f, BlocksOf(content)) && AppliedNulFree(f, BlocksOf(content)) {
      AppliedEditAgrees(content, f);
    }
  }
}
