/** Reading a text after an edit: when it gives what was set. */
module FieldReading {
  import opened Wrappers
  import opened Text
  import opened StringOrder
  import opened FieldEditor
  import opened FieldEditorLaws

  /** A key and a value that a line carries unchanged: the key no comment, both without space around them. */
  predicate Survives(k: string, v: string) { Trimmed(k) && NoCommentSign(k) && Trimmed(v) && '\n' !in v }

  ghost predicate Surviving(m: Fields) { forall k :: Wanted(m, k) ==> Survives(k, m[k]) }

  ghost predicate CleanModel(m: Fields) { CaseDistinct(m) && KeysAllowed(m) && Surviving(m) }

  ghost predicate CleanFields(f: TunnelFields) {
    CleanModel(f.iface) && forall j :: 0 <= j < |f.peers| ==> CleanModel(f.peers[j])
  }

  // ---------------------------------------------------------------------
  // Reading what was set
  // ---------------------------------------------------------------------

  /** A key as it was read, if it was. */
  function ReadKey(g: Fields, key: string): Option<string> { if key in g then Some(g[key]) else None }

  /** What reading a text gives for one key, before and after an edit. */
  ghost predicate KeyAgrees(m: Fields, before: Fields, after: Fields, key: string) {
    match Managed(m, key)
    case None => ReadKey(after, key) == ReadKey(before, key)
    case Some(v) => key in after ==> after[key] == v && v != ""
  }

  ghost predicate Agrees(m: Fields, before: Fields, after: Fields) {
    forall key :: KeyAgrees(m, before, after, key)
  }

  ghost predicate IsRead(g: Fields, k: string) { exists key :: key in g && EqualFold(k, key) }

  /** Every model key that has a value is read, in some spelling. */
  ghost predicate Covers(m: Fields, after: Fields) { forall k :: Wanted(m, k) ==> IsRead(after, k) }

  lemma RewriteAgrees(m: Fields, before: Fields, after: Fields, line: string)
    requires CleanModel(m) && Agrees(m, before, after)
    ensures Agrees(m, ReadLine(before, line), ReadBody(after, RewriteLine(Some(m), line)))
  {
    var out := RewriteLine(Some(m), line);
    forall key
      ensures KeyAgrees(m, ReadLine(before, line), ReadBody(after, out), key)
    {
      assert KeyAgrees(m, before, after, key);
      if !IsManaged(Some(m), line) {
        ReadOne(after, line);
      } else {
        ManagedLineReads(m, after, line);
      }
    }
  }

  lemma ReadOne(g: Fields, line: string)
    ensures ReadBody(g, [line]) == ReadLine(g, line) && ReadBody(g, []) == g
  {
    assert [line][..0] == [];
  }

  /** A managed line, rewritten, reads as its model value. */
  lemma ManagedLineReads(m: Fields, g: Fields, line: string)
    requires CleanModel(m) && IsManaged(Some(m), line)
    ensures var v, g' := Managed(m, KeyAt(line)).value, ReadBody(g, RewriteLine(Some(m), line));
            if v == "" then g' == g else g' == g[KeyAt(line) := v] && !IsComment(line)
  {
    var k :| k in m && EqualFold(k, KeyAt(line)) && Managed(m, KeyAt(line)) == Some(m[k]);
    ReadOne(g, line);
    if m[k] != "" {
      SpellingIsClean(k, line);
      CleanKeyIsNoComment(line);
      AssignmentReads(KeyAt(line), m[k]);
      TrimmedStays(m[k]);
      ReadOne(g, Assignment(KeyAt(line), m[k]));
    }
  }

  lemma CleanKeyIsNoComment(line: string)
    requires HasKey(line) && CleanSpelling(KeyAt(line)) && NoCommentSign(KeyAt(line))
    ensures !IsComment(line)
  {
    var t := Trim(line);
    var left := t[..IndexOf(t, '=')];
    TrimIsTrimmed(line);
    TrimRightIsPrefix(left);
    assert TrimLeft(left) == left;
    assert KeyAt(line)[0] == t[0] && t[..1] == [t[0]] == KeyAt(line)[..1];
  }

  lemma {:induction false} RewriteBodyAgrees(m: Fields, before: Fields, after: Fields, body: seq<string>)
    requires CleanModel(m) && Agrees(m, before, after)
    ensures Agrees(m, ReadBody(before, body), ReadBody(after, RewriteBody(Some(m), body)))
    decreases |body|
  {
    if body != [] {
      var n := |body| - 1;
      RewriteBodyAgrees(m, before, after, body[..n]);
      RewriteAgrees(m, ReadBody(before, body[..n]), ReadBody(after, RewriteBody(Some(m), body[..n])), body[n]);
      ReadAppend(after, RewriteBody(Some(m), body[..n]), RewriteLine(Some(m), body[n]));
    }
  }

  lemma {:induction false} ReadAppend(g: Fields, a: seq<string>, b: seq<string>)
    ensures ReadBody(g, a + b) == ReadBody(ReadBody(g, a), b)
    decreases |b|
  {
    if b == [] {
      assert a + b == a;
    } else {
      assert (a + b)[..|a + b| - 1] == a + b[..|b| - 1];
      ReadAppend(g, a, b[..|b| - 1]);
    }
  }

  lemma {:induction false} AssignmentsAgree(m: Fields, before: Fields, after: Fields, keys: seq<string>)
    requires CleanModel(m) && Agrees(m, before, after) && forall i :: 0 <= i < |keys| ==> Wanted(m, keys[i])
    ensures Agrees(m, before, ReadBody(after, Assignments(m, keys)))
    decreases |keys|
  {
    if keys != [] {
      var n := |keys| - 1;
      var k := keys[n];
      AssignmentsAgree(m, before, after, keys[..n]);
      var g := ReadBody(after, Assignments(m, keys[..n]));
      AllowedKeyIsClean(k);
      TrimmedStays(m[k]);
      AssignmentReads(k, m[k]);
      ManagedIs(m, k, k);
      var g' := g[k := m[k]];
      forall key
        ensures KeyAgrees(m, before, g', key)
      {
        assert KeyAgrees(m, before, g, key);
      }
    }
  }

  lemma EditedBodyAgrees(m: Fields, before: Fields, after: Fields, b: Block)
    requires CleanModel(m) && Agrees(m, before, after)
    ensures Agrees(m, ReadBody(before, b.body), ReadBody(after, EditedBlock(Some(m), b).body))
  {
    var body, lines := RewriteBody(Some(m), b.body), BlockLines(Rewritten(Some(m), b));
    RewriteBodyAgrees(m, before, after, b.body);
    MissingAreWanted(m, Present(lines));
    AssignmentsAgree(m, ReadBody(before, b.body), ReadBody(after, body), Ascending(Missing(m, Present(lines))));
    ReadAppend(after, body, Added(m, lines));
  }

  // ---------------------------------------------------------------------
  // Every value is there to be read
  // ---------------------------------------------------------------------

  lemma {:induction false} AssignedIsRead(g: Fields, body: seq<string>, i: nat)
    requires i < |body| && HasKey(body[i]) && !IsComment(body[i])
    ensures KeyAt(body[i]) in ReadBody(g, body)
    decreases |body|
  {
    if i < |body| - 1 {
      AssignedIsRead(g, body[..|body| - 1], i);
    }
  }

  lemma EditedBodyCovers(m: Fields, g: Fields, b: Block)
    requires CleanModel(m) && KindOf(b.header) != OtherSection
    ensures Covers(m, ReadBody(g, EditedBlock(Some(m), b).body))
  {
    var e := EditedBlock(Some(m), b);
    forall k | Wanted(m, k)
      ensures IsRead(ReadBody(g, e.body), k)
    {
      WantedIsPresent(m, b, k);
      var i := PresentFrom(BlockLines(e), Lower(k));
      HeaderHasNoKey(b.header);
      assert BlockLines(e)[i] == e.body[i - 1];
      SpellingIsClean(k, e.body[i - 1]);
      CleanKeyIsNoComment(e.body[i - 1]);
      AssignedIsRead(g, e.body, i - 1);
    }
  }

  lemma HeaderHasNoKey(header: string)
    requires KindOf(header) != OtherSection
    ensures !HasKey(header)
  {
    var t := Trim(header);
    assert '=' !in Lower(t);
    assert forall i :: 0 <= i < |t| ==> LowerChar(t[i]) == Lower(t)[i];
  }

  // ---------------------------------------------------------------------
  // Whole texts
  // ---------------------------------------------------------------------

  ghost predicate PeerAgrees(f: TunnelFields, j: nat, before: Fields, after: Fields) {
    if j < |f.peers| then Agrees(f.peers[j], before, after) && Covers(f.peers[j], after) else after == before
  }

  predicate HasInterface(bs: seq<Block>) {
    exists j :: 0 <= j < |bs| && KindOf(bs[j].header) == InterfaceSection
  }

  ghost predicate InterfaceAgrees(m: Fields, before: Fields, after: Fields, hasInterface: bool) {
    Agrees(m, before, after) && (hasInterface ==> Covers(m, after))
  }

  ghost predicate PeersAgree(f: TunnelFields, before: seq<Fields>, after: seq<Fields>) {
    |after| == |before| && forall j :: 0 <= j < |after| ==> PeerAgrees(f, j, before[j], after[j])
  }

  ghost predicate FieldsAgree(f: TunnelFields, before: TunnelFields, after: TunnelFields, hasInterface: bool) {
    InterfaceAgrees(f.iface, before.iface, after.iface, hasInterface) && PeersAgree(f, before.peers, after.peers)
  }

  lemma NothingAgrees(m: Fields)
    ensures Agrees(m, map[], map[])
  {
    forall key
      ensures KeyAgrees(m, map[], map[], key)
    {
    }
  }

  lemma UntouchedBlock(b: Block)
    ensures EditedBlock(None, b) == b
  {
    UntouchedBody(b.body);
  }

  lemma {:induction false} UntouchedBody(body: seq<string>)
    ensures RewriteBody(None, body) == body
    decreases |body|
  {
    if body != [] {
      UntouchedBody(body[..|body| - 1]);
      InitAndLast(body);
    }
  }

  lemma HasInterfaceMore(before: seq<Block>, b: Block)
    ensures HasInterface(before + [b]) ==> HasInterface(before) || KindOf(b.header) == InterfaceSection
  {
  }

  /** One more section, managed by `t`, after sections of which `g` was read. */
  lemma ReadAfterEdit(f: TunnelFields, t: Option<Fields>, b: Block, g: TunnelFields, g': TunnelFields, has: bool)
    requires CleanFields(f) && FieldsAgree(f, g, g', has)
    requires t == match KindOf(b.header)
                  case InterfaceSection => Some(f.iface)
                  case PeerSection => if |g.peers| < |f.peers| then Some(f.peers[|g.peers|]) else None
                  case OtherSection => None
    ensures FieldsAgree(f, ReadBlock(g, b), ReadBlock(g', EditedBlock(t, b)), has || KindOf(b.header) == InterfaceSection)
  {
    match KindOf(b.header)
    case InterfaceSection =>
      InterfaceReadsAfterEdit(f.iface, g.iface, g'.iface, b);
    case PeerSection =>
      PeerReadsAfterEdit(f, |g.peers|, b);
      PeersAgreeMore(f, g.peers, g'.peers, ReadBody(map[], b.body), ReadBody(map[], EditedBlock(t, b).body));
    case OtherSection =>
  }

  lemma PeersAgreeMore(f: TunnelFields, before: seq<Fields>, after: seq<Fields>, p: Fields, p': Fields)
    requires PeersAgree(f, before, after) && PeerAgrees(f, |before|, p, p')
    ensures PeersAgree(f, before + [p], after + [p'])
  {
  }

  lemma InterfaceReadsAfterEdit(m: Fields, before: Fields, after: Fields, b: Block)
    requires CleanModel(m) && Agrees(m, before, after) && KindOf(b.header) == InterfaceSection
    ensures InterfaceAgrees(m, ReadBody(before, b.body), ReadBody(after, EditedBlock(Some(m), b).body), true)
  {
    EditedBodyAgrees(m, before, after, b);
    EditedBodyCovers(m, after, b);
  }

  lemma PeerReadsAfterEdit(f: TunnelFields, j: nat, b: Block)
    requires CleanFields(f) && KindOf(b.header) == PeerSection
    ensures var t := if j < |f.peers| then Some(f.peers[j]) else None;
            PeerAgrees(f, j, ReadBody(map[], b.body), ReadBody(map[], EditedBlock(t, b).body))
  {
    if j < |f.peers| {
      NothingAgrees(f.peers[j]);
      EditedBodyAgrees(f.peers[j], map[], map[], b);
      EditedBodyCovers(f.peers[j], map[], b);
    } else {
      UntouchedBlock(b);
    }
  }

  lemma {:induction false} BlocksReadAfterEdit(f: TunnelFields, bs: seq<Block>)
    requires CleanFields(f)
    ensures FieldsAgree(f, ReadBlocks(bs), ReadBlocks(EditedBlocks(f, bs)), HasInterface(bs))
    ensures |ReadBlocks(bs).peers| == PeerCount(bs)
    decreases |bs|
  {
    if bs == [] {
      NothingAgrees(f.iface);
    } else {
      var before, b := bs[..|bs| - 1], bs[|bs| - 1];
      BlocksReadAfterEdit(f, before);
      InitAndLast(bs);
      LastReadsAfterEdit(f, before, b);
    }
  }

  lemma LastReadsAfterEdit(f: TunnelFields, before: seq<Block>, b: Block)
    requires CleanFields(f) && |ReadBlocks(before).peers| == PeerCount(before)
    requires FieldsAgree(f, ReadBlocks(before), ReadBlocks(EditedBlocks(f, before)), HasInterface(before))
    ensures FieldsAgree(f, ReadBlocks(before + [b]), ReadBlocks(EditedBlocks(f, before + [b])), HasInterface(before + [b]))
  {
    var e := EditedBlock(TargetFor(f, before, b.header), b);
    ReadAfterEdit(f, TargetFor(f, before, b.header), b, ReadBlocks(before), ReadBlocks(EditedBlocks(f, before)), HasInterface(before));
    HasInterfaceMore(before, b);
    ReadLast(before, b);
    EditedMore(f, before, b);
    ReadLast(EditedBlocks(f, before), e);
  }

  lemma ReadLast(before: seq<Block>, b: Block)
    ensures ReadBlocks(before + [b]) == ReadBlock(ReadBlocks(before), b)
  {
    assert (before + [b])[..|before|] == before;
  }

  // ---------------------------------------------------------------------
  // Exactly when it reads
  // ---------------------------------------------------------------------

  /** What reading ever gives. */
  predicate CleanRead(g: Fields) {
    forall key :: key in g ==> Trimmed(key) && NoCommentSign(key) && Trimmed(g[key]) && '\n' !in g[key]
  }

  lemma LineReadsClean(g: Fields, line: string)
    requires CleanRead(g) && '\n' !in line
    ensures CleanRead(ReadLine(g, line))
  {
    if !IsComment(line) && HasKey(line) {
      var t := Trim(line);
      var eq := IndexOf(t, '=');
      TrimIsTrimmed(line);
      TrimIsTrimmed(t[..eq]);
      TrimIsTrimmed(t[eq + 1..]);
      KeyHasNoSign(line);
    }
  }

  lemma KeyHasNoSign(line: string)
    requires HasKey(line) && !IsComment(line)
    ensures NoCommentSign(KeyAt(line))
  {
    var t := Trim(line);
    var left := t[..IndexOf(t, '=')];
    TrimIsTrimmed(line);
    TrimRightIsPrefix(left);
    assert TrimLeft(left) == left;
    if KeyAt(line) != "" {
      assert KeyAt(line)[0] == t[0] && t[..1] == [t[0]] == KeyAt(line)[..1];
    }
  }

  lemma {:induction false} BodyReadsClean(g: Fields, body: seq<string>)
    requires CleanRead(g) && Free(body, '\n')
    ensures CleanRead(ReadBody(g, body))
    decreases |body|
  {
    if body != [] {
      BodyReadsClean(g, body[..|body| - 1]);
      LineReadsClean(ReadBody(g, body[..|body| - 1]), body[|body| - 1]);
    }
  }

  lemma {:induction false} BlocksReadClean(bs: seq<Block>)
    requires forall j :: 0 <= j < |bs| ==> Free(bs[j].body, '\n')
    ensures CleanRead(ReadBlocks(bs).iface) && forall j :: 0 <= j < |ReadBlocks(bs).peers| ==> CleanRead(ReadBlocks(bs).peers[j])
    decreases |bs|
  {
    if bs != [] {
      var before, b := bs[..|bs| - 1], bs[|bs| - 1];
      BlocksReadClean(before);
      BodyReadsClean(ReadBlocks(before).iface, b.body);
      BodyReadsClean(map[], b.body);
    }
  }

  lemma BodiesAreFree(d: Document, c: char)
    requires Free(LinesOf(d), c)
    ensures forall j :: 0 <= j < |d.blocks| ==> Free(d.blocks[j].body, c)
  {
    DocumentIsFree(d, c);
    forall j | 0 <= j < |d.blocks|
      ensures Free(d.blocks[j].body, c)
    {
      var b := d.blocks[j];
      assert forall i :: 0 <= i < |b.body| ==> b.body[i] == BlockLines(b)[i + 1];
    }
  }

  lemma FieldsAreClean(content: string)
    ensures var f := FieldsOf(content); CleanRead(f.iface) && forall j :: 0 <= j < |f.peers| ==> CleanRead(f.peers[j])
  {
    var d := DocumentOf(Split(content, '\n'));
    DocumentHasLines(Split(content, '\n'));
    SplitParts(content, '\n');
    BodiesAreFree(d, '\n');
    BlocksReadClean(d.blocks);
  }

  lemma WhatIsReadSurvives(m: Fields, before: Fields, after: Fields)
    requires CaseDistinct(m) && KeysAllowed(m) && Agrees(m, before, after) && Covers(m, after) && CleanRead(after)
    ensures Surviving(m)
  {
    forall k | Wanted(m, k)
      ensures Survives(k, m[k])
    {
      assert IsRead(after, k);
      var key :| key in after && EqualFold(k, key);
      ManagedIs(m, k, key);
      assert KeyAgrees(m, before, after, key);
      SameSigns(k, key);
    }
  }

  function FirstPeers(peers: seq<Fields>, n: nat): seq<Fields> { if |peers| <= n then peers else peers[..n] }

  /** The models of the sections that a document has. */
  ghost function Covered(f: TunnelFields, bs: seq<Block>): TunnelFields {
    TunnelFields(if HasInterface(bs) then f.iface else map[], FirstPeers(f.peers, PeerCount(bs)))
  }

  lemma {:induction false} SameEdits(f: TunnelFields, g: TunnelFields, n: nat, bs: seq<Block>)
    requires (HasInterface(bs) ==> g.iface == f.iface) && PeerCount(bs) <= n && g.peers == FirstPeers(f.peers, n)
    ensures EditedBlocks(g, bs) == EditedBlocks(f, bs)
    decreases |bs|
  {
    if bs != [] {
      var before, b := bs[..|bs| - 1], bs[|bs| - 1];
      InitAndLast(bs);
      if HasInterface(before) {
        HasInterfaceStays(before, b);
      }
      SameEdits(f, g, n, before);
      assert TargetFor(g, before, b.header) == TargetFor(f, before, b.header);
    }
  }

  lemma HasInterfaceStays(before: seq<Block>, b: Block)
    requires HasInterface(before)
    ensures HasInterface(before + [b])
  {
    var j :| 0 <= j < |before| && KindOf(before[j].header) == InterfaceSection;
    assert (before + [b])[j] == before[j];
  }

  /** The models that an edit applies. */
  ghost predicate AppliedSurvive(f: TunnelFields, bs: seq<Block>) {
    && (HasInterface(bs) ==> Surviving(f.iface))
    && forall j :: 0 <= j < |f.peers| && j < PeerCount(bs) ==> Surviving(f.peers[j])
  }

  lemma {:induction false} PeersAreCounted(bs: seq<Block>)
    ensures |ReadBlocks(bs).peers| == PeerCount(bs)
    ensures !HasInterface(bs) ==> ReadBlocks(bs).iface == map[]
    decreases |bs|
  {
    if bs != [] {
      PeersAreCounted(bs[..|bs| - 1]);
      InitAndLast(bs);
      if HasInterface(bs[..|bs| - 1]) {
        HasInterfaceStays(bs[..|bs| - 1], bs[|bs| - 1]);
      }
    }
  }

  ghost predicate ReadsBack(content: string, f: TunnelFields) {
    FieldsAgree(f, FieldsOf(content), FieldsOf(Edited(content, f)), HasInterface(DocumentOf(Split(content, '\n')).blocks))
  }

  lemma CleanReadsBack(content: string, f: TunnelFields)
    requires CleanFields(f)
    ensures ReadsBack(content, f)
  {
    DocumentOfEdited(content, f);
    BlocksReadAfterEdit(f, DocumentOf(Split(content, '\n')).blocks);
  }

  lemma NoInterfaceEither(content: string, f: TunnelFields)
    requires Writable(f) && !HasInterface(DocumentOf(Split(content, '\n')).blocks)
    ensures FieldsOf(Edited(content, f)).iface == map[]
  {
    var bs := DocumentOf(Split(content, '\n')).blocks;
    DocumentOfEdited(content, f);
    EditKeepsHeaders(f, bs);
    PeersAreCounted(EditedBlocks(f, bs));
  }

  lemma MoreModelsAgree(f: TunnelFields, g: TunnelFields, before: TunnelFields, after: TunnelFields, has: bool)
    requires FieldsAgree(g, before, after, has) && g.peers == FirstPeers(f.peers, |before.peers|)
    requires if has then g.iface == f.iface else before.iface == map[] == after.iface
    ensures FieldsAgree(f, before, after, has)
  {
    if !has {
      NothingAgrees(f.iface);
    }
    forall j | 0 <= j < |after.peers|
      ensures PeerAgrees(f, j, before.peers[j], after.peers[j])
    {
      assert PeerAgrees(g, j, before.peers[j], after.peers[j]);
    }
  }

  lemma CoveredIsClean(f: TunnelFields, bs: seq<Block>)
    requires AllKeysAllowed(f) && AllCaseDistinct(f) && AppliedSurvive(f, bs)
    ensures CleanFields(Covered(f, bs))
  {
  }

  /** The models that are not applied make no difference. */
  lemma CoveredReadsBack(content: string, f: TunnelFields, g: TunnelFields)
    requires CleanFields(g) && g == Covered(f, DocumentOf(Split(content, '\n')).blocks)
    ensures FieldsAgree(g, FieldsOf(content), FieldsOf(Edited(content, f)), HasInterface(DocumentOf(Split(content, '\n')).blocks))
    ensures !HasInterface(DocumentOf(Split(content, '\n')).blocks) ==> FieldsOf(Edited(content, f)).iface == map[]
  {
    var bs := DocumentOf(Split(content, '\n')).blocks;
    SameEdits(f, g, PeerCount(bs), bs);
    assert Edited(content, g) == Edited(content, f);
    CleanReadsBack(content, g);
    if !HasInterface(bs) {
      NoInterfaceEither(content, g);
    }
  }

  lemma SurvivingReadsBack(content: string, f: TunnelFields)
    requires AllKeysAllowed(f) && AllCaseDistinct(f) && AppliedSurvive(f, DocumentOf(Split(content, '\n')).blocks)
    ensures ReadsBack(content, f)
  {
    var bs := DocumentOf(Split(content, '\n')).blocks;
    CoveredIsClean(f, bs);
    CoveredReadsBack(content, f, Covered(f, bs));
    PeersAreCounted(bs);
    MoreModelsAgree(f, Covered(f, bs), FieldsOf(content), FieldsOf(Edited(content, f)), HasInterface(bs));
  }

  /** When an edited text reads as it should: the editor's contract with its
      reader holds exactly when every value that is written survives on its line. */
  lemma GetAfterSetExactlyWhen(content: string, f: TunnelFields)
    requires AllKeysAllowed(f) && AllCaseDistinct(f)
    ensures ReadsBack(content, f) <==> AppliedSurvive(f, DocumentOf(Split(content, '\n')).blocks)
  {
    var bs := DocumentOf(Split(content, '\n')).blocks;
    var before, after := FieldsOf(content), FieldsOf(Edited(content, f));
    FieldsAreClean(Edited(content, f));
    PeersAreCounted(bs);
    if ReadsBack(content, f) {
      if HasInterface(bs) {
        WhatIsReadSurvives(f.iface, before.iface, after.iface);
      }
      forall j | 0 <= j < |f.peers| && j < PeerCount(bs)
        ensures Surviving(f.peers[j])
      {
        assert PeerAgrees(f, j, before.peers[j], after.peers[j]);
        WhatIsReadSurvives(f.peers[j], before.peers[j], after.peers[j]);
      }
    } else if AppliedSurvive(f, bs) {
      SurvivingReadsBack(content, f);
    }
  }

  // ---------------------------------------------------------------------
  // Setting what was read
  // ---------------------------------------------------------------------

  lemma {:induction false} RewriteAddsNoKey(m: Fields, before: Fields, after: Fields, body: seq<string>)
    requires CleanModel(m) && after.Keys <= before.Keys + m.Keys
    ensures ReadBody(after, RewriteBody(Some(m), body)).Keys <= ReadBody(before, body).Keys + m.Keys
    decreases |body|
  {
    if body != [] {
      var n := |body| - 1;
      RewriteAddsNoKey(m, before, after, body[..n]);
      var g := ReadBody(after, RewriteBody(Some(m), body[..n]));
      ReadAppend(after, RewriteBody(Some(m), body[..n]), RewriteLine(Some(m), body[n]));
      if IsManaged(Some(m), body[n]) {
        ManagedLineReads(m, g, body[n]);
      } else {
        ReadOne(g, body[n]);
      }
    }
  }

  lemma {:induction false} AssignmentsAddModelKeys(m: Fields, g: Fields, keys: seq<string>)
    requires CleanModel(m) && forall i :: 0 <= i < |keys| ==> Wanted(m, keys[i])
    ensures ReadBody(g, Assignments(m, keys)).Keys <= g.Keys + m.Keys
    decreases |keys|
  {
    if keys != [] {
      var k := keys[|keys| - 1];
      AssignmentsAddModelKeys(m, g, keys[..|keys| - 1]);
      AllowedKeyIsClean(k);
      AssignmentReads(k, m[k]);
    }
  }

  lemma EditAddsModelKeys(m: Fields, before: Fields, after: Fields, b: Block)
    requires CleanModel(m) && after.Keys <= before.Keys + m.Keys
    ensures ReadBody(after, EditedBlock(Some(m), b).body).Keys <= ReadBody(before, b.body).Keys + m.Keys
  {
    var body, lines := RewriteBody(Some(m), b.body), BlockLines(Rewritten(Some(m), b));
    RewriteAddsNoKey(m, before, after, b.body);
    MissingAreWanted(m, Present(lines));
    AssignmentsAddModelKeys(m, ReadBody(after, body), Ascending(Missing(m, Present(lines))));
    ReadAppend(after, body, Added(m, lines));
  }

  function KeysFor(f: TunnelFields, j: nat): set<string> { if j < |f.peers| then f.peers[j].Keys else {} }

  /** No key is read that was neither there nor in the model. */
  ghost predicate NoOtherKeys(f: TunnelFields, before: TunnelFields, after: TunnelFields) {
    after.iface.Keys <= before.iface.Keys + f.iface.Keys && NoOtherPeerKeys(f, before.peers, after.peers)
  }

  ghost predicate NoOtherPeerKeys(f: TunnelFields, before: seq<Fields>, after: seq<Fields>) {
    |after| == |before| && forall j :: 0 <= j < |after| ==> after[j].Keys <= before[j].Keys + KeysFor(f, j)
  }

  lemma PeerKeysMore(f: TunnelFields, before: seq<Fields>, after: seq<Fields>, p: Fields, p': Fields)
    requires NoOtherPeerKeys(f, before, after) && p'.Keys <= p.Keys + KeysFor(f, |before|)
    ensures NoOtherPeerKeys(f, before + [p], after + [p'])
  {
  }

  lemma {:induction false} BlocksAddModelKeys(f: TunnelFields, bs: seq<Block>)
    requires CleanFields(f)
    ensures NoOtherKeys(f, ReadBlocks(bs), ReadBlocks(EditedBlocks(f, bs)))
    decreases |bs|
  {
    if bs != [] {
      var before, b := bs[..|bs| - 1], bs[|bs| - 1];
      BlocksAddModelKeys(f, before);
      PeersAreCounted(before);
      InitAndLast(bs);
      EditedMore(f, before, b);
      ReadLast(before, b);
      ReadLast(EditedBlocks(f, before), EditedBlock(TargetFor(f, before, b.header), b));
      LastAddsModelKeys(f, TargetFor(f, before, b.header), ReadBlocks(before), ReadBlocks(EditedBlocks(f, before)), b);
    }
  }

  lemma LastAddsModelKeys(f: TunnelFields, t: Option<Fields>, g: TunnelFields, g': TunnelFields, b: Block)
    requires CleanFields(f) && NoOtherKeys(f, g, g')
    requires t == match KindOf(b.header)
                  case InterfaceSection => Some(f.iface)
                  case PeerSection => if |g.peers| < |f.peers| then Some(f.peers[|g.peers|]) else None
                  case OtherSection => None
    ensures NoOtherKeys(f, ReadBlock(g, b), ReadBlock(g', EditedBlock(t, b)))
  {
    match KindOf(b.header)
    case InterfaceSection => EditAddsModelKeys(f.iface, g.iface, g'.iface, b);
    case PeerSection =>
      if t.Some? {
        EditAddsModelKeys(t.value, map[], map[], b);
      } else {
        UntouchedBlock(b);
      }
      PeerKeysMore(f, g.peers, g'.peers, ReadBody(map[], b.body), ReadBody(map[], EditedBlock(t, b).body));
    case OtherSection =>
  }

  function WithoutEmpty(m: Fields): Fields { map k | k in m && m[k] != "" :: m[k] }

  lemma OwnModelReads(m: Fields, after: Fields)
    requires CaseDistinct(m) && Agrees(m, m, after) && Covers(m, after) && after.Keys <= m.Keys
    ensures after == WithoutEmpty(m)
  {
    forall key | key in after
      ensures after[key] == m[key] != ""
    {
      ManagedIs(m, key, key);
      assert KeyAgrees(m, m, after, key);
    }
    forall k | Wanted(m, k)
      ensures k in after
    {
      assert IsRead(after, k);
    }
  }

  lemma OwnPeersRead(f: TunnelFields, after: seq<Fields>)
    requires AllCaseDistinct(f) && PeersAgree(f, f.peers, after) && NoOtherPeerKeys(f, f.peers, after)
    ensures forall j :: 0 <= j < |f.peers| ==> after[j] == WithoutEmpty(f.peers[j])
  {
    forall j | 0 <= j < |f.peers|
      ensures after[j] == WithoutEmpty(f.peers[j])
    {
      assert PeerAgrees(f, j, f.peers[j], after[j]);
      OwnModelReads(f.peers[j], after[j]);
    }
  }

  lemma OwnFieldsRead(f: TunnelFields, after: TunnelFields, has: bool)
    requires AllCaseDistinct(f) && FieldsAgree(f, f, after, has) && NoOtherKeys(f, f, after) && (!has ==> f.iface == map[])
    ensures after.iface == WithoutEmpty(f.iface) && |after.peers| == |f.peers|
    ensures forall j :: 0 <= j < |f.peers| ==> after.peers[j] == WithoutEmpty(f.peers[j])
  {
    if has {
      OwnModelReads(f.iface, after.iface);
    }
    OwnPeersRead(f, after.peers);
  }

  /** Setting in a text what was read from it drops the empty fields and changes no other. */
  lemma SetWhatWasRead(content: string)
    requires AllKeysAllowed(FieldsOf(content)) && AllCaseDistinct(FieldsOf(content))
    ensures var f, g := FieldsOf(content), FieldsOf(Edited(content, FieldsOf(content)));
            && g.iface == WithoutEmpty(f.iface) && |g.peers| == |f.peers|
            && forall j :: 0 <= j < |f.peers| ==> g.peers[j] == WithoutEmpty(f.peers[j])
  {
    var f, bs := FieldsOf(content), DocumentOf(Split(content, '\n')).blocks;
    FieldsAreClean(content);
    CleanReadsBack(content, f);
    DocumentOfEdited(content, f);
    BlocksAddModelKeys(f, bs);
    PeersAreCounted(bs);
    OwnFieldsRead(f, FieldsOf(Edited(content, f)), HasInterface(bs));
  }
}
