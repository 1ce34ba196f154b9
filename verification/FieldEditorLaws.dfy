/** What an edit keeps, what it sets, and that doing it twice does no more. */
module FieldEditorLaws {
  import opened Wrappers
  import opened Text
  import opened StringOrder
  import opened FieldEditor

  // ---------------------------------------------------------------------
  // Models that a text can carry
  // ---------------------------------------------------------------------

  /** A model key with a value. */
  ghost predicate Wanted(m: Fields, k: string) { k in m && m[k] != "" }

  /** Keys that the editor allows and finds again, values of one line. */
  ghost predicate WritableModel(m: Fields) {
    CaseDistinct(m) && KeysAllowed(m) && forall k :: Wanted(m, k) ==> Trimmed(k) && '\n' !in m[k]
  }

  ghost predicate Writable(f: TunnelFields) {
    WritableModel(f.iface) && forall j :: 0 <= j < |f.peers| ==> WritableModel(f.peers[j])
  }

  ghost predicate WritableTarget(t: Option<Fields>) { t.Some? ==> WritableModel(t.value) }

  /** A key as it may stand in a text. */
  predicate CleanSpelling(key: string) { Trimmed(key) && key != "" && '=' !in key && key[0] != '[' }

  predicate NoCommentSign(key: string) { !HasPrefix(key, "#") && !HasPrefix(key, ";") }

  /** The spelling of a model key in a text, up to case. */
  lemma SpellingIsClean(k: string, line: string)
    requires HasKey(line) && KeyAllowed(k) && EqualFold(k, KeyAt(line))
    ensures CleanSpelling(KeyAt(line)) && Trimmed(k) && (NoCommentSign(KeyAt(line)) <==> NoCommentSign(k))
  {
    var t := Trim(line);
    TrimIsTrimmed(t[..IndexOf(t, '=')]);
    SameSigns(k, KeyAt(line));
  }

  lemma SameSigns(k: string, key: string)
    requires EqualFold(k, key) && Trimmed(key) && KeyAllowed(k)
    ensures key != "" && key[0] != '[' && Trimmed(k) && (NoCommentSign(key) <==> NoCommentSign(k))
  {
    var n := |k| - 1;
    assert |key| == |k|;
    assert LowerChar(k[0]) == LowerChar(key[0]) by { assert Lower(k)[0] == Lower(key)[0]; }
    assert LowerChar(k[n]) == LowerChar(key[n]) by { assert Lower(k)[n] == Lower(key)[n]; }
    assert !IsForbidden(k[0]) && k[..1] == [k[0]] && key[..1] == [key[0]];
  }

  lemma AllowedKeyIsClean(k: string)
    requires KeyAllowed(k) && Trimmed(k)
    ensures CleanSpelling(k)
  {
    assert !IsForbidden(k[0]);
  }

  /** An assignment reads back as what it assigns, but for space around the value. */
  lemma AssignmentReads(key: string, value: string)
    requires CleanSpelling(key)
    ensures var line := Assignment(key, value);
            && HasKey(line) && KeyAt(line) == key && ValueAt(line) == Trim(value) && !IsHeader(line)
            && (NoCommentSign(key) ==> !IsComment(line))
  {
    var line, left, right := Assignment(key, value), key + " =", TrimRight(" " + value);
    assert line == left + (" " + value) && line[0] == key[0];
    TrimRightKeeps(left, " " + value);
    var t := left + right;
    assert Trim(line) == t && t[0] == key[0] && t[..1] == [key[0]] && key[..1] == [key[0]];
    assert t == (key + " ") + ['='] + right;
    IndexOfFirst(key + " ", '=', right);
    assert t[..|key| + 1] == key + " " && t[|key| + 2..] == right;
    TrimDropsLast(key + " ");
    assert (key + " ")[..|key|] == key;
    TrimmedStays(key);
    TrimOfTrimRight(" " + value);
    TrimLeftSpaces(" ", value);
  }

  // ---------------------------------------------------------------------
  // One line, one body
  // ---------------------------------------------------------------------

  /** A line that a rewrite leaves as it is. */
  ghost predicate Stable(t: Option<Fields>, line: string) { !IsHeader(line) && RewriteLine(t, line) == [line] }

  ghost predicate AllStable(t: Option<Fields>, lines: seq<string>) {
    forall i :: 0 <= i < |lines| ==> Stable(t, lines[i])
  }

  lemma LineBecomesStable(t: Option<Fields>, line: string)
    requires WritableTarget(t) && !IsHeader(line)
    ensures AllStable(t, RewriteLine(t, line))
  {
    if t.Some? && HasKey(line) && Managed(t.value, KeyAt(line)).Some? {
      var m, key := t.value, KeyAt(line);
      var k :| k in m && EqualFold(k, key) && Managed(m, key) == Some(m[k]);
      if m[k] != "" {
        SpellingIsClean(k, line);
        AssignmentReads(key, m[k]);
      }
    }
  }

  lemma {:induction false} BodyBecomesStable(t: Option<Fields>, body: seq<string>)
    requires WritableTarget(t) && NoHeaders(body)
    ensures AllStable(t, RewriteBody(t, body))
    decreases |body|
  {
    if body != [] {
      BodyBecomesStable(t, body[..|body| - 1]);
      LineBecomesStable(t, body[|body| - 1]);
    }
  }

  lemma {:induction false} StableStays(t: Option<Fields>, body: seq<string>)
    requires AllStable(t, body)
    ensures RewriteBody(t, body) == body
    decreases |body|
  {
    if body != [] {
      StableStays(t, body[..|body| - 1]);
      InitAndLast(body);
      assert Stable(t, body[|body| - 1]);
    }
  }

  lemma WantedIsStable(m: Fields, k: string)
    requires WritableModel(m) && Wanted(m, k)
    ensures Stable(Some(m), Assignment(k, m[k]))
    ensures HasKey(Assignment(k, m[k])) && KeyAt(Assignment(k, m[k])) == k
  {
    AllowedKeyIsClean(k);
    AssignmentReads(k, m[k]);
    ManagedIs(m, k, k);
  }

  lemma {:induction false} AssignmentsList(m: Fields, keys: seq<string>)
    ensures |Assignments(m, keys)| == |keys|
    ensures forall i :: 0 <= i < |keys| ==> Assignments(m, keys)[i] == Assignment(keys[i], ValueIn(m, keys[i]))
    decreases |keys|
  {
    if keys != [] {
      AssignmentsList(m, keys[..|keys| - 1]);
    }
  }

  lemma AssignmentsAreStable(m: Fields, keys: seq<string>)
    requires WritableModel(m) && forall i :: 0 <= i < |keys| ==> Wanted(m, keys[i])
    ensures AllStable(Some(m), Assignments(m, keys))
  {
    AssignmentsList(m, keys);
    forall i | 0 <= i < |keys|
      ensures Stable(Some(m), Assignments(m, keys)[i])
    {
      WantedIsStable(m, keys[i]);
    }
  }

  lemma MissingAreWanted(m: Fields, present: set<string>)
    ensures var keys := Ascending(Missing(m, present)); forall i :: 0 <= i < |keys| ==> Wanted(m, keys[i])
  {
    var keys := Ascending(Missing(m, present));
    forall i | 0 <= i < |keys|
      ensures Wanted(m, keys[i])
    {
      assert keys[i] in keys;
    }
  }

  predicate NoHeaders(lines: seq<string>) { forall i :: 0 <= i < |lines| ==> !IsHeader(lines[i]) }

  lemma EditedBodyIsStable(t: Option<Fields>, b: Block)
    requires WritableTarget(t) && NoHeaders(b.body)
    ensures AllStable(t, EditedBlock(t, b).body) && NoHeaders(EditedBlock(t, b).body)
  {
    BodyBecomesStable(t, b.body);
    if t.Some? {
      var present := Present(BlockLines(Rewritten(t, b)));
      MissingAreWanted(t.value, present);
      AssignmentsAreStable(t.value, Ascending(Missing(t.value, present)));
    }
  }

  // ---------------------------------------------------------------------
  // Which keys are there afterwards
  // ---------------------------------------------------------------------

  lemma {:induction false} PresentHas(lines: seq<string>, i: nat)
    requires i < |lines| && HasKey(lines[i])
    ensures Lower(KeyAt(lines[i])) in Present(lines)
    decreases |lines|
  {
    if i < |lines| - 1 {
      PresentHas(lines[..|lines| - 1], i);
    }
  }

  lemma {:induction false} PresentFrom(lines: seq<string>, low: string) returns (i: nat)
    requires low in Present(lines)
    ensures i < |lines| && HasKey(lines[i]) && Lower(KeyAt(lines[i])) == low
    decreases |lines|
  {
    var n := |lines| - 1;
    if HasKey(lines[n]) && Lower(KeyAt(lines[n])) == low {
      i := n;
    } else {
      i := PresentFrom(lines[..n], low);
    }
  }

  /** An added line assigns a missing key its value. */
  lemma MissingIsAdded(m: Fields, lines: seq<string>, k: string) returns (i: nat)
    requires WritableModel(m) && Wanted(m, k) && Lower(k) !in Present(lines)
    ensures i < |Added(m, lines)| && Added(m, lines)[i] == Assignment(k, m[k])
  {
    var keys := Ascending(Missing(m, Present(lines)));
    assert k in keys;
    i :| 0 <= i < |keys| && keys[i] == k;
    AssignmentsList(m, keys);
  }

  lemma AssignedIsPresent(lines: seq<string>, added: seq<string>, i: nat, k: string, value: string)
    requires i < |added| && added[i] == Assignment(k, value) && KeyAllowed(k) && Trimmed(k)
    ensures Lower(k) in Present(lines + added)
  {
    AllowedKeyIsClean(k);
    AssignmentReads(k, value);
    assert (lines + added)[|lines| + i] == added[i];
    PresentHas(lines + added, |lines| + i);
  }

  lemma AddedCovers(m: Fields, lines: seq<string>, k: string)
    requires WritableModel(m) && Wanted(m, k)
    ensures Lower(k) in Present(lines + Added(m, lines))
  {
    if Lower(k) in Present(lines) {
      PresentStays(lines, Added(m, lines), Lower(k));
    } else {
      var i := MissingIsAdded(m, lines, k);
      AssignedIsPresent(lines, Added(m, lines), i, k, m[k]);
    }
  }

  /** After an edit every key that has a value is assigned somewhere. */
  lemma WantedIsPresent(m: Fields, b: Block, k: string)
    requires WritableModel(m) && Wanted(m, k)
    ensures Lower(k) in Present(BlockLines(EditedBlock(Some(m), b)))
  {
    var lines := BlockLines(Rewritten(Some(m), b));
    SameLines(Some(m), b, lines, Added(m, lines));
    AddedCovers(m, lines, k);
  }

  lemma PresentStays(a: seq<string>, b: seq<string>, low: string)
    requires low in Present(a)
    ensures low in Present(a + b)
  {
    var i := PresentFrom(a, low);
    assert (a + b)[i] == a[i];
    PresentHas(a + b, i);
  }

  lemma EditedBlockLacksNothing(m: Fields, b: Block)
    requires WritableModel(m)
    ensures Missing(m, Present(BlockLines(EditedBlock(Some(m), b)))) == {}
  {
    forall k | Wanted(m, k)
      ensures Lower(k) in Present(BlockLines(EditedBlock(Some(m), b)))
    {
      WantedIsPresent(m, b, k);
    }
    var missing := Missing(m, Present(BlockLines(EditedBlock(Some(m), b))));
    assert forall k :: k in missing ==> Wanted(m, k);
  }

  lemma BlockEditIsIdempotent(t: Option<Fields>, b: Block)
    requires WritableTarget(t) && NoHeaders(b.body)
    ensures EditedBlock(t, EditedBlock(t, b)) == EditedBlock(t, b)
  {
    var e := EditedBlock(t, b);
    EditedBodyIsStable(t, b);
    StableStays(t, e.body);
    if t.Some? {
      EditedBlockLacksNothing(t.value, b);
      var keys := Ascending({});
      assert |keys| == 0 by { if keys != [] { HasMember(keys); } }
      assert e.body + [] == e.body;
    }
  }

  // ---------------------------------------------------------------------
  // Texts and documents
  // ---------------------------------------------------------------------

  ghost predicate WellFormed(d: Document) {
    && NoHeaders(d.preamble)
    && forall j :: 0 <= j < |d.blocks| ==> IsHeader(d.blocks[j].header) && NoHeaders(d.blocks[j].body)
  }

  lemma AddedLine(d: Document, line: string)
    requires WellFormed(d)
    ensures WellFormed(AddLine(d, line)) && LinesOf(AddLine(d, line)) == LinesOf(d) + [line]
  {
    var d' := AddLine(d, line);
    if IsHeader(line) {
      LastBlock(d.blocks, Block(line, []));
    } else if d.blocks != [] {
      var n := |d.blocks| - 1;
      assert d'.blocks[..n] == d.blocks[..n];
      assert BlockLines(d'.blocks[n]) == BlockLines(d.blocks[n]) + [line];
    }
  }

  lemma {:induction false} DocumentHasLines(lines: seq<string>)
    ensures WellFormed(DocumentOf(lines)) && LinesOf(DocumentOf(lines)) == lines
    decreases |lines|
  {
    if lines != [] {
      DocumentHasLines(lines[..|lines| - 1]);
      AddedLine(DocumentOf(lines[..|lines| - 1]), lines[|lines| - 1]);
    }
  }

  /** The document without its last line. */
  function WithoutLast(d: Document): (Document, string)
    requires d.blocks == [] ==> d.preamble != []
  {
    if d.blocks == [] then (d.(preamble := d.preamble[..|d.preamble| - 1]), d.preamble[|d.preamble| - 1])
    else
      var before, b := d.blocks[..|d.blocks| - 1], d.blocks[|d.blocks| - 1];
      if b.body == [] then (d.(blocks := before), b.header)
      else (d.(blocks := before + [b.(body := b.body[..|b.body| - 1])]), b.body[|b.body| - 1])
  }

  lemma WithoutLastAdds(d: Document)
    requires WellFormed(d) && (d.blocks == [] ==> d.preamble != [])
    ensures WellFormed(WithoutLast(d).0) && AddLine(WithoutLast(d).0, WithoutLast(d).1) == d
  {
    if d.blocks == [] {
      InitAndLast(d.preamble);
    } else {
      var b := d.blocks[|d.blocks| - 1];
      InitAndLast(d.blocks);
      if b.body != [] {
        InitAndLast(b.body);
      } else {
        assert b == Block(b.header, []);
      }
    }
  }

  /** A document is read back from its lines. */
  lemma {:induction false} DocumentOfLines(d: Document)
    requires WellFormed(d)
    ensures DocumentOf(LinesOf(d)) == d
    decreases |LinesOf(d)|
  {
    if d.blocks != [] || d.preamble != [] {
      var (d', line) := WithoutLast(d);
      WithoutLastAdds(d);
      AddedLine(d', line);
      DocumentOfLines(d');
      assert (LinesOf(d') + [line])[..|LinesOf(d')|] == LinesOf(d');
    }
  }

  /** An edit keeps the headers, so it manages the sections of its result alike. */
  lemma {:induction false} EditKeepsHeaders(f: TunnelFields, bs: seq<Block>)
    ensures forall j :: 0 <= j < |bs| ==> EditedBlocks(f, bs)[j].header == bs[j].header
    ensures PeerCount(EditedBlocks(f, bs)) == PeerCount(bs)
    decreases |bs|
  {
    if bs != [] {
      var n := |bs| - 1;
      EditKeepsHeaders(f, bs[..n]);
      assert EditedBlocks(f, bs)[..n] == EditedBlocks(f, bs[..n]);
    }
  }

  lemma TargetIsWritable(f: TunnelFields, before: seq<Block>, header: string)
    requires Writable(f)
    ensures WritableTarget(TargetFor(f, before, header))
  {
  }

  ghost predicate WellFormedBlocks(bs: seq<Block>) {
    forall j :: 0 <= j < |bs| ==> IsHeader(bs[j].header) && NoHeaders(bs[j].body)
  }

  lemma EditedMore(f: TunnelFields, before: seq<Block>, b: Block)
    ensures EditedBlocks(f, before + [b]) == EditedBlocks(f, before) + [EditedBlock(TargetFor(f, before, b.header), b)]
  {
    assert (before + [b])[..|before|] == before;
  }

  lemma {:induction false} BlocksEditIsIdempotent(f: TunnelFields, bs: seq<Block>)
    requires Writable(f) && WellFormedBlocks(bs)
    ensures WellFormedBlocks(EditedBlocks(f, bs))
    ensures EditedBlocks(f, EditedBlocks(f, bs)) == EditedBlocks(f, bs)
    decreases |bs|
  {
    if bs != [] {
      var n := |bs| - 1;
      var before, b := bs[..n], bs[n];
      BlocksEditIsIdempotent(f, before);
      InitAndLast(bs);
      EditedMore(f, before, b);
      BlockEditRepeats(f, before, b);
    }
  }

  lemma SameTarget(f: TunnelFields, before: seq<Block>, header: string)
    ensures TargetFor(f, EditedBlocks(f, before), header) == TargetFor(f, before, header)
  {
    EditKeepsHeaders(f, before);
  }

  lemma BlockEditRepeats(f: TunnelFields, before: seq<Block>, b: Block)
    requires Writable(f) && NoHeaders(b.body)
    requires EditedBlocks(f, EditedBlocks(f, before)) == EditedBlocks(f, before)
    ensures var e := EditedBlock(TargetFor(f, before, b.header), b);
            && NoHeaders(e.body)
            && EditedBlocks(f, EditedBlocks(f, before) + [e]) == EditedBlocks(f, before) + [e]
  {
    var t := TargetFor(f, before, b.header);
    SameTarget(f, before, b.header);
    TargetIsWritable(f, before, b.header);
    EditedBodyIsStable(t, b);
    BlockEditIsIdempotent(t, b);
    EditedMore(f, EditedBlocks(f, before), EditedBlock(t, b));
  }

  // ---------------------------------------------------------------------
  // Texts
  // ---------------------------------------------------------------------

  lemma {:induction false} RewriteHasNoNewline(t: Option<Fields>, body: seq<string>)
    requires WritableTarget(t) && Free(body, '\n')
    ensures Free(RewriteBody(t, body), '\n')
    decreases |body|
  {
    if body != [] {
      var line := body[|body| - 1];
      RewriteHasNoNewline(t, body[..|body| - 1]);
      if HasKey(line) {
        TrimIsTrimmed(line);
        TrimIsTrimmed(Trim(line)[..IndexOf(Trim(line), '=')]);
      }
    }
  }

  lemma AddedHasNoNewline(m: Fields, lines: seq<string>)
    requires WritableModel(m)
    ensures Free(Added(m, lines), '\n')
  {
    var keys := Ascending(Missing(m, Present(lines)));
    MissingAreWanted(m, Present(lines));
    AssignmentsList(m, keys);
    forall i | 0 <= i < |keys|
      ensures '\n' !in Added(m, lines)[i]
    {
      assert Wanted(m, keys[i]) && KeyAllowed(keys[i]);
    }
  }

  lemma {:induction false} BlocksAreFree(bs: seq<Block>)
    requires forall j :: 0 <= j < |bs| ==> Free(BlockLines(bs[j]), '\n')
    ensures Free(BlocksLines(bs), '\n')
    decreases |bs|
  {
    if bs != [] {
      BlocksAreFree(bs[..|bs| - 1]);
    }
  }

  lemma {:induction false} FreeBlocks(bs: seq<Block>, c: char)
    requires Free(BlocksLines(bs), c)
    ensures forall j :: 0 <= j < |bs| ==> Free(BlockLines(bs[j]), c)
    decreases |bs|
  {
    if bs != [] {
      var n := |bs| - 1;
      var a, b := BlocksLines(bs[..n]), BlockLines(bs[n]);
      forall i | 0 <= i < |a| ensures c !in a[i] { assert a[i] == BlocksLines(bs)[i]; }
      forall i | 0 <= i < |b| ensures c !in b[i] { assert b[i] == BlocksLines(bs)[|a| + i]; }
      FreeBlocks(bs[..n], c);
    }
  }

  lemma EditedBlockIsFree(t: Option<Fields>, b: Block)
    requires WritableTarget(t) && Free(BlockLines(b), '\n')
    ensures Free(BlockLines(EditedBlock(t, b)), '\n')
  {
    assert b.header == BlockLines(b)[0];
    forall i | 0 <= i < |b.body| ensures '\n' !in b.body[i] { assert b.body[i] == BlockLines(b)[i + 1]; }
    RewriteHasNoNewline(t, b.body);
    if t.Some? {
      AddedHasNoNewline(t.value, BlockLines(Rewritten(t, b)));
    }
  }

  lemma {:induction false} EditedBlocksAreFree(f: TunnelFields, bs: seq<Block>)
    requires Writable(f) && forall j :: 0 <= j < |bs| ==> Free(BlockLines(bs[j]), '\n')
    ensures forall j :: 0 <= j < |bs| ==> Free(BlockLines(EditedBlocks(f, bs)[j]), '\n')
    decreases |bs|
  {
    if bs != [] {
      var n := |bs| - 1;
      EditedBlocksAreFree(f, bs[..n]);
      TargetIsWritable(f, bs[..n], bs[n].header);
      EditedBlockIsFree(TargetFor(f, bs[..n], bs[n].header), bs[n]);
    }
  }

  lemma EditKeepsWellFormed(f: TunnelFields, d: Document)
    requires Writable(f) && WellFormed(d)
    ensures WellFormed(EditedDocument(f, d)) && EditedDocument(f, EditedDocument(f, d)) == EditedDocument(f, d)
  {
    BlocksEditIsIdempotent(f, d.blocks);
  }

  /** The document of the edited text is the edited document. */
  lemma DocumentOfEdited(content: string, f: TunnelFields)
    requires Writable(f)
    ensures DocumentOf(Split(Edited(content, f), '\n')) == EditedDocument(f, DocumentOf(Split(content, '\n')))
  {
    var lines := Split(content, '\n');
    var d := DocumentOf(lines);
    var e := EditedDocument(f, d);
    DocumentHasLines(lines);
    SplitParts(content, '\n');
    DocumentIsFree(d, '\n');
    EditedBlocksAreFree(f, d.blocks);
    BlocksAreFree(e.blocks);
    EditKeepsWellFormed(f, d);
    assert LinesOf(e) != [] by { NoLineLess(f, d); }
    SplitOfJoin(LinesOf(e), '\n');
    DocumentOfLines(e);
  }

  lemma DocumentIsFree(d: Document, c: char)
    requires Free(LinesOf(d), c)
    ensures Free(d.preamble, c) && forall j :: 0 <= j < |d.blocks| ==> Free(BlockLines(d.blocks[j]), c)
  {
    var a, b := d.preamble, BlocksLines(d.blocks);
    forall i | 0 <= i < |a| ensures c !in a[i] { assert a[i] == LinesOf(d)[i]; }
    forall i | 0 <= i < |b| ensures c !in b[i] { assert b[i] == LinesOf(d)[|a| + i]; }
    FreeBlocks(d.blocks, c);
  }

  lemma NoLineLess(f: TunnelFields, d: Document)
    requires LinesOf(d) != []
    ensures LinesOf(EditedDocument(f, d)) != []
  {
    if d.blocks != [] {
      var e := EditedBlocks(f, d.blocks);
      assert |BlockLines(e[|e| - 1])| > 0;
    }
  }

  /** Applying an edit twice is applying it once. */
  lemma SetIsIdempotent(content: string, f: TunnelFields)
    requires Writable(f)
    ensures Edited(Edited(content, f), f) == Edited(content, f)
  {
    DocumentHasLines(Split(content, '\n'));
    DocumentOfEdited(content, f);
    EditKeepsWellFormed(f, DocumentOf(Split(content, '\n')));
  }

  // ---------------------------------------------------------------------
  // The lines that no model key manages
  // ---------------------------------------------------------------------

  ghost predicate IsManaged(t: Option<Fields>, line: string) {
    t.Some? && HasKey(line) && Managed(t.value, KeyAt(line)).Some?
  }

  ghost function Unmanaged(t: Option<Fields>, lines: seq<string>): seq<string> {
    if lines == [] then []
    else
      Unmanaged(t, lines[..|lines| - 1]) + if IsManaged(t, lines[|lines| - 1]) then [] else [lines[|lines| - 1]]
  }

  lemma {:induction false} UnmanagedAppend(t: Option<Fields>, a: seq<string>, b: seq<string>)
    ensures Unmanaged(t, a + b) == Unmanaged(t, a) + Unmanaged(t, b)
    decreases |b|
  {
    if b == [] {
      assert a + b == a;
    } else {
      assert (a + b)[..|a + b| - 1] == a + b[..|b| - 1];
      UnmanagedAppend(t, a, b[..|b| - 1]);
    }
  }

  lemma {:induction false} AllManaged(t: Option<Fields>, lines: seq<string>)
    requires forall i :: 0 <= i < |lines| ==> IsManaged(t, lines[i])
    ensures Unmanaged(t, lines) == []
    decreases |lines|
  {
    if lines != [] {
      AllManaged(t, lines[..|lines| - 1]);
    }
  }

  lemma RewrittenIsManaged(m: Fields, k: string, line: string)
    requires WritableModel(m) && k in m && HasKey(line) && EqualFold(k, KeyAt(line)) && m[k] != ""
    ensures IsManaged(Some(m), Assignment(KeyAt(line), m[k]))
  {
    SpellingIsClean(k, line);
    AssignmentReads(KeyAt(line), m[k]);
    ManagedIs(m, k, KeyAt(line));
  }

  lemma ManagedStaysManaged(t: Option<Fields>, line: string)
    requires WritableTarget(t) && IsManaged(t, line)
    ensures forall i :: 0 <= i < |RewriteLine(t, line)| ==> IsManaged(t, RewriteLine(t, line)[i])
  {
    var m, key := t.value, KeyAt(line);
    var k :| k in m && EqualFold(k, key) && Managed(m, key) == Some(m[k]);
    if m[k] == "" {
      assert RewriteLine(t, line) == [];
    } else {
      RewrittenIsManaged(m, k, line);
      assert RewriteLine(t, line) == [Assignment(key, m[k])];
    }
  }

  lemma RewriteKeepsLine(t: Option<Fields>, line: string)
    requires WritableTarget(t)
    ensures Unmanaged(t, RewriteLine(t, line)) == Unmanaged(t, [line])
  {
    if IsManaged(t, line) {
      ManagedStaysManaged(t, line);
      AllManaged(t, RewriteLine(t, line));
      OneManaged(t, line);
    }
  }

  lemma OneManaged(t: Option<Fields>, line: string)
    requires IsManaged(t, line)
    ensures Unmanaged(t, [line]) == []
  {
    assert [line][..0] == [];
  }

  lemma {:induction false} RewriteKeepsLines(t: Option<Fields>, body: seq<string>)
    requires WritableTarget(t)
    ensures Unmanaged(t, RewriteBody(t, body)) == Unmanaged(t, body)
    decreases |body|
  {
    if body != [] {
      var before, last := body[..|body| - 1], body[|body| - 1];
      RewriteKeepsLines(t, before);
      RewriteKeepsLine(t, last);
      UnmanagedAppend(t, RewriteBody(t, before), RewriteLine(t, last));
      UnmanagedAppend(t, before, [last]);
      InitAndLast(body);
    }
  }

  lemma AddedAreManaged(m: Fields, lines: seq<string>)
    requires WritableModel(m)
    ensures Unmanaged(Some(m), Added(m, lines)) == []
  {
    var keys := Ascending(Missing(m, Present(lines)));
    MissingAreWanted(m, Present(lines));
    AssignmentsList(m, keys);
    forall i | 0 <= i < |keys|
      ensures IsManaged(Some(m), Added(m, lines)[i])
    {
      var k := keys[i];
      WantedIsStable(m, k);
      AllowedKeyIsClean(k);
      AssignmentReads(k, m[k]);
      ManagedIs(m, k, k);
    }
    AllManaged(Some(m), Added(m, lines));
  }

  lemma BlockKeepsLines(t: Option<Fields>, b: Block)
    requires WritableTarget(t)
    ensures Unmanaged(t, EditedBlock(t, b).body) == Unmanaged(t, b.body)
  {
    RewriteKeepsLines(t, b.body);
    if t.Some? {
      var added := Added(t.value, BlockLines(Rewritten(t, b)));
      AddedAreManaged(t.value, BlockLines(Rewritten(t, b)));
      UnmanagedAppend(t, RewriteBody(t, b.body), added);
    }
  }

  /** The sections without the lines a model manages. */
  ghost function UnmanagedBlocks(f: TunnelFields, bs: seq<Block>): seq<Block> {
    if bs == [] then []
    else
      var before, b := bs[..|bs| - 1], bs[|bs| - 1];
      UnmanagedBlocks(f, before) + [b.(body := Unmanaged(TargetFor(f, before, b.header), b.body))]
  }

  lemma {:induction false} BlocksKeepLines(f: TunnelFields, bs: seq<Block>)
    requires Writable(f)
    ensures UnmanagedBlocks(f, EditedBlocks(f, bs)) == UnmanagedBlocks(f, bs)
    decreases |bs|
  {
    if bs != [] {
      var n := |bs| - 1;
      var before, b := bs[..n], bs[n];
      BlocksKeepLines(f, before);
      EditKeepsHeaders(f, before);
      TargetIsWritable(f, before, b.header);
      BlockKeepsLines(TargetFor(f, before, b.header), b);
      assert EditedBlocks(f, bs)[..n] == EditedBlocks(f, before);
    }
  }

  /** Every line before the first section, every header, and every line that no
      model key manages survives as it is, in its place and order. */
  lemma SetKeepsOtherLines(content: string, f: TunnelFields)
    requires Writable(f)
    ensures var d, d' := DocumentOf(Split(content, '\n')), DocumentOf(Split(Edited(content, f), '\n'));
            d'.preamble == d.preamble && UnmanagedBlocks(f, d'.blocks) == UnmanagedBlocks(f, d.blocks)
  {
    DocumentOfEdited(content, f);
    BlocksKeepLines(f, DocumentOf(Split(content, '\n')).blocks);
  }

  // ---------------------------------------------------------------------
  // An edited section, written out
  // ---------------------------------------------------------------------

  /** No line assigns the key, in whatever case. */
  ghost predicate Unassigned(lines: seq<string>, k: string) {
    forall j :: 0 <= j < |lines| && '=' in Trim(lines[j]) ==> Lower(KeyAt(lines[j])) != Lower(k)
  }

  lemma {:induction false} PresentIs(lines: seq<string>, k: string)
    ensures Lower(k) !in Present(lines) <==> Unassigned(lines, k)
    decreases |lines|
  {
    if lines != [] {
      var before, n := lines[..|lines| - 1], |lines| - 1;
      PresentIs(before, k);
      assert forall j :: 0 <= j < n ==> before[j] == lines[j];
      if Unassigned(lines, k) {
        assert Unassigned(before, k);
      }
    }
  }

  lemma {:induction false} AssignmentsAre(m: Fields, keys: seq<string>)
    requires forall k :: k in keys ==> k in m
    ensures |Assignments(m, keys)| == |keys|
    ensures forall i :: 0 <= i < |keys| ==> Assignments(m, keys)[i] == keys[i] + " = " + m[keys[i]]
    decreases |keys|
  {
    if keys != [] {
      var before, n := keys[..|keys| - 1], |keys| - 1;
      AssignmentsAre(m, before);
      assert keys[n] in keys && forall i :: 0 <= i < n ==> before[i] == keys[i];
    }
  }

  /** The lines put at the end of a section: one for each key of the model that
      has a value and no line, in ascending order. */
  lemma AddedTells(m: Fields, lines: seq<string>) returns (keys: seq<string>)
    ensures IsAscending(keys) && (forall k :: k in keys <==> k in m && m[k] != "" && Unassigned(lines, k))
    ensures |Added(m, lines)| == |keys|
    ensures forall i :: 0 <= i < |keys| ==> keys[i] in keys && Added(m, lines)[i] == keys[i] + " = " + m[keys[i]]
  {
    keys := Ascending(Missing(m, Present(lines)));
    forall k ensures k in keys <==> k in m && m[k] != "" && Unassigned(lines, k) {
      PresentIs(lines, k);
    }
    AssignmentsAre(m, keys);
  }

  /** A line that assigns a key of the model is given its value, or goes if that
      is empty; any other line stays. */
  lemma LineTells(m: Fields, line: string, k: string)
    requires CaseDistinct(m)
    ensures '=' !in Trim(line) ==> RewriteLine(Some(m), line) == [line]
    ensures '=' in Trim(line) && (forall j :: j in m ==> Lower(j) != Lower(KeyAt(line))) ==> RewriteLine(Some(m), line) == [line]
    ensures '=' in Trim(line) && k in m && Lower(k) == Lower(KeyAt(line)) ==>
              RewriteLine(Some(m), line) == if m[k] == "" then [] else [KeyAt(line) + " = " + m[k]]
  {
    if HasKey(line) && k in m && EqualFold(k, KeyAt(line)) {
      ManagedIs(m, k, KeyAt(line));
    }
  }

  /** The key and the value of a line stand before and after its first sign. */
  lemma KeyAndValueAre(line: string, a: string, b: string)
    requires Trim(line) == a + "=" + b && '=' !in a
    ensures HasKey(line) && KeyAt(line) == Trim(a) && ValueAt(line) == Trim(b)
  {
    IndexOfFirst(a, '=', b);
    var t := Trim(line);
    assert t[|a|] == '=' && t[..|a|] == a && t[|a| + 1..] == b;
  }

  /** An edited section: its header, its lines one by one, and the added ones. */
  lemma {:induction false} SectionTells(m: Fields, header: string, body: seq<string>, line: string)
    ensures var e := EditedBlock(Some(m), Block(header, body));
            e.header == header && e.body == RewriteBody(Some(m), body) + Added(m, [header] + RewriteBody(Some(m), body))
    ensures RewriteBody(Some(m), []) == []
    ensures RewriteBody(Some(m), body + [line]) == RewriteBody(Some(m), body) + RewriteLine(Some(m), line)
    ensures EditedBlock(None, Block(header, body)).header == header && RewriteLine(None, line) == [line]
  {
    assert (body + [line])[..|body|] == body;
  }
}
