/** Editing fields in the text is setting them in the parsed configuration. */
module FieldParsing {
  import opened Wrappers
  import opened Text
  import opened StringOrder
  import opened FieldEditor
  import opened FieldEditorLaws
  import opened FieldReading
  import opened SectionParsing
  import opened SectionValues

  // ---------------------------------------------------------------------
  // The values of a section after an edit
  // ---------------------------------------------------------------------

  /** `n` times the same value. */
  function Rep(v: string, n: nat): (r: seq<string>)
    ensures |r| == n
  {
    if n == 0 then [] else Rep(v, n - 1) + [v]
  }

  lemma {:induction false} RepAppend(v: string, m: nat, n: nat)
    ensures Rep(v, m) + Rep(v, n) == Rep(v, m + n)
    decreases n
  {
    if n > 0 {
      RepAppend(v, m, n - 1);
      assert Rep(v, m) + Rep(v, n) == Rep(v, m) + Rep(v, n - 1) + [v];
    }
  }

  /** The lines that a key with a value has after an edit of a section where it had `n`. */
  function Slots(n: nat): nat { if n == 0 then 1 else n }

  ghost function Rewrites(m: Fields, name: string, vs: seq<string>): seq<string> {
    match Managed(m, name) case None => vs case Some(v) => if v == "" then [] else Rep(v, |vs|)
  }

  ghost function Edits(m: Fields, name: string, vs: seq<string>): seq<string> {
    match Managed(m, name) case None => vs case Some(v) => if v == "" then [] else Rep(v, Slots(|vs|))
  }

  lemma RewritesAppend(m: Fields, name: string, a: seq<string>, b: seq<string>)
    ensures Rewrites(m, name, a + b) == Rewrites(m, name, a) + Rewrites(m, name, b)
  {
    if v :| Managed(m, name) == Some(v) {
      RepAppend(v, |a|, |b|);
    }
  }

  lemma ManagedByCase(m: Fields, a: string, b: string)
    requires CaseDistinct(m) && EqualFold(a, b)
    ensures Managed(m, a) == Managed(m, b)
  {
    if k :| k in m && EqualFold(k, a) {
      ManagedIs(m, k, a);
      ManagedIs(m, k, b);
    }
  }

  lemma OneValue(p: Pair, low: string)
    ensures ValuesOf([p], low) == if Lower(p.0) == low then [p.1] else []
  {
    var none: seq<Pair> := [];
    assert [p][..0] == none && ValuesOf(none, low) == [];
  }

  lemma OneLine(line: string)
    ensures PairsOf([line]) == PairOf(line) && PairsOf([]) == []
  {
    var none: seq<string> := [];
    assert [line][..0] == none && PairsOf(none) == [];
  }

  lemma OnePair(line: string, low: string)
    ensures PairsOf([line]) == PairOf(line) && PairsOf([]) == []
    ensures ValuesOf(PairOf(line), low) == if PairOf(line) != [] && Lower(KeyAt(line)) == low then [ValueAt(line)] else []
  {
    OneLine(line);
    if PairOf(line) != [] {
      OneValue((KeyAt(line), ValueAt(line)), low);
    }
  }

  lemma AssignmentIsPair(key: string, v: string, low: string)
    requires CleanSpelling(key) && NoCommentSign(key) && Trimmed(v)
    ensures PairOf(Assignment(key, v)) == [(key, v)] == PairsOf([Assignment(key, v)])
    ensures ValuesOf([(key, v)], low) == if Lower(key) == low then [v] else []
  {
    AssignmentReads(key, v);
    TrimmedStays(v);
    OnePair(Assignment(key, v), low);
  }

  lemma ManagedLineValues(m: Fields, line: string, name: string)
    requires CleanModel(m) && IsManaged(Some(m), line)
    ensures ValuesOf(PairsOf(RewriteLine(Some(m), line)), Lower(name)) == Rewrites(m, name, ValuesOf(PairOf(line), Lower(name)))
  {
    var key, v, low := KeyAt(line), Managed(m, KeyAt(line)).value, Lower(name);
    OnePair(line, low);
    if Lower(key) == low {
      ManagedByCase(m, key, name);
    }
    if v == "" {
      assert RewriteLine(Some(m), line) == [];
    } else {
      var k :| k in m && EqualFold(k, key) && m[k] == v;
      assert Wanted(m, k);
      SpellingIsClean(k, line);
      CleanKeyIsNoComment(line);
      AssignmentIsPair(key, v, low);
      assert RewriteLine(Some(m), line) == [Assignment(key, v)];
      assert Rep(v, 1) == [v] && Rep(v, 0) == [];
    }
  }

  lemma LineValues(m: Fields, line: string, name: string)
    requires CleanModel(m)
    ensures ValuesOf(PairsOf(RewriteLine(Some(m), line)), Lower(name)) == Rewrites(m, name, ValuesOf(PairOf(line), Lower(name)))
  {
    if IsManaged(Some(m), line) {
      ManagedLineValues(m, line, name);
    } else {
      OnePair(line, Lower(name));
      if PairOf(line) != [] && Lower(KeyAt(line)) == Lower(name) {
        ManagedByCase(m, KeyAt(line), name);
      }
    }
  }

  lemma {:induction false} RewrittenValues(m: Fields, body: seq<string>, name: string)
    requires CleanModel(m)
    ensures ValuesOf(PairsOf(RewriteBody(Some(m), body)), Lower(name)) == Rewrites(m, name, ValuesOf(PairsOf(body), Lower(name)))
    decreases |body|
  {
    if body != [] {
      var before, last, low := body[..|body| - 1], body[|body| - 1], Lower(name);
      RewrittenValues(m, before, name);
      LineValues(m, last, name);
      PairsAppend(RewriteBody(Some(m), before), RewriteLine(Some(m), last));
      ValuesAppend(PairsOf(RewriteBody(Some(m), before)), PairsOf(RewriteLine(Some(m), last)), low);
      ValuesAppend(PairsOf(before), PairOf(last), low);
      RewritesAppend(m, name, ValuesOf(PairsOf(before), low), ValuesOf(PairOf(last), low));
    }
  }

  /** A clean key is present exactly when it has a value. */
  lemma {:induction false} PresentExactly(k: string, lines: seq<string>)
    requires KeyAllowed(k) && NoCommentSign(k)
    ensures Lower(k) in Present(lines) <==> ValuesOf(PairsOf(lines), Lower(k)) != []
    decreases |lines|
  {
    if lines != [] {
      var before, last := lines[..|lines| - 1], lines[|lines| - 1];
      PresentExactly(k, before);
      ValuesAppend(PairsOf(before), PairOf(last), Lower(k));
      OnePair(last, Lower(k));
      if HasKey(last) && Lower(KeyAt(last)) == Lower(k) {
        SpellingIsClean(k, last);
        CleanKeyIsNoComment(last);
      }
    }
  }

  lemma OneMoreAssigned(m: Fields, before: seq<string>, k: string, low: string)
    requires CleanModel(m) && Wanted(m, k)
    ensures ValuesOf(PairsOf(Assignments(m, before + [k])), low) ==
            ValuesOf(PairsOf(Assignments(m, before)), low) + if Lower(k) == low then [m[k]] else []
  {
    var line := Assignment(k, m[k]);
    assert (before + [k])[..|before|] == before;
    AllowedKeyIsClean(k);
    AssignmentIsPair(k, m[k], low);
    PairsAppend(Assignments(m, before), [line]);
    ValuesAppend(PairsOf(Assignments(m, before)), PairsOf([line]), low);
  }

  lemma {:induction false} NotAssigned(m: Fields, keys: seq<string>, low: string)
    requires CleanModel(m) && forall i :: 0 <= i < |keys| ==> Wanted(m, keys[i]) && Lower(keys[i]) != low
    ensures ValuesOf(PairsOf(Assignments(m, keys)), low) == []
    decreases |keys|
  {
    if keys != [] {
      NotAssigned(m, keys[..|keys| - 1], low);
      InitAndLast(keys);
      OneMoreAssigned(m, keys[..|keys| - 1], keys[|keys| - 1], low);
    }
  }

  lemma AssignedLast(m: Fields, before: seq<string>, k: string)
    requires CleanModel(m) && Wanted(m, k) && k !in before && forall j :: 0 <= j < |before| ==> Wanted(m, before[j])
    ensures ValuesOf(PairsOf(Assignments(m, before + [k])), Lower(k)) == [m[k]]
  {
    forall j | 0 <= j < |before|
      ensures Lower(before[j]) != Lower(k)
    {
      assert before[j] in before && !EqualFold(before[j], k);
    }
    NotAssigned(m, before, Lower(k));
    OneMoreAssigned(m, before, k, Lower(k));
  }

  lemma {:induction false} AssignedOnce(m: Fields, keys: seq<string>, i: nat)
    requires CleanModel(m) && i < |keys| && forall j :: 0 <= j < |keys| ==> Wanted(m, keys[j])
    requires forall i, j :: 0 <= i < j < |keys| ==> keys[i] != keys[j]
    ensures ValuesOf(PairsOf(Assignments(m, keys)), Lower(keys[i])) == [m[keys[i]]]
    decreases |keys|
  {
    var before, k := keys[..|keys| - 1], keys[|keys| - 1];
    InitAndLast(keys);
    if i < |before| {
      AssignedOnce(m, before, i);
      assert !EqualFold(keys[i], k);
      OneMoreAssigned(m, before, k, Lower(keys[i]));
    } else {
      AssignedLast(m, before, k);
    }
  }

  lemma AscendingIsDistinct(keys: seq<string>)
    requires IsAscending(keys)
    ensures forall i, j :: 0 <= i < j < |keys| ==> keys[i] != keys[j]
  {
    forall i, j | 0 <= i < j < |keys|
      ensures keys[i] != keys[j]
    {
      LessIsTotal(keys[i], keys[j]);
    }
  }

  /** What the lines put in add: the value of a key that has none. */
  lemma AddedValues(m: Fields, lines: seq<string>, name: string)
    requires CleanModel(m)
    ensures ValuesOf(PairsOf(Added(m, lines)), Lower(name)) ==
            match Managed(m, name)
            case None => []
            case Some(v) => if v == "" || ValuesOf(PairsOf(lines), Lower(name)) != [] then [] else [v]
  {
    var low, keys := Lower(name), Ascending(Missing(m, Present(lines)));
    MissingAreWanted(m, Present(lines));
    AscendingIsDistinct(keys);
    if i :| 0 <= i < |keys| && Lower(keys[i]) == low {
      assert keys[i] in keys;
      ManagedIs(m, keys[i], name);
      PresentExactly(keys[i], lines);
      AssignedOnce(m, keys, i);
    } else {
      NotAssigned(m, keys, low);
      if Managed(m, name).Some? && Managed(m, name).value != "" {
        var k :| k in m && EqualFold(k, name) && m[k] == Managed(m, name).value;
        PresentExactly(k, lines);
        assert k !in keys;
      }
    }
  }

  /** The values of a key in an edited section. */
  lemma EditedValues(m: Fields, b: Block, name: string)
    requires CleanModel(m) && KindOf(b.header) != OtherSection
    ensures ValuesOf(PairsOf(EditedBlock(Some(m), b).body), Lower(name)) == Edits(m, name, ValuesOf(PairsOf(b.body), Lower(name)))
  {
    var r, low := Rewritten(Some(m), b), Lower(name);
    RewrittenValues(m, b.body, name);
    AddedValues(m, BlockLines(r), name);
    HeaderHasNoKey(b.header);
    PairsAppend([r.header], r.body);
    OnePair(r.header, low);
    assert [] + PairsOf(r.body) == PairsOf(r.body);
    PairsAppend(r.body, Added(m, BlockLines(r)));
    ValuesAppend(PairsOf(r.body), PairsOf(Added(m, BlockLines(r))), low);
  }

  // ---------------------------------------------------------------------
  // The values of a whole text
  // ---------------------------------------------------------------------

  /** The lines that a key with a value has in the [Interface] sections after an edit. */
  function Places(bs: seq<Block>, low: string): nat {
    if bs == [] then 0
    else
      var b := bs[|bs| - 1];
      Places(bs[..|bs| - 1], low) + if KindOf(b.header) == InterfaceSection then Slots(|ValuesOf(PairsOf(b.body), low)|) else 0
  }

  lemma OneMorePlace(before: seq<Block>, b: Block, low: string)
    ensures Places(before + [b], low) ==
            Places(before, low) + if KindOf(b.header) == InterfaceSection then Slots(|ValuesOf(PairsOf(b.body), low)|) else 0
  {
    assert (before + [b])[..|before|] == before;
  }

  /** The values of a key after an edit of [Interface] sections that have `places` lines for it then. */
  ghost function AllEdits(m: Fields, name: string, vs: seq<string>, places: nat): seq<string> {
    match Managed(m, name) case None => vs case Some(v) => if v == "" then [] else Rep(v, places)
  }

  /** `a` edited is `x`, `b` edited is `y`: both in a row. */
  lemma EditsInRow(m: Fields, name: string, a: seq<string>, n: nat, x: seq<string>, b: seq<string>, y: seq<string>,
                   c: seq<string>, z: seq<string>, k: nat)
    requires x == AllEdits(m, name, a, n) && y == Edits(m, name, b)
    requires c == a + b && z == x + y && k == n + Slots(|b|)
    ensures z == AllEdits(m, name, c, k)
  {
    if v :| Managed(m, name) == Some(v) {
      RepAppend(v, n, Slots(|b|));
    }
  }

  ghost predicate ValuesEdited(m: Fields, name: string, bs: seq<Block>, es: seq<Block>) {
    ValuesOf(InterfacePairs(es), Lower(name)) == AllEdits(m, name, ValuesOf(InterfacePairs(bs), Lower(name)), Places(bs, Lower(name)))
  }

  lemma ValuesOfSection(before: seq<Block>, b: Block, low: string)
    requires KindOf(b.header) == InterfaceSection
    ensures ValuesOf(InterfacePairs(before + [b]), low) == ValuesOf(InterfacePairs(before), low) + ValuesOf(PairsOf(b.body), low)
    ensures Places(before + [b], low) == Places(before, low) + Slots(|ValuesOf(PairsOf(b.body), low)|)
  {
    OneMoreSection(before, b);
    OneMorePlace(before, b, low);
    ValuesAppend(InterfacePairs(before), PairsOf(b.body), low);
  }

  lemma SectionIsEdited(m: Fields, name: string, before: seq<Block>, es: seq<Block>, b: Block, e: Block)
    requires KindOf(b.header) == InterfaceSection && e.header == b.header && ValuesEdited(m, name, before, es)
    requires ValuesOf(PairsOf(e.body), Lower(name)) == Edits(m, name, ValuesOf(PairsOf(b.body), Lower(name)))
    ensures ValuesEdited(m, name, before + [b], es + [e])
  {
    var low := Lower(name);
    ValuesOfSection(before, b, low);
    ValuesOfSection(es, e, low);
    EditsInRow(m, name, ValuesOf(InterfacePairs(before), low), Places(before, low), ValuesOf(InterfacePairs(es), low),
               ValuesOf(PairsOf(b.body), low), ValuesOf(PairsOf(e.body), low),
               ValuesOf(InterfacePairs(before + [b]), low), ValuesOf(InterfacePairs(es + [e]), low), Places(before + [b], low));
  }

  lemma OtherSectionIsEdited(m: Fields, name: string, before: seq<Block>, es: seq<Block>, b: Block, e: Block)
    requires KindOf(b.header) != InterfaceSection && e.header == b.header && ValuesEdited(m, name, before, es)
    ensures ValuesEdited(m, name, before + [b], es + [e])
  {
    OneMoreSection(before, b);
    OneMoreSection(es, e);
    OneMorePlace(before, b, Lower(name));
  }

  lemma {:induction false} InterfaceValues(f: TunnelFields, bs: seq<Block>, name: string)
    requires CleanFields(f) && KnownBlocks(bs)
    ensures ValuesEdited(f.iface, name, bs, EditedBlocks(f, bs))
    decreases |bs|
  {
    if bs == [] {
      assert Rep("", 0) == [];
    } else {
      var before, b := bs[..|bs| - 1], bs[|bs| - 1];
      InterfaceValues(f, before, name);
      InitAndLast(bs);
      EditedMore(f, before, b);
      if KindOf(b.header) == InterfaceSection {
        EditedValues(f.iface, b, name);
        SectionIsEdited(f.iface, name, before, EditedBlocks(f, before), b, EditedBlock(Some(f.iface), b));
      } else {
        OtherSectionIsEdited(f.iface, name, before, EditedBlocks(f, before), b, EditedBlock(TargetFor(f, before, b.header), b));
      }
    }
  }

  ghost predicate PeerEdited(f: TunnelFields, j: nat, ps: seq<Pair>, ps': seq<Pair>) {
    if j < |f.peers| then forall name :: ValuesOf(ps', Lower(name)) == Edits(f.peers[j], name, ValuesOf(ps, Lower(name)))
    else ps' == ps
  }

  ghost predicate PeersEdited(f: TunnelFields, pss: seq<seq<Pair>>, pss': seq<seq<Pair>>) {
    |pss'| == |pss| && forall j :: 0 <= j < |pss| ==> PeerEdited(f, j, pss[j], pss'[j])
  }

  lemma PeersEditedMore(f: TunnelFields, pss: seq<seq<Pair>>, pss': seq<seq<Pair>>, ps: seq<Pair>, ps': seq<Pair>)
    requires PeersEdited(f, pss, pss') && PeerEdited(f, |pss|, ps, ps')
    ensures PeersEdited(f, pss + [ps], pss' + [ps'])
  {
  }

  lemma BlockIsEdited(f: TunnelFields, j: nat, b: Block)
    requires CleanFields(f) && KindOf(b.header) == PeerSection
    ensures PeerEdited(f, j, PairsOf(b.body), PairsOf(EditedBlock(if j < |f.peers| then Some(f.peers[j]) else None, b).body))
  {
    if j < |f.peers| {
      forall name
        ensures ValuesOf(PairsOf(EditedBlock(Some(f.peers[j]), b).body), Lower(name)) ==
                Edits(f.peers[j], name, ValuesOf(PairsOf(b.body), Lower(name)))
      {
        EditedValues(f.peers[j], b, name);
      }
    } else {
      UntouchedBlock(b);
    }
  }

  lemma {:induction false} PeerValues(f: TunnelFields, bs: seq<Block>)
    requires CleanFields(f) && KnownBlocks(bs)
    ensures |PeerPairs(bs)| == PeerCount(bs) && PeersEdited(f, PeerPairs(bs), PeerPairs(EditedBlocks(f, bs)))
    decreases |bs|
  {
    if bs != [] {
      var before, b := bs[..|bs| - 1], bs[|bs| - 1];
      var t := TargetFor(f, before, b.header);
      PeerValues(f, before);
      InitAndLast(bs);
      EditedMore(f, before, b);
      OneMoreSection(before, b);
      OneMoreSection(EditedBlocks(f, before), EditedBlock(t, b));
      if KindOf(b.header) == PeerSection {
        BlockIsEdited(f, PeerCount(before), b);
        PeersEditedMore(f, PeerPairs(before), PeerPairs(EditedBlocks(f, before)), PairsOf(b.body), PairsOf(EditedBlock(t, b).body));
      }
    }
  }
}
