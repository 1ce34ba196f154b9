/** The field editor: reading the keys of a .conf text, and rewriting the keys
    a model manages while every other line stays as it is. */
module FieldEditor {
  import opened Wrappers
  import opened Text
  import opened StringOrder

  // ---------------------------------------------------------------------
  // Lines and sections
  // ---------------------------------------------------------------------

  predicate IsHeader(line: string) { HasPrefix(Trim(line), "[") }

  datatype Kind = OtherSection | InterfaceSection | PeerSection

  function KindOf(header: string): Kind {
    if EqualFold(Trim(header), "[interface]") then InterfaceSection
    else if EqualFold(Trim(header), "[peer]") then PeerSection
    else OtherSection
  }

  predicate HasKey(line: string) { '=' in Trim(line) }

  function KeyAt(line: string): string
    requires HasKey(line)
  {
    var t := Trim(line);
    Trim(t[..IndexOf(t, '=')])
  }

  function ValueAt(line: string): string
    requires HasKey(line)
  {
    var t := Trim(line);
    Trim(t[IndexOf(t, '=') + 1..])
  }

  predicate IsComment(line: string) {
    var t := Trim(line);
    t == "" || HasPrefix(t, "#") || HasPrefix(t, ";")
  }

  /** A header line and the lines up to the next one. */
  datatype Block = Block(header: string, body: seq<string>)

  datatype Document = Document(preamble: seq<string>, blocks: seq<Block>)

  function AddLine(d: Document, line: string): Document {
    if IsHeader(line) then d.(blocks := d.blocks + [Block(line, [])])
    else if d.blocks == [] then d.(preamble := d.preamble + [line])
    else
      var last := d.blocks[|d.blocks| - 1];
      d.(blocks := d.blocks[|d.blocks| - 1 := last.(body := last.body + [line])])
  }

  function DocumentOf(lines: seq<string>): Document {
    if lines == [] then Document([], []) else AddLine(DocumentOf(lines[..|lines| - 1]), lines[|lines| - 1])
  }

  function BlockLines(b: Block): seq<string> { [b.header] + b.body }

  function BlocksLines(bs: seq<Block>): seq<string> {
    if bs == [] then [] else BlocksLines(bs[..|bs| - 1]) + BlockLines(bs[|bs| - 1])
  }

  function LinesOf(d: Document): seq<string> { d.preamble + BlocksLines(d.blocks) }

  lemma DocumentMore(lines: seq<string>, n: nat)
    requires n < |lines|
    ensures DocumentOf(lines[..n + 1]) == AddLine(DocumentOf(lines[..n]), lines[n])
  {
    assert lines[..n + 1][..n] == lines[..n];
  }

  // ---------------------------------------------------------------------
  // Reading the fields
  // ---------------------------------------------------------------------

  type Fields = map<string, string>

  datatype TunnelFields = TunnelFields(iface: Fields, peers: seq<Fields>)

  function ReadLine(m: Fields, line: string): Fields {
    if !IsComment(line) && HasKey(line) then m[KeyAt(line) := ValueAt(line)] else m
  }

  function ReadBody(m: Fields, body: seq<string>): Fields {
    if body == [] then m else ReadLine(ReadBody(m, body[..|body| - 1]), body[|body| - 1])
  }

  function ReadBlock(f: TunnelFields, b: Block): TunnelFields {
    match KindOf(b.header)
    case InterfaceSection => f.(iface := ReadBody(f.iface, b.body))
    case PeerSection => f.(peers := f.peers + [ReadBody(map[], b.body)])
    case OtherSection => f
  }

  function ReadBlocks(bs: seq<Block>): TunnelFields {
    if bs == [] then TunnelFields(map[], []) else ReadBlock(ReadBlocks(bs[..|bs| - 1]), bs[|bs| - 1])
  }

  function FieldsOf(content: string): TunnelFields { ReadBlocks(DocumentOf(Split(content, '\n')).blocks) }

  function LastKind(bs: seq<Block>): Kind {
    if bs == [] then OtherSection else KindOf(bs[|bs| - 1].header)
  }

  /** What a line that is no header does, in a section of the given kind. */
  function Store(f: TunnelFields, kind: Kind, line: string): TunnelFields {
    match kind
    case InterfaceSection => f.(iface := ReadLine(f.iface, line))
    case PeerSection =>
      if f.peers == [] then f
      else f.(peers := f.peers[|f.peers| - 1 := ReadLine(f.peers[|f.peers| - 1], line)])
    case OtherSection => f
  }

  lemma ReadMore(d: Document, line: string)
    ensures var f, f' := ReadBlocks(d.blocks), ReadBlocks(AddLine(d, line).blocks);
            f' == if !IsHeader(line) then Store(f, LastKind(d.blocks), line)
                  else if KindOf(line) == PeerSection then f.(peers := f.peers + [map[]])
                  else f
    ensures LastKind(d.blocks) == PeerSection ==> ReadBlocks(d.blocks).peers != []
    ensures LastKind(AddLine(d, line).blocks) == if IsHeader(line) then KindOf(line) else LastKind(d.blocks)
  {
    var bs, bs' := d.blocks, AddLine(d, line).blocks;
    if IsHeader(line) {
      assert bs'[..|bs|] == bs;
    } else if bs != [] {
      var n := |bs| - 1;
      assert bs'[..n] == bs[..n];
      assert bs'[n].body[..|bs[n].body|] == bs[n].body;
    }
  }

  /** What one more line does to the fields read so far. */
  lemma ReadStep(lines: seq<string>, n: nat)
    requires n < |lines|
    ensures var bs, line := DocumentOf(lines[..n]).blocks, lines[n];
            var f, f' := ReadBlocks(bs), ReadBlocks(DocumentOf(lines[..n + 1]).blocks);
            && f' == (if !IsHeader(line) then Store(f, LastKind(bs), line)
                      else if KindOf(line) == PeerSection then f.(peers := f.peers + [map[]])
                      else f)
            && LastKind(DocumentOf(lines[..n + 1]).blocks) == if IsHeader(line) then KindOf(line) else LastKind(bs)
  {
    DocumentMore(lines, n);
    ReadMore(DocumentOf(lines[..n]), lines[n]);
  }

  lemma CommentIsNoHeader(line: string)
    requires IsComment(line)
    ensures !IsHeader(line)
  {
    var t := Trim(line);
    if t != "" {
      assert t[..1] == [t[0]];
    }
  }

  method StoreField(iface: Fields, peers: seq<Fields>, section: Kind, key: string, val: string, ghost line: string)
    returns (iface': Fields, peers': seq<Fields>)
    requires !IsComment(line) && HasKey(line) && key == KeyAt(line) && val == ValueAt(line)
    ensures TunnelFields(iface', peers') == Store(TunnelFields(iface, peers), section, line)
  {
    iface', peers' := iface, peers;
    match section
    case InterfaceSection =>
      iface' := iface[key := val];
    case PeerSection =>
      if |peers| > 0 {
        peers' := peers[|peers| - 1 := peers[|peers| - 1][key := val]];
      }
    case OtherSection =>
  }

  method GetTunnelFields(content: string) returns (fields: TunnelFields)
    ensures fields == FieldsOf(content)
  {
    var lines := Split(content, '\n');
    var iface: Fields, peers: seq<Fields>, section := map[], [], OtherSection;
    for n := 0 to |lines|
      invariant section == LastKind(DocumentOf(lines[..n]).blocks)
      invariant TunnelFields(iface, peers) == ReadBlocks(DocumentOf(lines[..n]).blocks)
    {
      var line := lines[n];
      ReadStep(lines, n);
      var trimmed := Trim(line);
      if trimmed == "" || HasPrefix(trimmed, "#") || HasPrefix(trimmed, ";") {
        CommentIsNoHeader(line);
        continue;
      }
      if HasPrefix(trimmed, "[") {
        section := KindOf(line);
        if section == PeerSection {
          peers := peers + [map[]];
        }
        continue;
      }
      var eq := IndexOf(trimmed, '=');
      if eq == |trimmed| {
        continue;
      }
      var key, val := Trim(trimmed[..eq]), Trim(trimmed[eq + 1..]);
      iface, peers := StoreField(iface, peers, section, key, val, line);
    }
    assert lines[..|lines|] == lines;
    fields := TunnelFields(iface, peers);
  }

  // ---------------------------------------------------------------------
  // What a rewrite gives
  // ---------------------------------------------------------------------

  /** No two keys differ in case only. */
  ghost predicate CaseDistinct(m: Fields) { forall j, k :: j in m && k in m && EqualFold(j, k) ==> j == k }

  /** The model value for a key of the text, whatever its case. */
  ghost function Managed(m: Fields, key: string): (r: Option<string>)
    ensures r.None? ==> forall k :: k in m ==> !EqualFold(k, key)
    ensures r.Some? ==> exists k :: k in m && EqualFold(k, key) && m[k] == r.value
  {
    if k :| k in m && EqualFold(k, key) then Some(m[k]) else None
  }

  lemma ManagedIs(m: Fields, k: string, key: string)
    requires CaseDistinct(m) && k in m && EqualFold(k, key)
    ensures Managed(m, key) == Some(m[k])
  {
    var k' :| k' in m && EqualFold(k', key) && Managed(m, key) == Some(m[k']);
  }

  method LookupManagedKey(target: Fields, key: string) returns (r: Option<string>)
    ensures r.None? <==> forall k :: k in target ==> !EqualFold(k, key)
    ensures r.Some? ==> exists k :: k in target && EqualFold(k, key) && target[k] == r.value
    ensures CaseDistinct(target) ==> r == Managed(target, key)
  {
    var rest := target.Keys;
    while rest != {}
      invariant forall k :: k in target && k !in rest ==> !EqualFold(k, key)
    {
      var k :| k in rest;
      if k in target && EqualFold(k, key) {
        ghost var unique := CaseDistinct(target);
        if unique {
          ManagedIs(target, k, key);
        }
        return Some(target[k]);
      }
      rest := rest - {k};
    }
    return None;
  }

  /** One line of a section managed by `target`: rewritten, deleted or kept. */
  ghost function RewriteLine(target: Option<Fields>, line: string): seq<string> {
    if target.None? || !HasKey(line) then [line]
    else
      match Managed(target.value, KeyAt(line))
      case None => [line]
      case Some(v) => if v == "" then [] else [Assignment(KeyAt(line), v)]
  }

  ghost function RewriteBody(target: Option<Fields>, body: seq<string>): seq<string> {
    if body == [] then []
    else RewriteBody(target, body[..|body| - 1]) + RewriteLine(target, body[|body| - 1])
  }

  /** The keys assigned in some lines, in lower case. */
  function Present(lines: seq<string>): set<string> {
    if lines == [] then {}
    else
      var last := lines[|lines| - 1];
      Present(lines[..|lines| - 1]) + if HasKey(last) then {Lower(KeyAt(last))} else {}
  }

  function Missing(m: Fields, present: set<string>): set<string> {
    set k | k in m && m[k] != "" && Lower(k) !in present
  }

  /** Indexing a Go map: the zero value for a key it does not have. */
  function ValueIn(m: Fields, key: string): string { if key in m then m[key] else "" }

  function Assignments(m: Fields, keys: seq<string>): seq<string> {
    if keys == [] then []
    else Assignments(m, keys[..|keys| - 1]) + [Assignment(keys[|keys| - 1], ValueIn(m, keys[|keys| - 1]))]
  }

  /** The lines appended to a section, in key order. */
  ghost function Added(m: Fields, lines: seq<string>): seq<string> {
    Assignments(m, Ascending(Missing(m, Present(lines))))
  }

  ghost function Rewritten(target: Option<Fields>, b: Block): Block { b.(body := RewriteBody(target, b.body)) }

  ghost function EditedBlock(target: Option<Fields>, b: Block): Block {
    var r := Rewritten(target, b);
    match target
    case None => r
    case Some(m) => r.(body := r.body + Added(m, BlockLines(r)))
  }

  function PeerCount(bs: seq<Block>): nat {
    if bs == [] then 0
    else PeerCount(bs[..|bs| - 1]) + if KindOf(bs[|bs| - 1].header) == PeerSection then 1 else 0
  }

  /** What manages a section headed `header`, after `before` others. */
  function TargetFor(f: TunnelFields, before: seq<Block>, header: string): Option<Fields> {
    match KindOf(header)
    case InterfaceSection => Some(f.iface)
    case PeerSection => if PeerCount(before) < |f.peers| then Some(f.peers[PeerCount(before)]) else None
    case OtherSection => None
  }

  ghost function RewrittenBlocks(f: TunnelFields, bs: seq<Block>): (r: seq<Block>)
    ensures |r| == |bs|
  {
    if bs == [] then []
    else
      var before, b := bs[..|bs| - 1], bs[|bs| - 1];
      RewrittenBlocks(f, before) + [Rewritten(TargetFor(f, before, b.header), b)]
  }

  ghost function EditedBlocks(f: TunnelFields, bs: seq<Block>): (r: seq<Block>)
    ensures |r| == |bs|
  {
    if bs == [] then []
    else
      var before, b := bs[..|bs| - 1], bs[|bs| - 1];
      EditedBlocks(f, before) + [EditedBlock(TargetFor(f, before, b.header), b)]
  }

  ghost function RewrittenLines(f: TunnelFields, d: Document): seq<string> {
    d.preamble + BlocksLines(RewrittenBlocks(f, d.blocks))
  }

  ghost function EditedDocument(f: TunnelFields, d: Document): Document {
    d.(blocks := EditedBlocks(f, d.blocks))
  }

  predicate IsForbidden(c: char) { c == '[' || c == ']' || c == '=' || c == '\n' || c == '\r' }

  predicate KeyAllowed(key: string) { key != "" && forall i :: 0 <= i < |key| ==> !IsForbidden(key[i]) }

  predicate KeysAllowed(m: Fields) { forall k :: k in m ==> KeyAllowed(k) }

  predicate AllKeysAllowed(f: TunnelFields) {
    KeysAllowed(f.iface) && forall j :: 0 <= j < |f.peers| ==> KeysAllowed(f.peers[j])
  }

  ghost predicate AllCaseDistinct(f: TunnelFields) {
    CaseDistinct(f.iface) && forall j :: 0 <= j < |f.peers| ==> CaseDistinct(f.peers[j])
  }

  /** The edited text: each section's header, its rewritten body, then the keys
      it lacked in ascending order. */
  ghost function Edited(content: string, f: TunnelFields): string {
    Join(LinesOf(EditedDocument(f, DocumentOf(Split(content, '\n')))), "\n")
  }

  // ---------------------------------------------------------------------
  // The rewrite pass
  // ---------------------------------------------------------------------

  /** The lines of a section in the result, and what manages it. */
  datatype Span = Span(start: nat, end: nat, target: Option<Fields>)

  /** The span of the last section, after `pre` lines of preamble. */
  ghost function SpanOf(f: TunnelFields, pre: nat, bs: seq<Block>): Span
    requires bs != []
  {
    var before, b := bs[..|bs| - 1], bs[|bs| - 1];
    Span(pre + |BlocksLines(RewrittenBlocks(f, before))|, pre + |BlocksLines(RewrittenBlocks(f, bs))|,
         TargetFor(f, before, b.header))
  }

  /** The spans of the sections of a known kind. */
  ghost function SpansOf(f: TunnelFields, pre: nat, bs: seq<Block>): seq<Span> {
    if bs == [] then []
    else SpansOf(f, pre, bs[..|bs| - 1]) + if LastKind(bs) == OtherSection then [] else [SpanOf(f, pre, bs)]
  }

  /** The section being scanned: what manages it, and where it starts. */
  ghost predicate Scanning(f: TunnelFields, d: Document, res: seq<string>, spans: seq<Span>, peerIdx: int,
                           target: Option<Fields>, secStart: int) {
    && res == RewrittenLines(f, d)
    && peerIdx == PeerCount(d.blocks) - 1
    && (if LastKind(d.blocks) == OtherSection then
          secStart == -1 && target == None && spans == SpansOf(f, |d.preamble|, d.blocks)
        else
          var before, b := d.blocks[..|d.blocks| - 1], d.blocks[|d.blocks| - 1];
          && secStart == |d.preamble| + |BlocksLines(RewrittenBlocks(f, before))|
          && target == TargetFor(f, before, b.header)
          && spans == SpansOf(f, |d.preamble|, before))
  }

  lemma HeaderRewrites(f: TunnelFields, d: Document, line: string)
    requires IsHeader(line)
    ensures RewrittenLines(f, AddLine(d, line)) == RewrittenLines(f, d) + [line]
  {
    var bs := d.blocks + [Block(line, [])];
    assert bs[..|d.blocks|] == d.blocks;
    var r := RewrittenBlocks(f, bs);
    assert r[..|d.blocks|] == RewrittenBlocks(f, d.blocks);
    assert BlockLines(r[|d.blocks|]) == [line];
  }

  lemma RewrittenMore(f: TunnelFields, before: seq<Block>, b: Block)
    ensures BlocksLines(RewrittenBlocks(f, before + [b])) ==
            BlocksLines(RewrittenBlocks(f, before)) + BlockLines(Rewritten(TargetFor(f, before, b.header), b))
  {
    assert (before + [b])[..|before|] == before;
    LastBlock(RewrittenBlocks(f, before), Rewritten(TargetFor(f, before, b.header), b));
  }

  lemma LineRewrites(f: TunnelFields, d: Document, line: string, target: Option<Fields>)
    requires !IsHeader(line)
    requires target == if d.blocks == [] then None
                       else TargetFor(f, d.blocks[..|d.blocks| - 1], d.blocks[|d.blocks| - 1].header)
    ensures RewrittenLines(f, AddLine(d, line)) == RewrittenLines(f, d) + RewriteLine(target, line)
  {
    if d.blocks != [] {
      var before, b := d.blocks[..|d.blocks| - 1], d.blocks[|d.blocks| - 1];
      var b' := b.(body := b.body + [line]);
      InitAndLast(d.blocks);
      assert AddLine(d, line).blocks == before + [b'];
      RewrittenMore(f, before, b);
      RewrittenMore(f, before, b');
      BodyMore(target, b, line);
      Regroup(d.preamble, BlocksLines(RewrittenBlocks(f, before)), BlockLines(Rewritten(target, b)), RewriteLine(target, line));
    }
  }

  lemma BodyMore(target: Option<Fields>, b: Block, line: string)
    ensures BlockLines(Rewritten(target, b.(body := b.body + [line]))) ==
            BlockLines(Rewritten(target, b)) + RewriteLine(target, line)
  {
    assert (b.body + [line])[..|b.body|] == b.body;
  }

  lemma Regroup(a: seq<string>, b: seq<string>, c: seq<string>, d: seq<string>)
    ensures a + (b + c) + d == a + (b + (c + d))
  {
  }

  /** Rewriting one line that is no header. */
  method RewriteOne(target: Option<Fields>, line: string) returns (out: seq<string>)
    ensures (target.Some? ==> CaseDistinct(target.value)) ==> out == RewriteLine(target, line)
  {
    var trimmed := Trim(line);
    var eq := IndexOf(trimmed, '=');
    out := [line];
    if target.Some? && eq < |trimmed| {
      var key := Trim(trimmed[..eq]);
      var val := LookupManagedKey(target.value, key);
      if val.Some? {
        out := if val.value != "" then [key + " = " + val.value] else [];
      }
    }
  }

  lemma FlushGivesSpans(f: TunnelFields, d: Document, res: seq<string>, spans: seq<Span>, peerIdx: int,
                        target: Option<Fields>, secStart: int)
    requires Scanning(f, d, res, spans, peerIdx, target, secStart)
    ensures SpansOf(f, |d.preamble|, d.blocks) ==
            if secStart >= 0 then spans + [Span(secStart, |res|, target)] else spans
  {
    if LastKind(d.blocks) != OtherSection {
      assert |res| == |d.preamble| + |BlocksLines(RewrittenBlocks(f, d.blocks))|;
      assert Span(secStart, |res|, target) == SpanOf(f, |d.preamble|, d.blocks);
    }
  }

  lemma HeaderScans(f: TunnelFields, d: Document, res: seq<string>, spans: seq<Span>, peerIdx: int, line: string)
    requires IsHeader(line) && res == RewrittenLines(f, d) && peerIdx == PeerCount(d.blocks) - 1
    requires spans == SpansOf(f, |d.preamble|, d.blocks)
    ensures var kind, target := KindOf(line), TargetFor(f, d.blocks, line);
            Scanning(f, AddLine(d, line), res + [line], spans, if kind == PeerSection then peerIdx + 1 else peerIdx,
                     target, if kind == OtherSection then -1 else |res|)
  {
    HeaderRewrites(f, d, line);
    assert AddLine(d, line).blocks[..|d.blocks|] == d.blocks;
  }

  lemma LineScans(f: TunnelFields, d: Document, res: seq<string>, spans: seq<Span>, peerIdx: int,
                  target: Option<Fields>, secStart: int, line: string, out: seq<string>)
    requires !IsHeader(line) && Scanning(f, d, res, spans, peerIdx, target, secStart)
    requires out == RewriteLine(target, line)
    ensures Scanning(f, AddLine(d, line), res + out, spans, peerIdx, target, secStart)
  {
    LineRewrites(f, d, line, target);
    if d.blocks != [] {
      var n := |d.blocks| - 1;
      assert AddLine(d, line).blocks[..n] == d.blocks[..n];
    }
  }

  predicate WellPlaced(spans: seq<Span>, n: nat) {
    forall i :: 0 <= i < |spans| ==> spans[i].start <= spans[i].end <= n
  }

  /** The closure flushSpan: what was scanned becomes a span. */
  method FlushSpan(spans: seq<Span>, target: Option<Fields>, secStart: int, end: nat,
                   f: TunnelFields, ghost d: Document, ghost res: seq<string>, ghost peerIdx: int)
    returns (spans': seq<Span>)
    requires WellPlaced(spans, end) && secStart <= end
    ensures WellPlaced(spans', end)
    ensures end == |res| && Scanning(f, d, res, spans, peerIdx, target, secStart) ==>
              spans' == SpansOf(f, |d.preamble|, d.blocks)
  {
    ghost var scanning := end == |res| && Scanning(f, d, res, spans, peerIdx, target, secStart);
    if scanning {
      FlushGivesSpans(f, d, res, spans, peerIdx, target, secStart);
    }
    spans' := if secStart >= 0 then spans + [Span(secStart, end, target)] else spans;
  }

  method RewritePass(lines: seq<string>, f: TunnelFields) returns (res: seq<string>, spans: seq<Span>)
    ensures WellPlaced(spans, |res|)
    ensures AllCaseDistinct(f) ==>
              var d := DocumentOf(lines);
              res == RewrittenLines(f, d) && spans == SpansOf(f, |d.preamble|, d.blocks)
  {
    spans, res := [], [];
    var peerIdx, secStart: int := -1, -1;
    var target: Option<Fields> := None;
    ghost var det := AllCaseDistinct(f);
    ghost var d := Document([], []);
    for n := 0 to |lines|
      invariant d == DocumentOf(lines[..n])
      invariant WellPlaced(spans, |res|) && -1 <= secStart < |res|
      invariant peerIdx >= -1 && (target.Some? ==> det ==> CaseDistinct(target.value))
      invariant det ==> Scanning(f, d, res, spans, peerIdx, target, secStart)
    {
      var line := lines[n];
      DocumentMore(lines, n);
      if IsHeader(line) {
        spans := FlushSpan(spans, target, secStart, |res|, f, d, res, peerIdx);
        if det {
          HeaderScans(f, d, res, spans, peerIdx, line);
        }
        res := res + [line];
        peerIdx, target, secStart := OpenSection(f, line, peerIdx, |res|, d.blocks);
      } else {
        var out := RewriteOne(target, line);
        if det {
          LineScans(f, d, res, spans, peerIdx, target, secStart, line, out);
        }
        res := res + out;
      }
      d := AddLine(d, line);
    }
    assert lines[..|lines|] == lines;
    spans := FlushSpan(spans, target, secStart, |res|, f, d, res, peerIdx);
  }

  /** What manages the section under a header, and where it starts. */
  method OpenSection(f: TunnelFields, header: string, peerIdx: int, end: nat, ghost before: seq<Block>)
    returns (peerIdx': int, target: Option<Fields>, secStart: int)
    requires peerIdx >= -1 && end > 0
    ensures peerIdx' == if KindOf(header) == PeerSection then peerIdx + 1 else peerIdx
    ensures secStart == if KindOf(header) == OtherSection then -1 else end - 1
    ensures peerIdx == PeerCount(before) - 1 ==> target == TargetFor(f, before, header)
    ensures AllCaseDistinct(f) && target.Some? ==> CaseDistinct(target.value)
  {
    peerIdx', target, secStart := peerIdx, None, -1;
    match KindOf(header)
    case InterfaceSection =>
      target := Some(f.iface);
      secStart := end - 1;
    case PeerSection =>
      peerIdx' := peerIdx + 1;
      if peerIdx' < |f.peers| {
        target := Some(f.peers[peerIdx']);
      }
      secStart := end - 1;
    case OtherSection =>
  }

  // ---------------------------------------------------------------------
  // The insertion pass
  // ---------------------------------------------------------------------

  /** Growing the list by one and shifting its tail to make room at `at`. */
  method InsertAt(res: seq<string>, at: nat, line: string) returns (r: seq<string>)
    requires at <= |res|
    ensures r == res[..at] + [line] + res[at..]
  {
    r := res + [""];
    r := r[..at + 1] + r[at..|r| - 1];
    r := r[at := line];
  }

  method PresentKeys(res: seq<string>, start: nat, end: nat) returns (present: set<string>)
    requires start <= end <= |res|
    ensures present == Present(res[start..end])
  {
    present := {};
    for j := start to end
      invariant present == Present(res[start..j])
    {
      var line := Trim(res[j]);
      var eq := IndexOf(line, '=');
      assert res[start..j + 1][..j - start] == res[start..j];
      if eq < |line| {
        present := present + {Lower(Trim(line[..eq]))};
      }
    }
  }

  method MissingKeys(m: Fields, present: set<string>) returns (missing: seq<string>)
    ensures IsAscending(missing) && Lists(missing, Missing(m, present))
  {
    var rest, found := m.Keys, [];
    while rest != {}
      invariant rest <= m.Keys
      invariant forall i, j :: 0 <= i < j < |found| ==> found[i] != found[j]
      invariant forall k :: k in found <==> k in m && k !in rest && m[k] != "" && Lower(k) !in present
    {
      var k :| k in rest;
      rest := rest - {k};
      if m[k] != "" && Lower(k) !in present {
        found := found + [k];
      }
    }
    missing := SortStrings(found);
    SortIsAscending(found);
    SortKeepsMembers(found);
  }

  lemma AssignmentsMore(m: Fields, keys: seq<string>, n: nat)
    requires n < |keys|
    ensures Assignments(m, keys[..n + 1]) == Assignments(m, keys[..n]) + [Assignment(keys[n], ValueIn(m, keys[n]))]
  {
    assert keys[..n + 1][..n] == keys[..n];
  }

  lemma InsertedIsAppended(before: seq<string>, added: seq<string>, line: string, after: seq<string>)
    ensures var r := before + added + after;
            var at := |before| + |added|;
            r[..at] + [line] + r[at..] == before + (added + [line]) + after
  {
  }

  /** The lines with the missing keys of a span put in at its end. */
  ghost function WithMissing(res: seq<string>, sp: Span): seq<string>
    requires sp.start <= sp.end <= |res|
  {
    match sp.target
    case None => res
    case Some(m) => res[..sp.end] + Added(m, res[sp.start..sp.end]) + res[sp.end..]
  }

  method InsertMissing(res: seq<string>, sp: Span) returns (r: seq<string>)
    requires sp.start <= sp.end <= |res|
    ensures |r| >= |res|
    ensures r == WithMissing(res, sp)
  {
    r := res;
    if sp.target.Some? {
      var m := sp.target.value;
      var present := PresentKeys(res, sp.start, sp.end);
      var missing := MissingKeys(m, present);
      ListingIsAscending(missing, Missing(m, present));
      var end := sp.end;
      for n := 0 to |missing|
        invariant end == sp.end + n && |Assignments(m, missing[..n])| == n
        invariant r == res[..sp.end] + Assignments(m, missing[..n]) + res[sp.end..]
      {
        var k := missing[n];
        AssignmentsMore(m, missing, n);
        InsertedIsAppended(res[..sp.end], Assignments(m, missing[..n]), Assignment(k, ValueIn(m, k)), res[sp.end..]);
        r := InsertAt(r, end, k + " = " + ValueIn(m, k));
        end := end + 1;
      }
      assert missing[..|missing|] == missing;
    }
  }

  /** The sections `bs` are still to be completed, those of `tail` are complete. */
  ghost predicate HalfEdited(f: TunnelFields, pre: seq<string>, bs: seq<Block>, tail: seq<string>,
                             res: seq<string>, edited: seq<string>) {
    && res == pre + (BlocksLines(RewrittenBlocks(f, bs)) + tail)
    && edited == pre + (BlocksLines(EditedBlocks(f, bs)) + tail)
  }

  lemma LastBlock(before: seq<Block>, b: Block)
    ensures BlocksLines(before + [b]) == BlocksLines(before) + BlockLines(b)
  {
    assert (before + [b])[..|before|] == before;
  }

  lemma LastSection(f: TunnelFields, bs: seq<Block>)
    requires bs != []
    ensures var before, b := bs[..|bs| - 1], bs[|bs| - 1];
            var target := TargetFor(f, before, b.header);
            && BlocksLines(RewrittenBlocks(f, bs)) == BlocksLines(RewrittenBlocks(f, before)) + BlockLines(Rewritten(target, b))
            && BlocksLines(EditedBlocks(f, bs)) == BlocksLines(EditedBlocks(f, before)) + BlockLines(EditedBlock(target, b))
  {
    var before, b := bs[..|bs| - 1], bs[|bs| - 1];
    var target := TargetFor(f, before, b.header);
    LastBlock(RewrittenBlocks(f, before), Rewritten(target, b));
    LastBlock(EditedBlocks(f, before), EditedBlock(target, b));
  }

  lemma Shift(pre: seq<string>, a: seq<string>, b: seq<string>, c: seq<string>)
    ensures pre + (a + b + c) == pre + (a + (b + c))
  {
  }

  lemma InsertionCompletes(pre: seq<string>, a: seq<string>, b: seq<string>, c: seq<string>, added: seq<string>, ea: seq<string>,
                           res: seq<string>, edited: seq<string>, start: nat, end: nat)
    requires res == pre + (a + b + c) && edited == pre + (ea + (b + added) + c)
    requires start == |pre| + |a| && end == |pre| + |a + b|
    ensures res[start..end] == b
    ensures res[..end] + added + res[end..] == pre + (a + ((b + added) + c))
    ensures edited == pre + (ea + ((b + added) + c))
    ensures added == [] ==> res[..end] + added + res[end..] == res
  {
    assert res[..end] == pre + (a + b) && res[end..] == c;
    Shift(pre, ea, b + added, c);
  }

  /** Sections of an unknown kind are complete as they are. */
  lemma {:induction false} SkipOthers(f: TunnelFields, pre: seq<string>, bs: seq<Block>, tail: seq<string>,
                                      res: seq<string>, edited: seq<string>)
    returns (bs': seq<Block>, tail': seq<string>)
    requires HalfEdited(f, pre, bs, tail, res, edited)
    ensures HalfEdited(f, pre, bs', tail', res, edited) && SpansOf(f, |pre|, bs') == SpansOf(f, |pre|, bs)
    ensures LastKind(bs') != OtherSection || bs' == []
    decreases |bs|
  {
    if LastKind(bs) != OtherSection || bs == [] {
      bs', tail' := bs, tail;
    } else {
      var before, b := bs[..|bs| - 1], bs[|bs| - 1];
      LastSection(f, bs);
      var lines := BlockLines(Rewritten(None, b));
      Shift(pre, BlocksLines(RewrittenBlocks(f, before)), lines, tail);
      Shift(pre, BlocksLines(EditedBlocks(f, before)), lines, tail);
      bs', tail' := SkipOthers(f, pre, before, lines + tail, res, edited);
    }
  }

  /** Inserting the missing keys of the last section completes it. */
  lemma CompleteSection(f: TunnelFields, pre: seq<string>, bs: seq<Block>, tail: seq<string>,
                        res: seq<string>, edited: seq<string>, sp: Span)
    returns (tail': seq<string>)
    requires HalfEdited(f, pre, bs, tail, res, edited) && bs != [] && sp.start <= sp.end <= |res|
    requires sp == SpanOf(f, |pre|, bs)
    ensures HalfEdited(f, pre, bs[..|bs| - 1], tail', WithMissing(res, sp), edited)
  {
    var before, b := bs[..|bs| - 1], bs[|bs| - 1];
    var target := TargetFor(f, before, b.header);
    LastSection(f, bs);
    var lines := BlockLines(Rewritten(target, b));
    var added := if target.None? then [] else Added(target.value, lines);
    tail' := BlockLines(EditedBlock(target, b)) + tail;
    SameLines(target, b, lines, added);
    InsertionCompletes(pre, BlocksLines(RewrittenBlocks(f, before)), lines, tail, added, BlocksLines(EditedBlocks(f, before)),
                       res, edited, sp.start, sp.end);
  }

  lemma SameLines(target: Option<Fields>, b: Block, lines: seq<string>, added: seq<string>)
    requires lines == BlockLines(Rewritten(target, b))
    requires added == if target.None? then [] else Added(target.value, lines)
    ensures BlockLines(EditedBlock(target, b)) == lines + added
  {
  }

  /** The spans left are those of the sections left. */
  ghost predicate Inserting(f: TunnelFields, pre: seq<string>, bs: seq<Block>, tail: seq<string>, spans: seq<Span>,
                            res: seq<string>, edited: seq<string>) {
    spans == SpansOf(f, |pre|, bs) && HalfEdited(f, pre, bs, tail, res, edited)
  }

  lemma InsertionStep(f: TunnelFields, pre: seq<string>, bs: seq<Block>, tail: seq<string>, spans: seq<Span>, sp: Span,
                      res: seq<string>, edited: seq<string>)
    returns (bs': seq<Block>, tail': seq<string>)
    requires sp.start <= sp.end <= |res| && Inserting(f, pre, bs, tail, spans + [sp], res, edited)
    ensures Inserting(f, pre, bs', tail', spans, WithMissing(res, sp), edited)
  {
    var bs1, tail1 := SkipOthers(f, pre, bs, tail, res, edited);
    LastSpan(f, |pre|, bs1, spans, sp);
    tail' := CompleteSection(f, pre, bs1, tail1, res, edited, sp);
    bs' := bs1[..|bs1| - 1];
  }

  lemma LastSpan(f: TunnelFields, pre: nat, bs: seq<Block>, spans: seq<Span>, sp: Span)
    requires spans + [sp] == SpansOf(f, pre, bs) && (LastKind(bs) != OtherSection || bs == [])
    ensures bs != [] && spans == SpansOf(f, pre, bs[..|bs| - 1])
    ensures sp == SpanOf(f, pre, bs)
  {
    SameEnds(spans, sp, SpansOf(f, pre, bs[..|bs| - 1]), SpanOf(f, pre, bs));
  }

  lemma SameEnds<T>(a: seq<T>, x: T, b: seq<T>, y: T)
    requires a + [x] == b + [y]
    ensures a == b && x == y
  {
    assert |a| == |b|;
    assert a == (a + [x])[..|a|] && b == (b + [y])[..|b|];
    assert (a + [x])[|a|] == x && (b + [y])[|b|] == y;
  }

  lemma InsertionEnds(f: TunnelFields, pre: seq<string>, bs: seq<Block>, tail: seq<string>, res: seq<string>, edited: seq<string>)
    requires Inserting(f, pre, bs, tail, [], res, edited)
    ensures res == edited
  {
    var bs', tail' := SkipOthers(f, pre, bs, tail, res, edited);
  }

  lemma InsertionStarts(f: TunnelFields, d: Document)
    ensures Inserting(f, d.preamble, d.blocks, [], SpansOf(f, |d.preamble|, d.blocks), RewrittenLines(f, d),
                      LinesOf(EditedDocument(f, d)))
  {
    var a, b := BlocksLines(RewrittenBlocks(f, d.blocks)), BlocksLines(EditedBlocks(f, d.blocks));
    assert a + [] == a && b + [] == b;
  }

  method InsertionPass(f: TunnelFields, ghost d: Document, res: seq<string>, spans: seq<Span>) returns (r: seq<string>)
    requires WellPlaced(spans, |res|)
    requires AllCaseDistinct(f) ==> res == RewrittenLines(f, d) && spans == SpansOf(f, |d.preamble|, d.blocks)
    ensures AllCaseDistinct(f) ==> r == LinesOf(EditedDocument(f, d))
  {
    r := res;
    ghost var det, pre, edited := AllCaseDistinct(f), d.preamble, LinesOf(EditedDocument(f, d));
    ghost var bs, tail: seq<string> := d.blocks, [];
    InsertionStarts(f, d);
    assert spans[..|spans|] == spans;
    for i := |spans| downto 0
      invariant |r| >= |res|
      invariant det ==> Inserting(f, pre, bs, tail, spans[..i], r, edited)
    {
      if det {
        TakeMore(spans, i);
        bs, tail := InsertionStep(f, pre, bs, tail, spans[..i], spans[i], r, edited);
      }
      r := InsertMissing(r, spans[i]);
    }
    if det {
      InsertionEnds(f, pre, bs, tail, r, edited);
    }
  }

  datatype EditError = InvalidKey

  method CheckKeys(m: Fields) returns (ok: bool)
    ensures ok <==> KeysAllowed(m)
  {
    var rest := m.Keys;
    while rest != {}
      invariant rest <= m.Keys && forall k :: k in m && k !in rest ==> KeyAllowed(k)
    {
      var k :| k in rest;
      if !KeyAllowed(k) {
        return false;
      }
      rest := rest - {k};
    }
    return true;
  }

  /** A key is refused when it is empty or could not stand before the sign of a line. */
  lemma KeyAllowedIs(k: string)
    ensures KeyAllowed(k) <==> k != "" && '[' !in k && ']' !in k && '=' !in k && '\n' !in k && '\r' !in k
  {
    if i :| 0 <= i < |k| && IsForbidden(k[i]) {
      assert k[i] in k;
    }
  }

  lemma AllModelsAre(f: TunnelFields)
    ensures AllKeysAllowed(f) <==> forall m :: m in [f.iface] + f.peers ==> KeysAllowed(m)
  {
    var models := [f.iface] + f.peers;
    assert models[0] == f.iface && forall j :: 0 <= j < |f.peers| ==> models[j + 1] == f.peers[j];
  }

  lemma RefusedExactlyWhen(f: TunnelFields)
    ensures AllKeysAllowed(f) <==>
            !exists m, k :: m in [f.iface] + f.peers && k in m
                            && (k == "" || '[' in k || ']' in k || '=' in k || '\n' in k || '\r' in k)
  {
    var models := [f.iface] + f.peers;
    AllModelsAre(f);
    forall k
      ensures KeyAllowed(k) <==> !(k == "" || '[' in k || ']' in k || '=' in k || '\n' in k || '\r' in k)
    {
      KeyAllowedIs(k);
    }
    assert (exists m :: m in models && !KeysAllowed(m)) <==> exists m, k :: m in models && k in m && !KeyAllowed(k);
  }

  method SetTunnelFields(content: string, fields: Option<TunnelFields>) returns (r: Result<string, EditError>)
    ensures fields.None? ==> r == Ok(content)
    ensures fields.Some? ==>
              (r.Err? <==> exists m, k :: m in [fields.value.iface] + fields.value.peers && k in m
                                          && (k == "" || '[' in k || ']' in k || '=' in k || '\n' in k || '\r' in k))
    ensures fields.Some? && AllKeysAllowed(fields.value) && AllCaseDistinct(fields.value) ==>
              r == Ok(Edited(content, fields.value))
  {
    if fields.None? {
      return Ok(content);
    }
    var f := fields.value;
    var models := [f.iface] + f.peers;
    for n := 0 to |models|
      invariant forall j :: 0 <= j < n ==> KeysAllowed(models[j])
    {
      var ok := CheckKeys(models[n]);
      if !ok {
        assert models[n] == if n == 0 then f.iface else f.peers[n - 1];
        RefusedExactlyWhen(f);
        return Err(InvalidKey);
      }
    }
    assert models[0] == f.iface && forall j :: 0 <= j < |f.peers| ==> f.peers[j] == models[j + 1];
    RefusedExactlyWhen(f);
    var lines := Split(content, '\n');
    var res, spans := RewritePass(lines, f);
    res := InsertionPass(f, DocumentOf(lines), res, spans);
    r := Ok(Join(res, "\n"));
  }
}
