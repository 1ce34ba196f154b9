/** Keeping one managed block up to date in an AGENTS.md text. */
module AgentsMerge {
  import opened Wrappers
  import opened Text

  // ---------------------------------------------------------------------
  // Searching
  // ---------------------------------------------------------------------

  predicate At(s: string, m: string, i: nat) { i + |m| <= |s| && s[i..i + |m|] == m }

  function FindFrom(s: string, m: string, i: nat): (r: Option<nat>)
    requires i <= |s|
    ensures r.Some? ==> i <= r.value && At(s, m, r.value) && forall j :: i <= j < r.value ==> !At(s, m, j)
    ensures r.None? ==> forall j :: i <= j ==> !At(s, m, j)
    decreases |s| - i
  {
    if At(s, m, i) then Some(i) else if i < |s| then FindFrom(s, m, i + 1) else None
  }

  /** strings.Index */
  function Find(s: string, m: string): Option<nat> { FindFrom(s, m, 0) }

  lemma FoundFirst(s: string, m: string, i: nat)
    requires At(s, m, i) && forall j :: 0 <= j < i ==> !At(s, m, j)
    ensures Find(s, m) == Some(i)
  {
  }

  /** strings.TrimRight with a newline. */
  function WithoutNewlines(s: string): string {
    if s != "" && s[|s| - 1] == '\n' then WithoutNewlines(s[..|s| - 1]) else s
  }

  // ---------------------------------------------------------------------
  // The merge
  // ---------------------------------------------------------------------

  datatype Skill = Skill(begin: string, end: string, body: string)

  /** The managed block, without its last newline. */
  function Core(k: Skill): string { k.begin + "\n" + k.body + "\n" + k.end }

  function Block(k: Skill): string { Core(k) + "\n" }

  /** What a new block is put after. */
  function Opening(content: string): string {
    if content != "" && !HasSuffix(content, "\n\n") then WithoutNewlines(content) + "\n\n" else content
  }

  function Merge(content: string, k: Skill): string {
    match Find(content, k.begin)
    case None => Opening(content) + Block(k)
    case Some(b) =>
      match Find(content, k.end)
      case None => content + ("\n" + Block(k))
      case Some(e) =>
        if e > b then content[..b] + WithoutNewlines(Block(k)) + content[e + |k.end|..]
        else content + ("\n" + Block(k))
  }

  method MergeAgentsText(existing: string, k: Skill) returns (content: string)
    ensures content == Merge(existing, k)
  {
    content := existing;
    var b := Find(content, k.begin);
    if b.Some? {
      var e := Find(content, k.end);
      if e.Some? && e.value > b.value {
        content := content[..b.value] + WithoutNewlines(Block(k)) + content[e.value + |k.end|..];
      } else {
        content := content + ("\n" + Block(k));
      }
    } else {
      if content != "" && !HasSuffix(content, "\n\n") {
        content := WithoutNewlines(content) + "\n\n";
      }
      content := content + Block(k);
    }
  }

  // ---------------------------------------------------------------------
  // Markers
  // ---------------------------------------------------------------------

  ghost predicate FreeOf(s: string, m: string) { forall i :: !At(s, m, i) }

  /** On one line, with an angle bracket at its start only. */
  predicate IsMarker(m: string) {
    && |m| > 5 && m[0] == '<' && '\n' !in m
    && forall i :: 1 <= i < |m| ==> m[i] != '<'
  }

  /** Two markers, told apart by their sixth character, and a body without either. */
  ghost predicate WellMarked(k: Skill) {
    && IsMarker(k.begin) && IsMarker(k.end) && k.begin[5] != k.end[5]
    && FreeOf(k.body, k.begin) && FreeOf(k.body, k.end)
  }

  const BEGIN := "<" + "!-- BEGIN " + "wireguideplus ctl " + "(managed by " + "`wireguideplus ctl " + "install-skills`) -->"
  const END := "<" + "!-- END " + "wireguideplus ctl -->"

  lemma BracketAndRest(rest: string)
    requires |rest| > 5 && '<' !in rest && '\n' !in rest
    ensures IsMarker("<" + rest)
  {
    var m := "<" + rest;
    assert forall i :: 1 <= i < |m| ==> m[i] == rest[i - 1];
  }

  lemma Lacking(a: string, b: string, c: char)
    requires c !in a && c !in b
    ensures c !in a + b
  {
  }

  lemma BeginLacks(c: char)
    requires c == '<' || c == '\n'
    ensures c !in "!-- BEGIN " + "wireguideplus ctl " + "(managed by " + "`wireguideplus ctl " + "install-skills`) -->"
  {
    var b1, b2, b3, b4, b5 := "!-- BEGIN ", "wireguideplus ctl ", "(managed by ", "`wireguideplus ctl ", "install-skills`) -->";
    Lacking(b1, b2, c);
    Lacking(b1 + b2, b3, c);
    Lacking(b1 + b2 + b3, b4, c);
    Lacking(b1 + b2 + b3 + b4, b5, c);
  }

  lemma BeginIsMarker()
    ensures IsMarker(BEGIN) && BEGIN[5] == 'B'
  {
    var rest := "!-- BEGIN " + "wireguideplus ctl " + "(managed by " + "`wireguideplus ctl " + "install-skills`) -->";
    BeginLacks('<');
    BeginLacks('\n');
    BracketAndRest(rest);
    assert BEGIN == "<" + rest;
    assert BEGIN[5] == rest[4];
  }

  lemma EndIsMarker()
    ensures IsMarker(END) && END[5] == 'E'
  {
    var e1, e2 := "!-- END ", "wireguideplus ctl -->";
    forall c | c == '<' || c == '\n'
      ensures c !in e1 + e2
    {
      Lacking(e1, e2, c);
    }
    BracketAndRest(e1 + e2);
    assert END == "<" + (e1 + e2);
    assert END[5] == e1[4];
  }

  /** The markers of the program are such markers. */
  lemma ProgramsMarkers(body: string)
    requires FreeOf(body, BEGIN) && FreeOf(body, END)
    ensures WellMarked(Skill(BEGIN, END, body))
  {
    BeginIsMarker();
    EndIsMarker();
  }

  /** A marker is not found where a text differs from it. */
  lemma Mismatch(s: string, m: string, i: nat, j: nat)
    requires j < |m| && i + j < |s| && s[i + j] != m[j]
    ensures !At(s, m, i)
  {
    if i + |m| <= |s| {
      assert s[i..i + |m|][j] == s[i + j];
    }
  }

  /** No marker runs from one text into another that starts with a bracket or a newline. */
  lemma NoCrossing(a: string, b: string, m: string, i: nat)
    requires IsMarker(m) && i < |a| && b != "" && (b[0] == '<' || b[0] == '\n')
    ensures At(a + b, m, i) <==> At(a, m, i)
  {
    if i + |m| <= |a| {
      assert (a + b)[i..i + |m|] == a[i..i + |m|];
    } else {
      assert (a + b)[|a|] == b[0];
      Mismatch(a + b, m, i, |a| - i);
    }
  }

  /** Where the markers stand in the managed block. */
  function EndPlace(k: Skill): nat { |k.begin| + 1 + |k.body| + 1 }

  function Place(k: Skill, isEnd: bool): nat { if isEnd then EndPlace(k) else 0 }

  function Marker(k: Skill, isEnd: bool): string { if isEnd then k.end else k.begin }

  lemma InBody(before: string, body: string, after: string, m: string, o: nat)
    requires IsMarker(m) && FreeOf(body, m) && o < |body| && after != "" && after[0] == '\n'
    ensures !At(before + body + after, m, |before| + o)
  {
    var s := before + body + after;
    if o + |m| <= |body| {
      assert s[|before| + o..|before| + o + |m|] == body[o..o + |m|];
      assert !At(body, m, o);
    } else {
      assert s[|before| + |body|] == '\n';
      Mismatch(s, m, |before| + o, |body| - o);
    }
  }

  /** A text that starts with one marker holds that one there, not the other. */
  lemma AtStart(before: string, here: string, after: string, m: string)
    requires IsMarker(m) && IsMarker(here) && (m == here || m[5] != here[5])
    ensures At(before + here + after, m, |before|) <==> m == here
  {
    var s := before + here + after;
    assert s[|before|..|before| + |here|] == here;
    assert s[|before| + 5] == here[5];
    if m != here {
      Mismatch(s, m, |before|, 5);
    }
  }

  /** Inside a marker no other starts. */
  lemma InsideMarker(before: string, here: string, after: string, m: string, o: nat)
    requires IsMarker(m) && IsMarker(here) && 0 < o < |here|
    ensures !At(before + here + after, m, |before| + o)
  {
    assert (before + here + after)[|before| + o] == here[o];
    Mismatch(before + here + after, m, |before| + o, 0);
  }

  lemma AtNewline(before: string, after: string, m: string)
    requires IsMarker(m)
    ensures !At(before + "\n" + after, m, |before|)
  {
    assert (before + "\n" + after)[|before|] == '\n';
    Mismatch(before + "\n" + after, m, |before|, 0);
  }

  lemma Regrouped(pre: string, k: Skill, post: string)
    ensures var s, after := pre + Core(k) + post, "\n" + k.end + post;
            && s == pre + k.begin + ("\n" + k.body + after)
            && s == (pre + k.begin) + "\n" + (k.body + after)
            && s == (pre + k.begin + "\n") + k.body + after
  {
  }

  lemma RegroupedEnd(pre: string, k: Skill, post: string)
    ensures var s, d := pre + Core(k) + post, pre + k.begin + "\n" + k.body;
            && s == d + "\n" + (k.end + post)
            && s == (d + "\n") + k.end + post
  {
  }

  lemma InFirstHalf(pre: string, k: Skill, post: string, m: string, o: nat)
    requires WellMarked(k) && (m == k.begin || m == k.end) && o < |k.begin| + 1 + |k.body|
    ensures At(pre + Core(k) + post, m, |pre| + o) <==> o == 0 && m == k.begin
  {
    var after := "\n" + k.end + post;
    Regrouped(pre, k, post);
    if o == 0 {
      AtStart(pre, k.begin, "\n" + k.body + after, m);
    } else if o < |k.begin| {
      InsideMarker(pre, k.begin, "\n" + k.body + after, m, o);
    } else if o == |k.begin| {
      AtNewline(pre + k.begin, k.body + after, m);
    } else {
      InBody(pre + k.begin + "\n", k.body, after, m, o - |k.begin| - 1);
    }
  }

  lemma InSecondHalf(pre: string, k: Skill, post: string, m: string, o: nat)
    requires WellMarked(k) && (m == k.begin || m == k.end) && |k.begin| + 1 + |k.body| <= o < |Core(k)|
    ensures At(pre + Core(k) + post, m, |pre| + o) <==> o == EndPlace(k) && m == k.end
  {
    var d := pre + k.begin + "\n" + k.body;
    RegroupedEnd(pre, k, post);
    if o < EndPlace(k) {
      AtNewline(d, k.end + post, m);
    } else if o == EndPlace(k) {
      AtStart(d + "\n", k.end, post, m);
    } else {
      InsideMarker(d + "\n", k.end, post, m, o - EndPlace(k));
    }
  }

  /** Of the positions in the managed block only its own holds a marker. */
  lemma OnlyPlace(pre: string, k: Skill, post: string, isEnd: bool, o: nat)
    requires WellMarked(k) && o < |Core(k)|
    ensures At(pre + Core(k) + post, Marker(k, isEnd), |pre| + o) <==> o == Place(k, isEnd)
  {
    if o < |k.begin| + 1 + |k.body| {
      InFirstHalf(pre, k, post, Marker(k, isEnd), o);
    } else {
      InSecondHalf(pre, k, post, Marker(k, isEnd), o);
    }
  }

  /** Before the block the markers are where they are without it. */
  lemma BeforeBlock(pre: string, k: Skill, post: string, isEnd: bool, i: nat)
    requires WellMarked(k) && i < |pre|
    ensures At(pre + Core(k) + post, Marker(k, isEnd), i) <==> At(pre, Marker(k, isEnd), i)
  {
    assert pre + Core(k) + post == pre + (Core(k) + post);
    assert (Core(k) + post)[0] == k.begin[0];
    NoCrossing(pre, Core(k) + post, Marker(k, isEnd), i);
  }

  // ---------------------------------------------------------------------
  // Idempotence
  // ---------------------------------------------------------------------

  /** After a start without markers, those of the block are the first. */
  lemma BlockIsFound(pre: string, k: Skill, post: string, isEnd: bool)
    requires WellMarked(k) && FreeOf(pre, Marker(k, isEnd))
    ensures Find(pre + Core(k) + post, Marker(k, isEnd)) == Some(|pre| + Place(k, isEnd))
  {
    var s, m, p := pre + Core(k) + post, Marker(k, isEnd), |pre| + Place(k, isEnd);
    forall i: nat | i < p
      ensures !At(s, m, i)
    {
      if i < |pre| {
        BeforeBlock(pre, k, post, isEnd, i);
      } else {
        OnlyPlace(pre, k, post, isEnd, i - |pre|);
        assert |pre| + (i - |pre|) == i;
      }
    }
    OnlyPlace(pre, k, post, isEnd, Place(k, isEnd));
    FoundFirst(s, m, p);
  }

  lemma TrimmedBlock(k: Skill)
    requires WellMarked(k)
    ensures WithoutNewlines(Block(k)) == Core(k)
  {
    assert Block(k)[..|Core(k)|] == Core(k);
    assert Core(k)[|Core(k)| - 1] == k.end[|k.end| - 1] != '\n';
    assert WithoutNewlines(Core(k)) == Core(k);
  }

  /** Merging again replaces the block by itself. */
  lemma MergeAgain(pre: string, k: Skill, post: string)
    requires WellMarked(k) && FreeOf(pre, k.begin) && FreeOf(pre, k.end)
    ensures Merge(pre + Core(k) + post, k) == pre + Core(k) + post
  {
    BlockIsFound(pre, k, post, false);
    BlockIsFound(pre, k, post, true);
    TrimmedBlock(k);
    CutAround(pre, Core(k), post, |k.end|);
  }

  lemma CutAround(pre: string, core: string, post: string, n: nat)
    requires n <= |core|
    ensures var s := pre + core + post;
            s[..|pre|] == pre && s[|pre| + (|core| - n) + n..] == post
  {
  }

  predicate NoMarkers(content: string, k: Skill) { Find(content, k.begin).None? && Find(content, k.end).None? }

  /** The first begin marker stands before the first end marker. */
  predicate HasBlock(content: string, k: Skill) {
    var b, e := Find(content, k.begin), Find(content, k.end);
    b.Some? && e.Some? && b.value < e.value
  }

  function Before(content: string, k: Skill): string
    requires HasBlock(content, k)
  {
    content[..Find(content, k.begin).value]
  }

  function After(content: string, k: Skill): string
    requires HasBlock(content, k)
  {
    content[Find(content, k.end).value + |k.end|..]
  }

  lemma {:induction false} WithoutNewlinesIsPrefix(s: string)
    ensures WithoutNewlines(s) <= s
  {
    if s != "" && s[|s| - 1] == '\n' {
      WithoutNewlinesIsPrefix(s[..|s| - 1]);
    }
  }

  lemma FreeStart(s: string, n: nat, m: string)
    requires n <= |s| && forall i :: 0 <= i < n ==> !At(s, m, i)
    requires m != ""
    ensures FreeOf(s[..n], m)
  {
    forall i: nat
      ensures !At(s[..n], m, i)
    {
      if i + |m| <= n {
        assert !At(s, m, i);
        assert s[..n][i..i + |m|] == s[i..i + |m|];
      }
    }
  }

  /** What is put before a new block brings no marker. */
  lemma OpeningIsFree(content: string, m: string)
    requires IsMarker(m) && FreeOf(content, m)
    ensures FreeOf(Opening(content), m)
  {
    var start := WithoutNewlines(content);
    WithoutNewlinesIsPrefix(content);
    if Opening(content) != content {
      FreeStart(content, |start|, m);
      assert content[..|start|] == start;
      forall i: nat
        ensures !At(start + "\n\n", m, i)
      {
        if i < |start| {
          NoCrossing(start, "\n\n", m, i);
        } else if i < |start| + 2 {
          Mismatch(start + "\n\n", m, i, 0);
        }
      }
    }
  }

  lemma FoundTells(s: string, m: string)
    ensures Find(s, m).None? <==> FreeOf(s, m)
    ensures Find(s, m).Some? ==> At(s, m, Find(s, m).value)
  {
    if Find(s, m).None? {
      assert FreeOf(s, m);
    } else {
      assert At(s, m, Find(s, m).value);
    }
  }

  /** With no markers the block is added at the end, after the content without
      its last newlines; with a block, that is replaced and the rest untouched. */
  lemma MergeKeepsTheRest(content: string, k: Skill)
    requires WellMarked(k) && (NoMarkers(content, k) || HasBlock(content, k))
    ensures NoMarkers(content, k) ==>
              Merge(content, k) == Opening(content) + Core(k) + "\n" && WithoutNewlines(content) <= Opening(content)
              && FreeOf(Opening(content), k.begin) && FreeOf(Opening(content), k.end)
    ensures HasBlock(content, k) ==>
              Merge(content, k) == Before(content, k) + Core(k) + After(content, k)
              && FreeOf(Before(content, k), k.begin) && FreeOf(Before(content, k), k.end)
  {
    FoundTells(content, k.begin);
    FoundTells(content, k.end);
    WithoutNewlinesIsPrefix(content);
    TrimmedBlock(k);
    if NoMarkers(content, k) {
      OpeningIsFree(content, k.begin);
      OpeningIsFree(content, k.end);
      assert Opening(content) + (Core(k) + "\n") == Opening(content) + Core(k) + "\n";
    } else {
      FreeStart(content, Find(content, k.begin).value, k.begin);
      FreeStart(content, Find(content, k.begin).value, k.end);
    }
  }

  lemma MergeTwice(content: string, k: Skill)
    requires WellMarked(k) && (NoMarkers(content, k) || HasBlock(content, k))
    ensures Merge(Merge(content, k), k) == Merge(content, k)
  {
    MergeKeepsTheRest(content, k);
    if NoMarkers(content, k) {
      MergeAgain(Opening(content), k, "\n");
    } else {
      MergeAgain(Before(content, k), k, After(content, k));
    }
  }

  /** Exactly one block: each marker stands in its place and nowhere else. */
  lemma ExactlyOneBlock(pre: string, k: Skill, post: string, isEnd: bool, i: nat)
    requires WellMarked(k) && FreeOf(pre, Marker(k, isEnd)) && FreeOf(post, Marker(k, isEnd))
    ensures At(pre + Core(k) + post, Marker(k, isEnd), i) <==> i == |pre| + Place(k, isEnd)
  {
    var n := |pre| + |Core(k)|;
    if i < |pre| {
      BeforeBlock(pre, k, post, isEnd, i);
    } else if i < n {
      OnlyPlace(pre, k, post, isEnd, i - |pre|);
      assert |pre| + (i - |pre|) == i;
    } else {
      AtAfter(pre + Core(k), post, Marker(k, isEnd), i);
      assert !At(post, Marker(k, isEnd), i - n);
      assert Place(k, isEnd) < |Core(k)|;
    }
  }

  /** Past a text only what follows it is seen. */
  lemma AtAfter(a: string, b: string, m: string, i: nat)
    requires i >= |a|
    ensures At(a + b, m, i) <==> At(b, m, i - |a|)
  {
    if i + |m| <= |a + b| {
      assert (a + b)[i..i + |m|] == b[i - |a|..i - |a| + |m|];
    }
  }

  // ---------------------------------------------------------------------
  // Stray markers
  // ---------------------------------------------------------------------

  /** An occurrence that ends before the last newlines. */
  lemma {:induction false} KeptWithoutNewlines(s: string, m: string, i: nat)
    requires IsMarker(m) && At(s, m, i)
    ensures At(WithoutNewlines(s), m, i)
  {
    assert m[|m| - 1] != '\n' && s[i..i + |m|][|m| - 1] == s[i + |m| - 1];
    if s[|s| - 1] == '\n' {
      var t := s[..|s| - 1];
      assert t[i..i + |m|] == s[i..i + |m|];
      KeptWithoutNewlines(t, m, i);
    }
  }

  lemma AtExtended(a: string, b: string, m: string, i: nat)
    requires At(a, m, i)
    ensures At(a + b, m, i)
  {
    assert (a + b)[i..i + |m|] == a[i..i + |m|];
  }

  /** A stray end marker: every merge adds another block. */
  lemma StrayEndGrows(content: string, k: Skill)
    requires WellMarked(k) && Find(content, k.begin).None? && Find(content, k.end).Some?
    ensures var r := Merge(content, k); Merge(r, k) == r + ("\n" + Block(k))
  {
    var e, pre := Find(content, k.end).value, Opening(content);
    var r := pre + Core(k) + "\n";
    FoundTells(content, k.begin);
    FoundTells(content, k.end);
    assert Merge(content, k) == pre + (Core(k) + "\n") == r;
    OpeningIsFree(content, k.begin);
    BlockIsFound(pre, k, "\n", false);
    KeptWithoutNewlines(content, k.end, e);
    if pre != content {
      AtExtended(WithoutNewlines(content), "\n\n", k.end, e);
    }
    AtExtended(pre, Core(k) + "\n", k.end, e);
    FoundNoLater(r, k.end, e);
  }

  lemma FoundNoLater(s: string, m: string, i: nat)
    requires At(s, m, i)
    ensures Find(s, m).Some? && Find(s, m).value <= i
  {
  }

  lemma BeginStaysFirst(content: string, k: Skill, b: nat)
    requires WellMarked(k) && Find(content, k.begin) == Some(b)
    ensures Find(content + ("\n" + Block(k)), k.begin) == Some(b)
  {
    var r := content + ("\n" + Block(k));
    FoundTells(content, k.begin);
    forall i: nat | i < b
      ensures !At(r, k.begin, i)
    {
      NoCrossing(content, "\n" + Block(k), k.begin, i);
    }
    AtExtended(content, "\n" + Block(k), k.begin, b);
    FoundFirst(r, k.begin, b);
  }

  /** A begin marker before no end marker: the second merge replaces all that
      followed it, the user's text with it. */
  lemma StrayBeginLosesText(content: string, k: Skill)
    requires WellMarked(k) && Find(content, k.begin).Some? && Find(content, k.end).None?
    ensures Merge(Merge(content, k), k) == content[..Find(content, k.begin).value] + Core(k) + "\n"
  {
    var b, pre := Find(content, k.begin).value, content + "\n";
    var r := pre + Core(k) + "\n";
    FoundTells(content, k.end);
    assert Merge(content, k) == content + ("\n" + Block(k)) == r;
    BeginStaysFirst(content, k, b);
    NewlineIsFree(content, k.end);
    BlockIsFound(pre, k, "\n", true);
    TrimmedBlock(k);
    CutAround(pre, Core(k), "\n", |k.end|);
    assert r[..b] == content[..b];
  }

  lemma NewlineIsFree(content: string, m: string)
    requires IsMarker(m) && FreeOf(content, m)
    ensures FreeOf(content + "\n", m)
  {
    forall i: nat
      ensures !At(content + "\n", m, i)
    {
      if i < |content| {
        NoCrossing(content, "\n", m, i);
      }
    }
  }

  /** An end marker before the first begin marker: every merge adds another block. */
  lemma EndBeforeBeginGrows(content: string, k: Skill)
    requires WellMarked(k) && Find(content, k.begin).Some? && Find(content, k.end).Some? && !HasBlock(content, k)
    ensures var r := Merge(content, k); Merge(r, k) == r + ("\n" + Block(k))
  {
    var r := content + ("\n" + Block(k));
    BeginStaysFirst(content, k, Find(content, k.begin).value);
    FoundTells(content, k.end);
    AtExtended(content, "\n" + Block(k), k.end, Find(content, k.end).value);
    FoundNoLater(r, k.end, Find(content, k.end).value);
  }

  /** Merging twice is merging once exactly when the text has no marker, or its
      first begin marker stands before its first end marker. */
  lemma IdempotentExactlyWhen(content: string, k: Skill)
    requires WellMarked(k)
    ensures Merge(Merge(content, k), k) == Merge(content, k) <==> NoMarkers(content, k) || HasBlock(content, k)
  {
    if NoMarkers(content, k) || HasBlock(content, k) {
      MergeTwice(content, k);
    } else if Find(content, k.begin).None? {
      StrayEndGrows(content, k);
      assert |Merge(Merge(content, k), k)| > |Merge(content, k)|;
    } else if Find(content, k.end).None? {
      StrayBeginLosesText(content, k);
      assert |Merge(Merge(content, k), k)| < |Merge(content, k)|;
    } else {
      EndBeforeBeginGrows(content, k);
      assert |Merge(Merge(content, k), k)| > |Merge(content, k)|;
    }
  }

  // ---------------------------------------------------------------------
  // The merged text, written out
  // ---------------------------------------------------------------------

  function Newlines(n: nat): string { if n == 0 then "" else Newlines(n - 1) + "\n" }

  function Written(k: Skill): string { k.begin + "\n" + k.body + "\n" + k.end }

  lemma {:induction false} NewlinesGo(t: string, n: nat)
    requires t == "" || t[|t| - 1] != '\n'
    ensures WithoutNewlines(t + Newlines(n)) == t && |Newlines(n)| == n
  {
    if n == 0 {
      assert t + Newlines(0) == t;
    } else {
      NewlinesGo(t, n - 1);
      assert (t + Newlines(n))[..|t + Newlines(n)| - 1] == t + Newlines(n - 1);
    }
  }

  lemma EndsInTwo(t: string, n: nat)
    requires t == "" || t[|t| - 1] != '\n'
    ensures HasSuffix(t + Newlines(n), "\n\n") <==> n >= 2
  {
    var s := t + Newlines(n);
    NewlinesGo(t, n);
    if n >= 2 {
      assert Newlines(n) == Newlines(n - 2) + "\n" + "\n";
      assert s[|s| - 2] == '\n' && s[|s| - 1] == '\n';
      assert s[|s| - 2..] == "\n\n";
    } else if |s| >= 2 {
      assert s[|s| - 2..][1 - n] == t[|t| - 1];
    }
  }

  /** Without a begin marker the block is put at the end, after one empty line:
      what ends in more is left as it is, and an empty text gets none. */
  lemma FirstInsertion(t: string, n: nat, k: Skill)
    requires (t == "" || t[|t| - 1] != '\n') && FreeOf(t + Newlines(n), k.begin)
    ensures t == "" && n == 0 ==> Merge("", k) == Written(k) + "\n"
    ensures n >= 2 ==> Merge(t + Newlines(n), k) == t + Newlines(n) + (Written(k) + "\n")
    ensures n <= 1 && (t != "" || n == 1) ==> Merge(t + Newlines(n), k) == t + "\n\n" + (Written(k) + "\n")
  {
    FoundTells(t + Newlines(n), k.begin);
    NewlinesGo(t, n);
    EndsInTwo(t, n);
    assert Block(k) == Written(k) + "\n";
    if t == "" && n == 0 {
      assert t + Newlines(n) == "" && "" + Block(k) == Block(k);
    }
  }

  /** A block between the first markers is replaced, and what is around it stays. */
  lemma BlockIsReplaced(pre: string, mid: string, post: string, k: Skill)
    requires WellMarked(k)
    requires var content := pre + k.begin + mid + k.end + post;
             && (forall i :: 0 <= i < |pre| ==> !At(content, k.begin, i))
             && (forall i :: 0 <= i < |pre| + |k.begin| + |mid| ==> !At(content, k.end, i))
    ensures Merge(pre + k.begin + mid + k.end + post, k) == pre + Written(k) + post
  {
    var content := pre + k.begin + mid + k.end + post;
    var b, e := |pre|, |pre| + |k.begin| + |mid|;
    assert content[b..b + |k.begin|] == k.begin && content[e..e + |k.end|] == k.end;
    FoundFirst(content, k.begin, b);
    FoundFirst(content, k.end, e);
    TrimmedBlock(k);
    assert content[..b] == pre && content[e + |k.end|..] == post;
  }

  /** A begin marker without an end marker behind it: the block is put at the end. */
  lemma BlockIsAppended(content: string, k: Skill)
    requires Find(content, k.begin).Some?
    requires Find(content, k.end).None? || Find(content, k.end).value <= Find(content, k.begin).value
    ensures Merge(content, k) == content + "\n" + (Written(k) + "\n")
  {
    assert content + ("\n" + Block(k)) == content + "\n" + Block(k);
    assert Block(k) == Written(k) + "\n";
  }
}
