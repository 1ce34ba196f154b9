/** What editing a hook does: to the hook, to the other hooks, when done twice,
    and to what the parser reads. */
module HookEditorLaws {
  import opened Wrappers
  import opened Text
  import opened WireGuardConfig
  import opened HookEditor
  import FieldEditor

  // ---------------------------------------------------------------------
  // White space around the parts of a line
  // ---------------------------------------------------------------------

  predicate PatternSpaces(s: string) { forall i :: 0 <= i < |s| ==> IsPatternSpace(s[i]) }

  lemma {:induction false} SkipSpaces(p: string, s: string)
    requires PatternSpaces(p) && s != "" && !IsPatternSpace(s[0])
    ensures SkipPatternSpace(p + s) == s
  {
    if p == "" {
      assert p + s == s;
    } else {
      assert (p + s)[1..] == p[1..] + s;
      SkipSpaces(p[1..], s);
    }
  }

  lemma {:induction false} SkipGives(s: string) returns (p: string)
    ensures s == p + SkipPatternSpace(s) && PatternSpaces(p)
  {
    if s != "" && IsPatternSpace(s[0]) {
      var p' := SkipGives(s[1..]);
      p := [s[0]] + p';
    } else {
      p := "";
    }
  }

  // ---------------------------------------------------------------------
  // The parts of a hook line
  // ---------------------------------------------------------------------

  /** `line` is a word, an equals sign and a rest, with spaces before and after the word. */
  predicate Parts(line: string, p: string, word: string, q: string, rest: string) {
    && line == p + word + q + "=" + rest
    && PatternSpaces(p) && PatternSpaces(q)
    && word != "" && Trimmed(word) && '=' !in word
  }

  lemma FiveParts(p: string, word: string, q: string, rest: string)
    ensures p + (word + (q + ("=" + rest))) == p + word + q + "=" + rest
  {
  }

  lemma PartsOfHookLine(hook: string, line: string) returns (p: string, word: string, q: string, rest: string)
    requires IsHookLine(hook, line) && Plain(hook)
    ensures Parts(line, p, word, q, rest) && EqualFold(word, hook)
  {
    p := SkipGives(line);
    var a := SkipPatternSpace(line);
    var after := a[|hook|..];
    word := a[..|hook|];
    q := SkipGives(after);
    var b := SkipPatternSpace(after);
    rest := b[1..];
    assert b == "=" + rest by { assert b[..1] == "="; }
    assert a == word + after;
    FiveParts(p, word, q, rest);
    LowerPlain(word, hook);
  }

  lemma LowerPlain(word: string, hook: string)
    requires EqualFold(word, hook) && Plain(hook)
    ensures word != "" && Trimmed(word) && '=' !in word
    ensures word[0] != '[' && word[0] != '#' && word[0] != ';'
  {
    forall i | 0 <= i < |word|
      ensures !IsSpace(word[i]) && word[i] != '=' && word[i] != '[' && word[i] != '#' && word[i] != ';'
    {
      assert LowerChar(word[i]) == Lower(word)[i] == Lower(hook)[i] == LowerChar(hook[i]);
    }
  }

  /** How the parser and the editor take such a line apart. */
  lemma TrimmedParts(line: string, p: string, word: string, q: string, rest: string)
    requires Parts(line, p, word, q, rest)
    ensures Trim(line) == word + q + "=" + TrimRight(rest)
  {
    var core := word + q + "=" + rest;
    assert line == p + core;
    TrimLeftSpaces(p, core);
    assert core[0] == word[0];
    assert core == (word + q + "=") + rest;
    TrimRightKeeps(word + q + "=", rest);
  }

  lemma PartsAreRead(line: string, p: string, word: string, q: string, rest: string)
    requires Parts(line, p, word, q, rest)
    ensures FieldEditor.HasKey(line) && FieldEditor.KeyAt(line) == word
    ensures FieldEditor.ValueAt(line) == Trim(rest) && ValueOf(line) == Trim(rest)
  {
    TrimmedParts(line, p, word, q, rest);
    var t := Trim(line);
    assert t == (word + q) + ['='] + TrimRight(rest);
    IndexOfFirst(word + q, '=', TrimRight(rest));
    assert t[..|word + q|] == word + q && t[|word + q| + 1..] == TrimRight(rest);
    WordAndSpaces(word, q);
    TrimOfTrimRight(rest);
    assert line == (p + word + q) + ['='] + rest;
    IndexOfFirst(p + word + q, '=', rest);
    assert line[|p + word + q| + 1..] == rest;
  }

  lemma WordAndSpaces(word: string, q: string)
    requires PatternSpaces(q) && word != "" && Trimmed(word)
    ensures Trim(word + q) == word
  {
    assert (word + q)[0] == word[0];
    TrimRightSpaces(word, q);
  }

  lemma PartsAreHookLine(hook: string, line: string, p: string, word: string, q: string, rest: string)
    requires Parts(line, p, word, q, rest) && EqualFold(word, hook)
    ensures IsHookLine(hook, line)
  {
    var a := word + q + "=" + rest;
    assert line == p + a && a[0] == word[0];
    SkipSpaces(p, a);
    assert |word| == |hook| && a[..|hook|] == word && a[|hook|..] == q + ("=" + rest);
    SkipSpaces(q, "=" + rest);
    assert ("=" + rest)[..1] == "=";
  }

  /** A line that the parser reads as setting the hook. */
  predicate ParsesAs(h: Hook, line: string) {
    && !FieldEditor.IsComment(line) && !FieldEditor.IsHeader(line) && FieldEditor.HasKey(line)
    && KeyOf(Lower(FieldEditor.KeyAt(line))) == Some(AsScript(h))
  }

  lemma WordIsNoMark(line: string, word: string, rest: string)
    requires Trim(line) == word + rest && word != "" && word[0] != '[' && word[0] != '#' && word[0] != ';'
    ensures !FieldEditor.IsComment(line) && !FieldEditor.IsHeader(line)
  {
    var t := Trim(line);
    assert t[0] == word[0];
    assert "#"[0] == '#' && ";"[0] == ';' && "["[0] == '[';
  }

  lemma PartsAreNoMark(line: string, p: string, word: string, q: string, rest: string)
    requires Parts(line, p, word, q, rest) && word[0] != '[' && word[0] != '#' && word[0] != ';'
    ensures !FieldEditor.IsComment(line) && !FieldEditor.IsHeader(line)
  {
    TrimmedParts(line, p, word, q, rest);
    assert Trim(line) == word + (q + "=" + TrimRight(rest));
    WordIsNoMark(line, word, q + "=" + TrimRight(rest));
  }

  /** What the editor takes for a line of the hook, so does the parser. */
  lemma HookLineParses(h: Hook, line: string)
    requires IsHookLine(HookName(h), line)
    ensures ParsesAs(h, line) && FieldEditor.ValueAt(line) == ValueOf(line)
  {
    HookNames(h);
    var p, word, q, rest := PartsOfHookLine(HookName(h), line);
    PartsAreRead(line, p, word, q, rest);
    LowerPlain(word, HookName(h));
    PartsAreNoMark(line, p, word, q, rest);
  }

  /** No line belongs to two hooks. */
  lemma OneHookOnly(h: Hook, h': Hook, line: string)
    requires IsHookLine(HookName(h), line) && IsHookLine(HookName(h'), line)
    ensures h == h'
  {
    HookLineParses(h, line);
    HookLineParses(h', line);
  }

  /** The new line belongs to its hook, and carries the command. */
  lemma AddedIsHookLine(h: Hook, command: string, eol: string)
    requires Trimmed(command) && (eol == "" || eol == "\r")
    ensures var line := Assignment(HookName(h), command) + eol;
            IsHookLine(HookName(h), line) && ValueOf(line) == command && !FieldEditor.IsHeader(line)
  {
    var hook, rest := HookName(h), " " + command + eol;
    var line := Assignment(hook, command) + eol;
    HookNames(h);
    LowerPlain(hook, hook);
    assert line == "" + hook + " " + "=" + rest;
    assert Parts(line, "", hook, " ", rest);
    PartsAreHookLine(hook, line, "", hook, " ", rest);
    PartsAreRead(line, "", hook, " ", rest);
    HookLineParses(h, line);
    CommandIsTrimmed(command, eol);
  }

  lemma CommandIsTrimmed(command: string, eol: string)
    requires Trimmed(command) && (eol == "" || eol == "\r")
    ensures Trim(" " + command + eol) == command
  {
    TrimSpaces(command);
    var s := " " + command;
    if eol == "" {
      assert s + eol == s;
    } else {
      TrimDropsLast(s + eol);
      assert (s + eol)[..|s|] == s;
    }
  }

  // ---------------------------------------------------------------------
  // Where the new line goes
  // ---------------------------------------------------------------------

  /** An [Interface] section, entered or to come, takes a new line. */
  predicate Inserts(lines: seq<string>, inInterface: bool)
    decreases |lines|
  {
    if lines == [] then inInterface
    else if FieldEditor.IsHeader(lines[0]) then inInterface || Inserts(lines[1..], IsInterfaceHeader(lines[0]))
    else Inserts(lines[1..], inInterface)
  }

  predicate HasInterfaceSection(content: string) { Inserts(Split(content, '\n'), false) }

  /** The lines that are left before the place of the new line. */
  function BeforeNew(hook: string, lines: seq<string>, inInterface: bool): seq<string>
    decreases |lines|
  {
    if lines == [] then []
    else if FieldEditor.IsHeader(lines[0]) then
      if inInterface then [] else [lines[0]] + BeforeNew(hook, lines[1..], IsInterfaceHeader(lines[0]))
    else if inInterface && IsHookLine(hook, lines[0]) then BeforeNew(hook, lines[1..], inInterface)
    else [lines[0]] + BeforeNew(hook, lines[1..], inInterface)
  }

  /** And those after it. */
  function AfterNew(hook: string, lines: seq<string>, inInterface: bool): seq<string>
    decreases |lines|
  {
    if lines == [] then []
    else if FieldEditor.IsHeader(lines[0]) then
      if inInterface then [lines[0]] + Removed(hook, lines[1..], IsInterfaceHeader(lines[0]))
      else AfterNew(hook, lines[1..], IsInterfaceHeader(lines[0]))
    else AfterNew(hook, lines[1..], inInterface)
  }

  /** The lines without those of the hook. */
  function Removed(hook: string, lines: seq<string>, inInterface: bool): seq<string> {
    WithHook(hook, None, lines, inInterface)
  }

  /** Whether the line after some lines is in an [Interface] section. */
  predicate StateAfter(lines: seq<string>, inInterface: bool)
    decreases |lines|
  {
    if lines == [] then inInterface else StateAfter(lines[1..], InterfaceAfter(lines[0], inInterface))
  }

  predicate StartsSection(lines: seq<string>) { lines == [] || FieldEditor.IsHeader(lines[0]) }

  lemma OneMoreBefore(line: string, x: seq<string>, added: string, y: seq<string>, inInterface: bool)
    ensures [line] + (x + y) == ([line] + x) + y
    ensures [line] + (x + [added] + y) == ([line] + x) + [added] + y
    ensures StateAfter([line] + x, inInterface) == StateAfter(x, InterfaceAfter(line, inInterface))
  {
    assert ([line] + x)[1..] == x;
  }

  lemma {:induction false} InsertPoint(hook: string, added: string, lines: seq<string>, inInterface: bool)
    ensures var x, y := BeforeNew(hook, lines, inInterface), AfterNew(hook, lines, inInterface);
            && Removed(hook, lines, inInterface) == x + y && StartsSection(y)
            && WithHook(hook, Some(added), lines, inInterface) == (if Inserts(lines, inInterface) then x + [added] + y else x + y)
            && (Inserts(lines, inInterface) ==> StateAfter(x, inInterface))
    decreases |lines|
  {
    if lines == [] {
    } else if FieldEditor.IsHeader(lines[0]) && inInterface {
      var x, y := BeforeNew(hook, lines, inInterface), AfterNew(hook, lines, inInterface);
      assert x == [] && x + y == y && x + [added] + y == [added] + y;
    } else {
      var next := InterfaceAfter(lines[0], inInterface);
      InsertPoint(hook, added, lines[1..], next);
      if FieldEditor.IsHeader(lines[0]) || !inInterface || !IsHookLine(hook, lines[0]) {
        OneMoreBefore(lines[0], BeforeNew(hook, lines[1..], next), added, AfterNew(hook, lines[1..], next), inInterface);
      }
    }
  }

  lemma {:induction false} ValuesAppend(hook: string, a: seq<string>, b: seq<string>, inInterface: bool)
    ensures HookValues(hook, a + b, inInterface) == HookValues(hook, a, inInterface) + HookValues(hook, b, StateAfter(a, inInterface))
    decreases |a|
  {
    if a == [] {
      assert a + b == b;
    } else {
      assert (a + b)[1..] == a[1..] + b;
      ValuesAppend(hook, a[1..], b, InterfaceAfter(a[0], inInterface));
    }
  }

  lemma {:induction false} RemovedAppend(hook: string, a: seq<string>, b: seq<string>, inInterface: bool)
    ensures Removed(hook, a + b, inInterface) == Removed(hook, a, inInterface) + Removed(hook, b, StateAfter(a, inInterface))
    decreases |a|
  {
    if a == [] {
      assert a + b == b;
    } else {
      assert (a + b)[1..] == a[1..] + b;
      RemovedAppend(hook, a[1..], b, InterfaceAfter(a[0], inInterface));
    }
  }

  /** What stands before a section makes no difference to it. */
  lemma SectionForgets(hook: string, y: seq<string>, p: bool, q: bool)
    requires StartsSection(y)
    ensures HookValues(hook, y, p) == HookValues(hook, y, q) && Removed(hook, y, p) == Removed(hook, y, q)
  {
  }

  lemma {:induction false} WithHookIsFree(hook: string, added: Option<string>, lines: seq<string>, inInterface: bool)
    requires Free(lines, '\n') && (added.Some? ==> '\n' !in added.value)
    ensures Free(WithHook(hook, added, lines, inInterface), '\n')
    ensures lines != [] && !inInterface ==> WithHook(hook, added, lines, inInterface) != []
    decreases |lines|
  {
    if lines != [] {
      var next := if FieldEditor.IsHeader(lines[0]) then IsInterfaceHeader(lines[0]) else inInterface;
      WithHookIsFree(hook, None, lines[1..], next);
      WithHookIsFree(hook, added, lines[1..], next);
    }
  }

  /** The lines of a text edited with a command of one line. */
  lemma LinesOfHookSet(content: string, h: Hook, command: string)
    requires '\n' !in command
    ensures Split(HookSet(content, HookName(h), command), '\n') ==
            WithHook(HookName(h), AddedLine(content, HookName(h), command), Split(content, '\n'), false)
  {
    var hook := HookName(h);
    var lines, added := Split(content, '\n'), AddedLine(content, hook, command);
    SplitParts(content, '\n');
    HookNames(h);
    WithHookIsFree(hook, added, lines, false);
    SplitOfJoin(WithHook(hook, added, lines, false), '\n');
  }

  lemma SplitOfFirst(a: string, y: seq<string>)
    requires Free(y, '\n')
    ensures Split(Join([a] + y, "\n"), '\n') == Split(a, '\n') + y
  {
    assert ([a] + y)[1..] == y;
    if y != [] {
      SplitBoth(a, '\n', Join(y, "\n"));
      SplitOfJoin(y, '\n');
    }
  }

  lemma {:induction false} SplitOfMiddle(x: seq<string>, a: string, y: seq<string>)
    requires Free(x, '\n') && Free(y, '\n')
    ensures Split(Join(x + [a] + y, "\n"), '\n') == x + Split(a, '\n') + y
    decreases |x|
  {
    if x == [] {
      assert x + [a] + y == [a] + y && x + Split(a, '\n') == Split(a, '\n');
      SplitOfFirst(a, y);
    } else {
      var rest := x[1..] + [a] + y;
      assert x + [a] + y == [x[0]] + rest;
      SplitOfMiddle(x[1..], a, y);
      SplitStep(x[0], '\n', Join(rest, "\n"));
      assert [x[0]] + (x[1..] + Split(a, '\n') + y) == x + Split(a, '\n') + y;
    }
  }

  /** The lines that an edit puts in. */
  function NewLines(content: string, h: Hook, command: string): seq<string> {
    Split(Assignment(HookName(h), command) + EndOfLine(content), '\n')
  }

  function Head(content: string, h: Hook): seq<string> { BeforeNew(HookName(h), Split(content, '\n'), false) }

  function Tail(content: string, h: Hook): seq<string> { AfterNew(HookName(h), Split(content, '\n'), false) }

  /** The lines of a text edited with any command. */
  lemma LinesOfEdited(content: string, h: Hook, command: string)
    ensures Removed(HookName(h), Split(content, '\n'), false) == Head(content, h) + Tail(content, h)
    ensures StartsSection(Tail(content, h)) && (HasInterfaceSection(content) ==> StateAfter(Head(content, h), false))
    ensures Split(HookSet(content, HookName(h), command), '\n') ==
            if command != "" && HasInterfaceSection(content) then Head(content, h) + NewLines(content, h, command) + Tail(content, h)
            else Head(content, h) + Tail(content, h)
  {
    var hook, lines, x, y := HookName(h), Split(content, '\n'), Head(content, h), Tail(content, h);
    var added := Assignment(hook, command) + EndOfLine(content);
    InsertPoint(hook, added, lines, false);
    SplitParts(content, '\n');
    WithHookIsFree(hook, None, lines, false);
    FreeParts(x, y);
    if command != "" && HasInterfaceSection(content) {
      SplitOfMiddle(x, added, y);
    } else {
      SplitOfJoin(x + y, '\n');
    }
  }

  lemma FreeParts(x: seq<string>, y: seq<string>)
    requires Free(x + y, '\n')
    ensures Free(x, '\n') && Free(y, '\n')
  {
    assert forall i :: 0 <= i < |x| ==> x[i] == (x + y)[i];
    assert forall i :: 0 <= i < |y| ==> y[i] == (x + y)[|x| + i];
  }

  // ---------------------------------------------------------------------
  // Get after set
  // ---------------------------------------------------------------------

  lemma {:induction false} HookRemoved(h: Hook, lines: seq<string>, inInterface: bool)
    ensures HookValues(HookName(h), Removed(HookName(h), lines, inInterface), inInterface) == []
    decreases |lines|
  {
    if lines == [] {
    } else if FieldEditor.IsHeader(lines[0]) {
      HookRemoved(h, lines[1..], IsInterfaceHeader(lines[0]));
    } else {
      HookRemoved(h, lines[1..], inInterface);
    }
  }

  lemma {:induction false} OtherHookStays(h: Hook, h': Hook, lines: seq<string>, inInterface: bool)
    requires h != h'
    ensures HookValues(HookName(h'), Removed(HookName(h), lines, inInterface), inInterface) ==
            HookValues(HookName(h'), lines, inInterface)
    decreases |lines|
  {
    if lines != [] {
      OtherHookStays(h, h', lines[1..], InterfaceAfter(lines[0], inInterface));
      if IsHookLine(HookName(h), lines[0]) && IsHookLine(HookName(h'), lines[0]) {
        OneHookOnly(h, h', lines[0]);
      }
    }
  }

  /** The values of a hook in an edited text: those that are left, and those that the new lines have. */
  lemma ValuesAfterSet(content: string, h: Hook, command: string, hook: string)
    requires command != "" && HasInterfaceSection(content)
    ensures var x, y := HookValues(hook, Head(content, h), false), HookValues(hook, Tail(content, h), true);
            && HookValues(hook, Split(HookSet(content, HookName(h), command), '\n'), false) ==
               x + HookValues(hook, NewLines(content, h, command), true) + y
            && HookValues(hook, Removed(HookName(h), Split(content, '\n'), false), false) == x + y
  {
    var x, b, y := Head(content, h), NewLines(content, h, command), Tail(content, h);
    LinesOfEdited(content, h, command);
    ValuesAppend(hook, x + b, y, false);
    ValuesAppend(hook, x, b, false);
    ValuesAppend(hook, x, y, false);
    SectionForgets(hook, y, StateAfter(x + b, false), true);
  }

  lemma {:induction false} ValuesAreLines(hook: string, lines: seq<string>, inInterface: bool)
    requires Free(lines, '\n')
    ensures Free(HookValues(hook, lines, inInterface), '\n')
    ensures forall i :: 0 <= i < |HookValues(hook, lines, inInterface)| ==> HookValues(hook, lines, inInterface)[i] != ""
    decreases |lines|
  {
    if lines != [] {
      ValuesAreLines(hook, lines[1..], InterfaceAfter(lines[0], inInterface));
      var eq := IndexOf(lines[0], '=');
      if eq < |lines[0]| {
        TrimIsPart(lines[0][eq + 1..]);
      }
    }
  }

  lemma HookIsOneLine(content: string, hook: string)
    ensures '\n' !in HookOf(content, hook)
  {
    SplitParts(content, '\n');
    ValuesAreLines(hook, Split(content, '\n'), false);
    JoinLacks(HookValues(hook, Split(content, '\n'), false), "; ", '\n');
  }

  lemma NewLineIsOne(content: string, h: Hook, command: string)
    requires '\n' !in command
    ensures NewLines(content, h, command) == [Assignment(HookName(h), command) + EndOfLine(content)]
  {
    HookNames(h);
    SplitWithout(Assignment(HookName(h), command) + EndOfLine(content), '\n');
  }

  lemma OneNewLine(content: string, h: Hook, command: string)
    requires Trimmed(command) && '\n' !in command
    ensures var line := Assignment(HookName(h), command) + EndOfLine(content);
            && NewLines(content, h, command) == [line]
            && IsHookLine(HookName(h), line) && ValueOf(line) == command && !FieldEditor.IsHeader(line)
  {
    NewLineIsOne(content, h, command);
    AddedIsHookLine(h, command, EndOfLine(content));
  }

  lemma OneValue(hook: string, line: string)
    requires IsHookLine(hook, line) && ValueOf(line) != "" && !FieldEditor.IsHeader(line)
    ensures HookValues(hook, [line], true) == [ValueOf(line)]
  {
    var none: seq<string> := [];
    assert [line][1..] == none && HookValues(hook, none, true) == [];
  }

  lemma OneLineReadsBack(content: string, h: Hook, command: string)
    requires Trimmed(command) && command != "" && '\n' !in command && HasInterfaceSection(content)
    ensures HookOf(HookSet(content, HookName(h), command), HookName(h)) == command
  {
    var line := Assignment(HookName(h), command) + EndOfLine(content);
    OneNewLine(content, h, command);
    OneValue(HookName(h), line);
    HookRemoved(h, Split(content, '\n'), false);
    ValuesAfterSet(content, h, command, HookName(h));
    var x, y := HookValues(HookName(h), Head(content, h), false), HookValues(HookName(h), Tail(content, h), true);
    assert x + y == [] && |x| == 0 && |y| == 0;
    assert x + [command] + y == [command];
  }

  /** Reading a hook back after setting it: the command, exactly when it is of one line. */
  lemma GetAfterSet(content: string, h: Hook, command: string)
    requires Trimmed(command)
    ensures HookOf(HookSet(content, HookName(h), command), HookName(h)) == (if HasInterfaceSection(content) then command else "")
            <==> !HasInterfaceSection(content) || '\n' !in command
  {
    if command != "" && HasInterfaceSection(content) && '\n' !in command {
      OneLineReadsBack(content, h, command);
    } else if command != "" && HasInterfaceSection(content) {
      HookIsOneLine(HookSet(content, HookName(h), command), HookName(h));
    } else {
      LinesOfEdited(content, h, command);
      HookRemoved(h, Split(content, '\n'), false);
    }
  }

  lemma MoreIsLonger(x: seq<string>, b: seq<string>, y: seq<string>)
    requires forall i :: 0 <= i < |b| ==> b[i] != ""
    ensures Join(x + b + y, "; ") == Join(x + y, "; ") <==> b == []
  {
    if b == [] {
      assert x + b + y == x + y;
    } else {
      JoinLength(x + b + y, "; ");
      JoinLength(x + y, "; ");
      TotalAppend(x + b, y);
      TotalAppend(x, b);
      TotalAppend(x, y);
      assert Total(b) >= |b[0]|;
      assert |Join(x + b + y, "; ")| > |Join(x + y, "; ")|;
    }
  }

  lemma NewValuesAreThere(content: string, h: Hook, command: string, hook: string)
    ensures var b := HookValues(hook, NewLines(content, h, command), true); forall i :: 0 <= i < |b| ==> b[i] != ""
  {
    SplitParts(Assignment(HookName(h), command) + EndOfLine(content), '\n');
    ValuesAreLines(hook, NewLines(content, h, command), true);
  }

  /** Another hook is unchanged exactly when no new line sets it. */
  lemma OtherHooksAreUnchanged(content: string, h: Hook, command: string, h': Hook)
    requires Trimmed(command) && h != h'
    ensures HookOf(HookSet(content, HookName(h), command), HookName(h')) == HookOf(content, HookName(h'))
            <==> command == "" || !HasInterfaceSection(content) || HookValues(HookName(h'), NewLines(content, h, command), true) == []
  {
    OtherHookStays(h, h', Split(content, '\n'), false);
    if command != "" && HasInterfaceSection(content) {
      ValuesAfterSet(content, h, command, HookName(h'));
      NewValuesAreThere(content, h, command, HookName(h'));
      MoreIsLonger(HookValues(HookName(h'), Head(content, h), false), HookValues(HookName(h'), NewLines(content, h, command), true),
                   HookValues(HookName(h'), Tail(content, h), true));
    } else {
      LinesOfEdited(content, h, command);
    }
  }

  /** A command of one line sets no other hook. */
  lemma OneLineSetsNoOther(content: string, h: Hook, command: string, h': Hook)
    requires Trimmed(command) && h != h' && '\n' !in command
    ensures HookValues(HookName(h'), NewLines(content, h, command), true) == []
  {
    OneNewLine(content, h, command);
    var line := NewLines(content, h, command)[0];
    if IsHookLine(HookName(h'), line) {
      OneHookOnly(h, h', line);
    }
    assert NewLines(content, h, command)[1..] == [];
  }

  // ---------------------------------------------------------------------
  // Editing twice
  // ---------------------------------------------------------------------

  lemma {:induction false} RemovedTwice(hook: string, lines: seq<string>, inInterface: bool)
    ensures Removed(hook, Removed(hook, lines, inInterface), inInterface) == Removed(hook, lines, inInterface)
    ensures |Removed(hook, lines, inInterface)| <= |lines|
    decreases |lines|
  {
    if lines != [] {
      RemovedTwice(hook, lines[1..], InterfaceAfter(lines[0], inInterface));
    }
  }

  /** Nothing more is removed from the parts of what is left. */
  lemma PartsStay(hook: string, x: seq<string>, y: seq<string>)
    requires Removed(hook, x + y, false) == x + y
    ensures Removed(hook, x, false) == x && Removed(hook, y, StateAfter(x, false)) == y
  {
    RemovedAppend(hook, x, y, false);
    RemovedTwice(hook, x, false);
    RemovedTwice(hook, y, StateAfter(x, false));
    var x', y' := Removed(hook, x, false), Removed(hook, y, StateAfter(x, false));
    assert |x'| == |x|;
    assert (x' + y')[..|x|] == x' && (x + y)[..|x|] == x && (x' + y')[|x|..] == y' && (x + y)[|x|..] == y;
  }

  /** No section of an interface ends in these lines. */
  predicate StaysOpen(lines: seq<string>, inInterface: bool)
    decreases |lines|
  {
    lines == [] || (!(inInterface && FieldEditor.IsHeader(lines[0])) && StaysOpen(lines[1..], InterfaceAfter(lines[0], inInterface)))
  }

  lemma {:induction false} HeadStaysOpen(hook: string, lines: seq<string>, inInterface: bool)
    ensures StaysOpen(BeforeNew(hook, lines, inInterface), inInterface)
    decreases |lines|
  {
    if lines != [] && !(FieldEditor.IsHeader(lines[0]) && inInterface) {
      var next := InterfaceAfter(lines[0], inInterface);
      HeadStaysOpen(hook, lines[1..], next);
      var x := BeforeNew(hook, lines[1..], next);
      assert ([lines[0]] + x)[1..] == x;
    }
  }

  lemma {:induction false} PlaceAfter(hook: string, x: seq<string>, z: seq<string>, inInterface: bool)
    requires StaysOpen(x, inInterface)
    ensures BeforeNew(hook, x + z, inInterface) == Removed(hook, x, inInterface) + BeforeNew(hook, z, StateAfter(x, inInterface))
    ensures AfterNew(hook, x + z, inInterface) == AfterNew(hook, z, StateAfter(x, inInterface))
    decreases |x|
  {
    if x == [] {
      assert x + z == z;
    } else {
      assert (x + z)[1..] == x[1..] + z;
      PlaceAfter(hook, x[1..], z, InterfaceAfter(x[0], inInterface));
    }
  }

  lemma {:induction false} AllRemovedStaysOpen(hook: string, lines: seq<string>)
    requires Removed(hook, lines, true) == []
    ensures StaysOpen(lines, true) && StateAfter(lines, true)
    decreases |lines|
  {
    if lines != [] {
      AllRemovedStaysOpen(hook, lines[1..]);
    }
  }

  lemma {:induction false} OpenInserts(x: seq<string>, z: seq<string>, inInterface: bool)
    requires StateAfter(x, inInterface)
    ensures Inserts(x + z, inInterface)
    decreases |x| + |z|
  {
    if x != [] {
      assert (x + z)[1..] == x[1..] + z;
      OpenInserts(x[1..], z, InterfaceAfter(x[0], inInterface));
    } else if z != [] {
      assert x + z == z;
      if !FieldEditor.IsHeader(z[0]) {
        OpenInserts(x, z[1..], true);
        assert x + z[1..] == z[1..];
      }
    }
  }

  /** The new lines are all of the hook. */
  predicate OnlyItsLines(content: string, h: Hook, command: string) {
    Removed(HookName(h), NewLines(content, h, command), true) == []
  }

  lemma InsertsAround(x: seq<string>, b: seq<string>, y: seq<string>)
    requires StateAfter(x, false)
    ensures Inserts(x + b + y, false)
  {
    assert x + b + y == x + (b + y);
    OpenInserts(x, b + y, false);
  }

  /** A text has its section also after the edit. */
  lemma SectionStays(content: string, h: Hook, command: string)
    requires command != "" && HasInterfaceSection(content)
    ensures HasInterfaceSection(HookSet(content, HookName(h), command))
  {
    LinesOfEdited(content, h, command);
    InsertsAround(Head(content, h), NewLines(content, h, command), Tail(content, h));
  }

  /** What a second edit keeps of the lines after the first. */
  lemma KeptBySecond(content: string, h: Hook, command: string)
    requires command != "" && HasInterfaceSection(content)
    ensures Removed(HookName(h), Split(HookSet(content, HookName(h), command), '\n'), false) ==
            Head(content, h) + Removed(HookName(h), NewLines(content, h, command), true) + Tail(content, h)
  {
    var hook := HookName(h);
    var x, b, y := Head(content, h), NewLines(content, h, command), Tail(content, h);
    LinesOfEdited(content, h, command);
    RemovedTwice(hook, Split(content, '\n'), false);
    PartsStay(hook, x, y);
    RemovedAppend(hook, x + b, y, false);
    RemovedAppend(hook, x, b, false);
    SectionForgets(hook, y, StateAfter(x + b, false), StateAfter(x, false));
  }

  lemma PlaceAround(hook: string, x: seq<string>, b: seq<string>, y: seq<string>)
    requires StaysOpen(x, false) && StateAfter(x, false) && StartsSection(y)
    requires Removed(hook, x, false) == x && Removed(hook, b, true) == [] && Removed(hook, y, true) == y
    ensures BeforeNew(hook, x + b + y, false) == x && AfterNew(hook, x + b + y, false) == y
  {
    AllRemovedStaysOpen(hook, b);
    assert x + b + y == x + (b + y);
    PlaceAfter(hook, x, b + y, false);
    PlaceAfter(hook, b, y, true);
    assert AfterNew(hook, y, true) == Removed(hook, y, true) && BeforeNew(hook, y, true) == [];
  }

  /** When the new lines are all of the hook, the second edit finds the place of the first. */
  lemma SamePlace(content: string, h: Hook, command: string)
    requires command != "" && HasInterfaceSection(content) && OnlyItsLines(content, h, command)
    ensures var once := HookSet(content, HookName(h), command);
            Head(once, h) == Head(content, h) && Tail(once, h) == Tail(content, h)
  {
    var hook, x, y := HookName(h), Head(content, h), Tail(content, h);
    LinesOfEdited(content, h, command);
    RemovedTwice(hook, Split(content, '\n'), false);
    PartsStay(hook, x, y);
    HeadStaysOpen(hook, Split(content, '\n'), false);
    PlaceAround(hook, x, NewLines(content, h, command), y);
  }

  /** The ends of line differ where the texts do. */
  lemma EndsTell(content: string, once: string, h: Hook, command: string)
    ensures |NewLines(content, h, command)| == |NewLines(once, h, command)|
    ensures NewLines(content, h, command) == NewLines(once, h, command) <==> (HasCRLF(content) <==> HasCRLF(once))
  {
    var line := Assignment(HookName(h), command);
    SplitSuffix(line, '\n', EndOfLine(content));
    SplitSuffix(line, '\n', EndOfLine(once));
    JoinOfSplit(line + EndOfLine(content), '\n');
    JoinOfSplit(line + EndOfLine(once), '\n');
    if HasCRLF(content) != HasCRLF(once) {
      assert |line + EndOfLine(content)| != |line + EndOfLine(once)|;
    }
  }

  lemma TwiceIsOnce(content: string, h: Hook, command: string)
    requires command != "" && HasInterfaceSection(content)
    ensures var once := HookSet(content, HookName(h), command);
            HookSet(once, HookName(h), command) == once <==>
            OnlyItsLines(content, h, command) && (HasCRLF(once) <==> HasCRLF(content))
  {
    var once := HookSet(content, HookName(h), command);
    var twice := HookSet(once, HookName(h), command);
    var x, b, y := Head(content, h), NewLines(content, h, command), Tail(content, h);
    var b' := NewLines(once, h, command);
    LinesOfEdited(content, h, command);
    SectionStays(content, h, command);
    KeptBySecond(content, h, command);
    LinesOfEdited(once, h, command);
    EndsTell(content, once, h, command);
    JoinOfSplit(once, '\n');
    JoinOfSplit(twice, '\n');
    assert twice == once <==> Split(twice, '\n') == Split(once, '\n');
    if OnlyItsLines(content, h, command) {
      SamePlace(content, h, command);
      SameMiddle(x, b, b', y);
    } else {
      assert |Split(twice, '\n')| > |Split(once, '\n')|;
    }
  }

  lemma SameMiddle(x: seq<string>, b: seq<string>, b': seq<string>, y: seq<string>)
    requires |b| == |b'|
    ensures x + b + y == x + b' + y <==> b == b'
  {
    assert (x + b + y)[|x|..|x| + |b|] == b && (x + b' + y)[|x|..|x| + |b'|] == b';
  }

  // ---------------------------------------------------------------------
  // Line endings
  // ---------------------------------------------------------------------

  predicate EndsInReturn(line: string) { line != "" && line[|line| - 1] == '\r' }

  /** Some line but the last ends in a carriage return. */
  predicate ReturnInside(lines: seq<string>) { exists i :: 0 <= i < |lines| - 1 && EndsInReturn(lines[i]) }

  lemma CRLFIsSomewhere(a: string, b: string)
    requires '\n' !in a && HasCRLF(a + "\n" + b)
    ensures EndsInReturn(a) || HasCRLF(b)
  {
    var s := a + "\n" + b;
    var i :| 0 <= i < |s| - 1 && s[i] == '\r' && s[i + 1] == '\n';
    assert forall j :: 0 <= j < |a| ==> s[j] == a[j] && a[j] != '\n';
    assert s[|a|] == '\n';
    if i > |a| {
      assert b[i - |a| - 1] == s[i] && b[i - |a|] == s[i + 1];
    }
  }

  lemma CRLFAfterLine(a: string, b: string)
    requires '\n' !in a
    ensures HasCRLF(a + "\n" + b) <==> EndsInReturn(a) || HasCRLF(b)
  {
    var s := a + "\n" + b;
    if EndsInReturn(a) {
      assert s[|a| - 1] == '\r' && s[|a|] == '\n';
    } else if HasCRLF(b) {
      var j :| 0 <= j < |b| - 1 && b[j] == '\r' && b[j + 1] == '\n';
      assert s[|a| + 1 + j] == b[j] && s[|a| + 1 + j + 1] == b[j + 1];
    } else if HasCRLF(s) {
      CRLFIsSomewhere(a, b);
    }
  }

  lemma ReturnInsideMore(line: string, lines: seq<string>)
    requires lines != []
    ensures ReturnInside([line] + lines) <==> EndsInReturn(line) || ReturnInside(lines)
  {
    var all := [line] + lines;
    if ReturnInside(lines) {
      var i :| 0 <= i < |lines| - 1 && EndsInReturn(lines[i]);
      assert all[i + 1] == lines[i];
    }
    if EndsInReturn(line) {
      assert all[0] == line;
    }
  }

  lemma {:induction false} CRLFOfLines(lines: seq<string>)
    requires lines != [] && Free(lines, '\n')
    ensures HasCRLF(Join(lines, "\n")) <==> ReturnInside(lines)
    decreases |lines|
  {
    if |lines| == 1 {
      NoCRLF(lines[0]);
    } else {
      CRLFOfLines(lines[1..]);
      CRLFAfterLine(lines[0], Join(lines[1..], "\n"));
      ReturnInsideMore(lines[0], lines[1..]);
      assert [lines[0]] + lines[1..] == lines;
    }
  }

  lemma NoCRLF(line: string)
    requires '\n' !in line
    ensures !HasCRLF(line)
  {
  }

  lemma CRLFOfText(content: string)
    ensures HasCRLF(content) <==> ReturnInside(Split(content, '\n'))
  {
    SplitParts(content, '\n');
    JoinOfSplit(content, '\n');
    CRLFOfLines(Split(content, '\n'));
  }

  /** The new line is put in as the last of the text. */
  predicate InsertsAtEnd(lines: seq<string>, inInterface: bool)
    decreases |lines|
  {
    if lines == [] then inInterface
    else if FieldEditor.IsHeader(lines[0]) then !inInterface && InsertsAtEnd(lines[1..], IsInterfaceHeader(lines[0]))
    else InsertsAtEnd(lines[1..], inInterface)
  }

  /** No line but the last ends in a carriage return. */
  predicate NoReturnInside(lines: seq<string>)
    decreases |lines|
  {
    |lines| <= 1 || (!EndsInReturn(lines[0]) && NoReturnInside(lines[1..]))
  }

  lemma {:induction false} NoReturnIsNone(lines: seq<string>)
    ensures NoReturnInside(lines) <==> !ReturnInside(lines)
    decreases |lines|
  {
    if |lines| > 1 {
      NoReturnIsNone(lines[1..]);
      ReturnInsideMore(lines[0], lines[1..]);
      assert [lines[0]] + lines[1..] == lines;
    }
  }

  lemma NoReturnMore(line: string, lines: seq<string>)
    requires NoReturnInside(lines) && (lines != [] ==> !EndsInReturn(line))
    ensures NoReturnInside([line] + lines)
  {
    assert ([line] + lines)[1..] == lines;
  }

  /** Without a carriage return before, there is none after. */
  lemma {:induction false} NoReturnStays(hook: string, lines: seq<string>, inInterface: bool)
    requires NoReturnInside(lines)
    ensures NoReturnInside(Removed(hook, lines, inInterface))
    ensures lines == [] ==> Removed(hook, lines, inInterface) == []
    decreases |lines|
  {
    if lines != [] {
      var next := InterfaceAfter(lines[0], inInterface);
      NoReturnStays(hook, lines[1..], next);
      NoReturnMore(lines[0], Removed(hook, lines[1..], next));
    }
  }

  predicate AnyEndsInReturn(lines: seq<string>) { exists i :: 0 <= i < |lines| && EndsInReturn(lines[i]) }

  lemma ReturnInsideAppend(a: seq<string>, b: seq<string>)
    requires b != []
    ensures ReturnInside(a + b) <==> AnyEndsInReturn(a) || ReturnInside(b)
  {
    var all := a + b;
    if AnyEndsInReturn(a) {
      var i :| 0 <= i < |a| && EndsInReturn(a[i]);
      assert all[i] == a[i];
    }
    if ReturnInside(b) {
      var i :| 0 <= i < |b| - 1 && EndsInReturn(b[i]);
      assert all[|a| + i] == b[i];
    }
  }

  predicate EndsWith(s: string, c: char) { s != "" && s[|s| - 1] == c }

  lemma {:induction false} LastOfSplit(s: string, c: char, e: char)
    requires EndsWith(s, e) && e != c
    ensures var parts := Split(s, c); EndsWith(parts[|parts| - 1], e)
  {
    var rest := Split(s[1..], c);
    if |s| == 1 {
      assert s[1..] == "" && rest == [""];
    } else {
      assert EndsWith(s[1..], e);
      LastOfSplit(s[1..], c, e);
      var parts := Split(s, c);
      if s[0] != c && |rest| == 1 {
        assert parts == [[s[0]] + rest[0]];
      } else {
        assert parts[|parts| - 1] == rest[|rest| - 1];
      }
    }
  }

  /** The new lines end as the text's do, and in between as the command's. */
  lemma ReturnsOfNew(content: string, h: Hook, command: string)
    requires Trimmed(command) && command != ""
    ensures var b := NewLines(content, h, command);
            && (ReturnInside(b) <==> HasCRLF(command))
            && (AnyEndsInReturn(b) <==> HasCRLF(command) || HasCRLF(content))
  {
    var b, line := NewLines(content, h, command), Assignment(HookName(h), command) + EndOfLine(content);
    HookNames(h);
    CRLFOfText(line);
    CRLFOfCommand(HookName(h) + " = ", command, EndOfLine(content));
    assert line == HookName(h) + " = " + command + EndOfLine(content);
    assert line[|line| - 1] == if HasCRLF(content) then '\r' else command[|command| - 1];
    LastOfSplit(line, '\n', line[|line| - 1]);
    var before, last := b[..|b| - 1], b[|b| - 1];
    assert b == before + [last];
    ReturnInsideAppend(before, [last]);
    assert EndsInReturn(last) <==> HasCRLF(content);
    assert AnyEndsInReturn(b) <==> AnyEndsInReturn(before) || EndsInReturn(last) by {
      if AnyEndsInReturn(before) {
        var i :| 0 <= i < |before| && EndsInReturn(before[i]);
        assert b[i] == before[i];
      }
    }
  }

  lemma CRLFOfCommand(p: string, command: string, eol: string)
    requires '\r' !in p && (eol == "" || eol == "\r")
    ensures HasCRLF(p + command + eol) <==> HasCRLF(command)
  {
    var s := p + command + eol;
    if HasCRLF(command) {
      var i :| 0 <= i < |command| - 1 && command[i] == '\r' && command[i + 1] == '\n';
      assert s[|p| + i] == command[i] && s[|p| + i + 1] == command[i + 1];
    }
    assert forall k :: 0 <= k < |p| ==> s[k] == p[k];
    assert forall k :: |p| + |command| <= k < |s| ==> s[k] == eol[k - |p| - |command|];
    if HasCRLF(s) {
      var i :| 0 <= i < |s| - 1 && s[i] == '\r' && s[i + 1] == '\n';
      assert |p| <= i && i + 1 < |p| + |command|;
      assert command[i - |p|] == s[i] && command[i - |p| + 1] == s[i + 1];
    }
  }

  lemma {:induction false} EndsTheText(hook: string, lines: seq<string>, inInterface: bool)
    requires Inserts(lines, inInterface)
    ensures AfterNew(hook, lines, inInterface) == [] <==> InsertsAtEnd(lines, inInterface)
    decreases |lines|
  {
    if lines != [] && !(FieldEditor.IsHeader(lines[0]) && inInterface) {
      EndsTheText(hook, lines[1..], InterfaceAfter(lines[0], inInterface));
    }
  }

  /** The lines that are left of a text without those of the hook. */
  function Kept(content: string, h: Hook): seq<string> { Removed(HookName(h), Split(content, '\n'), false) }

  /** When an edit is done again with the same line ending: the new lines have
      none of their own, and they do not end the text or follow lines that end
      as the text's do. */
  predicate KeepsLineEnding(content: string, h: Hook, command: string) {
    if InsertsAtEnd(Split(content, '\n'), false) then
      HasCRLF(content) <==> HasCRLF(command) || AnyEndsInReturn(Kept(content, h))
    else HasCRLF(command) ==> HasCRLF(content)
  }

  lemma ReturnsAround(x: seq<string>, b: seq<string>, y: seq<string>)
    requires b != []
    ensures ReturnInside(x + b + y) <==>
            AnyEndsInReturn(x) || (if y == [] then ReturnInside(b) else AnyEndsInReturn(b) || ReturnInside(y))
    ensures y != [] ==> (ReturnInside(x + y) <==> AnyEndsInReturn(x) || ReturnInside(y))
  {
    assert x + b + y == x + (b + y);
    ReturnInsideAppend(x, b + y);
    if y == [] {
      assert b + y == b;
    } else {
      ReturnInsideAppend(b, y);
      ReturnInsideAppend(x, y);
    }
  }

  lemma NoneLeft(content: string, h: Hook)
    requires !HasCRLF(content)
    ensures !ReturnInside(Kept(content, h))
  {
    CRLFOfText(content);
    NoReturnIsNone(Split(content, '\n'));
    NoReturnStays(HookName(h), Split(content, '\n'), false);
    NoReturnIsNone(Kept(content, h));
  }

  lemma LineEndingAfterSet(content: string, h: Hook, command: string)
    requires Trimmed(command) && command != "" && HasInterfaceSection(content)
    ensures KeepsLineEnding(content, h, command) <==> (HasCRLF(HookSet(content, HookName(h), command)) <==> HasCRLF(content))
  {
    var x, b, y := Head(content, h), NewLines(content, h, command), Tail(content, h);
    LinesOfEdited(content, h, command);
    CRLFOfText(HookSet(content, HookName(h), command));
    ReturnsOfNew(content, h, command);
    EndsTheText(HookName(h), Split(content, '\n'), false);
    ReturnsAround(x, b, y);
    if y == [] {
      assert x + y == x;
    } else if !HasCRLF(content) {
      NoneLeft(content, h);
    }
  }

  /** An edit done twice does what it does once, exactly when it removes only, or
      there is no section to edit, or all the new lines are of the hook and the
      line ending is the same both times. */
  lemma SetIsIdempotentExactlyWhen(content: string, h: Hook, command: string)
    requires Trimmed(command)
    ensures HookSet(HookSet(content, HookName(h), command), HookName(h), command) == HookSet(content, HookName(h), command)
            <==> command == "" || !HasInterfaceSection(content)
                 || (OnlyItsLines(content, h, command) && KeepsLineEnding(content, h, command))
  {
    if command != "" && HasInterfaceSection(content) {
      TwiceIsOnce(content, h, command);
      LineEndingAfterSet(content, h, command);
    } else {
      NothingToInsert(content, h, command);
    }
  }

  lemma OneLineIsOnlyItsOwn(content: string, h: Hook, command: string)
    requires Trimmed(command) && '\n' !in command
    ensures OnlyItsLines(content, h, command)
  {
    OneNewLine(content, h, command);
    var b := NewLines(content, h, command);
    assert b[1..] == [] && Removed(HookName(h), b[1..], true) == [];
  }

  lemma NothingToInsert(content: string, h: Hook, command: string)
    requires command == "" || !HasInterfaceSection(content)
    ensures HookSet(HookSet(content, HookName(h), command), HookName(h), command) == HookSet(content, HookName(h), command)
  {
    var hook, lines := HookName(h), Split(content, '\n');
    var once := HookSet(content, hook, command);
    LinesOfEdited(content, h, command);
    RemovedTwice(hook, lines, false);
    RemovedInserts(hook, lines, false);
    LinesOfEdited(once, h, command);
    JoinOfSplit(once, '\n');
    JoinOfSplit(HookSet(once, hook, command), '\n');
  }

  lemma {:induction false} RemovedInserts(hook: string, lines: seq<string>, inInterface: bool)
    ensures Inserts(Removed(hook, lines, inInterface), inInterface) <==> Inserts(lines, inInterface)
    decreases |lines|
  {
    if lines != [] {
      RemovedInserts(hook, lines[1..], InterfaceAfter(lines[0], inInterface));
    }
  }

  lemma LoneHeader(content: string, h: Hook)
    requires '\n' !in content && FieldEditor.IsHeader(content) && IsInterfaceHeader(content)
    ensures HasInterfaceSection(content) && InsertsAtEnd(Split(content, '\n'), false) && Kept(content, h) == [content]
  {
    SplitWithout(content, '\n');
    var lines := Split(content, '\n');
    assert lines[1..] == [];
    assert Removed(HookName(h), lines, false) == [content] + Removed(HookName(h), [], true);
  }

  lemma LoneHeaderFlips(content: string, h: Hook, command: string)
    requires '\n' !in content && FieldEditor.IsHeader(content) && IsInterfaceHeader(content) && EndsInReturn(content)
    requires Trimmed(command) && '\n' !in command && command != ""
    ensures HookSet(HookSet(content, HookName(h), command), HookName(h), command) != HookSet(content, HookName(h), command)
  {
    LoneHeader(content, h);
    NoCRLF(content);
    assert EndsInReturn(Kept(content, h)[0]);
    SetIsIdempotentExactlyWhen(content, h, command);
  }

  /** A text whose only line break is the one the edit adds. */
  lemma LineEndingFlips() returns (content: string)
    ensures content == "[Interface]\r"
    ensures HookSet(HookSet(content, HookName(PreUp), "x"), HookName(PreUp), "x") != HookSet(content, HookName(PreUp), "x")
  {
    content := "[Interface]\r";
    ReturnAfterHeader(content);
    LoneHeaderFlips(content, PreUp, "x");
  }

  lemma ReturnAfterHeader(content: string)
    requires content == "[Interface]\r"
    ensures FieldEditor.IsHeader(content) && IsInterfaceHeader(content)
  {
    TrimDropsLast(content);
    assert content[..|content| - 1] == "[Interface]";
    TrimmedStays("[Interface]");
    assert Lower("[Interface]") == "[interface]" == Lower("[interface]");
  }
}
