/** Editing a hook in the text is setting it in the parsed configuration. */
module HookParsing {
  import opened Wrappers
  import opened Text
  import opened WireGuardConfig
  import opened ConfigParser
  import opened ConfigRoundTrip
  import opened HookEditor
  import opened HookEditorLaws
  import ConfigAccepted
  import FieldEditor

  // ---------------------------------------------------------------------
  // What the parser does to one line
  // ---------------------------------------------------------------------

  /** No bracketed line but the two headers. */
  predicate KnownHeader(line: string) {
    FieldEditor.IsHeader(line) ==> FieldEditor.KindOf(line) != FieldEditor.OtherSection
  }

  predicate KnownHeaders(lines: seq<string>) { forall i :: 0 <= i < |lines| ==> KnownHeader(lines[i]) }

  lemma HeaderIsNoKey(line: string)
    ensures IsInterfaceHeader(line) <==> Lower(Trim(line)) == "[interface]"
    ensures FieldEditor.KindOf(line) == FieldEditor.InterfaceSection <==> IsInterfaceHeader(line)
    ensures FieldEditor.KindOf(line) == FieldEditor.PeerSection <==> Lower(Trim(line)) == "[peer]"
    ensures FieldEditor.KindOf(line) != FieldEditor.OtherSection ==> FieldEditor.IsHeader(line)
  {
    assert Lower("[interface]") == "[interface]" && Lower("[peer]") == "[peer]";
    var t := Trim(line);
    if FieldEditor.KindOf(line) != FieldEditor.OtherSection {
      assert Lower(t)[0] == '[' && LowerChar(t[0]) == '[';
      assert t[0] == '[' && "["[0] == '[';
    }
  }

  /** The value of the hook after a line. */
  function ScriptAfter(h: Hook, script: string, line: string, inInterface: bool): string {
    if inInterface && ParsesAs(h, line) then AppendScript(script, FieldEditor.ValueAt(line)) else script
  }

  lemma OtherScriptReads(scripts: Scripts, h: Hook, value: string, g: Hook, value': string)
    requires g != h
    ensures scripts[h := value][g := value'] == scripts[g := value'][h := value]
  {
  }

  /** Setting a field in states that differ in one hook. */
  lemma FieldReads(h: Hook, i: Interface, script: string, k: InterfaceKey, value: string)
    requires WithField(i, k, value).Some?
    ensures var j := WithField(i, k, value).value;
            WithField(i.(scripts := i.scripts[h := script]), k, value) ==
            Some(j.(scripts := j.scripts[h := if k == AsScript(h) then AppendScript(script, value) else script]))
  {
    match k
    case AsText(_) =>
    case AsInt(_) =>
    case AsList(_) =>
    case AsScript(g) =>
      if g == h {
        assert i.scripts[h := script][h := AppendScript(script, value)] ==
               i.scripts[h := AppendScript(i.scripts[h], value)][h := AppendScript(script, value)];
      } else {
        OtherScriptReads(i.scripts, h, script, g, AppendScript(i.scripts[g], value));
      }
  }

  function WithScript(i: Interface, h: Hook, script: string): Interface { i.(scripts := i.scripts[h := script]) }

  lemma KeyReads(h: Hook, i: Interface, script: string, key: string, value: string)
    requires WithKey(i, key, value).Some?
    ensures var script' := if KeyOf(Lower(key)) == Some(AsScript(h)) then AppendScript(script, value) else script;
            WithKey(WithScript(i, h, script), key, value) == Some(WithScript(WithKey(i, key, value).value, h, script'))
  {
    var k := KeyOf(Lower(key));
    if k.Some? {
      FieldReads(h, i, script, k.value, value);
    }
  }

  /** The scan with another value of the hook, some lines later. */
  function Changed(s: Scan, h: Hook, script: string, line: nat): Scan {
    s.(iface := WithScript(s.iface, h, script), line := line)
  }

  lemma KeyLineReads(h: Hook, s: Scan, script: string, n: nat, key: string, value: string)
    requires KeyLine(s, key, value).Ok?
    ensures var script' := if s.section == InInterface && KeyOf(Lower(key)) == Some(AsScript(h))
                           then AppendScript(script, value) else script;
            KeyLine(Changed(s, h, script, n), key, value) == Ok(Changed(KeyLine(s, key, value).value, h, script', n))
    ensures KeyLine(s, key, value).value.section == s.section
  {
    if s.section == InInterface {
      KeyReads(h, s.iface, script, key, value);
    } else {
      PeerKeyReads(s.peers[|s.peers| - 1], key, value, s.line, n);
    }
  }

  lemma PeerKeyReads(p: Peer, key: string, value: string, m: nat, n: nat)
    requires WithPeerKey(p, key, value, m).Ok?
    ensures WithPeerKey(p, key, value, n) == WithPeerKey(p, key, value, m)
  {
  }

  /** Reading a line: the rest of the state does not depend on the hook. */
  lemma TrimmedLineReads(h: Hook, s: Scan, script: string, n: nat, line: string)
    requires KnownHeader(line) && ParseTrimmed(s, Trim(line)).Ok?
    ensures var script' := ScriptAfter(h, script, line, s.section == InInterface);
            ParseTrimmed(Changed(s, h, script, n), Trim(line)) == Ok(Changed(ParseTrimmed(s, Trim(line)).value, h, script', n))
    ensures ParseTrimmed(s, Trim(line)).value.section == InInterface <==>
            InterfaceAfter(line, s.section == InInterface)
  {
    var t := Trim(line);
    HeaderIsNoKey(line);
    if IsSkipped(t) {
      FieldEditor.CommentIsNoHeader(line);
    } else if Lower(t) == "[interface]" {
    } else if Lower(t) == "[peer]" {
    } else {
      assert !FieldEditor.IsHeader(line);
      KeyLineReads(h, s, script, n, FieldEditor.KeyAt(line), FieldEditor.ValueAt(line));
    }
  }

  lemma LineReads(h: Hook, s: Scan, script: string, n: nat, line: string)
    requires KnownHeader(line) && ParseLine(s, line).Ok?
    ensures var script' := ScriptAfter(h, script, line, s.section == InInterface);
            ParseLine(Changed(s, h, script, n), line) == Ok(Changed(ParseLine(s, line).value, h, script', n + 1))
    ensures ParseLine(s, line).value.section == InInterface <==> InterfaceAfter(line, s.section == InInterface)
  {
    var s1, s' := s.(line := s.line + 1), Changed(s, h, script, n);
    LineParses(s, line, Trim(line), ParseTrimmed(s1, Trim(line)));
    TrimmedLineReads(h, s1, script, n + 1, line);
    LineParses(s', line, Trim(line), ParseTrimmed(s'.(line := n + 1), Trim(line)));
  }

  // ---------------------------------------------------------------------
  // What the parser does to an edited text
  // ---------------------------------------------------------------------

  predicate IsNewLine(h: Hook, line: string, command: string) {
    && CleanValue(command) && command != ""
    && (line == Assignment(HookName(h), command) + "" || line == Assignment(HookName(h), command) + "\r")
  }

  lemma NewLineTrims(h: Hook, line: string, command: string)
    requires IsNewLine(h, line, command)
    ensures Trim(line) == Core(HookName(h), command)
  {
    var assignment := Assignment(HookName(h), command);
    HookNames(h);
    PlainIsClean(HookName(h));
    TrimmedAssignment(HookName(h), command);
    if line == assignment + "" {
      assert line == assignment;
    } else {
      TrimDropsLast(line);
      assert line[..|line| - 1] == assignment;
    }
  }

  lemma NewLineIsOfHook(h: Hook, line: string, command: string)
    requires IsNewLine(h, line, command)
    ensures ParsesAs(h, line) && FieldEditor.ValueAt(line) == command && !FieldEditor.IsHeader(line)
  {
    var eol := if line == Assignment(HookName(h), command) + "" then "" else "\r";
    AddedIsHookLine(h, command, eol);
    HookLineParses(h, line);
  }

  lemma AnyHookKeyReads(h: Hook, s: Scan, key: string, value: string)
    requires s.section == InInterface && KeyOf(Lower(key)) == Some(AsScript(h))
    ensures KeyLine(s, key, value) == Ok(Changed(s, h, AppendScript(s.iface.scripts[h], value), s.line))
  {
  }

  lemma HookKeyReads(h: Hook, s: Scan, command: string)
    requires s.section == InInterface
    ensures KeyLine(s, HookName(h), command) == Ok(Changed(s, h, AppendScript(s.iface.scripts[h], command), s.line))
  {
    HookNames(h);
    AnyHookKeyReads(h, s, HookName(h), command);
  }

  lemma NewLineReads(h: Hook, s: Scan, line: string, command: string)
    requires IsNewLine(h, line, command) && s.section == InInterface
    ensures ParseLine(s, line) == Ok(Changed(s, h, AppendScript(s.iface.scripts[h], command), s.line + 1))
  {
    var s1 := s.(line := s.line + 1);
    HookNames(h);
    PlainIsClean(HookName(h));
    NewLineTrims(h, line, command);
    CoreIsKeyLine(s1, HookName(h), command);
    HookKeyReads(h, s1, command);
    LineParses(s, line, Core(HookName(h), command), KeyLine(s1, HookName(h), command));
  }

  lemma HookLineIsKeyLine(h: Hook, s: Scan, line: string)
    requires ParsesAs(h, line) && NUL !in Trim(line)
    ensures ParseTrimmed(s, Trim(line)) == KeyLine(s, FieldEditor.KeyAt(line), FieldEditor.ValueAt(line))
  {
    HeaderIsNoKey(line);
    KeyLineParses(s, Trim(line), FieldEditor.KeyAt(line), FieldEditor.ValueAt(line));
  }

  lemma NoNulWhenParsed(s: Scan, t: string)
    requires ParseTrimmed(s, t).Ok?
    ensures NUL !in t
  {
  }

  /** A line of the hook changes the hook only. */
  lemma HookLineReads(h: Hook, s: Scan, line: string)
    requires IsHookLine(HookName(h), line) && s.section == InInterface && ParseLine(s, line).Ok?
    ensures exists script, n :: ParseLine(s, line).value == Changed(s, h, script, n)
  {
    HookLineParses(h, line);
    var s1, key, value := s.(line := s.line + 1), FieldEditor.KeyAt(line), FieldEditor.ValueAt(line);
    LineParses(s, line, Trim(line), ParseTrimmed(s1, Trim(line)));
    NoNulWhenParsed(s1, Trim(line));
    HookLineIsKeyLine(h, s1, line);
    AnyHookKeyReads(h, s1, key, value);
    assert ParseLine(s, line).value == Changed(s, h, AppendScript(s.iface.scripts[h], value), s.line + 1);
  }

  lemma ChangedTwice(s: Scan, h: Hook, a: string, m: nat, b: string, n: nat)
    ensures Changed(Changed(s, h, a, m), h, b, n) == Changed(s, h, b, n)
  {
    assert s.iface.scripts[h := a][h := b] == s.iface.scripts[h := b];
  }

  // ---------------------------------------------------------------------
  // Whole texts, for any way of reading a line that treats the hook apart
  // ---------------------------------------------------------------------

  type Step = (Scan, string) -> Result<Scan, ParseError>
  type Update = (string, string, bool) -> string

  function Run(step: Step, s: Scan, lines: seq<string>): Result<Scan, ParseError>
    decreases |lines|
  {
    if lines == [] then Ok(s)
    else match step(s, lines[0]) case Err(e) => Err(e) case Ok(s') => Run(step, s', lines[1..])
  }

  /** The value of the hook after some lines. */
  function Fold(update: Update, script: string, lines: seq<string>, inInterface: bool): string
    decreases |lines|
  {
    if lines == [] then script
    else Fold(update, update(script, lines[0], inInterface), lines[1..], InterfaceAfter(lines[0], inInterface))
  }

  /** The rest of the state does not depend on the hook. */
  ghost predicate ReadsApart(step: Step, update: Update, h: Hook, s: Scan, script: string, n: nat, x: string) {
    KnownHeader(x) && step(s, x).Ok? ==>
      && step(Changed(s, h, script, n), x) ==
         Ok(Changed(step(s, x).value, h, update(script, x, s.section == InInterface), n + 1))
      && (step(s, x).value.section == InInterface <==> InterfaceAfter(x, s.section == InInterface))
  }

  /** A line of the hook changes nothing else. */
  ghost predicate ReadsHook(step: Step, h: Hook, s: Scan, x: string) {
    IsHookLine(HookName(h), x) && s.section == InInterface && step(s, x).Ok? ==>
      exists script, n :: step(s, x).value == Changed(s, h, script, n)
  }

  /** The new line sets the hook. */
  ghost predicate ReadsNew(step: Step, update: Update, h: Hook, s: Scan, x: string, command: string) {
    IsNewLine(h, x, command) && s.section == InInterface ==>
      && step(s, x) == Ok(Changed(s, h, AppendScript(s.iface.scripts[h], command), s.line + 1))
      && !FieldEditor.IsHeader(x) && update(s.iface.scripts[h], x, true) == AppendScript(s.iface.scripts[h], command)
  }

  ghost predicate TreatsApart(step: Step, update: Update, h: Hook) {
    && (forall s, script, n, x :: ReadsApart(step, update, h, s, script, n, x))
    && (forall s, x :: ReadsHook(step, h, s, x))
    && (forall s, x, command :: ReadsNew(step, update, h, s, x, command))
  }

  lemma RunCons(step: Step, s: Scan, x: string, s1: Scan, out: seq<string>)
    requires step(s, x) == Ok(s1)
    ensures Run(step, s, [x] + out) == Run(step, s1, out)
  {
    assert ([x] + out)[1..] == out;
  }

  lemma FoldCons(update: Update, script: string, x: string, out: seq<string>, inInterface: bool)
    ensures Fold(update, script, [x] + out, inInterface) ==
            Fold(update, update(script, x, inInterface), out, InterfaceAfter(x, inInterface))
  {
    assert ([x] + out)[1..] == out;
  }

  /** Reading `out` from a state that differs in the hook gives what `r` is, but for the hook. */
  ghost predicate Reads(step: Step, update: Update, h: Hook, s: Scan, script: string, n: nat, out: seq<string>,
                        inInterface: bool, r: Result<Scan, ParseError>, n': nat) {
    r.Ok? && Run(step, Changed(s, h, script, n), out) == Ok(Changed(r.value, h, Fold(update, script, out, inInterface), n'))
  }

  /** A line that is kept. */
  lemma KeptReads(step: Step, update: Update, h: Hook, s: Scan, script: string, n: nat, x: string, out: seq<string>,
                  inInterface: bool, r: Result<Scan, ParseError>, n': nat)
    requires TreatsApart(step, update, h)
    requires KnownHeader(x) && (inInterface <==> s.section == InInterface) && step(s, x).Ok?
    requires Reads(step, update, h, step(s, x).value, update(script, x, inInterface), n + 1, out, InterfaceAfter(x, inInterface), r, n')
    ensures Reads(step, update, h, s, script, n, [x] + out, inInterface, r, n')
  {
    assert ReadsApart(step, update, h, s, script, n, x);
    RunCons(step, Changed(s, h, script, n), x, Changed(step(s, x).value, h, update(script, x, inInterface), n + 1), out);
    FoldCons(update, script, x, out, inInterface);
  }

  /** The line that is put in. */
  lemma AddedReads(step: Step, update: Update, h: Hook, s: Scan, script: string, n: nat, line: string, command: string,
                   out: seq<string>, r: Result<Scan, ParseError>, n': nat)
    requires TreatsApart(step, update, h)
    requires IsNewLine(h, line, command) && s.section == InInterface
    requires Reads(step, update, h, s, AppendScript(script, command), n + 1, out, true, r, n')
    ensures Reads(step, update, h, s, script, n, [line] + out, true, r, n')
  {
    var s', script' := Changed(s, h, script, n), AppendScript(script, command);
    assert ReadsNew(step, update, h, s', line, command);
    ChangedTwice(s, h, script, n, script', n + 1);
    RunCons(step, s', line, Changed(s, h, script', n + 1), out);
    FoldCons(update, script, line, out, true);
  }

  lemma AddedThenKept(step: Step, update: Update, h: Hook, s: Scan, script: string, n: nat, line: string, command: string,
                      x: string, out: seq<string>, r: Result<Scan, ParseError>, n': nat)
    requires TreatsApart(step, update, h)
    requires IsNewLine(h, line, command) && s.section == InInterface && KnownHeader(x) && step(s, x).Ok?
    requires Reads(step, update, h, step(s, x).value, update(AppendScript(script, command), x, true), n + 2, out,
                   InterfaceAfter(x, true), r, n')
    ensures Reads(step, update, h, s, script, n, [line] + ([x] + out), true, r, n')
  {
    KeptReads(step, update, h, s, AppendScript(script, command), n + 1, x, out, true, r, n');
    AddedReads(step, update, h, s, script, n, line, command, [x] + out, r, n');
  }

  /** A line of the hook that is left out. */
  lemma RemovedReads(step: Step, update: Update, h: Hook, s: Scan, script: string, n: nat, x: string, out: seq<string>,
                     r: Result<Scan, ParseError>, n': nat)
    requires TreatsApart(step, update, h)
    requires IsHookLine(HookName(h), x) && s.section == InInterface && step(s, x).Ok?
    requires Reads(step, update, h, step(s, x).value, script, n, out, true, r, n')
    ensures Reads(step, update, h, s, script, n, out, true, r, n')
  {
    assert ReadsHook(step, h, s, x);
    var a, m :| step(s, x).value == Changed(s, h, a, m);
    ChangedTwice(s, h, a, m, script, n);
  }

  /** Reading an edited text, from a state that may differ in the hook. */
  lemma {:induction false} EditedReads(step: Step, update: Update, h: Hook, added: Option<string>, command: string,
                                       s: Scan, script: string, n: nat, lines: seq<string>, inInterface: bool)
    returns (n': nat)
    requires TreatsApart(step, update, h)
    requires KnownHeaders(lines) && (inInterface <==> s.section == InInterface) && Run(step, s, lines).Ok?
    requires added.Some? ==> IsNewLine(h, added.value, command)
    ensures Reads(step, update, h, s, script, n, WithHook(HookName(h), added, lines, inInterface), inInterface,
                  Run(step, s, lines), n')
    decreases |lines|
  {
    var hook, r := HookName(h), Run(step, s, lines);
    if lines == [] {
      n' := n;
      if inInterface && added.Some? {
        n' := n + 1;
        AddedReads(step, update, h, s, script, n, added.value, command, [], r, n');
        assert [added.value] + [] == [added.value];
      }
    } else {
      var x, rest := lines[0], lines[1..];
      var s1, next := step(s, x).value, InterfaceAfter(x, inInterface);
      assert ReadsApart(step, update, h, s, script, n, x);
      if FieldEditor.IsHeader(x) && inInterface && added.Some? {
        var script' := update(AppendScript(script, command), x, true);
        n' := EditedReads(step, update, h, None, command, s1, script', n + 2, rest, next);
        AddedThenKept(step, update, h, s, script, n, added.value, command, x, WithHook(hook, None, rest, next), r, n');
      } else if !FieldEditor.IsHeader(x) && inInterface && IsHookLine(hook, x) {
        n' := EditedReads(step, update, h, added, command, s1, script, n, rest, inInterface);
        RemovedReads(step, update, h, s, script, n, x, WithHook(hook, added, rest, inInterface), r, n');
      } else {
        n' := EditedReads(step, update, h, added, command, s1, update(script, x, inInterface), n + 1, rest, next);
        KeptReads(step, update, h, s, script, n, x, WithHook(hook, added, rest, next), inInterface, r, n');
      }
    }
  }

  // ---------------------------------------------------------------------
  // The parser
  // ---------------------------------------------------------------------

  function UpdateOf(h: Hook): Update {
    (script: string, line: string, inInterface: bool) => ScriptAfter(h, script, line, inInterface)
  }

  lemma ParserTreatsApart(h: Hook)
    ensures TreatsApart(ParseLine, UpdateOf(h), h)
  {
    forall s, script, n, x
      ensures ReadsApart(ParseLine, UpdateOf(h), h, s, script, n, x)
    {
      if KnownHeader(x) && ParseLine(s, x).Ok? {
        LineReads(h, s, script, n, x);
      }
    }
    forall s, x
      ensures ReadsHook(ParseLine, h, s, x)
    {
      if IsHookLine(HookName(h), x) && s.section == InInterface && ParseLine(s, x).Ok? {
        HookLineReads(h, s, x);
      }
    }
    forall s, x, command
      ensures ReadsNew(ParseLine, UpdateOf(h), h, s, x, command)
    {
      if IsNewLine(h, x, command) && s.section == InInterface {
        NewLineReads(h, s, x, command);
        NewLineIsOfHook(h, x, command);
      }
    }
  }

  lemma {:induction false} RunIsParse(s: Scan, lines: seq<string>)
    ensures Run(ParseLine, s, lines) == ParseLines(s, lines)
    decreases |lines|
  {
    if lines != [] {
      match ParseLine(s, lines[0])
      case Err(_) =>
      case Ok(s') => RunIsParse(s', lines[1..]);
    }
  }

  /** The command that the parser reads for the hook from some lines. */
  function ScriptOf(h: Hook, lines: seq<string>): string { Fold(UpdateOf(h), "", lines, false) }

  lemma EditedLinesParse(h: Hook, added: Option<string>, command: string, lines: seq<string>) returns (n: nat)
    requires KnownHeaders(lines) && ParseLines(START, lines).Ok?
    requires added.Some? ==> IsNewLine(h, added.value, command)
    ensures var out := WithHook(HookName(h), added, lines, false);
            ParseLines(START, out) == Ok(Changed(ParseLines(START, lines).value, h, ScriptOf(h, out), n))
  {
    var out := WithHook(HookName(h), added, lines, false);
    ParserTreatsApart(h);
    RunIsParse(START, lines);
    n := EditedReads(ParseLine, UpdateOf(h), h, added, command, START, "", 0, lines, false);
    StartHasNoScript(h);
    RunIsParse(START, out);
  }

  lemma StartHasNoScript(h: Hook)
    ensures Changed(START, h, "", 0) == START
  {
    ZeroValues();
    assert NO_INTERFACE.scripts[h := ""] == NO_INTERFACE.scripts;
  }

  lemma FinishedChanged(s: Scan, h: Hook, script: string, n: nat)
    requires Finished(s).Ok?
    ensures var c := Finished(s).value;
            Finished(Changed(s, h, script, n)) == Ok(c.(iface := WithScript(c.iface, h, script)))
  {
  }

  // ---------------------------------------------------------------------
  // Texts
  // ---------------------------------------------------------------------

  lemma BomIsInFirstLine(lines: seq<string>)
    requires lines != [] && '\n' !in lines[0]
    ensures HasPrefix(Join(lines, "\n"), BOM) <==> HasPrefix(lines[0], BOM)
  {
    var text := Join(lines, "\n");
    assert lines[0] <= text;
    if |lines[0]| < 3 && |lines| > 1 {
      assert text[|lines[0]|] == '\n';
      assert BOM[0] != '\n' && BOM[1] != '\n' && BOM[2] != '\n';
    }
  }

  /** A single line holds no configuration. */
  lemma OneLineIsTooFew(line: string)
    requires ParseLines(START, [line]).Ok?
    ensures Finished(ParseLines(START, [line]).value).Err?
  {
    ZeroValues();
    assert [line][1..] == [];
  }

  lemma JoinedHasNewline(lines: seq<string>)
    requires |lines| > 1
    ensures '\n' in Join(lines, "\n")
  {
    assert Join(lines, "\n")[|lines[0]|] == '\n';
  }

  lemma ParsedLines(text: string, lines: seq<string>, s: Scan)
    requires |text| <= MAX_CONFIG_SIZE && text == Join(lines, "\n") && lines != [] && Free(lines, '\n')
    requires !HasPrefix(lines[0], BOM)
    requires ParseLines(START, lines) == Ok(s) && Finished(s).Ok?
    ensures Parsed(text) == Finished(s)
  {
    BomIsInFirstLine(lines);
    SplitOfJoin(lines, '\n');
    MoreThanOneLine(lines);
    JoinedHasNewline(lines);
  }

  lemma MoreThanOneLine(lines: seq<string>)
    requires lines != [] && ParseLines(START, lines).Ok? && Finished(ParseLines(START, lines).value).Ok?
    ensures |lines| > 1
  {
    if |lines| == 1 {
      assert lines == [lines[0]];
      OneLineIsTooFew(lines[0]);
    }
  }

  lemma AcceptedLines(text: string)
    requires !HasPrefix(text, BOM) && Parsed(text).Ok?
    ensures var r := ParseLines(START, Split(text, '\n')); r.Ok? && Parsed(text) == Finished(r.value)
  {
    assert WithoutBom(text) == text;
  }

  lemma NewLineIsAdded(content: string, h: Hook, command: string)
    requires CleanValue(command)
    ensures var added := AddedLine(content, HookName(h), command); added.Some? ==> IsNewLine(h, added.value, command)
  {
  }

  /** Parsing an edited text gives the configuration of the text with another
      value of the hook: what the lines left over and the new line make of it. */
  lemma ParseAfterSet(content: string, h: Hook, command: string)
    requires Parsed(content).Ok? && !HasPrefix(content, BOM) && KnownHeaders(Split(content, '\n')) && CleanValue(command)
    requires |HookSet(content, HookName(h), command)| <= MAX_CONFIG_SIZE
    ensures var c, text := Parsed(content).value, HookSet(content, HookName(h), command);
            Parsed(text) == Ok(c.(iface := WithScript(c.iface, h, ScriptOf(h, Split(text, '\n')))))
  {
    AcceptedLines(content);
    NewLineIsAdded(content, h, command);
    var s, text := ParseLines(START, Split(content, '\n')).value, HookSet(content, HookName(h), command);
    var n := EditedLinesParse(h, AddedLine(content, HookName(h), command), command, Split(content, '\n'));
    LinesOfHookSet(content, h, command);
    FinishedChanged(s, h, ScriptOf(h, Split(text, '\n')), n);
    EditedTextParses(content, h, command, Changed(s, h, ScriptOf(h, Split(text, '\n')), n));
  }

  lemma EditedTextParses(content: string, h: Hook, command: string, s: Scan)
    requires !HasPrefix(content, BOM) && CleanValue(command) && |HookSet(content, HookName(h), command)| <= MAX_CONFIG_SIZE
    requires ParseLines(START, Split(HookSet(content, HookName(h), command), '\n')) == Ok(s) && Finished(s).Ok?
    ensures Parsed(HookSet(content, HookName(h), command)) == Finished(s)
  {
    var text := HookSet(content, HookName(h), command);
    EditedLinesStart(content, h, command);
    LinesOfHookSet(content, h, command);
    JoinOfSplit(text, '\n');
    ParsedLines(text, Split(text, '\n'), s);
  }

  lemma EditedLinesStart(content: string, h: Hook, command: string)
    requires !HasPrefix(content, BOM) && CleanValue(command)
    ensures var out := WithHook(HookName(h), AddedLine(content, HookName(h), command), Split(content, '\n'), false);
            out != [] && Free(out, '\n') && !HasPrefix(out[0], BOM)
  {
    var lines := Split(content, '\n');
    var out := WithHook(HookName(h), AddedLine(content, HookName(h), command), lines, false);
    SplitParts(content, '\n');
    JoinOfSplit(content, '\n');
    BomIsInFirstLine(lines);
    LinesOfHookSet(content, h, command);
    SplitParts(HookSet(content, HookName(h), command), '\n');
    assert out[0] == lines[0];
  }

  // ---------------------------------------------------------------------
  // The value of the hook in an edited text
  // ---------------------------------------------------------------------

  /** A line of the hook that the editor does not take for one. */
  predicate Missed(h: Hook, line: string) { ParsesAs(h, line) && !IsHookLine(HookName(h), line) }

  /** No missed line has a command, and none follows the new line. */
  predicate NoneInTheWay(h: Hook, lines: seq<string>, inInterface: bool, sets: bool, done: bool)
    decreases |lines|
  {
    if lines == [] then true
    else
      var x, rest := lines[0], lines[1..];
      if FieldEditor.IsHeader(x) then NoneInTheWay(h, rest, IsInterfaceHeader(x), sets, done || (inInterface && sets))
      else
        && (inInterface && Missed(h, x) ==> !done && FieldEditor.ValueAt(x) == "")
        && NoneInTheWay(h, rest, inInterface, sets, done)
  }

  /** The value of the hook when it is read from `lines` after an edit. */
  function EditedScript(h: Hook, script: string, added: Option<string>, lines: seq<string>, inInterface: bool): string {
    Fold(UpdateOf(h), script, WithHook(HookName(h), added, lines, inInterface), inInterface)
  }

  lemma {:induction false} ScriptGrows(h: Hook, script: string, lines: seq<string>, inInterface: bool)
    ensures |Fold(UpdateOf(h), script, lines, inInterface)| >= |script|
    decreases |lines|
  {
    if lines != [] {
      ScriptGrows(h, ScriptAfter(h, script, lines[0], inInterface), lines[1..], InterfaceAfter(lines[0], inInterface));
    }
  }

  /** One line further. */
  lemma EditedScriptStep(h: Hook, script: string, added: Option<string>, lines: seq<string>, inInterface: bool)
    requires lines != []
    ensures var x, rest, next := lines[0], lines[1..], InterfaceAfter(lines[0], inInterface);
            var header := FieldEditor.IsHeader(x);
            EditedScript(h, script, added, lines, inInterface) ==
            if header && inInterface && added.Some? then
              EditedScript(h, ScriptAfter(h, script, added.value, true), None, rest, next)
            else EditedScript(h, if inInterface && Missed(h, x) then AppendScript(script, FieldEditor.ValueAt(x)) else script,
                              added, rest, next)
    requires added.Some? ==> !FieldEditor.IsHeader(added.value)
  {
    var x, rest, next := lines[0], lines[1..], InterfaceAfter(lines[0], inInterface);
    var hook := HookName(h);
    if FieldEditor.IsHeader(x) && inInterface && added.Some? {
      var more := WithHook(hook, None, rest, next);
      FoldCons(UpdateOf(h), script, added.value, [x] + more, true);
      FoldCons(UpdateOf(h), ScriptAfter(h, script, added.value, true), x, more, true);
    } else if !FieldEditor.IsHeader(x) && inInterface && IsHookLine(hook, x) {
    } else {
      FoldCons(UpdateOf(h), script, x, WithHook(hook, added, rest, next), inInterface);
    }
  }

  predicate NewLineFor(h: Hook, added: Option<string>, command: string) {
    if added.Some? then IsNewLine(h, added.value, command) else command == ""
  }

  /** After the new line the hook is the command as long as no line follows. */
  lemma {:induction false} ScriptAfterInsertion(h: Hook, command: string, lines: seq<string>, inInterface: bool)
    requires command != ""
    ensures EditedScript(h, command, None, lines, inInterface) == command <==> NoneInTheWay(h, lines, inInterface, true, true)
    decreases |lines|
  {
    if lines != [] {
      var x, rest, next := lines[0], lines[1..], InterfaceAfter(lines[0], inInterface);
      EditedScriptStep(h, command, None, lines, inInterface);
      if !FieldEditor.IsHeader(x) && inInterface && Missed(h, x) {
        var more := AppendScript(command, FieldEditor.ValueAt(x));
        ScriptGrows(h, more, WithHook(HookName(h), None, rest, next), next);
      } else {
        ScriptAfterInsertion(h, command, rest, next);
      }
    }
  }

  /** A command in the way makes the value longer than the command. */
  lemma {:induction false} ScriptTooLong(h: Hook, script: string, added: Option<string>, command: string, lines: seq<string>, inInterface: bool)
    requires NewLineFor(h, added, command) && script != "" && (added.Some? ==> Inserts(lines, inInterface))
    ensures |EditedScript(h, script, added, lines, inInterface)| > |command|
    decreases |lines|
  {
    if added.None? {
      ScriptGrows(h, script, WithHook(HookName(h), None, lines, inInterface), inInterface);
    } else {
      NewLineIsOfHook(h, added.value, command);
      var longer := AppendScript(script, command);
      if lines == [] {
        FoldCons(UpdateOf(h), script, added.value, [], true);
        assert [added.value] + [] == [added.value];
      } else {
        var x, rest, next := lines[0], lines[1..], InterfaceAfter(lines[0], inInterface);
        EditedScriptStep(h, script, added, lines, inInterface);
        if FieldEditor.IsHeader(x) && inInterface {
          ScriptGrows(h, longer, WithHook(HookName(h), None, rest, next), next);
        } else {
          var script' := if inInterface && Missed(h, x) then AppendScript(script, FieldEditor.ValueAt(x)) else script;
          ScriptTooLong(h, script', added, command, rest, next);
        }
      }
    }
  }

  /** From the start the hook becomes the command exactly when nothing is in the way. */
  lemma {:induction false} ScriptIsCommand(h: Hook, added: Option<string>, command: string, lines: seq<string>, inInterface: bool)
    requires NewLineFor(h, added, command) && (added.Some? ==> Inserts(lines, inInterface))
    ensures EditedScript(h, "", added, lines, inInterface) == command <==>
            NoneInTheWay(h, lines, inInterface, added.Some?, false)
    decreases |lines|
  {
    if added.Some? {
      NewLineIsOfHook(h, added.value, command);
    }
    if lines == [] {
      if added.Some? {
        FoldCons(UpdateOf(h), "", added.value, [], true);
        assert [added.value] + [] == [added.value];
      }
    } else {
      var x, rest, next := lines[0], lines[1..], InterfaceAfter(lines[0], inInterface);
      EditedScriptStep(h, "", added, lines, inInterface);
      if FieldEditor.IsHeader(x) && inInterface && added.Some? {
        ScriptAfterInsertion(h, command, rest, next);
      } else if !FieldEditor.IsHeader(x) && inInterface && Missed(h, x) && FieldEditor.ValueAt(x) != "" {
        ScriptTooLong(h, FieldEditor.ValueAt(x), added, command, rest, next);
      } else {
        ScriptIsCommand(h, added, command, rest, next);
      }
    }
  }

  // ---------------------------------------------------------------------
  // What the parser never accepts
  // ---------------------------------------------------------------------

  lemma {:induction false} AlwaysInserts(lines: seq<string>)
    ensures Inserts(lines, true)
    decreases |lines|
  {
    if lines != [] && !FieldEditor.IsHeader(lines[0]) {
      AlwaysInserts(lines[1..]);
    }
  }

  lemma OtherLineReads(s: Scan, x: string)
    requires s.section != InInterface && ParseLine(s, x).Ok? && !IsInterfaceHeader(x)
    ensures ParseLine(s, x).value.iface == s.iface && ParseLine(s, x).value.section != InInterface
  {
    var s1, t := s.(line := s.line + 1), Trim(x);
    HeaderIsNoKey(x);
    LineParses(s, x, t, ParseTrimmed(s1, t));
  }

  lemma {:induction false} NoSectionReads(s: Scan, lines: seq<string>)
    requires s.section != InInterface && !Inserts(lines, false) && ParseLines(s, lines).Ok?
    ensures ParseLines(s, lines).value.iface == s.iface
    decreases |lines|
  {
    if lines != [] {
      var x := lines[0];
      AlwaysInserts(lines[1..]);
      HeaderIsNoKey(x);
      OtherLineReads(s, x);
      NoSectionReads(ParseLine(s, x).value, lines[1..]);
    }
  }

  /** An accepted text has an [Interface] section. */
  lemma AcceptedHasSection(content: string)
    requires Parsed(content).Ok? && !HasPrefix(content, BOM)
    ensures HasInterfaceSection(content)
  {
    ZeroValues();
    if !HasInterfaceSection(content) {
      NoSectionReads(START, Split(content, '\n'));
    }
  }

  lemma {:induction false} LinesLackNul(s: Scan, lines: seq<string>)
    requires ParseLines(s, lines).Ok?
    ensures Free(lines, NUL)
    decreases |lines|
  {
    if lines != [] {
      var s1 := s.(line := s.line + 1);
      LineParses(s, lines[0], Trim(lines[0]), ParseTrimmed(s1, Trim(lines[0])));
      NoNulWhenParsed(s1, Trim(lines[0]));
      TrimKeepsNul(lines[0]);
      LinesLackNul(ParseLine(s, lines[0]).value, lines[1..]);
    }
  }

  lemma TrimKeepsNul(line: string)
    requires NUL !in Trim(line)
    ensures NUL !in line
  {
    var p, r := TrimGives(line);
    TrimEnds(line, p, r);
  }

  /** No accepted text has a NUL. */
  lemma AcceptedLacksNul(text: string)
    requires Parsed(text).Ok? && !HasPrefix(text, BOM)
    ensures NUL !in text
  {
    LinesLackNul(START, Split(text, '\n'));
    JoinLacks(Split(text, '\n'), "\n", NUL);
    JoinOfSplit(text, '\n');
  }

  /** What the parser reads for a hook holds no newline. */
  lemma AcceptedScript(text: string, h: Hook)
    requires Parsed(text).Ok?
    ensures '\n' !in Parsed(text).value.iface.scripts[h]
  {
    ConfigAccepted.ParsedIsPrintable(text);
    var script := Parsed(text).value.iface.scripts[h];
    JoinLacks(Split(script, NUL), [NUL], '\n');
    JoinOfSplit(script, NUL);
  }

  lemma {:induction false} InJoin(parts: seq<string>, i: nat, c: char)
    requires i < |parts| && c in parts[i]
    ensures c in Join(parts, "\n")
    decreases |parts|
  {
    if i > 0 {
      InJoin(parts[1..], i - 1, c);
    }
  }

  lemma CommandIsInText(content: string, h: Hook, command: string, c: char)
    requires HasInterfaceSection(content) && c in command
    ensures c in HookSet(content, HookName(h), command)
  {
    var added := Assignment(HookName(h), command) + EndOfLine(content);
    var x := BeforeNew(HookName(h), Split(content, '\n'), false);
    InsertPoint(HookName(h), added, Split(content, '\n'), false);
    InJoin(WithHook(HookName(h), Some(added), Split(content, '\n'), false), |x|, c);
  }

  lemma EditKeepsStart(content: string, h: Hook, command: string)
    requires !HasPrefix(content, BOM) && HasInterfaceSection(content)
    ensures !HasPrefix(HookSet(content, HookName(h), command), BOM)
  {
    var lines, text := Split(content, '\n'), HookSet(content, HookName(h), command);
    var out := WithHook(HookName(h), AddedLine(content, HookName(h), command), lines, false);
    JoinOfSplit(content, '\n');
    SplitParts(content, '\n');
    assert out[0] == lines[0];
    BomIsInFirstLine(lines);
    BomIsInFirstLine(out);
  }

  /** A command of several lines, or with a NUL, is never read back. */
  lemma UncleanDisagrees(content: string, h: Hook, command: string)
    requires !HasPrefix(content, BOM) && HasInterfaceSection(content) && Parsed(HookSet(content, HookName(h), command)).Ok?
    requires Parsed(HookSet(content, HookName(h), command)).value.iface.scripts[h] == command
    ensures NUL !in command && '\n' !in command
  {
    var text := HookSet(content, HookName(h), command);
    AcceptedScript(text, h);
    EditKeepsStart(content, h, command);
    AcceptedLacksNul(text);
    if NUL in command {
      CommandIsInText(content, h, command, NUL);
    }
  }

  /** Editing a hook in a text that the parser accepts, with no other brackets
      than the headers, sets the hook in the parsed configuration exactly when
      the command is of one line without a NUL and no line of the hook escapes
      the editor. */
  lemma SetAgreesExactlyWhen(content: string, h: Hook, command: string)
    requires Parsed(content).Ok? && !HasPrefix(content, BOM) && KnownHeaders(Split(content, '\n')) && Trimmed(command)
    requires |HookSet(content, HookName(h), command)| <= MAX_CONFIG_SIZE
    ensures var c := Parsed(content).value;
            Parsed(HookSet(content, HookName(h), command)) == Ok(c.(iface := WithScript(c.iface, h, command))) <==>
            NUL !in command && '\n' !in command && NoneInTheWay(h, Split(content, '\n'), false, command != "", false)
  {
    AcceptedHasSection(content);
    if CleanValue(command) {
      CleanAgreesExactlyWhen(content, h, command);
    } else {
      var c := Parsed(content).value;
      if Parsed(HookSet(content, HookName(h), command)) == Ok(c.(iface := WithScript(c.iface, h, command))) {
        UncleanDisagrees(content, h, command);
      }
    }
  }

  lemma CleanAgreesExactlyWhen(content: string, h: Hook, command: string)
    requires Parsed(content).Ok? && !HasPrefix(content, BOM) && KnownHeaders(Split(content, '\n')) && CleanValue(command)
    requires HasInterfaceSection(content) && |HookSet(content, HookName(h), command)| <= MAX_CONFIG_SIZE
    ensures var c := Parsed(content).value;
            Parsed(HookSet(content, HookName(h), command)) == Ok(c.(iface := WithScript(c.iface, h, command))) <==>
            NoneInTheWay(h, Split(content, '\n'), false, command != "", false)
  {
    var script := ScriptOf(h, Split(HookSet(content, HookName(h), command), '\n'));
    ParseAfterSet(content, h, command);
    ScriptOfEdited(content, h, command);
    ScriptsDiffer(Parsed(content).value, h, script, command);
  }

  lemma ScriptOfEdited(content: string, h: Hook, command: string)
    requires CleanValue(command) && HasInterfaceSection(content)
    ensures ScriptOf(h, Split(HookSet(content, HookName(h), command), '\n')) == command <==>
            NoneInTheWay(h, Split(content, '\n'), false, command != "", false)
  {
    LinesOfHookSet(content, h, command);
    ScriptIsCommand(h, AddedLine(content, HookName(h), command), command, Split(content, '\n'), false);
  }

  lemma ScriptsDiffer(c: Config, h: Hook, a: string, b: string)
    ensures c.(iface := WithScript(c.iface, h, a)) == c.(iface := WithScript(c.iface, h, b)) <==> a == b
  {
    assert WithScript(c.iface, h, a).scripts[h] == a && WithScript(c.iface, h, b).scripts[h] == b;
  }

  // ---------------------------------------------------------------------
  // Vertical tabs
  // ---------------------------------------------------------------------

  const VERTICAL_TAB := '\U{0B}'

  lemma SpacesAreSpaces(s: string)
    requires Spaces(s) && VERTICAL_TAB !in s
    ensures PatternSpaces(s)
  {
  }

  lemma {:induction false} TrimLeftGives(s: string) returns (p: string)
    ensures s == p + TrimLeft(s) && Spaces(p)
  {
    if s != "" && IsSpace(s[0]) {
      var p' := TrimLeftGives(s[1..]);
      p := [s[0]] + p';
    } else {
      p := "";
    }
  }

  lemma {:induction false} TrimRightGives(s: string) returns (q: string)
    ensures s == TrimRight(s) + q && Spaces(q)
  {
    if s != "" && IsSpace(s[|s| - 1]) {
      var q' := TrimRightGives(s[..|s| - 1]);
      q := q' + [s[|s| - 1]];
    } else {
      q := "";
    }
  }

  lemma TrimGives(line: string) returns (p: string, r: string)
    ensures line == p + Trim(line) + r && Spaces(p) && Spaces(r)
  {
    p := TrimLeftGives(line);
    r := TrimRightGives(TrimLeft(line));
    assert p + (Trim(line) + r) == p + Trim(line) + r;
  }

  lemma TrimEnds(line: string, p: string, r: string)
    requires line == p + Trim(line) + r && Spaces(p) && Spaces(r) && NUL !in Trim(line)
    ensures NUL !in line
  {
  }

  /** What stands before the equals sign of a trimmed line. */
  lemma KeyGives(t: string, eq: nat) returns (q: string)
    requires Trimmed(t) && eq <= |t|
    ensures t[..eq] == Trim(t[..eq]) + q && Spaces(q)
  {
    var left := t[..eq];
    assert TrimLeft(left) == left;
    q := TrimRightGives(left);
  }

  /** The parts of a line that has a key and no vertical tab. */
  lemma PartsOfKeyLine(line: string) returns (p: string, q: string, rest: string)
    requires FieldEditor.HasKey(line) && FieldEditor.KeyAt(line) != "" && VERTICAL_TAB !in line
    ensures Parts(line, p, FieldEditor.KeyAt(line), q, rest)
  {
    var t, key := Trim(line), FieldEditor.KeyAt(line);
    var eq, r := IndexOf(t, '='), "";
    TrimIsTrimmed(line);
    TrimIsTrimmed(t[..eq]);
    p, r := TrimGives(line);
    q := KeyGives(t, eq);
    rest := t[eq + 1..] + r;
    FiveParts(line, p, t, r, eq, key, q);
    NoTabInParts(line, p, key, q, "=" + rest);
    SpacesAreSpaces(p);
    SpacesAreSpaces(q);
  }

  lemma FiveParts(line: string, p: string, t: string, r: string, eq: nat, key: string, q: string)
    requires line == p + t + r && eq < |t| && t[eq] == '=' && t[..eq] == key + q
    ensures line == p + key + q + "=" + (t[eq + 1..] + r)
    ensures line == p + key + q + ("=" + (t[eq + 1..] + r))
  {
    assert t == t[..eq] + "=" + t[eq + 1..];
  }

  lemma NoTabInParts(line: string, a: string, b: string, c: string, d: string)
    requires VERTICAL_TAB !in line && line == a + b + c + d
    ensures VERTICAL_TAB !in a && VERTICAL_TAB !in c
  {
    assert forall i :: 0 <= i < |a| ==> a[i] == line[i];
    assert forall i :: 0 <= i < |c| ==> c[i] == line[|a| + |b| + i];
  }

  lemma KeyOfHook(lower: string, h: Hook)
    requires KeyOf(lower) == Some(AsScript(h))
    ensures lower == Lower(HookName(h))
  {
    HookNames(h);
    var name := match h case PreUp => "preup" case PostUp => "postup" case PreDown => "predown" case PostDown => "postdown";
    assert lower == name;
    assert Lower(HookName(h)) == name;
  }

  lemma NoneMissedWithoutTab(h: Hook, line: string)
    requires VERTICAL_TAB !in line
    ensures !Missed(h, line)
  {
    if ParsesAs(h, line) {
      KeyOfHook(Lower(FieldEditor.KeyAt(line)), h);
      HookNames(h);
      assert |FieldEditor.KeyAt(line)| == |HookName(h)|;
      var p, q, rest := PartsOfKeyLine(line);
      PartsAreHookLine(HookName(h), line, p, FieldEditor.KeyAt(line), q, rest);
    }
  }

  lemma {:induction false} NothingInTheWay(h: Hook, lines: seq<string>, inInterface: bool, sets: bool, done: bool)
    requires forall i :: 0 <= i < |lines| ==> VERTICAL_TAB !in lines[i]
    ensures NoneInTheWay(h, lines, inInterface, sets, done)
    decreases |lines|
  {
    if lines != [] {
      var x := lines[0];
      NoneMissedWithoutTab(h, x);
      NothingInTheWay(h, lines[1..], InterfaceAfter(x, inInterface), sets,
                      done || (FieldEditor.IsHeader(x) && inInterface && sets));
    }
  }

  /** In a text without vertical tabs the edit and the parser agree on every
      command of one line without a NUL, and on no other. */
  lemma SetAgrees(content: string, h: Hook, command: string)
    requires Parsed(content).Ok? && !HasPrefix(content, BOM) && KnownHeaders(Split(content, '\n')) && Trimmed(command)
    requires VERTICAL_TAB !in content && |HookSet(content, HookName(h), command)| <= MAX_CONFIG_SIZE
    ensures var c := Parsed(content).value;
            Parsed(HookSet(content, HookName(h), command)) == Ok(c.(iface := WithScript(c.iface, h, command))) <==>
            NUL !in command && '\n' !in command
  {
    SplitParts(content, '\n');
    NothingInTheWay(h, Split(content, '\n'), false, command != "", false);
    SetAgreesExactlyWhen(content, h, command);
  }

  function TabbedLines(): seq<string> {
    ["[Interface]", "PrivateKey = k", [VERTICAL_TAB] + "PreUp = a"]
  }

  lemma TabbedLineParses(s: Scan)
    requires s.section == InInterface
    ensures ParseLine(s, TabbedLines()[2]) == ParseLine(s, Assignment("PreUp", "a"))
    ensures ParsesAs(PreUp, TabbedLines()[2]) && FieldEditor.ValueAt(TabbedLines()[2]) == "a"
  {
    var line, plain := TabbedLines()[2], Assignment("PreUp", "a");
    assert line[1..] == plain == "PreUp = a" && TrimLeft(line) == TrimLeft(plain);
    PlainLineIsNew();
    NewLineIsOfHook(PreUp, plain, "a");
  }

  lemma TabbedLineIsMissed()
    ensures !IsHookLine(HookName(PreUp), TabbedLines()[2])
  {
    var line := TabbedLines()[2];
    assert SkipPatternSpace(line) == line;
    assert LowerChar(VERTICAL_TAB) != LowerChar('P');
    assert Lower(line[..5])[0] == LowerChar(VERTICAL_TAB) && Lower("PreUp")[0] == LowerChar('P');
  }

  lemma PrivateKeyParses(s: Scan)
    requires s.section == InInterface
    ensures ParseLine(s, TabbedLines()[1]) ==
            Ok(Advance(s, 1).(iface := s.iface.(texts := s.iface.texts[PrivateKey := "k"])))
  {
    FieldNames(AsText(PrivateKey));
    assert TabbedLines()[1] == Assignment(Name(AsText(PrivateKey)), "k");
    ConfigRoundTrip.FieldParses(s, AsText(PrivateKey), Name(AsText(PrivateKey)), "k");
  }

  lemma TabbedLinesParse() returns (s: Scan)
    ensures ParseLines(START, TabbedLines()) == Ok(s) && Finished(s).Ok?
  {
    var lines := TabbedLines();
    HeadersParse(START);
    var s1 := Advance(START, 1).(section := InInterface);
    PrivateKeyParses(s1);
    var s2 := Advance(s1, 1).(iface := s1.iface.(texts := s1.iface.texts[PrivateKey := "k"]));
    s := TabbedLineReads(s2);
    RunThree(START, lines[0], lines[1], lines[2], s1, s2, s);
  }

  lemma PlainLineIsNew()
    ensures IsNewLine(PreUp, Assignment("PreUp", "a"), "a")
  {
    assert "PreUp = a" == Assignment(HookName(PreUp), "a") + "";
  }

  lemma TabbedLineReads(s: Scan) returns (s': Scan)
    requires s.section == InInterface && s.iface.texts[PrivateKey] != ""
    ensures ParseLine(s, TabbedLines()[2]) == Ok(s') && Finished(s').Ok?
  {
    TabbedLineParses(s);
    PlainLineIsNew();
    NewLineReads(PreUp, s, Assignment("PreUp", "a"), "a");
    s' := Changed(s, PreUp, AppendScript(s.iface.scripts[PreUp], "a"), s.line + 1);
  }

  lemma RunThree(s0: Scan, x: string, y: string, z: string, s1: Scan, s2: Scan, s3: Scan)
    requires ParseLine(s0, x) == Ok(s1) && ParseLine(s1, y) == Ok(s2) && ParseLine(s2, z) == Ok(s3)
    ensures ParseLines(s0, [x, y, z]) == Ok(s3)
  {
    assert [x, y, z] == [x] + [y, z] && [y, z] == [y] + [z] && [z] == [z] + [];
    RunCons(ParseLine, s0, x, s1, [y, z]);
    RunCons(ParseLine, s1, y, s2, [z]);
    RunCons(ParseLine, s2, z, s3, []);
    RunIsParse(s0, [x, y, z]);
  }

  lemma ThirdIsInTheWay(h: Hook, a: string, b: string, c: string)
    requires FieldEditor.IsHeader(a) && IsInterfaceHeader(a) && !FieldEditor.IsHeader(b)
    requires Missed(h, c) && FieldEditor.ValueAt(c) != ""
    ensures Inserts([a, b, c], false) && !NoneInTheWay(h, [a, b, c], false, true, false) && KnownHeaders([a, b, c])
  {
    assert [a, b, c][1..] == [b, c] && [b, c][1..] == [c] && [c][1..] == [];
    HeaderIsNoKey(a);
    assert Inserts([], true) && Inserts([c], true) && Inserts([b, c], true);
    assert !NoneInTheWay(h, [c], true, true, false) && !NoneInTheWay(h, [b, c], true, true, false);
  }

  lemma PlainLineIsNoHeader(line: string)
    requires Trimmed(line) && line != "" && line[0] != '['
    ensures !FieldEditor.IsHeader(line)
  {
    TrimmedStays(line);
    assert "["[0] == '[';
  }

  lemma InterfaceHeaderIsHeader()
    ensures FieldEditor.IsHeader("[Interface]") && IsInterfaceHeader("[Interface]")
  {
    TrimmedStays("[Interface]");
    assert Lower("[Interface]") == "[interface]" == Lower("[interface]");
    HeaderIsNoKey("[Interface]");
  }

  lemma TabbedLinesAreShort()
    ensures var lines := TabbedLines();
            && '\n' !in lines[0] && '\n' !in lines[1] && '\n' !in lines[2]
            && |lines[0]| + |lines[1]| + |lines[2]| < 100
  {
  }

  lemma TabbedMarks()
    ensures FieldEditor.IsHeader(TabbedLines()[0]) && IsInterfaceHeader(TabbedLines()[0]) && !HasPrefix(TabbedLines()[0], BOM)
    ensures !FieldEditor.IsHeader(TabbedLines()[1])
    ensures Missed(PreUp, TabbedLines()[2]) && FieldEditor.ValueAt(TabbedLines()[2]) != ""
  {
    TabbedLineParses(START.(section := InInterface));
    TabbedLineIsMissed();
    PlainLineIsNoHeader(TabbedLines()[1]);
    InterfaceHeaderIsHeader();
    assert TabbedLines()[0][0] == '[' != BOM[0];
  }

  /** A header, a key, and a line that only the parser takes for one of the hook. */
  lemma MissedExample() returns (a: string, b: string, c: string, s: Scan)
    ensures FieldEditor.IsHeader(a) && IsInterfaceHeader(a) && !FieldEditor.IsHeader(b)
    ensures Missed(PreUp, c) && FieldEditor.ValueAt(c) != ""
    ensures '\n' !in a && '\n' !in b && '\n' !in c && !HasPrefix(a, BOM) && |a| + |b| + |c| < 100
    ensures ParseLines(START, [a, b, c]) == Ok(s) && Finished(s).Ok?
  {
    var lines := TabbedLines();
    a, b, c := lines[0], lines[1], lines[2];
    TabbedMarks();
    TabbedLinesAreShort();
    s := TabbedLinesParse();
    assert lines == [a, b, c];
  }

  /** A missed line in the way makes the edit and the parser disagree. */
  lemma MissedLineEscapes(lines: seq<string>, s: Scan, h: Hook, command: string) returns (content: string)
    requires lines != [] && Free(lines, '\n') && |Join(lines, "\n")| <= MAX_CONFIG_SIZE && !HasPrefix(lines[0], BOM)
    requires ParseLines(START, lines) == Ok(s) && Finished(s).Ok? && KnownHeaders(lines)
    requires CleanValue(command) && command != "" && Inserts(lines, false) && !NoneInTheWay(h, lines, false, true, false)
    ensures Parsed(content).Ok? && !HasPrefix(content, BOM) && KnownHeaders(Split(content, '\n'))
    ensures HasInterfaceSection(content)
    ensures var c := Parsed(content).value;
            Parsed(HookSet(content, HookName(h), command)) != Ok(c.(iface := WithScript(c.iface, h, command)))
  {
    content := Join(lines, "\n");
    SplitOfJoin(lines, '\n');
    BomIsInFirstLine(lines);
    ParsedLines(content, lines, s);
    if |HookSet(content, HookName(h), command)| <= MAX_CONFIG_SIZE {
      SetAgreesExactlyWhen(content, h, command);
    }
  }

  /** The parser takes a line after a vertical tab for one of the hook, the
      editor does not: the edit adds a command where it should replace one. */
  lemma VerticalTabEscapes(command: string) returns (content: string, h: Hook)
    requires CleanValue(command) && command != ""
    ensures Parsed(content).Ok? && !HasPrefix(content, BOM) && KnownHeaders(Split(content, '\n'))
    ensures HasInterfaceSection(content)
    ensures var c := Parsed(content).value;
            Parsed(HookSet(content, HookName(h), command)) != Ok(c.(iface := WithScript(c.iface, h, command)))
  {
    h := PreUp;
    var x, y, z, s := MissedExample();
    ThirdIsInTheWay(PreUp, x, y, z);
    JoinThree(x, y, z);
    content := MissedLineEscapes([x, y, z], s, PreUp, command);
  }

  lemma JoinThree(a: string, b: string, c: string)
    ensures |Join([a, b, c], "\n")| == |a| + |b| + |c| + 2
  {
    assert [a, b, c][1..] == [b, c] && [b, c][1..] == [c];
    assert Join([b, c], "\n") == b + "\n" + Join([c], "\n");
  }
}
