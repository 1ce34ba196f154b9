/** Reading a hook in the editor against reading it in the parser. */
module HookReading {
  import opened Wrappers
  import opened Text
  import opened WireGuardConfig
  import opened ConfigParser
  import opened ConfigRoundTrip
  import opened HookEditor
  import opened HookEditorLaws
  import opened HookParsing
  import FieldEditor

  function NotEmpty(parts: seq<string>): seq<string> {
    if parts == [] then []
    else NotEmpty(parts[..|parts| - 1]) + if parts[|parts| - 1] != "" then [parts[|parts| - 1]] else []
  }

  /** The commands of a script: what stands between NULs, where anything does. */
  function Commands(script: string): seq<string> { NotEmpty(Split(script, NUL)) }

  lemma CommandsMore(script: string, value: string)
    requires NUL !in value
    ensures Commands(AppendScript(script, value)) == Commands(script) + if value != "" then [value] else []
  {
    SplitWithout(value, NUL);
    if script == "" {
      assert Split("", NUL) == [""] && [""][..0] == [] && [value][..0] == [];
    } else {
      SplitAppend(script, NUL, value);
      assert (Split(script, NUL) + [value])[..|Split(script, NUL)|] == Split(script, NUL);
    }
  }

  /** The command that the parser takes from a line. */
  function ParsedOut(h: Hook, line: string, inInterface: bool): seq<string> {
    if inInterface && ParsesAs(h, line) && FieldEditor.ValueAt(line) != "" then [FieldEditor.ValueAt(line)] else []
  }

  function ParsedValues(h: Hook, lines: seq<string>, inInterface: bool): seq<string>
    decreases |lines|
  {
    if lines == [] then []
    else ParsedOut(h, lines[0], inInterface) + ParsedValues(h, lines[1..], InterfaceAfter(lines[0], inInterface))
  }

  lemma LineAddsCommand(h: Hook, s: Scan, line: string)
    requires KnownHeader(line) && ParseLine(s, line).Ok?
    ensures var s', isIn := ParseLine(s, line).value, s.section == InInterface;
            && Commands(s'.iface.scripts[h]) == Commands(s.iface.scripts[h]) + ParsedOut(h, line, isIn)
            && (s'.section == InInterface <==> InterfaceAfter(line, isIn))
  {
    var script := s.iface.scripts[h];
    assert s.iface.scripts[h := script] == s.iface.scripts;
    assert Changed(s, h, script, s.line) == s;
    HookParsing.LineReads(h, s, script, s.line, line);
    var s1 := s.(line := s.line + 1);
    LineParses(s, line, Trim(line), ParseTrimmed(s1, Trim(line)));
    NoNulWhenParsed(s1, Trim(line));
    if ParsesAs(h, line) {
      ValueLacksNul(line);
      CommandsMore(script, FieldEditor.ValueAt(line));
    }
  }

  lemma ValueLacksNul(line: string)
    requires FieldEditor.HasKey(line) && NUL !in Trim(line)
    ensures NUL !in FieldEditor.ValueAt(line)
  {
    var t := Trim(line);
    TrimIsPart(t[IndexOf(t, '=') + 1..]);
  }

  lemma FirstLineParses(s: Scan, lines: seq<string>) returns (s': Scan)
    requires lines != [] && ParseLines(s, lines).Ok?
    ensures ParseLine(s, lines[0]) == Ok(s') && ParseLines(s', lines[1..]) == ParseLines(s, lines)
  {
    s' := ParseLine(s, lines[0]).value;
  }

  lemma Associate(a: seq<string>, b: seq<string>, c: seq<string>)
    ensures (a + b) + c == a + (b + c)
  {
  }

  lemma {:induction false} LinesAddCommands(h: Hook, s: Scan, lines: seq<string>)
    requires KnownHeaders(lines) && ParseLines(s, lines).Ok?
    ensures Commands(ParseLines(s, lines).value.iface.scripts[h]) ==
            Commands(s.iface.scripts[h]) + ParsedValues(h, lines, s.section == InInterface)
    decreases |lines|
  {
    if lines != [] {
      var s' := FirstLineParses(s, lines);
      LineAddsCommand(h, s, lines[0]);
      LinesAddCommands(h, s', lines[1..]);
      Associate(Commands(s.iface.scripts[h]), ParsedOut(h, lines[0], s.section == InInterface),
                ParsedValues(h, lines[1..], s'.section == InInterface));
    }
  }

  /** Every command that the editor reads, the parser reads; they read the same
      exactly when the editor misses none. */
  lemma {:induction false} ReadAlike(h: Hook, lines: seq<string>, inInterface: bool)
    ensures |HookValues(HookName(h), lines, inInterface)| <= |ParsedValues(h, lines, inInterface)|
    ensures HookValues(HookName(h), lines, inInterface) == ParsedValues(h, lines, inInterface) <==>
            NoneInTheWay(h, lines, inInterface, false, false)
    decreases |lines|
  {
    if lines != [] {
      var x, rest, next := lines[0], lines[1..], InterfaceAfter(lines[0], inInterface);
      ReadAlike(h, rest, next);
      if IsHookLine(HookName(h), x) {
        HookLineParses(h, x);
      }
      var a, b := ValueOut(HookName(h), x, inInterface), ParsedOut(h, x, inInterface);
      var c, d := HookValues(HookName(h), rest, next), ParsedValues(h, rest, next);
      if a == b {
        assert (a + c)[|a|..] == c && (b + d)[|b|..] == d;
      } else {
        assert a == [] && |b| == 1 && |a + c| < |b + d|;
      }
    }
  }

  /** The editor shows the parser's commands, between semicolons, exactly when it
      misses no line of the hook that has one. */
  lemma ReadAgreesExactlyWhen(content: string, h: Hook)
    requires Parsed(content).Ok? && !HasPrefix(content, BOM) && KnownHeaders(Split(content, '\n'))
    ensures var commands, lines := Commands(Parsed(content).value.iface.scripts[h]), Split(content, '\n');
            && (HookValues(HookName(h), lines, false) == commands <==> NoneInTheWay(h, lines, false, false, false))
            && (NoneInTheWay(h, lines, false, false, false) ==> HookOf(content, HookName(h)) == Join(commands, "; "))
  {
    var lines := Split(content, '\n');
    AcceptedLines(content);
    LinesAddCommands(h, START, lines);
    StartHasNoCommand(h);
    ReadAlike(h, lines, false);
  }

  lemma StartHasNoCommand(h: Hook)
    ensures Commands(START.iface.scripts[h]) == []
  {
    ZeroValues();
    assert Split("", NUL) == [""] && [""][..0] == [];
  }

  /** Without vertical tabs it always does. */
  lemma ReadAgrees(content: string, h: Hook)
    requires Parsed(content).Ok? && !HasPrefix(content, BOM) && KnownHeaders(Split(content, '\n')) && VERTICAL_TAB !in content
    ensures HookOf(content, HookName(h)) == Join(Commands(Parsed(content).value.iface.scripts[h]), "; ")
  {
    var lines := Split(content, '\n');
    SplitParts(content, '\n');
    NothingInTheWay(h, lines, false, false, false);
    ReadAgreesExactlyWhen(content, h);
  }
}
