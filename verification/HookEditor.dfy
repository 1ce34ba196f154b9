/** The hook editor: reading the command of a PreUp/PostUp/PreDown/PostDown hook
    from a .conf text, and rewriting its lines in place. */
module HookEditor {
  import opened Wrappers
  import opened Text
  import FieldEditor

  /** What `\s` of a regular expression matches: not the vertical tab. */
  predicate IsPatternSpace(c: char) { c == ' ' || c == '\t' || c == '\n' || c == '\U{0C}' || c == '\r' }

  function SkipPatternSpace(s: string): (r: string)
    ensures r == "" || !IsPatternSpace(r[0])
  {
    if s != "" && IsPatternSpace(s[0]) then SkipPatternSpace(s[1..]) else s
  }

  /** The match of (?i)^\s*hook\s*= against a line. */
  predicate IsHookLine(hook: string, line: string) {
    var a := SkipPatternSpace(line);
    && |hook| <= |a| && EqualFold(a[..|hook|], hook)
    && HasPrefix(SkipPatternSpace(a[|hook|..]), "=")
  }

  predicate IsInterfaceHeader(line: string) { EqualFold(Trim(line), "[interface]") }

  function ValueOf(line: string): string {
    var eq := IndexOf(line, '=');
    if eq < |line| then Trim(line[eq + 1..]) else ""
  }

  // ---------------------------------------------------------------------
  // Reading a hook
  // ---------------------------------------------------------------------

  /** The command of one line, if it has one for the hook. */
  function ValueOut(hook: string, line: string, inInterface: bool): seq<string> {
    if !FieldEditor.IsHeader(line) && inInterface && IsHookLine(hook, line) && ValueOf(line) != "" then [ValueOf(line)]
    else []
  }

  /** Whether the line after `line` is in an [Interface] section. */
  predicate InterfaceAfter(line: string, inInterface: bool) {
    if FieldEditor.IsHeader(line) then IsInterfaceHeader(line) else inInterface
  }

  /** The commands of a hook, from `inInterface` on. */
  function HookValues(hook: string, lines: seq<string>, inInterface: bool): seq<string>
    decreases |lines|
  {
    if lines == [] then []
    else ValueOut(hook, lines[0], inInterface) + HookValues(hook, lines[1..], InterfaceAfter(lines[0], inInterface))
  }

  function HookOf(content: string, hook: string): string {
    Join(HookValues(hook, Split(content, '\n'), false), "; ")
  }

  lemma HookValuesStep(hook: string, lines: seq<string>, n: nat, inInterface: bool, before: seq<string>)
    requires n < |lines|
    ensures before + HookValues(hook, lines[n..], inInterface) ==
            (before + ValueOut(hook, lines[n], inInterface))
            + HookValues(hook, lines[n + 1..], InterfaceAfter(lines[n], inInterface))
  {
    assert lines[n..][0] == lines[n] && lines[n..][1..] == lines[n + 1..];
    Shift(before, ValueOut(hook, lines[n], inInterface),
          HookValues(hook, lines[n + 1..], InterfaceAfter(lines[n], inInterface)));
  }

  lemma Shift(a: seq<string>, b: seq<string>, c: seq<string>)
    ensures a + (b + c) == (a + b) + c
  {
  }

  method GetHookFromText(content: string, hook: string) returns (r: string)
    ensures r == HookOf(content, hook)
  {
    var lines := Split(content, '\n');
    var vals: seq<string>, inInterface := [], false;
    for n := 0 to |lines|
      invariant HookValues(hook, lines, false) == vals + HookValues(hook, lines[n..], inInterface)
    {
      var line := lines[n];
      HookValuesStep(hook, lines, n, inInterface, vals);
      var trimmed := Trim(line);
      if HasPrefix(trimmed, "[") {
        assert ValueOut(hook, line, inInterface) == [] && vals + [] == vals;
        inInterface := EqualFold(trimmed, "[interface]");
        continue;
      }
      if inInterface && IsHookLine(hook, line) {
        HookLineHasKey(hook, line);
        var v := Trim(line[IndexOf(line, '=') + 1..]);
        if v != "" {
          vals := vals + [v];
          continue;
        }
      }
      assert ValueOut(hook, line, inInterface) == [] && vals + [] == vals;
    }
    assert vals + [] == vals;
    r := Join(vals, "; ");
  }

  lemma {:induction false} SkipIsSuffix(s: string)
    ensures |SkipPatternSpace(s)| <= |s| && SkipPatternSpace(s) == s[|s| - |SkipPatternSpace(s)|..]
  {
    if s != "" && IsPatternSpace(s[0]) {
      SkipIsSuffix(s[1..]);
    }
  }

  lemma HookLineHasKey(hook: string, line: string)
    requires IsHookLine(hook, line)
    ensures '=' in line
  {
    var a := SkipPatternSpace(line);
    var b := SkipPatternSpace(a[|hook|..]);
    SkipIsSuffix(line);
    SkipIsSuffix(a[|hook|..]);
    assert b[0] == '=' by { assert b[..1] == "="; }
    assert a[|a| - |b|] == '=';
    assert line[|line| - |b|] == '=';
  }

  // ---------------------------------------------------------------------
  // Rewriting a hook
  // ---------------------------------------------------------------------

  predicate HasCRLF(s: string) { exists i :: 0 <= i < |s| - 1 && s[i] == '\r' && s[i + 1] == '\n' }

  function EndOfLine(content: string): string { if HasCRLF(content) then "\r" else "" }

  /** What one line adds to the result. */
  function LineOut(hook: string, added: Option<string>, line: string, inInterface: bool): seq<string> {
    if FieldEditor.IsHeader(line) then (if inInterface && added.Some? then [added.value] else []) + [line]
    else if inInterface && IsHookLine(hook, line) then []
    else [line]
  }

  /** The lines without those of the hook, and with the line `added`, unless it
      was put in before, at the end of the first [Interface] section. */
  function WithHook(hook: string, added: Option<string>, lines: seq<string>, inInterface: bool): seq<string>
    decreases |lines|
  {
    if lines == [] then
      if inInterface && added.Some? then [added.value] else []
    else if FieldEditor.IsHeader(lines[0]) then
      if inInterface && added.Some? then
        [added.value] + ([lines[0]] + WithHook(hook, None, lines[1..], IsInterfaceHeader(lines[0])))
      else [lines[0]] + WithHook(hook, added, lines[1..], IsInterfaceHeader(lines[0]))
    else if inInterface && IsHookLine(hook, lines[0]) then WithHook(hook, added, lines[1..], inInterface)
    else [lines[0]] + WithHook(hook, added, lines[1..], inInterface)
  }

  function AddedLine(content: string, hook: string, command: string): Option<string> {
    if command == "" then None else Some(Assignment(hook, command) + EndOfLine(content))
  }

  function HookSet(content: string, hook: string, command: string): string {
    Join(WithHook(hook, AddedLine(content, hook, command), Split(content, '\n'), false), "\n")
  }

  /** The closure insert: puts the new line in, once. */
  method InsertOnce(out: seq<string>, inserted: bool, hook: string, command: string, eol: string)
    returns (out': seq<string>, inserted': bool)
    ensures inserted' == (inserted || command != "")
    ensures out' == if inserted || command == "" then out else out + [Assignment(hook, command) + eol]
  {
    out', inserted' := out, inserted;
    if inserted || command == "" {
      return;
    }
    out' := out + [hook + " = " + command + eol];
    inserted' := true;
  }

  function AddedAfter(added: Option<string>, line: string, inInterface: bool): Option<string> {
    if FieldEditor.IsHeader(line) && inInterface then None else added
  }

  lemma WithHookStep(hook: string, added: Option<string>, lines: seq<string>, n: nat, inInterface: bool, before: seq<string>)
    requires n < |lines|
    ensures var line := lines[n];
            before + WithHook(hook, added, lines[n..], inInterface) ==
            (before + LineOut(hook, added, line, inInterface))
            + WithHook(hook, AddedAfter(added, line, inInterface), lines[n + 1..], InterfaceAfter(line, inInterface))
  {
    var line := lines[n];
    var rest := WithHook(hook, AddedAfter(added, line, inInterface), lines[n + 1..], InterfaceAfter(line, inInterface));
    assert lines[n..][0] == line && lines[n..][1..] == lines[n + 1..];
    WithHookCons(hook, added, lines[n..], inInterface);
    Shift(before, LineOut(hook, added, line, inInterface), rest);
  }

  lemma WithHookCons(hook: string, added: Option<string>, lines: seq<string>, inInterface: bool)
    requires lines != []
    ensures var line := lines[0];
            WithHook(hook, added, lines, inInterface) ==
            LineOut(hook, added, line, inInterface)
            + WithHook(hook, AddedAfter(added, line, inInterface), lines[1..], InterfaceAfter(line, inInterface))
  {
    var line, rest := lines[0], lines[1..];
    if FieldEditor.IsHeader(line) && inInterface && added.Some? {
      Shift([added.value], [line], WithHook(hook, None, rest, IsInterfaceHeader(line)));
    } else if FieldEditor.IsHeader(line) {
      assert LineOut(hook, added, line, inInterface) == [line];
    }
  }

  method SetHookInText(content: string, hook: string, command: string) returns (r: string)
    ensures r == HookSet(content, hook, command)
  {
    var eol := if HasCRLF(content) then "\r" else "";
    ghost var added := AddedLine(content, hook, command);
    var lines := Split(content, '\n');
    var out: seq<string>, inInterface, inserted := [], false, false;
    for n := 0 to |lines|
      invariant inserted ==> command != ""
      invariant WithHook(hook, added, lines, false) ==
                out + WithHook(hook, if inserted then None else added, lines[n..], inInterface)
    {
      var line := lines[n];
      ghost var now, was := if inserted then None else added, out;
      WithHookStep(hook, now, lines, n, inInterface, out);
      var trimmed := Trim(line);
      if HasPrefix(trimmed, "[") {
        if inInterface {
          out, inserted := InsertOnce(out, inserted, hook, command, eol);
        }
        out := out + [line];
        assert out == was + LineOut(hook, now, line, inInterface);
        inInterface := EqualFold(trimmed, "[interface]");
        continue;
      }
      if inInterface && IsHookLine(hook, line) {
        assert out == was + [];
        continue;
      }
      out := out + [line];
    }
    if inInterface {
      out, inserted := InsertOnce(out, inserted, hook, command, eol);
    }
    assert out + [] == out;
    r := Join(out, "\n");
  }
}
