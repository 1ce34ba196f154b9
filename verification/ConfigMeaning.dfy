/** What a configuration text says, with the tables of the parser and the printer
    written out: keys, units, sizes, errors and lines. */
module ConfigMeaning {
  import opened Wrappers
  import opened Text
  import opened WireGuardConfig
  import opened ConfigParser
  import opened ConfigPrinter
  import opened ConfigRoundTrip
  import opened SectionParsing
  import opened SectionValues
  import opened FieldSetting
  import HookParsing
  import FieldEditor

  // ---------------------------------------------------------------------
  // Values
  // ---------------------------------------------------------------------

  /** The items of a list are what stands between commas, trimmed, where anything is left. */
  lemma ItemsTell(a: string, b: string)
    requires ',' !in b
    ensures Items(b) == if Trim(b) == "" then [] else [Trim(b)]
    ensures Items(a + "," + b) == Items(a) + Items(b)
  {
    SplitWithout(b, ',');
    SplitAppend(a, ',', b);
    assert a + "," + b == a + [','] + b;
    NonEmptyAppend(Split(a, ','), [b]);
  }

  /** Several commands are joined with NUL; an empty one at the start adds nothing. */
  lemma {:induction false} ScriptTells(h: Hook, vs: seq<string>)
    requires vs != []
    ensures vs[0] != "" ==> ReadAll(AsScript(h), Script(""), vs) == Script(Join(vs, [NUL])) && Join(vs, [NUL]) != ""
    ensures vs[0] == "" ==> ReadAll(AsScript(h), Script(""), vs) == ReadAll(AsScript(h), Script(""), vs[1..])
    decreases |vs|
  {
    var n := |vs| - 1;
    if n == 0 {
      assert vs[..0] == [] && vs == [vs[0]] && vs[1..] == [];
    } else {
      ScriptTells(h, vs[..n]);
      assert vs == vs[..n] + [vs[n]] && vs[1..][..n - 1] == vs[..n][1..];
      JoinMore(vs[..n], [NUL], vs[n]);
    }
  }

  // ---------------------------------------------------------------------
  // Keepalives
  // ---------------------------------------------------------------------

  predicate EndsInLetter(s: string) { s != "" && 'a' <= s[|s| - 1] <= 'z' }

  predicate Letters(s: string) { s != "" && forall i :: 0 <= i < |s| ==> 'a' <= s[i] <= 'z' }

  /** From the longest to the shortest. */
  predicate AreUnits(units: seq<string>) {
    && (forall i :: 0 <= i < |units| ==> Letters(units[i]))
    && (forall i, j :: 0 <= i < j < |units| ==> |units[i]| > |units[j]|)
  }

  lemma {:induction false} UnitIsTaken(t: string, u: string, units: seq<string>)
    requires AreUnits(units) && !EndsInLetter(t) && (u == "" || u in units)
    ensures WithoutUnit(t + u, units) == if u == "" then t else Trim(t)
    decreases |units|
  {
    var s := t + u;
    if units == [] {
      assert s == t;
    } else if u == units[0] {
      assert s[|s| - |u|..] == u && s[..|s| - |u|] == t;
    } else {
      OtherUnit(t, u, units[0]);
      UnitIsTaken(t, u, units[1..]);
    }
  }

  lemma OtherUnit(t: string, u: string, w: string)
    requires Letters(w) && !EndsInLetter(t) && |w| > |u|
    ensures !HasSuffix(t + u, w)
  {
    var s, k := t + u, |w| - |u| - 1;
    if |w| <= |s| {
      assert s[|s| - |w|..][k] == t[|t| - 1] && 'a' <= w[k] <= 'z';
    }
  }

  lemma {:induction false} SomeUnitIsTaken(s: string, units: seq<string>) returns (t: string, u: string)
    requires "" !in units
    ensures s == t + u && (u == "" || u in units) && WithoutUnit(s, units) == if u == "" then t else Trim(t)
    decreases |units|
  {
    if units == [] {
      t, u := s, "";
    } else if HasSuffix(s, units[0]) {
      t, u := s[..|s| - |units[0]|], units[0];
    } else {
      t, u := SomeUnitIsTaken(s, units[1..]);
    }
  }

  lemma NumberEndsInNoLetter(t: string)
    requires Atoi(Trim(t)).Some?
    ensures !EndsInLetter(t)
  {
    var a, b := TrimTells(t);
    var sign, d := AtoiHasDigits(Trim(t), Atoi(Trim(t)).value);
    assert IsDigit(d[|d| - 1]);
    if b != "" {
      assert t[|t| - 1] == b[|b| - 1] && b[|b| - 1] in b;
    } else {
      assert t[|t| - 1] == d[|d| - 1];
    }
  }

  /** A keepalive is a number that is not negative, with or without one of the
      five units of seconds, in any case and with blanks around the number. */
  lemma KeepaliveExactlyWhen(raw: string, n: Int64)
    ensures Keepalive(raw) == Some(n) <==>
            n >= 0 && exists t, u :: Lower(Trim(raw)) == t + u && Atoi(Trim(t)) == Some(n)
                                     && u in {"", "s", "sec", "secs", "second", "seconds"}
  {
    var s := Lower(Trim(raw));
    LoweredIsTrimmed(raw);
    if Keepalive(raw) == Some(n) {
      var t, u := SomeUnitIsTaken(s, UNITS);
      if u == "" {
        TrimmedStays(t);
      }
      assert u in {"", "s", "sec", "secs", "second", "seconds"};
    }
    if t, u :| n >= 0 && s == t + u && Atoi(Trim(t)) == Some(n) && u in {"", "s", "sec", "secs", "second", "seconds"} {
      NumberEndsInNoLetter(t);
      UnitsAre(u);
      UnitIsTaken(t, u, UNITS);
      if u == "" {
        TrimmedStays(t);
      }
    }
  }

  lemma UnitsAre(u: string)
    requires u in {"", "s", "sec", "secs", "second", "seconds"}
    ensures AreUnits(UNITS) && (u == "" || u in UNITS)
  {
    assert UNITS[0] == "seconds" && UNITS[1] == "second" && UNITS[2] == "secs" && UNITS[3] == "sec" && UNITS[4] == "s";
  }

  lemma LoweredIsTrimmed(raw: string)
    ensures Trimmed(Lower(Trim(raw)))
  {
    TrimIsTrimmed(raw);
  }

  // ---------------------------------------------------------------------
  // The protocol
  // ---------------------------------------------------------------------

  /** The last value is a number other than zero. */
  predicate LastIsNumber(vs: seq<string>) { vs != [] && Atoi(vs[|vs| - 1]).Some? && Atoi(vs[|vs| - 1]).value != 0 }

  predicate LastIsText(vs: seq<string>) { vs != [] && vs[|vs| - 1] != "" }

  lemma NumberIsSet(ps: seq<Pair>, i: Interface, n: IntKey, low: string)
    requires FoldInterface(NO_INTERFACE, ps) == Some(i) && IsNamed(AsInt(n), low)
    ensures i.ints[n] != 0 <==> LastIsNumber(ValuesOf(ps, low))
  {
    ZeroValues();
    FieldIs(NO_INTERFACE, ps, AsInt(n));
    FoldsWhen(NO_INTERFACE, ps);
    assert Get(NO_INTERFACE, AsInt(n)) == Number(0) && Get(i, AsInt(n)) == Number(i.ints[n]);
  }

  lemma TextIsSet(ps: seq<Pair>, i: Interface, t: TextKey, low: string)
    requires FoldInterface(NO_INTERFACE, ps) == Some(i) && IsNamed(AsText(t), low)
    ensures i.texts[t] != "" <==> LastIsText(ValuesOf(ps, low))
  {
    ZeroValues();
    FieldIs(NO_INTERFACE, ps, AsText(t));
    assert Get(NO_INTERFACE, AsText(t)) == Text("") && Get(i, AsText(t)) == Text(i.texts[t]);
  }

  predicate IsNamed(k: InterfaceKey, low: string) { low == LowerName(k) }

  lemma AwgNames()
    ensures IsNamed(AsInt(Jc), "jc") && IsNamed(AsInt(Jmin), "jmin") && IsNamed(AsInt(Jmax), "jmax")
    ensures IsNamed(AsInt(S1), "s1") && IsNamed(AsInt(S2), "s2") && IsNamed(AsInt(S3), "s3") && IsNamed(AsInt(S4), "s4")
    ensures IsNamed(AsText(H1), "h1") && IsNamed(AsText(H2), "h2") && IsNamed(AsText(H3), "h3") && IsNamed(AsText(H4), "h4")
  {
  }

  /** One of the eleven AmneziaWG keys is set, to a number other than zero or to
      a text that is not empty. */
  ghost predicate SetsAwg(ps: seq<Pair>) {
    || LastIsNumber(ValuesOf(ps, "jc")) || LastIsNumber(ValuesOf(ps, "jmin")) || LastIsNumber(ValuesOf(ps, "jmax"))
    || LastIsNumber(ValuesOf(ps, "s1")) || LastIsNumber(ValuesOf(ps, "s2")) || LastIsNumber(ValuesOf(ps, "s3"))
    || LastIsNumber(ValuesOf(ps, "s4"))
    || LastIsText(ValuesOf(ps, "h1")) || LastIsText(ValuesOf(ps, "h2")) || LastIsText(ValuesOf(ps, "h3"))
    || LastIsText(ValuesOf(ps, "h4"))
  }

  lemma AwgOf(i: Interface)
    ensures IsAmneziaWG(i) <==>
            || i.ints[Jc] != 0 || i.ints[Jmin] != 0 || i.ints[Jmax] != 0
            || i.ints[S1] != 0 || i.ints[S2] != 0 || i.ints[S3] != 0 || i.ints[S4] != 0
            || i.texts[H1] != "" || i.texts[H2] != "" || i.texts[H3] != "" || i.texts[H4] != ""
  {
  }

  lemma JunkIsSet(ps: seq<Pair>, i: Interface)
    requires FoldInterface(NO_INTERFACE, ps) == Some(i)
    ensures i.ints[Jc] != 0 <==> LastIsNumber(ValuesOf(ps, "jc"))
    ensures i.ints[Jmin] != 0 <==> LastIsNumber(ValuesOf(ps, "jmin"))
    ensures i.ints[Jmax] != 0 <==> LastIsNumber(ValuesOf(ps, "jmax"))
  {
    AwgNames();
    NumberIsSet(ps, i, Jc, "jc");
    NumberIsSet(ps, i, Jmin, "jmin");
    NumberIsSet(ps, i, Jmax, "jmax");
  }

  lemma SizesAreSet(ps: seq<Pair>, i: Interface)
    requires FoldInterface(NO_INTERFACE, ps) == Some(i)
    ensures i.ints[S1] != 0 <==> LastIsNumber(ValuesOf(ps, "s1"))
    ensures i.ints[S2] != 0 <==> LastIsNumber(ValuesOf(ps, "s2"))
  {
    AwgNames();
    NumberIsSet(ps, i, S1, "s1");
    NumberIsSet(ps, i, S2, "s2");
  }

  lemma OtherSizesAreSet(ps: seq<Pair>, i: Interface)
    requires FoldInterface(NO_INTERFACE, ps) == Some(i)
    ensures i.ints[S3] != 0 <==> LastIsNumber(ValuesOf(ps, "s3"))
    ensures i.ints[S4] != 0 <==> LastIsNumber(ValuesOf(ps, "s4"))
  {
    AwgNames();
    NumberIsSet(ps, i, S3, "s3");
    NumberIsSet(ps, i, S4, "s4");
  }

  lemma HeadersAreSet(ps: seq<Pair>, i: Interface)
    requires FoldInterface(NO_INTERFACE, ps) == Some(i)
    ensures i.texts[H1] != "" <==> LastIsText(ValuesOf(ps, "h1"))
    ensures i.texts[H2] != "" <==> LastIsText(ValuesOf(ps, "h2"))
  {
    AwgNames();
    TextIsSet(ps, i, H1, "h1");
    TextIsSet(ps, i, H2, "h2");
  }

  lemma OtherHeadersAreSet(ps: seq<Pair>, i: Interface)
    requires FoldInterface(NO_INTERFACE, ps) == Some(i)
    ensures i.texts[H3] != "" <==> LastIsText(ValuesOf(ps, "h3"))
    ensures i.texts[H4] != "" <==> LastIsText(ValuesOf(ps, "h4"))
  {
    AwgNames();
    TextIsSet(ps, i, H3, "h3");
    TextIsSet(ps, i, H4, "h4");
  }

  lemma AwgIsSet(ps: seq<Pair>, i: Interface)
    requires FoldInterface(NO_INTERFACE, ps) == Some(i)
    ensures IsAmneziaWG(i) <==> SetsAwg(ps)
  {
    AwgOf(i);
    JunkIsSet(ps, i);
    SizesAreSet(ps, i);
    OtherSizesAreSet(ps, i);
    HeadersAreSet(ps, i);
    OtherHeadersAreSet(ps, i);
  }

  /** A text is of AmneziaWG exactly when its interface sections set such a key. */
  lemma ProtocolExactlyWhen(content: string)
    requires Parsed(content).Ok? && !HasPrefix(content, BOM) && HookParsing.KnownHeaders(Split(content, '\n'))
    ensures Parsed(content).value.protocol == AmneziaWG <==> SetsAwg(InterfacePairs(BlocksOf(content)))
  {
    AcceptedYields(content);
    AwgIsSet(InterfacePairs(BlocksOf(content)), Parsed(content).value.iface);
    ProtocolIsOf(content);
  }

  lemma ProtocolIsOf(content: string)
    requires Parsed(content).Ok?
    ensures Parsed(content).value.protocol == AmneziaWG <==> IsAmneziaWG(Parsed(content).value.iface)
  {
  }

  // ---------------------------------------------------------------------
  // Refused texts
  // ---------------------------------------------------------------------

  lemma {:induction false} LinesAreCounted(s: Scan, lines: seq<string>)
    requires s.section == InPeer ==> s.peers != []
    ensures var r := ParseLines(s, lines); r.Ok? ==>
              && r.value.line == s.line + |lines| && (r.value.section == InPeer ==> r.value.peers != [])
    decreases |lines|
  {
    if lines != [] && ParseLine(s, lines[0]).Ok? {
      LinesAreCounted(ParseLine(s, lines[0]).value, lines[1..]);
    }
  }

  lemma ParseStops(lines: seq<string>, n: nat, s: Scan)
    requires n < |lines| && ParseLines(START, lines[..n]) == Ok(s) && ParseLine(s, lines[n]).Err?
    ensures ParseLines(START, lines) == Err(ParseLine(s, lines[n]).error)
  {
    ParseAppend(START, lines[..n], lines[n..]);
    assert lines == lines[..n] + lines[n..] && lines[n..][0] == lines[n];
  }

  /** The sizes: 1048576 characters in all, and as many in the one line of a text
      without a newline, behind a byte order mark. */
  lemma SizesTell(content: string)
    ensures |content| > 1048576 <==> Parsed(content) == Err(TooLarge)
    ensures |content| == 1048576 && '\n' !in content && !HasPrefix(content, ['\U{EF}', '\U{BB}', '\U{BF}']) ==>
              Parsed(content) == Err(LineTooLong)
  {
    if |content| <= 1048576 {
      LinesNeverTooLarge(START, Split(WithoutBom(content), '\n'));
    }
  }

  lemma LineNeverTooLarge(s: Scan, line: string)
    ensures ParseLine(s, line) != Err(TooLarge)
  {
  }

  lemma {:induction false} LinesNeverTooLarge(s: Scan, lines: seq<string>)
    ensures ParseLines(s, lines) != Err(TooLarge)
    decreases |lines|
  {
    if lines != [] {
      LineNeverTooLarge(s, lines[0]);
      var r := ParseLine(s, lines[0]);
      if r.Ok? {
        LinesNeverTooLarge(r.value, lines[1..]);
      }
    }
  }

  /** What a line that sets a key is refused for, where it stands after `n` others. */
  ghost predicate KeyError(s: Scan, n: nat, key: string, value: string, e: ParseError) {
    match s.section
    case NoSection => e == OutsideSection(n + 1)
    case InInterface =>
      && Lower(key) in {"mtu", "listenport", "jc", "jmin", "jmax", "s1", "s2", "s3", "s4"} && Atoi(value).None?
      && e == BadValue(n + 1, key)
    case InPeer =>
      || (Lower(key) == "persistentkeepalive" && Keepalive(value).None? && e == BadValue(n + 1, key))
      || (Lower(key) == "allowedips" && s.peers != [] && |s.peers[|s.peers| - 1].allowedIPs| + |Items(value)| > 10000
          && e == TooManyAllowedIPs)
  }

  /** What a line is refused for. */
  ghost predicate LineError(s: Scan, n: nat, line: string, e: ParseError) {
    var t := Trim(line);
    if NUL in t then e == NulByte(n + 1)
    else
      && t != "" && t[0] != '#' && t[0] != ';' && Lower(t) != "[interface]" && Lower(t) != "[peer]"
      && if '=' !in t then e == InvalidSyntax(n + 1)
         else KeyError(s, n, Trim(t[..IndexOf(t, '=')]), Trim(t[IndexOf(t, '=') + 1..]), e)
  }

  lemma InterfaceKeyIsRefusedWhen(i: Interface, key: string, value: string)
    ensures WithKey(i, key, value).None? <==>
            Lower(key) in {"mtu", "listenport", "jc", "jmin", "jmax", "s1", "s2", "s3", "s4"} && Atoi(value).None?
  {
  }

  lemma PeerKeyIsRefusedWhen(p: Peer, key: string, value: string, line: nat)
    ensures var r, low := WithPeerKey(p, key, value, line), Lower(key);
            && (r.Err? <==> (low == "persistentkeepalive" && Keepalive(value).None?)
                            || (low == "allowedips" && |p.allowedIPs| + |Items(value)| > 10000))
            && (r.Err? ==> r.error == if low == "allowedips" then TooManyAllowedIPs else BadValue(line, key))
  {
  }

  lemma KeyIsRefusedWhen(s: Scan, n: nat, key: string, value: string, e: ParseError)
    requires (s.section == InPeer ==> s.peers != []) && s.line == n + 1
    ensures KeyLine(s, key, value) == Err(e) ==> KeyError(s, n, key, value, e)
    ensures KeyError(s, n, key, value, e) ==> KeyLine(s, key, value).Err?
  {
    InterfaceKeyIsRefusedWhen(s.iface, key, value);
    if s.section == InPeer {
      PeerKeyIsRefusedWhen(s.peers[|s.peers| - 1], key, value, s.line);
    }
  }

  lemma KeyErrorForgetsLine(s: Scan, k: nat, n: nat, key: string, value: string, e: ParseError)
    ensures KeyError(s, n, key, value, e) <==> KeyError(s.(line := k), n, key, value, e)
  {
  }

  lemma OtherLineIsRefusedWhen(s: Scan, t: string)
    requires !SetsKey(t)
    ensures ParseTrimmed(s, t) ==
            if NUL in t then Err(NulByte(s.line))
            else if IsSkipped(t) then Ok(s)
            else if Lower(t) == "[interface]" then Ok(s.(section := InInterface))
            else if Lower(t) == "[peer]" then Ok(s.(section := InPeer, peers := s.peers + [NO_PEER]))
            else Err(InvalidSyntax(s.line))
  {
  }

  lemma SkippedIs(t: string)
    ensures IsSkipped(t) <==> t == "" || t[0] == '#' || t[0] == ';'
  {
  }

  /** The line is none of those that set no key. */
  predicate SetsKey(t: string) {
    NUL !in t && '=' in t && !IsSkipped(t) && Lower(t) != "[interface]" && Lower(t) != "[peer]"
  }

  lemma KeyLineIsRead(s: Scan, line: string)
    requires SetsKey(Trim(line))
    ensures var t, s1 := Trim(line), s.(line := s.line + 1);
            ParseLine(s, line) == KeyLine(s1, Trim(t[..IndexOf(t, '=')]), Trim(t[IndexOf(t, '=') + 1..]))
  {
    var t, s1 := Trim(line), s.(line := s.line + 1);
    KeyLineParses(s1, t, Trim(t[..IndexOf(t, '=')]), Trim(t[IndexOf(t, '=') + 1..]));
    LineParses(s, line, t, ParseTrimmed(s1, t));
  }

  lemma KeyLineError(s: Scan, n: nat, line: string, e: ParseError)
    requires SetsKey(Trim(line))
    ensures var t := Trim(line);
            LineError(s, n, line, e) <==> KeyError(s, n, Trim(t[..IndexOf(t, '=')]), Trim(t[IndexOf(t, '=') + 1..]), e)
  {
    SkippedIs(Trim(line));
  }

  lemma OtherLineError(s: Scan, line: string, e: ParseError)
    requires !SetsKey(Trim(line))
    ensures ParseLine(s, line) == Err(e) ==> LineError(s, s.line, line, e)
    ensures LineError(s, s.line, line, e) ==> ParseLine(s, line).Err?
  {
    SkippedIs(Trim(line));
    OtherLineIsRefusedWhen(s.(line := s.line + 1), Trim(line));
  }

  lemma KeyLineIsRefusedWhen(s: Scan, line: string, key: string, value: string, e: ParseError)
    requires (s.section == InPeer ==> s.peers != []) && ParseLine(s, line) == KeyLine(s.(line := s.line + 1), key, value)
    requires LineError(s, s.line, line, e) <==> KeyError(s, s.line, key, value, e)
    ensures ParseLine(s, line) == Err(e) ==> LineError(s, s.line, line, e)
    ensures LineError(s, s.line, line, e) ==> ParseLine(s, line).Err?
  {
    KeyIsRefusedWhen(s.(line := s.line + 1), s.line, key, value, e);
    KeyErrorForgetsLine(s, s.line + 1, s.line, key, value, e);
  }

  /** When a line is refused, and for what. */
  lemma LineIsRefusedWhen(s: Scan, line: string, e: ParseError)
    requires s.section == InPeer ==> s.peers != []
    ensures ParseLine(s, line) == Err(e) ==> LineError(s, s.line, line, e)
    ensures LineError(s, s.line, line, e) ==> ParseLine(s, line).Err?
  {
    if SetsKey(Trim(line)) {
      var t := Trim(line);
      KeyLineIsRead(s, line);
      KeyLineError(s, s.line, line, e);
      KeyLineIsRefusedWhen(s, line, Trim(t[..IndexOf(t, '=')]), Trim(t[IndexOf(t, '=') + 1..]), e);
    } else {
      OtherLineError(s, line, e);
    }
  }

  /** The first line that is refused decides the error, and names its own number. */
  lemma FirstBadLine(content: string, n: nat, s: Scan)
    requires |content| < 1048576
    requires var lines := Split(WithoutBom(content), '\n');
             n < |lines| && ParseLines(START, lines[..n]) == Ok(s) && ParseLine(s, lines[n]).Err?
    ensures Parsed(content).Err? && LineError(s, n, Split(WithoutBom(content), '\n')[n], Parsed(content).error)
  {
    var lines := Split(WithoutBom(content), '\n');
    LinesAreCounted(START, lines[..n]);
    ParseStops(lines, n, s);
    LineIsRefusedWhen(s, lines[n], ParseLine(s, lines[n]).error);
  }

  lemma AllLinesParse(content: string, s: Scan)
    requires |content| < 1048576 && ParseLines(START, Split(WithoutBom(content), '\n')) == Ok(s)
    ensures Parsed(content) == Finished(s)
  {
  }

  lemma FinishedTells(s: Scan)
    ensures Finished(s).Err? <==> s.iface.texts[PrivateKey] == ""
    ensures Finished(s).Err? ==> Finished(s).error == NoPrivateKey
    ensures Finished(s).Ok? ==> Finished(s).value.iface == s.iface && Finished(s).value.peers == s.peers
  {
  }

  /** With no bad line, only a missing private key is refused. */
  lemma NoBadLine(content: string, s: Scan)
    requires |content| < 1048576 && ParseLines(START, Split(WithoutBom(content), '\n')) == Ok(s)
    ensures Parsed(content).Err? <==> s.iface.texts[PrivateKey] == ""
    ensures Parsed(content).Err? ==> Parsed(content).error == NoPrivateKey
    ensures Parsed(content).Ok? ==> Parsed(content).value.iface == s.iface && Parsed(content).value.peers == s.peers
  {
    AllLinesParse(content, s);
    FinishedTells(s);
  }

  /** A byte order mark before a text makes no difference. */
  lemma BomIsStripped(content: string)
    requires |content| + 3 < 1048576 && !HasPrefix(content, BOM)
    ensures Parsed(['\U{EF}', '\U{BB}', '\U{BF}'] + content) == Parsed(content)
  {
    assert (BOM + content)[3..] == content;
  }

  // ---------------------------------------------------------------------
  // The printed lines
  // ---------------------------------------------------------------------

  function Said(name: string, value: string): string { name + " = " + value }

  function IfText(name: string, value: string): seq<string> { if value == "" then [] else [Said(name, value)] }

  function IfPositive(name: string, n: Int64): seq<string> { if n > 0 then [Said(name, Itoa(n))] else [] }

  function IfAny(name: string, items: seq<string>): seq<string> { if items == [] then [] else [Said(name, Join(items, ", "))] }

  function EachCommand(name: string, script: string): seq<string> {
    if script == "" then [] else seq(|Split(script, NUL)|, j requires 0 <= j < |Split(script, NUL)| => Said(name, Split(script, NUL)[j]))
  }

  /** The lines of an interface's fields, in the order in which they are printed. */
  function FieldLinesAt(i: Interface, n: nat): seq<string>
    requires n < 22
  {
    match n
    case 0 => [Said("PrivateKey", i.texts[PrivateKey])]
    case 1 => IfAny("Address", i.lists[Address])
    case 2 => IfAny("DNS", i.lists[DNS])
    case 3 => IfPositive("MTU", i.ints[MTU])
    case 4 => IfPositive("ListenPort", i.ints[ListenPort])
    case 5 => IfText("Table", i.texts[Table])
    case 6 => IfText("FwMark", i.texts[FwMark])
    case 7 => EachCommand("PreUp", i.scripts[PreUp])
    case 8 => EachCommand("PostUp", i.scripts[PostUp])
    case 9 => EachCommand("PreDown", i.scripts[PreDown])
    case 10 => EachCommand("PostDown", i.scripts[PostDown])
    case 11 => IfPositive("Jc", i.ints[Jc])
    case 12 => IfPositive("Jmin", i.ints[Jmin])
    case 13 => IfPositive("Jmax", i.ints[Jmax])
    case 14 => IfPositive("S1", i.ints[S1])
    case 15 => IfPositive("S2", i.ints[S2])
    case 16 => IfPositive("S3", i.ints[S3])
    case 17 => IfPositive("S4", i.ints[S4])
    case 18 => IfText("H1", i.texts[H1])
    case 19 => IfText("H2", i.texts[H2])
    case 20 => IfText("H3", i.texts[H3])
    case _ => IfText("H4", i.texts[H4])
  }

  function FieldLines(i: Interface, n: nat): seq<string>
    requires n <= 22
  {
    if n == 0 then [] else FieldLines(i, n - 1) + FieldLinesAt(i, n - 1)
  }

  function ExtraLines(extra: map<string, string>, order: seq<string>): seq<string>
    requires forall k :: k in order ==> k in extra
  {
    if order == [] then []
    else ExtraLines(extra, order[..|order| - 1]) + [Said(order[|order| - 1], extra[order[|order| - 1]])]
  }

  function KeyLines(p: Peer): seq<string> {
    [Said("PublicKey", p.publicKey)] + IfText("PresharedKey", p.presharedKey) + IfText("Endpoint", p.endpoint)
  }

  function PeerLines(p: Peer, order: seq<string>): seq<string>
    requires forall k :: k in order ==> k in p.extra
  {
    ["", "[Peer]"] + KeyLines(p) + IfAny("AllowedIPs", p.allowedIPs)
    + (if p.keepalive.Some? then [Said("PersistentKeepalive", Itoa(p.keepalive.value))] else [])
    + ExtraLines(p.extra, order)
  }

  lemma RenderAppend(a: seq<Entry>, b: seq<Entry>)
    ensures RenderAll(a + b) == RenderAll(a) + RenderAll(b)
  {
  }

  lemma TextPrints(i: Interface, n: nat)
    requires n in {0, 5, 6, 18, 19, 20, 21}
    ensures RenderAll(FieldEntries(i, FieldAt(n))) == FieldLinesAt(i, n)
  {
  }

  lemma NumberPrints(i: Interface, n: nat)
    requires n in {3, 4, 11, 12, 13, 14, 15, 16, 17}
    ensures RenderAll(FieldEntries(i, FieldAt(n))) == FieldLinesAt(i, n)
  {
  }

  lemma CommandsPrint(i: Interface, n: nat)
    requires n in {1, 2, 7, 8, 9, 10}
    ensures RenderAll(FieldEntries(i, FieldAt(n))) == FieldLinesAt(i, n)
  {
  }

  lemma FieldPrints(i: Interface, n: nat)
    requires n < 22
    ensures RenderAll(FieldEntries(i, FieldAt(n))) == FieldLinesAt(i, n)
  {
    if n in {0, 5, 6, 18, 19, 20, 21} {
      TextPrints(i, n);
    } else if n in {1, 2, 7, 8, 9, 10} {
      CommandsPrint(i, n);
    } else {
      NumberPrints(i, n);
    }
  }

  lemma {:induction false} FieldsPrint(i: Interface, n: nat)
    requires n <= 22
    ensures RenderAll(FieldsEntries(i, n)) == FieldLines(i, n)
  {
    if n > 0 {
      FieldsPrint(i, n - 1);
      FieldPrints(i, n - 1);
      RenderAppend(FieldsEntries(i, n - 1), FieldEntries(i, FieldAt(n - 1)));
    }
  }

  lemma {:induction false} ExtrasPrint(inPeer: bool, extra: map<string, string>, order: seq<string>)
    requires forall k :: k in order ==> k in extra
    ensures RenderAll(ExtraEntries(inPeer, extra, order)) == ExtraLines(extra, order)
    decreases |order|
  {
    if order != [] {
      var before, last := order[..|order| - 1], order[|order| - 1];
      ExtrasPrint(inPeer, extra, before);
      RenderAppend(ExtraEntries(inPeer, extra, before), [ExtraEntry(inPeer, last, extra[last])]);
    }
  }

  /** The printed interface, line by line. */
  lemma InterfacePrints(i: Interface, order: seq<string>)
    requires forall k :: k in order ==> k in i.extra
    ensures RenderAll(InterfaceEntries(i, order)) == ["[Interface]"] + FieldLines(i, 22) + ExtraLines(i.extra, order)
  {
    FieldsPrint(i, 22);
    ExtrasPrint(false, i.extra, order);
    RenderAppend([InterfaceHeader], FieldsEntries(i, 22));
    RenderAppend([InterfaceHeader] + FieldsEntries(i, 22), ExtraEntries(false, i.extra, order));
    assert RenderAll([InterfaceHeader]) == ["[Interface]"];
  }

  lemma RenderFive(a: seq<Entry>, b: seq<Entry>, c: seq<Entry>, d: seq<Entry>, e: seq<Entry>)
    ensures RenderAll(a + b + c + d + e) == RenderAll(a) + RenderAll(b) + RenderAll(c) + RenderAll(d) + RenderAll(e)
  {
    RenderAppend(a, b);
    RenderAppend(a + b, c);
    RenderAppend(a + b + c, d);
    RenderAppend(a + b + c + d, e);
  }

  lemma PeerPartsPrint(p: Peer)
    ensures RenderAll([Blank, PeerHeader]) == ["", "[Peer]"]
    ensures RenderAll(AllowedEntries(p)) == IfAny("AllowedIPs", p.allowedIPs)
    ensures RenderAll(KeepaliveEntries(p)) ==
            if p.keepalive.Some? then [Said("PersistentKeepalive", Itoa(p.keepalive.value))] else []
  {
  }

  /** A printed peer, line by line, after an empty one. */
  lemma PeerPrints(p: Peer, order: seq<string>)
    requires forall k :: k in order ==> k in p.extra
    ensures RenderAll(PeerEntries(p, order)) == PeerLines(p, order)
  {
    RenderFive([Blank, PeerHeader], PeerTexts(p), AllowedEntries(p), KeepaliveEntries(p), ExtraEntries(true, p.extra, order));
    ExtrasPrint(true, p.extra, order);
    PeerPartsPrint(p);
    PeerTextsPrint(p);
  }

  lemma PeerTextsPrint(p: Peer)
    ensures RenderAll(PeerTexts(p)) == KeyLines(p)
  {
  }

  /** An order of the extra keys has each of them once. */
  lemma {:induction false} EachKeyOnce(order: seq<string>, extra: map<string, string>)
    requires Enumerates(order, extra)
    ensures |order| == |extra|
    decreases |order|
  {
    if order == [] {
      assert extra.Keys == {};
    } else {
      var before, last := order[..|order| - 1], order[|order| - 1];
      assert last in order;
      forall k ensures k in before <==> k in extra - {last} {
        if k in before {
          var j :| 0 <= j < |before| && before[j] == k;
          assert order[j] == k;
        }
        if k in extra && k != last {
          var j :| 0 <= j < |order| && order[j] == k;
          assert before[j] == k;
        }
      }
      EachKeyOnce(before, extra - {last});
      assert (extra - {last}).Keys == extra.Keys - {last};
    }
  }

  /** Each printed line ends in a newline. */
  lemma LinesEnd(es: seq<Entry>, e: Entry)
    ensures TextOf([]) == "" && TextOf(es + [e]) == TextOf(es) + RenderAll([e])[0] + "\n"
  {
    TextMore(es, e);
  }

  // ---------------------------------------------------------------------
  // The editor's keys
  // ---------------------------------------------------------------------

  lemma PlainIsAllowed(s: string)
    requires Plain(s)
    ensures FieldEditor.KeyAllowed(s)
  {
  }

  /** The field editor takes every key that the parser has a field for. */
  lemma NamesAreAllowed(k: InterfaceKey, pk: PeerKey)
    ensures FieldEditor.KeyAllowed(Name(k)) && FieldEditor.KeyAllowed(PeerName(pk))
  {
    match k {
      case AsText(t) => TextNames(t);
      case AsInt(n) => IntNames(n);
      case AsList(l) => ListNames(l);
      case AsScript(h) => HookNames(h);
    }
    PlainIsAllowed(Name(k));
    PeerNames(pk);
    PlainIsAllowed(PeerName(pk));
  }
}
