/** Whatever the parser accepts can be printed and read back. */
module ConfigAccepted {
  import opened Wrappers
  import opened Text
  import opened WireGuardConfig
  import opened ConfigParser
  import opened ConfigPrinter
  import opened ConfigRoundTrip

  // ---------------------------------------------------------------------
  // Values taken from a line
  // ---------------------------------------------------------------------

  /** On one line, and without NUL. */
  predicate OneLine(s: string) { NUL !in s && '\n' !in s }

  lemma TrimIsClean(s: string)
    requires OneLine(s)
    ensures CleanValue(Trim(s))
  {
    TrimIsTrimmed(s);
  }

  lemma {:induction false} NonEmptyIsClean(parts: seq<string>)
    requires forall i :: 0 <= i < |parts| ==> OneLine(parts[i]) && ',' !in parts[i]
    ensures CleanItems(NonEmpty(parts))
  {
    if parts != [] {
      TrimIsTrimmed(parts[0]);
      NonEmptyIsClean(parts[1..]);
    }
  }

  lemma ItemsAreClean(value: string)
    requires OneLine(value)
    ensures CleanItems(Items(value))
  {
    SplitParts(value, ',');
    forall i | 0 <= i < |Split(value, ',')|
      ensures OneLine(Split(value, ',')[i]) && ',' !in Split(value, ',')[i]
    {
    }
    NonEmptyIsClean(Split(value, ','));
  }

  lemma AppendedScriptIsClean(script: string, value: string)
    requires CleanScript(script) && CleanValue(value)
    ensures CleanScript(AppendScript(script, value))
  {
    if script == "" {
      SplitWithout(value, NUL);
    } else {
      SplitAppend(script, NUL, value);
    }
  }

  /** The key of a line that is no comment does not start like one. */
  lemma KeyIsClean(line: string, eq: nat)
    requires Trimmed(line) && OneLine(line) && !IsSkipped(line) && eq == IndexOf(line, '=') < |line|
    ensures CleanKey(Trim(line[..eq])) && CleanValue(Trim(line[eq + 1..]))
  {
    var left := line[..eq];
    TrimIsClean(left);
    TrimIsTrimmed(left);
    TrimIsClean(line[eq + 1..]);
    TrimRightIsPrefix(left);
    assert TrimLeft(left) == left;
    if Trim(left) != "" {
      assert Trim(left)[0] == line[0];
      assert line[..1] == [line[0]];
    }
  }

  // ---------------------------------------------------------------------
  // What each key does
  // ---------------------------------------------------------------------

  lemma FieldStaysPrintable(i: Interface, k: InterfaceKey, value: string)
    requires PrintableInterface(i) && CleanValue(value) && WithField(i, k, value).Some?
    ensures PrintableInterface(WithField(i, k, value).value)
  {
    match k
    case AsText(_) =>
    case AsInt(_) =>
    case AsList(l) =>
      ItemsAreClean(value);
      assert CleanItems(i.lists[l] + Items(value));
    case AsScript(h) =>
      AppendedScriptIsClean(i.scripts[h], value);
  }

  lemma KeyStaysPrintable(i: Interface, key: string, value: string)
    requires PrintableInterface(i) && CleanKey(key) && CleanValue(value) && WithKey(i, key, value).Some?
    ensures PrintableInterface(WithKey(i, key, value).value)
  {
    var k := KeyOf(Lower(key));
    if k.Some? {
      FieldStaysPrintable(i, k.value, value);
    }
  }

  lemma PeerKeyStaysPrintable(p: Peer, key: string, value: string, line: nat)
    requires PrintablePeer(p) && CleanKey(key) && CleanValue(value) && WithPeerKey(p, key, value, line).Ok?
    ensures PrintablePeer(WithPeerKey(p, key, value, line).value)
  {
    var k := PeerKeyOf(Lower(key));
    if k == Some(AllowedIPs) {
      ItemsAreClean(value);
      assert CleanItems(p.allowedIPs + Items(value));
    }
  }

  // ---------------------------------------------------------------------
  // Whole texts
  // ---------------------------------------------------------------------

  ghost predicate PrintableScan(s: Scan) { PrintableInterface(s.iface) && PrintablePeers(s.peers) }

  lemma LineStaysPrintable(s: Scan, raw: string)
    requires PrintableScan(s) && '\n' !in raw && ParseLine(s, raw).Ok?
    ensures PrintableScan(ParseLine(s, raw).value)
  {
    var s1, line := s.(line := s.line + 1), Trim(raw);
    TrimIsTrimmed(raw);
    LineParses(s, raw, line, ParseTrimmed(s1, line));
    TrimmedLineStaysPrintable(s1, line);
  }

  lemma TrimmedLineStaysPrintable(s: Scan, line: string)
    requires PrintableScan(s) && Trimmed(line) && '\n' !in line && ParseTrimmed(s, line).Ok?
    ensures PrintableScan(ParseTrimmed(s, line).value)
  {
    if IsSkipped(line) {
    } else if Lower(line) == "[interface]" {
    } else if Lower(line) == "[peer]" {
      EmptyPeerIsPrintable();
    } else {
      var eq := IndexOf(line, '=');
      KeyIsClean(line, eq);
      KeyLineStaysPrintable(s, Trim(line[..eq]), Trim(line[eq + 1..]));
    }
  }

  lemma EmptyPeerIsPrintable()
    ensures PrintablePeer(NO_PEER)
  {
  }

  lemma KeyLineStaysPrintable(s: Scan, key: string, value: string)
    requires PrintableScan(s) && CleanKey(key) && CleanValue(value) && KeyLine(s, key, value).Ok?
    ensures PrintableScan(KeyLine(s, key, value).value)
  {
    if s.section == InInterface {
      KeyStaysPrintable(s.iface, key, value);
    } else {
      PeerKeyStaysPrintable(s.peers[|s.peers| - 1], key, value, s.line);
    }
  }

  lemma {:induction false} LinesStayPrintable(s: Scan, lines: seq<string>)
    requires PrintableScan(s) && Free(lines, '\n') && ParseLines(s, lines).Ok?
    ensures PrintableScan(ParseLines(s, lines).value)
    decreases |lines|
  {
    if lines != [] {
      LineStaysPrintable(s, lines[0]);
      LinesStayPrintable(ParseLine(s, lines[0]).value, lines[1..]);
    }
  }

  lemma StartIsPrintable()
    ensures PrintableScan(START)
  {
    ZeroValues();
    SplitWithout("", NUL);
  }

  /** Every accepted text gives a printable configuration. */
  lemma ParsedIsPrintable(text: string)
    requires Parsed(text).Ok?
    ensures Printable(Parsed(text).value)
    ensures Parsed(text).value.protocol == ProtocolOf(Parsed(text).value.iface)
  {
    var lines := Split(WithoutBom(text), '\n');
    SplitParts(WithoutBom(text), '\n');
    StartIsPrintable();
    LinesStayPrintable(START, lines);
  }

  /** Parsing what was printed of a parsed text gives the parse of the text back
      exactly when the print fits and the text has no negative integer. */
  lemma ParsePrintParse(text: string, order: seq<string>, orders: seq<seq<string>>)
    requires Parsed(text).Ok?
    requires Enumerates(order, Parsed(text).value.iface.extra) && EnumerateAll(orders, Parsed(text).value.peers)
    ensures var c := Parsed(text).value;
            Parsed(Printed(c, order, orders)) == Parsed(text) <==>
            |Printed(c, order, orders)| <= MAX_CONFIG_SIZE && NoNegatives(c.iface)
  {
    ParsedIsPrintable(text);
    RoundTripsExactlyWhen(Parsed(text).value, order, orders);
  }

  function NegativeMtu(): seq<Entry> {
    [InterfaceHeader, Field(AsText(PrivateKey), "k"), Field(AsInt(MTU), "-1")]
  }

  lemma NegativeMtuReads() returns (s: Scan)
    ensures Effects(START, NegativeMtu()) == Some(s) && s.peers == []
    ensures s.iface.texts[PrivateKey] == "k" && s.iface.ints[MTU] == -1
  {
    AtoiOfItoa(-1);
    assert Itoa(-1) == "-1";
    OneEffect(START, InterfaceHeader);
    var s1 := Effect(START, InterfaceHeader).value;
    var s2 := LineReads(s1, AsText(PrivateKey), "k");
    s := LineReads(s2, AsInt(MTU), "-1");
    Chain(START, [InterfaceHeader], s1, [Field(AsText(PrivateKey), "k")], s2);
    Chain(START, [InterfaceHeader] + [Field(AsText(PrivateKey), "k")], s2, [Field(AsInt(MTU), "-1")], s);
    assert NegativeMtu() == [InterfaceHeader] + [Field(AsText(PrivateKey), "k")] + [Field(AsInt(MTU), "-1")];
    assert Get(s2.iface, AsText(PrivateKey)) == Get(s.iface, AsText(PrivateKey));
  }

  lemma NegativeMtuFits()
    ensures CleanEntries(NegativeMtu()) && |TextOf(NegativeMtu())| <= MAX_CONFIG_SIZE
  {
    var lines := RenderAll(NegativeMtu());
    assert |lines| == 3 && |lines[0]| + |lines[1]| + |lines[2]| < 100;
    assert |Unlines(lines[2..])| == |lines[2]| + 1 by { assert lines[2..][1..] == []; }
    assert lines[1..][1..] == lines[2..];
    assert |Unlines(lines[1..])| == |lines[1]| + 1 + |Unlines(lines[2..])|;
  }

  /** An accepted text whose print reads back as something else. */
  lemma NegativeIntegersAreLost() returns (text: string, c: Config)
    ensures Parsed(text) == Ok(c)
    ensures forall order, orders | Enumerates(order, c.iface.extra) && EnumerateAll(orders, c.peers) ::
              Parsed(Printed(c, order, orders)) != Ok(c)
  {
    var s := NegativeMtuReads();
    NegativeMtuFits();
    text := TextOf(NegativeMtu());
    ParseRendered(NegativeMtu(), s);
    c := Parsed(text).value;
    forall order, orders | Enumerates(order, c.iface.extra) && EnumerateAll(orders, c.peers)
      ensures Parsed(Printed(c, order, orders)) != Ok(c)
    {
      ParsePrintParse(text, order, orders);
    }
  }
}
