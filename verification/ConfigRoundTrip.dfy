/** Printing and parsing are inverse to each other, up to negative integers. */
module ConfigRoundTrip {
  import opened Wrappers
  import opened Text
  import opened WireGuardConfig
  import opened ConfigParser
  import opened ConfigPrinter

  // ---------------------------------------------------------------------
  // What can be printed and read back
  // ---------------------------------------------------------------------

  predicate CleanValue(v: string) { Trimmed(v) && NUL !in v && '\n' !in v }

  predicate CleanKey(k: string) {
    CleanValue(k) && '=' !in k && !HasPrefix(k, "#") && !HasPrefix(k, ";")
  }

  predicate CleanItem(v: string) { CleanValue(v) && v != "" && ',' !in v }

  predicate CleanItems(items: seq<string>) { forall i :: 0 <= i < |items| ==> CleanItem(items[i]) }

  /** Commands joined by NUL; the first is not empty unless it is the only one. */
  predicate CleanScript(s: string) {
    && (s != "" ==> s[0] != NUL)
    && forall i :: 0 <= i < |Split(s, NUL)| ==> CleanValue(Split(s, NUL)[i])
  }

  predicate CleanExtra(extra: map<string, string>) {
    forall k :: k in extra ==> CleanKey(k) && CleanValue(extra[k])
  }

  predicate PrintableInterface(i: Interface) {
    && (forall t :: t in i.texts ==> CleanValue(i.texts[t]))
    && (forall l :: l in i.lists ==> CleanItems(i.lists[l]))
    && (forall h :: h in i.scripts ==> CleanScript(i.scripts[h]))
    && CleanExtra(i.extra)
    && (forall k :: k in i.extra ==> KeyOf(Lower(k)) == None)
  }

  predicate PrintablePeer(p: Peer) {
    && CleanValue(p.publicKey) && CleanValue(p.presharedKey) && CleanValue(p.endpoint)
    && CleanItems(p.allowedIPs) && |p.allowedIPs| <= MAX_ALLOWED_IPS
    && (p.keepalive.Some? ==> p.keepalive.value >= 0)
    && CleanExtra(p.extra)
    && (forall k :: k in p.extra ==> PeerKeyOf(Lower(k)) == None)
  }

  predicate Printable(c: Config) {
    && PrintableInterface(c.iface) && c.iface.texts[PrivateKey] != ""
    && forall i :: 0 <= i < |c.peers| ==> PrintablePeer(c.peers[i])
  }

  // ---------------------------------------------------------------------
  // One key = value line
  // ---------------------------------------------------------------------

  function Advance(s: Scan, lines: nat): Scan { s.(line := s.line + lines) }

  lemma CoreIsNoHeader(key: string, value: string)
    requires CleanKey(key) && CleanValue(value)
    ensures var line := Core(key, value);
            NUL !in line && !IsSkipped(line) && Lower(line) != "[interface]" && Lower(line) != "[peer]"
  {
    var line, a := Core(key, value), Left(key);
    assert line[0] == if key == "" then '=' else key[0];
    assert Lower(line)[|a|] == '=';
    assert '=' !in "[interface]" && '=' !in "[peer]";
  }

  lemma KeyLineParses(s: Scan, line: string, key: string, value: string)
    requires NUL !in line && !IsSkipped(line) && Lower(line) != "[interface]" && Lower(line) != "[peer]"
    requires var eq := IndexOf(line, '=');
             eq < |line| && Trim(line[..eq]) == key && Trim(line[eq + 1..]) == value
    ensures ParseTrimmed(s, line) == KeyLine(s, key, value)
  {
  }

  lemma CoreIsKeyLine(s: Scan, key: string, value: string)
    requires CleanKey(key) && CleanValue(value)
    ensures ParseTrimmed(s, Core(key, value)) == KeyLine(s, key, value)
  {
    CoreParts(key, value);
    CoreIsNoHeader(key, value);
    KeyLineParses(s, Core(key, value), key, value);
  }

  lemma LineIsKeyLine(s: Scan, key: string, value: string)
    requires CleanKey(key) && CleanValue(value)
    ensures ParseLine(s, Assignment(key, value)) == KeyLine(s.(line := s.line + 1), key, value)
  {
    var s1 := s.(line := s.line + 1);
    TrimmedAssignment(key, value);
    CoreIsKeyLine(s1, key, value);
    LineParses(s, Assignment(key, value), Core(key, value), KeyLine(s1, key, value));
  }

  lemma LineParses(s: Scan, raw: string, line: string, r: Result<Scan, ParseError>)
    requires Trim(raw) == line && ParseTrimmed(s.(line := s.line + 1), line) == r
    ensures ParseLine(s, raw) == r
  {
  }

  lemma {:induction false} ParseAppend(s: Scan, a: seq<string>, b: seq<string>)
    ensures ParseLines(s, a + b) ==
            match ParseLines(s, a) case Err(e) => Err(e) case Ok(s') => ParseLines(s', b)
    decreases |a|
  {
    if a == [] {
      assert a + b == b;
    } else {
      assert (a + b)[1..] == a[1..] + b;
      match ParseLine(s, a[0])
      case Err(e) =>
      case Ok(s') => ParseAppend(s', a[1..], b);
    }
  }

  // ---------------------------------------------------------------------
  // Lists, scripts
  // ---------------------------------------------------------------------

  lemma {:induction false} JoinIsClean(items: seq<string>)
    requires CleanItems(items) && items != []
    ensures CleanValue(Join(items, ", ")) && Join(items, ", ") != ""
    ensures Join(items, ", ")[0] == items[0][0]
  {
    assert CleanItem(items[0]);
    if |items| > 1 {
      JoinIsClean(items[1..]);
    }
  }

  lemma {:induction false} SpacedItems(items: seq<string>)
    requires CleanItems(items) && items != []
    ensures Items(Join(items, ", ")) == items
    ensures Items(" " + Join(items, ", ")) == items
  {
    var first, joined := items[0], Join(items, ", ");
    assert CleanItem(first);
    TrimSpaces(first);
    TrimmedStays(first);
    if |items| == 1 {
      SplitWithout(first, ',');
      SplitWithout(" " + first, ',');
      assert items == [first];
      assert NonEmpty([first]) == [first] + NonEmpty([first][1..]);
      assert NonEmpty([" " + first]) == [first] + NonEmpty([" " + first][1..]);
    } else {
      var rest := " " + Join(items[1..], ", ");
      assert joined == first + [','] + rest;
      SplitStep(first, ',', rest);
      assert " " + joined == (" " + first) + [','] + rest;
      SplitStep(" " + first, ',', rest);
      SpacedItems(items[1..]);
      assert Split(joined, ',')[1..] == Split(rest, ',') == Split(" " + joined, ',')[1..];
    }
  }

  function AppendAll(existing: string, parts: seq<string>): string
    decreases |parts|
  {
    if parts == [] then existing else AppendAll(AppendScript(existing, parts[0]), parts[1..])
  }

  lemma {:induction false} AppendAllJoins(existing: string, parts: seq<string>)
    requires existing != ""
    ensures AppendAll(existing, parts) == Join([existing] + parts, [NUL])
    decreases |parts|
  {
    if parts != [] {
      var next := existing + [NUL] + parts[0];
      AppendAllJoins(next, parts[1..]);
      assert ([existing] + parts)[1..] == parts;
      assert ([next] + parts[1..])[1..] == parts[1..];
    }
  }

  /** Appending the commands of a script one by one gives the script. */
  lemma AppendAllOfSplit(script: string)
    requires script != "" && script[0] != NUL
    ensures AppendAll("", Split(script, NUL)) == script
  {
    var parts := Split(script, NUL);
    JoinOfSplit(script, NUL);
    SplitStart(script);
    AppendAllJoins(parts[0], parts[1..]);
    assert [parts[0]] + parts[1..] == parts;
  }

  lemma SplitStart(script: string)
    requires script != "" && script[0] != NUL
    ensures Split(script, NUL)[0] != ""
  {
  }

  // ---------------------------------------------------------------------
  // Entries instead of lines
  // ---------------------------------------------------------------------

  /** What an entry does to the scan, if it is in its place. */
  function Effect(s: Scan, e: Entry): Option<Scan> {
    var s1 := Advance(s, 1);
    match e
    case Blank => Some(s1)
    case InterfaceHeader => Some(s1.(section := InInterface))
    case PeerHeader => Some(s1.(section := InPeer, peers := s.peers + [NO_PEER]))
    case Field(k, value) =>
      (if s.section != InInterface then None
       else match WithField(s.iface, k, value) case None => None case Some(i) => Some(s1.(iface := i)))
    case InterfaceExtra(key, value) =>
      if s.section != InInterface then None
      else Some(s1.(iface := s.iface.(extra := s.iface.extra[key := value])))
    case PeerField(k, value) =>
      (if s.section != InPeer || s.peers == [] then None
       else match WithPeerField(s.peers[|s.peers| - 1], k, value, "", 0)
            case Err(_) => None case Ok(p) => Some(s1.(peers := s.peers[|s.peers| - 1 := p])))
    case PeerExtra(key, value) =>
      if s.section != InPeer || s.peers == [] then None
      else
        var p := s.peers[|s.peers| - 1];
        Some(s1.(peers := s.peers[|s.peers| - 1 := p.(extra := p.extra[key := value])]))
  }

  function Effects(s: Scan, es: seq<Entry>): Option<Scan>
    decreases |es|
  {
    if es == [] then Some(s)
    else match Effect(s, es[0]) case None => None case Some(s') => Effects(s', es[1..])
  }

  lemma {:induction false} EffectsAppend(s: Scan, a: seq<Entry>, b: seq<Entry>)
    ensures Effects(s, a + b) == match Effects(s, a) case None => None case Some(s') => Effects(s', b)
    decreases |a|
  {
    if a == [] {
      assert a + b == b;
    } else {
      assert (a + b)[1..] == a[1..] + b;
      match Effect(s, a[0])
      case None =>
      case Some(s') => EffectsAppend(s', a[1..], b);
    }
  }

  lemma Chain(s: Scan, a: seq<Entry>, s1: Scan, b: seq<Entry>, s2: Scan)
    requires Effects(s, a) == Some(s1) && Effects(s1, b) == Some(s2)
    ensures Effects(s, a + b) == Some(s2)
  {
    EffectsAppend(s, a, b);
  }

  lemma Chain3(s: Scan, a: seq<Entry>, s1: Scan, b: seq<Entry>, s2: Scan, c: seq<Entry>, s3: Scan)
    requires Effects(s, a) == Some(s1) && Effects(s1, b) == Some(s2) && Effects(s2, c) == Some(s3)
    ensures Effects(s, a + b + c) == Some(s3)
  {
    Chain(s, a, s1, b, s2);
    Chain(s, a + b, s2, c, s3);
  }

  lemma OneEffect(s: Scan, e: Entry)
    ensures Effects(s, [e]) == Effect(s, e)
  {
    assert [e][1..] == [];
  }

  predicate CleanEntry(e: Entry) {
    match e
    case Blank => true
    case InterfaceHeader => true
    case PeerHeader => true
    case Field(_, value) => CleanValue(value)
    case InterfaceExtra(key, value) => CleanKey(key) && CleanValue(value) && KeyOf(Lower(key)) == None
    case PeerField(_, value) => CleanValue(value)
    case PeerExtra(key, value) => CleanKey(key) && CleanValue(value) && PeerKeyOf(Lower(key)) == None
  }

  predicate CleanEntries(es: seq<Entry>) { forall i :: 0 <= i < |es| ==> CleanEntry(es[i]) }

  lemma PlainIsClean(key: string)
    requires Plain(key)
    ensures CleanKey(key)
  {
  }

  lemma FieldNames(k: InterfaceKey)
    ensures Plain(Name(k)) && KeyOf(Lower(Name(k))) == Some(k)
  {
    match k
    case AsText(t) => TextNames(t);
    case AsInt(n) => IntNames(n);
    case AsList(l) => ListNames(l);
    case AsScript(h) => HookNames(h);
  }

  lemma FieldParses(s: Scan, k: InterfaceKey, key: string, value: string)
    requires s.section == InInterface && CleanValue(value) && Plain(key) && KeyOf(Lower(key)) == Some(k)
    requires WithField(s.iface, k, value).Some?
    ensures ParseLine(s, Assignment(key, value)) == Ok(Advance(s, 1).(iface := WithField(s.iface, k, value).value))
  {
    PlainIsClean(key);
    LineIsKeyLine(s, key, value);
  }

  /** The key and the line number matter to the errors only. */
  lemma SamePeerField(p: Peer, k: PeerKey, value: string, key: string, line: nat)
    requires WithPeerField(p, k, value, "", 0).Ok?
    ensures WithPeerField(p, k, value, key, line) == WithPeerField(p, k, value, "", 0)
  {
  }

  lemma PeerFieldParses(s: Scan, k: PeerKey, key: string, value: string)
    requires s.section == InPeer && s.peers != [] && CleanValue(value) && Plain(key) && PeerKeyOf(Lower(key)) == Some(k)
    requires WithPeerField(s.peers[|s.peers| - 1], k, value, "", 0).Ok?
    ensures var p := WithPeerField(s.peers[|s.peers| - 1], k, value, "", 0).value;
            ParseLine(s, Assignment(key, value)) == Ok(Advance(s, 1).(peers := s.peers[|s.peers| - 1 := p]))
  {
    PlainIsClean(key);
    LineIsKeyLine(s, key, value);
    SamePeerField(s.peers[|s.peers| - 1], k, value, key, s.line + 1);
  }

  lemma HeadersParse(s: Scan)
    ensures ParseLine(s, "") == Ok(Advance(s, 1))
    ensures ParseLine(s, "[Interface]") == Ok(Advance(s, 1).(section := InInterface))
    ensures ParseLine(s, "[Peer]") == Ok(Advance(s, 1).(section := InPeer, peers := s.peers + [NO_PEER]))
  {
    TrimmedStays("");
    TrimmedStays("[Interface]");
    TrimmedStays("[Peer]");
    assert Lower("[Interface]") == "[interface]" && Lower("[Peer]") == "[peer]";
  }

  /** The parser does to a clean line what its entry does. */
  lemma EntryParses(s: Scan, e: Entry)
    requires CleanEntry(e) && Effect(s, e).Some?
    ensures ParseLine(s, Render(e)) == Ok(Effect(s, e).value)
  {
    match e
    case Blank => HeadersParse(s);
    case InterfaceHeader => HeadersParse(s);
    case PeerHeader => HeadersParse(s);
    case Field(k, value) =>
      FieldNames(k);
      FieldParses(s, k, Name(k), value);
    case InterfaceExtra(key, value) => InterfaceExtraParses(s, key, value);
    case PeerField(k, value) =>
      PeerNames(k);
      PeerFieldParses(s, k, PeerName(k), value);
    case PeerExtra(key, value) => PeerExtraParses(s, key, value);
  }

  lemma InterfaceExtraParses(s: Scan, key: string, value: string)
    requires s.section == InInterface && CleanKey(key) && CleanValue(value) && KeyOf(Lower(key)) == None
    ensures ParseLine(s, Assignment(key, value)) ==
            Ok(Advance(s, 1).(iface := s.iface.(extra := s.iface.extra[key := value])))
  {
    LineIsKeyLine(s, key, value);
  }

  lemma PeerExtraParses(s: Scan, key: string, value: string)
    requires s.section == InPeer && s.peers != [] && CleanKey(key) && CleanValue(value) && PeerKeyOf(Lower(key)) == None
    ensures var p := s.peers[|s.peers| - 1];
            ParseLine(s, Assignment(key, value)) ==
            Ok(Advance(s, 1).(peers := s.peers[|s.peers| - 1 := p.(extra := p.extra[key := value])]))
  {
    LineIsKeyLine(s, key, value);
  }

  lemma {:induction false} EntriesParse(s: Scan, es: seq<Entry>)
    requires CleanEntries(es) && Effects(s, es).Some?
    ensures ParseLines(s, RenderAll(es)) == Ok(Effects(s, es).value)
    decreases |es|
  {
    if es != [] {
      EntryParses(s, es[0]);
      EntriesParse(Effect(s, es[0]).value, es[1..]);
      assert RenderAll(es)[1..] == RenderAll(es[1..]);
    }
  }

  // ---------------------------------------------------------------------
  // The [Interface] section
  // ---------------------------------------------------------------------

  /** The position of a field in the printed [Interface] section. */
  function Position(k: InterfaceKey): nat {
    match k
    case AsText(t) =>
      (match t case PrivateKey => 0 case Table => 5 case FwMark => 6
               case H1 => 18 case H2 => 19 case H3 => 20 case H4 => 21)
    case AsList(l) => (match l case Address => 1 case DNS => 2)
    case AsScript(h) => (match h case PreUp => 7 case PostUp => 8 case PreDown => 9 case PostDown => 10)
    case AsInt(n) =>
      (match n case MTU => 3 case ListenPort => 4 case Jc => 11 case Jmin => 12 case Jmax => 13
               case S1 => 14 case S2 => 15 case S3 => 16 case S4 => 17)
  }

  /** Each field is printed in one position. */
  lemma FieldAtPosition(k: InterfaceKey, n: nat)
    requires n < FIELD_COUNT
    ensures FieldAt(n) == k <==> Position(k) == n
    ensures Position(k) < FIELD_COUNT
  {
  }

  function First(n: nat): seq<InterfaceKey>
    requires n <= FIELD_COUNT
  {
    seq(n, m requires 0 <= m < n => FieldAt(m))
  }

  lemma FieldsEnumerateKeys()
    ensures Distinct(First(FIELD_COUNT)) && forall k :: k in First(FIELD_COUNT)
  {
    var ks := First(FIELD_COUNT);
    forall m, n | 0 <= m < n < |ks|
      ensures ks[m] != ks[n]
    {
      FieldAtPosition(ks[m], m);
      FieldAtPosition(ks[m], n);
    }
    forall k
      ensures k in ks
    {
      FieldAtPosition(k, 0);
      FieldAtPosition(k, Position(k));
      assert ks[Position(k)] == k;
    }
  }

  /** The entries of the listed fields. */
  function ListedEntries(i: Interface, ks: seq<InterfaceKey>): seq<Entry> {
    if ks == [] then [] else ListedEntries(i, ks[..|ks| - 1]) + FieldEntries(i, ks[|ks| - 1])
  }

  lemma {:induction false} FieldsAreListed(i: Interface, n: nat)
    requires n <= FIELD_COUNT
    ensures FieldsEntries(i, n) == ListedEntries(i, First(n))
  {
    if n > 0 {
      FieldsAreListed(i, n - 1);
      assert First(n)[..n - 1] == First(n - 1);
    }
  }

  /** What is printed of the integers: a negative one is left out. */
  function Clamp(ints: Ints): Ints {
    map n | n in ints :: if ints[n] > 0 then ints[n] else 0
  }

  function Clamped(i: Interface): Interface { i.(ints := Clamp(i.ints)) }

  datatype Value = Text(text: string) | Number(n: int) | List(items: seq<string>) | Script(text: string)

  function Get(i: Interface, k: InterfaceKey): Value {
    match k
    case AsText(t) => Text(i.texts[t])
    case AsInt(n) => Number(i.ints[n])
    case AsList(l) => List(i.lists[l])
    case AsScript(h) => Script(i.scripts[h])
  }

  function ZeroOf(k: InterfaceKey): Value {
    match k case AsText(_) => Text("") case AsInt(_) => Number(0) case AsList(_) => List([]) case AsScript(_) => Script("")
  }

  /** `i` and `j` differ in field `k` at most. */
  ghost predicate OnlyField(i: Interface, j: Interface, k: InterfaceKey) {
    i.extra == j.extra && forall k' :: k' != k ==> Get(j, k') == Get(i, k')
  }

  lemma SettingAField(i: Interface, k: InterfaceKey, value: string)
    requires WithField(i, k, value).Some?
    ensures OnlyField(i, WithField(i, k, value).value, k)
  {
  }

  /** Commands are appended one by one. */
  lemma {:induction false} ScriptReads(s: Scan, h: Hook, parts: seq<string>) returns (s': Scan)
    requires s.section == InInterface
    ensures Effects(s, ScriptEntries(h, parts)) == Some(s')
    ensures s'.section == InInterface && s'.peers == s.peers
    ensures s'.iface == s.iface.(scripts := s.iface.scripts[h := AppendAll(s.iface.scripts[h], parts)])
    decreases |parts|
  {
    if parts == [] {
      s' := s;
      assert s.iface.scripts == s.iface.scripts[h := s.iface.scripts[h]];
    } else {
      var es := ScriptEntries(h, parts);
      var s1 := Effect(s, es[0]).value;
      s' := ScriptReads(s1, h, parts[1..]);
      assert es[1..] == ScriptEntries(h, parts[1..]);
    }
  }

  /** Reading one line sets its field, and nothing else. */
  lemma LineReads(s: Scan, k: InterfaceKey, value: string) returns (s': Scan)
    requires s.section == InInterface && WithField(s.iface, k, value).Some?
    ensures Effects(s, [Field(k, value)]) == Some(s')
    ensures s'.section == InInterface && s'.peers == s.peers
    ensures s'.iface == WithField(s.iface, k, value).value && OnlyField(s.iface, s'.iface, k)
  {
    OneEffect(s, Field(k, value));
    SettingAField(s.iface, k, value);
    s' := Effect(s, Field(k, value)).value;
  }

  lemma TextReads(s: Scan, i: Interface, t: TextKey) returns (s': Scan)
    requires s.section == InInterface && s.iface.texts[t] == ""
    ensures Effects(s, FieldEntries(i, AsText(t))) == Some(s')
    ensures s'.section == InInterface && s'.peers == s.peers
    ensures s'.iface.texts[t] == i.texts[t] && OnlyField(s.iface, s'.iface, AsText(t))
  {
    s' := s;
    if FieldEntries(i, AsText(t)) != [] {
      s' := LineReads(s, AsText(t), i.texts[t]);
    }
  }

  lemma IntReads(s: Scan, i: Interface, n: IntKey) returns (s': Scan)
    requires s.section == InInterface && s.iface.ints[n] == 0
    ensures Effects(s, FieldEntries(i, AsInt(n))) == Some(s')
    ensures s'.section == InInterface && s'.peers == s.peers
    ensures s'.iface.ints[n] == Clamp(i.ints)[n] && OnlyField(s.iface, s'.iface, AsInt(n))
  {
    s' := s;
    if FieldEntries(i, AsInt(n)) != [] {
      AtoiOfItoa(i.ints[n]);
      s' := LineReads(s, AsInt(n), Itoa(i.ints[n]));
    }
  }

  lemma ListReads(s: Scan, i: Interface, l: ListKey) returns (s': Scan)
    requires s.section == InInterface && s.iface.lists[l] == [] && CleanItems(i.lists[l])
    ensures Effects(s, FieldEntries(i, AsList(l))) == Some(s')
    ensures s'.section == InInterface && s'.peers == s.peers
    ensures s'.iface.lists[l] == i.lists[l] && OnlyField(s.iface, s'.iface, AsList(l))
  {
    s' := s;
    if FieldEntries(i, AsList(l)) != [] {
      SpacedItems(i.lists[l]);
      s' := LineReads(s, AsList(l), Join(i.lists[l], ", "));
    }
  }

  lemma HookReads(s: Scan, i: Interface, h: Hook) returns (s': Scan)
    requires s.section == InInterface && s.iface.scripts[h] == "" && CleanScript(i.scripts[h])
    ensures Effects(s, FieldEntries(i, AsScript(h))) == Some(s')
    ensures s'.section == InInterface && s'.peers == s.peers
    ensures s'.iface.scripts[h] == i.scripts[h] && OnlyField(s.iface, s'.iface, AsScript(h))
  {
    s' := s;
    if i.scripts[h] != "" {
      s' := ScriptReads(s, h, Split(i.scripts[h], NUL));
      AppendAllOfSplit(i.scripts[h]);
    }
  }

  /** The entries of a field set it to its printed value, and nothing else. */
  lemma FieldReads(s: Scan, i: Interface, k: InterfaceKey) returns (s': Scan)
    requires s.section == InInterface && Get(s.iface, k) == ZeroOf(k) && PrintableInterface(i)
    ensures Effects(s, FieldEntries(i, k)) == Some(s')
    ensures s'.section == InInterface && s'.peers == s.peers
    ensures Get(s'.iface, k) == Get(Clamped(i), k) && OnlyField(s.iface, s'.iface, k)
  {
    match k
    case AsText(t) => s' := TextReads(s, i, t);
    case AsInt(n) => s' := IntReads(s, i, n);
    case AsList(l) => s' := ListReads(s, i, l);
    case AsScript(h) => s' := HookReads(s, i, h);
  }

  /** The fields in `done` are read, the others still unset. */
  predicate ReadAt(i: Interface, want: Interface, done: iset<InterfaceKey>, k: InterfaceKey) {
    Get(i, k) == if k in done then Get(want, k) else ZeroOf(k)
  }

  ghost predicate ReadUpTo(i: Interface, want: Interface, done: iset<InterfaceKey>) {
    i.extra == map[] && forall k :: ReadAt(i, want, done, k)
  }

  lemma ReadMore(i: Interface, j: Interface, want: Interface, done: iset<InterfaceKey>, k: InterfaceKey)
    requires ReadUpTo(i, want, done)
    requires Get(j, k) == Get(want, k) && OnlyField(i, j, k)
    ensures ReadUpTo(j, want, done + iset{k})
  {
    forall k'
      ensures ReadAt(j, want, done + iset{k}, k')
    {
      assert ReadAt(i, want, done, k');
    }
  }

  lemma NothingRead(want: Interface)
    ensures ReadUpTo(NO_INTERFACE, want, iset{})
  {
    ZeroValues();
  }

  ghost predicate Distinct(ks: seq<InterfaceKey>) { forall m, n :: 0 <= m < n < |ks| ==> ks[m] != ks[n] }

  ghost function Elements(ks: seq<InterfaceKey>): iset<InterfaceKey> { iset k | k in ks }

  lemma {:induction false} FieldsRead(s: Scan, i: Interface, ks: seq<InterfaceKey>) returns (s': Scan)
    requires s.section == InInterface && PrintableInterface(i) && Distinct(ks)
    requires ReadUpTo(s.iface, Clamped(i), iset{})
    ensures Effects(s, ListedEntries(i, ks)) == Some(s')
    ensures s'.section == InInterface && s'.peers == s.peers && ReadUpTo(s'.iface, Clamped(i), Elements(ks))
    decreases |ks|
  {
    if ks == [] {
      s' := s;
      assert Elements(ks) == iset{};
    } else {
      var rest, k := ks[..|ks| - 1], ks[|ks| - 1];
      var s1 := FieldsRead(s, i, rest);
      ElementsMore(rest, k);
      assert rest + [k] == ks;
      s' := NextFieldReads(s1, i, Elements(rest), k);
      EffectsAppend(s, ListedEntries(i, rest), FieldEntries(i, k));
    }
  }

  lemma ElementsMore(ks: seq<InterfaceKey>, k: InterfaceKey)
    ensures Elements(ks + [k]) == Elements(ks) + iset{k}
  {
  }

  lemma NextFieldReads(s: Scan, i: Interface, done: iset<InterfaceKey>, k: InterfaceKey) returns (s': Scan)
    requires s.section == InInterface && PrintableInterface(i) && k !in done
    requires ReadUpTo(s.iface, Clamped(i), done)
    ensures Effects(s, FieldEntries(i, k)) == Some(s')
    ensures s'.section == InInterface && s'.peers == s.peers && ReadUpTo(s'.iface, Clamped(i), done + iset{k})
  {
    assert ReadAt(s.iface, Clamped(i), done, k);
    s' := FieldReads(s, i, k);
    ReadMore(s.iface, s'.iface, Clamped(i), done, k);
  }

  lemma AllFieldsRead(s: Scan, i: Interface) returns (s': Scan)
    requires s.section == InInterface && PrintableInterface(i) && s.iface == NO_INTERFACE
    ensures Effects(s, FieldsEntries(i, FIELD_COUNT)) == Some(s')
    ensures s'.section == InInterface && s'.peers == s.peers && s'.iface == Clamped(i).(extra := map[])
  {
    NothingRead(Clamped(i));
    FieldsEnumerateKeys();
    FieldsAreListed(i, FIELD_COUNT);
    s' := ListedFieldsRead(s, i, First(FIELD_COUNT));
  }

  lemma ListedFieldsRead(s: Scan, i: Interface, ks: seq<InterfaceKey>) returns (s': Scan)
    requires s.section == InInterface && PrintableInterface(i) && ReadUpTo(s.iface, Clamped(i), iset{})
    requires Distinct(ks) && forall k :: k in ks
    ensures Effects(s, ListedEntries(i, ks)) == Some(s')
    ensures s'.section == InInterface && s'.peers == s.peers && s'.iface == Clamped(i).(extra := map[])
  {
    s' := FieldsRead(s, i, ks);
    EverythingRead(s'.iface, Clamped(i), Elements(ks));
  }

  lemma EverythingRead(i: Interface, want: Interface, done: iset<InterfaceKey>)
    requires ReadUpTo(i, want, done) && forall k :: k in done
    ensures i == want.(extra := map[])
  {
    forall k
      ensures Get(i, k) == Get(want, k)
    {
      assert ReadAt(i, want, done, k);
    }
    SameFields(i, want);
  }

  lemma SameFields(i: Interface, j: Interface)
    requires forall k :: Get(i, k) == Get(j, k)
    ensures i.(extra := j.extra) == j
  {
    forall t: TextKey ensures i.texts[t] == j.texts[t] { assert Get(i, AsText(t)) == Get(j, AsText(t)); }
    forall n: IntKey ensures i.ints[n] == j.ints[n] { assert Get(i, AsInt(n)) == Get(j, AsInt(n)); }
    forall l: ListKey ensures i.lists[l] == j.lists[l] { assert Get(i, AsList(l)) == Get(j, AsList(l)); }
    forall h: Hook ensures i.scripts[h] == j.scripts[h] { assert Get(i, AsScript(h)) == Get(j, AsScript(h)); }
    assert i.texts == j.texts && i.ints == j.ints && i.lists == j.lists && i.scripts == j.scripts;
  }

  function Restrict(extra: map<string, string>, order: seq<string>): map<string, string> {
    map k | k in order && k in extra :: extra[k]
  }

  lemma RestrictMore(extra: map<string, string>, order: seq<string>)
    requires order != [] && order[|order| - 1] in extra
    ensures var last := order[|order| - 1];
            Restrict(extra, order) == Restrict(extra, order[..|order| - 1])[last := extra[last]]
  {
    var last := order[|order| - 1];
    assert order == order[..|order| - 1] + [last];
  }

  lemma {:induction false} InterfaceExtrasRead(s: Scan, extra: map<string, string>, order: seq<string>) returns (s': Scan)
    requires s.section == InInterface && s.iface.extra == map[] && forall k :: k in order ==> k in extra
    ensures Effects(s, ExtraEntries(false, extra, order)) == Some(s')
    ensures s'.section == InInterface && s'.peers == s.peers
    ensures s'.iface == s.iface.(extra := Restrict(extra, order))
    decreases |order|
  {
    if order == [] {
      s' := s;
    } else {
      var rest, last := order[..|order| - 1], order[|order| - 1];
      var s1 := InterfaceExtrasRead(s, extra, rest);
      var e := ExtraEntry(false, last, extra[last]);
      OneEffect(s1, e);
      EffectsAppend(s, ExtraEntries(false, extra, rest), [e]);
      RestrictMore(extra, order);
      s' := Effect(s1, e).value;
    }
  }

  /** Reading a printed [Interface] section. */
  lemma InterfaceReads(s: Scan, i: Interface, order: seq<string>) returns (s': Scan)
    requires s.iface == NO_INTERFACE && PrintableInterface(i) && Enumerates(order, i.extra)
    ensures Effects(s, InterfaceEntries(i, order)) == Some(s')
    ensures s'.section == InInterface && s'.peers == s.peers && s'.iface == Clamped(i)
  {
    OneEffect(s, InterfaceHeader);
    var s1 := Effect(s, InterfaceHeader).value;
    var s2 := AllFieldsRead(s1, i);
    s' := InterfaceExtrasRead(s2, i.extra, order);
    Chain3(s, [InterfaceHeader], s1, FieldsEntries(i, FIELD_COUNT), s2, ExtraEntries(false, i.extra, order), s');
    RestrictAll(i.extra, order);
  }

  lemma RestrictAll(extra: map<string, string>, order: seq<string>)
    requires Enumerates(order, extra)
    ensures Restrict(extra, order) == extra
  {
  }

  // ---------------------------------------------------------------------
  // The [Peer] sections
  // ---------------------------------------------------------------------

  /** The scan is in a [Peer] section: `p` so far, after the peers of `s`. */
  ghost predicate AtPeer(s: Scan, p: Peer, s': Scan) {
    s'.section == InPeer && s'.iface == s.iface && s'.peers == s.peers + [p]
  }

  /** Reading one line of a peer. */
  lemma PeerLineReads(s: Scan, p: Peer, at: Scan, e: Entry, p': Peer) returns (s': Scan)
    requires AtPeer(s, p, at)
    requires match e
             case PeerField(k, value) => WithPeerField(p, k, value, "", 0) == Ok(p')
             case PeerExtra(key, value) => p' == p.(extra := p.extra[key := value])
             case _ => false
    ensures Effects(at, [e]) == Some(s') && AtPeer(s, p', s')
  {
    OneEffect(at, e);
    s' := Effect(at, e).value;
    assert at.peers[|at.peers| - 1] == p;
    assert (s.peers + [p])[|s.peers| := p'] == s.peers + [p'];
  }

  lemma OptionalReads(s: Scan, p: Peer, at: Scan, k: PeerKey, value: string, p': Peer) returns (s': Scan)
    requires AtPeer(s, p, at)
    requires if value == "" then p' == p else WithPeerField(p, k, value, "", 0) == Ok(p')
    ensures Effects(at, OptionalEntry(k, value)) == Some(s') && AtPeer(s, p', s')
  {
    s' := at;
    if value != "" {
      s' := PeerLineReads(s, p, at, PeerField(k, value), p');
    }
  }

  lemma PeerTextsRead(s: Scan, p: Peer, at: Scan) returns (s': Scan)
    requires AtPeer(s, NO_PEER, at)
    ensures Effects(at, PeerTexts(p)) == Some(s')
    ensures AtPeer(s, NO_PEER.(publicKey := p.publicKey, presharedKey := p.presharedKey, endpoint := p.endpoint), s')
  {
    var p1 := NO_PEER.(publicKey := p.publicKey);
    var p2 := p1.(presharedKey := p.presharedKey);
    var s1 := PeerLineReads(s, NO_PEER, at, PeerField(PublicKey, p.publicKey), p1);
    var s2 := OptionalReads(s, p1, s1, PresharedKey, p.presharedKey, p2);
    s' := OptionalReads(s, p2, s2, Endpoint, p.endpoint, p2.(endpoint := p.endpoint));
    EffectsAppend(at, [PeerField(PublicKey, p.publicKey)], OptionalEntry(PresharedKey, p.presharedKey));
    EffectsAppend(at, [PeerField(PublicKey, p.publicKey)] + OptionalEntry(PresharedKey, p.presharedKey),
                  OptionalEntry(Endpoint, p.endpoint));
  }

  lemma AllowedRead(s: Scan, p: Peer, items: seq<string>, at: Scan) returns (s': Scan)
    requires AtPeer(s, p, at) && p.allowedIPs == [] && CleanItems(items) && |items| <= MAX_ALLOWED_IPS
    ensures Effects(at, AllowedEntries(p.(allowedIPs := items))) == Some(s') && AtPeer(s, p.(allowedIPs := items), s')
  {
    s' := at;
    if items != [] {
      SpacedItems(items);
      assert [] + items == items;
      s' := PeerLineReads(s, p, at, PeerField(AllowedIPs, Join(items, ", ")), p.(allowedIPs := items));
    }
  }

  /** A printed number has no unit. */
  lemma KeepaliveOfItoa(n: Int64)
    requires n >= 0
    ensures Keepalive(Itoa(n)) == Some(n)
  {
    ItoaIsClean(n);
    TrimmedStays(Itoa(n));
    NoUnit(Itoa(n), UNITS);
    AtoiOfItoa(n);
  }

  lemma {:induction false} NoUnit(s: string, units: seq<string>)
    requires AllDigits(s)
    requires forall i :: 0 <= i < |units| ==> units[i] != "" && !IsDigit(units[i][|units[i]| - 1])
    ensures WithoutUnit(s, units) == s
    decreases |units|
  {
    if units != [] {
      NoSuffix(s, units[0]);
      NoUnit(s, units[1..]);
    }
  }

  lemma NoSuffix(s: string, suffix: string)
    requires AllDigits(s) && suffix != "" && !IsDigit(suffix[|suffix| - 1])
    ensures !HasSuffix(s, suffix)
  {
    if |suffix| <= |s| {
      assert s[|s| - |suffix|..][|suffix| - 1] == s[|s| - 1];
    }
  }

  lemma KeepaliveReads(s: Scan, p: Peer, keepalive: Option<Int64>, at: Scan) returns (s': Scan)
    requires AtPeer(s, p, at) && p.keepalive == None && (keepalive.Some? ==> keepalive.value >= 0)
    ensures Effects(at, KeepaliveEntries(p.(keepalive := keepalive))) == Some(s')
    ensures AtPeer(s, p.(keepalive := keepalive), s')
  {
    s' := at;
    if keepalive.Some? {
      var text := Itoa(keepalive.value);
      KeepaliveOfItoa(keepalive.value);
      s' := PeerLineReads(s, p, at, PeerField(PersistentKeepalive, text), p.(keepalive := keepalive));
    }
  }

  lemma {:induction false} PeerExtrasRead(s: Scan, p: Peer, extra: map<string, string>, order: seq<string>, at: Scan)
    returns (s': Scan)
    requires AtPeer(s, p, at) && p.extra == map[] && forall k :: k in order ==> k in extra
    ensures Effects(at, ExtraEntries(true, extra, order)) == Some(s')
    ensures AtPeer(s, p.(extra := Restrict(extra, order)), s')
    decreases |order|
  {
    if order == [] {
      s' := at;
    } else {
      var rest, last := order[..|order| - 1], order[|order| - 1];
      var s1 := PeerExtrasRead(s, p, extra, rest, at);
      var e := ExtraEntry(true, last, extra[last]);
      RestrictMore(extra, order);
      s' := PeerLineReads(s, p.(extra := Restrict(extra, rest)), s1, e, p.(extra := Restrict(extra, order)));
      EffectsAppend(at, ExtraEntries(true, extra, rest), [e]);
    }
  }

  lemma PeerStarts(s: Scan) returns (s': Scan)
    ensures Effects(s, [Blank, PeerHeader]) == Some(s') && AtPeer(s, NO_PEER, s')
  {
    assert [Blank, PeerHeader] == [Blank] + [PeerHeader];
    EffectsAppend(s, [Blank], [PeerHeader]);
    OneEffect(s, Blank);
    s' := Effect(Effect(s, Blank).value, PeerHeader).value;
    OneEffect(Effect(s, Blank).value, PeerHeader);
  }

  /** Reading a printed [Peer] section. */
  lemma PeerReads(s: Scan, p: Peer, order: seq<string>) returns (s': Scan)
    requires PrintablePeer(p) && Enumerates(order, p.extra)
    ensures Effects(s, PeerEntries(p, order)) == Some(s') && AtPeer(s, p, s')
  {
    var p1 := NO_PEER.(publicKey := p.publicKey, presharedKey := p.presharedKey, endpoint := p.endpoint);
    var p2 := p1.(allowedIPs := p.allowedIPs);
    var p3 := p2.(keepalive := p.keepalive);
    var at := PeerStarts(s);
    var s1 := PeerTextsRead(s, p, at);
    var s2 := AllowedRead(s, p1, p.allowedIPs, s1);
    var s3 := KeepaliveReads(s, p2, p.keepalive, s2);
    s' := PeerExtrasRead(s, p3, p.extra, order, s3);
    RestrictAll(p.extra, order);
    var e0 := [Blank, PeerHeader];
    var e1 := e0 + PeerTexts(p);
    var e2 := e1 + AllowedEntries(p);
    Chain(s, e0, at, PeerTexts(p), s1);
    Chain(s, e1, s1, AllowedEntries(p), s2);
    Chain(s, e2, s2, KeepaliveEntries(p), s3);
    Chain(s, e2 + KeepaliveEntries(p), s3, ExtraEntries(true, p.extra, order), s');
  }

  ghost predicate PrintablePeers(peers: seq<Peer>) { forall i :: 0 <= i < |peers| ==> PrintablePeer(peers[i]) }

  lemma {:induction false} PeersRead(s: Scan, peers: seq<Peer>, orders: seq<seq<string>>) returns (s': Scan)
    requires PrintablePeers(peers) && EnumerateAll(orders, peers)
    ensures Effects(s, PeersEntries(peers, orders)) == Some(s')
    ensures s'.iface == s.iface && s'.peers == s.peers + peers
    decreases |peers|
  {
    if peers == [] {
      s' := s;
    } else {
      var n := |peers| - 1;
      InitAndLast(peers);
      var s1 := PeersRead(s, peers[..n], orders[..n]);
      s' := PeerReads(s1, peers[n], orders[n]);
      Chain(s, PeersEntries(peers[..n], orders[..n]), s1, PeerEntries(peers[n], orders[n]), s');
    }
  }

  // ---------------------------------------------------------------------
  // The printed entries are clean
  // ---------------------------------------------------------------------

  lemma FieldEntriesAreClean(i: Interface, k: InterfaceKey)
    requires PrintableInterface(i)
    ensures CleanEntries(FieldEntries(i, k))
  {
    match k
    case AsText(t) =>
    case AsInt(n) => if i.ints[n] > 0 { ItoaIsClean(i.ints[n]); }
    case AsList(l) => if i.lists[l] != [] { JoinIsClean(i.lists[l]); }
    case AsScript(h) => assert CleanScript(i.scripts[h]);
  }

  lemma {:induction false} FieldsAreClean(i: Interface, n: nat)
    requires PrintableInterface(i) && n <= FIELD_COUNT
    ensures CleanEntries(FieldsEntries(i, n))
  {
    if n > 0 {
      FieldsAreClean(i, n - 1);
      FieldEntriesAreClean(i, FieldAt(n - 1));
    }
  }

  lemma {:induction false} ExtrasAreClean(inPeer: bool, extra: map<string, string>, order: seq<string>)
    requires CleanExtra(extra) && forall k :: k in order ==> k in extra
    requires forall k :: k in extra ==> if inPeer then PeerKeyOf(Lower(k)) == None else KeyOf(Lower(k)) == None
    ensures CleanEntries(ExtraEntries(inPeer, extra, order))
    decreases |order|
  {
    if order != [] {
      ExtrasAreClean(inPeer, extra, order[..|order| - 1]);
    }
  }

  lemma PeerEntriesAreClean(p: Peer, order: seq<string>)
    requires PrintablePeer(p) && Enumerates(order, p.extra)
    ensures CleanEntries(PeerEntries(p, order))
  {
    ExtrasAreClean(true, p.extra, order);
    if p.allowedIPs != [] {
      JoinIsClean(p.allowedIPs);
    }
    if p.keepalive.Some? {
      ItoaIsClean(p.keepalive.value);
    }
    assert CleanEntries([Blank, PeerHeader] + PeerTexts(p)) && CleanEntries(AllowedEntries(p) + KeepaliveEntries(p));
  }

  lemma {:induction false} PeersAreClean(peers: seq<Peer>, orders: seq<seq<string>>)
    requires PrintablePeers(peers) && EnumerateAll(orders, peers)
    ensures CleanEntries(PeersEntries(peers, orders))
    decreases |peers|
  {
    if peers != [] {
      var n := |peers| - 1;
      PeersAreClean(peers[..n], orders[..n]);
      PeerEntriesAreClean(peers[n], orders[n]);
    }
  }

  lemma CleanLineHasNoNewline(e: Entry)
    requires CleanEntry(e)
    ensures '\n' !in Render(e)
  {
    match e
    case Field(k, _) => FieldNames(k);
    case PeerField(k, _) => PeerNames(k);
    case _ =>
  }

  lemma LinesOfText(es: seq<Entry>)
    requires CleanEntries(es)
    ensures Split(TextOf(es), '\n') == RenderAll(es) + [""]
  {
    forall n | 0 <= n < |es|
      ensures '\n' !in RenderAll(es)[n]
    {
      CleanLineHasNoNewline(es[n]);
    }
    SplitOfUnlines(RenderAll(es));
  }

  // ---------------------------------------------------------------------
  // The round trip
  // ---------------------------------------------------------------------

  function ProtocolOf(i: Interface): Protocol { if IsAmneziaWG(i) then AmneziaWG else Unset }

  ghost predicate NoNegatives(i: Interface) { forall n: IntKey :: i.ints[n] >= 0 }

  /** Reading back a printed configuration, whatever order its extra keys were
      printed in: negative integers are lost, the protocol is the derived one. */
  lemma ParsePrinted(c: Config, order: seq<string>, orders: seq<seq<string>>)
    requires Printable(c) && Enumerates(order, c.iface.extra) && EnumerateAll(orders, c.peers)
    ensures var text := Printed(c, order, orders);
            Parsed(text) ==
            if |text| > MAX_CONFIG_SIZE then Err(TooLarge)
            else Ok(Config(Clamped(c.iface), c.peers, ProtocolOf(Clamped(c.iface))))
  {
    var es := Entries(c, order, orders);
    EntriesAreClean(c, order, orders);
    assert es != [] && es[0] == InterfaceHeader;
    var s := PrintedReads(START, c, order, orders);
    ParseRendered(es, s);
    ReadIsFinished(c, s);
  }

  /** A printable configuration has its private key. */
  lemma ReadIsFinished(c: Config, s: Scan)
    requires Printable(c) && s.iface == Clamped(c.iface) && s.peers == c.peers
    ensures Finished(s) == Ok(Config(Clamped(c.iface), c.peers, ProtocolOf(Clamped(c.iface))))
  {
  }

  lemma PrintedReads(s0: Scan, c: Config, order: seq<string>, orders: seq<seq<string>>) returns (s: Scan)
    requires s0.iface == NO_INTERFACE && s0.peers == []
    requires Printable(c) && Enumerates(order, c.iface.extra) && EnumerateAll(orders, c.peers)
    ensures Effects(s0, Entries(c, order, orders)) == Some(s) && s.iface == Clamped(c.iface) && s.peers == c.peers
  {
    var s1 := InterfaceReads(s0, c.iface, order);
    s := PeersRead(s1, c.peers, orders);
    Chain(s0, InterfaceEntries(c.iface, order), s1, PeersEntries(c.peers, orders), s);
    assert [] + c.peers == c.peers;
  }

  lemma ParseRendered(es: seq<Entry>, s: Scan)
    requires CleanEntries(es) && es != [] && es[0] == InterfaceHeader && Effects(START, es) == Some(s)
    ensures Parsed(TextOf(es)) == if |TextOf(es)| > MAX_CONFIG_SIZE then Err(TooLarge) else Finished(s)
  {
    ParseRenderedLines(es, s);
    LinesOfText(es);
    TextStarts(es);
    if |TextOf(es)| <= MAX_CONFIG_SIZE {
      ParsedIs(TextOf(es), RenderAll(es) + [""], Advance(s, 1));
      LineNumberIsForgotten(s);
    }
  }

  lemma ParsedIs(text: string, lines: seq<string>, s: Scan)
    requires |text| <= MAX_CONFIG_SIZE && WithoutBom(text) == text && '\n' in text && Split(text, '\n') == lines
    requires ParseLines(START, lines) == Ok(s)
    ensures Parsed(text) == Finished(s)
  {
  }

  lemma LineNumberIsForgotten(s: Scan)
    ensures Finished(Advance(s, 1)) == Finished(s)
  {
  }

  lemma ParseRenderedLines(es: seq<Entry>, s: Scan)
    requires CleanEntries(es) && Effects(START, es) == Some(s)
    ensures ParseLines(START, RenderAll(es) + [""]) == Ok(Advance(s, 1))
  {
    EntriesParse(START, es);
    ParseAppend(START, RenderAll(es), [""]);
    HeadersParse(s);
    assert ParseLines(Advance(s, 1), [""][1..]) == Ok(Advance(s, 1));
  }

  lemma TextStarts(es: seq<Entry>)
    requires es != [] && es[0] == InterfaceHeader
    ensures WithoutBom(TextOf(es)) == TextOf(es) && '\n' in TextOf(es)
  {
    assert RenderAll(es)[0] == "[Interface]";
    assert TextOf(es)[0] == '[' && TextOf(es)[11] == '\n';
  }

  lemma EntriesAreClean(c: Config, order: seq<string>, orders: seq<seq<string>>)
    requires Printable(c) && Enumerates(order, c.iface.extra) && EnumerateAll(orders, c.peers)
    ensures CleanEntries(Entries(c, order, orders))
  {
    FieldsAreClean(c.iface, FIELD_COUNT);
    ExtrasAreClean(false, c.iface.extra, order);
    PeersAreClean(c.peers, orders);
  }

  lemma ClampedIsSame(i: Interface)
    ensures Clamped(i) == i <==> NoNegatives(i)
  {
    if NoNegatives(i) {
      assert Clamp(i.ints) == i.ints;
    } else {
      var n :| i.ints[n] < 0;
      assert Clamp(i.ints)[n] == 0;
    }
  }

  /** A printed configuration reads back as itself exactly when it fits, has no
      negative integer, and carries the protocol that its keys imply. */
  lemma RoundTripsExactlyWhen(c: Config, order: seq<string>, orders: seq<seq<string>>)
    requires Printable(c) && Enumerates(order, c.iface.extra) && EnumerateAll(orders, c.peers)
    ensures Parsed(Printed(c, order, orders)) == Ok(c) <==>
            && |Printed(c, order, orders)| <= MAX_CONFIG_SIZE
            && NoNegatives(c.iface) && c.protocol == ProtocolOf(c.iface)
  {
    ParsePrinted(c, order, orders);
    ClampedIsSame(c.iface);
  }
}
