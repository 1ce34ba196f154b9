/** Parsing a .conf text into a configuration, and printing one. Each loop of
    the source is a method, proved to compute the function it stands beside. */
module ConfigParser {
  import opened Wrappers
  import opened Text
  import opened WireGuardConfig

  const MAX_CONFIG_SIZE: nat := 0x10_0000
  const MAX_ALLOWED_IPS: nat := 10000

  datatype ParseError =
    | TooLarge
    | LineTooLong
    | NulByte(line: nat)
    | InvalidSyntax(line: nat)
    | OutsideSection(line: nat)
    | BadValue(line: nat, key: string)
    | TooManyAllowedIPs
    | NoPrivateKey

  datatype Section = NoSection | InInterface | InPeer

  /** Where the scan stands: the section, what was parsed, the lines consumed. */
  datatype Scan = Scan(section: Section, iface: Interface, peers: seq<Peer>, line: nat)

  const START := Scan(NoSection, NO_INTERFACE, [], 0)

  // ---------------------------------------------------------------------
  // Values
  // ---------------------------------------------------------------------

  /** The trimmed, non-empty members of a list of strings. */
  function NonEmpty(parts: seq<string>): seq<string> {
    if parts == [] then []
    else (if Trim(parts[0]) != "" then [Trim(parts[0])] else []) + NonEmpty(parts[1..])
  }

  function Items(value: string): seq<string> { NonEmpty(Split(value, ',')) }

  lemma {:induction false} NonEmptyAppend(a: seq<string>, b: seq<string>)
    ensures NonEmpty(a + b) == NonEmpty(a) + NonEmpty(b)
  {
    if a == [] {
      assert a + b == b;
    } else {
      assert (a + b)[1..] == a[1..] + b;
      NonEmptyAppend(a[1..], b);
    }
  }

  method SplitAndTrim(s: string) returns (result: seq<string>)
    ensures result == Items(s)
  {
    var parts := Split(s, ',');
    result := [];
    for k := 0 to |parts|
      invariant result == NonEmpty(parts[..k])
    {
      var p := Trim(parts[k]);
      assert parts[..k + 1] == parts[..k] + [parts[k]];
      NonEmptyAppend(parts[..k], [parts[k]]);
      if p != "" {
        result := result + [p];
      }
    }
    assert parts[..|parts|] == parts;
  }

  function AppendScript(existing: string, value: string): string {
    if existing == "" then value else existing + [NUL] + value
  }

  const UNITS := ["seconds", "second", "secs", "sec", "s"]

  /** `s` without the first of the given suffixes that it has. */
  function WithoutUnit(s: string, units: seq<string>): string {
    if units == [] then s
    else if HasSuffix(s, units[0]) then Trim(s[..|s| - |units[0]|])
    else WithoutUnit(s, units[1..])
  }

  function Keepalive(raw: string): Option<Int64> {
    match Atoi(WithoutUnit(Lower(Trim(raw)), UNITS))
    case None => None
    case Some(n) => if n < 0 then None else Some(n)
  }

  method ParseKeepaliveSeconds(raw: string) returns (r: Option<Int64>)
    ensures r == Keepalive(raw)
  {
    var s := Lower(Trim(raw));
    ghost var full := s;
    for k := 0 to |UNITS|
      invariant s == full && WithoutUnit(full, UNITS) == WithoutUnit(full, UNITS[k..])
    {
      if HasSuffix(s, UNITS[k]) {
        s := Trim(s[..|s| - |UNITS[k]|]);
        assert s == WithoutUnit(full, UNITS);
        break;
      }
    }
    assert s == WithoutUnit(full, UNITS);
    var n := Atoi(s);
    r := if n.None? || n.value < 0 then None else n;
  }

  // ---------------------------------------------------------------------
  // One line
  // ---------------------------------------------------------------------

  /** Setting a field of [Interface]; None when the value is no integer. */
  function WithField(i: Interface, k: InterfaceKey, value: string): Option<Interface> {
    match k
    case AsText(t) => Some(i.(texts := i.texts[t := value]))
    case AsList(l) => Some(i.(lists := i.lists[l := i.lists[l] + Items(value)]))
    case AsScript(h) => Some(i.(scripts := i.scripts[h := AppendScript(i.scripts[h], value)]))
    case AsInt(n) =>
      match Atoi(value)
      case None => None
      case Some(v) => Some(i.(ints := i.ints[n := v]))
  }

  method ParseField(i: Interface, k: InterfaceKey, value: string) returns (r: Option<Interface>)
    ensures r == WithField(i, k, value)
  {
    match k
    case AsText(t) => r := Some(i.(texts := i.texts[t := value]));
    case AsList(l) =>
      var items := SplitAndTrim(value);
      r := Some(i.(lists := i.lists[l := i.lists[l] + items]));
    case AsScript(h) => r := Some(i.(scripts := i.scripts[h := AppendScript(i.scripts[h], value)]));
    case AsInt(n) =>
      var v := Atoi(value);
      r := if v.None? then None else Some(i.(ints := i.ints[n := v.value]));
  }

  function WithKey(i: Interface, key: string, value: string): Option<Interface> {
    match KeyOf(Lower(key))
    case None => Some(i.(extra := i.extra[key := value]))
    case Some(k) => WithField(i, k, value)
  }

  method ParseInterfaceKey(i: Interface, key: string, value: string) returns (r: Option<Interface>)
    ensures r == WithKey(i, key, value)
  {
    var k := KeyOf(Lower(key));
    if k.None? {
      r := Some(i.(extra := i.extra[key := value]));
    } else {
      r := ParseField(i, k.value, value);
    }
  }

  /** Setting a field of [Peer]; `key` is only for the error message. */
  function WithPeerField(p: Peer, k: PeerKey, value: string, key: string, line: nat): Result<Peer, ParseError> {
    match k
    case PublicKey => Ok(p.(publicKey := value))
    case PresharedKey => Ok(p.(presharedKey := value))
    case Endpoint => Ok(p.(endpoint := value))
    case AllowedIPs =>
      if |p.allowedIPs| + |Items(value)| > MAX_ALLOWED_IPS then Err(TooManyAllowedIPs)
      else Ok(p.(allowedIPs := p.allowedIPs + Items(value)))
    case PersistentKeepalive =>
      match Keepalive(value)
      case None => Err(BadValue(line, key))
      case Some(n) => Ok(p.(keepalive := Some(n)))
  }

  method ParsePeerField(p: Peer, k: PeerKey, value: string, key: string, line: nat) returns (r: Result<Peer, ParseError>)
    ensures r == WithPeerField(p, k, value, key, line)
  {
    match k
    case PublicKey => r := Ok(p.(publicKey := value));
    case PresharedKey => r := Ok(p.(presharedKey := value));
    case Endpoint => r := Ok(p.(endpoint := value));
    case AllowedIPs =>
      var add := SplitAndTrim(value);
      if |p.allowedIPs| + |add| > MAX_ALLOWED_IPS {
        r := Err(TooManyAllowedIPs);
      } else {
        r := Ok(p.(allowedIPs := p.allowedIPs + add));
      }
    case PersistentKeepalive =>
      var n := ParseKeepaliveSeconds(value);
      r := if n.None? then Err(BadValue(line, key)) else Ok(p.(keepalive := n));
  }

  function WithPeerKey(p: Peer, key: string, value: string, line: nat): Result<Peer, ParseError> {
    match PeerKeyOf(Lower(key))
    case None => Ok(p.(extra := p.extra[key := value]))
    case Some(k) => WithPeerField(p, k, value, key, line)
  }

  method ParsePeerKey(p: Peer, key: string, value: string, line: nat) returns (r: Result<Peer, ParseError>)
    ensures r == WithPeerKey(p, key, value, line)
  {
    var k := PeerKeyOf(Lower(key));
    if k.None? {
      r := Ok(p.(extra := p.extra[key := value]));
    } else {
      r := ParsePeerField(p, k.value, value, key, line);
    }
  }

  predicate IsSkipped(line: string) { line == "" || HasPrefix(line, "#") || HasPrefix(line, ";") }

  /** What a key = value line does in the current section. */
  function KeyLine(s: Scan, key: string, value: string): Result<Scan, ParseError> {
    if s.section == InInterface then
      match WithKey(s.iface, key, value)
      case None => Err(BadValue(s.line, key))
      case Some(i) => Ok(s.(iface := i))
    else if s.section == InPeer && s.peers != [] then
      match WithPeerKey(s.peers[|s.peers| - 1], key, value, s.line)
      case Err(e) => Err(e)
      case Ok(p) => Ok(s.(peers := s.peers[|s.peers| - 1 := p]))
    else Err(OutsideSection(s.line))
  }

  method ParseKeyLine(s: Scan, key: string, value: string) returns (r: Result<Scan, ParseError>)
    ensures r == KeyLine(s, key, value)
  {
    if s.section == InInterface {
      var i := ParseInterfaceKey(s.iface, key, value);
      r := if i.None? then Err(BadValue(s.line, key)) else Ok(s.(iface := i.value));
    } else if s.section == InPeer && s.peers != [] {
      var p := ParsePeerKey(s.peers[|s.peers| - 1], key, value, s.line);
      r := if p.Err? then Err(p.error) else Ok(s.(peers := s.peers[|s.peers| - 1 := p.value]));
    } else {
      r := Err(OutsideSection(s.line));
    }
  }

  function ParseTrimmed(s: Scan, line: string): Result<Scan, ParseError> {
    if NUL in line then Err(NulByte(s.line))
    else if IsSkipped(line) then Ok(s)
    else if Lower(line) == "[interface]" then Ok(s.(section := InInterface))
    else if Lower(line) == "[peer]" then Ok(s.(section := InPeer, peers := s.peers + [NO_PEER]))
    else
      var eq := IndexOf(line, '=');
      if eq == |line| then Err(InvalidSyntax(s.line))
      else KeyLine(s, Trim(line[..eq]), Trim(line[eq + 1..]))
  }

  function ParseLine(s: Scan, raw: string): Result<Scan, ParseError> {
    ParseTrimmed(s.(line := s.line + 1), Trim(raw))
  }

  function ParseLines(s: Scan, lines: seq<string>): Result<Scan, ParseError>
    decreases |lines|
  {
    if lines == [] then Ok(s)
    else
      match ParseLine(s, lines[0])
      case Err(e) => Err(e)
      case Ok(s') => ParseLines(s', lines[1..])
  }

  // ---------------------------------------------------------------------
  // A whole text
  // ---------------------------------------------------------------------

  const BOM := ['\U{EF}', '\U{BB}', '\U{BF}']

  function WithoutBom(content: string): string {
    if HasPrefix(content, BOM) then content[3..] else content
  }

  function Finished(s: Scan): Result<Config, ParseError> {
    if s.iface.texts[PrivateKey] == "" then Err(NoPrivateKey)
    else Ok(Config(s.iface, s.peers, if IsAmneziaWG(s.iface) then AmneziaWG else Unset))
  }

  /** The scanner gives up on a line that fills its whole buffer. */
  function Parsed(content: string): Result<Config, ParseError> {
    if |content| > MAX_CONFIG_SIZE then Err(TooLarge)
    else
      var body := WithoutBom(content);
      if |body| == MAX_CONFIG_SIZE && '\n' !in body then Err(LineTooLong)
      else
        match ParseLines(START, Split(body, '\n'))
        case Err(e) => Err(e)
        case Ok(s) => Finished(s)
  }

  /** The body of the scan loop. */
  method ScanLine(s: Scan, raw: string) returns (r: Result<Scan, ParseError>)
    ensures r == ParseLine(s, raw)
  {
    var lineNum := s.line + 1;
    var line := Trim(raw);
    if NUL in line {
      return Err(NulByte(lineNum));
    }
    if IsSkipped(line) {
      return Ok(s.(line := lineNum));
    }
    var lower := Lower(line);
    if lower == "[interface]" {
      return Ok(s.(section := InInterface, line := lineNum));
    }
    if lower == "[peer]" {
      return Ok(s.(section := InPeer, peers := s.peers + [NO_PEER], line := lineNum));
    }
    var eq := IndexOf(line, '=');
    if eq == |line| {
      return Err(InvalidSyntax(lineNum));
    }
    r := ParseKeyLine(s.(line := lineNum), Trim(line[..eq]), Trim(line[eq + 1..]));
  }

  method Parse(content: string) returns (r: Result<Config, ParseError>)
    ensures r == Parsed(content)
  {
    if |content| > MAX_CONFIG_SIZE {
      return Err(TooLarge);
    }
    var body := WithoutBom(content);
    if |body| == MAX_CONFIG_SIZE && '\n' !in body {
      return Err(LineTooLong);
    }
    var lines := Split(body, '\n');
    var s := START;
    for k := 0 to |lines|
      invariant ParseLines(START, lines) == ParseLines(s, lines[k..])
    {
      var next := ScanLine(s, lines[k]);
      if next.Err? {
        return Err(next.error);
      }
      s := next.value;
    }
    if s.iface.texts[PrivateKey] == "" {
      return Err(NoPrivateKey);
    }
    r := Ok(Config(s.iface, s.peers, if IsAmneziaWG(s.iface) then AmneziaWG else Unset));
  }
}
