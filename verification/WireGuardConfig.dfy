/** A parsed configuration. The fields of the [Interface] struct are grouped by
    type and named by the key that sets them. */
module WireGuardConfig {
  import opened Wrappers
  import opened Text

  datatype TextKey = PrivateKey | Table | FwMark | H1 | H2 | H3 | H4
  datatype IntKey = MTU | ListenPort | Jc | Jmin | Jmax | S1 | S2 | S3 | S4
  datatype ListKey = Address | DNS
  datatype Hook = PreUp | PostUp | PreDown | PostDown
  datatype InterfaceKey = AsText(t: TextKey) | AsInt(n: IntKey) | AsList(l: ListKey) | AsScript(h: Hook)

  const NO_TEXTS: map<TextKey, string> :=
    map[PrivateKey := "", Table := "", FwMark := "", H1 := "", H2 := "", H3 := "", H4 := ""]
  const NO_INTS: map<IntKey, Int64> :=
    map[MTU := 0, ListenPort := 0, Jc := 0, Jmin := 0, Jmax := 0, S1 := 0, S2 := 0, S3 := 0, S4 := 0]
  const NO_LISTS: map<ListKey, seq<string>> := map[Address := [], DNS := []]
  const NO_SCRIPTS: map<Hook, string> := map[PreUp := "", PostUp := "", PreDown := "", PostDown := ""]

  lemma EveryKeyIsThere()
    ensures forall k: TextKey :: k in NO_TEXTS
    ensures forall k: IntKey :: k in NO_INTS
    ensures forall k: ListKey :: k in NO_LISTS
    ensures forall k: Hook :: k in NO_SCRIPTS
  {
    forall k: TextKey ensures k in NO_TEXTS {
      match k case PrivateKey => case Table => case FwMark => case H1 => case H2 => case H3 => case H4 =>
    }
    forall k: IntKey ensures k in NO_INTS {
      match k case MTU => case ListenPort => case Jc => case Jmin => case Jmax => case S1 => case S2 => case S3 => case S4 =>
    }
    forall k: ListKey ensures k in NO_LISTS {
      match k case Address => case DNS =>
    }
    forall k: Hook ensures k in NO_SCRIPTS {
      match k case PreUp => case PostUp => case PreDown => case PostDown =>
    }
  }

  lemma ZeroValues()
    ensures forall k: TextKey :: k in NO_TEXTS && NO_TEXTS[k] == ""
    ensures forall k: IntKey :: k in NO_INTS && NO_INTS[k] == 0
    ensures forall k: ListKey :: k in NO_LISTS && NO_LISTS[k] == []
    ensures forall k: Hook :: k in NO_SCRIPTS && NO_SCRIPTS[k] == ""
  {
    EveryKeyIsThere();
  }

  type Texts = m: map<TextKey, string> | forall k: TextKey :: k in m witness (EveryKeyIsThere(); NO_TEXTS)
  type Ints = m: map<IntKey, Int64> | forall k: IntKey :: k in m witness (EveryKeyIsThere(); NO_INTS)
  type Lists = m: map<ListKey, seq<string>> | forall k: ListKey :: k in m witness (EveryKeyIsThere(); NO_LISTS)
  type Scripts = m: map<Hook, string> | forall k: Hook :: k in m witness (EveryKeyIsThere(); NO_SCRIPTS)

  datatype Interface = Interface(texts: Texts, ints: Ints, lists: Lists, scripts: Scripts, extra: map<string, string>)

  const NO_INTERFACE := (EveryKeyIsThere(); Interface(NO_TEXTS, NO_INTS, NO_LISTS, NO_SCRIPTS, map[]))

  datatype Peer = Peer(publicKey: string, presharedKey: string, endpoint: string, allowedIPs: seq<string>,
                       keepalive: Option<Int64>, extra: map<string, string>)

  const NO_PEER := Peer("", "", "", [], None, map[])

  datatype Protocol = Unset | AmneziaWG

  datatype Config = Config(iface: Interface, peers: seq<Peer>, protocol: Protocol)

  const AWG_INTS := {Jc, Jmin, Jmax, S1, S2, S3, S4}
  const AWG_TEXTS := {H1, H2, H3, H4}

  predicate IsAmneziaWG(i: Interface) {
    || (exists n :: n in AWG_INTS && i.ints[n] != 0)
    || (exists t :: t in AWG_TEXTS && i.texts[t] != "")
  }

  // ---------------------------------------------------------------------
  // Keys and their spelling
  // ---------------------------------------------------------------------

  function TextName(t: TextKey): string {
    match t
    case PrivateKey => "PrivateKey" case Table => "Table" case FwMark => "FwMark"
    case H1 => "H1" case H2 => "H2" case H3 => "H3" case H4 => "H4"
  }

  function IntName(n: IntKey): string {
    match n
    case MTU => "MTU" case ListenPort => "ListenPort" case Jc => "Jc" case Jmin => "Jmin" case Jmax => "Jmax"
    case S1 => "S1" case S2 => "S2" case S3 => "S3" case S4 => "S4"
  }

  function ListName(l: ListKey): string {
    match l case Address => "Address" case DNS => "DNS"
  }

  function HookName(h: Hook): string {
    match h
    case PreUp => "PreUp" case PostUp => "PostUp" case PreDown => "PreDown" case PostDown => "PostDown"
  }

  function Name(k: InterfaceKey): string {
    match k
    case AsText(t) => TextName(t)
    case AsInt(n) => IntName(n)
    case AsList(l) => ListName(l)
    case AsScript(h) => HookName(h)
  }

  /** The switch over the lower-cased key of an [Interface] line. */
  function KeyOf(lower: string): Option<InterfaceKey> {
    match lower
    case "privatekey" => Some(AsText(PrivateKey))
    case "address" => Some(AsList(Address))
    case "dns" => Some(AsList(DNS))
    case "mtu" => Some(AsInt(MTU))
    case "listenport" => Some(AsInt(ListenPort))
    case "table" => Some(AsText(Table))
    case "fwmark" => Some(AsText(FwMark))
    case "preup" => Some(AsScript(PreUp))
    case "postup" => Some(AsScript(PostUp))
    case "predown" => Some(AsScript(PreDown))
    case "postdown" => Some(AsScript(PostDown))
    case "jc" => Some(AsInt(Jc))
    case "jmin" => Some(AsInt(Jmin))
    case "jmax" => Some(AsInt(Jmax))
    case "s1" => Some(AsInt(S1))
    case "s2" => Some(AsInt(S2))
    case "s3" => Some(AsInt(S3))
    case "s4" => Some(AsInt(S4))
    case "h1" => Some(AsText(H1))
    case "h2" => Some(AsText(H2))
    case "h3" => Some(AsText(H3))
    case "h4" => Some(AsText(H4))
    case _ => None
  }

  datatype PeerKey = PublicKey | PresharedKey | Endpoint | AllowedIPs | PersistentKeepalive

  function PeerName(k: PeerKey): string {
    match k
    case PublicKey => "PublicKey" case PresharedKey => "PresharedKey" case Endpoint => "Endpoint"
    case AllowedIPs => "AllowedIPs" case PersistentKeepalive => "PersistentKeepalive"
  }

  function PeerKeyOf(lower: string): Option<PeerKey> {
    match lower
    case "publickey" => Some(PublicKey)
    case "presharedkey" => Some(PresharedKey)
    case "endpoint" => Some(Endpoint)
    case "allowedips" => Some(AllowedIPs)
    case "persistentkeepalive" => Some(PersistentKeepalive)
    case _ => None
  }

  /** Letters and digits only. */
  predicate Plain(s: string) {
    s != "" && forall i :: 0 <= i < |s| ==> IsDigit(s[i]) || 'A' <= s[i] <= 'Z' || 'a' <= s[i] <= 'z'
  }

  lemma TextNames(t: TextKey)
    ensures Plain(TextName(t))
    ensures KeyOf(Lower(TextName(t))) == Some(AsText(t))
  {
    var lower := match t
      case PrivateKey => "privatekey" case Table => "table" case FwMark => "fwmark"
      case H1 => "h1" case H2 => "h2" case H3 => "h3" case H4 => "h4";
    assert Lower(TextName(t)) == lower;
  }

  lemma IntNames(n: IntKey)
    ensures Plain(IntName(n))
    ensures KeyOf(Lower(IntName(n))) == Some(AsInt(n))
  {
    var lower := match n
      case MTU => "mtu" case ListenPort => "listenport" case Jc => "jc" case Jmin => "jmin" case Jmax => "jmax"
      case S1 => "s1" case S2 => "s2" case S3 => "s3" case S4 => "s4";
    assert Lower(IntName(n)) == lower;
  }

  lemma ListNames(l: ListKey)
    ensures Plain(ListName(l))
    ensures KeyOf(Lower(ListName(l))) == Some(AsList(l))
  {
    var lower := match l case Address => "address" case DNS => "dns";
    assert Lower(ListName(l)) == lower;
  }

  lemma HookNames(h: Hook)
    ensures Plain(HookName(h))
    ensures KeyOf(Lower(HookName(h))) == Some(AsScript(h))
  {
    var lower := match h
      case PreUp => "preup" case PostUp => "postup" case PreDown => "predown" case PostDown => "postdown";
    assert Lower(HookName(h)) == lower;
  }

  function LowerPeerName(k: PeerKey): string {
    match k
    case PublicKey => "publickey" case PresharedKey => "presharedkey" case Endpoint => "endpoint"
    case AllowedIPs => "allowedips" case PersistentKeepalive => "persistentkeepalive"
  }

  lemma PeerNamesLowered(k: PeerKey)
    ensures Lower(PeerName(k)) == LowerPeerName(k)
  {
    assert |PeerName(k)| == |LowerPeerName(k)|;
    assert forall i :: 0 <= i < |PeerName(k)| ==> LowerChar(PeerName(k)[i]) == LowerPeerName(k)[i];
  }

  lemma PeerNames(k: PeerKey)
    ensures Plain(PeerName(k))
    ensures PeerKeyOf(Lower(PeerName(k))) == Some(k)
  {
    PeerNamesLowered(k);
  }
}
