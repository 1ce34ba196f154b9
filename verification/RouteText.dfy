/** Route addresses as macOS prints them, with trailing zero octets left out. */
module RouteText {
  import opened Text

  predicate IsOctet(p: string) { p != "" && AllDigits(p) }

  predicate AllOctets(parts: seq<string>) { forall i :: 0 <= i < |parts| ==> IsOctet(parts[i]) }

  /** The parts with zeros added up to four. */
  function Padded(parts: seq<string>): seq<string>
    decreases 4 - |parts|
  {
    if |parts| < 4 then Padded(parts + ["0"]) else parts
  }

  method Pad(parts: seq<string>) returns (r: seq<string>)
    ensures r == Padded(parts)
  {
    r := parts;
    while |r| < 4
      invariant Padded(r) == Padded(parts)
      decreases 4 - |r|
    {
      r := r + ["0"];
    }
  }

  function Address(s: string): string { s[..IndexOf(s, '/')] }

  function Prefix(s: string): string {
    var i := IndexOf(s, '/');
    if i < |s| then s[i + 1..] else ""
  }

  /** A printed network address in full. */
  function Expanded(s: string): string {
    var parts, prefix := Split(Address(s), '.'), Prefix(s);
    if ':' in s || |parts| > 4 || !AllOctets(parts) then s
    else if prefix != "" then Join(Padded(parts), ".") + "/" + prefix
    else if |parts| == 4 then Join(parts, ".")
    else Join(Padded(parts), ".") + "/" + Itoa(|parts| * 8)
  }

  method CheckOctets(parts: seq<string>) returns (ok: bool)
    ensures ok == AllOctets(parts)
  {
    for n := 0 to |parts|
      invariant AllOctets(parts[..n])
    {
      var p := parts[n];
      if p == "" {
        return false;
      }
      for k := 0 to |p|
        invariant AllDigits(p[..k])
      {
        if p[k] < '0' || p[k] > '9' {
          return false;
        }
      }
      assert p[..|p|] == p;
    }
    assert parts[..|parts|] == parts;
    return true;
  }

  method ExpandDarwinNetAddr(s: string) returns (r: string)
    ensures r == Expanded(s)
  {
    if ':' in s {
      return s;
    }
    var addr, prefix := s, "";
    var i := IndexOf(s, '/');
    if i < |s| {
      addr, prefix := s[..i], s[i + 1..];
    } else {
      assert s[..i] == s;
    }
    var parts := Split(addr, '.');
    if |parts| > 4 {
      return s;
    }
    var octets := |parts|;
    var ok := CheckOctets(parts);
    if !ok {
      return s;
    }
    parts := Pad(parts);
    if prefix == "" {
      if octets == 4 {
        return Join(parts, ".");
      }
      prefix := Itoa(octets * 8);
    }
    return Join(parts, ".") + "/" + prefix;
  }

  /** What the conflict check makes of a route before parsing it. */
  function NormalizedCidr(s: string): string {
    if '/' !in s then s + if ':' in s then "/128" else "/32"
    else if ':' in Address(s) then s
    else Join(Padded(Split(Address(s), '.')), ".") + "/" + Prefix(s)
  }

  method NormalizeCidr(s: string) returns (r: string)
    ensures r == NormalizedCidr(s)
  {
    if '/' !in s {
      if ':' in s {
        return s + "/128";
      }
      return s + "/32";
    }
    var i := IndexOf(s, '/');
    var ip, mask := s[..i], s[i + 1..];
    assert s == ip + "/" + mask;
    if ':' !in ip {
      var octets := Split(ip, '.');
      octets := Pad(octets);
      ip := Join(octets, ".");
    }
    r := ip + "/" + mask;
  }

  // ---------------------------------------------------------------------
  // Laws
  // ---------------------------------------------------------------------

  /** One to four decimal octets. */
  predicate Octets(octets: seq<string>) { 1 <= |octets| <= 4 && AllOctets(octets) }

  lemma OctetsText(octets: seq<string>)
    requires Octets(octets)
    ensures Split(Join(octets, "."), '.') == octets
    ensures '/' !in Join(octets, ".") && ':' !in Join(octets, ".")
  {
    forall i | 0 <= i < |octets|
      ensures '.' !in octets[i] && '/' !in octets[i] && ':' !in octets[i]
    {
      assert IsOctet(octets[i]);
    }
    SplitOfJoin(octets, '.');
    JoinLacks(octets, ".", '/');
    JoinLacks(octets, ".", ':');
  }

  lemma AddressAndPrefix(addr: string, prefix: string)
    requires '/' !in addr
    ensures Address(addr + "/" + prefix) == addr && Prefix(addr + "/" + prefix) == prefix
    ensures Address(addr) == addr && Prefix(addr) == ""
  {
    IndexOfFirst(addr, '/', prefix);
  }

  lemma PaddedOctets(octets: seq<string>)
    requires Octets(octets)
    ensures Octets(Padded(octets)) && |Padded(octets)| == 4 && octets <= Padded(octets)
    ensures forall i :: |octets| <= i < 4 ==> Padded(octets)[i] == "0"
    decreases 4 - |octets|
  {
    if |octets| < 4 {
      assert IsDigit("0"[0]);
      PaddedOctets(octets + ["0"]);
    }
  }

  /** A network address whose octets from the `n`-th on are zero. */
  predicate Elidable(quad: seq<string>, n: nat) {
    |quad| == 4 && AllOctets(quad) && 1 <= n <= 4 && forall i :: n <= i < 4 ==> quad[i] == "0"
  }

  lemma PaddingRestores(quad: seq<string>, n: nat)
    requires Elidable(quad, n)
    ensures Octets(quad[..n]) && Padded(quad[..n]) == quad
  {
    PaddedOctets(quad[..n]);
  }

  /** Expanding undoes the elision of zero octets before a prefix. */
  lemma ExpandUndoesElision(quad: seq<string>, n: nat, prefix: string)
    requires Elidable(quad, n) && prefix != "" && ':' !in prefix
    ensures Expanded(Join(quad[..n], ".") + "/" + prefix) == Join(quad, ".") + "/" + prefix
  {
    PaddingRestores(quad, n);
    OctetsText(quad[..n]);
    AddressAndPrefix(Join(quad[..n], "."), prefix);
  }

  /** Without a prefix, the number of octets left is the classful one; a whole
      address is that of a host. */
  lemma ExpandIsClassful(quad: seq<string>, n: nat)
    requires Elidable(quad, n)
    ensures Expanded(Join(quad[..n], ".")) ==
            if n == 4 then Join(quad, ".") else Join(quad, ".") + "/" + Itoa(n * 8)
  {
    PaddingRestores(quad, n);
    OctetsText(quad[..n]);
    AddressAndPrefix(Join(quad[..n], "."), "");
  }

  lemma ExpandedStays(quad: seq<string>, prefix: string)
    requires |quad| == 4 && AllOctets(quad) && ':' !in prefix
    ensures prefix != "" ==> Expanded(Join(quad, ".") + "/" + prefix) == Join(quad, ".") + "/" + prefix
    ensures Expanded(Join(quad, ".")) == Join(quad, ".")
  {
    OctetsText(quad);
    AddressAndPrefix(Join(quad, "."), prefix);
  }

  lemma ItoaHasNoColon(n: nat)
    requires n < 100
    ensures ':' !in Itoa(n) && Itoa(n) != ""
  {
    assert AllDigits(Digits(n));
  }

  /** Expanding what is expanded changes nothing, for any text. */
  lemma ExpandIsIdempotent(s: string)
    ensures Expanded(Expanded(s)) == Expanded(s)
  {
    var parts, prefix := Split(Address(s), '.'), Prefix(s);
    if ':' !in s && |parts| <= 4 && AllOctets(parts) {
      PaddedOctets(parts);
      assert ':' !in prefix;
      if prefix != "" {
        ExpandedStays(Padded(parts), prefix);
      } else if |parts| == 4 {
        ExpandedStays(parts, "");
      } else {
        ItoaHasNoColon(|parts| * 8);
        ExpandedStays(Padded(parts), Itoa(|parts| * 8));
      }
    }
  }

  /** On octets with a slash the two expansions agree exactly when a prefix follows. */
  lemma ExpansionsAgreeExactlyWhen(octets: seq<string>, prefix: string)
    requires Octets(octets) && ':' !in prefix
    ensures var s := Join(octets, ".") + "/" + prefix; Expanded(s) == NormalizedCidr(s) <==> prefix != ""
  {
    var addr := Join(octets, ".");
    OctetsText(octets);
    AddressAndPrefix(addr, prefix);
    var s := addr + "/" + prefix;
    assert s[|addr|] == '/' && '/' in s;
    if prefix == "" {
      PaddedOctets(octets);
      assert NormalizedCidr(s) == Join(Padded(octets), ".") + "/" + "";
      if |octets| == 4 {
        assert |Expanded(s)| < |NormalizedCidr(s)|;
      } else {
        ItoaHasNoColon(|octets| * 8);
        assert |Expanded(s)| > |NormalizedCidr(s)|;
      }
    }
  }

  /** What is no list of one to four numbers is left as it is. */
  lemma OthersPassThrough(s: string)
    requires var parts := Split(s[..IndexOf(s, '/')], '.');
             ':' in s || |parts| > 4 || "" in parts || exists p, c :: p in parts && c in p && !('0' <= c <= '9')
    ensures Expanded(s) == s
  {
    var parts := Split(Address(s), '.');
    if "" in parts {
      assert !IsOctet("");
    } else if p, c :| p in parts && c in p && !('0' <= c <= '9') {
      assert !IsDigit(c) && !IsOctet(p);
    }
  }

  function Zeros(n: nat): seq<string> { if n == 0 then [] else Zeros(n - 1) + ["0"] }

  lemma {:induction false} PaddedIs(parts: seq<string>, n: nat)
    ensures |parts| >= 4 ==> Padded(parts) == parts
    ensures n + |parts| == 4 ==> Padded(parts) == parts + Zeros(n)
    decreases n
  {
    if n + |parts| == 4 && n > 0 {
      PaddedIs(parts + ["0"], n - 1);
      ZerosFirst(n - 1);
      assert parts + ["0"] + Zeros(n - 1) == parts + (["0"] + Zeros(n - 1));
    }
  }

  lemma {:induction false} ZerosFirst(n: nat)
    ensures Zeros(n + 1) == ["0"] + Zeros(n)
    decreases n
  {
    if n > 0 {
      ZerosFirst(n - 1);
      assert ["0"] + (Zeros(n - 1) + ["0"]) == (["0"] + Zeros(n - 1)) + ["0"];
    }
  }

  /** A route without a mask is a host's, in either family. */
  lemma HostRoute(addr: string)
    requires '/' !in addr
    ensures ':' !in addr ==> NormalizedCidr(addr) == addr + "/32"
    ensures ':' in addr ==> NormalizedCidr(addr) == addr + "/128"
  {
  }

  lemma PaddedTells(parts: seq<string>)
    ensures Padded(parts) == if |parts| >= 4 then parts else parts + Zeros(4 - |parts|)
  {
    PaddedIs(parts, if |parts| < 4 then 4 - |parts| else 0);
  }

  lemma WithMask(addr: string, mask: string)
    requires '/' !in addr
    ensures var s := addr + "/" + mask; '/' in s && Address(s) == addr && Prefix(s) == mask
  {
    var s := addr + "/" + mask;
    AddressAndPrefix(addr, mask);
    assert s[|addr|] == '/';
  }

  /** With a mask, zeros are added up to four parts, and never to an IPv6 address. */
  lemma MaskedRoute(addr: string, mask: string)
    requires '/' !in addr
    ensures ':' in addr ==> NormalizedCidr(addr + "/" + mask) == addr + "/" + mask
    ensures ':' !in addr ==>
              var parts := Split(addr, '.');
              NormalizedCidr(addr + "/" + mask) ==
              Join(if |parts| >= 4 then parts else parts + Zeros(4 - |parts|), ".") + "/" + mask
  {
    WithMask(addr, mask);
    PaddedTells(Split(addr, '.'));
  }
}
