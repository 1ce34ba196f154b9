/** Which new routes are reported as conflicting with existing ones. */
module CidrConflict {
  import opened Wrappers
  import opened Text

  /** An address: its bits, the most significant first; 32 of them or 128. */
  type Bits = seq<bool>

  predicate IsAddress(x: Bits) { |x| == 32 || |x| == 128 }

  /** A network address, its host bits zero, and the length of its prefix. */
  datatype Network = Network(addr: Bits, len: nat)

  predicate IsNetwork(n: Network) {
    IsAddress(n.addr) && n.len <= |n.addr| && forall i :: n.len <= i < |n.addr| ==> !n.addr[i]
  }

  /** net.IPNet.Contains: the masked bits agree. */
  predicate Contains(n: Network, x: Bits) {
    |x| == |n.addr| && n.len <= |x| && x[..n.len] == n.addr[..n.len]
  }

  predicate CidrOverlaps(a: Network, b: Network) {
    |a.addr| == |b.addr| && (Contains(a, b.addr) || Contains(b, a.addr))
  }

  /** `a` lies within `b`. */
  ghost predicate Inside(a: Network, b: Network) { forall x :: Contains(a, x) ==> Contains(b, x) }

  lemma ContainsItself(a: Network)
    requires IsNetwork(a)
    ensures Contains(a, a.addr)
  {
  }

  /** The longer of two networks that share an address lies in the other. */
  lemma SharedIsNested(a: Network, b: Network, x: Bits)
    requires IsNetwork(a) && IsNetwork(b) && Contains(a, x) && Contains(b, x) && b.len <= a.len
    ensures Inside(a, b) && Contains(b, a.addr)
  {
    forall y | Contains(a, y)
      ensures Contains(b, y)
    {
      assert y[..b.len] == y[..a.len][..b.len] == x[..a.len][..b.len] == x[..b.len];
    }
    ContainsItself(a);
  }

  /** Networks overlap exactly when they share an address. */
  lemma OverlapIsSharing(a: Network, b: Network)
    requires IsNetwork(a) && IsNetwork(b)
    ensures CidrOverlaps(a, b) <==> exists x :: Contains(a, x) && Contains(b, x)
  {
    ContainsItself(a);
    ContainsItself(b);
    if x :| Contains(a, x) && Contains(b, x) {
      if b.len <= a.len {
        SharedIsNested(a, b, x);
      } else {
        SharedIsNested(b, a, x);
      }
    }
  }

  /** Prefixes are nested or disjoint. */
  lemma NestedOrDisjoint(a: Network, b: Network)
    requires IsNetwork(a) && IsNetwork(b)
    ensures Inside(a, b) || Inside(b, a) || forall x :: !(Contains(a, x) && Contains(b, x))
  {
    if x :| Contains(a, x) && Contains(b, x) {
      if b.len <= a.len {
        SharedIsNested(a, b, x);
      } else {
        SharedIsNested(b, a, x);
      }
    }
  }

  // ---------------------------------------------------------------------
  // Suppression
  // ---------------------------------------------------------------------

  /** The new network is taken to lie strictly inside the existing one. */
  predicate Suppressed(new_: Network, existing: Network) {
    Contains(existing, new_.addr) && !Contains(new_, existing.addr)
  }

  /** A suppressed pair is nested, the new prefix strictly longer; of such pairs
      all are suppressed but those with the same network address. */
  lemma SuppressedExactlyWhen(new_: Network, existing: Network)
    requires IsNetwork(new_) && IsNetwork(existing)
    ensures Suppressed(new_, existing) <==>
            Inside(new_, existing) && existing.len < new_.len && new_.addr != existing.addr
  {
    ContainsItself(new_);
    ContainsItself(existing);
    if Contains(existing, new_.addr) {
      if existing.len < new_.len {
        SharedIsNested(new_, existing, new_.addr);
        if Contains(new_, existing.addr) {
          SameAddress(new_, existing);
        }
      } else {
        SharedIsNested(existing, new_, new_.addr);
      }
    }
  }

  lemma SameAddress(a: Network, b: Network)
    requires IsNetwork(a) && IsNetwork(b) && Contains(a, b.addr) && b.len <= a.len
    ensures a.addr == b.addr
  {
    forall i | 0 <= i < |a.addr|
      ensures a.addr[i] == b.addr[i]
    {
      if i < a.len {
        assert a.addr[i] == a.addr[..a.len][i] == b.addr[..a.len][i];
      }
    }
  }

  /** 10.0.0.0 in bits. */
  function TenNet(): Bits { seq(32, i => i == 4 || i == 6) }

  /** Ten is 00001010. */
  lemma TenInBits()
    ensures |TenNet()| == 32 && TenNet()[..8] == [false, false, false, false, true, false, true, false]
    ensures forall i :: 8 <= i < 32 ==> !TenNet()[i]
  {
  }

  /** An address of either family, with all its bits as the prefix, is a network of one. */
  lemma HostsAreNetworks(x: Bits, y: Bits)
    requires |x| == 32 || |x| == 128
    ensures IsNetwork(Network(x, |x|)) && (Contains(Network(x, |x|), y) <==> y == x)
  {
  }

  /** 10.0.0.0/24 lies strictly inside 10.0.0.0/8 and is not suppressed. */
  lemma SameAddressIsReported()
    ensures var new_, existing := Network(TenNet(), 24), Network(TenNet(), 8);
            && IsNetwork(new_) && IsNetwork(existing) && Inside(new_, existing) && existing.len < new_.len
            && !Suppressed(new_, existing)
  {
    var new_, existing := Network(TenNet(), 24), Network(TenNet(), 8);
    ContainsItself(new_);
    assert Contains(existing, new_.addr);
    SharedIsNested(new_, existing, new_.addr);
    SuppressedExactlyWhen(new_, existing);
  }

  // ---------------------------------------------------------------------
  // Longest-prefix match (section 5.1 of RFC 4632)
  // ---------------------------------------------------------------------

  /** A route that the kernel may choose for an address: none that matches is longer. */
  predicate Chosen(table: seq<Network>, r: Network, x: Bits) {
    && r in table && Contains(r, x)
    && forall i :: 0 <= i < |table| && Contains(table[i], x) ==> table[i].len <= r.len
  }

  /** The new route of a suppressed pair beats the existing one, for each of its
      addresses and wherever the two stand in the table. */
  lemma SuppressedNewWins(new_: Network, existing: Network, table: seq<Network>, r: Network, x: Bits)
    requires IsNetwork(new_) && IsNetwork(existing) && Suppressed(new_, existing)
    requires new_ in table && Contains(new_, x) && Chosen(table, r, x)
    ensures r != existing && r.len >= new_.len
  {
    SuppressedExactlyWhen(new_, existing);
    var i :| 0 <= i < |table| && table[i] == new_;
    assert Contains(table[i], x);
  }

  // ---------------------------------------------------------------------
  // Reporting
  // ---------------------------------------------------------------------

  /** What parsing makes of a route's text: None when it is no network. */
  type Parser = p: string -> Option<Network> | forall s :: p(s).Some? ==> IsNetwork(p(s).value) witness NoNetwork

  function NoNetwork(s: string): Option<Network> { None }

  predicate Conflicts(parse: string -> Option<Network>, new_: string, existing: string) {
    && parse(new_).Some? && parse(existing).Some?
    && CidrOverlaps(parse(new_).value, parse(existing).value) && !Suppressed(parse(new_).value, parse(existing).value)
  }

  /** The first existing route, if any, that a new one conflicts with. */
  function FirstConflict(parse: string -> Option<Network>, new_: string, existing: seq<string>): Option<string> {
    if existing == [] then None
    else if Conflicts(parse, new_, existing[0]) then Some(existing[0])
    else FirstConflict(parse, new_, existing[1..])
  }

  datatype Report = Report(new_: string, existing: string)

  predicate Reported(rs: seq<Report>, new_: string) { exists i :: 0 <= i < |rs| && rs[i].new_ == new_ }

  /** The reports: for each new route that has a conflict, one, with the first. */
  function Reports(parse: string -> Option<Network>, newIPs: seq<string>, existing: seq<string>): seq<Report> {
    if newIPs == [] then []
    else
      var before, last := Reports(parse, newIPs[..|newIPs| - 1], existing), newIPs[|newIPs| - 1];
      var c := FirstConflict(parse, last, existing);
      if c.None? || Reported(before, last) then before else before + [Report(last, c.value)]
  }

  /** One new route against the existing ones. */
  method CheckAgainst(parse: string -> Option<Network>, newCIDR: string, existing: seq<string>,
                      overlaps: seq<Report>, seen: set<string>)
    returns (r: seq<Report>, seen': set<string>)
    requires forall n :: n in seen <==> Reported(overlaps, n)
    ensures var c := FirstConflict(parse, newCIDR, existing);
            && r == (if c.None? || newCIDR in seen then overlaps else overlaps + [Report(newCIDR, c.value)])
            && seen' == if c.None? then seen else seen + {newCIDR}
  {
    r, seen' := overlaps, seen;
    var newNet := parse(newCIDR);
    if newNet.None? {
      NoConflictWhenUnparsed(parse, newCIDR, existing);
      return;
    }
    for n := 0 to |existing|
      invariant var c := FirstConflict(parse, newCIDR, existing[..n]);
                && r == (if c.None? || newCIDR in seen then overlaps else overlaps + [Report(newCIDR, c.value)])
                && seen' == if c.None? then seen else seen + {newCIDR}
    {
      var existCIDR := existing[n];
      FirstConflictMore(parse, newCIDR, existing, n);
      var existNet := parse(existCIDR);
      if existNet.None? {
        continue;
      }
      if !CidrOverlaps(newNet.value, existNet.value) {
        continue;
      }
      if Contains(existNet.value, newNet.value.addr) && !Contains(newNet.value, existNet.value.addr) {
        continue;
      }
      if newCIDR in seen' {
        assert seen' + {newCIDR} == seen';
        continue;
      }
      r := r + [Report(newCIDR, existCIDR)];
      seen' := seen' + {newCIDR};
    }
    assert existing[..|existing|] == existing;
  }

  lemma {:induction false} NoConflictWhenUnparsed(parse: string -> Option<Network>, new_: string, existing: seq<string>)
    requires parse(new_).None?
    ensures FirstConflict(parse, new_, existing) == None
    decreases |existing|
  {
    if existing != [] {
      NoConflictWhenUnparsed(parse, new_, existing[1..]);
    }
  }

  lemma {:induction false} FirstConflictAppend(parse: string -> Option<Network>, new_: string, a: seq<string>, b: string)
    ensures FirstConflict(parse, new_, a + [b]) ==
            if FirstConflict(parse, new_, a).Some? then FirstConflict(parse, new_, a)
            else if Conflicts(parse, new_, b) then Some(b) else None
    decreases |a|
  {
    if a != [] {
      assert (a + [b])[1..] == a[1..] + [b];
      FirstConflictAppend(parse, new_, a[1..], b);
    }
  }

  lemma FirstConflictMore(parse: string -> Option<Network>, new_: string, existing: seq<string>, n: nat)
    requires n < |existing|
    ensures FirstConflict(parse, new_, existing[..n + 1]) ==
            if FirstConflict(parse, new_, existing[..n]).Some? then FirstConflict(parse, new_, existing[..n])
            else if Conflicts(parse, new_, existing[n]) then Some(existing[n]) else None
  {
    assert existing[..n + 1] == existing[..n] + [existing[n]];
    FirstConflictAppend(parse, new_, existing[..n], existing[n]);
  }

  method FindOverlaps(parse: string -> Option<Network>, newIPs: seq<string>, existingIPs: seq<string>) returns (overlaps: seq<Report>)
    ensures overlaps == Reports(parse, newIPs, existingIPs)
  {
    overlaps := [];
    var seen := {};
    for n := 0 to |newIPs|
      invariant overlaps == Reports(parse, newIPs[..n], existingIPs)
      invariant forall s :: s in seen <==> Reported(overlaps, s)
    {
      assert newIPs[..n + 1][..n] == newIPs[..n];
      ghost var was := overlaps;
      overlaps, seen := CheckAgainst(parse, newIPs[n], existingIPs, overlaps, seen);
      if overlaps != was {
        ReportedMore(was, overlaps[|was|]);
      }
    }
    assert newIPs[..|newIPs|] == newIPs;
  }

  lemma ReportedMore(rs: seq<Report>, r: Report)
    ensures forall n :: Reported(rs + [r], n) <==> Reported(rs, n) || n == r.new_
  {
    forall n | Reported(rs, n)
      ensures Reported(rs + [r], n)
    {
      var i :| 0 <= i < |rs| && rs[i].new_ == n;
      assert (rs + [r])[i] == rs[i];
    }
    assert (rs + [r])[|rs|] == r;
  }

  /** Two routes clash when they share an address, unless the new one is the more
      specific and has another network address. */
  ghost predicate Clash(parse: string -> Option<Network>, new_: string, existing: string) {
    && parse(new_).Some? && parse(existing).Some?
    && var n, e := parse(new_).value, parse(existing).value;
       && (exists x :: Contains(n, x) && Contains(e, x))
       && !(Inside(n, e) && e.len < n.len && n.addr != e.addr)
  }

  lemma ConflictIsClash(parse: Parser, new_: string, existing: string)
    ensures Conflicts(parse, new_, existing) <==> Clash(parse, new_, existing)
  {
    if parse(new_).Some? && parse(existing).Some? {
      OverlapIsSharing(parse(new_).value, parse(existing).value);
      SuppressedExactlyWhen(parse(new_).value, parse(existing).value);
    }
  }

  /** The existing route is the first that the new one clashes with. */
  ghost predicate IsFirstClash(parse: string -> Option<Network>, new_: string, existing: seq<string>, e: string) {
    exists i :: 0 <= i < |existing| && existing[i] == e && Clash(parse, new_, e)
                && forall j :: 0 <= j < i ==> !Clash(parse, new_, existing[j])
  }

  lemma {:induction false} FirstConflictIs(parse: Parser, new_: string, existing: seq<string>)
    ensures var c := FirstConflict(parse, new_, existing);
            && (c.None? ==> forall e :: e in existing ==> !Clash(parse, new_, e))
            && (c.Some? ==> IsFirstClash(parse, new_, existing, c.value))
    decreases |existing|
  {
    if existing != [] {
      ConflictIsClash(parse, new_, existing[0]);
      FirstConflictIs(parse, new_, existing[1..]);
      var c := FirstConflict(parse, new_, existing[1..]);
      if !Conflicts(parse, new_, existing[0]) && c.Some? {
        var i :| 0 <= i < |existing[1..]| && existing[1..][i] == c.value
                 && forall j :: 0 <= j < i ==> !Clash(parse, new_, existing[1..][j]);
        assert existing[i + 1] == c.value;
        forall j | 0 <= j < i + 1
          ensures !Clash(parse, new_, existing[j])
        {
          assert j > 0 ==> existing[j] == existing[1..][j - 1];
        }
      }
    }
  }

  ghost predicate HasClash(parse: string -> Option<Network>, new_: string, existing: seq<string>) {
    exists e :: e in existing && Clash(parse, new_, e)
  }

  /** Each new route is reported at most once, exactly when it clashes with an
      existing one, and then with the first of these. */
  lemma {:induction false} ReportsTell(parse: Parser, newIPs: seq<string>, existing: seq<string>)
    ensures var rs := Reports(parse, newIPs, existing);
            && (forall i, j :: 0 <= i < j < |rs| ==> rs[i].new_ != rs[j].new_)
            && (forall n :: Reported(rs, n) <==> n in newIPs && HasClash(parse, n, existing))
            && (forall i :: 0 <= i < |rs| ==> IsFirstClash(parse, rs[i].new_, existing, rs[i].existing))
    decreases |newIPs|
  {
    if newIPs != [] {
      var before, last := newIPs[..|newIPs| - 1], newIPs[|newIPs| - 1];
      var rs, c := Reports(parse, before, existing), FirstConflict(parse, last, existing);
      ReportsTell(parse, before, existing);
      FirstConflictIs(parse, last, existing);
      InitAndLast(newIPs);
      assert forall n :: n in newIPs <==> n in before || n == last;
      assert c.Some? <==> HasClash(parse, last, existing);
      if c.Some? && !Reported(rs, last) {
        ReportedMore(rs, Report(last, c.value));
      }
    }
  }

  /** The reports come in the order of the new routes. */
  lemma {:induction false} ReportsInOrder(parse: Parser, a: seq<string>, b: seq<string>, existing: seq<string>)
    ensures Reports(parse, a, existing) <= Reports(parse, a + b, existing)
    decreases |b|
  {
    if b == [] {
      assert a + b == a;
    } else {
      ReportsInOrder(parse, a, b[..|b| - 1], existing);
      assert (a + b)[..|a + b| - 1] == a + b[..|b| - 1];
    }
  }

  lemma ReportedShareAnAddress(parse: Parser, newIPs: seq<string>, existing: seq<string>, i: nat)
    requires i < |Reports(parse, newIPs, existing)|
    ensures var r := Reports(parse, newIPs, existing)[i];
            && r.new_ in newIPs && r.existing in existing && parse(r.new_).Some? && parse(r.existing).Some?
            && exists x :: Contains(parse(r.new_).value, x) && Contains(parse(r.existing).value, x)
  {
    ReportsTell(parse, newIPs, existing);
    var rs := Reports(parse, newIPs, existing);
    assert Reported(rs, rs[i].new_) && IsFirstClash(parse, rs[i].new_, existing, rs[i].existing);
  }
}
