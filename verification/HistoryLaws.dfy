/** The fast path of the reconciler is sound, and the history it keeps is a
    ledger: over any run of events. */
module HistoryLaws {
  import opened Wrappers
  import opened Text
  import opened HistoryReconciler
  import StringOrder

  // ---------------------------------------------------------------------
  // The signature determines what it signs
  // ---------------------------------------------------------------------

  /** Names that the two halves of a signature do not confuse. */
  predicate CleanName(name: string) { NUL !in name && ';' !in name }

  /** What the storage admits in a tunnel name. */
  predicate IsNameChar(c: char) { 'a' <= c <= 'z' || 'A' <= c <= 'Z' || '0' <= c <= '9' || c == '-' || c == '_' || c == ' ' }

  lemma ValidNamesAreClean(name: string)
    requires forall i :: 0 <= i < |name| ==> IsNameChar(name[i])
    ensures CleanName(name)
  {
  }

  predicate CleanNames(names: seq<string>) { forall i :: 0 <= i < |names| ==> CleanName(names[i]) }

  lemma {:induction false} NonEmptyMembers(names: seq<string>)
    ensures forall n :: n in NonEmptyNames(names) <==> n in names && n != ""
    decreases |names|
  {
    if names != [] {
      NonEmptyMembers(names[..|names| - 1]);
      InitAndLast(names);
    }
  }

  lemma SortedMembers(names: seq<string>)
    ensures forall n :: n in StringOrder.Sort(NonEmptyNames(names)) <==> n in Active(names)
  {
    NonEmptyMembers(names);
    StringOrder.SortKeepsMembers(NonEmptyNames(names));
  }

  lemma SortedIsClean(names: seq<string>)
    requires CleanNames(names)
    ensures var parts := StringOrder.Sort(NonEmptyNames(names));
            Free(parts, NUL) && (forall i :: 0 <= i < |parts| ==> parts[i] != "")
  {
    SortedMembers(names);
    var parts := StringOrder.Sort(NonEmptyNames(names));
    forall i | 0 <= i < |parts|
      ensures parts[i] != "" && CleanName(parts[i])
    {
      assert parts[i] in parts;
    }
  }

  lemma {:induction false} JoinIsNotEmpty(parts: seq<string>, c: char)
    requires parts != [] && forall i :: 0 <= i < |parts| ==> parts[i] != ""
    ensures Join(parts, [c]) != ""
  {
    if |parts| > 1 {
      assert |Join(parts, [c])| >= |parts[0]|;
    }
  }

  lemma JoinIsInjective(a: seq<string>, b: seq<string>, c: char)
    requires Free(a, c) && Free(b, c) && Join(a, [c]) == Join(b, [c])
    requires (forall i :: 0 <= i < |a| ==> a[i] != "") && (forall i :: 0 <= i < |b| ==> b[i] != "")
    ensures a == b
  {
    if a != [] {
      JoinIsNotEmpty(a, c);
      SplitOfJoin(a, c);
    }
    if b != [] {
      JoinIsNotEmpty(b, c);
      SplitOfJoin(b, c);
    }
  }

  /** The names and handshakes that the second half of a signature lists. */
  function Flags(names: seq<string>, handshakes: map<string, bool>): seq<(string, bool)> {
    if names == [] then []
    else
      var last := names[|names| - 1];
      Flags(names[..|names| - 1], handshakes) + if last != "" then [(last, Shook(handshakes, last))] else []
  }

  function Listing(flags: seq<(string, bool)>): string {
    if flags == [] then ""
    else Listing(flags[..|flags| - 1]) + (Pair(flags[|flags| - 1].0, flags[|flags| - 1].1) + ";")
  }

  lemma {:induction false} PairsListFlags(names: seq<string>, handshakes: map<string, bool>)
    ensures Pairs(names, handshakes) == Listing(Flags(names, handshakes))
    decreases |names|
  {
    if names != [] {
      var rest, last := names[..|names| - 1], names[|names| - 1];
      PairsListFlags(rest, handshakes);
      if last != "" {
        assert Flags(names, handshakes)[..|Flags(rest, handshakes)|] == Flags(rest, handshakes);
      } else {
        assert Pairs(rest, handshakes) + "" == Pairs(rest, handshakes);
        assert Flags(rest, handshakes) + [] == Flags(rest, handshakes);
      }
    }
  }

  lemma {:induction false} FlagsTell(names: seq<string>, handshakes: map<string, bool>)
    ensures forall n, b :: (n, b) in Flags(names, handshakes) <==> n in Active(names) && b == Shook(handshakes, n)
    decreases |names|
  {
    if names != [] {
      FlagsTell(names[..|names| - 1], handshakes);
      InitAndLast(names);
    }
  }

  predicate CleanFlags(flags: seq<(string, bool)>) { forall i :: 0 <= i < |flags| ==> ';' !in flags[i].0 }

  predicate EndsItem(s: string) { s == "" || s[|s| - 1] == ';' }

  lemma ListingEndsItem(flags: seq<(string, bool)>)
    ensures EndsItem(Listing(flags)) && (flags != [] ==> Listing(flags) != "")
  {
  }

  function Items(flags: seq<(string, bool)>): seq<string> {
    seq(|flags|, i requires 0 <= i < |flags| => Pair(flags[i].0, flags[i].1))
  }

  lemma LastOfEmpty(parts: seq<string>, item: string)
    ensures LastExtended(parts + [""], item) == parts + [item]
  {
    assert "" + item == item && (parts + [""])[..|parts|] == parts;
  }

  lemma ItemsMore(flags: seq<(string, bool)>)
    requires flags != []
    ensures Items(flags) == Items(flags[..|flags| - 1]) + [Pair(flags[|flags| - 1].0, flags[|flags| - 1].1)]
  {
  }

  /** A listing splits into its items. */
  lemma {:induction false} SplitOfListing(flags: seq<(string, bool)>)
    requires CleanFlags(flags)
    ensures Split(Listing(flags), ';') == Items(flags) + [""]
    decreases |flags|
  {
    if flags != [] {
      var rest, last := flags[..|flags| - 1], flags[|flags| - 1];
      var before, item := Listing(rest), Pair(last.0, last.1);
      SplitOfListing(rest);
      SplitSuffix(before, ';', item);
      LastOfEmpty(Items(rest), item);
      assert before + (item + ";") == (before + item) + [';'] + "";
      SplitAppend(before + item, ';', "");
      ItemsMore(flags);
    }
  }

  lemma PairIsInjective(m: string, a: bool, n: string, b: bool)
    requires Pair(m, a) == Pair(n, b)
    ensures m == n && a == b
  {
    var s, t := Pair(m, a), Pair(n, b);
    assert s[|s| - 1] == (if a then '1' else '0') && t[|t| - 1] == if b then '1' else '0';
    assert s[..|s| - 2] == m && t[..|t| - 2] == n;
  }

  lemma ListingIsInjective(a: seq<(string, bool)>, b: seq<(string, bool)>)
    requires CleanFlags(a) && CleanFlags(b) && Listing(a) == Listing(b)
    ensures a == b
  {
    SplitOfListing(a);
    SplitOfListing(b);
    assert Items(a) == (Items(a) + [""])[..|a|] && Items(b) == (Items(b) + [""])[..|b|];
    assert |a| == |b|;
    forall i | 0 <= i < |a|
      ensures a[i] == b[i]
    {
      assert Items(a)[i] == Items(b)[i];
      PairIsInjective(a[i].0, a[i].1, b[i].0, b[i].1);
    }
  }

  lemma {:induction false} FlagsAreClean(names: seq<string>, handshakes: map<string, bool>)
    requires CleanNames(names)
    ensures CleanFlags(Flags(names, handshakes))
    decreases |names|
  {
    if names != [] {
      FlagsAreClean(names[..|names| - 1], handshakes);
    }
  }

  /** What the reconciler can tell from two events. */
  ghost predicate Alike(e: Status, f: Status) {
    && Active(e.names) == Active(f.names)
    && (e.handshakes.None? <==> f.handshakes.None?)
    && (e.handshakes.Some? ==>
          forall n :: n in Active(e.names) ==> Shook(e.handshakes.value, n) == Shook(f.handshakes.value, n))
  }

  lemma HandshakesTell(e: Status, f: Status)
    requires CleanNames(e.names) && CleanNames(f.names)
    requires HandshakeSignature(e.names, e.handshakes) == HandshakeSignature(f.names, f.handshakes)
    ensures e.handshakes.None? <==> f.handshakes.None?
    ensures e.handshakes.Some? ==>
              Active(e.names) == Active(f.names)
              && forall n :: n in Active(e.names) ==> Shook(e.handshakes.value, n) == Shook(f.handshakes.value, n)
  {
    if e.handshakes.Some? {
      PairsListFlags(e.names, e.handshakes.value);
      ListingEndsItem(Flags(e.names, e.handshakes.value));
    }
    if f.handshakes.Some? {
      PairsListFlags(f.names, f.handshakes.value);
      ListingEndsItem(Flags(f.names, f.handshakes.value));
    }
    assert !EndsItem("-");
    if e.handshakes.Some? && f.handshakes.Some? {
      FlagsAreClean(e.names, e.handshakes.value);
      FlagsAreClean(f.names, f.handshakes.value);
      ListingIsInjective(Flags(e.names, e.handshakes.value), Flags(f.names, f.handshakes.value));
      FlagsTell(e.names, e.handshakes.value);
      FlagsTell(f.names, f.handshakes.value);
      SameFlags(e.names, e.handshakes.value, f.names, f.handshakes.value);
    }
  }

  lemma SameFlags(a: seq<string>, g: map<string, bool>, b: seq<string>, h: map<string, bool>)
    requires Flags(a, g) == Flags(b, h)
    ensures Active(a) == Active(b) && forall n :: n in Active(a) ==> Shook(g, n) == Shook(h, n)
  {
    FlagsTell(a, g);
    FlagsTell(b, h);
    forall n | n in Active(a) ensures n in Active(b) && Shook(g, n) == Shook(h, n) {
      assert (n, Shook(g, n)) in Flags(a, g);
    }
    forall n | n in Active(b) ensures n in Active(a) {
      assert (n, Shook(h, n)) in Flags(b, h);
    }
  }

  lemma {:induction false} PairsLength(names: seq<string>, handshakes: map<string, bool>)
    ensures |Pairs(names, handshakes)| == Total(NonEmptyNames(names)) + 3 * |NonEmptyNames(names)|
    decreases |names|
  {
    if names != [] {
      PairsLength(names[..|names| - 1], handshakes);
      TotalMore(NonEmptyNames(names[..|names| - 1]), names[|names| - 1]);
      assert NonEmptyNames(names[..|names| - 1]) + [] == NonEmptyNames(names[..|names| - 1]);
    }
  }

  lemma {:induction false} PairsLackNul(names: seq<string>, handshakes: map<string, bool>)
    requires CleanNames(names)
    ensures NUL !in Pairs(names, handshakes)
    decreases |names|
  {
    if names != [] {
      PairsLackNul(names[..|names| - 1], handshakes);
    }
  }

  function AtLeastOne(n: nat): nat { if n == 0 then 1 else n }

  /** What a signature is made of: its NULs give the number of names, and its
      length then how much of it lists them sorted. */
  lemma SignatureShape(e: Status)
    requires CleanNames(e.names)
    ensures var names, a, h := NonEmptyNames(e.names), ActiveSetSignature(e.names), HandshakeSignature(e.names, e.handshakes);
            && |Split(Signature(e), NUL)| == AtLeastOne(|names|)
            && |a| == Total(names) + AtLeastOne(|names|) - 1
            && |h| == (if e.handshakes.None? then 1 else Total(names) + 3 * |names|)
            && (|names| > 0 <==> Total(names) > 0)
  {
    ActiveShape(e.names);
    HandshakeShape(e);
    SplitOfHalves(ActiveSetSignature(e.names), HandshakeSignature(e.names, e.handshakes));
  }

  lemma SplitOfHalves(a: string, h: string)
    requires NUL !in h
    ensures |Split(a + "|" + h, NUL)| == |Split(a, NUL)|
  {
    assert a + "|" + h == a + ("|" + h);
    SplitSuffix(a, NUL, "|" + h);
  }

  lemma ActiveShape(all: seq<string>)
    requires CleanNames(all)
    ensures var names, a := NonEmptyNames(all), ActiveSetSignature(all);
            && |Split(a, NUL)| == AtLeastOne(|names|) && |a| == Total(names) + AtLeastOne(|names|) - 1
            && (|names| > 0 <==> Total(names) > 0)
  {
    var parts := StringOrder.Sort(NonEmptyNames(all));
    StringOrder.SortKeepsSize(NonEmptyNames(all));
    SortedIsClean(all);
    JoinLength(parts, [NUL]);
    if parts != [] {
      SplitOfJoin(parts, NUL);
    }
  }

  lemma HandshakeShape(e: Status)
    requires CleanNames(e.names)
    ensures var names, h := NonEmptyNames(e.names), HandshakeSignature(e.names, e.handshakes);
            NUL !in h && |h| == (if e.handshakes.None? then 1 else Total(names) + 3 * |names|)
  {
    if e.handshakes.Some? {
      PairsLength(e.names, e.handshakes.value);
      PairsLackNul(e.names, e.handshakes.value);
    }
  }

  lemma SignatureKind(e: Status)
    ensures var s := Signature(e); s != "" && (e.handshakes.None? <==> s[|s| - 1] == '-')
  {
    if e.handshakes.Some? {
      PairsListFlags(e.names, e.handshakes.value);
      ListingEndsItem(Flags(e.names, e.handshakes.value));
    }
  }

  lemma CutInTwo(a: string, x: string, b: string, y: string)
    requires a + "|" + x == b + "|" + y && |a| == |b|
    ensures a == b && x == y
  {
    assert (a + "|" + x)[..|a|] == a && (b + "|" + y)[..|b|] == b;
    assert (a + "|" + x)[|a| + 1..] == x && (b + "|" + y)[|b| + 1..] == y;
  }

  /** The same count of names and the same length: the same cut. */
  lemma SameCut(n: nat, t: nat, n': nat, t': nat, listed: bool)
    requires AtLeastOne(n) == AtLeastOne(n') && (n > 0 <==> t > 0) && (n' > 0 <==> t' > 0)
    requires t + AtLeastOne(n) + (if listed then t + 3 * n else 1) == t' + AtLeastOne(n') + (if listed then t' + 3 * n' else 1)
    ensures t == t'
  {
  }

  lemma SameHalves(e: Status, f: Status)
    requires CleanNames(e.names) && CleanNames(f.names) && Signature(e) == Signature(f)
    ensures ActiveSetSignature(e.names) == ActiveSetSignature(f.names)
    ensures HandshakeSignature(e.names, e.handshakes) == HandshakeSignature(f.names, f.handshakes)
  {
    SignatureShape(e);
    SignatureShape(f);
    SignatureKind(e);
    SignatureKind(f);
    var m, n := NonEmptyNames(e.names), NonEmptyNames(f.names);
    SameCut(|m|, Total(m), |n|, Total(n), e.handshakes.Some?);
    CutInTwo(ActiveSetSignature(e.names), HandshakeSignature(e.names, e.handshakes),
             ActiveSetSignature(f.names), HandshakeSignature(f.names, f.handshakes));
  }

  /** Events with clean names and the same signature are alike. */
  lemma SignatureTells(e: Status, f: Status)
    requires CleanNames(e.names) && CleanNames(f.names) && Signature(e) == Signature(f)
    ensures Alike(e, f)
  {
    SameHalves(e, f);
    SortedIsClean(e.names);
    SortedIsClean(f.names);
    JoinIsInjective(StringOrder.Sort(NonEmptyNames(e.names)), StringOrder.Sort(NonEmptyNames(f.names)), NUL);
    SortedMembers(e.names);
    SortedMembers(f.names);
    HandshakesTell(e, f);
  }

  lemma TwoNames(m: string, n: string, g: map<string, bool>)
    requires m != "" && n != "" && m != n
    ensures NonEmptyNames([m, n]) == [m, n]
    ensures Pairs([m, n], g) == (Pair(m, Shook(g, m)) + ";") + (Pair(n, Shook(g, n)) + ";")
    ensures ActiveSetSignature([m, n]) == ActiveSetSignature([n, m])
  {
    forall a: string, b: string | a != "" && b != "" ensures NonEmptyNames([a, b]) == [a, b] {
      assert [a, b][..1] == [a] && [a][..0] == [] && NonEmptyNames([]) == [] && NonEmptyNames([a]) == [a];
    }
    assert [m, n][..1] == [m] && [m][..0] == [] && Pairs([], g) == "" && Pairs([m], g) == Pair(m, Shook(g, m)) + ";";
    StringOrder.SortIsAscending([m, n]);
    StringOrder.SortIsAscending([n, m]);
    StringOrder.SortKeepsMembers([m, n]);
    StringOrder.SortKeepsMembers([n, m]);
    StringOrder.AscendingIsUnique(StringOrder.Sort([m, n]), StringOrder.Sort([n, m]));
  }

  lemma SameText(m: string)
    ensures var n := m + "=0;" + m;
            (Pair(m, false) + ";") + (Pair(n, true) + ";") == (Pair(n, false) + ";") + (Pair(m, true) + ";")
  {
    var zero, one := m + "=0;", m + "=1;";
    assert Pair(m, false) + ";" == zero && Pair(m, true) + ";" == one;
    var n := m + "=0;" + m;
    assert Pair(n, true) + ";" == zero + one && Pair(n, false) + ";" == zero + zero;
    assert zero + (zero + one) == (zero + zero) + one;
  }

  /** With a semicolon in a name the handshakes are not told apart, whatever the other name. */
  lemma SemicolonConfuses(m: string) returns (e: Status, f: Status)
    requires m != ""
    ensures Signature(e) == Signature(f) && !Alike(e, f)
  {
    var n := m + "=0;" + m;
    assert |n| > |m|;
    var g, h := map[m := false, n := true], map[m := true, n := false];
    e, f := Status([m, n], Some(g), map[], map[], ""), Status([n, m], Some(h), map[], map[], "");
    TwoNames(m, n, g);
    TwoNames(n, m, h);
    SameText(m);
    assert m in Active(e.names) && Shook(g, m) != Shook(h, m);
  }

  // ---------------------------------------------------------------------
  // The fast path
  // ---------------------------------------------------------------------

  /** Every active tunnel is tracked as after the event, and no other. */
  ghost predicate Settled(s: State, e: Status) {
    && s.active.Keys <= Active(e.names) && s.pending <= Active(e.names)
    && forall n :: n in Active(e.names) && n !in s.active ==>
         n in s.pending && e.handshakes.Some? && !Shook(e.handshakes.value, n)
  }

  lemma {:induction false} OpeningSettles(s: State, names: seq<string>, handshakes: Option<map<string, bool>>)
    ensures var o := Opened(s, names, handshakes);
            && o.active.Keys <= s.active.Keys + Active(names) && o.pending <= s.pending + Active(names)
            && s.active.Keys <= o.active.Keys
            && forall n :: n in Active(names) && n !in o.active ==>
                 n in o.pending && handshakes.Some? && !Shook(handshakes.value, n)
    decreases |names|
  {
    if names != [] {
      OpeningSettles(s, names[..|names| - 1], handshakes);
      InitAndLast(names);
    }
  }

  lemma DiffSettles(s: State, e: Status)
    ensures Settled(Diffed(s, e), e)
  {
    var w := WithoutVanished(s, Active(e.names), DefaultReason(e.reason));
    OpeningSettles(w, e.names, e.handshakes);
  }

  lemma {:induction false} OpeningNothing(s: State, names: seq<string>, handshakes: Option<map<string, bool>>)
    requires forall n :: n in Active(names) && n !in s.active ==>
               n in s.pending && handshakes.Some? && !Shook(handshakes.value, n)
    ensures Opened(s, names, handshakes) == s
    decreases |names|
  {
    if names != [] {
      InitAndLast(names);
      OpeningNothing(s, names[..|names| - 1], handshakes);
      var last := names[|names| - 1];
      if last != "" && last !in s.active {
        assert last in Active(names);
        assert s.pending + {last} == s.pending;
      }
    }
  }

  /** When an event is like the one the state has settled on, the whole diff
      opens, closes and drops nothing. */
  lemma DiffOfSettled(s: State, e: Status, f: Status)
    requires Settled(s, e) && Alike(e, f)
    ensures Diffed(s, f) == s
  {
    var names := Active(f.names);
    assert s.active.Keys - names == {};
    ClosingNone(s, DefaultReason(f.reason));
    assert s.pending * names == s.pending;
    OpeningNothing(s, f.names, f.handshakes);
  }

  // ---------------------------------------------------------------------
  // Runs
  // ---------------------------------------------------------------------

  function Run(es: seq<Event>): State {
    if es == [] then INITIAL else Step(Run(es[..|es| - 1]), es[|es| - 1])
  }

  predicate CleanEvents(es: seq<Event>) { forall i :: 0 <= i < |es| && es[i].Reported? ==> CleanNames(es[i].status.names) }

  /** The last status event. */
  function LastStatus(es: seq<Event>): Option<Status> {
    if es == [] then None
    else if es[|es| - 1].Reported? then Some(es[|es| - 1].status)
    else LastStatus(es[..|es| - 1])
  }

  lemma {:induction false} LastIsClean(es: seq<Event>)
    requires CleanEvents(es) && LastStatus(es).Some?
    ensures CleanNames(LastStatus(es).value.names)
    decreases |es|
  {
    if es[|es| - 1].Reported? {
      assert CleanNames(es[|es| - 1].status.names);
    } else {
      LastIsClean(es[..|es| - 1]);
    }
  }

  lemma SignatureHasBar(e: Status)
    ensures Signature(e) != ""
  {
  }

  /** After every run the state has settled on the last status event. */
  lemma {:induction false} RunSettles(es: seq<Event>)
    requires CleanEvents(es)
    ensures match LastStatus(es)
            case None => Run(es).lastSig == "" && Run(es).active == map[]
            case Some(e) => Run(es).lastSig == Signature(e) && Settled(Run(es), e)
    decreases |es|
  {
    if es != [] {
      var before, last := es[..|es| - 1], es[|es| - 1];
      RunSettles(before);
      match last
      case Reported(f) =>
        SignatureHasBar(f);
        if Signature(f) == Run(before).lastSig {
          LastIsClean(before);
          LastIsClean(es);
          SignatureTells(LastStatus(before).value, f);
        } else {
          OpenedKeepsSignature(WithoutVanished(Refresh(Run(before), f), Active(f.names), DefaultReason(f.reason)), f.names, f.handshakes);
          DiffSettles(Refresh(Run(before), f), f);
        }
      case _ =>
    }
  }

  lemma {:induction false} OpenedKeepsSignature(s: State, names: seq<string>, handshakes: Option<map<string, bool>>)
    ensures Opened(s, names, handshakes).lastSig == s.lastSig
    ensures Opened(s, names, handshakes).stats == s.stats
    decreases |names|
  {
    if names != [] {
      OpenedKeepsSignature(s, names[..|names| - 1], handshakes);
    }
  }

  /** A status event when nothing is skipped. */
  function SlowlyReconciled(s: State, e: Status): State { Diffed(Refresh(s, e), e) }

  function SlowStep(s: State, e: Event): State {
    if e.Reported? then SlowlyReconciled(s, e.status) else Step(s, e)
  }

  function SlowRun(es: seq<Event>): State {
    if es == [] then INITIAL else SlowStep(SlowRun(es[..|es| - 1]), es[|es| - 1])
  }

  /** Skipping unchanged events makes no difference: in every run the state is
      the one that taking the whole diff at every event would give. */
  lemma {:induction false} FastPathIsSound(es: seq<Event>)
    requires CleanEvents(es)
    ensures Run(es) == SlowRun(es)
    decreases |es|
  {
    if es != [] {
      var before, last := es[..|es| - 1], es[|es| - 1];
      FastPathIsSound(before);
      if last.Reported? && Signature(last.status) == Run(before).lastSig {
        UnchangedIsNoDiff(before, last.status);
      }
    }
  }

  /** Whenever the signature is unchanged, the whole diff would do nothing. */
  lemma UnchangedIsNoDiff(es: seq<Event>, f: Status)
    requires CleanEvents(es) && CleanNames(f.names) && Signature(f) == Run(es).lastSig
    ensures Diffed(Refresh(Run(es), f), f) == Refresh(Run(es), f)
  {
    RunSettles(es);
    SignatureHasBar(f);
    LastIsClean(es);
    var e := LastStatus(es).value;
    SignatureTells(e, f);
    DiffOfSettled(Refresh(Run(es), f), e, f);
  }
}
