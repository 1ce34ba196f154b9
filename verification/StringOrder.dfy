/** Byte-wise string order, and the listing of a set of strings that
    sort.Strings gives. */
module StringOrder {
  import opened Text

  predicate Less(a: string, b: string) {
    b != "" && (a == "" || a[0] < b[0] || (a[0] == b[0] && Less(a[1..], b[1..])))
  }

  lemma {:induction false} LessIsTotal(a: string, b: string)
    ensures a == b || Less(a, b) || Less(b, a)
    ensures !(Less(a, b) && Less(b, a)) && !Less(a, a)
  {
    if a != "" && b != "" && a[0] == b[0] {
      LessIsTotal(a[1..], b[1..]);
      assert a == [a[0]] + a[1..] && b == [b[0]] + b[1..];
    }
    if a != "" {
      LessIsTotal(a[1..], a[1..]);
    }
  }

  lemma {:induction false} LessIsTransitive(a: string, b: string, c: string)
    requires Less(a, b) && Less(b, c)
    ensures Less(a, c)
  {
    if a != "" && a[0] == b[0] && b[0] == c[0] {
      LessIsTransitive(a[1..], b[1..], c[1..]);
    }
  }

  lemma {:induction false} LessAfter(p: string, a: string, b: string)
    ensures Less(p + a, p + b) <==> Less(a, b)
  {
    if p == "" {
      assert p + a == a && p + b == b;
    } else {
      LessAfter(p[1..], a, b);
      assert (p + a)[1..] == p[1..] + a && (p + b)[1..] == p[1..] + b;
    }
  }

  /** A text comes before its extensions, and before one that has a greater
      character where they first differ. */
  lemma LessTells(p: string, c: char, d: char, x: string, y: string)
    ensures x != "" ==> Less(p, p + x)
    ensures c < d ==> Less(p + [c] + x, p + [d] + y)
  {
    LessAfter(p, "", x);
    LessAfter(p, [c] + x, [d] + y);
    assert p + "" == p && p + [c] + x == p + ([c] + x) && p + [d] + y == p + ([d] + y);
  }

  /** And nothing else comes before. */
  lemma {:induction false} LessIs(a: string, b: string) returns (p: string)
    requires Less(a, b)
    ensures p <= a && p <= b && |p| < |b| && (p == a || (|p| < |a| && a[|p|] < b[|p|]))
  {
    if a == "" || a[0] < b[0] {
      p := "";
    } else {
      p := LessIs(a[1..], b[1..]);
      p := [a[0]] + p;
    }
  }

  ghost predicate IsAscending(s: seq<string>) { forall i, j :: 0 <= i < j < |s| ==> Less(s[i], s[j]) }

  ghost predicate Lists(s: seq<string>, keys: set<string>) { forall k :: k in s <==> k in keys }

  lemma FirstIsNotRepeated(s: seq<string>)
    requires IsAscending(s) && s != []
    ensures s[0] !in s[1..]
  {
    forall j | 1 <= j < |s|
      ensures s[j] != s[0]
    {
      LessIsTotal(s[0], s[0]);
    }
  }

  lemma HasMember(s: seq<string>)
    requires s != []
    ensures exists k :: k in s
  {
    assert s[0] in s;
  }

  /** There is one ascending listing of a set. */
  lemma {:induction false} AscendingIsUnique(a: seq<string>, b: seq<string>)
    requires IsAscending(a) && IsAscending(b) && forall k :: k in a <==> k in b
    ensures a == b
    decreases |a|
  {
    if a == [] {
      if b != [] {
        HasMember(b);
      }
    } else {
      assert a[0] in b;
      var x, y := a[0], b[0];
      assert x == y by {
        assert y in a;
        LessIsTotal(x, y);
      }
      FirstIsNotRepeated(a);
      FirstIsNotRepeated(b);
      forall k
        ensures k in a[1..] <==> k in b[1..]
      {
        assert (k in a <==> k == x || k in a[1..]) && (k in b <==> k == x || k in b[1..]);
      }
      AscendingIsUnique(a[1..], b[1..]);
    }
  }

  /** `k` in its place among `s`. */
  function Insert(k: string, s: seq<string>): (r: seq<string>)
    decreases |s|
  {
    if s == [] || !Less(s[0], k) then [k] + s else [s[0]] + Insert(k, s[1..])
  }

  lemma {:induction false} InsertKeepsOrder(k: string, s: seq<string>)
    requires IsAscending(s) && k !in s
    ensures IsAscending(Insert(k, s)) && forall x :: x in Insert(k, s) <==> x == k || x in s
    decreases |s|
  {
    if s != [] {
      LessIsTotal(s[0], k);
      assert s == [s[0]] + s[1..];
      if Less(s[0], k) {
        InsertKeepsOrder(k, s[1..]);
        var r := Insert(k, s[1..]);
        forall j | 0 <= j < |r|
          ensures Less(s[0], r[j])
        {
          assert r[j] in r;
        }
      } else {
        forall j | 0 <= j < |s|
          ensures Less(k, s[j])
        {
          if j > 0 {
            LessIsTransitive(k, s[0], s[j]);
          }
        }
      }
    }
  }

  function Sort(s: seq<string>): seq<string> {
    if s == [] then [] else Insert(s[|s| - 1], Sort(s[..|s| - 1]))
  }

  lemma {:induction false} InsertKeepsMembers(k: string, s: seq<string>)
    ensures forall x :: x in Insert(k, s) <==> x == k || x in s
    decreases |s|
  {
    if s != [] && Less(s[0], k) {
      InsertKeepsMembers(k, s[1..]);
      assert s == [s[0]] + s[1..];
    }
  }

  lemma {:induction false} SortKeepsMembers(s: seq<string>)
    ensures forall x :: x in Sort(s) <==> x in s
    decreases |s|
  {
    if s != [] {
      SortKeepsMembers(s[..|s| - 1]);
      InsertKeepsMembers(s[|s| - 1], Sort(s[..|s| - 1]));
      assert s == s[..|s| - 1] + [s[|s| - 1]];
    }
  }

  lemma {:induction false} InsertKeepsSize(k: string, s: seq<string>)
    ensures |Insert(k, s)| == |s| + 1 && Total(Insert(k, s)) == Total(s) + |k|
    decreases |s|
  {
    if s != [] && Less(s[0], k) {
      InsertKeepsSize(k, s[1..]);
    }
  }

  lemma {:induction false} SortKeepsSize(s: seq<string>)
    ensures |Sort(s)| == |s| && Total(Sort(s)) == Total(s)
    decreases |s|
  {
    if s != [] {
      SortKeepsSize(s[..|s| - 1]);
      InsertKeepsSize(s[|s| - 1], Sort(s[..|s| - 1]));
      TotalMore(s[..|s| - 1], s[|s| - 1]);
      assert s == s[..|s| - 1] + [s[|s| - 1]];
    }
  }

  lemma {:induction false} SortIsAscending(s: seq<string>)
    requires forall i, j :: 0 <= i < j < |s| ==> s[i] != s[j]
    ensures IsAscending(Sort(s))
    decreases |s|
  {
    if s != [] {
      SortIsAscending(s[..|s| - 1]);
      SortKeepsMembers(s[..|s| - 1]);
      InsertKeepsOrder(s[|s| - 1], Sort(s[..|s| - 1]));
    }
  }

  /** sort.Strings. */
  method SortStrings(s: seq<string>) returns (r: seq<string>)
    ensures r == Sort(s)
  {
    r := [];
    for n := 0 to |s|
      invariant r == Sort(s[..n])
    {
      assert s[..n + 1][..n] == s[..n];
      r := Insert(s[n], r);
    }
    assert s[..|s|] == s;
  }

  lemma {:induction false} ListingExists(keys: set<string>)
    ensures exists s :: IsAscending(s) && Lists(s, keys)
    decreases keys
  {
    if keys == {} {
      assert IsAscending([]) && Lists([], keys);
    } else {
      var k :| k in keys;
      ListingExists(keys - {k});
      var rest :| IsAscending(rest) && Lists(rest, keys - {k});
      InsertKeepsOrder(k, rest);
      assert Lists(Insert(k, rest), keys);
    }
  }

  /** The ascending listing of a set. */
  ghost function Ascending(keys: set<string>): (r: seq<string>)
    ensures IsAscending(r) && Lists(r, keys)
  {
    ListingExists(keys);
    var r :| IsAscending(r) && Lists(r, keys);
    r
  }

  lemma ListingIsAscending(s: seq<string>, keys: set<string>)
    requires IsAscending(s) && Lists(s, keys)
    ensures Ascending(keys) == s
  {
    AscendingIsUnique(Ascending(keys), s);
  }
}
