/** The string functions of the Go standard library that the text modules use.
    A string is a sequence of bytes, one `char` each; white space and letter
    case are ASCII. */
module Text {
  import opened Wrappers

  const NUL: char := '\0'

  predicate IsSpace(c: char) {
    c == ' ' || c == '\t' || c == '\n' || c == '\U{0B}' || c == '\U{0C}' || c == '\r'
  }

  lemma TakeMore<T>(s: seq<T>, n: nat)
    requires n < |s|
    ensures s[..n + 1] == s[..n] + [s[n]]
  {
  }

  lemma InitAndLast<T>(s: seq<T>)
    requires s != []
    ensures s == s[..|s| - 1] + [s[|s| - 1]]
  {
  }

  // ---------------------------------------------------------------------
  // Trimming
  // ---------------------------------------------------------------------

  function TrimLeft(s: string): string {
    if s != "" && IsSpace(s[0]) then TrimLeft(s[1..]) else s
  }

  function TrimRight(s: string): string {
    if s != "" && IsSpace(s[|s| - 1]) then TrimRight(s[..|s| - 1]) else s
  }

  function Trim(s: string): string { TrimRight(TrimLeft(s)) }

  predicate Trimmed(s: string) { s == "" || (!IsSpace(s[0]) && !IsSpace(s[|s| - 1])) }

  lemma {:induction false} TrimLeftIsSuffix(s: string)
    ensures |TrimLeft(s)| <= |s| && TrimLeft(s) == s[|s| - |TrimLeft(s)|..]
    ensures TrimLeft(s) == "" || !IsSpace(TrimLeft(s)[0])
  {
    if s != "" && IsSpace(s[0]) {
      TrimLeftIsSuffix(s[1..]);
    }
  }

  lemma {:induction false} TrimRightIsPrefix(s: string)
    ensures TrimRight(s) <= s
    ensures TrimRight(s) == "" || !IsSpace(TrimRight(s)[|TrimRight(s)| - 1])
  {
    if s != "" && IsSpace(s[|s| - 1]) {
      TrimRightIsPrefix(s[..|s| - 1]);
    }
  }

  /** Trimming leaves a stretch of the string that has no space at either end. */
  lemma TrimIsTrimmed(s: string)
    ensures Trimmed(Trim(s)) && forall c :: c in Trim(s) ==> c in s
  {
    TrimLeftIsSuffix(s);
    TrimRightIsPrefix(TrimLeft(s));
  }

  lemma TrimmedStays(s: string)
    requires Trimmed(s)
    ensures Trim(s) == s
  {
  }

  lemma TrimLeftSpace(s: string)
    ensures TrimLeft(" " + s) == TrimLeft(s)
  {
    assert (" " + s)[1..] == s;
  }

  lemma TrimRightSpace(s: string)
    ensures TrimRight(s + " ") == TrimRight(s)
  {
    assert (s + " ")[..|s|] == s;
  }

  lemma TrimSpaces(s: string)
    requires Trimmed(s)
    ensures Trim(" " + s) == Trim(s + " ") == Trim(" " + s + " ") == s
  {
    TrimLeftSpace(s);
    TrimLeftSpace(s + " ");
    assert " " + s + " " == " " + (s + " ");
    TrimRightSpace(s);
    if s == "" {
      TrimLeftSpace("");
      assert s + " " == " " + "" && " " + s == " " + "";
    } else {
      assert TrimLeft(s + " ") == s + " ";
    }
  }

  predicate Spaces(s: string) { forall i :: 0 <= i < |s| ==> IsSpace(s[i]) }

  lemma {:induction false} TrimLeftSpaces(p: string, s: string)
    requires Spaces(p)
    ensures TrimLeft(p + s) == TrimLeft(s)
  {
    if p == "" {
      assert p + s == s;
    } else {
      assert (p + s)[1..] == p[1..] + s;
      TrimLeftSpaces(p[1..], s);
    }
  }

  lemma {:induction false} TrimRightSpaces(s: string, p: string)
    requires Spaces(p)
    ensures TrimRight(s + p) == TrimRight(s)
  {
    if p == "" {
      assert s + p == s;
    } else {
      assert (s + p)[..|s + p| - 1] == s + p[..|p| - 1];
      TrimRightSpaces(s, p[..|p| - 1]);
    }
  }

  lemma {:induction false} TrimRightKeeps(a: string, s: string)
    requires a != "" && !IsSpace(a[|a| - 1])
    ensures TrimRight(a + s) == a + TrimRight(s)
  {
    if s == "" {
      assert a + s == a;
    } else if IsSpace(s[|s| - 1]) {
      assert (a + s)[..|a + s| - 1] == a + s[..|s| - 1];
      TrimRightKeeps(a, s[..|s| - 1]);
    }
  }

  lemma {:induction false} TrimDropsLast(s: string)
    requires s != "" && IsSpace(s[|s| - 1])
    ensures Trim(s) == Trim(s[..|s| - 1])
  {
    if |s| == 1 {
      assert s[1..] == "" && s[..0] == "";
    } else if IsSpace(s[0]) {
      TrimDropsLast(s[1..]);
      assert s[1..][..|s| - 2] == s[..|s| - 1][1..];
    }
  }

  lemma {:induction false} TrimOfTrimRight(s: string)
    ensures Trim(TrimRight(s)) == Trim(s)
  {
    if s != "" && IsSpace(s[|s| - 1]) {
      TrimOfTrimRight(s[..|s| - 1]);
      TrimDropsLast(s);
    }
  }

  lemma TrimIsPart(s: string)
    ensures forall c :: c in Trim(s) ==> c in s
  {
    TrimLeftIsSuffix(s);
    TrimRightIsPrefix(TrimLeft(s));
  }

  // ---------------------------------------------------------------------
  // Searching
  // ---------------------------------------------------------------------

  /** The first position of `c`, or the length if there is none. */
  function IndexOf(s: string, c: char): (i: nat)
    ensures i <= |s| && c !in s[..i] && (i < |s| ==> s[i] == c)
    ensures i < |s| <==> c in s
  {
    if s == "" then 0 else if s[0] == c then 0 else 1 + IndexOf(s[1..], c)
  }

  lemma {:induction false} IndexOfFirst(a: string, c: char, b: string)
    requires c !in a
    ensures IndexOf(a + [c] + b, c) == |a|
  {
    if a != "" {
      assert (a + [c] + b)[1..] == a[1..] + [c] + b;
      IndexOfFirst(a[1..], c, b);
    }
  }

  predicate HasPrefix(s: string, p: string) { p <= s }

  predicate HasSuffix(s: string, p: string) { |p| <= |s| && s[|s| - |p|..] == p }

  function LowerChar(c: char): char {
    if 'A' <= c <= 'Z' then (c as int + 32) as char else c
  }

  function Lower(s: string): (r: string)
    ensures |r| == |s| && forall i :: 0 <= i < |s| ==> r[i] == LowerChar(s[i])
  {
    seq(|s|, i requires 0 <= i < |s| => LowerChar(s[i]))
  }

  predicate EqualFold(a: string, b: string) { Lower(a) == Lower(b) }

  // ---------------------------------------------------------------------
  // Splitting and joining
  // ---------------------------------------------------------------------

  function Split(s: string, c: char): (parts: seq<string>)
    ensures |parts| > 0
  {
    if s == "" then [""]
    else
      var rest := Split(s[1..], c);
      if s[0] == c then [""] + rest else [[s[0]] + rest[0]] + rest[1..]
  }

  function Join(parts: seq<string>, sep: string): string {
    if parts == [] then "" else if |parts| == 1 then parts[0] else parts[0] + sep + Join(parts[1..], sep)
  }

  predicate Free(parts: seq<string>, c: char) { forall i :: 0 <= i < |parts| ==> c !in parts[i] }

  /** The parts are free of the separator and made of what the string has. */
  lemma {:induction false} SplitParts(s: string, c: char)
    ensures Free(Split(s, c), c)
    ensures forall i :: 0 <= i < |Split(s, c)| ==> forall d :: d in Split(s, c)[i] ==> d in s
  {
    if s != "" {
      SplitParts(s[1..], c);
      var rest := Split(s[1..], c);
      forall i | 0 <= i < |Split(s, c)|
        ensures c !in Split(s, c)[i] && forall d :: d in Split(s, c)[i] ==> d in s
      {
        if s[0] == c {
          assert Split(s, c)[i] == if i == 0 then "" else rest[i - 1];
        } else {
          assert Split(s, c)[i] == if i == 0 then [s[0]] + rest[0] else rest[i];
        }
      }
    }
  }

  lemma {:induction false} SplitWithout(s: string, c: char)
    requires c !in s
    ensures Split(s, c) == [s]
  {
    if s != "" {
      SplitWithout(s[1..], c);
      assert [s[0]] + s[1..] == s;
    }
  }

  /** Splitting after the first separator. */
  lemma {:induction false} SplitStep(a: string, c: char, b: string)
    requires c !in a
    ensures Split(a + [c] + b, c) == [a] + Split(b, c)
  {
    var s := a + [c] + b;
    if a == "" {
      assert s[1..] == b;
    } else {
      assert s[1..] == a[1..] + [c] + b;
      SplitStep(a[1..], c, b);
      assert [a[0]] + a[1..] == a;
    }
  }

  lemma {:induction false} SplitOfJoin(parts: seq<string>, c: char)
    requires parts != [] && Free(parts, c)
    ensures Split(Join(parts, [c]), c) == parts
  {
    if |parts| == 1 {
      SplitWithout(parts[0], c);
    } else {
      SplitStep(parts[0], c, Join(parts[1..], [c]));
      SplitOfJoin(parts[1..], c);
    }
  }

  lemma {:induction false} JoinLacks(parts: seq<string>, sep: string, c: char)
    requires Free(parts, c) && c !in sep
    ensures c !in Join(parts, sep)
    decreases |parts|
  {
    if |parts| > 1 {
      JoinLacks(parts[1..], sep, c);
    }
  }

  lemma {:induction false} JoinOfSplit(s: string, c: char)
    ensures Join(Split(s, c), [c]) == s
  {
    if s != "" {
      JoinOfSplit(s[1..], c);
      var rest := Split(s[1..], c);
      if s[0] == c {
        assert ([""] + rest)[1..] == rest;
      } else {
        assert ([[s[0]] + rest[0]] + rest[1..])[1..] == rest[1..];
      }
      assert [s[0]] + s[1..] == s;
    }
  }

  lemma {:induction false} SplitAppend(a: string, c: char, b: string)
    requires c !in b
    ensures Split(a + [c] + b, c) == Split(a, c) + [b]
  {
    var s := a + [c] + b;
    if a == "" {
      assert s[1..] == b;
      SplitWithout(b, c);
    } else {
      assert s[1..] == a[1..] + [c] + b;
      SplitAppend(a[1..], c, b);
    }
  }

  lemma {:induction false} JoinMore(parts: seq<string>, sep: string, v: string)
    requires parts != []
    ensures Join(parts + [v], sep) == Join(parts, sep) + sep + v
  {
    if |parts| == 1 {
      assert (parts + [v])[1..] == [v];
    } else {
      assert (parts + [v])[1..] == parts[1..] + [v];
      JoinMore(parts[1..], sep, v);
    }
  }

  /** The characters of all the strings. */
  function Total(s: seq<string>): nat {
    if s == [] then 0 else |s[0]| + Total(s[1..])
  }

  lemma {:induction false} TotalMore(s: seq<string>, k: string)
    ensures Total(s + [k]) == Total(s) + |k|
    decreases |s|
  {
    if s != [] {
      assert (s + [k])[1..] == s[1..] + [k];
      TotalMore(s[1..], k);
    }
  }

  lemma {:induction false} TotalAppend(a: seq<string>, b: seq<string>)
    ensures Total(a + b) == Total(a) + Total(b)
    decreases |a|
  {
    if a == [] {
      assert a + b == b;
    } else {
      assert (a + b)[1..] == a[1..] + b;
      TotalAppend(a[1..], b);
    }
  }

  lemma {:induction false} JoinLength(parts: seq<string>, sep: string)
    ensures |Join(parts, sep)| == Total(parts) + if parts == [] then 0 else |sep| * (|parts| - 1)
    decreases |parts|
  {
    if |parts| > 1 {
      JoinLength(parts[1..], sep);
      assert |sep| * (|parts| - 1) == |sep| + |sep| * (|parts| - 2);
    }
  }

  function LastExtended(parts: seq<string>, b: string): seq<string>
    requires parts != []
  {
    parts[..|parts| - 1] + [parts[|parts| - 1] + b]
  }

  function FirstExtended(a: char, parts: seq<string>): seq<string>
    requires parts != []
  {
    [[a] + parts[0]] + parts[1..]
  }

  lemma ExtendedBothEnds(a: char, parts: seq<string>, b: string)
    requires parts != []
    ensures LastExtended(FirstExtended(a, parts), b) == FirstExtended(a, LastExtended(parts, b))
    ensures LastExtended([""] + parts, b) == [""] + LastExtended(parts, b)
  {
    if |parts| == 1 {
      assert [a] + (parts[0] + b) == [a] + parts[0] + b;
    }
  }

  lemma {:induction false} SplitSuffix(a: string, c: char, b: string)
    requires c !in b
    ensures Split(a + b, c) == LastExtended(Split(a, c), b)
  {
    if a == "" {
      assert a + b == b;
      SplitWithout(b, c);
    } else {
      assert (a + b)[1..] == a[1..] + b && (a + b)[0] == a[0];
      SplitSuffix(a[1..], c, b);
      ExtendedBothEnds(a[0], Split(a[1..], c), b);
    }
  }

  /** Splitting on both sides of a separator. */
  lemma {:induction false} SplitBoth(a: string, c: char, b: string)
    ensures Split(a + [c] + b, c) == Split(a, c) + Split(b, c)
  {
    var s := a + [c] + b;
    if a == "" {
      assert s[1..] == b;
    } else {
      assert s[1..] == a[1..] + [c] + b;
      SplitBoth(a[1..], c, b);
    }
  }

  /** Lines, each with its newline. */
  function Unlines(lines: seq<string>): string {
    if lines == [] then "" else lines[0] + "\n" + Unlines(lines[1..])
  }

  lemma {:induction false} UnlinesAppend(a: seq<string>, b: seq<string>)
    ensures Unlines(a + b) == Unlines(a) + Unlines(b)
  {
    if a == [] {
      assert a + b == b;
    } else {
      assert (a + b)[1..] == a[1..] + b;
      UnlinesAppend(a[1..], b);
    }
  }

  lemma {:induction false} SplitOfUnlines(lines: seq<string>)
    requires Free(lines, '\n')
    ensures Split(Unlines(lines), '\n') == lines + [""]
  {
    if lines != [] {
      SplitStep(lines[0], '\n', Unlines(lines[1..]));
      SplitOfUnlines(lines[1..]);
      assert lines == [lines[0]] + lines[1..];
    }
  }

  // ---------------------------------------------------------------------
  // Lines that assign a value to a key
  // ---------------------------------------------------------------------

  function Assignment(key: string, value: string): string { key + " = " + value }

  function Left(key: string): string { if key == "" then "" else key + " " }

  function Right(value: string): string { if value == "" then "" else " " + value }

  function Core(key: string, value: string): string { Left(key) + "=" + Right(value) }

  function Pad(text: string): string { if text == "" then " " else "" }

  lemma AssignmentAroundCore(key: string, value: string)
    ensures Assignment(key, value) == Pad(key) + Core(key, value) + Pad(value)
  {
  }

  lemma TrimmedAssignment(key: string, value: string)
    requires Trimmed(key) && Trimmed(value)
    ensures Trim(Assignment(key, value)) == Core(key, value)
  {
    AssignmentAroundCore(key, value);
    CoreIsTrimmed(key, value);
    PaddedTrims(Core(key, value), Pad(key), Pad(value));
  }

  lemma PaddedTrims(s: string, l: string, r: string)
    requires Trimmed(s) && (l == "" || l == " ") && (r == "" || r == " ")
    ensures Trim(l + s + r) == s
  {
    TrimSpaces(s);
    TrimmedStays(s);
    assert l + s + "" == l + s && "" + s + r == s + r && "" + s == s;
  }

  lemma CoreIsTrimmed(key: string, value: string)
    requires Trimmed(key) && Trimmed(value)
    ensures Trimmed(Core(key, value))
  {
  }

  lemma CoreParts(key: string, value: string)
    requires Trimmed(key) && Trimmed(value) && '=' !in key
    ensures var line := Core(key, value);
            var eq := IndexOf(line, '=');
            && eq < |line| && Trim(line[..eq]) == key && Trim(line[eq + 1..]) == value
  {
    var line, a, b := Core(key, value), Left(key), Right(value);
    assert line == a + ['='] + b;
    IndexOfFirst(a, '=', b);
    assert line[..|a|] == a && line[|a| + 1..] == b;
    TrimSpaces(key);
    TrimSpaces(value);
  }

  // ---------------------------------------------------------------------
  // Integers
  // ---------------------------------------------------------------------

  const MAX_INT := 0x7FFF_FFFF_FFFF_FFFF

  /** Go's int on the supported platforms. */
  type Int64 = n: int | -MAX_INT - 1 <= n <= MAX_INT

  predicate IsDigit(c: char) { '0' <= c <= '9' }

  predicate AllDigits(s: string) { forall i :: 0 <= i < |s| ==> IsDigit(s[i]) }

  function DigitsValue(s: string): nat
    requires AllDigits(s)
  {
    if s == "" then 0 else 10 * DigitsValue(s[..|s| - 1]) + (s[|s| - 1] as int - '0' as int)
  }

  function Digits(n: nat): (s: string)
    ensures s != "" && AllDigits(s)
  {
    if n < 10 then [('0' as int + n) as char] else Digits(n / 10) + [('0' as int + n % 10) as char]
  }

  lemma {:induction false} ValueOfDigits(n: nat)
    ensures DigitsValue(Digits(n)) == n
  {
    if n >= 10 {
      ValueOfDigits(n / 10);
      assert Digits(n)[..|Digits(n)| - 1] == Digits(n / 10);
    } else {
      assert Digits(n)[..0] == "";
    }
  }

  /** strconv.Atoi: an optional sign, then digits, within range. */
  function Atoi(s: string): Option<Int64> {
    var signed := s != "" && (s[0] == '+' || s[0] == '-');
    var digits := if signed then s[1..] else s;
    if digits == "" || !AllDigits(digits) then None
    else
      var v := if signed && s[0] == '-' then -(DigitsValue(digits) as int) else DigitsValue(digits);
      if -MAX_INT - 1 <= v <= MAX_INT then Some(v) else None
  }

  function Itoa(n: Int64): string {
    if n < 0 then "-" + Digits(-(n as int)) else Digits(n)
  }

  lemma AtoiOfNatural(n: Int64)
    requires n >= 0
    ensures Atoi(Digits(n)) == Some(n)
  {
    ValueOfDigits(n);
    assert IsDigit(Digits(n)[0]);
  }

  lemma AtoiOfNegative(n: Int64)
    requires n < 0
    ensures Atoi("-" + Digits(-(n as int))) == Some(n)
  {
    var digits := Digits(-(n as int));
    ValueOfDigits(-(n as int));
    assert ("-" + digits)[1..] == digits && ("-" + digits)[0] == '-';
  }

  lemma AtoiOfItoa(n: Int64)
    ensures Atoi(Itoa(n)) == Some(n)
  {
    if n < 0 {
      AtoiOfNegative(n);
    } else {
      AtoiOfNatural(n);
    }
  }

  lemma ItoaIsClean(n: Int64)
    requires n >= 0
    ensures Trimmed(Itoa(n)) && AllDigits(Itoa(n)) && Itoa(n) != ""
    ensures Lower(Itoa(n)) == Itoa(n)
  {
  }

  // ---------------------------------------------------------------------
  // The characters, written out
  // ---------------------------------------------------------------------

  /** Blank, tab, newline, vertical tab, form feed or carriage return. */
  predicate IsBlank(s: string) {
    forall c :: c in s ==> c == ' ' || c == '\t' || c == '\n' || c == '\U{0B}' || c == '\U{0C}' || c == '\r'
  }

  lemma SpacesAreBlank(s: string)
    ensures Spaces(s) <==> IsBlank(s)
  {
    if IsBlank(s) {
      forall i | 0 <= i < |s| ensures IsSpace(s[i]) {
        assert s[i] in s;
      }
    }
  }

  lemma TrimmedIsNotBlank(s: string)
    requires Trimmed(s) && s != ""
    ensures !IsBlank(s[..1]) && !IsBlank(s[|s| - 1..])
  {
    SpacesAreBlank(s[..1]);
    SpacesAreBlank(s[|s| - 1..]);
  }

  /** Trimming takes blanks off both ends, and stops at the first other character. */
  lemma TrimTells(s: string) returns (a: string, b: string)
    ensures s == a + (Trim(s) + b) && IsBlank(a) && IsBlank(b)
    ensures Trim(s) != "" ==> !IsBlank(Trim(s)[..1]) && !IsBlank(Trim(s)[|Trim(s)| - 1..])
  {
    a := LeftBlanks(s);
    b := RightBlanks(TrimLeft(s));
    TrimEndsTell(s);
  }

  lemma TrimEndsTell(s: string)
    ensures Trim(s) != "" ==> !IsBlank(Trim(s)[..1]) && !IsBlank(Trim(s)[|Trim(s)| - 1..])
  {
    TrimIsTrimmed(s);
    if Trim(s) != "" {
      TrimmedIsNotBlank(Trim(s));
    }
  }

  lemma {:induction false} LeftBlanks(s: string) returns (a: string)
    ensures s == a + TrimLeft(s) && IsBlank(a)
  {
    if s != "" && IsSpace(s[0]) {
      a := LeftBlanks(s[1..]);
      SpacesAreBlank(s[..1]);
      a := s[..1] + a;
    } else {
      a := "";
    }
  }

  lemma {:induction false} RightBlanks(s: string) returns (b: string)
    ensures s == TrimRight(s) + b && IsBlank(b)
  {
    if s != "" && IsSpace(s[|s| - 1]) {
      b := RightBlanks(s[..|s| - 1]);
      SpacesAreBlank(s[|s| - 1..]);
      b := b + s[|s| - 1..];
    } else {
      b := "";
    }
  }

  /** Lower case changes the twenty-six capitals, and nothing else. */
  lemma LowerTells(s: string, i: nat)
    requires i < |s|
    ensures var from, to := "ABCDEFGHIJKLMNOPQRSTUVWXYZ", "abcdefghijklmnopqrstuvwxyz";
            && (forall k :: 0 <= k < 26 && s[i] == from[k] ==> Lower(s)[i] == to[k])
            && (s[i] !in from ==> Lower(s)[i] == s[i])
  {
    var from, to := "ABCDEFGHIJKLMNOPQRSTUVWXYZ", "abcdefghijklmnopqrstuvwxyz";
    if 'A' <= s[i] <= 'Z' {
      assert s[i] == from[s[i] as int - 'A' as int];
    }
  }

  /** Every natural number has its decimal digits, perhaps after zeros. */
  lemma {:induction false} DigitsOf(d: string) returns (zeros: string)
    requires d != "" && AllDigits(d)
    ensures d == zeros + Digits(DigitsValue(d)) && AllZeros(zeros)
    decreases |d|
  {
    var before, last := d[..|d| - 1], d[|d| - 1];
    zeros := "";
    if before == "" {
      assert d == [last] && DigitsValue("") == 0;
    } else {
      zeros := DigitsOf(before);
      if DigitsValue(before) == 0 {
        assert before == zeros + "0";
        zeros := zeros + "0";
      }
      assert d == before + [last];
    }
  }

  lemma {:induction false} ZerosBefore(zeros: string, d: string)
    requires AllDigits(d) && AllZeros(zeros)
    ensures AllDigits(zeros + d) && DigitsValue(zeros + d) == DigitsValue(d)
    decreases |zeros| + |d|
  {
    if d == "" {
      assert zeros + d == zeros;
      if zeros != "" {
        ZerosBefore(zeros[..|zeros| - 1], "");
        assert zeros[..|zeros| - 1] + "" == zeros[..|zeros| - 1];
      }
    } else {
      ZerosBefore(zeros, d[..|d| - 1]);
      assert (zeros + d)[..|zeros + d| - 1] == zeros + d[..|d| - 1];
    }
  }

  function Magnitude(n: int): nat { if n < 0 then -n else n }

  /** A number may have one sign; only zero may have either. */
  predicate SignOf(sign: string, n: int) {
    if n < 0 then sign == "-" else sign == "" || sign == "+" || (sign == "-" && n == 0)
  }

  predicate AllZeros(s: string) { forall i :: 0 <= i < |s| ==> s[i] == '0' }

  lemma AtoiOfSigned(sign: string, d: string, n: Int64)
    requires SignOf(sign, n) && d != "" && AllDigits(d) && DigitsValue(d) == Magnitude(n)
    ensures Atoi(sign + d) == Some(n)
  {
    assert IsDigit(d[0]);
    if sign == "" {
      assert sign + d == d;
    } else {
      assert (sign + d)[1..] == d && (sign + d)[0] == sign[0];
    }
  }

  lemma AtoiHasDigits(s: string, n: Int64) returns (sign: string, d: string)
    requires Atoi(s) == Some(n)
    ensures s == sign + d && SignOf(sign, n) && d != "" && AllDigits(d) && DigitsValue(d) == Magnitude(n)
  {
    if s[0] == '+' || s[0] == '-' {
      sign, d := s[..1], s[1..];
    } else {
      sign, d := "", s;
    }
  }

  /** A number is read from its digits, with a sign and zeros before them. */
  lemma AtoiExactlyWhen(s: string, n: Int64)
    ensures Atoi(s) == Some(n) <==>
            exists sign, zeros :: SignOf(sign, n) && AllZeros(zeros) && s == sign + (zeros + Digits(Magnitude(n)))
  {
    if Atoi(s) == Some(n) {
      var sign, d := AtoiHasDigits(s, n);
      var zeros := DigitsOf(d);
    }
    if sign, zeros :| SignOf(sign, n) && AllZeros(zeros) && s == sign + (zeros + Digits(Magnitude(n))) {
      ZerosBefore(zeros, Digits(Magnitude(n)));
      ValueOfDigits(Magnitude(n));
      AtoiOfSigned(sign, zeros + Digits(Magnitude(n)), n);
    }
  }
}
