/** Option, used wherever the Java code passes or returns a possibly-null reference. */
module Wrappers {
  datatype Option<+T> = None | Some(value: T)
}

/**
 * The parts of the Java standard library the framework leans on, written out:
 * String.split on a one-character separator, trim, startsWith/endsWith,
 * indexOf/lastIndexOf, toLowerCase/equalsIgnoreCase on ASCII letters, and
 * Integer.parseInt/Long.parseLong on ASCII decimal text.
 */
module JavaText {
  import opened Wrappers

  const INT_MIN: int := -0x8000_0000
  const INT_MAX: int := 0x7fff_ffff
  const LONG_MIN: int := -0x8000_0000_0000_0000
  const LONG_MAX: int := 0x7fff_ffff_ffff_ffff

  /** Java's 64-bit `long`. */
  newtype Int64 = x: int | -0x8000_0000_0000_0000 <= x <= 0x7fff_ffff_ffff_ffff

  predicate StartsWith(s: string, prefix: string) {
    |prefix| <= |s| && s[..|prefix|] == prefix
  }

  predicate EndsWith(s: string, suffix: string) {
    |suffix| <= |s| && s[|s| - |suffix|..] == suffix
  }

  // ---------------------------------------------------------------------
  // String.split with a one-character, non-regex-special separator
  // ---------------------------------------------------------------------

  /** Every piece of `s` between occurrences of `c`, empty pieces included. */
  function Pieces(s: string, c: char): (r: seq<string>)
    ensures |r| >= 1
    ensures forall i :: 0 <= i < |r| ==> c !in r[i]
  {
    if |s| == 0 then [""]
    else
      var rest := Pieces(s[1..], c);
      if s[0] == c then [""] + rest
      else [[s[0]] + rest[0]] + rest[1..]
  }

  /** The pieces glued back together with `c` between neighbours. */
  function Join(parts: seq<string>, c: char): string {
    if |parts| == 0 then ""
    else if |parts| == 1 then parts[0]
    else parts[0] + [c] + Join(parts[1..], c)
  }

  /** The trailing empty strings of `r` removed, as String.split does with limit 0. */
  function DropTrailingEmpty(r: seq<string>): (d: seq<string>)
    ensures |d| <= |r| && d == r[..|d|]
    ensures forall i :: |d| <= i < |r| ==> r[i] == ""
    ensures d == [] || d[|d| - 1] != ""
  {
    if |r| == 0 then []
    else if r[|r| - 1] == "" then DropTrailingEmpty(r[..|r| - 1])
    else r
  }

  /**
   * Java's `s.split(String.valueOf(c))`: an input without any separator
   * (in particular "") yields the input itself as the only element;
   * otherwise a leading empty piece is kept and trailing empty pieces are dropped.
   */
  function Split(s: string, c: char): (r: seq<string>)
    ensures forall i :: 0 <= i < |r| ==> c !in r[i]
    ensures s == "" ==> r == [""]
    ensures s != "" ==> r == [] || r[|r| - 1] != ""
  {
    if s == "" then [""] else DropTrailingEmpty(Pieces(s, c))
  }

  lemma {:induction false} JoinCons(x: string, y: string, rest: seq<string>, c: char)
    ensures Join([x + y] + rest, c) == x + Join([y] + rest, c)
  {
    if |rest| > 0 {
      assert ([x + y] + rest)[1..] == rest;
      assert ([y] + rest)[1..] == rest;
    }
  }

  /** Splitting into pieces loses nothing: gluing the pieces back gives the input. */
  lemma {:induction false} JoinPieces(s: string, c: char)
    ensures Join(Pieces(s, c), c) == s
  {
    if |s| > 0 {
      var rest := Pieces(s[1..], c);
      JoinPieces(s[1..], c);
      if s[0] == c {
        assert ([""] + rest)[1..] == rest;
        assert Join([""] + rest, c) == "" + [c] + Join(rest, c);
        assert s == [c] + s[1..];
      } else {
        assert rest == [rest[0]] + rest[1..];
        JoinCons([s[0]], rest[0], rest[1..], c);
        assert s == [s[0]] + s[1..];
      }
    }
  }

  lemma {:induction false} PiecesOfFree(a: string, c: char)
    requires c !in a
    ensures Pieces(a, c) == [a]
  {
    if |a| > 0 {
      PiecesOfFree(a[1..], c);
      assert [a[0]] + a[1..] == a;
    }
  }

  lemma {:induction false} PiecesAfterSeparator(a: string, b: string, c: char)
    requires c !in a
    ensures Pieces(a + [c] + b, c) == [a] + Pieces(b, c)
  {
    if |a| == 0 {
      assert a + [c] + b == [c] + b;
      assert ([c] + b)[1..] == b;
    } else {
      var s := a + [c] + b;
      assert s[0] == a[0] && s[1..] == a[1..] + [c] + b;
      PiecesAfterSeparator(a[1..], b, c);
      assert [a[0]] + a[1..] == a;
    }
  }

  /** Pieces inverts Join on separator-free parts. */
  lemma {:induction false} PiecesJoin(parts: seq<string>, c: char)
    requires |parts| >= 1
    requires forall i :: 0 <= i < |parts| ==> c !in parts[i]
    ensures Pieces(Join(parts, c), c) == parts
  {
    if |parts| == 1 {
      PiecesOfFree(parts[0], c);
    } else {
      PiecesJoin(parts[1..], c);
      PiecesAfterSeparator(parts[0], Join(parts[1..], c), c);
      assert parts == [parts[0]] + parts[1..];
    }
  }

  /** Split inverts Join when the parts are separator-free and the last one is not empty. */
  lemma SplitJoin(parts: seq<string>, c: char)
    requires |parts| >= 1 && parts[|parts| - 1] != ""
    requires forall i :: 0 <= i < |parts| ==> c !in parts[i]
    ensures Split(Join(parts, c), c) == parts
  {
    PiecesJoin(parts, c);
    if Join(parts, c) == "" {
      JoinPieces("", c);
    }
  }

  lemma JoinThree(a: string, b: string, d: string, c: char)
    ensures Join([a, b, d], c) == a + [c] + b + [c] + d
  {
    assert Join([b, d], c) == b + [c] + d by {
      assert [b, d][1..] == [d];
    }
    assert Join([a, b, d], c) == a + [c] + Join([b, d], c) by {
      assert [a, b, d][1..] == [b, d];
    }
    assert a + [c] + (b + [c] + d) == a + [c] + b + [c] + d;
  }

  lemma NotInAppend(a: string, b: string, c: char)
    requires c !in a && c !in b
    ensures c !in a + b
  {
  }

  /** A string of separators only splits into no pieces at all: every piece is empty and dropped. */
  lemma SplitOfSeparators(c: char, k: nat)
    requires k > 0
    ensures Split(Repeat(c, k), c) == []
  {
    PiecesOfSeparators(c, k);
  }

  lemma {:induction false} PiecesOfSeparators(c: char, k: nat)
    ensures |Pieces(Repeat(c, k), c)| == k + 1
    ensures forall i :: 0 <= i <= k ==> Pieces(Repeat(c, k), c)[i] == ""
  {
    if k == 0 {
      assert Repeat(c, 0) == "";
    } else {
      PiecesOfSeparators(c, k - 1);
      PiecesTrailingSeparator(Repeat(c, k - 1), c);
    }
  }

  /** A string without the separator splits into itself alone. */
  lemma SplitOfFree(s: string, c: char)
    requires c !in s
    ensures Split(s, c) == [s]
  {
    if s != "" {
      PiecesOfFree(s, c);
    }
  }

  lemma {:induction false} PiecesTrailingSeparator(s: string, c: char)
    ensures Pieces(s + [c], c) == Pieces(s, c) + [""]
  {
    if |s| == 0 {
      assert s + [c] == [c];
      assert [c][1..] == "";
    } else {
      assert (s + [c])[0] == s[0] && (s + [c])[1..] == s[1..] + [c];
      PiecesTrailingSeparator(s[1..], c);
    }
  }

  /** One more trailing separator does not change the result of Split on a non-empty string. */
  lemma SplitTrailingSeparator(s: string, c: char)
    requires s != ""
    ensures Split(s + [c], c) == Split(s, c)
  {
    PiecesTrailingSeparator(s, c);
    var r := Pieces(s, c);
    assert (r + [""])[..|r|] == r;
  }

  function Repeat(c: char, k: nat): (r: string)
    ensures |r| == k && forall i :: 0 <= i < k ==> r[i] == c
  {
    if k == 0 then "" else Repeat(c, k - 1) + [c]
  }

  /** Any number of trailing separators is ignored by Split on a non-empty string. */
  lemma {:induction false} SplitTrailingSeparators(s: string, c: char, k: nat)
    requires s != ""
    ensures Split(s + Repeat(c, k), c) == Split(s, c)
  {
    if k > 0 {
      SplitTrailingSeparators(s, c, k - 1);
      assert s + Repeat(c, k) == (s + Repeat(c, k - 1)) + [c];
      SplitTrailingSeparator(s + Repeat(c, k - 1), c);
    } else {
      assert s + Repeat(c, 0) == s;
    }
  }

  // ---------------------------------------------------------------------
  // trim, indexOf, lastIndexOf
  // ---------------------------------------------------------------------

  /** String.trim treats every character up to U+0020 as white space. */
  predicate IsTrimmed(ch: char) { ch <= ' ' }

  function TrimStart(s: string): (r: string)
    ensures |r| <= |s| && r == s[|s| - |r|..]
    ensures r == [] || !IsTrimmed(r[0])
    ensures forall i :: 0 <= i < |s| - |r| ==> IsTrimmed(s[i])
  {
    if |s| > 0 && IsTrimmed(s[0]) then TrimStart(s[1..]) else s
  }

  function TrimEnd(s: string): (r: string)
    ensures |r| <= |s| && r == s[..|r|]
    ensures r == [] || !IsTrimmed(r[|r| - 1])
    ensures forall i :: |r| <= i < |s| ==> IsTrimmed(s[i])
  {
    if |s| > 0 && IsTrimmed(s[|s| - 1]) then TrimEnd(s[..|s| - 1]) else s
  }

  /** String.trim: no white space left at either end (TrimStripsEnds: and nothing else removed). */
  function Trim(s: string): (r: string)
    ensures |r| <= |s|
    ensures r == [] || (!IsTrimmed(r[0]) && !IsTrimmed(r[|r| - 1]))
    ensures r == [] ==> forall i :: 0 <= i < |s| ==> IsTrimmed(s[i])
  {
    TrimEnd(TrimStart(s))
  }

  /**
   * Trim removes white space from both ends and nothing else: its result is an
   * infix of s, and everything before and after that infix is white space.
   */
  lemma TrimStripsEnds(s: string)
    ensures var r := Trim(s);
            exists i :: 0 <= i <= |s| - |r| && r == s[i..][..|r|]
              && (forall j :: 0 <= j < i ==> IsTrimmed(s[j]))
              && (forall j :: i + |r| <= j < |s| ==> IsTrimmed(s[j]))
  {
    var r := Trim(s);
    var i := |s| - |TrimStart(s)|;
    TrimInfix(s, TrimStart(s), r);
    assert 0 <= i <= |s| - |r| && r == s[i..][..|r|]
           && (forall j :: 0 <= j < i ==> IsTrimmed(s[j]))
           && (forall j :: i + |r| <= j < |s| ==> IsTrimmed(s[j]));
  }

  lemma TrimInfix(s: string, t: string, r: string)
    requires t == TrimStart(s) && r == TrimEnd(t)
    ensures var i := |s| - |t|;
            0 <= i <= |s| - |r| && r == s[i..][..|r|]
            && (forall j :: 0 <= j < i ==> IsTrimmed(s[j]))
            && (forall j :: i + |r| <= j < |s| ==> IsTrimmed(s[j]))
  {
    var i := |s| - |t|;
    assert t == s[i..];
    forall j | i + |r| <= j < |s|
      ensures IsTrimmed(s[j])
    {
      assert s[j] == t[j - i];
    }
  }

  /** String.indexOf(char): the first position of `c`, or -1. */
  function IndexOf(s: string, c: char): (r: int)
    ensures -1 <= r < |s|
    ensures r == -1 <==> c !in s
    ensures r >= 0 ==> s[r] == c && c !in s[..r]
  {
    if |s| == 0 then -1
    else if s[0] == c then 0
    else
      var k := IndexOf(s[1..], c);
      assert s == [s[0]] + s[1..];
      if k == -1 then -1
      else
        assert s[..k + 1] == [s[0]] + s[1..][..k];
        k + 1
  }

  /** String.lastIndexOf(char): the last position of `c`, or -1. */
  function LastIndexOf(s: string, c: char): (r: int)
    ensures -1 <= r < |s|
    ensures r == -1 <==> c !in s
    ensures r >= 0 ==> s[r] == c && c !in s[r + 1..]
  {
    if |s| == 0 then -1
    else if s[|s| - 1] == c then |s| - 1
    else
      var k := LastIndexOf(s[..|s| - 1], c);
      assert s == s[..|s| - 1] + [s[|s| - 1]];
      if k == -1 then -1
      else
        assert s[k + 1..] == s[..|s| - 1][k + 1..] + [s[|s| - 1]];
        k
  }

  // ---------------------------------------------------------------------
  // Case conversion
  // ---------------------------------------------------------------------

  function ToLowerChar(ch: char): (r: char)
    ensures 'A' <= ch <= 'Z' ==> r as int == ch as int + 32
    ensures !('A' <= ch <= 'Z') ==> r == ch
  {
    if 'A' <= ch <= 'Z' then (ch as int + 32) as char else ch
  }

  /**
   * String.toLowerCase restricted to the ASCII letters. Among the characters
   * Java lower-cases to an ASCII letter outside A-Z, only the Kelvin sign (to k)
   * and the dotted capital I (to "i" followed by U+0307) exist, and neither can
   * complete the prefix tests the framework makes with it.
   */
  function ToLower(s: string): (r: string)
    ensures |r| == |s| && forall i :: 0 <= i < |s| ==> r[i] == ToLowerChar(s[i])
  {
    if |s| == 0 then "" else [ToLowerChar(s[0])] + ToLower(s[1..])
  }

  /** Text whose every character lower-cases to itself is its own lower-case form. */
  lemma ToLowerIdentity(s: string)
    requires forall i :: 0 <= i < |s| ==> ToLowerChar(s[i]) == s[i]
    ensures ToLower(s) == s
  {
    assert forall i :: 0 <= i < |s| ==> ToLower(s)[i] == s[i];
  }

  /** Lower-casing commutes with taking a prefix. */
  lemma ToLowerPrefix(s: string, n: nat)
    requires n <= |s|
    ensures ToLower(s)[..n] == ToLower(s[..n])
  {
    var a, b := ToLower(s)[..n], ToLower(s[..n]);
    assert |a| == |b|;
    forall i | 0 <= i < n
      ensures a[i] == b[i]
    {
      assert a[i] == ToLowerChar(s[i]);
      assert b[i] == ToLowerChar(s[..n][i]);
    }
  }

  /** A prefix test on the lower-cased text, for a lower-case prefix, is a case-blind test of the text's start. */
  lemma LowerPrefix(s: string, p: string)
    requires ToLower(p) == p
    ensures StartsWith(ToLower(s), p) <==> |s| >= |p| && EqualsIgnoreCase(s[..|p|], p)
  {
    if |s| >= |p| {
      ToLowerPrefix(s, |p|);
      EqualsIgnoreCaseLower(s[..|p|], p);
    }
  }

  /** String.equalsIgnoreCase on ASCII text. */
  predicate EqualsIgnoreCase(s: string, t: string) {
    |s| == |t| && forall i :: 0 <= i < |s| ==> ToLowerChar(s[i]) == ToLowerChar(t[i])
  }

  /** Against an all-lower-case string, ignoring case is comparing the lower-cased string. */
  lemma EqualsIgnoreCaseLower(s: string, t: string)
    requires ToLower(t) == t
    ensures EqualsIgnoreCase(s, t) <==> ToLower(s) == t
  {
    if EqualsIgnoreCase(s, t) {
      assert forall i :: 0 <= i < |s| ==> ToLower(s)[i] == ToLower(t)[i];
    }
    if ToLower(s) == t {
      assert forall i :: 0 <= i < |s| ==> ToLowerChar(s[i]) == ToLower(t)[i];
    }
  }

  // ---------------------------------------------------------------------
  // Integer.parseInt / Long.parseLong
  // ---------------------------------------------------------------------

  predicate IsDigit(ch: char) { '0' <= ch <= '9' }

  predicate AllDigits(s: string) {
    forall i :: 0 <= i < |s| ==> IsDigit(s[i])
  }

  /** The value of a string of decimal digits, most significant first. */
  function DigitsValue(s: string): nat
    requires AllDigits(s)
  {
    if |s| == 0 then 0
    else DigitsValue(s[..|s| - 1]) * 10 + (s[|s| - 1] as int - '0' as int)
  }

  /** An optional '+' or '-' followed by at least one digit, as parseInt accepts it, without a range limit. */
  function ParseDecimal(s: string): Option<int> {
    if |s| > 0 && (s[0] == '-' || s[0] == '+') then
      var d := s[1..];
      if |d| > 0 && AllDigits(d) then
        var v: int := DigitsValue(d);
        Some(if s[0] == '-' then -v else v)
      else None
    else if |s| > 0 && AllDigits(s) then Some(DigitsValue(s))
    else None
  }

  /** Integer.parseInt: None stands for NumberFormatException. */
  function ParseInt(s: string): (r: Option<int>)
    ensures r.Some? ==> INT_MIN <= r.value <= INT_MAX
    ensures r.Some? <==> ParseDecimal(s).Some? && INT_MIN <= ParseDecimal(s).value <= INT_MAX
  {
    match ParseDecimal(s)
    case Some(v) => if INT_MIN <= v <= INT_MAX then Some(v) else None
    case None => None
  }

  /** Long.parseLong: None stands for NumberFormatException. */
  function ParseLong(s: string): (r: Option<int>)
    ensures r.Some? ==> LONG_MIN <= r.value <= LONG_MAX
    ensures r.Some? <==> ParseDecimal(s).Some? && LONG_MIN <= ParseDecimal(s).value <= LONG_MAX
  {
    match ParseDecimal(s)
    case Some(v) => if LONG_MIN <= v <= LONG_MAX then Some(v) else None
    case None => None
  }

  function DigitChar(d: nat): char
    requires d < 10
  {
    ('0' as int + d) as char
  }

  /** The decimal digits of n, as Integer.toString writes a non-negative number. */
  function Digits(n: nat): (r: string)
    ensures |r| >= 1 && AllDigits(r)
  {
    if n < 10 then [DigitChar(n)] else Digits(n / 10) + [DigitChar(n % 10)]
  }

  /** Integer.toString / Long.toString. */
  function FormatDecimal(n: int): string {
    if n < 0 then "-" + Digits(-n) else Digits(n)
  }

  lemma {:induction false} DigitsValueOfDigits(n: nat)
    ensures DigitsValue(Digits(n)) == n
  {
    if n >= 10 {
      DigitsValueOfDigits(n / 10);
      var s := Digits(n);
      assert s[..|s| - 1] == Digits(n / 10);
    }
  }

  /** Parsing what Integer.toString writes gives the number back. */
  lemma ParseFormat(n: int)
    ensures ParseDecimal(FormatDecimal(n)) == Some(n)
  {
    if n < 0 {
      DigitsValueOfDigits(-n);
      assert ("-" + Digits(-n))[1..] == Digits(-n);
    } else {
      DigitsValueOfDigits(n);
    }
  }
}
