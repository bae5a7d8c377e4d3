/**
 * String helpers shared by the whole model. Strings are sequences of Unicode
 * scalar values; where JavaScript counts or compares UTF-16 code units the
 * helpers here say so.
 */
module Strings {

  // ---------------------------------------------------------------------------
  // Prefixes, suffixes, substrings

  predicate StartsWith(s: string, p: string) {
    |p| <= |s| && s[..|p|] == p
  }

  predicate EndsWith(s: string, p: string) {
    |p| <= |s| && s[|s| - |p|..] == p
  }

  lemma {:induction false} AppendStartsWith(a: string, b: string)
    ensures StartsWith(a + b, a) && (a + b)[|a|..] == b
  {
    assert (a + b)[..|a|] == a;
  }

  lemma {:induction false} AppendEndsWith(a: string, b: string)
    ensures EndsWith(a + b, b)
  {
    assert (a + b)[|a|..] == b;
  }

  /** `s.includes(p)`: `p` occurs at some position of `s`. */
  predicate Contains(s: string, p: string) {
    exists i :: 0 <= i <= |s| - |p| && OccursAt(s, p, i)
  }

  predicate OccursAt(s: string, p: string, i: int) {
    0 <= i <= |s| - |p| && s[i..i + |p|] == p
  }

  /** A recursive form of `Contains` that Dafny can evaluate on literals. */
  predicate ContainsRec(s: string, p: string)
    decreases |s|
  {
    StartsWith(s, p) || (s != [] && ContainsRec(s[1..], p))
  }

  lemma {:induction false} ContainsRecIff(s: string, p: string)
    ensures ContainsRec(s, p) <==> Contains(s, p)
    decreases |s|
  {
    StartsAtZero(s, p);
    if s != [] {
      ContainsRecIff(s[1..], p);
      if ContainsRec(s[1..], p) {
        var i :| OccursAt(s[1..], p, i);
        OccursShift(s, p, i);
      }
      if Contains(s, p) && !StartsWith(s, p) {
        var i :| OccursAt(s, p, i);
        OccursUnshift(s, p, i);
      }
    } else if Contains(s, p) {
      var i :| OccursAt(s, p, i);
      assert OccursAt(s, p, i);
    }
  }

  lemma {:induction false} StartsAtZero(s: string, p: string)
    ensures StartsWith(s, p) <==> OccursAt(s, p, 0)
  {
    if |p| <= |s| {
      assert s[0..|p|] == s[..|p|];
    }
  }

  lemma {:induction false} OccursShift(s: string, p: string, i: int)
    requires s != [] && OccursAt(s[1..], p, i)
    ensures OccursAt(s, p, i + 1)
  {
    assert s[1..][i..i + |p|] == s[i + 1..i + 1 + |p|];
  }

  lemma {:induction false} OccursUnshift(s: string, p: string, i: int)
    requires OccursAt(s, p, i) && i != 0
    ensures OccursAt(s[1..], p, i - 1)
  {
    assert s[1..][i - 1..i - 1 + |p|] == s[i..i + |p|];
  }


  // ---------------------------------------------------------------------------
  // ASCII case mapping

  function LowerChar(c: char): char {
    if 'A' <= c <= 'Z' then (c as int + 32) as char else c
  }

  function UpperChar(c: char): char {
    if 'a' <= c <= 'z' then (c as int - 32) as char else c
  }

  /** ASCII lower-casing, character by character. */
  function Lower(s: string): (r: string)
    ensures |r| == |s|
    ensures forall i :: 0 <= i < |s| ==> r[i] == LowerChar(s[i])
  {
    if s == [] then [] else [LowerChar(s[0])] + Lower(s[1..])
  }

  lemma {:induction false} LowerAppend(a: string, b: string)
    ensures Lower(a + b) == Lower(a) + Lower(b)
  {
    assert forall i :: 0 <= i < |a + b| ==> Lower(a + b)[i] == (Lower(a) + Lower(b))[i];
  }

  lemma LowerNoUpper(s: string)
    requires forall i :: 0 <= i < |s| ==> !('A' <= s[i] <= 'Z')
    ensures Lower(s) == s
  {
  }

  lemma LowerIdempotent(s: string)
    ensures Lower(Lower(s)) == Lower(s)
  {
  }

  // ---------------------------------------------------------------------------
  // Whitespace and trimming, as String.prototype.trim defines them

  /**
   * ECMAScript WhiteSpace and LineTerminator code points: TAB, VT, FF, SP,
   * NBSP, ZWNBSP, the Space_Separator category, LF, CR, LS and PS.
   */
  predicate IsJsSpace(c: char) {
    c == '\t' || c == '\n' || c == '\U{000B}' || c == '\U{000C}' || c == '\r' || c == ' '
    || c == '\U{00A0}' || c == '\U{1680}' || ('\U{2000}' <= c <= '\U{200A}')
    || c == '\U{2028}' || c == '\U{2029}' || c == '\U{202F}' || c == '\U{205F}'
    || c == '\U{3000}' || c == '\U{FEFF}'
  }

  predicate AllSpace(s: string) {
    forall i :: 0 <= i < |s| ==> IsJsSpace(s[i])
  }

  function TrimStart(s: string): (r: string)
    ensures |r| <= |s| && r == s[|s| - |r|..]
    ensures r == [] || !IsJsSpace(r[0])
  {
    if s != [] && IsJsSpace(s[0]) then
      var r := TrimStart(s[1..]);
      TrimStartStep(s, r);
      r
    else s
  }

  lemma {:induction false} TrimStartStep(s: string, r: string)
    requires s != [] && |r| <= |s| - 1 && r == s[1..][|s| - 1 - |r|..]
    ensures r == s[|s| - |r|..]
  {
    assert s[1..][|s| - 1 - |r|..] == s[|s| - |r|..];
  }

  /** What `TrimStart` removes is whitespace. */
  lemma {:induction false} TrimStartSpaces(s: string)
    ensures forall i :: 0 <= i < |s| - |TrimStart(s)| ==> IsJsSpace(s[i])
    decreases |s|
  {
    if s != [] && IsJsSpace(s[0]) {
      var t := s[1..];
      TrimStartSpaces(t);
      forall i | 0 < i < |s| - |TrimStart(s)|
        ensures IsJsSpace(s[i])
      {
        assert s[i] == t[i - 1];
      }
    }
  }

  function TrimEnd(s: string): (r: string)
    ensures |r| <= |s| && r == s[..|r|]
    ensures r == [] || !IsJsSpace(r[|r| - 1])
  {
    if s != [] && IsJsSpace(s[|s| - 1]) then
      var r := TrimEnd(s[..|s| - 1]);
      TrimEndStep(s, s[..|s| - 1], r);
      r
    else s
  }

  lemma {:induction false} TrimEndStep(s: string, t: string, r: string)
    requires s != [] && t == s[..|s| - 1] && |r| <= |t| && r == t[..|r|]
    ensures r == s[..|r|]
  {
    assert t[..|r|] == s[..|r|];
  }

  /** What `TrimEnd` removes is whitespace. */
  lemma {:induction false} TrimEndSpaces(s: string)
    ensures forall i :: |TrimEnd(s)| <= i < |s| ==> IsJsSpace(s[i])
    decreases |s|
  {
    if s != [] && IsJsSpace(s[|s| - 1]) {
      var t := s[..|s| - 1];
      TrimEndSpaces(t);
      forall i | |TrimEnd(s)| <= i < |t|
        ensures IsJsSpace(s[i])
      {
        assert s[i] == t[i];
      }
    }
  }

  /** `s.trim()`: the infix of `s` left once the surrounding whitespace is removed. */
  function Trim(s: string): (r: string)
    ensures r == [] || (!IsJsSpace(r[0]) && !IsJsSpace(r[|r| - 1]))
    ensures exists i :: Stripped(s, i, r)
  {
    TrimBothEnds(s);
    TrimEnd(TrimStart(s))
  }

  lemma {:induction false} TrimBothEnds(s: string)
    ensures var r := TrimEnd(TrimStart(s));
      (r == [] || (!IsJsSpace(r[0]) && !IsJsSpace(r[|r| - 1]))) &&
      Stripped(s, |s| - |TrimStart(s)|, r)
  {
    TrimEdges(s);
    TrimInfix(s);
    TrimLeading(s);
    TrimTrailing(s);
  }

  lemma {:induction false} TrimEdges(s: string)
    ensures var r := TrimEnd(TrimStart(s));
      r == [] || (!IsJsSpace(r[0]) && !IsJsSpace(r[|r| - 1]))
  {
    var a := TrimStart(s);
    var r := TrimEnd(a);
    assert r != [] ==> r[0] == a[0];
  }

  lemma {:induction false} TrimInfix(s: string)
    ensures var a := TrimStart(s); var r := TrimEnd(a);
      |s| - |a| + |r| <= |s| && s[|s| - |a|..|s| - |a| + |r|] == r
  {
    PrefixOfSuffix(s, TrimStart(s), TrimEnd(TrimStart(s)));
  }

  /** A prefix of a suffix of `s` is an infix of `s`. */
  lemma {:induction false} PrefixOfSuffix(s: string, a: string, r: string)
    requires |a| <= |s| && a == s[|s| - |a|..]
    requires |r| <= |a| && r == a[..|r|]
    ensures |s| - |a| + |r| <= |s| && s[|s| - |a|..|s| - |a| + |r|] == r
  {
    var i := |s| - |a|;
    forall k | 0 <= k < |r|
      ensures s[i..i + |r|][k] == r[k]
    {
      assert s[i..i + |r|][k] == s[i + k];
      assert a[k] == s[i + k];
    }
  }

  lemma {:induction false} TrimLeading(s: string)
    ensures AllSpace(s[..|s| - |TrimStart(s)|])
  {
    var i := |s| - |TrimStart(s)|;
    TrimStartSpaces(s);
    forall k | 0 <= k < i
      ensures IsJsSpace(s[..i][k])
    {
      assert s[..i][k] == s[k];
    }
  }

  lemma {:induction false} TrimTrailing(s: string)
    ensures var a := TrimStart(s); var r := TrimEnd(a);
      AllSpace(s[|s| - |a| + |r|..])
  {
    TrimEndSpaces(TrimStart(s));
    SpaceTail(s, TrimStart(s), |TrimEnd(TrimStart(s))|);
  }

  /** What follows the first `n` characters of a suffix `a` of `s` is whitespace when it is in `a`. */
  lemma {:induction false} SpaceTail(s: string, a: string, n: nat)
    requires |a| <= |s| && a == s[|s| - |a|..] && n <= |a|
    requires forall i :: n <= i < |a| ==> IsJsSpace(a[i])
    ensures AllSpace(s[|s| - |a| + n..])
  {
    var u := s[|s| - |a| + n..];
    forall k | 0 <= k < |u|
      ensures IsJsSpace(u[k])
    {
      assert u[k] == a[n + k];
    }
  }

  /** `r` is `s` with the whitespace `s[..i]` and everything after `r` taken off. */
  predicate Stripped(s: string, i: int, r: string) {
    0 <= i <= |s| - |r| && s[i..i + |r|] == r && AllSpace(s[..i]) && AllSpace(s[i + |r|..])
  }

  /** Trimming adds no character: one absent from `s` is absent from `Trim(s)`. */
  lemma {:induction false} TrimKeepsOut(s: string, c: char)
    requires c !in s
    ensures c !in Trim(s)
  {
    var r := Trim(s);
    var i :| Stripped(s, i, r);
    InfixKeepsOut(s, i, r, c);
  }

  lemma {:induction false} InfixKeepsOut(s: string, i: int, r: string, c: char)
    requires c !in s && 0 <= i <= |s| - |r| && s[i..i + |r|] == r
    ensures c !in r
  {
    forall k | 0 <= k < |r|
      ensures r[k] != c
    {
      assert r[k] == s[i + k];
    }
  }

  lemma TrimNoSpace(s: string)
    requires s == [] || (!IsJsSpace(s[0]) && !IsJsSpace(s[|s| - 1]))
    ensures Trim(s) == s
  {
  }

  // ---------------------------------------------------------------------------
  // Lengths as JavaScript counts them

  /** `s.length`: the number of UTF-16 code units, two for a code point above U+FFFF. */
  function Utf16Length(s: string): (n: nat)
    ensures |s| <= n <= 2 * |s|
  {
    if s == [] then 0 else (if s[0] as int >= 0x10000 then 2 else 1) + Utf16Length(s[1..])
  }

  // ---------------------------------------------------------------------------
  // Decimal numerals

  predicate IsDigit(c: char) {
    '0' <= c <= '9'
  }

  predicate AllDigits(s: string) {
    forall i :: 0 <= i < |s| ==> IsDigit(s[i])
  }

  function DigitChar(d: nat): (c: char)
    requires d < 10
    ensures IsDigit(c) && c as int - '0' as int == d
  {
    ('0' as int + d) as char
  }

  /** `String(n)` for a non-negative integer: shortest decimal numeral. */
  function NatToString(n: nat): (r: string)
    ensures |r| >= 1 && AllDigits(r)
    ensures r[0] != '0' || r == "0"
    decreases n
  {
    if n < 10 then [DigitChar(n)] else NatToString(n / 10) + [DigitChar(n % 10)]
  }

  /** The value of a string of decimal digits (empty counts as 0). */
  function DigitsValue(s: string): nat
    requires AllDigits(s)
  {
    if s == [] then 0 else DigitsValue(s[..|s| - 1]) * 10 + (s[|s| - 1] as int - '0' as int)
  }

  lemma {:induction false} NatToStringRoundTrip(n: nat)
    ensures DigitsValue(NatToString(n)) == n
    decreases n
  {
    if n >= 10 {
      NatToStringRoundTrip(n / 10);
      var r := NatToString(n);
      assert r[..|r| - 1] == NatToString(n / 10);
    }
  }

  lemma NatToStringInjective(a: nat, b: nat)
    requires NatToString(a) == NatToString(b)
    ensures a == b
  {
    NatToStringRoundTrip(a);
    NatToStringRoundTrip(b);
  }

  /** `String(i)` for an integer. */
  function IntToString(i: int): (r: string)
    ensures |r| >= 1
    ensures forall k :: 0 <= k < |r| ==> IsDigit(r[k]) || (k == 0 && r[k] == '-')
  {
    if i < 0 then "-" + NatToString(-i) else NatToString(i)
  }

  // ---------------------------------------------------------------------------
  // Splitting on one character, as String.prototype.split does

  function FirstIndexOf(s: string, c: char): (i: nat)
    requires c in s
    ensures i < |s| && s[i] == c && c !in s[..i]
  {
    if s[0] == c then 0 else 1 + FirstIndexOf(s[1..], c)
  }

  /** The first occurrence is the one with none before it. */
  lemma {:induction false} FirstIndexOfIs(s: string, c: char, i: nat)
    requires i < |s| && s[i] == c && c !in s[..i]
    ensures FirstIndexOf(s, c) == i
  {
    var j := FirstIndexOf(s, c);
    assert forall k :: 0 <= k < i ==> s[k] != c by {
      assert forall k :: 0 <= k < i ==> s[..i][k] == s[k];
    }
    assert forall k :: 0 <= k < j ==> s[k] != c by {
      assert forall k :: 0 <= k < j ==> s[..j][k] == s[k];
    }
  }

  /** `s.split(sep)` for a one-character separator; always at least one piece. */
  function Split(s: string, sep: char): (r: seq<string>)
    ensures |r| >= 1
    ensures forall k :: 0 <= k < |r| ==> sep !in r[k]
    decreases |s|
  {
    if sep !in s then [s]
    else [s[..FirstIndexOf(s, sep)]] + Split(AfterFirst(s, sep), sep)
  }

  /** `parts.join(sep)`. */
  function Join(parts: seq<string>, sep: char): string
    requires |parts| >= 1
  {
    if |parts| == 1 then parts[0] else parts[0] + [sep] + Join(parts[1..], sep)
  }

  lemma {:induction false} SplitJoin(s: string, sep: char)
    ensures Join(Split(s, sep), sep) == s
    decreases |s|
  {
    if sep in s {
      var i := FirstIndexOf(s, sep);
      SplitUnfold(s, sep);
      SplitJoin(s[i + 1..], sep);
      JoinCons(s[..i], Split(s[i + 1..], sep), sep);
      AroundIndex(s, i);
    }
  }

  lemma {:induction false} SplitUnfold(s: string, sep: char)
    requires sep in s
    ensures Split(s, sep) == [s[..FirstIndexOf(s, sep)]] + Split(s[FirstIndexOf(s, sep) + 1..], sep)
  {
    assert AfterFirst(s, sep) == s[FirstIndexOf(s, sep) + 1..];
  }

  /** `s` is what precedes index `i`, the character there, and what follows. */
  lemma {:induction false} AroundIndex(s: string, i: nat)
    requires i < |s|
    ensures s == s[..i] + [s[i]] + s[i + 1..]
  {
  }

  lemma {:induction false} JoinCons(h: string, rest: seq<string>, sep: char)
    requires |rest| >= 1
    ensures Join([h] + rest, sep) == h + [sep] + Join(rest, sep)
  {
    assert ([h] + rest)[0] == h && ([h] + rest)[1..] == rest;
  }

  /** Splitting a piece free of `sep`, the separator and the rest gives the piece, then the rest's pieces. */
  lemma {:induction false} SplitCons(h: string, t: string, sep: char)
    requires sep !in h
    ensures Split(h + [sep] + t, sep) == [h] + Split(t, sep)
  {
    var s := h + [sep] + t;
    assert s[|h|] == sep;
    assert s[..|h|] == h;
    FirstIndexOfIs(s, sep, |h|);
    assert AfterFirst(s, sep) == s[|h| + 1..] == t;
  }

  lemma {:induction false} JoinSplit(parts: seq<string>, sep: char)
    requires |parts| >= 1
    requires forall k :: 0 <= k < |parts| ==> sep !in parts[k]
    ensures Split(Join(parts, sep), sep) == parts
    decreases |parts|
  {
    if |parts| > 1 {
      JoinSplit(parts[1..], sep);
      SplitCons(parts[0], Join(parts[1..], sep), sep);
      assert [parts[0]] + parts[1..] == parts;
    }
  }

  /** Text without the separator is a single piece. */
  lemma {:induction false} SplitNone(s: string, sep: char)
    requires sep !in s
    ensures Split(s, sep) == [s]
  {
  }

  /** The text before the first `sep`, i.e. `s.split(sep)[0]`. */
  lemma {:induction false} SplitHead(s: string, sep: char)
    ensures Split(s, sep)[0] == (if sep in s then s[..FirstIndexOf(s, sep)] else s)
  {
  }

  /** The last piece of `s.split(sep)`, i.e. `s.split(sep).pop()`. */
  function LastPiece(s: string, sep: char): (r: string)
    ensures sep !in r && EndsWith(s, r)
    decreases |s|
  {
    if sep !in s then s
    else
      var r := LastPiece(AfterFirst(s, sep), sep);
      EndsWithTail(s, FirstIndexOf(s, sep) + 1, r);
      r
  }

  /** What follows the first `sep`. */
  function AfterFirst(s: string, sep: char): (t: string)
    requires sep in s
    ensures |t| < |s|
  {
    s[FirstIndexOf(s, sep) + 1..]
  }

  lemma {:induction false} EndsWithTail(s: string, i: nat, r: string)
    requires i <= |s| && EndsWith(s[i..], r)
    ensures EndsWith(s, r)
  {
    assert s[|s| - |r|..] == s[i..][|s| - i - |r|..];
  }

  function Last(parts: seq<string>): string
    requires |parts| >= 1
  {
    parts[|parts| - 1]
  }

  /** `LastPiece` is the last element of `Split`. */
  lemma {:induction false} LastPieceOfSplit(s: string, sep: char)
    ensures LastPiece(s, sep) == Last(Split(s, sep))
    decreases |s|
  {
    if sep in s {
      var t := AfterFirst(s, sep);
      LastPieceOfSplit(t, sep);
      LastCons(s[..FirstIndexOf(s, sep)], Split(t, sep));
    } else {
      assert Split(s, sep) == [s];
    }
  }

  lemma {:induction false} LastCons(h: string, rest: seq<string>)
    requires |rest| >= 1
    ensures Last([h] + rest) == Last(rest)
  {
  }

  /** The last piece is empty only when the text is empty or ends with the separator. */
  lemma {:induction false} LastPieceEmpty(s: string, sep: char)
    ensures LastPiece(s, sep) == [] ==> s == [] || s[|s| - 1] == sep
    decreases |s|
  {
    if sep in s {
      var i := FirstIndexOf(s, sep);
      var t := s[i + 1..];
      LastPieceEmpty(t, sep);
      if t == [] {
        assert i == |s| - 1;
      } else {
        assert t[|t| - 1] == s[|s| - 1];
      }
    }
  }
}
