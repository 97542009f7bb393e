/**
 * The JavaScript string operations the application relies on, as functions on
 * `seq<char>`: `split`, `join`, `trim`, `toLowerCase`/`toUpperCase` (ASCII
 * letters only), `includes`, decimal `toString` and `padStart`.
 */
module Strings {

  // ---------------------------------------------------------------------------
  // split / join
  // ---------------------------------------------------------------------------

  /** The index of the first character of `s` in `seps`, or `|s|` if none is. */
  function FirstSep(s: string, seps: set<char>): (k: nat)
    ensures k <= |s|
    ensures NoneIn(s[..k], seps)
    ensures k < |s| ==> s[k] in seps
  {
    if s == [] || s[0] in seps then 0
    else
      var k := FirstSep(s[1..], seps);
      assert s[..k + 1] == [s[0]] + s[1..][..k];
      k + 1
  }

  /** `s.split(sep)` where the separator is one character out of `seps`
      (a one-character string or a character class such as /[._-]/): the
      text up to the first separator, then the split of what follows it. */
  function Split(s: string, seps: set<char>): (parts: seq<string>)
    ensures |parts| >= 1
    decreases |s|
  {
    var k := FirstSep(s, seps);
    if k == |s| then [s] else [s[..k]] + Split(s[k + 1..], seps)
  }

  /** `parts.join(sep)`. */
  function Join(parts: seq<string>, sep: string): string
  {
    if |parts| == 0 then []
    else if |parts| == 1 then parts[0]
    else parts[0] + sep + Join(parts[1..], sep)
  }

  predicate NoneIn(s: string, seps: set<char>)
  {
    forall k :: 0 <= k < |s| ==> s[k] !in seps
  }

  /** No part produced by Split contains a separator. */
  lemma {:induction false} SplitPartsHaveNoSeparator(s: string, seps: set<char>)
    ensures forall i :: 0 <= i < |Split(s, seps)| ==> NoneIn(Split(s, seps)[i], seps)
    decreases |s|
  {
    var k := FirstSep(s, seps);
    if k < |s| {
      SplitPartsHaveNoSeparator(s[k + 1..], seps);
    }
  }

  /** Joining the parts back with the separator gives the original string. */
  lemma {:induction false} JoinSplit(s: string, c: char)
    ensures Join(Split(s, {c}), [c]) == s
    decreases |s|
  {
    var k := FirstSep(s, {c});
    if k < |s| {
      var rest := s[k + 1..];
      JoinSplit(rest, c);
      var parts := Split(rest, {c});
      assert Split(s, {c}) == [s[..k]] + parts;
      assert s == s[..k] + [c] + rest;
      JoinStep(Split(s, {c}), s[..k], parts, [c], s);
    }
  }

  /** Joining a first part and more parts puts the separator after the first. */
  lemma JoinStep(whole: seq<string>, first: string, parts: seq<string>, sep: string, s: string)
    requires whole == [first] + parts && |parts| >= 1
    requires s == first + sep + Join(parts, sep)
    ensures Join(whole, sep) == s
  {
    JoinCons(first, parts, sep);
  }

  lemma JoinCons(p: string, parts: seq<string>, sep: string)
    requires |parts| >= 1
    ensures Join([p] + parts, sep) == p + sep + Join(parts, sep)
  {
    assert ([p] + parts)[1..] == parts;
  }

  /** A string with no separator splits into itself alone. */
  lemma SplitNoSeparator(s: string, seps: set<char>)
    requires NoneIn(s, seps)
    ensures Split(s, seps) == [s]
  {
  }

  /** Text without a separator, a separator, then more: the text is the first
      part and the rest splits on its own. */
  lemma SplitAtSeparator(a: string, c: char, b: string, seps: set<char>)
    requires NoneIn(a, seps) && c in seps
    ensures Split(a + [c] + b, seps) == [a] + Split(b, seps)
  {
    var t := a + [c] + b;
    assert t[..|a|] == a && t[|a|] == c && t[|a| + 1..] == b;
    FirstSepUnique(t, seps, |a|);
  }

  /** Two separators between separator-free texts split into three parts. */
  lemma SplitThree(a: string, b: string, c: string, sep: char)
    requires NoneIn(a, {sep}) && NoneIn(b, {sep}) && NoneIn(c, {sep})
    ensures Split(a + [sep] + b + [sep] + c, {sep}) == [a, b, c]
  {
    assert a + [sep] + b + [sep] + c == a + [sep] + (b + [sep] + c);
    SplitAtSeparator(a, sep, b + [sep] + c, {sep});
    SplitAtSeparator(b, sep, c, {sep});
    SplitNoSeparator(c, {sep});
  }

  /** The three facts `FirstSep` promises pin its value down. */
  lemma FirstSepUnique(s: string, seps: set<char>, k: nat)
    requires k <= |s| && NoneIn(s[..k], seps)
    requires k < |s| ==> s[k] in seps
    ensures FirstSep(s, seps) == k
  {
  }

  // ---------------------------------------------------------------------------
  // case mapping (ASCII letters only)
  // ---------------------------------------------------------------------------

  function LowerChar(c: char): char
  {
    if 'A' <= c <= 'Z' then (c as int + 32) as char else c
  }

  function UpperChar(c: char): char
  {
    if 'a' <= c <= 'z' then (c as int - 32) as char else c
  }

  /** `s.toLowerCase()`, restricted to ASCII letters. */
  function ToLower(s: string): (r: string)
    ensures |r| == |s|
    ensures forall i :: 0 <= i < |s| ==> r[i] == LowerChar(s[i])
  {
    seq(|s|, i requires 0 <= i < |s| => LowerChar(s[i]))
  }

  /** `s.toUpperCase()`, restricted to ASCII letters. */
  function ToUpper(s: string): (r: string)
    ensures |r| == |s|
    ensures forall i :: 0 <= i < |s| ==> r[i] == UpperChar(s[i])
  {
    seq(|s|, i requires 0 <= i < |s| => UpperChar(s[i]))
  }

  // ---------------------------------------------------------------------------
  // includes
  // ---------------------------------------------------------------------------

  predicate StartsWith(s: string, prefix: string)
  {
    |prefix| <= |s| && s[..|prefix|] == prefix
  }

  /** `s.includes(sub)`: `sub` occurs at some offset of `s` (the empty string occurs everywhere). */
  predicate Contains(s: string, sub: string)
  {
    exists i :: 0 <= i <= |s| && StartsWith(s[i..], sub)
  }

  // ---------------------------------------------------------------------------
  // trim
  // ---------------------------------------------------------------------------

  /** The characters `String.prototype.trim` removes: ECMAScript WhiteSpace
      (TAB, VT, FF, SP, NBSP, ZWNBSP and the Unicode Zs category) and
      LineTerminator (LF, CR, LS, PS). */
  predicate IsWhitespace(c: char)
  {
    c == '\t' || c == '\n' || c == '\U{000B}' || c == '\U{000C}' || c == '\r' || c == ' ' ||
    c == '\U{00A0}' || c == '\U{1680}' || ('\U{2000}' <= c <= '\U{200A}') ||
    c == '\U{2028}' || c == '\U{2029}' || c == '\U{202F}' || c == '\U{205F}' ||
    c == '\U{3000}' || c == '\U{FEFF}'
  }

  function TrimStart(s: string): (r: string)
    ensures |r| <= |s| && r == s[|s| - |r|..]
    ensures r == [] || !IsWhitespace(r[0])
    ensures forall k :: 0 <= k < |s| - |r| ==> IsWhitespace(s[k])
  {
    if s != [] && IsWhitespace(s[0]) then TrimStart(s[1..]) else s
  }

  function TrimEnd(s: string): (r: string)
    ensures |r| <= |s| && r == s[..|r|]
    ensures r == [] || !IsWhitespace(r[|r| - 1])
    ensures forall k :: |r| <= k < |s| ==> IsWhitespace(s[k])
  {
    if s != [] && IsWhitespace(s[|s| - 1]) then TrimEnd(s[..|s| - 1]) else s
  }

  /** `s.trim()`. */
  function Trim(s: string): string
  {
    TrimEnd(TrimStart(s))
  }

  /** A trimmed string neither starts nor ends with whitespace. */
  lemma TrimEnds(s: string)
    ensures var r := Trim(s);
      r != [] ==> !IsWhitespace(r[0]) && !IsWhitespace(r[|r| - 1])
  {
    var t := TrimStart(s);
    if Trim(s) != [] {
      assert Trim(s)[0] == t[0];
    }
  }

  /** `!s.trim()`: the trimmed string is empty. */
  predicate IsBlank(s: string)
  {
    Trim(s) == []
  }

  /** A string is blank exactly when every character is whitespace. */
  lemma BlankIffAllWhitespace(s: string)
    ensures IsBlank(s) <==> forall k :: 0 <= k < |s| ==> IsWhitespace(s[k])
  {
    var t := TrimStart(s);
    if IsBlank(s) {
      forall k | 0 <= k < |s| ensures IsWhitespace(s[k]) {
        if k >= |s| - |t| {
          assert t[k - (|s| - |t|)] == s[k];
        }
      }
    } else {
      var r := Trim(s);
      assert r != [] && !IsWhitespace(r[0]);
      assert r[0] == t[0] == s[|s| - |t|];
    }
  }

  // ---------------------------------------------------------------------------
  // decimal numerals: Number.prototype.toString() and padStart
  // ---------------------------------------------------------------------------

  predicate IsDigit(c: char)
  {
    '0' <= c <= '9'
  }

  function DigitChar(d: nat): (c: char)
    requires d < 10
    ensures IsDigit(c) && DigitValue(c) == d
  {
    ('0' as int + d) as char
  }

  function DigitValue(c: char): nat
    requires IsDigit(c)
  {
    c as int - '0' as int
  }

  predicate AllDigits(s: string)
  {
    forall k :: 0 <= k < |s| ==> IsDigit(s[k])
  }

  /** `n.toString()` for a non-negative integer: no leading zero except "0" itself. */
  function NatToString(n: nat): (r: string)
    ensures |r| >= 1 && AllDigits(r)
    ensures r[0] == '0' ==> n == 0
    ensures n < 10 ==> |r| == 1
    ensures n < 100 ==> |r| <= 2
  {
    if n < 10 then [DigitChar(n)] else NatToString(n / 10) + [DigitChar(n % 10)]
  }

  /** The value of a string of decimal digits (the reading a human gives it). */
  function ParseNat(s: string): nat
    requires AllDigits(s)
  {
    if s == [] then 0 else ParseNat(s[..|s| - 1]) * 10 + DigitValue(s[|s| - 1])
  }

  /** Reading a printed number gives the number back. */
  lemma {:induction false} ParseNatToString(n: nat)
    ensures ParseNat(NatToString(n)) == n
  {
    if n >= 10 {
      ParseNatToString(n / 10);
      var s := NatToString(n);
      assert s[..|s| - 1] == NatToString(n / 10);
    }
  }

  /** Leading zeros do not change the value. */
  lemma {:induction false} ParseNatLeadingZero(t: string)
    requires AllDigits(t)
    ensures ParseNat(['0'] + t) == ParseNat(t)
    decreases |t|
  {
    if t != [] {
      var z := ['0'] + t;
      assert z[..|z| - 1] == ['0'] + t[..|t| - 1];
      ParseNatLeadingZero(t[..|t| - 1]);
    }
  }

  /** `s.padStart(len, fill)`. */
  function PadStart(s: string, len: nat, fill: char): (r: string)
    ensures |r| == if |s| >= len then |s| else len
    ensures r[|r| - |s|..] == s
    ensures forall k :: 0 <= k < |r| - |s| ==> r[k] == fill
  {
    if |s| >= len then s else seq(len - |s|, _ => fill) + s
  }

  /** `n.toString().padStart(2, '0')`. */
  function TwoDigits(n: nat): (r: string)
    ensures AllDigits(r) && |r| >= 2
    ensures n < 100 ==> |r| == 2
  {
    PadStart(NatToString(n), 2, '0')
  }

  /** The padded numeral still reads as the number. */
  lemma TwoDigitsValue(n: nat)
    ensures ParseNat(TwoDigits(n)) == n
  {
    ParseNatToString(n);
    var s := NatToString(n);
    if |s| < 2 {
      assert TwoDigits(n) == ['0'] + s;
      ParseNatLeadingZero(s);
    }
  }

  /** Digits contain no separator character used by the duration formats. */
  lemma DigitsHaveNoSeparator(s: string, seps: set<char>)
    requires AllDigits(s)
    requires forall c :: c in seps ==> !IsDigit(c)
    ensures NoneIn(s, seps)
  {
  }
}
