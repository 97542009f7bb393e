/**
 * The avatar helpers of `UserAvatar` (src/UserAvatar.tsx): the initials shown
 * in the avatar and the palette colour chosen by a hash of the email. The
 * hash follows JavaScript number semantics: `<<` converts its operand with
 * ToInt32 and yields a 32-bit signed result, while `+` and `-` work on
 * doubles, which stay exact for the values reached here (`HashExact`).
 */
module UserAvatar {
  import opened Wrappers
  import opened Strings

  // ---------------------------------------------------------------------
  // getInitials
  // ---------------------------------------------------------------------

  /** `part.charAt(0).toUpperCase()`: empty for an empty part. */
  function FirstUpper(part: string): (r: string)
    ensures |r| <= 1
  {
    if part == [] then [] else [UpperChar(part[0])]
  }

  function MapFirstUpper(parts: seq<string>): (r: seq<string>)
    ensures |r| == |parts|
    ensures forall k :: 0 <= k < |parts| ==> r[k] == FirstUpper(parts[k])
  {
    seq(|parts|, k requires 0 <= k < |parts| => FirstUpper(parts[k]))
  }

  /** The segments of the part of the email before the first `@`, split at
      `.`, `_` and `-`. */
  function Segments(email: string): (parts: seq<string>)
    ensures |parts| >= 1
  {
    Split(Split(email, {'@'})[0], {'.', '_', '-'})
  }

  /** `getInitials`: `split('@')[0].split(/[._-]/).map(...).slice(0, 2).join('')`. */
  function Initials(email: string): string
  {
    var firsts := MapFirstUpper(Segments(email));
    Join(firsts[..if |firsts| < 2 then |firsts| else 2], "")
  }

  /** The initials are the upper-cased first characters of the first two
      segments; an empty segment counts as one of the two and gives nothing. */
  lemma InitialsSpec(email: string)
    ensures var parts := Segments(email);
      Initials(email) == FirstUpper(parts[0]) + (if |parts| >= 2 then FirstUpper(parts[1]) else [])
    ensures |Initials(email)| <= 2
  {
    var parts := Segments(email);
    var firsts := MapFirstUpper(parts);
    if |parts| >= 2 {
      var two := firsts[..2];
      assert two == [firsts[0]] + [firsts[1]];
      JoinCons(firsts[0], [firsts[1]], "");
      assert Join([firsts[1]], "") == firsts[1];
    } else {
      assert firsts[..1] == [firsts[0]];
    }
  }

  /** Only the text before the first `@` counts. */
  lemma InitialsIgnoreDomain(local: string, domain: string)
    requires '@' !in local
    ensures Initials(local + "@" + domain) == Initials(local)
  {
    assert NoneIn(local, {'@'});
    SplitAtSeparator(local, '@', domain, {'@'});
    SplitNoSeparator(local, {'@'});
    assert local + "@" + domain == local + ['@'] + domain;
  }

  /** An empty segment still counts as one of the two: `"a..b@x"` shows
      only `A`. */
  lemma InitialsEmptySegment(x: char, sep: char, rest: string, domain: string)
    requires sep in {'.', '_', '-'} && x !in {'.', '_', '-', '@'}
    requires NoneIn(rest, {'.', '_', '-', '@'})
    ensures Initials([x, sep, sep] + rest + "@" + domain) == [UpperChar(x)]
  {
    var local := [x, sep, sep] + rest;
    assert '@' !in local by {
      assert forall k :: 0 <= k < |rest| ==> local[k + 3] == rest[k];
    }
    InitialsIgnoreDomain(local, domain);
    SegmentsWithEmpty(x, sep, rest);
    InitialsSpec(local);
  }

  /** A letter, two separators and a rest without separators: the second
      segment is empty. */
  lemma SegmentsWithEmpty(x: char, sep: char, rest: string)
    requires sep in {'.', '_', '-'} && x !in {'.', '_', '-', '@'}
    requires NoneIn(rest, {'.', '_', '-', '@'})
    ensures Segments([x, sep, sep] + rest) == [[x], [], rest]
  {
    var seps := {'.', '_', '-'};
    var local := [x, sep, sep] + rest;
    assert NoneIn(local, {'@'});
    SplitNoSeparator(local, {'@'});
    assert local == [x] + [sep] + ([] + [sep] + rest);
    SplitAtSeparator([x], sep, [] + [sep] + rest, seps);
    SplitAtSeparator([], sep, rest, seps);
    SplitNoSeparator(rest, seps);
  }

  // ---------------------------------------------------------------------
  // getAvatarColor
  // ---------------------------------------------------------------------

  const Palette: seq<string> := [
    "#FF6B6B", "#4ECDC4", "#45B7D1", "#96CEB4", "#FFEAA7",
    "#DDA0DD", "#98D8C8", "#F7DC6F", "#BB8FCE", "#85C1E9"]

  const TwoTo32: int := 0x1_0000_0000
  const TwoTo31: int := 0x8000_0000

  /** ECMAScript ToInt32 on an integer value: wrap into [-2^31, 2^31). */
  function ToInt32(x: int): (r: int)
    ensures -TwoTo31 <= r < TwoTo31
    ensures (r - x) % TwoTo32 == 0
  {
    var m := x % TwoTo32;
    if m >= TwoTo31 then m - TwoTo32 else m
  }

  /** `hash << 5`. */
  function ShiftLeft5(hash: int): int
  {
    ToInt32(ToInt32(hash) * 32)
  }

  /** `email.charCodeAt(i)`. */
  function CharCode(c: char): int
  {
    c as int
  }

  /** The value of `hash` after the loop has read all of `s`. */
  function Hash(s: string): int
  {
    if s == [] then 0
    else
      var h := Hash(s[..|s| - 1]);
      CharCode(s[|s| - 1]) + (ShiftLeft5(h) - h)
  }

  function Abs(x: int): nat
  {
    if x < 0 then -x else x
  }

  /** Each step adds at most a character code and a 32-bit value, so the
      hash of `n` characters stays within `n * 2^32` of zero. */
  lemma {:induction false} HashBound(s: string)
    ensures -|s| * TwoTo32 <= Hash(s) <= |s| * TwoTo32
  {
    if s != [] {
      var p := s[..|s| - 1];
      HashBound(p);
      assert CharCode(s[|s| - 1]) < 0x11_0000;
    }
  }

  /** For emails of up to 2^20 characters every intermediate value is an
      integer below 2^53, so the double arithmetic of the source is exact
      and the integer model computes what it computes. */
  lemma HashExact(s: string)
    requires |s| <= 0x10_0000
    ensures -0x20_0000_0000_0000 < Hash(s) < 0x20_0000_0000_0000
  {
    HashBound(s);
  }

  /** `getAvatarColor`: hashes the email character by character and picks
      the palette entry at `|hash| % 10`. */
  method AvatarColor(email: string) returns (color: string)
    ensures color == Palette[Abs(Hash(email)) % |Palette|]
  {
    var hash := 0;
    var i := 0;
    while i < |email|
      invariant 0 <= i <= |email|
      invariant hash == Hash(email[..i])
    {
      assert email[..i + 1][..i] == email[..i];
      hash := CharCode(email[i]) + (ShiftLeft5(hash) - hash);
      i := i + 1;
    }
    assert email[..|email|] == email;
    color := Palette[Abs(hash) % |Palette|];
  }

  /** The hash the loop is written to compute: `hash * 31 + code`, which is
      what `(hash << 5) - hash + code` means while `hash << 5` does not wrap. */
  function PolyHash(s: string): int
  {
    if s == [] then 0 else 31 * PolyHash(s[..|s| - 1]) + CharCode(s[|s| - 1])
  }

  /** ToInt32 leaves a value that already fits in 32 bits alone. */
  lemma ToInt32InRange(x: int)
    requires -TwoTo31 <= x < TwoTo31
    ensures ToInt32(x) == x
  {
  }

  /** While no `hash << 5` overflows, the hash is the polynomial hash
      `31 * hash + code`, and the colour is picked from it. */
  lemma {:induction false} HashIsPolynomial(s: string)
    requires forall k :: 0 <= k < |s| ==> -TwoTo31 <= 32 * PolyHash(s[..k]) < TwoTo31
    ensures Hash(s) == PolyHash(s)
    ensures Palette[Abs(Hash(s)) % |Palette|] == Palette[Abs(PolyHash(s)) % |Palette|]
  {
    if s != [] {
      var p := s[..|s| - 1];
      forall k | 0 <= k < |p| ensures -TwoTo31 <= 32 * PolyHash(p[..k]) < TwoTo31 {
        assert p[..k] == s[..k];
      }
      HashIsPolynomial(p);
      var h := PolyHash(p);
      assert -TwoTo31 <= 32 * h < TwoTo31;
      ToInt32InRange(h);
      ToInt32InRange(h * 32);
      assert ShiftLeft5(h) == 32 * h;
    }
  }

  /** Once the loop has read `xy`, the hash is `31 * code(x) + code(y)`. */
  lemma TwoCharacterHash(x: char, y: char)
    ensures Hash([x, y]) == 31 * CharCode(x) + CharCode(y)
  {
    var s := [x, y];
    assert s[..0] == [] && s[..1] == [x];
    assert 32 * CharCode(x) < TwoTo31;
    HashIsPolynomial(s);
  }

  /** An `ab` email gets entry `(31 * 97 + 98) % 10 == 5` of the palette. */
  lemma TwoCharacterColor()
    ensures Palette[Abs(Hash("ab")) % |Palette|] == "#DDA0DD"
  {
    TwoCharacterHash('a', 'b');
    assert "ab" == ['a', 'b'];
  }

  /** A missing email is read as `""`, which hashes to 0: the first palette
      colour and no initials. */
  lemma MissingEmail(email: Option<string>)
    requires email.None? || email == Some("")
    ensures var e := email.GetOr("");
      Hash(e) == 0 && Palette[Abs(Hash(e)) % |Palette|] == "#FF6B6B" && Initials(e) == ""
  {
    var e := email.GetOr("");
    assert e == "";
    SplitNoSeparator("", {'@'});
    SplitNoSeparator("", {'.', '_', '-'});
    InitialsSpec("");
  }
}
