/**
 * The text helpers of `SetlistManager` (src/App.tsx): chord extraction from
 * bracketed lyrics, the lyrics-line tokenizer and the interval formatter.
 *
 * The chord pattern `\[([A-G][#b]?m?(?:maj7|min7|7|sus2|sus4|add9|6|9|11|13)?(?:\/[A-G][#b]?)?)\]`
 * is modelled by `MatchesChordPattern` on the bracketed text (and read left to
 * right by `IsChordName`, which agrees with it). None of the pattern's
 * characters is `]`, so a match starting at a `[` closes at the first `]`
 * after it; the global scan takes the leftmost match at or after the previous
 * one's end (`NextMatch`).
 */
module SongText {
  import opened Wrappers
  import opened Strings
  import opened Sequences

  // ---------------------------------------------------------------------
  // The chord pattern
  // ---------------------------------------------------------------------

  /** `[A-G][#b]?` */
  predicate IsNote(s: string)
  {
    (|s| == 1 || |s| == 2) && 'A' <= s[0] <= 'G' && (|s| == 2 ==> s[1] == '#' || s[1] == 'b')
  }

  /** The alternatives of `(?:maj7|min7|7|sus2|sus4|add9|6|9|11|13)`. */
  predicate IsExtension(s: string)
  {
    s == "maj7" || s == "min7" || s == "7" || s == "sus2" || s == "sus4" ||
    s == "add9" || s == "6" || s == "9" || s == "11" || s == "13"
  }

  /** `m?` followed by an optional extension. */
  predicate IsQuality(s: string)
  {
    s == [] || IsExtension(s) || (s[0] == 'm' && (|s| == 1 || IsExtension(s[1..])))
  }

  /** `(?:\/[A-G][#b]?)?` */
  predicate IsBass(s: string)
  {
    s == [] || (s[0] == '/' && IsNote(s[1..]))
  }

  /** The regular expression's reading of the text between the brackets: it
      splits into a note, a quality and a bass. */
  predicate MatchesChordPattern(s: string)
  {
    exists i, j :: 0 < i <= j <= |s| && IsNote(s[..i]) && IsQuality(s[i..j]) && IsBass(s[j..])
  }

  /** How long the note at the start of `s` is: its letter, and the accidental
      when one follows. */
  function NoteLength(s: string): (n: nat)
    requires s != []
    ensures 1 <= n <= |s|
  {
    if |s| >= 2 && (s[1] == '#' || s[1] == 'b') then 2 else 1
  }

  /** The text between the brackets of a chord, read left to right: a note,
      then everything up to the first `/` is the quality and the rest the bass. */
  predicate IsChordName(s: string)
  {
    s != [] && 'A' <= s[0] <= 'G' &&
    var rest := s[NoteLength(s)..];
    var k := FirstSep(rest, {'/'});
    IsQuality(rest[..k]) && IsBass(rest[k..])
  }

  /** A quality never contains `/` and never starts with an accidental. */
  lemma QualityShape(q: string)
    requires IsQuality(q)
    ensures NoneIn(q, {'/'})
    ensures q == [] || (q[0] != '#' && q[0] != 'b')
  {
  }

  /** The left-to-right reading agrees with the pattern: a text is a chord
      name exactly when the pattern matches all of it. */
  lemma ChordNameMatchesPattern(s: string)
    ensures IsChordName(s) <==> MatchesChordPattern(s)
  {
    if IsChordName(s) {
      ChordNameIsPattern(s);
    }
    if MatchesChordPattern(s) {
      var i, j :| 0 < i <= j <= |s| && IsNote(s[..i]) && IsQuality(s[i..j]) && IsBass(s[j..]);
      PatternIsChordName(s, i, j);
    }
  }

  /** The reading's own split is a split the pattern accepts. */
  lemma ChordNameIsPattern(s: string)
    requires IsChordName(s)
    ensures MatchesChordPattern(s)
  {
    var n := NoteLength(s);
    var rest := s[n..];
    var k := FirstSep(rest, {'/'});
    assert s[n..n + k] == rest[..k];
    assert s[n + k..] == rest[k..];
    assert IsNote(s[..n]);
  }

  /** Any split the pattern accepts is the reading's split. */
  lemma PatternIsChordName(s: string, i: nat, j: nat)
    requires 0 < i <= j <= |s|
    requires IsNote(s[..i]) && IsQuality(s[i..j]) && IsBass(s[j..])
    ensures IsChordName(s)
  {
    PatternNoteLength(s, i, j);
    var rest := s[i..];
    assert rest[..j - i] == s[i..j] && rest[j - i..] == s[j..];
    QualitySplit(rest, j - i);
  }

  /** A quality followed by a bass: the quality ends at the first `/`. */
  lemma QualitySplit(rest: string, q: nat)
    requires q <= |rest| && IsQuality(rest[..q]) && IsBass(rest[q..])
    ensures FirstSep(rest, {'/'}) == q
  {
    QualityShape(rest[..q]);
    if q < |rest| {
      assert rest[q..][0] == rest[q];
    }
    FirstSepUnique(rest, {'/'}, q);
  }

  /** The pattern's note is as long as the reading's. */
  lemma PatternNoteLength(s: string, i: nat, j: nat)
    requires 0 < i <= j <= |s|
    requires IsNote(s[..i]) && IsQuality(s[i..j]) && IsBass(s[j..])
    ensures s != [] && 'A' <= s[0] <= 'G' && NoteLength(s) == i
  {
    assert s[0] == s[..i][0];
    if i == 1 && |s| >= 2 {
      QualityShape(s[i..j]);
      if i < j {
        assert s[i..j][0] == s[1];
      } else {
        assert s[j..][0] == s[1];
      }
    }
    if i == 2 {
      assert s[..i][1] == s[1];
    }
  }

  /** Where a match starting at `i` would close: the first `]` after `i`, or
      the end of the line when there is none (`CloseIndexSpec`). */
  function CloseIndex(line: string, i: nat): (c: nat)
    requires i < |line|
    ensures i < c <= |line|
    ensures c < |line| ==> line[c] == ']'
  {
    var k := FirstSep(line[i + 1..], {']'});
    assert i + 1 + k < |line| ==> line[i + 1 + k] == line[i + 1..][k];
    i + 1 + k
  }

  /** No `]` lies between `i` and where a match starting there would close. */
  lemma CloseIndexSpec(line: string, i: nat)
    requires i < |line|
    ensures NoneIn(line[i + 1..CloseIndex(line, i)], {']'})
  {
    var k := FirstSep(line[i + 1..], {']'});
    assert line[i + 1..i + 1 + k] == line[i + 1..][..k];
  }

  /** The pattern matches at `i`: a `[`, a chord name, and the first `]`. */
  predicate IsMatchAt(line: string, i: nat)
    requires i < |line|
  {
    line[i] == '[' && CloseIndex(line, i) < |line| && MatchesChordPattern(line[i + 1..CloseIndex(line, i)])
  }

  /** A match at `i` closes at `c` exactly when `[` is at `i`, the first `]`
      after it is at `c` and the text between them is a chord name. */
  lemma MatchAtSpec(line: string, i: nat, c: nat)
    requires i < |line|
    ensures IsMatchAt(line, i) && CloseIndex(line, i) == c <==>
      line[i] == '[' && i < c < |line| && line[c] == ']' &&
      NoneIn(line[i + 1..c], {']'}) && MatchesChordPattern(line[i + 1..c])
  {
    CloseIndexSpec(line, i);
    if i < c < |line| && line[c] == ']' && NoneIn(line[i + 1..c], {']'}) {
      var t := line[i + 1..];
      assert t[..c - i - 1] == line[i + 1..c];
      assert t[c - i - 1] == line[c];
      FirstSepUnique(t, {']'}, c - i - 1);
    }
  }

  /** One match: the `[` at `start` and the `]` at `close`. */
  datatype ChordMatch = ChordMatch(start: nat, close: nat)

  /** `chordRegex.exec(line)` with `lastIndex == from`: the leftmost match at
      or after `from`. */
  function NextMatch(line: string, from: nat): (m: Option<ChordMatch>)
    ensures m.Some? ==> from <= m.value.start < m.value.close < |line| &&
                        line[m.value.start] == '[' && line[m.value.close] == ']'
    decreases |line| - from
  {
    if from >= |line| then None
    else if IsMatchAt(line, from) then Some(ChordMatch(from, CloseIndex(line, from)))
    else NextMatch(line, from + 1)
  }

  /** The match found is a match, and no match starts between `from` and it
      (or anywhere after `from` when none is found). */
  lemma {:induction false} NextMatchLeftmost(line: string, from: nat)
    ensures var m := NextMatch(line, from);
      (m.Some? ==> IsMatchAt(line, m.value.start) && CloseIndex(line, m.value.start) == m.value.close) &&
      forall i :: from <= i < |line| && (m.None? || i < m.value.start) ==> !IsMatchAt(line, i)
    decreases |line| - from
  {
    if from < |line| && !IsMatchAt(line, from) {
      NextMatchLeftmost(line, from + 1);
    }
  }

  /** The chord names of all matches from `from` on, as `String.prototype.match`
      with the global flag collects them (brackets removed). */
  function Tokens(line: string, from: nat): seq<string>
    decreases |line| - from
  {
    match NextMatch(line, from)
    case None => []
    case Some(m) => [line[m.start + 1..m.close]] + Tokens(line, m.close + 1)
  }

  /** The text between the brackets of a match found is a chord name. */
  lemma MatchIsChord(line: string, from: nat, m: ChordMatch)
    requires NextMatch(line, from) == Some(m)
    ensures MatchesChordPattern(line[m.start + 1..m.close])
  {
    NextMatchLeftmost(line, from);
    assert IsMatchAt(line, m.start);
    assert CloseIndex(line, m.start) == m.close;
  }

  /** Every collected name matches the chord pattern. */
  lemma {:induction false} TokensAreChords(line: string, from: nat)
    ensures forall k :: 0 <= k < |Tokens(line, from)| ==> MatchesChordPattern(Tokens(line, from)[k])
    decreases |line| - from
  {
    match NextMatch(line, from)
    case None =>
    case Some(m) =>
      TokensAreChords(line, m.close + 1);
      MatchIsChord(line, from, m);
      ConsAll(line[m.start + 1..m.close], Tokens(line, m.close + 1));
  }

  /** A chord name in front of chord names. */
  lemma ConsAll(x: string, t: seq<string>)
    requires MatchesChordPattern(x)
    requires forall k :: 0 <= k < |t| ==> MatchesChordPattern(t[k])
    ensures forall k :: 0 <= k < |[x] + t| ==> MatchesChordPattern(([x] + t)[k])
  {
  }

  // ---------------------------------------------------------------------
  // extractChordsFromLyrics
  // ---------------------------------------------------------------------

  /** `arr.filter((x, index) => arr.indexOf(x) === index)` over the first `n`
      elements. */
  function KeptUpTo(s: seq<string>, n: nat): seq<string>
    requires n <= |s|
  {
    if n == 0 then []
    else KeptUpTo(s, n - 1) + (if FirstIndex(s, s[n - 1]) == n - 1 then [s[n - 1]] else [])
  }

  function FirstOccurrences(s: seq<string>): seq<string>
  {
    KeptUpTo(s, |s|)
  }

  /** The filter keeps each value once, at its first occurrence, and keeps
      every value. */
  lemma {:induction false} KeptUpToSpec(s: seq<string>, n: nat)
    requires n <= |s|
    ensures var r := KeptUpTo(s, n);
      Distinct(r) &&
      (forall x :: x in r <==> x in s[..n]) &&
      (forall i, j :: 0 <= i < j < |r| ==> FirstIndex(s, r[i]) < FirstIndex(s, r[j]))
  {
    if n > 0 {
      KeptUpToSpec(s, n - 1);
      var p := KeptUpTo(s, n - 1);
      var x := s[n - 1];
      assert s[..n] == s[..n - 1] + [x];
      forall y | y in p ensures FirstIndex(s, y) < n - 1 {
        assert y in s[..n - 1];
        var k :| 0 <= k < n - 1 && s[..n - 1][k] == y;
        assert s[k] == y;
      }
      if FirstIndex(s, x) == n - 1 {
        assert x !in p;
        var r := p + [x];
        forall i, j | 0 <= i < j < |r| ensures FirstIndex(s, r[i]) < FirstIndex(s, r[j]) {
          if j == |p| {
            assert r[i] in p;
          } else {
            assert r[i] == p[i] && r[j] == p[j];
          }
        }
      } else {
        var k := FirstIndex(s, x);
        assert s[..n - 1][k] == x;
      }
    }
  }

  /** `extractChordsFromLyrics`: the chord names of the lyrics, each once, in
      order of first occurrence; empty lyrics give none. */
  function ExtractChords(lyrics: string): seq<string>
  {
    if lyrics == [] then [] else FirstOccurrences(Tokens(lyrics, 0))
  }

  /** Every extracted name is a chord name that occurs in the lyrics, every
      chord of the lyrics is extracted, none twice, in first-occurrence order. */
  lemma ExtractChordsSpec(lyrics: string)
    ensures var r := ExtractChords(lyrics);
      var t := Tokens(lyrics, 0);
      Distinct(r) &&
      (forall x :: x in r <==> x in t) &&
      (forall k :: 0 <= k < |r| ==> MatchesChordPattern(r[k])) &&
      (forall i, j :: 0 <= i < j < |r| ==> FirstIndex(t, r[i]) < FirstIndex(t, r[j]))
  {
    var t := Tokens(lyrics, 0);
    TokensAreChords(lyrics, 0);
    KeptUpToSpec(t, |t|);
    assert t[..|t|] == t;
    var r := ExtractChords(lyrics);
    forall k | 0 <= k < |r| ensures MatchesChordPattern(r[k]) {
      assert r[k] in t;
    }
  }

  /** Lyrics without a `[` have no chords. */
  lemma NoBracketNoChords(lyrics: string)
    requires '[' !in lyrics
    ensures ExtractChords(lyrics) == []
  {
  }

  // ---------------------------------------------------------------------
  // parseLyricsWithChords
  // ---------------------------------------------------------------------

  /** One `{ type, content }` entry of a parsed line. */
  datatype LinePart = Text(text: string) | Chord(name: string)

  /** What a part stands for in the line: its text, or the chord re-wrapped. */
  function PartSource(p: LinePart): string
  {
    match p
    case Text(t) => t
    case Chord(n) => "[" + n + "]"
  }

  function Render(parts: seq<LinePart>): string
  {
    if parts == [] then [] else PartSource(parts[0]) + Render(parts[1..])
  }

  function ChordNames(parts: seq<LinePart>): seq<string>
  {
    if parts == [] then []
    else (if parts[0].Chord? then [parts[0].name] else []) + ChordNames(parts[1..])
  }

  /** No text part is empty, and a text part is never followed by another. */
  predicate WellFormed(parts: seq<LinePart>)
  {
    (forall k :: 0 <= k < |parts| && parts[k].Text? ==> parts[k].text != []) &&
    (forall k :: 0 <= k < |parts| - 1 && parts[k].Text? ==> parts[k + 1].Chord?)
  }

  /** The parts one match contributes: the text since `from`, if any, and
      the chord. */
  function Step(line: string, from: nat, m: ChordMatch): seq<LinePart>
    requires from <= m.start < m.close < |line|
  {
    (if m.start > from then [Text(line[from..m.start])] else []) + [Chord(line[m.start + 1..m.close])]
  }

  /** The parts of `line[from..]`, as the tokenizer loop produces them. */
  function PartsFrom(line: string, from: nat): seq<LinePart>
    requires from <= |line|
    decreases |line| - from
  {
    match NextMatch(line, from)
    case None => if from < |line| then [Text(line[from..])] else []
    case Some(m) => Step(line, from, m) + PartsFrom(line, m.close + 1)
  }

  lemma {:induction false} RenderAppend(a: seq<LinePart>, b: seq<LinePart>)
    ensures Render(a + b) == Render(a) + Render(b)
  {
    if a == [] {
      assert a + b == b;
    } else {
      var c := a + b;
      assert c[0] == a[0] && c[1..] == a[1..] + b;
      RenderAppend(a[1..], b);
      calc {
        Render(c);
        PartSource(a[0]) + Render(a[1..] + b);
        PartSource(a[0]) + (Render(a[1..]) + Render(b));
        (PartSource(a[0]) + Render(a[1..])) + Render(b);
      }
    }
  }

  lemma {:induction false} ChordNamesAppend(a: seq<LinePart>, b: seq<LinePart>)
    ensures ChordNames(a + b) == ChordNames(a) + ChordNames(b)
  {
    if a == [] {
      assert a + b == b;
    } else {
      var c := a + b;
      var h := if a[0].Chord? then [a[0].name] else [];
      assert c[0] == a[0] && c[1..] == a[1..] + b;
      ChordNamesAppend(a[1..], b);
      calc {
        ChordNames(c);
        h + ChordNames(a[1..] + b);
        h + (ChordNames(a[1..]) + ChordNames(b));
        (h + ChordNames(a[1..])) + ChordNames(b);
      }
    }
  }

  /** The parts of one step stand for the text from `from` through the `]`. */
  lemma RenderStep(line: string, from: nat, m: ChordMatch)
    requires from <= m.start < m.close < |line|
    requires line[m.start] == '[' && line[m.close] == ']'
    ensures Render(Step(line, from, m)) == line[from..m.close + 1]
  {
    var c := Chord(line[m.start + 1..m.close]);
    BracketSlice(line, m.start, m.close);
    if m.start > from {
      var t := Text(line[from..m.start]);
      assert Step(line, from, m) == [t, c];
      RenderTwo(t, c);
      SliceJoin(line, from, m.start, m.close + 1);
    } else {
      assert Step(line, from, m) == [c];
      RenderOne(c);
    }
  }

  lemma RenderOne(p: LinePart)
    ensures Render([p]) == PartSource(p)
  {
    assert [p][1..] == [];
  }

  lemma RenderTwo(p: LinePart, q: LinePart)
    ensures Render([p, q]) == PartSource(p) + PartSource(q)
  {
    assert [p, q][1..] == [q];
    RenderOne(q);
  }

  /** A bracketed slice is the chord name re-wrapped. */
  lemma BracketSlice(line: string, a: nat, b: nat)
    requires a < b < |line| && line[a] == '[' && line[b] == ']'
    ensures line[a..b + 1] == "[" + line[a + 1..b] + "]"
  {
  }

  lemma SliceJoin(s: string, i: nat, j: nat, k: nat)
    requires i <= j <= k <= |s|
    ensures s[i..k] == s[i..j] + s[j..k]
  {
  }

  /** One step of `PartsFrom` at a match. */
  lemma PartsFromStep(line: string, from: nat, m: ChordMatch)
    requires from <= |line| && NextMatch(line, from) == Some(m)
    ensures PartsFrom(line, from) == Step(line, from, m) + PartsFrom(line, m.close + 1)
  {
  }

  /** One step of `Tokens` at a match. */
  lemma TokensStep(line: string, from: nat, m: ChordMatch)
    requires from <= |line| && NextMatch(line, from) == Some(m)
    ensures Tokens(line, from) == [line[m.start + 1..m.close]] + Tokens(line, m.close + 1)
  {
  }

  /** After the last match, the rest of the line is one text part, if any. */
  lemma PartsFromEnd(line: string, from: nat)
    requires from <= |line| && NextMatch(line, from).None?
    ensures PartsFrom(line, from) == if from < |line| then [Text(line[from..])] else []
  {
  }

  /** Re-wrapping the chords and concatenating all parts gives back the text. */
  lemma {:induction false} RenderPartsFrom(line: string, from: nat)
    requires from <= |line|
    ensures Render(PartsFrom(line, from)) == line[from..]
    decreases |line| - from
  {
    match NextMatch(line, from)
    case None => RenderEnd(line, from);
    case Some(m) =>
      RenderPartsFrom(line, m.close + 1);
      PartsFromStep(line, from, m);
      RenderStep(line, from, m);
      RenderConcat(PartsFrom(line, from), Step(line, from, m), PartsFrom(line, m.close + 1), line, from, m.close + 1);
  }

  /** After the last match the text part is the rest of the line. */
  lemma RenderEnd(line: string, from: nat)
    requires from <= |line| && NextMatch(line, from).None?
    ensures Render(PartsFrom(line, from)) == line[from..]
  {
    PartsFromEnd(line, from);
    if from < |line| {
      var t := [Text(line[from..])];
      assert t[1..] == [];
    }
  }

  /** Parts rendering to two adjacent slices render, together, to their union. */
  lemma RenderConcat(parts: seq<LinePart>, a: seq<LinePart>, b: seq<LinePart>, line: string, i: nat, j: nat)
    requires i <= j <= |line| && parts == a + b
    requires Render(a) == line[i..j] && Render(b) == line[j..]
    ensures Render(parts) == line[i..]
  {
    RenderAppend(a, b);
    SliceSplit(line, i, j);
  }

  lemma SliceSplit(s: string, i: nat, j: nat)
    requires i <= j <= |s|
    ensures s[i..] == s[i..j] + s[j..]
  {
  }

  /** The chord parts are the pattern's matches, in order. */
  lemma {:induction false} ChordNamesPartsFrom(line: string, from: nat)
    requires from <= |line|
    ensures ChordNames(PartsFrom(line, from)) == Tokens(line, from)
    decreases |line| - from
  {
    match NextMatch(line, from)
    case None => ChordNamesEnd(line, from);
    case Some(m) =>
      ChordNamesPartsFrom(line, m.close + 1);
      ChordNamesMatch(line, from, m);
  }

  /** After the last match there are no chords and no tokens. */
  lemma ChordNamesEnd(line: string, from: nat)
    requires from <= |line| && NextMatch(line, from).None?
    ensures ChordNames(PartsFrom(line, from)) == Tokens(line, from) == []
  {
    PartsFromEnd(line, from);
    if from < |line| {
      var t := [Text(line[from..])];
      assert t[1..] == [];
    }
  }

  /** The one chord name of a step. */
  lemma ChordNamesStep(line: string, from: nat, m: ChordMatch)
    requires from <= m.start < m.close < |line|
    ensures ChordNames(Step(line, from, m)) == [line[m.start + 1..m.close]]
  {
    var st := Step(line, from, m);
    var c := [Chord(line[m.start + 1..m.close])];
    assert c[1..] == [];
    assert ChordNames(c) == [line[m.start + 1..m.close]] + ChordNames([]);
    if m.start > from {
      assert st[0].Text? && st[1..] == c;
      assert ChordNames(st) == [] + ChordNames(c);
    } else {
      assert st == c;
    }
  }

  /** The inductive step of `ChordNamesPartsFrom` at a match. */
  lemma ChordNamesMatch(line: string, from: nat, m: ChordMatch)
    requires from <= |line| && NextMatch(line, from) == Some(m)
    requires ChordNames(PartsFrom(line, m.close + 1)) == Tokens(line, m.close + 1)
    ensures ChordNames(PartsFrom(line, from)) == Tokens(line, from)
  {
    PartsFromStep(line, from, m);
    TokensStep(line, from, m);
    ChordNamesStep(line, from, m);
    ChordNamesAppend(Step(line, from, m), PartsFrom(line, m.close + 1));
  }

  /** Text parts are never empty and never adjacent. */
  lemma {:induction false} PartsFromWellFormed(line: string, from: nat)
    requires from <= |line|
    ensures WellFormed(PartsFrom(line, from))
    decreases |line| - from
  {
    match NextMatch(line, from)
    case None => PartsFromEnd(line, from);
    case Some(m) =>
      PartsFromWellFormed(line, m.close + 1);
      PartsFromStep(line, from, m);
      StepWellFormed(Step(line, from, m), PartsFrom(line, m.close + 1));
  }

  /** Prepending a step keeps the parts well formed. */
  lemma StepWellFormed(st: seq<LinePart>, rest: seq<LinePart>)
    requires 1 <= |st| <= 2 && st[|st| - 1].Chord?
    requires |st| == 2 ==> st[0].Text? && st[0].text != []
    requires WellFormed(rest)
    ensures WellFormed(st + rest)
  {
    var r := st + rest;
    forall k | 0 <= k < |r| && r[k].Text? ensures r[k].text != [] {
      if k >= |st| {
        assert r[k] == rest[k - |st|];
      }
    }
    forall k | 0 <= k < |r| - 1 && r[k].Text? ensures r[k + 1].Chord? {
      if k >= |st| {
        assert r[k] == rest[k - |st|] && r[k + 1] == rest[k + 1 - |st|];
      }
    }
  }

  /** The tokenizer for one line: for each match in turn, the text since the
      previous one and the chord; then the text after the last match. */
  method ParseLine(line: string) returns (parts: seq<LinePart>)
    ensures parts == PartsFrom(line, 0)
  {
    parts := [];
    var pos := 0;
    var m := NextMatch(line, pos);
    while m.Some?
      invariant pos <= |line|
      invariant m == NextMatch(line, pos)
      invariant parts + PartsFrom(line, pos) == PartsFrom(line, 0)
      decreases |line| - pos
    {
      var next := m.value.close + 1;
      parts := ParseLineStep(line, pos, m.value, parts);
      pos := next;
      m := NextMatch(line, pos);
    }
    parts := ParseLineEnd(line, pos, parts);
  }

  /** The loop body of `ParseLine`: the parts of one match are appended, and
      the invariant is kept. */
  function ParseLineStep(line: string, pos: nat, m: ChordMatch, parts: seq<LinePart>): (r: seq<LinePart>)
    requires pos <= |line| && NextMatch(line, pos) == Some(m)
    requires parts + PartsFrom(line, pos) == PartsFrom(line, 0)
    ensures m.close + 1 <= |line|
    ensures r + PartsFrom(line, m.close + 1) == PartsFrom(line, 0)
  {
    PartsFromStep(line, pos, m);
    SeqAssoc(parts, Step(line, pos, m), PartsFrom(line, m.close + 1));
    parts + Step(line, pos, m)
  }

  /** After the loop of `ParseLine`: the text after the last match. */
  function ParseLineEnd(line: string, pos: nat, parts: seq<LinePart>): (r: seq<LinePart>)
    requires pos <= |line| && NextMatch(line, pos).None?
    requires parts + PartsFrom(line, pos) == PartsFrom(line, 0)
    ensures r == PartsFrom(line, 0)
  {
    PartsFromEnd(line, pos);
    if pos < |line| then parts + [Text(line[pos..])] else assert parts + [] == parts; parts
  }

  lemma SeqAssoc<T>(a: seq<T>, b: seq<T>, c: seq<T>)
    ensures a + (b + c) == (a + b) + c
  {
  }

  /** `parseLyricsWithChords`: no lines for empty lyrics, otherwise one parsed
      line per `\n`-separated line. */
  method ParseLyrics(lyrics: string) returns (lines: seq<seq<LinePart>>)
    ensures lyrics == [] ==> lines == []
    ensures lyrics != [] ==>
      |lines| == |Split(lyrics, {'\n'})| &&
      forall k :: 0 <= k < |lines| ==> lines[k] == PartsFrom(Split(lyrics, {'\n'})[k], 0)
  {
    if lyrics == [] {
      return [];
    }
    var texts := Split(lyrics, {'\n'});
    lines := [];
    var k := 0;
    while k < |texts|
      invariant 0 <= k <= |texts|
      invariant |lines| == k
      invariant forall i :: 0 <= i < k ==> lines[i] == PartsFrom(texts[i], 0)
    {
      var parts := ParseLine(texts[k]);
      lines := lines + [parts];
      k := k + 1;
    }
  }

  /** The parsed lines give back the lyrics: each line renders to its text and
      the texts joined with `\n` are the lyrics. */
  lemma ParsedLyricsRender(lyrics: string, k: nat)
    requires k < |Split(lyrics, {'\n'})|
    ensures var texts := Split(lyrics, {'\n'});
      Render(PartsFrom(texts[k], 0)) == texts[k] && '\n' !in texts[k] &&
      Join(texts, "\n") == lyrics
  {
    var texts := Split(lyrics, {'\n'});
    RenderPartsFrom(texts[k], 0);
    SplitPartsHaveNoSeparator(lyrics, {'\n'});
    JoinSplit(lyrics, '\n');
    assert texts[k][0..] == texts[k];
    assert NoneIn(texts[k], {'\n'});
  }

  // ---------------------------------------------------------------------
  // formatDuration
  // ---------------------------------------------------------------------

  /** `formatDuration` as written: with exactly one `:` the guard
      `parts.length >= 2` lets it read the missing `parts[2]`. */
  function FormatDurationAsWritten(duration: Option<string>): Outcome<string>
  {
    if duration.None? || duration.value == [] then Returns("3:00")
    else
      var d := duration.value;
      if ':' in d then
        var parts := Split(d, {':'});
        if |parts| >= 2 then
          if |parts| >= 3 then Returns(parts[1] + ":" + Split(parts[2], {'.'})[0])
          else Throws
        else Returns(d)
      else Returns(d)
  }

  /** The defect: a plain `M:SS` value such as `"3:00"` throws. */
  lemma FormatDurationAsWrittenThrows()
    ensures FormatDurationAsWritten(Some("3:00")) == Throws
  {
    SplitAtSeparator("3", ':', "00", {':'});
    SplitNoSeparator("00", {':'});
    assert "3:00" == "3" + [':'] + "00";
  }

  /** The formatter with the guard the code evidently means (`>= 3`): an input
      with fewer than three parts is returned as it is. */
  function FormatDuration(duration: Option<string>): string
  {
    if duration.None? || duration.value == [] then "3:00"
    else
      var d := duration.value;
      if ':' in d then
        var parts := Split(d, {':'});
        if |parts| >= 3 then parts[1] + ":" + Split(parts[2], {'.'})[0]
        else d
      else d
  }

  /** A missing value shows the default `3:00`; a value without `:` and a
      two-part value are shown as they are. */
  lemma FormatDurationPlain(duration: Option<string>)
    ensures duration.None? || duration == Some("") ==> FormatDuration(duration) == "3:00"
    ensures duration.Some? && duration.value != [] && ':' !in duration.value ==>
      FormatDuration(duration) == duration.value
    ensures duration.Some? && duration.value != [] && |Split(duration.value, {':'})| == 2 ==>
      FormatDuration(duration) == duration.value && FormatDurationAsWritten(duration) == Throws
  {
    if duration.Some? && duration.value != [] && |Split(duration.value, {':'})| == 2 {
      var d := duration.value;
      if ':' !in d {
        SplitNoSeparator(d, {':'});
      }
    }
  }

  /** An interval `HH:MM:SS` or `HH:MM:SS.fff` is shown as `MM:SS`: the hours
      and the fraction are dropped. The two formatters agree here. */
  lemma FormatDurationInterval(hh: string, mm: string, ss: string, frac: string)
    requires NoneIn(hh, {':'}) && NoneIn(mm, {':'})
    requires NoneIn(ss, {':', '.'}) && NoneIn(frac, {':'})
    requires frac == [] || frac[0] == '.'
    ensures FormatDuration(Some(hh + ":" + mm + ":" + ss + frac)) == mm + ":" + ss
    ensures FormatDurationAsWritten(Some(hh + ":" + mm + ":" + ss + frac)) == Returns(mm + ":" + ss)
  {
    var rest := ss + frac;
    var d := hh + ":" + mm + ":" + rest;
    assert hh + ":" + mm + ":" + ss + frac == d;
    assert NoneIn(rest, {':'});
    SplitThree(hh, mm, rest, ':');
    SplitFraction(ss, frac);
    assert d[|hh|] == ':';
    var parts := Split(d, {':'});
    assert parts[1] == mm && parts[2] == rest;
  }

  /** The seconds before an optional `.fraction` are the first `.` part. */
  lemma SplitFraction(ss: string, frac: string)
    requires NoneIn(ss, {'.'})
    requires frac == [] || frac[0] == '.'
    ensures Split(ss + frac, {'.'})[0] == ss
  {
    if frac == [] {
      assert ss + frac == ss;
      SplitNoSeparator(ss, {'.'});
    } else {
      assert ss + frac == ss + ['.'] + frac[1..];
      SplitAtSeparator(ss, '.', frac[1..], {'.'});
    }
  }
}
