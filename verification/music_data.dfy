/**
 * Chord-progression generation (src/services/musicData.ts): the fixed table
 * of four-chord progressions, the choice of key and mode from audio features
 * or from keywords in the title and artist, and the `chords` text written
 * into an enhanced song.
 */
module MusicData {
  import opened Wrappers
  import opened Strings
  import SongText

  /** `COMMON_CHORD_PROGRESSIONS`: twelve major and twelve minor keys. */
  const Progressions: map<string, seq<string>> := map[
    "C" := ["C", "Am", "F", "G"],
    "G" := ["G", "Em", "C", "D"],
    "D" := ["D", "Bm", "G", "A"],
    "A" := ["A", "F#m", "D", "E"],
    "E" := ["E", "C#m", "A", "B"],
    "B" := ["B", "G#m", "E", "F#"],
    "F#" := ["F#", "D#m", "B", "C#"],
    "F" := ["F", "Dm", "Bb", "C"],
    "Bb" := ["Bb", "Gm", "Eb", "F"],
    "Eb" := ["Eb", "Cm", "Ab", "Bb"],
    "Ab" := ["Ab", "Fm", "Db", "Eb"],
    "Db" := ["Db", "Bbm", "Gb", "Ab"],
    "Am" := ["Am", "F", "C", "G"],
    "Em" := ["Em", "C", "G", "D"],
    "Bm" := ["Bm", "G", "D", "A"],
    "F#m" := ["F#m", "D", "A", "E"],
    "C#m" := ["C#m", "A", "E", "B"],
    "G#m" := ["G#m", "E", "B", "F#"],
    "D#m" := ["D#m", "B", "F#", "C#"],
    "Dm" := ["Dm", "Bb", "F", "C"],
    "Gm" := ["Gm", "Eb", "Bb", "F"],
    "Cm" := ["Cm", "Ab", "Eb", "Bb"],
    "Fm" := ["Fm", "Db", "Ab", "Eb"],
    "Bbm" := ["Bbm", "Gb", "Db", "Ab"]
  ]

  /** Every progression has four chords and starts on its own key. */
  lemma TableShape(key: string)
    requires key in Progressions
    ensures |Progressions[key]| == 4 && Progressions[key][0] == key
  {
  }

  /** Every chord of the table is a note, or a note with `m`. */
  lemma TableChordsAreTriads(key: string, k: nat)
    requires key in Progressions && k < |Progressions[key]|
    ensures var c := Progressions[key][k];
      SongText.IsNote(c) || (|c| >= 2 && c[|c| - 1] == 'm' && SongText.IsNote(c[..|c| - 1]))
  {
  }

  /** Every chord of the table is a chord name the lyrics pattern recognises. */
  lemma TableChordsAreChordNames(key: string, k: nat)
    requires key in Progressions && k < |Progressions[key]|
    ensures SongText.IsChordName(Progressions[key][k])
  {
    TableChordsAreTriads(key, k);
    var c := Progressions[key][k];
    if SongText.IsNote(c) {
      SongText.PatternIsChordName(c, |c|, |c|);
    } else {
      SongText.PatternIsChordName(c, |c| - 1, |c|);
    }
  }

  /** `keyNames`: pitch classes 0 (C) to 11 (B) as Spotify numbers them. */
  const KeyNames: seq<string> := ["C", "Db", "D", "Eb", "E", "F", "F#", "G", "Ab", "A", "Bb", "B"]

  /** A field of the untyped `audioFeatures` object: missing, `null`, or a number. */
  datatype Feature = Absent | Null | Number(n: int)

  datatype AudioFeatures = AudioFeatures(key: Feature, mode: Feature)

  datatype ChordProgression = ChordProgression(key: string, chords: seq<string>, pattern: string)

  const MajorPattern := "I-vi-IV-V"
  const MinorPattern := "i-VI-III-VII"

  /** `COMMON_CHORD_PROGRESSIONS[key] || COMMON_CHORD_PROGRESSIONS['C']`. */
  function ProgressionFor(key: string): (chords: seq<string>)
    ensures |chords| == 4
  {
    if key in Progressions then Progressions[key] else Progressions["C"]
  }

  /** `keyNames[key] || 'C'`: an index outside the table reads `undefined`. */
  function BaseKey(key: Feature): string
  {
    if key.Number? && 0 <= key.n < |KeyNames| then KeyNames[key.n] else "C"
  }

  /** `detectKey`: the first keyword rule that the lowercased
      `title + ' ' + artist` contains decides the key; `C` otherwise. */
  function DetectKey(title: string, artist: string): (key: string)
  {
    var text := ToLower(title + " " + artist);
    if Contains(text, "blue") || Contains(text, "sad") then "Am"
    else if Contains(text, "happy") || Contains(text, "bright") then "G"
    else if Contains(text, "rock") || Contains(text, "metal") then "E"
    else if Contains(text, "country") || Contains(text, "folk") then "G"
    else if Contains(text, "jazz") then "F"
    else "C"
  }

  /** `generateChordProgression`: the features decide key and mode when the
      object is there and neither field is `null`; otherwise the keyword
      heuristic picks the key and the mode stays major. */
  function GenerateChordProgression(title: string, artist: string, features: Option<AudioFeatures>): (p: ChordProgression)
    ensures |p.chords| == 4
  {
    if features.Some? && features.value.key != Null && features.value.mode != Null then
      var base := BaseKey(features.value.key);
      var minor := features.value.mode != Number(1);
      var key := if minor then base + "m" else base;
      ChordProgression(key, ProgressionFor(key), if minor then MinorPattern else MajorPattern)
    else
      var key := DetectKey(title, artist);
      ChordProgression(key, ProgressionFor(key), MajorPattern)
  }

  /** The chords are the table's progression for the key, starting on the key,
      when the table has the key, and the progression of C otherwise. */
  lemma ProgressionSpec(title: string, artist: string, features: Option<AudioFeatures>)
    ensures var p := GenerateChordProgression(title, artist, features);
      (p.key in Progressions ==> p.chords == Progressions[p.key] && p.chords[0] == p.key) &&
      (p.key !in Progressions ==> p.chords == ["C", "Am", "F", "G"])
  {
    var p := GenerateChordProgression(title, artist, features);
    if p.key in Progressions {
      TableShape(p.key);
    }
  }

  /** With usable features, pitch class `k` in major gives key `KeyNames[k]`
      and the major pattern; any other mode adds `m` and gives the minor
      pattern; a pitch class outside 0..11 gives base key C. */
  lemma FeaturesDecide(title: string, artist: string, key: Feature, mode: Feature)
    requires key != Null && mode != Null
    ensures var p := GenerateChordProgression(title, artist, Some(AudioFeatures(key, mode)));
      var base := if key.Number? && 0 <= key.n < 12 then KeyNames[key.n] else "C";
      (mode == Number(1) ==> p.key == base && p.pattern == "I-vi-IV-V") &&
      (mode != Number(1) ==> p.key == base + "m" && p.pattern == "i-VI-III-VII")
  {
  }

  /** Three minor keys the features can name are missing from the table and
      fall back to the progression of C. */
  lemma MinorKeysWithoutProgression(title: string, artist: string, k: int)
    requires k == 1 || k == 3 || k == 8
    ensures var p := GenerateChordProgression(title, artist, Some(AudioFeatures(Number(k), Number(0))));
      p.key !in Progressions && p.chords == ["C", "Am", "F", "G"]
  {
    var p := GenerateChordProgression(title, artist, Some(AudioFeatures(Number(k), Number(0))));
    assert p.key == KeyNames[k] + "m";
    assert p.key == "Dbm" || p.key == "Ebm" || p.key == "Abm";
  }

  /** Without usable features the keyword heuristic picks the key and the
      pattern is the major one, even for `Am`. */
  lemma HeuristicIsMajor(title: string, artist: string, features: Option<AudioFeatures>)
    requires features.None? || features.value.key == Null || features.value.mode == Null
    ensures var p := GenerateChordProgression(title, artist, features);
      p.key == DetectKey(title, artist) && p.pattern == "I-vi-IV-V" &&
      p.chords == Progressions[p.key]
  {
    DetectKeySpec(title, artist);
  }

  /** The rules in order: each key is chosen exactly when its keywords occur
      and no earlier rule's do; C is the default. */
  lemma DetectKeySpec(title: string, artist: string)
    ensures var text := ToLower(title + " " + artist);
      var r1 := Contains(text, "blue") || Contains(text, "sad");
      var r2 := Contains(text, "happy") || Contains(text, "bright");
      var r3 := Contains(text, "rock") || Contains(text, "metal");
      var r4 := Contains(text, "country") || Contains(text, "folk");
      var r5 := Contains(text, "jazz");
      var key := DetectKey(title, artist);
      (key == "Am" <==> r1) &&
      (key == "G" <==> !r1 && (r2 || (!r3 && r4))) &&
      (key == "E" <==> !r1 && !r2 && r3) &&
      (key == "F" <==> !r1 && !r2 && !r3 && !r4 && r5) &&
      (key == "C" <==> !r1 && !r2 && !r3 && !r4 && !r5) &&
      key in Progressions
  {
  }

  // ---------------------------------------------------------------------
  // enhanceSongData
  // ---------------------------------------------------------------------

  /** `EnhancedSongData`: the song fields the enhancer passes through, with
      the optional `lyrics` and `chords`. */
  datatype SongData = SongData(
    name: string,
    artist: string,
    duration: string,
    thumbnailUrl: Option<string>,
    spotifyId: Option<string>,
    spotifyUrl: Option<string>,
    album: Option<string>,
    releaseDate: Option<string>,
    popularity: Option<int>,
    previewUrl: Option<string>,
    lyrics: Option<string>,
    chords: Option<string>)

  /** `` `${key}: ${chords.join(' - ')} (${pattern})` ``. */
  function ChordsText(p: ChordProgression): string
  {
    p.key + ": " + Join(p.chords, " - ") + " (" + p.pattern + ")"
  }

  /** `enhanceSongData`, with the result of the lyrics lookup as input: the
      fields are copied, the lyrics are set when the lookup found some, and
      the chords text is always set. */
  function EnhanceSongData(song: SongData, lyricsFound: Option<string>, features: Option<AudioFeatures>): (r: SongData)
    ensures r.chords.Some?
  {
    var p := GenerateChordProgression(song.name, song.artist, features);
    song.(lyrics := if lyricsFound.Some? then lyricsFound else song.lyrics,
          chords := Some(ChordsText(p)))
  }

  /** Every input field is kept; the lyrics come from the lookup exactly when
      it found some; the chords text opens with the key, which reads back as
      the part before the first `:`. */
  lemma EnhanceSongDataSpec(song: SongData, lyricsFound: Option<string>, features: Option<AudioFeatures>)
    ensures var r := EnhanceSongData(song, lyricsFound, features);
      r.name == song.name && r.artist == song.artist && r.duration == song.duration &&
      r.thumbnailUrl == song.thumbnailUrl && r.spotifyId == song.spotifyId &&
      r.spotifyUrl == song.spotifyUrl && r.album == song.album &&
      r.releaseDate == song.releaseDate && r.popularity == song.popularity &&
      r.previewUrl == song.previewUrl &&
      (lyricsFound.Some? ==> r.lyrics == lyricsFound) &&
      (lyricsFound.None? ==> r.lyrics == song.lyrics)
    ensures var p := GenerateChordProgression(song.name, song.artist, features);
      EnhanceSongData(song, lyricsFound, features).chords == Some(ChordsText(p)) &&
      Split(ChordsText(p), {':'})[0] == p.key
  {
    var p := GenerateChordProgression(song.name, song.artist, features);
    GeneratedKeyNoColon(song.name, song.artist, features);
    ChordsTextKey(p);
  }

  /** A key without `:` is the text before the first `:` of its chords text. */
  lemma ChordsTextKey(p: ChordProgression)
    requires NoneIn(p.key, {':'})
    ensures Split(ChordsText(p), {':'})[0] == p.key
  {
    var rest := " " + Join(p.chords, " - ") + " (" + p.pattern + ")";
    assert ChordsText(p) == p.key + [':'] + rest;
    SplitAtSeparator(p.key, ':', rest, {':'});
  }

  /** The key is a pitch name, possibly with `m`, so it has no `:`. */
  lemma GeneratedKeyNoColon(title: string, artist: string, features: Option<AudioFeatures>)
    ensures NoneIn(GenerateChordProgression(title, artist, features).key, {':'})
  {
    if features.Some? && features.value.key != Null && features.value.mode != Null {
      var base := BaseKey(features.value.key);
      assert NoneIn(base, {':'});
      assert NoneIn(base + "m", {':'});
    } else {
      DetectKeySpec(title, artist);
    }
  }
}
