/**
 * The song library (src/SongLibrary.tsx): the search filter, the popularity
 * sort of the filtered songs and the library's own duration formatter. The
 * library loads every row of the `songs` table, and a row added from the set
 * list has no artist and no duration until it is edited, so both are optional
 * here even though the component's own interface declares them as strings.
 */
module SongLibrary {
  import opened Wrappers
  import opened Strings
  import opened Sorting
  import opened Sequences

  /** A row of the library, as the component reads it. */
  datatype Song = Song(
    id: string,
    name: string,
    artist: Option<string>,
    duration: Option<string>,
    thumbnailUrl: Option<string>,
    album: Option<string>,
    popularity: Option<int>,
    chords: Option<string>,
    lyrics: Option<string>)

  // ---------------------------------------------------------------------
  // The search filter
  // ---------------------------------------------------------------------

  /** The name, the artist or the album (each when there is one), lowercased,
      contains the lowercased term: the filter with the artist read as
      `song.artist?.toLowerCase()`, as the album already is. */
  predicate Matches(song: Song, term: string)
  {
    var t := ToLower(term);
    Contains(ToLower(song.name), t) ||
    (song.artist.Some? && Contains(ToLower(song.artist.value), t)) ||
    (song.album.Some? && Contains(ToLower(song.album.value), t))
  }

  /** The filter effect: a blank term shows every song; any other term, as
      typed (untrimmed), keeps the matching songs. */
  function FilterSongs(songs: seq<Song>, term: string): seq<Song>
  {
    if IsBlank(term) then songs else Filter(songs, s => Matches(s, term))
  }

  /** A blank (or whitespace-only) term shows the whole list, in its order. */
  lemma BlankTermShowsAll(songs: seq<Song>, term: string)
    requires IsBlank(term)
    ensures FilterSongs(songs, term) == songs
  {
  }

  /** Any other term keeps each matching song as often as it occurs and no
      other song, and the kept songs keep their order: the filter of a
      concatenation is the concatenation of the filters. */
  lemma FilterSongsSpec(songs: seq<Song>, more: seq<Song>, term: string, x: Song)
    requires !IsBlank(term)
    ensures multiset(FilterSongs(songs, term))[x] ==
      if Matches(x, term) then multiset(songs)[x] else 0
    ensures FilterSongs(songs + more, term) ==
      FilterSongs(songs, term) + FilterSongs(more, term)
  {
    FilterCounts(songs, s => Matches(s, term), x);
    FilterAppend(songs, more, s => Matches(s, term));
  }

  /** A row on which the predicate as written throws: its name does not
      match, so `song.artist.toLowerCase()` is evaluated, and it has no
      artist. */
  predicate Stumbles(song: Song, term: string)
  {
    song.artist.None? && !Contains(ToLower(song.name), ToLower(term))
  }

  /** One call of the predicate as written. */
  function MatchesAsWritten(song: Song, term: string): Outcome<bool>
  {
    var t := ToLower(term);
    if Contains(ToLower(song.name), t) then Returns(true)
    else if song.artist.None? then Throws
    else Returns(Contains(ToLower(song.artist.value), t) ||
                 (song.album.Some? && Contains(ToLower(song.album.value), t)))
  }

  /** `songs.filter(...)` with the predicate as written: the first throw ends
      the effect. */
  function FilterAsWritten(songs: seq<Song>, term: string): Outcome<seq<Song>>
  {
    if songs == [] then Returns([])
    else
      match MatchesAsWritten(songs[0], term)
      case Throws => Throws
      case Returns(keep) =>
        match FilterAsWritten(songs[1..], term)
        case Throws => Throws
        case Returns(rest) => Returns((if keep then [songs[0]] else []) + rest)
  }

  /** The filter effect as written. */
  function FilterSongsAsWritten(songs: seq<Song>, term: string): Outcome<seq<Song>>
  {
    if IsBlank(term) then Returns(songs) else FilterAsWritten(songs, term)
  }

  /** The filter as written throws exactly when some row stumbles; otherwise
      it keeps the songs the intended filter keeps. */
  lemma {:induction false} FilterAsWrittenSpec(songs: seq<Song>, term: string)
    ensures FilterAsWritten(songs, term).Throws? <==>
      exists k :: 0 <= k < |songs| && Stumbles(songs[k], term)
    ensures FilterAsWritten(songs, term).Returns? ==>
      FilterAsWritten(songs, term).value == Filter(songs, s => Matches(s, term))
  {
    if songs != [] {
      FilterAsWrittenSpec(songs[1..], term);
      if exists k :: 0 <= k < |songs[1..]| && Stumbles(songs[1..][k], term) {
        var k :| 0 <= k < |songs[1..]| && Stumbles(songs[1..][k], term);
        assert Stumbles(songs[k + 1], term);
      }
      if exists k :: 0 <= k < |songs| && Stumbles(songs[k], term) {
        var k :| 0 <= k < |songs| && Stumbles(songs[k], term);
        if k > 0 {
          assert songs[1..][k - 1] == songs[k];
        }
      }
    }
  }

  /** The defect: searching for `rock` while the library holds a song named
      `A` that has no artist throws instead of showing no match. */
  lemma FilterAsWrittenThrows()
    ensures var song := Song("1", "A", None, None, None, None, None, None, None);
      FilterSongsAsWritten([song], "rock") == Throws && FilterSongs([song], "rock") == []
  {
    var song := Song("1", "A", None, None, None, None, None, None, None);
    assert |ToLower(song.name)| < |ToLower("rock")|;
    NoLongerMatch(ToLower(song.name), ToLower("rock"));
    assert !IsBlank("rock") by {
      BlankIffAllWhitespace("rock");
      assert !IsWhitespace("rock"[0]);
    }
    UnmatchedWithoutArtist(song, "rock");
  }

  /** A one-song library whose song has no artist, no album and a name that
      does not contain the term: the filter as written throws and the
      intended filter shows nothing. */
  lemma UnmatchedWithoutArtist(song: Song, term: string)
    requires !IsBlank(term) && song.artist.None? && song.album.None?
    requires !Contains(ToLower(song.name), ToLower(term))
    ensures FilterSongsAsWritten([song], term) == Throws && FilterSongs([song], term) == []
  {
    assert MatchesAsWritten(song, term) == Throws;
    assert FilterAsWritten([song], term) == Throws;
    assert !Matches(song, term);
    FilterOne(song, s => Matches(s, term));
  }

  /** A string does not contain a longer one. */
  lemma NoLongerMatch(s: string, sub: string)
    requires |s| < |sub|
    ensures !Contains(s, sub)
  {
  }

  // ---------------------------------------------------------------------
  // The popularity sort
  // ---------------------------------------------------------------------

  /** `(b.popularity || 0) - (a.popularity || 0)`: most popular first, a
      missing popularity counting as 0. */
  function PopularityDesc(s: Song): SortKey
  {
    SortKey(-s.popularity.GetOr(0), 0, 0)
  }

  /** `[...filteredSongs].sort(...)` for `sortBy === 'popularity'`: a sorted
      copy; the list sorted is left as it is. */
  function SortByPopularity(songs: seq<Song>): seq<Song>
  {
    Sort(songs, PopularityDesc)
  }

  /** The sorted copy holds the same songs, by non-increasing popularity. */
  lemma SortByPopularitySpec(songs: seq<Song>)
    ensures multiset(SortByPopularity(songs)) == multiset(songs)
    ensures var r := SortByPopularity(songs);
      forall i, j :: 0 <= i < j < |r| ==> r[i].popularity.GetOr(0) >= r[j].popularity.GetOr(0)
  {
    SortPermutation(songs, PopularityDesc);
    SortSorted(songs, PopularityDesc);
    var r := SortByPopularity(songs);
    forall i, j | 0 <= i < j < |r| ensures r[i].popularity.GetOr(0) >= r[j].popularity.GetOr(0) {
      assert Leq(PopularityDesc, r[i], r[j]);
    }
  }

  /** The sort effect stores its result in the list it sorts, so it runs again
      on its own output; the second run gives the same songs in the same order. */
  lemma SortByPopularitySettles(songs: seq<Song>)
    ensures SortByPopularity(SortByPopularity(songs)) == SortByPopularity(songs)
  {
    SortIdempotent(songs, PopularityDesc);
  }

  // ---------------------------------------------------------------------
  // formatDuration
  // ---------------------------------------------------------------------

  /** The library's `formatDuration`: an `HH:MM:SS` value with hours `00`
      is shown as `MM:SS`; anything else is shown as it is. */
  function LibraryFormatDuration(duration: string): string
  {
    if ':' in duration && |Split(duration, {':'})| == 3 then
      var parts := Split(duration, {':'});
      if parts[0] == "00" then parts[1] + ":" + parts[2] else duration
    else duration
  }

  /** `00:MM:SS` becomes `MM:SS`; other hours are kept. */
  lemma LibraryFormatDurationHours(hh: string, mm: string, ss: string)
    requires NoneIn(hh, {':'}) && NoneIn(mm, {':'}) && NoneIn(ss, {':'})
    ensures LibraryFormatDuration(hh + ":" + mm + ":" + ss) ==
      if hh == "00" then mm + ":" + ss else hh + ":" + mm + ":" + ss
  {
    var d := hh + ":" + mm + ":" + ss;
    SplitThree(hh, mm, ss, ':');
    assert d[|hh|] == ':';
  }

  /** A value that does not have exactly three `:`-separated parts is shown
      as it is. */
  lemma LibraryFormatDurationOther(duration: string)
    requires |Split(duration, {':'})| != 3
    ensures LibraryFormatDuration(duration) == duration
  {
  }

  /** `formatDuration(song.duration)` as a library row renders it: a row
      without a duration reaches `duration.includes` and throws. */
  function DurationShown(song: Song): Outcome<string>
  {
    if song.duration.None? then Throws else Returns(LibraryFormatDuration(song.duration.value))
  }

  /** Rendering a row throws exactly when it has no duration; a row with an
      interval of zero hours shows its minutes and seconds. */
  lemma DurationShownSpec(song: Song, mm: string, ss: string)
    requires NoneIn(mm, {':'}) && NoneIn(ss, {':'})
    ensures DurationShown(song).Throws? <==> song.duration.None?
    ensures song.duration == Some("00:" + mm + ":" + ss) ==> DurationShown(song) == Returns(mm + ":" + ss)
  {
    if song.duration == Some("00:" + mm + ":" + ss) {
      assert "00:" + mm + ":" + ss == "00" + ":" + mm + ":" + ss;
      LibraryFormatDurationHours("00", mm, ss);
    }
  }
}
