/**
 * Conversion of Spotify search results into song rows (src/services/spotify.ts):
 * the two duration formats, the artist list and the choice of album image,
 * which sorts the track's own image array in place.
 */
module Spotify {
  import opened Wrappers
  import opened Strings
  import opened Sorting
  import SongText

  datatype Image = Image(height: int, width: int, url: string)
  datatype Artist = Artist(id: string, name: string)
  /** The album of a track; `images` is the array the search response holds,
      possibly missing. */
  datatype Album = Album(id: string, name: string, images: array?<Image>, releaseDate: string)
  datatype Track = Track(
    id: string,
    name: string,
    artists: seq<Artist>,
    album: Album,
    durationMs: nat,
    popularity: int,
    previewUrl: Option<string>,
    spotifyUrl: string)

  // ---------------------------------------------------------------------
  // Durations
  // ---------------------------------------------------------------------

  /** `formatSpotifyDuration`: whole minutes, `:`, and the remaining whole
      seconds padded to two digits. */
  function FormatSpotifyDuration(ms: nat): string
  {
    NatToString(ms / 60000) + ":" + TwoDigits((ms % 60000) / 1000)
  }

  /** The text reads back as minutes and seconds: two parts around the one
      `:`, the seconds two digits below 60, and minutes * 60 + seconds the
      whole seconds of `ms`. */
  lemma FormatSpotifyDurationValue(ms: nat)
    ensures var parts := Split(FormatSpotifyDuration(ms), {':'});
      |parts| == 2 && AllDigits(parts[0]) && AllDigits(parts[1]) && |parts[1]| == 2 &&
      ParseNat(parts[1]) < 60 &&
      ParseNat(parts[0]) * 60 + ParseNat(parts[1]) == ms / 1000
  {
    var m := NatToString(ms / 60000);
    var s := TwoDigits((ms % 60000) / 1000);
    assert FormatSpotifyDuration(ms) == m + [':'] + s;
    DigitsHaveNoSeparator(m, {':'});
    DigitsHaveNoSeparator(s, {':'});
    SplitAtSeparator(m, ':', s, {':'});
    SplitNoSeparator(s, {':'});
    ParseNatToString(ms / 60000);
    TwoDigitsValue((ms % 60000) / 1000);
  }

  /** The interval `spotifyTrackToSong` stores: hours, minutes and seconds of
      the whole seconds, each padded to two digits. */
  function IntervalDuration(ms: nat): string
  {
    var total := ms / 1000;
    TwoDigits(total / 3600) + ":" + TwoDigits((total % 3600) / 60) + ":" + TwoDigits(total % 60)
  }

  /** The interval reads back: three fields of at least two digits, minutes
      and seconds exactly two and below 60, and h * 3600 + m * 60 + s the
      whole seconds of `ms`. */
  lemma IntervalDurationValue(ms: nat)
    ensures var parts := Split(IntervalDuration(ms), {':'});
      |parts| == 3 &&
      AllDigits(parts[0]) && AllDigits(parts[1]) && AllDigits(parts[2]) &&
      |parts[0]| >= 2 && |parts[1]| == 2 && |parts[2]| == 2 &&
      ParseNat(parts[1]) < 60 && ParseNat(parts[2]) < 60 &&
      ParseNat(parts[0]) * 3600 + ParseNat(parts[1]) * 60 + ParseNat(parts[2]) == ms / 1000
  {
    var total := ms / 1000;
    var h, m, sec := total / 3600, (total % 3600) / 60, total % 60;
    HoursMinutesSeconds(total);
    assert IntervalDuration(ms) == TwoDigits(h) + ":" + TwoDigits(m) + ":" + TwoDigits(sec);
    IntervalReadBack(h, m, sec);
    var parts := Split(IntervalDuration(ms), {':'});
    assert ParseNat(parts[0]) == h && ParseNat(parts[1]) == m && ParseNat(parts[2]) == sec;
    assert h * 3600 + m * 60 + sec == total;
  }

  /** Whole seconds split into hours, minutes below 60 and seconds below 60. */
  lemma HoursMinutesSeconds(total: nat)
    ensures (total % 3600) / 60 < 60 && total % 60 < 60
    ensures (total / 3600) * 3600 + ((total % 3600) / 60) * 60 + total % 60 == total
  {
    assert total % 3600 == ((total % 3600) / 60) * 60 + (total % 3600) % 60;
    assert (total % 3600) % 60 == total % 60;
  }

  /** Padded hours, minutes and seconds joined by `:` read back as the three
      values. */
  lemma IntervalReadBack(h: nat, m: nat, s: nat)
    requires m < 60 && s < 60
    ensures var parts := Split(TwoDigits(h) + ":" + TwoDigits(m) + ":" + TwoDigits(s), {':'});
      parts == [TwoDigits(h), TwoDigits(m), TwoDigits(s)] &&
      |parts[1]| == 2 && |parts[2]| == 2 &&
      ParseNat(parts[0]) == h && ParseNat(parts[1]) == m && ParseNat(parts[2]) == s
  {
    IntervalParts(TwoDigits(h), TwoDigits(m), TwoDigits(s));
    TwoDigitsValue(h);
    TwoDigitsValue(m);
    TwoDigitsValue(s);
  }

  /** Three digit strings joined by `:` split back into them. */
  lemma IntervalParts(h: string, m: string, s: string)
    requires AllDigits(h) && AllDigits(m) && AllDigits(s)
    ensures Split(h + ":" + m + ":" + s, {':'}) == [h, m, s]
  {
    DigitsHaveNoSeparator(h, {':'});
    DigitsHaveNoSeparator(m, {':'});
    DigitsHaveNoSeparator(s, {':'});
    SplitThree(h, m, s, ':');
  }

  /** The set list shows a stored interval as its minutes and seconds. */
  lemma IntervalShownAsMinutes(ms: nat)
    ensures var total := ms / 1000;
      SongText.FormatDuration(Some(IntervalDuration(ms))) ==
        TwoDigits((total % 3600) / 60) + ":" + TwoDigits(total % 60)
  {
    var total := ms / 1000;
    DigitsShownAsMinutes(TwoDigits(total / 3600), TwoDigits((total % 3600) / 60), TwoDigits(total % 60));
  }

  /** `HH:MM:SS` of digits is shown as `MM:SS`. */
  lemma DigitsShownAsMinutes(h: string, m: string, s: string)
    requires AllDigits(h) && AllDigits(m) && AllDigits(s)
    ensures SongText.FormatDuration(Some(h + ":" + m + ":" + s)) == m + ":" + s
  {
    DigitsHaveNoSeparator(h, {':'});
    DigitsHaveNoSeparator(m, {':'});
    DigitsHaveNoSeparator(s, {':', '.'});
    SongText.FormatDurationInterval(h, m, s, []);
    assert h + ":" + m + ":" + s + [] == h + ":" + m + ":" + s;
  }

  // ---------------------------------------------------------------------
  // Artists
  // ---------------------------------------------------------------------

  /** `track.artists.map(a => a.name).join(', ')`. */
  function ArtistNames(artists: seq<Artist>): string
  {
    Join(Names(artists), ", ")
  }

  function Names(artists: seq<Artist>): (r: seq<string>)
    ensures |r| == |artists|
    ensures forall k :: 0 <= k < |artists| ==> r[k] == artists[k].name
  {
    seq(|artists|, k requires 0 <= k < |artists| => artists[k].name)
  }

  /** When no name contains a comma, splitting the text at the commas gives
      the names back in order, each after the first preceded by the space of
      the separator. */
  lemma {:induction false} ArtistNamesReadBack(names: seq<string>)
    requires |names| >= 1
    requires forall k :: 0 <= k < |names| ==> NoneIn(names[k], {','})
    ensures var parts := Split(Join(names, ", "), {','});
      |parts| == |names| &&
      parts[0] == names[0] &&
      forall k :: 1 <= k < |names| ==> parts[k] == " " + names[k]
  {
    if |names| == 1 {
      SplitNoSeparator(names[0], {','});
    } else {
      var rest := names[1..];
      var tail := Join(rest, ", ");
      JoinComma(names[0], rest);
      SplitAtSeparator(names[0], ',', " " + tail, {','});
      ArtistNamesReadBack(rest);
      var inner := Split(tail, {','});
      SpaceBeforeSplit(tail, rest[0]);
      ReadBackStep(names, Split(Join(names, ", "), {','}), inner);
    }
  }

  /** `a, b, …` is `a`, a comma, and the rest after a space. */
  lemma JoinComma(first: string, rest: seq<string>)
    requires |rest| >= 1
    ensures Join([first] + rest, ", ") == first + [','] + (" " + Join(rest, ", "))
  {
    JoinCons(first, rest, ", ");
    assert ", " == [','] + " ";
    SeparatorAssoc(first, [','], " ", Join(rest, ", "));
  }

  lemma SeparatorAssoc(a: string, b: string, c: string, d: string)
    ensures a + (b + c) + d == a + b + (c + d)
  {
  }

  /** Assembles the parts of the inductive step of `ArtistNamesReadBack`. */
  lemma ReadBackStep(names: seq<string>, parts: seq<string>, inner: seq<string>)
    requires |names| >= 2 && |inner| == |names| - 1
    requires parts == [names[0]] + ([" " + names[1]] + inner[1..])
    requires forall k :: 1 <= k < |inner| ==> inner[k] == " " + names[k + 1]
    ensures |parts| == |names| && parts[0] == names[0]
    ensures forall k :: 1 <= k < |names| ==> parts[k] == " " + names[k]
  {
    forall k | 1 <= k < |names| ensures parts[k] == " " + names[k] {
      if k >= 2 {
        assert parts[k] == inner[k - 1];
      }
    }
  }

  /** A leading space stays with the first part. */
  lemma SpaceBeforeSplit(t: string, first: string)
    requires Split(t, {','})[0] == first
    ensures Split(" " + t, {','}) == [" " + first] + Split(t, {','})[1..]
  {
    var k := FirstSep(t, {','});
    var u := " " + t;
    assert u[1..] == t;
    FirstSepUnique(u, {','}, k + 1) by {
      assert u[..k + 1] == " " + t[..k];
      assert k < |t| ==> u[k + 1] == t[k];
    }
    if k < |t| {
      assert u[k + 2..] == t[k + 1..];
      assert Split(t, {','}) == [t[..k]] + Split(t[k + 1..], {','});
      assert Split(u, {','}) == [u[..k + 1]] + Split(u[k + 2..], {','});
      assert u[..k + 1] == " " + t[..k];
    } else {
      assert Split(t, {','}) == [t];
      assert Split(u, {','}) == [u];
    }
  }

  // ---------------------------------------------------------------------
  // Album image
  // ---------------------------------------------------------------------

  /** `(a, b) => b.width - a.width`: widest first. */
  function WidthDesc(i: Image): SortKey
  {
    SortKey(-i.width, 0, 0)
  }

  predicate MediumSized(i: Image)
  {
    250 <= i.width <= 400
  }

  /** `find(img => img.width >= 250 && img.width <= 400)`, as an index (`|s|`
      when there is none). */
  function FirstMedium(s: seq<Image>): (k: nat)
    ensures k <= |s|
    ensures k < |s| ==> MediumSized(s[k])
    ensures forall i :: 0 <= i < k ==> !MediumSized(s[i])
  {
    if s == [] || MediumSized(s[0]) then 0 else FirstMedium(s[1..]) + 1
  }

  /** The URL chosen from images already sorted widest first: the first
      medium one, else the first one's URL unless it is empty (`|| null`). */
  function ChooseFromSorted(sorted: seq<Image>): Option<string>
  {
    var k := FirstMedium(sorted);
    if k < |sorted| then Some(sorted[k].url)
    else if sorted != [] && sorted[0].url != [] then Some(sorted[0].url)
    else None
  }

  /** `getBestImageUrl` on the images' contents. */
  function BestImage(images: seq<Image>): Option<string>
  {
    if images == [] then None else ChooseFromSorted(Sort(images, WidthDesc))
  }

  /** No image gives no URL. Otherwise the chosen image is one of the
      images: the widest medium-sized one if any is medium-sized, else the
      widest of all (whose empty URL reads as none). */
  lemma BestImageSpec(images: seq<Image>)
    ensures images == [] ==> BestImage(images) == None
    ensures images != [] ==>
      exists x :: x in images && Chosen(images, x) && BestImage(images) == ChosenUrl(x)
  {
    if images != [] {
      SortedImages(images);
      ChosenFromSorted(images, Sort(images, WidthDesc), BestImage(images));
    }
  }

  /** The URL chosen from a sorted copy of the images is a chosen image's. */
  lemma ChosenFromSorted(images: seq<Image>, sorted: seq<Image>, url: Option<string>)
    requires images != [] && multiset(sorted) == multiset(images)
    requires forall i, j :: 0 <= i < j < |sorted| ==> sorted[i].width >= sorted[j].width
    requires url == ChooseFromSorted(sorted)
    ensures exists x :: x in images && Chosen(images, x) && url == ChosenUrl(x)
  {
    assert |sorted| == |multiset(sorted)| == |images|;
    ChooseFromSortedSpec(sorted);
    var k := FirstMedium(sorted);
    var x := if k < |sorted| then sorted[k] else sorted[0];
    assert x in multiset(sorted);
    forall y ensures y in sorted <==> y in images {
      assert y in sorted <==> y in multiset(sorted);
    }
    ChosenSameImages(sorted, images, x);
  }

  /** From images sorted widest first, the rule's pick is the first
      medium-sized one, or else the first one. */
  lemma ChooseFromSortedSpec(sorted: seq<Image>)
    requires sorted != []
    requires forall i, j :: 0 <= i < j < |sorted| ==> sorted[i].width >= sorted[j].width
    ensures var k := FirstMedium(sorted);
      var x := if k < |sorted| then sorted[k] else sorted[0];
      Chosen(sorted, x) && ChooseFromSorted(sorted) == ChosenUrl(x)
  {
    var k := FirstMedium(sorted);
    if k < |sorted| {
      forall y | y in sorted && MediumSized(y) ensures y.width <= sorted[k].width {
        var j :| 0 <= j < |sorted| && sorted[j] == y;
      }
    } else {
      forall y | y in sorted ensures !MediumSized(y) && y.width <= sorted[0].width {
        var j :| 0 <= j < |sorted| && sorted[j] == y;
      }
    }
  }

  /** The pick depends only on which images there are. */
  lemma ChosenSameImages(a: seq<Image>, b: seq<Image>, x: Image)
    requires forall y :: y in a <==> y in b
    ensures Chosen(a, x) == Chosen(b, x)
  {
    if HasMedium(a) {
      var y :| y in a && MediumSized(y);
      assert y in b;
    }
    if HasMedium(b) {
      var y :| y in b && MediumSized(y);
      assert y in a;
    }
  }

  /** The URL of the chosen image; a widest image with an empty URL gives none. */
  function ChosenUrl(x: Image): Option<string>
  {
    if MediumSized(x) || x.url != [] then Some(x.url) else None
  }

  predicate HasMedium(images: seq<Image>)
  {
    exists y :: y in images && MediumSized(y)
  }

  /** `x` is the image the rule picks: the widest medium one, or the widest. */
  predicate Chosen(images: seq<Image>, x: Image)
  {
    if HasMedium(images) then MediumSized(x) && forall y :: y in images && MediumSized(y) ==> y.width <= x.width
    else forall y :: y in images ==> y.width <= x.width
  }

  /** `getBestImageUrl`: a missing or empty array gives none; otherwise the
      array is sorted in place, widest first, and the URL is chosen from it. */
  method GetBestImageUrl(images: array?<Image>) returns (url: Option<string>)
    modifies images
    ensures images == null ==> url.None?
    ensures images != null ==> url == BestImage(old(images[..])) &&
                               images[..] == Sort(old(images[..]), WidthDesc)
  {
    if images == null || images.Length == 0 {
      return None;
    }
    SortInPlace(images, WidthDesc);
    url := ChooseFromSorted(images[..]);
  }

  /** A sorted array keeps its images, ordered widest first. */
  lemma SortedImages(images: seq<Image>)
    ensures multiset(Sort(images, WidthDesc)) == multiset(images)
    ensures var s := Sort(images, WidthDesc);
      forall i, j :: 0 <= i < j < |s| ==> s[i].width >= s[j].width
  {
    SortPermutation(images, WidthDesc);
    SortSorted(images, WidthDesc);
    var s := Sort(images, WidthDesc);
    forall i, j | 0 <= i < j < |s| ensures s[i].width >= s[j].width {
      assert Leq(WidthDesc, s[i], s[j]);
    }
  }

  // ---------------------------------------------------------------------
  // spotifyTrackToSong
  // ---------------------------------------------------------------------

  /** The row `spotifyTrackToSong` builds for the song library. */
  datatype TrackSong = TrackSong(
    name: string,
    artist: string,
    duration: string,
    thumbnailUrl: Option<string>,
    spotifyId: string,
    spotifyUrl: string,
    album: string,
    releaseDate: string,
    popularity: int,
    previewUrl: Option<string>)

  /** The fields are copied from the track; the artists are joined, the
      duration is the interval, and the thumbnail is chosen from the album
      images, which are left sorted widest first. */
  method SpotifyTrackToSong(track: Track) returns (song: TrackSong)
    modifies track.album.images
    ensures song.name == track.name && song.artist == ArtistNames(track.artists)
    ensures song.duration == IntervalDuration(track.durationMs)
    ensures track.album.images == null ==> song.thumbnailUrl.None?
    ensures track.album.images != null ==>
      song.thumbnailUrl == BestImage(old(track.album.images[..])) &&
      track.album.images[..] == Sort(old(track.album.images[..]), WidthDesc)
    ensures song.spotifyId == track.id && song.spotifyUrl == track.spotifyUrl
    ensures song.album == track.album.name && song.releaseDate == track.album.releaseDate
    ensures song.popularity == track.popularity && song.previewUrl == track.previewUrl
  {
    var thumbnail := GetBestImageUrl(track.album.images);
    song := TrackSong(track.name, ArtistNames(track.artists), IntervalDuration(track.durationMs),
                      thumbnail, track.id, track.spotifyUrl, track.album.name,
                      track.album.releaseDate, track.popularity, track.previewUrl);
  }
}
