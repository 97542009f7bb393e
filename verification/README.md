# Setlist — a Dafny model of the band set-list manager

Setlist is a web application for a band. It keeps the band's songs in a
`songs` table, ordered by a `position` column. It shows them as a
drag-and-drop set list, with lyrics and chords in a `[G]`-style notation. It
also imports songs from Spotify search results.

This project models the parts of the application that compute something:

- **`Setlist`** (`setlist.dfy`) — the set-list component's song list, as the
  class `SetlistManager`. It covers loading the band's rows in `position`
  order, adding a song at the end, editing and deleting one, and reordering
  by drag and drop. Every store call is I/O. Its outcome (the rows returned,
  an error, or a rejected batch of position writes) is a parameter of the
  method that issues it. What the store's query may return is stated by
  `QueryAnswer`: the band's rows in `position` order, ties in any order.
- **`SongText`** (`song_text.dfy`) — the chord pattern of the lyrics
  notation, chord extraction, splitting lyrics into text and chord parts,
  and the set list's duration formatter.
- **`MusicData`** (`music_data.dfy`) — the table of common progressions,
  key detection, chord progression generation, and the enrichment of
  imported songs.
- **`Spotify`** (`spotify.dfy`) — the two duration formats, the artist list,
  the album image choice (which sorts the response's image array in place),
  and the conversion of a track into a song row.
- **`SongLibrary`** (`song_library.dfy`) — the library's search filter, its
  popularity sort and its duration formatter.
- **`UserAvatar`** (`user_avatar.dfy`) — initials and the palette colour
  hashed from an email, with JavaScript's 32-bit `<<` written out.
- **`SpotifyPlayer`** (`spotify_player.dfy`) — the player service as a
  class: its guards, its state transitions and its listener registry.
- **`ModeContext`** (`mode_context.dfy`) — the performance/edit mode cell.

Some modules are shared helpers:

- `Wrappers` — `Option`.
- `Strings` — JavaScript's `split`, `join`, `trim`, `toLowerCase`,
  `includes` and `padStart`, and decimal conversion.
- `Sorting` — the stable sort `Array.prototype.sort` performs, as a function
  and as an in-place array method. It also gives one answer an `ORDER BY`
  may return.
- `Sequences` — `filter`, `indexOf` and removal by index.

## Model

| member | source | states |
|---|---|---|
| Setlist.SongsQuery | src/App.tsx:203-208 | Every table has an answer to the query: the band's rows (as a multiset), ordered by position and then creation time |
| Setlist.BandRowsMembers | src/App.tsx:206 | A row is among the band's rows iff it is in the table and carries the band id |
| Setlist.QueryAnswerOrder | src/App.tsx:206-208 | In any answer to the query, each row is the band's. Positions are non-decreasing, with missing positions last. Rows with the same position come newest first |
| Setlist.ArrayMove | src/App.tsx:322-325 | Moving keeps the length, puts the moved song at the destination (the end when there is no target), and leaves the other songs in their order |
| Setlist.ArrayMovePermutation | src/App.tsx:325 | A move is a permutation of the list |
| Setlist.ArrayMoveUnique | src/App.tsx:325 | Any list with the moved song at the destination and the others in order is the move's result |
| Setlist.ArrayMoveInPlace | src/App.tsx:325 | Moving a song onto its own place changes nothing |
| Setlist.ArrayMoveUniqueIds | src/App.tsx:325 | A move keeps song ids unique |
| Setlist.ReorderedMoves | src/App.tsx:318-325 | Dropping a song on itself keeps the list. Otherwise the dragged song lands at the target's index (the last index when the target is missing), the other songs keep their order, and the list is a permutation of the old one |
| Setlist.WrittenPositions | src/App.tsx:332-337 | After the batch of writes, each listed row's `position` is its index in the new list, and any other row is unchanged |
| Setlist.BandRowsWritten | src/App.tsx:332-337 | Position writes do not change which rows belong to the band |
| Setlist.WrittenBandRows | src/App.tsx:332-337 | After the writes, each of the band's rows holds its index in the new order as its position |
| Setlist.RefetchKeepsOrder | src/App.tsx:200-215 | After the position writes, every answer the query may give lists the songs of the reordered list in the same order |
| Setlist.SortedByIndexIsOrder | src/App.tsx:207 | Rows sorted by positions that are their indexes in a list come out in that list's order |
| Setlist.RearrangedRows | src/App.tsx:207 | A reordering of rows with unique ids keeps them distinct and keeps their positions |
| Setlist.MaxPosition | src/App.tsx:237 | The largest position of a non-empty list (a missing one counting as 0) bounds all and is attained |
| Setlist.NextPosition | src/App.tsx:237 | A new song's position is 0 for an empty list, else one more than the largest position, and so is above every existing position |
| Setlist.NextPositionPermutation | src/App.tsx:237 | The new position does not depend on the list's order |
| Setlist.AddRequestIssued | src/App.tsx:234 | An insert is issued iff the name has a non-whitespace character and there are a user and a band |
| Setlist.AddRequestSpec | src/App.tsx:240-246 | The inserted row has the trimmed, non-empty name, the user and band ids, and a position above every listed position |
| Setlist.ReplacedSpec | src/App.tsx:266 | With unique ids, an unknown id changes nothing, and a known one is replaced at its own index. Replacing with a row of the same id keeps the ids |
| Setlist.SlotsAfterUpdateSpec | src/App.tsx:266-270 | With rows returned, the update as written is the replacement. With none returned, the edited song's slot becomes undefined |
| Setlist.RemovedSpec | src/App.tsx:303 | With unique ids, deleting removes exactly the song with the id at its index, and an unknown id changes nothing |
| Setlist.RemovedOne | src/App.tsx:303 | Deleting an id held only at index k removes index k |
| Setlist.RemovedAbsent | src/App.tsx:303 | Deleting an id the list does not hold keeps the list |
| Setlist.IndexOfId | src/App.tsx:319-320 | `findIndex` gives the first index holding the id, or -1 when there is none |
| Setlist.SetlistManager.constructor | src/App.tsx:132-152 | The list starts empty, with nothing selected, an empty name and no drag |
| Setlist.SetlistManager.EditNewSongName | src/App.tsx:1033 | The name input holds the text typed; nothing else changes |
| Setlist.SetlistManager.Select | src/App.tsx:134 | The selected song becomes the one clicked or none; nothing else changes |
| Setlist.SetlistManager.FetchSongs | src/App.tsx:200-215 | The list becomes the rows the query returned (none for a null answer); without a user or band, or on an error, it is kept |
| Setlist.SetlistManager.AddSong | src/App.tsx:233-255 | Returns the insert issued, if any. On success the returned rows are appended and the name input is cleared; otherwise nothing changes |
| Setlist.SetlistManager.UpdateSong | src/App.tsx:257-272 | On success the song with the id is replaced by the returned row, in the list and in the selection. On an error or an empty answer nothing changes |
| Setlist.SetlistManager.DeleteSong | src/App.tsx:293-307 | On success the song is removed and a selection of it is cleared; on an error nothing changes |
| Setlist.SetlistManager.HandleDragStart | src/App.tsx:309-311 | The dragged id is recorded; nothing else changes |
| Setlist.SetlistManager.HandleDragEnd | src/App.tsx:314-348 | The drag ends. A drop onto the song itself changes nothing. Otherwise the list becomes the reordering, one position write per song gives it its index, and a rejected batch reloads the list |
| SongText.ChordNameMatchesPattern | src/App.tsx:421 | The left-to-right chord reading accepts exactly the strings the chord regex matches in full |
| SongText.PatternNoteLength | src/App.tsx:421 | The root note of a chord is read with the length the pattern gives it |
| SongText.QualityShape | src/App.tsx:421 | A quality has no `/` and does not start with an accidental |
| SongText.CloseIndex | src/App.tsx:421 | The closing index is after the opening one and holds `]` when it is in the line |
| SongText.CloseIndexSpec | src/App.tsx:421 | No `]` lies between the brackets |
| SongText.MatchAtSpec | src/App.tsx:421 | The regex matches at `i` iff `i` holds `[` and the text up to the next `]` is a chord name |
| SongText.NextMatch | src/App.tsx:446 | The next match lies at or after the search start, between `[` and `]` |
| SongText.NextMatchLeftmost | src/App.tsx:446 | The match found is a real match, and no match starts earlier |
| SongText.MatchIsChord | src/App.tsx:421 | A matched token is a chord name |
| SongText.TokensAreChords | src/App.tsx:422 | Every token `match` finds is a chord name |
| SongText.KeptUpToSpec | src/App.tsx:427-429 | The duplicate filter keeps each token once, keeps every token, and keeps the order of first occurrences |
| SongText.ExtractChordsSpec | src/App.tsx:417-432 | The chords extracted are the distinct chord tokens of the lyrics, all of them, in order of first occurrence |
| SongText.NoBracketNoChords | src/App.tsx:418-424 | Lyrics without `[` give no chords |
| SongText.RenderPartsFrom | src/App.tsx:440-472 | The parts of a line, written back with brackets around the chords, are the line itself |
| SongText.ChordNamesPartsFrom | src/App.tsx:440-472 | The chord parts of a line are the chord tokens of the line, in order |
| SongText.PartsFromWellFormed | src/App.tsx:447-453 | A text part is never empty and never follows another text part |
| SongText.ParseLine | src/App.tsx:440-472 | The scanning loop builds exactly the parts of the line |
| SongText.ParseLineStep | src/App.tsx:447-462 | One match extends the parts built so far to the parts before the next search start |
| SongText.ParseLineEnd | src/App.tsx:465-470 | The trailing text completes the parts of the line |
| SongText.ParseLyrics | src/App.tsx:435-475 | Empty lyrics give no lines. Otherwise there is one part list per `\n`-separated line, each the parts of that line |
| SongText.ParsedLyricsRender | src/App.tsx:438-475 | Each parsed line writes back to its text, and the lines joined by `\n` are the lyrics |
| SongText.FormatDurationAsWrittenThrows | src/App.tsx:407-411 | As written, `"3:00"` reaches the missing third part and throws |
| SongText.FormatDurationPlain | src/App.tsx:404-414 | A missing duration shows `3:00`. A value without `:`, or with one `:`, is shown as it is; as written the latter throws |
| SongText.FormatDurationInterval | src/App.tsx:404-414 | `HH:MM:SS` with an optional fraction is shown as `MM:SS`, as written and corrected |
| MusicData.TableShape | src/services/musicData.ts:16-43 | Every progression has four chords and starts on its own key |
| MusicData.TableChordsAreTriads | src/services/musicData.ts:16-43 | Every chord of the table is a note, or a note with `m` |
| MusicData.TableChordsAreChordNames | src/services/musicData.ts:16-43 | Every chord of the table is a chord name the lyrics notation accepts |
| MusicData.ProgressionFor | src/services/musicData.ts:105 | Every key, known or not, is given four chords |
| MusicData.GenerateChordProgression | src/services/musicData.ts:86-112 | A progression always has four chords |
| MusicData.ProgressionSpec | src/services/musicData.ts:105-111 | A known key gets its table progression, which starts on the key; any other key gets C–Am–F–G |
| MusicData.FeaturesDecide | src/services/musicData.ts:90-99 | With key and mode present, the key is the pitch class's name (C when out of range). Mode 1 is major with I-vi-IV-V; any other mode appends `m` and uses i-VI-III-VII |
| MusicData.MinorKeysWithoutProgression | src/services/musicData.ts:92-105 | Minor modes of pitch classes 1, 3 and 8 name keys the table lacks, so they fall back to C's progression |
| MusicData.HeuristicIsMajor | src/services/musicData.ts:100-111 | Without features the detected key is used as major, with its table progression |
| MusicData.DetectKeySpec | src/services/musicData.ts:115-127 | Each key holds iff its keyword rule is the first one to fire on the title and artist, lowercased; C when none fires; the key is always in the table |
| MusicData.EnhanceSongData | src/services/musicData.ts:146-166 | The enhanced song always has a chords text |
| MusicData.EnhanceSongDataSpec | src/services/musicData.ts:146-166 | Every input field is kept, lyrics come from the lookup exactly when it found some, and the chords text opens with the key before its first `:` |
| MusicData.ChordsTextKey | src/services/musicData.ts:160 | A key without `:` reads back from the chords text |
| MusicData.GeneratedKeyNoColon | src/services/musicData.ts:86-112 | Generated keys contain no `:` |
| Spotify.FormatSpotifyDurationValue | src/services/spotify.ts:133-137 | The text reads back as minutes and two-digit seconds below 60 that make up the whole seconds |
| Spotify.IntervalDurationValue | src/services/spotify.ts:141-147 | The interval reads back as hours, then two-digit minutes and seconds below 60, that make up the whole seconds |
| Spotify.HoursMinutesSeconds | src/services/spotify.ts:141-145 | Hours, minutes and seconds recombine to the total |
| Spotify.IntervalReadBack | src/services/spotify.ts:147 | Padded fields joined by `:` split back into their values |
| Spotify.IntervalShownAsMinutes | src/services/spotify.ts:147 | The set list shows an imported interval as its minutes and seconds |
| Spotify.ArtistNamesReadBack | src/services/spotify.ts:151 | When no name holds a comma, the artist text splits back into the names, each after the first preceded by a space |
| Spotify.FirstMedium | src/services/spotify.ts:125 | `find` gives the first medium-sized image, and none before it is medium-sized |
| Spotify.BestImageSpec | src/services/spotify.ts:118-130 | No image gives no URL. Otherwise the URL is that of one of the images: the widest medium-sized one if any, else the widest (an empty URL reading as none) |
| Spotify.ChooseFromSortedSpec | src/services/spotify.ts:125-129 | On images sorted widest first, the pick is the first medium-sized one, or else the first |
| Spotify.ChosenFromSorted | src/services/spotify.ts:122-129 | A pick from any widest-first reordering of the images is the rule's pick |
| Spotify.ChosenSameImages | src/services/spotify.ts:125-129 | The pick depends only on which images there are |
| Spotify.SortedImages | src/services/spotify.ts:122 | The sort keeps the images and orders them widest first |
| Spotify.GetBestImageUrl | src/services/spotify.ts:118-130 | A missing array gives no URL. Otherwise the array is left sorted and the URL is the one the rule chooses |
| Spotify.SpotifyTrackToSong | src/services/spotify.ts:140-162 | Each field of the row comes from the track, the duration is the interval, the thumbnail is the chosen image and the images are left sorted |
| Sorting.SortInPlace | src/services/spotify.ts:122 | `Array.prototype.sort` rearranges the array into the stable sorted order of its contents |
| Sorting.InsertLast | src/services/spotify.ts:122 | One insertion step places the next element into the sorted prefix and leaves the rest alone |
| Sorting.SortPermutation | src/services/spotify.ts:122 | Sorting is a permutation |
| Sorting.SortSorted | src/services/spotify.ts:122 | Sorting orders by the comparator's key |
| Sorting.SortIdempotent | src/SongLibrary.tsx:50-64 | Sorting a sorted list changes nothing |
| Sorting.SortOfSorted | src/SongLibrary.tsx:50-64 | A list already in order is its own sort |
| SongLibrary.FilterSongsSpec | src/SongLibrary.tsx:36-47 | A non-blank term keeps, in order and with multiplicity, exactly the songs whose name, artist or album (when present) contains it, case-insensitively |
| SongLibrary.FilterAsWrittenSpec | src/SongLibrary.tsx:40-44 | The filter as written throws iff some row has no artist and a name that does not match. Otherwise it keeps what the intended filter keeps |
| SongLibrary.FilterAsWrittenThrows | src/SongLibrary.tsx:40-44 | A library holding a song named `A` without an artist makes the search for `rock` throw, where the intended filter shows no match |
| SongLibrary.BlankTermShowsAll | src/SongLibrary.tsx:37-38 | A blank term shows the whole list |
| SongLibrary.SortByPopularitySpec | src/SongLibrary.tsx:50-64 | The popularity sort keeps the songs and orders them by non-increasing popularity, a missing one counting as 0 |
| SongLibrary.SortByPopularitySettles | src/SongLibrary.tsx:50-64 | Sorting the sorted list again gives the same list |
| SongLibrary.LibraryFormatDurationHours | src/SongLibrary.tsx:84-92 | `00:MM:SS` shows as `MM:SS`; other hours are kept |
| SongLibrary.LibraryFormatDurationOther | src/SongLibrary.tsx:84-92 | A value without exactly three parts is shown as it is |
| SongLibrary.DurationShownSpec | src/SongLibrary.tsx:84-92 | Rendering a row (line 181) throws iff it has no duration; `00:MM:SS` shows as `MM:SS` |
| UserAvatar.InitialsSpec | src/UserAvatar.tsx:17-24 | The initials are the upper-cased first characters of the first two segments of the local part; at most two |
| UserAvatar.InitialsIgnoreDomain | src/UserAvatar.tsx:18-19 | Only the text before the first `@` counts |
| UserAvatar.InitialsEmptySegment | src/UserAvatar.tsx:19-22 | An empty segment counts as one of the two, so `x..rest@d` shows one letter |
| UserAvatar.ToInt32 | src/UserAvatar.tsx:32 | The 32-bit conversion yields a signed 32-bit value congruent to its input |
| UserAvatar.HashBound | src/UserAvatar.tsx:31-33 | The hash of n characters stays within n·2^32 of zero |
| UserAvatar.HashExact | src/UserAvatar.tsx:31-33 | For emails up to 2^20 characters the hash stays below 2^53, so double arithmetic is exact |
| UserAvatar.AvatarColor | src/UserAvatar.tsx:26-36 | The loop's colour is the palette entry at the email's hash modulo 10 |
| UserAvatar.HashIsPolynomial | src/UserAvatar.tsx:31-35 | While no `hash << 5` leaves 32 bits, the hash is the polynomial hash `31·hash + code`, and the colour is picked from it |
| UserAvatar.TwoCharacterHash | src/UserAvatar.tsx:31-34 | A two-character email `xy` hashes to `31·code(x) + code(y)` |
| UserAvatar.TwoCharacterColor | src/UserAvatar.tsx:31-35 | The email `ab` gets the sixth colour, `#DDA0DD` |
| UserAvatar.MissingEmail | src/UserAvatar.tsx:58-59 | A missing email hashes to 0: the first colour and no initials |
| SpotifyPlayer.WithoutSpec | src/services/spotifyPlayer.ts:253-254 | `off` with a callback removes all its registrations and keeps each other one, in order |
| SpotifyPlayer.OnThenOff | src/services/spotifyPlayer.ts:242-257 | Registering a new callback and then unregistering it restores the list |
| SpotifyPlayer.SpotifyPlayerService.constructor | src/services/spotifyPlayer.ts:79-83 | No player, device, token or listeners, and not ready |
| SpotifyPlayer.SpotifyPlayerService.PlayTrack | src/services/spotifyPlayer.ts:162-165 | Rejects with "Spotify player not ready" iff the token or the device id is missing or empty |
| SpotifyPlayer.SpotifyPlayerService.Pause | src/services/spotifyPlayer.ts:189-194 | Rejects with "Player not initialized" iff there is no player |
| SpotifyPlayer.SpotifyPlayerService.Resume | src/services/spotifyPlayer.ts:196-201 | Rejects iff there is no player |
| SpotifyPlayer.SpotifyPlayerService.TogglePlay | src/services/spotifyPlayer.ts:203-208 | Rejects iff there is no player |
| SpotifyPlayer.SpotifyPlayerService.SetVolume | src/services/spotifyPlayer.ts:217-222 | Rejects iff there is no player |
| SpotifyPlayer.SpotifyPlayerService.GetCurrentState | src/services/spotifyPlayer.ts:210-215 | The player is asked iff there is one; otherwise the state is null |
| SpotifyPlayer.SpotifyPlayerService.Disconnect | src/services/spotifyPlayer.ts:224-231 | No player, device or readiness remain, the token and listeners are kept, and every guarded call rejects afterwards |
| SpotifyPlayer.SpotifyPlayerService.InitializePlayer | src/services/spotifyPlayer.ts:101-107 | A player exists afterwards iff one existed or a non-empty token and the SDK are available |
| SpotifyPlayer.SpotifyPlayerService.SetAccessToken | src/services/spotifyPlayer.ts:92-99 | The token is stored. A ready player is dropped and recreated with it (not ready, no device); otherwise nothing else changes |
| SpotifyPlayer.SpotifyPlayerService.OnReady | src/services/spotifyPlayer.ts:138-143 | The device id is stored, the player is ready, and the `ready` listeners are called in order |
| SpotifyPlayer.SpotifyPlayerService.OnNotReady | src/services/spotifyPlayer.ts:146-150 | The player is not ready and the `not_ready` listeners are called in order |
| SpotifyPlayer.SpotifyPlayerService.GetDeviceId | src/services/spotifyPlayer.ts:233-235 | Returns the stored device id |
| SpotifyPlayer.SpotifyPlayerService.IsPlayerReady | src/services/spotifyPlayer.ts:237-239 | Returns the readiness flag |
| SpotifyPlayer.SpotifyPlayerService.On | src/services/spotifyPlayer.ts:242-247 | The callback is appended to the event's list, which is created if missing; no other event changes |
| SpotifyPlayer.SpotifyPlayerService.Off | src/services/spotifyPlayer.ts:249-257 | An unknown event changes nothing. With a callback, its registrations are removed; without one, the event's list is emptied |
| SpotifyPlayer.SpotifyPlayerService.Emit | src/services/spotifyPlayer.ts:259-263 | The listeners called are exactly the event's registrations, in order |
| ModeContext.Toggled | src/ModeContext.tsx:24-26 | Toggling always changes the mode |
| ModeContext.ToggleTwice | src/ModeContext.tsx:24-26 | Toggling twice restores the mode |
| ModeContext.ModeProvider.constructor | src/ModeContext.tsx:22 | The mode starts as performance |
| ModeContext.ModeProvider.ToggleMode | src/ModeContext.tsx:24-26 | Performance becomes edit and edit becomes performance |
| ModeContext.ModeProvider.SetMode | src/ModeContext.tsx:28-30 | The mode becomes the one given |

These functions model a source function and are specified by the members above:

- `Setlist.Reordered` (src/App.tsx:318-325) — by `Setlist.ReorderedMoves`.
- `Setlist.AddRequest` (src/App.tsx:234-246) — by `Setlist.AddRequestIssued` and `Setlist.AddRequestSpec`.
- `Setlist.Replaced` (src/App.tsx:266) — by `Setlist.ReplacedSpec`.
- `Setlist.Removed` (src/App.tsx:303) — by `Setlist.RemovedSpec`.
- `Setlist.QueryAnswer` (src/App.tsx:203-208) — by `Setlist.QueryAnswerOrder`, `Setlist.SongsQuery` and `Setlist.RefetchKeepsOrder`.
- `Setlist.Fetched` (src/App.tsx:200-215) — by `Setlist.SetlistManager.FetchSongs`.
- `SongText.ExtractChords` (src/App.tsx:417-432) — by `SongText.ExtractChordsSpec` and `SongText.NoBracketNoChords`.
- `SongText.FormatDurationAsWritten` (src/App.tsx:404-414) — by `SongText.FormatDurationAsWrittenThrows`, `SongText.FormatDurationPlain` and `SongText.FormatDurationInterval`.
- `SongText.FormatDuration` (src/App.tsx:404-414, with the corrected guard) — by `SongText.FormatDurationPlain` and `SongText.FormatDurationInterval`.
- `MusicData.DetectKey` (src/services/musicData.ts:115-127) — by `MusicData.DetectKeySpec`.
- `Spotify.FormatSpotifyDuration` (src/services/spotify.ts:133-137) — by `Spotify.FormatSpotifyDurationValue`.
- `Spotify.IntervalDuration` (src/services/spotify.ts:141-147) — by `Spotify.IntervalDurationValue` and `Spotify.IntervalShownAsMinutes`.
- `Spotify.ArtistNames` (src/services/spotify.ts:151) — by `Spotify.ArtistNamesReadBack`.
- `Spotify.BestImage` (src/services/spotify.ts:118-130) — by `Spotify.BestImageSpec`.
- `SongLibrary.FilterSongs` (src/SongLibrary.tsx:36-47) — by `SongLibrary.FilterSongsSpec` and `SongLibrary.BlankTermShowsAll`.
- `SongLibrary.FilterSongsAsWritten` (src/SongLibrary.tsx:36-47) — by `SongLibrary.FilterAsWrittenSpec` and `SongLibrary.FilterAsWrittenThrows`.
- `SongLibrary.SortByPopularity` (src/SongLibrary.tsx:50-64) — by `SongLibrary.SortByPopularitySpec` and `SongLibrary.SortByPopularitySettles`.
- `SongLibrary.LibraryFormatDuration` (src/SongLibrary.tsx:84-92) — by `SongLibrary.LibraryFormatDurationHours` and `SongLibrary.LibraryFormatDurationOther`.
- `SongLibrary.DurationShown` (src/SongLibrary.tsx:181) — by `SongLibrary.DurationShownSpec`.
- `UserAvatar.Initials` (src/UserAvatar.tsx:17-24) — by `UserAvatar.InitialsSpec`, `UserAvatar.InitialsIgnoreDomain` and `UserAvatar.InitialsEmptySegment`.
- `UserAvatar.Hash` (src/UserAvatar.tsx:30-33) — by `UserAvatar.AvatarColor`, `UserAvatar.HashBound`, `UserAvatar.HashExact` and `UserAvatar.HashIsPolynomial`.

## Left out

- The store (Supabase), the network, the Genius lyrics lookup (`fetchLyrics`), the Spotify Web API and the Web Playback SDK are I/O. Their answers are parameters: an outcome datatype, `lyricsFound`, `sdkLoaded`, or the event a method models. What they do inside is not modelled.
- React rendering, effects scheduling and the order in which asynchronous updates land are not modelled. Each method applies its state update at once, on the state it was called with.
- `Setlist.SetlistManager.HandleDragEnd` requires the dragged song to be in the list: drag and drop only offers the list's own ids (src/App.tsx:1066). What `arrayMove` would do with index -1 is not modelled.
- The store's `ORDER BY position, created_at DESC` does not fix the order of rows that tie on both columns. `Setlist.QueryAnswer` accepts any such order. `Setlist.SongsQuery` is one of them, with ties kept in table order.
- `arrayMove` comes from the drag-and-drop library, not from the repository. It is modelled as "remove at the source index, insert at the destination index", with destination -1 meaning the end.
- The position writes are modelled as one batch that either resolves or rejects. Partial failures reported per write, which `Promise.all` does not turn into a rejection, are not distinguished.
- The sorts by `name` and by `artist` in the song library use `localeCompare`, whose collation is not modelled. Only the popularity sort is.
- The song library's sort effect (src/SongLibrary.tsx:50-64) never stops. Each run builds a new array with `[...filteredSongs].sort(...)` and stores it in `filteredSongs`, which is one of the effect's own dependencies, so React runs it again every time. `SongLibrary.SortByPopularitySettles` only proves that every later run yields the same contents. The endless re-running itself is not modelled.
- `toLowerCase` and `toUpperCase` are modelled on ASCII letters only. Unicode case mapping is not modelled.
- `charCodeAt` is modelled as the character's code point. Characters outside the Basic Multilingual Plane, which JavaScript sees as two UTF-16 units, are not modelled.
- `SpotifyPlayer.SpotifyPlayerService`: event names are keys of a plain JavaScript object. A name such as `"constructor"`, which the object's prototype already answers, is not modelled specially.
- `SpotifyPlayer.SpotifyPlayerService.Emit`: the callbacks' effects are not modelled, including a callback that registers or unregisters listeners while `emit` runs. Callbacks are identified by number.
- `SpotifyPlayer.SpotifyPlayerService`: the `player_state_changed`, error and connect listeners are logging or plain forwarding through `emit`, which is modelled. The Web API request of `playTrack` and its error answer are I/O.
- The `useMode` hook, which throws when used outside the provider, is React plumbing and is not modelled.
- `SongText.IsChordName` reads a chord left to right. The regular expression itself is stated as `SongText.MatchesChordPattern`, and the two are proved equal (`SongText.ChordNameMatchesPattern`).

## Findings

| source | as written | input that shows it | evidently intended | confidence | as-written member | corrected member |
|---|---|---|---|---|---|---|
| src/App.tsx:407-411 | The guard `parts.length >= 2` lets a value with one `:` through, and the code then reads `parts[2].split('.')`, which is undefined and throws a `TypeError` | a stored duration with exactly one `:`, such as `3:00` kept in a text column | Convert only an `HH:MM:SS` interval (three or more parts) and show anything else as it is | low, not executed: an interval column, which the comments at src/App.tsx:406 and src/services/spotify.ts:146 describe, always returns three parts | SongText.FormatDurationAsWrittenThrows | SongText.FormatDurationPlain |
| src/App.tsx:264-270 | On success, `data[0]` is written into the list and the selection even when the update returned no row (for instance, when row-level security hides the row), so the edited song's slot becomes `undefined` | `updateSong(id, …)` answered with `data = []` and no error | Keep the list and the selection when no row comes back | medium, not executed | Setlist.SlotsAfterUpdateSpec | Setlist.SetlistManager.UpdateSong |
| src/SongLibrary.tsx:40-44 | The filter reads `song.artist.toLowerCase()` for every row whose name does not match. A row added from the set list has no artist (src/App.tsx:240-246), so the `TypeError` ends the filter | the library holds a song named `A` with no artist, and the search term is `rock` | Read the artist as `song.artist?.toLowerCase()`, as the album line does, so such a row does not match | medium, not executed | SongLibrary.FilterAsWrittenThrows | SongLibrary.FilterSongsSpec |
