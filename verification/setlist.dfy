/**
 * The band's song list kept by `SetlistManager` (src/App.tsx): the `songs`
 * rows of one band, loaded in `position` order, reordered by drag and drop,
 * extended, edited and deleted. Every call to the store is I/O; its outcome
 * (the rows returned, an error, or a rejected batch) is an input of the
 * method that issues it.
 */
module Setlist {
  import opened Wrappers
  import opened Strings
  import opened Sorting
  import opened Sequences

  /** A row of the `songs` table. `created_at` is a timestamp, modelled by the
      instant it denotes. */
  datatype Song = Song(
    id: string,
    userId: string,
    bandId: string,
    name: string,
    artist: Option<string>,
    lyrics: Option<string>,
    chords: Option<string>,
    notes: Option<string>,
    thumbnailUrl: Option<string>,
    duration: Option<string>,
    tempo: Option<int>,
    position: Option<int>,
    createdAt: int,
    updatedAt: int)

  function Ids(s: seq<Song>): (r: seq<string>)
    ensures |r| == |s|
    ensures forall i :: 0 <= i < |s| ==> r[i] == s[i].id
  {
    seq(|s|, i requires 0 <= i < |s| => s[i].id)
  }

  predicate UniqueIds(s: seq<Song>)
  {
    Distinct(Ids(s))
  }

  /** `songs.findIndex(song => song.id === id)`. */
  function IndexOfId(s: seq<Song>, id: string): (r: int)
    ensures -1 <= r < |s|
    ensures r >= 0 ==> s[r].id == id
    ensures forall k :: 0 <= k < |s| && (r < 0 || k < r) ==> s[k].id != id
  {
    FirstIndex(Ids(s), id)
  }

  // ---------------------------------------------------------------------
  // Loading: the band's rows in `position` order
  // ---------------------------------------------------------------------

  /** The rows an `eq('band_id', band)` filter keeps, in table order. */
  function BandRows(table: seq<Song>, band: string): seq<Song>
  {
    if table == [] then []
    else (if table[0].bandId == band then [table[0]] else []) + BandRows(table[1..], band)
  }

  /** The filter keeps exactly the band's rows. */
  lemma {:induction false} BandRowsMembers(table: seq<Song>, band: string)
    ensures forall x :: x in BandRows(table, band) <==> x in table && x.bandId == band
  {
    if table != [] {
      BandRowsMembers(table[1..], band);
      assert table == [table[0]] + table[1..];
    }
  }

  /** `ORDER BY position ASC, created_at DESC`; PostgreSQL puts a missing
      position last in ascending order. */
  function SongOrder(s: Song): SortKey
  {
    SortKey(if s.position.None? then 1 else 0, s.position.GetOr(0), -s.createdAt)
  }

  /** What the query of `fetchSongs` may return: the band's rows, each once,
      ordered by `position` and then `created_at`. The store does not fix the
      order of rows that tie on both columns, so any such order is an
      answer. */
  predicate QueryAnswer(table: seq<Song>, band: string, rows: seq<Song>)
  {
    multiset(rows) == multiset(BandRows(table, band)) && Sorted(rows, SongOrder)
  }

  /** Every table has an answer: the band's rows in query order, ties kept in
      table order. */
  function SongsQuery(table: seq<Song>, band: string): (r: seq<Song>)
    ensures multiset(r) == multiset(BandRows(table, band))
    ensures Sorted(r, SongOrder)
  {
    SortSorted(BandRows(table, band), SongOrder);
    SortPermutation(BandRows(table, band), SongOrder);
    Sort(BandRows(table, band), SongOrder)
  }

  /** Reading any answer pairwise: songs with a position come first, by
      ascending position; ties and songs without one, newest first. */
  lemma QueryAnswerOrder(table: seq<Song>, band: string, rows: seq<Song>, i: nat, j: nat)
    requires QueryAnswer(table, band, rows)
    requires i < j < |rows|
    ensures rows[i].bandId == band && rows[j].bandId == band &&
      (rows[i].position.None? ==> rows[j].position.None?) &&
      (rows[i].position.Some? && rows[j].position.Some? ==> rows[i].position.value <= rows[j].position.value) &&
      (rows[i].position == rows[j].position ==> rows[i].createdAt >= rows[j].createdAt)
  {
    assert Leq(SongOrder, rows[i], rows[j]);
    assert rows[i] in multiset(BandRows(table, band)) && rows[j] in multiset(BandRows(table, band));
    BandRowsMembers(table, band);
  }

  // ---------------------------------------------------------------------
  // Reordering
  // ---------------------------------------------------------------------

  /** The slot `arrayMove` inserts at: a negative `to` counts from the end of
      the list as it was before the element was taken out, so -1 is the last
      slot. */
  function MoveTarget(n: nat, to: int): int
  {
    if to < 0 then n + to else to
  }

  /** dnd-kit's `arrayMove(s, from, to)`: take the element out of `from` and
      put it back at `MoveTarget(|s|, to)`. */
  function ArrayMove<T>(s: seq<T>, from: nat, to: int): (r: seq<T>)
    requires from < |s| && -1 <= to < |s|
    ensures |r| == |s|
    ensures r[MoveTarget(|s|, to)] == s[from]
    ensures RemoveAt(r, MoveTarget(|s|, to)) == RemoveAt(s, from)
  {
    var rest := RemoveAt(s, from);
    var d := MoveTarget(|s|, to);
    assert s == s[..from] + [s[from]] + s[from + 1..];
    var r := rest[..d] + [s[from]] + rest[d..];
    assert r[..d] + r[d + 1..] == rest;
    r
  }

  /** Moving loses and adds nothing. */
  lemma ArrayMovePermutation<T>(s: seq<T>, from: nat, to: int)
    requires from < |s| && -1 <= to < |s|
    ensures multiset(ArrayMove(s, from, to)) == multiset(s)
  {
    MultisetRemoveAt(ArrayMove(s, from, to), MoveTarget(|s|, to));
    MultisetRemoveAt(s, from);
  }

  /** The two facts `ArrayMove` promises determine its result: any list with
      the moved element at the target and the other elements in their old
      order is the moved list. */
  lemma ArrayMoveUnique<T>(s: seq<T>, from: nat, to: int, t: seq<T>)
    requires from < |s| && -1 <= to < |s|
    requires |t| == |s|
    requires t[MoveTarget(|s|, to)] == s[from]
    requires RemoveAt(t, MoveTarget(|s|, to)) == RemoveAt(s, from)
    ensures t == ArrayMove(s, from, to)
  {
    var d := MoveTarget(|s|, to);
    var r := ArrayMove(s, from, to);
    assert t == t[..d] + [t[d]] + t[d + 1..];
    assert r == r[..d] + [r[d]] + r[d + 1..];
    assert t[..d] == RemoveAt(t, d)[..d] && r[..d] == RemoveAt(r, d)[..d];
    assert t[d + 1..] == RemoveAt(t, d)[d..] && r[d + 1..] == RemoveAt(r, d)[d..];
  }

  /** Moving an element onto its own slot changes nothing. */
  lemma ArrayMoveInPlace<T>(s: seq<T>, from: nat, to: int)
    requires from < |s| && -1 <= to < |s|
    requires MoveTarget(|s|, to) == from
    ensures ArrayMove(s, from, to) == s
  {
    ArrayMoveUnique(s, from, to, s);
  }

  /** Moving keeps the ids of a list unique. */
  lemma ArrayMoveUniqueIds(s: seq<Song>, from: nat, to: int)
    requires from < |s| && -1 <= to < |s|
    requires UniqueIds(s)
    ensures UniqueIds(ArrayMove(s, from, to))
  {
    var r := ArrayMove(s, from, to);
    var d := MoveTarget(|s|, to);
    IdsRemoveAt(r, d);
    IdsRemoveAt(s, from);
    MultisetRemoveAt(Ids(r), d);
    MultisetRemoveAt(Ids(s), from);
    DistinctPermutation(Ids(s), Ids(r));
  }

  lemma IdsRemoveAt(s: seq<Song>, k: nat)
    requires k < |s|
    ensures Ids(RemoveAt(s, k)) == RemoveAt(Ids(s), k)
  {
  }

  /** The index `handleDragEnd` moves to: the drop target's index, or -1 when
      there is no drop target or it is not in the list. */
  function OverIndex(s: seq<Song>, over: Option<string>): int
  {
    match over
    case None => -1
    case Some(o) => IndexOfId(s, o)
  }

  /** The list `handleDragEnd` shows after a drop of `active` on `over`. */
  function Reordered(s: seq<Song>, active: string, over: Option<string>): seq<Song>
    requires IndexOfId(s, active) >= 0
  {
    if over == Some(active) then s
    else ArrayMove(s, IndexOfId(s, active), OverIndex(s, over))
  }

  /** A drop on another song moves the dragged song into that song's slot and
      keeps every other song in its relative order; a drop with no target
      sends it to the end; a drop on itself changes nothing. */
  lemma ReorderedMoves(s: seq<Song>, active: string, over: Option<string>)
    requires IndexOfId(s, active) >= 0
    ensures var r := Reordered(s, active, over);
      var d := if over.Some? && IndexOfId(s, over.value) >= 0 then IndexOfId(s, over.value) else |s| - 1;
      |r| == |s| && multiset(r) == multiset(s) &&
      (over == Some(active) ==> r == s) &&
      (over != Some(active) ==> r[d].id == active && RemoveAt(r, d) == RemoveAt(s, IndexOfId(s, active)))
  {
    ArrayMovePermutation(s, IndexOfId(s, active), OverIndex(s, over));
  }

  /** One write of `update({ position: index }).eq('id', id)`. */
  datatype PositionWrite = PositionWrite(id: string, position: int)

  /** The writes `handleDragEnd` issues: one per song of the new list, its
      index as its position. */
  function PositionWrites(s: seq<Song>): (w: seq<PositionWrite>)
    ensures |w| == |s|
    ensures forall i :: 0 <= i < |s| ==> w[i] == PositionWrite(s[i].id, i)
  {
    seq(|s|, i requires 0 <= i < |s| => PositionWrite(s[i].id, i))
  }

  function WriteIds(w: seq<PositionWrite>): (r: seq<string>)
    ensures |r| == |w|
    ensures forall i :: 0 <= i < |w| ==> r[i] == w[i].id
  {
    seq(|w|, i requires 0 <= i < |w| => w[i].id)
  }

  /** A row after the batch: it takes the position written for its id, if any.
      The batch's ids are the ids of one list, so at most one write names a row
      and the order in which the concurrent writes land does not matter. */
  function Written(row: Song, w: seq<PositionWrite>): Song
  {
    var k := FirstIndex(WriteIds(w), row.id);
    if k < 0 then row else row.(position := Some(w[k].position))
  }

  function ApplyWrites(table: seq<Song>, w: seq<PositionWrite>): (r: seq<Song>)
    ensures |r| == |table|
    ensures forall i :: 0 <= i < |table| ==> r[i] == Written(table[i], w)
  {
    seq(|table|, i requires 0 <= i < |table| => Written(table[i], w))
  }

  /** After the writes, every song of the list has its index as its position:
      the positions written are exactly 0..N-1. Rows not in the list keep
      theirs, and nothing but the position changes. */
  lemma WrittenPositions(s: seq<Song>, row: Song)
    ensures var k := IndexOfId(s, row.id);
      Written(row, PositionWrites(s)) == if k < 0 then row else row.(position := Some(k))
  {
    assert WriteIds(PositionWrites(s)) == Ids(s);
  }

  lemma {:induction false} BandRowsWritten(t: seq<Song>, w: seq<PositionWrite>, band: string)
    ensures BandRows(ApplyWrites(t, w), band) == ApplyWrites(BandRows(t, band), w)
  {
    if t != [] {
      var a := ApplyWrites(t, w);
      assert a[1..] == ApplyWrites(t[1..], w);
      BandRowsWritten(t[1..], w, band);
      var head := if t[0].bandId == band then [t[0]] else [];
      assert ApplyWrites(head + BandRows(t[1..], band), w)
          == ApplyWrites(head, w) + ApplyWrites(BandRows(t[1..], band), w);
    }
  }

  /** What the table's band rows look like once the writes of `order` have
      landed, when those rows are exactly the songs of `order`. */
  lemma WrittenBandRows(table: seq<Song>, order: seq<Song>, band: string)
    requires UniqueIds(order)
    requires multiset(Ids(BandRows(table, band))) == multiset(Ids(order))
    ensures var b := BandRows(ApplyWrites(table, PositionWrites(order)), band);
      |b| == |order| && UniqueIds(b) &&
      forall x :: x in b ==> IndexOfId(order, x.id) >= 0 && x.position == Some(IndexOfId(order, x.id))
  {
    var w := PositionWrites(order);
    var b0 := BandRows(table, band);
    var b := BandRows(ApplyWrites(table, w), band);
    BandRowsWritten(table, w, band);
    assert Ids(b) == Ids(b0);
    DistinctPermutation(Ids(order), Ids(b0));
    forall x | x in b
      ensures IndexOfId(order, x.id) >= 0 && x.position == Some(IndexOfId(order, x.id))
    {
      var p :| 0 <= p < |b| && b[p] == x;
      assert x.id == Ids(b0)[p];
      assert x.id in multiset(Ids(order));
      WrittenPositions(order, b0[p]);
    }
  }

  /** A sorted list of distinct rows whose positions are their indices in
      `order`, one row per song of `order`, lists the songs of `order` in
      order. */
  lemma SortedByIndexIsOrder(r: seq<Song>, order: seq<Song>)
    requires Sorted(r, SongOrder)
    requires Distinct(r) && |r| == |order|
    requires forall x, y :: x in r && y in r && x.id == y.id ==> x == y
    requires forall x :: x in r ==> IndexOfId(order, x.id) >= 0 && x.position == Some(IndexOfId(order, x.id))
    ensures Ids(r) == Ids(order)
  {
    var p := seq(|r|, k requires 0 <= k < |r| => IndexOfId(order, r[k].id));
    forall i, j | 0 <= i < j < |p| ensures p[i] < p[j] {
      assert r[i] in r && r[j] in r;
      assert Leq(SongOrder, r[i], r[j]);
    }
    IncreasingIsIdentity(p);
    forall k | 0 <= k < |r| ensures Ids(r)[k] == Ids(order)[k] {
      assert p[k] == k;
    }
  }

  /** The order survives the round trip through the store: once every write of
      a reorder has landed, any answer to the band's query lists the songs in
      the new order, provided the band's rows in the table are the songs of
      the list. */
  lemma RefetchKeepsOrder(table: seq<Song>, order: seq<Song>, band: string, rows: seq<Song>)
    requires UniqueIds(order)
    requires multiset(Ids(BandRows(table, band))) == multiset(Ids(order))
    requires QueryAnswer(ApplyWrites(table, PositionWrites(order)), band, rows)
    ensures Ids(rows) == Ids(order)
  {
    var b := BandRows(ApplyWrites(table, PositionWrites(order)), band);
    WrittenBandRows(table, order, band);
    RearrangedRows(b, rows, order);
    SortedByIndexIsOrder(rows, order);
  }

  /** A rearrangement of rows with unique ids, each carrying its index in
      `order` as its position, has the same three properties. */
  lemma RearrangedRows(b: seq<Song>, r: seq<Song>, order: seq<Song>)
    requires UniqueIds(b) && multiset(r) == multiset(b)
    requires forall x :: x in b ==> IndexOfId(order, x.id) >= 0 && x.position == Some(IndexOfId(order, x.id))
    ensures Distinct(r) && |r| == |b|
    ensures forall x, y :: x in r && y in r && x.id == y.id ==> x == y
    ensures forall x :: x in r ==> IndexOfId(order, x.id) >= 0 && x.position == Some(IndexOfId(order, x.id))
  {
    assert |r| == |multiset(r)| == |b|;
    UniqueIdsDistinct(b);
    DistinctPermutation(b, r);
    SameMembers(b, r);
    IdsIdentify(b);
  }

  /** In a list with unique ids, songs with the same id are the same song. */
  lemma IdsIdentify(b: seq<Song>)
    requires UniqueIds(b)
    ensures forall x, y :: x in b && y in b && x.id == y.id ==> x == y
  {
    forall x, y | x in b && y in b && x.id == y.id ensures x == y {
      var i :| 0 <= i < |b| && b[i] == x;
      var j :| 0 <= j < |b| && b[j] == y;
      assert Ids(b)[i] == Ids(b)[j];
    }
  }

  /** Songs with unique ids are distinct songs. */
  lemma UniqueIdsDistinct(b: seq<Song>)
    requires UniqueIds(b)
    ensures Distinct(b)
  {
    forall i, j | 0 <= i < j < |b| ensures b[i] != b[j] {
      assert Ids(b)[i] != Ids(b)[j];
    }
  }

  lemma SameMembers(b: seq<Song>, r: seq<Song>)
    requires multiset(r) == multiset(b)
    ensures forall x :: x in r <==> x in b
  {
    forall x ensures x in r <==> x in b {
      assert x in r <==> x in multiset(r);
      assert x in b <==> x in multiset(b);
    }
  }

  // ---------------------------------------------------------------------
  // Appending, editing, deleting
  // ---------------------------------------------------------------------

  /** `Math.max(...songs.map(s => s.position || 0))`. */
  function MaxPosition(s: seq<Song>): (m: int)
    requires |s| > 0
    ensures forall k :: 0 <= k < |s| ==> s[k].position.GetOr(0) <= m
    ensures exists k :: 0 <= k < |s| && m == s[k].position.GetOr(0)
  {
    if |s| == 1 then s[0].position.GetOr(0)
    else
      var m := MaxPosition(s[1..]);
      assert forall k :: 1 <= k < |s| ==> s[k] == s[1..][k - 1];
      if s[0].position.GetOr(0) >= m then s[0].position.GetOr(0) else m
  }

  /** The position `addSong` gives a new song: one past the largest position
      (a missing one counting as 0), or 0 for an empty list. */
  function NextPosition(s: seq<Song>): (r: int)
    ensures |s| == 0 ==> r == 0
    ensures forall k :: 0 <= k < |s| ==> s[k].position.GetOr(0) < r
    ensures |s| > 0 ==> exists k :: 0 <= k < |s| && r == s[k].position.GetOr(0) + 1
  {
    if |s| > 0 then MaxPosition(s) + 1 else 0
  }

  /** The next position depends only on which songs are listed, not on their
      order, so a reorder does not change it. */
  lemma NextPositionPermutation(a: seq<Song>, b: seq<Song>)
    requires multiset(a) == multiset(b)
    ensures NextPosition(a) == NextPosition(b)
  {
    if |a| > 0 {
      var i :| 0 <= i < |a| && NextPosition(a) == a[i].position.GetOr(0) + 1;
      var j :| 0 <= j < |b| && NextPosition(b) == b[j].position.GetOr(0) + 1;
      assert a[i] in multiset(b) && b[j] in multiset(a);
    }
  }

  /** The row `addSong` asks the store to insert. */
  datatype NewSong = NewSong(name: string, userId: string, bandId: string, position: int)

  /** The insert `addSong` issues, if any: none for a blank name or without a
      signed-in user and a band. */
  function AddRequest(name: string, userId: Option<string>, bandId: Option<string>, s: seq<Song>): Option<NewSong>
  {
    if IsBlank(name) || userId.None? || bandId.None? then None
    else Some(NewSong(Trim(name), userId.value, bandId.value, NextPosition(s)))
  }

  /** An insert is issued exactly for a name with a non-whitespace character
      and a known user and band. */
  lemma AddRequestIssued(name: string, userId: Option<string>, bandId: Option<string>, s: seq<Song>)
    ensures AddRequest(name, userId, bandId, s).Some? <==>
      (exists k :: 0 <= k < |name| && !IsWhitespace(name[k])) && userId.Some? && bandId.Some?
  {
    BlankIffAllWhitespace(name);
  }

  /** The insert carries the trimmed name, which neither starts nor ends with
      whitespace, the user and band, and a position above every listed one. */
  lemma AddRequestSpec(name: string, userId: Option<string>, bandId: Option<string>, s: seq<Song>)
    requires AddRequest(name, userId, bandId, s).Some?
    ensures var q := AddRequest(name, userId, bandId, s).value;
      q.name == Trim(name) && q.name != [] &&
      !IsWhitespace(q.name[0]) && !IsWhitespace(q.name[|q.name| - 1]) &&
      q.userId == userId.value && q.bandId == bandId.value &&
      forall k :: 0 <= k < |s| ==> s[k].position.GetOr(0) < q.position
  {
    TrimEnds(name);
  }

  /** `songs.map(song => song.id === id ? x : song)`. */
  function Replaced(s: seq<Song>, id: string, x: Song): (r: seq<Song>)
    ensures |r| == |s|
    ensures forall i :: 0 <= i < |s| ==> r[i] == if s[i].id == id then x else s[i]
  {
    seq(|s|, i requires 0 <= i < |s| => if s[i].id == id then x else s[i])
  }

  /** In a list with unique ids, replacing the song with id `id` by a row with
      the same id swaps exactly that one slot and keeps the ids; with no such
      song, the list is unchanged. */
  lemma ReplacedSpec(s: seq<Song>, id: string, x: Song)
    requires UniqueIds(s)
    ensures var k := IndexOfId(s, id);
      (k < 0 ==> Replaced(s, id, x) == s) &&
      (k >= 0 ==> Replaced(s, id, x) == s[..k] + [x] + s[k + 1..]) &&
      (x.id == id ==> Ids(Replaced(s, id, x)) == Ids(s))
  {
    var k := IndexOfId(s, id);
    if k >= 0 {
      forall i | 0 <= i < |s| && i != k ensures s[i].id != id {
        assert Ids(s)[i] != Ids(s)[k] || i == k;
      }
    }
  }

  /** The list `updateSong` stores as written: `data[0]` goes into the
      matching slot even when the update returned no row, and `data[0]` is
      then `undefined` (`None` here). */
  function SlotsAfterUpdate(s: seq<Song>, id: string, rows: seq<Song>): (r: seq<Option<Song>>)
    ensures |r| == |s|
  {
    seq(|s|, i requires 0 <= i < |s| =>
      if s[i].id != id then Some(s[i]) else if rows != [] then Some(rows[0]) else None)
  }

  /** With a returned row the as-written list is the corrected one; with none,
      the edited song's slot holds `undefined`. */
  lemma SlotsAfterUpdateSpec(s: seq<Song>, id: string, rows: seq<Song>)
    ensures rows != [] ==>
      forall i :: 0 <= i < |s| ==> SlotsAfterUpdate(s, id, rows)[i] == Some(Replaced(s, id, rows[0])[i])
    ensures rows == [] && IndexOfId(s, id) >= 0 ==> SlotsAfterUpdate(s, id, rows)[IndexOfId(s, id)] == None
  {
  }

  /** `songs.filter(song => song.id !== id)`. */
  function Removed(s: seq<Song>, id: string): seq<Song>
  {
    if s == [] then []
    else (if s[0].id == id then [] else [s[0]]) + Removed(s[1..], id)
  }

  /** Deleting from a list with unique ids takes out exactly the one song with
      that id and keeps the others in order, positions untouched; deleting an
      absent id changes nothing. */
  lemma RemovedSpec(s: seq<Song>, id: string)
    requires UniqueIds(s)
    ensures var k := IndexOfId(s, id);
      (k < 0 ==> Removed(s, id) == s) &&
      (k >= 0 ==> Removed(s, id) == RemoveAt(s, k))
  {
    var k := IndexOfId(s, id);
    if k < 0 {
      RemovedAbsent(s, id);
    } else {
      forall i | 0 <= i < |s| && i != k ensures s[i].id != id {
        assert Ids(s)[i] != Ids(s)[k];
      }
      RemovedOne(s, k, id);
    }
  }

  /** Removing the id only the song at `k` has takes out that song. */
  lemma {:induction false} RemovedOne(s: seq<Song>, k: nat, id: string)
    requires k < |s| && s[k].id == id
    requires forall i :: 0 <= i < |s| && i != k ==> s[i].id != id
    ensures Removed(s, id) == RemoveAt(s, k)
  {
    var t := s[1..];
    if k == 0 {
      RemovedAbsent(t, id);
    } else {
      RemovedOne(t, k - 1, id);
      assert RemoveAt(s, k) == [s[0]] + RemoveAt(t, k - 1);
    }
  }

  /** Removing an id no song has changes nothing. */
  lemma {:induction false} RemovedAbsent(s: seq<Song>, id: string)
    requires forall i :: 0 <= i < |s| ==> s[i].id != id
    ensures Removed(s, id) == s
  {
    if s != [] {
      RemovedAbsent(s[1..], id);
    }
  }

  // ---------------------------------------------------------------------
  // Store outcomes
  // ---------------------------------------------------------------------

  /** The rows the query returned (`data || []`), or an error. */
  datatype FetchOutcome = FetchOk(rows: seq<Song>) | FetchError
  datatype InsertOutcome = Inserted(rows: seq<Song>) | InsertError
  datatype UpdateOutcome = Updated(rows: seq<Song>) | UpdateError
  datatype DeleteOutcome = Deleted | DeleteError
  /** `Promise.all` over the position writes: it resolves whatever each write
      reports, or rejects, and then the list is fetched again. */
  datatype BatchOutcome = BatchResolved | BatchRejected(refetch: FetchOutcome)

  /** The list after `fetchSongs`: the rows returned on success; unchanged on
      an error or without a user and a band. */
  function Fetched(current: seq<Song>, userId: Option<string>, bandId: Option<string>, outcome: FetchOutcome): seq<Song>
  {
    if userId.None? || bandId.None? || outcome.FetchError? then current
    else outcome.rows
  }

  // ---------------------------------------------------------------------
  // The component state
  // ---------------------------------------------------------------------

  class SetlistManager {
    var songs: seq<Song>
    var selected: Option<Song>
    var newSongName: string
    var activeId: Option<string>
    /** The signed-in user and the band of their profile, loaded elsewhere. */
    const userId: Option<string>
    const bandId: Option<string>

    constructor(userId: Option<string>, bandId: Option<string>)
      ensures songs == [] && selected == None && newSongName == "" && activeId == None
      ensures this.userId == userId && this.bandId == bandId
    {
      songs := [];
      selected := None;
      newSongName := "";
      activeId := None;
      this.userId := userId;
      this.bandId := bandId;
    }

    /** The name input's `onChange`. */
    method EditNewSongName(name: string)
      modifies this
      ensures newSongName == name
      ensures songs == old(songs) && selected == old(selected) && activeId == old(activeId)
    {
      newSongName := name;
    }

    /** Opening a song (`onSongClick`) or closing it. */
    method Select(song: Option<Song>)
      modifies this
      ensures selected == song
      ensures songs == old(songs) && newSongName == old(newSongName) && activeId == old(activeId)
    {
      selected := song;
    }

    /** `fetchSongs`: the list becomes the rows the query returned, which
        `QueryAnswer` describes. */
    method FetchSongs(outcome: FetchOutcome)
      modifies this
      ensures songs == Fetched(old(songs), userId, bandId, outcome)
      ensures selected == old(selected) && newSongName == old(newSongName) && activeId == old(activeId)
    {
      if userId.None? || bandId.None? {
        return;
      }
      match outcome {
        case FetchError =>
        case FetchOk(rows) =>
          songs := rows;
      }
    }

    /** Issues the insert of `AddRequest`; the returned rows are appended only
        once the store has accepted it. */
    method AddSong(outcome: InsertOutcome) returns (request: Option<NewSong>)
      modifies this
      ensures request == AddRequest(old(newSongName), userId, bandId, old(songs))
      ensures request.Some? && outcome.Inserted? ==> songs == old(songs) + outcome.rows && newSongName == ""
      ensures request.None? || outcome.InsertError? ==> songs == old(songs) && newSongName == old(newSongName)
      ensures selected == old(selected) && activeId == old(activeId)
    {
      if IsBlank(newSongName) || userId.None? || bandId.None? {
        return None;
      }
      request := Some(NewSong(Trim(newSongName), userId.value, bandId.value, NextPosition(songs)));
      match outcome {
        case InsertError =>
        case Inserted(rows) =>
          songs := songs + rows;
          newSongName := "";
      }
    }

    /** On success the song with that id is replaced by the stored row, in the
        list and, when it is open, as the selected song. An update that
        succeeds without returning a row leaves both as they are. */
    method UpdateSong(id: string, outcome: UpdateOutcome)
      modifies this
      ensures outcome.Updated? && |outcome.rows| > 0 ==>
        songs == Replaced(old(songs), id, outcome.rows[0]) &&
        selected == (if old(selected).Some? && old(selected).value.id == id then Some(outcome.rows[0]) else old(selected))
      ensures outcome.UpdateError? || |outcome.rows| == 0 ==> songs == old(songs) && selected == old(selected)
      ensures newSongName == old(newSongName) && activeId == old(activeId)
    {
      match outcome {
        case UpdateError =>
        case Updated(rows) =>
          if |rows| > 0 {
            songs := Replaced(songs, id, rows[0]);
            if selected.Some? && selected.value.id == id {
              selected := Some(rows[0]);
            }
          }
      }
    }

    /** On success the song leaves the list, and closes if it was open. */
    method DeleteSong(id: string, outcome: DeleteOutcome)
      modifies this
      ensures outcome.Deleted? ==>
        songs == Removed(old(songs), id) &&
        selected == (if old(selected).Some? && old(selected).value.id == id then None else old(selected))
      ensures outcome.DeleteError? ==> songs == old(songs) && selected == old(selected)
      ensures newSongName == old(newSongName) && activeId == old(activeId)
    {
      if outcome.Deleted? {
        songs := Removed(songs, id);
        if selected.Some? && selected.value.id == id {
          selected := None;
        }
      }
    }

    method HandleDragStart(id: string)
      modifies this
      ensures activeId == Some(id)
      ensures songs == old(songs) && selected == old(selected) && newSongName == old(newSongName)
    {
      activeId := Some(id);
    }

    /** A drop: the list is reordered at once, then every song's index is
        written as its position; only a rejected batch reloads the list. The
        dragged song is one of the sortable items, which are the listed songs. */
    method HandleDragEnd(active: string, over: Option<string>, batch: BatchOutcome)
      returns (writes: seq<PositionWrite>)
      requires IndexOfId(songs, active) >= 0
      modifies this
      ensures over == Some(active) ==> writes == [] && songs == old(songs)
      ensures over != Some(active) ==> writes == PositionWrites(Reordered(old(songs), active, over))
      ensures over != Some(active) ==>
        songs == if batch.BatchRejected?
                 then Fetched(Reordered(old(songs), active, over), userId, bandId, batch.refetch)
                 else Reordered(old(songs), active, over)
      ensures activeId == None && selected == old(selected) && newSongName == old(newSongName)
    {
      activeId := None;
      if over == Some(active) {
        return [];
      }
      var oldIndex := IndexOfId(songs, active);
      var newIndex := OverIndex(songs, over);
      var newSongs := ArrayMove(songs, oldIndex, newIndex);
      songs := newSongs;
      writes := PositionWrites(newSongs);
      match batch {
        case BatchResolved =>
        case BatchRejected(refetch) =>
          FetchSongs(refetch);
      }
    }
  }
}
