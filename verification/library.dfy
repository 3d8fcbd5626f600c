/**
 * The keyed collections of `LibraryService` (library_service.py): the songs
 * table and the playlists table, abstracted from the document store as
 * sequences of documents in insertion order, and the in-memory
 * download-metadata map.
 */
module Library {
  import opened Common
  import opened SessionState

  /** A song document: field name to value. */
  type Document = map<string, string>

  /** A playlist document; its creation and update timestamps are not modelled. */
  datatype Playlist = Playlist(id: string, name: string, songs: seq<string>)

  // ---------------------------------------------------------------------
  // Generic table operations

  /** The table without the documents `drop` selects, in their original order. */
  function RemoveWhere<D(!new)>(t: seq<D>, drop: D -> bool): (r: seq<D>)
    ensures forall i :: 0 <= i < |r| ==> !drop(r[i])
    ensures forall d :: !drop(d) ==> multiset(r)[d] == multiset(t)[d]
    decreases |t|
  {
    if |t| == 0 then []
    else
      assert t == [t[0]] + t[1..];
      (if drop(t[0]) then [] else [t[0]]) + RemoveWhere(t[1..], drop)
  }

  /** `x` occurs at most once in `s`. */
  predicate NoDuplicates<T(==)>(s: seq<T>) {
    forall i, j :: 0 <= i < j < |s| ==> s[i] != s[j]
  }

  /** Python's `list.index(x)`: the first position holding `x`. */
  function IndexOf<T(==)>(s: seq<T>, x: T): (i: nat)
    requires x in s
    ensures i < |s| && s[i] == x && x !in s[..i]
    decreases |s|
  {
    if s[0] == x then 0
    else
      assert s == [s[0]] + s[1..];
      var i := IndexOf(s[1..], x) + 1;
      assert s[..i] == [s[0]] + s[1..][..i - 1];
      i
  }

  /** Python's `list.remove(x)` when `x` is present: drops the first occurrence only. */
  function RemoveFirst<T(==)>(s: seq<T>, x: T): (r: seq<T>)
    ensures x !in s ==> r == s
    ensures x in s ==> r == s[..IndexOf(s, x)] + s[IndexOf(s, x) + 1..]
    ensures multiset(r) == multiset(s) - multiset{x}
  {
    if x in s then
      var i := IndexOf(s, x);
      assert s == s[..i] + [x] + s[i + 1..];
      s[..i] + s[i + 1..]
    else s
  }

  // ---------------------------------------------------------------------
  // Songs

  const PathField := "path"

  predicate HasPath(d: Document, path: string) {
    PathField in d && d[PathField] == path
  }

  /**
   * The document store's upsert keyed on the path: the documents whose path
   * equals the song's get the song's fields merged in; when there is none,
   * the song is appended.
   */
  function Upsert(songs: seq<Document>, song: Document): (r: seq<Document>)
    requires PathField in song
    ensures |r| == |songs| || r == songs + [song]
    ensures forall i :: 0 <= i < |songs| && !HasPath(songs[i], song[PathField]) ==> r[i] == songs[i]
  {
    var p := song[PathField];
    if exists i :: 0 <= i < |songs| && HasPath(songs[i], p) then
      seq(|songs|, i requires 0 <= i < |songs| =>
            if HasPath(songs[i], p) then songs[i] + song else songs[i])
    else songs + [song]
  }

  /**
   * `add_or_update_song`: upserts the song by path; afterwards some song has
   * that path. A song without a path raises `KeyError`.
   */
  function AddOrUpdateSong(songs: seq<Document>, song: Document): (r: Result<seq<Document>, string>)
    ensures PathField !in song <==> r.Err?
    ensures r.Ok? ==> exists i :: 0 <= i < |r.value| && HasPath(r.value[i], song[PathField])
  {
    if PathField !in song then Err("KeyError: 'path'")
    else
      var t := Upsert(songs, song);
      UpsertSpec(songs, song);
      Ok(t)
  }

  /**
   * What the upsert does to each document: songs with another path are
   * untouched; songs with this path keep the fields the song lacks and take
   * the song's value for every other field; the table grows by the song
   * itself exactly when no document had its path.
   */
  lemma UpsertSpec(songs: seq<Document>, song: Document)
    requires PathField in song
    ensures var t := Upsert(songs, song); var p := song[PathField];
      && (exists i :: 0 <= i < |t| && HasPath(t[i], p))
      && ((exists i :: 0 <= i < |songs| && HasPath(songs[i], p)) ==> |t| == |songs|)
      && (!(exists i :: 0 <= i < |songs| && HasPath(songs[i], p)) ==> t == songs + [song])
      && (forall i :: 0 <= i < |songs| && !HasPath(songs[i], p) ==> t[i] == songs[i])
      && (forall i :: 0 <= i < |songs| && HasPath(songs[i], p) ==>
            t[i].Keys == songs[i].Keys + song.Keys
            && (forall k :: k in song ==> t[i][k] == song[k])
            && (forall k :: k in songs[i] && k !in song ==> t[i][k] == songs[i][k]))
  {
    var t := Upsert(songs, song);
    var p := song[PathField];
    if exists i :: 0 <= i < |songs| && HasPath(songs[i], p) {
      var j :| 0 <= j < |songs| && HasPath(songs[j], p);
      assert HasPath(t[j], p);
    } else {
      assert HasPath(t[|songs|], p);
    }
  }

  /** Upserting the same song twice leaves the table as upserting it once. */
  lemma UpsertIdempotent(songs: seq<Document>, song: Document)
    requires PathField in song
    ensures Upsert(Upsert(songs, song), song) == Upsert(songs, song)
  {
    var t := Upsert(songs, song);
    var p := song[PathField];
    UpsertSpec(songs, song);
    var j :| 0 <= j < |t| && HasPath(t[j], p);
    var t2 := Upsert(t, song);
    assert |t2| == |t|;
    forall i | 0 <= i < |t|
      ensures t2[i] == t[i]
    {
      if HasPath(t[i], p) {
        assert t[i] + song == t[i];
      }
    }
  }

  /** `remove_song`: drops every song whose path is `path` and keeps all others, in order. */
  function RemoveSong(songs: seq<Document>, path: string): (r: seq<Document>)
    ensures forall i :: 0 <= i < |r| ==> !HasPath(r[i], path)
    ensures forall d :: !HasPath(d, path) ==> multiset(r)[d] == multiset(songs)[d]
  {
    RemoveWhere(songs, d => HasPath(d, path))
  }

  // ---------------------------------------------------------------------
  // Playlists

  /** `get_playlist`: the first playlist document with this id, if any. */
  function GetPlaylist(playlists: seq<Playlist>, id: string): (r: Option<Playlist>)
    ensures r.None? <==> forall i :: 0 <= i < |playlists| ==> playlists[i].id != id
    ensures r.Some? ==> exists i :: 0 <= i < |playlists| && playlists[i] == r.value
                                    && r.value.id == id
                                    && forall j :: 0 <= j < i ==> playlists[j].id != id
    decreases |playlists|
  {
    if |playlists| == 0 then None
    else if playlists[0].id == id then Some(playlists[0])
    else
      var r := GetPlaylist(playlists[1..], id);
      assert forall i :: 1 <= i < |playlists| ==> playlists[i] == playlists[1..][i - 1];
      r
  }

  /** `delete_playlist`: drops every playlist with this id and keeps all others, in order. */
  function DeletePlaylist(playlists: seq<Playlist>, id: string): (r: seq<Playlist>)
    ensures forall i :: 0 <= i < |r| ==> r[i].id != id
    ensures forall p: Playlist :: p.id != id ==> multiset(r)[p] == multiset(playlists)[p]
  {
    RemoveWhere(playlists, (p: Playlist) => p.id == id)
  }

  /** The table with every playlist carrying `p`'s id overwritten by `p`. */
  function Store(playlists: seq<Playlist>, p: Playlist): (r: seq<Playlist>)
    ensures |r| == |playlists|
    ensures forall i :: 0 <= i < |r| ==> r[i] == if playlists[i].id == p.id then p else playlists[i]
  {
    seq(|playlists|, i requires 0 <= i < |playlists| =>
          if playlists[i].id == p.id then p else playlists[i])
  }

  /** The table after a playlist call and the playlist the call returns (`None` if unknown). */
  datatype PlaylistOutcome = PlaylistOutcome(playlists: seq<Playlist>, result: Option<Playlist>)

  /**
   * `add_song_to_playlist`: appends the song when the playlist does not
   * already hold it; an unknown playlist gives `None` and changes nothing.
   */
  function AddSongToPlaylist(playlists: seq<Playlist>, id: string, song: string): (r: PlaylistOutcome)
    ensures GetPlaylist(playlists, id).None? <==> r.result.None?
    ensures r.result.None? ==> r.playlists == playlists
    ensures |r.playlists| == |playlists|
    ensures r.result.Some? ==> var before := GetPlaylist(playlists, id).value.songs;
      && song in r.result.value.songs
      && r.result.value.id == id
      && (song in before ==> r.result.value.songs == before && r.playlists == playlists)
      && (song !in before ==> r.result.value.songs == before + [song])
      && (NoDuplicates(before) ==> NoDuplicates(r.result.value.songs))
      && r.result.value == GetPlaylist(playlists, id).value.(songs := r.result.value.songs)
      && r.playlists == (if song in before then playlists else Store(playlists, r.result.value))
      && (forall i :: 0 <= i < |playlists| && playlists[i].id != id ==> r.playlists[i] == playlists[i])
  {
    match GetPlaylist(playlists, id)
    case None => PlaylistOutcome(playlists, None)
    case Some(p) =>
      if song in p.songs then PlaylistOutcome(playlists, Some(p))
      else
        var q := p.(songs := p.songs + [song]);
        PlaylistOutcome(Store(playlists, q), Some(q))
  }

  /** Adding the same song a second time changes nothing more. */
  lemma AddSongToPlaylistIdempotent(playlists: seq<Playlist>, id: string, song: string)
    ensures var once := AddSongToPlaylist(playlists, id, song);
            AddSongToPlaylist(once.playlists, id, song).playlists == once.playlists
  {
    var once := AddSongToPlaylist(playlists, id, song);
    match GetPlaylist(playlists, id)
    case None =>
    case Some(p) =>
      if song !in p.songs {
        GetPlaylistAfterStore(playlists, p.(songs := p.songs + [song]));
      }
  }

  /** After a playlist is written back, looking its id up finds the written playlist. */
  lemma GetPlaylistAfterStore(playlists: seq<Playlist>, q: Playlist)
    requires GetPlaylist(playlists, q.id).Some?
    ensures GetPlaylist(Store(playlists, q), q.id) == Some(q)
  {
    var t := Store(playlists, q);
    var p := GetPlaylist(playlists, q.id).value;
    var i :| 0 <= i < |playlists| && playlists[i] == p && p.id == q.id
             && forall k :: 0 <= k < i ==> playlists[k].id != q.id;
    assert forall k :: 0 <= k < |t| ==> (t[k].id == q.id <==> playlists[k].id == q.id);
    assert t[i] == q;
    var g := GetPlaylist(t, q.id).value;
    var m :| 0 <= m < |t| && t[m] == g && g.id == q.id && forall k :: 0 <= k < m ==> t[k].id != q.id;
    assert m == i;
  }

  /**
   * `remove_song_from_playlist`: removes the first occurrence of the song
   * when present; an unknown playlist gives `None` and changes nothing.
   */
  function RemoveSongFromPlaylist(playlists: seq<Playlist>, id: string, song: string)
    : (r: PlaylistOutcome)
    ensures GetPlaylist(playlists, id).None? <==> r.result.None?
    ensures r.result.None? ==> r.playlists == playlists
    ensures |r.playlists| == |playlists|
    ensures r.result.Some? ==> var before := GetPlaylist(playlists, id).value.songs;
      && r.result.value.id == id
      && (song !in before ==> r.result.value.songs == before && r.playlists == playlists)
      && multiset(r.result.value.songs) == multiset(before) - multiset{song}
      && |r.result.value.songs| == (if song in before then |before| - 1 else |before|)
      && r.result.value.songs == RemoveFirst(before, song)
      && r.result.value == GetPlaylist(playlists, id).value.(songs := r.result.value.songs)
      && r.playlists == (if song in before then Store(playlists, r.result.value) else playlists)
      && (forall i :: 0 <= i < |playlists| && playlists[i].id != id ==> r.playlists[i] == playlists[i])
  {
    match GetPlaylist(playlists, id)
    case None => PlaylistOutcome(playlists, None)
    case Some(p) =>
      if song in p.songs then
        var q := p.(songs := RemoveFirst(p.songs, song));
        PlaylistOutcome(Store(playlists, q), Some(q))
      else PlaylistOutcome(playlists, Some(p))
  }

  /**
   * Removing a song that was just added to a playlist that lacked it gives
   * back the playlist's original song list.
   */
  lemma RemoveUndoesAdd(playlists: seq<Playlist>, id: string, song: string)
    requires GetPlaylist(playlists, id).Some? && song !in GetPlaylist(playlists, id).value.songs
    ensures var added := AddSongToPlaylist(playlists, id, song);
            var removed := RemoveSongFromPlaylist(added.playlists, id, song);
            removed.result == GetPlaylist(playlists, id)
  {
    var p := GetPlaylist(playlists, id).value;
    var q := p.(songs := p.songs + [song]);
    GetPlaylistAfterStore(playlists, q);
    assert IndexOf(q.songs, song) == |p.songs|;
    assert RemoveFirst(q.songs, song) == p.songs;
  }

  // ---------------------------------------------------------------------
  // Download metadata

  /** `add_download_metadata`: stores `metadata` under `filename`, overwriting, leaving other keys. */
  function AddDownloadMetadata(store: map<string, Metadata>, filename: string, metadata: Metadata)
    : (r: map<string, Metadata>)
    ensures r.Keys == store.Keys + {filename}
    ensures r[filename] == metadata
    ensures forall k :: k in store && k != filename ==> r[k] == store[k]
  {
    store[filename := metadata]
  }

  /** The last metadata stored under a name is the one kept. */
  lemma AddDownloadMetadataLastWins(store: map<string, Metadata>, filename: string, a: Metadata, b: Metadata)
    ensures AddDownloadMetadata(AddDownloadMetadata(store, filename, a), filename, b)
            == AddDownloadMetadata(store, filename, b)
  {
  }
}
