/**
 * `SlskcManager` (slskd_manager.py): search-token allocation and query
 * resolution, download registration and the read-only lookups. Gateway
 * calls are inputs: each operation takes what the gateway answered.
 */
module Manager {
  import opened Common
  import opened Text
  import opened SessionState
  import Poll
  import Library
  import Paths

  // ---------------------------------------------------------------------
  // Searches

  /** Python truthiness of an optional string: present and not empty. */
  predicate Truthy(s: Option<string>) {
    s.Some? && |s.value| > 0
  }

  const ArtistSeparator := '·'  // the middle dot '·'

  /**
   * The artist text used in a search term: when the artist holds a middle
   * dot, the stripped text after its first occurrence; otherwise the artist
   * as given.
   */
  function ArtistPart(artist: string): (r: string)
    ensures ArtistSeparator !in artist ==> r == artist
    ensures ArtistSeparator in artist ==>
              exists i :: 0 <= i < |artist| && artist[i] == ArtistSeparator
                          && ArtistSeparator !in artist[..i] && r == Strip(artist[i + 1..])
  {
    var found := FirstIndex(artist, ArtistSeparator);
    if found.None? then artist
    else
      var i := found.value;
      var r := Strip(artist[i + 1..]);
      assert ArtistSeparator !in artist[..i] by {
        assert forall j :: 0 <= j < i ==> artist[..i][j] == artist[j];
      }
      assert 0 <= i < |artist| && artist[i] == ArtistSeparator && r == Strip(artist[i + 1..]);
      r
  }

  /** The search term: "<artist part> <song>" when both are given, else the raw query. */
  function ResolveTerm(artist: Option<string>, song: Option<string>, rawQuery: string): (term: string)
    ensures !(Truthy(artist) && Truthy(song)) ==> term == rawQuery
    ensures Truthy(artist) && Truthy(song) ==> term == ArtistPart(artist.value) + " " + song.value
  {
    if Truthy(artist) && Truthy(song) then ArtistPart(artist.value) + " " + song.value else rawQuery
  }

  /**
   * With an artist that has no middle dot and a song, the term is the two
   * joined by one space (so "The Beatles" and "Let It Be" give
   * "The Beatles Let It Be"); the song always ends the term.
   */
  lemma ResolveTermPlainArtist(artist: string, song: string, rawQuery: string)
    requires |artist| > 0 && |song| > 0
    ensures ArtistSeparator !in artist ==>
              ResolveTerm(Some(artist), Some(song), rawQuery) == artist + " " + song
    ensures var term := ResolveTerm(Some(artist), Some(song), rawQuery);
            |term| > |song| && term[|term| - |song|..] == song && term[|term| - |song| - 1] == ' '
  {
  }

  /** What the gateway's search call did: raised, or started a search (its id, if it gave one). */
  datatype SearchReply = SearchRaised | SearchStarted(searchId: Option<string>)

  /** The state after `perform_search`, the token and query it returned, and the id the poller gets. */
  datatype SearchOutcome = SearchOutcome(
    state: ManagerState,
    token: Option<int>,
    query: string,
    searchId: Option<string>)

  /**
   * `perform_search`. The token is taken and the counter advanced before the
   * gateway is called, so a failed search still uses up its token; it then
   * returns no token and the raw query and stores nothing. A started search
   * gets an empty result list and its term under the token.
   */
  function PerformSearch(st: ManagerState, artist: Option<string>, song: Option<string>,
                         rawQuery: string, reply: SearchReply): (r: SearchOutcome)
    ensures r.state.nextSearchToken == st.nextSearchToken + 1
    ensures r.state.downloadStatus == st.downloadStatus
    ensures r.state.activeDownloads == st.activeDownloads
    ensures r.state.loggedIn == st.loggedIn
    ensures reply.SearchRaised? ==>
              && r.token.None? && r.query == rawQuery && r.searchId.None?
              && r.state.searchResults == st.searchResults
              && r.state.searchTokens == st.searchTokens
    ensures reply.SearchStarted? ==>
              && r.token == Some(st.nextSearchToken)
              && r.query == ResolveTerm(artist, song, rawQuery)
              && r.searchId == reply.searchId
              && r.state.searchResults.Keys == st.searchResults.Keys + {st.nextSearchToken}
              && r.state.searchResults[st.nextSearchToken] == []
              && r.state.searchTokens.Keys == st.searchTokens.Keys + {st.nextSearchToken}
              && r.state.searchTokens[st.nextSearchToken] == r.query
              && (forall t :: t in st.searchResults && t != st.nextSearchToken ==>
                    r.state.searchResults[t] == st.searchResults[t])
              && (forall t :: t in st.searchTokens && t != st.nextSearchToken ==>
                    r.state.searchTokens[t] == st.searchTokens[t])
  {
    var token := st.nextSearchToken;
    var advanced := st.(nextSearchToken := token + 1);
    match reply
    case SearchRaised => SearchOutcome(advanced, None, rawQuery, None)
    case SearchStarted(id) =>
      var term := ResolveTerm(artist, song, rawQuery);
      SearchOutcome(
        advanced.(searchResults := st.searchResults[token := []],
                  searchTokens := st.searchTokens[token := term]),
        Some(token), term, id)
  }

  /** Every stored token was handed out before: it is below the next token. */
  ghost predicate TokensIssued(st: ManagerState) {
    && (forall t :: t in st.searchResults ==> t < st.nextSearchToken)
    && (forall t :: t in st.searchTokens ==> t < st.nextSearchToken)
  }

  /**
   * Searching keeps every stored token below the counter, and a new search's
   * token was never used before, so it overwrites no earlier search.
   */
  lemma PerformSearchFreshToken(st: ManagerState, artist: Option<string>, song: Option<string>,
                                rawQuery: string, reply: SearchReply)
    requires TokensIssued(st)
    ensures TokensIssued(PerformSearch(st, artist, song, rawQuery, reply).state)
    ensures st.nextSearchToken !in st.searchResults && st.nextSearchToken !in st.searchTokens
  {
  }

  /** The background poller's effect on the manager: only the token's results change. */
  function RunPoll(st: ManagerState, token: int, searchId: Option<string>, replies: seq<Poll.PollReply>)
    : (r: ManagerState)
    ensures r == st.(searchResults := r.searchResults)
    ensures forall t :: t != token ==> (t in r.searchResults <==> t in st.searchResults)
    ensures forall t :: t in st.searchResults && t != token ==> r.searchResults[t] == st.searchResults[t]
  {
    Poll.PollSearchOutcome(st.searchResults, token, searchId, replies);
    st.(searchResults := Poll.PollSearch(st.searchResults, token, searchId, replies))
  }

  /** Polling an issued token keeps the tokens issued. */
  lemma RunPollKeepsTokensIssued(st: ManagerState, token: int, searchId: Option<string>,
                                 replies: seq<Poll.PollReply>)
    requires TokensIssued(st) && token < st.nextSearchToken
    ensures TokensIssued(RunPoll(st, token, searchId, replies))
  {
    Poll.PollSearchOutcome(st.searchResults, token, searchId, replies);
  }

  /** One `perform_search` call: its arguments and what the gateway answered. */
  datatype SearchRequest = SearchRequest(
    artist: Option<string>, song: Option<string>, rawQuery: string, reply: SearchReply)

  /** Runs searches in order; returns the final state and the token each call returned. */
  function SearchMany(st: ManagerState, reqs: seq<SearchRequest>): (ManagerState, seq<Option<int>>)
    decreases |reqs|
  {
    if |reqs| == 0 then (st, [])
    else
      var q := reqs[0];
      var o := PerformSearch(st, q.artist, q.song, q.rawQuery, q.reply);
      var (final, tokens) := SearchMany(o.state, reqs[1..]);
      (final, [o.token] + tokens)
  }

  /**
   * Over any run of searches the `i`-th call uses token `next + i`, whether
   * or not it succeeds, so the tokens returned are strictly increasing.
   */
  lemma {:induction false} SearchManyTokens(st: ManagerState, reqs: seq<SearchRequest>)
    ensures var (final, tokens) := SearchMany(st, reqs);
      && |tokens| == |reqs|
      && final.nextSearchToken == st.nextSearchToken + |reqs|
      && (forall i :: 0 <= i < |tokens| && tokens[i].Some? ==> tokens[i].value == st.nextSearchToken + i)
      && (forall i, j :: 0 <= i < j < |tokens| && tokens[i].Some? && tokens[j].Some?
                         ==> tokens[i].value < tokens[j].value)
    decreases |reqs|
  {
    if |reqs| > 0 {
      var q := reqs[0];
      var o := PerformSearch(st, q.artist, q.song, q.rawQuery, q.reply);
      SearchManyTokens(o.state, reqs[1..]);
      var (final, tokens) := SearchMany(st, reqs);
      var (_, rest) := SearchMany(o.state, reqs[1..]);
      assert tokens == [o.token] + rest;
      assert forall i :: 0 < i < |tokens| ==> tokens[i] == rest[i - 1];
    }
  }

  /** `get_search_results`: the token's stored list, or an empty one for an unknown token. */
  function GetSearchResults(st: ManagerState, token: int): (r: seq<FileResult>)
    ensures token !in st.searchResults ==> r == []
    ensures token in st.searchResults ==> r == st.searchResults[token]
  {
    if token in st.searchResults then st.searchResults[token] else []
  }

  /** Right after a search starts, and before any poll stores something, its results are empty. */
  lemma ResultsEmptyAfterSearch(st: ManagerState, artist: Option<string>, song: Option<string>,
                                rawQuery: string, id: Option<string>)
    ensures var o := PerformSearch(st, artist, song, rawQuery, SearchStarted(id));
            GetSearchResults(o.state, o.token.value) == []
  {
  }

  // ---------------------------------------------------------------------
  // Downloads

  /** The composite key of a download: "<username>:<file path>". */
  function DownloadId(username: string, filePath: string): (id: string)
    ensures |id| == |username| + 1 + |filePath|
    ensures id[..|username|] == username && id[|username|] == ':' && id[|username| + 1..] == filePath
  {
    username + ":" + filePath
  }

  /** The status a download gets once the gateway accepted it. */
  function InitialStatus(size: int): (s: DownloadStatus)
    ensures s.status == Queued && s.progress == 0 && s.total == size
    ensures s.percent == 0.0 && s.speed == 0.0 && s.queuePosition.None?
  {
    DownloadStatus(Queued, 0, size, 0.0, 0.0, None)
  }

  /** The status reported for a download the manager does not know. */
  const NotStarted := DownloadStatus("Not started", 0, 0, 0.0, 0.0, None)

  /** Python truthiness of optional metadata: present and not empty. */
  predicate HasMetadata(m: Option<Metadata>) {
    m.Some? && |m.value| > 0
  }

  /** Metadata recorded under both the download id and the file's base name. */
  function StoreMetadata(store: map<string, Metadata>, id: string, fileName: string, metadata: Metadata)
    : (r: map<string, Metadata>)
    ensures r.Keys == store.Keys + {id, fileName}
    ensures r[id] == metadata && r[fileName] == metadata
    ensures forall k :: k in store && k != id && k != fileName ==> r[k] == store[k]
  {
    Library.AddDownloadMetadata(Library.AddDownloadMetadata(store, id, metadata), fileName, metadata)
  }

  /** The state and metadata map after `download_file`, and its id or the error it raised. */
  datatype DownloadOutcome = DownloadOutcome(
    state: ManagerState,
    metadataStore: map<string, Metadata>,
    result: Result<string, string>)

  /**
   * `download_file`. Metadata (when given and not empty) is stored under the
   * id and under the file's base name, and the active-download entry is
   * registered, all before the gateway is asked to enqueue; so a refused
   * enqueue leaves an active entry with no status entry. An accepted one
   * adds the initial Queued status and returns the id.
   */
  function DownloadFile(st: ManagerState, store: map<string, Metadata>, username: string,
                        filePath: string, size: int, metadata: Option<Metadata>, now: int,
                        enqueued: bool): (r: DownloadOutcome)
    ensures r.result.Ok? <==> enqueued
    ensures r.result.Ok? ==> r.result.value == DownloadId(username, filePath)
    ensures r.state.activeDownloads.Keys == st.activeDownloads.Keys + {DownloadId(username, filePath)}
    ensures var a := r.state.activeDownloads[DownloadId(username, filePath)];
            && a.id == DownloadId(username, filePath) && a.fileName == Paths.Basename(filePath)
            && a.filePath == filePath && a.username == username && a.size == size
            && a.metadata == metadata && a.timestamp == now
    ensures forall k :: k in st.activeDownloads && k != DownloadId(username, filePath) ==>
              r.state.activeDownloads[k] == st.activeDownloads[k]
    ensures enqueued ==>
              && r.state.downloadStatus.Keys == st.downloadStatus.Keys + {DownloadId(username, filePath)}
              && r.state.downloadStatus[DownloadId(username, filePath)] == InitialStatus(size)
    ensures !enqueued ==> r.state.downloadStatus == st.downloadStatus
    ensures forall k :: k in st.downloadStatus && k != DownloadId(username, filePath) ==>
              r.state.downloadStatus[k] == st.downloadStatus[k]
    ensures !HasMetadata(metadata) ==> r.metadataStore == store
    ensures HasMetadata(metadata) ==>
              && DownloadId(username, filePath) in r.metadataStore
              && r.metadataStore[DownloadId(username, filePath)] == metadata.value
              && Paths.Basename(filePath) in r.metadataStore
              && r.metadataStore[Paths.Basename(filePath)] == metadata.value
              && r.metadataStore.Keys == store.Keys + {DownloadId(username, filePath), Paths.Basename(filePath)}
    ensures forall k :: k in store && k != DownloadId(username, filePath) && k != Paths.Basename(filePath) ==>
              k in r.metadataStore && r.metadataStore[k] == store[k]
    ensures r.state.searchResults == st.searchResults && r.state.searchTokens == st.searchTokens
    ensures r.state.nextSearchToken == st.nextSearchToken && r.state.loggedIn == st.loggedIn
  {
    var id := DownloadId(username, filePath);
    var fileName := Paths.Basename(filePath);
    var store' := if HasMetadata(metadata) then StoreMetadata(store, id, fileName, metadata.value) else store;
    var entry := ActiveDownload(id, fileName, filePath, username, size, metadata, now);
    var registered := st.(activeDownloads := st.activeDownloads[id := entry]);
    if !enqueued then DownloadOutcome(registered, store', Err("enqueue failed"))
    else
      DownloadOutcome(registered.(downloadStatus := st.downloadStatus[id := InitialStatus(size)]),
                      store', Ok(id))
  }

  /** `get_download_status`: the stored status, or "Not started" with zeros for an unknown download. */
  function GetDownloadStatus(st: ManagerState, username: string, filePath: string): (r: DownloadStatus)
    ensures DownloadId(username, filePath) !in st.downloadStatus ==>
              && r.status == "Not started" && r.progress == 0 && r.total == 0 && r.percent == 0.0
              && r.speed == 0.0 && r.queuePosition.None?
    ensures DownloadId(username, filePath) in st.downloadStatus ==>
              r == st.downloadStatus[DownloadId(username, filePath)]
  {
    var key := DownloadId(username, filePath);
    if key in st.downloadStatus then st.downloadStatus[key] else NotStarted
  }

  /**
   * A status read after an accepted download, before the monitor writes
   * anything, reports Queued with no progress and the requested size.
   */
  lemma StatusAfterDownload(st: ManagerState, store: map<string, Metadata>, username: string,
                            filePath: string, size: int, metadata: Option<Metadata>, now: int)
    ensures var o := DownloadFile(st, store, username, filePath, size, metadata, now, true);
            && o.result == Ok(DownloadId(username, filePath))
            && GetDownloadStatus(o.state, username, filePath) == InitialStatus(size)
  {
  }

  lemma DownloadIdExample()
    ensures DownloadId("user123", "a/b/song.mp3") == "user123:a/b/song.mp3"
  {
  }
}
