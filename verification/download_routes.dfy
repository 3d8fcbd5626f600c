/**
 * The download routes (download_routes.py): starting a download, the bulk
 * listing with its defaulting, ordering and count, and cancellation, which
 * lives here rather than in the manager.
 */
module DownloadRoutes {
  import opened Common
  import opened Text
  import opened Sorting
  import opened SessionState
  import Manager

  /** `_generate_download_id`: the route's own copy of the id format. */
  function GenerateDownloadId(username: string, filePath: string): (id: string)
    ensures id == Manager.DownloadId(username, filePath)
  {
    username + ":" + filePath
  }

  /**
   * `id.split(':', 1)` followed by `parts[1]`: the text before the first ':'
   * and everything after it, or `None` where `parts[1]` would raise
   * `IndexError` because the id has no ':'.
   */
  function SplitId(id: string): (r: Option<(string, string)>)
    ensures r.None? <==> ':' !in id
    ensures r.Some? ==> ':' !in r.value.0 && r.value.0 + ":" + r.value.1 == id
  {
    match FirstIndex(id, ':')
    case None => None
    case Some(i) =>
      assert ':' !in id[..i] by {
        assert forall j :: 0 <= j < i ==> id[..i][j] == id[j];
      }
      assert id[..i] + ":" + id[i + 1..] == id;
      Some((id[..i], id[i + 1..]))
  }

  /**
   * For a username without ':' the split recovers the username and the file
   * path exactly, even when the path itself contains ':'.
   */
  lemma SplitIdRoundTrip(username: string, filePath: string)
    requires ':' !in username
    ensures SplitId(GenerateDownloadId(username, filePath)) == Some((username, filePath))
  {
    var id := GenerateDownloadId(username, filePath);
    var i := |username|;
    assert id[i] == ':';
    assert forall j :: 0 <= j < i ==> id[j] == username[j];
    assert FirstIndex(id, ':') == Some(i);
    assert id[..i] == username;
    assert id[i + 1..] == filePath;
  }

  /** Hence two downloads from users without ':' share an id only if user and path agree. */
  lemma DownloadIdInjective(u1: string, p1: string, u2: string, p2: string)
    requires ':' !in u1 && ':' !in u2
    requires Manager.DownloadId(u1, p1) == Manager.DownloadId(u2, p2)
    ensures u1 == u2 && p1 == p2
  {
    SplitIdRoundTrip(u1, p1);
    SplitIdRoundTrip(u2, p2);
  }

  /** The body of a successful cancel. */
  datatype Cancelled = Cancelled(message: string, downloadId: string)

  /** The state after a cancel call and its response. */
  datatype CancelOutcome = CancelOutcome(state: ManagerState, response: Result<Cancelled, HttpError>)

  /** Removes `id` from the active-download and status maps, if present. */
  function ForgetDownload(st: ManagerState, id: string): (r: ManagerState)
    ensures id !in r.activeDownloads && id !in r.downloadStatus
    ensures r.activeDownloads == st.activeDownloads - {id}
    ensures r.downloadStatus == st.downloadStatus - {id}
    ensures r.(activeDownloads := st.activeDownloads, downloadStatus := st.downloadStatus) == st
  {
    st.(activeDownloads := st.activeDownloads - {id}, downloadStatus := st.downloadStatus - {id})
  }

  const CancelMessage := "Download cancelled"

  /**
   * `cancel_download` as written: an id without ':' fails at `parts[1]` with
   * an `IndexError` that the `except ValueError` clause does not catch, so
   * the caller gets a server error (500) rather than the intended 400.
   */
  function CancelDownloadAsWritten(st: ManagerState, id: string): (r: CancelOutcome)
    ensures ':' !in id ==> r.state == st && r.response.Err? && r.response.error.code == 500
    ensures ':' in id ==> r == CancelDownload(st, id)
  {
    if ':' !in id then CancelOutcome(st, Err(HttpError(500, "IndexError: list index out of range")))
    else CancelOutcome(ForgetDownload(st, id), Ok(Cancelled(CancelMessage, id)))
  }

  /** The discrepancy on a concrete id: "abc" yields 500 where 400 is meant. */
  lemma CancelWithoutColonIsServerError(st: ManagerState)
    ensures CancelDownloadAsWritten(st, "abc").response.error.code == 500
    ensures CancelDownload(st, "abc").response.error.code == 400
  {
    assert ':' !in "abc";
  }

  /**
   * `cancel_download` as intended: a malformed id (no ':') is rejected with
   * 400 and changes nothing; any other id is removed from both maps, every
   * other download is untouched, and the cancellation is acknowledged
   * whether or not the id was known (the gateway's cancel is best effort
   * and its errors are ignored).
   */
  function CancelDownload(st: ManagerState, id: string): (r: CancelOutcome)
    ensures ':' !in id ==> r.state == st && r.response == Err(HttpError(400, "Invalid download ID format"))
    ensures ':' in id ==> r.response == Ok(Cancelled(CancelMessage, id))
    ensures ':' in id ==> r.state == ForgetDownload(st, id)
  {
    match SplitId(id)
    case None => CancelOutcome(st, Err(HttpError(400, "Invalid download ID format")))
    case Some(_) => CancelOutcome(ForgetDownload(st, id), Ok(Cancelled(CancelMessage, id)))
  }

  /** A second cancel of the same id changes nothing and is acknowledged the same way. */
  lemma CancelIdempotent(st: ManagerState, id: string)
    ensures var once := CancelDownload(st, id);
            CancelDownload(once.state, id) == once
  {
  }

  /** Cancelling an unknown id leaves the state as it was. */
  lemma CancelUnknownIsNoOp(st: ManagerState, id: string)
    requires id !in st.activeDownloads && id !in st.downloadStatus
    ensures CancelDownload(st, id).state == st
  {
  }

  /** The body of a started download. */
  datatype DownloadStarted = DownloadStarted(message: string, downloadId: string)

  /**
   * `POST /download`: refuses with 503, without calling the manager, when not
   * logged in. Otherwise the session and metadata store are the manager's,
   * so a refused enqueue still leaves the active entry registered behind its
   * 500 answer.
   */
  function PostDownload(st: ManagerState, store: map<string, Metadata>, username: string,
                        filePath: string, size: int, metadata: Option<Metadata>, now: int,
                        enqueued: bool)
    : (r: (ManagerState, map<string, Metadata>, Result<DownloadStarted, HttpError>))
    ensures !st.loggedIn ==> r == (st, store, Err(HttpError(503, "Not connected to Soulseek")))
    ensures st.loggedIn && enqueued ==>
              r.2 == Ok(DownloadStarted("Download started", Manager.DownloadId(username, filePath)))
    ensures st.loggedIn && !enqueued ==> r.2.Err? && r.2.error.code == 500
    ensures st.loggedIn ==>
              var o := Manager.DownloadFile(st, store, username, filePath, size, metadata, now, enqueued);
              r.0 == o.state && r.1 == o.metadataStore
    ensures st.loggedIn ==>
              Manager.DownloadId(username, filePath) in r.0.activeDownloads
              && (enqueued ==> Manager.DownloadId(username, filePath) in r.0.downloadStatus)
              && (!enqueued ==> r.0.downloadStatus == st.downloadStatus)
  {
    if !st.loggedIn then (st, store, Err(HttpError(503, "Not connected to Soulseek")))
    else
      var o := Manager.DownloadFile(st, store, username, filePath, size, metadata, now, enqueued);
      match o.result
      case Ok(id) => (o.state, o.metadataStore, Ok(DownloadStarted("Download started", id)))
      case Err(e) => (o.state, o.metadataStore, Err(HttpError(500, "Failed to start download: " + e)))
  }

  // ---------------------------------------------------------------------
  // Bulk listing

  /** One entry of the bulk listing. */
  datatype ListedDownload = ListedDownload(
    id: string,
    fileName: string,
    filePath: string,
    username: string,
    size: int,
    metadata: Option<Metadata>,
    timestamp: int,
    status: string,
    progress: int,
    total: int,
    percent: real,
    speed: real,
    queuePosition: Option<int>,
    timeRemaining: Option<real>)

  /** The status shown for an active download: its stored status, or Queued at zero of its size. */
  function ReportedStatus(st: ManagerState, id: string): (s: DownloadStatus)
    requires id in st.activeDownloads
    ensures id in st.downloadStatus ==> s == st.downloadStatus[id]
    ensures id !in st.downloadStatus ==>
              s.status == Queued && s.progress == 0 && s.total == st.activeDownloads[id].size
              && s.percent == 0.0 && s.speed == 0.0
  {
    if id in st.downloadStatus then st.downloadStatus[id]
    else DownloadStatus(Queued, 0, st.activeDownloads[id].size, 0.0, 0.0, None)
  }

  /** `_calculate_time_remaining`, guarded as the listing guards it: only for a positive speed. */
  function TimeRemaining(progress: int, total: int, speed: real): (r: Option<real>)
    ensures r.Some? <==> speed > 0.0
    ensures r.Some? ==> r.value * speed == (total - progress) as real
  {
    if speed > 0.0 then Some((total - progress) as real / speed) else None
  }

  /**
   * One listing entry: the registration's fields, the reported status's
   * fields, and the time remaining when the speed is positive.
   */
  function Listed(st: ManagerState, id: string): (d: ListedDownload)
    requires id in st.activeDownloads
    ensures var a := st.activeDownloads[id];
            && d.id == id && d.fileName == a.fileName && d.filePath == a.filePath
            && d.username == a.username && d.size == a.size && d.metadata == a.metadata
            && d.timestamp == a.timestamp
    ensures id in st.downloadStatus ==>
              var s := st.downloadStatus[id];
              && d.status == s.status && d.progress == s.progress && d.total == s.total
              && d.percent == s.percent && d.speed == s.speed && d.queuePosition == s.queuePosition
    ensures id !in st.downloadStatus ==>
              && d.status == Queued && d.progress == 0 && d.total == st.activeDownloads[id].size
              && d.percent == 0.0 && d.speed == 0.0 && d.queuePosition.None? && d.timeRemaining.None?
    ensures d.timeRemaining.Some? <==> d.speed > 0.0
    ensures d.timeRemaining.Some? ==> d.timeRemaining.value * d.speed == (d.total - d.progress) as real
  {
    var a := st.activeDownloads[id];
    var s := ReportedStatus(st, id);
    ListedDownload(id, a.fileName, a.filePath, a.username, a.size, a.metadata, a.timestamp,
                   s.status, s.progress, s.total, s.percent, s.speed, s.queuePosition,
                   TimeRemaining(s.progress, s.total, s.speed))
  }

  /** `order` lists every active download id exactly once (the dictionary's iteration order). */
  predicate EnumeratesActive(st: ManagerState, order: seq<string>) {
    && (forall i, j :: 0 <= i < j < |order| ==> order[i] != order[j])
    && (forall i :: 0 <= i < |order| ==> order[i] in st.activeDownloads)
    && (forall id :: id in st.activeDownloads ==> id in order)
  }

  /** The unsorted listing, one entry per active download in iteration order. */
  function Listing(st: ManagerState, order: seq<string>): (r: seq<ListedDownload>)
    requires forall i :: 0 <= i < |order| ==> order[i] in st.activeDownloads
    ensures |r| == |order|
    ensures forall i :: 0 <= i < |r| ==> r[i] == Listed(st, order[i])
  {
    seq(|order|, i requires 0 <= i < |order| => Listed(st, order[i]))
  }

  /** The sort key: the negated timestamp, so that ascending order is newest first. */
  /** The listing's sort key, with `reverse=True` folded into the key. */
  function NewestFirst(d: ListedDownload): seq<int> {
    [-d.timestamp]
  }

  /** One entry goes before another under the key exactly when it is not older. */
  lemma NewestFirstKey(a: ListedDownload, b: ListedDownload)
    ensures LexLe(NewestFirst(a), NewestFirst(b)) <==> a.timestamp >= b.timestamp
  {
    assert NewestFirst(a)[1..] == [];
  }

  function Statuses(l: seq<ListedDownload>): (r: seq<string>)
    ensures |r| == |l| && forall i :: 0 <= i < |l| ==> r[i] == l[i].status
  {
    seq(|l|, i requires 0 <= i < |l| => l[i].status)
  }

  /** The number of entries whose status is "Downloading". */
  function CountDownloading(l: seq<ListedDownload>): (n: nat)
    ensures n == multiset(Statuses(l))[Downloading]
    decreases |l|
  {
    if |l| == 0 then 0
    else
      assert Statuses(l) == [l[0].status] + Statuses(l[1..]);
      (if l[0].status == Downloading then 1 else 0) + CountDownloading(l[1..])
  }

  /** The body of the bulk listing: downloads, connection status and the active-download count. */
  datatype DownloadsAndStatus = DownloadsAndStatus(
    downloads: seq<ListedDownload>,
    soulseekStatus: string,
    activeDownloads: nat)

  /**
   * `get_all_downloads_status`: every active download once, newest first
   * (ties keep their iteration order), "Connected" or "Disconnected", and
   * the number of listed downloads whose status is "Downloading".
   */
  function GetAllDownloadsStatus(st: ManagerState, order: seq<string>): (r: DownloadsAndStatus)
    requires EnumeratesActive(st, order)
    ensures multiset(r.downloads) == multiset(Listing(st, order))
    ensures forall i, j :: 0 <= i < j < |r.downloads| ==>
              r.downloads[i].timestamp >= r.downloads[j].timestamp
    ensures forall id :: id in st.activeDownloads <==>
              exists i :: 0 <= i < |r.downloads| && r.downloads[i].id == id
    ensures r.activeDownloads == multiset(Statuses(r.downloads))[Downloading]
    ensures r.soulseekStatus == if st.loggedIn then "Connected" else "Disconnected"
  {
    var listing := Listing(st, order);
    var sorted := SortBy(listing, NewestFirst);
    NewestFirstOrder(sorted);
    ListingCoversActive(st, order, sorted);
    DownloadsAndStatus(sorted, if st.loggedIn then "Connected" else "Disconnected",
                       CountDownloading(sorted))
  }

  /** A list sorted by `NewestFirst` has non-increasing timestamps. */
  lemma NewestFirstOrder(sorted: seq<ListedDownload>)
    requires SortedBy(sorted, NewestFirst)
    ensures forall i, j :: 0 <= i < j < |sorted| ==> sorted[i].timestamp >= sorted[j].timestamp
  {
    forall i, j | 0 <= i < j < |sorted|
      ensures sorted[i].timestamp >= sorted[j].timestamp
    {
      assert LexLe(NewestFirst(sorted[i]), NewestFirst(sorted[j]));
    }
  }

  /** Any permutation of the listing names exactly the active downloads. */
  lemma ListingCoversActive(st: ManagerState, order: seq<string>, sorted: seq<ListedDownload>)
    requires EnumeratesActive(st, order)
    requires multiset(sorted) == multiset(Listing(st, order))
    ensures forall id :: id in st.activeDownloads <==>
              exists i :: 0 <= i < |sorted| && sorted[i].id == id
  {
    var listing := Listing(st, order);
    forall id | id in st.activeDownloads
      ensures exists i :: 0 <= i < |sorted| && sorted[i].id == id
    {
      var k :| 0 <= k < |order| && order[k] == id;
      assert listing[k] in multiset(sorted);
      var i :| 0 <= i < |sorted| && sorted[i] == listing[k];
    }
    forall i | 0 <= i < |sorted|
      ensures sorted[i].id in st.activeDownloads
    {
      assert sorted[i] in multiset(listing);
      var k :| 0 <= k < |listing| && listing[k] == sorted[i];
    }
  }

  /** Downloads with the same timestamp are listed in their iteration order. */
  lemma ListingTiesKeepOrder(st: ManagerState, order: seq<string>, t: int)
    requires EnumeratesActive(st, order)
    ensures FilterKey(GetAllDownloadsStatus(st, order).downloads, NewestFirst, [-t])
            == FilterKey(Listing(st, order), NewestFirst, [-t])
  {
    SortByStable(Listing(st, order), NewestFirst, [-t]);
  }
}
