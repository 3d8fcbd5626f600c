/**
 * The records the download manager keeps in memory (`SlskcManager`'s
 * dictionaries) and the state record that holds them all.
 */
module SessionState {
  import opened Common

  /** Caller-supplied descriptive tags for a download (title, artist, album, ...). */
  type Metadata = map<string, string>

  /** One search result as stored under a search token. */
  datatype FileResult = FileResult(
    path: string,
    size: int,
    extension: string,
    username: string,
    bitrate: int,
    quality: int,       // the bitrate again, used as the quality figure
    length: string,     // the duration as "M:SS"
    queueCount: int,
    uploadSpeed: int,   // bytes per second
    isLocked: bool)

  /** The `active_downloads` entry registered when a download is requested. */
  datatype ActiveDownload = ActiveDownload(
    id: string,
    fileName: string,
    filePath: string,
    username: string,
    size: int,
    metadata: Option<Metadata>,
    timestamp: int)     // the clock reading at registration

  /**
   * A `download_status` entry. `status` is a string because states the
   * manager does not recognise are passed through unchanged.
   */
  datatype DownloadStatus = DownloadStatus(
    status: string,
    progress: int,
    total: int,
    percent: real,
    speed: real,
    queuePosition: Option<int>)

  /** The whole bookkeeping state of one manager. */
  datatype ManagerState = ManagerState(
    loggedIn: bool,
    nextSearchToken: int,
    searchResults: map<int, seq<FileResult>>,
    searchTokens: map<int, string>,
    downloadStatus: map<string, DownloadStatus>,
    activeDownloads: map<string, ActiveDownload>)

  /** The state right after construction: not logged in, first token 1, nothing stored. */
  const InitialState := ManagerState(false, 1, map[], map[], map[], map[])

  const Queued := "Queued"
  const Downloading := "Downloading"
  const Finished := "Finished"
  const Failed := "Failed"
  const Cancelled := "Cancelled"

  /** The states at which the download monitor stops. */
  predicate IsTerminal(status: string) {
    status == Finished || status == Failed || status == Cancelled
  }
}
