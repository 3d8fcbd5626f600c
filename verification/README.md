# Sonosano slskd session bookkeeping, in Dafny

This project models the session-state bookkeeping that the Sonosano backend
keeps around its slskd (Soulseek daemon) gateway. The model covers:

- the manager's search pipeline: token allocation, query-term resolution, and
  the poll step that filters, normalises, ranks and truncates gateway search
  responses;
- download registration, the transfer-monitor step and lookups with defaults;
- the download routes: id format, bulk listing and cancellation;
- the search routes: the per-token completion state machine and the result
  shape;
- the library's keyed collections: songs by path, playlists by id and the
  download-metadata map;
- the login loop against the gateway.

Every call into the gateway is an input to the model, never a call. For
example, the transfer-monitor loop takes a sequence of transfer replies, and a
search takes a reply that says whether the search started. The manager's
dictionaries live in one immutable `ManagerState` record, and every operation
is a pure function from a state to a new state and a result.

Files, one module each:

| file | module | contents |
|---|---|---|
| `common.dfy` | `Common` | `Option`, `Result`, `HttpError`, `Min` |
| `text.dfy` | `Text` | digits and decimal rendering, `find`/`rfind`, `strip` (Python's white-space set) and ASCII `lower` |
| `sorting.dfy` | `Sorting` | Python's stable `list.sort` on integer-tuple keys, as insertion sort on sequences |
| `paths.dfy` | `Paths` | `posixpath.splitext` and `basename` |
| `duration.dfy` | `Duration` | `_format_duration` and a parser that inverts it |
| `state.dfy` | `SessionState` | the session state record and the status names |
| `poll.dfy` | `Poll` | one search-poll step and the four-attempt poller |
| `monitor.dfy` | `Monitor` | the transfer-monitor step and its 300-attempt loop |
| `manager.dfy` | `Manager` | `perform_search`, `download_file`, `get_search_results`, `get_download_status` |
| `login.dfy` | `Login` | `_login_to_slskd` and `initialize_slskd` |
| `download_routes.dfy` | `DownloadRoutes` | `POST /download`, the bulk status listing, cancel |
| `search_routes.dfy` | `SearchRoutes` | `POST /search/soulseek` and the results route with its completion tracker |
| `library.dfy` | `Library` | songs, playlists and download metadata |

A few behaviours of the code are worth stating up front:

- The search poller makes exactly four attempts and does not stop early
  (`slskd_manager.py:143`).
- Each poll that gets responses *replaces* the token's stored list
  (`:216`). It does not add to the list.
- The results route reports completion once the stable counter reaches 3
  (`search_routes.py:77`). For a steady count that is the *fourth* equal
  poll.
- Cancellation is done by the route (`download_routes.py:108-133`), not by
  the manager.

## Model

| member | source | states |
|---|---|---|
| `Manager.Truthy` | backend/src/core/slskd_manager.py:106 | an artist or song counts only when present and non-empty |
| `Text.Strip` | backend/src/core/slskd_manager.py:109 | the result is the text between the leading and trailing white space, for Python's `str.isspace` characters, and starts and ends with a non-white-space character |
| `Manager.ResolveTerm` | backend/src/core/slskd_manager.py:105-114 | with both artist and song non-empty the term is the artist part, a space, then the song; otherwise it is the raw query |
| `Manager.ArtistPart` | backend/src/core/slskd_manager.py:107-111 | without a `·` the artist is used whole; otherwise the result is the stripped text after the first `·` |
| `Manager.ResolveTermPlainArtist` | backend/src/core/slskd_manager.py:106-112 | for non-empty artist and song, the term ends with a space and the song, and equals `artist + " " + song` when the artist has no `·` |
| `Manager.PerformSearch` | backend/src/core/slskd_manager.py:100-134 | the token counter always advances by one, even when the gateway raises; a failed search returns no token and the raw query and stores nothing; a started search returns the old counter value and stores an empty list and the term under it; other keys are untouched |
| `Manager.PerformSearchFreshToken` | backend/src/core/slskd_manager.py:103-104 | every stored token is below the counter, this holds after a search, and the token a search takes is not yet in use |
| `Manager.SearchManyTokens` | backend/src/core/slskd_manager.py:103-104 | over a run of searches, the i-th search takes counter+i, and the tokens returned are strictly increasing |
| `Manager.RunPoll` | backend/src/core/slskd_manager.py:136-227 | polling touches only the polled token's stored results |
| `Manager.RunPollKeepsTokensIssued` | backend/src/core/slskd_manager.py:125-129 | polling an issued token keeps every stored token below the counter |
| `Manager.GetSearchResults` | backend/src/core/slskd_manager.py:347-349 | an unknown token yields the empty list; a known one its stored list |
| `Manager.ResultsEmptyAfterSearch` | backend/src/core/slskd_manager.py:125 | directly after a started search, its token's results are empty |
| `Manager.DownloadId` | backend/src/core/slskd_manager.py:247 | the id is the username, one `:`, then the file path |
| `Manager.InitialStatus` | backend/src/core/slskd_manager.py:279-286 | a fresh status is Queued with progress 0, total equal to the size, zero percent and speed, and no queue position |
| `Manager.StoreMetadata` | backend/src/core/slskd_manager.py:251-253 | metadata goes under both the download id and the file's basename; other keys keep their values |
| `Manager.DownloadFile` | backend/src/core/slskd_manager.py:244-295 | the active entry is registered with the id, base name, path, user, size, metadata and timestamp whether or not the enqueue succeeds; the Queued status is stored only on success, which returns the id; metadata is stored under the id and base name only when given and non-empty, and every other metadata key keeps its value; search state is untouched |
| `Manager.GetDownloadStatus` | backend/src/core/slskd_manager.py:351-361 | a known key yields its status; an unknown one yields 'Not started' with zero progress, total, percent and speed and no queue position |
| `Manager.StatusAfterDownload` | backend/src/core/slskd_manager.py:247-292 | after a successful download request the status lookup for the same user and path returns the initial Queued record |
| `Manager.DownloadIdExample` | backend/src/core/slskd_manager.py:247 | a worked id for a nested path |
| `Poll.KeptFiles` | backend/src/core/slskd_manager.py:165-195 | every file kept from a passing response is admissible: unlocked, at most 25 MiB, extension .flac, .mp3 or .wav, upload speed at least 102400 and queue length at most 0 |
| `Poll.ResponsePasses` | backend/src/core/slskd_manager.py:157-163 | a response is kept only with an upload speed of at least 102400 (0 when missing) and a queue length of at most 0 (999 when missing) |
| `Poll.FilePasses` | backend/src/core/slskd_manager.py:165-178 | a file is kept only when not locked, at most 25 MiB (0 when missing) and with extension .flac, .mp3 or .wav |
| `Poll.Normalise` | backend/src/core/slskd_manager.py:180-194 | the stored form of a file that passes both filters is admissible; user, queue count (999 when missing) and upload speed (0 when missing) come from the response; path, size, bitrate and the formatted length come from the file, with 0 for a missing number; the extension is extracted from the path; quality equals bitrate; it is never locked |
| `Poll.KeptFromResponse` | backend/src/core/slskd_manager.py:150-195 | every file kept from one response is admissible |
| `Poll.Kept` | backend/src/core/slskd_manager.py:148-195 | every file kept from all responses is admissible |
| `Poll.KeptFilesMembership` | backend/src/core/slskd_manager.py:165-195 | a result is kept from a response exactly when it is the normalised form of a file that passes the file filters |
| `Poll.KeptMembership` | backend/src/core/slskd_manager.py:150-195 | a result is kept exactly when it comes from a passing file of a passing response |
| `Poll.MissingFieldsDropResponse` | backend/src/core/slskd_manager.py:154-163 | a response without a queue length (defaults to 999) or upload speed (defaults to 0) contributes nothing |
| `Poll.SearchKey` | backend/src/core/slskd_manager.py:201-211 | the key is (0 for a .flac extension and 1 otherwise, negated bitrate, queue count) |
| `Poll.StoredList` | backend/src/core/slskd_manager.py:201-216 | the stored list has min(20, kept) entries drawn from the kept files and is sorted by the ranking key; no file left out ranks strictly before one that is stored; among files with equal keys it holds the earliest-arriving ones, in arrival order |
| `Poll.AdmissibleSubset` | backend/src/core/slskd_manager.py:216 | a sub-multiset of admissible files is admissible |
| `Poll.FlacPriority` | backend/src/core/slskd_manager.py:202-208 | for a kept file the priority is 0 exactly when its extension is .flac |
| `Poll.KeyOrder` | backend/src/core/slskd_manager.py:201-211 | key order means FLAC before others, then higher bitrate first, then shorter queue |
| `Poll.StoredOrder` | backend/src/core/slskd_manager.py:197-216 | in the stored list FLAC comes first, then bitrate descending, then queue count ascending |
| `Poll.PollStep` | backend/src/core/slskd_manager.py:144-221 | a raised or empty reply changes nothing; a non-empty one replaces the token's list with the stored list; other tokens are untouched |
| `Poll.PollStepReplaces` | backend/src/core/slskd_manager.py:216 | what a storing poll leaves under the token does not depend on what was there before |
| `Poll.ApplyReplies` | backend/src/core/slskd_manager.py:143-221 | a run of poll attempts touches only the polled token's entry |
| `Poll.ApplyRepliesLastWins` | backend/src/core/slskd_manager.py:143-221 | after a run of replies the token holds the list from the last storing reply, or its old value if none stored |
| `Poll.PollSearch` | backend/src/core/slskd_manager.py:138-221 | without a search id nothing changes; otherwise only the token's entry can change or appear |
| `Poll.PollSearchOutcome` | backend/src/core/slskd_manager.py:138-143 | no search id means no change; otherwise only the first four replies are consulted |
| `Paths.SplitExt` | backend/src/core/slskd_manager.py:233 | splitting at the extension start reassembles the path; the suffix is empty exactly when no dot qualifies as an extension start |
| `Paths.ExtensionStart` | backend/src/core/slskd_manager.py:233 | an extension starts at a dot with no later dot or `/`, preceded in its path component by a non-dot |
| `Paths.ExtensionStartIsLastDot` | backend/src/core/slskd_manager.py:233 | an extension starts only at the last dot, which must follow the last `/` and be preceded in its component by a non-dot |
| `Paths.ExtractExtension` | backend/src/core/slskd_manager.py:229-234 | the result is empty exactly when the path has no extension, and otherwise is the lowercased suffix from the extension dot |
| `Paths.Basename` | backend/src/core/slskd_manager.py:248 | the base name has no `/` |
| `Paths.BasenameSuffix` | backend/src/core/slskd_manager.py:248 | the base name is a suffix of the path that is either all of it or preceded by a `/` |
| `Duration.FormatDuration` | backend/src/core/slskd_manager.py:236-242 | non-positive seconds give "0:00"; otherwise unpadded minutes whose value is seconds // 60, a colon, and a two-digit seconds field whose value is seconds % 60 |
| `Duration.FormatDurationRoundTrip` | backend/src/core/slskd_manager.py:236-242 | reading the minutes and seconds back gives the original seconds (0 for non-positive input) |
| `Monitor.MapState` | backend/src/core/slskd_manager.py:310-318 | Completed becomes Finished, a missing state becomes Unknown, any other state passes through |
| `Monitor.MapStateTerminal` | backend/src/core/slskd_manager.py:313-333 | the mapped state is terminal exactly when the gateway said Completed, Finished, Failed or Cancelled (a gateway "Finished" passes through unchanged and also ends monitoring) |
| `Monitor.Percent` | backend/src/core/slskd_manager.py:321 | zero when the total is not positive, otherwise progress times 100 over total, and between 0 and 100 when progress is within the total |
| `Monitor.Observed` | backend/src/core/slskd_manager.py:318-331 | an observed status never has a queue position and has zero percent for a non-positive size |
| `SessionState.IsTerminal` | backend/src/core/slskd_manager.py:334 | Finished, Failed and Cancelled are the states that end monitoring |
| `Monitor.Flatten` | backend/src/core/slskd_manager.py:309-311 | every file of every directory is visited, and nothing else |
| `Monitor.Scan` | backend/src/core/slskd_manager.py:306-335 | only the download's own status may change; the scan stops exactly when a matching transfer has a terminal state; the stored status is that of the first terminal match, or of the last match when none is terminal; with no match nothing changes |
| `Monitor.MonitorStep` | backend/src/core/slskd_manager.py:302-340 | a raised reply changes nothing and does not stop; otherwise the step is the scan of all directories' files, and stops exactly on a terminal matching transfer |
| `Monitor.Replay` | backend/src/core/slskd_manager.py:301-340 | the table after a sequence of monitor attempts differs from the initial one only under the download's id |
| `Monitor.MonitorDownload` | backend/src/core/slskd_manager.py:297-345 | at most 300 polls; the loop stops at the first reply that shows a terminal state, which is stored; if it does not stop, every allowed poll was used; the final table is what the polls it made left behind; no other download's status changes |
| `Login.AwaitConnected` | backend/src/core/slskd_manager.py:67-76 | success after k queries means the k-th reply was Connected and none before it was decisive; timeout exactly when no reply in the window was Connected or raised |
| `Login.AwaitConnectedFirstDecisive` | backend/src/core/slskd_manager.py:67-76 | the first Connected or raising reply in the window decides the outcome |
| `Login.LoginToSlskd` | backend/src/core/slskd_manager.py:55-82 | a raising state query fails; any state but Disconnected (or none at all) means already connected; a failed connect fails; otherwise at most 30 queries wait for Connected: success means Connected at that query with no exception before it, a gateway error means an exception came first, and a timeout means neither came |
| `Login.InitializeSlskd` | backend/src/core/slskd_manager.py:39-53 | logged in exactly when the login succeeded; nothing else changes |
| `Login.ConnectedWithinWindowLogsIn` | backend/src/core/slskd_manager.py:62-73 | Connected on query j within the window, after no exception, logs in after j+1 queries |
| `Login.NoConnectedWithinWindowLogsOut` | backend/src/core/slskd_manager.py:67-76 | thirty queries without Connected leave the session logged out |
| `DownloadRoutes.GenerateDownloadId` | backend/src/api/download_routes.py:13-15 | the route's id is the manager's id |
| `DownloadRoutes.SplitId` | backend/src/api/download_routes.py:115-117 | there is no split exactly when the id has no `:`; otherwise the head has no `:` and head, `:`, tail is the id |
| `DownloadRoutes.SplitIdRoundTrip` | backend/src/api/download_routes.py:115-117 | for a username without `:` the split recovers username and path exactly, even when the path contains `:` |
| `DownloadRoutes.DownloadIdInjective` | backend/src/api/download_routes.py:13-15 | for usernames without `:` equal ids mean equal user and path |
| `DownloadRoutes.ForgetDownload` | backend/src/api/download_routes.py:121-125 | the id leaves both maps and nothing else changes |
| `DownloadRoutes.CancelDownloadAsWritten` | backend/src/api/download_routes.py:114-119 | an id without `:` ends in a server error with the state unchanged; any other id behaves as the corrected cancel |
| `DownloadRoutes.CancelWithoutColonIsServerError` | backend/src/api/download_routes.py:115-119 | on the id "abc" the code as written answers 500, the intended handling 400 |
| `DownloadRoutes.CancelDownload` | backend/src/api/download_routes.py:108-133 | a malformed id is refused with 400 and changes nothing; any other id is removed from both maps and the cancel is acknowledged with the id |
| `DownloadRoutes.CancelIdempotent` | backend/src/api/download_routes.py:121-133 | a second cancel of the same id changes nothing and answers the same |
| `DownloadRoutes.CancelUnknownIsNoOp` | backend/src/api/download_routes.py:121-125 | cancelling an unknown id leaves the state as it was |
| `DownloadRoutes.PostDownload` | backend/src/api/download_routes.py:17-34 | not logged in: 503 and no change; a successful enqueue answers with the id; a failed one with 500; when logged in the session and metadata store are the manager's, so the active entry stays registered even when the answer is 500 |
| `DownloadRoutes.ReportedStatus` | backend/src/api/download_routes.py:57-64 | an active download without a status is reported Queued with progress 0 and total equal to its size |
| `DownloadRoutes.TimeRemaining` | backend/src/api/download_routes.py:82-86 | present exactly when the speed is positive, and then remaining time times speed is total minus progress |
| `DownloadRoutes.Listed` | backend/src/api/download_routes.py:56-87 | an entry copies the registration's fields; its status fields are the stored status, or Queued with progress 0, total equal to the size, zero percent and speed, and no time remaining; time remaining is present exactly when the speed is positive and then times speed gives total minus progress |
| `DownloadRoutes.Listing` | backend/src/api/download_routes.py:56-89 | one entry per enumerated active download, in iteration order |
| `DownloadRoutes.CountDownloading` | backend/src/api/download_routes.py:100 | the count equals the number of listed entries whose status is Downloading |
| `DownloadRoutes.GetAllDownloadsStatus` | backend/src/api/download_routes.py:51-106 | the list is a permutation of the listing with timestamps non-increasing, it names exactly the active downloads, the count is the number of Downloading entries, and the status is Connected or Disconnected |
| `DownloadRoutes.NewestFirstKey` | backend/src/api/download_routes.py:91 | the listing's key orders one entry before another exactly when its timestamp is not older |
| `DownloadRoutes.NewestFirstOrder` | backend/src/api/download_routes.py:91 | a list sorted by the negated timestamp is newest first |
| `DownloadRoutes.ListingCoversActive` | backend/src/api/download_routes.py:56-89 | any reordering of the listing names exactly the active downloads |
| `DownloadRoutes.ListingTiesKeepOrder` | backend/src/api/download_routes.py:91 | downloads with equal timestamps keep their iteration order |
| `SearchRoutes.IsComplete` | backend/src/api/search_routes.py:76-80 | complete with a positive count seen stable three times, with 100 or more results, or with a positive count for a token the manager no longer knows |
| `SearchRoutes.CompletionStep` | backend/src/api/search_routes.py:65-84 | the counter increments exactly on a repeated non-zero count and otherwise resets; completion is the three-way rule and never holds for zero results; completion forgets the token's counters, otherwise they are updated |
| `SearchRoutes.SteadyCountCompletesEveryFourthPoll` | backend/src/api/search_routes.py:65-84 | for a fresh known token and a steady count between 1 and 99, exactly every fourth poll completes |
| `SearchRoutes.FourEqualPolls` | backend/src/api/search_routes.py:65-80 | four equal polls answer incomplete, incomplete, incomplete, complete |
| `SearchRoutes.ChangingCountNeverCompletes` | backend/src/api/search_routes.py:69-80 | a known token whose count changes on every poll and stays below 100 never completes |
| `SearchRoutes.RouteCompletesOnFourthEqualPoll` | backend/src/api/search_routes.py:47-93 | four route polls of a known, untracked token with a steady stored count between 1 and 99 are incomplete, incomplete, incomplete, complete, and leave the token untracked |
| `SearchRoutes.Format` | backend/src/api/search_routes.py:51-61 | path, size, user, extension, bitrate and length are carried over; quality is rendered as text |
| `SearchRoutes.GetSearchResults` | backend/src/api/search_routes.py:47-93 | the tracker and the completion flag are exactly those of one completion step fed with the stored count and whether the token is known; the results are the stored list formatted, the count equals their number, and the query is the token's term or empty |
| `SearchRoutes.SearchFiles` | backend/src/api/search_routes.py:25-42 | not logged in: 503 and no change; otherwise the manager's token (possibly none) and actual query are returned and the session is the manager's: the counter advances, and a started search records its term and an empty list under the token |
| `Library.RemoveWhere` | backend/src/core/library_service.py:40-42 | nothing matching the condition remains and every other document keeps its multiplicity |
| `Library.AddOrUpdateSong` | backend/src/core/library_service.py:36-38 | a song without a path fails; otherwise some song afterwards has that path |
| `Library.Upsert` | backend/src/core/library_service.py:38 | the table keeps its length (some song matched) or gains the song at the end; songs with another path are unchanged |
| `Library.UpsertSpec` | backend/src/core/library_service.py:36-38 | songs with that path are merged with the new fields; if none matched the song is appended; others are unchanged |
| `Library.UpsertIdempotent` | backend/src/core/library_service.py:36-38 | upserting the same song twice equals upserting it once |
| `Library.RemoveSong` | backend/src/core/library_service.py:40-42 | no song with the path remains and all others keep their multiplicity |
| `Library.GetPlaylist` | backend/src/core/library_service.py:70-73 | none exactly when no playlist has the id; otherwise a playlist of the table |
| `Library.GetPlaylistAfterStore` | backend/src/core/library_service.py:88-94 | after a playlist is written back, looking its id up finds the written playlist |
| `Library.DeletePlaylist` | backend/src/core/library_service.py:82-84 | no playlist with the id remains and all others keep their multiplicity |
| `Library.Store` | backend/src/core/library_service.py:94 | the updated playlist replaces every entry with its id |
| `Library.AddSongToPlaylist` | backend/src/core/library_service.py:86-97 | an unknown id returns none and changes nothing; otherwise the first matching playlist is returned with the song in it, appended only when absent, with no new duplicates; an appended playlist is written back over every entry with its id, and an unchanged one leaves the table alone |
| `Library.AddSongToPlaylistIdempotent` | backend/src/core/library_service.py:86-97 | adding the same song twice equals adding it once |
| `Library.RemoveFirst` | backend/src/core/library_service.py:105 | removes the first occurrence only, and only if present |
| `Library.RemoveSongFromPlaylist` | backend/src/core/library_service.py:99-110 | an unknown id returns none and changes nothing; otherwise the returned playlist loses the first occurrence of the song, if present, with the other songs in order; a changed playlist is written back over every entry with its id, and an unchanged one leaves the table alone |
| `Library.RemoveUndoesAdd` | backend/src/core/library_service.py:86-110 | removing a song just added to a playlist that lacked it gives back the original playlist |
| `Library.AddDownloadMetadata` | backend/src/core/library_service.py:52-58 | the file name maps to the metadata and other keys are unchanged |
| `Library.AddDownloadMetadataLastWins` | backend/src/core/library_service.py:58 | a later store for the same file name overwrites an earlier one |
| `Sorting.SortBy` | backend/src/core/slskd_manager.py:213 | the sorted list is a permutation of its input, ordered by key |
| `Sorting.SortByStable` | backend/src/core/slskd_manager.py:213 | elements with equal keys keep their relative order |
| `Sorting.SortedPrefix` | backend/src/core/slskd_manager.py:216 | a prefix of a sorted list holds best-ranked elements: nothing outside it ranks strictly before anything inside it |
| `Sorting.FilterKeyPrefix` | backend/src/core/slskd_manager.py:216 | the elements of a prefix that have one key form a prefix of those of the whole list |
| `Sorting.StableSortPrefix` | backend/src/core/slskd_manager.py:213-216 | for every key, the first n sorted elements with that key are the earliest input elements with it, in input order |

## Left out

- Threads, `time.sleep`, `login_event` and `wait_for_login` are not modelled. The background pollers and the monitor are bounded iterations over sequences of gateway replies, and their interleaving with the routes is not modelled. Because of that, a monitor still running after a cancel can put the status back; the model does not show this.
- Every `SlskdClient` call is an input to the model rather than a call. That covers search start, search responses, transfer listing, enqueue, server state, connect and the cancel in the gateway. The gateway's cancel result is ignored by the route, so the model drops it.
- `percent`, `speed` and `time_remaining` are Python floats; they are `real` here, so rounding is not modelled. Timestamps are integers supplied by the caller.
- URL unquoting of the cancel id is not modelled; the id is taken already decoded.
- `str.lower` maps only the ASCII letters. Python applies the full Unicode case mapping. `str.strip` is modelled with Python's full `str.isspace` set.
- `os.path.splitext` and `os.path.basename` are the POSIX variants, with `/` as the only separator.
- TinyDB persistence, `updatedAt` timestamps and Pydantic model construction are not modelled. Tables are sequences of documents or records.
- `_initialize_client` and `setup_slskd_config` are left out. The latter swallows its own errors and changes no session state.
- The bulk listing's `soulseek_username`, `backend_status` and `active_uploads` fields are left out. So are the `path` and `error_message` copies. They are constants or copies that carry no bookkeeping.
- The route's `"cancelled"` exception branch in `search_files` is left out. `perform_search` catches every exception itself, so that branch is never reached.
- Python dictionary iteration order is not derived. The bulk listing takes the enumeration order of the active downloads as a parameter.
- The generic `/search/{provider}` route, the lyrics table, `create_playlist`, `update_playlist`, `get_all_songs` and `get_all_playlists` are left out. They are outside the modelled bookkeeping.
- Monitor.Observed: states only the queue position and the zero-total guard of the observed record. The field copies are given by `Percent` and `MapState`.
- Library.AddOrUpdateSong: states only that the path is present afterwards. The field-level effect is stated by `Library.UpsertSpec`.

## Findings

| source | as written | input that shows it | evidently intended | confidence | as-written member | corrected member |
|---|---|---|---|---|---|---|
| backend/src/api/download_routes.py:114-119 | an id without `:` makes `parts[1]` raise `IndexError`, which `except ValueError` does not catch, so the request fails with a server error | cancel id `abc` | answer 400 "Invalid download ID format" and change nothing | not executed; follows from Python's `split` returning a one-element list | `DownloadRoutes.CancelDownloadAsWritten` | `DownloadRoutes.CancelDownload` |
