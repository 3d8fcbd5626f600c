/**
 * One search poll (`_poll_search_results.poll` in slskd_manager.py) as a
 * pure transformation: the gateway's responses are filtered, normalised,
 * sorted and truncated, and the result replaces the token's stored list.
 * The poller's four attempts become a fold over a sequence of replies.
 */
module Poll {
  import opened Common
  import opened Text
  import opened Sorting
  import opened SessionState
  import Paths
  import Duration

  /** A file entry of a gateway search response; absent fields are `None`. */
  datatype GatewayFile = GatewayFile(
    filename: Option<string>,
    size: Option<int>,
    isLocked: Option<bool>,
    bitRate: Option<int>,
    length: Option<int>)

  /** One peer's search response: its files, identity, queue length and upload speed. */
  datatype GatewayResponse = GatewayResponse(
    files: seq<GatewayFile>,
    username: string,
    queueLength: Option<int>,
    uploadSpeed: Option<int>)

  /** What one call to the gateway's search-responses endpoint gave: an error, or a list. */
  datatype PollReply = PollRaised | Responses(responses: seq<GatewayResponse>)

  const MinUploadSpeed := 102400               // 100 KiB/s
  const MaxFileSize := 25 * 1024 * 1024        // 25 MiB
  const AllowedExtensions := [".flac", ".mp3", ".wav"]
  const ResultLimit := 20
  const PollAttempts := 4
  const MissingQueueLength := 999
  const MissingUploadSpeed := 0

  /** The peer-level filter: fast enough and nothing queued. */
  predicate ResponsePasses(r: GatewayResponse) {
    r.uploadSpeed.GetOr(MissingUploadSpeed) >= MinUploadSpeed
    && r.queueLength.GetOr(MissingQueueLength) <= 0
  }

  /** The file-level filter: not locked, at most 25 MiB, an audio extension we accept. */
  predicate FilePasses(f: GatewayFile) {
    && !f.isLocked.GetOr(false)
    && f.size.GetOr(0) <= MaxFileSize
    && Paths.ExtractExtension(f.filename.GetOr("")) in AllowedExtensions
  }

  /** The stored form of file `f` of response `r`. */
  function Normalise(r: GatewayResponse, f: GatewayFile): (x: FileResult)
    ensures ResponsePasses(r) && FilePasses(f) ==> Admissible(x)
    ensures x.username == r.username && x.queueCount == r.queueLength.GetOr(MissingQueueLength)
    ensures x.path == f.filename.GetOr("") && x.quality == x.bitrate && !x.isLocked
    ensures x.size == f.size.GetOr(0) && x.extension == Paths.ExtractExtension(x.path)
    ensures x.bitrate == f.bitRate.GetOr(0) && x.length == Duration.FormatDuration(f.length.GetOr(0))
    ensures x.uploadSpeed == r.uploadSpeed.GetOr(MissingUploadSpeed)
  {
    var bitrate := f.bitRate.GetOr(0);
    FileResult(
      path := f.filename.GetOr(""),
      size := f.size.GetOr(0),
      extension := Paths.ExtractExtension(f.filename.GetOr("")),
      username := r.username,
      bitrate := bitrate,
      quality := bitrate,
      length := Duration.FormatDuration(f.length.GetOr(0)),
      queueCount := r.queueLength.GetOr(MissingQueueLength),
      uploadSpeed := r.uploadSpeed.GetOr(MissingUploadSpeed),
      isLocked := false)
  }

  /** What every stored search result satisfies. */
  predicate Admissible(x: FileResult) {
    && x.uploadSpeed >= MinUploadSpeed
    && x.queueCount <= 0
    && !x.isLocked
    && x.size <= MaxFileSize
    && x.extension in AllowedExtensions
  }

  function KeptFiles(r: GatewayResponse, fs: seq<GatewayFile>): (k: seq<FileResult>)
    requires ResponsePasses(r)
    ensures forall i :: 0 <= i < |k| ==> Admissible(k[i])
    decreases |fs|
  {
    if |fs| == 0 then []
    else (if FilePasses(fs[0]) then [Normalise(r, fs[0])] else []) + KeptFiles(r, fs[1..])
  }

  function KeptFromResponse(r: GatewayResponse): (k: seq<FileResult>)
    ensures forall i :: 0 <= i < |k| ==> Admissible(k[i])
  {
    if ResponsePasses(r) then KeptFiles(r, r.files) else []
  }

  /**
   * The normalised files that pass both filters, in the gateway's order
   * (responses first, then files within a response).
   */
  function Kept(rs: seq<GatewayResponse>): (k: seq<FileResult>)
    ensures forall i :: 0 <= i < |k| ==> Admissible(k[i])
    decreases |rs|
  {
    if |rs| == 0 then [] else KeptFromResponse(rs[0]) + Kept(rs[1..])
  }

  /** File `j` of response `i` passes both filters and normalises to `x`. */
  ghost predicate KeptAt(rs: seq<GatewayResponse>, i: int, j: int, x: FileResult) {
    && 0 <= i < |rs| && 0 <= j < |rs[i].files|
    && ResponsePasses(rs[i]) && FilePasses(rs[i].files[j])
    && x == Normalise(rs[i], rs[i].files[j])
  }

  lemma {:induction false} KeptFilesMembership(r: GatewayResponse, fs: seq<GatewayFile>, x: FileResult)
    requires ResponsePasses(r)
    ensures x in KeptFiles(r, fs) <==>
              exists j :: 0 <= j < |fs| && FilePasses(fs[j]) && x == Normalise(r, fs[j])
    decreases |fs|
  {
    if |fs| > 0 {
      KeptFilesMembership(r, fs[1..], x);
      if exists j :: 0 <= j < |fs| && FilePasses(fs[j]) && x == Normalise(r, fs[j]) {
        var j :| 0 <= j < |fs| && FilePasses(fs[j]) && x == Normalise(r, fs[j]);
        if j > 0 {
          assert fs[1..][j - 1] == fs[j];
        }
      }
      if exists j :: 0 <= j < |fs[1..]| && FilePasses(fs[1..][j]) && x == Normalise(r, fs[1..][j]) {
        var j :| 0 <= j < |fs[1..]| && FilePasses(fs[1..][j]) && x == Normalise(r, fs[1..][j]);
        assert fs[j + 1] == fs[1..][j];
      }
    }
  }

  /** A result is kept exactly when some file of some response passes both filters and normalises to it. */
  lemma {:induction false} KeptMembership(rs: seq<GatewayResponse>, x: FileResult)
    ensures x in Kept(rs) <==> exists i, j :: KeptAt(rs, i, j, x)
    decreases |rs|
  {
    if |rs| > 0 {
      KeptMembership(rs[1..], x);
      var r := rs[0];
      if ResponsePasses(r) {
        KeptFilesMembership(r, r.files, x);
      }
      if exists i, j :: KeptAt(rs, i, j, x) {
        var i, j :| KeptAt(rs, i, j, x);
        if i > 0 {
          assert KeptAt(rs[1..], i - 1, j, x);
        } else {
          assert x in KeptFromResponse(r);
        }
      }
      if exists i, j :: KeptAt(rs[1..], i, j, x) {
        var i, j :| KeptAt(rs[1..], i, j, x);
        assert KeptAt(rs, i + 1, j, x);
      }
      if x in KeptFromResponse(r) {
        var j :| 0 <= j < |r.files| && FilePasses(r.files[j]) && x == Normalise(r, r.files[j]);
        assert KeptAt(rs, 0, j, x);
      }
    }
  }

  /**
   * A peer whose response lacks `queueLength` (taken as 999) or
   * `uploadSpeed` (taken as 0) contributes nothing.
   */
  lemma MissingFieldsDropResponse(r: GatewayResponse)
    requires r.queueLength.None? || r.uploadSpeed.None?
    ensures KeptFromResponse(r) == []
  {
  }

  /** The sort key: FLAC first, then higher bitrate, then shorter queue. */
  function SearchKey(x: FileResult): (k: seq<int>)
    ensures |k| == 3 && (k[0] == 0 || k[0] == 1)
    ensures k[0] == 0 <==> AsciiLower(x.extension) == ".flac"
    ensures k[1] == -x.bitrate && k[2] == x.queueCount
  {
    [if AsciiLower(x.extension) == ".flac" then 0 else 1, -x.bitrate, x.queueCount]
  }

  /**
   * The list one poll stores: the kept files, stably sorted by `SearchKey`,
   * cut to the first 20. It holds the 20 best-ranked kept files: nothing
   * left out ranks strictly before anything stored; and among files with
   * equal keys it holds the earliest-arriving ones, in arrival order.
   */
  function StoredList(rs: seq<GatewayResponse>): (r: seq<FileResult>)
    ensures |r| == Min(ResultLimit, |Kept(rs)|)
    ensures multiset(r) <= multiset(Kept(rs))
    ensures forall i :: 0 <= i < |r| ==> Admissible(r[i])
    ensures SortedBy(r, SearchKey)
    ensures forall x, y :: x in r && y in multiset(Kept(rs)) - multiset(r)
                           ==> LexLe(SearchKey(x), SearchKey(y))
    ensures forall k :: FilterKey(r, SearchKey, k) <= FilterKey(Kept(rs), SearchKey, k)
  {
    var sorted := SortBy(Kept(rs), SearchKey);
    var n := Min(ResultLimit, |sorted|);
    SortedPrefix(sorted, SearchKey, n);
    StableSortPrefix(Kept(rs), SearchKey, n);
    AdmissibleSubset(sorted[..n], Kept(rs));
    sorted[..n]
  }

  lemma AdmissibleSubset(r: seq<FileResult>, s: seq<FileResult>)
    requires multiset(r) <= multiset(s)
    requires forall i :: 0 <= i < |s| ==> Admissible(s[i])
    ensures forall i :: 0 <= i < |r| ==> Admissible(r[i])
  {
    forall i | 0 <= i < |r|
      ensures Admissible(r[i])
    {
      assert r[i] in multiset(s);
      var k :| 0 <= k < |s| && s[k] == r[i];
    }
  }

  /** The allowed extensions other than ".flac" do not lower-case to ".flac". */
  lemma FlacPriority(x: FileResult)
    requires Admissible(x)
    ensures SearchKey(x)[0] == 0 <==> x.extension == ".flac"
  {
    assert AsciiLower(".flac") == ".flac";
    assert AsciiLower(".mp3") != ".flac" by { assert |AsciiLower(".mp3")| == 4; }
    assert AsciiLower(".wav") != ".flac" by { assert |AsciiLower(".wav")| == 4; }
  }

  /**
   * The stored order in the source's words: FLAC files before all others,
   * then higher bitrate first, then lower queue count first.
   */
  lemma StoredOrder(rs: seq<GatewayResponse>, i: int, j: int)
    requires 0 <= i < j
    ensures var r := StoredList(rs);
            j < |r| ==>
              var flacI := r[i].extension == ".flac";
              var flacJ := r[j].extension == ".flac";
              && (flacJ ==> flacI)
              && (flacI == flacJ ==> r[i].bitrate >= r[j].bitrate)
              && ((flacI == flacJ && r[i].bitrate == r[j].bitrate) ==> r[i].queueCount <= r[j].queueCount)
  {
    var r := StoredList(rs);
    if j < |r| {
      KeyOrder(r[i], r[j]);
    }
  }

  /** What `SearchKey(x) <= SearchKey(y)` means for two admissible results. */
  lemma KeyOrder(x: FileResult, y: FileResult)
    requires Admissible(x) && Admissible(y)
    requires LexLe(SearchKey(x), SearchKey(y))
    ensures y.extension == ".flac" ==> x.extension == ".flac"
    ensures (x.extension == ".flac") == (y.extension == ".flac") ==> x.bitrate >= y.bitrate
    ensures (x.extension == ".flac") == (y.extension == ".flac") && x.bitrate == y.bitrate
            ==> x.queueCount <= y.queueCount
  {
    FlacPriority(x);
    FlacPriority(y);
    var a, b := SearchKey(x), SearchKey(y);
    if a[0] == b[0] && a[1] == b[1] {
      assert LexLe(a[1..], b[1..]);
      assert a[1..][1..] == [x.queueCount] && b[1..][1..] == [y.queueCount];
      assert LexLe([x.queueCount], [y.queueCount]);
    }
  }

  /** A reply that stores something: a list of responses that is not empty. */
  predicate Stores(reply: PollReply) {
    reply.Responses? && |reply.responses| > 0
  }

  /**
   * One poll attempt. A failed call or an empty response list leaves the
   * results alone; otherwise the token's list is replaced, not extended.
   */
  function PollStep(results: map<int, seq<FileResult>>, token: int, reply: PollReply)
    : (r: map<int, seq<FileResult>>)
    ensures r.Keys == if Stores(reply) then results.Keys + {token} else results.Keys
    ensures forall t :: t in results && t != token ==> r[t] == results[t]
    ensures !Stores(reply) ==> r == results
    ensures Stores(reply) ==> r[token] == StoredList(reply.responses)
  {
    if Stores(reply) then results[token := StoredList(reply.responses)] else results
  }

  /** What a poll stores for its token does not depend on what was stored before. */
  lemma PollStepReplaces(a: map<int, seq<FileResult>>, b: map<int, seq<FileResult>>, token: int,
                         reply: PollReply)
    requires Stores(reply)
    ensures PollStep(a, token, reply)[token] == PollStep(b, token, reply)[token]
  {
  }

  function ApplyReplies(results: map<int, seq<FileResult>>, token: int, replies: seq<PollReply>)
    : (r: map<int, seq<FileResult>>)
    ensures r.Keys <= results.Keys + {token}
    ensures forall t :: t in results && t != token ==> t in r && r[t] == results[t]
    decreases |replies|
  {
    if |replies| == 0 then results
    else ApplyReplies(PollStep(results, token, replies[0]), token, replies[1..])
  }

  /** The responses of the last reply in `replies` that stores something. */
  function LastStored(replies: seq<PollReply>): Option<seq<GatewayResponse>>
    decreases |replies|
  {
    if |replies| == 0 then None
    else match LastStored(replies[1..])
      case Some(rs) => Some(rs)
      case None => if Stores(replies[0]) then Some(replies[0].responses) else None
  }

  /**
   * `poll()`: nothing without a gateway search id; otherwise the first four
   * replies are applied in turn (the poller does not stop early).
   */
  function PollSearch(results: map<int, seq<FileResult>>, token: int, searchId: Option<string>,
                      replies: seq<PollReply>): (r: map<int, seq<FileResult>>)
    ensures searchId.None? || searchId.value == "" ==> r == results
    ensures r.Keys <= results.Keys + {token}
    ensures forall t :: t in results && t != token ==> t in r && r[t] == results[t]
  {
    if searchId.None? || searchId.value == "" then results
    else ApplyReplies(results, token, replies[..Min(PollAttempts, |replies|)])
  }

  /** Applying replies in turn leaves exactly the list of the last storing reply. */
  lemma {:induction false} ApplyRepliesLastWins(results: map<int, seq<FileResult>>, token: int,
                                                replies: seq<PollReply>)
    ensures ApplyReplies(results, token, replies)
            == match LastStored(replies)
               case None => results
               case Some(rs) => results[token := StoredList(rs)]
    decreases |replies|
  {
    if |replies| > 0 {
      ApplyRepliesLastWins(PollStep(results, token, replies[0]), token, replies[1..]);
    }
  }

  /**
   * The whole poller: only the token's entry can change, and it ends up as
   * the list built from the last of the first four replies that stores
   * something; later replies are never read.
   */
  lemma PollSearchOutcome(results: map<int, seq<FileResult>>, token: int, searchId: Option<string>,
                          replies: seq<PollReply>)
    ensures var r := PollSearch(results, token, searchId, replies);
            var used := replies[..Min(PollAttempts, |replies|)];
            && (searchId.None? || searchId.value == "" ==> r == results)
            && (searchId.Some? && searchId.value != "" ==>
                  r == match LastStored(used)
                       case None => results
                       case Some(rs) => results[token := StoredList(rs)])
            && (|replies| > PollAttempts ==>
                  r == PollSearch(results, token, searchId, replies[..PollAttempts]))
  {
    ApplyRepliesLastWins(results, token, replies[..Min(PollAttempts, |replies|)]);
    if |replies| > PollAttempts {
      assert replies[..PollAttempts][..PollAttempts] == replies[..PollAttempts];
    }
  }
}
