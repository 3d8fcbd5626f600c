/**
 * The search routes (search_routes.py): starting a search, and the results
 * poll with its completion heuristic, a small per-token state machine over
 * (last result count, stable-poll counter).
 */
module SearchRoutes {
  import opened Common
  import opened Text
  import opened SessionState
  import Manager

  /** The per-token pair kept across result polls. */
  datatype Counters = Counters(lastCount: int, stable: int)

  /**
   * `last_result_count` and `search_completion_status` together: the two
   * dictionaries are always written and deleted for the same tokens, so one
   * map of pairs stands for both.
   */
  type Tracker = map<int, Counters>

  const StablePolls := 3
  const EnoughResults := 100

  /** The completion rule of a results poll. */
  predicate IsComplete(count: int, stable: int, tokenKnown: bool) {
    (count > 0 && stable >= StablePolls) || count >= EnoughResults || (!tokenKnown && count > 0)
  }

  /** The tracker after a poll, whether the poll reported completion, and the counter it computed. */
  datatype Completion = Completion(tracker: Tracker, complete: bool, stable: int)

  /**
   * One results poll's bookkeeping. An untracked token starts from (0, 0);
   * the counter grows when the count is positive and equal to the last one
   * and is reset otherwise; a complete poll forgets the token, an incomplete
   * one records the count and counter.
   */
  function CompletionStep(tracker: Tracker, token: int, count: nat, tokenKnown: bool): (r: Completion)
    ensures count > 0 && token in tracker && tracker[token].lastCount == count ==>
              r.stable == tracker[token].stable + 1
    ensures !(count > 0 && token in tracker && tracker[token].lastCount == count) ==> r.stable == 0
    ensures r.complete <==> IsComplete(count, r.stable, tokenKnown)
    ensures count == 0 ==> !r.complete
    ensures r.complete ==> r.tracker == tracker - {token}
    ensures !r.complete ==> r.tracker == tracker[token := Counters(count, r.stable)]
  {
    var prev := if token in tracker then tracker[token] else Counters(0, 0);
    var stable := if count == prev.lastCount && count > 0 then prev.stable + 1 else 0;
    var complete := IsComplete(count, stable, tokenKnown);
    if complete then Completion(tracker - {token}, true, stable)
    else Completion(tracker[token := Counters(count, stable)], false, stable)
  }

  /** The completion flags of a run of polls of one token, given each poll's result count. */
  function CompletionRun(tracker: Tracker, token: int, counts: seq<nat>, tokenKnown: bool): seq<bool>
    decreases |counts|
  {
    if |counts| == 0 then []
    else
      var c := CompletionStep(tracker, token, counts[0], tokenKnown);
      [c.complete] + CompletionRun(c.tracker, token, counts[1..], tokenKnown)
  }

  /**
   * Polls of a known token that keep returning the same count `c`
   * (0 < c < 100), starting untracked, are complete exactly on every fourth
   * poll: the first completes on poll 4, then the token starts over.
   */
  lemma {:induction false} SteadyCountCompletesEveryFourthPoll(tracker: Tracker, token: int, c: nat, n: nat)
    requires 0 < c < EnoughResults
    requires token !in tracker
    ensures var flags := CompletionRun(tracker, token, seq(n, _ => c), true);
            |flags| == n && forall k :: 0 <= k < n ==> (flags[k] <==> (k + 1) % 4 == 0)
  {
    SteadyRun(tracker, token, c, n, 0);
  }

  /** Generalisation: a steady run that starts with the token tracked at stable counter `s < 3`. */
  lemma {:induction false} SteadyRun(tracker: Tracker, token: int, c: nat, n: nat, phase: nat)
    requires 0 < c < EnoughResults && phase < 4
    requires phase == 0 ==> token !in tracker
    requires phase > 0 ==> token in tracker && tracker[token] == Counters(c, phase - 1)
    ensures var flags := CompletionRun(tracker, token, seq(n, _ => c), true);
            |flags| == n && forall k :: 0 <= k < n ==> (flags[k] <==> (phase + k + 1) % 4 == 0)
    decreases n
  {
    var counts := seq(n, _ => c);
    if n > 0 {
      var step := CompletionStep(tracker, token, c, true);
      assert step.stable == if phase == 0 then 0 else phase;
      var next := (phase + 1) % 4;
      assert counts[1..] == seq(n - 1, _ => c);
      SteadyRun(step.tracker, token, c, n - 1, next);
      var flags := CompletionRun(tracker, token, counts, true);
      var rest := CompletionRun(step.tracker, token, counts[1..], true);
      assert flags == [step.complete] + rest;
      forall k | 0 < k < n
        ensures flags[k] <==> (phase + k + 1) % 4 == 0
      {
        assert flags[k] == rest[k - 1];
        assert (next + (k - 1) + 1) % 4 == (phase + k + 1) % 4;
      }
    }
  }

  /** The route's scenario: four polls of the same count give incomplete, incomplete, incomplete, complete. */
  lemma FourEqualPolls(tracker: Tracker, token: int, c: nat)
    requires 0 < c < EnoughResults && token !in tracker
    ensures CompletionRun(tracker, token, [c, c, c, c], true) == [false, false, false, true]
  {
    SteadyCountCompletesEveryFourthPoll(tracker, token, c, 4);
    assert seq(4, _ => c) == [c, c, c, c];
  }

  /**
   * Polls of a known token whose count changes every time and stays below
   * 100 are never complete (for instance 1, 2, 3, 4, 5).
   */
  lemma {:induction false} ChangingCountNeverCompletes(tracker: Tracker, token: int, counts: seq<nat>)
    requires token !in tracker || |counts| == 0 || tracker[token].lastCount != counts[0]
    requires forall i :: 0 <= i < |counts| ==> counts[i] < EnoughResults
    requires forall i :: 0 < i < |counts| ==> counts[i] != counts[i - 1]
    ensures var flags := CompletionRun(tracker, token, counts, true);
            |flags| == |counts| && forall k :: 0 <= k < |flags| ==> !flags[k]
    decreases |counts|
  {
    if |counts| > 0 {
      var step := CompletionStep(tracker, token, counts[0], true);
      ChangingCountNeverCompletes(step.tracker, token, counts[1..]);
      var flags := CompletionRun(tracker, token, counts, true);
      assert forall k :: 0 < k < |flags| ==> flags[k] == CompletionRun(step.tracker, token, counts[1..], true)[k - 1];
    }
  }

  /** A search result as the route returns it; quality and length become text. */
  datatype SearchResult = SearchResult(
    path: string,
    size: int,
    username: string,
    extension: Option<string>,
    bitrate: Option<int>,
    quality: Option<string>,
    length: Option<string>)

  /** One stored result as the route returns it: fields copied, quality and length as text. */
  function Format(x: FileResult): (r: SearchResult)
    ensures r.path == x.path && r.size == x.size && r.username == x.username
    ensures r.extension == Some(x.extension) && r.bitrate == Some(x.bitrate)
    ensures r.quality == Some(IntToString(x.quality)) && r.length == Some(x.length)
  {
    SearchResult(x.path, x.size, x.username, Some(x.extension), Some(x.bitrate),
                 Some(IntToString(x.quality)), Some(x.length))
  }

  /** The body of a results poll. */
  datatype ResultsResponse = ResultsResponse(
    results: seq<SearchResult>,
    isComplete: bool,
    resultCount: int,
    actualQuery: string)

  /**
   * `get_search_results` route: the token's stored results, formatted; the
   * completion verdict of the heuristic fed with their number and with
   * whether the manager knows the token; the count; and the token's query
   * text ("" when unknown).
   */
  function GetSearchResults(st: ManagerState, tracker: Tracker, token: int)
    : (r: (Tracker, ResultsResponse))
    ensures var stored := Manager.GetSearchResults(st, token);
            var c := CompletionStep(tracker, token, |stored|, token in st.searchTokens);
            r.0 == c.tracker && r.1.isComplete == c.complete
    ensures var stored := Manager.GetSearchResults(st, token);
      && |r.1.results| == |stored| == r.1.resultCount
      && (forall i :: 0 <= i < |stored| ==> r.1.results[i] == Format(stored[i]))
      && r.1.actualQuery == (if token in st.searchTokens then st.searchTokens[token] else "")
      && (r.1.isComplete <==> r.0 == tracker - {token} && token !in r.0)
      && (|stored| == 0 ==> !r.1.isComplete)
      && (|stored| > 0 && token !in st.searchTokens ==> r.1.isComplete)
      && (|stored| >= EnoughResults ==> r.1.isComplete)
  {
    var stored := Manager.GetSearchResults(st, token);
    var formatted := seq(|stored|, i requires 0 <= i < |stored| => Format(stored[i]));
    var c := CompletionStep(tracker, token, |formatted|, token in st.searchTokens);
    var query := if token in st.searchTokens then st.searchTokens[token] else "";
    (c.tracker, ResultsResponse(formatted, c.complete, |formatted|, query))
  }

  /**
   * The route itself, polled four times for a known token whose stored
   * results stay at the same count between 1 and 99: incomplete three
   * times, complete on the fourth poll, after which the token is untracked
   * again.
   */
  lemma RouteCompletesOnFourthEqualPoll(st: ManagerState, tracker: Tracker, token: int)
    requires token !in tracker && token in st.searchTokens
    requires 0 < |Manager.GetSearchResults(st, token)| < EnoughResults
    ensures var p1 := GetSearchResults(st, tracker, token);
            var p2 := GetSearchResults(st, p1.0, token);
            var p3 := GetSearchResults(st, p2.0, token);
            var p4 := GetSearchResults(st, p3.0, token);
            && !p1.1.isComplete && !p2.1.isComplete && !p3.1.isComplete
            && p4.1.isComplete && p4.0 == tracker
  {
    var n := |Manager.GetSearchResults(st, token)|;
    FourEqualPolls(tracker, token, n);
  }

  /** The search request body. */
  datatype SearchQuery = SearchQuery(artist: Option<string>, song: Option<string>, query: string)

  /** The body of a started search: the token (`None` when the manager's search failed) and the query used. */
  datatype SearchStarted = SearchStarted(searchToken: Option<int>, actualQuery: string)

  /**
   * `search_files` route: 503 without calling the manager when not logged
   * in (so no token is used up); otherwise the manager's token (or `None`)
   * and query.
   */
  function SearchFiles(st: ManagerState, q: SearchQuery, reply: Manager.SearchReply)
    : (r: (ManagerState, Result<SearchStarted, HttpError>))
    ensures !st.loggedIn ==> r.0 == st && r.1 == Err(HttpError(503, "Not connected to Soulseek"))
    ensures st.loggedIn ==> r.1.Ok? && r.0.nextSearchToken == st.nextSearchToken + 1
    ensures st.loggedIn && reply.SearchRaised? ==> r.1.value == SearchStarted(None, q.query)
    ensures st.loggedIn && reply.SearchStarted? ==>
              r.1.value == SearchStarted(Some(st.nextSearchToken), Manager.ResolveTerm(q.artist, q.song, q.query))
    ensures st.loggedIn ==> r.0 == Manager.PerformSearch(st, q.artist, q.song, q.query, reply).state
    ensures st.loggedIn && reply.SearchStarted? ==>
              && r.0.searchTokens == st.searchTokens[st.nextSearchToken := Manager.ResolveTerm(q.artist, q.song, q.query)]
              && r.0.searchResults == st.searchResults[st.nextSearchToken := []]
    ensures st.loggedIn && reply.SearchRaised? ==>
              r.0 == st.(nextSearchToken := st.nextSearchToken + 1)
  {
    if !st.loggedIn then (st, Err(HttpError(503, "Not connected to Soulseek")))
    else
      var o := Manager.PerformSearch(st, q.artist, q.song, q.query, reply);
      (o.state, Ok(SearchStarted(o.token, o.query)))
  }
}
