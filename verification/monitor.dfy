/**
 * The download monitor (`_monitor_download.monitor` in slskd_manager.py):
 * each attempt reads the user's transfers from the gateway, overwrites the
 * status of the matching transfer, and the loop stops at a terminal state
 * or after 300 attempts. The attempts become a sequence of gateway replies.
 */
module Monitor {
  import opened Common
  import opened SessionState

  /** A transfer as the gateway lists it; absent fields are `None`. */
  datatype Transfer = Transfer(
    filename: Option<string>,
    state: Option<string>,
    bytesTransferred: Option<int>,
    size: Option<int>,
    averageSpeed: Option<real>)

  /** One call to the gateway's per-user transfer listing: an error, or the files of each directory. */
  datatype TransferReply = TransferRaised | Directories(directories: seq<seq<Transfer>>)

  const MonitorAttempts := 300
  const UnknownState := "Unknown"

  /**
   * The monitor's state table: the gateway's "Completed" is reported as
   * "Finished"; every other state, the four known ones included, is passed
   * through unchanged; a transfer without a state reads as "Unknown".
   */
  function MapState(state: Option<string>): (s: string)
    ensures state == Some("Completed") ==> s == Finished
    ensures state.Some? && state.value != "Completed" ==> s == state.value
    ensures state.None? ==> s == UnknownState
  {
    match state
    case None => UnknownState
    case Some(st) => if st == "Completed" then Finished else st
  }

  /** Exactly the gateway states "Completed", "Finished", "Failed" and "Cancelled" end monitoring. */
  lemma MapStateTerminal(state: Option<string>)
    ensures IsTerminal(MapState(state)) <==>
              state in {Some("Completed"), Some(Finished), Some(Failed), Some(Cancelled)}
  {
  }

  /** `progress / total * 100`, or 0 when the total is not positive. */
  function Percent(progress: int, total: int): (p: real)
    ensures total <= 0 ==> p == 0.0
    ensures total > 0 ==> p * (total as real) == (progress as real) * 100.0
    ensures 0 <= progress <= total ==> 0.0 <= p <= 100.0
  {
    if total > 0 then (progress as real) / (total as real) * 100.0 else 0.0
  }

  /** The status entry the monitor writes for a transfer it has matched. */
  function Observed(t: Transfer): (s: DownloadStatus)
    ensures s.queuePosition.None?
    ensures t.size.GetOr(0) <= 0 ==> s.percent == 0.0
  {
    var progress := t.bytesTransferred.GetOr(0);
    var total := t.size.GetOr(0);
    DownloadStatus(MapState(t.state), progress, total, Percent(progress, total),
                   t.averageSpeed.GetOr(0.0), None)
  }

  /** The files of every directory, directory by directory, in order. */
  function Flatten(dirs: seq<seq<Transfer>>): (r: seq<Transfer>)
    ensures forall i, j :: 0 <= i < |dirs| && 0 <= j < |dirs[i]| ==> dirs[i][j] in r
    ensures forall t :: t in r ==> exists i :: 0 <= i < |dirs| && t in dirs[i]
    decreases |dirs|
  {
    if |dirs| == 0 then [] else dirs[0] + Flatten(dirs[1..])
  }

  predicate Matches(t: Transfer, path: string) {
    t.filename == Some(path)
  }

  /** Some transfer for `path` is in a terminal state. */
  predicate StopsIn(ts: seq<Transfer>, path: string) {
    exists i :: 0 <= i < |ts| && Matches(ts[i], path) && IsTerminal(MapState(ts[i].state))
  }

  predicate StopsOn(reply: TransferReply, path: string) {
    reply.Directories? && StopsIn(Flatten(reply.directories), path)
  }

  /** A transfer for `path` whose state ends monitoring. */
  predicate TerminalMatch(t: Transfer, path: string) {
    Matches(t, path) && IsTerminal(MapState(t.state))
  }

  /** Position `i` holds the first transfer for `path` in a terminal state. */
  ghost predicate FirstTerminalAt(ts: seq<Transfer>, path: string, i: int) {
    && 0 <= i < |ts| && TerminalMatch(ts[i], path)
    && forall k :: 0 <= k < i ==> !TerminalMatch(ts[k], path)
  }

  /** Position `i` holds the last transfer for `path`. */
  ghost predicate LastMatchAt(ts: seq<Transfer>, path: string, i: int) {
    && 0 <= i < |ts| && Matches(ts[i], path)
    && forall k :: i < k < |ts| ==> !Matches(ts[k], path)
  }

  /** The table holds, under `id`, the status observed at the first terminal transfer for `path`. */
  ghost predicate StoresFirstTerminal(ts: seq<Transfer>, path: string, m: map<string, DownloadStatus>, id: string) {
    id in m && exists i :: FirstTerminalAt(ts, path, i) && m[id] == Observed(ts[i])
  }

  /** The table holds, under `id`, the status observed at the last transfer for `path`. */
  ghost predicate StoresLastMatch(ts: seq<Transfer>, path: string, m: map<string, DownloadStatus>, id: string) {
    id in m && exists i :: LastMatchAt(ts, path, i) && m[id] == Observed(ts[i])
  }

  /**
   * What holds of the tail of a scan carries over to the whole sequence,
   * with every position shifted by one.
   */
  lemma ShiftStored(ts: seq<Transfer>, path: string, m: map<string, DownloadStatus>, id: string)
    requires |ts| > 0
    ensures !TerminalMatch(ts[0], path) && StoresFirstTerminal(ts[1..], path, m, id)
            ==> StoresFirstTerminal(ts, path, m, id)
    ensures StoresLastMatch(ts[1..], path, m, id) ==> StoresLastMatch(ts, path, m, id)
  {
    var rest := ts[1..];
    if !TerminalMatch(ts[0], path) && id in m
       && exists i :: FirstTerminalAt(rest, path, i) && m[id] == Observed(rest[i]) {
      var i :| FirstTerminalAt(rest, path, i) && m[id] == Observed(rest[i]);
      assert forall k :: 1 <= k < i + 1 ==> ts[k] == rest[k - 1];
      assert FirstTerminalAt(ts, path, i + 1);
    }
    if id in m && exists i :: LastMatchAt(rest, path, i) && m[id] == Observed(rest[i]) {
      var i :| LastMatchAt(rest, path, i) && m[id] == Observed(rest[i]);
      assert forall k :: i + 1 < k < |ts| ==> ts[k] == rest[k - 1];
      assert LastMatchAt(ts, path, i + 1);
    }
  }

  /** The outcome of one monitor attempt: the status table and whether to stop. */
  datatype Step = Step(statuses: map<string, DownloadStatus>, stop: bool)

  /** Keys other than `id` are the same in both tables. */
  ghost predicate OnlyKeyChanged(a: map<string, DownloadStatus>, b: map<string, DownloadStatus>, id: string) {
    forall k :: k != id ==> (k in a <==> k in b) && (k in a ==> a[k] == b[k])
  }

  /**
   * Scans the transfers in order: each one for `path` overwrites the status
   * under `id`, and the scan ends at the first such transfer whose state is
   * terminal. So the stored status is that of the first terminal transfer
   * for `path` when there is one, and otherwise that of the last transfer
   * for `path`.
   */
  function Scan(statuses: map<string, DownloadStatus>, id: string, path: string, ts: seq<Transfer>)
    : (r: Step)
    ensures OnlyKeyChanged(statuses, r.statuses, id)
    ensures r.stop <==> StopsIn(ts, path)
    ensures r.stop ==> id in r.statuses && IsTerminal(r.statuses[id].status)
    ensures (forall i :: 0 <= i < |ts| ==> !Matches(ts[i], path)) ==> r.statuses == statuses
    ensures (exists i :: 0 <= i < |ts| && Matches(ts[i], path)) ==>
              id in r.statuses &&
              exists i :: 0 <= i < |ts| && Matches(ts[i], path) && r.statuses[id] == Observed(ts[i])
    ensures r.stop ==> StoresFirstTerminal(ts, path, r.statuses, id)
    ensures !r.stop && (exists i :: 0 <= i < |ts| && Matches(ts[i], path)) ==>
              StoresLastMatch(ts, path, r.statuses, id)
    decreases |ts|
  {
    if |ts| == 0 then Step(statuses, false)
    else
      var rest := ts[1..];
      assert forall i :: 0 <= i < |rest| ==> rest[i] == ts[i + 1];
      if Matches(ts[0], path) then
        var next := statuses[id := Observed(ts[0])];
        if IsTerminal(next[id].status) then
          assert FirstTerminalAt(ts, path, 0);
          assert StoresFirstTerminal(ts, path, next, id);
          Step(next, true)
        else
          var r := Scan(next, id, path, rest);
          assert StopsIn(ts, path) ==> StopsIn(rest, path);
          ShiftStored(ts, path, r.statuses, id);
          assert (forall i :: 0 <= i < |rest| ==> !Matches(rest[i], path)) ==> LastMatchAt(ts, path, 0);
          assert (forall i :: 0 <= i < |rest| ==> !Matches(rest[i], path)) ==> StoresLastMatch(ts, path, next, id);
          r
      else
        var r := Scan(statuses, id, path, rest);
        assert StopsIn(ts, path) ==> StopsIn(rest, path);
        ShiftStored(ts, path, r.statuses, id);
        r
  }

  /** One monitor attempt: a failed gateway call changes nothing and the loop goes on. */
  function MonitorStep(statuses: map<string, DownloadStatus>, id: string, path: string,
                       reply: TransferReply): (r: Step)
    ensures OnlyKeyChanged(statuses, r.statuses, id)
    ensures r.stop <==> StopsOn(reply, path)
    ensures r.stop ==> id in r.statuses && IsTerminal(r.statuses[id].status)
    ensures reply.TransferRaised? ==> r == Step(statuses, false)
    ensures reply.Directories? ==> r == Scan(statuses, id, path, Flatten(reply.directories))
  {
    match reply
    case TransferRaised => Step(statuses, false)
    case Directories(dirs) => Scan(statuses, id, path, Flatten(dirs))
  }

  /**
   * The status table after monitor attempts answered by `replies`, one
   * attempt per reply, in order.
   */
  function Replay(statuses: map<string, DownloadStatus>, id: string, path: string,
                  replies: seq<TransferReply>): (r: map<string, DownloadStatus>)
    ensures OnlyKeyChanged(statuses, r, id)
    decreases |replies|
  {
    if |replies| == 0 then statuses
    else MonitorStep(Replay(statuses, id, path, replies[..|replies| - 1]), id, path, replies[|replies| - 1]).statuses
  }

  /** One more attempt extends the replay by one step. */
  lemma ReplayExtend(statuses: map<string, DownloadStatus>, id: string, path: string,
                     replies: seq<TransferReply>, n: nat)
    requires n < |replies|
    ensures Replay(statuses, id, path, replies[..n + 1])
            == MonitorStep(Replay(statuses, id, path, replies[..n]), id, path, replies[n]).statuses
  {
    assert replies[..n + 1][..n] == replies[..n];
  }

  /**
   * The monitor loop. It makes at most 300 attempts (and at most one per
   * reply), returns right after the first attempt that sees a terminal
   * state, leaving that state stored, and touches no other download's entry.
   * Whether or not it stops, the table holds what the attempts it made
   * last observed.
   */
  method MonitorDownload(statuses: map<string, DownloadStatus>, id: string, path: string,
                         replies: seq<TransferReply>)
    returns (final: map<string, DownloadStatus>, polls: nat, stopped: bool)
    ensures polls <= MonitorAttempts && polls <= |replies|
    ensures forall i :: 0 <= i < polls - 1 ==> !StopsOn(replies[i], path)
    ensures stopped ==> polls >= 1 && StopsOn(replies[polls - 1], path)
    ensures stopped ==> id in final && IsTerminal(final[id].status)
    ensures !stopped ==> (polls == MonitorAttempts || polls == |replies|)
                         && forall i :: 0 <= i < polls ==> !StopsOn(replies[i], path)
    ensures OnlyKeyChanged(statuses, final, id)
    ensures final == Replay(statuses, id, path, replies[..polls])
  {
    final, polls, stopped := statuses, 0, false;
    while polls < MonitorAttempts && polls < |replies| && !stopped
      invariant polls <= MonitorAttempts && polls <= |replies|
      invariant forall i :: 0 <= i < polls - 1 ==> !StopsOn(replies[i], path)
      invariant stopped ==> polls >= 1 && StopsOn(replies[polls - 1], path)
      invariant !stopped ==> forall i :: 0 <= i < polls ==> !StopsOn(replies[i], path)
      invariant stopped ==> id in final && IsTerminal(final[id].status)
      invariant final == Replay(statuses, id, path, replies[..polls])
      decreases MonitorAttempts - polls
    {
      ReplayExtend(statuses, id, path, replies, polls);
      var step := MonitorStep(final, id, path, replies[polls]);
      final, stopped, polls := step.statuses, step.stop, polls + 1;
    }
  }
}
