/**
 * Logging in to the gateway (slskd_manager.py, `initialize_slskd` and
 * `_login_to_slskd`). The gateway's answers are inputs: the first state
 * query, whether the connect request went through, and the replies to the
 * state queries that follow it. The one-second pauses between queries are
 * not modelled; only their number is.
 */
module Login {
  import opened Common
  import opened SessionState

  /** One answer to a server-state query: it raised, or a record whose `state` field may be missing. */
  datatype ServerReply = StateRaised | ServerState(state: Option<string>)

  datatype LoginError =
    | GatewayError     // a state query raised
    | ConnectFailed    // the connect request raised
    | ConnectTimeout   // no "Connected" within the allowed queries

  /** Number of state queries made after a connect request. */
  const ConnectAttempts: nat := 30

  const DisconnectedState := "Disconnected"
  const ConnectedState := "Connected"

  /** A reply that ends the wait: an exception, or the state "Connected". */
  predicate Decisive(p: ServerReply) {
    p.StateRaised? || p == ServerState(Some(ConnectedState))
  }

  /**
   * The wait after a connect request: at most `n` queries, answered by
   * `polls` in order. The first decisive reply within the window decides:
   * "Connected" at position j succeeds after j+1 queries, an exception fails
   * with a gateway error, and a window without either times out.
   */
  function AwaitConnected(polls: seq<ServerReply>, n: nat): (r: Result<nat, LoginError>)
    ensures r != Err(ConnectFailed)
    ensures r.Ok? ==> 1 <= r.value <= Min(n, |polls|)
                      && polls[r.value - 1] == ServerState(Some(ConnectedState))
                      && forall k :: 0 <= k < r.value - 1 ==> !Decisive(polls[k])
    ensures r == Err(ConnectTimeout) <==> forall j :: 0 <= j < Min(n, |polls|) ==> !Decisive(polls[j])
    ensures r == Err(GatewayError) ==>
              exists j :: 0 <= j < Min(n, |polls|) && polls[j].StateRaised?
                          && forall k :: 0 <= k < j ==> !Decisive(polls[k])
    decreases n
  {
    if n == 0 || |polls| == 0 then Err(ConnectTimeout)
    else match polls[0]
      case StateRaised => Err(GatewayError)
      case ServerState(s) =>
        if s == Some(ConnectedState) then Ok(1)
        else
          match AwaitConnected(polls[1..], n - 1)
          case Ok(k) => Ok(k + 1)
          case Err(e) => Err(e)
  }

  /**
   * The first decisive reply within the window decides the wait: "Connected"
   * at position j succeeds after j+1 queries, an exception there fails with a
   * gateway error.
   */
  lemma {:induction false} AwaitConnectedFirstDecisive(polls: seq<ServerReply>, n: nat, j: nat)
    requires j < Min(n, |polls|) && Decisive(polls[j])
    requires forall k :: 0 <= k < j ==> !Decisive(polls[k])
    ensures AwaitConnected(polls, n) == (if polls[j].StateRaised? then Err(GatewayError) else Ok(j + 1))
    decreases n
  {
    if j > 0 {
      assert !Decisive(polls[0]);
      assert forall k :: 0 <= k < j - 1 ==> polls[1..][k] == polls[k + 1];
      AwaitConnectedFirstDecisive(polls[1..], n - 1, j - 1);
    }
  }

  /**
   * `_login_to_slskd`: on success, the number of state queries made after
   * the connect request (zero when no connect was needed). Only the state
   * "Disconnected" triggers a connect; any other state, and a reply with no
   * state at all, counts as already connected.
   */
  function LoginToSlskd(first: ServerReply, connectOk: bool, polls: seq<ServerReply>)
    : (r: Result<nat, LoginError>)
    ensures first.StateRaised? ==> r == Err(GatewayError)
    ensures first.ServerState? && first.state != Some(DisconnectedState) ==> r == Ok(0)
    ensures first == ServerState(Some(DisconnectedState)) && !connectOk ==> r == Err(ConnectFailed)
    ensures first == ServerState(Some(DisconnectedState)) && connectOk ==>
              r != Err(ConnectFailed)
              && (r.Ok? ==> 1 <= r.value <= Min(ConnectAttempts, |polls|)
                            && polls[r.value - 1] == ServerState(Some(ConnectedState))
                            && forall k :: 0 <= k < r.value - 1 ==> !Decisive(polls[k]))
              && (r == Err(GatewayError) ==>
                    exists j :: 0 <= j < Min(ConnectAttempts, |polls|) && polls[j].StateRaised?
                                && forall k :: 0 <= k < j ==> !Decisive(polls[k]))
              && (r == Err(ConnectTimeout) <==>
                    forall j :: 0 <= j < Min(ConnectAttempts, |polls|) ==> !Decisive(polls[j]))
  {
    match first
    case StateRaised => Err(GatewayError)
    case ServerState(s) =>
      if s == Some(DisconnectedState) then
        if !connectOk then Err(ConnectFailed) else AwaitConnected(polls, ConnectAttempts)
      else Ok(0)
  }

  /**
   * `initialize_slskd`: the session is logged in exactly when the login
   * succeeded; every failure is swallowed and leaves it logged out. Nothing
   * else in the session changes.
   */
  function InitializeSlskd(st: ManagerState, first: ServerReply, connectOk: bool,
                           polls: seq<ServerReply>): (r: ManagerState)
    ensures r.(loggedIn := st.loggedIn) == st
    ensures r.loggedIn ==> first.ServerState? && (first.state == Some(DisconnectedState) ==> connectOk)
    ensures first.ServerState? && first.state != Some(DisconnectedState) ==> r.loggedIn
    ensures !r.loggedIn <==> LoginToSlskd(first, connectOk, polls).Err?
  {
    st.(loggedIn := LoginToSlskd(first, connectOk, polls).Ok?)
  }

  /**
   * A disconnected gateway that accepts the connect request and reports
   * "Connected" on the j-th query, with no exception before it, yields a
   * logged-in session, provided j is within the 30 allowed queries.
   */
  lemma ConnectedWithinWindowLogsIn(st: ManagerState, polls: seq<ServerReply>, j: nat)
    requires j < Min(ConnectAttempts, |polls|)
    requires polls[j] == ServerState(Some(ConnectedState))
    requires forall k :: 0 <= k < j ==> !Decisive(polls[k])
    ensures InitializeSlskd(st, ServerState(Some(DisconnectedState)), true, polls).loggedIn
    ensures LoginToSlskd(ServerState(Some(DisconnectedState)), true, polls) == Ok(j + 1)
  {
    AwaitConnectedFirstDecisive(polls, ConnectAttempts, j);
  }

  /** Thirty queries without "Connected" or an exception leave the session logged out. */
  lemma NoConnectedWithinWindowLogsOut(st: ManagerState, polls: seq<ServerReply>)
    requires forall j :: 0 <= j < Min(ConnectAttempts, |polls|) ==> polls[j] != ServerState(Some(ConnectedState))
    ensures !InitializeSlskd(st, ServerState(Some(DisconnectedState)), true, polls).loggedIn
  {
  }
}
