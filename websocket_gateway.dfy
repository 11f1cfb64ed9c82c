/**
 * The backend's WebSocket gateway (websocket.gateway.ts): which clients are
 * connected, which ids were ever seen, and the one frame each incoming
 * message is answered with.
 *
 * Everything a client is sent is appended to `emitted`, tagged with the
 * client's id. The clock reading, the client's user agent and the result of
 * running a command are parameters; frame ids (`crypto.randomUUID`) and
 * timestamps are not modelled.
 */
module WebSocketGateway {
  import opened Wrappers
  import opened JsText

  /** `ConnectionState`: what is stored for a connected client. */
  datatype ConnectionState = ConnectionState(status: string, connectedAt: int, reconnectAttempts: int)

  /** `ConnectionData.status` of the connection event. */
  datatype ConnectionStatus = Connected | Reconnected

  /** An incoming message: its `type`, and `data.command` when that is a string. */
  datatype Message = Message(msgType: string, command: Option<string>)

  /**
   * How `executeCommand` ended: with an output, or by throwing; a thrown
   * `Error` carries its message, anything else thrown carries none.
   */
  datatype Execution = Returned(output: string) | Threw(message: Option<string>)

  /** The `data` of a `message` frame: an error, a command's output, or the fixed response. */
  datatype Frame = ErrorFrame(error: string) | OutputFrame(output: string) | Response(data: string)

  datatype Emission =
    | ConnectionEvent(clientId: string, status: ConnectionStatus, userAgent: Option<string>)
    | MessageEvent(clientId: string, frame: Frame)

  const NotFoundMarker: string := "command not found"
  const NotFoundMarkerJa: string := "コマンドが見つかりません"
  const ExecutionError: string := "コマンド実行中にエラーが発生しました"
  const NoCommandError: string := "コマンドが指定されていません"
  const Received: string := "Message received"

  /** The gateway's test for output that reports a failed command. */
  predicate ReportsFailure(output: string) {
    Includes(output, NotFoundMarker) || Includes(output, NotFoundMarkerJa) || Includes(output, ExecutionError)
  }

  /**
   * The frame `handleMessage` sends back. `execution` is consulted only
   * when the message is of type `message` and carries a command.
   */
  function Route(message: Message, execution: Execution): (r: Frame)
    ensures r.Response? ==> r.data == Received
    ensures r.OutputFrame? ==> !ReportsFailure(r.output)
  {
    if message.msgType == "message" then
      if message.command.Some? then
        match execution
        case Returned(output) => if ReportsFailure(output) then ErrorFrame(output) else OutputFrame(output)
        case Threw(error) => ErrorFrame(error.GetOr(ExecutionError))
      else ErrorFrame(NoCommandError)
    else Response(Received)
  }

  /**
   * Which kind of frame answers which message: the fixed response exactly
   * for types other than `message`; the output exactly for a command that
   * returned output reporting no failure; an error otherwise.
   */
  lemma RouteKinds(message: Message, execution: Execution)
    ensures Route(message, execution).Response? <==> message.msgType != "message"
    ensures Route(message, execution).OutputFrame? <==>
      message.msgType == "message" && message.command.Some? && execution.Returned? && !ReportsFailure(execution.output)
    ensures Route(message, execution).ErrorFrame? <==>
      message.msgType == "message" &&
      (message.command.None? || execution.Threw? || (execution.Returned? && ReportsFailure(execution.output)))
  {
  }

  /** A command's output is passed on verbatim, whichever frame carries it. */
  lemma OutputPassedOn(command: string, output: string)
    ensures Route(Message("message", Some(command)), Returned(output)) in {ErrorFrame(output), OutputFrame(output)}
  {
  }

  /** Output that mentions a missing command is answered with an error carrying that output. */
  lemma NotFoundIsError(command: string, before: string, after: string)
    ensures Route(Message("message", Some(command)), Returned(before + NotFoundMarker + after))
      == ErrorFrame(before + NotFoundMarker + after)
  {
    var output := before + NotFoundMarker + after;
    assert output[|before|..|before| + |NotFoundMarker|] == NotFoundMarker;
    assert OccursAt(output, NotFoundMarker, |before|);
  }

  /** Output in which the three markers cannot occur, such as a listing, is answered as output. */
  lemma PlainOutputPassed(command: string, output: string)
    requires 'c' !in output && 'コ' !in output
    ensures Route(Message("message", Some(command)), Returned(output)) == OutputFrame(output)
  {
    MissingLetter(output, NotFoundMarker, 'c');
    MissingLetter(output, NotFoundMarkerJa, 'コ');
    MissingLetter(output, ExecutionError, 'コ');
  }

  /** A thrown `Error` sends its message; anything else thrown sends the generic execution error. */
  lemma ThrownIsError(command: string, error: Option<string>)
    ensures Route(Message("message", Some(command)), Threw(error))
      == ErrorFrame(if error.Some? then error.value else ExecutionError)
  {
  }

  /** `WebSocketGateway`. */
  class Gateway {
    var connected: map<string, ConnectionState>
    /** `connectionHistory`: every id that ever connected. */
    var history: set<string>
    var emitted: seq<Emission>

    /** A connected client has been seen, and is stored as freshly connected. */
    ghost predicate Valid()
      reads this
    {
      && connected.Keys <= history
      && forall id | id in connected :: connected[id].status == "connected" && connected[id].reconnectAttempts == 0
    }

    constructor()
      ensures Valid() && connected == map[] && history == {} && emitted == []
    {
      connected := map[];
      history := {};
      emitted := [];
    }

    /**
     * `handleConnection`: the id joins the history and is stored as
     * connected at `now`, replacing what was stored under it; the client is
     * told it reconnected exactly when its id was in the history before.
     */
    method HandleConnection(clientId: string, userAgent: Option<string>, now: int)
      requires Valid()
      modifies this
      ensures Valid()
      ensures history == old(history) + {clientId}
      ensures connected == old(connected)[clientId := ConnectionState("connected", now, 0)]
      ensures emitted == old(emitted) +
        [ConnectionEvent(clientId, if clientId in old(history) then Reconnected else Connected, userAgent)]
    {
      var isReconnection := clientId in history;
      history := history + {clientId};
      connected := connected[clientId := ConnectionState("connected", now, 0)];
      var status := if isReconnection then Reconnected else Connected;
      emitted := emitted + [ConnectionEvent(clientId, status, userAgent)];
    }

    /** `handleDisconnect`: the id is no longer connected, but stays in the history. */
    method HandleDisconnect(clientId: string)
      requires Valid()
      modifies this
      ensures Valid()
      ensures connected == old(connected) - {clientId}
      ensures history == old(history) && emitted == old(emitted)
    {
      connected := connected - {clientId};
    }

    /** `handleMessage`: exactly one frame is sent back to the client, and nothing else changes. */
    method HandleMessage(clientId: string, message: Message, execution: Execution)
      modifies this
      ensures emitted == old(emitted) + [MessageEvent(clientId, Route(message, execution))]
      ensures connected == old(connected) && history == old(history)
    {
      var frame: Frame;
      if message.msgType == "message" {
        if message.command.Some? {
          match execution {
            case Returned(output) =>
              if Includes(output, NotFoundMarker) || Includes(output, NotFoundMarkerJa) || Includes(output, ExecutionError) {
                frame := ErrorFrame(output);
              } else {
                frame := OutputFrame(output);
              }
            case Threw(error) =>
              frame := ErrorFrame(if error.Some? then error.value else ExecutionError);
          }
        } else {
          frame := ErrorFrame(NoCommandError);
        }
      } else {
        frame := Response(Received);
      }
      emitted := emitted + [MessageEvent(clientId, frame)];
    }

    /** `getConnectedClientsCount`: the number of distinct ids connected now. */
    function GetConnectedClientsCount(): (n: nat)
      reads this
      ensures n == |connected.Keys|
    {
      |connected|
    }

    /** `getClientConnectionState`: the stored state of a connected id, nothing for any other id. */
    function GetClientConnectionState(clientId: string): (r: Option<ConnectionState>)
      requires Valid()
      reads this
      ensures r.None? <==> clientId !in connected
      ensures r.Some? ==> r.value.status == "connected" && r.value.reconnectAttempts == 0
    {
      if clientId in connected then Some(connected[clientId]) else None
    }
  }

  /**
   * One client connecting twice counts once and is told it reconnected;
   * after it leaves it has no state and is not counted; coming back, it is
   * again told it reconnected.
   */
  method ReconnectScenario() returns (statuses: seq<ConnectionStatus>, countTwice: nat, countGone: nat,
                                      stateGone: Option<ConnectionState>, countBack: nat)
    ensures statuses == [Connected, Reconnected, Reconnected]
    ensures countTwice == 1 && countGone == 0 && stateGone == None && countBack == 1
  {
    var gateway := new Gateway();
    var id := "client-1";
    gateway.HandleConnection(id, None, 0);
    gateway.HandleConnection(id, None, 1);
    countTwice := gateway.GetConnectedClientsCount();
    gateway.HandleDisconnect(id);
    countGone := gateway.GetConnectedClientsCount();
    stateGone := gateway.GetClientConnectionState(id);
    gateway.HandleConnection(id, None, 2);
    countBack := gateway.GetConnectedClientsCount();
    assert gateway.connected.Keys == {id};
    statuses := [gateway.emitted[0].status, gateway.emitted[1].status, gateway.emitted[2].status];
  }

  /** Two different clients are counted separately, and both are told they connected. */
  method TwoClientsScenario() returns (count: nat, first: ConnectionStatus, second: ConnectionStatus)
    ensures count == 2 && first == Connected && second == Connected
  {
    var gateway := new Gateway();
    gateway.HandleConnection("client-a", None, 0);
    gateway.HandleConnection("client-b", None, 0);
    assert gateway.connected.Keys == {"client-a", "client-b"};
    count := gateway.GetConnectedClientsCount();
    first, second := gateway.emitted[0].status, gateway.emitted[1].status;
  }
}
