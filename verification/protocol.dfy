/**
 * The messages a game session exchanges with its two players, and what the
 * session reads from the puzzle engine. The engine itself is not modelled:
 * every value it would compute (a played move, the state after a tick, the
 * moves a time warp rejects) reaches the model as an input.
 */
module Protocol {
  import opened Wrappers
  import opened JsValues
  import Util

  /** A WebSocket's `socketId`. */
  type SocketId = int

  /** The first index holding the socket: `players.indexOf(player)`, players being told apart by socket. */
  function IndexOf(sockets: seq<SocketId>, socket: SocketId): (i: nat)
    requires socket in sockets
    ensures i < |sockets| && sockets[i] == socket
    ensures forall j :: 0 <= j < i ==> sockets[j] != socket
  {
    if sockets[0] == socket then 0 else 1 + IndexOf(sockets[1..], socket)
  }

  /** Why a game ended. A reason reported by a client is kept as its clamped text. */
  datatype Reason =
    | Ongoing
    | Timeout
    | Disconnect
    | DoubleLockout
    | Lockout
    | Impasse
    | MaxTimeExceeded
    | Lagging
    | Advancing
    | Reported(text: JsString)

  /** The colours of a piece, as the engine deals them; never inspected. */
  type Piece = seq<int>

  /** A snapshot the engine renders for a `simple state request`; never inspected. */
  type SimpleGame = seq<int>

  /** What the engine records for a placement. */
  datatype PlayedMove = PlayedMove(
    player: nat, time: int, x1: int, y1: int, x2: int, y2: int, orientation: int, hardDrop: bool)

  /** What the session reads from the engine, per player and for the whole game. */
  datatype GameView = GameView(
    busy: seq<bool>, lockedOut: seq<bool>, consecutiveRerolls: seq<int>, nextPiece: seq<Piece>, age: int)

  /** A duel: every per-player field has one entry per player. */
  predicate WellFormed(v: GameView)
  {
    |v.busy| == 2 && |v.lockedOut| == 2 && |v.consecutiveRerolls| == 2 && |v.nextPiece| == 2
  }

  predicate AllWellFormed(vs: seq<GameView>)
  {
    forall i :: 0 <= i < |vs| ==> WellFormed(vs[i])
  }

  /** A piece the time-warping engine reveals at a given age. */
  datatype PieceReveal = PieceReveal(time: int, player: nat, piece: Piece)

  /** The move a pausing session broadcasts: a pass, or the engine's record of a placement. */
  datatype ServerPausingMove =
    | PassMove(player: nat, msRemaining: Util.Millis)
    | PlacedMove(msRemaining: Util.Millis, played: PlayedMove)

  function MovePlayer(m: ServerPausingMove): nat
  {
    if m.PassMove? then m.player else m.played.player
  }

  /** A message from the server to one player of a session. */
  datatype Message =
    | GameParams(identity: nat)
    | Go
    | GameResult(winner: Option<int>, reason: Reason)
    | PieceMessage(time: int, player: nat, piece: Piece)
    | PausingMoveMessage(move: ServerPausingMove)
    | TimerMessage(player: nat, msRemaining: Util.Millis)
    | RealtimeMoveMessage(played: PlayedMove)
    | Retcon(time: int, rejectedMoves: seq<PlayedMove>)
    | SimpleState(state: SimpleGame)

  /** A message a player sends to its session. */
  datatype ClientMessage =
    | Ready
    | SimpleStateRequest
    | Result(reason: JsValue)
    | PausingMoveRequest(content: Util.MoveContent)
    | RealtimeMoveRequest(content: Util.MoveContent)
    | OtherRequest

  /** What a handler throws. */
  datatype Failure =
    | Sanitize(error: Util.SanitizeError)
    | WrongMoveType
    | NoOpponent    // a message to `players[1]` of a session nobody has joined yet
    | TypeNotString // `startsWith` called on a message type that is no string

  /** How a handler ended: normally, or with an exception that leaves the state as it was when thrown. */
  datatype Outcome = Handled | Threw(failure: Failure)

  /** A connected player: a plain record. */
  datatype Player = Player(
    socket: SocketId, name: JsString, isBot: bool, clientInfo: Option<Util.ClientInfo>,
    authUuid: Option<JsString>, eloRealtime: JsValue, eloPausing: JsValue)

  /** A new player is no bot and rated 1000 in both game types. */
  function NewPlayer(socket: SocketId, name: JsString): (p: Player)
    ensures p.socket == socket && p.name == name && !p.isBot
    ensures p.clientInfo.None? && p.authUuid.None?
    ensures p.eloRealtime == Number(Finite(1000)) && p.eloPausing == Number(Finite(1000))
  {
    Player(socket, name, false, None, None, Number(Finite(1000)), Number(Finite(1000)))
  }
}
