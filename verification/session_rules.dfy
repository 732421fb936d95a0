/**
 * The game-session state machine as pure transitions on a `SessionState`
 * value. The `Session` class performs these transitions in place; the
 * properties of a session are proved here, about the transitions.
 *
 * A session is a duel: players are the indices 0 and 1, and each has an
 * outbox holding every message the session sent to it, in order.
 */
module SessionRules {
  import opened Wrappers
  import opened JsValues
  import Util
  import opened Protocol
  import opened Timers

  /** Frames per second of the engine's clock. */
  const NOMINAL_FRAME_RATE: int := 30
  /** Ten virtual minutes. */
  const MAX_GAME_AGE: int := NOMINAL_FRAME_RATE * 60 * 10
  /** 500 ms in frames: how far a realtime move may lag behind the session. */
  const MAX_LAG: int := 15
  /** 100 ms in frames: how far a realtime move may run ahead of the session. */
  const MAX_ADVANTAGE: int := 3

  datatype SessionState = SessionState(
    kind: Util.GameType,
    sockets: seq<SocketId>,
    metadataSet: bool,
    done: bool,
    winner: Option<int>,
    reason: Reason,
    ready: seq<bool>,
    waiting: seq<bool>,
    timers: TimerTable,
    passed: seq<bool>,
    hiddenMove: Option<ServerPausingMove>,
    playedMoves: seq<PlayedMove>,
    game: GameView,
    age: int,
    outbox: seq<seq<Message>>,
    completions: nat)

  /**
   * A duel's state: one entry per player everywhere, a winner is a player,
   * no move is ever hidden, the completion callback ran once exactly when
   * the session is done, and a finished session has no timer armed.
   */
  predicate Valid(s: SessionState)
  {
    |s.sockets| == 2 && |s.ready| == 2 && |s.waiting| == 2 && |s.passed| == 2 && |s.outbox| == 2
    && Timers.Valid(s.timers) && WellFormed(s.game)
    && (s.winner.Some? ==> 0 <= s.winner.value < 2)
    && s.hiddenMove.None?
    && s.completions == (if s.done then 1 else 0)
    && (s.done ==> s.timers.armed == {})
  }

  /** A new session of the two players' sockets, over the engine's initial state. */
  function Initial(kind: Util.GameType, sockets: seq<SocketId>, game: GameView): (s: SessionState)
    requires |sockets| == 2 && WellFormed(game)
    ensures Valid(s) && !s.done && s.reason == Ongoing && s.winner.None?
    ensures s.ready == [false, false] && s.waiting == [false, false] && s.timers.armed == {}
    ensures s.outbox == [[], []]
  {
    SessionState(kind, sockets, false, false, None, Ongoing, [false, false], [false, false],
      Timers.Initial(), [false, false], None, [], game, 0, [[], []], 0)
  }

  // ---------------------------------------------------------------------
  // Sending

  function Send(s: SessionState, i: nat, m: Message): SessionState
    requires i < |s.outbox|
  {
    s.(outbox := s.outbox[i := s.outbox[i] + [m]])
  }

  /** Both players' outboxes in r are those in s followed by msgs. */
  predicate Received(s: SessionState, r: SessionState, msgs: seq<Message>)
  {
    |s.outbox| == 2 && |r.outbox| == 2 && r.outbox[0] == s.outbox[0] + msgs && r.outbox[1] == s.outbox[1] + msgs
  }

  /** `players.forEach(p => p.send(m))` */
  function Broadcast(s: SessionState, m: Message): (r: SessionState)
    requires |s.outbox| == 2
    ensures Received(s, r, [m])
  {
    s.(outbox := [s.outbox[0] + [m], s.outbox[1] + [m]])
  }

  // ---------------------------------------------------------------------
  // The base session

  /** `waitForMove(i)` */
  function WaitForMove(s: SessionState, i: nat): SessionState
    requires i < 2 && |s.waiting| == 2 && |s.timers.handles| == 2
  {
    s.(waiting := s.waiting[i := true], timers := Rearm(s.timers, i))
  }

  /** `sendResult()` */
  function SendResult(s: SessionState): SessionState
    requires |s.outbox| == 2
  {
    if s.done then s else Broadcast(s, GameResult(s.winner, s.reason))
  }

  /** `complete()`: the callback's run is counted in `completions`. */
  function Complete(s: SessionState): SessionState
  {
    if s.done then s
    else s.(done := true, timers := CancelFrom(s.timers, 0), completions := s.completions + 1)
  }

  /** Set the result, announce it, complete. */
  function Finish(s: SessionState, winner: Option<int>, reason: Reason): SessionState
    requires |s.outbox| == 2
  {
    Complete(SendResult(s.(winner := winner, reason := reason)))
  }

  /** `disqualifyPlayer(p, reason)` */
  function DisqualifyPlayer(s: SessionState, p: nat, reason: Reason): SessionState
    requires |s.outbox| == 2
  {
    Finish(s, Some(1 - p), reason)
  }

  /** What `postTick` decides from the engine's state: the first of four checks that applies. */
  datatype Verdict = Verdict(winner: Option<int>, reason: Reason)

  function PostTickVerdict(v: GameView): (r: Option<Verdict>)
    requires WellFormed(v)
    ensures r.None? <==>
      (!v.lockedOut[0] && !v.lockedOut[1]
       && !(v.consecutiveRerolls[0] >= Util.MAX_CONSECUTIVE_REROLLS && v.consecutiveRerolls[1] >= Util.MAX_CONSECUTIVE_REROLLS)
       && v.age <= MAX_GAME_AGE)
    ensures v.lockedOut[0] || v.lockedOut[1] ==> r.Some? && r.value.reason in {DoubleLockout, Lockout}
    ensures r.Some? && r.value.winner.Some? ==>
      (r.value.reason == Lockout && 0 <= r.value.winner.value < 2
       && !v.lockedOut[r.value.winner.value] && v.lockedOut[1 - r.value.winner.value])
    ensures r.Some? && r.value.reason == Lockout ==> r.value.winner.Some?
  {
    if v.lockedOut[0] && v.lockedOut[1] then Some(Verdict(None, DoubleLockout))
    else if v.lockedOut[0] || v.lockedOut[1] then Some(Verdict(Some(if v.lockedOut[0] then 1 else 0), Lockout))
    else if v.consecutiveRerolls[0] >= Util.MAX_CONSECUTIVE_REROLLS && v.consecutiveRerolls[1] >= Util.MAX_CONSECUTIVE_REROLLS then
      Some(Verdict(None, Impasse))
    else if v.age > MAX_GAME_AGE then Some(Verdict(None, MaxTimeExceeded))
    else None
  }

  /** `postTick(game)` */
  function PostTick(s: SessionState, v: GameView): SessionState
    requires |s.outbox| == 2 && WellFormed(v)
  {
    if s.done then s
    else match PostTickVerdict(v)
      case None => s
      case Some(d) => Finish(s, d.winner, d.reason)
  }

  /** The result `disconnect` sends to every player whose socket is not the leaver's, from index i on. */
  function DisconnectFrom(s: SessionState, socket: SocketId, i: nat): SessionState
    requires |s.sockets| == 2 && |s.outbox| == 2
    decreases 2 - i
  {
    if i >= 2 then s
    else if s.sockets[i] != socket then
      DisconnectFrom(Send(s.(winner := Some(i), reason := Reason.Disconnect), i, GameResult(Some(i), Reason.Disconnect)), socket, i + 1)
    else DisconnectFrom(s, socket, i + 1)
  }

  /** `disconnect(player)`, identified by the player's socket */
  function DisconnectSocket(s: SessionState, socket: SocketId): SessionState
    requires |s.sockets| == 2 && |s.outbox| == 2
  {
    if s.done then s else Complete(DisconnectFrom(s, socket, 0))
  }

  /** `start()`, from player i on: clear the ready flag, send the parameters, wait for a move. */
  function StartFrom(s: SessionState, i: nat): SessionState
    requires |s.ready| == 2 && |s.waiting| == 2 && |s.timers.handles| == 2 && |s.outbox| == 2
    decreases 2 - i
  {
    if i >= 2 then s
    else StartFrom(WaitForMove(Send(s.(ready := s.ready[i := false]), i, GameParams(i)), i), i + 1)
  }

  /** The subclasses' `start()`: set the metadata, then the base `start`. */
  function Start(s: SessionState): SessionState
    requires |s.ready| == 2 && |s.waiting| == 2 && |s.timers.handles| == 2 && |s.outbox| == 2
  {
    StartFrom(s.(metadataSet := true), 0)
  }

  /** The pieces `PausingSession.postGo` sends each player, one per player of the game. */
  function FirstPieces(v: GameView): seq<Message>
    requires WellFormed(v)
  {
    [PieceMessage(v.age, 0, v.nextPiece[0]), PieceMessage(v.age, 1, v.nextPiece[1])]
  }

  /** `postGo()`: only a pausing session sends anything. */
  function PostGo(s: SessionState): SessionState
    requires |s.outbox| == 2 && WellFormed(s.game)
  {
    if s.kind.Pausing? then s.(outbox := [s.outbox[0] + FirstPieces(s.game), s.outbox[1] + FirstPieces(s.game)])
    else s
  }

  /** An accepted move: the mover's timer is cleared and it is no longer awaited. */
  function AcceptMove(s: SessionState, i: nat): SessionState
    requires i < 2 && |s.waiting| == 2 && |s.timers.handles| == 2
  {
    s.(timers := Cancel(s.timers, i), waiting := s.waiting[i := false])
  }

  // ---------------------------------------------------------------------
  // The engine's answers

  /**
   * What the engine computes during one message: the record and state after
   * a placement, the states after each tick, the moves a warp rejects, a
   * rendered state. `rejectsPlayed` says whether the rejected list holds the
   * very move object the placement returned (JavaScript `includes` compares
   * objects by identity, which equal records do not share).
   */
  datatype EngineInput = EngineInput(
    played: PlayedMove, afterPlay: GameView, ticks: seq<GameView>, rejected: seq<PlayedMove>,
    rejectsPlayed: bool, simpleState: SimpleGame)

  // ---------------------------------------------------------------------
  // The pausing session

  /** The tick-drain condition: everyone is busy, or it was a pass and someone is busy. */
  predicate Continues(pass: bool, v: GameView)
    requires WellFormed(v)
  {
    (v.busy[0] && v.busy[1]) || (pass && (v.busy[0] || v.busy[1]))
  }

  /** The engine's state after k of the ticks. */
  function ViewAt(v: GameView, ticks: seq<GameView>, k: nat): GameView
    requires k <= |ticks|
  {
    if k == 0 then v else ticks[k - 1]
  }

  /** The engine's ticks run out no earlier than the drain loop stops. */
  predicate DrainStops(pass: bool, v: GameView, ticks: seq<GameView>)
    requires WellFormed(v) && AllWellFormed(ticks)
    decreases |ticks|
  {
    !Continues(pass, v)
    || (ticks != [] && (PostTickVerdict(ticks[0]).Some? || DrainStops(pass, ticks[0], ticks[1..])))
  }

  /** Where the drain loop stops: the engine's state, the verdict that ended the game if any, and the ticks taken. */
  datatype Drained = Drained(view: GameView, ended: Option<Verdict>, ticks: nat)

  /**
   * The drain loop: tick while the condition holds, and stop as soon as a
   * tick ends the game.
   */
  function Drain(pass: bool, v: GameView, ticks: seq<GameView>): (d: Drained)
    requires WellFormed(v) && AllWellFormed(ticks) && DrainStops(pass, v, ticks)
    ensures d.ticks <= |ticks| && d.view == ViewAt(v, ticks, d.ticks) && WellFormed(d.view)
    ensures forall j :: 0 <= j < d.ticks ==> Continues(pass, ViewAt(v, ticks, j))
    ensures forall j :: 0 < j < d.ticks ==> PostTickVerdict(ViewAt(v, ticks, j)).None?
    ensures d.ended.Some? ==> d.ticks > 0 && d.ended == PostTickVerdict(d.view)
    ensures d.ended.None? ==> !Continues(pass, d.view) && (d.ticks > 0 ==> PostTickVerdict(d.view).None?)
    decreases |ticks|
  {
    if !Continues(pass, v) then Drained(v, None, 0)
    else if PostTickVerdict(ticks[0]).Some? then Drained(ticks[0], PostTickVerdict(ticks[0]), 1)
    else
      var d := Drain(pass, ticks[0], ticks[1..]);
      assert forall j :: 0 <= j <= |ticks[1..]| ==> ViewAt(ticks[0], ticks[1..], j) == ViewAt(v, ticks, j + 1);
      assert forall j :: 0 < j <= d.ticks + 1 ==> ViewAt(v, ticks, j) == ViewAt(ticks[0], ticks[1..], j - 1);
      d.(ticks := d.ticks + 1)
  }

  /**
   * The drain loop as the session runs it, one tick at a time: while the
   * condition holds the engine ticks and `postTick` judges the new state;
   * the loop returns as soon as the game is over.
   */
  function DrainLoop(s: SessionState, pass: bool, ticks: seq<GameView>): (r: SessionState)
    requires Valid(s) && !s.done && AllWellFormed(ticks) && DrainStops(pass, s.game, ticks)
    ensures Valid(r) && (!r.done ==> !Continues(pass, r.game))
    decreases |ticks|
  {
    if !Continues(pass, s.game) then s
    else
      var r := PostTick(s.(game := ticks[0]), ticks[0]);
      PostTickKeepsValid(s.(game := ticks[0]), ticks[0]);
      if r.done then r else DrainLoop(r, pass, ticks[1..])
  }

  /** A player gets a piece after the drain when it is neither busy nor awaited. */
  predicate Eligible(s: SessionState, i: nat)
    requires i < 2 && WellFormed(s.game) && |s.waiting| == 2
  {
    !s.game.busy[i] && !s.waiting[i]
  }

  /** The piece dealt to player i: an empty one after a pass. */
  function DealtPiece(s: SessionState, i: nat): Piece
    requires i < 2 && WellFormed(s.game) && |s.passed| == 2
  {
    if s.passed[i] then [] else s.game.nextPiece[i]
  }

  /** One round of the distribution loop for an eligible player. */
  function DealOne(s: SessionState, i: nat): SessionState
    requires i < 2 && Valid(s) && !s.done
  {
    var piece := DealtPiece(s, i);
    WaitForMove(Broadcast(s.(passed := s.passed[i := false]), PieceMessage(s.game.age, i, piece)), i)
  }

  /** One round of the distribution loop. */
  function DealStep(s: SessionState, i: nat): (r: SessionState)
    requires Valid(s) && !s.done && i < 2
    ensures Valid(r) && !r.done
  {
    if Eligible(s, i) then
      RearmOnly(s.timers, i);
      DealOne(s, i)
    else s
  }

  /** The distribution loop from player i on. */
  function DealFrom(s: SessionState, i: nat): (r: SessionState)
    requires Valid(s) && !s.done
    ensures Valid(r) && !r.done
    decreases 2 - i
  {
    if i >= 2 then s else DealFrom(DealStep(s, i), i + 1)
  }

  /** The engine's answers fit the session: well-formed states, the mover's record, and enough ticks. */
  predicate PausingInputOk(s: SessionState, p: nat, c: Util.MoveContent, e: EngineInput)
    requires WellFormed(s.game)
  {
    WellFormed(e.afterPlay) && AllWellFormed(e.ticks) && e.played.player == p
    && match Util.SanitizePausingMove(c)
      case Err(_) => true
      case Ok(m) => DrainStops(m.Pass?, if m.Pass? then s.game else e.afterPlay, e.ticks)
  }

  /** The move a pausing session announces: the pass of player p, or the engine's record of the placement. */
  function AnnouncedMove(m: Util.PausingMove, p: nat, e: EngineInput): (move: ServerPausingMove)
  {
    if m.Pass? then PassMove(p, m.passMs) else PlacedMove(m.ms, e.played)
  }

  /**
   * The first half of `PausingSession.onMove`: record the pass or the
   * placement, then announce the move.
   */
  function Announce(s: SessionState, p: nat, m: Util.PausingMove, e: EngineInput): (r: SessionState)
    requires Valid(s) && p < 2 && !s.done && !s.waiting[p] && WellFormed(e.afterPlay)
    ensures Valid(r) && !r.done && r.game == (if m.Pass? then s.game else e.afterPlay)
  {
    var s1 := if m.Pass? then s.(passed := s.passed[p := true])
              else s.(game := e.afterPlay, playedMoves := s.playedMoves + [e.played]);
    // The source hides the move when both players are awaited and reveals
    // a hidden one otherwise; the mover is no longer awaited and nothing is
    // ever hidden, so both branches are dead.
    if s1.waiting[0] && s1.waiting[1] then assert false; s1
    else if s1.hiddenMove.Some? then assert false; s1
    else Broadcast(s1, PausingMoveMessage(AnnouncedMove(m, p, e)))
  }

  /** The second half: drain the ticks, then end the game by the verdict that stopped the drain, or deal pieces. */
  function Settle(s: SessionState, pass: bool, ticks: seq<GameView>): SessionState
    requires Valid(s) && !s.done && AllWellFormed(ticks) && DrainStops(pass, s.game, ticks)
  {
    var d := Drain(pass, s.game, ticks);
    var s1 := s.(game := d.view);
    match d.ended
    case Some(v) => Finish(s1, v.winner, v.reason)
    case None => DealFrom(s1, 0)
  }

  /** `PausingSession.onMove(p, content)`, after the base class accepted the move. */
  function PausingMove(s: SessionState, p: nat, c: Util.MoveContent, e: EngineInput): (SessionState, Outcome)
    requires Valid(s) && p < 2 && !s.done && !s.waiting[p] && PausingInputOk(s, p, c, e)
  {
    match Util.SanitizePausingMove(c)
    case Err(err) => (s, Threw(Sanitize(err)))
    case Ok(m) => (Settle(Announce(s, p, m, e), m.Pass?, e.ticks), Handled)
  }

  // ---------------------------------------------------------------------
  // The realtime session

  /** Where a move's claimed time falls around the session's age. */
  datatype Timing = TooLate | TooEarly | InWindow

  /**
   * `time < age - MAX_LAG`, else `time > age + MAX_ADVANTAGE`, compared as
   * JavaScript does: a time that is no number fails both comparisons.
   */
  function Classify(time: JsValue, age: int): (r: Timing)
    ensures ToNumber(time).Finite? ==>
      ((r == TooLate <==> ToNumber(time).value < age - MAX_LAG)
       && (r == TooEarly <==> ToNumber(time).value > age + MAX_ADVANTAGE)
       && (r == InWindow <==> age - MAX_LAG <= ToNumber(time).value <= age + MAX_ADVANTAGE))
    ensures ToNumber(time).NaN? ==> r == InWindow
  {
    if LessThan(time, age - MAX_LAG) then TooLate
    else if GreaterThan(time, age + MAX_ADVANTAGE) then TooEarly
    else InWindow
  }

  /** Who receives what once the engine accepted a realtime move and answered with the rejected list. */
  function Deliver(s: SessionState, p: nat, played: PlayedMove, rejected: seq<PlayedMove>, rejectsPlayed: bool): SessionState
    requires p < 2 && |s.outbox| == 2
  {
    if |rejected| == 1 && rejectsPlayed then
      Send(Send(s, p, RealtimeMoveMessage(played)), p, Retcon(s.age, rejected))
    else
      var s1 := Broadcast(s, RealtimeMoveMessage(played));
      if |rejected| > 0 then Broadcast(s1, Retcon(s.age, rejected)) else s1
  }

  /** `RealtimeSession.onMove(p, content)`, after the base class accepted the move. */
  function RealtimeMove(s: SessionState, p: nat, c: Util.MoveContent, e: EngineInput): (SessionState, Outcome)
    requires Valid(s) && p < 2
  {
    match Util.SanitizeRealtimeMove(s.age, c)
    case Err(err) => (s, Threw(Sanitize(err)))
    case Ok(m) => (Judge(s, p, m, e), Handled)
  }

  /** A sanitized realtime move: disqualify its player when its time is out of the window, else play and deliver it. */
  function Judge(s: SessionState, p: nat, m: Util.RealtimeMove, e: EngineInput): SessionState
    requires Valid(s) && p < 2
  {
    match Classify(m.time, s.age)
    case TooLate => DisqualifyPlayer(s, p, Lagging)
    case TooEarly => DisqualifyPlayer(s, p, Advancing)
    case InWindow => Deliver(s, p, e.played, e.rejected, e.rejectsPlayed)
  }

  /** The piece messages of one realtime tick, each followed by waiting for that player's move. */
  function RevealPieces(s: SessionState, pieces: seq<PieceReveal>): (r: SessionState)
    requires Valid(s) && !s.done && forall k :: 0 <= k < |pieces| ==> pieces[k].player < 2
    ensures Valid(r) && !r.done && r.kind == s.kind && r.sockets == s.sockets
    decreases |pieces|
  {
    if pieces == [] then s
    else
      var q := pieces[0];
      RearmOnly(s.timers, q.player);
      RevealPieces(WaitForMove(Broadcast(s, PieceMessage(q.time, q.player, q.piece)), q.player), pieces[1..])
  }

  /** `RealtimeSession.tick()`, with the engine's state at the new age and the pieces it reveals. */
  function Tick(s: SessionState, v: GameView, pieces: seq<PieceReveal>): SessionState
    requires Valid(s) && WellFormed(v) && forall k :: 0 <= k < |pieces| ==> pieces[k].player < 2
  {
    if s.done || !(s.ready[0] && s.ready[1]) then s
    else
      var s1 := PostTick(s.(age := s.age + 1), v);
      if s1.done then s1
      else
        CompleteKeepsValid(s1);
        RevealPieces(s1, pieces)
  }

  // ---------------------------------------------------------------------
  // Messages and timers

  /** The engine's answers fit the message. */
  predicate InputOk(s: SessionState, socket: SocketId, msg: ClientMessage, e: EngineInput)
    requires Valid(s)
  {
    socket in s.sockets
    && (msg.PausingMoveRequest? && s.kind.Pausing? ==>
          PausingInputOk(s, IndexOf(s.sockets, socket), msg.content, e))
  }

  /** `onMessage(player, content)`: nothing once done, else by the message's type. */
  function OnMessage(s: SessionState, socket: SocketId, msg: ClientMessage, e: EngineInput): (SessionState, Outcome)
    requires Valid(s) && InputOk(s, socket, msg, e)
  {
    if s.done then (s, Handled)
    else
      var i := IndexOf(s.sockets, socket);
      match msg
      case Ready => (OnReady(s, i), Handled)
      case SimpleStateRequest => (Send(s, i, SimpleState(e.simpleState)), Handled)
      case Result(text) => OnResult(s, i, text)
      case PausingMoveRequest(c) => OnPausingRequest(s, i, c, e)
      case RealtimeMoveRequest(c) => OnRealtimeRequest(s, i, c, e)
      case OtherRequest => (s, Handled)
  }

  /** A `ready` message: once every player is ready, `go` to all, then `postGo`. */
  function OnReady(s: SessionState, i: nat): SessionState
    requires Valid(s) && i < 2
  {
    var s1 := s.(ready := s.ready[i := true]);
    if s1.ready[0] && s1.ready[1] then PostGo(Broadcast(s1, Go)) else s1
  }

  /**
   * A `result` message: the sender concedes with its clamped reason. The
   * winner is written before the reason is clamped, so a reason that is no
   * string throws with the winner already set.
   */
  function OnResult(s: SessionState, i: nat, text: JsValue): (SessionState, Outcome)
    requires Valid(s) && i < 2
  {
    match Util.ClampValue(text, Util.MAX_STRING_LENGTH)
    case Err(err) => (s.(winner := Some(1 - i)), Threw(Sanitize(err)))
    case Ok(t) => (Finish(s, Some(1 - i), Reported(t)), Handled)
  }

  /** A `pausing move` message: ignored unless its sender is awaited; then accepted and handed to the session's `onMove`. */
  function OnPausingRequest(s: SessionState, i: nat, c: Util.MoveContent, e: EngineInput): (SessionState, Outcome)
    requires Valid(s) && i < 2 && !s.done && (s.kind.Pausing? ==> PausingInputOk(s, i, c, e))
  {
    if !s.waiting[i] then (s, Handled)
    else
      var s1 := AcceptMove(s, i);
      CancelOnly(s.timers, i);
      if s1.kind.Pausing? then PausingMove(s1, i, c, e) else (s1, Threw(WrongMoveType))
  }

  /** A `realtime move` message: accepted whether or not its sender is awaited, then handed to `onMove`. */
  function OnRealtimeRequest(s: SessionState, i: nat, c: Util.MoveContent, e: EngineInput): (SessionState, Outcome)
    requires Valid(s) && i < 2 && !s.done
  {
    var s1 := AcceptMove(s, i);
    CancelOnly(s.timers, i);
    if s1.kind.Realtime? then RealtimeMove(s1, i, c, e) else (s1, Threw(WrongMoveType))
  }

  /** Player p's move timer fires: the timer is spent and the player is disqualified for a timeout. */
  function TimerFires(s: SessionState, p: nat): SessionState
    requires Valid(s) && p < 2 && IsArmed(s.timers, p)
  {
    DisqualifyPlayer(s.(timers := Fire(s.timers, p)), p, Timeout)
  }

  // ---------------------------------------------------------------------
  // Validity is preserved

  lemma CompleteKeepsValid(s: SessionState)
    requires |s.sockets| == 2 && |s.ready| == 2 && |s.waiting| == 2 && |s.passed| == 2 && |s.outbox| == 2
    requires Timers.Valid(s.timers) && WellFormed(s.game) && (s.winner.Some? ==> 0 <= s.winner.value < 2)
    requires s.hiddenMove.None? && s.completions == (if s.done then 1 else 0)
    requires s.done ==> s.timers.armed == {}
    ensures Valid(s) && Valid(Complete(s))
  {
    if !s.done {
      CancelFromDisarms(s.timers, 0);
    }
  }

  lemma PostTickKeepsValid(s: SessionState, v: GameView)
    requires Valid(s) && WellFormed(v)
    ensures Valid(PostTick(s, v))
  {
    if !s.done && PostTickVerdict(v).Some? {
      var d := PostTickVerdict(v).value;
      CompleteKeepsValid(SendResult(s.(winner := d.winner, reason := d.reason)));
    }
  }
}
