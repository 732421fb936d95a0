/**
 * The game session of the two single-file servers (`WebSocketGameSession`
 * in `src/server.ts` and in `server.ts`) as pure transitions on a
 * `LegacyState` value; the `LegacySession` class performs them in place.
 *
 * A session starts with the player who asked first and is started when a
 * second player joins. `src/server.ts` announces results as a winner index
 * and a reason, `server.ts` tells each player 'win', 'loss' or 'draw'.
 */
module LegacyRules {
  import opened Wrappers
  import opened JsValues
  import Util
  import opened Protocol
  import opened Timers
  import LegacyMoves

  /** Ten virtual minutes at 30 frames per second. */
  const MAX_GAME_AGE: int := 30 * 60 * 10

  /** Which of the two servers: `src/server.ts` or the older `server.ts`. */
  datatype Variant = Src | Root

  /** A result as `server.ts` sends it to one player. */
  datatype Verdict = Win | Loss | Draw

  /** A bag of upcoming pieces, as the engine shows it; never inspected. */
  type Bag = seq<int>

  /** What the sessions read from the engine: per-game busy and locked-out flags and visible bags, the game's reroll count and age. */
  datatype LegacyView = LegacyView(
    busy: seq<bool>, lockedOut: seq<bool>, consecutiveRerolls: int, visibleBag: seq<Bag>, age: int)

  predicate ViewOk(v: LegacyView)
  {
    |v.busy| == 2 && |v.lockedOut| == 2 && |v.visibleBag| == 2
  }

  predicate AllViewsOk(vs: seq<LegacyView>)
  {
    forall k :: 0 <= k < |vs| ==> ViewOk(vs[k])
  }

  /** The move object the sessions send: a pass, or a placement with the cells the engine reports. */
  datatype SentMove =
    | SentPass(player: nat, ms: Util.Millis)
    | SentPlace(player: nat, x1: int, y1: int, x2: int, y2: int, orientation: int, hardDrop: bool, ms: Util.Millis)

  datatype LegacyMessage =
    | LegacyParams(identity: nat)
    | LegacyBag(player: nat, bag: Bag)
    | LegacyResult(winner: Option<int>, reason: Reason)     // src/server.ts
    | LegacyVerdict(result: Verdict, reason: Reason)        // server.ts
    | LegacyTimer(ms: Util.Millis)
    | LegacyMoveMessage(move: SentMove)
    | LegacySimpleState(state: SimpleGame)

  /** What a session is sent, by `type`. */
  datatype LegacyRequest =
    | StateRequest                              // 'simple state request'
    | ResultRequest(reason: JsValue)            // 'result'
    | MoveRequest(content: Util.MoveContent)    // 'move'
    | UnknownRequest                            // any other type

  /** The cells the engine reports for a placement. */
  datatype Placement = Placement(x1: int, y1: int, x2: int, y2: int)

  /** The engine's answers during one message: a placement's cells and state, the states after each tick, a rendered state. */
  datatype LegacyInput = LegacyInput(placement: Placement, afterPlay: LegacyView, ticks: seq<LegacyView>, simpleState: SimpleGame)

  datatype LegacyState = LegacyState(
    variant: Variant,
    sockets: seq<SocketId>,
    done: bool,
    winner: Option<int>,          // the winner `complete` was called with (always None in server.ts)
    waiting: seq<bool>,
    timers: TimerTable,
    hiddenMove: Option<SentMove>,
    game: LegacyView,
    outbox: seq<seq<LegacyMessage>>,
    completions: nat)

  /**
   * One or two players, each with an outbox; a player is awaited exactly
   * while its timer is armed; a session nobody has joined awaits nobody
   * and hides nothing; `complete` ran once exactly when the session is done,
   * and then no timer is armed.
   */
  predicate Valid(s: LegacyState)
  {
    1 <= |s.sockets| <= 2 && |s.outbox| == |s.sockets| && |s.waiting| == 2
    && Timers.Valid(s.timers) && ViewOk(s.game)
    && (s.winner.Some? ==> 0 <= s.winner.value < 2)
    && (s.variant.Root? ==> s.winner.None?)
    && (s.hiddenMove.Some? ==> s.hiddenMove.value.player < 2)
    && s.completions == (if s.done then 1 else 0)
    && (s.done ==> s.timers.armed == {})
    && (!s.done ==> (s.waiting[0] <==> IsArmed(s.timers, 0)) && (s.waiting[1] <==> IsArmed(s.timers, 1)))
    && (|s.sockets| == 1 ==> !s.waiting[0] && !s.waiting[1] && s.timers.armed == {} && s.hiddenMove.None?)
  }

  /** `new WebSocketGameSession(player)`: one player, nobody awaited, no timer. */
  function Initial(variant: Variant, socket: SocketId, game: LegacyView): (s: LegacyState)
    requires ViewOk(game)
    ensures Valid(s) && !s.done && s.sockets == [socket] && s.outbox == [[]]
  {
    LegacyState(variant, [socket], false, None, [false, false], Timers.Initial(), None, game, [[]], 0)
  }

  // ---------------------------------------------------------------------
  // Sending

  function Send(s: LegacyState, i: nat, m: LegacyMessage): LegacyState
    requires i < |s.outbox|
  {
    s.(outbox := s.outbox[i := s.outbox[i] + [m]])
  }

  /** Every outbox with m appended. */
  function AppendAll(boxes: seq<seq<LegacyMessage>>, m: LegacyMessage): (r: seq<seq<LegacyMessage>>)
    ensures |r| == |boxes|
    ensures forall k :: 0 <= k < |boxes| ==> r[k] == boxes[k] + [m]
  {
    if boxes == [] then [] else [boxes[0] + [m]] + AppendAll(boxes[1..], m)
  }

  /** `players.forEach(p => p.send(m))` */
  function Broadcast(s: LegacyState, m: LegacyMessage): LegacyState
  {
    s.(outbox := AppendAll(s.outbox, m))
  }

  // ---------------------------------------------------------------------
  // Timers, completion and results

  /** `timeouts[i] = setTimeout(…)`: a fresh handle, the old one not cleared. */
  function Arm(t: TimerTable, i: nat): TimerTable
    requires i < |t.handles|
  {
    t.(handles := t.handles[i := Some(t.next)], armed := t.armed + {t.next}, next := t.next + 1)
  }

  /** The player is awaited and its timer armed. */
  function WaitFor(s: LegacyState, i: nat): LegacyState
    requires i < 2 && |s.waiting| == 2 && |s.timers.handles| == 2
  {
    s.(waiting := s.waiting[i := true], timers := Arm(s.timers, i))
  }

  /** `complete(winner)`: once only; clears every timer. */
  function Complete(s: LegacyState, winner: Option<int>): LegacyState
  {
    if s.done then s
    else s.(done := true, winner := winner, timers := CancelFrom(s.timers, 0), completions := s.completions + 1)
  }

  /** `sendResult(winner, reason)` of src/server.ts, then `complete(winner)`. */
  function FinishSrc(s: LegacyState, winner: Option<int>, reason: Reason): LegacyState
  {
    Complete(Broadcast(s, LegacyResult(winner, reason)), winner)
  }

  /** How a check after a tick ends the game: the winner, if any, and the reason. */
  datatype Ending = Ending(winner: Option<int>, reason: Reason)

  /**
   * The checks after each tick, in their order: both locked out, one
   * locked out, the reroll impasse (src/server.ts only), the age limit.
   */
  function TickEnding(variant: Variant, v: LegacyView): (r: Option<Ending>)
    requires ViewOk(v)
    ensures r.None? <==>
      !v.lockedOut[0] && !v.lockedOut[1]
      && !(variant.Src? && v.consecutiveRerolls >= Util.MAX_CONSECUTIVE_REROLLS)
      && v.age <= MAX_GAME_AGE
    ensures v.lockedOut[0] && v.lockedOut[1] ==> r == Some(Ending(None, DoubleLockout))
    ensures v.lockedOut[0] != v.lockedOut[1] ==> r == Some(Ending(Some(if v.lockedOut[0] then 1 else 0), Lockout))
    ensures r.Some? && r.value.reason == Impasse ==> variant.Src? && !v.lockedOut[0] && !v.lockedOut[1]
    ensures r.Some? && r.value.reason == MaxTimeExceeded ==>
      !v.lockedOut[0] && !v.lockedOut[1] && !(variant.Src? && v.consecutiveRerolls >= Util.MAX_CONSECUTIVE_REROLLS)
    ensures r.Some? && r.value.winner.Some? ==> r.value.reason == Lockout && 0 <= r.value.winner.value < 2
  {
    if v.lockedOut[0] && v.lockedOut[1] then Some(Ending(None, DoubleLockout))
    else if v.lockedOut[0] || v.lockedOut[1] then Some(Ending(Some(if v.lockedOut[0] then 1 else 0), Lockout))
    else if variant.Src? && v.consecutiveRerolls >= Util.MAX_CONSECUTIVE_REROLLS then Some(Ending(None, Impasse))
    else if v.age > MAX_GAME_AGE then Some(Ending(None, MaxTimeExceeded))
    else None
  }

  /** `server.ts` tells the winner 'win' and then the loser 'loss'. */
  function TellWinner(s: LegacyState, winner: nat, reason: Reason): LegacyState
    requires winner < 2 && |s.outbox| == 2
  {
    Send(Send(s, winner, LegacyVerdict(Win, reason)), 1 - winner, LegacyVerdict(Loss, reason))
  }

  /** Announce an ending after a tick and complete. */
  function EndGame(s: LegacyState, e: Ending): LegacyState
    requires |s.outbox| == 2 && (e.winner.Some? ==> 0 <= e.winner.value < 2)
  {
    if s.variant.Src? then FinishSrc(s, e.winner, e.reason)
    else if e.winner.Some? then Complete(TellWinner(s, e.winner.value, e.reason), None)
    else Complete(Broadcast(s, LegacyVerdict(Draw, e.reason)), None)
  }

  /** The body of the tick loop after the `done` check. */
  function PostTick(s: LegacyState, v: LegacyView): (r: LegacyState)
    requires Valid(s) && |s.sockets| == 2 && ViewOk(v)
    ensures Valid(r) && r.sockets == s.sockets && r.variant == s.variant
    ensures !s.done ==> (r.done <==> TickEnding(s.variant, v).Some?)
  {
    match TickEnding(s.variant, v)
    case None => s
    case Some(e) =>
      EndGameKeepsValid(s, e);
      EndGame(s, e)
  }

  /** `disqualifyPlayer(p)`: the opponent wins by timeout. */
  function DisqualifyPlayer(s: LegacyState, p: nat): LegacyState
    requires p < 2 && |s.outbox| == 2
  {
    if s.variant.Src? then FinishSrc(s, Some(1 - p), Timeout)
    else Complete(Send(Send(s, p, LegacyVerdict(Loss, Timeout)), 1 - p, LegacyVerdict(Win, Timeout)), None)
  }

  /** Player p's timer fires: it is spent and p is disqualified. */
  function TimerFires(s: LegacyState, p: nat): LegacyState
    requires Valid(s) && p < 2 && IsArmed(s.timers, p)
  {
    assert |s.sockets| == 2;
    DisqualifyPlayer(s.(timers := Fire(s.timers, p)), p)
  }

  /** What `disconnect` sends player i, who is not the leaver. */
  function DisconnectNotice(variant: Variant, i: nat): LegacyMessage
  {
    if variant.Src? then LegacyResult(Some(i), Reason.Disconnect) else LegacyVerdict(Win, Reason.Disconnect)
  }

  /** The notices of `disconnect`, to every player from index i on whose socket is not the leaver's. */
  function Notify(s: LegacyState, socket: SocketId, i: nat): LegacyState
    requires |s.outbox| == |s.sockets|
    decreases |s.sockets| - i
  {
    if i >= |s.sockets| then s
    else Notify(if s.sockets[i] != socket then Send(s, i, DisconnectNotice(s.variant, i)) else s, socket, i + 1)
  }

  /** The last index whose socket is not the given one: the winner `disconnect` passes to `complete`. */
  function LastOpponent(sockets: seq<SocketId>, socket: SocketId): (r: Option<int>)
    ensures r.Some? ==> 0 <= r.value < |sockets| && sockets[r.value] != socket
    ensures r.Some? ==> forall k :: r.value < k < |sockets| ==> sockets[k] == socket
    ensures r.None? ==> forall k :: 0 <= k < |sockets| ==> sockets[k] == socket
  {
    if sockets == [] then None
    else if sockets[|sockets| - 1] != socket then Some(|sockets| - 1)
    else LastOpponent(sockets[..|sockets| - 1], socket)
  }

  /** `disconnect(player)`, identified by its socket. */
  function Disconnect(s: LegacyState, socket: SocketId): LegacyState
    requires |s.outbox| == |s.sockets|
  {
    if s.done then s
    else Complete(Notify(s, socket, 0), if s.variant.Src? then LastOpponent(s.sockets, socket) else None)
  }

  // ---------------------------------------------------------------------
  // Joining and starting

  /** What `start` sends player i: its parameters, then both visible bags. */
  function StartMessages(i: nat, v: LegacyView): seq<LegacyMessage>
    requires ViewOk(v)
  {
    [LegacyParams(i), LegacyBag(0, v.visibleBag[0]), LegacyBag(1, v.visibleBag[1])]
  }

  /** `start()` from player i on. */
  function StartFrom(s: LegacyState, i: nat): LegacyState
    requires |s.outbox| == 2 && |s.waiting| == 2 && |s.timers.handles| == 2 && ViewOk(s.game)
    decreases 2 - i
  {
    if i >= 2 then s
    else StartFrom(WaitFor(s.(outbox := s.outbox[i := s.outbox[i] + StartMessages(i, s.game)]), i), i + 1)
  }

  /** A second player joins (`session.players.push(player)`) and the session starts. */
  function Join(s: LegacyState, socket: SocketId): (r: LegacyState)
    requires Valid(s) && !s.done && |s.sockets| == 1
    ensures Valid(r) && !r.done && r.sockets == s.sockets + [socket] && r.variant == s.variant
    ensures r.outbox == [s.outbox[0] + StartMessages(0, s.game), StartMessages(1, s.game)]
    ensures r.waiting == [true, true] && r.hiddenMove.None? && r.game == s.game
  {
    var s0 := s.(sockets := s.sockets + [socket], outbox := s.outbox + [[]]);
    assert s0.outbox == [s.outbox[0], []];
    var s1 := WaitFor(s0.(outbox := s0.outbox[0 := s0.outbox[0] + StartMessages(0, s0.game)]), 0);
    ArmOnly(s0.timers, 0);
    ArmOnly(s1.timers, 1);
    assert s1.outbox == [s.outbox[0] + StartMessages(0, s.game), []];
    assert [] + StartMessages(1, s.game) == StartMessages(1, s.game);
    var s2 := WaitFor(s1.(outbox := s1.outbox[1 := s1.outbox[1] + StartMessages(1, s1.game)]), 1);
    assert StartFrom(s1, 1) == s2;
    assert s2.outbox == [s.outbox[0] + StartMessages(0, s.game), StartMessages(1, s.game)];
    StartFrom(s0, 0)
  }

  // ---------------------------------------------------------------------
  // A move

  /** The tick-loop condition: every game is busy, or it was a pass and some game is busy. */
  predicate Continues(pass: bool, v: LegacyView)
    requires ViewOk(v)
  {
    (v.busy[0] && v.busy[1]) || (pass && (v.busy[0] || v.busy[1]))
  }

  /**
   * The engine's ticks run out no earlier than the tick loop stops: a tick
   * is taken while the condition holds, and the loop returns at the first
   * tick taken once the session is done.
   */
  predicate Enough(variant: Variant, pass: bool, v: LegacyView, ticks: seq<LegacyView>, done: bool)
    requires ViewOk(v) && AllViewsOk(ticks)
    decreases |ticks|
  {
    !Continues(pass, v)
    || (ticks != [] && (done || Enough(variant, pass, ticks[0], ticks[1..], TickEnding(variant, ticks[0]).Some?)))
  }

  /** Where the tick loop leaves the engine, and the ending the checks announced, if any. */
  datatype Drained = Drained(view: LegacyView, ended: Option<Ending>)

  /**
   * The tick loop's reference definition, by what it sees rather than what
   * it does: ticks are taken while the condition holds; the first tick whose
   * checks find an ending ends the game; a session already done takes one
   * more tick when the condition holds and stops there.
   */
  function Drain(variant: Variant, pass: bool, v: LegacyView, ticks: seq<LegacyView>, done: bool): (d: Drained)
    requires ViewOk(v) && AllViewsOk(ticks) && Enough(variant, pass, v, ticks, done)
    ensures ViewOk(d.view)
    ensures !Continues(pass, v) ==> d == Drained(v, None)
    ensures done && Continues(pass, v) ==> d == Drained(ticks[0], None)
    ensures d.ended.Some? ==> !done && Continues(pass, v) && (d.ended.value.winner.Some? ==> 0 <= d.ended.value.winner.value < 2)
    ensures !done && d.ended.None? ==> !Continues(pass, d.view) && (d.view != v ==> TickEnding(variant, d.view).None?)
    decreases |ticks|
  {
    if !Continues(pass, v) then Drained(v, None)
    else if done then Drained(ticks[0], None)
    else match TickEnding(variant, ticks[0])
      case Some(e) => Drained(Drain(variant, pass, ticks[0], ticks[1..], true).view, Some(e))
      case None => Drain(variant, pass, ticks[0], ticks[1..], false)
  }

  /** The tick loop: tick, return if done, check the new state; again while the condition holds. */
  function DrainLoop(s: LegacyState, pass: bool, ticks: seq<LegacyView>): (r: LegacyState)
    requires Valid(s) && |s.sockets| == 2 && AllViewsOk(ticks) && Enough(s.variant, pass, s.game, ticks, s.done)
    ensures Valid(r) && r.sockets == s.sockets && r.variant == s.variant
    ensures !r.done ==> !Continues(pass, r.game)
    decreases |ticks|
  {
    if !Continues(pass, s.game) then s
    else
      var s1 := s.(game := ticks[0]);
      if s1.done then s1 else DrainLoop(PostTick(s1, ticks[0]), pass, ticks[1..])
  }

  /** One round of the bag loop: a player neither busy nor awaited gets its bag broadcast and is awaited. */
  function DealStep(s: LegacyState, i: nat): (r: LegacyState)
    requires Valid(s) && !s.done && |s.sockets| == 2 && i < 2
    ensures Valid(r) && !r.done && r.sockets == s.sockets && r.variant == s.variant
  {
    if !s.game.busy[i] && !s.waiting[i] then
      ArmOnly(s.timers, i);
      WaitFor(Broadcast(s, LegacyBag(i, s.game.visibleBag[i])), i)
    else s
  }

  /** The bag loop from player i on. */
  function DealFrom(s: LegacyState, i: nat): (r: LegacyState)
    requires Valid(s) && !s.done && |s.sockets| == 2
    ensures Valid(r) && !r.done && r.sockets == s.sockets && r.variant == s.variant
    decreases 2 - i
  {
    if i >= 2 then s else DealFrom(DealStep(s, i), i + 1)
  }

  /** The move object sent for a sanitised move, with the engine's cells for a placement. */
  function Sent(m: LegacyMoves.LegacyMove, p: Placement): SentMove
  {
    match m
    case LegacyPass(player, ms) => SentPass(player, ms)
    case LegacyPlace(player, _, _, orientation, hardDrop, ms) =>
      SentPlace(player, p.x1, p.y1, p.x2, p.y2, orientation, hardDrop, ms)
  }

  /**
   * Hide, reveal or broadcast. When every player is awaited (the mover
   * still counts as awaited here), the opponent gets only the mover's
   * clock and the move is kept back; otherwise a kept-back move is first
   * shown to the player who has not seen it, then the move goes to all.
   */
  function Announce(s: LegacyState, i: nat, move: SentMove): (r: LegacyState)
    requires i < 2 && |s.outbox| == 2 && |s.waiting| == 2
    requires s.hiddenMove.Some? ==> s.hiddenMove.value.player < 2
    ensures r == s.(outbox := r.outbox, hiddenMove := r.hiddenMove) && |r.outbox| == 2
    ensures r.hiddenMove.Some? ==> r.hiddenMove == s.hiddenMove || r.hiddenMove == Some(move)
  {
    if s.waiting[0] && s.waiting[1] then
      Send(Send(s, 1 - i, LegacyTimer(move.ms)), i, LegacyMoveMessage(move)).(hiddenMove := Some(move))
    else if s.hiddenMove.Some? then
      var h := s.hiddenMove.value;
      Broadcast(Send(s, 1 - h.player, LegacyMoveMessage(h)).(hiddenMove := None), LegacyMoveMessage(move))
    else Broadcast(s, LegacyMoveMessage(move))
  }

  /** The engine's answers fit a move of player i. */
  predicate MoveInputOk(s: LegacyState, i: nat, c: Util.MoveContent, e: LegacyInput)
    requires ViewOk(s.game)
  {
    ViewOk(e.afterPlay) && AllViewsOk(e.ticks)
    && match LegacyMoves.SanitizeMove(i, c).0
      case Err(_) => true
      case Ok(m) => Enough(s.variant, m.LegacyPass?, if m.LegacyPass? then s.game else e.afterPlay, e.ticks, false)
  }

  /** An accepted move: its timer is cleared, a placement is played, the move announced and the mover no longer awaited. */
  function Accept(s: LegacyState, i: nat, m: LegacyMoves.LegacyMove, e: LegacyInput): (r: LegacyState)
    requires Valid(s) && !s.done && i < 2 && s.waiting[i] && ViewOk(e.afterPlay) && m.player == i
    ensures Valid(r) && !r.done && |r.sockets| == 2 && r.sockets == s.sockets && r.variant == s.variant
    ensures r.game == (if m.LegacyPass? then s.game else e.afterPlay)
  {
    CancelOnly(s.timers, i);
    var s1 := s.(timers := Cancel(s.timers, i), game := if m.LegacyPass? then s.game else e.afterPlay);
    var s2 := Announce(s1, i, Sent(m, e.placement));
    s2.(waiting := s2.waiting[i := false])
  }

  /** A 'move' from an awaited player. */
  function OnMove(s: LegacyState, i: nat, c: Util.MoveContent, e: LegacyInput): (LegacyState, Outcome)
    requires Valid(s) && !s.done && i < 2 && s.waiting[i] && MoveInputOk(s, i, c, e)
  {
    match LegacyMoves.SanitizeMove(i, c).0
    case Err(err) => (s, Threw(Sanitize(err)))
    case Ok(m) =>
      var s1 := DrainLoop(Accept(s, i, m, e), m.LegacyPass?, e.ticks);
      (if s1.done then s1 else DealFrom(s1, 0), Handled)
  }

  /**
   * A 'result' from player i: the reason is clamped to the variant's
   * default length (a reason that is no string throws) and the sender
   * loses. In `server.ts` a session nobody joined throws at `players[1]`.
   */
  function OnResult(s: LegacyState, i: nat, reason: JsValue): (LegacyState, Outcome)
    requires Valid(s) && !s.done && i < |s.sockets|
  {
    var n := if s.variant.Src? then LegacyMoves.SRC_MAX_LENGTH else LegacyMoves.ROOT_MAX_LENGTH;
    match Util.ClampValue(reason, n)
    case Err(err) => (s, Threw(Sanitize(err)))
    case Ok(text) =>
      if s.variant.Src? then (FinishSrc(s, Some(1 - i), Reported(text)), Handled)
      else if |s.sockets| < 2 then (s, Threw(NoOpponent))
      else (Complete(TellWinner(s, 1 - i, Reported(text)), None), Handled)
  }

  /** The engine's answers fit the message. */
  predicate InputOk(s: LegacyState, socket: SocketId, req: LegacyRequest, e: LegacyInput)
    requires Valid(s)
  {
    socket in s.sockets
    && (req.MoveRequest? && !s.done && s.waiting[IndexOf(s.sockets, socket)] ==>
          MoveInputOk(s, IndexOf(s.sockets, socket), req.content, e))
  }

  /** `message(player, content)`: nothing once done, else by type; a move from a player not awaited is dropped. */
  function OnMessage(s: LegacyState, socket: SocketId, req: LegacyRequest, e: LegacyInput): (LegacyState, Outcome)
    requires Valid(s) && InputOk(s, socket, req, e)
  {
    if s.done then (s, Handled)
    else
      var i := IndexOf(s.sockets, socket);
      match req
      case StateRequest => (Send(s, i, LegacySimpleState(e.simpleState)), Handled)
      case ResultRequest(reason) => OnResult(s, i, reason)
      case MoveRequest(c) => if !s.waiting[i] then (s, Handled) else OnMove(s, i, c, e)
      case UnknownRequest => (s, Handled)
  }

  // ---------------------------------------------------------------------
  // Validity

  /** Arming a player whose timer is not armed keeps the table valid and leaves the other timer alone. */
  lemma ArmOnly(t: TimerTable, i: nat)
    requires Timers.Valid(t) && i < 2 && !IsArmed(t, i)
    ensures var a := Arm(t, i);
      Timers.Valid(a) && IsArmed(a, i) && (IsArmed(a, 1 - i) <==> IsArmed(t, 1 - i))
      && t.armed <= a.armed && a.armed - t.armed == {a.handles[i].value}
  {
  }

  lemma EndGameKeepsValid(s: LegacyState, e: Ending)
    requires Valid(s) && |s.sockets| == 2 && (e.winner.Some? ==> 0 <= e.winner.value < 2)
    ensures var r := EndGame(s, e);
      Valid(r) && r.sockets == s.sockets && r.variant == s.variant && r.done
  {
    if s.variant.Src? {
      CompleteKeepsValid(Broadcast(s, LegacyResult(e.winner, e.reason)), e.winner);
    } else if e.winner.Some? {
      CompleteKeepsValid(TellWinner(s, e.winner.value, e.reason), None);
    } else {
      CompleteKeepsValid(Broadcast(s, LegacyVerdict(Draw, e.reason)), None);
    }
  }

  lemma CompleteKeepsValid(s: LegacyState, w: Option<int>)
    requires Valid(s) && |s.sockets| == 2 && (w.Some? ==> 0 <= w.value < 2) && (s.variant.Root? ==> w.None?)
    ensures Valid(Complete(s, w))
  {
    if !s.done {
      CancelFromDisarms(s.timers, 0);
    }
  }
}
