/**
 * The game session as the server runs it: an object whose fields the
 * handlers update in place. Every method is proved to perform exactly the
 * transition `SessionRules` defines for it, so the laws proved about those
 * transitions hold of the object.
 */
module Sessions {
  import opened Wrappers
  import opened JsValues
  import Util
  import opened Protocol
  import Timers
  import opened SessionRules
  import SessionLaws

  class Session {
    var kind: Util.GameType
    var sockets: seq<SocketId>
    var metadataSet: bool
    var done: bool
    var winner: Option<int>
    var reason: Reason
    var ready: seq<bool>
    var waiting: seq<bool>
    var timers: Timers.TimerTable
    var passed: seq<bool>
    var hiddenMove: Option<ServerPausingMove>
    var playedMoves: seq<PlayedMove>
    var game: GameView
    var age: int
    var outbox: seq<seq<Message>>
    var completions: nat

    /** The session's fields as one value. */
    function State(): SessionState
      reads this
    {
      SessionState(kind, sockets, metadataSet, done, winner, reason, ready, waiting, timers,
        passed, hiddenMove, playedMoves, game, age, outbox, completions)
    }

    predicate Valid()
      reads this
    {
      SessionRules.Valid(State())
    }

    /** A pausing or realtime session of two sockets over the engine's initial state. */
    constructor (kind: Util.GameType, sockets: seq<SocketId>, game: GameView)
      requires |sockets| == 2 && WellFormed(game)
      ensures State() == Initial(kind, sockets, game) && Valid()
    {
      this.kind := kind;
      this.sockets := sockets;
      metadataSet := false;
      done := false;
      winner := None;
      reason := Ongoing;
      ready := [false, false];
      waiting := [false, false];
      timers := Timers.Initial();
      passed := [false, false];
      hiddenMove := None;
      playedMoves := [];
      this.game := game;
      age := 0;
      outbox := [[], []];
      completions := 0;
    }

    /** `player.send(m)` */
    method Send(i: nat, m: Message)
      requires i < |outbox|
      modifies this
      ensures State() == SessionRules.Send(old(State()), i, m)
    {
      outbox := outbox[i := outbox[i] + [m]];
    }

    /** `players.forEach(p => p.send(m))` */
    method Broadcast(m: Message)
      requires |outbox| == 2
      modifies this
      ensures State() == SessionRules.Broadcast(old(State()), m)
    {
      for k := 0 to 2
        invariant |outbox| == 2
        invariant forall j :: 0 <= j < k ==> outbox[j] == old(outbox[j]) + [m]
        invariant forall j :: k <= j < 2 ==> outbox[j] == old(outbox[j])
        invariant State() == old(State()).(outbox := outbox)
      {
        Send(k, m);
      }
    }

    /** `waitForMove(i)`: clear the old timer, arm a new one. */
    method WaitForMove(i: nat)
      requires i < 2 && |waiting| == 2 && |timers.handles| == 2
      modifies this
      ensures State() == SessionRules.WaitForMove(old(State()), i)
    {
      waiting := waiting[i := true];
      timers := Timers.Rearm(timers, i);
    }

    /** `sendResult()` */
    method SendResult()
      requires |outbox| == 2
      modifies this
      ensures State() == SessionRules.SendResult(old(State()))
    {
      if done {
        return;
      }
      Broadcast(GameResult(winner, reason));
    }

    /** `complete()`: the run of the completion callback is counted. */
    method Complete()
      modifies this
      ensures State() == SessionRules.Complete(old(State()))
    {
      if done {
        return;
      }
      done := true;
      var k := 0;
      while k < |timers.handles|
        invariant Timers.CancelFrom(timers, k) == Timers.CancelFrom(old(timers), 0)
        invariant |timers.handles| == |old(timers.handles)|
        invariant State() == old(State()).(done := true, timers := timers)
        decreases |timers.handles| - k
      {
        timers := Timers.Cancel(timers, k);
        k := k + 1;
      }
      completions := completions + 1;
    }

    /** `disqualifyPlayer(p, reason)` */
    method DisqualifyPlayer(p: nat, why: Reason)
      requires |outbox| == 2
      modifies this
      ensures State() == SessionRules.DisqualifyPlayer(old(State()), p, why)
    {
      winner := Some(1 - p);
      reason := why;
      SendResult();
      Complete();
    }

    /** Player p's move timer fires. */
    method TimerFires(p: nat)
      requires Valid() && p < 2 && Timers.IsArmed(timers, p)
      modifies this
      ensures State() == SessionRules.TimerFires(old(State()), p)
    {
      timers := Timers.Fire(timers, p);
      DisqualifyPlayer(p, Timeout);
    }

    /** `disconnect(player)`: every other player is told it won. */
    method Disconnect(socket: SocketId)
      requires |sockets| == 2 && |outbox| == 2
      modifies this
      ensures State() == DisconnectSocket(old(State()), socket)
    {
      if done {
        return;
      }
      for i := 0 to 2
        invariant |sockets| == 2 && |outbox| == 2 && !done
        invariant DisconnectFrom(State(), socket, i) == DisconnectFrom(old(State()), socket, 0)
      {
        if sockets[i] != socket {
          winner := Some(i);
          reason := Reason.Disconnect;
          Send(i, GameResult(winner, reason));
        }
      }
      Complete();
    }

    /** The subclasses' `start()`: set the metadata, then each player gets its parameters and is awaited. */
    method Start()
      requires |ready| == 2 && |waiting| == 2 && |timers.handles| == 2 && |outbox| == 2
      modifies this
      ensures State() == SessionRules.Start(old(State()))
    {
      metadataSet := true;
      for i := 0 to 2
        invariant |ready| == 2 && |waiting| == 2 && |timers.handles| == 2 && |outbox| == 2
        invariant StartFrom(State(), i) == SessionRules.Start(old(State()))
      {
        StartPlayer(i);
      }
    }

    /** One turn of `start()`: player i is no longer ready, gets the parameters and is awaited. */
    method StartPlayer(i: nat)
      requires i < 2 && |ready| == 2 && |waiting| == 2 && |timers.handles| == 2 && |outbox| == 2
      modifies this
      ensures State() == SessionRules.WaitForMove(SessionRules.Send(old(State()).(ready := old(ready)[i := false]), i, GameParams(i)), i)
      ensures |ready| == 2 && |waiting| == 2 && |timers.handles| == 2 && |outbox| == 2
    {
      ready := ready[i := false];
      Send(i, GameParams(i));
      WaitForMove(i);
    }

    /** `postGo()`: in a pausing game every player gets every player's first piece. */
    method PostGo()
      requires |outbox| == 2 && WellFormed(game)
      modifies this
      ensures State() == SessionRules.PostGo(old(State()))
    {
      if kind.Realtime? {
        return;
      }
      for k := 0 to 2
        invariant |outbox| == 2 && game == old(game)
        invariant forall j :: 0 <= j < k ==> outbox[j] == old(outbox[j]) + FirstPieces(game)
        invariant forall j :: k <= j < 2 ==> outbox[j] == old(outbox[j])
        invariant State() == old(State()).(outbox := outbox)
      {
        for j := 0 to 2
          invariant |outbox| == 2 && game == old(game)
          invariant outbox[k] == old(outbox[k]) + FirstPieces(game)[..j]
          invariant forall l :: 0 <= l < 2 && l != k ==> outbox[l] == old(State()).(outbox := outbox).outbox[l]
          invariant forall l :: 0 <= l < k ==> outbox[l] == old(outbox[l]) + FirstPieces(game)
          invariant forall l :: k < l < 2 ==> outbox[l] == old(outbox[l])
          invariant State() == old(State()).(outbox := outbox)
        {
          assert FirstPieces(game)[..j + 1] == FirstPieces(game)[..j] + [PieceMessage(game.age, j, game.nextPiece[j])];
          Send(k, PieceMessage(game.age, j, game.nextPiece[j]));
        }
      }
    }

    /** `postTick(game)` */
    method PostTick(v: GameView)
      requires |outbox| == 2 && WellFormed(v)
      modifies this
      ensures State() == SessionRules.PostTick(old(State()), v)
    {
      if done {
        return;
      }
      if v.lockedOut[0] && v.lockedOut[1] {
        winner := None;
        reason := DoubleLockout;
        SendResult();
        Complete();
      } else if v.lockedOut[0] || v.lockedOut[1] {
        winner := Some(if v.lockedOut[0] then 1 else 0);
        reason := Lockout;
        SendResult();
        Complete();
      } else if v.consecutiveRerolls[0] >= Util.MAX_CONSECUTIVE_REROLLS && v.consecutiveRerolls[1] >= Util.MAX_CONSECUTIVE_REROLLS {
        winner := None;
        reason := Impasse;
        SendResult();
        Complete();
      } else if v.age > MAX_GAME_AGE {
        winner := None;
        reason := MaxTimeExceeded;
        SendResult();
        Complete();
      }
    }

    /** `onMessage(player, content)` */
    method OnMessage(socket: SocketId, msg: ClientMessage, e: EngineInput) returns (o: Outcome)
      requires Valid() && InputOk(State(), socket, msg, e)
      modifies this
      ensures (State(), o) == SessionRules.OnMessage(old(State()), socket, msg, e)
    {
      if done {
        return Handled;
      }
      var i := IndexOf(sockets, socket);
      match msg
      case Ready =>
        OnReady(i);
        o := Handled;
      case SimpleStateRequest =>
        Send(i, SimpleState(e.simpleState));
        o := Handled;
      case Result(text) =>
        o := OnResult(i, text);
      case PausingMoveRequest(c) =>
        o := OnPausingRequest(i, c, e);
      case RealtimeMoveRequest(c) =>
        o := OnRealtimeRequest(i, c, e);
      case OtherRequest =>
        o := Handled;
    }

    /** A `ready` message: once every player is ready, `go` to all, then `postGo`. */
    method OnReady(i: nat)
      requires Valid() && i < 2
      modifies this
      ensures State() == SessionRules.OnReady(old(State()), i)
    {
      ready := ready[i := true];
      if ready[0] && ready[1] {
        Broadcast(Go);
        PostGo();
      }
    }

    /** A `result` message: the sender concedes. */
    method OnResult(i: nat, text: JsValue) returns (o: Outcome)
      requires Valid() && i < 2
      modifies this
      ensures (State(), o) == SessionRules.OnResult(old(State()), i, text)
    {
      winner := Some(1 - i);
      var clamped := Util.ClampValue(text, Util.MAX_STRING_LENGTH);
      if clamped.Err? {
        return Threw(Sanitize(clamped.error));
      }
      reason := Reported(clamped.value);
      SendResult();
      Complete();
      o := Handled;
    }

    /** A `pausing move` message: ignored unless awaited, then accepted and handed to `onMove`. */
    method OnPausingRequest(i: nat, c: Util.MoveContent, e: EngineInput) returns (o: Outcome)
      requires Valid() && i < 2 && !done && (kind.Pausing? ==> PausingInputOk(State(), i, c, e))
      modifies this
      ensures (State(), o) == SessionRules.OnPausingRequest(old(State()), i, c, e)
    {
      if !waiting[i] {
        return Handled;
      }
      AcceptMove(i);
      if kind.Pausing? {
        o := PausingOnMove(i, c, e);
      } else {
        o := Threw(WrongMoveType);
      }
    }

    /** A `realtime move` message: accepted whether or not awaited, then handed to `onMove`. */
    method OnRealtimeRequest(i: nat, c: Util.MoveContent, e: EngineInput) returns (o: Outcome)
      requires Valid() && i < 2 && !done
      modifies this
      ensures (State(), o) == SessionRules.OnRealtimeRequest(old(State()), i, c, e)
    {
      AcceptMove(i);
      if kind.Realtime? {
        o := RealtimeOnMove(i, c, e);
      } else {
        o := Threw(WrongMoveType);
      }
    }

    /** Clear the mover's timer and stop waiting for it. */
    method AcceptMove(i: nat)
      requires Valid() && !done && i < 2
      modifies this
      ensures State() == SessionRules.AcceptMove(old(State()), i) && Valid() && !done
    {
      Timers.CancelOnly(timers, i);
      timers := Timers.Cancel(timers, i);
      waiting := waiting[i := false];
    }

    /** `PausingSession.onMove(p, content)` */
    method PausingOnMove(p: nat, c: Util.MoveContent, e: EngineInput) returns (o: Outcome)
      requires Valid() && p < 2 && !done && !waiting[p] && PausingInputOk(State(), p, c, e)
      modifies this
      ensures (State(), o) == SessionRules.PausingMove(old(State()), p, c, e)
    {
      var sanitized := Util.SanitizePausingMove(c);
      if sanitized.Err? {
        return Threw(Sanitize(sanitized.error));
      }
      var m := sanitized.value;
      Announce(p, m, e);
      SessionLaws.SettleByLoop(State(), m.Pass?, e.ticks);
      Drain(m.Pass?, e.ticks);
      if done {
        return Handled;
      }
      Deal();
      o := Handled;
    }

    /** Record the move (a placement is played on the engine, a pass is noted) and announce it to every player. */
    method Announce(p: nat, m: Util.PausingMove, e: EngineInput)
      requires Valid() && p < 2 && !done && !waiting[p] && WellFormed(e.afterPlay)
      modifies this
      ensures State() == SessionRules.Announce(old(State()), p, m, e)
    {
      var move: ServerPausingMove;
      if m.Pass? {
        passed := passed[p := true];
        move := PassMove(p, m.passMs);
      } else {
        game := e.afterPlay;
        playedMoves := playedMoves + [e.played];
        move := PlacedMove(m.ms, e.played);
      }
      if waiting[0] && waiting[1] {
        // Hiding the first of simultaneous moves: the mover is no longer awaited.
        assert false;
      } else if hiddenMove.Some? {
        // Revealing a hidden move: nothing is ever hidden.
        assert false;
      } else {
        Broadcast(PausingMoveMessage(move));
      }
    }

    /** The drain loop: tick while everyone is busy, or after a pass while anyone is busy; stop when the game ends. */
    method Drain(pass: bool, ticks: seq<GameView>)
      requires Valid() && !done && AllWellFormed(ticks) && DrainStops(pass, game, ticks)
      modifies this
      ensures State() == DrainLoop(old(State()), pass, ticks)
    {
      var i := 0;
      while Continues(pass, game)
        invariant 0 <= i <= |ticks| && Valid() && !done
        invariant DrainStops(pass, game, ticks[i..])
        invariant DrainLoop(State(), pass, ticks[i..]) == DrainLoop(old(State()), pass, ticks)
        decreases |ticks| - i
      {
        DrainStep(State(), pass, ticks[i..]);
        assert ticks[i..][0] == ticks[i] && ticks[i..][1..] == ticks[i + 1..];
        var stop := TickOnce(ticks[i]);
        i := i + 1;
        if stop {
          return;
        }
      }
    }

    /** One turn of the drain loop: the engine ticks to v and `postTick` judges it; the loop stops once the game is over. */
    method TickOnce(v: GameView) returns (stop: bool)
      requires Valid() && !done && WellFormed(v)
      modifies this
      ensures State() == SessionRules.PostTick(old(State()).(game := v), v)
      ensures Valid() && stop == done
    {
      PostTickKeepsValid(State().(game := v), v);
      game := v;
      PostTick(game);
      stop := done;
    }

    /** The distribution loop: every player neither busy nor awaited gets a piece, an empty one after a pass. */
    method Deal()
      requires Valid() && !done
      modifies this
      ensures State() == DealFrom(old(State()), 0)
    {
      for i := 0 to 2
        invariant Valid() && !done
        invariant DealFrom(State(), i) == DealFrom(old(State()), 0)
      {
        DealTo(i);
      }
    }

    /** One turn of the distribution loop: player i gets its piece and is awaited, if eligible. */
    method DealTo(i: nat)
      requires Valid() && !done && i < 2
      modifies this
      ensures State() == DealStep(old(State()), i) && Valid() && !done
    {
      if !game.busy[i] && !waiting[i] {
        var piece: Piece;
        if passed[i] {
          piece := [];
          passed := passed[i := false];
        } else {
          piece := game.nextPiece[i];
          assert passed == passed[i := false];
        }
        Broadcast(PieceMessage(game.age, i, piece));
        WaitForMove(i);
      }
    }

    /** `RealtimeSession.onMove(p, content)` */
    method RealtimeOnMove(p: nat, c: Util.MoveContent, e: EngineInput) returns (o: Outcome)
      requires Valid() && p < 2
      modifies this
      ensures (State(), o) == SessionRules.RealtimeMove(old(State()), p, c, e)
    {
      var sanitized := Util.SanitizeRealtimeMove(age, c);
      if sanitized.Err? {
        return Threw(Sanitize(sanitized.error));
      }
      var m := sanitized.value;
      if LessThan(m.time, age - MAX_LAG) {
        DisqualifyPlayer(p, Lagging);
        return Handled;
      } else if GreaterThan(m.time, age + MAX_ADVANTAGE) {
        DisqualifyPlayer(p, Advancing);
        return Handled;
      }
      var rejected := e.rejected;
      if |rejected| == 1 && e.rejectsPlayed {
        Send(p, RealtimeMoveMessage(e.played));
        Send(p, Retcon(age, rejected));
      } else {
        Broadcast(RealtimeMoveMessage(e.played));
        if |rejected| > 0 {
          Broadcast(Retcon(age, rejected));
        }
      }
      o := Handled;
    }

    /** `RealtimeSession.tick()`, given the engine's state at the new age and the pieces it reveals. */
    method Tick(v: GameView, pieces: seq<PieceReveal>)
      requires Valid() && WellFormed(v) && forall k :: 0 <= k < |pieces| ==> pieces[k].player < 2
      modifies this
      ensures State() == SessionRules.Tick(old(State()), v, pieces)
    {
      if done || !(ready[0] && ready[1]) {
        return;
      }
      var stop := Age(v);
      if stop {
        return;
      }
      Reveal(pieces);
    }

    /** The age advances and `postTick` judges the engine's new state; the tick stops once the game is over. */
    method Age(v: GameView) returns (stop: bool)
      requires Valid() && !done && WellFormed(v)
      modifies this
      ensures State() == SessionRules.PostTick(old(State()).(age := old(age) + 1), v)
      ensures Valid() && stop == done
    {
      PostTickKeepsValid(State().(age := age + 1), v);
      age := age + 1;
      PostTick(v);
      stop := done;
    }

    /** The piece messages of one tick, each followed by waiting for that player's move. */
    method Reveal(pieces: seq<PieceReveal>)
      requires Valid() && !done && forall k :: 0 <= k < |pieces| ==> pieces[k].player < 2
      modifies this
      ensures State() == RevealPieces(old(State()), pieces)
    {
      ghost var start := State();
      for k := 0 to |pieces|
        invariant Valid() && !done
        invariant RevealPieces(State(), pieces[k..]) == RevealPieces(start, pieces)
      {
        var piece := pieces[k];
        assert pieces[k..][1..] == pieces[k + 1..];
        Timers.RearmOnly(timers, piece.player);
        Broadcast(PieceMessage(piece.time, piece.player, piece.piece));
        WaitForMove(piece.player);
      }
    }
  }

  /** One turn of the drain loop, as `DrainLoop` takes it: the tick is there, and what is left still suffices. */
  lemma DrainStep(s: SessionState, pass: bool, ticks: seq<GameView>)
    requires Valid(s) && !s.done && AllWellFormed(ticks) && DrainStops(pass, s.game, ticks)
    requires Continues(pass, s.game)
    ensures ticks != [] && WellFormed(ticks[0])
    ensures var r := PostTick(s.(game := ticks[0]), ticks[0]);
      Valid(r) && r.game == ticks[0] && AllWellFormed(ticks[1..])
      && (r.done ==> DrainLoop(s, pass, ticks) == r)
      && (!r.done ==> DrainStops(pass, r.game, ticks[1..]) && DrainLoop(s, pass, ticks) == DrainLoop(r, pass, ticks[1..]))
  {
    PostTickKeepsValid(s.(game := ticks[0]), ticks[0]);
  }
}
