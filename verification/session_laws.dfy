/**
 * What a game session promises, proved about its transitions: a finished
 * session is inert, the result is announced and the completion callback
 * runs once, moves are announced to both players, pieces are dealt exactly
 * to the players who are free, and realtime moves are judged by their time.
 */
module SessionLaws {
  import opened Wrappers
  import opened JsValues
  import Util
  import JsStrings
  import opened Protocol
  import Timers
  import opened SessionRules

  /** r is the same duel as s, and every message in the outboxes of s is still there in r, in order. */
  predicate Extends(s: SessionState, r: SessionState)
  {
    r.kind == s.kind && r.sockets == s.sockets
    && |s.outbox| == 2 && |r.outbox| == 2 && s.outbox[0] <= r.outbox[0] && s.outbox[1] <= r.outbox[1]
  }

  /** Both players' outboxes in r start with those in s followed by msgs. */
  predicate ReceivedFirst(s: SessionState, r: SessionState, msgs: seq<Message>)
  {
    |s.outbox| == 2 && |r.outbox| == 2 && s.outbox[0] + msgs <= r.outbox[0] && s.outbox[1] + msgs <= r.outbox[1]
  }

  // ---------------------------------------------------------------------
  // Ending a game

  /** `complete` runs the callback once: afterwards the session is done, no timer is armed, and completing again changes nothing. */
  lemma CompleteOnce(s: SessionState)
    requires Valid(s)
    ensures var c := Complete(s);
      Valid(c) && c.done && c.completions == 1 && c.timers.armed == {}
      && c.outbox == s.outbox && Complete(c) == c
  {
    CompleteKeepsValid(s);
  }

  /**
   * Disqualifying a player of a live game makes the opponent the winner,
   * announces that result once to both players and completes the game; in
   * a finished game it only overwrites the recorded result.
   */
  lemma Disqualification(s: SessionState, p: nat, reason: Reason)
    requires Valid(s) && p < 2
    ensures var r := DisqualifyPlayer(s, p, reason);
      Valid(r) && r.done && r.completions == 1 && r.timers.armed == {}
      && r.winner == Some(1 - p) && r.reason == reason
    ensures !s.done ==> Received(s, DisqualifyPlayer(s, p, reason), [GameResult(Some(1 - p), reason)])
    ensures s.done ==> DisqualifyPlayer(s, p, reason) == s.(winner := Some(1 - p), reason := reason)
  {
    CompleteKeepsValid(SendResult(s.(winner := Some(1 - p), reason := reason)));
  }

  /** Any result of a live game is announced once to both players before the game completes. */
  lemma FinishAnnounces(s: SessionState, winner: Option<int>, reason: Reason)
    requires Valid(s) && !s.done && (winner.Some? ==> 0 <= winner.value < 2)
    ensures var r := Finish(s, winner, reason);
      Valid(r) && r.done && r.completions == 1 && r.timers.armed == {}
      && r.winner == winner && r.reason == reason
      && r.game == s.game && r.playedMoves == s.playedMoves
      && Received(s, r, [GameResult(winner, reason)])
  {
    CompleteKeepsValid(SendResult(s.(winner := winner, reason := reason)));
  }

  /**
   * A disconnect announces a result only to the players whose socket is not
   * the leaver's, each as the winner, and completes the game. In a duel of
   * two sockets the opponent of the leaver wins by disconnect.
   */
  lemma DisconnectResult(s: SessionState, socket: SocketId)
    requires Valid(s) && !s.done && socket in s.sockets
    ensures var d := DisconnectSocket(s, socket);
      Valid(d) && d.done && d.completions == 1 && d.timers.armed == {} && d.kind == s.kind && d.sockets == s.sockets
      && d.outbox[0] == s.outbox[0] + (if s.sockets[0] != socket then [GameResult(Some(0), Reason.Disconnect)] else [])
      && d.outbox[1] == s.outbox[1] + (if s.sockets[1] != socket then [GameResult(Some(1), Reason.Disconnect)] else [])
    ensures s.sockets[0] != s.sockets[1] ==>
      var d := DisconnectSocket(s, socket);
      d.winner == Some(1 - IndexOf(s.sockets, socket)) && d.reason == Reason.Disconnect
    ensures s.sockets[0] == s.sockets[1] ==>
      var d := DisconnectSocket(s, socket);
      d.winner == s.winner && d.reason == s.reason
  {
    var d0 := DisconnectFrom(s, socket, 0);
    var s1 := if s.sockets[0] != socket then
        Send(s.(winner := Some(0), reason := Reason.Disconnect), 0, GameResult(Some(0), Reason.Disconnect))
      else s;
    assert d0 == DisconnectFrom(s1, socket, 1);
    CompleteKeepsValid(d0);
  }

  /** A finished session ignores messages, ticks and disconnects. */
  lemma DoneIsFinal(s: SessionState, socket: SocketId, msg: ClientMessage, e: EngineInput, v: GameView, pieces: seq<PieceReveal>)
    requires Valid(s) && s.done && WellFormed(v)
    requires InputOk(s, socket, msg, e) && forall k :: 0 <= k < |pieces| ==> pieces[k].player < 2
    ensures OnMessage(s, socket, msg, e) == (s, Handled)
    ensures Tick(s, v, pieces) == s && PostTick(s, v) == s && DisconnectSocket(s, socket) == s
    ensures SendResult(s) == s && Complete(s) == s
  {
  }

  /** A timer can only fire in a live game, and then its player loses by timeout. */
  lemma TimeoutDisqualifies(s: SessionState, p: nat)
    requires Valid(s) && p < 2 && Timers.IsArmed(s.timers, p)
    ensures !s.done
    ensures var r := TimerFires(s, p);
      Valid(r) && r.done && r.winner == Some(1 - p) && r.reason == Timeout && r.kind == s.kind && r.sockets == s.sockets
      && Received(s, r, [GameResult(Some(1 - p), Timeout)])
  {
    var f := s.(timers := Timers.Fire(s.timers, p));
    FinishAnnounces(f, Some(1 - p), Timeout);
  }

  // ---------------------------------------------------------------------
  // Starting a game

  /** `start` sends each player its identity, clears the ready flags, and arms both move timers. */
  lemma StartAwaitsBoth(s: SessionState)
    requires Valid(s) && !s.done
    ensures var t := Start(s);
      Valid(t) && !t.done && t.metadataSet && t.kind == s.kind && t.sockets == s.sockets
      && t.ready == [false, false] && t.waiting == [true, true]
      && Timers.IsArmed(t.timers, 0) && Timers.IsArmed(t.timers, 1)
      && t.outbox[0] == s.outbox[0] + [GameParams(0)] && t.outbox[1] == s.outbox[1] + [GameParams(1)]
  {
    var s0 := s.(metadataSet := true);
    var s1 := WaitForMove(Send(s0.(ready := s0.ready[0 := false]), 0, GameParams(0)), 0);
    Timers.RearmOnly(s0.timers, 0);
    var s2 := WaitForMove(Send(s1.(ready := s1.ready[1 := false]), 1, GameParams(1)), 1);
    Timers.RearmOnly(s1.timers, 1);
    assert Start(s) == s2;
  }

  /**
   * A ready message marks its sender ready; once both are ready, both
   * players get `go`, and in a pausing game then the first pieces.
   */
  lemma ReadyThenGo(s: SessionState, i: nat)
    requires Valid(s) && !s.done && i < 2
    ensures var r := OnReady(s, i);
      Valid(r) && r.ready[i] && r.ready[1 - i] == s.ready[1 - i]
      && (r.ready[0] && r.ready[1] ==> Received(s, r, [Go] + (if s.kind.Pausing? then FirstPieces(s.game) else [])))
      && (!(r.ready[0] && r.ready[1]) ==> r.outbox == s.outbox)
  {
  }

  /** When one socket holds both seats, every message counts as the first seat's, so the game never goes. */
  lemma SelfDuelNeverGoes(s: SessionState, e: EngineInput)
    requires Valid(s) && !s.done && s.sockets[0] == s.sockets[1] && !s.ready[1]
    ensures var (r, _) := OnMessage(s, s.sockets[0], Ready, e);
      !r.ready[1] && r.outbox == s.outbox
  {
  }

  /** A concession: a string reason ends the game for the opponent; anything else throws after recording the opponent as winner, and changes nothing more. */
  lemma ResultConcedes(s: SessionState, i: nat, text: JsValue)
    requires Valid(s) && !s.done && i < 2
    ensures var (r, o) := OnResult(s, i, text);
      Valid(r) && Extends(s, r)
      && (text.Str? ==>
            o == Handled && r.done && r.winner == Some(1 - i)
            && r.reason == Reported(JsStrings.ClampString(text.s, Util.MAX_STRING_LENGTH))
            && Received(s, r, [GameResult(Some(1 - i), r.reason)]))
      && (!text.Str? ==> o == Threw(Sanitize(Util.NotIterable)) && r == s.(winner := Some(1 - i)) && !r.done)
  {
    if text.Str? {
      FinishAnnounces(s, Some(1 - i), Reported(JsStrings.ClampString(text.s, Util.MAX_STRING_LENGTH)));
    }
  }

  // ---------------------------------------------------------------------
  // The pausing game

  /** The piece messages the distribution loop broadcasts: one per free player, in player order. */
  function DealMessages(s: SessionState): seq<Message>
    requires Valid(s)
  {
    (if Eligible(s, 0) then [PieceMessage(s.game.age, 0, if s.passed[0] then [] else s.game.nextPiece[0])] else [])
    + (if Eligible(s, 1) then [PieceMessage(s.game.age, 1, if s.passed[1] then [] else s.game.nextPiece[1])] else [])
  }

  /** Player i was dealt a piece in going from s to r exactly when it was free, and is awaited with its timer armed. */
  predicate DealtTo(s: SessionState, r: SessionState, i: nat)
    requires Valid(s) && Valid(r) && i < 2
  {
    r.waiting[i] == (s.waiting[i] || Eligible(s, i))
    && r.passed[i] == (s.passed[i] && !Eligible(s, i))
    && (Eligible(s, i) ==> Timers.IsArmed(r.timers, i))
    && (!Eligible(s, i) ==> (Timers.IsArmed(r.timers, i) <==> Timers.IsArmed(s.timers, i)))
  }

  /** Only the outboxes, the flags and the timers of a session change while pieces are dealt. */
  predicate SameGame(s: SessionState, r: SessionState)
  {
    r.game == s.game && r.playedMoves == s.playedMoves && r.age == s.age
    && r.winner == s.winner && r.reason == s.reason && r.ready == s.ready && r.done == s.done
    && r.kind == s.kind && r.sockets == s.sockets
  }

  lemma DealOneEffect(s: SessionState, i: nat)
    requires Valid(s) && !s.done && i < 2 && Eligible(s, i)
    ensures var r := DealOne(s, i);
      Valid(r) && SameGame(s, r)
      && r.waiting == s.waiting[i := true] && r.passed == s.passed[i := false]
      && Timers.IsArmed(r.timers, i) && (Timers.IsArmed(r.timers, 1 - i) <==> Timers.IsArmed(s.timers, 1 - i))
      && Received(s, r, [PieceMessage(s.game.age, i, DealtPiece(s, i))])
  {
    Timers.RearmOnly(s.timers, i);
  }

  /** The first round of the distribution loop. */
  lemma DealFirst(s: SessionState)
    requires Valid(s) && !s.done
    ensures var r := DealStep(s, 0);
      SameGame(s, r) && DealtTo(s, r, 0)
      && r.waiting[1] == s.waiting[1] && r.passed[1] == s.passed[1]
      && (Timers.IsArmed(r.timers, 1) <==> Timers.IsArmed(s.timers, 1))
      && Received(s, r, if Eligible(s, 0) then [PieceMessage(s.game.age, 0, DealtPiece(s, 0))] else [])
  {
    if Eligible(s, 0) {
      DealOneEffect(s, 0);
    }
  }

  /** The last round of the distribution loop. */
  lemma DealLast(s: SessionState)
    requires Valid(s) && !s.done
    ensures var r := DealStep(s, 1);
      SameGame(s, r) && DealtTo(s, r, 1)
      && r.waiting[0] == s.waiting[0] && r.passed[0] == s.passed[0]
      && (Timers.IsArmed(r.timers, 0) <==> Timers.IsArmed(s.timers, 0))
      && Received(s, r, if Eligible(s, 1) then [PieceMessage(s.game.age, 1, DealtPiece(s, 1))] else [])
  {
    if Eligible(s, 1) {
      DealOneEffect(s, 1);
    }
  }

  /**
   * The distribution loop deals every player that is neither busy nor
   * awaited exactly one piece, empty after a pass, clears its pass and
   * waits for its move; nobody else is touched.
   */
  lemma DealExactly(s: SessionState)
    requires Valid(s) && !s.done
    ensures var r := DealFrom(s, 0);
      Valid(r) && SameGame(s, r) && Received(s, r, DealMessages(s)) && DealtTo(s, r, 0) && DealtTo(s, r, 1)
  {
    var s1 := DealStep(s, 0);
    DealFirst(s);
    assert DealFrom(s, 0) == DealStep(s1, 1) by {
      assert DealFrom(s, 0) == DealFrom(s1, 1) == DealFrom(DealStep(s1, 1), 2);
    }
    assert Eligible(s1, 1) == Eligible(s, 1) && DealtPiece(s1, 1) == DealtPiece(s, 1);
    DealLast(s1);
    var m0 := if Eligible(s, 0) then [PieceMessage(s.game.age, 0, DealtPiece(s, 0))] else [];
    var m1 := if Eligible(s, 1) then [PieceMessage(s.game.age, 1, DealtPiece(s, 1))] else [];
    assert DealMessages(s) == m0 + m1;
    ReceivedConcat(s, s1, DealStep(s1, 1), m0, m1);
  }

  lemma ReceivedConcat(a: SessionState, b: SessionState, c: SessionState, m0: seq<Message>, m1: seq<Message>)
    requires Received(a, b, m0) && Received(b, c, m1)
    ensures Received(a, c, m0 + m1)
  {
    assert (a.outbox[0] + m0) + m1 == a.outbox[0] + (m0 + m1);
    assert (a.outbox[1] + m0) + m1 == a.outbox[1] + (m0 + m1);
  }

  /** Recording and announcing a pausing move: both players hear of it, only a placement is recorded. */
  lemma AnnounceEffect(s: SessionState, p: nat, m: Util.PausingMove, e: EngineInput)
    requires Valid(s) && p < 2 && !s.done && !s.waiting[p] && WellFormed(e.afterPlay)
    ensures var r := Announce(s, p, m, e);
      r.hiddenMove.None? && r.waiting == s.waiting && r.timers == s.timers
      && r.passed == (if m.Pass? then s.passed[p := true] else s.passed)
      && r.playedMoves == (if m.Pass? then s.playedMoves else s.playedMoves + [e.played])
      && Received(s, r, [PausingMoveMessage(AnnouncedMove(m, p, e))])
  {
  }

  /**
   * The loop the session runs agrees with the drain's reference definition:
   * it ends the game by the verdict that stopped the drain, or leaves the
   * session as it was but for the engine's state.
   */
  lemma {:induction false} DrainLoopIsDrain(s: SessionState, pass: bool, ticks: seq<GameView>)
    requires Valid(s) && !s.done && AllWellFormed(ticks) && DrainStops(pass, s.game, ticks)
    ensures var d := Drain(pass, s.game, ticks);
      DrainLoop(s, pass, ticks)
        == match d.ended
           case Some(v) => Finish(s.(game := d.view), v.winner, v.reason)
           case None => s.(game := d.view)
    decreases |ticks|
  {
    if Continues(pass, s.game) && PostTickVerdict(ticks[0]).None? {
      var s1 := s.(game := ticks[0]);
      assert PostTick(s1, ticks[0]) == s1;
      DrainLoopIsDrain(s1, pass, ticks[1..]);
    }
  }

  /** The second half of a pausing move is the drain loop, then dealing unless the game ended. */
  lemma SettleByLoop(s: SessionState, pass: bool, ticks: seq<GameView>)
    requires Valid(s) && !s.done && AllWellFormed(ticks) && DrainStops(pass, s.game, ticks)
    ensures var r := DrainLoop(s, pass, ticks);
      Settle(s, pass, ticks) == if r.done then r else DealFrom(r, 0)
  {
    DrainLoopIsDrain(s, pass, ticks);
  }

  /** After the drain the game has ended by the verdict that stopped it, or pieces were dealt; nothing sent is taken back. */
  lemma SettleEffect(s: SessionState, pass: bool, ticks: seq<GameView>)
    requires Valid(s) && !s.done && AllWellFormed(ticks) && DrainStops(pass, s.game, ticks)
    ensures var d := Drain(pass, s.game, ticks);
      var r := Settle(s, pass, ticks);
      Valid(r) && Extends(s, r) && r.game == d.view && r.playedMoves == s.playedMoves
      && (d.ended.Some? ==> r.done && r.winner == d.ended.value.winner && r.reason == d.ended.value.reason)
      && (d.ended.None? ==> !r.done && !Continues(pass, r.game))
  {
    var d := Drain(pass, s.game, ticks);
    var s1 := s.(game := d.view);
    if d.ended.Some? {
      FinishAnnounces(s1, d.ended.value.winner, d.ended.value.reason);
    } else {
      DealExactly(s1);
    }
  }

  /** An accepted pausing move, announced and then settled. */
  lemma PausingMoveEffect(s: SessionState, p: nat, m: Util.PausingMove, e: EngineInput)
    requires Valid(s) && p < 2 && !s.done && !s.waiting[p] && WellFormed(e.afterPlay) && AllWellFormed(e.ticks)
    requires DrainStops(m.Pass?, if m.Pass? then s.game else e.afterPlay, e.ticks)
    ensures var d := Drain(m.Pass?, if m.Pass? then s.game else e.afterPlay, e.ticks);
      var r := Settle(Announce(s, p, m, e), m.Pass?, e.ticks);
      Valid(r) && Extends(s, r) && r.game == d.view
      && ReceivedFirst(s, r, [PausingMoveMessage(AnnouncedMove(m, p, e))])
      && r.playedMoves == (if m.Pass? then s.playedMoves else s.playedMoves + [e.played])
      && (d.ended.Some? ==> r.done && r.winner == d.ended.value.winner && r.reason == d.ended.value.reason)
      && (d.ended.None? ==> !r.done && !Continues(m.Pass?, r.game))
  {
    AnnounceEffect(s, p, m, e);
    var a := Announce(s, p, m, e);
    SettleEffect(a, m.Pass?, e.ticks);
    var r := Settle(a, m.Pass?, e.ticks);
    assert a.outbox[0] <= r.outbox[0] && a.outbox[1] <= r.outbox[1];
  }

  /**
   * A pausing move is accepted only from an awaited player. An accepted
   * move that sanitizes is announced to both players before anything else,
   * a placement is recorded, a pass is not, nothing is left hidden, and the
   * game either ends by the verdict that stopped the drain or goes on with
   * the drain condition false.
   */
  lemma PausingMoveAnnounced(s: SessionState, i: nat, c: Util.MoveContent, e: EngineInput)
    requires Valid(s) && !s.done && s.kind.Pausing? && i < 2 && PausingInputOk(s, i, c, e)
    ensures var (r, o) := OnPausingRequest(s, i, c, e);
      Valid(r) && Extends(s, r)
      && (!s.waiting[i] ==> r == s && o == Handled)
      && (s.waiting[i] && Util.SanitizePausingMove(c).Err? ==>
            o == Threw(Sanitize(Util.SanitizePausingMove(c).error)) && r == AcceptMove(s, i))
      && (s.waiting[i] && Util.SanitizePausingMove(c).Ok? ==>
            var m := Util.SanitizePausingMove(c).value;
            var d := Drain(m.Pass?, if m.Pass? then s.game else e.afterPlay, e.ticks);
            o == Handled && r.hiddenMove.None? && r.game == d.view
            && ReceivedFirst(s, r, [PausingMoveMessage(AnnouncedMove(m, i, e))])
            && r.playedMoves == (if m.Pass? then s.playedMoves else s.playedMoves + [e.played])
            && (d.ended.Some? ==> r.done && r.winner == d.ended.value.winner && r.reason == d.ended.value.reason)
            && (d.ended.None? ==> !r.done && !Continues(m.Pass?, r.game)))
  {
    Timers.CancelOnly(s.timers, i);
    if s.waiting[i] && Util.SanitizePausingMove(c).Ok? {
      PausingMoveEffect(AcceptMove(s, i), i, Util.SanitizePausingMove(c).value, e);
    }
  }

  // ---------------------------------------------------------------------
  // The realtime game

  /**
   * The retcon policy: the opponent hears nothing exactly when the move
   * object itself is the only one the engine rejected; the mover always gets
   * its move, then a retcon whenever anything was rejected.
   */
  lemma RetconPolicy(s: SessionState, p: nat, played: PlayedMove, rejected: seq<PlayedMove>, rejectsPlayed: bool)
    requires p < 2 && |s.outbox| == 2
    ensures var r := Deliver(s, p, played, rejected, rejectsPlayed);
      (r.outbox[1 - p] == s.outbox[1 - p] <==> |rejected| == 1 && rejectsPlayed)
      && r.outbox[p] == s.outbox[p] + [RealtimeMoveMessage(played)]
                        + (if rejected != [] then [Retcon(s.age, rejected)] else [])
      && (!(|rejected| == 1 && rejectsPlayed) ==>
            r.outbox[1 - p] == s.outbox[1 - p] + [RealtimeMoveMessage(played)]
                               + (if rejected != [] then [Retcon(s.age, rejected)] else []))
  {
    var r := Deliver(s, p, played, rejected, rejectsPlayed);
    if !(|rejected| == 1 && rejectsPlayed) {
      assert |r.outbox[1 - p]| > |s.outbox[1 - p]|;
    }
  }

  /**
   * A sanitized realtime move whose time lags more than `MAX_LAG` frames
   * behind the session loses by lagging, one more than `MAX_ADVANTAGE` ahead
   * loses by advancing, and one in between is delivered by the retcon
   * policy while the game goes on.
   */
  lemma JudgeByTime(s: SessionState, p: nat, m: Util.RealtimeMove, e: EngineInput)
    requires Valid(s) && !s.done && p < 2
    ensures var r := Judge(s, p, m, e);
      Valid(r) && Extends(s, r)
      && (Classify(m.time, s.age) == TooLate ==> r.done && r.winner == Some(1 - p) && r.reason == Lagging)
      && (Classify(m.time, s.age) == TooEarly ==> r.done && r.winner == Some(1 - p) && r.reason == Advancing)
      && (Classify(m.time, s.age) == InWindow ==> !r.done && r == Deliver(s, p, e.played, e.rejected, e.rejectsPlayed))
  {
    var c := Classify(m.time, s.age);
    if c == TooLate {
      assert Judge(s, p, m, e) == DisqualifyPlayer(s, p, Lagging);
      DisqualifyExtends(s, p, Lagging);
    } else if c == TooEarly {
      assert Judge(s, p, m, e) == DisqualifyPlayer(s, p, Advancing);
      DisqualifyExtends(s, p, Advancing);
    } else {
      assert Judge(s, p, m, e) == Deliver(s, p, e.played, e.rejected, e.rejectsPlayed);
      DeliverExtends(s, p, e.played, e.rejected, e.rejectsPlayed);
    }
  }

  lemma DisqualifyExtends(s: SessionState, p: nat, reason: Reason)
    requires Valid(s) && !s.done && p < 2
    ensures var r := DisqualifyPlayer(s, p, reason);
      Valid(r) && Extends(s, r) && r.done && r.winner == Some(1 - p) && r.reason == reason
  {
    Disqualification(s, p, reason);
  }

  lemma DeliverExtends(s: SessionState, p: nat, played: PlayedMove, rejected: seq<PlayedMove>, rejectsPlayed: bool)
    requires Valid(s) && !s.done && p < 2
    ensures var r := Deliver(s, p, played, rejected, rejectsPlayed);
      Valid(r) && !r.done && Extends(s, r)
  {
    RetconPolicy(s, p, played, rejected, rejectsPlayed);
  }

  /**
   * A realtime move is taken whether or not its player is awaited: the
   * player's timer is cleared and the move judged by its time. A move to a
   * pausing session throws after the timer is cleared, as does one that does
   * not sanitize.
   */
  lemma RealtimeMoveJudged(s: SessionState, i: nat, c: Util.MoveContent, e: EngineInput)
    requires Valid(s) && !s.done && i < 2
    ensures var (r, o) := OnRealtimeRequest(s, i, c, e);
      Valid(r) && Extends(s, r) && !r.waiting[i] && !Timers.IsArmed(r.timers, i)
      && (s.kind.Pausing? ==> o == Threw(WrongMoveType) && r == AcceptMove(s, i))
      && (s.kind.Realtime? && Util.SanitizeRealtimeMove(s.age, c).Err? ==> o.Threw? && r == AcceptMove(s, i))
      && (s.kind.Realtime? && Util.SanitizeRealtimeMove(s.age, c).Ok? ==>
            o == Handled && r == Judge(AcceptMove(s, i), i, Util.SanitizeRealtimeMove(s.age, c).value, e))
  {
    Timers.CancelOnly(s.timers, i);
    if s.kind.Realtime? && Util.SanitizeRealtimeMove(s.age, c).Ok? {
      JudgeByTime(AcceptMove(s, i), i, Util.SanitizeRealtimeMove(s.age, c).value, e);
    }
  }

  /**
   * A realtime move whose time is a string with no numeric reading (its first
   * non-space code unit cannot begin a numeral), or is absent, is never
   * judged late or early.
   */
  lemma NonNumericTimeInWindow(age: int, text: JsString)
    requires TrimStart(text) != [] && !BeginsNumeral(TrimStart(text)[0])
    ensures Classify(Str(text), age) == InWindow
    ensures Classify(Undefined, age) == InWindow
  {
    NoNumeralIsNaN(text);
  }

  /** The piece messages a realtime tick broadcasts. */
  function RevealMessages(pieces: seq<PieceReveal>): seq<Message>
  {
    seq(|pieces|, k requires 0 <= k < |pieces| => PieceMessage(pieces[k].time, pieces[k].player, pieces[k].piece))
  }

  /** Some piece belongs to player j. */
  predicate HasPiece(pieces: seq<PieceReveal>, j: nat)
  {
    exists k :: 0 <= k < |pieces| && pieces[k].player == j
  }

  /** Revealing pieces broadcasts them in order and changes nothing but outboxes, flags and timers. */
  lemma {:induction false} RevealBroadcasts(s: SessionState, pieces: seq<PieceReveal>)
    requires Valid(s) && !s.done && forall k :: 0 <= k < |pieces| ==> pieces[k].player < 2
    ensures var r := RevealPieces(s, pieces);
      SameGame(s, r) && Received(s, r, RevealMessages(pieces))
    decreases |pieces|
  {
    if pieces != [] {
      var q := pieces[0];
      Timers.RearmOnly(s.timers, q.player);
      var s1 := WaitForMove(Broadcast(s, PieceMessage(q.time, q.player, q.piece)), q.player);
      RevealBroadcasts(s1, pieces[1..]);
      assert RevealMessages(pieces) == [PieceMessage(q.time, q.player, q.piece)] + RevealMessages(pieces[1..]);
    }
  }

  /** After revealing pieces, a player is awaited with its timer armed exactly when it was before or a piece was its. */
  lemma {:induction false} RevealAwaits(s: SessionState, pieces: seq<PieceReveal>, j: nat)
    requires Valid(s) && !s.done && j < 2 && forall k :: 0 <= k < |pieces| ==> pieces[k].player < 2
    ensures var r := RevealPieces(s, pieces);
      (r.waiting[j] <==> s.waiting[j] || HasPiece(pieces, j))
      && (HasPiece(pieces, j) ==> Timers.IsArmed(r.timers, j))
      && (!HasPiece(pieces, j) ==> (Timers.IsArmed(r.timers, j) <==> Timers.IsArmed(s.timers, j)))
    decreases |pieces|
  {
    if pieces != [] {
      var q := pieces[0];
      Timers.RearmOnly(s.timers, q.player);
      var s1 := WaitForMove(Broadcast(s, PieceMessage(q.time, q.player, q.piece)), q.player);
      RevealAwaits(s1, pieces[1..], j);
      if HasPiece(pieces[1..], j) {
        var k :| 0 <= k < |pieces[1..]| && pieces[1..][k].player == j;
        assert pieces[k + 1].player == j;
      }
      assert HasPiece(pieces, j) ==> q.player == j || HasPiece(pieces[1..], j) by {
        if HasPiece(pieces, j) {
          var k :| 0 <= k < |pieces| && pieces[k].player == j;
          if k > 0 {
            assert pieces[1..][k - 1].player == j;
          }
        }
      }
    }
  }

  /** A realtime tick that leaves the game running: the age advances and the revealed pieces go out. */
  lemma TickGoesOn(s: SessionState, v: GameView, pieces: seq<PieceReveal>)
    requires Valid(s) && !s.done && s.ready[0] && s.ready[1] && WellFormed(v) && PostTickVerdict(v).None?
    requires forall k :: 0 <= k < |pieces| ==> pieces[k].player < 2
    ensures var r := Tick(s, v, pieces);
      Valid(r) && !r.done && r.age == s.age + 1 && Received(s, r, RevealMessages(pieces))
      && forall j :: 0 <= j < 2 && HasPiece(pieces, j) ==> r.waiting[j] && Timers.IsArmed(r.timers, j)
  {
    var s1 := s.(age := s.age + 1);
    assert Tick(s, v, pieces) == RevealPieces(s1, pieces);
    RevealBroadcasts(s1, pieces);
    RevealAwaits(s1, pieces, 0);
    RevealAwaits(s1, pieces, 1);
  }

  /**
   * A realtime tick does nothing until both players are ready. Then the age
   * advances by one frame; a verdict on the new state ends the game with
   * nothing dealt, and otherwise every revealed piece is broadcast and its
   * player awaited.
   */
  lemma TickLaw(s: SessionState, v: GameView, pieces: seq<PieceReveal>)
    requires Valid(s) && WellFormed(v) && forall k :: 0 <= k < |pieces| ==> pieces[k].player < 2
    ensures var r := Tick(s, v, pieces);
      Valid(r) && r.kind == s.kind && r.sockets == s.sockets
      && (s.done || !(s.ready[0] && s.ready[1]) ==> r == s)
      && (!s.done && s.ready[0] && s.ready[1] ==>
            r.age == s.age + 1
            && (PostTickVerdict(v).Some? ==>
                  r.done && r.winner == PostTickVerdict(v).value.winner && r.reason == PostTickVerdict(v).value.reason
                  && Received(s, r, [GameResult(r.winner, r.reason)]))
            && (PostTickVerdict(v).None? ==>
                  !r.done && Received(s, r, RevealMessages(pieces))
                  && forall j :: 0 <= j < 2 && HasPiece(pieces, j) ==> r.waiting[j] && Timers.IsArmed(r.timers, j)))
  {
    if !s.done && s.ready[0] && s.ready[1] {
      match PostTickVerdict(v)
      case Some(d) => FinishAnnounces(s.(age := s.age + 1), d.winner, d.reason);
      case None => TickGoesOn(s, v, pieces);
    }
  }

  // ---------------------------------------------------------------------
  // The invariant

  /** Every message keeps the session a valid duel: in particular the completion callback never runs twice. */
  lemma OnMessageKeepsValid(s: SessionState, socket: SocketId, msg: ClientMessage, e: EngineInput)
    requires Valid(s) && InputOk(s, socket, msg, e)
    ensures var (r, _) := OnMessage(s, socket, msg, e);
      Valid(r) && Extends(s, r) && (s.done ==> r == s)
  {
    if !s.done {
      var i := IndexOf(s.sockets, socket);
      match msg
      case Ready => ReadyThenGo(s, i);
      case SimpleStateRequest =>
      case Result(text) => ResultConcedes(s, i, text);
      case PausingMoveRequest(c) =>
        if s.kind.Pausing? {
          PausingMoveAnnounced(s, i, c, e);
        } else {
          Timers.CancelOnly(s.timers, i);
        }
      case RealtimeMoveRequest(c) => RealtimeMoveJudged(s, i, c, e);
      case OtherRequest =>
    }
  }
}
