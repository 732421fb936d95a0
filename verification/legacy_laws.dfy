/**
 * What the legacy sessions guarantee, proved about the transitions of
 * `LegacyRules`: hiding and revealing simultaneous moves, the order of the
 * end-of-game checks in each server, who is told what on a timeout, a
 * disconnect or a concession, and that completion happens once.
 */
module LegacyLaws {
  import opened Wrappers
  import opened JsValues
  import Util
  import opened Protocol
  import Timers
  import LegacyMoves
  import opened LegacyRules

  /** r is the same session as s, and every outbox of s is a prefix of r's. */
  predicate Grows(s: LegacyState, r: LegacyState)
  {
    r.variant == s.variant && r.sockets == s.sockets && |s.outbox| == |r.outbox|
    && forall k :: 0 <= k < |s.outbox| ==> s.outbox[k] <= r.outbox[k]
  }

  // ---------------------------------------------------------------------
  // Completion

  /** `complete` runs once: a second call changes nothing, and the first disarms every timer. */
  lemma CompleteOnce(s: LegacyState, w: Option<int>, w2: Option<int>)
    requires Valid(s) && |s.sockets| == 2 && (w.Some? ==> 0 <= w.value < 2) && (s.variant.Root? ==> w.None?)
    ensures var r := Complete(s, w);
      Complete(r, w2) == r && r.done && r.timers.armed == {} && r.completions == 1
      && r.outbox == s.outbox && (!s.done ==> r.winner == w)
  {
    CompleteKeepsValid(s, w);
  }

  /** A finished session ignores every message and every disconnect. */
  lemma DoneIsInert(s: LegacyState, socket: SocketId, req: LegacyRequest, e: LegacyInput)
    requires Valid(s) && s.done && InputOk(s, socket, req, e)
    ensures OnMessage(s, socket, req, e) == (s, Handled)
    ensures LegacyRules.Disconnect(s, socket) == s
  {
  }

  // ---------------------------------------------------------------------
  // The checks after a tick

  /** `src/server.ts` ends a reroll impasse; `server.ts` has no such check and plays on. */
  lemma ImpasseOnlyInSrc(v: LegacyView)
    requires ViewOk(v) && !v.lockedOut[0] && !v.lockedOut[1]
    requires v.consecutiveRerolls >= Util.MAX_CONSECUTIVE_REROLLS && v.age <= MAX_GAME_AGE
    ensures TickEnding(Src, v) == Some(Ending(None, Impasse))
    ensures TickEnding(Root, v).None?
  {
  }

  /**
   * How an ending is announced: in `src/server.ts` everyone gets the winner
   * and the reason; in `server.ts` the winner hears 'win' and the loser
   * 'loss', or everyone hears 'draw'.
   */
  lemma EndGameTells(s: LegacyState, e: Ending)
    requires Valid(s) && |s.sockets| == 2 && !s.done && (e.winner.Some? ==> 0 <= e.winner.value < 2)
    ensures var r := EndGame(s, e);
      r.done && Valid(r)
      && (s.variant.Src? ==>
            r.winner == e.winner
            && r.outbox == [s.outbox[0] + [LegacyResult(e.winner, e.reason)], s.outbox[1] + [LegacyResult(e.winner, e.reason)]])
      && (s.variant.Root? && e.winner.Some? ==>
            var w := e.winner.value;
            r.outbox[w] == s.outbox[w] + [LegacyVerdict(Win, e.reason)]
            && r.outbox[1 - w] == s.outbox[1 - w] + [LegacyVerdict(Loss, e.reason)])
      && (s.variant.Root? && e.winner.None? ==>
            r.outbox == [s.outbox[0] + [LegacyVerdict(Draw, e.reason)], s.outbox[1] + [LegacyVerdict(Draw, e.reason)]])
  {
    EndGameKeepsValid(s, e);
  }

  /** A lockout in `server.ts`: the player still in the game hears 'win', the locked-out one 'loss'. */
  lemma RootLockout(s: LegacyState, v: LegacyView)
    requires Valid(s) && |s.sockets| == 2 && !s.done && s.variant.Root? && ViewOk(v)
    requires v.lockedOut[0] != v.lockedOut[1]
    ensures var r := PostTick(s, v);
      var loser := if v.lockedOut[0] then 0 else 1;
      r.done && r.outbox[loser] == s.outbox[loser] + [LegacyVerdict(Loss, Lockout)]
      && r.outbox[1 - loser] == s.outbox[1 - loser] + [LegacyVerdict(Win, Lockout)]
  {
    EndGameTells(s, TickEnding(Root, v).value);
  }

  // ---------------------------------------------------------------------
  // Timeouts, disconnects and concessions

  /** A timeout: `src/server.ts` tells everyone the opponent won; `server.ts` tells p 'loss' and the opponent 'win'. */
  lemma DisqualifyTells(s: LegacyState, p: nat)
    requires Valid(s) && p < 2 && Timers.IsArmed(s.timers, p)
    ensures var r := TimerFires(s, p);
      r.done && Valid(r) && Grows(s, r)
      && (s.variant.Src? ==>
            r.winner == Some(1 - p)
            && r.outbox == [s.outbox[0] + [LegacyResult(Some(1 - p), Timeout)], s.outbox[1] + [LegacyResult(Some(1 - p), Timeout)]])
      && (s.variant.Root? ==>
            r.outbox[p] == s.outbox[p] + [LegacyVerdict(Loss, Timeout)]
            && r.outbox[1 - p] == s.outbox[1 - p] + [LegacyVerdict(Win, Timeout)])
  {
    assert |s.sockets| == 2;
    Timers.CancelFromDisarms(Timers.Fire(s.timers, p), 0);
  }

  /** The notices from index i on: exactly the players whose socket is not the leaver's get one. */
  lemma {:induction false} NotifyTells(s: LegacyState, socket: SocketId, i: nat)
    requires |s.outbox| == |s.sockets| && i <= |s.sockets|
    ensures var r := Notify(s, socket, i);
      r == s.(outbox := r.outbox) && |r.outbox| == |s.outbox|
      && (forall k :: 0 <= k < i ==> r.outbox[k] == s.outbox[k])
      && (forall k :: i <= k < |s.sockets| ==>
            r.outbox[k] == s.outbox[k] + if s.sockets[k] != socket then [DisconnectNotice(s.variant, k)] else [])
    decreases |s.sockets| - i
  {
    if i < |s.sockets| {
      var s1 := if s.sockets[i] != socket then Send(s, i, DisconnectNotice(s.variant, i)) else s;
      NotifyTells(s1, socket, i + 1);
    }
  }

  /**
   * `disconnect`: every player but the leaver is told it won; the leaver
   * is told nothing; `src/server.ts` completes with the last such player
   * as the winner. A finished session is left alone.
   */
  lemma DisconnectTells(s: LegacyState, socket: SocketId)
    requires Valid(s) && !s.done
    ensures var r := LegacyRules.Disconnect(s, socket);
      r.done && Valid(r) && Grows(s, r)
      && (forall k :: 0 <= k < |s.sockets| ==>
            r.outbox[k] == s.outbox[k] + if s.sockets[k] != socket then [DisconnectNotice(s.variant, k)] else [])
      && (s.variant.Src? ==> r.winner == LastOpponent(s.sockets, socket))
  {
    NotifyTells(s, socket, 0);
    var n := Notify(s, socket, 0);
    if |s.sockets| == 2 {
      CompleteKeepsValid(n, if s.variant.Src? then LastOpponent(s.sockets, socket) else None);
    } else {
      Timers.CancelFromDisarms(n.timers, 0);
    }
  }

  /** In a duel the other player is the one who wins by the disconnect. */
  lemma DisconnectInDuel(s: LegacyState, i: nat)
    requires Valid(s) && !s.done && |s.sockets| == 2 && i < 2 && s.sockets[0] != s.sockets[1]
    ensures var r := LegacyRules.Disconnect(s, s.sockets[i]);
      |r.outbox| == 2 && r.outbox[i] == s.outbox[i]
      && r.outbox[1 - i] == s.outbox[1 - i] + [DisconnectNotice(s.variant, 1 - i)]
      && (s.variant.Src? ==> r.winner == Some(1 - i))
  {
    DisconnectTells(s, s.sockets[i]);
  }

  /**
   * A 'result': the sender concedes. `src/server.ts` announces the other
   * index as the winner to everyone (also when nobody joined: then the
   * winner is index 1); `server.ts` tells the other player 'win' and the
   * sender 'loss', and throws when nobody joined.
   */
  lemma ResultTells(s: LegacyState, i: nat, reason: JsValue)
    requires Valid(s) && !s.done && i < |s.sockets| && reason.Str?
    ensures var (r, o) := OnResult(s, i, reason);
      var text := Util.ClampValue(reason, if s.variant.Src? then LegacyMoves.SRC_MAX_LENGTH else LegacyMoves.ROOT_MAX_LENGTH).value;
      (s.variant.Src? ==>
         o == Handled && r.done && r.winner == Some(1 - i)
         && forall k :: 0 <= k < |s.sockets| ==> r.outbox[k] == s.outbox[k] + [LegacyResult(Some(1 - i), Reported(text))])
      && (s.variant.Root? && |s.sockets| == 1 ==> o == Threw(NoOpponent) && r == s)
      && (s.variant.Root? && |s.sockets| == 2 ==>
            o == Handled && r.done
            && r.outbox[i] == s.outbox[i] + [LegacyVerdict(Loss, Reported(text))]
            && r.outbox[1 - i] == s.outbox[1 - i] + [LegacyVerdict(Win, Reported(text))])
  {
  }

  // ---------------------------------------------------------------------
  // Moves

  /** A move from a player who is not awaited changes nothing. */
  lemma UnawaitedMoveIgnored(s: LegacyState, socket: SocketId, c: Util.MoveContent, e: LegacyInput)
    requires Valid(s) && socket in s.sockets && !s.waiting[IndexOf(s.sockets, socket)]
    ensures InputOk(s, socket, MoveRequest(c), e)
    ensures OnMessage(s, socket, MoveRequest(c), e) == (s, Handled)
  {
  }

  /** A move that does not sanitise throws before anything changes. */
  lemma BadMoveThrows(s: LegacyState, i: nat, c: Util.MoveContent, e: LegacyInput)
    requires Valid(s) && !s.done && i < 2 && s.waiting[i] && MoveInputOk(s, i, c, e)
    requires LegacyMoves.SanitizeMove(i, c).0.Err?
    ensures OnMove(s, i, c, e) == (s, Threw(Sanitize(Util.UnableToSanitizeCoordinates)))
  {
  }

  /**
   * The first of two simultaneous moves is hidden: the check runs while
   * the mover still counts as awaited, so the opponent gets only the
   * mover's clock, the mover gets its move, and the move is kept back.
   * The mover's timer is cleared and it is no longer awaited.
   */
  lemma HideFirstOfTwo(s: LegacyState, i: nat, m: LegacyMoves.LegacyMove, e: LegacyInput)
    requires Valid(s) && !s.done && i < 2 && s.waiting[0] && s.waiting[1] && ViewOk(e.afterPlay) && m.player == i
    ensures var r := Accept(s, i, m, e);
      var move := Sent(m, e.placement);
      r.outbox[1 - i] == s.outbox[1 - i] + [LegacyTimer(m.ms)]
      && r.outbox[i] == s.outbox[i] + [LegacyMoveMessage(move)]
      && r.hiddenMove == Some(move)
      && !r.waiting[i] && r.waiting[1 - i]
      && s.timers.handles[i].value !in r.timers.armed
  {
    Timers.CancelOnly(s.timers, i);
  }

  /**
   * A kept-back move is revealed before the next move is broadcast: the
   * player who has not seen it gets it first, then everyone gets the new
   * move, and nothing stays hidden.
   */
  lemma RevealBeforeBroadcast(s: LegacyState, i: nat, m: LegacyMoves.LegacyMove, e: LegacyInput)
    requires Valid(s) && !s.done && i < 2 && s.waiting[i] && !s.waiting[1 - i] && s.hiddenMove.Some?
    requires ViewOk(e.afterPlay) && m.player == i
    ensures var r := Accept(s, i, m, e);
      var h := s.hiddenMove.value;
      var move := Sent(m, e.placement);
      r.outbox[1 - h.player] == s.outbox[1 - h.player] + [LegacyMoveMessage(h), LegacyMoveMessage(move)]
      && r.outbox[h.player] == s.outbox[h.player] + [LegacyMoveMessage(move)]
      && r.hiddenMove.None? && !r.waiting[i]
  {
  }

  /** With nothing hidden and not everyone awaited, the move goes to both players. */
  lemma PlainBroadcast(s: LegacyState, i: nat, m: LegacyMoves.LegacyMove, e: LegacyInput)
    requires Valid(s) && !s.done && i < 2 && s.waiting[i] && !s.waiting[1 - i] && s.hiddenMove.None?
    requires ViewOk(e.afterPlay) && m.player == i
    ensures var r := Accept(s, i, m, e);
      var move := Sent(m, e.placement);
      r.outbox == [s.outbox[0] + [LegacyMoveMessage(move)], s.outbox[1] + [LegacyMoveMessage(move)]]
      && r.hiddenMove.None?
  {
  }

  /**
   * Right after a second player joins, both players are awaited, so the
   * first move of the game is always hidden from the opponent. (In the
   * current session the same check can never fire.)
   */
  lemma FirstMoveHidden(s: LegacyState, socket: SocketId, i: nat, m: LegacyMoves.LegacyMove, e: LegacyInput)
    requires Valid(s) && !s.done && |s.sockets| == 1 && i < 2 && ViewOk(e.afterPlay) && m.player == i
    ensures var j := Join(s, socket);
      var r := Accept(j, i, m, e);
      r.outbox[1 - i] == j.outbox[1 - i] + [LegacyTimer(m.ms)]
      && r.hiddenMove == Some(Sent(m, e.placement))
  {
    HideFirstOfTwo(Join(s, socket), i, m, e);
  }

  // ---------------------------------------------------------------------
  // After the tick loop

  /** The bag message round i sends, if any. */
  function BagOf(s: LegacyState, i: nat): seq<LegacyMessage>
    requires ViewOk(s.game) && |s.waiting| == 2 && i < 2
  {
    if !s.game.busy[i] && !s.waiting[i] then [LegacyBag(i, s.game.visibleBag[i])] else []
  }

  /** One round of the bag loop: the bag goes to both players and only player i's awaited flag changes. */
  lemma DealStepTells(s: LegacyState, i: nat)
    requires Valid(s) && !s.done && |s.sockets| == 2 && i < 2
    ensures var r := DealStep(s, i);
      r.game == s.game && r.hiddenMove == s.hiddenMove
      && r.waiting == s.waiting[i := s.waiting[i] || !s.game.busy[i]]
      && r.outbox == [s.outbox[0] + BagOf(s, i), s.outbox[1] + BagOf(s, i)]
  {
    if !s.game.busy[i] && !s.waiting[i] {
      assert AppendAll(s.outbox, LegacyBag(i, s.game.visibleBag[i])) == [s.outbox[0] + BagOf(s, i), s.outbox[1] + BagOf(s, i)];
    } else {
      assert s.outbox[0] + [] == s.outbox[0] && s.outbox[1] + [] == s.outbox[1];
      assert s.outbox == [s.outbox[0], s.outbox[1]];
    }
  }

  /**
   * The tick loop agrees with its reference definition: the game ends by the
   * ending the reference found, announced once, and the engine's state is
   * where the reference stops.
   */
  lemma {:induction false} DrainLoopIsDrain(s: LegacyState, pass: bool, ticks: seq<LegacyView>)
    requires Valid(s) && |s.sockets| == 2 && AllViewsOk(ticks) && Enough(s.variant, pass, s.game, ticks, s.done)
    ensures var d := Drain(s.variant, pass, s.game, ticks, s.done);
      DrainLoop(s, pass, ticks)
        == match d.ended
           case Some(e) => EndGame(s, e).(game := d.view)
           case None => s.(game := d.view)
    decreases |ticks|
  {
    var d := Drain(s.variant, pass, s.game, ticks, s.done);
    if !Continues(pass, s.game) {
      assert DrainLoop(s, pass, ticks) == s;
    } else if s.done {
      assert DrainLoop(s, pass, ticks) == s.(game := ticks[0]);
    } else {
      var s1 := s.(game := ticks[0]);
      match TickEnding(s.variant, ticks[0])
      case None =>
        assert PostTick(s1, ticks[0]) == s1;
        assert DrainLoop(s, pass, ticks) == DrainLoop(s1, pass, ticks[1..]);
        assert d == Drain(s.variant, pass, ticks[0], ticks[1..], false);
        DrainLoopIsDrain(s1, pass, ticks[1..]);
        if d.ended.Some? {
          EndGameKeepsGame(s, d.ended.value, ticks[0], d.view);
        }
      case Some(e) =>
        var s2 := EndGame(s1, e);
        assert PostTick(s1, ticks[0]) == s2;
        assert DrainLoop(s, pass, ticks) == DrainLoop(s2, pass, ticks[1..]);
        DoneLoopTakesOneTick(s2, pass, ticks[1..]);
        EndGameKeepsGame(s, e, ticks[0], d.view);
    }
  }

  /** A session already done takes at most one more tick and changes nothing else. */
  lemma DoneLoopTakesOneTick(s: LegacyState, pass: bool, ticks: seq<LegacyView>)
    requires Valid(s) && |s.sockets| == 2 && s.done && AllViewsOk(ticks) && Enough(s.variant, pass, s.game, ticks, true)
    ensures DrainLoop(s, pass, ticks) == s.(game := Drain(s.variant, pass, s.game, ticks, true).view)
  {
  }

  /** Ending the game neither reads nor writes the engine's state. */
  lemma EndGameKeepsGame(s: LegacyState, e: Ending, v: LegacyView, w: LegacyView)
    requires |s.outbox| == 2 && (e.winner.Some? ==> 0 <= e.winner.value < 2)
    ensures EndGame(s.(game := v), e).(game := w) == EndGame(s, e).(game := w)
  {
  }

  /** The bag loop from index i on: every player neither busy nor awaited gets its bag broadcast and is awaited. */
  lemma {:induction false} DealFromTells(s: LegacyState, i: nat)
    requires Valid(s) && !s.done && |s.sockets| == 2 && i <= 2
    ensures var r := DealFrom(s, i);
      r.game == s.game && r.hiddenMove == s.hiddenMove
      && (forall k :: 0 <= k < i ==> r.waiting[k] == s.waiting[k])
      && (forall k :: i <= k < 2 ==> r.waiting[k] == (s.waiting[k] || !s.game.busy[k]))
      && r.outbox == [s.outbox[0] + Bags(s, i), s.outbox[1] + Bags(s, i)]
    decreases 2 - i
  {
    if i < 2 {
      var s1 := DealStep(s, i);
      DealStepTells(s, i);
      DealFromTells(s1, i + 1);
      assert Bags(s1, i + 1) == Bags(s, i + 1);
      var rest := Bags(s, i + 1);
      assert Bags(s, i) == BagOf(s, i) + rest;
      assert (s.outbox[0] + BagOf(s, i)) + rest == s.outbox[0] + Bags(s, i);
      assert (s.outbox[1] + BagOf(s, i)) + rest == s.outbox[1] + Bags(s, i);
    } else {
      assert Bags(s, i) == [];
      assert s.outbox[0] + [] == s.outbox[0] && s.outbox[1] + [] == s.outbox[1];
      assert s.outbox == [s.outbox[0], s.outbox[1]];
    }
  }

  /** The bag messages the loop sends from index i on, in order. */
  function Bags(s: LegacyState, i: nat): seq<LegacyMessage>
    requires ViewOk(s.game) && |s.waiting| == 2
    decreases 2 - i
  {
    if i >= 2 then []
    else BagOf(s, i) + Bags(s, i + 1)
  }

  /** After the bag loop every idle player is awaited, and both players saw the same bags. */
  lemma DealAwaitsIdle(s: LegacyState)
    requires Valid(s) && !s.done && |s.sockets| == 2
    ensures var r := DealFrom(s, 0);
      (forall k :: 0 <= k < 2 && !s.game.busy[k] ==> r.waiting[k])
      && (forall k :: 0 <= k < 2 && s.waiting[k] ==> r.waiting[k])
      && |Bags(s, 0)| <= 2
      && r.outbox[0][|s.outbox[0]|..] == r.outbox[1][|s.outbox[1]|..] == Bags(s, 0)
  {
    DealFromTells(s, 0);
    var r := DealFrom(s, 0);
    assert r.outbox[0] == s.outbox[0] + Bags(s, 0);
    assert r.outbox[1] == s.outbox[1] + Bags(s, 0);
  }

  // ---------------------------------------------------------------------
  // Validity

  /** A 'result' keeps the session valid and the same session; a throw changes nothing. */
  lemma OnResultKeepsValid(s: LegacyState, i: nat, reason: JsValue)
    requires Valid(s) && !s.done && i < |s.sockets|
    ensures var (r, o) := OnResult(s, i, reason);
      Valid(r) && r.sockets == s.sockets && r.variant == s.variant
      && (o.Threw? ==> r == s)
  {
    var n := if s.variant.Src? then LegacyMoves.SRC_MAX_LENGTH else LegacyMoves.ROOT_MAX_LENGTH;
    if reason.Str? {
      var text := Util.ClampValue(reason, n).value;
      if s.variant.Src? {
        var b := Broadcast(s, LegacyResult(Some(1 - i), Reported(text)));
        if |s.sockets| == 2 {
          CompleteKeepsValid(b, Some(1 - i));
        } else {
          Timers.CancelFromDisarms(b.timers, 0);
        }
      } else if |s.sockets| == 2 {
        CompleteKeepsValid(TellWinner(s, 1 - i, Reported(text)), None);
      }
    }
  }

  /** Every message keeps the session valid and the same session; a throw changes nothing. */
  lemma OnMessageKeepsValid(s: LegacyState, socket: SocketId, req: LegacyRequest, e: LegacyInput)
    requires Valid(s) && InputOk(s, socket, req, e)
    ensures var (r, o) := OnMessage(s, socket, req, e);
      Valid(r) && r.sockets == s.sockets && r.variant == s.variant
      && (o.Threw? ==> r == s)
  {
    if !s.done && req.ResultRequest? {
      OnResultKeepsValid(s, IndexOf(s.sockets, socket), req.reason);
    }
  }
}
