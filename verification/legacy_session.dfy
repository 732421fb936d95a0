/**
 * `WebSocketGameSession` of the two single-file servers as an object whose
 * fields the handlers update in place. Every method is proved to perform
 * exactly the `LegacyRules` transition of the same name, so the laws in
 * `LegacyLaws` hold of the object.
 */
module LegacySessions {
  import opened Wrappers
  import opened JsValues
  import Util
  import opened Protocol
  import Timers
  import LegacyMoves
  import opened LegacyRules

  class LegacySession {
    var variant: Variant
    var sockets: seq<SocketId>
    var done: bool
    /** The winner `complete` was called with: what `src/server.ts` reports to the relay. */
    var winner: Option<int>
    var waiting: seq<bool>
    var timers: Timers.TimerTable
    var hiddenMove: Option<SentMove>
    var game: LegacyView
    var outbox: seq<seq<LegacyMessage>>
    var completions: nat

    /** The session's fields as one value. */
    function State(): LegacyState
      reads this
    {
      LegacyState(variant, sockets, done, winner, waiting, timers, hiddenMove, game, outbox, completions)
    }

    predicate Valid()
      reads this
    {
      LegacyRules.Valid(State())
    }

    /** `new WebSocketGameSession(player)` */
    constructor (variant: Variant, socket: SocketId, game: LegacyView)
      requires ViewOk(game)
      ensures State() == Initial(variant, socket, game) && Valid()
    {
      this.variant := variant;
      sockets := [socket];
      done := false;
      winner := None;
      waiting := [false, false];
      timers := Timers.Initial();
      hiddenMove := None;
      this.game := game;
      outbox := [[]];
      completions := 0;
    }

    /** `player.send(m)` */
    method Send(i: nat, m: LegacyMessage)
      requires i < |outbox|
      modifies this
      ensures State() == LegacyRules.Send(old(State()), i, m)
    {
      outbox := outbox[i := outbox[i] + [m]];
    }

    /** `players.forEach(p => p.send(m))` */
    method Broadcast(m: LegacyMessage)
      modifies this
      ensures State() == LegacyRules.Broadcast(old(State()), m)
    {
      for k := 0 to |outbox|
        invariant |outbox| == |old(outbox)|
        invariant forall j :: 0 <= j < k ==> outbox[j] == old(outbox[j]) + [m]
        invariant forall j :: k <= j < |outbox| ==> outbox[j] == old(outbox[j])
        invariant State() == old(State()).(outbox := outbox)
      {
        Send(k, m);
      }
      assert outbox == AppendAll(old(outbox), m);
    }

    /** `waitingForMove[i] = true` and a fresh `setTimeout` for player i. */
    method WaitFor(i: nat)
      requires i < 2 && |waiting| == 2 && |timers.handles| == 2
      modifies this
      ensures State() == LegacyRules.WaitFor(old(State()), i)
    {
      waiting := waiting[i := true];
      timers := Arm(timers, i);
    }

    /** `complete(winner)`: once only; every timer is cleared. */
    method Complete(w: Option<int>)
      modifies this
      ensures State() == LegacyRules.Complete(old(State()), w)
    {
      if done {
        return;
      }
      done := true;
      winner := w;
      var k := 0;
      while k < |timers.handles|
        invariant Timers.CancelFrom(timers, k) == Timers.CancelFrom(old(timers), 0)
        invariant State() == old(State()).(done := true, winner := w, timers := timers)
        decreases |timers.handles| - k
      {
        timers := Timers.Cancel(timers, k);
        k := k + 1;
      }
      completions := completions + 1;
    }

    /** `sendResult(winner, reason)` then `complete(winner)`, as `src/server.ts` ends a game. */
    method FinishSrc(w: Option<int>, reason: Reason)
      modifies this
      ensures State() == LegacyRules.FinishSrc(old(State()), w, reason)
    {
      Broadcast(LegacyResult(w, reason));
      Complete(w);
    }

    /** `server.ts` tells the winner 'win', then the loser 'loss'. */
    method TellWinner(w: nat, reason: Reason)
      requires w < 2 && |outbox| == 2
      modifies this
      ensures State() == LegacyRules.TellWinner(old(State()), w, reason)
    {
      Send(w, LegacyVerdict(Win, reason));
      Send(1 - w, LegacyVerdict(Loss, reason));
    }

    /** `disqualifyPlayer(p)` */
    method DisqualifyPlayer(p: nat)
      requires p < 2 && |outbox| == 2
      modifies this
      ensures State() == LegacyRules.DisqualifyPlayer(old(State()), p)
    {
      if variant.Src? {
        FinishSrc(Some(1 - p), Timeout);
      } else {
        Send(p, LegacyVerdict(Loss, Timeout));
        Send(1 - p, LegacyVerdict(Win, Timeout));
        Complete(None);
      }
    }

    /** Player p's move timer fires. */
    method TimerFires(p: nat)
      requires Valid() && p < 2 && Timers.IsArmed(timers, p)
      modifies this
      ensures State() == LegacyRules.TimerFires(old(State()), p)
    {
      timers := Timers.Fire(timers, p);
      DisqualifyPlayer(p);
    }

    /** `disconnect(player)`: every other player is told; `src/server.ts` completes with the last of them as the winner. */
    method Disconnect(socket: SocketId)
      requires |outbox| == |sockets|
      modifies this
      ensures State() == LegacyRules.Disconnect(old(State()), socket)
    {
      if done {
        return;
      }
      var w: Option<int> := None;
      for i := 0 to |sockets|
        invariant sockets == old(sockets) && variant == old(variant) && |outbox| == |sockets| && !done
        invariant Notify(State(), socket, i) == Notify(old(State()), socket, 0)
        invariant w == (if variant.Src? then LastOpponent(sockets[..i], socket) else None)
      {
        assert sockets[..i + 1][..i] == sockets[..i];
        if sockets[i] != socket {
          if variant.Src? {
            w := Some(i);
          }
          Send(i, DisconnectNotice(variant, i));
        }
      }
      assert sockets[..|sockets|] == sockets;
      Complete(w);
    }

    /** The second player is pushed onto `players` and `start()` runs. */
    method Join(socket: SocketId)
      requires Valid() && !done && |sockets| == 1
      modifies this
      ensures State() == LegacyRules.Join(old(State()), socket)
    {
      sockets := sockets + [socket];
      outbox := outbox + [[]];
      Start();
    }

    /** `start()`: each player gets its parameters and both visible bags, and is awaited. */
    method Start()
      requires |outbox| == 2 && |waiting| == 2 && |timers.handles| == 2 && ViewOk(game)
      modifies this
      ensures State() == StartFrom(old(State()), 0)
    {
      for i := 0 to |outbox|
        invariant |outbox| == 2 && |waiting| == 2 && |timers.handles| == 2 && ViewOk(game)
        invariant StartFrom(State(), i) == StartFrom(old(State()), 0)
      {
        ghost var before := State();
        Send(i, LegacyParams(i));
        for j := 0 to |game.visibleBag|
          invariant |outbox| == 2 && game == before.game
          invariant outbox[i] == before.outbox[i] + StartMessages(i, game)[..j + 1]
          invariant State() == before.(outbox := before.outbox[i := outbox[i]])
        {
          assert StartMessages(i, game)[..j + 2] == StartMessages(i, game)[..j + 1] + [LegacyBag(j, game.visibleBag[j])];
          Send(i, LegacyBag(j, game.visibleBag[j]));
        }
        assert StartMessages(i, game)[..3] == StartMessages(i, game);
        WaitFor(i);
      }
    }

    /** `message(player, content)` */
    method OnMessage(socket: SocketId, req: LegacyRequest, e: LegacyInput) returns (o: Outcome)
      requires Valid() && InputOk(State(), socket, req, e)
      modifies this
      ensures (State(), o) == LegacyRules.OnMessage(old(State()), socket, req, e)
    {
      if done {
        return Handled;
      }
      var i := IndexOf(sockets, socket);
      match req
      case StateRequest =>
        Send(i, LegacySimpleState(e.simpleState));
        o := Handled;
      case ResultRequest(reason) =>
        o := OnResult(i, reason);
      case MoveRequest(c) =>
        if !waiting[i] {
          return Handled;
        }
        o := OnMove(i, c, e);
      case UnknownRequest =>
        o := Handled;
    }

    /** A 'result': the reason is clamped and the sender loses. */
    method OnResult(i: nat, reason: JsValue) returns (o: Outcome)
      requires Valid() && !done && i < |sockets|
      modifies this
      ensures (State(), o) == LegacyRules.OnResult(old(State()), i, reason)
    {
      var n := if variant.Src? then LegacyMoves.SRC_MAX_LENGTH else LegacyMoves.ROOT_MAX_LENGTH;
      var text := Util.ClampValue(reason, n);
      if text.Err? {
        return Threw(Sanitize(text.error));
      }
      if variant.Src? {
        FinishSrc(Some(1 - i), Reported(text.value));
      } else if |sockets| < 2 {
        // `players[winner]` is undefined: the send throws.
        return Threw(NoOpponent);
      } else {
        TellWinner(1 - i, Reported(text.value));
        Complete(None);
      }
      o := Handled;
    }

    /** A 'move' from an awaited player: sanitise, accept, drain the ticks, deal the bags. */
    method OnMove(i: nat, c: Util.MoveContent, e: LegacyInput) returns (o: Outcome)
      requires Valid() && !done && i < 2 && waiting[i] && MoveInputOk(State(), i, c, e)
      modifies this
      ensures (State(), o) == LegacyRules.OnMove(old(State()), i, c, e)
    {
      var sanitized := LegacyMoves.SanitizeMove(i, c).0;
      if sanitized.Err? {
        return Threw(Sanitize(sanitized.error));
      }
      var m := sanitized.value;
      Accept(i, m, e);
      Drain(m.LegacyPass?, e.ticks);
      if done {
        return Handled;
      }
      Deal();
      o := Handled;
    }

    /** The mover's timer is cleared, a placement is played, the move announced and the mover no longer awaited. */
    method Accept(i: nat, m: LegacyMoves.LegacyMove, e: LegacyInput)
      requires Valid() && !done && i < 2 && waiting[i] && ViewOk(e.afterPlay) && m.player == i
      modifies this
      ensures State() == LegacyRules.Accept(old(State()), i, m, e)
    {
      timers := Timers.Cancel(timers, i);
      if m.LegacyPlace? {
        game := e.afterPlay;
      }
      Announce(i, Sent(m, e.placement));
      waiting := waiting[i := false];
    }

    /** Hide the first of simultaneous moves, reveal a hidden one before the next, or broadcast. */
    method Announce(i: nat, move: SentMove)
      requires i < 2 && |outbox| == 2 && |waiting| == 2
      requires hiddenMove.Some? ==> hiddenMove.value.player < 2
      modifies this
      ensures State() == LegacyRules.Announce(old(State()), i, move)
    {
      if waiting[0] && waiting[1] {
        Hide(i, move);
      } else if hiddenMove.Some? {
        Reveal();
        Broadcast(LegacyMoveMessage(move));
      } else {
        Broadcast(LegacyMoveMessage(move));
      }
    }

    /** The first of simultaneous moves: the opponent gets only the mover's clock, the mover its move, and the move is kept. */
    method Hide(i: nat, move: SentMove)
      requires i < 2 && |outbox| == 2
      modifies this
      ensures State() == LegacyRules.Send(LegacyRules.Send(old(State()), 1 - i, LegacyTimer(move.ms)), i, LegacyMoveMessage(move)).(hiddenMove := Some(move))
    {
      Send(1 - i, LegacyTimer(move.ms));
      Send(i, LegacyMoveMessage(move));
      hiddenMove := Some(move);
    }

    /** The kept move goes to the player who has not seen it, and nothing is kept any more. */
    method Reveal()
      requires |outbox| == 2 && hiddenMove.Some? && hiddenMove.value.player < 2
      modifies this
      ensures var h := old(hiddenMove.value);
        State() == LegacyRules.Send(old(State()), 1 - h.player, LegacyMoveMessage(h)).(hiddenMove := None)
    {
      var h := hiddenMove.value;
      Send(1 - h.player, LegacyMoveMessage(h));
      hiddenMove := None;
    }

    /** The checks after a tick, in the source's order. */
    method PostTick(v: LegacyView)
      requires Valid() && |sockets| == 2 && ViewOk(v)
      modifies this
      ensures State() == LegacyRules.PostTick(old(State()), v)
    {
      var ending := TickEnding(variant, v);
      if ending.None? {
        return;
      }
      var e := ending.value;
      if variant.Src? {
        FinishSrc(e.winner, e.reason);
      } else if e.winner.Some? {
        TellWinner(e.winner.value, e.reason);
        Complete(None);
      } else {
        Broadcast(LegacyVerdict(Draw, e.reason));
        Complete(None);
      }
    }

    /** The tick loop: tick while both games are busy, or after a pass while one is; return once the session is done. */
    method Drain(pass: bool, ticks: seq<LegacyView>)
      requires Valid() && |sockets| == 2 && AllViewsOk(ticks) && Enough(variant, pass, game, ticks, done)
      modifies this
      ensures State() == DrainLoop(old(State()), pass, ticks)
    {
      var i := 0;
      while Continues(pass, game)
        invariant 0 <= i <= |ticks| && Valid() && |sockets| == 2
        invariant Enough(variant, pass, game, ticks[i..], done)
        invariant DrainLoop(State(), pass, ticks[i..]) == DrainLoop(old(State()), pass, ticks)
        decreases |ticks| - i
      {
        DrainStep(State(), pass, ticks[i..]);
        assert ticks[i..][0] == ticks[i] && ticks[i..][1..] == ticks[i + 1..];
        var stop := TickOnce(ticks[i]);
        i := i + 1;
        if stop {
          return;
        }
      }
    }

    /** One turn of the tick loop: the engine ticks to v; a finished session stops the loop, otherwise the checks run. */
    method TickOnce(v: LegacyView) returns (stop: bool)
      requires Valid() && |sockets| == 2 && ViewOk(v)
      modifies this
      ensures stop == old(done)
      ensures State() == if stop then old(State()).(game := v) else LegacyRules.PostTick(old(State()).(game := v), v)
    {
      game := v;
      if done {
        return true;
      }
      PostTick(game);
      return false;
    }

    /** The bag loop: a player neither busy nor awaited gets its bag broadcast and is awaited. */
    method Deal()
      requires Valid() && !done && |sockets| == 2
      modifies this
      ensures State() == DealFrom(old(State()), 0)
    {
      for i := 0 to |sockets|
        invariant Valid() && !done && |sockets| == 2
        invariant DealFrom(State(), i) == DealFrom(old(State()), 0)
      {
        ghost var before := State();
        if !game.busy[i] && !waiting[i] {
          Broadcast(LegacyBag(i, game.visibleBag[i]));
          WaitFor(i);
        }
        assert State() == DealStep(before, i);
      }
    }
  }

  /** One turn of the tick loop, as `DrainLoop` takes it: the tick is there, and what is left still suffices. */
  lemma DrainStep(s: LegacyState, pass: bool, ticks: seq<LegacyView>)
    requires Valid(s) && |s.sockets| == 2 && AllViewsOk(ticks) && Enough(s.variant, pass, s.game, ticks, s.done)
    requires Continues(pass, s.game)
    ensures ticks != [] && ViewOk(ticks[0]) && Valid(s.(game := ticks[0]))
    ensures s.done ==> DrainLoop(s, pass, ticks) == s.(game := ticks[0])
    ensures !s.done ==>
      var r := PostTick(s.(game := ticks[0]), ticks[0]);
      DrainLoop(s, pass, ticks) == DrainLoop(r, pass, ticks[1..])
      && Enough(r.variant, pass, r.game, ticks[1..], r.done)
  {
  }
}
