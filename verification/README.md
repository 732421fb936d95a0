# pujo-ws-server in Dafny

A model of the authoritative game-session logic of the Pujo Puyo WebSocket
server, a two-player falling-block puzzle server, with proofs of what it
promises. The puzzle engine (`pujo-puyo-core`) is not part of this model:
whatever the server asks of it (a game view after a tick, the move a
placement turns into, the moves a realtime game rejects, the pieces a
realtime tick reveals) is an input of the operation that asks.

The model covers six parts of the repository.

- **Input sanitisers** (`src/util.ts`), in module `Util`:
  - the coordinate clamps `sanitizeX`/`sanitizeY`;
  - `sanitizePausingMove` and `sanitizeRealtimeMove`, with the `& 3`
    orientation mask and the derivation of the orientation from a second cell;
  - `clampString` on UTF-16 strings, cut at code points;
  - `sanitizeClientInfo` and `sanitizeChallenge`.

  The JavaScript values these functions receive are modelled in module
  `JsValues`: undefined, null, booleans, integer-valued numbers and NaN, and
  strings of UTF-16 code units. The modules `JsStrings` and `JsBits` model
  code-point iteration and 32-bit bitwise arithmetic.
- **Replay move codec** (`src/storage.js`), in module `Storage`:
  - `encodeMove` packs time, player, x1, y1 and orientation into one 32-bit
    integer, and `decodeMove` unpacks it and rebuilds the second cell;
  - the start of `saveReplay` builds the replay row: winner, players and
    encoded moves.
- **Session state machine** (`src/server/session.ts`):
  - `SessionRules` holds the transitions of `WebSocketSession`,
    `PausingSession` and `RealtimeSession` as functions on a `SessionState`
    value;
  - `SessionLaws` proves what those transitions promise;
  - the class `Sessions.Session` holds the sixteen fields of `SessionState` as mutable state
    and performs each transition in place. It includes the pausing tick-drain
    `while` loop and the piece-dealing `for` loop.

  Each player is an index, 0 or 1, with an outbox holding every message the
  session sent to that player. Timers are handles that are armed or cancelled.
- **Matchmaking board** (`src/server/index.ts`), in module `ServerIndex`:
  - the challenge set, kept in insertion order;
  - auto-match, accept, cancel and the listing;
  - `startSession`, and the completion callbacks that unmap sockets, leave
    `activeRealtimeSessions` and report to the database relay;
  - the `user` and `database:user` updates;
  - socket open and close.

  The class `ServerIndex.Server` keeps these as fields and the sessions as
  `SessionState` values.
- **Database-relay filter** (`src/server/database-socket.ts`), in module
  `DatabaseSockets`.
- **The two single-file servers that came before** (`src/server.ts` and the
  older `server.ts` at the top of the repository):
  - `LegacyMoves` holds their `sanitizeMove`, `clampString` default and relay
    filter;
  - `LegacyRules`, `LegacyLaws` and the class `LegacySessions.LegacySession`
    hold their `WebSocketGameSession`;
  - the class `LegacyServers.LegacyServer` holds their pairing server loop.

  One `Variant` (`Src` or `Root`) selects which of the two servers is meant.

Behaviours of the source that the proofs make explicit, all modelled as the
code is written:

- In the current server, `onMessage` clears the mover's waiting flag before
  `PausingSession.onMove` runs its hide check. So the check that every waiting flag is set never holds,
  and every pausing move goes to both players. The legacy servers clear the
  flag after the check, and there the first of two simultaneous moves is
  hidden.
- A realtime move whose `time` is a string with no numeric reading (its
  first non-space character cannot begin a numeral) compares false on both
  sides of the lag window, so it is judged in time
  (`SessionLaws.NonNumericTimeInWindow`). A numeral string such as "1e9" or
  "0x1F" is compared by its value.
- A 'result' whose reason is not a string throws in `clampString`, after the
  winner has already been written (`SessionLaws.ResultConcedes`).
- The orientation derivation compares raw values with `===`. A string `y1`
  therefore turns `y1 + 1` into a concatenation, and a vertical step given
  with a string coordinate is rejected (`Util.StringCoordinateConcatenates`).
- The current server can pair a socket with a challenge it posted itself. The
  session is then a self-duel, in which `indexOf` always finds player 0.
  Player 1 is never ready there, so the game never gets its 'go'
  (`SessionLaws.SelfDuelNeverGoes`).
- The relay filter of `src/server.ts` throws on a non-string `type`. It also
  demands the secret for any type that starts with "database:", where the
  current filter demands it only for five listed types
  (`LegacyMoves.LegacyRejectsMore`, `LegacyMoves.PrefixIsEnough`).
- `src/server.ts` stores the `authUuid` a user sends without clamping it
  (`LegacyServers.RawUuidKept`).

## Model

| member | source | states |
|---|---|---|
| Util.SanitizeX | src/util.ts:35-43 | the result lies in [0, WIDTH-1]; a NaN parse gives 0; an in-range integer is kept; values below and above are clamped to the ends |
| Util.SanitizeY | src/util.ts:45-53 | the result lies in [1, HEIGHT-1]; a NaN parse gives 1; an in-range integer is kept; values outside are clamped to the ends |
| Util.MaskOrientation | src/util.ts:69 | `parseInt(v) & 3` lies in {0,1,2,3}; it is 0 for NaN and the Euclidean remainder mod 4 of the parsed integer, negatives included |
| JsBits.AndThree | src/util.ts:69 | `v & 3` equals ToUint32(v) mod 4, and equals v mod 4 for every integer v |
| Util.Orientation | src/util.ts:69-86 | an explicit orientation is masked; an absent one is derived from the second cell, string coordinates entering `y1 - 1` and `x1 - 1` by their `Number` value; it fails with 'Unable to sanitize move coordinates' exactly when it is absent and no rule matches |
| Util.DeriveOnNumbers | src/util.ts:74-86 | on numeric cells the rules fire in the order y2=y1-1 → 0, y2=y1+1 → 2, x2=x1-1 → 1, x2=x1+1 → 3, each only when every earlier rule fails, and nothing matches otherwise |
| Util.DiagonalAccepted | src/util.ts:74-86 | the diagonal step (2,2)→(3,3) is accepted by the first matching rule, as orientation 2 |
| Util.StringCoordinateConcatenates | src/util.ts:75-78 | with y1 the string "5", the step to y2 = 6 is not recognised, because `y1 + 1` concatenates |
| Util.HexCoordinateSubtracts | src/util.ts:74-76 | with y1 the string "0x1F", `y1 - 1` is 30, so y2 = 30 is the step above, orientation 0 |
| Util.SanitizePausingMove | src/util.ts:55-88 | a truthy `pass` gives a pass record carrying only the parsed msRemaining; otherwise the placement has clamped coordinates, the orientation `Orientation` finds (in [0,3]), a boolean hardDrop and the parsed msRemaining; it throws exactly when the orientation cannot be found |
| Util.PassIgnoresPlacement | src/util.ts:58-64 | two passing moves with the same msRemaining sanitise to the same pass record, whatever their coordinates |
| Util.SanitizeRealtimeMove | src/util.ts:90-116 | the time is the client's when truthy and the session age otherwise; clamped coordinates, the orientation `Orientation` finds (in [0,3]) and a boolean hardDrop; it throws exactly when the orientation cannot be found |
| Util.ClampValue | src/util.ts:118-120 | a string is cut to its first n code points; a non-string throws (it is not iterable) |
| Util.ClampOptional | src/util.ts:148-152 | an absent field stays absent; a present string is clamped; a present non-string throws |
| Util.SanitizeCore | src/util.ts:130-137 | the core version is clamped, `resolved` is clamped when present and absent when absent; it throws exactly when a field read is not a string |
| Util.SanitizeClientInfo | src/util.ts:122-139 | name and version are clamped; resolved and core are kept present exactly when given; it throws exactly when a read field is not a string |
| Util.SanitizeChallenge | src/util.ts:141-154 | gameType is pausing exactly when the request says 'pausing'; the three flags are the truthiness of the request's; name and password stay absent when absent and are clamped when present; the uuid is the one given |
| Util.ClampTest | src/__tests__/util.test.ts:20-32 | x1 = -69 is clamped to 0 and y1 = 420 to HEIGHT-1 |
| Util.OrientationTest | src/__tests__/util.test.ts:37-50 | the cells (2,2) and (3,2) give orientation 3 |
| Util.LoremTest | src/__tests__/util.test.ts:6-10 | an ASCII text starting "Lorem ipsum" clamped to 11 code points is "Lorem ipsum" |
| Util.FormulaCodePoints | src/__tests__/util.test.ts:12-15 | the formula of the test has 9 code points |
| Util.FormulaTest | src/__tests__/util.test.ts:12-18 | the formula has more than 9 code units, and clamping it to 9 code points leaves it whole |
| JsStrings.CodePoints | src/util.ts:119 | `[...str]` splits a string into code points that concatenate back to it; a surrogate pair is one code point and a lone surrogate is another |
| JsStrings.ClampIsPrefix | src/util.ts:118-120 | a clamped string is a prefix of the original |
| JsStrings.ClampCount | src/util.ts:118-120 | the clamped string's code points are the first min(n, count) code points of the original |
| JsStrings.ClampShort | src/util.ts:118-120 | a string of at most n code points is returned unchanged |
| JsStrings.ClampIdempotent | src/util.ts:118-120 | clamping twice to n is clamping once |
| JsStrings.ClampKeepsPairs | src/util.ts:118-120 | a cut never falls between the two halves of a surrogate pair |
| JsStrings.ClampWithoutSurrogates | src/util.ts:118-120 | on text without surrogates, clamping to n code points is taking n code units |
| JsStrings.NoSurrogatesUnits | src/util.ts:118-120 | on text without surrogates every code point is one code unit |
| JsValues.ClampNumber | src/server.ts:97-98 | `Math.max(lo, Math.min(hi, n))` keeps NaN and otherwise lands in [lo, hi], keeping in-range values |
| JsValues.NoNumeralIsNaN | src/server/session.ts:476-482 | `Number(s)` is NaN for a string whose first non-space code unit is not a digit, '.', a sign or the 'I' of "Infinity" |
| JsValues.HexNumeral | src/util.ts:74-76 | `Number("0x1F")` is 31: a `0x` numeral is read in base 16 |
| JsValues.ExponentNumeral | src/server/session.ts:476-482 | `Number("1e9")` is one billion |
| JsValues.FractionNumeral | src/server/session.ts:476-482 | `Number("-4.50e1")` is -45: sign, fraction and exponent together |
| JsValues.TrailingGarbage | src/server/session.ts:476-482 | `Number("12abc")` is NaN, where `parseInt` would read 12 |
| Storage.DecodeFields | src/storage.js:41-50 | the decoded orientation, y1, x1, player and time are bits 0-1, 2-5, 6-8, 9-11 and 12-31 of the 32-bit word |
| Storage.DecodeBounds | src/storage.js:41-64 | for any integer, orientation ∈ [0,3], y1 ∈ [0,15], x1 ∈ [0,7], player ∈ [0,7], time < 2^20, and (x2, y2) is the neighbour the orientation names |
| JsBits.AndMask | src/storage.js:43-49 | `v & ((1 << k) - 1)` is the value of the low k bits of v's 32-bit word |
| JsBits.WordOfUshr | src/storage.js:44-50 | `v >>> k` shifts the 32-bit word down by k, filling with zeros |
| JsBits.ShiftIn | src/storage.js:29-37 | `(v << k) \| f` with f < 2^k puts f in the low k bits above which v's low 32-k bits follow |
| Storage.EncodeLayout | src/storage.js:28-39 | the encoded word is orientation, y1, x1, player and time laid out from the low bits up |
| Storage.LayoutSlices | src/storage.js:4-9 | in the laid-out word, bits 0-1, 2-5, 6-8, 9-11 and 12-31 hold orientation, y1, x1, player and time |
| Storage.RoundTrip | src/storage.js:28-50 | decoding an encoded in-range move (orientation < 4, y1 < 16, x1 < 8, player < 8, time < 2^20) restores all five fields |
| Storage.EncodeInjective | src/storage.js:28-39 | two in-range moves with the same code are the same move |
| Storage.EncodeValue | src/storage.js:28-39 | with time < 2^19 the code is orientation + 4·y1 + 64·x1 + 512·player + 4096·time, non-negative and below 2^31 |
| Storage.DecodedCellsDeriveOrientation | src/storage.js:52-64 | feeding a decoded move's two cells to the orientation derivation of src/util.ts gives back the decoded orientation |
| Storage.EncodeMoves | src/storage.js:85 | the row's moves are the moves encoded one by one, in order |
| Storage.ReplayRowOf | src/storage.js:75-85 | the row's winner is null for a draw and `userIds[winner]` otherwise; left and right players are `userIds[0]` and `userIds[1]`; the reason is the result's |
| Storage.ReplayWinner | src/storage.js:75-83 | with two user ids the winner column is the left player when player 0 won, the right when player 1 won, null for a draw |
| Storage.ReplayMovesRoundTrip | src/storage.js:85 | every in-range move of a replay row decodes back to the move it came from |
| DatabaseSockets.OthersPass | src/server/database-socket.ts:20-31 | a message whose type is not one of the five `database:*` types is never rejected |
| DatabaseSockets.RejectIffForged | src/server/database-socket.ts:21-28 | a listed `database:*` message is rejected exactly when its authorization differs from the stored secret |
| Protocol.IndexOf | src/server/session.ts:194 | `indexOf` finds the first position holding the socket, and nothing before it holds it; the legacy servers use the same lookup (src/server.ts:288) |
| Protocol.NewPlayer | src/server/player.ts:19-30 | a new player has the given socket and name, is no bot, has no client info and no uuid, and is rated 1000 in both game types |
| Timers.Initial | src/server/session.ts:71 | a new session has no timer armed |
| Timers.CancelOnly | src/server/session.ts:216-218 | cancelling player i's timer disarms it and leaves the other player's as it was |
| Timers.RearmOnly | src/server/session.ts:104-114 | re-arming cancels the old handle, arms a fresh one for i only, and leaves the other player's timer as it was |
| Timers.CancelFromDisarms | src/server/session.ts:150-154 | clearing every timeout leaves no timer armed |
| SessionRules.Initial | src/server/session.ts:65-75 | a new session is valid and ongoing with no winner, nobody ready or awaited, no timer armed and empty outboxes |
| SessionRules.Broadcast | src/server/session.ts:142 | both players receive the message, after everything they had |
| SessionRules.PostTickVerdict | src/server/session.ts:237-264 | no verdict exactly when nobody is locked out, not both players are at 20 rerolls, and the age is within 10 minutes; a lockout always ends the game; a winner only comes from a single lockout and is the player not locked out |
| SessionRules.Drain | src/server/session.ts:386-395 | the drain ticks only while both games are busy, or the move was a pass and one game is busy; no tick before the last had a verdict; it stops on the last tick's verdict, or when the condition fails |
| SessionRules.DrainLoop | src/server/session.ts:386-395 | the drain loop leaves a valid session that is done or whose games no longer meet the loop condition |
| SessionRules.DealStep | src/server/session.ts:397-419 | dealing to one player keeps the session valid and running |
| SessionRules.DealFrom | src/server/session.ts:397-420 | the deal loop keeps the session valid and running |
| SessionRules.Announce | src/server/session.ts:338-384 | an announced move keeps the session valid and running; the game view is the engine's after the play, or unchanged on a pass |
| SessionRules.Classify | src/server/session.ts:476-482 | a numeric time is too late exactly below age-15, too early exactly above age+3, and in the window otherwise; NaN is in the window; a string time is read by `Number` (decimal with fraction and exponent, hexadecimal, octal, binary) |
| SessionRules.RevealPieces | src/server/session.ts:537-548 | revealing pieces keeps the session valid, running, of the same kind and between the same sockets |
| SessionRules.CompleteKeepsValid | src/server/session.ts:145-158 | completing a well-formed session gives a valid session |
| SessionRules.PostTickKeepsValid | src/server/session.ts:237-264 | the termination check keeps a session valid |
| SessionLaws.CompleteOnce | src/server/session.ts:145-158 | after `complete` the session is done, every timer is cleared, the callback has run exactly once, nothing is sent, and completing again changes nothing |
| SessionLaws.Disqualification | src/server/session.ts:116-121 | disqualifying p makes 1-p the winner with the given reason and completes; on a running session both players get the result; on a finished one only winner and reason change and nothing is sent |
| SessionLaws.FinishAnnounces | src/server/session.ts:123-158 | ending a running game sends both players exactly one result with its winner and reason, completes once, and leaves the game and played moves alone |
| SessionLaws.DisconnectResult | src/server/session.ts:160-188 | a disconnect completes the session; each player other than the one who left is sent a 'disconnect' result naming itself the winner, and the leaver is sent nothing; in a duel the other player wins, in a self-duel winner and reason stay as they were |
| SessionLaws.DoneIsFinal | src/server/session.ts:123-264 | once done, `onMessage`, `postTick`, `tick`, `disconnect`, `sendResult` and `complete` change nothing and send nothing |
| SessionLaws.TimeoutDisqualifies | src/server/session.ts:110-113 | an armed move timer that fires ends the running game: the other player wins by 'timeout' and both are told |
| SessionLaws.StartAwaitsBoth | src/server/session.ts:77-95 | `start` sets the metadata, sends each player its 'game params', clears both ready flags and awaits a move from both with armed timers |
| SessionLaws.ReadyThenGo | src/server/session.ts:196-201 | 'ready' sets the sender's flag; 'go' and, for pausing games, the first pieces are sent exactly when both flags are then set, and nothing otherwise |
| SessionLaws.SelfDuelNeverGoes | src/server/session.ts:194-201 | in a self-duel 'ready' never sets player 1's flag, so no 'go' is sent |
| SessionLaws.ResultConcedes | src/server/session.ts:204-208 | a 'result' with a string reason makes the other player the winner with the clamped reason and tells both; a non-string reason throws after the other player has been recorded as winner, and changes nothing else (the game is not over) |
| SessionLaws.DealOneEffect | src/server/session.ts:397-419 | a free player who is not awaited gets one piece broadcast (empty, with `passed` cleared, after a pass) and is awaited with an armed timer; the other player is untouched |
| SessionLaws.DealFirst | src/server/session.ts:397-420 | the first loop step deals to player 0 exactly when eligible and leaves player 1 alone |
| SessionLaws.DealLast | src/server/session.ts:397-420 | the second loop step deals to player 1 exactly when eligible and leaves player 0 alone |
| SessionLaws.DealExactly | src/server/session.ts:397-420 | the deal loop sends both players exactly one piece per eligible player, in player order, and deals to nobody else |
| SessionLaws.AnnounceEffect | src/server/session.ts:338-384 | a pass sets `passed[p]` without the engine; a placement is recorded in the played moves; both players receive the move, and nothing is hidden |
| SessionLaws.DrainLoopIsDrain | src/server/session.ts:386-395 | the tick-drain loop ends in the state the drain specification gives: the last view, and the verdict's result when one fired |
| SessionLaws.SettleByLoop | src/server/session.ts:386-420 | after the drain, pieces are dealt exactly when the game did not end |
| SessionLaws.SettleEffect | src/server/session.ts:386-420 | the drain ends the game with the verdict's winner and reason, or leaves it running with the loop condition false |
| SessionLaws.PausingMoveEffect | src/server/session.ts:338-420 | a pausing move is sent to both players before anything else that follows it, then the drain and the deal run |
| SessionLaws.PausingMoveAnnounced | src/server/session.ts:209-221 | a pausing move from a player who is not awaited is dropped; an awaited one clears that player's timer and flag first, then throws on bad coordinates or is announced, drained and dealt |
| SessionLaws.RetconPolicy | src/server/session.ts:497-522 | when the rejected list is exactly the played move object itself (`includes` by identity, an engine input), only the mover gets the move and a retcon; otherwise both get the move, and both get a retcon exactly when something was rejected |
| SessionLaws.JudgeByTime | src/server/session.ts:476-492 | a move before age-15 disqualifies the mover for 'lagging', one after age+3 for 'advancing', and one in the window is delivered |
| SessionLaws.RealtimeMoveJudged | src/server/session.ts:471-482 | a realtime move clears the mover's timer and flag; in a pausing session it throws; bad coordinates throw; otherwise it is judged by its time |
| SessionLaws.NonNumericTimeInWindow | src/server/session.ts:476-482 | a time string whose first non-space character cannot begin a numeral, and an absent time, are never too late or too early |
| SessionLaws.RevealBroadcasts | src/server/session.ts:537-548 | each revealed piece is sent to both players, in order |
| SessionLaws.RevealAwaits | src/server/session.ts:537-548 | a player is awaited with an armed timer after the reveal exactly when one of the pieces is theirs; others keep their flag and timer |
| SessionLaws.TickGoesOn | src/server/session.ts:526-548 | a tick without a verdict advances the age, broadcasts the revealed pieces and awaits their players |
| SessionLaws.TickLaw | src/server/session.ts:526-549 | a tick does nothing unless running and both players are ready; otherwise the age goes up by one and the verdict ends the game with one result sent, or the pieces are revealed |
| SessionLaws.OnMessageKeepsValid | src/server/session.ts:190-223 | every message keeps the session valid, only appends to outboxes, and changes nothing once done |
| Sessions.Session.constructor | src/server/session.ts:65-75 | the new session's state is the initial one |
| Sessions.Session.WaitForMove | src/server/session.ts:104-114 | the state afterwards is `SessionRules.WaitForMove` of the state before: flag set, old timer cancelled, new one armed |
| Sessions.Session.Broadcast | src/server/session.ts:142 | the `forEach` loop appends the message to both outboxes, after everything already sent |
| Sessions.Session.SendResult | src/server/session.ts:123-143 | the state afterwards is `SessionRules.SendResult` of the state before |
| Sessions.Session.Complete | src/server/session.ts:145-158 | the state afterwards is `SessionRules.Complete` of the state before (see SessionLaws.CompleteOnce) |
| Sessions.Session.DisqualifyPlayer | src/server/session.ts:116-121 | the state afterwards is `SessionRules.DisqualifyPlayer` of the state before (see SessionLaws.Disqualification) |
| Sessions.Session.TimerFires | src/server/session.ts:110-113 | the state afterwards is the timeout disqualification of the state before |
| Sessions.Session.Disconnect | src/server/session.ts:160-188 | the state afterwards is `SessionRules.DisconnectSocket` of the state before (see SessionLaws.DisconnectResult) |
| Sessions.Session.Start | src/server/session.ts:77-95 | the players loop performs `SessionRules.Start` (see SessionLaws.StartAwaitsBoth) |
| Sessions.Session.StartPlayer | src/server/session.ts:86-95 | one loop step clears the player's ready flag, sends its 'game params' and awaits its move |
| Sessions.Session.PostGo | src/server/session.ts:317-328 | the nested loops send both players the next piece of each game |
| Sessions.Session.PostTick | src/server/session.ts:237-264 | the state afterwards is `SessionRules.PostTick` of the state before |
| Sessions.Session.OnMessage | src/server/session.ts:190-223 | the state and outcome are `SessionRules.OnMessage` of the state before |
| Sessions.Session.OnReady | src/server/session.ts:196-201 | the state afterwards is `SessionRules.OnReady` of the state before (see SessionLaws.ReadyThenGo) |
| Sessions.Session.OnResult | src/server/session.ts:204-208 | state and outcome are `SessionRules.OnResult` of the state before (see SessionLaws.ResultConcedes) |
| Sessions.Session.OnPausingRequest | src/server/session.ts:209-221 | state and outcome are `SessionRules.OnPausingRequest` of the state before |
| Sessions.Session.OnRealtimeRequest | src/server/session.ts:209-221 | state and outcome are `SessionRules.OnRealtimeRequest` of the state before |
| Sessions.Session.AcceptMove | src/server/session.ts:216-219 | the mover's timer is cleared and its waiting flag reset |
| Sessions.Session.PausingOnMove | src/server/session.ts:338-421 | state and outcome are `SessionRules.PausingMove` of the state before (see SessionLaws.PausingMoveEffect) |
| Sessions.Session.Announce | src/server/session.ts:338-384 | the state afterwards is `SessionRules.Announce` of the state before (see SessionLaws.AnnounceEffect) |
| Sessions.Session.Drain | src/server/session.ts:386-395 | the `while` loop ends in `SessionRules.DrainLoop` of the state before (see SessionLaws.DrainLoopIsDrain) |
| Sessions.Session.TickOnce | src/server/session.ts:390-394 | one loop iteration adopts the ticked view, runs the termination check and reports whether the game ended |
| Sessions.DrainStep | src/server/session.ts:386-395 | the loop condition guarantees a tick is available, and one iteration advances the drain to the rest of the ticks |
| Sessions.Session.Deal | src/server/session.ts:397-420 | the `for` loop ends in `SessionRules.DealFrom(s, 0)` of the state before (see SessionLaws.DealExactly) |
| Sessions.Session.DealTo | src/server/session.ts:398-419 | one loop iteration performs `SessionRules.DealStep` |
| Sessions.Session.RealtimeOnMove | src/server/session.ts:471-523 | state and outcome are `SessionRules.RealtimeMove` of the state before (see SessionLaws.JudgeByTime, SessionLaws.RetconPolicy) |
| Sessions.Session.Tick | src/server/session.ts:526-549 | the state afterwards is `SessionRules.Tick` of the state before (see SessionLaws.TickLaw) |
| Sessions.Session.Age | src/server/session.ts:530-533 | the age goes up by one and the termination check runs on the warped view |
| Sessions.Session.Reveal | src/server/session.ts:537-548 | the `for` loop performs `SessionRules.RevealPieces` (see SessionLaws.RevealBroadcasts) |
| ServerIndex.ServerTypesAreNotRelayTypes | src/server/index.ts:195-197 | the player message types 'user', 'game request', 'cancel game request', 'challenge list' and 'accept challenge' are never filtered |
| ServerIndex.RejectsOnlyForgedRelayRequests | src/server/index.ts:183-197 | the relay filter rejects a request exactly when it is one of the modelled `database:*` requests and its authorization is not the relay's secret |
| ServerIndex.FirstWhere | src/server/index.ts:241-258 | the scan finds the first challenge in insertion order that satisfies the test, or reports that none does |
| ServerIndex.FirstWhereIsFirst | src/server/index.ts:241-258 | a challenge that passes the test with none before it passing is the one the scan finds |
| ServerIndex.FirstWhereNone | src/server/index.ts:241-258 | when no challenge passes, the scan finds none |
| ServerIndex.RemoveAt | src/server/index.ts:119 | deleting one challenge keeps the others in order |
| ServerIndex.ListingSound | src/server/index.ts:283-303 | every listed entry comes from a challenge without a password, and carries the owner's name when the challenge has none |
| ServerIndex.ListingComplete | src/server/index.ts:283-303 | every challenge without a password is listed |
| ServerIndex.ListingOmitsPrivate | src/server/index.ts:286-288 | a uuid held only by password-protected challenges never appears in the listing |
| ServerIndex.UserUpdate | src/server/index.ts:211-225 | a truthy username is clamped to 64 code points, client info is sanitised, `isBot` is set when given, a truthy authUuid is clamped and stored; the update throws exactly when a read field is not a string |
| ServerIndex.Forwarding | src/server/index.ts:221-229 | the relay gets the user message with the player's own uuid filled in when the message carries none |
| ServerIndex.Report | src/server/index.ts:32-49 | 'elo update' and 'replay' go to the relay exactly when there is one and both players have an authUuid |
| ServerIndex.RemoveFirst | src/server/index.ts:53-58 | leaving `activeRealtimeSessions` removes one occurrence of the session, if any |
| ServerIndex.Server.constructor | src/server/index.ts:18-26 | the server starts with no players, challenges, sessions or relay |
| ServerIndex.Server.Open | src/server/index.ts:141-145 | opening a socket adds a new default player and changes nothing else |
| ServerIndex.Server.Scan | src/server/index.ts:241-258 | the `for…of` scan returns the first challenge that satisfies the test |
| ServerIndex.Server.StartSession | src/server/index.ts:106-120 | a started session is appended, both sockets are mapped to it, a realtime session joins the active list, and exactly the matched challenge is removed |
| ServerIndex.Server.Advance | src/server/index.ts:28-80 | a session step that ends the game unmaps both sockets, leaves the active list, and reports to the relay as `Report` says; any other step touches none of these |
| ServerIndex.Server.OnComplete | src/server/index.ts:28-80 | the completion callback unmaps both players' sockets, drops a realtime session from the active list, and sends the report |
| ServerIndex.Server.Unmap | src/server/index.ts:29-31 | the sockets' map entries are deleted |
| ServerIndex.Server.Withdraw | src/server/index.ts:274-282 | 'cancel game request' removes the player's first challenge, or nothing when the player owns none |
| ServerIndex.Server.Close | src/server/index.ts:146-163 | a closing socket withdraws its first challenge and goes offline; with a session, the session takes `DisconnectSocket`, and when that completes it, both sockets are unmapped, it leaves the realtime list and the relay gets the report (`AfterAdvance`); without one, nothing else changes |
| ServerIndex.Server.Forward | src/server/index.ts:326-329 | any other message goes to the sender's session, whose new state is `SessionRules.OnMessage`'s; a completing session is unmapped, leaves the realtime list and is reported (`AfterAdvance`); without a session nothing changes |
| ServerIndex.Server.TimerFires | src/server/session.ts:110-113 | a session's move timer disqualifies the late player; the session's sockets are unmapped, it leaves the realtime list and is reported (`AfterAdvance`); players, board, relay and replies are unchanged |
| ServerIndex.Server.TickSession | src/server/index.ts:91-96 | a realtime tick advances the session by `SessionRules.Tick`; a tick that ends the game unmaps, deactivates and reports the session (`AfterAdvance`); players, board, relay and replies are unchanged |
| ServerIndex.Server.Hello | src/server/index.ts:183-193 | 'database:hello' installs the relay exactly when the secret matches |
| ServerIndex.Server.RatePlayer | src/server/index.ts:199-207 | 'database:user' sets both ratings of a known receiver and passes the payload on; an unknown receiver changes nothing |
| ServerIndex.Server.UpdateUser | src/server/index.ts:211-231 | 'user' updates the player as `UserUpdate` says and forwards the message to the relay when there is one and nothing threw |
| ServerIndex.Server.RequestGame | src/server/index.ts:233-273 | a socket with a session is ignored; an auto request starts a session with the first compatible challenge, a realtime one joining the active list; otherwise exactly one challenge owned by the requester is added and no session starts |
| ServerIndex.Server.AutoMatch | src/server/index.ts:240-258 | a match is the first challenge that is auto, has no password, passes both bot checks and has equal gameType and ranked; it starts a session |
| ServerIndex.Server.Post | src/server/index.ts:259-271 | the sanitised challenge is appended, owned by the requester |
| ServerIndex.Server.ListChallenges | src/server/index.ts:283-303 | the requester is sent the listing and nothing else changes |
| ServerIndex.Server.Accept | src/server/index.ts:305-324 | the first challenge whose password or uuid matches starts a session (a realtime one joins the active list) and the handler returns; when none does, the player is told 'challenge not found' with the uuid and password echoed, and the message goes on to the sender's session |
| ServerIndex.Server.OnMessage | src/server/index.ts:165-330 | with a relay installed, a message other than 'database:hello' that the relay filter rejects is dropped: players, challenges, sessions and all outgoing messages stay as they were |
| LegacyMoves.WriteOrientation | src/server.ts:81-93 | with x2 present the orientation is derived in the order 0, 2, 1, 3 and written into the content, or it throws; without x2 the content is untouched |
| LegacyMoves.Placement | src/server.ts:94-103 | x1 and y1 are clamped when numeric and stay NaN otherwise; the orientation is masked with `& 3` |
| LegacyMoves.SanitizeMove | src/server.ts:72-104 | a pass returns at once; it throws exactly when a second cell is not adjacent and then writes nothing; otherwise the placement is read from the rewritten content |
| LegacyMoves.AgreesOnNumbers | src/server.ts:94-103 | on numeric coordinates with an explicit orientation and no second cell, the old and the current sanitiser agree |
| LegacyMoves.KeepsNaN | src/server.ts:97 | a missing x1 stays NaN in the old sanitiser, where the current one gives 0 |
| LegacyMoves.DerivedOverrides | src/server.ts:81-93 | a second cell overrides an explicit orientation in the old sanitiser, where the current one keeps the explicit one |
| LegacyMoves.RootKeepsOneMore | server.ts:48-50 | a 256-code-point text is kept whole by the default of `server.ts` and cut to 255 by that of `src/server.ts` |
| LegacyMoves.LegacyReject | src/server.ts:122-127 | a non-string type throws; a type starting with "database:" is rejected exactly when the secret differs |
| LegacyMoves.LegacyRejectsMore | src/server.ts:122-127 | whatever the current filter rejects, the old one rejects too |
| LegacyMoves.PrefixIsEnough | src/server.ts:123-124 | "database:x" with a wrong secret is dropped by the old filter and passed by the current one |
| LegacyMoves.NonStringTypeThrows | src/server.ts:123 | a missing type makes the old filter throw, where the current one passes it |
| LegacyRules.Initial | src/server.ts:159-174 | a new session holds only its creator, is running and valid, and has sent nothing |
| LegacyRules.TickEnding | src/server.ts:354-374 | double lockout → draw; single lockout → the other player wins; 20 rerolls → impasse (in `src/server.ts` only); age over 10 minutes → draw; nothing otherwise |
| LegacyRules.PostTick | src/server.ts:354-374 | a running session ends exactly when the tick has an ending |
| LegacyRules.LastOpponent | src/server.ts:266-280 | the winner of a disconnect is the last player other than the one who left, if any |
| LegacyRules.Join | src/server.ts:183-224 | the second player joins and `start` sends each player 'game params' and both bags, and awaits both |
| LegacyRules.DrainLoop | src/server.ts:344-375 | the drain loop leaves a valid session that is done or whose games no longer meet the loop condition |
| LegacyRules.Drain | src/server.ts:344-375 | the tick loop's reference: no tick when the loop condition fails; a session already done takes exactly one more tick; an ending is found only by a tick taken while the session is live; with no ending the loop stops where the condition fails, at a tick with no ending |
| LegacyRules.DealStep | src/server.ts:381-400 | dealing to one player keeps the session valid and running |
| LegacyRules.DealFrom | src/server.ts:381-401 | the deal loop keeps the session valid and running |
| LegacyRules.Announce | src/server.ts:321-341 | announcing changes only the outboxes and the hidden-move cache, which afterwards is empty, still the earlier move, or this move |
| LegacyRules.Accept | src/server.ts:306-342 | an accepted move leaves a valid running duel whose game is the played one, or unchanged on a pass |
| LegacyRules.ArmOnly | src/server.ts:394-399 | arming player i's timer arms one new handle and leaves the other player's timer alone |
| LegacyRules.EndGameKeepsValid | src/server.ts:354-374 | an ending keeps the session valid and makes it done |
| LegacyRules.CompleteKeepsValid | src/server.ts:239-259 | completing keeps the session valid |
| LegacyLaws.CompleteOnce | src/server.ts:239-259 | `complete` is idempotent: done, every timer cleared, the winner recorded once, nothing sent |
| LegacyLaws.DoneIsInert | src/server.ts:284-287 | a finished session ignores every message and every disconnect |
| LegacyLaws.ImpasseOnlyInSrc | server.ts:336-386 | a reroll impasse ends the game in `src/server.ts` and never in `server.ts` |
| LegacyLaws.EndGameTells | server.ts:336-386 | `src/server.ts` sends both players the winner and reason; `server.ts` sends 'win' and 'loss' to the winner and loser, or 'draw' to both |
| LegacyLaws.RootLockout | server.ts:350-371 | in `server.ts` a single lockout gives the locked-out player 'loss' and the other 'win' |
| LegacyLaws.DisqualifyTells | server.ts:153-173 | a fired timer ends the game by 'timeout': p loses, and the result is sent both ways |
| LegacyLaws.NotifyTells | src/server.ts:267-280 | the disconnect loop tells every player other than the one who left, and nobody else |
| LegacyLaws.DisconnectTells | src/server.ts:261-282 | a disconnect completes a running session and tells only the others; in `src/server.ts` the last other player is the winner |
| LegacyLaws.DisconnectInDuel | server.ts:230-249 | in a duel only the opponent is told, and in `src/server.ts` the opponent wins |
| LegacyLaws.ResultTells | server.ts:262-283 | a 'result' concedes with the clamped reason: `src/server.ts` tells both the winner; `server.ts` sends 'win' and 'loss', and throws when there is no opponent yet |
| LegacyLaws.UnawaitedMoveIgnored | src/server.ts:302-305 | a move from a player who is not awaited is ignored |
| LegacyLaws.BadMoveThrows | src/server.ts:306 | a move whose second cell is not adjacent throws and changes nothing |
| LegacyLaws.HideFirstOfTwo | src/server.ts:321-331 | with both players awaited the move goes only to the mover, the opponent gets a 'timer', the move is cached, and the mover's timer is cleared |
| LegacyLaws.RevealBeforeBroadcast | src/server.ts:332-338 | a cached move is revealed to the other player before the new move is broadcast |
| LegacyLaws.PlainBroadcast | src/server.ts:339-341 | with nothing cached and one player awaited, the move goes to both |
| LegacyLaws.FirstMoveHidden | src/server.ts:511-516 | after the second player joins, the first move is hidden from the opponent |
| LegacyLaws.DealStepTells | src/server.ts:381-400 | a free player who is not awaited gets its bag broadcast and is awaited |
| LegacyLaws.DealFromTells | src/server.ts:381-401 | the deal loop broadcasts the bags of exactly the free, unawaited players, in order |
| LegacyLaws.DrainLoopIsDrain | src/server.ts:344-375 | the tick loop ends in the state the reference gives: the ending found by the first ending tick announced once, and the engine at the view where the reference stops |
| LegacyLaws.DealAwaitsIdle | src/server.ts:381-401 | after the deal every free player is awaited, both players receive the same bags, at most two |
| LegacyLaws.OnResultKeepsValid | src/server.ts:295-301 | a 'result' keeps the session valid and changes nothing when it throws |
| LegacyLaws.OnMessageKeepsValid | src/server.ts:284-403 | every message keeps the session valid and changes nothing when it throws |
| LegacySessions.LegacySession.constructor | src/server.ts:159-174 | the new session's state is the initial one |
| LegacySessions.LegacySession.WaitFor | src/server.ts:394-399 | the player is awaited with a new timer |
| LegacySessions.LegacySession.Broadcast | src/server.ts:228-235 | the `forEach` loop appends the message to every player's outbox, after everything already sent |
| LegacySessions.LegacySession.Complete | src/server.ts:239-259 | the state afterwards is `LegacyRules.Complete` of the state before (see LegacyLaws.CompleteOnce) |
| LegacySessions.LegacySession.FinishSrc | src/server.ts:226-237 | `sendResult` followed by `complete` |
| LegacySessions.LegacySession.TellWinner | server.ts:355-370 | the winner gets 'win' and the loser 'loss' |
| LegacySessions.LegacySession.DisqualifyPlayer | src/server.ts:176-181 | the state afterwards is `LegacyRules.DisqualifyPlayer` of the state before (see LegacyLaws.DisqualifyTells) |
| LegacySessions.LegacySession.TimerFires | src/server.ts:215-218 | a fired timer performs the disqualification |
| LegacySessions.LegacySession.Disconnect | src/server.ts:261-282 | the players loop performs `LegacyRules.Disconnect` (see LegacyLaws.DisconnectTells) |
| LegacySessions.LegacySession.Join | src/server.ts:511-516 | the second player is pushed and the game started |
| LegacySessions.LegacySession.Start | src/server.ts:183-224 | the players loop sends 'game params' and bags and awaits each player |
| LegacySessions.LegacySession.OnMessage | src/server.ts:284-403 | state and outcome are `LegacyRules.OnMessage` of the state before |
| LegacySessions.LegacySession.OnResult | src/server.ts:295-301 | state and outcome are `LegacyRules.OnResult` of the state before (see LegacyLaws.ResultTells) |
| LegacySessions.LegacySession.OnMove | src/server.ts:302-402 | state and outcome are `LegacyRules.OnMove` of the state before |
| LegacySessions.LegacySession.Accept | src/server.ts:306-342 | the state afterwards is `LegacyRules.Accept` of the state before (see LegacyLaws.HideFirstOfTwo) |
| LegacySessions.LegacySession.Announce | src/server.ts:321-341 | the state afterwards is `LegacyRules.Announce` of the state before |
| LegacySessions.LegacySession.Hide | src/server.ts:326-331 | the opponent gets a 'timer', the mover the move, and the move is cached |
| LegacySessions.LegacySession.Reveal | src/server.ts:336-337 | the cached move goes to the other player and the cache is emptied |
| LegacySessions.LegacySession.PostTick | src/server.ts:354-374 | the state afterwards is `LegacyRules.PostTick` of the state before |
| LegacySessions.LegacySession.Drain | src/server.ts:344-375 | the `while` loop ends in `LegacyRules.DrainLoop` of the state before (see LegacyLaws.DrainLoopIsDrain) |
| LegacySessions.LegacySession.TickOnce | src/server.ts:348-374 | one iteration adopts the ticked view and returns at once when already done, or runs the ending checks |
| LegacySessions.DrainStep | src/server.ts:344-375 | one loop iteration advances the drain to the rest of the ticks |
| LegacySessions.LegacySession.Deal | src/server.ts:381-401 | the `for` loop ends in `LegacyRules.DealFrom(s, 0)` (see LegacyLaws.DealFromTells) |
| LegacyServers.GatePassesPlayers | src/server.ts:470-472 | the old filter passes every player message, throws only on a non-string type, and drops a 'database:user' exactly when its secret is wrong |
| LegacyServers.LegacyUserUpdate | src/server.ts:485-496 | a truthy username is clamped to 64, client info is sanitised, a truthy authUuid is stored unclamped; it throws exactly when a read field is not a string |
| LegacyServers.LegacyForwarding | src/server.ts:492-499 | the relay gets the user message with the player's uuid filled in when missing |
| LegacyServers.RootProfile | server.ts:469-474 | a game request's name, when present, is clamped to 64, and client info is sanitised, before the pairing |
| LegacyServers.EmptyNameDiffers | server.ts:469-471 | `server.ts` takes an empty name and throws on null, where `src/server.ts` ignores both |
| LegacyServers.RawUuidKept | src/server.ts:492-493 | a long authUuid is stored whole by `src/server.ts` and cut to 255 code points by the current server |
| LegacyServers.Without | src/server.ts:249-251 | deleting map entries removes exactly the deleted keys from the insertion order and adds none |
| LegacyServers.FirstOpen | src/server.ts:511-518 | the scan over `sessionBySocketId.values()` finds the first entry whose session has fewer than two players |
| LegacyServers.NoOpenWhenScanFails | src/server.ts:511-522 | when the scan finds nothing, no session is waiting for a second player |
| LegacyServers.ScanFindsOpen | src/server.ts:511-517 | the session the scan finds is the only one waiting for a second player |
| LegacyServers.JoinKeeps | src/server.ts:511-516 | joining the waiting session keeps the server invariant |
| LegacyServers.CreateKeeps | src/server.ts:519-522 | opening a new session when none is waiting keeps the server invariant |
| LegacyServers.AdvanceKeeps | src/server.ts:239-251 | a session step, with its sockets unmapped when it ends the game, keeps the server invariant |
| LegacyServers.Report | src/server.ts:252-258 | 'elo update' goes to the relay exactly when there is one and the session has two players |
| LegacyServers.LegacyServer.constructor | src/server.ts:406-411 | the server starts with no players, sessions or relay |
| LegacyServers.LegacyServer.Open | src/server.ts:432-436 | opening a socket adds a new player rated 1000 |
| LegacyServers.LegacyServer.Scan | src/server.ts:511-518 | the `for…of` loop returns `FirstOpen` |
| LegacyServers.LegacyServer.Unmap | src/server.ts:249-251 | the sockets' map entries are deleted, the rest keep their order |
| LegacyServers.LegacyServer.Advance | src/server.ts:239-259 | a step that ends the game unmaps its sockets and reports to the relay; any other step touches neither |
| LegacyServers.LegacyServer.Close | src/server.ts:437-446 | a closing socket goes offline; when it has a session, the session ends by `disconnect`, its sockets are unmapped and leave the key order, and the relay gets the report; without one nothing else changes |
| LegacyServers.LegacyServer.Forward | src/server.ts:526-529 | any other message goes to the sender's session, whose new state is `LegacyRules.OnMessage`'s; a session that completes has its sockets unmapped and removed from the key order and is reported; otherwise the index and relay messages stay; without a session nothing changes |
| LegacyServers.LegacyServer.TimerFires | src/server.ts:215-218 | a fired timer ends the session, unmaps its sockets, removes them from the key order and reports |
| LegacyServers.LegacyServer.Pair | src/server.ts:504-524 | a socket without a session joins the first waiting session, or opens a new one |
| LegacyServers.LegacyServer.JoinAt | src/server.ts:511-516 | the socket joins the given waiting session |
| LegacyServers.LegacyServer.OpenNew | src/server.ts:519-522 | a new one-player session is opened for the socket |
| LegacyServers.LegacyServer.Hello | src/server.ts:458-468 | 'database:hello' installs the relay exactly when the secret matches |
| LegacyServers.LegacyServer.Rate | src/server.ts:474-481 | 'database:user' sets an online receiver's rating and passes the payload's elo on to that receiver; an unknown receiver changes nothing |
| LegacyServers.LegacyServer.UpdateUser | src/server.ts:485-502 | 'user' updates the player as `LegacyUserUpdate` says and forwards to the relay when there is one |
| LegacyServers.LegacyServer.Profile | server.ts:468-474 | the profile fields of a game request update the player as `RootProfile` says |
| LegacyServers.LegacyServer.OnMessage | src/server.ts:448-530 | a message the filter stops changes nothing; a 'database:user' is taken from anyone while there is no relay; a game request that does not throw leaves the sender in a running session; session messages go to the session |

## Left out

- The puzzle engine (`pujo-puyo-core`) is not part of this model. Its game views, played moves, rejected-move lists and revealed pieces are inputs. The grid constants WIDTH = 6 and HEIGHT = 16, which `src/util.ts` imports from the engine, are fixed.
- Socket plumbing is left out: `Bun.serve`, JSON parsing, ping/pong, `Player.send` beyond appending to an outbox, and the `ClientSocket` heartbeat of `src/util.ts`. `CLIENT_INFO` reads git and package files and is left out too.
- The realtime tick loop of `src/server/index.ts` schedules with `performance.now()` floats. One session's tick is modelled (`ServerIndex.Server.TickSession`); the scheduling is not.
- Wall-clock timers are handles that are armed or cancelled. Durations are not modelled, and neither is the firing time.
- Floating point: numbers are integers or NaN. Fractions, infinities and -0 are not modelled. `parseFloat(msRemaining)` and the timer texts are opaque values that are carried along.
- Randomness: challenge uuids, socket ids and seeds are parameters. Opening a socket requires a fresh socket id.
- The anonymous player name is a parameter of `Open`.
- Game params, metadata, names, ratings and seeds inside the messages are not modelled. A 'game params' message carries only the player's identity.
- `toSimpleGame` is an engine call. A 'simple state request' is answered with the engine's simple state, which is an input, and changes nothing else.
- `toReplay` is left out; the relay's 'replay' message carries the session id.
- `src/elo.js`, `src/ai.ts`, the bot clients, the database scripts and the SQL inside `saveReplay` and `loadReplay` are left out. They are floating-point code, randomised heuristics or I/O.
- `src/server.js` is a trivial echo server and is left out.
- Root `server.ts` converts a binary message with `Buffer.toJSON()` rather than parsing it; only parsed messages are modelled.
- A `database:user` message without a `payload` throws in the source. The model's request always carries its ratings.
- A 'result' in a one-player `server.ts` session throws on the missing opponent. This is modelled as the `NoOpponent` outcome, with the state unchanged.
- ServerIndex.Server.OnMessage: its contract states only the relay filter. What each branch does is stated by the method it dispatches to (`Hello`, `RatePlayer`, `UpdateUser`, `RequestGame`, `Withdraw`, `ListChallenges`, `Accept`, `Forward`).
- LegacyServers.LegacyServer.OnMessage: its contract states the filter, the rating path, the pairing outcome and session forwarding. The user update and profile paths are stated by `UpdateUser` and `Profile`.
- SessionRules.DealStep: its own contract states only that the session stays valid and running. What it sends and whom it awaits is proved by SessionLaws.DealFirst and SessionLaws.DealLast.
- SessionRules.DealFrom: its own contract states only validity. SessionLaws.DealExactly proves what it sends and whom it awaits.
- SessionRules.RevealPieces: its own contract states only validity and the unchanged duel. SessionLaws.RevealBroadcasts and SessionLaws.RevealAwaits prove the messages and the awaited players.
- SessionRules.DrainLoop: its own contract states only validity and the stop condition. SessionLaws.DrainLoopIsDrain ties it to the drain specification.
- LegacyRules.DealStep: its own contract states only validity. LegacyLaws.DealStepTells proves the bag and the awaited flag.
- LegacyRules.DealFrom: its own contract states only validity. LegacyLaws.DealFromTells and LegacyLaws.DealAwaitsIdle prove the bags and the awaited flags.
- LegacyRules.Accept: its own contract states only validity and the new game view. The messages are proved by LegacyLaws.HideFirstOfTwo, LegacyLaws.RevealBeforeBroadcast and LegacyLaws.PlainBroadcast.
- JsValues.StringToNumber: a numeral whose value is not an integer ("4.5", "1e-1") and the "Infinity" forms read as NaN, because numbers here are integers. Every other numeral is read by value.
- SessionRules.Classify: a time string that is a fraction or "Infinity" is treated as NaN and so lands in the window (see JsValues.StringToNumber).
- Util.Orientation: a string coordinate that is a fraction or "Infinity" is treated as NaN in `y1 - 1` and `x1 - 1` (see JsValues.StringToNumber).
- SessionLaws.NonNumericTimeInWindow: it covers the strings that cannot begin a numeral. Fraction and "Infinity" strings, which JavaScript compares as numbers, are not covered.
- JsValues.ParseInt: numbers are unbounded integers. The rounding of doubles above 2^53 is not modelled, nor the exponential string form that `parseInt` reads from numbers of 1e21 and more (`parseInt(1e21, 10)` is 1).
- Util.ClampValue: only strings are spread. An array of strings, which `clampString` spreads and joins (`["ab"]` gives "ab"), is modelled as the not-iterable error.
- LegacyServers.RootProfile: a `clientInfo` of null, which root `server.ts` passes to `sanitizeClientInfo` where it throws, cannot be expressed; `clientInfo` is either absent or an object.
- LegacyServers.LegacyServer.Rate: the receiver is sent the payload's `elo` field only; the rest of the payload is not modelled.
- Sessions are kept as values inside the two server classes. The sharing of one session object between both players' map entries is represented by a session index.
