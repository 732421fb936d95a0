/**
 * The server loop of the two single-file servers (`src/server.ts` and the
 * older `server.ts`): the players by socket, `sessionBySocketId` in the
 * order its keys were set, the sessions, and, in `src/server.ts` only, the
 * database relay.
 *
 * A game request joins the first session that still waits for a second
 * player, in the map's iteration order, or opens a new one; whatever else a
 * player sends goes to its session. Sessions are kept as values and
 * advanced by the `LegacyRules` transitions the `LegacySession` class is
 * proved to perform.
 */
module LegacyServers {
  import opened Wrappers
  import opened JsValues
  import JsStrings
  import Util
  import opened Protocol
  import Timers
  import opened DatabaseSockets
  import LegacyMoves
  import LegacyRules
  import LegacyLaws
  import ServerIndex

  /** A player: `src/server.ts` keeps all four fields, `server.ts` only the name and the client info. */
  datatype LegacyPlayer = LegacyPlayer(name: JsString, elo: JsValue, authUuid: JsValue, clientInfo: Option<Util.ClientInfo>)

  /** `new Player(ws, name)`: rated 1000, no uuid, no client info. */
  function NewLegacyPlayer(name: JsString): LegacyPlayer
  {
    LegacyPlayer(name, Number(Finite(1000)), Undefined, None)
  }

  /** The fields of a `user` message that `src/server.ts` reads. */
  datatype UserFields = UserFields(username: JsValue, clientInfo: Option<Util.ClientInfoContent>, authUuid: JsValue)

  /** A message a socket sends, by its `type`. */
  datatype LegacyServerRequest =
    | HelloRequest(authorization: JsValue)                                      // 'database:hello'
    | RatingRequest(authorization: JsValue, receiver: SocketId, elo: JsValue)   // 'database:user'
    | UserRequest(user: UserFields)                                             // 'user'
    | GameRequest(name: JsValue, clientInfo: Option<Util.ClientInfoContent>)    // 'game request'
    | SessionMessage(request: LegacyRules.LegacyRequest)                        // 'simple state request', 'result', 'move'
    | OtherMessage(messageType: JsValue, authorization: JsValue)                // any other type

  /** A message to the database relay. */
  datatype LegacyRelayMessage =
    | LegacyEloUpdate(winner: Option<int>, authUuids: seq<JsValue>)
    | LegacyUserInfo(socketId: SocketId, user: UserFields)

  const SIMPLE_STATE_REQUEST: JsString := [0x73, 0x69, 0x6D, 0x70, 0x6C, 0x65, 0x20, 0x73, 0x74, 0x61, 0x74, 0x65, 0x20, 0x72, 0x65, 0x71, 0x75, 0x65, 0x73, 0x74]  // "simple state request"
  const RESULT: JsString := [0x72, 0x65, 0x73, 0x75, 0x6C, 0x74]  // "result"
  const MOVE: JsString := [0x6D, 0x6F, 0x76, 0x65]  // "move"

  /** The types the servers tell apart. */
  predicate Named(t: JsValue)
  {
    t == Str(DATABASE_HELLO) || t == Str(DATABASE_USER) || t == Str(ServerIndex.USER)
    || t == Str(ServerIndex.GAME_REQUEST) || t == Str(SIMPLE_STATE_REQUEST) || t == Str(RESULT) || t == Str(MOVE)
  }

  /** Each message has one reading: a session message is one of the three, any other message is of none of the named types. */
  predicate Typed(req: LegacyServerRequest)
  {
    (req.SessionMessage? ==> !req.request.UnknownRequest?)
    && (req.OtherMessage? ==> !Named(req.messageType))
  }

  /** The `type` field. */
  function TypeOf(req: LegacyServerRequest): JsValue
  {
    match req
    case HelloRequest(_) => Str(DATABASE_HELLO)
    case RatingRequest(_, _, _) => Str(DATABASE_USER)
    case UserRequest(_) => Str(ServerIndex.USER)
    case GameRequest(_, _) => Str(ServerIndex.GAME_REQUEST)
    case SessionMessage(r) =>
      Str(match r case StateRequest => SIMPLE_STATE_REQUEST case ResultRequest(_) => RESULT case _ => MOVE)
    case OtherMessage(t, _) => t
  }

  /** The `authorization` field, where the relay filter reads it. */
  function AuthorizationOf(req: LegacyServerRequest): JsValue
  {
    match req
    case HelloRequest(a) => a
    case RatingRequest(a, _, _) => a
    case OtherMessage(_, a) => a
    case _ => Undefined
  }

  /** What a session is passed: the three session messages as they are, anything else as a type it ignores. */
  function ToSession(req: LegacyServerRequest): LegacyRules.LegacyRequest
  {
    if req.SessionMessage? then req.request else LegacyRules.UnknownRequest
  }

  /**
   * The relay filter of `src/server.ts` lets every player message through:
   * none of their types starts with "database:". It throws exactly on a
   * type that is no string, and stops a `database:user` exactly when it
   * lacks the secret.
   */
  lemma GatePassesPlayers(d: DatabaseSocket, req: LegacyServerRequest)
    requires Typed(req)
    ensures !req.HelloRequest? && !req.RatingRequest? && !req.OtherMessage? ==>
      LegacyMoves.LegacyReject(d, TypeOf(req), AuthorizationOf(req)) == Some(false)
    ensures LegacyMoves.LegacyReject(d, TypeOf(req), AuthorizationOf(req)).None? <==> req.OtherMessage? && !req.messageType.Str?
    ensures req.RatingRequest? ==>
      (LegacyMoves.LegacyReject(d, TypeOf(req), AuthorizationOf(req)) == Some(true) <==> req.authorization != Str(d.authorization))
  {
    assert Str(DATABASE_USER).s[..9] == LegacyMoves.DATABASE_PREFIX;
    assert ServerIndex.GAME_REQUEST[..9][0] != LegacyMoves.DATABASE_PREFIX[0];
    assert SIMPLE_STATE_REQUEST[..9][0] != LegacyMoves.DATABASE_PREFIX[0];
  }

  // ---------------------------------------------------------------------
  // Player updates

  /**
   * The `user` message of `src/server.ts`: a truthy name is clamped to 64
   * code points, truthy client info is sanitised (255 code points per
   * string), a truthy uuid is stored as it came. Each step can throw,
   * keeping the updates before it.
   */
  function LegacyUserUpdate(p: LegacyPlayer, u: UserFields): (r: (LegacyPlayer, Outcome))
    ensures r.1.Threw? <==>
      (Truthy(u.username) && !u.username.Str?)
      || (u.clientInfo.Some? && Util.SanitizeClientInfo(u.clientInfo.value, LegacyMoves.SRC_MAX_LENGTH).Err?)
    ensures Truthy(u.username) && !u.username.Str? ==> r == (p, Threw(Sanitize(Util.NotIterable)))
    ensures !(Truthy(u.username) && !u.username.Str?) ==>
      r.0.name == (if Truthy(u.username) then JsStrings.ClampString(u.username.s, ServerIndex.MAX_NAME_LENGTH) else p.name)
    ensures r.1 == Handled ==>
      r.0.authUuid == (if Truthy(u.authUuid) then u.authUuid else p.authUuid)
      && (u.clientInfo.Some? ==>
            r.0.clientInfo.Some? && Util.SanitizeClientInfo(u.clientInfo.value, LegacyMoves.SRC_MAX_LENGTH) == Ok(r.0.clientInfo.value))
      && (u.clientInfo.None? ==> r.0.clientInfo == p.clientInfo)
    ensures r.1.Threw? ==> r.0.authUuid == p.authUuid && r.0.clientInfo == p.clientInfo
    ensures r.0.elo == p.elo
  {
    var name := if Truthy(u.username) then Util.ClampValue(u.username, ServerIndex.MAX_NAME_LENGTH) else Ok(p.name);
    if name.Err? then (p, Threw(Sanitize(name.error)))
    else
      var p1 := p.(name := name.value);
      var info := if u.clientInfo.Some? then Util.SanitizeClientInfo(u.clientInfo.value, LegacyMoves.SRC_MAX_LENGTH) else Err(Util.NotIterable);
      if u.clientInfo.Some? && info.Err? then (p1, Threw(Sanitize(info.error)))
      else
        var p2 := if u.clientInfo.Some? then p1.(clientInfo := Some(info.value)) else p1;
        (if Truthy(u.authUuid) then p2.(authUuid := u.authUuid) else p2, Handled)
  }

  /** The `user` message as passed on to the relay: the raw uuid when truthy, else the player's. */
  function LegacyForwarding(p: LegacyPlayer, u: UserFields): (f: UserFields)
    ensures f.username == u.username && f.clientInfo == u.clientInfo
    ensures f.authUuid == (if Truthy(u.authUuid) then u.authUuid else p.authUuid)
  {
    if Truthy(u.authUuid) then u else u.(authUuid := p.authUuid)
  }

  /**
   * The profile part of a `game request` in `server.ts`: a name that is
   * not undefined is clamped to 64 code points, client info that is not
   * undefined is sanitised (256 code points per string); either can throw,
   * and a throw from the client info keeps the new name.
   */
  function RootProfile(p: LegacyPlayer, name: JsValue, clientInfo: Option<Util.ClientInfoContent>): (r: (LegacyPlayer, Outcome))
    ensures r.1.Threw? <==>
      (!name.Undefined? && !name.Str?)
      || (clientInfo.Some? && Util.SanitizeClientInfo(clientInfo.value, LegacyMoves.ROOT_MAX_LENGTH).Err?)
    ensures !name.Undefined? && !name.Str? ==> r == (p, Threw(Sanitize(Util.NotIterable)))
    ensures name.Str? ==> r.0.name == JsStrings.ClampString(name.s, ServerIndex.MAX_NAME_LENGTH)
    ensures name.Undefined? ==> r.0.name == p.name
    ensures r.1 == Handled && clientInfo.Some? ==>
      r.0.clientInfo.Some? && Util.SanitizeClientInfo(clientInfo.value, LegacyMoves.ROOT_MAX_LENGTH) == Ok(r.0.clientInfo.value)
    ensures r.1.Threw? || clientInfo.None? ==> r.0.clientInfo == p.clientInfo
    ensures r.0.elo == p.elo && r.0.authUuid == p.authUuid
  {
    var renamed := if name.Undefined? then Ok(p.name) else Util.ClampValue(name, ServerIndex.MAX_NAME_LENGTH);
    if renamed.Err? then (p, Threw(Sanitize(renamed.error)))
    else
      var p1 := p.(name := renamed.value);
      if clientInfo.None? then (p1, Handled)
      else match Util.SanitizeClientInfo(clientInfo.value, LegacyMoves.ROOT_MAX_LENGTH)
        case Err(e) => (p1, Threw(Sanitize(e)))
        case Ok(info) => (p1.(clientInfo := Some(info)), Handled)
  }

  /**
   * The two servers read an empty name differently: `server.ts` takes it
   * (it is not undefined), `src/server.ts` keeps the old name (it is
   * falsy). A null name makes `server.ts` throw and is skipped by
   * `src/server.ts`.
   */
  lemma EmptyNameDiffers(p: LegacyPlayer)
    requires p.name != []
    ensures RootProfile(p, Str([]), None) == (p.(name := []), Handled)
    ensures LegacyUserUpdate(p, UserFields(Str([]), None, Undefined)) == (p, Handled)
    ensures RootProfile(p, Null, None).1.Threw?
    ensures LegacyUserUpdate(p, UserFields(Null, None, Undefined)) == (p, Handled)
  {
    assert JsStrings.ClampString([], ServerIndex.MAX_NAME_LENGTH) == [] by {
      JsStrings.ClampIsPrefix([], ServerIndex.MAX_NAME_LENGTH);
    }
  }

  /**
   * `src/server.ts` stores a uuid whole, however long; the current server
   * clamps it to 255 code points.
   */
  lemma RawUuidKept(p: LegacyPlayer, q: Player, uuid: JsString)
    requires |JsStrings.CodePoints(uuid)| > Util.MAX_STRING_LENGTH
    ensures LegacyUserUpdate(p, UserFields(Undefined, None, Str(uuid))) == (p.(authUuid := Str(uuid)), Handled)
    ensures var (q2, o) := ServerIndex.UserUpdate(q, ServerIndex.UserContent(Undefined, None, Undefined, Str(uuid)));
      o == Handled && q2.authUuid.Some? && q2.authUuid.value != uuid
      && |JsStrings.CodePoints(q2.authUuid.value)| == Util.MAX_STRING_LENGTH
  {
    JsStrings.ClampCount(uuid, Util.MAX_STRING_LENGTH);
    assert JsStrings.CodePoints([]) == [];
  }

  // ---------------------------------------------------------------------
  // The index of sessions

  /** The keys of `sessionBySocketId` in insertion order without the removed ones. */
  function Without(order: seq<SocketId>, gone: set<SocketId>): (r: seq<SocketId>)
    ensures forall x :: x in r <==> x in order && x !in gone
    ensures |r| <= |order|
  {
    if order == [] then []
    else (if order[0] in gone then [] else [order[0]]) + Without(order[1..], gone)
  }

  /** Removing one set of keys and then another removes both, in the same order. */
  lemma {:induction false} WithoutTwice(order: seq<SocketId>, a: set<SocketId>, b: set<SocketId>)
    ensures Without(Without(order, a), b) == Without(order, a + b)
  {
    if order != [] {
      WithoutTwice(order[1..], a, b);
      var rest := Without(order[1..], a);
      if order[0] in a {
        assert Without(order, a) == rest;
      } else {
        assert Without(order, a) == [order[0]] + rest;
        assert ([order[0]] + rest)[1..] == rest;
      }
    }
  }

  /** Removing keys keeps the remaining keys distinct. */
  lemma {:induction false} WithoutDistinct(order: seq<SocketId>, gone: set<SocketId>)
    requires Distinct(order)
    ensures Distinct(Without(order, gone))
  {
    if order != [] {
      WithoutDistinct(order[1..], gone);
      var rest := Without(order[1..], gone);
      assert order[0] !in order[1..] by {
        forall j | 0 <= j < |order| - 1
          ensures order[1..][j] != order[0]
        {
          assert order[1..][j] == order[j + 1];
        }
      }
      assert order[0] !in rest;
    }
  }

  lemma WithoutNothing(order: seq<SocketId>)
    ensures Without(order, {}) == order
  {
    if order != [] {
      WithoutNothing(order[1..]);
      assert order == [order[0]] + order[1..];
    }
  }

  predicate Distinct(xs: seq<SocketId>)
  {
    forall i, j :: 0 <= i < j < |xs| ==> xs[i] != xs[j]
  }

  /** The key order and the map hold the same sockets, each once. */
  predicate Keyed(order: seq<SocketId>, sessionOf: map<SocketId, nat>)
  {
    (forall x :: x in order ==> x in sessionOf) && (forall x :: x in sessionOf ==> x in order) && Distinct(order)
  }

  /** Every socket in the index plays in the live session it is mapped to. */
  predicate Indexed(sessions: seq<LegacyRules.LegacyState>, sessionOf: map<SocketId, nat>)
  {
    forall x :: x in sessionOf ==>
      sessionOf[x] < |sessions| && !sessions[sessionOf[x]].done && x in sessions[sessionOf[x]].sockets
  }

  /** Every player of a live session is in the index, mapped to that session. */
  predicate Mapped(sessions: seq<LegacyRules.LegacyState>, sessionOf: map<SocketId, nat>)
  {
    forall k, i :: 0 <= k < |sessions| && !sessions[k].done && 0 <= i < |sessions[k].sockets| ==>
      sessions[k].sockets[i] in sessionOf && sessionOf[sessions[k].sockets[i]] == k
  }

  /** Every session is valid, of the server's variant, between known players, and no duel pairs a socket with itself. */
  predicate Games(sessions: seq<LegacyRules.LegacyState>, variant: LegacyRules.Variant, players: map<SocketId, LegacyPlayer>)
  {
    forall k :: 0 <= k < |sessions| ==>
      LegacyRules.Valid(sessions[k]) && sessions[k].variant == variant
      && (forall i :: 0 <= i < |sessions[k].sockets| ==> sessions[k].sockets[i] in players)
      && (|sessions[k].sockets| == 2 ==> sessions[k].sockets[0] != sessions[k].sockets[1])
  }

  /** A live session that still waits for a second player. */
  predicate Unfilled(s: LegacyRules.LegacyState)
  {
    !s.done && |s.sockets| < 2
  }

  /** At most one session waits for a second player. */
  predicate OneWaiting(sessions: seq<LegacyRules.LegacyState>)
  {
    forall k, j :: 0 <= k < |sessions| && 0 <= j < |sessions| && Unfilled(sessions[k]) && Unfilled(sessions[j]) ==> k == j
  }

  /** Everything the server keeps about its sessions. */
  predicate Inv(order: seq<SocketId>, sessionOf: map<SocketId, nat>, sessions: seq<LegacyRules.LegacyState>,
                variant: LegacyRules.Variant, players: map<SocketId, LegacyPlayer>)
  {
    Keyed(order, sessionOf) && Indexed(sessions, sessionOf) && Mapped(sessions, sessionOf)
    && Games(sessions, variant, players) && OneWaiting(sessions)
  }

  /** Whether the session of the socket at position i of the key order waits for a second player. */
  predicate WaitsAt(order: seq<SocketId>, sessionOf: map<SocketId, nat>, sessions: seq<LegacyRules.LegacyState>, i: nat)
    requires i < |order| && order[i] in sessionOf && sessionOf[order[i]] < |sessions|
  {
    |sessions[sessionOf[order[i]]].sockets| < 2
  }

  predicate Known(order: seq<SocketId>, sessionOf: map<SocketId, nat>, sessions: seq<LegacyRules.LegacyState>)
  {
    forall i :: 0 <= i < |order| ==> order[i] in sessionOf && sessionOf[order[i]] < |sessions|
  }

  /**
   * The scan of `sessionBySocketId.values()`: the first position from i on
   * whose session has fewer than two players.
   */
  function FirstOpen(order: seq<SocketId>, sessionOf: map<SocketId, nat>, sessions: seq<LegacyRules.LegacyState>, i: nat): (k: Option<nat>)
    requires Known(order, sessionOf, sessions)
    ensures k.Some? ==> i <= k.value < |order| && WaitsAt(order, sessionOf, sessions, k.value)
    ensures forall j :: i <= j < |order| && (k.None? || j < k.value) ==> !WaitsAt(order, sessionOf, sessions, j)
    decreases |order| - i
  {
    if i >= |order| then None
    else if WaitsAt(order, sessionOf, sessions, i) then Some(i)
    else FirstOpen(order, sessionOf, sessions, i + 1)
  }

  /** When the scan finds nothing, no session waits for a second player. */
  lemma NoOpenWhenScanFails(order: seq<SocketId>, sessionOf: map<SocketId, nat>, sessions: seq<LegacyRules.LegacyState>)
    requires forall x :: x in sessionOf ==> x in order
    requires Mapped(sessions, sessionOf)
    requires forall k :: 0 <= k < |sessions| ==> 1 <= |sessions[k].sockets|
    requires Known(order, sessionOf, sessions) && FirstOpen(order, sessionOf, sessions, 0).None?
    ensures forall k :: 0 <= k < |sessions| ==> !Unfilled(sessions[k])
  {
    forall k | 0 <= k < |sessions|
      ensures !Unfilled(sessions[k])
    {
      if !sessions[k].done {
        var x := sessions[k].sockets[0];
        assert x in sessionOf && x in order;
        var i :| 0 <= i < |order| && order[i] == x;
        assert !WaitsAt(order, sessionOf, sessions, i);
      }
    }
  }

  /** When the scan finds a position, its session is live with one player, and it is the only one waiting. */
  lemma ScanFindsOpen(order: seq<SocketId>, sessionOf: map<SocketId, nat>, sessions: seq<LegacyRules.LegacyState>,
                      variant: LegacyRules.Variant, players: map<SocketId, LegacyPlayer>)
    requires Inv(order, sessionOf, sessions, variant, players) && Known(order, sessionOf, sessions)
    requires FirstOpen(order, sessionOf, sessions, 0).Some?
    ensures var id := sessionOf[order[FirstOpen(order, sessionOf, sessions, 0).value]];
      id < |sessions| && Unfilled(sessions[id]) && |sessions[id].sockets| == 1
      && forall k :: 0 <= k < |sessions| && Unfilled(sessions[k]) ==> k == id
  {
    var id := sessionOf[order[FirstOpen(order, sessionOf, sessions, 0).value]];
    assert LegacyRules.Valid(sessions[id]);
  }

  /** A valid server's index refers to its sessions only. */
  lemma InvKnown(order: seq<SocketId>, sessionOf: map<SocketId, nat>, sessions: seq<LegacyRules.LegacyState>)
    requires Keyed(order, sessionOf) && Indexed(sessions, sessionOf)
    ensures Known(order, sessionOf, sessions)
  {
    forall i | 0 <= i < |order|
      ensures order[i] in sessionOf && sessionOf[order[i]] < |sessions|
    {
      var x := order[i];
      assert x in order;
      assert x in sessionOf;
      assert sessionOf[x] < |sessions|;
    }
  }

  // ---------------------------------------------------------------------
  // Keeping the index

  /**
   * Session id moves to r, a valid state of the same players; when it has
   * just completed, its players' entries leave the index, in the order
   * the others were set.
   */
  lemma AdvanceKeeps(order: seq<SocketId>, sessionOf: map<SocketId, nat>, sessions: seq<LegacyRules.LegacyState>,
                     variant: LegacyRules.Variant, players: map<SocketId, LegacyPlayer>, id: nat, r: LegacyRules.LegacyState)
    requires Inv(order, sessionOf, sessions, variant, players) && id < |sessions|
    requires LegacyRules.Valid(r) && r.sockets == sessions[id].sockets && r.variant == variant
    requires sessions[id].done ==> r.done
    ensures var gone := if !sessions[id].done && r.done then (set x | x in r.sockets) else {};
      Inv(Without(order, gone), sessionOf - gone, sessions[id := r], variant, players)
  {
    var gone := if !sessions[id].done && r.done then (set x | x in r.sockets) else {};
    KeyedAfter(order, sessionOf, gone);
    GamesAfter(sessions, variant, players, id, r);
    IndexedAfter(sessions, sessionOf, id, r, gone);
    MappedAfter(sessions, sessionOf, id, r, gone);
    WaitingAfter(sessions, id, r);
  }

  lemma KeyedAfter(order: seq<SocketId>, sessionOf: map<SocketId, nat>, gone: set<SocketId>)
    requires Keyed(order, sessionOf)
    ensures Keyed(Without(order, gone), sessionOf - gone)
  {
    WithoutDistinct(order, gone);
  }

  lemma GamesAfter(sessions: seq<LegacyRules.LegacyState>, variant: LegacyRules.Variant, players: map<SocketId, LegacyPlayer>,
                   id: nat, r: LegacyRules.LegacyState)
    requires Games(sessions, variant, players) && id < |sessions|
    requires LegacyRules.Valid(r) && r.sockets == sessions[id].sockets && r.variant == variant
    ensures Games(sessions[id := r], variant, players)
  {
  }

  lemma IndexedAfter(sessions: seq<LegacyRules.LegacyState>, sessionOf: map<SocketId, nat>, id: nat, r: LegacyRules.LegacyState, gone: set<SocketId>)
    requires Indexed(sessions, sessionOf) && id < |sessions| && r.sockets == sessions[id].sockets
    requires gone == if !sessions[id].done && r.done then (set x | x in r.sockets) else {}
    ensures Indexed(sessions[id := r], sessionOf - gone)
  {
  }

  lemma MappedAfter(sessions: seq<LegacyRules.LegacyState>, sessionOf: map<SocketId, nat>, id: nat, r: LegacyRules.LegacyState, gone: set<SocketId>)
    requires Mapped(sessions, sessionOf) && id < |sessions| && r.sockets == sessions[id].sockets
    requires sessions[id].done ==> r.done
    requires gone == if !sessions[id].done && r.done then (set x | x in r.sockets) else {}
    ensures Mapped(sessions[id := r], sessionOf - gone)
  {
    var sessions' := sessions[id := r];
    forall k, i | 0 <= k < |sessions'| && !sessions'[k].done && 0 <= i < |sessions'[k].sockets|
      ensures sessions'[k].sockets[i] in sessionOf - gone && (sessionOf - gone)[sessions'[k].sockets[i]] == k
    {
      if k == id {
        assert sessions'[k].sockets == sessions[id].sockets && !sessions[id].done;
      } else {
        assert sessions'[k] == sessions[k];
      }
    }
  }

  lemma WaitingAfter(sessions: seq<LegacyRules.LegacyState>, id: nat, r: LegacyRules.LegacyState)
    requires OneWaiting(sessions) && id < |sessions| && r.sockets == sessions[id].sockets
    requires sessions[id].done ==> r.done
    ensures OneWaiting(sessions[id := r])
  {
    var sessions' := sessions[id := r];
    forall k, j | 0 <= k < |sessions'| && 0 <= j < |sessions'| && Unfilled(sessions'[k]) && Unfilled(sessions'[j])
      ensures k == j
    {
      assert Unfilled(sessions[k]) && Unfilled(sessions[j]);
    }
  }

  /**
   * A socket outside the index joins the one waiting session: its entry is
   * set last, and the session becomes a duel of two different players.
   */
  lemma JoinKeeps(order: seq<SocketId>, sessionOf: map<SocketId, nat>, sessions: seq<LegacyRules.LegacyState>,
                  variant: LegacyRules.Variant, players: map<SocketId, LegacyPlayer>, id: nat, sock: SocketId)
    requires Inv(order, sessionOf, sessions, variant, players) && sock in players && sock !in sessionOf
    requires id < |sessions| && Unfilled(sessions[id]) && |sessions[id].sockets| == 1
    ensures Inv(order + [sock], sessionOf[sock := id], sessions[id := LegacyRules.Join(sessions[id], sock)], variant, players)
  {
    var s := sessions[id];
    var r := LegacyRules.Join(s, sock);
    assert s.sockets[0] in sessionOf;
    var order' := order + [sock];
    var sessionOf' := sessionOf[sock := id];
    var sessions' := sessions[id := r];
    assert Distinct(order') by {
      assert sock !in order;
    }
    assert Indexed(sessions', sessionOf') by {
      forall x | x in sessionOf'
        ensures sessionOf'[x] < |sessions'| && !sessions'[sessionOf'[x]].done && x in sessions'[sessionOf'[x]].sockets
      {
        if x != sock && sessionOf[x] == id {
          assert x in s.sockets;
        }
      }
    }
    assert Mapped(sessions', sessionOf') by {
      forall k, i | 0 <= k < |sessions'| && !sessions'[k].done && 0 <= i < |sessions'[k].sockets|
        ensures sessions'[k].sockets[i] in sessionOf' && sessionOf'[sessions'[k].sockets[i]] == k
      {
        if k == id && i == 0 {
          assert sessions'[k].sockets[0] == s.sockets[0];
        }
      }
    }
    assert forall k :: 0 <= k < |sessions'| ==> !Unfilled(sessions'[k]) by {
      forall k | 0 <= k < |sessions'|
        ensures !Unfilled(sessions'[k])
      {
        if k != id {
          assert sessions'[k] == sessions[k];
        }
      }
    }
  }

  /** When no session waits, a socket outside the index opens a new one, set last in the index. */
  lemma CreateKeeps(order: seq<SocketId>, sessionOf: map<SocketId, nat>, sessions: seq<LegacyRules.LegacyState>,
                    variant: LegacyRules.Variant, players: map<SocketId, LegacyPlayer>, sock: SocketId, game: LegacyRules.LegacyView)
    requires Inv(order, sessionOf, sessions, variant, players) && sock in players && sock !in sessionOf
    requires LegacyRules.ViewOk(game) && forall k :: 0 <= k < |sessions| ==> !Unfilled(sessions[k])
    ensures Inv(order + [sock], sessionOf[sock := |sessions|], sessions + [LegacyRules.Initial(variant, sock, game)], variant, players)
  {
    var s := LegacyRules.Initial(variant, sock, game);
    var sessions' := sessions + [s];
    assert Distinct(order + [sock]) by {
      assert sock !in order;
    }
    assert Indexed(sessions', sessionOf[sock := |sessions|]);
    assert OneWaiting(sessions') by {
      forall k, j | 0 <= k < |sessions'| && 0 <= j < |sessions'| && Unfilled(sessions'[k]) && Unfilled(sessions'[j])
        ensures k == j
      {
      }
    }
  }

  /** What a completed session tells the relay: `elo update` with both uuids, for a duel, when `src/server.ts` has a relay. */
  function Report(r: LegacyRules.LegacyState, players: map<SocketId, LegacyPlayer>, relay: Option<DatabaseSocket>): (m: seq<LegacyRelayMessage>)
    ensures m != [] <==> relay.Some? && |r.sockets| == 2
    ensures m != [] ==> m == [LegacyEloUpdate(r.winner, [UuidOf(players, r.sockets[0]), UuidOf(players, r.sockets[1])])]
  {
    if relay.Some? && |r.sockets| == 2 then
      [LegacyEloUpdate(r.winner, [UuidOf(players, r.sockets[0]), UuidOf(players, r.sockets[1])])]
    else []
  }

  /** A player's uuid; every player of a session is known, so the default is never used. */
  function UuidOf(players: map<SocketId, LegacyPlayer>, x: SocketId): JsValue
  {
    if x in players then players[x].authUuid else Undefined
  }

  // ---------------------------------------------------------------------
  // The server

  class LegacyServer {
    /** Which of the two servers. */
    const variant: LegacyRules.Variant
    /** The secret the relay process is started with (`src/server.ts`). */
    const secret: JsString
    /** Every player object created, by its socket; closed sockets keep theirs, as sessions still refer to it. */
    var players: map<SocketId, LegacyPlayer>
    /** The sockets `playerBySocketId` still maps. */
    var online: set<SocketId>
    /** Every session opened, in the order it was opened. */
    var sessions: seq<LegacyRules.LegacyState>
    /** The keys of `sessionBySocketId`, in the order they were set. */
    var order: seq<SocketId>
    /** `sessionBySocketId`, by position in `sessions`. */
    var sessionOf: map<SocketId, nat>
    var relay: Option<DatabaseSocket>
    var relayOutbox: seq<LegacyRelayMessage>
    /** The `elo` of each `database:user` payload passed on to its receiver, with the receiver. */
    var replies: seq<(SocketId, JsValue)>

    /**
     * The index maps exactly the players of live sessions, in key order;
     * at most one session waits for a second player; the relay, which only
     * `src/server.ts` has, knows the secret.
     */
    predicate Valid()
      reads this
    {
      Inv(order, sessionOf, sessions, variant, players)
      && online <= players.Keys
      && (relay.Some? ==> relay.value.authorization == secret)
      && (variant.Root? ==> relay.None?)
    }

    constructor (variant: LegacyRules.Variant, secret: JsString)
      ensures Valid() && this.variant == variant && this.secret == secret
      ensures players == map[] && online == {} && sessions == [] && order == [] && sessionOf == map[]
      ensures relay.None? && relayOutbox == [] && replies == []
    {
      this.variant := variant;
      this.secret := secret;
      players := map[];
      online := {};
      sessions := [];
      order := [];
      sessionOf := map[];
      relay := None;
      relayOutbox := [];
      replies := [];
    }

    /** `open`: a new anonymous player. */
    method Open(sock: SocketId, name: JsString)
      requires Valid() && sock !in players
      modifies this
      ensures Valid()
      ensures players == old(players)[sock := NewLegacyPlayer(name)] && online == old(online) + {sock}
      ensures sessions == old(sessions) && order == old(order) && sessionOf == old(sessionOf)
      ensures relay == old(relay) && relayOutbox == old(relayOutbox) && replies == old(replies)
    {
      players := players[sock := NewLegacyPlayer(name)];
      online := online + {sock};
    }

    /** The scan for a session with fewer than two players, in the index's key order, with an early exit. */
    method Scan() returns (k: Option<nat>)
      requires Valid()
      ensures Known(order, sessionOf, sessions) && k == FirstOpen(order, sessionOf, sessions, 0)
    {
      InvKnown(order, sessionOf, sessions);
      var i := 0;
      while i < |order|
        invariant 0 <= i <= |order|
        invariant FirstOpen(order, sessionOf, sessions, i) == FirstOpen(order, sessionOf, sessions, 0)
      {
        if |sessions[sessionOf[order[i]]].sockets| < 2 {
          return Some(i);
        }
        i := i + 1;
      }
      return None;
    }

    /** `sessionBySocketId.delete` for each socket, one at a time. */
    method Unmap(socks: seq<SocketId>)
      modifies this
      ensures sessionOf == old(sessionOf) - (set x | x in socks) && order == Without(old(order), set x | x in socks)
      ensures players == old(players) && online == old(online) && sessions == old(sessions)
      ensures relay == old(relay) && relayOutbox == old(relayOutbox) && replies == old(replies)
    {
      WithoutNothing(order);
      ghost var gone: set<SocketId> := {};
      for i := 0 to |socks|
        invariant gone == set x | x in socks[..i]
        invariant sessionOf == old(sessionOf) - gone && order == Without(old(order), gone)
        invariant players == old(players) && online == old(online) && sessions == old(sessions)
        invariant relay == old(relay) && relayOutbox == old(relayOutbox) && replies == old(replies)
      {
        WithoutTwice(old(order), gone, {socks[i]});
        assert socks[..i + 1] == socks[..i] + [socks[i]];
        gone := gone + {socks[i]};
        sessionOf := sessionOf - {socks[i]};
        order := Without(order, {socks[i]});
      }
      assert socks[..|socks|] == socks;
    }

    /**
     * Session id reached state r; when it has just completed, `complete`
     * unmaps its players and, for a duel with a relay, reports the result.
     */
    method Advance(id: nat, r: LegacyRules.LegacyState)
      requires Valid() && id < |sessions| && LegacyRules.Valid(r)
      requires r.sockets == sessions[id].sockets && r.variant == variant && (sessions[id].done ==> r.done)
      modifies this
      ensures Valid()
      ensures sessions == old(sessions)[id := r]
      ensures !old(sessions[id]).done && r.done ==>
        sessionOf == old(sessionOf) - (set x | x in r.sockets)
        && order == Without(old(order), set x | x in r.sockets)
        && relayOutbox == old(relayOutbox) + Report(r, old(players), old(relay))
      ensures !(!old(sessions[id]).done && r.done) ==>
        sessionOf == old(sessionOf) && order == old(order) && relayOutbox == old(relayOutbox)
      ensures old(relay).None? ==> relayOutbox == old(relayOutbox)
      ensures players == old(players) && online == old(online) && relay == old(relay) && replies == old(replies)
    {
      var completes := !sessions[id].done && r.done;
      AdvanceKeeps(order, sessionOf, sessions, variant, players, id, r);
      sessions := sessions[id := r];
      if completes {
        Unmap(r.sockets);
        relayOutbox := relayOutbox + Report(r, players, relay);
      } else {
        WithoutNothing(order);
      }
    }

    /**
     * `close`: the player leaves `playerBySocketId`; a session it plays in
     * is told of the disconnect, completes, and frees its players.
     */
    method Close(sock: SocketId)
      requires Valid()
      modifies this
      ensures Valid()
      ensures online == old(online) - {sock} && players == old(players)
      ensures sock !in old(sessionOf) ==>
        sessions == old(sessions) && sessionOf == old(sessionOf) && order == old(order) && relayOutbox == old(relayOutbox)
      ensures sock in old(sessionOf) ==>
        var id := old(sessionOf)[sock];
        var r := LegacyRules.Disconnect(old(sessions)[id], sock);
        r.done && sessions == old(sessions)[id := r]
        && sessionOf == old(sessionOf) - (set x | x in r.sockets)
        && order == Without(old(order), set x | x in r.sockets)
        && relayOutbox == old(relayOutbox) + Report(r, old(players), old(relay))
      ensures relay == old(relay) && replies == old(replies)
    {
      online := online - {sock};
      if sock in sessionOf {
        var id := sessionOf[sock];
        var s := sessions[id];
        LegacyLaws.DisconnectTells(s, sock);
        Advance(id, LegacyRules.Disconnect(s, sock));
      }
    }

    /** The rest of a message goes to the sender's session, if it has one. */
    method Forward(sock: SocketId, msg: LegacyRules.LegacyRequest, e: LegacyRules.LegacyInput) returns (o: Outcome)
      requires Valid()
      requires sock in sessionOf ==> LegacyRules.InputOk(sessions[sessionOf[sock]], sock, msg, e)
      modifies this
      ensures Valid()
      ensures sock !in old(sessionOf) ==>
        o == Handled && sessions == old(sessions) && sessionOf == old(sessionOf)
        && order == old(order) && relayOutbox == old(relayOutbox)
      ensures sock in old(sessionOf) ==>
        var id := old(sessionOf)[sock];
        var (r, out) := LegacyRules.OnMessage(old(sessions)[id], sock, msg, e);
        o == out && sessions == old(sessions)[id := r]
        && (!old(sessions)[id].done && r.done ==>
              sessionOf == old(sessionOf) - (set x | x in r.sockets)
              && order == Without(old(order), set x | x in r.sockets)
              && relayOutbox == old(relayOutbox) + Report(r, old(players), old(relay)))
        && (!(!old(sessions)[id].done && r.done) ==>
              sessionOf == old(sessionOf) && order == old(order) && relayOutbox == old(relayOutbox))
      ensures old(relay).None? ==> relayOutbox == old(relayOutbox)
      ensures players == old(players) && online == old(online) && relay == old(relay) && replies == old(replies)
    {
      if sock !in sessionOf {
        return Handled;
      }
      var id := sessionOf[sock];
      var s := sessions[id];
      var (r, out) := LegacyRules.OnMessage(s, sock, msg, e);
      LegacyLaws.OnMessageKeepsValid(s, sock, msg, e);
      Advance(id, r);
      o := out;
    }

    /** A player's move timer fires in session id: the player is disqualified and the session completes. */
    method TimerFires(id: nat, p: nat)
      requires Valid() && id < |sessions| && p < 2 && Timers.IsArmed(sessions[id].timers, p)
      modifies this
      ensures Valid()
      ensures var r := LegacyRules.TimerFires(old(sessions)[id], p);
        r.done && sessions == old(sessions)[id := r]
        && sessionOf == old(sessionOf) - (set x | x in r.sockets)
        && order == Without(old(order), set x | x in r.sockets)
        && relayOutbox == old(relayOutbox) + Report(r, old(players), old(relay))
      ensures players == old(players) && online == old(online) && relay == old(relay) && replies == old(replies)
    {
      var s := sessions[id];
      LegacyLaws.DisqualifyTells(s, p);
      Advance(id, LegacyRules.TimerFires(s, p));
    }

    /**
     * A game request: ignored from a socket already in the index; otherwise
     * the socket joins the first session that waits, which starts, or opens
     * a session of its own. Either way its entry is set last.
     */
    method Pair(sock: SocketId, game: LegacyRules.LegacyView)
      requires Valid() && sock in players && LegacyRules.ViewOk(game)
      modifies this
      ensures Valid()
      ensures sock in old(sessionOf) ==> sessions == old(sessions) && sessionOf == old(sessionOf) && order == old(order)
      ensures sock !in old(sessionOf) ==>
        Known(old(order), old(sessionOf), old(sessions))
        && order == old(order) + [sock]
        && var k := FirstOpen(old(order), old(sessionOf), old(sessions), 0);
        (k.Some? ==>
          var id := old(sessionOf)[old(order)[k.value]];
          sessions == old(sessions)[id := LegacyRules.Join(old(sessions)[id], sock)]
          && sessionOf == old(sessionOf)[sock := id])
        && (k.None? ==>
          sessions == old(sessions) + [LegacyRules.Initial(variant, sock, game)]
          && sessionOf == old(sessionOf)[sock := |old(sessions)|])
      ensures players == old(players) && online == old(online) && relay == old(relay)
      ensures relayOutbox == old(relayOutbox) && replies == old(replies)
    {
      if sock in sessionOf {
        return;
      }
      var k := Scan();
      if k.Some? {
        var id := sessionOf[order[k.value]];
        ScanFindsOpen(order, sessionOf, sessions, variant, players);
        JoinAt(id, sock);
      } else {
        NoOpenWhenScanFails(order, sessionOf, sessions);
        OpenNew(sock, game);
      }
    }

    /** `session.players.push(player)`, the entry set, `session.start()`. */
    method JoinAt(id: nat, sock: SocketId)
      requires Valid() && sock in players && sock !in sessionOf
      requires id < |sessions| && Unfilled(sessions[id]) && |sessions[id].sockets| == 1
      modifies this
      ensures Valid()
      ensures sessions == old(sessions)[id := LegacyRules.Join(old(sessions)[id], sock)]
      ensures sessionOf == old(sessionOf)[sock := id] && order == old(order) + [sock]
      ensures players == old(players) && online == old(online) && relay == old(relay)
      ensures relayOutbox == old(relayOutbox) && replies == old(replies)
    {
      JoinKeeps(order, sessionOf, sessions, variant, players, id, sock);
      sessions := sessions[id := LegacyRules.Join(sessions[id], sock)];
      sessionOf := sessionOf[sock := id];
      order := order + [sock];
    }

    /** `new WebSocketGameSession(player)` under the sender's socket. */
    method OpenNew(sock: SocketId, game: LegacyRules.LegacyView)
      requires Valid() && sock in players && sock !in sessionOf && LegacyRules.ViewOk(game)
      requires forall k :: 0 <= k < |sessions| ==> !Unfilled(sessions[k])
      modifies this
      ensures Valid()
      ensures sessions == old(sessions) + [LegacyRules.Initial(variant, sock, game)]
      ensures sessionOf == old(sessionOf)[sock := |old(sessions)|] && order == old(order) + [sock]
      ensures players == old(players) && online == old(online) && relay == old(relay)
      ensures relayOutbox == old(relayOutbox) && replies == old(replies)
    {
      CreateKeeps(order, sessionOf, sessions, variant, players, sock, game);
      sessionOf := sessionOf[sock := |sessions|];
      sessions := sessions + [LegacyRules.Initial(variant, sock, game)];
      order := order + [sock];
    }

    /** `database:hello`: a socket that knows the secret becomes the relay. */
    method Hello(sock: SocketId, authorization: JsValue)
      requires Valid() && variant.Src?
      modifies this
      ensures Valid()
      ensures relay == (if StrictEquals(authorization, Str(secret)) then Some(DatabaseSocket(sock, secret)) else old(relay))
      ensures players == old(players) && online == old(online) && sessions == old(sessions)
      ensures order == old(order) && sessionOf == old(sessionOf)
      ensures relayOutbox == old(relayOutbox) && replies == old(replies)
    {
      if StrictEquals(authorization, Str(secret)) {
        relay := Some(DatabaseSocket(sock, secret));
      }
    }

    /** `database:user`: a connected receiver takes the new rating and is sent the payload. */
    method Rate(receiver: SocketId, elo: JsValue)
      requires Valid()
      modifies this
      ensures Valid()
      ensures receiver in old(online) ==>
        players == old(players)[receiver := old(players)[receiver].(elo := elo)]
        && replies == old(replies) + [(receiver, elo)]
      ensures receiver !in old(online) ==> players == old(players) && replies == old(replies)
      ensures online == old(online) && sessions == old(sessions) && order == old(order) && sessionOf == old(sessionOf)
      ensures relay == old(relay) && relayOutbox == old(relayOutbox)
    {
      if receiver in online {
        players := players[receiver := players[receiver].(elo := elo)];
        replies := replies + [(receiver, elo)];
      }
    }

    /** `user` of `src/server.ts`: the profile is updated and, with a relay, passed on to it. */
    method UpdateUser(sock: SocketId, u: UserFields) returns (o: Outcome)
      requires Valid() && sock in online
      modifies this
      ensures Valid()
      ensures var (p, out) := LegacyUserUpdate(old(players)[sock], u);
        players == old(players)[sock := p] && o == out
      ensures o == Handled && old(relay).Some? ==>
        relayOutbox == old(relayOutbox) + [LegacyUserInfo(sock, LegacyForwarding(old(players)[sock], u))]
      ensures !(o == Handled && old(relay).Some?) ==> relayOutbox == old(relayOutbox)
      ensures online == old(online) && sessions == old(sessions) && order == old(order) && sessionOf == old(sessionOf)
      ensures relay == old(relay) && replies == old(replies)
    {
      var before := players[sock];
      var (p, out) := LegacyUserUpdate(before, u);
      players := players[sock := p];
      o := out;
      if out == Handled && relay.Some? {
        relayOutbox := relayOutbox + [LegacyUserInfo(sock, LegacyForwarding(before, u))];
      }
    }

    /** The profile part of a `game request` of `server.ts`. */
    method Profile(sock: SocketId, name: JsValue, clientInfo: Option<Util.ClientInfoContent>) returns (o: Outcome)
      requires Valid() && sock in online
      modifies this
      ensures Valid()
      ensures var (p, out) := RootProfile(old(players)[sock], name, clientInfo);
        players == old(players)[sock := p] && o == out
      ensures online == old(online) && sessions == old(sessions) && order == old(order) && sessionOf == old(sessionOf)
      ensures relay == old(relay) && relayOutbox == old(relayOutbox) && replies == old(replies)
    {
      var (p, out) := RootProfile(players[sock], name, clientInfo);
      players := players[sock := p];
      o := out;
    }

    /**
     * `message(ws, message)`, after JSON parsing. `src/server.ts`: the
     * relay's hello, its filter (which throws on a type that is no string),
     * ratings, profiles, game requests, then the session. `server.ts`: game
     * requests, with their profile part, then the session.
     */
    method OnMessage(sock: SocketId, req: LegacyServerRequest, game: LegacyRules.LegacyView, e: LegacyRules.LegacyInput)
      returns (o: Outcome)
      requires Valid() && sock in online && Typed(req) && LegacyRules.ViewOk(game)
      requires sock in sessionOf ==> LegacyRules.InputOk(sessions[sessionOf[sock]], sock, ToSession(req), e)
      modifies this
      ensures Valid()
      // the filter: with a relay, a message that fails it changes nothing
      ensures variant.Src? && old(relay).Some? && !req.HelloRequest? ==>
        var gate := LegacyMoves.LegacyReject(old(relay).value, TypeOf(req), AuthorizationOf(req));
        gate != Some(false) ==>
          o == (if gate.None? then Threw(TypeNotString) else Handled)
          && players == old(players) && sessions == old(sessions) && sessionOf == old(sessionOf)
          && relay == old(relay) && relayOutbox == old(relayOutbox) && replies == old(replies)
      // a rating is taken from the relay, and from anyone while there is none
      ensures (variant.Src? && req.RatingRequest? && req.receiver in old(online)
               && (old(relay).None? || req.authorization == Str(secret))) ==>
        o == Handled && req.receiver in players && players[req.receiver].elo == req.elo && sessions == old(sessions)
      // a game request that does not throw leaves the sender in a live session
      ensures req.GameRequest? && o == Handled ==>
        sock in sessionOf && sessionOf[sock] < |sessions| && !sessions[sessionOf[sock]].done
      // a session message is the session's business
      ensures req.SessionMessage? ==>
        if sock in old(sessionOf) then
          var id := old(sessionOf)[sock];
          var (r, out) := LegacyRules.OnMessage(old(sessions)[id], sock, req.request, e);
          o == out && sessions == old(sessions)[id := r]
        else o == Handled && sessions == old(sessions)
      ensures variant.Root? ==> relay.None? && relayOutbox == old(relayOutbox) && replies == old(replies)
      ensures online == old(online)
    {
      if variant.Src? {
        if req.HelloRequest? {
          Hello(sock, req.authorization);
          return Handled;
        }
        if relay.Some? {
          var gate := LegacyMoves.LegacyReject(relay.value, TypeOf(req), AuthorizationOf(req));
          GatePassesPlayers(relay.value, req);
          if gate.None? {
            return Threw(TypeNotString);
          } else if gate.value {
            return Handled;
          }
        }
        if req.RatingRequest? {
          Rate(req.receiver, req.elo);
          o := Handled;
        } else if req.UserRequest? {
          o := UpdateUser(sock, req.user);
        } else if req.GameRequest? {
          Pair(sock, game);
          o := Handled;
        } else {
          o := Forward(sock, ToSession(req), e);
        }
      } else {
        if req.GameRequest? {
          o := Profile(sock, req.name, req.clientInfo);
          if o == Handled {
            Pair(sock, game);
          }
          return;
        }
        o := Forward(sock, ToSession(req), e);
      }
    }
  }
}
