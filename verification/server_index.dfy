/**
 * The game server: the players connected to it, the board of open
 * challenges, the sessions it started, and the database relay. Challenges
 * are matched, listed, accepted and withdrawn here; a session's own messages
 * are passed on to it, and its completion is reported to the relay.
 *
 * Sessions are kept as values, one per session started, and advanced by the
 * `SessionRules` transitions the `Session` class is proved to perform.
 */
module ServerIndex {
  import opened Wrappers
  import opened JsValues
  import Util
  import JsStrings
  import opened Protocol
  import Timers
  import SessionRules
  import SessionLaws
  import opened DatabaseSockets

  /** The length a user name is clamped to. */
  const MAX_NAME_LENGTH: nat := 64

  /** An open challenge: the sanitised request and the socket of the player who made it. */
  datatype OpenChallenge = OpenChallenge(owner: SocketId, challenge: Util.Challenge)

  /** A challenge as the listing shows it: no password and no player. */
  datatype ListedChallenge = ListedChallenge(
    uuid: JsString, name: JsString, ranked: bool, gameType: Util.GameType, autoMatch: bool, botsAllowed: bool)

  /** The fields of a `user` message. */
  datatype UserContent = UserContent(
    username: JsValue, clientInfo: Option<Util.ClientInfoContent>, isBot: JsValue, authUuid: JsValue)

  /** The relay-only queries the server does not handle itself. */
  datatype QueryKind = SelfQuery | ReplaysQuery | ReplayQuery

  /** A message a socket sends to the server. */
  datatype Request =
    | DatabaseHello(authorization: JsValue)
    | DatabaseUser(authorization: JsValue, receiver: SocketId, eloRealtime: JsValue, eloPausing: JsValue)
    | DatabaseQuery(kind: QueryKind, authorization: JsValue)
    | UserRequest(user: UserContent)
    | GameRequest(request: Util.GameRequestContent)
    | CancelGameRequest
    | ChallengeListRequest
    | AcceptChallenge(uuid: JsValue, password: JsValue)
    | Forwarded(message: ClientMessage)

  /** A message the server itself sends to a player. */
  datatype Reply =
    | ChallengeList(challenges: seq<ListedChallenge>)
    | ChallengeNotFound(uuid: JsValue, password: JsValue)
    | Ratings(eloRealtime: JsValue, eloPausing: JsValue)

  /** A message to the database relay. */
  datatype RelayMessage =
    | EloUpdate(gameType: Util.GameType, winner: Option<int>, authUuids: seq<JsString>)
    | ReplayUpload(session: nat, authUuids: seq<JsString>)
    | UserInfo(socketId: SocketId, user: UserContent)

  /** What the server draws from outside when it handles a message: a fresh uuid, a new engine, the engine's answers. */
  datatype Oracle = Oracle(uuid: JsString, game: GameView, engine: SessionRules.EngineInput)

  // ---------------------------------------------------------------------
  // Message types and the relay's filter

  const USER: JsString := [0x75, 0x73, 0x65, 0x72]  // "user"
  const GAME_REQUEST: JsString := [0x67, 0x61, 0x6D, 0x65, 0x20, 0x72, 0x65, 0x71, 0x75, 0x65, 0x73, 0x74]  // "game request"
  const CANCEL_GAME_REQUEST: JsString := [0x63, 0x61, 0x6E, 0x63, 0x65, 0x6C, 0x20, 0x67, 0x61, 0x6D, 0x65, 0x20, 0x72, 0x65, 0x71, 0x75, 0x65, 0x73, 0x74]  // "cancel game request"
  const CHALLENGE_LIST: JsString := [0x63, 0x68, 0x61, 0x6C, 0x6C, 0x65, 0x6E, 0x67, 0x65, 0x20, 0x6C, 0x69, 0x73, 0x74]  // "challenge list"
  const ACCEPT_CHALLENGE: JsString := [0x61, 0x63, 0x63, 0x65, 0x70, 0x74, 0x20, 0x63, 0x68, 0x61, 0x6C, 0x6C, 0x65, 0x6E, 0x67, 0x65]  // "accept challenge"

  /** The `type` field of a request, as far as the relay's filter reads it. */
  function TypeOf(req: Request): JsValue
  {
    match req
    case DatabaseHello(_) => Str(DATABASE_HELLO)
    case DatabaseUser(_, _, _, _) => Str(DATABASE_USER)
    case DatabaseQuery(k, _) =>
      Str(match k case SelfQuery => DATABASE_SELF case ReplaysQuery => DATABASE_REPLAYS case ReplayQuery => DATABASE_REPLAY)
    case UserRequest(_) => Str(USER)
    case GameRequest(_) => Str(GAME_REQUEST)
    case CancelGameRequest => Str(CANCEL_GAME_REQUEST)
    case ChallengeListRequest => Str(CHALLENGE_LIST)
    case AcceptChallenge(_, _) => Str(ACCEPT_CHALLENGE)
    // A session message's type never starts with "database:"; which one it is does not matter here.
    case Forwarded(_) => Undefined
  }

  /** The `authorization` field of a relay-only request. */
  function AuthorizationOf(req: Request): JsValue
  {
    match req
    case DatabaseHello(a) => a
    case DatabaseUser(a, _, _, _) => a
    case DatabaseQuery(_, a) => a
    case _ => Undefined
  }

  /** The server's own message types are none of the relay's. */
  lemma ServerTypesAreNotRelayTypes()
    ensures !IsDatabaseType(Str(USER)) && !IsDatabaseType(Str(GAME_REQUEST)) && !IsDatabaseType(Str(CANCEL_GAME_REQUEST))
    ensures !IsDatabaseType(Str(CHALLENGE_LIST)) && !IsDatabaseType(Str(ACCEPT_CHALLENGE))
  {
    DatabaseTypesStartWithD(Str(USER));
    DatabaseTypesStartWithD(Str(GAME_REQUEST));
    DatabaseTypesStartWithD(Str(CANCEL_GAME_REQUEST));
    DatabaseTypesStartWithD(Str(CHALLENGE_LIST));
    DatabaseTypesStartWithD(Str(ACCEPT_CHALLENGE));
  }

  /**
   * The relay's filter holds back exactly the relay-only requests that do not
   * carry the secret; every other request passes, whatever it carries.
   */
  lemma RejectsOnlyForgedRelayRequests(d: DatabaseSocket, req: Request)
    ensures Reject(d, TypeOf(req), AuthorizationOf(req))
      <==> (req.DatabaseHello? || req.DatabaseUser? || req.DatabaseQuery?) && AuthorizationOf(req) != Str(d.authorization)
  {
    match req
    case DatabaseHello(_) =>
    case DatabaseUser(_, _, _, _) =>
    case DatabaseQuery(_, _) =>
    case Forwarded(_) =>
    case _ => ServerTypesAreNotRelayTypes();
  }

  // ---------------------------------------------------------------------
  // The challenge board

  /** The first challenge satisfying p, in insertion order. */
  function FirstWhere(cs: seq<OpenChallenge>, p: OpenChallenge -> bool): (k: Option<nat>)
    ensures k.Some? ==> k.value < |cs| && p(cs[k.value]) && forall j :: 0 <= j < k.value ==> !p(cs[j])
    ensures k.None? ==> forall j :: 0 <= j < |cs| ==> !p(cs[j])
  {
    if cs == [] then None
    else if p(cs[0]) then Some(0)
    else match FirstWhere(cs[1..], p)
      case None => None
      case Some(k) => Some(k + 1)
  }

  /** The type name a sanitised challenge carries. */
  function GameTypeName(t: Util.GameType): JsString
  {
    if t.Pausing? then Util.PAUSING else Lit("realtime")
  }

  /**
   * An auto-match request can take a challenge that is itself auto-match and
   * has no password, whose owner is no bot unless the request allows bots,
   * that allows bots unless the requester is none, and whose game type and
   * ranking equal the request's raw fields.
   */
  predicate Compatible(c: OpenChallenge, owner: Player, requester: Player, r: Util.GameRequestContent)
  {
    c.challenge.autoMatch && c.challenge.password.None?
    && (Truthy(r.botsAllowed) || !owner.isBot)
    && (c.challenge.botsAllowed || !requester.isBot)
    && StrictEquals(Str(GameTypeName(c.challenge.gameType)), r.gameType)
    && StrictEquals(Bool(c.challenge.ranked), r.ranked)
  }

  /** An accept request takes a challenge whose password it gives, or whose uuid it names. */
  predicate Accepts(c: OpenChallenge, uuid: JsValue, password: JsValue)
  {
    (c.challenge.password.Some? && StrictEquals(Str(c.challenge.password.value), password))
    || StrictEquals(Str(c.challenge.uuid), uuid)
  }

  /** The challenges a socket owns. */
  function OwnedBy(sock: SocketId): OpenChallenge -> bool
  {
    (c: OpenChallenge) => c.owner == sock
  }

  /** The challenges an auto-match request of the requester can take. */
  function CompatibleWith(players: map<SocketId, Player>, requester: Player, r: Util.GameRequestContent): OpenChallenge -> bool
  {
    (c: OpenChallenge) => c.owner in players && Compatible(c, players[c.owner], requester, r)
  }

  /** The challenges an accept request names. */
  function AcceptedBy(uuid: JsValue, password: JsValue): OpenChallenge -> bool
  {
    (c: OpenChallenge) => Accepts(c, uuid, password)
  }

  /** The board without its k-th challenge. */
  function RemoveAt(cs: seq<OpenChallenge>, k: nat): (r: seq<OpenChallenge>)
    requires k < |cs|
    ensures |r| == |cs| - 1
    ensures forall j :: 0 <= j < k ==> r[j] == cs[j]
    ensures forall j :: k <= j < |r| ==> r[j] == cs[j + 1]
  {
    cs[..k] + cs[k + 1..]
  }

  /** The listing entry of a challenge: its name, or failing that its owner's. */
  function Listed(c: OpenChallenge, owner: Player): ListedChallenge
  {
    var ch := c.challenge;
    ListedChallenge(ch.uuid, if ch.name.Some? then ch.name.value else owner.name, ch.ranked, ch.gameType, ch.autoMatch, ch.botsAllowed)
  }

  /** The `challenge list` reply: every challenge without a password, in order, stripped of its player. */
  function Listing(cs: seq<OpenChallenge>, players: map<SocketId, Player>): (r: seq<ListedChallenge>)
    requires forall k :: 0 <= k < |cs| ==> cs[k].owner in players
    ensures |r| <= |cs|
  {
    if cs == [] then []
    else
      var rest := Listing(cs[1..], players);
      if cs[0].challenge.password.Some? then rest else [Listed(cs[0], players[cs[0].owner])] + rest
  }

  /** Every listed entry is a challenge without a password, listed in board order. */
  lemma {:induction false} ListingSound(cs: seq<OpenChallenge>, players: map<SocketId, Player>, i: nat)
    requires forall k :: 0 <= k < |cs| ==> cs[k].owner in players
    requires i < |Listing(cs, players)|
    ensures exists k :: 0 <= k < |cs| && cs[k].challenge.password.None? && Listing(cs, players)[i] == Listed(cs[k], players[cs[k].owner])
    decreases |cs|
  {
    if cs[0].challenge.password.None? && i == 0 {
      assert Listing(cs, players)[0] == Listed(cs[0], players[cs[0].owner]);
    } else {
      var i' := if cs[0].challenge.password.Some? then i else i - 1;
      ListingSound(cs[1..], players, i');
      var k :| 0 <= k < |cs[1..]| && cs[1..][k].challenge.password.None?
        && Listing(cs[1..], players)[i'] == Listed(cs[1..][k], players[cs[1..][k].owner]);
      assert Listing(cs, players)[i] == Listed(cs[k + 1], players[cs[k + 1].owner]);
    }
  }

  /** Every challenge without a password is listed. */
  lemma {:induction false} ListingComplete(cs: seq<OpenChallenge>, players: map<SocketId, Player>, k: nat)
    requires forall j :: 0 <= j < |cs| ==> cs[j].owner in players
    requires k < |cs| && cs[k].challenge.password.None?
    ensures Listed(cs[k], players[cs[k].owner]) in Listing(cs, players)
    decreases |cs|
  {
    if k > 0 {
      ListingComplete(cs[1..], players, k - 1);
      assert cs[1..][k - 1] == cs[k];
    }
  }

  /** A password-protected challenge never shows in the listing under its own uuid unless another entry shares it. */
  lemma {:induction false} ListingOmitsPrivate(cs: seq<OpenChallenge>, players: map<SocketId, Player>, u: JsString)
    requires forall j :: 0 <= j < |cs| ==> cs[j].owner in players
    requires forall j :: 0 <= j < |cs| && cs[j].challenge.uuid == u ==> cs[j].challenge.password.Some?
    ensures forall e :: e in Listing(cs, players) ==> e.uuid != u
    decreases |cs|
  {
    if cs != [] {
      ListingOmitsPrivate(cs[1..], players, u);
    }
  }

  // ---------------------------------------------------------------------
  // Players

  /** `clampString(v)` for an authentication uuid: at most 255 code points. */
  function AuthValue(a: Option<JsString>): JsValue
  {
    if a.Some? then Str(a.value) else Undefined
  }

  /**
   * A `user` message: a truthy name is clamped to 64 code points, truthy
   * client info is sanitised, a defined bot flag is coerced, a truthy uuid is
   * clamped; each step can throw, keeping the updates before it.
   */
  function UserUpdate(p: Player, u: UserContent): (r: (Player, Outcome))
    ensures r.1.Threw? <==>
      (Truthy(u.username) && !u.username.Str?)
      || (u.clientInfo.Some? && Util.SanitizeClientInfo(u.clientInfo.value, Util.MAX_STRING_LENGTH).Err?)
      || (Truthy(u.authUuid) && !u.authUuid.Str?)
    ensures r.1 == Handled ==>
      r.0.name == (if Truthy(u.username) then JsStrings.ClampString(u.username.s, MAX_NAME_LENGTH) else p.name)
      && r.0.isBot == (if u.isBot.Undefined? then p.isBot else Truthy(u.isBot))
      && r.0.authUuid == (if Truthy(u.authUuid) then Some(JsStrings.ClampString(u.authUuid.s, Util.MAX_STRING_LENGTH)) else p.authUuid)
      && (u.clientInfo.Some? ==> r.0.clientInfo.Some? && Util.SanitizeClientInfo(u.clientInfo.value, Util.MAX_STRING_LENGTH) == Ok(r.0.clientInfo.value))
      && (u.clientInfo.None? ==> r.0.clientInfo == p.clientInfo)
    ensures Truthy(u.username) && !u.username.Str? ==> r == (p, Threw(Sanitize(Util.NotIterable)))
    ensures r.0.socket == p.socket && r.0.eloRealtime == p.eloRealtime && r.0.eloPausing == p.eloPausing
  {
    var name := if Truthy(u.username) then Util.ClampValue(u.username, MAX_NAME_LENGTH) else Ok(p.name);
    if name.Err? then (p, Threw(Sanitize(name.error)))
    else
      var p1 := p.(name := name.value);
      var info := if u.clientInfo.Some? then Util.SanitizeClientInfo(u.clientInfo.value, Util.MAX_STRING_LENGTH) else Err(Util.NotIterable);
      if u.clientInfo.Some? && info.Err? then (p1, Threw(Sanitize(info.error)))
      else
        var p2 := if u.clientInfo.Some? then p1.(clientInfo := Some(info.value)) else p1;
        var p3 := if u.isBot.Undefined? then p2 else p2.(isBot := Truthy(u.isBot));
        if Truthy(u.authUuid) then
          match Util.ClampValue(u.authUuid, Util.MAX_STRING_LENGTH)
          case Err(e) => (p3, Threw(Sanitize(e)))
          case Ok(a) => (p3.(authUuid := Some(a)), Handled)
        else (p3, Handled)
  }

  /** The `user` message as forwarded to the relay: the raw uuid when truthy, else the player's. */
  function Forwarding(p: Player, u: UserContent): (f: UserContent)
    ensures Truthy(u.authUuid) ==> f == u
    ensures !Truthy(u.authUuid) ==> f == u.(authUuid := AuthValue(p.authUuid))
  {
    if Truthy(u.authUuid) then u else u.(authUuid := AuthValue(p.authUuid))
  }

  // ---------------------------------------------------------------------
  // Completion

  /** A player has signed in when its uuid is a non-empty string. */
  predicate SignedIn(p: Player)
  {
    p.authUuid.Some? && |p.authUuid.value| > 0
  }

  /** What a completed session reports to the relay: ratings and replay, when both players are signed in. */
  function Report(s: SessionRules.SessionState, id: nat, players: map<SocketId, Player>, relay: Option<DatabaseSocket>): (r: seq<RelayMessage>)
    requires |s.sockets| == 2 && s.sockets[0] in players && s.sockets[1] in players
    ensures r != [] <==> relay.Some? && SignedIn(players[s.sockets[0]]) && SignedIn(players[s.sockets[1]])
    ensures r != [] ==> var uuids := [players[s.sockets[0]].authUuid.value, players[s.sockets[1]].authUuid.value];
      r == [EloUpdate(s.kind, s.winner, uuids), ReplayUpload(id, uuids)]
  {
    if relay.Some? && SignedIn(players[s.sockets[0]]) && SignedIn(players[s.sockets[1]]) then
      var uuids := [players[s.sockets[0]].authUuid.value, players[s.sockets[1]].authUuid.value];
      [EloUpdate(s.kind, s.winner, uuids), ReplayUpload(id, uuids)]
    else []
  }

  /**
   * `sessionBySocketId`, `activeRealtimeSessions` and the relay's messages
   * once session `id` went from `s` to `r`: a session that has just completed
   * loses its players' entries, leaves the realtime loop and is reported.
   */
  function AfterAdvance(
    s: SessionRules.SessionState, r: SessionRules.SessionState, id: nat,
    sessionOf: map<SocketId, nat>, active: seq<nat>, outbox: seq<RelayMessage>,
    players: map<SocketId, Player>, relay: Option<DatabaseSocket>): (map<SocketId, nat>, seq<nat>, seq<RelayMessage>)
    requires |r.sockets| == 2 && r.sockets[0] in players && r.sockets[1] in players
  {
    if !s.done && r.done then
      (sessionOf - {r.sockets[0], r.sockets[1]},
       if r.kind.Realtime? then RemoveFirst(active, id) else active,
       outbox + Report(r, id, players, relay))
    else (sessionOf, active, outbox)
  }

  /** `splice(indexOf(x), 1)` when x is present. */
  function RemoveFirst(xs: seq<nat>, x: nat): (r: seq<nat>)
    ensures x !in xs ==> r == xs
    ensures x in xs ==> |r| == |xs| - 1 && multiset(r) == multiset(xs) - multiset{x}
  {
    if xs == [] then []
    else
      assert xs == [xs[0]] + xs[1..];
      if xs[0] == x then xs[1..] else [xs[0]] + RemoveFirst(xs[1..], x)
  }

  // ---------------------------------------------------------------------
  // The server

  /** `sessionBySocketId` maps each socket to a session it plays in. */
  predicate Indexed(sessions: seq<SessionRules.SessionState>, sessionOf: map<SocketId, nat>)
  {
    forall sock :: sock in sessionOf ==> sessionOf[sock] < |sessions| && sock in sessions[sessionOf[sock]].sockets
  }

  /** Every session is a valid duel between known players. */
  predicate Duels(sessions: seq<SessionRules.SessionState>, players: map<SocketId, Player>)
  {
    forall k :: 0 <= k < |sessions| ==>
      SessionRules.Valid(sessions[k]) && sessions[k].sockets[0] in players && sessions[k].sockets[1] in players
  }

  /** Every challenge has a known owner. */
  predicate Owned(challenges: seq<OpenChallenge>, players: map<SocketId, Player>)
  {
    forall k :: 0 <= k < |challenges| ==> challenges[k].owner in players
  }

  lemma ForgetKeepsIndexed(sessions: seq<SessionRules.SessionState>, sessionOf: map<SocketId, nat>, gone: set<SocketId>)
    requires Indexed(sessions, sessionOf)
    ensures Indexed(sessions, sessionOf - gone)
  {
  }

  lemma ReplaceKeepsIndexed(sessions: seq<SessionRules.SessionState>, sessionOf: map<SocketId, nat>, id: nat, r: SessionRules.SessionState)
    requires Indexed(sessions, sessionOf) && id < |sessions| && r.sockets == sessions[id].sockets
    ensures Indexed(sessions[id := r], sessionOf)
  {
  }

  lemma AppendKeepsIndexed(sessions: seq<SessionRules.SessionState>, sessionOf: map<SocketId, nat>, s: SessionRules.SessionState, a: SocketId, b: SocketId)
    requires Indexed(sessions, sessionOf) && a in s.sockets && b in s.sockets
    ensures Indexed(sessions + [s], sessionOf[a := |sessions|][b := |sessions|])
  {
    var n := |sessions|;

  }

  lemma ReplaceKeepsDuels(sessions: seq<SessionRules.SessionState>, players: map<SocketId, Player>, id: nat, r: SessionRules.SessionState)
    requires Duels(sessions, players) && id < |sessions| && r.sockets == sessions[id].sockets && SessionRules.Valid(r)
    ensures Duels(sessions[id := r], players)
  {
  }

  lemma AppendKeepsDuels(sessions: seq<SessionRules.SessionState>, players: map<SocketId, Player>, s: SessionRules.SessionState)
    requires Duels(sessions, players) && SessionRules.Valid(s) && s.sockets[0] in players && s.sockets[1] in players
    ensures Duels(sessions + [s], players)
  {
  }

  lemma RemoveKeepsOwned(challenges: seq<OpenChallenge>, players: map<SocketId, Player>, k: nat)
    requires Owned(challenges, players) && k < |challenges|
    ensures Owned(RemoveAt(challenges, k), players)
  {
  }

  lemma UpdateKeepsKnown(sessions: seq<SessionRules.SessionState>, challenges: seq<OpenChallenge>, players: map<SocketId, Player>, sock: SocketId, p: Player)
    requires Duels(sessions, players) && Owned(challenges, players) && sock in players
    ensures Duels(sessions, players[sock := p]) && Owned(challenges, players[sock := p])
  {
  }

  class Server {
    /** Every player object created, by its socket; closed sockets keep theirs, as challenges and sessions still refer to it. */
    var players: map<SocketId, Player>
    /** The sockets `playerBySocketId` still maps. */
    var online: set<SocketId>
    var challenges: seq<OpenChallenge>
    /** Every session started, by the order it was started in. */
    var sessions: seq<SessionRules.SessionState>
    var sessionOf: map<SocketId, nat>
    var activeRealtime: seq<nat>
    var relay: Option<DatabaseSocket>
    /** The secret the relay process is started with. */
    const secret: JsString
    var relayOutbox: seq<RelayMessage>
    var replies: seq<(SocketId, Reply)>

    /**
     * Every socket mapped to a session plays in it, every session is a valid
     * duel of known players, every challenge has a known owner, and the relay
     * knows the secret.
     */
    predicate Valid()
      reads this
    {
      Indexed(sessions, sessionOf) && Duels(sessions, players) && Owned(challenges, players)
      && online <= players.Keys
      && (relay.Some? ==> relay.value.authorization == secret)
    }

    constructor (secret: JsString)
      ensures Valid() && this.secret == secret
      ensures players == map[] && online == {} && challenges == [] && sessions == [] && sessionOf == map[]
      ensures activeRealtime == [] && relay.None? && relayOutbox == [] && replies == []
    {
      this.secret := secret;
      players := map[];
      online := {};
      challenges := [];
      sessions := [];
      sessionOf := map[];
      activeRealtime := [];
      relay := None;
      relayOutbox := [];
      replies := [];
    }

    /** `open`: a new anonymous player. */
    method Open(sock: SocketId, name: JsString)
      requires Valid() && sock !in players
      modifies this
      ensures Valid()
      ensures players == old(players)[sock := NewPlayer(sock, name)] && online == old(online) + {sock}
      ensures challenges == old(challenges) && sessions == old(sessions) && sessionOf == old(sessionOf)
      ensures activeRealtime == old(activeRealtime) && relay == old(relay)
      ensures relayOutbox == old(relayOutbox) && replies == old(replies)
    {
      players := players[sock := NewPlayer(sock, name)];
      online := online + {sock};
    }

    /** The first challenge satisfying p: the board's `for…of` scan with an early exit. */
    method Scan(p: OpenChallenge -> bool) returns (k: Option<nat>)
      ensures k == FirstWhere(challenges, p)
    {
      var i := 0;
      while i < |challenges|
        invariant 0 <= i <= |challenges|
        invariant forall j :: 0 <= j < i ==> !p(challenges[j])
      {
        if p(challenges[i]) {
          FirstWhereIsFirst(challenges, p, i);
          return Some(i);
        }
        i := i + 1;
      }
      FirstWhereNone(challenges, p);
      return None;
    }

    /** `startSession(challenge, challenger)`: a session of the owner and the challenger, started; the challenge leaves the board. */
    method StartSession(k: nat, challenger: SocketId, game: GameView)
      requires Valid() && k < |challenges| && challenger in players && WellFormed(game)
      modifies this
      ensures Valid()
      ensures var c := old(challenges[k]);
        var id := |old(sessions)|;
        sessions == old(sessions) + [SessionRules.Start(SessionRules.Initial(c.challenge.gameType, [c.owner, challenger], game))]
        && sessionOf == old(sessionOf)[c.owner := id][challenger := id]
        && activeRealtime == (if c.challenge.gameType.Realtime? then old(activeRealtime) + [id] else old(activeRealtime))
        && challenges == RemoveAt(old(challenges), k)
      ensures players == old(players) && online == old(online) && relay == old(relay)
      ensures relayOutbox == old(relayOutbox) && replies == old(replies)
    {
      var c := challenges[k];
      var id := |sessions|;
      var s := SessionRules.Initial(c.challenge.gameType, [c.owner, challenger], game);
      SessionLaws.StartAwaitsBoth(s);
      var started := SessionRules.Start(s);
      AppendKeepsIndexed(sessions, sessionOf, started, c.owner, challenger);
      AppendKeepsDuels(sessions, players, started);
      RemoveKeepsOwned(challenges, players, k);
      if c.challenge.gameType.Realtime? {
        activeRealtime := activeRealtime + [id];
      }
      sessionOf := sessionOf[c.owner := id];
      sessionOf := sessionOf[challenger := id];
      sessions := sessions + [started];
      challenges := RemoveAt(challenges, k);
    }

    /** Session `id` reached state r; when it has just completed, its `onComplete` runs. */
    method Advance(id: nat, r: SessionRules.SessionState)
      requires Valid() && id < |sessions| && SessionRules.Valid(r) && r.sockets == sessions[id].sockets && r.kind == sessions[id].kind
      modifies this
      ensures Valid()
      ensures sessions == old(sessions)[id := r]
      ensures !old(sessions[id]).done && r.done ==>
        sessionOf == old(sessionOf) - {r.sockets[0], r.sockets[1]}
        && activeRealtime == (if r.kind.Realtime? then RemoveFirst(old(activeRealtime), id) else old(activeRealtime))
        && relayOutbox == old(relayOutbox) + Report(r, id, old(players), old(relay))
      ensures !(!old(sessions[id]).done && r.done) ==>
        sessionOf == old(sessionOf) && activeRealtime == old(activeRealtime) && relayOutbox == old(relayOutbox)
      ensures (sessionOf, activeRealtime, relayOutbox)
        == AfterAdvance(old(sessions[id]), r, id, old(sessionOf), old(activeRealtime), old(relayOutbox), old(players), old(relay))
      ensures players == old(players) && online == old(online) && challenges == old(challenges)
      ensures relay == old(relay) && replies == old(replies)
    {
      var was := sessions[id].done;
      ReplaceKeepsIndexed(sessions, sessionOf, id, r);
      ReplaceKeepsDuels(sessions, players, id, r);
      sessions := sessions[id := r];
      if !was && r.done {
        OnComplete(id);
      }
    }

    /** `onPausingComplete` / `onRealtimeComplete` */
    method OnComplete(id: nat)
      requires Valid() && id < |sessions|
      modifies this
      ensures Valid()
      ensures sessions == old(sessions) && players == old(players) && online == old(online) && challenges == old(challenges)
      ensures relay == old(relay) && replies == old(replies)
      ensures var s := sessions[id];
        sessionOf == old(sessionOf) - {s.sockets[0], s.sockets[1]}
        && activeRealtime == (if s.kind.Realtime? then RemoveFirst(old(activeRealtime), id) else old(activeRealtime))
        && relayOutbox == old(relayOutbox) + Report(s, id, players, relay)
    {
      var s := sessions[id];
      if s.kind.Realtime? {
        activeRealtime := RemoveFirst(activeRealtime, id);
      }
      Unmap(s.sockets);
      assert (set x | x in s.sockets) == {s.sockets[0], s.sockets[1]};
      relayOutbox := relayOutbox + Report(s, id, players, relay);
    }

    /** The sockets' entries leave `sessionBySocketId`, one player at a time. */
    method Unmap(socks: seq<SocketId>)
      requires Valid()
      modifies this
      ensures Valid() && sessionOf == old(sessionOf) - (set x | x in socks)
      ensures sessions == old(sessions) && players == old(players) && online == old(online) && challenges == old(challenges)
      ensures activeRealtime == old(activeRealtime) && relay == old(relay)
      ensures relayOutbox == old(relayOutbox) && replies == old(replies)
    {
      for i := 0 to |socks|
        invariant sessionOf == old(sessionOf) - (set x | x in socks[..i])
        invariant Valid() && sessions == old(sessions) && players == old(players) && online == old(online)
        invariant challenges == old(challenges) && activeRealtime == old(activeRealtime) && relay == old(relay)
        invariant relayOutbox == old(relayOutbox) && replies == old(replies)
      {
        ForgetKeepsIndexed(sessions, sessionOf, {socks[i]});
        assert socks[..i + 1] == socks[..i] + [socks[i]];
        sessionOf := sessionOf - {socks[i]};
      }
      assert socks[..|socks|] == socks;
    }

    /** The first challenge the socket owns, withdrawn: the `cancel game request` handler and the close handler's loop. */
    method Withdraw(sock: SocketId)
      requires Valid()
      modifies this
      ensures Valid()
      ensures var k := FirstWhere(old(challenges), OwnedBy(sock));
        challenges == (if k.Some? then RemoveAt(old(challenges), k.value) else old(challenges))
      ensures players == old(players) && online == old(online) && sessions == old(sessions) && sessionOf == old(sessionOf)
      ensures activeRealtime == old(activeRealtime) && relay == old(relay)
      ensures relayOutbox == old(relayOutbox) && replies == old(replies)
    {
      var k := Scan(OwnedBy(sock));
      if k.Some? {
        challenges := RemoveAt(challenges, k.value);
      }
    }

    /** `close`: the first challenge of the player is withdrawn, the player forgotten, its session told of the disconnect. */
    method Close(sock: SocketId)
      requires Valid()
      modifies this
      ensures Valid()
      ensures var k := FirstWhere(old(challenges), OwnedBy(sock));
        challenges == (if k.Some? then RemoveAt(old(challenges), k.value) else old(challenges))
      ensures online == old(online) - {sock} && players == old(players)
      ensures relay == old(relay) && replies == old(replies)
      ensures sock !in old(sessionOf) ==>
        sessions == old(sessions) && sessionOf == old(sessionOf)
        && activeRealtime == old(activeRealtime) && relayOutbox == old(relayOutbox)
      ensures sock in old(sessionOf) ==>
        var id := old(sessionOf[sock]);
        sessions == old(sessions)[id := SessionRules.DisconnectSocket(old(sessions[id]), sock)]
        && (sessionOf, activeRealtime, relayOutbox)
           == AfterAdvance(old(sessions[id]), sessions[id], id, old(sessionOf), old(activeRealtime), old(relayOutbox), players, relay)
    {
      Withdraw(sock);
      online := online - {sock};
      if sock in sessionOf {
        var id := sessionOf[sock];
        var s := sessions[id];
        var r := SessionRules.DisconnectSocket(s, sock);
        if !s.done {
          SessionLaws.DisconnectResult(s, sock);
        }
        Advance(id, r);
      }
    }

    /** Pass a message to the socket's session, if it has one. */
    method Forward(sock: SocketId, msg: ClientMessage, e: SessionRules.EngineInput) returns (o: Outcome)
      requires Valid()
      requires sock in sessionOf ==> SessionRules.InputOk(sessions[sessionOf[sock]], sock, msg, e)
      modifies this
      ensures Valid()
      ensures players == old(players) && online == old(online) && challenges == old(challenges)
      ensures relay == old(relay) && replies == old(replies)
      ensures sock !in old(sessionOf) ==>
        o == Handled && sessions == old(sessions) && sessionOf == old(sessionOf)
        && activeRealtime == old(activeRealtime) && relayOutbox == old(relayOutbox)
      ensures sock in old(sessionOf) ==>
        var id := old(sessionOf[sock]);
        var (r, out) := SessionRules.OnMessage(old(sessions[id]), sock, msg, e);
        o == out && sessions == old(sessions)[id := r]
        && (sessionOf, activeRealtime, relayOutbox)
           == AfterAdvance(old(sessions[id]), sessions[id], id, old(sessionOf), old(activeRealtime), old(relayOutbox), players, relay)
    {
      if sock !in sessionOf {
        return Handled;
      }
      var id := sessionOf[sock];
      var s := sessions[id];
      var (r, out) := SessionRules.OnMessage(s, sock, msg, e);
      SessionLaws.OnMessageKeepsValid(s, sock, msg, e);
      Advance(id, r);
      o := out;
    }

    /** A player's move timer fires in session `id`. */
    method TimerFires(id: nat, p: nat)
      requires Valid() && id < |sessions| && p < 2 && Timers.IsArmed(sessions[id].timers, p)
      modifies this
      ensures Valid()
      ensures sessions == old(sessions)[id := SessionRules.TimerFires(old(sessions[id]), p)]
      ensures sessionOf == old(sessionOf) - {sessions[id].sockets[0], sessions[id].sockets[1]}
      ensures (sessionOf, activeRealtime, relayOutbox)
        == AfterAdvance(old(sessions[id]), sessions[id], id, old(sessionOf), old(activeRealtime), old(relayOutbox), old(players), old(relay))
      ensures players == old(players) && online == old(online) && challenges == old(challenges)
      ensures relay == old(relay) && replies == old(replies)
    {
      var s := sessions[id];
      SessionLaws.TimeoutDisqualifies(s, p);
      Advance(id, SessionRules.TimerFires(s, p));
    }

    /** One `tick()` of realtime session `id`, given the engine's state and the pieces it reveals. */
    method TickSession(id: nat, v: GameView, pieces: seq<PieceReveal>)
      requires Valid() && id < |sessions| && WellFormed(v) && forall k :: 0 <= k < |pieces| ==> pieces[k].player < 2
      modifies this
      ensures Valid()
      ensures sessions == old(sessions)[id := SessionRules.Tick(old(sessions[id]), v, pieces)]
      ensures (sessionOf, activeRealtime, relayOutbox)
        == AfterAdvance(old(sessions[id]), sessions[id], id, old(sessionOf), old(activeRealtime), old(relayOutbox), old(players), old(relay))
      ensures players == old(players) && online == old(online) && challenges == old(challenges)
      ensures relay == old(relay) && replies == old(replies)
    {
      var s := sessions[id];
      SessionLaws.TickLaw(s, v, pieces);
      Advance(id, SessionRules.Tick(s, v, pieces));
    }

    /** `database:hello`: a socket that knows the secret becomes the relay. */
    method Hello(sock: SocketId, authorization: JsValue)
      requires Valid()
      modifies this
      ensures Valid()
      ensures relay == (if StrictEquals(authorization, Str(secret)) then Some(DatabaseSocket(sock, secret)) else old(relay))
      ensures players == old(players) && online == old(online) && challenges == old(challenges)
      ensures sessions == old(sessions) && sessionOf == old(sessionOf) && activeRealtime == old(activeRealtime)
      ensures relayOutbox == old(relayOutbox) && replies == old(replies)
    {
      if StrictEquals(authorization, Str(secret)) {
        relay := Some(DatabaseSocket(sock, secret));
      }
    }

    /** `database:user`: new ratings for a connected receiver, who is sent them. */
    method RatePlayer(receiver: SocketId, eloRealtime: JsValue, eloPausing: JsValue)
      requires Valid()
      modifies this
      ensures Valid()
      ensures receiver in old(online) ==>
        players == old(players)[receiver := old(players[receiver]).(eloRealtime := eloRealtime, eloPausing := eloPausing)]
        && replies == old(replies) + [(receiver, Ratings(eloRealtime, eloPausing))]
      ensures receiver !in old(online) ==> players == old(players) && replies == old(replies)
      ensures online == old(online) && challenges == old(challenges) && sessions == old(sessions)
      ensures sessionOf == old(sessionOf) && activeRealtime == old(activeRealtime)
      ensures relay == old(relay) && relayOutbox == old(relayOutbox)
    {
      if receiver in online {
        players := players[receiver := players[receiver].(eloRealtime := eloRealtime, eloPausing := eloPausing)];
        replies := replies + [(receiver, Ratings(eloRealtime, eloPausing))];
      }
    }

    /** `user`: the sender's profile is updated and, with a relay, forwarded to it. */
    method UpdateUser(sock: SocketId, u: UserContent) returns (o: Outcome)
      requires Valid() && sock in online
      modifies this
      ensures Valid()
      ensures var (p, out) := UserUpdate(old(players[sock]), u);
        players == old(players)[sock := p] && o == out
      ensures o == Handled && old(relay).Some? ==> relayOutbox == old(relayOutbox) + [UserInfo(sock, Forwarding(old(players[sock]), u))]
      ensures !(o == Handled && old(relay).Some?) ==> relayOutbox == old(relayOutbox)
      ensures online == old(online) && challenges == old(challenges) && sessions == old(sessions)
      ensures sessionOf == old(sessionOf) && activeRealtime == old(activeRealtime)
      ensures relay == old(relay) && replies == old(replies)
    {
      var before := players[sock];
      var (p, out) := UserUpdate(before, u);
      players := players[sock := p];
      o := out;
      if out == Handled && relay.Some? {
        relayOutbox := relayOutbox + [UserInfo(sock, Forwarding(before, u))];
      }
    }

    /**
     * `game request`: ignored from a socket already in a session; an
     * auto-match request takes the first compatible challenge; otherwise the
     * request becomes a challenge of its own.
     */
    method RequestGame(sock: SocketId, r: Util.GameRequestContent, uuid: JsString, game: GameView) returns (o: Outcome)
      requires Valid() && sock in online && WellFormed(game)
      modifies this
      ensures Valid()
      ensures sock in old(sessionOf) ==>
        o == Handled && challenges == old(challenges) && sessions == old(sessions)
        && sessionOf == old(sessionOf) && activeRealtime == old(activeRealtime)
      ensures var k := FirstWhere(old(challenges), CompatibleWith(old(players), old(players[sock]), r));
        sock !in old(sessionOf) && Truthy(r.autoMatch) && k.Some? ==>
          var c := old(challenges[k.value]);
          var id := |old(sessions)|;
          o == Handled && challenges == RemoveAt(old(challenges), k.value)
          && sessions == old(sessions) + [SessionRules.Start(SessionRules.Initial(c.challenge.gameType, [c.owner, sock], game))]
          && sessionOf == old(sessionOf)[c.owner := id][sock := id]
          && activeRealtime == (if c.challenge.gameType.Realtime? then old(activeRealtime) + [id] else old(activeRealtime))
      ensures var k := FirstWhere(old(challenges), CompatibleWith(old(players), old(players[sock]), r));
        sock !in old(sessionOf) && !(Truthy(r.autoMatch) && k.Some?) ==>
          sessions == old(sessions) && sessionOf == old(sessionOf) && activeRealtime == old(activeRealtime)
          && match Util.SanitizeChallenge(r, uuid)
             case Ok(c) => o == Handled && challenges == old(challenges) + [OpenChallenge(sock, c)]
             case Err(e) => o == Threw(Sanitize(e)) && challenges == old(challenges)
      ensures players == old(players) && online == old(online) && relay == old(relay)
      ensures relayOutbox == old(relayOutbox) && replies == old(replies)
    {
      if sock in sessionOf {
        return Handled;
      }
      if Truthy(r.autoMatch) {
        var matched := AutoMatch(sock, r, game);
        if matched {
          return Handled;
        }
      }
      o := Post(sock, r, uuid);
    }

    /** The auto-match scan: the first compatible challenge, if any, is started against the requester. */
    method AutoMatch(sock: SocketId, r: Util.GameRequestContent, game: GameView) returns (matched: bool)
      requires Valid() && sock in online && WellFormed(game)
      modifies this
      ensures Valid()
      ensures var k := FirstWhere(old(challenges), CompatibleWith(old(players), old(players[sock]), r));
        matched == k.Some?
        && (k.Some? ==>
          var c := old(challenges[k.value]);
          var id := |old(sessions)|;
          challenges == RemoveAt(old(challenges), k.value)
          && sessions == old(sessions) + [SessionRules.Start(SessionRules.Initial(c.challenge.gameType, [c.owner, sock], game))]
          && sessionOf == old(sessionOf)[c.owner := id][sock := id]
          && activeRealtime == (if c.challenge.gameType.Realtime? then old(activeRealtime) + [id] else old(activeRealtime)))
        && (k.None? ==>
          challenges == old(challenges) && sessions == old(sessions) && sessionOf == old(sessionOf)
          && activeRealtime == old(activeRealtime))
      ensures players == old(players) && online == old(online) && relay == old(relay)
      ensures relayOutbox == old(relayOutbox) && replies == old(replies)
    {
      var k := Scan(CompatibleWith(players, players[sock], r));
      matched := k.Some?;
      if k.Some? {
        StartSession(k.value, sock, game);
      }
    }

    /** A request no challenge matched is sanitised and posted as a challenge of its own. */
    method Post(sock: SocketId, r: Util.GameRequestContent, uuid: JsString) returns (o: Outcome)
      requires Valid() && sock in online
      modifies this
      ensures Valid()
      ensures match Util.SanitizeChallenge(r, uuid)
        case Ok(c) => o == Handled && challenges == old(challenges) + [OpenChallenge(sock, c)]
        case Err(e) => o == Threw(Sanitize(e)) && challenges == old(challenges)
      ensures players == old(players) && online == old(online) && sessions == old(sessions) && sessionOf == old(sessionOf)
      ensures activeRealtime == old(activeRealtime) && relay == old(relay)
      ensures relayOutbox == old(relayOutbox) && replies == old(replies)
    {
      match Util.SanitizeChallenge(r, uuid)
      case Err(e) =>
        o := Threw(Sanitize(e));
      case Ok(c) =>
        challenges := challenges + [OpenChallenge(sock, c)];
        o := Handled;
    }

    /** `challenge list`: the public challenges, sent to the requester. */
    method ListChallenges(sock: SocketId)
      requires Valid()
      modifies this
      ensures Valid()
      ensures replies == old(replies) + [(sock, ChallengeList(Listing(challenges, players)))]
      ensures players == old(players) && online == old(online) && challenges == old(challenges)
      ensures sessions == old(sessions) && sessionOf == old(sessionOf) && activeRealtime == old(activeRealtime)
      ensures relay == old(relay) && relayOutbox == old(relayOutbox)
    {
      replies := replies + [(sock, ChallengeList(Listing(challenges, players)))];
    }

    /** `accept challenge`: the first challenge the request names is started, or the request is told it was not found. */
    method Accept(sock: SocketId, uuid: JsValue, password: JsValue, game: GameView) returns (found: bool)
      requires Valid() && sock in online && WellFormed(game)
      modifies this
      ensures Valid()
      ensures var k := FirstWhere(old(challenges), AcceptedBy(uuid, password));
        found == k.Some?
        && (k.Some? ==>
          challenges == RemoveAt(old(challenges), k.value)
          && sessions == old(sessions) + [SessionRules.Start(SessionRules.Initial(
               old(challenges[k.value]).challenge.gameType, [old(challenges[k.value]).owner, sock], game))]
          && sessionOf == old(sessionOf)[old(challenges[k.value]).owner := |old(sessions)|][sock := |old(sessions)|]
          && activeRealtime == (if old(challenges[k.value]).challenge.gameType.Realtime?
                                then old(activeRealtime) + [|old(sessions)|] else old(activeRealtime))
          && replies == old(replies))
        && (k.None? ==>
          challenges == old(challenges) && sessions == old(sessions) && sessionOf == old(sessionOf)
          && activeRealtime == old(activeRealtime)
          && replies == old(replies) + [(sock, ChallengeNotFound(uuid, password))])
      ensures players == old(players) && online == old(online) && relay == old(relay) && relayOutbox == old(relayOutbox)
    {
      var k := Scan(AcceptedBy(uuid, password));
      found := k.Some?;
      if k.Some? {
        StartSession(k.value, sock, game);
      } else {
        replies := replies + [(sock, ChallengeNotFound(uuid, password))];
      }
    }

    /** `message(ws, message)`, after JSON parsing. */
    method OnMessage(sock: SocketId, req: Request, oracle: Oracle) returns (o: Outcome)
      requires Valid() && sock in online && WellFormed(oracle.game)
      requires req.Forwarded? && sock in sessionOf ==> SessionRules.InputOk(sessions[sessionOf[sock]], sock, req.message, oracle.engine)
      modifies this
      ensures Valid()
      ensures old(relay).Some? && Reject(old(relay).value, TypeOf(req), AuthorizationOf(req)) && !req.DatabaseHello? ==>
        o == Handled && players == old(players) && challenges == old(challenges) && sessions == old(sessions)
        && relayOutbox == old(relayOutbox) && replies == old(replies)
    {
      if req.DatabaseHello? {
        Hello(sock, req.authorization);
        return Handled;
      }
      if relay.Some? && Reject(relay.value, TypeOf(req), AuthorizationOf(req)) {
        return Handled;
      }
      match req
      case DatabaseUser(_, receiver, eloRealtime, eloPausing) =>
        RatePlayer(receiver, eloRealtime, eloPausing);
        o := Handled;
      case UserRequest(u) =>
        o := UpdateUser(sock, u);
      case GameRequest(r) =>
        o := RequestGame(sock, r, oracle.uuid, oracle.game);
      case CancelGameRequest =>
        Withdraw(sock);
        o := Handled;
      case ChallengeListRequest =>
        ListChallenges(sock);
        o := Handled;
      case AcceptChallenge(uuid, password) =>
        var found := Accept(sock, uuid, password, oracle.game);
        if found {
          o := Handled;
        } else {
          // A challenge not found falls through to the sender's session, if any, which ignores the message.
          o := Forward(sock, OtherRequest, oracle.engine);
        }
      case DatabaseQuery(_, _) =>
        o := Forward(sock, OtherRequest, oracle.engine);
      case Forwarded(msg) =>
        o := Forward(sock, msg, oracle.engine);
    }
  }

  lemma FirstWhereIsFirst(cs: seq<OpenChallenge>, p: OpenChallenge -> bool, i: nat)
    requires i < |cs| && p(cs[i]) && forall j :: 0 <= j < i ==> !p(cs[j])
    ensures FirstWhere(cs, p) == Some(i)
  {
  }

  lemma FirstWhereNone(cs: seq<OpenChallenge>, p: OpenChallenge -> bool)
    requires forall j :: 0 <= j < |cs| ==> !p(cs[j])
    ensures FirstWhere(cs, p) == None
  {
  }
}
