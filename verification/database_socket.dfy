/**
 * The database relay's socket: the connection of the process that stores
 * ratings and replays, and the filter that keeps forged `database:*`
 * messages away from the server.
 */
module DatabaseSockets {
  import opened JsValues
  import Protocol

  /** A relay socket and the secret it proved it knows; neither changes after construction. */
  datatype DatabaseSocket = DatabaseSocket(socket: Protocol.SocketId, authorization: JsString)

  const DATABASE_SELF: JsString := [0x64, 0x61, 0x74, 0x61, 0x62, 0x61, 0x73, 0x65, 0x3A, 0x73, 0x65, 0x6C, 0x66]  // "database:self"
  const DATABASE_HELLO: JsString := [0x64, 0x61, 0x74, 0x61, 0x62, 0x61, 0x73, 0x65, 0x3A, 0x68, 0x65, 0x6C, 0x6C, 0x6F]  // "database:hello"
  const DATABASE_USER: JsString := [0x64, 0x61, 0x74, 0x61, 0x62, 0x61, 0x73, 0x65, 0x3A, 0x75, 0x73, 0x65, 0x72]  // "database:user"
  const DATABASE_REPLAYS: JsString := [0x64, 0x61, 0x74, 0x61, 0x62, 0x61, 0x73, 0x65, 0x3A, 0x72, 0x65, 0x70, 0x6C, 0x61, 0x79, 0x73]  // "database:replays"
  const DATABASE_REPLAY: JsString := [0x64, 0x61, 0x74, 0x61, 0x62, 0x61, 0x73, 0x65, 0x3A, 0x72, 0x65, 0x70, 0x6C, 0x61, 0x79]  // "database:replay"

  /** The message types only the relay may send. */
  predicate IsDatabaseType(t: JsValue)
  {
    t == Str(DATABASE_SELF) || t == Str(DATABASE_HELLO) || t == Str(DATABASE_USER)
    || t == Str(DATABASE_REPLAYS) || t == Str(DATABASE_REPLAY)
  }

  /** `reject(content)`: a relay-only message whose authorization differs from the stored secret. */
  predicate Reject(d: DatabaseSocket, t: JsValue, authorization: JsValue)
  {
    if IsDatabaseType(t) then !StrictEquals(authorization, Str(d.authorization)) else false
  }

  /** A message of any other type is never rejected, whatever its authorization. */
  lemma OthersPass(d: DatabaseSocket, t: JsValue, authorization: JsValue)
    requires !IsDatabaseType(t)
    ensures !Reject(d, t, authorization)
  {
  }

  /** A relay-only message is rejected exactly when it does not carry the stored secret. */
  lemma RejectIffForged(d: DatabaseSocket, t: JsValue, authorization: JsValue)
    requires IsDatabaseType(t)
    ensures Reject(d, t, authorization) <==> authorization != Str(d.authorization)
  {
  }

  /** Every relay-only type starts with "d". */
  lemma DatabaseTypesStartWithD(t: JsValue)
    ensures IsDatabaseType(t) ==> t.Str? && |t.s| > 0 && t.s[0] == 0x64
  {
  }
}
