/**
 * The input handling of the two single-file servers that preceded the
 * current one (`src/server.ts`, and the older `server.ts` at the top of the
 * repository): their `sanitizeMove`, their `clampString` default, and the
 * relay filter of `src/server.ts`. The properties compare them with the
 * current sanitisers and filter.
 */
module LegacyMoves {
  import opened Wrappers
  import opened JsValues
  import opened JsStrings
  import Util
  import DatabaseSockets

  /** `clampString`'s default length in `src/server.ts`. */
  const SRC_MAX_LENGTH: nat := 255
  /** `clampString`'s default length in `server.ts`. */
  const ROOT_MAX_LENGTH: nat := 256

  /**
   * A sanitised legacy move of player `player`. Coordinates stay JavaScript
   * numbers: a NaN is passed on as it is.
   */
  datatype LegacyMove =
    | LegacyPass(player: nat, ms: Util.Millis)
    | LegacyPlace(player: nat, x1: JsNumber, y1: JsNumber, orientation: int, hardDrop: bool, ms: Util.Millis)

  /**
   * The `x2` check of `sanitizeMove`: with a second cell the derived
   * orientation is written into the content, replacing any given one, or
   * the function throws; without one the content is left alone.
   */
  function WriteOrientation(c: Util.MoveContent): (r: Result<Util.MoveContent, Util.SanitizeError>)
    ensures c.x2.Undefined? ==> r == Ok(c)
    ensures r.Err? <==> !c.x2.Undefined? && Util.DeriveOrientation(c).None?
    ensures r.Err? ==> r.error == Util.UnableToSanitizeCoordinates
    ensures !c.x2.Undefined? && r.Ok? ==>
      r.value == c.(orientation := Number(Finite(Util.DeriveOrientation(c).value)))
  {
    if c.x2.Undefined? then Ok(c)
    else match Util.DeriveOrientation(c)
      case Some(o) => Ok(c.(orientation := Number(Finite(o))))
      case None => Err(Util.UnableToSanitizeCoordinates)
  }

  /** The placement built from the (possibly rewritten) content: clamped when numeric, NaN when not. */
  function Placement(player: nat, w: Util.MoveContent): (m: LegacyMove)
    ensures m.LegacyPlace? && m.player == player && m.ms == Util.ParsedFloat(w.msRemaining)
    ensures m.orientation == Util.MaskOrientation(w.orientation) && 0 <= m.orientation < 4
    ensures m.hardDrop == Truthy(w.hardDrop)
    ensures (m.x1.NaN? <==> ParseInt(w.x1).NaN?) && (m.x1.Finite? ==> 0 <= m.x1.value <= Util.WIDTH - 1)
    ensures (m.y1.NaN? <==> ParseInt(w.y1).NaN?) && (m.y1.Finite? ==> 1 <= m.y1.value <= Util.HEIGHT - 1)
    ensures ParseInt(w.x1).Finite? ==> m.x1 == Finite(Util.SanitizeX(w.x1))
    ensures ParseInt(w.y1).Finite? ==> m.y1 == Finite(Util.SanitizeY(w.y1))
  {
    LegacyPlace(player,
      ClampNumber(0, Util.WIDTH - 1, ParseInt(w.x1)),
      ClampNumber(1, Util.HEIGHT - 1, ParseInt(w.y1)),
      Util.MaskOrientation(w.orientation),
      Truthy(w.hardDrop),
      Util.ParsedFloat(w.msRemaining))
  }

  /**
   * `sanitizeMove(player, content)`: the move, or the error it throws, and
   * the content object as the function leaves it.
   */
  function SanitizeMove(player: nat, c: Util.MoveContent): (r: (Result<LegacyMove, Util.SanitizeError>, Util.MoveContent))
    // a pass returns at once, the content untouched
    ensures Truthy(c.pass) ==> r == (Ok(LegacyPass(player, Util.ParsedFloat(c.msRemaining))), c)
    // it throws exactly when a second cell is given that is not adjacent, and then writes nothing
    ensures r.0.Err? <==> !Truthy(c.pass) && WriteOrientation(c).Err?
    ensures r.0.Err? ==> r.0.error == Util.UnableToSanitizeCoordinates && r.1 == c
    // otherwise the placement is read from the rewritten content
    ensures !Truthy(c.pass) && r.0.Ok? ==>
      r.1 == WriteOrientation(c).value && r.0.value == Placement(player, r.1)
  {
    if Truthy(c.pass) then (Ok(LegacyPass(player, Util.ParsedFloat(c.msRemaining))), c)
    else match WriteOrientation(c)
      case Err(e) => (Err(e), c)
      case Ok(w) => (Ok(Placement(player, w)), w)
  }

  // ---------------------------------------------------------------------
  // Against the current sanitiser

  /**
   * On numeric coordinates and an explicit orientation without a second
   * cell, the legacy sanitiser and `sanitizePausingMove` agree.
   */
  lemma AgreesOnNumbers(player: nat, c: Util.MoveContent)
    requires !Truthy(c.pass) && c.x2.Undefined? && !c.orientation.Undefined?
    requires ParseInt(c.x1).Finite? && ParseInt(c.y1).Finite?
    ensures var legacy := SanitizeMove(player, c).0;
      var current := Util.SanitizePausingMove(c);
      legacy.Ok? && current.Ok? && current.value.Place?
      && legacy.value.x1 == Finite(current.value.x1) && legacy.value.y1 == Finite(current.value.y1)
      && legacy.value.orientation == current.value.orientation
      && legacy.value.hardDrop == current.value.hardDrop && legacy.value.ms == current.value.ms
  {
    var current := Util.SanitizePausingMove(c);
    assert current.value.x1 == Util.SanitizeX(c.x1);
    assert current.value.y1 == Util.SanitizeY(c.y1);
  }

  /** A missing x1 stays NaN in the legacy sanitiser, where `sanitizeX` turns it into 0. */
  lemma KeepsNaN(player: nat, c: Util.MoveContent)
    requires c.pass == Bool(false) && c.x1 == Undefined && c.y1 == Number(Finite(3))
    requires c.x2 == Undefined && c.orientation == Number(Finite(0))
    ensures var legacy := SanitizeMove(player, c).0;
      legacy.Ok? && legacy.value.LegacyPlace? && legacy.value.x1 == NaN
    ensures Util.SanitizePausingMove(c) == Ok(Util.Place(0, 3, 0, Truthy(c.hardDrop), Util.ParsedFloat(c.msRemaining)))
  {
    assert ParseInt(c.x1) == NaN;
    assert Util.SanitizeX(c.x1) == 0;
  }

  /**
   * A second cell overrides an explicit orientation in the legacy
   * sanitiser; the current one ignores the second cell when an orientation
   * is given.
   */
  lemma DerivedOverrides(player: nat, c: Util.MoveContent)
    requires c.pass == Bool(false) && c.orientation == Number(Finite(1))
    requires c.x1 == Number(Finite(2)) && c.y1 == Number(Finite(5))
    requires c.x2 == Number(Finite(2)) && c.y2 == Number(Finite(4))
    ensures var legacy := SanitizeMove(player, c);
      legacy.0.Ok? && legacy.0.value.LegacyPlace? && legacy.0.value.orientation == 0
      && legacy.1.orientation == Number(Finite(0))
    ensures var current := Util.SanitizePausingMove(c);
      current.Ok? && current.value.Place? && current.value.orientation == 1
  {
    assert Util.DeriveOrientation(c) == Some(0);
    assert Util.MaskOrientation(c.orientation) == 1;
  }

  /**
   * The default length of `server.ts` keeps one code point more: a reason of
   * exactly 256 code points is kept whole there and cut in `src/server.ts`.
   */
  lemma RootKeepsOneMore(s: JsString)
    requires |CodePoints(s)| == ROOT_MAX_LENGTH
    ensures ClampString(s, ROOT_MAX_LENGTH) == s
    ensures ClampString(s, SRC_MAX_LENGTH) != s
    ensures |CodePoints(ClampString(s, SRC_MAX_LENGTH))| == SRC_MAX_LENGTH
  {
    ClampShort(s, ROOT_MAX_LENGTH);
    ClampCount(s, SRC_MAX_LENGTH);
  }

  // ---------------------------------------------------------------------
  // The relay filter of src/server.ts

  const DATABASE_PREFIX: JsString := [0x64, 0x61, 0x74, 0x61, 0x62, 0x61, 0x73, 0x65, 0x3A]  // "database:"

  predicate StartsWith(s: JsString, prefix: JsString)
  {
    |prefix| <= |s| && s[..|prefix|] == prefix
  }

  /**
   * `reject(content)` of `src/server.ts`: `None` when the type is no string
   * (calling `startsWith` on it throws); otherwise whether a message whose
   * type starts with "database:" lacks the secret.
   */
  function LegacyReject(d: DatabaseSockets.DatabaseSocket, t: JsValue, authorization: JsValue): (r: Option<bool>)
    ensures r.None? <==> !t.Str?
    ensures r == Some(true) <==> t.Str? && StartsWith(t.s, DATABASE_PREFIX) && authorization != Str(d.authorization)
  {
    if !t.Str? then None
    else if StartsWith(t.s, DATABASE_PREFIX) then Some(!StrictEquals(authorization, Str(d.authorization)))
    else Some(false)
  }

  /** Whatever the current filter rejects, the legacy one rejects too. */
  lemma LegacyRejectsMore(d: DatabaseSockets.DatabaseSocket, t: JsValue, authorization: JsValue)
    ensures DatabaseSockets.Reject(d, t, authorization) ==> LegacyReject(d, t, authorization) == Some(true)
  {
    if DatabaseSockets.Reject(d, t, authorization) {
      assert t.s[..9] == DATABASE_PREFIX;
    }
  }

  /**
   * The legacy filter is wider: any type with the prefix needs the secret,
   * so "database:x" with a wrong secret is dropped there and passed by the
   * current filter.
   */
  lemma PrefixIsEnough(d: DatabaseSockets.DatabaseSocket, authorization: JsValue)
    requires authorization != Str(d.authorization)
    ensures LegacyReject(d, Str(DATABASE_PREFIX + [0x78]), authorization) == Some(true)
    ensures !DatabaseSockets.Reject(d, Str(DATABASE_PREFIX + [0x78]), authorization)
  {
    assert (DATABASE_PREFIX + [0x78])[..9] == DATABASE_PREFIX;
    assert |DATABASE_PREFIX + [0x78]| == 10;
  }

  /** A message whose type is no string makes the legacy filter throw. */
  lemma NonStringTypeThrows(d: DatabaseSockets.DatabaseSocket, authorization: JsValue)
    ensures LegacyReject(d, Undefined, authorization).None?
    ensures !DatabaseSockets.Reject(d, Undefined, authorization)
  {
  }
}
