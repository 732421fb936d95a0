/**
 * The input sanitisers of the server: they turn untrusted JSON fields into
 * canonical moves, challenges and client descriptions.
 */
module Util {
  import opened Wrappers
  import opened JsValues
  import opened JsBits
  import opened JsStrings

  /** Board size of the puzzle engine. */
  const WIDTH: int := 6
  const HEIGHT: int := 16

  const MAX_CONSECUTIVE_REROLLS: int := 20

  /** `clampString`'s default length. */
  const MAX_STRING_LENGTH: nat := 255

  /** What the sanitisers throw. */
  datatype SanitizeError =
    | UnableToSanitizeCoordinates   // no orientation and no adjacent second cell
    | NotIterable                   // `[...v]` on a value that is not a string

  datatype GameType = Pausing | Realtime

  /** `parseFloat(v)`, kept opaque: remaining milliseconds are carried, never inspected. */
  datatype Millis = ParsedFloat(raw: JsValue)

  /** The fields of an incoming move message. */
  datatype MoveContent = MoveContent(
    x1: JsValue, y1: JsValue, x2: JsValue, y2: JsValue,
    orientation: JsValue, hardDrop: JsValue, pass: JsValue,
    msRemaining: JsValue, time: JsValue)

  /** A sanitised pausing move: a pass, or a placement. */
  datatype PausingMove =
    | Pass(passMs: Millis)
    | Place(x1: int, y1: int, orientation: int, hardDrop: bool, ms: Millis)

  /** A sanitised realtime move; `time` is the frame the client claims. */
  datatype RealtimeMove = RealtimeMove(time: JsValue, x1: int, y1: int, orientation: int, hardDrop: bool)

  // ---------------------------------------------------------------------
  // Coordinates

  /** A non-number is first read with `parseInt(x, 10)`; a NaN becomes `dflt`; then the value is clamped to [lo, hi]. */
  function Coordinate(x: JsValue, dflt: int, lo: int, hi: int): int
    requires lo <= dflt <= hi
  {
    var n := ParseInt(x);
    ClampNumber(lo, hi, if n.NaN? then Finite(dflt) else n).value
  }

  function SanitizeX(x: JsValue): (r: int)
    ensures 0 <= r <= WIDTH - 1
    ensures ParseInt(x).NaN? ==> r == 0
    ensures ParseInt(x).Finite? && 0 <= ParseInt(x).value <= WIDTH - 1 ==> r == ParseInt(x).value
    ensures ParseInt(x).Finite? && ParseInt(x).value < 0 ==> r == 0
    ensures ParseInt(x).Finite? && ParseInt(x).value > WIDTH - 1 ==> r == WIDTH - 1
  {
    Coordinate(x, 0, 0, WIDTH - 1)
  }

  function SanitizeY(y: JsValue): (r: int)
    ensures 1 <= r <= HEIGHT - 1
    ensures ParseInt(y).NaN? ==> r == 1
    ensures ParseInt(y).Finite? && 1 <= ParseInt(y).value <= HEIGHT - 1 ==> r == ParseInt(y).value
    ensures ParseInt(y).Finite? && ParseInt(y).value < 1 ==> r == 1
    ensures ParseInt(y).Finite? && ParseInt(y).value > HEIGHT - 1 ==> r == HEIGHT - 1
  {
    Coordinate(y, 1, 1, HEIGHT - 1)
  }

  /** `parseInt(v, 10) & 3` */
  function MaskOrientation(v: JsValue): (r: int)
    ensures 0 <= r < 4
    ensures ParseInt(v).NaN? ==> r == 0
    ensures ParseInt(v).Finite? ==> r == ParseInt(v).value % 4
  {
    AndThree(ParseInt(v));
    JsAnd(ParseInt(v), Finite(3))
  }

  /**
   * The orientation a second cell implies, from the raw (unclamped) fields,
   * first match wins: above, below, left, right.
   */
  function DeriveOrientation(c: MoveContent): Option<int>
  {
    if StrictEquals(c.y2, Minus(c.y1, 1)) then Some(0)
    else if StrictEquals(c.y2, PlusOne(c.y1)) then Some(2)
    else if StrictEquals(c.x2, Minus(c.x1, 1)) then Some(1)
    else if StrictEquals(c.x2, PlusOne(c.x1)) then Some(3)
    else None
  }

  /** The orientation of a placement: the masked field when present, the derived one when absent. */
  function Orientation(c: MoveContent): (r: Result<int, SanitizeError>)
    ensures r.Ok? ==> 0 <= r.value < 4
    ensures r.Err? <==> c.orientation.Undefined? && DeriveOrientation(c).None?
    ensures r.Err? ==> r.error == UnableToSanitizeCoordinates
    ensures !c.orientation.Undefined? ==> r == Ok(MaskOrientation(c.orientation))
  {
    if !c.orientation.Undefined? then Ok(MaskOrientation(c.orientation))
    else match DeriveOrientation(c)
      case Some(o) => Ok(o)
      case None => Err(UnableToSanitizeCoordinates)
  }

  function SanitizePausingMove(c: MoveContent): (r: Result<PausingMove, SanitizeError>)
    ensures Truthy(c.pass) ==> r == Ok(Pass(ParsedFloat(c.msRemaining)))
    ensures !Truthy(c.pass) && r.Ok? ==>
      (r.value.Place? && r.value.x1 == SanitizeX(c.x1) && r.value.y1 == SanitizeY(c.y1)
       && 0 <= r.value.orientation < 4 && Orientation(c) == Ok(r.value.orientation)
       && r.value.hardDrop == Truthy(c.hardDrop) && r.value.ms == ParsedFloat(c.msRemaining))
    ensures r.Err? <==> !Truthy(c.pass) && Orientation(c).Err?
  {
    if Truthy(c.pass) then Ok(Pass(ParsedFloat(c.msRemaining)))
    else
      match Orientation(c)
      case Err(e) => Err(e)
      case Ok(o) => Ok(Place(SanitizeX(c.x1), SanitizeY(c.y1), o, Truthy(c.hardDrop), ParsedFloat(c.msRemaining)))
  }

  /** `content.time || time`: a falsy client time (absent, 0, "") is replaced by the server's age. */
  function SanitizeRealtimeMove(age: int, c: MoveContent): (r: Result<RealtimeMove, SanitizeError>)
    ensures r.Ok? ==> r.value.time == (if Truthy(c.time) then c.time else Number(Finite(age)))
    ensures r.Ok? ==> Truthy(r.value.time) || age == 0
    ensures r.Ok? ==>
      (r.value.x1 == SanitizeX(c.x1) && r.value.y1 == SanitizeY(c.y1)
       && 0 <= r.value.orientation < 4 && Orientation(c) == Ok(r.value.orientation)
       && r.value.hardDrop == Truthy(c.hardDrop))
    ensures r.Err? <==> Orientation(c).Err?
  {
    var time := if Truthy(c.time) then c.time else Number(Finite(age));
    match Orientation(c)
    case Err(e) => Err(e)
    case Ok(o) => Ok(RealtimeMove(time, SanitizeX(c.x1), SanitizeY(c.y1), o, Truthy(c.hardDrop)))
  }

  // ---------------------------------------------------------------------
  // Strings, client descriptions and challenges

  /** `clampString(v, n)` on a JSON value: only strings can be spread into code points. */
  function ClampValue(v: JsValue, n: nat): (r: Result<JsString, SanitizeError>)
    ensures r.Ok? <==> v.Str?
    ensures r.Err? ==> r.error == NotIterable
    ensures r.Ok? ==> r.value == ClampString(v.s, n)
  {
    if v.Str? then Ok(ClampString(v.s, n)) else Err(NotIterable)
  }

  /** An optional field: absent stays absent, present is clamped. */
  function ClampOptional(v: JsValue, n: nat): (r: Result<Option<JsString>, SanitizeError>)
    ensures v.Undefined? ==> r == Ok(None)
    ensures !v.Undefined? ==> (r.Ok? <==> v.Str?)
    ensures r.Ok? && !v.Undefined? ==> r.value == Some(ClampString(v.s, n))
  {
    if v.Undefined? then Ok(None)
    else match ClampValue(v, n)
      case Ok(s) => Ok(Some(s))
      case Err(e) => Err(e)
  }

  datatype CoreContent = CoreContent(version: JsValue, resolved: JsValue)
  datatype ClientInfoContent = ClientInfoContent(name: JsValue, version: JsValue, resolved: JsValue, core: Option<CoreContent>)

  datatype CoreInfo = CoreInfo(version: JsString, resolved: Option<JsString>)
  datatype ClientInfo = ClientInfo(name: JsString, version: JsString, resolved: Option<JsString>, core: Option<CoreInfo>)

  function SanitizeCore(c: CoreContent, n: nat): (r: Result<CoreInfo, SanitizeError>)
    ensures r.Ok? <==> c.version.Str? && (c.resolved.Undefined? || c.resolved.Str?)
    ensures r.Ok? ==>
      (r.value.version == ClampString(c.version.s, n)
       && (r.value.resolved.None? <==> c.resolved.Undefined?)
       && (r.value.resolved.Some? ==> r.value.resolved.value == ClampString(c.resolved.s, n)))
  {
    match ClampValue(c.version, n)
    case Err(e) => Err(e)
    case Ok(v) =>
      match ClampOptional(c.resolved, n)
      case Err(e) => Err(e)
      case Ok(res) => Ok(CoreInfo(v, res))
  }

  /** `sanitizeClientInfo(content)`, whose `clampString` calls use the default length n. */
  function SanitizeClientInfo(c: ClientInfoContent, n: nat): (r: Result<ClientInfo, SanitizeError>)
    ensures r.Ok? <==>
      (c.name.Str? && c.version.Str? && (c.resolved.Undefined? || c.resolved.Str?)
       && (c.core.Some? ==> SanitizeCore(c.core.value, n).Ok?))
    ensures r.Ok? ==>
      (r.value.name == ClampString(c.name.s, n)
       && r.value.version == ClampString(c.version.s, n)
       && (r.value.resolved.None? <==> c.resolved.Undefined?)
       && (r.value.resolved.Some? ==> r.value.resolved.value == ClampString(c.resolved.s, n))
       && (r.value.core.None? <==> c.core.None?)
       && (r.value.core.Some? ==> SanitizeCore(c.core.value, n) == Ok(r.value.core.value)))
  {
    match ClampValue(c.name, n)
    case Err(e) => Err(e)
    case Ok(name) =>
      match ClampValue(c.version, n)
      case Err(e) => Err(e)
      case Ok(version) =>
        match ClampOptional(c.resolved, n)
        case Err(e) => Err(e)
        case Ok(resolved) =>
          if c.core.None? then Ok(ClientInfo(name, version, resolved, None))
          else match SanitizeCore(c.core.value, n)
            case Err(e) => Err(e)
            case Ok(core) => Ok(ClientInfo(name, version, resolved, Some(core)))
  }

  datatype GameRequestContent = GameRequestContent(
    gameType: JsValue, autoMatch: JsValue, ranked: JsValue, botsAllowed: JsValue,
    name: JsValue, password: JsValue)

  datatype Challenge = Challenge(
    uuid: JsString, gameType: GameType, autoMatch: bool, ranked: bool, botsAllowed: bool,
    name: Option<JsString>, password: Option<JsString>)

  /** The literal "pausing". */
  const PAUSING: JsString := Lit("pausing")

  /** `sanitizeChallenge`, with the random uuid as a parameter. */
  function SanitizeChallenge(c: GameRequestContent, uuid: JsString): (r: Result<Challenge, SanitizeError>)
    ensures r.Ok? <==> (c.name.Undefined? || c.name.Str?) && (c.password.Undefined? || c.password.Str?)
    ensures r.Ok? ==> r.value.uuid == uuid
    ensures r.Ok? ==> (r.value.gameType == Pausing <==> c.gameType == Str(PAUSING))
    ensures r.Ok? ==>
      (r.value.autoMatch == Truthy(c.autoMatch) && r.value.ranked == Truthy(c.ranked)
       && r.value.botsAllowed == Truthy(c.botsAllowed))
    ensures r.Ok? ==> (r.value.name.None? <==> c.name.Undefined?) && (r.value.password.None? <==> c.password.Undefined?)
    ensures r.Ok? && r.value.name.Some? ==> r.value.name.value == ClampString(c.name.s, MAX_STRING_LENGTH)
    ensures r.Ok? && r.value.password.Some? ==> r.value.password.value == ClampString(c.password.s, MAX_STRING_LENGTH)
  {
    var gameType := if c.gameType == Str(PAUSING) then Pausing else Realtime;
    match ClampOptional(c.name, MAX_STRING_LENGTH)
    case Err(e) => Err(e)
    case Ok(name) =>
      match ClampOptional(c.password, MAX_STRING_LENGTH)
      case Err(e) => Err(e)
      case Ok(password) =>
        Ok(Challenge(uuid, gameType, Truthy(c.autoMatch), Truthy(c.ranked), Truthy(c.botsAllowed), name, password))
  }

  // ---------------------------------------------------------------------
  // Properties

  /** A pass is decided by `pass` and `msRemaining` alone: coordinates and orientation are never read. */
  lemma PassIgnoresPlacement(c: MoveContent, d: MoveContent)
    requires Truthy(c.pass) && Truthy(d.pass) && c.msRemaining == d.msRemaining
    ensures SanitizePausingMove(c) == SanitizePausingMove(d)
    ensures SanitizePausingMove(c).Ok? && SanitizePausingMove(c).value.Pass?
  {
  }

  /** On numeric fields the derivation is the first adjacent direction, and it fails exactly when neither coordinate is one step away. */
  lemma DeriveOnNumbers(x1: int, y1: int, x2: int, y2: int, c: MoveContent)
    requires c.x1 == Number(Finite(x1)) && c.y1 == Number(Finite(y1))
    requires c.x2 == Number(Finite(x2)) && c.y2 == Number(Finite(y2))
    ensures DeriveOrientation(c) == Some(0) <==> y2 == y1 - 1
    ensures DeriveOrientation(c) == Some(2) <==> y2 == y1 + 1
    ensures DeriveOrientation(c) == Some(1) <==> y2 != y1 - 1 && y2 != y1 + 1 && x2 == x1 - 1
    ensures DeriveOrientation(c) == Some(3) <==> y2 != y1 - 1 && y2 != y1 + 1 && x2 != x1 - 1 && x2 == x1 + 1
    ensures DeriveOrientation(c).None? <==> y2 != y1 - 1 && y2 != y1 + 1 && x2 != x1 - 1 && x2 != x1 + 1
  {
  }

  /** A string y1 makes `y1 + 1` a concatenation, so "5" with y2 = 6 is not "below". */
  lemma StringCoordinateConcatenates(c: MoveContent)
    requires c.y1 == Str(Lit("5")) && c.y2 == Number(Finite(6))
    requires c.x1 == Number(Finite(2)) && c.x2 == Number(Finite(2))
    ensures DeriveOrientation(c).None?
  {
    assert StringToNumber(Lit("5")) == Finite(5);
    assert !StrictEquals(c.y2, Minus(c.y1, 1));
    assert PlusOne(c.y1).Str?;
    assert !StrictEquals(c.x2, Minus(c.x1, 1));
    assert !StrictEquals(c.x2, PlusOne(c.x1));
  }

  /** A numeral string in another base is subtracted by value: y1 = "0x1F" with y2 = 30 is "above". */
  lemma HexCoordinateSubtracts(c: MoveContent)
    requires c.y1 == Str(Lit("0x1F")) && c.y2 == Number(Finite(30))
    requires c.orientation == Undefined
    ensures Orientation(c) == Ok(0)
  {
    HexNumeral();
  }

  /** The source's unit test: x1 = -69 is clamped to 0, y1 = 420 to HEIGHT - 1, and the orientation 0 is kept. */
  lemma ClampTest()
    ensures SanitizeX(Number(Finite(-69))) == 0
    ensures SanitizeY(Number(Finite(420))) == HEIGHT - 1
    ensures MaskOrientation(Number(Finite(0))) == 0
  {
  }

  /** The source's unit test: (2,2) to (3,2) with no orientation is orientation 3. */
  lemma OrientationTest(c: MoveContent)
    requires c.x1 == Number(Finite(2)) && c.y1 == Number(Finite(2))
    requires c.x2 == Number(Finite(3)) && c.y2 == Number(Finite(2))
    requires c.orientation == Undefined && c.pass == Bool(false)
    ensures SanitizePausingMove(c).Ok? && SanitizePausingMove(c).value.orientation == 3
  {
    DeriveOnNumbers(2, 2, 3, 2, c);
  }

  /** A diagonal step is accepted by the first rule that matches. */
  lemma DiagonalAccepted(c: MoveContent)
    requires c.x1 == Number(Finite(2)) && c.y1 == Number(Finite(2))
    requires c.x2 == Number(Finite(3)) && c.y2 == Number(Finite(3))
    requires c.orientation == Undefined && c.pass == Bool(false)
    ensures SanitizePausingMove(c).Ok? && SanitizePausingMove(c).value.orientation == 2
  {
    DeriveOnNumbers(2, 2, 3, 3, c);
  }

  /** The source's unit test: the first 11 code points of an ASCII text that starts with "Lorem ipsum". */
  lemma LoremTest(text: JsString)
    requires |text| >= 11 && text[..11] == Lit("Lorem ipsum")
    requires forall i :: 0 <= i < |text| ==> text[i] < 0x80
    ensures ClampString(text, 11) == Lit("Lorem ipsum")
  {
    ClampWithoutSurrogates(text, 11);
  }

  /** "∀𝑥∈ℝ,𝑥²≥0": eleven code units, nine code points. */
  const FORMULA: JsString := [0x2200, 0xD835, 0xDC65, 0x2208, 0x211D, 0x2C, 0xD835, 0xDC65, 0xB2, 0x2265, 0x30]

  /** The formula has nine code points. */
  lemma FormulaCodePoints()
    ensures |CodePoints(FORMULA)| == 9
  {
    NinePoints(FORMULA);
  }

  /** Eleven code units holding two surrogate pairs, at units 1 and 6, and no other high surrogate are nine code points. */
  lemma NinePoints(f: JsString)
    requires |f| == 11 && IsHigh(f[1]) && IsLow(f[2]) && IsHigh(f[6]) && IsLow(f[7])
    requires !IsHigh(f[0]) && !IsHigh(f[3]) && !IsHigh(f[4]) && !IsHigh(f[5])
    requires !IsHigh(f[8]) && !IsHigh(f[9]) && !IsHigh(f[10])
    ensures |CodePoints(f)| == 9
  {
    assert f[11..] == [];
    SingleAt(f, 10);
    SingleAt(f, 9);
    SingleAt(f, 8);
    PairAt(f, 6);
    SingleAt(f, 5);
    SingleAt(f, 4);
    SingleAt(f, 3);
    PairAt(f, 1);
    SingleAt(f, 0);
    assert f[0..] == f;
  }

  /** The source's unit test: the formula is longer than 9 units but is not cut at 9 code points. */
  lemma FormulaTest()
    ensures |FORMULA| > 9
    ensures ClampString(FORMULA, 9) == FORMULA
  {
    FormulaCodePoints();
    ClampShort(FORMULA, 9);
  }
}
