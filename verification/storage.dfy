/**
 * How replays are stored: every played move is packed into one 32-bit
 * integer (orientation in the low 2 bits, then y1 in 4 bits, x1 in 3,
 * the player in 3 and the time in the rest), and a replay row names the
 * winner and both players by their user ids.
 */
module Storage {
  import opened Wrappers
  import opened JsValues
  import opened JsBits
  import Util

  const ORIENTATION_BITS: nat := 2
  const Y1_BITS: nat := 4
  const X1_BITS: nat := 3
  const PLAYER_BITS: nat := 3
  /** What is left of 31 bits for the time. */
  const TIME_BITS: nat := 31 - ORIENTATION_BITS - Y1_BITS - X1_BITS - PLAYER_BITS

  /** The fields of a played move that are stored. */
  datatype MoveRecord = MoveRecord(time: int, player: int, x1: int, y1: int, orientation: int)

  /** A decoded move; the second cell is only set when the orientation is one of 0..3. */
  datatype DecodedMove = DecodedMove(
    orientation: int, y1: int, x1: int, player: int, time: int,
    x2: Option<int>, y2: Option<int>)

  /** `(v << k) | f` */
  function ShiftOr(v: int, k: nat, f: int): int
    requires k < 32
  {
    JsOr(Finite(JsShl(Finite(v), k)), Finite(f))
  }

  function EncodeMove(m: MoveRecord): int
  {
    var r := m.time;
    var r := ShiftOr(r, PLAYER_BITS, m.player);
    var r := ShiftOr(r, X1_BITS, m.x1);
    var r := ShiftOr(r, Y1_BITS, m.y1);
    ShiftOr(r, ORIENTATION_BITS, m.orientation)
  }

  /** The second cell of a piece from its first cell and orientation. */
  function SecondCell(orientation: int, x1: int, y1: int): (r: (Option<int>, Option<int>))
  {
    if orientation == 0 then (Some(x1), Some(y1 - 1))
    else if orientation == 1 then (Some(x1 - 1), Some(y1))
    else if orientation == 2 then (Some(x1), Some(y1 + 1))
    else if orientation == 3 then (Some(x1 + 1), Some(y1))
    else (None, None)
  }

  function DecodeMove(byteBall: int): DecodedMove
  {
    var orientation := JsAnd(Finite(byteBall), Finite(Mask(ORIENTATION_BITS)));
    var b := JsUshr(Finite(byteBall), ORIENTATION_BITS);
    var y1 := JsAnd(Finite(b), Finite(Mask(Y1_BITS)));
    var b := JsUshr(Finite(b), Y1_BITS);
    var x1 := JsAnd(Finite(b), Finite(Mask(X1_BITS)));
    var b := JsUshr(Finite(b), X1_BITS);
    var player := JsAnd(Finite(b), Finite(Mask(PLAYER_BITS)));
    var time := JsUshr(Finite(b), PLAYER_BITS);
    var (x2, y2) := SecondCell(orientation, x1, y1);
    DecodedMove(orientation, y1, x1, player, time, x2, y2)
  }

  /** A move whose fields fit their widths, with a time below `timeBound`. */
  predicate Fits(m: MoveRecord, timeBound: int)
  {
    0 <= m.orientation < 4 && 0 <= m.y1 < 16 && 0 <= m.x1 < 8 && 0 <= m.player < 8
    && 0 <= m.time < timeBound
  }

  // ---------------------------------------------------------------------
  // The bit layout

  /** The word of an in-range move: each field in its width, lowest field first. */
  function Layout(m: MoveRecord): (w: Bits)
    requires Fits(m, TWO_20)
    ensures |w| == 32
  {
    BitsOf(m.orientation, 2) + (BitsOf(m.y1, 4) + (BitsOf(m.x1, 3) + (BitsOf(m.player, 3) + BitsOf(m.time, 20))))
  }

  /** One step of the encoder: the new field enters at the bottom and the zeros at the top shrink. */
  lemma ShiftStep(v: int, f: nat, k: nat, a: Bits, z: nat)
    requires 0 < k < 32 && k <= z && f < Pow2(k)
    requires |a| + z == 32 && Word(Finite(v)) == a + Zeros(z)
    ensures Word(Finite(ShiftOr(v, k, f))) == BitsOf(f, k) + a + Zeros(z - k)
  {
    ShiftIn(Finite(v), f, k);
    assert (a + Zeros(z))[..32 - k] == a + Zeros(z - k);
  }

  /** The fields of an encoded in-range move sit side by side in its word. */
  lemma EncodeLayout(m: MoveRecord)
    requires Fits(m, TWO_20)
    ensures Word(Finite(EncodeMove(m))) == Layout(m)
  {
    assert Pow2(2) == 4 && Pow2(3) == 8 && Pow2(4) == 16;
    Pow2Of20();
    var oBits, yBits, xBits, pBits, tBits := BitsOf(m.orientation, 2), BitsOf(m.y1, 4), BitsOf(m.x1, 3), BitsOf(m.player, 3), BitsOf(m.time, 20);
    WordOfSmall(m.time, 20);
    var r1 := ShiftOr(m.time, 3, m.player);
    ShiftStep(m.time, m.player, 3, tBits, 12);
    var r2 := ShiftOr(r1, 3, m.x1);
    ShiftStep(r1, m.x1, 3, pBits + tBits, 9);
    var r3 := ShiftOr(r2, 4, m.y1);
    ShiftStep(r2, m.y1, 4, xBits + (pBits + tBits), 6);
    ShiftStep(r3, m.orientation, 2, yBits + (xBits + (pBits + tBits)), 2);
    assert Zeros(0) == [];
  }

  /** Each field of the layout is the slice a decoder reads. */
  lemma LayoutSlices(m: MoveRecord)
    requires Fits(m, TWO_20)
    ensures var w := Layout(m);
      ValueOf(w[..2]) == m.orientation && ValueOf(w[2..6]) == m.y1 && ValueOf(w[6..9]) == m.x1
      && ValueOf(w[9..12]) == m.player && ValueOf(w[12..]) == m.time
  {
    var oBits, yBits, xBits, pBits, tBits := BitsOf(m.orientation, 2), BitsOf(m.y1, 4), BitsOf(m.x1, 3), BitsOf(m.player, 3), BitsOf(m.time, 20);
    var w := Layout(m);
    assert w[..2] == oBits && w[2..6] == yBits && w[6..9] == xBits && w[9..12] == pBits && w[12..] == tBits;
    assert Pow2(2) == 4 && Pow2(3) == 8 && Pow2(4) == 16;
    Pow2Of20();
    ValueOfBitsOf(m.orientation, 2);
    ValueOfBitsOf(m.y1, 4);
    ValueOfBitsOf(m.x1, 3);
    ValueOfBitsOf(m.player, 3);
    ValueOfBitsOf(m.time, 20);
  }

  /** The unsigned number of the layout, field by field. */
  lemma LayoutValue(m: MoveRecord)
    requires Fits(m, TWO_20)
    ensures ValueOf(Layout(m)) == m.orientation + 4 * m.y1 + 64 * m.x1 + 512 * m.player + 4096 * m.time
  {
    var oBits, yBits, xBits, pBits, tBits := BitsOf(m.orientation, 2), BitsOf(m.y1, 4), BitsOf(m.x1, 3), BitsOf(m.player, 3), BitsOf(m.time, 20);
    assert Pow2(2) == 4 && Pow2(3) == 8 && Pow2(4) == 16;
    Pow2Of20();
    ValueOfBitsOf(m.orientation, 2);
    ValueOfBitsOf(m.y1, 4);
    ValueOfBitsOf(m.x1, 3);
    ValueOfBitsOf(m.player, 3);
    ValueOfBitsOf(m.time, 20);
    ValueOfAppend(pBits, tBits);
    ValueOfAppend(xBits, pBits + tBits);
    ValueOfAppend(yBits, xBits + (pBits + tBits));
    ValueOfAppend(oBits, yBits + (xBits + (pBits + tBits)));
  }

  /** One step of the decoder: the field at `off` is read, and the word moves down by k. */
  lemma ReadStep(v: int, k: nat, w: Bits, off: nat)
    requires 0 < k < 31 && |w| == 32 && off + k <= 32
    requires Word(Finite(v)) == w[off..] + Zeros(off)
    ensures JsAnd(Finite(v), Finite(Mask(k))) == ValueOf(w[off..off + k])
    ensures JsUshr(Finite(v), k) == ValueOf(w[off + k..])
    ensures Word(Finite(JsUshr(Finite(v), k))) == w[off + k..] + Zeros(off + k)
  {
    AndMask(Finite(v), k);
    assert (w[off..] + Zeros(off))[..k] == w[off..off + k];
    assert (w[off..] + Zeros(off))[k..] == w[off + k..] + Zeros(off);
    ValueOfPadded(w[off + k..], off);
    WordOfUshr(Finite(v), k);
    assert (w[off..] + Zeros(off))[k..] + Zeros(k) == w[off + k..] + Zeros(off + k);
  }

  /** The fields a decoded value reads, as slices of its word. */
  lemma DecodeFields(byteBall: int)
    ensures var w, d := Word(Finite(byteBall)), DecodeMove(byteBall);
      d.orientation == ValueOf(w[..2]) && d.y1 == ValueOf(w[2..6]) && d.x1 == ValueOf(w[6..9])
      && d.player == ValueOf(w[9..12]) && d.time == ValueOf(w[12..])
  {
    var w := Word(Finite(byteBall));
    assert w == w[0..] + Zeros(0);
    ReadStep(byteBall, 2, w, 0);
    var b1 := JsUshr(Finite(byteBall), 2);
    ReadStep(b1, 4, w, 2);
    var b2 := JsUshr(Finite(b1), 4);
    ReadStep(b2, 3, w, 6);
    var b3 := JsUshr(Finite(b2), 3);
    ReadStep(b3, 3, w, 9);
  }

  // ---------------------------------------------------------------------
  // What the codec promises

  /** Whatever integer is decoded, every field is within its width and the second cell follows the orientation. */
  lemma DecodeBounds(byteBall: int)
    ensures var d := DecodeMove(byteBall);
      0 <= d.orientation <= 3 && 0 <= d.y1 <= 15 && 0 <= d.x1 <= 7 && 0 <= d.player <= 7
      && 0 <= d.time < TWO_20
      && d.x2.Some? && d.y2.Some?
      && (d.orientation == 0 ==> d.x2.value == d.x1 && d.y2.value == d.y1 - 1)
      && (d.orientation == 1 ==> d.x2.value == d.x1 - 1 && d.y2.value == d.y1)
      && (d.orientation == 2 ==> d.x2.value == d.x1 && d.y2.value == d.y1 + 1)
      && (d.orientation == 3 ==> d.x2.value == d.x1 + 1 && d.y2.value == d.y1)
  {
    DecodeFields(byteBall);
    var w := Word(Finite(byteBall));
    ValueBelow(w[..2]);
    ValueBelow(w[2..6]);
    ValueBelow(w[6..9]);
    ValueBelow(w[9..12]);
    ValueBelow(w[12..]);
    Pow2Of20();
    assert Pow2(2) == 4 && Pow2(3) == 8 && Pow2(4) == 16;
  }

  /** Decoding an encoded in-range move gives back each of its fields. */
  lemma RoundTrip(m: MoveRecord)
    requires Fits(m, TWO_20)
    ensures var d := DecodeMove(EncodeMove(m));
      d.orientation == m.orientation && d.y1 == m.y1 && d.x1 == m.x1
      && d.player == m.player && d.time == m.time
  {
    EncodeLayout(m);
    DecodeFields(EncodeMove(m));
    LayoutSlices(m);
  }

  /** Two different in-range moves never share an encoding. */
  lemma EncodeInjective(m: MoveRecord, n: MoveRecord)
    requires Fits(m, TWO_20) && Fits(n, TWO_20)
    requires EncodeMove(m) == EncodeMove(n)
    ensures m == n
  {
    RoundTrip(m);
    RoundTrip(n);
  }

  /** With the time in its 19 bits, an encoding is the non-negative number t·2^12 + p·2^9 + x·2^6 + y·2^2 + o, below 2^31. */
  lemma EncodeValue(m: MoveRecord)
    requires Fits(m, TWO_19)
    ensures EncodeMove(m) == m.orientation + 4 * m.y1 + 64 * m.x1 + 512 * m.player + 4096 * m.time
    ensures 0 <= EncodeMove(m) < TWO_31
  {
    Pow2Of20();
    EncodeLayout(m);
    LayoutValue(m);
    var w := Layout(m);
    // the time fits 19 bits, so the top bit of the word is clear
    BitsOfTop(m.time, 19);
    assert w[31] == BitsOf(m.time, 20)[19];
    var e := EncodeMove(m);
    var r := Or(Word(Finite(JsShl(Finite(ShiftOr(ShiftOr(ShiftOr(m.time, 3, m.player), 3, m.x1), 4, m.y1)), 2))), Word(Finite(m.orientation)));
    assert e == Signed(r);
    WordOfSigned(r);
    assert e == Signed(w);
    Pow2Of32();
  }

  /** The second cell of a decoded move, fed back to the sanitiser, derives the decoded orientation. */
  lemma DecodedCellsDeriveOrientation(byteBall: int, c: Util.MoveContent)
    requires var d := DecodeMove(byteBall);
      d.x2.Some? && d.y2.Some?
      && c.x1 == Number(Finite(d.x1)) && c.y1 == Number(Finite(d.y1))
      && c.x2 == Number(Finite(d.x2.value)) && c.y2 == Number(Finite(d.y2.value))
    ensures Util.DeriveOrientation(c) == Some(DecodeMove(byteBall).orientation)
  {
    var d := DecodeMove(byteBall);
    DecodeBounds(byteBall);
    Util.DeriveOnNumbers(d.x1, d.y1, d.x2.value, d.y2.value, c);
  }

  // ---------------------------------------------------------------------
  // Replay rows

  datatype ReplayResult = ReplayResult(winner: Option<int>, reason: JsString)

  /** The columns `saveReplay` derives from a replay; the metadata columns are copied unchanged and not modelled. */
  datatype ReplayRow = ReplayRow(winner: JsValue, reason: JsString, leftPlayer: JsValue, rightPlayer: JsValue, moves: seq<int>)

  /** `userIds[i]`: undefined outside the array. */
  function UserAt(userIds: seq<JsValue>, i: int): JsValue
  {
    if 0 <= i < |userIds| then userIds[i] else Undefined
  }

  /** `moves.map(encodeMove)` */
  function EncodeMoves(moves: seq<MoveRecord>): (r: seq<int>)
    ensures |r| == |moves|
    ensures forall i :: 0 <= i < |moves| ==> r[i] == EncodeMove(moves[i])
  {
    seq(|moves|, i requires 0 <= i < |moves| => EncodeMove(moves[i]))
  }

  function ReplayRowOf(result: ReplayResult, moves: seq<MoveRecord>, userIds: seq<JsValue>): (row: ReplayRow)
    ensures result.winner.None? ==> row.winner == Null
    ensures result.winner.Some? ==> row.winner == UserAt(userIds, result.winner.value)
    ensures row.leftPlayer == UserAt(userIds, 0) && row.rightPlayer == UserAt(userIds, 1)
    ensures row.reason == result.reason
  {
    var winner := if result.winner.None? then Null else UserAt(userIds, result.winner.value);
    ReplayRow(winner, result.reason, UserAt(userIds, 0), UserAt(userIds, 1), EncodeMoves(moves))
  }

  /** A stored replay's moves decode back to the played moves. */
  lemma ReplayMovesRoundTrip(result: ReplayResult, moves: seq<MoveRecord>, userIds: seq<JsValue>)
    requires forall i :: 0 <= i < |moves| ==> Fits(moves[i], TWO_20)
    ensures var row := ReplayRowOf(result, moves, userIds);
      |row.moves| == |moves|
      && forall i :: 0 <= i < |moves| ==>
        var d := DecodeMove(row.moves[i]);
        MoveRecord(d.time, d.player, d.x1, d.y1, d.orientation) == moves[i]
  {
    forall i | 0 <= i < |moves|
      ensures var d := DecodeMove(EncodeMove(moves[i]));
        MoveRecord(d.time, d.player, d.x1, d.y1, d.orientation) == moves[i]
    {
      RoundTrip(moves[i]);
    }
  }

  /** A draw stores a null winner; a decided game stores the winner's user id, with both players stored left and right. */
  lemma ReplayWinner(result: ReplayResult, moves: seq<MoveRecord>, userIds: seq<JsValue>)
    requires |userIds| == 2
    ensures var row := ReplayRowOf(result, moves, userIds);
      (result.winner == Some(0) ==> row.winner == row.leftPlayer)
      && (result.winner == Some(1) ==> row.winner == row.rightPlayer)
      && (result.winner.None? ==> row.winner == Null)
  {
  }
}
