/**
 * JavaScript's 32-bit integer operators on numbers: `&`, `|`, `<<` and `>>>`.
 * An operand is reduced modulo 2^32 (ToUint32) and read as a 32-bit word,
 * least significant bit first; `&` and `|` combine the words bit by bit, `<<`
 * pushes zeros in at the bottom and drops bits off the top, `>>>` drops bits
 * off the bottom. `&`, `|` and `<<` read the resulting word as a signed
 * (two's complement) number, `>>>` as an unsigned one.
 */
module JsBits {
  import opened JsValues

  const TWO_31: int := 0x8000_0000
  const TWO_32: int := 0x1_0000_0000

  function Pow2(k: nat): (r: nat)
    ensures r >= 1
  {
    if k == 0 then 1 else 2 * Pow2(k - 1)
  }

  lemma Pow2Of32()
    ensures Pow2(31) == TWO_31 && Pow2(32) == TWO_32
  {
    assert Pow2(10) == 1024;
    assert Pow2(20) == 1024 * 1024;
    assert Pow2(30) == 1024 * 1024 * 1024;
  }

  const TWO_19: int := 0x8_0000
  const TWO_20: int := 0x10_0000

  lemma Pow2Of20()
    ensures Pow2(19) == TWO_19 && Pow2(20) == TWO_20
  {
    assert Pow2(10) == 1024;
  }

  lemma {:induction false} Pow2Monotone(k: nat, n: nat)
    requires k <= n
    ensures Pow2(k) <= Pow2(n)
    decreases n
  {
    if k < n {
      Pow2Monotone(k, n - 1);
    }
  }

  /** A word, least significant bit first. */
  type Bits = seq<bool>

  function Zeros(n: nat): (b: Bits)
    ensures |b| == n && forall i :: 0 <= i < n ==> !b[i]
  {
    seq(n, i => false)
  }

  /** The binary digits of `u`, least significant first, without trailing zeros. */
  function Bin(u: nat): Bits
  {
    if u == 0 then [] else [u % 2 == 1] + Bin(u / 2)
  }

  /** The low `w` bits of `u`. */
  function BitsOf(u: nat, w: nat): (b: Bits)
    ensures |b| == w
  {
    if w == 0 then [] else [u % 2 == 1] + BitsOf(u / 2, w - 1)
  }

  /** The unsigned number a word denotes. */
  function ValueOf(b: Bits): nat
  {
    if b == [] then 0 else (if b[0] then 1 else 0) + 2 * ValueOf(b[1..])
  }

  /** ToUint32: NaN becomes 0, every other number is reduced modulo 2^32. */
  function ToUint32(n: JsNumber): (u: nat)
    ensures u < TWO_32
    ensures n.Finite? && 0 <= n.value < TWO_32 ==> u == n.value
  {
    if n.NaN? then 0 else n.value % TWO_32
  }

  /** The 32-bit word of a number operand. */
  function Word(n: JsNumber): (b: Bits)
    ensures |b| == 32
  {
    var u := ToUint32(n);
    Pow2Of32();
    BinShort(u, 32);
    Bin(u) + Zeros(32 - |Bin(u)|)
  }

  /** The two's complement reading of a 32-bit word. */
  function Signed(b: Bits): int
    requires |b| == 32
  {
    ValueOf(b) - (if b[31] then TWO_32 else 0)
  }

  function And(x: Bits, y: Bits): (r: Bits)
    requires |x| == |y|
    ensures |r| == |x| && forall i :: 0 <= i < |x| ==> r[i] == (x[i] && y[i])
  {
    seq(|x|, i requires 0 <= i < |x| => x[i] && y[i])
  }

  function Or(x: Bits, y: Bits): (r: Bits)
    requires |x| == |y|
    ensures |r| == |x| && forall i :: 0 <= i < |x| ==> r[i] == (x[i] || y[i])
  {
    seq(|x|, i requires 0 <= i < |x| => x[i] || y[i])
  }

  /** `a & b` */
  function JsAnd(a: JsNumber, b: JsNumber): int
  {
    Signed(And(Word(a), Word(b)))
  }

  /** `a | b` */
  function JsOr(a: JsNumber, b: JsNumber): int
  {
    Signed(Or(Word(a), Word(b)))
  }

  /** `a << k` for a shift count below 32 */
  function JsShl(a: JsNumber, k: nat): int
    requires k < 32
  {
    Signed((Zeros(k) + Word(a))[..32])
  }

  /** `a >>> k` for a shift count below 32 */
  function JsUshr(a: JsNumber, k: nat): nat
    requires k < 32
  {
    ValueOf(Word(a)[k..])
  }

  /** `(1 << k) - 1`, the mask of the low `k` bits. */
  function Mask(k: nat): int
    requires k < 32
  {
    JsShl(Finite(1), k) - 1
  }

  // ---------------------------------------------------------------------
  // Words and the numbers they denote

  lemma {:induction false} BinShort(u: nat, k: nat)
    requires u < Pow2(k)
    ensures |Bin(u)| <= k
  {
    if u > 0 {
      BinShort(u / 2, k - 1);
    }
  }

  lemma {:induction false} ValueOfZeros(n: nat)
    ensures ValueOf(Zeros(n)) == 0
  {
    if n > 0 {
      assert Zeros(n)[1..] == Zeros(n - 1);
      ValueOfZeros(n - 1);
    }
  }

  lemma {:induction false} ValueOfPadded(b: Bits, n: nat)
    ensures ValueOf(b + Zeros(n)) == ValueOf(b)
  {
    if b == [] {
      assert b + Zeros(n) == Zeros(n);
      ValueOfZeros(n);
    } else {
      assert (b + Zeros(n))[1..] == b[1..] + Zeros(n);
      ValueOfPadded(b[1..], n);
    }
  }

  /** The digits of `b` come after the |a| digits of `a`. */
  lemma {:induction false} ValueOfAppend(a: Bits, b: Bits)
    ensures ValueOf(a + b) == ValueOf(a) + Pow2(|a|) * ValueOf(b)
  {
    if a == [] {
      assert a + b == b;
    } else {
      var t := a[1..];
      assert (a + b)[0] == a[0] && (a + b)[1..] == t + b;
      ValueOfAppend(t, b);
      assert Pow2(|a|) == 2 * Pow2(|t|);
      Doubling(ValueOf(t), Pow2(|t|), ValueOf(b));
    }
  }

  lemma Doubling(x: int, p: int, v: int)
    ensures 2 * (x + p * v) == 2 * x + (2 * p) * v
  {
  }

  /** The bit just above the low w bits of a number below 2^w is clear. */
  lemma {:induction false} BitsOfTop(u: nat, w: nat)
    requires u < Pow2(w)
    ensures BitsOf(u, w + 1)[w] == false
  {
    if w > 0 {
      BitsOfTop(u / 2, w - 1);
    }
  }

  lemma {:induction false} ValueBelow(b: Bits)
    ensures ValueOf(b) < Pow2(|b|)
  {
    if b != [] {
      ValueBelow(b[1..]);
    }
  }

  lemma {:induction false} ValueOfBin(u: nat)
    ensures ValueOf(Bin(u)) == u
  {
    if u > 0 {
      ValueOfBin(u / 2);
    }
  }

  lemma {:induction false} ValueOfBitsOf(u: nat, w: nat)
    requires u < Pow2(w)
    ensures ValueOf(BitsOf(u, w)) == u
  {
    if w > 0 {
      ValueOfBitsOf(u / 2, w - 1);
    }
  }

  /** The low w bits of a number with at most w binary digits: its digits, then zeros. */
  lemma {:induction false} BitsOfBin(u: nat, w: nat)
    requires |Bin(u)| <= w
    ensures BitsOf(u, w) == Bin(u) + Zeros(w - |Bin(u)|)
  {
    if w > 0 {
      if u == 0 {
        BitsOfBin(0, w - 1);
        assert BitsOf(0, w) == [false] + Zeros(w - 1);
      } else {
        BitsOfBin(u / 2, w - 1);
      }
    }
  }

  /** A word with all its bits clear denotes zero, and nothing else does. */
  lemma {:induction false} ValueZero(b: Bits)
    ensures ValueOf(b) == 0 <==> b == Zeros(|b|)
  {
    if b != [] {
      ValueZero(b[1..]);
      assert b == [b[0]] + b[1..];
      assert b == Zeros(|b|) <==> !b[0] && b[1..] == Zeros(|b| - 1);
    }
  }

  /** The digits of a word's value, padded to the word's width, give back the word. */
  lemma {:induction false} BinOfValue(s: Bits, w: nat)
    requires |s| <= w
    ensures |Bin(ValueOf(s))| <= |s|
    ensures Bin(ValueOf(s)) + Zeros(w - |Bin(ValueOf(s))|) == s + Zeros(w - |s|)
  {
    ValueZero(s);
    if ValueOf(s) == 0 {
      assert s + Zeros(w - |s|) == Zeros(w);
    } else {
      var r := s[1..];
      BinOfValue(r, w - 1);
      BinStep(s);
      var d := Bin(ValueOf(r));
      calc {
        Bin(ValueOf(s)) + Zeros(w - |Bin(ValueOf(s))|);
        ([s[0]] + d) + Zeros((w - 1) - |d|);
        [s[0]] + (d + Zeros((w - 1) - |d|));
        [s[0]] + (r + Zeros((w - 1) - |r|));
        ([s[0]] + r) + Zeros(w - |s|);
        { assert s == [s[0]] + r; }
        s + Zeros(w - |s|);
      }
    }
  }

  lemma BinStep(s: Bits)
    requires ValueOf(s) != 0
    ensures s != [] && Bin(ValueOf(s)) == [s[0]] + Bin(ValueOf(s[1..]))
  {
    var v := ValueOf(s);
    assert v % 2 == 1 <==> s[0];
    assert v / 2 == ValueOf(s[1..]);
  }

  lemma {:induction false} BitsOfPrefix(u: nat, k: nat, w: nat)
    requires k <= w
    ensures BitsOf(u, w)[..k] == BitsOf(u, k)
  {
    if k > 0 {
      BitsOfPrefix(u / 2, k - 1, w - 1);
    }
  }

  /** A word is the low 32 bits of the operand's unsigned value. */
  lemma WordBits(n: JsNumber)
    ensures Word(n) == BitsOf(ToUint32(n), 32)
  {
    Pow2Of32();
    BinShort(ToUint32(n), 32);
    BitsOfBin(ToUint32(n), 32);
  }

  /** A signed result read back as an operand gives the same word. */
  lemma WordOfSigned(b: Bits)
    requires |b| == 32
    ensures Word(Finite(Signed(b))) == b
  {
    ValueBelow(b);
    Pow2Of32();
    assert ToUint32(Finite(Signed(b))) == ValueOf(b);
    BinOfValue(b, 32);
  }

  /** An unsigned value of at most 32 bits read back as an operand. */
  lemma WordOfValue(s: Bits)
    requires |s| <= 32
    ensures Word(Finite(ValueOf(s))) == s + Zeros(32 - |s|)
  {
    WordOfShortValue(s);
    PaddedDigits(s);
  }

  lemma PaddedDigits(s: Bits)
    requires |s| <= 32
    ensures |Bin(ValueOf(s))| <= 32
    ensures Bin(ValueOf(s)) + Zeros(32 - |Bin(ValueOf(s))|) == s + Zeros(32 - |s|)
  {
    BinOfValue(s, 32);
  }

  lemma WordOfShortValue(s: Bits)
    requires |s| <= 32
    ensures |Bin(ValueOf(s))| <= 32
    ensures Word(Finite(ValueOf(s))) == Bin(ValueOf(s)) + Zeros(32 - |Bin(ValueOf(s))|)
  {
    ValueBelow32(s);
    WordOfNat(ValueOf(s));
  }

  lemma ValueBelow32(s: Bits)
    requires |s| <= 32
    ensures ValueOf(s) < TWO_32
  {
    ValueBelow(s);
    Pow2Monotone(|s|, 32);
    Pow2Of32();
  }

  /** The word of a number below 2^32: its binary digits, then zeros. */
  lemma WordOfNat(u: nat)
    requires u < TWO_32
    ensures |Bin(u)| <= 32
    ensures Word(Finite(u)) == Bin(u) + Zeros(32 - |Bin(u)|)
  {
    Pow2Of32();
    BinShort(u, 32);
    assert ToUint32(Finite(u)) == u;
  }

  /** The word of a number below 2^k: its low k bits, then zeros. */
  lemma WordOfSmall(u: nat, k: nat)
    requires k <= 32 && u < Pow2(k)
    ensures Word(Finite(u)) == BitsOf(u, k) + Zeros(32 - k)
  {
    assert u < TWO_32 by {
      Pow2Monotone(k, 32);
      Pow2Of32();
    }
    WordOfNat(u);
    BinShort(u, k);
    BitsOfBin(u, k);
    ZerosSplit(Bin(u), k);
  }

  lemma ZerosSplit(d: Bits, k: nat)
    requires |d| <= k <= 32
    ensures d + Zeros(32 - |d|) == (d + Zeros(k - |d|)) + Zeros(32 - k)
  {
    assert Zeros(32 - |d|) == Zeros(k - |d|) + Zeros(32 - k);
  }

  /** A word whose top bit is clear denotes the same number signed or unsigned. */
  lemma SignedOfPadded(s: Bits)
    requires |s| < 32
    ensures Signed(s + Zeros(32 - |s|)) == ValueOf(s)
  {
    var w := s + Zeros(32 - |s|);
    ValueOfPadded(s, 32 - |s|);
    assert !w[31] by {
      assert w[31] == Zeros(32 - |s|)[31 - |s|];
    }
  }

  // ---------------------------------------------------------------------
  // The operators

  /** `(1 << k) - 1` is 2^k - 1 for the shift counts below 31. */
  lemma MaskValue(k: nat)
    requires k < 31
    ensures Mask(k) == Pow2(k) - 1
  {
    var one := Zeros(k) + [true];
    assert Word(Finite(1)) == [true] + Zeros(31);
    assert (Zeros(k) + Word(Finite(1)))[..32] == one + Zeros(32 - |one|);
    SignedOfPadded(one);
    OneAt(k);
  }

  lemma {:induction false} OneAt(k: nat)
    ensures ValueOf(Zeros(k) + [true]) == Pow2(k)
  {
    if k > 0 {
      assert (Zeros(k) + [true])[1..] == Zeros(k - 1) + [true];
      OneAt(k - 1);
    }
  }

  lemma {:induction false} BitsOfMask(k: nat)
    ensures BitsOf(Pow2(k) - 1, k) == seq(k, i => true)
  {
    if k > 0 {
      var p := Pow2(k - 1);
      assert Pow2(k) - 1 == 2 * (p - 1) + 1;
      assert (Pow2(k) - 1) % 2 == 1 && (Pow2(k) - 1) / 2 == p - 1;
      BitsOfMask(k - 1);
      assert seq(k, i => true) == [true] + seq(k - 1, i => true);
    }
  }

  /** `v & ((1 << k) - 1)` is the number in the low k bits of v. */
  lemma AndMask(v: JsNumber, k: nat)
    requires 0 < k < 31
    ensures JsAnd(v, Finite(Mask(k))) == ValueOf(Word(v)[..k])
  {
    var w := Word(v);
    var m := seq(k, i => true) + Zeros(32 - k);
    assert Word(Finite(Mask(k))) == m by {
      MaskValue(k);
      WordOfSmall(Pow2(k) - 1, k);
      BitsOfMask(k);
    }
    AndLow(w, k);
    assert |w[..k]| == k;
    SignedOfPadded(w[..k]);
  }

  /** Masking a word with k set bits keeps its low k bits and clears the rest. */
  lemma AndLow(w: Bits, k: nat)
    requires |w| == 32 && k <= 32
    ensures And(w, seq(k, i => true) + Zeros(32 - k)) == w[..k] + Zeros(32 - k)
  {
    var m := seq(k, i => true) + Zeros(32 - k);
    forall i | 0 <= i < 32
      ensures And(w, m)[i] == (w[..k] + Zeros(32 - k))[i]
    {
      if i < k {
        assert m[i];
      } else {
        assert !m[i];
      }
    }
  }

  /** `v >>> k` read back as an operand: the bits above the low k, then zeros. */
  lemma WordOfUshr(v: JsNumber, k: nat)
    requires k < 32
    ensures Word(Finite(JsUshr(v, k))) == Word(v)[k..] + Zeros(k)
  {
    WordOfValue(Word(v)[k..]);
  }

  /** `(v << k) | f` for a field `f` of k bits: f in the low k bits, v's low 32 - k bits above it. */
  lemma ShiftIn(v: JsNumber, f: nat, k: nat)
    requires 0 < k < 32 && f < Pow2(k)
    ensures Word(Finite(JsOr(Finite(JsShl(v, k)), Finite(f)))) == BitsOf(f, k) + Word(v)[..32 - k]
  {
    var s := (Zeros(k) + Word(v))[..32];
    assert JsShl(v, k) == Signed(s);
    WordOfSigned(s);
    var b := BitsOf(f, k);
    WordOfSmall(f, k);
    var r := Or(s, b + Zeros(32 - k));
    assert JsOr(Finite(JsShl(v, k)), Finite(f)) == Signed(r);
    var t := b + Word(v)[..32 - k];
    forall i | 0 <= i < 32
      ensures r[i] == t[i]
    {
      if i < k {
        assert s[i] == Zeros(k)[i];
      } else {
        assert s[i] == Word(v)[i - k];
      }
    }
    assert r == t;
    WordOfSigned(r);
  }

  /** `v & 3` is v modulo 4 (never negative), and 0 for NaN. */
  lemma AndThree(v: JsNumber)
    ensures JsAnd(v, Finite(3)) == ToUint32(v) % 4
    ensures v.Finite? ==> JsAnd(v, Finite(3)) == v.value % 4
  {
    AndThreeLow(v);
    LowOfWord(v);
    if v.Finite? {
      ModOfMod(v.value);
    }
  }

  lemma AndThreeLow(v: JsNumber)
    ensures JsAnd(v, Finite(3)) == ValueOf(Word(v)[..2])
  {
    assert Mask(2) == 3 by {
      MaskValue(2);
      assert Pow2(2) == 4;
    }
    AndMask(v, 2);
  }

  lemma LowOfWord(v: JsNumber)
    ensures ValueOf(Word(v)[..2]) == ToUint32(v) % 4
  {
    WordBits(v);
    BitsOfPrefix(ToUint32(v), 2, 32);
    LowTwo(ToUint32(v));
  }

  /** The number in the low two bits of u is u modulo 4. */
  lemma LowTwo(u: nat)
    ensures ValueOf(BitsOf(u, 2)) == u % 4
  {
    var h := u / 2;
    var top := BitsOf(h, 1);
    assert top == [h % 2 == 1] + BitsOf(h / 2, 0);
    assert top[1..] == [];
    assert ValueOf(top) == h % 2;
    var b := BitsOf(u, 2);
    assert b == [u % 2 == 1] + top;
    assert b[1..] == top;
    assert ValueOf(b) == u % 2 + 2 * (h % 2);
    TwoDigits(u);
  }

  lemma TwoDigits(u: nat)
    ensures u % 4 == u % 2 + 2 * ((u / 2) % 2)
  {
    var h := u / 2;
    var g := h / 2;
    assert u == 2 * h + u % 2;
    assert h == 2 * g + h % 2;
    assert u == 4 * g + (2 * (h % 2) + u % 2);
  }

  /** Reducing modulo 2^32 keeps the remainder modulo 4. */
  lemma ModOfMod(x: int)
    ensures (x % TWO_32) % 4 == x % 4
  {
    var q := x / TWO_32;
    var r := x % TWO_32;
    assert x == TWO_32 * q + r;
    assert TWO_32 * q == 4 * (0x4000_0000 * q);
    ShiftMod(0x4000_0000 * q, r);
  }

  lemma ShiftMod(m: int, r: int)
    ensures (4 * m + r) % 4 == r % 4
  {
  }
}
