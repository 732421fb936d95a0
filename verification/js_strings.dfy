/**
 * Splitting a JavaScript string into code points, as the string iterator
 * (`[...str]`) does, and cutting a string to a number of code points.
 *
 * A high surrogate immediately followed by a low surrogate makes one code
 * point; every other code unit, a lone surrogate included, makes one on its own.
 */
module JsStrings {
  import opened JsValues

  predicate IsHigh(c: CodeUnit)
  {
    0xD800 <= c <= 0xDBFF
  }

  predicate IsLow(c: CodeUnit)
  {
    0xDC00 <= c <= 0xDFFF
  }

  /** `join('')` */
  function Flatten(ps: seq<JsString>): JsString
  {
    if ps == [] then [] else ps[0] + Flatten(ps[1..])
  }

  /** The iterator's split is well formed: pairs are surrogate pairs, and a lone high surrogate is not followed by a low one. */
  predicate WellSplit(ps: seq<JsString>)
  {
    (forall i :: 0 <= i < |ps| ==>
      (|ps[i]| == 1 || (|ps[i]| == 2 && IsHigh(ps[i][0]) && IsLow(ps[i][1]))))
    && (forall i :: 0 <= i < |ps| - 1 && IsHigh(ps[i][0]) ==> |ps[i]| == 2 || !IsLow(ps[i + 1][0]))
  }

  /** `[...s]` */
  function CodePoints(s: JsString): (ps: seq<JsString>)
    ensures Flatten(ps) == s
    ensures WellSplit(ps)
    ensures |ps| <= |s|
    ensures ps != [] ==> ps[0] == s[..|ps[0]|]
    decreases |s|
  {
    if s == [] then []
    else
      var k := if |s| >= 2 && IsHigh(s[0]) && IsLow(s[1]) then 2 else 1;
      var rest := CodePoints(s[k..]);
      assert s == s[..k] + s[k..];
      assert rest != [] ==> rest[0][0] == s[k];
      SplitCons(s[..k], rest);
      [s[..k]] + rest
  }

  /** A unit that does not start a surrogate pair is one code point. */
  lemma SingleAt(s: JsString, i: nat)
    requires i < |s| && !(i + 1 < |s| && IsHigh(s[i]) && IsLow(s[i + 1]))
    ensures |CodePoints(s[i..])| == 1 + |CodePoints(s[i + 1..])|
  {
    assert s[i..][1..] == s[i + 1..];
  }

  /** A surrogate pair is one code point. */
  lemma PairAt(s: JsString, i: nat)
    requires i + 1 < |s| && IsHigh(s[i]) && IsLow(s[i + 1])
    ensures |CodePoints(s[i..])| == 1 + |CodePoints(s[i + 2..])|
  {
    assert s[i..][2..] == s[i + 2..];
  }

  /** A code point put in front of a well-formed split whose first unit it does not pair with. */
  lemma SplitCons(p: JsString, rest: seq<JsString>)
    requires WellSplit(rest)
    requires |p| == 1 || (|p| == 2 && IsHigh(p[0]) && IsLow(p[1]))
    requires |p| == 1 && IsHigh(p[0]) && rest != [] ==> !IsLow(rest[0][0])
    ensures WellSplit([p] + rest) && Flatten([p] + rest) == p + Flatten(rest)
    ensures ([p] + rest)[0] == p && ([p] + rest)[1..] == rest
  {
    var ps := [p] + rest;
    assert ps[1..] == rest;
    forall i | 0 < i < |ps|
      ensures ps[i] == rest[i - 1]
    {
    }
  }

  /** `[...s].slice(0, n).join('')` */
  function ClampString(s: JsString, n: nat): JsString
  {
    var ps := CodePoints(s);
    Flatten(ps[..if n < |ps| then n else |ps|])
  }

  // ---------------------------------------------------------------------

  lemma {:induction false} FlattenAppend(a: seq<JsString>, b: seq<JsString>)
    ensures Flatten(a + b) == Flatten(a) + Flatten(b)
  {
    if a != [] {
      assert (a + b)[1..] == a[1..] + b;
      FlattenAppend(a[1..], b);
    } else {
      assert a + b == b;
    }
  }

  /** Joining a prefix of the pieces gives a prefix of the whole. */
  lemma FlattenPrefix(ps: seq<JsString>, k: nat)
    requires k <= |ps|
    ensures Flatten(ps) == Flatten(ps[..k]) + Flatten(ps[k..])
  {
    assert ps == ps[..k] + ps[k..];
    FlattenAppend(ps[..k], ps[k..]);
  }

  /** Splitting the join of the first k code points gives back those k code points. */
  lemma {:induction false} CodePointsOfPrefix(s: JsString, k: nat)
    requires k <= |CodePoints(s)|
    ensures CodePoints(Flatten(CodePoints(s)[..k])) == CodePoints(s)[..k]
    decreases |s|
  {
    var ps := CodePoints(s);
    if k > 0 {
      var first := ps[0];
      var m := |first|;
      var tail := ps[1..];
      assert tail == CodePoints(s[m..]);
      CodePointsOfPrefix(s[m..], k - 1);
      var t := Flatten(tail[..k - 1]);
      assert ps[..k] == [first] + tail[..k - 1];
      assert Flatten(ps[..k]) == first + t;
      var u := first + t;
      // the unit after the first code point is the first unit of t, if any
      if k - 1 > 0 {
        FlattenPrefix(tail, k - 1);
        assert t != [] ==> t[0] == s[m];
      }
      assert u[..m] == first && u[m..] == t;
    }
  }

  // ---------------------------------------------------------------------
  // What clamping promises

  /** The clamped string is a prefix of the original. */
  lemma ClampIsPrefix(s: JsString, n: nat)
    ensures |ClampString(s, n)| <= |s|
    ensures ClampString(s, n) == s[..|ClampString(s, n)|]
  {
    var ps := CodePoints(s);
    var k := if n < |ps| then n else |ps|;
    FlattenPrefix(ps, k);
  }

  /** It holds exactly min(n, number of code points of s) code points. */
  lemma ClampCount(s: JsString, n: nat)
    ensures CodePoints(ClampString(s, n)) == CodePoints(s)[..if n < |CodePoints(s)| then n else |CodePoints(s)|]
    ensures |CodePoints(ClampString(s, n))| == if n < |CodePoints(s)| then n else |CodePoints(s)|
  {
    var ps := CodePoints(s);
    CodePointsOfPrefix(s, if n < |ps| then n else |ps|);
  }

  /** A string of at most n code points is left alone. */
  lemma ClampShort(s: JsString, n: nat)
    requires |CodePoints(s)| <= n
    ensures ClampString(s, n) == s
  {
    assert CodePoints(s)[..|CodePoints(s)|] == CodePoints(s);
  }

  /** Clamping twice to the same length is clamping once. */
  lemma ClampIdempotent(s: JsString, n: nat)
    ensures ClampString(ClampString(s, n), n) == ClampString(s, n)
  {
    ClampCount(s, n);
    ClampShort(ClampString(s, n), n);
  }

  /** The cut never falls between the two halves of a surrogate pair. */
  lemma ClampKeepsPairs(s: JsString, n: nat)
    ensures var r := ClampString(s, n);
      0 < |r| < |s| ==> !(IsHigh(s[|r| - 1]) && IsLow(s[|r|]))
  {
    var ps := CodePoints(s);
    var k := if n < |ps| then n else |ps|;
    var r := ClampString(s, n);
    assert r == Flatten(ps[..k]);
    if 0 < |r| < |s| {
      assert 0 < k < |ps| by {
        assert ps[..|ps|] == ps && ps[..0] == [];
      }
      SplitBoundary(ps, k);
      var a, b := ps[k - 1], ps[k];
      assert s[|r| - 1] == a[|a| - 1] && s[|r|] == b[0];
      if |a| == 1 {
        assert IsHigh(a[0]) ==> !IsLow(b[0]);
      } else {
        assert IsLow(a[1]);
      }
    }
  }

  /** Where the join of the first k pieces ends: the last unit of piece k - 1, then the first unit of piece k. */
  lemma SplitBoundary(ps: seq<JsString>, k: nat)
    requires 0 < k < |ps| && forall i :: 0 <= i < |ps| ==> ps[i] != []
    ensures var r := Flatten(ps[..k]);
      0 < |r| < |Flatten(ps)|
      && Flatten(ps)[|r| - 1] == ps[k - 1][|ps[k - 1]| - 1]
      && Flatten(ps)[|r|] == ps[k][0]
  {
    var r := Flatten(ps[..k]);
    FlattenPrefix(ps, k);
    FlattenPrefix(ps[..k], k - 1);
    assert ps[..k][k - 1..] == [ps[k - 1]] && ps[..k][..k - 1] == ps[..k - 1];
    assert Flatten([ps[k - 1]]) == ps[k - 1] + Flatten([]);
    assert r == Flatten(ps[..k - 1]) + ps[k - 1];
    assert Flatten(ps[k..]) == ps[k] + Flatten(ps[k + 1..]);
  }

  /** On text without surrogates a code point is a code unit, so clamping keeps the first n units. */
  lemma {:induction false} ClampWithoutSurrogates(s: JsString, n: nat)
    requires forall i :: 0 <= i < |s| ==> !IsHigh(s[i])
    ensures ClampString(s, n) == s[..if n < |s| then n else |s|]
  {
    NoSurrogatesUnits(s);
    var ps := CodePoints(s);
    var k := if n < |s| then n else |s|;
    FlattenPrefix(ps, k);
    ClampCount(s, n);
    ClampIsPrefix(s, n);
    NoSurrogatesUnits(ClampString(s, n));
  }

  lemma {:induction false} NoSurrogatesUnits(s: JsString)
    requires forall i :: 0 <= i < |s| ==> !IsHigh(s[i])
    ensures |CodePoints(s)| == |s|
  {
    if s != [] {
      NoSurrogatesUnits(s[1..]);
    }
  }
}
