/** `_compare_keys_jcs`: keys compared by UTF-16 code units (section 3.2.3 of RFC 8785). */
module KeyOrder {
  import opened Basics
  import opened Utf8

  type Unit = u: int | 0 <= u < 0x10000

  /** The UTF-16 code units of one code point; a lone surrogate passes through. */
  function PointUnits(c: CodePoint): (u: seq<Unit>)
    ensures 1 <= |u| <= 2
  {
    if c <= 0xFFFF then [c] else [0xD800 + (c - 0x10000) / 0x400, 0xDC00 + (c - 0x10000) % 0x400]
  }

  function Units(t: Text): seq<Unit> {
    if t == [] then [] else PointUnits(t[0]) + Units(t[1..])
  }

  lemma {:induction false} UnitsConcat(s: Text, t: Text)
    ensures Units(s + t) == Units(s) + Units(t)
  {
    if s == [] {
      assert s + t == t;
    } else {
      assert (s + t)[1..] == s[1..] + t;
      UnitsConcat(s[1..], t);
    }
  }

  lemma UnitsOfNone()
    ensures Units([]) == []
  {
  }

  lemma UnitsOfOne(c: CodePoint)
    ensures Units([c]) == PointUnits(c)
  {
    assert Units([c]) == PointUnits(c) + Units([]);
  }

  /** `_to_utf16_units`. Its specification is `Units`; `UnitsAreUtf16` says what that is. */
  method ToUtf16Units(s: Text) returns (units: seq<Unit>)
    ensures units == Units(s)
  {
    hide Units;
    units := [];
    UnitsOfNone();
    for i := 0 to |s|
      invariant units == Units(s[..i])
    {
      var cp: int := s[i];
      assert s[..i + 1] == s[..i] + [s[i]];
      UnitsConcat(s[..i], [s[i]]);
      UnitsOfOne(s[i]);
      if cp <= 0xFFFF {
        units := units + [cp];
      } else {
        cp := cp - 0x10000;
        units := units + [0xD800 + cp / 0x400];
        units := units + [0xDC00 + cp % 0x400];
      }
    }
    assert s[..|s|] == s;
  }

  /** Lexicographic order: -1, 0 or 1. */
  function LexCompare(a: seq<int>, b: seq<int>): int {
    if a == [] && b == [] then 0
    else if a == [] then -1
    else if b == [] then 1
    else if a[0] < b[0] then -1
    else if a[0] > b[0] then 1
    else LexCompare(a[1..], b[1..])
  }

  function Compare(a: Text, b: Text): int {
    LexCompare(Units(a), Units(b))
  }

  lemma {:induction false} LexSkip(a: seq<int>, b: seq<int>, n: nat)
    requires n <= |a| && n <= |b| && a[..n] == b[..n]
    ensures LexCompare(a, b) == LexCompare(a[n..], b[n..])
  {
    if n > 0 {
      assert a[0] == a[..n][0] && b[0] == b[..n][0];
      assert a[1..][..n - 1] == a[..n][1..] && b[1..][..n - 1] == b[..n][1..];
      LexSkip(a[1..], b[1..], n - 1);
      assert a[1..][n - 1..] == a[n..] && b[1..][n - 1..] == b[n..];
    } else {
      assert a[0..] == a && b[0..] == b;
    }
  }

  /** Two sequences part at `n`: equal up to there, where the first one ends or has the smaller unit. */
  predicate PartsAt(u: seq<int>, v: seq<int>, n: nat)
    requires n <= |u| && n <= |v|
  {
    && u[..n] == v[..n]
    && ((n == |u| && n < |v|) || (n < |u| && n < |v| && u[n] < v[n]))
  }

  predicate Precedes(u: seq<int>, v: seq<int>) {
    exists n | 0 <= n <= |u| && n <= |v| :: PartsAt(u, v, n)
  }

  /** The order of section 3.2.3 of RFC 8785: as arrays of UTF-16 code units, the first key comes before the second. */
  predicate UnitsBefore(a: Text, b: Text) {
    Precedes(Units(a), Units(b))
  }

  lemma PrecedesStep(u: seq<int>, v: seq<int>)
    requires u != [] && v != [] && u[0] == v[0]
    ensures Precedes(u, v) <==> Precedes(u[1..], v[1..])
  {
    var x, y := u[1..], v[1..];
    if Precedes(u, v) {
      var n :| 0 <= n <= |u| && n <= |v| && PartsAt(u, v, n);
      assert x[..n - 1] == u[..n][1..] && y[..n - 1] == v[..n][1..];
      assert PartsAt(x, y, n - 1);
    }
    if Precedes(x, y) {
      var n :| 0 <= n <= |x| && n <= |y| && PartsAt(x, y, n);
      assert u[..n + 1] == [u[0]] + x[..n] && v[..n + 1] == [v[0]] + y[..n];
      assert PartsAt(u, v, n + 1);
    }
  }

  lemma PrecedesHead(u: seq<int>, v: seq<int>)
    requires u == [] || v == [] || u[0] != v[0]
    ensures Precedes(u, v) <==> v != [] && (u == [] || u[0] < v[0])
  {
    if Precedes(u, v) {
      var n :| 0 <= n <= |u| && n <= |v| && PartsAt(u, v, n);
    }
    if v != [] && (u == [] || u[0] < v[0]) {
      assert PartsAt(u, v, 0);
    }
  }

  /** The recursive comparison is the order by the first place where two sequences part. */
  lemma {:induction false} LexIsPrecedes(u: seq<int>, v: seq<int>)
    ensures LexCompare(u, v) < 0 <==> Precedes(u, v)
    ensures LexCompare(u, v) > 0 <==> Precedes(v, u)
    ensures -1 <= LexCompare(u, v) <= 1
  {
    hide Precedes;
    if u != [] && v != [] && u[0] == v[0] {
      PrecedesStep(u, v);
      PrecedesStep(v, u);
      LexIsPrecedes(u[1..], v[1..]);
    } else {
      PrecedesHead(u, v);
      PrecedesHead(v, u);
    }
  }

  /** A negative result means exactly that the first key comes before the second, a positive one the reverse. */
  lemma CompareIsUnitOrder(a: Text, b: Text)
    ensures Compare(a, b) < 0 <==> UnitsBefore(a, b)
    ensures Compare(a, b) > 0 <==> UnitsBefore(b, a)
  {
    LexIsPrecedes(Units(a), Units(b));
  }

  /** The comparison loop: the first position where the units differ decides, then the lengths. */
  method CompareKeysJcs(a: Text, b: Text) returns (order: int)
    ensures order == Compare(a, b)
    ensures order == if UnitsBefore(a, b) then -1 else if UnitsBefore(b, a) then 1 else 0
  {
    hide Units, Precedes;
    LexIsPrecedes(Units(a), Units(b));
    var aUnits := ToUtf16Units(a);
    var bUnits := ToUtf16Units(b);
    var i := 0;
    while i < |aUnits| && i < |bUnits|
      invariant 0 <= i <= |aUnits| && i <= |bUnits|
      invariant aUnits[..i] == bUnits[..i]
    {
      LexSkip(aUnits, bUnits, i);
      if aUnits[i] < bUnits[i] {
        return -1;
      }
      if aUnits[i] > bUnits[i] {
        return 1;
      }
      i := i + 1;
    }
    LexSkip(aUnits, bUnits, i);
    if |aUnits| < |bUnits| {
      return -1;
    }
    if |aUnits| > |bUnits| {
      return 1;
    }
    return 0;
  }

  // ----- the order laws -----

  lemma {:induction false} LexZero(a: seq<int>, b: seq<int>)
    ensures LexCompare(a, b) == 0 <==> a == b
  {
    if a != [] && b != [] && a[0] == b[0] {
      LexZero(a[1..], b[1..]);
      assert a == [a[0]] + a[1..] && b == [b[0]] + b[1..];
    }
  }

  lemma {:induction false} LexAntisymmetric(a: seq<int>, b: seq<int>)
    ensures LexCompare(a, b) == -LexCompare(b, a)
  {
    if a != [] && b != [] && a[0] == b[0] {
      LexAntisymmetric(a[1..], b[1..]);
    }
  }

  lemma {:induction false} LexTransitive(a: seq<int>, b: seq<int>, c: seq<int>)
    requires LexCompare(a, b) <= 0 && LexCompare(b, c) <= 0
    ensures LexCompare(a, c) <= 0
    ensures LexCompare(a, b) < 0 || LexCompare(b, c) < 0 ==> LexCompare(a, c) < 0
  {
    if a != [] && b != [] && c != [] && a[0] == b[0] == c[0] {
      LexTransitive(a[1..], b[1..], c[1..]);
    }
  }

  /** A high surrogate code point directly before a low one, which UTF-16 cannot tell from one astral code point. */
  predicate HasSplitPair(t: Text) {
    exists i | 0 <= i < |t| - 1 :: 0xD800 <= t[i] <= 0xDBFF && 0xDC00 <= t[i + 1] <= 0xDFFF
  }

  lemma SplitPairTail(t: Text)
    requires t != [] && !HasSplitPair(t)
    ensures !HasSplitPair(t[1..])
  {
  }

  /** The surrogate arithmetic is invertible on text that holds no split pair. */
  lemma {:induction false} UnitsInjective(s: Text, t: Text)
    requires !HasSplitPair(s) && !HasSplitPair(t)
    requires Units(s) == Units(t)
    ensures s == t
  {
    if s != [] && t != [] {
      var u, v := PointUnits(s[0]), PointUnits(t[0]);
      assert Units(s)[0] == u[0] && Units(t)[0] == v[0];
      if |u| < |v| {
        FirstUnitOfRest(s, t);
      } else if |v| < |u| {
        FirstUnitOfRest(t, s);
      } else {
        SplitEqual(u, Units(s[1..]), v, Units(t[1..]));
        if |u| == 2 {
          assert u[0] == v[0] && u[1] == v[1];
        }
        SplitPairTail(s);
        SplitPairTail(t);
        UnitsInjective(s[1..], t[1..]);
        assert s == [s[0]] + s[1..] && t == [t[0]] + t[1..];
      }
    }
  }

  /** A single unit against a surrogate pair: the text with the single unit must go on with a low surrogate. */
  lemma FirstUnitOfRest(s: Text, t: Text)
    requires s != [] && t != [] && |PointUnits(s[0])| == 1 && |PointUnits(t[0])| == 2
    requires !HasSplitPair(s)
    ensures Units(s) != Units(t)
  {
    var v := PointUnits(t[0]);
    assert Units(s)[0] == s[0] && Units(s)[1..] == Units(s[1..]);
    assert Units(t)[0] == v[0] && Units(t)[1] == v[1];
    if |s| > 1 {
      assert Units(s)[1] == Units(s[1..])[0] == PointUnits(s[1])[0];
    } else {
      assert s[1..] == [];
    }
  }

  /** Decoding by section 2.2 of RFC 2781: a high surrogate before a low one makes one code point, any other unit is one. */
  function FromUnits(u: seq<Unit>): Text {
    if u == [] then []
    else if |u| >= 2 && 0xD800 <= u[0] <= 0xDBFF && 0xDC00 <= u[1] <= 0xDFFF then
      [0x10000 + (u[0] - 0xD800) * 0x400 + (u[1] - 0xDC00)] + FromUnits(u[2..])
    else [u[0]] + FromUnits(u[1..])
  }

  /** The units are UTF-16: the decoder gives back every text that holds no split pair. */
  lemma {:induction false} UnitsAreUtf16(t: Text)
    requires !HasSplitPair(t)
    ensures FromUnits(Units(t)) == t
  {
    if t != [] {
      SplitPairTail(t);
      UnitsAreUtf16(t[1..]);
      var u := Units(t);
      assert t == [t[0]] + t[1..];
      if t[0] <= 0xFFFF {
        assert u[1..] == Units(t[1..]);
        if |t| > 1 {
          assert u[1] == PointUnits(t[1])[0];
        } else {
          assert Units(t[1..]) == [];
        }
      } else {
        assert u[2..] == Units(t[1..]);
      }
    }
  }

  /**
   * The comparison is a strict total order on keys without split pairs, in particular on all keys of
   * Unicode scalar values, and 0 means equal.
   */
  lemma CompareIsTotalOrder(a: Text, b: Text, c: Text)
    requires !HasSplitPair(a) && !HasSplitPair(b)
    ensures Compare(a, b) == 0 <==> a == b
    ensures Compare(a, b) == -Compare(b, a)
    ensures Compare(a, b) <= 0 && Compare(b, c) <= 0 ==> Compare(a, c) <= 0
    ensures Compare(a, b) < 0 && Compare(b, c) <= 0 ==> Compare(a, c) < 0
  {
    LexZero(Units(a), Units(b));
    if Units(a) == Units(b) {
      UnitsInjective(a, b);
    }
    LexAntisymmetric(Units(a), Units(b));
    if Compare(a, b) <= 0 && Compare(b, c) <= 0 {
      LexTransitive(Units(a), Units(b), Units(c));
    }
  }

  lemma ScalarHasNoSplitPair(t: Text)
    requires Scalar(t)
    ensures !HasSplitPair(t)
  {
  }

  /** The condition is needed: every key with a split pair compares as equal to some other key. */
  lemma SplitPairIsMerged(a: Text) returns (b: Text)
    requires HasSplitPair(a)
    ensures a != b && Compare(a, b) == 0
  {
    hide Units, LexCompare;
    var i :| 0 <= i < |a| - 1 && 0xD800 <= a[i] <= 0xDBFF && 0xDC00 <= a[i + 1] <= 0xDFFF;
    var astral: CodePoint := 0x10000 + (a[i] - 0xD800) * 0x400 + (a[i + 1] - 0xDC00);
    var high: Text, low: Text, merged: Text := [a[i]], [a[i + 1]], [astral];
    b := a[..i] + merged + a[i + 2..];
    assert a == a[..i] + (high + low) + a[i + 2..];
    UnitsOfThree(a[..i], high + low, a[i + 2..]);
    UnitsOfThree(a[..i], merged, a[i + 2..]);
    UnitsConcat(high, low);
    UnitsOfOne(a[i]);
    UnitsOfOne(a[i + 1]);
    UnitsOfOne(astral);
    assert PointUnits(astral) == [a[i], a[i + 1]];
    LexZero(Units(a), Units(b));
    assert b[i] == astral;
  }

  lemma UnitsOfThree(s: Text, t: Text, u: Text)
    ensures Units(s + t + u) == Units(s) + Units(t) + Units(u)
  {
    hide Units;
    UnitsConcat(s + t, u);
    UnitsConcat(s, t);
  }
}
