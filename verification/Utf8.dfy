/** `str.encode("utf-8")`: strict, so a surrogate code point raises. */
module Utf8 {
  import opened Basics

  predicate IsSurrogate(c: CodePoint) {
    0xD800 <= c <= 0xDFFF
  }

  /** Text made of Unicode scalar values only, the text that can be encoded. */
  predicate Scalar(t: Text) {
    forall i | 0 <= i < |t| :: !IsSurrogate(t[i])
  }

  function EncodePoint(c: CodePoint): Bytes {
    if c < 0x80 then [c]
    else if c < 0x800 then [0xC0 + c / 0x40, 0x80 + c % 0x40]
    else if c < 0x10000 then [0xE0 + c / 0x1000, 0x80 + c / 0x40 % 0x40, 0x80 + c % 0x40]
    else [0xF0 + c / 0x40000, 0x80 + c / 0x1000 % 0x40, 0x80 + c / 0x40 % 0x40, 0x80 + c % 0x40]
  }

  function EncodeAll(t: Text): Bytes {
    if t == [] then [] else EncodePoint(t[0]) + EncodeAll(t[1..])
  }

  function Encode(t: Text): Result<Bytes, ()> {
    if Scalar(t) then Ok(EncodeAll(t)) else Err(())
  }

  /** How many bytes the sequence that starts with `b` takes. */
  function Width(b: Byte): (w: nat) {
    if b < 0x80 then 1 else if b < 0xE0 then 2 else if b < 0xF0 then 3 else 4
  }

  lemma LeadByte(c: CodePoint)
    ensures |EncodePoint(c)| == Width(EncodePoint(c)[0])
  {
  }

  lemma EncodePointInjective(c: CodePoint, d: CodePoint)
    requires EncodePoint(c) == EncodePoint(d)
    ensures c == d
  {
    var e, f := EncodePoint(c), EncodePoint(d);
    assert |e| == |f|;
    if |e| == 1 {
    } else if |e| == 2 {
      assert e[0] == f[0] && e[1] == f[1];
    } else if |e| == 3 {
      assert e[0] == f[0] && e[1] == f[1] && e[2] == f[2];
      assert c / 0x40 / 0x40 == c / 0x1000 && d / 0x40 / 0x40 == d / 0x1000;
    } else {
      assert e[0] == f[0] && e[1] == f[1] && e[2] == f[2] && e[3] == f[3];
      assert c / 0x40 / 0x40 == c / 0x1000 && d / 0x40 / 0x40 == d / 0x1000;
      assert c / 0x1000 / 0x40 == c / 0x40000 && d / 0x1000 / 0x40 == d / 0x40000;
    }
  }

  /** UTF-8 is a prefix code, so encoding loses nothing. */
  lemma {:induction false} EncodeAllInjective(s: Text, t: Text)
    requires EncodeAll(s) == EncodeAll(t)
    ensures s == t
  {
    if s != [] && t != [] {
      var e, f := EncodePoint(s[0]), EncodePoint(t[0]);
      assert EncodeAll(s)[0] == e[0] && EncodeAll(t)[0] == f[0];
      LeadByte(s[0]);
      LeadByte(t[0]);
      SplitEqual(e, EncodeAll(s[1..]), f, EncodeAll(t[1..]));
      EncodePointInjective(s[0], t[0]);
      EncodeAllInjective(s[1..], t[1..]);
      assert s == [s[0]] + s[1..] && t == [t[0]] + t[1..];
    }
  }

  /** Decoding by section 3 of RFC 3629, given bytes that are UTF-8: the lead byte tells how many follow. */
  function Decode(b: Bytes): seq<int> {
    if b == [] then []
    else if b[0] < 0x80 || |b| < Width(b[0]) then [b[0]] + Decode(b[1..])
    else if b[0] < 0xE0 then [(b[0] - 0xC0) * 0x40 + (b[1] - 0x80)] + Decode(b[2..])
    else if b[0] < 0xF0 then [(b[0] - 0xE0) * 0x1000 + (b[1] - 0x80) * 0x40 + (b[2] - 0x80)] + Decode(b[3..])
    else [(b[0] - 0xF0) * 0x40000 + (b[1] - 0x80) * 0x1000 + (b[2] - 0x80) * 0x40 + (b[3] - 0x80)] + Decode(b[4..])
  }

  lemma DecodePoint(c: CodePoint, rest: Bytes)
    ensures Decode(EncodePoint(c) + rest) == [c] + Decode(rest)
  {
    var b := EncodePoint(c) + rest;
    LeadByte(c);
    assert b[|EncodePoint(c)|..] == rest;
    if c >= 0x800 {
      assert c / 0x40 / 0x40 == c / 0x1000;
    }
    if c >= 0x10000 {
      assert c / 0x1000 / 0x40 == c / 0x40000;
    }
  }

  /** The bytes are UTF-8: decoding gives back the text. */
  lemma {:induction false} DecodeEncode(t: Text)
    ensures Decode(EncodeAll(t)) == t
  {
    hide Decode, EncodePoint;
    if t == [] {
      DecodeNothing();
    } else {
      DecodePoint(t[0], EncodeAll(t[1..]));
      DecodeEncode(t[1..]);
      assert t == [t[0]] + t[1..];
    }
  }

  lemma DecodeNothing()
    ensures Decode([]) == []
  {
  }
}
