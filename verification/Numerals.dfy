/** The numerals the gateway prints: `bytes.hex`, `bytes.fromhex` and `str(int)`. */
module Numerals {
  import opened Basics

  // ----- hexadecimal -----

  function HexDigit(n: nat): CodePoint
    requires n < 16
  {
    if n < 10 then 0x30 + n else 0x57 + n
  }

  /** The value of a hexadecimal digit of either case. */
  function HexValue(c: CodePoint): Option<nat>
    ensures HexValue(c).Some? ==> HexValue(c).value < 16
  {
    if 0x30 <= c <= 0x39 then Some(c - 0x30)
    else if 0x61 <= c <= 0x66 then Some(c - 0x57)
    else if 0x41 <= c <= 0x46 then Some(c - 0x37)
    else None
  }

  predicate IsSpace(c: CodePoint) {
    c == 0x20 || 0x09 <= c <= 0x0D
  }

  /** `bytes.hex()` */
  function ToHex(b: Bytes): (t: Text)
    ensures |t| == 2 * |b|
  {
    if b == [] then [] else [HexDigit(b[0] / 16), HexDigit(b[0] % 16)] + ToHex(b[1..])
  }

  /** `bytes.fromhex(t)`: either case, white space allowed between bytes, `None` where Python raises ValueError. */
  function FromHex(t: Text): Option<Bytes> {
    if t == [] then Some([])
    else if IsSpace(t[0]) then FromHex(t[1..])
    else if |t| < 2 || HexValue(t[0]).None? || HexValue(t[1]).None? then None
    else
      match FromHex(t[2..])
      case None => None
      case Some(rest) => Some([HexValue(t[0]).value * 16 + HexValue(t[1]).value] + rest)
  }

  lemma {:induction false} FromHexToHex(b: Bytes)
    ensures FromHex(ToHex(b)) == Some(b)
  {
    if b != [] {
      var t := ToHex(b);
      assert t[2..] == ToHex(b[1..]);
      FromHexToHex(b[1..]);
      assert b == [b[0]] + b[1..];
    }
  }

  /** `hexdigest` writes the two lower-case digits of each byte, the high half first. */
  lemma {:induction false} ToHexDigits(b: Bytes, i: nat)
    requires i < |b|
    ensures ToHex(b)[2 * i] == "0123456789abcdef"[b[i] / 16] as int
    ensures ToHex(b)[2 * i + 1] == "0123456789abcdef"[b[i] % 16] as int
  {
    if i > 0 {
      ToHexDigits(b[1..], i - 1);
    } else {
      HexDigitIs(b[0] / 16);
      HexDigitIs(b[0] % 16);
    }
  }

  lemma HexDigitIs(n: nat)
    requires n < 16
    ensures HexDigit(n) == "0123456789abcdef"[n] as int
  {
  }

  /** `fromhex` reads digits of either case. */
  lemma HexValueExactly(c: CodePoint, n: nat)
    requires n < 16
    ensures HexValue(c) == Some(n) <==> c == "0123456789abcdef"[n] as int || c == "0123456789ABCDEF"[n] as int
  {
  }

  /** It skips white space between bytes, reads two digits to a byte, and nothing else. */
  lemma FromHexReads(t: Text, c: CodePoint, d: CodePoint)
    ensures FromHex([]) == Some([])
    ensures c == ' ' as int || 9 <= c <= 13 ==> FromHex([c] + t) == FromHex(t)
    ensures HexValue(c).Some? && HexValue(d).Some? && FromHex(t).Some? ==>
              FromHex([c, d] + t) == Some([16 * HexValue(c).value + HexValue(d).value] + FromHex(t).value)
    ensures HexValue(c).Some? && (HexValue(d).None? || FromHex(t).None?) ==> FromHex([c, d] + t) == None
    ensures c != ' ' as int && !(9 <= c <= 13) && HexValue(c).None? ==> FromHex([c] + t) == None
  {
    assert ([c] + t)[1..] == t && ([c, d] + t)[2..] == t;
  }

  lemma ToHexInjective(a: Bytes, b: Bytes)
    requires ToHex(a) == ToHex(b)
    ensures a == b
  {
    FromHexToHex(a);
    FromHexToHex(b);
  }

  // ----- decimal -----

  predicate IsDigit(c: CodePoint) {
    0x30 <= c <= 0x39
  }

  function Digits(n: nat): (t: Text)
    ensures |t| > 0 && forall i | 0 <= i < |t| :: IsDigit(t[i])
  {
    if n < 10 then [0x30 + n] else Digits(n / 10) + [0x30 + n % 10]
  }

  /** `str(n)` */
  function Decimal(n: int): (t: Text)
    ensures |t| > 0
  {
    if n < 0 then [0x2D] + Digits(-n) else Digits(n)
  }

  /** The number a string of decimal digits denotes. */
  function NumberOf(digits: Text): int {
    if digits == [] then 0
    else 10 * NumberOf(digits[..|digits| - 1]) + digits[|digits| - 1] - 0x30
  }

  lemma {:induction false} NumberOfDigits(n: nat)
    ensures NumberOf(Digits(n)) == n
  {
    var t := Digits(n);
    if n < 10 {
      assert t[..0] == [];
    } else {
      assert t[..|t| - 1] == Digits(n / 10);
      NumberOfDigits(n / 10);
    }
  }

  /** How many of the leading code points are digits. */
  function DigitSpan(t: Text): (n: nat)
    ensures n <= |t|
  {
    if t == [] || !IsDigit(t[0]) then 0 else 1 + DigitSpan(t[1..])
  }

  lemma {:induction false} DigitSpanAppend(digits: Text, rest: Text)
    requires forall i | 0 <= i < |digits| :: IsDigit(digits[i])
    requires rest == [] || !IsDigit(rest[0])
    ensures DigitSpan(digits + rest) == |digits|
  {
    if digits == [] {
      assert digits + rest == rest;
    } else {
      assert (digits + rest)[1..] == digits[1..] + rest;
      DigitSpanAppend(digits[1..], rest);
    }
  }

  /** A numeral is a minus sign for negative numbers only, and digits without a leading zero, except "0" itself. */
  lemma DecimalIsPlain(n: int)
    ensures n >= 0 ==> IsDigit(Decimal(n)[0]) && (Decimal(n)[0] == '0' as int ==> n == 0 && |Decimal(n)| == 1)
    ensures n < 0 ==> Decimal(n)[0] == '-' as int && |Decimal(n)| >= 2 && IsDigit(Decimal(n)[1]) && Decimal(n)[1] != '0' as int
  {
    NoLeadingZero(if n < 0 then -n else n);
  }

  lemma {:induction false} NoLeadingZero(n: nat)
    ensures Digits(n) != [] && IsDigit(Digits(n)[0])
    ensures Digits(n)[0] == '0' as int ==> n == 0 && |Digits(n)| == 1
  {
    if n >= 10 {
      NoLeadingZero(n / 10);
    }
  }
}
