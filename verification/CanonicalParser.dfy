/**
 * A parser for the canonical grammar, written independently of the printer. It is the reference
 * that shows the printer loses nothing.
 */
module CanonicalParser {
  import opened Basics
  import opened Json
  import opened Numerals
  import opened Canonical

  datatype Parsed<+T> = Fail | Got(value: T, rest: Text)

  predicate StartsWith(s: Text, p: Text)
    ensures StartsWith(s, p) && p != [] ==> s != [] && s[0] == p[0]
  {
    |p| <= |s| && s[..|p|] == p
  }

  /** What follows a backslash. */
  function ParseEscape(s: Text): (r: Parsed<CodePoint>)
    ensures r.Got? ==> |r.rest| < |s|
  {
    if s == [] then Fail
    else if s[0] == QUOTE || s[0] == BACKSLASH then Got(s[0], s[1..])
    else if s[0] == 0x62 then Got(0x08, s[1..])
    else if s[0] == 0x66 then Got(0x0C, s[1..])
    else if s[0] == 0x6E then Got(0x0A, s[1..])
    else if s[0] == 0x72 then Got(0x0D, s[1..])
    else if s[0] == 0x74 then Got(0x09, s[1..])
    else if s[0] == 0x75 && |s| >= 5 then
      match (HexValue(s[1]), HexValue(s[2]), HexValue(s[3]), HexValue(s[4]))
      case (Some(a), Some(b), Some(c), Some(d)) => Got(a * 0x1000 + b * 0x100 + c * 0x10 + d, s[5..])
      case _ => Fail
    else Fail
  }

  /** A string literal whose opening quote has been read. */
  function ParseString(s: Text): (r: Parsed<Text>)
    ensures r.Got? ==> |r.rest| < |s|
    decreases |s|
  {
    if s == [] then Fail
    else if s[0] == QUOTE then Got([], s[1..])
    else
      var first := if s[0] == BACKSLASH then ParseEscape(s[1..]) else Got(s[0], s[1..]);
      if first.Fail? then Fail
      else
        var others := ParseString(first.rest);
        if others.Fail? then Fail else Got([first.value] + others.value, others.rest)
  }

  function ParseInt(s: Text): (r: Parsed<int>)
    ensures r.Got? ==> |r.rest| < |s|
  {
    var negative := s != [] && s[0] == 0x2D;
    var digits := if negative then s[1..] else s;
    var n := DigitSpan(digits);
    if n == 0 then Fail
    else Got(if negative then -NumberOf(digits[..n]) else NumberOf(digits[..n]), digits[n..])
  }

  function ParseValue(s: Text): (r: Parsed<Json>)
    ensures r.Got? ==> |r.rest| < |s|
    decreases |s|, 0
  {
    if StartsWith(s, Lit("null")) then Got(Null, s[4..])
    else if StartsWith(s, Lit("true")) then Got(Bool(true), s[4..])
    else if StartsWith(s, Lit("false")) then Got(Bool(false), s[5..])
    else if s == [] then Fail
    else if s[0] == QUOTE then
      match ParseString(s[1..])
      case Fail => Fail
      case Got(t, rest) => Got(Str(t), rest)
    else if s[0] == 0x5B then
      if |s| > 1 && s[1] == 0x5D then Got(Arr([]), s[2..])
      else
        match ParseItems(s[1..])
        case Fail => Fail
        case Got(items, rest) => Got(Arr(items), rest)
    else if s[0] == 0x7B then
      if |s| > 1 && s[1] == 0x7D then Got(Obj([]), s[2..])
      else
        match ParseMembers(s[1..])
        case Fail => Fail
        case Got(ms, rest) => Got(Obj(ms), rest)
    else
      match ParseInt(s)
      case Fail => Fail
      case Got(n, rest) => Got(Int(n), rest)
  }

  /** One or more values separated by commas, up to the closing bracket. */
  function ParseItems(s: Text): (r: Parsed<seq<Json>>)
    ensures r.Got? ==> |r.rest| < |s|
    decreases |s|, 1
  {
    match ParseValue(s)
    case Fail => Fail
    case Got(v, rest) =>
      if rest == [] then Fail
      else if rest[0] == 0x5D then Got([v], rest[1..])
      else if rest[0] == 0x2C then
        match ParseItems(rest[1..])
        case Fail => Fail
        case Got(vs, end) => Got([v] + vs, end)
      else Fail
  }

  function ParseMember(s: Text): (r: Parsed<Member>)
    ensures r.Got? ==> |r.rest| < |s|
    decreases |s|, 1
  {
    if s == [] || s[0] != QUOTE then Fail
    else
      match ParseString(s[1..])
      case Fail => Fail
      case Got(k, rest) =>
        if rest == [] || rest[0] != 0x3A then Fail
        else
          match ParseValue(rest[1..])
          case Fail => Fail
          case Got(v, end) => Got(Member(k, v), end)
  }

  /** One or more members separated by commas, up to the closing brace. */
  function ParseMembers(s: Text): (r: Parsed<seq<Member>>)
    ensures r.Got? ==> |r.rest| < |s|
    decreases |s|, 2
  {
    match ParseMember(s)
    case Fail => Fail
    case Got(m, rest) =>
      if rest == [] then Fail
      else if rest[0] == 0x7D then Got([m], rest[1..])
      else if rest[0] == 0x2C then
        match ParseMembers(rest[1..])
        case Fail => Fail
        case Got(ms, end) => Got([m] + ms, end)
      else Fail
  }

  /** The value a whole text denotes. */
  function Parse(s: Text): Option<Json> {
    match ParseValue(s)
    case Got(v, rest) => if rest == [] then Some(v) else None
    case Fail => None
  }
}
