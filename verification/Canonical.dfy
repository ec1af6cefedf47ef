/** `gateway/canonical.py`: the canonical text and the canonical bytes of a value. */
module Canonical {
  import opened Basics
  import opened Json
  import opened KeyOrder
  import opened Numerals
  import Utf8

  /** What `canonicalize` raises. */
  datatype Error = NotFinite | FloatForbidden | UnsupportedType | NotEncodable

  const QUOTE: CodePoint := 0x22
  const BACKSLASH: CodePoint := 0x5C

  // ----- strings -----

  /** How one code point of a string is printed. */
  function Escape(c: CodePoint): (t: Text)
    ensures |t| > 0
  {
    if c == QUOTE then [BACKSLASH, QUOTE]
    else if c == BACKSLASH then [BACKSLASH, BACKSLASH]
    else if c == 0x08 then [BACKSLASH, 0x62]
    else if c == 0x0C then [BACKSLASH, 0x66]
    else if c == 0x0A then [BACKSLASH, 0x6E]
    else if c == 0x0D then [BACKSLASH, 0x72]
    else if c == 0x09 then [BACKSLASH, 0x74]
    else if c < 0x20 then [BACKSLASH, 0x75, 0x30, 0x30, HexDigit(c / 16), HexDigit(c % 16)]
    else [c]
  }

  /**
   * The escapes of section 3.2.2.2 of RFC 8785: two characters for seven code points, six for the other
   * controls, and every other code point as it is.
   */
  lemma EscapesAreRfc8785(c: CodePoint)
    ensures Escape(c) ==
            if c == 8 then Lit("\\b") else if c == 9 then Lit("\\t") else if c == 10 then Lit("\\n")
            else if c == 12 then Lit("\\f") else if c == 13 then Lit("\\r")
            else if c == '"' as int then Lit("\\\"") else if c == '\\' as int then Lit("\\\\")
            else if c < 32 then Lit("\\u00") + ToHex([c]) else [c]
  {
    hide Lit;
    EscapeLiterals();
    if c < 32 {
      assert ToHex([c]) == [HexDigit(c / 16), HexDigit(c % 16)] + ToHex([]);
    }
  }

  lemma EscapeLiterals()
    ensures Lit("\\b") == [BACKSLASH, 0x62] && Lit("\\t") == [BACKSLASH, 0x74] && Lit("\\n") == [BACKSLASH, 0x6E]
    ensures Lit("\\f") == [BACKSLASH, 0x66] && Lit("\\r") == [BACKSLASH, 0x72]
    ensures Lit("\\\"") == [BACKSLASH, QUOTE] && Lit("\\\\") == [BACKSLASH, BACKSLASH]
    ensures Lit("\\u00") == [BACKSLASH, 0x75, 0x30, 0x30]
  {
  }

  function EscapeAll(s: Text): Text {
    if s == [] then [] else Escape(s[0]) + EscapeAll(s[1..])
  }

  /** A JSON string literal. */
  function Quote(s: Text): Text {
    [QUOTE] + EscapeAll(s) + [QUOTE]
  }

  lemma EscapeAllEmpty()
    ensures EscapeAll([]) == []
  {
  }

  lemma {:induction false} EscapeAllAppend(s: Text, c: CodePoint)
    ensures EscapeAll(s + [c]) == EscapeAll(s) + Escape(c)
  {
    if s == [] {
      assert s + [c] == [c];
    } else {
      assert (s + [c])[1..] == s[1..] + [c];
      EscapeAllAppend(s[1..], c);
    }
  }

  /** `_serialize_string`, which appends piece by piece to a list. */
  method SerializeString(s: Text) returns (text: Text)
    ensures text == Quote(s)
  {
    hide EscapeAll;
    var out: Text := [QUOTE];
    EscapeAllEmpty();
    assert s[..0] == [];
    for i := 0 to |s|
      invariant out == [QUOTE] + EscapeAll(s[..i])
    {
      var ch := s[i];
      assert s[..i + 1] == s[..i] + [s[i]];
      EscapeAllAppend(s[..i], s[i]);
      if ch == QUOTE {
        out := out + [BACKSLASH, QUOTE];
      } else if ch == BACKSLASH {
        out := out + [BACKSLASH, BACKSLASH];
      } else if ch == 0x08 {
        out := out + [BACKSLASH, 0x62];
      } else if ch == 0x0C {
        out := out + [BACKSLASH, 0x66];
      } else if ch == 0x0A {
        out := out + [BACKSLASH, 0x6E];
      } else if ch == 0x0D {
        out := out + [BACKSLASH, 0x72];
      } else if ch == 0x09 {
        out := out + [BACKSLASH, 0x74];
      } else if ch < 0x20 {
        out := out + [BACKSLASH, 0x75, 0x30, 0x30, HexDigit(ch / 16), HexDigit(ch % 16)];
      } else {
        out := out + [ch];
      }
    }
    assert s[..|s|] == s;
    text := out + [QUOTE];
  }

  // ----- sorted members -----

  /** Keys are in non-decreasing order. */
  predicate Sorted(ms: seq<Member>) {
    forall i, j | 0 <= i < j < |ms| :: Compare(ms[i].key, ms[j].key) <= 0
  }

  function Insert(m: Member, ms: seq<Member>): (r: seq<Member>)
    ensures multiset(r) == multiset{m} + multiset(ms)
    ensures |r| == |ms| + 1
  {
    if ms == [] || Compare(m.key, ms[0].key) <= 0 then
      assert [m] + ms == [m] + ms;
      [m] + ms
    else
      assert ms == [ms[0]] + ms[1..];
      [ms[0]] + Insert(m, ms[1..])
  }

  /** `sorted(obj.keys(), key=cmp_to_key(_compare_keys_jcs))` with each key's value beside it: a stable sort. */
  function SortMembers(ms: seq<Member>): (r: seq<Member>)
    ensures multiset(r) == multiset(ms)
    ensures |r| == |ms|
    ensures forall i | 0 <= i < |r| :: r[i] in ms
  {
    if ms == [] then []
    else
      assert ms == [ms[0]] + ms[1..];
      var r := Insert(ms[0], SortMembers(ms[1..]));
      assert forall i | 0 <= i < |r| :: r[i] in ms by {
        forall i | 0 <= i < |r| ensures r[i] in ms {
          assert r[i] in multiset(r);
        }
      }
      r
  }

  // ----- the printer -----

  /** `",".join(parts)` */
  function Join(parts: seq<Text>): Text {
    if parts == [] then []
    else if |parts| == 1 then parts[0]
    else parts[0] + Lit(",") + Join(parts[1..])
  }

  /** `_serialize` */
  function Serialize(v: Json): Result<Text, Error>
    decreases v
  {
    match v
    case Null => Ok(Lit("null"))
    case Bool(b) => Ok(if b then Lit("true") else Lit("false"))
    case Int(n) => Ok(Decimal(n))
    case Float(finite) => Err(if finite then FloatForbidden else NotFinite)
    case Str(s) => Ok(Quote(s))
    case Arr(items) =>
      var parts :- Collect(seq(|items|, i requires 0 <= i < |items| => Serialize(items[i])));
      Ok(Lit("[") + Join(parts) + Lit("]"))
    case Obj(ms) =>
      var sorted := SortMembers(ms);
      var pairs :- Collect(seq(|sorted|, i requires 0 <= i < |sorted| => SerializeMember(sorted[i])));
      Ok(Lit("{") + Join(pairs) + Lit("}"))
    case Other => Err(UnsupportedType)
  }

  /** One `key:value` pair of an object. */
  function SerializeMember(m: Member): Result<Text, Error>
    decreases m
  {
    var value :- Serialize(m.value);
    Ok(Quote(m.key) + Lit(":") + value)
  }

  /** `canonicalize`: the UTF-8 bytes of the canonical text. */
  function Canonicalize(v: Json): Result<Bytes, Error> {
    var text :- Serialize(v);
    match Utf8.Encode(text)
    case Ok(bytes) => Ok(bytes)
    case Err(_) => Err(NotEncodable)
  }
}
