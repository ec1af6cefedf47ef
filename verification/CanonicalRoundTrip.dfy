/** The parser inverts the printer, up to the order in which the printer lists the members of objects. */
module CanonicalRoundTrip {
  import opened Basics
  import opened Json
  import opened Numerals
  import opened Canonical
  import opened CanonicalParser

  /** The value with the members of every object in printed order. */
  function Normal(v: Json): Json
    decreases v
  {
    match v
    case Arr(items) => Arr(seq(|items|, i requires 0 <= i < |items| => Normal(items[i])))
    case Obj(ms) =>
      var sorted := SortMembers(ms);
      Obj(seq(|sorted|, i requires 0 <= i < |sorted| => NormalMember(sorted[i])))
    case _ => v
  }

  function NormalMember(m: Member): Member
    decreases m
  {
    Member(m.key, Normal(m.value))
  }

  /** A number ends where the digits end; every other value ends by itself. */
  predicate Delimited(rest: Text) {
    rest == [] || !IsDigit(rest[0])
  }

  lemma ParseEscapeOfEscape(c: CodePoint, rest: Text)
    ensures |Escape(c)| == 1 ==> Escape(c) == [c] && c != QUOTE && c != BACKSLASH
    ensures |Escape(c)| > 1 ==> Escape(c)[0] == BACKSLASH && ParseEscape(Escape(c)[1..] + rest) == Got(c, rest)
  {
    if |Escape(c)| > 1 {
      var s := Escape(c)[1..] + rest;
      if |Escape(c)| == 6 {
        assert s[5..] == rest;
        assert HexValue(s[3]) == Some(c / 16) && HexValue(s[4]) == Some(c % 16);
      } else {
        assert s[1..] == rest;
      }
    }
  }

  lemma {:induction false} StringRoundTrip(s: Text, rest: Text)
    ensures ParseString(EscapeAll(s) + [QUOTE] + rest) == Got(s, rest)
  {
    hide Escape, ParseEscape;
    var text := EscapeAll(s) + [QUOTE] + rest;
    if s == [] {
      assert text == [QUOTE] + rest;
      assert text[1..] == rest;
    } else {
      var others := EscapeAll(s[1..]) + [QUOTE] + rest;
      assert text == Escape(s[0]) + others;
      assert text[1..] == Escape(s[0])[1..] + others;
      ParseEscapeOfEscape(s[0], others);
      StringRoundTrip(s[1..], rest);
      if |Escape(s[0])| == 1 {
        assert text[1..] == others;
      }
      assert s == [s[0]] + s[1..];
    }
  }

  lemma IntRoundTrip(n: int, rest: Text)
    requires Delimited(rest)
    ensures ParseInt(Decimal(n) + rest) == Got(n, rest)
    ensures (Decimal(n) + rest)[0] == 0x2D || IsDigit((Decimal(n) + rest)[0])
  {
    hide Digits, DigitSpan, NumberOf;
    var s := Decimal(n) + rest;
    var ds := Digits(if n < 0 then -n else n);
    if n < 0 {
      assert s[1..] == ds + rest;
    }
    DigitSpanAppend(ds, rest);
    NumberOfDigits(if n < 0 then -n else n);
    assert (ds + rest)[..|ds|] == ds && (ds + rest)[|ds|..] == rest;
  }

  /** Printing a value gives text that starts like no closing bracket. */
  lemma SerializeStart(v: Json)
    requires Serialize(v).Ok?
    ensures Serialize(v).value != []
    ensures Serialize(v).value[0] != 0x5D && Serialize(v).value[0] != 0x7D
  {
    match v
    case Int(n) => IntRoundTrip(n, []); assert Decimal(n) + [] == Decimal(n);
    case _ =>
  }

  lemma JoinCons(parts: seq<Text>)
    requires |parts| > 1
    ensures Join(parts) == parts[0] + Lit(",") + Join(parts[1..])
  {
  }

  lemma ScalarRoundTrip(v: Json, rest: Text)
    requires v.Null? || v.Bool? || v.Int? || v.Str?
    requires Delimited(rest)
    ensures ParseValue(Serialize(v).value + rest) == Got(v, rest)
  {
    hide ParseItems, ParseMembers, ParseInt, ParseString, Decimal, EscapeAll;
    var s := Serialize(v).value + rest;
    match v
    case Null => assert s[4..] == rest;
    case Bool(b) =>
      assert s[0] == (if b then 0x74 else 0x66);
      assert if b then s[..4] == Lit("true") && s[4..] == rest else s[..5] == Lit("false") && s[5..] == rest;
    case Int(n) => IntRoundTrip(n, rest);
    case Str(t) =>
      StringRoundTrip(t, rest);
      assert s[1..] == EscapeAll(t) + [QUOTE] + rest;
  }

  lemma ParseBracket(s: Text, vs: seq<Json>, rest: Text)
    requires s != [] && s[0] != 0x5D && ParseItems(s) == Got(vs, rest)
    ensures ParseValue(Lit("[") + s) == Got(Arr(vs), rest)
  {
    hide ParseItems, ParseMembers, ParseInt, ParseString;
    assert (Lit("[") + s)[1..] == s;
  }

  lemma ParseBrace(s: Text, ms: seq<Member>, rest: Text)
    requires s != [] && s[0] == QUOTE && ParseMembers(s) == Got(ms, rest)
    ensures ParseValue(Lit("{") + s) == Got(Obj(ms), rest)
  {
    hide ParseItems, ParseMembers, ParseInt, ParseString;
    assert (Lit("{") + s)[1..] == s;
  }

  lemma ParseEmpty(rest: Text)
    ensures ParseValue(Lit("[") + Lit("]") + rest) == Got(Arr([]), rest)
    ensures ParseValue(Lit("{") + Lit("}") + rest) == Got(Obj([]), rest)
  {
    assert (Lit("[") + Lit("]") + rest)[2..] == rest;
    assert (Lit("{") + Lit("}") + rest)[2..] == rest;
  }

  /** The texts of the elements of an array, or of the pairs of an object in printed order. */
  lemma SerializeParts(v: Json) returns (parts: seq<Text>)
    requires Serialize(v).Ok? && (v.Arr? || v.Obj?)
    ensures v.Arr? ==> |parts| == |v.items| && (forall i | 0 <= i < |parts| :: Serialize(v.items[i]) == Ok(parts[i]))
    ensures v.Arr? ==> Serialize(v).value == Lit("[") + Join(parts) + Lit("]")
    ensures v.Obj? ==> var ms := SortMembers(v.members);
                       |parts| == |ms| && forall i | 0 <= i < |parts| :: SerializeMember(ms[i]) == Ok(parts[i])
    ensures v.Obj? ==> Serialize(v).value == Lit("{") + Join(parts) + Lit("}")
  {
    match v
    case Arr(items) =>
      var results := seq(|items|, i requires 0 <= i < |items| => Serialize(items[i]));
      parts := Collect(results).value;
      assert forall i | 0 <= i < |parts| :: results[i] == Ok(parts[i]);
    case Obj(ms) =>
      var sorted := SortMembers(ms);
      var results := seq(|sorted|, i requires 0 <= i < |sorted| => SerializeMember(sorted[i]));
      parts := Collect(results).value;
      assert forall i | 0 <= i < |parts| :: results[i] == Ok(parts[i]);
  }

  lemma {:induction false} RoundTrip(v: Json, rest: Text)
    requires Serialize(v).Ok?
    requires Delimited(rest)
    ensures ParseValue(Serialize(v).value + rest) == Got(Normal(v), rest)
    decreases v, 2
  {
    if v.Arr? {
      ArrayRoundTrip(v, rest);
    } else if v.Obj? {
      ObjectRoundTrip(v, rest);
    } else {
      hide ParseValue;
      ScalarRoundTrip(v, rest);
    }
  }

  lemma {:induction false} ArrayRoundTrip(v: Json, rest: Text)
    requires v.Arr? && Serialize(v).Ok?
    ensures ParseValue(Serialize(v).value + rest) == Got(Normal(v), rest)
    decreases v, 1
  {
    hide Serialize, ParseValue, ParseItems;
    var parts := SerializeParts(v);
    assert Normal(v) == Arr(Normals(v.items));
    if parts == [] {
      ParseEmpty(rest);
      assert Normals(v.items) == [];
      assert Lit("[") + Join(parts) + Lit("]") == Lit("[") + Lit("]");
    } else {
      ItemsRoundTrip(v, v.items, parts, rest);
      ParseBracket(Join(parts) + Lit("]") + rest, Normals(v.items), rest);
      assert Serialize(v).value + rest == Lit("[") + (Join(parts) + Lit("]") + rest);
    }
  }

  lemma {:induction false} ObjectRoundTrip(v: Json, rest: Text)
    requires v.Obj? && Serialize(v).Ok?
    ensures ParseValue(Serialize(v).value + rest) == Got(Normal(v), rest)
    decreases v, 1
  {
    hide Serialize, SerializeMember, ParseValue, ParseMembers, SortMembers;
    var ms := SortMembers(v.members);
    var pairs := SerializeParts(v);
    assert Normal(v) == Obj(NormalMembers(ms));
    if pairs == [] {
      ParseEmpty(rest);
      assert NormalMembers(ms) == [];
      assert Lit("{") + Join(pairs) + Lit("}") == Lit("{") + Lit("}");
    } else {
      assert forall i | 0 <= i < |ms| :: ms[i].value < v;
      MembersRoundTrip(v, ms, pairs, rest);
      ParseBrace(Join(pairs) + Lit("}") + rest, NormalMembers(ms), rest);
      assert Serialize(v).value + rest == Lit("{") + (Join(pairs) + Lit("}") + rest);
    }
  }

  // One step of each list parser, stated on any text.

  lemma LastItem(s: Text, v: Json, rest: Text)
    requires ParseValue(s) == Got(v, Lit("]") + rest)
    ensures ParseItems(s) == Got([v], rest)
  {
    assert (Lit("]") + rest)[1..] == rest;
  }

  lemma NextItem(s: Text, v: Json, s': Text, vs: seq<Json>, rest: Text)
    requires ParseValue(s) == Got(v, Lit(",") + s')
    requires ParseItems(s') == Got(vs, rest)
    ensures ParseItems(s) == Got([v] + vs, rest)
  {
    assert (Lit(",") + s')[1..] == s';
  }

  lemma LastMember(s: Text, m: Member, rest: Text)
    requires ParseMember(s) == Got(m, Lit("}") + rest)
    ensures ParseMembers(s) == Got([m], rest)
  {
    assert (Lit("}") + rest)[1..] == rest;
  }

  lemma NextMember(s: Text, m: Member, s': Text, ms: seq<Member>, rest: Text)
    requires ParseMember(s) == Got(m, Lit(",") + s')
    requires ParseMembers(s') == Got(ms, rest)
    ensures ParseMembers(s) == Got([m] + ms, rest)
  {
    assert (Lit(",") + s')[1..] == s';
  }

  lemma KeyThenValue(s: Text, k: Text, s': Text, v: Json, rest: Text)
    requires s != [] && s[0] == QUOTE
    requires ParseString(s[1..]) == Got(k, Lit(":") + s')
    requires ParseValue(s') == Got(v, rest)
    ensures ParseMember(s) == Got(Member(k, v), rest)
  {
    assert (Lit(":") + s')[1..] == s';
  }

  function Normals(items: seq<Json>): seq<Json> {
    seq(|items|, i requires 0 <= i < |items| => Normal(items[i]))
  }

  function NormalMembers(ms: seq<Member>): seq<Member> {
    seq(|ms|, i requires 0 <= i < |ms| => NormalMember(ms[i]))
  }

  lemma {:induction false} ItemsRoundTrip(v: Json, items: seq<Json>, parts: seq<Text>, rest: Text)
    requires |items| == |parts| > 0
    requires forall i | 0 <= i < |items| :: items[i] < v && Serialize(items[i]) == Ok(parts[i])
    ensures Join(parts) != [] && Join(parts)[0] != 0x5D
    ensures ParseItems(Join(parts) + Lit("]") + rest) == Got(Normals(items), rest)
    decreases v, 0, |items|
  {
    hide Serialize, ParseValue, ParseItems, Normal;
    var s := Join(parts) + Lit("]") + rest;
    SerializeStart(items[0]);
    if |items| == 1 {
      assert s == parts[0] + (Lit("]") + rest);
      RoundTrip(items[0], Lit("]") + rest);
      LastItem(s, Normal(items[0]), rest);
      assert Normals(items) == [Normal(items[0])];
    } else {
      var s' := Join(parts[1..]) + Lit("]") + rest;
      JoinCons(parts);
      assert s == parts[0] + (Lit(",") + s');
      RoundTrip(items[0], Lit(",") + s');
      ItemsRoundTrip(v, items[1..], parts[1..], rest);
      NextItem(s, Normal(items[0]), s', Normals(items[1..]), rest);
      assert Normals(items) == [Normal(items[0])] + Normals(items[1..]);
    }
  }

  lemma {:induction false} MemberRoundTrip(v: Json, m: Member, text: Text, rest: Text)
    requires m.value < v && SerializeMember(m) == Ok(text)
    requires Delimited(rest)
    ensures ParseMember(text + rest) == Got(NormalMember(m), rest)
    ensures text != [] && text[0] == QUOTE
    decreases v, 0, 0
  {
    hide Serialize, ParseMember, ParseString, ParseValue, Normal, EscapeAll;
    var value := Serialize(m.value).value;
    assert text == Quote(m.key) + Lit(":") + value;
    var s, s' := text + rest, value + rest;
    assert s[1..] == EscapeAll(m.key) + [QUOTE] + (Lit(":") + s');
    StringRoundTrip(m.key, Lit(":") + s');
    RoundTrip(m.value, rest);
    KeyThenValue(s, m.key, s', Normal(m.value), rest);
  }

  lemma {:induction false} MembersRoundTrip(v: Json, ms: seq<Member>, pairs: seq<Text>, rest: Text)
    requires |ms| == |pairs| > 0
    requires forall i | 0 <= i < |ms| :: ms[i].value < v && SerializeMember(ms[i]) == Ok(pairs[i])
    ensures Join(pairs) != [] && Join(pairs)[0] == QUOTE
    ensures ParseMembers(Join(pairs) + Lit("}") + rest) == Got(NormalMembers(ms), rest)
    decreases v, 0, |ms|
  {
    hide SerializeMember, ParseMember, ParseMembers, NormalMember;
    var s := Join(pairs) + Lit("}") + rest;
    if |ms| == 1 {
      assert s == pairs[0] + (Lit("}") + rest);
      MemberRoundTrip(v, ms[0], pairs[0], Lit("}") + rest);
      LastMember(s, NormalMember(ms[0]), rest);
      assert NormalMembers(ms) == [NormalMember(ms[0])];
    } else {
      var s' := Join(pairs[1..]) + Lit("}") + rest;
      JoinCons(pairs);
      assert s == pairs[0] + (Lit(",") + s');
      MemberRoundTrip(v, ms[0], pairs[0], Lit(",") + s');
      MembersRoundTrip(v, ms[1..], pairs[1..], rest);
      NextMember(s, NormalMember(ms[0]), s', NormalMembers(ms[1..]), rest);
      assert NormalMembers(ms) == [NormalMember(ms[0])] + NormalMembers(ms[1..]);
    }
  }

  /** Parsing a canonical text gives back the value, members in printed order. */
  lemma ParseSerialize(v: Json)
    requires Serialize(v).Ok?
    ensures Parse(Serialize(v).value) == Some(Normal(v))
  {
    RoundTrip(v, []);
    assert Serialize(v).value + [] == Serialize(v).value;
  }
}
