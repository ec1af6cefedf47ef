/** What the canonical form is for: equal bytes exactly for equal JSON values. */
module CanonicalTheorems {
  import opened Basics
  import opened Json
  import opened KeyOrder
  import opened Canonical
  import opened CanonicalParser
  import opened CanonicalRoundTrip
  import Numerals
  import Utf8

  // ----- sorting -----

  lemma {:induction false} InsertSorted(m: Member, ms: seq<Member>)
    requires Sorted(ms)
    ensures Sorted(Insert(m, ms))
  {
    hide Compare;
    if ms == [] {
    } else if Compare(m.key, ms[0].key) <= 0 {
      forall j | 0 <= j < |ms| ensures Compare(m.key, ms[j].key) <= 0 {
        if j > 0 {
          CompareTransitive(m.key, ms[0].key, ms[j].key);
        }
      }
    } else {
      InsertSorted(m, ms[1..]);
      var r := Insert(m, ms[1..]);
      CompareFlip(ms[0].key, m.key);
      forall j | 0 <= j < |r| ensures Compare(ms[0].key, r[j].key) <= 0 {
        assert r[j] in multiset(r);
        assert r[j] == m || r[j] in ms[1..];
      }
    }
  }

  lemma CompareTransitive(a: Text, b: Text, c: Text)
    requires Compare(a, b) <= 0 && Compare(b, c) <= 0
    ensures Compare(a, c) <= 0
    ensures Compare(a, b) < 0 || Compare(b, c) < 0 ==> Compare(a, c) < 0
  {
    LexTransitive(Units(a), Units(b), Units(c));
  }

  lemma CompareFlip(a: Text, b: Text)
    ensures Compare(a, b) == -Compare(b, a)
  {
    LexAntisymmetric(Units(a), Units(b));
  }

  lemma {:induction false} SortMembersSorted(ms: seq<Member>)
    ensures Sorted(SortMembers(ms))
  {
    hide Compare, Insert;
    if ms != [] {
      SortMembersSorted(ms[1..]);
      InsertSorted(ms[0], SortMembers(ms[1..]));
    }
  }

  // ----- members in printed order -----

  function Keys(ms: seq<Member>): seq<Text> {
    seq(|ms|, i requires 0 <= i < |ms| => ms[i].key)
  }

  predicate Ascending(ks: seq<Text>) {
    forall i, j | 0 <= i < j < |ks| :: Compare(ks[i], ks[j]) < 0
  }

  /** Rearranging members keeps their keys distinct. */
  lemma PermutationKeepsDistinctKeys(ms: seq<Member>, ns: seq<Member>)
    requires multiset(ms) == multiset(ns)
    requires DistinctKeys(ms)
    ensures DistinctKeys(ns)
  {
    forall i, j | 0 <= i < j < |ns| ensures ns[i].key != ns[j].key {
      assert ns[i] in multiset(ns) && ns[j] in multiset(ns);
      var a :| 0 <= a < |ms| && ms[a] == ns[i];
      var b :| 0 <= b < |ms| && ms[b] == ns[j];
      if a == b {
        TwiceInMultiset(ns, i, j);
        OnceInMultiset(ms, a);
      }
    }
  }

  lemma TwiceInMultiset<T>(s: seq<T>, i: nat, j: nat)
    requires i < j < |s| && s[i] == s[j]
    ensures multiset(s)[s[i]] >= 2
  {
    assert s == s[..j] + [s[j]] + s[j + 1..];
    assert s[i] in s[..j];
    assert multiset(s) == multiset(s[..j]) + multiset{s[j]} + multiset(s[j + 1..]);
  }

  lemma OnceInMultiset(ms: seq<Member>, a: nat)
    requires a < |ms| && DistinctKeys(ms)
    ensures multiset(ms)[ms[a]] == 1
  {
    assert ms == ms[..a] + [ms[a]] + ms[a + 1..];
    assert ms[a] !in ms[..a] && ms[a] !in ms[a + 1..];
    assert multiset(ms) == multiset(ms[..a]) + multiset{ms[a]} + multiset(ms[a + 1..]);
  }

  /** Keys that UTF-16 tells apart. */
  predicate PlainKeys(ms: seq<Member>) {
    forall i | 0 <= i < |ms| :: !HasSplitPair(ms[i].key)
  }

  lemma SortedKeysAscend(ms: seq<Member>)
    requires DistinctKeys(ms) && PlainKeys(ms)
    ensures Ascending(Keys(SortMembers(ms)))
    ensures forall k :: k in Keys(SortMembers(ms)) <==> HasKey(ms, k)
  {
    hide SortMembers, Compare, HasSplitPair;
    var r := SortMembers(ms);
    SortMembersSorted(ms);
    PermutationKeepsDistinctKeys(ms, r);
    forall i, j | 0 <= i < j < |r| ensures Compare(Keys(r)[i], Keys(r)[j]) < 0 {
      CompareIsTotalOrder(r[i].key, r[j].key, r[i].key);
    }
    forall k ensures k in Keys(r) <==> HasKey(ms, k) {
      if k in Keys(r) {
        var i :| 0 <= i < |r| && r[i].key == k;
        assert r[i] in ms;
      }
      if HasKey(ms, k) {
        var i :| 0 <= i < |ms| && ms[i].key == k;
        assert ms[i] in multiset(r);
        var j :| 0 <= j < |r| && r[j] == ms[i];
        assert Keys(r)[j] == k;
      }
    }
  }

  lemma NonemptyHasElement(ks: seq<Text>)
    ensures ks != [] ==> exists k :: k in ks
  {
    if ks != [] {
      assert ks[0] in ks;
    }
  }

  lemma {:induction false} AscendingUnique(a: seq<Text>, b: seq<Text>)
    requires Ascending(a) && Ascending(b)
    requires forall k :: k in a <==> k in b
    ensures a == b
  {
    hide Compare;
    NonemptyHasElement(b);
    if a != [] {
      assert a[0] in b;
      var j :| 0 <= j < |b| && b[j] == a[0];
      assert b[0] in a;
      var i :| 0 <= i < |a| && a[i] == b[0];
      CompareFlip(a[0], b[0]);
      CompareFlip(a[0], a[0]);
      assert a[0] == b[0];
      forall k ensures k in a[1..] <==> k in b[1..] {
        assert k in a <==> k == a[0] || k in a[1..];
        assert k in b <==> k == b[0] || k in b[1..];
        assert a[0] !in a[1..];
        assert b[0] !in b[1..];
      }
      AscendingUnique(a[1..], b[1..]);
      assert a == [a[0]] + a[1..] && b == [b[0]] + b[1..];
    }
  }

  // ----- equal values print alike -----

  /** Every string and key of the value can be encoded. */
  predicate AllScalar(v: Json) {
    match v
    case Str(s) => Utf8.Scalar(s)
    case Arr(items) => forall i | 0 <= i < |items| :: AllScalar(items[i])
    case Obj(ms) => forall i | 0 <= i < |ms| :: Utf8.Scalar(ms[i].key) && AllScalar(ms[i].value)
    case _ => true
  }

  lemma ScalarMembersArePlain(ms: seq<Member>)
    requires AllScalar(Obj(ms))
    ensures PlainKeys(ms)
  {
    forall i | 0 <= i < |ms| ensures !HasSplitPair(ms[i].key) {
      ScalarHasNoSplitPair(ms[i].key);
    }
  }

  /** Each key comes before all later ones in the order of section 3.2.3 of RFC 8785. */
  predicate InUnitOrder(ms: seq<Member>) {
    forall i, j | 0 <= i < j < |ms| :: UnitsBefore(ms[i].key, ms[j].key)
  }

  /** The members of a dict are printed in the order of their UTF-16 code units. */
  lemma PrintedInUnitOrder(ms: seq<Member>)
    requires DistinctKeys(ms) && PlainKeys(ms)
    ensures InUnitOrder(SortMembers(ms)) && multiset(SortMembers(ms)) == multiset(ms)
  {
    hide SortMembers, Compare, HasSplitPair, UnitsBefore;
    var r := SortMembers(ms);
    SortedKeysAscend(ms);
    forall i, j | 0 <= i < j < |r| ensures UnitsBefore(r[i].key, r[j].key) {
      assert Compare(Keys(r)[i], Keys(r)[j]) < 0;
      CompareIsUnitOrder(r[i].key, r[j].key);
    }
  }

  /** Every object in the value, at any depth, has its members in that order. */
  predicate InOrderThroughout(v: Json) {
    match v
    case Arr(items) => forall i | 0 <= i < |items| :: InOrderThroughout(items[i])
    case Obj(ms) => InUnitOrder(ms) && forall i | 0 <= i < |ms| :: InOrderThroughout(ms[i].value)
    case _ => true
  }

  lemma {:induction false} NormalInOrder(v: Json)
    requires WellFormed(v) && AllScalar(v)
    ensures InOrderThroughout(Normal(v))
    decreases v
  {
    hide SortMembers, UnitsBefore, DistinctKeys, PlainKeys, Utf8.Scalar, InUnitOrder;
    match v
    case Arr(items) =>
      forall i | 0 <= i < |items| ensures InOrderThroughout(Normal(items[i])) {
        NormalInOrder(items[i]);
      }
    case Obj(ms) =>
      var r := SortMembers(ms);
      ScalarMembersArePlain(ms);
      PrintedInUnitOrder(ms);
      NormalKeepsKeys(ms);
      SameKeysSameOrder(r, Normal(v).members);
      forall i | 0 <= i < |r| ensures InOrderThroughout(Normal(r[i].value)) {
        assert r[i] in ms;
        NormalInOrder(r[i].value);
      }
    case _ =>
  }

  lemma NormalKeepsKeys(ms: seq<Member>)
    ensures Normal(Obj(ms)).Obj? && |Normal(Obj(ms)).members| == |SortMembers(ms)|
    ensures forall i | 0 <= i < |SortMembers(ms)| ::
              Normal(Obj(ms)).members[i].key == SortMembers(ms)[i].key
  {
    hide SortMembers;
  }

  lemma SameKeysSameOrder(ms: seq<Member>, ns: seq<Member>)
    requires |ms| == |ns| && (forall i | 0 <= i < |ms| :: ms[i].key == ns[i].key) && InUnitOrder(ms)
    ensures InUnitOrder(ns)
  {
    hide UnitsBefore;
  }

  /** A reader of the canonical text meets the keys of every object, at any depth, in the order of their UTF-16 code units. */
  lemma TextInUnitOrder(v: Json)
    requires WellFormed(v) && AllScalar(v) && Serialize(v).Ok?
    ensures Parse(Serialize(v).value).Some? && InOrderThroughout(Parse(Serialize(v).value).value)
  {
    hide Serialize, Parse, InOrderThroughout;
    ParseSerialize(v);
    NormalInOrder(v);
  }

  /** Objects with the same keys list them in the same order, however they were built. */
  lemma SameKeysSortAlike(ms: seq<Member>, ns: seq<Member>)
    requires DistinctKeys(ms) && PlainKeys(ms) && DistinctKeys(ns) && PlainKeys(ns)
    requires SameKeys(ms, ns)
    ensures Keys(SortMembers(ms)) == Keys(SortMembers(ns))
  {
    hide SortMembers, Ascending, HasSplitPair;
    SortedKeysAscend(ms);
    SortedKeysAscend(ns);
    forall k ensures HasKey(ms, k) <==> HasKey(ns, k) {
      if HasKey(ms, k) {
        var i :| 0 <= i < |ms| && ms[i].key == k;
        assert HasKey(ns, ms[i].key);
      }
      if HasKey(ns, k) {
        var i :| 0 <= i < |ns| && ns[i].key == k;
        assert HasKey(ms, ns[i].key);
      }
    }
    AscendingUnique(Keys(SortMembers(ms)), Keys(SortMembers(ns)));
  }

  lemma ArraysPrintAlike(xs: seq<Json>, ys: seq<Json>)
    requires |xs| == |ys| && forall i | 0 <= i < |xs| :: Serialize(xs[i]) == Serialize(ys[i])
    ensures Serialize(Arr(xs)) == Serialize(Arr(ys))
  {
    assert seq(|xs|, i requires 0 <= i < |xs| => Serialize(xs[i])) == seq(|ys|, i requires 0 <= i < |ys| => Serialize(ys[i]));
  }

  lemma ObjectsPrintAlike(ms: seq<Member>, ns: seq<Member>)
    requires |ms| == |ns|
    requires forall i | 0 <= i < |ms| :: SerializeMember(SortMembers(ms)[i]) == SerializeMember(SortMembers(ns)[i])
    ensures Serialize(Obj(ms)) == Serialize(Obj(ns))
  {
    hide SerializeMember, SortMembers;
    var r, s := SortMembers(ms), SortMembers(ns);
    assert seq(|r|, i requires 0 <= i < |r| => SerializeMember(r[i])) == seq(|s|, i requires 0 <= i < |s| => SerializeMember(s[i]));
  }

  /** Values that are equal as JSON print alike, whatever the insertion orders. */
  lemma {:induction false} SamePrintsAlike(v: Json, w: Json)
    requires WellFormed(v) && WellFormed(w) && AllScalar(v) && AllScalar(w)
    requires Same(v, w)
    ensures Serialize(v) == Serialize(w)
    decreases v, 1
  {
    hide Serialize, DistinctKeys, Utf8.Scalar;
    match (v, w)
    case (Arr(xs), Arr(ys)) =>
      forall i | 0 <= i < |xs| ensures Serialize(xs[i]) == Serialize(ys[i]) {
        SamePrintsAlike(xs[i], ys[i]);
      }
      ArraysPrintAlike(xs, ys);
    case (Obj(ms), Obj(ns)) =>
      SameObjectsPrintAlike(v, w);
    case _ =>
  }

  lemma {:induction false} SameObjectsPrintAlike(v: Json, w: Json)
    requires v.Obj? && w.Obj?
    requires WellFormed(v) && WellFormed(w) && AllScalar(v) && AllScalar(w)
    requires Same(v, w)
    ensures Serialize(v) == Serialize(w)
    decreases v, 0
  {
    hide Serialize, SortMembers, PlainKeys, DistinctKeys, Utf8.Scalar;
    var ms, ns := v.members, w.members;
    var r, s := SortMembers(ms), SortMembers(ns);
    SortedMembersAlign(ms, ns);
    forall i | 0 <= i < |r| ensures SerializeMember(r[i]) == SerializeMember(s[i]) {
      var a, b := MembersAt(ms, ns, i);
      SamePrintsAlike(ms[a].value, ns[b].value);
    }
    ObjectsPrintAlike(ms, ns);
  }

  lemma SortedMembersAlign(ms: seq<Member>, ns: seq<Member>)
    requires WellFormed(Obj(ms)) && WellFormed(Obj(ns)) && AllScalar(Obj(ms)) && AllScalar(Obj(ns))
    requires SameKeys(ms, ns)
    ensures |ms| == |ns|
    ensures Keys(SortMembers(ms)) == Keys(SortMembers(ns))
  {
    hide SortMembers, PlainKeys, DistinctKeys, Utf8.Scalar;
    ScalarMembersArePlain(ms);
    ScalarMembersArePlain(ns);
    SameKeysSortAlike(ms, ns);
    assert |Keys(SortMembers(ms))| == |Keys(SortMembers(ns))|;
  }

  /** Where the members printed in place `i` come from. */
  lemma MembersAt(ms: seq<Member>, ns: seq<Member>, i: nat) returns (a: nat, b: nat)
    requires |ms| == |ns| && i < |ms|
    requires Keys(SortMembers(ms)) == Keys(SortMembers(ns))
    ensures a < |ms| && ms[a] == SortMembers(ms)[i]
    ensures b < |ns| && ns[b] == SortMembers(ns)[i]
    ensures ms[a].key == ns[b].key
  {
    hide SortMembers;
    a :| 0 <= a < |ms| && ms[a] == SortMembers(ms)[i];
    b :| 0 <= b < |ns| && ns[b] == SortMembers(ns)[i];
    assert Keys(SortMembers(ms))[i] == Keys(SortMembers(ns))[i];
  }

  // ----- different values print differently -----

  /** Values with equal normal forms are equal as JSON. */
  lemma {:induction false} NormalIsSame(v: Json, w: Json)
    requires WellFormed(v) && WellFormed(w)
    requires Normal(v) == Normal(w)
    ensures Same(v, w)
    decreases v
  {
    hide SortMembers;
    match (v, w)
    case (Arr(xs), Arr(ys)) =>
      assert Normals(xs) == Normals(ys);
      forall i | 0 <= i < |xs| ensures Same(xs[i], ys[i]) {
        assert Normals(xs)[i] == Normals(ys)[i];
        NormalIsSame(xs[i], ys[i]);
      }
    case (Obj(ms), Obj(ns)) =>
      NormalObjects(ms, ns);
      forall i, j | 0 <= i < |ms| && 0 <= j < |ns| && ms[i].key == ns[j].key ensures Same(ms[i].value, ns[j].value) {
        NormalIsSame(ms[i].value, ns[j].value);
      }
    case _ =>
  }

  /** Objects with equal normal forms have the same keys, with values of equal normal forms. */
  lemma NormalObjects(ms: seq<Member>, ns: seq<Member>)
    requires DistinctKeys(ms) && DistinctKeys(ns)
    requires Normal(Obj(ms)) == Normal(Obj(ns))
    ensures SameKeys(ms, ns)
    ensures forall i, j | 0 <= i < |ms| && 0 <= j < |ns| && ms[i].key == ns[j].key :: Normal(ms[i].value) == Normal(ns[j].value)
  {
    assert NormalMembers(SortMembers(ms)) == NormalMembers(SortMembers(ns)) by {
      hide SortMembers;
      assert Normal(Obj(ms)) == Obj(NormalMembers(SortMembers(ms)));
      assert Normal(Obj(ns)) == Obj(NormalMembers(SortMembers(ns)));
    }
    hide SortMembers, Normal;
    forall i | 0 <= i < |ms|
      ensures HasKey(ns, ms[i].key)
      ensures forall j | 0 <= j < |ns| && ms[i].key == ns[j].key :: Normal(ms[i].value) == Normal(ns[j].value)
    {
      var _ := NormalCounterpart(ms, ns, i);
    }
    forall j | 0 <= j < |ns| ensures HasKey(ms, ns[j].key) {
      var _ := NormalCounterpart(ns, ms, j);
    }
  }

  lemma NormalCounterpart(ms: seq<Member>, ns: seq<Member>, i: nat) returns (j: nat)
    requires i < |ms|
    requires NormalMembers(SortMembers(ms)) == NormalMembers(SortMembers(ns))
    ensures j < |ns| && ns[j].key == ms[i].key && Normal(ns[j].value) == Normal(ms[i].value)
  {
    hide SortMembers, Normal;
    var r, s := SortMembers(ms), SortMembers(ns);
    assert |r| == |NormalMembers(r)| == |NormalMembers(s)| == |s|;
    assert ms[i] in multiset(r);
    var a :| 0 <= a < |r| && r[a] == ms[i];
    assert NormalMembers(r)[a] == NormalMembers(s)[a];
    assert s[a] in ns;
    j :| 0 <= j < |ns| && ns[j] == s[a];
  }

  // ----- what can be encoded -----

  lemma ScalarConcat(s: Text, t: Text)
    ensures Utf8.Scalar(s + t) <==> Utf8.Scalar(s) && Utf8.Scalar(t)
  {
    var u := s + t;
    assert forall i | 0 <= i < |s| :: s[i] == u[i];
    assert forall i | 0 <= i < |t| :: t[i] == u[|s| + i];
  }

  lemma {:induction false} ScalarJoin(parts: seq<Text>)
    ensures Utf8.Scalar(Join(parts)) <==> forall i | 0 <= i < |parts| :: Utf8.Scalar(parts[i])
  {
    hide Utf8.Scalar;
    if parts == [] {
      assert Utf8.Scalar([]) by { ScalarEmpty(); }
    } else if |parts| > 1 {
      var later := parts[1..];
      ScalarJoin(later);
      ScalarConcat(parts[0] + Lit(","), Join(later));
      ScalarConcat(parts[0], Lit(","));
      ScalarComma();
      assert forall i | 0 < i < |parts| :: parts[i] == later[i - 1];
    }
  }

  lemma ScalarEmpty()
    ensures Utf8.Scalar([])
  {
  }

  lemma ScalarQuoteMark()
    ensures Utf8.Scalar([QUOTE])
  {
  }

  lemma ScalarComma()
    ensures Utf8.Scalar(Lit(","))
  {
  }

  lemma ScalarEscape(c: CodePoint)
    ensures Utf8.Scalar(Escape(c)) <==> Utf8.Scalar([c])
  {
    if Utf8.IsSurrogate(c) {
      assert Escape(c) == [c];
    } else {
      assert [c][0] == c;
    }
  }

  lemma {:induction false} ScalarQuote(s: Text)
    ensures Utf8.Scalar(EscapeAll(s)) <==> Utf8.Scalar(s)
    ensures Utf8.Scalar(Quote(s)) <==> Utf8.Scalar(s)
  {
    hide Escape, Utf8.Scalar;
    ScalarQuoteMark();
    if s != [] {
      ScalarQuote(s[1..]);
      ScalarConcat(Escape(s[0]), EscapeAll(s[1..]));
      ScalarEscape(s[0]);
      ScalarConcat([s[0]], s[1..]);
      assert s == [s[0]] + s[1..];
    }
    ScalarConcat([QUOTE], EscapeAll(s));
    ScalarConcat([QUOTE] + EscapeAll(s), [QUOTE]);
  }

  /** A surrogate anywhere in the value, and nothing else, stops its text from being encoded. */
  lemma {:induction false} ScalarText(v: Json)
    requires Serialize(v).Ok?
    ensures Utf8.Scalar(Serialize(v).value) <==> AllScalar(v)
    decreases v
  {
    if v.Arr? {
      ScalarArray(v);
    } else if v.Obj? {
      ScalarObject(v);
    } else if v.Str? {
      ScalarQuote(v.s);
    } else if v.Int? {
      DecimalIsScalar(v.n);
    }
  }

  lemma DecimalIsScalar(n: int)
    ensures Utf8.Scalar(Numerals.Decimal(n))
  {
  }

  lemma {:induction false} ScalarArray(v: Json)
    requires v.Arr? && Serialize(v).Ok?
    ensures Utf8.Scalar(Serialize(v).value) <==> AllScalar(v)
    decreases v, 0
  {
    hide Serialize;
    var parts := SerializeParts(v);
    forall i | 0 <= i < |parts| ensures Utf8.Scalar(parts[i]) <==> AllScalar(v.items[i]) {
      ScalarText(v.items[i]);
    }
    ScalarJoin(parts);
    ScalarConcat(Lit("["), Join(parts));
    ScalarConcat(Lit("[") + Join(parts), Lit("]"));
  }

  lemma {:induction false} ScalarObject(v: Json)
    requires v.Obj? && Serialize(v).Ok?
    ensures Utf8.Scalar(Serialize(v).value) <==> AllScalar(v)
    decreases v, 0
  {
    hide Serialize, SerializeMember, SortMembers, Utf8.Scalar, MemberScalar, AllScalar;
    var r := SortMembers(v.members);
    var parts := SerializeParts(v);
    forall i | 0 <= i < |parts| ensures Utf8.Scalar(parts[i]) <==> MemberScalar(r[i]) {
      MemberOk(r[i]);
      ScalarText(r[i].value);
      ScalarMember(r[i]);
      MemberScalarIs(r[i]);
    }
    ScalarJoin(parts);
    ScalarBraces(Join(parts));
    SortedScalar(v.members);
  }

  predicate MemberScalar(m: Member) {
    Utf8.Scalar(m.key) && AllScalar(m.value)
  }

  lemma MemberScalarIs(m: Member)
    ensures MemberScalar(m) <==> Utf8.Scalar(m.key) && AllScalar(m.value)
  {
  }

  lemma ObjectScalar(ms: seq<Member>)
    ensures AllScalar(Obj(ms)) <==> MembersScalar(ms)
  {
    hide Utf8.Scalar;
  }

  predicate MembersScalar(ms: seq<Member>) {
    forall i | 0 <= i < |ms| :: MemberScalar(ms[i])
  }

  lemma SameElementsScalar(ms: seq<Member>, ns: seq<Member>)
    requires multiset(ms) == multiset(ns) && MembersScalar(ms)
    ensures MembersScalar(ns)
  {
    hide MemberScalar;
    forall i | 0 <= i < |ns| ensures MemberScalar(ns[i]) {
      assert ns[i] in multiset(ms);
      var k :| 0 <= k < |ms| && ms[k] == ns[i];
    }
  }

  /** Sorting does not change whether an object is free of surrogates. */
  lemma SortedScalar(ms: seq<Member>)
    ensures AllScalar(Obj(ms)) <==> MembersScalar(SortMembers(ms))
  {
    hide SortMembers, AllScalar, MemberScalar;
    ObjectScalar(ms);
    if MembersScalar(ms) {
      SameElementsScalar(ms, SortMembers(ms));
    }
    if MembersScalar(SortMembers(ms)) {
      SameElementsScalar(SortMembers(ms), ms);
    }
  }

  lemma MemberOk(m: Member)
    ensures SerializeMember(m).Ok? <==> Serialize(m.value).Ok?
  {
    hide Serialize;
  }

  lemma ScalarMember(m: Member)
    requires SerializeMember(m).Ok?
    ensures Utf8.Scalar(SerializeMember(m).value) <==> Utf8.Scalar(m.key) && Utf8.Scalar(Serialize(m.value).value)
  {
    hide Serialize, EscapeAll;
    var value := Serialize(m.value).value;
    ScalarQuote(m.key);
    ScalarConcat(Quote(m.key) + Lit(":"), value);
    ScalarConcat(Quote(m.key), Lit(":"));
  }

  lemma ScalarBraces(t: Text)
    ensures Utf8.Scalar(Lit("{") + t + Lit("}")) <==> Utf8.Scalar(t)
  {
    ScalarConcat(Lit("{"), t);
    ScalarConcat(Lit("{") + t, Lit("}"));
  }

  // ----- the theorems -----

  /** Canonical text determines the value, and on encodable values the value determines the text. */
  lemma SerializeInjective(v: Json, w: Json)
    requires WellFormed(v) && WellFormed(w)
    requires Serialize(v).Ok? && Serialize(v) == Serialize(w)
    ensures Same(v, w)
  {
    hide Serialize;
    ParseSerialize(v);
    ParseSerialize(w);
    NormalIsSame(v, w);
  }

  lemma {:induction false} SameKeepsScalar(v: Json, w: Json)
    requires Same(v, w) && AllScalar(v)
    ensures AllScalar(w)
    decreases v
  {
    match (v, w)
    case (Arr(xs), Arr(ys)) =>
      forall i | 0 <= i < |xs| ensures AllScalar(ys[i]) {
        SameKeepsScalar(xs[i], ys[i]);
      }
    case (Obj(ms), Obj(ns)) =>
      forall j | 0 <= j < |ns| ensures Utf8.Scalar(ns[j].key) && AllScalar(ns[j].value) {
        assert HasKey(ms, ns[j].key);
        var i :| 0 <= i < |ms| && ms[i].key == ns[j].key;
        SameKeepsScalar(ms[i].value, ns[j].value);
      }
    case _ =>
  }

  /**
   * The canonical bytes are equal exactly when the values are equal as JSON. In particular they do
   * not depend on the order in which a dict was filled.
   */
  lemma CanonicalizeExact(v: Json, w: Json)
    requires WellFormed(v) && WellFormed(w)
    requires Canonicalize(v).Ok?
    ensures Canonicalize(v) == Canonicalize(w) <==> Same(v, w)
  {
    hide Serialize, Utf8.EncodeAll, Utf8.Scalar;
    ScalarText(v);
    if Same(v, w) {
      SameKeepsScalar(v, w);
      SamePrintsAlike(v, w);
    }
    if Canonicalize(v) == Canonicalize(w) {
      Utf8.EncodeAllInjective(Serialize(v).value, Serialize(w).value);
      SerializeInjective(v, w);
    }
  }

  /** Exactly the values without floats, foreign objects and surrogates have canonical bytes. */
  predicate Printable(v: Json) {
    match v
    case Float(_) => false
    case Other => false
    case Arr(items) => forall i | 0 <= i < |items| :: Printable(items[i])
    case Obj(ms) => forall i | 0 <= i < |ms| :: Printable(ms[i].value)
    case _ => true
  }

  lemma ArrayOkIff(items: seq<Json>)
    ensures Serialize(Arr(items)).Ok? <==> forall i | 0 <= i < |items| :: Serialize(items[i]).Ok?
  {
    var results := seq(|items|, i requires 0 <= i < |items| => Serialize(items[i]));
    assert Serialize(Arr(items)).Ok? <==> Collect(results).Ok?;
    assert forall i | 0 <= i < |items| :: results[i] == Serialize(items[i]);
  }

  lemma ObjectOkIff(ms: seq<Member>)
    ensures Serialize(Obj(ms)).Ok? <==> forall i | 0 <= i < |ms| :: SerializeMember(ms[i]).Ok?
  {
    hide SortMembers, SerializeMember;
    var r := SortMembers(ms);
    var results := seq(|r|, i requires 0 <= i < |r| => SerializeMember(r[i]));
    assert Serialize(Obj(ms)).Ok? <==> Collect(results).Ok?;
    assert forall i | 0 <= i < |r| :: results[i] == SerializeMember(r[i]);
    forall i | 0 <= i < |ms| ensures ms[i] in r {
      assert ms[i] in multiset(r);
    }
  }

  lemma {:induction false} SerializeOkIff(v: Json)
    ensures Serialize(v).Ok? <==> Printable(v)
    decreases v
  {
    match v
    case Arr(items) =>
      ArrayOkIff(items);
      forall i | 0 <= i < |items| ensures Serialize(items[i]).Ok? <==> Printable(items[i]) {
        SerializeOkIff(items[i]);
      }
    case Obj(ms) =>
      ObjectOkIff(ms);
      forall i | 0 <= i < |ms| ensures SerializeMember(ms[i]).Ok? <==> Printable(ms[i].value) {
        SerializeOkIff(ms[i].value);
      }
    case _ =>
  }

  lemma CanonicalizeOkIff(v: Json)
    ensures Canonicalize(v).Ok? <==> Printable(v) && AllScalar(v)
  {
    hide Serialize, Utf8.EncodeAll, Utf8.Scalar;
    SerializeOkIff(v);
    if Serialize(v).Ok? {
      ScalarText(v);
    }
  }

  /** Somewhere in the value is what the error names. */
  predicate Carries(v: Json, e: Error) {
    match v
    case Float(finite) => e == if finite then FloatForbidden else NotFinite
    case Other => e == UnsupportedType
    case Arr(items) => exists i | 0 <= i < |items| :: Carries(items[i], e)
    case Obj(ms) => exists i | 0 <= i < |ms| :: Carries(ms[i].value, e)
    case _ => false
  }

  lemma {:induction false} CollectedError<T>(results: seq<Result<T, Error>>)
    ensures Collect(results).Err? ==> exists i | 0 <= i < |results| :: results[i] == Err(Collect(results).error)
  {
    if results != [] && results[0].Ok? {
      CollectedError(results[1..]);
      if Collect(results).Err? {
        var i :| 0 <= i < |results[1..]| && results[1..][i] == Err(Collect(results[1..]).error);
        assert results[i + 1] == results[1..][i];
      }
    }
  }

  lemma {:induction false} SerializeErrorCarried(v: Json)
    requires Serialize(v).Err?
    ensures Carries(v, Serialize(v).error)
    decreases v
  {
    hide SortMembers;
    match v
    case Arr(items) =>
      var results := seq(|items|, i requires 0 <= i < |items| => Serialize(items[i]));
      CollectedError(results);
      var i :| 0 <= i < |results| && results[i] == Err(Serialize(v).error);
      SerializeErrorCarried(items[i]);
    case Obj(ms) =>
      var r := SortMembers(ms);
      var results := seq(|r|, i requires 0 <= i < |r| => SerializeMember(r[i]));
      CollectedError(results);
      var i :| 0 <= i < |results| && results[i] == Err(Serialize(v).error);
      assert r[i] in ms;
      SerializeErrorCarried(r[i].value);
    case _ =>
  }

  /** An error names something that is there: a float, finite or not, a foreign object, or a lone surrogate. */
  lemma ErrorNamesCause(v: Json)
    requires Canonicalize(v).Err?
    ensures Canonicalize(v).error == NotEncodable ==> !AllScalar(v)
    ensures Canonicalize(v).error != NotEncodable ==> Carries(v, Canonicalize(v).error)
  {
    hide Serialize, Utf8.EncodeAll, Utf8.Scalar, Carries;
    if Serialize(v).Err? {
      SerializeErrorCarried(v);
      NeverCarried(v);
    } else {
      ScalarText(v);
    }
  }

  lemma {:induction false} NeverCarried(v: Json)
    ensures !Carries(v, NotEncodable)
    decreases v
  {
    match v
    case Arr(items) =>
      forall i | 0 <= i < |items| ensures !Carries(items[i], NotEncodable) {
        NeverCarried(items[i]);
      }
    case Obj(ms) =>
      forall i | 0 <= i < |ms| ensures !Carries(ms[i].value, NotEncodable) {
        NeverCarried(ms[i].value);
      }
    case _ =>
  }
}
