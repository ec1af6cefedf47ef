/**
 * Chains signed by the gateway against `verify_chain`: from genesis, and after a restart that
 * restores the number and hash of the last stored receipt (`lifespan` in `gateway/api.py`).
 */
module SignerTheorems {
  import opened Basics
  import opened Json
  import opened Numerals
  import opened Sha256
  import opened Platform
  import opened Receipts
  import opened Verify
  import opened ChainTheorems
  import Canonical
  import CanonicalTheorems
  import Utf8

  // ----- which calls succeed -----

  predicate ScalarOption(t: Option<Text>) {
    t.Some? ==> Utf8.Scalar(t.value)
  }

  /**
   * A caller can check this before the call: every text can be encoded, and the delegation context
   * holds no float, no foreign object and no surrogate.
   */
  predicate Signable(signer: Signer, d: Decision) {
    && Utf8.Scalar(signer.tenant) && Utf8.Scalar(d.ts) && Utf8.Scalar(d.requestDigest)
    && Utf8.Scalar(d.policyVersion) && Utf8.Scalar(d.decision)
    && (forall i | 0 <= i < |d.reasons| :: Utf8.Scalar(d.reasons[i]))
    && ScalarOption(d.tokenJti) && ScalarOption(d.resourceRegistrationId)
    && (d.delegationContext.Some? ==>
          CanonicalTheorems.Printable(Obj(d.delegationContext.value)) && CanonicalTheorems.AllScalar(Obj(d.delegationContext.value)))
  }

  /** A member that canonicalization accepts. */
  predicate MemberFine(m: Member) {
    Utf8.Scalar(m.key) && CanonicalTheorems.AllScalar(m.value) && CanonicalTheorems.Printable(m.value)
  }

  predicate MembersFine(ms: seq<Member>) {
    forall i | 0 <= i < |ms| :: MemberFine(ms[i])
  }

  lemma MembersFineConcat(ms: seq<Member>, ns: seq<Member>)
    ensures MembersFine(ms + ns) <==> MembersFine(ms) && MembersFine(ns)
  {
    hide MemberFine;
    var all := ms + ns;
    assert forall i | 0 <= i < |ms| :: ms[i] == all[i];
    assert forall i | 0 <= i < |ns| :: ns[i] == all[|ms| + i];
  }

  predicate Ascii(k: string) {
    forall i | 0 <= i < |k| :: k[i] < 128 as char
  }

  lemma AsciiScalar(k: string)
    requires Ascii(k)
    ensures Utf8.Scalar(Lit(k))
  {
    forall i | 0 <= i < |k| ensures !Utf8.IsSurrogate(Lit(k)[i]) {
      assert k[i] < 128 as char;
    }
  }

  lemma StrFine(k: string, t: Text)
    requires Ascii(k)
    ensures MemberFine(Member(Lit(k), Str(t))) <==> Utf8.Scalar(t)
  {
    AsciiScalar(k);
  }

  lemma ReasonsFine(reasons: seq<Text>)
    ensures MemberFine(Member(Lit("reasons"), Arr(Strs(reasons)))) <==> forall i | 0 <= i < |reasons| :: Utf8.Scalar(reasons[i])
  {
    hide Utf8.Scalar, Strs;
    AsciiScalar("reasons");
    var items := Strs(reasons);
    forall i | 0 <= i < |reasons|
      ensures CanonicalTheorems.AllScalar(items[i]) <==> Utf8.Scalar(reasons[i])
      ensures CanonicalTheorems.Printable(items[i])
    {
      assert items[i] == Str(reasons[i]);
    }
    assert CanonicalTheorems.AllScalar(Arr(items)) <==> forall i | 0 <= i < |items| :: CanonicalTheorems.AllScalar(items[i]);
    if CanonicalTheorems.AllScalar(Arr(items)) {
      forall i | 0 <= i < |reasons| ensures Utf8.Scalar(reasons[i]) {
        assert CanonicalTheorems.AllScalar(items[i]);
      }
    }
  }

  lemma MembersFineOne(m: Member)
    ensures MembersFine([m]) <==> MemberFine(m)
    ensures MembersFine([])
  {
    hide MemberFine;
    assert [m][0] == m;
  }

  lemma DecimalScalar(n: int)
    ensures Utf8.Scalar(Decimal(n))
  {
  }

  /** The nine members that are always there. */
  lemma RequiredFine(signer: Signer, r: Receipt)
    ensures MembersFine(r.RequiredMembers()) <==>
            && Utf8.Scalar(r.v) && Utf8.Scalar(r.tenant) && Utf8.Scalar(r.seqNo) && Utf8.Scalar(r.ts)
            && Utf8.Scalar(r.requestDigest) && Utf8.Scalar(r.policyVersion) && Utf8.Scalar(r.decision)
            && (forall i | 0 <= i < |r.reasons| :: Utf8.Scalar(r.reasons[i])) && Utf8.Scalar(r.prevReceipt)
  {
    hide MemberFine, Utf8.Scalar;
    StrFine("v", r.v);
    StrFine("tenant", r.tenant);
    StrFine("seq", r.seqNo);
    StrFine("ts", r.ts);
    StrFine("request_digest", r.requestDigest);
    StrFine("policy_version", r.policyVersion);
    StrFine("decision", r.decision);
    StrFine("prev_receipt", r.prevReceipt);
    ReasonsFine(r.reasons);
    var b := r.RequiredMembers();
    assert MembersFine(b) <==>
      MemberFine(b[0]) && MemberFine(b[1]) && MemberFine(b[2]) && MemberFine(b[3]) && MemberFine(b[4]) &&
      MemberFine(b[5]) && MemberFine(b[6]) && MemberFine(b[7]) && MemberFine(b[8]);
  }

  lemma OptionalFine(r: Receipt)
    ensures MembersFine(r.OptionalMembers()) <==>
            && ScalarOption(r.tokenJti) && ScalarOption(r.resourceRegistrationId)
            && (r.delegationContext.Some? ==>
                  CanonicalTheorems.Printable(Obj(r.delegationContext.value)) &&
                  CanonicalTheorems.AllScalar(Obj(r.delegationContext.value)))
  {
    hide MemberFine, MembersFine, Utf8.Scalar, CanonicalTheorems.Printable, CanonicalTheorems.AllScalar, OptionalMember, Ascii;
    OptionalKeysAscii();
    var jti := OptionalMember("token_jti", StrOption(r.tokenJti));
    var res := OptionalMember("resource_registration_id", StrOption(r.resourceRegistrationId));
    var context := if r.delegationContext.Some? then Some(Obj(r.delegationContext.value)) else None;
    MembersFineConcat(jti + res, OptionalMember("delegation_context", context));
    MembersFineConcat(jti, res);
    OptionalMemberFine("token_jti", StrOption(r.tokenJti));
    OptionalMemberFine("resource_registration_id", StrOption(r.resourceRegistrationId));
    OptionalMemberFine("delegation_context", context);
    ScalarOptionFine(r.tokenJti);
    ScalarOptionFine(r.resourceRegistrationId);
  }

  lemma OptionalKeysAscii()
    ensures Ascii("token_jti") && Ascii("resource_registration_id") && Ascii("delegation_context")
  {
  }

  predicate ValueFine(v: Json) {
    CanonicalTheorems.Printable(v) && CanonicalTheorems.AllScalar(v)
  }

  lemma ScalarOptionFine(t: Option<Text>)
    ensures ScalarOption(t) <==> (StrOption(t).Some? ==> ValueFine(StrOption(t).value))
  {
  }

  lemma OptionalMemberFine(k: string, v: Option<Json>)
    requires Ascii(k)
    ensures MembersFine(OptionalMember(k, v)) <==> (v.Some? ==> ValueFine(v.value))
  {
    hide MembersFine, Utf8.Scalar, CanonicalTheorems.Printable, CanonicalTheorems.AllScalar;
    AsciiScalar(k);
    MembersFineOne(Member(Lit(k), if v.Some? then v.value else Null));
  }

  lemma FineIsCanonicalizable(ms: seq<Member>)
    ensures Canonical.Canonicalize(Obj(ms)).Ok? <==> MembersFine(ms)
  {
    CanonicalTheorems.CanonicalizeOkIff(Obj(ms));
  }

  lemma VersionScalar()
    ensures Utf8.Scalar(Lit("1"))
  {
  }

  /** Whether a call succeeds does not depend on the place in the chain. */
  lemma SignedOkIff(signer: Signer, seqNo: int, prev: Text, d: Decision)
    requires Utf8.Scalar(prev)
    ensures Signed(signer, seqNo, prev, d).Ok? <==> Signable(signer, d)
  {
    hide MembersFine, Utf8.Scalar, Canonical.Canonicalize, CanonicalTheorems.Printable, CanonicalTheorems.AllScalar, Decimal, HashText;
    var draft := Draft(signer, seqNo, prev, d);
    FineIsCanonicalizable(draft.Body());
    MembersFineConcat(draft.RequiredMembers(), draft.OptionalMembers());
    RequiredFine(signer, draft);
    OptionalFine(draft);
    DecimalScalar(seqNo);
    VersionScalar();
  }

  // ----- a signed receipt is a sound link -----

  lemma {:induction false} LookupAt(ms: seq<Member>, k: Text, i: nat)
    requires i < |ms| && ms[i].key == k
    requires forall j | 0 <= j < i :: ms[j].key != k
    ensures Lookup(ms, k) == Some(ms[i].value)
    decreases i
  {
    if i > 0 {
      LookupAt(ms[1..], k, i - 1);
    }
  }

  lemma BodyLookups(r: Receipt)
    ensures r.Body() != []
    ensures Lookup(r.Body(), Lit("seq")) == Some(Str(r.seqNo))
    ensures Lookup(r.Body(), Lit("prev_receipt")) == Some(Str(r.prevReceipt))
    ensures Lookup(r.Body(), Lit("decision")) == Some(Str(r.decision))
  {
    hide Lookup, Receipt.OptionalMembers;
    LookupAt(r.Body(), Lit("seq"), 2);
    LookupAt(r.Body(), Lit("prev_receipt"), 8);
    LookupAt(r.Body(), Lit("decision"), 6);
  }

  /** The fields written after signing are not part of the body. */
  lemma SignedBody(signer: Signer, seqNo: int, prev: Text, d: Decision)
    requires Signed(signer, seqNo, prev, d).Ok?
    ensures var r := Signed(signer, seqNo, prev, d).value;
            && r.Body() == Draft(signer, seqNo, prev, d).Body()
            && Canonical.Canonicalize(Obj(r.Body())).Ok?
            && r.receiptHash == HashText(signer.platform.sha, Canonical.Canonicalize(Obj(r.Body())).value)
            && r.signature == signer.platform.sign(signer.key, Canonical.Canonicalize(Obj(r.Body())).value)
            && r.kid == signer.kid && r.seqNo == Decimal(seqNo) && r.prevReceipt == prev && r.decision == d.decision
  {
    hide Canonical.Canonicalize, HashText, Decimal;
  }

  /** `LookupAt` for a list whose first `i` members are `front`. */
  lemma LookupPast(front: seq<Member>, ms: seq<Member>, k: Text)
    requires forall m | m in front :: m.key != k
    ensures Lookup(front + ms, k) == Lookup(ms, k)
    decreases |front|
  {
    if front == [] {
      assert front + ms == ms;
    } else {
      assert (front + ms)[0] == front[0] && (front + ms)[1..] == front[1..] + ms;
      LookupPast(front[1..], ms, k);
    }
  }

  /** What each key of a receipt's body states: the nine that are always there. */
  lemma BodyStatesRequired(r: Receipt)
    ensures var b := r.Body();
            && Lookup(b, Lit("v")) == Some(Str(r.v)) && Lookup(b, Lit("tenant")) == Some(Str(r.tenant))
            && Lookup(b, Lit("seq")) == Some(Str(r.seqNo)) && Lookup(b, Lit("ts")) == Some(Str(r.ts))
            && Lookup(b, Lit("request_digest")) == Some(Str(r.requestDigest))
            && Lookup(b, Lit("policy_version")) == Some(Str(r.policyVersion))
            && Lookup(b, Lit("decision")) == Some(Str(r.decision))
            && Lookup(b, Lit("reasons")) == Some(Arr(Strs(r.reasons)))
            && Lookup(b, Lit("prev_receipt")) == Some(Str(r.prevReceipt))
  {
    hide Lit, Lookup, Strs, Receipt.OptionalMembers, DistinctKeys;
    var ms, b := r.RequiredMembers(), r.Body();
    RequiredKeysDistinct(r);
    forall i | 0 <= i < 9 ensures Lookup(b, ms[i].key) == Some(ms[i].value) {
      FirstPart(ms, r.OptionalMembers(), i);
    }
    assert ms[0].key == Lit("v") && ms[1].key == Lit("tenant") && ms[2].key == Lit("seq") && ms[3].key == Lit("ts");
    assert ms[4].key == Lit("request_digest") && ms[5].key == Lit("policy_version") && ms[6].key == Lit("decision");
    assert ms[7].key == Lit("reasons") && ms[8].key == Lit("prev_receipt");
  }

  lemma FirstPart(ms: seq<Member>, ns: seq<Member>, i: nat)
    requires i < |ms| && DistinctKeys(ms)
    ensures Lookup(ms + ns, ms[i].key) == Some(ms[i].value)
  {
    hide Lookup;
    var all := ms + ns;
    assert all[i] == ms[i] && forall j | 0 <= j < i :: all[j] == ms[j];
    LookupAt(all, ms[i].key, i);
  }

  lemma LookupOptional(k: string, v: Option<Json>, key: Text, rest: seq<Member>)
    ensures Lookup(OptionalMember(k, v) + rest, key) == if key == Lit(k) && v.Some? then v else Lookup(rest, key)
  {
    hide Lit;
    if v.None? {
      assert OptionalMember(k, v) + rest == rest;
    } else {
      var all := OptionalMember(k, v) + rest;
      assert all[0] == Member(Lit(k), v.value) && all[1..] == rest;
    }
  }

  /** And the three that are there exactly when the decision has them. */
  lemma BodyStatesOptional(r: Receipt)
    ensures var b := r.Body();
            && Lookup(b, Lit("token_jti")) == (if r.tokenJti.Some? then Some(Str(r.tokenJti.value)) else None)
            && Lookup(b, Lit("resource_registration_id")) ==
               (if r.resourceRegistrationId.Some? then Some(Str(r.resourceRegistrationId.value)) else None)
            && Lookup(b, Lit("delegation_context")) ==
               (if r.delegationContext.Some? then Some(Obj(r.delegationContext.value)) else None)
  {
    hide Lit, Lookup, OptionalMember, Receipt.RequiredMembers;
    KeyLengths();
    RequiredKeysDistinct(r);
    LookupPast(r.RequiredMembers(), r.OptionalMembers(), Lit("token_jti"));
    LookupPast(r.RequiredMembers(), r.OptionalMembers(), Lit("resource_registration_id"));
    LookupPast(r.RequiredMembers(), r.OptionalMembers(), Lit("delegation_context"));
    OptionalStates(r, Lit("token_jti"));
    OptionalStates(r, Lit("resource_registration_id"));
    OptionalStates(r, Lit("delegation_context"));
  }

  lemma OptionalStates(r: Receipt, key: Text)
    ensures var jti, id, ctx := StrOption(r.tokenJti), StrOption(r.resourceRegistrationId),
                                if r.delegationContext.Some? then Some(Obj(r.delegationContext.value)) else None;
            Lookup(r.OptionalMembers(), key) ==
            if key == Lit("token_jti") && jti.Some? then jti
            else if key == Lit("resource_registration_id") && id.Some? then id
            else if key == Lit("delegation_context") && ctx.Some? then ctx
            else None
  {
    hide Lit, Lookup, OptionalMember;
    var jti, id, ctx := StrOption(r.tokenJti), StrOption(r.resourceRegistrationId),
                        if r.delegationContext.Some? then Some(Obj(r.delegationContext.value)) else None;
    var a, b, c := OptionalMember("token_jti", jti), OptionalMember("resource_registration_id", id), OptionalMember("delegation_context", ctx);
    LookupNothing(key);
    LookupOptional("delegation_context", ctx, key, []);
    LookupOptional("resource_registration_id", id, key, c + []);
    LookupOptional("token_jti", jti, key, b + (c + []));
    assert r.OptionalMembers() == a + (b + (c + []));
  }

  lemma LookupNothing(key: Text)
    ensures Lookup([], key) == None
  {
  }

  /** What the signed body states, key by key: the number and the link it was signed at, and the arguments of the call. */
  lemma SignedBodyStates(signer: Signer, seqNo: int, prev: Text, d: Decision)
    requires Signed(signer, seqNo, prev, d).Ok?
    ensures var b := Signed(signer, seqNo, prev, d).value.ToEnvelope().body;
            && Lookup(b, Lit("v")) == Some(Str(Lit("1"))) && Lookup(b, Lit("tenant")) == Some(Str(signer.tenant))
            && Lookup(b, Lit("seq")) == Some(Str(Decimal(seqNo))) && Lookup(b, Lit("prev_receipt")) == Some(Str(prev))
            && Lookup(b, Lit("ts")) == Some(Str(d.ts)) && Lookup(b, Lit("request_digest")) == Some(Str(d.requestDigest))
            && Lookup(b, Lit("policy_version")) == Some(Str(d.policyVersion))
            && Lookup(b, Lit("decision")) == Some(Str(d.decision)) && Lookup(b, Lit("reasons")) == Some(Arr(Strs(d.reasons)))
            && Lookup(b, Lit("token_jti")) == (if d.tokenJti.Some? then Some(Str(d.tokenJti.value)) else None)
            && Lookup(b, Lit("resource_registration_id")) ==
               (if d.resourceRegistrationId.Some? then Some(Str(d.resourceRegistrationId.value)) else None)
            && Lookup(b, Lit("delegation_context")) ==
               (if d.delegationContext.Some? then Some(Obj(d.delegationContext.value)) else None)
  {
    hide Lit, Lookup, Strs, Receipt.RequiredMembers, Receipt.OptionalMembers, Canonical.Canonicalize, HashText, Decimal, Signed;
    SignedBody(signer, seqNo, prev, d);
    BodyStatesRequired(Draft(signer, seqNo, prev, d));
    BodyStatesOptional(Draft(signer, seqNo, prev, d));
  }

  /** The hash in the envelope is of those bytes, and the signature is over them with the signer's key and kid. */
  lemma SignedSealsBody(signer: Signer, seqNo: int, prev: Text, d: Decision)
    requires Signed(signer, seqNo, prev, d).Ok?
    ensures var e := Signed(signer, seqNo, prev, d).value.ToEnvelope();
            var bytes := Canonical.Canonicalize(Obj(e.body));
            && bytes.Ok? && e.receiptHash == Some(Lit("sha256:") + ToHex(signer.platform.sha(bytes.value)))
            && e.sig == Some(Sig(Some(Lit("EdDSA")), Some(signer.kid), Some(signer.platform.sign(signer.key, bytes.value))))
  {
    hide Lit, Receipt.Body, Canonical.Canonicalize, Decimal, Signed, ToHex;
    SignedBody(signer, seqNo, prev, d);
  }

  lemma SignedIsLink(signer: Signer, seqNo: int, prev: Text, d: Decision)
    requires signer.platform.Lawful()
    requires Signed(signer, seqNo, prev, d).Ok?
    ensures LinkOk(signer.platform, Signed(signer, seqNo, prev, d).value.ToEnvelope(), signer.ToJwk(), prev, seqNo)
  {
    hide Canonical.Canonicalize, HashText, Decimal, Signed, Lookup, Receipt.Body;
    SignedBody(signer, seqNo, prev, d);
    BodyLookups(Signed(signer, seqNo, prev, d).value);
  }

  lemma SignedIsOnlyThatLink(signer: Signer, seqNo: int, prev: Text, d: Decision, key: Jwk, first: Text, n: int)
    requires signer.platform.Lawful()
    requires Signed(signer, seqNo, prev, d).Ok?
    ensures LinkOk(signer.platform, Signed(signer, seqNo, prev, d).value.ToEnvelope(), key, first, n) ==> n == seqNo && first == prev
  {
    hide Canonical.Canonicalize, HashText, Decimal, Signed, Lookup, Receipt.Body, EarlyFailure, BodyErrors;
    SignedBody(signer, seqNo, prev, d);
    BodyLookups(Signed(signer, seqNo, prev, d).value);
  }

  // ----- bodies are dicts -----

  lemma KeyLengths()
    ensures |Lit("v")| == 1 && |Lit("tenant")| == 6 && |Lit("seq")| == 3 && |Lit("ts")| == 2
    ensures |Lit("request_digest")| == 14 && Lit("request_digest")[0] == 0x72
    ensures |Lit("policy_version")| == 14 && Lit("policy_version")[0] == 0x70
    ensures |Lit("decision")| == 8 && |Lit("reasons")| == 7 && |Lit("prev_receipt")| == 12
    ensures |Lit("token_jti")| == 9 && |Lit("resource_registration_id")| == 24 && |Lit("delegation_context")| == 18
  {
  }

  lemma RequiredKeysDistinct(r: Receipt)
    ensures DistinctKeys(r.RequiredMembers())
    ensures forall m | m in r.RequiredMembers() :: |m.key| <= 14 && |m.key| != 9
  {
    hide Lit, Strs;
    KeyLengths();
    assert |r.RequiredMembers()| == 9;
  }

  lemma OptionalKeysDistinct(r: Receipt)
    ensures DistinctKeys(r.OptionalMembers())
    ensures forall m | m in r.OptionalMembers() :: |m.key| == 9 || |m.key| >= 18
  {
    hide Lit;
    KeyLengths();
  }

  lemma RequiredValuesFormed(r: Receipt)
    ensures forall m | m in r.RequiredMembers() :: WellFormed(m.value)
  {
    hide Lit;
  }

  lemma OptionalValuesFormed(r: Receipt)
    requires r.delegationContext.Some? ==> WellFormed(Obj(r.delegationContext.value))
    ensures forall m | m in r.OptionalMembers() :: WellFormed(m.value)
  {
    hide Lit, DistinctKeys;
  }

  lemma ConcatIsDict(ms: seq<Member>, ns: seq<Member>)
    requires DistinctKeys(ms) && DistinctKeys(ns)
    requires forall m | m in ms :: WellFormed(m.value)
    requires forall n | n in ns :: WellFormed(n.value)
    requires forall m, n | m in ms && n in ns :: m.key != n.key
    ensures WellFormed(Obj(ms + ns))
  {
    var all := ms + ns;
    forall i | 0 <= i < |all| ensures WellFormed(all[i].value) {
      assert all[i] in ms || all[i] in ns;
    }
    forall i, j | 0 <= i < j < |all| ensures all[i].key != all[j].key {
      if i < |ms| <= j {
        assert ms[i] in ms && ns[j - |ms|] in ns;
      }
    }
  }

  /** The body of a receipt has each key once; with a delegation context that is a dict, it is one at every depth. */
  lemma BodyIsDict(r: Receipt)
    requires r.delegationContext.Some? ==> WellFormed(Obj(r.delegationContext.value))
    ensures WellFormed(Obj(r.Body()))
  {
    hide Receipt.RequiredMembers, Receipt.OptionalMembers, WellFormed, DistinctKeys;
    RequiredKeysDistinct(r);
    OptionalKeysDistinct(r);
    RequiredValuesFormed(r);
    OptionalValuesFormed(r);
    ConcatIsDict(r.RequiredMembers(), r.OptionalMembers());
  }

  // ----- runs -----

  function SignAll(signer: Signer, s: ChainState, ds: seq<Decision>): ChainState
    decreases |ds|
  {
    if ds == [] then s else SignAll(signer, SignStep(signer, s, ds[0]), ds[1..])
  }

  function Envelopes(rs: seq<Receipt>): (es: seq<Envelope>)
    ensures |es| == |rs|
  {
    seq(|rs|, i requires 0 <= i < |rs| => rs[i].ToEnvelope())
  }

  /** No call that fails comes before one that succeeds. */
  predicate NoGap(signer: Signer, ds: seq<Decision>) {
    forall i, j | 0 <= i < j < |ds| :: Signable(signer, ds[j]) ==> Signable(signer, ds[i])
  }

  /** The state from which the next receipt continues the list. */
  predicate InStep(signer: Signer, es: seq<Envelope>, key: Jwk, keysByKid: map<Text, Jwk>, s: ChainState) {
    && LinksOk(signer.platform, es, key, keysByKid, Genesis(), 1)
    && s.seqNo == |es| && s.prev == PrevOf(es, |es|, Genesis()) && Utf8.Scalar(s.prev)
  }

  /** Receipts of this signer are verified with its own key. */
  predicate KeyKnown(signer: Signer, key: Jwk, keysByKid: map<Text, Jwk>) {
    (if signer.kid in keysByKid then keysByKid[signer.kid] else key) == signer.ToJwk()
  }

  lemma KeyForSigned(signer: Signer, seqNo: int, prev: Text, d: Decision, key: Jwk, keysByKid: map<Text, Jwk>)
    requires Signed(signer, seqNo, prev, d).Ok? && KeyKnown(signer, key, keysByKid)
    ensures KeyFor(Signed(signer, seqNo, prev, d).value.ToEnvelope(), key, keysByKid) == signer.ToJwk()
  {
    hide Signed, Receipt.Body, Canonical.Canonicalize;
    SignedBody(signer, seqNo, prev, d);
  }

  lemma HashTextScalar(sha: Sha, b: Bytes)
    ensures Utf8.Scalar(HashText(sha, b))
  {
    HexScalar(sha(b));
  }

  lemma {:induction false} HexScalar(b: Bytes)
    ensures Utf8.Scalar(ToHex(b))
  {
    if b != [] {
      HexScalar(b[1..]);
    }
  }

  /** Appending one envelope adds one link to check. */
  lemma LinksOkAppend(p: Platform, es: seq<Envelope>, e: Envelope, key: Jwk, keysByKid: map<Text, Jwk>)
    ensures LinksOk(p, es + [e], key, keysByKid, Genesis(), 1) <==>
            && LinksOk(p, es, key, keysByKid, Genesis(), 1)
            && LinkOk(p, e, KeyFor(e, key, keysByKid), PrevOf(es, |es|, Genesis()), 1 + |es|)
  {
    hide LinkOk, KeyFor, Genesis;
    var all := es + [e];
    forall i | 0 <= i < |es|
      ensures LinkOkAt(p, all, key, keysByKid, Genesis(), 1, i) <==> LinkOkAt(p, es, key, keysByKid, Genesis(), 1, i)
    {
      assert all[i] == es[i] && PrevOf(all, i, Genesis()) == PrevOf(es, i, Genesis());
    }
    assert all[|es|] == e && PrevOf(all, |es|, Genesis()) == PrevOf(es, |es|, Genesis());
    assert LinkOkAt(p, all, key, keysByKid, Genesis(), 1, |es|) <==>
           LinkOk(p, e, KeyFor(e, key, keysByKid), PrevOf(es, |es|, Genesis()), 1 + |es|);
    if LinksOk(p, all, key, keysByKid, Genesis(), 1) {
      forall i | 0 <= i < |es| ensures LinkOkAt(p, es, key, keysByKid, Genesis(), 1, i) {
        assert LinkOkAt(p, all, key, keysByKid, Genesis(), 1, i);
      }
    }
  }

  lemma {:induction false} LinksOkTake(p: Platform, es: seq<Envelope>, n: nat, key: Jwk, keysByKid: map<Text, Jwk>)
    requires n <= |es| && LinksOk(p, es, key, keysByKid, Genesis(), 1)
    ensures LinksOk(p, es[..n], key, keysByKid, Genesis(), 1)
    decreases |es|
  {
    hide LinkOk, LinksOk, Genesis;
    if n == |es| {
      assert es[..n] == es;
    } else {
      var shorter := es[..|es| - 1];
      assert es == shorter + [es[|es| - 1]];
      LinksOkAppend(p, shorter, es[|es| - 1], key, keysByKid);
      LinksOkTake(p, shorter, n, key, keysByKid);
      assert shorter[..n] == es[..n];
    }
  }

  /** A run only adds receipts. */
  lemma {:induction false} SignAllExtends(signer: Signer, s: ChainState, ds: seq<Decision>)
    ensures s.receipts <= SignAll(signer, s, ds).receipts
    decreases |ds|
  {
    hide Signed;
    if ds != [] {
      SignAllExtends(signer, SignStep(signer, s, ds[0]), ds[1..]);
    }
  }

  lemma EnvelopesAppend(rs: seq<Receipt>, r: Receipt)
    ensures Envelopes(rs + [r]) == Envelopes(rs) + [r.ToEnvelope()]
  {
  }

  lemma EnvelopesPrefix(rs: seq<Receipt>, qs: seq<Receipt>)
    requires rs <= qs
    ensures Envelopes(qs)[..|rs|] == Envelopes(rs)
  {
    assert forall i | 0 <= i < |rs| :: rs[i] == qs[i];
  }

  /** A successful call from a state in step leaves the chain in step. */
  lemma StepStaysInStep(signer: Signer, base: seq<Envelope>, key: Jwk, keysByKid: map<Text, Jwk>, s: ChainState, d: Decision)
    requires signer.platform.Lawful() && KeyKnown(signer, key, keysByKid)
    requires InStep(signer, base + Envelopes(s.receipts), key, keysByKid, s)
    requires Signable(signer, d)
    ensures var t := SignStep(signer, s, d);
            InStep(signer, base + Envelopes(t.receipts), key, keysByKid, t)
  {
    hide LinkOk, LinksOk, KeyFor, KeyKnown, Signed, Signable, Genesis, Utf8.Scalar, Receipt.Body, Envelopes;
    SignedOkIff(signer, s.seqNo + 1, s.prev, d);
    var r := Signed(signer, s.seqNo + 1, s.prev, d).value;
    var es := base + Envelopes(s.receipts);
    EnvelopesAppend(s.receipts, r);
    assert base + Envelopes(s.receipts + [r]) == es + [r.ToEnvelope()];
    SignedIsLink(signer, s.seqNo + 1, s.prev, d);
    KeyForSigned(signer, s.seqNo + 1, s.prev, d, key, keysByKid);
    LinksOkAppend(signer.platform, es, r.ToEnvelope(), key, keysByKid);
    SignedBody(signer, s.seqNo + 1, s.prev, d);
    HashTextScalar(signer.platform.sha, Canonical.Canonicalize(Obj(r.Body())).value);
    assert PrevOf(es + [r.ToEnvelope()], |es| + 1, Genesis()) == r.receiptHash;
  }

  /** After a failed call a later receipt has a number too high for its place, for good. */
  lemma {:induction false} BehindStaysBroken(
    signer: Signer, base: seq<Envelope>, key: Jwk, keysByKid: map<Text, Jwk>, s: ChainState, ds: seq<Decision>)
    requires signer.platform.Lawful()
    requires LinksOk(signer.platform, base + Envelopes(s.receipts), key, keysByKid, Genesis(), 1)
    requires s.seqNo > |base| + |s.receipts| && Utf8.Scalar(s.prev)
    ensures LinksOk(signer.platform, base + Envelopes(SignAll(signer, s, ds).receipts), key, keysByKid, Genesis(), 1) <==>
            forall i | 0 <= i < |ds| :: !Signable(signer, ds[i])
    decreases |ds|
  {
    hide LinkOk, LinksOk, KeyFor, Signed, Signable, Genesis, Utf8.Scalar, Receipt.Body, Envelopes;
    if ds != [] {
      SignedOkIff(signer, s.seqNo + 1, s.prev, ds[0]);
      var t := SignStep(signer, s, ds[0]);
      if Signable(signer, ds[0]) {
        var r := Signed(signer, s.seqNo + 1, s.prev, ds[0]).value;
        var es := base + Envelopes(s.receipts);
        EnvelopesAppend(s.receipts, r);
        assert base + Envelopes(t.receipts) == es + [r.ToEnvelope()];
        LinksOkAppend(signer.platform, es, r.ToEnvelope(), key, keysByKid);
        SignedIsOnlyThatLink(signer, s.seqNo + 1, s.prev, ds[0], KeyFor(r.ToEnvelope(), key, keysByKid), PrevOf(es, |es|, Genesis()), 1 + |es|);
        SignAllExtends(signer, t, ds[1..]);
        EnvelopesPrefix(t.receipts, SignAll(signer, t, ds[1..]).receipts);
        BrokenPrefix(signer.platform, base, Envelopes(t.receipts), Envelopes(SignAll(signer, t, ds[1..]).receipts), key, keysByKid);
      } else {
        BehindStaysBroken(signer, base, key, keysByKid, t, ds[1..]);
        assert forall i | 0 < i < |ds| :: ds[i] == ds[1..][i - 1];
      }
    }
  }

  lemma BrokenPrefix(p: Platform, base: seq<Envelope>, es: seq<Envelope>, fs: seq<Envelope>, key: Jwk, keysByKid: map<Text, Jwk>)
    requires es <= fs
    ensures LinksOk(p, base + fs, key, keysByKid, Genesis(), 1) ==> LinksOk(p, base + es, key, keysByKid, Genesis(), 1)
  {
    hide LinksOk, Genesis;
    if LinksOk(p, base + fs, key, keysByKid, Genesis(), 1) {
      LinksOkTake(p, base + fs, |base + es|, key, keysByKid);
      assert (base + fs)[..|base + es|] == base + es;
    }
  }

  lemma {:induction false} RunKeepsStep(
    signer: Signer, base: seq<Envelope>, key: Jwk, keysByKid: map<Text, Jwk>, s: ChainState, ds: seq<Decision>)
    requires signer.platform.Lawful() && KeyKnown(signer, key, keysByKid)
    requires InStep(signer, base + Envelopes(s.receipts), key, keysByKid, s)
    ensures LinksOk(signer.platform, base + Envelopes(SignAll(signer, s, ds).receipts), key, keysByKid, Genesis(), 1) <==>
            NoGap(signer, ds)
    decreases |ds|
  {
    hide LinksOk, KeyKnown, Signed, Signable, Genesis, Utf8.Scalar, Envelopes;
    if ds != [] {
      SignedOkIff(signer, s.seqNo + 1, s.prev, ds[0]);
      var t := SignStep(signer, s, ds[0]);
      NoGapCons(signer, ds);
      if Signable(signer, ds[0]) {
        StepStaysInStep(signer, base, key, keysByKid, s, ds[0]);
        RunKeepsStep(signer, base, key, keysByKid, t, ds[1..]);
      } else {
        BehindStaysBroken(signer, base, key, keysByKid, t, ds[1..]);
      }
    }
  }

  lemma NoGapCons(signer: Signer, ds: seq<Decision>)
    requires ds != []
    ensures Signable(signer, ds[0]) ==> (NoGap(signer, ds) <==> NoGap(signer, ds[1..]))
    ensures !Signable(signer, ds[0]) ==>
              (NoGap(signer, ds) <==> forall i | 0 <= i < |ds[1..]| :: !Signable(signer, ds[1..][i]))
  {
    hide Signable;
    var later := ds[1..];
    assert forall i | 0 <= i < |later| :: later[i] == ds[i + 1];
    if NoGap(signer, later) && Signable(signer, ds[0]) {
      forall i, j | 0 <= i < j < |ds| ensures Signable(signer, ds[j]) ==> Signable(signer, ds[i]) {
        if i > 0 {
          assert later[i - 1] == ds[i] && later[j - 1] == ds[j];
        }
      }
    }
    if forall i | 0 <= i < |later| :: !Signable(signer, later[i]) {
      forall j | 0 < j < |ds| ensures !Signable(signer, ds[j]) {
        assert later[j - 1] == ds[j];
      }
    }
    if NoGap(signer, ds) {
      forall i, j | 0 <= i < j < |later| ensures Signable(signer, later[j]) ==> Signable(signer, later[i]) {
        assert later[i] == ds[i + 1] && later[j] == ds[j + 1];
      }
    }
  }

  /** The chain state after startup: restored from the last stored receipt when it has a positive number and a hash. */
  function Resume(p: Platform, stored: seq<Envelope>): Option<ChainState> {
    if stored == [] then Some(ChainState(0, Genesis(), []))
    else
      var last := stored[|stored| - 1];
      match p.IntOf(GetOr(last.body, Lit("seq"), Int(0)))
      case None => None
      case Some(seqNo) =>
        if seqNo > 0 && last.receiptHash.Some? && last.receiptHash.value != [] then Some(ChainState(seqNo, last.receiptHash.value, []))
        else Some(ChainState(0, Genesis(), []))
  }

  /** The link of the first receipt reads like the hash of a predecessor whose digest is all zeros. */
  lemma GenesisIsZeroHash()
    ensures Genesis() == DigestText(seq(32, _ => 0))
  {
    ZeroHex(32);
  }

  lemma {:induction false} ZeroHex(n: nat)
    ensures ToHex(seq(n, _ => 0)) == seq(2 * n, _ => 0x30)
  {
    if n > 0 {
      var zeros: Bytes := seq(n, _ => 0);
      assert zeros[1..] == seq(n - 1, _ => 0);
      ZeroHex(n - 1);
      assert ToHex(zeros) == [0x30, 0x30] + ToHex(zeros[1..]);
    }
  }

  lemma GenesisScalar()
    ensures Utf8.Scalar(Genesis())
  {
  }

  /** A stored chain that passes, with a hash on its last receipt, is picked up where it ends. */
  lemma ResumeInStep(signer: Signer, stored: seq<Envelope>, key: Jwk, keysByKid: map<Text, Jwk>)
    requires stored != [] ==> ChainVerdict(signer.platform, stored, key, keysByKid) == Returned(PASSED)
    requires stored != [] ==> stored[|stored| - 1].receiptHash != Some([])
    ensures Resume(signer.platform, stored).Some?
    ensures InStep(signer, stored, key, keysByKid, Resume(signer.platform, stored).value)
    ensures Resume(signer.platform, stored).value.receipts == []
  {
    hide ChainVerdict, Canonical.Canonicalize, Lookup, Utf8.Scalar, Genesis, KeyFor, EarlyFailure, BodyErrors, HashText;
    GenesisScalar();
    if stored != [] {
      ChainPassesIff(signer.platform, stored, key, keysByKid);
      var n := |stored|;
      var last := stored[n - 1];
      assert LinkOkAt(signer.platform, stored, key, keysByKid, Genesis(), 1, n - 1);
      LinkHash(signer.platform, last, KeyFor(last, key, keysByKid), PrevOf(stored, n - 1, Genesis()), 1 + (n - 1));
      HashTextScalar(signer.platform.sha, BodyBytes(last));
      assert 1 + (n - 1) == n;
    }
  }

  /**
   * Signer completeness, exactly. Extend any stored chain that passes (or none) by any run of
   * `sign_decision` calls after a restart: the stored and the new receipts together pass
   * `verify_chain` if and only if no call that failed came before one that succeeded.
   */
  lemma SignedChainPasses(
    signer: Signer, stored: seq<Envelope>, key: Jwk, keysByKid: map<Text, Jwk>, ds: seq<Decision>)
    requires signer.platform.Lawful() && KeyKnown(signer, key, keysByKid)
    requires stored != [] ==> ChainVerdict(signer.platform, stored, key, keysByKid) == Returned(PASSED)
    requires stored != [] ==> stored[|stored| - 1].receiptHash != Some([])
    ensures Resume(signer.platform, stored).Some?
    ensures var s := SignAll(signer, Resume(signer.platform, stored).value, ds);
            var all := stored + Envelopes(s.receipts);
            all != [] ==>
            (ChainVerdict(signer.platform, all, key, keysByKid) == Returned(PASSED) <==> NoGap(signer, ds))
  {
    hide ChainVerdict, LinksOk, KeyKnown, Signed, Genesis, NoGap, Resume;
    ResumeInStep(signer, stored, key, keysByKid);
    var start := Resume(signer.platform, stored).value;
    assert stored + Envelopes(start.receipts) == stored;
    RunKeepsStep(signer, stored, key, keysByKid, start, ds);
    ChainPassesIff(signer.platform, stored + Envelopes(SignAll(signer, start, ds).receipts), key, keysByKid);
  }

  /** A failed call between two good ones: a float in the delegation context breaks the chain for every later verifier. */
  lemma FailedCallBreaksChain(signer: Signer, d: Decision)
    requires signer.platform.Lawful()
    requires Signable(signer, d)
    ensures var bad := d.(delegationContext := Some([Member(Lit("weight"), Float(true))]));
            var s := SignAll(signer, ChainState(0, Genesis(), []), [d, bad, d]);
            && |s.receipts| == 2
            && ChainVerdict(signer.platform, Envelopes(s.receipts), signer.ToJwk(), map[]) != Returned(PASSED)
  {
    hide ChainVerdict, Signed, Genesis, Utf8.Scalar;
    var bad := d.(delegationContext := Some([Member(Lit("weight"), Float(true))]));
    var ds := [d, bad, d];
    var s0 := ChainState(0, Genesis(), []);
    assert !CanonicalTheorems.Printable(Obj(bad.delegationContext.value)) by {
      assert bad.delegationContext.value[0].value == Float(true);
    }
    assert !Signable(signer, bad);
    assert !NoGap(signer, ds) by {
      assert Signable(signer, ds[2]) && !Signable(signer, ds[1]);
    }
    SignedChainPasses(signer, [], signer.ToJwk(), map[], ds);
    ThreeCalls(signer, d, bad);
    var all := Envelopes(SignAll(signer, s0, ds).receipts);
    assert [] + all == all;
  }

  /**
   * The verifiers part: of a list that holds one honest first receipt twice, `verify_receipt` passes
   * both members, and `verify_chain` does not pass the list.
   */
  lemma CopiedReceiptPartsVerifiers(signer: Signer, d: Decision)
    requires signer.platform.Lawful() && Signable(signer, d)
    ensures Signed(signer, 1, Genesis(), d).Ok?
    ensures var e := Signed(signer, 1, Genesis(), d).value.ToEnvelope();
            && MemberPasses(signer.platform, [e, e], signer.ToJwk(), map[], 0)
            && MemberPasses(signer.platform, [e, e], signer.ToJwk(), map[], 1)
            && ChainVerdict(signer.platform, [e, e], signer.ToJwk(), map[]) != Returned(PASSED)
  {
    hide ChainVerdict, Signed, Genesis, Signable, Receipt.Body, Lookup, EarlyFailure, BodyErrors;
    GenesisScalar();
    SignedOkIff(signer, 1, Genesis(), d);
    SignedIsLink(signer, 1, Genesis(), d);
    var e := Signed(signer, 1, Genesis(), d).value.ToEnvelope();
    ChainPassesIff(signer.platform, [e, e], signer.ToJwk(), map[]);
    assert !LinkOkAt(signer.platform, [e, e], signer.ToJwk(), map[], Genesis(), 1, 1);
  }

  lemma ThreeCalls(signer: Signer, d: Decision, bad: Decision)
    requires Signable(signer, d) && !Signable(signer, bad)
    ensures |SignAll(signer, ChainState(0, Genesis(), []), [d, bad, d]).receipts| == 2
  {
    hide Signed, Genesis, Utf8.Scalar, Signable;
    GenesisScalar();
    var s0 := ChainState(0, Genesis(), []);
    var ds := [d, bad, d];
    assert ds[1..] == [bad, d] && [bad, d][1..] == [d] && [d][1..] == [];
    SignedOkIff(signer, 1, s0.prev, d);
    var s1 := SignStep(signer, s0, d);
    SignedHashScalar(signer, 1, s0.prev, d);
    SignedOkIff(signer, 2, s1.prev, bad);
    var s2 := SignStep(signer, s1, bad);
    SignedOkIff(signer, 3, s2.prev, d);
    var s3 := SignStep(signer, s2, d);
    assert SignAll(signer, s0, ds) == SignAll(signer, s1, [bad, d]) == SignAll(signer, s2, [d]) == SignAll(signer, s3, []) == s3;
  }

  lemma SignedHashScalar(signer: Signer, seqNo: int, prev: Text, d: Decision)
    requires Signed(signer, seqNo, prev, d).Ok?
    ensures Utf8.Scalar(Signed(signer, seqNo, prev, d).value.receiptHash)
  {
    hide Signed, Utf8.Scalar, Canonical.Canonicalize, HashText, Receipt.Body;
    SignedBody(signer, seqNo, prev, d);
    HashTextScalar(signer.platform.sha, Canonical.Canonicalize(Obj(Signed(signer, seqNo, prev, d).value.Body())).value);
  }
}
