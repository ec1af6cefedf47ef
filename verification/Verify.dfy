/** `gateway/verify.py`: one verifier for a single receipt, one for a whole chain. */
module Verify {
  import opened Basics
  import opened Json
  import opened Sha256
  import opened Platform
  import opened Receipts
  import Canonical

  datatype Status = Inconclusive | Pass | Fail

  datatype Code =
    | MissingFields | KidMismatch | UnsupportedAlgorithm | CanonicalizationFailed | ReceiptHashMismatch
    | SignatureInvalid | SignatureError | SeqInvalid | PrevNotFound | PrevLinkBroken
    | EmptyChain | SequenceGap | ChainBreak

  /** The fields of a VerificationResult. */
  datatype Verdict = Verdict(integrity: Status, chain: Status, errors: seq<Code>)

  const PASSED: Verdict := Verdict(Pass, Pass, [])

  /** A verifier returns a result, or an exception escapes from it. */
  datatype Outcome = Returned(verdict: Verdict) | Raised

  /** `VerificationResult`, filled in by the verifiers as they go. */
  class VerificationResult {
    var receiptIntegrity: Status
    var chainValidity: Status
    var errors: seq<Code>

    constructor ()
      ensures View() == Verdict(Inconclusive, Inconclusive, [])
    {
      receiptIntegrity := Inconclusive;
      chainValidity := Inconclusive;
      errors := [];
    }

    function View(): Verdict
      reads this
    {
      Verdict(receiptIntegrity, chainValidity, errors)
    }
  }

  function GetOr(body: seq<Member>, key: Text, default: Json): Json {
    match Lookup(body, key)
    case Some(v) => v
    case None => default
  }

  /** `x[a:b]`, which an error message applies to the link it complains about, works on strings and lists only. */
  predicate Sliceable(v: Json) {
    v.Str? || v.Arr?
  }

  /** `envelope.get("receipt_hash")` as a value to compare with. */
  function HashValue(e: Envelope): Json {
    match e.receiptHash
    case Some(t) => Str(t)
    case None => Null
  }

  // ----- integrity of one receipt -----

  /** The check that stops `verify_receipt` at once, if any. */
  function EarlyFailure(e: Envelope, key: Jwk): Option<Code> {
    if e.body == [] || e.sig.None? then Some(MissingFields)
    else if e.sig.value.kid != key.kid then Some(KidMismatch)
    else if e.sig.value.alg != Some(Lit("EdDSA")) then Some(UnsupportedAlgorithm)
    else if Canonical.Canonicalize(Obj(e.body)).Err? then Some(CanonicalizationFailed)
    else None
  }

  /** The claimed hash, when there is one and it is not empty, is the hash of the canonical body. */
  predicate HashMatches(p: Platform, e: Envelope, bytes: Bytes) {
    e.receiptHash.Some? && e.receiptHash.value != [] ==> e.receiptHash.value == HashText(p.sha, bytes)
  }

  function SignatureCheck(p: Platform, e: Envelope, key: Jwk, bytes: Bytes): SigCheck
    requires e.sig.Some?
  {
    if key.x.None? || e.sig.value.value.None? then Malformed
    else p.check(key.x.value, e.sig.value.value.value, bytes)
  }

  /** The errors of a receipt that got past the early checks. */
  function BodyErrors(p: Platform, e: Envelope, key: Jwk): seq<Code>
    requires EarlyFailure(e, key).None?
  {
    var bytes := Canonical.Canonicalize(Obj(e.body)).value;
    (if HashMatches(p, e, bytes) then [] else [ReceiptHashMismatch]) +
    (match SignatureCheck(p, e, key, bytes)
     case Accepted => []
     case InvalidSignature => [SignatureInvalid]
     case Malformed => [SignatureError])
  }

  // ----- the bounded chain check -----

  /** The first receipt of the chain with the given number. */
  function FindBySeq(p: Platform, chain: seq<Envelope>, seqNo: int): Option<Envelope> {
    if chain == [] then None
    else if p.IntOf(GetOr(chain[0].body, Lit("seq"), Str(Lit("0")))) == Some(seqNo) then Some(chain[0])
    else FindBySeq(p, chain[1..], seqNo)
  }

  /** What the bounded check finds: the chain validity, and the error if there is one. */
  datatype Link = Link(status: Status, errors: seq<Code>)

  /** The bounded check; None when the error message cannot be put together. */
  function BoundedCheck(p: Platform, body: seq<Member>, chain: Option<seq<Envelope>>): Option<Link> {
    var prev := GetOr(body, Lit("prev_receipt"), Str([]));
    if prev == Str(Genesis()) then Some(Link(Pass, []))
    else if chain.None? then Some(Link(Inconclusive, []))
    else
      match p.IntOf(GetOr(body, Lit("seq"), Str(Lit("0"))))
      case None => Some(Link(Inconclusive, [SeqInvalid]))
      case Some(current) =>
        match FindBySeq(p, chain.value, current - 1)
        case None => Some(Link(Inconclusive, [PrevNotFound]))
        case Some(prior) =>
          if HashValue(prior) == prev then Some(Link(Pass, []))
          else if Sliceable(prev) then Some(Link(Fail, [PrevLinkBroken]))
          else None
  }

  /** What `verify_receipt` returns. */
  function ReceiptVerdict(p: Platform, e: Envelope, key: Jwk, chain: Option<seq<Envelope>>): Outcome {
    match EarlyFailure(e, key)
    case Some(code) => Returned(Verdict(Fail, Inconclusive, [code]))
    case None =>
      var errors := BodyErrors(p, e, key);
      match BoundedCheck(p, e.body, chain)
      case None => Raised
      case Some(link) => Returned(Verdict(if errors == [] then Pass else Fail, link.status, errors + link.errors))
  }

  /** `verify_receipt` */
  method VerifyReceipt(p: Platform, envelope: Envelope, key: Jwk, chain: Option<seq<Envelope>>)
    returns (raised: bool, result: VerificationResult)
    ensures fresh(result)
    ensures raised <==> ReceiptVerdict(p, envelope, key, chain).Raised?
    ensures !raised ==> Returned(result.View()) == ReceiptVerdict(p, envelope, key, chain)
  {
    hide Canonical.Canonicalize, Lookup, SignatureCheck, BoundedCheck, HashText;
    result := new VerificationResult();
    raised := false;
    if envelope.body == [] || envelope.sig.None? {
      result.receiptIntegrity := Fail;
      result.errors := result.errors + [MissingFields];
      return;
    }
    var sig := envelope.sig.value;
    if sig.kid != key.kid {
      result.receiptIntegrity := Fail;
      result.errors := result.errors + [KidMismatch];
      return;
    }
    if sig.alg != Some(Lit("EdDSA")) {
      result.receiptIntegrity := Fail;
      result.errors := result.errors + [UnsupportedAlgorithm];
      return;
    }
    var bodyBytes := Canonical.Canonicalize(Obj(envelope.body));
    if bodyBytes.Err? {
      result.receiptIntegrity := Fail;
      result.errors := result.errors + [CanonicalizationFailed];
      return;
    }
    var computedHash := HashText(p.sha, bodyBytes.value);
    if envelope.receiptHash.Some? && envelope.receiptHash.value != [] && computedHash != envelope.receiptHash.value {
      result.receiptIntegrity := Fail;
      result.errors := result.errors + [ReceiptHashMismatch];
    }
    var sigOk := true;
    var check := SignatureCheck(p, envelope, key, bodyBytes.value);
    if check == InvalidSignature {
      result.receiptIntegrity := Fail;
      result.errors := result.errors + [SignatureInvalid];
      sigOk := false;
    } else if check == Malformed {
      result.receiptIntegrity := Fail;
      result.errors := result.errors + [SignatureError];
      sigOk := false;
    }
    if sigOk && result.receiptIntegrity != Fail {
      result.receiptIntegrity := Pass;
    }
    assert result.errors == BodyErrors(p, envelope, key);
    raised := CheckPredecessor(p, envelope.body, chain, result);
  }

  /** The bounded check at the end of `verify_receipt`. */
  method CheckPredecessor(p: Platform, body: seq<Member>, chain: Option<seq<Envelope>>, result: VerificationResult)
    returns (raised: bool)
    requires result.chainValidity == Inconclusive
    modifies result
    ensures raised <==> BoundedCheck(p, body, chain).None?
    ensures !raised ==>
              var link := BoundedCheck(p, body, chain).value;
              result.View() == Verdict(old(result.receiptIntegrity), link.status, old(result.errors) + link.errors)
  {
    hide Lookup;
    raised := false;
    var prevHash := GetOr(body, Lit("prev_receipt"), Str([]));
    if prevHash == Str(Genesis()) {
      result.chainValidity := Pass;
      return;
    }
    if chain.None? {
      return;
    }
    var currentSeq := p.IntOf(GetOr(body, Lit("seq"), Str(Lit("0"))));
    if currentSeq.None? {
      result.errors := result.errors + [SeqInvalid];
      return;
    }
    var prior := None;
    var i := 0;
    while i < |chain.value| && prior.None?
      invariant 0 <= i <= |chain.value|
      invariant FindBySeq(p, chain.value, currentSeq.value - 1) ==
                if prior.Some? then prior else FindBySeq(p, chain.value[i..], currentSeq.value - 1)
    {
      var rSeq := p.IntOf(GetOr(chain.value[i].body, Lit("seq"), Str(Lit("0"))));
      if rSeq == Some(currentSeq.value - 1) {
        prior := Some(chain.value[i]);
      }
      i := i + 1;
    }
    if prior.None? {
      result.errors := result.errors + [PrevNotFound];
    } else if HashValue(prior.value) == prevHash {
      result.chainValidity := Pass;
    } else if Sliceable(prevHash) {
      result.chainValidity := Fail;
      result.errors := result.errors + [PrevLinkBroken];
    } else {
      raised := true;
    }
  }

  // ----- a whole chain -----

  /** The key for a receipt: by kid when it is known, else the default key. */
  function KeyFor(e: Envelope, key: Jwk, keysByKid: map<Text, Jwk>): Jwk {
    var kid := if e.sig.Some? && e.sig.value.kid.Some? then e.sig.value.kid.value else [];
    if kid in keysByKid then keysByKid[kid] else key
  }

  /** What the loop of `verify_chain` does with one receipt: None to go on with the next. */
  function LinkFailure(p: Platform, e: Envelope, key: Jwk, expectedPrev: Text, expectedSeq: int): Option<Outcome> {
    match ReceiptVerdict(p, e, key, None)
    case Raised => Some(Raised)
    case Returned(single) =>
      if single.integrity == Fail then Some(Returned(Verdict(Fail, Inconclusive, single.errors)))
      else if !HasKey(e.body, Lit("seq")) || p.IntOf(Lookup(e.body, Lit("seq")).value).None? then Some(Raised)
      else if p.IntOf(Lookup(e.body, Lit("seq")).value).value != expectedSeq then
        Some(Returned(Verdict(Inconclusive, Fail, [SequenceGap])))
      else if !HasKey(e.body, Lit("prev_receipt")) then Some(Raised)
      else if Lookup(e.body, Lit("prev_receipt")).value != Str(expectedPrev) then
        if Sliceable(Lookup(e.body, Lit("prev_receipt")).value) then Some(Returned(Verdict(Inconclusive, Fail, [ChainBreak])))
        else Some(Raised)
      else if e.receiptHash.None? then Some(Raised)
      else None
  }

  function ChainFrom(p: Platform, envelopes: seq<Envelope>, key: Jwk, keysByKid: map<Text, Jwk>, expectedPrev: Text, expectedSeq: int): Outcome {
    if envelopes == [] then Returned(PASSED)
    else
      var e := envelopes[0];
      match LinkFailure(p, e, KeyFor(e, key, keysByKid), expectedPrev, expectedSeq)
      case Some(outcome) => outcome
      case None => ChainFrom(p, envelopes[1..], key, keysByKid, e.receiptHash.value, expectedSeq + 1)
  }

  /** What `verify_chain` returns. */
  function ChainVerdict(p: Platform, envelopes: seq<Envelope>, key: Jwk, keysByKid: map<Text, Jwk>): Outcome {
    if envelopes == [] then Returned(Verdict(Inconclusive, Inconclusive, [EmptyChain]))
    else ChainFrom(p, envelopes, key, keysByKid, Genesis(), 1)
  }

  /** `verify_chain` */
  method VerifyChain(p: Platform, envelopes: seq<Envelope>, key: Jwk, keysByKid: map<Text, Jwk>)
    returns (raised: bool, result: VerificationResult)
    ensures raised <==> ChainVerdict(p, envelopes, key, keysByKid).Raised?
    ensures !raised ==> Returned(result.View()) == ChainVerdict(p, envelopes, key, keysByKid)
  {
    hide ReceiptVerdict, Lookup, KeyFor, Genesis, Sliceable, HasKey;
    result := new VerificationResult();
    raised := false;
    if envelopes == [] {
      result.errors := result.errors + [EmptyChain];
      return;
    }
    var expectedPrev := Genesis();
    var expectedSeq := 1;
    assert envelopes[0..] == envelopes;
    for i := 0 to |envelopes|
      invariant result.View() == Verdict(Inconclusive, Inconclusive, []) && fresh(result)
      invariant ChainVerdict(p, envelopes, key, keysByKid) ==
                ChainFrom(p, envelopes[i..], key, keysByKid, expectedPrev, expectedSeq)
    {
      var envelope := envelopes[i];
      var resolved := KeyFor(envelope, key, keysByKid);
      assert envelopes[i..][0] == envelope && envelopes[i..][1..] == envelopes[i + 1..];
      var failed, single := VerifyReceipt(p, envelope, resolved, None);
      if failed {
        raised := true;
        return;
      }
      if single.receiptIntegrity == Fail {
        result.receiptIntegrity := Fail;
        result.errors := result.errors + single.errors;
        return;
      }
      var actualSeq := Lookup(envelope.body, Lit("seq"));
      if actualSeq.None? || p.IntOf(actualSeq.value).None? {
        raised := true;
        return;
      }
      if p.IntOf(actualSeq.value).value != expectedSeq {
        result.chainValidity := Fail;
        result.errors := result.errors + [SequenceGap];
        return;
      }
      var actualPrev := Lookup(envelope.body, Lit("prev_receipt"));
      if actualPrev.None? {
        raised := true;
        return;
      }
      if actualPrev.value != Str(expectedPrev) {
        if !Sliceable(actualPrev.value) {
          raised := true;
          return;
        }
        result.chainValidity := Fail;
        result.errors := result.errors + [ChainBreak];
        return;
      }
      if envelope.receiptHash.None? {
        raised := true;
        return;
      }
      expectedPrev := envelope.receiptHash.value;
      expectedSeq := expectedSeq + 1;
    }
    result.receiptIntegrity := Pass;
    result.chainValidity := Pass;
  }
}
