/** `gateway/receipts.py`: receipts and the chain that signs them. */
module Receipts {
  import opened Basics
  import opened Json
  import opened Numerals
  import opened Sha256
  import opened Platform
  import Canonical

  /** `GENESIS_PREV_RECEIPT`: the prefix and 64 zeros. */
  function Genesis(): Text {
    Lit("sha256:") + seq(64, _ => 0x30)
  }

  /** A list of strings as a JSON list. */
  function Strs(ts: seq<Text>): (r: seq<Json>)
    ensures |r| == |ts| && forall i | 0 <= i < |ts| :: r[i] == Str(ts[i])
  {
    seq(|ts|, i requires 0 <= i < |ts| => Str(ts[i]))
  }

  function StrOption(t: Option<Text>): Option<Json> {
    if t.Some? then Some(Str(t.value)) else None
  }

  function OptionalMember(k: string, v: Option<Json>): seq<Member> {
    if v.Some? then [Member(Lit(k), v.value)] else []
  }

  datatype Receipt = Receipt(
    v: Text,
    tenant: Text,
    seqNo: Text,
    ts: Text,
    requestDigest: Text,
    policyVersion: Text,
    decision: Text,
    reasons: seq<Text>,
    prevReceipt: Text,
    tokenJti: Option<Text>,
    resourceRegistrationId: Option<Text>,
    delegationContext: Option<seq<Member>>,
    receiptHash: Text,
    signature: Text,
    kid: Text)
  {
    /** `body_dict`: nine members, and the optional ones only when they are not None. */
    function Body(): seq<Member> {
      RequiredMembers() + OptionalMembers()
    }

    function RequiredMembers(): seq<Member> {
      [ Member(Lit("v"), Str(v)),
        Member(Lit("tenant"), Str(tenant)),
        Member(Lit("seq"), Str(seqNo)),
        Member(Lit("ts"), Str(ts)),
        Member(Lit("request_digest"), Str(requestDigest)),
        Member(Lit("policy_version"), Str(policyVersion)),
        Member(Lit("decision"), Str(decision)),
        Member(Lit("reasons"), Arr(Strs(reasons))),
        Member(Lit("prev_receipt"), Str(prevReceipt)) ]
    }

    function OptionalMembers(): seq<Member> {
      OptionalMember("token_jti", StrOption(tokenJti)) +
      OptionalMember("resource_registration_id", StrOption(resourceRegistrationId)) +
      OptionalMember("delegation_context", if delegationContext.Some? then Some(Obj(delegationContext.value)) else None)
    }

    /** `envelope_dict` */
    function ToEnvelope(): Envelope {
      Envelope(Body(), Some(Sig(Some(Lit("EdDSA")), Some(kid), Some(signature))), Some(receiptHash))
    }
  }

  /** The `sig` dict of an envelope; a key that is missing is None. */
  datatype Sig = Sig(alg: Option<Text>, kid: Option<Text>, value: Option<Text>)

  /**
   * A receipt envelope as a verifier is handed it. A missing or empty body is `[]`; a missing or
   * empty `sig` is None, and so is a missing `receipt_hash`.
   */
  datatype Envelope = Envelope(body: seq<Member>, sig: Option<Sig>, receiptHash: Option<Text>)

  datatype Jwk = Jwk(kid: Option<Text>, x: Option<Text>)

  /** What a call of `sign_decision` is given, with the reading of the clock. */
  datatype Decision = Decision(
    ts: Text,
    requestDigest: Text,
    policyVersion: Text,
    decision: Text,
    reasons: seq<Text>,
    tokenJti: Option<Text>,
    resourceRegistrationId: Option<Text>,
    delegationContext: Option<seq<Member>>)

  /** Who signs: everything about a chain that its calls do not change. */
  datatype Signer = Signer(platform: Platform, tenant: Text, key: PrivateKey, kid: Text) {
    /** `get_public_key_jwk` */
    function ToJwk(): Jwk {
      Jwk(Some(kid), Some(platform.publicX(key)))
    }
  }

  /** The receipt for a decision before hashing and signing. */
  function Draft(signer: Signer, seqNo: int, prev: Text, d: Decision): Receipt {
    Receipt(Lit("1"), signer.tenant, Decimal(seqNo), d.ts, d.requestDigest, d.policyVersion, d.decision, d.reasons, prev,
            d.tokenJti, d.resourceRegistrationId, d.delegationContext, [], [], [])
  }

  /** The finished receipt, or the canonicalization error of its body. */
  function Signed(signer: Signer, seqNo: int, prev: Text, d: Decision): Result<Receipt, Canonical.Error> {
    var draft := Draft(signer, seqNo, prev, d);
    var bytes :- Canonical.Canonicalize(Obj(draft.Body()));
    Ok(draft.(receiptHash := HashText(signer.platform.sha, bytes),
              signature := signer.platform.sign(signer.key, bytes),
              kid := signer.kid))
  }

  datatype ChainState = ChainState(seqNo: int, prev: Text, receipts: seq<Receipt>)

  /** One call of `sign_decision`. The number is taken before anything can raise, so a failed call uses it up. */
  function SignStep(signer: Signer, s: ChainState, d: Decision): ChainState {
    match Signed(signer, s.seqNo + 1, s.prev, d)
    case Ok(r) => ChainState(s.seqNo + 1, r.receiptHash, s.receipts + [r])
    case Err(_) => s.(seqNo := s.seqNo + 1)
  }

  /** `ReceiptChain` */
  class ReceiptChain {
    const signer: Signer
    var seqNo: int
    var prevReceiptHash: Text
    var receipts: seq<Receipt>

    constructor (signer: Signer, startSeq: int, startPrevHash: Text)
      ensures this.signer == signer && State() == ChainState(startSeq, startPrevHash, [])
    {
      this.signer := signer;
      seqNo := startSeq;
      prevReceiptHash := startPrevHash;
      receipts := [];
    }

    function State(): ChainState
      reads this
    {
      ChainState(seqNo, prevReceiptHash, receipts)
    }

    method SignDecision(d: Decision) returns (r: Result<Receipt, Canonical.Error>)
      modifies this
      ensures State() == SignStep(signer, old(State()), d)
      ensures r == Signed(signer, old(seqNo) + 1, old(prevReceiptHash), d)
    {
      hide Canonical.Canonicalize, HashText, Decimal;
      seqNo := seqNo + 1;
      var receipt := Draft(signer, seqNo, prevReceiptHash, d);
      var bodyBytes := Canonical.Canonicalize(Obj(receipt.Body()));
      if bodyBytes.Err? {
        return Err(bodyBytes.error);
      }
      var receiptHash := HashText(signer.platform.sha, bodyBytes.value);
      receipt := receipt.(receiptHash := receiptHash);
      receipt := receipt.(signature := signer.platform.sign(signer.key, bodyBytes.value));
      receipt := receipt.(kid := signer.kid);
      prevReceiptHash := receiptHash;
      receipts := receipts + [receipt];
      return Ok(receipt);
    }

    /** `get_receipts` */
    method GetReceipts() returns (r: seq<Receipt>)
      ensures r == receipts
    {
      r := receipts;
    }

    /** `get_receipt_hashes`: the hashes as the Merkle tree takes them. */
    method GetReceiptHashes() returns (hashes: seq<Text>)
      ensures hashes == BareHashes(receipts)
    {
      hashes := [];
      for i := 0 to |receipts|
        invariant |hashes| == i && forall k | 0 <= k < i :: hashes[k] == RemovePrefix(receipts[k].receiptHash)
      {
        hashes := hashes + [RemovePrefix(receipts[i].receiptHash)];
      }
    }
  }

  function BareHashes(rs: seq<Receipt>): seq<Text> {
    seq(|rs|, i requires 0 <= i < |rs| => RemovePrefix(rs[i].receiptHash))
  }
}
