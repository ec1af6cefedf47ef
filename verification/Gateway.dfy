/** `gateway/gateway_service.py`: one authorization call, from the proof to the token. */
module Gateway {
  import opened Basics
  import opened Json
  import opened Sha256
  import opened Receipts
  import opened Digests
  import opened MerkleTree
  import Canonical
  import Merkle
  import Policy
  import ProofReplay
  import Resources

  /** What `str(uuid.uuid4())` gives. */
  type Uuid = t: Text | |t| == 36 && forall i | 0 <= i < |t| :: t[i] < 128 witness seq(36, _ => 0x30)

  const TOKEN_TTL: int := 60

  /** What a service is built from and its calls do not change. */
  datatype Deployment = Deployment(signer: Signer, jwt: ProofReplay.JwtLibrary, lower: Policy.Lower, policy: PolicySource)
  {
    function Sha(): Sha256.Sha {
      signer.platform.sha
    }
  }

  /**
   * One call of `authorize`: its arguments ("" is a missing proof), the agents' keys at the time, the
   * uuid it would draw, and its readings of the clock in the order in which they are made.
   */
  datatype Request = Request(
    agentId: Text, action: Text, resource: Text, proof: Text,
    parameters: Option<seq<Member>>, delegationContext: Option<seq<Member>>,
    registry: map<Text, Text>, uuid: Uuid,
    decodeTime: real, ageTime: real, storeTime: real, sweepTime: real,
    resourceTime: real, ruleTimes: seq<real>, stamp: Text, tokenTime: real)
  {
    function ToIntent(): Intent {
      Intent(agentId, action, resource, parameters)
    }

    function Attempt(digest: Text): ProofReplay.Attempt {
      ProofReplay.Attempt(proof, agentId, action, resource, Some(digest), registry, decodeTime, ageTime, storeTime, sweepTime)
    }

    function Call(): Policy.Call {
      Policy.Call(agentId, action, resource, ruleTimes, false)
    }
  }

  /** The claims of an issued token. */
  datatype Token = Token(
    sub: Text, tid: Text, action: Text, resource: Text, actionDigest: Text, decision: Text,
    receiptHash: Text, jti: Text, iat: int, exp: int)

  datatype Response = Response(
    decision: Text, reasonCodes: seq<Text>, token: Option<Token>, receipt: Envelope, actionDigest: Text, receiptHash: Text)

  /** The exceptions of a call; the last two come after the proof has been accepted. */
  datatype Failure =
    | NoProof
    | BadIntent(intentError: Canonical.Error)
    | BadProof(proofError: ProofReplay.Error)
    | BadPolicy(policyError: Canonical.Error)
    | Unsigned(bodyError: Canonical.Error)

  /** Everything a call can change, and the resources it looks up. */
  datatype World = World(proofCache: map<Text, real>, counters: Policy.Counters, chain: ChainState, resources: Resources.State)

  // ----- what a call does -----

  function IntentDigest(dep: Deployment, r: Request): Result<Text, Canonical.Error> {
    ActionDigest(dep.Sha(), r.ToIntent())
  }

  /** Step 0: the action digest, or the reason why the call is refused. */
  function CheckProof(dep: Deployment, w: World, r: Request): Result<Text, Failure> {
    if r.proof == [] then Err(NoProof)
    else
      match IntentDigest(dep, r)
      case Err(e) => Err(BadIntent(e))
      case Ok(digest) =>
        match ProofReplay.Outcome(dep.jwt, w.proofCache, r.Attempt(digest))
        case Err(e) => Err(BadProof(e))
        case Ok(_) => Ok(digest)
  }

  predicate Registered(w: World, r: Request) {
    Resources.Answer(w.resources, r.resource, r.resourceTime)
  }

  /** Strict mode: an unregistered resource is denied before the policy is asked. */
  predicate DeniedUnregistered(dep: Deployment, w: World, r: Request) {
    dep.policy.requireRegistration && !Registered(w, r)
  }

  predicate Fits(dep: Deployment, r: Request) {
    WellTyped(dep.policy) && |r.ruleTimes| == |dep.policy.rules|
  }

  /** The decision and its reasons. */
  function Verdict(dep: Deployment, w: World, r: Request): Policy.EvaluationResult
    requires Fits(dep, r)
  {
    if DeniedUnregistered(dep, w, r) then Policy.EvaluationResult(Lit("deny"), [Lit("RESOURCE_NOT_REGISTERED")])
    else Policy.Evaluation(dep.lower, TypedRules(dep.policy), w.counters, r.Call())
  }

  function CountersAfter(dep: Deployment, w: World, r: Request): Policy.Counters
    requires Fits(dep, r)
  {
    if DeniedUnregistered(dep, w, r) then w.counters
    else Policy.CountersAfter(TypedRules(dep.policy), w.counters, r.Call(), |dep.policy.rules|)
  }

  /** What `sign_decision` is called with; hashing the policy may raise before it is. */
  function DecisionOf(dep: Deployment, w: World, r: Request, digest: Text): Result<Decision, Canonical.Error>
    requires Fits(dep, r)
  {
    var version :- PolicyHash(dep.Sha(), dep.policy);
    var verdict := Verdict(dep, w, r);
    Ok(Decision(r.stamp, digest, version, verdict.decision, verdict.reasonCodes,
                if verdict.decision == Lit("approve") then Some(r.uuid) else None,
                if Registered(w, r) then Some(r.resource) else None,
                r.delegationContext))
  }

  /** `int(x)` on a float. */
  function Truncated(x: real): int {
    if x >= 0.0 then x.Floor else -(-x).Floor
  }

  /** The claims `issue_token` signs. */
  function TokenFor(dep: Deployment, r: Request, digest: Text, receiptHash: Text, jti: Text): Token {
    var now := Truncated(r.tokenTime);
    Token(r.agentId, dep.signer.tenant, r.action, r.resource, digest, Lit("approve"), receiptHash, jti, now, now + TOKEN_TTL)
  }

  function ResponseFor(dep: Deployment, r: Request, digest: Text, receipt: Receipt): Response {
    Response(receipt.decision, receipt.reasons,
             if receipt.tokenJti.Some? then Some(TokenFor(dep, r, digest, receipt.receiptHash, receipt.tokenJti.value)) else None,
             receipt.ToEnvelope(), digest, receipt.receiptHash)
  }

  /** The receipt of a call, or its exception. */
  function ReceiptOf(dep: Deployment, w: World, r: Request): Result<Receipt, Failure>
    requires Fits(dep, r)
  {
    var digest :- CheckProof(dep, w, r);
    match DecisionOf(dep, w, r, digest)
    case Err(e) => Err(BadPolicy(e))
    case Ok(d) =>
      match Signed(dep.signer, w.chain.seqNo + 1, w.chain.prev, d)
      case Err(e) => Err(Unsigned(e))
      case Ok(receipt) => Ok(receipt)
  }

  function Reply(dep: Deployment, w: World, r: Request): Result<Response, Failure>
    requires Fits(dep, r)
  {
    var receipt :- ReceiptOf(dep, w, r);
    Ok(ResponseFor(dep, r, CheckProof(dep, w, r).value, receipt))
  }

  /** The state after a call, whether it returned or raised. */
  function After(dep: Deployment, w: World, r: Request): World
    requires Fits(dep, r)
  {
    match CheckProof(dep, w, r)
    case Err(_) => w
    case Ok(digest) =>
      World(ProofReplay.CacheAfter(dep.jwt, w.proofCache, r.Attempt(digest)),
            CountersAfter(dep, w, r),
            match DecisionOf(dep, w, r, digest)
              case Err(_) => w.chain
              case Ok(d) => SignStep(dep.signer, w.chain, d),
            w.resources)
  }

  // ----- the service -----

  datatype Stats = Stats(
    tenant: Text, totalReceipts: nat, approvals: nat, denials: nat, merkleRoot: Option<Text>, policyVersion: Text)

  /** What `get_chain_stats` may raise: a receipt hash that is not hexadecimal, or a policy that cannot be hashed. */
  datatype StatsError = BadRoot(rootError: Merkle.ValueError) | BadVersion(versionError: Canonical.Error)

  function CountDecision(rs: seq<Receipt>, decision: Text): (k: nat)
    ensures k <= |rs|
  {
    if rs == [] then 0
    else CountDecision(rs[..|rs| - 1], decision) + if rs[|rs| - 1].decision == decision then 1 else 0
  }

  /** None when there are no receipts, otherwise the root of their hashes. */
  function MerkleRootOf(sha: Sha, rs: seq<Receipt>): Result<Option<Text>, Merkle.ValueError> {
    if rs == [] then Ok(None)
    else
      var root :- Merkle.RootText(sha, ReceiptDomain, BareHashes(rs));
      Ok(Some(root))
  }

  function StatsOf(dep: Deployment, rs: seq<Receipt>): Result<Stats, StatsError> {
    match MerkleRootOf(dep.Sha(), rs)
    case Err(e) => Err(BadRoot(e))
    case Ok(root) =>
      match PolicyHash(dep.Sha(), dep.policy)
      case Err(e) => Err(BadVersion(e))
      case Ok(version) =>
        Ok(Stats(dep.signer.tenant, |rs|, CountDecision(rs, Lit("approve")), CountDecision(rs, Lit("deny")), root, version))
  }

  /** `GatewayService`, with the objects it works through. */
  class GatewayService {
    const dep: Deployment
    const engine: Policy.PolicyEngine
    const proofs: ProofReplay.ProofVerifier
    const resources: Resources.ResourceRegistry
    const receiptChain: ReceiptChain

    /** A service on a given chain position, as after startup. */
    constructor (dep: Deployment, proofs: ProofReplay.ProofVerifier, resources: Resources.ResourceRegistry, startSeq: int, startPrevHash: Text)
      requires WellTyped(dep.policy) && proofs.jwt == dep.jwt
      ensures this.dep == dep && this.proofs == proofs && this.resources == resources && Wired()
      ensures Now() == World(proofs.cache, map[], ChainState(startSeq, startPrevHash, []), resources.Now())
    {
      this.dep := dep;
      this.proofs := proofs;
      this.resources := resources;
      engine := new Policy.PolicyEngine(dep.lower, TypedRules(dep.policy));
      receiptChain := new ReceiptChain(dep.signer, startSeq, startPrevHash);
    }

    /** The parts belong to this deployment. */
    ghost predicate Wired() {
      && WellTyped(dep.policy) && engine.rules == TypedRules(dep.policy) && engine.lower == dep.lower
      && proofs.jwt == dep.jwt && receiptChain.signer == dep.signer
    }

    function Now(): World
      reads engine, proofs, resources, receiptChain
    {
      World(proofs.cache, engine.rateCounters, receiptChain.State(), resources.Now())
    }

    method Authorize(r: Request) returns (reply: Result<Response, Failure>)
      requires Wired() && Fits(dep, r)
      modifies engine, proofs, receiptChain
      ensures reply == Reply(dep, old(Now()), r)
      ensures Now() == After(dep, old(Now()), r)
    {
      hide Policy.Evaluation, Policy.CountersAfter, ProofReplay.Outcome, ProofReplay.CacheAfter, Signed, PolicyHash, IntentDigest,
        Resources.Answer, TypedRules, Lit, Receipt.ToEnvelope, WellTyped;
      if r.proof == [] {
        return Err(NoProof);
      }
      var actionDigest := IntentDigest(dep, r);
      if actionDigest.Err? {
        return Err(BadIntent(actionDigest.error));
      }
      var digest := actionDigest.value;
      ghost var w := Now();
      var verified := proofs.VerifyAgentProof(r.Attempt(digest));
      if verified.Err? {
        RefusedLeavesCache(dep.jwt, w.proofCache, r.Attempt(digest));
        return Err(BadProof(verified.error));
      }
      var registrationId := None;
      var registered := resources.IsRegisteredAndActive(r.resource, r.resourceTime);
      if registered {
        registrationId := Some(r.resource);
      }
      if dep.policy.requireRegistration && registrationId.None? {
        var version := PolicyHash(dep.Sha(), dep.policy);
        if version.Err? {
          return Err(BadPolicy(version.error));
        }
        var denial := receiptChain.SignDecision(
          Decision(r.stamp, digest, version.value, Lit("deny"), [Lit("RESOURCE_NOT_REGISTERED")], None, None, r.delegationContext));
        Policy.DenyIsNotApprove();
        if denial.Err? {
          return Err(Unsigned(denial.error));
        }
        SignedKeeps(dep.signer, w.chain.seqNo + 1, w.chain.prev,
          Decision(r.stamp, digest, version.value, Lit("deny"), [Lit("RESOURCE_NOT_REGISTERED")], None, None, r.delegationContext));
        return Ok(Response(Lit("deny"), [Lit("RESOURCE_NOT_REGISTERED")], None, denial.value.ToEnvelope(), digest, denial.value.receiptHash));
      }
      var result := engine.Evaluate(r.Call());
      var tokenJti := if result.decision == Lit("approve") then Some(r.uuid) else None;
      var version := PolicyHash(dep.Sha(), dep.policy);
      if version.Err? {
        return Err(BadPolicy(version.error));
      }
      var d := Decision(r.stamp, digest, version.value, result.decision, result.reasonCodes, tokenJti, registrationId, r.delegationContext);
      var receipt := receiptChain.SignDecision(d);
      if receipt.Err? {
        return Err(Unsigned(receipt.error));
      }
      SignedKeeps(dep.signer, w.chain.seqNo + 1, w.chain.prev, d);
      var token := None;
      if result.decision == Lit("approve") {
        token := Some(TokenFor(dep, r, digest, receipt.value.receiptHash, r.uuid));
      }
      return Ok(Response(result.decision, result.reasonCodes, token, receipt.value.ToEnvelope(), digest, receipt.value.receiptHash));
    }

    /** `get_merkle_root` */
    method GetMerkleRoot() returns (root: Result<Option<Text>, Merkle.ValueError>)
      ensures root == MerkleRootOf(receiptChain.signer.platform.sha, receiptChain.receipts)
    {
      var hashes := receiptChain.GetReceiptHashes();
      if hashes == [] {
        return Ok(None);
      }
      var r := Merkle.ComputeBatchRoot(receiptChain.signer.platform.sha, hashes);
      return if r.Err? then Err(r.error) else Ok(Some(r.value));
    }

    /** `get_chain_stats` */
    method GetChainStats() returns (stats: Result<Stats, StatsError>)
      requires Wired()
      ensures stats == StatsOf(dep, receiptChain.receipts)
    {
      hide MerkleRootOf, PolicyHash, Lit;
      var receipts := receiptChain.GetReceipts();
      var approvals, denials := 0, 0;
      for i := 0 to |receipts|
        invariant approvals == CountDecision(receipts[..i], Lit("approve"))
        invariant denials == CountDecision(receipts[..i], Lit("deny"))
      {
        assert receipts[..i + 1][..i] == receipts[..i];
        if receipts[i].decision == Lit("approve") {
          approvals := approvals + 1;
        }
        if receipts[i].decision == Lit("deny") {
          denials := denials + 1;
        }
      }
      assert receipts[..|receipts|] == receipts;
      var root := GetMerkleRoot();
      if root.Err? {
        return Err(BadRoot(root.error));
      }
      var version := PolicyHash(dep.Sha(), dep.policy);
      if version.Err? {
        return Err(BadVersion(version.error));
      }
      return Ok(Stats(dep.signer.tenant, |receipts|, approvals, denials, root.value, version.value));
    }
  }

  lemma RefusedLeavesCache(jwt: ProofReplay.JwtLibrary, cache: map<Text, real>, a: ProofReplay.Attempt)
    requires ProofReplay.Outcome(jwt, cache, a).Err?
    ensures ProofReplay.CacheAfter(jwt, cache, a) == cache
  {
  }

  /** A signed receipt says what it was called with. */
  lemma SignedKeeps(signer: Signer, seqNo: int, prev: Text, d: Decision)
    requires Signed(signer, seqNo, prev, d).Ok?
    ensures var receipt := Signed(signer, seqNo, prev, d).value;
            && receipt.decision == d.decision && receipt.reasons == d.reasons && receipt.tokenJti == d.tokenJti
            && receipt.requestDigest == d.requestDigest && receipt.tenant == signer.tenant
            && receipt.resourceRegistrationId == d.resourceRegistrationId && receipt.policyVersion == d.policyVersion
  {
    hide Canonical.Canonicalize, HashText, Receipt.Body;
  }
}
