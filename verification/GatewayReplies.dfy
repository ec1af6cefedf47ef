/** What one reply of `authorize` guarantees, said of the request, the envelope and the token themselves. */
module GatewayReplies {
  import opened Basics
  import opened Json
  import opened Numerals
  import opened Receipts
  import opened Digests
  import opened Gateway
  import Canonical
  import Policy
  import ProofReplay
  import Resources
  import SignerTheorems

  /** The proof of a call that is answered: the caller's own, under its registered key, fresh, unused, and for this very intent. */
  lemma ReplyHadProof(dep: Deployment, w: World, r: Request)
    requires Fits(dep, r) && Reply(dep, w, r).Ok?
    ensures r.proof != [] && dep.jwt.subject(r.proof) == Some(r.agentId) && r.agentId in r.registry
    ensures var decoded := dep.jwt.decode(r.proof, r.registry[r.agentId], r.decodeTime);
            && decoded.Valid?
            && decoded.claims.action == Some(r.action) && decoded.claims.resource == Some(r.resource)
            && decoded.claims.actionDigest == Some(Reply(dep, w, r).value.actionDigest)
            && r.ageTime - decoded.claims.iat <= 30.0 && decoded.claims.jti !in w.proofCache
    ensures ActionDigest(dep.signer.platform.sha, Intent(r.agentId, r.action, r.resource, r.parameters)) ==
            Ok(Reply(dep, w, r).value.actionDigest)
  {
    hide ActionDigest, DecisionOf, Signed, ProofReplay.Outcome;
    assert CheckProof(dep, w, r).Ok?;
    var digest := IntentDigest(dep, r).value;
    var a := r.Attempt(digest);
    assert ProofReplay.Outcome(dep.jwt, w.proofCache, a).Ok?;
    ProofReplay.AcceptedIff(dep.jwt, w.proofCache, a, ProofReplay.Outcome(dep.jwt, w.proofCache, a).value);
    DigestNonempty(dep, r);
    assert Reply(dep, w, r).value.actionDigest == digest;
  }

  lemma DigestNonempty(dep: Deployment, r: Request)
    requires IntentDigest(dep, r).Ok?
    ensures IntentDigest(dep, r).value != []
  {
    hide Canonical.Canonicalize, ToHex;
  }

  /** Which calls are refused before the proof is looked at, and which for the proof. */
  lemma RefusedBefore(dep: Deployment, w: World, r: Request)
    requires Fits(dep, r)
    ensures Reply(dep, w, r) == Err(NoProof) <==> r.proof == []
    ensures forall e :: Reply(dep, w, r) == Err(BadIntent(e)) <==> r.proof != [] && IntentDigest(dep, r) == Err(e)
    ensures r.proof != [] && IntentDigest(dep, r).Ok? ==>
              forall e :: Reply(dep, w, r) == Err(BadProof(e)) <==>
                ProofReplay.Outcome(dep.jwt, w.proofCache, r.Attempt(IntentDigest(dep, r).value)) == Err(e)
  {
    hide IntentDigest, DecisionOf, Signed, ProofReplay.Outcome;
  }

  /** The call as the policy engine sees it, with its readings of the clock. */
  function EngineCall(r: Request): Policy.Call {
    Policy.Call(r.agentId, r.action, r.resource, r.ruleTimes, false)
  }

  /**
   * How an answered call is decided: in strict mode an unregistered resource is denied for that alone;
   * every other call is decided by the engine on its agent, action and resource.
   */
  lemma ReplyDecision(dep: Deployment, w: World, r: Request)
    requires Fits(dep, r) && Reply(dep, w, r).Ok?
    ensures var reply := Reply(dep, w, r).value;
            var registered := Resources.Answer(w.resources, r.resource, r.resourceTime);
            if dep.policy.requireRegistration && !registered
            then reply.decision == Lit("deny") && reply.reasonCodes == [Lit("RESOURCE_NOT_REGISTERED")]
            else
              var answer := Policy.Evaluation(dep.lower, TypedRules(dep.policy), w.counters, EngineCall(r));
              reply.decision == answer.decision && reply.reasonCodes == answer.reasonCodes
  {
    hide Lit, CheckProof, PolicyHash, Signed, Policy.Evaluation, TypedRules, Resources.Answer;
    var d := DecisionOf(dep, w, r, CheckProof(dep, w, r).value).value;
    SignedKeeps(dep.signer, w.chain.seqNo + 1, w.chain.prev, d);
  }

  /** What the body in an answered call's envelope states: this call's digest, decision, reasons and resource, under this policy. */
  lemma EnvelopeStates(dep: Deployment, w: World, r: Request)
    requires Fits(dep, r) && Reply(dep, w, r).Ok?
    ensures var reply := Reply(dep, w, r).value;
            var body := reply.receipt.body;
            && Lookup(body, Lit("request_digest")) == Some(Str(reply.actionDigest))
            && Lookup(body, Lit("decision")) == Some(Str(reply.decision))
            && Lookup(body, Lit("reasons")) == Some(Arr(Strs(reply.reasonCodes)))
            && PolicyHash(dep.signer.platform.sha, dep.policy).Ok?
            && Lookup(body, Lit("policy_version")) == Some(Str(PolicyHash(dep.signer.platform.sha, dep.policy).value))
            && Lookup(body, Lit("tenant")) == Some(Str(dep.signer.tenant)) && Lookup(body, Lit("ts")) == Some(Str(r.stamp))
            && Lookup(body, Lit("seq")) == Some(Str(Decimal(w.chain.seqNo + 1)))
            && Lookup(body, Lit("prev_receipt")) == Some(Str(w.chain.prev))
            && Lookup(body, Lit("token_jti")) == (if reply.token.Some? then Some(Str(reply.token.value.jti)) else None)
            && Lookup(body, Lit("resource_registration_id")) ==
               (if Resources.Answer(w.resources, r.resource, r.resourceTime) then Some(Str(r.resource)) else None)
            && Lookup(body, Lit("delegation_context")) ==
               (if r.delegationContext.Some? then Some(Obj(r.delegationContext.value)) else None)
            && reply.receipt.receiptHash == Some(reply.receiptHash)
  {
    hide Lit, Lookup, Strs, CheckProof, PolicyHash, Signed, Verdict, Resources.Answer, Decimal, Receipt.Body;
    var d := DecisionOf(dep, w, r, CheckProof(dep, w, r).value).value;
    SignedKeeps(dep.signer, w.chain.seqNo + 1, w.chain.prev, d);
    SignerTheorems.SignedBodyStates(dep.signer, w.chain.seqNo + 1, w.chain.prev, d);
  }

  /** What a token says: who may do what to which resource, under which receipt, for sixty seconds from the second it was issued in. */
  lemma TokenStates(dep: Deployment, w: World, r: Request)
    requires Fits(dep, r) && Reply(dep, w, r).Ok? && Reply(dep, w, r).value.token.Some?
    ensures var reply := Reply(dep, w, r).value;
            var t := reply.token.value;
            && t.sub == r.agentId && t.action == r.action && t.resource == r.resource && t.tid == dep.signer.tenant
            && t.actionDigest == reply.actionDigest && t.receiptHash == reply.receiptHash && t.jti == r.uuid
            && t.decision == Lit("approve") && reply.decision == Lit("approve")
            && t.exp == t.iat + 60
            && (r.tokenTime >= 0.0 ==> t.iat as real <= r.tokenTime < t.iat as real + 1.0)
  {
    hide Lit, CheckProof, PolicyHash, Signed, Verdict, Registered, Receipt.Body;
    var d := DecisionOf(dep, w, r, CheckProof(dep, w, r).value).value;
    SignedKeeps(dep.signer, w.chain.seqNo + 1, w.chain.prev, d);
  }

  /**
   * A token is only issued for what the policy allows: no denied text is anywhere in the resource, some
   * allowed text is where any are listed, and the action is on every list of actions that is not empty.
   */
  lemma TokenWithinPolicy(dep: Deployment, w: World, r: Request, j: nat)
    requires Fits(dep, r) && Reply(dep, w, r).Ok? && Reply(dep, w, r).value.token.Some? && j < |dep.policy.rules|
    ensures match TypedRules(dep.policy)[j].config
            case Allowlist(allowed) => allowed == [] || exists k | 0 <= k < |allowed| :: dep.lower(allowed[k]) == dep.lower(r.action)
            case ResourceScope(allowed, denied) =>
              && !Policy.AnyFoundIn(dep.lower, denied, r.resource)
              && (allowed == [] || Policy.AnyFoundIn(dep.lower, allowed, r.resource))
            case RateLimit(_, _) =>
              Policy.RateOk(TypedRules(dep.policy), Policy.CountersAfter(TypedRules(dep.policy), w.counters, EngineCall(r), j), EngineCall(r), j)
            case UnknownType => true
  {
    hide Lit, Reply, TypedRules, Policy.Evaluation, Resources.Answer, Policy.AnyFoundIn, Policy.RateOk, Policy.CountersAfter,
      Policy.Offences, WellTyped;
    TokenStates(dep, w, r);
    ReplyDecision(dep, w, r);
    Policy.DenyIsNotApprove();
    Policy.AnswerIsOffences(dep.lower, TypedRules(dep.policy), w.counters, EngineCall(r));
    assert !Policy.Offends(dep.lower, TypedRules(dep.policy), w.counters, EngineCall(r), j);
  }

  /** An approval always comes with a token, a denial never does. */
  lemma TokenIffApproved(dep: Deployment, w: World, r: Request)
    requires Fits(dep, r) && Reply(dep, w, r).Ok?
    ensures Reply(dep, w, r).value.token.Some? <==> Reply(dep, w, r).value.decision == Lit("approve")
  {
    hide Lit, CheckProof, PolicyHash, Signed, Verdict, Registered, Receipt.Body;
    var d := DecisionOf(dep, w, r, CheckProof(dep, w, r).value).value;
    SignedKeeps(dep.signer, w.chain.seqNo + 1, w.chain.prev, d);
  }
}
