/** Runs of a gateway: authorization calls interleaved with changes to the resource registry. */
module GatewayRuns {
  import opened Basics
  import opened Json
  import opened Receipts
  import opened Digests
  import opened Gateway
  import Canonical
  import CanonicalTheorems
  import Policy
  import ProofReplay
  import Resources
  import Sha256
  import SignerTheorems
  import Utf8

  datatype Event = Authorize(request: Request) | Manage(op: Resources.Op)

  predicate EventFits(dep: Deployment, e: Event) {
    e.Authorize? ==> Fits(dep, e.request)
  }

  predicate AllFit(dep: Deployment, es: seq<Event>) {
    WellTyped(dep.policy) && forall i | 0 <= i < |es| :: EventFits(dep, es[i])
  }

  /** A service just started on a chain position, with nothing cached, counted or registered. */
  function Begin(chain: ChainState): World {
    World(map[], map[], chain, Resources.State(map[], []))
  }

  function Step(dep: Deployment, w: World, e: Event): World
    requires EventFits(dep, e)
  {
    match e
    case Authorize(r) => After(dep, w, r)
    case Manage(op) => w.(resources := Resources.After(w.resources, op))
  }

  function Run(dep: Deployment, chain: ChainState, es: seq<Event>): World
    requires AllFit(dep, es)
  {
    if es == [] then Begin(chain) else Step(dep, Run(dep, chain, es[..|es| - 1]), es[|es| - 1])
  }

  /** The reply to event `i` of a run. */
  function ReplyAt(dep: Deployment, chain: ChainState, es: seq<Event>, i: nat): Result<Response, Failure>
    requires AllFit(dep, es) && i < |es| && es[i].Authorize?
  {
    Reply(dep, Run(dep, chain, es[..i]), es[i].request)
  }

  // ----- what one event asks of each component -----

  /** A call with a proof and a digest tries the proof. */
  function AttemptsAt(dep: Deployment, e: Event): seq<ProofReplay.Attempt> {
    if e.Authorize? && e.request.proof != [] && IntentDigest(dep, e.request).Ok? then
      [e.request.Attempt(IntentDigest(dep, e.request).value)]
    else []
  }

  predicate ProofAccepted(dep: Deployment, w: World, e: Event) {
    e.Authorize? && CheckProof(dep, w, e.request).Ok?
  }

  /** A call whose proof is accepted asks the policy, unless strict mode denies it first. */
  function CallsAt(dep: Deployment, w: World, e: Event): seq<Policy.Call> {
    if ProofAccepted(dep, w, e) && !DeniedUnregistered(dep, w, e.request) then [e.request.Call()] else []
  }

  /** A call whose proof is accepted has one decision signed. */
  function DecisionsAt(dep: Deployment, w: World, e: Event): seq<Decision>
    requires EventFits(dep, e)
  {
    if ProofAccepted(dep, w, e) then
      match DecisionOf(dep, w, e.request, CheckProof(dep, w, e.request).value)
      case Ok(d) => [d]
      case Err(_) => []
    else []
  }

  function OpsAt(e: Event): seq<Resources.Op> {
    if e.Manage? then [e.op] else []
  }

  function AttemptsOf(dep: Deployment, es: seq<Event>): seq<ProofReplay.Attempt> {
    if es == [] then [] else AttemptsOf(dep, es[..|es| - 1]) + AttemptsAt(dep, es[|es| - 1])
  }

  function CallsOf(dep: Deployment, chain: ChainState, es: seq<Event>): (r: seq<Policy.Call>)
    requires AllFit(dep, es)
    ensures forall i | 0 <= i < |r| :: |r[i].clock| == |dep.policy.rules|
  {
    if es == [] then []
    else CallsOf(dep, chain, es[..|es| - 1]) + CallsAt(dep, Run(dep, chain, es[..|es| - 1]), es[|es| - 1])
  }

  function DecisionsOf(dep: Deployment, chain: ChainState, es: seq<Event>): seq<Decision>
    requires AllFit(dep, es)
  {
    if es == [] then []
    else DecisionsOf(dep, chain, es[..|es| - 1]) + DecisionsAt(dep, Run(dep, chain, es[..|es| - 1]), es[|es| - 1])
  }

  function OpsOf(es: seq<Event>): seq<Resources.Op> {
    if es == [] then [] else OpsOf(es[..|es| - 1]) + OpsAt(es[|es| - 1])
  }

  // ----- the components see their own runs -----

  lemma StepCache(dep: Deployment, w: World, e: Event)
    requires EventFits(dep, e)
    ensures Step(dep, w, e).proofCache ==
            if AttemptsAt(dep, e) == [] then w.proofCache else ProofReplay.CacheAfter(dep.jwt, w.proofCache, AttemptsAt(dep, e)[0])
  {
    hide IntentDigest, ProofReplay.Outcome, ProofReplay.CacheAfter, CountersAfter, DecisionOf, SignStep, Resources.After;
    if e.Authorize? && AttemptsAt(dep, e) != [] && ProofReplay.Outcome(dep.jwt, w.proofCache, AttemptsAt(dep, e)[0]).Err? {
      RefusedLeavesCache(dep.jwt, w.proofCache, AttemptsAt(dep, e)[0]);
    }
  }

  lemma StepRest(dep: Deployment, w: World, e: Event)
    requires EventFits(dep, e)
    ensures Step(dep, w, e).counters ==
            if CallsAt(dep, w, e) == [] then w.counters
            else Policy.CountersAfter(TypedRules(dep.policy), w.counters, CallsAt(dep, w, e)[0], |dep.policy.rules|)
    ensures Step(dep, w, e).chain ==
            if DecisionsAt(dep, w, e) == [] then w.chain else SignStep(dep.signer, w.chain, DecisionsAt(dep, w, e)[0])
    ensures Step(dep, w, e).resources == if OpsAt(e) == [] then w.resources else Resources.After(w.resources, OpsAt(e)[0])
  {
    hide CheckProof, DeniedUnregistered, DecisionOf, SignStep, Resources.After, Policy.CountersAfter, ProofReplay.CacheAfter, TypedRules;
  }

  lemma {:induction false} SignAllAppend(signer: Signer, s: ChainState, ds: seq<Decision>, d: Decision)
    ensures SignerTheorems.SignAll(signer, s, ds + [d]) == SignStep(signer, SignerTheorems.SignAll(signer, s, ds), d)
    decreases |ds|
  {
    hide SignStep;
    if ds == [] {
      assert ds + [d] == [d] && [d][1..] == [];
      assert SignerTheorems.SignAll(signer, SignStep(signer, s, d), []) == SignStep(signer, s, d);
    } else {
      assert (ds + [d])[1..] == ds[1..] + [d];
      SignAllAppend(signer, SignStep(signer, s, ds[0]), ds[1..], d);
    }
  }

  /**
   * A run of the gateway is its components' runs: the replay cache has seen exactly the proofs tried,
   * the counters exactly the calls that reached the policy, the chain exactly the decisions, and the
   * registry exactly its own operations. What is proved of the components holds of the gateway.
   */
  lemma {:induction false} RunIsComponents(dep: Deployment, chain: ChainState, es: seq<Event>)
    requires AllFit(dep, es)
    ensures Run(dep, chain, es) ==
            World(ProofReplay.RunCache(dep.jwt, AttemptsOf(dep, es)),
                  Policy.RunCounters(TypedRules(dep.policy), CallsOf(dep, chain, es)),
                  SignerTheorems.SignAll(dep.signer, chain, DecisionsOf(dep, chain, es)),
                  Resources.Run(OpsOf(es)))
    decreases |es|
  {
    hide Step, AttemptsAt, CallsAt, DecisionsAt, Policy.CountersAfter, ProofReplay.CacheAfter, SignStep, Resources.After,
      SignerTheorems.SignAll, TypedRules;
    if es == [] {
      SignAllNone(dep.signer, chain);
    } else {
      var before, e := es[..|es| - 1], es[|es| - 1];
      RunIsComponents(dep, chain, before);
      var w := Run(dep, chain, before);
      assert EventFits(dep, e);
      StepCache(dep, w, e);
      StepRest(dep, w, e);
      AtMostOne(dep, w, e);
      CacheOfMore(dep.jwt, AttemptsOf(dep, before), AttemptsAt(dep, e));
      CountersOfMore(TypedRules(dep.policy), CallsOf(dep, chain, before), CallsAt(dep, w, e));
      ChainOfMore(dep.signer, chain, DecisionsOf(dep, chain, before), DecisionsAt(dep, w, e));
      OpsOfMore(OpsOf(before), OpsAt(e));
    }
  }

  lemma SignAllNone(signer: Signer, chain: ChainState)
    ensures SignerTheorems.SignAll(signer, chain, []) == chain
  {
  }

  lemma AtMostOne(dep: Deployment, w: World, e: Event)
    requires EventFits(dep, e)
    ensures |AttemptsAt(dep, e)| <= 1 && |CallsAt(dep, w, e)| <= 1 && |DecisionsAt(dep, w, e)| <= 1 && |OpsAt(e)| <= 1
    ensures forall i | 0 <= i < |CallsAt(dep, w, e)| :: |CallsAt(dep, w, e)[i].clock| == |dep.policy.rules|
  {
    hide CheckProof, IntentDigest, DeniedUnregistered, DecisionOf;
  }

  lemma CacheOfMore(jwt: ProofReplay.JwtLibrary, xs: seq<ProofReplay.Attempt>, more: seq<ProofReplay.Attempt>)
    requires |more| <= 1
    ensures ProofReplay.RunCache(jwt, xs + more) ==
            if more == [] then ProofReplay.RunCache(jwt, xs)
            else ProofReplay.CacheAfter(jwt, ProofReplay.RunCache(jwt, xs), more[0])
  {
    hide ProofReplay.CacheAfter;
    if more == [] {
      assert xs + more == xs;
    } else {
      assert (xs + more)[..|xs + more| - 1] == xs;
    }
  }

  lemma CountersOfMore(rules: seq<Policy.Rule>, xs: seq<Policy.Call>, more: seq<Policy.Call>)
    requires |more| <= 1 && Policy.ValidCalls(rules, xs) && Policy.ValidCalls(rules, more)
    ensures Policy.ValidCalls(rules, xs + more)
    ensures Policy.RunCounters(rules, xs + more) ==
            if more == [] then Policy.RunCounters(rules, xs)
            else Policy.CountersAfter(rules, Policy.RunCounters(rules, xs), more[0], |rules|)
  {
    hide Policy.CountersAfter;
    if more == [] {
      assert xs + more == xs;
    } else {
      assert (xs + more)[..|xs + more| - 1] == xs;
    }
  }

  lemma ChainOfMore(signer: Signer, s: ChainState, xs: seq<Decision>, more: seq<Decision>)
    requires |more| <= 1
    ensures SignerTheorems.SignAll(signer, s, xs + more) ==
            if more == [] then SignerTheorems.SignAll(signer, s, xs)
            else SignStep(signer, SignerTheorems.SignAll(signer, s, xs), more[0])
  {
    hide SignerTheorems.SignAll, SignStep;
    if more == [] {
      assert xs + more == xs;
    } else {
      assert xs + more == xs + [more[0]];
      SignAllAppend(signer, s, xs, more[0]);
    }
  }

  lemma OpsOfMore(xs: seq<Resources.Op>, more: seq<Resources.Op>)
    requires |more| <= 1
    ensures Resources.Run(xs + more) == if more == [] then Resources.Run(xs) else Resources.After(Resources.Run(xs), more[0])
  {
    hide Resources.After;
    if more == [] {
      assert xs + more == xs;
    } else {
      assert (xs + more)[..|xs + more| - 1] == xs;
    }
  }

  // ----- one call, one receipt -----

  /** What an operator checks once: the tenant can be encoded and the policy can be hashed. */
  predicate SoundDeployment(dep: Deployment) {
    Utf8.Scalar(dep.signer.tenant) && PolicyHash(dep.Sha(), dep.policy).Ok?
  }

  /** What a caller can check before the call: the delegation context holds no float, foreign object or surrogate. */
  predicate DelegationFine(delegation: Option<seq<Member>>) {
    delegation.Some? ==>
      CanonicalTheorems.Printable(Obj(delegation.value)) && CanonicalTheorems.AllScalar(Obj(delegation.value))
  }

  lemma ObjectHashScalar(sha: Sha256.Sha, ms: seq<Member>)
    requires ObjectHash(sha, ms).Ok?
    ensures Utf8.Scalar(ObjectHash(sha, ms).value)
    ensures CanonicalTheorems.AllScalar(Obj(ms))
  {
    hide Canonical.Canonicalize, Utf8.Scalar, CanonicalTheorems.AllScalar;
    CanonicalTheorems.CanonicalizeOkIff(Obj(ms));
    SignerTheorems.HashTextScalar(sha, Canonical.Canonicalize(Obj(ms)).value);
  }

  /** A policy that can be hashed has rule ids that can be encoded. */
  lemma RuleIdsScalar(sha: Sha256.Sha, p: PolicySource)
    requires PolicyHash(sha, p).Ok?
    ensures Utf8.Scalar(PolicyHash(sha, p).value)
    ensures forall i | 0 <= i < |p.rules| :: Utf8.Scalar(p.rules[i].id)
  {
    hide ObjectHash, Utf8.Scalar, Lit;
    ObjectHashScalar(sha, p.Members());
    assert CanonicalTheorems.AllScalar(p.Members()[1].value);
    forall i | 0 <= i < |p.rules| ensures Utf8.Scalar(p.rules[i].id) {
      assert CanonicalTheorems.AllScalar(p.RulesJson()[i]);
      assert CanonicalTheorems.AllScalar(p.rules[i].ToJson().members[0].value);
    }
  }

  /** An intent that has a digest has a resource that can be encoded. */
  lemma IntentScalar(dep: Deployment, r: Request)
    requires IntentDigest(dep, r).Ok?
    ensures Utf8.Scalar(IntentDigest(dep, r).value) && Utf8.Scalar(r.resource)
  {
    hide ObjectHash, Utf8.Scalar, Lit;
    var ms := r.ToIntent().Members();
    ObjectHashScalar(dep.Sha(), ms);
    assert CanonicalTheorems.AllScalar(ms[2].value);
  }

  lemma ReasonScalar(prefix: string, id: Text)
    requires SignerTheorems.Ascii(prefix) && Utf8.Scalar(id)
    ensures Utf8.Scalar(Lit(prefix) + id)
  {
    hide Lit;
    SignerTheorems.AsciiScalar(prefix);
    CanonicalTheorems.ScalarConcat(Lit(prefix), id);
  }

  lemma PrefixesAscii()
    ensures SignerTheorems.Ascii("ACTION_NOT_ALLOWED:")
    ensures SignerTheorems.Ascii("RESOURCE_OUT_OF_SCOPE:")
    ensures SignerTheorems.Ascii("RATE_LIMIT_EXCEEDED:")
  {
  }

  predicate AllTextsScalar(ts: seq<Text>) {
    forall i | 0 <= i < |ts| :: Utf8.Scalar(ts[i])
  }

  lemma DenyCodeScalar(lower: Policy.Lower, rule: Policy.Rule, call: Policy.Call, rateOk: bool)
    requires Utf8.Scalar(rule.id)
    ensures AllTextsScalar(Policy.DenyCode(lower, rule, call, rateOk))
  {
    hide Utf8.Scalar, Lit, Policy.ActionAllowed, Policy.ResourceInScope, SignerTheorems.Ascii;
    PrefixesAscii();
    match rule.config
    case Allowlist(_) => ReasonScalar("ACTION_NOT_ALLOWED:", rule.id);
    case ResourceScope(_, _) => ReasonScalar("RESOURCE_OUT_OF_SCOPE:", rule.id);
    case RateLimit(_, _) => ReasonScalar("RATE_LIMIT_EXCEEDED:", rule.id);
    case UnknownType =>
  }

  lemma {:induction false} ReasonsScalar(lower: Policy.Lower, rules: seq<Policy.Rule>, counters: Policy.Counters, call: Policy.Call, n: nat)
    requires n <= |rules| == |call.clock|
    requires forall i | 0 <= i < |rules| :: Utf8.Scalar(rules[i].id)
    ensures AllTextsScalar(Policy.ReasonsAfter(lower, rules, counters, call, n))
    decreases n
  {
    hide Utf8.Scalar, Policy.DenyCode, Policy.RateOk, Policy.CountersAfter;
    if n > 0 {
      ReasonsScalar(lower, rules, counters, call, n - 1);
      DenyCodeScalar(lower, rules[n - 1], call, Policy.RateOk(rules, Policy.CountersAfter(rules, counters, call, n - 1), call, n - 1));
    }
  }

  lemma DecisionTextsScalar()
    ensures Utf8.Scalar(Lit("approve")) && Utf8.Scalar(Lit("deny")) && Utf8.Scalar(Lit("RESOURCE_NOT_REGISTERED"))
  {
    SignerTheorems.AsciiScalar("approve");
    SignerTheorems.AsciiScalar("deny");
    SignerTheorems.AsciiScalar("RESOURCE_NOT_REGISTERED");
  }

  lemma VerdictScalar(dep: Deployment, w: World, r: Request)
    requires Fits(dep, r) && SoundDeployment(dep)
    ensures var v := Verdict(dep, w, r);
            && (v.decision == Lit("approve") || v.decision == Lit("deny"))
            && Utf8.Scalar(v.decision) && AllTextsScalar(v.reasonCodes)
  {
    hide Utf8.Scalar, Lit, PolicyHash, DeniedUnregistered, Policy.ReasonsAfter;
    RuleIdsScalar(dep.Sha(), dep.policy);
    DecisionTextsScalar();
    ReasonsScalar(dep.lower, TypedRules(dep.policy), w.counters, r.Call(), |dep.policy.rules|);
  }

  lemma UuidScalar(u: Uuid)
    ensures Utf8.Scalar(u)
  {
  }

  /** The decision of a call can be signed exactly when its delegation context is fine. */
  lemma SignableIff(dep: Deployment, w: World, r: Request, digest: Text)
    requires Fits(dep, r) && SoundDeployment(dep) && Utf8.Scalar(r.stamp)
    requires CheckProof(dep, w, r) == Ok(digest)
    ensures DecisionOf(dep, w, r, digest).Ok?
    ensures SignerTheorems.Signable(dep.signer, DecisionOf(dep, w, r, digest).value) <==> DelegationFine(r.delegationContext)
  {
    hide Utf8.Scalar, Lit, PolicyHash, Verdict, IntentDigest, Registered, CanonicalTheorems.Printable, CanonicalTheorems.AllScalar,
      ProofReplay.Outcome;
    RuleIdsScalar(dep.Sha(), dep.policy);
    VerdictScalar(dep, w, r);
    IntentScalar(dep, r);
    UuidScalar(r.uuid);
  }

  /**
   * One call, exactly. If the proof check refuses it, nothing changes: no receipt, no number, no
   * counter, no cache entry. If the proof is accepted, one number is taken, and one receipt added, the
   * one returned, if and only if the delegation context is fine; otherwise the call raises.
   */
  lemma OneReceiptPerCall(dep: Deployment, w: World, r: Request)
    requires Fits(dep, r) && SoundDeployment(dep) && Utf8.Scalar(r.stamp) && Utf8.Scalar(w.chain.prev)
    ensures CheckProof(dep, w, r).Err? ==>
              After(dep, w, r) == w && Reply(dep, w, r) == Err(CheckProof(dep, w, r).error)
    ensures CheckProof(dep, w, r).Ok? ==>
              && After(dep, w, r).chain.seqNo == w.chain.seqNo + 1
              && (Reply(dep, w, r).Ok? <==> DelegationFine(r.delegationContext))
              && After(dep, w, r).chain.receipts ==
                 w.chain.receipts + (if DelegationFine(r.delegationContext) then [ReceiptOf(dep, w, r).value] else [])
              && (Reply(dep, w, r).Ok? ==> Reply(dep, w, r).value.receipt == ReceiptOf(dep, w, r).value.ToEnvelope())
    ensures Utf8.Scalar(After(dep, w, r).chain.prev)
  {
    hide Utf8.Scalar, CheckProof, DecisionOf, Signed, DelegationFine, CountersAfter, ProofReplay.CacheAfter, Receipt.Body, SoundDeployment;
    if CheckProof(dep, w, r).Ok? {
      var digest := CheckProof(dep, w, r).value;
      SignableIff(dep, w, r, digest);
      var d := DecisionOf(dep, w, r, digest).value;
      SignerTheorems.SignedOkIff(dep.signer, w.chain.seqNo + 1, w.chain.prev, d);
      if Signed(dep.signer, w.chain.seqNo + 1, w.chain.prev, d).Ok? {
        SignerTheorems.SignedHashScalar(dep.signer, w.chain.seqNo + 1, w.chain.prev, d);
      }
    }
  }
}
