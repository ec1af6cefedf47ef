/** Gateway runs seen from outside: their audit packets and their Merkle root. */
module GatewayEndToEnd {
  import opened Basics
  import opened Json
  import opened Numerals
  import opened Sha256
  import opened MerkleTree
  import opened Receipts
  import opened Digests
  import opened Gateway
  import opened GatewayRuns
  import opened GatewayTheorems
  import AuditPacket
  import Canonical
  import EndToEnd
  import Merkle
  import PacketVerifier
  import CanonicalTheorems
  import SignerTheorems
  import Utf8
  import Verify

  /**
   * From the call to the auditor: for every run of the gateway from genesis in which no accepted call
   * with a bad delegation context comes before one with a good one, the packet of every range of
   * numbers passes the offline verifier, on-chain checks aside.
   */
  lemma GatewayPacketPasses(
    dep: Deployment, es: seq<Event>, q: AuditPacket.Query, artifactHashes: seq<Text>, anchors: seq<Text>, keys: seq<Jwk>)
    requires AllFit(dep, es) && SoundDeployment(dep) && StampsScalar(es)
    requires dep.signer.platform.Lawful() && dep.signer.kid != []
    requires NoBadBeforeGood(DecisionsOf(dep, ChainState(0, Genesis(), []), es))
    requires q.agentId.None? || q.agentId.value == []
    ensures var all := EndToEnd.StoreOf(Run(dep, ChainState(0, Genesis(), []), es).chain.receipts);
            var packet := AuditPacket.BuildPacket(
                            dep.signer.platform, q, all, artifactHashes, anchors, keys, dep.signer.kid, dep.signer.ToJwk());
            var report := PacketVerifier.VerifyPacket(dep.signer.platform, packet);
            report.Some? && report.value.Passed()
  {
    hide Run, DecisionsOf, AllFit, SoundDeployment, StampsScalar, DelegationFine, SignerTheorems.Signable, SignerTheorems.SignAll,
      AuditPacket.BuildPacket, PacketVerifier.VerifyPacket, Genesis, AttemptsOf, CallsOf, OpsOf;
    var chain := ChainState(0, Genesis(), []);
    var ds := DecisionsOf(dep, chain, es);
    RunIsComponents(dep, chain, es);
    DecisionsSignable(dep, chain, es);
    assert SignerTheorems.NoGap(dep.signer, ds);
    EndToEnd.HonestRunPacketPasses(dep.signer, ds, q, artifactHashes, anchors, keys);
  }

  // ----- runs fed by the endpoint -----

  /** The `delegation_context` of a request to `/authorize`, the only caller that passes one. */
  datatype DelegationContext = DelegationContext(
    parentAgentId: Text, parentReceiptHash: Option<Text>, humanPrincipal: Option<Text>, depth: int)
  {
    /** `model_dump()` */
    function Members(): seq<Member> {
      [ Member(Lit("parent_agent_id"), Str(parentAgentId)),
        Member(Lit("parent_receipt_hash"), OrNull(parentReceiptHash)),
        Member(Lit("human_principal"), OrNull(humanPrincipal)),
        Member(Lit("depth"), Int(depth)) ]
    }
  }

  function OrNull(t: Option<Text>): Json {
    if t.Some? then Str(t.value) else Null
  }

  predicate ScalarTexts(c: DelegationContext) {
    Utf8.Scalar(c.parentAgentId) && SignerTheorems.ScalarOption(c.parentReceiptHash) && SignerTheorems.ScalarOption(c.humanPrincipal)
  }

  lemma ContextKeysScalar()
    ensures Utf8.Scalar(Lit("parent_agent_id")) && Utf8.Scalar(Lit("parent_receipt_hash"))
    ensures Utf8.Scalar(Lit("human_principal")) && Utf8.Scalar(Lit("depth"))
  {
    SignerTheorems.AsciiScalar("parent_agent_id");
    SignerTheorems.AsciiScalar("parent_receipt_hash");
    SignerTheorems.AsciiScalar("human_principal");
    SignerTheorems.AsciiScalar("depth");
  }

  lemma OrNullFine(t: Option<Text>)
    ensures CanonicalTheorems.Printable(OrNull(t))
    ensures CanonicalTheorems.AllScalar(OrNull(t)) <==> SignerTheorems.ScalarOption(t)
  {
  }

  /** A context from the endpoint is fine exactly when its texts hold no lone surrogate: there is no place for a float in it. */
  lemma EndpointContextFine(c: DelegationContext)
    ensures DelegationFine(Some(c.Members())) <==> ScalarTexts(c)
  {
    hide Lit, Utf8.Scalar, OrNull, SignerTheorems.ScalarOption;
    ContextKeysScalar();
    OrNullFine(c.parentReceiptHash);
    OrNullFine(c.humanPrincipal);
    var ms := c.Members();
    FourMembers(ms);
    assert CanonicalTheorems.AllScalar(Str(c.parentAgentId)) <==> Utf8.Scalar(c.parentAgentId);
  }

  lemma FourMembers(ms: seq<Member>)
    requires |ms| == 4 && forall i | 0 <= i < 4 :: Utf8.Scalar(ms[i].key)
    requires forall i | 0 <= i < 4 :: CanonicalTheorems.Printable(ms[i].value)
    ensures DelegationFine(Some(ms)) <==>
            && CanonicalTheorems.AllScalar(ms[0].value) && CanonicalTheorems.AllScalar(ms[1].value)
            && CanonicalTheorems.AllScalar(ms[2].value) && CanonicalTheorems.AllScalar(ms[3].value)
  {
    hide Utf8.Scalar;
  }

  /** What the dump of a context states under each key; a missing text is null. */
  lemma ContextStates(c: DelegationContext)
    ensures var ms := c.Members();
            && Lookup(ms, Lit("parent_agent_id")) == Some(Str(c.parentAgentId)) && Lookup(ms, Lit("depth")) == Some(Int(c.depth))
            && Lookup(ms, Lit("parent_receipt_hash")) == Some(match c.parentReceiptHash case Some(t) => Str(t) case None => Null)
            && Lookup(ms, Lit("human_principal")) == Some(match c.humanPrincipal case Some(t) => Str(t) case None => Null)
  {
    hide Lit, Lookup;
    ContextKeysDiffer();
    LookupThird(c.Members(), Lit("parent_agent_id"));
    LookupThird(c.Members(), Lit("parent_receipt_hash"));
    LookupThird(c.Members(), Lit("human_principal"));
    LookupThird(c.Members(), Lit("depth"));
  }

  lemma ContextKeysDiffer()
    ensures |Lit("parent_agent_id")| == 15 && Lit("parent_agent_id")[0] == 0x70
    ensures |Lit("human_principal")| == 15 && Lit("human_principal")[0] == 0x68
    ensures |Lit("parent_receipt_hash")| == 19 && |Lit("depth")| == 5
  {
  }

  /** Every call of the run carries what the endpoint passes: no context, or the dump of one with encodable texts. */
  predicate FedByEndpoint(es: seq<Event>, contexts: seq<Option<DelegationContext>>) {
    |contexts| == |es| && forall i | 0 <= i < |es| && es[i].Authorize? :: FedBy(es[i].request, contexts[i])
  }

  predicate FedBy(r: Request, context: Option<DelegationContext>) {
    match context
    case None => r.delegationContext == None
    case Some(c) => r.delegationContext == Some(c.Members()) && ScalarTexts(c)
  }

  lemma EndpointDelegationsFine(es: seq<Event>, contexts: seq<Option<DelegationContext>>)
    requires FedByEndpoint(es, contexts)
    ensures AllDelegationsFine(es)
  {
    hide DelegationFine, ScalarTexts, DelegationContext.Members;
    forall i | 0 <= i < |es| && es[i].Authorize? ensures DelegationFine(es[i].request.delegationContext) {
      assert FedBy(es[i].request, contexts[i]);
      if contexts[i].Some? {
        EndpointContextFine(contexts[i].value);
      } else {
        NoContextFine();
      }
    }
  }

  lemma NoContextFine()
    ensures DelegationFine(None)
  {
  }

  lemma {:induction false} DecisionsFine(dep: Deployment, chain: ChainState, es: seq<Event>)
    requires AllFit(dep, es) && AllDelegationsFine(es)
    ensures NoBadBeforeGood(DecisionsOf(dep, chain, es))
    ensures forall i | 0 <= i < |DecisionsOf(dep, chain, es)| :: DelegationFine(DecisionsOf(dep, chain, es)[i].delegationContext)
    decreases |es|
  {
    hide Fits, WellTyped, Run, CheckProof, DecisionOf, DelegationFine;
    if es != [] {
      var before, e := es[..|es| - 1], es[|es| - 1];
      DecisionsFine(dep, chain, before);
      var w := Run(dep, chain, before);
      if DecisionsAt(dep, w, e) != [] {
        DecisionDelegation(dep, w, e.request, CheckProof(dep, w, e.request).value);
      }
    }
  }

  /** A stored chain that passes, extended by any run fed by the endpoint, passes `verify_chain`. */
  lemma EndpointChainPasses(
    dep: Deployment, stored: seq<Envelope>, key: Jwk, keysByKid: map<Text, Jwk>, es: seq<Event>, contexts: seq<Option<DelegationContext>>)
    requires AllFit(dep, es) && SoundDeployment(dep) && StampsScalar(es) && FedByEndpoint(es, contexts)
    requires dep.signer.platform.Lawful() && SignerTheorems.KeyKnown(dep.signer, key, keysByKid)
    requires stored != [] ==> Verify.ChainVerdict(dep.signer.platform, stored, key, keysByKid) == Verify.Returned(Verify.PASSED)
    requires stored != [] ==> stored[|stored| - 1].receiptHash != Some([])
    ensures SignerTheorems.Resume(dep.signer.platform, stored).Some?
    ensures var chain := SignerTheorems.Resume(dep.signer.platform, stored).value;
            var all := stored + SignerTheorems.Envelopes(Run(dep, chain, es).chain.receipts);
            all != [] ==> Verify.ChainVerdict(dep.signer.platform, all, key, keysByKid) == Verify.Returned(Verify.PASSED)
  {
    hide Verify.ChainVerdict, SignerTheorems.KeyKnown, SignerTheorems.Resume, Run, DecisionsOf, SoundDeployment, AllFit, StampsScalar,
      NoBadBeforeGood, FedByEndpoint, AllDelegationsFine;
    EndpointDelegationsFine(es, contexts);
    GatewayChainPasses(dep, stored, key, keysByKid, es);
    DecisionsFine(dep, SignerTheorems.Resume(dep.signer.platform, stored).value, es);
  }

  /** The packet of every range of every run fed by the endpoint from genesis passes the offline verifier. */
  lemma EndpointPacketPasses(
    dep: Deployment, es: seq<Event>, contexts: seq<Option<DelegationContext>>,
    q: AuditPacket.Query, artifactHashes: seq<Text>, anchors: seq<Text>, keys: seq<Jwk>)
    requires AllFit(dep, es) && SoundDeployment(dep) && StampsScalar(es) && FedByEndpoint(es, contexts)
    requires dep.signer.platform.Lawful() && dep.signer.kid != []
    requires q.agentId.None? || q.agentId.value == []
    ensures var all := EndToEnd.StoreOf(Run(dep, ChainState(0, Genesis(), []), es).chain.receipts);
            var packet := AuditPacket.BuildPacket(
                            dep.signer.platform, q, all, artifactHashes, anchors, keys, dep.signer.kid, dep.signer.ToJwk());
            var report := PacketVerifier.VerifyPacket(dep.signer.platform, packet);
            report.Some? && report.value.Passed()
  {
    hide Run, DecisionsOf, AllFit, SoundDeployment, StampsScalar, NoBadBeforeGood, FedByEndpoint, AllDelegationsFine,
      AuditPacket.BuildPacket, PacketVerifier.VerifyPacket, Genesis;
    EndpointDelegationsFine(es, contexts);
    DecisionsFine(dep, ChainState(0, Genesis(), []), es);
    GatewayPacketPasses(dep, es, q, artifactHashes, anchors, keys);
  }

  // ----- the Merkle root -----

  /** The SHA-256 digest of a receipt's canonical body. */
  function BodyDigest(sha: Sha, r: Receipt): Digest {
    match Canonical.Canonicalize(Obj(r.Body()))
    case Ok(bytes) => sha(bytes)
    case Err(_) => sha([])
  }

  function BodyDigests(sha: Sha, rs: seq<Receipt>): (ds: seq<Bytes>)
    ensures |ds| == |rs|
  {
    seq(|rs|, i requires 0 <= i < |rs| => BodyDigest(sha, rs[i]))
  }

  predicate Hashed(sha: Sha, rs: seq<Receipt>) {
    forall i | 0 <= i < |rs| :: rs[i].receiptHash == DigestText(BodyDigest(sha, rs[i]))
  }

  lemma SignStepHashed(signer: Signer, s: ChainState, d: Decision)
    requires Hashed(signer.platform.sha, s.receipts)
    ensures Hashed(signer.platform.sha, SignStep(signer, s, d).receipts)
  {
    hide Signed, Canonical.Canonicalize, DigestText, Receipt.Body;
    if Signed(signer, s.seqNo + 1, s.prev, d).Ok? {
      SignerTheorems.SignedBody(signer, s.seqNo + 1, s.prev, d);
    }
  }

  lemma {:induction false} RunHashed(signer: Signer, s: ChainState, ds: seq<Decision>)
    requires Hashed(signer.platform.sha, s.receipts)
    ensures Hashed(signer.platform.sha, SignerTheorems.SignAll(signer, s, ds).receipts)
    decreases |ds|
  {
    hide SignStep, Hashed;
    if ds != [] {
      SignStepHashed(signer, s, ds[0]);
      RunHashed(signer, SignStep(signer, s, ds[0]), ds[1..]);
    }
  }

  lemma BareHashesDecode(sha: Sha, rs: seq<Receipt>)
    requires Hashed(sha, rs)
    ensures Merkle.Decode(BareHashes(rs)) == Ok(BodyDigests(sha, rs))
  {
    hide BodyDigest, FromHex, ToHex, DigestText, RemovePrefix;
    var hexes := BareHashes(rs);
    forall i | 0 <= i < |rs| ensures Merkle.DecodeOne(hexes[i]) == Ok(BodyDigests(sha, rs)[i]) {
      RemovePrefixOfDigest(BodyDigest(sha, rs[i]));
      FromHexToHex(BodyDigest(sha, rs[i]));
    }
    var decoded := seq(|hexes|, i requires 0 <= i < |hexes| => Merkle.DecodeOne(hexes[i]));
    assert forall i | 0 <= i < |decoded| :: decoded[i].Ok?;
    assert Collect(decoded).value == BodyDigests(sha, rs) by {
      forall i | 0 <= i < |decoded| ensures Collect(decoded).value[i] == BodyDigests(sha, rs)[i] {
        assert decoded[i] == Ok(Collect(decoded).value[i]);
      }
    }
  }

  /**
   * `get_merkle_root` never raises on a gateway's own chain: over every run it is None before the first
   * receipt, and afterwards the root over the digests of all canonical bodies, in order.
   */
  lemma GatewayRootIsBodyRoot(dep: Deployment, chain: ChainState, es: seq<Event>)
    requires AllFit(dep, es) && chain.receipts == []
    ensures var rs := Run(dep, chain, es).chain.receipts;
            MerkleRootOf(dep.Sha(), rs) ==
            Ok(if rs == [] then None else Some(DigestText(Root(dep.Sha(), ReceiptDomain, BodyDigests(dep.Sha(), rs)))))
  {
    hide Run, AllFit, SignerTheorems.SignAll, Root, DigestText, BareHashes, Merkle.Decode, BodyDigest, AttemptsOf, CallsOf, OpsOf, DecisionsOf;
    RunIsComponents(dep, chain, es);
    RunHashed(dep.signer, chain, DecisionsOf(dep, chain, es));
    BareHashesDecode(dep.Sha(), Run(dep, chain, es).chain.receipts);
    SameLength(Run(dep, chain, es).chain.receipts);
  }

  /**
   * `get_chain_stats` of any run returns: approvals and denials make all receipts, the approvals are the
   * tokens handed out, the root is the one over the bodies, and the version is the policy's hash.
   */
  lemma StatsAddUp(dep: Deployment, chain: ChainState, es: seq<Event>)
    requires AllFit(dep, es) && chain.receipts == [] && SoundDeployment(dep)
    ensures var rs := Run(dep, chain, es).chain.receipts;
            && StatsOf(dep, rs).Ok?
            && var stats := StatsOf(dep, rs).value;
            && stats.approvals + stats.denials == stats.totalReceipts == |rs|
            && stats.approvals == |TokensOf(dep, chain, es)|
            && (stats.merkleRoot.None? <==> rs == [])
            && (rs != [] ==> stats.merkleRoot == Some(DigestText(Root(dep.Sha(), ReceiptDomain, BodyDigests(dep.Sha(), rs)))))
            && Ok(stats.policyVersion) == PolicyHash(dep.Sha(), dep.policy)
  {
    hide Run, TokensOf, AllFit, MerkleRootOf, PolicyHash, CountDecision, Root, DigestText, BodyDigest, Lit;
    ReceiptsAddUp(dep, chain, es);
    GatewayRootIsBodyRoot(dep, chain, es);
  }

  lemma SameLength(rs: seq<Receipt>)
    ensures |BareHashes(rs)| == |rs|
  {
  }
}
