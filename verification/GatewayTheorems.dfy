/** What every run of the gateway guarantees about receipts, tokens, proofs, rates and resources. */
module GatewayTheorems {
  import opened Basics
  import opened Json
  import opened Sha256
  import opened Numerals
  import opened Receipts
  import opened Digests
  import opened Gateway
  import opened GatewayRuns
  import Verify
  import Policy
  import ProofReplay
  import Resources
  import SignerTheorems
  import SlidingWindow
  import Utf8

  // ----- runs from the front, one event at a time -----

  lemma PrefixFits(dep: Deployment, es: seq<Event>, n: nat)
    requires AllFit(dep, es) && n <= |es|
    ensures AllFit(dep, es[..n])
  {
  }

  /** Every clock reading that is written into a receipt can be encoded; an ISO date always can. */
  predicate StampsScalar(es: seq<Event>) {
    forall i | 0 <= i < |es| :: es[i].Authorize? ==> Utf8.Scalar(es[i].request.stamp)
  }

  lemma {:induction false} PrevStaysScalar(dep: Deployment, chain: ChainState, es: seq<Event>)
    requires AllFit(dep, es) && SoundDeployment(dep) && StampsScalar(es) && Utf8.Scalar(chain.prev)
    ensures Utf8.Scalar(Run(dep, chain, es).chain.prev)
    decreases |es|
  {
    hide Utf8.Scalar, SoundDeployment, After, Fits, WellTyped, CheckProof, DelegationFine, Reply, ReceiptOf;
    if es != [] {
      var before, e := es[..|es| - 1], es[|es| - 1];
      PrevStaysScalar(dep, chain, before);
      if e.Authorize? {
        OneReceiptPerCall(dep, Run(dep, chain, before), e.request);
      }
    }
  }

  // ----- receipts -----

  /** The calls of a run whose proof was accepted. */
  function Accepted(dep: Deployment, chain: ChainState, es: seq<Event>): nat
    requires AllFit(dep, es)
  {
    if es == [] then 0
    else Accepted(dep, chain, es[..|es| - 1]) +
         if ProofAccepted(dep, Run(dep, chain, es[..|es| - 1]), es[|es| - 1]) then 1 else 0
  }

  predicate AllDelegationsFine(es: seq<Event>) {
    forall i | 0 <= i < |es| :: es[i].Authorize? ==> DelegationFine(es[i].request.delegationContext)
  }

  /** Over a run, every call past proof checking adds exactly one receipt, and nothing else adds any. */
  lemma {:induction false} ReceiptsCountAcceptedCalls(dep: Deployment, chain: ChainState, es: seq<Event>)
    requires AllFit(dep, es) && SoundDeployment(dep) && StampsScalar(es) && Utf8.Scalar(chain.prev)
    requires AllDelegationsFine(es)
    ensures |Run(dep, chain, es).chain.receipts| == |chain.receipts| + Accepted(dep, chain, es)
    ensures Run(dep, chain, es).chain.seqNo == chain.seqNo + Accepted(dep, chain, es)
    decreases |es|
  {
    hide Utf8.Scalar, SoundDeployment, After, Fits, WellTyped, CheckProof, DelegationFine, Reply, ReceiptOf;
    if es != [] {
      var before, e := es[..|es| - 1], es[|es| - 1];
      ReceiptsCountAcceptedCalls(dep, chain, before);
      PrevStaysScalar(dep, chain, before);
      if e.Authorize? {
        OneReceiptPerCall(dep, Run(dep, chain, before), e.request);
      }
    }
  }

  /** Every decision of a run is signable exactly when its delegation context is fine. */
  lemma {:induction false} DecisionsSignable(dep: Deployment, chain: ChainState, es: seq<Event>)
    requires AllFit(dep, es) && SoundDeployment(dep) && StampsScalar(es)
    ensures forall i | 0 <= i < |DecisionsOf(dep, chain, es)| ::
              SignerTheorems.Signable(dep.signer, DecisionsOf(dep, chain, es)[i]) <==>
              DelegationFine(DecisionsOf(dep, chain, es)[i].delegationContext)
    decreases |es|
  {
    hide Utf8.Scalar, SoundDeployment, Fits, WellTyped, CheckProof, DelegationFine, SignerTheorems.Signable, DecisionOf, Run;
    if es != [] {
      var before, e := es[..|es| - 1], es[|es| - 1];
      DecisionsSignable(dep, chain, before);
      DecisionsAtSignable(dep, Run(dep, chain, before), e);
    }
  }

  lemma DecisionsAtSignable(dep: Deployment, w: World, e: Event)
    requires EventFits(dep, e) && SoundDeployment(dep) && (e.Authorize? ==> Utf8.Scalar(e.request.stamp))
    ensures forall i | 0 <= i < |DecisionsAt(dep, w, e)| ::
              SignerTheorems.Signable(dep.signer, DecisionsAt(dep, w, e)[i]) <==> DelegationFine(DecisionsAt(dep, w, e)[i].delegationContext)
  {
    hide Utf8.Scalar, SoundDeployment, Fits, WellTyped, CheckProof, DelegationFine, SignerTheorems.Signable, DecisionOf;
    if ProofAccepted(dep, w, e) {
      SignableIff(dep, w, e.request, CheckProof(dep, w, e.request).value);
      DecisionDelegation(dep, w, e.request, CheckProof(dep, w, e.request).value);
    }
  }

  lemma DecisionDelegation(dep: Deployment, w: World, r: Request, digest: Text)
    requires Fits(dep, r) && DecisionOf(dep, w, r, digest).Ok?
    ensures DecisionOf(dep, w, r, digest).value.delegationContext == r.delegationContext
  {
    hide PolicyHash, Verdict;
  }

  /** No call with a bad delegation context comes before one with a good one, among those whose proof is accepted. */
  predicate NoBadBeforeGood(ds: seq<Decision>) {
    forall i, j | 0 <= i < j < |ds| :: DelegationFine(ds[j].delegationContext) ==> DelegationFine(ds[i].delegationContext)
  }

  /**
   * Authorizing, then verifying: extend any stored chain that passes by any run of the gateway after a
   * restart. The whole chain passes `verify_chain` if and only if no accepted call with a delegation
   * context that cannot be canonicalized came before one with one that can.
   */
  lemma GatewayChainPasses(dep: Deployment, stored: seq<Envelope>, key: Jwk, keysByKid: map<Text, Jwk>, es: seq<Event>)
    requires AllFit(dep, es) && SoundDeployment(dep) && StampsScalar(es)
    requires dep.signer.platform.Lawful() && SignerTheorems.KeyKnown(dep.signer, key, keysByKid)
    requires stored != [] ==> Verify.ChainVerdict(dep.signer.platform, stored, key, keysByKid) == Verify.Returned(Verify.PASSED)
    requires stored != [] ==> stored[|stored| - 1].receiptHash != Some([])
    ensures SignerTheorems.Resume(dep.signer.platform, stored).Some?
    ensures var chain := SignerTheorems.Resume(dep.signer.platform, stored).value;
            var all := stored + SignerTheorems.Envelopes(Run(dep, chain, es).chain.receipts);
            all != [] ==>
            (Verify.ChainVerdict(dep.signer.platform, all, key, keysByKid) == Verify.Returned(Verify.PASSED) <==>
             NoBadBeforeGood(DecisionsOf(dep, chain, es)))
  {
    hide Verify.ChainVerdict, SignerTheorems.KeyKnown, SignerTheorems.Resume, Run, DecisionsOf, SoundDeployment, AllFit, StampsScalar,
      DelegationFine, SignerTheorems.Signable, SignerTheorems.SignAll;
    SignerTheorems.SignedChainPasses(dep.signer, stored, key, keysByKid, []);
    var chain := SignerTheorems.Resume(dep.signer.platform, stored).value;
    var ds := DecisionsOf(dep, chain, es);
    RunIsComponents(dep, chain, es);
    DecisionsSignable(dep, chain, es);
    SignerTheorems.SignedChainPasses(dep.signer, stored, key, keysByKid, ds);
    assert SignerTheorems.NoGap(dep.signer, ds) <==> NoBadBeforeGood(ds);
  }

  // ----- tokens and approvals -----

  /** The tokens handed out over a run, in order. */
  function TokensOf(dep: Deployment, chain: ChainState, es: seq<Event>): seq<Token>
    requires AllFit(dep, es)
  {
    if es == [] then []
    else TokensOf(dep, chain, es[..|es| - 1]) + TokensAt(dep, Run(dep, chain, es[..|es| - 1]), es[|es| - 1])
  }

  function TokensAt(dep: Deployment, w: World, e: Event): seq<Token>
    requires EventFits(dep, e)
  {
    if e.Authorize? && Reply(dep, w, e.request).Ok? && Reply(dep, w, e.request).value.token.Some?
    then [Reply(dep, w, e.request).value.token.value]
    else []
  }

  function Approved(rs: seq<Receipt>): seq<Receipt> {
    if rs == [] then []
    else Approved(rs[..|rs| - 1]) + if rs[|rs| - 1].decision == Lit("approve") then [rs[|rs| - 1]] else []
  }

  /** The token is the one this receipt was written for. */
  predicate Belongs(t: Token, receipt: Receipt) {
    && receipt.tokenJti == Some(t.jti) && receipt.receiptHash == t.receiptHash
    && receipt.requestDigest == t.actionDigest && receipt.tenant == t.tid && receipt.decision == t.decision
  }

  predicate Pairwise(ts: seq<Token>, rs: seq<Receipt>) {
    |ts| == |rs| && forall i | 0 <= i < |ts| :: Belongs(ts[i], rs[i])
  }

  /** Approvals carry a jti, denials do not, and there is nothing else. */
  predicate Decided(rs: seq<Receipt>) {
    forall i | 0 <= i < |rs| ::
      (rs[i].decision == Lit("approve") && rs[i].tokenJti.Some?) || (rs[i].decision == Lit("deny") && rs[i].tokenJti.None?)
  }

  lemma VerdictDecided(dep: Deployment, w: World, r: Request)
    requires Fits(dep, r)
    ensures Verdict(dep, w, r).decision == Lit("approve") || Verdict(dep, w, r).decision == Lit("deny")
  {
    hide Lit, DeniedUnregistered, Policy.ReasonsAfter, TypedRules;
  }

  /** What one call adds to the chain, and the token it hands out. */
  lemma CallAdds(dep: Deployment, w: World, r: Request)
    requires Fits(dep, r)
    ensures Reply(dep, w, r).Err? ==> After(dep, w, r).chain.receipts == w.chain.receipts
    ensures Reply(dep, w, r).Ok? ==>
              var receipt := ReceiptOf(dep, w, r).value;
              && ReceiptOf(dep, w, r).Ok?
              && After(dep, w, r).chain.receipts == w.chain.receipts + [receipt]
              && Reply(dep, w, r).value.receipt == receipt.ToEnvelope()
              && Decided([receipt])
              && (receipt.decision == Lit("approve") <==> Reply(dep, w, r).value.token.Some?)
              && (Reply(dep, w, r).value.token.Some? ==>
                    Belongs(Reply(dep, w, r).value.token.value, receipt) && Reply(dep, w, r).value.token.value.jti == r.uuid)
  {
    hide Lit, CheckProof, PolicyHash, Verdict, Registered, Signed, CountersAfter, ProofReplay.CacheAfter, Receipt.Body;
    VerdictDecided(dep, w, r);
    Policy.DenyIsNotApprove();
    if ReceiptOf(dep, w, r).Ok? {
      var digest := CheckProof(dep, w, r).value;
      SignedKeeps(dep.signer, w.chain.seqNo + 1, w.chain.prev, DecisionOf(dep, w, r, digest).value);
    }
  }

  lemma NothingApproved()
    ensures Approved([]) == []
  {
  }

  lemma ApprovedAppend(rs: seq<Receipt>, r: Receipt)
    ensures Approved(rs + [r]) == Approved(rs) + if r.decision == Lit("approve") then [r] else []
  {
    assert (rs + [r])[..|rs|] == rs;
  }

  /**
   * Tokens are approvals: over a run of a chain that starts empty, the tokens handed out are, one for
   * one and in order, those of the approve receipts, with equal jti, receipt hash, digest and tenant; a
   * receipt has a jti exactly when it approves.
   */
  lemma {:induction false} TokensAreApprovals(dep: Deployment, chain: ChainState, es: seq<Event>)
    requires AllFit(dep, es) && chain.receipts == []
    ensures Pairwise(TokensOf(dep, chain, es), Approved(Run(dep, chain, es).chain.receipts))
    ensures Decided(Run(dep, chain, es).chain.receipts)
    decreases |es|
  {
    hide After, Reply, ReceiptOf, Fits, WellTyped, Belongs, Lit, Approved;
    if es == [] {
      NothingApproved();
    } else {
      var before, e := es[..|es| - 1], es[|es| - 1];
      TokensAreApprovals(dep, chain, before);
      var w := Run(dep, chain, before);
      if e.Authorize? {
        CallAdds(dep, w, e.request);
        if Reply(dep, w, e.request).Ok? {
          ApprovedAppend(w.chain.receipts, ReceiptOf(dep, w, e.request).value);
        }
      }
    }
  }

  /** `uuid4` never repeats: the calls of a run draw distinct ids. */
  predicate FreshIds(es: seq<Event>) {
    forall i, k | 0 <= i < k < |es| && es[i].Authorize? && es[k].Authorize? :: es[i].request.uuid != es[k].request.uuid
  }

  /** The id is one that a call of the run drew. */
  predicate Drawn(es: seq<Event>, id: Text) {
    exists i | 0 <= i < |es| :: es[i].Authorize? && es[i].request.uuid == id
  }

  predicate AllDrawn(ts: seq<Token>, es: seq<Event>) {
    forall i | 0 <= i < |ts| :: Drawn(es, ts[i].jti)
  }

  predicate DistinctJtis(ts: seq<Token>) {
    forall i, k | 0 <= i < k < |ts| :: ts[i].jti != ts[k].jti
  }

  lemma DrawnBefore(es: seq<Event>, id: Text)
    requires es != [] && Drawn(es[..|es| - 1], id)
    ensures Drawn(es, id)
    ensures FreshIds(es) && es[|es| - 1].Authorize? ==> es[|es| - 1].request.uuid != id
  {
    var before := es[..|es| - 1];
    var i :| 0 <= i < |before| && before[i].Authorize? && before[i].request.uuid == id;
    assert es[i] == before[i];
  }

  lemma FreshPrefix(es: seq<Event>)
    requires es != [] && FreshIds(es)
    ensures FreshIds(es[..|es| - 1])
  {
  }

  lemma TokenTakesUuid(dep: Deployment, w: World, e: Event)
    requires EventFits(dep, e)
    ensures |TokensAt(dep, w, e)| <= 1
    ensures TokensAt(dep, w, e) != [] ==> e.Authorize? && TokensAt(dep, w, e)[0].jti == e.request.uuid
  {
    hide Reply, After, ReceiptOf, Fits, WellTyped;
    if TokensAt(dep, w, e) != [] {
      CallAdds(dep, w, e.request);
    }
  }

  lemma {:induction false} TokenIdsDrawn(dep: Deployment, chain: ChainState, es: seq<Event>)
    requires AllFit(dep, es) && FreshIds(es)
    ensures AllDrawn(TokensOf(dep, chain, es), es) && DistinctJtis(TokensOf(dep, chain, es))
    decreases |es|
  {
    hide Fits, WellTyped, Run, TokensAt, Drawn, FreshIds;
    if es != [] {
      var before, e := es[..|es| - 1], es[|es| - 1];
      FreshPrefix(es);
      TokenIdsDrawn(dep, chain, before);
      var ts, more := TokensOf(dep, chain, before), TokensAt(dep, Run(dep, chain, before), e);
      forall i | 0 <= i < |ts| ensures Drawn(es, ts[i].jti) && (e.Authorize? ==> e.request.uuid != ts[i].jti) {
        DrawnBefore(es, ts[i].jti);
      }
      TokenTakesUuid(dep, Run(dep, chain, before), e);
      if more != [] {
        LastDrawn(es);
      }
    }
  }

  lemma LastDrawn(es: seq<Event>)
    requires es != [] && es[|es| - 1].Authorize?
    ensures Drawn(es, es[|es| - 1].request.uuid)
  {
  }

  /** With fresh ids, a jti names one token and one approve receipt of the run. */
  lemma JtiNamesOneReceipt(dep: Deployment, chain: ChainState, es: seq<Event>, i: nat, k: nat)
    requires AllFit(dep, es) && chain.receipts == [] && FreshIds(es)
    requires i < |TokensOf(dep, chain, es)| && k < |Approved(Run(dep, chain, es).chain.receipts)|
    ensures Approved(Run(dep, chain, es).chain.receipts)[k].tokenJti == Some(TokensOf(dep, chain, es)[i].jti) <==> i == k
  {
    hide Run, TokensOf, Approved, AllFit, FreshIds;
    TokensAreApprovals(dep, chain, es);
    TokenIdsDrawn(dep, chain, es);
    var t := TokensOf(dep, chain, es);
    assert Belongs(t[k], Approved(Run(dep, chain, es).chain.receipts)[k]);
    if i < k {
      assert t[i].jti != t[k].jti;
    } else if k < i {
      assert t[k].jti != t[i].jti;
    }
  }

  lemma {:induction false} CountsOfDecided(rs: seq<Receipt>)
    requires Decided(rs)
    ensures CountDecision(rs, Lit("approve")) + CountDecision(rs, Lit("deny")) == |rs|
    ensures CountDecision(rs, Lit("approve")) == |Approved(rs)|
    decreases |rs|
  {
    hide Lit;
    Policy.DenyIsNotApprove();
    if rs != [] {
      CountsOfDecided(rs[..|rs| - 1]);
    }
  }

  /** The receipts add up: approvals and denials make all of them, and the approvals are the tokens handed out. */
  lemma ReceiptsAddUp(dep: Deployment, chain: ChainState, es: seq<Event>)
    requires AllFit(dep, es) && chain.receipts == []
    ensures var rs := Run(dep, chain, es).chain.receipts;
            && CountDecision(rs, Lit("approve")) + CountDecision(rs, Lit("deny")) == |rs|
            && CountDecision(rs, Lit("approve")) == |TokensOf(dep, chain, es)|
  {
    hide Run, TokensOf, AllFit, Decided, Approved, CountDecision, Belongs;
    TokensAreApprovals(dep, chain, es);
    CountsOfDecided(Run(dep, chain, es).chain.receipts);
  }

  // ----- proofs -----

  /** The clock never goes back, within a call or from one call to the next. */
  predicate Chronological(es: seq<Event>) {
    && (forall i | 0 <= i < |es| && es[i].Authorize? ::
          var r := es[i].request; r.decodeTime <= r.ageTime <= r.storeTime <= r.sweepTime)
    && (forall i, k | 0 <= i < k < |es| && es[i].Authorize? && es[k].Authorize? ::
          es[i].request.sweepTime <= es[k].request.decodeTime)
  }

  predicate TimesOf(a: ProofReplay.Attempt, e: Event) {
    e.Authorize? && a.decodeTime == e.request.decodeTime && a.ageTime == e.request.ageTime
    && a.storeTime == e.request.storeTime && a.sweepTime == e.request.sweepTime
  }

  predicate FromEvent(a: ProofReplay.Attempt, es: seq<Event>) {
    exists i | 0 <= i < |es| :: TimesOf(a, es[i])
  }

  predicate FromRun(attempts: seq<ProofReplay.Attempt>, es: seq<Event>) {
    forall j | 0 <= j < |attempts| :: FromEvent(attempts[j], es)
  }

  lemma {:induction false} AttemptsChronological(dep: Deployment, es: seq<Event>)
    requires Chronological(es)
    ensures ProofReplay.Chronological(AttemptsOf(dep, es)) && FromRun(AttemptsOf(dep, es), es)
    decreases |es|
  {
    hide AttemptsAt, Chronological, FromRun, FromEvent, ProofReplay.Chronological;
    if es == [] {
      NoAttempts();
    } else {
      var before, e := es[..|es| - 1], es[|es| - 1];
      ChronologicalPrefix(es);
      AttemptsChronological(dep, before);
      var xs, more := AttemptsOf(dep, before), AttemptsAt(dep, e);
      AttemptTimes(dep, e);
      FromRunLonger(xs, before, e);
      assert es == before + [e];
      if more != [] {
        EarlierThanLast(xs, es);
        AppendChronological(xs, more[0]);
        assert xs + more == xs + [more[0]];
        LastFromRun(xs, more[0], es);
      } else {
        assert xs + more == xs;
      }
    }
  }

  lemma NoAttempts()
    ensures ProofReplay.Chronological([]) && FromRun([], [])
  {
  }

  lemma ChronologicalPrefix(es: seq<Event>)
    requires es != [] && Chronological(es)
    ensures Chronological(es[..|es| - 1])
    ensures var e := es[|es| - 1];
            e.Authorize? ==> e.request.decodeTime <= e.request.ageTime <= e.request.storeTime <= e.request.sweepTime
  {
  }

  lemma AttemptTimes(dep: Deployment, e: Event)
    ensures |AttemptsAt(dep, e)| <= 1
    ensures AttemptsAt(dep, e) != [] ==> TimesOf(AttemptsAt(dep, e)[0], e)
  {
    hide IntentDigest;
  }

  lemma EarlierThanLast(xs: seq<ProofReplay.Attempt>, es: seq<Event>)
    requires es != [] && Chronological(es) && FromRun(xs, es[..|es| - 1]) && es[|es| - 1].Authorize?
    ensures forall j | 0 <= j < |xs| :: xs[j].sweepTime <= es[|es| - 1].request.decodeTime
  {
    var n := |es| - 1;
    forall j | 0 <= j < |xs| ensures xs[j].sweepTime <= es[n].request.decodeTime {
      assert FromEvent(xs[j], es[..n]);
      var i :| 0 <= i < n && TimesOf(xs[j], es[..n][i]);
      assert es[..n][i] == es[i];
    }
  }

  lemma AppendChronological(xs: seq<ProofReplay.Attempt>, a: ProofReplay.Attempt)
    requires ProofReplay.Chronological(xs) && a.decodeTime <= a.ageTime <= a.storeTime <= a.sweepTime
    requires forall j | 0 <= j < |xs| :: xs[j].sweepTime <= a.decodeTime
    ensures ProofReplay.Chronological(xs + [a])
  {
  }

  lemma FromRunLonger(xs: seq<ProofReplay.Attempt>, es: seq<Event>, e: Event)
    requires FromRun(xs, es)
    ensures FromRun(xs, es + [e])
  {
    forall j | 0 <= j < |xs| ensures FromEvent(xs[j], es + [e]) {
      var i :| 0 <= i < |es| && TimesOf(xs[j], es[i]);
      assert (es + [e])[i] == es[i];
    }
  }

  lemma LastFromRun(xs: seq<ProofReplay.Attempt>, a: ProofReplay.Attempt, es: seq<Event>)
    requires es != [] && FromRun(xs, es) && TimesOf(a, es[|es| - 1])
    ensures FromRun(xs + [a], es)
  {
    assert FromEvent(a, es);
  }

  lemma {:induction false} AttemptsPrefix(dep: Deployment, es: seq<Event>, n: nat)
    requires n <= |es|
    ensures AttemptsOf(dep, es[..n]) <= AttemptsOf(dep, es)
    decreases |es|
  {
    hide AttemptsAt;
    if n == |es| {
      assert es[..n] == es;
    } else {
      assert es[..|es| - 1][..n] == es[..n];
      AttemptsPrefix(dep, es[..|es| - 1], n);
    }
  }

  lemma ReplyTriesProof(dep: Deployment, w: World, e: Event)
    requires e.Authorize? && Fits(dep, e.request) && Reply(dep, w, e.request).Ok?
    ensures IntentDigest(dep, e.request).Ok?
    ensures AttemptsAt(dep, e) == [e.request.Attempt(IntentDigest(dep, e.request).value)]
    ensures ProofReplay.Outcome(dep.jwt, w.proofCache, AttemptsAt(dep, e)[0]).Ok?
  {
    hide IntentDigest, DecisionOf, Signed, ProofReplay.Outcome;
    assert ReceiptOf(dep, w, e.request).Ok?;
    assert CheckProof(dep, w, e.request).Ok?;
    var a := e.request.Attempt(IntentDigest(dep, e.request).value);
    assert AttemptsAt(dep, e) == [a];
    assert ProofReplay.Outcome(dep.jwt, w.proofCache, a).Ok?;
  }

  /** A call that returns made an attempt, the next one of the run, and it was accepted. */
  lemma ReplyNeedsProof(dep: Deployment, chain: ChainState, es: seq<Event>, i: nat)
    requires AllFit(dep, es) && i < |es| && es[i].Authorize? && ReplyAt(dep, chain, es, i).Ok?
    ensures var j := |AttemptsOf(dep, es[..i])|;
            && j < |AttemptsOf(dep, es[..i + 1])|
            && AttemptsOf(dep, es[..i + 1])[..j] == AttemptsOf(dep, es[..i])
            && IntentDigest(dep, es[i].request).Ok?
            && AttemptsOf(dep, es[..i + 1])[j] == es[i].request.Attempt(IntentDigest(dep, es[i].request).value)
            && ProofReplay.OutcomeAt(dep.jwt, AttemptsOf(dep, es[..i + 1]), j).Ok?
  {
    hide AttemptsAt, Reply, ProofReplay.Outcome, ProofReplay.RunCache, Run, Fits, WellTyped;
    assert es[..i + 1][..i] == es[..i];
    PrefixFits(dep, es, i);
    RunIsComponents(dep, chain, es[..i]);
    ReplyTriesProof(dep, Run(dep, chain, es[..i]), es[i]);
    var before := AttemptsOf(dep, es[..i]);
    assert AttemptsOf(dep, es[..i + 1]) == before + AttemptsAt(dep, es[i]);
    assert (before + AttemptsAt(dep, es[i]))[..|before|] == before;
  }

  /** The proof of a call carries a whole-second `iat`. */
  predicate IssuedAtWholeSecond(dep: Deployment, r: Request) {
    && IntentDigest(dep, r).Ok?
    && var claims := ProofReplay.CheckClaims(dep.jwt, r.Attempt(IntentDigest(dep, r).value));
    && claims.Ok? && ProofReplay.WholeSecond(claims.value)
  }

  lemma OutcomeIsClaims(jwt: ProofReplay.JwtLibrary, cache: map<Text, real>, a: ProofReplay.Attempt)
    requires ProofReplay.Outcome(jwt, cache, a).Ok?
    ensures ProofReplay.Outcome(jwt, cache, a) == ProofReplay.CheckClaims(jwt, a)
  {
    hide ProofReplay.CheckClaims;
  }

  /** Over every run on a clock that never goes back, no proof issued at a whole second gets two replies. */
  lemma ProofAuthorizesOnce(dep: Deployment, chain: ChainState, es: seq<Event>, i: nat, k: nat)
    requires AllFit(dep, es) && dep.jwt.Lawful() && Chronological(es)
    requires i < k < |es| && es[i].Authorize? && es[k].Authorize?
    requires ReplyAt(dep, chain, es, i).Ok? && ReplyAt(dep, chain, es, k).Ok?
    ensures es[i].request.proof != es[k].request.proof || !IssuedAtWholeSecond(dep, es[i].request)
  {
    hide AttemptsOf, ReplyAt, ProofReplay.RunCache, ProofReplay.Outcome, ProofReplay.CheckClaims, AllFit, IntentDigest, ProofReplay.WholeSecond;
    ReplyNeedsProof(dep, chain, es, i);
    ReplyNeedsProof(dep, chain, es, k);
    var all := AttemptsOf(dep, es);
    var a, b := |AttemptsOf(dep, es[..i])|, |AttemptsOf(dep, es[..k])|;
    AttemptsPrefix(dep, es, i + 1);
    AttemptsPrefix(dep, es, k + 1);
    assert es[..k][..i + 1] == es[..i + 1];
    AttemptsPrefix(dep, es[..k], i + 1);
    assert a < b < |all|;
    PrefixOutcome(dep.jwt, AttemptsOf(dep, es[..i + 1]), all, a);
    PrefixOutcome(dep.jwt, AttemptsOf(dep, es[..k + 1]), all, b);
    AttemptsChronological(dep, es);
    ProofReplay.ProofSingleUse(dep.jwt, all, a, b);
    OutcomeIsClaims(dep.jwt, ProofReplay.RunCache(dep.jwt, all[..a]), all[a]);
  }

  lemma PrefixOutcome(jwt: ProofReplay.JwtLibrary, xs: seq<ProofReplay.Attempt>, all: seq<ProofReplay.Attempt>, i: nat)
    requires xs <= all && i < |xs|
    ensures xs[i] == all[i] && ProofReplay.OutcomeAt(jwt, xs, i) == ProofReplay.OutcomeAt(jwt, all, i)
  {
    hide ProofReplay.Outcome;
    assert xs[..i] == all[..i];
  }

  // ----- rates -----

  /** The times, at rule `j`, of an agent's calls that got a token. */
  function TokenTimes(dep: Deployment, chain: ChainState, es: seq<Event>, agentId: Text, j: nat): seq<real>
    requires AllFit(dep, es) && j < |dep.policy.rules|
  {
    if es == [] then []
    else
      TokenTimes(dep, chain, es[..|es| - 1], agentId, j) +
      if es[|es| - 1].Authorize? && es[|es| - 1].request.agentId == agentId &&
         TokensAt(dep, Run(dep, chain, es[..|es| - 1]), es[|es| - 1]) != []
      then [es[|es| - 1].request.ruleTimes[j]] else []
  }

  /** No call is evaluated under a rule earlier than a call before it. */
  predicate RuleClocksMonotone(dep: Deployment, es: seq<Event>)
    requires AllFit(dep, es)
  {
    forall i, k, j | 0 <= i < k < |es| && es[i].Authorize? && es[k].Authorize? && 0 <= j < |dep.policy.rules| ::
      EventFits(dep, es[i]) && EventFits(dep, es[k]) ==> es[i].request.ruleTimes[j] <= es[k].request.ruleTimes[j]
  }

  /** A token is only handed out when every rule lets the call pass. */
  lemma TokenNeedsApproval(dep: Deployment, w: World, e: Event)
    requires EventFits(dep, e) && TokensAt(dep, w, e) != []
    ensures CallsAt(dep, w, e) == [e.request.Call()]
    ensures Policy.ReasonsAfter(dep.lower, TypedRules(dep.policy), w.counters, e.request.Call(), |dep.policy.rules|) == []
    ensures dep.policy.requireRegistration ==> Registered(w, e.request)
  {
    hide Lit, CheckProof, PolicyHash, Registered, Signed, Policy.ReasonsAfter, TypedRules;
    Policy.DenyIsNotApprove();
    CallAdds(dep, w, e.request);
    SignedKeeps(dep.signer, w.chain.seqNo + 1, w.chain.prev,
                DecisionOf(dep, w, e.request, CheckProof(dep, w, e.request).value).value);
  }

  lemma {:induction false} NoReasonsMeansAllPass(
    lower: Policy.Lower, rules: seq<Policy.Rule>, counters: Policy.Counters, call: Policy.Call, n: nat, j: nat)
    requires j < n <= |rules| == |call.clock| && rules[j].config.RateLimit?
    requires Policy.ReasonsAfter(lower, rules, counters, call, n) == []
    ensures Policy.RateOk(rules, Policy.CountersAfter(rules, counters, call, j), call, j)
    decreases n
  {
    hide Policy.RateOk, Policy.CountersAfter, Lit;
    if j < n - 1 {
      NoReasonsMeansAllPass(lower, rules, counters, call, n - 1, j);
    }
  }

  lemma InWindowMore(xs: seq<real>, ys: seq<real>, x: real, t: real, window: real)
    requires |SlidingWindow.InWindow(xs, t, window)| <= |SlidingWindow.InWindow(ys, t, window)|
    ensures |SlidingWindow.InWindow(xs + [x], t, window)| <= |SlidingWindow.InWindow(ys + [x], t, window)|
    ensures |SlidingWindow.InWindow(xs, t, window)| <= |SlidingWindow.InWindow(ys + [x], t, window)|
  {
    hide SlidingWindow.InWindow;
    SlidingWindow.InWindowConcat(xs, x, t, window);
    SlidingWindow.InWindowConcat(ys, x, t, window);
  }

  /** A further real call adds its time to the history of its agent exactly when the limiter admits it. */
  lemma HistoryOfMore(rules: seq<Policy.Rule>, calls: seq<Policy.Call>, call: Policy.Call, agentId: Text, j: nat)
    requires Policy.ValidCalls(rules, calls) && Policy.ValidCalls(rules, calls + [call])
    requires j < |rules| && rules[j].config.RateLimit? && !call.dryRun && |call.clock| == |rules|
    ensures Policy.PassHistory(rules, calls + [call], agentId, j) ==
            Policy.PassHistory(rules, calls, agentId, j) +
            if call.agentId == agentId && Policy.FullHistoryAdmits(rules, calls, call, j) then [call.clock[j]] else []
  {
    hide SlidingWindow.Admits;
    assert (calls + [call])[..|calls|] == calls;
    var ops := Policy.OpsOf(rules, calls, agentId, j);
    if call.agentId == agentId {
      assert (ops + [SlidingWindow.Op(call.clock[j], false)])[..|ops|] == ops;
    } else {
      assert ops + [] == ops;
    }
  }

  predicate CallOf(call: Policy.Call, e: Event) {
    e.Authorize? && call == e.request.Call()
  }

  predicate CallFrom(call: Policy.Call, es: seq<Event>) {
    exists i | 0 <= i < |es| :: CallOf(call, es[i])
  }

  predicate CallsFromRun(calls: seq<Policy.Call>, es: seq<Event>) {
    forall j | 0 <= j < |calls| :: CallFrom(calls[j], es)
  }

  lemma CallsFromRunAppend(calls: seq<Policy.Call>, es: seq<Event>, more: seq<Policy.Call>, e: Event)
    requires CallsFromRun(calls, es) && |more| <= 1 && (more != [] ==> CallOf(more[0], e))
    ensures CallsFromRun(calls + more, es + [e])
  {
    var all, fs := calls + more, es + [e];
    forall j | 0 <= j < |all| ensures CallFrom(all[j], fs) {
      if j < |calls| {
        var i :| 0 <= i < |es| && CallOf(calls[j], es[i]);
        assert fs[i] == es[i];
      } else {
        assert fs[|es|] == e;
      }
    }
  }

  lemma CallsEarlier(dep: Deployment, calls: seq<Policy.Call>, es: seq<Event>, call: Policy.Call)
    requires es != [] && AllFit(dep, es) && RuleClocksMonotone(dep, es)
    requires CallsFromRun(calls, es[..|es| - 1]) && CallOf(call, es[|es| - 1])
    requires Policy.ValidCalls(TypedRules(dep.policy), calls) && |call.clock| == |dep.policy.rules|
    ensures Policy.Latest(TypedRules(dep.policy), calls, call)
  {
    hide TypedRules, WellTyped;
    var n := |es| - 1;
    forall i, j | 0 <= i < |calls| && 0 <= j < |dep.policy.rules| ensures calls[i].clock[j] <= call.clock[j] {
      assert CallFrom(calls[i], es[..n]);
      var k :| 0 <= k < n && CallOf(calls[i], es[..n][k]);
      assert es[..n][k] == es[k] && EventFits(dep, es[k]) && EventFits(dep, es[n]);
    }
  }

  lemma CallsAtOf(dep: Deployment, w: World, e: Event)
    requires EventFits(dep, e)
    ensures |CallsAt(dep, w, e)| <= 1
    ensures CallsAt(dep, w, e) != [] ==>
              CallOf(CallsAt(dep, w, e)[0], e) && |CallsAt(dep, w, e)[0].clock| == |dep.policy.rules| && !CallsAt(dep, w, e)[0].dryRun
  {
    hide CheckProof, DeniedUnregistered;
  }

  lemma {:induction false} CallsMonotone(dep: Deployment, chain: ChainState, es: seq<Event>)
    requires AllFit(dep, es) && RuleClocksMonotone(dep, es)
    ensures Policy.ClockMonotone(TypedRules(dep.policy), CallsOf(dep, chain, es))
    ensures CallsFromRun(CallsOf(dep, chain, es), es)
    decreases |es|
  {
    hide Fits, WellTyped, Run, CallsAt, TypedRules, Policy.ClockMonotone, Policy.Latest, CallOf, CallsFromRun;
    if es == [] {
      NoCallsMonotone(TypedRules(dep.policy));
    } else {
      var before, e := es[..|es| - 1], es[|es| - 1];
      assert RuleClocksMonotone(dep, before) by { MonotonePrefix(dep, es); }
      CallsMonotone(dep, chain, before);
      var calls, more := CallsOf(dep, chain, before), CallsAt(dep, Run(dep, chain, before), e);
      CallsAtOf(dep, Run(dep, chain, before), e);
      CallsFromRunAppend(calls, before, more, e);
      assert before + [e] == es;
      if more != [] {
        CallsEarlier(dep, calls, es, more[0]);
        assert calls + more == calls + [more[0]];
        Policy.MonotoneAppend(TypedRules(dep.policy), calls, more[0]);
      } else {
        assert calls + more == calls;
      }
    }
  }

  lemma MonotonePrefix(dep: Deployment, es: seq<Event>)
    requires es != [] && AllFit(dep, es) && RuleClocksMonotone(dep, es)
    ensures RuleClocksMonotone(dep, es[..|es| - 1])
  {
    hide TypedRules, WellTyped;
  }

  lemma NoCallsMonotone(rules: seq<Policy.Rule>)
    ensures Policy.ClockMonotone(rules, []) && CallsFromRun([], [])
  {
  }

  /** Every token's time is in the limiter's history of its agent, so a window holds no more tokens than passes. */
  lemma {:induction false} TokensAreCounted(dep: Deployment, chain: ChainState, es: seq<Event>, agentId: Text, j: nat, t: real)
    requires AllFit(dep, es) && RuleClocksMonotone(dep, es) && Policy.PlainIds(TypedRules(dep.policy))
    requires j < |dep.policy.rules| && TypedRules(dep.policy)[j].config.RateLimit?
    ensures var rules := TypedRules(dep.policy);
            |SlidingWindow.InWindow(TokenTimes(dep, chain, es, agentId, j), t, rules[j].Window())| <=
            |SlidingWindow.InWindow(Policy.PassHistory(rules, CallsOf(dep, chain, es), agentId, j), t, rules[j].Window())|
    decreases |es|
  {
    hide Fits, WellTyped, Run, CallsAt, TokensAt, TypedRules, Policy.PlainIds, Policy.PassHistory, SlidingWindow.InWindow,
      Policy.FullHistoryAdmits, CallOf;
    var rules := TypedRules(dep.policy);
    if es != [] {
      var before, e := es[..|es| - 1], es[|es| - 1];
      MonotonePrefix(dep, es);
      TokensAreCounted(dep, chain, before, agentId, j, t);
      var w := Run(dep, chain, before);
      var calls, more := CallsOf(dep, chain, before), CallsAt(dep, w, e);
      var times := TokenTimes(dep, chain, before, agentId, j);
      CallsAtOf(dep, w, e);
      if more == [] {
        assert calls + more == calls;
        TokensNeedCalls(dep, w, e);
        assert times + [] == times;
      } else {
        assert calls + more == calls + [more[0]];
        assert CallsOf(dep, chain, es) == calls + [more[0]];
        CallTimes(more[0], e);
        HistoryOfMore(rules, calls, more[0], agentId, j);
        InWindowMore(times, Policy.PassHistory(rules, calls, agentId, j), more[0].clock[j], t, rules[j].Window());
        if TokensAt(dep, w, e) != [] {
          TokensNeedCalls(dep, w, e);
          TokenWasAdmitted(dep, chain, es, j);
        }
        assert times + [] == times;
        assert Policy.PassHistory(rules, calls, agentId, j) + [] == Policy.PassHistory(rules, calls, agentId, j);
      }
    } else {
      assert SlidingWindow.InWindow([], t, rules[j].Window()) == [] by { NothingInWindow(t, rules[j].Window()); }
    }
  }

  lemma CallTimes(call: Policy.Call, e: Event)
    requires CallOf(call, e)
    ensures call.agentId == e.request.agentId && call.clock == e.request.ruleTimes
  {
  }

  lemma NothingInWindow(t: real, window: real)
    ensures SlidingWindow.InWindow([], t, window) == []
  {
  }

  lemma TokensNeedCalls(dep: Deployment, w: World, e: Event)
    requires EventFits(dep, e)
    ensures TokensAt(dep, w, e) != [] ==> e.Authorize? && CallsAt(dep, w, e) != []
  {
    hide CallsAt, Reply;
    if TokensAt(dep, w, e) != [] {
      TokenNeedsApproval(dep, w, e);
    }
  }

  /** When the last event of a run gets a token, the full history of its agent admitted it under every rate limit. */
  lemma TokenWasAdmitted(dep: Deployment, chain: ChainState, es: seq<Event>, j: nat)
    requires es != [] && AllFit(dep, es) && RuleClocksMonotone(dep, es) && Policy.PlainIds(TypedRules(dep.policy))
    requires j < |dep.policy.rules| && TypedRules(dep.policy)[j].config.RateLimit?
    requires EventFits(dep, es[|es| - 1]) && AllFit(dep, es[..|es| - 1])
    requires es[|es| - 1].Authorize? && TokensAt(dep, Run(dep, chain, es[..|es| - 1]), es[|es| - 1]) != []
    ensures var before := es[..|es| - 1];
            var w := Run(dep, chain, before);
            && CallsAt(dep, w, es[|es| - 1]) == [es[|es| - 1].request.Call()]
            && |es[|es| - 1].request.Call().clock| == |dep.policy.rules|
            && Policy.FullHistoryAdmits(TypedRules(dep.policy), CallsOf(dep, chain, before), es[|es| - 1].request.Call(), j)
  {
    hide Fits, WellTyped, Run, CallsAt, TokensAt, TypedRules, Policy.PlainIds, Policy.FullHistoryAdmits, CallOf,
      Policy.RateOk, Policy.CountersAfter, Policy.RunCounters, Policy.ReasonsAfter, Policy.ClockMonotone, AttemptsOf, DecisionsOf, OpsOf;
    var before, e := es[..|es| - 1], es[|es| - 1];
    var rules := TypedRules(dep.policy);
    var w := Run(dep, chain, before);
    var calls := CallsOf(dep, chain, before);
    var call := e.request.Call();
    TokenNeedsApproval(dep, w, e);
    CallsAtOf(dep, w, e);
    RunIsComponents(dep, chain, before);
    NoReasonsMeansAllPass(dep.lower, rules, w.counters, call, |rules|, j);
    CallsMonotone(dep, chain, es);
    assert CallsOf(dep, chain, es) == calls + [call];
    Policy.LimiterAnswersAsFull(rules, calls, call, j);
  }

  /**
   * Rate limits reach the tokens: on every run, no interval (t - window, t] holds more than
   * `max_actions` tokens of one agent, for any rate-limit rule of the policy.
   */
  lemma TokensAreRateLimited(dep: Deployment, chain: ChainState, es: seq<Event>, agentId: Text, j: nat, t: real)
    requires AllFit(dep, es) && RuleClocksMonotone(dep, es) && Policy.PlainIds(TypedRules(dep.policy))
    requires j < |dep.policy.rules| && TypedRules(dep.policy)[j].config.RateLimit?
    ensures var rule := TypedRules(dep.policy)[j];
            |SlidingWindow.InWindow(TokenTimes(dep, chain, es, agentId, j), t, rule.Window())| <= if rule.Max() > 0 then rule.Max() else 0
  {
    hide AllFit, TypedRules, Policy.PlainIds, Policy.PassHistory, SlidingWindow.InWindow, TokenTimes, RuleClocksMonotone;
    TokensAreCounted(dep, chain, es, agentId, j, t);
    Policy.HistoryWithinLimit(TypedRules(dep.policy), CallsOf(dep, chain, es), agentId, j, t);
  }

  // ----- resources and intents -----

  /** A receipt names its resource exactly when the last accepted registry call on it left it active, unless strict mode denied the call. */
  lemma RegistrationIsCurrent(dep: Deployment, chain: ChainState, es: seq<Event>, i: nat)
    requires AllFit(dep, es) && i < |es| && es[i].Authorize? && AllFit(dep, es[..i])
    ensures Registered(Run(dep, chain, es[..i]), es[i].request) <==> Resources.LastStatus(OpsOf(es[..i]), es[i].request.resource)
  {
    hide AllFit, Run, OpsOf, Resources.Answer, Resources.Run, Resources.LastStatus, AttemptsOf, CallsOf, DecisionsOf;
    RunIsComponents(dep, chain, es[..i]);
    Resources.AnswerIsStatus(OpsOf(es[..i]), es[i].request.resource, es[i].request.resourceTime);
  }

  /**
   * Strict mode: on every run, whatever the cache holds and the clocks say, a token is handed out only
   * for a resource that is registered and not revoked at that moment.
   */
  lemma StrictTokensOnlyForActive(dep: Deployment, chain: ChainState, es: seq<Event>, i: nat)
    requires AllFit(dep, es) && i < |es| && es[i].Authorize? && dep.policy.requireRegistration
    requires ReplyAt(dep, chain, es, i).Ok? && ReplyAt(dep, chain, es, i).value.token.Some?
    ensures Resources.LastStatus(OpsOf(es[..i]), es[i].request.resource)
  {
    hide Run, Registered, Reply, Fits, WellTyped, OpsOf, Resources.LastStatus;
    PrefixFits(dep, es, i);
    RegistrationIsCurrent(dep, chain, es, i);
    TokenNeedsApproval(dep, Run(dep, chain, es[..i]), es[i]);
  }

  /**
   * A token authorizes one intent: two replies with one action digest, from any runs of gateways with
   * the same hash function, answer the same agent, action and resource with equal parameters, or a
   * SHA-256 collision is at hand.
   */
  lemma ReplyBindsIntent(depA: Deployment, wA: World, a: Request, depB: Deployment, wB: World, b: Request)
    requires Fits(depA, a) && Fits(depB, b) && depA.Sha() == depB.Sha()
    requires WellFormed(Obj(a.ToIntent().Parameters())) && WellFormed(Obj(b.ToIntent().Parameters()))
    requires Reply(depA, wA, a).Ok? && Reply(depB, wB, b).Ok?
    requires Reply(depA, wA, a).value.actionDigest == Reply(depB, wB, b).value.actionDigest
    ensures SameIntent(a.ToIntent(), b.ToIntent()) ||
            Collides(depA.Sha(), ObjectCollision(a.ToIntent().Members(), b.ToIntent().Members()))
  {
    hide ActionDigest, WellFormed, SameIntent, ObjectCollision, Collides, DecisionOf, Signed, ProofReplay.Outcome;
    assert CheckProof(depA, wA, a).Ok? && CheckProof(depB, wB, b).Ok?;
    ActionDigestBinds(depA.Sha(), a.ToIntent(), b.ToIntent());
  }
}
