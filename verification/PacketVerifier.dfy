/** `gateway/audit_packet_verifier.py`: the steps of the offline verifier and its report. */
module PacketVerifier {
  import opened Basics
  import opened Json
  import opened Numerals
  import opened Sha256
  import opened Merkle
  import opened InclusionCheck
  import opened Platform
  import opened Receipts
  import opened Verify
  import opened AuditPacket
  import Canonical

  /** The counters of a VerificationReport. */
  datatype Report = Report(
    sigOk: nat, sigFail: nat, hashOk: nat, hashFail: nat, linksOk: nat, linksFail: nat, linksSkip: nat,
    inclusionOk: nat, inclusionFail: nat, anchorOk: nat, anchorFail: nat, anchorSkip: nat, metadataOk: bool)
  {
    /** `passed` */
    predicate Passed() {
      sigFail == 0 && hashFail == 0 && linksFail == 0 && inclusionFail == 0 && anchorFail == 0 && metadataOk
    }
  }

  const BLANK: Report := Report(0, 0, 0, 0, 0, 0, 0, 0, 0, 0, 0, 0, true)

  // ----- step 1: hashes and signatures -----

  /** `_resolve_key`: the first key with the kid. */
  function ResolveKey(kid: Text, keys: seq<LabelledKey>): Option<Jwk> {
    if keys == [] then None
    else if keys[0].jwk.kid == Some(kid) then Some(keys[0].jwk)
    else ResolveKey(kid, keys[1..])
  }

  function KidOf(e: Envelope): Text {
    if e.sig.Some? && e.sig.value.kid.Some? then e.sig.value.kid.value else []
  }

  function ValueOf(e: Envelope): Text {
    if e.sig.Some? && e.sig.value.value.Some? then e.sig.value.value.value else []
  }

  predicate SignatureHolds(p: Platform, keys: seq<LabelledKey>, e: Envelope, bytes: Bytes) {
    var jwk := ResolveKey(KidOf(e), keys);
    jwk.Some? && jwk.value.x.Some? && p.check(jwk.value.x.value, ValueOf(e), bytes) == Accepted
  }

  function SigStep(p: Platform, keys: seq<LabelledKey>, r: Report, e: Envelope): Report {
    match Canonical.Canonicalize(Obj(e.body))
    case Err(_) => r.(hashFail := r.hashFail + 1)
    case Ok(bytes) =>
      var r1 := if HashText(p.sha, bytes) == HashOrEmpty(e) then r.(hashOk := r.hashOk + 1) else r.(hashFail := r.hashFail + 1);
      if SignatureHolds(p, keys, e, bytes) then r1.(sigOk := r1.sigOk + 1) else r1.(sigFail := r1.sigFail + 1)
  }

  function SigSteps(p: Platform, keys: seq<LabelledKey>, r: Report, es: seq<Envelope>): Report {
    if es == [] then r else SigStep(p, keys, SigSteps(p, keys, r, es[..|es| - 1]), es[|es| - 1])
  }

  // ----- step 2: continuity -----

  /** One link; None when the error message cannot be put together. */
  function LinkStep(r: Report, previous: Envelope, current: Envelope): Option<Report> {
    if HashOrEmpty(previous) == [] || Falsy(PrevLink(current)) then Some(r.(linksSkip := r.linksSkip + 1))
    else if !Broken(previous, current) then Some(r.(linksOk := r.linksOk + 1))
    else if Sliceable(PrevLink(current)) then Some(r.(linksFail := r.linksFail + 1))
    else None
  }

  /** The links among the first `n` receipts. */
  function LinkSteps(r: Report, sorted: seq<Envelope>, n: nat): Option<Report>
    requires 1 <= n <= |sorted|
  {
    if n == 1 then
      Some(if PrevLink(sorted[0]) == Str(Genesis()) then r.(linksOk := r.linksOk + 1) else r.(linksSkip := r.linksSkip + 1))
    else
      match LinkSteps(r, sorted, n - 1)
      case None => None
      case Some(before) => LinkStep(before, sorted[n - 2], sorted[n - 1])
  }

  function Continuity(p: Platform, r: Report, es: seq<Envelope>): Option<Report> {
    if es == [] then Some(r)
    else if !Numeric(p, es) then None
    else LinkSteps(r, SortBySeq(p, es), |es|)
  }

  // ----- step 3: inclusion proofs -----

  function InclusionStep(sha: Sha, r: Report, entry: ProofEntry): Option<Report> {
    match CheckedRoot(sha, RemovePrefix(entry.receiptHash), entry.proof)
    case Err(_) => None
    case Ok(root) =>
      Some(if root == entry.merkleRoot then r.(inclusionOk := r.inclusionOk + 1) else r.(inclusionFail := r.inclusionFail + 1))
  }

  function InclusionSteps(sha: Sha, r: Report, entries: seq<ProofEntry>): Option<Report> {
    if entries == [] then Some(r)
    else
      match InclusionSteps(sha, r, entries[..|entries| - 1])
      case None => None
      case Some(before) => InclusionStep(sha, before, entries[|entries| - 1])
  }

  // ----- step 5: metadata -----

  predicate CountsHold(packet: Packet) {
    && packet.metadata.receiptCount == |packet.receipts|
    && packet.metadata.approvalCount == CountDecision(packet.receipts, Lit("approve"))
    && packet.metadata.denialCount == CountDecision(packet.receipts, Lit("deny"))
    && packet.metadata.anchorCount == |packet.anchorProofs|
  }

  /** All steps, with the on-chain check skipped; None when an exception escapes. */
  function VerifyPacket(p: Platform, packet: Packet): Option<Report> {
    var r1 := SigSteps(p, packet.publicKeys, BLANK, packet.receipts);
    match Continuity(p, r1, packet.receipts)
    case None => None
    case Some(r2) =>
      match InclusionSteps(p.sha, r2, packet.inclusionProofs)
      case None => None
      case Some(r3) =>
        var r4 := r3.(anchorSkip := r3.anchorSkip + |packet.anchorProofs|);
        Some(r4.(metadataOk := r4.metadataOk && CountsHold(packet)))
  }

  // ----- the report object and the steps that fill it in -----

  class VerificationReport {
    var sigOk: nat
    var sigFail: nat
    var hashOk: nat
    var hashFail: nat
    var linksOk: nat
    var linksFail: nat
    var linksSkip: nat
    var inclusionOk: nat
    var inclusionFail: nat
    var anchorOk: nat
    var anchorFail: nat
    var anchorSkip: nat
    var metadataOk: bool

    constructor ()
      ensures View() == BLANK
    {
      sigOk, sigFail, hashOk, hashFail := 0, 0, 0, 0;
      linksOk, linksFail, linksSkip := 0, 0, 0;
      inclusionOk, inclusionFail := 0, 0;
      anchorOk, anchorFail, anchorSkip := 0, 0, 0;
      metadataOk := true;
    }

    function View(): Report
      reads this
    {
      Report(sigOk, sigFail, hashOk, hashFail, linksOk, linksFail, linksSkip,
             inclusionOk, inclusionFail, anchorOk, anchorFail, anchorSkip, metadataOk)
    }
  }

  method VerifyReceiptSignatures(p: Platform, packet: Packet, report: VerificationReport)
    modifies report
    ensures report.View() == SigSteps(p, packet.publicKeys, old(report.View()), packet.receipts)
  {
    hide SigStep;
    for i := 0 to |packet.receipts|
      invariant report.View() == SigSteps(p, packet.publicKeys, old(report.View()), packet.receipts[..i])
    {
      assert packet.receipts[..i + 1][..i] == packet.receipts[..i];
      CheckReceipt(p, packet.publicKeys, packet.receipts[i], report);
    }
    assert packet.receipts[..|packet.receipts|] == packet.receipts;
  }

  /** The body of the loop over the receipts. */
  method CheckReceipt(p: Platform, keys: seq<LabelledKey>, receipt: Envelope, report: VerificationReport)
    modifies report
    ensures report.View() == SigStep(p, keys, old(report.View()), receipt)
  {
    hide Canonical.Canonicalize, SignatureHolds, HashText, HashOrEmpty;
    var bodyBytes := Canonical.Canonicalize(Obj(receipt.body));
    if bodyBytes.Err? {
      report.hashFail := report.hashFail + 1;
      return;
    }
    if HashText(p.sha, bodyBytes.value) == HashOrEmpty(receipt) {
      report.hashOk := report.hashOk + 1;
    } else {
      report.hashFail := report.hashFail + 1;
    }
    if SignatureHolds(p, keys, receipt, bodyBytes.value) {
      report.sigOk := report.sigOk + 1;
    } else {
      report.sigFail := report.sigFail + 1;
    }
  }

  method VerifyChainContinuity(p: Platform, packet: Packet, report: VerificationReport) returns (raised: bool)
    modifies report
    ensures raised <==> Continuity(p, old(report.View()), packet.receipts).None?
    ensures !raised ==> Some(report.View()) == Continuity(p, old(report.View()), packet.receipts)
  {
    hide Numeric, PrevLink, LinkStep, Genesis;
    raised := false;
    if packet.receipts == [] {
      return;
    }
    if !Numeric(p, packet.receipts) {
      return true;
    }
    var sorted := SortBySeq(p, packet.receipts);
    if PrevLink(sorted[0]) == Str(Genesis()) {
      report.linksOk := report.linksOk + 1;
    } else {
      report.linksSkip := report.linksSkip + 1;
    }
    var i := 1;
    while i < |sorted|
      invariant 1 <= i <= |sorted|
      invariant Some(report.View()) == LinkSteps(old(report.View()), sorted, i)
    {
      LinkStepsFail(old(report.View()), sorted, i + 1, |sorted|);
      raised := CheckLink(sorted[i - 1], sorted[i], report);
      if raised {
        return;
      }
      i := i + 1;
    }
  }

  /** The body of the loop over the links. */
  method CheckLink(previous: Envelope, current: Envelope, report: VerificationReport) returns (raised: bool)
    modifies report
    ensures raised <==> LinkStep(old(report.View()), previous, current).None?
    ensures !raised ==> Some(report.View()) == LinkStep(old(report.View()), previous, current)
  {
    hide HashOrEmpty, PrevLink, Falsy, Broken, Sliceable;
    raised := false;
    if HashOrEmpty(previous) == [] || Falsy(PrevLink(current)) {
      report.linksSkip := report.linksSkip + 1;
    } else if !Broken(previous, current) {
      report.linksOk := report.linksOk + 1;
    } else if Sliceable(PrevLink(current)) {
      report.linksFail := report.linksFail + 1;
    } else {
      raised := true;
    }
  }

  lemma {:induction false} LinkStepsFail(r: Report, sorted: seq<Envelope>, m: nat, n: nat)
    requires 1 <= m <= n <= |sorted|
    ensures LinkSteps(r, sorted, m).None? ==> LinkSteps(r, sorted, n).None?
    decreases n
  {
    hide LinkStep, PrevLink;
    if m < n {
      LinkStepsFail(r, sorted, m, n - 1);
    }
  }

  method VerifyInclusionProofs(p: Platform, packet: Packet, report: VerificationReport) returns (raised: bool)
    modifies report
    ensures raised <==> InclusionSteps(p.sha, old(report.View()), packet.inclusionProofs).None?
    ensures !raised ==> Some(report.View()) == InclusionSteps(p.sha, old(report.View()), packet.inclusionProofs)
  {
    hide CheckedRoot, RemovePrefix;
    raised := false;
    var entries := packet.inclusionProofs;
    for i := 0 to |entries|
      invariant Some(report.View()) == InclusionSteps(p.sha, old(report.View()), entries[..i])
    {
      assert entries[..i + 1][..i] == entries[..i];
      InclusionStepsFail(p.sha, old(report.View()), entries, i + 1);
      var root := WalkToRoot(p.sha, RemovePrefix(entries[i].receiptHash), entries[i].proof);
      if root.Err? {
        return true;
      }
      if root.value == entries[i].merkleRoot {
        report.inclusionOk := report.inclusionOk + 1;
      } else {
        report.inclusionFail := report.inclusionFail + 1;
      }
    }
    assert entries[..|entries|] == entries;
  }

  lemma {:induction false} InclusionStepsFail(sha: Sha, r: Report, entries: seq<ProofEntry>, m: nat)
    requires m <= |entries|
    ensures InclusionSteps(sha, r, entries[..m]).None? ==> InclusionSteps(sha, r, entries).None?
    decreases |entries|
  {
    hide InclusionStep;
    if m < |entries| {
      assert entries[..|entries| - 1][..m] == entries[..m];
      InclusionStepsFail(sha, r, entries[..|entries| - 1], m);
    } else {
      assert entries[..m] == entries;
    }
  }

  method VerifyMetadata(packet: Packet, report: VerificationReport)
    modifies report
    ensures report.View() == old(report.View()).(metadataOk := old(report.View()).metadataOk && CountsHold(packet))
  {
    hide CountDecision;
    if packet.metadata.receiptCount != |packet.receipts| {
      report.metadataOk := false;
    }
    var approvals := Count(packet.receipts, Lit("approve"));
    var denials := Count(packet.receipts, Lit("deny"));
    if packet.metadata.approvalCount != approvals {
      report.metadataOk := false;
    }
    if packet.metadata.denialCount != denials {
      report.metadataOk := false;
    }
    if packet.metadata.anchorCount != |packet.anchorProofs| {
      report.metadataOk := false;
    }
  }

  /** `verify_audit_packet` without `--verify-onchain`. */
  method VerifyAuditPacket(p: Platform, packet: Packet) returns (raised: bool, report: VerificationReport)
    ensures raised <==> VerifyPacket(p, packet).None?
    ensures !raised ==> Some(report.View()) == VerifyPacket(p, packet)
  {
    hide SigSteps, Continuity, InclusionSteps, CountsHold;
    report := new VerificationReport();
    VerifyReceiptSignatures(p, packet, report);
    raised := VerifyChainContinuity(p, packet, report);
    if raised {
      return;
    }
    raised := VerifyInclusionProofs(p, packet, report);
    if raised {
      return;
    }
    report.anchorSkip := report.anchorSkip + |packet.anchorProofs|;
    VerifyMetadata(packet, report);
  }

  // ----- what a passing report means -----

  predicate ReceiptHolds(p: Platform, keys: seq<LabelledKey>, e: Envelope) {
    match Canonical.Canonicalize(Obj(e.body))
    case Err(_) => false
    case Ok(bytes) => HashText(p.sha, bytes) == HashOrEmpty(e) && SignatureHolds(p, keys, e, bytes)
  }

  predicate ProofHolds(sha: Sha, entry: ProofEntry) {
    CheckedRoot(sha, RemovePrefix(entry.receiptHash), entry.proof) == Ok(entry.merkleRoot)
  }

  /** The other counters, which a step leaves alone. */
  predicate OnlySigs(r: Report, s: Report) {
    s == r.(sigOk := s.sigOk, sigFail := s.sigFail, hashOk := s.hashOk, hashFail := s.hashFail)
  }

  lemma {:induction false} SigStepsCount(p: Platform, keys: seq<LabelledKey>, es: seq<Envelope>)
    ensures var r := SigSteps(p, keys, BLANK, es);
            && OnlySigs(BLANK, r)
            && r.hashOk + r.hashFail == |es|
            && (r.sigFail == 0 && r.hashFail == 0 <==> forall i | 0 <= i < |es| :: ReceiptHolds(p, keys, es[i]))
            && (r.sigFail == 0 && r.hashFail == 0 ==> r.sigOk == r.hashOk == |es|)
    decreases |es|
  {
    hide SigStep, ReceiptHolds;
    if es != [] {
      var before := es[..|es| - 1];
      SigStepsCount(p, keys, before);
      assert forall i | 0 <= i < |before| :: before[i] == es[i];
      SigStepCounts(p, keys, SigSteps(p, keys, BLANK, before), es[|es| - 1]);
    }
  }

  /** One receipt adds one hash, good or bad, and fails something exactly when it does not hold. */
  lemma SigStepCounts(p: Platform, keys: seq<LabelledKey>, r: Report, e: Envelope)
    ensures var s := SigStep(p, keys, r, e);
            && OnlySigs(r, s)
            && s.hashOk + s.hashFail == r.hashOk + r.hashFail + 1
            && s.sigFail >= r.sigFail && s.hashFail >= r.hashFail
            && (s.sigFail == r.sigFail && s.hashFail == r.hashFail <==> ReceiptHolds(p, keys, e))
            && (ReceiptHolds(p, keys, e) ==> s.sigOk == r.sigOk + 1 && s.hashOk == r.hashOk + 1)
  {
    hide Canonical.Canonicalize, SignatureHolds, HashText;
  }

  lemma {:induction false} LinkStepsCount(r: Report, sorted: seq<Envelope>, n: nat)
    requires 1 <= n <= |sorted|
    ensures LinkSteps(r, sorted, n).Some? ==>
              var s := LinkSteps(r, sorted, n).value;
              && s == r.(linksOk := s.linksOk, linksSkip := s.linksSkip, linksFail := s.linksFail)
              && s.linksFail >= r.linksFail
              && s.linksOk + s.linksSkip + s.linksFail == r.linksOk + r.linksSkip + r.linksFail + n
              && (s.linksFail == r.linksFail <==> forall i | 0 < i < n :: !Broken(sorted[i - 1], sorted[i]))
    ensures (forall i | 0 < i < n :: !Broken(sorted[i - 1], sorted[i])) ==> LinkSteps(r, sorted, n).Some?
    decreases n
  {
    hide PrevLink, Falsy, Genesis, Sliceable, HashOrEmpty;
    if n > 1 {
      LinkStepsCount(r, sorted, n - 1);
      LinkStepBroken(sorted[n - 2], sorted[n - 1]);
    }
  }

  lemma LinkStepBroken(previous: Envelope, current: Envelope)
    ensures HashOrEmpty(previous) == [] || Falsy(PrevLink(current)) ==> !Broken(previous, current)
  {
  }

  lemma {:induction false} InclusionStepsCount(sha: Sha, r: Report, entries: seq<ProofEntry>)
    ensures InclusionSteps(sha, r, entries).Some? ==>
              var s := InclusionSteps(sha, r, entries).value;
              && s == r.(inclusionOk := s.inclusionOk, inclusionFail := s.inclusionFail)
              && s.inclusionFail >= r.inclusionFail
              && s.inclusionOk + s.inclusionFail == r.inclusionOk + r.inclusionFail + |entries|
              && (s.inclusionFail == r.inclusionFail <==> forall i | 0 <= i < |entries| :: ProofHolds(sha, entries[i]))
    ensures (forall i | 0 <= i < |entries| :: ProofHolds(sha, entries[i])) ==> InclusionSteps(sha, r, entries).Some?
    decreases |entries|
  {
    hide CheckedRoot, RemovePrefix;
    if entries != [] {
      var before := entries[..|entries| - 1];
      InclusionStepsCount(sha, r, before);
      assert forall i | 0 <= i < |before| :: before[i] == entries[i];
    }
  }

  /** Everything the verifier is there to establish. */
  predicate PacketHolds(p: Platform, packet: Packet) {
    && (forall i | 0 <= i < |packet.receipts| :: ReceiptHolds(p, packet.publicKeys, packet.receipts[i]))
    && Numeric(p, packet.receipts)
    && NoBrokenLink(SortBySeq(p, packet.receipts))
    && (forall i | 0 <= i < |packet.inclusionProofs| :: ProofHolds(p.sha, packet.inclusionProofs[i]))
    && CountsHold(packet)
  }

  lemma EmptyIsNumeric(p: Platform)
    ensures Numeric(p, []) && SortBySeq(p, []) == [] && NoBrokenLink([])
  {
  }

  lemma NoBrokenLinkIs(sorted: seq<Envelope>)
    ensures NoBrokenLink(sorted) <==> forall i | 0 < i < |sorted| :: !Broken(sorted[i - 1], sorted[i])
  {
  }

  /**
   * The report passes exactly when every hash and signature holds, no stated link is broken, every
   * inclusion proof reaches its root, and the counts are right. Then all receipts were counted.
   */
  lemma PassedIff(p: Platform, packet: Packet)
    ensures VerifyPacket(p, packet).Some? && VerifyPacket(p, packet).value.Passed() <==> PacketHolds(p, packet)
    ensures PacketHolds(p, packet) ==>
              var r := VerifyPacket(p, packet).value;
              && r.sigOk == r.hashOk == r.linksOk + r.linksSkip == |packet.receipts|
              && r.inclusionOk == |packet.inclusionProofs| && r.anchorSkip == |packet.anchorProofs|
  {
    hide SigSteps, LinkSteps, InclusionSteps, CountsHold, ReceiptHolds, ProofHolds, Broken, SortBySeq, Numeric, NoBrokenLink;
    var r1 := SigSteps(p, packet.publicKeys, BLANK, packet.receipts);
    SigStepsCount(p, packet.publicKeys, packet.receipts);
    EmptyIsNumeric(p);
    if Numeric(p, packet.receipts) {
      var sorted := SortBySeq(p, packet.receipts);
      if packet.receipts != [] {
        LinkStepsCount(r1, sorted, |sorted|);
      }
      NoBrokenLinkIs(sorted);
    }
    var r2 := Continuity(p, r1, packet.receipts);
    if r2.Some? {
      InclusionStepsCount(p.sha, r2.value, packet.inclusionProofs);
    }
  }

  // ----- the same, said of the packet itself -----

  /** The first key of the packet with the receipt's kid; a missing kid is looked up as "". */
  predicate IsKeyFor(keys: seq<LabelledKey>, e: Envelope, j: nat)
    requires j < |keys|
  {
    var kid := match e.sig case None => [] case Some(sig) => match sig.kid case None => [] case Some(t) => t;
    keys[j].jwk.kid == Some(kid) && forall i | 0 <= i < j :: keys[i].jwk.kid != Some(kid)
  }

  /** The key checks the signature the receipt carries over these bytes. */
  predicate Checks(p: Platform, key: Jwk, e: Envelope, bytes: Bytes) {
    var value := match e.sig case None => [] case Some(sig) => match sig.value case None => [] case Some(t) => t;
    key.x.Some? && p.check(key.x.value, value, bytes) == Accepted
  }

  /**
   * The receipt is sealed: its body has canonical bytes, the stated hash is theirs, and the packet holds a
   * key for the receipt's kid that checks its signature over them.
   */
  predicate Sealed(p: Platform, keys: seq<LabelledKey>, e: Envelope) {
    match Canonical.Canonicalize(Obj(e.body))
    case Err(_) => false
    case Ok(bytes) =>
      && e.receiptHash == Some(Lit("sha256:") + ToHex(p.sha(bytes)))
      && exists j | 0 <= j < |keys| :: IsKeyFor(keys, e, j) && Checks(p, keys[j].jwk, e, bytes)
  }

  /** Neighbours by number agree wherever both sides state the link: a missing or empty statement counts as none. */
  predicate Linked(previous: Envelope, current: Envelope) {
    match previous.receiptHash
    case None => true
    case Some(hash) =>
      || hash == []
      || match Lookup(current.body, Lit("prev_receipt"))
         case None => true
         case Some(link) =>
           || link == Str(hash)
           || link == Str([]) || link == Null || link == Bool(false) || link == Int(0) || link == Arr([]) || link == Obj([])
  }

  /** The kid of a receipt resolves to the first key that has it. */
  lemma {:induction false} ResolvedIsFirst(e: Envelope, keys: seq<LabelledKey>)
    ensures ResolveKey(KidOf(e), keys).Some? <==> exists j | 0 <= j < |keys| :: IsKeyFor(keys, e, j)
    ensures forall j | 0 <= j < |keys| && IsKeyFor(keys, e, j) :: ResolveKey(KidOf(e), keys) == Some(keys[j].jwk)
  {
    if keys != [] {
      var later := keys[1..];
      ResolvedIsFirst(e, later);
      assert forall j | 0 <= j < |later| :: later[j] == keys[j + 1];
      if keys[0].jwk.kid == Some(KidOf(e)) {
        assert IsKeyFor(keys, e, 0);
      } else {
        forall j | 0 < j < |keys| ensures IsKeyFor(keys, e, j) <==> IsKeyFor(later, e, j - 1) {
          LaterKey(e, keys, j);
        }
        if j :| 0 <= j < |later| && IsKeyFor(later, e, j) {
          assert IsKeyFor(keys, e, j + 1);
        }
      }
    }
  }

  lemma LaterKey(e: Envelope, keys: seq<LabelledKey>, j: nat)
    requires 0 < j < |keys| && keys[0].jwk.kid != Some(KidOf(e))
    ensures IsKeyFor(keys, e, j) <==> IsKeyFor(keys[1..], e, j - 1)
  {
    var later := keys[1..];
    assert forall i | 0 <= i < |later| :: later[i] == keys[i + 1];
    if IsKeyFor(later, e, j - 1) {
      forall i | 0 <= i < j ensures keys[i].jwk.kid != Some(KidOf(e)) {
        assert i == 0 || keys[i] == later[i - 1];
      }
    }
  }

  lemma HoldsIsSealed(p: Platform, keys: seq<LabelledKey>, e: Envelope)
    ensures ReceiptHolds(p, keys, e) <==> Sealed(p, keys, e)
  {
    hide Canonical.Canonicalize, ResolveKey, IsKeyFor, Lit, ToHex;
    ResolvedIsFirst(e, keys);
    PrefixNonempty();
  }

  lemma PrefixNonempty()
    ensures |Lit("sha256:")| == 7
  {
  }

  lemma UnbrokenIsLinked(previous: Envelope, current: Envelope)
    ensures !Broken(previous, current) <==> Linked(previous, current)
  {
    hide Lookup, Lit;
  }

  predicate AllLinked(es: seq<Envelope>) {
    forall i | 0 < i < |es| :: Linked(es[i - 1], es[i])
  }

  lemma UnbrokenAllLinked(es: seq<Envelope>)
    ensures NoBrokenLink(es) <==> AllLinked(es)
  {
    hide Broken, Linked;
    NoBrokenLinkIs(es);
    forall i | 0 < i < |es| ensures !Broken(es[i - 1], es[i]) <==> Linked(es[i - 1], es[i]) {
      UnbrokenIsLinked(es[i - 1], es[i]);
    }
  }

  predicate AllSealed(p: Platform, packet: Packet) {
    forall i | 0 <= i < |packet.receipts| :: Sealed(p, packet.publicKeys, packet.receipts[i])
  }

  /** Every proof leads from its receipt's hash to the root it states. */
  predicate AllReachRoots(sha: Sha, entries: seq<ProofEntry>) {
    forall i | 0 <= i < |entries| ::
      CheckedRoot(sha, RemovePrefix(entries[i].receiptHash), entries[i].proof) == Ok(entries[i].merkleRoot)
  }

  /** The stated counts are the numbers of receipts, of those that approve, of those that deny, and of anchors. */
  predicate CountsRight(packet: Packet) {
    && packet.metadata.receiptCount == |packet.receipts|
    && packet.metadata.approvalCount == |Deciding(packet.receipts, Lit("approve"))|
    && packet.metadata.denialCount == |Deciding(packet.receipts, Lit("deny"))|
    && packet.metadata.anchorCount == |packet.anchorProofs|
  }

  lemma CountsHoldRight(packet: Packet)
    ensures CountsHold(packet) <==> CountsRight(packet)
  {
    hide CountDecision, Deciding, Lit;
    CountIsNumberOf(packet.receipts, Lit("approve"));
    CountIsNumberOf(packet.receipts, Lit("deny"));
  }

  /** A packet passes exactly when all of this is true of it; otherwise it fails, or the verifier raises. */
  lemma PassedExactly(p: Platform, packet: Packet)
    ensures var report := VerifyPacket(p, packet);
            (report.Some? && report.value.Passed()) <==>
            && AllSealed(p, packet)
            && Numeric(p, packet.receipts) && AllLinked(SortBySeq(p, packet.receipts))
            && AllReachRoots(p.sha, packet.inclusionProofs)
            && CountsRight(packet)
  {
    hide VerifyPacket, ReceiptHolds, Sealed, NoBrokenLink, AllLinked, SortBySeq, CheckedRoot, RemovePrefix, Numeric, CountsHold, CountsRight;
    PassedIff(p, packet);
    CountsHoldRight(packet);
    forall i | 0 <= i < |packet.receipts|
      ensures ReceiptHolds(p, packet.publicKeys, packet.receipts[i]) <==> Sealed(p, packet.publicKeys, packet.receipts[i])
    {
      HoldsIsSealed(p, packet.publicKeys, packet.receipts[i]);
    }
    if Numeric(p, packet.receipts) {
      UnbrokenAllLinked(SortBySeq(p, packet.receipts));
    }
  }

  /** In particular, a receipt whose first key for its kid does not accept its signature makes the packet fail. */
  lemma BadSignatureFails(p: Platform, packet: Packet, i: nat, j: nat, bytes: Bytes)
    requires i < |packet.receipts| && j < |packet.publicKeys| && IsKeyFor(packet.publicKeys, packet.receipts[i], j)
    requires Canonical.Canonicalize(Obj(packet.receipts[i].body)) == Ok(bytes)
    requires !Checks(p, packet.publicKeys[j].jwk, packet.receipts[i], bytes)
    ensures VerifyPacket(p, packet).Some? ==> !VerifyPacket(p, packet).value.Passed() && VerifyPacket(p, packet).value.sigFail > 0
  {
    hide VerifyPacket, Canonical.Canonicalize, IsKeyFor, Checks, ResolveKey, Lit, ToHex;
    var e := packet.receipts[i];
    ResolvedIsFirst(e, packet.publicKeys);
    ChecksIsHeld(p, packet.publicKeys, e, j, bytes);
    SigFailCounted(p, packet.publicKeys, packet.receipts, i);
    LaterStepsKeepSigs(p, packet);
  }

  lemma ChecksIsHeld(p: Platform, keys: seq<LabelledKey>, e: Envelope, j: nat, bytes: Bytes)
    requires j < |keys| && IsKeyFor(keys, e, j)
    ensures SignatureHolds(p, keys, e, bytes) <==> Checks(p, keys[j].jwk, e, bytes)
  {
    hide IsKeyFor, ResolveKey;
    ResolvedIsFirst(e, keys);
  }

  lemma {:induction false} SigFailCounted(p: Platform, keys: seq<LabelledKey>, es: seq<Envelope>, i: nat)
    requires i < |es| && Canonical.Canonicalize(Obj(es[i].body)).Ok?
    requires !SignatureHolds(p, keys, es[i], Canonical.Canonicalize(Obj(es[i].body)).value)
    ensures SigSteps(p, keys, BLANK, es).sigFail > 0
    decreases |es|
  {
    hide Canonical.Canonicalize, SignatureHolds, HashText;
    if i < |es| - 1 {
      SigFailCounted(p, keys, es[..|es| - 1], i);
    }
  }

  lemma LaterStepsKeepSigs(p: Platform, packet: Packet)
    ensures var report := VerifyPacket(p, packet);
            report.Some? ==> report.value.sigFail == SigSteps(p, packet.publicKeys, BLANK, packet.receipts).sigFail
  {
    hide SigSteps, LinkSteps, InclusionSteps, CountsHold, SortBySeq, Numeric;
    var r1 := SigSteps(p, packet.publicKeys, BLANK, packet.receipts);
    if Numeric(p, packet.receipts) && packet.receipts != [] {
      LinkStepsCount(r1, SortBySeq(p, packet.receipts), |SortBySeq(p, packet.receipts)|);
    }
    var r2 := Continuity(p, r1, packet.receipts);
    if r2.Some? {
      InclusionStepsCount(p.sha, r2.value, packet.inclusionProofs);
    }
  }
}
