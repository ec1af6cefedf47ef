/** Audit packets: how `get_audit_packet` in `gateway/api.py` builds them, and `gateway/audit_packet_verifier.py` checks them. */
module AuditPacket {
  import opened Basics
  import opened Json
  import opened Sha256
  import opened MerkleTree
  import opened Merkle
  import opened InclusionCheck
  import opened Platform
  import opened Receipts
  import opened Verify

  datatype LabelledKey = LabelledKey(tag: Text, jwk: Jwk)

  datatype ProofEntry = ProofEntry(receiptHash: Text, merkleRoot: Text, leafIndex: nat, proof: seq<Step>)

  datatype Metadata = Metadata(receiptCount: int, approvalCount: int, denialCount: int, anchorCount: int, chainIntact: bool)

  datatype Packet = Packet(
    receipts: seq<Envelope>,
    anchorProofs: seq<Text>,
    inclusionProofs: seq<ProofEntry>,
    publicKeys: seq<LabelledKey>,
    metadata: Metadata)

  /** A stored receipt with the agent its `_meta` names. */
  datatype Stored = Stored(envelope: Envelope, agentId: Option<Text>)

  // ----- what both sides read from a receipt -----

  predicate Falsy(v: Json) {
    v == Null || v == Bool(false) || v == Int(0) || v == Str([]) || v == Arr([]) || v == Obj([])
  }

  /** `int(body.get("seq", "0") or "0")` */
  function SeqOf(p: Platform, e: Envelope): Option<int> {
    var v := GetOr(e.body, Lit("seq"), Str(Lit("0")));
    p.IntOf(if Falsy(v) then Str(Lit("0")) else v)
  }

  /** `r.get("receipt_hash", "")` */
  function HashOrEmpty(e: Envelope): Text {
    if e.receiptHash.Some? then e.receiptHash.value else []
  }

  function PrevLink(e: Envelope): Json {
    GetOr(e.body, Lit("prev_receipt"), Str([]))
  }

  /** Two neighbours whose link is stated on both sides and does not match. */
  predicate Broken(previous: Envelope, current: Envelope) {
    HashOrEmpty(previous) != [] && !Falsy(PrevLink(current)) && PrevLink(current) != Str(HashOrEmpty(previous))
  }

  function CountDecision(es: seq<Envelope>, decision: Text): nat {
    if es == [] then 0
    else CountDecision(es[..|es| - 1], decision) +
         (if Lookup(es[|es| - 1].body, Lit("decision")) == Some(Str(decision)) then 1 else 0)
  }

  method Count(es: seq<Envelope>, decision: Text) returns (n: nat)
    ensures n == CountDecision(es, decision)
  {
    hide Lookup;
    n := 0;
    for i := 0 to |es|
      invariant n == CountDecision(es[..i], decision)
    {
      assert es[..i + 1][..i] == es[..i];
      if Lookup(es[i].body, Lit("decision")) == Some(Str(decision)) {
        n := n + 1;
      }
    }
    assert es[..|es|] == es;
  }

  // ----- sorting by number -----

  predicate Numeric(p: Platform, es: seq<Envelope>) {
    forall i | 0 <= i < |es| :: SeqOf(p, es[i]).Some?
  }

  predicate InOrder(p: Platform, es: seq<Envelope>)
    requires Numeric(p, es)
  {
    forall i | 0 <= i < |es| - 1 :: SeqOf(p, es[i]).value <= SeqOf(p, es[i + 1]).value
  }

  function InsertBySeq(p: Platform, e: Envelope, es: seq<Envelope>): (r: seq<Envelope>)
    requires SeqOf(p, e).Some? && Numeric(p, es)
    ensures multiset(r) == multiset{e} + multiset(es) && |r| == |es| + 1
    ensures Numeric(p, r)
  {
    if es == [] || SeqOf(p, e).value <= SeqOf(p, es[0]).value then
      assert [e] + es == [e] + es;
      [e] + es
    else
      assert es == [es[0]] + es[1..];
      [es[0]] + InsertBySeq(p, e, es[1..])
  }

  /** `sorted(receipts, key=...)`, stable; it raises when a number cannot be read. */
  function SortBySeq(p: Platform, es: seq<Envelope>): (r: seq<Envelope>)
    requires Numeric(p, es)
    ensures multiset(r) == multiset(es) && |r| == |es|
    ensures Numeric(p, r)
  {
    if es == [] then []
    else
      assert es == [es[0]] + es[1..];
      InsertBySeq(p, es[0], SortBySeq(p, es[1..]))
  }

  lemma {:induction false} SortBySeqInOrder(p: Platform, es: seq<Envelope>)
    requires Numeric(p, es) && InOrder(p, es)
    ensures SortBySeq(p, es) == es
  {
    hide SeqOf;
    if es != [] {
      var later := es[1..];
      assert forall i | 0 <= i < |later| :: later[i] == es[i + 1];
      SortBySeqInOrder(p, later);
    }
  }

  lemma {:induction false} InsertBySeqInOrder(p: Platform, e: Envelope, es: seq<Envelope>)
    requires SeqOf(p, e).Some? && Numeric(p, es) && InOrder(p, es)
    ensures InOrder(p, InsertBySeq(p, e, es))
    ensures es != [] ==> InsertBySeq(p, e, es)[0] == e || InsertBySeq(p, e, es)[0] == es[0]
  {
    hide SeqOf;
    if es != [] && SeqOf(p, e).value > SeqOf(p, es[0]).value {
      var later := es[1..];
      assert forall i | 0 <= i < |later| :: later[i] == es[i + 1];
      InsertBySeqInOrder(p, e, later);
    }
  }

  /** Sorting puts the numbers in order, whatever the order it is given. */
  lemma {:induction false} SortBySeqSorts(p: Platform, es: seq<Envelope>)
    requires Numeric(p, es)
    ensures InOrder(p, SortBySeq(p, es)) && multiset(SortBySeq(p, es)) == multiset(es)
  {
    hide SeqOf, InsertBySeq;
    if es != [] {
      var later := es[1..];
      assert forall i | 0 <= i < |later| :: later[i] == es[i + 1];
      SortBySeqSorts(p, later);
      InsertBySeqInOrder(p, es[0], SortBySeq(p, later));
    }
  }

  /** The places of the receipts whose body states the decision. */
  function Deciding(es: seq<Envelope>, decision: Text): set<nat> {
    set i: nat | i < |es| && Lookup(es[i].body, Lit("decision")) == Some(Str(decision))
  }

  lemma {:induction false} CountIsNumberOf(es: seq<Envelope>, decision: Text)
    ensures CountDecision(es, decision) == |Deciding(es, decision)|
    decreases |es|
  {
    hide Lookup, Lit, Deciding;
    if es == [] {
      NoneDeciding(decision);
    }
    if es != [] {
      CountIsNumberOf(es[..|es| - 1], decision);
      DecidingMore(es, decision);
    }
  }

  lemma NoneDeciding(decision: Text)
    ensures Deciding([], decision) == {}
  {
  }

  lemma DecidingMore(es: seq<Envelope>, decision: Text)
    requires es != []
    ensures var n := |es| - 1;
            && n !in Deciding(es[..n], decision)
            && Deciding(es, decision) ==
               Deciding(es[..n], decision) + (if Lookup(es[n].body, Lit("decision")) == Some(Str(decision)) then {n} else {})
  {
    hide Lookup, Lit;
  }

  // ----- building a packet -----

  /** The filters of the request: an absent bound or an absent agent does not filter. */
  datatype Query = Query(startSeq: Option<int>, endSeq: Option<int>, agentId: Option<Text>)

  predicate Keeps(p: Platform, q: Query, r: Stored) {
    && SeqOf(p, r.envelope).Some?
    && (q.startSeq.Some? ==> q.startSeq.value <= SeqOf(p, r.envelope).value)
    && (q.endSeq.Some? ==> SeqOf(p, r.envelope).value <= q.endSeq.value)
    && (q.agentId.Some? && q.agentId.value != [] ==> r.agentId == q.agentId)
  }

  function Select(p: Platform, q: Query, rs: seq<Stored>): (es: seq<Envelope>)
    ensures Numeric(p, es)
  {
    if rs == [] then []
    else Select(p, q, rs[..|rs| - 1]) + (if Keeps(p, q, rs[|rs| - 1]) then [rs[|rs| - 1].envelope] else [])
  }

  /** `dict[key] = value` on a list of entries with distinct keys. */
  function PutProof(entries: seq<ProofEntry>, e: ProofEntry): seq<ProofEntry> {
    if entries == [] then [e]
    else if entries[0].receiptHash == e.receiptHash then [e] + entries[1..]
    else [entries[0]] + PutProof(entries[1..], e)
  }

  function PutKey(keys: seq<LabelledKey>, k: LabelledKey): seq<LabelledKey> {
    if keys == [] then [k]
    else if keys[0].tag == k.tag then [k] + keys[1..]
    else [keys[0]] + PutKey(keys[1..], k)
  }

  /** One turn of the inclusion-proof loop: a failing computation ends the loop, keeping what is there. */
  function ProofsFor(sha: Sha, hexes: seq<Text>, es: seq<Envelope>, done: seq<ProofEntry>): seq<ProofEntry> {
    if es == [] then done
    else
      var target := RemovePrefix(HashOrEmpty(es[0]));
      if HashOrEmpty(es[0]) == [] || target !in hexes then ProofsFor(sha, hexes, es[1..], done)
      else
        match ProofOf(sha, hexes, target)
        case Err(_) => done
        case Ok(None) => ProofsFor(sha, hexes, es[1..], done)
        case Ok(Some(proof)) =>
          ProofsFor(sha, hexes, es[1..], PutProof(done, ProofEntry(HashOrEmpty(es[0]), proof.root, proof.leafIndex, proof.proof)))
  }

  /** The label is the kid, except that the gateway's own key is called "gateway". Keys without a kid are dropped. */
  function StoredKeys(keys: seq<Jwk>, ownKid: Text): seq<LabelledKey> {
    if keys == [] then []
    else
      var before := StoredKeys(keys[..|keys| - 1], ownKid);
      var k := keys[|keys| - 1];
      if k.kid.None? || k.kid.value == [] then before
      else PutKey(before, LabelledKey(if k.kid.value == ownKid then Lit("gateway") else k.kid.value, k))
  }

  function PublicKeys(keys: seq<Jwk>, ownKid: Text, ownKey: Jwk): seq<LabelledKey> {
    PutKey(StoredKeys(keys, ownKid), LabelledKey(Lit("gateway"), ownKey))
  }

  predicate NoBrokenLink(es: seq<Envelope>) {
    forall i | 0 < i < |es| :: !Broken(es[i - 1], es[i])
  }

  function BareArtifactHashes(hashes: seq<Text>): seq<Text> {
    seq(|hashes|, i requires 0 <= i < |hashes| => RemovePrefix(hashes[i]))
  }

  function BuildPacket(
    p: Platform, q: Query, all: seq<Stored>, artifactHashes: seq<Text>, anchors: seq<Text>, keys: seq<Jwk>, ownKid: Text, ownKey: Jwk): Packet
  {
    var receipts := Select(p, q, all);
    Packet(
      receipts,
      anchors,
      ProofsFor(p.sha, BareArtifactHashes(artifactHashes), receipts, []),
      PublicKeys(keys, ownKid, ownKey),
      Metadata(|receipts|, CountDecision(receipts, Lit("approve")), CountDecision(receipts, Lit("deny")), |anchors|,
               NoBrokenLink(SortBySeq(p, receipts))))
  }

  /** `get_audit_packet`, without its reads of stores: receipts, log entries, anchors and keys are handed in. */
  method GetAuditPacket(
    p: Platform, q: Query, all: seq<Stored>, artifactHashes: seq<Text>, anchors: seq<Text>, keys: seq<Jwk>, ownKid: Text, ownKey: Jwk)
    returns (packet: Packet)
    ensures packet == BuildPacket(p, q, all, artifactHashes, anchors, keys, ownKid, ownKey)
  {
    hide SeqOf, ProofOf, PutProof, PutKey, CountDecision, Broken;
    var receipts := [];
    for i := 0 to |all|
      invariant receipts == Select(p, q, all[..i])
    {
      assert all[..i + 1][..i] == all[..i];
      if Keeps(p, q, all[i]) {
        receipts := receipts + [all[i].envelope];
      }
    }
    assert all[..|all|] == all;
    var hexes := BareArtifactHashes(artifactHashes);
    var inclusionProofs := CollectProofs(p.sha, hexes, receipts);
    var publicKeys := [];
    for i := 0 to |keys|
      invariant publicKeys == StoredKeys(keys[..i], ownKid)
    {
      assert keys[..i + 1][..i] == keys[..i];
      var k := keys[i];
      if k.kid.Some? && k.kid.value != [] {
        var name := if k.kid.value == ownKid then Lit("gateway") else k.kid.value;
        publicKeys := PutKey(publicKeys, LabelledKey(name, k));
      }
    }
    assert keys[..|keys|] == keys;
    publicKeys := PutKey(publicKeys, LabelledKey(Lit("gateway"), ownKey));
    var approvals := Count(receipts, Lit("approve"));
    var denials := Count(receipts, Lit("deny"));
    var sorted := SortBySeq(p, receipts);
    var intact := CheckLinksInline(sorted);
    packet := Packet(receipts, anchors, inclusionProofs, publicKeys,
                     Metadata(|receipts|, approvals, denials, |anchors|, intact));
  }

  method CollectProofs(sha: Sha, hexes: seq<Text>, receipts: seq<Envelope>) returns (proofs: seq<ProofEntry>)
    ensures proofs == ProofsFor(sha, hexes, receipts, [])
    ensures Decode(hexes).Ok? ==> DistinctHashes(proofs) && forall h :: HasProof(proofs, h) <==> Wants(hexes, receipts, h)
    ensures Decode(hexes).Err? ==> proofs == []
  {
    hide ProofOf, PutProof, RemovePrefix, Decode, HasProof, Wants, DistinctHashes;
    ProofsExactlyForLog(sha, hexes, receipts);
    proofs := [];
    var i := 0;
    assert receipts[0..] == receipts;
    while i < |receipts|
      invariant 0 <= i <= |receipts|
      invariant ProofsFor(sha, hexes, receipts, []) == ProofsFor(sha, hexes, receipts[i..], proofs)
    {
      var rh := HashOrEmpty(receipts[i]);
      assert receipts[i..][0] == receipts[i] && receipts[i..][1..] == receipts[i + 1..];
      i := i + 1;
      if rh == [] {
        continue;
      }
      var targetHex := RemovePrefix(rh);
      if targetHex in hexes {
        var proof := ComputeInclusionProof(sha, hexes, targetHex);
        if proof.Err? {
          return;
        }
        if proof.value.Some? {
          var found := proof.value.value;
          proofs := PutProof(proofs, ProofEntry(rh, found.root, found.leafIndex, found.proof));
        }
      }
    }
  }

  // ----- which receipts get a proof -----

  predicate HasProof(entries: seq<ProofEntry>, h: Text) {
    exists i | 0 <= i < |entries| :: entries[i].receiptHash == h
  }

  predicate DistinctHashes(entries: seq<ProofEntry>) {
    forall i, j | 0 <= i < j < |entries| :: entries[i].receiptHash != entries[j].receiptHash
  }

  /** The hash of one of the receipts, not empty, that is in the log. */
  predicate Wants(hexes: seq<Text>, es: seq<Envelope>, h: Text) {
    h != [] && RemovePrefix(h) in hexes && exists i | 0 <= i < |es| :: HashOrEmpty(es[i]) == h
  }

  lemma {:induction false} PutProofHas(entries: seq<ProofEntry>, e: ProofEntry, h: Text)
    ensures HasProof(PutProof(entries, e), h) <==> HasProof(entries, h) || h == e.receiptHash
  {
    if entries == [] {
      HasCons(e, [], h);
    } else if entries[0].receiptHash == e.receiptHash {
      HasCons(e, entries[1..], h);
      HasCons(entries[0], entries[1..], h);
      assert entries == [entries[0]] + entries[1..];
    } else {
      PutProofHas(entries[1..], e, h);
      HasCons(entries[0], PutProof(entries[1..], e), h);
      HasCons(entries[0], entries[1..], h);
      assert entries == [entries[0]] + entries[1..];
    }
  }

  lemma HasCons(e: ProofEntry, entries: seq<ProofEntry>, h: Text)
    ensures HasProof([e] + entries, h) <==> e.receiptHash == h || HasProof(entries, h)
  {
    var all := [e] + entries;
    assert all[0] == e && forall i | 0 <= i < |entries| :: all[i + 1] == entries[i];
    if HasProof(all, h) && e.receiptHash != h {
      var i :| 0 <= i < |all| && all[i].receiptHash == h;
      assert entries[i - 1].receiptHash == h;
    }
  }

  lemma {:induction false} PutProofDistinct(entries: seq<ProofEntry>, e: ProofEntry)
    requires DistinctHashes(entries)
    ensures DistinctHashes(PutProof(entries, e))
  {
    if entries != [] && entries[0].receiptHash != e.receiptHash {
      PutProofDistinct(entries[1..], e);
      var rest := PutProof(entries[1..], e);
      forall j | 0 <= j < |rest| ensures rest[j].receiptHash != entries[0].receiptHash {
        PutProofHas(entries[1..], e, rest[j].receiptHash);
        assert HasProof(rest, rest[j].receiptHash);
      }
    }
  }

  /** A list without that hash in front wants what its rest wants. */
  lemma WantsCons(hexes: seq<Text>, es: seq<Envelope>, h: Text)
    requires es != []
    ensures Wants(hexes, es, h) <==>
            Wants(hexes, es[1..], h) || (h == HashOrEmpty(es[0]) && h != [] && RemovePrefix(h) in hexes)
  {
    hide HashOrEmpty, RemovePrefix;
    assert forall i | 0 <= i < |es[1..]| :: es[1..][i] == es[i + 1];
    if Wants(hexes, es, h) {
      var i :| 0 <= i < |es| && HashOrEmpty(es[i]) == h;
      assert i == 0 || HashOrEmpty(es[1..][i - 1]) == h;
    }
  }

  lemma ProofOfTarget(sha: Sha, hexes: seq<Text>, target: Text)
    requires target in hexes
    ensures Decode(hexes).Ok? ==> ProofOf(sha, hexes, target).Ok? && ProofOf(sha, hexes, target).value.Some?
    ensures Decode(hexes).Err? ==> ProofOf(sha, hexes, target).Err?
  {
    hide Decode, Path, StepsOf, Root, LeafHashes;
  }

  lemma {:induction false} ProofsForHas(sha: Sha, hexes: seq<Text>, es: seq<Envelope>, done: seq<ProofEntry>, h: Text)
    requires Decode(hexes).Ok?
    ensures HasProof(ProofsFor(sha, hexes, es, done), h) <==> HasProof(done, h) || Wants(hexes, es, h)
    decreases |es|
  {
    hide HasProof, Wants, PutProof, ProofOf, Decode, RemovePrefix, HashOrEmpty;
    if es == [] {
      NothingWanted(hexes, h);
    } else {
      var hash := HashOrEmpty(es[0]);
      WantsCons(hexes, es, h);
      if hash == [] || RemovePrefix(hash) !in hexes {
        ProofsForHas(sha, hexes, es[1..], done, h);
      } else {
        ProofOfTarget(sha, hexes, RemovePrefix(hash));
        var proof := ProofOf(sha, hexes, RemovePrefix(hash)).value.value;
        var entry := ProofEntry(hash, proof.root, proof.leafIndex, proof.proof);
        PutProofHas(done, entry, h);
        ProofsForHas(sha, hexes, es[1..], PutProof(done, entry), h);
      }
    }
  }

  /** The entry points at the first place of its receipt's hash in the log. */
  predicate Placed(hexes: seq<Text>, e: ProofEntry) {
    && e.leafIndex < |hexes| && hexes[e.leafIndex] == RemovePrefix(e.receiptHash)
    && forall k | 0 <= k < e.leafIndex :: hexes[k] != RemovePrefix(e.receiptHash)
  }

  predicate AllPlaced(hexes: seq<Text>, entries: seq<ProofEntry>) {
    forall i | 0 <= i < |entries| :: Placed(hexes, entries[i])
  }

  lemma {:induction false} PutPlaced(hexes: seq<Text>, entries: seq<ProofEntry>, e: ProofEntry)
    requires AllPlaced(hexes, entries) && Placed(hexes, e)
    ensures AllPlaced(hexes, PutProof(entries, e))
  {
    hide Placed;
    if entries != [] && entries[0].receiptHash != e.receiptHash {
      PutPlaced(hexes, entries[1..], e);
    }
  }

  /** Every proof in a packet states the place of its receipt in the log. */
  lemma {:induction false} ProofsForPlaced(sha: Sha, hexes: seq<Text>, es: seq<Envelope>, done: seq<ProofEntry>)
    requires AllPlaced(hexes, done)
    ensures AllPlaced(hexes, ProofsFor(sha, hexes, es, done))
    decreases |es|
  {
    hide AllPlaced, PutProof, ProofOf, RemovePrefix, HashOrEmpty, Decode;
    if es != [] {
      var hash := HashOrEmpty(es[0]);
      ProofsForPlaced(sha, hexes, es[1..], done);
      if hash != [] && RemovePrefix(hash) in hexes && ProofOf(sha, hexes, RemovePrefix(hash)).Ok? {
        ProofOfTarget(sha, hexes, RemovePrefix(hash));
        ProofStates(sha, hexes, RemovePrefix(hash));
        var proof := ProofOf(sha, hexes, RemovePrefix(hash)).value.value;
        var entry := ProofEntry(hash, proof.root, proof.leafIndex, proof.proof);
        PutPlaced(hexes, done, entry);
        ProofsForPlaced(sha, hexes, es[1..], PutProof(done, entry));
      }
    }
  }

  lemma NothingWanted(hexes: seq<Text>, h: Text)
    ensures !Wants(hexes, [], h)
  {
  }

  lemma {:induction false} ProofsForDistinct(sha: Sha, hexes: seq<Text>, es: seq<Envelope>, done: seq<ProofEntry>)
    requires DistinctHashes(done)
    ensures DistinctHashes(ProofsFor(sha, hexes, es, done))
    decreases |es|
  {
    hide DistinctHashes, PutProof, ProofOf, RemovePrefix, HashOrEmpty;
    if es != [] {
      var hash := HashOrEmpty(es[0]);
      ProofsForDistinct(sha, hexes, es[1..], done);
      match ProofOf(sha, hexes, RemovePrefix(hash))
      case Ok(Some(proof)) =>
        var entry := ProofEntry(hash, proof.root, proof.leafIndex, proof.proof);
        PutProofDistinct(done, entry);
        ProofsForDistinct(sha, hexes, es[1..], PutProof(done, entry));
      case _ =>
    }
  }

  lemma {:induction false} NoProofsForBadLog(sha: Sha, hexes: seq<Text>, es: seq<Envelope>, done: seq<ProofEntry>)
    requires Decode(hexes).Err?
    ensures ProofsFor(sha, hexes, es, done) == done
    decreases |es|
  {
    hide PutProof, ProofOf, RemovePrefix, HashOrEmpty, Decode;
    if es != [] {
      NoProofsForBadLog(sha, hexes, es[1..], done);
      if RemovePrefix(HashOrEmpty(es[0])) in hexes {
        ProofOfTarget(sha, hexes, RemovePrefix(HashOrEmpty(es[0])));
      }
    }
  }

  /**
   * Which receipts of a packet get a proof. When every hash in the log is hexadecimal: exactly those
   * whose stated hash is in the log, one proof per hash. When a single one is not: none at all.
   */
  lemma ProofsExactlyForLog(sha: Sha, hexes: seq<Text>, es: seq<Envelope>)
    ensures var proofs := ProofsFor(sha, hexes, es, []);
            && (Decode(hexes).Ok? ==> DistinctHashes(proofs) && forall h :: HasProof(proofs, h) <==> Wants(hexes, es, h))
            && (Decode(hexes).Err? ==> proofs == [])
  {
    hide HasProof, Wants, ProofsFor, Decode, DistinctHashes;
    NoProofsYet();
    ProofsForDistinct(sha, hexes, es, []);
    if Decode(hexes).Ok? {
      forall h ensures HasProof(ProofsFor(sha, hexes, es, []), h) <==> Wants(hexes, es, h) {
        ProofsForHas(sha, hexes, es, [], h);
      }
    } else {
      NoProofsForBadLog(sha, hexes, es, []);
    }
  }

  lemma NoProofsYet()
    ensures DistinctHashes([]) && forall h :: !HasProof([], h)
  {
  }

  method CheckLinksInline(sorted: seq<Envelope>) returns (intact: bool)
    ensures intact == NoBrokenLink(sorted)
  {
    hide Broken;
    var i := 1;
    while i < |sorted|
      invariant 1 <= i
      invariant forall j | 0 < j < i && j < |sorted| :: !Broken(sorted[j - 1], sorted[j])
    {
      if Broken(sorted[i - 1], sorted[i]) {
        return false;
      }
      i := i + 1;
    }
    return true;
  }
}
