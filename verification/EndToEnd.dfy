/** From signing to the auditor: packets cut from a chain that `verify_chain` passes, against the offline verifier. */
module EndToEnd {
  import opened Basics
  import opened Json
  import opened Sha256
  import opened MerkleTree
  import opened Merkle
  import opened InclusionCheck
  import opened Platform
  import opened Receipts
  import opened Verify
  import opened ChainTheorems
  import opened SignerTheorems
  import opened AuditPacket
  import opened PacketVerifier
  import Canonical

  /** A stored chain that passes `verify_chain`, with all hashes stated. */
  predicate SoundStore(p: Platform, all: seq<Stored>, key: Jwk, keysByKid: map<Text, Jwk>) {
    LinksOk(p, Chain(all), key, keysByKid, Genesis(), 1) && HashesStated(Chain(all))
  }

  function Chain(all: seq<Stored>): (es: seq<Envelope>)
    ensures |es| == |all|
  {
    seq(|all|, i requires 0 <= i < |all| => all[i].envelope)
  }

  /** The packet names, for the kid of every receipt, the key that verified it. */
  predicate KeysResolve(all: seq<Stored>, key: Jwk, keysByKid: map<Text, Jwk>, keys: seq<LabelledKey>) {
    forall i | 0 <= i < |all| ::
      ResolveKey(KidOf(all[i].envelope), keys) == Some(KeyFor(all[i].envelope, key, keysByKid))
  }

  // ----- one receipt -----

  lemma LinkSeq(p: Platform, e: Envelope, key: Jwk, prev: Text, n: int)
    requires p.Lawful() && n >= 1
    requires LinkOk(p, e, key, prev, n)
    ensures SeqOf(p, e) == Some(n)
  {
    hide Lookup, EarlyFailure, BodyErrors;
  }

  lemma LinkHolds(p: Platform, e: Envelope, key: Jwk, prev: Text, n: int, keys: seq<LabelledKey>)
    requires LinkOk(p, e, key, prev, n)
    requires e.receiptHash.value != []
    requires ResolveKey(KidOf(e), keys) == Some(key)
    ensures ReceiptHolds(p, keys, e)
  {
    hide Lookup, Canonical.Canonicalize, HashText, ResolveKey;
  }

  /** Link `i` of a sound store. */
  lemma StoreAt(p: Platform, all: seq<Stored>, key: Jwk, keysByKid: map<Text, Jwk>, i: nat)
    requires i < |all| && SoundStore(p, all, key, keysByKid)
    ensures var e := all[i].envelope;
            && LinkOk(p, e, KeyFor(e, key, keysByKid), PrevOf(Chain(all), i, Genesis()), i + 1)
            && e.receiptHash.Some? && e.receiptHash.value != []
  {
    hide LinkOk, KeyFor, Genesis;
    assert LinkOkAt(p, Chain(all), key, keysByKid, Genesis(), 1, i);
    assert Chain(all)[i] == all[i].envelope && 1 + i == i + 1;
  }

  lemma PrevOfStore(all: seq<Stored>, i: nat)
    requires 0 < i < |all| && all[i - 1].envelope.receiptHash.Some?
    ensures PrevOf(Chain(all), i, Genesis()) == all[i - 1].envelope.receiptHash.value
  {
    hide Genesis;
  }

  // ----- the receipts of a packet -----

  /** The places in the store of the receipts a query selects. */
  function Places(p: Platform, q: Query, all: seq<Stored>): (ks: seq<nat>)
    ensures |ks| == |Select(p, q, all)|
    ensures forall i | 0 <= i < |ks| :: ks[i] < |all|
  {
    if all == [] then []
    else Places(p, q, all[..|all| - 1]) + (if Keeps(p, q, all[|all| - 1]) then [|all| - 1] else [])
  }

  lemma {:induction false} PlacesSelect(p: Platform, q: Query, all: seq<Stored>)
    ensures forall i | 0 <= i < |Places(p, q, all)| ::
              Select(p, q, all)[i] == all[Places(p, q, all)[i]].envelope && Keeps(p, q, all[Places(p, q, all)[i]])
    ensures Increasing(Places(p, q, all))
    decreases |all|
  {
    hide Keeps;
    if all != [] {
      var n := |all| - 1;
      PlacesSelect(p, q, all[..n]);
      var ks := Places(p, q, all[..n]);
      assert forall i | 0 <= i < |ks| :: ks[i] < n && all[..n][ks[i]] == all[ks[i]];
    }
  }

  predicate Increasing(ks: seq<nat>) {
    forall i, j | 0 <= i < j < |ks| :: ks[i] < ks[j]
  }

  lemma {:induction false} PlacesComplete(p: Platform, q: Query, all: seq<Stored>, k: nat) returns (j: nat)
    requires k < |all| && Keeps(p, q, all[k])
    ensures j < |Places(p, q, all)| && Places(p, q, all)[j] == k
    decreases |all|
  {
    hide Keeps, Select;
    var n := |all| - 1;
    if k == n {
      j := |Places(p, q, all)| - 1;
    } else {
      assert all[..n][k] == all[k];
      j := PlacesComplete(p, q, all[..n], k);
    }
  }

  /** The selected receipts are neighbours in the store. */
  predicate Consecutive(ks: seq<nat>) {
    forall i | 0 < i < |ks| :: ks[i] == ks[i - 1] + 1
  }

  lemma StoreNumber(p: Platform, all: seq<Stored>, key: Jwk, keysByKid: map<Text, Jwk>, k: nat)
    requires p.Lawful() && SoundStore(p, all, key, keysByKid) && k < |all|
    ensures SeqOf(p, all[k].envelope) == Some(k + 1)
  {
    hide SoundStore, SeqOf, LinkOk, KeyFor, Genesis;
    StoreAt(p, all, key, keysByKid, k);
    LinkSeq(p, all[k].envelope, KeyFor(all[k].envelope, key, keysByKid), PrevOf(Chain(all), k, Genesis()), k + 1);
  }

  /** What lies between two receipts of a range is in the range. */
  lemma RangeIsConvex(p: Platform, q: Query, all: seq<Stored>, key: Jwk, keysByKid: map<Text, Jwk>, a: nat, b: nat, c: nat)
    requires p.Lawful() && SoundStore(p, all, key, keysByKid)
    requires q.agentId.None? || q.agentId.value == []
    requires a <= b <= c < |all| && Keeps(p, q, all[a]) && Keeps(p, q, all[c])
    ensures Keeps(p, q, all[b])
  {
    hide SoundStore, SeqOf;
    StoreNumber(p, all, key, keysByKid, a);
    StoreNumber(p, all, key, keysByKid, b);
    StoreNumber(p, all, key, keysByKid, c);
  }

  /** Without an agent filter a query selects consecutive receipts. */
  lemma RangeIsConsecutive(p: Platform, q: Query, all: seq<Stored>, key: Jwk, keysByKid: map<Text, Jwk>)
    requires p.Lawful() && SoundStore(p, all, key, keysByKid)
    requires q.agentId.None? || q.agentId.value == []
    ensures Consecutive(Places(p, q, all))
  {
    hide SoundStore, Keeps, Places, Select, Increasing;
    var ks := Places(p, q, all);
    forall i | 0 < i < |ks| ensures ks[i] == ks[i - 1] + 1 {
      RangeHasNext(p, q, all, key, keysByKid, i);
    }
  }

  lemma RangeHasNext(p: Platform, q: Query, all: seq<Stored>, key: Jwk, keysByKid: map<Text, Jwk>, i: nat)
    requires p.Lawful() && SoundStore(p, all, key, keysByKid)
    requires q.agentId.None? || q.agentId.value == []
    requires 0 < i < |Places(p, q, all)|
    ensures Places(p, q, all)[i] == Places(p, q, all)[i - 1] + 1
  {
    hide SoundStore, Keeps, Places, Select, Increasing;
    var ks := Places(p, q, all);
    PlacesSelect(p, q, all);
    IncreasingAt(ks, i - 1, i);
    var next := ks[i - 1] + 1;
    RangeIsConvex(p, q, all, key, keysByKid, ks[i - 1], next, ks[i]);
    var j := PlacesComplete(p, q, all, next);
    IncreasingAt(ks, i - 1, j);
    IncreasingAt(ks, i, j);
  }

  lemma IncreasingAt(ks: seq<nat>, i: nat, j: nat)
    requires Increasing(ks) && i < |ks| && j < |ks|
    ensures ks[i] < ks[j] <==> i < j
  {
  }

  /**
   * Which receipts a packet holds, by number and agent: from a sound store those numbered from `start` to
   * `end`, both included, and of the agent when one is named; each once, in the order of the store.
   */
  lemma SelectedExactly(p: Platform, q: Query, all: seq<Stored>, key: Jwk, keysByKid: map<Text, Jwk>)
    requires p.Lawful() && SoundStore(p, all, key, keysByKid)
    ensures var ks := Places(p, q, all);
            && (forall i | 0 <= i < |ks| :: Select(p, q, all)[i] == all[ks[i]].envelope)
            && (forall i, j | 0 <= i < j < |ks| :: ks[i] < ks[j])
    ensures forall k: nat | k < |all| ::
              k in Places(p, q, all) <==>
              && (q.startSeq.Some? ==> q.startSeq.value <= k + 1)
              && (q.endSeq.Some? ==> k + 1 <= q.endSeq.value)
              && (q.agentId == None || q.agentId == Some([]) || all[k].agentId == q.agentId)
  {
    hide SoundStore, SeqOf, Places, Select;
    PlacesSelect(p, q, all);
    forall k: nat | k < |all|
      ensures k in Places(p, q, all) <==>
              && (q.startSeq.Some? ==> q.startSeq.value <= k + 1)
              && (q.endSeq.Some? ==> k + 1 <= q.endSeq.value)
              && (q.agentId == None || q.agentId == Some([]) || all[k].agentId == q.agentId)
    {
      StoreNumber(p, all, key, keysByKid, k);
      if Keeps(p, q, all[k]) {
        var j := PlacesComplete(p, q, all, k);
      }
    }
  }

  lemma SelectedNumbers(p: Platform, q: Query, all: seq<Stored>, key: Jwk, keysByKid: map<Text, Jwk>)
    requires p.Lawful() && SoundStore(p, all, key, keysByKid)
    ensures SortBySeq(p, Select(p, q, all)) == Select(p, q, all)
  {
    hide SoundStore, SeqOf, Keeps, SortBySeq, Places, Select;
    var ks, es := Places(p, q, all), Select(p, q, all);
    PlacesSelect(p, q, all);
    forall i | 0 <= i < |es| ensures SeqOf(p, es[i]) == Some(ks[i] + 1) {
      StoreNumber(p, all, key, keysByKid, ks[i]);
    }
    assert InOrder(p, es);
    SortBySeqInOrder(p, es);
  }

  lemma SelectedHold(p: Platform, q: Query, all: seq<Stored>, key: Jwk, keysByKid: map<Text, Jwk>, keys: seq<LabelledKey>)
    requires SoundStore(p, all, key, keysByKid) && KeysResolve(all, key, keysByKid, keys)
    ensures forall i | 0 <= i < |Select(p, q, all)| :: ReceiptHolds(p, keys, Select(p, q, all)[i])
  {
    hide SoundStore, LinkOk, KeyFor, Genesis, Keeps, ReceiptHolds, ResolveKey, KidOf;
    var ks, es := Places(p, q, all), Select(p, q, all);
    PlacesSelect(p, q, all);
    forall i | 0 <= i < |es| ensures ReceiptHolds(p, keys, es[i]) {
      var e := all[ks[i]].envelope;
      StoreAt(p, all, key, keysByKid, ks[i]);
      LinkHolds(p, e, KeyFor(e, key, keysByKid), PrevOf(Chain(all), ks[i], Genesis()), ks[i] + 1, keys);
    }
  }

  /** A link in the packet holds exactly when it matches; between neighbours of the store it does. */
  lemma LinkInPacket(p: Platform, all: seq<Stored>, key: Jwk, keysByKid: map<Text, Jwk>, a: nat, b: nat)
    requires a < b < |all| && SoundStore(p, all, key, keysByKid)
    ensures Broken(all[a].envelope, all[b].envelope) <==>
            all[a].envelope.receiptHash != all[b - 1].envelope.receiptHash
  {
    hide SoundStore, KeyFor, Genesis, Lookup, EarlyFailure, BodyErrors;
    StoreAt(p, all, key, keysByKid, a);
    StoreAt(p, all, key, keysByKid, b);
    StoreAt(p, all, key, keysByKid, b - 1);
    PrevOfStore(all, b);
  }

  // ----- the inclusion proofs of a packet -----

  lemma {:induction false} PutProofHolds(sha: Sha, entries: seq<ProofEntry>, e: ProofEntry)
    requires ProofHolds(sha, e) && forall i | 0 <= i < |entries| :: ProofHolds(sha, entries[i])
    ensures forall i | 0 <= i < |PutProof(entries, e)| :: ProofHolds(sha, PutProof(entries, e)[i])
  {
    hide ProofHolds;
    if entries != [] && entries[0].receiptHash != e.receiptHash {
      PutProofHolds(sha, entries[1..], e);
    }
  }

  function Log2Bound(n: nat): (c: nat)
    ensures n <= PowerOfTwo(c)
  {
    if n <= 1 then assert PowerOfTwo(0) == 1; 0 else 1 + Log2Bound((n + 1) / 2)
  }

  lemma ProofOfHolds(sha: Sha, hexes: seq<Text>, receiptHash: Text)
    requires ProofOf(sha, hexes, RemovePrefix(receiptHash)).Ok?
    requires ProofOf(sha, hexes, RemovePrefix(receiptHash)).value.Some?
    ensures var proof := ProofOf(sha, hexes, RemovePrefix(receiptHash)).value.value;
            ProofHolds(sha, ProofEntry(receiptHash, proof.root, proof.leafIndex, proof.proof))
  {
    hide CheckedRoot, Path, Root, Decode, StepsOf, RemovePrefix, LeafHashes;
    InclusionComplete(sha, hexes, RemovePrefix(receiptHash), Log2Bound(|hexes|));
  }

  predicate AllProofsHold(sha: Sha, entries: seq<ProofEntry>) {
    forall i | 0 <= i < |entries| :: ProofHolds(sha, entries[i])
  }

  /** Every inclusion proof that gets into a packet checks, whatever the log and the receipts are. */
  lemma {:induction false} ProofsForHold(sha: Sha, hexes: seq<Text>, es: seq<Envelope>, done: seq<ProofEntry>)
    requires AllProofsHold(sha, done)
    ensures AllProofsHold(sha, ProofsFor(sha, hexes, es, done))
    decreases |es|
  {
    hide AllProofsHold, ProofOf, PutProof, RemovePrefix, HashOrEmpty;
    if es != [] {
      var hash := HashOrEmpty(es[0]);
      ProofsForHold(sha, hexes, es[1..], done);
      if hash != [] && RemovePrefix(hash) in hexes {
        match ProofOf(sha, hexes, RemovePrefix(hash))
        case Ok(Some(proof)) =>
          var entry := ProofEntry(hash, proof.root, proof.leafIndex, proof.proof);
          ProofOfHolds(sha, hexes, hash);
          PutKeepsProofs(sha, done, entry);
          ProofsForHold(sha, hexes, es[1..], PutProof(done, entry));
        case _ =>
      }
    }
  }

  lemma PutKeepsProofs(sha: Sha, entries: seq<ProofEntry>, e: ProofEntry)
    requires ProofHolds(sha, e) && AllProofsHold(sha, entries)
    ensures AllProofsHold(sha, PutProof(entries, e))
  {
    hide ProofHolds;
    PutProofHolds(sha, entries, e);
  }

  // ----- the theorems -----

  /**
   * From a sound store, whatever the query, every step of the verifier but continuity passes; and
   * continuity passes exactly when no link between selected receipts is broken.
   */
  lemma PacketPassesIffLinked(
    p: Platform, q: Query, all: seq<Stored>, key: Jwk, keysByKid: map<Text, Jwk>,
    artifactHashes: seq<Text>, anchors: seq<Text>, keys: seq<Jwk>, ownKid: Text, ownKey: Jwk)
    requires p.Lawful() && SoundStore(p, all, key, keysByKid)
    requires KeysResolve(all, key, keysByKid, PublicKeys(keys, ownKid, ownKey))
    ensures PacketHolds(p, BuildPacket(p, q, all, artifactHashes, anchors, keys, ownKid, ownKey)) <==>
            NoBrokenLink(Select(p, q, all))
  {
    hide SoundStore, KeysResolve, PublicKeys, ReceiptHolds, ProofHolds, ProofsFor, CountDecision, SortBySeq, Broken, Select, BareArtifactHashes, SeqOf, NoBrokenLink, CountsHold;
    SelectedNumbers(p, q, all, key, keysByKid);
    SelectedHold(p, q, all, key, keysByKid, PublicKeys(keys, ownKid, ownKey));
    ProofsForHold(p.sha, BareArtifactHashes(artifactHashes), Select(p, q, all), []);
    BuiltCountsHold(p, q, all, artifactHashes, anchors, keys, ownKid, ownKey);
  }

  lemma BuiltCountsHold(
    p: Platform, q: Query, all: seq<Stored>, artifactHashes: seq<Text>, anchors: seq<Text>, keys: seq<Jwk>, ownKid: Text, ownKey: Jwk)
    ensures CountsHold(BuildPacket(p, q, all, artifactHashes, anchors, keys, ownKid, ownKey))
  {
    hide CountDecision, PublicKeys, ProofsFor, SortBySeq, NoBrokenLink, Select;
  }

  lemma ConsecutiveIsLinked(p: Platform, q: Query, all: seq<Stored>, key: Jwk, keysByKid: map<Text, Jwk>)
    requires SoundStore(p, all, key, keysByKid) && Consecutive(Places(p, q, all))
    ensures NoBrokenLink(Select(p, q, all))
  {
    hide SoundStore, Broken, Keeps;
    var ks, es := Places(p, q, all), Select(p, q, all);
    PlacesSelect(p, q, all);
    forall i | 0 < i < |es| ensures !Broken(es[i - 1], es[i]) {
      LinkInPacket(p, all, key, keysByKid, ks[i - 1], ks[i]);
    }
  }

  /** Each receipt of the packet whose hash is in the log has one proof; a log with a hash that is not hexadecimal gives none. */
  predicate Covered(packet: Packet, hexes: seq<Text>) {
    && (Decode(hexes).Ok? ==>
          && DistinctHashes(packet.inclusionProofs)
          && forall i | 0 <= i < |packet.receipts| ::
               HasProof(packet.inclusionProofs, HashOrEmpty(packet.receipts[i])) <==>
               HashOrEmpty(packet.receipts[i]) != [] && RemovePrefix(HashOrEmpty(packet.receipts[i])) in hexes)
    && (Decode(hexes).Err? ==> packet.inclusionProofs == [])
  }

  /** What a packet is made of: the selected receipts, the anchors it was given, and keys that resolve as `PublicKeysResolve` says. */
  lemma BuiltCarries(
    p: Platform, q: Query, all: seq<Stored>, artifactHashes: seq<Text>, anchors: seq<Text>, keys: seq<Jwk>, ownKid: Text, ownKey: Jwk)
    ensures var packet := BuildPacket(p, q, all, artifactHashes, anchors, keys, ownKid, ownKey);
            && packet.receipts == Select(p, q, all) && packet.anchorProofs == anchors
            && packet.publicKeys == PublicKeys(keys, ownKid, ownKey)
            && packet.metadata.receiptCount == |Select(p, q, all)| && packet.metadata.anchorCount == |anchors|
            && packet.metadata.approvalCount == |Deciding(Select(p, q, all), Lit("approve"))|
            && packet.metadata.denialCount == |Deciding(Select(p, q, all), Lit("deny"))|
  {
    hide Select, PublicKeys, ProofsFor, SortBySeq, CountDecision, Deciding, NoBrokenLink, Lit;
    CountIsNumberOf(Select(p, q, all), Lit("approve"));
    CountIsNumberOf(Select(p, q, all), Lit("deny"));
  }

  lemma BuiltIsCovered(
    p: Platform, q: Query, all: seq<Stored>, artifactHashes: seq<Text>, anchors: seq<Text>, keys: seq<Jwk>, ownKid: Text, ownKey: Jwk)
    ensures Covered(BuildPacket(p, q, all, artifactHashes, anchors, keys, ownKid, ownKey), BareArtifactHashes(artifactHashes))
  {
    hide Select, HasProof, DistinctHashes, Decode, RemovePrefix, HashOrEmpty, ProofsFor, PublicKeys, SortBySeq, CountDecision,
      NoBrokenLink, BareArtifactHashes;
    ProofsExactlyForLog(p.sha, BareArtifactHashes(artifactHashes), Select(p, q, all));
  }

  /**
   * End to end: from a chain that `verify_chain` passes, with all hashes stated and all keys known,
   * the packet for every range of numbers passes the offline verifier; all its receipts and proofs
   * were verified; and it has a proof for exactly the receipts that are in the log.
   */
  lemma RangePacketPasses(
    p: Platform, q: Query, all: seq<Stored>, key: Jwk, keysByKid: map<Text, Jwk>,
    artifactHashes: seq<Text>, anchors: seq<Text>, keys: seq<Jwk>, ownKid: Text, ownKey: Jwk)
    requires p.Lawful()
    requires all != [] ==> ChainVerdict(p, Chain(all), key, keysByKid) == Returned(PASSED)
    requires HashesStated(Chain(all))
    requires KeysResolve(all, key, keysByKid, PublicKeys(keys, ownKid, ownKey))
    requires q.agentId.None? || q.agentId.value == []
    ensures var packet := BuildPacket(p, q, all, artifactHashes, anchors, keys, ownKid, ownKey);
            && VerifyPacket(p, packet).Some? && VerifyPacket(p, packet).value.Passed()
            && VerifyPacket(p, packet).value.sigOk == VerifyPacket(p, packet).value.hashOk == |packet.receipts|
            && VerifyPacket(p, packet).value.inclusionOk == |packet.inclusionProofs|
            && Covered(packet, BareArtifactHashes(artifactHashes))
  {
    hide ChainVerdict, KeysResolve, PublicKeys, VerifyPacket, PacketHolds, BuildPacket, Select, LinkOkAt, Places, NoBrokenLink, Covered;
    BuiltIsCovered(p, q, all, artifactHashes, anchors, keys, ownKid, ownKey);
    ChainPassesIff(p, Chain(all), key, keysByKid);
    RangeIsConsecutive(p, q, all, key, keysByKid);
    ConsecutiveIsLinked(p, q, all, key, keysByKid);
    PacketPassesIffLinked(p, q, all, key, keysByKid, artifactHashes, anchors, keys, ownKid, ownKey);
    PassedIff(p, BuildPacket(p, q, all, artifactHashes, anchors, keys, ownKid, ownKey));
  }

  /** The first selected receipt that is not the store's next after the one selected before it. */
  function FirstGap(ks: seq<nat>): (i: nat)
    ensures Consecutive(ks) <==> i == 0
    ensures i < |ks| || i == 0
    ensures i > 0 ==> ks[i] != ks[i - 1] + 1
  {
    FirstGapFrom(ks, 1)
  }

  function FirstGapFrom(ks: seq<nat>, n: nat): (i: nat)
    requires 1 <= n
    requires forall k | 0 < k < n && k < |ks| :: ks[k] == ks[k - 1] + 1
    ensures Consecutive(ks) <==> i == 0
    ensures i < |ks| || i == 0
    ensures i > 0 ==> ks[i] != ks[i - 1] + 1
    decreases |ks| - n
  {
    if n >= |ks| then 0
    else if ks[n] != ks[n - 1] + 1 then n
    else FirstGapFrom(ks, n + 1)
  }

  /** The two bodies that collide when a packet passes in spite of a gap: they have one hash at different places. */
  function GapCollision(p: Platform, q: Query, all: seq<Stored>): (Bytes, Bytes) {
    var ks := Places(p, q, all);
    var i := FirstGap(ks);
    if i == 0 || ks[i] == 0 then ([], [])
    else (BodyBytes(all[ks[i - 1]].envelope), BodyBytes(all[ks[i] - 1].envelope))
  }

  /**
   * Which packets pass, whatever the query, agent filter included: when the selected receipts are
   * neighbours in the store the packet passes, and when they are not it fails, or two receipts' bodies
   * collide.
   */
  lemma FilteredPacketPassesIff(
    p: Platform, q: Query, all: seq<Stored>, key: Jwk, keysByKid: map<Text, Jwk>,
    artifactHashes: seq<Text>, anchors: seq<Text>, keys: seq<Jwk>, ownKid: Text, ownKey: Jwk)
    requires p.Lawful() && SoundStore(p, all, key, keysByKid) && DictBodies(Chain(all))
    requires KeysResolve(all, key, keysByKid, PublicKeys(keys, ownKid, ownKey))
    ensures var packet := BuildPacket(p, q, all, artifactHashes, anchors, keys, ownKid, ownKey);
            var passed := VerifyPacket(p, packet).Some? && VerifyPacket(p, packet).value.Passed();
            && (Consecutive(Places(p, q, all)) ==> passed)
            && (passed ==> Consecutive(Places(p, q, all)) || Collides(p.sha, GapCollision(p, q, all)))
  {
    hide SoundStore, KeysResolve, PublicKeys, VerifyPacket, PacketHolds, BuildPacket, Broken, BodyBytes, Keeps, DictBodies, Places, Select,
      Consecutive, NoBrokenLink;
    PacketPassesIffLinked(p, q, all, key, keysByKid, artifactHashes, anchors, keys, ownKid, ownKey);
    PassedIff(p, BuildPacket(p, q, all, artifactHashes, anchors, keys, ownKid, ownKey));
    if Consecutive(Places(p, q, all)) {
      ConsecutiveIsLinked(p, q, all, key, keysByKid);
    } else if NoBrokenLink(Select(p, q, all)) {
      LinkedGapCollides(p, q, all, key, keysByKid);
    }
  }

  lemma LinkedGapCollides(p: Platform, q: Query, all: seq<Stored>, key: Jwk, keysByKid: map<Text, Jwk>)
    requires SoundStore(p, all, key, keysByKid) && DictBodies(Chain(all))
    requires !Consecutive(Places(p, q, all)) && NoBrokenLink(Select(p, q, all))
    ensures Collides(p.sha, GapCollision(p, q, all))
  {
    hide SoundStore, Broken, BodyBytes, Keeps, DictBodies, Places, Select, Consecutive, Collides, FirstGap, Increasing;
    var ks, es := Places(p, q, all), Select(p, q, all);
    PlacesSelect(p, q, all);
    var i := FirstGap(ks);
    var a, b := ks[i - 1], ks[i];
    IncreasingAt(ks, i - 1, i);
    LinkInPacket(p, all, key, keysByKid, a, b);
    assert es[i - 1] == all[a].envelope && es[i] == all[b].envelope && !Broken(es[i - 1], es[i]);
    EqualHashesCollide(p, all, key, keysByKid, a, b - 1);
  }

  lemma EqualHashesCollide(p: Platform, all: seq<Stored>, key: Jwk, keysByKid: map<Text, Jwk>, a: nat, b: nat)
    requires a < b < |all| && SoundStore(p, all, key, keysByKid) && DictBodies(Chain(all))
    requires all[a].envelope.receiptHash == all[b].envelope.receiptHash
    ensures Collides(p.sha, (BodyBytes(all[a].envelope), BodyBytes(all[b].envelope)))
  {
    hide SoundStore, LinkOk, BodyBytes, KeyFor, Genesis, WellFormed;
    StoreAt(p, all, key, keysByKid, a);
    StoreAt(p, all, key, keysByKid, b);
    var d, e := all[a].envelope, all[b].envelope;
    assert Chain(all)[a] == d && Chain(all)[b] == e;
    LinkBinds(p, d, KeyFor(d, key, keysByKid), PrevOf(Chain(all), a, Genesis()), a + 1,
              e, KeyFor(e, key, keysByKid), PrevOf(Chain(all), b, Genesis()), b + 1);
  }

  /** The builder's own `chain_integrity` says PASS exactly when the verifier finds no broken link. */
  lemma InlineCheckAgrees(
    p: Platform, q: Query, all: seq<Stored>, artifactHashes: seq<Text>, anchors: seq<Text>, keys: seq<Jwk>, ownKid: Text, ownKey: Jwk)
    ensures var packet := BuildPacket(p, q, all, artifactHashes, anchors, keys, ownKid, ownKey);
            VerifyPacket(p, packet).Some? ==>
              (packet.metadata.chainIntact <==> VerifyPacket(p, packet).value.linksFail == 0)
  {
    hide SigSteps, InclusionSteps, ProofsFor, PublicKeys, CountDecision, Select, LinkSteps, SortBySeq, Broken, CountsHold, SeqOf;
    var packet := BuildPacket(p, q, all, artifactHashes, anchors, keys, ownKid, ownKey);
    var r1 := SigSteps(p, packet.publicKeys, BLANK, packet.receipts);
    SigStepsCount(p, packet.publicKeys, packet.receipts);
    var sorted := SortBySeq(p, packet.receipts);
    if packet.receipts != [] {
      LinkStepsCount(r1, sorted, |sorted|);
    }
    NoBrokenLinkIs(sorted);
    var r2 := Continuity(p, r1, packet.receipts);
    if r2.Some? {
      InclusionStepsCount(p.sha, r2.value, packet.inclusionProofs);
    }
  }

  // ----- the keys of a packet -----

  /** The last usable stored key with the kid. */
  function LastWithKid(keys: seq<Jwk>, kid: Text): Option<Jwk> {
    if keys == [] then None
    else if keys[|keys| - 1].kid == Some(kid) then Some(keys[|keys| - 1])
    else LastWithKid(keys[..|keys| - 1], kid)
  }

  function LabelOf(kid: Text, ownKid: Text): Text {
    if kid == ownKid then Lit("gateway") else kid
  }

  /** Labels are distinct, and each is the one its key's kid calls for. */
  predicate Named(entries: seq<LabelledKey>, ownKid: Text) {
    && (forall i | 0 <= i < |entries| ::
          entries[i].jwk.kid.Some? && entries[i].tag == LabelOf(entries[i].jwk.kid.value, ownKid))
    && (forall i, j | 0 <= i < j < |entries| :: entries[i].tag != entries[j].tag)
  }

  lemma {:induction false} PutNamed(entries: seq<LabelledKey>, ownKid: Text, k: LabelledKey)
    requires Named(entries, ownKid)
    requires k.jwk.kid.Some? && k.tag == LabelOf(k.jwk.kid.value, ownKid)
    ensures Named(PutKey(entries, k), ownKid)
    ensures forall i | 0 <= i < |PutKey(entries, k)| :: PutKey(entries, k)[i].tag in Tags(entries) + [k.tag]
  {
    hide LabelOf;
    var r := PutKey(entries, k);
    if entries != [] {
      var later := entries[1..];
      assert forall i | 0 <= i < |later| :: later[i] == entries[i + 1];
      assert Tags(later) == Tags(entries)[1..];
      if entries[0].tag == k.tag {
        forall j | 0 <= j < |r| ensures r[j].tag in Tags(entries) {
          assert r[j].tag == Tags(entries)[j];
        }
      } else {
        PutNamed(later, ownKid, k);
        var below := PutKey(later, k);
        forall j | 0 <= j < |below| ensures below[j].tag != entries[0].tag && below[j].tag in Tags(entries) + [k.tag] {
          assert below[j].tag in Tags(later) || below[j].tag == k.tag;
        }
        assert r == [entries[0]] + below && Tags(entries)[0] == entries[0].tag;
      }
    }
  }

  lemma {:induction false} PutResolves(entries: seq<LabelledKey>, ownKid: Text, k: LabelledKey, kid: Text)
    requires Named(entries, ownKid)
    requires k.jwk.kid.Some? && k.tag == LabelOf(k.jwk.kid.value, ownKid)
    ensures ResolveKey(kid, PutKey(entries, k)) ==
            if k.jwk.kid == Some(kid) then Some(k.jwk)
            else if LabelOf(kid, ownKid) == k.tag then None
            else ResolveKey(kid, entries)
  {
    hide LabelOf;
    if entries != [] {
      var later := entries[1..];
      assert forall i | 0 <= i < |later| :: later[i] == entries[i + 1];
      if entries[0].tag != k.tag {
        PutResolves(later, ownKid, k, kid);
      } else if LabelOf(kid, ownKid) == k.tag {
        NotNamed(later, ownKid, kid);
      }
    }
  }

  function Tags(entries: seq<LabelledKey>): seq<Text> {
    seq(|entries|, i requires 0 <= i < |entries| => entries[i].tag)
  }

  lemma {:induction false} NotNamed(entries: seq<LabelledKey>, ownKid: Text, kid: Text)
    requires Named(entries, ownKid)
    requires forall i | 0 <= i < |entries| :: entries[i].tag != LabelOf(kid, ownKid)
    ensures ResolveKey(kid, entries) == None
  {
    hide LabelOf;
    if entries != [] {
      NotNamed(entries[1..], ownKid, kid);
    }
  }

  lemma {:induction false} StoredKeysResolve(keys: seq<Jwk>, ownKid: Text, kid: Text)
    requires kid != []
    ensures Named(StoredKeys(keys, ownKid), ownKid)
    ensures LabelOf(kid, ownKid) != Lit("gateway") ==> ResolveKey(kid, StoredKeys(keys, ownKid)) == LastWithKid(keys, kid)
  {
    hide PutKey;
    if keys != [] {
      var before, k := keys[..|keys| - 1], keys[|keys| - 1];
      StoredKeysResolve(before, ownKid, kid);
      if k.kid.Some? && k.kid.value != [] {
        PutNamed(StoredKeys(before, ownKid), ownKid, LabelledKey(LabelOf(k.kid.value, ownKid), k));
        PutResolves(StoredKeys(before, ownKid), ownKid, LabelledKey(LabelOf(k.kid.value, ownKid), k), kid);
      }
    }
  }

  /**
   * Which key a packet gives for a kid: the gateway's current key for its own kid, else the last
   * stored key with the kid. A stored key whose kid is the word "gateway" is lost, unless it is the
   * gateway's own: its label is taken.
   */
  lemma PublicKeysResolve(keys: seq<Jwk>, ownKid: Text, ownKey: Jwk, kid: Text)
    requires ownKey.kid == Some(ownKid) && kid != []
    ensures ResolveKey(kid, PublicKeys(keys, ownKid, ownKey)) ==
            if kid == ownKid then Some(ownKey)
            else if kid == Lit("gateway") then None
            else LastWithKid(keys, kid)
  {
    StoredKeysResolve(keys, ownKid, kid);
    PutResolves(StoredKeys(keys, ownKid), ownKid, LabelledKey(Lit("gateway"), ownKey), kid);
  }

  // ----- honest runs -----

  function StoreOf(rs: seq<Receipt>): seq<Stored> {
    seq(|rs|, i requires 0 <= i < |rs| => Stored(rs[i].ToEnvelope(), None))
  }

  predicate OwnReceipts(signer: Signer, rs: seq<Receipt>) {
    forall i | 0 <= i < |rs| :: rs[i].kid == signer.kid && rs[i].receiptHash != []
  }

  lemma SignStepOwn(signer: Signer, s: ChainState, d: Decision)
    requires OwnReceipts(signer, s.receipts)
    ensures OwnReceipts(signer, SignStep(signer, s, d).receipts)
  {
    hide Signed, Receipt.Body, Canonical.Canonicalize, HashText;
    if Signed(signer, s.seqNo + 1, s.prev, d).Ok? {
      SignedBody(signer, s.seqNo + 1, s.prev, d);
      HashTextNonempty(signer.platform.sha, Canonical.Canonicalize(Obj(Signed(signer, s.seqNo + 1, s.prev, d).value.Body())).value);
    }
  }

  /** Receipts come out of signing with the signer's kid and a hash. */
  lemma {:induction false} SignedReceipts(signer: Signer, s: ChainState, ds: seq<Decision>)
    requires OwnReceipts(signer, s.receipts)
    ensures OwnReceipts(signer, SignAll(signer, s, ds).receipts)
    decreases |ds|
  {
    hide SignStep, OwnReceipts;
    if ds != [] {
      SignStepOwn(signer, s, ds[0]);
      SignedReceipts(signer, SignStep(signer, s, ds[0]), ds[1..]);
    }
  }

  lemma HashTextNonempty(sha: Sha, b: Bytes)
    ensures HashText(sha, b) != []
  {
    assert |HashText(sha, b)| == 7 + 64;
  }

  /**
   * Signing run to auditor: for every run of `sign_decision` calls from genesis in which no failed call
   * comes before a good one, every range of numbers, every artifact log, anchors and stored keys, the
   * packet passes the offline verifier.
   */
  lemma HonestRunPacketPasses(
    signer: Signer, ds: seq<Decision>, q: Query, artifactHashes: seq<Text>, anchors: seq<Text>, keys: seq<Jwk>)
    requires signer.platform.Lawful() && signer.kid != [] && NoGap(signer, ds)
    requires q.agentId.None? || q.agentId.value == []
    ensures var all := StoreOf(SignAll(signer, ChainState(0, Genesis(), []), ds).receipts);
            var packet := BuildPacket(signer.platform, q, all, artifactHashes, anchors, keys, signer.kid, signer.ToJwk());
            VerifyPacket(signer.platform, packet).Some? && VerifyPacket(signer.platform, packet).value.Passed()
  {
    hide VerifyPacket, BuildPacket, ChainVerdict, Signed, NoGap, PublicKeys, ResolveKey, Genesis, Receipt.Body, SignAll;
    var start := ChainState(0, Genesis(), []);
    var rs := SignAll(signer, start, ds).receipts;
    var all := StoreOf(rs);
    SignedReceipts(signer, start, ds);
    SignedChainPasses(signer, [], signer.ToJwk(), map[], ds);
    assert Chain(all) == Envelopes(rs) == [] + Envelopes(rs);
    PublicKeysResolve(keys, signer.kid, signer.ToJwk(), signer.kid);
    RangePacketPasses(signer.platform, q, all, signer.ToJwk(), map[], artifactHashes, anchors, keys, signer.kid, signer.ToJwk());
  }

  // ----- a packet that fails -----

  /** Receipts stored with the agents they were issued to. */
  function StoreFor(rs: seq<Receipt>, agents: seq<Text>): seq<Stored>
    requires |rs| == |agents|
  {
    seq(|rs|, i requires 0 <= i < |rs| => Stored(rs[i].ToEnvelope(), Some(agents[i])))
  }

  /** The store of three calls of one signer, the middle one for another agent. */
  function Alternating(signer: Signer, d: Decision, x: Text, y: Text): seq<Stored>
    requires |SignAll(signer, ChainState(0, Genesis(), []), [d, d, d]).receipts| == 3
  {
    StoreFor(SignAll(signer, ChainState(0, Genesis(), []), [d, d, d]).receipts, [x, y, x])
  }

  lemma ThreeReceipts(signer: Signer, d: Decision)
    requires Signable(signer, d)
    ensures |SignAll(signer, ChainState(0, Genesis(), []), [d, d, d]).receipts| == 3
  {
    hide Signed, Genesis, Utf8.Scalar, Signable;
    GenesisScalar();
    var s0 := ChainState(0, Genesis(), []);
    assert [d, d, d][1..] == [d, d] && [d, d][1..] == [d] && [d][1..] == [];
    SignedOkIff(signer, 1, s0.prev, d);
    var s1 := SignStep(signer, s0, d);
    SignedHashScalar(signer, 1, s0.prev, d);
    SignedOkIff(signer, 2, s1.prev, d);
    var s2 := SignStep(signer, s1, d);
    SignedHashScalar(signer, 2, s1.prev, d);
    SignedOkIff(signer, 3, s2.prev, d);
    var s3 := SignStep(signer, s2, d);
    assert SignAll(signer, s0, [d, d, d]) == SignAll(signer, s1, [d, d]) == SignAll(signer, s2, [d]) == SignAll(signer, s3, []) == s3;
  }

  /**
   * A packet that fails: three honest receipts, issued to agents x, y and x, and the packet of agent x.
   * It passes only if the first two bodies collide.
   */
  lemma AlternatingAgentsFail(signer: Signer, d: Decision, x: Text, y: Text)
    requires signer.platform.Lawful() && signer.kid != [] && Signable(signer, d) && x != [] && x != y
    requires d.delegationContext.Some? ==> WellFormed(Obj(d.delegationContext.value))
    ensures |SignAll(signer, ChainState(0, Genesis(), []), [d, d, d]).receipts| == 3
    ensures var all := Alternating(signer, d, x, y);
            var packet := BuildPacket(signer.platform, Query(None, None, Some(x)), all, [], [], [], signer.kid, signer.ToJwk());
            || !(VerifyPacket(signer.platform, packet).Some? && VerifyPacket(signer.platform, packet).value.Passed())
            || Collides(signer.platform.sha, (BodyBytes(all[0].envelope), BodyBytes(all[1].envelope)))
  {
    hide Signed, Genesis, Signable, VerifyPacket, BuildPacket, SoundStore, KeysResolve, DictBodies, PublicKeys, BodyBytes, SignAll, SeqOf,
      Places, Select, Collides, Receipt.Body, Keeps, Alternating;
    ThreeReceipts(signer, d);
    var p, q := signer.platform, Query(None, None, Some(x));
    var all := Alternating(signer, d, x, y);
    AlternatingIsSound(signer, d, x, y);
    AlternatingPlaces(p, q, all, signer.ToJwk(), x, y);
    FilteredPacketPassesIff(p, q, all, signer.ToJwk(), map[], [], [], [], signer.kid, signer.ToJwk());
    assert FirstGap([0, 2]) == 1;
  }

  lemma AlternatingPlaces(p: Platform, q: Query, all: seq<Stored>, key: Jwk, x: Text, y: Text)
    requires |all| == 3 && x != [] && x != y && q == Query(None, None, Some(x))
    requires all[0].agentId == Some(x) && all[1].agentId == Some(y) && all[2].agentId == Some(x)
    requires p.Lawful() && SoundStore(p, all, key, map[])
    ensures Places(p, q, all) == [0, 2]
  {
    hide SoundStore, SeqOf, Select;
    StoreNumber(p, all, key, map[], 0);
    StoreNumber(p, all, key, map[], 1);
    StoreNumber(p, all, key, map[], 2);
    assert all[..2][..1][..0] == [];
    assert Places(p, q, all[..2][..1]) == [0];
    assert Places(p, q, all[..2]) == [0];
  }

  lemma AlternatingIsSound(signer: Signer, d: Decision, x: Text, y: Text)
    requires signer.platform.Lawful() && signer.kid != [] && Signable(signer, d)
    requires d.delegationContext.Some? ==> WellFormed(Obj(d.delegationContext.value))
    requires |SignAll(signer, ChainState(0, Genesis(), []), [d, d, d]).receipts| == 3
    ensures var all := Alternating(signer, d, x, y);
            && |all| == 3 && all[0].agentId == Some(x) && all[1].agentId == Some(y) && all[2].agentId == Some(x)
            && SoundStore(signer.platform, all, signer.ToJwk(), map[]) && DictBodies(Chain(all))
            && KeysResolve(all, signer.ToJwk(), map[], PublicKeys([], signer.kid, signer.ToJwk()))
  {
    hide ChainVerdict, Signed, Genesis, Signable, PublicKeys, SignAll, WellFormed, Receipt.Body, LinkOkAt, ResolveKey;
    var start, ds := ChainState(0, Genesis(), []), [d, d, d];
    var rs := SignAll(signer, start, ds).receipts;
    var all := Alternating(signer, d, x, y);
    SignedReceipts(signer, start, ds);
    SignedDicts(signer, start, ds);
    SignedChainPasses(signer, [], signer.ToJwk(), map[], ds);
    assert Chain(all) == Envelopes(rs) == [] + Envelopes(rs);
    ChainPassesIff(signer.platform, Chain(all), signer.ToJwk(), map[]);
    PublicKeysResolve([], signer.kid, signer.ToJwk(), signer.kid);
  }

  predicate DictReceipts(rs: seq<Receipt>) {
    forall i | 0 <= i < |rs| :: WellFormed(Obj(rs[i].Body()))
  }

  lemma SignStepDict(signer: Signer, s: ChainState, d: Decision)
    requires DictReceipts(s.receipts) && (d.delegationContext.Some? ==> WellFormed(Obj(d.delegationContext.value)))
    ensures DictReceipts(SignStep(signer, s, d).receipts)
  {
    hide Signed, Receipt.Body, WellFormed;
    if Signed(signer, s.seqNo + 1, s.prev, d).Ok? {
      SignedBody(signer, s.seqNo + 1, s.prev, d);
      BodyIsDict(Draft(signer, s.seqNo + 1, s.prev, d));
    }
  }

  /** Signing decisions whose delegation contexts are dicts gives receipts whose bodies are dicts. */
  lemma {:induction false} SignedDicts(signer: Signer, s: ChainState, ds: seq<Decision>)
    requires DictReceipts(s.receipts)
    requires forall i | 0 <= i < |ds| :: ds[i].delegationContext.Some? ==> WellFormed(Obj(ds[i].delegationContext.value))
    ensures DictReceipts(SignAll(signer, s, ds).receipts)
    decreases |ds|
  {
    hide SignStep, DictReceipts, WellFormed;
    if ds != [] {
      SignStepDict(signer, s, ds[0]);
      SignedDicts(signer, SignStep(signer, s, ds[0]), ds[1..]);
    }
  }
}
