/**
 * The Merkle tree of section 2.1 of RFC 6962, defined by splitting at a power of two, and the proof
 * that pairing level by level, promoting the odd node, builds the same tree and the same audit paths.
 */
module MerkleRfc6962 {
  import opened Basics
  import opened Sha256
  import opened MerkleTree
  import opened Merkle

  predicate IsPowerOfTwo(k: nat) {
    k == 1 || (k > 1 && k % 2 == 0 && IsPowerOfTwo(k / 2))
  }

  /** The largest power of two smaller than `n`. */
  function SplitPoint(n: nat): (k: nat)
    requires n >= 2
    ensures IsPowerOfTwo(k) && k < n <= 2 * k
  {
    DoubleWhileBelow(1, n)
  }

  function DoubleWhileBelow(k: nat, n: nat): (r: nat)
    requires IsPowerOfTwo(k) && k < n
    ensures IsPowerOfTwo(r) && r < n <= 2 * r
    decreases n - k
  {
    if 2 * k < n then DoubleWhileBelow(2 * k, n) else k
  }

  lemma {:induction false} PowersAreSpaced(k: nat, m: nat)
    requires IsPowerOfTwo(k) && IsPowerOfTwo(m) && k < m
    ensures 2 * k <= m
  {
    if k > 1 {
      PowersAreSpaced(k / 2, m / 2);
    }
  }

  lemma SplitPointUnique(n: nat, k: nat)
    requires n >= 2 && IsPowerOfTwo(k) && k < n <= 2 * k
    ensures SplitPoint(n) == k
  {
    var s := SplitPoint(n);
    if s < k {
      PowersAreSpaced(s, k);
    } else if k < s {
      PowersAreSpaced(k, s);
    }
  }

  /** `MTH` over leaf hashes. */
  function Mth(ds: seq<Digest>, f: NodeFunction): Digest
    requires ds != []
    decreases |ds|
  {
    if |ds| == 1 then ds[0]
    else
      var k := SplitPoint(|ds|);
      f(Mth(ds[..k], f), Mth(ds[k..], f))
  }

  /** `PATH(m, D[n])` over leaf hashes, section 2.1.1. */
  function AuditPath(ds: seq<Digest>, m: nat, f: NodeFunction): seq<Sibling>
    requires m < |ds|
    decreases |ds|
  {
    if |ds| == 1 then []
    else
      var k := SplitPoint(|ds|);
      if m < k then AuditPath(ds[..k], m, f) + [Sibling(Mth(ds[k..], f), true)]
      else AuditPath(ds[k..], m - k, f) + [Sibling(Mth(ds[..k], f), false)]
  }

  /** Halving: the level above splits at half the split point, with the halves paired separately. */
  lemma PairLevelSplits(ds: seq<Digest>, f: NodeFunction)
    requires |ds| >= 3
    ensures var k := SplitPoint(|ds|);
            && k % 2 == 0 && k >= 2
            && |PairLevel(ds, f)| >= 2 && SplitPoint(|PairLevel(ds, f)|) == k / 2
            && PairLevel(ds, f)[..k / 2] == PairLevel(ds[..k], f)
            && PairLevel(ds, f)[k / 2..] == PairLevel(ds[k..], f)
  {
    hide PairLevel, SplitPoint, IsPowerOfTwo;
    var k := SplitPoint(|ds|);
    SplitPointHalves(|ds|);
    PairLevelHalves(ds[..k], ds[k..], f);
    assert ds[..k] + ds[k..] == ds;
  }

  lemma PairLevelHalves(a: seq<Digest>, b: seq<Digest>, f: NodeFunction)
    requires |a| % 2 == 0
    ensures PairLevel(a + b, f)[..|a| / 2] == PairLevel(a, f) && PairLevel(a + b, f)[|a| / 2..] == PairLevel(b, f)
  {
    hide PairLevel;
    PairLevelConcat(a, b, f);
  }

  lemma SplitPointHalves(n: nat)
    requires n >= 3
    ensures var k := SplitPoint(n); k % 2 == 0 && k >= 2 && SplitPoint((n + 1) / 2) == k / 2
  {
    hide SplitPoint;
    SplitPointUnique((n + 1) / 2, SplitPoint(n) / 2);
  }

  lemma PairLevelOfTwo(ds: seq<Digest>, f: NodeFunction)
    requires |ds| == 2
    ensures PairLevel(ds, f) == [f(ds[0], ds[1])]
    ensures SplitPoint(|ds|) == 1 && ds[..1] == [ds[0]] && ds[1..] == [ds[1]]
  {
    assert ds == [ds[0], ds[1]];
    PairLevelSmall(f);
    SplitPointUnique(2, 1);
  }

  lemma MthSplit(ds: seq<Digest>, k: nat, f: NodeFunction)
    requires |ds| >= 2 && k == SplitPoint(|ds|)
    ensures Mth(ds, f) == f(Mth(ds[..k], f), Mth(ds[k..], f))
  {
  }

  lemma PairLevelOfOne(ds: seq<Digest>, f: NodeFunction)
    requires |ds| == 1
    ensures PairLevel(ds, f) == ds
  {
  }

  lemma {:induction false} MthOfPairLevel(ds: seq<Digest>, f: NodeFunction)
    requires ds != []
    ensures Mth(PairLevel(ds, f), f) == Mth(ds, f)
    decreases |ds|
  {
    hide Mth, PairLevel, SplitPoint;
    if |ds| == 1 {
      PairLevelOfOne(ds, f);
    } else if |ds| == 2 {
      PairLevelOfTwo(ds, f);
      MthSplit(ds, 1, f);
      MthOfOne(ds[0], f);
      MthOfOne(ds[1], f);
      MthOfOne(f(ds[0], ds[1]), f);
    } else {
      var k := SplitPoint(|ds|);
      PairLevelSplits(ds, f);
      MthSplit(ds, k, f);
      MthSplit(PairLevel(ds, f), k / 2, f);
      MthOfPairLevel(ds[..k], f);
      MthOfPairLevel(ds[k..], f);
    }
  }

  lemma MthOfOne(d: Digest, f: NodeFunction)
    ensures Mth([d], f) == d
    ensures AuditPath([d], 0, f) == []
  {
  }

  /** Level-by-level pairing with promotion computes the Merkle Tree Hash. */
  lemma {:induction false} LevelsComputeMth(ds: seq<Digest>, f: NodeFunction)
    requires ds != []
    ensures RootOf(ds, f) == Mth(ds, f)
    decreases |ds|
  {
    hide PairLevel, SplitPoint;
    if |ds| > 1 {
      MthOfPairLevel(ds, f);
      LevelsComputeMth(PairLevel(ds, f), f);
    }
  }

  lemma AuditPathSplit(ds: seq<Digest>, m: nat, k: nat, f: NodeFunction)
    requires |ds| >= 2 && m < |ds| && k == SplitPoint(|ds|)
    ensures AuditPath(ds, m, f) ==
            if m < k then AuditPath(ds[..k], m, f) + [Sibling(Mth(ds[k..], f), true)]
            else AuditPath(ds[k..], m - k, f) + [Sibling(Mth(ds[..k], f), false)]
  {
  }

  lemma SiblingWithin(ds: seq<Digest>, k: nat, m: nat)
    requires k % 2 == 0 && k < |ds| && m < |ds|
    ensures m < k ==> SiblingAt(ds, m) == SiblingAt(ds[..k], m)
    ensures m >= k ==> SiblingAt(ds, m) == SiblingAt(ds[k..], m - k)
  {
  }

  /** The audit path of a position is its sibling followed by the audit path one level up. */
  lemma {:induction false} AuditPathOfPairLevel(ds: seq<Digest>, m: nat, f: NodeFunction)
    requires |ds| >= 2 && m < |ds|
    ensures AuditPath(ds, m, f) == SiblingAt(ds, m) + AuditPath(PairLevel(ds, f), m / 2, f)
    decreases |ds|
  {
    hide Mth, AuditPath, PairLevel, SplitPoint, SiblingAt;
    var up := PairLevel(ds, f);
    if |ds| == 2 {
      PairLevelOfTwo(ds, f);
      AuditPathSplit(ds, m, 1, f);
      MthOfOne(ds[0], f);
      MthOfOne(ds[1], f);
      MthOfOne(up[0], f);
      SiblingOfTwo(ds, m);
    } else {
      var k := SplitPoint(|ds|);
      PairLevelSplits(ds, f);
      AuditPathSplit(ds, m, k, f);
      AuditPathSplit(up, m / 2, k / 2, f);
      SiblingWithin(ds, k, m);
      MthOfPairLevel(ds[..k], f);
      MthOfPairLevel(ds[k..], f);
      if m < k {
        AuditPathOfPairLevel(ds[..k], m, f);
      } else if |ds[k..]| >= 2 {
        AuditPathOfPairLevel(ds[k..], m - k, f);
      } else {
        PairLevelOfOne(ds[k..], f);
        SiblingOfOne(ds[k..]);
      }
    }
  }

  lemma SiblingOfOne(ds: seq<Digest>)
    requires |ds| == 1
    ensures SiblingAt(ds, 0) == []
  {
  }

  lemma SiblingOfTwo(ds: seq<Digest>, m: nat)
    requires |ds| == 2 && m < 2
    ensures SiblingAt(ds, m) == [if m == 0 then Sibling(ds[1], true) else Sibling(ds[0], false)]
  {
  }

  /** The sibling path the code emits is the audit path of section 2.1.1. */
  lemma {:induction false} PathIsAuditPath(ds: seq<Digest>, i: nat, f: NodeFunction)
    requires i < |ds|
    ensures Path(ds, i, f) == AuditPath(ds, i, f)
    decreases |ds|
  {
    hide PairLevel, SplitPoint, SiblingAt, Mth;
    if |ds| > 1 {
      AuditPathOfPairLevel(ds, i, f);
      PathIsAuditPath(PairLevel(ds, f), i / 2, f);
    }
  }

  /** Both together, for the roots and proofs the code returns. */
  lemma CodeAgreesWithRfc6962(sha: Sha, hexes: seq<Text>, target: Text)
    requires target in hexes && Decode(hexes).Ok?
    ensures var ds := LeafHashes(sha, ArtifactDomain, Decode(hexes).value);
            var f := NodeFn(sha, ArtifactDomain);
            && RootText(sha, ArtifactDomain, hexes) == Ok(DigestText(Mth(ds, f)))
            && ProofOf(sha, hexes, target).Ok?
            && ProofOf(sha, hexes, target).value.Some?
            && ProofOf(sha, hexes, target).value.value.proof == StepsOf(AuditPath(ds, IndexOf(hexes, target), f))
  {
    hide StepsOf, Mth, AuditPath, Path, RootOf;
    var ds := LeafHashes(sha, ArtifactDomain, Decode(hexes).value);
    LevelsComputeMth(ds, NodeFn(sha, ArtifactDomain));
    PathIsAuditPath(ds, IndexOf(hexes, target), NodeFn(sha, ArtifactDomain));
  }

  // ----- over the leaf data, with the tags spelled out -----

  /** Section 2.1 of RFC 6962 over the data itself, with these tags in the place of its one-byte prefixes. */
  function TaggedMth(sha: Sha, leafTag: Bytes, nodeTag: Bytes, datas: seq<Bytes>): Digest
    requires datas != []
  {
    if |datas| == 1 then sha(leafTag + [0] + datas[0])
    else
      var k := SplitPoint(|datas|);
      sha(nodeTag + [0] + TaggedMth(sha, leafTag, nodeTag, datas[..k]) + TaggedMth(sha, leafTag, nodeTag, datas[k..]))
  }

  lemma {:induction false} MthOfData(sha: Sha, domain: Domain, datas: seq<Bytes>)
    requires datas != []
    ensures Mth(LeafHashes(sha, domain, datas), NodeFn(sha, domain)) ==
            TaggedMth(sha, Tag(domain, true), Tag(domain, false), datas)
    decreases |datas|
  {
    hide SplitPoint, Tag;
    var ds, f := LeafHashes(sha, domain, datas), NodeFn(sha, domain);
    if |datas| > 1 {
      var k := SplitPoint(|datas|);
      MthSplit(ds, k, f);
      assert ds[..k] == LeafHashes(sha, domain, datas[..k]) && ds[k..] == LeafHashes(sha, domain, datas[k..]);
      MthOfData(sha, domain, datas[..k]);
      MthOfData(sha, domain, datas[k..]);
    } else {
      assert ds == [LeafHash(sha, domain, datas[0])];
      MthOfOne(ds[0], f);
    }
  }

  /** Both roots of the gateway are that hash, with its two pairs of tags. */
  lemma RootsAreTaggedMth(sha: Sha, datas: seq<Bytes>)
    requires datas != []
    ensures Root(sha, ReceiptDomain, datas) ==
            TaggedMth(sha, AsciiBytes("BI_RECEIPT_LEAF_V1"), AsciiBytes("BI_RECEIPT_NODE_V1"), datas)
    ensures Root(sha, ArtifactDomain, datas) ==
            TaggedMth(sha, AsciiBytes("BI_ARTIFACT_LEAF_V1"), AsciiBytes("BI_ARTIFACT_NODE_V1"), datas)
  {
    hide Mth, TaggedMth, RootOf;
    LevelsComputeMth(LeafHashes(sha, ReceiptDomain, datas), NodeFn(sha, ReceiptDomain));
    LevelsComputeMth(LeafHashes(sha, ArtifactDomain, datas), NodeFn(sha, ArtifactDomain));
    MthOfData(sha, ReceiptDomain, datas);
    MthOfData(sha, ArtifactDomain, datas);
  }
}
