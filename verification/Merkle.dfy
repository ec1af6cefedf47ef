/** `gateway/merkle.py`: the loops that build trees, roots and inclusion proofs. */
module Merkle {
  import opened Basics
  import opened Numerals
  import opened Sha256
  import opened MerkleTree

  datatype ValueError = EmptyBatch | BadHex

  /** One step of a proof as the JSON carries it. */
  datatype Step = Step(hash: Text, direction: Text)

  datatype InclusionProof = InclusionProof(
    artifactHash: Text, leafIndex: nat, treeSize: nat, root: Text, proof: seq<Step>)

  function DecodeOne(hex: Text): Result<Bytes, ValueError> {
    match FromHex(hex)
    case Some(b) => Ok(b)
    case None => Err(BadHex)
  }

  /** The bytes behind a list of hash strings, or the ValueError of the first bad one. */
  function Decode(hexes: seq<Text>): Result<seq<Bytes>, ValueError> {
    Collect(seq(|hexes|, i requires 0 <= i < |hexes| => DecodeOne(hexes[i])))
  }

  function LeafFromHex(sha: Sha, domain: Domain, hex: Text): Result<Digest, ValueError> {
    var data :- DecodeOne(hex);
    Ok(LeafHash(sha, domain, data))
  }

  /** The leaf comprehension raises exactly when decoding does, and hashes what was decoded otherwise. */
  function LeavesFromHex(sha: Sha, domain: Domain, hexes: seq<Text>): (r: Result<seq<Digest>, ValueError>)
    ensures Decode(hexes).Err? ==> r == Err(BadHex) == Decode(hexes)
    ensures Decode(hexes).Ok? ==> r == Ok(LeafHashes(sha, domain, Decode(hexes).value))
  {
    var results := seq(|hexes|, i requires 0 <= i < |hexes| => LeafFromHex(sha, domain, hexes[i]));
    var decoded := seq(|hexes|, i requires 0 <= i < |hexes| => DecodeOne(hexes[i]));
    assert forall i | 0 <= i < |hexes| :: results[i].Ok? <==> decoded[i].Ok?;
    CollectErr(results, BadHex);
    CollectErr(decoded, BadHex);
    var r := Collect(results);
    assert r.Ok? ==> r.value == LeafHashes(sha, domain, Collect(decoded).value) by {
      if r.Ok? {
        forall i | 0 <= i < |hexes| ensures r.value[i] == LeafHash(sha, domain, Collect(decoded).value[i]) {
          assert results[i] == Ok(r.value[i]);
          assert decoded[i] == Ok(Collect(decoded).value[i]);
        }
      }
    }
    r
  }

  lemma {:induction false} CollectErr<T, E>(results: seq<Result<T, E>>, e: E)
    requires forall i | 0 <= i < |results| :: results[i].Err? ==> results[i].error == e
    ensures Collect(results).Err? ==> Collect(results) == Err(e)
  {
    if results != [] && results[0].Ok? {
      CollectErr(results[1..], e);
    }
  }

  /** The root of a list of hash strings: `Root` is defined, and tied to the tree, in module MerkleTree. */
  function RootText(sha: Sha, domain: Domain, hexes: seq<Text>): Result<Text, ValueError> {
    if hexes == [] then Err(EmptyBatch)
    else
      var datas :- Decode(hexes);
      Ok(DigestText(Root(sha, domain, datas)))
  }

  lemma {:induction false} PairLevelConcat(a: seq<Digest>, b: seq<Digest>, f: NodeFunction)
    requires |a| % 2 == 0
    ensures PairLevel(a + b, f) == PairLevel(a, f) + PairLevel(b, f)
  {
    if a == [] {
      assert a + b == b;
    } else {
      assert (a + b)[2..] == a[2..] + b;
      PairLevelConcat(a[2..], b, f);
    }
  }

  lemma PairLevelSmall(f: NodeFunction)
    ensures PairLevel([], f) == []
    ensures forall d: Digest :: PairLevel([d], f) == [d]
    ensures forall d: Digest, e: Digest :: PairLevel([d, e], f) == [f(d, e)]
  {
    forall d: Digest, e: Digest ensures PairLevel([d, e], f) == [f(d, e)] {
      assert [d, e][2..] == [];
    }
  }

  /** The inner loop both builders share: one level from the one below. */
  method NextLevel(current: seq<Digest>, nodeFn: NodeFunction) returns (next: seq<Digest>)
    ensures next == PairLevel(current, nodeFn)
  {
    hide PairLevel;
    PairLevelSmall(nodeFn);
    next := [];
    var i := 0;
    assert current[..0] == [];
    while i < |current|
      invariant 0 <= i <= |current| && (i < |current| ==> i % 2 == 0)
      invariant next == PairLevel(current[..i], nodeFn)
    {
      if i + 1 < |current| {
        assert current[..i + 2] == current[..i] + [current[i], current[i + 1]];
        PairLevelConcat(current[..i], [current[i], current[i + 1]], nodeFn);
        next := next + [nodeFn(current[i], current[i + 1])];
        i := i + 2;
      } else {
        assert current[..i + 1] == current[..i] + [current[i]];
        PairLevelConcat(current[..i], [current[i]], nodeFn);
        next := next + [current[i]];
        i := i + 1;
      }
    }
    assert current[..i] == current;
  }

  lemma LevelsUnfold(ds: seq<Digest>, f: NodeFunction)
    requires ds != []
    ensures |ds| == 1 ==> Levels(ds, f) == [ds]
    ensures |ds| > 1 ==> Levels(ds, f) == [ds] + Levels(PairLevel(ds, f), f)
  {
  }

  /** `_build_tree` */
  method BuildTree(leaves: seq<Digest>, nodeFn: NodeFunction) returns (r: Result<seq<seq<Digest>>, ValueError>)
    ensures r == if leaves == [] then Err(EmptyBatch) else Ok(Levels(leaves, nodeFn))
  {
    hide Levels, PairLevel;
    if leaves == [] {
      return Err(EmptyBatch);
    }
    var levels := [leaves];
    var current := leaves;
    ghost var below := [];
    while |current| > 1
      invariant current != [] && levels == below + [current]
      invariant below + Levels(current, nodeFn) == Levels(leaves, nodeFn)
      decreases |current|
    {
      LevelsUnfold(current, nodeFn);
      var nextLevel := NextLevel(current, nodeFn);
      assert below + ([current] + Levels(nextLevel, nodeFn)) == levels + Levels(nextLevel, nodeFn);
      below := levels;
      levels := levels + [nextLevel];
      current := nextLevel;
    }
    LevelsUnfold(current, nodeFn);
    return Ok(levels);
  }

  /** `compute_batch_root`, the receipt-only root, which keeps one level at a time. */
  method ComputeBatchRoot(sha: Sha, receiptHashesHex: seq<Text>) returns (r: Result<Text, ValueError>)
    ensures r == RootText(sha, ReceiptDomain, receiptHashesHex)
  {
    if receiptHashesHex == [] {
      return Err(EmptyBatch);
    }
    var leaves := LeavesFromHex(sha, ReceiptDomain, receiptHashesHex);
    if leaves.Err? {
      return Err(leaves.error);
    }
    var level := leaves.value;
    while |level| > 1
      invariant level != []
      invariant RootOf(level, NodeFn(sha, ReceiptDomain)) == RootOf(leaves.value, NodeFn(sha, ReceiptDomain))
      decreases |level|
    {
      level := NextLevel(level, NodeFn(sha, ReceiptDomain));
    }
    return Ok(DigestText(level[0]));
  }

  /** `compute_unified_root` */
  method ComputeUnifiedRoot(sha: Sha, artifactHashesHex: seq<Text>) returns (r: Result<Text, ValueError>)
    ensures r == RootText(sha, ArtifactDomain, artifactHashesHex)
  {
    if artifactHashesHex == [] {
      return Err(EmptyBatch);
    }
    var leaves := LeavesFromHex(sha, ArtifactDomain, artifactHashesHex);
    if leaves.Err? {
      return Err(leaves.error);
    }
    var levels := BuildTree(leaves.value, NodeFn(sha, ArtifactDomain));
    RootIsLastLevel(leaves.value, NodeFn(sha, ArtifactDomain));
    return Ok(DigestText(levels.value[|levels.value| - 1][0]));
  }

  function StepOf(s: Sibling): Step {
    Step(ToHex(s.hash), if s.right then Lit("right") else Lit("left"))
  }

  function StepsOf(path: seq<Sibling>): (r: seq<Step>)
    ensures |r| == |path|
  {
    seq(|path|, i requires 0 <= i < |path| => StepOf(path[i]))
  }

  /** `list.index` */
  function IndexOf(xs: seq<Text>, x: Text): (i: nat)
    requires x in xs
    ensures i < |xs| && xs[i] == x && x !in xs[..i]
  {
    if xs[0] == x then 0
    else
      var i := 1 + IndexOf(xs[1..], x);
      assert xs[..i] == [xs[0]] + xs[1..][..i - 1];
      i
  }

  /** The proof the code returns: `Path` is tied to the checker and to RFC 6962 in the modules about them. */
  function ProofOf(sha: Sha, hexes: seq<Text>, target: Text): Result<Option<InclusionProof>, ValueError> {
    if target !in hexes then Ok(None)
    else
      var datas :- Decode(hexes);
      var i := IndexOf(hexes, target);
      var path := Path(LeafHashes(sha, ArtifactDomain, datas), i, NodeFn(sha, ArtifactDomain));
      Ok(Some(InclusionProof(target, i, |hexes|, DigestText(Root(sha, ArtifactDomain, datas)), StepsOf(path))))
  }

  /** When a root raises: for an empty list, and for one with a hash that is not hexadecimal. */
  lemma RootRaisesWhen(sha: Sha, domain: Domain, hexes: seq<Text>)
    ensures RootText(sha, domain, hexes) == Err(EmptyBatch) <==> hexes == []
    ensures RootText(sha, domain, hexes) == Err(BadHex) <==> exists i | 0 <= i < |hexes| :: FromHex(hexes[i]).None?
  {
    hide FromHex, Root, DigestText;
    var decoded := seq(|hexes|, i requires 0 <= i < |hexes| => DecodeOne(hexes[i]));
    assert forall i | 0 <= i < |hexes| :: decoded[i] == DecodeOne(hexes[i]);
    CollectErr(decoded, BadHex);
  }

  /** What a proof states beside its path: the target, its first place in the list, the length of the list, and the root. */
  lemma ProofStates(sha: Sha, hexes: seq<Text>, target: Text)
    ensures target !in hexes ==> ProofOf(sha, hexes, target) == Ok(None)
    ensures target in hexes && Decode(hexes).Ok? ==>
              && ProofOf(sha, hexes, target).Ok? && ProofOf(sha, hexes, target).value.Some?
              && var proof := ProofOf(sha, hexes, target).value.value;
              && proof.artifactHash == target && proof.treeSize == |hexes|
              && proof.leafIndex < |hexes| && hexes[proof.leafIndex] == target
              && (forall k | 0 <= k < proof.leafIndex :: hexes[k] != target)
              && RootText(sha, ArtifactDomain, hexes) == Ok(proof.root)
  {
    hide Decode, Root, DigestText, Path, StepsOf, LeafHashes;
    if target in hexes {
      var i := IndexOf(hexes, target);
      forall k | 0 <= k < i ensures hexes[k] != target {
        assert hexes[..i][k] == hexes[k];
      }
    }
  }

  lemma {:induction false} LevelsTail(ds: seq<Digest>, k: nat, f: NodeFunction)
    requires ds != [] && k < |Levels(ds, f)|
    ensures Levels(ds, f)[k] != [] && Levels(ds, f)[k..] == Levels(Levels(ds, f)[k], f)
    decreases k
  {
    if k > 0 {
      LevelsTail(PairLevel(ds, f), k - 1, f);
      assert Levels(ds, f)[1..] == Levels(PairLevel(ds, f), f);
      assert Levels(ds, f)[k..] == Levels(PairLevel(ds, f), f)[k - 1..];
    } else {
      assert Levels(ds, f)[0..] == Levels(ds, f);
    }
  }

  /** `compute_inclusion_proof` */
  method ComputeInclusionProof(sha: Sha, artifactHashesHex: seq<Text>, targetHashHex: Text)
    returns (r: Result<Option<InclusionProof>, ValueError>)
    ensures r == ProofOf(sha, artifactHashesHex, targetHashHex)
  {
    if targetHashHex !in artifactHashesHex {
      return Ok(None);
    }
    var f := NodeFn(sha, ArtifactDomain);
    var targetIndex := IndexOf(artifactHashesHex, targetHashHex);
    var leaves := LeavesFromHex(sha, ArtifactDomain, artifactHashesHex);
    if leaves.Err? {
      return Err(leaves.error);
    }
    var built := BuildTree(leaves.value, f);
    var levels := built.value;
    RootIsLastLevel(leaves.value, f);
    var root := levels[|levels| - 1][0];
    var path := ProofPath(leaves.value, levels, targetIndex, f);
    return Ok(Some(InclusionProof(targetHashHex, targetIndex, |artifactHashesHex|, DigestText(root), path)));
  }

  /** One turn of the loop below: the sibling at this level, then the path from the next. */
  lemma PathStep(leaves: seq<Digest>, k: nat, idx: nat, f: NodeFunction)
    requires leaves != [] && k + 1 < |Levels(leaves, f)| && idx < |Levels(leaves, f)[k]|
    ensures idx / 2 < |Levels(leaves, f)[k + 1]|
    ensures Path(Levels(leaves, f)[k], idx, f) ==
            SiblingAt(Levels(leaves, f)[k], idx) + Path(Levels(leaves, f)[k + 1], idx / 2, f)
  {
    hide PairLevel;
    var levels := Levels(leaves, f);
    LevelsTail(leaves, k, f);
    assert levels[k..][1] == levels[k + 1];
  }

  lemma StepsConcat(p: seq<Sibling>, q: seq<Sibling>)
    ensures StepsOf(p + q) == StepsOf(p) + StepsOf(q)
  {
  }

  lemma StepsAt(ds: seq<Digest>, i: nat)
    requires i < |ds|
    ensures StepsOf(SiblingAt(ds, i)) ==
            if i % 2 == 1 then [Step(ToHex(ds[i - 1]), Lit("left"))]
            else if i + 1 < |ds| then [Step(ToHex(ds[i + 1]), Lit("right"))]
            else []
  {
    hide ToHex;
  }

  lemma PathAtRoot(d: Digest, f: NodeFunction)
    ensures Path([d], 0, f) == []
  {
  }

  /** The loop of `compute_inclusion_proof` over the levels below the root. */
  method ProofPath(ghost leaves: seq<Digest>, levels: seq<seq<Digest>>, targetIndex: nat, ghost f: NodeFunction)
    returns (proofPath: seq<Step>)
    requires targetIndex < |leaves| && levels == Levels(leaves, f)
    ensures proofPath == StepsOf(Path(leaves, targetIndex, f))
  {
    hide Levels, Path, StepsOf, StepOf, SiblingAt, ToHex;
    proofPath := [];
    var idx: nat := targetIndex;
    for k := 0 to |levels| - 1
      invariant idx < |levels[k]|
      invariant proofPath + StepsOf(Path(levels[k], idx, f)) == StepsOf(Path(leaves, targetIndex, f))
    {
      var level := levels[k];
      PathStep(leaves, k, idx, f);
      StepsConcat(SiblingAt(level, idx), Path(levels[k + 1], idx / 2, f));
      StepsAt(level, idx);
      if idx % 2 == 0 {
        if idx + 1 < |level| {
          proofPath := proofPath + [Step(ToHex(level[idx + 1]), Lit("right"))];
        }
      } else {
        proofPath := proofPath + [Step(ToHex(level[idx - 1]), Lit("left"))];
      }
      idx := idx / 2;
    }
    var top := levels[|levels| - 1];
    assert top == [top[0]];
    PathAtRoot(top[0], f);
    assert StepsOf([]) == [];
  }
}
