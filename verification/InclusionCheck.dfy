/** The offline checker's walk from a leaf to the root (`verify_inclusion_proofs`), which is written apart from the tree builder. */
module InclusionCheck {
  import opened Basics
  import opened Numerals
  import opened Sha256
  import opened MerkleTree
  import opened Merkle

  /** Any direction but "right" counts as left. */
  function DecodeStep(s: Step): Result<Sibling, ValueError> {
    var hash :- DecodeOne(s.hash);
    Ok(Sibling(hash, s.direction == Lit("right")))
  }

  function DecodeSteps(steps: seq<Step>): Result<seq<Sibling>, ValueError> {
    Collect(Decoded(steps))
  }

  function Decoded(steps: seq<Step>): (r: seq<Result<Sibling, ValueError>>)
    ensures |r| == |steps| && forall i | 0 <= i < |r| :: r[i] == DecodeStep(steps[i])
  {
    seq(|steps|, i requires 0 <= i < |steps| => DecodeStep(steps[i]))
  }

  /** The root text the walk arrives at. */
  function CheckedRoot(sha: Sha, targetHex: Text, steps: seq<Step>): Result<Text, ValueError> {
    var data :- DecodeOne(targetHex);
    var path :- DecodeSteps(steps);
    Ok(DigestText(Fold(sha, ArtifactDomain, LeafHash(sha, ArtifactDomain, data), path)))
  }

  lemma {:induction false} DecodeStepsPrefix(steps: seq<Step>, i: nat)
    requires i < |steps|
    requires DecodeSteps(steps[..i]).Ok?
    ensures DecodeStep(steps[i]).Err? ==> DecodeSteps(steps) == Err(BadHex)
    ensures DecodeStep(steps[i]).Ok? ==>
              DecodeSteps(steps[..i + 1]) == Ok(DecodeSteps(steps[..i]).value + [DecodeStep(steps[i]).value])
  {
    hide Collect, DecodeStep, Decoded;
    forall k | 0 <= k < |steps| ensures DecodeStep(steps[k]).Err? ==> DecodeStep(steps[k]) == Err(BadHex) {
      DecodeStepError(steps[k]);
    }
    assert Decoded(steps)[i] == DecodeStep(steps[i]);
    CollectErr(Decoded(steps), BadHex);
    if DecodeStep(steps[i]).Ok? {
      assert Decoded(steps[..i + 1]) == Decoded(steps[..i]) + [DecodeStep(steps[i])];
      assert DecodeStep(steps[i]) == Ok(DecodeStep(steps[i]).value);
      CollectAppend(Decoded(steps[..i]), DecodeStep(steps[i]).value);
    }
  }

  lemma CollectAppend<T, E>(results: seq<Result<T, E>>, value: T)
    requires Collect(results).Ok?
    ensures Collect(results + [Ok(value)]) == Ok(Collect(results).value + [value])
  {
    hide Collect;
    var all := results + [Ok(value)];
    assert forall k | 0 <= k < |all| :: all[k].Ok?;
    var values := Collect(all).value;
    forall k | 0 <= k < |all| ensures values[k] == (Collect(results).value + [value])[k] {
      assert all[k] == Ok(values[k]);
      if k < |results| {
        assert results[k] == Ok(Collect(results).value[k]);
      }
    }
    assert values == Collect(results).value + [value];
    assert Collect(all) == Ok(values);
  }

  /** The body of the loop over `inclusion_proofs`: decode as it goes, hash upwards, compare. */
  method WalkToRoot(sha: Sha, targetHex: Text, proofPath: seq<Step>) returns (r: Result<Text, ValueError>)
    ensures r == CheckedRoot(sha, targetHex, proofPath)
  {
    hide DecodeSteps, DecodeStep, Fold, NodeHash, LeafHash;
    var leaf := LeafFromHex(sha, ArtifactDomain, targetHex);
    if leaf.Err? {
      return Err(leaf.error);
    }
    var current := leaf.value;
    DecodeNoSteps();
    assert proofPath[..0] == [];
    FoldNothing(sha, current);
    for i := 0 to |proofPath|
      invariant DecodeSteps(proofPath[..i]).Ok?
      invariant current == Fold(sha, ArtifactDomain, leaf.value, DecodeSteps(proofPath[..i]).value)
    {
      DecodeStepsPrefix(proofPath, i);
      var step := DecodeStep(proofPath[i]);
      if step.Err? {
        DecodeStepError(proofPath[i]);
        return Err(step.error);
      }
      FoldOneMore(sha, leaf.value, DecodeSteps(proofPath[..i]).value, step.value);
      if step.value.right {
        current := NodeHash(sha, ArtifactDomain, current, step.value.hash);
      } else {
        current := NodeHash(sha, ArtifactDomain, step.value.hash, current);
      }
    }
    assert proofPath[..|proofPath|] == proofPath;
    return Ok(DigestText(current));
  }

  lemma DecodeNoSteps()
    ensures DecodeSteps([]) == Ok([])
  {
  }

  lemma DecodeStepError(s: Step)
    ensures DecodeStep(s).Err? ==> DecodeStep(s) == Err(BadHex)
  {
  }

  lemma FoldNothing(sha: Sha, d: Digest)
    ensures Fold(sha, ArtifactDomain, d, []) == d
  {
  }

  lemma FoldOneMore(sha: Sha, d: Digest, path: seq<Sibling>, s: Sibling)
    ensures Fold(sha, ArtifactDomain, d, path + [s]) ==
            var below := Fold(sha, ArtifactDomain, d, path);
            if s.right then NodeHash(sha, ArtifactDomain, below, s.hash) else NodeHash(sha, ArtifactDomain, s.hash, below)
  {
    assert (path + [s])[..|path|] == path;
  }

  // ----- completeness -----

  /** Folding the path of a position gives the root. */
  lemma {:induction false} FoldPath(sha: Sha, domain: Domain, ds: seq<Digest>, i: nat)
    requires i < |ds|
    ensures var f := NodeFn(sha, domain);
            Fold(sha, domain, ds[i], Path(ds, i, f)) == RootOf(ds, f)
    decreases |ds|
  {
    hide NodeHash;
    var f := NodeFn(sha, domain);
    if |ds| > 1 {
      var up := PairLevel(ds, f);
      FoldPath(sha, domain, up, i / 2);
      PairLevelAt(ds, i / 2, f);
      FoldConcat(sha, domain, ds[i], SiblingAt(ds, i), Path(up, i / 2, f));
      FoldSibling(sha, domain, ds, i);
    }
  }

  lemma {:induction false} PairLevelAt(ds: seq<Digest>, j: nat, f: NodeFunction)
    requires j < |PairLevel(ds, f)|
    ensures PairLevel(ds, f)[j] == if 2 * j + 1 < |ds| then f(ds[2 * j], ds[2 * j + 1]) else ds[2 * j]
    decreases j
  {
    if j > 0 {
      PairLevelAt(ds[2..], j - 1, f);
    }
  }

  lemma FoldSibling(sha: Sha, domain: Domain, ds: seq<Digest>, i: nat)
    requires i < |ds|
    ensures Fold(sha, domain, ds[i], SiblingAt(ds, i)) ==
            var j := i / 2;
            if 2 * j + 1 < |ds| then NodeHash(sha, domain, ds[2 * j], ds[2 * j + 1]) else ds[2 * j]
  {
    var p := SiblingAt(ds, i);
    if p != [] {
      assert p[..0] == [];
    }
  }

  lemma {:induction false} FoldConcat(sha: Sha, domain: Domain, d: Digest, p: seq<Sibling>, q: seq<Sibling>)
    ensures Fold(sha, domain, d, p + q) == Fold(sha, domain, Fold(sha, domain, d, p), q)
    decreases |q|
  {
    hide NodeHash;
    if q == [] {
      assert p + q == p;
    } else {
      assert (p + q)[..|p + q| - 1] == p + q[..|q| - 1];
      FoldConcat(sha, domain, d, p, q[..|q| - 1]);
    }
  }

  function PowerOfTwo(c: nat): nat {
    if c == 0 then 1 else 2 * PowerOfTwo(c - 1)
  }

  /** A path is no longer than the logarithm of the list: at most `c` steps for up to 2^c leaves. */
  lemma {:induction false} PathIsShort(ds: seq<Digest>, i: nat, f: NodeFunction, c: nat)
    requires i < |ds| <= PowerOfTwo(c)
    ensures |Path(ds, i, f)| <= c
    decreases |ds|
  {
    if |ds| > 1 {
      PathIsShort(PairLevel(ds, f), i / 2, f, c - 1);
    }
  }

  lemma DecodeStepOf(s: Sibling)
    ensures DecodeStep(StepOf(s)) == Ok(s)
  {
    FromHexToHex(s.hash);
    assert |Lit("left")| != |Lit("right")|;
  }

  lemma DecodeStepsOf(path: seq<Sibling>)
    ensures DecodeSteps(StepsOf(path)) == Ok(path)
  {
    hide DecodeStep, StepOf;
    var steps := StepsOf(path);
    var results := seq(|steps|, i requires 0 <= i < |steps| => DecodeStep(steps[i]));
    forall i | 0 <= i < |path| ensures results[i] == Ok(path[i]) {
      DecodeStepOf(path[i]);
    }
    var decoded := Collect(results);
    assert decoded.Ok?;
    assert forall i | 0 <= i < |path| :: results[i] == Ok(decoded.value[i]);
    assert decoded.value == path;
  }

  /**
   * Every proof the gateway computes checks: the walk arrives at the root of the list, duplicates or
   * not, in at most ceil(log2 n) steps.
   */
  lemma InclusionComplete(sha: Sha, hexes: seq<Text>, target: Text, c: nat)
    requires target in hexes && Decode(hexes).Ok?
    requires |hexes| <= PowerOfTwo(c)
    ensures var r := ProofOf(sha, hexes, target);
            && r.Ok? && r.value.Some?
            && Ok(r.value.value.root) == RootText(sha, ArtifactDomain, hexes)
            && CheckedRoot(sha, target, r.value.value.proof) == Ok(r.value.value.root)
            && |r.value.value.proof| <= c
  {
    hide Path, RootOf, Fold, LeafHash, DecodeSteps, StepOf, FromHex;
    var datas := Decode(hexes).value;
    var ds := LeafHashes(sha, ArtifactDomain, datas);
    var i := IndexOf(hexes, target);
    var f := NodeFn(sha, ArtifactDomain);
    var decoded := seq(|hexes|, k requires 0 <= k < |hexes| => DecodeOne(hexes[k]));
    assert decoded[i] == Ok(datas[i]);
    FoldPath(sha, ArtifactDomain, ds, i);
    PathIsShort(ds, i, f, c);
    DecodeStepsOf(Path(ds, i, f));
  }

  // ----- soundness -----

  /** The bytes hashed last by the walk: the leaf input, or the node input of the last step. */
  function LastInput(sha: Sha, domain: Domain, data: Bytes, path: seq<Sibling>): Bytes {
    if path == [] then LeafInput(domain, data)
    else
      var s := path[|path| - 1];
      var below := Fold(sha, domain, LeafHash(sha, domain, data), path[..|path| - 1]);
      if s.right then NodeInput(domain, below, s.hash) else NodeInput(domain, s.hash, below)
  }

  lemma FoldHashesLastInput(sha: Sha, domain: Domain, data: Bytes, path: seq<Sibling>)
    ensures Fold(sha, domain, LeafHash(sha, domain, data), path) == sha(LastInput(sha, domain, data, path))
  {
  }

  /** Walks down the tree along the path, comparing what was hashed, to the first difference. */
  function PathCollision(sha: Sha, domain: Domain, t: Tree, data: Bytes, path: seq<Sibling>): (Bytes, Bytes)
    decreases |path|
  {
    var claimed, actual := LastInput(sha, domain, data, path), Input(sha, domain, t);
    if claimed == actual && path != [] && t.Node? then
      var below := if path[|path| - 1].right then t.left else t.right;
      PathCollision(sha, domain, below, data, path[..|path| - 1])
    else (claimed, actual)
  }

  lemma {:induction false} PathSound(sha: Sha, domain: Domain, t: Tree, data: Bytes, path: seq<Sibling>)
    requires Fold(sha, domain, LeafHash(sha, domain, data), path) == Hash(sha, domain, t)
    ensures data in Leaves(t) || Collides(sha, PathCollision(sha, domain, t, data, path))
    decreases |path|
  {
    hide LeafInput, NodeInput, Fold;
    var claimed, actual := LastInput(sha, domain, data, path), Input(sha, domain, t);
    FoldHashesLastInput(sha, domain, data, path);
    if claimed == actual {
      match t
      case Leaf(d) =>
        if path == [] {
          LeafInputInjective(domain, data, d);
        } else {
          LastInputIsNode(sha, domain, data, path, d);
        }
      case Node(l, r) =>
        if path == [] {
          TagsSeparate(domain, data, Hash(sha, domain, l), Hash(sha, domain, r));
        } else {
          EqualInputsEqualChild(sha, domain, l, r, data, path);
          PathSound(sha, domain, if path[|path| - 1].right then l else r, data, path[..|path| - 1]);
        }
    }
  }

  lemma LastInputIsNode(sha: Sha, domain: Domain, data: Bytes, path: seq<Sibling>, d: Bytes)
    requires path != []
    ensures LastInput(sha, domain, data, path) != LeafInput(domain, d)
  {
    hide LeafInput, NodeInput, Fold;
    var s := path[|path| - 1];
    var below := Fold(sha, domain, LeafHash(sha, domain, data), path[..|path| - 1]);
    TagsSeparate(domain, d, if s.right then below else s.hash, if s.right then s.hash else below);
  }

  /** Two node inputs agree, so the running digest, which is 32 bytes long, is the child's hash. */
  lemma EqualInputsEqualChild(sha: Sha, domain: Domain, l: Tree, r: Tree, data: Bytes, path: seq<Sibling>)
    requires path != []
    requires LastInput(sha, domain, data, path) == Input(sha, domain, Node(l, r))
    ensures Fold(sha, domain, LeafHash(sha, domain, data), path[..|path| - 1]) ==
            Hash(sha, domain, if path[|path| - 1].right then l else r)
  {
    hide NodeInput, Fold, Hash;
    var s := path[|path| - 1];
    var below := Fold(sha, domain, LeafHash(sha, domain, data), path[..|path| - 1]);
    var hl: Bytes, hr: Bytes := Hash(sha, domain, l), Hash(sha, domain, r);
    if s.right {
      NodeInputInjective(domain, below, s.hash, hl, hr);
      SplitEqual(below, s.hash, hl, hr);
    } else {
      NodeInputInjective(domain, s.hash, below, hl, hr);
      SplitEqual(s.hash, below, hl, hr);
    }
  }

  /**
   * A proof that checks proves membership: if the walk from any target, over any path of siblings of
   * any length, arrives at the root of a list, the target's bytes are in the list, or the function
   * above computes two different strings with the same SHA-256 digest.
   */
  lemma InclusionSound(sha: Sha, hexes: seq<Text>, target: Text, steps: seq<Step>)
    requires CheckedRoot(sha, target, steps).Ok?
    requires CheckedRoot(sha, target, steps) == RootText(sha, ArtifactDomain, hexes)
    ensures var datas := Decode(hexes).value;
            var data := DecodeOne(target).value;
            data in datas || Collides(sha, PathCollision(sha, ArtifactDomain, TreeOf(datas), data, DecodeSteps(steps).value))
  {
    hide Fold, Root, LeafHash, PathCollision;
    var datas, data, path := Decode(hexes).value, DecodeOne(target).value, DecodeSteps(steps).value;
    DigestTextInjective(Fold(sha, ArtifactDomain, LeafHash(sha, ArtifactDomain, data), path), Root(sha, ArtifactDomain, datas));
    RootIsTreeHash(sha, ArtifactDomain, datas);
    PathSound(sha, ArtifactDomain, TreeOf(datas), data, path);
  }

  // ----- binding -----

  /** Walks down two trees with the same hash to the first pair of different inputs. */
  function TreeCollision(sha: Sha, domain: Domain, s: Tree, t: Tree): (Bytes, Bytes) {
    var a, b := Input(sha, domain, s), Input(sha, domain, t);
    if a == b && s.Node? && t.Node? then
      if s.left != t.left then TreeCollision(sha, domain, s.left, t.left)
      else TreeCollision(sha, domain, s.right, t.right)
    else (a, b)
  }

  lemma HashIsHashOfInput(sha: Sha, domain: Domain, t: Tree)
    ensures Hash(sha, domain, t) == sha(Input(sha, domain, t))
  {
  }

  lemma {:induction false} HashBindsTree(sha: Sha, domain: Domain, s: Tree, t: Tree)
    requires Hash(sha, domain, s) == Hash(sha, domain, t)
    ensures s == t || Collides(sha, TreeCollision(sha, domain, s, t))
  {
    hide LeafInput, NodeInput, Hash;
    HashIsHashOfInput(sha, domain, s);
    HashIsHashOfInput(sha, domain, t);
    if Input(sha, domain, s) == Input(sha, domain, t) {
      match (s, t)
      case (Leaf(d), Leaf(e)) => LeafInputInjective(domain, d, e);
      case (Leaf(d), Node(l, r)) => TagsSeparate(domain, d, Hash(sha, domain, l), Hash(sha, domain, r));
      case (Node(l, r), Leaf(d)) => TagsSeparate(domain, d, Hash(sha, domain, l), Hash(sha, domain, r));
      case (Node(a, b), Node(c, d)) =>
        var ha, hb, hc, hd := Hash(sha, domain, a), Hash(sha, domain, b), Hash(sha, domain, c), Hash(sha, domain, d);
        NodeInputInjective(domain, ha, hb, hc, hd);
        SplitEqual(ha, hb, hc, hd);
        HashBindsTree(sha, domain, a, c);
        HashBindsTree(sha, domain, b, d);
    }
  }

  /** Lists with equal roots are equal as lists of byte strings, whatever their lengths, or a collision is computed. */
  lemma RootBindsList(sha: Sha, domain: Domain, xs: seq<Text>, ys: seq<Text>)
    requires RootText(sha, domain, xs).Ok?
    requires RootText(sha, domain, xs) == RootText(sha, domain, ys)
    ensures var a, b := Decode(xs).value, Decode(ys).value;
            a == b || Collides(sha, TreeCollision(sha, domain, TreeOf(a), TreeOf(b)))
  {
    hide Root, TreeCollision;
    var a, b := Decode(xs).value, Decode(ys).value;
    DigestTextInjective(Root(sha, domain, a), Root(sha, domain, b));
    RootIsTreeHash(sha, domain, a);
    RootIsTreeHash(sha, domain, b);
    HashBindsTree(sha, domain, TreeOf(a), TreeOf(b));
  }
}
