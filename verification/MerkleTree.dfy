/** The shape and the hashes of the gateway's Merkle trees. */
module MerkleTree {
  import opened Basics
  import opened Sha256

  /** The two pairs of domain tags: receipts only (legacy), and all signed artifacts. */
  datatype Domain = ReceiptDomain | ArtifactDomain

  function Tag(domain: Domain, leaf: bool): (t: Bytes)
    ensures |t| > 12
    ensures t[12] == if domain.ReceiptDomain? then (if leaf then 0x45 else 0x4F) else (if leaf then 0x4C else 0x4E)
  {
    match (domain, leaf)
    case (ReceiptDomain, true) => AsciiBytes("BI_RECEIPT_LEAF_V1")
    case (ReceiptDomain, false) => AsciiBytes("BI_RECEIPT_NODE_V1")
    case (ArtifactDomain, true) => AsciiBytes("BI_ARTIFACT_LEAF_V1")
    case (ArtifactDomain, false) => AsciiBytes("BI_ARTIFACT_NODE_V1")
  }

  function AsciiBytes(s: string): (b: Bytes)
    requires forall i | 0 <= i < |s| :: s[i] < 128 as char
    ensures |b| == |s| && forall i | 0 <= i < |s| :: b[i] == s[i] as int
  {
    seq(|s|, i requires 0 <= i < |s| => s[i] as int)
  }

  function LeafInput(domain: Domain, data: Bytes): Bytes {
    Tag(domain, true) + [0] + data
  }

  function NodeInput(domain: Domain, left: Bytes, right: Bytes): Bytes {
    Tag(domain, false) + [0] + left + right
  }

  /** `leaf_hash`, `unified_leaf_hash`, after `bytes.fromhex`. */
  function LeafHash(sha: Sha, domain: Domain, data: Bytes): Digest {
    sha(LeafInput(domain, data))
  }

  /** `node_hash`, `unified_node_hash`: the arguments may have any length. */
  function NodeHash(sha: Sha, domain: Domain, left: Bytes, right: Bytes): Digest {
    sha(NodeInput(domain, left, right))
  }

  /** Leaf inputs and node inputs never coincide: the tags differ. */
  lemma TagsSeparate(domain: Domain, data: Bytes, left: Bytes, right: Bytes)
    ensures LeafInput(domain, data) != NodeInput(domain, left, right)
  {
    assert LeafInput(domain, data)[12] == Tag(domain, true)[12];
    assert NodeInput(domain, left, right)[12] == Tag(domain, false)[12];
  }

  lemma LeafInputInjective(domain: Domain, a: Bytes, b: Bytes)
    requires LeafInput(domain, a) == LeafInput(domain, b)
    ensures a == b
  {
    SplitEqual(Tag(domain, true) + [0], a, Tag(domain, true) + [0], b);
  }

  lemma NodeInputInjective(domain: Domain, a: Bytes, b: Bytes, c: Bytes, d: Bytes)
    requires NodeInput(domain, a, b) == NodeInput(domain, c, d)
    ensures a + b == c + d
  {
    var p := Tag(domain, false) + [0];
    assert p + (a + b) == p + a + b && p + (c + d) == p + c + d;
    SplitEqual(p, a + b, p, c + d);
  }

  // ----- trees -----

  datatype Tree = Leaf(data: Bytes) | Node(left: Tree, right: Tree)

  function Input(sha: Sha, domain: Domain, t: Tree): Bytes {
    match t
    case Leaf(data) => LeafInput(domain, data)
    case Node(l, r) => NodeInput(domain, Hash(sha, domain, l), Hash(sha, domain, r))
  }

  function Hash(sha: Sha, domain: Domain, t: Tree): Digest {
    match t
    case Leaf(data) => LeafHash(sha, domain, data)
    case Node(l, r) => NodeHash(sha, domain, Hash(sha, domain, l), Hash(sha, domain, r))
  }

  /** The data of the leaves, from left to right. */
  function Leaves(t: Tree): seq<Bytes> {
    match t
    case Leaf(data) => [data]
    case Node(l, r) => Leaves(l) + Leaves(r)
  }

  /** One level from the one below: neighbours are paired, an odd last one is promoted. */
  function PairUp(ts: seq<Tree>): (r: seq<Tree>)
    ensures |r| == (|ts| + 1) / 2
  {
    if |ts| < 2 then ts else [Node(ts[0], ts[1])] + PairUp(ts[2..])
  }

  /** The tree the levels build. */
  function LevelTree(ts: seq<Tree>): Tree
    requires ts != []
    decreases |ts|
  {
    if |ts| == 1 then ts[0] else LevelTree(PairUp(ts))
  }

  function LeafTrees(datas: seq<Bytes>): seq<Tree> {
    seq(|datas|, i requires 0 <= i < |datas| => Leaf(datas[i]))
  }

  // ----- levels of hashes, as the code keeps them -----

  type NodeFunction = (Digest, Digest) -> Digest

  function NodeFn(sha: Sha, domain: Domain): NodeFunction {
    (l, r) => NodeHash(sha, domain, l, r)
  }

  function PairLevel(ds: seq<Digest>, f: NodeFunction): (r: seq<Digest>)
    ensures |r| == (|ds| + 1) / 2
  {
    if |ds| < 2 then ds else [f(ds[0], ds[1])] + PairLevel(ds[2..], f)
  }

  /** All levels, the leaves first. */
  function Levels(ds: seq<Digest>, f: NodeFunction): (r: seq<seq<Digest>>)
    requires ds != []
    ensures r != [] && r[0] == ds && |r[|r| - 1]| == 1
    decreases |ds|
  {
    if |ds| == 1 then [ds] else [ds] + Levels(PairLevel(ds, f), f)
  }

  function RootOf(ds: seq<Digest>, f: NodeFunction): Digest
    requires ds != []
    decreases |ds|
  {
    if |ds| == 1 then ds[0] else RootOf(PairLevel(ds, f), f)
  }

  lemma {:induction false} RootIsLastLevel(ds: seq<Digest>, f: NodeFunction)
    requires ds != []
    ensures Levels(ds, f)[|Levels(ds, f)| - 1] == [RootOf(ds, f)]
    decreases |ds|
  {
    if |ds| > 1 {
      RootIsLastLevel(PairLevel(ds, f), f);
    }
  }

  // ----- the levels of hashes hash the tree -----

  function Hashes(sha: Sha, domain: Domain, ts: seq<Tree>): (r: seq<Digest>)
    ensures |r| == |ts|
  {
    seq(|ts|, i requires 0 <= i < |ts| => Hash(sha, domain, ts[i]))
  }

  lemma HashesCons(sha: Sha, domain: Domain, t: Tree, ts: seq<Tree>)
    ensures Hashes(sha, domain, [t] + ts) == [Hash(sha, domain, t)] + Hashes(sha, domain, ts)
  {
    hide Hash;
  }

  lemma {:induction false} PairUpHashes(sha: Sha, domain: Domain, ts: seq<Tree>)
    ensures Hashes(sha, domain, PairUp(ts)) == PairLevel(Hashes(sha, domain, ts), NodeFn(sha, domain))
  {
    hide NodeHash;
    if |ts| >= 2 {
      PairUpHashes(sha, domain, ts[2..]);
      assert Hashes(sha, domain, ts)[2..] == Hashes(sha, domain, ts[2..]);
      HashesCons(sha, domain, Node(ts[0], ts[1]), PairUp(ts[2..]));
    }
  }

  lemma {:induction false} RootHashesTree(sha: Sha, domain: Domain, ts: seq<Tree>)
    requires ts != []
    ensures RootOf(Hashes(sha, domain, ts), NodeFn(sha, domain)) == Hash(sha, domain, LevelTree(ts))
    decreases |ts|
  {
    if |ts| > 1 {
      PairUpHashes(sha, domain, ts);
      RootHashesTree(sha, domain, PairUp(ts));
    }
  }

  // ----- the tree keeps every leaf, in order -----

  function AllLeaves(ts: seq<Tree>): seq<Bytes> {
    if ts == [] then [] else Leaves(ts[0]) + AllLeaves(ts[1..])
  }

  lemma {:induction false} PairUpKeepsLeaves(ts: seq<Tree>)
    ensures AllLeaves(PairUp(ts)) == AllLeaves(ts)
  {
    if |ts| >= 2 {
      PairUpKeepsLeaves(ts[2..]);
      var p := PairUp(ts);
      assert p[0] == Node(ts[0], ts[1]) && p[1..] == PairUp(ts[2..]);
      assert ts[1..][0] == ts[1] && ts[1..][1..] == ts[2..];
      assert AllLeaves(ts) == Leaves(ts[0]) + (Leaves(ts[1]) + AllLeaves(ts[2..]));
      assert AllLeaves(p) == Leaves(ts[0]) + Leaves(ts[1]) + AllLeaves(ts[2..]);
    }
  }

  lemma {:induction false} LevelTreeLeaves(ts: seq<Tree>)
    requires ts != []
    ensures Leaves(LevelTree(ts)) == AllLeaves(ts)
    decreases |ts|
  {
    if |ts| == 1 {
      assert ts[1..] == [];
      assert AllLeaves(ts) == Leaves(ts[0]) + [];
    } else {
      PairUpKeepsLeaves(ts);
      LevelTreeLeaves(PairUp(ts));
    }
  }

  lemma {:induction false} LeavesOfLeafTrees(datas: seq<Bytes>)
    ensures AllLeaves(LeafTrees(datas)) == datas
  {
    if datas != [] {
      assert LeafTrees(datas)[1..] == LeafTrees(datas[1..]);
      LeavesOfLeafTrees(datas[1..]);
      assert datas == [datas[0]] + datas[1..];
    }
  }

  // ----- roots and paths of a list of leaf data -----

  function LeafHashes(sha: Sha, domain: Domain, datas: seq<Bytes>): (r: seq<Digest>)
    ensures |r| == |datas|
  {
    seq(|datas|, i requires 0 <= i < |datas| => LeafHash(sha, domain, datas[i]))
  }

  /** The Merkle root of a list, computed level by level. */
  function Root(sha: Sha, domain: Domain, datas: seq<Bytes>): Digest
    requires datas != []
  {
    RootOf(LeafHashes(sha, domain, datas), NodeFn(sha, domain))
  }

  function TreeOf(datas: seq<Bytes>): Tree
    requires datas != []
  {
    LevelTree(LeafTrees(datas))
  }

  lemma RootIsTreeHash(sha: Sha, domain: Domain, datas: seq<Bytes>)
    requires datas != []
    ensures Root(sha, domain, datas) == Hash(sha, domain, TreeOf(datas))
    ensures Leaves(TreeOf(datas)) == datas
  {
    assert Hashes(sha, domain, LeafTrees(datas)) == LeafHashes(sha, domain, datas);
    RootHashesTree(sha, domain, LeafTrees(datas));
    LevelTreeLeaves(LeafTrees(datas));
    LeavesOfLeafTrees(datas);
  }

  /** A sibling on the way up, and whether it stands to the right. */
  datatype Sibling = Sibling(hash: Bytes, right: bool)

  /** The siblings of position `i` on its way from level `ds` to the root; a promoted node has none. */
  function Path(ds: seq<Digest>, i: nat, f: NodeFunction): seq<Sibling>
    requires i < |ds|
    decreases |ds|
  {
    if |ds| == 1 then [] else SiblingAt(ds, i) + Path(PairLevel(ds, f), i / 2, f)
  }

  function SiblingAt(ds: seq<Digest>, i: nat): seq<Sibling>
    requires i < |ds|
  {
    if i % 2 == 1 then [Sibling(ds[i - 1], false)]
    else if i + 1 < |ds| then [Sibling(ds[i + 1], true)]
    else []
  }

  /** What the offline checker computes from a leaf hash and a path. */
  function Fold(sha: Sha, domain: Domain, current: Digest, path: seq<Sibling>): Digest {
    if path == [] then current
    else
      var s := path[|path| - 1];
      var below := Fold(sha, domain, current, path[..|path| - 1]);
      if s.right then NodeHash(sha, domain, below, s.hash) else NodeHash(sha, domain, s.hash, below)
  }
}
