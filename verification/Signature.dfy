/** What a standard-profile signature consists of, node by node, independently of how the buffer is
    filled: the randomizer, then one part per FORS tree, then one part per hypertree layer. */
module Signature {
  import opened Bits
  import opened Bytes
  import opened Params
  import opened Hashing
  import opened Wots
  import opened Trees

  /** Everything the body of a signature depends on once the digest has been split into indices. */
  datatype Job = Job(P: Params, tw: Tweak, skSeed: Digest, at: Decoded) {
    predicate Valid() {
      && P.Standard()
      && at.leaf < P.leavesPerSubtree
      && |at.fields| == P.k && forall i :: 0 <= i < P.k ==> at.fields[i] < P.forsLeaves
    }
  }

  // ---------------------------------------------------------------- the walk through the hypertree

  /** The tree index at layer `m`: the digest's index shifted down by one subtree height per layer. */
  function TreeAt(P: Params, tree: nat, m: nat): nat {
    if m == 0 then tree else Shr(TreeAt(P, tree, m - 1), P.subtreeH)
  }

  /** The leaf index at layer `m`: the low bits of the tree index one layer below. */
  function LeafAt(P: Params, tree: nat, leaf: nat, m: nat): (r: nat)
    requires leaf < P.leavesPerSubtree == Pow2(P.subtreeH)
    ensures r < P.leavesPerSubtree
  {
    if m == 0 then leaf
    else
      AndMask(TreeAt(P, tree, m - 1), P.subtreeH);
      And(TreeAt(P, tree, m - 1), P.leavesPerSubtree - 1)
  }

  lemma {:induction false} TreeAtIsShift(P: Params, tree: nat, m: nat)
    ensures TreeAt(P, tree, m) == Shr(tree, m * P.subtreeH)
  {
    if m == 0 {
    } else {
      TreeAtIsShift(P, tree, m - 1);
      ShrAdd(tree, (m - 1) * P.subtreeH, P.subtreeH);
      assert (m - 1) * P.subtreeH + P.subtreeH == m * P.subtreeH;
    }
  }

  /** The walk always ends in tree 0 at the top layer, whatever the digest was. */
  lemma TopLayerIsTreeZero(P: Params, tree: nat)
    requires P.Standard() && P.h >= P.subtreeH && tree < Pow2(P.h - P.subtreeH)
    ensures TreeAt(P, tree, P.d - 1) == 0
  {
    HeightCoversSubtree(P);
    TreeAtIsShift(P, tree, P.d - 1);
    ShrBound(tree, (P.d - 1) * P.subtreeH, 0);
  }

  // ---------------------------------------------------------------- the parts

  /** One FORS tree: the revealed secret, then its authentication path. */
  function ForsPart(j: Job, i: nat): (r: seq<Node>)
    requires j.Valid() && i < j.P.k
    ensures |r| == 1 + j.P.a
  {
    [ForsSk(j.tw.keccak, j.skSeed, Big(j.at.tree), j.at.leaf, i, j.at.fields[i])]
    + ForsAuth(j.P, j.tw, j.skSeed, Big(j.at.tree), j.at.leaf, i, j.at.fields[i])
  }

  function ForsParts(j: Job, n: nat): seq<Node>
    requires j.Valid() && n <= j.P.k
  {
    if n == 0 then [] else ForsParts(j, n - 1) + ForsPart(j, n - 1)
  }

  /** The signature as far as the first `n` FORS trees. */
  function ForsPrefix(j: Job, R: Node, n: nat): seq<Node>
    requires j.Valid() && n <= j.P.k
  {
    [R] + ForsParts(j, n)
  }

  /** The node that layer `m` signs: the FORS public key, then the root of each layer below. */
  function NodeAt(j: Job, m: nat): Node
    requires j.Valid() && m <= j.P.d
  {
    if m == 0 then ForsCompress(j.tw, Big(j.at.tree), j.at.leaf,
        ForsRoots(j.P, j.tw, j.skSeed, Big(j.at.tree), j.at.leaf, j.P.k))
    else SubtreeRoot(j.P, j.tw, j.skSeed, m - 1, Big(TreeAt(j.P, j.at.tree, m - 1)))
  }

  /** The first `n` chain values of a WOTS signature on `node`: each chain advanced by its digit. */
  function WotsSig(tw: Tweak, skSeed: Digest, layer: nat, tree: TreeIndex, keypair: nat, node: Node,
      n: nat): (r: seq<Node>)
    requires n <= SPX_L
    ensures |r| == n
  {
    if n == 0 then [] else
      WotsSig(tw, skSeed, layer, tree, keypair, node, n - 1)
      + [Chain(tw, layer, tree, keypair, n - 1, WotsSk(tw.keccak, skSeed, layer, tree, keypair, n - 1), 0,
          Digit(node, n - 1))]
  }

  /** One hypertree layer: the WOTS signature on the node below, then the path to the subtree root. */
  function LayerPart(j: Job, m: nat): (r: seq<Node>)
    requires j.Valid() && m < j.P.d
    ensures |r| == SPX_L + j.P.subtreeH
  {
    var tree, leaf := Big(TreeAt(j.P, j.at.tree, m)), LeafAt(j.P, j.at.tree, j.at.leaf, m);
    WotsSig(j.tw, j.skSeed, m, tree, leaf, NodeAt(j, m), SPX_L)
    + SubtreeAuth(j.P, j.tw, j.skSeed, m, tree, leaf)
  }

  function LayerParts(j: Job, n: nat): seq<Node>
    requires j.Valid() && n <= j.P.d
  {
    if n == 0 then [] else LayerParts(j, n - 1) + LayerPart(j, n - 1)
  }

  /** The whole signature as a sequence of 16-byte nodes. */
  function SigNodes(j: Job, R: Node): seq<Node>
    requires j.Valid()
  {
    ForsPrefix(j, R, j.P.k) + LayerParts(j, j.P.d)
  }

  // ---------------------------------------------------------------- one node per key pair

  /** Whatever two digests decode to under one key, a Winternitz key pair that both walks come to signs the same
      node in both: no state has to be kept for it to be used once. */
  lemma KeyPairSignsOneNode(j: Job, j': Job, m: nat)
    requires j.Valid() && j'.Valid() && m < j.P.d
    requires j.P == j'.P && j.tw == j'.tw && j.skSeed == j'.skSeed
    requires TreeAt(j.P, j.at.tree, m) == TreeAt(j.P, j'.at.tree, m)
    requires LeafAt(j.P, j.at.tree, j.at.leaf, m) == LeafAt(j.P, j'.at.tree, j'.at.leaf, m)
    ensures NodeAt(j, m) == NodeAt(j', m)
    ensures LayerPart(j, m) == LayerPart(j', m)
  {
    hide ForsCompress, ForsRoots, SubtreeRoot, SubtreeAuth, WotsSig, And, Shr, Pow2;
    if m > 0 { WalkIsInjective(j.P, j.at.tree, j'.at.tree, m); }
  }

  /** The tree and the leaf at a layer tell the tree one layer below. */
  lemma WalkIsInjective(P: Params, tree: nat, tree': nat, m: nat)
    requires P.leavesPerSubtree == Pow2(P.subtreeH) && m > 0
    requires TreeAt(P, tree, m) == TreeAt(P, tree', m)
    requires And(TreeAt(P, tree, m - 1), P.leavesPerSubtree - 1) == And(TreeAt(P, tree', m - 1), P.leavesPerSubtree - 1)
    ensures TreeAt(P, tree, m - 1) == TreeAt(P, tree', m - 1)
  {
    hide Shl, Shr, Low, And, Pow2;
    var below, below' := TreeAt(P, tree, m - 1), TreeAt(P, tree', m - 1);
    AndMask(below, P.subtreeH);
    AndMask(below', P.subtreeH);
    ShrLow(below, P.subtreeH);
    ShrLow(below', P.subtreeH);
  }

  // ---------------------------------------------------------------- where the parts lie

  lemma {:induction false} ForsPartsLength(j: Job, n: nat)
    requires j.Valid() && n <= j.P.k
    ensures |ForsParts(j, n)| == n * (1 + j.P.a)
    ensures 16 + 16 * |ForsParts(j, n)| == j.P.forsOff + n * j.P.forsPerTree
  {
    if n != 0 {
      ForsPartsLength(j, n - 1);
      assert (n - 1) * (1 + j.P.a) + (1 + j.P.a) == n * (1 + j.P.a);
      assert (n - 1) * j.P.forsPerTree + j.P.forsPerTree == n * j.P.forsPerTree;
    }
  }

  lemma {:induction false} LayerPartsLength(j: Job, n: nat)
    requires j.Valid() && n <= j.P.d
    ensures 16 * |LayerParts(j, n)| == n * j.P.htLayerLen
  {
    hide LayerPart;
    if n != 0 {
      LayerPartsLength(j, n - 1);
      assert (n - 1) * j.P.htLayerLen + j.P.htLayerLen == n * j.P.htLayerLen;
    }
  }

  /** The parts tile the buffer: laid side by side they fill exactly `sigLen` bytes, the FORS parts
      ending and the layers beginning at `htOff`. */
  lemma PartsTileTheSignature(j: Job, R: Node)
    requires j.Valid()
    ensures 16 * |SigNodes(j, R)| == j.P.sigLen
    ensures 16 * |ForsPrefix(j, R, j.P.k)| == j.P.htOff
  {
    ForsPartsLength(j, j.P.k);
    LayerPartsLength(j, j.P.d);
  }

  lemma {:induction false} ForsPartsGrow(j: Job, i: nat, n: nat)
    requires j.Valid() && i < n <= j.P.k
    ensures ForsParts(j, i) + ForsPart(j, i) <= ForsParts(j, n)
  {
    hide ForsPart;
    if i < n - 1 { ForsPartsGrow(j, i, n - 1); }
  }

  lemma {:induction false} LayerPartsGrow(j: Job, i: nat, n: nat)
    requires j.Valid() && i < n <= j.P.d
    ensures LayerParts(j, i) + LayerPart(j, i) <= LayerParts(j, n)
  {
    hide LayerPart;
    if i < n - 1 { LayerPartsGrow(j, i, n - 1); }
  }
}
