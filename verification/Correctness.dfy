/** Every signature the signer produces is accepted by the verifier under the derived public key. */
module Correctness {
  import opened Bits
  import opened Bytes
  import opened Params
  import opened Hashing
  import opened Merkle
  import opened Wots
  import opened Trees
  import opened Signature
  import opened Signer
  import opened Verifier
  import opened Wrappers

  // ---------------------------------------------------------------- reads return what was written

  /** Reading `|nodes|` nodes from `off` on yields exactly `nodes`. */
  predicate NodesAt(sig: Bytes, off: nat, nodes: seq<Node>) {
    off + 16 * |nodes| <= |sig| && ReadNodes(sig, off, |nodes|) == nodes
  }

  predicate ForsTreeAt(j: Job, sig: Bytes, i: nat)
    requires j.Valid() && i < j.P.k
  {
    NodesAt(sig, j.P.forsOff + i * j.P.forsPerTree, ForsPart(j, i))
  }

  predicate LayerAt(j: Job, sig: Bytes, m: nat)
    requires j.Valid() && m < j.P.d
  {
    NodesAt(sig, j.P.htOff + m * j.P.htLayerLen, LayerPart(j, m))
  }

  /** At every offset the verifier reads from, it finds the value the signer computed for that place. */
  ghost predicate Carries(j: Job, R: Node, sig: Bytes)
    requires j.Valid()
  {
    && |sig| == j.P.sigLen && NodesAt(sig, 0, [R])
    && (forall i :: 0 <= i < j.P.k ==> ForsTreeAt(j, sig, i))
    && (forall m :: 0 <= m < j.P.d ==> LayerAt(j, sig, m))
  }

  lemma {:induction false} ReadNodesOfFlat(nodes: seq<Node>, x: nat, n: nat)
    requires x + n <= |nodes|
    ensures ReadNodes(Flat(nodes), 16 * x, n) == nodes[x..x + n]
  {
    hide Flat;
    if n != 0 {
      ReadNodesOfFlat(nodes, x, n - 1);
      FlatAt(nodes, x + n - 1);
      assert nodes[x..x + n] == nodes[x..x + n - 1] + [nodes[x + n - 1]];
    }
  }

  lemma PieceIsFound(nodes: seq<Node>, before: seq<Node>, piece: seq<Node>)
    requires before + piece <= nodes
    ensures NodesAt(Flat(nodes), 16 * |before|, piece)
  {
    hide Flat, ReadNodes;
    ReadNodesOfFlat(nodes, |before|, |piece|);
    assert nodes[|before|..|before| + |piece|] == (before + piece)[|before|..] == piece;
  }

  lemma ForsTreeIsFound(j: Job, R: Node, i: nat)
    requires j.Valid() && i < j.P.k
    ensures ForsTreeAt(j, Flat(SigNodes(j, R)), i)
  {
    hide Flat, ForsPart, LayerParts, NodesAt, ForsParts;
    ForsPartsGrow(j, i, j.P.k);
    ForsPartsLength(j, i);
    var before := [R] + ForsParts(j, i);
    assert before + ForsPart(j, i) ==
        [R] + (ForsParts(j, i) + ForsPart(j, i)) <= ForsPrefix(j, R, j.P.k) <= SigNodes(j, R);
    PieceIsFound(SigNodes(j, R), before, ForsPart(j, i));
  }

  lemma LayerIsFound(j: Job, R: Node, m: nat)
    requires j.Valid() && m < j.P.d
    ensures LayerAt(j, Flat(SigNodes(j, R)), m)
  {
    hide Flat, LayerPart, LayerParts, NodesAt, ForsPrefix;
    PartsTileTheSignature(j, R);
    LayerPartsGrow(j, m, j.P.d);
    LayerPartsLength(j, m);
    var before := ForsPrefix(j, R, j.P.k) + LayerParts(j, m);
    assert before + LayerPart(j, m) == ForsPrefix(j, R, j.P.k) + (LayerParts(j, m) + LayerPart(j, m)) <= SigNodes(j, R);
    PieceIsFound(SigNodes(j, R), before, LayerPart(j, m));
  }

  /** The signer's buffer carries every part where the verifier reads it. */
  lemma SignatureCarriesParts(j: Job, R: Node)
    requires j.Valid()
    ensures Carries(j, R, Flat(SigNodes(j, R)))
  {
    hide Flat, LayerAt, ForsTreeAt, NodesAt, LayerParts, ForsParts;
    PartsTileTheSignature(j, R);
    assert [] + [R] <= SigNodes(j, R);
    PieceIsFound(SigNodes(j, R), [], [R]);
    forall i | 0 <= i < j.P.k ensures ForsTreeAt(j, Flat(SigNodes(j, R)), i) { ForsTreeIsFound(j, R, i); }
    forall m | 0 <= m < j.P.d ensures LayerAt(j, Flat(SigNodes(j, R)), m) { LayerIsFound(j, R, m); }
  }

  /** Reading a split piece: its first node, or its front, and the rest. */
  lemma {:induction false} ReadNodesSplit(sig: Bytes, off: nat, n: nat, m: nat)
    requires off + 16 * (n + m) <= |sig|
    ensures ReadNodes(sig, off, n + m) == ReadNodes(sig, off, n) + ReadNodes(sig, off + 16 * n, m)
  {
    if m != 0 { ReadNodesSplit(sig, off, n, m - 1); }
  }

  // ---------------------------------------------------------------- FORS

  lemma ForsCandidateIsRoot(j: Job, sig: Bytes, i: nat, off: nat)
    requires j.Valid() && i < j.P.k && NodesAt(sig, off, ForsPart(j, i))
    ensures ForsCandidate(j.P, j.tw, sig, j.at, i, off) == ForsRoot(j.P, j.tw, j.skSeed, Big(j.at.tree), j.at.leaf, i)
  {
    hide ForsLeafHash, ForsLeaves, ForsSk, Climb, Root, AuthPath, Pow2, ReadNodes;
    var P, tree, leaf, field := j.P, Big(j.at.tree), j.at.leaf, j.at.fields[i];
    ReadNodesSplit(sig, off, 1, P.a);
    ReadOne(sig, off);
    assert ReadNode(sig, off) == ForsPart(j, i)[0];
    assert ReadNodes(sig, off + 16, P.a) == ForsPart(j, i)[1..] == ForsAuth(P, j.tw, j.skSeed, tree, leaf, i, field);
    var leaves := ForsTreeLeaves(P, j.tw, j.skSeed, tree, leaf, i);
    ForsLeavesAt(j.tw, j.skSeed, P.a, tree, leaf, i, 0, P.forsLeaves, field);
    ClimbReachesRoot(ForsHash(j.tw, P.a, tree, leaf, i), 0, leaves, P.a, field);
  }

  lemma ReadOne(sig: Bytes, off: nat)
    requires off + 16 <= |sig|
    ensures ReadNodes(sig, off, 1) == [ReadNode(sig, off)]
  {
    assert ReadNodes(sig, off, 0) == [];
  }

  lemma {:induction false} ForsCandidatesAreRoots(j: Job, R: Node, sig: Bytes, n: nat)
    requires j.Valid() && n <= j.P.k && Carries(j, R, sig)
    ensures ForsCandidates(j.P, j.tw, sig, j.at, n) == ForsRoots(j.P, j.tw, j.skSeed, Big(j.at.tree), j.at.leaf, n)
  {
    hide ForsCandidate, ForsRoot, Pow2, NodesAt, ForsPart;
    if n != 0 {
      ForsCandidatesAreRoots(j, R, sig, n - 1);
      ForsOffsetFits(j.P, n - 1);
      assert ForsTreeAt(j, sig, n - 1);
      ForsCandidateIsRoot(j, sig, n - 1, j.P.forsOff + (n - 1) * j.P.forsPerTree);
    }
  }

  // ---------------------------------------------------------------- one hypertree layer

  /** Continuing every chain from the signed value to its end gives the chain ends of the public key. */
  lemma {:induction false} CandidateEndsAreChainEnds(tw: Tweak, skSeed: Digest, sig: Bytes, off: nat, layer: nat,
      tree: TreeIndex, leaf: nat, node: Node, n: nat)
    requires n <= SPX_L && off + 16 * n <= |sig|
    requires ReadNodes(sig, off, n) == WotsSig(tw, skSeed, layer, tree, leaf, node, n)
    ensures CandidateEnds(tw, sig, off, layer, tree, leaf, node, n) == ChainEnds(tw, skSeed, layer, tree, leaf, n)
  {
    hide Chain, WotsSk, Digit;
    if n != 0 {
      var found, sigs := ReadNodes(sig, off, n), WotsSig(tw, skSeed, layer, tree, leaf, node, n);
      assert found[..n - 1] == sigs[..n - 1] && found[n - 1] == sigs[n - 1];
      CandidateEndsAreChainEnds(tw, skSeed, sig, off, layer, tree, leaf, node, n - 1);
      ChainComposes(tw, layer, tree, leaf, n - 1, WotsSk(tw.keccak, skSeed, layer, tree, leaf, n - 1), 0,
          Digit(node, n - 1), SPX_W - 1);
    }
  }

  /** A layer that carries a WOTS signature on `node` and the leaf's path leads to the subtree root. */
  lemma LayerCandidateIsRoot(P: Params, tw: Tweak, skSeed: Digest, sig: Bytes, off: nat, layer: nat, tree: TreeIndex,
      leaf: nat, node: Node)
    requires P.Standard() && off + P.htLayerLen <= |sig| && leaf < P.leavesPerSubtree
    requires ReadNodes(sig, off, SPX_L) == WotsSig(tw, skSeed, layer, tree, leaf, node, SPX_L)
    requires ReadNodes(sig, off + P.wotsSigLen, P.subtreeH) == SubtreeAuth(P, tw, skSeed, layer, tree, leaf)
    ensures LayerCandidate(P, tw, sig, off, layer, tree, leaf, node) == SubtreeRoot(P, tw, skSeed, layer, tree)
  {
    hide CandidateEnds, ChainEnds, WotsSig, PublicKeys, Climb, Root, AuthPath, Words, Pow2, ReadNodes;
    CandidateEndsAreChainEnds(tw, skSeed, sig, off, layer, tree, leaf, node, SPX_L);
    var leaves := SubtreeLeaves(P, tw, skSeed, layer, tree);
    PublicKeysAt(tw, skSeed, layer, tree, 0, P.leavesPerSubtree, leaf);
    ClimbReachesRoot(SubtreeHash(tw, layer, tree), 0, leaves, P.subtreeH, leaf);
  }

  // ---------------------------------------------------------------- the whole walk

  /** After every layer the verifier holds exactly the node the signer signed next. */
  lemma {:induction false} CandidateNodesAreSignedNodes(j: Job, R: Node, sig: Bytes, m: nat)
    requires j.Valid() && m <= j.P.d && Carries(j, R, sig)
    ensures CandidateNode(j.P, j.tw, sig, j.at, m) == NodeAt(j, m)
  {
    hide ForsCandidates, ForsRoots, LayerCandidate, SubtreeRoot, TreeAt, LeafAt, Pow2, LayerPart, ForsPart, NodesAt;
    if m == 0 {
      ForsCandidatesAreRoots(j, R, sig, j.P.k);
    } else {
      CandidateNodesAreSignedNodes(j, R, sig, m - 1);
      LayerOffsetFits(j.P, m - 1);
      assert LayerAt(j, sig, m - 1);
      LayerStep(j, sig, m - 1, j.P.htOff + (m - 1) * j.P.htLayerLen);
    }
  }

  lemma LayerStep(j: Job, sig: Bytes, m: nat, off: nat)
    requires j.Valid() && m < j.P.d && NodesAt(sig, off, LayerPart(j, m))
    ensures off + j.P.htLayerLen <= |sig|
    ensures LayerCandidate(j.P, j.tw, sig, off, m, Big(TreeAt(j.P, j.at.tree, m)),
        LeafAt(j.P, j.at.tree, j.at.leaf, m), NodeAt(j, m))
         == SubtreeRoot(j.P, j.tw, j.skSeed, m, Big(TreeAt(j.P, j.at.tree, m)))
  {
    hide LayerCandidate, SubtreeRoot, TreeAt, LeafAt, NodeAt, WotsSig, SubtreeAuth, Pow2, ReadNodes;
    var P, tree, leaf, node := j.P, Big(TreeAt(j.P, j.at.tree, m)), LeafAt(j.P, j.at.tree, j.at.leaf, m), NodeAt(j, m);
    ReadNodesSplit(sig, off, SPX_L, P.subtreeH);
    var part := LayerPart(j, m);
    assert ReadNodes(sig, off, SPX_L) == part[..SPX_L] == WotsSig(j.tw, j.skSeed, m, tree, leaf, node, SPX_L);
    assert ReadNodes(sig, off + P.wotsSigLen, P.subtreeH) == part[SPX_L..] ==
        SubtreeAuth(P, j.tw, j.skSeed, m, tree, leaf);
    LayerCandidateIsRoot(P, j.tw, j.skSeed, sig, off, m, tree, leaf, node);
  }

  /** The owner's signature under any randomizer verifies. */
  lemma GenuineIsAccepted(P: Params, keccak: Keccak, hdPvk: Bytes, R: Node, message: Digest)
    requires P.Standard()
    ensures var key := Derived(P, keccak, hdPvk);
            var j := JobUnder(P, keccak, key, R, message);
            && j.Valid()
            && VerdictOf(P, keccak, Word16(key.pkSeed), Word16(key.pkRoot), message, Flat(SigNodes(j, R))) == Ok
  {
    hide Flat, SigNodes, Derived, CandidateNode, TreeAt, Pow2, DecodeDigestStd, HMsg;
    var key := Derived(P, keccak, hdPvk);
    var j := JobUnder(P, keccak, key, R, message);
    JobUnderIsValid(P, keccak, key, R, message);
    SignatureCarriesParts(j, R);
    ReadOne(Flat(SigNodes(j, R)), 0);
    CandidateNodesAreSignedNodes(j, R, Flat(SigNodes(j, R)), P.d);
    TopNodeIsPublicRoot(P, keccak, hdPvk, j);
    assert Word16(key.pkSeed)[..16] == key.pkSeed && Word16(key.pkRoot)[..16] == key.pkRoot;
  }

  /** Every signature on a 32-byte message verifies under the derived public key: for any hash function
      in place of keccak, any key and any tree heights, layer count and FORS tree count. */
  lemma EverySignatureVerifies(P: Params, keccak: Keccak, hdPvk: Bytes, message: Digest)
    requires P.Standard()
    ensures var key := Derived(P, keccak, hdPvk);
            VerdictOf(P, keccak, Word16(key.pkSeed), Word16(key.pkRoot), message,
                SignatureOf(P, keccak, key, message)) == Ok
  {
    hide Flat, SigNodes, Derived, Randomizer, JobUnder, VerdictOf;
    GenuineIsAccepted(P, keccak, hdPvk, Randomizer(keccak, Derived(P, keccak, hdPvk).skSeed, message), message);
  }

  /** Signing and then verifying, as the signing worker does before it releases a signature. */
  method SignThenVerify(P: Params, keccak: Keccak, hdPvk: Bytes, message: Bytes)
    returns (r: SignResult, v: Option<Verdict>)
    requires P.Standard()
    ensures |message| == 32 ==> r.Signed? && v == Some(Ok)
    ensures |message| != 32 ==> r == Rejected(MessageLength) && v == None
  {
    r := SphincsSignStd(P, keccak, hdPvk, message);
    v := None;
    if r.Signed? {
      v := SphincsVerify(P, keccak, Word16(r.pkSeed), Word16(r.pkRoot), message, r.sig);
      EverySignatureVerifies(P, keccak, hdPvk, message);
    }
  }
}
