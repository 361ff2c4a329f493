/** The verifier of the standard profile. It reads fixed offsets of the signature bytes and never sees a secret. */
module Verifier {
  import opened Bits
  import opened Bytes
  import opened Params
  import opened Hashing
  import opened Merkle
  import opened Wots
  import opened Trees
  import opened Signature
  import opened Wrappers

  // ---------------------------------------------------------------- what the verifier computes

  function ReadNode(sig: Bytes, off: nat): Node
    requires off + 16 <= |sig|
  {
    sig[off..off + 16]
  }

  function ReadNodes(sig: Bytes, off: nat, n: nat): (r: seq<Node>)
    requires off + 16 * n <= |sig|
    ensures |r| == n
  {
    if n == 0 then [] else ReadNodes(sig, off, n - 1) + [ReadNode(sig, off + 16 * (n - 1))]
  }

  /** The candidate root of FORS tree `i`: its revealed leaf climbed along the path in the signature. */
  function ForsCandidate(P: Params, tw: Tweak, sig: Bytes, at: Decoded, i: nat, off: nat): Node
    requires i < |at.fields| && off + 16 * (1 + P.a) <= |sig|
  {
    Climb(ForsHash(tw, P.a, Big(at.tree), at.leaf, i), 0, at.fields[i],
          ForsLeafHash(tw, P.a, Big(at.tree), at.leaf, i, at.fields[i], ReadNode(sig, off)),
          ReadNodes(sig, off + 16, P.a), P.a)
  }

  lemma ForsOffsetFits(P: Params, i: nat)
    requires P.Standard() && i < P.k
    ensures P.forsOff + i * P.forsPerTree + 16 * (1 + P.a) <= P.htOff <= P.sigLen
  {
    MulMonotone(i + 1, P.k, P.forsPerTree);
    MulMonotone(i, P.k, P.forsPerTree);
    assert P.d * P.htLayerLen >= 0;
  }

  lemma LayerOffsetFits(P: Params, m: nat)
    requires P.Standard() && m < P.d
    ensures P.htOff + m * P.htLayerLen + P.htLayerLen <= P.sigLen
  {
    MulMonotone(m + 1, P.d, P.htLayerLen);
    MulMonotone(m, P.d, P.htLayerLen);
  }

  function ForsCandidates(P: Params, tw: Tweak, sig: Bytes, at: Decoded, n: nat): (r: seq<Node>)
    requires P.Standard() && |sig| == P.sigLen && n <= P.k == |at.fields|
    ensures |r| == n
  {
    if n == 0 then []
    else
      ForsOffsetFits(P, n - 1);
      ForsCandidates(P, tw, sig, at, n - 1)
      + [ForsCandidate(P, tw, sig, at, n - 1, P.forsOff + (n - 1) * P.forsPerTree)]
  }

  /** The ends the verifier derives from the chain values in the signature. */
  function CandidateEnds(tw: Tweak, sig: Bytes, off: nat, layer: nat, tree: TreeIndex, leaf: nat, node: Node,
      n: nat): (r: seq<Node>)
    requires n <= SPX_L && off + 16 * n <= |sig|
    ensures |r| == n
  {
    if n == 0 then [] else
      CandidateEnds(tw, sig, off, layer, tree, leaf, node, n - 1)
      + [Chain(tw, layer, tree, leaf, n - 1, ReadNode(sig, off + 16 * (n - 1)), Digit(node, n - 1), SPX_W - 1)]
  }

  function LayerCandidate(P: Params, tw: Tweak, sig: Bytes, off: nat, layer: nat, tree: TreeIndex, leaf: nat,
      node: Node): Node
    requires P.Standard() && off + P.htLayerLen <= |sig|
  {
    Climb(SubtreeHash(tw, layer, tree), 0, leaf,
          CompressEnds(tw, layer, tree, leaf, CandidateEnds(tw, sig, off, layer, tree, leaf, node, SPX_L)),
          ReadNodes(sig, off + P.wotsSigLen, P.subtreeH), P.subtreeH)
  }

  /** The node the verifier holds after `m` layers. */
  function CandidateNode(P: Params, tw: Tweak, sig: Bytes, at: Decoded, m: nat): Node
    requires P.Standard() && |sig| == P.sigLen && at.leaf < P.leavesPerSubtree && |at.fields| == P.k && m <= P.d
  {
    if m == 0 then ForsCompress(tw, Big(at.tree), at.leaf, ForsCandidates(P, tw, sig, at, P.k))
    else
      LayerOffsetFits(P, m - 1);
      LayerCandidate(P, tw, sig, P.htOff + (m - 1) * P.htLayerLen, m - 1,
                     Big(TreeAt(P, at.tree, m - 1)), LeafAt(P, at.tree, at.leaf, m - 1),
                     CandidateNode(P, tw, sig, at, m - 1))
  }

  // ---------------------------------------------------------------- the methods

  method ClimbFromSignature(hash: NodeHash<Node>, sig: Bytes, off: nat, n: nat, leafIdx: nat, leaf: Node)
    returns (node: Node)
    requires off + 16 * n <= |sig|
    ensures node == Climb(hash, 0, leafIdx, leaf, ReadNodes(sig, off, n), n)
  {
    hide Shr, And;
    ShrNone(leafIdx);
    node := leaf;
    var idx := leafIdx;
    for h := 0 to n
      invariant idx == Shr(leafIdx, h)
      invariant node == Climb(hash, 0, leafIdx, leaf, ReadNodes(sig, off, h), h)
    {
      ClimbExtends(hash, leafIdx, leaf, ReadNodes(sig, off, h), ReadNode(sig, off + 16 * h));
      var sibling := ReadNode(sig, off + h * SPX_N);
      var parentIdx := Shr(idx, 1);
      ShrAdd(leafIdx, h, 1);
      ShrSucc(leafIdx, h);
      ParityBit(idx);
      node := if And(idx, 1) == 1 then hash(h + 1, parentIdx, sibling, node) else hash(h + 1, parentIdx, node, sibling);
      idx := parentIdx;
    }
  }

  lemma ClimbExtends(hash: NodeHash<Node>, idx: nat, leaf: Node, path: seq<Node>, last: Node)
    ensures Climb(hash, 0, idx, leaf, path + [last], |path| + 1)
         == Join(hash, |path|, Shr(idx, |path|), Climb(hash, 0, idx, leaf, path, |path|), last)
  {
    ClimbPrefix(hash, 0, idx, leaf, path, path + [last], |path|);
  }

  /** The climb over the first `m` siblings depends on those siblings only. */
  lemma {:induction false} ClimbPrefix(hash: NodeHash<Node>, height: nat, idx: nat, leaf: Node, p: seq<Node>,
      q: seq<Node>, m: nat)
    requires m <= |p| && m <= |q| && p[..m] == q[..m]
    ensures Climb(hash, height, idx, leaf, p, m) == Climb(hash, height, idx, leaf, q, m)
  {
    hide Shr;
    if m != 0 {
      assert p[..m - 1] == p[..m][..m - 1] == q[..m - 1];
      assert p[m - 1] == p[..m][m - 1] == q[m - 1];
      ClimbPrefix(hash, height, idx, leaf, p, q, m - 1);
    }
  }

  method ForsPublicKeyFromSignature(P: Params, tw: Tweak, sig: Bytes, at: Decoded) returns (pk: Node)
    requires P.Standard() && |sig| == P.sigLen && at.leaf < P.leavesPerSubtree && |at.fields| == P.k
    ensures pk == CandidateNode(P, tw, sig, at, 0)
  {
    hide Climb, ForsHash, ForsLeafHash, ReadNodes, Pow2;
    var roots: seq<Node> := [];
    for i := 0 to P.k
      invariant roots == ForsCandidates(P, tw, sig, at, i)
    {
      var off := P.forsOff + i * P.forsPerTree;
      ForsOffsetFits(P, i);
      var leaf := ForsLeafHash(tw, P.a, Big(at.tree), at.leaf, i, at.fields[i], ReadNode(sig, off));
      var root := ClimbFromSignature(ForsHash(tw, P.a, Big(at.tree), at.leaf, i), sig, off + SPX_N, P.a, at.fields[i],
          leaf);
      roots := roots + [root];
    }
    pk := ForsCompress(tw, Big(at.tree), at.leaf, roots);
  }

  method LayerFromSignature(P: Params, tw: Tweak, sig: Bytes, off: nat, layer: nat, tree: TreeIndex, leaf: nat,
      node: Node)
    returns (root: Node)
    requires P.Standard() && off + P.htLayerLen <= |sig|
    ensures root == LayerCandidate(P, tw, sig, off, layer, tree, leaf, node)
  {
    hide Climb, Chain, Digit, ReadNodes, Pow2, Words, SubtreeHash;
    var digits := WotsDigitsStd(P, node);
    var ends: seq<Node> := [];
    for i := 0 to SPX_L
      invariant digits.Length == SPX_L && forall c :: 0 <= c < SPX_L ==> digits[c] == Digit(node, c)
      invariant ends == CandidateEnds(tw, sig, off, layer, tree, leaf, node, i)
    {
      var val := ReadNode(sig, off + i * SPX_N);
      val := WotsChain(tw, layer, tree, leaf, i, val, digits[i], P.w - 1);
      ends := ends + [val];
    }
    var pk := CompressEnds(tw, layer, tree, leaf, ends);
    root := ClimbFromSignature(SubtreeHash(tw, layer, tree), sig, off + P.wotsSigLen, P.subtreeH, leaf, pk);
  }

  /** The node after all layers. */
  method WalkHypertree(P: Params, tw: Tweak, sig: Bytes, at: Decoded, forsPk: Node) returns (node: Node)
    requires P.Standard() && |sig| == P.sigLen && at.leaf < P.leavesPerSubtree && |at.fields| == P.k
    requires forsPk == CandidateNode(P, tw, sig, at, 0)
    ensures node == CandidateNode(P, tw, sig, at, P.d)
  {
    hide Pow2, LayerCandidate, And, Shr, ForsCandidates;
    node := forsPk;
    var tree, leaf, off := at.tree, at.leaf, P.htOff;
    for layer := 0 to P.d
      invariant tree == TreeAt(P, at.tree, layer) && leaf == LeafAt(P, at.tree, at.leaf, layer)
      invariant off == P.htOff + layer * P.htLayerLen
      invariant node == CandidateNode(P, tw, sig, at, layer)
    {
      LayerOffsetFits(P, layer);
      MulMonotone(layer, P.d, P.htLayerLen);
      node := LayerFromSignature(P, tw, sig, off, layer, Big(tree), leaf, node);
      off := off + P.wotsSigLen + P.htTreeAuthLen;
      leaf := And(tree, P.leavesPerSubtree - 1);
      tree := Shr(tree, P.subtreeH);
    }
  }

  method SphincsVerifyStd(P: Params, tw: Tweak, pkRoot: Node, message: Digest, sig: Bytes) returns (valid: bool)
    requires P.Standard() && |sig| == P.sigLen
    ensures valid == Accepts(P, tw, pkRoot, message, sig)
  {
    hide Pow2, CandidateNode, And, Shr, Fields;
    SigHasRandomizer(P);
    var digest := HMsg(P, tw, pkRoot, ReadNode(sig, 0), message);
    DecodedInRange(P, digest);
    var at := DecodeDigestStd(P, digest);
    var forsPk := ForsPublicKeyFromSignature(P, tw, sig, at);
    var node := WalkHypertree(P, tw, sig, at, forsPk);
    valid := node == pkRoot;
  }

  lemma SigHasRandomizer(P: Params)
    requires P.Standard()
    ensures 16 <= P.htOff <= P.sigLen
  {
    assert P.k * P.forsPerTree >= 0 && P.d * P.htLayerLen >= 0;
  }

  /** Acceptance: the node reached after all layers is the public root. */
  predicate Accepts(P: Params, tw: Tweak, pkRoot: Node, message: Digest, sig: Bytes)
    requires P.Standard() && |sig| == P.sigLen
  {
    SigHasRandomizer(P);
    var digest := HMsg(P, tw, pkRoot, ReadNode(sig, 0), message);
    DecodedInRange(P, digest);
    CandidateNode(P, tw, sig, DecodeDigestStd(P, digest), P.d) == pkRoot
  }

  // ---------------------------------------------------------------- the public entry point

  datatype Verdict = Ok | InvalidSigLength | InvalidPublicKey | RootMismatch

  /** A public-key word is canonical when its low half is zero; a word too short is not. */
  predicate Canonical(word: Bytes) {
    |word| >= 32 && forall k :: 16 <= k < 32 ==> word[k] == 0
  }

  function VerdictOf(P: Params, keccak: Keccak, pkSeed: Bytes, pkRoot: Bytes, message: Digest, sig: Bytes): Verdict
    requires P.Standard()
  {
    if |sig| != P.sigLen then InvalidSigLength
    else if !Canonical(pkSeed) || !Canonical(pkRoot) then InvalidPublicKey
    else if Accepts(P, Tweak(keccak, pkSeed[..16]), pkRoot[..16], message, sig) then Ok
    else Verdict.RootMismatch
  }

  /** A message of another length throws before anything is read. */
  method SphincsVerify(P: Params, keccak: Keccak, pkSeed: Bytes, pkRoot: Bytes, message: Bytes, sig: Bytes)
    returns (r: Option<Verdict>)
    requires P.Standard()
    ensures r == if |message| != 32 then None else Some(VerdictOf(P, keccak, pkSeed, pkRoot, message, sig))
  {
    hide Accepts, Pow2;
    if |message| != 32 { return None; }
    if |sig| != P.sigLen { return Some(InvalidSigLength); }
    for k := SPX_N to 32
      invariant k > SPX_N ==> k <= |pkSeed| && k <= |pkRoot|
      invariant forall i :: 16 <= i < k ==> pkSeed[i] == 0 && pkRoot[i] == 0
    {
      if k >= |pkSeed| || pkSeed[k] != 0 || k >= |pkRoot| || pkRoot[k] != 0 {
        return Some(InvalidPublicKey);
      }
    }
    var valid := SphincsVerifyStd(P, Tweak(keccak, pkSeed[..16]), pkRoot[..16], message, sig);
    r := Some(if valid then Ok else Verdict.RootMismatch);
  }

  /** A public-key word is a node flush in the top half of a 32-byte word. */
  predicate IsKeyWord(word: Bytes) {
    |word| >= 32 && word[..32] == Word16(word[..16])
  }

  /** Which verdict which input gets: the length is looked at first, then the two words, then the signature. */
  lemma VerdictIsExact(P: Params, keccak: Keccak, pkSeed: Bytes, pkRoot: Bytes, message: Digest, sig: Bytes)
    requires P.Standard()
    ensures var v := VerdictOf(P, keccak, pkSeed, pkRoot, message, sig);
            && (v == InvalidSigLength <==> |sig| != P.sigLen)
            && (v == InvalidPublicKey <==> |sig| == P.sigLen && !(IsKeyWord(pkSeed) && IsKeyWord(pkRoot)))
            && (v == Ok ==> |sig| == P.sigLen && IsKeyWord(pkSeed) && IsKeyWord(pkRoot))
  {
    hide Accepts;
    CanonicalIsKeyWord(pkSeed);
    CanonicalIsKeyWord(pkRoot);
  }

  lemma CanonicalIsKeyWord(word: Bytes)
    ensures Canonical(word) <==> IsKeyWord(word)
  {
    if Canonical(word) { assert word[..32] == Word16(word[..16]); }
    if IsKeyWord(word) { assert forall k :: 16 <= k < 32 ==> word[k] == word[..32][k]; }
  }
}
