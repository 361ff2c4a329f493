/** The sequential signer: it fills one flat buffer in place, and the buffer it returns is the node
    sequence of module Signature, packed. */
module Signer {
  import opened Bits
  import opened Bytes
  import opened Params
  import opened Hashing
  import opened Merkle
  import opened Wots
  import opened Trees
  import opened Signature

  /** `blob.set(node, off)` at the write position: what was written before stays. */
  method EmitNode(blob: array<Byte>, off: nat, ghost written: seq<Node>, node: Node)
    requires off == 16 * |written| && off + 16 <= blob.Length
    requires blob[..off] == Flat(written)
    modifies blob
    ensures blob[..off + 16] == Flat(written + [node])
  {
    SetBytes(blob, off, node);
    FlatPush(written, node);
  }

  method EmitNodes(blob: array<Byte>, off: nat, ghost written: seq<Node>, nodes: seq<Node>)
    requires off == 16 * |written| && off + 16 * |nodes| <= blob.Length
    requires blob[..off] == Flat(written)
    modifies blob
    ensures blob[..off + 16 * |nodes|] == Flat(written + nodes)
  {
    assert written + nodes[..0] == written;
    for h := 0 to |nodes|
      invariant blob[..off + h * SPX_N] == Flat(written + nodes[..h])
    {
      EmitNode(blob, off + h * SPX_N, written + nodes[..h], nodes[h]);
      assert written + nodes[..h] + [nodes[h]] == written + nodes[..h + 1];
    }
    assert nodes[..|nodes|] == nodes;
  }

  /** A row of nodes that comes as bytes, in one write. */
  method EmitFlat(blob: array<Byte>, off: nat, ghost written: seq<Node>, flat: Bytes, ghost nodes: seq<Node>)
    requires off == 16 * |written| && flat == Flat(nodes) && off + 16 * |nodes| <= blob.Length
    requires blob[..off] == Flat(written)
    modifies blob
    ensures blob[..off + 16 * |nodes|] == Flat(written + nodes)
  {
    FlatAppend(written, nodes);
    hide Flat;
    SetBytes(blob, off, flat);
  }

  /** What one more FORS tree adds to the signature, and where it begins. */
  lemma ForsPrefixGrows(j: Job, R: Node, i: nat)
    requires j.Valid() && i < j.P.k
    ensures 16 * |ForsPrefix(j, R, i)| == j.P.forsOff + i * j.P.forsPerTree
    ensures ForsPrefix(j, R, i + 1) == ForsPrefix(j, R, i)
              + [ForsSk(j.tw.keccak, j.skSeed, Big(j.at.tree), j.at.leaf, i, j.at.fields[i])]
              + ForsAuth(j.P, j.tw, j.skSeed, Big(j.at.tree), j.at.leaf, i, j.at.fields[i])
  {
    hide ForsSk, ForsAuth, Pow2;
    ForsPartsLength(j, i);
    Regroup([R], ForsParts(j, i), [ForsSk(j.tw.keccak, j.skSeed, Big(j.at.tree), j.at.leaf, i, j.at.fields[i])],
        ForsAuth(j.P, j.tw, j.skSeed, Big(j.at.tree), j.at.leaf, i, j.at.fields[i]));
  }

  lemma Regroup(a: seq<Node>, b: seq<Node>, c: seq<Node>, d: seq<Node>)
    ensures a + (b + (c + d)) == a + b + c + d
  {
  }

  /** One FORS tree: write its revealed secret and its path, and yield its root. */
  method WriteForsTree(j: Job, ghost R: Node, blob: array<Byte>, i: nat) returns (root: Node)
    requires j.Valid() && i < j.P.k && blob.Length == j.P.sigLen
    requires 16 * |ForsPrefix(j, R, i + 1)| <= blob.Length
    requires blob[..16 * |ForsPrefix(j, R, i)|] == Flat(ForsPrefix(j, R, i))
    modifies blob
    ensures root == ForsRoot(j.P, j.tw, j.skSeed, Big(j.at.tree), j.at.leaf, i)
    ensures blob[..16 * |ForsPrefix(j, R, i + 1)|] == Flat(ForsPrefix(j, R, i + 1))
  {
    ForsPrefixGrows(j, R, i);
    hide ForsSk, ForsAuth, ForsRoot, Flat, ForsPrefix, Pow2;
    var P := j.P;
    var off := P.forsOff + i * P.forsPerTree;
    ghost var written := ForsPrefix(j, R, i);
    var sk := ForsSk(j.tw.keccak, j.skSeed, Big(j.at.tree), j.at.leaf, i, j.at.fields[i]);
    EmitNode(blob, off, written, sk);
    var auth;
    root, auth := ForsTreeRootAuth(P, j.tw, j.skSeed, Big(j.at.tree), j.at.leaf, i, j.at.fields[i]);
    EmitNodes(blob, off + SPX_N, written + [sk], auth);
  }

  /** The FORS parts, and the FORS public key. */
  method WriteFors(j: Job, ghost R: Node, blob: array<Byte>) returns (pk: Node)
    requires j.Valid() && blob.Length == j.P.sigLen
    requires blob[..16] == Flat([R])
    modifies blob
    ensures pk == NodeAt(j, 0)
    ensures j.P.htOff <= blob.Length && blob[..j.P.htOff] == Flat(ForsPrefix(j, R, j.P.k))
  {
    hide ForsPrefix, ForsParts, ForsRoot, ForsRoots, ForsCompress, Flat, Pow2, Params.Standard;
    ForsPartBegins(j, R);
    ForsPartsFit(j, R, 0);
    ForsPartsFit(j, R, j.P.k);
    var roots: seq<Node> := [];
    for i := 0 to j.P.k
      invariant roots == ForsRoots(j.P, j.tw, j.skSeed, Big(j.at.tree), j.at.leaf, i)
      invariant 16 * |ForsPrefix(j, R, i)| <= blob.Length
      invariant blob[..16 * |ForsPrefix(j, R, i)|] == Flat(ForsPrefix(j, R, i))
    {
      ForsPartsFit(j, R, i + 1);
      ForsRootsPush(j.P, j.tw, j.skSeed, Big(j.at.tree), j.at.leaf, i);
      var root := WriteForsTree(j, R, blob, i);
      roots := roots + [root];
    }
    pk := ForsCompress(j.tw, Big(j.at.tree), j.at.leaf, roots);
  }

  /** Before the first FORS tree there is the randomizer alone; after the last one the hypertree begins. */
  lemma ForsPartBegins(j: Job, R: Node)
    requires j.Valid()
    ensures ForsPrefix(j, R, 0) == [R] && 16 * |ForsPrefix(j, R, j.P.k)| == j.P.htOff
    ensures ForsRoots(j.P, j.tw, j.skSeed, Big(j.at.tree), j.at.leaf, 0) == [] && j.P.forsLeaves == Pow2(j.P.a)
  {
    PartsTileTheSignature(j, R);
  }

  lemma ForsPartsFit(j: Job, R: Node, n: nat)
    requires j.Valid() && n <= j.P.k
    ensures 16 * |ForsPrefix(j, R, n)| <= j.P.htOff <= j.P.sigLen
  {
    hide ForsParts;
    ForsPartsLength(j, n);
    MulMonotone(n, j.P.k, j.P.forsPerTree);
    assert j.P.d * j.P.htLayerLen >= 0;
  }

  /** The chains of one WOTS signature, each advanced by its digit. */
  method WriteWots(j: Job, ghost written: seq<Node>, blob: array<Byte>, off: nat, layer: nat, tree: nat, leaf: nat,
      node: Node)
    requires j.P.Standard()
    requires off == 16 * |written| && off + j.P.wotsSigLen <= blob.Length
    requires blob[..off] == Flat(written)
    modifies blob
    ensures blob[..off + j.P.wotsSigLen] == Flat(written + WotsSig(j.tw, j.skSeed, layer, Big(tree), leaf, node, SPX_L))
  {
    hide Chain, WotsSk, Flat, Digit;
    var digits := WotsDigitsStd(j.P, node);
    assert written + [] == written;
    for i := 0 to SPX_L
      invariant digits.Length == SPX_L && forall c :: 0 <= c < SPX_L ==> digits[c] == Digit(node, c)
      invariant blob[..off + i * SPX_N] == Flat(written + WotsSig(j.tw, j.skSeed, layer, Big(tree), leaf, node, i))
    {
      ghost var sig := WotsSig(j.tw, j.skSeed, layer, Big(tree), leaf, node, i);
      var sk := WotsSk(j.tw.keccak, j.skSeed, layer, Big(tree), leaf, i);
      var value := WotsChain(j.tw, layer, Big(tree), leaf, i, sk, 0, digits[i]);
      EmitNode(blob, off + i * SPX_N, written + sig, value);
      assert written + sig + [value] == written + (sig + [value]);
    }
  }

  /** One hypertree layer over given leaves: sign the node below, append the path, yield the subtree root. */
  method WriteLayer(j: Job, ghost written: seq<Node>, blob: array<Byte>, off: nat, layer: nat, tree: nat, leaf: nat,
                    node: Node, leaves: seq<Node>)
    returns (root: Node)
    requires j.Valid() && layer < j.P.d
    requires tree == TreeAt(j.P, j.at.tree, layer) && leaf == LeafAt(j.P, j.at.tree, j.at.leaf, layer) &&
        node == NodeAt(j, layer)
    requires leaves == SubtreeLeaves(j.P, j.tw, j.skSeed, layer, Big(tree))
    requires off == 16 * |written| && off + j.P.htLayerLen <= blob.Length
    requires blob[..off] == Flat(written)
    modifies blob
    ensures root == NodeAt(j, layer + 1)
    ensures blob[..off + j.P.htLayerLen] == Flat(written + LayerPart(j, layer))
  {
    hide WotsSig, SubtreeLeaves, Flat, TreeAt, LeafAt, Pow2, Root, AuthPath, SubtreeHash;
    var P := j.P;
    WriteWots(j, written, blob, off, layer, tree, leaf, node);
    ghost var sig := WotsSig(j.tw, j.skSeed, layer, Big(tree), leaf, node, SPX_L);
    var auth;
    root, auth := SubtreeRootAuth(P, j.tw, layer, Big(tree), leaves, leaf);
    EmitNodes(blob, off + P.wotsSigLen, written + sig, auth);
    assert written + sig + auth == written + LayerPart(j, layer);
  }

  /** All layers, bottom up. The top layer reuses the leaves that key generation built. */
  method WriteHypertree(j: Job, ghost R: Node, blob: array<Byte>, forsPk: Node, topLeaves: seq<Node>)
    returns (node: Node)
    requires j.Valid() && blob.Length == j.P.sigLen && TreeAt(j.P, j.at.tree, j.P.d - 1) == 0
    requires topLeaves == SubtreeLeaves(j.P, j.tw, j.skSeed, j.P.d - 1, Big(0))
    requires forsPk == NodeAt(j, 0)
    requires j.P.htOff <= blob.Length && blob[..j.P.htOff] == Flat(ForsPrefix(j, R, j.P.k))
    modifies blob
    ensures node == NodeAt(j, j.P.d)
    ensures blob[..] == Flat(SigNodes(j, R))
  {
    hide NodeAt, SubtreeLeaves, Flat, LayerPart, ForsParts;
    var P := j.P;
    PartsTileTheSignature(j, R);
    ghost var below := ForsPrefix(j, R, P.k);
    node := forsPk;
    var tree, leaf, off := j.at.tree, j.at.leaf, P.htOff;
    assert below + [] == below;
    for layer := 0 to P.d
      invariant tree == TreeAt(P, j.at.tree, layer) && leaf == LeafAt(P, j.at.tree, j.at.leaf, layer)
      invariant node == NodeAt(j, layer)
      invariant off == 16 * |below + LayerParts(j, layer)| == P.htOff + layer * P.htLayerLen
      invariant off <= blob.Length && blob[..off] == Flat(below + LayerParts(j, layer))
    {
      LayersFit(j, layer);
      var leaves := topLeaves;
      if layer != P.d - 1 {
        leaves := SubtreeLeavesStd(P, j.tw, j.skSeed, layer, Big(tree));
      }
      node := WriteLayer(j, below + LayerParts(j, layer), blob, off, layer, tree, leaf, node, leaves);
      assert below + LayerParts(j, layer) + LayerPart(j, layer) == below + LayerParts(j, layer + 1);
      off := off + P.wotsSigLen + P.htTreeAuthLen;
      leaf := And(tree, P.leavesPerSubtree - 1);
      tree := Shr(tree, P.subtreeH);
    }
    assert blob[..] == blob[..off];
  }

  lemma LayersFit(j: Job, layer: nat)
    requires j.Valid() && layer < j.P.d
    ensures j.P.htOff + (layer + 1) * j.P.htLayerLen ==
        j.P.htOff + layer * j.P.htLayerLen + j.P.htLayerLen <= j.P.sigLen
  {
    MulMonotone(layer + 1, j.P.d, j.P.htLayerLen);
  }

  // ---------------------------------------------------------------- keys and the signing call

  datatype KeyPair = KeyPair(skSeed: Digest, pkSeed: Node, pkRoot: Node)

  /** Key generation: the public root is the root of the top layer's tree 0. */
  function Derived(P: Params, keccak: Keccak, hdPvk: Bytes): KeyPair
    requires P.leavesPerSubtree == Pow2(P.subtreeH) && P.d >= 1
  {
    var seeds := DeriveSeeds(P, keccak, hdPvk);
    KeyPair(seeds.skSeed, seeds.pkSeed,
            SubtreeRoot(P, Tweak(keccak, seeds.pkSeed), seeds.skSeed, P.d - 1, Big(0)))
  }

  method SphincsDerive(P: Params, keccak: Keccak, hdPvk: Bytes) returns (key: KeyPair, topLeaves: seq<Node>)
    requires P.Standard()
    ensures key == Derived(P, keccak, hdPvk)
    ensures topLeaves == SubtreeLeaves(P, Tweak(keccak, key.pkSeed), key.skSeed, P.d - 1, Big(0))
  {
    hide SubtreeLeaves, Pow2, Root, AuthPath, SubtreeHash, DeriveSeeds;
    var seeds := DeriveSeeds(P, keccak, hdPvk);
    var tw := Tweak(keccak, seeds.pkSeed);
    topLeaves := SubtreeLeavesStd(P, tw, seeds.skSeed, P.d - 1, Big(0));
    assert |topLeaves| == P.leavesPerSubtree;
    var pkRoot, _ := SubtreeRootAuth(P, tw, P.d - 1, Big(0), topLeaves, 0);
    key := KeyPair(seeds.skSeed, seeds.pkSeed, pkRoot);
  }

  datatype SignError = MessageLength | RootMismatch | PoolFailed

  datatype SignResult = Signed(sig: Bytes, pkSeed: Node, pkRoot: Node, R: Node) | Rejected(error: SignError)

  /** The job a message gives under a key and a randomizer: everything the body of its signature is computed from. */
  function JobUnder(P: Params, keccak: Keccak, key: KeyPair, R: Node, message: Digest): Job
    requires P.leavesPerSubtree >= 1
  {
    var tw := Tweak(keccak, key.pkSeed);
    Job(P, tw, key.skSeed, DecodeDigestStd(P, HMsg(P, tw, key.pkRoot, R, message)))
  }

  lemma JobUnderIsValid(P: Params, keccak: Keccak, key: KeyPair, R: Node, message: Digest)
    requires P.Standard()
    ensures JobUnder(P, keccak, key, R, message).Valid()
    ensures TreeAt(P, JobUnder(P, keccak, key, R, message).at.tree, P.d - 1) == 0
  {
    hide Pow2, Field, Fields, And, Shr, TreeAt;
    var digest := HMsg(P, Tweak(keccak, key.pkSeed), key.pkRoot, R, message);
    DecodedInRange(P, digest);
    TopLayerIsTreeZero(P, DecodeDigestStd(P, digest).tree);
  }

  lemma JobUnderHas(P: Params, keccak: Keccak, key: KeyPair, R: Node, message: Digest)
    requires P.leavesPerSubtree >= 1
    ensures var j := JobUnder(P, keccak, key, R, message);
            j.P == P && j.tw == Tweak(keccak, key.pkSeed) && j.skSeed == key.skSeed
  {
  }

  /** The job of the signer's own randomizer. */
  function JobFor(P: Params, keccak: Keccak, key: KeyPair, message: Digest): Job
    requires P.leavesPerSubtree >= 1
  {
    JobUnder(P, keccak, key, Randomizer(keccak, key.skSeed, message), message)
  }

  lemma JobForIsValid(P: Params, keccak: Keccak, key: KeyPair, message: Digest)
    requires P.Standard()
    ensures JobFor(P, keccak, key, message).Valid()
    ensures TreeAt(P, JobFor(P, keccak, key, message).at.tree, P.d - 1) == 0
  {
    JobUnderIsValid(P, keccak, key, Randomizer(keccak, key.skSeed, message), message);
  }

  /** The signature bytes of a message under a key. */
  function SignatureOf(P: Params, keccak: Keccak, key: KeyPair, message: Digest): Bytes
    requires P.Standard()
  {
    JobForIsValid(P, keccak, key, message);
    Flat(SigNodes(JobFor(P, keccak, key, message), Randomizer(keccak, key.skSeed, message)))
  }

  /** Two signatures under one key that come to the same Winternitz key pair hold the same layer there: the chain
      values it reveals are those of one node, whatever the two messages are. */
  lemma EveryKeyPairSignsOnce(P: Params, keccak: Keccak, key: KeyPair, message: Digest, message': Digest, m: nat)
    requires P.Standard() && m < P.d
    ensures var j, j' := JobFor(P, keccak, key, message), JobFor(P, keccak, key, message');
            && j.Valid() && j'.Valid()
            && (TreeAt(P, j.at.tree, m) == TreeAt(P, j'.at.tree, m)
                && LeafAt(P, j.at.tree, j.at.leaf, m) == LeafAt(P, j'.at.tree, j'.at.leaf, m)
                ==> NodeAt(j, m) == NodeAt(j', m) && LayerPart(j, m) == LayerPart(j', m))
  {
    hide DecodeDigestStd, HMsg, NodeAt, LayerPart, TreeAt, LeafAt;
    JobForIsValid(P, keccak, key, message);
    JobForIsValid(P, keccak, key, message');
    var j, j' := JobFor(P, keccak, key, message), JobFor(P, keccak, key, message');
    if TreeAt(P, j.at.tree, m) == TreeAt(P, j'.at.tree, m)
       && LeafAt(P, j.at.tree, j.at.leaf, m) == LeafAt(P, j'.at.tree, j'.at.leaf, m) {
      KeyPairSignsOneNode(j, j', m);
    }
  }

  /** The sequential signer. The final comparison with the derived root can never fail. */
  method SphincsSignStd(P: Params, keccak: Keccak, hdPvk: Bytes, message: Bytes) returns (r: SignResult)
    requires P.Standard()
    ensures |message| != 32 ==> r == Rejected(MessageLength)
    ensures |message| == 32 ==>
              var key := Derived(P, keccak, hdPvk);
              && r == Signed(SignatureOf(P, keccak, key, message), key.pkSeed, key.pkRoot,
                  Randomizer(keccak, key.skSeed, message))
              && |r.sig| == P.sigLen
  {
    hide Derived, Flat, SubtreeLeaves, NodeAt, SigNodes, JobUnder, TreeAt, Randomizer, Pow2;
    if |message| != 32 {
      return Rejected(MessageLength);
    }
    var key, topLeaves := SphincsDerive(P, keccak, hdPvk);
    var R := Randomizer(keccak, key.skSeed, message);
    var j := JobFor(P, keccak, key, message);
    JobForIsValid(P, keccak, key, message);
    JobUnderHas(P, keccak, key, R, message);
    PartsTileTheSignature(j, R);
    var blob := new Byte[P.sigLen](_ => 0);
    SetBytes(blob, 0, R);
    FlatSingle(R);
    var forsPk := WriteFors(j, R, blob);
    var node := WriteHypertree(j, R, blob, forsPk, topLeaves);
    TopNodeIsPublicRoot(P, keccak, hdPvk, j);
    if node != key.pkRoot {
      return Rejected(RootMismatch);
    }
    r := Signed(blob[..], key.pkSeed, key.pkRoot, R);
  }

  /** The walk that starts at any decoded index ends in the root that key generation published. */
  lemma TopNodeIsPublicRoot(P: Params, keccak: Keccak, hdPvk: Bytes, j: Job)
    requires P.Standard() && j.Valid() && j.P == P && TreeAt(P, j.at.tree, P.d - 1) == 0
    requires var key := Derived(P, keccak, hdPvk); j.skSeed == key.skSeed && j.tw == Tweak(keccak, key.pkSeed)
    ensures NodeAt(j, P.d) == Derived(P, keccak, hdPvk).pkRoot
  {
    hide SubtreeRoot, Pow2, DeriveSeeds, ForsRoots;
  }

  lemma FlatSingle(n: Node)
    ensures Flat([n]) == n
  {
    FlatPush([], n);
    assert [] + [n] == [n];
  }
}
