/** The two kinds of Merkle trees of the scheme: hypertree subtrees over WOTS public keys (section 6 of
    FIPS 205) and FORS trees over secret leaves (section 8 of FIPS 205). */
module Trees {
  import opened Bits
  import opened Bytes
  import opened Params
  import opened Hashing
  import opened Merkle
  import opened Wots

  // ---------------------------------------------------------------- hypertree subtrees

  function SubtreeHash(tw: Tweak, layer: nat, tree: TreeIndex): NodeHash<Node> {
    (h: nat, p: nat, l: Node, r: Node) => tw.T(Adrs(layer, tree, TYPE_TREE, 0, h, p), Word16(l) + Word16(r))
  }

  method SubtreeRootAuth(P: Params, tw: Tweak, layer: nat, tree: TreeIndex, leaves: seq<Node>, leafIdx: nat)
    returns (root: Node, auth: seq<Node>)
    requires |leaves| == P.leavesPerSubtree == Pow2(P.subtreeH) && leafIdx < P.leavesPerSubtree
    ensures root == Root(SubtreeHash(tw, layer, tree), 0, leaves, P.subtreeH)
    ensures auth == AuthPath(SubtreeHash(tw, layer, tree), 0, leaves, P.subtreeH, leafIdx, P.subtreeH)
  {
    root, auth := ReduceLevels(SubtreeHash(tw, layer, tree), 0, leaves, P.subtreeH, leafIdx);
  }

  /** The root of one subtree of the hypertree. It depends on the layer and the tree only: whichever leaf
      a path is asked for, `SubtreeRootAuth` returns this root. */
  function SubtreeRoot(P: Params, tw: Tweak, skSeed: Digest, layer: nat, tree: TreeIndex): Node
    requires P.leavesPerSubtree == Pow2(P.subtreeH)
  {
    Root(SubtreeHash(tw, layer, tree), 0, SubtreeLeaves(P, tw, skSeed, layer, tree), P.subtreeH)
  }

  function SubtreeAuth(P: Params, tw: Tweak, skSeed: Digest, layer: nat, tree: TreeIndex, leaf: nat): (r: seq<Node>)
    requires P.leavesPerSubtree == Pow2(P.subtreeH) && leaf < P.leavesPerSubtree
    ensures |r| == P.subtreeH
  {
    AuthPath(SubtreeHash(tw, layer, tree), 0, SubtreeLeaves(P, tw, skSeed, layer, tree), P.subtreeH, leaf, P.subtreeH)
  }

  // ---------------------------------------------------------------- FORS

  /** Node `p` of height `h` of a FORS tree, from its children. */
  function ForsNode(tw: Tweak, a: nat, tree: TreeIndex, leaf: nat, forsTree: nat, h: nat, p: nat, l: Node,
      r: Node): Node {
    tw.T(Adrs(0, tree, TYPE_FORS_TREE, leaf, h, ForsWord(forsTree, if h <= a then a - h else 0, p)),
        Word16(l) + Word16(r))
  }

  function ForsHash(tw: Tweak, a: nat, tree: TreeIndex, leaf: nat, forsTree: nat): NodeHash<Node> {
    (h: nat, p: nat, l: Node, r: Node) => ForsNode(tw, a, tree, leaf, forsTree, h, p, l, r)
  }

  function ForsLeafHash(tw: Tweak, a: nat, tree: TreeIndex, leaf: nat, forsTree: nat, j: nat, sk: Node): Node {
    tw.T(Adrs(0, tree, TYPE_FORS_TREE, leaf, 0, ForsWord(forsTree, a, j)), Word16(sk))
  }

  /** The leaves `start <= j < start + n` of a FORS tree. */
  function ForsLeaves(tw: Tweak, skSeed: Digest, a: nat, tree: TreeIndex, leaf: nat, forsTree: nat, start: nat,
      n: nat): (r: seq<Node>)
    ensures |r| == n
  {
    if n == 0 then [] else
      ForsLeaves(tw, skSeed, a, tree, leaf, forsTree, start, n - 1)
      + [ForsLeafHash(tw, a, tree, leaf, forsTree, start + n - 1,
                      ForsSk(tw.keccak, skSeed, tree, leaf, forsTree, start + n - 1))]
  }

  lemma {:induction false} ForsLeavesAt(tw: Tweak, skSeed: Digest, a: nat, tree: TreeIndex, leaf: nat, forsTree: nat,
      start: nat, n: nat, j: nat)
    requires j < n
    ensures ForsLeaves(tw, skSeed, a, tree, leaf, forsTree, start, n)[j]
         == ForsLeafHash(tw, a, tree, leaf, forsTree, start + j,
             ForsSk(tw.keccak, skSeed, tree, leaf, forsTree, start + j))
  {
    hide ForsLeafHash, ForsSk;
    if j < n - 1 { ForsLeavesAt(tw, skSeed, a, tree, leaf, forsTree, start, n - 1, j); }
  }

  function ForsTreeLeaves(P: Params, tw: Tweak, skSeed: Digest, tree: TreeIndex, leaf: nat,
      forsTree: nat): (r: seq<Node>)
    ensures |r| == P.forsLeaves
  {
    ForsLeaves(tw, skSeed, P.a, tree, leaf, forsTree, 0, P.forsLeaves)
  }

  function ForsRoot(P: Params, tw: Tweak, skSeed: Digest, tree: TreeIndex, leaf: nat, forsTree: nat): Node
    requires P.forsLeaves == Pow2(P.a)
  {
    Root(ForsHash(tw, P.a, tree, leaf, forsTree), 0, ForsTreeLeaves(P, tw, skSeed, tree, leaf, forsTree), P.a)
  }

  function ForsAuth(P: Params, tw: Tweak, skSeed: Digest, tree: TreeIndex, leaf: nat, forsTree: nat,
      revealIdx: nat): (r: seq<Node>)
    requires P.forsLeaves == Pow2(P.a) && revealIdx < P.forsLeaves
    ensures |r| == P.a
  {
    AuthPath(ForsHash(tw, P.a, tree, leaf, forsTree), 0, ForsTreeLeaves(P, tw, skSeed, tree, leaf, forsTree), P.a,
        revealIdx, P.a)
  }

  /** The secret leaf values hashed one by one, from leaf `start` on. */
  method BuildForsLeaves(tw: Tweak, skSeed: Digest, a: nat, tree: TreeIndex, leaf: nat, forsTree: nat, start: nat,
      n: nat)
    returns (level: seq<Node>)
    ensures level == ForsLeaves(tw, skSeed, a, tree, leaf, forsTree, start, n)
  {
    hide ForsLeafHash, ForsSk;
    level := [];
    for j := 0 to n
      invariant level == ForsLeaves(tw, skSeed, a, tree, leaf, forsTree, start, j)
    {
      var sk := ForsSk(tw.keccak, skSeed, tree, leaf, forsTree, start + j);
      level := level + [ForsLeafHash(tw, a, tree, leaf, forsTree, start + j, sk)];
    }
  }

  method ForsTreeRootAuth(P: Params, tw: Tweak, skSeed: Digest, tree: TreeIndex, leaf: nat, forsTree: nat,
      revealIdx: nat)
    returns (root: Node, auth: seq<Node>)
    requires P.forsLeaves == Pow2(P.a) && revealIdx < P.forsLeaves
    ensures root == ForsRoot(P, tw, skSeed, tree, leaf, forsTree)
    ensures auth == ForsAuth(P, tw, skSeed, tree, leaf, forsTree, revealIdx)
  {
    var level := BuildForsLeaves(tw, skSeed, P.a, tree, leaf, forsTree, 0, P.forsLeaves);
    root, auth := ReduceLevels(ForsHash(tw, P.a, tree, leaf, forsTree), 0, level, P.a, revealIdx);
  }

  function ForsBlockNode(tw: Tweak, a: nat, tree: TreeIndex, leaf: nat, forsTree: nat, sh: nat, sub: nat, h: nat,
      p: nat, l: Node, r: Node): Node {
    tw.T(Adrs(0, tree, TYPE_FORS_TREE, leaf, h,
              ForsWord(forsTree, if h <= a then a - h else 0, (if h <= sh then Shl(sub, sh - h) else 0) + p)),
         Word16(l) + Word16(r))
  }

  /** The hash of subtree `sub` of height `sh`: nodes are addressed by their index in the whole FORS tree. */
  function ForsBlockHash(tw: Tweak, a: nat, tree: TreeIndex, leaf: nat, forsTree: nat, sh: nat,
      sub: nat): NodeHash<Node> {
    (h: nat, p: nat, l: Node, r: Node) => ForsBlockNode(tw, a, tree, leaf, forsTree, sh, sub, h, p, l, r)
  }

  function ForsBlockRoot(P: Params, tw: Tweak, skSeed: Digest, tree: TreeIndex, leaf: nat, forsTree: nat, sh: nat,
      sub: nat): Node {
    Root(ForsBlockHash(tw, P.a, tree, leaf, forsTree, sh, sub), 0,
         ForsLeaves(tw, skSeed, P.a, tree, leaf, forsTree, Shl(sub, sh), Pow2(sh)), sh)
  }

  function ForsBlockAuth(P: Params, tw: Tweak, skSeed: Digest, tree: TreeIndex, leaf: nat, forsTree: nat, sh: nat,
      sub: nat, localReveal: nat): (r: seq<Node>)
    requires localReveal < Pow2(sh)
    ensures |r| == sh
  {
    AuthPath(ForsBlockHash(tw, P.a, tree, leaf, forsTree, sh, sub), 0,
             ForsLeaves(tw, skSeed, P.a, tree, leaf, forsTree, Shl(sub, sh), Pow2(sh)), sh, localReveal, sh)
  }

  method ForsSubtree(P: Params, tw: Tweak, skSeed: Digest, tree: TreeIndex, leaf: nat, forsTree: nat, sh: nat,
      sub: nat, localReveal: nat)
    returns (root: Node, auth: seq<Node>)
    requires localReveal < Pow2(sh)
    ensures root == ForsBlockRoot(P, tw, skSeed, tree, leaf, forsTree, sh, sub)
    ensures auth == ForsBlockAuth(P, tw, skSeed, tree, leaf, forsTree, sh, sub, localReveal)
  {
    var base := Shl(sub, sh);
    var n := Shl(1, sh);
    ShlIsMul(1, sh);
    var level := BuildForsLeaves(tw, skSeed, P.a, tree, leaf, forsTree, base, n);
    root, auth := ReduceLevels(ForsBlockHash(tw, P.a, tree, leaf, forsTree, sh, sub), 0, level, sh, localReveal);
  }

  function ForsTopAuth(P: Params, tw: Tweak, tree: TreeIndex, leaf: nat, forsTree: nat, sh: nat,
      subtreeRoots: seq<Node>, sub: nat): (r: seq<Node>)
    requires sh <= P.a && |subtreeRoots| == Pow2(P.a - sh) && sub < |subtreeRoots|
    ensures |r| == P.a - sh
  {
    AuthPath(ForsHash(tw, P.a, tree, leaf, forsTree), sh, subtreeRoots, P.a - sh, sub, P.a - sh)
  }

  method ForsCombineTop(P: Params, tw: Tweak, tree: TreeIndex, leaf: nat, forsTree: nat, sh: nat,
      subtreeRoots: seq<Node>, revealIdx: nat)
    returns (root: Node, topAuth: seq<Node>)
    requires sh <= P.a && |subtreeRoots| == Pow2(P.a - sh) && Shr(revealIdx, sh) < |subtreeRoots|
    ensures root == Root(ForsHash(tw, P.a, tree, leaf, forsTree), sh, subtreeRoots, P.a - sh)
    ensures topAuth == ForsTopAuth(P, tw, tree, leaf, forsTree, sh, subtreeRoots, Shr(revealIdx, sh))
  {
    hide Pow2, Shr, Root, AuthPath;
    root, topAuth := ReduceLevels(ForsHash(tw, P.a, tree, leaf, forsTree), sh, subtreeRoots, P.a - sh,
        Shr(revealIdx, sh));
  }

  lemma ForsBlockLeaves(tw: Tweak, skSeed: Digest, a: nat, tree: TreeIndex, leaf: nat, forsTree: nat, sh: nat, sub: nat)
    requires Shl(sub, sh) + Pow2(sh) <= Pow2(a)
    ensures Block(ForsLeaves(tw, skSeed, a, tree, leaf, forsTree, 0, Pow2(a)), sh, sub)
         == ForsLeaves(tw, skSeed, a, tree, leaf, forsTree, Shl(sub, sh), Pow2(sh))
  {
    hide ForsLeaves, ForsLeafHash, ForsSk, Shl, Pow2;
    var all := ForsLeaves(tw, skSeed, a, tree, leaf, forsTree, 0, Pow2(a));
    var part := ForsLeaves(tw, skSeed, a, tree, leaf, forsTree, Shl(sub, sh), Pow2(sh));
    forall j | 0 <= j < Pow2(sh) ensures Block(all, sh, sub)[j] == part[j] {
      ForsLeavesAt(tw, skSeed, a, tree, leaf, forsTree, 0, Pow2(a), Shl(sub, sh) + j);
      ForsLeavesAt(tw, skSeed, a, tree, leaf, forsTree, Shl(sub, sh), Pow2(sh), j);
    }
  }

  /** The roots that `ForsSubtree` returns for the `2^(a-sh)` blocks of one FORS tree, in order. */
  ghost predicate AreForsSubtreeRoots(P: Params, tw: Tweak, skSeed: Digest, tree: TreeIndex, leaf: nat, forsTree: nat,
      sh: nat, roots: seq<Node>)
    requires sh <= P.a
  {
    && |roots| == Pow2(P.a - sh)
    && forall s :: 0 <= s < |roots| ==> roots[s] == ForsBlockRoot(P, tw, skSeed, tree, leaf, forsTree, sh, s)
  }

  lemma BlocksAreAddressedInTheTree(tw: Tweak, a: nat, tree: TreeIndex, leaf: nat, forsTree: nat, sh: nat, s: nat)
    ensures IsBlockHash(ForsHash(tw, a, tree, leaf, forsTree), ForsBlockHash(tw, a, tree, leaf, forsTree, sh, s), sh, s)
  {
    hide Adrs, ForsWord, Word16, Shl;
    forall h: nat, p: nat, l: Node, r: Node | h <= sh
      ensures ForsBlockNode(tw, a, tree, leaf, forsTree, sh, s, h, p, l, r) ==
          ForsNode(tw, a, tree, leaf, forsTree, h, Shl(s, sh - h) + p, l, r)
    {
    }
    hide ForsNode, ForsBlockNode;
  }

  lemma ForsSubtreeRootsAreALevel(P: Params, tw: Tweak, skSeed: Digest, tree: TreeIndex, leaf: nat, forsTree: nat,
      sh: nat, roots: seq<Node>)
    requires sh <= P.a && P.forsLeaves == Pow2(P.a)
    requires AreForsSubtreeRoots(P, tw, skSeed, tree, leaf, forsTree, sh, roots)
    ensures roots == Level(ForsHash(tw, P.a, tree, leaf, forsTree), 0,
        ForsTreeLeaves(P, tw, skSeed, tree, leaf, forsTree), sh)
  {
    var t := P.a - sh;
    var hash := ForsHash(tw, P.a, tree, leaf, forsTree);
    var leaves := ForsTreeLeaves(P, tw, skSeed, tree, leaf, forsTree);
    hide ForsLeaves, Root, Level, Pow2, Shl, ForsHash, ForsBlockHash, IsBlockHash;
    LevelLength(hash, 0, leaves, P.a, sh);
    forall s | 0 <= s < |roots| ensures roots[s] == Level(hash, 0, leaves, sh)[s] {
      var local := ForsBlockHash(tw, P.a, tree, leaf, forsTree, sh, s);
      BlocksAreAddressedInTheTree(tw, P.a, tree, leaf, forsTree, sh, s);
      BlockRootAt(hash, local, leaves, sh, t, s);
      ForsBlockLeaves(tw, skSeed, P.a, tree, leaf, forsTree, sh, s);
    }
  }

  /** Cutting a FORS tree of any height at any height `sh`, building the parts separately and combining
      their roots gives the root of the monolithic build, and the revealed part's path followed by the
      top path is the monolithic authentication path. */
  lemma ForsSplitMatchesMonolithic(P: Params, tw: Tweak, skSeed: Digest, tree: TreeIndex, leaf: nat, forsTree: nat,
      sh: nat, roots: seq<Node>, revealIdx: nat)
    requires sh <= P.a && P.forsLeaves == Pow2(P.a) && revealIdx < P.forsLeaves
    requires AreForsSubtreeRoots(P, tw, skSeed, tree, leaf, forsTree, sh, roots)
    ensures Shr(revealIdx, sh) < |roots| && And(revealIdx, Pow2(sh) - 1) == Low(revealIdx, sh)
    ensures Root(ForsHash(tw, P.a, tree, leaf, forsTree), sh, roots, P.a - sh)
         == ForsRoot(P, tw, skSeed, tree, leaf, forsTree)
    ensures ForsBlockAuth(P, tw, skSeed, tree, leaf, forsTree, sh, Shr(revealIdx, sh), Low(revealIdx, sh))
          + ForsTopAuth(P, tw, tree, leaf, forsTree, sh, roots, Shr(revealIdx, sh))
         == ForsAuth(P, tw, skSeed, tree, leaf, forsTree, revealIdx)
  {
    var hash, t := ForsHash(tw, P.a, tree, leaf, forsTree), P.a - sh;
    var leaves := ForsTreeLeaves(P, tw, skSeed, tree, leaf, forsTree);
    var sub := Shr(revealIdx, sh);
    hide ForsLeaves, Level, Pow2, Shl, Shr, And, Low, AuthPath, SiblingAt;
    ForsSubtreeRootsAreALevel(P, tw, skSeed, tree, leaf, forsTree, sh, roots);
    ShrBound(revealIdx, sh, t);
    RootFromLevel(hash, leaves, sh, t);
    AndMask(revealIdx, sh);
    ShlBound(sub, sh, t);
    ForsBlockLeaves(tw, skSeed, P.a, tree, leaf, forsTree, sh, sub);
    var localHash := ForsBlockHash(tw, P.a, tree, leaf, forsTree, sh, sub);
    assert IsBlockHash(hash, localHash, sh, sub);
    SplitAuthPath(hash, localHash, leaves, sh, t, revealIdx);
  }

  /** Compress the FORS roots into the FORS public key. */
  function ForsCompress(tw: Tweak, tree: TreeIndex, leaf: nat, roots: seq<Node>): Node {
    tw.T(Adrs(0, tree, TYPE_FORS_ROOTS, leaf, 0, 0), Words(roots))
  }

  function ForsRoots(P: Params, tw: Tweak, skSeed: Digest, tree: TreeIndex, leaf: nat, n: nat): (r: seq<Node>)
    requires P.forsLeaves == Pow2(P.a)
    ensures |r| == n
  {
    if n == 0 then []
    else ForsRoots(P, tw, skSeed, tree, leaf, n - 1) + [ForsRoot(P, tw, skSeed, tree, leaf, n - 1)]
  }

  lemma ForsRootsPush(P: Params, tw: Tweak, skSeed: Digest, tree: TreeIndex, leaf: nat, n: nat)
    requires P.forsLeaves == Pow2(P.a)
    ensures ForsRoots(P, tw, skSeed, tree, leaf, 0) == []
    ensures ForsRoots(P, tw, skSeed, tree, leaf, n + 1) ==
        ForsRoots(P, tw, skSeed, tree, leaf, n) + [ForsRoot(P, tw, skSeed, tree, leaf, n)]
  {
    hide ForsRoot;
  }
}
