/** What an accepted signature is: the one the key's owner would have made, unless it gives away a second preimage of
    a hash call the owner makes, or a chain value below the one the owner reveals. */
module Soundness {
  import opened Bits
  import opened Bytes
  import opened Params
  import opened Hashing
  import opened Merkle
  import opened Wots
  import opened Trees
  import opened Signature
  import opened Signer
  import opened Verifier
  import opened Correctness
  import Addresses
  import HashInputs

  /** Where the verifier hashes: a revealed FORS secret, a step up a FORS tree, the FORS roots, a step along a chain,
      the chain ends of a layer, a step up a subtree. */
  datatype Place =
    | SecretAt(i: nat)
    | ForsStepAt(i: nat, h: nat)
    | RootsAt
    | ChainStepAt(m: nat, i: nat, p: nat)
    | EndsAt(m: nat)
    | TreeStepAt(m: nat, h: nat)

  /** The signer's job for the same digest, and a signature of the right length. */
  predicate Fits(j: Job, sig: Bytes) {
    j.Valid() && |sig| == j.P.sigLen
  }

  function ForsOff(j: Job, i: nat): (off: nat)
    requires j.Valid() && i < j.P.k
    ensures off + 16 * (1 + j.P.a) <= j.P.sigLen
  {
    ForsOffsetFits(j.P, i);
    j.P.forsOff + i * j.P.forsPerTree
  }

  function LayerOff(j: Job, m: nat): (off: nat)
    requires j.Valid() && m < j.P.d
    ensures off + j.P.htLayerLen <= j.P.sigLen
  {
    LayerOffsetFits(j.P, m);
    j.P.htOff + m * j.P.htLayerLen
  }

  function TreeOf(j: Job, m: nat): TreeIndex {
    Big(TreeAt(j.P, j.at.tree, m))
  }

  function LeafOf(j: Job, m: nat): (r: nat)
    requires j.Valid()
    ensures r < j.P.leavesPerSubtree
  {
    LeafAt(j.P, j.at.tree, j.at.leaf, m)
  }

  /** The node the verifier holds below layer `m`. */
  function HeldAt(j: Job, sig: Bytes, m: nat): Node
    requires Fits(j, sig) && m <= j.P.d
  {
    CandidateNode(j.P, j.tw, sig, j.at, m)
  }

  predicate IsPlace(j: Job, sig: Bytes, place: Place)
    requires Fits(j, sig)
  {
    match place
    case SecretAt(i) => i < j.P.k
    case ForsStepAt(i, h) => i < j.P.k && h < j.P.a
    case RootsAt => true
    case ChainStepAt(m, i, p) => m < j.P.d && i < SPX_L && Digit(HeldAt(j, sig, m), i) <= p < SPX_W - 1
    case EndsAt(m) => m < j.P.d
    case TreeStepAt(m, h) => m < j.P.d && h < j.P.subtreeH
  }

  /** Two children, in the order the index says. */
  function PairOf(at: nat, node: Node, sibling: Node): Bytes {
    if at % 2 == 1 then Word16(sibling) + Word16(node) else Word16(node) + Word16(sibling)
  }

  function ForsClimb(j: Job, sig: Bytes, i: nat, h: nat): Node
    requires Fits(j, sig) && i < j.P.k && h <= j.P.a
  {
    Climb(ForsHash(j.tw, j.P.a, Big(j.at.tree), j.at.leaf, i), 0, j.at.fields[i],
          ForsLeafHash(j.tw, j.P.a, Big(j.at.tree), j.at.leaf, i, j.at.fields[i], ReadNode(sig, ForsOff(j, i))),
          ReadNodes(sig, ForsOff(j, i) + 16, j.P.a), h)
  }

  function TreeClimb(j: Job, sig: Bytes, m: nat, h: nat): Node
    requires Fits(j, sig) && m < j.P.d && h <= j.P.subtreeH
  {
    Climb(SubtreeHash(j.tw, m, TreeOf(j, m)), 0, LeafOf(j, m), EndsHashed(j, sig, m),
          ReadNodes(sig, LayerOff(j, m) + j.P.wotsSigLen, j.P.subtreeH), h)
  }

  function EndsRead(j: Job, sig: Bytes, m: nat): (r: seq<Node>)
    requires Fits(j, sig) && m < j.P.d
    ensures |r| == SPX_L
  {
    CandidateEnds(j.tw, sig, LayerOff(j, m), m, TreeOf(j, m), LeafOf(j, m), HeldAt(j, sig, m), SPX_L)
  }

  function EndsHashed(j: Job, sig: Bytes, m: nat): Node
    requires Fits(j, sig) && m < j.P.d
  {
    CompressEnds(j.tw, m, TreeOf(j, m), LeafOf(j, m), EndsRead(j, sig, m))
  }

  function SecretOf(j: Job, m: nat, i: nat): Node
    requires j.Valid()
  {
    WotsSk(j.tw.keccak, j.skSeed, m, TreeOf(j, m), LeafOf(j, m), i)
  }

  /** Chain value `i` of layer `m`, as the signature shows it. */
  function ShownAt(j: Job, sig: Bytes, m: nat, i: nat): Node
    requires Fits(j, sig) && m < j.P.d && i < SPX_L
  {
    ReadNode(sig, LayerOff(j, m) + 16 * i)
  }

  /** What the verifier hashes at a place. */
  function VerifierHashes(j: Job, sig: Bytes, place: Place): Bytes
    requires Fits(j, sig) && IsPlace(j, sig, place)
  {
    match place
    case SecretAt(i) => Word16(ReadNode(sig, ForsOff(j, i)))
    case ForsStepAt(i, h) =>
      PairOf(Shr(j.at.fields[i], h), ForsClimb(j, sig, i, h), ReadNodes(sig, ForsOff(j, i) + 16, j.P.a)[h])
    case RootsAt => Words(ForsCandidates(j.P, j.tw, sig, j.at, j.P.k))
    case ChainStepAt(m, i, p) =>
      Word16(Chain(j.tw, m, TreeOf(j, m), LeafOf(j, m), i, ShownAt(j, sig, m, i), Digit(HeldAt(j, sig, m), i), p))
    case EndsAt(m) => Words(EndsRead(j, sig, m))
    case TreeStepAt(m, h) =>
      PairOf(Shr(LeafOf(j, m), h), TreeClimb(j, sig, m, h),
          ReadNodes(sig, LayerOff(j, m) + j.P.wotsSigLen, j.P.subtreeH)[h])
  }

  /** What the signer hashes there, from the secrets. */
  function SignerHashes(j: Job, sig: Bytes, place: Place): Bytes
    requires Fits(j, sig) && IsPlace(j, sig, place)
  {
    match place
    case SecretAt(i) => Word16(ForsSk(j.tw.keccak, j.skSeed, Big(j.at.tree), j.at.leaf, i, j.at.fields[i]))
    case ForsStepAt(i, h) =>
      var hash := ForsHash(j.tw, j.P.a, Big(j.at.tree), j.at.leaf, i);
      var leaves := ForsTreeLeaves(j.P, j.tw, j.skSeed, Big(j.at.tree), j.at.leaf, i);
      ClimbStaysInside(hash, leaves, j.P.a, j.at.fields[i], h);
      var at, level := Shr(j.at.fields[i], h), Level(hash, 0, leaves, h);
      PairOf(at, level[at], level[Sibling(at)])
    case RootsAt => Words(ForsRoots(j.P, j.tw, j.skSeed, Big(j.at.tree), j.at.leaf, j.P.k))
    case ChainStepAt(m, i, p) => Word16(Chain(j.tw, m, TreeOf(j, m), LeafOf(j, m), i, SecretOf(j, m, i), 0, p))
    case EndsAt(m) => Words(ChainEnds(j.tw, j.skSeed, m, TreeOf(j, m), LeafOf(j, m), SPX_L))
    case TreeStepAt(m, h) =>
      var hash, leaves := SubtreeHash(j.tw, m, TreeOf(j, m)), SubtreeLeaves(j.P, j.tw, j.skSeed, m, TreeOf(j, m));
      ClimbStaysInside(hash, leaves, j.P.subtreeH, LeafOf(j, m), h);
      var at, level := Shr(LeafOf(j, m), h), Level(hash, 0, leaves, h);
      PairOf(at, level[at], level[Sibling(at)])
  }

  /** The address under which both hash it. */
  function AddressAt(j: Job, sig: Bytes, place: Place): Bytes
    requires Fits(j, sig) && IsPlace(j, sig, place)
  {
    Addresses.AddressOf(j.P, match place
      case SecretAt(i) => Addresses.ForsNode(j.at.tree, j.at.leaf, i, 0, j.at.fields[i])
      case ForsStepAt(i, h) => Addresses.ForsNode(j.at.tree, j.at.leaf, i, h + 1, Shr(j.at.fields[i], h + 1))
      case RootsAt => Addresses.ForsRoots(j.at.tree, j.at.leaf)
      case ChainStepAt(m, i, p) => Addresses.ChainStep(m, TreeAt(j.P, j.at.tree, m), LeafOf(j, m), i, p)
      case EndsAt(m) => Addresses.PublicKey(m, TreeAt(j.P, j.at.tree, m), LeafOf(j, m))
      case TreeStepAt(m, h) =>
        Addresses.TreeNode(m, TreeAt(j.P, j.at.tree, m), h + 1, Shr(LeafOf(j, m), h + 1)))
  }

  /** At this place the signature brings in a second preimage of the owner's own hash call. */
  predicate SecondPreimage(j: Job, sig: Bytes, place: Place)
    requires Fits(j, sig)
  {
    && IsPlace(j, sig, place)
    && VerifierHashes(j, sig, place) != SignerHashes(j, sig, place)
    && j.tw.T(AddressAt(j, sig, place), VerifierHashes(j, sig, place))
       == j.tw.T(AddressAt(j, sig, place), SignerHashes(j, sig, place))
  }

  /** Chain `i` of layer `m` is shown at a position below the one at which the owner's signatures with that key pair
      show it. */
  predicate RunsBackwards(j: Job, sig: Bytes, m: nat, i: nat)
    requires Fits(j, sig)
  {
    m < j.P.d && i < SPX_L
    && exists e: nat | e < Digit(NodeAt(j, m), i) ::
         ShownAt(j, sig, m, i) == Chain(j.tw, m, TreeOf(j, m), LeafOf(j, m), i, SecretOf(j, m, i), 0, e)
  }

  ghost predicate NoSecondPreimage(j: Job, sig: Bytes)
    requires Fits(j, sig)
  {
    forall place :: !SecondPreimage(j, sig, place)
  }

  ghost predicate NothingBackwards(j: Job, sig: Bytes)
    requires Fits(j, sig)
  {
    forall m, i :: !RunsBackwards(j, sig, m, i)
  }

  /** What a forgery gives away. */
  ghost predicate Forged(j: Job, sig: Bytes) {
    Fits(j, sig) && !(NoSecondPreimage(j, sig) && NothingBackwards(j, sig))
  }

  // ---------------------------------------------------------------- climbs

  lemma Word16Injective(a: Node, b: Node)
    requires Word16(a) == Word16(b)
    ensures a == b
  {
    assert Word16(a)[..16] == a && Word16(b)[..16] == b;
  }

  lemma PairInjective(at: nat, a: Node, s: Node, b: Node, t: Node)
    requires PairOf(at, a, s) == PairOf(at, b, t)
    ensures a == b && s == t
  {
    var x, y := PairOf(at, a, s), PairOf(at, b, t);
    hide Word16;
    if at % 2 == 1 {
      assert x[..32] == Word16(s) && x[32..] == Word16(a) && y[..32] == Word16(t) && y[32..] == Word16(b);
    } else {
      assert x[..32] == Word16(a) && x[32..] == Word16(s) && y[..32] == Word16(b) && y[32..] == Word16(t);
    }
    Word16Injective(a, b);
    Word16Injective(s, t);
  }

  lemma {:induction false} WordsInjective(a: seq<Node>, b: seq<Node>)
    requires Words(a) == Words(b)
    ensures a == b
  {
    if |a| > 0 {
      var n := |a| - 1;
      hide Word16;
      var x, y := Words(a), Words(b);
      assert x[..32 * n] == Words(a[..n]) && x[32 * n..] == Word16(a[n]);
      assert y[..32 * n] == Words(b[..n]) && y[32 * n..] == Word16(b[n]);
      WordsInjective(a[..n], b[..n]);
      Word16Injective(a[n], b[n]);
    }
  }

  /** A join is the hash of the pair, under the address of the parent. */
  lemma ForsJoin(j: Job, i: nat, h: nat, idx: nat, node: Node, sibling: Node)
    requires h < j.P.a
    ensures Join(ForsHash(j.tw, j.P.a, Big(j.at.tree), j.at.leaf, i), h, Shr(idx, h), node, sibling)
         == j.tw.T(Addresses.AddressOf(j.P, Addresses.ForsNode(j.at.tree, j.at.leaf, i, h + 1, Shr(idx, h + 1))),
                   PairOf(Shr(idx, h), node, sibling))
  {
    hide Shr, Adrs, ForsWord, Word16;
    ShrSucc(idx, h);
  }

  lemma TreeJoin(j: Job, m: nat, h: nat, idx: nat, node: Node, sibling: Node)
    ensures Join(SubtreeHash(j.tw, m, TreeOf(j, m)), h, Shr(idx, h), node, sibling)
         == j.tw.T(Addresses.AddressOf(j.P, Addresses.TreeNode(m, TreeAt(j.P, j.at.tree, m), h + 1, Shr(idx, h + 1))),
                   PairOf(Shr(idx, h), node, sibling))
  {
    hide Shr, Adrs, Word16;
    ShrSucc(idx, h);
  }

  lemma ForsJoinBinds(j: Job, sig: Bytes, i: nat, h: nat)
    requires Fits(j, sig) && i < j.P.k && h < j.P.a && NoSecondPreimage(j, sig)
    ensures JoinBinds(ForsHash(j.tw, j.P.a, Big(j.at.tree), j.at.leaf, i),
                ForsTreeLeaves(j.P, j.tw, j.skSeed, Big(j.at.tree), j.at.leaf, i), j.P.a, j.at.fields[i],
                ForsClimb(j, sig, i, 0), ReadNodes(sig, ForsOff(j, i) + 16, j.P.a), h)
  {
    hide Climb, Join, Level, ForsLeafHash, ForsTreeLeaves, ReadNodes, Shr, Pow2, PairOf, Addresses.AddressOf;
    var hash := ForsHash(j.tw, j.P.a, Big(j.at.tree), j.at.leaf, i);
    var leaves := ForsTreeLeaves(j.P, j.tw, j.skSeed, Big(j.at.tree), j.at.leaf, i);
    var path := ReadNodes(sig, ForsOff(j, i) + 16, j.P.a);
    ClimbStart(hash, j.at.fields[i],
        ForsLeafHash(j.tw, j.P.a, Big(j.at.tree), j.at.leaf, i, j.at.fields[i], ReadNode(sig, ForsOff(j, i))), path);
    ClimbStaysInside(hash, leaves, j.P.a, j.at.fields[i], h);
    var at, level := Shr(j.at.fields[i], h), Level(hash, 0, leaves, h);
    ForsJoin(j, i, h, j.at.fields[i], ForsClimb(j, sig, i, h), path[h]);
    ForsJoin(j, i, h, j.at.fields[i], level[at], level[Sibling(at)]);
    assert !SecondPreimage(j, sig, ForsStepAt(i, h));
    if VerifierHashes(j, sig, ForsStepAt(i, h)) == SignerHashes(j, sig, ForsStepAt(i, h)) {
      PairInjective(at, ForsClimb(j, sig, i, h), path[h], level[at], level[Sibling(at)]);
    }
  }

  lemma ClimbStart(hash: NodeHash<Node>, idx: nat, leaf: Node, path: seq<Node>)
    ensures Climb(hash, 0, idx, leaf, path, 0) == leaf
  {
  }

  lemma TreeJoinBinds(j: Job, sig: Bytes, m: nat, h: nat)
    requires Fits(j, sig) && m < j.P.d && h < j.P.subtreeH && NoSecondPreimage(j, sig)
    ensures JoinBinds(SubtreeHash(j.tw, m, TreeOf(j, m)), SubtreeLeaves(j.P, j.tw, j.skSeed, m, TreeOf(j, m)),
                j.P.subtreeH, LeafOf(j, m), EndsHashed(j, sig, m),
                ReadNodes(sig, LayerOff(j, m) + j.P.wotsSigLen, j.P.subtreeH), h)
  {
    hide Climb, Join, Level, SubtreeLeaves, ReadNodes, Shr, Pow2, PairOf, Addresses.AddressOf, EndsHashed;
    var hash, leaves := SubtreeHash(j.tw, m, TreeOf(j, m)), SubtreeLeaves(j.P, j.tw, j.skSeed, m, TreeOf(j, m));
    var path := ReadNodes(sig, LayerOff(j, m) + j.P.wotsSigLen, j.P.subtreeH);
    ClimbStaysInside(hash, leaves, j.P.subtreeH, LeafOf(j, m), h);
    var at, level := Shr(LeafOf(j, m), h), Level(hash, 0, leaves, h);
    TreeJoin(j, m, h, LeafOf(j, m), TreeClimb(j, sig, m, h), path[h]);
    TreeJoin(j, m, h, LeafOf(j, m), level[at], level[Sibling(at)]);
    assert !SecondPreimage(j, sig, TreeStepAt(m, h));
    if VerifierHashes(j, sig, TreeStepAt(m, h)) == SignerHashes(j, sig, TreeStepAt(m, h)) {
      PairInjective(at, TreeClimb(j, sig, m, h), path[h], level[at], level[Sibling(at)]);
    }
  }

  // ---------------------------------------------------------------- FORS

  /** A FORS tree whose candidate is its root is shown as the signer shows it. */
  lemma ForsPartIsSigners(j: Job, sig: Bytes, i: nat)
    requires Fits(j, sig) && i < j.P.k && NoSecondPreimage(j, sig)
    requires ForsCandidate(j.P, j.tw, sig, j.at, i, ForsOff(j, i))
          == ForsRoot(j.P, j.tw, j.skSeed, Big(j.at.tree), j.at.leaf, i)
    ensures ForsTreeAt(j, sig, i)
  {
    hide Climb, Level, ReadNodes, Shr, Pow2, ForsLeafHash, ForsSk, JoinBinds, AuthPath, SecondPreimage, ForsTreeLeaves,
        Addresses.AddressOf;
    var P, off, field := j.P, ForsOff(j, i), j.at.fields[i];
    var hash := ForsHash(j.tw, P.a, Big(j.at.tree), j.at.leaf, i);
    var leaves := ForsTreeLeaves(P, j.tw, j.skSeed, Big(j.at.tree), j.at.leaf, i);
    var leaf := ForsLeafHash(j.tw, P.a, Big(j.at.tree), j.at.leaf, i, field, ReadNode(sig, off));
    var path := ReadNodes(sig, off + 16, P.a);
    forall h | 0 <= h < P.a ensures JoinBinds(hash, leaves, P.a, field, leaf, path, h) {
      ForsJoinBinds(j, sig, i, h);
      ClimbStart(hash, field, leaf, path);
    }
    RootIsTopLevel(hash, leaves, P.a, field);
    ClimbCameFromLeaf(hash, leaves, P.a, field, leaf, path, P.a);
    assert path[..P.a] == path;
    SecretIsSigners(j, sig, i);
    ReadNodesSplit(sig, off, 1, P.a);
    ReadOne(sig, off);
  }

  lemma RootIsTopLevel(hash: NodeHash<Node>, nodes: seq<Node>, n: nat, idx: nat)
    requires |nodes| == Pow2(n) && idx < Pow2(n)
    ensures Shr(idx, n) == 0 && |Level(hash, 0, nodes, n)| == 1
    ensures Level(hash, 0, nodes, n)[0] == Root(hash, 0, nodes, n)
  {
    hide Shr, Level;
    ShrBound(idx, n, 0);
    LevelLength(hash, 0, nodes, n, n);
  }

  lemma SecretIsSigners(j: Job, sig: Bytes, i: nat)
    requires Fits(j, sig) && i < j.P.k && NoSecondPreimage(j, sig)
    requires ForsLeafHash(j.tw, j.P.a, Big(j.at.tree), j.at.leaf, i, j.at.fields[i], ReadNode(sig, ForsOff(j, i)))
          == ForsTreeLeaves(j.P, j.tw, j.skSeed, Big(j.at.tree), j.at.leaf, i)[j.at.fields[i]]
    ensures ReadNode(sig, ForsOff(j, i)) == ForsSk(j.tw.keccak, j.skSeed, Big(j.at.tree), j.at.leaf, i, j.at.fields[i])
  {
    hide ForsSk, Adrs, ForsWord, Word16, Pow2, ForsLeaves;
    var field := j.at.fields[i];
    ForsLeavesAt(j.tw, j.skSeed, j.P.a, Big(j.at.tree), j.at.leaf, i, 0, j.P.forsLeaves, field);
    assert !SecondPreimage(j, sig, SecretAt(i));
    var shown, own := ReadNode(sig, ForsOff(j, i)), ForsSk(j.tw.keccak, j.skSeed, Big(j.at.tree), j.at.leaf, i, field);
    if Word16(shown) == Word16(own) { Word16Injective(shown, own); }
  }

  lemma {:induction false} ForsCandidatesAt(j: Job, sig: Bytes, n: nat, i: nat)
    requires Fits(j, sig) && i < n <= j.P.k
    ensures ForsCandidates(j.P, j.tw, sig, j.at, n)[i] == ForsCandidate(j.P, j.tw, sig, j.at, i, ForsOff(j, i))
  {
    hide ForsCandidate, Pow2;
    if i < n - 1 { ForsCandidatesAt(j, sig, n - 1, i); }
  }

  lemma {:induction false} ForsRootsAt(P: Params, tw: Tweak, skSeed: Digest, tree: TreeIndex, leaf: nat, n: nat, i: nat)
    requires P.forsLeaves == Pow2(P.a) && i < n
    ensures ForsRoots(P, tw, skSeed, tree, leaf, n)[i] == ForsRoot(P, tw, skSeed, tree, leaf, i)
  {
    hide ForsRoot, Pow2;
    if i < n - 1 { ForsRootsAt(P, tw, skSeed, tree, leaf, n - 1, i); }
  }

  /** Under the FORS public key that the signer has, every FORS tree is shown as the signer shows it. */
  lemma ForsIsSigners(j: Job, sig: Bytes, i: nat)
    requires Fits(j, sig) && i < j.P.k && NoSecondPreimage(j, sig) && HeldAt(j, sig, 0) == NodeAt(j, 0)
    ensures ForsTreeAt(j, sig, i)
  {
    RootsAreSigners(j, sig);
    ForsCandidatesAt(j, sig, j.P.k, i);
    ForsRootsAt(j.P, j.tw, j.skSeed, Big(j.at.tree), j.at.leaf, j.P.k, i);
    hide ForsCandidate, ForsCandidates, ForsRoots, ForsRoot, ForsTreeAt, Pow2, SecondPreimage, HeldAt, NodeAt;
    ForsPartIsSigners(j, sig, i);
  }

  lemma RootsAreSigners(j: Job, sig: Bytes)
    requires Fits(j, sig) && NoSecondPreimage(j, sig) && HeldAt(j, sig, 0) == NodeAt(j, 0)
    ensures ForsCandidates(j.P, j.tw, sig, j.at, j.P.k)
         == ForsRoots(j.P, j.tw, j.skSeed, Big(j.at.tree), j.at.leaf, j.P.k)
  {
    hide ForsCandidates, ForsRoots, Words, Adrs, Pow2;
    var shown := ForsCandidates(j.P, j.tw, sig, j.at, j.P.k);
    var own := ForsRoots(j.P, j.tw, j.skSeed, Big(j.at.tree), j.at.leaf, j.P.k);
    assert !SecondPreimage(j, sig, RootsAt);
    if Words(shown) == Words(own) { WordsInjective(shown, own); }
  }

  // ---------------------------------------------------------------- one layer

  /** A climb that arrives at the root of the signer's subtree went up the signer's path from the signer's leaf. */
  lemma PathIsSigners(j: Job, sig: Bytes, m: nat)
    requires Fits(j, sig) && m < j.P.d && NoSecondPreimage(j, sig)
    requires TreeClimb(j, sig, m, j.P.subtreeH) == SubtreeRoot(j.P, j.tw, j.skSeed, m, TreeOf(j, m))
    ensures EndsHashed(j, sig, m) == SubtreeLeaves(j.P, j.tw, j.skSeed, m, TreeOf(j, m))[LeafOf(j, m)]
    ensures ReadNodes(sig, LayerOff(j, m) + j.P.wotsSigLen, j.P.subtreeH)
         == SubtreeAuth(j.P, j.tw, j.skSeed, m, TreeOf(j, m), LeafOf(j, m))
  {
    hide Climb, Level, ReadNodes, Shr, Pow2, JoinBinds, AuthPath, SecondPreimage, EndsHashed, SubtreeLeaves, TreeOf,
        LeafOf, NoSecondPreimage, LayerOff, SubtreeHash, Root;
    var P := j.P;
    var hash, leaves := SubtreeHash(j.tw, m, TreeOf(j, m)), SubtreeLeaves(P, j.tw, j.skSeed, m, TreeOf(j, m));
    var leaf, path := EndsHashed(j, sig, m), ReadNodes(sig, LayerOff(j, m) + P.wotsSigLen, P.subtreeH);
    forall h | 0 <= h < P.subtreeH ensures JoinBinds(hash, leaves, P.subtreeH, LeafOf(j, m), leaf, path, h) {
      TreeJoinBinds(j, sig, m, h);
    }
    RootIsTopLevel(hash, leaves, P.subtreeH, LeafOf(j, m));
    ClimbCameFromLeaf(hash, leaves, P.subtreeH, LeafOf(j, m), leaf, path, P.subtreeH);
    assert path[..P.subtreeH] == path;
  }

  /** So a layer that arrives there has the signer's chain ends and path. */
  lemma EndsAreSigners(j: Job, sig: Bytes, m: nat)
    requires Fits(j, sig) && m < j.P.d && NoSecondPreimage(j, sig) && HeldAt(j, sig, m + 1) == NodeAt(j, m + 1)
    ensures EndsRead(j, sig, m) == ChainEnds(j.tw, j.skSeed, m, TreeOf(j, m), LeafOf(j, m), SPX_L)
    ensures ReadNodes(sig, LayerOff(j, m) + j.P.wotsSigLen, j.P.subtreeH)
         == SubtreeAuth(j.P, j.tw, j.skSeed, m, TreeOf(j, m), LeafOf(j, m))
  {
    HeldIsClimb(j, sig, m);
    PathIsSigners(j, sig, m);
    LeafIsPublicKey(j, m);
    hide TreeClimb, ReadNodes, Pow2, SecondPreimage, EndsHashed, SubtreeLeaves, HeldAt, NodeAt, TreeOf, LeafOf,
        PublicKey, NoSecondPreimage, SubtreeAuth, ChainEnds, EndsRead, LayerOff;
    EndsBind(j, sig, m);
  }

  lemma LeafIsPublicKey(j: Job, m: nat)
    requires j.Valid()
    ensures SubtreeLeaves(j.P, j.tw, j.skSeed, m, TreeOf(j, m))[LeafOf(j, m)]
         == PublicKey(j.tw, j.skSeed, m, TreeOf(j, m), LeafOf(j, m))
  {
    hide PublicKeys, PublicKey, Pow2, TreeOf, LeafOf;
    PublicKeysAt(j.tw, j.skSeed, m, TreeOf(j, m), 0, j.P.leavesPerSubtree, LeafOf(j, m));
  }

  lemma HeldIsClimb(j: Job, sig: Bytes, m: nat)
    requires Fits(j, sig) && m < j.P.d
    ensures HeldAt(j, sig, m + 1) == TreeClimb(j, sig, m, j.P.subtreeH)
    ensures NodeAt(j, m + 1) == SubtreeRoot(j.P, j.tw, j.skSeed, m, TreeOf(j, m))
  {
    hide Climb, ReadNodes, CandidateEnds, Pow2, TreeAt, LeafAt, CompressEnds, SubtreeRoot;
  }

  lemma EndsBind(j: Job, sig: Bytes, m: nat)
    requires Fits(j, sig) && m < j.P.d && NoSecondPreimage(j, sig)
    requires EndsHashed(j, sig, m) == PublicKey(j.tw, j.skSeed, m, TreeOf(j, m), LeafOf(j, m))
    ensures EndsRead(j, sig, m) == ChainEnds(j.tw, j.skSeed, m, TreeOf(j, m), LeafOf(j, m), SPX_L)
  {
    hide Words, Adrs, Pow2, CandidateEnds, ChainEnds, TreeAt, LeafAt;
    var shown, own := EndsRead(j, sig, m), ChainEnds(j.tw, j.skSeed, m, TreeOf(j, m), LeafOf(j, m), SPX_L);
    assert !SecondPreimage(j, sig, EndsAt(m));
    if Words(shown) == Words(own) { WordsInjective(shown, own); }
  }

  lemma {:induction false} CandidateEndsAt(tw: Tweak, sig: Bytes, off: nat, layer: nat, tree: TreeIndex, leaf: nat,
      node: Node, n: nat, i: nat)
    requires i < n <= SPX_L && off + 16 * n <= |sig|
    ensures CandidateEnds(tw, sig, off, layer, tree, leaf, node, n)[i]
         == Chain(tw, layer, tree, leaf, i, ReadNode(sig, off + 16 * i), Digit(node, i), SPX_W - 1)
  {
    hide Chain, Digit;
    if i < n - 1 { CandidateEndsAt(tw, sig, off, layer, tree, leaf, node, n - 1, i); }
  }

  lemma {:induction false} ChainEndsAt(tw: Tweak, skSeed: Digest, layer: nat, tree: TreeIndex, keypair: nat, n: nat,
      i: nat)
    requires i < n
    ensures ChainEnds(tw, skSeed, layer, tree, keypair, n)[i]
         == Chain(tw, layer, tree, keypair, i, WotsSk(tw.keccak, skSeed, layer, tree, keypair, i), 0, SPX_W - 1)
  {
    hide Chain, WotsSk;
    if i < n - 1 { ChainEndsAt(tw, skSeed, layer, tree, keypair, n - 1, i); }
  }

  /** A chain that meets the signer's at `q` was on it from the position at which it was shown. */
  lemma {:induction false} ChainIsSigners(j: Job, sig: Bytes, m: nat, i: nat, q: nat)
    requires Fits(j, sig) && m < j.P.d && i < SPX_L && NoSecondPreimage(j, sig)
    requires Digit(HeldAt(j, sig, m), i) <= q < SPX_W
    requires Chain(j.tw, m, TreeOf(j, m), LeafOf(j, m), i, ShownAt(j, sig, m, i), Digit(HeldAt(j, sig, m), i), q)
          == Chain(j.tw, m, TreeOf(j, m), LeafOf(j, m), i, SecretOf(j, m, i), 0, q)
    ensures ShownAt(j, sig, m, i)
         == Chain(j.tw, m, TreeOf(j, m), LeafOf(j, m), i, SecretOf(j, m, i), 0, Digit(HeldAt(j, sig, m), i))
  {
    hide Adrs, Word16, Pow2, TreeAt, LeafAt, Digit, HeldAt, ShownAt, SecretOf, LeafOf, TreeOf;
    var start := Digit(HeldAt(j, sig, m), i);
    if q > start {
      ChainStepBinds(j, sig, m, i, q - 1);
      ChainIsSigners(j, sig, m, i, q - 1);
    }
  }

  lemma ChainStepBinds(j: Job, sig: Bytes, m: nat, i: nat, p: nat)
    requires Fits(j, sig) && m < j.P.d && i < SPX_L && NoSecondPreimage(j, sig)
    requires Digit(HeldAt(j, sig, m), i) <= p < SPX_W - 1
    requires Chain(j.tw, m, TreeOf(j, m), LeafOf(j, m), i, ShownAt(j, sig, m, i), Digit(HeldAt(j, sig, m), i), p + 1)
          == Chain(j.tw, m, TreeOf(j, m), LeafOf(j, m), i, SecretOf(j, m, i), 0, p + 1)
    ensures Chain(j.tw, m, TreeOf(j, m), LeafOf(j, m), i, ShownAt(j, sig, m, i), Digit(HeldAt(j, sig, m), i), p)
         == Chain(j.tw, m, TreeOf(j, m), LeafOf(j, m), i, SecretOf(j, m, i), 0, p)
  {
    hide Adrs, Word16, Pow2, TreeAt, LeafAt, Digit, HeldAt, ShownAt, SecretOf;
    var shown :=
      Chain(j.tw, m, TreeOf(j, m), LeafOf(j, m), i, ShownAt(j, sig, m, i), Digit(HeldAt(j, sig, m), i), p);
    var own := Chain(j.tw, m, TreeOf(j, m), LeafOf(j, m), i, SecretOf(j, m, i), 0, p);
    assert !SecondPreimage(j, sig, ChainStepAt(m, i, p));
    if Word16(shown) == Word16(own) { Word16Injective(shown, own); }
  }

  /** Every chain of such a layer is shown on the signer's chain, at the digit of the node the verifier holds. */
  lemma ShownIsOnChain(j: Job, sig: Bytes, m: nat, i: nat)
    requires Fits(j, sig) && m < j.P.d && i < SPX_L && NoSecondPreimage(j, sig)
    requires EndsRead(j, sig, m) == ChainEnds(j.tw, j.skSeed, m, TreeOf(j, m), LeafOf(j, m), SPX_L)
    ensures ShownAt(j, sig, m, i)
         == Chain(j.tw, m, TreeOf(j, m), LeafOf(j, m), i, SecretOf(j, m, i), 0, Digit(HeldAt(j, sig, m), i))
  {
    hide Chain, CandidateEnds, ChainEnds, Pow2, TreeAt, LeafAt, Digit, HeldAt, WotsSk, SecondPreimage;
    CandidateEndsAt(j.tw, sig, LayerOff(j, m), m, TreeOf(j, m), LeafOf(j, m), HeldAt(j, sig, m), SPX_L, i);
    ChainEndsAt(j.tw, j.skSeed, m, TreeOf(j, m), LeafOf(j, m), SPX_L, i);
    ChainIsSigners(j, sig, m, i, SPX_W - 1);
  }

  /** So the verifier holds the node the signer signed: any other would show some chain at a lower position. */
  lemma HeldIsSigned(j: Job, sig: Bytes, m: nat)
    requires Fits(j, sig) && m < j.P.d && NoSecondPreimage(j, sig) && NothingBackwards(j, sig)
    requires EndsRead(j, sig, m) == ChainEnds(j.tw, j.skSeed, m, TreeOf(j, m), LeafOf(j, m), SPX_L)
    ensures HeldAt(j, sig, m) == NodeAt(j, m)
  {
    hide Chain, CandidateEnds, ChainEnds, Pow2, TreeAt, LeafAt, Digit, HeldAt, NodeAt, SecretOf, ShownAt,
        SecondPreimage, EndsRead;
    if HeldAt(j, sig, m) != NodeAt(j, m) {
      NoDigitVectorDominates(HeldAt(j, sig, m), NodeAt(j, m));
      var i :| 0 <= i < SPX_L && Digit(HeldAt(j, sig, m), i) < Digit(NodeAt(j, m), i);
      assert !RunsBackwards(j, sig, m, i);
      ShownIsOnChain(j, sig, m, i);
    }
  }

  lemma {:induction false} ChainsShown(j: Job, sig: Bytes, m: nat, n: nat)
    requires Fits(j, sig) && m < j.P.d && n <= SPX_L
    requires forall i :: 0 <= i < n ==>
               ShownAt(j, sig, m, i)
                 == Chain(j.tw, m, TreeOf(j, m), LeafOf(j, m), i, SecretOf(j, m, i), 0, Digit(NodeAt(j, m), i))
    ensures ReadNodes(sig, LayerOff(j, m), n)
         == WotsSig(j.tw, j.skSeed, m, TreeOf(j, m), LeafOf(j, m), NodeAt(j, m), n)
  {
    hide Chain, Pow2, TreeAt, LeafAt, Digit, NodeAt, WotsSk;
    if n > 0 { ChainsShown(j, sig, m, n - 1); }
  }

  /** The whole layer is then the signer's. */
  lemma LayerIsSigners(j: Job, sig: Bytes, m: nat)
    requires Fits(j, sig) && m < j.P.d && NoSecondPreimage(j, sig) && NothingBackwards(j, sig)
    requires HeldAt(j, sig, m + 1) == NodeAt(j, m + 1)
    ensures HeldAt(j, sig, m) == NodeAt(j, m) && LayerAt(j, sig, m)
  {
    hide Chain, Pow2, TreeAt, LeafAt, Digit, NodeAt, HeldAt, SecretOf, ShownAt, SecondPreimage, EndsRead, ChainEnds,
        WotsSig, SubtreeAuth, NothingBackwards, ReadNodes;
    EndsAreSigners(j, sig, m);
    HeldIsSigned(j, sig, m);
    forall i | 0 <= i < SPX_L
      ensures ShownAt(j, sig, m, i)
           == Chain(j.tw, m, TreeOf(j, m), LeafOf(j, m), i, SecretOf(j, m, i), 0, Digit(NodeAt(j, m), i))
    {
      ShownIsOnChain(j, sig, m, i);
    }
    ChainsShown(j, sig, m, SPX_L);
    ReadNodesSplit(sig, LayerOff(j, m), SPX_L, j.P.subtreeH);
  }

  // ---------------------------------------------------------------- the whole signature

  /** Below an accepted root everything is the signer's, layer by layer. */
  lemma {:induction false} LayersAreSigners(j: Job, sig: Bytes, m: nat)
    requires Fits(j, sig) && m <= j.P.d && NoSecondPreimage(j, sig) && NothingBackwards(j, sig)
    requires HeldAt(j, sig, j.P.d) == NodeAt(j, j.P.d)
    ensures HeldAt(j, sig, m) == NodeAt(j, m)
    ensures forall x :: m <= x < j.P.d ==> LayerAt(j, sig, x)
    decreases j.P.d - m
  {
    hide HeldAt, NodeAt, LayerAt, SecondPreimage, NothingBackwards, NoSecondPreimage, Pow2;
    if m < j.P.d {
      LayersAreSigners(j, sig, m + 1);
      LayerIsSigners(j, sig, m);
    }
  }

  lemma {:induction false} ForsPartsShown(j: Job, sig: Bytes, n: nat)
    requires Fits(j, sig) && n <= j.P.k && forall i :: 0 <= i < n ==> ForsTreeAt(j, sig, i)
    ensures |ForsParts(j, n)| == n * (1 + j.P.a) && 16 + 16 * |ForsParts(j, n)| <= |sig|
    ensures ReadNodes(sig, 16, |ForsParts(j, n)|) == ForsParts(j, n)
  {
    hide ForsPart, ReadNodes, Pow2;
    ForsPartsLength(j, n);
    if n > 0 {
      ForsPartsShown(j, sig, n - 1);
      ForsPartsLength(j, n - 1);
      ForsOffsetFits(j.P, n - 1);
      assert ForsTreeAt(j, sig, n - 1);
      ReadNodesSplit(sig, 16, |ForsParts(j, n - 1)|, 1 + j.P.a);
    } else {
      SigHasRandomizer(j.P);
      NothingRead(sig, 16);
    }
  }

  lemma NothingRead(sig: Bytes, off: nat)
    requires off <= |sig|
    ensures ReadNodes(sig, off, 0) == []
  {
  }

  lemma {:induction false} LayerPartsShown(j: Job, sig: Bytes, n: nat)
    requires Fits(j, sig) && n <= j.P.d && forall m :: 0 <= m < n ==> LayerAt(j, sig, m)
    ensures 16 * |LayerParts(j, n)| == n * j.P.htLayerLen && j.P.htOff + n * j.P.htLayerLen <= |sig|
    ensures ReadNodes(sig, j.P.htOff, |LayerParts(j, n)|) == LayerParts(j, n)
  {
    hide LayerPart, ReadNodes, Pow2;
    LayerPartsLength(j, n);
    MulMonotone(n, j.P.d, j.P.htLayerLen);
    if n > 0 {
      LayerPartsShown(j, sig, n - 1);
      LayerPartsLength(j, n - 1);
      assert LayerAt(j, sig, n - 1);
      ReadNodesSplit(sig, j.P.htOff, |LayerParts(j, n - 1)|, SPX_L + j.P.subtreeH);
    } else {
      NothingRead(sig, j.P.htOff);
    }
  }

  /** Bytes that are whole nodes are the nodes read from them, packed. */
  lemma {:induction false} FlatOfRead(sig: Bytes, n: nat)
    requires |sig| == 16 * n
    ensures Flat(ReadNodes(sig, 0, n)) == sig
  {
    if n == 0 {
      FlatNone();
    } else {
      hide Flat;
      var k := 16 * (n - 1);
      var front := sig[..k];
      FlatOfRead(front, n - 1);
      ReadIgnoresRest(front, sig, n - 1);
      assert ReadNodes(sig, 0, n) == ReadNodes(sig, 0, n - 1) + [ReadNode(sig, k)];
      hide ReadNodes;
      FlatPush(ReadNodes(sig, 0, n - 1), ReadNode(sig, k));
      assert sig == front + sig[k..k + 16];
    }
  }

  lemma {:induction false} ReadIgnoresRest(front: Bytes, sig: Bytes, n: nat)
    requires front <= sig && 16 * n <= |front|
    ensures ReadNodes(front, 0, n) == ReadNodes(sig, 0, n)
  {
    if n > 0 {
      ReadIgnoresRest(front, sig, n - 1);
      assert front[16 * (n - 1)..16 * (n - 1) + 16] == sig[16 * (n - 1)..16 * (n - 1) + 16];
    }
  }

  /** A signature all of whose parts are the signer's is the signer's. */
  lemma PartsDetermineSignature(j: Job, sig: Bytes)
    requires Fits(j, sig) && 16 <= |sig|
    requires forall i :: 0 <= i < j.P.k ==> ForsTreeAt(j, sig, i)
    requires forall m :: 0 <= m < j.P.d ==> LayerAt(j, sig, m)
    ensures sig == Flat(SigNodes(j, sig[..16]))
  {
    hide ReadNodes, Flat, ForsParts, LayerParts, ForsTreeAt, LayerAt, Pow2, Params.Standard;
    var R: Node := sig[..16];
    ForsPartsShown(j, sig, j.P.k);
    LayerPartsShown(j, sig, j.P.d);
    PartsTileTheSignature(j, R);
    var f, l := |ForsParts(j, j.P.k)|, |LayerParts(j, j.P.d)|;
    ReadOne(sig, 0);
    assert ReadNode(sig, 0) == R;
    ReadNodesSplit(sig, 0, 1, f);
    ReadNodesSplit(sig, 0, 1 + f, l);
    FlatOfRead(sig, 1 + f + l);
  }

  /** What the verifier ends with, against what the signer published. */
  lemma AcceptedMeansRoot(P: Params, keccak: Keccak, hdPvk: Bytes, message: Digest, sig: Bytes)
    requires P.Standard() && |sig| == P.sigLen && 16 <= |sig|
    ensures var key := Derived(P, keccak, hdPvk);
            var j := JobUnder(P, keccak, key, sig[..16], message);
            && Fits(j, sig)
            && (VerdictOf(P, keccak, Word16(key.pkSeed), Word16(key.pkRoot), message, sig) == Verdict.Ok
                <==> HeldAt(j, sig, P.d) == NodeAt(j, P.d))
  {
    hide Derived, CandidateNode, TreeAt, LeafAt, NodeAt, Pow2, DecodeDigestStd, HMsg, SubtreeRoot;
    var key := Derived(P, keccak, hdPvk);
    JobUnderIsValid(P, keccak, key, sig[..16], message);
    TopNodeIsPublicRoot(P, keccak, hdPvk, JobUnder(P, keccak, key, sig[..16], message));
    assert Word16(key.pkSeed)[..16] == key.pkSeed && Word16(key.pkRoot)[..16] == key.pkRoot;
  }

  /** A signature that verifies under a derived key is, byte for byte, the one its owner would make for that message
      under that randomizer; or it brings in a second preimage of one of the owner's hash calls; or it shows a chain
      at a position below the one the owner's signatures show. */
  lemma AcceptedIsGenuine(P: Params, keccak: Keccak, hdPvk: Bytes, message: Digest, sig: Bytes)
    requires P.Standard()
    requires var key := Derived(P, keccak, hdPvk);
             VerdictOf(P, keccak, Word16(key.pkSeed), Word16(key.pkRoot), message, sig) == Verdict.Ok
    ensures 16 <= |sig| == P.sigLen
    ensures var j := JobUnder(P, keccak, Derived(P, keccak, hdPvk), sig[..16], message);
            Fits(j, sig) && (sig == Flat(SigNodes(j, sig[..16])) || Forged(j, sig))
  {
    SigHasRandomizer(P);
    AcceptedMeansRoot(P, keccak, hdPvk, message, sig);
    hide Derived, HeldAt, NodeAt, SecondPreimage, RunsBackwards, Flat, SigNodes, VerdictOf, JobUnder, Pow2, ForsTreeAt,
        LayerAt;
    var j := JobUnder(P, keccak, Derived(P, keccak, hdPvk), sig[..16], message);
    JobUnderHas(P, keccak, Derived(P, keccak, hdPvk), sig[..16], message);
    if NoSecondPreimage(j, sig) && NothingBackwards(j, sig) {
      LayersAreSigners(j, sig, 0);
      forall i | 0 <= i < P.k ensures ForsTreeAt(j, sig, i) { ForsIsSigners(j, sig, i); }
      PartsDetermineSignature(j, sig);
    }
  }

  /** Conversely the owner's signature verifies, whatever randomizer is in it; so where hashing hides its preimages,
      the verdict is Ok exactly on the owner's signatures. */
  lemma AcceptedExactlyWhenGenuine(P: Params, keccak: Keccak, hdPvk: Bytes, message: Digest, sig: Bytes)
    requires P.Standard() && |sig| == P.sigLen && 16 <= |sig|
    requires var j := JobUnder(P, keccak, Derived(P, keccak, hdPvk), sig[..16], message);
             !Forged(j, sig)
    ensures var key := Derived(P, keccak, hdPvk);
            var j := JobUnder(P, keccak, key, sig[..16], message);
            && j.Valid()
            && (VerdictOf(P, keccak, Word16(key.pkSeed), Word16(key.pkRoot), message, sig) == Verdict.Ok
                <==> sig == Flat(SigNodes(j, sig[..16])))
  {
    hide Derived, SecondPreimage, RunsBackwards, Flat, SigNodes, VerdictOf, Pow2, JobUnder, DecodeDigestStd, HMsg;
    var key := Derived(P, keccak, hdPvk);
    JobUnderIsValid(P, keccak, key, sig[..16], message);
    JobUnderHas(P, keccak, key, sig[..16], message);
    var j := JobUnder(P, keccak, key, sig[..16], message);
    if VerdictOf(P, keccak, Word16(key.pkSeed), Word16(key.pkRoot), message, sig) == Verdict.Ok {
      AcceptedIsGenuine(P, keccak, hdPvk, message, sig);
    }
    if sig == Flat(SigNodes(j, sig[..16])) { GenuineIsAccepted(P, keccak, hdPvk, sig[..16], message); }
  }

  // ---------------------------------------------------------------- one signature, two messages

  /** Two different byte strings with one digest. */
  predicate Collide(keccak: Keccak, x: Bytes, y: Bytes) {
    x != y && keccak(x) == keccak(y)
  }

  /** Two different digests that agree in every bit the split uses. */
  predicate NearlyCollide(P: Params, keccak: Keccak, x: Bytes, y: Bytes) {
    && keccak(x) != keccak(y)
    && Low(BytesToNat(keccak(x)), P.k * P.a + P.h) == Low(BytesToNat(keccak(y)), P.k * P.a + P.h)
  }

  /** The inputs of the secrets that two jobs reveal in FORS tree `i` are different, and have one value. */
  predicate SecretsMeet(j: Job, j': Job, i: nat)
    requires j.Valid() && j'.Valid() && j.P == j'.P
  {
    && i < j.P.k
    && HashInputs.InputOf(j.P, LeafSecretOf(j, i)) != HashInputs.InputOf(j.P, LeafSecretOf(j', i))
    && TopN(j.tw.keccak(HashInputs.InputOf(j.P, LeafSecretOf(j, i))))
       == TopN(j.tw.keccak(HashInputs.InputOf(j.P, LeafSecretOf(j', i))))
  }

  ghost predicate SomeSecretsMeet(j: Job, j': Job) {
    j.Valid() && j'.Valid() && j.P == j'.P && exists i :: SecretsMeet(j, j', i)
  }

  function LeafSecretOf(j: Job, i: nat): HashInputs.Derivation
    requires j.Valid() && i < j.P.k
  {
    HashInputs.LeafSecret(j.skSeed, j.at.tree, j.at.leaf, i, j.at.fields[i])
  }

  /** The revealed secret of a FORS tree is where the verifier reads it, and is the hash of its derivation. */
  lemma SecretIsShown(j: Job, R: Node, sig: Bytes, i: nat)
    requires Fits(j, sig) && i < j.P.k && sig == Flat(SigNodes(j, R))
    ensures ReadNode(sig, ForsOff(j, i)) == TopN(j.tw.keccak(HashInputs.InputOf(j.P, LeafSecretOf(j, i))))
  {
    hide ReadNodes, Flat, ForsSk, Pow2, SigNodes, HashInputs.InputOf, ForsAuth;
    ForsTreeIsFound(j, R, i);
    ReadNodesSplit(sig, ForsOff(j, i), 1, j.P.a);
    ReadOne(sig, ForsOff(j, i));
    assert ForsPart(j, i)[0] == ReadNode(sig, ForsOff(j, i));
    HashInputs.DerivationsHashInputs(j.P, j.tw.keccak, [], j.skSeed, Zeros(32), 0, j.at.tree, j.at.leaf, i,
        j.at.fields[i]);
  }

  lemma IndexFits(j: Job, i: nat)
    requires j.Valid() && Addresses.Addressable(j.P) && i < j.P.k && j.at.tree < Pow2(j.P.h - j.P.subtreeH)
    ensures HashInputs.Makes(LeafSecretOf(j, i))
  {
    hide Pow2;
    MulMonotone(1, j.P.k, j.P.forsLeaves);
    MulMonotone(1, j.P.forsLeaves, j.P.k);
  }

  /** One body for two decodings gives away two secrets with one value. */
  lemma OneBodyMeets(j: Job, j': Job, sig: Bytes)
    requires Fits(j, sig) && Fits(j', sig) && j.P == j'.P && j.tw == j'.tw && j.skSeed == j'.skSeed && j.P.k >= 1
    requires Addresses.Addressable(j.P) && HashInputs.DomainSeparates(j.P) && j.at != j'.at
    requires j.at.tree < Pow2(j.P.h - j.P.subtreeH) && j'.at.tree < Pow2(j.P.h - j.P.subtreeH) && 16 <= |sig|
    requires sig == Flat(SigNodes(j, sig[..16])) == Flat(SigNodes(j', sig[..16]))
    ensures SomeSecretsMeet(j, j')
  {
    hide Flat, SigNodes, HashInputs.InputOf, Pow2, Addresses.Addressable, HashInputs.Makes;
    var i := if j.at.tree != j'.at.tree || j.at.leaf != j'.at.leaf then 0
             else FirstDifference(j.at.fields, j'.at.fields);
    SecretIsShown(j, sig[..16], sig, i);
    SecretIsShown(j', sig[..16], sig, i);
    IndexFits(j, i);
    IndexFits(j', i);
    if HashInputs.InputOf(j.P, LeafSecretOf(j, i)) == HashInputs.InputOf(j.P, LeafSecretOf(j', i)) {
      HashInputs.DerivationsAreDistinct(j.P, LeafSecretOf(j, i), LeafSecretOf(j', i));
    }
    assert SecretsMeet(j, j', i);
  }

  function FirstDifference(a: seq<nat>, b: seq<nat>): (i: nat)
    requires |a| == |b| && a != b
    ensures i < |a| && a[i] != b[i]
  {
    if a[0] != b[0] then 0 else 1 + FirstDifference(a[1..], b[1..])
  }

  function InputFor(P: Params, key: KeyPair, R: Node, message: Digest): Bytes {
    HashInputs.MessageInput(P.compactHmsg, HashInputs.Signed(key.pkSeed, key.pkRoot, R, message))
  }

  predicate Verifies(P: Params, keccak: Keccak, key: KeyPair, message: Digest, sig: Bytes)
    requires P.Standard()
  {
    VerdictOf(P, keccak, Word16(key.pkSeed), Word16(key.pkRoot), message, sig) == Verdict.Ok
  }

  /** A signature that verifies for two messages gives away one of: two message inputs with one digest; two digests
      that differ only in bits the split leaves unused; two secrets with one value; or what a forgery gives away. */
  lemma AcceptedForTwoMessages(P: Params, keccak: Keccak, hdPvk: Bytes, message: Digest, message': Digest, sig: Bytes)
    requires Addresses.Addressable(P) && HashInputs.DomainSeparates(P) && P.k >= 1 && message != message'
    requires Verifies(P, keccak, Derived(P, keccak, hdPvk), message, sig)
    requires Verifies(P, keccak, Derived(P, keccak, hdPvk), message', sig)
    ensures 16 <= |sig| == P.sigLen
    ensures var key, R := Derived(P, keccak, hdPvk), sig[..16];
            var j, j' := JobUnder(P, keccak, key, R, message), JobUnder(P, keccak, key, R, message');
            || Collide(keccak, InputFor(P, key, R, message), InputFor(P, key, R, message'))
            || NearlyCollide(P, keccak, InputFor(P, key, R, message), InputFor(P, key, R, message'))
            || SomeSecretsMeet(j, j') || Forged(j, sig) || Forged(j', sig)
  {
    AcceptedIsGenuine(P, keccak, hdPvk, message, sig);
    AcceptedIsGenuine(P, keccak, hdPvk, message', sig);
    hide Derived, VerdictOf, Forged;
    TwoBodies(P, keccak, Derived(P, keccak, hdPvk), message, message', sig);
  }

  lemma TwoBodies(P: Params, keccak: Keccak, key: KeyPair, message: Digest, message': Digest, sig: Bytes)
    requires P.Standard()
    requires Addresses.Addressable(P) && HashInputs.DomainSeparates(P) && P.k >= 1 && message != message' && 16 <= |sig|
    requires Fits(JobUnder(P, keccak, key, sig[..16], message), sig)
    requires Fits(JobUnder(P, keccak, key, sig[..16], message'), sig)
    ensures var R := sig[..16];
            var j, j' := JobUnder(P, keccak, key, R, message), JobUnder(P, keccak, key, R, message');
            || Collide(keccak, InputFor(P, key, R, message), InputFor(P, key, R, message'))
            || NearlyCollide(P, keccak, InputFor(P, key, R, message), InputFor(P, key, R, message'))
            || SomeSecretsMeet(j, j') || sig != Flat(SigNodes(j, R)) || sig != Flat(SigNodes(j', R))
  {
    hide Flat, SigNodes, SomeSecretsMeet, Pow2, HashInputs.MessageInput, Addresses.Addressable, JobUnder, Low;
    var R: Node := sig[..16];
    var j, j' := JobUnder(P, keccak, key, R, message), JobUnder(P, keccak, key, R, message');
    JobUnderHas(P, keccak, key, R, message);
    JobUnderHas(P, keccak, key, R, message');
    JobOfDigest(P, keccak, key, R, message);
    JobOfDigest(P, keccak, key, R, message');
    if j.at == j'.at {
      OneDecoding(P, keccak, key, R, message, message');
    } else if sig == Flat(SigNodes(j, R)) && sig == Flat(SigNodes(j', R)) {
      OneBodyMeets(j, j', sig);
    }
  }

  lemma OneDecoding(P: Params, keccak: Keccak, key: KeyPair, R: Node, message: Digest, message': Digest)
    requires P.Standard() && message != message'
    requires DecodeDigestStd(P, keccak(InputFor(P, key, R, message)))
          == DecodeDigestStd(P, keccak(InputFor(P, key, R, message')))
    ensures || Collide(keccak, InputFor(P, key, R, message), InputFor(P, key, R, message'))
            || NearlyCollide(P, keccak, InputFor(P, key, R, message), InputFor(P, key, R, message'))
  {
    hide HashInputs.MessageInput, DecodeDigestStd, Shl, Low, HashInputs.Packed, Pow2;
    var x, x' := InputFor(P, key, R, message), InputFor(P, key, R, message');
    if x == x' {
      HashInputs.MessageInputBinds(P.compactHmsg, HashInputs.Signed(key.pkSeed, key.pkRoot, R, message),
          P.compactHmsg, HashInputs.Signed(key.pkSeed, key.pkRoot, R, message'));
    }
    HashInputs.DecodedBitsAreDigest(P, keccak(x));
    HashInputs.DecodedBitsAreDigest(P, keccak(x'));
  }

  lemma JobOfDigest(P: Params, keccak: Keccak, key: KeyPair, R: Node, message: Digest)
    requires P.Standard()
    ensures JobUnder(P, keccak, key, R, message).at == DecodeDigestStd(P, keccak(InputFor(P, key, R, message)))
    ensures P.h >= P.subtreeH && JobUnder(P, keccak, key, R, message).at.tree < Pow2(P.h - P.subtreeH)
  {
    HashInputs.HMsgHashesInput(P, Tweak(keccak, key.pkSeed), key.pkRoot, R, message);
    DecodedInRange(P, HMsg(P, Tweak(keccak, key.pkSeed), key.pkRoot, R, message));
    hide HMsg, DecodeDigestStd, HashInputs.MessageInput;
  }
}
