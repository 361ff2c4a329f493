/** Domain separation: every tweakable-hash call that signing and key generation can make in the standard
    profile has an address of its own. */
module Addresses {
  import opened Bits
  import opened Bytes
  import opened Hashing
  import opened Params
  import Trees
  import Wots

  const WORD := 0x1_0000_0000

  /** The calls, by what they compute. */
  datatype Call =
    | ChainStep(layer: nat, tree: nat, keypair: nat, chain: nat, p: nat)
    | PublicKey(layer: nat, tree: nat, keypair: nat)
    | TreeNode(layer: nat, tree: nat, height: nat, index: nat)
    | ForsNode(tree: nat, leaf: nat, forsTree: nat, height: nat, index: nat)
    | ForsRoots(tree: nat, leaf: nat)

  function AddressOf(P: Params, c: Call): Bytes {
    match c
    case ChainStep(layer, tree, keypair, chain, p) => Adrs(layer, Big(tree), TYPE_WOTS_HASH, keypair, chain, p)
    case PublicKey(layer, tree, keypair) => Adrs(layer, Big(tree), TYPE_WOTS_PK, keypair, 0, 0)
    case TreeNode(layer, tree, height, index) => Adrs(layer, Big(tree), TYPE_TREE, 0, height, index)
    case ForsNode(tree, leaf, forsTree, height, index) =>
      Adrs(0, Big(tree), TYPE_FORS_TREE, leaf, height,
          ForsWord(forsTree, if height <= P.a then P.a - height else 0, index))
    case ForsRoots(tree, leaf) => Adrs(0, Big(tree), TYPE_FORS_ROOTS, leaf, 0, 0)
  }

  /** The scheme's hash functions are calls under these addresses. */
  lemma CallsUseTheirAddress(P: Params, tw: Tweak, layer: nat, tree: nat, leaf: nat, i: nat, h: nat, p: nat, l: Node,
      r: Node, nodes: seq<Node>)
    requires h <= P.a
    ensures Wots.ChainStep(tw, layer, Big(tree), leaf, i, p, l) ==
        tw.T(AddressOf(P, ChainStep(layer, tree, leaf, i, p)), Word16(l))
    ensures Wots.CompressEnds(tw, layer, Big(tree), leaf, nodes) ==
        tw.T(AddressOf(P, PublicKey(layer, tree, leaf)), Words(nodes))
    ensures Trees.SubtreeHash(tw, layer, Big(tree))(h, p, l, r) ==
        tw.T(AddressOf(P, TreeNode(layer, tree, h, p)), Word16(l) + Word16(r))
    ensures Trees.ForsLeafHash(tw, P.a, Big(tree), leaf, i, p, l) ==
        tw.T(AddressOf(P, ForsNode(tree, leaf, i, 0, p)), Word16(l))
    ensures Trees.ForsNode(tw, P.a, Big(tree), leaf, i, h, p, l, r) ==
        tw.T(AddressOf(P, ForsNode(tree, leaf, i, h, p)), Word16(l) + Word16(r))
    ensures Trees.ForsCompress(tw, Big(tree), leaf, nodes) == tw.T(AddressOf(P, ForsRoots(tree, leaf)), Words(nodes))
  {
    hide Adrs, ForsWord, Word16, Words;
  }

  // ---------------------------------------------------------------- which calls there are

  /** The geometry fits the address: layers, leaves and the FORS forest in 32 bits, trees in 64. */
  predicate Addressable(P: Params) {
    && P.Standard() && P.d <= WORD && P.leavesPerSubtree <= WORD && P.k * P.forsLeaves <= WORD
    && P.h >= P.subtreeH && Pow2(P.h - P.subtreeH) <= WORD * WORD
  }

  lemma LedgerIsAddressable()
    ensures Addressable(LEDGER)
  {
    LedgerIsStandard();
    assert Pow2(16) == 16 * Pow2(12) && Pow2(12) == 16 * Pow2(8) && Pow2(8) == 16 * Pow2(4) && Pow2(4) == 16;
  }

  /** Every call that some leaf, tree, layer, chain or message of the scheme gives rise to. */
  predicate Made(P: Params, c: Call)
    requires P.h >= P.subtreeH
  {
    && c.tree < Pow2(P.h - P.subtreeH)
    && match c
       case ChainStep(layer, _, keypair, chain, p) =>
           layer < P.d && keypair < P.leavesPerSubtree && chain < SPX_L && p < SPX_W - 1
       case PublicKey(layer, _, keypair) => layer < P.d && keypair < P.leavesPerSubtree
       case TreeNode(layer, _, height, index) =>
           layer < P.d && height <= P.subtreeH && index < Pow2(P.subtreeH - height)
       case ForsNode(_, leaf, forsTree, height, index) =>
         leaf < P.leavesPerSubtree && forsTree < P.k && height <= P.a && index < Pow2(P.a - height)
       case ForsRoots(_, leaf) => leaf < P.leavesPerSubtree
  }

  // ---------------------------------------------------------------- addresses can be read back

  /** An address determines its fields, as far as they fit it. */
  lemma AdrsInjective(layer: nat, tree: nat, kind: nat, w1: nat, w2: nat, w3: nat,
                      layer': nat, tree': nat, kind': nat, w1': nat, w2': nat, w3': nat)
    requires layer < WORD && kind < WORD && w1 < WORD && w2 < WORD && w3 < WORD && tree < WORD * WORD
    requires layer' < WORD && kind' < WORD && w1' < WORD && w2' < WORD && w3' < WORD && tree' < WORD * WORD
    requires Adrs(layer, Big(tree), kind, w1, w2, w3) == Adrs(layer', Big(tree'), kind', w1', w2', w3')
    ensures layer == layer' && tree == tree' && kind == kind' && w1 == w1' && w2 == w2' && w3 == w3'
  {
    var a, b := Adrs(layer, Big(tree), kind, w1, w2, w3), Adrs(layer', Big(tree'), kind', w1', w2', w3');
    AdrsFields(layer, tree, kind, w1, w2, w3);
    AdrsFields(layer', tree', kind', w1', w2', w3');
    hide Adrs, U32BE;
    WordInjective(layer, layer');
    SameTree(tree, tree');
    SameTree(tree', tree);
    WordInjective(tree / WORD, tree' / WORD);
    WordInjective(tree % WORD, tree' % WORD);
    WordInjective(kind, kind');
    WordInjective(w1, w1');
    WordInjective(w2, w2');
    WordInjective(w3, w3');
  }

  lemma WordInjective(x: nat, y: nat)
    requires U32BE(x) == U32BE(y)
    ensures x < WORD && y < WORD ==> x == y
  {
    U32BEInjective(x, y);
    hide U32BE;
  }

  lemma SameTree(x: nat, y: nat)
    ensures x / WORD == y / WORD && x % WORD == y % WORD ==> x == y
    ensures x < WORD * WORD ==> x / WORD < WORD
    ensures x % WORD < WORD
  {
  }

  /** The 32 bytes of an address: layer, tree, type and three words, each big-endian. */
  lemma AdrsFields(layer: nat, tree: nat, kind: nat, w1: nat, w2: nat, w3: nat)
    ensures var a := Adrs(layer, Big(tree), kind, w1, w2, w3);
            && a[..4] == U32BE(layer) && a[4..8] == Zeros(4) && a[8..12] == U32BE(tree / WORD)
            && a[12..16] == U32BE(tree % WORD) && a[16..20] == U32BE(kind) && a[20..24] == U32BE(w1)
            && a[24..28] == U32BE(w2) && a[28..] == U32BE(w3)
  {
    hide U32BE;
  }

  /** The type codes are those of section 4.2 of FIPS 205, and a word is the number it spells. */
  lemma TypeIsStandard(P: Params, c: Call)
    ensures BytesToNat(AddressOf(P, c)[16..20]) == match c
              case ChainStep(_, _, _, _, _) => 0
              case PublicKey(_, _, _) => 1
              case TreeNode(_, _, _, _) => 2
              case ForsNode(_, _, _, _, _) => 3
              case ForsRoots(_, _) => 4
  {
    hide U32BE;
    var f := FieldsOf(P, c);
    AdrsFields(f.layer, f.tree, f.kind, f.w1, f.w2, f.w3);
    WordSpells(f.kind);
    hide Adrs;
  }

  lemma WordSpells(x: nat)
    requires x < WORD
    ensures BytesToNat(U32BE(x)) == x
  {
    U32BEValue(x);
    var b := U32BE(x);
    assert b[..3][..2] == b[..2] && b[..2][..1] == b[..1];
    var b0: int, b1: int, b2: int := b[0], b[1], b[2];
    assert BytesToNat(b[..1]) == b0;
    assert BytesToNat(b[..2]) == 256 * b0 + b1;
    assert BytesToNat(b[..3]) == 256 * (256 * b0 + b1) + b2;
  }

  /** Without wrap-around the FORS word is the index of the node in its level of the whole forest. */
  lemma ForsWordIsIndex(k: nat, a: nat, forsTree: nat, height: nat, index: nat)
    requires forsTree < k && height <= a && index < Pow2(a - height) && k * Pow2(a) <= WORD
    ensures ForsWord(forsTree, a - height, index) == forsTree * Pow2(a - height) + index < WORD
  {
    hide Pow2, Or, Shl;
    var width := Pow2(a - height);
    OrShl(forsTree, a - height, index);
    Pow2Monotone(a - height, a);
    InsideForest(forsTree, index, k, width, Pow2(a));
  }

  lemma InsideForest(i: nat, x: nat, k: nat, width: nat, whole: nat)
    requires i < k && x < width <= whole
    ensures i * width + x < k * whole
  {
    MulMonotone(i + 1, k, width);
    MulMonotone(width, whole, k);
    assert (i + 1) * width == i * width + width;
  }

  /** Different nodes of one level of the forest have different words. */
  lemma ForsWordInjective(k: nat, a: nat, height: nat, i: nat, x: nat, i': nat, x': nat)
    requires i < k && i' < k && height <= a && x < Pow2(a - height) && x' < Pow2(a - height) && k * Pow2(a) <= WORD
    requires ForsWord(i, a - height, x) == ForsWord(i', a - height, x')
    ensures i == i' && x == x'
  {
    ForsWordIsIndex(k, a, i, height, x);
    ForsWordIsIndex(k, a, i', height, x');
    hide ForsWord;
    var width := Pow2(a - height);
    DivModUnique(i * width + x, i, width, x);
    DivModUnique(i' * width + x', i', width, x');
  }

  // ---------------------------------------------------------------- the theorem

  /** No two calls share an address. */
  lemma AddressesAreDistinct(P: Params, c: Call, c': Call)
    requires Addressable(P) && Made(P, c) && Made(P, c') && AddressOf(P, c) == AddressOf(P, c')
    ensures c == c'
  {
    hide Adrs, ForsWord, Pow2;
    var f, f' := FieldsOf(P, c), FieldsOf(P, c');
    FieldsFit(P, c);
    FieldsFit(P, c');
    AdrsInjective(f.layer, f.tree, f.kind, f.w1, f.w2, f.w3, f'.layer, f'.tree, f'.kind, f'.w1, f'.w2, f'.w3);
    if c.ForsNode? {
      ForsWordInjective(P.k, P.a, c.height, c.forsTree, c.index, c'.forsTree, c'.index);
    }
  }

  datatype Fields = Fields(layer: nat, tree: nat, kind: nat, w1: nat, w2: nat, w3: nat)

  function FieldsOf(P: Params, c: Call): Fields {
    match c
    case ChainStep(layer, tree, keypair, chain, p) => Fields(layer, tree, TYPE_WOTS_HASH, keypair, chain, p)
    case PublicKey(layer, tree, keypair) => Fields(layer, tree, TYPE_WOTS_PK, keypair, 0, 0)
    case TreeNode(layer, tree, height, index) => Fields(layer, tree, TYPE_TREE, 0, height, index)
    case ForsNode(tree, leaf, forsTree, height, index) =>
      Fields(0, tree, TYPE_FORS_TREE, leaf, height,
          ForsWord(forsTree, if height <= P.a then P.a - height else 0, index))
    case ForsRoots(tree, leaf) => Fields(0, tree, TYPE_FORS_ROOTS, leaf, 0, 0)
  }

  lemma FieldsFit(P: Params, c: Call)
    requires Addressable(P) && Made(P, c)
    ensures var f := FieldsOf(P, c);
            && AddressOf(P, c) == Adrs(f.layer, Big(f.tree), f.kind, f.w1, f.w2, f.w3)
            && f.layer < WORD && f.tree < WORD * WORD && f.kind < WORD && f.w1 < WORD && f.w2 < WORD && f.w3 < WORD
  {
    hide Adrs, ForsWord, Pow2;
    match c
    case TreeNode(_, _, height, _) =>
      Pow2Monotone(P.subtreeH - height, P.subtreeH);
      HeightFits(P.subtreeH);
    case ForsNode(_, _, forsTree, height, index) =>
      ForsWordIsIndex(P.k, P.a, forsTree, height, index);
      MulMonotone(1, P.k, P.forsLeaves);
      HeightFits(P.a);
    case _ =>
  }

  lemma {:induction false} HeightFits(n: nat)
    ensures n < Pow2(n)
  {
    if n > 0 { HeightFits(n - 1); }
  }
}
