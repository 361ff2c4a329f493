/** Winternitz one-time signatures with checksum chains (section 5 of FIPS 205). */
module Wots {
  import opened Bits
  import opened Bytes
  import opened Params
  import opened Hashing

  // ---------------------------------------------------------------- chains

  /** One hash step of a chain, at hash address `p`. */
  function ChainStep(tw: Tweak, layer: nat, tree: TreeIndex, keypair: nat, chain: nat, p: nat, v: Node): Node {
    tw.T(Adrs(layer, tree, TYPE_WOTS_HASH, keypair, chain, p), Word16(v))
  }

  function Chain(tw: Tweak, layer: nat, tree: TreeIndex, keypair: nat, chain: nat, v: Node, start: nat, stop: nat): Node
    decreases stop
  {
    if stop <= start then v
    else ChainStep(tw, layer, tree, keypair, chain, stop - 1,
        Chain(tw, layer, tree, keypair, chain, v, start, stop - 1))
  }

  /** Stopping a chain and resuming it at the same position is the same as running it through. */
  lemma {:induction false} ChainComposes(tw: Tweak, layer: nat, tree: TreeIndex, keypair: nat, chain: nat, v: Node,
      start: nat, mid: nat, stop: nat)
    requires start <= mid <= stop
    ensures Chain(tw, layer, tree, keypair, chain, Chain(tw, layer, tree, keypair, chain, v, start, mid), mid, stop)
         == Chain(tw, layer, tree, keypair, chain, v, start, stop)
    decreases stop
  {
    if mid < stop { ChainComposes(tw, layer, tree, keypair, chain, v, start, mid, stop - 1); }
  }

  /** A chain is its hash steps, each under the position it starts from. */
  lemma ChainIsSteps(tw: Tweak, layer: nat, tree: TreeIndex, keypair: nat, chain: nat, v: Node, p: nat)
    ensures Chain(tw, layer, tree, keypair, chain, v, p, p) == v
    ensures Chain(tw, layer, tree, keypair, chain, v, p, p + 1)
         == tw.T(Adrs(layer, tree, TYPE_WOTS_HASH, keypair, chain, p), Word16(v))
  {
  }

  method WotsChain(tw: Tweak, layer: nat, tree: TreeIndex, keypair: nat, chain: nat, val: Node, start: nat, stop: nat)
    returns (v: Node)
    ensures v == Chain(tw, layer, tree, keypair, chain, val, start, stop)
  {
    v := val;
    var p := start;
    while p < stop
      invariant start <= p && (p <= stop || p == start)
      invariant v == Chain(tw, layer, tree, keypair, chain, val, start, p)
    {
      v := tw.T(Adrs(layer, tree, TYPE_WOTS_HASH, keypair, chain, p), Word16(v));
      p := p + 1;
    }
  }

  // ---------------------------------------------------------------- digits

  /** Base-16 digit `i` of a node, high nibble first. */
  function MsgDigit(node: Node, i: nat): (r: nat)
    requires i < 32
    ensures r < 16
  {
    if i % 2 == 1 then node[i / 2] % 16 else node[i / 2] / 16
  }

  /** The number that the first `n` message digits spell in base 16. */
  function Spelt(node: Node, n: nat): nat
    requires n <= 32
  {
    if n == 0 then 0 else 16 * Spelt(node, n - 1) + MsgDigit(node, n - 1)
  }

  /** The digits spell the node, most significant first. */
  lemma {:induction false} DigitsSpellNode(node: Node, b: nat)
    requires b <= 16
    ensures Spelt(node, 2 * b) == BytesToNat(node[..b])
  {
    if b > 0 {
      DigitsSpellNode(node, b - 1);
      assert node[..b][..b - 1] == node[..b - 1];
      assert Spelt(node, 2 * b) == 16 * Spelt(node, 2 * b - 1) + MsgDigit(node, 2 * b - 1);
      assert Spelt(node, 2 * b - 1) == 16 * Spelt(node, 2 * b - 2) + MsgDigit(node, 2 * b - 2);
    }
  }

  /** How far the first `n` message digits fall short of the maximum, summed. */
  function Shortfall(node: Node, n: nat): (r: nat)
    requires n <= 32
    ensures r <= 15 * n
  {
    if n == 0 then 0 else Shortfall(node, n - 1) + 15 - MsgDigit(node, n - 1)
  }

  /** Digit `i` of the signed vector: 32 message digits, then the checksum in three base-16 digits. */
  function Digit(node: Node, i: nat): (r: nat)
    requires i < SPX_L
    ensures r < 16
  {
    if i < 32 then MsgDigit(node, i)
    else if i == 32 then Shortfall(node, 32) / 256 % 16
    else if i == 33 then Shortfall(node, 32) / 16 % 16
    else Shortfall(node, 32) % 16
  }

  /** The three checksum digits carry the whole checksum. */
  lemma ChecksumDigitsCarryAll(node: Node)
    ensures 256 * Digit(node, 32) + 16 * Digit(node, 33) + Digit(node, 34) == Shortfall(node, 32)
  {
    var c := Shortfall(node, 32);
    assert c <= 480;
    assert c / 256 % 16 == c / 256;
    assert c / 16 % 16 == c / 16 - 16 * (c / 256);
  }

  predicate Dominates(a: Node, b: Node, n: nat)
    requires n <= SPX_L
  {
    forall i :: 0 <= i < n ==> Digit(a, i) >= Digit(b, i)
  }

  /** Larger message digits give a smaller checksum, and an equal one only when all digits are equal. */
  lemma {:induction false} ShortfallAntitone(a: Node, b: Node, n: nat)
    requires n <= 32 && Dominates(a, b, n)
    ensures Shortfall(a, n) <= Shortfall(b, n)
    ensures Shortfall(a, n) == Shortfall(b, n) ==> forall i :: 0 <= i < n ==> Digit(a, i) == Digit(b, i)
  {
    if n != 0 {
      ShortfallAntitone(a, b, n - 1);
      assert Digit(a, n - 1) >= Digit(b, n - 1);
    }
  }

  lemma DigitsDetermineNode(a: Node, b: Node)
    requires forall i :: 0 <= i < 32 ==> Digit(a, i) == Digit(b, i)
    ensures a == b
  {
    forall j | 0 <= j < 16 ensures a[j] == b[j] {
      assert Digit(a, 2 * j) == Digit(b, 2 * j) && Digit(a, 2 * j + 1) == Digit(b, 2 * j + 1);
      assert a[j] == 16 * (a[j] / 16) + a[j] % 16;
    }
  }

  /** No node's digit vector dominates another's: to sign a different node some chain would have to be
      run backwards, whichever of the two was signed first. */
  lemma NoDigitVectorDominates(a: Node, b: Node)
    requires a != b
    ensures exists i :: 0 <= i < SPX_L && Digit(a, i) < Digit(b, i)
    ensures exists i :: 0 <= i < SPX_L && Digit(b, i) < Digit(a, i)
  {
    OnlyItselfDominates(a, b);
    OnlyItselfDominates(b, a);
  }

  lemma OnlyItselfDominates(a: Node, b: Node)
    requires a != b
    ensures !Dominates(a, b, SPX_L)
  {
    if Dominates(a, b, SPX_L) {
      assert Dominates(a, b, 32);
      ShortfallAntitone(a, b, 32);
      ChecksumDigitsCarryAll(a);
      ChecksumDigitsCarryAll(b);
      assert Digit(a, 32) >= Digit(b, 32) && Digit(a, 33) >= Digit(b, 33) && Digit(a, 34) >= Digit(b, 34);
      DigitsDetermineNode(a, b);
    }
  }

  /** `csum` shifted left by the alignment and read back in 4-bit digits. */
  lemma ChecksumShift(c: nat)
    requires c <= 480
    ensures And(Shr(Shl(c, 4), 12), 15) == c / 256 % 16
    ensures And(Shr(Shl(c, 4), 8), 15) == c / 16 % 16
    ensures And(Shr(Shl(c, 4), 4), 15) == c % 16
  {
    ShrShl(c, 4, 0);
    ShrAdd(Shl(c, 4), 4, 4);
    ShrAdd(Shl(c, 4), 4, 8);
    NibbleShift(c);
    NibbleMask(c);
    NibbleMask(Shr(c, 4));
    NibbleMask(Shr(c, 8));
  }

  lemma NibbleShift(c: nat)
    ensures Shr(c, 4) == c / 16 && Shr(c, 8) == c / 256
  {
    ShrIsDiv(c, 4);
    ShrIsDiv(c, 8);
    assert Pow2(4) == 16;
    assert Pow2(8) == 16 * Pow2(4);
  }

  lemma NibbleMask(c: nat)
    ensures And(c, 15) == c % 16
  {
    AndMask(c, 4);
    LowIsMod(c, 4);
    assert Pow2(4) == 16;
  }

  method WotsDigitsStd(P: Params, node: Node) returns (digits: array<nat>)
    requires P.Standard()
    ensures fresh(digits) && digits.Length == SPX_L
    ensures forall i :: 0 <= i < SPX_L ==> digits[i] == Digit(node, i)
  {
    hide And, Shr, Shl;
    var len1 := SPX_N * 8 / P.logW;
    var len2 := P.l - len1;
    digits := new nat[P.l];
    for i := 0 to len1
      invariant forall j :: 0 <= j < i ==> digits[j] == Digit(node, j)
    {
      var b := node[i / 2];
      NibbleMask(b);
      NibbleShift(b);
      digits[i] := if i % 2 == 1 then And(b, P.w - 1) else Shr(b, P.logW);
    }
    var csum := 0;
    for i := 0 to len1
      invariant csum == Shortfall(node, i)
    {
      csum := csum + P.w - 1 - digits[i];
    }
    ChecksumShift(csum);
    csum := Shl(csum, (8 - len2 * P.logW % 8) % 8);
    for i := 0 to len2
      invariant forall j :: 0 <= j < len1 + i ==> digits[j] == Digit(node, j)
    {
      digits[len1 + i] := And(Shr(csum, (len2 - i) * P.logW), P.w - 1);
    }
  }

  // ---------------------------------------------------------------- public keys

  /** The ends of the first `n` chains of a key pair. */
  function ChainEnds(tw: Tweak, skSeed: Digest, layer: nat, tree: TreeIndex, keypair: nat, n: nat): (r: seq<Node>)
    ensures |r| == n
  {
    if n == 0 then [] else
      ChainEnds(tw, skSeed, layer, tree, keypair, n - 1)
      + [Chain(tw, layer, tree, keypair, n - 1, WotsSk(tw.keccak, skSeed, layer, tree, keypair, n - 1), 0, SPX_W - 1)]
  }

  function CompressEnds(tw: Tweak, layer: nat, tree: TreeIndex, keypair: nat, ends: seq<Node>): Node {
    tw.T(Adrs(layer, tree, TYPE_WOTS_PK, keypair, 0, 0), Words(ends))
  }

  function PublicKey(tw: Tweak, skSeed: Digest, layer: nat, tree: TreeIndex, keypair: nat): Node {
    CompressEnds(tw, layer, tree, keypair, ChainEnds(tw, skSeed, layer, tree, keypair, SPX_L))
  }

  lemma NextChainEnd(tw: Tweak, skSeed: Digest, layer: nat, tree: TreeIndex, keypair: nat, n: nat, end: Node)
    requires end == Chain(tw, layer, tree, keypair, n, WotsSk(tw.keccak, skSeed, layer, tree, keypair, n), 0, SPX_W - 1)
    ensures Words(ChainEnds(tw, skSeed, layer, tree, keypair, n + 1))
         == Words(ChainEnds(tw, skSeed, layer, tree, keypair, n)) + Word16(end)
  {
    WordsPush(ChainEnds(tw, skSeed, layer, tree, keypair, n), end);
  }

  method WotsPk(tw: Tweak, skSeed: Digest, layer: nat, tree: TreeIndex, keypair: nat) returns (pk: Node)
    ensures pk == PublicKey(tw, skSeed, layer, tree, keypair)
  {
    WordsNone();
    hide Words, Chain, Adrs;
    var ends: Bytes := [];
    for i := 0 to SPX_L
      invariant ends == Words(ChainEnds(tw, skSeed, layer, tree, keypair, i))
    {
      var sk := WotsSk(tw.keccak, skSeed, layer, tree, keypair, i);
      var end := WotsChain(tw, layer, tree, keypair, i, sk, 0, SPX_W - 1);
      NextChainEnd(tw, skSeed, layer, tree, keypair, i, end);
      ends := ends + Word16(end);
    }
    pk := tw.T(Adrs(layer, tree, TYPE_WOTS_PK, keypair, 0, 0), ends);
  }

  /** The public keys of the key pairs `from <= k < to`. */
  function PublicKeys(tw: Tweak, skSeed: Digest, layer: nat, tree: TreeIndex, start: nat, stop: nat): (r: seq<Node>)
    ensures |r| == if stop <= start then 0 else stop - start
    decreases stop
  {
    if stop <= start then []
    else PublicKeys(tw, skSeed, layer, tree, start, stop - 1) + [PublicKey(tw, skSeed, layer, tree, stop - 1)]
  }

  lemma {:induction false} PublicKeysAt(tw: Tweak, skSeed: Digest, layer: nat, tree: TreeIndex, start: nat, stop: nat,
      k: nat)
    requires start <= k < stop
    ensures PublicKeys(tw, skSeed, layer, tree, start, stop)[k - start] == PublicKey(tw, skSeed, layer, tree, k)
    decreases stop
  {
    hide PublicKey;
    if k < stop - 1 { PublicKeysAt(tw, skSeed, layer, tree, start, stop - 1, k); }
  }

  /** The flat range of public keys a worker returns. */
  method WotsPkRange(tw: Tweak, skSeed: Digest, layer: nat, tree: TreeIndex, start: nat, stop: nat)
    returns (out: array<Byte>)
    requires start <= stop
    ensures fresh(out) && out[..] == Flat(PublicKeys(tw, skSeed, layer, tree, start, stop))
  {
    hide Flat, PublicKey;
    FlatNone();
    out := new Byte[(stop - start) * SPX_N](_ => 0);
    var k := start;
    while k < stop
      invariant start <= k <= stop
      invariant out[..(k - start) * SPX_N] == Flat(PublicKeys(tw, skSeed, layer, tree, start, k))
    {
      var pk := WotsPk(tw, skSeed, layer, tree, k);
      SetBytes(out, (k - start) * SPX_N, pk);
      FlatPush(PublicKeys(tw, skSeed, layer, tree, start, k), pk);
      k := k + 1;
    }
    assert out[..] == out[..(stop - start) * SPX_N];
  }

  /** The leaves of a subtree: the public keys of all its key pairs. */
  function SubtreeLeaves(P: Params, tw: Tweak, skSeed: Digest, layer: nat, tree: TreeIndex): (r: seq<Node>)
    ensures |r| == P.leavesPerSubtree
  {
    PublicKeys(tw, skSeed, layer, tree, 0, P.leavesPerSubtree)
  }

  method SubtreeLeavesStd(P: Params, tw: Tweak, skSeed: Digest, layer: nat, tree: TreeIndex)
    returns (leaves: seq<Node>)
    ensures leaves == SubtreeLeaves(P, tw, skSeed, layer, tree)
  {
    leaves := [];
    for j := 0 to P.leavesPerSubtree
      invariant leaves == PublicKeys(tw, skSeed, layer, tree, 0, j)
    {
      var pk := WotsPk(tw, skSeed, layer, tree, j);
      leaves := leaves + [pk];
    }
  }
}
