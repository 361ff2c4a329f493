/** The hash inputs of the signature scheme: 32-byte addresses, the tweakable hash, the secret-key
    PRFs and the message digest with its split into indices.

    Keccak-256 is a parameter of everything here: any function from byte strings to 32 bytes. */
module Hashing {
  import opened Bits
  import opened Bytes
  import opened Params

  type Keccak = Bytes -> Digest

  const TYPE_WOTS_HASH := 0
  const TYPE_WOTS_PK := 1
  const TYPE_TREE := 2
  const TYPE_FORS_TREE := 3
  const TYPE_FORS_ROOTS := 4

  const SK_SEED_TAG := Ascii("sphincs+c:sk-seed:v1")
  const PK_SEED_TAG := Ascii("sphincs+c:pk-seed:v1")
  const WOTS_SK_TAG := Ascii("sphincs+c:wots-sk:v1")
  const FORS_SK_TAG := Ascii("sphincs+c:fors-sk:v1")
  const R_TAG := Ascii("sphincs+c:r:v1")

  /** A tree index is a machine number in the counter profiles and a big integer in the standard one;
      the two are encoded differently. */
  datatype TreeIndex = Num(n: nat) | Big(n: nat)

  function TreeField(tree: TreeIndex): (r: Bytes)
    ensures |r| == 12
  {
    match tree
    case Num(t) => Zeros(8) + U32BE(t)
    case Big(t) => Zeros(4) + U32BE(t / 0x1_0000_0000) + U32BE(t % 0x1_0000_0000)
  }

  /** The 32-byte address of a hash call; module Addresses shows that no two calls share one. */
  function Adrs(layer: nat, tree: TreeIndex, kind: nat, w1: nat, w2: nat, w3: nat): (r: Bytes)
    ensures |r| == 32
  {
    U32BE(layer) + TreeField(tree) + U32BE(kind) + U32BE(w1) + U32BE(w2) + U32BE(w3)
  }

  /** Both encodings of a tree index agree as long as it fits in 32 bits. */
  lemma TreeFieldAgrees(t: nat)
    requires t < 0x1_0000_0000
    ensures TreeField(Num(t)) == TreeField(Big(t))
  {
    assert U32BE(0) == Zeros(4);
    assert Zeros(8) == Zeros(4) + Zeros(4);
  }

  /** The third word of a FORS address: `(tree << n) | index`, truncated to 32 bits. */
  function ForsWord(forsTree: nat, n: nat, index: nat): nat {
    U32(Or(Shl(forsTree, n), index))
  }

  /** The public half of a key context: keccak and the public seed that tweaks every call. */
  datatype Tweak = Tweak(keccak: Keccak, pkSeed: Node) {
    /** The tweakable hash. */
    function T(adrs: Bytes, payload: Bytes): Node {
      TopN(keccak(Word16(pkSeed) + adrs + payload))
    }
  }

  function HmsgPad(): (r: Bytes)
    ensures |r| == 32
  {
    seq(32, _ => 0xff)
  }

  function HMsg(P: Params, tw: Tweak, pkRoot: Node, R: Node, message: Digest): Digest {
    if P.compactHmsg then tw.keccak(HmsgPad() + R + tw.pkSeed + pkRoot + message)
    else tw.keccak(Word16(tw.pkSeed) + Word16(pkRoot) + Word16(R) + message + HmsgPad())
  }

  /** FORS field `i` of a digest read as a big-endian integer: bits `[i * a, (i + 1) * a)`. */
  function Field(d: nat, a: nat, i: nat): nat {
    And(Shr(d, i * a), Pow2(a) - 1)
  }

  function Fields(d: nat, a: nat, k: nat): (r: seq<nat>)
    ensures |r| == k
    ensures forall i :: 0 <= i < k ==> r[i] == Field(d, a, i)
  {
    seq(k, i requires 0 <= i => Field(d, a, i))
  }

  datatype Decoded = Decoded(tree: nat, leaf: nat, fields: seq<nat>)

  function DecodeDigestStd(P: Params, digest: Digest): Decoded
    requires P.leavesPerSubtree >= 1
  {
    var d := BytesToNat(digest);
    var htIdx := And(Shr(d, P.k * P.a), Pow2(P.h) - 1);
    Decoded(Shr(htIdx, P.subtreeH), And(htIdx, P.leavesPerSubtree - 1), Fields(d, P.a, P.k))
  }

  /** Every index the digest yields addresses an existing leaf, and the tree index fits the layers above. */
  lemma DecodedInRange(P: Params, digest: Digest)
    requires P.Standard()
    ensures var r := DecodeDigestStd(P, digest);
            && r.leaf < P.leavesPerSubtree
            && P.h >= P.subtreeH && r.tree < Pow2(P.h - P.subtreeH)
            && |r.fields| == P.k && forall i :: 0 <= i < P.k ==> r.fields[i] < P.forsLeaves
  {
    hide Pow2, And, Shr, Low;
    HeightCoversSubtree(P);
    var d := BytesToNat(digest);
    var htIdx := And(Shr(d, P.k * P.a), Pow2(P.h) - 1);
    AndMask(Shr(d, P.k * P.a), P.h);
    AndMask(htIdx, P.subtreeH);
    ShrBound(htIdx, P.subtreeH, P.h - P.subtreeH);
    forall i | 0 <= i < P.k ensures Field(d, P.a, i) < P.forsLeaves {
      AndMask(Shr(d, i * P.a), P.a);
    }
  }

  function TreeBytes(tree: TreeIndex): Bytes {
    match tree
    case Num(t) => U32BE(t)
    case Big(t) => UintBE(t, 8)
  }

  function WotsSk(keccak: Keccak, skSeed: Digest, layer: nat, tree: TreeIndex, keypair: nat, chain: nat): Node {
    TopN(keccak(skSeed + WOTS_SK_TAG + U32BE(layer) + TreeBytes(tree) + U32BE(keypair) + U32BE(chain)))
  }

  function ForsSk(keccak: Keccak, skSeed: Digest, tree: TreeIndex, leaf: nat, forsTree: nat, leafIdx: nat): Node {
    TopN(keccak(skSeed + FORS_SK_TAG + TreeBytes(tree) + U32BE(leaf) + U32BE(forsTree) + U32BE(leafIdx)))
  }

  datatype Seeds = Seeds(skSeed: Digest, pkSeed: Node)

  function DeriveSeeds(P: Params, keccak: Keccak, hdPvk: Bytes): Seeds {
    Seeds(keccak(SK_SEED_TAG + P.domainBytes + hdPvk), TopN(keccak(PK_SEED_TAG + P.domainBytes + hdPvk)))
  }

  /** The randomizer of the standard profile: a plain PRF value. */
  function Randomizer(keccak: Keccak, skSeed: Digest, message: Digest): Node {
    TopN(keccak(skSeed + R_TAG + message))
  }

  lemma TagsDiffer()
    ensures |SK_SEED_TAG| == |PK_SEED_TAG| == |WOTS_SK_TAG| == |FORS_SK_TAG| == 20 && |R_TAG| == 14
    ensures SK_SEED_TAG != PK_SEED_TAG && WOTS_SK_TAG != FORS_SK_TAG
  {
    assert SK_SEED_TAG[10] == 's' as int && PK_SEED_TAG[10] == 'p' as int;
    assert WOTS_SK_TAG[10] == 'w' as int && FORS_SK_TAG[10] == 'f' as int;
  }
}
