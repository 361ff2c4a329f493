/** What goes into each hash: the addressed calls, the message digest, the seeds, the secrets and the randomizer. Every
    input is laid out byte by byte, and determines everything it was made from. */
module HashInputs {
  import opened Bits
  import opened Bytes
  import opened Params
  import opened Hashing

  import Addresses

  const WORD := Addresses.WORD

  // ---------------------------------------------------------------- the addressed calls

  function CallInput(pkSeed: Node, adrs: Bytes, payload: Bytes): Bytes {
    Word16(pkSeed) + adrs + payload
  }

  /** Every addressed call is keccak of such an input, cut to 16 bytes. */
  lemma CallHashesInput(tw: Tweak, adrs: Bytes, payload: Bytes)
    ensures tw.T(adrs, payload) == TopN(tw.keccak(CallInput(tw.pkSeed, adrs, payload)))
  {
  }

  /** Where each part of it lies; so an input determines the seed, the address and what is hashed under it. */
  lemma CallLayout(pkSeed: Node, adrs: Bytes, payload: Bytes)
    requires |adrs| == 32
    ensures var x := CallInput(pkSeed, adrs, payload);
            |x| == 64 + |payload| && x[..16] == pkSeed && x[16..32] == Zeros(16) && x[32..64] == adrs
            && x[64..] == payload
  {
  }

  /** One node, or two in their order, follow the address in 32-byte words. */
  lemma NodesAreWords(l: Node, r: Node)
    ensures (Word16(l) + Word16(r))[..16] == l && (Word16(l) + Word16(r))[32..48] == r
    ensures (Word16(l) + Word16(r))[16..32] == Zeros(16) && (Word16(l) + Word16(r))[48..] == Zeros(16)
  {
  }

  /** What is kept of a digest is its high half, as a number. */
  lemma TopIsHighHalf(d: Digest)
    ensures BytesToNat(d) == BytesToNat(TopN(d)) * Pow256(16) + BytesToNat(d[16..])
    ensures BytesToNat(d[16..]) < Pow256(16)
  {
    assert d == d[..16] + d[16..];
    NatOfConcat(d[..16], d[16..]);
    BytesToNatBound(d[16..]);
  }

  lemma {:induction false} NatOfConcat(a: Bytes, b: Bytes)
    ensures BytesToNat(a + b) == BytesToNat(a) * Pow256(|b|) + BytesToNat(b)
  {
    if |b| == 0 {
      assert a + b == a;
    } else {
      var front := b[..|b| - 1];
      NatOfConcat(a, front);
      assert (a + b)[..|a + b| - 1] == a + front;
      assert BytesToNat(a) * (256 * Pow256(|front|)) == 256 * (BytesToNat(a) * Pow256(|front|));
    }
  }

  // ---------------------------------------------------------------- the message digest

  datatype Signed = Signed(pkSeed: Node, pkRoot: Node, R: Node, message: Digest)

  function MessageInput(compact: bool, s: Signed): (r: Bytes)
    ensures |r| == if compact then 112 else 160
  {
    if compact then HmsgPad() + s.R + s.pkSeed + s.pkRoot + s.message
    else Word16(s.pkSeed) + Word16(s.pkRoot) + Word16(s.R) + s.message + HmsgPad()
  }

  /** H_msg is keccak of that input. */
  lemma HMsgHashesInput(P: Params, tw: Tweak, pkRoot: Node, R: Node, message: Digest)
    ensures HMsg(P, tw, pkRoot, R, message)
         == tw.keccak(MessageInput(P.compactHmsg, Signed(tw.pkSeed, pkRoot, R, message)))
  {
  }

  /** Where each part of it lies, in both layouts. */
  lemma MessageInputLayout(compact: bool, s: Signed)
    ensures var x := MessageInput(compact, s);
            if compact then
              && x[..32] == HmsgPad() && x[32..48] == s.R && x[48..64] == s.pkSeed && x[64..80] == s.pkRoot
              && x[80..] == s.message
            else
              && x[..16] == s.pkSeed && x[32..48] == s.pkRoot && x[64..80] == s.R && x[96..128] == s.message
              && x[16..32] == Zeros(16) && x[48..64] == Zeros(16) && x[80..96] == Zeros(16) && x[128..] == HmsgPad()
  {
  }

  /** The digest is bound to the whole of what is signed: key, randomizer and message, and to the layout. */
  lemma MessageInputBinds(compact: bool, s: Signed, compact': bool, s': Signed)
    requires MessageInput(compact, s) == MessageInput(compact', s')
    ensures compact == compact' && s == s'
  {
    MessageInputLayout(compact, s);
    MessageInputLayout(compact', s');
    hide MessageInput;
  }

  // ---------------------------------------------------------------- how the digest is split

  /** The first `n` FORS fields side by side, each in its `a` bits, lowest first. */
  function Packed(fields: seq<nat>, a: nat, n: nat): nat
    requires n <= |fields|
  {
    if n == 0 then 0 else Packed(fields, a, n - 1) + Shl(fields[n - 1], (n - 1) * a)
  }

  /** The split loses and repeats nothing: fields, leaf and tree side by side are the low `k * a + h` bits. */
  lemma DecodedBitsAreDigest(P: Params, digest: Digest)
    requires P.Standard()
    ensures var at := DecodeDigestStd(P, digest);
            Low(BytesToNat(digest), P.k * P.a + P.h)
            == Packed(at.fields, P.a, P.k) + Shl(Shl(at.tree, P.subtreeH) + at.leaf, P.k * P.a)
  {
    var d, n := BytesToNat(digest), P.k * P.a;
    hide Pow2, And, Shr, Low, Shl, Packed, BytesToNat;
    LowSplit(d, n, P.h);
    FieldsArePacked(d, P.a, P.k, P.k);
    IndexSplits(Shr(d, n), P.h, P.subtreeH);
  }

  lemma IndexSplits(x: nat, h: nat, sub: nat)
    ensures var index := And(x, Pow2(h) - 1);
            Low(x, h) == Shl(Shr(index, sub), sub) + And(index, Pow2(sub) - 1)
  {
    hide Pow2, And, Shr, Low, Shl;
    AndMask(x, h);
    var index := And(x, Pow2(h) - 1);
    AndMask(index, sub);
    ShrLow(index, sub);
  }

  lemma {:induction false} FieldsArePacked(d: nat, a: nat, k: nat, n: nat)
    requires n <= k
    ensures Packed(Fields(d, a, k), a, n) == Low(d, n * a)
  {
    hide Pow2, And, Shr, Low, Shl;
    if n == 0 {
      NoBits(d);
    } else {
      FieldsArePacked(d, a, k, n - 1);
      AndMask(Shr(d, (n - 1) * a), a);
      assert (n - 1) * a + a == n * a;
      LowSplit(d, (n - 1) * a, a);
    }
  }

  lemma NoBits(x: nat)
    ensures Low(x, 0) == 0
  {
  }

  // ---------------------------------------------------------------- seeds, secrets, randomizers

  /** The values that are derived by hashing, by what they are derived from. */
  datatype Derivation =
    | SecretSeed(hdPvk: Bytes)
    | PublicSeed(hdPvk: Bytes)
    | ChainSecret(skSeed: Digest, layer: nat, tree: nat, keypair: nat, chain: nat)
    | LeafSecret(skSeed: Digest, tree: nat, leaf: nat, forsTree: nat, index: nat)
    | RandomizerFor(skSeed: Digest, message: Digest)

  function InputOf(P: Params, d: Derivation): Bytes {
    match d
    case SecretSeed(hdPvk) => SK_SEED_TAG + P.domainBytes + hdPvk
    case PublicSeed(hdPvk) => PK_SEED_TAG + P.domainBytes + hdPvk
    case ChainSecret(skSeed, layer, tree, keypair, chain) =>
      skSeed + WOTS_SK_TAG + U32BE(layer) + UintBE(tree, 8) + U32BE(keypair) + U32BE(chain)
    case LeafSecret(skSeed, tree, leaf, forsTree, index) =>
      skSeed + FORS_SK_TAG + UintBE(tree, 8) + U32BE(leaf) + U32BE(forsTree) + U32BE(index)
    case RandomizerFor(skSeed, message) => skSeed + R_TAG + message
  }

  /** The scheme's seeds, secrets and randomizers are the hashes of these inputs. */
  lemma DerivationsHashInputs(P: Params, keccak: Keccak, hdPvk: Bytes, skSeed: Digest, message: Digest, layer: nat,
      tree: nat, leaf: nat, i: nat, x: nat)
    ensures DeriveSeeds(P, keccak, hdPvk).skSeed == keccak(InputOf(P, SecretSeed(hdPvk)))
    ensures DeriveSeeds(P, keccak, hdPvk).pkSeed == TopN(keccak(InputOf(P, PublicSeed(hdPvk))))
    ensures WotsSk(keccak, skSeed, layer, Big(tree), leaf, i)
         == TopN(keccak(InputOf(P, ChainSecret(skSeed, layer, tree, leaf, i))))
    ensures ForsSk(keccak, skSeed, Big(tree), leaf, i, x)
         == TopN(keccak(InputOf(P, LeafSecret(skSeed, tree, leaf, i, x))))
    ensures Randomizer(keccak, skSeed, message) == TopN(keccak(InputOf(P, RandomizerFor(skSeed, message))))
  {
    hide UintBE, U32BE, Ascii;
  }

  /** A derivation that the scheme makes: a 32-byte key, indices that fit their fields. */
  predicate Makes(d: Derivation) {
    match d
    case SecretSeed(hdPvk) => |hdPvk| == 32
    case PublicSeed(hdPvk) => |hdPvk| == 32
    case ChainSecret(_, layer, tree, keypair, chain) =>
      layer < WORD && tree < WORD * WORD && keypair < WORD && chain < WORD
    case LeafSecret(_, tree, leaf, forsTree, index) =>
      tree < WORD * WORD && leaf < WORD && forsTree < WORD && index < WORD
    case RandomizerFor(_, _) => true
  }

  /** The length of the domain keeps the inputs of seeds apart from the others, as the shipped one does. */
  predicate DomainSeparates(P: Params) {
    |P.domainBytes| != 20 && |P.domainBytes| != 26
  }

  lemma LedgerSeparates()
    ensures DomainSeparates(LEDGER)
  {
  }

  /** Domain separation of everything derived: no two of the scheme's derivations, under any keys, hash the same
      bytes. */
  lemma DerivationsAreDistinct(P: Params, d: Derivation, d': Derivation)
    requires DomainSeparates(P) && Makes(d) && Makes(d') && InputOf(P, d) == InputOf(P, d')
    ensures d == d'
  {
    TagsDiffer();
    InputLength(P, d);
    InputLength(P, d');
    hide U32BE, UintBE, Ascii;
    match d
    case SecretSeed(_) => SeedInputs(P, d, d');
    case PublicSeed(_) => SeedInputs(P, d, d');
    case ChainSecret(_, _, _, _, _) => SecretInputs(P, d, d');
    case LeafSecret(_, _, _, _, _) => SecretInputs(P, d, d');
    case RandomizerFor(_, _) => RandomizerInputs(P, d, d');
  }

  lemma InputLength(P: Params, d: Derivation)
    requires Makes(d)
    ensures |InputOf(P, d)| == match d
              case SecretSeed(_) => 52 + |P.domainBytes|
              case PublicSeed(_) => 52 + |P.domainBytes|
              case ChainSecret(_, _, _, _, _) => 72
              case LeafSecret(_, _, _, _, _) => 72
              case RandomizerFor(_, _) => 78
  {
    TagsDiffer();
    hide U32BE, UintBE, Ascii;
  }

  lemma SeedInputs(P: Params, d: Derivation, d': Derivation)
    requires (d.SecretSeed? || d.PublicSeed?) && (d'.SecretSeed? || d'.PublicSeed?)
    requires InputOf(P, d) == InputOf(P, d')
    ensures d == d'
  {
    TagsDiffer();
    hide Ascii;
    var x, y, n := InputOf(P, d), InputOf(P, d'), 20 + |P.domainBytes|;
    assert x[..20] == (if d.SecretSeed? then SK_SEED_TAG else PK_SEED_TAG) && x[n..] == d.hdPvk;
    assert y[..20] == (if d'.SecretSeed? then SK_SEED_TAG else PK_SEED_TAG) && y[n..] == d'.hdPvk;
  }

  lemma RandomizerInputs(P: Params, d: Derivation, d': Derivation)
    requires d.RandomizerFor? && d'.RandomizerFor? && InputOf(P, d) == InputOf(P, d')
    ensures d == d'
  {
    TagsDiffer();
    hide Ascii;
    var x, y := InputOf(P, d), InputOf(P, d');
    assert x[..32] == d.skSeed && x[46..] == d.message && y[..32] == d'.skSeed && y[46..] == d'.message;
  }

  /** The parts of a secret's input: key, tag, and its index fields in the order they are hashed. */
  lemma SecretParts(P: Params, d: Derivation)
    requires d.ChainSecret? || d.LeafSecret?
    ensures |InputOf(P, d)| == 72
    ensures var x := InputOf(P, d);
            if d.ChainSecret? then
              && x[..32] == d.skSeed && x[32..52] == WOTS_SK_TAG && x[52..56] == U32BE(d.layer)
              && x[56..64] == UintBE(d.tree, 8) && x[64..68] == U32BE(d.keypair) && x[68..] == U32BE(d.chain)
            else
              && x[..32] == d.skSeed && x[32..52] == FORS_SK_TAG && x[52..60] == UintBE(d.tree, 8)
              && x[60..64] == U32BE(d.leaf) && x[64..68] == U32BE(d.forsTree) && x[68..] == U32BE(d.index)
  {
    TagsDiffer();
    hide U32BE, UintBE, Ascii;
  }

  lemma TreeBytesInjective(t: nat, t': nat)
    requires t < WORD * WORD && t' < WORD * WORD && UintBE(t, 8) == UintBE(t', 8)
    ensures t == t'
  {
    assert Pow256(4) == 256 * Pow256(3) == 256 * (256 * Pow256(2)) == WORD;
    assert Pow256(8) == 256 * Pow256(7) == 256 * (256 * Pow256(6)) == 256 * (256 * (256 * Pow256(5)));
    UintRoundTrip(t, 8);
    UintRoundTrip(t', 8);
  }

  lemma SecretInputs(P: Params, d: Derivation, d': Derivation)
    requires (d.ChainSecret? || d.LeafSecret?) && (d'.ChainSecret? || d'.LeafSecret?) && Makes(d) && Makes(d')
    requires InputOf(P, d) == InputOf(P, d')
    ensures d == d'
  {
    TagsDiffer();
    SecretParts(P, d);
    SecretParts(P, d');
    hide InputOf, U32BE, UintBE, Ascii;
    TreeBytesInjective(d.tree, d'.tree);
    if d.ChainSecret? {
      Addresses.WordInjective(d.layer, d'.layer);
      Addresses.WordInjective(d.keypair, d'.keypair);
      Addresses.WordInjective(d.chain, d'.chain);
    } else {
      Addresses.WordInjective(d.leaf, d'.leaf);
      Addresses.WordInjective(d.forsTree, d'.forsTree);
      Addresses.WordInjective(d.index, d'.index);
    }
  }
}
