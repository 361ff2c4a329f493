/** The batched twins of the scalar tree builders. Each fills a batch with exactly the messages the
    scalar functions would hash one by one, and no batch ever exceeds the kernel's capacity. */
module BatchedTwins {
  import opened Bits
  import opened Bytes
  import opened Params
  import opened Hashing
  import opened Merkle
  import opened Wots
  import opened Trees
  import opened KeccakBatch

  const BATCH_CAP_1BLK := 32768
  const KP_CHUNK := 512

  // ---------------------------------------------------------------- one message per slot

  /** The input of a secret-key PRF with a 32-bit tree index. */
  function SkMessage(skSeed: Digest, tag: Bytes, a: nat, b: nat, c: nat, d: nat): Bytes {
    skSeed + tag + U32BE(a) + U32BE(b) + U32BE(c) + U32BE(d)
  }

  /** The input of the tweakable hash. */
  function TMessage(pkSeed: Node, adrs: Bytes, payload: Bytes): Bytes {
    Word16(pkSeed) + adrs + payload
  }

  method PutSk(kernel: Kernel, ghost i: nat, off: nat, skSeed: Digest, tag: Bytes, a: nat, b: nat, c: nat, d: nat)
    requires kernel.Valid() && i < |kernel.slots| && kernel.msgLen == 68 && |tag| == 20
    requires off == i * Stride(68) && kernel.slots[i] == Partial([], 68)
    modifies kernel`slots, kernel.inBuf
    ensures kernel.Valid()
    ensures kernel.slots == old(kernel.slots)[i := Pad(SkMessage(skSeed, tag, a, b, c, d))]
  {
    hide Partial, Pad, U32BE, Stride;
    assert [] + skSeed == skSeed;
    kernel.Put(i, off, [], skSeed);
    kernel.Put(i, off + 32, skSeed, tag);
    kernel.Put(i, off + 52, skSeed + tag, U32BE(a));
    kernel.Put(i, off + 56, skSeed + tag + U32BE(a), U32BE(b));
    kernel.Put(i, off + 60, skSeed + tag + U32BE(a) + U32BE(b), U32BE(c));
    kernel.Put(i, off + 64, skSeed + tag + U32BE(a) + U32BE(b) + U32BE(c), U32BE(d));
    PartialComplete(SkMessage(skSeed, tag, a, b, c, d));
  }

  lemma ZeroWord()
    ensures U32BE(0) == Zeros(4)
  {
  }

  /** An address laid out field by field behind a prefix. */
  lemma AddressFields(s: Bytes, layer: nat, tree: nat, kind: nat, w1: nat, w2: nat, w3: nat)
    ensures s + U32BE(layer) + Zeros(8) + U32BE(tree) + U32BE(kind) + U32BE(w1) + U32BE(w2) + U32BE(w3)
         == s + Adrs(layer, Num(tree), kind, w1, w2, w3)
  {
    hide U32BE;
  }

  /** The public seed and the first words of a FORS address: layer 0, tree, type and key pair. */
  method PutForsHead(kernel: Kernel, ghost i: nat, off: nat, pkSeed: Node, tree: nat, leaf: nat)
    requires kernel.Valid() && i < |kernel.slots| && kernel.msgLen >= 64
    requires off == i * Stride(kernel.msgLen) && kernel.slots[i] == Partial([], kernel.msgLen)
    modifies kernel`slots, kernel.inBuf
    ensures kernel.Valid()
    ensures kernel.slots == old(kernel.slots)[i := Partial(ForsHead(pkSeed, tree, leaf), kernel.msgLen)]
  {
    hide Partial, U32BE, Stride;
    ghost var len := kernel.msgLen;
    assert [] + pkSeed == pkSeed;
    kernel.Put(i, off, [], pkSeed);
    SkipZeros(pkSeed, 16, len);
    ghost var seed := Word16(pkSeed);
    SkipZeros(seed, 4, len);
    ZeroWord();
    SkipZeros(seed + U32BE(0), 8, len);
    kernel.Put(i, off + 44, seed + U32BE(0) + Zeros(8), U32BE(tree));
    kernel.Put(i, off + 48, seed + U32BE(0) + Zeros(8) + U32BE(tree), U32BE(TYPE_FORS_TREE));
    kernel.Put(i, off + 52, seed + U32BE(0) + Zeros(8) + U32BE(tree) + U32BE(TYPE_FORS_TREE), U32BE(leaf));
  }

  function ForsHead(pkSeed: Node, tree: nat, leaf: nat): (r: Bytes)
    ensures |r| == 56
  {
    Word16(pkSeed) + U32BE(0) + Zeros(8) + U32BE(tree) + U32BE(TYPE_FORS_TREE) + U32BE(leaf)
  }

  method PutForsLeaf(kernel: Kernel, ghost i: nat, off: nat, pkSeed: Node, tree: nat, leaf: nat, word3: nat, sk: Node)
    requires kernel.Valid() && i < |kernel.slots| && kernel.msgLen == 96
    requires off == i * Stride(96) && kernel.slots[i] == Partial([], 96)
    modifies kernel`slots, kernel.inBuf
    ensures kernel.Valid()
    ensures kernel.slots == old(kernel.slots)[i :=
              Pad(TMessage(pkSeed, Adrs(0, Num(tree), TYPE_FORS_TREE, leaf, 0, word3), Word16(sk)))]
  {
    hide Partial, U32BE, Stride, Pad, ForsHead;
    PutForsHead(kernel, i, off, pkSeed, tree, leaf);
    ghost var head := ForsHead(pkSeed, tree, leaf);
    SkipZeros(head, 4, 96);
    ZeroWord();
    kernel.Put(i, off + 60, head + U32BE(0), U32BE(word3));
    ghost var adrs := Word16(pkSeed) + Adrs(0, Num(tree), TYPE_FORS_TREE, leaf, 0, word3);
    assert head + U32BE(0) + U32BE(word3) == adrs by { ForsAddress(pkSeed, tree, leaf, 0, word3); }
    kernel.Put(i, off + 64, adrs, sk);
    SkipZeros(adrs + sk, 16, 96);
    assert adrs + sk + Zeros(16) == adrs + Word16(sk);
    PartialComplete(adrs + Word16(sk));
  }

  lemma ForsAddress(pkSeed: Node, tree: nat, leaf: nat, w2: nat, w3: nat)
    ensures ForsHead(pkSeed, tree, leaf) + U32BE(w2) + U32BE(w3)
         == Word16(pkSeed) + Adrs(0, Num(tree), TYPE_FORS_TREE, leaf, w2, w3)
  {
    hide U32BE;
    AddressFields(Word16(pkSeed), 0, tree, TYPE_FORS_TREE, leaf, w2, w3);
  }

  method PutForsParent(kernel: Kernel, ghost i: nat, off: nat, pkSeed: Node, tree: nat, leaf: nat, level: nat,
      word3: nat, left: Node, right: Node)
    requires kernel.Valid() && i < |kernel.slots| && kernel.msgLen == 128
    requires off == i * Stride(128) && kernel.slots[i] == Partial([], 128)
    modifies kernel`slots, kernel.inBuf
    ensures kernel.Valid()
    ensures kernel.slots == old(kernel.slots)[i :=
              Pad(TMessage(pkSeed, Adrs(0, Num(tree), TYPE_FORS_TREE, leaf, level, word3),
                  Word16(left) + Word16(right)))]
  {
    hide Partial, U32BE, Stride, Pad, ForsHead;
    PutForsHead(kernel, i, off, pkSeed, tree, leaf);
    ghost var head := ForsHead(pkSeed, tree, leaf);
    kernel.Put(i, off + 56, head, U32BE(level));
    kernel.Put(i, off + 60, head + U32BE(level), U32BE(word3));
    ghost var adrs := Word16(pkSeed) + Adrs(0, Num(tree), TYPE_FORS_TREE, leaf, level, word3);
    assert head + U32BE(level) + U32BE(word3) == adrs by { ForsAddress(pkSeed, tree, leaf, level, word3); }
    kernel.Put(i, off + 64, adrs, left);
    SkipZeros(adrs + left, 16, 128);
    assert adrs + left + Zeros(16) == adrs + Word16(left);
    kernel.Put(i, off + 96, adrs + Word16(left), right);
    SkipZeros(adrs + Word16(left) + right, 16, 128);
    assert adrs + Word16(left) + right + Zeros(16) == adrs + (Word16(left) + Word16(right));
    PartialComplete(adrs + (Word16(left) + Word16(right)));
  }

  // ---------------------------------------------------------------- batches

  /** A batch of at most 32768 one-block messages always fits. */
  lemma OneBlockFits(len: nat, count: nat, capacity: nat)
    requires len < RATE && count <= BATCH_CAP_1BLK && capacity >= KERNEL_CAPACITY
    ensures Stride(len) == RATE && count * Stride(len) <= capacity
  {
  }

  /** Hash the prepared batch: every digest is keccak of its message. */
  method RunBatch(kernel: Kernel, ghost msgs: seq<Bytes>)
    requires kernel.Valid() && |msgs| == |kernel.slots|
    requires forall j :: 0 <= j < |msgs| ==> kernel.slots[j] == Pad(msgs[j])
    modifies kernel`digests, kernel.outBuf
    ensures kernel.Valid()
    ensures |kernel.digests| == |msgs|
    ensures forall j :: 0 <= j < |msgs| ==> kernel.digests[j] == KeccakOf(kernel.sponge)(msgs[j])
  {
    hide Pad;
    kernel.Run();
  }

  /** Hash the prepared batch and copy the node half of every digest. */
  method RunTops(kernel: Kernel, ghost msgs: seq<Bytes>) returns (nodes: seq<Node>)
    requires kernel.Valid() && |msgs| == |kernel.slots|
    requires forall j :: 0 <= j < |msgs| ==> kernel.slots[j] == Pad(msgs[j])
    modifies kernel`digests, kernel.outBuf
    ensures kernel.Valid()
    ensures |nodes| == |msgs| && forall j :: 0 <= j < |msgs| ==> nodes[j] == TopN(KeccakOf(kernel.sponge)(msgs[j]))
  {
    RunBatch(kernel, msgs);
    nodes := kernel.Tops();
  }

  /** The batch of secret inputs `start <= i < start + c`. */
  method FillForsSecrets(kernel: Kernel, skSeed: Digest, tree: nat, leaf: nat, forsTree: nat, start: nat, c: nat)
    returns (ghost msgs: seq<Bytes>)
    requires kernel.Valid() && kernel.capacity >= KERNEL_CAPACITY && 1 <= c <= BATCH_CAP_1BLK
    modifies kernel, kernel.inBuf
    ensures kernel.Valid() && |kernel.slots| == |msgs| == c
    ensures forall j :: 0 <= j < c ==>
              msgs[j] == SkMessage(skSeed, FORS_SK_TAG, tree, leaf, forsTree, start + j)
              && kernel.slots[j] == Pad(msgs[j])
  {
    hide Partial, Pad, U32BE, Stride, SkMessage;
    OneBlockFits(68, c, kernel.capacity);
    var begun := kernel.Begin(68, c);
    var stride := begun.value;
    msgs := seq(c, j requires 0 <= j < c => SkMessage(skSeed, FORS_SK_TAG, tree, leaf, forsTree, start + j));
    var off := 0;
    for j := 0 to c
      invariant kernel.Valid() && kernel.msgLen == 68 && |kernel.slots| == c && off == j * stride
      invariant forall k :: 0 <= k < j ==> kernel.slots[k] == Pad(msgs[k])
      invariant forall k :: j <= k < c ==> kernel.slots[k] == Partial([], 68)
    {
      PutSk(kernel, j, off, skSeed, FORS_SK_TAG, tree, leaf, forsTree, start + j);
      off := off + stride;
    }
  }

  method BatchForsSecrets(kernel: Kernel, skSeed: Digest, tree: nat, leaf: nat, forsTree: nat, start: nat, c: nat)
    returns (sks: seq<Node>)
    requires kernel.Valid() && kernel.capacity >= KERNEL_CAPACITY && 1 <= c <= BATCH_CAP_1BLK
    modifies kernel, kernel.inBuf, kernel.outBuf
    ensures kernel.Valid()
    ensures |sks| == c
    ensures forall j :: 0 <= j < c ==>
        sks[j] == ForsSk(KeccakOf(kernel.sponge), skSeed, Num(tree), leaf, forsTree, start + j)
  {
    hide Pad, U32BE, KeccakOf;
    ghost var msgs := FillForsSecrets(kernel, skSeed, tree, leaf, forsTree, start, c);
    sks := RunTops(kernel, msgs);
    forall j | 0 <= j < c
      ensures sks[j] == ForsSk(KeccakOf(kernel.sponge), skSeed, Num(tree), leaf, forsTree, start + j)
    {
      assert msgs[j] == SkMessage(skSeed, FORS_SK_TAG, tree, leaf, forsTree, start + j);
    }
  }

  /** The batch of leaf inputs over these secrets. */
  method FillForsLeaves(kernel: Kernel, pkSeed: Node, a: nat, tree: nat, leaf: nat, forsTree: nat, start: nat,
      sks: seq<Node>)
    returns (ghost msgs: seq<Bytes>)
    requires kernel.Valid() && kernel.capacity >= KERNEL_CAPACITY && 1 <= |sks| <= BATCH_CAP_1BLK
    modifies kernel, kernel.inBuf
    ensures kernel.Valid() && |kernel.slots| == |msgs| == |sks|
    ensures forall j :: 0 <= j < |sks| ==>
              msgs[j] == TMessage(pkSeed, Adrs(0, Num(tree), TYPE_FORS_TREE, leaf, 0, ForsWord(forsTree, a, start + j)),
                  Word16(sks[j]))
              && kernel.slots[j] == Pad(msgs[j])
  {
    hide Partial, Pad, U32BE, Stride, Adrs, ForsWord, Word16, TMessage;
    var c := |sks|;
    OneBlockFits(96, c, kernel.capacity);
    var begun := kernel.Begin(96, c);
    var stride := begun.value;
    msgs := seq(c, j requires 0 <= j < c =>
      TMessage(pkSeed, Adrs(0, Num(tree), TYPE_FORS_TREE, leaf, 0, ForsWord(forsTree, a, start + j)), Word16(sks[j])));
    var off := 0;
    for j := 0 to c
      invariant kernel.Valid() && kernel.msgLen == 96 && |kernel.slots| == c && off == j * stride
      invariant forall k :: 0 <= k < j ==> kernel.slots[k] == Pad(msgs[k])
      invariant forall k :: j <= k < c ==> kernel.slots[k] == Partial([], 96)
    {
      PutForsLeaf(kernel, j, off, pkSeed, tree, leaf, ForsWord(forsTree, a, start + j), sks[j]);
      off := off + stride;
    }
  }

  method BatchForsLeafHashes(kernel: Kernel, pkSeed: Node, a: nat, tree: nat, leaf: nat, forsTree: nat, start: nat,
      sks: seq<Node>)
    returns (leaves: seq<Node>)
    requires kernel.Valid() && kernel.capacity >= KERNEL_CAPACITY && 1 <= |sks| <= BATCH_CAP_1BLK
    modifies kernel, kernel.inBuf, kernel.outBuf
    ensures kernel.Valid()
    ensures |leaves| == |sks|
    ensures var tw := Tweak(KeccakOf(kernel.sponge), pkSeed);
            forall j :: 0 <= j < |sks| ==>
                leaves[j] == ForsLeafHash(tw, a, Num(tree), leaf, forsTree, start + j, sks[j])
  {
    hide Pad, U32BE, Adrs, ForsWord, Word16, KeccakOf;
    ghost var msgs := FillForsLeaves(kernel, pkSeed, a, tree, leaf, forsTree, start, sks);
    leaves := RunTops(kernel, msgs);
  }

  lemma ParentMessage(tw: Tweak, a: nat, tree: nat, leaf: nat, forsTree: nat, sh: nat, sub: nat, height: nat, p: nat,
      l: Node, r: Node)
    requires height < sh <= a
    ensures ForsBlockNode(tw, a, Num(tree), leaf, forsTree, sh, sub, height + 1, p, l, r)
         == TopN(tw.keccak(TMessage(tw.pkSeed,
              Adrs(0, Num(tree), TYPE_FORS_TREE, leaf, height + 1,
                  ForsWord(forsTree, a - (height + 1), Shl(sub, sh - (height + 1)) + p)),
              Word16(l) + Word16(r))))
  {
    hide Adrs, ForsWord, Word16, Shl;
    var h := height + 1;
    TweakedMessage(tw, Adrs(0, Num(tree), TYPE_FORS_TREE, leaf, h, ForsWord(forsTree, a - h, Shl(sub, sh - h) + p)),
        Word16(l) + Word16(r));
    hide TMessage;
  }

  lemma TweakedMessage(tw: Tweak, adrs: Bytes, payload: Bytes)
    ensures tw.T(adrs, payload) == TopN(tw.keccak(TMessage(tw.pkSeed, adrs, payload)))
  {
  }

  /** The batch of inputs for the parents `p0 <= p < p0 + c` of a level, numbered from `globalBase` on. */
  method FillForsParents(kernel: Kernel, pkSeed: Node, a: nat, tree: nat, leaf: nat, forsTree: nat, globalBase: nat,
      height: nat, level: seq<Node>, p0: nat, c: nat)
    returns (ghost msgs: seq<Bytes>)
    requires kernel.Valid() && kernel.capacity >= KERNEL_CAPACITY && 1 <= c <= BATCH_CAP_1BLK
    requires 2 * (p0 + c) <= |level| && height < a
    modifies kernel, kernel.inBuf
    ensures kernel.Valid() && |kernel.slots| == |msgs| == c
    ensures forall j :: 0 <= j < c ==>
              msgs[j] == TMessage(pkSeed, Adrs(0, Num(tree), TYPE_FORS_TREE, leaf, height + 1,
                  ForsWord(forsTree, a - (height + 1), globalBase + (p0 + j))),
                  Word16(level[2 * (p0 + j)]) + Word16(level[2 * (p0 + j) + 1]))
              && kernel.slots[j] == Pad(msgs[j])
  {
    hide Partial, Pad, U32BE, Stride, Adrs, ForsWord, Word16, TMessage;
    OneBlockFits(128, c, kernel.capacity);
    var begun := kernel.Begin(128, c);
    var stride := begun.value;
    msgs := seq(c, j requires 0 <= j < c =>
      TMessage(pkSeed, Adrs(0, Num(tree), TYPE_FORS_TREE, leaf, height + 1,
          ForsWord(forsTree, a - (height + 1), globalBase + (p0 + j))),
               Word16(level[2 * (p0 + j)]) + Word16(level[2 * (p0 + j) + 1])));
    var off := 0;
    for j := 0 to c
      invariant kernel.Valid() && kernel.msgLen == 128 && |kernel.slots| == c && off == j * stride
      invariant forall k :: 0 <= k < j ==> kernel.slots[k] == Pad(msgs[k])
      invariant forall k :: j <= k < c ==> kernel.slots[k] == Partial([], 128)
    {
      var p := p0 + j;
      PutForsParent(kernel, j, off, pkSeed, tree, leaf, height + 1,
          ForsWord(forsTree, a - (height + 1), globalBase + p),
                    level[2 * p], level[2 * p + 1]);
      off := off + stride;
    }
  }

  /** The parents `p0 <= p < p0 + c` of a level of a FORS block, in one batch. */
  method BatchForsParents(kernel: Kernel, pkSeed: Node, a: nat, tree: nat, leaf: nat, forsTree: nat, sh: nat, sub: nat,
                          height: nat, level: seq<Node>, p0: nat, c: nat)
    returns (parents: seq<Node>)
    requires kernel.Valid() && kernel.capacity >= KERNEL_CAPACITY && 1 <= c <= BATCH_CAP_1BLK
    requires 2 * (p0 + c) <= |level| && height < sh <= a
    modifies kernel, kernel.inBuf, kernel.outBuf
    ensures kernel.Valid()
    ensures |parents| == c
    ensures var tw := Tweak(KeccakOf(kernel.sponge), pkSeed);
            forall j :: 0 <= j < c ==>
              parents[j] == ForsBlockNode(tw, a, Num(tree), leaf, forsTree, sh, sub, height + 1, p0 + j,
                  level[2 * (p0 + j)], level[2 * (p0 + j) + 1])
  {
    hide Pad, Adrs, ForsWord, Word16, Shl, ForsBlockNode, KeccakOf, TMessage;
    var globalBase := Shl(sub, sh - (height + 1));
    ghost var msgs := FillForsParents(kernel, pkSeed, a, tree, leaf, forsTree, globalBase, height, level, p0, c);
    parents := RunTops(kernel, msgs);
    ghost var tw := Tweak(KeccakOf(kernel.sponge), pkSeed);
    forall j | 0 <= j < c
      ensures parents[j] ==
          ForsBlockNode(tw, a, Num(tree), leaf, forsTree, sh, sub, height + 1, p0 + j, level[2 * (p0 + j)],
          level[2 * (p0 + j) + 1])
    {
      ParentMessage(tw, a, tree, leaf, forsTree, sh, sub, height, p0 + j, level[2 * (p0 + j)], level[2 * (p0 + j) + 1]);
    }
  }

  // ---------------------------------------------------------------- the FORS twin

  lemma {:induction false} ForsLeavesExtend(tw: Tweak, skSeed: Digest, a: nat, tree: TreeIndex, leaf: nat,
      forsTree: nat, start: nat, n: nat, more: seq<Node>)
    requires forall j :: 0 <= j < |more| ==>
               more[j] == ForsLeafHash(tw, a, tree, leaf, forsTree, start + n + j,
                   ForsSk(tw.keccak, skSeed, tree, leaf, forsTree, start + n + j))
    ensures ForsLeaves(tw, skSeed, a, tree, leaf, forsTree, start, n) + more
         == ForsLeaves(tw, skSeed, a, tree, leaf, forsTree, start, n + |more|)
    decreases |more|
  {
    hide ForsLeafHash, ForsSk;
    var leaves := ForsLeaves(tw, skSeed, a, tree, leaf, forsTree, start, n);
    if |more| == 0 {
      assert leaves + more == leaves;
    } else {
      var m := |more| - 1;
      ForsLeavesExtend(tw, skSeed, a, tree, leaf, forsTree, start, n, more[..m]);
      assert leaves + more == leaves + more[..m] + [more[m]];
    }
  }

  lemma {:induction false} ParentsExtend(hash: NodeHash<Node>, height: nat, level: seq<Node>, n: nat, more: seq<Node>)
    requires 2 * (n + |more|) <= |level|
    requires forall j :: 0 <= j < |more| ==>
        more[j] == hash(height + 1, n + j, level[2 * (n + j)], level[2 * (n + j) + 1])
    ensures ParentsPrefix(hash, height, level, n) + more == ParentsPrefix(hash, height, level, n + |more|)
    decreases |more|
  {
    var parents := ParentsPrefix(hash, height, level, n);
    if |more| == 0 {
      assert parents + more == parents;
    } else {
      var m := |more| - 1;
      ParentsExtend(hash, height, level, n, more[..m]);
      assert parents + more == parents + more[..m] + [more[m]];
    }
  }

  method ForsLeavesBatched(kernel: Kernel, skSeed: Digest, pkSeed: Node, a: nat, tree: nat, leaf: nat, forsTree: nat,
      start: nat, n: nat)
    returns (level: seq<Node>)
    requires kernel.Valid() && kernel.capacity >= KERNEL_CAPACITY
    modifies kernel, kernel.inBuf, kernel.outBuf
    ensures kernel.Valid()
    ensures level == ForsLeaves(Tweak(KeccakOf(kernel.sponge), pkSeed), skSeed, a, Num(tree), leaf, forsTree, start, n)
  {
    hide ForsLeafHash, ForsSk;
    ghost var tw := Tweak(KeccakOf(kernel.sponge), pkSeed);
    level := [];
    var c0 := 0;
    while c0 < n
      invariant c0 <= n && kernel.Valid()
      invariant level == ForsLeaves(tw, skSeed, a, Num(tree), leaf, forsTree, start, c0)
    {
      var c := if n - c0 < BATCH_CAP_1BLK then n - c0 else BATCH_CAP_1BLK;
      var sks := BatchForsSecrets(kernel, skSeed, tree, leaf, forsTree, start + c0, c);
      var more := BatchForsLeafHashes(kernel, pkSeed, a, tree, leaf, forsTree, start + c0, sks);
      ForsLeavesExtend(tw, skSeed, a, Num(tree), leaf, forsTree, start, c0, more);
      level := level + more;
      c0 := c0 + c;
    }
  }

  lemma ForsParentsExtend(tw: Tweak, a: nat, tree: TreeIndex, leaf: nat, forsTree: nat, sh: nat, sub: nat,
      height: nat, level: seq<Node>, n: nat, more: seq<Node>)
    requires height < sh <= a && 2 * (n + |more|) <= |level|
    requires forall j :: 0 <= j < |more| ==>
               more[j] == ForsBlockNode(tw, a, tree, leaf, forsTree, sh, sub, height + 1, n + j,
                   level[2 * (n + j)], level[2 * (n + j) + 1])
    ensures var hash := ForsBlockHash(tw, a, tree, leaf, forsTree, sh, sub);
            ParentsPrefix(hash, height, level, n) + more == ParentsPrefix(hash, height, level, n + |more|)
  {
    hide ForsBlockNode, ParentsPrefix;
    ParentsExtend(ForsBlockHash(tw, a, tree, leaf, forsTree, sh, sub), height, level, n, more);
  }

  /** One chunk of a level, after the parents before it. */
  method ForsParentsChunk(kernel: Kernel, pkSeed: Node, a: nat, tree: nat, leaf: nat, forsTree: nat, sh: nat,
      sub: nat, height: nat, level: seq<Node>, p0: nat, c: nat)
    returns (more: seq<Node>)
    requires kernel.Valid() && kernel.capacity >= KERNEL_CAPACITY && height < sh <= a
    requires 1 <= c <= BATCH_CAP_1BLK && 2 * (p0 + c) <= |level|
    modifies kernel, kernel.inBuf, kernel.outBuf
    ensures kernel.Valid()
    ensures var hash := ForsBlockHash(Tweak(KeccakOf(kernel.sponge), pkSeed), a, Num(tree), leaf, forsTree, sh, sub);
            ParentsPrefix(hash, height, level, p0) + more == ParentsPrefix(hash, height, level, p0 + c)
  {
    hide ForsBlockHash, ForsBlockNode, ParentsPrefix, KeccakOf;
    more := BatchForsParents(kernel, pkSeed, a, tree, leaf, forsTree, sh, sub, height, level, p0, c);
    ForsParentsExtend(Tweak(KeccakOf(kernel.sponge), pkSeed), a, Num(tree), leaf, forsTree, sh, sub, height, level, p0,
        more);
  }

  method ForsParentsBatched(kernel: Kernel, pkSeed: Node, a: nat, tree: nat, leaf: nat, forsTree: nat, sh: nat,
      sub: nat, height: nat, level: seq<Node>)
    returns (next: seq<Node>)
    requires kernel.Valid() && kernel.capacity >= KERNEL_CAPACITY && height < sh <= a
    modifies kernel, kernel.inBuf, kernel.outBuf
    ensures kernel.Valid()
    ensures next == Parents(ForsBlockHash(Tweak(KeccakOf(kernel.sponge), pkSeed), a, Num(tree), leaf, forsTree, sh,
        sub), height, level)
  {
    ghost var hash := ForsBlockHash(Tweak(KeccakOf(kernel.sponge), pkSeed), a, Num(tree), leaf, forsTree, sh, sub);
    var half := |level| / 2;
    assert ParentsPrefix(hash, height, level, 0) == [];
    assert Parents(hash, height, level) == ParentsPrefix(hash, height, level, half);
    hide ForsBlockHash, ParentsPrefix, Parents, KeccakOf, Kernel.SlotsHold, Kernel.DigestsHold;
    next := [];
    var p0 := 0;
    while p0 < half
      invariant p0 <= half && kernel.Valid()
      invariant next == ParentsPrefix(hash, height, level, p0)
    {
      var c := if half - p0 < BATCH_CAP_1BLK then half - p0 else BATCH_CAP_1BLK;
      var more := ForsParentsChunk(kernel, pkSeed, a, tree, leaf, forsTree, sh, sub, height, level, p0, c);
      next := next + more;
      p0 := p0 + c;
    }
  }

  /** The batched FORS subtree returns the root and the path of the scalar one, for every height and every
      chunk boundary. */
  method ForsSubtreeBatched(P: Params, kernel: Kernel, skSeed: Digest, pkSeed: Node, tree: nat, leaf: nat,
      forsTree: nat, sh: nat, sub: nat, localReveal: nat)
    returns (root: Node, auth: seq<Node>)
    requires kernel.Valid() && kernel.capacity >= KERNEL_CAPACITY && sh <= P.a && localReveal < Pow2(sh)
    modifies kernel, kernel.inBuf, kernel.outBuf
    ensures kernel.Valid()
    ensures root == ForsBlockRoot(P, Tweak(KeccakOf(kernel.sponge), pkSeed), skSeed, Num(tree), leaf, forsTree, sh, sub)
    ensures auth == ForsBlockAuth(P, Tweak(KeccakOf(kernel.sponge), pkSeed), skSeed, Num(tree), leaf, forsTree, sh,
        sub, localReveal)
  {
    ghost var tw := Tweak(KeccakOf(kernel.sponge), pkSeed);
    ghost var hash := ForsBlockHash(tw, P.a, Num(tree), leaf, forsTree, sh, sub);
    hide ForsBlockHash, ForsLeaves, Parents, Pow2, Xor, Shr, SiblingAt;
    ShlIsMul(1, sh);
    ShrNone(localReveal);
    var level := ForsLeavesBatched(kernel, skSeed, pkSeed, P.a, tree, leaf, forsTree, Shl(sub, sh), Shl(1, sh));
    ghost var leaves := level;
    var idx := localReveal;
    auth := [];
    for h := 0 to sh
      invariant kernel.Valid()
      invariant level == Level(hash, 0, leaves, h) && idx == Shr(localReveal, h)
      invariant auth == AuthPath(hash, 0, leaves, sh, localReveal, h)
    {
      SiblingInLevel(hash, 0, leaves, sh, localReveal, h);
      auth := auth + [level[Xor(idx, 1)]];
      level := ForsParentsBatched(kernel, pkSeed, P.a, tree, leaf, forsTree, sh, sub, h, level);
      ShrAdd(localReveal, h, 1);
      idx := Shr(idx, 1);
    }
    LevelLength(hash, 0, leaves, sh, sh);
    PowZero();
    root := level[0];
  }

  lemma PowZero()
    ensures Pow2(0) == 1
  {
  }

  // ---------------------------------------------------------------- the WOTS twin

  method PutWotsHash(kernel: Kernel, ghost i: nat, off: nat, pkSeed: Node, layer: nat, tree: nat, keypair: nat,
      chain: nat, p: nat, v: Node)
    requires kernel.Valid() && i < |kernel.slots| && kernel.msgLen == 96
    requires off == i * Stride(96) && kernel.slots[i] == Partial([], 96)
    modifies kernel`slots, kernel.inBuf
    ensures kernel.Valid()
    ensures kernel.slots == old(kernel.slots)[i :=
              Pad(TMessage(pkSeed, Adrs(layer, Num(tree), TYPE_WOTS_HASH, keypair, chain, p), Word16(v)))]
  {
    hide Partial, U32BE, Stride, Pad, WotsHead;
    PutWotsHead(kernel, i, off, pkSeed, layer, tree);
    ghost var head := WotsHead(pkSeed, layer, tree);
    SkipZeros(head, 4, 96);
    ZeroWord();
    kernel.Put(i, off + 52, head + U32BE(TYPE_WOTS_HASH), U32BE(keypair));
    kernel.Put(i, off + 56, head + U32BE(TYPE_WOTS_HASH) + U32BE(keypair), U32BE(chain));
    kernel.Put(i, off + 60, head + U32BE(TYPE_WOTS_HASH) + U32BE(keypair) + U32BE(chain), U32BE(p));
    WotsAddress(pkSeed, layer, tree, TYPE_WOTS_HASH, keypair, chain, p);
    ghost var adrs := Word16(pkSeed) + Adrs(layer, Num(tree), TYPE_WOTS_HASH, keypair, chain, p);
    kernel.Put(i, off + 64, adrs, v);
    SkipZeros(adrs + v, 16, 96);
    assert adrs + v + Zeros(16) == adrs + Word16(v);
    PartialComplete(adrs + Word16(v));
  }

  function WotsHead(pkSeed: Node, layer: nat, tree: nat): (r: Bytes)
    ensures |r| == 48
  {
    Word16(pkSeed) + U32BE(layer) + Zeros(8) + U32BE(tree)
  }

  lemma WotsAddress(pkSeed: Node, layer: nat, tree: nat, kind: nat, w1: nat, w2: nat, w3: nat)
    ensures WotsHead(pkSeed, layer, tree) + U32BE(kind) + U32BE(w1) + U32BE(w2) + U32BE(w3)
         == Word16(pkSeed) + Adrs(layer, Num(tree), kind, w1, w2, w3)
  {
    hide U32BE;
    AddressFields(Word16(pkSeed), layer, tree, kind, w1, w2, w3);
  }

  method PutWotsHead(kernel: Kernel, ghost i: nat, off: nat, pkSeed: Node, layer: nat, tree: nat)
    requires kernel.Valid() && i < |kernel.slots| && kernel.msgLen >= 64
    requires off == i * Stride(kernel.msgLen) && kernel.slots[i] == Partial([], kernel.msgLen)
    modifies kernel`slots, kernel.inBuf
    ensures kernel.Valid()
    ensures kernel.slots == old(kernel.slots)[i := Partial(WotsHead(pkSeed, layer, tree), kernel.msgLen)]
  {
    hide Partial, U32BE, Stride;
    ghost var len := kernel.msgLen;
    assert [] + pkSeed == pkSeed;
    kernel.Put(i, off, [], pkSeed);
    SkipZeros(pkSeed, 16, len);
    ghost var seed := Word16(pkSeed);
    kernel.Put(i, off + 32, seed, U32BE(layer));
    SkipZeros(seed + U32BE(layer), 8, len);
    kernel.Put(i, off + 44, seed + U32BE(layer) + Zeros(8), U32BE(tree));
  }

  const COMPRESS_LEN := 32 + 32 + SPX_L * 32

  method PutWotsPk(kernel: Kernel, ghost i: nat, off: nat, pkSeed: Node, layer: nat, tree: nat, keypair: nat,
      ends: seq<Node>)
    requires kernel.Valid() && i < |kernel.slots| && kernel.msgLen == COMPRESS_LEN && |ends| == SPX_L
    requires off == i * Stride(COMPRESS_LEN) && kernel.slots[i] == Partial([], COMPRESS_LEN)
    modifies kernel`slots, kernel.inBuf
    ensures kernel.Valid()
    ensures kernel.slots == old(kernel.slots)[i :=
              Pad(TMessage(pkSeed, Adrs(layer, Num(tree), TYPE_WOTS_PK, keypair, 0, 0), Words(ends)))]
  {
    WordsNone();
    hide Partial, U32BE, Stride, Pad, WotsHead, Words, Adrs;
    PutWotsHead(kernel, i, off, pkSeed, layer, tree);
    ghost var head := WotsHead(pkSeed, layer, tree);
    kernel.Put(i, off + 48, head, U32BE(TYPE_WOTS_PK));
    kernel.Put(i, off + 52, head + U32BE(TYPE_WOTS_PK), U32BE(keypair));
    ghost var front := head + U32BE(TYPE_WOTS_PK) + U32BE(keypair);
    SkipZeros(front, 4, COMPRESS_LEN);
    SkipZeros(front + Zeros(4), 4, COMPRESS_LEN);
    ZeroWord();
    WotsAddress(pkSeed, layer, tree, TYPE_WOTS_PK, keypair, 0, 0);
    ghost var adrs := Word16(pkSeed) + Adrs(layer, Num(tree), TYPE_WOTS_PK, keypair, 0, 0);
    assert adrs + Words(ends[..0]) == adrs;
    for c := 0 to SPX_L
      invariant kernel.Valid()
      invariant kernel.slots == old(kernel.slots)[i := Partial(adrs + Words(ends[..c]), COMPRESS_LEN)]
    {
      ghost var done := adrs + Words(ends[..c]);
      kernel.Put(i, off + 64 + c * 32, done, ends[c]);
      SkipZeros(done + ends[c], 16, COMPRESS_LEN);
      assert ends[..c + 1] == ends[..c] + [ends[c]];
      WordsPush(ends[..c], ends[c]);
      assert done + ends[c] + Zeros(16) == adrs + Words(ends[..c + 1]);
    }
    assert ends[..SPX_L] == ends;
    PartialComplete(adrs + Words(ends));
  }

  /** Slot `35 * k + i` of a chunk belongs to chain `i` of key pair `k`. */
  lemma ChunkIndex(k: nat, i: nat)
    requires i < SPX_L
    ensures (k * SPX_L + i) / SPX_L == k && (k * SPX_L + i) % SPX_L == i
  {
  }

  lemma ChunkFits(kc: nat, capacity: nat)
    requires 1 <= kc <= KP_CHUNK && capacity >= KERNEL_CAPACITY
    ensures 1 <= kc * SPX_L <= BATCH_CAP_1BLK
    ensures Stride(COMPRESS_LEN) == 1224 && kc * Stride(COMPRESS_LEN) <= capacity
  {
  }

  method PutWotsSecrets(kernel: Kernel, skSeed: Digest, layer: nat, tree: nat, k0: nat, k: nat, start: nat,
      stride: nat, ghost msgs: seq<Bytes>)
    returns (off: nat)
    requires kernel.Valid() && kernel.msgLen == 68 && |kernel.slots| == |msgs| && (k + 1) * SPX_L <= |msgs|
    requires stride == Stride(68) && start == (k * SPX_L) * stride
    requires forall j :: 0 <= j < |msgs| ==>
        msgs[j] == SkMessage(skSeed, WOTS_SK_TAG, layer, tree, k0 + j / SPX_L, j % SPX_L)
    requires forall x :: 0 <= x < k * SPX_L ==> kernel.slots[x] == Pad(msgs[x])
    requires forall x :: k * SPX_L <= x < |msgs| ==> kernel.slots[x] == Partial([], 68)
    modifies kernel`slots, kernel.inBuf
    ensures kernel.Valid() && |kernel.slots| == |msgs| && off == ((k + 1) * SPX_L) * stride
    ensures forall x :: 0 <= x < (k + 1) * SPX_L ==> kernel.slots[x] == Pad(msgs[x])
    ensures forall x :: (k + 1) * SPX_L <= x < |msgs| ==> kernel.slots[x] == Partial([], 68)
  {
    hide Partial, Pad, U32BE, SkMessage;
    assert stride == 136;
    hide Stride;
    off := start;
    for i := 0 to SPX_L
      invariant kernel.Valid() && kernel.msgLen == 68 && |kernel.slots| == |msgs| && off == (k * SPX_L + i) * stride
      invariant forall x :: 0 <= x < k * SPX_L + i ==> kernel.slots[x] == Pad(msgs[x])
      invariant forall x :: k * SPX_L + i <= x < |msgs| ==> kernel.slots[x] == Partial([], 68)
    {
      ChunkIndex(k, i);
      PutSk(kernel, k * SPX_L + i, off, skSeed, WOTS_SK_TAG, layer, tree, k0 + k, i);
      off := off + stride;
    }
  }

  method BatchWotsSecrets(kernel: Kernel, skSeed: Digest, layer: nat, tree: nat, k0: nat, kc: nat)
    returns (vals: seq<Node>)
    requires kernel.Valid() && kernel.capacity >= KERNEL_CAPACITY && 1 <= kc <= KP_CHUNK
    modifies kernel, kernel.inBuf, kernel.outBuf
    ensures kernel.Valid()
    ensures |vals| == kc * SPX_L
    ensures forall j :: 0 <= j < |vals| ==>
              vals[j] == WotsSk(KeccakOf(kernel.sponge), skSeed, layer, Num(tree), k0 + j / SPX_L, j % SPX_L)
  {
    hide Partial, Pad, U32BE, Stride;
    var m := kc * SPX_L;
    ChunkFits(kc, kernel.capacity);
    OneBlockFits(68, m, kernel.capacity);
    var begun := kernel.Begin(68, m);
    var stride := begun.value;
    ghost var msgs :=
        seq(m, j requires 0 <= j < m => SkMessage(skSeed, WOTS_SK_TAG, layer, tree, k0 + j / SPX_L, j % SPX_L));
    var off := 0;
    for k := 0 to kc
      invariant kernel.Valid() && kernel.msgLen == 68 && |kernel.slots| == m && off == (k * SPX_L) * stride
      invariant forall x :: 0 <= x < k * SPX_L ==> kernel.slots[x] == Pad(msgs[x])
      invariant forall x :: k * SPX_L <= x < m ==> kernel.slots[x] == Partial([], 68)
    {
      off := PutWotsSecrets(kernel, skSeed, layer, tree, k0, k, off, stride, msgs);
    }
    vals := RunTops(kernel, msgs);
    forall j | 0 <= j < m
      ensures vals[j] == WotsSk(KeccakOf(kernel.sponge), skSeed, layer, Num(tree), k0 + j / SPX_L, j % SPX_L)
    {
      assert msgs[j] == SkMessage(skSeed, WOTS_SK_TAG, layer, tree, k0 + j / SPX_L, j % SPX_L);
    }
  }

  /** The chain inputs of one key pair, into the slots from `base` on. */
  method PutWotsHashes(kernel: Kernel, pkSeed: Node, layer: nat, tree: nat, keypair: nat, p: nat, vs: seq<Node>,
      ghost base: nat, start: nat, stride: nat,
                       ghost mine: seq<Bytes>)
    returns (off: nat)
    requires kernel.Valid() && kernel.msgLen == 96 && |vs| == |mine| == SPX_L && base + SPX_L <= |kernel.slots|
    requires stride == Stride(96) && start == base * stride
    requires forall i :: 0 <= i < SPX_L ==>
        mine[i] == TMessage(pkSeed, Adrs(layer, Num(tree), TYPE_WOTS_HASH, keypair, i, p), Word16(vs[i]))
    requires forall x :: base <= x < base + SPX_L ==> kernel.slots[x] == Partial([], 96)
    modifies kernel`slots, kernel.inBuf
    ensures kernel.Valid() && |kernel.slots| == |old(kernel.slots)| && off == (base + SPX_L) * stride
    ensures forall x :: base <= x < base + SPX_L ==> kernel.slots[x] == Pad(mine[x - base])
    ensures forall x :: 0 <= x < |kernel.slots| && !(base <= x < base + SPX_L) ==>
        kernel.slots[x] == old(kernel.slots)[x]
  {
    hide Partial, Pad, U32BE, Stride, Adrs, Word16, TMessage;
    off := start;
    for i := 0 to SPX_L
      invariant kernel.Valid() && kernel.msgLen == 96 && |kernel.slots| == |old(kernel.slots)| &&
          off == (base + i) * Stride(96)
      invariant forall x :: base <= x < base + i ==> kernel.slots[x] == Pad(mine[x - base])
      invariant forall x :: 0 <= x < |kernel.slots| && !(base <= x < base + i) ==>
          kernel.slots[x] == old(kernel.slots)[x]
    {
      assert kernel.slots[base + i] == Partial([], 96);
      PutWotsHash(kernel, base + i, off, pkSeed, layer, tree, keypair, i, p, vs[i]);
      assert kernel.slots[base + i] == Pad(mine[i]);
      assert off + stride == (base + (i + 1)) * Stride(96);
      off := off + stride;
    }
  }

  /** One lockstep step of every chain of a chunk. */
  method BatchWotsStep(kernel: Kernel, pkSeed: Node, layer: nat, tree: nat, k0: nat, kc: nat, p: nat, vals: seq<Node>)
    returns (next: seq<Node>)
    requires kernel.Valid() && kernel.capacity >= KERNEL_CAPACITY && 1 <= kc <= KP_CHUNK && |vals| == kc * SPX_L
    modifies kernel, kernel.inBuf, kernel.outBuf
    ensures kernel.Valid()
    ensures |next| == |vals|
    ensures var tw := Tweak(KeccakOf(kernel.sponge), pkSeed);
            forall j :: 0 <= j < |vals| ==>
              next[j] == ChainStep(tw, layer, Num(tree), k0 + j / SPX_L, j % SPX_L, p, vals[j])
  {
    hide Partial, Pad, U32BE, Stride, Adrs, Word16, TMessage;
    var m := kc * SPX_L;
    ChunkFits(kc, kernel.capacity);
    OneBlockFits(96, m, kernel.capacity);
    var begun := kernel.Begin(96, m);
    ghost var tw := Tweak(KeccakOf(kernel.sponge), pkSeed);
    ghost var msgs := seq(m, j requires 0 <= j < m =>
        TMessage(pkSeed, Adrs(layer, Num(tree), TYPE_WOTS_HASH, k0 + j / SPX_L, j % SPX_L, p), Word16(vals[j])));
    FillWotsStep(kernel, pkSeed, layer, tree, k0, kc, p, vals, begun.value, msgs);
    next := RunTops(kernel, msgs);
    forall j | 0 <= j < m
      ensures next[j] == ChainStep(tw, layer, Num(tree), k0 + j / SPX_L, j % SPX_L, p, vals[j])
    {
      TweakedMessage(tw, Adrs(layer, Num(tree), TYPE_WOTS_HASH, k0 + j / SPX_L, j % SPX_L, p), Word16(vals[j]));
    }
  }

  /** The slots of one lockstep step, key pair after key pair. */
  method FillWotsStep(kernel: Kernel, pkSeed: Node, layer: nat, tree: nat, k0: nat, kc: nat, p: nat, vals: seq<Node>,
                      stride: nat, ghost msgs: seq<Bytes>)
    requires kernel.Valid() && kernel.msgLen == 96 && |kernel.slots| == |msgs| == |vals| == kc * SPX_L
    requires stride == Stride(96)
    requires forall j :: 0 <= j < |msgs| ==>
        msgs[j]
        == TMessage(pkSeed, Adrs(layer, Num(tree), TYPE_WOTS_HASH, k0 + j / SPX_L, j % SPX_L, p), Word16(vals[j]))
    requires forall x :: 0 <= x < |msgs| ==> kernel.slots[x] == Partial([], 96)
    modifies kernel`slots, kernel.inBuf
    ensures kernel.Valid() && |kernel.slots| == |msgs|
    ensures forall x :: 0 <= x < |msgs| ==> kernel.slots[x] == Pad(msgs[x])
  {
    hide Partial, Pad, Stride, Adrs, Word16, TMessage;
    var off := 0;
    for k := 0 to kc
      invariant kernel.Valid() && kernel.msgLen == 96 && |kernel.slots| == |msgs| && off == (k * SPX_L) * Stride(96)
      invariant forall x :: 0 <= x < k * SPX_L ==> kernel.slots[x] == Pad(msgs[x])
      invariant forall x :: k * SPX_L <= x < |msgs| ==> kernel.slots[x] == Partial([], 96)
    {
      ghost var base := k * SPX_L;
      ChunkMessages(pkSeed, layer, tree, k0, p, vals, msgs, k);
      off := PutWotsHashes(kernel, pkSeed, layer, tree, k0 + k, p, ChunkOf(vals, k), base, off, stride,
          msgs[base..base + SPX_L]);
    }
  }

  /** The messages of key pair `k` among those of a chunk. */
  lemma ChunkMessages(pkSeed: Node, layer: nat, tree: nat, k0: nat, p: nat, vals: seq<Node>, msgs: seq<Bytes>, k: nat)
    requires |msgs| == |vals| && k * SPX_L + SPX_L <= |vals|
    requires forall j :: 0 <= j < |msgs| ==>
        msgs[j]
        == TMessage(pkSeed, Adrs(layer, Num(tree), TYPE_WOTS_HASH, k0 + j / SPX_L, j % SPX_L, p), Word16(vals[j]))
    ensures forall i :: 0 <= i < SPX_L ==>
        msgs[k * SPX_L..k * SPX_L + SPX_L][i]
        == TMessage(pkSeed, Adrs(layer, Num(tree), TYPE_WOTS_HASH, k0 + k, i, p), Word16(ChunkOf(vals, k)[i]))
  {
    hide TMessage, Adrs, Word16;
    forall i | 0 <= i < SPX_L
      ensures msgs[k * SPX_L..k * SPX_L + SPX_L][i]
           == TMessage(pkSeed, Adrs(layer, Num(tree), TYPE_WOTS_HASH, k0 + k, i, p), Word16(ChunkOf(vals, k)[i]))
    {
      ChunkIndex(k, i);
    }
  }

  /** The chain values of key pair `k` of a chunk. */
  function ChunkOf(vals: seq<Node>, k: nat): (r: seq<Node>)
    requires k * SPX_L + SPX_L <= |vals|
    ensures |r| == SPX_L
  {
    vals[k * SPX_L..k * SPX_L + SPX_L]
  }

  /** One compression per key pair, of the ends of its chains. */
  /** The batch of compression inputs over these chain ends. */
  method FillWotsCompress(kernel: Kernel, pkSeed: Node, layer: nat, tree: nat, k0: nat, ends: seq<seq<Node>>)
    returns (ghost msgs: seq<Bytes>)
    requires kernel.Valid() && kernel.capacity >= KERNEL_CAPACITY && 1 <= |ends| <= KP_CHUNK
    requires forall k :: 0 <= k < |ends| ==> |ends[k]| == SPX_L
    modifies kernel, kernel.inBuf
    ensures kernel.Valid() && |kernel.slots| == |msgs| == |ends|
    ensures forall k :: 0 <= k < |ends| ==>
              msgs[k] == TMessage(pkSeed, Adrs(layer, Num(tree), TYPE_WOTS_PK, k0 + k, 0, 0), Words(ends[k]))
              && kernel.slots[k] == Pad(msgs[k])
  {
    hide Partial, Pad, U32BE, Stride, Adrs, Word16, Words, TMessage;
    var kc := |ends|;
    ChunkFits(kc, kernel.capacity);
    var begun := kernel.Begin(COMPRESS_LEN, kc);
    var stride := begun.value;
    msgs := seq(kc, k requires 0 <= k < kc =>
      TMessage(pkSeed, Adrs(layer, Num(tree), TYPE_WOTS_PK, k0 + k, 0, 0), Words(ends[k])));
    var off := 0;
    for k := 0 to kc
      invariant kernel.Valid() && kernel.msgLen == COMPRESS_LEN && |kernel.slots| == kc && off == k * stride
      invariant forall x :: 0 <= x < k ==> kernel.slots[x] == Pad(msgs[x])
      invariant forall x :: k <= x < kc ==> kernel.slots[x] == Partial([], COMPRESS_LEN)
    {
      PutWotsPk(kernel, k, off, pkSeed, layer, tree, k0 + k, ends[k]);
      off := off + stride;
    }
  }

  method BatchWotsCompress(kernel: Kernel, pkSeed: Node, layer: nat, tree: nat, k0: nat, ends: seq<seq<Node>>)
    returns (pks: seq<Node>)
    requires kernel.Valid() && kernel.capacity >= KERNEL_CAPACITY && 1 <= |ends| <= KP_CHUNK
    requires forall k :: 0 <= k < |ends| ==> |ends[k]| == SPX_L
    modifies kernel, kernel.inBuf, kernel.outBuf
    ensures kernel.Valid()
    ensures |pks| == |ends|
    ensures var tw := Tweak(KeccakOf(kernel.sponge), pkSeed);
            forall k :: 0 <= k < |ends| ==> pks[k] == CompressEnds(tw, layer, Num(tree), k0 + k, ends[k])
  {
    hide Pad, U32BE, Adrs, Word16, Words, KeccakOf;
    ghost var msgs := FillWotsCompress(kernel, pkSeed, layer, tree, k0, ends);
    pks := RunTops(kernel, msgs);
  }

  /** The chains of a chunk after `p` steps. */
  ghost predicate ChainsAt(tw: Tweak, skSeed: Digest, layer: nat, tree: nat, k0: nat, kc: nat, p: nat,
      vals: seq<Node>) {
    && |vals| == kc * SPX_L
    && forall j :: 0 <= j < |vals| ==>
         vals[j] == Chain(tw, layer, Num(tree), k0 + j / SPX_L, j % SPX_L,
                          WotsSk(tw.keccak, skSeed, layer, Num(tree), k0 + j / SPX_L, j % SPX_L), 0, p)
  }

  lemma ChainsAdvance(tw: Tweak, skSeed: Digest, layer: nat, tree: nat, k0: nat, kc: nat, p: nat, vals: seq<Node>,
      next: seq<Node>)
    requires ChainsAt(tw, skSeed, layer, tree, k0, kc, p, vals) && |next| == |vals|
    requires forall j :: 0 <= j < |vals| ==>
        next[j] == ChainStep(tw, layer, Num(tree), k0 + j / SPX_L, j % SPX_L, p, vals[j])
    ensures ChainsAt(tw, skSeed, layer, tree, k0, kc, p + 1, next)
  {
    hide ChainStep, WotsSk;
  }

  lemma {:induction false} ChunkEnds(tw: Tweak, skSeed: Digest, layer: nat, tree: nat, k0: nat, kc: nat,
      vals: seq<Node>, k: nat, n: nat)
    requires ChainsAt(tw, skSeed, layer, tree, k0, kc, SPX_W - 1, vals) && k < kc && n <= SPX_L
    requires k * SPX_L + SPX_L <= |vals|
    ensures vals[k * SPX_L..k * SPX_L + n] == ChainEnds(tw, skSeed, layer, Num(tree), k0 + k, n)
  {
    hide Chain, WotsSk;
    if n != 0 {
      ChunkEnds(tw, skSeed, layer, tree, k0, kc, vals, k, n - 1);
      ChunkIndex(k, n - 1);
      var lo := k * SPX_L;
      assert vals[lo..lo + n] == vals[lo..lo + n - 1] + [vals[lo + n - 1]];
    }
  }

  lemma {:induction false} PublicKeysExtend(tw: Tweak, skSeed: Digest, layer: nat, tree: TreeIndex, start: nat,
      mid: nat, more: seq<Node>)
    requires start <= mid && forall k :: 0 <= k < |more| ==> more[k] == PublicKey(tw, skSeed, layer, tree, mid + k)
    ensures PublicKeys(tw, skSeed, layer, tree, start, mid) + more ==
        PublicKeys(tw, skSeed, layer, tree, start, mid + |more|)
    decreases |more|
  {
    hide PublicKey;
    var keys := PublicKeys(tw, skSeed, layer, tree, start, mid);
    if |more| == 0 {
      assert keys + more == keys;
    } else {
      var m := |more| - 1;
      PublicKeysExtend(tw, skSeed, layer, tree, start, mid, more[..m]);
      assert keys + more == keys + more[..m] + [more[m]];
    }
  }

  /** The public keys of one chunk: secrets, fifteen lockstep chain steps, one compression. */
  method WotsChunkBatched(kernel: Kernel, skSeed: Digest, pkSeed: Node, layer: nat, tree: nat, k0: nat, kc: nat)
    returns (pks: seq<Node>)
    requires kernel.Valid() && kernel.capacity >= KERNEL_CAPACITY && 1 <= kc <= KP_CHUNK
    modifies kernel, kernel.inBuf, kernel.outBuf
    ensures kernel.Valid()
    ensures |pks| == kc
    ensures forall k :: 0 <= k < kc ==>
        pks[k] == PublicKey(Tweak(KeccakOf(kernel.sponge), pkSeed), skSeed, layer, Num(tree), k0 + k)
  {
    ghost var tw := Tweak(KeccakOf(kernel.sponge), pkSeed);
    var vals := BatchWotsSecrets(kernel, skSeed, layer, tree, k0, kc);
    assert ChainsAt(tw, skSeed, layer, tree, k0, kc, 0, vals);
    hide ChainsAt, CompressEnds, ChainEnds, ChainStep;
    for p := 0 to SPX_W - 1
      invariant kernel.Valid() && |vals| == kc * SPX_L && ChainsAt(tw, skSeed, layer, tree, k0, kc, p, vals)
    {
      var next := BatchWotsStep(kernel, pkSeed, layer, tree, k0, kc, p, vals);
      ChainsAdvance(tw, skSeed, layer, tree, k0, kc, p, vals, next);
      vals := next;
    }
    var ends := seq(kc, k requires 0 <= k < kc => ChunkOf(vals, k));
    pks := BatchWotsCompress(kernel, pkSeed, layer, tree, k0, ends);
    forall k | 0 <= k < kc ensures pks[k] == PublicKey(tw, skSeed, layer, Num(tree), k0 + k) {
      ChunkEnds(tw, skSeed, layer, tree, k0, kc, vals, k, SPX_L);
      assert ends[k] == vals[k * SPX_L..k * SPX_L + SPX_L];
    }
  }

  /** The batched range of public keys is the scalar one, for every range and every chunk boundary. */
  method WotsPkRangeBatched(kernel: Kernel, skSeed: Digest, pkSeed: Node, layer: nat, tree: nat, start: nat, stop: nat)
    returns (pks: seq<Node>)
    requires kernel.Valid() && kernel.capacity >= KERNEL_CAPACITY && start <= stop
    modifies kernel, kernel.inBuf, kernel.outBuf
    ensures kernel.Valid()
    ensures pks == PublicKeys(Tweak(KeccakOf(kernel.sponge), pkSeed), skSeed, layer, Num(tree), start, stop)
  {
    hide PublicKey;
    ghost var tw := Tweak(KeccakOf(kernel.sponge), pkSeed);
    pks := [];
    var k0 := start;
    while k0 < stop
      invariant start <= k0 <= stop && kernel.Valid()
      invariant pks == PublicKeys(tw, skSeed, layer, Num(tree), start, k0)
    {
      var kc := if stop - k0 < KP_CHUNK then stop - k0 else KP_CHUNK;
      var more := WotsChunkBatched(kernel, skSeed, pkSeed, layer, tree, k0, kc);
      PublicKeysExtend(tw, skSeed, layer, Num(tree), start, k0, more);
      pks := pks + more;
      k0 := k0 + kc;
    }
  }
}
