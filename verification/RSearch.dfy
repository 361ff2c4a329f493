/** The search for a randomizer whose digest has a zero in the last FORS field, one counter at a time and
    in batched windows. Used by the counter profiles, which do not use the compact message layout. */
module RSearch {
  import opened Bits
  import opened Bytes
  import opened Params
  import opened Hashing
  import opened KeccakBatch
  import opened BatchedTwins
  import opened Wrappers

  const WIN := 4096

  /** Where a search runs: parameters, public key, message and the first randomizer as an integer. */
  datatype Search = Search(P: Params, tw: Tweak, pkRoot: Node, message: Digest, R0: nat) {
    /** The batched field read covers the field: it lies inside the digest, and together with its bit
        offset inside the first byte it fits a 32-bit word. */
    predicate FieldReadable() {
      && P.k >= 1 && 1 <= P.a <= 31 && P.k * P.a <= 256
      && (P.k - 1) * P.a % 8 + P.a <= 32
    }
  }

  /** The randomizer of counter `t`: the low 128 bits of `R0 + t`. */
  function CounterR(s: Search, t: nat): Node {
    UintBE(s.R0 + t, 16)
  }

  function LastField(s: Search, digest: Digest): nat
    requires s.P.k >= 1
  {
    Field(BytesToNat(digest), s.P.a, s.P.k - 1)
  }

  predicate Hit(s: Search, t: nat)
    requires s.P.k >= 1
  {
    LastField(s, HMsg(s.P, s.tw, s.pkRoot, CounterR(s, t), s.message)) == 0
  }

  /** The smallest counter in `[start, start + count)` that hits. */
  function FirstHit(s: Search, start: nat, count: nat): (r: Option<nat>)
    requires s.P.k >= 1
    ensures r.None? ==> forall t :: start <= t < start + count ==> !Hit(s, t)
    ensures r.Some? ==> start <= r.value < start + count && Hit(s, r.value)
                        && forall t :: start <= t < r.value ==> !Hit(s, t)
    decreases count
  {
    if count == 0 then None
    else if Hit(s, start) then Some(start)
    else FirstHit(s, start + 1, count - 1)
  }

  method RgrindChunk(s: Search, start: nat, count: nat) returns (r: Option<nat>)
    requires s.P.k >= 1
    ensures r == FirstHit(s, start, count)
  {
    hide Hit;
    for t := start to start + count
      invariant FirstHit(s, start, count) == FirstHit(s, t, start + count - t)
    {
      if Hit(s, t) {
        return Some(t);
      }
    }
    r := None;
  }

  // ---------------------------------------------------------------- reading a field from a byte window

  lemma {:induction false} LowOfShr(x: nat, m: nat, n: nat)
    ensures Low(Shr(x, m), n) == Shr(Low(x, m + n), m)
  {
    if m != 0 { LowOfShr(x / 2, m - 1, n); }
  }

  lemma {:induction false} LowOfLow(x: nat, m: nat, n: nat)
    requires n <= m
    ensures Low(Low(x, m), n) == Low(x, n)
  {
    if n != 0 { LowOfLow(x / 2, m - 1, n - 1); }
  }

  lemma ByteShift(x: nat)
    ensures Shr(x, 8) == x / 256 && Low(x, 8) == x % 256 && Shl(x, 8) == 256 * x
  {
    ShrIsDiv(x, 8);
    ShlIsMul(x, 8);
    LowIsMod(x, 8);
    assert Pow2(8) == 16 * Pow2(4) && Pow2(4) == 16;
  }

  /** Shifting by whole bytes drops trailing bytes. */
  lemma {:induction false} ShrDropsBytes(b: Bytes, n: nat)
    requires n <= |b|
    ensures Shr(BytesToNat(b), 8 * n) == BytesToNat(b[..|b| - n])
  {
    if n == 0 {
      assert b[..|b|] == b;
    } else {
      ByteShift(BytesToNat(b));
      ShrAdd(BytesToNat(b), 8, 8 * (n - 1));
      ShrDropsBytes(b[..|b| - 1], n - 1);
      assert b[..|b| - 1][..|b| - n] == b[..|b| - n];
    }
  }

  /** Keeping the low bits of whole bytes keeps trailing bytes. */
  lemma {:induction false} LowKeepsBytes(b: Bytes, n: nat)
    requires n <= |b|
    ensures Low(BytesToNat(b), 8 * n) == BytesToNat(b[|b| - n..])
  {
    if n == 0 {
      assert b[|b|..] == [];
    } else {
      LowKeepsBytes(b[..|b| - 1], n - 1);
      LowByteStep(b, n);
    }
  }

  lemma LowByteStep(b: Bytes, n: nat)
    requires 0 < n <= |b|
    requires Low(BytesToNat(b[..|b| - 1]), 8 * (n - 1)) == BytesToNat(b[..|b| - 1][|b| - n..])
    ensures Low(BytesToNat(b), 8 * n) == BytesToNat(b[|b| - n..])
  {
    hide Low, Shr, Shl;
    var x, tail := BytesToNat(b), b[|b| - n..];
    LowSplit(x, 8, 8 * (n - 1));
    ByteShift(x);
    ByteShift(BytesToNat(tail[..n - 1]));
    assert tail[..n - 1] == b[..|b| - 1][|b| - n..];
  }

  /** The bytes `hi..lo` that cover bits `[bitLo, bitLo + a)` of a digest, most significant byte first. */
  function Window(digest: Digest, bitLo: nat, a: nat): Bytes
    requires a >= 1 && bitLo + a <= 256
  {
    digest[31 - (bitLo + a - 1) / 8..31 - bitLo / 8 + 1]
  }

  /** Shifting the covering bytes gives the same field as shifting the whole digest. */
  lemma WindowHoldsField(digest: Digest, bitLo: nat, a: nat)
    requires a >= 1 && bitLo + a <= 256
    ensures Low(Shr(BytesToNat(Window(digest, bitLo, a)), bitLo % 8), a) == Low(Shr(BytesToNat(digest), bitLo), a)
  {
    hide Low, Shr, BytesToNat;
    var drop, shift := bitLo / 8, bitLo % 8;
    var upper := digest[..32 - drop];
    var window := Window(digest, bitLo, a);
    var x, w := BytesToNat(upper), BytesToNat(window);
    ShrDropsBytes(digest, drop);
    ShrAdd(BytesToNat(digest), 8 * drop, shift);
    LowKeepsBytes(upper, |window|);
    assert upper[|upper| - |window|..] == window;
    assert 8 * |window| >= shift + a;
    LowOfLow(x, 8 * |window|, shift + a);
    LowOfShr(x, shift, a);
    LowOfShr(w, shift, a);
  }

  /** A window of at most four bytes fits the 32-bit word the loop accumulates it in. */
  lemma WindowFitsWord(digest: Digest, bitLo: nat, a: nat)
    requires a >= 1 && bitLo + a <= 256 && bitLo % 8 + a <= 32
    ensures |Window(digest, bitLo, a)| <= 4 && BytesToNat(Window(digest, bitLo, a)) < 0x1_0000_0000
  {
    var window := Window(digest, bitLo, a);
    BytesToNatBound(window);
    if |window| == 0 {
    } else if |window| == 1 {
      assert Pow256(1) == 256;
    } else if |window| == 2 {
      assert Pow256(2) == 256 * Pow256(1) == 256 * 256;
    } else if |window| == 3 {
      assert Pow256(3) == 256 * Pow256(2) == 256 * (256 * 256);
    } else {
      assert Pow256(4) == 256 * Pow256(3) == 256 * (256 * Pow256(2));
      assert Pow256(2) == 256 * 256;
    }
  }

  /** `(1 << a) - 1` as a 32-bit mask: the shift count is taken modulo 32. */
  function Mask(a: nat): nat {
    Pow2(a % 32) - 1
  }

  /** What a 32-bit word that the covering bytes were shifted into yields. */
  function WordRead(digest: Digest, bitLo: nat, a: nat): nat
    requires a >= 1 && bitLo + a <= 256
  {
    And(Shr(U32(BytesToNat(Window(digest, bitLo, a))), bitLo % 8), Mask(a))
  }

  function FieldAt(digest: Digest, bitLo: nat, a: nat): nat {
    Low(Shr(BytesToNat(digest), bitLo), a)
  }

  /** The read is right on every digest exactly when the mask is the field's and the field and its bit offset
      fit the word together. */
  lemma WordReadIsExactWhen(bitLo: nat, a: nat)
    requires a >= 1 && bitLo + a <= 256
    ensures (forall digest: Digest :: WordRead(digest, bitLo, a) == FieldAt(digest, bitLo, a))
            <==> a <= 31 && bitLo % 8 + a <= 32
  {
    hide WordRead, FieldAt;
    if a <= 31 && bitLo % 8 + a <= 32 {
      forall digest: Digest ensures WordRead(digest, bitLo, a) == FieldAt(digest, bitLo, a) {
        WordReadHoldsField(digest, bitLo, a);
      }
    } else {
      var digest := TopBitIsLost(bitLo, a);
    }
  }

  lemma WordReadHoldsField(digest: Digest, bitLo: nat, a: nat)
    requires 1 <= a <= 31 && bitLo + a <= 256 && bitLo % 8 + a <= 32
    ensures WordRead(digest, bitLo, a) == FieldAt(digest, bitLo, a)
  {
    hide And, Low, Shr, BytesToNat, Window;
    AndMask(Shr(U32(BytesToNat(Window(digest, bitLo, a))), bitLo % 8), a);
    WindowFitsWord(digest, bitLo, a);
    WindowHoldsField(digest, bitLo, a);
  }

  lemma {:induction false} ShrOfPow2(m: nat, n: nat)
    requires n <= m
    ensures Shr(Pow2(m), n) == Pow2(m - n)
  {
    if n > 0 { ShrOfPow2(m - 1, n - 1); }
  }

  lemma {:induction false} LowOfPow2(m: nat, n: nat)
    requires m < n
    ensures Low(Pow2(m), n) == Pow2(m)
  {
    if m > 0 {
      LowOfPow2(m - 1, n - 1);
    } else {
      LowOfZero(n - 1);
    }
  }

  lemma Pow2Of32()
    ensures Pow2(32) == 0x1_0000_0000
  {
    assert Pow2(8) == 16 * Pow2(4) && Pow2(4) == 16;
    Pow2Add(8, 8);
    Pow2Add(16, 16);
    hide Pow2;
    assert Pow2(16) == 256 * 256;
  }

  lemma WordOfHighBit(m: nat)
    requires m >= 32
    ensures U32(Pow2(m)) == 0
  {
    hide Pow2;
    Pow2Add(m - 32, 32);
    Pow2Of32();
    DivModUnique(Pow2(m), Pow2(m - 32), 0x1_0000_0000, 0);
  }

  lemma {:induction false} BytesArePow2(n: nat)
    ensures Pow256(n) == Pow2(8 * n)
  {
    if n > 0 {
      BytesArePow2(n - 1);
      Pow2Add(8, 8 * (n - 1));
      assert Pow2(8) == 16 * Pow2(4) && Pow2(4) == 16;
    }
  }

  lemma AndWithZero(x: nat)
    ensures And(0, x) == 0 && And(x, 0) == 0
  {
  }

  lemma MaskOf32()
    ensures Mask(32) == 0
  {
  }

  /** The digest in which bit `m` alone is set. */
  lemma OneBit(m: nat) returns (digest: Digest)
    requires m < 256
    ensures BytesToNat(digest) == Pow2(m)
  {
    hide Pow2, UintBE, BytesToNat, Pow256;
    BytesArePow2(32);
    Pow2Less(m, 256);
    digest := UintBE(Pow2(m), 32);
    UintRoundTrip(Pow2(m), 32);
  }

  lemma Pow2Less(m: nat, n: nat)
    requires m < n
    ensures Pow2(m) < Pow2(n)
  {
    Pow2Monotone(m + 1, n);
  }

  /** The covering bytes of a digest with one bit, as a number. */
  lemma WindowOfOneBit(digest: Digest, bitLo: nat, a: nat)
    requires a >= 1 && bitLo + a <= 256 && BytesToNat(digest) == Pow2(bitLo + a - 1)
    ensures BytesToNat(Window(digest, bitLo, a)) == Pow2(bitLo % 8 + a - 1)
  {
    hide Low, Shr, BytesToNat, Pow2;
    var drop, shift := bitLo / 8, bitLo % 8;
    var upper, window := digest[..32 - drop], Window(digest, bitLo, a);
    ShrDropsBytes(digest, drop);
    ShrOfPow2(bitLo + a - 1, 8 * drop);
    assert BytesToNat(upper) == Pow2(shift + a - 1);
    LowKeepsBytes(upper, |window|);
    assert upper[|upper| - |window|..] == window;
    LowOfPow2(shift + a - 1, 8 * |window|);
  }

  /** The digest with the field's top bit alone reads as zero when that bit lies beyond the word, or when the
      mask is empty. */
  lemma TopBitIsLost(bitLo: nat, a: nat) returns (digest: Digest)
    requires a >= 1 && bitLo + a <= 256 && (a >= 32 || bitLo % 8 + a > 32)
    ensures BytesToNat(digest) == Pow2(bitLo + a - 1)
    ensures WordRead(digest, bitLo, a) == 0 && FieldAt(digest, bitLo, a) == Pow2(a - 1) > 0
  {
    hide And, Low, Shr, BytesToNat, Pow2, Window;
    digest := OneBit(bitLo + a - 1);
    Pow2Monotone(0, a - 1);
    assert WordRead(digest, bitLo, a) == 0 by {
      if bitLo % 8 + a > 32 {
        WindowOfOneBit(digest, bitLo, a);
        WordOfHighBit(bitLo % 8 + a - 1);
        ShrZero(bitLo % 8);
        AndWithZero(Mask(a));
      } else {
        MaskOf32();
        AndWithZero(Shr(U32(BytesToNat(Window(digest, bitLo, a))), bitLo % 8));
      }
    }
    assert FieldAt(digest, bitLo, a) == Pow2(a - 1) by {
      ShrOfPow2(bitLo + a - 1, bitLo);
      LowOfPow2(a - 1, a);
    }
  }

  /** Accumulate the covering bytes in a 32-bit word, then shift and mask. */
  method ReadField(digest: Digest, bitLo: nat, a: nat) returns (field: nat)
    requires a >= 1 && bitLo + a <= 256
    ensures field == WordRead(digest, bitLo, a)
    ensures a <= 31 && bitLo % 8 + a <= 32 ==> field == FieldAt(digest, bitLo, a)
  {
    hide And, Low, Shr;
    var loByte, hiByte := 31 - bitLo / 8, 31 - (bitLo + a - 1) / 8;
    if a <= 31 && bitLo % 8 + a <= 32 { WordReadHoldsField(digest, bitLo, a); }
    var w := 0;
    ghost var window := Window(digest, bitLo, a);
    for b := hiByte to loByte + 1
      invariant w == U32(BytesToNat(window[..b - hiByte]))
    {
      var next := window[..b - hiByte + 1];
      assert next[..b - hiByte] == window[..b - hiByte] && next[b - hiByte] == digest[b];
      WordStep(BytesToNat(window[..b - hiByte]), digest[b]);
      w := U32(256 * w + digest[b]);
    }
    assert window[..loByte + 1 - hiByte] == window;
    field := And(Shr(w, bitLo % 8), Mask(a));
  }

  lemma WordStep(x: nat, byte: Byte)
    ensures U32(256 * U32(x) + byte) == U32(256 * x + byte)
  {
    assert x == 0x1_0000_0000 * (x / 0x1_0000_0000) + U32(x);
    assert 256 * x + byte == 0x1_0000_0000 * (256 * (x / 0x1_0000_0000)) + (256 * U32(x) + byte);
  }

  // ---------------------------------------------------------------- the batched search

  const HMSG_LEN := 160

  method PutHMsg(kernel: Kernel, ghost i: nat, off: nat, pkSeed: Node, pkRoot: Node, R: Node, message: Digest)
    requires kernel.Valid() && i < |kernel.slots| && kernel.msgLen == HMSG_LEN
    requires off == i * Stride(HMSG_LEN) && kernel.slots[i] == Partial([], HMSG_LEN)
    modifies kernel`slots, kernel.inBuf
    ensures kernel.Valid()
    ensures kernel.slots == old(kernel.slots)[i := Pad(HMsgInput(pkSeed, pkRoot, R, message))]
  {
    hide Partial, Stride, Pad;
    assert [] + pkSeed == pkSeed;
    kernel.Put(i, off, [], pkSeed);
    SkipZeros(pkSeed, 16, HMSG_LEN);
    var seed := Word16(pkSeed);
    kernel.Put(i, off + 32, seed, pkRoot);
    SkipZeros(seed + pkRoot, 16, HMSG_LEN);
    assert seed + pkRoot + Zeros(16) == seed + Word16(pkRoot);
    var root := seed + Word16(pkRoot);
    kernel.Put(i, off + 64, root, R);
    SkipZeros(root + R, 16, HMSG_LEN);
    assert root + R + Zeros(16) == root + Word16(R);
    kernel.Put(i, off + 96, root + Word16(R), message);
    kernel.Put(i, off + 128, root + Word16(R) + message, HmsgPad());
    PartialComplete(HMsgInput(pkSeed, pkRoot, R, message));
  }

  /** The uncompacted message layout. */
  function HMsgInput(pkSeed: Node, pkRoot: Node, R: Node, message: Digest): (r: Bytes)
    ensures |r| == HMSG_LEN
  {
    Word16(pkSeed) + Word16(pkRoot) + Word16(R) + message + HmsgPad()
  }

  function InputAt(s: Search, t: nat): (r: Bytes)
    ensures |r| == HMSG_LEN
  {
    HMsgInput(s.tw.pkSeed, s.pkRoot, CounterR(s, t), s.message)
  }

  method PutCounter(kernel: Kernel, ghost i: nat, off: nat, s: Search, t: nat)
    requires kernel.Valid() && i < |kernel.slots| && kernel.msgLen == HMSG_LEN
    requires off == i * Stride(HMSG_LEN) && kernel.slots[i] == Partial([], HMSG_LEN)
    modifies kernel`slots, kernel.inBuf
    ensures kernel.Valid()
    ensures kernel.slots == old(kernel.slots)[i := Pad(InputAt(s, t))]
  {
    hide Partial, Pad, Stride, CounterR, HMsgInput;
    PutHMsg(kernel, i, off, s.tw.pkSeed, s.pkRoot, CounterR(s, t), s.message);
  }

  /** The message of every counter of a window, each in its slot. */
  method PutWindow(kernel: Kernel, s: Search, w0: nat, wc: nat, stride: nat)
    requires kernel.Valid() && kernel.msgLen == HMSG_LEN && |kernel.slots| == wc && stride == Stride(HMSG_LEN)
    requires forall k :: 0 <= k < wc ==> kernel.slots[k] == Partial([], HMSG_LEN)
    modifies kernel`slots, kernel.inBuf
    ensures kernel.Valid() && |kernel.slots| == wc
    ensures forall k :: 0 <= k < wc ==> kernel.slots[k] == Pad(InputAt(s, w0 + k))
  {
    hide Partial, Pad, Stride, InputAt;
    var off := 0;
    for j := 0 to wc
      invariant kernel.Valid() && kernel.msgLen == HMSG_LEN && |kernel.slots| == wc && off == j * Stride(HMSG_LEN)
      invariant forall k :: 0 <= k < j ==> kernel.slots[k] == Pad(InputAt(s, w0 + k))
      invariant forall k :: j <= k < wc ==> kernel.slots[k] == Partial([], HMSG_LEN)
    {
      PutCounter(kernel, j, off, s, w0 + j);
      assert off + stride == (j + 1) * Stride(HMSG_LEN);
      off := off + stride;
    }
  }

  /** The digests of one window of counters. */
  method HashWindow(kernel: Kernel, s: Search, w0: nat, wc: nat)
    requires kernel.Valid() && kernel.capacity >= KERNEL_CAPACITY && 1 <= wc <= WIN
    requires s.tw.keccak == KeccakOf(kernel.sponge) && !s.P.compactHmsg
    modifies kernel, kernel.inBuf, kernel.outBuf
    ensures kernel.Valid() && |kernel.digests| == wc
    ensures forall j :: 0 <= j < wc ==>
              kernel.digests[j] == HMsg(s.P, s.tw, s.pkRoot, CounterR(s, w0 + j), s.message)
  {
    assert Stride(HMSG_LEN) == 272;
    hide Partial, Pad, Stride, CounterR, HMsg, InputAt;
    var begun := kernel.Begin(HMSG_LEN, wc);
    PutWindow(kernel, s, w0, wc, begun.value);
    RunBatch(kernel, seq(wc, j requires 0 <= j < wc => InputAt(s, w0 + j)));
    forall j | 0 <= j < wc
      ensures kernel.digests[j] == HMsg(s.P, s.tw, s.pkRoot, CounterR(s, w0 + j), s.message)
    {
      HMsgIsHashOfInput(s, w0 + j);
    }
  }

  lemma HMsgIsHashOfInput(s: Search, t: nat)
    requires !s.P.compactHmsg
    ensures HMsg(s.P, s.tw, s.pkRoot, CounterR(s, t), s.message) == s.tw.keccak(InputAt(s, t))
  {
  }

  lemma FieldByReading(s: Search, digest: Digest)
    requires s.FieldReadable()
    ensures (s.P.k - 1) * s.P.a + s.P.a <= 256
    ensures LastField(s, digest) == Low(Shr(BytesToNat(digest), (s.P.k - 1) * s.P.a), s.P.a)
  {
    hide And, Shr, Low;
    assert (s.P.k - 1) * s.P.a + s.P.a == s.P.k * s.P.a;
    AndMask(Shr(BytesToNat(digest), (s.P.k - 1) * s.P.a), s.P.a);
  }

  lemma FirstHitStep(s: Search, t: nat, n: nat)
    requires s.P.k >= 1 && n > 0
    ensures Hit(s, t) ==> FirstHit(s, t, n) == Some(t)
    ensures !Hit(s, t) ==> FirstHit(s, t, n) == FirstHit(s, t + 1, n - 1)
  {
    hide Hit;
  }

  method ReadLastField(s: Search, digest: Digest) returns (field: nat)
    requires s.FieldReadable()
    ensures field == LastField(s, digest)
  {
    hide LastField, Shr, Low, BytesToNat, WordRead;
    FieldByReading(s, digest);
    field := ReadField(digest, (s.P.k - 1) * s.P.a, s.P.a);
  }

  /** Check the digests of a window in ascending counter order. */
  method ScanWindow(kernel: Kernel, s: Search, w0: nat, wc: nat, ghost rest: nat) returns (r: Option<nat>)
    requires kernel.Valid() && |kernel.digests| == wc <= rest && s.P.k >= 1 && s.FieldReadable()
    requires forall j :: 0 <= j < wc ==> kernel.digests[j] == HMsg(s.P, s.tw, s.pkRoot, CounterR(s, w0 + j), s.message)
    ensures r.Some? ==> r == FirstHit(s, w0, rest)
    ensures r.None? ==> FirstHit(s, w0, rest) == FirstHit(s, w0 + wc, rest - wc)
  {
    hide HMsg, CounterR, LastField, FirstHit, Search.FieldReadable;
    for j := 0 to wc
      invariant FirstHit(s, w0, rest) == FirstHit(s, w0 + j, rest - j)
    {
      var digest := kernel.DigestAt(j);
      FirstHitStep(s, w0 + j, rest - j);
      var field := ReadLastField(s, digest);
      if field == 0 {
        return Some(w0 + j);
      }
    }
    r := None;
  }

  /** The windowed search returns the same smallest counter as the one-by-one search. */
  method RgrindChunkBatched(kernel: Kernel, s: Search, start: nat, count: nat) returns (r: Option<nat>)
    requires kernel.Valid() && kernel.capacity >= KERNEL_CAPACITY
    requires s.tw.keccak == KeccakOf(kernel.sponge) && !s.P.compactHmsg && s.FieldReadable()
    modifies kernel, kernel.inBuf, kernel.outBuf
    ensures kernel.Valid()
    ensures r == FirstHit(s, start, count)
  {
    hide HMsg, CounterR, Hit;
    var w0 := start;
    while w0 < start + count
      invariant start <= w0 <= start + count && kernel.Valid()
      invariant FirstHit(s, start, count) == FirstHit(s, w0, start + count - w0)
    {
      var wc := if start + count - w0 < WIN then start + count - w0 else WIN;
      HashWindow(kernel, s, w0, wc);
      r := ScanWindow(kernel, s, w0, wc, start + count - w0);
      if r.Some? {
        return;
      }
      w0 := w0 + wc;
    }
    r := None;
  }
}
