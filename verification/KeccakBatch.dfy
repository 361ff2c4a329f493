/** The batch hashing buffer: many equal-length messages written side by side into one static buffer
    whose padding is stamped in advance, then hashed in one kernel call.

    The kernel absorbs whole 136-byte blocks, so keccak-256 of a message is the kernel's sponge applied
    to the padded message; the sponge itself is a parameter. */
module KeccakBatch {
  import opened Bits
  import opened Bytes
  import opened Hashing
  import opened Wrappers

  const RATE := 136

  /** The input capacity both embedded kernels report: 32768 blocks. */
  const KERNEL_CAPACITY := 4456448

  /** Bytes each message occupies: whole blocks, at least one of them holding padding. */
  function Stride(msgLen: nat): (r: nat)
    ensures r > msgLen && r % RATE == 0 && r - msgLen <= RATE
  {
    (msgLen / RATE + 1) * RATE
  }

  /** Section 5.1 of FIPS 202 with the Ethereum domain bits: a one, zeros, and a final one bit, which
      share the single byte 0x81 when only one byte is left. */
  function Padding(msgLen: nat): (r: Bytes)
    ensures |r| == Stride(msgLen) - msgLen
  {
    var n := Stride(msgLen) - msgLen;
    if n == 1 then [0x81] else [0x01] + Zeros(n - 2) + [0x80]
  }

  function Pad(msg: Bytes): (r: Bytes)
    ensures |r| == Stride(|msg|)
  {
    msg + Padding(|msg|)
  }

  /** The padded message, byte by byte: the message, then 0x01, zeros and 0x80, or 0x81 when one byte is left, to the
      next whole number of 136-byte blocks. */
  lemma PaddedBytes(msg: Bytes)
    ensures var x := Pad(msg);
            && |x| % 136 == 0 && |msg| < |x| <= |msg| + 136 && x[..|msg|] == msg
            && (|x| == |msg| + 1 ==> x[|msg|] == 0x81)
            && (|x| > |msg| + 1 ==> x[|msg|] == 0x01 && x[|x| - 1] == 0x80)
            && forall i :: |msg| < i < |x| - 1 ==> x[i] == 0
  {
  }

  /** No two messages are padded to the same blocks. */
  lemma PadInjective(a: Bytes, b: Bytes)
    requires Pad(a) == Pad(b)
    ensures a == b
  {
    PaddedBytes(a);
    PaddedBytes(b);
    hide Pad;
    var x := Pad(a);
    assert |a| == |b|;
    assert a == x[..|a|] == x[..|b|] == b;
  }

  /** Keccak-256 in terms of the kernel's sponge. */
  function KeccakOf(sponge: Bytes -> Digest): Keccak {
    (msg: Bytes) => sponge(Pad(msg))
  }

  /** A slot of a batch of `msgLen`-byte messages into which `prefix` has been written so far. */
  function Partial(prefix: Bytes, msgLen: nat): Bytes
    requires |prefix| <= msgLen
  {
    prefix + Zeros(msgLen - |prefix|) + Padding(msgLen)
  }

  /** Fields that are zero need not be written: the slot already holds them. */
  lemma SkipZeros(prefix: Bytes, n: nat, msgLen: nat)
    requires |prefix| + n <= msgLen
    ensures Partial(prefix, msgLen) == Partial(prefix + Zeros(n), msgLen)
  {
    assert Zeros(msgLen - |prefix|) == Zeros(n) + Zeros(msgLen - |prefix| - n);
    assert prefix + (Zeros(n) + Zeros(msgLen - |prefix| - n)) == prefix + Zeros(n) + Zeros(msgLen - |prefix| - n);
  }

  /** A slot whose whole message has been written is the padded message. */
  lemma PartialComplete(msg: Bytes)
    ensures Partial(msg, |msg|) == Pad(msg)
  {
    assert msg + Zeros(0) == msg;
  }

  lemma SlotBounds(i: nat, k: nat, stride: nat, count: nat)
    requires i < count && k < count
    ensures i * stride + stride <= count * stride
    ensures k < i ==> k * stride + stride <= i * stride
    ensures i < k ==> i * stride + stride <= k * stride
  {
    MulMonotone(i, count, stride);
    MulMonotone(i + 1, count, stride);
    if k < i {
      MulMonotone(k, i, stride);
      MulMonotone(k + 1, i, stride);
    } else if i < k {
      MulMonotone(i, k, stride);
      MulMonotone(i + 1, k, stride);
    }
  }

  datatype Pending = Pending(blocks: nat, count: nat)

  class Kernel {
    const sponge: Bytes -> Digest
    const capacity: nat
    const inBuf: array<Byte>
    const outBuf: array<Byte>
    var pending: Pending
    ghost var msgLen: nat
    /** The bytes of each slot of the current batch. */
    ghost var slots: seq<Bytes>
    /** The digests of the last run. */
    ghost var digests: seq<Digest>

    ghost predicate Valid()
      reads this, inBuf, outBuf
    {
      && inBuf.Length == capacity && outBuf.Length == capacity / RATE * 32 && inBuf != outBuf
      && SlotsHold() && DigestsHold()
    }

    ghost predicate SlotsHold()
      reads this, inBuf
    {
      && |slots| == pending.count && pending.blocks * RATE == Stride(msgLen)
      && pending.count * Stride(msgLen) <= inBuf.Length
      && AllSlots(inBuf[..], slots, Stride(msgLen))
    }

    ghost predicate DigestsHold()
      reads this, outBuf
    {
      && 32 * |digests| <= outBuf.Length
      && forall i :: 0 <= i < |digests| ==> outBuf[32 * i..32 * i + 32] == digests[i]
    }

    constructor (sponge: Bytes -> Digest, capacity: nat)
      ensures Valid() && fresh(inBuf) && fresh(outBuf)
      ensures this.sponge == sponge && this.capacity == capacity
    {
      this.sponge := sponge;
      this.capacity := capacity;
      inBuf := new Byte[capacity](_ => 0);
      outBuf := new Byte[capacity / RATE * 32](_ => 0);
      pending := Pending(1, 0);
      msgLen := 0;
      slots := [];
      digests := [];
    }

    /** Prepare `count` messages of `len` bytes: zero the region and stamp the padding of every slot.
        A batch that is empty or does not fit is refused and changes nothing. */
    method Begin(len: nat, count: nat) returns (stride: Option<nat>)
      requires Valid()
      modifies this`pending, this`msgLen, this`slots, inBuf
      ensures Valid()
      ensures stride == if count < 1 || count * Stride(len) > capacity then None else Some(Stride(len))
      ensures stride.None? ==>
          inBuf[..] == old(inBuf[..]) && pending == old(pending) && slots == old(slots) && msgLen == old(msgLen)
      ensures stride.Some? ==>
                && msgLen == len && pending.count == count && |slots| == count
                && forall i :: 0 <= i < count ==> slots[i] == Partial([], len)
    {
      var width := Stride(len);
      if count < 1 || count * width > capacity {
        return None;
      }
      hide Partial, Stride, SlotHolds;
      forall x | 0 <= x < count * width {
        inBuf[x] := 0;
      }
      ghost var stamps := StampPadding(len, width, count);
      pending := Pending(width / RATE, count);
      msgLen := len;
      slots := stamps;
      stride := Some(width);
    }

    /** Stamp the first and the last padding byte of every slot of a zeroed region. */
    method StampPadding(len: nat, width: nat, count: nat) returns (ghost stamps: seq<Bytes>)
      requires width == Stride(len) && count * width <= inBuf.Length
      requires forall x :: 0 <= x < count * width ==> inBuf[x] == 0
      modifies inBuf
      ensures |stamps| == count && forall i :: 0 <= i < count ==> stamps[i] == Partial([], len)
      ensures AllSlots(inBuf[..], stamps, width)
    {
      hide Partial, Stride, SlotHolds, AllSlots;
      var base := 0;
      stamps := seq(count, _ => Zeros(width));
      ZeroSlots(inBuf[..], stamps, width);
      for i := 0 to count
        invariant base == i * width && |stamps| == count
        invariant forall k :: 0 <= k < i ==> stamps[k] == Partial([], len)
        invariant forall k :: i <= k < count ==> stamps[k] == Zeros(width)
        invariant AllSlots(inBuf[..], stamps, width)
      {
        SlotBounds(i, i, width, count);
        ghost var before := inBuf[..];
        SlotIs(before, stamps, width, i);
        StampIsByte(before, base, len);
        inBuf[base + len] := 0x01;
        inBuf[base + width - 1] := Or(inBuf[base + width - 1], 0x80);
        StampedSlot(before, inBuf[..], base, len);
        SlotWritten(before, inBuf[..], stamps, width, i, base, Partial([], len), base, base + width);
        stamps := stamps[i := Partial([], len)];
        MulMonotone(i, i + 1, width);
        base := base + width;
      }
    }

    /** Write the next field of slot `i` at byte offset `off` of the view. */
    method Put(ghost i: nat, off: nat, ghost prefix: Bytes, bytes: Bytes)
      requires Valid() && i < |slots| && |prefix| + |bytes| <= msgLen
      requires off == i * Stride(msgLen) + |prefix| && slots[i] == Partial(prefix, msgLen)
      modifies this`slots, inBuf
      ensures Valid()
      ensures slots == old(slots)[i := Partial(prefix + bytes, msgLen)]
    {
      hide Partial, Stride, SlotHolds;
      ghost var before, width := inBuf[..], Stride(msgLen);
      ghost var o, filled := i * width, Partial(prefix + bytes, msgLen);
      SlotBounds(i, i, width, pending.count);
      SlotIs(before, slots, width, i);
      SetBytes(inBuf, off, bytes);
      PartialGrows(before, inBuf[..], o, width, prefix, bytes, msgLen);
      SlotWritten(before, inBuf[..], slots, width, i, o, filled, off, off + |bytes|);
      slots := slots[i := filled];
    }

    /** Hash every slot of the current batch. */
    method Run()
      requires Valid()
      modifies this`digests, outBuf
      ensures Valid()
      ensures |digests| == |slots| && forall i :: 0 <= i < |slots| ==> digests[i] == sponge(slots[i])
    {
      hide Stride, SlotHolds;
      SlotCountFits(pending.count, pending.blocks, capacity);
      digests := [];
      var width := pending.blocks * RATE;
      for i := 0 to pending.count
        invariant Valid() && |digests| == i
        invariant forall k :: 0 <= k < i ==> digests[k] == sponge(slots[k])
      {
        SlotIs(inBuf[..], slots, width, i);
        var digest := sponge(inBuf[i * width..i * width + width]);
        SetBytes(outBuf, 32 * i, digest);
        digests := digests + [digest];
      }
    }

    /** Digest `i`, copied out. */
    method DigestAt(i: nat) returns (digest: Digest)
      requires Valid() && i < |digests|
      ensures digest == digests[i]
    {
      digest := outBuf[32 * i..32 * i + 32];
    }

    /** The leading 16 bytes of digest `i`, copied out. */
    method Top(i: nat) returns (node: Node)
      requires Valid() && i < |digests|
      ensures node == TopN(digests[i])
    {
      node := outBuf[32 * i..32 * i + 16];
    }

    /** The leading 16 bytes of every digest, copied out in order. */
    method Tops() returns (nodes: seq<Node>)
      requires Valid() && |digests| == pending.count
      ensures |nodes| == |digests| && forall i :: 0 <= i < |nodes| ==> nodes[i] == TopN(digests[i])
    {
      nodes := [];
      for i := 0 to pending.count
        invariant |nodes| == i
        invariant forall k :: 0 <= k < i ==> nodes[k] == TopN(digests[k])
      {
        var node := Top(i);
        nodes := nodes + [node];
      }
    }

    /** Write message `i` of a packed row into slot `i`, for all of them. */
    method Pack(flat: Bytes, len: nat, count: nat, stride: nat)
      requires Valid() && |flat| == count * len && msgLen == len && |slots| == count && stride == Stride(len)
      requires forall k :: 0 <= k < count ==> slots[k] == Partial([], len)
      modifies this`slots, inBuf
      ensures Valid() && |slots| == count
      ensures forall k :: 0 <= k < count ==> slots[k] == Pad(Piece(flat, len, k))
    {
      hide Partial, Stride, SlotHolds, Pad, Piece;
      for i := 0 to count
        invariant Valid() && msgLen == len && |slots| == count
        invariant forall k :: 0 <= k < i ==> slots[k] == Pad(Piece(flat, len, k))
        invariant forall k :: i <= k < count ==> slots[k] == Partial([], len)
      {
        PieceIs(flat, len, i, count);
        var msg := flat[i * len..(i + 1) * len];
        Put(i, i * stride, [], msg);
        assert [] + msg == msg;
        PartialComplete(msg);
      }
    }

    /** The one-shot form: `count` messages packed without gaps, hashed in one call. Every digest is the
        hash of its message alone. */
    method HashAll(flat: Bytes, len: nat, count: nat) returns (r: Option<seq<Digest>>)
      requires Valid() && |flat| == count * len
      modifies this, inBuf, outBuf
      ensures Valid()
      ensures r.None? <==> count < 1 || count * Stride(len) > capacity
      ensures r.Some? ==> |r.value| == count && forall i :: 0 <= i < count ==>
          r.value[i] == KeccakOf(sponge)(Piece(flat, len, i))
    {
      hide Partial, Stride, SlotHolds, Pad, Piece;
      var stride := Begin(len, count);
      if stride.None? { return None; }
      Pack(flat, len, count, stride.value);
      Run();
      var out: seq<Digest> := [];
      for i := 0 to count
        invariant out == digests[..i]
      {
        out := out + [outBuf[32 * i..32 * i + 32]];
      }
      r := Some(out);
    }
  }

  /** Message `i` of `len`-byte messages packed without gaps. */
  function Piece(flat: Bytes, len: nat, i: nat): Bytes {
    if i * len + len <= |flat| then flat[i * len..i * len + len] else []
  }

  lemma PieceIs(flat: Bytes, len: nat, i: nat, count: nat)
    requires i < count && |flat| == count * len
    ensures i * len <= (i + 1) * len <= |flat| && |Piece(flat, len, i)| == len
    ensures flat[i * len..(i + 1) * len] == Piece(flat, len, i)
  {
    SlotBounds(i, i, len, count);
    MulMonotone(i, i + 1, len);
  }

  ghost predicate SlotHolds(buf: Bytes, i: nat, stride: nat, slot: Bytes) {
    |slot| == stride && i * stride + stride <= |buf| && buf[i * stride..i * stride + stride] == slot
  }

  ghost predicate AllSlots(buf: Bytes, slots: seq<Bytes>, stride: nat) {
    forall i :: 0 <= i < |slots| ==> SlotHolds(buf, i, stride, slots[i])
  }

  lemma SlotIs(buf: Bytes, slots: seq<Bytes>, stride: nat, i: nat)
    requires AllSlots(buf, slots, stride) && i < |slots|
    ensures i * stride + stride <= |buf| && buf[i * stride..i * stride + stride] == slots[i]
  {
    assert SlotHolds(buf, i, stride, slots[i]);
  }

  lemma ZeroSlots(buf: Bytes, slots: seq<Bytes>, stride: nat)
    requires |slots| * stride <= |buf|
    requires forall x :: 0 <= x < |slots| * stride ==> buf[x] == 0
    requires forall i :: 0 <= i < |slots| ==> slots[i] == Zeros(stride)
    ensures AllSlots(buf, slots, stride)
  {
    forall i | 0 <= i < |slots| ensures SlotHolds(buf, i, stride, slots[i]) {
      SlotBounds(i, i, stride, |slots|);
    }
  }

  /** A slot outside the range that was written holds what it held. */
  lemma SlotUntouched(before: Bytes, after: Bytes, k: nat, stride: nat, slot: Bytes, lo: nat, hi: nat)
    requires |before| == |after| && lo <= hi <= |after|
    requires before[..lo] == after[..lo] && before[hi..] == after[hi..]
    requires k * stride + stride <= lo || hi <= k * stride
    requires SlotHolds(before, k, stride, slot)
    ensures SlotHolds(after, k, stride, slot)
  {
    var o := k * stride;
    forall x | o <= x < o + stride ensures after[x] == before[x] {
      if x < lo {
        assert after[x] == after[..lo][x];
      } else {
        assert after[x] == after[hi..][x - hi];
      }
    }
  }

  /** Writing inside slot `i`, which starts at `o`, replaces that slot and no other. */
  lemma SlotWritten(before: Bytes, after: Bytes, slots: seq<Bytes>, stride: nat, i: nat, o: nat, slot: Bytes, lo: nat,
      hi: nat)
    requires AllSlots(before, slots, stride) && i < |slots| && |before| == |after|
    requires o == i * stride && o <= lo <= hi <= o + stride <= |after|
    requires before[..lo] == after[..lo] && before[hi..] == after[hi..]
    requires |slot| == stride && after[o..o + stride] == slot
    ensures AllSlots(after, slots[i := slot], stride)
  {
    var updated := slots[i := slot];
    forall k | 0 <= k < |updated| ensures SlotHolds(after, k, stride, updated[k]) {
      if k != i {
        SlotBounds(i, k, stride, |slots|);
        SlotUntouched(before, after, k, stride, slots[k], lo, hi);
      }
    }
  }

  lemma StampIsByte(before: Bytes, o: nat, len: nat)
    requires o + Stride(len) <= |before| && before[o..o + Stride(len)] == Zeros(Stride(len))
    ensures Or(0x01, 0x80) == 0x81 && before[o + Stride(len) - 1] == 0
  {
    assert before[o..o + Stride(len)][Stride(len) - 1] == 0;
  }

  /** The two stamped bytes of a zeroed slot are its padding; they coincide when one byte is left. */
  lemma StampedSlot(before: Bytes, after: Bytes, o: nat, len: nat)
    requires |before| == |after| && o + Stride(len) <= |after|
    requires before[o..o + Stride(len)] == Zeros(Stride(len))
    requires var first := before[o + len := 0x01]; var last := o + Stride(len) - 1;
             after == first[last := Or(first[last], 0x80)]
    ensures after[o..o + Stride(len)] == Partial([], len)
    ensures before[..o] == after[..o] && before[o + Stride(len)..] == after[o + Stride(len)..]
  {
    var width := Stride(len);
    assert Or(0x01, 0x80) == 0x81;
    forall x | 0 <= x < width ensures after[o + x] == Partial([], len)[x] {
      assert before[o + x] == before[o..o + width][x];
    }
  }

  lemma PartialGrows(before: Bytes, after: Bytes, o: nat, stride: nat, prefix: Bytes, bytes: Bytes, msgLen: nat)
    requires |before| == |after| && stride == Stride(msgLen) && o + stride <= |after|
    requires |prefix| + |bytes| <= msgLen
    requires before[o..o + stride] == Partial(prefix, msgLen)
    requires after[..o + |prefix|] == before[..o + |prefix|]
    requires after[o + |prefix|..o + |prefix| + |bytes|] == bytes
    requires after[o + |prefix| + |bytes|..] == before[o + |prefix| + |bytes|..]
    ensures after[o..o + stride] == Partial(prefix + bytes, msgLen)
  {
    var p, q := o + |prefix|, o + |prefix| + |bytes|;
    forall x | o <= x < o + stride ensures after[x] == Partial(prefix + bytes, msgLen)[x - o] {
      if x < p {
        assert after[x] == after[..p][x] == before[o..o + stride][x - o];
      } else if x < q {
        assert after[x] == after[p..q][x - p];
      } else {
        assert after[x] == after[q..][x - q] == before[q..][x - q] == before[o..o + stride][x - o];
      }
    }
  }

  /** A batch that fits the input buffer has room for its digests. */
  lemma SlotCountFits(count: nat, blocks: nat, capacity: nat)
    requires blocks >= 1 && count * (blocks * RATE) <= capacity
    ensures count * 32 <= capacity / RATE * 32
  {
    MulMonotone(1, blocks, RATE);
    assert count * RATE <= count * (blocks * RATE) by {
      assert count * (blocks * RATE - RATE) >= 0;
    }
  }
}
