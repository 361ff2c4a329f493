/** Byte strings and the fixed-width encodings the wallet builds its hash inputs from. */
module Bytes {
  import opened Bits

  type Byte = x: int | 0 <= x < 256
  type Bytes = seq<Byte>

  /** A 16-byte tree node (SPX_N bytes). */
  type Node = s: Bytes | |s| == 16 witness seq(16, _ => 0)

  /** A full keccak digest. */
  type Digest = s: Bytes | |s| == 32 witness seq(32, _ => 0)

  function Zeros(n: nat): (r: Bytes)
    ensures |r| == n && forall i :: 0 <= i < n ==> r[i] == 0
  {
    seq(n, _ => 0)
  }

  function TopN(d: Digest): Node { d[..16] }

  /** A 16-byte value in the top half of a 32-byte word. */
  function Word16(v: Node): (r: Bytes)
    ensures |r| == 32
  {
    v + Zeros(16)
  }

  /** The big-endian encoding of the low 32 bits. */
  function U32BE(x: int): (r: Bytes)
    ensures |r| == 4
  {
    var v := U32(x);
    [v / 0x100_0000, v / 0x1_0000 % 0x100, v / 0x100 % 0x100, v % 0x100]
  }

  /** The big-endian encoding of the low `8 * n` bits. */
  function UintBE(x: nat, n: nat): (r: Bytes)
    ensures |r| == n
  {
    if n == 0 then [] else UintBE(x / 256, n - 1) + [x % 256]
  }

  function BytesToNat(b: Bytes): nat {
    if |b| == 0 then 0 else 256 * BytesToNat(b[..|b| - 1]) + b[|b| - 1]
  }

  function Pow256(n: nat): (p: nat)
    ensures p >= 1
  {
    if n == 0 then 1 else 256 * Pow256(n - 1)
  }

  lemma {:induction false} BytesToNatBound(b: Bytes)
    ensures BytesToNat(b) < Pow256(|b|)
  {
    if |b| != 0 { BytesToNatBound(b[..|b| - 1]); }
  }

  lemma {:induction false} UintRoundTrip(x: nat, n: nat)
    requires x < Pow256(n)
    ensures BytesToNat(UintBE(x, n)) == x
  {
    if n != 0 {
      UintRoundTrip(x / 256, n - 1);
      assert UintBE(x, n)[..n - 1] == UintBE(x / 256, n - 1);
    }
  }

  lemma U32BEInjective(x: int, y: int)
    ensures U32BE(x) == U32BE(y) <==> U32(x) == U32(y)
  {
    U32BEValue(x);
    U32BEValue(y);
    if U32(x) == U32(y) { U32BEOfWord(x, y); }
    hide U32BE, U32;
  }

  lemma U32BEOfWord(x: int, y: int)
    requires U32(x) == U32(y)
    ensures U32BE(x) == U32BE(y)
  {
    hide U32;
  }

  lemma U32BEValue(x: int)
    ensures var b: seq<int> := U32BE(x); U32(x) == b[0] * 0x100_0000 + b[1] * 0x1_0000 + b[2] * 0x100 + b[3]
  {
    var v := U32(x);
    assert v / 0x1_0000 == v / 0x100_0000 * 0x100 + v / 0x1_0000 % 0x100;
    assert v / 0x100 == v / 0x1_0000 * 0x100 + v / 0x100 % 0x100;
  }

  /** Nodes packed side by side, 16 bytes each. */
  function Flat(ns: seq<Node>): (r: Bytes)
    ensures |r| == 16 * |ns|
  {
    if |ns| == 0 then [] else Flat(ns[..|ns| - 1]) + ns[|ns| - 1]
  }

  /** The node packed at position `i`. */
  function Unflat(b: Bytes, i: nat): Node
    requires 16 * i + 16 <= |b|
  {
    b[16 * i..16 * i + 16]
  }

  /** Nodes as 32-byte words, concatenated. */
  function Words(ns: seq<Node>): (r: Bytes)
    ensures |r| == 32 * |ns|
  {
    if |ns| == 0 then [] else Words(ns[..|ns| - 1]) + Word16(ns[|ns| - 1])
  }

  lemma {:induction false} FlatAt(ns: seq<Node>, i: nat)
    requires i < |ns|
    ensures Unflat(Flat(ns), i) == ns[i]
  {
    if i < |ns| - 1 {
      FlatAt(ns[..|ns| - 1], i);
      assert Flat(ns)[16 * i..16 * i + 16] == Flat(ns[..|ns| - 1])[16 * i..16 * i + 16];
    }
  }

  lemma {:induction false} FlatAppend(a: seq<Node>, b: seq<Node>)
    ensures Flat(a + b) == Flat(a) + Flat(b)
  {
    if |b| == 0 {
      assert a + b == a;
    } else {
      var b' := b[..|b| - 1];
      FlatAppend(a, b');
      assert (a + b)[..|a + b| - 1] == a + b';
      assert Flat(a) + Flat(b') + b[|b| - 1] == Flat(a) + (Flat(b') + b[|b| - 1]);
    }
  }

  lemma FlatNone()
    ensures Flat([]) == []
  {
  }

  lemma FlatPush(ns: seq<Node>, n: Node)
    ensures Flat(ns + [n]) == Flat(ns) + n
  {
    assert (ns + [n])[..|ns|] == ns;
  }

  lemma WordsNone()
    ensures Words([]) == []
  {
  }

  lemma WordsPush(ns: seq<Node>, n: Node)
    ensures Words(ns + [n]) == Words(ns) + Word16(n)
  {
    assert (ns + [n])[..|ns|] == ns;
  }

  /** `out.set(bytes, off)`: everything outside the written range keeps its value. */
  method SetBytes(out: array<Byte>, off: nat, bytes: Bytes)
    requires off + |bytes| <= out.Length
    modifies out
    ensures out[..off] == old(out[..off])
    ensures out[off..off + |bytes|] == bytes
    ensures out[off + |bytes|..] == old(out[off + |bytes|..])
    ensures out[..off + |bytes|] == old(out[..off]) + bytes
  {
    forall i | 0 <= i < |bytes| {
      out[off + i] := bytes[i];
    }
    assert out[..off + |bytes|] == out[..off] + out[off..off + |bytes|];
  }
}
