/** Recursive Length Prefix encoding (Appendix B of the Ethereum Yellow Paper): the encoder, the canonical
    decoder, and that they are inverse to one another. */
module Rlp {
  import opened Bytes
  import opened Wrappers

  datatype Rlp = Str(bytes: Bytes) | List(items: seq<Rlp>)

  /** Lengths are 64-bit. */
  const LENGTH_LIMIT: nat := 0x1_0000_0000_0000_0000

  /** The big-endian bytes of a length, without leading zeros. */
  function MinimalBE(n: nat): Bytes {
    if n == 0 then [] else MinimalBE(n / 256) + [n % 256]
  }

  function Base(list: bool): Byte { if list then 0xC0 else 0x80 }

  /** The header of a payload of `n` bytes: one byte up to 55, else the length of the length, then the length. */
  function Header(list: bool, n: nat): (r: Bytes)
    ensures |r| >= 1
  {
    if n < 56 then [(Base(list) + n) % 256]
    else [(Base(list) + 55 + |MinimalBE(n)|) % 256] + MinimalBE(n)
  }

  function Encode(r: Rlp): (e: Bytes)
    ensures |e| >= 1
  {
    match r
    case Str(s) => if |s| == 1 && s[0] < 0x80 then s else Header(false, |s|) + s
    case List(items) => Header(true, |EncodeAll(items)|) + EncodeAll(items)
  }

  function EncodeAll(items: seq<Rlp>): Bytes {
    if |items| == 0 then [] else Encode(items[0]) + EncodeAll(items[1..])
  }

  // ---------------------------------------------------------------- decoding

  /** A payload of `length` bytes that begins `size` bytes in. */
  datatype Head = Head(list: bool, length: nat, size: nat)

  /** Read a header, refusing every form but the shortest and any payload that is cut off. */
  function DecodeHeader(b: Bytes): (r: Option<Head>)
    ensures r.Some? ==>
        r.value.size + r.value.length <= |b| && r.value.size + r.value.length >= 1 &&
        (r.value.list ==> r.value.size >= 1)
  {
    if |b| == 0 then None
    else if b[0] < 0x80 then Some(Head(false, 1, 0))
    else
      var list := b[0] >= 0xC0;
      var n := b[0] - Base(list);
      if n < 56 then
        if 1 + n > |b| || (!list && n == 1 && b[1] < 0x80) then None else Some(Head(list, n, 1))
      else
        var k := n - 55;
        if 1 + k > |b| || b[1] == 0 then None
        else
          var length := BytesToNat(b[1..1 + k]);
          if length < 56 || 1 + k + length > |b| then None else Some(Head(list, length, 1 + k))
  }

  /** The first item of a byte string, and how many bytes it takes. */
  function DecodeOne(b: Bytes): (r: Option<(Rlp, nat)>)
    ensures r.Some? ==> 1 <= r.value.1 <= |b|
    decreases |b|, 0
  {
    var h := DecodeHeader(b);
    if h.None? then None
    else
      var end := h.value.size + h.value.length;
      var payload := b[h.value.size..end];
      if !h.value.list then Some((Str(payload), end))
      else
        var items := DecodeAll(payload);
        if items.None? then None else Some((List(items.value), end))
  }

  /** A byte string as items laid side by side. */
  function DecodeAll(b: Bytes): Option<seq<Rlp>>
    decreases |b|, 1
  {
    if |b| == 0 then Some([])
    else
      var first := DecodeOne(b);
      if first.None? then None
      else
        var rest := DecodeAll(b[first.value.1..]);
        if rest.None? then None else Some([first.value.0] + rest.value)
  }

  // ---------------------------------------------------------------- lengths

  lemma {:induction false} MinimalBEValue(n: nat)
    ensures BytesToNat(MinimalBE(n)) == n
    ensures n > 0 ==> |MinimalBE(n)| >= 1 && MinimalBE(n)[0] != 0
  {
    if n > 0 {
      MinimalBEValue(n / 256);
      var b := MinimalBE(n);
      assert b[..|b| - 1] == MinimalBE(n / 256);
    }
  }

  lemma {:induction false} MinimalBELength(n: nat, k: nat)
    requires n < Pow256(k)
    ensures |MinimalBE(n)| <= k
  {
    if n > 0 { MinimalBELength(n / 256, k - 1); }
  }

  lemma LengthLimitIsEightBytes()
    ensures Pow256(8) == LENGTH_LIMIT
  {
    assert Pow256(4) == 0x1_0000_0000;
    assert Pow256(8) == 256 * (256 * (256 * (256 * Pow256(4))));
  }

  lemma {:induction false} MinimalBEIsUnique(b: Bytes)
    requires |b| > 0 ==> b[0] != 0
    ensures MinimalBE(BytesToNat(b)) == b
  {
    if |b| > 0 {
      var n := |b| - 1;
      MinimalBEIsUnique(b[..n]);
      assert b == b[..n] + [b[n]];
      if n > 0 { LeadingByteCounts(b[..n]); }
    }
  }

  lemma {:induction false} LeadingByteCounts(b: Bytes)
    requires |b| > 0 && b[0] != 0
    ensures BytesToNat(b) > 0
  {
    if |b| > 1 { LeadingByteCounts(b[..|b| - 1]); }
  }

  // ---------------------------------------------------------------- headers

  lemma HeaderRoundTrip(list: bool, n: nat, payload: Bytes, rest: Bytes)
    requires n == |payload| < LENGTH_LIMIT && (!list && n == 1 ==> payload[0] >= 0x80)
    ensures DecodeHeader(Header(list, n) + payload + rest) == Some(Head(list, n, |Header(list, n)|))
  {
    if n >= 56 {
      LongHeaderRoundTrip(list, n, payload + rest);
      assert Header(list, n) + payload + rest == Header(list, n) + (payload + rest);
    } else if n == 1 {
      assert (Header(list, n) + payload + rest)[1] == payload[0];
    }
  }

  lemma LongHeaderRoundTrip(list: bool, n: nat, tail: Bytes)
    requires 56 <= n < LENGTH_LIMIT && n <= |tail|
    ensures DecodeHeader(Header(list, n) + tail) == Some(Head(list, n, |Header(list, n)|))
  {
    hide DecodeHeader, Header, MinimalBE, BytesToNat, Pow256;
    LengthFits(n);
    LongHeader(list, n);
    DecodeLongHeader(list, n, MinimalBE(n), tail);
  }

  lemma LengthFits(n: nat)
    requires 0 < n < LENGTH_LIMIT
    ensures 1 <= |MinimalBE(n)| <= 8 && MinimalBE(n)[0] != 0 && BytesToNat(MinimalBE(n)) == n
  {
    hide MinimalBE, BytesToNat, Pow256;
    MinimalBEValue(n);
    LengthLimitIsEightBytes();
    MinimalBELength(n, 8);
  }

  lemma LongHeader(list: bool, n: nat)
    requires n >= 56 && |MinimalBE(n)| <= 8
    ensures Header(list, n) == [Base(list) + 55 + |MinimalBE(n)|] + MinimalBE(n)
  {
    hide MinimalBE;
  }

  lemma DecodeLongHeader(list: bool, n: nat, be: Bytes, tail: Bytes)
    requires 1 <= |be| <= 8 && be[0] != 0 && BytesToNat(be) == n && 56 <= n <= |tail|
    ensures DecodeHeader([Base(list) + 55 + |be|] + be + tail) == Some(Head(list, n, 1 + |be|))
  {
    hide BytesToNat;
    var k := |be|;
    var b := [Base(list) + 55 + k] + be + tail;
    assert b[0] >= 0x80 && (b[0] >= 0xC0 <==> list) && b[0] - Base(list) - 55 == k && |b| == 1 + k + |tail|;
    assert b[1] == be[0] != 0;
    var length := b[1..1 + k];
    assert length == be;
    assert BytesToNat(length) == n;
  }

  /** A header that is accepted is the one the encoder writes for that payload. */
  lemma HeaderIsCanonical(b: Bytes)
    requires DecodeHeader(b).Some? && DecodeHeader(b).value.size > 0 && |b| < LENGTH_LIMIT
    ensures var h := DecodeHeader(b).value; b[..h.size] == Header(h.list, h.length)
  {
    var h := DecodeHeader(b).value;
    hide BytesToNat, MinimalBE;
    if h.size > 1 {
      MinimalBEIsUnique(b[1..h.size]);
      assert b[..h.size] == [b[0]] + b[1..h.size];
    } else {
      assert b[..h.size] == [b[0]];
    }
  }

  // ---------------------------------------------------------------- round trips

  /** Decoding undoes encoding, whatever follows: no encoding is a prefix of another. */
  lemma {:induction false} DecodeUndoesEncode(r: Rlp, rest: Bytes)
    requires |Encode(r)| < LENGTH_LIMIT
    ensures DecodeOne(Encode(r) + rest) == Some((r, |Encode(r)|))
    decreases r, 1
  {
    match r
    case Str(s) =>
      if !(|s| == 1 && s[0] < 0x80) {
        HeaderRoundTrip(false, |s|, s, rest);
        var h := Header(false, |s|);
        assert (h + s + rest)[|h|..|h| + |s|] == s;
      } else {
        assert (s + rest)[0..1] == s;
      }
    case List(items) =>
      var payload := EncodeAll(items);
      HeaderRoundTrip(true, |payload|, payload, rest);
      var h := Header(true, |payload|);
      assert (h + payload + rest)[|h|..|h| + |payload|] == payload;
      DecodeUndoesEncodeAll(items);
  }

  lemma {:induction false} DecodeUndoesEncodeAll(items: seq<Rlp>)
    requires |EncodeAll(items)| < LENGTH_LIMIT
    ensures DecodeAll(EncodeAll(items)) == Some(items)
    decreases items, 0
  {
    if |items| > 0 {
      var first, rest := Encode(items[0]), EncodeAll(items[1..]);
      DecodeUndoesEncode(items[0], rest);
      DecodeUndoesEncodeAll(items[1..]);
      assert (first + rest)[|first|..] == rest;
      assert items == [items[0]] + items[1..];
    }
  }

  /** Encoding undoes decoding: only canonical byte strings are accepted. */
  lemma {:induction false} EncodeUndoesDecode(b: Bytes)
    requires |b| < LENGTH_LIMIT && DecodeOne(b).Some?
    ensures var (r, n) := DecodeOne(b).value; Encode(r) == b[..n]
    decreases |b|, 0
  {
    var h := DecodeHeader(b).value;
    var end := h.size + h.length;
    var payload := b[h.size..end];
    assert b[..end] == b[..h.size] + payload;
    if h.size > 0 { HeaderIsCanonical(b); }
    BareByte(b);
    hide DecodeHeader, Header;
    if h.list { EncodeUndoesDecodeAll(payload); }
  }

  /** A single small byte stands for itself, and nothing else does. */
  lemma BareByte(b: Bytes)
    requires DecodeHeader(b).Some?
    ensures var h := DecodeHeader(b).value;
            if h.size == 0 then !h.list && h.length == 1 && b[0] < 0x80
            else h.list || h.length != 1 || b[h.size] >= 0x80
  {
  }

  lemma {:induction false} EncodeUndoesDecodeAll(b: Bytes)
    requires |b| < LENGTH_LIMIT && DecodeAll(b).Some?
    ensures EncodeAll(DecodeAll(b).value) == b
    decreases |b|, 1
  {
    hide Encode, DecodeOne;
    if |b| > 0 {
      var (first, n) := DecodeOne(b).value;
      EncodeUndoesDecode(b);
      EncodeUndoesDecodeAll(b[n..]);
      var items := DecodeAll(b).value;
      assert items[1..] == DecodeAll(b[n..]).value;
      assert b == b[..n] + b[n..];
    }
  }

  /** The two sides of the limit of the short form. */
  lemma KnownHeaders()
    ensures Header(false, 55) == [0xB7] && Header(false, 56) == [0xB8, 56] && Header(false, 1024) == [0xB9, 4, 0]
    ensures Header(true, 55) == [0xF7] && Header(true, 56) == [0xF8, 56] && Header(true, 1024) == [0xF9, 4, 0]
  {
    assert MinimalBE(56) == [56];
    assert MinimalBE(1024 / 256) == [4] && MinimalBE(1024) == [4, 0];
  }

  /** Encodings that the standard gives as examples. */
  lemma KnownEncodings()
    ensures Encode(Str([])) == [0x80] && Encode(List([])) == [0xC0] && Encode(Str([0x0f])) == [0x0f]
    ensures Encode(Str([0x64, 0x6f, 0x67])) == [0x83, 0x64, 0x6f, 0x67]
    ensures Encode(List([Str([0x63, 0x61, 0x74]), Str([0x64, 0x6f, 0x67])]))
         == [0xC8, 0x83, 0x63, 0x61, 0x74, 0x83, 0x64, 0x6f, 0x67]
  {
    hide MinimalBE;
    var cat, dog := Str([0x63, 0x61, 0x74]), Str([0x64, 0x6f, 0x67]);
    assert [cat, dog][1..] == [dog] && [dog][1..] == [];
    assert EncodeAll([dog]) == [0x83, 0x64, 0x6f, 0x67];
    assert EncodeAll([cat, dog]) == [0x83, 0x63, 0x61, 0x74, 0x83, 0x64, 0x6f, 0x67];
  }
}
