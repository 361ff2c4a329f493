/** The bytes that the aggregate execution block hash is taken of: the base header's fields, two empty optional
    fields, and the pair of proof and commitment, spliced into one list. */
module AggregateHeader {
  import opened Bytes
  import opened Rlp
  import opened Wrappers

  /** The items of the extended header. */
  function Extended(items: seq<Rlp>, proof: Bytes, commitment: Bytes): Rlp {
    List(items + [Str([]), Str([]), List([Str(proof), Str(commitment)])])
  }

  /** The bytes appended to the base header's fields. */
  function Suffix(proof: Bytes, commitment: Bytes): Bytes {
    [0x80, 0x80] + Encode(List([Str(proof), Str(commitment)]))
  }

  /** The base header check: a list header whose payload is all that follows. */
  predicate IsListHeader(legacy: Bytes) {
    var h := DecodeHeader(legacy);
    h.Some? && h.value.list && h.value.size + h.value.length == |legacy|
  }

  function Payload(legacy: Bytes): Bytes
    requires IsListHeader(legacy)
  {
    legacy[DecodeHeader(legacy).value.size..]
  }

  /** The list of the base header's fields and the suffix. */
  function Preimage(legacy: Bytes, proof: Bytes, commitment: Bytes): Bytes
    requires IsListHeader(legacy)
  {
    var fields := Payload(legacy) + Suffix(proof, commitment);
    Header(true, |fields|) + fields
  }

  /** The splice, as the hash function performs it; `None` is the decoding error. */
  method AggregatePreimage(legacy: Bytes, proof: Bytes, commitment: Bytes) returns (r: Option<Bytes>)
    ensures r.Some? <==> IsListHeader(legacy)
    ensures r.Some? ==> r.value == Preimage(legacy, proof, commitment)
  {
    hide DecodeHeader, Header;
    var prefix := DecodeHeader(legacy);
    if prefix.None? {
      return None;
    }
    var content := legacy[prefix.value.size..];
    if !prefix.value.list || prefix.value.length != |content| {
      return None;
    }
    PairEncoding(proof, commitment);
    var fields := content;
    fields := fields + [0x80, 0x80];
    fields := fields + Header(true, |Encode(Str(proof))| + |Encode(Str(commitment))|);
    fields := fields + Encode(Str(proof));
    fields := fields + Encode(Str(commitment));
    var output: Bytes := [];
    output := output + Header(true, |fields|);
    output := output + fields;
    assert fields == content + Suffix(proof, commitment);
    r := Some(output);
  }

  lemma PairEncoding(proof: Bytes, commitment: Bytes)
    ensures EncodeAll([Str(proof), Str(commitment)]) == Encode(Str(proof)) + Encode(Str(commitment))
  {
    var pair := [Str(proof), Str(commitment)];
    assert pair[1..] == [Str(commitment)] && pair[1..][1..] == [];
    assert EncodeAll(pair[1..]) == Encode(Str(commitment)) + EncodeAll(pair[1..][1..]);
  }

  lemma {:induction false} EncodeAllAppend(a: seq<Rlp>, b: seq<Rlp>)
    ensures EncodeAll(a + b) == EncodeAll(a) + EncodeAll(b)
  {
    hide Encode;
    if |a| == 0 {
      assert a + b == b;
    } else {
      EncodeAllAppend(a[1..], b);
      assert (a + b)[0] == a[0] && (a + b)[1..] == a[1..] + b;
      assert EncodeAll(a + b) == Encode(a[0]) + EncodeAll((a + b)[1..]);
    }
  }

  lemma SuffixIsThreeItems(proof: Bytes, commitment: Bytes)
    ensures EncodeAll([Str([]), Str([]), List([Str(proof), Str(commitment)])]) == Suffix(proof, commitment)
  {
    var last := List([Str(proof), Str(commitment)]);
    assert [Str([]), Str([]), last][1..] == [Str([]), last] && [Str([]), last][1..] == [last] && [last][1..] == [];
    hide Encode;
    EmptyString();
    assert EncodeAll([last]) == Encode(last) + EncodeAll([]);
    assert EncodeAll([Str([]), last]) == [0x80] + Encode(last);
    assert [0x80] + ([0x80] + Encode(last)) == [0x80, 0x80] + Encode(last);
  }

  lemma EmptyString()
    ensures Encode(Str([])) == [0x80]
  {
  }

  /** For a base header that is the encoding of a list, the spliced bytes are the encoding of the extended
      list, so they decode to the base items, two empty strings and the pair. */
  lemma PreimageIsExtendedHeader(items: seq<Rlp>, proof: Bytes, commitment: Bytes)
    requires |Encode(Extended(items, proof, commitment))| < LENGTH_LIMIT
    ensures var legacy := Encode(List(items));
            && IsListHeader(legacy) && Payload(legacy) == EncodeAll(items)
            && var output := Preimage(legacy, proof, commitment);
               output == Encode(Extended(items, proof, commitment))
               && DecodeOne(output) == Some((Extended(items, proof, commitment), |output|))
  {
    var all := items + [Str([]), Str([]), List([Str(proof), Str(commitment)])];
    EncodeAllAppend(items, [Str([]), Str([]), List([Str(proof), Str(commitment)])]);
    SuffixIsThreeItems(proof, commitment);
    hide Suffix, DecodeOne, DecodeHeader, EncodeAll;
    var content := EncodeAll(items);
    HeaderRoundTrip(true, |content|, content, []);
    assert Header(true, |content|) + content + [] == Encode(List(items));
    DecodeUndoesEncode(Extended(items, proof, commitment), []);
    assert Encode(Extended(items, proof, commitment)) + [] == Encode(Extended(items, proof, commitment));
  }

  /** Item by item: the base header's fields come first, two empty strings follow, and the last item holds the proof and
      then the commitment. */
  lemma SplicedItems(items: seq<Rlp>, proof: Bytes, commitment: Bytes)
    requires |Encode(Extended(items, proof, commitment))| < LENGTH_LIMIT
    ensures IsListHeader(Encode(List(items)))
    ensures var r := DecodeOne(Preimage(Encode(List(items)), proof, commitment));
            && r.Some? && r.value.0.List? && |r.value.0.items| == |items| + 3
            && var all := r.value.0.items;
               && all[..|items|] == items && all[|items|] == Str([]) && all[|items| + 1] == Str([])
               && all[|items| + 2] == List([Str(proof), Str(commitment)])
  {
    PreimageIsExtendedHeader(items, proof, commitment);
    hide Encode, DecodeOne, Preimage, IsListHeader;
  }

  /** Distinct triples of items, proof and commitment have distinct preimages. */
  lemma PreimagesAreDistinct(items: seq<Rlp>, proof: Bytes, commitment: Bytes,
                             items': seq<Rlp>, proof': Bytes, commitment': Bytes)
    requires |Encode(Extended(items, proof, commitment))| < LENGTH_LIMIT
    requires Encode(Extended(items, proof, commitment)) == Encode(Extended(items', proof', commitment'))
    ensures items == items' && proof == proof' && commitment == commitment'
  {
    PreimageIsExtendedHeader(items, proof, commitment);
    PreimageIsExtendedHeader(items', proof', commitment');
    hide Encode, DecodeOne;
    var n := |items|;
    var all := items + [Str([]), Str([]), List([Str(proof), Str(commitment)])];
    var all' := items' + [Str([]), Str([]), List([Str(proof'), Str(commitment')])];
    assert all == all';
    assert items == all[..n] && items' == all'[..n];
    assert all[n + 2] == all'[n + 2];
    var pair, pair' := [Str(proof), Str(commitment)], [Str(proof'), Str(commitment')];
    assert pair == pair';
    assert pair[0] == pair'[0] && pair[1] == pair'[1];
  }

  /** A list header that passes the check is the canonical one for its payload. */
  lemma LegacyIsCanonical(legacy: Bytes)
    requires IsListHeader(legacy) && |legacy| < LENGTH_LIMIT
    ensures legacy == Header(true, |Payload(legacy)|) + Payload(legacy)
  {
    HeaderIsCanonical(legacy);
    var h := DecodeHeader(legacy).value;
    assert legacy == legacy[..h.size] + legacy[h.size..];
  }

  /** A base header whose payload is a row of items is the encoding of their list. */
  lemma LegacyIsList(legacy: Bytes)
    requires IsListHeader(legacy) && |legacy| < LENGTH_LIMIT && DecodeAll(Payload(legacy)).Some?
    ensures legacy == Encode(List(DecodeAll(Payload(legacy)).value))
  {
    LegacyIsCanonical(legacy);
    EncodeUndoesDecodeAll(Payload(legacy));
  }

  /** Of all base headers that pass the check, those whose payload is a row of items are exactly the ones for
      which the preimage decodes to some items, two empty strings and this proof and commitment. */
  lemma PreimageDecodesExactlyWhen(legacy: Bytes, proof: Bytes, commitment: Bytes)
    requires IsListHeader(legacy) && |legacy| < LENGTH_LIMIT && |Preimage(legacy, proof, commitment)| < LENGTH_LIMIT
    ensures var output := Preimage(legacy, proof, commitment);
            (exists items: seq<Rlp> :: DecodeOne(output) == Some((Extended(items, proof, commitment), |output|)))
            <==> DecodeAll(Payload(legacy)).Some?
  {
    hide Preimage, Encode, EncodeAll, DecodeOne, DecodeAll, DecodeHeader, IsListHeader, Payload, Extended;
    var output := Preimage(legacy, proof, commitment);
    if DecodeAll(Payload(legacy)).Some? {
      var items := DecodeAll(Payload(legacy)).value;
      LegacyIsList(legacy);
      PreimageOfList(legacy, proof, commitment);
      PreimageIsExtendedHeader(items, proof, commitment);
      assert DecodeOne(output) == Some((Extended(items, proof, commitment), |output|));
    }
    forall items: seq<Rlp> | DecodeOne(output) == Some((Extended(items, proof, commitment), |output|))
      ensures DecodeAll(Payload(legacy)).Some?
    {
      PayloadOfDecoded(legacy, items, proof, commitment);
    }
  }

  lemma ListPreimageLength(items: seq<Rlp>, proof: Bytes, commitment: Bytes)
    requires IsListHeader(Encode(List(items))) && Payload(Encode(List(items))) == EncodeAll(items)
    ensures Preimage(Encode(List(items)), proof, commitment) == Encode(Extended(items, proof, commitment))
  {
    EncodeAllAppend(items, [Str([]), Str([]), List([Str(proof), Str(commitment)])]);
    SuffixIsThreeItems(proof, commitment);
    hide Suffix, DecodeHeader, EncodeAll, IsListHeader, Payload;
  }

  lemma PayloadOfDecoded(legacy: Bytes, items: seq<Rlp>, proof: Bytes, commitment: Bytes)
    requires IsListHeader(legacy) && |Preimage(legacy, proof, commitment)| < LENGTH_LIMIT
    requires var output := Preimage(legacy, proof, commitment);
             DecodeOne(output) == Some((Extended(items, proof, commitment), |output|))
    ensures DecodeAll(Payload(legacy)) == Some(items)
  {
    var output := Preimage(legacy, proof, commitment);
    EncodeUndoesDecode(output);
    assert output[..|output|] == output;
    EncodeAllAppend(items, [Str([]), Str([]), List([Str(proof), Str(commitment)])]);
    SuffixIsThreeItems(proof, commitment);
    hide DecodeOne, DecodeHeader, EncodeAll, Suffix, IsListHeader;
    var fields, content := Payload(legacy) + Suffix(proof, commitment), EncodeAll(items) + Suffix(proof, commitment);
    SamePayload(fields, content);
    assert Payload(legacy) == fields[..|fields| - |Suffix(proof, commitment)|];
    assert EncodeAll(items) == content[..|content| - |Suffix(proof, commitment)|];
    DecodeUndoesEncodeAll(items);
  }

  /** Two payloads under their headers agree only when they are the same. */
  lemma SamePayload(a: Bytes, b: Bytes)
    requires Header(true, |a|) + a == Header(true, |b|) + b && |a| < LENGTH_LIMIT && |b| < LENGTH_LIMIT
    ensures a == b
  {
    HeaderRoundTrip(true, |a|, a, []);
    HeaderRoundTrip(true, |b|, b, []);
    var x, y := Header(true, |a|) + a, Header(true, |b|) + b;
    hide DecodeHeader, Header;
    assert x + [] == x && y + [] == y;
    assert a == x[|Header(true, |a|)|..] && b == y[|Header(true, |b|)|..];
  }

  /** Among base headers that are lists of items, the preimage determines the header, the proof and the
      commitment. */
  lemma PreimageDeterminesInputs(legacy: Bytes, proof: Bytes, commitment: Bytes,
                                 legacy': Bytes, proof': Bytes, commitment': Bytes)
    requires IsListHeader(legacy) && |legacy| < LENGTH_LIMIT && DecodeAll(Payload(legacy)).Some?
    requires IsListHeader(legacy') && |legacy'| < LENGTH_LIMIT && DecodeAll(Payload(legacy')).Some?
    requires |Preimage(legacy, proof, commitment)| < LENGTH_LIMIT
    requires Preimage(legacy, proof, commitment) == Preimage(legacy', proof', commitment')
    ensures legacy == legacy' && proof == proof' && commitment == commitment'
  {
    LegacyIsList(legacy);
    LegacyIsList(legacy');
    var items, items' := DecodeAll(Payload(legacy)).value, DecodeAll(Payload(legacy')).value;
    hide Preimage, Encode, DecodeAll, IsListHeader, Payload;
    PreimageOfList(legacy, proof, commitment);
    PreimageOfList(legacy', proof', commitment');
    PreimagesAreDistinct(items, proof, commitment, items', proof', commitment');
  }

  lemma PreimageOfList(legacy: Bytes, proof: Bytes, commitment: Bytes)
    requires IsListHeader(legacy) && |legacy| < LENGTH_LIMIT && DecodeAll(Payload(legacy)).Some?
    ensures Preimage(legacy, proof, commitment) == Encode(Extended(DecodeAll(Payload(legacy)).value, proof, commitment))
  {
    LegacyIsList(legacy);
    EncodeUndoesDecodeAll(Payload(legacy));
    ListPreimageLength(DecodeAll(Payload(legacy)).value, proof, commitment);
  }

  /** Why a row of items: these two payloads pass the header check, but the first is cut off inside a list, and
      they share a preimage. (The encoder of base headers writes neither.) */
  lemma CutOffPayloadIsAmbiguous(commitment: Bytes)
    requires |commitment| == 32
    ensures var a, b: Bytes := [0xC0], [0xC4, 0x80, 0x80, 0xE6, 0x84];
            && IsListHeader(a) && IsListHeader(b) && DecodeAll(Payload(a)).Some? && DecodeAll(Payload(b)).None?
            && Preimage(a, [0x80, 0x80, 0xE2, 0x80], commitment) == Preimage(b, [], commitment)
  {
    var proof: Bytes := [0x80, 0x80, 0xE2, 0x80];
    EmptyListDecodes();
    CutOffListDoesNotDecode();
    hide DecodeOne, DecodeAll, Header;
    ShortSuffixes(commitment);
    assert [0x80, 0x80, 0xE6, 0x84] + Suffix([], commitment) == Suffix(proof, commitment);
    assert [] + Suffix(proof, commitment) == Suffix(proof, commitment);
  }

  lemma EmptyListDecodes()
    ensures var a: Bytes := [0xC0]; IsListHeader(a) && Payload(a) == [] && DecodeAll(Payload(a)) == Some([])
  {
    var a: Bytes := [0xC0];
    assert a[1..1] == [];
  }

  lemma CutOffListDoesNotDecode()
    ensures var b: Bytes := [0xC4, 0x80, 0x80, 0xE6, 0x84];
            IsListHeader(b) && Payload(b) == [0x80, 0x80, 0xE6, 0x84] && DecodeAll(Payload(b)).None?
  {
    var b, p1, p2, p3: Bytes :=
        [0xC4, 0x80, 0x80, 0xE6, 0x84], [0x80, 0x80, 0xE6, 0x84], [0x80, 0xE6, 0x84], [0xE6, 0x84];
    assert b[1..5] == p1 && p1[1..] == p2 && p2[1..] == p3;
    assert DecodeAll(p3).None?;
    assert DecodeAll(p2).None?;
    assert DecodeAll(p1).None?;
  }

  lemma ShortSuffixes(commitment: Bytes)
    requires |commitment| == 32
    ensures Suffix([], commitment) == [0x80, 0x80, 0xE2, 0x80, 0xA0] + commitment
    ensures Suffix([0x80, 0x80, 0xE2, 0x80], commitment) ==
        [0x80, 0x80, 0xE6, 0x84, 0x80, 0x80, 0xE2, 0x80, 0xA0] + commitment
  {
    ShortSuffix([], commitment);
    ShortSuffix([0x80, 0x80, 0xE2, 0x80], commitment);
  }

  lemma ShortSuffix(proof: Bytes, commitment: Bytes)
    requires |commitment| == 32 && |proof| < 20 && |proof| != 1
    ensures Suffix(proof, commitment) == [0x80, 0x80, 0xC0 + 34 + |proof|, 0x80 + |proof|] + proof + [0xA0] + commitment
  {
    PairEncoding(proof, commitment);
    hide EncodeAll;
    assert Encode(Str(commitment)) == [0xA0] + commitment;
    assert Encode(Str(proof)) == [0x80 + |proof|] + proof;
  }
}
