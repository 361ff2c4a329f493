/** The parameter sets of the signature scheme: sizes and offsets of the flat signature buffer. */
module Params {
  import opened Bits
  import opened Bytes

  const SPX_N := 16
  const SPX_W := 16
  const SPX_LOG_W := 4
  const SPX_L := 35

  datatype Params = Params(
    compactHmsg: bool,
    domainBytes: Bytes,
    h: nat, d: nat, subtreeH: nat, a: nat, k: nat, w: nat, logW: nat, l: nat,
    leavesPerSubtree: nat, forsLeaves: nat,
    forsOff: nat, forsPerTree: nat, htOff: nat,
    wotsSigLen: nat, htTreeAuthLen: nat, htLayerLen: nat, sigLen: nat
  ) {
    /** A standard-profile set: any tree heights, layer count and FORS tree count, with the Winternitz
        geometry the digit extraction is written for, and the layout that follows from them. */
    predicate Standard() {
      && d >= 1 && h == d * subtreeH
      && leavesPerSubtree == Pow2(subtreeH) && forsLeaves == Pow2(a)
      && w == SPX_W && logW == SPX_LOG_W && l == SPX_L
      && forsOff == SPX_N && forsPerTree == SPX_N * (1 + a) && htOff == forsOff + k * forsPerTree
      && wotsSigLen == l * SPX_N && htTreeAuthLen == subtreeH * SPX_N
      && htLayerLen == wotsSigLen + htTreeAuthLen && sigLen == htOff + d * htLayerLen
    }
  }

  /** The bytes of an ASCII string literal. */
  function Ascii(s: string): (r: Bytes)
    ensures |r| == |s|
  {
    seq(|s|, i requires 0 <= i < |s| => s[i] as int % 128)
  }

  const DOMAIN := "ledger_prepared_16_20"

  /** The one set this build ships. */
  const LEDGER := Params(
    compactHmsg := true, domainBytes := Ascii(DOMAIN),
    h := 20, d := 5, subtreeH := 4, a := 9, k := 19, w := 16, logW := 4, l := 35,
    leavesPerSubtree := 16, forsLeaves := 512,
    forsOff := 16, forsPerTree := 160, htOff := 3056,
    wotsSigLen := 560, htTreeAuthLen := 64, htLayerLen := 624, sigLen := 6176)

  /** The literal sizes of the shipped set are the ones its geometry requires. */
  lemma LedgerIsStandard()
    ensures LEDGER.Standard()
  {
    assert Pow2(4) == 16;
    assert Pow2(9) == 32 * Pow2(4);
  }

  lemma HeightCoversSubtree(P: Params)
    requires P.Standard()
    ensures P.h == (P.d - 1) * P.subtreeH + P.subtreeH && P.h >= P.subtreeH
  {
    assert (P.d - 1) * P.subtreeH >= 0;
  }
}
