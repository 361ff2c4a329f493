/** Non-negative integers seen bit by bit: the shifts, masks and bitwise operators that the signer
    uses on indices, with the lemmas that turn them into ordinary arithmetic. */
module Bits {

  function Pow2(n: nat): (p: nat)
    ensures p >= 1
  {
    if n == 0 then 1 else 2 * Pow2(n - 1)
  }

  /** `x << n` on an unbounded integer. */
  function Shl(x: nat, n: nat): nat {
    if n == 0 then x else 2 * Shl(x, n - 1)
  }

  /** `x >> n` on a non-negative integer. */
  function Shr(x: nat, n: nat): nat {
    if n == 0 then x else Shr(x / 2, n - 1)
  }

  function And(x: nat, y: nat): nat {
    if x == 0 || y == 0 then 0 else (if x % 2 == 1 && y % 2 == 1 then 1 else 0) + 2 * And(x / 2, y / 2)
  }

  function Or(x: nat, y: nat): nat
    decreases x + y
  {
    if x == 0 then y else if y == 0 then x
    else (if x % 2 == 1 || y % 2 == 1 then 1 else 0) + 2 * Or(x / 2, y / 2)
  }

  function Xor(x: nat, y: nat): nat
    decreases x + y
  {
    if x == 0 then y else if y == 0 then x
    else (if x % 2 != y % 2 then 1 else 0) + 2 * Xor(x / 2, y / 2)
  }

  /** The value of the low `n` bits. */
  function Low(x: nat, n: nat): (r: nat)
    ensures r < Pow2(n)
  {
    if n == 0 then 0 else x % 2 + 2 * Low(x / 2, n - 1)
  }

  /** The truncation to an unsigned 32-bit word, `x >>> 0`. */
  function U32(x: int): (r: nat)
    ensures r < 0x1_0000_0000
  {
    x % 0x1_0000_0000
  }

  lemma {:induction false} ShlIsMul(x: nat, n: nat)
    ensures Shl(x, n) == x * Pow2(n)
  {
    if n != 0 { ShlIsMul(x, n - 1); }
  }

  /** A block number below `2^t` shifted by `n`, plus an offset inside the block, stays below `2^(n+t)`. */
  lemma {:induction false} ShlBound(x: nat, n: nat, t: nat)
    requires x < Pow2(t)
    ensures Shl(x, n) + Pow2(n) <= Pow2(n + t)
  {
    if n != 0 { ShlBound(x, n - 1, t); }
  }

  lemma {:induction false} Pow2Add(m: nat, n: nat)
    ensures Pow2(m + n) == Pow2(m) * Pow2(n)
  {
    if m != 0 { Pow2Add(m - 1, n); }
  }

  lemma {:induction false} Pow2Monotone(m: nat, n: nat)
    requires m <= n
    ensures Pow2(m) <= Pow2(n)
    decreases n
  {
    if m < n { Pow2Monotone(m, n - 1); }
  }

  lemma {:induction false} ShrZero(n: nat)
    ensures Shr(0, n) == 0
  {
    if n != 0 { ShrZero(n - 1); }
  }

  lemma Pow2Even(n: nat)
    requires n > 0
    ensures Pow2(n) == 2 * Pow2(n - 1) && Pow2(n) % 2 == 0
  {
    var half := Pow2(n - 1);
    assert Pow2(n) == 2 * half;
  }

  lemma ShlEven(x: nat, n: nat)
    requires n > 0
    ensures Shl(x, n) == 2 * Shl(x, n - 1) && Shl(x, n) / 2 == Shl(x, n - 1)
  {
  }

  lemma ShrNone(x: nat)
    ensures Shr(x, 0) == x
  {
  }

  lemma ShrSucc(x: nat, n: nat)
    ensures Shr(x, n + 1) == Shr(x, n) / 2
  {
    ShrAdd(x, n, 1);
  }

  lemma {:induction false} ShrAdd(x: nat, m: nat, n: nat)
    ensures Shr(Shr(x, m), n) == Shr(x, m + n)
  {
    if m != 0 { ShrAdd(x / 2, m - 1, n); }
  }

  lemma {:induction false} ShrBound(x: nat, m: nat, n: nat)
    requires x < Pow2(m + n)
    ensures Shr(x, m) < Pow2(n)
  {
    if m != 0 { ShrBound(x / 2, m - 1, n); }
  }

  /** Splitting a number into the part above bit `n` and the part below it loses nothing. */
  lemma {:induction false} ShrLow(x: nat, n: nat)
    ensures Shl(Shr(x, n), n) + Low(x, n) == x
  {
    if n != 0 {
      ShrLow(x / 2, n - 1);
      assert Shl(Shr(x, n), n) == 2 * Shl(Shr(x / 2, n - 1), n - 1);
    }
  }

  lemma {:induction false} ShrShl(x: nat, n: nat, j: nat)
    requires j < Pow2(n)
    ensures Shr(Shl(x, n) + j, n) == x
    ensures Low(Shl(x, n) + j, n) == j
  {
    if n != 0 {
      ShrShl(x, n - 1, j / 2);
      assert (Shl(x, n) + j) / 2 == Shl(x, n - 1) + j / 2;
      assert (Shl(x, n) + j) % 2 == j % 2;
    }
  }

  lemma AndOdd(x: nat, m: nat)
    ensures And(x, 2 * m + 1) == x % 2 + 2 * And(x / 2, m)
  {
  }

  lemma {:induction false} LowOfZero(n: nat)
    ensures Low(0, n) == 0
  {
    if n > 0 { LowOfZero(n - 1); }
  }

  /** The low `m + n` bits are the low `m` bits and the next `n`. */
  lemma {:induction false} LowSplit(x: nat, m: nat, n: nat)
    ensures Low(x, m + n) == Low(x, m) + Shl(Low(Shr(x, m), n), m)
  {
    if m != 0 { LowSplit(x / 2, m - 1, n); }
  }

  /** `x & (2^n - 1)` keeps the low `n` bits. */
  lemma {:induction false} AndMask(x: nat, n: nat)
    ensures And(x, Pow2(n) - 1) == Low(x, n)
  {
    if n == 0 {
    } else {
      AndOdd(x, Pow2(n - 1) - 1);
      AndMask(x / 2, n - 1);
    }
  }

  lemma {:induction false} LowIsMod(x: nat, n: nat)
    ensures Low(x, n) == x % Pow2(n)
  {
    ShrLow(x, n);
    ShlIsMul(Shr(x, n), n);
    var q, p, r := Shr(x, n), Pow2(n), Low(x, n);
    assert x == q * p + r && 0 <= r < p;
    DivModUnique(x, q, p, r);
  }

  lemma MulMonotone(m: nat, n: nat, c: nat)
    requires m <= n
    ensures m * c <= n * c
    ensures m < n ==> (m + 1) * c == m * c + c
  {
    assert (n - m) * c >= 0;
  }

  lemma MulAtLeast(d: int, p: int)
    requires p > 0
    ensures d >= 1 ==> d * p >= p
    ensures d <= -1 ==> d * p <= -p
  {
    if d >= 1 {
      assert (d - 1) * p >= 0;
    } else if d <= -1 {
      assert (-d - 1) * p >= 0;
    }
  }

  lemma DivModUnique(x: int, q: int, p: int, r: int)
    requires p > 0 && x == q * p + r && 0 <= r < p
    ensures x / p == q && x % p == r
  {
    var q', r' := x / p, x % p;
    assert (q - q') * p == q * p - q' * p == r' - r;
    MulAtLeast(q - q', p);
  }

  lemma {:induction false} ShrIsDiv(x: nat, n: nat)
    ensures Shr(x, n) == x / Pow2(n)
  {
    ShrLow(x, n);
    ShlIsMul(Shr(x, n), n);
    DivModUnique(x, Shr(x, n), Pow2(n), Low(x, n));
  }

  /** `(x << n) | j` is `x * 2^n + j` when `j` fits below the shift. */
  lemma {:induction false} OrShl(x: nat, n: nat, j: nat)
    requires j < Pow2(n)
    ensures Or(Shl(x, n), j) == x * Pow2(n) + j
  {
    OrShlAdd(x, n, j);
    ShlIsMul(x, n);
  }

  lemma {:induction false} OrShlAdd(x: nat, n: nat, j: nat)
    requires j < Pow2(n)
    ensures Or(Shl(x, n), j) == Shl(x, n) + j
  {
    if n != 0 && j != 0 && Shl(x, n) != 0 {
      OrShlAdd(x, n - 1, j / 2);
      assert Shl(x, n) % 2 == 0 && Shl(x, n) / 2 == Shl(x, n - 1);
    }
  }

  /** The index of the other child of the same parent. */
  function Sibling(x: nat): nat {
    if x % 2 == 0 then x + 1 else x - 1
  }

  /** `idx ^ 1` is the sibling index. */
  lemma XorOne(x: nat)
    ensures Xor(x, 1) == Sibling(x)
  {
    if x != 0 {
      assert Xor(x / 2, 0) == x / 2;
    }
  }

  /** The parity test `x & 1`. */
  lemma ParityBit(x: nat)
    ensures And(x, 1) == x % 2
  {
    if x != 0 {
      assert And(x / 2, 0) == 0;
    }
  }
}
