/** Machine words as natural numbers, with the bitwise operators of the source
    (`&`, `|`, `!`, `<<`, `>>`) and their meaning as quotient and remainder. */
module Bits {

  const U32_LIMIT: nat := 0x1_0000_0000
  const U64_LIMIT: nat := 0x1_0000_0000_0000_0000

  function Pow2(k: nat): (r: nat)
    ensures r > 0
  {
    if k == 0 then 1 else 2 * Pow2(k - 1)
  }

  function BitAnd(x: nat, y: nat): nat
  {
    if x == 0 || y == 0 then 0
    else (if x % 2 == 1 && y % 2 == 1 then 1 else 0) + 2 * BitAnd(x / 2, y / 2)
  }

  function BitOr(x: nat, y: nat): nat
    decreases x + y
  {
    if x == 0 then y else if y == 0 then x
    else (if x % 2 == 1 || y % 2 == 1 then 1 else 0) + 2 * BitOr(x / 2, y / 2)
  }

  /** `!x` on a 64-bit word. */
  function BitNot64(x: nat): nat
    requires x < U64_LIMIT
  {
    U64_LIMIT - 1 - x
  }

  /** `x << k` and `x >> k`. */
  function Shl(x: nat, k: nat): nat
  {
    if k == 0 then x else 2 * Shl(x, k - 1)
  }

  function Shr(x: nat, k: nat): nat
  {
    if k == 0 then x else Shr(x / 2, k - 1)
  }

  /** The low `k` bits of a word. */
  function Low(x: nat, k: nat): nat
  {
    if k == 0 then 0 else x % 2 + 2 * Low(x / 2, k - 1)
  }

  lemma {:induction false} ShlMul(x: nat, k: nat)
    ensures Shl(x, k) == x * Pow2(k)
  {
    if k != 0 { ShlMul(x, k - 1); }
  }

  /** Quotient and remainder: the bits below and from position `k`. */
  lemma {:induction false} LowShr(x: nat, k: nat)
    ensures Low(x, k) + Shl(Shr(x, k), k) == x
    ensures Low(x, k) < Pow2(k)
  {
    if k != 0 { LowShr(x / 2, k - 1); }
  }

  /** Masking with `2^k - 1` keeps the low bits. */
  lemma {:induction false} AndLow(x: nat, k: nat)
    ensures BitAnd(x, Pow2(k) - 1) == Low(x, k)
  {
    if k != 0 {
      AndLow(x / 2, k - 1);
      assert (Pow2(k) - 1) / 2 == Pow2(k - 1) - 1;
      AndStep(x, Pow2(k) - 1);
    }
  }

  lemma AndStep(x: nat, y: nat)
    ensures BitAnd(x, y) == (if x % 2 == 1 && y % 2 == 1 then 1 else 0) + 2 * BitAnd(x / 2, y / 2)
  {
  }

  /** A mask whose low `k` bits are clear acts on the high part only. */
  lemma {:induction false} AndShift(x: nat, m: nat, k: nat)
    ensures BitAnd(x, Shl(m, k)) == Shl(BitAnd(Shr(x, k), m), k)
  {
    if k != 0 {
      AndShift(x / 2, m, k - 1);
      AndStep(x, Shl(m, k));
    }
  }

  /** `&` works separately on the bits below and from position `k`. */
  lemma {:induction false} AndSplit(x: nat, y: nat, k: nat)
    ensures BitAnd(x, y) == BitAnd(Low(x, k), Low(y, k)) + Shl(BitAnd(Shr(x, k), Shr(y, k)), k)
  {
    if k != 0 {
      AndSplit(x / 2, y / 2, k - 1);
      LowHalf(x, k);
      LowHalf(y, k);
      var a, b := Low(x, k), Low(y, k);
      AndStep(a, b);
      AndStep(x, y);
    }
  }

  /** Words with no bit in common: `|` is addition. */
  lemma {:induction false} OrDisjoint(hi: nat, lo: nat, k: nat)
    requires lo < Pow2(k)
    ensures BitOr(Shl(hi, k), lo) == Shl(hi, k) + lo
    ensures BitOr(lo, Shl(hi, k)) == Shl(hi, k) + lo
  {
    if k != 0 && lo != 0 && Shl(hi, k) != 0 {
      OrDisjoint(hi, lo / 2, k - 1);
    }
  }

  lemma OrStep(x: nat, y: nat)
    ensures BitOr(x, y) == (if x % 2 == 1 || y % 2 == 1 then 1 else 0) + 2 * BitOr(x / 2, y / 2)
  {
  }

  lemma AndHalf(x: nat, y: nat)
    ensures BitAnd(x, y) / 2 == BitAnd(x / 2, y / 2)
    ensures BitAnd(x, y) % 2 == 1 <==> x % 2 == 1 && y % 2 == 1
  {
    AndStep(x, y);
  }

  lemma OrHalf(x: nat, y: nat)
    ensures BitOr(x, y) / 2 == BitOr(x / 2, y / 2)
    ensures BitOr(x, y) % 2 == 1 <==> x % 2 == 1 || y % 2 == 1
  {
    OrStep(x, y);
  }

  lemma LowHalf(x: nat, k: nat)
    requires k > 0
    ensures Low(x, k) / 2 == Low(x / 2, k - 1) && Low(x, k) % 2 == x % 2
  {
  }

  /** `|` works separately on the bits below and from position `k`. */
  lemma {:induction false} OrLow(x: nat, y: nat, k: nat)
    ensures Low(BitOr(x, y), k) == BitOr(Low(x, k), Low(y, k))
  {
    if k != 0 {
      OrLow(x / 2, y / 2, k - 1);
      OrHalf(x, y);
      OrHalf(Low(x, k), Low(y, k));
      LowHalf(x, k);
      LowHalf(y, k);
      LowHalf(BitOr(x, y), k);
    }
  }

  lemma {:induction false} OrShr(x: nat, y: nat, k: nat)
    ensures Shr(BitOr(x, y), k) == BitOr(Shr(x, k), Shr(y, k))
  {
    if k != 0 {
      OrShr(x / 2, y / 2, k - 1);
      OrStep(x, y);
    }
  }

  lemma {:induction false} LowOfSmall(x: nat, k: nat)
    requires x < Pow2(k)
    ensures Low(x, k) == x && Shr(x, k) == 0
  {
    if k != 0 { LowOfSmall(x / 2, k - 1); }
  }

  lemma {:induction false} LowOfShl(x: nat, k: nat)
    ensures Low(Shl(x, k), k) == 0 && Shr(Shl(x, k), k) == x
  {
    if k != 0 { LowOfShl(x, k - 1); }
  }

  lemma {:induction false} AndOverOr(x: nat, y: nat, m: nat)
    ensures BitAnd(BitOr(x, y), m) == BitOr(BitAnd(x, m), BitAnd(y, m))
    decreases m
  {
    if m != 0 {
      AndOverOr(x / 2, y / 2, m / 2);
      OrHalf(x, y);
      AndHalf(BitOr(x, y), m);
      AndHalf(x, m);
      AndHalf(y, m);
      OrHalf(BitAnd(x, m), BitAnd(y, m));
    }
  }

  /** Words whose masks share no bit, and masking twice. */
  lemma {:induction false} AndApart(x: nat, n: nat, m: nat)
    requires BitAnd(n, m) == 0
    ensures BitAnd(BitAnd(x, n), m) == 0
    decreases m
  {
    if m != 0 {
      AndStep(n, m);
      AndApart(x / 2, n / 2, m / 2);
      AndStep(x, n);
      AndStep(BitAnd(x, n), m);
    }
  }

  /** Masking with a run of low ones is the remainder. */
  lemma AndMask(x: nat, m: nat, k: nat)
    requires m + 1 == Pow2(k)
    ensures BitAnd(x, m) == x % (m + 1)
  {
    AndLow(x, k);
    LowShr(x, k);
    ShlMul(Shr(x, k), k);
    Remainder(x, m + 1, Shr(x, k), Low(x, k));
  }

  lemma Remainder(x: nat, n: nat, q: nat, r: nat)
    requires n > 0 && x == r + q * n && r < n
    ensures x % n == r && x / n == q
  {
    var d := q - x / n;
    assert n * d == x % n - r;
    MulAway(n, d);
  }

  /** Addresses of one unit of `s` bytes lie in one block of `k` units. */
  lemma SameQuotient(a: nat, x: nat, s: nat, k: nat)
    requires s > 0 && k > 0 && a % s == 0 && a <= x < a + s
    ensures s * k > 0 && x / (s * k) == a / (s * k)
  {
    var m := a / s;
    var q, t := m / k, m % k;
    MulAway(s, k);
    Divided(a, s);
    Divided(m, k);
    Regroup(s, q, k, t);
    MulMono(s, t + 1, k);
    InOneBlock(a, x, s * k, q, s * t);
  }

  lemma Divided(a: nat, s: nat)
    requires s > 0
    ensures a == s * (a / s) + a % s == a / s * s + a % s && a % s < s
  {
  }

  lemma InOneBlock(a: nat, x: nat, n: nat, q: nat, r: nat)
    requires n > 0 && a == r + q * n && a <= x && r + (x - a) < n
    ensures x / n == a / n
  {
    Remainder(a, n, q, r);
    Remainder(x, n, q, r + (x - a));
  }

  lemma Regroup(s: nat, q: nat, k: nat, t: nat)
    ensures s * (q * k + t) == s * t + q * (s * k)
    ensures s * (t + 1) == s * t + s
  {
  }

  lemma MulMono(s: nat, a: nat, b: nat)
    requires a <= b
    ensures s * a <= s * b
  {
  }

  /** A multiple of a block is a multiple of its units. */
  lemma MultipleOfUnit(a: nat, s: nat, k: nat)
    requires s > 0 && k > 0 && s * k > 0 && a % (s * k) == 0
    ensures a % s == 0
  {
    var q := a / (s * k);
    assert a == q * (s * k) == (q * k) * s;
    Remainder(a, s, q * k, 0);
  }

  lemma MulAway(n: nat, d: int)
    ensures d >= 1 ==> n * d >= n
    ensures d <= -1 ==> n * d + n <= 0
  {
  }

  lemma Pow2At32()
    ensures Pow2(32) == U32_LIMIT
  {
    assert Pow2(8) == 0x100;
    assert Pow2(16) == 0x1_0000;
    assert Pow2(24) == 0x100_0000;
  }

  lemma Pow2At64()
    ensures Pow2(62) == 0x4000_0000_0000_0000 && Pow2(64) == U64_LIMIT
  {
    Pow2At32();
    assert Pow2(40) == 0x100_0000_0000;
    assert Pow2(48) == 0x1_0000_0000_0000;
    assert Pow2(56) == 0x100_0000_0000_0000;
  }

  // ----------------------------------------------------------- single bits

  predicate Bit(x: nat, j: nat) { Shr(x, j) % 2 == 1 }

  lemma {:induction false} BitOfAnd(x: nat, y: nat, j: nat)
    ensures Bit(BitAnd(x, y), j) <==> Bit(x, j) && Bit(y, j)
  {
    AndStep(x, y);
    if j != 0 { BitOfAnd(x / 2, y / 2, j - 1); }
  }

  lemma {:induction false} BitOfOr(x: nat, y: nat, j: nat)
    ensures Bit(BitOr(x, y), j) <==> Bit(x, j) || Bit(y, j)
  {
    OrHalf(x, y);
    if j != 0 { BitOfOr(x / 2, y / 2, j - 1); }
  }

  /** Complementing `k` bits. */
  lemma {:induction false} BitOfNot(x: nat, k: nat, j: nat)
    requires x < Pow2(k) && j < k
    ensures Bit(Pow2(k) - 1 - x, j) <==> !Bit(x, j)
  {
    if j != 0 {
      assert (Pow2(k) - 1 - x) / 2 == Pow2(k - 1) - 1 - x / 2;
      BitOfNot(x / 2, k - 1, j - 1);
    }
  }

  lemma {:induction false} BitOfSmall(x: nat, k: nat, j: nat)
    requires x < Pow2(k) && j >= k
    ensures !Bit(x, j)
  {
    if j == 0 {
    } else if k == 0 {
      BitOfSmall(0, 0, j - 1);
    } else {
      BitOfSmall(x / 2, k - 1, j - 1);
    }
  }

  lemma {:induction false} BitOfShl(x: nat, k: nat, j: nat)
    ensures Bit(Shl(x, k), j) <==> j >= k && Bit(x, j - k)
  {
    if k != 0 && j != 0 { BitOfShl(x, k - 1, j - 1); }
  }

  /** A run of `b` ones at position `k`. */
  lemma BitOfOnes(b: nat, k: nat, j: nat)
    ensures Bit(Shl(Pow2(b) - 1, k), j) <==> k <= j < k + b
  {
    BitOfShl(Pow2(b) - 1, k, j);
    if k <= j < k + b {
      BitOfNot(0, b, j - k);
      BitOfZero(j - k);
    } else if k <= j {
      BitOfSmall(Pow2(b) - 1, b, j - k);
    }
  }

  lemma BitOfZero(j: nat)
    ensures !Bit(0, j)
  {
    BitOfSmall(0, 0, j);
  }

  /** `x & (1 << k) != 0`. */
  lemma TestBit(x: nat, k: nat)
    ensures BitAnd(x, Pow2(k)) != 0 <==> Bit(x, k)
  {
    ShlMul(1, k);
    AndShift(x, 1, k);
    var y := BitAnd(Shr(x, k), 1);
    AndStep(Shr(x, k), 1);
    ShlMul(y, k);
    assert y == 0 || y == 1;
  }

  /** `x >> k` divides. */
  lemma ShrDiv(x: nat, k: nat)
    ensures Shr(x, k) == x / Pow2(k)
  {
    LowShr(x, k);
    ShlMul(Shr(x, k), k);
    Remainder(x, Pow2(k), Shr(x, k), Low(x, k));
  }

  /** `x & (1 << k)`. */
  lemma {:induction false} AndOneBit(x: nat, k: nat)
    ensures BitAnd(x, Pow2(k)) == if Bit(x, k) then Pow2(k) else 0
  {
    AndStep(x, Pow2(k));
    if k != 0 { AndOneBit(x / 2, k - 1); }
  }

  /** `x | (1 << k)`. */
  lemma {:induction false} OrOneBit(x: nat, k: nat)
    ensures BitOr(x, Pow2(k)) == if Bit(x, k) then x else x + Pow2(k)
  {
    OrStep(x, Pow2(k));
    if k != 0 { OrOneBit(x / 2, k - 1); }
  }

  lemma {:induction false} OrAssociates(x: nat, y: nat, z: nat)
    ensures BitOr(BitOr(x, y), z) == BitOr(x, BitOr(y, z))
    decreases x
  {
    if x != 0 {
      OrAssociates(x / 2, y / 2, z / 2);
      OrHalf(x, y); OrHalf(y, z);
      OrStep(BitOr(x, y), z); OrStep(x, BitOr(y, z));
    }
  }

  /** A mask and its complement share a word out. */
  lemma {:induction false} AndNot(x: nat, m: nat, k: nat)
    requires x < Pow2(k) && m < Pow2(k)
    ensures BitAnd(x, Pow2(k) - 1 - m) + BitAnd(x, m) == x
  {
    if k != 0 {
      var n := Pow2(k) - 1 - m;
      NotHalf(m, k);
      AndNot(x / 2, m / 2, k - 1);
      AndStep(x, n); AndStep(x, m);
    }
  }

  lemma NotHalf(m: nat, k: nat)
    requires k > 0 && m < Pow2(k)
    ensures (Pow2(k) - 1 - m) / 2 == Pow2(k - 1) - 1 - m / 2 && (Pow2(k) - 1 - m) % 2 == 1 - m % 2
  {
  }

  lemma OneBit(k: nat, j: nat)
    ensures Bit(Pow2(k), j) <==> j == k
  {
    ShlMul(1, k);
    assert Pow2(1) - 1 == 1;
    BitOfOnes(1, k, j);
  }

  lemma {:induction false} ShrShr(x: nat, k: nat, j: nat)
    ensures Shr(Shr(x, k), j) == Shr(x, k + j)
  {
    if k != 0 { ShrShr(x / 2, k - 1, j); }
  }

  lemma {:induction false} BitOfLow(x: nat, k: nat, j: nat)
    ensures Bit(Low(x, k), j) <==> j < k && Bit(x, j)
  {
    if k == 0 {
      BitOfZero(j);
    } else {
      LowHalf(x, k);
      if j != 0 { BitOfLow(x / 2, k - 1, j - 1); }
    }
  }

  lemma {:induction false} HighBit(x: nat) returns (j: nat)
    requires x != 0
    ensures Bit(x, j)
  {
    if x % 2 == 1 { j := 0; } else { j := HighBit(x / 2); j := j + 1; }
  }

  /** Words with the same bits are equal. */
  lemma {:induction false} SameBits(x: nat, y: nat)
    requires forall j: nat :: Bit(x, j) <==> Bit(y, j)
    ensures x == y
  {
    assert Bit(x, 0) <==> Bit(y, 0);
    if x != 0 || y != 0 {
      forall j: nat ensures Bit(x / 2, j) <==> Bit(y / 2, j) { assert Bit(x, j + 1) <==> Bit(y, j + 1); }
      if x == 0 { var j := HighBit(y); BitOfZero(j); } else { SameBits(x / 2, y / 2); }
    }
  }
}
