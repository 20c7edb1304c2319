/**
 JavaScript integers as the bitwise operators see them: the operators take their operands modulo
 2^32 and, except for `>>>`, give back a signed 32-bit result.  A number is described by its bits,
 most significant first; negative numbers have their two's complement bits.
 */
module JsBits {

  function Pow2(k: nat): (p: nat)
    ensures p > 0
  {
    if k == 0 then 1 else 2 * Pow2(k - 1)
  }

  const TWO_31: int := 0x8000_0000
  const TWO_32: int := 0x1_0000_0000
  const TWO_40: int := 0x100_0000_0000

  // The k low bits of x.
  function BitsOf(x: int, k: nat): (bs: seq<bool>)
    ensures |bs| == k
    decreases k, x
  {
    if k == 0 then [] else BitsOf(x / 2, k - 1) + [x % 2 == 1]
  }

  function ValOf(bs: seq<bool>): nat {
    if bs == [] then 0 else 2 * ValOf(bs[..|bs| - 1]) + if bs[|bs| - 1] then 1 else 0
  }

  function Zeros(k: nat): (bs: seq<bool>)
    ensures |bs| == k
  {
    seq(k, _ => false)
  }

  // ---------- bits and values ----------

  lemma {:induction false} PowAdd(a: nat, b: nat)
    ensures Pow2(a + b) == Pow2(a) * Pow2(b)
  {
    if a > 0 {
      PowAdd(a - 1, b);
      assert Pow2(a + b) == 2 * (Pow2(a - 1) * Pow2(b)) == Pow2(a) * Pow2(b);
    }
  }

  lemma PowValues()
    ensures Pow2(1) == 2 && Pow2(31) == TWO_31 && Pow2(32) == TWO_32
  {
    assert Pow2(8) == 256;
    PowAdd(8, 8);
    PowAdd(16, 16);
    assert Pow2(32) == 2 * Pow2(31);
  }

  lemma HalfMod(x: int, p: int)
    requires p > 0
    ensures x % (2 * p) == 2 * ((x / 2) % p) + x % 2
  {
    var q := (x / 2) / p;
    var r := 2 * ((x / 2) % p) + x % 2;
    assert x / 2 == p * q + (x / 2) % p;
    assert x == 2 * (x / 2) + x % 2;
    assert x == (2 * p) * q + r by {
      assert 2 * (p * q) == (2 * p) * q;
    }
    ModUnique(x, 2 * p, q, r);
  }

  lemma ModUnique(x: int, m: int, q: int, r: int)
    requires m > 0 && 0 <= r < m && x == m * q + r
    ensures x % m == r && x / m == q
  {
    var d := x / m - q;
    assert m * (x / m) + x % m == x;
    assert m * d == r - x % m by {
      assert m * d == m * (x / m) - m * q;
    }
    MulSign(m, d);
  }

  lemma MulSign(m: int, d: int)
    requires m > 0
    ensures (d >= 1 ==> m * d >= m) && (d <= -1 ==> m * d <= -m)
  {
  }

  lemma ValOfSnoc(bs: seq<bool>, b: bool)
    ensures ValOf(bs + [b]) == 2 * ValOf(bs) + if b then 1 else 0
  {
    assert (bs + [b])[..|bs + [b]| - 1] == bs;
  }

  lemma {:induction false} ValOfBits(x: int, k: nat)
    ensures ValOf(BitsOf(x, k)) == x % Pow2(k)
    decreases k
  {
    if k == 0 {
    } else {
      ValOfBits(x / 2, k - 1);
      HalfMod(x, Pow2(k - 1));
      ValOfSnoc(BitsOf(x / 2, k - 1), x % 2 == 1);
    }
  }

  lemma {:induction false} BitsOfVal(bs: seq<bool>)
    ensures BitsOf(ValOf(bs), |bs|) == bs && ValOf(bs) < Pow2(|bs|)
  {
    if bs != [] {
      BitsOfVal(bs[..|bs| - 1]);
    }
  }

  // Bits determine a number modulo a power of two, and are determined by it.
  lemma SameBits(x: int, y: int, k: nat)
    ensures BitsOf(x, k) == BitsOf(y, k) <==> x % Pow2(k) == y % Pow2(k)
  {
    ValOfBits(x, k);
    ValOfBits(y, k);
    BitsOfVal(BitsOf(x, k));
    BitsOfVal(BitsOf(y, k));
  }

  lemma {:induction false} SplitBits(x: int, a: nat, b: nat)
    ensures BitsOf(x, a + b) == BitsOf(x / Pow2(b), a) + BitsOf(x, b)
    decreases b
  {
    if b == 0 {
    } else {
      SplitBits(x / 2, a, b - 1);
      DivDiv(x, Pow2(b - 1));
    }
  }

  lemma DivDiv(x: int, p: int)
    requires p > 0
    ensures (x / 2) / p == x / (2 * p)
  {
    HalfMod(x, p);
    assert x == (2 * p) * ((x / 2) / p) + x % (2 * p) by {
      assert x / 2 == p * ((x / 2) / p) + (x / 2) % p;
      assert (2 * p) * ((x / 2) / p) == 2 * (p * ((x / 2) / p));
    }
    ModUnique(x, 2 * p, (x / 2) / p, x % (2 * p));
  }

  lemma {:induction false} ZeroBits(k: nat)
    ensures BitsOf(0, k) == Zeros(k)
  {
    if k > 0 {
      ZeroBits(k - 1);
    }
  }

  // The bits in order, the highest first.
  lemma {:induction false} BitAt(x: int, k: nat, j: nat)
    requires j < k
    ensures BitsOf(x, k)[j] <==> (x / Pow2(k - 1 - j)) % 2 == 1
    decreases k
  {
    var init := BitsOf(x / 2, k - 1);
    assert BitsOf(x, k) == init + [x % 2 == 1];
    if j == k - 1 {
      assert Pow2(0) == 1;
    } else {
      BitAt(x / 2, k - 1, j);
      assert Pow2(k - 1 - j) == 2 * Pow2(k - 2 - j);
      hide Pow2, BitsOf;
      DivDiv(x, Pow2(k - 2 - j));
    }
  }

  // ---------- conversions ----------

  function ToUint32(x: int): nat { x % TWO_32 }

  function ToInt32(x: int): int {
    if ToUint32(x) < TWO_31 then ToUint32(x) else ToUint32(x) - TWO_32
  }

  type Word = bs: seq<bool> | |bs| == 32 witness seq(32, _ => false)

  // What every operator sees of a number.
  function W(x: int): Word { BitsOf(x, 32) }

  lemma SameWord(x: int, y: int)
    ensures W(x) == W(y) <==> x % TWO_32 == y % TWO_32
  {
    SameBits(x, y, 32);
    PowValues();
  }

  lemma AddMultiple(x: int, m: int, q: int)
    requires m > 0
    ensures (x + m * q) % m == x % m
  {
    var r := x % m;
    assert x == m * (x / m) + r;
    assert x + m * q == m * (x / m + q) + r;
    ModUnique(x + m * q, m, x / m + q, r);
  }

  lemma WordOfInt32(x: int)
    ensures W(ToInt32(x)) == W(x) == W(ToUint32(x))
    ensures -TWO_31 <= ToInt32(x) < TWO_31
  {
    hide W;
    var u := ToUint32(x);
    ModUnique(u, TWO_32, 0, u);
    ModUnique(u - TWO_32, TWO_32, -1, u);
    SameWord(ToInt32(x), x);
    SameWord(ToUint32(x), x);
  }

  // ---------- operators ----------

  // The signed number with the given bits.
  function FromWord(w: Word): (x: int)
    ensures W(x) == w && -TWO_31 <= x < TWO_31
  {
    BitsOfVal(w);
    PowValues();
    WordOfInt32(ValOf(w));
    ToInt32(ValOf(w))
  }

  function AndW(x: Word, y: Word): Word { seq(32, i requires 0 <= i < 32 => x[i] && y[i]) }
  function OrW(x: Word, y: Word): Word { seq(32, i requires 0 <= i < 32 => x[i] || y[i]) }
  function XorW(x: Word, y: Word): Word { seq(32, i requires 0 <= i < 32 => x[i] != y[i]) }
  function NotW(x: Word): Word { seq(32, i requires 0 <= i < 32 => !x[i]) }

  function And(x: int, y: int): int { FromWord(AndW(W(x), W(y))) }
  function Or(x: int, y: int): int { FromWord(OrW(W(x), W(y))) }
  function Xor(x: int, y: int): int { FromWord(XorW(W(x), W(y))) }
  function Not(x: int): int { FromWord(NotW(W(x))) }

  // Shift counts are taken modulo 32.
  function Count(k: int): (c: nat)
    ensures c < 32 && (0 <= k < 32 ==> c == k)
  {
    k % 32
  }

  // x << k
  function Shl(x: int, k: int): int { FromWord(W(x)[Count(k)..] + Zeros(Count(k))) }

  // x >>> k, the one operator with an unsigned result
  function Ushr(x: int, k: int): (r: int)
    ensures W(r) == Zeros(Count(k)) + W(x)[..32 - Count(k)] && 0 <= r < TWO_32
  {
    var w: Word := Zeros(Count(k)) + W(x)[..32 - Count(k)];
    BitsOfVal(w);
    PowValues();
    ValOf(w)
  }

  // x >> k, which repeats the sign bit
  function Sshr(x: int, k: int): int {
    FromWord(seq(Count(k), _ => W(x)[0]) + W(x)[..32 - Count(k)])
  }

  lemma Sign31()
    ensures W(TWO_31) == [true] + Zeros(31)
  {
    PowValues();
    SplitBits(TWO_31, 1, 31);
    ModUnique(TWO_31, Pow2(31), 1, 0);
    SameBits(TWO_31, 0, 31);
    ZeroBits(31);
  }
}
