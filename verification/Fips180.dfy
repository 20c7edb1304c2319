/**
 SHA-1 as FIPS 180-4 defines it, on bit strings of any length below 2^64: padding of section 5.1.1,
 constants of sections 4.2.1 and 5.3.1, functions of section 4.1.1, computation of section 6.1.2.
 */
module Fips180 {
  import opened JsBits

  datatype Regs = Regs(a: Word, b: Word, c: Word, d: Word, e: Word)

  function Rotl(n: nat, x: Word): Word
    requires n <= 32
  {
    x[n..] + x[..n]
  }

  // Addition modulo 2^32.
  function Plus(x: Word, y: Word): Word { BitsOf(ValOf(x) + ValOf(y), 32) }

  function Ch(x: Word, y: Word, z: Word): Word { XorW(AndW(x, y), AndW(NotW(x), z)) }
  function Parity(x: Word, y: Word, z: Word): Word { XorW(XorW(x, y), z) }
  function Maj(x: Word, y: Word, z: Word): Word { XorW(XorW(AndW(x, y), AndW(x, z)), AndW(y, z)) }

  function F(t: nat, x: Word, y: Word, z: Word): Word {
    if t < 20 then Ch(x, y, z) else if 40 <= t < 60 then Maj(x, y, z) else Parity(x, y, z)
  }

  function K(t: nat): Word {
    W(if t < 20 then 0x5a827999 else if t < 40 then 0x6ed9eba1 else if t < 60 then 0x8f1bbcdc else 0xca62c1d6)
  }

  function InitialHash(): Regs {
    Regs(W(0x67452301), W(0xefcdab89), W(0x98badcfe), W(0x10325476), W(0xc3d2e1f0))
  }

  // Word t of the message schedule of a 512-bit block.
  function Schedule(block: seq<bool>, t: nat): Word
    requires |block| == 512
  {
    if t < 16 then block[32 * t..32 * (t + 1)]
    else
      Rotl(1, XorW(XorW(XorW(Schedule(block, t - 3), Schedule(block, t - 8)), Schedule(block, t - 14)),
                   Schedule(block, t - 16)))
  }

  function Round(block: seq<bool>, t: nat, r: Regs): Regs
    requires |block| == 512
  {
    var T := Plus(Plus(Plus(Plus(Rotl(5, r.a), F(t, r.b, r.c, r.d)), r.e), K(t)), Schedule(block, t));
    Regs(T, r.a, Rotl(30, r.b), r.c, r.d)
  }

  function Rounds(block: seq<bool>, t: nat, h: Regs): Regs
    requires |block| == 512
  {
    if t == 0 then h else Round(block, t - 1, Rounds(block, t - 1, h))
  }

  function Compress(h: Regs, block: seq<bool>): Regs
    requires |block| == 512
  {
    var r := Rounds(block, 80, h);
    Regs(Plus(r.a, h.a), Plus(r.b, h.b), Plus(r.c, h.c), Plus(r.d, h.d), Plus(r.e, h.e))
  }

  function BlocksIn(len: nat): (k: nat)
    ensures 512 * k <= len < 512 * (k + 1)
  {
    len / 512
  }

  // The hash value after the first k blocks of a bit string.
  function HashAfter(bits: seq<bool>, k: nat): Regs
    requires 512 * k <= |bits|
  {
    if k == 0 then InitialHash()
    else Compress(HashAfter(bits, k - 1), bits[512 * (k - 1)..512 * k])
  }

  // Bits between the 1 bit and the length: the least number that completes a block.
  function PadZeros(len: nat): nat { (512 + 447 - len % 512) % 512 }

  function Pad(message: seq<bool>): seq<bool> {
    message + [true] + Zeros(PadZeros(|message|)) + BitsOf(|message|, 64)
  }

  lemma PadIsLeast(len: nat, k: nat)
    ensures (len + 1 + PadZeros(len)) % 512 == 448
    ensures (len + 1 + k) % 512 == 448 ==> PadZeros(len) <= k
  {
    var a, q, z := len / 512, len % 512, PadZeros(len);
    assert len == 512 * a + q && z == if q < 448 then 447 - q else 959 - q;
    assert len + 1 + z == 512 * (a + if q < 448 then 0 else 1) + 448;
    if (len + 1 + k) % 512 == 448 {
      var c := (len + 1 + k) / 512;
      assert k == 512 * (c - a) + 447 - q;
    }
  }

  function Sha1(message: seq<bool>): Regs {
    HashAfter(Pad(message), BlocksIn(|Pad(message)|))
  }

  lemma PadFillsBlocks(message: seq<bool>)
    ensures |Pad(message)| == |message| + 1 + PadZeros(|message|) + 64
    ensures |Pad(message)| % 512 == 0
  {
    hide BitsOf, PadZeros, Zeros;
    PadIsLeast(|message|, 0);
  }

  // The hash value after k blocks depends on those blocks only.
  lemma {:induction false} HashOfPrefix(x: seq<bool>, y: seq<bool>, k: nat)
    requires 512 * k <= |x| && 512 * k <= |y| && x[..512 * k] == y[..512 * k]
    ensures HashAfter(x, k) == HashAfter(y, k)
  {
    hide Compress;
    if k > 0 {
      assert x[..512 * k][512 * (k - 1)..] == x[512 * (k - 1)..512 * k];
      assert y[..512 * k][512 * (k - 1)..] == y[512 * (k - 1)..512 * k];
      assert x[..512 * (k - 1)] == x[..512 * k][..512 * (k - 1)];
      assert y[..512 * (k - 1)] == y[..512 * k][..512 * (k - 1)];
      HashOfPrefix(x, y, k - 1);
    }
  }

  // ---------- the definitions spelled out ----------

  lemma WordValue(x: nat)
    requires x < 0x1_0000_0000
    ensures ValOf(W(x)) == x
  {
    hide ValOf, BitsOf;
    PowValues();
    ValOfBits(x, 32);
    ModUnique(x, 0x1_0000_0000, 0, x);
  }

  lemma KeyValues(t: nat)
    requires t < 80
    ensures ValOf(K(t)) == if t < 20 then 0x5a827999 else if t < 40 then 0x6ed9eba1
                           else if t < 60 then 0x8f1bbcdc else 0xca62c1d6
  {
    hide ValOf, W;
    WordValue(if t < 20 then 0x5a827999 else if t < 40 then 0x6ed9eba1 else if t < 60 then 0x8f1bbcdc else 0xca62c1d6);
  }

  // The round constants are the first 32 bits of the square roots of 2, 3, 5 and 10.
  lemma ConstantsPlainly(t: nat)
    requires t < 80
    ensures var k, n := ValOf(K(t)), if t < 20 then 2 else if t < 40 then 3 else if t < 60 then 5 else 10;
            k * k <= n * 0x1000_0000_0000_0000 < (k + 1) * (k + 1)
  {
    KeyValues(t);
    hide ValOf, W, K;
  }

  // The initial hash value counts the hexadecimal digits up and down, byte by byte.
  lemma InitialPlainly()
    ensures var h := InitialHash();
            && ValOf(h.a) == 0x67452301 && ValOf(h.b) == 0xefcdab89 && ValOf(h.c) == 0x98badcfe
            && ValOf(h.d) == 0x10325476 && ValOf(h.e) == 0xc3d2e1f0
  {
    hide ValOf, W;
    WordValue(0x67452301);
    WordValue(0xefcdab89);
    WordValue(0x98badcfe);
    WordValue(0x10325476);
    WordValue(0xc3d2e1f0);
  }

  // One bit of the round's function: the choice between y and z by x, the majority, or the sum.
  predicate MixedBit(t: nat, x: bool, y: bool, z: bool) {
    if t < 20 then (if x then y else z)
    else if 40 <= t < 60 then (x && y) || (x && z) || (y && z)
    else (x != y) != z
  }

  lemma MixPlainly(t: nat, x: Word, y: Word, z: Word, i: nat)
    requires i < 32
    ensures F(t, x, y, z)[i] == MixedBit(t, x[i], y[i], z[i])
  {
  }

  // One round: four registers move on, the second one turned by 30, and the first one becomes the sum
  // of itself turned by 5, of the function of the next three, of the last one, of the constant and of
  // the schedule word, modulo 2^32.
  lemma RoundPlainly(block: seq<bool>, t: nat, r: Regs)
    requires |block| == 512 && t < 80
    ensures var r' := Round(block, t, r);
            && r'.b == r.a && r'.c == r.b[30..] + r.b[..30] && r'.d == r.c && r'.e == r.d
            && ValOf(r'.a) == (ValOf(r.a[5..] + r.a[..5]) + ValOf(F(t, r.b, r.c, r.d)) + ValOf(r.e) +
                               ValOf(K(t)) + ValOf(Schedule(block, t))) % 0x1_0000_0000
  {
    hide ValOf, BitsOf, F, K, Schedule, Plus;
    var a, f, k, w := Rotl(5, r.a), F(t, r.b, r.c, r.d), K(t), Schedule(block, t);
    PlusPlainly(a, f);
    PlusPlainly(Plus(a, f), r.e);
    PlusPlainly(Plus(Plus(a, f), r.e), k);
    PlusPlainly(Plus(Plus(Plus(a, f), r.e), k), w);
    ModSum(ValOf(a) + ValOf(f), ValOf(r.e));
    ModSum(ValOf(a) + ValOf(f) + ValOf(r.e), ValOf(k));
    ModSum(ValOf(a) + ValOf(f) + ValOf(r.e) + ValOf(k), ValOf(w));
  }

  lemma PlusPlainly(x: Word, y: Word)
    ensures ValOf(Plus(x, y)) == (ValOf(x) + ValOf(y)) % 0x1_0000_0000
  {
    hide ValOf, BitsOf;
    PowValues();
    ValOfBits(ValOf(x) + ValOf(y), 32);
  }

  lemma ModSum(x: nat, y: nat)
    ensures (x % 0x1_0000_0000 + y) % 0x1_0000_0000 == (x + y) % 0x1_0000_0000
  {
    var m := 0x1_0000_0000;
    AddMultiple(x % m + y, m, x / m);
  }

  // The schedule: the 16 words of the block, and then each word the sum of four earlier ones, turned
  // by 1.
  lemma SchedulePlainly(block: seq<bool>, t: nat, i: nat)
    requires |block| == 512 && i < 32
    ensures t < 16 ==> Schedule(block, t)[i] == block[32 * t + i]
    ensures t >= 16 ==>
              var j := if i == 31 then 0 else i + 1;
              Schedule(block, t)[i] ==
              (((Schedule(block, t - 3)[j] != Schedule(block, t - 8)[j]) != Schedule(block, t - 14)[j]) !=
               Schedule(block, t - 16)[j])
  {
    if t >= 16 {
      var x, y, z, u := Schedule(block, t - 3), Schedule(block, t - 8), Schedule(block, t - 14), Schedule(block, t - 16);
      var w := XorW(XorW(XorW(x, y), z), u);
      assert Schedule(block, t) == w[1..] + w[..1];
      hide Schedule;
    }
  }

  // A block: 80 rounds, and then the old hash value is added register by register.
  lemma CompressPlainly(h: Regs, block: seq<bool>)
    requires |block| == 512
    ensures Rounds(block, 0, h) == h
    ensures forall t | 0 <= t < 80 :: Rounds(block, t + 1, h) == Round(block, t, Rounds(block, t, h))
    ensures var r, r' := Rounds(block, 80, h), Compress(h, block);
            && ValOf(r'.a) == (ValOf(r.a) + ValOf(h.a)) % 0x1_0000_0000
            && ValOf(r'.b) == (ValOf(r.b) + ValOf(h.b)) % 0x1_0000_0000
            && ValOf(r'.c) == (ValOf(r.c) + ValOf(h.c)) % 0x1_0000_0000
            && ValOf(r'.d) == (ValOf(r.d) + ValOf(h.d)) % 0x1_0000_0000
            && ValOf(r'.e) == (ValOf(r.e) + ValOf(h.e)) % 0x1_0000_0000
  {
    hide ValOf, BitsOf, Round, Plus;
    var r := Rounds(block, 80, h);
    PlusPlainly(r.a, h.a);
    PlusPlainly(r.b, h.b);
    PlusPlainly(r.c, h.c);
    PlusPlainly(r.d, h.d);
    PlusPlainly(r.e, h.e);
  }

  lemma LengthPlainly(n: nat)
    requires n < 0x1_0000_0000_0000_0000
    ensures ValOf(BitsOf(n, 64)) == n
  {
    hide ValOf, BitsOf;
    PowAdd(32, 32);
    PowValues();
    ValOfBits(n, 64);
    ModUnique(n, 0x1_0000_0000_0000_0000, 0, n);
  }

  // The padded message: the message, a 1, zeros, and the length of the message in 64 bits, the whole
  // as short as a multiple of 512 allows.
  lemma PadPlainly(message: seq<bool>)
    ensures var p, n := Pad(message), |message|;
            && |p| % 512 == 0 && n + 65 <= |p| < n + 65 + 512
            && p[..n] == message && p[n]
            && (forall i | n < i < |p| - 64 :: !p[i])
            && (n < 0x1_0000_0000_0000_0000 ==> ValOf(p[|p| - 64..]) == n)
  {
    var p, n, z := Pad(message), |message|, PadZeros(|message|);
    assert z < 512;
    hide ValOf, BitsOf, PadZeros;
    PadFillsBlocks(message);
    assert p == message + [true] + Zeros(z) + BitsOf(n, 64);
    assert p[|p| - 64..] == BitsOf(n, 64);
    if n < 0x1_0000_0000_0000_0000 {
      LengthPlainly(n);
    }
  }
}
