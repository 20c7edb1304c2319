/**
 The incremental SHA-1 object: words wait in a buffer until they fill a 512-bit block.
 */
module Sha1Hash {
  import opened JsBits
  import BitArray
  import opened Fips180

  // ---------- word arithmetic against bit strings ----------

  lemma SumWord(x: int, y: int)
    ensures W(x + y) == Plus(W(x), W(y))
  {
    hide BitsOf, ValOf;
    ValOfWord(x);
    ValOfWord(y);
    SumMod(x, y, TWO_32);
    SameWord(x + y, x % TWO_32 + y % TWO_32);
  }

  lemma ValOfWord(x: int)
    ensures ValOf(W(x)) == x % TWO_32
  {
    ValOfBits(x, 32);
    PowValues();
  }

  lemma SumMod(x: int, y: int, m: int)
    requires m > 0
    ensures (x + y) % m == (x % m + y % m) % m
  {
    AddMultiple(x % m + y % m, m, x / m + y / m);
    assert x == m * (x / m) + x % m && y == m * (y / m) + y % m;
    assert m * (x / m + y / m) == m * (x / m) + m * (y / m);
  }

  // _S
  function RotateLeft(n: int, x: int): int { Or(Shl(x, n), Ushr(x, 32 - n)) }

  lemma RotateWord(n: nat, x: int)
    requires 1 <= n <= 31
    ensures W(RotateLeft(n, x)) == Rotl(n, W(x))
  {
    OrRotates(W(x), n, W(Shl(x, n)), W(Ushr(x, 32 - n)));
  }

  lemma OrRotates(w: Word, n: nat, s: Word, u: Word)
    requires 1 <= n <= 31
    requires s == w[n..] + Zeros(n) && u == Zeros(32 - n) + w[..n]
    ensures OrW(s, u) == Rotl(n, w)
  {
    assert forall i | 0 <= i < 32 :: OrW(s, u)[i] == Rotl(n, w)[i];
  }

  // _f
  function Mix(t: nat, x: int, y: int, z: int): int {
    if 19 >= t then Or(And(x, y), And(Not(x), z))
    else if 39 >= t then Xor(Xor(x, y), z)
    else if 59 >= t then Or(Or(And(x, y), And(x, z)), And(y, z))
    else Xor(Xor(x, y), z)
  }

  lemma MixWord(t: nat, x: int, y: int, z: int)
    ensures W(Mix(t, x, y, z)) == F(t, W(x), W(y), W(z))
  {
    ChooseByOr(W(x), W(y), W(z));
    MajorityByOr(W(x), W(y), W(z));
  }

  lemma ChooseByOr(x: Word, y: Word, z: Word)
    ensures OrW(AndW(x, y), AndW(NotW(x), z)) == Ch(x, y, z)
  {
  }

  lemma MajorityByOr(x: Word, y: Word, z: Word)
    ensures OrW(OrW(AndW(x, y), AndW(x, z)), AndW(y, z)) == Maj(x, y, z)
  {
  }

  const KEY: seq<int> := [1518500249, 1859775393, 2400959708, 3395469782]
  const INIT: seq<int> := [1732584193, 4023233417, 2562383102, 271733878, 3285377520]

  function RegsOf(h: seq<int>): Regs
    requires |h| == 5
  {
    Regs(W(h[0]), W(h[1]), W(h[2]), W(h[3]), W(h[4]))
  }

  lemma {:induction false} RawAt(words: seq<int>, t: nat)
    requires t < |words|
    ensures BitArray.RawBits(words)[32 * t..32 * (t + 1)] == W(words[t])
  {
    hide W;
    var front, last := words[..|words| - 1], words[|words| - 1];
    if t < |words| - 1 {
      RawAt(front, t);
      assert BitArray.RawBits(words)[32 * t..32 * (t + 1)] == BitArray.RawBits(front)[32 * t..32 * (t + 1)];
    }
  }

  // One round on numbers is one round on words.
  lemma RoundWord(block: seq<bool>, t: nat, r: Regs, a: int, b: int, c: int, d: int, e: int, l: int, n: int)
    requires |block| == 512 && t < 80
    requires r == Regs(W(a), W(b), W(c), W(d), W(e)) && W(l) == Schedule(block, t)
    requires n == Or(0, RotateLeft(5, a) + Mix(t, b, c, d) + e + l + KEY[t / 20])
    ensures Round(block, t, r) == Regs(W(n), W(a), W(RotateLeft(30, b)), W(c), W(d))
  {
    hide W, BitsOf, ValOf, RotateLeft, Mix, Or, Schedule, Plus, Rotl, F;
    RotateWord(5, a);
    RotateWord(30, b);
    MixWord(t, b, c, d);
    var s1 := RotateLeft(5, a) + Mix(t, b, c, d);
    SumWord(RotateLeft(5, a), Mix(t, b, c, d));
    SumWord(s1, e);
    SumWord(s1 + e, l);
    SumWord(s1 + e + l, KEY[t / 20]);
    KeyWord(t);
    // the terms come in the order a, f, e, w, k; the standard adds k before w
    PlusSwap(W(s1 + e), W(l), W(KEY[t / 20]));
    BitArray.DropTag(s1 + e + l + KEY[t / 20]);
  }

  lemma KeyWord(t: nat)
    requires t < 80
    ensures W(KEY[t / 20]) == K(t)
  {
  }

  lemma PlusSwap(x: Word, y: Word, z: Word)
    ensures Plus(Plus(x, y), z) == Plus(Plus(x, z), y)
  {
    hide BitsOf, ValOf;
    PlusThree(x, y, z);
    PlusThree(x, z, y);
  }

  lemma PlusThree(x: Word, y: Word, z: Word)
    ensures Plus(Plus(x, y), z) == BitsOf(ValOf(x) + ValOf(y) + ValOf(z), 32)
  {
    hide BitsOf, ValOf;
    var s, c := ValOf(x) + ValOf(y), ValOf(z);
    assert Plus(x, y) == W(s);
    ValOfWord(s);
    DropMod(s, c, TWO_32);
    SameWord(s % TWO_32 + c, s + c);
  }

  lemma DropMod(s: int, c: int, m: int)
    requires m > 0
    ensures (s % m + c) % m == (s + c) % m
  {
    AddMultiple(s % m + c, m, s / m);
    assert s == m * (s / m) + s % m;
  }

  lemma ScheduleWord(block: seq<bool>, t: nat, l: seq<int>)
    requires |block| == 512 && 16 <= t <= |l|
    requires forall j | 0 <= j < t :: W(l[j]) == Schedule(block, j)
    ensures W(RotateLeft(1, Xor(Xor(Xor(l[t - 3], l[t - 8]), l[t - 14]), l[t - 16]))) == Schedule(block, t)
  {
    hide W, RotateLeft, FromWord;
    RotateWord(1, Xor(Xor(Xor(l[t - 3], l[t - 8]), l[t - 14]), l[t - 16]));
  }

  lemma FirstWords(words: seq<int>)
    requires |words| == 16
    ensures forall j | 0 <= j < 16 :: W(words[j]) == Schedule(BitArray.RawBits(words), j)
  {
    hide W;
    forall j | 0 <= j < 16
      ensures W(words[j]) == Schedule(BitArray.RawBits(words), j)
    {
      RawAt(words, j);
    }
  }

  // 0 | x + y, the new value of one word of the hash
  lemma FoldWord(x: int, y: int)
    ensures W(Or(0, x + y)) == Plus(W(y), W(x))
  {
    hide W, Or;
    BitArray.DropTag(x + y);
    SumWord(x, y);
  }

  // ---------- where update starts cutting blocks ----------

  // blockSize + length & -blockSize
  function LoopStart(length: int): int { And(512 + length, -512) }

  lemma Int32Unique(x: int, y: int)
    requires -TWO_31 <= x < TWO_31 && -TWO_31 <= y < TWO_31 && W(x) == W(y)
    ensures x == y
  {
    hide W;
    SameWord(x, y);
  }

  lemma {:induction false} OnesBits(k: nat)
    ensures BitsOf(-1, k) == seq(k, _ => true)
  {
    if k > 0 {
      OnesBits(k - 1);
    }
  }

  lemma BlockMask(y: int)
    ensures And(y, -512) == ToInt32(y - y % 512)
  {
    hide BitsOf, FromWord, ToInt32;
    var z := y - y % 512;
    assert Pow2(9) == 512;
    SplitBits(-512, 23, 9);
    OnesBits(23);
    SplitBits(z, 23, 9);
    SplitBits(y, 23, 9);
    SameBits(z, 0, 9);
    SameBits(-512, 0, 9);
    ZeroBits(9);
    MaskSeq(BitsOf(y / 512, 23), BitsOf(y, 9), W(y), W(-512), W(z));
    WordOfInt32(z);
    Int32Unique(And(y, -512), ToInt32(z));
  }

  lemma MaskSeq(top: seq<bool>, low: seq<bool>, w: Word, mask: Word, r: Word)
    requires |top| == 23 && |low| == 9 && w == top + low
    requires mask == seq(23, _ => true) + Zeros(9) && r == top + Zeros(9)
    ensures AndW(w, mask) == r
  {
  }

  // The first block boundary after the current length, which is where update has to start, is
  // found exactly while the length stays 512 short of 2^31.  From there on the start is too low
  // by a multiple of 2^32, and update would cut blocks from an exhausted buffer.
  lemma LoopStartExactly(length: nat)
    ensures LoopStart(length) == 512 * (BlocksIn(length) + 1) <==> length < TWO_31 - 512
    ensures length >= TWO_31 - 512 ==> LoopStart(length) <= 512 * (BlocksIn(length) + 1) - TWO_32
  {
    hide And;
    var z := 512 * (BlocksIn(length) + 1);
    BlockMask(512 + length);
    assert z == 512 + length - (512 + length) % 512;
    assert z == TWO_32 * (z / TWO_32) + z % TWO_32;
    if length < TWO_31 - 512 {
      ModUnique(z, TWO_32, 0, z);
    } else {
      assert z >= TWO_31;
    }
  }

  // How often the loop of update runs, in steps of a block from start up to the new length.
  function Cuts(start: int, length: int): nat {
    if start > length then 0 else (length - start) / 512 + 1
  }

  // The buffer after so many splices of 16 words, the last of which may find fewer or none.
  function LeftAfter(buffer: seq<int>, cuts: nat): seq<int> {
    if 16 * cuts <= |buffer| then buffer[16 * cuts..] else []
  }

  lemma CutsTooMany(length: nat, added: nat, start: int)
    requires start <= 512 * (BlocksIn(length) + 1) - TWO_32
    ensures Cuts(start, length + added) > BlocksIn(length + added) - BlocksIn(length)
  {
    var z, now := 512 * (BlocksIn(length) + 1), length + added;
    assert now - start >= now - z + TWO_32 > 0;
    assert (now - start) / 512 >= (now - z + TWO_32) / 512;
  }

  lemma CutsEnough(length: nat, added: nat)
    ensures Cuts(512 * (BlocksIn(length) + 1), length + added) == BlocksIn(length + added) - BlocksIn(length)
  {
  }

  // Update cuts off exactly the blocks that are complete if and only if the length before was below
  // 2^31 - 512.  From there on it cuts more than there are and leaves nothing in the buffer, which
  // is right only for a length that is a multiple of 512.
  lemma CutsExactly(length: nat, added: nat, buffer: seq<int>)
    requires BitArray.WellFormed(buffer) && |BitArray.Bits(buffer)| == length % 512 + added
    ensures var cuts, left := Cuts(LoopStart(length), length + added), LeftAfter(buffer, Cuts(LoopStart(length), length + added));
            && (cuts == BlocksIn(length + added) - BlocksIn(length) <==> length < TWO_31 - 512)
            && (length >= TWO_31 - 512 ==> left == [])
            && (BitArray.Bits(left) == BitArray.Bits(buffer)[512 * (BlocksIn(length + added) - BlocksIn(length))..] <==>
                length < TWO_31 - 512 || (length + added) % 512 == 0)
  {
    hide And, LoopStart, BitArray.Bits, BitArray.WellFormed;
    LoopStartExactly(length);
    BitArray.LastLength(buffer);
    BitArray.NoBits();
    var right: nat := BlocksIn(length + added) - BlocksIn(length);
    var cuts := Cuts(LoopStart(length), length + added);
    assert |BitArray.Bits(buffer)| - 512 * right == (length + added) % 512;
    if length < TWO_31 - 512 {
      CutsEnough(length, added);
      BitArray.DropWords(buffer, 16 * right);
    } else {
      CutsTooMany(length, added, LoopStart(length));
      assert |buffer| <= 16 * right + 16;
    }
  }

  // ---------- blocks out of a buffer ----------

  lemma FirstBlock(a: seq<int>)
    requires BitArray.WellFormed(a) && |BitArray.Bits(a)| >= 512
    ensures |a| >= 16
    ensures BitArray.RawBits(a[..16]) == BitArray.Bits(a)[..512]
    ensures BitArray.WellFormed(a[16..]) && BitArray.Bits(a[16..]) == BitArray.Bits(a)[512..]
  {
    hide BitArray.Bits, BitArray.RawBits, BitArray.WellFormed;
    BitArray.LastLength(a);
    BitArray.DropWords(a, 16);
    BitArray.RawPrefix(a, 16);
    assert BitArray.RawBits(a)[..512] == BitArray.Bits(a)[..512];
  }

  // The next block leaves the buffer that holds the bits of m from block k on.
  lemma CutBlock(a: seq<int>, m: seq<bool>, k: nat)
    requires BitArray.WellFormed(a) && 512 * (k + 1) <= |m|
    requires BitArray.Bits(a) == m[512 * k..]
    ensures |a| >= 16 && BitArray.WellFormed(a[16..]) && BitArray.Bits(a[16..]) == m[512 * (k + 1)..]
    ensures HashAfter(m, k + 1) == Compress(HashAfter(m, k), BitArray.RawBits(a[..16]))
  {
    hide BitArray.Bits, BitArray.RawBits, BitArray.WellFormed, Compress;
    FirstBlock(a);
    assert m[512 * k..][..512] == m[512 * k..512 * (k + 1)];
    assert m[512 * k..][512..] == m[512 * (k + 1)..];
  }

  lemma Appended(m: seq<bool>, bits: seq<bool>, k: nat)
    requires 512 * k <= |m|
    ensures m[512 * k..] + bits == (m + bits)[512 * k..]
    ensures HashAfter(m + bits, k) == HashAfter(m, k)
  {
    hide Compress;
    HashOfPrefix(m, m + bits, k);
  }

  // ---------- the end of the message ----------

  // Words of zeros up to two words short of a block, then the length in two words: together with
  // the unused bits of the last message word these are the padding of the standard.
  lemma PadWords(tail: seq<bool>, n: seq<int>, zeros: seq<int>, len: nat, hi: int, lo: int)
    requires BitArray.WellFormed(n) && BitArray.Bits(n) == tail + [true]
    requires |tail| == len % 512 && |zeros| <= 15 && (|n| + |zeros| + 2) % 16 == 0
    requires forall k | 0 <= k < |zeros| :: zeros[k] == 0
    requires hi == len / TWO_32 && W(lo) == W(len)
    ensures BitArray.RawBits(n + zeros + [hi] + [lo]) == tail + [true] + Zeros(PadZeros(len)) + BitsOf(len, 64)
  {
    hide BitArray.Bits, BitArray.RawBits, BitArray.WellFormed, BitArray.GetPartial, W, BitsOf, Zeros, PadZeros;
    RawOfFour(n, zeros, hi, lo);
    RawZeros(zeros);
    LengthWords(len);
    BitArray.LastLength(n);
    PadRun(n, tail, |zeros|, len);
    Reassociate(tail + [true], Zeros(32 * |n| - |tail| - 1), Zeros(32 * |zeros|), W(hi), W(lo));
  }

  lemma RawOfFour(n: seq<int>, zeros: seq<int>, hi: int, lo: int)
    ensures BitArray.RawBits(n + zeros + [hi] + [lo]) ==
            BitArray.RawBits(n) + BitArray.RawBits(zeros) + W(hi) + W(lo)
  {
    hide BitArray.RawBits, BitArray.Bits, W;
    var x := n + zeros;
    var y := x + [hi];
    BitArray.RawConcat(n, zeros);
    BitArray.BitsSnoc(x, hi);
    BitArray.BitsSnoc(y, lo);
  }

  // The unused bits of the last message word and the zero words together are the zeros to add.
  lemma PadRun(n: seq<int>, tail: seq<bool>, z: nat, len: nat)
    requires BitArray.WellFormed(n) && BitArray.Bits(n) == tail + [true]
    requires |tail| == len % 512 && z <= 15 && (|n| + z + 2) % 16 == 0
    ensures 0 <= 32 * |n| - |tail| - 1
    ensures BitArray.RawBits(n) == tail + [true] + Zeros(32 * |n| - |tail| - 1)
    ensures Zeros(32 * |n| - |tail| - 1) + Zeros(32 * z) == Zeros(PadZeros(len))
  {
    hide BitArray.Bits, BitArray.RawBits, BitArray.WellFormed, BitArray.GetPartial, W, Zeros, PadZeros;
    BitArray.LastLength(n);
    var k := 32 * |n| - |tail| - 1;
    ZeroRuns(k, 32 * z);
    CountZeros(len, |n|, z, k);
  }

  lemma PadBlock(n: seq<int>, all: seq<bool>, k: nat)
    requires |n| >= 16 && 512 * k <= |all| && BitArray.RawBits(n) == all[512 * k..]
    ensures 512 * (k + 1) <= |all| && BitArray.RawBits(n[16..]) == all[512 * (k + 1)..]
    ensures HashAfter(all, k + 1) == Compress(HashAfter(all, k), BitArray.RawBits(n[..16]))
  {
    hide BitArray.RawBits, Compress;
    BitArray.RawConcat(n[..16], n[16..]);
    assert n[..16] + n[16..] == n;
    BitArray.RawPrefix(n, 16);
    assert all[512 * k..][..512] == all[512 * k..512 * (k + 1)];
    assert all[512 * k..][512..] == all[512 * (k + 1)..];
  }

  lemma PaddedMessage(m: seq<bool>, tail: seq<bool>)
    requires tail == m[512 * BlocksIn(|m|)..]
    ensures |tail| == |m| % 512
    ensures |Pad(m)| == 512 * BlocksIn(|Pad(m)|)
    ensures HashAfter(Pad(m), BlocksIn(|m|)) == HashAfter(m, BlocksIn(|m|))
    ensures tail + [true] + Zeros(PadZeros(|m|)) + BitsOf(|m|, 64) == Pad(m)[512 * BlocksIn(|m|)..]
  {
    hide BitsOf, Zeros, PadZeros, Compress;
    PadFillsBlocks(m);
    HashOfPrefix(m, Pad(m), BlocksIn(|m|));
  }

  lemma Reassociate(a: seq<bool>, b: seq<bool>, c: seq<bool>, d: seq<bool>, e: seq<bool>)
    ensures a + b + c + d + e == a + (b + c) + (d + e)
  {
  }

  lemma ZeroRuns(a: nat, b: nat)
    ensures Zeros(a) + Zeros(b) == Zeros(a + b)
  {
  }

  lemma {:induction false} RawZeros(zeros: seq<int>)
    requires forall k | 0 <= k < |zeros| :: zeros[k] == 0
    ensures BitArray.RawBits(zeros) == Zeros(32 * |zeros|)
  {
    hide BitsOf;
    if zeros != [] {
      RawZeros(zeros[..|zeros| - 1]);
      ZeroBits(32);
      ZeroRuns(32 * (|zeros| - 1), 32);
    }
  }

  lemma LengthWords(len: nat)
    ensures BitsOf(len, 64) == W(len / TWO_32) + W(len)
  {
    hide BitsOf;
    PowValues();
    SplitBits(len, 32, 32);
  }

  lemma CountZeros(len: nat, words: nat, z: nat, k: nat)
    requires z <= 15 && (words + z + 2) % 16 == 0
    requires k == 32 * words - len % 512 - 1 && k < 32
    ensures k + 32 * z == PadZeros(len)
  {
    var q := (words + z + 2) / 16;
    assert words + z + 2 == 16 * q;
    assert k + 32 * z == 512 * q - 65 - len % 512;
  }

  // Zero words still to push when the length with the two length words has reached t words.
  function Gap(t: nat): (g: nat)
    ensures g <= 15 && (g == 0 <==> t % 16 == 0)
  {
    if t % 16 == 0 then 0 else 16 - t % 16
  }

  lemma GapCloses(t: nat)
    requires t % 16 != 0
    ensures Gap(t + 1) == Gap(t) - 1
  {
  }

  lemma StartState(h: seq<int>)
    requires h == INIT
    ensures RegsOf(h) == InitialHash()
    ensures BitArray.WellFormed([]) && BitArray.Bits([]) == []
  {
  }

  class Sha1 {
    var h: array<int>
    var buffer: seq<int>
    var length: nat
    // everything absorbed since the last reset
    ghost var message: seq<bool>

    // The buffer holds exactly the bits after the last complete block, and the hash value is that
    // of the complete blocks.
    ghost predicate Valid()
      reads this, h
    {
      && h.Length == 5 && length == |message|
      && BitArray.WellFormed(buffer)
      && BitArray.Bits(buffer) == message[512 * BlocksIn(|message|)..]
      && RegsOf(h[..]) == HashAfter(message, BlocksIn(|message|))
    }

    constructor ()
      ensures Valid() && message == [] && fresh(h)
    {
      hide BitArray.Bits, BitArray.WellFormed, W;
      h := new int[5](i requires 0 <= i < 5 => INIT[i]);
      buffer, length, message := [], 0, [];
      new;
      StartState(h[..]);
    }

    // A copy shares nothing with the original.
    constructor Copy(other: Sha1)
      requires other.Valid()
      ensures Valid() && message == other.message && fresh(h)
    {
      hide BitArray.Bits, BitArray.WellFormed, HashAfter, W, BlocksIn;
      var words := other.h[..];
      h := new int[5](i requires 0 <= i < 5 => words[i]);
      buffer, length, message := other.buffer, other.length, other.message;
      new;
      assert h[..] == words;
    }

    method Reset()
      modifies this
      ensures Valid() && message == [] && fresh(h)
    {
      hide BitArray.Bits, BitArray.WellFormed, W;
      h := new int[5](i requires 0 <= i < 5 => INIT[i]);
      buffer, length, message := [], 0, [];
      StartState(h[..]);
    }

    method Update(data: seq<int>)
      requires Valid() && BitArray.WellFormed(data) && length < TWO_31 - 512
      modifies this, h
      ensures Valid() && h == old(h)
      ensures message == old(message) + BitArray.Bits(data)
    {
      hide BitArray.Bits, BitArray.RawBits, BitArray.WellFormed, BitArray.BitLength, HashAfter, Compress, And;
      var i := length;
      ghost var k: nat := BlocksIn(i);
      Appended(message, BitArray.Bits(data), k);
      BitArray.BitLengthCounts(data);
      buffer := BitArray.Concat(buffer, data);
      var o := i + BitArray.BitLength(data);
      length := o;
      message := message + BitArray.Bits(data);
      LoopStartExactly(i);
      var n := LoopStart(i);
      while o >= n
        invariant n == 512 * (k + 1) && 512 * k <= o && h == old(h) && h.Length == 5
        invariant length == o == |message| && message == old(message) + BitArray.Bits(data)
        invariant BitArray.WellFormed(buffer) && BitArray.Bits(buffer) == message[512 * k..]
        invariant RegsOf(h[..]) == HashAfter(message, k)
      {
        CutBlock(buffer, message, k);
        Block(buffer[..16]);
        buffer := buffer[16..];
        n := n + 512;
        k := k + 1;
      }
      assert k == BlocksIn(|message|);
    }

    // _block
    method Block(words: seq<int>)
      requires |words| == 16 && h.Length == 5
      modifies h
      ensures RegsOf(h[..]) == Compress(old(RegsOf(h[..])), BitArray.RawBits(words))
    {
      hide W, Schedule, Xor, RotateLeft, Mix, Or, Plus, Round, BitArray.RawBits;
      ghost var bits := BitArray.RawBits(words);
      ghost var start := RegsOf(h[..]);
      FirstWords(words);
      var l := words;
      var a, b, c, d, e := h[0], h[1], h[2], h[3], h[4];
      var t := 0;
      while 79 >= t
        invariant 0 <= t <= 80 && |l| == (if t < 16 then 16 else t) && h[..] == old(h[..])
        invariant forall j | 0 <= j < |l| :: W(l[j]) == Schedule(bits, j)
        invariant Regs(W(a), W(b), W(c), W(d), W(e)) == Rounds(bits, t, start)
      {
        if t >= 16 {
          ScheduleWord(bits, t, l);
          l := l + [RotateLeft(1, Xor(Xor(Xor(l[t - 3], l[t - 8]), l[t - 14]), l[t - 16]))];
        }
        var n := Or(0, RotateLeft(5, a) + Mix(t, b, c, d) + e + l[t] + KEY[t / 20]);
        RoundWord(bits, t, Rounds(bits, t, start), a, b, c, d, e, l[t], n);
        e := d;
        d := c;
        c := RotateLeft(30, b);
        b := a;
        a := n;
        t := t + 1;
      }
      FoldWord(h[0], a);
      FoldWord(h[1], b);
      FoldWord(h[2], c);
      FoldWord(h[3], d);
      FoldWord(h[4], e);
      h[0] := Or(0, h[0] + a);
      h[1] := Or(0, h[1] + b);
      h[2] := Or(0, h[2] + c);
      h[3] := Or(0, h[3] + d);
      h[4] := Or(0, h[4] + e);
    }

    // The first half of finalize: the words of the blocks that are still to be hashed.
    static method PaddedTail(buffer: seq<int>, length: nat, ghost tail: seq<bool>) returns (n: seq<int>)
      requires BitArray.WellFormed(buffer) && BitArray.Bits(buffer) == tail && |tail| == length % 512
      ensures |n| % 16 == 0
      ensures BitArray.RawBits(n) == tail + [true] + Zeros(PadZeros(length)) + BitsOf(length, 64)
    {
      hide BitArray.Bits, BitArray.RawBits, BitArray.WellFormed, Or, W, Zeros, PadZeros, BitsOf, Gap;
      OneBit();
      n := BitArray.Concat(buffer, [BitArray.Partial(1, 1, false)]);
      ghost var start := n;
      ghost var zeros: seq<int> := [];
      var t := |n| + 2;
      while t % 16 != 0
        invariant n == start + zeros && t == |n| + 2 && forall k | 0 <= k < |zeros| :: zeros[k] == 0
        invariant |zeros| + Gap(t) <= 15
        decreases Gap(t)
      {
        GapCloses(t);
        n, zeros := n + [0], zeros + [0];
        t := t + 1;
      }
      n := n + [length / TWO_32];
      n := n + [Or(0, length)];
      BitArray.DropTag(length);
      PadWords(tail, start, zeros, length, length / TWO_32, Or(0, length));
    }

    // The digest is the hash value of the padded message; the object is then reset, and its new
    // state does not share the digest's array.
    method Finalize() returns (digest: array<int>)
      requires Valid()
      modifies this, h
      ensures digest.Length == 5 && RegsOf(digest[..]) == Fips180.Sha1(old(message))
      ensures Valid() && message == [] && digest == old(h) && fresh(h)
    {
      hide BitArray.Bits, BitArray.RawBits, BitArray.WellFormed, HashAfter, Compress, Zeros, PadZeros, BitsOf;
      ghost var tail := message[512 * BlocksIn(|message|)..];
      ghost var padded := Pad(message);
      PaddedMessage(message, tail);
      var n := PaddedTail(buffer, length, tail);
      ghost var k: nat := BlocksIn(|message|);
      while |n| != 0
        invariant |n| % 16 == 0 && h == old(h) && h.Length == 5 && message == old(message)
        invariant 512 * k <= |padded| && BitArray.RawBits(n) == padded[512 * k..]
        invariant RegsOf(h[..]) == HashAfter(padded, k)
      {
        PadBlock(n, padded, k);
        Block(n[..16]);
        n := n[16..];
        k := k + 1;
      }
      assert k == BlocksIn(|padded|);
      digest := h;
      Reset();
    }

    // hash: everything at once.
    static method Hash(data: seq<int>) returns (digest: array<int>)
      requires BitArray.WellFormed(data)
      ensures fresh(digest) && digest.Length == 5
      ensures RegsOf(digest[..]) == Fips180.Sha1(BitArray.Bits(data))
    {
      var s := new Sha1();
      s.Update(data);
      assert s.message == BitArray.Bits(data);
      digest := s.Finalize();
    }

    // Any split of a message into chunks gives the hash of the whole message.
    static method HashChunks(chunks: seq<seq<int>>) returns (digest: array<int>)
      requires forall c | c in chunks :: BitArray.WellFormed(c)
      requires forall k | 0 <= k < |chunks| :: |AllBits(chunks[..k])| < TWO_31 - 512
      ensures fresh(digest) && digest.Length == 5
      ensures RegsOf(digest[..]) == Fips180.Sha1(AllBits(chunks))
    {
      hide BitArray.Bits, BitArray.WellFormed, HashAfter, Fips180.Sha1, BlocksIn;
      var s := new Sha1();
      for k := 0 to |chunks|
        invariant s.Valid() && fresh(s) && fresh(s.h) && s.message == AllBits(chunks[..k])
      {
        assert chunks[..k + 1][..k] == chunks[..k];
        s.Update(chunks[k]);
      }
      assert chunks[..|chunks|] == chunks;
      digest := s.Finalize();
    }
  }

  function AllBits(chunks: seq<seq<int>>): seq<bool> {
    if chunks == [] then [] else AllBits(chunks[..|chunks| - 1]) + BitArray.Bits(chunks[|chunks| - 1])
  }

  lemma OneBit()
    ensures var p := BitArray.Partial(1, 1, false);
            BitArray.WellFormed([p]) && BitArray.Bits([p]) == [true]
  {
    hide BitArray.Partial, BitArray.IsWord, BitArray.IsFull, BitArray.WordBits, BitArray.GetPartial;
    var p := BitArray.Partial(1, 1, false);
    BitArray.PartialFromLow(1, 1);
    SplitBits(1, 31, 1);
    assert W(1)[31..] == BitsOf(1, 1) == [true];
    BitArray.BitsSnoc([], p);
    assert [] + [p] == [p];
  }
}
