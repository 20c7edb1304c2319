/**
 Arrays of bits packed into numbers, 32 to a word.  The last word may be partial: its bits stand at
 the top of the low 32 bits of the number, and their count is added in above bit 40.
 */
module BitArray {
  import opened Common
  import opened JsBits

  const TWO_39: int := 0x80_0000_0000

  // Math.round(x / 2^40) || 32
  function GetPartial(x: int): int {
    var tag := (x + TWO_39) / TWO_40;
    if tag == 0 then 32 else tag
  }

  // `end` says that the bits of x already stand at the top of the word.
  function Partial(len: int, x: int, end: bool): int {
    if len == 32 then x
    else (if end then ToInt32(x) else Shl(x, 32 - len)) + TWO_40 * len
  }

  predicate IsFull(w: int) { -TWO_31 <= w < TWO_32 }

  ghost predicate Tagged(w: int, len: int) {
    && 1 <= len <= 31 && -TWO_31 <= w - TWO_40 * len < TWO_31
    && W(w)[len..] == Zeros(32 - len)
  }

  // A word as the library makes them: a full one, or a tagged one with zeros below its bits.
  ghost predicate IsWord(w: int) { IsFull(w) || exists len :: Tagged(w, len) }

  ghost predicate AllFull(a: seq<int>) {
    forall k | 0 <= k < |a| :: IsFull(a[k])
  }

  ghost predicate WellFormed(a: seq<int>) {
    && (forall k | 0 <= k < |a| - 1 :: IsFull(a[k]))
    && (a != [] ==> IsWord(a[|a| - 1]))
  }

  // ---------- the bits an array stands for ----------

  function WordBits(w: int): (bs: seq<bool>) {
    if 0 <= GetPartial(w) <= 32 then W(w)[..GetPartial(w)] else W(w)
  }

  function Bits(a: seq<int>): seq<bool> {
    if a == [] then [] else Bits(a[..|a| - 1]) + WordBits(a[|a| - 1])
  }

  // All 32 bits of every word.
  function RawBits(a: seq<int>): (bs: seq<bool>)
    ensures |bs| == 32 * |a|
  {
    if a == [] then [] else RawBits(a[..|a| - 1]) + W(a[|a| - 1])
  }

  // ---------- tags ----------

  lemma TagQuotient(v: int, len: int)
    requires -TWO_39 <= v < TWO_39
    ensures (v + TWO_40 * len + TWO_39) / TWO_40 == len
  {
    ModUnique(v + TWO_40 * len + TWO_39, TWO_40, len, v + TWO_39);
  }

  // The length tag is read back for every length from 1 to 32; length 0 reads as 32.
  lemma TagRecovered(len: int, x: int, end: bool)
    requires 0 <= len <= 32
    requires len == 32 ==> IsFull(x)
    ensures GetPartial(Partial(len, x, end)) == (if len == 0 then 32 else len)
    ensures GetPartial(Partial(len, x, end)) == len <==> len != 0
    ensures len < 32 ==> -2147483648 <= Partial(len, x, end) - 1099511627776 * len < 2147483648
  {
    WordOfInt32(x);
    if len == 32 {
      TagQuotient(x, 0);
    } else {
      TagQuotient(Partial(len, x, end) - TWO_40 * len, len);
    }
  }

  lemma TagInvisible(v: int, len: int)
    ensures W(v + TWO_40 * len) == W(v)
  {
    AddMultiple(v, TWO_32, 256 * len);
    SameWord(v + TWO_40 * len, v);
  }

  lemma FullWordBits(w: int)
    requires IsFull(w)
    ensures GetPartial(w) == 32 && WordBits(w) == W(w)
  {
    TagQuotient(w, 0);
  }

  lemma TopTagged(v: int, len: int)
    requires 1 <= len <= 31 && -TWO_31 <= v < TWO_31 && W(v)[len..] == Zeros(32 - len)
    ensures var p := v + TWO_40 * len;
            IsWord(p) && GetPartial(p) == len && WordBits(p) == W(v)[..len] && W(p) == W(v)
  {
    hide W, Zeros;
    TagInvisible(v, len);
    TagQuotient(v, len);
    assert Tagged(v + TWO_40 * len, len);
  }

  // A word made from bits that stand at the top, with zeros below.
  lemma PartialAtTop(len: int, x: int)
    requires 1 <= len <= 31 && W(x)[len..] == Zeros(32 - len)
    ensures var p := Partial(len, x, true);
            IsWord(p) && GetPartial(p) == len && WordBits(p) == W(x)[..len] && W(p) == W(x)
  {
    WordOfInt32(x);
    TopTagged(ToInt32(x), len);
  }

  lemma PartialZero(x: int)
    ensures var p := Partial(0, x, true);
            IsFull(p) && GetPartial(p) == 32 && WordBits(p) == W(x) && W(p) == W(x)
  {
    WordOfInt32(x);
    FullWordBits(ToInt32(x));
  }

  lemma LowBitsMoved(len: int, x: int)
    requires 1 <= len <= 31
    ensures var v := Shl(x, 32 - len);
            W(v)[..len] == W(x)[32 - len..] && W(v)[len..] == Zeros(32 - len) && -TWO_31 <= v < TWO_31
  {
    var w, z := W(x)[32 - len..], Zeros(32 - len);
    assert Count(32 - len) == 32 - len;
    assert (w + z)[..len] == w && (w + z)[len..] == z;
  }

  // A word made from the len low bits of x.
  lemma PartialFromLow(len: int, x: int)
    requires 1 <= len <= 31
    ensures var p := Partial(len, x, false);
            IsWord(p) && GetPartial(p) == len && WordBits(p) == W(x)[32 - len..]
  {
    hide Shl, W, Zeros, GetPartial, WordBits, IsWord, ToInt32;
    LowBitsMoved(len, x);
    TopTagged(Shl(x, 32 - len), len);
  }

  lemma WordParts(w: int)
    requires IsWord(w)
    ensures 1 <= GetPartial(w) <= 32 && |WordBits(w)| == GetPartial(w)
    ensures W(w) == WordBits(w) + Zeros(32 - GetPartial(w))
  {
    if IsFull(w) {
      FullWordBits(w);
    } else {
      var len :| Tagged(w, len);
      TagQuotient(w - TWO_40 * len, len);
    }
  }

  // ---------- bits of concatenations ----------

  lemma {:induction false} BitsConcat(a: seq<int>, b: seq<int>)
    ensures Bits(a + b) == Bits(a) + Bits(b)
  {
    hide WordBits, GetPartial, W;
    if b == [] {
      assert a + b == a;
    } else {
      assert (a + b)[..|a + b| - 1] == a + b[..|b| - 1];
      BitsConcat(a, b[..|b| - 1]);
    }
  }

  lemma {:induction false} RawConcat(a: seq<int>, b: seq<int>)
    ensures RawBits(a + b) == RawBits(a) + RawBits(b)
  {
    hide WordBits, GetPartial, W;
    if b == [] {
      assert a + b == a;
    } else {
      assert (a + b)[..|a + b| - 1] == a + b[..|b| - 1];
      RawConcat(a, b[..|b| - 1]);
    }
  }

  lemma BitsSnoc(a: seq<int>, w: int)
    ensures Bits(a + [w]) == Bits(a) + WordBits(w)
    ensures RawBits(a + [w]) == RawBits(a) + W(w)
  {
    hide WordBits, GetPartial, W;
    assert (a + [w])[..|a + [w]| - 1] == a;
  }

  lemma {:induction false} FullBits(a: seq<int>)
    requires AllFull(a)
    ensures Bits(a) == RawBits(a) && WellFormed(a)
  {
    if a != [] {
      FullBits(a[..|a| - 1]);
      FullWordBits(a[|a| - 1]);
    }
  }

  // In a well-formed array only the last word has unused bits, and they are zero.
  lemma RawIsPadded(a: seq<int>)
    requires WellFormed(a) && a != []
    ensures var len := GetPartial(a[|a| - 1]);
            && 1 <= len <= 32 && |Bits(a)| == 32 * (|a| - 1) + len
            && RawBits(a) == Bits(a) + Zeros(32 - len)
  {
    FullBits(a[..|a| - 1]);
    WordParts(a[|a| - 1]);
  }

  // ---------- operations ----------

  function BitLength(a: seq<int>): int {
    if |a| == 0 then 0 else 32 * (|a| - 1) + GetPartial(a[|a| - 1])
  }

  lemma BitLengthCounts(a: seq<int>)
    requires WellFormed(a)
    ensures BitLength(a) == |Bits(a)|
  {
    if a != [] {
      RawIsPadded(a);
    }
  }

  // The bits that a carry of `shift` bits puts in front.
  function CarryBits(carry: int, shift: nat): seq<bool> {
    if shift <= 32 then W(carry)[..shift] else W(carry) + Zeros(shift - 32)
  }

  ghost predicate CleanCarry(carry: int, shift: nat) {
    IsFull(carry) && (shift < 32 ==> W(carry)[shift..] == Zeros(32 - shift))
  }

  lemma ShiftSeq(c: Word, w: Word, u: Word, s: Word, n: nat)
    requires 1 <= n <= 31 && c[n..] == Zeros(32 - n)
    requires u == Zeros(n) + w[..32 - n] && s == w[32 - n..] + Zeros(32 - n)
    ensures c[..n] + w == OrW(c, u) + s[..n] && s[n..] == Zeros(32 - n)
  {
    forall i | 0 <= i < 32
      ensures OrW(c, u)[i] == (c[..n] + w)[i]
    {
      assert i >= n ==> c[i] == c[n..][i - n];
    }
  }

  // One word of the shifting loop: the carried bits come first, and the low bits are carried on.
  lemma ShiftWord(carry: int, w: int, n: nat)
    requires 1 <= n <= 31 && CleanCarry(carry, n)
    ensures W(carry)[..n] + W(w) == W(Or(carry, Ushr(w, n))) + W(Shl(w, 32 - n))[..n]
    ensures IsFull(Or(carry, Ushr(w, n))) && CleanCarry(Shl(w, 32 - n), n)
  {
    ShiftSeq(W(carry), W(w), W(Ushr(w, n)), W(Shl(w, 32 - n)), n);
  }

  // Trailing zeros that are not longer than the last part of a concatenation.
  lemma TrimZeros(x: seq<bool>, y: seq<bool>, z: seq<bool>, q: nat)
    requires x + y == z + Zeros(q) && q <= |y|
    ensures x + y[..|y| - q] == z && y[|y| - q..] == Zeros(q)
  {
    assert (x + y)[..|z|] == z;
    assert (x + y)[|z|..] == Zeros(q);
    assert y[|y| - q..] == (x + y)[|z|..];
  }

  // Bits that end in the carry, or in the word before it.
  lemma EndsInCarry(raw: seq<bool>, c: Word, n: nat, len: nat, lead: seq<bool>)
    requires 1 <= n <= 31 && 1 <= len <= 32 && n + len > 32 && c[n..] == Zeros(32 - n)
    requires raw + c[..n] == lead + Zeros(32 - len)
    ensures var k := n + len - 32; raw + c[..k] == lead && c[k..] == Zeros(32 - k)
  {
    var k := n + len - 32;
    TrimZeros(raw, c[..n], lead, 32 - len);
    assert c[..n][..k] == c[..k];
    assert c[k..] == c[..n][k..] + c[n..];
  }

  lemma EndsInWord(raw: seq<bool>, w: Word, c: Word, n: nat, len: nat, lead: seq<bool>)
    requires 1 <= n <= 31 && 1 <= len <= 32 && n + len <= 32
    requires raw + w + c[..n] == lead + Zeros(32 - len)
    ensures raw + w[..n + len] == lead && w[n + len..] == Zeros(32 - n - len)
  {
    var y := w + c[..n];
    assert raw + y == raw + w + c[..n];
    TrimZeros(raw, y, lead, 32 - len);
    assert y[..n + len] == w[..n + len];
    assert w[n + len..] == y[n + len..][..32 - n - len];
  }

  lemma WithLast(out: seq<int>, p: int, bits: seq<bool>)
    requires AllFull(out) && IsWord(p) && WordBits(p) == bits
    ensures WellFormed(out + [p]) && Bits(out + [p]) == RawBits(out) + bits
  {
    BitsSnoc(out, p);
    FullBits(out);
  }

  // The shifted bits end in the carry: it becomes the partial last word.
  lemma ShiftEndsInCarry(out: seq<int>, r: int, n: nat, len: nat, lead: seq<bool>)
    requires 1 <= n <= 31 && 1 <= len <= 32 && n + len > 32 && AllFull(out) && CleanCarry(r, n)
    requires RawBits(out) + W(r)[..n] == lead + Zeros(32 - len)
    ensures var res := out + [Partial((n + len) % 32, r, true)];
            WellFormed(res) && Bits(res) == lead
  {
    hide IsWord, Partial, WordBits, RawBits, Bits, W, WellFormed, Zeros;
    var k := n + len - 32;
    EndsInCarry(RawBits(out), W(r), n, len, lead);
    PartialAtTop(k, r);
    WithLast(out, Partial(k, r, true), W(r)[..k]);
  }

  // The shifted bits end in the word pushed last: it is popped and tagged.
  lemma ShiftEndsInWord(front: seq<int>, last: int, r: int, n: nat, len: nat, lead: seq<bool>)
    requires 1 <= n <= 31 && 1 <= len <= 32 && n + len <= 32 && AllFull(front)
    requires RawBits(front + [last]) + W(r)[..n] == lead + Zeros(32 - len)
    ensures var res := front + [Partial((n + len) % 32, last, true)];
            WellFormed(res) && Bits(res) == lead
  {
    hide IsWord, Partial, WordBits, RawBits, Bits, W, WellFormed, Zeros;
    BitsSnoc(front, last);
    EndsInWord(RawBits(front), W(last), W(r), n, len, lead);
    if n + len == 32 {
      PartialZero(last);
      assert W(last)[..32] == W(last);
      WithLast(front, Partial(0, last, true), W(last));
    } else {
      PartialAtTop(n + len, last);
      WithLast(front, Partial(n + len, last, true), W(last)[..n + len]);
    }
  }

  lemma Regroup(x: seq<bool>, c: seq<bool>, w: seq<bool>, lead: seq<bool>, y: seq<bool>, p: seq<bool>, q: seq<bool>)
    requires x + c == lead + y && c + w == p + q
    ensures x + p + q == lead + (y + w)
  {
    assert x + p + q == x + (p + q);
    assert x + (c + w) == (x + c) + w;
  }

  lemma ShiftStep(out: seq<int>, r: int, n: nat, a: seq<int>, o: nat, lead: seq<bool>)
    requires 1 <= n <= 31 && o < |a| && AllFull(out) && CleanCarry(r, n)
    requires RawBits(out) + W(r)[..n] == lead + RawBits(a[..o])
    ensures var r', out' := Shl(a[o], 32 - n), out + [Or(r, Ushr(a[o], n))];
            && AllFull(out') && CleanCarry(r', n)
            && RawBits(out') + W(r')[..n] == lead + RawBits(a[..o + 1])
  {
    hide Ushr, Or, Shl, CleanCarry, RawBits, Bits, W;
    ShiftWord(r, a[o], n);
    assert a[..o + 1] == a[..o] + [a[o]];
    BitsSnoc(a[..o], a[o]);
    BitsSnoc(out, Or(r, Ushr(a[o], n)));
    Regroup(RawBits(out), W(r)[..n], W(a[o]), lead, RawBits(a[..o]),
            W(Or(r, Ushr(a[o], n))), W(Shl(a[o], 32 - n))[..n]);
  }

  // Appends to `front` the `shift` bits carried in `carry` and then the array `a`.
  method ShiftRight(a: seq<int>, shift: nat, carry: int, front: seq<int>) returns (out: seq<int>)
    requires WellFormed(a) && CleanCarry(carry, shift) && AllFull(front)
    ensures WellFormed(out)
    ensures Bits(out) == Bits(front) + CarryBits(carry, shift) + Bits(a)
  {
    hide Ushr, Or, Shl, CleanCarry, IsWord, Partial, WordBits, Bits, RawBits, WellFormed, GetPartial, W;
    var n: nat, r := shift, carry;
    out := front;
    while n >= 32
      invariant CleanCarry(r, n) && AllFull(out)
      invariant Bits(out) + CarryBits(r, n) == Bits(front) + CarryBits(carry, shift)
    {
      CarryWord(out, r, n);
      out := out + [r];
      r, n := 0, n - 32;
    }
    ghost var lead := Bits(out) + CarryBits(r, n);
    if n == 0 {
      JoinFull(out, a);
      return out + a;
    }
    var o := 0;
    FullBits(out);
    NoBits();
    while o < |a|
      invariant 0 <= o <= |a| && (o > 0 ==> out != [])
      invariant CleanCarry(r, n) && AllFull(out)
      invariant RawBits(out) + W(r)[..n] == lead + RawBits(a[..o])
    {
      ShiftStep(out, r, n, a, o, lead);
      out := out + [Or(r, Ushr(a[o], n))];
      r := Shl(a[o], 32 - n);
      o := o + 1;
    }
    assert a[..o] == a;
    var last := if |a| != 0 then a[|a| - 1] else 0;
    var len := GetPartial(last);
    LastLength(a);
    // 31 & n + len is (n + len) % 32
    if n + len > 32 {
      ShiftEndsInCarry(out, r, n, len, lead + Bits(a));
      out := out + [Partial((n + len) % 32, r, true)];
    } else {
      assert out == out[..|out| - 1] + [out[|out| - 1]];
      ShiftEndsInWord(out[..|out| - 1], out[|out| - 1], r, n, len, lead + Bits(a));
      out := out[..|out| - 1] + [Partial((n + len) % 32, out[|out| - 1], true)];
    }
  }

  lemma NoBits()
    ensures Bits([]) == [] && RawBits([]) == []
  {
  }

  lemma JoinFull(out: seq<int>, a: seq<int>)
    requires AllFull(out) && WellFormed(a)
    ensures WellFormed(out + a) && Bits(out + a) == Bits(out) + Bits(a)
  {
    BitsConcat(out, a);
  }

  lemma LastLength(a: seq<int>)
    requires WellFormed(a)
    ensures var len := GetPartial(if |a| != 0 then a[|a| - 1] else 0);
            && 1 <= len <= 32 && (a == [] ==> len == 32)
            && RawBits(a) == Bits(a) + Zeros(32 - len)
  {
    if a != [] {
      RawIsPadded(a);
    }
  }

  lemma CarryWord(out: seq<int>, r: int, n: nat)
    requires n >= 32 && CleanCarry(r, n)
    ensures IsFull(r)
    ensures Bits(out + [r]) + CarryBits(0, n - 32) == Bits(out) + CarryBits(r, n)
    ensures CleanCarry(0, n - 32)
  {
    hide Bits, WordBits, GetPartial, IsWord;
    FullWordBits(r);
    BitsSnoc(out, r);
    ZeroBits(32);
  }

  method Concat(a: seq<int>, b: seq<int>) returns (r: seq<int>)
    requires WellFormed(a) && WellFormed(b)
    ensures WellFormed(r)
    ensures Bits(r) == Bits(a) + Bits(b)
  {
    BitsConcat(a, b);
    if |a| == 0 || |b| == 0 {
      assert |b| == 0 ==> a + b == a;
      return a + b;
    }
    var last := a[|a| - 1];
    var len := GetPartial(last);
    WordParts(last);
    FullBits(a[..|a| - 1]);
    if len == 32 {
      r := a + b;
    } else {
      // 0 | last drops the tag
      DropTag(last);
      r := ShiftRight(b, len, Or(0, last), a[..|a| - 1]);
    }
  }

  lemma DropTag(w: int)
    ensures W(Or(0, w)) == W(w) && IsFull(Or(0, w))
  {
    ZeroBits(32);
  }

  // The first n bits, when there are that many.  Beyond the end, an n that is not a multiple of 32
  // and stays within the last word makes up the missing bits with zeros, and any other n changes
  // nothing.
  function FirstBits(x: seq<bool>, n: nat): seq<bool> {
    if n <= |x| then x[..n]
    else if n <= 32 * ((|x| + 31) / 32) && n % 32 != 0 then x + Zeros(n - |x|)
    else x
  }

  ghost function Clamped(a: seq<int>, n: nat): seq<bool> {
    if n <= |Bits(a)| then Bits(a)[..n]
    else if n <= 32 * |a| && n % 32 != 0 then Bits(a) + Zeros(n - |Bits(a)|)
    else Bits(a)
  }

  lemma ClampedIsFirst(a: seq<int>, n: nat)
    requires WellFormed(a)
    ensures Clamped(a, n) == FirstBits(Bits(a), n) && |a| == (|Bits(a)| + 31) / 32
  {
    LastLength(a);
    hide Bits, WellFormed;
    assert |a| == (|Bits(a)| + 31) / 32;
  }

  lemma RawPrefix(a: seq<int>, k: nat)
    requires k <= |a|
    ensures RawBits(a[..k]) == RawBits(a)[..32 * k]
  {
    hide Bits, WordBits, GetPartial, W;
    RawConcat(a[..k], a[k..]);
    assert a[..k] + a[k..] == a;
  }

  lemma MaskSeq(w: Word, top: Word, k: nat, mask: Word)
    requires k < 32 && top == [true] + Zeros(31) && mask == seq(k, _ => top[0]) + top[..32 - k]
    ensures AndW(w, mask)[..k + 1] == w[..k + 1] && AndW(w, mask)[k + 1..] == Zeros(31 - k)
  {
    assert forall i | 0 <= i < 32 :: mask[i] == (i <= k);
  }

  // Masking a word and tagging it keeps its first m bits.
  lemma MaskedWord(w: int, m: nat)
    requires 1 <= m <= 31
    ensures var p := Partial(m, And(w, Sshr(TWO_31, m - 1)), true);
            IsWord(p) && WordBits(p) == W(w)[..m]
  {
    hide Partial, IsWord, WordBits, W, FromWord;
    Sign31();
    MaskSeq(W(w), W(TWO_31), m - 1, W(Sshr(TWO_31, m - 1)));
    PartialAtTop(m, And(w, Sshr(TWO_31, m - 1)));
  }

  lemma PadPrefix(x: seq<bool>, k: nat, n: nat)
    requires n <= |x| + k
    ensures (x + Zeros(k))[..n] == if n <= |x| then x[..n] else x + Zeros(n - |x|)
  {
    if n <= |x| {
      assert (x + Zeros(k))[..n] == x[..n];
    } else {
      assert Zeros(k)[..n - |x|] == Zeros(n - |x|);
      assert (x + Zeros(k))[..n] == x + Zeros(k)[..n - |x|];
    }
  }

  lemma ClampedIsRaw(a: seq<int>, n: nat)
    requires WellFormed(a) && n <= 32 * |a| && (n % 32 != 0 || n < 32 * |a|)
    ensures Clamped(a, n) == RawBits(a)[..n]
  {
    hide RawBits, Bits, W, Zeros, WellFormed, GetPartial;
    LastLength(a);
    if |Bits(a)| < n {
      InLastWord(n, |a|, |Bits(a)|);
    }
    PadPrefix(Bits(a), 32 * |a| - |Bits(a)|, n);
  }

  lemma InLastWord(n: nat, words: nat, len: nat)
    requires 32 * words - 32 < len < n <= 32 * words && (n % 32 != 0 || n < 32 * words)
    ensures n % 32 != 0
  {
  }

  lemma TakeInto(x: seq<bool>, w: Word, m: nat)
    requires m <= 32
    ensures (x + w)[..|x| + m] == x + w[..m]
  {
  }

  lemma RawTakeInto(front: seq<int>, last: int, m: nat)
    requires m <= 32
    ensures RawBits(front + [last])[..32 * |front| + m] == RawBits(front) + W(last)[..m]
  {
    hide RawBits, Bits, WordBits, GetPartial, W;
    BitsSnoc(front, last);
    TakeInto(RawBits(front), W(last), m);
  }

  lemma ReplaceLast(front: seq<int>, last: int, m: nat, p: int)
    requires AllFull(front) && m <= 32 && IsWord(p) && WordBits(p) == W(last)[..m]
    ensures WellFormed(front + [p])
    ensures Bits(front + [p]) == RawBits(front + [last])[..32 * |front| + m]
  {
    hide RawBits, Bits, W, Zeros, IsWord, WordBits, WellFormed;
    RawTakeInto(front, last, m);
    WithLast(front, p, W(last)[..m]);
  }

  lemma PrefixFull(a: seq<int>, k: nat)
    requires WellFormed(a) && k < |a|
    ensures AllFull(a[..k])
  {
  }

  lemma ClampMasked(a: seq<int>, k: nat, m: nat, front: seq<int>, last: int, p: int)
    requires WellFormed(a) && k < |a| && 1 <= m <= 31
    requires front == a[..k] && last == a[k]
    requires p == Partial(m, And(last, Sshr(TWO_31, m - 1)), true)
    ensures WellFormed(front + [p])
    ensures Bits(front + [p]) == Clamped(a, 32 * k + m)
  {
    hide RawBits, Bits, W, Zeros, Partial, And, Sshr, IsWord, WordBits, GetPartial, WellFormed;
    hide IsFull, AllFull, Clamped;
    PrefixFull(a, k);
    MaskedWord(last, m);
    ReplaceLast(front, last, m, p);
    ClampedIsRaw(a, 32 * k + m);
    assert front + [last] == a[..k + 1];
    RawPrefix(a, k + 1);
    assert RawBits(a)[..32 * (k + 1)][..32 * k + m] == RawBits(a)[..32 * k + m];
  }

  lemma ClampWhole(a: seq<int>, k: nat)
    requires WellFormed(a) && k <= |a|
    ensures WellFormed(a[..k]) && Bits(a[..k]) == Clamped(a, 32 * k)
  {
    hide RawBits, Bits, W, Zeros, WordBits, GetPartial, WellFormed, IsFull, AllFull;
    if k < |a| {
      RawPrefix(a, k);
      ClampedIsRaw(a, 32 * k);
      PrefixFull(a, k);
      FullBits(a[..k]);
    } else {
      assert a[..k] == a;
      LastLength(a);
    }
  }

  // The length that clamp cuts to: a negative one takes away whole words and bits of the last word
  // that is left, as if every word were full, and nothing is left when it is above -32.
  function CutLength(words: nat, n: int): nat {
    if n >= 0 then n else if n > -32 || 32 * words + n < 0 then 0 else 32 * words + n
  }

  // The words that slice(0, ceil(n / 32)) keeps.
  function WordsKept(words: nat, n: int): (k: nat)
    requires n <= 32 * words
    ensures k <= words
  {
    if n >= 0 then (n + 31) / 32 else if words - (-n) / 32 < 0 || n > -32 then 0 else words - (-n) / 32
  }

  lemma CutIsKept(words: nat, n: int)
    requires n <= 32 * words
    ensures var len := CutLength(words, n);
            && WordsKept(words, n) == (len + 31) / 32 && len <= 32 * words
            && (WordsKept(words, n) > 0 ==> len % 32 == n % 32)
  {
    if n < 0 {
      var q, r := (-n) / 32, (-n) % 32;
      assert -n == 32 * q + r && 0 <= r < 32;
      if n <= -32 && words - q > 0 {
        var len := 32 * (words - q) - r;
        assert CutLength(words, n) == len == 32 * words + n;
        ModUnique(len + 31, 32, words - q, 31 - r);
        ModUnique(len, 32, if r == 0 then words - q else words - q - 1, if r == 0 then 0 else 32 - r);
        ModUnique(n, 32, if r == 0 then -q else -q - 1, if r == 0 then 0 else 32 - r);
      }
    }
  }

  // What is left of bits x that fill the given words, for every length: the first n bits; beyond the
  // end zeros up to n if n cuts the last word, and otherwise all of x; for a negative n what is
  // above -n from the end of the words, and nothing when n is above -32.
  lemma CutPlainly(x: seq<bool>, words: nat, n: int)
    requires words == (|x| + 31) / 32
    ensures var r := FirstBits(x, CutLength(words, n));
            && (0 <= n <= |x| ==> r == x[..n])
            && (|x| < n <= 32 * words && n % 32 != 0 ==> r == x + seq(n - |x|, _ => false))
            && (|x| < n && (n % 32 == 0 || n > 32 * words) ==> r == x)
            && (-32 < n < 0 ==> r == [])
            && (n <= -32 && 32 * words + n <= 0 ==> r == [])
            && (n <= -32 && 0 < 32 * words + n <= |x| ==> r == x[..32 * words + n])
            && (n <= -32 ==> 32 * words + n <= |x|)
  {
    assert |x| < n ==> Zeros(n - |x|) == seq(n - |x|, _ => false);
  }

  // What clamp leaves, whatever the length it is asked for.
  lemma ClampedPlainly(a: seq<int>, n: int)
    requires WellFormed(a)
    ensures var x, r := Bits(a), Clamped(a, CutLength(|a|, n));
            && (0 <= n <= |x| ==> r == x[..n])
            && (|x| < n <= 32 * |a| && n % 32 != 0 ==> r == x + seq(n - |x|, _ => false))
            && (|x| < n && (n % 32 == 0 || n > 32 * |a|) ==> r == x)
            && (n < 0 && (n > -32 || 32 * |a| + n <= 0) ==> r == [])
            && (n <= -32 && 0 < 32 * |a| + n ==> 32 * |a| + n <= |x| && r == x[..32 * |a| + n])
  {
    ClampedIsFirst(a, CutLength(|a|, n));
    hide Bits, WellFormed, FirstBits, CutLength, Clamped;
    CutPlainly(Bits(a), |a|, n);
  }

  method Clamp(a: seq<int>, n: int) returns (r: seq<int>)
    requires WellFormed(a)
    ensures WellFormed(r)
    ensures Bits(r) == Clamped(a, CutLength(|a|, n))
    ensures 0 <= n <= |Bits(a)| ==> Bits(r) == Bits(a)[..n]
  {
    hide Clamped, RawBits, Bits, W, Zeros, Partial, And, Sshr, IsWord, WordBits, GetPartial, WellFormed;
    ClampedPlainly(a, n);
    if n > 32 * |a| {
      LastLength(a);
      return a;
    }
    CutIsKept(|a|, n);
    ghost var len := CutLength(|a|, n);
    r := a[..WordsKept(|a|, n)];
    var m := n % 32;
    hide CutLength, WordsKept;
    if |r| > 0 && m != 0 {
      var last := r[|r| - 1];
      var p := Partial(m, And(last, Sshr(TWO_31, m - 1)), true);
      ClampMasked(a, len / 32, m, r[..|r| - 1], last, p);
      r := r[..|r| - 1] + [p];
    } else {
      ClampWhole(a, len / 32);
    }
  }

  lemma DropWords(a: seq<int>, f: nat)
    requires WellFormed(a) && f <= |a|
    ensures WellFormed(a[f..])
    ensures Bits(a[f..]) == if 32 * f <= |Bits(a)| then Bits(a)[32 * f..] else []
  {
    assert a[..f] + a[f..] == a;
    BitsConcat(a[..f], a[f..]);
    if f < |a| {
      FullBits(a[..f]);
    } else {
      BitLengthCounts(a);
      LastLength(a);
      NoBits();
    }
  }

  // What the bits of an array are: bit j of word k, counted from the top, is the digit with weight
  // 2^(31 - j) of the number that stands there.
  lemma BitsAt(a: seq<int>, k: nat, j: nat)
    requires WellFormed(a) && k < |a| && j < 32 && 32 * k + j < |Bits(a)|
    ensures Bits(a)[32 * k + j] <==> (a[k] / Pow2(31 - j)) % 2 == 1
  {
    hide BitsOf, GetPartial, Bits, WordBits, Pow2;
    DropWords(a, k);
    assert Bits(a)[32 * k..][j] == Bits(a)[32 * k + j];
    FirstWordBits(a[k..]);
    BitAt(a[k], 32, j);
  }

  lemma FirstWordBits(a: seq<int>)
    requires WellFormed(a) && a != []
    ensures |Bits(a)| >= 32 || Bits(a) == W(a[0])[..|Bits(a)|]
    ensures |Bits(a)| >= 32 ==> Bits(a)[..32] == W(a[0])
  {
    hide BitsOf, GetPartial, WordBits;
    assert a == [a[0]] + a[1..];
    BitsConcat([a[0]], a[1..]);
    BitsSnoc([], a[0]);
    assert [] + [a[0]] == [a[0]] && Bits([]) == [];
    if |a| == 1 {
      WordParts(a[0]);
    } else {
      FullWordBits(a[0]);
    }
  }

  // The bits of a tail of words, with enough zeros in front to push `start` into the next word.
  lemma SliceBits(a: seq<int>, start: nat, tail: seq<int>, moved: seq<int>)
    requires WellFormed(a) && WellFormed(moved)
    requires tail == if start / 32 <= |a| then a[start / 32..] else []
    requires Bits(moved) == Zeros(32 - start % 32) + Bits(tail)
    ensures |moved| > 0 && WellFormed(moved[1..])
    ensures Bits(moved[1..]) == if start <= |Bits(a)| then Bits(a)[start..] else []
  {
    hide Bits, WellFormed, Zeros;
    var f, m := start / 32, start % 32;
    assert start == 32 * f + m;
    SlicedBits(a, f, m, tail, moved);
  }

  lemma SlicedBits(a: seq<int>, f: nat, m: nat, tail: seq<int>, moved: seq<int>)
    requires WellFormed(a) && WellFormed(moved) && m < 32
    requires tail == if f <= |a| then a[f..] else []
    requires Bits(moved) == Zeros(32 - m) + Bits(tail)
    ensures |moved| > 0 && WellFormed(moved[1..])
    ensures Bits(moved[1..]) == if 32 * f + m <= |Bits(a)| then Bits(a)[32 * f + m..] else []
  {
    hide Bits, WellFormed, WordBits, GetPartial, W, RawBits, Zeros, IsWord, IsFull;
    NoBits();
    LastLength(a);
    if f <= |a| {
      DropWords(a, f);
    }
    assert |Bits(moved)| > 0;
    DropWords(moved, 1);
    SliceSeq(Bits(a), f, m, Bits(tail));
  }

  lemma SliceSeq(x: seq<bool>, f: nat, m: nat, t: seq<bool>)
    requires m < 32 && t == if 32 * f <= |x| then x[32 * f..] else []
    ensures var y := Zeros(32 - m) + t;
            (if |y| >= 32 then y[32..] else []) == if 32 * f + m <= |x| then x[32 * f + m..] else []
  {
    var y := Zeros(32 - m) + t;
    if |y| >= 32 {
      assert y[32..] == t[m..];
    }
  }

  lemma SliceIsCut(x: seq<bool>, start: nat, end: Option<int>)
    requires end.Some? && start <= end.value <= |x|
    ensures FirstBits(x[start..], CutLength((|x[start..]| + 31) / 32, end.value - start)) == x[start..end.value]
  {
    assert x[start..][..end.value - start] == x[start..end.value];
  }

  method BitSlice(a: seq<int>, start: nat, end: Option<int>) returns (r: seq<int>)
    requires WellFormed(a)
    ensures WellFormed(r)
    ensures var rest := if start <= |Bits(a)| then Bits(a)[start..] else [];
            Bits(r) == if end == None then rest
                       else FirstBits(rest, CutLength((|rest| + 31) / 32, end.value - start))
    ensures end.Some? && start <= end.value <= |Bits(a)| ==> Bits(r) == Bits(a)[start..end.value]
    ensures end == None && start <= |Bits(a)| ==> Bits(r) == Bits(a)[start..]
  {
    hide Bits, WellFormed, WordBits, GetPartial, W, RawBits, Zeros, IsWord, IsFull, FirstBits, CutLength, Clamped;
    if end.Some? && start <= end.value <= |Bits(a)| {
      SliceIsCut(Bits(a), start, end);
    }
    var first := start / 32;
    var tail := if first <= |a| then a[first..] else [];
    // the carry is undefined in the program; its bits are sliced off
    NoCarry(32 - start % 32);
    FullBits([]);
    if first <= |a| {
      DropWords(a, first);
    }
    var moved := ShiftRight(tail, 32 - start % 32, 0, []);
    SliceBits(a, start, tail, moved);
    r := moved[1..];
    if end.Some? {
      ClampedIsFirst(r, CutLength(|r|, end.value - start));
      r := Clamp(r, end.value - start);
    }
  }

  lemma NoCarry(n: nat)
    requires n <= 32
    ensures CleanCarry(0, n) && CarryBits(0, n) == Zeros(n)
  {
    ZeroBits(32);
  }

  lemma ZeroWord(w: Word)
    ensures FromWord(w) == 0 <==> w == Zeros(32)
  {
    ZeroBits(32);
    assert W(0) == Zeros(32);
    hide W, Zeros, FromWord;
    if w == Zeros(32) {
      Int32Zero(FromWord(w));
    }
  }

  lemma Int32Zero(x: int)
    requires W(x) == W(0) && -TWO_31 <= x < TWO_31
    ensures x == 0
  {
    SameWord(x, 0);
    ModUnique(x, TWO_32, if x < 0 then -1 else 0, if x < 0 then x + TWO_32 else x);
  }

  lemma XorZero(x: Word, y: Word)
    ensures XorW(x, y) == Zeros(32) <==> x == y
  {
    if XorW(x, y) == Zeros(32) {
      forall i | 0 <= i < 32
        ensures x[i] == y[i]
      {
        assert !XorW(x, y)[i];
      }
    }
  }

  lemma OrZero(x: Word, y: Word)
    ensures OrW(x, y) == Zeros(32) <==> (x == Zeros(32) && y == Zeros(32))
  {
    if OrW(x, y) == Zeros(32) {
      forall i | 0 <= i < 32
        ensures !x[i] && !y[i]
      {
        assert !OrW(x, y)[i];
      }
    }
  }

  // Accumulating differences: the accumulator is 0 exactly while every pair of words agrees.
  lemma Accumulate(acc: int, x: int, y: int)
    requires -TWO_31 <= acc < TWO_31
    ensures Or(acc, Xor(x, y)) == 0 <==> (acc == 0 && W(x) == W(y))
  {
    hide FromWord;
    var d := XorW(W(x), W(y));
    XorZero(W(x), W(y));
    AccIsZero(acc);
    var o := OrW(W(acc), d);
    OrZero(W(acc), d);
    ZeroWord(o);
  }

  lemma AccIsZero(acc: int)
    requires -TWO_31 <= acc < TWO_31
    ensures W(acc) == Zeros(32) <==> acc == 0
  {
    ZeroBits(32);
    SameWord(acc, 0);
  }

  lemma {:induction false} SameRaw(a: seq<int>, b: seq<int>)
    requires |a| == |b|
    ensures RawBits(a) == RawBits(b) <==> forall k | 0 <= k < |a| :: W(a[k]) == W(b[k])
  {
    hide W;
    if a != [] {
      var a0, b0 := a[..|a| - 1], b[..|b| - 1];
      SameRaw(a0, b0);
      var x, y := a[|a| - 1], b[|b| - 1];
      assert RawBits(a) == RawBits(a0) + W(x) && RawBits(b) == RawBits(b0) + W(y);
      if RawBits(a) == RawBits(b) {
        assert RawBits(a)[..32 * |a0|] == RawBits(a0) && RawBits(b)[..32 * |b0|] == RawBits(b0);
        assert RawBits(a)[32 * |a0|..] == W(x) && RawBits(b)[32 * |b0|..] == W(y);
      }
    }
  }

  // Equality of arrays is equality of the bits they stand for, whatever the signs of the words.
  method Equal(a: seq<int>, b: seq<int>) returns (same: bool)
    requires WellFormed(a) && WellFormed(b)
    ensures same <==> Bits(a) == Bits(b)
  {
    hide RawBits, Bits, W, WellFormed, GetPartial, Zeros;
    BitLengthCounts(a);
    BitLengthCounts(b);
    if BitLength(a) != BitLength(b) {
      return false;
    }
    LastLength(a);
    LastLength(b);
    SameLengths(a, b);
    var acc, r := 0, 0;
    while r < |a|
      invariant 0 <= r <= |a| && -TWO_31 <= acc < TWO_31
      invariant acc == 0 <==> forall k | 0 <= k < r :: W(a[k]) == W(b[k])
    {
      Accumulate(acc, a[r], b[r]);
      acc := Or(acc, Xor(a[r], b[r]));
      r := r + 1;
    }
    SameRaw(a, b);
    return acc == 0;
  }

  lemma SameLengths(a: seq<int>, b: seq<int>)
    requires WellFormed(a) && WellFormed(b) && |Bits(a)| == |Bits(b)|
    ensures |a| == |b|
    ensures Bits(a) == Bits(b) <==> RawBits(a) == RawBits(b)
  {
    hide Bits, RawBits, W, WellFormed;
    LastLength(a);
    LastLength(b);
    if RawBits(a) == RawBits(b) {
      assert RawBits(a)[..|Bits(a)|] == Bits(a);
      assert RawBits(b)[..|Bits(b)|] == Bits(b);
    }
  }
}
