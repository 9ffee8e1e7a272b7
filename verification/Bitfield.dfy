/**
 * SETBIT, GETBIT and BITFIELD: bit fields of any width at any bit offset of a byte
 * string, in 64-bit arithmetic.
 */
module Bitfield {
  import opened Powers

  type Buffer = seq<bv8>

  // ---------------------------------------------------------------- single bits

  // Bits are counted from the most significant one of the first byte.
  function Mask(k: nat): bv8
    requires k < 8
  {
    if k == 0 then 0x80 else if k == 1 then 0x40 else if k == 2 then 0x20 else if k == 3 then 0x10
    else if k == 4 then 0x08 else if k == 5 then 0x04 else if k == 6 then 0x02 else 0x01
  }

  predicate Test(b: bv8, k: nat)
    requires k < 8
  {
    b & Mask(k) != 0
  }

  function Put(b: bv8, k: nat, on: bool): bv8
    requires k < 8
  {
    if on then b | Mask(k) else b & !Mask(k)
  }

  lemma {:induction false} MasksApart(k: nat, j: nat)
    requires k < 8 && j < 8 && j != k
    ensures Mask(k) & Mask(j) == 0 && Mask(k) != 0
  {
  }

  lemma {:induction false} PutOther(b: bv8, m: bv8, n: bv8)
    requires m & n == 0
    ensures (b | m) & n == b & n && (b & !m) & n == b & n
  {
  }

  lemma {:induction false} TestPut(b: bv8, k: nat, on: bool, j: nat)
    requires k < 8 && j < 8
    ensures Test(Put(b, k, on), j) == if j == k then on else Test(b, j)
  {
    if j != k {
      MasksApart(k, j);
      PutOther(b, Mask(k), Mask(j));
    } else {
      PutSame(b, k);
    }
  }

  lemma {:induction false} PutSame(b: bv8, k: nat)
    requires k < 8
    ensures (b | Mask(k)) & Mask(k) != 0 && (b & !Mask(k)) & Mask(k) == 0
  {
    if k == 0 {} else if k == 1 {} else if k == 2 {} else if k == 3 {}
    else if k == 4 {} else if k == 5 {} else if k == 6 {} else {}
  }

  // Out of range reads as zero.
  predicate Bit(buf: Buffer, off: nat) { off / 8 < |buf| && Test(buf[off / 8], off % 8) }

  function Grown(buf: Buffer, n: nat): (r: Buffer)
    ensures |r| == if |buf| < n then n else |buf|
  {
    if |buf| < n then buf + seq(n - |buf|, _ => 0) else buf
  }

  function WithBit(buf: Buffer, off: nat, on: bool): (r: Buffer)
    requires off / 8 < |buf|
    ensures |r| == |buf|
  {
    buf[off / 8 := Put(buf[off / 8], off % 8, on)]
  }

  lemma {:induction false} BitWithBit(buf: Buffer, off: nat, on: bool, i: nat)
    requires off / 8 < |buf|
    ensures Bit(WithBit(buf, off, on), i) == if i == off then on else Bit(buf, i)
  {
    if i / 8 == off / 8 {
      TestPut(buf[off / 8], off % 8, on, i % 8);
      assert i == 8 * (i / 8) + i % 8 && off == 8 * (off / 8) + off % 8;
    }
  }

  lemma {:induction false} BitGrown(buf: Buffer, n: nat, i: nat)
    ensures Bit(Grown(buf, n), i) == Bit(buf, i)
  {
    if |buf| <= i / 8 < n {
      assert Grown(buf, n)[i / 8] == 0;
      ZeroByte(i % 8);
    }
  }

  lemma {:induction false} ZeroByte(k: nat)
    requires k < 8
    ensures !Test(0, k)
  {
  }

  method GrowTo(buf: Buffer, n: nat) returns (r: Buffer)
    ensures r == Grown(buf, n)
  {
    r := buf;
    while |r| < n
      invariant r == Grown(buf, |r|) && |r| <= |Grown(buf, n)|
    {
      r := r + [0];
    }
  }

  method GetBitAt(buf: Buffer, off: nat) returns (v: nat)
    ensures v == if Bit(buf, off) then 1 else 0
  {
    var i := off / 8;
    if i >= |buf| {
      return 0;
    }
    return if buf[i] & Mask(off % 8) != 0 then 1 else 0;
  }

  // SETBIT: the old bit, and the buffer with only that bit changed.
  method SetBitAt(buf: Buffer, off: nat, v: nat) returns (r: Buffer, was: nat)
    ensures r == WithBit(Grown(buf, off / 8 + 1), off, v == 1)
    ensures was == if Bit(buf, off) then 1 else 0
    ensures forall i: nat :: Bit(r, i) == if i == off then v == 1 else Bit(buf, i)
  {
    r := GrowTo(buf, off / 8 + 1);
    BitGrown(buf, off / 8 + 1, off);
    was := GetBitAt(r, off);
    forall i: nat ensures Bit(WithBit(r, off, v == 1), i) == if i == off then v == 1 else Bit(buf, i) {
      BitWithBit(r, off, v == 1, i);
      BitGrown(buf, off / 8 + 1, i);
    }
    r := WithBit(r, off, v == 1);
  }

  // ---------------------------------------------------------------- fields

  // i1 to i64 and u1 to u63.
  datatype Field = Field(signed: bool, bits: nat)

  predicate Legal(t: Field) { 1 <= t.bits <= (if t.signed then 64 else 63) }

  function Min(t: Field): int
    requires Legal(t)
  {
    var half: int := Two(t.bits - 1);
    if t.signed then -half else 0
  }

  function Max(t: Field): int
    requires Legal(t)
  {
    if t.signed then Two(t.bits - 1) - 1 else Two(t.bits) - 1
  }

  // The bits of a field as a number, most significant first.
  function Raw(buf: Buffer, off: nat, bits: nat): nat {
    if bits == 0 then 0 else 2 * Raw(buf, off, bits - 1) + if Bit(buf, off + bits - 1) then 1 else 0
  }

  // Bit `k` of a number, from the least significant one.
  function BitOf(v: nat, k: nat): nat { if k == 0 then v % 2 else BitOf(v / 2, k - 1) }

  lemma {:induction false} RawBounded(buf: Buffer, off: nat, bits: nat)
    ensures Raw(buf, off, bits) < Two(bits)
  {
    if bits > 0 { RawBounded(buf, off, bits - 1); }
  }

  // Place `i` of the field holds the bit that `v` has there.
  predicate Holds(buf: Buffer, off: nat, bits: nat, v: nat, i: nat)
    requires i < bits
  {
    Bit(buf, off + i) == (BitOf(v, bits - 1 - i) == 1)
  }

  // A field whose bits are those of `v` reads as `v`.
  lemma {:induction false} RawIs(buf: Buffer, off: nat, bits: nat, v: nat)
    requires v < Two(bits)
    requires forall i | 0 <= i < bits :: Holds(buf, off, bits, v, i)
    ensures Raw(buf, off, bits) == v
  {
    if bits > 0 {
      var n, half := bits - 1, v / 2;
      forall i | 0 <= i < n ensures Holds(buf, off, n, half, i) {
        assert Holds(buf, off, bits, v, i);
      }
      RawIs(buf, off, n, half);
      assert Holds(buf, off, bits, v, bits - 1);
    }
  }

  lemma {:induction false} TopBit(v: nat, bits: nat)
    requires bits > 0 && v < Two(bits)
    ensures BitOf(v, bits - 1) == (if v >= Two(bits - 1) then 1 else 0)
  {
    if bits > 1 { TopBit(v / 2, bits - 1); }
  }

  // The number a field stands for: its bits, read as a signed number when it is signed.
  function Extended(v: nat, t: Field): int
    requires Legal(t)
  {
    if t.signed && v >= Two(t.bits - 1) then v - Two(t.bits) else v
  }

  function FieldValue(buf: Buffer, off: nat, t: Field): int
    requires Legal(t)
  {
    Extended(Raw(buf, off, t.bits), t)
  }

  // A number cut down to the field.
  function Reduced(x: int, t: Field): int
    requires Legal(t)
  {
    Extended(x % Two(t.bits), t)
  }

  // Cutting down keeps what fits, and otherwise gives the number in range that agrees
  // with it up to multiples of the field's size.
  lemma {:induction false} ReducedLaw(x: int, t: Field)
    requires Legal(t)
    ensures Min(t) <= Reduced(x, t) <= Max(t)
    ensures Min(t) <= x <= Max(t) ==> Reduced(x, t) == x
    ensures Reduced(x, t) % Two(t.bits) == x % Two(t.bits)
  {
    var m, r := Two(t.bits), x % Two(t.bits);
    assert m == 2 * Two(t.bits - 1);
    if Min(t) <= x <= Max(t) {
      if x >= 0 { Remainder(x, m, 0, x); } else { Remainder(x, m, -1, x + m); }
    }
    if Reduced(x, t) < 0 { Remainder(Reduced(x, t), m, -1, r); } else { Remainder(Reduced(x, t), m, 0, r); }
  }

  // ---------------------------------------------------------------- the layout

  function Shifted(x: nat, b: nat): nat { if b == 0 then x else 2 * Shifted(x, b - 1) }

  lemma {:induction false} ShiftedIs(x: nat, b: nat)
    ensures Shifted(x, b) == x * Two(b)
  {
    if b > 0 {
      ShiftedIs(x, b - 1);
      assert x * (2 * Two(b - 1)) == 2 * (x * Two(b - 1));
    }
  }

  lemma {:induction false} RawShifts(buf: Buffer, off: nat, a: nat, b: nat)
    ensures Raw(buf, off, a + b) == Shifted(Raw(buf, off, a), b) + Raw(buf, off + a, b)
  {
    if b > 0 {
      RawShifts(buf, off, a, b - 1);
      assert off + (a + b) - 1 == off + a + b - 1;
    }
  }

  // A field is its first bits followed by the rest.
  lemma {:induction false} RawJoins(buf: Buffer, off: nat, a: nat, b: nat)
    ensures Raw(buf, off, a + b) == Raw(buf, off, a) * Two(b) + Raw(buf, off + a, b)
  {
    RawShifts(buf, off, a, b);
    ShiftedIs(Raw(buf, off, a), b);
  }

  lemma {:induction false} FourBits(buf: Buffer, off: nat, d: (bool, bool, bool, bool))
    requires Bit(buf, off) == d.0 && Bit(buf, off + 1) == d.1 && Bit(buf, off + 2) == d.2 && Bit(buf, off + 3) == d.3
    ensures Raw(buf, off, 4) == (if d.0 then 8 else 0) + (if d.1 then 4 else 0) + (if d.2 then 2 else 0)
                                + if d.3 then 1 else 0
  {
    assert Raw(buf, off, 1) == if d.0 then 1 else 0;
    assert Raw(buf, off, 2) == 2 * Raw(buf, off, 1) + if d.1 then 1 else 0;
    assert Raw(buf, off, 3) == 2 * Raw(buf, off, 2) + if d.2 then 1 else 0;
    assert Raw(buf, off, 4) == 2 * Raw(buf, off, 3) + if d.3 then 1 else 0;
  }

  lemma {:induction false} BitInByte(buf: Buffer, k: nat, j: nat)
    requires k < |buf| && j < 8
    ensures Bit(buf, 8 * k + j) == Test(buf[k], j)
  {
    assert (8 * k + j) / 8 == k && (8 * k + j) % 8 == j;
  }

  lemma {:induction false} NibbleRaw(buf: Buffer, k: nat, h: nat)
    requires k < |buf| && (h == 0 || h == 4)
    ensures Raw(buf, 8 * k + h, 4) == Nibble(buf[k], h)
  {
    BitInByte(buf, k, h);
    BitInByte(buf, k, h + 1);
    BitInByte(buf, k, h + 2);
    BitInByte(buf, k, h + 3);
    FourBits(buf, 8 * k + h, (Test(buf[k], h), Test(buf[k], h + 1), Test(buf[k], h + 2), Test(buf[k], h + 3)));
  }

  // A whole byte is that byte.
  lemma {:induction false} RawByte(buf: Buffer, k: nat)
    requires k < |buf|
    ensures Raw(buf, 8 * k, 8) == buf[k] as int
  {
    NibbleRaw(buf, k, 0);
    NibbleRaw(buf, k, 4);
    EightBits(buf[k]);
    NibblesJoin(buf, 8 * k, Nibble(buf[k], 0), Nibble(buf[k], 4), buf[k] as int);
  }

  lemma {:induction false} NibblesJoin(buf: Buffer, off: nat, high: nat, low: nat, v: int)
    requires Raw(buf, off, 4) == high && Raw(buf, off + 4, 4) == low && v == 16 * high + low
    ensures Raw(buf, off, 8) == v
  {
    RawJoins(buf, off, 4, 4);
    assert Two(4) == 16 && 4 + 4 == 8;
  }

  function Nibble(b: bv8, k: nat): nat
    requires k == 0 || k == 4
  {
    (if Test(b, k) then 8 else 0) + (if Test(b, k + 1) then 4 else 0) + (if Test(b, k + 2) then 2 else 0)
    + if Test(b, k + 3) then 1 else 0
  }

  lemma {:induction false} EightBits(b: bv8)
    ensures b as int == 16 * Nibble(b, 0) + Nibble(b, 4)
  {
  }

  // ---------------------------------------------------------------- reading and writing

  method BitfieldRaw(buf: Buffer, off: nat, bits: nat) returns (v: nat)
    ensures v == Raw(buf, off, bits)
  {
    v := 0;
    for i := 0 to bits
      invariant v == Raw(buf, off, i)
    {
      v := 2 * v;
      var idx := off + i;
      if idx / 8 < |buf| && buf[idx / 8] & Mask(idx % 8) != 0 {
        v := v + 1;
      }
    }
  }

  method BitfieldGet(buf: Buffer, off: nat, t: Field) returns (x: int)
    requires Legal(t)
    ensures x == FieldValue(buf, off, t) && Min(t) <= x <= Max(t)
  {
    var v := BitfieldRaw(buf, off, t.bits);
    RawBounded(buf, off, t.bits);
    TopBit(v, t.bits);
    x := v;
    if t.signed && BitOf(v, t.bits - 1) == 1 {
      x := v - Two(t.bits);
    }
  }

  // Every bit outside the field is as before.
  ghost predicate Elsewhere(before: Buffer, after: Buffer, off: nat, bits: nat) {
    forall i: nat | !(off <= i < off + bits) :: Bit(after, i) == Bit(before, i)
  }

  // The write loop, for a number that fits.
  method WriteBits(buf: Buffer, off: nat, bits: nat, v: nat) returns (r: Buffer)
    requires v < Two(bits)
    ensures Raw(r, off, bits) == v && Elsewhere(buf, r, off, bits)
    ensures |r| == |Grown(buf, (off + bits + 7) / 8)|
    ensures bits == 1 ==> r == WithBit(Grown(buf, off / 8 + 1), off, v == 1)
  {
    r := GrowTo(buf, (off + bits + 7) / 8);
    ghost var start := r;
    for i := 0 to bits
      invariant |r| == |start|
      invariant forall j | 0 <= j < i :: Holds(r, off, bits, v, j)
      invariant Elsewhere(start, r, off, i)
      invariant bits == 1 ==> r == if i == 0 then start else WithBit(start, off, v == 1)
    {
      var idx := off + i;
      ghost var before := r;
      var on := BitOf(v, bits - 1 - i) == 1;
      r := WithBit(r, idx, on);
      BitsAfter(before, idx, on);
      forall j | 0 <= j < i + 1 ensures Holds(r, off, bits, v, j) {
        if j < i { assert Holds(before, off, bits, v, j); }
      }
    }
    RawIs(r, off, bits, v);
    forall i: nat ensures Bit(start, i) == Bit(buf, i) { BitGrown(buf, (off + bits + 7) / 8, i); }
  }

  lemma {:induction false} BitsAfter(buf: Buffer, off: nat, on: bool)
    requires off / 8 < |buf|
    ensures forall i: nat {:trigger Bit(WithBit(buf, off, on), i)} ::
              Bit(WithBit(buf, off, on), i) == if i == off then on else Bit(buf, i)
  {
    forall i: nat
      ensures Bit(WithBit(buf, off, on), i) == if i == off then on else Bit(buf, i)
    {
      BitWithBit(buf, off, on, i);
    }
  }

  // BITFIELD SET: the old value, and a buffer whose field is the number cut down to it
  // and whose other bits are unchanged.
  method BitfieldSet(buf: Buffer, off: nat, t: Field, val: int) returns (was: int, r: Buffer)
    requires Legal(t)
    ensures was == FieldValue(buf, off, t)
    ensures FieldValue(r, off, t) == Reduced(val, t) && Elsewhere(buf, r, off, t.bits)
    ensures t == Field(false, 1) ==> r == WithBit(Grown(buf, off / 8 + 1), off, val % 2 == 1)
  {
    was := BitfieldGet(buf, off, t);
    var v := (val % 0x1_0000_0000_0000_0000) % Two(t.bits);
    NarrowRemainder(val, t.bits);
    r := WriteBits(buf, off, t.bits, v);
  }

  // ---------------------------------------------------------------- incrementing

  datatype Overflow = Wrap | Saturate | Fail

  predicate Int64(x: int) { -0x8000_0000_0000_0000 <= x < 0x8000_0000_0000_0000 }

  // Signed 64-bit arithmetic.
  function Wrapped(x: int): int {
    var r := x % 0x1_0000_0000_0000_0000;
    if r < 0x8000_0000_0000_0000 then r else r - 0x1_0000_0000_0000_0000
  }

  // The overflow test of the source, in its own arithmetic.
  predicate Flagged(was: int, incr: int, t: Field)
    requires Legal(t)
  {
    if incr >= 0 then was > Wrapped(Max(t) - incr) else was < Wrapped(Min(t) - incr)
  }

  predicate OutOfRange(x: int, t: Field)
    requires Legal(t)
  {
    x < Min(t) || x > Max(t)
  }

  // The one case in which the test itself overflows.
  predicate Blind(incr: int, t: Field) { !t.signed && incr == -0x8000_0000_0000_0000 }

  // The test is right exactly when it does not overflow.
  lemma {:induction false} FlaggedExact(was: int, incr: int, t: Field)
    requires Legal(t) && Min(t) <= was <= Max(t) && Int64(incr)
    ensures (Flagged(was, incr, t) <==> OutOfRange(was + incr, t)) <==> !Blind(incr, t)
    ensures Blind(incr, t) ==> !Flagged(was, incr, t) && OutOfRange(was + incr, t)
  {
    BoundsFit(t);
  }

  lemma {:induction false} BoundsFit(t: Field)
    requires Legal(t)
    ensures -0x8000_0000_0000_0000 <= Min(t) <= 0 <= Max(t) < 0x8000_0000_0000_0000
    ensures t.signed ==> Min(t) < 0
  {
    TwoLiterals();
    TwoGrows(t.bits - 1, 63);
    if !t.signed { TwoGrows(t.bits, 63); }
  }

  // What BITFIELD INCRBY should do: the exact sum when it is in range, otherwise the
  // sum cut down, the nearest bound, or nothing.
  function Increment(was: int, incr: int, t: Field, ov: Overflow, over: bool): (r: (int, bool))
    requires Legal(t)
  {
    if !over || ov == Wrap then (Reduced(was + incr, t), false)
    else if ov == Saturate then (if incr >= 0 then Max(t) else Min(t), false)
    else (0, true)
  }

  // An overflowing sum is saturated to the value in range that is nearest to it, wrapped
  // to the one that differs by a multiple of the field's size, or refused.
  lemma {:induction false} IncrementExactly(was: int, incr: int, t: Field, ov: Overflow)
    requires Legal(t) && Min(t) <= was <= Max(t) && OutOfRange(was + incr, t)
    ensures var (x, refused) := Increment(was, incr, t, ov, true);
            && (refused <==> ov == Fail)
            && (!refused ==> Min(t) <= x <= Max(t))
            && (ov == Saturate ==> Nearest(x, was + incr, t))
            && (ov == Wrap ==> x % Two(t.bits) == (was + incr) % Two(t.bits))
  {
    ReducedLaw(was + incr, t);
    BoundsFit(t);
  }

  function Gap(x: int, y: int): nat { if x <= y then y - x else x - y }

  // No value of the field is nearer to `y`.
  ghost predicate Nearest(x: int, y: int, t: Field)
    requires Legal(t)
  {
    forall z {:trigger Gap(z, y)} | Min(t) <= z <= Max(t) :: Gap(x, y) <= Gap(z, y)
  }

  method BitfieldIncrby(buf: Buffer, off: nat, t: Field, incr: int, ov: Overflow)
    returns (x: int, r: Buffer, refused: bool)
    requires Legal(t) && Int64(incr)
    ensures var was := FieldValue(buf, off, t);
            (x, refused) == Increment(was, incr, t, ov, OutOfRange(was + incr, t) && !Blind(incr, t))
    ensures refused ==> r == buf
    ensures !refused ==> FieldValue(r, off, t) == x && Elsewhere(buf, r, off, t.bits)
    ensures !OutOfRange(FieldValue(buf, off, t) + incr, t) ==> x == FieldValue(buf, off, t) + incr
  {
    var was := BitfieldGet(buf, off, t);
    FlaggedExact(was, incr, t);
    ReducedLaw(was + incr, t);
    BoundsReduced(t);
    var over := Flagged(was, incr, t);
    if over && ov == Fail {
      return 0, buf, true;
    }
    if over && ov == Saturate {
      x := if incr >= 0 then Max(t) else Min(t);
      var _, out := BitfieldSet(buf, off, t, x);
      return x, out, false;
    }
    x := WrappedSum(was, incr, t);
    var _, out := BitfieldSet(buf, off, t, x);
    return x, out, false;
  }

  // The sum in unsigned 64-bit arithmetic, cut down to the field.
  method WrappedSum(was: int, incr: int, t: Field) returns (x: int)
    requires Legal(t)
    ensures x == Reduced(was + incr, t) && Reduced(x, t) == x
  {
    var raw := (was % 0x1_0000_0000_0000_0000 + incr % 0x1_0000_0000_0000_0000) % 0x1_0000_0000_0000_0000;
    SumOfWords(was, incr, t.bits);
    x := Extended(raw % Two(t.bits), t);
    ReducedLaw(was + incr, t);
    ReducedLaw(x, t);
  }

  lemma {:induction false} BoundsReduced(t: Field)
    requires Legal(t)
    ensures Reduced(Max(t), t) == Max(t) && Reduced(Min(t), t) == Min(t)
  {
    BoundsFit(t);
    ReducedLaw(Max(t), t);
    ReducedLaw(Min(t), t);
  }

  lemma {:induction false} SumOfWords(a: int, b: int, k: nat)
    requires k <= 64
    ensures ((a % 0x1_0000_0000_0000_0000 + b % 0x1_0000_0000_0000_0000) % 0x1_0000_0000_0000_0000) % Two(k)
            == (a + b) % Two(k)
  {
    var big: int := 0x1_0000_0000_0000_0000;
    assert (a % big + b % big) % big == (a + b) % big;
    NarrowRemainder(a + b, k);
  }
}
