/**
 * HyperLogLog sketches: 16384 registers of six bits, packed across byte borders.
 */
module Hll {
  import opened Options
  import opened Bytes
  import opened Powers

  type Packed = seq<bv8>

  const REGISTERS: nat := 16384
  const DENSE: nat := 12288

  // ---------------------------------------------------------------- one register

  // Register `pos` starts in this byte, at this bit.
  function FirstByte(pos: nat): nat { pos * 6 / 8 }

  function FirstBit(pos: nat): nat { pos * 6 % 8 }

  function Bits(b0: bv8, b1: bv8, fb: nat): bv8
    requires fb < 8
  {
    ((((b0 as bv16) >> fb) | ((b1 as bv16) << (8 - fb))) & 63) as bv8
  }

  function Low(b0: bv8, fb: nat, v: bv8): bv8
    requires fb < 8
  {
    (b0 & !((((63 as bv16) << fb) & 255) as bv8)) | ((((v as bv16) << fb) & 255) as bv8)
  }

  function High(b1: bv8, fb: nat, v: bv8): bv8
    requires fb < 8
  {
    (b1 & !(((63 as bv16) >> (8 - fb)) as bv8)) | (((v as bv16) >> (8 - fb)) as bv8)
  }

  function Get(reg: Packed, pos: nat): bv8
    requires FirstByte(pos) < |reg|
  {
    var b := FirstByte(pos);
    Bits(reg[b], if b + 1 < |reg| then reg[b + 1] else 0, FirstBit(pos))
  }

  function Set(reg: Packed, pos: nat, v: bv8): (r: Packed)
    requires FirstByte(pos) < |reg|
    ensures |r| == |reg|
  {
    var b := FirstByte(pos);
    var low := reg[b := Low(reg[b], FirstBit(pos), v)];
    if b + 1 < |reg| then low[b + 1 := High(reg[b + 1], FirstBit(pos), v)] else low
  }

  method DenseGet(reg: array<bv8>, pos: nat) returns (v: bv8)
    requires FirstByte(pos) < reg.Length
    ensures v == Get(reg[..], pos)
  {
    var b, fb := pos * 6 / 8, pos * 6 % 8;
    var b1 := 0;
    if b + 1 < reg.Length {
      b1 := reg[b + 1];
    }
    v := Bits(reg[b], b1, fb);
  }

  method DenseSet(reg: array<bv8>, pos: nat, v: bv8)
    requires FirstByte(pos) < reg.Length
    modifies reg
    ensures reg[..] == Set(old(reg[..]), pos, v)
  {
    var b, fb := pos * 6 / 8, pos * 6 % 8;
    reg[b] := Low(reg[b], fb, v);
    if b + 1 < reg.Length {
      reg[b + 1] := High(reg[b + 1], fb, v);
    }
  }

  // ---------------------------------------------------------------- registers do not mix

  lemma {:induction false} SameRegister(b0: bv8, b1: bv8, fb: nat, v: bv8)
    requires fb in {0, 2, 4, 6} && v < 64
    ensures Bits(Low(b0, fb, v), High(b1, fb, v), fb) == v
  {
    if fb == 0 {} else if fb == 2 {} else if fb == 4 {} else {}
  }

  // The other register starts in the same byte.
  lemma {:induction false} SameByte(b0: bv8, b1: bv8, fb: nat, v: bv8, gb: nat)
    requires (fb == 0 && gb == 6) || (fb == 6 && gb == 0)
    requires v < 64
    ensures Bits(Low(b0, fb, v), High(b1, fb, v), gb) == Bits(b0, b1, gb)
  {
    if fb == 0 {} else {}
  }

  // The other register starts in the next byte.
  lemma {:induction false} NextByte(b1: bv8, b2: bv8, fb: nat, v: bv8, gb: nat)
    requires fb in {0, 2, 4, 6} && (gb == fb - 2 || gb == fb + 4) && gb < 8 && v < 64
    ensures Bits(High(b1, fb, v), b2, gb) == Bits(b1, b2, gb)
  {
    if fb == 0 {} else if fb == 2 { if gb == 0 {} else {} } else if fb == 4 {} else {}
  }

  // The other register starts in the byte before.
  lemma {:induction false} ByteBefore(b: bv8, b0: bv8, fb: nat, v: bv8, gb: nat)
    requires fb in {0, 2, 4, 6} && (gb == fb + 2 || gb == fb - 4) && gb < 8 && v < 64
    ensures Bits(b, Low(b0, fb, v), gb) == Bits(b, b0, gb)
  {
    if fb == 0 {} else if fb == 2 {} else if fb == 4 { if gb == 6 {} else {} } else {}
  }

  // A register that starts at bit 0 or 2 ends within its byte.
  lemma {:induction false} OneByte(b: bv8, x: bv8, y: bv8, fb: nat, v: bv8)
    requires fb in {0, 2} && v < 64
    ensures Bits(b, x, fb) == Bits(b, y, fb) && High(x, fb, v) == x
  {
    if fb == 0 {} else {}
  }

  lemma {:induction false} Places(pos: nat)
    ensures FirstBit(pos) in {0, 2, 4, 6} && 8 * FirstByte(pos) + FirstBit(pos) == 6 * pos
  {
  }

  // Setting a register changes that register and no other, at every alignment.
  // Bit `k` of a byte, from the least significant one.
  predicate Lit(b: bv8, k: nat)
    requires k < 8
  {
    b & (if k == 0 then 1 else if k == 1 then 2 else if k == 2 then 4 else if k == 3 then 8
         else if k == 4 then 16 else if k == 5 then 32 else if k == 6 then 64 else 128) != 0
  }

  lemma {:induction false} BitOfBits(b0: bv8, b1: bv8, fb: nat, j: nat)
    requires (fb == 0 || fb == 2 || fb == 4 || fb == 6) && j < 6
    ensures Lit(Bits(b0, b1, fb), j) <==> if fb + j < 8 then Lit(b0, fb + j) else Lit(b1, fb + j - 8)
  {
    if fb == 0 { SixBits(b0, b1, 0, j); } else if fb == 2 { SixBits(b0, b1, 2, j); }
    else if fb == 4 { SixBits(b0, b1, 4, j); } else { SixBits(b0, b1, 6, j); }
  }

  lemma {:induction false} SixBits(b0: bv8, b1: bv8, fb: nat, j: nat)
    requires (fb == 0 || fb == 2 || fb == 4 || fb == 6) && j < 6
    ensures Lit(Bits(b0, b1, fb), j) <==> if fb + j < 8 then Lit(b0, fb + j) else Lit(b1, fb + j - 8)
  {
    if j == 0 {} else if j == 1 {} else if j == 2 {} else if j == 3 {} else if j == 4 {} else {}
  }

  // Register `pos` is the six bits from bit 6 * pos on, least significant first.
  lemma {:induction false} RegisterBits(reg: Packed, pos: nat, j: nat)
    requires j < 6 && (6 * pos + j) / 8 < |reg|
    ensures FirstByte(pos) < |reg| && (Lit(Get(reg, pos), j) <==> Lit(reg[(6 * pos + j) / 8], (6 * pos + j) % 8))
  {
    BitPlace(pos, j);
    var b, fb := FirstByte(pos), FirstBit(pos);
    BitOfBits(reg[b], if b + 1 < |reg| then reg[b + 1] else 0, fb, j);
  }

  lemma {:induction false} BitPlace(pos: nat, j: nat)
    requires j < 6
    ensures var b, fb := FirstByte(pos), FirstBit(pos);
            && (fb == 0 || fb == 2 || fb == 4 || fb == 6)
            && (6 * pos + j) / 8 == (if fb + j < 8 then b else b + 1)
            && (6 * pos + j) % 8 == (if fb + j < 8 then fb + j else fb + j - 8)
  {
    Places(pos);
  }

  lemma {:induction false} GetSet(reg: Packed, pos: nat, v: bv8, other: nat)
    requires v < 64 && FirstByte(pos) < |reg| && FirstByte(other) < |reg|
    requires FirstBit(pos) > 2 ==> FirstByte(pos) + 1 < |reg|
    ensures Get(Set(reg, pos, v), other) == if other == pos then v else Get(reg, other)
  {
    var b, fb, c, gb := FirstByte(pos), FirstBit(pos), FirstByte(other), FirstBit(other);
    Places(pos);
    Places(other);
    var b1 := if b + 1 < |reg| then reg[b + 1] else 0;
    var c1 := if c + 1 < |reg| then reg[c + 1] else 0;
    if b + 1 == |reg| { OneByte(reg[b], b1, b1, fb, v); }
    if other == pos {
      SameRegister(reg[b], b1, fb, v);
    } else if c == b {
      SameByte(reg[b], b1, fb, v, gb);
    } else if c == b + 1 {
      NextByte(reg[c], c1, fb, v, gb);
    } else if c + 1 == b {
      ByteBefore(reg[c], reg[b], fb, v, gb);
    }
  }

  // ---------------------------------------------------------------- sketches

  // A packed sketch, with a spare byte behind the last register or not.
  predicate Dense(reg: Packed) { DENSE <= |reg| <= DENSE + 1 }

  lemma {:induction false} Inside(pos: nat)
    requires pos < REGISTERS
    ensures FirstByte(pos) < DENSE && (FirstBit(pos) > 2 ==> FirstByte(pos) + 1 < DENSE)
  {
    Places(pos);
  }

  // The registers of a sketch as numbers.
  function Rank(reg: Packed, i: nat): nat
    requires Dense(reg) && i < REGISTERS
  {
    Inside(i);
    Get(reg, i) as nat
  }

  // The sketch with one register set to a number.
  function WithRank(reg: Packed, pos: nat, n: nat): (r: Packed)
    requires Dense(reg) && pos < REGISTERS && n < 64
    ensures Dense(r)
  {
    Inside(pos);
    Set(reg, pos, n as bv8)
  }

  lemma {:induction false} RankSet(reg: Packed, pos: nat, n: nat, i: nat)
    requires Dense(reg) && pos < REGISTERS && i < REGISTERS && n < 64
    ensures Rank(WithRank(reg, pos, n), i) == if i == pos then n else Rank(reg, i)
  {
    Inside(pos);
    Inside(i);
    FitsByte(n);
    GetSet(reg, pos, n as bv8, i);
  }

  lemma {:induction false} FitsByte(n: nat)
    requires n < 64
    ensures n as bv8 < 64 && (n as bv8) as nat == n
  {
  }

  lemma {:induction false} RanksSet(reg: Packed, pos: nat, n: nat)
    requires Dense(reg) && pos < REGISTERS && n < 64
    ensures forall i {:trigger Rank(WithRank(reg, pos, n), i)} | 0 <= i < REGISTERS ::
              Rank(WithRank(reg, pos, n), i) == if i == pos then n else Rank(reg, i)
  {
    forall i | 0 <= i < REGISTERS ensures Rank(WithRank(reg, pos, n), i) == if i == pos then n else Rank(reg, i) {
      RankSet(reg, pos, n, i);
    }
  }

  method ReadRank(reg: array<bv8>, pos: nat) returns (n: nat)
    requires Dense(reg[..]) && pos < REGISTERS
    ensures n == Rank(reg[..], pos)
  {
    Inside(pos);
    var v := DenseGet(reg, pos);
    n := v as nat;
  }

  method WriteRank(reg: array<bv8>, pos: nat, n: nat)
    requires Dense(reg[..]) && pos < REGISTERS && n < 64
    modifies reg
    ensures reg[..] == WithRank(old(reg[..]), pos, n)
  {
    Inside(pos);
    DenseSet(reg, pos, n as bv8);
  }

  // ---------------------------------------------------------------- elements

  type Word64 = n: nat | n < 0x1_0000_0000_0000_0000

  // Where an element's hash falls: a register, and the length of a run of zeros plus one.
  datatype Place = Place(index: nat, rank: nat)

  function ZerosAndOne(w: nat): nat
    requires w > 0
  {
    if w % 2 == 1 then 1 else 1 + ZerosAndOne(w / 2)
  }

  function PlaceOf(hash: Word64): Place { Place(hash % 16384, ZerosAndOne(hash / 16384 + 0x4_0000_0000_0000)) }

  lemma {:induction false} ZerosBounded(w: nat, k: nat)
    requires 0 < w < Two(k)
    ensures 1 <= ZerosAndOne(w) <= k
  {
    if w % 2 == 0 { ZerosBounded(w / 2, k - 1); }
  }

  // Ranks fit into a register.
  lemma {:induction false} PlaceBounded(hash: Word64)
    ensures PlaceOf(hash).index < REGISTERS && 1 <= PlaceOf(hash).rank <= 51
  {
    TwoLiterals();
    ZerosBounded(hash / 16384 + 0x4_0000_0000_0000, 51);
  }

  // The low 14 bits choose the register; the rank is one more than the number of trailing
  // zeros of the other 50, or 51 if they are all zero.
  lemma {:induction false} PlaceExactly(hash: Word64)
    ensures var p, w := PlaceOf(hash), hash / 16384;
            && hash == 16384 * w + p.index && p.index < 16384
            && (w == 0 ==> p.rank == 51)
            && (w > 0 ==> p.rank <= 50 && w % Two(p.rank - 1) == 0 && w / Two(p.rank - 1) % 2 == 1)
  {
    var w := hash / 16384;
    assert Two(50) == 0x4_0000_0000_0000 by { TwoLiterals(); }
    if w == 0 {
      ZerosOfTwo(50);
    } else {
      ZerosOfSum(w, 50);
      ZerosBounded(w, 50);
      ZerosExactly(w);
    }
  }

  lemma {:induction false} ZerosOfTwo(k: nat)
    ensures ZerosAndOne(Two(k)) == k + 1
  {
    if k > 0 { ZerosOfTwo(k - 1); }
  }

  lemma {:induction false} ZerosOfSum(w: nat, k: nat)
    requires 0 < w < Two(k)
    ensures ZerosAndOne(w + Two(k)) == ZerosAndOne(w)
  {
    if w % 2 == 0 {
      ZerosOfSum(w / 2, k - 1);
      assert (w + Two(k)) / 2 == w / 2 + Two(k - 1);
    }
  }

  lemma {:induction false} HalfDivides(w: nat, p: nat)
    requires p > 0 && w % 2 == 0 && w / 2 % p == 0
    ensures w % (2 * p) == 0 && w / (2 * p) == w / 2 / p
  {
    var q := w / 2 / p;
    assert w / 2 == q * p;
    assert w == q * (2 * p) + 0;
    Remainder(w, 2 * p, q, 0);
    assert w == (w / (2 * p)) * (2 * p);
    SameQuotient(w / (2 * p), q, 2 * p);
  }

  lemma {:induction false} SameQuotient(a: nat, b: nat, m: nat)
    requires m > 0 && a * m == b * m
    ensures a == b
  {
    assert (a - b) * m == a * m - b * m && (b - a) * m == b * m - a * m;
    if a > b { AtLeastOnce(a - b, m); }
    if b > a { AtLeastOnce(b - a, m); }
  }

  lemma {:induction false} ZerosExactly(w: nat)
    requires w > 0
    ensures ZerosAndOne(w) >= 1
    ensures w % Two(ZerosAndOne(w) - 1) == 0 && w / Two(ZerosAndOne(w) - 1) % 2 == 1
  {
    if w % 2 == 0 {
      ZerosExactly(w / 2);
      HalfDivides(w, Two(ZerosAndOne(w / 2) - 1));
    }
  }

  method PatLen(hash: Word64) returns (index: nat, count: nat)
    ensures Place(index, count) == PlaceOf(hash) && index < REGISTERS && 1 <= count <= 51
  {
    PlaceBounded(hash);
    index := hash % 16384;
    var w := hash / 16384 + 0x4_0000_0000_0000;
    count := 1;
    while w % 2 == 0
      invariant w > 0 && count >= 1 && count - 1 + ZerosAndOne(w) == PlaceOf(hash).rank
      decreases w
    {
      count := count + 1;
      w := w / 2;
    }
  }

  function Max(a: nat, b: nat): nat { if a >= b then a else b }

  // The greatest rank among the elements that fall into register `i`.
  function MaxRank(hs: seq<Word64>, i: nat): nat {
    if hs == [] then 0
    else Max(MaxRank(hs[..|hs| - 1], i), RankIn(hs[|hs| - 1], i))
  }

  function RankIn(h: Word64, i: nat): nat { if PlaceOf(h).index == i then PlaceOf(h).rank else 0 }

  lemma {:induction false} MaxRankIsMax(hs: seq<Word64>, i: nat)
    ensures forall h <- hs :: RankIn(h, i) <= MaxRank(hs, i)
    ensures MaxRank(hs, i) == 0 || exists h <- hs :: RankIn(h, i) == MaxRank(hs, i)
  {
    if hs != [] {
      var init, h := hs[..|hs| - 1], hs[|hs| - 1];
      MaxRankIsMax(init, i);
      assert hs == init + [h] && h in hs;
    }
  }

  // Only which elements were added matters, not their order or how often.
  lemma {:induction false} OrderDoesNotMatter(hs: seq<Word64>, gs: seq<Word64>, i: nat)
    requires forall h :: h in hs <==> h in gs
    ensures MaxRank(hs, i) == MaxRank(gs, i)
  {
    MaxRankIsMax(hs, i);
    MaxRankIsMax(gs, i);
  }

  lemma {:induction false} MaxRankConcat(hs: seq<Word64>, gs: seq<Word64>, i: nat)
    ensures MaxRank(hs + gs, i) == Max(MaxRank(hs, i), MaxRank(gs, i))
  {
    if gs == [] {
      assert hs + gs == hs;
    } else {
      assert (hs + gs)[..|hs + gs| - 1] == hs + gs[..|gs| - 1];
      MaxRankConcat(hs, gs[..|gs| - 1], i);
    }
  }

  // ---------------------------------------------------------------- adding and merging

  // Every register is the greater of its old value and the best rank in the list.
  ghost predicate Raised(before: Packed, after: Packed, hs: seq<Word64>) {
    && Dense(before) && Dense(after)
    && forall i {:trigger Rank(after, i)} | 0 <= i < REGISTERS :: Rank(after, i) == Max(Rank(before, i), MaxRank(hs, i))
  }

  // Every register is the greater of the two.
  ghost predicate Merged(a: Packed, b: Packed, after: Packed) {
    && Dense(a) && Dense(b) && Dense(after)
    && forall i {:trigger Rank(after, i)} | 0 <= i < REGISTERS :: Rank(after, i) == Max(Rank(a, i), Rank(b, i))
  }

  ghost predicate Differ(before: Packed, after: Packed) {
    Dense(before) && Dense(after) && exists i | 0 <= i < REGISTERS :: Rank(before, i) != Rank(after, i)
  }

  method DenseAdd(reg: array<bv8>, hash: Word64) returns (changed: bool)
    requires Dense(reg[..])
    modifies reg
    ensures Raised(old(reg[..]), reg[..], [hash])
    ensures changed <==> Differ(old(reg[..]), reg[..])
  {
    var index, count := PatLen(hash);
    var n := ReadRank(reg, index);
    assert forall i :: MaxRank([hash], i) == RankIn(hash, i);
    if count > n {
      RanksSet(reg[..], index, count);
      WriteRank(reg, index, count);
      assert Rank(reg[..], index) == count;
      return true;
    }
    return false;
  }

  function Hashes(murmur: Bytes -> Word64, elems: seq<Bytes>): seq<Word64> {
    seq(|elems|, k requires 0 <= k < |elems| => murmur(elems[k]))
  }

  method AddElements(reg: array<bv8>, murmur: Bytes -> Word64, elems: seq<Bytes>) returns (changed: bool)
    requires Dense(reg[..])
    modifies reg
    ensures Raised(old(reg[..]), reg[..], Hashes(murmur, elems))
    ensures changed <==> Differ(old(reg[..]), reg[..])
  {
    changed := false;
    ghost var start := reg[..];
    assert Raised(start, reg[..], Hashes(murmur, elems[..0]));
    for k := 0 to |elems|
      invariant Raised(start, reg[..], Hashes(murmur, elems[..k]))
      invariant changed <==> Differ(start, reg[..])
    {
      ghost var before, hs := reg[..], Hashes(murmur, elems[..k]);
      ghost var more := Hashes(murmur, elems[..k + 1]);
      assert more == hs + [murmur(elems[k])];
      var c := DenseAdd(reg, murmur(elems[k]));
      RaisedTwice(start, before, reg[..], hs, [murmur(elems[k])]);
      if c {
        changed := true;
      }
    }
    assert elems[..|elems|] == elems;
  }

  lemma {:induction false} RaisedTwice(start: Packed, mid: Packed, end: Packed, hs: seq<Word64>, gs: seq<Word64>)
    requires Raised(start, mid, hs) && Raised(mid, end, gs)
    ensures Raised(start, end, hs + gs)
    ensures Differ(start, end) <==> Differ(start, mid) || Differ(mid, end)
  {
    forall i | 0 <= i < REGISTERS
      ensures Rank(end, i) == Max(Rank(start, i), MaxRank(hs + gs, i))
      ensures Rank(start, i) <= Rank(mid, i) <= Rank(end, i)
    {
      MaxRankConcat(hs, gs, i);
      assert Rank(mid, i) == Max(Rank(start, i), MaxRank(hs, i));
    }
    if i :| 0 <= i < REGISTERS && Rank(start, i) != Rank(mid, i) { assert Rank(start, i) != Rank(end, i); }
    if i :| 0 <= i < REGISTERS && Rank(mid, i) != Rank(end, i) { assert Rank(start, i) != Rank(end, i); }
  }

  method DenseMerge(dst: array<bv8>, src: Packed) returns (changed: bool)
    requires Dense(dst[..]) && Dense(src)
    modifies dst
    ensures Merged(old(dst[..]), src, dst[..])
    ensures changed <==> Differ(old(dst[..]), dst[..])
  {
    changed := false;
    ghost var start := dst[..];
    for k := 0 to REGISTERS
      invariant Dense(dst[..])
      invariant forall i {:trigger Rank(dst[..], i)} | 0 <= i < REGISTERS ::
                  Rank(dst[..], i) == if i < k then Max(Rank(start, i), Rank(src, i)) else Rank(start, i)
      invariant changed <==> Differ(start, dst[..])
    {
      var n := ReadSrc(src, k);
      var m := ReadRank(dst, k);
      if n > m {
        RanksSet(dst[..], k, n);
        WriteRank(dst, k, n);
        assert Rank(start, k) != Rank(dst[..], k);
        changed := true;
      }
    }
  }

  method ReadSrc(src: Packed, pos: nat) returns (n: nat)
    requires Dense(src) && pos < REGISTERS
    ensures n == Rank(src, pos) && n < 64
  {
    Inside(pos);
    n := Get(src, pos) as nat;
  }

  // ---------------------------------------------------------------- sketches of sequences

  // The sketch holds exactly what adding these elements to an empty one gives.
  ghost predicate Holds(reg: Packed, hs: seq<Word64>) {
    Dense(reg) && forall i {:trigger Rank(reg, i)} | 0 <= i < REGISTERS :: Rank(reg, i) == MaxRank(hs, i)
  }

  function Empty(): (r: Packed)
    ensures Dense(r)
  {
    seq(DENSE + 1, _ => 0)
  }

  lemma {:induction false} EmptyHolds()
    ensures Holds(Empty(), [])
  {
    forall i | 0 <= i < REGISTERS ensures Rank(Empty(), i) == 0 {
      Inside(i);
      Places(i);
      ZeroBits(FirstBit(i));
    }
  }

  lemma {:induction false} ZeroBits(fb: nat)
    requires fb in {0, 2, 4, 6}
    ensures Bits(0, 0, fb) == 0
  {
    if fb == 0 {} else if fb == 2 {} else if fb == 4 {} else {}
  }

  // PFADD: each register becomes the greatest rank of its old value and the elements
  // that fall into it; a missing key is an empty sketch.  The reply is 1 when a register
  // changed or the key is new.
  method PfAdd(stored: Option<Packed>, murmur: Bytes -> Word64, elems: seq<Bytes>) returns (out: Packed, reply: nat)
    requires stored.Some? ==> Dense(stored.value)
    ensures var before := if stored.Some? then stored.value else Empty();
            && Raised(before, out, Hashes(murmur, elems))
            && reply == (if stored.None? || Differ(before, out) then 1 else 0)
  {
    var before := if stored.Some? then stored.value else Empty();
    var reg := new bv8[|before|](i requires 0 <= i < |before| => before[i]);
    assert reg[..] == before;
    var changed := AddElements(reg, murmur, elems);
    out := reg[..];
    reply := if changed || stored.None? then 1 else 0;
  }

  // Adding to a sketch extends the sequence it stands for.
  lemma {:induction false} AddHolds(before: Packed, after: Packed, hs: seq<Word64>, gs: seq<Word64>)
    requires Holds(before, hs) && Raised(before, after, gs)
    ensures Holds(after, hs + gs)
  {
    forall i | 0 <= i < REGISTERS ensures Rank(after, i) == MaxRank(hs + gs, i) {
      MaxRankConcat(hs, gs, i);
      assert Rank(before, i) == MaxRank(hs, i);
    }
  }

  // Merging two sketches gives the sketch of the combined sequences.
  lemma {:induction false} MergeHolds(a: Packed, b: Packed, after: Packed, hs: seq<Word64>, gs: seq<Word64>)
    requires Holds(a, hs) && Holds(b, gs) && Merged(a, b, after)
    ensures Holds(after, hs + gs)
  {
    forall i | 0 <= i < REGISTERS ensures Rank(after, i) == MaxRank(hs + gs, i) {
      MaxRankConcat(hs, gs, i);
      assert Rank(a, i) == MaxRank(hs, i) && Rank(b, i) == MaxRank(gs, i);
    }
  }

  // Sequences with the same elements have the same sketch.
  lemma {:induction false} SameElementsSameSketch(a: Packed, b: Packed, hs: seq<Word64>, gs: seq<Word64>)
    requires Holds(a, hs) && Holds(b, gs) && forall h :: h in hs <==> h in gs
    ensures !Differ(a, b)
  {
    forall i | 0 <= i < REGISTERS ensures Rank(a, i) == Rank(b, i) { OrderDoesNotMatter(hs, gs, i); }
  }

  // The elements of several sketches.
  function All(lists: seq<seq<Word64>>): seq<Word64> {
    if lists == [] then [] else All(lists[..|lists| - 1]) + lists[|lists| - 1]
  }

  // PFMERGE: the sketches that exist, merged into a fresh one.
  method PfMerge(sketches: seq<Packed>, ghost lists: seq<seq<Word64>>) returns (merged: array<bv8>)
    requires |lists| == |sketches| && forall k | 0 <= k < |sketches| :: Holds(sketches[k], lists[k])
    ensures fresh(merged) && Holds(merged[..], All(lists))
  {
    merged := new bv8[DENSE + 1](_ => 0);
    assert merged[..] == Empty();
    EmptyHolds();
    for k := 0 to |sketches|
      invariant fresh(merged) && Holds(merged[..], All(lists[..k]))
    {
      ghost var before := merged[..];
      var _ := DenseMerge(merged, sketches[k]);
      MergeHolds(before, sketches[k], merged[..], All(lists[..k]), lists[k]);
      assert lists[..k + 1][..k] == lists[..k];
    }
    assert lists[..|lists|] == lists;
  }

  // ---------------------------------------------------------------- the stored form

  const HEADER: Packed := [72, 89, 76, 76, 0, 0, 0, 0, 0, 0, 0, 0, 0, 0, 0, 0]

  // The header and the registers, without the spare byte.
  method EncodeHll(reg: Packed) returns (out: Packed)
    ensures |out| == 16 + DENSE && out[..16] == HEADER
    ensures forall k | 0 <= k < DENSE :: out[16 + k] == if k < |reg| then reg[k] else 0
  {
    out := HEADER;
    for i := 0 to DENSE
      invariant |out| == 16 + i && out[..16] == HEADER
      invariant forall k | 0 <= k < i :: out[16 + k] == if k < |reg| then reg[k] else 0
    {
      out := out + [if i < |reg| then reg[i] else 0];
    }
  }

  // Length, magic and encoding are checked; a spare byte is added.
  function DecodeHll(raw: Packed): Option<Packed> {
    if |raw| != 16 + DENSE || raw[..5] != HEADER[..5] then None else Some(raw[16..] + [0])
  }

  // A stored sketch is read back with the same registers.
  lemma {:induction false} DecodeEncode(reg: Packed, raw: Packed, hs: seq<Word64>)
    requires Holds(reg, hs) && |raw| == 16 + DENSE && raw[..16] == HEADER
    requires forall k | 0 <= k < DENSE :: raw[16 + k] == reg[k]
    ensures DecodeHll(raw).Some? && Holds(DecodeHll(raw).value, hs)
  {
    assert raw[..5] == raw[..16][..5];
    var back := raw[16..] + [0];
    forall i | 0 <= i < REGISTERS ensures Rank(back, i) == Rank(reg, i) {
      Inside(i);
      Places(i);
      var b := FirstByte(i);
      assert back[b] == raw[16 + b] == reg[b];
      if b + 1 < DENSE {
        assert back[b + 1] == raw[16 + (b + 1)] == reg[b + 1];
      } else {
        OneByte(reg[b], back[b + 1], if b + 1 < |reg| then reg[b + 1] else 0, FirstBit(i), 0);
      }
    }
  }
}
