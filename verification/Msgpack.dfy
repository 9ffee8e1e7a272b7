/**
 * The cmsgpack library of scripts: packing Lua values into MessagePack and unpacking
 * them again.
 *
 * Main results: `UnpackPack` and `UnpackOneByOne`, which say what comes back however
 * deep tables are nested, and `SameExactly`, when that is what was packed.
 */
module Msgpack {
  import opened Options
  import opened Bytes
  import opened Powers

  // Table keys; tables as keys are left out, as are numbers that are not integers.
  datatype Key = KBool(b: bool) | KInt(i: int) | KStr(s: Bytes)

  datatype Val = Nil | Bool(b: bool) | Int(i: int) | Str(s: Bytes) | Table(m: map<Key, Val>)

  function KeyVal(k: Key): Val {
    match k case KBool(b) => Bool(b) case KInt(i) => Int(i) case KStr(s) => Str(s)
  }

  const MAX_NESTING: nat := 16

  // ---------------------------------------------------------------- big-endian numbers

  function Be(n: nat, k: nat): Bytes { if k == 0 then [] else Be(n / 256, k - 1) + [n % 256] }

  function FromBe(b: Bytes): nat { if b == [] then 0 else FromBe(b[..|b| - 1]) * 256 + b[|b| - 1] }

  function Size(k: nat): nat { if k == 0 then 1 else 256 * Size(k - 1) }

  lemma {:induction false} BeBack(n: nat, k: nat)
    requires n < Size(k)
    ensures |Be(n, k)| == k && FromBe(Be(n, k)) == n
  {
    if k > 0 {
      BeBack(n / 256, k - 1);
      var b := Be(n, k);
      assert b[..|b| - 1] == Be(n / 256, k - 1);
    }
  }

  lemma {:induction false} Sizes()
    ensures Size(1) == 0x100 && Size(2) == 0x1_0000 && Size(4) == 0x1_0000_0000 && Size(8) == 0x1_0000_0000_0000_0000
  {
    assert Size(3) == 0x100_0000 && Size(5) == 0x100_0000_0000 && Size(6) == 0x1_0000_0000_0000;
  }

  // ---------------------------------------------------------------- packing
  //
  // Every writer takes what follows it as its last argument.

  function Put(first: byte, n: nat, k: nat, tail: Bytes): Bytes { [first] + (Be(n, k) + tail) }

  predicate Int64(i: int) { -0x8000_0000_0000_0000 <= i < 0x8000_0000_0000_0000 }

  function PutInt(i: int, tail: Bytes): Bytes
    requires Int64(i)
  {
    if 0 <= i <= 0x7f then [i] + tail
    else if -32 <= i < 0 then [i + 256] + tail
    else if 0 <= i <= 0xff then Put(0xcc, i, 1, tail)
    else if 0 <= i <= 0xffff then Put(0xcd, i, 2, tail)
    else if 0 <= i <= 0xffff_ffff then Put(0xce, i, 4, tail)
    else if 0 <= i then Put(0xcf, i, 8, tail)
    else if i >= -128 then Put(0xd0, i + 0x100, 1, tail)
    else if i >= -32768 then Put(0xd1, i + 0x1_0000, 2, tail)
    else if i >= -2147483648 then Put(0xd2, i + 0x1_0000_0000, 4, tail)
    else Put(0xd3, i + 0x1_0000_0000_0000_0000, 8, tail)
  }

  // Conversion to an unsigned 32-bit number.
  function Word32(n: nat): (r: nat)
    ensures n < 0x1_0000_0000 ==> r == n
  {
    n % 0x1_0000_0000
  }

  function PutStr(s: Bytes, tail: Bytes): Bytes {
    if |s| <= 31 then [0xa0 + |s|] + (s + tail)
    else if |s| <= 0xff then Put(0xd9, |s|, 1, s + tail)
    else if |s| <= 0xffff then Put(0xda, |s|, 2, s + tail)
    else Put(0xdb, Word32(|s|), 4, s + tail)
  }

  function PutLen(fix: byte, len16: byte, len32: byte, n: nat, tail: Bytes): Bytes
    requires fix == 0x80 || fix == 0x90
  {
    if n <= 15 then [fix + n] + tail
    else if n <= 0xffff then Put(len16, n, 2, tail)
    else Put(len32, Word32(n), 4, tail)
  }

  // The order in which a table is walked is left open.
  type Walk = map<Key, Val> -> seq<Key>

  // Every key once.
  ghost predicate Walks(keys: seq<Key>, m: map<Key, Val>) {
    && (forall k :: k in keys <==> k in m)
    && (forall i, j | 0 <= i < j < |keys| :: keys[i] != keys[j])
  }

  ghost predicate GoodWalk(walk: Walk) {
    forall m {:trigger Walks(walk(m), m)} :: Walks(walk(m), m)
  }

  // All keys are positive integers and the greatest of them is their number.
  predicate ArrayLike(m: map<Key, Val>) {
    forall k <- m :: k.KInt? && 1 <= k.i <= |m|
  }

  function PutVal(v: Val, level: nat, walk: Walk, tail: Bytes): Bytes
    decreases v, 1, 0
  {
    match v
    case Nil => [0xc0] + tail
    case Bool(b) => [if b then 0xc3 else 0xc2] + tail
    case Int(i) => if Int64(i) then PutInt(i, tail) else [0xc0] + tail
    case Str(s) => PutStr(s, tail)
    case Table(m) =>
      if level == MAX_NESTING then [0xc0] + tail
      else if ArrayLike(m) then PutLen(0x90, 0xdc, 0xdd, |m|, PutItems(v, 1, level, walk, tail))
      else PutLen(0x80, 0xde, 0xdf, |m|, PutPairs(v, walk(m), level, walk, tail))
  }

  // The items from index `i` on; a missing one is written as nil.
  function PutItems(v: Val, i: nat, level: nat, walk: Walk, tail: Bytes): Bytes
    requires v.Table?
    decreases v, 0, |v.m| + 1 - i
  {
    if i > |v.m| then tail
    else
      var rest := PutItems(v, i + 1, level, walk, tail);
      if KInt(i) in v.m then PutVal(v.m[KInt(i)], level + 1, walk, rest) else [0xc0] + rest
  }

  function PutPairs(v: Val, keys: seq<Key>, level: nat, walk: Walk, tail: Bytes): Bytes
    requires v.Table?
    decreases v, 0, |keys|
  {
    if keys == [] then tail
    else
      var rest := PutPairs(v, keys[1..], level, walk, tail);
      var k := keys[0];
      if k in v.m then PutKey(k, PutVal(v.m[k], level + 1, walk, rest)) else rest
  }

  function PutKey(k: Key, tail: Bytes): Bytes {
    match k
    case KBool(b) => [if b then 0xc3 else 0xc2] + tail
    case KInt(i) => if Int64(i) then PutInt(i, tail) else [0xc0] + tail
    case KStr(s) => PutStr(s, tail)
  }

  function Pack(vs: seq<Val>, walk: Walk, tail: Bytes): Bytes {
    if vs == [] then tail else PutVal(vs[0], 0, walk, Pack(vs[1..], walk, tail))
  }

  lemma {:induction false} WideForm(i: int, n: nat, first: byte, k: nat)
    requires k > 0 && n < Size(k) && (n == i || n == i + Size(k))
    ensures var b := Put(first, n, k, []); |b| == k + 1 && b[0] == first && FromBe(b[1..]) == i % Size(k)
  {
    BeBack(n, k);
    assert Put(first, n, k, [])[1..] == Be(n, k);
    SameRemainder(i, n, Size(k));
  }

  lemma {:induction false} SameRemainder(i: int, n: nat, m: nat)
    requires n < m && (n == i || n == i + m)
    ensures i % m == n
  {
    if n == i { Remainder(i, m, 0, n); } else { Remainder(i, m, -1, n); }
  }

  // An integer takes the shortest form: one byte, or a type byte and the number modulo the
  // size of the form, big-endian.
  lemma {:induction false} IntForms(i: int)
    requires Int64(i)
    ensures var b := PutInt(i, []);
            && |b| == FormSize(i) && (|b| == 1 ==> b[0] == i % 256)
            && (|b| > 1 ==> b[0] == (if i >= 0 then 0xcc else 0xd0) + FormIndex(|b|)
                            && FromBe(b[1..]) == i % Size(|b| - 1))
  {
    var k := FormSize(i) - 1;
    Sizes();
    if k > 0 {
      var first := (if i >= 0 then 0xcc else 0xd0) + FormIndex(k + 1);
      var n := if i >= 0 then i else i + Size(k);
      assert PutInt(i, []) == Put(first, n, k, []);
      WideForm(i, n, first, k);
    }
  }

  // The bytes the least form that holds the number takes.
  function FormSize(i: int): nat {
    if -32 <= i <= 127 then 1 else if -0x80 <= i < 0x100 then 2 else if -0x8000 <= i < 0x1_0000 then 3
    else if -0x8000_0000 <= i < 0x1_0000_0000 then 5 else 9
  }

  function FormIndex(size: nat): nat { if size == 2 then 0 else if size == 3 then 1 else if size == 5 then 2 else 3 }

  lemma {:induction false} KnownSizes()
    ensures PutStr([97], []) == [0xa1, 97]
    ensures PutLen(0x90, 0xdc, 0xdd, 2, []) == [0x92] && PutLen(0x90, 0xdc, 0xdd, 16, []) == [0xdc, 0, 16]
    ensures PutLen(0x80, 0xde, 0xdf, 2, []) == [0x82] && PutLen(0x80, 0xde, 0xdf, 16, []) == [0xde, 0, 16]
  {
    assert Be(16, 2) == [0, 16];
  }

  // ---------------------------------------------------------------- unpacking

  function Number(b: Bytes, k: nat): (r: Parsed<nat>)
    ensures r.Some? ==> |r.value.1| + k == |b|
  {
    if |b| < k then None else Some((FromBe(b[..k]), b[k..]))
  }

  // A number of `k` bytes read as signed.
  function Signed(n: nat, k: nat): int { if 2 * n < Size(k) then n else n - Size(k) }

  function ReadStr(b: Bytes, n: nat): (r: Parsed<Val>)
    ensures r.Some? ==> |r.value.1| <= |b|
  {
    if |b| < n then None else Some((Str(b[..n]), b[n..]))
  }

  // Storing nil under a key removes it.
  function RawSet(m: map<Key, Val>, k: Key, v: Val): map<Key, Val> {
    if v.Nil? then m - {k} else m[k := v]
  }

  function AsKey(v: Val): Option<Key> {
    match v
    case Bool(b) => Some(KBool(b))
    case Int(i) => Some(KInt(i))
    case Str(s) => Some(KStr(s))
    case _ => None
  }

  // The width of the number or length that follows a type byte.
  function Width(first: byte): nat {
    if first == 0xcc || first == 0xd0 || first == 0xd9 then 1
    else if first == 0xcd || first == 0xd1 || first == 0xda || first == 0xdc || first == 0xde then 2
    else if first == 0xce || first == 0xd2 || first == 0xdb || first == 0xdd || first == 0xdf then 4
    else 8
  }

  predicate HasNumber(first: byte) { 0xcc <= first <= 0xd3 || 0xd9 <= first <= 0xdf }

  // One value.  Floats (0xca, 0xcb) are refused here, like the types the source refuses.
  function ReadVal(b: Bytes): (r: Parsed<Val>)
    ensures r.Some? ==> |r.value.1| < |b|
    decreases |b|, 0
  {
    if b == [] then None else
    var first: int, b := b[0], b[1..];
    if first <= 0x7f then Some((Int(first), b))
    else if first >= 0xe0 then Some((Int(first - 256), b))
    else if first >= 0xa0 && first <= 0xbf then ReadStr(b, first - 0xa0)
    else if first >= 0x90 && first <= 0x9f then ReadItems(first - 0x90, b, 1, map[])
    else if first <= 0x8f then ReadPairs(first - 0x80, b, map[])
    else if first == 0xc0 then Some((Nil, b))
    else if first == 0xc2 then Some((Bool(false), b))
    else if first == 0xc3 then Some((Bool(true), b))
    else if HasNumber(first) then
      var (n, b) :- Number(b, Width(first));
      ReadRest(first, n, b)
    else None
  }

  // What follows a type byte and its number.
  function ReadRest(first: byte, n: nat, b: Bytes): (r: Parsed<Val>)
    requires HasNumber(first)
    ensures r.Some? ==> |r.value.1| <= |b|
    decreases |b|, 2
  {
    if first <= 0xcf then Some((Int(n), b))
    else if first <= 0xd3 then Some((Int(Signed(n, Width(first))), b))
    else if first <= 0xdb then ReadStr(b, n)
    else if first <= 0xdd then ReadItems(n, b, 1, map[])
    else ReadPairs(n, b, map[])
  }

  // `n` more items, the next one under index `i`.
  function ReadItems(n: nat, b: Bytes, i: nat, m: map<Key, Val>): (r: Parsed<Val>)
    ensures r.Some? ==> |r.value.1| <= |b|
    decreases |b|, 1
  {
    if n == 0 then Some((Table(m), b)) else
    var (v, b) :- ReadVal(b);
    ReadItems(n - 1, b, i + 1, RawSet(m, KInt(i), v))
  }

  function ReadPairs(n: nat, b: Bytes, m: map<Key, Val>): (r: Parsed<Val>)
    ensures r.Some? ==> |r.value.1| <= |b|
    decreases |b|, 1
  {
    if n == 0 then Some((Table(m), b)) else
    var (k, b) :- ReadVal(b);
    var (v, b) :- ReadVal(b);
    var key :- AsKey(k);
    ReadPairs(n - 1, b, RawSet(m, key, v))
  }

  // ---------------------------------------------------------------- what can be packed

  predicate SmallInt(i: int) { -0x20_0000_0000_0000 <= i <= 0x20_0000_0000_0000 }

  predicate PackableKey(k: Key) { (k.KInt? ==> SmallInt(k.i)) && (k.KStr? ==> |k.s| < 0x1_0000_0000) }

  // Integers exact in a double, strings and tables whose length fits, and tables that
  // hold no nil.
  predicate Packable(v: Val)
    decreases v, 1
  {
    match v
    case Int(i) => SmallInt(i)
    case Str(s) => |s| < 0x1_0000_0000
    case Table(m) => |m| < 0x1_0000_0000 && forall k {:trigger PackablePart(v, k)} | k in m :: PackablePart(v, k)
    case _ => true
  }

  predicate PackablePart(v: Val, k: Key)
    requires v.Table? && k in v.m
    decreases v, 0
  {
    PackableKey(k) && !v.m[k].Nil? && Packable(v.m[k])
  }

  // Tables nested at most `room` deep.
  predicate Nested(v: Val, room: nat)
    decreases v, 1
  {
    v.Table? ==> room > 0 && forall k {:trigger NestedPart(v, k, room - 1)} | k in v.m :: NestedPart(v, k, room - 1)
  }

  predicate NestedPart(v: Val, k: Key, room: nat)
    requires v.Table? && k in v.m
    decreases v, 0
  {
    Nested(v.m[k], room)
  }

  // What is left of a value that is packed at a level: a table beyond the limit becomes
  // nil, and what becomes nil within a table is gone.
  function Cut(v: Val, level: nat): Val
    decreases v, 1
  {
    if !v.Table? then v
    else if level >= MAX_NESTING then Nil
    else Table(map k | k in v.m && !CutPart(v, k, level).Nil? :: CutPart(v, k, level))
  }

  function CutPart(v: Val, k: Key, level: nat): Val
    requires v.Table? && k in v.m
    decreases v, 0
  {
    Cut(v.m[k], level + 1)
  }

  // Nothing is lost exactly when tables are nested no deeper than the limit.
  lemma {:induction false} SameExactly(v: Val, level: nat)
    requires Packable(v) && level <= MAX_NESTING
    ensures Cut(v, level) == v <==> Nested(v, MAX_NESTING - level)
    decreases v
  {
    if v.Table? && level < MAX_NESTING {
      forall k | k in v.m ensures CutPart(v, k, level) == v.m[k] <==> NestedPart(v, k, MAX_NESTING - level - 1) {
        assert PackablePart(v, k);
        SameExactly(v.m[k], level + 1);
      }
      SameParts(v, level);
    }
  }

  lemma {:induction false} SameParts(v: Val, level: nat)
    requires v.Table? && level < MAX_NESTING && Packable(v)
    ensures Cut(v, level) == v <==> forall k | k in v.m :: CutPart(v, k, level) == v.m[k]
  {
    var cut := Cut(v, level).m;
    if forall k | k in v.m :: CutPart(v, k, level) == v.m[k] {
      forall k | k in v.m ensures k in cut && cut[k] == v.m[k] { assert PackablePart(v, k); }
      assert cut == v.m;
    }
  }

  // ---------------------------------------------------------------- leaves

  lemma {:induction false} NumberPut(n: nat, k: nat, tail: Bytes)
    requires n < Size(k)
    ensures Number(Be(n, k) + tail, k) == Some((n, tail))
  {
    BeBack(n, k);
    var b := Be(n, k) + tail;
    assert b[..k] == Be(n, k) && b[k..] == tail;
  }

  // A type byte and its number.
  lemma {:induction false} TypedPut(first: byte, n: nat, k: nat, tail: Bytes)
    requires HasNumber(first) && k == Width(first) && n < Size(k)
    ensures ReadVal(Put(first, n, k, tail)) == ReadRest(first, n, tail)
  {
    NumberPut(n, k, tail);
    assert Put(first, n, k, tail)[1..] == Be(n, k) + tail;
  }

  lemma {:induction false} ShortPut(first: byte, tail: Bytes)
    ensures ([first] + tail)[1..] == tail
  {
  }

  lemma {:induction false} PositivePut(i: int, tail: Bytes)
    requires 0 <= i && Int64(i)
    ensures ReadVal(PutInt(i, tail)) == Some((Int(i), tail))
  {
    Sizes();
    if i <= 0x7f { ShortPut(i, tail); }
    else if i <= 0xff { TypedPut(0xcc, i, 1, tail); }
    else if i <= 0xffff { TypedPut(0xcd, i, 2, tail); }
    else if i <= 0xffff_ffff { TypedPut(0xce, i, 4, tail); }
    else { TypedPut(0xcf, i, 8, tail); }
  }

  lemma {:induction false} NegativePut(i: int, tail: Bytes)
    requires i < 0 && Int64(i)
    ensures ReadVal(PutInt(i, tail)) == Some((Int(i), tail))
  {
    Sizes();
    if i >= -32 { ShortPut(i + 256, tail); }
    else if i >= -128 { SignedPut(0xd0, i, 1, tail); }
    else if i >= -32768 { SignedPut(0xd1, i, 2, tail); }
    else if i >= -2147483648 { SignedPut(0xd2, i, 4, tail); }
    else { SignedPut(0xd3, i, 8, tail); }
  }

  lemma {:induction false} SignedPut(first: byte, i: int, k: nat, tail: Bytes)
    requires 0xd0 <= first <= 0xd3 && k == Width(first) && i < 0 <= 2 * i + Size(k)
    ensures ReadVal(Put(first, i + Size(k), k, tail)) == Some((Int(i), tail))
  {
    TypedPut(first, i + Size(k), k, tail);
  }

  lemma {:induction false} IntPut(i: int, tail: Bytes)
    requires Int64(i)
    ensures ReadVal(PutInt(i, tail)) == Some((Int(i), tail))
  {
    if i >= 0 { PositivePut(i, tail); } else { NegativePut(i, tail); }
  }

  lemma {:induction false} StrBody(s: Bytes, tail: Bytes)
    ensures ReadStr(s + tail, |s|) == Some((Str(s), tail))
  {
    assert (s + tail)[..|s|] == s && (s + tail)[|s|..] == tail;
  }

  lemma {:induction false} StrPut(s: Bytes, tail: Bytes)
    requires |s| < 0x1_0000_0000
    ensures ReadVal(PutStr(s, tail)) == Some((Str(s), tail))
  {
    Sizes();
    if |s| <= 31 { FixStrPut(s, tail); }
    else if |s| <= 0xff { LongStrPut(0xd9, s, 1, tail); }
    else if |s| <= 0xffff { LongStrPut(0xda, s, 2, tail); }
    else { LongStrPut(0xdb, s, 4, tail); }
  }

  lemma {:induction false} FixStrPut(s: Bytes, tail: Bytes)
    requires |s| <= 31
    ensures ReadVal([0xa0 + |s|] + (s + tail)) == Some((Str(s), tail))
  {
    StrBody(s, tail);
    ShortPut(0xa0 + |s|, s + tail);
  }

  lemma {:induction false} LongStrPut(first: byte, s: Bytes, k: nat, tail: Bytes)
    requires 0xd9 <= first <= 0xdb && k == Width(first) && |s| < Size(k)
    ensures ReadVal(Put(first, |s|, k, s + tail)) == Some((Str(s), tail))
  {
    StrBody(s, tail);
    TypedPut(first, |s|, k, s + tail);
  }

  lemma {:induction false} KeyPut(k: Key, tail: Bytes)
    requires PackableKey(k)
    ensures ReadVal(PutKey(k, tail)) == Some((KeyVal(k), tail)) && AsKey(KeyVal(k)) == Some(k)
  {
    match k
    case KBool(b) => ShortPut(if b then 0xc3 else 0xc2, tail);
    case KInt(i) => IntPut(i, tail);
    case KStr(s) => StrPut(s, tail);
  }

  // The length of a table, before its items or pairs.
  lemma {:induction false} ItemsLenPut(n: nat, body: Bytes)
    requires n < 0x1_0000_0000
    ensures ReadVal(PutLen(0x90, 0xdc, 0xdd, n, body)) == ReadItems(n, body, 1, map[])
  {
    Sizes();
    if n <= 15 { ShortPut(0x90 + n, body); }
    else if n <= 0xffff { LongLenPut(0xdc, n, 2, body); }
    else { LongLenPut(0xdd, n, 4, body); }
  }

  lemma {:induction false} PairsLenPut(n: nat, body: Bytes)
    requires n < 0x1_0000_0000
    ensures ReadVal(PutLen(0x80, 0xde, 0xdf, n, body)) == ReadPairs(n, body, map[])
  {
    Sizes();
    if n <= 15 { ShortPut(0x80 + n, body); }
    else if n <= 0xffff { LongLenPut(0xde, n, 2, body); }
    else { LongLenPut(0xdf, n, 4, body); }
  }

  lemma {:induction false} LongLenPut(first: byte, n: nat, k: nat, body: Bytes)
    requires 0xdc <= first <= 0xdf && k == Width(first) && n < Size(k)
    ensures ReadVal(Put(first, n, k, body)) == if first <= 0xdd then ReadItems(n, body, 1, map[])
            else ReadPairs(n, body, map[])
  {
    TypedPut(first, n, k, body);
  }

  // ---------------------------------------------------------------- tables

  // The integers 1 to n.
  function UpTo(n: nat): set<Key> { set i | 1 <= i <= n :: KInt(i) }

  lemma {:induction false} UpToSize(n: nat)
    ensures |UpTo(n)| == n
  {
    if n > 0 {
      UpToSize(n - 1);
      assert UpTo(n) == UpTo(n - 1) + {KInt(n)};
    } else {
      assert UpTo(0) == {};
    }
  }

  // n distinct keys between 1 and n are exactly 1 to n.
  lemma {:induction false} ArrayKeys(m: map<Key, Val>)
    requires ArrayLike(m)
    ensures m.Keys == UpTo(|m|)
  {
    UpToSize(|m|);
    assert m.Keys <= UpTo(|m|);
    SameSize(m.Keys, UpTo(|m|));
  }

  lemma {:induction false} HasItem(m: map<Key, Val>, i: nat)
    requires ArrayLike(m) && 1 <= i <= |m|
    ensures KInt(i) in m
  {
    ArrayKeys(m);
    assert KInt(i) in UpTo(|m|);
  }

  lemma {:induction false} SameSize(a: set<Key>, b: set<Key>)
    requires a <= b && |a| == |b|
    ensures a == b
  {
    assert b == a + (b - a);
    assert |b| == |a| + |b - a|;
  }

  // The table scan of the source decides the same.
  method ScanTable(m: map<Key, Val>, walk: Walk) returns (isArray: bool, pairs: nat)
    requires GoodWalk(walk)
    ensures isArray == ArrayLike(m) && pairs == |m|
  {
    var keys := walk(m);
    assert Walks(walk(m), m);
    var an, max, ints := 0, 0, true;
    pairs := 0;
    for i := 0 to |keys|
      invariant pairs == i && (ints ==> an == i)
      invariant ints <==> forall j | 0 <= j < i :: keys[j].KInt? && keys[j].i >= 1
      invariant ints ==> forall j | 0 <= j < i :: keys[j].i <= max
      invariant ints && i > 0 ==> exists j | 0 <= j < i :: keys[j].i == max
      invariant i == 0 ==> max == 0
    {
      pairs := pairs + 1;
      var k := keys[i];
      if !k.KInt? || k.i < 1 {
        ints := false;
      } else {
        an := an + 1;
        if k.i > max {
          max := k.i;
        }
      }
    }
    WalkSize(m, keys);
    isArray := ints && (an == 0 || max == an);
    ScanDecides(m, keys, ints, max);
  }

  lemma {:induction false} SeqSize(keys: seq<Key>)
    requires forall i, j | 0 <= i < j < |keys| :: keys[i] != keys[j]
    ensures |set k | k in keys| == |keys|
  {
    if keys != [] {
      var init, last := keys[..|keys| - 1], keys[|keys| - 1];
      SeqSize(init);
      assert (set k | k in keys) == (set k | k in init) + {last};
    }
  }

  lemma {:induction false} WalkSize(m: map<Key, Val>, keys: seq<Key>)
    requires Walks(keys, m)
    ensures |keys| == |m|
  {
    SeqSize(keys);
    assert (set k | k in keys) == m.Keys;
  }

  lemma {:induction false} ScanDecides(m: map<Key, Val>, keys: seq<Key>, ints: bool, max: int)
    requires (forall k :: k in keys <==> k in m) && |keys| == |m|
    requires ints <==> forall j | 0 <= j < |keys| :: keys[j].KInt? && keys[j].i >= 1
    requires ints ==> forall j | 0 <= j < |keys| :: keys[j].i <= max
    requires ints && |keys| > 0 ==> exists j | 0 <= j < |keys| :: keys[j].i == max
    ensures ints && (|keys| == 0 || max == |keys|) <==> ArrayLike(m)
  {
    if ints && max == |keys| {
      forall k | k in m ensures k.KInt? && 1 <= k.i <= |m| {
        var j :| 0 <= j < |keys| && keys[j] == k;
      }
    }
    if ArrayLike(m) && |keys| > 0 {
      ArrayKeys(m);
      assert KInt(|m|) in UpTo(|m|) && KInt(|m|) in keys;
      forall j | 0 <= j < |keys| ensures keys[j].KInt? && 1 <= keys[j].i <= |m| { assert keys[j] in m; }
    }
  }

  // ---------------------------------------------------------------- the round trip

  // The items before index `i`.
  function Prefix(m: map<Key, Val>, i: nat): map<Key, Val> { map k | k in m && k.KInt? && k.i < i :: m[k] }

  lemma {:induction false} AllItems(m: map<Key, Val>, n: nat)
    requires forall k <- m :: k.KInt? && 1 <= k.i <= n
    ensures Prefix(m, n + 1) == m && Prefix(m, 1) == map[]
  {
  }

  // The pairs whose key is not among those still to come.
  function Except(m: map<Key, Val>, keys: seq<Key>): map<Key, Val> { map k | k in m && k !in keys :: m[k] }

  // A key is in a cut table with the value that is left of it, or not at all.
  predicate Keeps(cut: map<Key, Val>, k: Key, x: Val) { if x.Nil? then k !in cut else k in cut && cut[k] == x }

  // What is left of a table.
  ghost predicate CutTo(v: Val, level: nat, cut: map<Key, Val>)
    requires v.Table?
  {
    cut.Keys <= v.m.Keys && forall k {:trigger CutPart(v, k, level)} | k in v.m :: Keeps(cut, k, CutPart(v, k, level))
  }

  lemma {:induction false} ValPut(v: Val, level: nat, walk: Walk, tail: Bytes)
    requires GoodWalk(walk) && level <= MAX_NESTING && Packable(v)
    ensures ReadVal(PutVal(v, level, walk, tail)) == Some((Cut(v, level), tail))
    decreases v, 1, 0
  {
    match v
    case Nil => ShortPut(0xc0, tail);
    case Bool(b) => ShortPut(if b then 0xc3 else 0xc2, tail);
    case Int(i) => IntPut(i, tail);
    case Str(s) => StrPut(s, tail);
    case Table(m) =>
      if level == MAX_NESTING {
        ShortPut(0xc0, tail);
      } else if ArrayLike(m) {
        AllItems(Cut(v, level).m, |m|);
        ItemsPut(v, 1, level, walk, tail, Cut(v, level).m);
        ItemsLenPut(|m|, PutItems(v, 1, level, walk, tail));
      } else {
        assert Walks(walk(m), m);
        WalkSize(m, walk(m));
        assert Except(Cut(v, level).m, walk(m)) == map[];
        PairsPut(v, walk(m), level, walk, tail, Cut(v, level).m);
        PairsLenPut(|m|, PutPairs(v, walk(m), level, walk, tail));
      }
  }

  lemma {:induction false} ItemsPut(v: Val, i: nat, level: nat, walk: Walk, tail: Bytes, cut: map<Key, Val>)
    requires GoodWalk(walk) && level < MAX_NESTING && v.Table? && Packable(v) && CutTo(v, level, cut)
    requires ArrayLike(v.m) && 1 <= i <= |v.m| + 1
    ensures ReadItems(|v.m| + 1 - i, PutItems(v, i, level, walk, tail), i, Prefix(cut, i)) == Some((Table(cut), tail))
    decreases v, 0, |v.m| + 1 - i
  {
    if i > |v.m| {
      AllItems(cut, |v.m|);
    } else {
      HasItem(v.m, i);
      var b, rest := ItemPut(v, i, level, walk, tail);
      ItemsPut(v, i + 1, level, walk, tail, cut);
      ItemsGlue(cut, |v.m|, i, CutPart(v, KInt(i), level), b, rest, tail);
    }
  }

  // The item at index `i`, written before those behind it.
  lemma {:induction false} ItemPut(v: Val, i: nat, level: nat, walk: Walk, tail: Bytes) returns (b: Bytes, rest: Bytes)
    requires GoodWalk(walk) && level < MAX_NESTING && v.Table? && Packable(v)
    requires i <= |v.m| && KInt(i) in v.m
    ensures b == PutItems(v, i, level, walk, tail) && rest == PutItems(v, i + 1, level, walk, tail)
    ensures ReadVal(b) == Some((CutPart(v, KInt(i), level), rest))
    decreases v, 0, 0
  {
    rest := PutItems(v, i + 1, level, walk, tail);
    b := PutVal(v.m[KInt(i)], level + 1, walk, rest);
    assert PackablePart(v, KInt(i));
    ValPut(v.m[KInt(i)], level + 1, walk, rest);
  }

  lemma {:induction false} ItemsGlue(cut: map<Key, Val>, n: nat, i: nat, x: Val, b: Bytes, rest: Bytes, tail: Bytes)
    requires i <= n && Keeps(cut, KInt(i), x) && ReadVal(b) == Some((x, rest))
    requires ReadItems(n - i, rest, i + 1, Prefix(cut, i + 1)) == Some((Table(cut), tail))
    ensures ReadItems(n + 1 - i, b, i, Prefix(cut, i)) == Some((Table(cut), tail))
  {
    PrefixGrows(cut, i, x);
    ItemRead(n + 1 - i, b, i, Prefix(cut, i), x, rest);
  }

  lemma {:induction false} PrefixGrows(cut: map<Key, Val>, i: nat, x: Val)
    requires Keeps(cut, KInt(i), x)
    ensures RawSet(Prefix(cut, i), KInt(i), x) == Prefix(cut, i + 1)
  {
  }

  lemma {:induction false} ItemRead(n: nat, b: Bytes, i: nat, m: map<Key, Val>, v: Val, rest: Bytes)
    requires n > 0 && ReadVal(b) == Some((v, rest))
    ensures ReadItems(n, b, i, m) == ReadItems(n - 1, rest, i + 1, RawSet(m, KInt(i), v))
  {
  }

  lemma {:induction false} PairsPut(v: Val, keys: seq<Key>, level: nat, walk: Walk, tail: Bytes, cut: map<Key, Val>)
    requires GoodWalk(walk) && level < MAX_NESTING && v.Table? && Packable(v) && CutTo(v, level, cut)
    requires (forall k <- keys :: k in v.m) && forall i, j | 0 <= i < j < |keys| :: keys[i] != keys[j]
    ensures ReadPairs(|keys|, PutPairs(v, keys, level, walk, tail), Except(cut, keys)) == Some((Table(cut), tail))
    decreases v, 0, |keys|
  {
    if keys == [] {
      assert Except(cut, keys) == cut;
    } else {
      assert keys[0] in keys && keys[0] !in keys[1..];
      var k, more := keys[0], keys[1..];
      assert keys == [k] + more;
      var b, rest := PairPut(v, keys, level, walk, tail);
      PairsPut(v, more, level, walk, tail, cut);
      PairsGlue(cut, k, more, CutPart(v, k, level), b, rest);
    }
  }

  // A key and a value at the front of the bytes.
  ghost predicate PairAt(k: Key, x: Val, b: Bytes, rest: Bytes) {
    && AsKey(KeyVal(k)) == Some(k)
    && ReadVal(b).Some? && ReadVal(b).value.0 == KeyVal(k) && ReadVal(ReadVal(b).value.1) == Some((x, rest))
  }

  // The first pair, written before the others.
  lemma {:induction false} PairPut(v: Val, keys: seq<Key>, level: nat, walk: Walk, tail: Bytes)
    returns (b: Bytes, rest: Bytes)
    requires GoodWalk(walk) && level < MAX_NESTING && v.Table? && Packable(v)
    requires keys != [] && keys[0] in v.m
    ensures b == PutPairs(v, keys, level, walk, tail) && rest == PutPairs(v, keys[1..], level, walk, tail)
    ensures PairAt(keys[0], CutPart(v, keys[0], level), b, rest)
    decreases v, 0, 0
  {
    var k := keys[0];
    rest := PutPairs(v, keys[1..], level, walk, tail);
    var c := PutVal(v.m[k], level + 1, walk, rest);
    b := PutKey(k, c);
    assert PackablePart(v, k);
    ValPut(v.m[k], level + 1, walk, rest);
    KeyPut(k, c);
  }

  lemma {:induction false} PairsGlue(cut: map<Key, Val>, k: Key, more: seq<Key>, x: Val, b: Bytes, rest: Bytes)
    requires k !in more && Keeps(cut, k, x) && PairAt(k, x, b, rest)
    ensures ReadPairs(1 + |more|, b, Except(cut, [k] + more)) == ReadPairs(|more|, rest, Except(cut, more))
  {
    var c := ReadVal(b).value.1;
    ExceptGrows(cut, k, more, x);
    PairRead(1 + |more|, b, c, rest, Except(cut, [k] + more), k, x);
  }

  lemma {:induction false} ExceptGrows(cut: map<Key, Val>, k: Key, more: seq<Key>, x: Val)
    requires k !in more && Keeps(cut, k, x)
    ensures RawSet(Except(cut, [k] + more), k, x) == Except(cut, more)
  {
  }

  lemma {:induction false} PairRead(n: nat, b: Bytes, c: Bytes, rest: Bytes, m: map<Key, Val>, k: Key, v: Val)
    requires n > 0 && ReadVal(b) == Some((KeyVal(k), c)) && ReadVal(c) == Some((v, rest)) && AsKey(KeyVal(k)) == Some(k)
    ensures ReadPairs(n, b, m) == ReadPairs(n - 1, rest, RawSet(m, k, v))
  {
  }

  // ---------------------------------------------------------------- lists of values

  predicate AllPackable(vs: seq<Val>) { forall v <- vs :: Packable(v) }

  function CutAll(vs: seq<Val>): seq<Val> { seq(|vs|, i requires 0 <= i < |vs| => Cut(vs[i], 0)) }

  lemma {:induction false} CutRest(vs: seq<Val>)
    requires vs != []
    ensures CutAll(vs) == [Cut(vs[0], 0)] + CutAll(vs[1..])
  {
  }

  // Everything in a buffer, after what was already read.
  function ReadAll(b: Bytes, done: seq<Val>): Option<seq<Val>>
    decreases |b|
  {
    if b == [] then Some(done) else
    var (v, b) :- ReadVal(b);
    ReadAll(b, done + [v])
  }

  // cmsgpack.unpack.
  method Unpack(s: Bytes) returns (vals: Option<seq<Val>>)
    ensures vals == ReadAll(s, [])
  {
    var rest, done := s, [];
    while rest != []
      invariant ReadAll(rest, done) == ReadAll(s, [])
      decreases |rest|
    {
      var r := ReadVal(rest);
      if r.None? {
        return None;
      }
      done, rest := done + [r.value.0], r.value.1;
    }
    return Some(done);
  }

  lemma {:induction false} PackRead(vs: seq<Val>, walk: Walk, tail: Bytes)
    requires GoodWalk(walk) && AllPackable(vs) && vs != []
    ensures ReadVal(Pack(vs, walk, tail)) == Some((Cut(vs[0], 0), Pack(vs[1..], walk, tail)))
            && Pack(vs, walk, tail) != []
  {
    assert vs[0] in vs;
    ValPut(vs[0], 0, walk, Pack(vs[1..], walk, tail));
  }

  lemma {:induction false} ReadAllPack(vs: seq<Val>, walk: Walk, done: seq<Val>)
    requires GoodWalk(walk) && AllPackable(vs)
    ensures ReadAll(Pack(vs, walk, []), done) == Some(done + CutAll(vs))
    decreases |vs|
  {
    if vs == [] {
      assert done + CutAll(vs) == done;
    } else {
      var v := Cut(vs[0], 0);
      PackRead(vs, walk, []);
      ReadAllPack(vs[1..], walk, done + [v]);
      FirstRead(Pack(vs, walk, []), Pack(vs[1..], walk, []), v, done);
      CutRest(vs);
      assert (done + [v]) + CutAll(vs[1..]) == done + ([v] + CutAll(vs[1..]));
    }
  }

  lemma {:induction false} FirstRead(b: Bytes, rest: Bytes, v: Val, done: seq<Val>)
    requires b != [] && ReadVal(b) == Some((v, rest))
    ensures ReadAll(b, done) == ReadAll(rest, done + [v])
  {
  }

  // Unpacking what was packed gives what is left of each value, whatever order tables
  // were walked in.
  lemma {:induction false} UnpackPack(vs: seq<Val>, walk: Walk)
    requires GoodWalk(walk) && AllPackable(vs)
    ensures ReadAll(Pack(vs, walk, []), []) == Some(CutAll(vs))
  {
    ReadAllPack(vs, walk, []);
    assert [] + CutAll(vs) == CutAll(vs);
  }

  // So it gives the same list exactly when no table is nested deeper than the limit.
  lemma {:induction false} UnpackPackSame(vs: seq<Val>, walk: Walk)
    requires GoodWalk(walk) && AllPackable(vs)
    ensures ReadAll(Pack(vs, walk, []), []) == Some(vs) <==> forall v <- vs :: Nested(v, MAX_NESTING)
  {
    UnpackPack(vs, walk);
    forall i | 0 <= i < |vs| ensures CutAll(vs)[i] == vs[i] <==> Nested(vs[i], MAX_NESTING) {
      assert vs[i] in vs;
      SameExactly(vs[i], 0);
    }
    if forall v <- vs :: Nested(v, MAX_NESTING) {
      forall i | 0 <= i < |vs| ensures CutAll(vs)[i] == vs[i] { assert vs[i] in vs; }
      assert CutAll(vs) == vs;
    }
  }

  // ---------------------------------------------------------------- one by one

  // The next offset, -1 at the end, and the values read on the way.
  datatype Step = Step(next: int, vals: seq<Val>)

  // Up to `limit` values from an offset; a negative limit is no limit.
  function RangeFrom(s: Bytes, b: Bytes, limit: int, done: seq<Val>): Option<Step>
    requires |b| <= |s|
    decreases |b|
  {
    if b == [] || 0 <= limit <= |done| then Some(Step(if b == [] then -1 else |s| - |b|, done)) else
    var (v, b) :- ReadVal(b);
    RangeFrom(s, b, limit, done + [v])
  }

  // Offsets outside the buffer are errors.
  function DecodeRange(s: Bytes, off: int, limit: int): Option<Step> {
    if off < 0 || off > |s| then None else RangeFrom(s, s[off..], limit, [])
  }

  method UnpackRange(s: Bytes, off: int, limit: int) returns (r: Option<Step>)
    ensures r == DecodeRange(s, off, limit)
  {
    if off < 0 || off > |s| {
      return None;
    }
    var rest, done := s[off..], [];
    while rest != [] && (limit < 0 || |done| < limit)
      invariant |rest| <= |s| && RangeFrom(s, rest, limit, done) == DecodeRange(s, off, limit)
      invariant done == [] ==> rest == s[off..]
      decreases |rest|
    {
      var v := ReadVal(rest);
      if v.None? {
        return None;
      }
      done, rest := done + [v.value.0], v.value.1;
    }
    if done == [] {
      return Some(Step(if off >= |s| then -1 else off, []));
    }
    var next := |s| - |rest|;
    return Some(Step(if next >= |s| then -1 else next, done));
  }

  // What is left after a value is the end of what was there before it.
  predicate Tail(t: Bytes, b: Bytes) { |t| <= |b| && b[|b| - |t|..] == t }

  lemma {:induction false} TailOfTail(b: Bytes, c: Bytes, d: Bytes)
    requires Tail(c, b) && Tail(d, c)
    ensures Tail(d, b)
  {
  }

  lemma {:induction false} DropTail(b: Bytes, k: nat)
    requires k <= |b|
    ensures Tail(b[k..], b)
  {
  }

  lemma {:induction false} RestIsTail(b: Bytes)
    ensures ReadVal(b).Some? ==> Tail(ReadVal(b).value.1, b)
    decreases |b|, 0
  {
    if b != [] && ReadVal(b).Some? {
      var first, c := b[0], b[1..];
      DropTail(b, 1);
      if 0xa0 <= first <= 0xbf { DropTail(c, first - 0xa0); }
      else if 0x90 <= first <= 0x9f { ItemsTail(first - 0x90, c, 1, map[]); }
      else if 0x80 <= first <= 0x8f { PairsTail(first - 0x80, c, map[], ReadVal(b).value.1); }
      else if HasNumber(first) {
        DropTail(c, Width(first));
        var (n, d) := Number(c, Width(first)).value;
        NumberTail(first, n, d);
        TailOfTail(c, d, ReadVal(b).value.1);
      }
      if Tail(ReadVal(b).value.1, c) { TailOfTail(b, c, ReadVal(b).value.1); }
    }
  }

  lemma {:induction false} NumberTail(first: byte, n: nat, b: Bytes)
    requires HasNumber(first)
    ensures ReadRest(first, n, b).Some? ==> Tail(ReadRest(first, n, b).value.1, b)
    decreases |b|, 2
  {
    if 0xdc <= first <= 0xdd { ItemsTail(n, b, 1, map[]); }
    else if 0xde <= first <= 0xdf && ReadPairs(n, b, map[]).Some? {
      PairsTail(n, b, map[], ReadPairs(n, b, map[]).value.1);
    }
    else if 0xd9 <= first <= 0xdb && n <= |b| { DropTail(b, n); }
  }

  lemma {:induction false} ItemsTail(n: nat, b: Bytes, i: nat, m: map<Key, Val>)
    ensures ReadItems(n, b, i, m).Some? ==> Tail(ReadItems(n, b, i, m).value.1, b)
    decreases |b|, 1
  {
    if n > 0 && ReadVal(b).Some? {
      var (v, c) := ReadVal(b).value;
      RestIsTail(b);
      ItemsTail(n - 1, c, i + 1, RawSet(m, KInt(i), v));
      if ReadItems(n, b, i, m).Some? { TailOfTail(b, c, ReadItems(n, b, i, m).value.1); }
    }
  }

  lemma {:induction false} PairsFirst(n: nat, b: Bytes, m: map<Key, Val>)
    returns (c: Bytes, d: Bytes, m': map<Key, Val>)
    requires n > 0 && ReadPairs(n, b, m).Some?
    ensures ReadVal(b).Some? && c == ReadVal(b).value.1 && ReadVal(c).Some? && d == ReadVal(c).value.1
    ensures |d| < |b| && ReadPairs(n, b, m) == ReadPairs(n - 1, d, m')
  {
    var (k, c1) := ReadVal(b).value;
    var (v, d1) := ReadVal(c1).value;
    c, d, m' := c1, d1, RawSet(m, AsKey(k).value, v);
  }

  lemma {:induction false} PairsTail(n: nat, b: Bytes, m: map<Key, Val>, end: Bytes)
    requires ReadPairs(n, b, m).Some? && ReadPairs(n, b, m).value.1 == end
    ensures Tail(end, b)
    decreases |b|, 1
  {
    if n > 0 {
      var c, d, m' := PairsFirst(n, b, m);
      RestIsTail(b);
      RestIsTail(c);
      TailOfTail(b, c, d);
      PairsTail(n - 1, d, m', end);
      TailOfTail(b, d, end);
    }
  }

  // Asking for one value at a time, each time at the offset the last answer gave, until
  // the answer is -1.
  function OneByOne(s: Bytes, off: nat, done: seq<Val>): Option<seq<Val>>
    requires off <= |s|
    decreases |s| - off
  {
    match DecodeRange(s, off, 1)
    case None => None
    case Some(step) =>
      if step.next < 0 then Some(done + step.vals)
      else if off < step.next <= |s| then OneByOne(s, step.next, done + step.vals)
      else None
  }

  // The answer for the first value of what is left.
  lemma {:induction false} StepPack(s: Bytes, off: nat, vs: seq<Val>, walk: Walk) returns (step: Step)
    requires GoodWalk(walk) && AllPackable(vs) && vs != [] && off <= |s| && s[off..] == Pack(vs, walk, [])
    ensures DecodeRange(s, off, 1) == Some(step) && step.vals == [Cut(vs[0], 0)]
    ensures vs[1..] == [] ==> step.next == -1
    ensures vs[1..] != [] ==> off < step.next <= |s| && s[step.next..] == Pack(vs[1..], walk, [])
  {
    var rest := Pack(vs[1..], walk, []);
    PackRead(vs, walk, []);
    OneRead(s, s[off..], Cut(vs[0], 0), rest);
    NextOffset(s, off, vs, walk);
    if vs[1..] != [] { PackRead(vs[1..], walk, []); }
    step := Step(if rest == [] then -1 else |s| - |rest|, [Cut(vs[0], 0)]);
  }

  lemma {:induction false} OneRead(s: Bytes, b: Bytes, v: Val, rest: Bytes)
    requires |b| <= |s| && b != [] && ReadVal(b) == Some((v, rest))
    ensures RangeFrom(s, b, 1, []) == Some(Step(if rest == [] then -1 else |s| - |rest|, [v]))
  {
    assert [] + [v] == [v];
  }

  lemma {:induction false} OneByOneFrom(s: Bytes, off: nat, vs: seq<Val>, walk: Walk, done: seq<Val>)
    requires GoodWalk(walk) && AllPackable(vs) && off <= |s| && s[off..] == Pack(vs, walk, [])
    ensures OneByOne(s, off, done) == Some(done + CutAll(vs))
    decreases |vs|
  {
    if vs == [] {
      assert DecodeRange(s, off, 1) == Some(Step(-1, []));
      assert done + CutAll(vs) == done + [];
    } else {
      var step := StepPack(s, off, vs, walk);
      if vs[1..] != [] { OneByOneFrom(s, step.next, vs[1..], walk, done + [Cut(vs[0], 0)]); }
      CutRest(vs);
      OneMore(s, off, step, Cut(vs[0], 0), CutAll(vs[1..]), done);
    }
  }

  lemma {:induction false} OneMore(s: Bytes, off: nat, step: Step, v: Val, more: seq<Val>, done: seq<Val>)
    requires off <= |s| && DecodeRange(s, off, 1) == Some(step) && step.vals == [v]
    requires more == [] ==> step.next == -1
    requires more != [] ==> off < step.next <= |s| && OneByOne(s, step.next, done + [v]) == Some((done + [v]) + more)
    ensures OneByOne(s, off, done) == Some(done + ([v] + more))
  {
    assert (done + [v]) + more == done + ([v] + more);
    if more == [] { assert done + step.vals == done + ([v] + more); }
  }

  lemma {:induction false} NextOffset(s: Bytes, off: nat, vs: seq<Val>, walk: Walk)
    requires GoodWalk(walk) && AllPackable(vs) && vs != [] && off <= |s| && s[off..] == Pack(vs, walk, [])
    ensures Tail(Pack(vs[1..], walk, []), s)
  {
    PackRead(vs, walk, []);
    RestIsTail(s[off..]);
    DropTail(s, off);
    TailOfTail(s, s[off..], Pack(vs[1..], walk, []));
  }

  // Repeated unpack_one from offset 0 gives the same as unpacking all at once.
  lemma {:induction false} UnpackOneByOne(vs: seq<Val>, walk: Walk)
    requires GoodWalk(walk) && AllPackable(vs)
    ensures OneByOne(Pack(vs, walk, []), 0, []) == Some(CutAll(vs)) == ReadAll(Pack(vs, walk, []), [])
  {
    var s := Pack(vs, walk, []);
    assert s[0..] == s;
    OneByOneFrom(s, 0, vs, walk, []);
    UnpackPack(vs, walk);
    assert [] + CutAll(vs) == CutAll(vs);
  }
}
