/**
 * Byte strings, the variable-length integers of the stored payloads, and lists of
 * length-prefixed items.
 */
module Bytes {
  import opened Options

  type byte = b: int | 0 <= b < 256

  type Bytes = seq<byte>

  // A value read from the front of a buffer, and what follows it.
  type Parsed<T> = Option<(T, Bytes)>

  const WORD: nat := 0x1_0000_0000_0000_0000

  // ---------------------------------------------------------------- integers

  function PutUvarint(x: nat): Bytes {
    if x < 128 then [x] else [x % 128 + 128] + PutUvarint(x / 128)
  }

  // At most ten bytes of seven bits each, the tenth at most 1.
  function UvarintFrom(b: Bytes, i: nat): Parsed<nat>
    decreases 10 - i
  {
    if b == [] || i >= 10 then None
    else if b[0] < 128 then (if i == 9 && b[0] > 1 then None else Some((b[0], b[1..])))
    else
      match UvarintFrom(b[1..], i + 1)
      case None => None
      case Some((x, rest)) => Some((x * 128 + (b[0] - 128), rest))
  }

  function Uvarint(b: Bytes): Parsed<nat> { UvarintFrom(b, 0) }

  // What still fits when `i` bytes have been read.
  function Room(i: nat): nat
    requires i <= 9
    decreases 9 - i
  {
    if i == 9 then 2 else 128 * Room(i + 1)
  }

  lemma {:induction false} UvarintFromPut(x: nat, i: nat, tail: Bytes)
    requires i <= 9 && x < Room(i)
    ensures UvarintFrom(PutUvarint(x) + tail, i) == Some((x, tail))
    decreases 9 - i
  {
    var b := PutUvarint(x) + tail;
    if x < 128 {
      assert b[1..] == tail;
    } else {
      assert i < 9;
      UvarintFromPut(x / 128, i + 1, tail);
      assert b[1..] == PutUvarint(x / 128) + tail;
    }
  }

  lemma {:induction false} RoomIsWord()
    ensures Room(0) == WORD
  {
    assert Room(8) == 256 && Room(7) == 32768 && Room(6) == 4194304 && Room(5) == 536870912;
    assert Room(4) == 68719476736 && Room(3) == 8796093022208 && Room(2) == 1125899906842624;
  }

  lemma {:induction false} UvarintPut(x: nat, tail: Bytes)
    requires x < WORD
    ensures Uvarint(PutUvarint(x) + tail) == Some((x, tail))
  {
    RoomIsWord();
    UvarintFromPut(x, 0, tail);
  }

  // ---------------------------------------------------------------- writers
  //
  // A writer takes what follows it as its last argument, so that a payload is written
  // without regrouping.

  function PutString(s: Bytes, tail: Bytes): Bytes { PutUvarint(|s|) + (s + tail) }

  function ReadString(b: Bytes): Parsed<Bytes> {
    var (n, rest) :- Uvarint(b);
    if |rest| < n then None else Some((rest[..n], rest[n..]))
  }

  lemma {:induction false} StringPut(s: Bytes, tail: Bytes)
    requires |s| < WORD
    ensures ReadString(PutString(s, tail)) == Some((s, tail))
  {
    UvarintPut(|s|, s + tail);
    assert (s + tail)[..|s|] == s && (s + tail)[|s|..] == tail;
  }

  // ---------------------------------------------------------------- lists

  type Writer<!T> = (T, Bytes) -> Bytes

  type Reader<T> = Bytes -> Parsed<T>

  function PutList<T>(items: seq<T>, put: Writer<T>, tail: Bytes): Bytes {
    if items == [] then tail else put(items[0], PutList(items[1..], put, tail))
  }

  // `n` more items, after those already read.
  function ReadMore<T>(n: nat, b: Bytes, read: Reader<T>, done: seq<T>): Parsed<seq<T>>
    decreases n
  {
    if n == 0 then Some((done, b))
    else
      match read(b)
      case None => None
      case Some((x, rest)) => ReadMore(n - 1, rest, read, done + [x])
  }

  function ReadList<T>(n: nat, b: Bytes, read: Reader<T>): Parsed<seq<T>> { ReadMore(n, b, read, []) }

  // The reader undoes the writer on this item, whatever follows it.
  ghost predicate Inverse<T(!new)>(put: Writer<T>, read: Reader<T>, x: T) {
    forall tail :: read(put(x, tail)) == Some((x, tail))
  }

  lemma {:induction false} ReadMorePut<T(!new)>(items: seq<T>, put: Writer<T>, read: Reader<T>, done: seq<T>,
                                         tail: Bytes)
    requires forall x <- items :: Inverse(put, read, x)
    ensures ReadMore(|items|, PutList(items, put, tail), read, done) == Some((done + items, tail))
    decreases |items|
  {
    if items != [] {
      var x, more := items[0], items[1..];
      assert x in items && Inverse(put, read, x);
      ReadMorePut(more, put, read, done + [x], tail);
      assert (done + [x]) + more == done + items;
    } else {
      assert done + items == done;
    }
  }

  lemma {:induction false} ListPut<T(!new)>(items: seq<T>, put: Writer<T>, read: Reader<T>, tail: Bytes)
    requires forall x <- items :: Inverse(put, read, x)
    ensures ReadList(|items|, PutList(items, put, tail), read) == Some((items, tail))
  {
    ReadMorePut(items, put, read, [], tail);
    assert [] + items == items;
  }
}
