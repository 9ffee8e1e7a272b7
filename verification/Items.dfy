/**
 * Stream ids and lists kept in strictly increasing id order: the entries of a stream
 * and the pending records of a consumer group.
 */
module Items {
  import opened Options

  const MAX64: nat := 0xFFFF_FFFF_FFFF_FFFF

  datatype Id = Id(ms: nat, sq: nat)

  const MIN_ID := Id(0, 0)
  const MAX_ID := Id(MAX64, MAX64)

  predicate Less(a: Id, b: Id) { if a.ms != b.ms then a.ms < b.ms else a.sq < b.sq }

  predicate AtMost(a: Id, b: Id) { !Less(b, a) }

  datatype Item<T> = Item(id: Id, data: T)

  ghost predicate Sorted<T>(s: seq<Item<T>>) {
    forall i, j | 0 <= i < j < |s| :: Less(s[i].id, s[j].id)
  }

  function Ids<T>(s: seq<Item<T>>): set<Id> { set i | 0 <= i < |s| :: s[i].id }

  // The index of the first item with this id, or -1.
  function Position<T>(s: seq<Item<T>>, id: Id): (i: int)
    ensures -1 <= i < |s|
  {
    PositionFrom(s, id, 0)
  }

  function PositionFrom<T>(s: seq<Item<T>>, id: Id, from: nat): (i: int)
    requires from <= |s|
    ensures i == -1 || from <= i < |s|
    decreases |s| - from
  {
    if from == |s| then -1 else if s[from].id == id then from else PositionFrom(s, id, from + 1)
  }

  lemma {:induction false} PositionLaw<T>(s: seq<Item<T>>, id: Id)
    ensures var i := Position(s, id);
            && (i >= 0 ==> s[i].id == id && forall k | 0 <= k < i :: s[k].id != id)
            && (i < 0 ==> forall k | 0 <= k < |s| :: s[k].id != id)
            && (i >= 0 <==> id in Ids(s))
  {
    PositionFromLaw(s, id, 0);
  }

  lemma {:induction false} PositionFromLaw<T>(s: seq<Item<T>>, id: Id, from: nat)
    requires from <= |s|
    ensures var i := PositionFrom(s, id, from);
            && (i >= 0 ==> s[i].id == id && forall k | from <= k < i :: s[k].id != id)
            && (i < 0 ==> forall k | from <= k < |s| :: s[k].id != id)
    decreases |s| - from
  {
    if from < |s| { PositionFromLaw(s, id, from + 1); }
  }

  function Find<T>(s: seq<Item<T>>, id: Id): Option<T> {
    var i := Position(s, id);
    if i < 0 then None else Some(s[i].data)
  }

  lemma {:induction false} PositionIs<T>(s: seq<Item<T>>, id: Id, i: nat)
    requires i < |s| && s[i].id == id && forall k | 0 <= k < i :: s[k].id != id
    ensures Position(s, id) == i
  {
    PositionLaw(s, id);
  }

  // The list without the first item of this id.
  function Drop<T>(s: seq<Item<T>>, id: Id): seq<Item<T>> {
    var i := Position(s, id);
    if i < 0 then s else s[..i] + s[i + 1..]
  }

  // How many leading items have an id at most `id`.
  function Behind<T>(s: seq<Item<T>>, id: Id): (n: nat)
    ensures n <= |s|
  {
    BehindFrom(s, id, 0)
  }

  function BehindFrom<T>(s: seq<Item<T>>, id: Id, from: nat): (n: nat)
    requires from <= |s|
    ensures from <= n <= |s|
    decreases |s| - from
  {
    if from < |s| && AtMost(s[from].id, id) then BehindFrom(s, id, from + 1) else from
  }

  lemma {:induction false} BehindLaw<T>(s: seq<Item<T>>, id: Id)
    ensures forall k | 0 <= k < Behind(s, id) :: AtMost(s[k].id, id)
    ensures Behind(s, id) < |s| ==> Less(id, s[Behind(s, id)].id)
  {
    BehindFromLaw(s, id, 0);
  }

  lemma {:induction false} BehindFromLaw<T>(s: seq<Item<T>>, id: Id, from: nat)
    requires from <= |s|
    ensures forall k | from <= k < BehindFrom(s, id, from) :: AtMost(s[k].id, id)
    ensures BehindFrom(s, id, from) < |s| ==> Less(id, s[BehindFrom(s, id, from)].id)
    decreases |s| - from
  {
    if from < |s| && AtMost(s[from].id, id) { BehindFromLaw(s, id, from + 1); }
  }

  // How many leading items have an id below `id`.
  function Before<T>(s: seq<Item<T>>, id: Id): (n: nat)
    ensures n <= |s|
    ensures forall k | 0 <= k < n :: Less(s[k].id, id)
    ensures n < |s| ==> AtMost(id, s[n].id)
  {
    BeforeFrom(s, id, 0)
  }

  function BeforeFrom<T>(s: seq<Item<T>>, id: Id, from: nat): (n: nat)
    requires from <= |s|
    ensures from <= n <= |s|
    ensures forall k | from <= k < n :: Less(s[k].id, id)
    ensures n < |s| ==> AtMost(id, s[n].id)
    decreases |s| - from
  {
    if from < |s| && Less(s[from].id, id) then BeforeFrom(s, id, from + 1) else from
  }

  // The list with the item inserted, or put in place of the one with its id.
  function Upsert<T>(s: seq<Item<T>>, p: Item<T>): seq<Item<T>> {
    var i := Position(s, p.id);
    if i >= 0 then s[i := p] else
    var n := Behind(s, p.id);
    s[..n] + [p] + s[n..]
  }

  // ---------------------------------------------------------------- laws

  lemma {:induction false} BehindSplits<T>(s: seq<Item<T>>, id: Id)
    requires Sorted(s)
    ensures forall k | 0 <= k < |s| :: AtMost(s[k].id, id) <==> k < Behind(s, id)
  {
    BehindLaw(s, id);
  }

  lemma {:induction false} DropLaw<T>(s: seq<Item<T>>, id: Id)
    requires Sorted(s)
    ensures Sorted(Drop(s, id)) && Ids(Drop(s, id)) == Ids(s) - {id}
    ensures forall p :: p in Drop(s, id) <==> p in s && p.id != id
    ensures |Drop(s, id)| == |s| - if id in Ids(s) then 1 else 0
  {
    var i, t := Position(s, id), Drop(s, id);
    PositionLaw(s, id);
    if i >= 0 {
      forall p | p in s && p.id != id ensures p in t {
        var k :| 0 <= k < |s| && s[k] == p;
        assert p == if k < i then t[k] else t[k - 1];
      }
    }
    IdsOf(s);
    IdsOf(t);
  }

  lemma {:induction false} IdsOf<T>(s: seq<Item<T>>)
    ensures forall id :: id in Ids(s) <==> exists p <- s :: p.id == id
  {
    forall id | id in Ids(s) ensures exists p <- s :: p.id == id {
      var i :| 0 <= i < |s| && s[i].id == id;
      assert s[i] in s;
    }
  }

  lemma {:induction false} IdsSnoc<T>(init: seq<Item<T>>, e: Item<T>)
    ensures Ids(init + [e]) == Ids(init) + {e.id}
  {
    var all := init + [e];
    assert all[|init|] == e;
    forall id | id in Ids(init) ensures id in Ids(all) {
      var i :| 0 <= i < |init| && init[i].id == id;
      assert all[i] == init[i];
    }
  }

  lemma {:induction false} IdsConcat<T>(s: seq<Item<T>>, t: seq<Item<T>>)
    ensures Ids(s + t) == Ids(s) + Ids(t)
  {
    var all := s + t;
    forall id | id in Ids(s) ensures id in Ids(all) {
      var i :| 0 <= i < |s| && s[i].id == id;
      assert all[i] == s[i];
    }
    forall id | id in Ids(t) ensures id in Ids(all) {
      var i :| 0 <= i < |t| && t[i].id == id;
      assert all[|s| + i] == t[i];
    }
  }

  // Lists with the same ids in the same places.
  lemma {:induction false} SameIds<T, U>(s: seq<Item<T>>, t: seq<Item<U>>)
    requires |s| == |t| && forall i | 0 <= i < |s| :: s[i].id == t[i].id
    ensures Ids(s) == Ids(t) && (Sorted(s) <==> Sorted(t))
  {
  }

  lemma {:induction false} ReplaceLaw<T>(s: seq<Item<T>>, i: nat, p: Item<T>)
    requires Sorted(s) && i < |s| && s[i].id == p.id
    ensures Sorted(s[i := p]) && Ids(s[i := p]) == Ids(s)
    ensures forall q :: q in s[i := p] <==> q == p || (q in s && q.id != p.id)
  {
    var t := s[i := p];
    assert t[i] == p && forall k | 0 <= k < |s| :: t[k].id == s[k].id;
    forall q | q in s && q.id != p.id ensures q in t {
      var k :| 0 <= k < |s| && s[k] == q;
      assert t[k] == q;
    }
  }

  lemma {:induction false} InsertLaw<T>(s: seq<Item<T>>, n: nat, p: Item<T>)
    requires Sorted(s) && n <= |s|
    requires forall k | 0 <= k < |s| :: if k < n then Less(s[k].id, p.id) else Less(p.id, s[k].id)
    ensures var t := s[..n] + [p] + s[n..];
            && Sorted(t) && Ids(t) == Ids(s) + {p.id}
            && forall q :: q in t <==> q == p || q in s
  {
    var t := s[..n] + [p] + s[n..];
    assert t[n] == p && forall k | 0 <= k < |s| :: s[k] == if k < n then t[k] else t[k + 1];
    IdsOf(s);
    IdsOf(t);
  }

  lemma {:induction false} UpsertLaw<T>(s: seq<Item<T>>, p: Item<T>)
    requires Sorted(s)
    ensures Sorted(Upsert(s, p)) && Ids(Upsert(s, p)) == Ids(s) + {p.id}
    ensures forall q :: q in Upsert(s, p) <==> q == p || (q in s && q.id != p.id)
  {
    var i := Position(s, p.id);
    PositionLaw(s, p.id);
    if i >= 0 {
      ReplaceLaw(s, i, p);
    } else {
      BehindSplits(s, p.id);
      InsertLaw(s, Behind(s, p.id), p);
    }
  }

  lemma {:induction false} Place<T>(s: seq<Item<T>>, id: Id, i: nat)
    requires Sorted(s) && i <= |s| && (forall k | 0 <= k < i :: Less(s[k].id, id)) && (i < |s| ==> AtMost(id, s[i].id))
    ensures if i < |s| && s[i].id == id then Position(s, id) == i else Position(s, id) == -1 && Behind(s, id) == i
  {
    PositionLaw(s, id);
    BehindSplits(s, id);
    if i < |s| && s[i].id == id {
      PositionIs(s, id, i);
    } else {
      var n := Behind(s, id);
      assert i > 0 ==> AtMost(s[i - 1].id, id);
      assert i < |s| ==> !AtMost(s[i].id, id);
      assert n == i;
      assert forall k | 0 <= k < |s| :: s[k].id != id;
    }
  }

  // The place where an item goes, found from the left.
  lemma {:induction false} UpsertAt<T>(s: seq<Item<T>>, p: Item<T>, i: nat)
    requires Sorted(s) && i <= |s|
    requires forall k | 0 <= k < i :: Less(s[k].id, p.id)
    requires i < |s| ==> AtMost(p.id, s[i].id)
    ensures Sorted(Upsert(s, p))
    ensures Upsert(s, p) == if i < |s| && s[i].id == p.id then s[i := p] else s[..i] + [p] + s[i..]
  {
    UpsertLaw(s, p);
    Place(s, p.id, i);
  }

  // Appending past the end.
  lemma {:induction false} AppendLaw<T>(s: seq<Item<T>>, p: Item<T>)
    requires Sorted(s) && forall q <- s :: Less(q.id, p.id)
    ensures Sorted(s + [p]) && Ids(s + [p]) == Ids(s) + {p.id}
  {
    var t := s + [p];
    forall i, j | 0 <= i < j < |t| ensures Less(t[i].id, t[j].id) {
      if j == |s| { assert s[i] in s; }
    }
    assert t[|s|] == p;
    IdsOf(s);
    IdsOf(t);
  }

  // ---------------------------------------------------------------- several ids

  function DropAll<T>(s: seq<Item<T>>, ids: seq<Id>): seq<Item<T>> {
    if ids == [] then s else Drop(DropAll(s, ids[..|ids| - 1]), ids[|ids| - 1])
  }

  lemma {:induction false} DropAllLaw<T>(s: seq<Item<T>>, ids: seq<Id>)
    requires Sorted(s)
    ensures Sorted(DropAll(s, ids)) && |DropAll(s, ids)| <= |s|
    ensures forall e :: e in DropAll(s, ids) <==> e in s && e.id !in ids
    ensures Ids(DropAll(s, ids)) == Ids(s) - set id | id in ids
  {
    if ids != [] {
      var init, id := ids[..|ids| - 1], ids[|ids| - 1];
      DropAllLaw(s, init);
      DropLaw(DropAll(s, init), id);
      assert ids == init + [id];
    }
  }

  lemma {:induction false} IdCount<T>(s: seq<Item<T>>)
    requires Sorted(s)
    ensures |Ids(s)| == |s|
  {
    if s != [] {
      var init, p := s[..|s| - 1], s[|s| - 1];
      IdCount(init);
      assert init + [p] == s;
      IdsSnoc(init, p);
      assert p.id !in Ids(init);
    }
  }
}
