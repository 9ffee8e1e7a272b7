/**
 * The log part of a stream: XADD, XDEL and XTRIM.
 */
module StreamLog {
  import opened Options
  import opened Bytes
  import opened Items

  type Entry = Item<seq<Bytes>>

  // Conversion to an unsigned 64-bit number.
  function Word(n: int): nat { n % 0x1_0000_0000_0000_0000 }

  datatype Log = Log(entries: seq<Entry>, last: Id, hasLast: bool, added: nat, maxDeleted: Id)

  const EMPTY := Log([], MIN_ID, false, 0, MIN_ID)

  // Entries in order and not past the last id, which also bounds deleted ids.
  ghost predicate LogOk(l: Log) {
    && Sorted(l.entries)
    && (forall e <- l.entries :: AtMost(e.id, l.last))
    && AtMost(l.maxDeleted, l.last)
    && (!l.hasLast ==> l.entries == [] && l.last == MIN_ID)
  }

  // ---------------------------------------------------------------- XADD

  // "*", "ms-*" and an explicit id.
  datatype IdRequest = Auto | AutoSeq(ms: nat) | Exact(id: Id)

  function ResolveAddId(l: Log, req: IdRequest, now: nat): (r: Option<Id>)
  {
    match req
    case Exact(id) =>
      if !l.hasLast then (if id == MIN_ID then None else Some(id))
      else if AtMost(id, l.last) then None else Some(id)
    case Auto =>
      if l.hasLast && now <= l.last.ms then
        if l.last.sq == MAX64 then None else Some(Id(l.last.ms, l.last.sq + 1))
      else Some(Id(now, 0))
    case AutoSeq(ms) =>
      if !l.hasLast then (if ms == 0 then Some(Id(0, 1)) else Some(Id(ms, 0)))
      else if ms > l.last.ms then Some(Id(ms, 0))
      else if ms == l.last.ms then
        if l.last.sq == MAX64 then None else Some(Id(ms, l.last.sq + 1))
      else None
  }

  // An id that XADD may take for the request.
  predicate Admissible(l: Log, req: IdRequest, now: nat, id: Id) {
    && id.sq <= MAX64
    && (if l.hasLast then Less(l.last, id) else id != MIN_ID || req.Auto?)
    && match req
       case Exact(want) => id == want
       case AutoSeq(ms) => id.ms == ms
       case Auto => id.ms == if l.hasLast && now <= l.last.ms then l.last.ms else now
  }

  // The chosen id is the least admissible one, and a request is refused only when
  // there is none.
  lemma {:induction false} LeastAdmissible(l: Log, req: IdRequest, now: nat)
    requires l.last.sq <= MAX64 && (req.Exact? ==> req.id.sq <= MAX64)
    ensures match ResolveAddId(l, req, now)
            case Some(id) => Admissible(l, req, now, id)
                && forall other | Admissible(l, req, now, other) :: AtMost(id, other)
            case None => forall other :: !Admissible(l, req, now, other)
  {
  }

  function Added(l: Log, id: Id, fields: seq<Bytes>): Log {
    l.(entries := l.entries + [Item(id, fields)], last := id, hasLast := true, added := Word(l.added + 1))
  }

  function XAdd(l: Log, req: IdRequest, fields: seq<Bytes>, now: nat): Log {
    if |fields| % 2 != 0 then l else
    match ResolveAddId(l, req, now)
    case None => l
    case Some(id) => Added(l, id, fields)
  }

  lemma {:induction false} XAddKeeps(l: Log, req: IdRequest, fields: seq<Bytes>, now: nat)
    requires LogOk(l)
    ensures LogOk(XAdd(l, req, fields, now))
    ensures XAdd(l, req, fields, now) != l ==>
              XAdd(l, req, fields, now).entries == l.entries + [Item(XAdd(l, req, fields, now).last, fields)]
  {
    var r := ResolveAddId(l, req, now);
    if |fields| % 2 == 0 && r.Some? {
      AppendLaw(l.entries, Item(r.value, fields));
    }
  }

  // ---------------------------------------------------------------- XDEL

  function Later(a: Id, b: Id): Id { if Less(a, b) then b else a }

  // The greatest of `m` and the ids that XDEL finds.
  function MaxDropped(s: seq<Entry>, m: Id, ids: seq<Id>): Id {
    if ids == [] then m
    else
      var before := MaxDropped(s, m, ids[..|ids| - 1]);
      if ids[|ids| - 1] in Ids(DropAll(s, ids[..|ids| - 1])) then Later(before, ids[|ids| - 1]) else before
  }

  function XDel(l: Log, ids: seq<Id>): Log {
    l.(entries := DropAll(l.entries, ids), maxDeleted := MaxDropped(l.entries, l.maxDeleted, ids))
  }

  // The mark is the greatest of the old one and the deleted ids.
  lemma {:induction false} MaxDroppedIsGreatest(s: seq<Entry>, m: Id, ids: seq<Id>)
    requires Sorted(s)
    ensures var r := MaxDropped(s, m, ids);
            && AtMost(m, r) && (r == m || (r in ids && r in Ids(s)))
            && forall id | id in ids && id in Ids(s) :: AtMost(id, r)
  {
    if ids != [] {
      var init, id := ids[..|ids| - 1], ids[|ids| - 1];
      MaxDroppedIsGreatest(s, m, init);
      DropAllLaw(s, init);
      IdsOf(s);
      IdsOf(DropAll(s, init));
      assert ids == init + [id];
    }
  }

  lemma {:induction false} XDelKeeps(l: Log, ids: seq<Id>)
    requires LogOk(l)
    ensures LogOk(XDel(l, ids))
  {
    DropAllLaw(l.entries, ids);
    MaxDroppedIsGreatest(l.entries, l.maxDeleted, ids);
    IdsOf(l.entries);
  }

  // ---------------------------------------------------------------- XTRIM

  datatype Trim = MaxLen(n: nat) | MinId(id: Id)

  function Least(a: nat, b: nat): nat { if a <= b then a else b }

  // How many entries XTRIM takes off the front; a negative limit is no limit.
  function Trimmed(s: seq<Entry>, how: Trim, limit: int): (n: nat)
    ensures n <= |s|
  {
    var n := match how
             case MaxLen(len) => if |s| > len then |s| - len else 0
             case MinId(id) => Before(s, id);
    if limit >= 0 then Least(n, limit) else n
  }

  function XTrim(l: Log, how: Trim, limit: int): Log {
    l.(entries := l.entries[Trimmed(l.entries, how, limit)..])
  }

  // XTRIM drops from the front only.  Without LIMIT, MAXLEN leaves the newest entries, that
  // many or all, and MINID exactly those at or past the id; with LIMIT at most that many go.
  lemma {:induction false} XTrimExactly(l: Log, how: Trim, limit: int)
    requires Sorted(l.entries)
    ensures var r := XTrim(l, how, limit);
            && r == l.(entries := r.entries) && |r.entries| <= |l.entries|
            && r.entries == l.entries[|l.entries| - |r.entries|..]
            && (limit < 0 && how.MaxLen? ==> |r.entries| == if |l.entries| <= how.n then |l.entries| else how.n)
            && (limit < 0 && how.MinId? ==> forall e :: e in r.entries <==> e in l.entries && AtMost(how.id, e.id))
            && (limit >= 0 ==>
                  var all := XTrim(l, how, -1).entries;
                  |r.entries| == if |l.entries| - |all| <= limit then |all| else |l.entries| - limit)
  {
    if how.MinId? && limit < 0 {
      var b := Before(l.entries, how.id);
      forall e | e in l.entries && AtMost(how.id, e.id) ensures e in l.entries[b..] {
        var k :| 0 <= k < |l.entries| && l.entries[k] == e;
        assert l.entries[b..][k - b] == e;
      }
    }
  }

  // ---------------------------------------------------------------- the object

  class Stream {
    var entries: seq<Entry>
    var last: Id
    var hasLast: bool
    var added: nat
    var maxDeleted: Id

    function Value(): Log
      reads this
    {
      Log(entries, last, hasLast, added, maxDeleted)
    }

    constructor ()
      ensures Value() == EMPTY
    {
      entries, last, hasLast, added, maxDeleted := [], MIN_ID, false, 0, MIN_ID;
    }

    method Add(req: IdRequest, fields: seq<Bytes>, now: nat) returns (r: Option<Id>)
      modifies this
      ensures Value() == XAdd(old(Value()), req, fields, now)
      ensures r == if |fields| % 2 != 0 then None else ResolveAddId(old(Value()), req, now)
    {
      if |fields| % 2 != 0 {
        return None;
      }
      r := ResolveAddId(Value(), req, now);
      if r.None? {
        return;
      }
      entries := entries + [Item(r.value, fields)];
      last := r.value;
      hasLast := true;
      added := Word(added + 1);
    }

    // The reply counts the entries that went away.
    method Delete(ids: seq<Id>) returns (deleted: nat)
      modifies this
      ensures Value() == XDel(old(Value()), ids)
      ensures |entries| + deleted == |old(entries)|
    {
      deleted := 0;
      for k := 0 to |ids|
        invariant Value() == XDel(old(Value()), ids[..k])
        invariant |entries| + deleted == |old(entries)|
      {
        var id := ids[k];
        assert ids[..k + 1][..k] == ids[..k];
        PositionLaw(entries, id);
        var i := 0;
        while i < |entries| && entries[i].id != id
          invariant 0 <= i <= |entries| && forall j | 0 <= j < i :: entries[j].id != id
        {
          i := i + 1;
        }
        if i < |entries| {
          PositionIs(entries, id, i);
          entries := entries[..i] + entries[i + 1..];
          deleted := deleted + 1;
          if Less(maxDeleted, id) {
            maxDeleted := id;
          }
        }
      }
      assert ids[..|ids|] == ids;
    }

    method Trim(how: Trim, limit: int) returns (deleted: nat)
      modifies this`entries
      ensures Value() == XTrim(old(Value()), how, limit)
      ensures |entries| + deleted == |old(entries)|
    {
      deleted := 0;
      if how.MaxLen? {
        while |entries| > how.n
          invariant deleted <= |old(entries)| && entries == old(entries)[deleted..]
          invariant deleted <= Trimmed(old(entries), how, limit)
        {
          if limit >= 0 && deleted >= limit {
            break;
          }
          entries := entries[1..];
          deleted := deleted + 1;
        }
      } else {
        while |entries| > 0 && Less(entries[0].id, how.id)
          invariant deleted <= |old(entries)| && entries == old(entries)[deleted..]
          invariant deleted <= Trimmed(old(entries), how, limit)
        {
          assert entries[0] == old(entries)[deleted];
          if limit >= 0 && deleted >= limit {
            break;
          }
          entries := entries[1..];
          deleted := deleted + 1;
        }
      }
      assert deleted == Trimmed(old(entries), how, limit);
    }
  }
}
