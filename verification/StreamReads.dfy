/**
 * What XREADGROUP does, said about the entries and records it is given: which entries a
 * ">" read hands out and which records it leaves, which records a history read hands out
 * and what becomes of them, and what either does to the consumers.
 */
module StreamReads {
  import opened Options
  import opened Bytes
  import opened Items
  import opened StreamLog
  import opened StreamGroup

  // ---------------------------------------------------------------- consumers

  // The consumer is there once, seen now and active now if it got records; a new one was
  // never active before.  Everyone else is as before, and in the same place.
  lemma {:induction false} MarkedExactly(cs: seq<Consumer>, name: Bytes, now: nat, active: bool)
    requires DistinctNames(cs)
    ensures var r := Marked(cs, name, now, active);
            && |cs| <= |r| && (|r| == |cs| <==> name in Names(cs)) && |r| <= |cs| + 1
            && (forall i | 0 <= i < |cs| && cs[i].name != name :: r[i] == cs[i])
            && (forall i | 0 <= i < |r| && r[i].name == name ::
                  && r[i].seenMs == now
                  && (active ==> r[i].activeMs == now && r[i].hasActive)
                  && (!active && i < |cs| ==> r[i].activeMs == cs[i].activeMs && r[i].hasActive == cs[i].hasActive)
                  && (!active && i == |cs| ==> !r[i].hasActive))
            && (exists i | 0 <= i < |r| :: r[i].name == name)
  {
    ConsumerLaw(cs, name);
    ConsumerLaw(Ensured(cs, name, now), name);
    MarkedLaw(cs, name, now, active);
    var i := ConsumerIndex(Ensured(cs, name, now), name);
    assert i >= 0;
    assert Marked(cs, name, now, active)[i].name == name;
  }

  // A consumer that is created was seen now and never active; one that exists stays.
  lemma {:induction false} EnsuredExactly(cs: seq<Consumer>, name: Bytes, now: nat)
    ensures Ensured(cs, name, now) ==
            if exists i | 0 <= i < |cs| :: cs[i].name == name then cs else cs + [Consumer(name, now, 0, false)]
  {
    ConsumerLaw(cs, name);
  }

  // ---------------------------------------------------------------- ">" reads

  // The first `count` entries past the cursor when `count` is positive, otherwise all.
  lemma {:induction false} FreshExactly(entries: seq<Entry>, cursor: Id, count: int)
    requires Sorted(entries)
    ensures var out := Fresh(entries, cursor, count);
            && Sorted(out) && (count > 0 ==> |out| <= count)
            && (forall e <- out :: e in entries && Less(cursor, e.id))
            && (forall e <- entries | Less(cursor, e.id) ::
                  e in out || (0 < count == |out| && Less(out[|out| - 1].id, e.id)))
  {
    var out, b := Fresh(entries, cursor, count), Behind(entries, cursor);
    FreshIsPast(entries, cursor, count);
    BehindSplits(entries, cursor);
    forall e | e in entries && Less(cursor, e.id)
      ensures e in out || (0 < count == |out| && Less(out[|out| - 1].id, e.id))
    {
      var i :| 0 <= i < |entries| && entries[i] == e;
      if i - b < |out| { assert out[i - b] == e; } else { assert out[|out| - 1] == entries[b + |out| - 1]; }
    }
  }

  // Each entry handed out is pending with this delivery; every other record is as before.
  ghost predicate Recorded(pel: seq<Pending>, out: seq<Entry>, d: Delivery, r: seq<Pending>) {
    forall p :: p in r <==> if p.id in Ids(out) then p.data == d else p in pel
  }

  // A read that hands out nothing changes nothing.  Otherwise the cursor is the last entry
  // handed out and the read counter grows by their number.
  lemma {:induction false} ReadNewExactly(g: Group, entries: seq<Entry>, who: Bytes, count: int, noack: bool, now: nat)
    ensures var out, r := Fresh(entries, g.lastId, count), ReadNew(g, entries, who, count, noack, now);
            && (out == [] || noack ==> r.pel == g.pel)
            && if out == [] then r == g
               else r == Group(g.name, out[|out| - 1].id, Word(g.entriesRead + |out|), true,
                               Marked(g.consumers, who, now, !noack), r.pel)
  {
  }

  // Without NOACK each of them is pending for this consumer, delivered once and now.
  lemma {:induction false} ReadNewRecords(g: Group, entries: seq<Entry>, who: Bytes, count: int, now: nat)
    requires GroupOk(g)
    ensures Recorded(g.pel, Fresh(entries, g.lastId, count), Delivery(who, now, 1),
                     ReadNew(g, entries, who, count, false, now).pel)
  {
    var out, d := Fresh(entries, g.lastId, count), Delivery(who, now, 1);
    RecordsExactly(g.pel, out, d);
    assert ReadNew(g, entries, who, count, false, now).pel == UpsertAll(g.pel, out, d);
  }

  lemma {:induction false} RecordsExactly(pel: seq<Pending>, out: seq<Entry>, d: Delivery)
    requires Sorted(pel)
    ensures Recorded(pel, out, d, UpsertAll(pel, out, d))
  {
    UpsertAllExactly(pel, out, d);
  }

  lemma {:induction false} UpsertAllExactly(pel: seq<Pending>, out: seq<Entry>, d: Delivery)
    requires Sorted(pel)
    ensures forall p :: p in UpsertAll(pel, out, d) <==> if p.id in Ids(out) then p.data == d else p in pel
  {
    if out != [] {
      var init, e := out[..|out| - 1], out[|out| - 1];
      UpsertAllExactly(pel, init, d);
      UpsertAllLaw(pel, init, d);
      assert out == init + [e];
      UpsertStep(pel, init, e, d, UpsertAll(pel, init, d));
    }
  }

  lemma {:induction false} UpsertStep(pel: seq<Pending>, init: seq<Entry>, e: Entry, d: Delivery, was: seq<Pending>)
    requires Sorted(was)
    requires forall p :: p in was <==> if p.id in Ids(init) then p.data == d else p in pel
    ensures forall p :: p in Upsert(was, Item(e.id, d)) <==> if p.id in Ids(init + [e]) then p.data == d else p in pel
  {
    var ids, item := Ids(init + [e]), Item(e.id, d);
    IdsSnoc(init, e);
    UpsertLaw(was, item);
    forall p ensures p in Upsert(was, item) <==> if p.id in ids then p.data == d else p in pel {
      assert p.id in ids <==> p.id in Ids(init) || p.id == e.id;
    }
  }

  // ---------------------------------------------------------------- history reads

  // A record of this consumer, past `after`, whose entry still exists.
  predicate Due(p: Pending, entries: seq<Entry>, who: Bytes, after: Id) {
    p.data.consumer == who && Less(after, p.id) && exists e <- entries :: e.id == p.id
  }

  // The record handed out once more, now, to its owner.
  function Bumped(p: Pending, now: nat): Pending { Item(p.id, Delivery(p.data.consumer, now, Word(p.data.count + 1))) }

  predicate Increasing(ids: seq<Id>) { forall i, j | 0 <= i < j < |ids| :: Less(ids[i], ids[j]) }

  // `ids` lists the due records among the first `n`: all of them, or the first `count`.
  ghost predicate ListsDue(ids: seq<Id>, pel: seq<Pending>, n: nat, entries: seq<Entry>, who: Bytes, after: Id,
                           count: int)
    requires n <= |pel|
  {
    && Increasing(ids) && (count > 0 ==> |ids| <= count)
    && (forall id <- ids :: exists k | 0 <= k < n :: pel[k].id == id && Due(pel[k], entries, who, after))
    && (forall k | 0 <= k < n && Due(pel[k], entries, who, after) ::
          pel[k].id in ids || (0 < count == |ids| && Less(ids[|ids| - 1], pel[k].id)))
  }

  // One more due record, later than all before it, goes at the end unless the list is full.
  lemma {:induction false} ListsDueStep(ids: seq<Id>, pel: seq<Pending>, n: nat, entries: seq<Entry>, who: Bytes,
                                        after: Id, count: int)
    requires n < |pel| && Sorted(pel) && ListsDue(ids, pel, n, entries, who, after, count)
    ensures pel[n].id !in ids
    ensures ListsDue(if Due(pel[n], entries, who, after) && !(0 < count <= |ids|) then ids + [pel[n].id] else ids,
                     pel, n + 1, entries, who, after, count)
  {
    forall id | id in ids ensures Less(id, pel[n].id) {
      var k :| 0 <= k < n && pel[k].id == id && Due(pel[k], entries, who, after);
    }
  }

  lemma {:induction false} HistoryLists(pel: seq<Pending>, n: nat, entries: seq<Entry>, who: Bytes, after: Id,
                                        count: int, now: nat)
    requires Sorted(pel) && n <= |pel|
    ensures ListsDue(History(pel, n, entries, who, after, count, now).1, pel, n, entries, who, after, count)
  {
    if n > 0 {
      HistoryLists(pel, n - 1, entries, who, after, count, now);
      assert Mine(pel[n - 1], entries, who, after) <==> Due(pel[n - 1], entries, who, after) by { IdsOf(entries); }
      ListsDueStep(History(pel, n - 1, entries, who, after, count, now).1, pel, n - 1, entries, who, after, count);
    }
  }

  lemma {:induction false} HistoryBumps(pel: seq<Pending>, n: nat, entries: seq<Entry>, who: Bytes, after: Id,
                                        count: int, now: nat)
    requires Sorted(pel) && n <= |pel|
    ensures var h := History(pel, n, entries, who, after, count, now);
            forall k | 0 <= k < n :: h.0[k] == if pel[k].id in h.1 then Bumped(pel[k], now) else pel[k]
  {
    if n > 0 {
      HistoryBumps(pel, n - 1, entries, who, after, count, now);
      assert pel[n - 1].id !in History(pel, n - 1, entries, who, after, count, now).1 by {
        HistoryLists(pel, n - 1, entries, who, after, count, now);
        ListsDueStep(History(pel, n - 1, entries, who, after, count, now).1, pel, n - 1, entries, who, after, count);
      }
    }
  }

  // A history read hands out exactly the consumer's own records past `after` whose entry
  // still exists, in order, the first `count` of them when `count` is positive.  Exactly
  // those get the time and one more delivery; every other record is as before.
  lemma {:induction false} ReadOldExactly(g: Group, entries: seq<Entry>, who: Bytes, after: Id, count: int, now: nat)
    requires GroupOk(g)
    ensures var ids, r := History(g.pel, |g.pel|, entries, who, after, count, now).1,
                          ReadOld(g, entries, who, after, count, now);
            && ListsDue(ids, g.pel, |g.pel|, entries, who, after, count)
            && |r.pel| == |g.pel|
            && (forall k | 0 <= k < |g.pel| :: r.pel[k] ==
                  if g.pel[k].id in ids then Bumped(g.pel[k], now) else g.pel[k])
            && r == g.(pel := r.pel, consumers := Marked(g.consumers, who, now, ids != []))
  {
    HistoryLists(g.pel, |g.pel|, entries, who, after, count, now);
    HistoryBumps(g.pel, |g.pel|, entries, who, after, count, now);
  }
}
