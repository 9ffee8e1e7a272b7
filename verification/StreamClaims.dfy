/**
 * What XCLAIM, XAUTOCLAIM and XGROUP DELCONSUMER do, said about the records they are
 * given, for times that do not wrap around as signed 64-bit numbers.
 */
module StreamClaims {
  import opened Options
  import opened Bytes
  import opened Items
  import opened StreamLog
  import opened StreamGroup

  const HALF: int := 0x8000_0000_0000_0000

  // The clock, the record times and the bound are in the range where no 64-bit
  // difference wraps around.
  ghost predicate InRange(pel: seq<Pending>, minIdle: int, now: nat) {
    now < HALF && -HALF <= now - minIdle < HALF && forall p <- pel :: p.data.ms < HALF
  }

  lemma {:induction false} IdleMeans(d: Delivery, minIdle: int, now: nat)
    requires d.ms < HALF && -HALF <= now - minIdle < HALF
    ensures IdleEnough(d, minIdle, now) <==> now - d.ms >= minIdle
  {
    var x := now - minIdle;
    assert Int64(d.ms) == d.ms;
    if x < 0 { assert x + 0x1_0000_0000_0000_0000 == Word(x); }
    assert Int64(x) == x;
  }

  // ---------------------------------------------------------------- XCLAIM

  // XCLAIM may take this id: its record is idle for long enough, or there is none, FORCE
  // is given and the entry exists.
  ghost predicate Due(pel: seq<Pending>, entries: seq<Entry>, id: Id, o: ClaimOptions, now: nat) {
    || (exists p <- pel :: p.id == id && now - p.data.ms >= o.minIdle)
    || ((forall p <- pel :: p.id != id) && o.force && exists e <- entries :: e.id == id)
  }

  // The time a claim sets: IDLE wins over TIME, and without either it is now.
  function TimeSet(o: ClaimOptions, now: nat): nat {
    match (o.idle, o.time)
    case (Some(idle), _) => Word(now - idle)
    case (None, Some(time)) => Word(time)
    case (None, None) => now
  }

  // The record of a claimed id afterwards.  JUSTID moves the owner only, and a record made
  // by FORCE counts as delivered once, now.
  ghost predicate ClaimedFrom(pel: seq<Pending>, q: Pending, who: Bytes, o: ClaimOptions, now: nat) {
    && q.data.consumer == who
    && (forall p <- pel | p.id == q.id ::
          if o.justId then q.data.ms == p.data.ms && q.data.count == p.data.count
          else q.data.ms == TimeSet(o, now)
               && q.data.count == if o.retry.Some? then Word(o.retry.value) else Word(p.data.count + 1))
    && ((forall p <- pel :: p.id != q.id) ==>
          if o.justId then q.data.ms == now && q.data.count == 1
          else q.data.ms == TimeSet(o, now) && q.data.count == if o.retry.Some? then Word(o.retry.value) else 1)
  }

  // The record with this id is the only one, and `Find` finds it.
  lemma {:induction false} FindExactly(pel: seq<Pending>, id: Id)
    requires Sorted(pel)
    ensures Find(pel, id).None? <==> forall p <- pel :: p.id != id
    ensures Find(pel, id).Some? ==> forall p <- pel | p.id == id :: p.data == Find(pel, id).value
    ensures Find(pel, id).Some? ==> exists p <- pel :: p.id == id && p.data == Find(pel, id).value
  {
    PositionLaw(pel, id);
    var i := Position(pel, id);
    if i >= 0 { assert pel[i] in pel; }
  }

  lemma {:induction false} ClaimableExactly(g: Group, entries: seq<Entry>, id: Id, who: Bytes, o: ClaimOptions,
                                            now: nat)
    requires Sorted(g.pel) && InRange(g.pel, o.minIdle, now)
    ensures Claimable(g, entries, id, who, o, now).Some? <==> Due(g.pel, entries, id, o, now)
  {
    FindExactly(g.pel, id);
    IdsOf(entries);
    var d := Find(g.pel, id);
    if d.Some? { IdleMeans(d.value, o.minIdle, now); }
  }

  // If the id is not due, nothing changes.  If it is, its record is the consumer's, every
  // other record is as before, and the consumer is active.
  ghost predicate TakesOne(g: Group, r: Group, entries: seq<Entry>, id: Id, who: Bytes, o: ClaimOptions, now: nat) {
    if !Due(g.pel, entries, id, o, now) then r == g
    else
      && r == g.(pel := r.pel, consumers := Marked(g.consumers, who, now, true))
      && (forall p: Pending | p.id != id :: p in r.pel <==> p in g.pel)
      && (exists q <- r.pel :: q.id == id)
      && (forall q <- r.pel | q.id == id :: ClaimedFrom(g.pel, q, who, o, now))
  }

  lemma {:induction false} TakesOneHolds(g: Group, entries: seq<Entry>, id: Id, who: Bytes, o: ClaimOptions, now: nat)
    requires Sorted(g.pel) && InRange(g.pel, o.minIdle, now)
    ensures TakesOne(g, ClaimOne(g, entries, id, who, o, now), entries, id, who, o, now)
  {
    ClaimableExactly(g, entries, id, who, o, now);
    var c := Claimable(g, entries, id, who, o, now);
    if c.Some? {
      var q := Item(id, ClaimedRecord(c.value.0, c.value.1, who, o, now));
      UpsertLaw(g.pel, q);
      assert q in Upsert(g.pel, q);
      RecordExactly(g, entries, id, who, o, now, q);
    }
  }

  // Ids are claimed one after the other, each against what the ones before it left, and
  // the reply lists exactly those due when their turn came.
  lemma {:induction false} ClaimExactly(g: Group, entries: seq<Entry>, ids: seq<Id>, id: Id, who: Bytes,
                                        o: ClaimOptions, now: nat)
    requires GroupOk(g) && InRange(Claim(g, entries, ids, who, o, now).pel, o.minIdle, now)
    ensures var before := Claim(g, entries, ids, who, o, now);
            && TakesOne(before, Claim(g, entries, ids + [id], who, o, now), entries, id, who, o, now)
            && ClaimedIds(g, entries, ids + [id], who, o, now)
               == ClaimedIds(g, entries, ids, who, o, now)
                  + if Due(before.pel, entries, id, o, now) then [id] else []
    ensures Claim(g, entries, [], who, o, now) == g && ClaimedIds(g, entries, [], who, o, now) == []
  {
    var before := Claim(g, entries, ids, who, o, now);
    assert (ids + [id])[..|ids|] == ids;
    ClaimKeeps(g, entries, ids, who, o, now);
    ClaimableExactly(before, entries, id, who, o, now);
    TakesOneHolds(before, entries, id, who, o, now);
  }

  // Times stay in range if the options ask for none outside it.
  lemma {:induction false} ClaimStaysInRange(g: Group, entries: seq<Entry>, ids: seq<Id>, who: Bytes, o: ClaimOptions,
                                             now: nat)
    requires GroupOk(g) && InRange(g.pel, o.minIdle, now) && TimeSet(o, now) < HALF
    ensures InRange(Claim(g, entries, ids, who, o, now).pel, o.minIdle, now)
  {
    if ids != [] {
      var init, id := ids[..|ids| - 1], ids[|ids| - 1];
      ClaimStaysInRange(g, entries, init, who, o, now);
      ClaimKeeps(g, entries, init, who, o, now);
      var before := Claim(g, entries, init, who, o, now);
      TakesOneInRange(before, Claim(g, entries, ids, who, o, now), entries, id, who, o, now);
    }
  }

  lemma {:induction false} TakesOneInRange(g: Group, r: Group, entries: seq<Entry>, id: Id, who: Bytes,
                                           o: ClaimOptions, now: nat)
    requires Sorted(g.pel) && InRange(g.pel, o.minIdle, now) && TimeSet(o, now) < HALF
    requires r == ClaimOne(g, entries, id, who, o, now)
    ensures InRange(r.pel, o.minIdle, now)
  {
    TakesOneHolds(g, entries, id, who, o, now);
    forall q | q in r.pel ensures q.data.ms < HALF {
      if q.id == id && Due(g.pel, entries, id, o, now) {
        assert ClaimedFrom(g.pel, q, who, o, now);
        if p :| p in g.pel && p.id == id { assert p.data.ms < HALF; }
      }
    }
  }

  // Of distinct ids, the reply lists exactly those due before the command.
  lemma {:induction false} ClaimDistinct(g: Group, entries: seq<Entry>, ids: seq<Id>, who: Bytes, o: ClaimOptions,
                                         now: nat)
    requires GroupOk(g) && InRange(g.pel, o.minIdle, now) && TimeSet(o, now) < HALF
    requires forall i, j | 0 <= i < j < |ids| :: ids[i] != ids[j]
    ensures forall id :: id in ClaimedIds(g, entries, ids, who, o, now) <==>
                           id in ids && Due(g.pel, entries, id, o, now)
    ensures forall p: Pending | p.id !in ids :: p in Claim(g, entries, ids, who, o, now).pel <==> p in g.pel
  {
    if ids != [] {
      var init, id := ids[..|ids| - 1], ids[|ids| - 1];
      assert ids == init + [id];
      ClaimDistinct(g, entries, init, who, o, now);
      ClaimStaysInRange(g, entries, init, who, o, now);
      ClaimExactly(g, entries, init, id, who, o, now);
      assert id !in init;
      SameDue(g.pel, Claim(g, entries, init, who, o, now).pel, entries, id, o, now);
    }
  }

  lemma {:induction false} SameDue(pel: seq<Pending>, pel': seq<Pending>, entries: seq<Entry>, id: Id, o: ClaimOptions,
                                   now: nat)
    requires forall p: Pending | p.id == id :: p in pel <==> p in pel'
    ensures Due(pel, entries, id, o, now) <==> Due(pel', entries, id, o, now)
  {
  }

  lemma {:induction false} RecordExactly(g: Group, entries: seq<Entry>, id: Id, who: Bytes, o: ClaimOptions, now: nat,
                                         q: Pending)
    requires Sorted(g.pel) && Claimable(g, entries, id, who, o, now).Some?
    requires var c := Claimable(g, entries, id, who, o, now).value;
             q == Item(id, ClaimedRecord(c.0, c.1, who, o, now))
    ensures ClaimedFrom(g.pel, q, who, o, now)
  {
    FindExactly(g.pel, id);
  }

  // ---------------------------------------------------------------- XAUTOCLAIM

  // What is left of a visited record: nothing without its entry, the record itself if it
  // is not idle for long enough, otherwise the consumer's.
  ghost predicate SweptTo(p: Pending, r: seq<Pending>, entries: seq<Entry>, who: Bytes, minIdle: int, justId: bool,
                          now: nat)
  {
    if forall e <- entries :: e.id != p.id then forall q <- r :: q.id != p.id
    else if now - p.data.ms < minIdle then p in r
    else if justId then Item(p.id, Delivery(who, p.data.ms, p.data.count)) in r
    else Item(p.id, Delivery(who, now, Word(p.data.count + 1))) in r
  }

  lemma {:induction false} SweptExactly(p: Pending, entries: seq<Entry>, who: Bytes, minIdle: int, justId: bool,
                                        now: nat)
    requires InRange([p], minIdle, now)
    ensures var s := Swept(p, entries, who, minIdle, justId, now);
            && SweptTo(p, if s.Some? then [s.value] else [], entries, who, minIdle, justId, now)
            && (s.Some? ==> s.value.id == p.id)
  {
    IdsOf(entries);
    assert p in [p];
    IdleMeans(p.data, minIdle, now);
  }

  // Records with other ids do not matter.
  lemma {:induction false} SweptToWider(p: Pending, a: seq<Pending>, b: seq<Pending>, c: seq<Pending>,
                                        entries: seq<Entry>, who: Bytes, minIdle: int, justId: bool, now: nat)
    requires SweptTo(p, b, entries, who, minIdle, justId, now)
    requires forall q: Pending | q in a || q in c :: q.id != p.id
    ensures SweptTo(p, a + b + c, entries, who, minIdle, justId, now)
  {
  }

  lemma {:induction false} SweepAllExactly(ps: seq<Pending>, entries: seq<Entry>, who: Bytes, minIdle: int,
                                           justId: bool, now: nat)
    requires Sorted(ps) && InRange(ps, minIdle, now)
    ensures var r := SweepAll(ps, entries, who, minIdle, justId, now);
            && (forall p <- ps :: SweptTo(p, r, entries, who, minIdle, justId, now))
            && (forall q <- r :: exists p <- ps :: p.id == q.id)
  {
    if ps != [] {
      var init, p := ps[..|ps| - 1], ps[|ps| - 1];
      assert ps == init + [p] && p in ps;
      SweepAllExactly(init, entries, who, minIdle, justId, now);
      SweptExactly(p, entries, who, minIdle, justId, now);
      var s := Swept(p, entries, who, minIdle, justId, now);
      SweepStep(init, p, SweepAll(init, entries, who, minIdle, justId, now), if s.Some? then [s.value] else [],
                entries, who, minIdle, justId, now);
    }
  }

  lemma {:induction false} SweepStep(init: seq<Pending>, p: Pending, was: seq<Pending>, more: seq<Pending>,
                                     entries: seq<Entry>, who: Bytes, minIdle: int, justId: bool, now: nat)
    requires Sorted(init + [p])
    requires forall x <- init :: SweptTo(x, was, entries, who, minIdle, justId, now)
    requires forall q <- was :: exists x <- init :: x.id == q.id
    requires SweptTo(p, more, entries, who, minIdle, justId, now) && forall q <- more :: q.id == p.id
    ensures forall x <- init + [p] :: SweptTo(x, was + more, entries, who, minIdle, justId, now)
    ensures forall q <- was + more :: exists x <- init + [p] :: x.id == q.id
  {
    var ps := init + [p];
    assert ps[|init|] == p && forall i | 0 <= i < |init| :: ps[i] == init[i];
    forall x | x in init ensures x.id != p.id && x in ps { var i :| 0 <= i < |init| && init[i] == x; }
    forall x | x in ps ensures SweptTo(x, was + more, entries, who, minIdle, justId, now) {
      if x == p {
        SweptToWider(p, was, more, [], entries, who, minIdle, justId, now);
      } else {
        SweptToWider(x, [], was, more, entries, who, minIdle, justId, now);
        assert [] + was + more == was + more;
      }
      assert was + more + [] == was + more;
    }
  }

  // XAUTOCLAIM visits the first `count` records at or after `start`.  The others stay as
  // they are; a visited one goes, stays or is taken over as its entry and idle time say.
  lemma {:induction false} AutoClaimExactly(g: Group, entries: seq<Entry>, who: Bytes, minIdle: int, start: Id,
                                            count: nat, justId: bool, now: nat)
    requires GroupOk(g) && InRange(g.pel, minIdle, now)
    ensures var r := AutoClaim(g, entries, who, minIdle, start, count, justId, now);
            && Sorted(r.pel) && Ids(r.pel) <= Ids(g.pel)
            && forall k | 0 <= k < |g.pel| ::
                 if Visits(g.pel, k, start, count) then SweptTo(g.pel[k], r.pel, entries, who, minIdle, justId, now)
                 else g.pel[k] in r.pel
  {
    var b, e := Before(g.pel, start), Upto(g.pel, start, count);
    AutoClaimKeeps(g, entries, who, minIdle, start, count, justId, now);
    forall k | 0 <= k < |g.pel|
      ensures var r := g.pel[..b] + SweepAll(g.pel[b..e], entries, who, minIdle, justId, now) + g.pel[e..];
              if Visits(g.pel, k, start, count) then SweptTo(g.pel[k], r, entries, who, minIdle, justId, now)
              else g.pel[k] in r
    {
      VisitsIs(g.pel, k, start, count);
      SweptAt(g.pel, b, e, k, entries, who, minIdle, justId, now);
    }
  }

  lemma {:induction false} SweptAt(pel: seq<Pending>, b: nat, e: nat, k: nat, entries: seq<Entry>, who: Bytes,
                                   minIdle: int, justId: bool, now: nat)
    requires Sorted(pel) && b <= e <= |pel| && k < |pel| && InRange(pel, minIdle, now)
    ensures var r := pel[..b] + SweepAll(pel[b..e], entries, who, minIdle, justId, now) + pel[e..];
            if b <= k < e then SweptTo(pel[k], r, entries, who, minIdle, justId, now) else pel[k] in r
  {
    var seen := pel[b..e];
    if k < b {
      assert pel[..b][k] == pel[k];
    } else if k >= e {
      assert pel[e..][k - e] == pel[k];
    } else {
      assert seen[k - b] == pel[k];
      SweepAllExactly(seen, entries, who, minIdle, justId, now);
      SweptToWider(pel[k], pel[..b], SweepAll(seen, entries, who, minIdle, justId, now), pel[e..], entries, who,
                   minIdle, justId, now);
    }
  }

  // The record is at or after `start` with fewer than `count` such records before it.
  ghost predicate Visits(pel: seq<Pending>, k: nat, start: Id, count: nat)
    requires k < |pel|
  {
    AtMost(start, pel[k].id) && (k >= count ==> Less(pel[k - count].id, start))
  }

  lemma {:induction false} VisitsIs(pel: seq<Pending>, k: nat, start: Id, count: nat)
    requires Sorted(pel) && k < |pel|
    ensures Visits(pel, k, start, count) <==> Before(pel, start) <= k < Upto(pel, start, count)
  {
    var b := Before(pel, start);
    assert b < |pel| ==> forall i | b <= i < |pel| :: AtMost(start, pel[i].id);
  }

  // A visited record that is taken over.
  ghost predicate Takeable(p: Pending, entries: seq<Entry>, minIdle: int, now: nat) {
    now - p.data.ms >= minIdle && exists e <- entries :: e.id == p.id
  }

  lemma {:induction false} TakeableIs(p: Pending, entries: seq<Entry>, minIdle: int, now: nat)
    requires p.data.ms < HALF && -HALF <= now - minIdle < HALF
    ensures Takeable(p, entries, minIdle, now) <==> p.id in Ids(entries) && IdleEnough(p.data, minIdle, now)
  {
    IdsOf(entries);
    IdleMeans(p.data, minIdle, now);
  }

  ghost predicate ListsTaken(ids: seq<Id>, ps: seq<Pending>, entries: seq<Entry>, minIdle: int, now: nat) {
    && (forall i, j | 0 <= i < j < |ids| :: Less(ids[i], ids[j]))
    && (forall id <- ids :: exists p <- ps :: p.id == id && Takeable(p, entries, minIdle, now))
    && (forall p <- ps | Takeable(p, entries, minIdle, now) :: p.id in ids)
  }

  lemma {:induction false} ListsTakenStep(ids: seq<Id>, init: seq<Pending>, p: Pending, entries: seq<Entry>,
                                          minIdle: int, now: nat)
    requires Sorted(init + [p]) && ListsTaken(ids, init, entries, minIdle, now)
    ensures ListsTaken(ids + if Takeable(p, entries, minIdle, now) then [p.id] else [], init + [p], entries, minIdle,
                       now)
  {
    var ps := init + [p];
    assert ps[|init|] == p;
    forall x | x in init ensures Less(x.id, p.id) && x in ps {
      var i :| 0 <= i < |init| && init[i] == x;
      assert ps[i] == x;
    }
    forall id | id in ids ensures Less(id, p.id) && exists x <- ps :: x.id == id && Takeable(x, entries, minIdle, now) {
      var x :| x in init && x.id == id && Takeable(x, entries, minIdle, now);
      assert x in ps;
    }
  }

  // The reply lists, in order, exactly the visited records taken over.
  lemma {:induction false} TakenExactly(ps: seq<Pending>, entries: seq<Entry>, minIdle: int, now: nat)
    requires Sorted(ps) && InRange(ps, minIdle, now)
    ensures ListsTaken(TakenIds(ps, entries, minIdle, now), ps, entries, minIdle, now)
  {
    if ps != [] {
      var init, p := ps[..|ps| - 1], ps[|ps| - 1];
      assert ps == init + [p] && p in ps;
      TakenExactly(init, entries, minIdle, now);
      TakeableIs(p, entries, minIdle, now);
      ListsTakenStep(TakenIds(init, entries, minIdle, now), init, p, entries, minIdle, now);
    }
  }

  // The consumer becomes active exactly when a record is taken over.
  lemma {:induction false} AutoClaimConsumers(g: Group, entries: seq<Entry>, who: Bytes, minIdle: int, start: Id,
                                              count: nat, justId: bool, now: nat)
    requires GroupOk(g) && InRange(g.pel, minIdle, now)
    ensures var r := AutoClaim(g, entries, who, minIdle, start, count, justId, now);
            && r == g.(pel := r.pel, consumers := r.consumers)
            && r.consumers ==
               if exists k | 0 <= k < |g.pel| ::
                    Visits(g.pel, k, start, count) && Takeable(g.pel[k], entries, minIdle, now)
               then Marked(g.consumers, who, now, true) else g.consumers
  {
    AnyClaimedIs(g.pel, entries, minIdle, start, count, now);
  }

  lemma {:induction false} AnyClaimedIs(pel: seq<Pending>, entries: seq<Entry>, minIdle: int, start: Id, count: nat,
                                        now: nat)
    requires Sorted(pel) && InRange(pel, minIdle, now)
    ensures AnyClaimed(pel[Before(pel, start)..Upto(pel, start, count)], entries, minIdle, now)
            <==> exists k | 0 <= k < |pel| :: Visits(pel, k, start, count) && Takeable(pel[k], entries, minIdle, now)
  {
    var b, e := Before(pel, start), Upto(pel, start, count);
    if k :| 0 <= k < |pel| && Visits(pel, k, start, count) && Takeable(pel[k], entries, minIdle, now) {
      VisitsIs(pel, k, start, count);
      ClaimedWithin(pel, b, e, k, entries, minIdle, now);
    }
    if AnyClaimed(pel[b..e], entries, minIdle, now) {
      var k := WithinClaimed(pel, b, e, entries, minIdle, now);
      VisitsIs(pel, k, start, count);
    }
  }

  lemma {:induction false} ClaimedWithin(pel: seq<Pending>, b: nat, e: nat, k: nat, entries: seq<Entry>, minIdle: int,
                                         now: nat)
    requires b <= k < e <= |pel| && InRange(pel, minIdle, now) && Takeable(pel[k], entries, minIdle, now)
    ensures AnyClaimed(pel[b..e], entries, minIdle, now)
  {
    TakeableIs(pel[k], entries, minIdle, now);
    assert pel[b..e][k - b] == pel[k];
  }

  lemma {:induction false} WithinClaimed(pel: seq<Pending>, b: nat, e: nat, entries: seq<Entry>, minIdle: int, now: nat)
    returns (k: nat)
    requires b <= e <= |pel| && InRange(pel, minIdle, now) && AnyClaimed(pel[b..e], entries, minIdle, now)
    ensures b <= k < e && Takeable(pel[k], entries, minIdle, now)
  {
    var seen := pel[b..e];
    var i :| 0 <= i < |seen| && seen[i].id in Ids(entries) && IdleEnough(seen[i].data, minIdle, now);
    k := b + i;
    assert pel[k] == seen[i];
    TakeableIs(pel[k], entries, minIdle, now);
  }

  // ---------------------------------------------------------------- XGROUP DELCONSUMER

  // The consumer and its records go; the other consumers stay, in order.
  lemma {:induction false} ConsumerDroppedExactly(g: Group, name: Bytes)
    requires GroupOk(g)
    ensures var r := ConsumerDropped(g, name);
            && r == g.(pel := r.pel, consumers := r.consumers)
            && (forall p :: p in r.pel <==> p in g.pel && p.data.consumer != name)
            && (forall c :: c in r.consumers <==> c in g.consumers && c.name != name)
            && (forall c <- g.consumers :: c.name == name ==> |r.consumers| == |g.consumers| - 1)
  {
    ConsumerLaw(g.consumers, name);
    ConsumerDroppedKeeps(g, name);
    var i, r := ConsumerIndex(g.consumers, name), ConsumerDropped(g, name);
    if i >= 0 {
      forall c | c in g.consumers && c.name != name ensures c in r.consumers {
        var k :| 0 <= k < |g.consumers| && g.consumers[k] == c;
        assert r.consumers[if k < i then k else k - 1] == c;
      }
    }
  }
}
