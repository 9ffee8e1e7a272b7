/**
 * A consumer group: its cursor, its consumers and the records it has delivered but
 * not yet seen acknowledged.
 */
module StreamGroup {
  import opened Options
  import opened Bytes
  import opened Items
  import opened StreamLog

  // Who holds a pending record, when it was last delivered and how often.
  datatype Delivery = Delivery(consumer: Bytes, ms: nat, count: nat)

  type Pending = Item<Delivery>

  datatype Consumer = Consumer(name: Bytes, seenMs: nat, activeMs: nat, hasActive: bool)

  datatype Group = Group(
    name: Bytes,
    lastId: Id,
    entriesRead: nat,
    hasRead: bool,
    consumers: seq<Consumer>,
    pel: seq<Pending>)

  function Names(cs: seq<Consumer>): set<Bytes> { set i | 0 <= i < |cs| :: cs[i].name }

  ghost predicate DistinctNames(cs: seq<Consumer>) {
    forall i, j | 0 <= i < j < |cs| :: cs[i].name != cs[j].name
  }

  // Pending ids in order, consumer names distinct, every record owned by a consumer.
  ghost predicate GroupOk(g: Group) {
    && Sorted(g.pel) && DistinctNames(g.consumers)
    && forall p <- g.pel :: p.data.consumer in Names(g.consumers)
  }

  // ---------------------------------------------------------------- consumers

  function ConsumerIndex(cs: seq<Consumer>, name: Bytes): (i: int)
    ensures -1 <= i < |cs|
  {
    ConsumerFrom(cs, name, 0)
  }

  function ConsumerFrom(cs: seq<Consumer>, name: Bytes, from: nat): (i: int)
    requires from <= |cs|
    ensures i == -1 || from <= i < |cs|
    decreases |cs| - from
  {
    if from == |cs| then -1 else if cs[from].name == name then from else ConsumerFrom(cs, name, from + 1)
  }

  lemma {:induction false} ConsumerLaw(cs: seq<Consumer>, name: Bytes)
    ensures var i := ConsumerIndex(cs, name);
            && (i >= 0 ==> cs[i].name == name && forall k | 0 <= k < i :: cs[k].name != name)
            && (i < 0 ==> forall k | 0 <= k < |cs| :: cs[k].name != name)
            && (i >= 0 <==> name in Names(cs))
  {
    ConsumerFromLaw(cs, name, 0);
  }

  lemma {:induction false} ConsumerFromLaw(cs: seq<Consumer>, name: Bytes, from: nat)
    requires from <= |cs|
    ensures var i := ConsumerFrom(cs, name, from);
            && (i >= 0 ==> cs[i].name == name && forall k | from <= k < i :: cs[k].name != name)
            && (i < 0 ==> forall k | from <= k < |cs| :: cs[k].name != name)
    decreases |cs| - from
  {
    if from < |cs| { ConsumerFromLaw(cs, name, from + 1); }
  }

  function Ensured(cs: seq<Consumer>, name: Bytes, now: nat): seq<Consumer> {
    if ConsumerIndex(cs, name) >= 0 then cs else cs + [Consumer(name, now, 0, false)]
  }

  // The consumer, created if need be, was seen now, and was active if it got records.
  function Marked(cs: seq<Consumer>, name: Bytes, now: nat, active: bool): seq<Consumer> {
    var all := Ensured(cs, name, now);
    var i := ConsumerIndex(all, name);
    if i < 0 then all else
    var c := all[i].(seenMs := now);
    all[i := if active then c.(activeMs := now, hasActive := true) else c]
  }

  lemma {:induction false} EnsuredLaw(cs: seq<Consumer>, name: Bytes, now: nat)
    requires DistinctNames(cs)
    ensures DistinctNames(Ensured(cs, name, now)) && Names(Ensured(cs, name, now)) == Names(cs) + {name}
  {
    var all := Ensured(cs, name, now);
    ConsumerLaw(cs, name);
    if |all| > |cs| {
      assert all[|cs|].name == name;
      forall n | n in Names(cs) ensures n in Names(all) {
        var i :| 0 <= i < |cs| && cs[i].name == n;
        assert all[i] == cs[i];
      }
    }
  }

  lemma {:induction false} MarkedLaw(cs: seq<Consumer>, name: Bytes, now: nat, active: bool)
    requires DistinctNames(cs)
    ensures DistinctNames(Marked(cs, name, now, active)) && Names(Marked(cs, name, now, active)) == Names(cs) + {name}
  {
    EnsuredLaw(cs, name, now);
    var all, marked := Ensured(cs, name, now), Marked(cs, name, now, active);
    ConsumerLaw(all, name);
    assert forall i | 0 <= i < |all| :: marked[i].name == all[i].name;
  }

  // ---------------------------------------------------------------- reading

  // The entries a ">" read hands out: those past the cursor, at most `count` of them
  // when it is positive.
  function Fresh(entries: seq<Entry>, cursor: Id, count: int): (out: seq<Entry>)
    ensures |out| <= |entries|
  {
    var rest := entries[Behind(entries, cursor)..];
    if 0 < count < |rest| then rest[..count] else rest
  }

  // A record for each entry handed out.
  function UpsertAll(pel: seq<Pending>, out: seq<Entry>, d: Delivery): seq<Pending> {
    if out == [] then pel else Upsert(UpsertAll(pel, out[..|out| - 1], d), Item(out[|out| - 1].id, d))
  }

  function Delivered(g: Group, out: seq<Entry>, consumer: Bytes, noack: bool, now: nat): Group
    requires out != []
  {
    g.(consumers := Marked(g.consumers, consumer, now, !noack),
    lastId := out[|out| - 1].id,
    pel := if noack then g.pel else UpsertAll(g.pel, out, Delivery(consumer, now, 1)),
    entriesRead := Word(g.entriesRead + |out|), hasRead := true)
  }

  function ReadNew(g: Group, entries: seq<Entry>, consumer: Bytes, count: int, noack: bool, now: nat): Group {
    var out := Fresh(entries, g.lastId, count);
    if out == [] then g else Delivered(g, out, consumer, noack, now)
  }

  predicate Mine(p: Pending, entries: seq<Entry>, consumer: Bytes, after: Id) {
    p.data.consumer == consumer && Less(after, p.id) && p.id in Ids(entries)
  }

  function Redelivered(p: Pending, now: nat): Pending {
    Item(p.id, p.data.(ms := now, count := Word(p.data.count + 1)))
  }

  // A history read over the first `n` records: the consumer's own ones past `after`
  // whose entry still exists, at most `count` of them when it is positive; the records
  // it hands out are bumped.
  function History(pel: seq<Pending>, n: nat, entries: seq<Entry>, consumer: Bytes, after: Id, count: int, now: nat)
    : (r: (seq<Pending>, seq<Id>))
    requires n <= |pel|
    ensures |r.0| == n
  {
    if n == 0 then ([], []) else
    var p := pel[n - 1];
    var (done, out) := History(pel, n - 1, entries, consumer, after, count, now);
    if Mine(p, entries, consumer, after) && !(0 < count <= |out|) then (done + [Redelivered(p, now)], out + [p.id])
    else (done + [p], out)
  }

  lemma {:induction false} HistoryLaw(pel: seq<Pending>, n: nat, entries: seq<Entry>, consumer: Bytes, after: Id,
                                      count: int, now: nat)
    requires n <= |pel|
    ensures var r := History(pel, n, entries, consumer, after, count, now).0;
            forall i | 0 <= i < n :: r[i].id == pel[i].id && r[i].data.consumer == pel[i].data.consumer
  {
    if n > 0 { HistoryLaw(pel, n - 1, entries, consumer, after, count, now); }
  }

  function ReadOld(g: Group, entries: seq<Entry>, consumer: Bytes, after: Id, count: int, now: nat): Group {
    var (pel, out) := History(g.pel, |g.pel|, entries, consumer, after, count, now);
    g.(consumers := Marked(g.consumers, consumer, now, out != []), pel := pel)
  }

  // ---------------------------------------------------------------- claiming

  // The same bits read as a signed 64-bit number.
  function Int64(n: int): int {
    if Word(n) < 0x8000_0000_0000_0000 then Word(n) else Word(n) - 0x1_0000_0000_0000_0000
  }

  // The record is idle for at least `minIdle`, computed in 64-bit arithmetic.
  predicate IdleEnough(d: Delivery, minIdle: int, now: nat) {
    Int64(d.ms) <= Int64(now - minIdle)
  }

  datatype ClaimOptions = ClaimOptions(
    minIdle: int, idle: Option<int>, time: Option<int>, retry: Option<int>, force: bool, justId: bool)

  function ClaimedRecord(d: Delivery, created: bool, consumer: Bytes, o: ClaimOptions, now: nat): Delivery {
    if o.justId then d.(consumer := consumer)
    else Delivery(consumer,
                  if o.idle.Some? then Word(now - o.idle.value)
                  else if o.time.Some? then Word(o.time.value) else now,
                  if o.retry.Some? then Word(o.retry.value)
                  else if created then d.count else Word(d.count + 1))
  }

  // The record XCLAIM would take over for this id, if any, and whether FORCE makes it.
  function Claimable(g: Group, entries: seq<Entry>, id: Id, consumer: Bytes, o: ClaimOptions, now: nat)
    : Option<(Delivery, bool)>
  {
    match Find(g.pel, id)
    case None =>
      if o.force && id in Ids(entries) then Some((Delivery(consumer, now, 1), true)) else None
    case Some(d) =>
      if IdleEnough(d, o.minIdle, now) then Some((d, false)) else None
  }

  function ClaimOne(g: Group, entries: seq<Entry>, id: Id, consumer: Bytes, o: ClaimOptions, now: nat): Group {
    match Claimable(g, entries, id, consumer, o, now)
    case None => g
    case Some((d, created)) =>
      g.(consumers := Marked(g.consumers, consumer, now, true),
      pel := Upsert(g.pel, Item(id, ClaimedRecord(d, created, consumer, o, now))))
  }

  function Claim(g: Group, entries: seq<Entry>, ids: seq<Id>, consumer: Bytes, o: ClaimOptions, now: nat): Group {
    if ids == [] then g
    else ClaimOne(Claim(g, entries, ids[..|ids| - 1], consumer, o, now), entries, ids[|ids| - 1], consumer, o, now)
  }

  // The ids that the reply lists: those that could be claimed when their turn came.
  function ClaimedIds(g: Group, entries: seq<Entry>, ids: seq<Id>, consumer: Bytes, o: ClaimOptions,
                      now: nat): seq<Id>
  {
    if ids == [] then [] else
    var init, id := ids[..|ids| - 1], ids[|ids| - 1];
    ClaimedIds(g, entries, init, consumer, o, now)
    + if Claimable(Claim(g, entries, init, consumer, o, now), entries, id, consumer, o, now).Some? then [id] else []
  }

  // Without JUSTID the reply needs the entry of every claimed record; a record whose
  // entry was deleted makes the command fail before anything is stored.
  predicate ClaimFails(g: Group, entries: seq<Entry>, ids: seq<Id>, consumer: Bytes, o: ClaimOptions, now: nat) {
    exists k | 0 <= k < |ids| ::
      && !o.justId && ids[k] !in Ids(entries)
      && Claimable(Claim(g, entries, ids[..k], consumer, o, now), entries, ids[k], consumer, o, now).Some?
  }

  // ---------------------------------------------------------------- the sweep

  // What XAUTOCLAIM leaves of a visited record: nothing if its entry is gone.
  function Swept(p: Pending, entries: seq<Entry>, consumer: Bytes, minIdle: int, justId: bool,
                 now: nat): Option<Pending>
  {
    if p.id !in Ids(entries) then None
    else if !IdleEnough(p.data, minIdle, now) then Some(p)
    else if justId then Some(Item(p.id, p.data.(consumer := consumer)))
    else Some(Item(p.id, Delivery(consumer, now, Word(p.data.count + 1))))
  }

  function SweepAll(ps: seq<Pending>, entries: seq<Entry>, consumer: Bytes, minIdle: int, justId: bool,
                    now: nat): seq<Pending>
  {
    if ps == [] then [] else
    var rest := SweepAll(ps[..|ps| - 1], entries, consumer, minIdle, justId, now);
    match Swept(ps[|ps| - 1], entries, consumer, minIdle, justId, now)
    case None => rest
    case Some(p) => rest + [p]
  }

  // The records a sweep visits are those from the first at or after `start` up to here.
  function Upto(pel: seq<Pending>, start: Id, count: nat): (n: nat)
    ensures Before(pel, start) <= n <= |pel|
  {
    if Before(pel, start) + count <= |pel| then Before(pel, start) + count else |pel|
  }

  predicate AnyClaimed(ps: seq<Pending>, entries: seq<Entry>, minIdle: int, now: nat) {
    exists k | 0 <= k < |ps| :: ps[k].id in Ids(entries) && IdleEnough(ps[k].data, minIdle, now)
  }

  // The visited records that are taken over, in order: the claimed part of the reply.
  function TakenIds(ps: seq<Pending>, entries: seq<Entry>, minIdle: int, now: nat): seq<Id> {
    if ps == [] then [] else
    var p := ps[|ps| - 1];
    TakenIds(ps[..|ps| - 1], entries, minIdle, now)
    + if p.id in Ids(entries) && IdleEnough(p.data, minIdle, now) then [p.id] else []
  }

  function AutoClaim(g: Group, entries: seq<Entry>, consumer: Bytes, minIdle: int, start: Id, count: nat,
                     justId: bool, now: nat): Group
  {
    var b, e := Before(g.pel, start), Upto(g.pel, start, count);
    g.(consumers := if AnyClaimed(g.pel[b..e], entries, minIdle, now) then Marked(g.consumers, consumer, now, true)
        else g.consumers,
    pel := g.pel[..b] + SweepAll(g.pel[b..e], entries, consumer, minIdle, justId, now) + g.pel[e..])
  }

  // Where the next sweep should start; the smallest id means the sweep is over.
  function Cursor(pel: seq<Pending>, start: Id, count: nat): Id {
    var b, e := Before(pel, start), Upto(pel, start, count);
    if b == e || e == |pel| || pel[e].id == MAX_ID then MIN_ID else pel[e].id
  }

  // ---------------------------------------------------------------- the rest

  function Acked(g: Group, ids: seq<Id>): Group { g.(pel := DropAll(g.pel, ids)) }

  function NotOwned(pel: seq<Pending>, name: Bytes): seq<Pending> {
    if pel == [] then [] else
    NotOwned(pel[..|pel| - 1], name) + if pel[|pel| - 1].data.consumer == name then [] else [pel[|pel| - 1]]
  }

  function ConsumerDropped(g: Group, name: Bytes): Group {
    var i := ConsumerIndex(g.consumers, name);
    if i < 0 then g
    else g.(consumers := g.consumers[..i] + g.consumers[i + 1..], pel := NotOwned(g.pel, name))
  }

  // ---------------------------------------------------------------- what each keeps

  lemma {:induction false} FreshIsPast(entries: seq<Entry>, cursor: Id, count: int)
    requires Sorted(entries)
    ensures var out := Fresh(entries, cursor, count);
            Sorted(out) && forall k | 0 <= k < |out| :: Less(cursor, out[k].id) && out[k] in entries
  {
    var b, out := Behind(entries, cursor), Fresh(entries, cursor, count);
    BehindSplits(entries, cursor);
    forall k | 0 <= k < |out| ensures Less(cursor, out[k].id) && out[k] in entries { assert out[k] == entries[b + k]; }
  }

  // Nothing between the cursor and the last entry handed out is skipped.
  lemma {:induction false} FreshSkipsNothing(entries: seq<Entry>, cursor: Id, count: int)
    requires Sorted(entries) && Fresh(entries, cursor, count) != []
    ensures var out := Fresh(entries, cursor, count);
            forall e <- entries | Less(cursor, e.id) && AtMost(e.id, out[|out| - 1].id) :: e.id in Ids(out)
  {
    var b, out := Behind(entries, cursor), Fresh(entries, cursor, count);
    BehindSplits(entries, cursor);
    forall e | e in entries && Less(cursor, e.id) && AtMost(e.id, out[|out| - 1].id) ensures e.id in Ids(out) {
      var k :| 0 <= k < |entries| && entries[k] == e;
      assert out[|out| - 1] == entries[b + |out| - 1];
      assert out[k - b] == e;
    }
  }

  lemma {:induction false} UpsertAllLaw(pel: seq<Pending>, out: seq<Entry>, d: Delivery)
    requires Sorted(pel)
    ensures Sorted(UpsertAll(pel, out, d)) && Ids(UpsertAll(pel, out, d)) == Ids(pel) + Ids(out)
  {
    if out != [] {
      var init, e := out[..|out| - 1], out[|out| - 1];
      UpsertAllLaw(pel, init, d);
      UpsertLaw(UpsertAll(pel, init, d), Item(e.id, d));
      IdsSnoc(init, e);
      assert init + [e] == out;
    }
  }

  lemma {:induction false} UpsertAllOwners(pel: seq<Pending>, out: seq<Entry>, d: Delivery)
    requires Sorted(pel)
    ensures forall q <- UpsertAll(pel, out, d) :: q in pel || q.data == d
  {
    if out != [] {
      var init, e := out[..|out| - 1], out[|out| - 1];
      UpsertAllOwners(pel, init, d);
      UpsertAllLaw(pel, init, d);
      UpsertLaw(UpsertAll(pel, init, d), Item(e.id, d));
    }
  }

  lemma {:induction false} ReadNewKeeps(g: Group, entries: seq<Entry>, consumer: Bytes, count: int, noack: bool,
                                        now: nat)
    requires GroupOk(g)
    ensures GroupOk(ReadNew(g, entries, consumer, count, noack, now))
    ensures Ids(ReadNew(g, entries, consumer, count, noack, now).pel)
            == Ids(g.pel) + if noack then {} else Ids(Fresh(entries, g.lastId, count))
  {
    var out := Fresh(entries, g.lastId, count);
    var d := Delivery(consumer, now, 1);
    MarkedLaw(g.consumers, consumer, now, !noack);
    UpsertAllLaw(g.pel, out, d);
    UpsertAllOwners(g.pel, out, d);
  }

  lemma {:induction false} ReadOldKeeps(g: Group, entries: seq<Entry>, consumer: Bytes, after: Id, count: int, now: nat)
    requires GroupOk(g)
    ensures GroupOk(ReadOld(g, entries, consumer, after, count, now))
    ensures Ids(ReadOld(g, entries, consumer, after, count, now).pel) == Ids(g.pel)
  {
    var (pel, out) := History(g.pel, |g.pel|, entries, consumer, after, count, now);
    HistoryLaw(g.pel, |g.pel|, entries, consumer, after, count, now);
    MarkedLaw(g.consumers, consumer, now, out != []);
    forall p | p in pel ensures p.data.consumer in Names(g.consumers) {
      var i :| 0 <= i < |pel| && pel[i] == p;
      assert g.pel[i] in g.pel;
    }
  }

  lemma {:induction false} RecordAdded(g: Group, cs: seq<Consumer>, p: Pending)
    requires GroupOk(g) && DistinctNames(cs) && Names(g.consumers) <= Names(cs) && p.data.consumer in Names(cs)
    ensures GroupOk(g.(consumers := cs, pel := Upsert(g.pel, p)))
    ensures Ids(Upsert(g.pel, p)) == Ids(g.pel) + {p.id}
  {
    UpsertLaw(g.pel, p);
  }

  lemma {:induction false} ClaimOneKeeps(g: Group, entries: seq<Entry>, id: Id, consumer: Bytes, o: ClaimOptions,
                                         now: nat)
    requires GroupOk(g)
    ensures GroupOk(ClaimOne(g, entries, id, consumer, o, now))
    ensures Ids(g.pel) <= Ids(ClaimOne(g, entries, id, consumer, o, now).pel) <= Ids(g.pel) + Ids(entries)
    ensures ClaimOne(g, entries, id, consumer, o, now).lastId == g.lastId
  {
    var c := Claimable(g, entries, id, consumer, o, now);
    if c.Some? {
      MarkedLaw(g.consumers, consumer, now, true);
      var d := ClaimedRecord(c.value.0, c.value.1, consumer, o, now);
      assert id in Ids(g.pel) || id in Ids(entries) by { PositionLaw(g.pel, id); }
      RecordAdded(g, Marked(g.consumers, consumer, now, true), Item(id, d));
    }
  }

  lemma {:induction false} ClaimKeeps(g: Group, entries: seq<Entry>, ids: seq<Id>, consumer: Bytes, o: ClaimOptions,
                                      now: nat)
    requires GroupOk(g)
    ensures var r := Claim(g, entries, ids, consumer, o, now);
            && GroupOk(r) && Ids(g.pel) <= Ids(r.pel) <= Ids(g.pel) + Ids(entries)
            && r == g.(consumers := r.consumers, pel := r.pel)
  {
    if ids != [] {
      ClaimKeeps(g, entries, ids[..|ids| - 1], consumer, o, now);
      ClaimOneKeeps(Claim(g, entries, ids[..|ids| - 1], consumer, o, now), entries, ids[|ids| - 1], consumer, o, now);
    }
  }

  // What the reply lists belongs to the consumer afterwards.
  lemma {:induction false} ClaimedAreOwned(g: Group, entries: seq<Entry>, ids: seq<Id>, consumer: Bytes,
                                           o: ClaimOptions, now: nat)
    requires GroupOk(g)
    ensures forall id <- ClaimedIds(g, entries, ids, consumer, o, now) ::
              id in ids && Owned(Claim(g, entries, ids, consumer, o, now).pel, id, consumer)
  {
    if ids != [] {
      var init, id := ids[..|ids| - 1], ids[|ids| - 1];
      ClaimedAreOwned(g, entries, init, consumer, o, now);
      ClaimKeeps(g, entries, init, consumer, o, now);
      var h := Claim(g, entries, init, consumer, o, now);
      match Claimable(h, entries, id, consumer, o, now)
      case None =>
      case Some((d, created)) => OwnedKept(h.pel, Item(id, ClaimedRecord(d, created, consumer, o, now)), consumer);
    }
  }

  ghost predicate Owned(pel: seq<Pending>, id: Id, consumer: Bytes) {
    exists p <- pel :: p.id == id && p.data.consumer == consumer
  }

  lemma {:induction false} OwnedKept(pel: seq<Pending>, p: Pending, consumer: Bytes)
    requires Sorted(pel) && p.data.consumer == consumer
    ensures Owned(Upsert(pel, p), p.id, consumer)
    ensures forall id | Owned(pel, id, consumer) :: Owned(Upsert(pel, p), id, consumer)
  {
    UpsertLaw(pel, p);
    assert p in Upsert(pel, p);
    forall id | Owned(pel, id, consumer) ensures Owned(Upsert(pel, p), id, consumer) {
      var q :| q in pel && q.id == id && q.data.consumer == consumer;
      if id != p.id { assert q in Upsert(pel, p); }
    }
  }

  lemma {:induction false} SweepAllLaw(ps: seq<Pending>, entries: seq<Entry>, consumer: Bytes, minIdle: int,
                                       justId: bool, now: nat)
    requires Sorted(ps)
    ensures Sorted(SweepAll(ps, entries, consumer, minIdle, justId, now))
    ensures Ids(SweepAll(ps, entries, consumer, minIdle, justId, now)) == Ids(ps) * Ids(entries)
  {
    if ps != [] {
      var init, p := ps[..|ps| - 1], ps[|ps| - 1];
      SweepAllLaw(init, entries, consumer, minIdle, justId, now);
      assert ps == init + [p];
      IdsSnoc(init, p);
      var rest := SweepAll(init, entries, consumer, minIdle, justId, now);
      var q := Swept(p, entries, consumer, minIdle, justId, now);
      if q.Some? {
        forall x | x in rest ensures Less(x.id, q.value.id) { SmallerThanLast(init, p, rest, x); }
        IdsSnoc(rest, q.value);
        AppendLaw(rest, q.value);
      }
    }
  }

  lemma {:induction false} SmallerThanLast(init: seq<Pending>, p: Pending, rest: seq<Pending>, x: Pending)
    requires Sorted(init + [p]) && Ids(rest) <= Ids(init) && x in rest
    ensures Less(x.id, p.id)
  {
    IdsOf(rest);
    assert x.id in Ids(rest) && x.id in Ids(init);
    var i :| 0 <= i < |init| && init[i].id == x.id;
    var all := init + [p];
    assert all[i] == init[i] && all[|init|] == p;
  }

  lemma {:induction false} SweepAllOwners(ps: seq<Pending>, entries: seq<Entry>, consumer: Bytes, minIdle: int,
                                          justId: bool, now: nat, owners: set<Bytes>)
    requires forall p <- ps :: p.data.consumer in owners
    requires AnyClaimed(ps, entries, minIdle, now) ==> consumer in owners
    ensures forall q <- SweepAll(ps, entries, consumer, minIdle, justId, now) :: q.data.consumer in owners
  {
    if ps != [] {
      var init, p := ps[..|ps| - 1], ps[|ps| - 1];
      assert p in ps;
      if AnyClaimed(init, entries, minIdle, now) {
        var k :| 0 <= k < |init| && init[k].id in Ids(entries) && IdleEnough(init[k].data, minIdle, now);
        assert ps[k] == init[k];
      }
      SweepAllOwners(init, entries, consumer, minIdle, justId, now, owners);
    }
  }

  // Replacing the middle of an ordered list by an ordered list of some of its ids.
  lemma {:induction false} MiddleSorted(pel: seq<Pending>, b: nat, e: nat, mid: seq<Pending>)
    requires Sorted(pel) && b <= e <= |pel| && Sorted(mid) && Ids(mid) <= Ids(pel[b..e])
    ensures Sorted(pel[..b] + mid + pel[e..])
  {
    var r, seen := pel[..b] + mid + pel[e..], pel[b..e];
    forall i | 0 <= i < |mid| ensures exists k | b <= k < e :: pel[k].id == mid[i].id {
      assert mid[i].id in Ids(seen);
      var k :| 0 <= k < |seen| && seen[k].id == mid[i].id;
      assert pel[b + k] == seen[k];
    }
    forall i, j | 0 <= i < j < |r| ensures Less(r[i].id, r[j].id) {
      if b <= i < b + |mid| && j >= b + |mid| {
        var k :| b <= k < e && pel[k].id == mid[i - b].id;
      } else if i < b && b <= j < b + |mid| {
        var k :| b <= k < e && pel[k].id == mid[j - b].id;
      }
    }
  }

  lemma {:induction false} IdsApart(s: seq<Pending>, t: seq<Pending>)
    requires Sorted(s + t)
    ensures Ids(s) !! Ids(t)
  {
    var all := s + t;
    forall i, j | 0 <= i < |s| && 0 <= j < |t| ensures s[i].id != t[j].id {
      assert all[i] == s[i] && all[|s| + j] == t[j];
    }
  }

  lemma {:induction false} MiddleIds(pel: seq<Pending>, b: nat, e: nat, mid: seq<Pending>)
    requires Sorted(pel) && b <= e <= |pel| && Ids(mid) <= Ids(pel[b..e])
    ensures Ids(pel[..b] + mid + pel[e..]) == Ids(pel) - (Ids(pel[b..e]) - Ids(mid))
  {
    var first, seen, rest := pel[..b], pel[b..e], pel[e..];
    assert pel == first + (seen + rest) && pel == (first + seen) + rest;
    IdsConcat(first + mid, rest);
    IdsConcat(first, mid);
    IdsConcat(first, seen + rest);
    IdsConcat(seen, rest);
    IdsApart(first, seen + rest);
    IdsApart(first + seen, rest);
    IdsConcat(first, seen);
  }

  lemma {:induction false} AutoClaimKeeps(g: Group, entries: seq<Entry>, consumer: Bytes, minIdle: int, start: Id,
                                          count: nat, justId: bool, now: nat)
    requires GroupOk(g)
    ensures var r := AutoClaim(g, entries, consumer, minIdle, start, count, justId, now);
            && GroupOk(r)
            && Ids(r.pel) == Ids(g.pel) - (Ids(g.pel[Before(g.pel, start)..Upto(g.pel, start, count)]) - Ids(entries))
  {
    var b, e := Before(g.pel, start), Upto(g.pel, start, count);
    var seen := g.pel[b..e];
    var mid := SweepAll(seen, entries, consumer, minIdle, justId, now);
    var r := AutoClaim(g, entries, consumer, minIdle, start, count, justId, now);
    SweepAllLaw(seen, entries, consumer, minIdle, justId, now);
    MiddleSorted(g.pel, b, e, mid);
    MiddleIds(g.pel, b, e, mid);
    MarkedLaw(g.consumers, consumer, now, true);
    SweepAllOwners(seen, entries, consumer, minIdle, justId, now, Names(r.consumers));
  }

  lemma {:induction false} NotOwnedLaw(pel: seq<Pending>, name: Bytes)
    requires Sorted(pel)
    ensures Sorted(NotOwned(pel, name)) && |NotOwned(pel, name)| <= |pel|
    ensures forall p :: p in NotOwned(pel, name) <==> p in pel && p.data.consumer != name
  {
    if pel != [] {
      var init, p := pel[..|pel| - 1], pel[|pel| - 1];
      NotOwnedLaw(init, name);
      assert pel == init + [p];
      if p.data.consumer != name { AppendLaw(NotOwned(init, name), p); }
    }
  }

  lemma {:induction false} ConsumerDroppedKeeps(g: Group, name: Bytes)
    requires GroupOk(g)
    ensures GroupOk(ConsumerDropped(g, name))
    ensures name in Names(g.consumers) ==>
              forall p :: p in ConsumerDropped(g, name).pel <==> p in g.pel && p.data.consumer != name
  {
    var i, r := ConsumerIndex(g.consumers, name), ConsumerDropped(g, name);
    ConsumerLaw(g.consumers, name);
    if i >= 0 {
      NotOwnedLaw(g.pel, name);
      forall n | n in Names(g.consumers) && n != name ensures n in Names(r.consumers) {
        var k :| 0 <= k < |g.consumers| && g.consumers[k].name == n;
        assert r.consumers[if k < i then k else k - 1] == g.consumers[k];
      }
    }
  }

  lemma {:induction false} AckedKeeps(g: Group, ids: seq<Id>)
    requires GroupOk(g)
    ensures GroupOk(Acked(g, ids)) && Ids(Acked(g, ids).pel) == Ids(g.pel) - set id | id in ids
  {
    DropAllLaw(g.pel, ids);
  }
}
