/**
 * Repeating XAUTOCLAIM with the cursor it returned, until it returns 0-0.
 */
module StreamSweep {
  import opened Options
  import opened Bytes
  import opened Items
  import opened StreamLog
  import opened StreamGroup
  import opened StreamRun

  // The options of the repeated command.
  datatype Request = Request(consumer: Bytes, minIdle: int, count: nat, justId: bool)

  // One call at time `now`.
  function Swept1(g: Group, entries: seq<Entry>, start: Id, o: Request, now: nat): Group {
    AutoClaim(g, entries, o.consumer, o.minIdle, start, o.count, o.justId, now)
  }

  // The records one call visits.
  function Visited(g: Group, start: Id, o: Request): seq<Pending> {
    g.pel[Before(g.pel, start)..Upto(g.pel, start, o.count)]
  }

  function IdList(ps: seq<Pending>): seq<Id> { seq(|ps|, i requires 0 <= i < |ps| => ps[i].id) }

  // The records still to come at or after `start`.
  function Ahead(g: Group, start: Id): nat { |g.pel| - Before(g.pel, start) }

  // Pending ids are in order and fit into 64 bits.
  ghost predicate Sweepable(g: Group) { Sorted(g.pel) && forall p <- g.pel :: AtMost(p.id, MAX_ID) }

  lemma {:induction false} BeforeIs<T>(s: seq<Item<T>>, id: Id, n: nat)
    requires Sorted(s) && n <= |s|
    requires n > 0 ==> Less(s[n - 1].id, id)
    requires n < |s| ==> AtMost(id, s[n].id)
    ensures Before(s, id) == n
  {
    var m := Before(s, id);
    assert m > 0 ==> Less(s[m - 1].id, id);
    assert m < |s| ==> AtMost(id, s[m].id);
  }

  function Middle(g: Group, entries: seq<Entry>, start: Id, o: Request, now: nat): seq<Pending> {
    SweepAll(Visited(g, start, o), entries, o.consumer, o.minIdle, o.justId, now)
  }

  // One call replaces what it visits; the next one starts right behind it.
  lemma {:induction false} OneCall(g: Group, entries: seq<Entry>, start: Id, o: Request, now: nat)
    requires Sweepable(g)
    ensures var b, e, g' := Before(g.pel, start), Upto(g.pel, start, o.count), Swept1(g, entries, start, o, now);
            && Sweepable(g') && g'.pel == g.pel[..b] + Middle(g, entries, start, o, now) + g.pel[e..]
            && (b < e < |g.pel| ==> Before(g'.pel, g.pel[e].id) == b + |Middle(g, entries, start, o, now)|
                                    && g.pel[e].id != MIN_ID)
  {
    var b, e, g' := Before(g.pel, start), Upto(g.pel, start, o.count), Swept1(g, entries, start, o, now);
    var mid := Middle(g, entries, start, o, now);
    SweepAllLaw(Visited(g, start, o), entries, o.consumer, o.minIdle, o.justId, now);
    MiddleSorted(g.pel, b, e, mid);
    MiddleIds(g.pel, b, e, mid);
    forall p | p in g'.pel ensures AtMost(p.id, MAX_ID) {
      IdsOf(g'.pel);
      IdsOf(g.pel);
      assert p.id in Ids(g'.pel) && p.id in Ids(g.pel);
    }
    if b < e < |g.pel| {
      var n := b + |mid|;
      assert g'.pel[n] == g.pel[e];
      assert Less(g.pel[e - 1].id, g.pel[e].id);
      BeforeIs(g'.pel, g.pel[e].id, n);
    }
  }

  // The calls from `start` on: how many, which records they visit, what they leave.
  datatype Outcome = Outcome(calls: nat, visited: seq<Id>, pel: seq<Pending>)

  // Each call has its own time: `clock` gives that of the `k`-th one.
  type Clock = nat -> nat

  function Sweep(g: Group, entries: seq<Entry>, start: Id, o: Request, clock: Clock, k: nat): Outcome
    requires Sweepable(g) && o.count > 0
    decreases Ahead(g, start)
  {
    OneCall(g, entries, start, o, clock(k));
    var g', next := Swept1(g, entries, start, o, clock(k)), Cursor(g.pel, start, o.count);
    if next == MIN_ID then Outcome(1, IdList(Visited(g, start, o)), g'.pel)
    else
      var rest := Sweep(g', entries, next, o, clock, k + 1);
      Outcome(1 + rest.calls, IdList(Visited(g, start, o)) + rest.visited, rest.pel)
  }

  // ---------------------------------------------------------------- how many calls

  function Calls(n: nat, count: nat): nat
    requires count > 0
  {
    if n <= count then 1 else 1 + Calls(n - count, count)
  }

  // Whether a chunk of `count` ends right before the last of `n` records.
  predicate StopsShort(n: nat, count: nat)
    requires count > 0
  {
    n > count && (n == count + 1 || StopsShort(n - count, count))
  }

  // The number of calls is n / count rounded up, and at least one; the last record is
  // alone in its chunk exactly when n - 1 is a positive multiple of count.
  lemma {:induction false} CallsIsCeiling(n: nat, count: nat)
    requires count > 0
    ensures n > 0 ==> (Calls(n, count) - 1) * count < n <= Calls(n, count) * count
    ensures n == 0 ==> Calls(n, count) == 1
    ensures StopsShort(n, count) <==> exists k :: k >= 1 && n == Times(k, count) + 1
  {
    if n > count {
      var k := Calls(n - count, count);
      CallsIsCeiling(n - count, count);
      assert k * count == (k - 1) * count + count && (k + 1) * count == k * count + count;
      if j :| j >= 1 && n - count == Times(j, count) + 1 {
        assert Times(j + 1, count) == Times(j, count) + count;
      }
      if j :| j >= 1 && n == Times(j, count) + 1 {
        assert Times(j, count) == Times(j - 1, count) + count;
        assert j == 1 || n - count == Times(j - 1, count) + 1;
      }
      assert Times(1, count) == count;
    } else {
      forall k | k >= 1 ensures n != Times(k, count) + 1 {
        assert Times(k, count) == (k - 1) * count + count && (k - 1) * count >= 0;
      }
    }
  }

  function Times(k: int, count: nat): int { k * count }

  // ---------------------------------------------------------------- the sweep

  // The ids of the records whose entry still exists.
  function Survivors(ps: seq<Pending>, entries: seq<Entry>): seq<Id> {
    if ps == [] then []
    else
      var p := ps[|ps| - 1];
      Survivors(ps[..|ps| - 1], entries) + if p.id in Ids(entries) then [p.id] else []
  }

  // Whenever a call happens, it keeps exactly those.
  lemma {:induction false} KeepsSurvivors(ps: seq<Pending>, entries: seq<Entry>, o: Request, now: nat)
    ensures IdList(SweepAll(ps, entries, o.consumer, o.minIdle, o.justId, now)) == Survivors(ps, entries)
  {
    if ps != [] { KeepsSurvivors(ps[..|ps| - 1], entries, o, now); }
  }

  lemma {:induction false} SurvivorsConcat(s: seq<Pending>, t: seq<Pending>, entries: seq<Entry>)
    ensures Survivors(s + t, entries) == Survivors(s, entries) + Survivors(t, entries)
  {
    if t == [] {
      assert s + t == s;
    } else {
      assert (s + t)[..|s + t| - 1] == s + t[..|t| - 1];
      SurvivorsConcat(s, t[..|t| - 1], entries);
    }
  }

  lemma {:induction false} SurvivorsAre(ps: seq<Pending>, entries: seq<Entry>)
    ensures (set id | id in Survivors(ps, entries)) == Ids(ps) * Ids(entries)
  {
    if ps != [] {
      var init, p := ps[..|ps| - 1], ps[|ps| - 1];
      SurvivorsAre(init, entries);
      var more := if p.id in Ids(entries) then [p.id] else [];
      assert (set id | id in Survivors(init, entries) + more)
          == (set id | id in Survivors(init, entries)) + set id | id in more;
      assert ps == init + [p];
      IdsSnoc(init, p);
    }
  }

  // The greatest possible id is pending and would be the next cursor.
  predicate Stuck(rest: seq<Pending>, count: nat)
    requires count > 0
  {
    rest != [] && rest[|rest| - 1].id == MAX_ID && StopsShort(|rest|, count)
  }

  // How many of the records ahead a sweep reaches: all, or all but the last if stuck.
  function Reach(rest: seq<Pending>, count: nat): (n: nat)
    requires count > 0
    ensures n <= |rest|
  {
    if Stuck(rest, count) then |rest| - 1 else |rest|
  }

  // With `done` behind the cursor and `rest` ahead of it: the calls visit every record
  // within reach once, in order, in as many calls as that takes, and leave those whose
  // entry still exists, and the record out of reach.
  ghost predicate VisitsAll(done: seq<Id>, rest: seq<Pending>, entries: seq<Entry>, count: nat, r: Outcome)
    requires count > 0
  {
    var n := Reach(rest, count);
    && r.visited == IdList(rest[..n]) && r.calls == Calls(n, count)
    && IdList(r.pel) == done + Survivors(rest[..n], entries) + IdList(rest[n..])
  }

  lemma {:induction false} IdListConcat(s: seq<Pending>, t: seq<Pending>)
    ensures IdList(s) + IdList(t) == IdList(s + t)
  {
  }

  lemma {:induction false} ReachMore(chunk: seq<Pending>, more: seq<Pending>, count: nat)
    requires 0 < count == |chunk| && more != [] && more[0].id != MAX_ID
    ensures Reach(chunk + more, count) == count + Reach(more, count) && Reach(more, count) > 0
    ensures Calls(count + Reach(more, count), count) == 1 + Calls(Reach(more, count), count)
  {
    assert (chunk + more)[|chunk + more| - 1] == more[|more| - 1];
  }

  lemma {:induction false} Cut(s: seq<Pending>, t: seq<Pending>, m: nat)
    requires m <= |t|
    ensures (s + t)[..|s| + m] == s + t[..m] && (s + t)[|s| + m..] == t[m..]
  {
  }

  // A call that does not end the sweep, followed by the rest of it.
  lemma {:induction false} GoesOn(done: seq<Id>, chunk: seq<Pending>, more: seq<Pending>, entries: seq<Entry>,
                                  count: nat, r: Outcome)
    requires 0 < count == |chunk| && more != [] && more[0].id != MAX_ID
    requires VisitsAll(done + Survivors(chunk, entries), more, entries, count, r)
    ensures VisitsAll(done, chunk + more, entries, count, Outcome(1 + r.calls, IdList(chunk) + r.visited, r.pel))
  {
    var m := Reach(more, count);
    ReachMore(chunk, more, count);
    Cut(chunk, more, m);
    ChunkFirst(done, chunk, more[..m], IdList(more[m..]), entries);
  }

  lemma {:induction false} ChunkFirst(done: seq<Id>, chunk: seq<Pending>, seen: seq<Pending>, tail: seq<Id>,
                                      entries: seq<Entry>)
    ensures IdList(chunk) + IdList(seen) == IdList(chunk + seen)
    ensures done + Survivors(chunk, entries) + Survivors(seen, entries) + tail
            == done + Survivors(chunk + seen, entries) + tail
  {
    IdListConcat(chunk, seen);
    SurvivorsConcat(chunk, seen, entries);
    assert done + Survivors(chunk, entries) + Survivors(seen, entries)
        == done + (Survivors(chunk, entries) + Survivors(seen, entries));
  }

  lemma {:induction false} SweepVisitsAll(g: Group, entries: seq<Entry>, start: Id, o: Request, clock: Clock, k: nat)
    requires Sweepable(g) && o.count > 0
    ensures var b := Before(g.pel, start);
            VisitsAll(IdList(g.pel[..b]), g.pel[b..], entries, o.count, Sweep(g, entries, start, o, clock, k))
    decreases Ahead(g, start)
  {
    var e := Upto(g.pel, start, o.count);
    OneCall(g, entries, start, o, clock(k));
    KeepsSurvivors(Visited(g, start, o), entries, o, clock(k));
    if e == |g.pel| {
      LastCall(g, entries, start, o, clock, k);
    } else if g.pel[e].id == MAX_ID {
      StuckCall(g, entries, start, o, clock, k);
    } else {
      var g', b := Swept1(g, entries, start, o, clock(k)), Before(g.pel, start);
      SweepVisitsAll(g', entries, g.pel[e].id, o, clock, k + 1);
      MiddleCall(g.pel, b, e, Middle(g, entries, start, o, clock(k)), g'.pel, entries, o.count,
                 Sweep(g', entries, g.pel[e].id, o, clock, k + 1));
    }
  }

  lemma {:induction false} MiddleCall(pel: seq<Pending>, b: nat, e: nat, mid: seq<Pending>, pel': seq<Pending>,
                                      entries: seq<Entry>, count: nat, r: Outcome)
    requires b < e < |pel| && e - b == count && pel[e].id != MAX_ID
    requires IdList(mid) == Survivors(pel[b..e], entries) && pel' == pel[..b] + mid + pel[e..]
    requires var n := b + |mid|; VisitsAll(IdList(pel'[..n]), pel'[n..], entries, count, r)
    ensures VisitsAll(IdList(pel[..b]), pel[b..], entries, count,
                      Outcome(1 + r.calls, IdList(pel[b..e]) + r.visited, r.pel))
  {
    assert pel'[..b + |mid|] == pel[..b] + mid && pel'[b + |mid|..] == pel[e..];
    IdListConcat(pel[..b], mid);
    GoesOn(IdList(pel[..b]), pel[b..e], pel[e..], entries, count, r);
    assert pel[b..e] + pel[e..] == pel[b..];
  }

  // The calls of a chunk of at most `count` records.
  lemma {:induction false} OneChunk(n: nat, count: nat)
    requires 0 < count && n <= count
    ensures Calls(n, count) == 1 && !StopsShort(n, count)
  {
  }

  lemma {:induction false} StuckCall(g: Group, entries: seq<Entry>, start: Id, o: Request, clock: Clock, k: nat)
    requires Sweepable(g) && o.count > 0 && Upto(g.pel, start, o.count) < |g.pel|
    requires g.pel[Upto(g.pel, start, o.count)].id == MAX_ID
    ensures var b := Before(g.pel, start);
            VisitsAll(IdList(g.pel[..b]), g.pel[b..], entries, o.count, Sweep(g, entries, start, o, clock, k))
  {
    var b, e := Before(g.pel, start), Upto(g.pel, start, o.count);
    var rest, mid := g.pel[b..], Middle(g, entries, start, o, clock(k));
    MaxIsLast(g, e);
    OneCall(g, entries, start, o, clock(k));
    KeepsSurvivors(Visited(g, start, o), entries, o, clock(k));
    assert Stuck(rest, o.count) && rest[..o.count] == g.pel[b..e] && rest[o.count..] == g.pel[e..];
    OneChunk(o.count, o.count);
    IdListConcat(g.pel[..b], mid);
    IdListConcat(g.pel[..b] + mid, g.pel[e..]);
  }

  lemma {:induction false} LastCall(g: Group, entries: seq<Entry>, start: Id, o: Request, clock: Clock, k: nat)
    requires Sweepable(g) && o.count > 0 && Upto(g.pel, start, o.count) == |g.pel|
    ensures var b := Before(g.pel, start);
            VisitsAll(IdList(g.pel[..b]), g.pel[b..], entries, o.count, Sweep(g, entries, start, o, clock, k))
  {
    OneCall(g, entries, start, o, clock(k));
    KeepsSurvivors(Visited(g, start, o), entries, o, clock(k));
    var b := Before(g.pel, start);
    var rest, mid := g.pel[b..], Middle(g, entries, start, o, clock(k));
    OneChunk(|rest|, o.count);
    assert Visited(g, start, o) == rest && rest[..|rest|] == rest && rest[|rest|..] == [];
    IdListConcat(g.pel[..b], mid);
    assert g.pel[..b] + mid + g.pel[|g.pel|..] == g.pel[..b] + mid;
  }

  lemma {:induction false} MaxIsLast(g: Group, e: nat)
    requires Sweepable(g) && e < |g.pel| && g.pel[e].id == MAX_ID
    ensures e == |g.pel| - 1
  {
    var last := g.pel[|g.pel| - 1];
    assert last in g.pel && AtMost(last.id, MAX_ID);
  }

  lemma {:induction false} IdsOfList(ps: seq<Pending>)
    ensures (set id | id in IdList(ps)) == Ids(ps)
  {
    forall i | 0 <= i < |ps| ensures ps[i].id in IdList(ps) { assert IdList(ps)[i] == ps[i].id; }
  }

  // Starting at 0-0, whenever the calls happen: the n pending records within reach take
  // n / COUNT calls rounded up (at least one), each is visited exactly once, and the
  // pending ids left are exactly those whose entry still exists, and the one out of
  // reach: the greatest possible id, when it would be alone in the last call.
  lemma {:induction false} FullSweep(g: Group, entries: seq<Entry>, o: Request, clock: Clock)
    requires Sweepable(g) && o.count > 0
    ensures var r, n := Sweep(g, entries, MIN_ID, o, clock, 0), Reach(g.pel, o.count);
            && r.visited == IdList(g.pel[..n]) && r.calls == Calls(n, o.count)
            && Ids(r.pel) == Ids(g.pel[..n]) * Ids(entries) + Ids(g.pel[n..])
    ensures Reach(g.pel, o.count) == |g.pel| <==> !Stuck(g.pel, o.count)
  {
    assert Before(g.pel, MIN_ID) == 0;
    assert g.pel[0..] == g.pel;
    SweepVisitsAll(g, entries, MIN_ID, o, clock, 0);
    var r, n := Sweep(g, entries, MIN_ID, o, clock, 0), Reach(g.pel, o.count);
    SurvivorsAre(g.pel[..n], entries);
    IdsOfList(g.pel[n..]);
    IdsOfList(r.pel);
    assert IdList(r.pel) == Survivors(g.pel[..n], entries) + IdList(g.pel[n..]);
  }

  // ---------------------------------------------------------------- a stuck sweep

  // Two entries, the second with the greatest id, are delivered and not acknowledged.
  function BothPending(n: Bytes, who: Bytes, fields: seq<Bytes>): seq<Cmd> {
    [Create(n, MIN_ID, None), Add(Exact(Id(1, 0)), fields, 1), Add(Exact(MAX_ID), fields, 1), Read(n, who, 0, false, 1)]
  }

  lemma {:induction false} BothAdded(n: Bytes, who: Bytes, fields: seq<Bytes>) returns (w: World)
    requires |fields| % 2 == 0
    ensures var cmds := BothPending(n, who, fields); w == Next(Next(Next(START, cmds[0]), cmds[1]), cmds[2])
    ensures w.log.entries == [Item(Id(1, 0), fields), Item(MAX_ID, fields)]
    ensures n in w.groups && n in w.past && w.groups[n] == Group(n, MIN_ID, 0, false, [], [])
  {
    var cmds := BothPending(n, who, fields);
    var w1 := Next(Next(START, cmds[0]), cmds[1]);
    assert w1.log.entries == [Item(Id(1, 0), fields)] && w1.log.last == Id(1, 0) && w1.log.hasLast;
    w := Next(w1, cmds[2]);
  }

  lemma {:induction false} DeliversBoth(g: Group, a: Entry, b: Entry, who: Bytes)
    requires g.lastId == MIN_ID && g.pel == [] && g.consumers == [] && Less(MIN_ID, a.id) && Less(a.id, b.id)
    ensures var pel := ReadNew(g, [a, b], who, 0, false, 1).pel;
            Sorted(pel) && |pel| == 2 && pel[0].id == a.id && pel[1].id == b.id
  {
    var pel := ReadNew(g, [a, b], who, 0, false, 1).pel;
    BehindSplits([a, b], MIN_ID);
    assert Fresh([a, b], MIN_ID, 0) == [a, b];
    ReadNewKeeps(g, [a, b], who, 0, false, 1);
    TwoIds(pel, a, b);
  }

  lemma {:induction false} TwoIds(pel: seq<Pending>, a: Entry, b: Entry)
    requires Sorted(pel) && Less(a.id, b.id) && Ids(pel) == Ids([a, b])
    ensures |pel| == 2 && pel[0].id == a.id && pel[1].id == b.id
  {
    IdCount(pel);
    IdCount([a, b]);
    assert [a, b][0] == a && [a, b][1] == b;
    assert a.id in Ids(pel) && b.id in Ids(pel);
    assert pel[0].id in Ids([a, b]) && pel[1].id in Ids([a, b]);
  }

  // With COUNT 1, the sweep of that group ends after one call and leaves the record with
  // the greatest id unvisited, whatever entries are left.
  lemma {:induction false} StuckReached(n: Bytes, who: Bytes, fields: seq<Bytes>, entries: seq<Entry>, o: Request,
                                        clock: Clock)
    requires |fields| % 2 == 0 && o.count == 1
    ensures n in Run(START, BothPending(n, who, fields)).groups
    ensures var g := Run(START, BothPending(n, who, fields)).groups[n];
            && Sweepable(g) && IdList(g.pel) == [Id(1, 0), MAX_ID] && Stuck(g.pel, 1)
            && var r := Sweep(g, entries, MIN_ID, o, clock, 0);
               r.calls == 1 && r.visited == [Id(1, 0)] && MAX_ID in Ids(r.pel)
  {
    var w := BothDelivered(n, who, fields);
    StuckPair(w.groups[n], entries, o, clock);
  }

  lemma {:induction false} BothDelivered(n: Bytes, who: Bytes, fields: seq<Bytes>) returns (w: World)
    requires |fields| % 2 == 0
    ensures w == Run(START, BothPending(n, who, fields)) && n in w.groups
    ensures var pel := w.groups[n].pel; Sorted(pel) && |pel| == 2 && pel[0].id == Id(1, 0) && pel[1].id == MAX_ID
  {
    var cmds := BothPending(n, who, fields);
    var u := BothAdded(n, who, fields);
    DeliversBoth(u.groups[n], Item(Id(1, 0), fields), Item(MAX_ID, fields), who);
    w := Next(u, cmds[3]);
    RunFour(START, cmds[0], cmds[1], cmds[2], cmds[3]);
    assert cmds == [cmds[0], cmds[1], cmds[2], cmds[3]];
  }

  lemma {:induction false} StuckPair(g: Group, entries: seq<Entry>, o: Request, clock: Clock)
    requires o.count == 1 && Sorted(g.pel) && |g.pel| == 2 && g.pel[0].id == Id(1, 0) && g.pel[1].id == MAX_ID
    ensures Sweepable(g) && IdList(g.pel) == [Id(1, 0), MAX_ID] && Stuck(g.pel, 1)
    ensures var r := Sweep(g, entries, MIN_ID, o, clock, 0);
            r.calls == 1 && r.visited == [Id(1, 0)] && MAX_ID in Ids(r.pel)
  {
    FullSweep(g, entries, o, clock);
    assert IdList(g.pel[..1]) == [Id(1, 0)];
    assert g.pel[1..][0].id == MAX_ID;
  }
}
