/**
 * The lag that XINFO reports for a consumer group, computed from two counters, against
 * the number of entries the group has yet to read.
 */
module StreamLag {
  import opened Options
  import opened Bytes
  import opened Items
  import opened StreamLog
  import opened StreamGroup
  import opened StreamRun

  // How many entries are past the cursor, counted one by one.
  function CountAfter(entries: seq<Entry>, cursor: Id): nat {
    if entries == [] then 0
    else CountAfter(entries[..|entries| - 1], cursor) + if Less(cursor, entries[|entries| - 1].id) then 1 else 0
  }

  function Lag(log: Log, g: Group): int {
    if g.hasRead then Int64(Int64(log.added) - Int64(g.entriesRead)) else CountAfter(log.entries, g.lastId)
  }

  method GroupLag(log: Log, g: Group) returns (lag: int)
    ensures lag == Lag(log, g)
  {
    if g.hasRead {
      return Int64(Int64(log.added) - Int64(g.entriesRead));
    }
    var n := 0;
    for i := 0 to |log.entries|
      invariant n == CountAfter(log.entries[..i], g.lastId)
    {
      assert log.entries[..i + 1][..i] == log.entries[..i];
      if Less(g.lastId, log.entries[i].id) {
        n := n + 1;
      }
    }
    assert log.entries[..|log.entries|] == log.entries;
    return n;
  }

  lemma {:induction false} CountAfterIsRest(entries: seq<Entry>, cursor: Id)
    requires Sorted(entries)
    ensures CountAfter(entries, cursor) == |entries| - Behind(entries, cursor)
  {
    if entries != [] {
      var init := entries[..|entries| - 1];
      CountAfterIsRest(init, cursor);
      BehindSplits(entries, cursor);
      BehindSplits(init, cursor);
      var n, m := Behind(entries, cursor), Behind(init, cursor);
      assert m < |init| ==> !AtMost(init[m].id, cursor) && entries[m] == init[m];
      assert m > 0 ==> AtMost(init[m - 1].id, cursor) && entries[m - 1] == init[m - 1];
      assert n < |entries| ==> !AtMost(entries[n].id, cursor);
      assert n > 0 ==> AtMost(entries[n - 1].id, cursor);
    }
  }

  // ---------------------------------------------------------------- the counters

  // The entries handed out that are no longer there.
  function Lost(log: Log, p: Past): set<Id> { Ids(p.handed) - Ids(log.entries) }

  // For a group created without ENTRIESREAD and never moved: entries-read counts what
  // was handed out, and whatever of that is gone was removed.
  ghost predicate CounterOk(w: World, g: Group, p: Past) {
    && (g.hasRead <==> p.handed != []) && g.entriesRead == Word(|p.handed|)
    && |Lost(w.log, p)| <= w.removed
  }

  ghost predicate AllCounted(w: World) {
    w.groups.Keys == w.past.Keys
    && forall n {:trigger w.groups[n]} | n in w.groups && w.past[n].counted && !w.past[n].moved ::
         CounterOk(w, w.groups[n], w.past[n])
  }

  lemma {:induction false} WordSum(n: nat, k: nat)
    ensures Word(Word(n) + k) == Word(n + k)
  {
    var m := 0x1_0000_0000_0000_0000;
    assert n + k == (n / m) * m + (Word(n) + k);
    assert (n / m) * m + (Word(n) + k) == (n / m + (Word(n) + k) / m) * m + Word(Word(n) + k);
  }

  lemma {:induction false} ChangedCounter(l: Log, g: Group, p: Past, c: Cmd)
    requires LogOk(l) && GroupOk(g) && OnGroup(c) && !c.SetId?
    requires (g.hasRead <==> p.handed != []) && g.entriesRead == Word(|p.handed|)
    ensures var r, q := Changed(l, g, c), Remembered(l, g, p, c);
            && (r.hasRead <==> q.handed != []) && r.entriesRead == Word(|q.handed|)
            && Lost(l, q) == Lost(l, p)
  {
    if c.Read? {
      ReadCounter(l, g, p, c);
    } else {
      assert p.handed + Handed(l, g, c) == p.handed;
      if c.Take? { ClaimKeeps(g, l.entries, c.ids, c.consumer, c.o, c.now); }
    }
  }

  lemma {:induction false} ReadCounter(l: Log, g: Group, p: Past, c: Cmd)
    requires LogOk(l) && c.Read? && (g.hasRead <==> p.handed != []) && g.entriesRead == Word(|p.handed|)
    ensures var r, q := Changed(l, g, c), Remembered(l, g, p, c);
            && (r.hasRead <==> q.handed != []) && r.entriesRead == Word(|q.handed|)
            && Lost(l, q) == Lost(l, p)
  {
    var out := Fresh(l.entries, g.lastId, c.count);
    HandedKnown(l, g, p, c);
    ReadLeaves(l, g, p, c);
    ReadCounts(l, g, c);
    WordSum(|p.handed|, |out|);
  }

  lemma {:induction false} ReadCounts(l: Log, g: Group, c: Cmd)
    requires c.Read?
    ensures var r, out := Changed(l, g, c), Fresh(l.entries, g.lastId, c.count);
            if out == [] then r == g else r.hasRead && r.entriesRead == Word(g.entriesRead + |out|)
  {
    ReadNewCounts(g, l.entries, c.consumer, c.count, c.noack, c.now);
  }

  lemma {:induction false} ReadNewCounts(g: Group, entries: seq<Entry>, consumer: Bytes, count: int, noack: bool,
                                         now: nat)
    ensures var r, out := ReadNew(g, entries, consumer, count, noack, now), Fresh(entries, g.lastId, count);
            if out == [] then r == g else r.hasRead && r.entriesRead == Word(g.entriesRead + |out|)
  {
  }

  lemma {:induction false} HandedKnown(l: Log, g: Group, p: Past, c: Cmd)
    requires LogOk(l) && c.Read?
    ensures |Handed(l, g, c)| == |Fresh(l.entries, g.lastId, c.count)|
    ensures Ids(p.handed + Handed(l, g, c)) - Ids(l.entries) == Lost(l, p)
  {
    HandedIds(l, g, c);
    IdsConcat(p.handed, Handed(l, g, c));
    FreshIds(l.entries, g.lastId, c.count);
  }

  lemma {:induction false} FreshIds(entries: seq<Entry>, cursor: Id, count: int)
    requires Sorted(entries)
    ensures Ids(Fresh(entries, cursor, count)) <= Ids(entries)
  {
    FreshIsPast(entries, cursor, count);
    IdsOf(Fresh(entries, cursor, count));
    IdsOf(entries);
  }

  lemma {:induction false} AddLosesNothing(l: Log, req: IdRequest, fields: seq<Bytes>, now: nat)
    requires LogOk(l)
    ensures Ids(l.entries) - Ids(XAdd(l, req, fields, now).entries) == {}
  {
    XAddKeeps(l, req, fields, now);
    var r := XAdd(l, req, fields, now);
    if r != l { IdsConcat(l.entries, [Item(r.last, fields)]); }
  }

  lemma {:induction false} DelLoses(l: Log, ids: seq<Id>)
    requires LogOk(l)
    ensures |Ids(l.entries) - Ids(XDel(l, ids).entries)| == Gone(l, XDel(l, ids))
  {
    DropAllLaw(l.entries, ids);
    FewerIds(l.entries, DropAll(l.entries, ids));
  }

  lemma {:induction false} TrimLoses(l: Log, how: Trim, limit: int)
    requires LogOk(l)
    ensures |Ids(l.entries) - Ids(XTrim(l, how, limit).entries)| == Gone(l, XTrim(l, how, limit))
  {
    var es, k := l.entries, Trimmed(l.entries, how, limit);
    assert es == es[..k] + es[k..];
    IdsConcat(es[..k], es[k..]);
    FewerIds(es, es[k..]);
  }

  // The log commands change the log, and count what they take out.
  lemma {:induction false} OnlyLogCommands(w: World, c: Cmd)
    ensures var l, t := w.log, Next(w, c);
            match c
            case Add(req, fields, now) => t.log == XAdd(l, req, fields, now) && t.removed == w.removed
            case Del(ids) => t.log == XDel(l, ids) && t.removed == w.removed + Gone(l, t.log)
            case TrimBy(how, limit) => t.log == XTrim(l, how, limit) && t.removed == w.removed + Gone(l, t.log)
            case _ => t.log == l && t.removed == w.removed
  {
  }

  // Every entry that a command takes out is counted as removed.
  lemma {:induction false} LossCounted(w: World, c: Cmd, t: World)
    requires LogOk(w.log) && t == Next(w, c)
    ensures w.removed <= t.removed && |Ids(w.log.entries) - Ids(t.log.entries)| <= t.removed - w.removed
  {
    OnlyLogCommands(w, c);
    match c
    case Add(req, fields, now) => AddLosesNothing(w.log, req, fields, now);
    case Del(ids) => DelLoses(w.log, ids);
    case TrimBy(how, limit) => TrimLoses(w.log, how, limit);
    case _ => assert Ids(w.log.entries) - Ids(w.log.entries) == {};
  }

  lemma {:induction false} FewerIds(es: seq<Entry>, es': seq<Entry>)
    requires Sorted(es) && Sorted(es') && Ids(es') <= Ids(es)
    ensures |Ids(es) - Ids(es')| == |es| - |es'|
  {
    IdCount(es);
    IdCount(es');
  }

  // Losing entries loses no more of any set of ids.
  lemma {:induction false} LossOf(ids: set<Id>, before: set<Id>, after: set<Id>)
    ensures |ids - after| <= |ids - before| + |before - after|
  {
    var both := (ids - before) + (before - after);
    assert |both| <= |ids - before| + |before - after|;
    SubsetCount(ids - after, both);
  }

  lemma {:induction false} SubsetCount(a: set<Id>, b: set<Id>)
    requires a <= b
    ensures |a| <= |b|
  {
    assert b == a + (b - a);
  }

  lemma {:induction false} StepCounts(w: World, c: Cmd)
    requires StreamOk(w) && AllCounted(w)
    ensures AllCounted(Next(w, c))
  {
    var t := Next(w, c);
    forall n | n in t.groups && t.past[n].counted && !t.past[n].moved ensures CounterOk(t, t.groups[n], t.past[n]) {
      GroupCounts(w, c, n);
    }
  }

  // The command of another group, or of the log.
  lemma {:induction false} OtherCounts(w: World, t: World, g: Group, p: Past)
    requires CounterOk(w, g, p) && w.removed <= t.removed
    requires |Ids(w.log.entries) - Ids(t.log.entries)| <= t.removed - w.removed
    ensures CounterOk(t, g, p)
  {
    LossOf(Ids(p.handed), Ids(w.log.entries), Ids(t.log.entries));
  }

  lemma {:induction false} OwnCounts(w: World, c: Cmd)
    requires LogOk(w.log) && OnGroup(c) && !c.SetId? && c.group in w.groups && c.group in w.past
    requires GroupOk(w.groups[c.group]) && CounterOk(w, w.groups[c.group], w.past[c.group])
    ensures CounterOk(Next(w, c), Next(w, c).groups[c.group], Next(w, c).past[c.group])
  {
    ChangedCounter(w.log, w.groups[c.group], w.past[c.group], c);
  }

  lemma {:induction false} GroupCounts(w: World, c: Cmd, n: Bytes)
    requires StreamOk(w) && AllCounted(w) && n in Next(w, c).groups && n in Next(w, c).past
    requires var p := Next(w, c).past[n]; p.counted && !p.moved
    ensures CounterOk(Next(w, c), Next(w, c).groups[n], Next(w, c).past[n])
  {
    if OnGroup(c) && n == c.group {
      OwnCounts(w, c);
    } else if n in w.groups && n in w.past {
      LossCounted(w, c, Next(w, c));
      SameGroup(w, c, n);
      OtherCounts(w, Next(w, c), w.groups[n], w.past[n]);
    }
  }

  lemma {:induction false} SameGroup(w: World, c: Cmd, n: Bytes)
    requires n in w.groups && n in w.past && n in Next(w, c).groups && n in Next(w, c).past
    requires OnGroup(c) ==> n != c.group
    ensures Next(w, c).groups[n] == w.groups[n] && Next(w, c).past[n] == w.past[n]
  {
  }

  lemma {:induction false} EveryRunCounts(w: World, cmds: seq<Cmd>)
    requires StreamOk(w) && AllCounted(w)
    ensures AllCounted(Run(w, cmds))
    decreases |cmds|
  {
    if cmds != [] {
      StepOk(w, cmds[0]);
      StepCounts(w, cmds[0]);
      EveryRunCounts(Next(w, cmds[0]), cmds[1..]);
    }
  }

  // ---------------------------------------------------------------- the lag

  // What was handed out is the stretch of entries between start and cursor, and
  // whatever was lost.
  lemma {:induction false} HandedIsStretch(w: World, g: Group, p: Past)
    requires LogOk(w.log) && DeliveryOk(w.log, g, p)
    ensures |p.handed| == Behind(w.log.entries, g.lastId) - Behind(w.log.entries, p.start) + |Lost(w.log, p)|
  {
    var es := w.log.entries;
    var b, e := Behind(es, p.start), Behind(es, g.lastId);
    BehindSplits(es, p.start);
    BehindSplits(es, g.lastId);
    CursorPastStart(w.log, g, p);
    var mid := es[b..e];
    StretchIds(w.log, g, p, b, e);
    IdCount(mid);
    IdCount(p.handed);
    Parts(Ids(p.handed), Ids(es));
  }

  lemma {:induction false} Parts(a: set<Id>, b: set<Id>)
    ensures |a| == |a * b| + |a - b|
  {
    assert a == (a * b) + (a - b);
  }

  lemma {:induction false} CursorPastStart(log: Log, g: Group, p: Past)
    requires LogOk(log) && DeliveryOk(log, g, p)
    ensures AtMost(p.start, g.lastId) && Behind(log.entries, p.start) <= Behind(log.entries, g.lastId)
  {
    if p.handed != [] { assert p.handed[|p.handed| - 1] in p.handed; }
    BehindSplits(log.entries, p.start);
    BehindSplits(log.entries, g.lastId);
    var b := Behind(log.entries, p.start);
    if b > 0 { assert AtMost(log.entries[b - 1].id, p.start); }
  }

  lemma {:induction false} HandedBetween(log: Log, g: Group, p: Past)
    requires DeliveryOk(log, g, p)
    ensures forall id <- Ids(p.handed) :: Less(p.start, id) && AtMost(id, g.lastId)
  {
    forall j | 0 <= j < |p.handed| ensures Less(p.start, p.handed[j].id) && AtMost(p.handed[j].id, g.lastId) {
      assert p.handed[j] in p.handed;
    }
  }

  lemma {:induction false} BetweenIsMid(es: seq<Entry>, start: Id, cursor: Id, ids: set<Id>)
    requires Sorted(es) && ids <= Ids(es) && Behind(es, start) <= Behind(es, cursor)
    requires forall id <- ids :: Less(start, id) && AtMost(id, cursor)
    ensures ids <= Ids(es[Behind(es, start)..Behind(es, cursor)])
  {
    var b, mid := Behind(es, start), es[Behind(es, start)..Behind(es, cursor)];
    BehindSplits(es, start);
    BehindSplits(es, cursor);
    forall id | id in ids ensures id in Ids(mid) {
      var i :| 0 <= i < |es| && es[i].id == id;
      assert mid[i - b] == es[i];
    }
  }

  lemma {:induction false} StretchIds(log: Log, g: Group, p: Past, b: nat, e: nat)
    requires LogOk(log) && DeliveryOk(log, g, p)
    requires b == Behind(log.entries, p.start) <= e == Behind(log.entries, g.lastId)
    ensures Ids(log.entries[b..e]) == Ids(p.handed) * Ids(log.entries)
  {
    var es := log.entries;
    var mid := es[b..e];
    BehindSplits(es, p.start);
    BehindSplits(es, g.lastId);
    forall i | 0 <= i < |mid| ensures mid[i].id in Ids(p.handed) * Ids(es) {
      assert mid[i] == es[b + i] && es[b + i] in es;
    }
    HandedBetween(log, g, p);
    BetweenIsMid(es, p.start, g.lastId, Ids(p.handed) * Ids(es));
  }

  // Once the group has read anything, the reported lag is the number of entries past the
  // cursor, plus those at or before its start, plus those removed that it was never
  // handed.  So it is right exactly when the group has not read yet, or started before
  // every entry and was handed every entry that was removed.
  lemma {:induction false} LagExact(w: World, n: Bytes)
    requires StreamOk(w) && AllDelivered(w) && AllCounted(w) && n in w.groups
    requires w.past[n].counted && !w.past[n].moved && |w.log.entries| + w.removed < 0x8000_0000_0000_0000
    ensures var es, g, p := w.log.entries, w.groups[n], w.past[n];
            var before, missed := Behind(es, p.start), w.removed - |Lost(w.log, p)|;
            && missed >= 0
            && Lag(w.log, g) == CountAfter(es, g.lastId) + (if g.hasRead then before + missed else 0)
            && (Lag(w.log, g) == CountAfter(es, g.lastId) <==> !g.hasRead || (before == 0 && missed == 0))
  {
    var es, g, p := w.log.entries, w.groups[n], w.past[n];
    EntriesCounted(w, g, p);
    if g.hasRead { ReadLag(w, g, p); }
  }

  lemma {:induction false} ReadLag(w: World, g: Group, p: Past)
    requires g.hasRead && CounterOk(w, g, p) && w.log.added == Word(|w.log.entries| + w.removed)
    requires |p.handed| <= |w.log.entries| + w.removed < 0x8000_0000_0000_0000
    ensures Lag(w.log, g) == |w.log.entries| + w.removed - |p.handed|
  {
    LagIs(w.log, g, |w.log.entries| + w.removed, |p.handed|);
  }

  // Every entry is at or before the start, was handed out, or is past the cursor.
  lemma {:induction false} EntriesCounted(w: World, g: Group, p: Past)
    requires LogOk(w.log) && DeliveryOk(w.log, g, p)
    ensures Behind(w.log.entries, p.start) + |p.handed| + CountAfter(w.log.entries, g.lastId)
            == |w.log.entries| + |Lost(w.log, p)|
  {
    CountAfterIsRest(w.log.entries, g.lastId);
    HandedIsStretch(w, g, p);
  }

  lemma {:induction false} LagIs(log: Log, g: Group, added: nat, read: nat)
    requires g.hasRead && log.added == Word(added) && g.entriesRead == Word(read)
             && read <= added < 0x8000_0000_0000_0000
    ensures Lag(log, g) == added - read
  {
    Int64Difference(added, read);
  }

  lemma {:induction false} Int64Difference(a: nat, b: nat)
    requires b <= a < 0x8000_0000_0000_0000
    ensures Int64(Int64(Word(a)) - Int64(Word(b))) == a - b
  {
  }

  // A group created at the first of two entries, that then reads the second.
  function LateGroup(n: Bytes, who: Bytes, fields: seq<Bytes>): seq<Cmd> {
    [Add(Exact(Id(1, 0)), fields, 1), Create(n, Id(1, 0), None), Add(Exact(Id(2, 0)), fields, 1),
        Read(n, who, 0, true, 1)]
  }

  lemma {:induction false} TwoAdded(n: Bytes, who: Bytes, fields: seq<Bytes>) returns (w: World)
    requires |fields| % 2 == 0
    ensures var cmds := LateGroup(n, who, fields); w == Next(Next(Next(START, cmds[0]), cmds[1]), cmds[2])
    ensures w.log.entries == [Item(Id(1, 0), fields), Item(Id(2, 0), fields)] && w.log.added == 2 && w.removed == 0
    ensures n in w.groups && n in w.past && w.groups[n] == Group(n, Id(1, 0), 0, false, [], [])
  {
    var cmds := LateGroup(n, who, fields);
    var w1 := Next(START, cmds[0]);
    assert w1.log.entries == [Item(Id(1, 0), fields)] && w1.log.added == 1;
    w := Next(Next(w1, cmds[1]), cmds[2]);
  }

  lemma {:induction false} SecondIsFresh(a: Entry, b: Entry)
    requires Less(a.id, b.id)
    ensures Fresh([a, b], a.id, 0) == [b] && CountAfter([a, b], b.id) == 0
  {
    BehindSplits([a, b], a.id);
    BehindSplits([a, b], b.id);
    CountAfterIsRest([a, b], b.id);
  }

  lemma {:induction false} ReadsSecond(g: Group, a: Entry, b: Entry, who: Bytes)
    requires Less(a.id, b.id) && g.lastId == a.id && g.entriesRead == 0
    ensures var r := ReadNew(g, [a, b], who, 0, true, 1); r.lastId == b.id && r.entriesRead == 1 && r.hasRead
  {
    SecondIsFresh(a, b);
  }

  lemma {:induction false} LateRun(n: Bytes, who: Bytes, fields: seq<Bytes>) returns (w: World)
    requires |fields| % 2 == 0
    ensures w == Run(START, LateGroup(n, who, fields)) && n in w.groups && w.removed == 0
    ensures w.log.entries == [Item(Id(1, 0), fields), Item(Id(2, 0), fields)] && w.log.added == 2
    ensures w.groups[n].lastId == Id(2, 0) && w.groups[n].entriesRead == 1 && w.groups[n].hasRead
  {
    var cmds := LateGroup(n, who, fields);
    var u := TwoAdded(n, who, fields);
    ReadsSecond(u.groups[n], Item(Id(1, 0), fields), Item(Id(2, 0), fields), who);
    w := Next(u, cmds[3]);
    RunFour(START, cmds[0], cmds[1], cmds[2], cmds[3]);
    assert cmds == [cmds[0], cmds[1], cmds[2], cmds[3]];
  }

  // It has read everything there is, and reports one entry to go.
  lemma {:induction false} LagTooLarge(n: Bytes, who: Bytes, fields: seq<Bytes>)
    requires |fields| % 2 == 0
    ensures var w := Run(START, LateGroup(n, who, fields));
            && n in w.groups && w.removed == 0
            && CountAfter(w.log.entries, w.groups[n].lastId) == 0 && Lag(w.log, w.groups[n]) == 1
  {
    var w := LateRun(n, who, fields);
    SecondIsFresh(Item(Id(1, 0), fields), Item(Id(2, 0), fields));
    LagIs(w.log, w.groups[n], 2, 1);
  }

  // A group that starts at 0-0, and an entry that is deleted before the group reads it.
  function DeletedUnread(n: Bytes, who: Bytes, fields: seq<Bytes>): seq<Cmd> {
    [Create(n, MIN_ID, None), Add(Exact(Id(1, 0)), fields, 1), Read(n, who, 0, true, 1),
        Add(Exact(Id(2, 0)), fields, 1),
     Del([Id(2, 0)])]
  }

  lemma {:induction false} CreatedThenAdded(n: Bytes, who: Bytes, fields: seq<Bytes>) returns (w: World)
    requires |fields| % 2 == 0
    ensures var cmds := DeletedUnread(n, who, fields); w == Next(Next(START, cmds[0]), cmds[1])
    ensures w.log == Log([Item(Id(1, 0), fields)], Id(1, 0), true, 1, MIN_ID) && w.removed == 0
    ensures n in w.groups && n in w.past && w.groups[n] == Group(n, MIN_ID, 0, false, [], [])
  {
    var cmds := DeletedUnread(n, who, fields);
    w := Next(Next(START, cmds[0]), cmds[1]);
  }

  lemma {:induction false} ReadsOnly(g: Group, a: Entry, who: Bytes)
    requires Less(g.lastId, a.id) && g.entriesRead == 0
    ensures var r := ReadNew(g, [a], who, 0, true, 1); r.lastId == a.id && r.entriesRead == 1 && r.hasRead
  {
    BehindSplits([a], g.lastId);
    assert Fresh([a], g.lastId, 0) == [a];
  }

  lemma {:induction false} AddsThenDeletes(w: World, fields: seq<Bytes>) returns (t: World)
    requires |fields| % 2 == 0 && w.removed == 0
    requires w.log == Log([Item(Id(1, 0), fields)], Id(1, 0), true, 1, MIN_ID)
    ensures t == Next(Next(w, Add(Exact(Id(2, 0)), fields, 1)), Del([Id(2, 0)]))
    ensures t.log.entries == [Item(Id(1, 0), fields)] && t.log.added == 2 && t.removed == 1 && t.groups == w.groups
  {
    var first, second := Item(Id(1, 0), fields), Item(Id(2, 0), fields);
    var u := Next(w, Add(Exact(Id(2, 0)), fields, 1));
    assert u.log.entries == [first, second] && u.log.added == 2;
    PositionIs([first, second], Id(2, 0), 1);
    assert DropAll([first, second], [Id(2, 0)]) == [first];
    t := Next(u, Del([Id(2, 0)]));
  }

  lemma {:induction false} ReadsFirst(u: World, n: Bytes, who: Bytes, fields: seq<Bytes>) returns (v: World)
    requires u.log.entries == [Item(Id(1, 0), fields)] && n in u.groups && n in u.past
    requires u.groups[n].lastId == MIN_ID && u.groups[n].entriesRead == 0
    ensures v == Next(u, Read(n, who, 0, true, 1)) && v.log == u.log && v.removed == u.removed && n in v.groups
    ensures v.groups[n].lastId == Id(1, 0) && v.groups[n].entriesRead == 1 && v.groups[n].hasRead
  {
    ReadsOnly(u.groups[n], Item(Id(1, 0), fields), who);
    v := Next(u, Read(n, who, 0, true, 1));
  }

  lemma {:induction false} DeletedRun(n: Bytes, who: Bytes, fields: seq<Bytes>) returns (w: World)
    requires |fields| % 2 == 0
    ensures w == Run(START, DeletedUnread(n, who, fields)) && n in w.groups && w.removed == 1
    ensures w.log.entries == [Item(Id(1, 0), fields)] && w.log.added == 2
    ensures w.groups[n].lastId == Id(1, 0) && w.groups[n].entriesRead == 1 && w.groups[n].hasRead
  {
    var cmds := DeletedUnread(n, who, fields);
    var u := CreatedThenAdded(n, who, fields);
    var v := ReadsFirst(u, n, who, fields);
    w := AddsThenDeletes(v, fields);
    RunFive(START, cmds[0], cmds[1], cmds[2], cmds[3], cmds[4]);
    assert cmds == [cmds[0], cmds[1], cmds[2], cmds[3], cmds[4]];
  }

  // Nothing is left to read, and the group reports one entry to go.
  lemma {:induction false} LagCountsDeleted(n: Bytes, who: Bytes, fields: seq<Bytes>)
    requires |fields| % 2 == 0
    ensures var w := Run(START, DeletedUnread(n, who, fields));
            && n in w.groups && w.removed == 1
            && CountAfter(w.log.entries, w.groups[n].lastId) == 0 && Lag(w.log, w.groups[n]) == 1
  {
    var w := DeletedRun(n, who, fields);
    assert w.log.entries[..0] == [];
    LagIs(w.log, w.groups[n], 2, 1);
  }

  lemma {:induction false} RunFive(w: World, a: Cmd, b: Cmd, c: Cmd, d: Cmd, e: Cmd)
    ensures Run(w, [a, b, c, d, e]) == Next(Next(Next(Next(Next(w, a), b), c), d), e)
  {
    assert [a, b, c, d, e][1..] == [b, c, d, e];
    RunFour(Next(w, a), b, c, d, e);
  }

  // ---------------------------------------------------------------- groups that start at 0-0

  ghost predicate NoZero(log: Log) { forall e <- log.entries :: e.id != MIN_ID }

  lemma {:induction false} EveryRunNoZero(w: World, cmds: seq<Cmd>)
    requires StreamOk(w) && NoZero(w.log) && forall c <- cmds | c.Add? :: c.now > 0
    ensures NoZero(Run(w, cmds).log)
    decreases |cmds|
  {
    if cmds != [] {
      var c := cmds[0];
      StepOk(w, c);
      if c.Add? { XAddKeeps(w.log, c.req, c.fields, c.now); }
      if c.Del? { DropAllLaw(w.log.entries, c.ids); }
      EveryRunNoZero(Next(w, c), cmds[1..]);
    }
  }

  // The exact lag over every run from the empty stream.
  lemma {:induction false} LagInEveryRun(cmds: seq<Cmd>, n: Bytes)
    requires n in Run(START, cmds).groups && n in Run(START, cmds).past
    requires var w := Run(START, cmds);
             w.past[n].counted && !w.past[n].moved && |w.log.entries| + w.removed < 0x8000_0000_0000_0000
    ensures var w := Run(START, cmds);
            var es, g, p := w.log.entries, w.groups[n], w.past[n];
            var before, missed := Behind(es, p.start), w.removed - |Lost(w.log, p)|;
            && missed >= 0
            && Lag(w.log, g) == CountAfter(es, g.lastId) + (if g.hasRead then before + missed else 0)
            && (Lag(w.log, g) == CountAfter(es, g.lastId) <==> !g.hasRead || (before == 0 && missed == 0))
  {
    EveryRunOk(START, cmds);
    DeliveredOnce(START, cmds);
    EveryRunCounts(START, cmds);
    LagExact(Run(START, cmds), n);
  }

  // Over every run from the empty stream in which the clock is past 0, nothing is
  // removed and the group starts at 0-0 without ENTRIESREAD or SETID: the lag is the
  // number of entries past the cursor.
  lemma {:induction false} LagFromZero(cmds: seq<Cmd>, n: Bytes)
    requires forall c <- cmds | c.Add? :: c.now > 0
    requires Run(START, cmds).removed == 0 && |Run(START, cmds).log.entries| < 0x8000_0000_0000_0000
    requires n in Run(START, cmds).groups && n in Run(START, cmds).past
    requires var p := Run(START, cmds).past[n]; p.counted && !p.moved && p.start == MIN_ID
    ensures var w := Run(START, cmds); Lag(w.log, w.groups[n]) == CountAfter(w.log.entries, w.groups[n].lastId)
  {
    var w := Run(START, cmds);
    EveryRunOk(START, cmds);
    EveryRunNoZero(START, cmds);
    LagInEveryRun(cmds, n);
    BehindSplits(w.log.entries, MIN_ID);
    if w.log.entries != [] { assert w.log.entries[0] in w.log.entries; }
  }
}
