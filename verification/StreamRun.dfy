/**
 * A stream with its consumer groups under any sequence of commands except XSETID.
 *
 * Main results: `EveryRunOk` (the stream's invariant and the conservation of entries),
 * `DeliveredOnce` (what ">" reads hand out over a whole run) and `ReleasedOnlyBy` (how
 * a pending record can go away).
 */
module StreamRun {
  import opened Options
  import opened Bytes
  import opened Items
  import opened StreamLog
  import opened StreamGroup

  datatype Cmd =
    | Add(req: IdRequest, fields: seq<Bytes>, now: nat)
    | Del(ids: seq<Id>)
    | TrimBy(how: Trim, limit: int)
    | Create(group: Bytes, id: Id, read: Option<nat>)
    | Destroy(group: Bytes)
    | SetId(group: Bytes, id: Id, read: Option<nat>)
    | NewConsumer(group: Bytes, consumer: Bytes, now: nat)
    | DropConsumer(group: Bytes, consumer: Bytes)
    | Read(group: Bytes, consumer: Bytes, count: int, noack: bool, now: nat)
    | Reread(group: Bytes, consumer: Bytes, after: Id, count: int, now: nat)
    | Ack(group: Bytes, ids: seq<Id>)
    | Take(group: Bytes, consumer: Bytes, ids: seq<Id>, o: ClaimOptions, now: nat)
    | Sweep(group: Bytes, consumer: Bytes, minIdle: int, start: Id, most: nat, justId: bool, now: nat)

  // What a group has gone through: where it started, every entry a ">" read handed out
  // (with its NOACK flag), every record that left the pending list, and whether it was
  // created without ENTRIESREAD and never moved by SETID.
  datatype Past = Past(start: Id, handed: seq<Item<bool>>, released: set<Id>, counted: bool, moved: bool)

  // A stream with the history of each group; `removed` sums the XDEL and XTRIM replies.
  datatype World = World(log: Log, groups: map<Bytes, Group>, past: map<Bytes, Past>, removed: nat)

  const START := World(EMPTY, map[], map[], 0)

  // The group commands: the group after the command.
  function Changed(log: Log, g: Group, c: Cmd): Group {
    match c
    case SetId(_, id, read) =>
      g.(lastId := id, entriesRead := if read.Some? then read.value else g.entriesRead,
      hasRead := g.hasRead || read.Some?)
    case NewConsumer(_, consumer, now) => g.(consumers := Ensured(g.consumers, consumer, now))
    case DropConsumer(_, consumer) => ConsumerDropped(g, consumer)
    case Read(_, consumer, count, noack, now) => ReadNew(g, log.entries, consumer, count, noack, now)
    case Reread(_, consumer, after, count, now) => ReadOld(g, log.entries, consumer, after, count, now)
    case Ack(_, ids) => Acked(g, ids)
    case Take(_, consumer, ids, o, now) =>
      if ClaimFails(g, log.entries, ids, consumer, o, now) then g else Claim(g, log.entries, ids, consumer, o, now)
    case Sweep(_, consumer, minIdle, start, most, justId, now) =>
      AutoClaim(g, log.entries, consumer, minIdle, start, most, justId, now)
    case _ => g
  }

  // The entries a command hands out as new.
  function Handed(log: Log, g: Group, c: Cmd): seq<Item<bool>> {
    if !c.Read? then [] else
    var out := Fresh(log.entries, g.lastId, c.count);
    seq(|out|, i requires 0 <= i < |out| => Item(out[i].id, c.noack))
  }

  function Remembered(log: Log, g: Group, p: Past, c: Cmd): Past {
    p.(handed := p.handed + Handed(log, g, c),
    released := p.released + (Ids(g.pel) - Ids(Changed(log, g, c).pel)),
    moved := p.moved || c.SetId?)
  }

  predicate OnGroup(c: Cmd) { !c.Add? && !c.Del? && !c.TrimBy? && !c.Create? && !c.Destroy? }

  function Next(w: World, c: Cmd): World {
    match c
    case Add(req, fields, now) => w.(log := XAdd(w.log, req, fields, now))
    case Del(ids) => var log := XDel(w.log, ids); w.(log := log, removed := w.removed + Gone(w.log, log))
    case TrimBy(how, limit) =>
      var log := XTrim(w.log, how, limit);
      w.(log := log, removed := w.removed + Gone(w.log, log))
    case Create(name, id, read) =>
      if name in w.groups then w else
      var g := Group(name, id, if read.Some? then read.value else 0, read.Some?, [], []);
      w.(groups := w.groups[name := g], past := w.past[name := Past(id, [], {}, read.None?, false)])
    case Destroy(name) => w.(groups := w.groups - {name}, past := w.past - {name})
    case _ =>
      if c.group !in w.groups || c.group !in w.past then w else
      var g, p := w.groups[c.group], w.past[c.group];
      w.(groups := w.groups[c.group := Changed(w.log, g, c)], past := w.past[c.group := Remembered(w.log, g, p, c)])
  }

  function Gone(before: Log, after: Log): nat {
    if |after.entries| <= |before.entries| then |before.entries| - |after.entries| else 0
  }

  function Run(w: World, cmds: seq<Cmd>): World
    decreases |cmds|
  {
    if cmds == [] then w else Run(Next(w, cmds[0]), cmds[1..])
  }

  lemma {:induction false} RunFour(w: World, a: Cmd, b: Cmd, c: Cmd, d: Cmd)
    ensures Run(w, [a, b, c, d]) == Next(Next(Next(Next(w, a), b), c), d)
  {
    assert [a, b, c, d][1..] == [b, c, d] && [b, c, d][1..] == [c, d] && [c, d][1..] == [d] && [d][1..] == [];
    assert Run(w, [a, b, c, d]) == Run(Next(w, a), [b, c, d]) == Run(Next(Next(w, a), b), [c, d]);
    assert Run(Next(Next(w, a), b), [c, d]) == Run(Next(Next(Next(w, a), b), c), [d]);
  }

  // ---------------------------------------------------------------- the stream's invariant

  // Entries and pending ids in order, owners known, and every entry ever added is
  // either still there or counted as removed.
  ghost predicate StreamOk(w: World) {
    && LogOk(w.log)
    && w.groups.Keys == w.past.Keys
    && (forall n {:trigger w.groups[n]} | n in w.groups :: GroupOk(w.groups[n]))
    && w.log.added == Word(|w.log.entries| + w.removed)
  }

  lemma {:induction false} ChangedOk(log: Log, g: Group, c: Cmd)
    requires GroupOk(g)
    ensures GroupOk(Changed(log, g, c))
  {
    if c.Take? || c.Sweep? {
      ClaimedOk(log, g, c);
    } else {
      match c
      case NewConsumer(_, consumer, now) => EnsuredLaw(g.consumers, consumer, now);
      case DropConsumer(_, consumer) => ConsumerDroppedKeeps(g, consumer);
      case Read(_, consumer, count, noack, now) => ReadNewKeeps(g, log.entries, consumer, count, noack, now);
      case Reread(_, consumer, after, count, now) => ReadOldKeeps(g, log.entries, consumer, after, count, now);
      case Ack(_, ids) => AckedKeeps(g, ids);
      case _ =>
    }
  }

  lemma {:induction false} ClaimedOk(log: Log, g: Group, c: Cmd)
    requires GroupOk(g) && (c.Take? || c.Sweep?)
    ensures GroupOk(Changed(log, g, c))
  {
    if c.Take? {
      ClaimKeeps(g, log.entries, c.ids, c.consumer, c.o, c.now);
    } else {
      AutoClaimKeeps(g, log.entries, c.consumer, c.minIdle, c.start, c.most, c.justId, c.now);
    }
  }

  lemma {:induction false} LogKept(l: Log, c: Cmd)
    requires LogOk(l)
    ensures c.Add? ==>
              var r := XAdd(l, c.req, c.fields, c.now);
              LogOk(r) && (r == l || (|r.entries| == |l.entries| + 1 && r.added == Word(l.added + 1)))
    ensures c.Del? ==> LogOk(XDel(l, c.ids)) && |XDel(l, c.ids).entries| <= |l.entries|
    ensures c.TrimBy? ==> LogOk(XTrim(l, c.how, c.limit)) && |XTrim(l, c.how, c.limit).entries| <= |l.entries|
  {
    match c
    case Add(req, fields, now) => XAddKeeps(l, req, fields, now);
    case Del(ids) => XDelKeeps(l, ids); DropAllLaw(l.entries, ids);
    case _ =>
  }

  lemma {:induction false} WordNext(n: nat)
    ensures Word(Word(n) + 1) == Word(n + 1)
  {
  }

  lemma {:induction false} StepOk(w: World, c: Cmd)
    requires StreamOk(w)
    ensures StreamOk(Next(w, c))
  {
    var t := Next(w, c);
    LogStepOk(w, c);
    forall n | n in t.groups ensures GroupOk(t.groups[n]) {
      if OnGroup(c) && n == c.group { ChangedOk(w.log, w.groups[n], c); }
    }
  }

  lemma {:induction false} LogStepOk(w: World, c: Cmd)
    requires LogOk(w.log) && w.log.added == Word(|w.log.entries| + w.removed)
    ensures var t := Next(w, c); LogOk(t.log) && t.log.added == Word(|t.log.entries| + t.removed)
  {
    LogKept(w.log, c);
    WordNext(|w.log.entries| + w.removed);
  }

  // Over every run: ids strictly increasing and at most the last id, the deletion mark
  // at most the last id, pending ids strictly increasing, consumer names distinct,
  // every pending owner known, and entries-added equal to length plus removals.
  lemma {:induction false} EveryRunOk(w: World, cmds: seq<Cmd>)
    requires StreamOk(w)
    ensures StreamOk(Run(w, cmds))
    decreases |cmds|
  {
    if cmds != [] {
      StepOk(w, cmds[0]);
      EveryRunOk(Next(w, cmds[0]), cmds[1..]);
    }
  }

  // ---------------------------------------------------------------- delivery

  // For a group never moved by SETID: what ">" reads handed out, to whichever consumer,
  // is strictly increasing and past the start, the cursor is the last of it, every
  // entry still present between start and cursor is among it, and whatever was handed
  // out without NOACK is pending or was released.
  ghost predicate DeliveryOk(log: Log, g: Group, p: Past) {
    && Sorted(p.handed)
    && (forall h <- p.handed :: Less(p.start, h.id))
    && g.lastId == (if p.handed == [] then p.start else p.handed[|p.handed| - 1].id)
    && (p.handed != [] ==> AtMost(g.lastId, log.last))
    && (forall e <- log.entries | Less(p.start, e.id) && AtMost(e.id, g.lastId) :: e.id in Ids(p.handed))
    && (forall h <- p.handed | !h.data :: h.id in Ids(g.pel) || h.id in p.released)
  }

  ghost predicate AllDelivered(w: World) {
    w.groups.Keys == w.past.Keys
    && forall n {:trigger w.groups[n]} | n in w.groups :: w.past[n].moved || DeliveryOk(w.log, w.groups[n], w.past[n])
  }

  // Commands on the log: new entries are past every cursor, and removing entries asks
  // for nothing more.
  lemma {:induction false} LogKeepsDelivery(l: Log, c: Cmd, m: Log, g: Group, p: Past)
    requires LogOk(l) && DeliveryOk(l, g, p)
    requires || (c.Add? && m == XAdd(l, c.req, c.fields, c.now))
             || (c.Del? && m == XDel(l, c.ids))
             || (c.TrimBy? && m == XTrim(l, c.how, c.limit))
    ensures DeliveryOk(m, g, p)
  {
    match c
    case Add(req, fields, now) =>
      XAddKeeps(l, req, fields, now);
      if m != l {
        assert l.hasLast ==> Less(l.last, m.last);
      }
    case Del(ids) => DropAllLaw(l.entries, ids);
    case _ =>
  }

  // Only reads and SETID move the cursor.
  lemma {:induction false} CursorStays(l: Log, g: Group, c: Cmd)
    requires GroupOk(g) && OnGroup(c) && !c.SetId? && !c.Read?
    ensures Changed(l, g, c).lastId == g.lastId
  {
    if c.Take? { ClaimKeeps(g, l.entries, c.ids, c.consumer, c.o, c.now); }
  }

  lemma {:induction false} SameCursorDelivers(l: Log, g: Group, p: Past, r: Group, q: Past)
    requires DeliveryOk(l, g, p) && r.lastId == g.lastId && q.start == p.start && q.handed == p.handed
    requires q.released == p.released + (Ids(g.pel) - Ids(r.pel))
    ensures DeliveryOk(l, r, q)
  {
  }

  lemma {:induction false} GroupKeepsDelivery(l: Log, g: Group, p: Past, c: Cmd)
    requires LogOk(l) && GroupOk(g) && DeliveryOk(l, g, p) && OnGroup(c) && !c.SetId?
    ensures DeliveryOk(l, Changed(l, g, c), Remembered(l, g, p, c))
  {
    if c.Read? {
      ReadKeepsDelivery(l, g, p, c);
    } else {
      var r, q := Changed(l, g, c), Remembered(l, g, p, c);
      CursorStays(l, g, c);
      SameCursorDelivers(l, g, p, r, q);
    }
  }

  lemma {:induction false} SortedConcat<T>(s: seq<Item<T>>, t: seq<Item<T>>)
    requires Sorted(s) && Sorted(t)
    requires s != [] && t != [] ==> Less(s[|s| - 1].id, t[0].id)
    ensures Sorted(s + t) && Ids(s + t) == Ids(s) + Ids(t)
  {
    IdsConcat(s, t);
  }

  lemma {:induction false} HandedIds(l: Log, g: Group, c: Cmd)
    requires LogOk(l) && c.Read?
    ensures var out, more := Fresh(l.entries, g.lastId, c.count), Handed(l, g, c);
            && |more| == |out| && Sorted(more) && Ids(more) == Ids(out)
            && forall i | 0 <= i < |more| :: Less(g.lastId, more[i].id)
  {
    FreshIsPast(l.entries, g.lastId, c.count);
    SameIds(Fresh(l.entries, g.lastId, c.count), Handed(l, g, c));
  }

  // What one ">" read hands out comes after everything handed out before.
  lemma {:induction false} HandedLaw(l: Log, g: Group, p: Past, c: Cmd)
    requires LogOk(l) && DeliveryOk(l, g, p) && c.Read?
    ensures var out, more := Fresh(l.entries, g.lastId, c.count), Handed(l, g, c);
            && Sorted(p.handed + more) && Ids(p.handed + more) == Ids(p.handed) + Ids(out)
            && forall h <- more :: Less(p.start, h.id)
  {
    HandedIds(l, g, c);
    SortedConcat(p.handed, Handed(l, g, c));
    if p.handed != [] { assert p.handed[|p.handed| - 1] in p.handed; }
  }

  // What a ">" read leaves behind.
  lemma {:induction false} ReadLeaves(l: Log, g: Group, p: Past, c: Cmd)
    requires c.Read?
    ensures var out, r, q := Fresh(l.entries, g.lastId, c.count), Changed(l, g, c), Remembered(l, g, p, c);
            && r.lastId == (if out == [] then g.lastId else out[|out| - 1].id)
            && q.start == p.start && q.handed == p.handed + Handed(l, g, c)
  {
  }

  // The parts of the delivery invariant after a read that hands out `more`.
  lemma {:induction false} DeliveryAfter(l: Log, g: Group, p: Past, r: Group, q: Past, more: seq<Item<bool>>)
    requires DeliveryOk(l, g, p) && more != [] && q.start == p.start && q.handed == p.handed + more
    requires Sorted(q.handed) && (forall h <- more :: Less(p.start, h.id))
    requires r.lastId == more[|more| - 1].id && AtMost(r.lastId, l.last)
    requires forall e <- l.entries | Less(p.start, e.id) && AtMost(e.id, r.lastId) :: e.id in Ids(q.handed)
    requires forall h <- q.handed | !h.data :: h.id in Ids(r.pel) || h.id in q.released
    ensures DeliveryOk(l, r, q)
  {
    assert q.handed[|q.handed| - 1] == more[|more| - 1];
    forall h | h in q.handed ensures Less(p.start, h.id) { assert h in p.handed || h in more; }
  }

  lemma {:induction false} NothingRead(l: Log, g: Group, p: Past, c: Cmd)
    requires DeliveryOk(l, g, p) && c.Read? && Fresh(l.entries, g.lastId, c.count) == []
    ensures DeliveryOk(l, Changed(l, g, c), Remembered(l, g, p, c))
  {
    assert Handed(l, g, c) == [] && p.handed + [] == p.handed;
    SameCursorDelivers(l, g, p, Changed(l, g, c), Remembered(l, g, p, c));
  }

  lemma {:induction false} SomethingRead(l: Log, g: Group, p: Past, c: Cmd, r: Group, q: Past)
    requires LogOk(l) && DeliveryOk(l, g, p) && c.Read? && Fresh(l.entries, g.lastId, c.count) != []
    requires q.start == p.start && q.handed == p.handed + Handed(l, g, c)
    requires var out := Fresh(l.entries, g.lastId, c.count); r.lastId == out[|out| - 1].id
    requires forall h <- q.handed | !h.data :: h.id in Ids(r.pel) || h.id in q.released
    ensures DeliveryOk(l, r, q)
  {
    HandedLast(l, g, c);
    HandedCovers(l, g, p, c);
    ReadStaysBehind(l, g.lastId, c.count);
    DeliveryAfter(l, g, p, r, q, Handed(l, g, c));
  }

  lemma {:induction false} HandedLast(l: Log, g: Group, c: Cmd)
    requires c.Read? && Fresh(l.entries, g.lastId, c.count) != []
    ensures var out, more := Fresh(l.entries, g.lastId, c.count), Handed(l, g, c);
            more != [] && more[|more| - 1].id == out[|out| - 1].id
  {
  }

  lemma {:induction false} HandedCovers(l: Log, g: Group, p: Past, c: Cmd)
    requires LogOk(l) && DeliveryOk(l, g, p) && c.Read? && Fresh(l.entries, g.lastId, c.count) != []
    ensures var out, handed := Fresh(l.entries, g.lastId, c.count), p.handed + Handed(l, g, c);
            && Sorted(handed) && (forall h <- Handed(l, g, c) :: Less(p.start, h.id))
            && forall e <- l.entries | Less(p.start, e.id) && AtMost(e.id, out[|out| - 1].id) :: e.id in Ids(handed)
  {
    HandedLaw(l, g, p, c);
    ReadCovers(l.entries, p.start, g.lastId, c.count, Ids(p.handed));
  }

  lemma {:induction false} ReadKeepsDelivery(l: Log, g: Group, p: Past, c: Cmd)
    requires LogOk(l) && GroupOk(g) && DeliveryOk(l, g, p) && c.Read?
    ensures DeliveryOk(l, Changed(l, g, c), Remembered(l, g, p, c))
  {
    if Fresh(l.entries, g.lastId, c.count) == [] {
      NothingRead(l, g, p, c);
    } else {
      ReadLeaves(l, g, p, c);
      ReadPends(l, g, p, c);
      SomethingRead(l, g, p, c, Changed(l, g, c), Remembered(l, g, p, c));
    }
  }

  lemma {:induction false} CoversMore(entries: seq<Entry>, start: Id, cursor: Id, next: Id, a: set<Id>, b: set<Id>)
    requires forall e <- entries | Less(start, e.id) && AtMost(e.id, cursor) :: e.id in a
    requires forall e <- entries | Less(cursor, e.id) && AtMost(e.id, next) :: e.id in b
    ensures forall e <- entries | Less(start, e.id) && AtMost(e.id, next) :: e.id in a + b
  {
  }

  lemma {:induction false} ReadCovers(entries: seq<Entry>, start: Id, cursor: Id, count: int, handed: set<Id>)
    requires Sorted(entries) && Fresh(entries, cursor, count) != []
    requires forall e <- entries | Less(start, e.id) && AtMost(e.id, cursor) :: e.id in handed
    ensures var out := Fresh(entries, cursor, count);
            forall e <- entries | Less(start, e.id) && AtMost(e.id, out[|out| - 1].id) :: e.id in handed + Ids(out)
  {
    var out := Fresh(entries, cursor, count);
    FreshSkipsNothing(entries, cursor, count);
    CoversMore(entries, start, cursor, out[|out| - 1].id, handed, Ids(out));
  }

  lemma {:induction false} ReadStaysBehind(l: Log, cursor: Id, count: int)
    requires LogOk(l) && Fresh(l.entries, cursor, count) != []
    ensures var out := Fresh(l.entries, cursor, count);
            AtMost(out[|out| - 1].id, l.last)
  {
    FreshIsPast(l.entries, cursor, count);
  }

  lemma {:induction false} PendsMore(handed: seq<Item<bool>>, more: seq<Item<bool>>, pel: set<Id>, pel': set<Id>,
                                     gone: set<Id>, gone': set<Id>)
    requires forall h <- handed | !h.data :: h.id in pel || h.id in gone
    requires forall h <- more | !h.data :: h.id in pel'
    requires pel <= pel' && gone <= gone'
    ensures forall h <- handed + more | !h.data :: h.id in pel' || h.id in gone'
  {
  }

  lemma {:induction false} ReadPends(l: Log, g: Group, p: Past, c: Cmd)
    requires LogOk(l) && GroupOk(g) && c.Read?
    requires forall h <- p.handed | !h.data :: h.id in Ids(g.pel) || h.id in p.released
    ensures var r, q := Changed(l, g, c), Remembered(l, g, p, c);
            forall h <- q.handed | !h.data :: h.id in Ids(r.pel) || h.id in q.released
  {
    var r, q, more := Changed(l, g, c), Remembered(l, g, p, c), Handed(l, g, c);
    ReadNewKeeps(g, l.entries, c.consumer, c.count, c.noack, c.now);
    HandedPend(l, g, c, Ids(r.pel));
    PendsMore(p.handed, more, Ids(g.pel), Ids(r.pel), p.released, q.released);
  }

  lemma {:induction false} HandedPend(l: Log, g: Group, c: Cmd, pel: set<Id>)
    requires LogOk(l) && c.Read? && (c.noack || Ids(Fresh(l.entries, g.lastId, c.count)) <= pel)
    ensures forall h <- Handed(l, g, c) | !h.data :: h.id in pel
  {
    HandedIds(l, g, c);
    IdsOf(Handed(l, g, c));
  }

  lemma {:induction false} GroupDelivers(w: World, c: Cmd, n: Bytes)
    requires StreamOk(w) && AllDelivered(w) && n in Next(w, c).groups && n in Next(w, c).past
             && !Next(w, c).past[n].moved
    ensures DeliveryOk(Next(w, c).log, Next(w, c).groups[n], Next(w, c).past[n])
  {
    if c.Create? && n !in w.groups {
    } else if OnGroup(c) && n == c.group {
      GroupKeepsDelivery(w.log, w.groups[n], w.past[n], c);
    } else if c.Add? || c.Del? || c.TrimBy? {
      LogKeepsDelivery(w.log, c, Next(w, c).log, w.groups[n], w.past[n]);
    }
  }

  lemma {:induction false} StepDelivers(w: World, c: Cmd)
    requires StreamOk(w) && AllDelivered(w)
    ensures AllDelivered(Next(w, c))
  {
    var t := Next(w, c);
    forall n | n in t.groups && !t.past[n].moved ensures DeliveryOk(t.log, t.groups[n], t.past[n]) {
      GroupDelivers(w, c, n);
    }
  }

  // Over every run, for every group not moved by SETID.
  lemma {:induction false} DeliveredOnce(w: World, cmds: seq<Cmd>)
    requires StreamOk(w) && AllDelivered(w)
    ensures AllDelivered(Run(w, cmds))
    decreases |cmds|
  {
    if cmds != [] {
      StepOk(w, cmds[0]);
      StepDelivers(w, cmds[0]);
      DeliveredOnce(Next(w, cmds[0]), cmds[1..]);
    }
  }

  // The two invariants hold from the empty stream on.
  lemma {:induction false} EveryStream(cmds: seq<Cmd>)
    ensures StreamOk(Run(START, cmds)) && AllDelivered(Run(START, cmds))
  {
    EveryRunOk(START, cmds);
    DeliveredOnce(START, cmds);
  }

  // What makes a pending record go away: XACK of its id, deleting its consumer, a sweep
  // that visits it after its entry was deleted, or deleting the whole group.
  ghost predicate Releases(w: World, c: Cmd, n: Bytes, r: Pending)
    requires n in w.groups
  {
    var pel := w.groups[n].pel;
    || (c.Destroy? && c.group == n)
    || (c.Ack? && c.group == n && r.id in c.ids)
    || (c.DropConsumer? && c.group == n && r.data.consumer == c.consumer)
    || (c.Sweep? && c.group == n && r.id !in Ids(w.log.entries)
        && r in pel[Before(pel, c.start)..Upto(pel, c.start, c.most)])
  }

  // A pending record goes away exactly by these.
  lemma {:induction false} ReleasedOnlyBy(w: World, c: Cmd, n: Bytes, r: Pending)
    requires StreamOk(w) && n in w.groups && r in w.groups[n].pel
    ensures var t := Next(w, c); n !in t.groups || r.id !in Ids(t.groups[n].pel) <==> Releases(w, c, n, r)
  {
    if OnGroup(c) && c.group == n {
      GroupReleases(w.log, w.groups[n], c, r);
    } else {
      IdsOf(w.groups[n].pel);
    }
  }

  // ---------------------------------------------------------------- pending over a run

  ghost predicate Pends(w: World, n: Bytes, id: Id) { n in w.groups && id in Ids(w.groups[n].pel) }

  // The command releases the record that the id has at that point.
  ghost predicate ReleasesId(w: World, c: Cmd, n: Bytes, id: Id) {
    n in w.groups && exists r <- w.groups[n].pel :: r.id == id && Releases(w, c, n, r)
  }

  lemma {:induction false} StepReleases(w: World, c: Cmd, n: Bytes, id: Id)
    requires StreamOk(w) && Pends(w, n, id)
    ensures Pends(Next(w, c), n, id) <==> !ReleasesId(w, c, n, id)
  {
    var pel := w.groups[n].pel;
    var i :| 0 <= i < |pel| && pel[i].id == id;
    ReleasedOnlyBy(w, c, n, pel[i]);
    forall r | r in pel && r.id == id ensures r == pel[i] {
      var j :| 0 <= j < |pel| && pel[j] == r;
    }
  }

  lemma {:induction false} RunSnoc(w: World, cmds: seq<Cmd>, c: Cmd)
    ensures Run(w, cmds + [c]) == Next(Run(w, cmds), c)
    decreases |cmds|
  {
    if cmds == [] {
      assert cmds + [c] == [c] && [c][1..] == [];
    } else {
      assert (cmds + [c])[1..] == cmds[1..] + [c];
      RunSnoc(Next(w, cmds[0]), cmds[1..], c);
    }
  }

  // No command of the run releases the id at its turn.
  ghost predicate NeverReleased(w: World, cmds: seq<Cmd>, n: Bytes, id: Id) {
    forall k | 0 <= k < |cmds| :: !ReleasesId(Run(w, cmds[..k]), cmds[k], n, id)
  }

  // A pending id stays pending until the first command that releases it, whoever claims
  // or reads it in between, and not longer.
  lemma {:induction false} PendingUntilReleased(w: World, cmds: seq<Cmd>, n: Bytes, id: Id)
    requires StreamOk(w) && Pends(w, n, id) && NeverReleased(w, cmds, n, id)
    ensures Pends(Run(w, cmds), n, id)
    ensures forall c :: Pends(Run(w, cmds + [c]), n, id) <==> !ReleasesId(Run(w, cmds), c, n, id)
    decreases |cmds|
  {
    if cmds != [] {
      var init, last := cmds[..|cmds| - 1], cmds[|cmds| - 1];
      assert forall k | 0 <= k < |init| :: init[..k] == cmds[..k] && init[k] == cmds[k];
      PendingUntilReleased(w, init, n, id);
      assert init + [last] == cmds;
    }
    EveryRunOk(w, cmds);
    forall c ensures Pends(Run(w, cmds + [c]), n, id) <==> !ReleasesId(Run(w, cmds), c, n, id) {
      RunSnoc(w, cmds, c);
      StepReleases(Run(w, cmds), c, n, id);
    }
  }

  lemma {:induction false} DeliveredPends(w: World, c: Cmd, id: Id)
    requires StreamOk(w) && c.Read? && !c.noack && c.group in w.groups
    requires id in Ids(Fresh(w.log.entries, w.groups[c.group].lastId, c.count))
    ensures Pends(Next(w, c), c.group, id)
  {
    ReadAddsPending(w.log, w.groups[c.group], c);
    GroupAfter(w, c);
  }

  lemma {:induction false} ReadAddsPending(l: Log, g: Group, c: Cmd)
    requires GroupOk(g) && c.Read? && !c.noack
    ensures Ids(Fresh(l.entries, g.lastId, c.count)) <= Ids(Changed(l, g, c).pel)
  {
    ReadNewKeeps(g, l.entries, c.consumer, c.count, c.noack, c.now);
  }

  lemma {:induction false} GroupAfter(w: World, c: Cmd)
    requires OnGroup(c) && c.group in w.groups && c.group in w.past
    ensures c.group in Next(w, c).groups && Next(w, c).groups[c.group] == Changed(w.log, w.groups[c.group], c)
  {
  }

  // An id that a ">" read delivers without NOACK is pending from then on, until the first
  // command that releases it.
  lemma {:induction false} DeliveredStaysPending(w: World, c: Cmd, cmds: seq<Cmd>, id: Id)
    requires StreamOk(w) && c.Read? && !c.noack && c.group in w.groups
    requires id in Ids(Fresh(w.log.entries, w.groups[c.group].lastId, c.count))
    requires NeverReleased(Next(w, c), cmds, c.group, id)
    ensures Pends(Next(w, c), c.group, id) && Pends(Run(Next(w, c), cmds), c.group, id)
  {
    DeliveredPends(w, c, id);
    StepOk(w, c);
    PendingUntilReleased(Next(w, c), cmds, c.group, id);
  }

  lemma {:induction false} GroupReleases(l: Log, g: Group, c: Cmd, r: Pending)
    requires GroupOk(g) && r in g.pel && OnGroup(c)
    ensures r.id !in Ids(Changed(l, g, c).pel) <==>
              || (c.Ack? && r.id in c.ids)
              || (c.DropConsumer? && r.data.consumer == c.consumer)
              || (c.Sweep? && r.id !in Ids(l.entries)
                  && r in g.pel[Before(g.pel, c.start)..Upto(g.pel, c.start, c.most)])
  {
    IdsOf(g.pel);
    match c
    case DropConsumer(_, consumer) =>
      ConsumerDroppedKeeps(g, consumer);
      ConsumerLaw(g.consumers, consumer);
      if consumer in Names(g.consumers) { DroppedIds(g.pel, ConsumerDropped(g, consumer).pel, r); }
    case Read(_, consumer, count, noack, now) => ReadNewKeeps(g, l.entries, consumer, count, noack, now);
    case Reread(_, consumer, after, count, now) => ReadOldKeeps(g, l.entries, consumer, after, count, now);
    case Ack(_, ids) => AckedKeeps(g, ids);
    case Take(_, consumer, ids, o, now) => ClaimKeeps(g, l.entries, ids, consumer, o, now);
    case Sweep(_, consumer, minIdle, start, most, justId, now) =>
      AutoClaimKeeps(g, l.entries, consumer, minIdle, start, most, justId, now);
      var b, e := Before(g.pel, start), Upto(g.pel, start, most);
      SameRecord(g.pel, b, e, r);
    case _ =>
  }

  // Ids identify records.
  lemma {:induction false} DroppedIds(pel: seq<Pending>, kept: seq<Pending>, r: Pending)
    requires Sorted(pel) && r in pel && forall p <- kept :: p in pel
    ensures r.id in Ids(kept) <==> r in kept
  {
    IdsOf(kept);
  }

  lemma {:induction false} SameRecord(pel: seq<Pending>, b: nat, e: nat, r: Pending)
    requires Sorted(pel) && b <= e <= |pel| && r in pel
    ensures r in pel[b..e] <==> r.id in Ids(pel[b..e])
  {
    IdsOf(pel[b..e]);
    forall p | p in pel[b..e] ensures p in pel {}
    DroppedIds(pel, pel[b..e], r);
  }
}
