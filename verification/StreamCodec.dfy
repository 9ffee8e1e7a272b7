/**
 * The stored form of a whole stream: entries, counters, groups, consumers and pending
 * records, all as variable-length integers and length-prefixed strings.
 */
module StreamCodec {
  import opened Options
  import opened Bytes
  import opened Items
  import opened StreamLog
  import opened StreamGroup

  datatype Stored = Stored(log: Log, groups: seq<Group>)

  // ---------------------------------------------------------------- writing

  function PutId(id: Id, tail: Bytes): Bytes { PutUvarint(id.ms) + (PutUvarint(id.sq) + tail) }

  function PutBool(b: bool, tail: Bytes): Bytes { PutUvarint(if b then 1 else 0) + tail }

  function PutEntry(e: Entry, tail: Bytes): Bytes {
    PutId(e.id, PutUvarint(|e.data|) + PutList(e.data, PutString, tail))
  }

  function PutConsumer(c: Consumer, tail: Bytes): Bytes {
    PutString(c.name, PutUvarint(c.seenMs) + PutBool(c.hasActive, PutUvarint(c.activeMs) + tail))
  }

  function PutPending(p: Pending, tail: Bytes): Bytes {
    PutId(p.id, PutString(p.data.consumer, PutUvarint(p.data.ms) + (PutUvarint(p.data.count) + tail)))
  }

  function PutMembers(g: Group, tail: Bytes): Bytes {
    PutUvarint(|g.consumers|)
        + PutList(g.consumers, PutConsumer, PutUvarint(|g.pel|) + PutList(g.pel, PutPending, tail))
  }

  function PutGroup(g: Group, tail: Bytes): Bytes {
    PutString(g.name, PutId(g.lastId, PutBool(g.hasRead, PutUvarint(g.entriesRead) + PutMembers(g, tail))))
  }

  function PutCounters(l: Log, tail: Bytes): Bytes {
    PutId(l.last, PutBool(l.hasLast, PutUvarint(l.added) + PutId(l.maxDeleted, tail)))
  }

  function Encoded(s: Stored): Bytes {
    PutUvarint(|s.log.entries|) +
    PutList(s.log.entries, PutEntry,
            PutCounters(s.log, PutUvarint(|s.groups|) + PutList(s.groups, PutGroup, [])))
  }

  // ---------------------------------------------------------------- reading

  function ReadId(b: Bytes): Parsed<Id> {
    var (ms, b) :- Uvarint(b);
    var (sq, b) :- Uvarint(b);
    Some((Id(ms, sq), b))
  }

  function ReadBool(b: Bytes): Parsed<bool> {
    var (n, b) :- Uvarint(b);
    Some((n != 0, b))
  }

  function ReadEntry(b: Bytes): Parsed<Entry> {
    var (id, b) :- ReadId(b);
    var (n, b) :- Uvarint(b);
    var (fields, b) :- ReadList(n, b, ReadString);
    if |fields| % 2 != 0 then None else Some((Item(id, fields), b))
  }

  function ReadConsumer(b: Bytes): Parsed<Consumer> {
    var (name, b) :- ReadString(b);
    var (seen, b) :- Uvarint(b);
    var (hasActive, b) :- ReadBool(b);
    var (active, b) :- Uvarint(b);
    Some((Consumer(name, seen, active, hasActive), b))
  }

  function ReadPending(b: Bytes): Parsed<Pending> {
    var (id, b) :- ReadId(b);
    var (consumer, b) :- ReadString(b);
    var (ms, b) :- Uvarint(b);
    var (count, b) :- Uvarint(b);
    Some((Item(id, Delivery(consumer, ms, count)), b))
  }

  function ReadGroup(b: Bytes): Parsed<Group> {
    var (name, b) :- ReadString(b);
    var (lastId, b) :- ReadId(b);
    var (hasRead, b) :- ReadBool(b);
    var (read, b) :- Uvarint(b);
    var (nc, b) :- Uvarint(b);
    var (consumers, b) :- ReadList(nc, b, ReadConsumer);
    var (np, b) :- Uvarint(b);
    var (pel, b) :- ReadList(np, b, ReadPending);
    Some((Group(name, lastId, read, hasRead, consumers, pel), b))
  }

  // The two halves of the last id are read without looking for an error: a missing one
  // reads as 0 and consumes nothing.
  function Lenient(b: Bytes): (nat, Bytes) {
    match Uvarint(b)
    case None => (0, b)
    case Some(p) => p
  }

  function ReadCounters(b: Bytes, entries: seq<Entry>): Parsed<Log> {
    var (ms, b) := Lenient(b);
    var (sq, b) := Lenient(b);
    var (hasLast, b) :- ReadBool(b);
    var (added, b) :- Uvarint(b);
    var (maxDeleted, b) :- ReadId(b);
    Some((Log(entries, Id(ms, sq), hasLast, added, maxDeleted), b))
  }

  // Whatever follows the last group is ignored.
  function Decoded(raw: Bytes): Option<Stored> {
    var (n, b) :- Uvarint(raw);
    var (entries, b) :- ReadList(n, b, ReadEntry);
    var (log, b) :- ReadCounters(b, entries);
    var (ng, b) :- Uvarint(b);
    var (groups, _) :- ReadList(ng, b, ReadGroup);
    Some(Stored(log, groups))
  }

  // ---------------------------------------------------------------- the round trip

  predicate WordId(id: Id) { id.ms < WORD && id.sq < WORD }

  predicate StorableEntry(e: Entry) {
    WordId(e.id) && |e.data| < WORD && |e.data| % 2 == 0 && forall f <- e.data :: |f| < WORD
  }

  predicate StorableConsumer(c: Consumer) { |c.name| < WORD && c.seenMs < WORD && c.activeMs < WORD }

  predicate StorablePending(p: Pending) {
    WordId(p.id) && |p.data.consumer| < WORD && p.data.ms < WORD && p.data.count < WORD
  }

  predicate StorableGroup(g: Group) {
    && |g.name| < WORD && WordId(g.lastId) && g.entriesRead < WORD && |g.consumers| < WORD && |g.pel| < WORD
    && (forall c <- g.consumers :: StorableConsumer(c)) && (forall p <- g.pel :: StorablePending(p))
  }

  // Numbers and lengths fit into 64 bits, and every entry has an even number of fields.
  predicate Storable(s: Stored) {
    && |s.log.entries| < WORD && WordId(s.log.last) && s.log.added < WORD && WordId(s.log.maxDeleted)
    && |s.groups| < WORD
    && (forall e <- s.log.entries :: StorableEntry(e)) && (forall g <- s.groups :: StorableGroup(g))
  }

  lemma {:induction false} IdPut(id: Id, tail: Bytes)
    requires WordId(id)
    ensures ReadId(PutId(id, tail)) == Some((id, tail))
  {
    UvarintPut(id.ms, PutUvarint(id.sq) + tail);
    UvarintPut(id.sq, tail);
  }

  lemma {:induction false} BoolPut(b: bool, tail: Bytes)
    ensures ReadBool(PutBool(b, tail)) == Some((b, tail))
  {
    UvarintPut(if b then 1 else 0, tail);
  }

  lemma {:induction false} EntryPut(e: Entry, tail: Bytes)
    requires StorableEntry(e)
    ensures ReadEntry(PutEntry(e, tail)) == Some((e, tail))
  {
    var fields := PutList(e.data, PutString, tail);
    forall f | f in e.data ensures Inverse(PutString, ReadString, f) {
      forall t ensures ReadString(PutString(f, t)) == Some((f, t)) { StringPut(f, t); }
    }
    ListPut(e.data, PutString, ReadString, tail);
    UvarintPut(|e.data|, fields);
    IdPut(e.id, PutUvarint(|e.data|) + fields);
  }

  lemma {:induction false} ConsumerPut(c: Consumer, tail: Bytes)
    requires StorableConsumer(c)
    ensures ReadConsumer(PutConsumer(c, tail)) == Some((c, tail))
  {
    var active := PutUvarint(c.activeMs) + tail;
    UvarintPut(c.activeMs, tail);
    BoolPut(c.hasActive, active);
    UvarintPut(c.seenMs, PutBool(c.hasActive, active));
    StringPut(c.name, PutUvarint(c.seenMs) + PutBool(c.hasActive, active));
  }

  lemma {:induction false} PendingPut(p: Pending, tail: Bytes)
    requires StorablePending(p)
    ensures ReadPending(PutPending(p, tail)) == Some((p, tail))
  {
    var count := PutUvarint(p.data.count) + tail;
    var ms := PutUvarint(p.data.ms) + count;
    UvarintPut(p.data.count, tail);
    UvarintPut(p.data.ms, count);
    StringPut(p.data.consumer, ms);
    IdPut(p.id, PutString(p.data.consumer, ms));
  }

  lemma {:induction false} MembersPut(g: Group, tail: Bytes)
    requires StorableGroup(g)
    ensures var pel := PutUvarint(|g.pel|) + PutList(g.pel, PutPending, tail);
            var consumers := PutList(g.consumers, PutConsumer, pel);
            && Uvarint(PutMembers(g, tail)) == Some((|g.consumers|, consumers))
            && ReadList(|g.consumers|, consumers, ReadConsumer) == Some((g.consumers, pel))
            && Uvarint(pel) == Some((|g.pel|, PutList(g.pel, PutPending, tail)))
            && ReadList(|g.pel|, PutList(g.pel, PutPending, tail), ReadPending) == Some((g.pel, tail))
  {
    var pel := PutUvarint(|g.pel|) + PutList(g.pel, PutPending, tail);
    forall p | p in g.pel ensures Inverse(PutPending, ReadPending, p) {
      forall t ensures ReadPending(PutPending(p, t)) == Some((p, t)) { PendingPut(p, t); }
    }
    forall c | c in g.consumers ensures Inverse(PutConsumer, ReadConsumer, c) {
      forall t ensures ReadConsumer(PutConsumer(c, t)) == Some((c, t)) { ConsumerPut(c, t); }
    }
    ListPut(g.pel, PutPending, ReadPending, tail);
    UvarintPut(|g.pel|, PutList(g.pel, PutPending, tail));
    ListPut(g.consumers, PutConsumer, ReadConsumer, pel);
    UvarintPut(|g.consumers|, PutList(g.consumers, PutConsumer, pel));
  }

  lemma {:induction false} GroupPut(g: Group, tail: Bytes)
    requires StorableGroup(g)
    ensures ReadGroup(PutGroup(g, tail)) == Some((g, tail))
  {
    var read := PutUvarint(g.entriesRead) + PutMembers(g, tail);
    MembersPut(g, tail);
    UvarintPut(g.entriesRead, PutMembers(g, tail));
    BoolPut(g.hasRead, read);
    IdPut(g.lastId, PutBool(g.hasRead, read));
    StringPut(g.name, PutId(g.lastId, PutBool(g.hasRead, read)));
  }

  lemma {:induction false} CountersPut(l: Log, tail: Bytes)
    requires WordId(l.last) && l.added < WORD && WordId(l.maxDeleted)
    ensures ReadCounters(PutCounters(l, tail), l.entries) == Some((l, tail))
  {
    var deleted := PutId(l.maxDeleted, tail);
    var has := PutBool(l.hasLast, PutUvarint(l.added) + deleted);
    IdPut(l.maxDeleted, tail);
    UvarintPut(l.added, deleted);
    BoolPut(l.hasLast, PutUvarint(l.added) + deleted);
    UvarintPut(l.last.sq, has);
    UvarintPut(l.last.ms, PutUvarint(l.last.sq) + has);
  }

  // Whatever a stream holds, reading back what was stored gives the same stream.
  lemma {:induction false} DecodeEncode(s: Stored)
    requires Storable(s)
    ensures Decoded(Encoded(s)) == Some(s)
  {
    var groups := PutList(s.groups, PutGroup, []);
    var counters := PutCounters(s.log, PutUvarint(|s.groups|) + groups);
    forall g | g in s.groups ensures Inverse(PutGroup, ReadGroup, g) {
      forall t ensures ReadGroup(PutGroup(g, t)) == Some((g, t)) { GroupPut(g, t); }
    }
    forall e | e in s.log.entries ensures Inverse(PutEntry, ReadEntry, e) {
      forall t ensures ReadEntry(PutEntry(e, t)) == Some((e, t)) { EntryPut(e, t); }
    }
    ListPut(s.groups, PutGroup, ReadGroup, []);
    UvarintPut(|s.groups|, groups);
    CountersPut(s.log, PutUvarint(|s.groups|) + groups);
    ListPut(s.log.entries, PutEntry, ReadEntry, counters);
    UvarintPut(|s.log.entries|, PutList(s.log.entries, PutEntry, counters));
  }
}
