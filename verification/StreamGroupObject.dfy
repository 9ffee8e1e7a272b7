/**
 * The consumer group as the server changes it in place, loop by loop; every method is
 * proved against the functions of `StreamGroup`.
 */
module StreamGroupObject {
  import opened Options
  import opened Bytes
  import opened Items
  import opened StreamLog
  import opened StreamGroup

  // ---------------------------------------------------------------- loop specifications

  lemma {:induction false} UpsertAllSnoc(pel: seq<Pending>, out: seq<Entry>, e: Entry, d: Delivery)
    ensures UpsertAll(pel, out + [e], d) == Upsert(UpsertAll(pel, out, d), Item(e.id, d))
  {
    assert (out + [e])[..|out|] == out;
  }

  lemma {:induction false} DeliveredIs(g: Group, t: Group, out: seq<Entry>, who: Bytes, noack: bool, now: nat,
                                       pending: seq<Pending>)
    requires out != [] && pending == if noack then g.pel else UpsertAll(g.pel, out, Delivery(who, now, 1))
    requires t == Group(g.name, out[|out| - 1].id, Word(g.entriesRead + |out|), true,
             Marked(g.consumers, who, now, !noack), pending)
    ensures t == Delivered(g, out, who, noack, now)
  {
  }

  // What the read loop has handed out after `i` entries, and where its cursor is.
  function OutAt(entries: seq<Entry>, cursor: Id, i: nat): seq<Entry>
    requires i <= |entries|
  {
    var b := Behind(entries, cursor);
    if i <= b then [] else entries[b..i]
  }

  function CursorAt(entries: seq<Entry>, cursor: Id, i: nat): Id
    requires i <= |entries|
  {
    if i <= Behind(entries, cursor) then cursor else entries[i - 1].id
  }

  // The loop passes over exactly the entries at or behind the cursor it started from.
  lemma {:induction false} ReadStep(entries: seq<Entry>, cursor: Id, i: nat)
    requires Sorted(entries) && i < |entries|
    ensures var skip := AtMost(entries[i].id, CursorAt(entries, cursor, i));
            && OutAt(entries, cursor, i + 1) == OutAt(entries, cursor, i) + (if skip then [] else [entries[i]])
            && CursorAt(entries, cursor, i + 1) == if skip then CursorAt(entries, cursor, i) else entries[i].id
  {
    BehindSplits(entries, cursor);
    var b := Behind(entries, cursor);
    assert i >= b ==> entries[b..i + 1] == entries[b..i] + [entries[i]];
  }

  lemma {:induction false} FreshIs(entries: seq<Entry>, cursor: Id, count: int, i: nat)
    requires Sorted(entries) && i <= |entries| && (count > 0 ==> |OutAt(entries, cursor, i)| <= count)
    requires i == |entries| || (count > 0 && |OutAt(entries, cursor, i)| >= count)
    ensures OutAt(entries, cursor, i) == Fresh(entries, cursor, count)
    ensures CursorAt(entries, cursor, i) == var out := Fresh(entries, cursor, count);
                                            if out == [] then cursor else out[|out| - 1].id
  {
    BehindSplits(entries, cursor);
  }

  // Once `count` records are out, a history read changes nothing more.
  lemma {:induction false} HistoryFull(pel: seq<Pending>, i: nat, n: nat, entries: seq<Entry>, consumer: Bytes,
                                       after: Id, count: int, now: nat)
    requires i <= n <= |pel| && 0 < count <= |History(pel, i, entries, consumer, after, count, now).1|
    ensures var all, some := History(pel, n, entries, consumer, after, count, now),
            History(pel, i, entries, consumer, after, count, now);
            all.0 == some.0 + pel[i..n] && all.1 == some.1
    decreases n - i
  {
    if i < n {
      HistoryFull(pel, i, n - 1, entries, consumer, after, count, now);
      assert pel[i..n] == pel[i..n - 1] + [pel[n - 1]];
    }
  }

  // Moving the border between treated and untreated records past one record.
  lemma {:induction false} BorderMoves(was: seq<Pending>, done: seq<Pending>, i: nat, q: Pending)
    requires |done| == i < |was|
    ensures (done + was[i..])[i] == was[i] && (done + was[i..])[i := q] == (done + [q]) + was[i + 1..]
    ensures q == was[i] ==> done + was[i..] == (done + [q]) + was[i + 1..]
  {
  }

  // A history read at record `i`: it passes the record over, or hands it out and bumps it.
  lemma {:induction false} AtBorder(was: seq<Pending>, i: nat, entries: seq<Entry>, who: Bytes, after: Id, count: int,
                                    now: nat)
    requires i < |was|
    ensures var h, next := History(was, i, entries, who, after, count, now),
            History(was, i + 1, entries, who, after, count, now);
            var pel, p := h.0 + was[i..], was[i];
            && |pel| == |was| && pel[i] == p
            && (if Mine(p, entries, who, after) && !(0 < count <= |h.1|)
                then next.0 + was[i + 1..] == pel[i := Redelivered(p, now)] && next.1 == h.1 + [p.id]
                else next.0 + was[i + 1..] == pel && next.1 == h.1)
  {
    var done := History(was, i, entries, who, after, count, now).0;
    BorderMoves(was, done, i, was[i]);
    BorderMoves(was, done, i, Redelivered(was[i], now));
  }

  // A record as the sweep leaves it in the list, before orphans are taken out.
  function InPlace(p: Pending, entries: seq<Entry>, consumer: Bytes, minIdle: int, justId: bool, now: nat): (q: Pending)
    ensures q.id == p.id
  {
    var q := Swept(p, entries, consumer, minIdle, justId, now);
    if q.Some? then q.value else p
  }

  function InPlaceAll(ps: seq<Pending>, entries: seq<Entry>, consumer: Bytes, minIdle: int, justId: bool,
                      now: nat): (r: seq<Pending>)
    ensures |r| == |ps|
  {
    seq(|ps|, k requires 0 <= k < |ps| => InPlace(ps[k], entries, consumer, minIdle, justId, now))
  }

  function Kept(pel: seq<Pending>, orphans: set<Id>): seq<Pending> {
    if pel == [] then []
    else Kept(pel[..|pel| - 1], orphans) + if pel[|pel| - 1].id in orphans then [] else [pel[|pel| - 1]]
  }

  lemma {:induction false} KeptConcat(s: seq<Pending>, t: seq<Pending>, orphans: set<Id>)
    ensures Kept(s + t, orphans) == Kept(s, orphans) + Kept(t, orphans)
  {
    if t == [] {
      assert s + t == s;
    } else {
      assert (s + t)[..|s + t| - 1] == s + t[..|t| - 1];
      KeptConcat(s, t[..|t| - 1], orphans);
    }
  }

  lemma {:induction false} KeptAll(s: seq<Pending>, orphans: set<Id>)
    requires Ids(s) !! orphans
    ensures Kept(s, orphans) == s
  {
    if s != [] {
      var init := s[..|s| - 1];
      assert Ids(init) <= Ids(s);
      assert s[|s| - 1].id in Ids(s);
      KeptAll(init, orphans);
    }
  }

  lemma {:induction false} KeptSwept(ps: seq<Pending>, orphans: set<Id>, entries: seq<Entry>, consumer: Bytes,
                                     minIdle: int, justId: bool, now: nat)
    requires forall k | 0 <= k < |ps| :: ps[k].id in orphans <==> ps[k].id !in Ids(entries)
    ensures Kept(InPlaceAll(ps, entries, consumer, minIdle, justId, now), orphans)
            == SweepAll(ps, entries, consumer, minIdle, justId, now)
  {
    if ps != [] {
      var init := ps[..|ps| - 1];
      KeptSwept(init, orphans, entries, consumer, minIdle, justId, now);
      var all := InPlaceAll(ps, entries, consumer, minIdle, justId, now);
      assert all[..|all| - 1] == InPlaceAll(init, entries, consumer, minIdle, justId, now);
    }
  }

  predicate Taken(p: Pending, entries: seq<Entry>, minIdle: int, now: nat) {
    p.id in Ids(entries) && IdleEnough(p.data, minIdle, now)
  }

  lemma {:induction false} TakenSnoc(ps: seq<Pending>, b: nat, i: nat, entries: seq<Entry>, minIdle: int, now: nat)
    requires b <= i < |ps|
    ensures TakenIds(ps[b..i + 1], entries, minIdle, now)
            == TakenIds(ps[b..i], entries, minIdle, now)
               + if Taken(ps[i], entries, minIdle, now) then [ps[i].id] else []
  {
    assert ps[b..i + 1][..i - b] == ps[b..i];
  }

  // The ids of the visited records whose entry is gone.
  function OrphansOf(ps: seq<Pending>, entries: seq<Entry>): set<Id> {
    Ids(ps) - Ids(entries)
  }

  // What the visiting loop has in hand.
  datatype Sweeping = Sweeping(pel: seq<Pending>, consumers: seq<Consumer>, orphans: set<Id>, last: Option<Id>)

  function SweepAt(st: Sweeping, i: nat, entries: seq<Entry>, who: Bytes, minIdle: int, justId: bool,
                   now: nat): (r: Sweeping)
    requires i < |st.pel|
    ensures |r.pel| == |st.pel|
  {
    var p := st.pel[i];
    Sweeping(st.pel[i := InPlace(p, entries, who, minIdle, justId, now)],
             if Taken(p, entries, minIdle, now) then Marked(st.consumers, who, now, true) else st.consumers,
             if p.id in Ids(entries) then st.orphans else st.orphans + {p.id},
             Some(p.id))
  }

  // Visiting the records from `i` up to `e`.
  function SweepRun(st: Sweeping, i: nat, e: nat, entries: seq<Entry>, who: Bytes, minIdle: int, justId: bool,
                    now: nat): (r: Sweeping)
    requires i <= e <= |st.pel|
    ensures |r.pel| == |st.pel|
    decreases e - i
  {
    if i == e then st
    else SweepRun(SweepAt(st, i, entries, who, minIdle, justId, now), i + 1, e, entries, who, minIdle, justId, now)
  }

  lemma {:induction false} Replaced(pel: seq<Pending>, i: nat, e: nat, q: Pending, rest: seq<Pending>)
    requires i < e <= |pel|
    ensures pel[i := q][..i + 1] + rest + pel[i := q][e..] == pel[..i] + ([q] + rest) + pel[e..]
  {
  }

  lemma {:induction false} SweepRunPel(st: Sweeping, i: nat, e: nat, entries: seq<Entry>, who: Bytes, minIdle: int,
                                       justId: bool, now: nat)
    requires i <= e <= |st.pel|
    ensures SweepRun(st, i, e, entries, who, minIdle, justId, now).pel
            == st.pel[..i] + InPlaceAll(st.pel[i..e], entries, who, minIdle, justId, now) + st.pel[e..]
    decreases e - i
  {
    if i < e {
      var next := SweepAt(st, i, entries, who, minIdle, justId, now);
      SweepRunPel(next, i + 1, e, entries, who, minIdle, justId, now);
      var q, rest := next.pel[i], InPlaceAll(st.pel[i + 1..e], entries, who, minIdle, justId, now);
      assert next.pel[i + 1..e] == st.pel[i + 1..e];
      assert InPlaceAll(st.pel[i..e], entries, who, minIdle, justId, now) == [q] + rest;
      Replaced(st.pel, i, e, q, rest);
    } else {
      assert st.pel == st.pel[..i] + [] + st.pel[e..];
    }
  }

  lemma {:induction false} AnyClaimedHead(ps: seq<Pending>, i: nat, e: nat, entries: seq<Entry>, minIdle: int, now: nat)
    requires i < e <= |ps|
    ensures AnyClaimed(ps[i..e], entries, minIdle, now) <==>
              Taken(ps[i], entries, minIdle, now) || AnyClaimed(ps[i + 1..e], entries, minIdle, now)
  {
    var all, rest := ps[i..e], ps[i + 1..e];
    assert all[0] == ps[i];
    if AnyClaimed(rest, entries, minIdle, now) {
      var k :| 0 <= k < |rest| && rest[k].id in Ids(entries) && IdleEnough(rest[k].data, minIdle, now);
      assert all[k + 1] == rest[k];
    }
    if AnyClaimed(all, entries, minIdle, now) {
      var k :| 0 <= k < |all| && all[k].id in Ids(entries) && IdleEnough(all[k].data, minIdle, now);
      if k > 0 { assert rest[k - 1] == all[k]; }
    }
  }

  lemma {:induction false} SweepRunConsumers(st: Sweeping, i: nat, e: nat, entries: seq<Entry>, who: Bytes,
                                             minIdle: int, justId: bool, now: nat)
    requires i <= e <= |st.pel|
    ensures SweepRun(st, i, e, entries, who, minIdle, justId, now).consumers
            == if AnyClaimed(st.pel[i..e], entries, minIdle, now) then Marked(st.consumers, who, now, true)
                else st.consumers
    decreases e - i
  {
    if i < e {
      var next := SweepAt(st, i, entries, who, minIdle, justId, now);
      SweepRunConsumers(next, i + 1, e, entries, who, minIdle, justId, now);
      assert next.pel[i + 1..e] == st.pel[i + 1..e];
      AnyClaimedHead(st.pel, i, e, entries, minIdle, now);
      MarkedAgain(st.consumers, who, now);
    }
  }

  lemma {:induction false} OrphansHead(ps: seq<Pending>, i: nat, e: nat, entries: seq<Entry>)
    requires i < e <= |ps|
    ensures OrphansOf(ps[i..e], entries) == OrphansOf(ps[i + 1..e], entries) + ({ps[i].id} - Ids(entries))
  {
    assert [ps[i]] + ps[i + 1..e] == ps[i..e];
    IdsConcat([ps[i]], ps[i + 1..e]);
    assert Ids([ps[i]]) == {ps[i].id};
  }

  lemma {:induction false} SweepRunOrphans(st: Sweeping, i: nat, e: nat, entries: seq<Entry>, who: Bytes,
                                           minIdle: int, justId: bool, now: nat)
    requires i <= e <= |st.pel|
    ensures SweepRun(st, i, e, entries, who, minIdle, justId, now).orphans
            == OrphansOf(st.pel[i..e], entries) + st.orphans
    decreases e - i
  {
    if i < e {
      var next := SweepAt(st, i, entries, who, minIdle, justId, now);
      SweepRunOrphans(next, i + 1, e, entries, who, minIdle, justId, now);
      assert next.pel[i + 1..e] == st.pel[i + 1..e];
      OrphansHead(st.pel, i, e, entries);
    } else {
      assert st.pel[i..e] == [];
    }
  }

  lemma {:induction false} SweepRunLast(st: Sweeping, i: nat, e: nat, entries: seq<Entry>, who: Bytes, minIdle: int,
                                        justId: bool, now: nat)
    requires i <= e <= |st.pel|
    ensures SweepRun(st, i, e, entries, who, minIdle, justId, now).last == if i == e then st.last
            else Some(st.pel[e - 1].id)
    decreases e - i
  {
    if i < e {
      SweepRunLast(SweepAt(st, i, entries, who, minIdle, justId, now), i + 1, e, entries, who, minIdle, justId, now);
    }
  }

  // Taking the orphans out of the treated list gives the sweep's result.
  lemma {:induction false} SweepIs(was: seq<Pending>, b: nat, e: nat, entries: seq<Entry>, consumer: Bytes,
                                   minIdle: int, justId: bool, now: nat)
    requires Sorted(was) && b <= e <= |was|
    ensures Kept(was[..b] + InPlaceAll(was[b..e], entries, consumer, minIdle, justId, now) + was[e..],
            OrphansOf(was[b..e], entries))
            == was[..b] + SweepAll(was[b..e], entries, consumer, minIdle, justId, now) + was[e..]
  {
    var first, seen, rest := was[..b], was[b..e], was[e..];
    var orphans := OrphansOf(seen, entries);
    var mid := InPlaceAll(seen, entries, consumer, minIdle, justId, now);
    assert was == first + (seen + rest) && was == (first + seen) + rest;
    IdsApart(first, seen + rest);
    IdsApart(first + seen, rest);
    IdsConcat(seen, rest);
    IdsConcat(first, seen);
    KeptConcat(first + mid, rest, orphans);
    KeptConcat(first, mid, orphans);
    KeptAll(first, orphans);
    KeptAll(rest, orphans);
    KeptSwept(seen, orphans, entries, consumer, minIdle, justId, now);
  }

  // The first record kept past the last visited one is the first one not visited.
  lemma {:induction false} CursorIs(was: seq<Pending>, b: nat, e: nat, mid: seq<Pending>)
    requires Sorted(was) && b < e <= |was| && Sorted(mid) && Ids(mid) <= Ids(was[b..e])
    ensures var kept := was[..b] + mid + was[e..];
            Behind(kept, was[e - 1].id) == b + |mid|
  {
    var kept, seen, last := was[..b] + mid + was[e..], was[b..e], was[e - 1].id;
    MiddleSorted(was, b, e, mid);
    BehindSplits(kept, last);
    forall k | 0 <= k < b + |mid| ensures AtMost(kept[k].id, last) {
      if k >= b {
        assert mid[k - b].id in Ids(seen);
        var j :| 0 <= j < |seen| && seen[j].id == mid[k - b].id;
        assert was[b + j] == seen[j];
      }
    }
    var n := b + |mid|;
    if e < |was| { assert kept[n] == was[e] && !AtMost(kept[n].id, last); }
    if n > 0 { assert AtMost(kept[n - 1].id, last); }
  }

  lemma {:induction false} CursorAfter(was: seq<Pending>, start: Id, count: nat, mid: seq<Pending>,
                    entries: seq<Entry>, who: Bytes, minIdle: int, justId: bool, now: nat)
    requires Sorted(was)
    requires mid == SweepAll(was[Before(was, start)..Upto(was, start, count)], entries, who, minIdle, justId, now)
    ensures var b, e := Before(was, start), Upto(was, start, count);
            var kept := was[..b] + mid + was[e..];
            && OrphansOf(was[b..e], entries) == Ids(was) - Ids(kept)
            && (b < e ==> Behind(kept, was[e - 1].id) == b + |mid|)
            && (e < |was| ==> kept[b + |mid|] == was[e]) && |kept| == b + |mid| + |was| - e
  {
    var b, e := Before(was, start), Upto(was, start, count);
    SweepAllLaw(was[b..e], entries, who, minIdle, justId, now);
    MiddleIds(was, b, e, mid);
    assert Ids(was[b..e]) <= Ids(was) by { assert forall k | b <= k < e :: was[b..e][k - b] == was[k]; }
    if b < e { CursorIs(was, b, e, mid); }
  }

  // Where the sweep goes on, given the records kept and the last one visited.
  function NextOf(pel: seq<Pending>, last: Option<Id>): Id {
    if last.None? then MIN_ID else
    var n := Behind(pel, last.value);
    if n == |pel| || pel[n].id == MAX_ID then MIN_ID else pel[n].id
  }

  function Visiting(g: Group, start: Id, count: nat, entries: seq<Entry>, who: Bytes, minIdle: int, justId: bool,
                    now: nat): Sweeping
  {
    SweepRun(Sweeping(g.pel, g.consumers, {}, None), Before(g.pel, start), Upto(g.pel, start, count), entries, who,
        minIdle, justId, now)
  }

  // The next record is the first one not visited, at its new place.
  lemma {:induction false} NextIs(was: seq<Pending>, kept: seq<Pending>, b: nat, e: nat, n: nat, last: Option<Id>)
    requires b <= e <= |was| && n <= |kept| && last == if b == e then None else Some(was[e - 1].id)
    requires b < e ==> Behind(kept, was[e - 1].id) == n
    requires |kept| == n + |was| - e && (e < |was| ==> kept[n] == was[e])
    ensures NextOf(kept, last) == if b == e || e == |was| || was[e].id == MAX_ID then MIN_ID else was[e].id
  {
  }

  // Visiting and then taking out the orphans is the sweep.
  lemma {:induction false} VisitingIsAutoClaim(g: Group, start: Id, count: nat, entries: seq<Entry>, who: Bytes,
                                               minIdle: int, justId: bool, now: nat)
    requires Sorted(g.pel)
    ensures var v := Visiting(g, start, count, entries, who, minIdle, justId, now);
            AutoClaim(g, entries, who, minIdle, start, count, justId, now)
            == g.(consumers := v.consumers, pel := Kept(v.pel, v.orphans))
  {
    var st := Sweeping(g.pel, g.consumers, {}, None);
    var b, e := Before(g.pel, start), Upto(g.pel, start, count);
    SweepRunPel(st, b, e, entries, who, minIdle, justId, now);
    SweepRunConsumers(st, b, e, entries, who, minIdle, justId, now);
    SweepRunOrphans(st, b, e, entries, who, minIdle, justId, now);
    SweepIs(g.pel, b, e, entries, who, minIdle, justId, now);
    assert OrphansOf(g.pel[b..e], entries) + {} == OrphansOf(g.pel[b..e], entries);
  }

  lemma {:induction false} VisitingCursor(g: Group, start: Id, count: nat, entries: seq<Entry>, who: Bytes,
                                          minIdle: int, justId: bool, now: nat)
    requires Sorted(g.pel)
    ensures var v := Visiting(g, start, count, entries, who, minIdle, justId, now);
            var kept := AutoClaim(g, entries, who, minIdle, start, count, justId, now).pel;
            NextOf(kept, v.last) == Cursor(g.pel, start, count) && v.orphans == Ids(g.pel) - Ids(kept)
  {
    var st := Sweeping(g.pel, g.consumers, {}, None);
    var b, e := Before(g.pel, start), Upto(g.pel, start, count);
    SweepRunOrphans(st, b, e, entries, who, minIdle, justId, now);
    SweepRunLast(st, b, e, entries, who, minIdle, justId, now);
    assert OrphansOf(g.pel[b..e], entries) + {} == OrphansOf(g.pel[b..e], entries);
    var mid := SweepAll(g.pel[b..e], entries, who, minIdle, justId, now);
    CursorAfter(g.pel, start, count, mid, entries, who, minIdle, justId, now);
    NextIs(g.pel, g.pel[..b] + mid + g.pel[e..], b, e, b + |mid|,
        Visiting(g, start, count, entries, who, minIdle, justId, now).last);
  }

  // Marking the claiming consumer again at the same time changes nothing.
  lemma {:induction false} MarkedAgain(cs: seq<Consumer>, name: Bytes, now: nat)
    ensures Marked(Marked(cs, name, now, true), name, now, true) == Marked(cs, name, now, true)
  {
    var all := Ensured(cs, name, now);
    var i := ConsumerIndex(all, name);
    var once := Marked(cs, name, now, true);
    ConsumerLaw(cs, name);
    ConsumerLaw(all, name);
    ConsumerLaw(once, name);
    assert |all| > |cs| ==> all[|cs|].name == name;
    assert forall k | 0 <= k < |all| :: once[k].name == all[k].name;
    assert ConsumerIndex(once, name) == i;
    assert Ensured(once, name, now) == once;
  }

  lemma {:induction false} ClaimSnoc(g: Group, entries: seq<Entry>, ids: seq<Id>, k: nat, who: Bytes, o: ClaimOptions,
                                     now: nat)
    requires k < |ids|
    ensures Claim(g, entries, ids[..k + 1], who, o, now)
            == ClaimOne(Claim(g, entries, ids[..k], who, o, now), entries, ids[k], who, o, now)
    ensures ClaimFails(g, entries, ids[..k + 1], who, o, now) <==>
              || ClaimFails(g, entries, ids[..k], who, o, now)
              || (!o.justId && ids[k] !in Ids(entries)
                  && Claimable(Claim(g, entries, ids[..k], who, o, now), entries, ids[k], who, o, now).Some?)
  {
    var some, more := ids[..k], ids[..k + 1];
    assert more[..k] == some;
    forall j | 0 <= j < k ensures more[j] == some[j] && more[..j] == some[..j] {}
  }

  lemma {:induction false} ClaimedSnoc(g: Group, entries: seq<Entry>, ids: seq<Id>, k: nat, who: Bytes,
                                       o: ClaimOptions, now: nat)
    requires k < |ids|
    ensures ClaimedIds(g, entries, ids[..k + 1], who, o, now) == ClaimedIds(g, entries, ids[..k], who, o, now)
              + if Claimable(Claim(g, entries, ids[..k], who, o, now), entries, ids[k], who, o, now).Some?
                  then [ids[k]] else []
  {
    assert ids[..k + 1][..k] == ids[..k];
  }

  lemma {:induction false} ClaimFailsLater(g: Group, entries: seq<Entry>, ids: seq<Id>, k: nat, who: Bytes,
                                           o: ClaimOptions, now: nat)
    requires k <= |ids| && ClaimFails(g, entries, ids[..k], who, o, now)
    ensures ClaimFails(g, entries, ids, who, o, now)
  {
    var some := ids[..k];
    var j :| 0 <= j < |some| && !o.justId && some[j] !in Ids(entries)
             && Claimable(Claim(g, entries, some[..j], who, o, now), entries, some[j], who, o, now).Some?;
    assert ids[j] == some[j] && ids[..j] == some[..j];
  }

  // ---------------------------------------------------------------- the object

  class GroupObject {
    const name: Bytes
    var lastId: Id
    var entriesRead: nat
    var hasRead: bool
    var consumers: seq<Consumer>
    var pel: seq<Pending>

    function Value(): Group
      reads this
    {
      Group(name, lastId, entriesRead, hasRead, consumers, pel)
    }

    constructor (g: Group)
      ensures Value() == g
    {
      name, lastId, entriesRead, hasRead, consumers, pel :=
        g.name, g.lastId, g.entriesRead, g.hasRead, g.consumers, g.pel;
    }

    method EnsureConsumer(who: Bytes, now: nat) returns (i: nat)
      modifies this`consumers
      ensures consumers == Ensured(old(consumers), who, now)
      ensures i < |consumers| && i == ConsumerIndex(consumers, who)
    {
      ConsumerLaw(consumers, who);
      i := 0;
      while i < |consumers| && consumers[i].name != who
        invariant 0 <= i <= |consumers| && forall k | 0 <= k < i :: consumers[k].name != who
      {
        i := i + 1;
      }
      if i == |consumers| {
        consumers := consumers + [Consumer(who, now, 0, false)];
        ConsumerLaw(consumers, who);
        assert consumers[i].name == who;
      }
    }

    // The consumer is seen now, and active if it was handed records.
    method Touch(who: Bytes, now: nat, active: bool)
      modifies this`consumers
      ensures consumers == Marked(old(consumers), who, now, active)
    {
      var i := EnsureConsumer(who, now);
      var c := consumers[i].(seenMs := now);
      if active {
        c := c.(activeMs := now, hasActive := true);
      }
      consumers := consumers[i := c];
    }

    method FindPel(id: Id) returns (i: int)
      ensures i == Position(pel, id)
    {
      PositionLaw(pel, id);
      var k := 0;
      while k < |pel|
        invariant 0 <= k <= |pel| && forall j | 0 <= j < k :: pel[j].id != id
      {
        if pel[k].id == id {
          return k;
        }
        k := k + 1;
      }
      return -1;
    }

    method UpsertPel(p: Pending)
      requires Sorted(pel)
      modifies this`pel
      ensures pel == Upsert(old(pel), p) && Sorted(pel)
    {
      var i := 0;
      while i < |pel| && Less(pel[i].id, p.id)
        invariant 0 <= i <= |pel| && forall k | 0 <= k < i :: Less(pel[k].id, p.id)
      {
        i := i + 1;
      }
      UpsertAt(pel, p, i);
      if i < |pel| && pel[i].id == p.id {
        pel := pel[i := p];
      } else {
        pel := pel[..i] + [p] + pel[i..];
      }
    }

    method DelPel(id: Id) returns (hit: bool)
      modifies this`pel
      ensures pel == Drop(old(pel), id) && hit == (id in Ids(old(pel)))
      ensures |pel| == |old(pel)| - if hit then 1 else 0
    {
      var i := FindPel(id);
      PositionLaw(pel, id);
      if i < 0 {
        return false;
      }
      pel := pel[..i] + pel[i + 1..];
      return true;
    }

    // XACK: the reply counts the records that went away.
    method Ack(ids: seq<Id>) returns (n: nat)
      modifies this`pel
      ensures Value() == Acked(old(Value()), ids) && n + |pel| == |old(pel)|
    {
      n := 0;
      for k := 0 to |ids|
        invariant pel == DropAll(old(pel), ids[..k]) && n + |pel| == |old(pel)|
      {
        assert ids[..k + 1][..k] == ids[..k];
        var hit := DelPel(ids[k]);
        if hit {
          n := n + 1;
        }
      }
      assert ids[..|ids|] == ids;
    }

    // One delivery of a ">" read.
    method DeliverOne(id: Id, d: Delivery, noack: bool)
      requires Sorted(pel)
      modifies this`lastId, this`pel
      ensures lastId == id && Sorted(pel) && pel == if noack then old(pel) else Upsert(old(pel), Item(id, d))
    {
      lastId := id;
      if !noack {
        UpsertPel(Item(id, d));
      }
    }

    // The delivery loop of a ">" read.
    method DeliverNew(entries: seq<Entry>, d: Delivery, count: int, noack: bool) returns (out: seq<Entry>)
      requires Sorted(entries) && Sorted(pel)
      modifies this`lastId, this`pel
      ensures out == Fresh(entries, old(lastId), count)
      ensures lastId == if out == [] then old(lastId) else out[|out| - 1].id
      ensures pel == if noack then old(pel) else UpsertAll(old(pel), out, d)
    {
      out := [];
      var i := 0;
      while i < |entries|
        invariant 0 <= i <= |entries| && Sorted(pel) && (count > 0 ==> |out| <= count)
        invariant out == OutAt(entries, old(lastId), i) && lastId == CursorAt(entries, old(lastId), i)
        invariant pel == if noack then old(pel) else UpsertAll(old(pel), out, d)
      {
        var e := entries[i];
        ReadStep(entries, old(lastId), i);
        if AtMost(e.id, lastId) {
          i := i + 1;
          continue;
        }
        if count > 0 && |out| >= count {
          break;
        }
        UpsertAllSnoc(old(pel), out, e, d);
        out := out + [e];
        DeliverOne(e.id, d, noack);
        i := i + 1;
      }
      FreshIs(entries, old(lastId), count, i);
    }

    // XREADGROUP with ">": a read that hands out nothing is not stored.
    method ReadGroupNew(entries: seq<Entry>, who: Bytes, count: int, noack: bool, now: nat) returns (out: seq<Entry>)
      requires Sorted(entries) && Sorted(pel)
      modifies this
      ensures out == Fresh(entries, old(lastId), count)
      ensures out != [] ==> Value() == ReadNew(old(Value()), entries, who, count, noack, now)
    {
      ghost var g := Value();
      out := DeliverNew(entries, Delivery(who, now, 1), count, noack);
      AfterRead(|out|, who, noack, now);
      if out != [] { DeliveredIs(g, Value(), out, who, noack, now, pel); }
    }

    // The consumer was seen, and active if it now holds records; entries count as read.
    method AfterRead(n: nat, who: Bytes, noack: bool, now: nat)
      modifies this`consumers, this`entriesRead, this`hasRead
      ensures consumers == Marked(old(consumers), who, now, !noack && n > 0)
      ensures entriesRead == (if n > 0 then Word(old(entriesRead) + n) else old(entriesRead))
      ensures hasRead == (old(hasRead) || n > 0)
    {
      Touch(who, now, !noack && n > 0);
      if n > 0 {
        entriesRead := Word(entriesRead + n);
        hasRead := true;
      }
    }

    // The delivery loop of a history read.
    method Redeliver(entries: seq<Entry>, who: Bytes, after: Id, count: int, now: nat) returns (out: seq<Id>)
      modifies this`pel
      ensures pel == History(old(pel), |old(pel)|, entries, who, after, count, now).0
      ensures out == History(old(pel), |old(pel)|, entries, who, after, count, now).1
    {
      out := [];
      var i := 0;
      ghost var was := pel;
      while i < |pel|
        invariant 0 <= i <= |was| && pel == History(was, i, entries, who, after, count, now).0 + was[i..]
        invariant out == History(was, i, entries, who, after, count, now).1
      {
        var p := pel[i];
        AtBorder(was, i, entries, who, after, count, now);
        if p.data.consumer != who || AtMost(p.id, after) || p.id !in Ids(entries) {
          i := i + 1;
          continue;
        }
        if count > 0 && |out| >= count {
          HistoryFull(was, i, |was|, entries, who, after, count, now);
          assert was[i..|was|] == was[i..];
          return;
        }
        pel := pel[i := Redelivered(p, now)];
        out := out + [p.id];
        i := i + 1;
      }
      assert was[|was|..] == [];
    }

    // XREADGROUP with an explicit id.
    method ReadGroupHistory(entries: seq<Entry>, who: Bytes, after: Id, count: int, now: nat) returns (out: seq<Id>)
      modifies this
      ensures out == History(old(pel), |old(pel)|, entries, who, after, count, now).1
      ensures Value() == ReadOld(old(Value()), entries, who, after, count, now)
    {
      out := Redeliver(entries, who, after, count, now);
      Touch(who, now, out != []);
    }

    // XGROUP DELCONSUMER: the reply counts the records dropped with the consumer.
    method DelConsumer(who: Bytes) returns (dropped: nat)
      modifies this
      ensures Value() == ConsumerDropped(old(Value()), who) && dropped + |pel| == |old(pel)|
    {
      ConsumerLaw(consumers, who);
      var i := 0;
      while i < |consumers| && consumers[i].name != who
        invariant 0 <= i <= |consumers| && forall k | 0 <= k < i :: consumers[k].name != who
      {
        i := i + 1;
      }
      if i == |consumers| {
        return 0;
      }
      consumers := consumers[..i] + consumers[i + 1..];
      dropped := 0;
      var kept: seq<Pending> := [];
      for k := 0 to |pel|
        invariant kept == NotOwned(pel[..k], who) && dropped + |kept| == k
      {
        assert pel[..k + 1][..k] == pel[..k];
        if pel[k].data.consumer == who {
          dropped := dropped + 1;
        } else {
          kept := kept + [pel[k]];
        }
      }
      assert pel[..|pel|] == pel;
      pel := kept;
    }

    // One id of XCLAIM: `hit` when the record was taken over.
    method ClaimStep(entries: seq<Entry>, id: Id, who: Bytes, o: ClaimOptions, now: nat) returns (hit: bool)
      requires GroupOk(Value())
      modifies this
      ensures GroupOk(Value()) && Value() == ClaimOne(old(Value()), entries, id, who, o, now)
      ensures hit == Claimable(old(Value()), entries, id, who, o, now).Some?
    {
      ClaimOneKeeps(Value(), entries, id, who, o, now);
      var i := FindPel(id);
      var d, created := Delivery(who, now, 1), false;
      if i < 0 {
        if !o.force || id !in Ids(entries) {
          return false;
        }
        created := true;
      } else {
        d := pel[i].data;
        if !IdleEnough(d, o.minIdle, now) {
          return false;
        }
      }
      Touch(who, now, true);
      UpsertPel(Item(id, ClaimedRecord(d, created, who, o, now)));
      return true;
    }

    method XClaim(entries: seq<Entry>, ids: seq<Id>, who: Bytes, o: ClaimOptions, now: nat)
      returns (failed: bool, claimed: seq<Id>)
      requires GroupOk(Value())
      modifies this
      ensures failed == ClaimFails(old(Value()), entries, ids, who, o, now)
      ensures !failed ==> GroupOk(Value()) && Value() == Claim(old(Value()), entries, ids, who, o, now)
      ensures !failed ==> claimed == ClaimedIds(old(Value()), entries, ids, who, o, now)
    {
      claimed := [];
      for k := 0 to |ids|
        invariant GroupOk(Value()) && Value() == Claim(old(Value()), entries, ids[..k], who, o, now)
        invariant !ClaimFails(old(Value()), entries, ids[..k], who, o, now)
        invariant claimed == ClaimedIds(old(Value()), entries, ids[..k], who, o, now)
      {
        ClaimSnoc(old(Value()), entries, ids, k, who, o, now);
        ClaimedSnoc(old(Value()), entries, ids, k, who, o, now);
        var hit := ClaimStep(entries, ids[k], who, o, now);
        if hit {
          if !o.justId && ids[k] !in Ids(entries) {
            ClaimFailsLater(old(Value()), entries, ids, k + 1, who, o, now);
            return true, [];
          }
          claimed := claimed + [ids[k]];
        }
      }
      assert ids[..|ids|] == ids;
      return false, claimed;
    }

    // The sweep at one record; `gone` when its entry no longer exists.
    method TakeOver(i: nat, entries: seq<Entry>, who: Bytes, minIdle: int, justId: bool, now: nat) returns (gone: bool)
      requires i < |pel|
      modifies this`pel, this`consumers
      ensures gone == (old(pel)[i].id !in Ids(entries))
      ensures pel == old(pel)[i := InPlace(old(pel)[i], entries, who, minIdle, justId, now)]
      ensures consumers == if Taken(old(pel)[i], entries, minIdle, now) then Marked(old(consumers), who, now, true)
              else old(consumers)
    {
      var p := pel[i];
      if p.id !in Ids(entries) {
        return true;
      }
      if !IdleEnough(p.data, minIdle, now) {
        return false;
      }
      Touch(who, now, true);
      if justId {
        pel := pel[i := Item(p.id, p.data.(consumer := who))];
      } else {
        pel := pel[i := Item(p.id, Delivery(who, now, Word(p.data.count + 1)))];
      }
      return false;
    }

    // The visiting loop of XAUTOCLAIM: records are taken over in place.
    method VisitRecords(entries: seq<Entry>, who: Bytes, minIdle: int, start: Id, count: nat, justId: bool, now: nat)
      returns (orphans: set<Id>, last: Option<Id>)
      requires Sorted(pel)
      modifies this`pel, this`consumers
      ensures Sweeping(pel, consumers, orphans, last)
              == Visiting(old(Value()), start, count, entries, who, minIdle, justId, now)
    {
      ghost var e := Upto(pel, start, count);
      orphans, last := {}, None;
      var i, visited := 0, 0;
      while i < |pel| && Less(pel[i].id, start)
        invariant 0 <= i <= Before(pel, start)
      {
        i := i + 1;
      }
      assert i == Before(pel, start);
      ghost var b, end := i,
          SweepRun(Sweeping(pel, consumers, orphans, last), i, e, entries, who, minIdle, justId, now);
      while i < |pel| && visited < count
        invariant b <= i <= e <= |pel| && visited == i - b && |pel| == |old(pel)|
        invariant SweepRun(Sweeping(pel, consumers, orphans, last), i, e, entries, who, minIdle, justId, now) == end
      {
        var id := pel[i].id;
        visited := visited + 1;
        last := Some(id);
        var gone := TakeOver(i, entries, who, minIdle, justId, now);
        if gone {
          orphans := orphans + {id};
        }
        i := i + 1;
      }
    }

    // The claimed part of the reply: the visited records that the loop above takes over.
    method TakenReply(entries: seq<Entry>, minIdle: int, start: Id, count: nat, now: nat) returns (claimed: seq<Id>)
      ensures claimed == TakenIds(pel[Before(pel, start)..Upto(pel, start, count)], entries, minIdle, now)
    {
      var i := FirstFrom(start);
      claimed := [];
      var b := i;
      while i < |pel| && i - b < count
        invariant b <= i <= Upto(pel, start, count) && claimed == TakenIds(pel[b..i], entries, minIdle, now)
      {
        TakenSnoc(pel, b, i, entries, minIdle, now);
        if pel[i].id in Ids(entries) && IdleEnough(pel[i].data, minIdle, now) {
          claimed := claimed + [pel[i].id];
        }
        i := i + 1;
      }
    }

    // The index of the first record at or after `start`.
    method FirstFrom(start: Id) returns (i: nat)
      ensures i == Before(pel, start)
    {
      i := 0;
      while i < |pel| && Less(pel[i].id, start)
        invariant 0 <= i <= Before(pel, start)
      {
        i := i + 1;
      }
    }

    method TakeOut(orphans: set<Id>)
      modifies this`pel
      ensures pel == Kept(old(pel), orphans)
    {
      var keep: seq<Pending> := [];
      for k := 0 to |pel|
        invariant keep == Kept(pel[..k], orphans)
      {
        assert pel[..k + 1][..k] == pel[..k];
        if pel[k].id !in orphans {
          keep := keep + [pel[k]];
        }
      }
      assert pel[..|pel|] == pel;
      pel := keep;
    }

    // The first id past the last visited one; none, or the greatest id, ends the sweep.
    method NextCursor(last: Option<Id>) returns (cursor: Id)
      ensures cursor == NextOf(pel, last)
    {
      if last.None? {
        return MIN_ID;
      }
      cursor := MAX_ID;
      var k := 0;
      while k < |pel|
        invariant 0 <= k <= |pel| && cursor == MAX_ID
        invariant BehindFrom(pel, last.value, k) == Behind(pel, last.value)
      {
        if Less(last.value, pel[k].id) {
          cursor := pel[k].id;
          break;
        }
        k := k + 1;
      }
      if cursor == MAX_ID {
        cursor := MIN_ID;
      }
    }

    // Take records over, take orphans out, say where to go on.
    method SweepOnce(entries: seq<Entry>, who: Bytes, minIdle: int, start: Id, count: nat, justId: bool, now: nat)
      returns (cursor: Id, orphans: set<Id>)
      requires Sorted(pel)
      modifies this
      ensures Value() == AutoClaim(old(Value()), entries, who, minIdle, start, count, justId, now)
      ensures cursor == Cursor(old(pel), start, count)
      ensures orphans == Ids(old(pel)) - Ids(pel)
    {
      VisitingIsAutoClaim(Value(), start, count, entries, who, minIdle, justId, now);
      VisitingCursor(Value(), start, count, entries, who, minIdle, justId, now);
      var last;
      orphans, last := VisitRecords(entries, who, minIdle, start, count, justId, now);
      TakeOut(orphans);
      cursor := NextCursor(last);
    }

    // XAUTOCLAIM: the reply is the next cursor, what was claimed and what is gone.
    method XAutoClaim(entries: seq<Entry>, who: Bytes, minIdle: int, start: Id, count: nat, justId: bool, now: nat)
      returns (cursor: Id, claimed: seq<Id>, orphans: set<Id>)
      requires Sorted(pel)
      modifies this
      ensures Value() == AutoClaim(old(Value()), entries, who, minIdle, start, count, justId, now)
      ensures claimed
              == TakenIds(old(pel)[Before(old(pel), start)..Upto(old(pel), start, count)], entries, minIdle, now)
      ensures cursor == Cursor(old(pel), start, count) && orphans == Ids(old(pel)) - Ids(pel)
    {
      claimed := TakenReply(entries, minIdle, start, count, now);
      cursor, orphans := SweepOnce(entries, who, minIdle, start, count, justId, now);
    }
  }
}
