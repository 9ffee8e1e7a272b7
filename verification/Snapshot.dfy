/**
 * The text file in which a cluster node keeps its slot table.
 *
 * Main results: `UnmarshalMarshal` for every order in which the two maps may be
 * written, and `RestartFromFile`.
 */
module Snapshot {
  import opened Options
  import opened Text
  import opened Topology

  // The scanner's buffer: a line and its line feed have to fit.
  const MAX_LINE: nat := 1048576

  // ---------------------------------------------------------------- writing

  function EpochLine(epoch: nat): string { "epoch" + " " + FormatNat(epoch) }

  function SlotLine(what: string, slot: nat, id: string): string { what + " " + (FormatNat(slot) + " " + id) }

  function OwnerName(nodes: seq<Node>, idx: int): string {
    if 0 <= idx < |nodes| then nodes[idx].id else "-"
  }

  // The owner lines of the first `n` slots.
  function OwnerLines(owner: seq<int>, nodes: seq<Node>, n: nat): seq<string>
    requires n <= |owner|
  {
    if n == 0 then [] else OwnerLines(owner, nodes, n - 1) + [SlotLine("owner", n - 1, OwnerName(nodes, owner[n - 1]))]
  }

  // One line for each slot of a map, in the given order.
  function MapLines(what: string, m: map<int, string>, order: seq<nat>): seq<string>
    requires forall s <- order :: s in m
  {
    if order == [] then []
    else MapLines(what, m, order[..|order| - 1]) + [SlotLine(what, order[|order| - 1], m[order[|order| - 1]])]
  }

  // An order in which a map may be walked.
  ghost predicate OrderOf(m: map<int, string>, order: seq<nat>) {
    && (forall s <- order :: s in m) && (forall s <- m :: s in order)
    && (forall i, j | 0 <= i < j < |order| :: order[i] != order[j])
  }

  function FileLines(snap: Snap, nodes: seq<Node>, mig: seq<nat>, imp: seq<nat>): seq<string>
    requires (forall s <- mig :: s in snap.migrating) && (forall s <- imp :: s in snap.importing)
  {
    [EpochLine(snap.epoch)] + OwnerLines(snap.owner, nodes, |snap.owner|)
    + MapLines("migrating", snap.migrating, mig) + MapLines("importing", snap.importing, imp)
  }

  function Joined(lines: seq<string>): string {
    if lines == [] then [] else Joined(lines[..|lines| - 1]) + lines[|lines| - 1] + "\n"
  }

  lemma {:induction false} JoinedSnoc(lines: seq<string>, line: string)
    ensures Joined(lines + [line]) == Joined(lines) + line + "\n"
  {
    assert (lines + [line])[..|lines|] == lines;
  }

  // One more line in the buffer.
  method AppendLine(buf: string, line: string, ghost lines: seq<string>) returns (out: string)
    requires buf == Joined(lines)
    ensures out == Joined(lines + [line])
  {
    JoinedSnoc(lines, line);
    out := buf + line + "\n";
  }

  method AppendOwners(buf: string, owner: seq<int>, nodes: seq<Node>, ghost lines: seq<string>) returns (out: string)
    requires buf == Joined(lines)
    ensures out == Joined(lines + OwnerLines(owner, nodes, |owner|))
  {
    out := buf;
    ghost var all := lines;
    assert lines + [] == lines;
    for slot := 0 to |owner|
      invariant all == lines + OwnerLines(owner, nodes, slot) && out == Joined(all)
    {
      var id := "-";
      if 0 <= owner[slot] < |nodes| {
        id := nodes[owner[slot]].id;
      }
      out := AppendLine(out, SlotLine("owner", slot, id), all);
      all := all + [SlotLine("owner", slot, id)];
    }
  }

  method AppendMap(buf: string, what: string, m: map<int, string>, order: seq<nat>, ghost lines: seq<string>)
    returns (out: string)
    requires buf == Joined(lines) && forall s <- order :: s in m
    ensures out == Joined(lines + MapLines(what, m, order))
  {
    out := buf;
    ghost var all := lines;
    assert lines + [] == lines;
    for k := 0 to |order|
      invariant all == lines + MapLines(what, m, order[..k]) && out == Joined(all)
    {
      assert order[..k + 1][..k] == order[..k] && order[k] in order;
      out := AppendLine(out, SlotLine(what, order[k], m[order[k]]), all);
      all := all + [SlotLine(what, order[k], m[order[k]])];
    }
    assert order[..|order|] == order;
  }

  method MarshalSnapshot(snap: Snap, nodes: seq<Node>, mig: seq<nat>, imp: seq<nat>) returns (out: string)
    requires (forall s <- mig :: s in snap.migrating) && (forall s <- imp :: s in snap.importing)
    ensures out == Joined(FileLines(snap, nodes, mig, imp))
  {
    ghost var first := [EpochLine(snap.epoch)];
    assert [] + first == first;
    out := AppendLine("", EpochLine(snap.epoch), []);
    out := AppendOwners(out, snap.owner, nodes, first);
    ghost var owners := first + OwnerLines(snap.owner, nodes, |snap.owner|);
    out := AppendMap(out, "migrating", snap.migrating, mig, owners);
    out := AppendMap(out, "importing", snap.importing, imp, owners + MapLines("migrating", snap.migrating, mig));
  }

  // ---------------------------------------------------------------- reading

  function DropCr(line: string): string {
    if line != [] && line[|line| - 1] == '\r' then line[..|line| - 1] else line
  }

  // The lines of a file, None when one is too long.
  function Lines(data: string): Option<seq<string>>
    decreases |data|
  {
    if data == [] then Some([])
    else
      var i := Index(data, '\n');
      if i < 0 then (if |data| >= MAX_LINE then None else Some([DropCr(data)]))
      else if i + 1 > MAX_LINE then None
      else
        var rest :- Lines(data[i + 1..]);
        Some([DropCr(data[..i])] + rest)
  }

  // The last node with this id, which wins in the id table.
  function LastIndex(nodes: seq<Node>, id: string): (i: int)
    ensures -1 <= i < |nodes|
    ensures i >= 0 ==> nodes[i].id == id
    ensures i < 0 ==> forall k | 0 <= k < |nodes| :: nodes[k].id != id
  {
    if nodes == [] then -1
    else if nodes[|nodes| - 1].id == id then |nodes| - 1
    else LastIndex(nodes[..|nodes| - 1], id)
  }

  datatype Reading = Reading(snap: Snap, sawEpoch: bool)

  // What one line does to the snapshot being read.
  function ReadLine(r: Reading, nodes: seq<Node>, line: string): Option<Reading>
    requires |r.snap.owner| == NUM_SLOTS
  {
    var fields := Fields(line);
    if fields == [] then Some(r)
    else if fields[0] == "epoch" then
      if |fields| != 2 then None else
      var n :- ParseUint(fields[1]);
      Some(Reading(r.snap.(epoch := n), true))
    else if fields[0] == "owner" || fields[0] == "migrating" || fields[0] == "importing" then
      if |fields| != 3 then None else
      var slot :- ParseInt(fields[1]);
      if !ValidSlot(slot) then None
      else if fields[0] == "migrating" then Some(r.(snap := r.snap.(migrating := r.snap.migrating[slot := fields[2]])))
      else if fields[0] == "importing" then Some(r.(snap := r.snap.(importing := r.snap.importing[slot := fields[2]])))
      else if fields[2] == "-" then Some(r.(snap := r.snap.(owner := r.snap.owner[slot := -1])))
      else
        var idx := LastIndex(nodes, fields[2]);
        if idx < 0 then None else Some(r.(snap := r.snap.(owner := r.snap.owner[slot := idx])))
    else None
  }

  function ReadLines(r: Reading, nodes: seq<Node>, lines: seq<string>): (res: Option<Reading>)
    requires |r.snap.owner| == NUM_SLOTS
    ensures res.Some? ==> |res.value.snap.owner| == NUM_SLOTS
    decreases |lines|
  {
    if lines == [] then Some(r) else
    var next :- ReadLine(r, nodes, lines[0]);
    ReadLines(next, nodes, lines[1..])
  }

  function Blank(): (r: Reading)
    ensures |r.snap.owner| == NUM_SLOTS
  {
    Reading(Snap(seq(NUM_SLOTS, _ => -1), map[], map[], 0), false)
  }

  function Parsed(data: string, nodes: seq<Node>): Option<Snap> {
    var lines :- Lines(data);
    var r :- ReadLines(Blank(), nodes, lines);
    if r.sawEpoch then Some(r.snap) else None
  }

  method UnmarshalSnapshot(data: string, nodes: seq<Node>) returns (r: Option<Snap>)
    ensures r == Parsed(data, nodes)
  {
    var lines := Lines(data);
    if lines.None? {
      return None;
    }
    var reading := Blank();
    for k := 0 to |lines.value|
      invariant |reading.snap.owner| == NUM_SLOTS
      invariant ReadLines(reading, nodes, lines.value[k..]) == ReadLines(Blank(), nodes, lines.value)
    {
      assert lines.value[k..][1..] == lines.value[k + 1..];
      var next := ReadLine(reading, nodes, lines.value[k]);
      if next.None? {
        return None;
      }
      reading := next.value;
    }
    return if reading.sawEpoch then Some(reading.snap) else None;
  }

  // ---------------------------------------------------------------- the round trip

  // An id that survives as a field of a line.
  predicate GoodId(id: string) { Word(id) && id != "-" }

  predicate GoodNodes(nodes: seq<Node>) {
    && (forall n <- nodes :: GoodId(n.id))
    && (forall i, j | 0 <= i < j < |nodes| :: nodes[i].id != nodes[j].id)
  }

  predicate GoodMap(m: map<int, string>) { forall s <- m :: ValidSlot(s) && GoodId(m[s]) }

  predicate GoodSnap(snap: Snap, nodes: seq<Node>) {
    && GoodNodes(nodes) && GoodMap(snap.migrating) && GoodMap(snap.importing) && snap.epoch < EPOCHS
    && |snap.owner| == NUM_SLOTS && forall s | 0 <= s < NUM_SLOTS :: -1 <= snap.owner[s] < |nodes|
  }

  // A line that the scanner does not cut elsewhere or shorten.
  predicate PlainLine(line: string) {
    '\n' !in line && (line == [] || line[|line| - 1] != '\r')
  }

  // Every line fits into the scanner's buffer, with its line feed.
  predicate AllFit(lines: seq<string>) { forall l <- lines :: |l| < MAX_LINE }

  // The lines in front of those of the rest of a file.
  function InFront(lines: seq<string>, rest: Option<seq<string>>): Option<seq<string>> {
    if AllFit(lines) && rest.Some? then Some(lines + rest.value) else None
  }

  lemma {:induction false} InFrontSnoc(init: seq<string>, last: string, rest: Option<seq<string>>)
    ensures InFront(init, InFront([last], rest)) == InFront(init + [last], rest)
  {
    assert AllFit(init + [last]) <==> AllFit(init) && AllFit([last]) by {
      assert forall l :: l in init + [last] <==> l in init || l == last;
    }
    if rest.Some? { assert (init + [last]) + rest.value == init + ([last] + rest.value); }
  }

  lemma {:induction false} FirstLine(line: string, rest: string)
    requires PlainLine(line)
    ensures Lines(line + ("\n" + rest)) == InFront([line], Lines(rest))
  {
    var data := line + ("\n" + rest);
    assert data[|line|] == '\n' && data[..|line|] == line;
    IndexIs(data, '\n', |line|);
    assert data[|line| + 1..] == rest;
  }

  lemma {:induction false} JoinedSplits(lines: seq<string>, rest: string)
    requires lines != []
    ensures Joined(lines) + rest == Joined(lines[..|lines| - 1]) + (lines[|lines| - 1] + ("\n" + rest))
  {
  }

  lemma {:induction false} LinesBefore(lines: seq<string>, rest: string)
    requires forall l <- lines :: PlainLine(l)
    ensures Lines(Joined(lines) + rest) == InFront(lines, Lines(rest))
    decreases |lines|
  {
    if lines == [] {
      assert Joined(lines) + rest == rest;
      if Lines(rest).Some? { assert lines + Lines(rest).value == Lines(rest).value; }
    } else {
      var init, last := lines[..|lines| - 1], lines[|lines| - 1];
      assert last in lines && init + [last] == lines;
      LinesBefore(init, last + ("\n" + rest));
      FirstLine(last, rest);
      InFrontSnoc(init, last, Lines(rest));
      JoinedSplits(lines, rest);
    }
  }

  lemma {:induction false} LinesJoined(lines: seq<string>)
    requires forall l <- lines :: PlainLine(l)
    ensures Lines(Joined(lines)) == if AllFit(lines) then Some(lines) else None
  {
    LinesBefore(lines, []);
    assert Joined(lines) + [] == Joined(lines) && lines + [] == lines;
  }

  // ---------------------------------------------------------------- line by line

  lemma {:induction false} ReadMore(r: Reading, nodes: seq<Node>, lines: seq<string>, more: seq<string>)
    requires |r.snap.owner| == NUM_SLOTS
    ensures ReadLines(r, nodes, lines + more) ==
            match ReadLines(r, nodes, lines)
            case None => None
            case Some(next) => ReadLines(next, nodes, more)
    decreases |lines|
  {
    if lines == [] {
      assert lines + more == more;
    } else {
      assert (lines + more)[1..] == lines[1..] + more;
      var next := ReadLine(r, nodes, lines[0]);
      if next.Some? { ReadMore(next.value, nodes, lines[1..], more); }
    }
  }

  lemma {:induction false} ReadSnoc(r: Reading, nodes: seq<Node>, lines: seq<string>, line: string, mid: Reading)
    requires |r.snap.owner| == NUM_SLOTS && ReadLines(r, nodes, lines) == Some(mid)
    ensures ReadLines(r, nodes, lines + [line]) == ReadLine(mid, nodes, line)
  {
    ReadMore(r, nodes, lines, [line]);
    var next := ReadLine(mid, nodes, line);
    assert [line][1..] == [];
  }

  lemma {:induction false} SlotNumber(slot: nat)
    requires ValidSlot(slot)
    ensures Word(FormatNat(slot)) && ParseInt(FormatNat(slot)) == Some(slot)
  {
    NumberIsWord(slot);
    assert FormatInt(slot) == FormatNat(slot);
    ParseFormatInt(slot);
  }

  lemma {:induction false} SlotFields(what: string, slot: nat, id: string)
    requires Word(what) && ValidSlot(slot) && Word(id)
    ensures Fields(SlotLine(what, slot, id)) == [what, FormatNat(slot), id] && PlainLine(SlotLine(what, slot, id))
  {
    SlotNumber(slot);
    FieldsThree(what, FormatNat(slot), id);
    WordsAreLine(what, FormatNat(slot), id);
  }

  lemma {:induction false} WordsAreLine(a: string, b: string, c: string)
    requires Word(a) && Word(b) && Word(c)
    ensures PlainLine(a + " " + (b + " " + c))
  {
    var line := a + " " + (b + " " + c);
    assert line[|line| - 1] == c[|c| - 1] && c[|c| - 1] in c;
    assert forall x <- line :: x in a || x in b || x in c || x == ' ';
  }

  lemma {:induction false} EpochFields(epoch: nat)
    ensures Fields(EpochLine(epoch)) == ["epoch", FormatNat(epoch)]
  {
    NumberIsWord(epoch);
    FieldsTwo("epoch", FormatNat(epoch));
  }

  lemma {:induction false} EpochGood(epoch: nat)
    ensures PlainLine(EpochLine(epoch))
  {
    NumberIsWord(epoch);
    EpochIsLine(FormatNat(epoch));
  }

  lemma {:induction false} EpochIsLine(number: string)
    requires Word(number)
    ensures PlainLine("epoch" + " " + number)
  {
    var line := "epoch" + " " + number;
    assert line[|line| - 1] == number[|number| - 1] && number[|number| - 1] in number;
    assert forall c <- line :: c in "epoch " || c in number;
  }

  // Reading the owner lines of the first `n` slots restores their owners.
  lemma {:induction false} OwnersRead(r: Reading, snap: Snap, nodes: seq<Node>, n: nat)
    requires GoodSnap(snap, nodes) && |r.snap.owner| == NUM_SLOTS && n <= NUM_SLOTS
    ensures ReadLines(r, nodes, OwnerLines(snap.owner, nodes, n))
            == Some(r.(snap := r.snap.(owner := snap.owner[..n] + r.snap.owner[n..])))
    ensures forall l <- OwnerLines(snap.owner, nodes, n) :: PlainLine(l)
  {
    if n == 0 {
      assert snap.owner[..0] + r.snap.owner[0..] == r.snap.owner;
    } else {
      OwnersRead(r, snap, nodes, n - 1);
      var mid := r.(snap := r.snap.(owner := snap.owner[..n - 1] + r.snap.owner[n - 1..]));
      ReadSnoc(r, nodes, OwnerLines(snap.owner, nodes, n - 1),
          SlotLine("owner", n - 1, OwnerName(nodes, snap.owner[n - 1])), mid);
      OwnerRead(mid, snap, nodes, n - 1);
      OneMoreOwner(snap.owner, r.snap.owner, n);
    }
  }

  lemma {:induction false} OneMoreOwner(all: seq<int>, was: seq<int>, n: nat)
    requires 0 < n <= |all| == |was|
    ensures (all[..n - 1] + was[n - 1..])[n - 1 := all[n - 1]] == all[..n] + was[n..]
  {
  }

  lemma {:induction false} OwnerRead(r: Reading, snap: Snap, nodes: seq<Node>, slot: nat)
    requires GoodSnap(snap, nodes) && |r.snap.owner| == NUM_SLOTS && ValidSlot(slot)
    ensures var line := SlotLine("owner", slot, OwnerName(nodes, snap.owner[slot]));
            PlainLine(line) && ReadLine(r, nodes, line)
                == Some(r.(snap := r.snap.(owner := r.snap.owner[slot := snap.owner[slot]])))
  {
    var idx := snap.owner[slot];
    if idx >= 0 { assert nodes[idx] in nodes; }
    SlotFields("owner", slot, OwnerName(nodes, idx));
    SlotNumber(slot);
    OwnerFieldsRead(r, nodes, SlotLine("owner", slot, OwnerName(nodes, idx)), FormatNat(slot), slot, idx);
  }

  lemma {:induction false} OwnerFieldsRead(r: Reading, nodes: seq<Node>, line: string, number: string, slot: nat,
                                           idx: int)
    requires |r.snap.owner| == NUM_SLOTS && ValidSlot(slot) && GoodNodes(nodes) && -1 <= idx < |nodes|
    requires Fields(line) == ["owner", number, OwnerName(nodes, idx)] && ParseInt(number) == Some(slot)
    ensures ReadLine(r, nodes, line) == Some(r.(snap := r.snap.(owner := r.snap.owner[slot := idx])))
  {
    if idx >= 0 { assert nodes[idx] in nodes; }
  }

  // The map that lines of this kind fill.
  function MapOf(r: Reading, what: string): map<int, string> {
    if what == "migrating" then r.snap.migrating else r.snap.importing
  }

  function WithMap(r: Reading, what: string, m: map<int, string>): Reading {
    r.(snap := if what == "migrating" then r.snap.(migrating := m) else r.snap.(importing := m))
  }

  lemma {:induction false} MapLineRead(r: Reading, what: string, slot: nat, id: string, nodes: seq<Node>)
    requires (what == "migrating" || what == "importing") && |r.snap.owner| == NUM_SLOTS && ValidSlot(slot)
             && GoodId(id)
    ensures ReadLine(r, nodes, SlotLine(what, slot, id)) == Some(WithMap(r, what, MapOf(r, what)[slot := id]))
    ensures PlainLine(SlotLine(what, slot, id))
  {
    SlotFields(what, slot, id);
    SlotNumber(slot);
  }

  // Reading the lines of a map puts back the slots read so far.
  lemma {:induction false} MapRead(r: Reading, what: string, m: map<int, string>, order: seq<nat>, nodes: seq<Node>)
    requires (what == "migrating" || what == "importing") && |r.snap.owner| == NUM_SLOTS
    requires GoodMap(m) && forall s <- order :: s in m
    ensures ReadLines(r, nodes, MapLines(what, m, order)) == Some(WithMap(r, what, Put(MapOf(r, what), m, order)))
    ensures forall l <- MapLines(what, m, order) :: PlainLine(l)
  {
    if order != [] {
      var init, s := order[..|order| - 1], order[|order| - 1];
      MapRead(r, what, m, init, nodes);
      assert s in order && GoodId(m[s]);
      var mid := WithMap(r, what, Put(MapOf(r, what), m, init));
      ReadSnoc(r, nodes, MapLines(what, m, init), SlotLine(what, s, m[s]), mid);
      MapLineRead(mid, what, s, m[s], nodes);
    }
  }

  function Put(base: map<int, string>, m: map<int, string>, order: seq<nat>): map<int, string>
    requires forall s <- order :: s in m
  {
    if order == [] then base
    else Put(base, m, order[..|order| - 1])[order[|order| - 1] := m[order[|order| - 1]]]
  }

  lemma {:induction false} PutAll(m: map<int, string>, order: seq<nat>)
    requires forall s <- order :: s in m
    ensures Put(map[], m, order).Keys == set s | s in order
    ensures forall s <- order :: Put(map[], m, order)[s] == m[s]
  {
    if order != [] {
      var init, last := order[..|order| - 1], order[|order| - 1];
      PutAll(m, init);
      assert order == init + [last];
    }
  }

  // ---------------------------------------------------------------- the file

  lemma {:induction false} ReadThen(r: Reading, nodes: seq<Node>, lines: seq<string>, more: seq<string>, mid: Reading,
                                    end: Reading)
    requires |r.snap.owner| == NUM_SLOTS && |mid.snap.owner| == NUM_SLOTS
    requires ReadLines(r, nodes, lines) == Some(mid) && ReadLines(mid, nodes, more) == Some(end)
    ensures ReadLines(r, nodes, lines + more) == Some(end)
  {
    ReadMore(r, nodes, lines, more);
  }

  lemma {:induction false} EpochRead(r: Reading, nodes: seq<Node>, epoch: nat)
    requires |r.snap.owner| == NUM_SLOTS && epoch < EPOCHS
    ensures ReadLines(r, nodes, [EpochLine(epoch)]) == Some(Reading(r.snap.(epoch := epoch), true))
  {
    EpochFields(epoch);
    ParseFormatNat(epoch);
    assert [EpochLine(epoch)][1..] == [];
  }

  lemma {:induction false} AllRead(snap: Snap, nodes: seq<Node>, mig: seq<nat>, imp: seq<nat>)
    requires GoodSnap(snap, nodes) && OrderOf(snap.migrating, mig) && OrderOf(snap.importing, imp)
    ensures ReadLines(Blank(), nodes, FileLines(snap, nodes, mig, imp)) == Some(Reading(snap, true))
  {
    var r0 := Blank();
    var first, owners := [EpochLine(snap.epoch)], OwnerLines(snap.owner, nodes, NUM_SLOTS);
    var r1 := Reading(r0.snap.(epoch := snap.epoch), true);
    var r2 := r1.(snap := r1.snap.(owner := snap.owner));
    var r3 := WithMap(r2, "migrating", snap.migrating);
    EpochRead(r0, nodes, snap.epoch);
    OwnersRead(r1, snap, nodes, NUM_SLOTS);
    assert snap.owner[..NUM_SLOTS] + r1.snap.owner[NUM_SLOTS..] == snap.owner;
    ReadThen(r0, nodes, first, owners, r1, r2);
    MapRead(r2, "migrating", snap.migrating, mig, nodes);
    PutWhole(snap.migrating, mig);
    ReadThen(r0, nodes, first + owners, MapLines("migrating", snap.migrating, mig), r2, r3);
    MapRead(r3, "importing", snap.importing, imp, nodes);
    PutWhole(snap.importing, imp);
    ReadThen(r0, nodes, first + owners + MapLines("migrating", snap.migrating, mig),
             MapLines("importing", snap.importing, imp), r3, WithMap(r3, "importing", snap.importing));
  }

  lemma {:induction false} PutWhole(m: map<int, string>, order: seq<nat>)
    requires OrderOf(m, order)
    ensures Put(map[], m, order) == m
  {
    PutAll(m, order);
    var p := Put(map[], m, order);
    forall s ensures s in p <==> s in m {
      if s in m { assert s in order; }
    }
    forall s | s in p ensures p[s] == m[s] { assert s in order; }
  }

  lemma {:induction false} FileLinesPlain(snap: Snap, nodes: seq<Node>, mig: seq<nat>, imp: seq<nat>)
    requires GoodSnap(snap, nodes) && OrderOf(snap.migrating, mig) && OrderOf(snap.importing, imp)
    ensures forall l <- FileLines(snap, nodes, mig, imp) :: PlainLine(l)
  {
    EpochGood(snap.epoch);
    OwnersRead(Blank(), snap, nodes, NUM_SLOTS);
    MapRead(Blank(), "migrating", snap.migrating, mig, nodes);
    MapRead(Blank(), "importing", snap.importing, imp, nodes);
  }

  // Whatever the order in which the two maps were written: reading the file back gives the
  // snapshot if every line fits into the scanner's buffer, and fails otherwise.
  lemma {:induction false} UnmarshalMarshal(snap: Snap, nodes: seq<Node>, mig: seq<nat>, imp: seq<nat>)
    requires GoodSnap(snap, nodes) && OrderOf(snap.migrating, mig) && OrderOf(snap.importing, imp)
    ensures var lines := FileLines(snap, nodes, mig, imp);
            Parsed(Joined(lines), nodes) == if AllFit(lines) then Some(snap) else None
  {
    FileLinesPlain(snap, nodes, mig, imp);
    LinesJoined(FileLines(snap, nodes, mig, imp));
    AllRead(snap, nodes, mig, imp);
  }

  // A node that restarts from its configuration and reads its file back is in the state
  // it saved, if its node ids can be written, exactly when every line fits.
  lemma {:induction false} RestartFromFile(built: Topo, t: Topo, mig: seq<nat>, imp: seq<nat>)
    requires Coherent(built) && built.epoch == 0 && Coherent(t) && t.self == built.self && t.nodes == built.nodes
    requires GoodNodes(t.nodes) && OrderOf(t.migrating, mig) && OrderOf(t.importing, imp)
    ensures var lines := FileLines(SnapshotOf(t), t.nodes, mig, imp);
            var read := Parsed(Joined(lines), built.nodes);
            (read.Some? <==> AllFit(lines)) && (read.Some? ==> Loaded(built, read.value) == Some(t))
  {
    CoherentIsGood(t);
    UnmarshalMarshal(SnapshotOf(t), t.nodes, mig, imp);
    RestartRestores(built, t);
  }

  lemma {:induction false} CoherentIsGood(t: Topo)
    requires Coherent(t) && GoodNodes(t.nodes)
    ensures GoodSnap(SnapshotOf(t), t.nodes)
  {
    forall id | KnownId(t, id) ensures GoodId(id) {
      var i :| 0 <= i < |t.nodes| && t.nodes[i].id == id;
      assert t.nodes[i] in t.nodes;
    }
    forall s | 0 <= s < NUM_SLOTS ensures -1 <= t.owner[s] < |t.nodes| { assert SlotOk(t, s); }
  }
}
