/**
 * WATCH, MULTI and EXEC over the backlog.
 *
 * Main result: `ReplaysExactly`, for every run of a connection's transaction commands
 * mixed with anybody's writes.
 */
module Txn {
  import opened Options
  import opened Bytes
  import opened Backlog

  // ---------------------------------------------------------------- stored keys

  // "hll:", "st:", "h:", "l:", "s:", "x:" and "z:".
  const PREFIXES: seq<Bytes> :=
    [[104, 108, 108, 58], [115, 116, 58], [104, 58], [108, 58], [115, 58], [120, 58], [122, 58]]

  predicate StartsWith(s: Bytes, p: Bytes) { |p| <= |s| && s[..|p|] == p }

  function Stripped(raw: Bytes, i: nat): Bytes
    requires i <= |PREFIXES|
    decreases |PREFIXES| - i
  {
    if i == |PREFIXES| then raw
    else if StartsWith(raw, PREFIXES[i]) then raw[|PREFIXES[i]|..]
    else Stripped(raw, i + 1)
  }

  // The user key behind a stored key.
  function RawToUserKey(raw: Bytes): Bytes { Stripped(raw, 0) }

  // No prefix starts a key stored under another, so stripping undoes prefixing.
  lemma {:induction false} StripUndoesPrefix(i: nat, key: Bytes)
    requires i < |PREFIXES|
    ensures RawToUserKey(PREFIXES[i] + key) == key
  {
    var raw := PREFIXES[i] + key;
    forall j | 0 <= j < i ensures !StartsWith(raw, PREFIXES[j]) { PrefixFree(i, j, key); }
    assert StartsWith(raw, PREFIXES[i]) && raw[|PREFIXES[i]|..] == key;
    StripsAt(raw, 0, i);
  }

  lemma {:induction false} PrefixFree(i: nat, j: nat, key: Bytes)
    requires i < |PREFIXES| && j < |PREFIXES| && i != j
    ensures !StartsWith(PREFIXES[i] + key, PREFIXES[j])
  {
    var raw, p := PREFIXES[i] + key, PREFIXES[j];
    assert raw[0] == PREFIXES[i][0] && raw[1] == PREFIXES[i][1];
    assert (PREFIXES[i][0], PREFIXES[i][1]) != (p[0], p[1]);
    assert |p| <= |raw| ==> raw[..|p|][0] == raw[0] && raw[..|p|][1] == raw[1];
  }

  lemma {:induction false} StripsAt(raw: Bytes, from: nat, i: nat)
    requires from <= i < |PREFIXES| && StartsWith(raw, PREFIXES[i])
    requires forall j | from <= j < i :: !StartsWith(raw, PREFIXES[j])
    ensures Stripped(raw, from) == raw[|PREFIXES[i]|..]
    decreases i - from
  {
    if from < i { StripsAt(raw, from + 1, i); }
  }

  // ---------------------------------------------------------------- sessions

  // A queued command; what it does is left abstract.
  type Command = Bytes

  datatype Session = Session(queue: seq<Command>, dirty: bool, inMulti: bool, watched: set<Bytes>, lastOff: nat)

  const FRESH := Session([], false, false, {}, 0)

  // What a connection or anybody else may do.  A command is refused when it is unknown
  // or has the wrong number of arguments.
  datatype Event =
    | Watch(keys: seq<Bytes>)
    | Unwatch
    | Multi
    | Discard
    | Exec
    | Other(cmd: Command, refused: bool)
    | Write(raw: Bytes)

  function Or(s: Option<Session>): Session { if s.Some? then s.value else FRESH }

  // The session of a connection after one event; `latest` is the backlog's last offset.
  function After(s: Option<Session>, e: Event, latest: nat): Option<Session> {
    match e
    case Watch(keys) =>
      if keys == [] || Or(s).inMulti then s else
      var t := Or(s);
      Some(t.(lastOff := if t.watched == {} then latest else t.lastOff, watched := t.watched + set k | k in keys))
    case Unwatch =>
      if s.None? then s
      else if s.value.inMulti then Some(s.value.(queue := s.value.queue + [UNWATCH]))
      else if s.value.queue == [] then None
      else Some(s.value.(watched := {}))
    case Multi => if Or(s).inMulti then s else Some(Or(s).(inMulti := true))
    case Discard => if Or(s).inMulti then None else s
    case Exec => if Or(s).inMulti then None else s
    case Other(cmd, refused) =>
      if s.None? then s
      else if refused then Some(s.value.(dirty := true))
      else Some(s.value.(queue := s.value.queue + [cmd]))
    case Write(_) => s
  }

  const UNWATCH: Command := [117, 110, 119, 97, 116, 99, 104]

  datatype Outcome = WithoutMulti | ExecAbort | Rejected | Nil | Replayed(queue: seq<Command>)

  // A watched key among the operations, or some of them no longer known.
  ghost predicate Touched(s: Session, history: seq<Bytes>, max: nat) {
    s.watched != {} &&
    (s.lastOff < Slid(|history|, max)
     || exists i | s.lastOff <= i < |history| :: RawToUserKey(history[i]) in s.watched)
  }

  // The answer to EXEC; `pass` is the verdict of the check that runs before the replay.
  ghost function Answer(s: Option<Session>, pass: bool, history: seq<Bytes>, max: nat): Outcome {
    if !Or(s).inMulti then WithoutMulti
    else if s.value.dirty then ExecAbort
    else if !pass then Rejected
    else if Touched(s.value, history, max) then Nil
    else Replayed(s.value.queue)
  }

  class TxnRegistry {
    var sessions: map<nat, Session>
    const backlog: Backlog

    constructor (backlog: Backlog)
      ensures sessions == map[] && this.backlog == backlog
    {
      sessions := map[];
      this.backlog := backlog;
    }

    function Of(conn: nat): Option<Session>
      reads this
    {
      if conn in sessions then Some(sessions[conn]) else None
    }

    // Only this connection's session changes, as the event says.
    twostate predicate Moves(conn: nat, e: Event)
      reads this, backlog
    {
      && Of(conn) == After(old(Of(conn)), e, backlog.next)
      && forall c | c != conn :: Of(c) == old(Of(c))
    }

    method HandleMulti(conn: nat) returns (ok: bool)
      modifies this
      ensures Moves(conn, Multi) && ok == !Or(old(Of(conn))).inMulti
    {
      if conn in sessions && sessions[conn].inMulti {
        return false;
      }
      var s := if conn in sessions then sessions[conn] else FRESH;
      sessions := sessions[conn := s.(inMulti := true)];
      return true;
    }

    method HandleDiscard(conn: nat) returns (ok: bool)
      modifies this
      ensures Moves(conn, Discard) && ok == Or(old(Of(conn))).inMulti
    {
      if conn !in sessions || !sessions[conn].inMulti {
        return false;
      }
      sessions := sessions - {conn};
      return true;
    }

    method HandleWatch(conn: nat, keys: seq<Bytes>) returns (ok: bool)
      modifies this
      ensures Moves(conn, Watch(keys)) && ok == (keys != [] && !Or(old(Of(conn))).inMulti)
    {
      if keys == [] || (conn in sessions && sessions[conn].inMulti) {
        return false;
      }
      var s := if conn in sessions then sessions[conn] else FRESH;
      if s.watched == {} {
        s := s.(lastOff := backlog.Latest());
      }
      s := s.(watched := s.watched + set k | k in keys);
      sessions := sessions[conn := s];
      return true;
    }

    // UNWATCH; inside MULTI it is queued like any other command and does not get here.
    method HandleUnwatch(conn: nat)
      modifies this
      ensures !Or(old(Of(conn))).inMulti ==> Moves(conn, Unwatch)
      ensures Or(Of(conn)).watched == {} && forall c | c != conn :: Of(c) == old(Of(c))
      ensures Or(old(Of(conn))).inMulti ==> Of(conn) == Some(old(Of(conn)).value.(watched := {}))
    {
      if conn in sessions {
        var s := sessions[conn].(watched := {});
        if s.queue == [] && !s.inMulti {
          sessions := sessions - {conn};
        } else {
          sessions := sessions[conn := s];
        }
      }
    }

    // Any other command: queued, or refused, as soon as the connection has a session.
    method Intercept(conn: nat, cmd: Command, refused: bool) returns (handled: bool)
      modifies this
      ensures Moves(conn, Other(cmd, refused)) && handled == old(Of(conn)).Some?
    {
      if conn !in sessions {
        return false;
      }
      var s := sessions[conn];
      if refused {
        sessions := sessions[conn := s.(dirty := true)];
      } else {
        sessions := sessions[conn := s.(queue := s.queue + [cmd])];
      }
      return true;
    }

    method CatchupDirty(s: Session) returns (dirty: bool)
      requires backlog.Valid()
      ensures dirty == Touched(s, backlog.history, backlog.max)
    {
      if s.watched == {} {
        return false;
      }
      var missed := backlog.Since(s.lastOff);
      if missed.None? {
        return true;
      }
      for i := 0 to |missed.value|
        invariant forall k | 0 <= k < i :: RawToUserKey(missed.value[k].key) !in s.watched
      {
        if RawToUserKey(missed.value[i].key) in s.watched {
          assert backlog.history[s.lastOff + i] == missed.value[i].key;
          return true;
        }
      }
      forall i | s.lastOff <= i < |backlog.history| ensures RawToUserKey(backlog.history[i]) !in s.watched {
        assert missed.value[i - s.lastOff].key == backlog.history[i];
      }
      return false;
    }

    method HandleExec(conn: nat, pass: bool) returns (r: Outcome)
      requires backlog.Valid()
      modifies this
      ensures Moves(conn, Exec)
      ensures r == Answer(old(Of(conn)), pass, backlog.history, backlog.max)
    {
      if conn !in sessions || !sessions[conn].inMulti {
        return WithoutMulti;
      }
      var s := sessions[conn];
      sessions := sessions - {conn};
      if s.dirty {
        return ExecAbort;
      }
      if !pass {
        return Rejected;
      }
      var dirty := CatchupDirty(s);
      return if dirty then Nil else Replayed(s.queue);
    }
  }

  // ---------------------------------------------------------------- whole runs
  //
  // A run is everything one connection does, mixed with the writes of all clients.

  function Init(run: seq<Event>): seq<Event>
    requires run != []
  {
    run[..|run| - 1]
  }

  function Last(run: seq<Event>): Event
    requires run != []
  {
    run[|run| - 1]
  }

  function History(run: seq<Event>): seq<Bytes> {
    if run == [] then []
    else if Last(run).Write? then History(Init(run)) + [Last(run).raw] else History(Init(run))
  }

  function SessionAfter(run: seq<Event>): Option<Session> {
    if run == [] then None else After(SessionAfter(Init(run)), Last(run), |History(Init(run))|)
  }

  // What the run means, without sessions or offsets: whether a MULTI is open, which keys
  // are watched, and what was written since the first of them was.

  predicate InMulti(run: seq<Event>) {
    run != [] &&
    (Last(run).Multi? || (!Last(run).Exec? && !Last(run).Discard? && InMulti(Init(run))))
  }

  function Watched(run: seq<Event>): set<Bytes> {
    if run == [] then {} else
    var before := Watched(Init(run));
    match Last(run)
    case Watch(keys) => if InMulti(Init(run)) then before else before + set k | k in keys
    case Unwatch => if InMulti(Init(run)) then before else {}
    case Discard => if InMulti(Init(run)) then {} else before
    case Exec => if InMulti(Init(run)) then {} else before
    case _ => before
  }

  function Written(run: seq<Event>): seq<Bytes> {
    if run == [] || Watched(run) == {} || Watched(Init(run)) == {} then []
    else if Last(run).Write? then Written(Init(run)) + [Last(run).raw]
    else Written(Init(run))
  }

  // The commands that wait for EXEC, and whether one was refused while they could.
  // Both start with the first WATCH or MULTI; UNWATCH forgets a refusal when nothing
  // waits.

  predicate Collecting(run: seq<Event>) { InMulti(run) || Watched(run) != {} || Queued(run) != [] }

  function Queued(run: seq<Event>): seq<Command> {
    if run == [] then [] else
    var before := Queued(Init(run));
    match Last(run)
    case Other(cmd, refused) =>
      if !refused && (InMulti(Init(run)) || Watched(Init(run)) != {} || before != []) then before + [cmd] else before
    case Unwatch => if InMulti(Init(run)) then before + [UNWATCH] else before
    case Discard => if InMulti(Init(run)) then [] else before
    case Exec => if InMulti(Init(run)) then [] else before
    case _ => before
  }

  predicate Refused(run: seq<Event>) {
    run != [] &&
    match Last(run)
    case Other(_, refused) => Refused(Init(run)) || (refused && Collecting(Init(run)))
    case Unwatch => Refused(Init(run)) && (InMulti(Init(run)) || Queued(Init(run)) != [])
    case Discard => Refused(Init(run)) && !InMulti(Init(run))
    case Exec => Refused(Init(run)) && !InMulti(Init(run))
    case _ => Refused(Init(run))
  }

  // The session keeps exactly that, with the mark at the first WATCH.
  lemma {:induction false} SessionMeansRun(run: seq<Event>)
    ensures var s, h := Or(SessionAfter(run)), History(run);
            && s.inMulti == InMulti(run) && s.watched == Watched(run)
            && (s.watched != {} ==> s.lastOff <= |h| && h[s.lastOff..] == Written(run))
    ensures var s := Or(SessionAfter(run));
            && (SessionAfter(run).Some? <==> Collecting(run))
            && s.queue == Queued(run) && s.dirty == Refused(run)
  {
    if run != [] {
      SessionMeansRun(Init(run));
      var s, h := Or(SessionAfter(Init(run))), History(Init(run));
      match Last(run)
      case Watch(keys) =>
        if keys == [] {
          assert s.watched + (set k | k in keys) == s.watched;
        } else {
          assert keys[0] in s.watched + set k | k in keys;
        }
      case Write(raw) =>
        if s.watched != {} { assert (h + [raw])[s.lastOff..] == h[s.lastOff..] + [raw]; }
      case _ =>
    }
  }

  ghost predicate Clean(run: seq<Event>) { forall r <- Written(run) :: RawToUserKey(r) !in Watched(run) }

  // In every run: EXEC replays exactly the commands queued since the first WATCH or
  // MULTI when a MULTI is open, none of them was refused, the check before the replay
  // passes, the backlog still holds everything written since the first WATCH, and none
  // of that is a watched key; and exactly when it answers otherwise.
  lemma {:induction false} ReplaysExactly(run: seq<Event>, pass: bool, max: nat)
    ensures Answer(SessionAfter(run), pass, History(run), max) ==
            if !InMulti(run) then WithoutMulti
            else if Refused(run) then ExecAbort
            else if !pass then Rejected
            else if Watched(run) != {} && (|Written(run)| > max || !Clean(run)) then Nil
            else Replayed(Queued(run))
  {
    SessionMeansRun(run);
    var s := Or(SessionAfter(run));
    if s.watched != {} { TouchedMeans(s, History(run), max, Written(run)); }
  }

  // Commands sent after WATCH and before MULTI are part of the transaction.
  lemma {:induction false} EarlyCommandsWait(run: seq<Event>, cmd: Command)
    requires Watched(run) != {} && !InMulti(run)
    ensures var next := run + [Other(cmd, false)] + [Multi];
            InMulti(next) && Queued(next) == Queued(run) + [cmd] && Refused(next) == Refused(run)
    ensures var next := run + [Other(cmd, true)] + [Multi]; InMulti(next) && Refused(next)
  {
    var mid, bad := run + [Other(cmd, false)], run + [Other(cmd, true)];
    assert Init(mid) == run && Init(mid + [Multi]) == mid && Init(bad) == run && Init(bad + [Multi]) == bad;
  }

  // Outside MULTI, UNWATCH forgets a refusal exactly when no command waits.
  lemma {:induction false} UnwatchForgets(run: seq<Event>)
    requires !InMulti(run) && Refused(run)
    ensures Watched(run + [Unwatch]) == {} && Queued(run + [Unwatch]) == Queued(run)
    ensures Refused(run + [Unwatch]) <==> Queued(run) != []
  {
    assert Init(run + [Unwatch]) == run;
  }

  lemma {:induction false} TouchedMeans(s: Session, h: seq<Bytes>, max: nat, written: seq<Bytes>)
    requires s.watched != {} && s.lastOff <= |h| && h[s.lastOff..] == written
    ensures Touched(s, h, max) <==> |written| > max || exists r <- written :: RawToUserKey(r) in s.watched
  {
    if i :| s.lastOff <= i < |h| && RawToUserKey(h[i]) in s.watched {
      assert written[i - s.lastOff] == h[i];
    }
    if r :| r in written && RawToUserKey(r) in s.watched {
      var k :| 0 <= k < |written| && written[k] == r;
      assert h[s.lastOff + k] == r;
    }
  }

  // ---------------------------------------------------------------- each key's own watch

  // What was written since this key was watched.
  function WrittenSince(run: seq<Event>, key: Bytes): seq<Bytes> {
    if run == [] || key !in Watched(run) || key !in Watched(Init(run)) then []
    else if Last(run).Write? then WrittenSince(Init(run), key) + [Last(run).raw]
    else WrittenSince(Init(run), key)
  }

  lemma {:induction false} OwnIsLater(run: seq<Event>, key: Bytes)
    ensures forall r <- WrittenSince(run, key) :: r in Written(run)
  {
    if run != [] && key in Watched(run) && key in Watched(Init(run)) { OwnIsLater(Init(run), key); }
  }

  // A replay never happens after a watched key was written since it was watched.
  lemma {:induction false} NeverStale(run: seq<Event>, pass: bool, max: nat, key: Bytes)
    requires Answer(SessionAfter(run), pass, History(run), max).Replayed? && key in Watched(run)
    ensures forall r <- WrittenSince(run, key) :: RawToUserKey(r) != key
  {
    ReplaysExactly(run, pass, max);
    OwnIsLater(run, key);
  }

  // What was written between the first WATCH and this key's own.
  function WrittenEarly(run: seq<Event>, key: Bytes): seq<Bytes> {
    if run == [] || key !in Watched(run) then []
    else if key !in Watched(Init(run)) then Written(run)
    else WrittenEarly(Init(run), key)
  }

  lemma {:induction false} WrittenSplits(run: seq<Event>, key: Bytes)
    requires key in Watched(run)
    ensures Written(run) == WrittenEarly(run, key) + WrittenSince(run, key)
  {
    if key in Watched(Init(run)) { WrittenSplits(Init(run), key); }
  }

  // A watched key was written since its own WATCH.
  ghost predicate Stale(run: seq<Event>) {
    exists k, r :: k in Watched(run) && r in WrittenSince(run, k) && RawToUserKey(r) == k
  }

  // A watched key was written after the first WATCH and before its own.
  ghost predicate TouchedEarly(run: seq<Event>) {
    exists k, r :: k in Watched(run) && r in WrittenEarly(run, k) && RawToUserKey(r) == k
  }

  lemma {:induction false} CleanMeans(run: seq<Event>)
    ensures Clean(run) <==> !Stale(run) && !TouchedEarly(run)
  {
    forall k | k in Watched(run)
      ensures forall r :: r in Written(run) <==> r in WrittenEarly(run, k) || r in WrittenSince(run, k)
    {
      WrittenSplits(run, k);
    }
  }

  // EXEC keeps the promise of WATCH, to replay exactly when no watched key was written
  // since its own WATCH, if and only if one was, or the backlog holds everything since
  // the first WATCH and no watched key was written between that and its own.
  lemma {:induction false} PromiseExactly(run: seq<Event>, max: nat)
    requires InMulti(run) && !Refused(run) && Watched(run) != {}
    ensures var r := Answer(SessionAfter(run), true, History(run), max);
            && (r == Nil || r == Replayed(Queued(run)))
            && ((r.Replayed? <==> !Stale(run)) <==> Stale(run) || (|Written(run)| <= max && !TouchedEarly(run)))
  {
    ReplaysExactly(run, true, max);
    CleanMeans(run);
  }

  // The converse fails: the mark is the first WATCH's, so a write to a key before its
  // own WATCH aborts as well.
  lemma {:induction false} AbortsTooOften(a: Bytes, b: Bytes, max: nat)
    requires a != b && max > 0
    ensures var run := [Watch([a]), Write(PREFIXES[4] + b), Watch([b]), Multi];
            && Answer(SessionAfter(run), true, History(run), max) == Nil
            && Watched(run) == {a, b} && TouchedEarly(run) && !Stale(run)
  {
    var raw := PREFIXES[4] + b;
    var r1 := [Watch([a])];
    var r2 := r1 + [Write(raw)];
    var r3 := r2 + [Watch([b])];
    var run := r3 + [Multi];
    assert run == [Watch([a]), Write(PREFIXES[4] + b), Watch([b]), Multi];
    StripUndoesPrefix(4, b);
    assert Init(r1) == [] && Init(r2) == r1 && Init(r3) == r2 && Init(run) == r3;
    assert Watched(r1) == {} + set k | k in [a];
    assert Watched(r1) == {a} && Written(r1) == [] && !InMulti(r1);
    assert Watched(r2) == {a} && Written(r2) == [raw] && !InMulti(r2);
    assert Watched(r3) == {a} + set k | k in [b];
    assert Watched(r3) == {a, b} && Written(r3) == [raw] && !InMulti(r3);
    assert Watched(run) == {a, b} && Written(run) == [raw] && InMulti(run);
    assert WrittenSince(r3, b) == [] && WrittenSince(run, b) == [];
    assert WrittenSince(r1, a) == [] && WrittenSince(r2, a) == [raw] && WrittenSince(run, a) == [raw];
    assert Last(r1).Watch? && Last(r2).Write? && Last(r3).Watch? && Last(run).Multi?;
    assert !Refused([]) && !Refused(r1);
    assert !Refused(r2);
    assert !Refused(r3);
    assert !Refused(run);
    assert WrittenEarly(r3, b) == [raw] && WrittenEarly(run, b) == [raw] && raw in WrittenEarly(run, b);
    PromiseExactly(run, max);
  }

  // A WATCH alone makes later commands queue, MULTI or not: a command runs at once only
  // for a connection without a session.
  lemma {:induction false} QueuesWithoutMulti(run: seq<Event>, cmd: Command)
    requires Watched(run) != {} && !InMulti(run)
    ensures var next := run + [Other(cmd, false)];
            && SessionAfter(run).Some? && SessionAfter(next).Some?
            && SessionAfter(next).value.queue == SessionAfter(run).value.queue + [cmd]
            && !InMulti(next) && Watched(next) == Watched(run)
  {
    var next := run + [Other(cmd, false)];
    assert Init(next) == run;
    SessionMeansRun(run);
  }
}
