/**
 * The vote protocol of a set of sentinels: requests and answers travel as messages
 * that may be lost, delayed, duplicated or reordered, every sentinel may stand for
 * election at any time, and outsiders may send vote requests of their own.
 *
 * Main result: `OneLeaderPerEpoch`.  When its condition fails is the subject of the
 * module `ElectionSplit`.
 */
module ElectionProtocol {
  import opened Election

  // `run` gives the run id of the sentinel behind each (normalised) address, `quorum`
  // the down votes that each is configured to ask for.
  datatype Config = Config(norm: Addr -> Addr, run: map<Addr, RunId>, quorum: Addr -> int)

  ghost predicate WellFormed(c: Config) {
    && (forall a <- c.run :: c.norm(a) == a && c.run[a] != "" && c.run[a] != NOBODY)
    && (forall a, b | a in c.run && b in c.run && c.run[a] == c.run[b] :: a == b)
  }

  datatype Msg =
    | Query(query: nat, from: Addr, to: Addr, epoch: nat, run: RunId)
    | Reply(query: nat, from: Addr, to: Addr, down: bool, leader: RunId)

  // Where a sentinel is in its periodic step: about to open a vote round, or
  // collecting the arrivals of one.  A step opens a second round for the same epoch
  // when the first one finds the master objectively down; it may also end after the
  // first one, as it does when the master was failed over recently or already replaced.
  datatype Phase =
    | Idle
    | Armed(epoch: nat, peers: seq<Addr>, second: bool)
    | Asking(epoch: nat, peers: seq<Addr>, second: bool, query: nat, selfGranted: bool, arrivals: seq<Arrival>)

  datatype Ballot = Ballot(voter: Addr, epoch: nat, run: RunId)

  // A passed majority test: the candidate, the sentinels it counted itself among,
  // and those whose vote it counted.
  datatype Win = Win(run: RunId, epoch: nat, members: set<Addr>, grantors: set<Addr>)

  // `cast` and `asked` only record history: every ballot granted, and the last epoch
  // each sentinel stood in.
  datatype State = State(
    votes: map<Addr, VoteState>,
    phase: map<Addr, Phase>,
    sent: set<Msg>,
    queries: nat,
    wins: set<Win>,
    cast: set<Ballot>,
    asked: map<Addr, nat>)

  // Epochs are 64-bit; a sentinel whose epoch is the largest one cannot go on.
  const MAX_EPOCH: nat := 0xFFFF_FFFF_FFFF_FFFF

  function Init(c: Config): State {
    State(map a | a in c.run :: FRESH, map a | a in c.run :: Idle, {}, 0, {}, {}, map a | a in c.run :: 0)
  }

  datatype Step =
    | Begin(x: Addr, known: seq<Addr>)
    | Open(x: Addr)
    | Handle(m: Msg, down: bool)
    | Outside(voter: Addr, epoch: nat, run: RunId)
    | Collect(x: Addr, m: Msg)
    | Again(x: Addr, sdown: bool)
    | Finish(x: Addr, sdown: bool)

  function Members(x: Addr, peers: seq<Addr>): set<Addr> {
    {x} + set p | p in peers
  }

  function Grantors(x: Addr, run: RunId, p: Phase): set<Addr>
    requires p.Asking?
  {
    Naming(p.arrivals, run) + if p.selfGranted then {x} else {}
  }

  predicate PassesTest(run: RunId, p: Phase)
    requires p.Asking?
  {
    HasMajority(Counted(p.arrivals, run) + (if p.selfGranted then 1 else 0), 1 + |p.peers|)
  }

  // The gate in front of both the second round and the majority test.
  predicate FoundDown(c: Config, x: Addr, p: Phase, sdown: bool)
    requires p.Asking?
  {
    ObjectivelyDown(c.quorum(x), DownVotes(p.arrivals), sdown)
  }

  // Sentinel `v` handles a vote request.
  function CastVote(s: State, v: Addr, epoch: nat, run: RunId): State
    requires v in s.votes
  {
    s.(votes := s.votes[v := Voted(s.votes[v], epoch, run)],
    cast := s.cast + if Grants(s.votes[v], epoch, run) then {Ballot(v, epoch, run)} else {})
  }

  predicate Enabled(c: Config, s: State, step: Step) {
    match step
    case Begin(x, known) =>
      && x in s.votes && x in s.phase && x in s.asked && s.phase[x].Idle?
      && s.votes[x].currentEpoch < MAX_EPOCH
    case Open(x) => x in s.votes && x in s.phase && x in c.run && s.phase[x].Armed?
    case Handle(m, down) => m in s.sent && m.Query? && m.to in s.votes
    case Outside(v, epoch, run) => v in s.votes && run !in c.run.Values && run != ""
    case Collect(x, m) =>
      && x in s.phase && s.phase[x].Asking? && m in s.sent && m.Reply?
      && m.to == x && m.query == s.phase[x].query && m.from in s.phase[x].peers
      && forall a <- s.phase[x].arrivals :: a.peer != m.from
    case Again(x, sdown) =>
      x in s.phase && s.phase[x].Asking? && !s.phase[x].second && FoundDown(c, x, s.phase[x], sdown)
    case Finish(x, _) =>
      x in s.phase && x in c.run && !s.phase[x].Idle? && (s.phase[x].Armed? ==> s.phase[x].second)
  }

  // One step; a step that is not enabled changes nothing.
  function Next(c: Config, s: State, step: Step): State {
    if !Enabled(c, s, step) then s else
    match step
    case Begin(x, known) =>
      var epoch := s.votes[x].currentEpoch + 1;
      s.(phase := s.phase[x := Armed(epoch, Peers(c.norm, known, x), false)], asked := s.asked[x := epoch])
    case Open(x) =>
      var p := s.phase[x];
      var t := CastVote(s, x, p.epoch, c.run[x]);
      t.(phase := t.phase[x := Asking(p.epoch, p.peers, p.second, s.queries,
                                      Grants(s.votes[x], p.epoch, c.run[x]), [])],
      sent := t.sent + set q | q in p.peers :: Query(s.queries, x, q, p.epoch, c.run[x]),
      queries := s.queries + 1)
    case Handle(m, down) =>
      CastVote(s, m.to, m.epoch, m.run)
      .(sent := s.sent + {Reply(m.query, m.to, m.from, down, Named(s.votes[m.to], m.epoch, m.run))})
    case Outside(v, epoch, run) => CastVote(s, v, epoch, run)
    case Collect(x, m) =>
      var p := s.phase[x];
      s.(phase := s.phase[x := p.(arrivals := p.arrivals + [Arrival(m.from, m.down, m.leader)])])
    case Again(x, _) =>
      var p := s.phase[x];
      s.(phase := s.phase[x := Armed(p.epoch, p.peers, true)])
    case Finish(x, sdown) =>
      var p := s.phase[x];
      s.(phase := s.phase[x := Idle],
      wins := s.wins + if p.Asking? && p.second && FoundDown(c, x, p, sdown) && PassesTest(c.run[x], p)
                       then {Win(c.run[x], p.epoch, Members(x, p.peers), Grantors(x, c.run[x], p))} else {})
  }

  function After(c: Config, s: State, steps: seq<Step>): State
    decreases |steps|
  {
    if steps == [] then s else After(c, Next(c, s, steps[0]), steps[1..])
  }

  function Run(c: Config, steps: seq<Step>): State {
    After(c, Init(c), steps)
  }

  // ---------------------------------------------------------------- invariants

  ghost predicate SameSentinels(c: Config, s: State) {
    s.votes.Keys == c.run.Keys && s.phase.Keys == c.run.Keys && s.asked.Keys == c.run.Keys
  }

  // A sentinel's vote state is its latest ballot.
  ghost predicate BallotOk(s: State, b: Ballot) {
    && b.voter in s.votes && b.run != "" && b.epoch <= s.votes[b.voter].currentEpoch
    && (b.epoch == s.votes[b.voter].currentEpoch ==> b.run == s.votes[b.voter].votedRunId)
  }

  ghost predicate VoterOk(s: State, v: Addr)
    requires v in s.votes
  {
    var st := s.votes[v];
    if st.votedRunId == "" then st == FRESH
    else st.votedEpoch == st.currentEpoch && Ballot(v, st.currentEpoch, st.votedRunId) in s.cast
  }

  // One ballot per voter and epoch.
  ghost predicate Agree(a: Ballot, b: Ballot) {
    a.voter == b.voter && a.epoch == b.epoch ==> a == b
  }

  ghost predicate Ballots(s: State) {
    && (forall b {:trigger BallotOk(s, b)} | b in s.cast :: BallotOk(s, b))
    && (forall v {:trigger VoterOk(s, v)} | v in s.votes :: VoterOk(s, v))
    && (forall a, b {:trigger Agree(a, b)} | a in s.cast && b in s.cast :: Agree(a, b))
  }

  // Nobody holds a ballot or a request of a sentinel for an epoch it has not stood in.
  ghost predicate NotAhead(c: Config, s: State, b: Ballot)
    requires SameSentinels(c, s)
  {
    forall x <- c.run | c.run[x] == b.run :: b.epoch <= s.asked[x]
  }

  ghost predicate QueryOk(c: Config, s: State, m: Msg)
    requires SameSentinels(c, s)
  {
    && m.query < s.queries
    && (m.Query? ==>
          && m.from in c.run && m.run == c.run[m.from] && m.epoch <= s.asked[m.from]
          && forall x <- c.run | s.phase[x].Asking? && s.phase[x].query == m.query ::
               x == m.from && s.phase[x].epoch == m.epoch)
  }

  // An answer to an open round that names the candidate is a ballot for the round's
  // own epoch, although the answer does not say for which epoch it was cast.
  ghost predicate AnswerOk(c: Config, s: State, m: Msg)
    requires SameSentinels(c, s)
  {
    m.Reply? && m.to in c.run && s.phase[m.to].Asking? && m.query == s.phase[m.to].query
    && m.leader == c.run[m.to] ==>
      Ballot(m.from, s.phase[m.to].epoch, m.leader) in s.cast
  }

  ghost predicate RoundOk(c: Config, s: State, x: Addr)
    requires SameSentinels(c, s) && x in c.run
  {
    var p := s.phase[x];
    match p
    case Idle => s.asked[x] <= s.votes[x].currentEpoch
    case Armed(epoch, peers, second) =>
      && epoch == s.asked[x] && (second ==> epoch <= s.votes[x].currentEpoch)
      && Distinct(peers) && x !in peers
    case Asking(epoch, peers, second, query, selfGranted, arrivals) =>
      && epoch == s.asked[x] && epoch <= s.votes[x].currentEpoch
      && Distinct(peers) && x !in peers && query < s.queries
      && OnePerPeer(arrivals) && (forall a <- arrivals :: a.peer in peers)
      && (forall g <- Grantors(x, c.run[x], p) :: Ballot(g, epoch, c.run[x]) in s.cast)
  }

  ghost predicate WinOk(s: State, w: Win) {
    && w.grantors <= w.members && 2 * |w.grantors| > |w.members|
    && forall g <- w.grantors :: Ballot(g, w.epoch, w.run) in s.cast
  }

  ghost predicate Invariant(c: Config, s: State) {
    && SameSentinels(c, s) && Ballots(s)
    && (forall b {:trigger NotAhead(c, s, b)} | b in s.cast :: NotAhead(c, s, b))
    && (forall m {:trigger QueryOk(c, s, m)} | m in s.sent :: QueryOk(c, s, m))
    && (forall m {:trigger AnswerOk(c, s, m)} | m in s.sent :: AnswerOk(c, s, m))
    && (forall x {:trigger RoundOk(c, s, x)} | x in c.run :: RoundOk(c, s, x))
    && (forall w {:trigger WinOk(s, w)} | w in s.wins :: WinOk(s, w))
  }

  // ---------------------------------------------------------------- preservation

  // Handling a request: later epochs only, one ballot an epoch, and an answer that
  // names the candidate is backed by a ballot of this epoch or of a later one.
  lemma {:induction false} CastKeepsBallots(s: State, v: Addr, epoch: nat, run: RunId)
    requires Ballots(s) && v in s.votes && run != ""
    ensures Ballots(CastVote(s, v, epoch, run))
    ensures CastVote(s, v, epoch, run).votes[v].currentEpoch >= s.votes[v].currentEpoch
    ensures CastVote(s, v, epoch, run).votes[v].currentEpoch >= epoch
    ensures Named(s.votes[v], epoch, run) == run ==>
              || Ballot(v, epoch, run) in CastVote(s, v, epoch, run).cast
              || (s.votes[v].currentEpoch > epoch && Ballot(v, s.votes[v].currentEpoch, run) in s.cast)
  {
    var t := CastVote(s, v, epoch, run);
    assert VoterOk(s, v);
    forall b | b in t.cast ensures BallotOk(t, b) {
      if b in s.cast { assert BallotOk(s, b); }
    }
    forall u | u in t.votes ensures VoterOk(t, u) {
      assert VoterOk(s, u);
    }
    forall a, b | a in t.cast && b in t.cast ensures Agree(a, b) {
      assert a in s.cast ==> BallotOk(s, a);
      assert b in s.cast ==> BallotOk(s, b);
      assert a in s.cast && b in s.cast ==> Agree(a, b);
    }
  }

  // What a step may do to leave an item's property alone: ballots, messages and
  // epochs only grow, and the item's own round is untouched.
  ghost predicate Grows(c: Config, s: State, t: State) {
    && SameSentinels(c, s) && SameSentinels(c, t)
    && s.cast <= t.cast && s.queries <= t.queries
    && (forall x <- c.run :: s.votes[x].currentEpoch <= t.votes[x].currentEpoch)
    && (forall x <- c.run :: s.asked[x] <= t.asked[x])
  }

  ghost predicate FreshOrSame(c: Config, s: State, t: State, x: Addr)
    requires SameSentinels(c, s) && SameSentinels(c, t) && x in c.run
  {
    t.phase[x].Asking? ==>
      || t.phase[x].query >= s.queries
      || (s.phase[x].Asking? && s.phase[x].query == t.phase[x].query && s.phase[x].epoch == t.phase[x].epoch)
  }

  // A round that is untouched stays backed.
  lemma {:induction false} RoundKept(c: Config, s: State, t: State, x: Addr)
    requires Grows(c, s, t) && x in c.run && RoundOk(c, s, x)
    requires t.phase[x] == s.phase[x] && t.asked[x] == s.asked[x]
    ensures RoundOk(c, t, x)
  {
  }

  // Messages stay in order when rounds close, or reopen under a fresh number.
  lemma {:induction false} MessageKept(c: Config, s: State, t: State, m: Msg)
    requires Grows(c, s, t) && QueryOk(c, s, m) && AnswerOk(c, s, m)
    requires forall x {:trigger FreshOrSame(c, s, t, x)} | x in c.run :: FreshOrSame(c, s, t, x)
    ensures QueryOk(c, t, m) && AnswerOk(c, t, m)
  {
    forall x | x in c.run && t.phase[x].Asking? && t.phase[x].query == m.query
      ensures s.phase[x].Asking? && s.phase[x].query == m.query && s.phase[x].epoch == t.phase[x].epoch
    {
      assert FreshOrSame(c, s, t, x);
    }
  }

  lemma {:induction false} Kept(c: Config, s: State, t: State, x: Addr)
    requires Invariant(c, s) && Grows(c, s, t) && Ballots(t)
    requires forall b <- t.cast - s.cast :: NotAhead(c, t, b)
    requires forall y <- c.run | y != x :: t.phase[y] == s.phase[y] && t.asked[y] == s.asked[y]
    requires x in c.run ==> RoundOk(c, t, x)
    requires forall y {:trigger FreshOrSame(c, s, t, y)} | y in c.run :: FreshOrSame(c, s, t, y)
    requires forall m <- t.sent - s.sent :: QueryOk(c, t, m) && AnswerOk(c, t, m)
    requires forall w <- t.wins - s.wins :: WinOk(t, w)
    ensures Invariant(c, t)
  {
    forall b | b in t.cast ensures NotAhead(c, t, b) {
      if b in s.cast { assert NotAhead(c, s, b); } else { assert b in t.cast - s.cast; }
    }
    forall m | m in t.sent ensures QueryOk(c, t, m) && AnswerOk(c, t, m) {
      if m in s.sent {
        assert QueryOk(c, s, m) && AnswerOk(c, s, m);
        MessageKept(c, s, t, m);
      } else {
        assert m in t.sent - s.sent;
      }
    }
    forall y | y in c.run ensures RoundOk(c, t, y) {
      if y != x { assert RoundOk(c, s, y); RoundKept(c, s, t, y); }
    }
    forall w | w in t.wins ensures WinOk(t, w) {
      if w in s.wins { assert WinOk(s, w); } else { assert w in t.wins - s.wins; }
    }
  }

  lemma {:induction false} SameBallots(s: State, t: State)
    requires Ballots(s) && t.votes == s.votes && t.cast == s.cast
    ensures Ballots(t)
  {
    forall b | b in t.cast ensures BallotOk(t, b) { assert BallotOk(s, b); }
    forall v | v in t.votes ensures VoterOk(t, v) { assert VoterOk(s, v); }
    forall a, b | a in t.cast && b in t.cast ensures Agree(a, b) { assert a in s.cast && b in s.cast; }
  }

  lemma {:induction false} PeersDistinct(c: Config, x: Addr, known: seq<Addr>)
    requires WellFormed(c) && x in c.run
    ensures Distinct(Peers(c.norm, known, x)) && x !in Peers(c.norm, known, x)
  {
    FirstUnseenIsTheRest(c.norm, {c.norm(x)}, known);
    assert x !in set a | a in Peers(c.norm, known, x);
  }

  lemma {:induction false} BeginKeeps(c: Config, s: State, x: Addr, known: seq<Addr>)
    requires WellFormed(c) && Invariant(c, s) && Enabled(c, s, Begin(x, known))
    ensures Invariant(c, Next(c, s, Begin(x, known)))
  {
    PeersDistinct(c, x, known);
    assert RoundOk(c, s, x);
    StandsKept(c, s, Next(c, s, Begin(x, known)), x, Peers(c.norm, known, x), s.votes[x].currentEpoch + 1);
  }

  // A sentinel that stands for a later epoch.
  lemma {:induction false} StandsKept(c: Config, s: State, t: State, x: Addr, peers: seq<Addr>, epoch: nat)
    requires Invariant(c, s) && x in c.run && s.asked[x] <= epoch && Distinct(peers) && x !in peers
    requires t == s.(phase := s.phase[x := Armed(epoch, peers, false)], asked := s.asked[x := epoch])
    ensures Invariant(c, t)
  {
    SameBallots(s, t);
    assert t.cast - s.cast == {} && t.sent - s.sent == {} && t.wins - s.wins == {};
    Kept(c, s, t, x);
  }

  // A sentinel that handles a request of roster or outside origin.
  lemma {:induction false} CastKeeps(c: Config, s: State, v: Addr, epoch: nat, run: RunId)
    requires WellFormed(c) && Invariant(c, s) && v in s.votes && run != ""
    requires forall x <- c.run | c.run[x] == run :: epoch <= s.asked[x]
    ensures Invariant(c, CastVote(s, v, epoch, run))
  {
    var t := CastVote(s, v, epoch, run);
    CastKeepsBallots(s, v, epoch, run);
    forall b | b in t.cast - s.cast ensures NotAhead(c, t, b) {
      assert b == Ballot(v, epoch, run);
    }
    assert t.sent - s.sent == {} && t.wins - s.wins == {};
    assert RoundOk(c, s, v);
    RoundKept(c, s, t, v);
    Kept(c, s, t, v);
  }

  lemma {:induction false} NewQueryOk(c: Config, s: State, t: State, x: Addr, m: Msg)
    requires SameSentinels(c, s) && SameSentinels(c, t) && x in c.run && t.phase[x].Asking?
    requires forall y {:trigger RoundOk(c, s, y)} | y in c.run :: RoundOk(c, s, y)
    requires forall y <- c.run | y != x :: t.phase[y] == s.phase[y]
    requires s.queries < t.queries && t.phase[x].epoch == t.asked[x]
    requires m.Query? && m.query == s.queries && m.from == x && m.run == c.run[x] && m.epoch == t.phase[x].epoch
    ensures QueryOk(c, t, m) && AnswerOk(c, t, m)
  {
    forall y | y in c.run && t.phase[y].Asking? && t.phase[y].query == m.query ensures y == x {
      assert RoundOk(c, s, y);
    }
  }

  // A round opens under a fresh number, with the sentinel's own vote.
  lemma {:induction false} RoundOpens(c: Config, s: State, t: State, x: Addr, self: bool)
    requires Invariant(c, s) && x in c.run && s.phase[x].Armed?
    requires s.phase[x].epoch <= s.votes[x].currentEpoch
    requires self ==> Ballot(x, s.phase[x].epoch, c.run[x]) in s.cast
    requires var p := s.phase[x];
             t == s.(phase := s.phase[x := Asking(p.epoch, p.peers, p.second, s.queries, self, [])],
             sent := s.sent + set q | q in p.peers :: Query(s.queries, x, q, p.epoch, c.run[x]),
             queries := s.queries + 1)
    ensures Invariant(c, t)
  {
    assert RoundOk(c, s, x);
    SameBallots(s, t);
    forall m | m in t.sent - s.sent ensures QueryOk(c, t, m) && AnswerOk(c, t, m) {
      NewQueryOk(c, s, t, x, m);
    }
    assert t.wins - s.wins == {} && t.cast - s.cast == {};
    assert RoundOk(c, t, x);
    Kept(c, s, t, x);
  }

  lemma {:induction false} OpenKeeps(c: Config, s: State, x: Addr)
    requires WellFormed(c) && Invariant(c, s) && Enabled(c, s, Open(x))
    ensures Invariant(c, Next(c, s, Open(x)))
  {
    var p := s.phase[x];
    assert RoundOk(c, s, x);
    CastKeepsBallots(s, x, p.epoch, c.run[x]);
    CastKeeps(c, s, x, p.epoch, c.run[x]);
    RoundOpens(c, CastVote(s, x, p.epoch, c.run[x]), Next(c, s, Open(x)), x, Grants(s.votes[x], p.epoch, c.run[x]));
  }

  lemma {:induction false} HandleKeeps(c: Config, s: State, m: Msg, down: bool)
    requires WellFormed(c) && Invariant(c, s) && Enabled(c, s, Handle(m, down))
    ensures Invariant(c, Next(c, s, Handle(m, down)))
  {
    assert QueryOk(c, s, m);
    var u := CastVote(s, m.to, m.epoch, m.run);
    CastKeeps(c, s, m.to, m.epoch, m.run);
    CastKeepsBallots(s, m.to, m.epoch, m.run);
    var t := Next(c, s, Handle(m, down));
    var reply := Reply(m.query, m.to, m.from, down, Named(s.votes[m.to], m.epoch, m.run));
    assert t == u.(sent := u.sent + {reply});
    // While the candidate's round is open, no later ballot for it can exist.
    assert RoundOk(c, s, m.from);
    var late := Ballot(m.to, s.votes[m.to].currentEpoch, m.run);
    assert late in s.cast ==> NotAhead(c, s, late);
    assert AnswerOk(c, t, reply);
    RestKept(c, u, t, reply);
  }

  // Adding one message.
  lemma {:induction false} RestKept(c: Config, u: State, t: State, reply: Msg)
    requires Invariant(c, u) && t == u.(sent := u.sent + {reply})
    requires reply.Reply? && reply.query < u.queries && AnswerOk(c, t, reply)
    ensures Invariant(c, t)
  {
    assert QueryOk(c, t, reply);
    SameBallots(u, t);
    forall m | m in t.sent - u.sent ensures QueryOk(c, t, m) && AnswerOk(c, t, m) { assert m == reply; }
    assert t.wins - u.wins == {} && t.cast - u.cast == {};
    if x :| x in c.run {
      assert RoundOk(c, u, x);
      RoundKept(c, u, t, x);
      Kept(c, u, t, x);
    } else {
      Kept(c, u, t, "");
    }
  }

  // Steps that only move one sentinel's phase forward.
  lemma {:induction false} PhaseKeeps(c: Config, s: State, t: State, x: Addr, p: Phase, wins: set<Win>)
    requires Invariant(c, s) && x in c.run
    requires t == s.(phase := s.phase[x := p], wins := wins)
    requires s.wins <= wins && forall w <- wins - s.wins :: WinOk(t, w)
    requires p.Asking? ==> s.phase[x].Asking? && s.phase[x].query == p.query && s.phase[x].epoch == p.epoch
    requires RoundOk(c, t, x)
    ensures Invariant(c, t)
  {
    SameBallots(s, t);
    assert t.sent - s.sent == {} && t.cast - s.cast == {};
    Kept(c, s, t, x);
  }

  lemma {:induction false} CollectKeeps(c: Config, s: State, x: Addr, m: Msg)
    requires WellFormed(c) && Invariant(c, s) && Enabled(c, s, Collect(x, m))
    ensures Invariant(c, Next(c, s, Collect(x, m)))
  {
    var p := s.phase[x];
    var a := Arrival(m.from, m.down, m.leader);
    var q := p.(arrivals := p.arrivals + [a]);
    var t := Next(c, s, Collect(x, m));
    assert RoundOk(c, s, x) && AnswerOk(c, s, m);
    assert t.wins - s.wins == {};
    ArrivalKept(c, s, t, x, a);
    PhaseKeeps(c, s, t, x, q, s.wins);
  }

  // One more arrival, backed by a ballot if it names the candidate.
  lemma {:induction false} ArrivalKept(c: Config, s: State, t: State, x: Addr, a: Arrival)
    requires SameSentinels(c, s) && x in c.run && RoundOk(c, s, x) && s.phase[x].Asking?
    requires t == s.(phase := s.phase[x := s.phase[x].(arrivals := s.phase[x].arrivals + [a])])
    requires a.peer in s.phase[x].peers && forall b <- s.phase[x].arrivals :: b.peer != a.peer
    requires a.leader == c.run[x] ==> Ballot(a.peer, s.phase[x].epoch, c.run[x]) in s.cast
    ensures RoundOk(c, t, x)
  {
    NamingSnoc(s.phase[x].arrivals, a, c.run[x]);
  }

  // Passing the test means a majority of the members cast their ballot for the winner.
  lemma {:induction false} TestMeansMajority(c: Config, s: State, x: Addr)
    requires SameSentinels(c, s) && x in c.run && RoundOk(c, s, x)
    requires s.phase[x].Asking? && PassesTest(c.run[x], s.phase[x])
    ensures var p := s.phase[x];
            WinOk(s, Win(c.run[x], p.epoch, Members(x, p.peers), Grantors(x, c.run[x], p)))
  {
    var p := s.phase[x];
    CountedIsVoters(p.arrivals, c.run[x]);
    DistinctSize(p.peers);
    assert Naming(p.arrivals, c.run[x]) <= set q | q in p.peers;
    assert x !in set q | q in p.peers;
  }

  lemma {:induction false} FinishKeeps(c: Config, s: State, x: Addr, sdown: bool)
    requires WellFormed(c) && Invariant(c, s) && Enabled(c, s, Finish(x, sdown))
    ensures Invariant(c, Next(c, s, Finish(x, sdown)))
  {
    var p := s.phase[x];
    var t := Next(c, s, Finish(x, sdown));
    assert RoundOk(c, s, x);
    forall w | w in t.wins - s.wins ensures WinOk(t, w) {
      TestMeansMajority(c, s, x);
      assert WinOk(s, w);
    }
    PhaseKeeps(c, s, t, x, Idle, t.wins);
  }

  lemma {:induction false} DistinctSize(s: seq<Addr>)
    requires Distinct(s)
    ensures |set a | a in s| == |s|
  {
    if s != [] {
      var init, last := s[..|s| - 1], s[|s| - 1];
      DistinctSize(init);
      assert (set a | a in s) == (set a | a in init) + {last};
    }
  }

  lemma {:induction false} StepKeeps(c: Config, s: State, step: Step)
    requires WellFormed(c) && Invariant(c, s)
    ensures Invariant(c, Next(c, s, step))
  {
    if Enabled(c, s, step) {
      match step
      case Begin(x, known) => BeginKeeps(c, s, x, known);
      case Open(x) => OpenKeeps(c, s, x);
      case Handle(m, down) => HandleKeeps(c, s, m, down);
      case Outside(v, epoch, run) => CastKeeps(c, s, v, epoch, run);
      case Collect(x, m) => CollectKeeps(c, s, x, m);
      case Again(x, sdown) =>
        var t := Next(c, s, Again(x, sdown));
        assert RoundOk(c, s, x);
        assert t.wins - s.wins == {};
        PhaseKeeps(c, s, t, x, t.phase[x], s.wins);
      case Finish(x, sdown) => FinishKeeps(c, s, x, sdown);
    }
  }

  lemma {:induction false} InitOk(c: Config)
    ensures Invariant(c, Init(c)) && RosterOk(c, Init(c))
  {
    assert forall x <- c.run :: RoundOk(c, Init(c), x) && VoterOk(Init(c), x);
  }

  lemma {:induction false} AfterKeeps(c: Config, s: State, steps: seq<Step>)
    requires WellFormed(c) && Invariant(c, s)
    ensures Invariant(c, After(c, s, steps))
    decreases |steps|
  {
    if steps != [] {
      StepKeeps(c, s, steps[0]);
      AfterKeeps(c, Next(c, s, steps[0]), steps[1..]);
    }
  }

  // ---------------------------------------------------------------- one leader

  // Two member lists whose majorities always share a sentinel.
  ghost predicate Overlap(a: set<Addr>, b: set<Addr>) {
    |a| / 2 + |b| / 2 + 2 > |a + b|
  }

  ghost predicate Majority(g: set<Addr>, members: set<Addr>) {
    g <= members && 2 * |g| > |members|
  }

  lemma {:induction false} MajoritiesMeet(a: set<Addr>, b: set<Addr>, g: set<Addr>, h: set<Addr>)
    requires Overlap(a, b) && Majority(g, a) && Majority(h, b)
    ensures g * h != {}
  {
    if g * h == {} {
      assert |g + h| == |g| + |h|;
      SubsetSize(g + h, a + b);
      assert false;
    }
  }

  lemma {:induction false} SubsetSize(a: set<Addr>, b: set<Addr>)
    requires a <= b
    ensures |a| <= |b|
  {
    assert b == a + (b - a);
  }

  // In every run, for every master and epoch, two candidates that both pass the
  // majority test over overlapping member lists are the same sentinel.
  lemma {:induction false} OneLeaderPerEpoch(c: Config, steps: seq<Step>, w1: Win, w2: Win)
    requires WellFormed(c)
    requires w1 in Run(c, steps).wins && w2 in Run(c, steps).wins
    requires w1.epoch == w2.epoch && Overlap(w1.members, w2.members)
    ensures w1.run == w2.run
  {
    var s := Run(c, steps);
    InitOk(c);
    AfterKeeps(c, Init(c), steps);
    assert WinOk(s, w1) && WinOk(s, w2);
    MajoritiesMeet(w1.members, w2.members, w1.grantors, w2.grantors);
    var g :| g in w1.grantors * w2.grantors;
    assert Agree(Ballot(g, w1.epoch, w1.run), Ballot(g, w2.epoch, w2.run));
  }

  // ---------------------------------------------------------------- full knowledge

  // Every election is held by a sentinel that knows the whole roster.
  ghost predicate KnowsAll(c: Config, steps: seq<Step>) {
    forall step <- steps | step.Begin? && step.x in c.run ::
      Normals(c.norm, step.known) + {step.x} == c.run.Keys
  }

  ghost predicate RosterOk(c: Config, s: State) {
    && (forall w <- s.wins :: w.members == c.run.Keys)
    && (forall x <- s.phase | !s.phase[x].Idle? :: Members(x, s.phase[x].peers) == c.run.Keys)
  }

  lemma {:induction false} StepKeepsRoster(c: Config, s: State, step: Step)
    requires WellFormed(c) && SameSentinels(c, s) && RosterOk(c, s) && KnowsAll(c, [step])
    ensures RosterOk(c, Next(c, s, step))
  {
    if Enabled(c, s, step) && step.Begin? {
      assert step in [step];
      FirstUnseenIsTheRest(c.norm, {c.norm(step.x)}, step.known);
      assert Members(step.x, Peers(c.norm, step.known, step.x)) == c.run.Keys;
    } else {
      PeersStay(c, s, step);
    }
  }

  // Only a new election brings a new peer list.
  lemma {:induction false} PeersStay(c: Config, s: State, step: Step)
    requires !step.Begin? || !Enabled(c, s, step)
    ensures var t := Next(c, s, step);
            forall x <- t.phase | !t.phase[x].Idle? ::
              x in s.phase && !s.phase[x].Idle? && t.phase[x].peers == s.phase[x].peers
    ensures forall w <- Next(c, s, step).wins - s.wins ::
              exists x <- s.phase :: !s.phase[x].Idle? && w.members == Members(x, s.phase[x].peers)
  {
    match step
    case Finish(x, _) =>
      if Enabled(c, s, step) { assert x in s.phase; }
    case _ =>
  }

  lemma {:induction false} MembersAreTheRoster(c: Config, s: State, steps: seq<Step>)
    requires WellFormed(c) && Invariant(c, s) && RosterOk(c, s) && KnowsAll(c, steps)
    ensures RosterOk(c, After(c, s, steps))
    decreases |steps|
  {
    if steps != [] {
      StepKeepsRoster(c, s, steps[0]);
      StepKeeps(c, s, steps[0]);
      MembersAreTheRoster(c, Next(c, s, steps[0]), steps[1..]);
    }
  }

  // Over a roster that everyone knows in full, an epoch has at most one leader.
  lemma {:induction false} OneLeaderWhenAllKnown(c: Config, steps: seq<Step>, w1: Win, w2: Win)
    requires WellFormed(c) && KnowsAll(c, steps)
    requires w1 in Run(c, steps).wins && w2 in Run(c, steps).wins && w1.epoch == w2.epoch
    ensures w1.run == w2.run
  {
    InitOk(c);
    MembersAreTheRoster(c, Init(c), steps);
    assert w1.members + w2.members == c.run.Keys;
    OneLeaderPerEpoch(c, steps, w1, w2);
  }

  // ---------------------------------------------------------------- partial knowledge

  // Without overlap there are majorities that share nobody, so `Overlap` is exact.
  lemma {:induction false} OverlapIsExact(a: set<Addr>, b: set<Addr>)
    requires a != {} && b != {}
    ensures Overlap(a, b) <==> forall g, h | Majority(g, a) && Majority(h, b) :: g * h != {}
  {
    if Overlap(a, b) {
      forall g, h | Majority(g, a) && Majority(h, b) ensures g * h != {} { MajoritiesMeet(a, b, g, h); }
    } else {
      var g, h := DisjointMajorities(a, b);
      assert Majority(g, a) && Majority(h, b);
    }
  }

  lemma {:induction false} DisjointMajorities(a: set<Addr>, b: set<Addr>) returns (g: set<Addr>, h: set<Addr>)
    requires a != {} && b != {} && !Overlap(a, b)
    ensures Majority(g, a) && Majority(h, b) && g * h == {}
  {
    var onlyA, both := a - b, a * b;
    assert a == onlyA + both && a + b == onlyA + b;
    if |onlyA| >= |a| / 2 + 1 {
      g, h := onlyA, b;
    } else {
      var extra := SubsetOfSize(both, |a| / 2 + 1 - |onlyA|);
      g, h := onlyA + extra, b - extra;
      assert b == h + extra;
    }
  }

  lemma {:induction false} SubsetOfSize(s: set<Addr>, n: nat) returns (t: set<Addr>)
    requires n <= |s|
    ensures t <= s && |t| == n
  {
    if n == 0 {
      t := {};
    } else {
      var x :| x in s;
      t := SubsetOfSize(s - {x}, n - 1);
      t := t + {x};
    }
  }

  lemma {:induction false} AfterAppend(c: Config, s: State, first: seq<Step>, second: seq<Step>)
    ensures After(c, s, first + second) == After(c, After(c, s, first), second)
    decreases |first|
  {
    if first == [] {
      assert first + second == second;
    } else {
      assert (first + second)[1..] == first[1..] + second;
      AfterAppend(c, Next(c, s, first[0]), first[1..], second);
    }
  }

  // ---------------------------------------------------------------- the quorum

  // The winner's quorum is within its member list.
  ghost predicate Reached(c: Config, w: Win) {
    exists x <- c.run :: c.run[x] == w.run && Quorum(c.quorum(x)) <= |w.members|
  }

  ghost predicate AllReached(c: Config, s: State) {
    forall w <- s.wins :: Reached(c, w)
  }

  lemma {:induction false} OnlyFinishWins(c: Config, s: State, step: Step)
    requires !step.Finish?
    ensures Next(c, s, step).wins == s.wins
  {
  }

  lemma {:induction false} FinishReaches(c: Config, s: State, x: Addr, sdown: bool)
    requires SameSentinels(c, s) && x in c.run && RoundOk(c, s, x) && Enabled(c, s, Finish(x, sdown))
    ensures forall w <- Next(c, s, Finish(x, sdown)).wins - s.wins :: Reached(c, w)
  {
    var p := s.phase[x];
    if p.Asking? && FoundDown(c, x, p, sdown) {
      var peers := set q | q in p.peers;
      QuorumReachable(c.quorum(x), peers, p.arrivals, sdown);
      assert Members(x, p.peers) == peers + {x} && x !in peers;
    }
  }

  lemma {:induction false} StepReaches(c: Config, s: State, step: Step)
    requires WellFormed(c) && Invariant(c, s) && AllReached(c, s)
    ensures AllReached(c, Next(c, s, step))
  {
    if !step.Finish? {
      OnlyFinishWins(c, s, step);
    } else if Enabled(c, s, step) {
      assert RoundOk(c, s, step.x);
      FinishReaches(c, s, step.x, step.sdown);
      assert forall w <- Next(c, s, step).wins | w !in s.wins :: w in Next(c, s, step).wins - s.wins;
    }
  }

  lemma {:induction false} AfterReaches(c: Config, s: State, steps: seq<Step>)
    requires WellFormed(c) && Invariant(c, s) && AllReached(c, s)
    ensures AllReached(c, After(c, s, steps))
    decreases |steps|
  {
    if steps != [] {
      StepReaches(c, s, steps[0]);
      StepKeeps(c, s, steps[0]);
      AfterReaches(c, Next(c, s, steps[0]), steps[1..]);
    }
  }

  // In every run, whoever passes the test has a quorum within its own member list.
  lemma {:induction false} WinnersReachQuorum(c: Config, steps: seq<Step>, x: Addr, w: Win)
    requires WellFormed(c) && x in c.run && w in Run(c, steps).wins && w.run == c.run[x]
    ensures Quorum(c.quorum(x)) <= |w.members|
  {
    InitOk(c);
    AfterReaches(c, Init(c), steps);
    assert Reached(c, w);
  }
}
