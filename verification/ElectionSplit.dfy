/**
 * When two sentinels can win the same epoch.  The majority test counts the peers that
 * a sentinel knows of, so whether an epoch can have two leaders depends on the member
 * lists of the candidates, and on the quorums they are configured with.
 *
 * Main result: `TwoLeadersExactly`.
 */
module ElectionSplit {
  import opened Election
  import opened ElectionProtocol

  ghost predicate WinsIn(c: Config, steps: seq<Step>, x: Addr, epoch: nat, members: set<Addr>)
    requires x in c.run
  {
    exists g :: Win(c.run[x], epoch, members, g) in Run(c, steps).wins
  }

  // Some run has both win one epoch, each over its own member list.
  ghost predicate CanBothWin(c: Config, a: Addr, membersA: set<Addr>, b: Addr, membersB: set<Addr>)
    requires a in c.run && b in c.run
  {
    exists steps, epoch :: WinsIn(c, steps, a, epoch, membersA) && WinsIn(c, steps, b, epoch, membersB)
  }

  lemma {:induction false} AfterCons(c: Config, s: State, step: Step, rest: seq<Step>)
    ensures After(c, s, [step] + rest) == After(c, Next(c, s, step), rest)
  {
    assert ([step] + rest)[1..] == rest;
  }

  // ---------------------------------------------------------------- voting

  // A vote in epoch 1.
  function For(run: RunId): VoteState { VoteState(1, 1, run) }

  // Everyone in `members` has voted in epoch 1.
  ghost predicate Decided(s: State, members: set<Addr>) {
    forall p <- members :: p in s.votes && s.votes[p] == For(s.votes[p].votedRunId) && s.votes[p].votedRunId != ""
  }

  // Only votes, messages and ballots may differ.
  ghost predicate OnlyVotes(s: State, t: State) {
    && t.phase == s.phase && t.queries == s.queries && t.wins == s.wins && s.sent <= t.sent
    && t.votes.Keys == s.votes.Keys && t.asked == s.asked
  }

  lemma {:induction false} VoteFresh(c: Config, s: State, x: Addr, query: nat, run: RunId, p: Addr)
    requires p in s.votes && s.votes[p] == FRESH && Query(query, x, p, 1, run) in s.sent
    ensures var t := Next(c, s, Handle(Query(query, x, p, 1, run), true));
            OnlyVotes(s, t) && t.votes == s.votes[p := For(run)]
  {
  }

  // The sentinels in `ps`, none of which has voted yet, all vote for the sender.
  lemma {:induction false} VoteAll(c: Config, s: State, x: Addr, query: nat, run: RunId, ps: seq<Addr>)
    returns (steps: seq<Step>)
    requires Distinct(ps)
    requires forall p <- ps :: p in s.votes && s.votes[p] == FRESH && Query(query, x, p, 1, run) in s.sent
    ensures var t := After(c, s, steps);
            OnlyVotes(s, t) && forall p <- t.votes :: t.votes[p] == if p in ps then For(run) else s.votes[p]
    decreases |ps|
  {
    if ps == [] {
      steps := [];
    } else {
      var p, step := ps[0], Handle(Query(query, x, ps[0], 1, run), true);
      VoteFresh(c, s, x, query, run, p);
      assert ps == [p] + ps[1..] && p !in ps[1..];
      var rest := VoteAll(c, Next(c, s, step), x, query, run, ps[1..]);
      steps := [step] + rest;
      AfterCons(c, s, step, rest);
    }
  }

  // ---------------------------------------------------------------- a whole round

  function Answers(votes: map<Addr, VoteState>, peers: seq<Addr>): seq<Arrival>
    requires forall p <- peers :: p in votes
  {
    seq(|peers|, i requires 0 <= i < |peers| => Arrival(peers[i], true, votes[peers[i]].votedRunId))
  }

  // A sentinel that has voted in the epoch answers with its vote, and keeps it.
  lemma {:induction false} AskOne(c: Config, s: State, x: Addr, p: Addr)
    requires x in s.phase && s.phase[x].Asking? && p in s.phase[x].peers && Decided(s, {p})
    requires forall a <- s.phase[x].arrivals :: a.peer != p
    requires x in c.run && c.run[x] != "" && Query(s.phase[x].query, x, p, 1, c.run[x]) in s.sent
    ensures var q := s.phase[x];
            var m := Query(q.query, x, p, 1, c.run[x]);
            var reply := Reply(q.query, p, x, true, s.votes[p].votedRunId);
            var t := Next(c, Next(c, s, Handle(m, true)), Collect(x, reply));
            && t.votes == s.votes && t.wins == s.wins && t.queries == s.queries && s.sent <= t.sent
            && t.phase == s.phase[x := q.(arrivals := q.arrivals + [Arrival(p, true, s.votes[p].votedRunId)])]
  {
    var q := s.phase[x];
    var m := Query(q.query, x, p, 1, c.run[x]);
    var u := Next(c, s, Handle(m, true));
    assert p in {p} && s.votes[p] == For(s.votes[p].votedRunId);
    assert Named(s.votes[p], 1, c.run[x]) == s.votes[p].votedRunId;
    assert Voted(s.votes[p], 1, c.run[x]) == s.votes[p];
    assert u.votes == s.votes && u.phase == s.phase;
  }

  lemma {:induction false} AskAll(c: Config, s: State, x: Addr, i: nat) returns (steps: seq<Step>)
    requires x in c.run && c.run[x] != "" && x in s.phase && s.phase[x].Asking?
    requires Distinct(s.phase[x].peers) && i <= |s.phase[x].peers|
    requires Decided(s, set p | p in s.phase[x].peers)
    requires forall p <- s.phase[x].peers :: p in s.votes && Query(s.phase[x].query, x, p, 1, c.run[x]) in s.sent
    requires s.phase[x].arrivals == Answers(s.votes, s.phase[x].peers[..i])
    ensures var t := After(c, s, steps);
            && t.votes == s.votes && t.wins == s.wins && t.queries == s.queries && s.sent <= t.sent
            && t.phase == s.phase[x := s.phase[x].(arrivals := Answers(s.votes, s.phase[x].peers))]
    decreases |s.phase[x].peers| - i
  {
    var q := s.phase[x];
    if i == |q.peers| {
      steps := [];
      assert q.peers[..i] == q.peers;
      assert s.phase == s.phase[x := q];
    } else {
      var p := q.peers[i];
      assert Decided(s, {p});
      assert forall k | 0 <= k < i :: q.arrivals[k].peer == q.peers[k];
      AskOne(c, s, x, p);
      var first := Handle(Query(q.query, x, p, 1, c.run[x]), true);
      var second := Collect(x, Reply(q.query, p, x, true, s.votes[p].votedRunId));
      var t := Next(c, Next(c, s, first), second);
      assert Answers(s.votes, q.peers[..i + 1])
          == Answers(s.votes, q.peers[..i]) + [Arrival(p, true, s.votes[p].votedRunId)];
      var rest := AskAll(c, t, x, i + 1);
      steps := [first] + ([second] + rest);
      AfterCons(c, s, first, [second] + rest);
      AfterCons(c, Next(c, s, first), second, rest);
    }
  }

  // A sentinel that has voted opens a round: it is its own voter or not, by that vote.
  lemma {:induction false} OpenDecided(c: Config, s: State, x: Addr)
    requires x in c.run && x in s.phase && s.phase[x].Armed? && s.phase[x].epoch == 1 && Decided(s, {x})
    ensures var q, t := s.phase[x], Next(c, s, Open(x));
            && t.votes == s.votes && t.wins == s.wins && s.sent <= t.sent
            && t.phase == s.phase[x := Asking(1, q.peers, q.second, s.queries, s.votes[x].votedRunId == c.run[x], [])]
            && forall p <- q.peers :: Query(s.queries, x, p, 1, c.run[x]) in t.sent
  {
    assert x in {x} && s.votes[x] == For(s.votes[x].votedRunId);
    assert Grants(s.votes[x], 1, c.run[x]) == (s.votes[x].votedRunId == c.run[x]);
    assert Voted(s.votes[x], 1, c.run[x]) == s.votes[x];
  }

  // ---------------------------------------------------------------- winning

  lemma {:induction false} AllDown(votes: map<Addr, VoteState>, peers: seq<Addr>)
    requires forall p <- peers :: p in votes
    ensures DownVotes(Answers(votes, peers)) == |peers|
  {
    if peers != [] {
      var init := peers[..|peers| - 1];
      AllDown(votes, init);
      assert Answers(votes, peers)[..|peers| - 1] == Answers(votes, init);
    }
  }

  function Backers(votes: map<Addr, VoteState>, members: set<Addr>, run: RunId): set<Addr> {
    set p | p in members && p in votes && votes[p].votedRunId == run
  }

  // The counted votes are the members that voted for the candidate.
  lemma {:induction false} CountedAreBackers(votes: map<Addr, VoteState>, x: Addr, run: RunId, p: Phase)
    requires p.Asking? && Distinct(p.peers) && x !in p.peers && x in votes
    requires (forall q <- p.peers :: q in votes) && p.arrivals == Answers(votes, p.peers)
    requires p.selfGranted == (votes[x].votedRunId == run)
    ensures Grantors(x, run, p) == Backers(votes, Members(x, p.peers), run)
    ensures Counted(p.arrivals, run) + (if p.selfGranted then 1 else 0) == |Grantors(x, run, p)|
    ensures |Members(x, p.peers)| == 1 + |p.peers|
  {
    assert OnePerPeer(p.arrivals);
    CountedIsVoters(p.arrivals, run);
    DistinctSize(p.peers);
    assert Members(x, p.peers) == (set q | q in p.peers) + {x};
    NamingIs(votes, p.peers, run);
    BackersOneMore(votes, (set q | q in p.peers), x, run);
  }

  lemma {:induction false} BackersOneMore(votes: map<Addr, VoteState>, peers: set<Addr>, x: Addr, run: RunId)
    requires x in votes
    ensures Backers(votes, peers + {x}, run) == Backers(votes, peers, run) + if votes[x].votedRunId == run then {x}
            else {}
  {
  }

  lemma {:induction false} NamingIs(votes: map<Addr, VoteState>, peers: seq<Addr>, run: RunId)
    requires forall q <- peers :: q in votes
    ensures Naming(Answers(votes, peers), run) == Backers(votes, (set q | q in peers), run)
  {
    var arrivals := Answers(votes, peers);
    forall q | q in Backers(votes, (set q | q in peers), run) ensures q in Naming(arrivals, run) {
      var i :| 0 <= i < |peers| && peers[i] == q;
      assert arrivals[i].peer == q && arrivals[i].leader == run;
    }
  }

  // A second round in which all peers of `x` answered, as they voted, that the master is down.
  ghost predicate Complete(c: Config, s: State, x: Addr, p: Phase) {
    && p.Asking? && p.epoch == 1 && Distinct(p.peers) && x !in p.peers && x in c.run && x in s.votes
    && (forall q <- p.peers :: q in s.votes) && p.arrivals == Answers(s.votes, p.peers)
    && p.selfGranted == (s.votes[x].votedRunId == c.run[x])
  }

  // The quorum of `x` is within the member list, and a majority of it voted for `x`.
  ghost predicate Elects(c: Config, s: State, x: Addr, members: set<Addr>)
    requires x in c.run
  {
    Quorum(c.quorum(x)) <= |members| && Majority(Backers(s.votes, members, c.run[x]), members)
  }

  lemma {:induction false} CompletePasses(c: Config, s: State, x: Addr, p: Phase)
    requires Complete(c, s, x, p) && Elects(c, s, x, Members(x, p.peers))
    ensures FoundDown(c, x, p, true) && PassesTest(c.run[x], p)
    ensures Grantors(x, c.run[x], p) == Backers(s.votes, Members(x, p.peers), c.run[x])
  {
    CountedAreBackers(s.votes, x, c.run[x], p);
    AllDown(s.votes, p.peers);
  }

  lemma {:induction false} FinishWins(c: Config, s: State, x: Addr, p: Phase)
    requires x in c.run && x in s.phase && s.phase[x] == p && p.Asking? && p.second
    requires FoundDown(c, x, p, true) && PassesTest(c.run[x], p)
    ensures var t := Next(c, s, Finish(x, true));
            && t.votes == s.votes && t.phase == s.phase[x := Idle] && s.sent <= t.sent && s.wins <= t.wins
            && Win(c.run[x], p.epoch, Members(x, p.peers), Grantors(x, c.run[x], p)) in t.wins
  {
  }

  lemma {:induction false} AllDownSuffices(c: Config, votes: map<Addr, VoteState>, x: Addr, p: Phase)
    requires p.Asking? && Distinct(p.peers) && x !in p.peers && Quorum(c.quorum(x)) <= |Members(x, p.peers)|
    requires (forall q <- p.peers :: q in votes) && p.arrivals == Answers(votes, p.peers)
    ensures FoundDown(c, x, p, true)
  {
    AllDown(votes, p.peers);
    DistinctSize(p.peers);
    assert Members(x, p.peers) == (set q | q in p.peers) + {x};
  }

  // The requests of a round are out, and everyone asked has voted.
  ghost predicate RoundOut(c: Config, s: State, x: Addr, second: bool) {
    && x in c.run && c.run[x] != "" && x in s.phase && s.phase[x].Asking?
    && s.phase[x].epoch == 1 && s.phase[x].second == second && s.phase[x].arrivals == []
    && Distinct(s.phase[x].peers) && x !in s.phase[x].peers && Decided(s, Members(x, s.phase[x].peers))
    && forall p <- s.phase[x].peers :: Query(s.phase[x].query, x, p, 1, c.run[x]) in s.sent
  }

  lemma {:induction false} AskEveryone(c: Config, s: State, x: Addr, second: bool) returns (steps: seq<Step>)
    requires RoundOut(c, s, x, second)
    ensures forall p <- s.phase[x].peers :: p in s.votes
    ensures var t := After(c, s, steps);
            && t.votes == s.votes && t.wins == s.wins && s.sent <= t.sent
            && t.phase == s.phase[x := s.phase[x].(arrivals := Answers(s.votes, s.phase[x].peers))]
  {
    var peers := s.phase[x].peers;
    assert forall p <- peers :: p in Members(x, peers);
    assert peers[..0] == [] && Answers(s.votes, []) == [];
    steps := AskAll(c, s, x, 0);
  }

  lemma {:induction false} AfterTwo(c: Config, s: State, a: Step, b: Step)
    ensures After(c, s, [a, b]) == Next(c, Next(c, s, a), b)
  {
    assert [a, b] == [a] + [b];
    AfterCons(c, s, a, [b]);
    AfterOne(c, Next(c, s, a), b);
  }

  lemma {:induction false} AfterOne(c: Config, s: State, a: Step)
    ensures After(c, s, [a]) == Next(c, s, a)
  {
    assert [a][1..] == [];
  }

  // A first round with all answers leads to a second one.
  lemma {:induction false} OpenAgain(c: Config, s: State, x: Addr)
    requires x in c.run && c.run[x] != "" && x in s.phase && s.phase[x].Asking? && !s.phase[x].second
             && s.phase[x].epoch == 1
    requires Distinct(s.phase[x].peers) && x !in s.phase[x].peers && Decided(s, Members(x, s.phase[x].peers))
    requires FoundDown(c, x, s.phase[x], true)
    ensures var t := Next(c, Next(c, s, Again(x, true)), Open(x));
            && t.votes == s.votes && t.wins == s.wins && s.sent <= t.sent && RoundOut(c, t, x, true)
            && t.phase == s.phase[x := t.phase[x]] && t.phase[x].peers == s.phase[x].peers
            && t.phase[x].selfGranted == (x in s.votes && s.votes[x].votedRunId == c.run[x])
  {
    var u := Next(c, s, Again(x, true));
    assert u == s.(phase := s.phase[x := Armed(1, s.phase[x].peers, true)]);
    assert x in Members(x, s.phase[x].peers);
    OpenDecided(c, u, x);
  }

  lemma {:induction false} SecondRound(c: Config, s: State, x: Addr) returns (steps: seq<Step>)
    requires RoundOut(c, s, x, false) && Quorum(c.quorum(x)) <= |Members(x, s.phase[x].peers)|
    ensures var t := After(c, s, steps);
            && t.votes == s.votes && t.wins == s.wins && s.sent <= t.sent && RoundOut(c, t, x, true)
            && t.phase == s.phase[x := t.phase[x]] && t.phase[x].peers == s.phase[x].peers
            && t.phase[x].selfGranted == (x in s.votes && s.votes[x].votedRunId == c.run[x])
  {
    var first := AskEveryone(c, s, x, false);
    var u := After(c, s, first);
    AllDownSuffices(c, s.votes, x, u.phase[x]);
    OpenAgain(c, u, x);
    steps := first + [Again(x, true), Open(x)];
    AfterAppend(c, s, first, [Again(x, true), Open(x)]);
    AfterTwo(c, u, Again(x, true), Open(x));
  }

  // A second round with all answers wins.
  lemma {:induction false} AnsweredWins(c: Config, s: State, x: Addr)
    requires x in s.phase && s.phase[x].Asking? && s.phase[x].second && Complete(c, s, x, s.phase[x])
    requires Elects(c, s, x, Members(x, s.phase[x].peers))
    ensures var members, t := Members(x, s.phase[x].peers), Next(c, s, Finish(x, true));
            && t.votes == s.votes && s.wins <= t.wins && s.sent <= t.sent && t.phase == s.phase[x := Idle]
            && Win(c.run[x], 1, members, Backers(s.votes, members, c.run[x])) in t.wins
  {
    CompletePasses(c, s, x, s.phase[x]);
    FinishWins(c, s, x, s.phase[x]);
  }

  lemma {:induction false} LastRound(c: Config, s: State, x: Addr) returns (steps: seq<Step>)
    requires RoundOut(c, s, x, true) && Elects(c, s, x, Members(x, s.phase[x].peers))
    requires s.phase[x].selfGranted == (x in s.votes && s.votes[x].votedRunId == c.run[x])
    ensures var members, t := Members(x, s.phase[x].peers), After(c, s, steps);
            && t.votes == s.votes && s.wins <= t.wins && s.sent <= t.sent && t.phase == s.phase[x := Idle]
            && Win(c.run[x], 1, members, Backers(s.votes, members, c.run[x])) in t.wins
  {
    var first := AskEveryone(c, s, x, true);
    var u := After(c, s, first);
    assert x in Members(x, s.phase[x].peers);
    AnsweredWins(c, u, x);
    steps := first + [Finish(x, true)];
    AfterAppend(c, s, first, [Finish(x, true)]);
    AfterOne(c, u, Finish(x, true));
  }

  // From the requests of the first round to the leader.
  lemma {:induction false} BecomesLeader(c: Config, s: State, x: Addr) returns (steps: seq<Step>)
    requires RoundOut(c, s, x, false) && Elects(c, s, x, Members(x, s.phase[x].peers))
    ensures var members, t := Members(x, s.phase[x].peers), After(c, s, steps);
            && t.votes == s.votes && s.wins <= t.wins && s.sent <= t.sent && t.phase == s.phase[x := Idle]
            && Win(c.run[x], 1, members, Backers(s.votes, members, c.run[x])) in t.wins
  {
    var first := SecondRound(c, s, x);
    var u := After(c, s, first);
    var second := LastRound(c, u, x);
    steps := first + second;
    AfterAppend(c, s, first, second);
  }

  // ---------------------------------------------------------------- dividing the voters

  lemma {:induction false} Listed(s: set<Addr>) returns (q: seq<Addr>)
    ensures Distinct(q) && (forall a :: a in q <==> a in s)
  {
    if s == {} {
      q := [];
    } else {
      var x :| x in s;
      var rest := Listed(s - {x});
      q := [x] + rest;
      assert x !in rest;
    }
  }

  // A sentinel that has not voted stands for epoch 1 and knows exactly `members`.
  lemma {:induction false} BeginsWith(c: Config, s: State, x: Addr, members: set<Addr>) returns (known: seq<Addr>)
    requires WellFormed(c) && members <= c.run.Keys && x in members && x in s.votes && x in s.phase && x in s.asked
    requires s.votes[x] == FRESH && s.phase[x] == Idle
    ensures var t := Next(c, s, Begin(x, known));
            && t.votes == s.votes && t.sent == s.sent && t.queries == s.queries && t.asked.Keys == s.asked.Keys
            && t.phase == s.phase[x := t.phase[x]] && t.phase[x].Armed? && t.phase[x].epoch == 1 && !t.phase[x].second
            && Distinct(t.phase[x].peers) && x !in t.phase[x].peers && Members(x, t.phase[x].peers) == members
  {
    known := Listed(members);
    FirstUnseenIsTheRest(c.norm, {c.norm(x)}, known);
    assert Normals(c.norm, known) == members;
    var peers := Peers(c.norm, known, x);
    assert (set a | a in peers) == members - {x};
  }

  // A first round opens; a sentinel that has not voted votes for itself.
  lemma {:induction false} OpenFirst(c: Config, s: State, x: Addr)
    requires x in c.run && c.run[x] != "" && x in s.phase && s.phase[x].Armed? && s.phase[x].epoch == 1 && x in s.votes
    requires s.votes[x] == FRESH || Decided(s, {x})
    ensures var q, t := s.phase[x], Next(c, s, Open(x));
            && t.votes == s.votes[x := if s.votes[x] == FRESH then For(c.run[x]) else s.votes[x]] && s.sent <= t.sent
            && t.phase == s.phase[x := t.phase[x]] && t.phase[x].Asking? && t.phase[x].epoch == 1
            && t.phase[x].second == q.second && t.phase[x].peers == q.peers && t.phase[x].arrivals == []
            && forall p <- q.peers :: Query(t.phase[x].query, x, p, 1, c.run[x]) in t.sent
  {
    if s.votes[x] != FRESH { OpenDecided(c, s, x); }
  }

  // A round whose requests are out, whatever the votes.
  ghost predicate Opened(c: Config, s: State, x: Addr, members: set<Addr>) {
    && x in c.run && x in s.phase && s.phase[x].Asking? && s.phase[x].epoch == 1 && !s.phase[x].second
    && s.phase[x].arrivals == [] && Distinct(s.phase[x].peers) && x !in s.phase[x].peers
    && Members(x, s.phase[x].peers) == members
    && forall p <- s.phase[x].peers :: Query(s.phase[x].query, x, p, 1, c.run[x]) in s.sent
  }

  ghost predicate AboutTo(c: Config, s: State, x: Addr, members: set<Addr>) {
    && x in c.run && x in s.phase && s.phase[x].Armed? && s.phase[x].epoch == 1 && !s.phase[x].second
    && Distinct(s.phase[x].peers) && x !in s.phase[x].peers && Members(x, s.phase[x].peers) == members
  }

  // `x` opens its round, and those of `side` who have not voted vote for it.
  lemma {:induction false} GathersVotes(c: Config, s: State, x: Addr, members: set<Addr>, side: set<Addr>)
    returns (steps: seq<Step>)
    requires AboutTo(c, s, x, members) && c.run[x] != "" && side <= members && members <= s.votes.Keys
    requires forall p <- side :: s.votes[p] == FRESH
    requires x !in side ==> Decided(s, {x})
    ensures var t := After(c, s, steps);
            && Opened(c, t, x, members) && s.sent <= t.sent && t.votes.Keys == s.votes.Keys
            && t.phase == s.phase[x := t.phase[x]]
            && forall p <- t.votes :: t.votes[p] == if p in side then For(c.run[x]) else s.votes[p]
  {
    assert x in Members(x, s.phase[x].peers);
    OpenFirst(c, s, x);
    var u := Next(c, s, Open(x));
    var others := Listed(side - {x});
    forall p | p in others
      ensures p in u.votes && u.votes[p] == FRESH && Query(u.phase[x].query, x, p, 1, c.run[x]) in u.sent
    {
      assert p in Members(x, s.phase[x].peers) && p in s.phase[x].peers;
    }
    var rest := VoteAll(c, u, x, u.phase[x].query, c.run[x], others);
    steps := [Open(x)] + rest;
    AfterCons(c, s, Open(x), rest);
  }

  // Both stand for epoch 1 before anyone has voted.
  lemma {:induction false} BothStand(c: Config, a: Addr, membersA: set<Addr>, b: Addr, membersB: set<Addr>)
    returns (steps: seq<Step>)
    requires WellFormed(c) && a != b && a in membersA && b in membersB
    requires membersA <= c.run.Keys && membersB <= c.run.Keys
    ensures var t := Run(c, steps);
            && t.votes == Init(c).votes && AboutTo(c, t, a, membersA) && AboutTo(c, t, b, membersB)
  {
    var knownA := BeginsWith(c, Init(c), a, membersA);
    var u := Next(c, Init(c), Begin(a, knownA));
    var knownB := BeginsWith(c, u, b, membersB);
    steps := [Begin(a, knownA), Begin(b, knownB)];
    AfterTwo(c, Init(c), Begin(a, knownA), Begin(b, knownB));
  }

  // The voters are divided: `g` votes for `a` and `h` for `b`, whose voters go first.
  ghost predicate Divided(c: Config, s: State, a: Addr, g: set<Addr>, b: Addr, h: set<Addr>)
    requires a in c.run && b in c.run
  {
    && (forall p <- g :: p in s.votes && s.votes[p] == For(c.run[a]))
    && (forall p <- h :: p in s.votes && s.votes[p] == For(c.run[b]))
  }

  // `a` gathers its voters after `b` has gathered its own.
  lemma {:induction false} ThenGathers(c: Config, s: State, a: Addr, membersA: set<Addr>, g: set<Addr>,
                                       b: Addr, membersB: set<Addr>, h: set<Addr>)
    returns (steps: seq<Step>)
    requires a in c.run && b in c.run && a != b && c.run[a] != "" && c.run[b] != ""
    requires AboutTo(c, s, a, membersA) && Opened(c, s, b, membersB) && membersA <= s.votes.Keys
    requires (forall p <- g :: p in s.votes && s.votes[p] == FRESH)
             && (forall p <- h :: p in s.votes && s.votes[p] == For(c.run[b]))
    requires g <= membersA && g * h == {} && a in g + h
    ensures var t := After(c, s, steps);
            Opened(c, t, a, membersA) && Opened(c, t, b, membersB) && Divided(c, t, a, g, b, h)
  {
    steps := GathersVotes(c, s, a, membersA, g);
    var t := After(c, s, steps);
    assert t.phase[b] == s.phase[b];
    assert forall p <- h :: p !in g;
  }

  lemma {:induction false} FirstGathers(c: Config, s: State, a: Addr, membersA: set<Addr>,
                                        b: Addr, membersB: set<Addr>, h: set<Addr>)
    returns (steps: seq<Step>)
    requires a in c.run && b in c.run && a != b && c.run[b] != "" && s.votes == Init(c).votes
    requires AboutTo(c, s, a, membersA) && AboutTo(c, s, b, membersB) && membersB <= c.run.Keys
    requires b in h && h <= membersB
    ensures var t := After(c, s, steps);
            && AboutTo(c, t, a, membersA) && Opened(c, t, b, membersB) && t.votes.Keys == c.run.Keys
            && forall p <- t.votes :: t.votes[p] == if p in h then For(c.run[b]) else FRESH
  {
    steps := GathersVotes(c, s, b, membersB, h);
    assert After(c, s, steps).phase[a] == s.phase[a];
  }

  lemma {:induction false} Divides(c: Config, a: Addr, membersA: set<Addr>, g: set<Addr>,
                                   b: Addr, membersB: set<Addr>, h: set<Addr>)
    returns (steps: seq<Step>)
    requires WellFormed(c) && a != b && membersA <= c.run.Keys && membersB <= c.run.Keys
    requires a in membersA && b in h && g <= membersA && h <= membersB && g * h == {} && g + h == membersA + membersB
    ensures var t := Run(c, steps);
            Opened(c, t, a, membersA) && Opened(c, t, b, membersB) && Divided(c, t, a, g, b, h)
  {
    var first := BothStand(c, a, membersA, b, membersB);
    var s1 := Run(c, first);
    var second := FirstGathers(c, s1, a, membersA, b, membersB, h);
    var s2 := After(c, s1, second);
    assert forall p <- g :: p !in h && p in s2.votes;
    assert a in g + h;
    var third := ThenGathers(c, s2, a, membersA, g, b, membersB, h);
    steps := (first + second) + third;
    AfterAppend(c, Init(c), first, second);
    AfterAppend(c, Init(c), first + second, third);
  }

  // An opened round whose voters are divided elects the candidate of a majority.
  lemma {:induction false} DividedElects(c: Config, s: State, x: Addr, members: set<Addr>, mine: set<Addr>, other: Addr)
    requires WellFormed(c) && x in c.run && other in c.run && x != other
    requires Opened(c, s, x, members) && Majority(mine, members) && Quorum(c.quorum(x)) <= |members|
    requires Divided(c, s, x, mine, other, members - mine)
    ensures RoundOut(c, s, x, false) && Elects(c, s, x, members)
  {
    var backers := Backers(s.votes, members, c.run[x]);
    SubsetSize(mine, backers);
    assert Decided(s, members) by {
      forall p | p in members
        ensures p in s.votes && s.votes[p] == For(s.votes[p].votedRunId) && s.votes[p].votedRunId != ""
      {
        assert p in mine || p in members - mine;
      }
    }
  }

  // The votes of a divided state stay while `b` becomes leader, and so does the round of `a`.
  lemma {:induction false} OneThenOther(c: Config, s: State, a: Addr, membersA: set<Addr>, b: Addr, membersB: set<Addr>)
    returns (steps: seq<Step>)
    requires a in c.run && b in c.run && a != b && Opened(c, s, a, membersA) && Opened(c, s, b, membersB)
    requires RoundOut(c, s, a, false) && Elects(c, s, a, membersA)
    requires RoundOut(c, s, b, false) && Elects(c, s, b, membersB)
    ensures var wins := After(c, s, steps).wins;
            && Win(c.run[a], 1, membersA, Backers(s.votes, membersA, c.run[a])) in wins
            && Win(c.run[b], 1, membersB, Backers(s.votes, membersB, c.run[b])) in wins
  {
    var first := BecomesLeader(c, s, b);
    var t := After(c, s, first);
    assert t.phase[a] == s.phase[a];
    assert RoundOut(c, t, a, false) && Elects(c, t, a, membersA);
    var second := BecomesLeader(c, t, a);
    steps := first + second;
    AfterAppend(c, s, first, second);
  }

  lemma {:induction false} BothElected(c: Config, s: State, a: Addr, membersA: set<Addr>, g: set<Addr>,
                                       b: Addr, membersB: set<Addr>, h: set<Addr>)
    requires WellFormed(c) && a in c.run && b in c.run && a != b
    requires Opened(c, s, a, membersA) && Opened(c, s, b, membersB) && Divided(c, s, a, g, b, h)
    requires Majority(g, membersA) && Majority(h, membersB) && g + h == membersA + membersB
    requires Quorum(c.quorum(a)) <= |membersA| && Quorum(c.quorum(b)) <= |membersB|
    ensures RoundOut(c, s, a, false) && Elects(c, s, a, membersA)
    ensures RoundOut(c, s, b, false) && Elects(c, s, b, membersB)
  {
    assert membersA - g <= h && membersB - h <= g;
    assert Divided(c, s, b, h, a, membersB - h) && Divided(c, s, a, g, b, membersA - g);
    DividedElects(c, s, b, membersB, h, a);
    DividedElects(c, s, a, membersA, g, b);
  }

  lemma {:induction false} BothIn(c: Config, steps: seq<Step>, a: Addr, w: Win, b: Addr, v: Win)
    requires a in c.run && b in c.run && w.run == c.run[a] && v.run == c.run[b] && w.epoch == v.epoch
    requires w in Run(c, steps).wins && v in Run(c, steps).wins
    ensures CanBothWin(c, a, w.members, b, v.members) && CanBothWin(c, b, v.members, a, w.members)
  {
    assert w == Win(c.run[a], w.epoch, w.members, w.grantors) && v == Win(c.run[b], w.epoch, v.members, v.grantors);
    assert WinsIn(c, steps, a, w.epoch, w.members) && WinsIn(c, steps, b, w.epoch, v.members);
  }

  lemma {:induction false} BothWin(c: Config, a: Addr, membersA: set<Addr>, g: set<Addr>,
                                   b: Addr, membersB: set<Addr>, h: set<Addr>)
    requires WellFormed(c) && a in c.run && b in c.run && a != b && membersA <= c.run.Keys && membersB <= c.run.Keys
    requires a in membersA && b in h && Majority(g, membersA) && Majority(h, membersB)
    requires g * h == {} && g + h == membersA + membersB
    requires Quorum(c.quorum(a)) <= |membersA| && Quorum(c.quorum(b)) <= |membersB|
    ensures CanBothWin(c, a, membersA, b, membersB) && CanBothWin(c, b, membersB, a, membersA)
  {
    var first := Divides(c, a, membersA, g, b, membersB, h);
    var s := Run(c, first);
    BothElected(c, s, a, membersA, g, b, membersB, h);
    var second := OneThenOther(c, s, a, membersA, b, membersB);
    AfterAppend(c, Init(c), first, second);
    BothIn(c, first + second, a, Win(c.run[a], 1, membersA, Backers(s.votes, membersA, c.run[a])),
           b, Win(c.run[b], 1, membersB, Backers(s.votes, membersB, c.run[b])));
  }

  // Two majorities that share nobody, cover all members and, in one order or the
  // other, have the candidate that opens first on its own side.
  lemma {:induction false} Sides(a: Addr, membersA: set<Addr>, b: Addr, membersB: set<Addr>)
    returns (g: set<Addr>, h: set<Addr>)
    requires a in membersA && b in membersB && !Overlap(membersA, membersB)
    ensures Majority(g, membersA) && Majority(h, membersB) && g * h == {} && g + h == membersA + membersB
    ensures a in g || b in h
  {
    g, h := DisjointMajorities(membersA, membersB);
    var moreA, moreB := membersA - (g + h), membersB - membersA - (g + h);
    MajorityGrows(g, g + moreA, membersA);
    MajorityGrows(h, h + moreB, membersB);
    g, h := g + moreA, h + moreB;
    assert g * h == {} && g + h == membersA + membersB;
    if a !in g && b !in h {
      g, h := Exchanged(a, g, b, h);
    }
  }

  lemma {:induction false} MajorityGrows(g: set<Addr>, more: set<Addr>, members: set<Addr>)
    requires Majority(g, members) && g <= more <= members
    ensures Majority(more, members)
  {
    SubsetSize(g, more);
  }

  lemma {:induction false} Exchanged(a: Addr, g: set<Addr>, b: Addr, h: set<Addr>)
    returns (g': set<Addr>, h': set<Addr>)
    requires a in h && b in g && g * h == {}
    ensures g' == g - {b} + {a} && h' == h - {a} + {b} && |g'| == |g| && |h'| == |h|
    ensures g' * h' == {} && g' + h' == g + h
  {
    g', h' := g - {b} + {a}, h - {a} + {b};
    assert a !in g && b !in h;
  }

  // Two sentinels can win the same epoch exactly when their member lists have
  // majorities that share nobody and each list reaches its owner's quorum.
  lemma {:induction false} TwoLeadersExactly(c: Config, a: Addr, membersA: set<Addr>, b: Addr, membersB: set<Addr>)
    requires WellFormed(c) && a in c.run && b in c.run && a != b
    requires a in membersA && b in membersB && membersA <= c.run.Keys && membersB <= c.run.Keys
    ensures CanBothWin(c, a, membersA, b, membersB) <==>
              && !Overlap(membersA, membersB)
              && Quorum(c.quorum(a)) <= |membersA| && Quorum(c.quorum(b)) <= |membersB|
  {
    if CanBothWin(c, a, membersA, b, membersB) {
      BothWinNeeds(c, a, membersA, b, membersB);
    }
    if !Overlap(membersA, membersB) && Quorum(c.quorum(a)) <= |membersA| && Quorum(c.quorum(b)) <= |membersB| {
      var g, h := Sides(a, membersA, b, membersB);
      if b in h {
        BothWin(c, a, membersA, g, b, membersB, h);
      } else {
        BothWin(c, b, membersB, h, a, membersA, g);
      }
    }
  }

  lemma {:induction false} BothWinNeeds(c: Config, a: Addr, membersA: set<Addr>, b: Addr, membersB: set<Addr>)
    requires WellFormed(c) && a in c.run && b in c.run && a != b && CanBothWin(c, a, membersA, b, membersB)
    ensures !Overlap(membersA, membersB)
    ensures Quorum(c.quorum(a)) <= |membersA| && Quorum(c.quorum(b)) <= |membersB|
  {
    var steps, epoch :| WinsIn(c, steps, a, epoch, membersA) && WinsIn(c, steps, b, epoch, membersB);
    var g :| Win(c.run[a], epoch, membersA, g) in Run(c, steps).wins;
    var h :| Win(c.run[b], epoch, membersB, h) in Run(c, steps).wins;
    WinnersReachQuorum(c, steps, a, Win(c.run[a], epoch, membersA, g));
    WinnersReachQuorum(c, steps, b, Win(c.run[b], epoch, membersB, h));
    if Overlap(membersA, membersB) {
      OneLeaderPerEpoch(c, steps, Win(c.run[a], epoch, membersA, g), Win(c.run[b], epoch, membersB, h));
    }
  }

  // Sentinels that have not met can both win exactly when each is content with its own
  // finding that the master is down.
  lemma {:induction false} TwoLeadersWhenStrangers(c: Config, a: Addr, b: Addr)
    requires WellFormed(c) && a in c.run && b in c.run && a != b
    ensures CanBothWin(c, a, {a}, b, {b}) <==> c.quorum(a) <= 1 && c.quorum(b) <= 1
  {
    TwoLeadersExactly(c, a, {a}, b, {b});
    assert |{a} + {b}| == 2;
  }
}
