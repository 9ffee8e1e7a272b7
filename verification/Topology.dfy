/**
 * The slot table of one cluster node: who owns each slot, which slots are being
 * moved away or taken over, and the configuration epoch.
 */
module Topology {
  import opened Options

  const NUM_SLOTS: nat := 16384
  const EPOCHS: nat := 0x1_0000_0000_0000_0000

  datatype Node = Node(id: string, addr: string)

  // The value of a topology.  `owner[s]` is a node index, or -1 for no owner.
  datatype Topo = Topo(
    self: nat,
    nodes: seq<Node>,
    owned: seq<bool>,
    owner: seq<int>,
    migrating: map<int, string>,
    importing: map<int, string>,
    epoch: nat)

  datatype Snap = Snap(owner: seq<int>, migrating: map<int, string>, importing: map<int, string>, epoch: nat)

  predicate Shaped(t: Topo) {
    && |t.owned| == NUM_SLOTS && |t.owner| == NUM_SLOTS && t.self < |t.nodes| && t.epoch < EPOCHS
  }

  predicate SlotOk(t: Topo, s: int)
    requires Shaped(t) && 0 <= s < NUM_SLOTS
  {
    && -1 <= t.owner[s] < |t.nodes|
    && t.owned[s] == (t.owner[s] >= 0)
    && (s in t.migrating ==> t.owner[s] == t.self)
    && (s in t.importing ==> t.owner[s] != t.self)
  }

  predicate KnownId(t: Topo, id: string) {
    exists i | 0 <= i < |t.nodes| :: t.nodes[i].id == id
  }

  // What every reachable table satisfies.
  ghost predicate Coherent(t: Topo) {
    && Shaped(t)
    && (forall s {:trigger SlotOk(t, s)} | 0 <= s < NUM_SLOTS :: SlotOk(t, s))
    && (forall s <- t.migrating :: 0 <= s < NUM_SLOTS && KnownId(t, t.migrating[s]))
    && (forall s <- t.importing :: 0 <= s < NUM_SLOTS && KnownId(t, t.importing[s]))
  }

  predicate ValidSlot(slot: int) { 0 <= slot < NUM_SLOTS }

  function Bump(epoch: nat): nat { (epoch + 1) % EPOCHS }

  function IndexOf(nodes: seq<Node>, id: string): (i: int)
    ensures -1 <= i < |nodes|
    ensures i >= 0 ==> nodes[i].id == id && forall k | 0 <= k < i :: nodes[k].id != id
    ensures i < 0 ==> forall k | 0 <= k < |nodes| :: nodes[k].id != id
    decreases |nodes|
  {
    if nodes == [] then -1
    else if nodes[0].id == id then 0
    else var i := IndexOf(nodes[1..], id); if i < 0 then -1 else i + 1
  }

  // ---------------------------------------------------------------- slot changes

  function Migrating(t: Topo, slot: int, id: string): Option<Topo>
    requires Shaped(t)
  {
    if !ValidSlot(slot) || t.owner[slot] != t.self then None
    else if slot in t.migrating && t.migrating[slot] == id then Some(t)
    else Some(t.(migrating := t.migrating[slot := id], epoch := Bump(t.epoch)))
  }

  function Importing(t: Topo, slot: int, id: string): Option<Topo>
    requires Shaped(t)
  {
    if !ValidSlot(slot) || t.owner[slot] == t.self then None
    else if slot in t.importing && t.importing[slot] == id then Some(t)
    else Some(t.(importing := t.importing[slot := id], epoch := Bump(t.epoch)))
  }

  function Stable(t: Topo, slot: int): Topo {
    if !ValidSlot(slot) then t else t.(migrating := t.migrating - {slot}, importing := t.importing - {slot})
  }

  function Assigned(t: Topo, slot: int, id: string): Option<Topo>
    requires Shaped(t)
  {
    if !ValidSlot(slot) || IndexOf(t.nodes, id) < 0 then None
    else Some(t.(owner := t.owner[slot := IndexOf(t.nodes, id)], owned := t.owned[slot := true],
              migrating := t.migrating - {slot}, importing := t.importing - {slot}, epoch := Bump(t.epoch)))
  }

  // The mark of one slot may differ, and nothing else but the epoch.
  ghost predicate OnlyMarks(t: Topo, u: Topo, slot: int) {
    && u.self == t.self && u.nodes == t.nodes && u.owned == t.owned && u.owner == t.owner
    && (forall s | s != slot :: (s in u.migrating <==> s in t.migrating) && (s in u.importing <==> s in t.importing))
    && (forall s | s != slot && s in t.migrating && s in u.migrating :: u.migrating[s] == t.migrating[s])
    && (forall s | s != slot && s in t.importing && s in u.importing :: u.importing[s] == t.importing[s])
  }

  // MIGRATING is for the owner and IMPORTING for everyone else; each sets its own mark,
  // and the epoch moves only when the mark is new.
  lemma {:induction false} MarksExactly(t: Topo, slot: int, id: string)
    requires Shaped(t)
    ensures Migrating(t, slot, id).Some? <==> 0 <= slot < NUM_SLOTS && t.owner[slot] == t.self
    ensures Importing(t, slot, id).Some? <==> 0 <= slot < NUM_SLOTS && t.owner[slot] != t.self
    ensures Migrating(t, slot, id).Some? ==>
              var u := Migrating(t, slot, id).value;
              && OnlyMarks(t, u, slot) && slot in u.migrating && u.migrating[slot] == id && u.importing == t.importing
              && u.epoch == (if u.migrating == t.migrating then t.epoch else Bump(t.epoch))
    ensures Importing(t, slot, id).Some? ==>
              var u := Importing(t, slot, id).value;
              && OnlyMarks(t, u, slot) && slot in u.importing && u.importing[slot] == id && u.migrating == t.migrating
              && u.epoch == (if u.importing == t.importing then t.epoch else Bump(t.epoch))
  {
    if 0 <= slot < NUM_SLOTS {
      assert slot in t.migrating && t.migrating[slot] == id ==> t.migrating[slot := id] == t.migrating;
      assert t.migrating[slot := id][slot] == id && t.importing[slot := id][slot] == id;
    }
  }

  // STABLE leaves neither mark on the slot and nothing else changed.
  lemma {:induction false} StableExactly(t: Topo, slot: int)
    ensures var u := Stable(t, slot);
            && OnlyMarks(t, u, slot) && u.epoch == t.epoch
            && (0 <= slot < NUM_SLOTS ==> slot !in u.migrating && slot !in u.importing)
            && (!(0 <= slot < NUM_SLOTS) ==> u == t)
  {
  }

  // NODE is for known nodes; the slot then belongs to the first one with that id, bears
  // no mark, and every other slot is as before.
  lemma {:induction false} AssignedExactly(t: Topo, slot: int, id: string)
    requires Shaped(t)
    ensures Assigned(t, slot, id).Some? <==> 0 <= slot < NUM_SLOTS && KnownId(t, id)
    ensures Assigned(t, slot, id).Some? ==>
              var u := Assigned(t, slot, id).value;
              && OnlyMarks(t.(owner := u.owner, owned := u.owned), u, slot) && u.epoch == Bump(t.epoch)
              && slot !in u.migrating && slot !in u.importing
              && |u.owner| == |u.owned| == NUM_SLOTS && 0 <= u.owner[slot] < |t.nodes| && u.owned[slot]
              && t.nodes[u.owner[slot]].id == id && (forall k | 0 <= k < u.owner[slot] :: t.nodes[k].id != id)
              && forall s | 0 <= s < NUM_SLOTS && s != slot :: u.owner[s] == t.owner[s] && u.owned[s] == t.owned[s]
  {
  }

  function SnapshotOf(t: Topo): Snap {
    Snap(t.owner, t.migrating, t.importing, t.epoch)
  }

  function Loaded(t: Topo, snap: Snap): Option<Topo> {
    if snap.epoch < t.epoch then None
    else Some(t.(owner := snap.owner,
              owned := seq(|snap.owner|, i requires 0 <= i < |snap.owner| => snap.owner[i] >= 0),
              migrating := snap.migrating, importing := snap.importing, epoch := snap.epoch))
  }

  class Topology {
    const self: nat
    const nodes: seq<Node>
    const owned: array<bool>
    const owner: array<int>
    var migrating: map<int, string>
    var importing: map<int, string>
    var epoch: nat

    ghost predicate Valid()
      reads this, owned, owner
    {
      owned.Length == NUM_SLOTS && owner.Length == NUM_SLOTS && self < |nodes| && epoch < EPOCHS
    }

    function Value(): (t: Topo)
      reads this, owned, owner
      ensures Valid() ==> Shaped(t)
    {
      Topo(self, nodes, owned[..], owner[..], migrating, importing, epoch)
    }

    constructor (t: Topo)
      requires Shaped(t)
      ensures Valid() && Value() == t && fresh(owned) && fresh(owner)
    {
      self, nodes := t.self, t.nodes;
      owned := new bool[NUM_SLOTS](i requires 0 <= i < NUM_SLOTS => t.owned[i]);
      owner := new int[NUM_SLOTS](i requires 0 <= i < NUM_SLOTS => t.owner[i]);
      migrating, importing, epoch := t.migrating, t.importing, t.epoch;
      new;
      assert owned[..] == t.owned && owner[..] == t.owner;
    }

    method SetMigrating(slot: int, target: string) returns (ok: bool)
      requires Valid()
      modifies this
      ensures Valid() && ok == Migrating(old(Value()), slot, target).Some?
      ensures Value() == if ok then Migrating(old(Value()), slot, target).value else old(Value())
    {
      if slot < 0 || slot >= NUM_SLOTS || owner[slot] != self {
        return false;
      }
      if slot in migrating && migrating[slot] == target {
        return true;
      }
      migrating := migrating[slot := target];
      epoch := (epoch + 1) % EPOCHS;
      return true;
    }

    method SetImporting(slot: int, source: string) returns (ok: bool)
      requires Valid()
      modifies this
      ensures Valid() && ok == Importing(old(Value()), slot, source).Some?
      ensures Value() == if ok then Importing(old(Value()), slot, source).value else old(Value())
    {
      if slot < 0 || slot >= NUM_SLOTS || owner[slot] == self {
        return false;
      }
      if slot in importing && importing[slot] == source {
        return true;
      }
      importing := importing[slot := source];
      epoch := (epoch + 1) % EPOCHS;
      return true;
    }

    method SetStable(slot: int)
      requires Valid()
      modifies this
      ensures Valid() && Value() == Stable(old(Value()), slot)
    {
      if slot < 0 || slot >= NUM_SLOTS {
        return;
      }
      migrating := migrating - {slot};
      importing := importing - {slot};
    }

    method SetNode(slot: int, id: string) returns (ok: bool)
      requires Valid()
      modifies this, owned, owner
      ensures Valid() && ok == Assigned(old(Value()), slot, id).Some?
      ensures Value() == if ok then Assigned(old(Value()), slot, id).value else old(Value())
    {
      if slot < 0 || slot >= NUM_SLOTS {
        return false;
      }
      var idx := -1;
      for i := 0 to |nodes|
        invariant idx == -1 && forall k | 0 <= k < i :: nodes[k].id != id
      {
        if nodes[i].id == id {
          idx := i;
          break;
        }
      }
      if idx < 0 {
        return false;
      }
      owner[slot] := idx;
      owned[slot] := true;
      migrating := migrating - {slot};
      importing := importing - {slot};
      epoch := (epoch + 1) % EPOCHS;
      assert owner[..] == old(owner[..])[slot := idx] && owned[..] == old(owned[..])[slot := true];
      return true;
    }

    method LoadSnapshot(snap: Snap) returns (ok: bool)
      requires Valid() && |snap.owner| == NUM_SLOTS && snap.epoch < EPOCHS
      modifies this, owned, owner
      ensures Valid() && ok == Loaded(old(Value()), snap).Some?
      ensures Value() == if ok then Loaded(old(Value()), snap).value else old(Value())
    {
      if snap.epoch < epoch {
        return false;
      }
      for s := 0 to NUM_SLOTS
        invariant owner[..s] == snap.owner[..s]
        invariant forall k | 0 <= k < s :: owned[k] == (snap.owner[k] >= 0)
        modifies owned, owner
      {
        owner[s] := snap.owner[s];
        owned[s] := owner[s] >= 0;
      }
      migrating, importing, epoch := snap.migrating, snap.importing, snap.epoch;
      assert owner[..] == snap.owner;
      return true;
    }
  }

  // ---------------------------------------------------------------- building

  datatype Spec = Spec(id: string, addr: string, ranges: seq<(int, int)>)

  // One configured range: the node it belongs to and its closed bounds.
  datatype Claim = Claim(node: nat, lo: int, hi: int) {
    predicate Covers(slot: int) { lo <= slot <= hi }
  }

  function ClaimsOf(node: nat, ranges: seq<(int, int)>): seq<Claim> {
    seq(|ranges|, k requires 0 <= k < |ranges| => Claim(node, ranges[k].0, ranges[k].1))
  }

  function AllClaims(specs: seq<Spec>): seq<Claim> {
    if specs == [] then []
    else AllClaims(specs[..|specs| - 1]) + ClaimsOf(|specs| - 1, specs[|specs| - 1].ranges)
  }

  ghost predicate ClaimedTwice(claims: seq<Claim>) {
    exists a, b, slot | 0 <= a < b < |claims| :: ValidSlot(slot) && claims[a].Covers(slot) && claims[b].Covers(slot)
  }

  // The table says exactly who claims each slot, and nobody claims another's.
  ghost predicate TableOf(claims: seq<Claim>, owner: seq<int>, owned: seq<bool>) {
    && |owner| == NUM_SLOTS && |owned| == NUM_SLOTS
    && (forall s | 0 <= s < NUM_SLOTS :: owner[s] >= -1 && owned[s] == (owner[s] >= 0))
    && (forall s | 0 <= s < NUM_SLOTS && owner[s] >= 0 ::
          exists a | 0 <= a < |claims| :: claims[a].Covers(s) && claims[a].node == owner[s])
    && (forall s, a | 0 <= s < NUM_SLOTS && 0 <= a < |claims| && claims[a].Covers(s) :: owner[s] == claims[a].node)
    && !ClaimedTwice(claims)
  }

  // Splitting an address into host and port is left abstract, as is deriving an id.
  datatype Names = Names(split: string -> Option<(string, string)>, derive: string -> string)

  predicate IsSelf(names: Names, selfAddr: string, addr: string) {
    match (names.split(selfAddr), names.split(addr))
    case (Some((host, port)), Some((h, p))) => p == port && (h == host || host == "" || host == "0.0.0.0")
    case _ => false
  }

  predicate AddrsOk(names: Names, specs: seq<Spec>) {
    forall i | 0 <= i < |specs| :: specs[i].addr != "" && names.split(specs[i].addr).Some?
  }

  function NodeOf(names: Names, s: Spec): Node {
    Node(if s.id == "" then names.derive(s.addr) else s.id, s.addr)
  }

  // An empty configuration is one node that owns everything.
  function Defaulted(selfAddr: string, specs: seq<Spec>): seq<Spec> {
    if specs == [] then [Spec("", selfAddr, [(0, NUM_SLOTS - 1)])] else specs
  }

  lemma {:induction false} AllClaimsExtend(specs: seq<Spec>, i: nat)
    requires i < |specs|
    ensures AllClaims(specs[..i + 1]) == AllClaims(specs[..i]) + ClaimsOf(i, specs[i].ranges)
    ensures AllClaims(specs[..i + 1]) <= AllClaims(specs)
    decreases |specs| - i
  {
    assert specs[..i + 1][..i] == specs[..i];
    if i + 1 < |specs| {
      AllClaimsExtend(specs, i + 1);
    } else {
      assert specs[..i + 1] == specs;
    }
  }

  // One more slot of the range being claimed.
  lemma {:induction false} SlotClaimed(claims: seq<Claim>, node: nat, lo: int, slot: int, owner: seq<int>,
                                       owned: seq<bool>)
    requires ValidSlot(slot) && lo <= slot
    requires TableOf(claims + [Claim(node, lo, slot - 1)], owner, owned) && owner[slot] < 0
    ensures TableOf(claims + [Claim(node, lo, slot)], owner[slot := node], owned[slot := true])
  {
    var before := claims + [Claim(node, lo, slot - 1)];
    var after := claims + [Claim(node, lo, slot)];
    var owner' := owner[slot := node];
    assert forall a | 0 <= a < |claims| :: before[a] == claims[a] && after[a] == claims[a];
    forall s | 0 <= s < NUM_SLOTS && owner'[s] >= 0
      ensures exists a | 0 <= a < |after| :: after[a].Covers(s) && after[a].node == owner'[s]
    {
      if s == slot {
        assert after[|claims|].Covers(s);
      } else {
        var a :| 0 <= a < |before| && before[a].Covers(s) && before[a].node == owner[s];
        assert after[a].Covers(s) && after[a].node == owner[s];
      }
    }
    forall s, a | 0 <= s < NUM_SLOTS && 0 <= a < |after| && after[a].Covers(s) ensures owner'[s] == after[a].node {
      assert before[a].Covers(s) <==> a < |claims| || s != slot;
    }
    forall a, b, s | 0 <= a < b < |after| && ValidSlot(s) && after[a].Covers(s) ensures !after[b].Covers(s) {
      assert before[a].Covers(s);
      assert before[b].Covers(s) <==> after[b].Covers(s) && (b < |claims| || s != slot);
    }
  }

  // A slot nobody can claim, and an empty range, add nothing.
  lemma {:induction false} NothingClaimed(claims: seq<Claim>, c: Claim, d: Claim, owner: seq<int>, owned: seq<bool>)
    requires c.node == d.node && forall s | ValidSlot(s) :: c.Covers(s) <==> d.Covers(s)
    requires TableOf(claims + [c], owner, owned)
    ensures TableOf(claims + [d], owner, owned)
  {
    var before, after := claims + [c], claims + [d];
    forall a, s | 0 <= a < |after| && ValidSlot(s)
      ensures after[a].Covers(s) <==> before[a].Covers(s)
      ensures after[a].node == before[a].node
    {
    }
    forall s | 0 <= s < NUM_SLOTS && owner[s] >= 0
      ensures exists a | 0 <= a < |after| :: after[a].Covers(s) && after[a].node == owner[s]
    {
      var a :| 0 <= a < |before| && before[a].Covers(s) && before[a].node == owner[s];
      assert after[a].Covers(s);
    }
    forall s, a | 0 <= s < NUM_SLOTS && 0 <= a < |after| && after[a].Covers(s) ensures owner[s] == after[a].node {
      assert before[a].Covers(s);
    }
    forall a, b, s | 0 <= a < b < |after| && ValidSlot(s) && after[a].Covers(s) ensures !after[b].Covers(s) {
      assert before[a].Covers(s);
      assert !before[b].Covers(s);
    }
  }

  lemma {:induction false} EmptyRange(claims: seq<Claim>, c: Claim, owner: seq<int>, owned: seq<bool>)
    requires TableOf(claims, owner, owned) && c.hi < c.lo
    ensures TableOf(claims + [c], owner, owned)
  {
    var after := claims + [c];
    assert forall a | 0 <= a < |claims| :: after[a] == claims[a];
    forall s | 0 <= s < NUM_SLOTS && owner[s] >= 0
      ensures exists a | 0 <= a < |after| :: after[a].Covers(s) && after[a].node == owner[s]
    {
      var a :| 0 <= a < |claims| && claims[a].Covers(s) && claims[a].node == owner[s];
      assert after[a].Covers(s);
    }
    forall a, b, s | 0 <= a < b < |after| && ValidSlot(s) && after[a].Covers(s) ensures !after[b].Covers(s) {
      if b < |claims| { assert claims[a].Covers(s); assert !claims[b].Covers(s); }
    }
  }

  method ClaimRange(owner: array<int>, owned: array<bool>, node: nat, r: (int, int), ghost claims: seq<Claim>)
    returns (ok: bool)
    requires TableOf(claims, owner[..], owned[..])
    modifies owner, owned
    ensures ok ==> TableOf(claims + [Claim(node, r.0, r.1)], owner[..], owned[..])
    ensures !ok ==> ClaimedTwice(claims + [Claim(node, r.0, r.1)])
  {
    var slot := r.0;
    EmptyRange(claims, Claim(node, r.0, r.0 - 1), owner[..], owned[..]);
    while slot <= r.1 && slot < NUM_SLOTS
      invariant r.0 <= slot && (slot == r.0 || slot <= r.1 + 1)
      invariant TableOf(claims + [Claim(node, r.0, slot - 1)], owner[..], owned[..])
    {
      if slot >= 0 {
        if owner[slot] >= 0 {
          DoublyClaimed(claims, node, r, slot, owner[..], owned[..]);
          return false;
        }
        SlotClaimed(claims, node, r.0, slot, owner[..], owned[..]);
        ghost var owner', owned' := owner[..][slot := node], owned[..][slot := true];
        owned[slot] := true;
        owner[slot] := node;
        assert owner[..] == owner' && owned[..] == owned';
      } else {
        NothingClaimed(claims, Claim(node, r.0, slot - 1), Claim(node, r.0, slot), owner[..], owned[..]);
      }
      slot := slot + 1;
    }
    NothingClaimed(claims, Claim(node, r.0, slot - 1), Claim(node, r.0, r.1), owner[..], owned[..]);
    return true;
  }

  lemma {:induction false} DoublyClaimed(claims: seq<Claim>, node: nat, r: (int, int), slot: int, owner: seq<int>,
                                         owned: seq<bool>)
    requires ValidSlot(slot) && r.0 <= slot <= r.1
    requires TableOf(claims + [Claim(node, r.0, slot - 1)], owner, owned) && owner[slot] >= 0
    ensures ClaimedTwice(claims + [Claim(node, r.0, r.1)])
  {
    var before, after := claims + [Claim(node, r.0, slot - 1)], claims + [Claim(node, r.0, r.1)];
    var a :| 0 <= a < |before| && before[a].Covers(slot) && before[a].node == owner[slot];
    assert a < |claims|;
    assert after[a].Covers(slot) && after[|claims|].Covers(slot);
  }

  // More claims on top of a double claim leave it a double claim.
  lemma {:induction false} StillClaimedTwice(claims: seq<Claim>, all: seq<Claim>)
    requires claims <= all && ClaimedTwice(claims)
    ensures ClaimedTwice(all)
  {
    var a, b, slot :| 0 <= a < b < |claims| && ValidSlot(slot) && claims[a].Covers(slot) && claims[b].Covers(slot);
    assert all[a] == claims[a] && all[b] == claims[b];
  }

  method ClaimRanges(owner: array<int>, owned: array<bool>, specs: seq<Spec>, i: nat) returns (ok: bool)
    requires i < |specs| && TableOf(AllClaims(specs[..i]), owner[..], owned[..])
    modifies owner, owned
    ensures ok ==> TableOf(AllClaims(specs[..i + 1]), owner[..], owned[..])
    ensures !ok ==> ClaimedTwice(AllClaims(specs))
  {
    var ranges := specs[i].ranges;
    ghost var claims := AllClaims(specs[..i]);
    AllClaimsExtend(specs, i);
    assert claims + ClaimsOf(i, ranges[..0]) == claims;
    for k := 0 to |ranges|
      invariant TableOf(claims + ClaimsOf(i, ranges[..k]), owner[..], owned[..])
    {
      ghost var sofar := claims + ClaimsOf(i, ranges[..k]);
      ghost var more := claims + ClaimsOf(i, ranges[..k + 1]);
      assert sofar + [Claim(i, ranges[k].0, ranges[k].1)] == more;
      assert more <= claims + ClaimsOf(i, ranges);
      ok := ClaimRange(owner, owned, i, ranges[k], sofar);
      if !ok {
        StillClaimedTwice(more, AllClaims(specs));
        return;
      }
    }
    assert ranges[..|ranges|] == ranges;
    ok := true;
  }

  // Startup: the configuration is accepted exactly when every address is valid, no
  // slot is claimed twice and some node is this server.
  method Build(names: Names, selfAddr: string, config: seq<Spec>) returns (r: Option<Topo>)
    ensures var specs := Defaulted(selfAddr, config);
            r.Some? <==>
              && names.split(selfAddr).Some? && AddrsOk(names, specs)
              && !ClaimedTwice(AllClaims(specs))
              && exists i | 0 <= i < |specs| :: IsSelf(names, selfAddr, specs[i].addr)
    ensures r.Some? ==>
              var specs, t := Defaulted(selfAddr, config), r.value;
              && Coherent(t) && t.epoch == 0 && t.migrating == map[] && t.importing == map[]
              && TableOf(AllClaims(specs), t.owner, t.owned)
              && t.nodes == seq(|specs|, i requires 0 <= i < |specs| => NodeOf(names, specs[i]))
              && IsSelf(names, selfAddr, specs[t.self].addr)
              && forall i | 0 <= i < t.self :: !IsSelf(names, selfAddr, specs[i].addr)
  {
    var specs := Defaulted(selfAddr, config);
    var owned := new bool[NUM_SLOTS](_ => false);
    var owner := new int[NUM_SLOTS](_ => -1);
    if names.split(selfAddr).None? {
      return None;
    }
    var self := -1;
    var nodes := [];
    for i := 0 to |specs|
      invariant nodes == seq(i, j requires 0 <= j < i => NodeOf(names, specs[j]))
      invariant AddrsOk(names, specs[..i])
      invariant TableOf(AllClaims(specs[..i]), owner[..], owned[..])
      invariant -1 <= self < i
      invariant self < 0 ==> forall j | 0 <= j < i :: !IsSelf(names, selfAddr, specs[j].addr)
      invariant self >= 0 ==> IsSelf(names, selfAddr, specs[self].addr)
                              && forall j | 0 <= j < self :: !IsSelf(names, selfAddr, specs[j].addr)
    {
      if specs[i].addr == "" || names.split(specs[i].addr).None? {
        return None;
      }
      nodes := nodes + [NodeOf(names, specs[i])];
      if IsSelf(names, selfAddr, specs[i].addr) && self < 0 {
        self := i;
      }
      var ok := ClaimRanges(owner, owned, specs, i);
      if !ok {
        return None;
      }
    }
    assert specs[..|specs|] == specs;
    if self < 0 {
      return None;
    }
    var t := Topo(self, nodes, owned[..], owner[..], map[], map[], 0);
    OwnersAreNodes(specs, owner[..], owned[..]);
    assert forall s | 0 <= s < NUM_SLOTS :: SlotOk(t, s);
    return Some(t);
  }

  lemma {:induction false} ClaimsNameNodes(specs: seq<Spec>, a: nat)
    requires a < |AllClaims(specs)|
    ensures AllClaims(specs)[a].node < |specs|
  {
    if a < |AllClaims(specs[..|specs| - 1])| {
      ClaimsNameNodes(specs[..|specs| - 1], a);
    }
  }

  lemma {:induction false} OwnersAreNodes(specs: seq<Spec>, owner: seq<int>, owned: seq<bool>)
    requires TableOf(AllClaims(specs), owner, owned)
    ensures forall s | 0 <= s < NUM_SLOTS :: -1 <= owner[s] < |specs|
  {
    forall s | 0 <= s < NUM_SLOTS ensures owner[s] < |specs| {
      if owner[s] >= 0 {
        var claims := AllClaims(specs);
        var a :| 0 <= a < |claims| && claims[a].Covers(s) && claims[a].node == owner[s];
        ClaimsNameNodes(specs, a);
      }
    }
  }

  // ---------------------------------------------------------------- every run

  // CLUSTER SETSLOT, and loading back a snapshot this node saved earlier.
  datatype Op =
    | SetMigrating(slot: int, id: string)
    | SetImporting(slot: int, id: string)
    | SetStable(slot: int)
    | SetNode(slot: int, id: string)
    | Reload(saved: nat)

  // A node and all the snapshots it has saved.
  datatype Server = Server(topo: Topo, saved: seq<Snap>)

  predicate HasAddr(t: Topo, id: string) {
    var i := IndexOf(t.nodes, id);
    i >= 0 && t.nodes[i].addr != ""
  }

  function Applied(t: Topo, saved: seq<Snap>, op: Op): Option<Topo>
    requires Shaped(t)
  {
    match op
    case SetMigrating(slot, id) => if HasAddr(t, id) then Migrating(t, slot, id) else None
    case SetImporting(slot, id) => if HasAddr(t, id) then Importing(t, slot, id) else None
    case SetStable(slot) => if ValidSlot(slot) then Some(Stable(t, slot)) else None
    case SetNode(slot, id) => Assigned(t, slot, id)
    case Reload(k) => if k < |saved| then Loaded(t, saved[k]) else None
  }

  // An accepted command is saved; a refused one changes nothing.
  function Next(s: Server, op: Op): Server
    requires Shaped(s.topo)
  {
    match Applied(s.topo, s.saved, op)
    case None => s
    case Some(t) => Server(t, s.saved + [SnapshotOf(t)])
  }

  // A snapshot that this node could have taken.
  ghost predicate Own(t: Topo, snap: Snap) {
    exists u :: Coherent(u) && u.self == t.self && u.nodes == t.nodes && SnapshotOf(u) == snap
  }

  ghost predicate ServerOk(s: Server) {
    Coherent(s.topo) && forall k | 0 <= k < |s.saved| :: Own(s.topo, s.saved[k])
  }

  lemma {:induction false} LoadedOwn(t: Topo, snap: Snap)
    requires Coherent(t) && Own(t, snap) && snap.epoch >= t.epoch
    ensures Coherent(Loaded(t, snap).value)
    ensures forall u | Coherent(u) && u.self == t.self && u.nodes == t.nodes && SnapshotOf(u) == snap ::
              Loaded(t, snap).value == u
  {
    var v := Loaded(t, snap).value;
    forall u | Coherent(u) && u.self == t.self && u.nodes == t.nodes && SnapshotOf(u) == snap ensures v == u {
      forall s | 0 <= s < NUM_SLOTS ensures v.owned[s] == u.owned[s] { assert SlotOk(u, s); }
      assert v.owned == u.owned;
    }
  }

  lemma {:induction false} AppliedKeeps(t: Topo, saved: seq<Snap>, op: Op)
    requires Coherent(t) && forall k | 0 <= k < |saved| :: Own(t, saved[k])
    ensures var r := Applied(t, saved, op);
            r.Some? ==>
              && Coherent(r.value) && r.value.self == t.self && r.value.nodes == t.nodes
              && (r.value.epoch >= t.epoch || r.value.epoch == Bump(t.epoch))
  {
    var r := Applied(t, saved, op);
    if r.Some? {
      if op.Reload? {
        LoadedOwn(t, saved[op.saved]);
      } else {
        forall s | 0 <= s < NUM_SLOTS ensures SlotOk(r.value, s) { assert SlotOk(t, s); }
        assert op.SetMigrating? || op.SetImporting? ==> KnownId(r.value, op.id);
        assert forall id | KnownId(t, id) :: KnownId(r.value, id);
      }
    }
  }

  function After(s: Server, ops: seq<Op>): Server
    requires ServerOk(s)
    decreases |ops|
  {
    if ops == [] then s else StepOk(s, ops[0]); After(Next(s, ops[0]), ops[1..])
  }

  lemma {:induction false} StepOk(s: Server, op: Op)
    requires ServerOk(s)
    ensures ServerOk(Next(s, op))
  {
    AppliedKeeps(s.topo, s.saved, op);
    var t := Next(s, op);
    forall k | 0 <= k < |t.saved| ensures Own(t.topo, t.saved[k]) {
      if k < |s.saved| { assert Own(s.topo, s.saved[k]); }
    }
  }

  // In every run from a freshly built table: a migrating slot is owned here, an
  // importing one is not, the owned flags mirror the owners, and every saved
  // snapshot is one this node may load again.
  lemma {:induction false} EveryRunCoherent(s: Server, ops: seq<Op>)
    requires ServerOk(s)
    ensures ServerOk(After(s, ops))
    decreases |ops|
  {
    if ops != [] {
      StepOk(s, ops[0]);
      EveryRunCoherent(Next(s, ops[0]), ops[1..]);
    }
  }

  ghost predicate SavedNoLater(s: Server) {
    forall k | 0 <= k < |s.saved| :: s.saved[k].epoch <= s.topo.epoch
  }

  lemma {:induction false} StepEpoch(s: Server, op: Op)
    requires ServerOk(s) && SavedNoLater(s) && s.topo.epoch + 1 < EPOCHS
    ensures s.topo.epoch <= Next(s, op).topo.epoch <= s.topo.epoch + 1 && SavedNoLater(Next(s, op))
  {
  }

  // The epoch never decreases in a run shorter than the 64-bit counter.
  lemma {:induction false} EpochNeverDecreases(s: Server, ops: seq<Op>)
    requires ServerOk(s) && SavedNoLater(s) && s.topo.epoch + |ops| < EPOCHS
    ensures s.topo.epoch <= After(s, ops).topo.epoch <= s.topo.epoch + |ops|
    ensures SavedNoLater(After(s, ops))
    decreases |ops|
  {
    if ops != [] {
      StepOk(s, ops[0]);
      StepEpoch(s, ops[0]);
      EpochNeverDecreases(Next(s, ops[0]), ops[1..]);
    }
  }

  // A node that restarts from its configuration and loads its last snapshot is back
  // in the state it saved.
  lemma {:induction false} RestartRestores(built: Topo, t: Topo)
    requires Coherent(built) && built.epoch == 0 && Coherent(t) && t.self == built.self && t.nodes == built.nodes
    ensures Loaded(built, SnapshotOf(t)) == Some(t)
  {
    assert Own(built, SnapshotOf(t));
    LoadedOwn(built, SnapshotOf(t));
  }
}
