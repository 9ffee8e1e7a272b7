/**
 * The gate in front of every keyed command of a cluster node: serve it here, or send
 * the client elsewhere.
 */
module Redirect {
  import opened Options
  import opened Topology

  datatype Verdict =
    | Serve
    | CrossSlot
    | ClusterDown
    | Moved(slot: int, addr: string)
    | Ask(slot: int, addr: string)

  // The hash slot of a key is left abstract.
  type SlotOf = string -> int

  function OwnerAddr(t: Topo, slot: int): string
    requires Shaped(t)
  {
    if ValidSlot(slot) && 0 <= t.owner[slot] < |t.nodes| then t.nodes[t.owner[slot]].addr else ""
  }

  function NodeAddrOr(t: Topo, id: string, fallback: string): string {
    var i := IndexOf(t.nodes, id);
    if i >= 0 then t.nodes[i].addr else fallback
  }

  predicate Owns(t: Topo, slot: int)
    requires Shaped(t)
  {
    ValidSlot(slot) && t.owned[slot] && t.owner[slot] == t.self
  }

  // The decision for a command on one slot, whose first key is or is not stored here.
  function Route(t: Topo, slot: int, name: string, present: bool, asked: bool): Verdict
    requires Shaped(t)
  {
    if slot in t.migrating then
      if name == "MIGRATE" || present then Serve
      else Ask(slot, NodeAddrOr(t, t.migrating[slot], OwnerAddr(t, slot)))
    else if slot in t.importing then
      if asked then Serve
      else if OwnerAddr(t, slot) == "" then ClusterDown
      else Moved(slot, OwnerAddr(t, slot))
    else if Owns(t, slot) then Serve
    else if OwnerAddr(t, slot) == "" then ClusterDown
    else if asked && present then Serve
    else if asked then Ask(slot, OwnerAddr(t, slot))
    else Moved(slot, OwnerAddr(t, slot))
  }

  // What the gate answers for one slot, read off who owns it and its marks: the owner
  // serves, except for a key that has left with a migration; anyone else serves only
  // after ASKING, a slot that it imports or a key that it has; a slot that nobody owns is
  // down; and every redirect names the owner, or the target of the migration.
  lemma {:induction false} RouteExactly(t: Topo, slot: int, name: string, present: bool, asked: bool)
    requires Coherent(t) && 0 <= slot < NUM_SLOTS && forall n <- t.nodes :: n.addr != ""
    ensures var v, own := Route(t, slot, name, present, asked), t.owner[slot];
            var left := slot in t.migrating && !present && name != "MIGRATE";
            var taken := slot in t.importing || (own != -1 && present);
            && (v == Serve <==> if own == t.self then !left else asked && taken)
            && (v == ClusterDown <==> own == -1 && !(slot in t.importing && asked))
            && (v.Moved? <==> !asked && own != -1 && own != t.self)
            && (v.Ask? <==> if own == t.self then left else asked && own != -1 && !taken)
            && v != CrossSlot
    ensures var v, own := Route(t, slot, name, present, asked), t.owner[slot];
            && (v.Moved? ==> 0 <= own < |t.nodes| && v == Moved(slot, t.nodes[own].addr))
            && (v.Ask? && own != t.self ==> 0 <= own < |t.nodes| && v == Ask(slot, t.nodes[own].addr))
            && (v.Ask? && own == t.self ==>
                  exists i | 0 <= i < |t.nodes| ::
                    slot in t.migrating && t.nodes[i].id == t.migrating[slot] && v == Ask(slot, t.nodes[i].addr))
  {
    assert SlotOk(t, slot);
    var own := t.owner[slot];
    if own >= 0 { assert t.nodes[own] in t.nodes; }
    if slot in t.migrating {
      var i := IndexOf(t.nodes, t.migrating[slot]);
      assert KnownId(t, t.migrating[slot]);
      assert i >= 0 && t.nodes[i] in t.nodes;
    }
  }

  predicate OneSlot(slotOf: SlotOf, keys: seq<string>) {
    forall i | 0 <= i < |keys| :: slotOf(keys[i]) == slotOf(keys[0])
  }

  // The per-connection flag that ASKING sets for the next command only.
  class AskRegistry {
    var asking: set<nat>

    constructor ()
      ensures asking == {}
    {
      asking := {};
    }

    method Set(conn: nat)
      modifies this
      ensures asking == old(asking) + {conn}
    {
      asking := asking + {conn};
    }

    method Consume(conn: nat) returns (was: bool)
      modifies this
      ensures was == (conn in old(asking)) && asking == old(asking) - {conn}
    {
      was := conn in asking;
      asking := asking - {conn};
    }

    // `keys` are the keys of the command, None when it has none or is malformed; a
    // replayed transaction and ASKING itself pass without touching the flag.
    method Intercept(conn: nat, t: Topo, slotOf: SlotOf, stored: set<string>,
                     replay: bool, name: string, keys: Option<seq<string>>)
      returns (v: Verdict)
      requires Shaped(t)
      modifies this
      ensures asking == if replay || name == "ASKING" then old(asking) else old(asking) - {conn}
      ensures replay || name == "ASKING" || keys.None? || keys.value == [] ==> v == Serve
      ensures !replay && name != "ASKING" && keys.Some? && keys.value != [] ==>
                v == if !OneSlot(slotOf, keys.value) then CrossSlot
                     else Route(t, slotOf(keys.value[0]), name, keys.value[0] in stored, conn in old(asking))
    {
      if replay || name == "ASKING" {
        return Serve;
      }
      var asked := Consume(conn);
      if keys.None? || keys.value == [] {
        return Serve;
      }
      var slot := slotOf(keys.value[0]);
      for i := 1 to |keys.value|
        invariant forall k | 0 <= k < i :: slotOf(keys.value[k]) == slot
      {
        if slotOf(keys.value[i]) != slot {
          return CrossSlot;
        }
      }
      var here := keys.value[0] in stored;
      if slot in t.migrating {
        if name == "MIGRATE" || here {
          return Serve;
        }
        return Ask(slot, NodeAddrOr(t, t.migrating[slot], OwnerAddr(t, slot)));
      }
      var owner := OwnerAddr(t, slot);
      if slot in t.importing {
        if asked {
          return Serve;
        }
        return if owner == "" then ClusterDown else Moved(slot, owner);
      }
      if Owns(t, slot) {
        return Serve;
      }
      if owner == "" {
        return ClusterDown;
      }
      if asked && here {
        return Serve;
      }
      return if asked then Ask(slot, owner) else Moved(slot, owner);
    }
  }
}
