/**
 * The replication backlog: the most recent changes of the store, numbered from 1.
 */
module Backlog {
  import opened Options
  import opened Bytes

  datatype Op = Op(offset: nat, key: Bytes)

  // How many of `n` operations have slid out of a backlog of this size.
  function Slid(n: nat, max: nat): nat { if n > max then n - max else 0 }

  class Backlog {
    const max: nat
    var ops: seq<Op>
    var base: nat
    var next: nat
    // Every key ever appended, including those that slid out.
    ghost var history: seq<Bytes>

    // The kept operations are the last ones of the history, with their numbers.
    ghost predicate Valid()
      reads this
    {
      && next == |history| && base + |ops| == next && base == Slid(|history|, max)
      && forall i | 0 <= i < |ops| :: ops[i].offset == base + i + 1 && ops[i].key == history[base + i]
    }

    constructor (max: int)
      ensures Valid() && history == [] && this.max == if max <= 0 then 1024 else max
    {
      this.max := if max <= 0 then 1024 else max;
      ops, base, next, history := [], 0, 0, [];
    }

    method Append(key: Bytes) returns (offset: nat)
      requires Valid()
      modifies this
      ensures Valid() && history == old(history) + [key] && offset == |history|
    {
      next := next + 1;
      ops := ops + [Op(next, key)];
      history := history + [key];
      if |ops| > max {
        var n := |ops| - max;
        ops := ops[n..];
        base := base + n;
      }
      return next;
    }

    // Everything after the offset, unless some of it has slid out.
    method Since(offset: nat) returns (missed: Option<seq<Op>>)
      requires Valid()
      ensures missed.None? <==> offset < base
      ensures missed.Some? ==>
                && |missed.value| == (if offset < |history| then |history| - offset else 0)
                && forall i | 0 <= i < |missed.value| :: missed.value[i].key == history[offset + i]
    {
      if offset < base {
        return None;
      }
      var out: seq<Op> := [];
      for i := 0 to |ops|
        invariant |out| == if base + i > offset then base + i - offset else 0
        invariant forall k | 0 <= k < |out| :: out[k].key == history[offset + k]
      {
        if ops[i].offset > offset {
          out := out + [ops[i]];
        }
      }
      return Some(out);
    }

    function Latest(): (n: nat)
      reads this
    {
      next
    }
  }
}
