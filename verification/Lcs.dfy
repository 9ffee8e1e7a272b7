/**
 * The LCS command: a flat dynamic-programming table, a backtrack through it and the
 * merging of aligned positions into ranges.
 */
module Lcs {

  // ---------------------------------------------------------------- meaning

  // `u` can be obtained from `a` by leaving characters out.
  predicate Subseq(u: string, a: string) {
    || u == []
    || (a != [] && Subseq(u, a[..|a| - 1]))
    || (a != [] && u[|u| - 1] == a[|a| - 1] && Subseq(u[..|u| - 1], a[..|a| - 1]))
  }

  predicate Common(u: string, a: string, b: string) { Subseq(u, a) && Subseq(u, b) }

  function Max(x: nat, y: nat): nat { if x >= y then x else y }

  // The length computed for the first `i` and the first `j` characters.
  function Len(a: string, b: string, i: nat, j: nat): nat
    requires i <= |a| && j <= |b|
  {
    if i == 0 || j == 0 then 0
    else if a[i - 1] == b[j - 1] then Len(a, b, i - 1, j - 1) + 1
    else Max(Len(a, b, i - 1, j), Len(a, b, i, j - 1))
  }

  lemma {:induction false} SubseqDropLast(u: string, a: string)
    requires u != [] && Subseq(u, a)
    ensures a != [] && Subseq(u[..|u| - 1], a[..|a| - 1])
  {
    var u', a' := u[..|u| - 1], a[..|a| - 1];
    if !Subseq(u', a') {
      SubseqDropLast(u, a');
      SubseqLonger(u', a'[..|a'| - 1], a');
    }
  }

  lemma {:induction false} SubseqLonger(u: string, a: string, b: string)
    requires b != [] && a == b[..|b| - 1] && Subseq(u, a)
    ensures Subseq(u, b)
  {
  }

  // No common subsequence is longer than the computed length.
  lemma {:induction false} LenIsUpperBound(a: string, b: string, i: nat, j: nat, u: string)
    requires i <= |a| && j <= |b| && Common(u, a[..i], b[..j])
    ensures |u| <= Len(a, b, i, j)
  {
    if u != [] {
      var a', b' := a[..i], b[..j];
      assert a' != [] && b' != [] by { SubseqDropLast(u, a'); SubseqDropLast(u, b'); }
      assert a'[..i - 1] == a[..i - 1] && b'[..j - 1] == b[..j - 1];
      if a[i - 1] == b[j - 1] {
        SubseqDropLast(u, a');
        SubseqDropLast(u, b');
        LenIsUpperBound(a, b, i - 1, j - 1, u[..|u| - 1]);
      } else if u[|u| - 1] != a[i - 1] {
        LenIsUpperBound(a, b, i - 1, j, u);
      } else {
        LenIsUpperBound(a, b, i, j - 1, u);
      }
    }
  }

  // ---------------------------------------------------------------- alignments

  type Pair = (int, int)

  // Positions of equal characters, last first, all within the given prefixes.
  predicate Aligned(a: string, b: string, i: nat, j: nat, pairs: seq<Pair>)
    requires i <= |a| && j <= |b|
  {
    && (forall k | 0 <= k < |pairs| :: 0 <= pairs[k].0 < i && 0 <= pairs[k].1 < j && a[pairs[k].0] == b[pairs[k].1])
    && (forall k, l | 0 <= k < l < |pairs| :: Below(pairs[l], pairs[k]))
  }

  predicate Below(p: Pair, q: Pair) { p.0 < q.0 && p.1 < q.1 }

  // The characters at the aligned positions, in string order.
  function Text(a: string, pairs: seq<Pair>): string
    requires forall k | 0 <= k < |pairs| :: 0 <= pairs[k].0 < |a|
  {
    if pairs == [] then [] else Text(a, pairs[1..]) + [a[pairs[0].0]]
  }

  lemma {:induction false} SubseqOfPrefix(u: string, a: string, x: nat, i: nat)
    requires x <= i <= |a| && Subseq(u, a[..x])
    ensures Subseq(u, a[..i])
    decreases i
  {
    if x < i {
      assert a[..i][..i - 1] == a[..i - 1];
      SubseqOfPrefix(u, a, x, i - 1);
      SubseqLonger(u, a[..i - 1], a[..i]);
    }
  }

  lemma {:induction false} SubseqSnoc(u: string, a: string, x: nat, i: nat)
    requires x < i <= |a| && Subseq(u, a[..x])
    ensures Subseq(u + [a[x]], a[..i])
  {
    var v, p := u + [a[x]], a[..x + 1];
    assert v[..|v| - 1] == u && p[..|p| - 1] == a[..x];
    assert Subseq(v, p);
    SubseqOfPrefix(v, a, x + 1, i);
  }

  lemma {:induction false} TextIsCommon(a: string, b: string, i: nat, j: nat, pairs: seq<Pair>)
    requires i <= |a| && j <= |b| && Aligned(a, b, i, j, pairs)
    ensures |Text(a, pairs)| == |pairs| && Common(Text(a, pairs), a[..i], b[..j])
  {
    if pairs != [] {
      var (x, y) := pairs[0];
      var rest := pairs[1..];
      assert forall k | 0 <= k < |rest| :: rest[k] == pairs[k + 1] && Below(rest[k], pairs[0]);
      TextIsCommon(a, b, x, y, rest);
      SubseqSnoc(Text(a, rest), a, x, i);
      SubseqSnoc(Text(a, rest), b, y, j);
    }
  }

  // ---------------------------------------------------------------- the table

  const MAX_CELLS: nat := 8388608

  // Row `i`, column `j` of a table with `m + 1` columns, counted row by row.
  function Cell(i: nat, j: nat, m: nat): nat {
    if i == 0 then j else Cell(i - 1, j, m) + m + 1
  }

  lemma {:induction false} CellIs(i: nat, j: nat, m: nat)
    ensures Cell(i, j, m) == i * (m + 1) + j
  {
    if i > 0 {
      CellIs(i - 1, j, m);
      assert (i - 1) * (m + 1) + (m + 1) == i * (m + 1);
    }
  }

  lemma {:induction false} CellRows(x: nat, y: nat, i: nat, j: nat, m: nat)
    requires x < i && y <= m && j <= m
    ensures Cell(x, y, m) < Cell(i, j, m)
  {
    if x > 0 { CellRows(x - 1, y, i - 1, j, m); } else { CellFrom(i, j, m); }
  }

  lemma {:induction false} CellFrom(i: nat, j: nat, m: nat)
    ensures i > 0 ==> Cell(i, j, m) >= m + 1 + j
  {
    if i > 1 { CellFrom(i - 1, j, m); }
  }

  lemma {:induction false} CellSameRow(i: nat, y: nat, j: nat, m: nat)
    requires y < j
    ensures Cell(i, y, m) < Cell(i, j, m)
  {
    if i > 0 { CellSameRow(i - 1, y, j, m); }
  }

  lemma {:induction false} CellsApart(x: nat, y: nat, i: nat, j: nat, m: nat)
    requires y <= m && j <= m && (x, y) != (i, j)
    ensures Cell(x, y, m) != Cell(i, j, m)
  {
    if x < i { CellRows(x, y, i, j, m); }
    else if i < x { CellRows(i, j, x, y, m); }
    else if y < j { CellSameRow(i, y, j, m); }
    else { CellSameRow(i, j, y, m); }
  }

  lemma {:induction false} CellInside(i: nat, j: nat, n: nat, m: nat)
    requires i <= n && j <= m
    ensures Cell(i, j, m) < (n + 1) * (m + 1)
  {
    CellIs(n + 1, 0, m);
    CellRows(i, j, n + 1, 0, m);
  }

  // The cells already computed when the loops are about to fill (i, j).
  predicate Filled(x: nat, y: nat, i: nat, j: nat) { x == 0 || y == 0 || x < i || (x == i && y < j) }

  ghost predicate TableHolds(a: string, b: string, tab: seq<int>, i: nat, j: nat) {
    && |tab| == (|a| + 1) * (|b| + 1)
    && forall x, y | 0 <= x <= |a| && 0 <= y <= |b| ::
         && Cell(x, y, |b|) < |tab|
         && tab[Cell(x, y, |b|)] == if Filled(x, y, i, j) then Len(a, b, x, y) else 0
  }

  lemma {:induction false} EmptyTable(a: string, b: string, tab: seq<int>)
    requires |tab| == (|a| + 1) * (|b| + 1) && forall k | 0 <= k < |tab| :: tab[k] == 0
    ensures TableHolds(a, b, tab, 1, 1)
  {
    forall x, y | 0 <= x <= |a| && 0 <= y <= |b| ensures Cell(x, y, |b|) < |tab| {
      CellInside(x, y, |a|, |b|);
    }
  }

  lemma {:induction false} CellFilled(a: string, b: string, tab: seq<int>, i: nat, j: nat)
    requires 1 <= i <= |a| && 1 <= j <= |b| && TableHolds(a, b, tab, i, j)
    ensures Cell(i, j, |b|) < |tab|
    ensures TableHolds(a, b, tab[Cell(i, j, |b|) := Len(a, b, i, j)], i, j + 1)
  {
    var tab' := tab[Cell(i, j, |b|) := Len(a, b, i, j)];
    forall x, y | 0 <= x <= |a| && 0 <= y <= |b|
      ensures Cell(x, y, |b|) < |tab'|
      ensures tab'[Cell(x, y, |b|)] == if Filled(x, y, i, j + 1) then Len(a, b, x, y) else 0
    {
      if (x, y) != (i, j) { CellsApart(x, y, i, j, |b|); }
    }
  }

  lemma {:induction false} NextRow(a: string, b: string, tab: seq<int>, i: nat)
    requires 1 <= i && TableHolds(a, b, tab, i, |b| + 1)
    ensures TableHolds(a, b, tab, i + 1, 1)
  {
    forall x, y | 0 <= x <= |a| && 0 <= y <= |b|
      ensures tab[Cell(x, y, |b|)] == if Filled(x, y, i + 1, 1) then Len(a, b, x, y) else 0
    {
      assert Filled(x, y, i + 1, 1) == Filled(x, y, i, |b| + 1);
    }
  }

  // The table, or None when it would be larger than the limit.
  method LcsTable(a: string, b: string) returns (tab: array?<int>, l: int)
    ensures tab == null <==> (|a| + 1) * (|b| + 1) > MAX_CELLS
    ensures tab == null ==> l == 0
    ensures tab != null ==> fresh(tab) && TableHolds(a, b, tab[..], |a| + 1, 1) && l == Len(a, b, |a|, |b|)
  {
    var n, m := |a|, |b|;
    if (n + 1) * (m + 1) > MAX_CELLS {
      return null, 0;
    }
    var t := new int[(n + 1) * (m + 1)](_ => 0);
    var stride := m + 1;
    EmptyTable(a, b, t[..]);
    for i := 1 to n + 1
      invariant TableHolds(a, b, t[..], i, 1)
    {
      for j := 1 to m + 1
        invariant TableHolds(a, b, t[..], i, j)
      {
        CellFilled(a, b, t[..], i, j);
        FillCell(a, b, t, i, j);
      }
      NextRow(a, b, t[..], i);
    }
    TableAt(a, b, t[..], n, m);
    tab := t;
    l := t[n * stride + m];
  }

  // The cells that the recurrence reads, at their places in the flat table.
  lemma {:induction false} Neighbours(a: string, b: string, tab: seq<int>, i: nat, j: nat, stride: nat)
    requires 1 <= i <= |a| && 1 <= j <= |b| && TableHolds(a, b, tab, i, j) && stride == |b| + 1
    ensures 0 <= (i - 1) * stride + j - 1 < |tab| && tab[(i - 1) * stride + j - 1] == Len(a, b, i - 1, j - 1)
    ensures 0 <= (i - 1) * stride + j < |tab| && tab[(i - 1) * stride + j] == Len(a, b, i - 1, j)
    ensures 0 <= i * stride + j - 1 < |tab| && tab[i * stride + j - 1] == Len(a, b, i, j - 1)
    ensures i * stride + j == Cell(i, j, |b|) < |tab|
  {
    CellIs(i, j, |b|);
    CellIs(i - 1, j, |b|);
    CellIs(i, j - 1, |b|);
    CellIs(i - 1, j - 1, |b|);
    assert tab[Cell(i - 1, j - 1, |b|)] == Len(a, b, i - 1, j - 1);
    assert tab[Cell(i - 1, j, |b|)] == Len(a, b, i - 1, j);
    assert tab[Cell(i, j - 1, |b|)] == Len(a, b, i, j - 1);
    assert tab[Cell(i, j, |b|)] == 0;
  }

  // The body of the inner loop.
  method FillCell(a: string, b: string, tab: array<int>, i: nat, j: nat)
    requires 1 <= i <= |a| && 1 <= j <= |b| && TableHolds(a, b, tab[..], i, j)
    modifies tab
    ensures Cell(i, j, |b|) < tab.Length && tab[..] == old(tab[..])[Cell(i, j, |b|) := Len(a, b, i, j)]
  {
    var stride := |b| + 1;
    Neighbours(a, b, tab[..], i, j, stride);
    if a[i - 1] == b[j - 1] {
      tab[i * stride + j] := tab[(i - 1) * stride + j - 1] + 1;
    } else if tab[(i - 1) * stride + j] >= tab[i * stride + j - 1] {
      tab[i * stride + j] := tab[(i - 1) * stride + j];
    } else {
      tab[i * stride + j] := tab[i * stride + j - 1];
    }
  }

  lemma {:induction false} TableAt(a: string, b: string, tab: seq<int>, i: nat, j: nat)
    requires i <= |a| && j <= |b| && TableHolds(a, b, tab, |a| + 1, 1)
    ensures 0 <= i * (|b| + 1) + j < |tab| && tab[i * (|b| + 1) + j] == Len(a, b, i, j)
  {
    CellIs(i, j, |b|);
    assert Filled(i, j, |a| + 1, 1);
  }

  lemma {:induction false} AlignedSnoc(a: string, b: string, pairs: seq<Pair>, p: Pair)
    requires Aligned(a, b, |a|, |b|, pairs)
    requires 0 <= p.0 < |a| && 0 <= p.1 < |b| && a[p.0] == b[p.1]
    requires forall k | 0 <= k < |pairs| :: Below(p, pairs[k])
    ensures Aligned(a, b, |a|, |b|, pairs + [p])
  {
  }

  // Whether the cell above (i, j) is at least the one on its left.
  method UpFirst(a: string, b: string, tab: array<int>, i: nat, j: nat) returns (up: bool)
    requires TableHolds(a, b, tab[..], |a| + 1, 1) && 1 <= i <= |a| && 1 <= j <= |b|
    ensures up == (Len(a, b, i - 1, j) >= Len(a, b, i, j - 1))
  {
    var stride := |b| + 1;
    TableAt(a, b, tab[..], i - 1, j);
    TableAt(a, b, tab[..], i, j - 1);
    up := tab[(i - 1) * stride + j] >= tab[i * stride + j - 1];
  }

  // The aligned positions, last first: as many as the longest common subsequence has.
  method LcsBacktrack(a: string, b: string, tab: array<int>) returns (pairs: seq<Pair>)
    requires TableHolds(a, b, tab[..], |a| + 1, 1)
    ensures Aligned(a, b, |a|, |b|, pairs) && |pairs| == Len(a, b, |a|, |b|)
  {
    var i, j := |a|, |b|;
    ghost var total := Len(a, b, |a|, |b|);
    pairs := [];
    while i > 0 && j > 0
      invariant 0 <= i <= |a| && 0 <= j <= |b|
      invariant Aligned(a, b, |a|, |b|, pairs)
      invariant forall k | 0 <= k < |pairs| :: i <= pairs[k].0 && j <= pairs[k].1
      invariant |pairs| + Len(a, b, i, j) == total
    {
      var up := UpFirst(a, b, tab, i, j);
      if a[i - 1] == b[j - 1] {
        AlignedSnoc(a, b, pairs, (i - 1, j - 1));
        pairs := pairs + [(i - 1, j - 1)];
        i, j := i - 1, j - 1;
      } else if up {
        i := i - 1;
      } else {
        j := j - 1;
      }
    }
  }

  // The reply without options: a longest common subsequence, or None when too long.
  method LcsString(a: string, b: string) returns (ok: bool, out: string)
    ensures ok <==> (|a| + 1) * (|b| + 1) <= MAX_CELLS
    ensures ok ==> Common(out, a, b) && forall u | Common(u, a, b) :: |u| <= |out|
  {
    out := [];
    var tab, l := LcsTable(a, b);
    if tab == null {
      return false, out;
    }
    var pairs := LcsBacktrack(a, b, tab);
    var i := |pairs|;
    while i > 0
      invariant 0 <= i <= |pairs|
      invariant out == Text(a, pairs[i..])
    {
      i := i - 1;
      assert pairs[i..][1..] == pairs[i + 1..];
      out := out + [a[pairs[i].0]];
    }
    assert pairs[0..] == pairs && a[..|a|] == a && b[..|b|] == b;
    TextIsCommon(a, b, |a|, |b|, pairs);
    forall u | Common(u, a, b) ensures |u| <= |out| { LenIsUpperBound(a, b, |a|, |b|, u); }
    return true, out;
  }

  // ---------------------------------------------------------------- ranges

  // Aligned runs a0..a1 and b0..b1.
  datatype Run = Run(a0: int, a1: int, b0: int, b1: int)

  predicate Joins(p: Pair, q: Pair) { q.0 == p.0 - 1 && q.1 == p.1 - 1 }

  // A diagonal run written out, last position first.
  function Expand(r: Run): seq<Pair>
    decreases r.a1 - r.a0
  {
    if r.a1 < r.a0 then [] else Expand(r.(a0 := r.a0 + 1, b0 := r.b0 + 1)) + [(r.a0, r.b0)]
  }

  function ExpandAll(runs: seq<Run>): seq<Pair> {
    if runs == [] then [] else ExpandAll(runs[..|runs| - 1]) + Expand(runs[|runs| - 1])
  }

  predicate Diagonal(r: Run) { r.a0 <= r.a1 && r.a1 - r.a0 == r.b1 - r.b0 }

  // The runs are diagonal, list exactly the given pairs in order, and none of them
  // could be joined with the next.
  ghost predicate MaximalRuns(pairs: seq<Pair>, runs: seq<Run>) {
    && ExpandAll(runs) == pairs
    && (forall r <- runs :: Diagonal(r))
    && (forall k, l | 0 <= k < l < |runs| && l == k + 1 :: !Joins((runs[k].a0, runs[k].b0), (runs[l].a1, runs[l].b1)))
  }

  function LongEnough(runs: seq<Run>, min: int): seq<Run> {
    if runs == [] then []
    else LongEnough(runs[..|runs| - 1], min)
         + if runs[|runs| - 1].a1 - runs[|runs| - 1].a0 + 1 < min then [] else [runs[|runs| - 1]]
  }

  lemma {:induction false} RunAdded(before: seq<Pair>, runs: seq<Run>, r: Run, min: int)
    requires MaximalRuns(before, runs) && Diagonal(r)
    requires runs != [] ==> !Joins((runs[|runs| - 1].a0, runs[|runs| - 1].b0), (r.a1, r.b1))
    ensures MaximalRuns(before + Expand(r), runs + [r])
    ensures LongEnough(runs + [r], min) == LongEnough(runs, min) + if r.a1 - r.a0 + 1 < min then [] else [r]
  {
    var all := runs + [r];
    assert all[..|all| - 1] == runs && all[|all| - 1] == r;
    forall k, l | 0 <= k < l < |all| && l == k + 1
      ensures !Joins((all[k].a0, all[k].b0), (all[l].a1, all[l].b1))
    {
      if l < |runs| { assert all[k] == runs[k] && all[l] == runs[l]; }
    }
  }

  lemma {:induction false} RunGrows(pairs: seq<Pair>, k: nat, last: nat, r: Run)
    requires k <= last && last + 1 < |pairs| && Diagonal(r)
    requires Expand(r) == pairs[k..last + 1] && pairs[last + 1] == (r.a0 - 1, r.b0 - 1)
    ensures Expand(Run(r.a0 - 1, r.a1, r.b0 - 1, r.b1)) == pairs[k..last + 2]
  {
    var longer := Run(r.a0 - 1, r.a1, r.b0 - 1, r.b1);
    assert longer.(a0 := longer.a0 + 1, b0 := longer.b0 + 1) == r;
    assert pairs[k..last + 2] == pairs[k..last + 1] + [pairs[last + 1]];
  }

  // The longest diagonal run that starts at pair `k`, and its last pair.
  method RunFrom(pairs: seq<Pair>, k: nat) returns (r: Run, last: nat)
    requires k < |pairs|
    ensures k <= last < |pairs| && Diagonal(r) && Expand(r) == pairs[k..last + 1]
    ensures (r.a1, r.b1) == pairs[k] && (r.a0, r.b0) == pairs[last]
    ensures last + 1 < |pairs| ==> !Joins(pairs[last], pairs[last + 1])
  {
    var (a1, b1) := pairs[k];
    var a0, b0 := a1, b1;
    last := k;
    while last + 1 < |pairs| && Joins((a0, b0), pairs[last + 1])
      invariant k <= last < |pairs| && (a0, b0) == pairs[last]
      invariant Diagonal(Run(a0, a1, b0, b1)) && Expand(Run(a0, a1, b0, b1)) == pairs[k..last + 1]
    {
      RunGrows(pairs, k, last, Run(a0, a1, b0, b1));
      last := last + 1;
      a0, b0 := pairs[last].0, pairs[last].1;
    }
    r := Run(a0, a1, b0, b1);
  }

  lemma {:induction false} AllLongEnough(runs: seq<Run>, min: int)
    requires min <= 1 && forall r <- runs :: Diagonal(r)
    ensures LongEnough(runs, min) == runs
  {
    if runs != [] {
      assert runs[|runs| - 1] in runs;
      AllLongEnough(runs[..|runs| - 1], min);
    }
  }

  // The reported ranges are the maximal diagonal runs that reach MINMATCHLEN.
  method LcsRanges(pairs: seq<Pair>, min: int) returns (out: seq<Run>)
    ensures exists runs :: MaximalRuns(pairs, runs) && out == LongEnough(runs, min)
    ensures min <= 1 ==> MaximalRuns(pairs, out)
  {
    out := [];
    var k := 0;
    ghost var done: seq<Pair>, runs: seq<Run> := [], [];
    while k < |pairs|
      invariant 0 <= k <= |pairs| && done == pairs[..k] && (k == 0 <==> runs == [])
      invariant MaximalRuns(done, runs) && out == LongEnough(runs, min)
      invariant k > 0 ==> (runs[|runs| - 1].a0, runs[|runs| - 1].b0) == pairs[k - 1]
      invariant 0 < k < |pairs| ==> !Joins(pairs[k - 1], pairs[k])
    {
      var r, last := RunFrom(pairs, k);
      RunAdded(done, runs, r, min);
      done, runs := done + Expand(r), runs + [r];
      if r.a1 - r.a0 + 1 >= min {
        out := out + [r];
      }
      k := last + 1;
    }
    assert MaximalRuns(pairs, runs);
    if min <= 1 {
      AllLongEnough(runs, min);
    }
  }
}
