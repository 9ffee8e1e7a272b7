/**
 * The glob matcher behind KEYS, SCAN, PSUBSCRIBE and the other pattern arguments.
 * Bytes are characters here; nothing depends on their range.
 *
 * A pattern means a list of tokens, and a token list matches a string by a definition
 * in which a star stands for any run of characters.  The matcher itself walks both
 * strings once and remembers only the last star; `MatchBytes` proves that this loses
 * no match and finds no false one.
 */
module Glob {

  datatype Range = Range(lo: char, hi: char)

  datatype Token =
    | Star
    | Any
    | Lit(c: char)
    | Class(negated: bool, ranges: seq<Range>)

  // ---------------------------------------------------------------- meaning

  predicate Accepts(t: Token, c: char)
    requires !t.Star?
  {
    match t
    case Any => true
    case Lit(d) => c == d
    case Class(negated, ranges) => negated != Covered(ranges, c)
  }

  predicate Covered(ranges: seq<Range>, c: char) {
    exists r <- ranges :: r.lo <= c <= r.hi
  }

  ghost predicate Matches(toks: seq<Token>, s: string) {
    if toks == [] then s == []
    else if toks[0].Star? then exists k | 0 <= k <= |s| :: Matches(toks[1..], s[k..])
    else s != [] && Accepts(toks[0], s[0]) && Matches(toks[1..], s[1..])
  }

  // ---------------------------------------------------------------- patterns

  // The first unescaped closing bracket at or after `i`, or -1.
  function CloseFrom(p: string, i: nat): (end: int)
    ensures end < 0 || i <= end < |p|
    decreases |p| - i
  {
    if i >= |p| then -1
    else if p[i] == '\\' then CloseFrom(p, i + 2)
    else if p[i] == ']' then i
    else CloseFrom(p, i + 1)
  }

  // The bracket that closes the class opened at `i`; one right after the opening is a
  // member of the class.
  function ClassEnd(p: string, i: nat): (end: int)
    ensures end < 0 || i < end < |p|
  {
    if i + 1 < |p| && p[i + 1] == ']' then CloseFrom(p, i + 2) else CloseFrom(p, i + 1)
  }

  // The member of a class body at `i`, an escape, a range or a single character, and
  // where the next one starts.
  function MemberAt(body: string, i: nat): (m: (Range, nat))
    requires i < |body|
    ensures i < m.1 <= |body|
  {
    if body[i] == '\\' && i + 1 < |body| then (Range(body[i + 1], body[i + 1]), i + 2)
    else if i + 2 < |body| && body[i + 1] == '-' && body[i + 2] != ']' then (Range(body[i], body[i + 2]), i + 3)
    else (Range(body[i], body[i]), i + 1)
  }

  function MembersFrom(body: string, i: nat): seq<Range>
    decreases |body| - i
  {
    if i >= |body| then [] else [MemberAt(body, i).0] + MembersFrom(body, MemberAt(body, i).1)
  }

  function ClassOf(body: string): (t: Token)
    ensures t.Class?
  {
    if body != [] && body[0] == '^' then Class(true, MembersFrom(body, 1)) else Class(false, MembersFrom(body, 0))
  }

  function TokenAt(p: string, i: nat): Token
    requires i < |p|
  {
    if p[i] == '*' then Star
    else if p[i] == '?' then Any
    else if p[i] == '\\' && i + 1 < |p| then Lit(p[i + 1])
    else if p[i] == '[' && ClassEnd(p, i) >= 0 then ClassOf(p[i + 1..ClassEnd(p, i)])
    else Lit(p[i])
  }

  function NextAt(p: string, i: nat): (j: nat)
    requires i < |p|
    ensures i < j <= |p|
  {
    if p[i] == '\\' && i + 1 < |p| then i + 2
    else if p[i] == '[' && ClassEnd(p, i) >= 0 then ClassEnd(p, i) + 1
    else i + 1
  }

  function TokensFrom(p: string, i: nat): seq<Token>
    decreases |p| - i
  {
    if i >= |p| then [] else [TokenAt(p, i)] + TokensFrom(p, NextAt(p, i))
  }

  // ---------------------------------------------------------------- classes

  method ScanClassEnd(p: string, pi: nat) returns (end: int)
    requires pi < |p|
    ensures end == ClassEnd(p, pi)
  {
    var i := pi + 1;
    if i < |p| && p[i] == ']' {
      i := i + 1;
    }
    while i < |p|
      invariant CloseFrom(p, i) == ClassEnd(p, pi)
    {
      if p[i] == '\\' {
        i := i + 2;
        continue;
      }
      if p[i] == ']' {
        return i;
      }
      i := i + 1;
    }
    return -1;
  }

  lemma {:induction false} CoveredMore(r: Range, rest: seq<Range>, c: char)
    ensures Covered([r] + rest, c) <==> r.lo <= c <= r.hi || Covered(rest, c)
  {
    assert forall q :: q in [r] + rest <==> q == r || q in rest;
  }

  method ClassMatch(body: string, c: char) returns (yes: bool)
    ensures yes == Accepts(ClassOf(body), c)
  {
    var i := 0;
    var neg := false;
    if i < |body| && body[i] == '^' {
      neg := true;
      i := i + 1;
    }
    var matched := false;
    ghost var all := MembersFrom(body, i);
    while i < |body|
      invariant 0 <= i <= |body|
      invariant Covered(all, c) <==> matched || Covered(MembersFrom(body, i), c)
    {
      ghost var m := MemberAt(body, i);
      CoveredMore(m.0, MembersFrom(body, m.1), c);
      var lo, hi;
      if body[i] == '\\' && i + 1 < |body| {
        lo, hi := body[i + 1], body[i + 1];
        i := i + 2;
      } else if i + 2 < |body| && body[i + 1] == '-' && body[i + 2] != ']' {
        lo, hi := body[i], body[i + 2];
        i := i + 3;
      } else {
        lo, hi := body[i], body[i];
        i := i + 1;
      }
      assert m == (Range(lo, hi), i);
      if lo <= c <= hi {
        matched := true;
      }
    }
    return if neg then !matched else matched;
  }

  // ---------------------------------------------------------------- matching

  // Matching the pattern from `pi` against the string from `si`, by position.
  ghost predicate MatchesAt(p: string, pi: nat, s: string, si: nat)
    decreases |p| - pi
  {
    if pi >= |p| then si == |s|
    else if TokenAt(p, pi).Star? then
      var next := NextAt(p, pi);
      exists k | si <= k <= |s| :: MatchesAt(p, next, s, k)
    else si < |s| && Accepts(TokenAt(p, pi), s[si]) && MatchesAt(p, NextAt(p, pi), s, si + 1)
  }

  lemma {:induction false} StarUnfolds(r: seq<Token>, s: string, si: nat)
    requires si <= |s|
    ensures Matches([Star] + r, s[si..]) <==> exists k | si <= k <= |s| :: Matches(r, s[k..])
  {
    var toks, rest := [Star] + r, s[si..];
    assert toks[1..] == r;
    if k :| si <= k <= |s| && Matches(r, s[k..]) { assert rest[k - si..] == s[k..]; }
    if k :| 0 <= k <= |rest| && Matches(r, rest[k..]) { assert rest[k..] == s[si + k..]; }
  }

  lemma {:induction false} StepUnfolds(t: Token, r: seq<Token>, s: string, si: nat)
    requires !t.Star? && si <= |s|
    ensures Matches([t] + r, s[si..]) <==> si < |s| && Accepts(t, s[si]) && Matches(r, s[si + 1..])
  {
    assert ([t] + r)[1..] == r;
    if si < |s| { assert s[si..][1..] == s[si + 1..]; }
  }

  lemma {:induction false} MatchesByPosition(p: string, pi: nat, s: string, si: nat)
    requires si <= |s|
    ensures MatchesAt(p, pi, s, si) <==> Matches(TokensFrom(p, pi), s[si..])
    decreases |p| - pi
  {
    if pi < |p| {
      var t, next := TokenAt(p, pi), NextAt(p, pi);
      var r := TokensFrom(p, next);
      forall k | si <= k <= |s| ensures MatchesAt(p, next, s, k) <==> Matches(r, s[k..]) {
        MatchesByPosition(p, next, s, k);
      }
      if t.Star? { StarUnfolds(r, s, si); } else { StepUnfolds(t, r, s, si); }
    }
  }

  // The pattern position `n` tokens after `pi`, when none of them is a star.
  function Skip(p: string, pi: nat, n: nat): (j: int)
    ensures j == -1 || j >= 0
    decreases n
  {
    if n == 0 then pi
    else if pi >= |p| || TokenAt(p, pi).Star? then -1
    else Skip(p, NextAt(p, pi), n - 1)
  }

  lemma {:induction false} SkipMore(p: string, pi: nat, n: nat)
    requires 0 <= Skip(p, pi, n) < |p| && !TokenAt(p, Skip(p, pi, n)).Star?
    ensures Skip(p, pi, n + 1) == NextAt(p, Skip(p, pi, n))
    decreases n
  {
    if n > 0 { SkipMore(p, NextAt(p, pi), n - 1); }
  }

  // Star-free tokens take one character each.
  lemma {:induction false} StarFreePrefix(p: string, pi: nat, n: nat, s: string, k: nat)
    requires Skip(p, pi, n) >= 0 && k <= |s| && MatchesAt(p, pi, s, k)
    ensures k + n <= |s| && MatchesAt(p, Skip(p, pi, n), s, k + n)
    decreases n
  {
    if n > 0 { StarFreePrefix(p, NextAt(p, pi), n - 1, s, k + 1); }
  }

  // The pattern from `pi` matches the string from some position on.
  ghost predicate Somewhere(p: string, pi: nat, s: string, from: nat) {
    exists k | from <= k <= |s| :: MatchesAt(p, pi, s, k)
  }

  lemma {:induction false} StarAt(p: string, pi: nat, s: string, si: nat)
    requires pi < |p| && p[pi] == '*'
    ensures MatchesAt(p, pi, s, si) <==> Somewhere(p, pi + 1, s, si)
  {
  }

  // What the matcher knows: the rest of the pattern has to match the rest of the
  // string, and after a star the part behind it may also match from a later mark.
  ghost predicate Tracks(p: string, s: string, pi: nat, si: nat, star: int, mark: nat) {
    && si <= |s| && pi <= |p| && star < pi
    && if star < 0 then MatchesAt(p, 0, s, 0) <==> MatchesAt(p, pi, s, si)
       else
         && mark <= si && Skip(p, star + 1, si - mark) == pi
         && (MatchesAt(p, 0, s, 0) <==> Somewhere(p, star + 1, s, mark))
         && (MatchesAt(p, star + 1, s, mark) <==> MatchesAt(p, pi, s, si))
  }

  lemma {:induction false} NewStar(p: string, s: string, pi: nat, si: nat, star: int, mark: nat)
    requires Tracks(p, s, pi, si, star, mark) && pi < |p| && p[pi] == '*'
    ensures Tracks(p, s, pi + 1, si, pi, si)
  {
    StarAt(p, pi, s, si);
    if star >= 0 {
      // Giving the older star more cannot help: the newer one can skip instead.
      var after := star + 1;
      if k :| mark <= k <= |s| && MatchesAt(p, after, s, k) {
        StarFreePrefix(p, after, si - mark, s, k);
        StarAt(p, pi, s, k + si - mark);
      }
    }
  }

  lemma {:induction false} Advance(p: string, s: string, pi: nat, si: nat, star: int, mark: nat)
    requires Tracks(p, s, pi, si, star, mark) && pi < |p| && si < |s|
    requires !TokenAt(p, pi).Star? && Accepts(TokenAt(p, pi), s[si])
    ensures Tracks(p, s, NextAt(p, pi), si + 1, star, mark)
  {
    if star >= 0 { SkipMore(p, star + 1, si - mark); }
  }

  lemma {:induction false} Backtrack(p: string, s: string, pi: nat, si: nat, star: int, mark: nat)
    requires Tracks(p, s, pi, si, star, mark) && si < |s|
    requires pi < |p| ==> !TokenAt(p, pi).Star? && !Accepts(TokenAt(p, pi), s[si])
    ensures star < 0 ==> !MatchesAt(p, 0, s, 0)
    ensures star >= 0 ==> Tracks(p, s, star + 1, mark + 1, star, mark + 1)
  {
    assert !MatchesAt(p, pi, s, si);
  }

  lemma {:induction false} AtTheEnd(p: string, s: string, pi: nat, star: int, mark: nat)
    requires Tracks(p, s, pi, |s|, star, mark)
    ensures MatchesAt(p, 0, s, 0) <==> MatchesAt(p, pi, s, |s|)
  {
    if star >= 0 {
      var after := star + 1;
      if k :| mark <= k <= |s| && MatchesAt(p, after, s, k) {
        StarFreePrefix(p, after, |s| - mark, s, k);
      }
    }
  }

  // Does the token at `pi`, which is not a star, take the character?
  method TokenHit(p: string, pi: nat, c: char) returns (hit: bool, next: nat)
    requires pi < |p| ==> p[pi] != '*'
    ensures hit <==> pi < |p| && Accepts(TokenAt(p, pi), c)
    ensures hit ==> next == NextAt(p, pi)
  {
    if pi < |p| && p[pi] == '?' {
      return true, pi + 1;
    } else if pi + 1 < |p| && p[pi] == '\\' {
      return p[pi + 1] == c, pi + 2;
    } else if pi < |p| && p[pi] == '[' {
      var end := ScanClassEnd(p, pi);
      if end < 0 {
        return p[pi] == c, pi + 1;
      }
      hit := ClassMatch(p[pi + 1..end], c);
      return hit, end + 1;
    }
    return pi < |p| && p[pi] == c, pi + 1;
  }

  // The matcher says yes exactly when the pattern's tokens match the whole string.
  method MatchBytes(p: string, s: string) returns (yes: bool)
    ensures yes <==> Matches(TokensFrom(p, 0), s)
  {
    MatchesByPosition(p, 0, s, 0);
    assert s[0..] == s;
    var pi: nat, si: nat := 0, 0;
    var star: int, mark: nat := -1, 0;
    while si < |s|
      invariant star >= -1 && mark <= |s|
      invariant Tracks(p, s, pi, si, star, mark)
      decreases |p| - star, |s| - mark, |p| - pi
    {
      if pi < |p| && p[pi] == '*' {
        NewStar(p, s, pi, si, star, mark);
        star, mark := pi, si;
        pi := pi + 1;
        continue;
      }
      var hit, next := TokenHit(p, pi, s[si]);
      if hit {
        Advance(p, s, pi, si, star, mark);
        pi, si := next, si + 1;
        continue;
      }
      // Mismatch: let the last star take one more character.
      Backtrack(p, s, pi, si, star, mark);
      if star < 0 {
        return false;
      }
      mark := mark + 1;
      si, pi := mark, star + 1;
    }
    AtTheEnd(p, s, pi, star, mark);
    while pi < |p| && p[pi] == '*'
      invariant 0 <= pi <= |p|
      invariant MatchesAt(p, 0, s, 0) <==> MatchesAt(p, pi, s, |s|)
    {
      StarAt(p, pi, s, |s|);
      pi := pi + 1;
    }
    return pi == |p|;
  }
}
