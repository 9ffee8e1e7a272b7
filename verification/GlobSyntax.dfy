/**
 * How patterns are written: every spelling of a token list reads back as that list, and
 * what each spelling takes, said about characters.
 */
module GlobSyntax {
  import opened Glob

  // ---------------------------------------------------------------- spelling

  function Joined(texts: seq<string>): string {
    if texts == [] then "" else texts[0] + Joined(texts[1..])
  }

  // A character that stands for itself inside a class wherever it is.
  predicate PlainMember(c: char) { c != '\\' && c != ']' && c != '-' && c != '^' }

  // A member is written escaped, as itself, or as a range.
  predicate SpellsMember(text: string, r: Range) {
    || (text == ['\\', r.lo] && r.lo == r.hi)
    || (text == [r.lo] && r.lo == r.hi && PlainMember(r.lo))
    || (text == [r.lo, '-', r.hi] && PlainMember(r.lo) && r.hi != '\\' && r.hi != ']')
  }

  ghost predicate SpellsMembers(texts: seq<string>, rs: seq<Range>) {
    |texts| == |rs| && forall k | 0 <= k < |texts| :: SpellsMember(texts[k], rs[k])
  }

  // A class opens with the members themselves, with a caret, or with a closing bracket
  // that counts as a member.
  ghost predicate SpellsClass(text: string, t: Token) {
    exists lead: string, texts: seq<string>, rs: seq<Range> :: ClassSpelled(text, t, lead, texts, rs)
  }

  function ClassText(lead: string, texts: seq<string>): string { ['['] + lead + Joined(texts) + [']'] }

  ghost predicate ClassSpelled(text: string, t: Token, lead: string, texts: seq<string>, rs: seq<Range>) {
    && text == ClassText(lead, texts) && SpellsMembers(texts, rs)
    && (|| (lead == "" && rs != [] && t == Class(false, rs))
        || (lead == "^" && t == Class(true, rs))
        || (lead == "]" && t == Class(false, [Range(']', ']')] + rs)))
  }

  ghost predicate Spells(text: string, t: Token) {
    match t
    case Star => text == "*"
    case Any => text == "?"
    case Lit(c) => text == ['\\', c] || (text == [c] && c != '*' && c != '?' && c != '\\' && c != '[')
    case Class(_, _) => SpellsClass(text, t)
  }

  ghost predicate SpellsAll(texts: seq<string>, toks: seq<Token>) {
    |texts| == |toks| && forall k | 0 <= k < |texts| :: Spells(texts[k], toks[k])
  }

  // ---------------------------------------------------------------- reading classes

  // `text` stands in `p` at `i`.
  ghost predicate Stands(p: string, i: nat, text: string) { i + |text| <= |p| && p[i..i + |text|] == text }

  lemma {:induction false} StandsParts(p: string, i: nat, a: string, b: string)
    requires Stands(p, i, a + b)
    ensures Stands(p, i, a) && Stands(p, i + |a|, b)
  {
    var all := p[i..i + |a + b|];
    assert all[..|a|] == p[i..i + |a|] && all[|a|..] == p[i + |a|..i + |a| + |b|];
    assert (a + b)[..|a|] == a && (a + b)[|a|..] == b;
  }

  lemma {:induction false} SplitsOff(p: string, i: nat, a: string, b: string)
    requires i <= |p| && p[i..] == a + b
    ensures Stands(p, i, a) && p[i + |a|..] == b
    ensures b != "" ==> i + |a| < |p| && p[i + |a|] == b[0]
    ensures b == "" ==> i + |a| == |p|
  {
    var rest := p[i..];
    assert rest[..|a|] == a && rest[|a|..] == b;
    assert p[i..i + |a|] == rest[..|a|] && p[i + |a|..] == rest[|a|..];
    if b != "" { assert p[i + |a|] == p[i + |a|..][0]; }
  }

  lemma {:induction false} StandsAt(p: string, i: nat, text: string, k: nat)
    requires Stands(p, i, text) && k < |text|
    ensures p[i + k] == text[k]
  {
    assert p[i..i + |text|][k] == p[i + k];
  }

  // One member, seen by the search for the closing bracket and by the reader.
  lemma {:induction false} MemberStep(p: string, i: nat, text: string, r: Range)
    requires SpellsMember(text, r) && Stands(p, i, text)
    ensures CloseFrom(p, i) == CloseFrom(p, i + |text|)
    ensures i + |text| == |p| || p[i + |text|] != '-' ==> MemberAt(p, i) == (r, i + |text|)
  {
    forall k | 0 <= k < |text| ensures p[i + k] == text[k] { StandsAt(p, i, text, k); }
    if text == [r.lo, '-', r.hi] {
      assert p[i] == r.lo && p[i + 1] == '-' && p[i + 2] == r.hi;
      assert CloseFrom(p, i) == CloseFrom(p, i + 1);
      assert CloseFrom(p, i + 1) == CloseFrom(p, i + 2);
      assert CloseFrom(p, i + 2) == CloseFrom(p, i + 3);
    }
  }

  // No member starts with a dash.
  lemma {:induction false} NoDash(texts: seq<string>, rs: seq<Range>)
    requires SpellsMembers(texts, rs)
    ensures Joined(texts) != "" ==> Joined(texts)[0] != '-'
    ensures texts != [] ==> Joined(texts) != "" && Joined(texts)[0] == texts[0][0] && texts[0][0] != ']'
  {
    if texts != [] { assert SpellsMember(texts[0], rs[0]); }
  }

  lemma {:induction false} ClosesAfter(p: string, i: nat, texts: seq<string>, rs: seq<Range>)
    requires SpellsMembers(texts, rs) && Stands(p, i, Joined(texts) + "]")
    ensures CloseFrom(p, i) == i + |Joined(texts)|
    decreases |texts|
  {
    if texts == [] {
      StandsAt(p, i, "]", 0);
      assert Joined(texts) + "]" == "]";
    } else {
      var rest := Joined(texts[1..]) + "]";
      assert Joined(texts) + "]" == texts[0] + rest;
      StandsParts(p, i, texts[0], rest);
      MemberStep(p, i, texts[0], rs[0]);
      ClosesAfter(p, i + |texts[0]|, texts[1..], rs[1..]);
    }
  }

  lemma {:induction false} ReadsMembers(body: string, i: nat, texts: seq<string>, rs: seq<Range>)
    requires SpellsMembers(texts, rs) && i <= |body| && body[i..] == Joined(texts)
    ensures MembersFrom(body, i) == rs
    decreases |texts|
  {
    if texts != [] {
      var text, rest := texts[0], texts[1..];
      SplitsOff(body, i, text, Joined(rest));
      NoDash(rest, rs[1..]);
      MemberStep(body, i, text, rs[0]);
      ReadsMembers(body, i + |text|, rest, rs[1..]);
      assert rs == [rs[0]] + rs[1..] && |text| > 0;
    }
  }

  lemma {:induction false} ClassParts(lead: string, texts: seq<string>)
    ensures var text := ClassText(lead, texts);
            && |text| == |lead| + |Joined(texts)| + 2 && text[0] == '['
            && text == (['['] + lead) + (Joined(texts) + "]") && text[1..|text| - 1] == lead + Joined(texts)
            && text[1] == (lead + Joined(texts) + "]")[0]
  {
  }

  // A class is closed by its own last bracket.
  lemma {:induction false} ClassCloses(p: string, i: nat, text: string, t: Token, lead: string, texts: seq<string>,
                                       rs: seq<Range>)
    requires ClassSpelled(text, t, lead, texts, rs) && Stands(p, i, text)
    ensures |text| >= 2 && p[i] == '[' && ClassEnd(p, i) == i + |text| - 1
    ensures p[i + 1..i + |text| - 1] == lead + Joined(texts)
  {
    ClassParts(lead, texts);
    StandsParts(p, i, ['['] + lead, Joined(texts) + "]");
    ClosesAfter(p, i + 1 + |lead|, texts, rs);
    StandsAt(p, i, text, 0);
    StandsAt(p, i, text, 1);
    NoDash(texts, rs);
    ClassStarts(p, i, lead);
    Inside(p, i, text);
  }

  lemma {:induction false} Inside(p: string, i: nat, text: string)
    requires Stands(p, i, text) && |text| >= 2
    ensures p[i + 1..i + |text| - 1] == text[1..|text| - 1]
  {
    var a, b := p[i + 1..i + |text| - 1], text[1..|text| - 1];
    forall k | 0 <= k < |a| ensures a[k] == b[k] { StandsAt(p, i, text, k + 1); }
  }

  // Where the search for the closing bracket starts.
  lemma {:induction false} ClassStarts(p: string, i: nat, lead: string)
    requires i + 1 < |p| && (lead == "" || lead == "^" || lead == "]")
    requires if lead == "" then p[i + 1] != ']' else p[i + 1] == lead[0]
    ensures ClassEnd(p, i) == CloseFrom(p, i + 1 + |lead|)
  {
    if lead == "^" { assert CloseFrom(p, i + 1) == CloseFrom(p, i + 2); }
  }

  lemma {:induction false} ReadsClass(lead: string, texts: seq<string>, rs: seq<Range>, text: string, t: Token)
    requires ClassSpelled(text, t, lead, texts, rs)
    ensures ClassOf(lead + Joined(texts)) == t
  {
    var body := lead + Joined(texts);
    NoDash(texts, rs);
    assert body[|lead|..] == Joined(texts);
    ReadsMembers(body, |lead|, texts, rs);
    if lead == "]" {
      assert MemberAt(body, 0) == (Range(']', ']'), 1);
    } else if lead == "" {
      assert SpellsMember(texts[0], rs[0]) && body[0] == texts[0][0];
    }
  }

  // ---------------------------------------------------------------- reading patterns

  lemma {:induction false} ReadsOne(p: string, i: nat, text: string, t: Token)
    requires Spells(text, t) && Stands(p, i, text)
    ensures text != "" && i < |p| && TokenAt(p, i) == t && NextAt(p, i) == i + |text|
  {
    if t.Class? {
      var lead: string, texts: seq<string>, rs: seq<Range> :| ClassSpelled(text, t, lead, texts, rs);
      ClassCloses(p, i, text, t, lead, texts, rs);
      ReadsClass(lead, texts, rs, text, t);
    } else {
      forall k | 0 <= k < |text| ensures p[i + k] == text[k] { StandsAt(p, i, text, k); }
    }
  }

  lemma {:induction false} ReadsFirst(p: string, i: nat, text: string, toks: seq<Token>)
    requires toks != [] && Spells(text, toks[0]) && Stands(p, i, text)
    requires TokensFrom(p, i + |text|) == toks[1..]
    ensures TokensFrom(p, i) == toks
  {
    ReadsOne(p, i, text, toks[0]);
    assert toks == [toks[0]] + toks[1..];
  }

  lemma {:induction false} ReadsFrom(p: string, i: nat, texts: seq<string>, toks: seq<Token>)
    requires SpellsAll(texts, toks) && i <= |p| && p[i..] == Joined(texts)
    ensures TokensFrom(p, i) == toks
    decreases |texts|
  {
    if texts != [] {
      var text, rest := texts[0], texts[1..];
      SplitsOff(p, i, text, Joined(rest));
      assert Spells(text, toks[0]);
      ReadsFrom(p, i + |text|, rest, toks[1..]);
      ReadsFirst(p, i, text, toks);
    }
  }

  // Every spelling of a token list reads back as that list.
  lemma {:induction false} ReadsBack(texts: seq<string>, toks: seq<Token>)
    requires SpellsAll(texts, toks)
    ensures TokensFrom(Joined(texts), 0) == toks
  {
    assert Joined(texts)[0..] == Joined(texts);
    ReadsFrom(Joined(texts), 0, texts, toks);
  }

  // An opening bracket that nothing closes, and a backslash at the end, are themselves.
  lemma {:induction false} LeftoversAreLiteral(p: string, i: nat)
    requires i < |p|
    ensures p[i] == '[' && ']' !in p[i + 1..] ==> TokenAt(p, i) == Lit('[') && NextAt(p, i) == i + 1
    ensures p[i] == '\\' && i + 1 == |p| ==> TokenAt(p, i) == Lit('\\') && NextAt(p, i) == i + 1
  {
    if p[i] == '[' && ']' !in p[i + 1..] {
      forall k | i + 1 <= k < |p| ensures p[k] != ']' { assert p[k] == p[i + 1..][k - i - 1]; }
      NeverCloses(p, i + 1);
    }
  }

  lemma {:induction false} NeverCloses(p: string, i: nat)
    requires forall k | i <= k < |p| :: p[k] != ']'
    ensures CloseFrom(p, i) == -1
    decreases |p| - i
  {
    if i < |p| { NeverCloses(p, if p[i] == '\\' then i + 2 else i + 1); }
  }

  // ---------------------------------------------------------------- what it takes

  // A list matches the joins of what its two parts match.
  lemma {:induction false} MatchesParts(a: seq<Token>, b: seq<Token>, s: string)
    ensures Matches(a + b, s) <==> exists k | 0 <= k <= |s| :: Matches(a, s[..k]) && Matches(b, s[k..])
    decreases |a|
  {
    if a == [] {
      assert a + b == b && s[0..] == s;
    } else {
      var rest := a[1..];
      assert (a + b)[0] == a[0] && (a + b)[1..] == rest + b;
      if a[0].Star? { StarParts(a, b, s); } else { StepParts(a, b, s); }
    }
  }

  lemma {:induction false} StepParts(a: seq<Token>, b: seq<Token>, s: string)
    requires a != [] && !a[0].Star? && (a + b)[1..] == a[1..] + b
    ensures Matches(a + b, s) <==> exists k | 0 <= k <= |s| :: Matches(a, s[..k]) && Matches(b, s[k..])
    decreases |a|, 0
  {
    if s != [] {
      MatchesParts(a[1..], b, s[1..]);
      forall k | 0 < k <= |s|
        ensures Matches(a, s[..k]) <==> Accepts(a[0], s[0]) && Matches(a[1..], s[1..][..k - 1])
        ensures s[k..] == s[1..][k - 1..]
      {
        assert s[..k][1..] == s[1..][..k - 1];
      }
      if k :| 0 <= k <= |s| - 1 && Matches(a[1..], s[1..][..k]) && Matches(b, s[1..][k..]) {
        assert s[k + 1..] == s[1..][k..];
      }
    }
  }

  lemma {:induction false} StarParts(a: seq<Token>, b: seq<Token>, s: string)
    requires a != [] && a[0].Star? && (a + b)[1..] == a[1..] + b
    ensures Matches(a + b, s) <==> exists k | 0 <= k <= |s| :: Matches(a, s[..k]) && Matches(b, s[k..])
    decreases |a|, 0
  {
    if j :| 0 <= j <= |s| && Matches(a[1..] + b, s[j..]) {
      MatchesParts(a[1..], b, s[j..]);
      var k :| 0 <= k <= |s| - j && Matches(a[1..], s[j..][..k]) && Matches(b, s[j..][k..]);
      assert s[j..][..k] == s[..j + k][j..] && s[j..][k..] == s[j + k..];
    }
    if k :| 0 <= k <= |s| && Matches(a, s[..k]) && Matches(b, s[k..]) {
      var j :| 0 <= j <= k && Matches(a[1..], s[..k][j..]);
      assert s[..k][j..] == s[j..][..k - j] && s[k..] == s[j..][k - j..];
      MatchesParts(a[1..], b, s[j..]);
    }
  }

  lemma {:induction false} OneToken(t: Token, s: string)
    ensures Matches([t], s) <==> if t.Star? then true else |s| == 1 && Accepts(t, s[0])
  {
    assert [t][1..] == [];
    if t.Star? { assert s[|s|..] == []; }
  }

  // A star takes everything, a question mark any one character, a literal itself only.
  lemma {:induction false} SimpleForms(c: char, s: string)
    ensures Matches(TokensFrom("*", 0), s)
    ensures Matches(TokensFrom("?", 0), s) <==> |s| == 1
    ensures Matches(TokensFrom(['\\', c], 0), s) <==> s == [c]
    ensures c != '*' && c != '?' ==> (Matches(TokensFrom([c], 0), s) <==> s == [c])
  {
    OneToken(Star, s);
    OneToken(Any, s);
    OneToken(Lit(c), s);
    assert TokensFrom("*", 0) == [Star] && TokensFrom("?", 0) == [Any] && TokensFrom(['\\', c], 0) == [Lit(c)];
    if c != '*' && c != '?' { assert TokensFrom([c], 0) == [Lit(c)]; }
  }

  // A class takes one character, within one of its ranges, or within none after a caret.
  lemma {:induction false} ClassForm(texts: seq<string>, rs: seq<Range>, s: string)
    requires SpellsMembers(texts, rs)
    ensures var hit := |s| == 1 && exists r <- rs :: r.lo <= s[0] <= r.hi;
            && (rs != [] ==> (Matches(TokensFrom(ClassText("", texts), 0), s) <==> hit))
            && (Matches(TokensFrom(ClassText("^", texts), 0), s) <==> |s| == 1 && !hit)
            && (Matches(TokensFrom(ClassText("]", texts), 0), s) <==> hit || s == "]")
  {
    var bracket := Range(']', ']');
    if rs != [] { OneClass("", texts, rs, Class(false, rs), s); }
    OneClass("^", texts, rs, Class(true, rs), s);
    OneClass("]", texts, rs, Class(false, [bracket] + rs), s);
    if |s| == 1 { CoveredMore(bracket, rs, s[0]); }
  }

  lemma {:induction false} OneClass(lead: string, texts: seq<string>, rs: seq<Range>, t: Token, s: string)
    requires ClassSpelled(ClassText(lead, texts), t, lead, texts, rs)
    ensures Matches(TokensFrom(ClassText(lead, texts), 0), s) <==> |s| == 1 && Accepts(t, s[0])
  {
    var text := ClassText(lead, texts);
    assert Spells(text, t);
    assert Joined([text]) == text;
    ReadsBack([text], [t]);
    OneToken(t, s);
  }
}
