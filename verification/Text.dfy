/**
 * Text the way the source's library reads and writes it: decimal numbers, lines and
 * blank-separated fields.  Characters stand for bytes.
 */
module Text {
  import opened Options

  // ---------------------------------------------------------------- decimal numbers

  function Digit(d: nat): char
    requires d < 10
  {
    '0' + d as char
  }

  predicate IsDigit(c: char) { '0' <= c <= '9' }

  function DigitValue(c: char): nat
    requires IsDigit(c)
  {
    (c - '0') as nat
  }

  function FormatNat(n: nat): string {
    if n < 10 then [Digit(n)] else FormatNat(n / 10) + [Digit(n % 10)]
  }

  function FormatInt(i: int): string { if i < 0 then "-" + FormatNat(-i) else FormatNat(i) }

  predicate AllDigits(s: string) { forall c <- s :: IsDigit(c) }

  function NatValue(s: string): nat
    requires AllDigits(s)
  {
    if s == [] then 0 else NatValue(s[..|s| - 1]) * 10 + DigitValue(s[|s| - 1])
  }

  // A 64-bit unsigned number: digits only, at least one, in range.
  function ParseUint(s: string): Option<nat> {
    if s == [] || !AllDigits(s) || NatValue(s) >= 0x1_0000_0000_0000_0000 then None else Some(NatValue(s))
  }

  predicate Int64(i: int) { -0x8000_0000_0000_0000 <= i < 0x8000_0000_0000_0000 }

  // A 64-bit signed number, with an optional sign.
  function ParseInt(s: string): Option<int> {
    if s == [] then None else
    var negative := s[0] == '-';
    var digits := if negative || s[0] == '+' then s[1..] else s;
    match ParseUint(digits)
    case None => None
    case Some(n) =>
      var m: int := n;
      var i := if negative then -m else m;
      if Int64(i) then Some(i) else None
  }

  lemma {:induction false} FormatNatValue(n: nat)
    ensures FormatNat(n) != [] && AllDigits(FormatNat(n)) && NatValue(FormatNat(n)) == n
  {
    if n >= 10 {
      FormatNatValue(n / 10);
      var s := FormatNat(n);
      assert s[..|s| - 1] == FormatNat(n / 10);
    }
  }

  lemma {:induction false} ParseFormatNat(n: nat)
    requires n < 0x1_0000_0000_0000_0000
    ensures ParseUint(FormatNat(n)) == Some(n)
  {
    FormatNatValue(n);
  }

  lemma {:induction false} ParseFormatInt(i: int)
    requires Int64(i)
    ensures ParseInt(FormatInt(i)) == Some(i)
  {
    var n := if i < 0 then -i else i;
    FormatNatValue(n);
    var s := FormatInt(i);
    if i < 0 {
      assert s[1..] == FormatNat(n);
    } else {
      assert s[0] in s;
    }
  }

  lemma {:induction false} FormatIntHas(i: int, c: char)
    requires !IsDigit(c) && c != '-'
    ensures c !in FormatInt(i)
  {
    FormatNatValue(if i < 0 then -i else i);
  }

  // ---------------------------------------------------------------- lines

  // The index of the first `c`, or -1.
  function Index(s: string, c: char): (i: int)
    ensures -1 <= i < |s|
    ensures i >= 0 ==> s[i] == c && c !in s[..i]
    ensures i < 0 ==> c !in s
  {
    if s == [] then -1
    else if s[0] == c then 0
    else
      var i := Index(s[1..], c);
      assert i >= 0 ==> s[..i + 1] == [s[0]] + s[1..][..i];
      if i < 0 then -1 else i + 1
  }

  lemma {:induction false} IndexIs(s: string, c: char, i: nat)
    requires i < |s| && s[i] == c && c !in s[..i]
    ensures Index(s, c) == i
  {
    var j := Index(s, c);
    assert s[i] in s;
    assert forall k | 0 <= k < i :: s[..i][k] == s[k];
    assert forall k | 0 <= k < j :: s[..j][k] == s[k];
  }

  // ---------------------------------------------------------------- fields

  predicate IsSpace(c: char) {
    var n := c as int;
    || 9 <= n <= 13 || n == 32 || n == 0x85 || n == 0xA0 || n == 0x1680 || 0x2000 <= n <= 0x200A
    || n == 0x2028 || n == 0x2029 || n == 0x202F || n == 0x205F || n == 0x3000
  }

  predicate Word(s: string) { s != [] && forall c <- s :: !IsSpace(c) }

  // The length of the leading run of characters that are blanks, or that are not.
  function Run(s: string, space: bool): (n: nat)
    ensures n <= |s| && forall i | 0 <= i < n :: IsSpace(s[i]) == space
    ensures n < |s| ==> IsSpace(s[n]) != space
  {
    if s == [] || IsSpace(s[0]) != space then 0 else 1 + Run(s[1..], space)
  }

  // The words of a line.
  function Fields(s: string): seq<string>
    decreases |s|
  {
    if s == [] then []
    else if IsSpace(s[0]) then Fields(s[1..])
    else var n := Run(s, false); [s[..n]] + Fields(s[n..])
  }

  lemma {:induction false} RunIs(s: string, n: nat)
    requires n <= |s| && (forall i | 0 <= i < n :: !IsSpace(s[i])) && (n < |s| ==> IsSpace(s[n]))
    ensures Run(s, false) == n
  {
  }

  // A word followed by a blank, or by nothing.
  lemma {:induction false} FieldsWord(w: string, rest: string)
    requires Word(w) && (rest != [] ==> IsSpace(rest[0]))
    ensures Fields(w + rest) == [w] + Fields(rest)
  {
    var s := w + rest;
    assert s[0] == w[0] && w[0] in w;
    RunIs(s, |w|);
    assert s[..|w|] == w && s[|w|..] == rest;
  }

  lemma {:induction false} FieldsNext(w: string, rest: string)
    requires Word(w)
    ensures Fields(w + " " + rest) == [w] + Fields(rest)
  {
    var more := " " + rest;
    assert w + " " + rest == w + more;
    FieldsWord(w, more);
    assert more[1..] == rest;
  }

  function Spaced(words: seq<string>): string {
    if words == [] then "" else if |words| == 1 then words[0] else words[0] + " " + Spaced(words[1..])
  }

  // Words joined by blanks are the words again.
  lemma {:induction false} FieldsSpaced(words: seq<string>)
    requires forall w <- words :: Word(w)
    ensures Fields(Spaced(words)) == words
  {
    if |words| == 1 {
      FieldsWord(words[0], []);
      assert words[0] + [] == words[0] && words == [words[0]];
    } else if words != [] {
      FieldsSpaced(words[1..]);
      FieldsNext(words[0], Spaced(words[1..]));
      assert words == [words[0]] + words[1..];
    }
  }

  lemma {:induction false} SpacedHas(words: seq<string>, c: char)
    requires forall w <- words :: Word(w)
    requires IsSpace(c) && c != ' '
    ensures c !in Spaced(words)
  {
    if words != [] {
      assert Word(words[0]);
      SpacedHas(words[1..], c);
    }
  }

  lemma {:induction false} FieldsTwo(a: string, b: string)
    requires Word(a) && Word(b)
    ensures Fields(a + " " + b) == [a, b]
  {
    FieldsNext(a, b);
    FieldsWord(b, []);
    assert b + [] == b;
  }

  lemma {:induction false} FieldsThree(a: string, b: string, c: string)
    requires Word(a) && Word(b) && Word(c)
    ensures Fields(a + " " + (b + " " + c)) == [a, b, c]
  {
    FieldsNext(a, b + " " + c);
    FieldsTwo(b, c);
  }

  lemma {:induction false} NumberIsWord(n: nat)
    ensures Word(FormatNat(n))
  {
    FormatNatValue(n);
  }
}
