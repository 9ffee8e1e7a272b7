/**
 * The wire format of requests and replies, RESP2 and RESP3.
 *
 * Main result: `DecodeEncode`, reading back an encoded value followed by anything gives
 * the value and leaves exactly what followed.
 */
module Resp {
  import opened Options
  import opened Text

  // Nil exists for bulk strings and arrays only.
  datatype Value =
    | Simple(s: string)
    | Error(s: string)
    | Integer(i: int)
    | Bulk(bulk: string)
    | NilBulk
    | Array(elems: seq<Value>)
    | NilArray
    | Null
    | Boolean(b: bool)
    | BigNumber(s: string)
    | BulkError(text: string)
    | Verbatim(format: string, text: string)
    | Map(pairs: seq<Pair>)
    | Set(members: seq<Value>)
    | Attribute(pairs: seq<Pair>)
    | Push(members: seq<Value>)

  datatype Pair = Pair(k: Value, v: Value)

  type Parsed<+T> = Option<(T, string)>

  // ---------------------------------------------------------------- encoding
  //
  // Every writer takes what follows it as its last argument.

  const CRLF: string := "\r\n"

  function PutLine(typ: char, s: string, tail: string): string { [typ] + (s + (CRLF + tail)) }

  function PutSized(typ: char, s: string, tail: string): string {
    PutLine(typ, FormatInt(|s|), s + (CRLF + tail))
  }

  function Encode(v: Value, tail: string): string
    decreases v
  {
    match v
    case Simple(s) => PutLine('+', s, tail)
    case Error(s) => PutLine('-', s, tail)
    case Integer(i) => PutLine(':', FormatInt(i), tail)
    case Bulk(s) => PutSized('$', s, tail)
    case NilBulk => PutLine('$', "-1", tail)
    case NilArray => PutLine('*', "-1", tail)
    case Array(vs) => PutLine('*', FormatInt(|vs|), EncodeAll(vs, tail))
    case Null => "_" + (CRLF + tail)
    case Boolean(b) => (if b then "#t" else "#f") + (CRLF + tail)
    case BigNumber(s) => PutLine('(', s, tail)
    case BulkError(s) => PutSized('!', s, tail)
    case Verbatim(format, s) => PutSized('=', format + (":" + s), tail)
    case Map(ps) => PutLine('%', FormatInt(|ps|), EncodePairs(ps, tail))
    case Set(vs) => PutLine('~', FormatInt(|vs|), EncodeAll(vs, tail))
    case Attribute(ps) => PutLine('|', FormatInt(|ps|), EncodePairs(ps, tail))
    case Push(vs) => PutLine('>', FormatInt(|vs|), EncodeAll(vs, tail))
  }

  function EncodeAll(vs: seq<Value>, tail: string): string
    decreases vs
  {
    if vs == [] then tail else Encode(vs[0], EncodeAll(vs[1..], tail))
  }

  function EncodePairs(ps: seq<Pair>, tail: string): string
    decreases ps
  {
    if ps == [] then tail else EncodePair(ps[0], EncodePairs(ps[1..], tail))
  }

  function EncodePair(p: Pair, tail: string): string
    decreases p
  {
    Encode(p.k, Encode(p.v, tail))
  }

  // ---------------------------------------------------------------- decoding

  function ReadLine(b: string): (r: Parsed<string>)
    ensures r.Some? ==> |r.value.1| < |b|
  {
    var i := Index(b, '\n');
    if i < 1 || b[i - 1] != '\r' then None else Some((b[..i - 1], b[i + 1..]))
  }

  function ReadInt(b: string): (r: Parsed<int>)
    ensures r.Some? ==> |r.value.1| < |b|
  {
    var (line, b) :- ReadLine(b);
    var n :- ParseInt(line);
    Some((n, b))
  }

  // `n` bytes and a line end.
  function ReadBody(b: string, n: nat): (r: Parsed<string>)
    ensures r.Some? ==> |r.value.1| <= |b|
  {
    if |b| < n + 2 || b[n..n + 2] != CRLF then None else Some((b[..n], b[n + 2..]))
  }

  function ReadSized(b: string): (r: Parsed<string>)
    ensures r.Some? ==> |r.value.1| < |b|
  {
    var (n, b) :- ReadInt(b);
    if n < 0 then None else ReadBody(b, n)
  }

  function ReadCrlf(b: string): (r: Option<string>)
    ensures r.Some? ==> |r.value| < |b|
  {
    if |b| < 2 || b[..2] != CRLF then None else Some(b[2..])
  }

  predicate IsTypeByte(c: char) {
    || c == '+' || c == '-' || c == ':' || c == '$' || c == '*' || c == '_' || c == '#' || c == ',' || c == '('
    || c == '!' || c == '=' || c == '%' || c == '~' || c == '|' || c == '>'
  }

  function Bulks(words: seq<string>): seq<Value> {
    seq(|words|, i requires 0 <= i < |words| => Bulk(words[i]))
  }

  // One value; a line that does not start with a type byte is an inline command.
  function Decode(b: string): (r: Parsed<Value>)
    ensures r.Some? ==> |r.value.1| < |b|
    decreases |b|, 0
  {
    if b == [] then None
    else if IsTypeByte(b[0]) then DecodeTyped(b[0], b[1..])
    else
      var (line, rest) :- ReadLine(b);
      Some((Array(Bulks(Fields(line))), rest))
  }

  // Doubles (',') are not modelled: their lines are refused here.
  function DecodeTyped(typ: char, b: string): (r: Parsed<Value>)
    ensures r.Some? ==> |r.value.1| <= |b|
    decreases |b|, 3
  {
    match typ
    case '+' => var (s, b) :- ReadLine(b); Some((Simple(s), b))
    case '-' => var (s, b) :- ReadLine(b); Some((Error(s), b))
    case ':' => var (n, b) :- ReadInt(b); Some((Integer(n), b))
    case '$' =>
      var (n, b) :- ReadInt(b);
      if n == -1 then Some((NilBulk, b))
      else if n < -1 then None
      else var (s, b) :- ReadBody(b, n); Some((Bulk(s), b))
    case '*' =>
      var (n, b) :- ReadInt(b);
      if n == -1 then Some((NilArray, b))
      else if n < -1 then None
      else var (vs, b) :- DecodeMore(n, b, []); Some((Array(vs), b))
    case '_' => var b :- ReadCrlf(b); Some((Null, b))
    case '#' =>
      if b == [] then None else
      var rest :- ReadCrlf(b[1..]);
      if b[0] == 't' then Some((Boolean(true), rest))
      else if b[0] == 'f' then Some((Boolean(false), rest))
      else None
    case '(' => var (s, b) :- ReadLine(b); Some((BigNumber(s), b))
    case '!' => var (s, b) :- ReadSized(b); Some((BulkError(s), b))
    case '=' =>
      var (s, b) :- ReadSized(b);
      var i := Index(s, ':');
      if i < 0 then None else Some((Verbatim(s[..i], s[i + 1..]), b))
    case '%' => var (ps, b) :- DecodePairs(b); Some((Map(ps), b))
    case '~' => var (vs, b) :- DecodeSeq(b); Some((Set(vs), b))
    case '|' => var (ps, b) :- DecodePairs(b); Some((Attribute(ps), b))
    case '>' => var (vs, b) :- DecodeSeq(b); Some((Push(vs), b))
    case _ => None
  }

  function DecodeSeq(b: string): (r: Parsed<seq<Value>>)
    ensures r.Some? ==> |r.value.1| <= |b|
    decreases |b|, 2
  {
    var (n, b) :- ReadInt(b);
    if n < 0 then None else DecodeMore(n, b, [])
  }

  function DecodePairs(b: string): (r: Parsed<seq<Pair>>)
    ensures r.Some? ==> |r.value.1| <= |b|
    decreases |b|, 2
  {
    var (n, b) :- ReadInt(b);
    if n < 0 then None else DecodeMorePairs(n, b, [])
  }

  function DecodeMore(n: nat, b: string, done: seq<Value>): (r: Parsed<seq<Value>>)
    ensures r.Some? ==> |r.value.1| <= |b|
    decreases |b|, 1
  {
    if n == 0 then Some((done, b)) else
    var (v, b) :- Decode(b);
    DecodeMore(n - 1, b, done + [v])
  }

  function DecodeMorePairs(n: nat, b: string, done: seq<Pair>): (r: Parsed<seq<Pair>>)
    ensures r.Some? ==> |r.value.1| <= |b|
    decreases |b|, 1
  {
    if n == 0 then Some((done, b)) else
    var (k, b) :- Decode(b);
    var (v, b) :- Decode(b);
    DecodeMorePairs(n - 1, b, done + [Pair(k, v)])
  }

  // ---------------------------------------------------------------- the round trip

  predicate LineText(s: string) { '\n' !in s }

  predicate Countable(n: nat) { n < 0x8000_0000_0000_0000 }

  // Line strings without line feeds, verbatim formats without a colon, integers and
  // lengths that fit into 64 bits.
  predicate WellFormed(v: Value)
    decreases v
  {
    match v
    case Simple(s) => LineText(s)
    case Error(s) => LineText(s)
    case BigNumber(s) => LineText(s)
    case Integer(i) => Int64(i)
    case Bulk(s) => Countable(|s|)
    case BulkError(s) => Countable(|s|)
    case Verbatim(format, s) => ':' !in format && Countable(|format| + 1 + |s|)
    case Array(vs) => Countable(|vs|) && forall w <- vs :: WellFormed(w)
    case Set(vs) => Countable(|vs|) && forall w <- vs :: WellFormed(w)
    case Push(vs) => Countable(|vs|) && forall w <- vs :: WellFormed(w)
    case Map(ps) => Countable(|ps|) && forall p <- ps :: WellFormedPair(p)
    case Attribute(ps) => Countable(|ps|) && forall p <- ps :: WellFormedPair(p)
    case _ => true
  }

  predicate WellFormedPair(p: Pair)
    decreases p
  {
    WellFormed(p.k) && WellFormed(p.v)
  }

  lemma {:induction false} LinePut(s: string, tail: string)
    requires LineText(s)
    ensures ReadLine(s + (CRLF + tail)) == Some((s, tail))
  {
    var b := s + (CRLF + tail);
    var i := |s| + 1;
    assert b[i] == '\n' && b[i - 1] == '\r' && b[..i] == s + ['\r'];
    IndexIs(b, '\n', i);
    assert b[..i - 1] == s && b[i + 1..] == tail;
  }

  lemma {:induction false} IntPut(n: int, tail: string)
    requires Int64(n)
    ensures ReadInt(FormatInt(n) + (CRLF + tail)) == Some((n, tail))
  {
    FormatIntHas(n, '\n');
    LinePut(FormatInt(n), tail);
    ParseFormatInt(n);
  }

  lemma {:induction false} BodyPut(s: string, tail: string)
    ensures ReadBody(s + (CRLF + tail), |s|) == Some((s, tail))
  {
    var b := s + (CRLF + tail);
    assert b[..|s|] == s && b[|s|..|s| + 2] == CRLF && b[|s| + 2..] == tail;
  }

  lemma {:induction false} SizedPut(s: string, tail: string)
    requires Countable(|s|)
    ensures ReadSized(FormatInt(|s|) + (CRLF + (s + (CRLF + tail)))) == Some((s, tail))
  {
    IntPut(|s|, s + (CRLF + tail));
    BodyPut(s, tail);
  }

  lemma {:induction false} CrlfPut(tail: string)
    ensures ReadCrlf(CRLF + tail) == Some(tail)
  {
    assert (CRLF + tail)[..2] == CRLF && (CRLF + tail)[2..] == tail;
  }

  // An inline command: words joined by blanks, the first not starting with a type byte.
  lemma {:induction false} InlineReads(words: seq<string>, tail: string)
    requires forall w <- words :: Word(w)
    requires Spaced(words) != "" ==> !IsTypeByte(Spaced(words)[0])
    ensures Decode(Spaced(words) + (CRLF + tail)) == Some((Array(Bulks(words)), tail))
  {
    var b := Spaced(words) + (CRLF + tail);
    SpacedHas(words, '\n');
    FieldsSpaced(words);
    LinePut(Spaced(words), tail);
    assert b[0] == if Spaced(words) == "" then '\r' else Spaced(words)[0];
  }

  // The wire form of each kind of value.
  lemma {:induction false} KnownLines()
    ensures Encode(Simple("OK"), "") == "+OK\r\n" && Encode(Error("ERR x"), "") == "-ERR x\r\n"
    ensures Encode(NilBulk, "") == "$-1\r\n" && Encode(NilArray, "") == "*-1\r\n" && Encode(Null, "") == "_\r\n"
    ensures Encode(Boolean(true), "") == "#t\r\n" && Encode(Boolean(false), "") == "#f\r\n"
    ensures Encode(Integer(-5), "") == ":-5\r\n" && Encode(BigNumber("99"), "") == "(99\r\n"
  {
    assert FormatNat(5) == "5";
  }

  lemma {:induction false} KnownSized()
    ensures PutSized('$', "key", "") == "$3\r\nkey\r\n"
    ensures Encode(Bulk("key"), "") == PutSized('$', "key", "")
    ensures Encode(BulkError("key"), "") == PutSized('!', "key", "")
    ensures Encode(Verbatim("txt", "hi"), "") == PutSized('=', "txt:hi", "")
  {
    assert FormatNat(3) == "3";
    assert "txt" + (":" + "hi") == "txt:hi";
  }

  lemma {:induction false} KnownLists()
    ensures Encode(Array([Null]), "") == "*1\r\n_\r\n" && Encode(Set([Null]), "") == "~1\r\n_\r\n"
    ensures Encode(Push([Null]), "") == ">1\r\n_\r\n"
    ensures Encode(Map([Pair(Null, Boolean(true))]), "") == "%1\r\n_\r\n#t\r\n"
    ensures Encode(Attribute([Pair(Null, Boolean(true))]), "") == "|1\r\n_\r\n#t\r\n"
  {
    assert FormatNat(1) == "1";
    KnownParts();
  }

  lemma {:induction false} KnownParts()
    ensures EncodeAll([Null], "") == "_\r\n" && EncodePairs([Pair(Null, Boolean(true))], "") == "_\r\n#t\r\n"
  {
    assert [Null][1..] == [] && [Pair(Null, Boolean(true))][1..] == [];
    assert Encode(Boolean(true), "") == "#t\r\n";
  }

  // Decoding a line looks at what follows its type byte.
  lemma {:induction false} TypedLine(typ: char, s: string, tail: string)
    requires IsTypeByte(typ)
    ensures Decode(PutLine(typ, s, tail)) == DecodeTyped(typ, s + (CRLF + tail))
  {
    assert PutLine(typ, s, tail)[1..] == s + (CRLF + tail);
  }

  lemma {:induction false} LinesPut(v: Value, tail: string)
    requires WellFormed(v) && (v.Simple? || v.Error? || v.BigNumber?)
    ensures Decode(Encode(v, tail)) == Some((v, tail))
  {
    LinePut(v.s, tail);
    TypedLine(if v.Simple? then '+' else if v.Error? then '-' else '(', v.s, tail);
  }

  lemma {:induction false} IntegerPut(i: int, tail: string)
    requires Int64(i)
    ensures Decode(Encode(Integer(i), tail)) == Some((Integer(i), tail))
  {
    TypedLine(':', FormatInt(i), tail);
    IntPut(i, tail);
  }

  lemma {:induction false} NilPut(v: Value, tail: string)
    requires v.NilBulk? || v.NilArray?
    ensures Decode(Encode(v, tail)) == Some((v, tail))
  {
    assert FormatNat(1) == "1";
    assert FormatInt(-1) == "-1";
    IntPut(-1, tail);
    TypedLine(if v.NilBulk? then '$' else '*', "-1", tail);
  }

  lemma {:induction false} BulkPut(s: string, tail: string)
    requires Countable(|s|)
    ensures Decode(Encode(Bulk(s), tail)) == Some((Bulk(s), tail))
  {
    TypedLine('$', FormatInt(|s|), s + (CRLF + tail));
    IntPut(|s|, s + (CRLF + tail));
    BodyPut(s, tail);
  }

  lemma {:induction false} BulkErrorPut(s: string, tail: string)
    requires Countable(|s|)
    ensures Decode(Encode(BulkError(s), tail)) == Some((BulkError(s), tail))
  {
    var b := SizedRead('!', s, tail);
    SizedTypes(b, s, tail);
  }

  lemma {:induction false} SizedRead(typ: char, s: string, tail: string) returns (b: string)
    requires IsTypeByte(typ) && Countable(|s|)
    ensures Decode(PutSized(typ, s, tail)) == DecodeTyped(typ, b) && ReadSized(b) == Some((s, tail))
  {
    b := FormatInt(|s|) + (CRLF + (s + (CRLF + tail)));
    TypedLine(typ, FormatInt(|s|), s + (CRLF + tail));
    SizedPut(s, tail);
  }

  lemma {:induction false} SizedTypes(b: string, s: string, rest: string)
    requires ReadSized(b) == Some((s, rest))
    ensures DecodeTyped('!', b) == Some((BulkError(s), rest))
    ensures Index(s, ':') >= 0
            ==> DecodeTyped('=', b) == Some((Verbatim(s[..Index(s, ':')], s[Index(s, ':') + 1..]), rest))
  {
  }

  lemma {:induction false} FormatSplits(format: string, s: string)
    requires ':' !in format
    ensures var body := format + (":" + s);
            Index(body, ':') == |format| && body[..|format|] == format && body[|format| + 1..] == s
  {
    var body := format + (":" + s);
    assert body[|format|] == ':' && body[..|format|] == format;
    IndexIs(body, ':', |format|);
  }

  lemma {:induction false} VerbatimPut(format: string, s: string, tail: string)
    requires ':' !in format && Countable(|format| + 1 + |s|)
    ensures Decode(Encode(Verbatim(format, s), tail)) == Some((Verbatim(format, s), tail))
  {
    FormatSplits(format, s);
    TypedVerbatim(format + (":" + s), |format|, tail);
  }

  lemma {:induction false} TypedVerbatim(body: string, i: nat, tail: string)
    requires Countable(|body|) && i < |body| && Index(body, ':') == i
    ensures Decode(PutSized('=', body, tail)) == Some((Verbatim(body[..i], body[i + 1..]), tail))
  {
    var b := SizedRead('=', body, tail);
    SizedTypes(b, body, tail);
  }

  lemma {:induction false} NullPut(tail: string)
    ensures Decode(Encode(Null, tail)) == Some((Null, tail))
  {
    assert Encode(Null, tail)[1..] == CRLF + tail;
    CrlfPut(tail);
  }

  lemma {:induction false} BooleanPut(b: bool, tail: string)
    ensures Decode(Encode(Boolean(b), tail)) == Some((Boolean(b), tail))
  {
    var e, c := Encode(Boolean(b), tail), if b then 't' else 'f';
    assert e[0] == '#' && e[1..] == [c] + (CRLF + tail);
    assert e[1..][1..] == CRLF + tail;
    CrlfPut(tail);
  }

  // Values without parts.
  lemma {:induction false} LeafPut(v: Value, tail: string)
    requires WellFormed(v) && !v.Array? && !v.Set? && !v.Push? && !v.Map? && !v.Attribute?
    ensures Decode(Encode(v, tail)) == Some((v, tail))
  {
    match v
    case Integer(i) => IntegerPut(i, tail);
    case NilBulk => NilPut(v, tail);
    case NilArray => NilPut(v, tail);
    case Bulk(s) => BulkPut(s, tail);
    case BulkError(s) => BulkErrorPut(s, tail);
    case Verbatim(format, s) => VerbatimPut(format, s, tail);
    case Null => NullPut(tail);
    case Boolean(b) => BooleanPut(b, tail);
    case _ => LinesPut(v, tail);
  }

  // Lists of values, once their parts are known to come back.
  lemma {:induction false} TypedList(v: Value, vs: seq<Value>, b: string, c: string, rest: string)
    requires v == Array(vs) || v == Set(vs) || v == Push(vs)
    requires ReadInt(b) == Some((|vs|, c)) && DecodeMore(|vs|, c, []) == Some((vs, rest))
    ensures DecodeTyped(if v.Array? then '*' else if v.Set? then '~' else '>', b) == Some((v, rest))
  {
  }

  lemma {:induction false} ListPut(typ: char, v: Value, vs: seq<Value>, body: string, tail: string)
    requires (typ == '*' && v == Array(vs)) || (typ == '~' && v == Set(vs)) || (typ == '>' && v == Push(vs))
    requires Countable(|vs|) && DecodeMore(|vs|, body, []) == Some((vs, tail))
    ensures Decode(PutLine(typ, FormatInt(|vs|), body)) == Some((v, tail))
  {
    IntPut(|vs|, body);
    TypedList(v, vs, FormatInt(|vs|) + (CRLF + body), body, tail);
    TypedLine(typ, FormatInt(|vs|), body);
  }

  lemma {:induction false} TypedPairs(v: Value, ps: seq<Pair>, b: string, c: string, rest: string)
    requires v == Map(ps) || v == Attribute(ps)
    requires ReadInt(b) == Some((|ps|, c)) && DecodeMorePairs(|ps|, c, []) == Some((ps, rest))
    ensures DecodeTyped(if v.Map? then '%' else '|', b) == Some((v, rest))
  {
  }

  lemma {:induction false} PairsPut(typ: char, v: Value, ps: seq<Pair>, body: string, tail: string)
    requires (typ == '%' && v == Map(ps)) || (typ == '|' && v == Attribute(ps))
    requires Countable(|ps|) && DecodeMorePairs(|ps|, body, []) == Some((ps, tail))
    ensures Decode(PutLine(typ, FormatInt(|ps|), body)) == Some((v, tail))
  {
    IntPut(|ps|, body);
    TypedPairs(v, ps, FormatInt(|ps|) + (CRLF + body), body, tail);
    TypedLine(typ, FormatInt(|ps|), body);
  }

  // For every well-formed value, however nested, followed by anything.
  lemma {:induction false} DecodeEncode(v: Value, tail: string)
    requires WellFormed(v)
    ensures Decode(Encode(v, tail)) == Some((v, tail))
    decreases v
  {
    match v
    case Array(vs) =>
      ListRead(vs, tail);
      ListPut('*', v, vs, EncodeAll(vs, tail), tail);
    case Set(vs) =>
      ListRead(vs, tail);
      ListPut('~', v, vs, EncodeAll(vs, tail), tail);
    case Push(vs) =>
      ListRead(vs, tail);
      ListPut('>', v, vs, EncodeAll(vs, tail), tail);
    case Map(ps) =>
      PairsRead(ps, tail);
      PairsPut('%', v, ps, EncodePairs(ps, tail), tail);
    case Attribute(ps) =>
      PairsRead(ps, tail);
      PairsPut('|', v, ps, EncodePairs(ps, tail), tail);
    case _ => LeafPut(v, tail);
  }

  lemma {:induction false} ListRead(vs: seq<Value>, tail: string)
    requires forall w <- vs :: WellFormed(w)
    ensures DecodeMore(|vs|, EncodeAll(vs, tail), []) == Some((vs, tail))
    decreases vs, 1
  {
    DecodeEncodeAll(vs, [], tail);
    assert [] + vs == vs;
  }

  lemma {:induction false} PairsRead(ps: seq<Pair>, tail: string)
    requires forall p <- ps :: WellFormedPair(p)
    ensures DecodeMorePairs(|ps|, EncodePairs(ps, tail), []) == Some((ps, tail))
    decreases ps, 1
  {
    DecodeEncodePairs(ps, [], tail);
    assert [] + ps == ps;
  }

  lemma {:induction false} DecodeEncodeAll(vs: seq<Value>, done: seq<Value>, tail: string)
    requires forall w <- vs :: WellFormed(w)
    ensures DecodeMore(|vs|, EncodeAll(vs, tail), done) == Some((done + vs, tail))
    decreases vs, 0
  {
    if vs == [] {
      assert done + vs == done;
    } else {
      assert vs[0] in vs;
      DecodeEncode(vs[0], EncodeAll(vs[1..], tail));
      DecodeEncodeAll(vs[1..], done + [vs[0]], tail);
      OneRead(|vs|, vs[0], EncodeAll(vs, tail), EncodeAll(vs[1..], tail), done);
      FirstMoved(done, vs);
    }
  }

  lemma {:induction false} OneRead(n: nat, v: Value, b: string, more: string, done: seq<Value>)
    requires n > 0 && Decode(b) == Some((v, more))
    ensures DecodeMore(n, b, done) == DecodeMore(n - 1, more, done + [v])
  {
  }

  lemma {:induction false} DecodeEncodePairs(ps: seq<Pair>, done: seq<Pair>, tail: string)
    requires forall p <- ps :: WellFormedPair(p)
    ensures DecodeMorePairs(|ps|, EncodePairs(ps, tail), done) == Some((done + ps, tail))
    decreases ps, 0
  {
    if ps == [] {
      assert done + ps == done;
    } else {
      assert ps[0] in ps;
      var more := EncodePairs(ps[1..], tail);
      DecodeEncodePair(ps[0], more);
      DecodeEncodePairs(ps[1..], done + [ps[0]], tail);
      PairRead(|ps|, ps[0], EncodePair(ps[0], more), Encode(ps[0].v, more), more, done);
      FirstMoved(done, ps);
    }
  }

  lemma {:induction false} PairRead(n: nat, p: Pair, b: string, c: string, more: string, done: seq<Pair>)
    requires n > 0 && Decode(b) == Some((p.k, c)) && Decode(c) == Some((p.v, more))
    ensures DecodeMorePairs(n, b, done) == DecodeMorePairs(n - 1, more, done + [p])
  {
    assert Pair(p.k, p.v) == p;
  }

  lemma {:induction false} FirstMoved<T>(done: seq<T>, ps: seq<T>)
    requires ps != []
    ensures (done + [ps[0]]) + ps[1..] == done + ps
  {
  }

  lemma {:induction false} DecodeEncodePair(p: Pair, tail: string)
    requires WellFormedPair(p)
    ensures Decode(EncodePair(p, tail)) == Some((p.k, Encode(p.v, tail)))
    ensures Decode(Encode(p.v, tail)) == Some((p.v, tail))
    decreases p
  {
    DecodeEncode(p.k, Encode(p.v, tail));
    DecodeEncode(p.v, tail);
  }

  // ---------------------------------------------------------------- consequences

  // No encoding is the beginning of another: two messages that start alike are alike.
  lemma {:induction false} PrefixFree(v: Value, w: Value, t: string, u: string)
    requires WellFormed(v) && WellFormed(w) && Encode(v, t) == Encode(w, u)
    ensures v == w && t == u
  {
    DecodeEncode(v, t);
    DecodeEncode(w, u);
  }

  // Pipelined messages come apart as they were put together, whatever follows them.
  method Split(b: string, n: nat) returns (vs: seq<Value>, rest: string, ok: bool)
    ensures ok == DecodeMore(n, b, []).Some?
    ensures ok ==> DecodeMore(n, b, []) == Some((vs, rest))
    ensures forall ws: seq<Value>, t | |ws| == n && (forall w <- ws :: WellFormed(w)) && b == EncodeAll(ws, t) ::
              ok && vs == ws && rest == t
  {
    vs, rest, ok := [], b, true;
    var i := 0;
    while i < n
      invariant 0 <= i <= n && ok
      invariant DecodeMore(n - i, rest, vs) == DecodeMore(n, b, [])
    {
      var r := Decode(rest);
      if r.None? {
        ok := false;
        break;
      }
      vs, rest := vs + [r.value.0], r.value.1;
      i := i + 1;
    }
    forall ws: seq<Value>, t | |ws| == n && (forall w <- ws :: WellFormed(w)) && b == EncodeAll(ws, t)
      ensures ok && vs == ws && rest == t
    {
      DecodeEncodeAll(ws, [], t);
      assert [] + ws == ws;
    }
  }
}
