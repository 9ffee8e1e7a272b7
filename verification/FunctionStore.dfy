/**
 * The library store behind FUNCTION LOAD, DELETE, FLUSH, DUMP and RESTORE.  Three indexes
 * have to agree: libraries by name, functions by lower-case name, and the persisted
 * sources.
 */
module FunctionStore {
  import opened Options
  import opened Bytes

  // ---------------------------------------------------------------- libraries

  datatype Library = Library(name: Bytes, code: Bytes, funcs: seq<Bytes>)

  datatype Ref = Ref(lib: Bytes, fn: Bytes)

  function LowerByte(b: byte): byte { if 65 <= b <= 90 then b + 32 else b }

  function Lower(s: Bytes): Bytes { seq(|s|, i requires 0 <= i < |s| => LowerByte(s[i])) }

  // A library never registers two functions whose names differ in case only.
  ghost predicate DistinctFuncs(lib: Library) {
    forall i, j | 0 <= i < j < |lib.funcs| :: Lower(lib.funcs[i]) != Lower(lib.funcs[j])
  }

  // Compiling a source is left abstract: it fails, or gives the library of that source.
  type Compiler = Bytes -> Option<Library>

  ghost predicate GoodCompiler(compile: Compiler) {
    forall code | compile(code).Some? :: compile(code).value.code == code && DistinctFuncs(compile(code).value)
  }

  // Libraries by name, functions by lower-case name, persisted sources by library name.
  datatype Store = Store(libs: map<Bytes, Library>, fns: map<Bytes, Ref>, kv: map<Bytes, Bytes>)

  const EMPTY := Store(map[], map[], map[])

  predicate Has(st: Store, lib: Bytes, fn: Bytes) { lib in st.libs && fn in st.libs[lib].funcs }

  // The function index lists exactly the functions of the libraries.
  ghost predicate Indexed(compile: Compiler, st: Store) {
    && (forall n <- st.libs :: st.libs[n].name == n && compile(st.libs[n].code) == Some(st.libs[n]))
    && (forall n, f {:trigger Has(st, n, f)} | Has(st, n, f) :: Lower(f) in st.fns && st.fns[Lower(f)] == Ref(n, f))
    && (forall k <- st.fns :: Has(st, st.fns[k].lib, st.fns[k].fn) && Lower(st.fns[k].fn) == k)
  }

  function Sources(libs: map<Bytes, Library>): map<Bytes, Bytes> { map n | n in libs :: libs[n].code }

  // The three indexes describe the same libraries.
  ghost predicate Agree(compile: Compiler, st: Store) {
    Indexed(compile, st) && st.kv == Sources(st.libs)
  }

  // The libraries determine the function index.
  lemma {:induction false} IndexIsUnique(compile: Compiler, a: Store, b: Store)
    requires Indexed(compile, a) && Indexed(compile, b) && a.libs == b.libs
    ensures a.fns == b.fns
  {
    forall k | k in a.fns ensures k in b.fns && b.fns[k] == a.fns[k] {
      assert Has(a, a.fns[k].lib, a.fns[k].fn);
      assert Has(b, a.fns[k].lib, a.fns[k].fn);
    }
    forall k | k in b.fns ensures k in a.fns {
      assert Has(b, b.fns[k].lib, b.fns[k].fn);
      assert Has(a, b.fns[k].lib, b.fns[k].fn);
    }
  }

  // ---------------------------------------------------------------- committing

  // The function index without the entries of one library.
  function Without(fns: map<Bytes, Ref>, lib: Bytes, funcs: seq<Bytes>): map<Bytes, Ref> {
    if funcs == [] then fns else
    var less := Without(fns, lib, funcs[..|funcs| - 1]);
    var k := Lower(funcs[|funcs| - 1]);
    if k in less && less[k].lib == lib then less - {k} else less
  }

  function With(fns: map<Bytes, Ref>, lib: Bytes, funcs: seq<Bytes>): map<Bytes, Ref> {
    if funcs == [] then fns
    else With(fns, lib, funcs[..|funcs| - 1])[Lower(funcs[|funcs| - 1]) := Ref(lib, funcs[|funcs| - 1])]
  }

  // The function index that a commit starts from: nothing of the old version is left.
  function Cleared(st: Store, lib: Library, replace: bool): map<Bytes, Ref> {
    if replace && lib.name in st.libs then Without(st.fns, lib.name, st.libs[lib.name].funcs) else st.fns
  }

  function Commit(st: Store, lib: Library, replace: bool, persist: bool): Store {
    Store(st.libs[lib.name := lib], With(Cleared(st, lib, replace), lib.name, lib.funcs),
          if persist then st.kv[lib.name := lib.code] else st.kv)
  }

  function LowerSet(funcs: seq<Bytes>): set<Bytes> { set i | 0 <= i < |funcs| :: Lower(funcs[i]) }

  lemma {:induction false} WithoutLaw(fns: map<Bytes, Ref>, lib: Bytes, funcs: seq<Bytes>)
    ensures forall k :: k in Without(fns, lib, funcs) <==> k in fns && !(fns[k].lib == lib && k in LowerSet(funcs))
    ensures forall k <- Without(fns, lib, funcs) :: Without(fns, lib, funcs)[k] == fns[k]
  {
    if funcs != [] {
      WithoutLaw(fns, lib, funcs[..|funcs| - 1]);
      LowerSnoc(funcs);
    }
  }

  lemma {:induction false} LowerSnoc(funcs: seq<Bytes>)
    requires funcs != []
    ensures LowerSet(funcs) == LowerSet(funcs[..|funcs| - 1]) + {Lower(funcs[|funcs| - 1])}
  {
    var init := funcs[..|funcs| - 1];
    forall k | k in LowerSet(init) ensures k in LowerSet(funcs) {
      var i :| 0 <= i < |init| && Lower(init[i]) == k;
      assert funcs[i] == init[i];
    }
    forall k | k in LowerSet(funcs) ensures k in LowerSet(init) + {Lower(funcs[|funcs| - 1])} {
      var i :| 0 <= i < |funcs| && Lower(funcs[i]) == k;
      if i < |init| { assert init[i] == funcs[i]; }
    }
  }

  lemma {:induction false} WithLaw(fns: map<Bytes, Ref>, lib: Bytes, funcs: seq<Bytes>)
    requires forall i, j | 0 <= i < j < |funcs| :: Lower(funcs[i]) != Lower(funcs[j])
    ensures With(fns, lib, funcs).Keys == fns.Keys + LowerSet(funcs)
    ensures forall f <- funcs :: Lower(f) in With(fns, lib, funcs) && With(fns, lib, funcs)[Lower(f)] == Ref(lib, f)
    ensures forall k <- fns | k !in LowerSet(funcs) :: With(fns, lib, funcs)[k] == fns[k]
  {
    if funcs != [] {
      var init, last := funcs[..|funcs| - 1], funcs[|funcs| - 1];
      WithLaw(fns, lib, init);
      LowerSnoc(funcs);
      forall f | f in funcs ensures f == last || (f in init && Lower(f) != Lower(last)) {
        var i :| 0 <= i < |funcs| && funcs[i] == f;
        if i < |init| { assert init[i] == f; }
      }
    }
  }

  // No function of the library is known, except its own when it replaces itself.
  ghost predicate Fits(st: Store, lib: Library, replace: bool) {
    && (!replace ==> lib.name !in st.libs)
    && forall k <- LowerSet(lib.funcs) | k in st.fns :: replace && st.fns[k].lib == lib.name
  }

  lemma {:induction false} InLowerSet(funcs: seq<Bytes>, f: Bytes)
    requires f in funcs
    ensures Lower(f) in LowerSet(funcs)
  {
    var i :| 0 <= i < |funcs| && funcs[i] == f;
  }

  lemma {:induction false} ClearedLaw(compile: Compiler, st: Store, lib: Library, replace: bool)
    requires Indexed(compile, st) && Fits(st, lib, replace)
    ensures forall k <- Cleared(st, lib, replace) ::
              k in st.fns && Cleared(st, lib, replace)[k] == st.fns[k] && st.fns[k].lib != lib.name
    ensures forall k <- st.fns | st.fns[k].lib != lib.name :: k in Cleared(st, lib, replace)
  {
    if lib.name in st.libs {
      WithoutLaw(st.fns, lib.name, st.libs[lib.name].funcs);
      forall k | k in st.fns && st.fns[k].lib == lib.name ensures k in LowerSet(st.libs[lib.name].funcs) {
        assert Has(st, st.fns[k].lib, st.fns[k].fn);
        InLowerSet(st.libs[lib.name].funcs, st.fns[k].fn);
      }
    } else {
      forall k | k in st.fns ensures st.fns[k].lib != lib.name { assert Has(st, st.fns[k].lib, st.fns[k].fn); }
    }
  }

  lemma {:induction false} CommitLists(compile: Compiler, st: Store, lib: Library, replace: bool, persist: bool)
    requires Indexed(compile, st) && Fits(st, lib, replace) && DistinctFuncs(lib)
    ensures var t := Commit(st, lib, replace, persist);
            forall n, f | Has(t, n, f) :: Lower(f) in t.fns && t.fns[Lower(f)] == Ref(n, f)
  {
    var t, base := Commit(st, lib, replace, persist), Cleared(st, lib, replace);
    ClearedLaw(compile, st, lib, replace);
    WithLaw(base, lib.name, lib.funcs);
    forall n, f | Has(t, n, f) ensures Lower(f) in t.fns && t.fns[Lower(f)] == Ref(n, f) {
      if n != lib.name { assert Has(st, n, f); }
    }
  }

  lemma {:induction false} CommitListsOnly(compile: Compiler, st: Store, lib: Library, replace: bool, persist: bool)
    requires Indexed(compile, st) && Fits(st, lib, replace) && DistinctFuncs(lib)
    ensures var t := Commit(st, lib, replace, persist);
            forall k <- t.fns :: Has(t, t.fns[k].lib, t.fns[k].fn) && Lower(t.fns[k].fn) == k
  {
    var t, base := Commit(st, lib, replace, persist), Cleared(st, lib, replace);
    ClearedLaw(compile, st, lib, replace);
    WithLaw(base, lib.name, lib.funcs);
    forall k | k in t.fns ensures Has(t, t.fns[k].lib, t.fns[k].fn) && Lower(t.fns[k].fn) == k {
      if k in LowerSet(lib.funcs) {
        var i :| 0 <= i < |lib.funcs| && Lower(lib.funcs[i]) == k;
        assert lib.funcs[i] in lib.funcs;
      } else {
        assert k in base && Has(st, st.fns[k].lib, st.fns[k].fn);
      }
    }
  }

  lemma {:induction false} CommitIndexes(compile: Compiler, st: Store, lib: Library, replace: bool, persist: bool)
    requires Indexed(compile, st) && Fits(st, lib, replace)
    requires compile(lib.code) == Some(lib) && DistinctFuncs(lib)
    ensures Indexed(compile, Commit(st, lib, replace, persist))
  {
    CommitLists(compile, st, lib, replace, persist);
    CommitListsOnly(compile, st, lib, replace, persist);
  }

  lemma {:induction false} CommitKeeps(compile: Compiler, st: Store, lib: Library, replace: bool)
    requires Agree(compile, st) && Fits(st, lib, replace)
    requires compile(lib.code) == Some(lib) && DistinctFuncs(lib)
    ensures Agree(compile, Commit(st, lib, replace, true))
  {
    CommitIndexes(compile, st, lib, replace, true);
    assert Sources(st.libs[lib.name := lib]) == Sources(st.libs)[lib.name := lib.code];
  }

  // ---------------------------------------------------------------- LOAD, DELETE, FLUSH

  predicate Conflicts(st: Store, lib: Library, replace: bool) {
    || (lib.name in st.libs && !replace)
    || exists i | 0 <= i < |lib.funcs| ::
         Lower(lib.funcs[i]) in st.fns && !(replace && st.fns[Lower(lib.funcs[i])].lib == lib.name)
  }

  function Loaded(compile: Compiler, st: Store, code: Bytes, replace: bool): Store {
    match compile(code)
    case None => st
    case Some(lib) => if Conflicts(st, lib, replace) then st else Commit(st, lib, replace, true)
  }

  function Deleted(st: Store, name: Bytes): Store {
    if name !in st.libs then st
    else Store(st.libs - {name}, Without(st.fns, name, st.libs[name].funcs), st.kv - {name})
  }

  lemma {:induction false} NoConflictFits(st: Store, lib: Library, replace: bool)
    requires !Conflicts(st, lib, replace)
    ensures Fits(st, lib, replace)
  {
    forall k | k in LowerSet(lib.funcs) && k in st.fns ensures replace && st.fns[k].lib == lib.name {
      var i :| 0 <= i < |lib.funcs| && Lower(lib.funcs[i]) == k;
    }
  }

  lemma {:induction false} LoadKeeps(compile: Compiler, st: Store, code: Bytes, replace: bool)
    requires GoodCompiler(compile) && Agree(compile, st)
    ensures Agree(compile, Loaded(compile, st, code, replace))
  {
    var lib := compile(code);
    if lib.Some? && !Conflicts(st, lib.value, replace) {
      NoConflictFits(st, lib.value, replace);
      CommitKeeps(compile, st, lib.value, replace);
    }
  }

  lemma {:induction false} DeleteKeeps(compile: Compiler, st: Store, name: Bytes)
    requires Agree(compile, st)
    ensures Agree(compile, Deleted(st, name))
  {
    if name in st.libs {
      var t := Deleted(st, name);
      WithoutLaw(st.fns, name, st.libs[name].funcs);
      forall n, f | Has(t, n, f) ensures Lower(f) in t.fns && t.fns[Lower(f)] == Ref(n, f) { assert Has(st, n, f); }
      forall k | k in t.fns ensures Has(t, t.fns[k].lib, t.fns[k].fn) && Lower(t.fns[k].fn) == k {
        assert Has(st, st.fns[k].lib, st.fns[k].fn);
        if st.fns[k].lib == name { InLowerSet(st.libs[name].funcs, st.fns[k].fn); }
      }
    }
  }

  // ---------------------------------------------------------------- the dump

  const MAGIC: Bytes := [71, 68, 73, 83, 70, 78, 48, 49]

  // A library as a dump carries it.
  datatype Source = Source(name: Bytes, code: Bytes)

  function PutSource(s: Source, tail: Bytes): Bytes { PutString(s.name, PutString(s.code, tail)) }

  function ReadSource(b: Bytes): Parsed<Source> {
    var (name, b) :- ReadString(b);
    var (code, b) :- ReadString(b);
    Some((Source(name, code), b))
  }

  function EncodeDump(sources: seq<Source>): Bytes {
    MAGIC + (PutUvarint(|sources|) + PutList(sources, PutSource, []))
  }

  predicate DistinctNames(sources: seq<Source>) {
    forall i, j | 0 <= i < j < |sources| :: sources[i].name != sources[j].name
  }

  // Magic, count, sources with distinct names, and nothing behind them.
  function DecodeDump(payload: Bytes): Option<seq<Source>> {
    if |payload| < |MAGIC| || payload[..|MAGIC|] != MAGIC then None else
    var (n, b) :- Uvarint(payload[|MAGIC|..]);
    if n > |b| then None else
    var (sources, b) :- ReadList(n, b, ReadSource);
    if b != [] || !DistinctNames(sources) then None else Some(sources)
  }

  lemma {:induction false} SourcePut(s: Source, tail: Bytes)
    requires |s.name| < WORD && |s.code| < WORD
    ensures ReadSource(PutSource(s, tail)) == Some((s, tail))
  {
    StringPut(s.code, tail);
    StringPut(s.name, PutString(s.code, tail));
  }

  lemma {:induction false} ListIsLong(sources: seq<Source>)
    ensures |sources| <= |PutList(sources, PutSource, [])|
  {
    if sources != [] {
      ListIsLong(sources[1..]);
      assert |PutUvarint(|sources[0].name|)| >= 1;
    }
  }

  // Decoding a dump gives back the libraries that went into it.
  lemma {:induction false} DecodeEncodeDump(sources: seq<Source>)
    requires |sources| < WORD && DistinctNames(sources)
    requires forall s <- sources :: |s.name| < WORD && |s.code| < WORD
    ensures DecodeDump(EncodeDump(sources)) == Some(sources)
  {
    var list := PutList(sources, PutSource, []);
    forall s | s in sources ensures Inverse(PutSource, ReadSource, s) {
      forall t ensures ReadSource(PutSource(s, t)) == Some((s, t)) { SourcePut(s, t); }
    }
    ListPut(sources, PutSource, ReadSource, []);
    UvarintPut(|sources|, list);
    ListIsLong(sources);
    var payload := EncodeDump(sources);
    assert payload[..|MAGIC|] == MAGIC && payload[|MAGIC|..] == PutUvarint(|sources|) + list;
  }

  // ---------------------------------------------------------------- RESTORE

  datatype Policy = Flush | Append | Replace

  function CommitAll(st: Store, libs: seq<Library>, replace: bool, persist: bool): Store
    decreases |libs|
  {
    if libs == [] then st else CommitAll(Commit(st, libs[0], replace, persist), libs[1..], replace, persist)
  }

  // Every source compiles to the library it is named after.
  function CompileAll(compile: Compiler, sources: seq<Source>): Option<seq<Library>> {
    if sources == [] then Some([]) else
    var libs :- CompileAll(compile, sources[..|sources| - 1]);
    var lib :- compile(sources[|sources| - 1].code);
    if lib.name != sources[|sources| - 1].name then None else Some(libs + [lib])
  }

  // The libraries a payload asks for, when it can be applied: the check looks at the
  // store only, not at the other libraries of the payload.
  function Wanted(compile: Compiler, st: Store, payload: Bytes, policy: Policy): Option<seq<Library>> {
    var sources :- DecodeDump(payload);
    var libs :- CompileAll(compile, sources);
    if policy != Flush && exists i | 0 <= i < |libs| :: Conflicts(st, libs[i], policy == Replace) then None
    else Some(libs)
  }

  function Restored(compile: Compiler, st: Store, payload: Bytes, policy: Policy): Store {
    match Wanted(compile, st, payload, policy)
    case None => st
    case Some(libs) => CommitAll(if policy == Flush then EMPTY else st, libs, policy == Replace, true)
  }

  ghost predicate Good(compile: Compiler, libs: seq<Library>) {
    && (forall i | 0 <= i < |libs| :: compile(libs[i].code) == Some(libs[i]) && DistinctFuncs(libs[i]))
    && (forall i, j | 0 <= i < j < |libs| :: libs[i].name != libs[j].name)
  }

  // No two of the libraries define the same function.
  ghost predicate Disjoint(libs: seq<Library>) {
    forall i, j | 0 <= i < j < |libs| :: LowerSet(libs[i].funcs) !! LowerSet(libs[j].funcs)
  }

  // Committing one library leaves room for another with other functions.
  lemma {:induction false} StillFits(compile: Compiler, st: Store, lib: Library, other: Library, replace: bool,
                                     persist: bool)
    requires Indexed(compile, st) && Fits(st, lib, replace) && Fits(st, other, replace) && DistinctFuncs(lib)
    requires lib.name != other.name && LowerSet(lib.funcs) !! LowerSet(other.funcs)
    ensures Fits(Commit(st, lib, replace, persist), other, replace)
  {
    ClearedLaw(compile, st, lib, replace);
    WithLaw(Cleared(st, lib, replace), lib.name, lib.funcs);
  }

  lemma {:induction false} CommitAllIndexes(compile: Compiler, st: Store, libs: seq<Library>, replace: bool,
                                            persist: bool)
    requires Indexed(compile, st) && Good(compile, libs) && Disjoint(libs)
    requires forall i | 0 <= i < |libs| :: Fits(st, libs[i], replace)
    ensures Indexed(compile, CommitAll(st, libs, replace, persist))
    decreases |libs|
  {
    if libs != [] {
      var next, rest := Commit(st, libs[0], replace, persist), libs[1..];
      CommitIndexes(compile, st, libs[0], replace, persist);
      assert Good(compile, rest) && Disjoint(rest);
      forall i | 0 <= i < |rest| ensures Fits(next, rest[i], replace) {
        assert rest[i] == libs[i + 1];
        StillFits(compile, st, libs[0], libs[i + 1], replace, persist);
      }
      CommitAllIndexes(compile, next, rest, replace, persist);
    }
  }

  // The libraries laid over those already there.
  function Over(m: map<Bytes, Library>, libs: seq<Library>): map<Bytes, Library>
    decreases |libs|
  {
    if libs == [] then m else Over(m[libs[0].name := libs[0]], libs[1..])
  }

  lemma {:induction false} CommitAllLibs(st: Store, libs: seq<Library>, replace: bool, persist: bool)
    ensures CommitAll(st, libs, replace, persist).libs == Over(st.libs, libs)
    ensures persist && st.kv == Sources(st.libs)
            ==> CommitAll(st, libs, replace, persist).kv == Sources(Over(st.libs, libs))
    ensures !persist ==> CommitAll(st, libs, replace, persist).kv == st.kv
    decreases |libs|
  {
    if libs != [] {
      var lib := libs[0];
      assert Sources(st.libs[lib.name := lib]) == Sources(st.libs)[lib.name := lib.code];
      CommitAllLibs(Commit(st, lib, replace, persist), libs[1..], replace, persist);
    }
  }

  function Names(libs: seq<Library>): set<Bytes> { set i | 0 <= i < |libs| :: libs[i].name }

  lemma {:induction false} NamesCons(libs: seq<Library>)
    requires libs != []
    ensures Names(libs) == {libs[0].name} + Names(libs[1..])
  {
    var rest := libs[1..];
    forall n | n in Names(rest) ensures n in Names(libs) {
      var i :| 0 <= i < |rest| && rest[i].name == n;
      assert libs[i + 1] == rest[i];
    }
    forall n | n in Names(libs) ensures n in {libs[0].name} + Names(rest) {
      var i :| 0 <= i < |libs| && libs[i].name == n;
      if i > 0 { assert rest[i - 1] == libs[i]; }
    }
  }

  lemma {:induction false} OverLaw(m: map<Bytes, Library>, libs: seq<Library>)
    requires forall i, j | 0 <= i < j < |libs| :: libs[i].name != libs[j].name
    ensures Over(m, libs).Keys == m.Keys + Names(libs)
    ensures forall i | 0 <= i < |libs| :: Over(m, libs)[libs[i].name] == libs[i]
    ensures forall n <- m | n !in Names(libs) :: Over(m, libs)[n] == m[n]
    decreases |libs|
  {
    if libs != [] {
      var lib, rest := libs[0], libs[1..];
      OverLaw(m[lib.name := lib], rest);
      NamesCons(libs);
      assert lib.name !in Names(rest);
      forall i | 0 <= i < |libs| ensures Over(m, libs)[libs[i].name] == libs[i] {
        if i > 0 { assert libs[i] == rest[i - 1]; }
      }
    }
  }

  lemma {:induction false} CompiledAreGood(compile: Compiler, sources: seq<Source>)
    requires GoodCompiler(compile) && DistinctNames(sources) && CompileAll(compile, sources).Some?
    ensures Good(compile, CompileAll(compile, sources).value)
    ensures |CompileAll(compile, sources).value| == |sources|
    ensures forall i | 0 <= i < |sources| :: CompileAll(compile, sources).value[i].name == sources[i].name
  {
    if sources != [] { CompiledAreGood(compile, sources[..|sources| - 1]); }
  }

  // An accepted RESTORE keeps the indexes in agreement exactly when no two libraries of
  // the payload define the same function; a refused one changes nothing.
  lemma {:induction false} RestoreExact(compile: Compiler, st: Store, payload: Bytes, policy: Policy)
    requires GoodCompiler(compile) && Agree(compile, st)
    ensures match Wanted(compile, st, payload, policy)
            case None => Restored(compile, st, payload, policy) == st
            case Some(libs) => Agree(compile, Restored(compile, st, payload, policy)) <==> Disjoint(libs)
  {
    var wanted := Wanted(compile, st, payload, policy);
    if wanted.Some? {
      var libs, base, replace := wanted.value, if policy == Flush then EMPTY else st, policy == Replace;
      CompiledAreGood(compile, DecodeDump(payload).value);
      CommitAllLibs(base, libs, replace, true);
      if Disjoint(libs) {
        forall i | 0 <= i < |libs| ensures Fits(base, libs[i], replace) {
          if policy != Flush { NoConflictFits(st, libs[i], replace); }
        }
        CommitAllIndexes(compile, base, libs, replace, true);
      } else {
        OverlapDisagrees(compile, Restored(compile, st, payload, policy), base.libs, libs);
      }
    }
  }

  lemma {:induction false} OverlapDisagrees(compile: Compiler, t: Store, m: map<Bytes, Library>, libs: seq<Library>)
    requires !Disjoint(libs) && t.libs == Over(m, libs)
    requires forall i, j | 0 <= i < j < |libs| :: libs[i].name != libs[j].name
    ensures !Indexed(compile, t)
  {
    OverLaw(m, libs);
    var i, j :| 0 <= i < j < |libs| && !(LowerSet(libs[i].funcs) !! LowerSet(libs[j].funcs));
    var k :| k in LowerSet(libs[i].funcs) && k in LowerSet(libs[j].funcs);
    var a :| 0 <= a < |libs[i].funcs| && Lower(libs[i].funcs[a]) == k;
    var b :| 0 <= b < |libs[j].funcs| && Lower(libs[j].funcs[b]) == k;
    assert Has(t, libs[i].name, libs[i].funcs[a]) && Has(t, libs[j].name, libs[j].funcs[b]);
  }

  // ---------------------------------------------------------------- dumping and rebuilding

  // The libraries of a store, each once, in some order.
  ghost predicate Lists(libs: seq<Library>, st: Store) {
    && Names(libs) == st.libs.Keys && (forall i | 0 <= i < |libs| :: st.libs[libs[i].name] == libs[i])
    && (forall i, j | 0 <= i < j < |libs| :: libs[i].name != libs[j].name)
  }

  function SourcesOf(libs: seq<Library>): seq<Source> {
    seq(|libs|, i requires 0 <= i < |libs| => Source(libs[i].name, libs[i].code))
  }

  // Two libraries that share a function pass the checks and break the agreement.
  lemma {:induction false} ClashRestored(compile: Compiler, st: Store, a: Library, b: Library)
    requires GoodCompiler(compile) && Agree(compile, st) && compile(a.code) == Some(a) && compile(b.code) == Some(b)
    requires a.name != b.name && LowerSet(a.funcs) * LowerSet(b.funcs) != {}
    requires |a.name| < WORD && |a.code| < WORD && |b.name| < WORD && |b.code| < WORD
    ensures var payload := EncodeDump([Source(a.name, a.code), Source(b.name, b.code)]);
            Wanted(compile, st, payload, Flush) == Some([a, b])
                && !Agree(compile, Restored(compile, st, payload, Flush))
  {
    var sources, libs := [Source(a.name, a.code), Source(b.name, b.code)], [a, b];
    DecodeEncodeDump(sources);
    SourcesCompile(compile, libs);
    assert SourcesOf(libs) == sources;
    assert !Disjoint(libs) by { assert libs[0] == a && libs[1] == b; }
    RestoreExact(compile, st, EncodeDump(sources), Flush);
  }

  lemma {:induction false} ListedAreGood(compile: Compiler, st: Store, libs: seq<Library>)
    requires GoodCompiler(compile) && Indexed(compile, st) && Lists(libs, st)
    ensures Good(compile, libs) && Disjoint(libs)
  {
    forall i | 0 <= i < |libs| ensures compile(libs[i].code) == Some(libs[i]) && DistinctFuncs(libs[i]) {
      assert libs[i].name in Names(libs);
    }
    forall i, j, k | 0 <= i < j < |libs| && k in LowerSet(libs[i].funcs) ensures k !in LowerSet(libs[j].funcs) {
      var a :| 0 <= a < |libs[i].funcs| && Lower(libs[i].funcs[a]) == k;
      assert libs[i].name in Names(libs) && libs[j].name in Names(libs);
      assert Has(st, libs[i].name, libs[i].funcs[a]);
      forall b | 0 <= b < |libs[j].funcs|
        ensures Lower(libs[j].funcs[b]) != k
      {
        assert Has(st, libs[j].name, libs[j].funcs[b]);
      }
    }
  }

  lemma {:induction false} SourcesCompile(compile: Compiler, libs: seq<Library>)
    requires Good(compile, libs)
    ensures CompileAll(compile, SourcesOf(libs)) == Some(libs)
  {
    if libs != [] {
      var init := libs[..|libs| - 1];
      assert Good(compile, init);
      SourcesCompile(compile, init);
      assert SourcesOf(libs)[..|libs| - 1] == SourcesOf(init);
      assert init + [libs[|libs| - 1]] == libs;
    }
  }

  // Building a store from all libraries of another, in any order, gives that store.
  lemma {:induction false} RebuiltIs(compile: Compiler, st: Store, libs: seq<Library>, base: Store, replace: bool,
                                     persist: bool)
    requires GoodCompiler(compile) && Agree(compile, st) && Lists(libs, st)
    requires base.libs == map[] && base.fns == map[] && base.kv == (if persist then map[] else st.kv)
    ensures CommitAll(base, libs, replace, persist) == st
  {
    var t := CommitAll(base, libs, replace, persist);
    ListedAreGood(compile, st, libs);
    CommitAllLibs(base, libs, replace, persist);
    CommitAllIndexes(compile, base, libs, replace, persist);
    OverNothing(st, libs);
    IndexIsUnique(compile, t, st);
  }

  lemma {:induction false} OverNothing(st: Store, libs: seq<Library>)
    requires Lists(libs, st)
    ensures Over(map[], libs) == st.libs
  {
    var m := Over(map[], libs);
    OverLaw(map[], libs);
    forall n | n in st.libs ensures m[n] == st.libs[n] {
      var i :| 0 <= i < |libs| && libs[i].name == n;
    }
  }

  // Restoring a store's dump with FLUSH gives that store, whatever was there before.
  lemma {:induction false} DumpRestores(compile: Compiler, st: Store, libs: seq<Library>, other: Store)
    requires GoodCompiler(compile) && Agree(compile, st) && Lists(libs, st) && |libs| < WORD
    requires forall i | 0 <= i < |libs| :: |libs[i].name| < WORD && |libs[i].code| < WORD
    ensures Restored(compile, other, EncodeDump(SourcesOf(libs)), Flush) == st
  {
    ListedAreGood(compile, st, libs);
    SourcesCompile(compile, libs);
    DecodeEncodeDump(SourcesOf(libs));
    RebuiltIs(compile, st, libs, EMPTY, false, true);
  }

  // Startup: the persisted sources, in any order, compiled and committed to memory.
  function Rebuilt(compile: Compiler, st: Store, names: seq<Bytes>): Store
    decreases |names|
  {
    if names == [] then st
    else if names[0] !in st.kv || compile(st.kv[names[0]]).None? then Rebuilt(compile, st, names[1..])
    else Rebuilt(compile, Commit(st, compile(st.kv[names[0]]).value, true, false), names[1..])
  }

  lemma {:induction false} RebuiltCommits(compile: Compiler, st: Store, libs: seq<Library>)
    requires forall i | 0 <= i < |libs| :: libs[i].name in st.kv && compile(st.kv[libs[i].name]) == Some(libs[i])
    ensures Rebuilt(compile, st, NameList(libs)) == CommitAll(st, libs, true, false)
    decreases |libs|
  {
    if libs != [] {
      var next := Commit(st, libs[0], true, false);
      assert NameList(libs)[1..] == NameList(libs[1..]);
      forall i | 0 <= i < |libs[1..]|
        ensures libs[1..][i].name in next.kv && compile(next.kv[libs[1..][i].name]) == Some(libs[1..][i])
      {
        assert libs[1..][i] == libs[i + 1];
      }
      RebuiltCommits(compile, next, libs[1..]);
    }
  }

  function NameList(libs: seq<Library>): seq<Bytes> { seq(|libs|, i requires 0 <= i < |libs| => libs[i].name) }

  // Rebuilding from the persisted sources alone gives the store back, in any order.
  lemma {:induction false} RestartRebuilds(compile: Compiler, st: Store, libs: seq<Library>)
    requires GoodCompiler(compile) && Agree(compile, st) && Lists(libs, st)
    ensures Rebuilt(compile, Store(map[], map[], st.kv), NameList(libs)) == st
  {
    var base := Store(map[], map[], st.kv);
    forall i | 0 <= i < |libs| ensures libs[i].name in st.kv && compile(st.kv[libs[i].name]) == Some(libs[i]) {
      assert libs[i].name in Names(libs);
    }
    RebuiltCommits(compile, base, libs);
    RebuiltIs(compile, st, libs, base, true, false);
  }

  // ---------------------------------------------------------------- every run

  datatype Op = Load(code: Bytes, replace: bool) | Delete(name: Bytes) | FlushAll | Restore(payload: Bytes,
      policy: Policy)

  function Applied(compile: Compiler, st: Store, op: Op): Store {
    match op
    case Load(code, replace) => Loaded(compile, st, code, replace)
    case Delete(name) => Deleted(st, name)
    case FlushAll => EMPTY
    case Restore(payload, policy) => Restored(compile, st, payload, policy)
  }

  function Run(compile: Compiler, st: Store, ops: seq<Op>): Store
    decreases |ops|
  {
    if ops == [] then st else Run(compile, Applied(compile, st, ops[0]), ops[1..])
  }

  // A payload whose libraries, if they compile at all, define different functions; every
  // dump of a store is one.
  ghost predicate Consistent(compile: Compiler, payload: Bytes) {
    DecodeDump(payload).Some? && CompileAll(compile, DecodeDump(payload).value).Some? ==>
      Disjoint(CompileAll(compile, DecodeDump(payload).value).value)
  }

  lemma {:induction false} DumpsAreConsistent(compile: Compiler, st: Store, libs: seq<Library>)
    requires GoodCompiler(compile) && Agree(compile, st) && Lists(libs, st) && |libs| < WORD
    requires forall i | 0 <= i < |libs| :: |libs[i].name| < WORD && |libs[i].code| < WORD
    ensures Consistent(compile, EncodeDump(SourcesOf(libs)))
  {
    ListedAreGood(compile, st, libs);
    SourcesCompile(compile, libs);
    DecodeEncodeDump(SourcesOf(libs));
  }

  lemma {:induction false} StepAgrees(compile: Compiler, st: Store, op: Op)
    requires GoodCompiler(compile) && Agree(compile, st) && (op.Restore? ==> Consistent(compile, op.payload))
    ensures Agree(compile, Applied(compile, st, op))
  {
    match op
    case Load(code, replace) => LoadKeeps(compile, st, code, replace);
    case Delete(name) => DeleteKeeps(compile, st, name);
    case FlushAll =>
    case Restore(payload, policy) => RestoreExact(compile, st, payload, policy);
  }

  // The indexes agree after every run whose payloads are consistent.
  lemma {:induction false} EveryRunAgrees(compile: Compiler, st: Store, ops: seq<Op>)
    requires GoodCompiler(compile) && Agree(compile, st)
    requires forall op <- ops | op.Restore? :: Consistent(compile, op.payload)
    ensures Agree(compile, Run(compile, st, ops))
    decreases |ops|
  {
    if ops != [] {
      assert ops[0] in ops;
      StepAgrees(compile, st, ops[0]);
      EveryRunAgrees(compile, Applied(compile, st, ops[0]), ops[1..]);
    }
  }

  // ---------------------------------------------------------------- the object

  class FunctionRegistry {
    const compile: Compiler
    var libs: map<Bytes, Library>
    var fns: map<Bytes, Ref>
    var kv: map<Bytes, Bytes>

    function Value(): Store
      reads this
    {
      Store(libs, fns, kv)
    }

    constructor (compile: Compiler)
      ensures Value() == EMPTY && this.compile == compile
    {
      this.compile := compile;
      libs, fns, kv := map[], map[], map[];
    }

    // Takes out the functions that the index has under this library.
    method Forget(name: Bytes, funcs: seq<Bytes>)
      modifies this`fns
      ensures fns == Without(old(fns), name, funcs)
    {
      for i := 0 to |funcs|
        invariant fns == Without(old(fns), name, funcs[..i])
      {
        assert funcs[..i + 1][..i] == funcs[..i];
        var k := Lower(funcs[i]);
        if k in fns && fns[k].lib == name {
          fns := fns - {k};
        }
      }
      assert funcs[..|funcs|] == funcs;
    }

    method CommitLocked(lib: Library, replace: bool, persist: bool)
      modifies this
      ensures Value() == Commit(old(Value()), lib, replace, persist)
    {
      if replace && lib.name in libs {
        Forget(lib.name, libs[lib.name].funcs);
      }
      ghost var base := fns;
      libs := libs[lib.name := lib];
      for i := 0 to |lib.funcs|
        invariant fns == With(base, lib.name, lib.funcs[..i])
        invariant libs == old(libs)[lib.name := lib] && kv == old(kv)
      {
        assert lib.funcs[..i + 1][..i] == lib.funcs[..i];
        fns := fns[Lower(lib.funcs[i]) := Ref(lib.name, lib.funcs[i])];
      }
      assert lib.funcs[..|lib.funcs|] == lib.funcs;
      if persist {
        kv := kv[lib.name := lib.code];
      }
    }

    method Collides(lib: Library, replace: bool) returns (yes: bool)
      ensures yes == Conflicts(Value(), lib, replace)
    {
      if lib.name in libs && !replace {
        return true;
      }
      for i := 0 to |lib.funcs|
        invariant forall j | 0 <= j < i ::
                    Lower(lib.funcs[j]) in fns ==> replace && fns[Lower(lib.funcs[j])].lib == lib.name
      {
        var k := Lower(lib.funcs[i]);
        if k in fns && !(replace && fns[k].lib == lib.name) {
          return true;
        }
      }
      return false;
    }

    method LoadLibrary(code: Bytes, replace: bool) returns (ok: bool)
      modifies this
      ensures Value() == Loaded(compile, old(Value()), code, replace)
      ensures ok == (compile(code).Some? && !Conflicts(old(Value()), compile(code).value, replace))
    {
      var lib := compile(code);
      if lib.None? {
        return false;
      }
      var collides := Collides(lib.value, replace);
      if collides {
        return false;
      }
      CommitLocked(lib.value, replace, true);
      return true;
    }

    method DeleteLibrary(name: Bytes) returns (ok: bool)
      modifies this
      ensures Value() == Deleted(old(Value()), name) && ok == (name in old(libs))
    {
      if name !in libs {
        return false;
      }
      var lib := libs[name];
      libs := libs - {name};
      Forget(name, lib.funcs);
      kv := kv - {name};
      return true;
    }

    method Flush()
      modifies this
      ensures Value() == EMPTY
    {
      libs, fns, kv := map[], map[], map[];
    }

    method RestoreFn(payload: Bytes, policy: Policy) returns (ok: bool)
      modifies this
      ensures Value() == Restored(compile, old(Value()), payload, policy)
      ensures ok == Wanted(compile, old(Value()), payload, policy).Some?
    {
      var sources := DecodeDump(payload);
      if sources.None? {
        return false;
      }
      var compiled := CompileAll(compile, sources.value);
      if compiled.None? {
        return false;
      }
      if policy == Policy.Flush {
        Flush();
      } else {
        var collides := AnyCollides(compiled.value, policy == Replace);
        if collides {
          return false;
        }
      }
      CommitMany(compiled.value, policy == Replace);
      return true;
    }

    method AnyCollides(wanted: seq<Library>, replace: bool) returns (yes: bool)
      ensures yes == exists i | 0 <= i < |wanted| :: Conflicts(Value(), wanted[i], replace)
    {
      for i := 0 to |wanted|
        invariant forall j | 0 <= j < i :: !Conflicts(Value(), wanted[j], replace)
      {
        yes := Collides(wanted[i], replace);
        if yes {
          return;
        }
      }
      return false;
    }

    method CommitMany(wanted: seq<Library>, replace: bool)
      modifies this
      ensures Value() == CommitAll(old(Value()), wanted, replace, true)
    {
      assert wanted[0..] == wanted;
      for i := 0 to |wanted|
        invariant CommitAll(Value(), wanted[i..], replace, true) == CommitAll(old(Value()), wanted, replace, true)
      {
        assert wanted[i..][1..] == wanted[i + 1..];
        CommitLocked(wanted[i], replace, true);
      }
    }
  }
}
