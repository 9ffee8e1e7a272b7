/**
 * What FUNCTION DELETE, LOAD and RESTORE do, said about the libraries, the function index
 * and the persisted sources themselves.
 */
module FunctionEffects {
  import opened Options
  import opened Bytes
  import opened FunctionStore

  // Two names count as the same function exactly when they differ in letter case only.
  lemma {:induction false} LowerFolds(a: Bytes, b: Bytes)
    ensures Lower(a) == Lower(b) <==>
              |a| == |b| && forall i | 0 <= i < |a| ::
                              || a[i] == b[i]
                              || (65 <= a[i] <= 90 && b[i] == a[i] + 32)
                              || (65 <= b[i] <= 90 && a[i] == b[i] + 32)
  {
    assert |Lower(a)| == |a| && |Lower(b)| == |b|;
    if Lower(a) == Lower(b) {
      forall i | 0 <= i < |a| ensures LowerByte(a[i]) == LowerByte(b[i]) { assert Lower(a)[i] == Lower(b)[i]; }
    }
  }

  // ---------------------------------------------------------------- DELETE

  // The name is gone from all three; everything that is not its own is as before.
  lemma {:induction false} DeleteExactly(compile: Compiler, st: Store, name: Bytes)
    requires Agree(compile, st)
    ensures var t := Deleted(st, name);
            && t.libs == (map n | n in st.libs && n != name :: st.libs[n])
            && t.kv == (map n | n in st.kv && n != name :: st.kv[n])
            && t.fns == (map k | k in st.fns && st.fns[k].lib != name :: st.fns[k])
  {
    var t := Deleted(st, name);
    forall k | k in st.fns ensures st.fns[k].lib in st.libs { assert Has(st, st.fns[k].lib, st.fns[k].fn); }
    if name in st.libs {
      WithoutLaw(st.fns, name, st.libs[name].funcs);
      forall k | k in st.fns && st.fns[k].lib == name ensures k !in t.fns {
        assert Has(st, st.fns[k].lib, st.fns[k].fn);
        InLowerSet(st.libs[name].funcs, st.fns[k].fn);
      }
      assert t.fns.Keys == (map k | k in st.fns && st.fns[k].lib != name :: st.fns[k]).Keys;
    } else {
      assert name !in st.kv;
    }
  }

  // ---------------------------------------------------------------- LOAD

  // Another library than the one of this name has a function of this name.
  ghost predicate Elsewhere(st: Store, lib: Bytes, fn: Bytes) {
    exists n, f :: n != lib && Has(st, n, f) && Lower(f) == Lower(fn)
  }

  // The library may go in: its name is free or it replaces, and no other library has one
  // of its functions.
  ghost predicate MayEnter(st: Store, lib: Library, replace: bool) {
    (lib.name in st.libs ==> replace) && forall f <- lib.funcs :: !Elsewhere(st, lib.name, f)
  }

  lemma {:induction false} ConflictsMeans(compile: Compiler, st: Store, lib: Library, replace: bool)
    requires Indexed(compile, st)
    ensures Conflicts(st, lib, replace) <==> !MayEnter(st, lib, replace)
  {
    forall i | 0 <= i < |lib.funcs|
      ensures var k := Lower(lib.funcs[i]);
              Elsewhere(st, lib.name, lib.funcs[i]) <==> k in st.fns && st.fns[k].lib != lib.name
    {
      ElsewhereIs(compile, st, lib.name, lib.funcs[i]);
    }
    if i :| 0 <= i < |lib.funcs| && Lower(lib.funcs[i]) in st.fns && st.fns[Lower(lib.funcs[i])].lib == lib.name {
      assert Has(st, lib.name, st.fns[Lower(lib.funcs[i])].fn);
    }
    forall f | f in lib.funcs ensures exists i | 0 <= i < |lib.funcs| :: lib.funcs[i] == f { }
  }

  lemma {:induction false} ElsewhereIs(compile: Compiler, st: Store, lib: Bytes, fn: Bytes)
    requires Indexed(compile, st)
    ensures Elsewhere(st, lib, fn) <==> Lower(fn) in st.fns && st.fns[Lower(fn)].lib != lib
  {
    var k := Lower(fn);
    if k in st.fns { assert Has(st, st.fns[k].lib, st.fns[k].fn); }
  }

  // The library is in, under its name, with its source and its functions; the others are
  // as before, and nothing else is known.
  ghost predicate Entered(st: Store, lib: Library, t: Store) {
    && t.libs == st.libs[lib.name := lib] && t.kv == st.kv[lib.name := lib.code]
    && (forall f <- lib.funcs :: Lower(f) in t.fns && t.fns[Lower(f)] == Ref(lib.name, f))
    && (forall k <- st.fns | st.fns[k].lib != lib.name :: k in t.fns && t.fns[k] == st.fns[k])
    && (forall k <- t.fns ::
          || (k in st.fns && t.fns[k] == st.fns[k] && st.fns[k].lib != lib.name)
          || exists f <- lib.funcs :: k == Lower(f))
  }

  // LOAD is accepted exactly when the source compiles and the library may enter; then the
  // library is in, and otherwise nothing changes.
  lemma {:induction false} LoadExactly(compile: Compiler, st: Store, code: Bytes, replace: bool)
    requires GoodCompiler(compile) && Agree(compile, st)
    ensures var lib, t := compile(code), Loaded(compile, st, code, replace);
            if lib.Some? && MayEnter(st, lib.value, replace) then Entered(st, lib.value, t) && lib.value.code == code
            else t == st
  {
    var lib := compile(code);
    if lib.Some? {
      ConflictsMeans(compile, st, lib.value, replace);
      if MayEnter(st, lib.value, replace) {
        NoConflictFits(st, lib.value, replace);
        CommitExactly(compile, st, lib.value, replace);
      }
    }
  }

  lemma {:induction false} CommitExactly(compile: Compiler, st: Store, lib: Library, replace: bool)
    requires Indexed(compile, st) && Fits(st, lib, replace) && DistinctFuncs(lib)
    ensures Entered(st, lib, Commit(st, lib, replace, true))
  {
    var t, base := Commit(st, lib, replace, true), Cleared(st, lib, replace);
    ClearedLaw(compile, st, lib, replace);
    WithLaw(base, lib.name, lib.funcs);
    forall k | k in t.fns && k !in base ensures exists f <- lib.funcs :: k == Lower(f) {
      var i :| 0 <= i < |lib.funcs| && Lower(lib.funcs[i]) == k;
      assert lib.funcs[i] in lib.funcs;
    }
    forall k | k in st.fns && st.fns[k].lib != lib.name ensures k !in LowerSet(lib.funcs) { }
  }

  // ---------------------------------------------------------------- RESTORE

  // The libraries of the sources, each under its own name.
  ghost predicate Compiles(compile: Compiler, sources: seq<Source>) {
    forall s <- sources :: compile(s.code).Some? && compile(s.code).value.name == s.name
  }

  lemma {:induction false} CompileAllExactly(compile: Compiler, sources: seq<Source>)
    ensures var libs := CompileAll(compile, sources);
            && (libs.Some? <==> Compiles(compile, sources))
            && (libs.Some? ==> |libs.value| == |sources|
                               && forall i | 0 <= i < |sources| :: compile(sources[i].code) == Some(libs.value[i]))
  {
    if sources != [] {
      var init, last := sources[..|sources| - 1], sources[|sources| - 1];
      assert sources == init + [last];
      CompileAllExactly(compile, init);
    }
  }

  // RESTORE is accepted exactly when the payload is a dump whose sources compile to the
  // libraries they are named after and, unless everything is flushed first, each of
  // those may enter.
  ghost predicate Restorable(compile: Compiler, st: Store, payload: Bytes, policy: Policy) {
    && DecodeDump(payload).Some? && Compiles(compile, DecodeDump(payload).value)
    && (policy != Flush ==>
          forall s <- DecodeDump(payload).value :: MayEnter(st, compile(s.code).value, policy == Replace))
  }

  lemma {:induction false} WantedExactly(compile: Compiler, st: Store, payload: Bytes, policy: Policy)
    requires Indexed(compile, st)
    ensures Wanted(compile, st, payload, policy).Some? <==> Restorable(compile, st, payload, policy)
  {
    var sources := DecodeDump(payload);
    if sources.Some? {
      CompileAllExactly(compile, sources.value);
      var libs := CompileAll(compile, sources.value);
      if libs.Some? {
        forall i | 0 <= i < |libs.value|
          ensures Conflicts(st, libs.value[i], policy == Replace)
                  <==> !MayEnter(st, compile(sources.value[i].code).value, policy == Replace)
        {
          ConflictsMeans(compile, st, libs.value[i], policy == Replace);
        }
      }
    }
  }

  // Every library of these sources is in, and the others are as before.
  ghost predicate LaidOver(compile: Compiler, m: map<Bytes, Library>, sources: seq<Source>, r: map<Bytes, Library>) {
    && (forall s <- sources :: s.name in r && Some(r[s.name]) == compile(s.code))
    && (forall n | !Named(sources, n) :: (n in r <==> n in m) && (n in r ==> r[n] == m[n]))
  }

  ghost predicate Named(sources: seq<Source>, n: Bytes) { exists s <- sources :: s.name == n }

  // Afterwards every library of the payload is in; under FLUSH nothing else is, otherwise
  // the others are as before.  The persisted sources follow.
  lemma {:induction false} RestoreExactly(compile: Compiler, st: Store, payload: Bytes, policy: Policy)
    requires GoodCompiler(compile) && Agree(compile, st)
    ensures var t := Restored(compile, st, payload, policy);
            if !Restorable(compile, st, payload, policy) then t == st
            else LaidOver(compile, if policy == Flush then map[] else st.libs, DecodeDump(payload).value, t.libs)
                 && t.kv == Sources(t.libs)
  {
    WantedExactly(compile, st, payload, policy);
    var wanted := Wanted(compile, st, payload, policy);
    if wanted.Some? {
      var base := if policy == Flush then EMPTY else st;
      CommitAllLibs(base, wanted.value, policy == Replace, true);
      OverExactly(compile, base.libs, DecodeDump(payload).value);
    }
  }

  lemma {:induction false} OverExactly(compile: Compiler, m: map<Bytes, Library>, sources: seq<Source>)
    requires GoodCompiler(compile) && DistinctNames(sources) && CompileAll(compile, sources).Some?
    ensures LaidOver(compile, m, sources, Over(m, CompileAll(compile, sources).value))
  {
    var libs := CompileAll(compile, sources).value;
    CompileAllExactly(compile, sources);
    CompiledAreGood(compile, sources);
    OverLaw(m, libs);
    NamesAre(libs, sources);
  }

  lemma {:induction false} NamesAre(libs: seq<Library>, sources: seq<Source>)
    requires |libs| == |sources| && forall i | 0 <= i < |libs| :: libs[i].name == sources[i].name
    ensures forall n :: n in Names(libs) <==> Named(sources, n)
  {
    forall n | n in Names(libs) ensures Named(sources, n) {
      var i :| 0 <= i < |libs| && libs[i].name == n;
      assert sources[i] in sources;
    }
    forall s | s in sources ensures s.name in Names(libs) {
      var i :| 0 <= i < |sources| && sources[i] == s;
      assert libs[i].name == s.name;
    }
  }
}
