/** Concrete runs of the model on small projects, written as the example
    configuration and its sources would be: files named `./x` under the root
    `.`, requests of the form `./x`, and no loader rules. */
module Scenarios {
  import opened Base
  import opened Loaders
  import opened Entries
  import opened Graph
  import opened Chunks
  import opened Assets
  import opened Webpack

  /** `path.posix.relative('.', './x')` is `x`. */
  function Relative(root: string, p: string): string
  {
    if |p| >= 2 && p[..2] == "./" then p[2..] else p
  }

  /** Path helpers for files that all sit directly under the root. */
  function LocalPaths(): PathOps
  {
    PathOps(p => |p| > 0 && p[0] == '/', (a, b) => b, (a, b) => b, Relative, p => ".", p => p)
  }

  function LocalEnv(fs: map<string, string>, parse: string -> Option<Body>, extensions: seq<string>): Env
  {
    Env(".", fs, LocalPaths(), parse, b => "bundled", [], extensions)
  }

  /** A root-relative id names itself: `./` followed by its path from `.`. */
  predicate LocalId(id: string)
  {
    |id| >= 2 && id[..2] == "./"
  }

  lemma LocalIdIsModuleId(fs: map<string, string>, parse: string -> Option<Body>, extensions: seq<string>, id: string)
    requires LocalId(id)
    ensures ModuleId(LocalEnv(fs, parse, extensions), id) == id
  {
    assert "./" + id[2..] == id;
  }

  /** A request naming an existing file resolves to that file's id. */
  lemma ResolveLocal(fs: map<string, string>, parse: string -> Option<Body>, extensions: seq<string>,
                     path: string, id: string)
    requires LocalId(id) && id in fs
    ensures ResolveRequire(LocalEnv(fs, parse, extensions), path, Some(id)) == Ok(id)
  {
    LocalIdIsModuleId(fs, parse, extensions, id);
    assert id + ([""] + extensions)[0] == id;
  }

  /** The visit of a body that is one request for an id not yet built. */
  lemma TraverseOneNew(env: Env, name: string, path: string, id: string, ms: seq<Module>)
    requires ResolveRequire(env, path, Some(id)) == Ok(id) && !HasModule(ms, id)
    ensures Traverse(env, name, path, [Require(Some(id))], [], [], ms) == Scan(Ok(Rewritten([Bundled(id)], [id])), ms)
  {
    assert [Require(Some(id))][1..] == [];
    assert [] + [Bundled(id)] == [Bundled(id)] && AddDependency([], id) == [id];
  }

  /** The visit of a body that is one request for an id already built. */
  lemma TraverseOneKnown(env: Env, name: string, path: string, id: string, ms: seq<Module>)
    requires ResolveRequire(env, path, Some(id)) == Ok(id) && HasModule(ms, id)
    ensures Traverse(env, name, path, [Require(Some(id))], [], [], ms)
         == Scan(Ok(Rewritten([Bundled(id)], [])), AddOwner(ms, id, name))
  {
    assert [Require(Some(id))][1..] == [];
    assert [] + [Bundled(id)] == [Bundled(id)];
  }

  /** Building a module: read it, then compile the unchanged source (there are no rules). */
  lemma BuildReads(env: Env, st: State, name: string, path: string, fuel: nat)
    requires env.rules == [] && fuel >= 1 && path in env.fs
    ensures Build(env, st, name, path, fuel)
      == Compile(env, st.(moduleCode := env.fs[path], originSourceCode := env.fs[path]), name, path, fuel)
  {
    NoMatchKeepsSource([], path, env.fs[path]);
  }

  /** Compiling a body with no dependencies to build. */
  lemma CompileNoDeps(env: Env, st: State, name: string, path: string, fuel: nat, ast: Body, scan: Scan)
    requires fuel >= 1 && env.parse(st.moduleCode) == Some(ast)
    requires Traverse(env, name, path, ast, [], [], st.modules) == scan
    requires scan.result.Ok? && scan.result.value.dependencies == []
    ensures Compile(env, st, name, path, fuel)
      == Outcome(Ok(Module(ModuleId(env, path), [], [name], env.generate(scan.result.value.body))),
                 st.(modules := scan.modules))
  {
    assert BuildDeps(env, st.(modules := scan.modules), name, [], fuel - 1) == Outcome(Ok(()), st.(modules := scan.modules));
  }

  /** Compiling a body with exactly one dependency to build. */
  lemma CompileOneDep(env: Env, st: State, name: string, path: string, fuel: nat, ast: Body, id: string)
    requires fuel >= 1 && env.parse(st.moduleCode) == Some(ast)
    requires Traverse(env, name, path, ast, [], [], st.modules).result == Ok(Rewritten([Bundled(id)], [id]))
    ensures var scanned := st.(modules := Traverse(env, name, path, ast, [], [], st.modules).modules);
      var o := Build(env, scanned, name, id, fuel - 1);
      && (o.result.Err? ==> Compile(env, st, name, path, fuel).result.Err?)
      && (o.result.Ok? ==>
            Compile(env, st, name, path, fuel)
              == Outcome(Ok(Module(ModuleId(env, path), [id], [name], env.generate([Bundled(id)]))),
                         o.state.(modules := o.state.modules + [o.result.value])))
  {
    var scanned := st.(modules := Traverse(env, name, path, ast, [], [], st.modules).modules);
    var o := Build(env, scanned, name, id, fuel - 1);
    assert [id][1..] == [];
    if o.result.Ok? {
      var after := o.state.(modules := o.state.modules + [o.result.value]);
      assert BuildDeps(env, after, name, [], fuel - 1) == Outcome(Ok(()), after);
    }
  }

  /** A module whose source parses to no pieces builds without touching the module set. */
  lemma BuildLeaf(env: Env, st: State, name: string, path: string, fuel: nat)
    requires env.rules == [] && fuel >= 1 && path in env.fs && env.parse(env.fs[path]) == Some([])
    ensures Build(env, st, name, path, fuel).result == Ok(Module(ModuleId(env, path), [], [name], env.generate([])))
    ensures Build(env, st, name, path, fuel).state.modules == st.modules
  {
    BuildReads(env, st, name, path, fuel);
    var read := st.(moduleCode := env.fs[path], originSourceCode := env.fs[path]);
    CompileNoDeps(env, read, name, path, fuel, [], Scan(Ok(Rewritten([], [])), st.modules));
  }

  // ---------------------------------------------------------------------
  // Two modules with the same id

  function DupFiles(): map<string, string>
  {
    map["./e" := "E", "./a" := "A", "./b" := "B"]
  }

  function DupParse(src: string): Option<Body>
  {
    if src == "E" then Some([Require(Some("./a")), Require(Some("./b"))])
    else if src == "A" then Some([Require(Some("./b"))])
    else Some([])
  }

  function DupEnv(): Env
  {
    LocalEnv(DupFiles(), DupParse, [".js"])
  }

  /** The ids of the example, each naming its own file. */
  lemma DupIds()
    ensures LocalId("./e") && LocalId("./a") && LocalId("./b")
    ensures ModuleId(DupEnv(), "./e") == "./e" && ModuleId(DupEnv(), "./a") == "./a" && ModuleId(DupEnv(), "./b") == "./b"
    ensures ResolveRequire(DupEnv(), "./e", Some("./a")) == Ok("./a")
    ensures ResolveRequire(DupEnv(), "./e", Some("./b")) == Ok("./b")
    ensures ResolveRequire(DupEnv(), "./a", Some("./b")) == Ok("./b")
  {
    assert "./e"[..2] == "./" && "./a"[..2] == "./" && "./b"[..2] == "./";
    LocalIdIsModuleId(DupFiles(), DupParse, [".js"], "./e");
    LocalIdIsModuleId(DupFiles(), DupParse, [".js"], "./a");
    LocalIdIsModuleId(DupFiles(), DupParse, [".js"], "./b");
    ResolveLocal(DupFiles(), DupParse, [".js"], "./e", "./a");
    ResolveLocal(DupFiles(), DupParse, [".js"], "./e", "./b");
    ResolveLocal(DupFiles(), DupParse, [".js"], "./a", "./b");
  }

  /** `./b` has no requests: it builds on its own for any state. */
  lemma DupBuildB(st: State, fuel: nat)
    requires fuel >= 1
    ensures Build(DupEnv(), st, "main", "./b", fuel).result == Ok(Module("./b", [], ["main"], "bundled"))
    ensures Build(DupEnv(), st, "main", "./b", fuel).state.modules == st.modules
  {
    DupIds();
    BuildLeaf(DupEnv(), st, "main", "./b", fuel);
  }

  /** `./a` requiring `./b`, built while no `./b` is known, builds `./b` under it. */
  lemma DupBuildA(st: State, fuel: nat)
    requires fuel >= 2 && st.modules == []
    ensures Build(DupEnv(), st, "main", "./a", fuel).result == Ok(Module("./a", ["./b"], ["main"], "bundled"))
    ensures Build(DupEnv(), st, "main", "./a", fuel).state.modules == [Module("./b", [], ["main"], "bundled")]
  {
    var env := DupEnv();
    DupIds();
    BuildReads(env, st, "main", "./a", fuel);
    var read := st.(moduleCode := "A", originSourceCode := "A");
    TraverseOneNew(env, "main", "./a", "./b", []);
    CompileOneDep(env, read, "main", "./a", fuel, [Require(Some("./b"))], "./b");
    DupBuildB(read, fuel - 1);
  }

  /** Visiting `./e` records both `./a` and `./b`: neither is built yet. */
  lemma DupTraverseE()
    ensures Traverse(DupEnv(), "main", "./e", [Require(Some("./a")), Require(Some("./b"))], [], [], [])
      == Scan(Ok(Rewritten([Bundled("./a"), Bundled("./b")], ["./a", "./b"])), [])
  {
    DupIds();
    var ast := [Require(Some("./a")), Require(Some("./b"))];
    assert ast[1..] == [Require(Some("./b"))] && ast[1..][1..] == [];
    assert [] + [Bundled("./a")] == [Bundled("./a")] && AddDependency([], "./a") == ["./a"];
    assert [Bundled("./a")] + [Bundled("./b")] == [Bundled("./a"), Bundled("./b")];
    assert AddDependency(["./a"], "./b") == ["./a", "./b"];
  }

  /** Building `./a` then `./b` from an empty set: `./a` builds its own `./b`
      first, and then `./b` is built again. */
  lemma DupBuildDeps(st: State)
    requires st.modules == []
    ensures BuildDeps(DupEnv(), st, "main", ["./a", "./b"], 2).result == Ok(())
    ensures BuildDeps(DupEnv(), st, "main", ["./a", "./b"], 2).state.modules
      == [Module("./b", [], ["main"], "bundled"), Module("./a", ["./b"], ["main"], "bundled"), Module("./b", [], ["main"], "bundled")]
  {
    var env := DupEnv();
    var b := Module("./b", [], ["main"], "bundled");
    var a := Module("./a", ["./b"], ["main"], "bundled");
    DupBuildA(st, 2);
    var oa := Build(env, st, "main", "./a", 2);
    var st2 := oa.state.(modules := oa.state.modules + [a]);
    DupBuildB(st2, 2);
    var ob := Build(env, st2, "main", "./b", 2);
    var st3 := ob.state.(modules := ob.state.modules + [b]);
    var deps := ["./a", "./b"];
    assert deps[1..] == ["./b"] && deps[1..][1..] == [];
    assert BuildDeps(env, st3, "main", [], 2) == Outcome(Ok(()), st3);
    assert BuildDeps(env, st2, "main", ["./b"], 2) == Outcome(Ok(()), st3);
  }

  /** The dedup check runs when a request is met, not when a module is
      built: with `./e` requiring `./a` then `./b`, and `./a` requiring
      `./b`, the module set ends up holding `./b` twice. */
  lemma DuplicateIds()
    ensures var o := Build(DupEnv(), State([], "", ""), "main", "./e", 3);
      && o.result.Ok?
      && |o.state.modules| == 3
      && o.state.modules[0].id == "./b" && o.state.modules[1].id == "./a" && o.state.modules[2].id == "./b"
  {
    var env := DupEnv();
    var st := State([], "E", "E");
    BuildReads(env, State([], "", ""), "main", "./e", 3);
    DupTraverseE();
    DupBuildDeps(st);
  }

  // ---------------------------------------------------------------------
  // Ownership does not propagate

  function ShareFiles(): map<string, string>
  {
    map["./m" := "M", "./s" := "S", "./b" := "B", "./c" := "C"]
  }

  /** `./m` requires `./b`, `./b` requires `./c`, `./s` requires `./b`. */
  function ShareParse(src: string): Option<Body>
  {
    if src == "M" || src == "S" then Some([Require(Some("./b"))])
    else if src == "B" then Some([Require(Some("./c"))])
    else Some([])
  }

  function ShareEnv(): Env
  {
    LocalEnv(ShareFiles(), ShareParse, [".js"])
  }

  lemma ShareIds()
    ensures ModuleId(ShareEnv(), "./m") == "./m" && ModuleId(ShareEnv(), "./s") == "./s"
    ensures ModuleId(ShareEnv(), "./b") == "./b" && ModuleId(ShareEnv(), "./c") == "./c"
    ensures ResolveRequire(ShareEnv(), "./m", Some("./b")) == Ok("./b")
    ensures ResolveRequire(ShareEnv(), "./s", Some("./b")) == Ok("./b")
    ensures ResolveRequire(ShareEnv(), "./b", Some("./c")) == Ok("./c")
  {
    assert "./m"[..2] == "./" && "./s"[..2] == "./" && "./b"[..2] == "./" && "./c"[..2] == "./";
    LocalIdIsModuleId(ShareFiles(), ShareParse, [".js"], "./m");
    LocalIdIsModuleId(ShareFiles(), ShareParse, [".js"], "./s");
    LocalIdIsModuleId(ShareFiles(), ShareParse, [".js"], "./b");
    LocalIdIsModuleId(ShareFiles(), ShareParse, [".js"], "./c");
    ResolveLocal(ShareFiles(), ShareParse, [".js"], "./m", "./b");
    ResolveLocal(ShareFiles(), ShareParse, [".js"], "./s", "./b");
    ResolveLocal(ShareFiles(), ShareParse, [".js"], "./b", "./c");
  }

  /** `./b` requiring `./c`, built while nothing is known, builds `./c` under it. */
  lemma ShareBuildB(st: State)
    requires st.modules == []
    ensures Build(ShareEnv(), st, "main", "./b", 2).result == Ok(Module("./b", ["./c"], ["main"], "bundled"))
    ensures Build(ShareEnv(), st, "main", "./b", 2).state.modules == [Module("./c", [], ["main"], "bundled")]
  {
    var env := ShareEnv();
    ShareIds();
    BuildReads(env, st, "main", "./b", 2);
    var read := st.(moduleCode := "B", originSourceCode := "B");
    TraverseOneNew(env, "main", "./b", "./c", []);
    CompileOneDep(env, read, "main", "./b", 2, [Require(Some("./c"))], "./c");
    BuildLeaf(env, read, "main", "./c", 1);
  }

  /** The first entry builds `./c`, then `./b`, both owned by it alone. */
  lemma ShareFirstEntry(st: State)
    requires st.modules == []
    ensures var o := Build(ShareEnv(), st, "main", "./m", 3);
      && o.result == Ok(Module("./m", ["./b"], ["main"], "bundled"))
      && o.state.modules == [Module("./c", [], ["main"], "bundled"), Module("./b", ["./c"], ["main"], "bundled")]
  {
    var env := ShareEnv();
    ShareIds();
    BuildReads(env, st, "main", "./m", 3);
    var read := st.(moduleCode := "M", originSourceCode := "M");
    TraverseOneNew(env, "main", "./m", "./b", []);
    CompileOneDep(env, read, "main", "./m", 3, [Require(Some("./b"))], "./b");
    ShareBuildB(read);
  }

  /** The second entry meets `./b` already built: it is pushed onto `./b`'s
      owners but not onto `./c`'s, and nothing is rebuilt. */
  lemma ShareSecondEntry(st: State)
    requires st.modules == [Module("./c", [], ["main"], "bundled"), Module("./b", ["./c"], ["main"], "bundled")]
    ensures var o := Build(ShareEnv(), st, "second", "./s", 3);
      && o.result == Ok(Module("./s", [], ["second"], "bundled"))
      && o.state.modules == [Module("./c", [], ["main"], "bundled"), Module("./b", ["./c"], ["main", "second"], "bundled")]
  {
    var env := ShareEnv();
    ShareIds();
    BuildReads(env, st, "second", "./s", 3);
    var read := st.(moduleCode := "S", originSourceCode := "S");
    assert HasModule(st.modules, "./b") by {
      assert st.modules[1].id == "./b";
    }
    TraverseOneKnown(env, "second", "./s", "./b", st.modules);
    var ms' := AddOwner(st.modules, "./b", "second");
    assert |ms'| == 2 && ms'[0] == st.modules[0];
    assert ms'[1] == Module("./b", ["./c"], ["main", "second"], "bundled") by {
      assert ["main"] + ["second"] == ["main", "second"];
    }
    assert ms' == [Module("./c", [], ["main"], "bundled"), Module("./b", ["./c"], ["main", "second"], "bundled")];
    CompileNoDeps(env, read, "second", "./s", 3, [Require(Some("./b"))], Scan(Ok(Rewritten([Bundled("./b")], [])), ms'));
  }

  function ShareC(): Module { Module("./c", [], ["main"], "bundled") }
  function ShareB(): Module { Module("./b", ["./c"], ["main"], "bundled") }
  function ShareB2(): Module { Module("./b", ["./c"], ["main", "second"], "bundled") }

  /** The run over both entries, as the two entry builds leave it. */
  lemma ShareRun()
    ensures var c := BuildEntries(ShareEnv(), Progress(State([], "", ""), [], []),
                                  [EntryPoint("main", "./m"), EntryPoint("second", "./s")], 3);
      && c.result.Ok?
      && c.progress.state.modules == [ShareC(), ShareB2()]
      && c.progress.chunks == [Chunk("main", Module("./m", ["./b"], ["main"], "bundled"), OwnedBy([ShareC(), ShareB()], "main")),
                               Chunk("second", Module("./s", [], ["second"], "bundled"), OwnedBy([ShareC(), ShareB2()], "second"))]
  {
    var env := ShareEnv();
    var points := [EntryPoint("main", "./m"), EntryPoint("second", "./s")];
    assert points[1..] == [EntryPoint("second", "./s")] && points[1..][1..] == [];
    var st := State([], "", "");
    ShareFirstEntry(st);
    var o1 := Build(env, st, "main", "./m", 3);
    ShareSecondEntry(o1.state);
  }

  /** The whole run: the chunk of the second entry holds `./b` but not the
      `./c` that `./b` needs, while the first entry's chunk holds both. */
  lemma OwnershipDoesNotPropagate()
    ensures var c := BuildEntries(ShareEnv(), Progress(State([], "", ""), [], []),
                                  [EntryPoint("main", "./m"), EntryPoint("second", "./s")], 3);
      && c.result.Ok?
      && |c.progress.chunks| == 2 && |c.progress.state.modules| == 2
      && c.progress.state.modules[0].id == "./c" && c.progress.state.modules[1].id == "./b"
      && 0 in c.progress.chunks[0].modules && 1 in c.progress.chunks[0].modules
      && 0 !in c.progress.chunks[1].modules && 1 in c.progress.chunks[1].modules
  {
    ShareRun();
    var ms1 := [ShareC(), ShareB()];
    var ms2 := [ShareC(), ShareB2()];
    assert "main" in ms1[0].name && "main" in ms1[1].name;
    assert "second" !in ms2[0].name && "second" in ms2[1].name by {
      assert ms2[1].name[1] == "second";
    }
    var owned1 := OwnedBy(ms1, "main");
    var owned2 := OwnedBy(ms2, "second");
    assert 0 in owned1 && 1 in owned1 && 0 !in owned2 && 1 in owned2;
  }

  // ---------------------------------------------------------------------
  // Resolution

  /** With extensions `.js` and `.ts` and only `./x.ts` on disk, `./x`
      resolves to `./x.ts`, after `./x` and `./x.js` were tried. */
  lemma ResolvesByExtension()
    ensures ResolveRequire(LocalEnv(map["./x.ts" := ""], p => None, [".js", ".ts"]), "./e", Some("./x"))
      == Ok("./x.ts")
  {
    var env := LocalEnv(map["./x.ts" := ""], p => None, [".js", ".ts"]);
    var candidates := [""] + [".js", ".ts"];
    assert candidates == ["", ".js", ".ts"];
    assert "./x" + "" == "./x" && "./x" + ".js" == "./x.js" && "./x" + ".ts" == "./x.ts";
    assert candidates[1..] == [".js", ".ts"] && candidates[1..][1..] == [".ts"];
    assert FirstExisting(env.fs, "./x", [".ts"]) == Some("./x.ts");
    var id := "./x.ts";
    assert id[..2] == "./" && id[2..] == "x.ts";
    assert "./" + "x.ts" == id;
  }

  /** The example configuration's extension list `['.js', 'ts']` makes the
      same request fail: the second entry has no dot, so `./xts` is tried. */
  lemma ExampleExtensionsMissTs()
    ensures ResolveRequire(LocalEnv(map["./x.ts" := ""], p => None, [".js", "ts"]), "./e", Some("./x"))
      == Err(CannotResolve("./x", "."))
  {
    var env := LocalEnv(map["./x.ts" := ""], p => None, [".js", "ts"]);
    var candidates := [""] + [".js", "ts"];
    assert candidates == ["", ".js", "ts"];
    assert "./x" + "" == "./x" && "./x" + ".js" == "./x.js" && "./x" + "ts" == "./xts";
    assert FirstExisting(env.fs, "./x", candidates) == None;
  }

  /** Requiring the same file twice records one dependency and rewrites both calls. */
  lemma RequireTwiceRecordsOnce()
    ensures Traverse(DupEnv(), "main", "./e", [Require(Some("./b")), Require(Some("./b"))], [], [], [])
      == Scan(Ok(Rewritten([Bundled("./b"), Bundled("./b")], ["./b"])), [])
  {
    DupIds();
    var ast := [Require(Some("./b")), Require(Some("./b"))];
    assert ast[1..] == [Require(Some("./b"))] && ast[1..][1..] == [];
    assert [] + [Bundled("./b")] == [Bundled("./b")] && AddDependency([], "./b") == ["./b"];
    assert [Bundled("./b")] + [Bundled("./b")] == [Bundled("./b"), Bundled("./b")];
    assert AddDependency(["./b"], "./b") == ["./b"];
  }

  // ---------------------------------------------------------------------
  // Names and arguments

  /** The example's `[name].js` gives `main.js` for the `main` chunk. */
  lemma MainAsset()
    ensures AssetName("[name].js", "main") == "main.js"
  {
    assert OccursAt("[name].js", "[name]", 0) by {
      assert "[name].js"[0..6] == "[name]";
    }
    AssetNameSubstitutes("[name].js", "main");
  }

  /** `__proto__` has no `[name]`, so every chunk's asset gets that name. */
  lemma ProtoTemplateName(chunkName: string)
    ensures AssetName("__proto__", chunkName) == "__proto__"
  {
    forall j: nat ensures !OccursAt("__proto__", "[name]", j) {
      if j + 6 <= 9 {
        assert "__proto__"[j..j + 6][0] == "__proto__"[j] != '[';
      }
    }
  }

  /** With `output.filename` set to `__proto__`, the asset assignment reaches
      the prototype setter: no asset is stored, so `files` is empty and
      nothing is written. */
  lemma ProtoFilenameStoresNothing(c: Chunk, ms: seq<Module>, render: ChunkView -> string)
    requires RefsValid([c], |ms|)
    ensures Emit(Obj([], map[]), [c], ms, "__proto__", render) == Obj([], map[])
  {
    ProtoTemplateName(c.name);
    var t := AssignString(Obj([], map[]), "__proto__", render(View(c, ms)));
    assert t == Obj([], map[]);
    assert Emit(Obj([], map[]), [c], ms, "__proto__", render) == Emit(t, [], ms, "__proto__", render) by {
      assert [c][1..] == [];
    }
  }

  /** Only the first `[name]` is replaced. */
  lemma FirstPlaceholderOnly()
    ensures AssetName("[name]/[name].js", "a") == "a/[name].js"
  {
    assert OccursAt("[name]/[name].js", "[name]", 0) by {
      assert "[name]/[name].js"[0..6] == "[name]";
    }
    assert IndexFrom("[name]/[name].js", "[name]", 0) == Some(0);
    assert Expand("a", "[name]", "", "/[name].js") == "a" by {
      assert "a"[1..] == [];
    }
    assert "[name]/[name].js"[..0] == [] && "[name]/[name].js"[6..] == "/[name].js";
  }

  /** A chunk named `$&` puts the matched `[name]` back: the replacement
      string's patterns are expanded. */
  lemma DollarPatternInChunkName()
    ensures AssetName("[name].js", "$&") == "[name].js"
  {
    assert OccursAt("[name].js", "[name]", 0) by {
      assert "[name].js"[0..6] == "[name]";
    }
    assert "$&"[2..] == [];
    assert Expand("$&", "[name]", "", ".js") == "[name]";
    assert "[name].js"[..0] == [] && "[name].js"[6..] == ".js";
  }

  /** `mode=production` sets `mode`, and `a=b=c` keeps only `b`. */
  lemma CountedArguments()
    ensures ParseArg("mode=production") == Some(("mode", "production"))
    ensures ParseArg("a=b=c") == Some(("a", "b"))
  {
    assert Join(["mode", "production"], '=') == "mode=production" by {
      assert ["mode", "production"][1..] == ["production"];
    }
    ParseArgPieces(["mode", "production"]);
    assert Join(["a", "b", "c"], '=') == "a=b=c" by {
      assert ["a", "b", "c"][1..] == ["b", "c"] && ["b", "c"][1..] == ["c"];
    }
    ParseArgPieces(["a", "b", "c"]);
  }

  /** `mode=` and `=x` set nothing. */
  lemma IgnoredArguments()
    ensures ParseArg("mode=") == None
    ensures ParseArg("=x") == None
  {
    assert Join(["mode", ""], '=') == "mode=" by {
      assert ["mode", ""][1..] == [""];
    }
    ParseArgPieces(["mode", ""]);
    assert Join(["", "x"], '=') == "=x" by {
      assert ["", "x"][1..] == ["x"];
    }
    ParseArgPieces(["", "x"]);
  }
}
