/** The module-graph builder: `buildModule`, `handleLoder` and
    `handleWebpackCompiler` of core/compiler.js:98-210, stated as functions
    that thread the compiler's mutable fields through the recursion.

    The parser, traverser and generator are abstracted: a parsed module body
    is a sequence of pieces, each either ordinary text, a `require(...)` call
    (with its first argument when that is a string literal), or an already
    rewritten `__webpack_require__(id)` call. */
module Graph {
  import opened Base
  import opened Loaders
  import opened Entries

  datatype Piece =
    | Text(text: string)
    | Require(arg: Option<string>)   // callee `require`; None: no string-literal first argument
    | Bundled(id: string)            // `__webpack_require__(id)` with exactly one string argument

  type Body = seq<Piece>

  /** A module object: its id, its `dependencies` Set (insertion order, no
      repeats), its `name` array of owning entries and its generated `_source`. */
  datatype Module = Module(id: string, dependencies: seq<string>, name: seq<string>, source: string)

  /** What the builder reads: the root path, the file system (path to text),
      the path helpers, the parser and generator, `module.rules` and
      `resolve.extensions`. */
  datatype Env = Env(
    root: string,
    fs: map<string, string>,
    paths: PathOps,
    parse: string -> Option<Body>,
    generate: Body -> string,
    rules: seq<Rule>,
    extensions: seq<string>)

  /** The compiler fields the builder changes. */
  datatype State = State(modules: seq<Module>, moduleCode: string, originSourceCode: string)

  /** What a step returns or throws, and the fields as it leaves them. A thrown
      error leaves whatever the step had already changed. */
  datatype Outcome<+T> = Outcome(result: Result<T>, state: State)

  /** The rewritten body and the dependency ids a traversal recorded. */
  datatype Rewritten = Rewritten(body: Body, dependencies: seq<string>)

  /** A traversal's result and the modules after its `name` pushes. */
  datatype Scan = Scan(result: Result<Rewritten>, modules: seq<Module>)

  /** A module id: `./` followed by the path relative to the root. */
  function ModuleId(env: Env, path: string): string
  {
    "./" + env.paths.relative(env.root, path)
  }

  /** The first of `base + suffix` that is a file, in suffix order. */
  function FirstExisting(fs: map<string, string>, base: string, suffixes: seq<string>): (r: Option<string>)
    ensures r.None? <==> forall k :: 0 <= k < |suffixes| ==> base + suffixes[k] !in fs
    ensures r.Some? ==>
      exists k :: 0 <= k < |suffixes| && r.value == base + suffixes[k] && r.value in fs &&
        forall j :: 0 <= j < k ==> base + suffixes[j] !in fs
    decreases |suffixes|
  {
    if suffixes == [] then None
    else if base + suffixes[0] in fs then Some(base + suffixes[0])
    else
      assert forall k :: 1 <= k < |suffixes| ==> suffixes[k] == suffixes[1..][k - 1];
      FirstExisting(fs, base, suffixes[1..])
  }

  /** `tryExtensions` (core/utils/index is not part of this model), as
      assumed here: the path as given, then each configured extension
      appended, in order; the first that names a file wins, and it throws
      when none does. */
  function TryExtensions(fs: map<string, string>, base: string, extensions: seq<string>,
                         request: string, context: string): Result<string>
  {
    match FirstExisting(fs, base, [""] + extensions)
    case Some(p) => Ok(p)
    case None => Err(CannotResolve(request, context))
  }

  /** The id a `require` call is rewritten to (core/compiler.js:161-172), or the
      error resolving it throws. */
  function ResolveRequire(env: Env, path: string, arg: Option<string>): Result<string>
  {
    match arg
    case None => Err(NonLiteralRequire(path))
    case Some(request) =>
      var dir := env.paths.dirname(path);
      match TryExtensions(env.fs, env.paths.posixJoin(dir, request), env.extensions, request, dir)
      case Err(e) => Err(e)
      case Ok(found) => Ok(ModuleId(env, found))
  }

  /** Some module in the set has this id. */
  predicate HasModule(ms: seq<Module>, id: string)
  {
    exists i :: 0 <= i < |ms| && ms[i].id == id
  }

  /** Every module with this id gets `n` pushed onto its `name` array. */
  function AddOwner(ms: seq<Module>, id: string, n: string): seq<Module>
  {
    seq(|ms|, i requires 0 <= i < |ms| => if ms[i].id == id then ms[i].(name := ms[i].name + [n]) else ms[i])
  }

  /** `Set.prototype.add` on a set kept as a sequence. */
  function AddDependency(deps: seq<string>, id: string): seq<string>
  {
    if id in deps then deps else deps + [id]
  }

  /** The `CallExpression` visitor applied to the pieces in `rest`, in order;
      `done` holds the pieces already visited and `deps` the ids recorded so far. */
  function Traverse(env: Env, name: string, path: string, rest: Body, done: Body,
                    deps: seq<string>, ms: seq<Module>): Scan
    decreases |rest|
  {
    if rest == [] then Scan(Ok(Rewritten(done, deps)), ms)
    else if !rest[0].Require? then Traverse(env, name, path, rest[1..], done + [rest[0]], deps, ms)
    else
      match ResolveRequire(env, path, rest[0].arg)
      case Err(e) => Scan(Err(e), ms)
      case Ok(id) =>
        if HasModule(ms, id) then
          Traverse(env, name, path, rest[1..], done + [Bundled(id)], deps, AddOwner(ms, id, name))
        else
          Traverse(env, name, path, rest[1..], done + [Bundled(id)], AddDependency(deps, id), ms)
  }

  /** `buildModule(name, path)` with at most `fuel` nested calls: read the
      file, run the loaders, then compile. */
  function Build(env: Env, st: State, name: string, path: string, fuel: nat): Outcome<Module>
    decreases fuel, 2, 0
  {
    if fuel == 0 then Outcome(Err(StackOverflow), st)
    else if path !in env.fs then Outcome(Err(ReadFailed(path)), st)
    else
      var source := env.fs[path];
      var read := st.(moduleCode := source, originSourceCode := source);
      match Transform(env.rules, path, source)
      case Err(e) => Outcome(Err(e), read)
      case Ok(code) => Compile(env, read.(moduleCode := code), name, path, fuel)
  }

  /** `handleWebpackCompiler(name, path)`: parse `moduleCode`, traverse and
      rewrite it, then build the recorded dependencies in order. */
  function Compile(env: Env, st: State, name: string, path: string, fuel: nat): Outcome<Module>
    requires fuel >= 1
    decreases fuel, 1, 0
  {
    match env.parse(st.moduleCode)
    case None => Outcome(Err(ParseFailed(path)), st)
    case Some(ast) =>
      var scan := Traverse(env, name, path, ast, [], [], st.modules);
      var scanned := st.(modules := scan.modules);
      match scan.result
      case Err(e) => Outcome(Err(e), scanned)
      case Ok(rw) =>
        var built := BuildDeps(env, scanned, name, rw.dependencies, fuel - 1);
        var m := Module(ModuleId(env, path), rw.dependencies, [name], env.generate(rw.body));
        Outcome(if built.result.Err? then Err(built.result.error) else Ok(m), built.state)
  }

  /** The `dependencies.forEach` loop: build each dependency, then add it to
      `modules` (after its own subtree). */
  function BuildDeps(env: Env, st: State, name: string, deps: seq<string>, fuel: nat): Outcome<()>
    decreases fuel, 3, |deps|
  {
    if deps == [] then Outcome(Ok(()), st)
    else
      var o := Build(env, st, name, deps[0], fuel);
      match o.result
      case Err(e) => Outcome(Err(e), o.state)
      case Ok(m) => BuildDeps(env, o.state.(modules := o.state.modules + [m]), name, deps[1..], fuel)
  }

  // ---------------------------------------------------------------------
  // Ownership only grows

  /** `m2` is `m1` with entry `n` pushed onto its owners zero or more times. */
  predicate OwnersAppended(m1: Module, m2: Module, n: string)
  {
    && m2.id == m1.id && m2.dependencies == m1.dependencies && m2.source == m1.source
    && |m1.name| <= |m2.name| && m2.name[..|m1.name|] == m1.name
    && forall k :: |m1.name| <= k < |m2.name| ==> m2.name[k] == n
  }

  /** A module first built for entry `n` and since then only claimed by `n`. */
  predicate OwnedOnlyBy(m: Module, n: string)
  {
    |m.name| > 0 && forall k :: 0 <= k < |m.name| ==> m.name[k] == n
  }

  /** What building for entry `n` may do to the module set: push `n` onto
      the owners of existing modules and append modules owned only by `n`. */
  predicate Grows(ms1: seq<Module>, ms2: seq<Module>, n: string)
  {
    && |ms1| <= |ms2|
    && (forall i :: 0 <= i < |ms1| ==> OwnersAppended(ms1[i], ms2[i], n))
    && (forall i :: |ms1| <= i < |ms2| ==> OwnedOnlyBy(ms2[i], n))
  }

  lemma GrowsRefl(ms: seq<Module>, n: string)
    ensures Grows(ms, ms, n)
  {
    forall i | 0 <= i < |ms| ensures OwnersAppended(ms[i], ms[i], n) {
      assert ms[i].name[..|ms[i].name|] == ms[i].name;
    }
  }

  lemma OwnersAppendedTrans(m1: Module, m2: Module, m3: Module, n: string)
    requires OwnersAppended(m1, m2, n) && OwnersAppended(m2, m3, n)
    ensures OwnersAppended(m1, m3, n)
  {
    assert m3.name[..|m1.name|] == m3.name[..|m2.name|][..|m1.name|];
    forall k | |m1.name| <= k < |m3.name| ensures m3.name[k] == n {
      if k < |m2.name| {
        assert m3.name[k] == m3.name[..|m2.name|][k];
      }
    }
  }

  lemma {:induction false} GrowsTrans(a: seq<Module>, b: seq<Module>, c: seq<Module>, n: string)
    requires Grows(a, b, n) && Grows(b, c, n)
    ensures Grows(a, c, n)
  {
    forall i | 0 <= i < |a| ensures OwnersAppended(a[i], c[i], n) {
      OwnersAppendedTrans(a[i], b[i], c[i], n);
    }
    forall i | |a| <= i < |c| ensures OwnedOnlyBy(c[i], n) {
      if i < |b| {
        assert OwnedOnlyBy(b[i], n) && OwnersAppended(b[i], c[i], n);
        forall k | 0 <= k < |c[i].name| ensures c[i].name[k] == n {
          if k < |b[i].name| {
            assert c[i].name[k] == c[i].name[..|b[i].name|][k];
          }
        }
      }
    }
  }

  lemma GrowsAppend(a: seq<Module>, b: seq<Module>, m: Module, n: string)
    requires Grows(a, b, n) && m.name == [n]
    ensures Grows(a, b + [m], n)
  {
  }

  lemma AddOwnerGrows(ms: seq<Module>, id: string, n: string)
    ensures Grows(ms, AddOwner(ms, id, n), n)
  {
    var ms' := AddOwner(ms, id, n);
    forall i | 0 <= i < |ms| ensures OwnersAppended(ms[i], ms'[i], n) {
      assert ms'[i].name[..|ms[i].name|] == ms[i].name;
    }
  }

  lemma AddOwnerKeepsIds(ms: seq<Module>, id: string, n: string, x: string)
    ensures HasModule(AddOwner(ms, id, n), x) == HasModule(ms, x)
  {
    var ms' := AddOwner(ms, id, n);
    if HasModule(ms, x) {
      var i :| 0 <= i < |ms| && ms[i].id == x;
      assert ms'[i].id == x;
    }
    if HasModule(ms', x) {
      var i :| 0 <= i < |ms'| && ms'[i].id == x;
      assert ms[i].id == x;
    }
  }

  /** A traversal only pushes entry `name` onto existing modules' owners; it
      never adds or removes a module. */
  lemma {:induction false} TraverseGrows(env: Env, name: string, path: string, rest: Body, done: Body,
                                         deps: seq<string>, ms: seq<Module>)
    ensures |Traverse(env, name, path, rest, done, deps, ms).modules| == |ms|
    ensures Grows(ms, Traverse(env, name, path, rest, done, deps, ms).modules, name)
    decreases |rest|
  {
    if rest == [] {
      GrowsRefl(ms, name);
    } else if !rest[0].Require? {
      TraverseGrows(env, name, path, rest[1..], done + [rest[0]], deps, ms);
    } else {
      match ResolveRequire(env, path, rest[0].arg)
      case Err(e) => GrowsRefl(ms, name);
      case Ok(id) =>
        if HasModule(ms, id) {
          var ms' := AddOwner(ms, id, name);
          AddOwnerGrows(ms, id, name);
          TraverseGrows(env, name, path, rest[1..], done + [Bundled(id)], deps, ms');
          GrowsTrans(ms, ms', Traverse(env, name, path, rest[1..], done + [Bundled(id)], deps, ms').modules, name);
        } else {
          TraverseGrows(env, name, path, rest[1..], done + [Bundled(id)], AddDependency(deps, id), ms);
        }
    }
  }

  /** A module returned by `buildModule` has the id computed from its path and
      is owned by exactly the entry it was built for. */
  lemma BuildReturns(env: Env, st: State, name: string, path: string, fuel: nat)
    ensures var o := Build(env, st, name, path, fuel);
      o.result.Ok? ==> o.result.value.id == ModuleId(env, path) && o.result.value.name == [name]
  {
  }

  /** Monotonic ownership: building for entry `name` (whether it succeeds or
      throws) keeps every existing module, with its id, dependencies and
      source, only pushes `name` onto owners, and appends only modules owned
      by `name`. */
  lemma {:induction false} BuildGrows(env: Env, st: State, name: string, path: string, fuel: nat)
    ensures Grows(st.modules, Build(env, st, name, path, fuel).state.modules, name)
    decreases fuel, 2, 0
  {
    if fuel == 0 || path !in env.fs {
      GrowsRefl(st.modules, name);
    } else {
      var source := env.fs[path];
      var read := st.(moduleCode := source, originSourceCode := source);
      match Transform(env.rules, path, source)
      case Err(e) => GrowsRefl(st.modules, name);
      case Ok(code) => CompileGrows(env, read.(moduleCode := code), name, path, fuel);
    }
  }

  lemma {:induction false} CompileGrows(env: Env, st: State, name: string, path: string, fuel: nat)
    requires fuel >= 1
    ensures Grows(st.modules, Compile(env, st, name, path, fuel).state.modules, name)
    decreases fuel, 1, 0
  {
    match env.parse(st.moduleCode)
    case None => GrowsRefl(st.modules, name);
    case Some(ast) =>
      var scan := Traverse(env, name, path, ast, [], [], st.modules);
      TraverseGrows(env, name, path, ast, [], [], st.modules);
      match scan.result
      case Err(e) =>
      case Ok(rw) =>
        var scanned := st.(modules := scan.modules);
        BuildDepsGrows(env, scanned, name, rw.dependencies, fuel - 1);
        GrowsTrans(st.modules, scan.modules,
                   BuildDeps(env, scanned, name, rw.dependencies, fuel - 1).state.modules, name);
  }

  lemma {:induction false} BuildDepsGrows(env: Env, st: State, name: string, deps: seq<string>, fuel: nat)
    ensures Grows(st.modules, BuildDeps(env, st, name, deps, fuel).state.modules, name)
    decreases fuel, 3, |deps|
  {
    if deps == [] {
      GrowsRefl(st.modules, name);
    } else {
      var o := Build(env, st, name, deps[0], fuel);
      BuildGrows(env, st, name, deps[0], fuel);
      match o.result
      case Err(e) =>
      case Ok(m) =>
        BuildReturns(env, st, name, deps[0], fuel);
        var next := o.state.(modules := o.state.modules + [m]);
        GrowsAppend(st.modules, o.state.modules, m, name);
        BuildDepsGrows(env, next, name, deps[1..], fuel);
        GrowsTrans(st.modules, next.modules, BuildDeps(env, next, name, deps[1..], fuel).state.modules, name);
    }
  }

  /** The states the `dependencies.forEach` loop passes through: entry `k` is
      the state in which `deps[k]` is built. A loop that finishes has one
      entry more, its final state; one that throws ends at the failing step. */
  ghost function DepStates(env: Env, st: State, name: string, deps: seq<string>, fuel: nat): seq<State>
    decreases |deps|
  {
    if deps == [] then [st]
    else
      var o := Build(env, st, name, deps[0], fuel);
      if o.result.Err? then [st]
      else [st] + DepStates(env, o.state.(modules := o.state.modules + [o.result.value]), name, deps[1..], fuel)
  }

  /** Step `k` of a post-order build of the dependency `dep` for entry
      `name`: building it from `before` succeeds and returns the module with
      the id computed from `dep`; building it only appends its subtree's
      modules (and pushes `name` onto owners); the module itself is added
      right after that subtree, which gives `after`; and what the loop does
      later only pushes `name` onto owners, up to `final`. */
  ghost predicate PostOrderStep(env: Env, before: State, after: State, final: seq<Module>,
                                name: string, dep: string, fuel: nat)
  {
    var b := Build(env, before, name, dep, fuel);
    && b.result.Ok?
    && b.result.value.id == ModuleId(env, dep)
    && Grows(before.modules, b.state.modules, name)
    && after == b.state.(modules := b.state.modules + [b.result.value])
    && Grows(after.modules, final, name)
  }

  /** The dependency loop builds in post-order: when it succeeds, it went
      through one state per dependency, in insertion order, and each
      dependency's module went into `modules` (at position
      `|states[k + 1].modules| - 1`) right after the modules of its own
      subtree, and past all modules added for the dependencies before it. */
  lemma {:induction false} BuildDepsPostOrder(env: Env, st: State, name: string, deps: seq<string>, fuel: nat)
    ensures var o := BuildDeps(env, st, name, deps, fuel);
      var states := DepStates(env, st, name, deps, fuel);
      o.result.Ok? ==>
        && |states| == |deps| + 1 && states[0] == st && states[|deps|] == o.state
        && forall k :: 0 <= k < |deps| ==>
             PostOrderStep(env, states[k], states[k + 1], o.state.modules, name, deps[k], fuel)
    decreases |deps|
  {
    if deps != [] {
      var b := Build(env, st, name, deps[0], fuel);
      if b.result.Ok? {
        var next := b.state.(modules := b.state.modules + [b.result.value]);
        var o := BuildDeps(env, next, name, deps[1..], fuel);
        var rest := DepStates(env, next, name, deps[1..], fuel);
        BuildDepsPostOrder(env, next, name, deps[1..], fuel);
        if o.result.Ok? {
          var states := [st] + rest;
          BuildReturns(env, st, name, deps[0], fuel);
          BuildGrows(env, st, name, deps[0], fuel);
          BuildDepsGrows(env, next, name, deps[1..], fuel);
          assert PostOrderStep(env, states[0], states[1], o.state.modules, name, deps[0], fuel);
          forall k | 1 <= k < |deps|
            ensures PostOrderStep(env, states[k], states[k + 1], o.state.modules, name, deps[k], fuel)
          {
            assert states[k] == rest[k - 1] && states[k + 1] == rest[k] && deps[k] == deps[1..][k - 1];
          }
        }
      }
    }
  }

  /** Along states whose module counts strictly increase, the `k`-th has at
      least `k` modules more than the first. */
  lemma {:induction false} StatesLengthen(states: seq<State>, k: nat)
    requires k < |states|
    requires forall j :: 0 <= j < |states| - 1 ==> |states[j].modules| < |states[j + 1].modules|
    ensures |states[0].modules| + k <= |states[k].modules|
    decreases k
  {
    if k > 0 {
      StatesLengthen(states, k - 1);
    }
  }

  /** Every dependency of a successful `dependencies.forEach` is built and
      added: a new module with the id computed from it sits after the modules
      that were there before. */
  lemma BuildDepsAdds(env: Env, st: State, name: string, deps: seq<string>, fuel: nat)
    ensures var o := BuildDeps(env, st, name, deps, fuel);
      o.result.Ok? ==>
        forall k :: 0 <= k < |deps| ==>
          exists i :: |st.modules| <= i < |o.state.modules| && o.state.modules[i].id == ModuleId(env, deps[k])
  {
    var o := BuildDeps(env, st, name, deps, fuel);
    BuildDepsPostOrder(env, st, name, deps, fuel);
    if o.result.Ok? {
      var states := DepStates(env, st, name, deps, fuel);
      forall k | 0 <= k < |deps|
        ensures exists i :: |st.modules| <= i < |o.state.modules| && o.state.modules[i].id == ModuleId(env, deps[k])
      {
        assert PostOrderStep(env, states[k], states[k + 1], o.state.modules, name, deps[k], fuel);
        StatesLengthen(states, k);
        var p := |states[k + 1].modules| - 1;
        assert OwnersAppended(states[k + 1].modules[p], o.state.modules[p], name);
      }
    }
  }

  /** `buildModule` never adds the module it returns: a module whose build
      records no dependencies adds nothing to `modules`, and otherwise the
      last module its build adds is that of its last dependency. Only the
      caller (the dependency loop of its parent) adds it. */
  lemma BuildAddsNotItself(env: Env, st: State, name: string, path: string, fuel: nat)
    ensures var o := Build(env, st, name, path, fuel);
      o.result.Ok? ==>
        var deps := o.result.value.dependencies;
        && (deps == [] ==> |o.state.modules| == |st.modules|)
        && (deps != [] ==>
              |st.modules| < |o.state.modules|
              && o.state.modules[|o.state.modules| - 1].id == ModuleId(env, deps[|deps| - 1]))
  {
    var o := Build(env, st, name, path, fuel);
    if o.result.Ok? {
      var source := env.fs[path];
      var read := st.(moduleCode := source, originSourceCode := source);
      var code := Transform(env.rules, path, source).value;
      var cst := read.(moduleCode := code);
      assert o == Compile(env, cst, name, path, fuel);
      var ast := env.parse(cst.moduleCode).value;
      var scan := Traverse(env, name, path, ast, [], [], cst.modules);
      TraverseGrows(env, name, path, ast, [], [], cst.modules);
      var deps := scan.result.value.dependencies;
      assert deps == o.result.value.dependencies;
      var scanned := cst.(modules := scan.modules);
      assert o.state == BuildDeps(env, scanned, name, deps, fuel - 1).state;
      BuildDepsPostOrder(env, scanned, name, deps, fuel - 1);
      BuildDepsGrows(env, scanned, name, deps, fuel - 1);
      if deps != [] {
        var states := DepStates(env, scanned, name, deps, fuel - 1);
        assert PostOrderStep(env, states[0], states[1], o.state.modules, name, deps[0], fuel - 1);
        assert PostOrderStep(env, states[|deps| - 1], states[|deps|], o.state.modules, name, deps[|deps| - 1], fuel - 1);
      }
    }
  }
}

/** What one traversal does: which calls it rewrites and to what, which ids it
    records as dependencies, and whose owners it extends. */
module Traversal {
  import opened Base
  import opened Loaders
  import opened Graph

  /** The piece a visited piece becomes: a resolvable `require` call becomes
      `__webpack_require__(id)`; everything else is left as it is. */
  function Rewrite(env: Env, path: string, p: Piece): Piece
  {
    if p.Require? && ResolveRequire(env, path, p.arg).Ok? then Bundled(ResolveRequire(env, path, p.arg).value)
    else p
  }

  /** The whole body with every piece rewritten independently. */
  function RewriteAll(env: Env, path: string, ast: Body): Body
  {
    seq(|ast|, k requires 0 <= k < |ast| => Rewrite(env, path, ast[k]))
  }

  /** Some `require` call in `rest` resolves to `id`. */
  predicate Requires(env: Env, path: string, rest: Body, id: string)
  {
    exists k :: 0 <= k < |rest| && rest[k].Require? && ResolveRequire(env, path, rest[k].arg) == Ok(id)
  }

  /** Some `require` call in `rest` cannot be resolved. */
  predicate Unresolvable(env: Env, path: string, rest: Body)
  {
    exists k :: 0 <= k < |rest| && rest[k].Require? && ResolveRequire(env, path, rest[k].arg).Err?
  }

  /** How many `require` calls in `rest` resolve to `id`. */
  function Resolutions(env: Env, path: string, rest: Body, id: string): nat
    decreases |rest|
  {
    if rest == [] then 0
    else
      (if rest[0].Require? && ResolveRequire(env, path, rest[0].arg) == Ok(id) then 1 else 0)
      + Resolutions(env, path, rest[1..], id)
  }

  /** `c` copies of the entry name `n`. */
  function Repeat(n: string, c: nat): (r: seq<string>)
    ensures |r| == c && forall k :: 0 <= k < c ==> r[k] == n
  {
    seq(c, _ => n)
  }

  /** A traversal throws exactly when some `require` call cannot be resolved. */
  lemma {:induction false} TraverseFails(env: Env, name: string, path: string, rest: Body, done: Body,
                                         deps: seq<string>, ms: seq<Module>)
    ensures Traverse(env, name, path, rest, done, deps, ms).result.Err? <==> Unresolvable(env, path, rest)
    decreases |rest|
  {
    if rest != [] {
      if !rest[0].Require? {
        TraverseFails(env, name, path, rest[1..], done + [rest[0]], deps, ms);
        ShiftUnresolvable(env, path, rest);
      } else {
        match ResolveRequire(env, path, rest[0].arg)
        case Err(e) =>
          assert rest[0].Require? && ResolveRequire(env, path, rest[0].arg).Err?;
        case Ok(id) =>
          if HasModule(ms, id) {
            TraverseFails(env, name, path, rest[1..], done + [Bundled(id)], deps, AddOwner(ms, id, name));
          } else {
            TraverseFails(env, name, path, rest[1..], done + [Bundled(id)], AddDependency(deps, id), ms);
          }
          ShiftUnresolvable(env, path, rest);
      }
    }
  }

  lemma ShiftUnresolvable(env: Env, path: string, rest: Body)
    requires rest != [] && !(rest[0].Require? && ResolveRequire(env, path, rest[0].arg).Err?)
    ensures Unresolvable(env, path, rest) <==> Unresolvable(env, path, rest[1..])
  {
    if Unresolvable(env, path, rest) {
      var k :| 0 <= k < |rest| && rest[k].Require? && ResolveRequire(env, path, rest[k].arg).Err?;
      assert rest[1..][k - 1] == rest[k];
    }
  }

  lemma ShiftRequires(env: Env, path: string, rest: Body, id: string)
    requires rest != []
    ensures Requires(env, path, rest, id) <==>
      (rest[0].Require? && ResolveRequire(env, path, rest[0].arg) == Ok(id)) || Requires(env, path, rest[1..], id)
  {
    if Requires(env, path, rest, id) {
      var k :| 0 <= k < |rest| && rest[k].Require? && ResolveRequire(env, path, rest[k].arg) == Ok(id);
      if k > 0 {
        assert rest[1..][k - 1] == rest[k];
      }
    }
    if Requires(env, path, rest[1..], id) {
      var k :| 0 <= k < |rest[1..]| && rest[1..][k].Require? && ResolveRequire(env, path, rest[1..][k].arg) == Ok(id);
      assert rest[k + 1] == rest[1..][k];
    }
  }

  /** Rewrite correctness: a successful traversal replaces each `require` call
      by `__webpack_require__` of the id its target resolves to, keeps every
      other piece, and keeps the pieces already visited. */
  lemma {:induction false} TraverseRewrites(env: Env, name: string, path: string, rest: Body, done: Body,
                                            deps: seq<string>, ms: seq<Module>)
    ensures var s := Traverse(env, name, path, rest, done, deps, ms);
      s.result.Ok? ==>
        && |s.result.value.body| == |done| + |rest|
        && s.result.value.body[..|done|] == done
        && forall k :: 0 <= k < |rest| ==> s.result.value.body[|done| + k] == Rewrite(env, path, rest[k])
    decreases |rest|
  {
    if rest != [] {
      var next: Piece;
      var deps': seq<string>;
      var ms': seq<Module>;
      if !rest[0].Require? {
        next, deps', ms' := rest[0], deps, ms;
      } else {
        match ResolveRequire(env, path, rest[0].arg)
        case Err(e) =>
          return;
        case Ok(id) =>
          next := Bundled(id);
          if HasModule(ms, id) {
            deps', ms' := deps, AddOwner(ms, id, name);
          } else {
            deps', ms' := AddDependency(deps, id), ms;
          }
      }
      assert next == Rewrite(env, path, rest[0]);
      assert Traverse(env, name, path, rest, done, deps, ms) == Traverse(env, name, path, rest[1..], done + [next], deps', ms');
      TraverseRewrites(env, name, path, rest[1..], done + [next], deps', ms');
      var s := Traverse(env, name, path, rest[1..], done + [next], deps', ms');
      if s.result.Ok? {
        var body := s.result.value.body;
        assert body[..|done|] == body[..|done| + 1][..|done|];
        assert body[|done|] == (done + [next])[|done|];
        forall k | 0 <= k < |rest| ensures body[|done| + k] == Rewrite(env, path, rest[k]) {
          if k > 0 {
            assert body[|done + [next]| + (k - 1)] == Rewrite(env, path, rest[1..][k - 1]);
          }
        }
      }
    }
  }

  /** Dependency recording: a successful traversal records, without repeats,
      the ids already recorded plus every id some `require` call resolves to
      that no module in `modules` has; the ids recorded before stay in front
      (`TraverseOrder` gives the order of the new ones). */
  lemma {:induction false} TraverseRecords(env: Env, name: string, path: string, rest: Body, done: Body,
                                           deps: seq<string>, ms: seq<Module>)
    requires Distinct(deps)
    ensures var s := Traverse(env, name, path, rest, done, deps, ms);
      s.result.Ok? ==>
        && Distinct(s.result.value.dependencies)
        && deps <= s.result.value.dependencies
        && forall id :: id in s.result.value.dependencies <==>
             id in deps || (!HasModule(ms, id) && Requires(env, path, rest, id))
    decreases |rest|
  {
    if rest != [] {
      if !rest[0].Require? {
        TraverseRecords(env, name, path, rest[1..], done + [rest[0]], deps, ms);
        forall id { ShiftRequires(env, path, rest, id); }
      } else {
        match ResolveRequire(env, path, rest[0].arg)
        case Err(e) =>
        case Ok(id0) =>
          if HasModule(ms, id0) {
            var ms' := AddOwner(ms, id0, name);
            TraverseRecords(env, name, path, rest[1..], done + [Bundled(id0)], deps, ms');
            forall id
              ensures HasModule(ms', id) == HasModule(ms, id)
              ensures Requires(env, path, rest, id) <==> id == id0 || Requires(env, path, rest[1..], id)
            {
              ShiftRequires(env, path, rest, id);
              AddOwnerKeepsIds(ms, id0, name, id);
            }
          } else {
            var deps' := AddDependency(deps, id0);
            TraverseRecords(env, name, path, rest[1..], done + [Bundled(id0)], deps', ms);
            forall id { ShiftRequires(env, path, rest, id); }
          }
      }
    }
  }

  /** The ids a body's `require` calls resolve to, in body order, kept when
      no module in `ms` has them: the order in which a traversal meets
      dependencies it has to record. */
  function Discovered(env: Env, path: string, rest: Body, ms: seq<Module>): seq<string>
    decreases |rest|
  {
    if rest == [] then []
    else
      var tail := Discovered(env, path, rest[1..], ms);
      if !rest[0].Require? then tail
      else
        match ResolveRequire(env, path, rest[0].arg)
        case Err(_) => tail
        case Ok(id) => if HasModule(ms, id) then tail else [id] + tail
  }

  /** `ids.forEach(id => deps.add(id))` on a Set kept as a sequence. */
  function Insert(deps: seq<string>, ids: seq<string>): seq<string>
    decreases |ids|
  {
    if ids == [] then deps else Insert(AddDependency(deps, ids[0]), ids[1..])
  }

  /** Pushing an owner changes no id, so it changes which ids a body
      discovers as new in no way. */
  lemma {:induction false} DiscoveredIgnoresOwners(env: Env, path: string, rest: Body, ms: seq<Module>,
                                                   id0: string, n: string)
    ensures Discovered(env, path, rest, AddOwner(ms, id0, n)) == Discovered(env, path, rest, ms)
    decreases |rest|
  {
    if rest != [] {
      DiscoveredIgnoresOwners(env, path, rest[1..], ms, id0, n);
      if rest[0].Require? {
        match ResolveRequire(env, path, rest[0].arg)
        case Err(_) =>
        case Ok(id) => AddOwnerKeepsIds(ms, id0, n, id);
      }
    }
  }

  /** Dependency order: a successful traversal records exactly what adding
      the newly discovered ids, in body order, to `deps` gives; so each new
      id sits at the place of the first `require` that resolves to it. */
  lemma {:induction false} TraverseOrder(env: Env, name: string, path: string, rest: Body, done: Body,
                                         deps: seq<string>, ms: seq<Module>)
    ensures var s := Traverse(env, name, path, rest, done, deps, ms);
      s.result.Ok? ==> s.result.value.dependencies == Insert(deps, Discovered(env, path, rest, ms))
    decreases |rest|
  {
    if rest != [] {
      if !rest[0].Require? {
        TraverseOrder(env, name, path, rest[1..], done + [rest[0]], deps, ms);
      } else {
        match ResolveRequire(env, path, rest[0].arg)
        case Err(e) =>
        case Ok(id0) =>
          if HasModule(ms, id0) {
            var ms' := AddOwner(ms, id0, name);
            TraverseOrder(env, name, path, rest[1..], done + [Bundled(id0)], deps, ms');
            DiscoveredIgnoresOwners(env, path, rest[1..], ms, id0, name);
          } else {
            TraverseOrder(env, name, path, rest[1..], done + [Bundled(id0)], AddDependency(deps, id0), ms);
            var ids := [id0] + Discovered(env, path, rest[1..], ms);
            assert ids[0] == id0 && ids[1..] == Discovered(env, path, rest[1..], ms);
          }
      }
    }
  }

  /** A module already in `modules` gets the entry name pushed onto its owners
      once for every `require` call that resolves to its id, so the names
      array can hold the same entry several times. */
  lemma {:induction false} TraversePushes(env: Env, name: string, path: string, rest: Body, done: Body,
                                          deps: seq<string>, ms: seq<Module>)
    ensures var s := Traverse(env, name, path, rest, done, deps, ms);
      s.result.Ok? ==>
        && |s.modules| == |ms|
        && forall i :: 0 <= i < |ms| ==>
             s.modules[i] == ms[i].(name := ms[i].name + Repeat(name, Resolutions(env, path, rest, ms[i].id)))
    decreases |rest|
  {
    if rest == [] {
      forall i | 0 <= i < |ms| ensures ms[i].name + Repeat(name, 0) == ms[i].name { }
    } else if !rest[0].Require? {
      TraversePushes(env, name, path, rest[1..], done + [rest[0]], deps, ms);
    } else {
      match ResolveRequire(env, path, rest[0].arg)
      case Err(e) =>
      case Ok(id0) =>
        if HasModule(ms, id0) {
          var ms' := AddOwner(ms, id0, name);
          TraversePushes(env, name, path, rest[1..], done + [Bundled(id0)], deps, ms');
          var s := Traverse(env, name, path, rest[1..], done + [Bundled(id0)], deps, ms');
          if s.result.Ok? {
            forall i | 0 <= i < |ms|
              ensures s.modules[i] == ms[i].(name := ms[i].name + Repeat(name, Resolutions(env, path, rest, ms[i].id)))
            {
              var c := Resolutions(env, path, rest[1..], ms[i].id);
              if ms[i].id == id0 {
                assert Repeat(name, c + 1) == [name] + Repeat(name, c);
                assert ms[i].name + [name] + Repeat(name, c) == ms[i].name + ([name] + Repeat(name, c));
              }
            }
          }
        } else {
          TraversePushes(env, name, path, rest[1..], done + [Bundled(id0)], AddDependency(deps, id0), ms);
          forall i | 0 <= i < |ms| ensures ms[i].id != id0 { }
        }
    }
  }

  /** After a successful traversal no raw `require` call survives. */
  lemma NoRequireSurvives(env: Env, name: string, path: string, ast: Body, ms: seq<Module>)
    ensures var s := Traverse(env, name, path, ast, [], [], ms);
      s.result.Ok? ==>
        && s.result.value.body == RewriteAll(env, path, ast)
        && forall k :: 0 <= k < |ast| ==> !s.result.value.body[k].Require?
  {
    var s := Traverse(env, name, path, ast, [], [], ms);
    TraverseRewrites(env, name, path, ast, [], [], ms);
    TraverseFails(env, name, path, ast, [], [], ms);
    if s.result.Ok? {
      assert s.result.value.body == RewriteAll(env, path, ast);
    }
  }

  /** The module `buildModule` returns for a file whose transformed source
      parses to `ast`: its id, its single owner, its generated source, and its
      dependencies, which are exactly the ids required by `ast` that no module
      in `modules` had when the file was read, in the order of their first
      `require`. */
  lemma BuildModuleContents(env: Env, st: State, name: string, path: string, fuel: nat, ast: Body)
    requires fuel >= 1 && path in env.fs
    requires Transform(env.rules, path, env.fs[path]).Ok?
    requires env.parse(Transform(env.rules, path, env.fs[path]).value) == Some(ast)
    ensures var o := Build(env, st, name, path, fuel);
      o.result.Ok? ==>
        && o.result.value.id == ModuleId(env, path)
        && o.result.value.name == [name]
        && o.result.value.source == env.generate(RewriteAll(env, path, ast))
        && Distinct(o.result.value.dependencies)
        && (forall id :: id in o.result.value.dependencies <==>
              !HasModule(st.modules, id) && Requires(env, path, ast, id))
        && o.result.value.dependencies == Insert([], Discovered(env, path, ast, st.modules))
  {
    NoRequireSurvives(env, name, path, ast, st.modules);
    TraverseRecords(env, name, path, ast, [], [], st.modules);
    TraverseOrder(env, name, path, ast, [], [], st.modules);
  }
}
