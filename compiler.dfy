/** The `Compiler` class of core/compiler.js. Its fields are the ones the
    original mutates from method to method; each method is proved to leave
    them as the corresponding function of modules Graph, Chunks and Assets
    says, so every property proved about those functions holds of the class. */
module Compilation {
  import opened Base
  import opened Loaders
  import opened Entries
  import opened Graph
  import opened Chunks
  import opened Assets

  /** The option fields the compiler reads: `context`, `entry`,
      `module.rules`, `resolve.extensions`, `output.filename`, `output.path`. */
  datatype Options = Options(
    context: Option<string>,
    entry: EntryOption,
    rules: seq<Rule>,
    extensions: seq<string>,
    filename: string,
    outputPath: string)

  class Compiler {
    /** `this.options`; `getEntry` rewrites an object-valued `entry` in place. */
    var options: Options
    /** `this.rootPath` and everything the builder reads besides the fields below. */
    const env: Env
    /** `getSourceCode`: the bundle text for a chunk. */
    const render: ChunkView -> string
    /** The call-depth limit: how many nested `buildModule` calls fit on the stack. */
    const depthLimit: nat

    var entries: seq<Module>
    var modules: seq<Module>
    var chunks: seq<Chunk>
    var assets: AssetTable
    var files: seq<string>
    var moduleCode: string
    var originSourceCode: string
    /** The files written under `output.path`. */
    var written: map<string, string>

    /** The fields the module builder threads. */
    function Fields(): State
      reads this
    {
      State(modules, moduleCode, originSourceCode)
    }

    /** The fields `buildEntryModule` threads. */
    function Progress(): Progress
      reads this
    {
      Chunks.Progress(Fields(), entries, chunks)
    }

    /** Every chunk refers only to modules in the set, and the asset keys are
        listed once each. */
    predicate Valid()
      reads this
    {
      RefsValid(chunks, |modules|) && ObjValid(assets)
    }

    /** A falsy `context` (missing or empty) falls back to the working
        directory with forward slashes. */
    constructor(options: Options, cwd: string, fs: map<string, string>, paths: PathOps,
                parse: string -> Option<Body>, generate: Body -> string,
                render: ChunkView -> string, depthLimit: nat)
      ensures this.options == options && this.render == render && this.depthLimit == depthLimit
      ensures options.context.Some? && options.context.value != "" ==> env.root == options.context.value
      ensures !(options.context.Some? && options.context.value != "") ==> env.root == paths.toUnix(cwd)
      ensures env.fs == fs && env.paths == paths && env.parse == parse && env.generate == generate
      ensures env.rules == options.rules && env.extensions == options.extensions
      ensures entries == [] && modules == [] && chunks == [] && files == [] && written == map[]
      ensures assets == Obj([], map[]) && moduleCode == "" && originSourceCode == ""
      ensures Valid()
    {
      this.options := options;
      var root := if options.context.Some? && options.context.value != "" then options.context.value
                  else paths.toUnix(cwd);
      this.env := Env(root, fs, paths, parse, generate, options.rules, options.extensions);
      this.render := render;
      this.depthLimit := depthLimit;
      entries := [];
      modules := [];
      chunks := [];
      assets := Obj([], map[]);
      files := [];
      moduleCode := "";
      originSourceCode := "";
      written := map[];
    }

    /** `getEntry`: the normalised entry object. An object-valued entry is
        the same object as `options.entry`, so the option is rewritten too. */
    method GetEntry() returns (entry: seq<EntryPoint>)
      modifies this`options
      ensures entry == NormalizedEntry(env.paths, env.root, old(options.entry))
      ensures options == old(options).(entry := if old(options.entry).Named? then Named(entry) else old(options.entry))
    {
      var original := EntryObject(options.entry);
      ghost var normalized := Normalize(env.paths, env.root, original);
      entry := original;
      var i := 0;
      while i < |entry|
        invariant 0 <= i <= |entry| == |original|
        invariant forall k :: 0 <= k < i ==> entry[k] == normalized[k]
        invariant forall k :: i <= k < |entry| ==> entry[k] == original[k]
        invariant options == old(options).(entry := if old(options.entry).Named? then Named(entry) else old(options.entry))
      {
        var value := entry[i].path;
        if !env.paths.isAbsolute(value) {
          entry := entry[i := entry[i].(path := env.paths.toUnix(env.paths.join(env.root, value)))];
          if options.entry.Named? {
            options := options.(entry := Named(entry));
          }
        }
        i := i + 1;
      }
    }

    /** `handleLoder`: collect the loaders of the matching rules in rule
        order, then run them from last to first over `moduleCode`. A matching
        rule without `loader` or `use` throws before any loader runs. */
    method HandleLoader(path: string) returns (r: Result<()>)
      modifies this`moduleCode
      ensures var t := Transform(env.rules, path, old(moduleCode));
        && (t.Ok? ==> r == Ok(()) && moduleCode == t.value)
        && (t.Err? ==> r == Err(t.error) && moduleCode == old(moduleCode))
    {
      var rules := env.rules;
      var matched: seq<Loader> := [];
      var i := 0;
      while i < |rules|
        invariant 0 <= i <= |rules|
        invariant MatchLoaders(rules[..i], path) == Ok(matched)
      {
        assert rules[..i + 1][..i] == rules[..i];
        var rule := rules[i];
        if rule.test(path) {
          if rule.loader.Some? {
            matched := matched + [rule.loader.value];
          } else if rule.use.Some? {
            matched := matched + rule.use.value;
          } else {
            MatchLoadersErrPrefix(rules, i + 1, path);
            return Err(RuleWithoutLoader(path));
          }
        }
        i := i + 1;
      }
      assert rules[..|rules|] == rules;
      var j := |matched|;
      while j > 0
        invariant 0 <= j <= |matched|
        invariant moduleCode == Chain(matched[j..], old(moduleCode))
      {
        j := j - 1;
        ChainStep(matched, j, old(moduleCode));
        moduleCode := matched[j](moduleCode);
      }
      return Ok(());
    }

    /** `Array.from(this.modules).map(m => m.id).includes(id)`. */
    method HasModuleWithId(id: string) returns (b: bool)
      ensures b == HasModule(modules, id)
    {
      b := false;
      var i := 0;
      while i < |modules|
        invariant 0 <= i <= |modules|
        invariant b == exists k :: 0 <= k < i && modules[k].id == id
      {
        if modules[i].id == id {
          b := true;
        }
        i := i + 1;
      }
    }

    /** The `this.modules.forEach` that pushes entry `n` onto every module with this id. */
    method PushOwner(id: string, n: string)
      modifies this`modules
      ensures modules == AddOwner(old(modules), id, n)
    {
      ghost var target := AddOwner(modules, id, n);
      var i := 0;
      while i < |modules|
        invariant 0 <= i <= |modules| == |old(modules)|
        invariant forall k :: 0 <= k < i ==> modules[k] == target[k]
        invariant forall k :: i <= k < |modules| ==> modules[k] == old(modules)[k]
      {
        if modules[i].id == id {
          modules := modules[i := modules[i].(name := modules[i].name + [n])];
        }
        i := i + 1;
      }
    }

    /** `buildModule(name, path)`: read the file, run the loaders, compile.
        `fuel` is the number of nested calls that still fit on the stack. */
    method BuildModule(name: string, path: string, fuel: nat) returns (r: Result<Module>)
      modifies this`modules, this`moduleCode, this`originSourceCode
      decreases fuel, 2
      ensures r == Build(env, old(Fields()), name, path, fuel).result
      ensures Fields() == Build(env, old(Fields()), name, path, fuel).state
    {
      if fuel == 0 {
        return Err(StackOverflow);
      }
      if path !in env.fs {
        return Err(ReadFailed(path));
      }
      originSourceCode := env.fs[path];
      moduleCode := originSourceCode;
      var loaded := HandleLoader(path);
      if loaded.Err? {
        return Err(loaded.error);
      }
      r := HandleWebpackCompiler(name, path, fuel);
    }

    /** `handleWebpackCompiler(name, path)`: parse `moduleCode`, visit each
        `require` call in order (rewrite it, then record a new dependency or
        push `name` onto the modules already built with that id), generate
        the code, then build the dependencies in insertion order, adding each
        to `modules` after its own subtree. */
    method HandleWebpackCompiler(name: string, path: string, fuel: nat) returns (r: Result<Module>)
      requires fuel >= 1
      modifies this`modules, this`moduleCode, this`originSourceCode
      decreases fuel, 1
      ensures r == Compile(env, old(Fields()), name, path, fuel).result
      ensures Fields() == Compile(env, old(Fields()), name, path, fuel).state
    {
      var id := ModuleId(env, path);
      var parsed := env.parse(moduleCode);
      if parsed.None? {
        return Err(ParseFailed(path));
      }
      var ast := parsed.value;
      var done: Body := [];
      var deps: seq<string> := [];
      var i := 0;
      while i < |ast|
        invariant 0 <= i <= |ast|
        invariant moduleCode == old(moduleCode) && originSourceCode == old(originSourceCode)
        invariant Traverse(env, name, path, ast, [], [], old(modules)) == Traverse(env, name, path, ast[i..], done, deps, modules)
      {
        assert ast[i..][1..] == ast[i + 1..];
        var piece := ast[i];
        if !piece.Require? {
          done := done + [piece];
        } else {
          var resolved := ResolveRequire(env, path, piece.arg);
          if resolved.Err? {
            return Err(resolved.error);
          }
          var depId := resolved.value;
          var known := HasModuleWithId(depId);
          if known {
            PushOwner(depId, name);
          } else if depId !in deps {
            deps := deps + [depId];
          }
          done := done + [Bundled(depId)];
        }
        i := i + 1;
      }
      assert ast[|ast|..] == [];
      var source := env.generate(done);
      ghost var scanned := Fields();
      var k := 0;
      while k < |deps|
        invariant 0 <= k <= |deps|
        invariant BuildDeps(env, scanned, name, deps, fuel - 1) == BuildDeps(env, Fields(), name, deps[k..], fuel - 1)
      {
        assert deps[k..][1..] == deps[k + 1..];
        var built := BuildModule(name, deps[k], fuel - 1);
        if built.Err? {
          return Err(built.error);
        }
        modules := modules + [built.value];
        k := k + 1;
      }
      return Ok(Module(id, deps, [name], source));
    }

    /** `buildUpChunk(entryName, entryObj)`: a chunk holding the modules that
        `entryName` owns at this moment. */
    method BuildUpChunk(entryName: string, entryObj: Module)
      requires Valid()
      modifies this`chunks
      ensures chunks == old(chunks) + [Chunk(entryName, entryObj, OwnedBy(modules, entryName))]
      ensures Valid()
    {
      var owned := OwnedBy(modules, entryName);
      assert forall k :: 0 <= k < |owned| ==> owned[k] in owned;
      chunks := chunks + [Chunk(entryName, entryObj, owned)];
      assert chunks[|chunks| - 1].modules == owned;
    }

    /** `buildEntryModule(entry)`: for each entry in key order, build it, add
        it to `entries` and assemble its chunk. */
    method BuildEntryModule(entry: seq<EntryPoint>) returns (r: Result<()>)
      requires Valid()
      modifies this`modules, this`moduleCode, this`originSourceCode, this`entries, this`chunks
      ensures r == BuildEntries(env, old(Progress()), entry, depthLimit).result
      ensures Progress() == BuildEntries(env, old(Progress()), entry, depthLimit).progress
      ensures Valid()
    {
      ghost var start := Progress();
      var i := 0;
      while i < |entry|
        invariant 0 <= i <= |entry|
        invariant Valid()
        invariant BuildEntries(env, start, entry, depthLimit) == BuildEntries(env, Progress(), entry[i..], depthLimit)
      {
        assert entry[i..][1..] == entry[i + 1..];
        ghost var before := Fields();
        var built := BuildModule(entry[i].name, entry[i].path, depthLimit);
        BuildGrows(env, before, entry[i].name, entry[i].path, depthLimit);
        RefsValidWiden(chunks, |before.modules|, |modules|);
        if built.Err? {
          return Err(built.error);
        }
        entries := entries + [built.value];
        BuildUpChunk(entry[i].name, built.value);
        i := i + 1;
      }
      assert entry[|entry|..] == [];
      return Ok(());
    }

    /** The `chunks.forEach` of `exportFile`: each chunk's bundle text stored
        under its asset name. */
    method EmitAssets()
      requires Valid()
      modifies this`assets
      ensures Valid()
      ensures assets == Emit(old(assets), chunks, modules, options.filename, render)
    {
      var cs, ms, template := chunks, modules, options.filename;
      var table := assets;
      assert cs[0..] == cs;
      var j := 0;
      while j < |cs|
        invariant 0 <= j <= |cs|
        invariant ObjValid(table)
        invariant RefsValid(cs[j..], |ms|)
        invariant Emit(old(assets), cs, ms, template, render) == Emit(table, cs[j..], ms, template, render)
      {
        EmitStepAt(table, cs, ms, template, render, j);
        var fileName := AssetName(template, cs[j].name);
        var text := render(View(cs[j], ms));
        AssignStringValid(table, fileName, text);
        table := AssignString(table, fileName, text);
        j := j + 1;
      }
      assert cs[|cs|..] == [];
      assets := table;
    }

    /** The `writeFileSync` loop of `exportFile`, over the asset keys in order. */
    method WriteAssets()
      requires forall k :: 0 <= k < |files| ==> files[k] in assets.content
      modifies this`written
      ensures written == WriteAll(old(written), files, assets.content, options.outputPath, env.paths)
    {
      var w := 0;
      while w < |files|
        invariant 0 <= w <= |files|
        invariant WriteAll(old(written), files, assets.content, options.outputPath, env.paths)
               == WriteAll(written, files[w..], assets.content, options.outputPath, env.paths)
      {
        assert files[w..][1..] == files[w + 1..];
        written := written[env.paths.join(options.outputPath, files[w]) := assets.content[files[w]]];
        w := w + 1;
      }
    }

    /** The asset part of `exportFile`: emit the assets, set `files` to the
        asset keys, write each asset under `output.path`. */
    method ExportFile()
      requires Valid()
      modifies this`assets, this`files, this`written
      ensures Valid()
      ensures assets == Emit(old(assets), chunks, modules, options.filename, render)
      ensures files == assets.order
      ensures forall k :: 0 <= k < |files| ==> files[k] in assets.content
      ensures written == WriteAll(old(written), files, assets.content, options.outputPath, env.paths)
    {
      EmitAssets();
      files := assets.order;
      WriteAssets();
    }

    /** `run`: normalise the entry, build every entry, then export. A thrown
        error ends the run before anything is exported. */
    method Run() returns (r: Result<()>)
      requires Valid()
      modifies this`options, this`modules, this`moduleCode, this`originSourceCode, this`entries, this`chunks
      modifies this`assets, this`files, this`written
      ensures Valid()
      ensures options == old(options).(entry := if old(options.entry).Named?
                                                then Named(NormalizedEntry(env.paths, env.root, old(options.entry)))
                                                else old(options.entry))
      ensures options.filename == old(options.filename) && options.outputPath == old(options.outputPath)
      ensures var c := BuildEntries(env, old(Progress()), NormalizedEntry(env.paths, env.root, old(options.entry)), depthLimit);
        && Progress() == c.progress
        && r == c.result
        && (r.Err? ==> assets == old(assets) && files == old(files) && written == old(written))
        && (r.Ok? ==> assets == Emit(old(assets), chunks, modules, options.filename, render)
                      && files == assets.order
                      && written == WriteAll(old(written), files, assets.content, options.outputPath, env.paths))
    {
      var entry := GetEntry();
      r := BuildEntryModule(entry);
      if r.Err? {
        return;
      }
      ExportFile();
    }
  }
}
