# A verified model of a minimal webpack compiler

This project models the core of a small webpack-style bundler in Dafny and proves properties of the model.

The `Compiler` class turns a configuration into bundle files in five steps:

1. **Entry normalisation** (`getEntry`). The `entry` option becomes a map from chunk names to absolute paths.
2. **Module build** (`buildModule`):
   - it reads each module's file;
   - it runs the matching loaders over the source (`handleLoder`);
   - it parses the code and rewrites every `require(...)` call into `__webpack_require__(id)` (`handleWebpackCompiler`);
   - it records each id not yet in the global module set as a dependency, and pushes the entry's name onto the owners of modules already built with that id;
   - it builds the dependencies depth-first, adding each to the module set after its own subtree.
3. **Chunk assembly** (`buildUpChunk`). After each entry is built, its chunk collects the modules whose owner list holds the entry's name.
4. **Asset naming** (`exportFile`). Each chunk becomes an asset named by substituting the chunk name for `[name]` in `output.filename`.
5. **Options and plugins** (`core/webpack.js`). `key=value` command-line arguments override the configuration, and the plugins are applied in order.

The model follows the code.

- **Imperative parts.** The class, its fields and its loops are written as a Dafny `class` (`compiler.dfy`) whose methods state their results and new state in terms of the functions below.
- **Functions.** The object graph is threaded through these:
  - `Graph.Build`, `Graph.Compile`, `Graph.BuildDeps` (building);
  - `Chunks.BuildEntries` (entries and chunks);
  - `Assets.Emit` (assets);
  - `Webpack.ShellOptions` and `Webpack.Merge` (options).
- **Lemmas.** These state what the compiler promises about those functions.
- **Scenarios.** `scenarios.dfy` evaluates the model on small concrete projects.

Modelling choices:

- **Object identity.**
  - A module object is its position in the `modules` sequence. That sequence only grows, and each object is added once.
  - A chunk holds positions, so owners pushed later are visible through earlier chunks, as they are through shared objects in the original.
- **Code as pieces.** A parsed module body is a sequence of pieces:
  - text;
  - a `require` call, with its first argument when that is a string literal;
  - an already rewritten `__webpack_require__(id)` call, which carries exactly one string argument.
- **Given functions.**
  - The parser, the code generator, the loaders and the rules' `test` regular expressions are parameters.
  - The path helpers are too: `path.join`, `path.posix.join`, `path.posix.relative`, `path.posix.dirname`, `path.isAbsolute` and `toUnixPath`.
  - So is `getSourceCode`, which turns a chunk into bundle text.
- **File system.** Files are a map from path to text; the files written are a second map.
- **Resolution.** `tryExtensions` lives in `core/utils/index`, which is not part of this model. The model assumes it tries the joined path as given first, then the path with each configured extension appended, in order, and throws when none of them is a file.
- **Errors.** A thrown error is a `Result` error, and abandons the run with the state it had reached:
  - a missing file;
  - a matching rule with no loader;
  - a parse failure;
  - a non-literal `require`;
  - an unresolvable request;
  - stack exhaustion.
- **No cycle guard.** The source has none, so the build carries a depth limit (`fuel`, the `depthLimit` of the class). A build that reaches it fails with `StackOverflow`, as a deep or cyclic graph exhausts the JavaScript call stack.

**What the code does not guarantee.** Three consequences of the code are worth knowing:

- **Ids are not unique.** The code does not guarantee one module per id: the deduplication check runs when a `require` is met, not when a module is built. So a module can be built twice: `./e` requiring `./a` and `./b`, with `./a` requiring `./b`, leaves `./b` twice in the module set (`Scenarios.DuplicateIds`). The model makes no uniqueness claim.
- **Owner names can repeat.** Owner names are pushed without a membership check.
- **Ownership does not propagate.** Pushing an owner onto a module does not reach that module's own dependencies. So a second entry that requires an already built `./b` gets a chunk without `./b`'s dependency `./c` (`Scenarios.OwnershipDoesNotPropagate`).

## Model

| member | source | states |
|---|---|---|
| Compilation.Compiler.constructor | core/compiler.js:13-43 | All collections start empty and `moduleCode`/`originSourceCode` start as `''`. `rootPath` is `options.context` when that is present and non-empty, otherwise `toUnixPath(cwd)`. |
| Compilation.Compiler.GetEntry | core/compiler.js:59-79 | The returned entry object is `Entries.NormalizedEntry` of the option. An object-valued `entry` option is rewritten in place to the same value; a string option is left as it is. |
| Entries.Normalize | core/compiler.js:69-76 | Keys are kept in order with their names. Absolute values are unchanged. Every other value becomes `toUnix(join(root, value))`. |
| Entries.StringEntryIsMain | core/compiler.js:63-64 | A string entry yields exactly one entry, named `main`, holding the resolved path. |
| Entries.NormalizeKeepsNames | core/compiler.js:70-76 | Normalising keeps the set of entry names, and distinct names stay distinct. |
| Entries.NormalizeIdempotent | core/compiler.js:70-76 | When root-joined paths are absolute, normalising twice gives the same entry as normalising once. |
| Compilation.Compiler.HandleLoader | core/compiler.js:112-137 | `moduleCode` becomes `Loaders.Transform` of the old code. If a matching rule has neither `loader` nor `use`, the error is returned and `moduleCode` is unchanged. |
| Loaders.MatchLoadersConcat | core/compiler.js:117-127 | Collecting over `a + b` concatenates what `a` and `b` collect, in rule order, and an error in `a` is the error of the whole. |
| Loaders.MatchLoadersErrPrefix | core/compiler.js:124 | Once a prefix of the rules throws, the whole collection throws the same error. |
| Loaders.NoMatchNoLoaders | core/compiler.js:117-127 | A path no rule matches collects no loaders. |
| Loaders.NoMatchKeepsSource | core/compiler.js:102-136 | When no rule matches, `moduleCode` is the original source. |
| Loaders.ChainConcat | core/compiler.js:130-136 | Running `a + b` right to left runs `b` first, then `a` on its output. |
| Loaders.ChainStep | core/compiler.js:130-136 | The loader at index `k` consumes exactly the output of the loaders after it. |
| Loaders.TwoRulesRunRightToLeft | core/compiler.js:117-136 | Two matching rules with loaders `f` and `g` produce `f(g(source))`. |
| Compilation.Compiler.BuildModule | core/compiler.js:98-109 | The result and the new `modules`/`moduleCode`/`originSourceCode` are those of `Graph.Build`. This covers the missing-file, loader-error and depth-limit cases. |
| Compilation.Compiler.HandleWebpackCompiler | core/compiler.js:139-210 | The visit loop (rewrite, dedup check, owner push), generation and the dependency loop give exactly the result and state of `Graph.Compile`, including every abort. |
| Compilation.Compiler.HasModuleWithId | core/compiler.js:180-181 | True exactly when some module in `modules` has the id. |
| Compilation.Compiler.PushOwner | core/compiler.js:186-190 | Every module with the id, and no other, gets the entry name appended to `name`. |
| Graph.FirstExisting | core/compiler.js:164-169 | `None` exactly when no candidate exists. Otherwise the first candidate, in suffix order, that names a file. |
| Graph.BuildReturns | core/compiler.js:141-147 | A built module's id is `./` plus the root-relative path, and its owners are exactly `[moduleName]`. |
| Traversal.BuildModuleContents | core/compiler.js:141-200 | The built module has the computed id, owner `[name]`, and code generated from the rewritten body. Its dependencies are distinct and are exactly the ids the body requires that no module had when it was read, in the order of their first `require`: `Insert([], Discovered(...))`. |
| Traversal.TraverseRewrites | core/compiler.js:155-177 | The rewritten body has one piece per input piece, in place. Each resolved `require` becomes `__webpack_require__` with the target's computed id as its one argument; other pieces are unchanged. |
| Traversal.NoRequireSurvives | core/compiler.js:155-198 | After a successful visit the body is the piecewise rewrite, and no raw `require` call is left. |
| Traversal.TraverseFails | core/compiler.js:161-169 | The visit throws exactly when some `require` call cannot be resolved or has no literal argument. |
| Traversal.TraverseRecords | core/compiler.js:143-183 | The recorded dependencies stay distinct, and the ones recorded before stay in front. An id is recorded exactly when it was already recorded, or is required in the body while no module has it. |
| Traversal.TraverseOrder | core/compiler.js:179-183 | The recorded dependencies are the old ones with the newly discovered ids added in body order, as `Set.add` does (`Insert` of `Discovered`). So each new id sits where its first resolving `require` is met. |
| Traversal.DiscoveredIgnoresOwners | core/compiler.js:184-190 | Pushing an owner onto existing modules does not change which required ids count as new. |
| Traversal.TraversePushes | core/compiler.js:184-190 | Each existing module gets the entry name pushed once per `require` of its id in the body, and nothing else changes. |
| Graph.TraverseGrows | core/compiler.js:179-191 | A visit adds and removes no modules; it only appends the current entry to owners. |
| Graph.AddOwnerKeepsIds | core/compiler.js:186-190 | Pushing an owner changes no module's id, so the dedup check sees the same ids. |
| Graph.BuildGrows | core/compiler.js:98-210 | Building for entry `n`, whether it succeeds or throws, keeps every module's position, id, dependencies and source. It only appends `n` to owners, and only adds modules owned by `n` alone. |
| Graph.BuildDepsGrows | core/compiler.js:203-207 | The same for the dependency loop. |
| Graph.BuildDepsAdds | core/compiler.js:203-207 | After a successful dependency loop, each dependency's module lies among the modules added after the existing ones. |
| Graph.BuildDepsPostOrder | core/compiler.js:203-207 | A successful dependency loop builds the dependencies in insertion order, one state per dependency. Each build succeeds with the module of that dependency's id and only appends that dependency's subtree. The dependency's module then goes right after the subtree, past everything added for earlier dependencies, and later steps only push the entry's name onto owners. |
| Graph.BuildAddsNotItself | core/compiler.js:98-210 | `buildModule` never adds the module it returns. A module whose build records no dependencies adds no module; otherwise the last module added is its last dependency's. |
| Compilation.Compiler.BuildUpChunk | core/compiler.js:213-221 | Appends one chunk named after the entry, holding the built entry module and the modules whose `name` includes the entry, in set order. |
| Chunks.OwnedBy | core/compiler.js:217 | A position is in the result exactly when that module's owners include the entry. Positions are strictly increasing, so set order is kept. |
| Compilation.Compiler.BuildEntryModule | core/compiler.js:81-95 | `entries`, `modules` and `chunks` become those of `Chunks.BuildEntries`: one build, one entry and one chunk per key, in key order, stopping at the first error. |
| Chunks.BuildEntriesChunks | core/compiler.js:81-90 | One chunk per built entry, in key order. Each is named after its entry, and its entry module is the one added to `entries`, owned only by that entry. |
| Chunks.BuildEntriesConsistent | core/compiler.js:82-220 | With distinct entry names, each chunk still holds exactly its entry's modules after later entries are built. |
| Chunks.RunChunkMembership | core/compiler.js:81-220 | After a run from an empty compiler, a module is in a chunk exactly when the chunk's name is among its owners. |
| Chunks.OwnedByStable | core/compiler.js:217 | A build for another entry does not change which modules an entry owns. |
| Ownership.BuildEntriesMonotone | core/compiler.js:81-95 | Over a whole run, with or without errors, no module leaves the set, ids, dependencies and sources stay, and owner lists only grow at the end. |
| Compilation.Compiler.Run | core/compiler.js:47-56 | Entries, modules and chunks are those of building the normalised entry. `options` changes only where `getEntry` rewrites an object-valued entry, so `output.filename` and `output.path` are the configured ones. An error stops the run before any asset is produced; otherwise the assets are emitted and written as `ExportFile` says. |
| Compilation.Compiler.ExportFile | core/compiler.js:224-248 | `assets` becomes `Assets.Emit` of the chunks, `files` the list of asset keys (each listed once), and each asset is written under `path.join(output.path, key)`. |
| Compilation.Compiler.EmitAssets | core/compiler.js:227-231 | The asset object after the `forEach` equals `Assets.Emit` and stays well formed. |
| Compilation.Compiler.WriteAssets | core/compiler.js:245-248 | The written files equal `Assets.WriteAll` over the keys in order. |
| Assets.IndexFrom | core/compiler.js:228 | The first index where `[name]` occurs, with no earlier occurrence; `None` exactly when it does not occur. |
| Assets.AssetNameSubstitutes | core/compiler.js:228 | For a chunk name without `$`, the first `[name]` is replaced by the chunk name and the rest of the template kept. A template without `[name]` is unchanged. |
| Assets.ExpandPlain | core/compiler.js:228 | A replacement string without `$` is inserted literally. |
| Assets.EmitKeys | core/compiler.js:227-231 | The asset keys are the old keys plus one asset name per chunk, except `__proto__`. |
| Assets.EmitValid | core/compiler.js:227-242 | The asset object stays well formed, so `files` lists each key once; old keys keep their order in front. |
| Assets.EmitLastWins | core/compiler.js:227-231 | The text under a chunk's asset name (other than `__proto__`) is that chunk's when no later chunk has the same name: a later chunk overwrites an earlier one. |
| Assets.EmitKeepsProto | core/compiler.js:230 | An asset named `__proto__` is never stored: the table's `__proto__` key, and its value, stay as they were. |
| Assets.EmitUntouched | core/compiler.js:227-231 | A key no chunk's asset name hits keeps its value. |
| Base.PutValid | core/compiler.js:230 | Assigning an object key keeps the keys distinct, keeps old keys in order, and adds exactly that key. |
| Base.AssignStringValid | core/compiler.js:230 | Assigning a string keeps the object well formed with old keys in front, and stores the value under the key. For `__proto__` it changes nothing, because the inherited setter ignores a non-object. |
| Webpack.ParseShellOptions | core/webpack.js:18-25 | The `reduce` over `process.argv.slice(2)` yields `Webpack.ShellOptions(argv)`. |
| Webpack.MergeOptions | core/webpack.js:17-31 | The merged options are `Webpack.Merge` of the configuration and the parsed command-line options. |
| Webpack.Split | core/webpack.js:20 | The pieces of `split('=')`: at least one, none containing `=`. |
| Webpack.JoinSplit | core/webpack.js:20 | Joining the pieces with `=` gives the argument back. |
| Webpack.SplitJoin | core/webpack.js:20 | Splitting a join of `=`-free pieces gives the pieces back. |
| Webpack.SkipsFirstTwo | core/webpack.js:18 | The first two argv entries never affect the options, and argv of two entries gives no options. |
| Webpack.ParseArgPieces | core/webpack.js:20-23 | An argument counts exactly when its first two `=`-pieces are non-empty; key and value are those pieces, and later pieces are dropped. |
| Webpack.ParseArgNeedsEquals | core/webpack.js:20-23 | An argument without `=` never counts. |
| Webpack.FoldKeys | core/webpack.js:18-25 | A key is set exactly when some counted argument has that key, other than `__proto__`, whose assignment the prototype setter discards. |
| Webpack.FoldLastWins | core/webpack.js:18-25 | A repeated key takes the value of its last occurrence. |
| Webpack.FoldUntouched | core/webpack.js:18-25 | Arguments for other keys leave a key as it is. |
| Webpack.FoldValid | core/webpack.js:18-25 | The command-line object stays well formed. |
| Webpack.MergePrecedence | core/webpack.js:27-30 | Every config key is kept, a key also on the command line takes the command-line value, and command-line-only keys are added. The config's keys keep their order in front. |
| Webpack.SpreadKeysContent | core/webpack.js:27-30 | Spreading keeps the object well formed and gives each spread key the source's value; other keys keep theirs. |
| Webpack.SpreadOrder | core/webpack.js:27-30 | Spreading new distinct keys appends them in their order. |
| Webpack.LiftValid | core/webpack.js:27-30 | Command-line strings taken as option values keep their keys and order. |
| Webpack.LoadPlugins | core/webpack.js:34-40 | `apply` is called once per plugin in array order, and never when `plugins` is missing or not an array. |
| Scenarios.DuplicateIds | core/compiler.js:179-207 | `./e` requiring `./a` and `./b`, with `./a` requiring `./b`, yields the module set `[./b, ./a, ./b]`. |
| Scenarios.OwnershipDoesNotPropagate | core/compiler.js:184-220 | With `main` requiring `./b`, `./b` requiring `./c`, and `second` requiring `./b`, the chunk `second` holds `./b` but not `./c`, while `main` holds both. |
| Scenarios.RequireTwiceRecordsOnce | core/compiler.js:145-183 | Requiring `./b` twice rewrites both calls and records `./b` once. |
| Scenarios.ResolvesByExtension | core/compiler.js:164-169 | With extensions `.js`, `.ts` and only `./x.ts` on disk, `./x` resolves to `./x.ts`. |
| Scenarios.ExampleExtensionsMissTs | example/webpack.config.js:23-25 | The example's extension list `['.js', 'ts']` cannot resolve `./x` to `./x.ts`: `./xts` is tried instead. |
| Scenarios.MainAsset | example/webpack.config.js:18-21 | The template `[name].js` names the `main` chunk's asset `main.js`. |
| Scenarios.FirstPlaceholderOnly | core/compiler.js:228 | `[name]/[name].js` for chunk `a` gives `a/[name].js`: only the first placeholder is replaced. |
| Scenarios.DollarPatternInChunkName | core/compiler.js:228 | A chunk named `$&` puts the matched `[name]` back, because `replace` expands `$` patterns. |
| Scenarios.ProtoTemplateName | core/compiler.js:228 | The template `__proto__` has no `[name]`, so every chunk's asset name is `__proto__`. |
| Scenarios.ProtoFilenameStoresNothing | core/compiler.js:227-242 | With `output.filename` set to `__proto__`, emitting a chunk into the empty asset object leaves it empty, so `files` is empty and nothing is written. |
| Scenarios.CountedArguments | core/webpack.js:20-23 | `mode=production` sets `mode`; `a=b=c` sets `a` to `b`. |
| Scenarios.IgnoredArguments | core/webpack.js:20-23 | `mode=` and `=x` set nothing. |

## Left out

- File I/O. `readFileSync`, `existsSync`/`mkdirSync` and `writeFileSync` become a map of readable files and a map of written files. Directory creation is not modelled, writes never fail, and written files are not visible to later reads.
- The Babel parser, traverser and generator, and `@babel/types`. They are foreign libraries, so code is an abstract sequence of pieces. The parser and generator are given functions, and the visitor's in-place mutation of AST nodes is modelled as producing the rewritten piece sequence.
- The dynamic `require` of loader modules, and exceptions thrown by loaders. A loader is a given total `string -> string` function.
- Regular-expression matching of `rule.test`. It is a given predicate on paths.
- `getSourceCode` and `toUnixPath` from `core/utils/index`. That file is not part of this model: `getSourceCode` is a given function of the chunk, so the bundle text is not modelled, and `toUnixPath` is a given path function. `tryExtensions` is modelled by the assumed resolution rule stated above, not from its code.
- Tapable hooks and their firing (`run`, `emit`, `done`), and the plugins' `console.log` output. They only notify observers.
- The `callback` of `exportFile` and its `toJson` statistics object. They only hand the compiler's fields back to the caller.
- `core/index.js` and the `webpack()` function that wires `_mergeOptions`, `new Compiler` and `_loadPlugin` together. Note that `webpack()` hands `_loadPlugin` the original configuration's `plugins`, not the merged ones.
- The typed view of the merged options. `Webpack.Merge` works on any object, while `Compilation.Options` holds the fields the compiler reads; the conversion between the two is not modelled.
- `process.cwd()` and `process.argv`. They are parameters of the constructor and of `Webpack.MergeOptions`.
- Termination on cyclic or very deep imports. The code has no cycle guard, so the build carries a depth limit and reports `StackOverflow` when it is reached. Actual JavaScript stack sizes are not modelled.
- Global id uniqueness and duplicate-free owner lists. The code does not guarantee them.
- JavaScript's ordering of integer-like object keys, which `Object.keys` and object spread list first in ascending order. Four kinds of key are kept in plain insertion order instead: entry names, asset keys, the command-line object's keys (`0=x` would come first in JavaScript), and the keys of the spread merge (`Webpack.SpreadOrder`, and the config-keys-in-front part of `Webpack.MergePrecedence`).
- Missing configuration fields (`module.rules`, `resolve.extensions`, `output`). They are assumed present, and the `TypeError` their absence would cause is not modelled.
- File lookup by id. A dependency is built from its root-relative id, which is used as the file-map key as the code does. The results are meaningful only when the root is the working directory.
