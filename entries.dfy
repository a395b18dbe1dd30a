/** Entry normalisation of `getEntry` (core/compiler.js:59-79), and the path
    helpers the compiler calls (Node's `path` module and `toUnixPath`), which
    are given as functions because only their call sites are modelled. */
module Entries {

  /** The path operations the compiler uses. `join` is `path.join`,
      `posixJoin` is `path.posix.join`, `relative` is `path.posix.relative`,
      `dirname` is `path.posix.dirname`, `toUnix` is `toUnixPath`. */
  datatype PathOps = PathOps(
    isAbsolute: string -> bool,
    join: (string, string) -> string,
    posixJoin: (string, string) -> string,
    relative: (string, string) -> string,
    dirname: string -> string,
    toUnix: string -> string)

  /** One key of the entry object: the chunk name and the path of its file. */
  datatype EntryPoint = EntryPoint(name: string, path: string)

  /** `options.entry`: a single path, or an object whose keys (in key order)
      name the entries. */
  datatype EntryOption = Single(path: string) | Named(points: seq<EntryPoint>)

  /** The keys of an object are distinct. */
  predicate UniqueNames(points: seq<EntryPoint>)
  {
    forall i, j :: 0 <= i < j < |points| ==> points[i].name != points[j].name
  }

  /** The entry object `getEntry` starts from: a string becomes `{main: ...}`. */
  function EntryObject(option: EntryOption): seq<EntryPoint>
  {
    match option
    case Single(p) => [EntryPoint("main", p)]
    case Named(ps) => ps
  }

  /** The value one key ends with: relative paths are joined onto the root and
      given forward slashes; absolute paths are kept. */
  function Resolved(paths: PathOps, root: string, value: string): string
  {
    if paths.isAbsolute(value) then value else paths.toUnix(paths.join(root, value))
  }

  /** The entry object after the `forEach` of `getEntry` has rewritten each key. */
  function Normalize(paths: PathOps, root: string, points: seq<EntryPoint>): (r: seq<EntryPoint>)
    ensures |r| == |points|
    ensures forall i :: 0 <= i < |r| ==> r[i].name == points[i].name
    ensures forall i :: 0 <= i < |r| && paths.isAbsolute(points[i].path) ==> r[i].path == points[i].path
    ensures forall i :: 0 <= i < |r| && !paths.isAbsolute(points[i].path) ==>
      r[i].path == paths.toUnix(paths.join(root, points[i].path))
    decreases |points|
  {
    if points == [] then []
    else
      [EntryPoint(points[0].name, Resolved(paths, root, points[0].path))] + Normalize(paths, root, points[1..])
  }

  /** The entry object `getEntry` returns. */
  function NormalizedEntry(paths: PathOps, root: string, option: EntryOption): seq<EntryPoint>
  {
    Normalize(paths, root, EntryObject(option))
  }

  /** A string entry yields exactly one entry, named `main`, whose path is the
      resolved string. */
  lemma StringEntryIsMain(paths: PathOps, root: string, p: string)
    ensures NormalizedEntry(paths, root, Single(p)) == [EntryPoint("main", Resolved(paths, root, p))]
  {
  }

  /** Normalisation keeps the set of entry names, so distinct keys stay distinct. */
  lemma NormalizeKeepsNames(paths: PathOps, root: string, points: seq<EntryPoint>)
    requires UniqueNames(points)
    ensures UniqueNames(Normalize(paths, root, points))
    ensures (set i | 0 <= i < |points| :: points[i].name)
      == (set i | 0 <= i < |points| :: Normalize(paths, root, points)[i].name)
  {
  }

  /** If joining onto the root always yields an absolute path, normalising an
      already normalised entry object changes nothing. */
  lemma {:induction false} NormalizeIdempotent(paths: PathOps, root: string, points: seq<EntryPoint>)
    requires forall v :: paths.isAbsolute(paths.toUnix(paths.join(root, v)))
    ensures Normalize(paths, root, Normalize(paths, root, points)) == Normalize(paths, root, points)
    decreases |points|
  {
    if points != [] {
      NormalizeIdempotent(paths, root, points[1..]);
    }
  }
}
