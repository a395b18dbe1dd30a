/** Chunk assembly (`buildUpChunk`, core/compiler.js:213-221) and the loop of
    `buildEntryModule` (core/compiler.js:81-95) that builds each entry and
    assembles its chunk right after. */
module Chunks {
  import opened Base
  import opened Entries
  import opened Graph

  /** A chunk object. Its `modules` array holds references to objects of the
      `modules` Set; a reference is the object's position in that Set, which
      only grows and receives each object once. So pushes made later onto a
      module's owners are visible through every chunk that refers to it. */
  datatype Chunk = Chunk(name: string, entryModule: Module, modules: seq<nat>)

  /** The chunk as the bundle generator sees it, references followed. */
  datatype ChunkView = ChunkView(name: string, entryModule: Module, modules: seq<Module>)

  /** `Array.from(modules).filter(m => m.name.includes(e))`, as positions: the
      modules owned by `e`, in Set order. */
  function OwnedBy(ms: seq<Module>, e: string): (r: seq<nat>)
    ensures forall i :: i in r <==> 0 <= i < |ms| && e in ms[i].name
    ensures forall a, b :: 0 <= a < b < |r| ==> r[a] < r[b]
    decreases |ms|
  {
    if ms == [] then []
    else
      var init := OwnedBy(ms[..|ms| - 1], e);
      assert forall a :: 0 <= a < |init| ==> init[a] in init;
      init + (if e in ms[|ms| - 1].name then [|ms| - 1] else [])
  }

  /** Every reference of every chunk points into a module set of size `n`. */
  predicate RefsValid(chunks: seq<Chunk>, n: nat)
  {
    forall j, k :: 0 <= j < |chunks| && 0 <= k < |chunks[j].modules| ==> chunks[j].modules[k] < n
  }

  /** The chunk with its references followed into `ms`. */
  function View(c: Chunk, ms: seq<Module>): ChunkView
    requires forall k :: 0 <= k < |c.modules| ==> c.modules[k] < |ms|
  {
    ChunkView(c.name, c.entryModule, seq(|c.modules|, k requires 0 <= k < |c.modules| => ms[c.modules[k]]))
  }

  /** Chunk membership is correct: each chunk's references are exactly the
      modules whose owners include the chunk's name. */
  predicate Consistent(chunks: seq<Chunk>, ms: seq<Module>)
  {
    forall j :: 0 <= j < |chunks| ==> chunks[j].modules == OwnedBy(ms, chunks[j].name)
  }

  lemma {:induction false} OwnedBySameMembership(a: seq<Module>, b: seq<Module>, e: string)
    requires |a| == |b|
    requires forall i :: 0 <= i < |a| ==> (e in a[i].name <==> e in b[i].name)
    ensures OwnedBy(a, e) == OwnedBy(b, e)
    decreases |a|
  {
    if a != [] {
      OwnedBySameMembership(a[..|a| - 1], b[..|b| - 1], e);
    }
  }

  lemma {:induction false} OwnedByIgnoresTail(a: seq<Module>, t: seq<Module>, e: string)
    requires forall i :: 0 <= i < |t| ==> e !in t[i].name
    ensures OwnedBy(a + t, e) == OwnedBy(a, e)
    decreases |t|
  {
    if t == [] {
      assert a + t == a;
    } else {
      var t' := t[..|t| - 1];
      assert (a + t)[..|a + t| - 1] == a + t';
      assert (a + t)[|a + t| - 1] == t[|t| - 1];
      OwnedByIgnoresTail(a, t', e);
    }
  }

  /** Building for entry `n` leaves the membership of every chunk named
      otherwise unchanged. */
  lemma OwnedByStable(ms: seq<Module>, ms': seq<Module>, n: string, e: string)
    requires Grows(ms, ms', n) && e != n
    ensures OwnedBy(ms', e) == OwnedBy(ms, e)
  {
    var head, tail := ms'[..|ms|], ms'[|ms|..];
    assert ms' == head + tail;
    forall i | 0 <= i < |tail| ensures e !in tail[i].name {
      assert OwnedOnlyBy(ms'[|ms| + i], n);
    }
    OwnedByIgnoresTail(head, tail, e);
    forall i | 0 <= i < |ms| ensures e in head[i].name <==> e in ms[i].name {
      var m, m' := ms[i], ms'[i];
      assert OwnersAppended(m, m', n);
      if e in m'.name {
        var k :| 0 <= k < |m'.name| && m'.name[k] == e;
        if k < |m.name| {
          assert m.name[k] == m'.name[..|m.name|][k];
        }
      }
      if e in m.name {
        var k :| 0 <= k < |m.name| && m.name[k] == e;
        assert m'.name[k] == m'.name[..|m.name|][k];
      }
    }
    OwnedBySameMembership(head, ms, e);
  }

  /** The compiler fields `buildEntryModule` changes. */
  datatype Progress = Progress(state: State, entries: seq<Module>, chunks: seq<Chunk>)

  /** What `buildEntryModule` returns or throws, and the fields as it leaves them. */
  datatype Compiled = Compiled(result: Result<()>, progress: Progress)

  /** For each entry in key order: build it, add it to `entries`, assemble its chunk. */
  function BuildEntries(env: Env, p: Progress, points: seq<EntryPoint>, fuel: nat): Compiled
    decreases |points|
  {
    if points == [] then Compiled(Ok(()), p)
    else
      var o := Build(env, p.state, points[0].name, points[0].path, fuel);
      match o.result
      case Err(e) => Compiled(Err(e), p.(state := o.state))
      case Ok(m) =>
        var chunk := Chunk(points[0].name, m, OwnedBy(o.state.modules, points[0].name));
        BuildEntries(env, Progress(o.state, p.entries + [m], p.chunks + [chunk]), points[1..], fuel)
  }

  /** Chunk membership stays correct for the whole run: assembling a chunk
      right after its entry is built, from the whole module set, gives every
      chunk exactly the modules owned by its entry, also at the end, because
      later entries push only their own names. Entry names are distinct, being
      the keys of one object. */
  lemma {:induction false} BuildEntriesConsistent(env: Env, p: Progress, points: seq<EntryPoint>, fuel: nat)
    requires UniqueNames(points)
    requires forall j, k :: 0 <= j < |p.chunks| && 0 <= k < |points| ==> p.chunks[j].name != points[k].name
    requires Consistent(p.chunks, p.state.modules)
    ensures Consistent(BuildEntries(env, p, points, fuel).progress.chunks,
                       BuildEntries(env, p, points, fuel).progress.state.modules)
    decreases |points|
  {
    if points != [] {
      var n := points[0].name;
      var o := Build(env, p.state, n, points[0].path, fuel);
      BuildGrows(env, p.state, n, points[0].path, fuel);
      forall j | 0 <= j < |p.chunks| ensures p.chunks[j].modules == OwnedBy(o.state.modules, p.chunks[j].name) {
        OwnedByStable(p.state.modules, o.state.modules, n, p.chunks[j].name);
      }
      match o.result
      case Err(e) =>
      case Ok(m) =>
        var chunk := Chunk(n, m, OwnedBy(o.state.modules, n));
        var p' := Progress(o.state, p.entries + [m], p.chunks + [chunk]);
        forall j, k | 0 <= j < |p'.chunks| && 0 <= k < |points[1..]| ensures p'.chunks[j].name != points[1..][k].name {
          assert points[1..][k] == points[k + 1];
        }
        BuildEntriesConsistent(env, p', points[1..], fuel);
    }
  }

  /** One chunk per entry, in key order, named after it, whose entry module is
      the module built for it and also added to `entries`. */
  lemma {:induction false} BuildEntriesChunks(env: Env, p: Progress, points: seq<EntryPoint>, fuel: nat)
    requires |p.entries| == |p.chunks|
    ensures var c := BuildEntries(env, p, points, fuel);
      c.result.Ok? ==>
        && |c.progress.chunks| == |p.chunks| + |points|
        && |c.progress.entries| == |p.entries| + |points|
        && c.progress.chunks[..|p.chunks|] == p.chunks
        && c.progress.entries[..|p.entries|] == p.entries
        && forall k :: 0 <= k < |points| ==>
             && c.progress.chunks[|p.chunks| + k].name == points[k].name
             && c.progress.chunks[|p.chunks| + k].entryModule == c.progress.entries[|p.entries| + k]
             && c.progress.entries[|p.entries| + k].name == [points[k].name]
    decreases |points|
  {
    if points != [] {
      var n := points[0].name;
      var o := Build(env, p.state, n, points[0].path, fuel);
      BuildReturns(env, p.state, n, points[0].path, fuel);
      match o.result
      case Err(e) =>
      case Ok(m) =>
        var chunk := Chunk(n, m, OwnedBy(o.state.modules, n));
        var p' := Progress(o.state, p.entries + [m], p.chunks + [chunk]);
        BuildEntriesChunks(env, p', points[1..], fuel);
        var c := BuildEntries(env, p', points[1..], fuel);
        if c.result.Ok? {
          assert c.progress.chunks[..|p.chunks|] == c.progress.chunks[..|p'.chunks|][..|p.chunks|];
          assert c.progress.entries[..|p.entries|] == c.progress.entries[..|p'.entries|][..|p.entries|];
          forall k | 0 <= k < |points|
            ensures c.progress.chunks[|p.chunks| + k].name == points[k].name
            ensures c.progress.chunks[|p.chunks| + k].entryModule == c.progress.entries[|p.entries| + k]
            ensures c.progress.entries[|p.entries| + k].name == [points[k].name]
          {
            if k == 0 {
              assert c.progress.chunks[|p.chunks|] == c.progress.chunks[..|p'.chunks|][|p.chunks|];
              assert c.progress.entries[|p.entries|] == c.progress.entries[..|p'.entries|][|p.entries|];
            } else {
              assert points[1..][k - 1] == points[k];
            }
          }
        }
    }
  }

  /** Chunk membership at the end of a run on a fresh compiler: a module is in
      a chunk exactly when the chunk's name is among its owners. */
  lemma RunChunkMembership(env: Env, points: seq<EntryPoint>, fuel: nat)
    requires UniqueNames(points)
    ensures var c := BuildEntries(env, Progress(State([], "", ""), [], []), points, fuel);
      forall j, i :: 0 <= j < |c.progress.chunks| ==>
        (i in c.progress.chunks[j].modules <==>
           0 <= i < |c.progress.state.modules| && c.progress.chunks[j].name in c.progress.state.modules[i].name)
  {
    BuildEntriesConsistent(env, Progress(State([], "", ""), [], []), points, fuel);
  }
}

/** Ownership across a whole run: entries only ever grow their modules' owner lists. */
module Ownership {
  import opened Base
  import opened Entries
  import opened Graph
  import opened Chunks

  /** Every module of `ms1` is still in `ms2`, at the same position, with the
      same id, dependencies and source, and its owners extended at the end. */
  predicate Monotone(ms1: seq<Module>, ms2: seq<Module>)
  {
    && |ms1| <= |ms2|
    && forall i :: 0 <= i < |ms1| ==>
         && ms2[i].id == ms1[i].id && ms2[i].dependencies == ms1[i].dependencies
         && ms2[i].source == ms1[i].source && ms1[i].name <= ms2[i].name
  }

  lemma GrowsMonotone(ms1: seq<Module>, ms2: seq<Module>, n: string)
    requires Grows(ms1, ms2, n)
    ensures Monotone(ms1, ms2)
  {
    forall i | 0 <= i < |ms1| ensures ms1[i].name <= ms2[i].name {
      assert OwnersAppended(ms1[i], ms2[i], n);
    }
  }

  /** Monotonic ownership for a run: no module leaves the set and no owner
      leaves a module's list, whichever entries are built and whether or not
      the run throws. */
  lemma {:induction false} BuildEntriesMonotone(env: Env, p: Progress, points: seq<EntryPoint>, fuel: nat)
    ensures Monotone(p.state.modules, BuildEntries(env, p, points, fuel).progress.state.modules)
    decreases |points|
  {
    var ms := p.state.modules;
    if points == [] {
      GrowsRefl(ms, "");
      GrowsMonotone(ms, ms, "");
    } else {
      var n := points[0].name;
      var o := Build(env, p.state, n, points[0].path, fuel);
      BuildGrows(env, p.state, n, points[0].path, fuel);
      GrowsMonotone(ms, o.state.modules, n);
      match o.result
      case Err(e) =>
      case Ok(m) =>
        var chunk := Chunk(n, m, OwnedBy(o.state.modules, n));
        var p' := Progress(o.state, p.entries + [m], p.chunks + [chunk]);
        BuildEntriesMonotone(env, p', points[1..], fuel);
        var ms3 := BuildEntries(env, p', points[1..], fuel).progress.state.modules;
        forall i | 0 <= i < |ms| ensures ms[i].name <= ms3[i].name {
          assert ms[i].name <= o.state.modules[i].name <= ms3[i].name;
        }
    }
  }
}
