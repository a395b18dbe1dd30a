/** Asset naming and the asset table of `exportFile` (core/compiler.js:224-248). */
module Assets {
  import opened Base
  import opened Entries
  import opened Graph
  import opened Chunks

  /** `pat` occurs in `s` starting at index `j`. */
  predicate OccursAt(s: string, pat: string, j: nat)
  {
    j + |pat| <= |s| && s[j..j + |pat|] == pat
  }

  /** `s.indexOf(pat, from)`: the first index at or after `from` where `pat` occurs. */
  function IndexFrom(s: string, pat: string, from: nat): (r: Option<nat>)
    requires from <= |s|
    ensures r.Some? ==> from <= r.value && OccursAt(s, pat, r.value)
    ensures r.Some? ==> forall j :: from <= j < r.value ==> !OccursAt(s, pat, j)
    ensures r.None? ==> forall j :: from <= j <= |s| ==> !OccursAt(s, pat, j)
    decreases |s| - from
  {
    if OccursAt(s, pat, from) then Some(from)
    else if from == |s| then None
    else IndexFrom(s, pat, from + 1)
  }

  /** The replacement text of `String.prototype.replace` with a string
      pattern: `$$`, `$&`, `` $` `` and `$'` are expanded; any other `$` stands
      for itself. */
  function Expand(rep: string, matched: string, before: string, after: string): string
    decreases |rep|
  {
    if rep == [] then []
    else if rep[0] == '$' && |rep| >= 2 && rep[1] == '$' then "$" + Expand(rep[2..], matched, before, after)
    else if rep[0] == '$' && |rep| >= 2 && rep[1] == '&' then matched + Expand(rep[2..], matched, before, after)
    else if rep[0] == '$' && |rep| >= 2 && rep[1] == '`' then before + Expand(rep[2..], matched, before, after)
    else if rep[0] == '$' && |rep| >= 2 && rep[1] == '\'' then after + Expand(rep[2..], matched, before, after)
    else [rep[0]] + Expand(rep[1..], matched, before, after)
  }

  /** `s.replace(pat, rep)`: only the first occurrence is replaced. */
  function Replace(s: string, pat: string, rep: string): string
  {
    match IndexFrom(s, pat, 0)
    case None => s
    case Some(i) => s[..i] + Expand(rep, pat, s[..i], s[i + |pat|..]) + s[i + |pat|..]
  }

  /** `output.filename.replace('[name]', chunk.name)`. */
  function AssetName(template: string, chunkName: string): string
  {
    Replace(template, "[name]", chunkName)
  }

  /** A replacement without `$` is inserted literally. */
  lemma {:induction false} ExpandPlain(rep: string, matched: string, before: string, after: string)
    requires '$' !in rep
    ensures Expand(rep, matched, before, after) == rep
    decreases |rep|
  {
    if rep != [] {
      assert rep[1..] + [] == rep[1..];
      ExpandPlain(rep[1..], matched, before, after);
      assert rep == [rep[0]] + rep[1..];
    }
  }

  /** Asset naming: for a chunk name without `$`, the first `[name]` of the
      template is replaced by the chunk name and the rest is kept; a template
      without `[name]` is used as it is. */
  lemma AssetNameSubstitutes(template: string, chunkName: string)
    requires '$' !in chunkName
    ensures var i := IndexFrom(template, "[name]", 0);
      && (i.None? ==> AssetName(template, chunkName) == template)
      && (i.Some? ==> AssetName(template, chunkName) == template[..i.value] + chunkName + template[i.value + 6..]
                      && forall j :: 0 <= j < i.value ==> !OccursAt(template, "[name]", j))
  {
    var i := IndexFrom(template, "[name]", 0);
    if i.Some? {
      ExpandPlain(chunkName, "[name]", template[..i.value], template[i.value + 6..]);
    }
  }

  /** The `assets` object. */
  type AssetTable = Obj<string>

  /** The `chunks.forEach` of `exportFile`: each chunk's bundle text, produced
      by `render` from the chunk with its references followed, assigned to
      the chunk's asset name (an asset named `__proto__` is not stored). */
  function Emit(t: AssetTable, chunks: seq<Chunk>, ms: seq<Module>, template: string,
                render: ChunkView -> string): AssetTable
    requires RefsValid(chunks, |ms|)
    decreases |chunks|
  {
    if chunks == [] then t
    else
      RefsValidTail(chunks, |ms|);
      Emit(AssignString(t, AssetName(template, chunks[0].name), render(View(chunks[0], ms))),
           chunks[1..], ms, template, render)
  }

  /** The asset table stays well formed, so `files`, taken from its keys,
      lists each asset once; the old keys keep their order at the front. */
  lemma {:induction false} EmitValid(t: AssetTable, chunks: seq<Chunk>, ms: seq<Module>, template: string,
                                     render: ChunkView -> string)
    requires RefsValid(chunks, |ms|) && ObjValid(t)
    ensures ObjValid(Emit(t, chunks, ms, template, render))
    ensures t.order <= Emit(t, chunks, ms, template, render).order
    decreases |chunks|
  {
    if chunks != [] {
      var file := AssetName(template, chunks[0].name);
      RefsValidTail(chunks, |ms|);
      var t' := AssignString(t, file, render(View(chunks[0], ms)));
      AssignStringValid(t, file, render(View(chunks[0], ms)));
      EmitValid(t', chunks[1..], ms, template, render);
    }
  }

  /** The keys of the asset table are the old keys plus one asset name per
      chunk, except `__proto__`. */
  lemma {:induction false} EmitKeys(t: AssetTable, chunks: seq<Chunk>, ms: seq<Module>, template: string,
                                    render: ChunkView -> string)
    requires RefsValid(chunks, |ms|)
    ensures Emit(t, chunks, ms, template, render).content.Keys
      == t.content.Keys + ((set j | 0 <= j < |chunks| :: AssetName(template, chunks[j].name)) - {ProtoKey})
    decreases |chunks|
  {
    if chunks != [] {
      var file := AssetName(template, chunks[0].name);
      RefsValidTail(chunks, |ms|);
      var t' := AssignString(t, file, render(View(chunks[0], ms)));
      assert t'.content.Keys == t.content.Keys + ({file} - {ProtoKey});
      EmitKeys(t', chunks[1..], ms, template, render);
      NamesSplit(chunks, template);
    }
  }

  /** The asset names of a list of chunks: the head's and the tail's. */
  lemma NamesSplit(chunks: seq<Chunk>, template: string)
    requires chunks != []
    ensures (set j | 0 <= j < |chunks| :: AssetName(template, chunks[j].name))
      == {AssetName(template, chunks[0].name)} + (set j | 0 <= j < |chunks[1..]| :: AssetName(template, chunks[1..][j].name))
  {
    var names := set j | 0 <= j < |chunks| :: AssetName(template, chunks[j].name);
    var names' := set j | 0 <= j < |chunks[1..]| :: AssetName(template, chunks[1..][j].name);
    forall x | x in names ensures x in {AssetName(template, chunks[0].name)} + names' {
      var j :| 0 <= j < |chunks| && x == AssetName(template, chunks[j].name);
      if j > 0 {
        assert chunks[1..][j - 1] == chunks[j];
      }
    }
    forall x | x in names' ensures x in names {
      var j :| 0 <= j < |chunks[1..]| && x == AssetName(template, chunks[1..][j].name);
      assert chunks[1..][j] == chunks[j + 1];
    }
  }

  /** One step of the `forEach`: the first chunk's asset is assigned, then
      the rest are emitted. */
  lemma EmitStep(t: AssetTable, chunks: seq<Chunk>, ms: seq<Module>, template: string,
                 render: ChunkView -> string)
    requires RefsValid(chunks, |ms|) && chunks != []
    ensures RefsValid(chunks[1..], |ms|)
    ensures forall k :: 0 <= k < |chunks[0].modules| ==> chunks[0].modules[k] < |ms|
    ensures Emit(t, chunks, ms, template, render)
      == Emit(AssignString(t, AssetName(template, chunks[0].name), render(View(chunks[0], ms))), chunks[1..], ms, template, render)
  {
    RefsValidTail(chunks, |ms|);
  }

  /** The step at index `j` of the `forEach`, in terms of the remaining chunks. */
  lemma EmitStepAt(t: AssetTable, chunks: seq<Chunk>, ms: seq<Module>, template: string,
                   render: ChunkView -> string, j: nat)
    requires j < |chunks| && RefsValid(chunks[j..], |ms|)
    ensures RefsValid(chunks[j + 1..], |ms|)
    ensures forall k :: 0 <= k < |chunks[j].modules| ==> chunks[j].modules[k] < |ms|
    ensures Emit(t, chunks[j..], ms, template, render)
      == Emit(AssignString(t, AssetName(template, chunks[j].name), render(View(chunks[j], ms))), chunks[j + 1..], ms, template, render)
  {
    var rest := chunks[j..];
    assert rest[0] == chunks[j] && rest[1..] == chunks[j + 1..];
    EmitStep(t, rest, ms, template, render);
  }

  /** References valid for a smaller module set stay valid for a larger one. */
  lemma RefsValidWiden(chunks: seq<Chunk>, n: nat, m: nat)
    requires RefsValid(chunks, n) && n <= m
    ensures RefsValid(chunks, m)
  {
  }

  /** References valid for a list of chunks are valid for its tail and its head. */
  lemma RefsValidTail(chunks: seq<Chunk>, n: nat)
    requires RefsValid(chunks, n) && chunks != []
    ensures RefsValid(chunks[1..], n)
    ensures forall k :: 0 <= k < |chunks[0].modules| ==> chunks[0].modules[k] < n
  {
    forall j, k | 0 <= j < |chunks[1..]| && 0 <= k < |chunks[1..][j].modules|
      ensures chunks[1..][j].modules[k] < n
    {
      assert chunks[1..][j] == chunks[j + 1];
    }
  }

  /** A key that no chunk's asset name hits keeps its value. */
  lemma {:induction false} EmitUntouched(t: AssetTable, chunks: seq<Chunk>, ms: seq<Module>, template: string,
                                         render: ChunkView -> string, key: string)
    requires RefsValid(chunks, |ms|)
    requires forall j :: 0 <= j < |chunks| ==> AssetName(template, chunks[j].name) != key
    ensures var r := Emit(t, chunks, ms, template, render);
      (key in t.content <==> key in r.content) && (key in t.content ==> r.content[key] == t.content[key])
    decreases |chunks|
  {
    if chunks != [] {
      RefsValidTail(chunks, |ms|);
      var t' := AssignString(t, AssetName(template, chunks[0].name), render(View(chunks[0], ms)));
      forall j | 0 <= j < |chunks[1..]| ensures AssetName(template, chunks[1..][j].name) != key {
        assert chunks[1..][j] == chunks[j + 1];
      }
      EmitUntouched(t', chunks[1..], ms, template, render, key);
    }
  }

  /** A later chunk with the same asset name overwrites an earlier one: the
      text stored under a chunk's asset name is that chunk's, when no later
      chunk has the same asset name and the name is not `__proto__`. */
  lemma {:induction false} EmitLastWins(t: AssetTable, chunks: seq<Chunk>, ms: seq<Module>, template: string,
                                        render: ChunkView -> string, j: nat)
    requires RefsValid(chunks, |ms|) && j < |chunks|
    requires forall j' :: j < j' < |chunks| ==>
      AssetName(template, chunks[j'].name) != AssetName(template, chunks[j].name)
    ensures forall k :: 0 <= k < |chunks[j].modules| ==> chunks[j].modules[k] < |ms|
    ensures var r := Emit(t, chunks, ms, template, render);
      var file := AssetName(template, chunks[j].name);
      file != ProtoKey ==> file in r.content && r.content[file] == render(View(chunks[j], ms))
    decreases |chunks|
  {
    assert forall k :: 0 <= k < |chunks[j].modules| ==> chunks[j].modules[k] < |ms|;
    RefsValidTail(chunks, |ms|);
    var t' := AssignString(t, AssetName(template, chunks[0].name), render(View(chunks[0], ms)));
    if j == 0 {
      var file := AssetName(template, chunks[0].name);
      forall j' | 0 <= j' < |chunks[1..]| ensures AssetName(template, chunks[1..][j'].name) != file {
        assert chunks[1..][j'] == chunks[j' + 1];
      }
      EmitUntouched(t', chunks[1..], ms, template, render, file);
    } else {
      assert chunks[1..][j - 1] == chunks[j];
      forall j' | j - 1 < j' < |chunks[1..]|
        ensures AssetName(template, chunks[1..][j'].name) != AssetName(template, chunks[1..][j - 1].name)
      {
        assert chunks[1..][j'] == chunks[j' + 1];
      }
      EmitLastWins(t', chunks[1..], ms, template, render, j - 1);
    }
  }

  /** The `writeFileSync` loop: each asset's text, under `path.join(output.path, key)`. */
  function WriteAll(disk: map<string, string>, keys: seq<string>, content: map<string, string>,
                    outputPath: string, paths: PathOps): map<string, string>
    requires forall k :: 0 <= k < |keys| ==> keys[k] in content
    decreases |keys|
  {
    if keys == [] then disk
    else WriteAll(disk[paths.join(outputPath, keys[0]) := content[keys[0]]], keys[1..], content, outputPath, paths)
  }

  /** An asset named `__proto__` is never stored: whether the table has that
      key, and its value, are as before. */
  lemma {:induction false} EmitKeepsProto(t: AssetTable, chunks: seq<Chunk>, ms: seq<Module>, template: string,
                                          render: ChunkView -> string)
    requires RefsValid(chunks, |ms|)
    ensures var r := Emit(t, chunks, ms, template, render);
      (ProtoKey in t.content <==> ProtoKey in r.content)
      && (ProtoKey in t.content ==> r.content[ProtoKey] == t.content[ProtoKey])
    decreases |chunks|
  {
    if chunks != [] {
      RefsValidTail(chunks, |ms|);
      var t' := AssignString(t, AssetName(template, chunks[0].name), render(View(chunks[0], ms)));
      EmitKeepsProto(t', chunks[1..], ms, template, render);
    }
  }
}
