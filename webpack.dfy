/** The option merge and plugin loading of core/webpack.js: command-line
    arguments of the form `key=value` override the configuration object, and
    plugins are applied in array order. `process.argv` is a parameter. */
module Webpack {
  import opened Base

  // ---------------------------------------------------------------------
  // String.prototype.split with a one-character separator

  /** `s.split(sep)`: the pieces between occurrences of `sep`, at least one. */
  function Split(s: string, sep: char): (parts: seq<string>)
    ensures |parts| >= 1
    ensures forall k :: 0 <= k < |parts| ==> sep !in parts[k]
    decreases |s|
  {
    if s == [] then [""]
    else if s[0] == sep then [""] + Split(s[1..], sep)
    else
      var rest := Split(s[1..], sep);
      assert forall k :: 1 <= k < |rest| ==> rest[1..][k - 1] == rest[k];
      [[s[0]] + rest[0]] + rest[1..]
  }

  /** `parts.join(sep)`. */
  function Join(parts: seq<string>, sep: char): string
    requires |parts| >= 1
    decreases |parts|
  {
    if |parts| == 1 then parts[0] else parts[0] + [sep] + Join(parts[1..], sep)
  }

  /** Splitting loses nothing: joining the pieces gives the string back. */
  lemma {:induction false} JoinSplit(s: string, sep: char)
    ensures Join(Split(s, sep), sep) == s
    decreases |s|
  {
    if s != [] {
      JoinSplit(s[1..], sep);
      var rest := Split(s[1..], sep);
      if s[0] == sep {
        assert ([""] + rest)[1..] == rest;
      } else {
        var parts := [[s[0]] + rest[0]] + rest[1..];
        assert parts[1..] == rest[1..];
        if |rest| > 1 {
          assert Join(rest, sep) == rest[0] + [sep] + Join(rest[1..], sep);
        }
      }
    }
  }

  /** Splitting a join of pieces without the separator gives the pieces back. */
  lemma {:induction false} SplitJoin(parts: seq<string>, sep: char)
    requires |parts| >= 1 && forall k :: 0 <= k < |parts| ==> sep !in parts[k]
    ensures Split(Join(parts, sep), sep) == parts
    decreases |parts|, |parts[0]|
  {
    if |parts| == 1 {
      SplitPlain(parts[0], sep);
    } else {
      var tail := parts[1..];
      SplitJoin(tail, sep);
      SplitPrefix(parts[0], Join(tail, sep), sep);
      assert [parts[0]] + tail == parts;
    }
  }

  /** A string without the separator is a single piece. */
  lemma {:induction false} SplitPlain(s: string, sep: char)
    requires sep !in s
    ensures Split(s, sep) == [s]
    decreases |s|
  {
    if s != [] {
      SplitPlain(s[1..], sep);
      assert [s[0]] + s[1..] == s;
    }
  }

  /** A separator-free head followed by the separator becomes the first
      piece, and the rest is split on its own. */
  lemma {:induction false} SplitPrefix(head: string, rest: string, sep: char)
    requires sep !in head
    ensures Split(head + [sep] + rest, sep) == [head] + Split(rest, sep)
    decreases |head|
  {
    if head == [] {
      assert head + [sep] + rest == [sep] + rest;
      assert ([sep] + rest)[1..] == rest;
    } else {
      var s := head + [sep] + rest;
      assert s[0] == head[0];
      assert s[1..] == head[1..] + [sep] + rest;
      SplitPrefix(head[1..], rest, sep);
      assert [head[0]] + head[1..] == head;
    }
  }

  // ---------------------------------------------------------------------
  // The command-line options

  /** The key and value an argument contributes: the first two pieces of
      `arg.split('=')`, when both are non-empty (a missing value is undefined). */
  function ParseArg(arg: string): Option<(string, string)>
  {
    var parts := Split(arg, '=');
    if parts[0] != "" && |parts| >= 2 && parts[1] != "" then Some((parts[0], parts[1])) else None
  }

  /** `option[key] = value` on the plain object the `reduce` starts from. */
  function ApplyArg(option: Obj<string>, arg: string): Obj<string>
  {
    match ParseArg(arg)
    case None => option
    case Some(kv) => AssignString(option, kv.0, kv.1)
  }

  /** The `reduce` over the arguments. */
  function Fold(option: Obj<string>, args: seq<string>): Obj<string>
    decreases |args|
  {
    if args == [] then option else Fold(ApplyArg(option, args[0]), args[1..])
  }

  /** `process.argv.slice(2)`. */
  function UserArgs(argv: seq<string>): seq<string>
  {
    if |argv| <= 2 then [] else argv[2..]
  }

  /** The `shellOptions` object built from `argv`. */
  function ShellOptions(argv: seq<string>): Obj<string>
  {
    Fold(Obj([], map[]), UserArgs(argv))
  }

  /** `{...a, ...b}`: the keys of `a`, then the new keys of `b`, each with the
      value it has in the last object that has it. */
  function SpreadKeys<V>(acc: Obj<V>, keys: seq<string>, src: map<string, V>): Obj<V>
    requires forall k :: 0 <= k < |keys| ==> keys[k] in src
    decreases |keys|
  {
    if keys == [] then acc else SpreadKeys(Put(acc, keys[0], src[keys[0]]), keys[1..], src)
  }

  /** The value of a command-line string as an option value. */
  function Lift<V>(shell: Obj<string>, lift: string -> V): Obj<V>
  {
    Obj(shell.order, map k | k in shell.content :: lift(shell.content[k]))
  }

  /** `{...options, ...shellOptions}`. */
  function Merge<V>(config: Obj<V>, shell: Obj<V>): Obj<V>
    requires ObjValid(config) && ObjValid(shell)
  {
    SpreadKeys(SpreadKeys(Obj([], map[]), config.order, config.content), shell.order, shell.content)
  }

  /** The `reduce` of `_mergeOptions`, mutating its accumulator. */
  method ParseShellOptions(argv: seq<string>) returns (option: Obj<string>)
    ensures option == ShellOptions(argv)
  {
    var args := UserArgs(argv);
    option := Obj([], map[]);
    var i := 0;
    while i < |args|
      invariant 0 <= i <= |args|
      invariant Fold(option, args[i..]) == ShellOptions(argv)
    {
      assert args[i..][1..] == args[i + 1..];
      var parts := Split(args[i], '=');
      if parts[0] != "" && |parts| >= 2 && parts[1] != "" {
        option := AssignString(option, parts[0], parts[1]);
      }
      i := i + 1;
    }
    assert args[|args|..] == [];
  }

  /** `_mergeOptions(options)`: command-line options over the configuration;
      `lift` gives a command-line string its option value. */
  method MergeOptions<V>(config: Obj<V>, argv: seq<string>, lift: string -> V) returns (merged: Obj<V>)
    requires ObjValid(config)
    ensures ObjValid(Lift(ShellOptions(argv), lift))
    ensures merged == Merge(config, Lift(ShellOptions(argv), lift))
  {
    var shell := ParseShellOptions(argv);
    FoldValid(Obj([], map[]), UserArgs(argv));
    LiftValid(shell, lift);
    merged := Merge(config, Lift(shell, lift));
  }

  // ---------------------------------------------------------------------
  // Properties of the command-line options

  /** The folded object stays well formed. */
  lemma {:induction false} FoldValid(option: Obj<string>, args: seq<string>)
    requires ObjValid(option)
    ensures ObjValid(Fold(option, args))
    decreases |args|
  {
    if args != [] {
      var kv := ParseArg(args[0]);
      if kv.Some? {
        AssignStringValid(option, kv.value.0, kv.value.1);
      }
      FoldValid(ApplyArg(option, args[0]), args[1..]);
    }
  }

  /** The program name and script path never become options. */
  lemma SkipsFirstTwo(a: string, b: string, c: string, d: string, rest: seq<string>)
    ensures ShellOptions([a, b] + rest) == ShellOptions([c, d] + rest)
    ensures ShellOptions([a, b]) == Obj([], map[])
  {
    assert ([a, b] + rest)[2..] == rest;
    assert ([c, d] + rest)[2..] == rest;
  }

  /** An argument counts exactly when a non-empty key is followed by `=` and
      a non-empty value; the value stops at the next `=`, and the pieces after
      a second `=` are dropped. */
  lemma ParseArgPieces(parts: seq<string>)
    requires |parts| >= 2 && forall k :: 0 <= k < |parts| ==> '=' !in parts[k]
    ensures ParseArg(Join(parts, '=')) == if parts[0] != "" && parts[1] != "" then Some((parts[0], parts[1])) else None
  {
    SplitJoin(parts, '=');
    ParseArgOfParts(Join(parts, '='), parts);
  }

  /** What `ParseArg` makes of an argument, read off its pieces. */
  lemma ParseArgOfParts(arg: string, parts: seq<string>)
    requires Split(arg, '=') == parts
    ensures ParseArg(arg) == if parts[0] != "" && |parts| >= 2 && parts[1] != "" then Some((parts[0], parts[1])) else None
  {
  }

  /** An argument without `=` never counts. */
  lemma ParseArgNeedsEquals(arg: string)
    requires '=' !in arg
    ensures ParseArg(arg) == None
  {
    SplitPlain(arg, '=');
  }

  /** Which keys the command line sets: the keys of the counted arguments,
      except `__proto__`. */
  lemma {:induction false} FoldKeys(option: Obj<string>, args: seq<string>, key: string)
    ensures key in Fold(option, args).content <==>
      key in option.content ||
      (key != "__proto__" && exists j :: 0 <= j < |args| && ParseArg(args[j]).Some? && ParseArg(args[j]).value.0 == key)
    decreases |args|
  {
    if args != [] {
      FoldKeys(ApplyArg(option, args[0]), args[1..], key);
      assert forall j :: 1 <= j < |args| ==> args[1..][j - 1] == args[j];
      if key != "__proto__" && (exists j :: 0 <= j < |args| && ParseArg(args[j]).Some? && ParseArg(args[j]).value.0 == key) {
        var j :| 0 <= j < |args| && ParseArg(args[j]).Some? && ParseArg(args[j]).value.0 == key;
        if j > 0 {
          assert ParseArg(args[1..][j - 1]).Some? && ParseArg(args[1..][j - 1]).value.0 == key;
        }
      }
    }
  }

  /** A key given more than once takes the value of its last occurrence. */
  lemma {:induction false} FoldLastWins(option: Obj<string>, args: seq<string>, j: nat, key: string, value: string)
    requires j < |args| && ParseArg(args[j]) == Some((key, value)) && key != "__proto__"
    requires forall j' :: j < j' < |args| ==> ParseArg(args[j']).None? || ParseArg(args[j']).value.0 != key
    ensures key in Fold(option, args).content && Fold(option, args).content[key] == value
    decreases |args|
  {
    var next := ApplyArg(option, args[0]);
    forall j' | j - 1 < j' < |args[1..]| && j > 0
      ensures ParseArg(args[1..][j']).None? || ParseArg(args[1..][j']).value.0 != key
    {
      assert args[1..][j'] == args[j' + 1];
    }
    if j == 0 {
      FoldUntouched(next, args[1..], key);
    } else {
      assert args[1..][j - 1] == args[j];
      FoldLastWins(next, args[1..], j - 1, key, value);
    }
  }

  /** Arguments that do not set a key leave it as it is. */
  lemma {:induction false} FoldUntouched(option: Obj<string>, args: seq<string>, key: string)
    requires forall j :: 0 <= j < |args| ==> ParseArg(args[j]).None? || ParseArg(args[j]).value.0 != key
    ensures (key in Fold(option, args).content <==> key in option.content)
    ensures key in option.content ==> Fold(option, args).content[key] == option.content[key]
    decreases |args|
  {
    if args != [] {
      forall j | 0 <= j < |args[1..]| ensures ParseArg(args[1..][j]).None? || ParseArg(args[1..][j]).value.0 != key {
        assert args[1..][j] == args[j + 1];
      }
      FoldUntouched(ApplyArg(option, args[0]), args[1..], key);
    }
  }

  // ---------------------------------------------------------------------
  // Properties of the merge

  /** Spreading keeps the object well formed, keeps the old keys in front and
      gives each spread key the source's value. */
  lemma {:induction false} SpreadKeysContent<V>(acc: Obj<V>, keys: seq<string>, src: map<string, V>, key: string)
    requires forall k :: 0 <= k < |keys| ==> keys[k] in src
    requires ObjValid(acc)
    ensures ObjValid(SpreadKeys(acc, keys, src)) && acc.order <= SpreadKeys(acc, keys, src).order
    ensures key in SpreadKeys(acc, keys, src).content <==> key in acc.content || key in keys
    ensures key in keys ==> SpreadKeys(acc, keys, src).content[key] == src[key]
    ensures key !in keys && key in acc.content ==> SpreadKeys(acc, keys, src).content[key] == acc.content[key]
    decreases |keys|
  {
    if keys != [] {
      PutValid(acc, keys[0], src[keys[0]]);
      SpreadKeysContent(Put(acc, keys[0], src[keys[0]]), keys[1..], src, key);
      assert key in keys <==> key == keys[0] || key in keys[1..];
    }
  }

  /** Spreading distinct keys that are new appends them in their order. */
  lemma {:induction false} SpreadOrder<V>(acc: Obj<V>, keys: seq<string>, src: map<string, V>)
    requires forall k :: 0 <= k < |keys| ==> keys[k] in src
    requires Distinct(keys) && forall k :: 0 <= k < |keys| ==> keys[k] !in acc.content
    ensures SpreadKeys(acc, keys, src).order == acc.order + keys
    decreases |keys|
  {
    if keys == [] {
      assert acc.order + keys == acc.order;
    } else {
      var next := Put(acc, keys[0], src[keys[0]]);
      forall k | 0 <= k < |keys[1..]| ensures keys[1..][k] !in next.content {
        assert keys[1..][k] == keys[k + 1];
      }
      SpreadOrder(next, keys[1..], src);
      assert acc.order + [keys[0]] + keys[1..] == acc.order + keys;
    }
  }

  /** Merge precedence: every configuration key is kept, a key also given on
      the command line takes the command-line value, command-line-only keys
      are added, and the configuration's keys keep their order in front. */
  lemma MergePrecedence<V>(config: Obj<V>, shell: Obj<V>, key: string)
    requires ObjValid(config) && ObjValid(shell)
    ensures var m := Merge(config, shell);
      && ObjValid(m)
      && config.order <= m.order
      && (key in m.content <==> key in config.content || key in shell.content)
      && (key in shell.content ==> m.content[key] == shell.content[key])
      && (key !in shell.content && key in config.content ==> m.content[key] == config.content[key])
  {
    var empty: Obj<V> := Obj([], map[]);
    SpreadOrder(empty, config.order, config.content);
    SpreadKeysContent(empty, config.order, config.content, key);
    var first := SpreadKeys(empty, config.order, config.content);
    SpreadKeysContent(first, shell.order, shell.content, key);
  }

  /** The command-line strings keep their keys and order when lifted. */
  lemma LiftValid<V>(shell: Obj<string>, lift: string -> V)
    requires ObjValid(shell)
    ensures ObjValid(Lift(shell, lift))
    ensures forall k :: k in shell.content ==> Lift(shell, lift).content[k] == lift(shell.content[k])
  {
  }

  // ---------------------------------------------------------------------
  // Plugins

  /** `options.plugins`: missing or falsy, some other non-array value, or an array. */
  datatype PluginList<P> = Absent | NotAnArray | Array(items: seq<P>)

  /** `_loadPlugin(plugins, compiler)`: the plugins whose `apply` is called,
      in call order. */
  method LoadPlugins<P>(plugins: PluginList<P>) returns (applied: seq<P>)
    ensures plugins.Array? ==> applied == plugins.items
    ensures !plugins.Array? ==> applied == []
  {
    applied := [];
    if plugins.Array? {
      var i := 0;
      while i < |plugins.items|
        invariant 0 <= i <= |plugins.items|
        invariant applied == plugins.items[..i]
      {
        applied := applied + [plugins.items[i]];
        i := i + 1;
      }
    }
  }
}
