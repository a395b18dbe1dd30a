/** The loader chain of `handleLoder` (core/compiler.js:112-137): rules are
    matched against the module path in rule order, the loaders they name are
    collected, and the collected loaders then run from last to first, each one
    consuming the text the previous one produced. */
module Loaders {
  import opened Base

  /** A loader is a text-to-text transform; the original loads it by path. */
  type Loader = string -> string

  /** One entry of `module.rules`. `test` stands for the rule's regular
      expression; `loader` is Some when the rule has a truthy `loader` field;
      `use` is None when the rule has no `use` list. */
  datatype Rule = Rule(test: string -> bool, loader: Option<Loader>, use: Option<seq<Loader>>)

  /** What one matching rule adds to the collected list: its single `loader`,
      otherwise its `use` list in order. Spreading a missing `use` throws. */
  function Contribution(rule: Rule, path: string): Result<seq<Loader>>
  {
    if rule.loader.Some? then Ok([rule.loader.value])
    else if rule.use.Some? then Ok(rule.use.value)
    else Err(RuleWithoutLoader(path))
  }

  /** The loaders collected by the `forEach` over `rules` for the given path. */
  function MatchLoaders(rules: seq<Rule>, path: string): Result<seq<Loader>>
    decreases |rules|
  {
    if rules == [] then Ok([])
    else
      var before := MatchLoaders(rules[..|rules| - 1], path);
      var last := rules[|rules| - 1];
      if before.Err? || !last.test(path) then before
      else match Contribution(last, path)
        case Err(e) => Err(e)
        case Ok(ls) => Ok(before.value + ls)
  }

  /** Running `loaders` right to left: the last loader sees the source first
      and the first loader produces the final text. */
  function Chain(loaders: seq<Loader>, code: string): string
    decreases |loaders|
  {
    if loaders == [] then code else loaders[0](Chain(loaders[1..], code))
  }

  /** The text `handleLoder` leaves in `moduleCode`, or the error it throws. */
  function Transform(rules: seq<Rule>, path: string, code: string): Result<string>
  {
    match MatchLoaders(rules, path)
    case Err(e) => Err(e)
    case Ok(ls) => Ok(Chain(ls, code))
  }

  /** Collecting over two runs of rules concatenates what each run collects;
      an error in the first run is the error of the whole. */
  lemma {:induction false} MatchLoadersConcat(a: seq<Rule>, b: seq<Rule>, path: string)
    ensures MatchLoaders(a + b, path) ==
      match MatchLoaders(a, path)
      case Err(e) => Err(e)
      case Ok(la) =>
        match MatchLoaders(b, path)
        case Err(e) => Err(e)
        case Ok(lb) => Ok(la + lb)
    decreases |b|
  {
    if b == [] {
      assert a + b == a;
      if MatchLoaders(a, path).Ok? {
        assert MatchLoaders(a, path).value + [] == MatchLoaders(a, path).value;
      }
    } else {
      var b' := b[..|b| - 1];
      assert (a + b)[..|a + b| - 1] == a + b';
      assert (a + b)[|a + b| - 1] == b[|b| - 1];
      MatchLoadersConcat(a, b', path);
      match MatchLoaders(a, path)
      case Err(e) =>
      case Ok(la) =>
        match MatchLoaders(b', path)
        case Err(e) =>
        case Ok(lb) =>
          var last := b[|b| - 1];
          if last.test(path) && Contribution(last, path).Ok? {
            assert la + lb + Contribution(last, path).value == la + (lb + Contribution(last, path).value);
          }
    }
  }

  /** Once collecting a prefix of the rules has failed, the whole collection
      fails with that same error. */
  lemma {:induction false} MatchLoadersErrPrefix(rules: seq<Rule>, i: nat, path: string)
    requires i <= |rules|
    requires MatchLoaders(rules[..i], path).Err?
    ensures MatchLoaders(rules, path) == MatchLoaders(rules[..i], path)
  {
    MatchLoadersConcat(rules[..i], rules[i..], path);
    assert rules[..i] + rules[i..] == rules;
  }

  /** A path that no rule matches collects no loaders. */
  lemma {:induction false} NoMatchNoLoaders(rules: seq<Rule>, path: string)
    requires forall k :: 0 <= k < |rules| ==> !rules[k].test(path)
    ensures MatchLoaders(rules, path) == Ok([])
    decreases |rules|
  {
    if rules != [] {
      NoMatchNoLoaders(rules[..|rules| - 1], path);
    }
  }

  /** When no rule matches, `moduleCode` keeps the original source. */
  lemma NoMatchKeepsSource(rules: seq<Rule>, path: string, code: string)
    requires forall k :: 0 <= k < |rules| ==> !rules[k].test(path)
    ensures Transform(rules, path, code) == Ok(code)
  {
    NoMatchNoLoaders(rules, path);
  }

  /** Running a concatenated list of loaders runs the second part first, then
      the first part on its output. */
  lemma {:induction false} ChainConcat(a: seq<Loader>, b: seq<Loader>, code: string)
    ensures Chain(a + b, code) == Chain(a, Chain(b, code))
    decreases |a|
  {
    if a == [] {
      assert a + b == b;
    } else {
      assert (a + b)[1..] == a[1..] + b;
      ChainConcat(a[1..], b, code);
    }
  }

  /** The loader at index `k` consumes exactly the output of the loaders after it. */
  lemma {:induction false} ChainStep(loaders: seq<Loader>, k: nat, code: string)
    requires k < |loaders|
    ensures Chain(loaders[k..], code) == loaders[k](Chain(loaders[k + 1..], code))
  {
    assert loaders[k..][1..] == loaders[k + 1..];
  }

  /** Two matching rules with loaders f (first) and g (second): the second
      rule's loader runs first, so the text produced is f(g(source)). */
  lemma TwoRulesRunRightToLeft(r1: Rule, r2: Rule, path: string, code: string)
    requires r1.test(path) && r1.loader.Some?
    requires r2.test(path) && r2.loader.Some?
    ensures Transform([r1, r2], path, code) == Ok(r1.loader.value(r2.loader.value(code)))
  {
    assert [r1, r2][..1] == [r1];
    assert [r1][..0] == [];
    assert MatchLoaders([r1], path) == Ok([] + [r1.loader.value]);
    var ls := [r1.loader.value, r2.loader.value];
    assert [] + [r1.loader.value] + [r2.loader.value] == ls;
    assert MatchLoaders([r1, r2], path) == Ok(ls);
    assert ls[1..] == [r2.loader.value];
    assert ls[1..][1..] == [];
    assert Chain(ls[1..], code) == r2.loader.value(code);
    assert Chain(ls, code) == r1.loader.value(r2.loader.value(code));
  }
}
