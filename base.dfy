/** Shared vocabulary of the bundler model: optional values, the compiler's
    error kinds, and results that carry one of them. */
module Base {

  datatype Option<+T> = None | Some(value: T)

  /** The ways a compilation run aborts. The original throws in each case;
      nothing is caught, so each one ends the run. */
  datatype Error =
    | ReadFailed(path: string)            // readFileSync on a path that is not a file
    | RuleWithoutLoader(path: string)     // a matching rule with neither `loader` nor `use`
    | ParseFailed(path: string)           // the parser rejects the transformed source
    | NonLiteralRequire(path: string)     // require() whose first argument is not a string literal
    | CannotResolve(request: string, context: string)  // no candidate file for a specifier
    | StackOverflow                       // the call-depth limit was reached

  datatype Result<+T> = Ok(value: T) | Err(error: Error)

  /** No element occurs twice: the shape of a JavaScript Set kept as a sequence. */
  predicate Distinct<T(==)>(s: seq<T>)
  {
    forall i, j :: 0 <= i < j < |s| ==> s[i] != s[j]
  }

  /** A plain JavaScript object: its own keys in insertion order and their values. */
  datatype Obj<V> = Obj(order: seq<string>, content: map<string, V>)

  /** The keys listed are distinct and are exactly the keys of the map. */
  predicate ObjValid<V>(o: Obj<V>)
  {
    && Distinct(o.order)
    && (forall k :: k in o.content ==> k in o.order)
    && (forall k :: k in o.order ==> k in o.content)
  }

  /** `o[k] = v`: a new key goes last, an existing key keeps its place. */
  function Put<V>(o: Obj<V>, k: string, v: V): Obj<V>
  {
    Obj(if k in o.content then o.order else o.order + [k], o.content[k := v])
  }

  /** An assignment keeps the object well formed, keeps the old keys in front
      and adds exactly the assigned key. */
  lemma PutValid<V>(o: Obj<V>, k: string, v: V)
    requires ObjValid(o)
    ensures ObjValid(Put(o, k, v)) && o.order <= Put(o, k, v).order
    ensures Put(o, k, v).content.Keys == o.content.Keys + {k}
  {
  }

  /** The one own key a plain object cannot get by assignment: it names the
      accessor inherited from `Object.prototype`. */
  const ProtoKey: string := "__proto__"

  /** `o[k] = v` with a string `v` on an object whose prototype is
      `Object.prototype`: assigning to `__proto__` reaches the inherited
      setter, which ignores a value that is not an object, so nothing
      changes; any other key is stored as by `Put`. */
  function AssignString(o: Obj<string>, k: string, v: string): Obj<string>
  {
    if k == ProtoKey then o else Put(o, k, v)
  }

  /** A string assignment keeps the object well formed and the old keys in
      front, adds the key unless it is `__proto__`, and stores `v` there. */
  lemma AssignStringValid(o: Obj<string>, k: string, v: string)
    requires ObjValid(o)
    ensures ObjValid(AssignString(o, k, v)) && o.order <= AssignString(o, k, v).order
    ensures AssignString(o, k, v).content.Keys == o.content.Keys + ({k} - {ProtoKey})
    ensures k != ProtoKey ==> AssignString(o, k, v).content[k] == v
    ensures k == ProtoKey ==> AssignString(o, k, v) == o
  {
    if k != ProtoKey {
      PutValid(o, k, v);
    }
  }
}
