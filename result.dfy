/** The `Result` tagged union of lib/result.ts and its combinators.

    The library tags a record with `_tag: 'Ok'` or `_tag: 'Err'`; a Dafny
    datatype with two constructors has exactly one tag by construction. Both
    variants carry a field `value` in the library; the model names the
    failure payload `error` because one Dafny datatype cannot have two
    destructors of one name and different types. */
module Results {
  import opened Wrappers
  import Utils

  datatype Result<A, B> = Ok(value: A) | Err(error: B)

  /** `ok(value)`. */
  function MakeOk<A, B>(value: A): (r: Result<A, B>)
    ensures r.Ok? && r.value == value
  {
    Ok(value)
  }

  /** `err(value)`. */
  function MakeErr<A, B>(value: B): (r: Result<A, B>)
    ensures r.Err? && r.error == value
  {
    Err(value)
  }

  /** `bimap(ok, err)(result)`: exactly one of the two functions is applied,
      chosen by the tag, and the tag is kept. */
  function BiMap<A, B, C, D>(ok: A -> C, err: B -> D, result: Result<A, B>): (r: Result<C, D>)
    ensures r.Ok? <==> result.Ok?
    ensures result.Ok? ==> r.value == ok(result.value)
    ensures result.Err? ==> r.error == err(result.error)
  {
    if result.Ok? then MakeOk(ok(result.value)) else MakeErr(err(result.error))
  }

  /** `map(ok)(result)`: the success value is transformed, a failure is
      returned as it is. */
  function Map<A, B, C>(ok: A -> B, result: Result<A, C>): (r: Result<B, C>)
    ensures result.Ok? ==> r == Ok(ok(result.value))
    ensures result.Err? ==> r == Err(result.error)
  {
    if result.Ok? then MakeOk(ok(result.value)) else Err(result.error)
  }

  /** `inspect(ok)(result)`: calls the callback with the success value, and
      only for a success; returns the result unchanged. */
  function Inspect<A, B>(result: Result<A, B>): (r: Traced<Result<A, B>, A>)
    ensures r.result == result
    ensures r.calls == if result.Ok? then [result.value] else []
  {
    if result.Ok? then Traced(result, [result.value]) else Traced(result, [])
  }

  /** bimap with identities changes nothing. */
  lemma BiMapIdentity<A, B>(result: Result<A, B>)
    ensures BiMap(Utils.Identity, Utils.Identity, result) == result
  {
  }

  /** bimap of compositions is bimap twice. */
  lemma BiMapCompose<A, B, C, D, E, F>(f1: A -> C, g1: B -> D, f2: C -> E, g2: D -> F, result: Result<A, B>)
    ensures BiMap(f2, g2, BiMap(f1, g1, result)) == BiMap(x => f2(f1(x)), y => g2(g1(y)), result)
  {
  }

  /** map is bimap with the identity on failures. */
  lemma MapIsBiMap<A, B, C>(f: A -> B, result: Result<A, C>)
    ensures Map(f, result) == BiMap(f, Utils.Identity, result)
  {
  }

  /** map with the identity changes nothing. */
  lemma MapIdentity<A, B>(result: Result<A, B>)
    ensures Map(Utils.Identity, result) == result
  {
  }

  /** map of a composition is map twice. */
  lemma MapCompose<A, B, C, E>(f: A -> B, g: B -> C, result: Result<A, E>)
    ensures Map(g, Map(f, result)) == Map(x => g(f(x)), result)
  {
  }
}
