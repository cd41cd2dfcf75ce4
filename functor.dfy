/** `map` of lib/functor.ts: applying a function to a plain value, as a
    curried pipe stage. */
module Functor {
  import Utils
  import Pipes

  /** `map(fn)`: the stage that applies `fn` to the value it receives. */
  function Map<A, B>(fn: A -> B): A -> B
  {
    v => fn(v)
  }

  /** The stage returns `fn` of its argument. */
  lemma MapApplies<A, B>(fn: A -> B, v: A)
    ensures Map(fn)(v) == fn(v)
  {
  }

  /** Mapping the identity changes nothing. */
  lemma MapIdentity<A>(v: A)
    ensures Map(Utils.Identity)(v) == v
  {
    assert Utils.Identity(v) == v;
  }

  /** Mapping twice is mapping the composition. */
  lemma MapCompose<A, B, C>(f: A -> B, g: B -> C, v: A)
    ensures Map(g)(Map(f)(v)) == g(f(v))
    ensures Map(g)(Map(f)(v)) == Map(x => g(f(x)))(v)
  {
  }

  /** As a pipe stage, `map(f)` applies `f`. */
  lemma PipeMap<A, B>(f: A -> B, v: A)
    ensures Pipes.Pipe1(v, Map(f)) == f(v)
  {
  }
}
