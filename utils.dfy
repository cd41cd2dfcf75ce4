/** `identity` and `inspect` of lib/utils.ts. */
module Utils {
  import opened Wrappers
  import Pipes

  /** `identity(value)`. */
  function Identity<A>(value: A): (r: A)
    ensures r == value
  {
    value
  }

  /** `inspect(inspector)(value)`: calls the inspector once, with the value,
      then returns the value unchanged. */
  function Inspect<A>(value: A): (r: Traced<A, A>)
    ensures r.result == value
    ensures r.calls == [value]
  {
    Traced(value, [value])
  }

  /** inspect as a pipe stage: what it passes on. */
  function InspectStage<A>(value: A): A
  {
    Inspect(value).result
  }

  /** identity and inspect are neutral stages: inserting either anywhere in a
      pipe does not change its result. */
  lemma NeutralStages<T>(source: T, fs: seq<T -> T>, gs: seq<T -> T>)
    ensures Pipes.Pipe(source, fs + [Identity] + gs) == Pipes.Pipe(source, fs + gs)
    ensures Pipes.Pipe(source, fs + [InspectStage] + gs) == Pipes.Pipe(source, fs + gs)
  {
    Pipes.PipeAppend(source, fs + [Identity], gs);
    Pipes.PipeSnoc(source, fs, Identity);
    Pipes.PipeAppend(source, fs + [InspectStage], gs);
    Pipes.PipeSnoc(source, fs, InspectStage);
    Pipes.PipeAppend(source, fs, gs);
  }

  /** In particular `pipe(v, identity) == v`. */
  lemma IdentityStage<T>(source: T)
    ensures Pipes.Pipe(source, [Identity]) == source
  {
    Pipes.PipeOne(source, Identity);
  }
}
