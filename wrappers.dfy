/** Small datatypes shared by the combinator modules. */
module Wrappers {

  /** A value that may be absent: `undefined` in the library's return types. */
  datatype Option<T> = None | Some(value: T)

  /** What a combinator that calls a caller-supplied callback for its side
      effect returns (`result`), together with the arguments it passed to
      that callback, in call order (`calls`). The callback's effects
      themselves are opaque; the log is what the model can observe of them. */
  datatype Traced<R, A> = Traced(result: R, calls: seq<A>)
}
