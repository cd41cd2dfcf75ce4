/** `pipe` and `lazy` of lib/pipe.ts.

    The library's `pipe` takes a source value and any number of unary
    functions, each consuming what the previous one returned; its typed
    overloads only exist for type inference. The model gives `pipe` a
    homogeneous list of stages (`seq<T -> T>`), and the fixed arities
    `Pipe1` to `Pipe3` for chains whose stages change the type. */
module Pipes {
  import Arrays

  /** The reducer of `pipe`: `(piped, fn) => fn(piped)`. */
  function Apply<T>(piped: T, fn: T -> T): T
  {
    fn(piped)
  }

  /** `pipe(source, ...functions)`: the source unchanged when there are no
      functions, otherwise the functions applied from the first to the last,
      each to the previous result (a left fold with `Apply`). */
  function Pipe<T>(source: T, functions: seq<T -> T>): T
  {
    if |functions| == 0 then source
    else Arrays.Fold(source, Apply, functions)
  }

  /** The same stages applied one at a time from the front: the first
      function to the source, the rest to what it returned. */
  function ApplyInOrder<T>(source: T, functions: seq<T -> T>): T
    decreases |functions|
  {
    if functions == [] then source
    else ApplyInOrder(functions[0](source), functions[1..])
  }

  /** The early return for an empty list gives what the fold would have
      given, so pipe is the fold for every list. */
  lemma PipeIsFold<T>(source: T, functions: seq<T -> T>)
    ensures Pipe(source, functions) == Arrays.Fold(source, Apply, functions)
    ensures functions == [] ==> Pipe(source, functions) == source
  {
    if functions == [] {
      assert Arrays.Fold(source, Apply, functions) == source;
    }
  }

  /** pipe with one function is that function applied to the source. */
  lemma PipeOne<T>(source: T, f: T -> T)
    ensures Pipe(source, [f]) == f(source)
  {
    assert [f][..0] == [];
    assert Arrays.Fold(source, Apply, [f]) == Apply(Arrays.Fold(source, Apply, []), f);
  }

  /** pipe with two functions applies the first, then the second. */
  lemma PipeTwo<T>(source: T, f: T -> T, g: T -> T)
    ensures Pipe(source, [f, g]) == g(f(source))
  {
    assert [f, g][..1] == [f];
    PipeOne(source, f);
  }

  /** Adding a function at the end applies it to the previous result. */
  lemma PipeSnoc<T>(source: T, functions: seq<T -> T>, f: T -> T)
    ensures Pipe(source, functions + [f]) == f(Pipe(source, functions))
  {
    assert (functions + [f])[..|functions|] == functions;
  }

  /** Splitting the list of functions splits the pipe. */
  lemma PipeAppend<T>(source: T, fs: seq<T -> T>, gs: seq<T -> T>)
    ensures Pipe(source, fs + gs) == Pipe(Pipe(source, fs), gs)
  {
    Arrays.FoldAppend(source, Apply, fs, gs);
  }

  /** pipe applies the functions strictly from the first to the last:
      `pipe(s, f1, ..., fn) == fn(...f1(s))`. */
  lemma {:induction false} PipeAppliesInOrder<T>(source: T, functions: seq<T -> T>)
    ensures Pipe(source, functions) == ApplyInOrder(source, functions)
    decreases |functions|
  {
    if functions != [] {
      assert functions == [functions[0]] + functions[1..];
      Arrays.FoldFirst(source, Apply, functions[0], functions[1..]);
      PipeAppliesInOrder(functions[0](source), functions[1..]);
    }
  }

  /** The typed overloads of pipe for one, two and three stages. */
  function Pipe1<A, B>(source: A, fnA: A -> B): B
  {
    fnA(source)
  }

  function Pipe2<A, B, C>(source: A, fnA: A -> B, fnB: B -> C): C
  {
    fnB(fnA(source))
  }

  function Pipe3<A, B, C, D>(source: A, fnA: A -> B, fnB: B -> C, fnC: C -> D): D
  {
    fnC(fnB(fnA(source)))
  }

  /** On stages of one type, the typed overloads agree with pipe over the list. */
  lemma OverloadsAgree<T>(source: T, f: T -> T, g: T -> T, h: T -> T)
    ensures Pipe1(source, f) == Pipe(source, [f])
    ensures Pipe2(source, f, g) == Pipe(source, [f, g])
    ensures Pipe3(source, f, g, h) == Pipe(source, [f, g, h])
  {
    PipeOne(source, f);
    PipeTwo(source, f, g);
    assert [f, g, h] == [f, g] + [h];
    PipeSnoc(source, [f, g], h);
  }

  /** `lazy(fn)`: a function that forwards its argument to `fn`. */
  function Lazy<A, B>(fn: A -> B): A -> B
  {
    x => fn(x)
  }

  /** `lazy(fn)(x) == fn(x)`, and so a lazy stage behaves as the function itself. */
  lemma LazyForwards<A, B>(fn: A -> B, x: A)
    ensures Lazy(fn)(x) == fn(x)
    ensures Pipe1(x, Lazy(fn)) == Pipe1(x, fn)
  {
  }
}
