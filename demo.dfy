/** Two pipelines built from the combinators: the call in lib/index.ts, and
    a sum over a prefix of a range. */
module Demo {
  import Arrays
  import Pipes
  import Utils
  import Functor
  import Strings

  /** The template literal `Hello, ${name}!` of lib/index.ts. */
  function Greeting(name: Strings.JsString): Strings.JsString
  {
    [0x48, 0x65, 0x6C, 0x6C, 0x6F, 0x2C, 0x20] + name + [0x21]
  }

  /** The call in lib/index.ts pipes a name through `map` of the greeting and
      then `inspect`: the value of the pipe is the greeting, and the
      inspector (there, console.log) receives the greeting exactly once. */
  lemma GreetingPipeline(name: Strings.JsString)
    ensures Pipes.Pipe2(name, Functor.Map(Greeting), Utils.InspectStage) == Greeting(name)
    ensures Utils.Inspect(Functor.Map(Greeting)(name)).calls == [Greeting(name)]
  {
    Functor.MapApplies(Greeting, name);
  }

  function LessThanFive(v: int): bool
  {
    v < 5
  }

  function IsEven(v: int): bool
  {
    v % 2 == 0
  }

  /** `takeWhile(v => v < 5)` as a pipe stage. */
  function TakeWhileLessThanFive(source: seq<int>): seq<int>
  {
    Arrays.Span(LessThanFive, source).0
  }

  function FilterEven(source: seq<int>): seq<int>
  {
    Arrays.Filter(IsEven, source)
  }

  function Total(source: seq<int>): int
  {
    Arrays.Fold(0, Arrays.Add, source)
  }

  /** The three stages of the pipeline below, one at a time. */
  lemma TakeWhileOfRange()
    ensures TakeWhileLessThanFive(Arrays.Range(0, 10)) == [0, 1, 2, 3, 4]
  {
    var source := Arrays.Range(0, 10);
    assert source == [0, 1, 2, 3, 4, 5, 6, 7, 8, 9];
    Arrays.SpanUnique(LessThanFive, source, [0, 1, 2, 3, 4], source[5..]);
  }

  lemma FilterEvenOfPrefix()
    ensures FilterEven([0, 1, 2, 3, 4]) == [0, 2, 4]
  {
    var s0: seq<int> := [];
    Arrays.FilterSnoc(IsEven, s0, 0);
    var s1 := s0 + [0];
    assert Arrays.Filter(IsEven, s1) == [0];
    Arrays.FilterSnoc(IsEven, s1, 1);
    var s2 := s1 + [1];
    assert Arrays.Filter(IsEven, s2) == [0];
    Arrays.FilterSnoc(IsEven, s2, 2);
    var s3 := s2 + [2];
    assert Arrays.Filter(IsEven, s3) == [0, 2];
    Arrays.FilterSnoc(IsEven, s3, 3);
    var s4 := s3 + [3];
    assert Arrays.Filter(IsEven, s4) == [0, 2];
    Arrays.FilterSnoc(IsEven, s4, 4);
    var s5 := s4 + [4];
    assert Arrays.Filter(IsEven, s5) == [0, 2, 4];
    assert s5 == [0, 1, 2, 3, 4];
  }

  lemma TotalOfEvens()
    ensures Total([0, 2, 4]) == 6
  {
    assert [0, 2, 4] == [0, 2] + [4] && [0, 2] == [0] + [2];
    Arrays.SumAppend([0, 2], [4]);
    Arrays.SumAppend([0], [2]);
    assert [0][..0] == [] && [2][..0] == [] && [4][..0] == [];
    assert Arrays.Sum([0]) == 0 && Arrays.Sum([2]) == 2 && Arrays.Sum([4]) == 4;
  }

  /** `pipe(range(0, 10), takeWhile(v => v < 5), filter(v => v % 2 === 0),
      fold(0, (t, v) => t + v))` is 0 + 2 + 4. */
  lemma SumOfEvenPrefix()
    ensures Pipes.Pipe3(Arrays.Range(0, 10), TakeWhileLessThanFive, FilterEven, Total) == 6
  {
    TakeWhileOfRange();
    FilterEvenOfPrefix();
    TotalOfEvens();
  }
}
