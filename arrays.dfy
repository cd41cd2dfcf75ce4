/** The array combinators of lib/array.ts.

    A JavaScript array is a sequence here. Every combinator of the library is
    curried (`take(n)(source)`); the model takes the configuration and the
    source array in one call. Predicates the library tests for truthiness get
    an explicit `truthy` parameter when they return something other than a
    boolean. The five combinators written as counting loops (findMap,
    filterMap, takeWhile, skipWhile, partition) are methods with loops, each
    proved against a function that the other combinators also use. */
module Arrays {
  import opened Wrappers

  // ------------------------------------------------------------------------
  // Small function-valued helpers

  /** The negation of a predicate. */
  function Not<A>(p: A -> bool): A -> bool
  {
    x => !p(x)
  }

  /** A number-valued callback read as a condition: a number is truthy unless it is 0. */
  function NonZero<A>(f: A -> int): A -> bool
  {
    x => f(x) != 0
  }

  /** `(total, item) => total + item`, the reducer of `sum`. */
  function Add(total: int, item: int): int
  {
    total + item
  }

  /** The two halves of an `enumerate` entry. */
  function Index<A>(entry: (int, A)): int
  {
    entry.0
  }

  function Item<A>(entry: (int, A)): A
  {
    entry.1
  }

  /** A callback that wraps its image in a one-element array. */
  function Singleton<A, B>(f: A -> B): A -> seq<B>
  {
    x => [f(x)]
  }

  // ------------------------------------------------------------------------
  // map, flatMap, forEach, inspect

  /** `map(f)(source)`: the image of every element, in order. */
  function Map<A, B>(f: A -> B, source: seq<A>): (r: seq<B>)
    ensures |r| == |source|
    ensures forall i :: 0 <= i < |source| ==> r[i] == f(source[i])
  {
    seq(|source|, i requires 0 <= i < |source| => f(source[i]))
  }

  /** Mapping distributes over concatenation. */
  lemma MapAppend<A, B>(f: A -> B, a: seq<A>, b: seq<A>)
    ensures Map(f, a + b) == Map(f, a) + Map(f, b)
  {
    assert forall i :: 0 <= i < |a + b| ==> Map(f, a + b)[i] == (Map(f, a) + Map(f, b))[i];
  }

  /** Mapping twice is mapping once by the composition. */
  lemma MapCompose<A, B, C>(f: A -> B, g: B -> C, source: seq<A>)
    ensures Map(g, Map(f, source)) == Map(x => g(f(x)), source)
  {
  }

  /** `flatMap(f)(source)` for a callback that returns arrays: the images,
      concatenated in source order. */
  function FlatMap<A, B>(f: A -> seq<B>, source: seq<A>): (r: seq<B>)
    decreases |source|
  {
    if source == [] then []
    else FlatMap(f, source[..|source| - 1]) + f(source[|source| - 1])
  }

  /** flatMap distributes over concatenation of the source. */
  lemma {:induction false} FlatMapAppend<A, B>(f: A -> seq<B>, a: seq<A>, b: seq<A>)
    ensures FlatMap(f, a + b) == FlatMap(f, a) + FlatMap(f, b)
    decreases |b|
  {
    if b == [] {
      assert a + b == a;
    } else {
      var n := |b| - 1;
      assert (a + b)[..|a + b| - 1] == a + b[..n];
      FlatMapAppend(f, a, b[..n]);
    }
  }

  /** flatMap with one-element images is map. */
  lemma {:induction false} FlatMapSingletons<A, B>(f: A -> B, source: seq<A>)
    ensures FlatMap(Singleton(f), source) == Map(f, source)
    decreases |source|
  {
    if source != [] {
      var n := |source| - 1;
      FlatMapSingletons(f, source[..n]);
      assert Map(f, source) == Map(f, source[..n]) + [f(source[n])];
    }
  }

  /** `forEach(callback)(source)`: returns nothing and calls the callback once
      per element, in order. */
  function ForEach<A>(source: seq<A>): (r: Traced<(), A>)
    ensures r.calls == source
  {
    Traced((), source)
  }

  /** `inspect(callback)(source)`: calls the callback once per element, in
      order, and returns the elements unchanged. */
  function Inspect<A>(source: seq<A>): (r: Traced<seq<A>, A>)
    ensures r.result == source
    ensures r.calls == source
  {
    Traced(Map(x => x, source), source)
  }

  // ------------------------------------------------------------------------
  // filter, partition, filterMap

  /** `filter(p)(source)`: the elements that satisfy `p`, in source order. */
  function Filter<A>(p: A -> bool, source: seq<A>): (r: seq<A>)
    ensures |r| <= |source|
    ensures forall i :: 0 <= i < |r| ==> p(r[i])
    decreases |source|
  {
    if source == [] then []
    else
      var last := source[|source| - 1];
      Filter(p, source[..|source| - 1]) + if p(last) then [last] else []
  }

  /** Filtering a one-element-longer array keeps the new element exactly when it satisfies the predicate. */
  lemma FilterSnoc<A>(p: A -> bool, source: seq<A>, x: A)
    ensures Filter(p, source + [x]) == Filter(p, source) + if p(x) then [x] else []
  {
    assert (source + [x])[..|source|] == source;
  }

  /** `t` occurs in `s` in the same order, possibly with gaps. */
  ghost predicate IsSubsequence<A>(t: seq<A>, s: seq<A>)
    decreases |s|
  {
    if t == [] then true
    else if s == [] then false
    else if t[|t| - 1] == s[|s| - 1] then IsSubsequence(t[..|t| - 1], s[..|s| - 1])
    else IsSubsequence(t, s[..|s| - 1])
  }

  /** filter keeps exactly the elements that satisfy the predicate. */
  lemma {:induction false} FilterMembership<A>(p: A -> bool, source: seq<A>, x: A)
    ensures x in Filter(p, source) <==> x in source && p(x)
    decreases |source|
  {
    if source != [] {
      var n := |source| - 1;
      FilterMembership(p, source[..n], x);
      assert source == source[..n] + [source[n]];
    }
  }

  /** filter keeps source order. */
  lemma {:induction false} FilterIsSubsequence<A>(p: A -> bool, source: seq<A>)
    ensures IsSubsequence(Filter(p, source), source)
    decreases |source|
  {
    if source != [] {
      var n := |source| - 1;
      FilterIsSubsequence(p, source[..n]);
      var r := Filter(p, source);
      if p(source[n]) {
        assert r[..|r| - 1] == Filter(p, source[..n]);
      } else {
        assert r == Filter(p, source[..n]);
        SubsequenceDropLast(r, source);
      }
    }
  }

  /** A subsequence of a prefix is a subsequence of the whole. */
  lemma {:induction false} SubsequenceDropLast<A>(t: seq<A>, s: seq<A>)
    requires s != [] && IsSubsequence(t, s[..|s| - 1])
    ensures IsSubsequence(t, s)
    decreases |s|, 0
  {
    var n := |s| - 1;
    if t != [] && t[|t| - 1] == s[n] {
      SubsequenceOfPrefix(t, s[..n]);
    }
  }

  /** Dropping the last element of a subsequence keeps it a subsequence. */
  lemma {:induction false} SubsequenceOfPrefix<A>(t: seq<A>, s: seq<A>)
    requires t != [] && IsSubsequence(t, s)
    ensures IsSubsequence(t[..|t| - 1], s)
    decreases |s|, 1
  {
    var n := |s| - 1;
    if t[|t| - 1] != s[n] {
      SubsequenceOfPrefix(t, s[..n]);
    }
    SubsequenceDropLast(t[..|t| - 1], s);
  }

  /** A predicate and its negation split the source between them. */
  lemma {:induction false} FilterComplementSizes<A>(p: A -> bool, source: seq<A>)
    ensures |Filter(p, source)| + |Filter(Not(p), source)| == |source|
    decreases |source|
  {
    if source != [] {
      FilterComplementSizes(p, source[..|source| - 1]);
    }
  }

  /** ... and neither loses nor invents an element. */
  lemma {:induction false} FilterComplementMultiset<A>(p: A -> bool, source: seq<A>)
    ensures multiset(Filter(p, source)) + multiset(Filter(Not(p), source)) == multiset(source)
    decreases |source|
  {
    if source != [] {
      var n := |source| - 1;
      FilterComplementMultiset(p, source[..n]);
      assert source == source[..n] + [source[n]];
    }
  }

  /** `partition(p)(source)`: the loop of lib/array.ts pushes each element to
      `truthy` or `falsy`; the two arrays are filter by `p` and by its negation. */
  method Partition<A>(p: A -> bool, source: seq<A>) returns (truthy: seq<A>, falsy: seq<A>)
    ensures truthy == Filter(p, source)
    ensures falsy == Filter(Not(p), source)
  {
    truthy, falsy := [], [];
    for index := 0 to |source|
      invariant truthy == Filter(p, source[..index])
      invariant falsy == Filter(Not(p), source[..index])
    {
      var item := source[index];
      assert source[..index + 1][..index] == source[..index];
      if p(item) {
        truthy := truthy + [item];
      } else {
        falsy := falsy + [item];
      }
    }
    assert source[..|source|] == source;
  }

  /** What partition promises: every element of the first part satisfies the
      predicate, every element of the second fails it, both keep source order,
      and together they are a rearrangement of the source. */
  lemma PartitionSplitsSource<A>(p: A -> bool, source: seq<A>)
    ensures forall i :: 0 <= i < |Filter(p, source)| ==> p(Filter(p, source)[i])
    ensures forall i :: 0 <= i < |Filter(Not(p), source)| ==> !p(Filter(Not(p), source)[i])
    ensures IsSubsequence(Filter(p, source), source) && IsSubsequence(Filter(Not(p), source), source)
    ensures |Filter(p, source)| + |Filter(Not(p), source)| == |source|
    ensures multiset(Filter(p, source)) + multiset(Filter(Not(p), source)) == multiset(source)
  {
    FilterIsSubsequence(p, source);
    FilterIsSubsequence(Not(p), source);
    FilterComplementSizes(p, source);
    FilterComplementMultiset(p, source);
  }

  /** `filterMap(p)(source)`: the loop of lib/array.ts pushes each truthy
      image; the result is the truthy images of map, in source order. */
  method FilterMap<A, B>(p: A -> B, truthy: B -> bool, source: seq<A>) returns (filtered: seq<B>)
    ensures filtered == Filter(truthy, Map(p, source))
  {
    filtered := [];
    for index := 0 to |source|
      invariant filtered == Filter(truthy, Map(p, source[..index]))
    {
      var result := p(source[index]);
      assert Map(p, source[..index + 1])[..index] == Map(p, source[..index]);
      if truthy(result) {
        filtered := filtered + [result];
      }
    }
    assert source[..|source|] == source;
  }

  /** What filterMap promises: no more elements than the source, every one
      truthy and the image of a source element, in source order. */
  lemma FilterMapKeepsTruthyImages<A, B>(p: A -> B, truthy: B -> bool, source: seq<A>)
    ensures |Filter(truthy, Map(p, source))| <= |source|
    ensures forall i :: 0 <= i < |Filter(truthy, Map(p, source))| ==> truthy(Filter(truthy, Map(p, source))[i])
    ensures forall y :: y in Filter(truthy, Map(p, source)) <==> truthy(y) && exists i :: 0 <= i < |source| && y == p(source[i])
    ensures IsSubsequence(Filter(truthy, Map(p, source)), Map(p, source))
  {
    FilterIsSubsequence(truthy, Map(p, source));
    forall y
      ensures y in Filter(truthy, Map(p, source)) <==> truthy(y) && exists i :: 0 <= i < |source| && y == p(source[i])
    {
      FilterMembership(truthy, Map(p, source), y);
    }
  }

  // ------------------------------------------------------------------------
  // some, all, none, find, position, findMap, count

  /** `some(p)(source)`. */
  function AnyMatch<A>(p: A -> bool, source: seq<A>): (r: bool)
    ensures r <==> exists i :: 0 <= i < |source| && p(source[i])
  {
    if source == [] then false
    else p(source[0]) || AnyMatch(p, source[1..])
  }

  /** `all(p)(source)`. */
  function AllMatch<A>(p: A -> bool, source: seq<A>): (r: bool)
    ensures r <==> forall i :: 0 <= i < |source| ==> p(source[i])
  {
    if source == [] then true
    else p(source[0]) && AllMatch(p, source[1..])
  }

  /** `none(p)(source)`, written in lib/array.ts as the negation of some. */
  function NoneMatch<A>(p: A -> bool, source: seq<A>): (r: bool)
    ensures r <==> forall i :: 0 <= i < |source| ==> !p(source[i])
  {
    !AnyMatch(p, source)
  }

  /** all is none of the negation. */
  lemma AllIsNoneOfNegation<A>(p: A -> bool, source: seq<A>)
    ensures AllMatch(p, source) <==> NoneMatch(Not(p), source)
  {
  }

  /** `position(p)(source)` (Array.prototype.findIndex): the least index whose
      element satisfies `p`, or -1. */
  function Position<A>(p: A -> bool, source: seq<A>): (r: int)
    ensures -1 <= r < |source|
    ensures r == -1 <==> forall i :: 0 <= i < |source| ==> !p(source[i])
    ensures 0 <= r ==> p(source[r]) && forall j :: 0 <= j < r ==> !p(source[j])
  {
    if source == [] then -1
    else if p(source[0]) then 0
    else
      var k := Position(p, source[1..]);
      if k == -1 then -1 else k + 1
  }

  /** `find(p)(source)`: the first element that satisfies `p`, if any. */
  function Find<A>(p: A -> bool, source: seq<A>): (r: Option<A>)
    ensures r == if Position(p, source) == -1 then None else Some(source[Position(p, source)])
  {
    if source == [] then None
    else if p(source[0]) then Some(source[0])
    else Find(p, source[1..])
  }

  /** some holds exactly when find finds something. */
  lemma AnyMatchIffFound<A>(p: A -> bool, source: seq<A>)
    ensures AnyMatch(p, source) <==> Find(p, source).Some?
  {
  }

  /** `findMap(p)(source)`: the loop of lib/array.ts returns the first truthy
      image, or undefined when there is none. */
  method FindMap<A, B>(p: A -> B, truthy: B -> bool, source: seq<A>) returns (r: Option<B>)
    ensures r == Find(truthy, Map(p, source))
    ensures r.None? <==> forall i :: 0 <= i < |source| ==> !truthy(p(source[i]))
    ensures r.Some? ==> exists i :: 0 <= i < |source| && r.value == p(source[i]) && truthy(r.value)
                                    && forall j :: 0 <= j < i ==> !truthy(p(source[j]))
  {
    for i := 0 to |source|
      invariant forall j :: 0 <= j < i ==> !truthy(p(source[j]))
    {
      var applied := p(source[i]);
      if truthy(applied) {
        return Some(applied);
      }
    }
    return None;
  }

  /** `count()(source)` is the length; `count(counter)(source)` counts the
      elements whose counter value is truthy. */
  function Count<A>(counter: Option<A -> int>, source: seq<A>): (r: nat)
    ensures r <= |source|
    ensures counter.None? ==> r == |source|
  {
    match counter
    case None => |source|
    case Some(f) => |Filter(NonZero(f), source)|
  }

  /** A filter keeps everything exactly when every element satisfies it. */
  lemma {:induction false} FilterKeepsAllIffAll<A>(p: A -> bool, source: seq<A>)
    ensures |Filter(p, source)| == |source| <==> AllMatch(p, source)
    decreases |source|
  {
    if source != [] {
      var n := |source| - 1;
      FilterKeepsAllIffAll(p, source[..n]);
      assert forall i :: 0 <= i < n ==> source[..n][i] == source[i];
    }
  }

  /** count with a counter reaches the length exactly when every counter value is non-zero. */
  lemma CountIsFullIffAll<A>(f: A -> int, source: seq<A>)
    ensures Count(Some(f), source) == |source| <==> AllMatch(NonZero(f), source)
  {
    FilterKeepsAllIffAll(NonZero(f), source);
  }

  // ------------------------------------------------------------------------
  // take, skip, takeWhile, skipWhile

  /** The index Array.prototype.slice makes of a (whole-number) argument: a
      negative one counts from the end, and both are clamped to the array. */
  function SliceIndex(n: int, length: nat): (k: nat)
    ensures k <= length
    ensures 0 <= n ==> k == if n < length then n else length
    ensures n < 0 ==> k == if length + n < 0 then 0 else length + n
  {
    if n < 0 then (if length + n < 0 then 0 else length + n)
    else if n < length then n
    else length
  }

  /** `take(many)(source)`, that is `source.slice(0, many)`. */
  function Take<A>(many: int, source: seq<A>): (r: seq<A>)
    ensures 0 <= many ==> |r| == if many < |source| then many else |source|
    ensures many < 0 ==> |r| == if |source| + many < 0 then 0 else |source| + many
    ensures forall i :: 0 <= i < |r| ==> r[i] == source[i]
  {
    source[..SliceIndex(many, |source|)]
  }

  /** `skip(many)(source)`, that is `source.slice(many)`. */
  function Skip<A>(many: int, source: seq<A>): (r: seq<A>)
    ensures 0 <= many ==> |r| == if many < |source| then |source| - many else 0
    ensures many < 0 ==> |r| == if |source| + many < 0 then |source| else -many
    ensures forall i :: 0 <= i < |r| ==> r[i] == source[|source| - |r| + i]
  {
    source[SliceIndex(many, |source|)..]
  }

  /** take and skip cut the source at the same place, for every argument. */
  lemma TakeThenSkip<A>(many: int, source: seq<A>)
    ensures Take(many, source) + Skip(many, source) == source
  {
    var k := SliceIndex(many, |source|);
    assert source[..k] + source[k..] == source;
  }

  /** takeWhile and skipWhile as a pair: the longest prefix whose elements all
      satisfy `p`, and the rest, which begins with an element that fails it. */
  function Span<A>(p: A -> bool, source: seq<A>): (r: (seq<A>, seq<A>))
    ensures r.0 + r.1 == source
    ensures forall k :: 0 <= k < |r.0| ==> p(r.0[k])
    ensures r.1 != [] ==> !p(r.1[0])
  {
    if source == [] || !p(source[0]) then ([], source)
    else
      var rest := Span(p, source[1..]);
      var front := [source[0]] + rest.0;
      assert front + rest.1 == [source[0]] + (rest.0 + rest.1) == source;
      assert forall k :: 0 < k < |front| ==> front[k] == rest.0[k - 1];
      (front, rest.1)
  }

  /** The three properties of Span determine it. */
  lemma SpanUnique<A>(p: A -> bool, source: seq<A>, front: seq<A>, back: seq<A>)
    requires front + back == source
    requires forall k :: 0 <= k < |front| ==> p(front[k])
    requires back != [] ==> !p(back[0])
    ensures Span(p, source) == (front, back)
  {
    var (f, b) := Span(p, source);
    assert f == source[..|f|] && front == source[..|front|];
  }

  /** `takeWhile(p)(source)`. The loop of lib/array.ts reads `source[i]`
      without a bound and so stops at the end of the array only because its
      predicate is falsy on `undefined`; the model stops at the end. */
  method TakeWhile<A>(p: A -> bool, source: seq<A>) returns (r: seq<A>)
    ensures r == Span(p, source).0
  {
    var i := 0;
    while i < |source| && p(source[i])
      invariant 0 <= i <= |source|
      invariant forall k :: 0 <= k < i ==> p(source[k])
    {
      i := i + 1;
    }
    SpanUnique(p, source, source[..i], source[i..]);
    r := source[..i];
  }

  /** `skipWhile(p)(source)`, the same scan as takeWhile, keeping the rest. */
  method SkipWhile<A>(p: A -> bool, source: seq<A>) returns (r: seq<A>)
    ensures r == Span(p, source).1
  {
    var i := 0;
    while i < |source| && p(source[i])
      invariant 0 <= i <= |source|
      invariant forall k :: 0 <= k < i ==> p(source[k])
    {
      i := i + 1;
    }
    SpanUnique(p, source, source[..i], source[i..]);
    r := source[i..];
  }

  /** takeWhile followed by skipWhile gives back the source, and the prefix is
      the longest one whose elements satisfy the predicate. */
  method TakeWhileThenSkipWhile<A>(p: A -> bool, source: seq<A>) returns (front: seq<A>, back: seq<A>)
    ensures front + back == source
    ensures forall k :: 0 <= k < |front| ==> p(front[k])
    ensures |front| < |source| ==> !p(source[|front|])
  {
    front := TakeWhile(p, source);
    back := SkipWhile(p, source);
  }

  // ------------------------------------------------------------------------
  // fold, foldRight, reduce, sum

  /** `fold(initial, f)(source)`, that is `source.reduce(f, initial)`: the
      reducer is applied left to right, starting from `initial`. */
  function Fold<A, B>(initial: B, f: (B, A) -> B, source: seq<A>): B
    decreases |source|
  {
    if source == [] then initial
    else f(Fold(initial, f, source[..|source| - 1]), source[|source| - 1])
  }

  /** Folding a concatenation folds the second part from where the first left off. */
  lemma {:induction false} FoldAppend<A, B>(initial: B, f: (B, A) -> B, a: seq<A>, b: seq<A>)
    ensures Fold(initial, f, a + b) == Fold(Fold(initial, f, a), f, b)
    decreases |b|
  {
    if b == [] {
      assert a + b == a;
    } else {
      var n := |b| - 1;
      assert (a + b)[..|a + b| - 1] == a + b[..n];
      FoldAppend(initial, f, a, b[..n]);
    }
  }

  /** Folding an array that starts with x applies the reducer to x first. */
  lemma FoldFirst<A, B>(initial: B, f: (B, A) -> B, x: A, rest: seq<A>)
    ensures Fold(initial, f, [x] + rest) == Fold(f(initial, x), f, rest)
  {
    FoldAppend(initial, f, [x], rest);
    assert [x][..0] == [];
  }

  /** `reduce(f, initial)(source)`: fold with its arguments in the other order. */
  function Reduce<A, B>(f: (B, A) -> B, initial: B, source: seq<A>): (r: B)
    ensures r == Fold(initial, f, source)
  {
    Fold(initial, f, source)
  }

  /** `foldRight(initial, f)(source)`, that is `source.reduceRight(f, initial)`:
      the reducer is applied from the last element to the first. */
  function FoldRight<A, B>(initial: B, f: (B, A) -> B, source: seq<A>): B
  {
    if source == [] then initial
    else f(FoldRight(initial, f, source[1..]), source[0])
  }

  /** The elements in reverse order (Array.prototype.reverse, as a value). */
  function Reversed<A>(s: seq<A>): (r: seq<A>)
    ensures |r| == |s|
    ensures forall i :: 0 <= i < |s| ==> r[i] == s[|s| - 1 - i]
  {
    seq(|s|, i requires 0 <= i < |s| => s[|s| - 1 - i])
  }

  /** Reversing twice gives back the original. */
  lemma ReversedTwice<A>(s: seq<A>)
    ensures Reversed(Reversed(s)) == s
  {
  }

  /** foldRight is fold over the reversed array. */
  lemma {:induction false} FoldRightIsFoldOfReversed<A, B>(initial: B, f: (B, A) -> B, source: seq<A>)
    ensures FoldRight(initial, f, source) == Fold(initial, f, Reversed(source))
    decreases |source|
  {
    if source != [] {
      var r := Reversed(source);
      assert r[..|r| - 1] == Reversed(source[1..]);
      FoldRightIsFoldOfReversed(initial, f, source[1..]);
    }
  }

  /** `sum()(source)`: fold with `+` from 0. */
  function Sum(source: seq<int>): int
  {
    Fold(0, Add, source)
  }

  /** Summing from a start value adds the start value to the sum. */
  lemma {:induction false} FoldAddFrom(start: int, source: seq<int>)
    ensures Fold(start, Add, source) == start + Sum(source)
    decreases |source|
  {
    if source != [] {
      FoldAddFrom(start, source[..|source| - 1]);
    }
  }

  /** sum is additive over concatenation. */
  lemma SumAppend(a: seq<int>, b: seq<int>)
    ensures Sum(a + b) == Sum(a) + Sum(b)
  {
    FoldAppend(0, Add, a, b);
    FoldAddFrom(Sum(a), b);
  }

  // ------------------------------------------------------------------------
  // range, rangeInclusive, enumerate, chain

  /** `range(start, end)`: `end - start` consecutive numbers from `start`
      (none when `end <= start`, since Array.from clamps a negative length to 0). */
  function Range(start: int, end: int): (r: seq<int>)
    ensures |r| == if start < end then end - start else 0
    ensures forall i :: 0 <= i < |r| ==> r[i] == start + i
    ensures forall x :: x in r <==> start <= x < end
  {
    var r := seq(if start < end then end - start else 0, i => start + i);
    forall x | start <= x < end
      ensures x in r
    {
      assert r[x - start] == x;
    }
    r
  }

  /** `rangeInclusive(start, end)`: the numbers from `start` to `end`, both included. */
  function RangeInclusive(start: int, end: int): (r: seq<int>)
    ensures |r| == if start <= end then end - start + 1 else 0
    ensures forall i :: 0 <= i < |r| ==> r[i] == start + i
    ensures forall x :: x in r <==> start <= x <= end
  {
    Range(start, end + 1)
  }

  /** A range splits at any point inside it. */
  lemma RangeSplit(start: int, middle: int, end: int)
    requires start <= middle <= end
    ensures Range(start, end) == Range(start, middle) + Range(middle, end)
  {
    var r, r1, r2 := Range(start, end), Range(start, middle), Range(middle, end);
    assert forall i :: 0 <= i < |r| ==> r[i] == (r1 + r2)[i];
  }

  /** The sum of `range(0, n)` is the n-th triangular number. */
  lemma {:induction false} SumOfRange(n: nat)
    ensures 2 * Sum(Range(0, n)) == n * (n - 1)
  {
    if n > 0 {
      SumOfRange(n - 1);
      RangeSplit(0, n - 1, n);
      SumAppend(Range(0, n - 1), Range(n - 1, n));
      assert Range(n - 1, n) == [n - 1];
    }
  }

  /** `enumerate()(source)`: each element paired with its index. */
  function Enumerate<A>(source: seq<A>): (r: seq<(int, A)>)
    ensures |r| == |source|
    ensures forall i :: 0 <= i < |source| ==> r[i] == (i, source[i])
  {
    seq(|source|, i requires 0 <= i < |source| => (i, source[i]))
  }

  /** The indices of enumerate are range(0, |source|) and its items are the source. */
  lemma EnumerateProjections<A>(source: seq<A>)
    ensures Map(Item, Enumerate(source)) == source
    ensures Map(Index, Enumerate(source)) == Range(0, |source|)
  {
  }

  /** `chain(iter)(source)`: the source followed by `iter`. */
  function Chain<A>(iter: seq<A>, source: seq<A>): (r: seq<A>)
    ensures |r| == |source| + |iter|
    ensures forall i :: 0 <= i < |source| ==> r[i] == source[i]
    ensures forall i :: 0 <= i < |iter| ==> r[|source| + i] == iter[i]
  {
    source + iter
  }

  /** take and skip at the length of the source undo chain. */
  lemma ChainThenSplit<A>(iter: seq<A>, source: seq<A>)
    ensures Take(|source|, Chain(iter, source)) == source
    ensures Skip(|source|, Chain(iter, source)) == iter
  {
  }

  // ------------------------------------------------------------------------
  // first, last, nth

  /** `nth(n)(source)`: the element at index `n`, undefined outside the array. */
  function Nth<A>(n: int, source: seq<A>): (r: Option<A>)
    ensures r.Some? <==> 0 <= n < |source|
    ensures r.Some? ==> r.value == source[n]
  {
    if 0 <= n < |source| then Some(source[n]) else None
  }

  /** `first()(source)`: the element at index 0, undefined for an empty array. */
  function First<A>(source: seq<A>): (r: Option<A>)
    ensures r.Some? <==> source != []
    ensures r.Some? ==> r.value == source[0]
  {
    if source == [] then None else Some(source[0])
  }

  /** `last()(source)`: the element at index `length - 1`, undefined for an empty array. */
  function Last<A>(source: seq<A>): (r: Option<A>)
    ensures r.Some? <==> source != []
    ensures r.Some? ==> r.value == source[|source| - 1]
  {
    if source == [] then None else Some(source[|source| - 1])
  }

  /** first and last are nth at the two ends, and last is the first of the reversed array. */
  lemma FirstAndLastAreEnds<A>(source: seq<A>)
    ensures First(source) == Nth(0, source)
    ensures Last(source) == Nth(|source| - 1, source)
    ensures Last(source) == First(Reversed(source))
  {
  }
}
