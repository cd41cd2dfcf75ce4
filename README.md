# dysfunctional combinators in Dafny

This project models the curried combinator library under `lib/`: array
combinators, a left-to-right `pipe`, a two-variant `Result` with
`map`/`bimap`/`inspect`, string helpers, `identity`/`inspect`, and the
functor `map`. Everything in the library is sequential and free of shared
state. Each source file becomes one Dafny module:

- `arrays.dfy` (module `Arrays`) models `lib/array.ts`. A JavaScript array is a `seq`. A
  curried call such as `take(n)(source)` takes all its arguments at once. The
  five combinators that the source writes as counting loops are methods with
  loop invariants: `findMap`, `filterMap`, `takeWhile`, `skipWhile` and
  `partition`. Each is proved equal to a function built from the other
  combinators:
  - `findMap` is `Find(truthy, Map(p, s))`;
  - `filterMap` is `Filter(truthy, Map(p, s))`;
  - `takeWhile` and `skipWhile` are the two halves of `Span(p, s)`;
  - `partition` is `Filter(p, s)` and `Filter(Not(p), s)`.

  The properties the source promises are lemmas about those functions. The
  other combinators are single expressions in the source and functions here.
- `pipe.dfy` (module `Pipes`) models `lib/pipe.ts`. `pipe` is modelled over a
  homogeneous list of stages. Like the source, it has an early return for an
  empty list and is otherwise a left fold with `(piped, fn) => fn(piped)`.
  `Pipe1`–`Pipe3` stand for the typed overloads whose stages change type.
- `result.dfy` (module `Results`) models `lib/result.ts`. The `_tag` field
  becomes a datatype with two constructors, `Ok(value)` and `Err(error)`.
- `strings.dfy` (module `Strings`) models `lib/string.ts`. A string is a
  sequence of UTF-16 code units (`CodeUnit`, 0 to 0xFFFF). `toUpperCase` is a
  parameter `upper`.
- `utils.dfy` (module `Utils`) models `lib/utils.ts`, and `functor.dfy`
  (module `Functor`) models `lib/functor.ts`.
- `wrappers.dfy` (module `Wrappers`) defines two helper types:
  - `Option` stands for `undefined` results;
  - `Traced` pairs a result with the list of arguments passed to a caller's
    callback. This is how the model observes `inspect`, `forEach` and
    Result's `inspect`.
- `demo.dfy` (module `Demo`) models the call in `lib/index.ts` and the
  pipeline `range → takeWhile → filter → fold`.

Truthiness tests in the source (`if (applied)`, `if (result)`) become an
explicit `truthy` parameter. A number-valued `count` callback counts an
element when its value is non-zero.

## Where the code and its evident intent disagree

- `reverse` (lib/string.ts:5-7): a function named `reverse` evidently means
  the code units in reverse order. The code ends with `join()`, and
  Array.prototype.join with no argument puts a comma between the elements.
  `Strings.Reverse` follows the code, and `Strings.ReverseCorrected` states
  the evident intent. The difference is logged under Findings.

## Model

| member | source | states |
|---|---|---|
| `Arrays.Map` | lib/array.ts:9-11 | the result has one element per source element, and element i is the callback applied to source element i |
| `Arrays.MapAppend` | lib/array.ts:9-11 | mapping a concatenation is the concatenation of the mapped parts |
| `Arrays.MapCompose` | lib/array.ts:9-11 | mapping by f and then by g is mapping by their composition |
| `Arrays.FlatMap` | lib/array.ts:21-23 | flatMap over callbacks that return arrays; it has no contract of its own, and FlatMapAppend and FlatMapSingletons state its meaning |
| `Arrays.FlatMapAppend` | lib/array.ts:21-23 | flatMap of a concatenation is the concatenation of the two flatMaps |
| `Arrays.FlatMapSingletons` | lib/array.ts:21-23 | flatMap with a callback returning one-element arrays equals map |
| `Arrays.ForEach` | lib/array.ts:68-70 | the callback is called once per element, in source order |
| `Arrays.Inspect` | lib/array.ts:189-196 | the array comes back unchanged and the callback sees every element once, in order |
| `Arrays.Filter` | lib/array.ts:72-74 | the result is no longer than the source and every element of it satisfies the predicate |
| `Arrays.FilterSnoc` | lib/array.ts:72-74 | adding an element at the end adds it to the filtered array exactly when it satisfies the predicate |
| `Arrays.FilterMembership` | lib/array.ts:72-74 | x is in the filtered array if and only if x is in the source and satisfies the predicate |
| `Arrays.FilterIsSubsequence` | lib/array.ts:72-74 | filter keeps source order: its result is a subsequence of the source |
| `Arrays.FilterComplementSizes` | lib/array.ts:169-187 | filtering by p and by not-p gives lengths that add up to the source length |
| `Arrays.FilterComplementMultiset` | lib/array.ts:169-187 | filtering by p and by not-p gives together a rearrangement of the source (multisets add up) |
| `Arrays.Partition` | lib/array.ts:169-187 | the loop's `truthy` array is filter(p) of the source and its `falsy` array is filter(not p) |
| `Arrays.PartitionSplitsSource` | lib/array.ts:169-187 | first part all satisfy p; second part all fail p; both keep source order; lengths add up to the source's; together they are a permutation of the source |
| `Arrays.FilterMap` | lib/array.ts:52-66 | the loop's pushed values are exactly the truthy images p(x), in source order: filter(truthy) of map(p) |
| `Arrays.FilterMapKeepsTruthyImages` | lib/array.ts:52-66 | the result is at most as long as the source; every element is truthy; every element is p of some source element and each truthy image appears; order follows the source |
| `Arrays.AnyMatch` | lib/array.ts:96-98 | `some` holds if and only if some element satisfies the predicate |
| `Arrays.AllMatch` | lib/array.ts:92-94 | `all` holds if and only if every element satisfies the predicate |
| `Arrays.NoneMatch` | lib/array.ts:100-102 | `none` (the negation of `some`) holds if and only if no element satisfies the predicate |
| `Arrays.AllIsNoneOfNegation` | lib/array.ts:92-102 | `all(p)` equals `none` of the negated predicate |
| `Arrays.Position` | lib/array.ts:108-110 | `position` returns -1 exactly when no element satisfies p; otherwise it returns the least index whose element satisfies p |
| `Arrays.Find` | lib/array.ts:104-106 | `find` returns the element at `position`, or undefined when `position` is -1 |
| `Arrays.AnyMatchIffFound` | lib/array.ts:96-106 | `some` holds if and only if `find` returns an element |
| `Arrays.FindMap` | lib/array.ts:33-42 | undefined exactly when no image is truthy; otherwise p(s[i]) for the least i whose image is truthy; equal to find(truthy) over map(p) |
| `Arrays.Count` | lib/array.ts:164-167 | without a counter it is the length; with one it is at most the length |
| `Arrays.FilterKeepsAllIffAll` | lib/array.ts:72-74 | a filter keeps every element if and only if every element satisfies the predicate |
| `Arrays.CountIsFullIffAll` | lib/array.ts:164-167 | counting with a counter reaches the length exactly when every counter value is non-zero |
| `Arrays.SliceIndex` | lib/array.ts:124-126 | the cut point `slice` takes from its argument: a negative argument counts back from the end, and the result is clamped to [0, length] |
| `Arrays.Take` | lib/array.ts:124-126 | for n >= 0 the result has min(n, length) elements; for n < 0 it has max(length + n, 0); they are the source's leading elements |
| `Arrays.Skip` | lib/array.ts:146-148 | for n >= 0 the result has max(length - n, 0) elements; for n < 0 it has min(-n, length); they are the source's trailing elements |
| `Arrays.TakeThenSkip` | lib/array.ts:124-148 | for every n, take(n) followed by skip(n) is the source |
| `Arrays.Span` | lib/array.ts:128-158 | splits the source into a prefix whose elements all satisfy p, then a rest that is empty or begins with an element failing p |
| `Arrays.SpanUnique` | lib/array.ts:128-158 | any split with those three properties is the span, so the prefix is the longest one satisfying p |
| `Arrays.TakeWhile` | lib/array.ts:128-136 | the scan loop returns the prefix half of the span |
| `Arrays.SkipWhile` | lib/array.ts:150-158 | the same scan loop returns the rest half of the span |
| `Arrays.TakeWhileThenSkipWhile` | lib/array.ts:128-158 | takeWhile then skipWhile gives back the source; the prefix satisfies p throughout; the next element, if any, fails p |
| `Arrays.Fold` | lib/array.ts:80-82 | the left fold `source.reduce(f, initial)`; it has no contract of its own, and FoldAppend and FoldFirst state its meaning |
| `Arrays.FoldAppend` | lib/array.ts:80-82 | folding a concatenation folds the second part starting from the first part's result |
| `Arrays.FoldFirst` | lib/array.ts:80-82 | folding applies the reducer to the first element first |
| `Arrays.Reduce` | lib/array.ts:76-78 | `reduce(f, initial)` is `fold(initial, f)`, the same left fold |
| `Arrays.Reversed` | lib/string.ts:6 | `Array.prototype.reverse`: the same length, and element i is the source's element length-1-i |
| `Arrays.ReversedTwice` | lib/string.ts:6 | reversing twice gives back the array |
| `Arrays.FoldRight` | lib/array.ts:84-89 | `source.reduceRight(f, initial)`; it has no contract of its own, and FoldRightIsFoldOfReversed states its meaning |
| `Arrays.FoldRightIsFoldOfReversed` | lib/array.ts:84-89 | `foldRight` (reduceRight) is the left fold over the reversed array |
| `Arrays.Sum` | lib/array.ts:112-114 | `sum` is fold(0, +); it has no contract of its own, and FoldAddFrom, SumAppend and SumOfRange state its meaning |
| `Arrays.FoldAddFrom` | lib/array.ts:112-114 | folding `+` from a start value adds the start value to the sum |
| `Arrays.SumAppend` | lib/array.ts:112-114 | the sum of a concatenation is the sum of the sums |
| `Arrays.Range` | lib/array.ts:219-221 | range(a, b) has max(0, b - a) elements; element i is a + i; x is an element if and only if a <= x < b |
| `Arrays.RangeInclusive` | lib/array.ts:232-234 | rangeInclusive(a, b) has max(0, b - a + 1) elements; element i is a + i; x is an element if and only if a <= x <= b |
| `Arrays.RangeSplit` | lib/array.ts:219-221 | a range splits at any point between its bounds |
| `Arrays.SumOfRange` | lib/array.ts:112-114 | twice the sum of range(0, n) is n(n-1) |
| `Arrays.Enumerate` | lib/array.ts:236-239 | the result has the source's length, and entry i is the pair (i, source[i]) |
| `Arrays.EnumerateProjections` | lib/array.ts:236-239 | the items of enumerate are the source and its indices are range(0, length) |
| `Arrays.Chain` | lib/array.ts:160-162 | the source comes first, followed by the chained array; the length is the sum |
| `Arrays.ChainThenSplit` | lib/array.ts:160-162 | take and skip at the source's length give back the two chained arrays |
| `Arrays.Nth` | lib/array.ts:206-208 | defined exactly for 0 <= n < length, and then it is source[n] |
| `Arrays.First` | lib/array.ts:198-200 | defined exactly for a non-empty array, and then it is its first element |
| `Arrays.Last` | lib/array.ts:202-204 | defined exactly for a non-empty array, and then it is its last element |
| `Arrays.FirstAndLastAreEnds` | lib/array.ts:198-208 | first is nth(0); last is nth(length - 1) and also the first element of the reversed array |
| `Pipes.Pipe` | lib/pipe.ts:104-110 | pipe over a list of stages; it has no contract of its own, and PipeIsFold, PipeOne, PipeTwo, PipeSnoc, PipeAppend and PipeAppliesInOrder state its meaning |
| `Pipes.PipeIsFold` | lib/pipe.ts:104-110 | the early return for no functions agrees with the fold, so pipe is the left fold for every list; with no functions it returns the source |
| `Pipes.PipeOne` | lib/pipe.ts:109 | pipe(s, f) equals f(s) |
| `Pipes.PipeTwo` | lib/pipe.ts:109 | pipe(s, f, g) equals g(f(s)) |
| `Pipes.PipeSnoc` | lib/pipe.ts:109 | a function added at the end is applied to the previous result |
| `Pipes.PipeAppend` | lib/pipe.ts:109 | pipe over fs then gs equals piping the result of fs through gs |
| `Pipes.PipeAppliesInOrder` | lib/pipe.ts:109 | pipe applies the functions strictly from first to last: pipe(s, f1..fn) equals fn(...f1(s)) |
| `Pipes.Pipe1` | lib/pipe.ts:3 | the typed overload for one stage; it has no contract of its own, and OverloadsAgree states its meaning |
| `Pipes.Pipe2` | lib/pipe.ts:5-9 | the typed overload for two stages; it has no contract of its own, and OverloadsAgree states its meaning |
| `Pipes.Pipe3` | lib/pipe.ts:11-16 | the typed overload for three stages; it has no contract of its own, and OverloadsAgree states its meaning |
| `Pipes.OverloadsAgree` | lib/pipe.ts:3-16 | the typed overloads for one, two and three stages agree with pipe over the list |
| `Pipes.Lazy` | lib/pipe.ts:112-114 | `lazy(fn)`, a function that forwards its argument; it has no contract of its own, and LazyForwards states its meaning |
| `Pipes.LazyForwards` | lib/pipe.ts:112-114 | lazy(fn)(x) equals fn(x) |
| `Utils.Identity` | lib/utils.ts:1-3 | identity returns its argument |
| `Utils.Inspect` | lib/utils.ts:5-10 | inspect returns the value unchanged and calls the inspector exactly once, with that value |
| `Utils.NeutralStages` | lib/utils.ts:1-10 | inserting identity or inspect anywhere among pipe's stages leaves the pipe's result unchanged |
| `Utils.IdentityStage` | lib/utils.ts:1-3 | pipe(v, identity) equals v |
| `Results.MakeOk` | lib/result.ts:18-23 | `ok(v)` is tagged Ok and carries v |
| `Results.MakeErr` | lib/result.ts:25-30 | `err(v)` is tagged Err and carries v |
| `Results.BiMap` | lib/result.ts:35-41 | the tag never changes; an Ok value goes through the first function and an Err value through the second |
| `Results.Map` | lib/result.ts:43-47 | Ok(v) becomes Ok(f(v)); an Err comes back unchanged |
| `Results.Inspect` | lib/result.ts:49-56 | the result comes back unchanged for both tags; the callback is called once with the value for Ok and not at all for Err |
| `Results.BiMapIdentity` | lib/result.ts:35-41 | bimap(identity, identity) changes nothing |
| `Results.BiMapCompose` | lib/result.ts:35-41 | bimap twice is bimap of the compositions |
| `Results.MapIsBiMap` | lib/result.ts:35-47 | map(f) is bimap(f, identity) |
| `Results.MapIdentity` | lib/result.ts:43-47 | map(identity) changes nothing |
| `Results.MapCompose` | lib/result.ts:43-47 | map(g) after map(f) is map of g composed with f |
| `Functor.Map` | lib/functor.ts:1-3 | `map(fn)` as a stage; it has no contract of its own, and MapApplies, MapIdentity, MapCompose and PipeMap state its meaning |
| `Functor.MapApplies` | lib/functor.ts:1-3 | map(fn)(v) equals fn(v) |
| `Functor.MapIdentity` | lib/functor.ts:1-3 | map(identity)(v) equals v |
| `Functor.MapCompose` | lib/functor.ts:1-3 | map(g)(map(f)(v)) equals g(f(v)), that is, map of the composition |
| `Functor.PipeMap` | lib/functor.ts:1-3 | pipe(v, map(f)) equals f(v) |
| `Strings.IndexOf` | lib/string.ts:1-3 | the search inside split returns -1 or a position at or after `from` where the separator fits; IndexOfFirst states which position |
| `Strings.IndexOfFirst` | lib/string.ts:1-3 | indexOf is -1 exactly when the separator occurs nowhere at or after `from`; otherwise the separator occurs there and at no earlier position from `from` on |
| `Strings.Split` | lib/string.ts:1-3 | the empty separator gives one piece per code unit; any other separator gives at least one piece |
| `Strings.SplitOn` | lib/string.ts:1-3 | split on a non-empty separator always gives at least one piece; SplitAtFirst, JoinSplit and SplitPiecesAvoidSeparator state which pieces |
| `Strings.SplitAtFirst` | lib/string.ts:1-3 | a non-empty separator cuts at its first occurrence, and splitting continues after it |
| `Strings.Join` | lib/string.ts:9-11 | `join(separator)` over strings; it has no contract of its own, and JoinFirst, JoinSplit, SplitJoinUnit and JoinChars state its meaning |
| `Strings.JoinFirst` | lib/string.ts:9-11 | join puts the separator between the first part and the join of the rest |
| `Strings.JoinSplit` | lib/string.ts:1-11 | join(sep) of split(sep)(s) is s, for every separator |
| `Strings.PieceBeforeFirstAvoids` | lib/string.ts:1-3 | the piece split cuts off before the first occurrence of a non-empty separator does not contain the separator |
| `Strings.SplitPiecesAvoidSeparator` | lib/string.ts:1-3 | no piece cut out by a non-empty separator contains it |
| `Strings.SplitJoinUnit` | lib/string.ts:1-11 | splitting on a one-unit separator undoes joining with it, when no part contains the separator |
| `Strings.Chars` | lib/string.ts:17-19 | chars(s) has |s| elements, and element i is the one-unit string s[i] |
| `Strings.JoinChars` | lib/string.ts:17-19 | joining chars(s) with no separator gives back s |
| `Strings.ToCodeUnit` | lib/string.ts:25-31 | a number denotes the code unit equal to it modulo 2^16 |
| `Strings.FirstCode` | lib/string.ts:22 | `c.charCodeAt(0)` inside charCodes; it has no contract of its own, and CharCodes states what it contributes |
| `Strings.CharCodes` | lib/string.ts:21-23 | charCodes(s) has |s| numbers, and number i is code unit i of s |
| `Strings.FromCharCode` | lib/string.ts:25-27 | fromCharCode(n) is the one-unit string holding n modulo 2^16 |
| `Strings.FromCharCodes` | lib/string.ts:29-31 | one code unit per number, in order, each reduced modulo 2^16 |
| `Strings.CharCodesRoundTrip` | lib/string.ts:21-31 | fromCharCodes(charCodes(s)) is s |
| `Strings.FromCharCodesRoundTrip` | lib/string.ts:21-31 | charCodes(fromCharCodes(codes)) is codes if and only if every number lies in [0, 0xFFFF] |
| `Strings.FromCharCodeIsSingle` | lib/string.ts:25-31 | fromCharCode(n) is fromCharCodes([n]) |
| `Strings.ReversedChars` | lib/string.ts:5-7 | the reversed chars of s are the chars of the reversed s |
| `Strings.Reverse` | lib/string.ts:5-7 | reverse as written; it has no contract of its own, and ReverseOfEmpty, ReverseInterleavesCommas and ReverseOfAbc state its meaning |
| `Strings.ReverseOfEmpty` | lib/string.ts:5-7 | reverse as written leaves the empty string empty |
| `Strings.ReverseInterleavesCommas` | lib/string.ts:5-7 | reverse as written returns the code units in reverse order at the even positions, with a comma at each odd position |
| `Strings.ReverseOfAbc` | lib/string.ts:5-7 | reverse("abc") as written is "c,b,a", not "cba" |
| `Strings.ReverseCorrected` | lib/string.ts:5-7 | the corrected reverse is the code units in reverse order |
| `Strings.ReverseCorrectedTwice` | lib/string.ts:5-7 | the corrected reverse undoes itself |
| `Strings.Capitalize` | lib/string.ts:13-15 | "" stays ""; otherwise the upper case of the first code unit is followed by the untouched tail |
| `Strings.CapitalizeTouchesOnlyFirst` | lib/string.ts:13-15 | capitalize touches only the first code unit: whatever follows a non-empty string passes through unchanged |
| `Strings.CapitalizeEvery` | lib/string.ts:33-40 | `capitalizeEvery(separator)`; it has no contract of its own, and CapitalizeEveryKeepsWords states its meaning |
| `Strings.CapitalizeEveryKeepsWords` | lib/string.ts:33-40 | with the default `' '` separator the result has as many words as the source, and word i is the capitalized source word i |
| `Demo.GreetingPipeline` | lib/index.ts:7-11 | the demo pipe's value is the greeting, and the inspector receives the greeting exactly once |
| `Demo.TakeWhileOfRange` | lib/array.ts:128-136 | takeWhile(v < 5) of range(0, 10) is [0, 1, 2, 3, 4] |
| `Demo.FilterEvenOfPrefix` | lib/array.ts:72-74 | filtering the even numbers of [0, 1, 2, 3, 4] gives [0, 2, 4] |
| `Demo.TotalOfEvens` | lib/array.ts:80-82 | fold(0, +) of [0, 2, 4] is 6 |
| `Demo.SumOfEvenPrefix` | lib/pipe.ts:104-110 | pipe(range(0, 10), takeWhile(v < 5), filter(even), fold(0, +)) is 6 |

## Left out

- Side effects of callbacks in `forEach` and the three `inspect`s are opaque. The model records only the arguments each of these callbacks receives.
- `Pipes.Lazy` records nothing: it is a plain forwarding function, and what the wrapped function does besides returning a value is not modelled.
- Exceptions thrown by caller-supplied functions are not modelled: every callback is a total Dafny function.
- JavaScript `number` semantics (floating point, NaN, infinities, fractional lengths and indices) are out of scope. `sum`, `range`, `take`, `skip`, `nth` and the char codes use unbounded integers. `fromCharCode` truncation covers whole numbers only.
- `Arrays.Count`: a counter that returns NaN (falsy in JavaScript) is counted as truthy, because integers have no NaN.
- `Arrays.TakeWhile` and `Arrays.SkipWhile` stop at the end of the array. The source reads `source[i]` without a bound, so past the end it tests `undefined`. If the predicate is truthy on `undefined`, the source never terminates, and the model does not capture that.
- `Arrays.FlatMap` models callbacks that return arrays. JavaScript's flatMap keeps a non-array image as one element; that case is not modelled.
- `Strings.Join` joins strings only. The library's `join` converts arbitrary elements with `toString`, which is not modelled.
- `Strings.CapitalizeEvery` takes a string separator. The `RegExp` separator option of `capitalizeEvery` is not modelled.
- `Strings.CapitalizeEveryKeepsWords` assumes that upper-casing a code unit other than a space produces no space. `toUpperCase` is a parameter, not Unicode case mapping.
- `Strings.CharCodes`: `charCodeAt(0)` of an empty string is NaN. `FirstCode` returns -1 in that case, but `CharCodes`'s contract shows that value never reaches a result.
- `Pipes.Pipe`: the model has a homogeneous list of stages plus the typed overloads for one to three stages (`Pipe1`–`Pipe3`). The overloads for four to ten stages follow the same pattern and are not written out.
- `Pipes.Lazy` forwards one argument. Variadic forwarding of any number of arguments is not modelled.
- `Results.Map`: on an `Err` the code returns the same object. The model returns an equal `Err` value, because Dafny datatypes have no object identity.
- Currying is flattened: each combinator takes its configuration and its input in one call.
- The `console.log` call in lib/index.ts is I/O. Only the value of its pipe and the inspector's single call are modelled.

## Findings

| source | as written | input that shows it | evidently intended | confidence | as-written member | corrected member |
|---|---|---|---|---|---|---|
| lib/string.ts:5-7 | `reverse` reverses the characters and then calls `join()`, which separates with a comma | `reverse("abc")` returns `"c,b,a"` | `"cba"`: the characters in reverse order, joined with the empty separator | high; not executed | `Strings.ReverseOfAbc` | `Strings.ReverseCorrected` |
