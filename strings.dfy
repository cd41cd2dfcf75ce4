/** The string combinators of lib/string.ts.

    A JavaScript string is a sequence of UTF-16 code units, lone surrogates
    included, so it is a `seq<CodeUnit>` here rather than a Dafny `string`.
    Upper-casing (String.prototype.toUpperCase) is Unicode case mapping,
    which may change the length of a string; it is a parameter `upper` of
    the combinators that use it. */
module Strings {
  import Arrays

  /** A UTF-16 code unit. */
  newtype CodeUnit = u: int | 0 <= u < 0x1_0000

  /** A JavaScript string. */
  type JsString = seq<CodeUnit>

  /** `','`, the separator Array.prototype.join uses when given none. */
  const Comma: CodeUnit := 0x2C

  /** `' '`, the separator capitalizeEvery joins with (and splits on by default). */
  const Space: CodeUnit := 0x20

  // ------------------------------------------------------------------------
  // split and join

  /** `separator` occurs in `source` starting at index `i`. */
  predicate OccursAt(separator: JsString, source: JsString, i: nat)
  {
    i + |separator| <= |source| && source[i..i + |separator|] == separator
  }

  /** `separator` does not occur anywhere in `word`. */
  ghost predicate Avoids(separator: JsString, word: JsString)
  {
    forall m: nat :: m <= |word| ==> !OccursAt(separator, word, m)
  }

  /** String.prototype.indexOf(separator, from): the first place at or after
      `from` where `separator` occurs, or -1 (IndexOfFirst states this). */
  function IndexOf(separator: JsString, source: JsString, from: nat): (r: int)
    ensures r == -1 || (from <= r && r + |separator| <= |source|)
    decreases |source| - from
  {
    if from + |separator| > |source| then -1
    else if source[from..from + |separator|] == separator then from
    else IndexOf(separator, source, from + 1)
  }

  /** indexOf finds the first occurrence at or after `from`: -1 exactly when
      there is none, and otherwise an occurrence with none before it. */
  lemma {:induction false} IndexOfFirst(separator: JsString, source: JsString, from: nat)
    ensures var r := IndexOf(separator, source, from);
            (r == -1 ==> forall j: nat :: from <= j <= |source| ==> !OccursAt(separator, source, j)) &&
            (r != -1 ==> OccursAt(separator, source, r)) &&
            (r != -1 ==> forall j: nat :: from <= j < r ==> !OccursAt(separator, source, j))
    decreases |source| - from
  {
    if from + |separator| <= |source| && source[from..from + |separator|] != separator {
      IndexOfFirst(separator, source, from + 1);
    }
  }

  /** `split(separator)(source)`, String.prototype.split with a string
      separator: the empty separator cuts the string into its code units
      (none for the empty string); any other separator cuts at each of its
      occurrences, found left to right without overlap, and always gives at
      least one piece. */
  function Split(separator: JsString, source: JsString): (parts: seq<JsString>)
    ensures separator == [] ==> |parts| == |source|
    ensures separator != [] ==> |parts| >= 1
  {
    if separator == [] then seq(|source|, i requires 0 <= i < |source| => [source[i]])
    else SplitOn(separator, source)
  }

  /** Split on a non-empty separator: the piece before its first occurrence,
      then the pieces of what follows that occurrence. */
  function SplitOn(separator: JsString, source: JsString): (parts: seq<JsString>)
    requires separator != []
    ensures |parts| >= 1
    decreases |source|
  {
    var j := IndexOf(separator, source, 0);
    if j == -1 then [source]
    else [source[..j]] + SplitOn(separator, source[j + |separator|..])
  }

  /** `join(separator)(parts)`, Array.prototype.join over strings: the parts
      with the separator between each two of them. */
  function Join(separator: JsString, parts: seq<JsString>): JsString
    decreases |parts|
  {
    if |parts| == 0 then []
    else if |parts| == 1 then parts[0]
    else parts[0] + separator + Join(separator, parts[1..])
  }

  /** Split unfolded once at the first occurrence `j` of a non-empty separator. */
  lemma SplitAtFirst(separator: JsString, source: JsString, j: int)
    requires separator != [] && j == IndexOf(separator, source, 0) && j != -1
    ensures Split(separator, source) == [source[..j]] + Split(separator, source[j + |separator|..])
  {
  }

  /** Join unfolded once at the front of at least two parts. */
  lemma JoinFirst(separator: JsString, first: JsString, rest: seq<JsString>)
    requires rest != []
    ensures Join(separator, [first] + rest) == first + separator + Join(separator, rest)
  {
    assert ([first] + rest)[1..] == rest;
  }

  /** Joining with a separator undoes splitting on it, for every separator. */
  lemma {:induction false} JoinSplit(separator: JsString, source: JsString)
    ensures Join(separator, Split(separator, source)) == source
    decreases |source|
  {
    if separator == [] {
      JoinChars(source);
    } else {
      var j := IndexOf(separator, source, 0);
      if j != -1 {
        var piece, after := source[..j], source[j + |separator|..];
        var rest := Split(separator, after);
        JoinSplit(separator, after);
        SplitAtFirst(separator, source, j);
        JoinFirst(separator, piece, rest);
        assert OccursAt(separator, source, j) by {
          IndexOfFirst(separator, source, 0);
        }
        CutAtOccurrence(separator, source, j);
      }
    }
  }

  /** A string is the part before an occurrence, the occurrence, and the part after it. */
  lemma CutAtOccurrence(separator: JsString, source: JsString, j: nat)
    requires OccursAt(separator, source, j)
    ensures source == source[..j] + separator + source[j + |separator|..]
  {
    assert source == source[..j] + source[j..j + |separator|] + source[j + |separator|..];
  }

  /** The piece in front of the first occurrence of a separator is free of it. */
  lemma PieceBeforeFirstAvoids(separator: JsString, source: JsString, j: int)
    requires separator != [] && 0 <= j && j == IndexOf(separator, source, 0)
    ensures Avoids(separator, source[..j])
  {
    IndexOfFirst(separator, source, 0);
    var piece, k := source[..j], |separator|;
    forall m: nat | m <= |piece|
      ensures !OccursAt(separator, piece, m)
    {
      if m + k <= |piece| {
        assert piece[m..m + k] == source[m..m + k];
        assert !OccursAt(separator, source, m);
      }
    }
  }

  /** Every piece that a non-empty separator cuts out is free of it. */
  lemma {:induction false} SplitPiecesAvoidSeparator(separator: JsString, source: JsString)
    requires separator != []
    ensures forall i :: 0 <= i < |Split(separator, source)| ==> Avoids(separator, Split(separator, source)[i])
    decreases |source|
  {
    var j := IndexOf(separator, source, 0);
    var k := |separator|;
    if j == -1 {
      IndexOfFirst(separator, source, 0);
      assert Split(separator, source) == [source];
    } else {
      var piece := source[..j];
      PieceBeforeFirstAvoids(separator, source, j);
      SplitPiecesAvoidSeparator(separator, source[j + k..]);
      var parts := Split(separator, source);
      assert parts == [piece] + Split(separator, source[j + k..]);
    }
  }

  /** A one-unit separator is avoided exactly by the words that do not contain it. */
  lemma AvoidsUnit(c: CodeUnit, word: JsString)
    ensures Avoids([c], word) <==> c !in word
  {
    if c in word {
      var m :| 0 <= m < |word| && word[m] == c;
      assert OccursAt([c], word, m);
    } else {
      forall m: nat | m <= |word|
        ensures !OccursAt([c], word, m)
      {
        if m + 1 <= |word| {
          assert word[m..m + 1] == [word[m]];
        }
      }
    }
  }

  /** Splitting on a one-unit separator undoes joining with it, when no part
      contains the separator. */
  lemma {:induction false} SplitJoinUnit(c: CodeUnit, parts: seq<JsString>)
    requires |parts| >= 1
    requires forall i :: 0 <= i < |parts| ==> c !in parts[i]
    ensures Split([c], Join([c], parts)) == parts
    decreases |parts|
  {
    var w := parts[0];
    AvoidsUnit(c, w);
    var joined := Join([c], parts);
    var j := IndexOf([c], joined, 0);
    IndexOfFirst([c], joined, 0);
    if |parts| > 1 {
      var rest := parts[1..];
      assert parts == [w] + rest;
      JoinFirst([c], w, rest);
      assert joined[|w|..|w| + 1] == [c];
      assert OccursAt([c], joined, |w|);
      forall m: nat | m < |w|
        ensures !OccursAt([c], joined, m)
      {
        assert joined[m..m + 1] == [w[m]];
      }
      assert j == |w|;
      assert joined[..j] == w && joined[j + 1..] == Join([c], rest);
      SplitJoinUnit(c, rest);
      SplitAtFirst([c], joined, j);
    }
  }

  // ------------------------------------------------------------------------
  // chars, charCodes, fromCharCode, fromCharCodes

  /** `chars(source)`, that is `source.split('')`: one single-unit string per code unit. */
  function Chars(source: JsString): (r: seq<JsString>)
    ensures |r| == |source|
    ensures forall i :: 0 <= i < |source| ==> r[i] == [source[i]]
  {
    Split([], source)
  }

  /** Joining the single-unit strings of chars without a separator gives the string back. */
  lemma {:induction false} JoinChars(source: JsString)
    ensures Join([], Chars(source)) == source
    decreases |source|
  {
    if |source| > 1 {
      assert Chars(source)[1..] == Chars(source[1..]);
      JoinChars(source[1..]);
      assert source == [source[0]] + source[1..];
    }
  }

  /** Joining the single-unit strings of chars with a one-unit separator
      interleaves it between the code units. */
  lemma {:induction false} JoinCharsWith(c: CodeUnit, source: JsString)
    requires source != []
    ensures |Join([c], Chars(source))| == 2 * |source| - 1
    ensures forall i :: 0 <= i < |source| ==> Join([c], Chars(source))[2 * i] == source[i]
    ensures forall i :: 0 <= i < |source| - 1 ==> Join([c], Chars(source))[2 * i + 1] == c
    decreases |source|
  {
    if |source| > 1 {
      var tail := source[1..];
      assert Chars(source)[1..] == Chars(tail);
      JoinCharsWith(c, tail);
      var r := Join([c], Chars(source));
      assert r == [source[0]] + [c] + Join([c], Chars(tail));
      forall i | 1 <= i < |source|
        ensures r[2 * i] == source[i]
      {
        assert r[2 * i] == Join([c], Chars(tail))[2 * (i - 1)];
      }
      forall i | 1 <= i < |source| - 1
        ensures r[2 * i + 1] == c
      {
        assert r[2 * i + 1] == Join([c], Chars(tail))[2 * (i - 1) + 1];
      }
    }
  }

  /** The code unit a number denotes, wrapping modulo 2^16 as String.fromCharCode does (ToUint16). */
  function ToCodeUnit(code: int): (u: CodeUnit)
    ensures u as int == code % 0x1_0000
  {
    (code % 0x1_0000) as CodeUnit
  }

  /** `c.charCodeAt(0)`. For the empty string JavaScript gives NaN, which is
      not modelled: chars never passes an empty string, so the -1 below never
      reaches a result of CharCodes. */
  function FirstCode(c: JsString): int
  {
    if c == [] then -1 else c[0] as int
  }

  /** `charCodes(source)`: the code units of the string as numbers. */
  function CharCodes(source: JsString): (r: seq<int>)
    ensures |r| == |source|
    ensures forall i :: 0 <= i < |source| ==> r[i] == source[i] as int
  {
    Arrays.Map(FirstCode, Chars(source))
  }

  /** `fromCharCode(code)`: the one-unit string for the code, modulo 2^16. */
  function FromCharCode(code: int): (r: JsString)
    ensures |r| == 1 && r[0] as int == code % 0x1_0000
  {
    [ToCodeUnit(code)]
  }

  /** `fromCharCodes(codes)`: one code unit per number, each modulo 2^16. */
  function FromCharCodes(codes: seq<int>): (r: JsString)
    ensures |r| == |codes|
    ensures forall i :: 0 <= i < |codes| ==> r[i] as int == codes[i] % 0x1_0000
  {
    Arrays.Map(ToCodeUnit, codes)
  }

  /** fromCharCodes undoes charCodes. */
  lemma CharCodesRoundTrip(source: JsString)
    ensures FromCharCodes(CharCodes(source)) == source
  {
    var r := FromCharCodes(CharCodes(source));
    assert forall i :: 0 <= i < |source| ==> r[i] == source[i];
  }

  /** charCodes undoes fromCharCodes exactly on the numbers that are code
      units; any other number comes back reduced modulo 2^16. */
  lemma FromCharCodesRoundTrip(codes: seq<int>)
    ensures CharCodes(FromCharCodes(codes)) == codes <==> forall i :: 0 <= i < |codes| ==> 0 <= codes[i] < 0x1_0000
  {
    var r := CharCodes(FromCharCodes(codes));
    if forall i :: 0 <= i < |codes| ==> 0 <= codes[i] < 0x1_0000 {
      assert forall i :: 0 <= i < |codes| ==> r[i] == codes[i];
    } else {
      var i :| 0 <= i < |codes| && !(0 <= codes[i] < 0x1_0000);
      assert r[i] != codes[i];
    }
  }

  /** fromCharCode is fromCharCodes of one number. */
  lemma FromCharCodeIsSingle(code: int)
    ensures FromCharCode(code) == FromCharCodes([code])
  {
  }

  // ------------------------------------------------------------------------
  // reverse

  /** `reverse(source)` as written: `source.split('').reverse().join()`.
      `join()` without an argument separates with a comma, so the code units
      come out reversed with commas between them. */
  function Reverse(source: JsString): JsString
  {
    Join([Comma], Arrays.Reversed(Chars(source)))
  }

  /** The chars of the reversed string are the reversed chars. */
  lemma ReversedChars(source: JsString)
    ensures Arrays.Reversed(Chars(source)) == Chars(Arrays.Reversed(source))
  {
  }

  /** What reverse as written returns: the code units in reverse order at the
      even positions and a comma at every odd position. */
  lemma ReverseInterleavesCommas(source: JsString)
    requires source != []
    ensures |Reverse(source)| == 2 * |source| - 1
    ensures forall i :: 0 <= i < |source| ==> Reverse(source)[2 * i] == source[|source| - 1 - i]
    ensures forall i :: 0 <= i < |source| - 1 ==> Reverse(source)[2 * i + 1] == Comma
  {
    ReversedChars(source);
    JoinCharsWith(Comma, Arrays.Reversed(source));
  }

  /** reverse as written leaves the empty string empty: there is nothing to
      separate. */
  lemma ReverseOfEmpty()
    ensures Reverse([]) == []
  {
  }

  /** The discrepancy on a concrete input: reverse("abc") is "c,b,a", not "cba". */
  lemma ReverseOfAbc()
    ensures Reverse([0x61, 0x62, 0x63]) == [0x63, Comma, 0x62, Comma, 0x61]
    ensures Reverse([0x61, 0x62, 0x63]) != Arrays.Reversed([0x61, 0x62, 0x63])
  {
    var abc: JsString := [0x61, 0x62, 0x63];
    ReverseInterleavesCommas(abc);
    assert Reverse(abc)[1] == Comma != Arrays.Reversed(abc)[1];
  }

  /** reverse as evidently intended: the code units in reverse order, joined
      with the empty separator. */
  function ReverseCorrected(source: JsString): (r: JsString)
    ensures r == Arrays.Reversed(source)
  {
    ReversedChars(source);
    JoinChars(Arrays.Reversed(source));
    Join([], Arrays.Reversed(Chars(source)))
  }

  /** The corrected reverse undoes itself. */
  lemma ReverseCorrectedTwice(source: JsString)
    ensures ReverseCorrected(ReverseCorrected(source)) == source
  {
    Arrays.ReversedTwice(source);
  }

  // ------------------------------------------------------------------------
  // capitalize, capitalizeEvery

  /** `capitalize(source)`: `source.charAt(0).toUpperCase() + source.slice(1)`.
      For the empty string `charAt(0)` is `""`, whose upper case is `""`. */
  function Capitalize(upper: JsString -> JsString, source: JsString): (r: JsString)
    ensures source == [] ==> r == []
    ensures source != [] ==> r == upper([source[0]]) + source[1..]
  {
    if source == [] then []
    else
      assert source[..1] == [source[0]];
      upper(source[..1]) + source[1..]
  }

  /** capitalize touches only the first code unit: whatever follows a
      non-empty string passes through unchanged. */
  lemma CapitalizeTouchesOnlyFirst(upper: JsString -> JsString, front: JsString, back: JsString)
    requires front != []
    ensures Capitalize(upper, front + back) == Capitalize(upper, front) + back
  {
    var head := upper([front[0]]);
    assert (front + back)[0] == front[0];
    assert (front + back)[1..] == front[1..] + back;
    assert head + (front[1..] + back) == (head + front[1..]) + back;
  }

  /** The capitalizing callback of capitalizeEvery. */
  function CapitalizeWith(upper: JsString -> JsString): JsString -> JsString
  {
    word => Capitalize(upper, word)
  }

  /** `capitalizeEvery(separator)(source)`: the pieces of `source` cut at
      `separator`, each capitalized, joined with a space. */
  function CapitalizeEvery(upper: JsString -> JsString, separator: JsString, source: JsString): JsString
  {
    Join([Space], Arrays.Map(CapitalizeWith(upper), Split(separator, source)))
  }

  /** With the default separator `' '`, capitalizeEvery keeps the words: the
      result has as many space-separated words as the source, and each is the
      capitalized source word. This needs only that upper-casing a code unit
      other than a space produces no space. */
  lemma CapitalizeEveryKeepsWords(upper: JsString -> JsString, source: JsString)
    requires forall u: CodeUnit :: u != Space ==> Space !in upper([u])
    ensures |Split([Space], CapitalizeEvery(upper, [Space], source))| == |Split([Space], source)|
    ensures forall i :: 0 <= i < |Split([Space], source)| ==>
              Split([Space], CapitalizeEvery(upper, [Space], source))[i] == Capitalize(upper, Split([Space], source)[i])
  {
    var words := Split([Space], source);
    var capitalized := Arrays.Map(CapitalizeWith(upper), words);
    SplitPiecesAvoidSeparator([Space], source);
    forall i | 0 <= i < |capitalized|
      ensures Space !in capitalized[i]
    {
      var w := words[i];
      AvoidsUnit(Space, w);
      if w != [] {
        assert w[0] in w;
        assert Space !in upper([w[0]]);
        assert forall x :: x in w[1..] ==> x in w;
      }
    }
    SplitJoinUnit(Space, capitalized);
  }
}
