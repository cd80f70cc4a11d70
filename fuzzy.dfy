/** Bigram Dice similarity (src/utils/fuzzyMatcher.js): how close a
    keyword is to a message when it is not literally contained in it. */
module Fuzzy {
  import opened Strs
  import opened Text

  /** The default similarity a fuzzy keyword match needs. */
  const FuzzyThreshold: real := 0.82

  /** The bigram list of a text: its normal form's consecutive two-character
      slices, or the normal form alone when it is shorter than two. */
  function Bigrams(value: string): (r: seq<string>)
    ensures |r| >= 1
  {
    var n := NormalizeText(value);
    if |n| < 2 then [n] else seq(|n| - 1, i requires 0 <= i < |n| - 1 => n[i..i + 2])
  }

  /** For a normal form of length n >= 2 the bigrams are the n - 1
      consecutive two-character slices in order; otherwise the normal form
      alone. */
  lemma BigramsShape(value: string)
    ensures |NormalizeText(value)| < 2 ==> Bigrams(value) == [NormalizeText(value)]
    ensures |NormalizeText(value)| >= 2 ==>
      |Bigrams(value)| == |NormalizeText(value)| - 1
      && forall i :: 0 <= i < |Bigrams(value)| ==>
           |Bigrams(value)[i]| == 2 && OccursAt(NormalizeText(value), Bigrams(value)[i], i)
  {
    var n := NormalizeText(value);
    if |n| >= 2 {
      var b := Bigrams(value);
      assert b == seq(|n| - 1, i requires 0 <= i < |n| - 1 => n[i..i + 2]);
      forall i | 0 <= i < |b| ensures |b[i]| == 2 && OccursAt(n, b[i], i) {
        assert b[i] == n[i..i + 2];
      }
    }
  }

  /** buildBigrams: the normal form alone when it is shorter than two,
      otherwise its slices pushed by the `for` loop. */
  method BuildBigrams(value: string) returns (bigrams: seq<string>)
    ensures bigrams == Bigrams(value)
  {
    var normalized := NormalizeText(value);
    if |normalized| < 2 {
      return [normalized];
    }
    bigrams := PushPairs(normalized);
  }

  /** The `for` loop of buildBigrams: each two-character slice in turn. */
  method PushPairs(normalized: string) returns (bigrams: seq<string>)
    requires |normalized| >= 2
    ensures |bigrams| == |normalized| - 1
    ensures forall k :: 0 <= k < |bigrams| ==> bigrams[k] == normalized[k..k + 2]
  {
    bigrams := [];
    var i := 0;
    while i < |normalized| - 1
      invariant 0 <= i <= |normalized| - 1
      invariant |bigrams| == i
      invariant forall k :: 0 <= k < i ==> bigrams[k] == normalized[k..k + 2]
    {
      bigrams := bigrams + [normalized[i..i + 2]];
      i := i + 1;
    }
  }

  /** The matches the second loop of diceCoefficient counts: each bigram of
      `a` in turn consumes one equal bigram still left in `remaining`. */
  function Matches(a: seq<string>, remaining: multiset<string>): (r: nat)
    ensures r <= |a| && r <= |remaining|
    decreases |a|
  {
    if a == [] then 0
    else if a[0] in remaining then 1 + Matches(a[1..], remaining - multiset{a[0]})
    else Matches(a[1..], remaining)
  }

  /** Greedy consumption counts exactly the common bigrams, multiplicities
      included: the size of the multiset intersection. */
  lemma {:induction false} MatchesIsIntersection(a: seq<string>, remaining: multiset<string>)
    ensures Matches(a, remaining) == |multiset(a) * remaining|
    decreases |a|
  {
    if a != [] {
      var x, rest := a[0], a[1..];
      assert a == [x] + rest;
      assert multiset(a) == multiset{x} + multiset(rest);
      if x in remaining {
        MatchesIsIntersection(rest, remaining - multiset{x});
        assert multiset(a) * remaining == multiset{x} + multiset(rest) * (remaining - multiset{x});
      } else {
        MatchesIsIntersection(rest, remaining);
        assert multiset(a) * remaining == multiset(rest) * remaining;
      }
    }
  }

  /** The common bigrams are no more than either side has. */
  lemma CommonBound(a: seq<string>, b: seq<string>)
    ensures |multiset(a) * multiset(b)| <= |a|
    ensures |multiset(a) * multiset(b)| <= |b|
  {
    MatchesIsIntersection(a, multiset(b));
    MatchesIsIntersection(b, multiset(a));
    assert multiset(a) * multiset(b) == multiset(b) * multiset(a);
  }

  /** Twice a common part over the total lies in [0, 1]. */
  function Ratio(c: nat, x: nat, y: nat): (r: real)
    requires c <= x && c <= y && x + y > 0
    ensures 0.0 <= r <= 1.0
  {
    var num, den := (2 * c) as real, (x + y) as real;
    DivideBounds(num, den);
    num / den
  }

  /** A quotient of a non-negative number by a larger positive one lies
      in [0, 1]. */
  lemma DivideBounds(num: real, den: real)
    requires 0.0 <= num <= den && den > 0.0
    ensures 0.0 <= num / den <= 1.0
  {
    var q := num / den;
    assert q * den == num;
  }

  /** The Sorensen-Dice coefficient of the two bigram lists: twice the
      common bigrams over the total number of bigrams. */
  function Dice(a: string, b: string): (r: real)
    ensures 0.0 <= r <= 1.0
  {
    var ba := Bigrams(a);
    var bb := Bigrams(b);
    if |ba| == 0 || |bb| == 0 then 0.0
    else
      var common := |multiset(ba) * multiset(bb)|;
      CommonBound(ba, bb);
      Ratio(common, |ba|, |bb|)
  }

  /** `bMap.get(bg) || 0`. */
  function Count(m: map<string, int>, k: string): int
  {
    if k in m then m[k] else 0
  }

  /** diceCoefficient: the bigram lists of both texts, then the ratio of
      their common bigrams. */
  method DiceCoefficient(a: string, b: string) returns (d: real)
    ensures d == Dice(a, b)
  {
    var aBigrams := BuildBigrams(a);
    var bBigrams := BuildBigrams(b);
    if |aBigrams| == 0 || |bBigrams| == 0 {
      // buildBigrams never returns an empty list, so this guard is dead.
      assert false;
      return 0.0;
    }
    var matches := CountMatches(aBigrams, bBigrams);
    CommonBound(aBigrams, bBigrams);
    d := Ratio(matches, |aBigrams|, |bBigrams|);
  }

  /** The first loop of diceCoefficient: the count of each bigram of `b`. */
  method CountBigrams(bBigrams: seq<string>) returns (bMap: map<string, int>)
    ensures forall k :: Count(bMap, k) == multiset(bBigrams)[k]
  {
    bMap := map[];
    var i := 0;
    while i < |bBigrams|
      invariant 0 <= i <= |bBigrams|
      invariant forall k :: Count(bMap, k) == multiset(bBigrams[..i])[k]
    {
      assert bBigrams[..i + 1] == bBigrams[..i] + [bBigrams[i]];
      bMap := bMap[bBigrams[i] := Count(bMap, bBigrams[i]) + 1];
      i := i + 1;
    }
    assert bBigrams[..i] == bBigrams;
  }

  /** The matches the second loop of diceCoefficient counts, stated on
      its count map: a bigram with a positive count matches and uses up
      one count. */
  function MapMatches(a: seq<string>, m: map<string, int>): nat
    decreases |a|
  {
    if a == [] then 0
    else if Count(m, a[0]) > 0 then 1 + MapMatches(a[1..], m[a[0] := Count(m, a[0]) - 1])
    else MapMatches(a[1..], m)
  }

  /** On counts that agree with a multiset, the map matches are the
      greedy multiset matches. */
  lemma {:induction false} MapMatchesIsMatches(a: seq<string>, m: map<string, int>, remaining: multiset<string>)
    requires forall k :: Count(m, k) == remaining[k]
    ensures MapMatches(a, m) == Matches(a, remaining)
    decreases |a|
  {
    if a != [] {
      if Count(m, a[0]) > 0 {
        ConsumeOne(m, remaining, a[0]);
        MapMatchesIsMatches(a[1..], m[a[0] := Count(m, a[0]) - 1], remaining - multiset{a[0]});
      } else {
        assert a[0] !in remaining;
        MapMatchesIsMatches(a[1..], m, remaining);
      }
    }
  }

  /** The second loop of diceCoefficient: each bigram of `a` consumes one
      count, and the consumed ones are the matches. */
  method CountMatches(aBigrams: seq<string>, bBigrams: seq<string>) returns (matches: nat)
    ensures matches == |multiset(aBigrams) * multiset(bBigrams)|
  {
    var bMap := CountBigrams(bBigrams);
    ghost var counts := bMap;
    matches := 0;
    var j := 0;
    while j < |aBigrams|
      invariant 0 <= j <= |aBigrams|
      invariant matches + MapMatches(aBigrams[j..], bMap) == MapMatches(aBigrams, counts)
    {
      var bg := aBigrams[j];
      assert aBigrams[j..][0] == bg && aBigrams[j..][1..] == aBigrams[j + 1..];
      var count := Count(bMap, bg);
      if count > 0 {
        matches := matches + 1;
        bMap := bMap[bg := count - 1];
      }
      j := j + 1;
    }
    assert aBigrams[j..] == [];
    MapMatchesIsMatches(aBigrams, counts, multiset(bBigrams));
    MatchesIsIntersection(aBigrams, multiset(bBigrams));
  }

  /** Taking one occurrence of a counted bigram keeps the counts equal
      to what remains. */
  lemma ConsumeOne(bMap: map<string, int>, remaining: multiset<string>, bg: string)
    requires forall k :: Count(bMap, k) == remaining[k]
    requires Count(bMap, bg) > 0
    ensures bg in remaining
    ensures forall k :: Count(bMap[bg := Count(bMap, bg) - 1], k) == (remaining - multiset{bg})[k]
  {
    assert remaining[bg] > 0;
    forall k ensures Count(bMap[bg := Count(bMap, bg) - 1], k) == (remaining - multiset{bg})[k] {
      if k != bg {
        assert Count(bMap[bg := Count(bMap, bg) - 1], k) == Count(bMap, k);
      }
    }
  }

  /** Dice is symmetric. */
  lemma DiceSymmetric(a: string, b: string)
    ensures Dice(a, b) == Dice(b, a)
  {
    assert multiset(Bigrams(a)) * multiset(Bigrams(b)) == multiset(Bigrams(b)) * multiset(Bigrams(a));
  }

  /** Every text is fully similar to itself. */
  lemma DiceSelf(a: string)
    ensures Dice(a, a) == 1.0
  {
    var ba := Bigrams(a);
    assert multiset(ba) * multiset(ba) == multiset(ba);
    RatioOfWhole(|ba|);
  }

  lemma RatioOfWhole(n: nat)
    requires n > 0
    ensures Ratio(n, n, n) == 1.0
  {
    var den := (n + n) as real;
    assert Ratio(n, n, n) * den == den;
  }

  /** Because the bigram list is never empty, two empty texts compare as
      equal and an empty text is not similar to a one-letter one. */
  lemma DiceOfEmpty()
    ensures Dice("", "") == 1.0
    ensures Dice("", "x") == 0.0
  {
    DiceSelf("");
    NormalizeFixes("x");
    assert Bigrams("") == [""] by { NormalizeFixes(""); }
    assert Bigrams("x") == ["x"];
    assert multiset([""]) * multiset(["x"]) == multiset{};
  }

  /** fuzzyIncludes: false for an empty side, true for a literal hit, and
      otherwise a Dice comparison with the threshold. */
  function FuzzyIncludes(needle: string, haystack: string, threshold: real): (r: bool)
    ensures NormalizeText(needle) == "" || NormalizeText(haystack) == "" ==> !r
    ensures (NormalizeText(needle) != "" && NormalizeText(haystack) != ""
      && Contains(NormalizeText(haystack), NormalizeText(needle))) ==> r
  {
    var normalizedNeedle := NormalizeText(needle);
    var normalizedHaystack := NormalizeText(haystack);
    if normalizedNeedle == "" || normalizedHaystack == "" then false
    else if Contains(normalizedHaystack, normalizedNeedle) then true
    else Dice(normalizedNeedle, normalizedHaystack) >= threshold
  }

  /** Lowering the threshold never turns a fuzzy match off. */
  lemma FuzzyThresholdMonotone(needle: string, haystack: string, low: real, high: real)
    requires low <= high
    requires FuzzyIncludes(needle, haystack, high)
    ensures FuzzyIncludes(needle, haystack, low)
  {
  }

  /** Above 1 only the literal test can succeed, and at or below 0 every
      pair of non-empty texts matches. */
  lemma FuzzyThresholdExtremes(needle: string, haystack: string, threshold: real)
    ensures threshold > 1.0 ==>
      (FuzzyIncludes(needle, haystack, threshold) <==>
        NormalizeText(needle) != "" && NormalizeText(haystack) != ""
        && Contains(NormalizeText(haystack), NormalizeText(needle)))
    ensures threshold <= 0.0 ==>
      (FuzzyIncludes(needle, haystack, threshold) <==>
        NormalizeText(needle) != "" && NormalizeText(haystack) != "")
  {
  }

  /** A text that normalises to something non-empty fuzzily includes
      itself at every threshold. */
  lemma FuzzySelf(text: string, threshold: real)
    requires NormalizeText(text) != ""
    ensures FuzzyIncludes(text, text, threshold)
  {
    ContainsSelf(NormalizeText(text));
  }
}
