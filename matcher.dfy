/** Scoring and ranking (src/services/queryMatcher.js): a token-overlap
    score with bonuses for the title and the keywords found in the
    message, and the ranking that keeps at most three matches above an
    adaptive floor. Scores are exact reals. */
module Matcher {
  import opened Strs
  import opened Records
  import opened Text
  import opened Fuzzy
  import opened Context

  const TitleBonus: real := 0.15
  const KeywordBonus: real := 0.08
  const FuzzyBonus: real := 0.05
  /** The absolute floor of a match. */
  const MatchFloor: real := 0.18
  /** The share of the top score a match must reach. */
  const RelativeFloor: real := 0.6
  const MaxMatches: nat := 3

  function Max(a: nat, b: nat): (r: nat)
    ensures r >= a && r >= b && (r == a || r == b)
  {
    if a >= b then a else b
  }

  /** How many user-token occurrences are in the entry's token set,
      duplicates counted. */
  function Overlap(userTokens: seq<string>, tokens: set<string>): (r: nat)
    ensures r <= |userTokens|
  {
    if userTokens == [] then 0
    else
      var last := userTokens[|userTokens| - 1];
      Overlap(userTokens[..|userTokens| - 1], tokens) + (if last in tokens then 1 else 0)
  }

  /** Every occurrence counts: when all user tokens are indexed the
      overlap is their number, and when none is it is zero. */
  lemma {:induction false} OverlapExtremes(userTokens: seq<string>, tokens: set<string>)
    ensures (forall k :: 0 <= k < |userTokens| ==> userTokens[k] in tokens) ==> Overlap(userTokens, tokens) == |userTokens|
    ensures (forall k :: 0 <= k < |userTokens| ==> userTokens[k] !in tokens) ==> Overlap(userTokens, tokens) == 0
    decreases |userTokens|
  {
    if userTokens != [] {
      var init := userTokens[..|userTokens| - 1];
      assert forall k :: 0 <= k < |init| ==> init[k] == userTokens[k];
      OverlapExtremes(init, tokens);
    }
  }

  /** overlap / max(n, 4). */
  function BaseScore(overlap: nat, n: nat): real
  {
    overlap as real / Max(n, 4) as real
  }

  /** The base score is at most 1, and at most n/4 below four tokens. */
  lemma BaseScoreBounds(overlap: nat, n: nat)
    requires overlap <= n
    ensures 0.0 <= BaseScore(overlap, n) <= 1.0
    ensures n < 4 ==> BaseScore(overlap, n) <= n as real / 4.0
  {
    DivideBounds(overlap as real, Max(n, 4) as real);
    if n < 4 {
      assert BaseScore(overlap, n) == overlap as real / 4.0;
      assert overlap as real / 4.0 <= n as real / 4.0;
    }
  }

  /** +0.15 when the normalised title is non-empty and in the message. */
  function TitleScore(title: string, normalizedMessage: string): real
  {
    var titleNormalized := NormalizeText(title);
    if titleNormalized != "" && Contains(normalizedMessage, titleNormalized) then TitleBonus else 0.0
  }

  /** +0.08 for a literal keyword hit, +0.05 for a fuzzy one. */
  function KeywordScore(keyword: string, normalizedMessage: string): real
  {
    var keywordNormalized := NormalizeText(keyword);
    (if keywordNormalized != "" && Contains(normalizedMessage, keywordNormalized) then KeywordBonus else 0.0)
    + (if FuzzyIncludes(keywordNormalized, normalizedMessage, FuzzyThreshold) then FuzzyBonus else 0.0)
  }

  function KeywordsScore(keywords: seq<string>, normalizedMessage: string): (r: real)
    ensures 0.0 <= r <= (KeywordBonus + FuzzyBonus) * |keywords| as real
  {
    if keywords == [] then 0.0
    else
      KeywordsScore(keywords[..|keywords| - 1], normalizedMessage)
      + KeywordScore(keywords[|keywords| - 1], normalizedMessage)
  }

  /** A keyword found literally in a normalised message is also found
      fuzzily, so it adds 0.13. */
  lemma LiteralKeywordAddsBoth(keyword: string, message: string)
    requires NormalizeText(keyword) != ""
    requires Contains(NormalizeText(message), NormalizeText(keyword))
    ensures KeywordScore(keyword, NormalizeText(message)) == KeywordBonus + FuzzyBonus
  {
    NormalizeIdempotent(keyword);
    NormalizeIdempotent(message);
  }

  /** The score before the clamp. */
  function RawScore(item: Indexed, userTokens: seq<string>, normalizedMessage: string): real
  {
    BaseScore(Overlap(userTokens, item.tokens), |userTokens|)
    + TitleScore(item.entry.title, normalizedMessage)
    + KeywordsScore(item.entry.keywords, normalizedMessage)
  }

  /** scoreEntry as a value: 0 without user tokens, else the raw score
      clamped to 1. */
  function Score(item: Indexed, userTokens: seq<string>, normalizedMessage: string): (r: real)
    ensures 0.0 <= r <= 1.0
    ensures userTokens == [] ==> r == 0.0
    ensures userTokens != [] ==> r <= RawScore(item, userTokens, normalizedMessage)
    ensures userTokens != [] && RawScore(item, userTokens, normalizedMessage) <= 1.0 ==>
      r == RawScore(item, userTokens, normalizedMessage)
  {
    if userTokens == [] then 0.0
    else
      var raw := RawScore(item, userTokens, normalizedMessage);
      BaseScoreBounds(Overlap(userTokens, item.tokens), |userTokens|);
      if raw < 1.0 then raw else 1.0
  }

  /** scoreEntry: the two `forEach` loops of the source, then the clamp. */
  method ScoreEntry(item: Indexed, userTokens: seq<string>, normalizedMessage: string) returns (score: real)
    ensures score == Score(item, userTokens, normalizedMessage)
  {
    if |userTokens| == 0 {
      return 0.0;
    }
    var overlap := CountOverlap(userTokens, item.tokens);
    score := overlap as real / Max(|userTokens|, 4) as real;
    var titleNormalized := NormalizeText(item.entry.title);
    if titleNormalized != "" && Contains(normalizedMessage, titleNormalized) {
      score := score + TitleBonus;
    }
    score := AddKeywordBonuses(score, item.entry.keywords, normalizedMessage);
    if score > 1.0 {
      score := 1.0;
    }
  }

  /** The overlap loop. */
  method CountOverlap(userTokens: seq<string>, tokens: set<string>) returns (overlap: nat)
    ensures overlap == Overlap(userTokens, tokens)
  {
    overlap := 0;
    for i := 0 to |userTokens|
      invariant overlap == Overlap(userTokens[..i], tokens)
    {
      assert userTokens[..i + 1][..i] == userTokens[..i];
      if userTokens[i] in tokens {
        overlap := overlap + 1;
      }
    }
    assert userTokens[..|userTokens|] == userTokens;
  }

  /** The keyword loop, adding to the score so far. */
  method AddKeywordBonuses(start: real, keywords: seq<string>, normalizedMessage: string) returns (score: real)
    ensures score == start + KeywordsScore(keywords, normalizedMessage)
  {
    score := start;
    for k := 0 to |keywords|
      invariant score == start + KeywordsScore(keywords[..k], normalizedMessage)
    {
      assert keywords[..k + 1][..k] == keywords[..k];
      var keywordNormalized := NormalizeText(keywords[k]);
      if keywordNormalized != "" && Contains(normalizedMessage, keywordNormalized) {
        score := score + KeywordBonus;
      }
      if FuzzyIncludes(keywordNormalized, normalizedMessage, FuzzyThreshold) {
        score := score + FuzzyBonus;
      }
    }
    assert keywords[..|keywords|] == keywords;
  }

  /** Non-increasing by score. */
  predicate Sorted<T>(s: seq<Scored<T>>)
  {
    forall i, j :: 0 <= i < j < |s| ==> s[i].score >= s[j].score
  }

  /** No score above `v`. */
  predicate AllAtMost<T>(s: seq<Scored<T>>, v: real)
  {
    forall i :: 0 <= i < |s| ==> s[i].score <= v
  }

  lemma SortedCons<T>(x: Scored<T>, s: seq<Scored<T>>)
    requires Sorted(s) && AllAtMost(s, x.score)
    ensures Sorted([x] + s)
  {
    var r := [x] + s;
    forall i, j | 0 <= i < j < |r| ensures r[i].score >= r[j].score {
      assert r[j] == s[j - 1];
      if i > 0 {
        assert r[i] == s[i - 1];
      }
    }
  }

  lemma SortedTail<T>(s: seq<Scored<T>>)
    requires Sorted(s) && s != []
    ensures Sorted(s[1..]) && AllAtMost(s[1..], s[0].score)
  {
    forall i | 0 <= i < |s[1..]| ensures s[1..][i].score <= s[0].score {
      assert s[1..][i] == s[i + 1];
    }
    forall i, j | 0 <= i < j < |s[1..]| ensures s[1..][i].score >= s[1..][j].score {
      assert s[1..][i] == s[i + 1] && s[1..][j] == s[j + 1];
    }
  }

  /** One step of a stable sort by descending score: `x` goes before the
      first element that does not score higher. */
  function Insert<T>(x: Scored<T>, l: seq<Scored<T>>): (r: seq<Scored<T>>)
    ensures |r| == |l| + 1
  {
    if l == [] || l[0].score <= x.score then [x] + l
    else [l[0]] + Insert(x, l[1..])
  }

  lemma {:induction false} InsertBounded<T>(x: Scored<T>, l: seq<Scored<T>>, v: real)
    requires AllAtMost(l, v) && x.score <= v
    ensures AllAtMost(Insert(x, l), v)
  {
    if l != [] && l[0].score > x.score {
      assert AllAtMost(l[1..], v) by {
        forall i | 0 <= i < |l[1..]| ensures l[1..][i].score <= v {
          assert l[1..][i] == l[i + 1];
        }
      }
      InsertBounded(x, l[1..], v);
      var r := Insert(x, l);
      forall i | 0 <= i < |r| ensures r[i].score <= v {
        if i > 0 {
          assert r[i] == Insert(x, l[1..])[i - 1];
        }
      }
    }
  }

  /** Inserting adds one element and keeps the order. */
  lemma {:induction false} InsertFacts<T>(x: Scored<T>, l: seq<Scored<T>>)
    ensures multiset(Insert(x, l)) == multiset(l) + multiset{x}
    ensures Sorted(l) ==> Sorted(Insert(x, l))
  {
    if l == [] || l[0].score <= x.score {
      if Sorted(l) {
        if l != [] {
          SortedTail(l);
          assert AllAtMost(l, x.score) by {
            forall i | 0 <= i < |l| ensures l[i].score <= x.score {
              if i > 0 {
                assert l[1..][i - 1] == l[i];
              }
            }
          }
        }
        SortedCons(x, l);
      }
    } else {
      var rest := Insert(x, l[1..]);
      InsertFacts(x, l[1..]);
      assert l == [l[0]] + l[1..];
      if Sorted(l) {
        SortedTail(l);
        InsertBounded(x, l[1..], l[0].score);
        SortedCons(l[0], rest);
      }
    }
  }

  /** `.sort((a, b) => b.score - a.score)`, which is stable. */
  function SortByScore<T>(s: seq<Scored<T>>): (r: seq<Scored<T>>)
    ensures |r| == |s|
  {
    if s == [] then [] else Insert(s[0], SortByScore(s[1..]))
  }

  /** The sort is a permutation into non-increasing order. */
  lemma {:induction false} SortFacts<T>(s: seq<Scored<T>>)
    ensures multiset(SortByScore(s)) == multiset(s)
    ensures Sorted(SortByScore(s))
  {
    if s != [] {
      SortFacts(s[1..]);
      InsertFacts(s[0], SortByScore(s[1..]));
      assert s == [s[0]] + s[1..];
    }
  }

  /** The entries scoring exactly `v`, in their order. */
  function WithScore<T>(s: seq<Scored<T>>, v: real): seq<Scored<T>>
  {
    if s == [] then [] else Keep(s[0], v) + WithScore(s[1..], v)
  }

  /** `x` alone when it scores `v`, nothing otherwise. */
  function Keep<T>(x: Scored<T>, v: real): seq<Scored<T>>
  {
    if x.score == v then [x] else []
  }

  /** Inserting puts `x` before every entry of equal score. */
  lemma {:induction false} InsertStable<T>(x: Scored<T>, l: seq<Scored<T>>, v: real)
    ensures WithScore(Insert(x, l), v) == Keep(x, v) + WithScore(l, v)
  {
    if l == [] || l[0].score <= x.score {
      assert ([x] + l)[0] == x && ([x] + l)[1..] == l;
    } else {
      var rest := Insert(x, l[1..]);
      InsertStable(x, l[1..], v);
      assert ([l[0]] + rest)[0] == l[0] && ([l[0]] + rest)[1..] == rest;
      assert Keep(l[0], v) == [] || Keep(x, v) == [];
      calc {
        WithScore(Insert(x, l), v);
        Keep(l[0], v) + WithScore(rest, v);
        Keep(l[0], v) + (Keep(x, v) + WithScore(l[1..], v));
        Keep(x, v) + (Keep(l[0], v) + WithScore(l[1..], v));
      }
    }
  }

  /** The sort is stable: entries of equal score keep their input order. */
  lemma {:induction false} SortStable<T>(s: seq<Scored<T>>, v: real)
    ensures WithScore(SortByScore(s), v) == WithScore(s, v)
  {
    if s != [] {
      SortStable(s[1..], v);
      InsertStable(s[0], SortByScore(s[1..]), v);
    }
  }

  /** `.filter((item) => item.score >= floor)`. */
  function AtLeast<T>(s: seq<Scored<T>>, floor: real): (r: seq<Scored<T>>)
    ensures |r| <= |s|
  {
    if s == [] then []
    else if s[0].score >= floor then [s[0]] + AtLeast(s[1..], floor)
    else AtLeast(s[1..], floor)
  }

  lemma {:induction false} AtLeastSub<T>(s: seq<Scored<T>>, floor: real)
    ensures multiset(AtLeast(s, floor)) <= multiset(s)
  {
    if s != [] {
      AtLeastSub(s[1..], floor);
      assert s == [s[0]] + s[1..];
    }
  }

  lemma {:induction false} AtLeastAbove<T>(s: seq<Scored<T>>, floor: real)
    ensures forall i :: 0 <= i < |AtLeast(s, floor)| ==> AtLeast(s, floor)[i].score >= floor
    ensures s != [] && s[0].score >= floor ==> AtLeast(s, floor) != [] && AtLeast(s, floor)[0] == s[0]
  {
    if s != [] {
      AtLeastAbove(s[1..], floor);
      var rest := AtLeast(s[1..], floor);
      if s[0].score >= floor {
        var r := AtLeast(s, floor);
        forall i | 0 <= i < |r| ensures r[i].score >= floor {
          if i > 0 {
            assert r[i] == rest[i - 1];
          }
        }
      }
    }
  }

  lemma {:induction false} AtLeastBounded<T>(s: seq<Scored<T>>, floor: real, v: real)
    requires AllAtMost(s, v)
    ensures AllAtMost(AtLeast(s, floor), v)
  {
    if s != [] {
      assert AllAtMost(s[1..], v) by {
        forall i | 0 <= i < |s[1..]| ensures s[1..][i].score <= v {
          assert s[1..][i] == s[i + 1];
        }
      }
      AtLeastBounded(s[1..], floor, v);
      var rest := AtLeast(s[1..], floor);
      if s[0].score >= floor {
        var r := AtLeast(s, floor);
        forall i | 0 <= i < |r| ensures r[i].score <= v {
          if i > 0 {
            assert r[i] == rest[i - 1];
          }
        }
      }
    }
  }

  lemma {:induction false} AtLeastSorted<T>(s: seq<Scored<T>>, floor: real)
    requires Sorted(s)
    ensures Sorted(AtLeast(s, floor))
  {
    if s != [] {
      SortedTail(s);
      AtLeastSorted(s[1..], floor);
      if s[0].score >= floor {
        AtLeastBounded(s[1..], floor, s[0].score);
        SortedCons(s[0], AtLeast(s[1..], floor));
      }
    }
  }

  /** The filter is exact: it keeps every copy of each element at or
      above the floor and nothing else. */
  lemma {:induction false} AtLeastCounts<T>(s: seq<Scored<T>>, floor: real)
    ensures forall x :: multiset(AtLeast(s, floor))[x] == if x.score >= floor then multiset(s)[x] else 0
  {
    if s != [] {
      AtLeastCounts(s[1..], floor);
      assert s == [s[0]] + s[1..];
    }
  }

  /** Every element at or above the floor is kept. */
  lemma AtLeastComplete<T>(s: seq<Scored<T>>, floor: real)
    ensures forall i :: 0 <= i < |s| && s[i].score >= floor ==> s[i] in AtLeast(s, floor)
  {
    AtLeastCounts(s, floor);
    forall i | 0 <= i < |s| && s[i].score >= floor ensures s[i] in AtLeast(s, floor) {
      assert s[i] in multiset(s);
      assert multiset(AtLeast(s, floor))[s[i]] > 0;
    }
  }

  /** On a sorted list the filter keeps a prefix: the elements before its
      length reach the floor and those after it do not. */
  lemma {:induction false} AtLeastSortedPrefix<T>(s: seq<Scored<T>>, floor: real)
    requires Sorted(s)
    ensures AtLeast(s, floor) == s[..|AtLeast(s, floor)|]
    ensures forall i :: 0 <= i < |s| ==> (s[i].score >= floor <==> i < |AtLeast(s, floor)|)
  {
    if s != [] {
      SortedTail(s);
      AtLeastSortedPrefix(s[1..], floor);
      var rest := AtLeast(s[1..], floor);
      if s[0].score >= floor {
        assert s[..1 + |rest|] == [s[0]] + s[1..][..|rest|];
        forall i | 0 < i < |s| ensures s[i].score >= floor <==> i < 1 + |rest| {
          assert s[i] == s[1..][i - 1];
        }
      } else {
        if |s| > 1 {
          assert s[1..][0].score <= s[0].score;
        }
        forall i | 0 <= i < |s| ensures s[i].score < floor {
          if i > 0 {
            assert s[i] == s[1..][i - 1];
          }
        }
      }
    }
  }

  /** max(0.18, 0.6 · topScore). */
  function Floor(topScore: real): (r: real)
    ensures r >= MatchFloor && r >= RelativeFloor * topScore
    ensures r == MatchFloor || r == RelativeFloor * topScore
  {
    if MatchFloor >= RelativeFloor * topScore then MatchFloor else RelativeFloor * topScore
  }

  /** `scored[0]?.score || 0`. */
  function Top<T>(ranked: seq<Scored<T>>): real
  {
    if ranked == [] then 0.0 else ranked[0].score
  }

  /** `.filter(score >= floor).slice(0, 3)` over the ranked list. */
  function Select<T>(ranked: seq<Scored<T>>): (r: seq<Scored<T>>)
    ensures |r| <= MaxMatches
  {
    var kept := AtLeast(ranked, Floor(Top(ranked)));
    if |kept| <= MaxMatches then kept else kept[..MaxMatches]
  }

  /** The selection of a sorted list is sorted. */
  lemma SelectSorted<T>(ranked: seq<Scored<T>>)
    requires Sorted(ranked)
    ensures Sorted(Select(ranked))
  {
    AtLeastSorted(ranked, Floor(Top(ranked)));
  }

  /** The selection takes its elements from the list, each at or above
      the floor. */
  lemma SelectFromList<T>(ranked: seq<Scored<T>>)
    ensures multiset(Select(ranked)) <= multiset(ranked)
    ensures forall k :: 0 <= k < |Select(ranked)| ==> Select(ranked)[k].score >= Floor(Top(ranked))
  {
    var kept := AtLeast(ranked, Floor(Top(ranked)));
    AtLeastSub(ranked, Floor(Top(ranked)));
    AtLeastAbove(ranked, Floor(Top(ranked)));
    if |kept| > MaxMatches {
      assert kept == kept[..MaxMatches] + kept[MaxMatches..];
      assert multiset(kept[..MaxMatches]) <= multiset(kept);
    }
  }

  /** Of a sorted list, the selection is the first min(3, n) elements,
      where the first n are exactly those at or above the floor. */
  lemma SelectPrefix<T>(ranked: seq<Scored<T>>)
    requires Sorted(ranked)
    ensures var n := |AtLeast(ranked, Floor(Top(ranked)))|;
      Select(ranked) == ranked[..if n <= MaxMatches then n else MaxMatches]
      && forall i :: 0 <= i < |ranked| ==> (ranked[i].score >= Floor(Top(ranked)) <==> i < n)
  {
    var kept := AtLeast(ranked, Floor(Top(ranked)));
    AtLeastSortedPrefix(ranked, Floor(Top(ranked)));
    if |kept| > MaxMatches {
      assert kept[..MaxMatches] == ranked[..MaxMatches];
    }
  }

  /** Of a sorted list, the top element leads the selection when it
      reaches 0.18, and nothing is selected otherwise. */
  lemma SelectHead<T>(ranked: seq<Scored<T>>)
    requires Sorted(ranked)
    ensures Top(ranked) >= MatchFloor ==> Select(ranked) != [] && Select(ranked)[0] == ranked[0]
    ensures Top(ranked) < MatchFloor ==> Select(ranked) == []
  {
    var kept := AtLeast(ranked, Floor(Top(ranked)));
    AtLeastAbove(ranked, Floor(Top(ranked)));
    if kept != [] {
      AtLeastSub(ranked, Floor(Top(ranked)));
      assert kept[0] in multiset(ranked);
      var j :| 0 <= j < |ranked| && ranked[j] == kept[0];
      assert ranked[0].score >= ranked[j].score;
    }
  }

  /** The head of the sorted list carries the highest score of the list,
      and comes from it. */
  lemma SortedMax<T>(all: seq<Scored<T>>)
    ensures forall i :: 0 <= i < |all| ==> all[i].score <= Top(SortByScore(all))
    ensures all != [] ==> SortByScore(all)[0] in all
  {
    var ranked := SortByScore(all);
    SortFacts(all);
    forall i | 0 <= i < |all| ensures all[i].score <= Top(ranked) {
      assert all[i] in multiset(ranked);
      var j :| 0 <= j < |ranked| && ranked[j] == all[i];
      assert ranked[0].score >= ranked[j].score;
    }
    if all != [] {
      assert ranked[0] in multiset(all);
    }
  }

  /** Each index entry with its score, in index order. */
  function ScoreAll(index: seq<Indexed>, userTokens: seq<string>, normalizedMessage: string): (r: seq<Scored<Indexed>>)
    ensures |r| == |index|
    ensures forall i :: 0 <= i < |r| ==> r[i] == Scored(index[i], Score(index[i], userTokens, normalizedMessage))
  {
    seq(|index|, i requires 0 <= i < |index| => Scored(index[i], Score(index[i], userTokens, normalizedMessage)))
  }

  datatype MatchResult = MatchResult(matches: seq<Scored<Indexed>>, topScore: real, normalizedMessage: string)

  /** matchQuery. */
  function MatchQuery(index: seq<Indexed>, message: string): (r: MatchResult)
    ensures r.normalizedMessage == NormalizeText(message)
    ensures Tokenize(message) == [] ==> r.matches == [] && r.topScore == 0.0
    ensures |r.matches| <= MaxMatches
  {
    var normalizedMessage := NormalizeText(message);
    var userTokens := Tokenize(message);
    if userTokens == [] then MatchResult([], 0.0, normalizedMessage)
    else
      var ranked := SortByScore(ScoreAll(index, userTokens, normalizedMessage));
      MatchResult(Select(ranked), Top(ranked), normalizedMessage)
  }

  /** topScore is at least the score of every entry, and 0 for an empty
      index. */
  lemma TopScoreIsMax(index: seq<Indexed>, message: string)
    ensures forall i :: 0 <= i < |index| ==>
      Score(index[i], Tokenize(message), NormalizeText(message)) <= MatchQuery(index, message).topScore
    ensures index == [] ==> MatchQuery(index, message).topScore == 0.0
  {
    var u, m := Tokenize(message), NormalizeText(message);
    if u != [] {
      var all := ScoreAll(index, u, m);
      SortedMax(all);
      forall i | 0 <= i < |index| ensures Score(index[i], u, m) <= Top(SortByScore(all)) {
        assert all[i].score == Score(index[i], u, m);
      }
    }
  }

  /** topScore is attained: it is the score of some entry of a non-empty
      index. */
  lemma TopScoreAttained(index: seq<Indexed>, message: string)
    requires index != []
    ensures exists i :: 0 <= i < |index| && Score(index[i], Tokenize(message), NormalizeText(message)) == MatchQuery(index, message).topScore
  {
    var u, m := Tokenize(message), NormalizeText(message);
    var all := ScoreAll(index, u, m);
    var i := TopAttained(all);
    if u != [] {
      assert MatchQuery(index, message).topScore == Top(SortByScore(all));
      assert all[i].score == Score(index[i], u, m);
    } else {
      assert Score(index[0], u, m) == 0.0;
    }
  }

  /** Where an element of a list sits. */
  lemma IndexOf<T>(all: seq<Scored<T>>, x: Scored<T>) returns (i: nat)
    requires x in all
    ensures i < |all| && all[i] == x
  {
    i :| 0 <= i < |all| && all[i] == x;
  }

  /** Some element of a non-empty list carries the top score. */
  lemma TopAttained<T>(all: seq<Scored<T>>) returns (i: nat)
    requires all != []
    ensures i < |all| && all[i].score == Top(SortByScore(all))
  {
    SortedMax(all);
    i :| 0 <= i < |all| && all[i] == SortByScore(all)[0];
  }

  /** Ranking and selecting keeps sorted elements of the scored list. */
  lemma RankedSelection<T>(all: seq<Scored<T>>)
    ensures Sorted(Select(SortByScore(all)))
    ensures forall k :: 0 <= k < |Select(SortByScore(all))| ==>
      Select(SortByScore(all))[k] in all
      && Select(SortByScore(all))[k].score >= Floor(Top(SortByScore(all)))
  {
    var ranked := SortByScore(all);
    SortFacts(all);
    SelectSorted(ranked);
    SelectFromList(ranked);
    forall k | 0 <= k < |Select(ranked)| ensures Select(ranked)[k] in all {
      assert Select(ranked)[k] in multiset(all);
    }
  }

  /** The matches are sorted, scored entries of the index, each at or
      above the floor max(0.18, 0.6 · topScore). */
  lemma MatchesAboveFloor(index: seq<Indexed>, message: string)
    ensures var r := MatchQuery(index, message);
      Sorted(r.matches)
      && forall k :: 0 <= k < |r.matches| ==>
        r.matches[k].score >= Floor(r.topScore)
        && r.matches[k].item in index
        && r.matches[k].score == Score(r.matches[k].item, Tokenize(message), NormalizeText(message))
  {
    var u, m := Tokenize(message), NormalizeText(message);
    if u != [] {
      var all := ScoreAll(index, u, m);
      RankedSelection(all);
      var matches := Select(SortByScore(all));
      forall k | 0 <= k < |matches|
        ensures matches[k].item in index && matches[k].score == Score(matches[k].item, u, m)
      {
        var i := IndexOf(all, matches[k]);
        assert all[i] == Scored(index[i], Score(index[i], u, m));
      }
    }
  }

  /** An element of the list at or above the floor is selected, unless
      three selected elements already score at least as high. */
  lemma SelectComplete<T>(all: seq<Scored<T>>, x: Scored<T>)
    requires x in all && x.score >= Floor(Top(SortByScore(all)))
    ensures x in Select(SortByScore(all))
      || (|Select(SortByScore(all))| == MaxMatches
          && forall k :: 0 <= k < |Select(SortByScore(all))| ==> Select(SortByScore(all))[k].score >= x.score)
  {
    var ranked := SortByScore(all);
    SortFacts(all);
    SelectPrefix(ranked);
    assert x in multiset(ranked);
    var j := IndexOf(ranked, x);
    if j < MaxMatches {
      assert Select(ranked)[j] == x;
    } else {
      forall k | 0 <= k < |Select(ranked)| ensures Select(ranked)[k].score >= x.score {
        assert Select(ranked)[k] == ranked[k];
      }
    }
  }

  /** The index ranked by score, as matchQuery sorts it. */
  function Ranked(index: seq<Indexed>, message: string): seq<Scored<Indexed>>
  {
    SortByScore(ScoreAll(index, Tokenize(message), NormalizeText(message)))
  }

  /** With tokens, matchQuery selects from the ranked index, which is
      sorted, and reports its head's score. */
  lemma MatchQueryRanks(index: seq<Indexed>, message: string)
    ensures Sorted(Ranked(index, message))
    ensures Tokenize(message) != [] ==>
      MatchQuery(index, message).matches == Select(Ranked(index, message))
      && MatchQuery(index, message).topScore == Top(Ranked(index, message))
  {
    SortFacts(ScoreAll(index, Tokenize(message), NormalizeText(message)));
  }

  /** The matches are the first min(3, n) ranked entries, where exactly
      the first n reach the floor. */
  lemma MatchesArePrefix(index: seq<Indexed>, message: string)
    ensures Tokenize(message) != [] ==>
      var r := MatchQuery(index, message);
      var ranked := Ranked(index, message);
      var n := |AtLeast(ranked, Floor(r.topScore))|;
      r.matches == ranked[..if n <= MaxMatches then n else MaxMatches]
      && forall i :: 0 <= i < |ranked| ==> (ranked[i].score >= Floor(r.topScore) <==> i < n)
  {
    MatchQueryRanks(index, message);
    SelectPrefix(Ranked(index, message));
  }

  /** One entry of the index at or above the floor of the ranked list is
      selected, or three selected entries score at least as high. */
  lemma SelectedAt(index: seq<Indexed>, message: string, i: nat)
    requires i < |index|
    requires Score(index[i], Tokenize(message), NormalizeText(message)) >= Floor(Top(Ranked(index, message)))
    ensures var x := Scored(index[i], Score(index[i], Tokenize(message), NormalizeText(message)));
      var picked := Select(Ranked(index, message));
      x in picked || (|picked| == MaxMatches && forall k :: 0 <= k < |picked| ==> picked[k].score >= x.score)
  {
    var all := ScoreAll(index, Tokenize(message), NormalizeText(message));
    assert all[i] == Scored(index[i], Score(index[i], Tokenize(message), NormalizeText(message)));
    SelectComplete(all, all[i]);
  }

  /** Conversely to `MatchesAboveFloor`: an entry of the index at or
      above the floor is among the matches, with its score, unless three
      matches already score at least as high. */
  lemma MatchesComplete(index: seq<Indexed>, message: string)
    ensures var r := MatchQuery(index, message);
      forall i :: 0 <= i < |index| && Score(index[i], Tokenize(message), NormalizeText(message)) >= Floor(r.topScore) ==>
        Scored(index[i], Score(index[i], Tokenize(message), NormalizeText(message))) in r.matches
        || (|r.matches| == MaxMatches
            && forall k :: 0 <= k < |r.matches| ==> r.matches[k].score >= Score(index[i], Tokenize(message), NormalizeText(message)))
  {
    if Tokenize(message) != [] {
      MatchQueryRanks(index, message);
      forall i | 0 <= i < |index| && Score(index[i], Tokenize(message), NormalizeText(message)) >= Floor(Top(Ranked(index, message))) {
        SelectedAt(index, message, i);
      }
    }
  }

  /** With a top score of at least 0.18 the top scorer leads the
      matches; below 0.18 nothing matches. */
  lemma TopIncluded(index: seq<Indexed>, message: string)
    ensures var r := MatchQuery(index, message);
      (r.topScore >= MatchFloor ==> r.matches != [] && r.matches[0].score == r.topScore)
      && (r.topScore < MatchFloor ==> r.matches == [])
  {
    var u, m := Tokenize(message), NormalizeText(message);
    if u != [] {
      var ranked := SortByScore(ScoreAll(index, u, m));
      SortFacts(ScoreAll(index, u, m));
      SelectHead(ranked);
    }
  }
}
