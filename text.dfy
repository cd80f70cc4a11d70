/** Text normalisation and tokenising (src/utils/textProcessing.js): the
    first step of every matcher in the chatbot. */
module Text {
  import opened Strs

  /** The words `tokenize` drops. */
  const StopWords: set<string> := {
    "a", "an", "and", "are", "as", "at", "be", "by", "for", "from", "how", "i", "in", "is", "it", "of",
    "on", "or", "that", "the", "this", "to", "what", "when", "where", "who", "why", "with", "you", "your"
  }

  predicate IsStopWord(w: string)
  {
    w in StopWords
  }

  /** The characters `[a-z0-9]` that survive normalisation. */
  predicate IsWordChar(c: char)
  {
    'a' <= c <= 'z' || '0' <= c <= '9'
  }

  /** The normal form: only `a-z`, `0-9` and single interior spaces, with
      no leading or trailing space. */
  predicate IsNormal(s: string)
  {
    (forall k :: 0 <= k < |s| ==> IsWordChar(s[k]) || s[k] == ' ')
    && (s != [] ==> s[0] != ' ' && s[|s| - 1] != ' ')
    && (forall k :: 0 <= k < |s| - 1 ==> s[k] == ' ' ==> s[k + 1] != ' ')
  }

  /** `.replace(/[^a-z0-9\s]/g, ' ')` for one character. */
  function CleanChar(c: char): (r: char)
    ensures IsWordChar(r) || IsJsSpace(r)
  {
    if IsWordChar(c) || IsJsSpace(c) then c else ' '
  }

  /** `.replace(/\s+/g, ' ')`: each maximal run of whitespace becomes one
      space. */
  function Collapse(s: string): (r: string)
    ensures |r| <= |s|
  {
    CollapseRun(s, false)
  }

  /** Collapsing the rest of a text; `inRun` says that the character
      before it was whitespace, already written as a space. */
  function CollapseRun(s: string, inRun: bool): (r: string)
    ensures |r| <= |s|
  {
    if s == [] then []
    else if IsJsSpace(s[0]) then
      if inRun then CollapseRun(s[1..], true) else " " + CollapseRun(s[1..], true)
    else [s[0]] + CollapseRun(s[1..], false)
  }

  /** Collapsing a text of word characters and whitespace leaves word
      characters and spaces. */
  lemma {:induction false} CollapseWords(s: string, inRun: bool)
    requires forall k :: 0 <= k < |s| ==> IsWordChar(s[k]) || IsJsSpace(s[k])
    ensures forall k :: 0 <= k < |CollapseRun(s, inRun)| ==>
      IsWordChar(CollapseRun(s, inRun)[k]) || CollapseRun(s, inRun)[k] == ' '
    decreases |s|
  {
    if s != [] {
      var rest := s[1..];
      forall k | 0 <= k < |rest| ensures IsWordChar(rest[k]) || IsJsSpace(rest[k]) {
        assert rest[k] == s[k + 1];
      }
      var inRest := IsJsSpace(s[0]);
      CollapseWords(rest, inRest);
      var c := CollapseRun(rest, inRest);
      var r := CollapseRun(s, inRun);
      if inRest && inRun {
        assert r == c;
      } else {
        assert r == (if inRest then " " else [s[0]]) + c;
        forall k | 0 <= k < |r| ensures IsWordChar(r[k]) || r[k] == ' ' {
          if k > 0 {
            assert r[k] == c[k - 1];
          }
        }
      }
    }
  }

  /** A collapsed text never has two spaces in a row, and it does not
      start with one when the whitespace before it was already written. */
  lemma {:induction false} CollapseSpacing(s: string, inRun: bool)
    ensures inRun && CollapseRun(s, inRun) != [] ==> CollapseRun(s, inRun)[0] != ' '
    ensures forall k :: 0 <= k < |CollapseRun(s, inRun)| - 1 ==>
      CollapseRun(s, inRun)[k] == ' ' ==> CollapseRun(s, inRun)[k + 1] != ' '
    decreases |s|
  {
    if s != [] {
      var rest := s[1..];
      var inRest := IsJsSpace(s[0]);
      CollapseSpacing(rest, inRest);
      var c := CollapseRun(rest, inRest);
      var r := CollapseRun(s, inRun);
      if inRest && inRun {
        assert r == c;
      } else {
        assert r == (if inRest then " " else [s[0]]) + c;
        forall k | 0 <= k < |r| - 1 && r[k] == ' ' ensures r[k + 1] != ' ' {
          assert r[k + 1] == c[k];
          if k > 0 {
            assert r[k] == c[k - 1];
          }
        }
      }
    }
  }

  /** A piece of a string keeps the character and spacing rules of the
      string. */
  lemma SliceKeepsSpacing(s: string, t: string)
    requires Contains(s, t)
    requires forall k :: 0 <= k < |s| ==> IsWordChar(s[k]) || s[k] == ' '
    requires forall k :: 0 <= k < |s| - 1 ==> s[k] == ' ' ==> s[k + 1] != ' '
    ensures forall k :: 0 <= k < |t| ==> IsWordChar(t[k]) || t[k] == ' '
    ensures forall k :: 0 <= k < |t| - 1 ==> t[k] == ' ' ==> t[k + 1] != ' '
  {
    var i: nat :| i <= |s| && OccursAt(s, t, i);
    forall k | 0 <= k < |t| ensures t[k] == s[i + k] { }
  }

  /** `.toLowerCase().replace(/[^a-z0-9\s]/g, ' ')`, character by
      character. */
  function CleanText(s: string): (r: string)
    ensures |r| == |s|
  {
    if s == [] then [] else [CleanChar(LowerChar(s[0]))] + CleanText(s[1..])
  }

  lemma {:induction false} CleanTextAt(s: string)
    ensures forall k :: 0 <= k < |s| ==> CleanText(s)[k] == CleanChar(LowerChar(s[k]))
  {
    if s != [] {
      CleanTextAt(s[1..]);
    }
  }

  /** normalizeText: lower-case, every character outside `[a-z0-9\s]`
      becomes a space, whitespace runs collapse to one space, and the ends
      are trimmed. */
  function NormalizeText(text: string): (r: string)
    ensures IsNormal(r)
    ensures |r| <= |text|
  {
    NormalizeSteps(text);
    JsTrim(Collapse(CleanText(text)))
  }

  lemma NormalizeSteps(text: string)
    ensures IsNormal(JsTrim(Collapse(CleanText(text))))
    ensures |JsTrim(Collapse(CleanText(text)))| <= |text|
  {
    var cleaned := CleanText(text);
    CleanTextAt(text);
    var collapsed := Collapse(cleaned);
    CollapseWords(cleaned, false);
    CollapseSpacing(cleaned, false);
    SliceKeepsSpacing(collapsed, JsTrim(collapsed));
  }

  /** A string of word characters and single spaces has nothing to
      collapse, provided it does not start with a space right after
      written whitespace. */
  lemma {:induction false} CollapseFixes(s: string, inRun: bool)
    requires forall k :: 0 <= k < |s| ==> IsWordChar(s[k]) || s[k] == ' '
    requires forall k :: 0 <= k < |s| - 1 ==> s[k] == ' ' ==> s[k + 1] != ' '
    requires inRun && s != [] ==> s[0] != ' '
    ensures CollapseRun(s, inRun) == s
    decreases |s|
  {
    if s != [] {
      var rest := s[1..];
      forall k | 0 <= k < |rest| ensures IsWordChar(rest[k]) || rest[k] == ' ' {
        assert rest[k] == s[k + 1];
      }
      forall k | 0 <= k < |rest| - 1 && rest[k] == ' ' ensures rest[k + 1] != ' ' {
        assert rest[k] == s[k + 1] && rest[k + 1] == s[k + 2];
      }
      if s[0] == ' ' {
        if rest != [] {
          assert rest[0] == s[1];
        }
        CollapseFixes(rest, true);
        assert CollapseRun(s, inRun) == " " + rest;
      } else {
        assert !IsJsSpace(s[0]);
        CollapseFixes(rest, false);
        assert CollapseRun(s, inRun) == [s[0]] + rest;
      }
      assert s == [s[0]] + rest;
    }
  }

  /** A normal string is its own normal form. */
  lemma NormalizeFixes(s: string)
    requires IsNormal(s)
    ensures NormalizeText(s) == s
  {
    CleanTextAt(s);
    assert CleanText(s) == s;
    CollapseFixes(s, false);
    TrimByNoop(s, IsJsSpace);
  }

  /** normalizeText is idempotent. */
  lemma NormalizeIdempotent(text: string)
    ensures NormalizeText(NormalizeText(text)) == NormalizeText(text)
  {
    NormalizeFixes(NormalizeText(text));
  }

  /** `.filter((token) => token && !STOP_WORDS.has(token))`. */
  function KeepTokens(words: seq<string>): (r: seq<string>)
    ensures forall w :: w in r <==> w in words && w != "" && !IsStopWord(w)
    ensures |r| <= |words|
  {
    if words == [] then []
    else
      var rest := KeepTokens(words[1..]);
      if words[0] != "" && !IsStopWord(words[0]) then [words[0]] + rest else rest
  }

  /** The filter keeps every kept word as often as it occurs, in order. */
  lemma {:induction false} KeepTokensCounts(words: seq<string>)
    ensures forall w :: multiset(KeepTokens(words))[w] == if w != "" && !IsStopWord(w) then multiset(words)[w] else 0
  {
    if words != [] {
      KeepTokensCounts(words[1..]);
      assert words == [words[0]] + words[1..];
    }
  }

  /** A string made of word characters only. */
  predicate AllWordChars(w: string)
  {
    forall i :: 0 <= i < |w| ==> IsWordChar(w[i])
  }

  /** What a token is: a non-empty run of word characters that is no stop
      word. */
  predicate IsToken(w: string)
  {
    w != "" && !IsStopWord(w) && AllWordChars(w)
  }

  /** tokenize: the space-separated words of the normal form, without stop
      words, duplicates kept. */
  function Tokenize(text: string): (r: seq<string>)
    ensures NormalizeText(text) == "" ==> r == []
    ensures forall k :: 0 <= k < |r| ==> IsToken(r[k])
  {
    var normalized := NormalizeText(text);
    if normalized == "" then []
    else
      var words := Split(normalized, ' ');
      NormalWordsAreWords(normalized);
      KeptWordsAreTokens(words);
      KeepTokens(words)
  }

  /** Filtering words made of word characters leaves tokens only. */
  lemma KeptWordsAreTokens(words: seq<string>)
    requires forall w :: w in words ==> AllWordChars(w)
    ensures forall k :: 0 <= k < |KeepTokens(words)| ==> IsToken(KeepTokens(words)[k])
  {
    var r := KeepTokens(words);
    assert forall k :: 0 <= k < |r| ==> r[k] in words;
  }

  /** Every character of a piece of a split is a character of the string. */
  lemma {:induction false} SplitChars(s: string, sep: char, j: nat)
    requires j < |Split(s, sep)|
    ensures forall c :: c in Split(s, sep)[j] ==> c in s
    decreases |s|
  {
    var head := Before(s, sep);
    if |head| < |s| && j > 0 {
      SplitChars(s[|head| + 1..], sep, j - 1);
    }
  }

  /** The words of a normal string hold word characters only. */
  lemma NormalWordsAreWords(n: string)
    requires IsNormal(n)
    ensures forall w :: w in Split(n, ' ') ==> AllWordChars(w)
  {
    var words := Split(n, ' ');
    forall w | w in words ensures AllWordChars(w) {
      var j :| 0 <= j < |words| && words[j] == w;
      SplitChars(n, ' ', j);
      SplitNoSeparator(n, ' ');
      forall i | 0 <= i < |w| ensures IsWordChar(w[i]) {
        assert w[i] in n;
      }
    }
  }

  /** The words of a non-empty normal string are all non-empty, so the
      `token &&` test in tokenize drops nothing there. */
  lemma {:induction false} NormalWordsNonEmpty(n: string)
    requires IsNormal(n) && n != ""
    ensures forall k :: 0 <= k < |Split(n, ' ')| ==> Split(n, ' ')[k] != ""
    decreases |n|
  {
    var head := Before(n, ' ');
    assert head != [];
    if |head| < |n| {
      BeforeStops(n, ' ');
      var rest := n[|head| + 1..];
      assert |head| + 1 < |n|;
      assert rest[0] == n[|head| + 1];
      assert IsNormal(rest) by {
        forall k | 0 <= k < |rest| ensures rest[k] == n[|head| + 1 + k] { }
      }
      NormalWordsNonEmpty(rest);
    }
  }

  /** The tokens of a text are exactly its words minus the stop words: a
      word is a token iff it is no stop word, with its multiplicity kept. */
  lemma TokensAreWords(text: string)
    ensures var n := NormalizeText(text);
      n != "" ==>
        forall w :: multiset(Tokenize(text))[w] == if !IsStopWord(w) then multiset(Split(n, ' '))[w] else 0
  {
    var n := NormalizeText(text);
    if n != "" {
      NormalWordsNonEmpty(n);
      KeepTokensCounts(Split(n, ' '));
      var words := Split(n, ' ');
      forall w ensures multiset(Tokenize(text))[w] == if !IsStopWord(w) then multiset(words)[w] else 0 {
        if w == "" { assert w !in words; }
      }
    }
  }

  /** Joining the tokens' source words with spaces gives the normal form
      back: no character is lost between normalising and splitting. */
  lemma WordsRebuildNormal(text: string)
    ensures Join(Split(NormalizeText(text), ' '), " ") == NormalizeText(text)
  {
    JoinSplit(NormalizeText(text), ' ');
  }

  /** Tokenising a normalised text gives the same tokens as tokenising the
      text. */
  lemma TokenizeNormalized(text: string)
    ensures Tokenize(NormalizeText(text)) == Tokenize(text)
  {
    NormalizeIdempotent(text);
  }
}
