/** Intent classification (src/services/intentRecognizer.js): a message
    is empty, a greeting, thanks, a goodbye, a request for the latest
    updates, or a general question, tested in that order on the
    normalised message and its token set. */
module Intent {
  import opened Strs
  import opened Text

  datatype Kind = Empty | Greeting | Thanks | Goodbye | Latest | General

  datatype Intent = Intent(kind: Kind, normalized: string)

  /** The token set of a normalised message. */
  function TokenSet(normalized: string): set<string>
  {
    var tokens := Tokenize(normalized);
    set k | 0 <= k < |tokens| :: tokens[k]
  }

  predicate IsGreeting(normalized: string, tokens: set<string>)
  {
    "hello" in tokens || "hi" in tokens || "hey" in tokens
    || Contains(normalized, "good morning") || Contains(normalized, "good afternoon")
    || Contains(normalized, "good evening")
  }

  predicate IsThanks(normalized: string, tokens: set<string>)
  {
    "thank" in tokens || "thanks" in tokens || Contains(normalized, "appreciate")
  }

  predicate IsGoodbye(normalized: string, tokens: set<string>)
  {
    "bye" in tokens || "goodbye" in tokens || Contains(normalized, "see you")
  }

  predicate IsLatest(tokens: set<string>)
  {
    "latest" in tokens || "recent" in tokens || "new" in tokens || "updates" in tokens
  }

  /** recognizeIntent: the first test that holds decides. */
  function RecognizeIntent(message: string): (r: Intent)
    ensures r.normalized == NormalizeText(message)
    ensures r.kind == Empty <==> r.normalized == ""
    ensures r.kind == Greeting <==> (r.normalized != "" && IsGreeting(r.normalized, TokenSet(r.normalized)))
    ensures r.kind == Thanks <==> (r.normalized != "" && !IsGreeting(r.normalized, TokenSet(r.normalized))
      && IsThanks(r.normalized, TokenSet(r.normalized)))
    ensures r.kind == Goodbye <==> (r.normalized != "" && !IsGreeting(r.normalized, TokenSet(r.normalized))
      && !IsThanks(r.normalized, TokenSet(r.normalized)) && IsGoodbye(r.normalized, TokenSet(r.normalized)))
    ensures r.kind == Latest <==> (r.normalized != "" && !IsGreeting(r.normalized, TokenSet(r.normalized))
      && !IsThanks(r.normalized, TokenSet(r.normalized)) && !IsGoodbye(r.normalized, TokenSet(r.normalized))
      && IsLatest(TokenSet(r.normalized)))
  {
    var normalized := NormalizeText(message);
    if normalized == "" then Intent(Empty, normalized)
    else
      var tokens := TokenSet(normalized);
      if IsGreeting(normalized, tokens) then Intent(Greeting, normalized)
      else if IsThanks(normalized, tokens) then Intent(Thanks, normalized)
      else if IsGoodbye(normalized, tokens) then Intent(Goodbye, normalized)
      else if IsLatest(tokens) then Intent(Latest, normalized)
      else Intent(General, normalized)
  }

  /** A word that is no stop word is a token of a normalised message iff
      it is one of its space-separated words: the intent tests look at
      whole words. */
  lemma TokenSetIsWords(message: string, w: string)
    requires !IsStopWord(w)
    ensures var n := NormalizeText(message);
      w in TokenSet(n) <==> n != "" && w in Split(n, ' ')
  {
    var n := NormalizeText(message);
    NormalizeIdempotent(message);
    if n != "" {
      TokensAreWords(n);
      var tokens := Tokenize(n);
      assert w in TokenSet(n) <==> w in tokens by {
        if w in tokens {
          var k :| 0 <= k < |tokens| && tokens[k] == w;
        }
      }
      assert w in tokens <==> multiset(tokens)[w] > 0;
    }
  }

  /** Every token of a normalised message is one of its words. */
  lemma TokensWithinWords(message: string)
    ensures var n := NormalizeText(message);
      forall w :: w in TokenSet(n) ==> w in Split(n, ' ')
  {
    var n := NormalizeText(message);
    forall w | w in TokenSet(n)
      ensures w in Split(n, ' ')
    {
      TokenSetIsWords(message, w);
    }
  }

  /** "hi" is no stop word. */
  lemma HiKept()
    ensures !IsStopWord("hi")
  {
  }

  /** "hi" counts only as a whole word: a message whose words include
      "hi" is a greeting. */
  lemma HiIsAWord(message: string)
    requires "hi" in Split(NormalizeText(message), ' ')
    ensures RecognizeIntent(message).kind == Greeting
  {
    var n := NormalizeText(message);
    assert "hi" in TokenSet(n) by {
      HiKept();
      TokenSetIsWords(message, "hi");
    }
    assert n != "" by {
      assert Split("", ' ') == [""];
    }
  }

  /** The one word of a string without spaces. */
  lemma OneWord(w: string)
    requires ' ' !in w
    ensures Split(w, ' ') == [w]
  {
    assert Before(w, ' ') == w by {
      BeforeStops(w, ' ');
    }
  }

  /** The words and the phrases the intent tests look for. */
  const IntentWords: set<string> := {
    "hello", "hi", "hey", "thank", "thanks", "bye", "goodbye", "latest", "recent", "new", "updates"
  }

  /** No intent test holds for a word whose tokens are at most itself,
      when it is no intent word and has neither a space nor "appreciate". */
  lemma NoIntentTest(w: string, t: set<string>)
    requires t <= {w} && ' ' !in w
    requires w !in IntentWords && !Contains(w, "appreciate")
    ensures !IsGreeting(w, t) && !IsThanks(w, t) && !IsGoodbye(w, t) && !IsLatest(t)
  {
    ContainsChars(w, "good morning");
    ContainsChars(w, "good afternoon");
    ContainsChars(w, "good evening");
    ContainsChars(w, "see you");
  }

  /** A message that normalises to one word that is no intent word and
      does not contain "appreciate" is a general question: the intent
      words are whole-word tests, and every other intent phrase has a
      space. */
  lemma OneWordIsGeneral(message: string, w: string)
    requires NormalizeText(message) == w && w != "" && ' ' !in w
    requires w !in IntentWords && !Contains(w, "appreciate")
    ensures RecognizeIntent(message).kind == General
  {
    var t := TokenSet(w);
    assert t <= {w} by {
      OneWord(w);
      TokensWithinWords(message);
    }
    NoIntentTest(w, t);
  }

  /** "history" is a general question: it has no greeting word, and the
      greeting test does not look inside words. */
  lemma HistoryIsGeneral(message: string)
    requires NormalizeText(message) == "history"
    ensures RecognizeIntent(message).kind == General
  {
    HistoryWord();
    OneWordIsGeneral(message, "history");
  }

  lemma HistoryWord()
    ensures ' ' !in "history" && "history" !in IntentWords && !Contains("history", "appreciate")
  {
  }

  /** "news" alone is a general question, not a request for the latest
      updates: "new" is a whole-word test. */
  lemma NewsIsGeneral(message: string)
    requires NormalizeText(message) == "news"
    ensures RecognizeIntent(message).kind == General
  {
    NewsWord();
    OneWordIsGeneral(message, "news");
  }

  lemma NewsWord()
    ensures ' ' !in "news" && "news" !in IntentWords && !Contains("news", "appreciate")
  {
  }
}
