/** The older, self-contained chat component (src/components/Chatbot.js).
    It repeats the pipeline with rules of its own: canned replies found by
    substring rather than by whole word, scoring without the fuzzy bonus,
    a fixed list of site words, dynamic entries without details or
    actions, and the close handler that clears storage itself. Indexing,
    the local answer, the history and the backend text are the same as in
    the newer pipeline and are reused from it. */
module Legacy {
  import opened Wrappers
  import opened Strs
  import opened Records
  import opened Js
  import opened Text
  import opened Fuzzy
  import opened Context
  import opened Matcher
  import opened Extractor
  import opened Intent
  import opened Formatter
  import opened Responses
  import opened Session
  import opened Chat

  // ---------------------------------------------------------------------
  // Canned replies

  const GreetingWords: seq<string> := ["hello", "hi", "hey", "good morning", "good afternoon", "good evening"]
  const ThanksWords: seq<string> := ["thank", "thanks", "appreciate"]
  const GoodbyeWords: seq<string> := ["bye", "goodbye", "see you"]

  /** `words.some((w) => s.includes(w))`. */
  predicate AnyContained(s: string, words: seq<string>)
  {
    exists k :: 0 <= k < |words| && Contains(s, words[k])
  }

  /** getQuickReply: on the normalised message, the greeting test, then
      thanks, then goodbye, each a substring test. */
  function LegacyQuickReply(message: string): (r: Option<string>)
    ensures NormalizeText(message) == "" ==> r == None
    ensures NormalizeText(message) != "" && AnyContained(NormalizeText(message), GreetingWords) ==> r == Some(GreetingReply)
    ensures (NormalizeText(message) != "" && !AnyContained(NormalizeText(message), GreetingWords)
             && AnyContained(NormalizeText(message), ThanksWords)) ==> r == Some(ThanksReply)
    ensures (NormalizeText(message) != "" && !AnyContained(NormalizeText(message), GreetingWords)
             && !AnyContained(NormalizeText(message), ThanksWords) && AnyContained(NormalizeText(message), GoodbyeWords))
            ==> r == Some(GoodbyeReply)
    ensures r.None? <==> (NormalizeText(message) == "" || (!AnyContained(NormalizeText(message), GreetingWords)
      && !AnyContained(NormalizeText(message), ThanksWords) && !AnyContained(NormalizeText(message), GoodbyeWords)))
  {
    var normalized := NormalizeText(message);
    if normalized == "" then None
    else if AnyContained(normalized, GreetingWords) then Some(GreetingReply)
    else if AnyContained(normalized, ThanksWords) then Some(ThanksReply)
    else if AnyContained(normalized, GoodbyeWords) then Some(GoodbyeReply)
    else None
  }

  lemma HiInHistory()
    ensures GreetingWords[1] == "hi" && OccursAt("history", "hi", 0)
  {
  }

  /** "history" is greeted: "hi" is found inside the word. */
  lemma HistoryGetsGreeting(message: string)
    requires NormalizeText(message) == "history"
    ensures LegacyQuickReply(message) == Some(GreetingReply)
  {
    HiInHistory();
    assert AnyContained("history", GreetingWords);
  }

  lemma HiInThis()
    ensures GreetingWords[1] == "hi" && OccursAt("this", "hi", 1)
  {
  }

  /** "this", a stop word, is greeted too. */
  lemma ThisGetsGreeting(message: string)
    requires NormalizeText(message) == "this"
    ensures LegacyQuickReply(message) == Some(GreetingReply)
  {
    HiInThis();
    assert AnyContained("this", GreetingWords);
  }

  /** A word of a string occurs in it. */
  lemma WordContained(s: string, w: string)
    requires w in Split(s, ' ')
    ensures Contains(s, w)
  {
    var parts := Split(s, ' ');
    var k :| 0 <= k < |parts| && parts[k] == w;
    JoinSplit(s, ' ');
    JoinContains(parts, [' '], k);
  }

  /** A whole-word hit is a substring hit. */
  lemma TokenContained(message: string, w: string)
    requires !IsStopWord(w) && w in TokenSet(NormalizeText(message))
    ensures Contains(NormalizeText(message), w)
  {
    TokenSetIsWords(message, w);
    WordContained(NormalizeText(message), w);
  }

  lemma GreetingsKept()
    ensures !IsStopWord("hello") && !IsStopWord("hi") && !IsStopWord("hey")
  {
  }

  lemma ThanksKept()
    ensures !IsStopWord("thank") && !IsStopWord("thanks")
  {
  }

  lemma GoodbyesKept()
    ensures !IsStopWord("bye") && !IsStopWord("goodbye")
  {
  }

  lemma GreetingWordsAt()
    ensures GreetingWords[0] == "hello" && GreetingWords[1] == "hi" && GreetingWords[2] == "hey"
    ensures GreetingWords[3] == "good morning" && GreetingWords[4] == "good afternoon" && GreetingWords[5] == "good evening"
  {
  }

  lemma OtherWordsAt()
    ensures ThanksWords[0] == "thank" && ThanksWords[1] == "thanks" && ThanksWords[2] == "appreciate"
    ensures GoodbyeWords[0] == "bye" && GoodbyeWords[1] == "goodbye" && GoodbyeWords[2] == "see you"
  {
  }

  /** Every greeting of the word-based recognizer is a greeting here. */
  lemma GreetingsAgree(message: string)
    requires RecognizeIntent(message).kind == Greeting
    ensures LegacyQuickReply(message) == Some(GreetingReply)
  {
    var n := NormalizeText(message);
    var t := TokenSet(n);
    GreetingsKept();
    GreetingWordsAt();
    if "hello" in t {
      TokenContained(message, "hello");
    } else if "hi" in t {
      TokenContained(message, "hi");
    } else if "hey" in t {
      TokenContained(message, "hey");
    }
    assert AnyContained(n, GreetingWords);
  }

  /** Every message the word-based recognizer gives a canned reply gets
      one here as well: the substring tests catch more. */
  lemma QuickRepliesWiden(message: string)
    requires QuickReply(message).Some?
    ensures LegacyQuickReply(message).Some?
  {
    var n := NormalizeText(message);
    var t := TokenSet(n);
    var kind := RecognizeIntent(message).kind;
    if kind == Greeting {
      GreetingsAgree(message);
    } else if kind == Thanks {
      ThanksKept();
      OtherWordsAt();
      if "thank" in t {
        TokenContained(message, "thank");
      } else if "thanks" in t {
        TokenContained(message, "thanks");
      }
      assert AnyContained(n, ThanksWords);
    } else {
      assert kind == Goodbye;
      GoodbyesKept();
      OtherWordsAt();
      if "bye" in t {
        TokenContained(message, "bye");
      } else if "goodbye" in t {
        TokenContained(message, "goodbye");
      }
      assert AnyContained(n, GoodbyeWords);
    }
  }

  // ---------------------------------------------------------------------
  // Scoring

  /** +0.08 for a literal keyword hit; no fuzzy bonus. */
  function LegacyKeywordScore(keyword: string, normalizedMessage: string): real
  {
    var keywordNormalized := NormalizeText(keyword);
    if keywordNormalized != "" && Contains(normalizedMessage, keywordNormalized) then KeywordBonus else 0.0
  }

  function LegacyKeywordsScore(keywords: seq<string>, normalizedMessage: string): (r: real)
    ensures 0.0 <= r <= KeywordBonus * |keywords| as real
  {
    if keywords == [] then 0.0
    else
      LegacyKeywordsScore(keywords[..|keywords| - 1], normalizedMessage)
      + LegacyKeywordScore(keywords[|keywords| - 1], normalizedMessage)
  }

  /** How many keywords the fuzzy matcher finds in the message. */
  function FuzzyHits(keywords: seq<string>, normalizedMessage: string): nat
  {
    if keywords == [] then 0
    else
      FuzzyHits(keywords[..|keywords| - 1], normalizedMessage)
      + (if FuzzyIncludes(NormalizeText(keywords[|keywords| - 1]), normalizedMessage, FuzzyThreshold) then 1 else 0)
  }

  /** The keyword part of the newer score is this one plus 0.05 per fuzzy
      hit. */
  lemma {:induction false} KeywordsWithoutFuzzy(keywords: seq<string>, normalizedMessage: string)
    ensures KeywordsScore(keywords, normalizedMessage)
      == LegacyKeywordsScore(keywords, normalizedMessage) + FuzzyBonus * FuzzyHits(keywords, normalizedMessage) as real
  {
    if keywords != [] {
      KeywordsWithoutFuzzy(keywords[..|keywords| - 1], normalizedMessage);
    }
  }

  function LegacyRawScore(item: Indexed, userTokens: seq<string>, normalizedMessage: string): real
  {
    BaseScore(Overlap(userTokens, item.tokens), |userTokens|)
    + TitleScore(item.entry.title, normalizedMessage)
    + LegacyKeywordsScore(item.entry.keywords, normalizedMessage)
  }

  /** scoreEntry: 0 without user tokens, else the raw score clamped to 1. */
  function LegacyScore(item: Indexed, userTokens: seq<string>, normalizedMessage: string): (r: real)
    ensures 0.0 <= r <= 1.0
    ensures userTokens == [] ==> r == 0.0
  {
    if userTokens == [] then 0.0
    else
      var raw := LegacyRawScore(item, userTokens, normalizedMessage);
      BaseScoreBounds(Overlap(userTokens, item.tokens), |userTokens|);
      if raw < 1.0 then raw else 1.0
  }

  /** The score is the newer one's without the fuzzy bonus: the raw
      scores differ by exactly 0.05 per fuzzy hit, so this score is never
      higher, and the two agree when no keyword is a fuzzy hit. */
  lemma ScoreWithoutFuzzy(item: Indexed, userTokens: seq<string>, normalizedMessage: string)
    ensures RawScore(item, userTokens, normalizedMessage)
      == LegacyRawScore(item, userTokens, normalizedMessage) + FuzzyBonus * FuzzyHits(item.entry.keywords, normalizedMessage) as real
    ensures LegacyScore(item, userTokens, normalizedMessage) <= Score(item, userTokens, normalizedMessage)
    ensures FuzzyHits(item.entry.keywords, normalizedMessage) == 0 ==>
      LegacyScore(item, userTokens, normalizedMessage) == Score(item, userTokens, normalizedMessage)
  {
    KeywordsWithoutFuzzy(item.entry.keywords, normalizedMessage);
  }

  // ---------------------------------------------------------------------
  // getLocalResponse

  const SiteIntentWords: seq<string> := [
    "admissions", "apply", "enroll", "enrollment", "program", "programs", "academics", "courses",
    "faculty", "staff", "news", "events", "announcements", "downloads", "forms", "contact", "about",
    "mission", "vision", "history", "students", "logo"]

  /** hasSiteIntent: some site word is a substring of the message. */
  predicate LegacySiteIntent(normalizedMessage: string)
  {
    AnyContained(normalizedMessage, SiteIntentWords)
  }

  datatype LocalResult = LocalResult(localReply: Option<string>, context: seq<ContextItem>, confidence: real)

  function LegacyScoreAll(index: seq<Indexed>, userTokens: seq<string>, normalizedMessage: string): (r: seq<Scored<Indexed>>)
    ensures |r| == |index|
    ensures forall i :: 0 <= i < |r| ==> r[i] == Scored(index[i], LegacyScore(index[i], userTokens, normalizedMessage))
  {
    seq(|index|, i requires 0 <= i < |index| => Scored(index[i], LegacyScore(index[i], userTokens, normalizedMessage)))
  }

  /** The entries ranked by score. */
  function Ranked(index: seq<Indexed>, message: string): seq<Scored<Indexed>>
  {
    SortByScore(LegacyScoreAll(index, Tokenize(message), NormalizeText(message)))
  }

  /** `topMatches`: the selection of the ranked list. */
  function TopMatches(index: seq<Indexed>, message: string): (r: seq<Scored<Indexed>>)
    ensures |r| <= MaxMatches
  {
    Select(Ranked(index, message))
  }

  /** The local answer test, on the top score. */
  predicate Confident(message: string, topScore: real)
  {
    topScore >= LocalThreshold || (LegacySiteIntent(NormalizeText(message)) && topScore >= SoftThreshold)
  }

  /** getLocalResponse. */
  function GetLocalResponse(message: string, index: seq<Indexed>): (r: LocalResult)
    ensures |r.context| <= MaxMatches
  {
    if Tokenize(message) == [] then LocalResult(None, [], 0.0)
    else
      var topScore := Top(Ranked(index, message));
      var topMatches := TopMatches(index, message);
      var context := ContextItems(topMatches);
      if Confident(message, topScore) then LocalResult(Some(LocalText(message, topMatches)), context, topScore)
      else LocalResult(None, context, topScore)
  }

  /** A message without tokens gets no reply, no context and confidence 0. */
  lemma NoTokensNoReply(message: string, index: seq<Indexed>)
    requires Tokenize(message) == []
    ensures GetLocalResponse(message, index) == LocalResult(None, [], 0.0)
  {
  }

  /** The confidence is the best score of the index (0 for an empty
      index), reached by some entry. */
  lemma ConfidenceIsBest(message: string, index: seq<Indexed>)
    requires Tokenize(message) != []
    ensures forall i :: 0 <= i < |index| ==>
      LegacyScore(index[i], Tokenize(message), NormalizeText(message)) <= GetLocalResponse(message, index).confidence
    ensures index == [] ==> GetLocalResponse(message, index).confidence == 0.0
    ensures index != [] ==>
      (exists i :: 0 <= i < |index| && LegacyScore(index[i], Tokenize(message), NormalizeText(message)) == GetLocalResponse(message, index).confidence)
  {
    var u, m := Tokenize(message), NormalizeText(message);
    var all := LegacyScoreAll(index, u, m);
    SortedMax(all);
    forall i | 0 <= i < |index| ensures LegacyScore(index[i], u, m) <= Top(SortByScore(all)) {
      assert all[i].score == LegacyScore(index[i], u, m);
    }
    if index != [] {
      var i := TopAttained(all);
      assert all[i].score == LegacyScore(index[i], u, m);
    }
  }

  /** A reply is produced iff the message has tokens and the top score
      reaches 0.3, or 0.22 with a site word; and then the top matches, and
      so the context, are not empty, although the source does not test
      for them. */
  lemma LocalReplyIff(message: string, index: seq<Indexed>)
    ensures var r := GetLocalResponse(message, index);
      r.localReply.Some? <==> Tokenize(message) != [] && Confident(message, r.confidence)
    ensures var r := GetLocalResponse(message, index);
      r.localReply.Some? ==>
        (r.localReply == Some(LocalText(message, TopMatches(index, message)))
         && TopMatches(index, message) != [] && r.context == ContextItems(TopMatches(index, message))
         && 1 <= |r.context| <= MaxMatches)
  {
    if Tokenize(message) != [] {
      var all := LegacyScoreAll(index, Tokenize(message), NormalizeText(message));
      SortFacts(all);
      SelectHead(SortByScore(all));
    }
  }

  // ---------------------------------------------------------------------
  // buildDynamicEntry

  /** This component's buildDynamicEntry: no details and no actions. Its
      `tokenize(title)` lower-cases the title, which fails for a title
      that is not a string (a numeric `name`, say); such a record yields
      nothing. */
  function LegacyDynamicEntry(base: Base, item: Value, index: nat): (r: Option<Entry>)
    ensures r.None? <==> !Title(item, Str(base.title)).Str?
    ensures r.Some? ==> |r.value.summary| <= SummaryCap || r.value.summary == base.title
    ensures r.Some? ==> r.value.details == [] && r.value.actions == []
  {
    var title := Title(item, Str(base.title));
    if !title.Str? then None
    else
      var summary := Summary(item, base.title);
      var cut := summary[..Min(SummaryCap, |summary|)];
      Some(Entry(
        id := base.id + "-" + NatToString(index),
        title := base.title + ": " + title.s,
        url := base.url,
        summary := if cut != "" then cut else base.title,
        keywords := Dedupe(base.keywords + Tokenize(title.s)),
        details := [],
        actions := [],
        extra := base.title,
        sourceType := Dynamic))
  }

  /** Apart from details and actions, the entry is the one the newer
      extractor builds. */
  lemma DynamicEntriesAgree(base: Base, item: Value, index: nat)
    requires Title(item, Str(base.title)).Str?
    ensures LegacyDynamicEntry(base, item, index) == Some(DynamicEntry(base, item, index).(details := [], actions := []))
  {
    var title := Title(item, Str(base.title));
    assert ToStr(title) == title.s;
  }

  // ---------------------------------------------------------------------
  // handleSendMessage

  /** What one processed send answers: a canned reply, the local reply, or
      the backend's text for the request made from the local result. */
  function LegacyRespond(statics: seq<Entry>, dynamic: seq<Entry>, prior: seq<Message>, user: Message,
                         backend: Request -> Option<BackendData>): Answer
  {
    var quick := LegacyQuickReply(user.text);
    if quick.Some? then Answer(quick.value, None)
    else
      var local := GetLocalResponse(user.text, KnowledgeIndex(statics + dynamic));
      if local.localReply.Some? then Answer(local.localReply.value, None)
      else
        var request := Request(user.text, local.context, HistoryPayload(prior + [user]));
        Answer(BackendAnswer(request, backend), Some(request))
  }

  /** The backend is asked iff there is neither a canned nor a local
      reply; the request carries the user's text, at most three context
      items from the top matches, and the last at most eight turns ending
      with the user's own. A failed call answers with the apology. */
  lemma LegacyFallback(statics: seq<Entry>, dynamic: seq<Entry>, prior: seq<Message>, user: Message,
                       backend: Request -> Option<BackendData>)
    requires user.sender == "user"
    ensures var a := LegacyRespond(statics, dynamic, prior, user, backend);
      a.request.Some? <==> (LegacyQuickReply(user.text).None?
        && GetLocalResponse(user.text, KnowledgeIndex(statics + dynamic)).localReply.None?)
    ensures var a := LegacyRespond(statics, dynamic, prior, user, backend);
      a.request.Some? ==>
        (a.request.value.message == user.text
         && |a.request.value.context| <= MaxMatches
         && 1 <= |a.request.value.history| <= HistoryLimit
         && a.request.value.history[|a.request.value.history| - 1] == Turn("user", user.text)
         && (backend(a.request.value).None? ==> a.text == Apology))
  {
    var h := HistoryPayload(prior + [user]);
    assert h[|h| - 1] == TurnOf((prior + [user])[|prior|]);
  }

  /** The component's state. */
  class LegacyChatbot {
    const staticEntries: seq<Entry>
    const storage: Storage
    var messages: seq<Message>
    var isOpen: bool
    var inputMessage: string
    var isTyping: bool
    var showCloseConfirm: bool
    var dynamicKnowledge: seq<Entry>

    /** The initial state read from storage; on mount the two persisting
        effects write the messages and the open flag back. */
    constructor (statics: seq<Entry>, st: Storage, now: nat)
      modifies st
      ensures staticEntries == statics && storage == st
      ensures messages == StoredMessages(old(st.items), old(st.available), [Welcome(now)])
      ensures isOpen == StoredIsOpen(old(st.items), old(st.available))
      ensures inputMessage == "" && !isTyping && !showCloseConfirm && dynamicKnowledge == []
      ensures st.available == old(st.available)
      ensures st.items == if st.available
        then old(st.items)[MessagesKey := Encode(messages)][IsOpenKey := BoolText(isOpen)]
        else old(st.items)
    {
      var loaded := st.LoadMessages([Welcome(now)]);
      var open := st.LoadIsOpen();
      staticEntries := statics;
      storage := st;
      messages := loaded;
      isOpen := open;
      inputMessage := "";
      isTyping := false;
      showCloseConfirm := false;
      dynamicKnowledge := [];
      new;
      st.SaveMessages(loaded);
      st.SaveIsOpen(open);
    }

    /** The reply step: a canned reply, a local reply or the backend's. */
    method ComputeReply(prior: seq<Message>, user: Message, backend: Request -> Option<BackendData>)
      returns (answer: Answer)
      ensures answer == LegacyRespond(staticEntries, dynamicKnowledge, prior, user, backend)
    {
      var quick := LegacyQuickReply(user.text);
      if quick.Some? {
        return Answer(quick.value, None);
      }
      var local := GetLocalResponse(user.text, KnowledgeIndex(staticEntries + dynamicKnowledge));
      if local.localReply.Some? {
        return Answer(local.localReply.value, None);
      }
      var request := Request(user.text, local.context, HistoryPayload(prior + [user]));
      answer := Answer(BackendAnswer(request, backend), Some(request));
    }

    /** handleSendMessage: nothing happens for a blank input or while a
        reply is pending; otherwise the trimmed message and one bot
        message are appended, each change of the list is saved, the
        input is cleared and the typing flag ends false. `sent` is the
        request made to the backend, if any; building it looks up the
        session id, which stores a new one when none is stored. */
    method HandleSendMessage(now: nat, later: nat, random: string, backend: Request -> Option<BackendData>) returns (sent: Option<Request>)
      modifies this, storage
      ensures dynamicKnowledge == old(dynamicKnowledge) && isOpen == old(isOpen) && showCloseConfirm == old(showCloseConfirm)
      ensures storage.available == old(storage.available)
      ensures JsTrim(old(inputMessage)) == "" || old(isTyping) ==>
        (messages == old(messages) && inputMessage == old(inputMessage) && isTyping == old(isTyping)
         && sent == None && storage.items == old(storage.items))
      ensures JsTrim(old(inputMessage)) != "" && !old(isTyping) ==>
        (var user := Message(JsTrim(old(inputMessage)), "user", now);
         var answer := LegacyRespond(staticEntries, old(dynamicKnowledge), old(messages), user, backend);
         var withId := if sent.Some? then WithSessionId(old(storage.items), now, random) else old(storage.items);
         messages == old(messages) + [user, Message(answer.text, "bot", later)]
         && inputMessage == "" && !isTyping && sent == answer.request
         && storage.items == if storage.available then withId[MessagesKey := Encode(messages)] else old(storage.items))
    {
      var trimmed := JsTrim(inputMessage);
      if trimmed == "" || isTyping {
        return None;
      }
      sent := Accept(Message(trimmed, "user", now), later, random, backend);
    }

    /** An accepted send: the reply is computed, a backend request looks
        up the session id, and the two messages are appended and saved. */
    method Accept(user: Message, later: nat, random: string, backend: Request -> Option<BackendData>) returns (sent: Option<Request>)
      modifies this, storage
      ensures dynamicKnowledge == old(dynamicKnowledge) && isOpen == old(isOpen) && showCloseConfirm == old(showCloseConfirm)
      ensures storage.available == old(storage.available)
      ensures var answer := LegacyRespond(staticEntries, old(dynamicKnowledge), old(messages), user, backend);
        messages == old(messages) + [user, Message(answer.text, "bot", later)]
        && inputMessage == "" && !isTyping && sent == answer.request
      ensures var withId := if sent.Some? then WithSessionId(old(storage.items), user.timestamp, random) else old(storage.items);
        storage.items == if storage.available then withId[MessagesKey := Encode(messages)] else old(storage.items)
    {
      var answer := ComputeReply(messages, user, backend);
      RequestSessionId(answer.request.Some?, user.timestamp, random);
      Append(user, Message(answer.text, "bot", later));
      sent := answer.request;
    }

    /** getChatbotSessionId, which a backend request makes; it reads and
        writes the same key as the session manager. No lookup happens
        when `ask` is false. */
    method RequestSessionId(ask: bool, now: nat, random: string)
      modifies storage
      ensures storage.available == old(storage.available)
      ensures storage.items == if storage.available && ask then WithSessionId(old(storage.items), now, random) else old(storage.items)
    {
      if ask {
        var sessionId := storage.GetOrCreateSessionId(now, random);
      }
    }

    /** The two appends of an accepted send, each saved by the persisting
        effect. */
    method Append(user: Message, reply: Message)
      modifies this, storage
      ensures dynamicKnowledge == old(dynamicKnowledge) && isOpen == old(isOpen) && showCloseConfirm == old(showCloseConfirm)
      ensures storage.available == old(storage.available)
      ensures messages == old(messages) + [user, reply]
      ensures inputMessage == "" && !isTyping
      ensures storage.items == if storage.available then old(storage.items)[MessagesKey := Encode(messages)] else old(storage.items)
    {
      messages := messages + [user];
      inputMessage := "";
      isTyping := true;
      storage.SaveMessages(messages);
      messages := messages + [reply];
      isTyping := false;
      storage.SaveMessages(messages);
    }

    /** confirmClose: the dialog and the window close; inside one try,
        both keys are removed and the list is reset to one welcome
        message, so when localStorage throws the reset is skipped and the
        old list stays. The effects then save the list and, if the window
        was open, the closed flag. */
    method ConfirmClose(now: nat)
      modifies this, storage
      ensures !isOpen && !showCloseConfirm
      ensures messages == if old(storage.available) then [Welcome(now)] else old(messages)
      ensures inputMessage == old(inputMessage) && isTyping == old(isTyping) && dynamicKnowledge == old(dynamicKnowledge)
      ensures storage.available == old(storage.available)
      ensures var written := (old(storage.items) - {MessagesKey, IsOpenKey})[MessagesKey := Encode([Welcome(now)])];
        storage.items ==
          if !storage.available then old(storage.items)
          else if old(isOpen) then written[IsOpenKey := BoolText(false)]
          else written
    {
      var wasOpen := isOpen;
      showCloseConfirm := false;
      isOpen := false;
      if storage.available {
        storage.ClearSession();
        messages := [Welcome(now)];
        storage.SaveMessages(messages);
      }
      if wasOpen {
        storage.SaveIsOpen(false);
      }
    }

    /** handleCloseClick and toggleChatbot: an open window asks for
        confirmation and stays open; a closed one opens, and the effect
        saves the open flag. */
    method HandleCloseClick()
      modifies this, storage
      ensures messages == old(messages) && inputMessage == old(inputMessage) && isTyping == old(isTyping)
      ensures dynamicKnowledge == old(dynamicKnowledge) && storage.available == old(storage.available)
      ensures old(isOpen) ==> isOpen && showCloseConfirm && storage.items == old(storage.items)
      ensures !old(isOpen) ==>
        (isOpen && showCloseConfirm == old(showCloseConfirm)
         && storage.items == if storage.available then old(storage.items)[IsOpenKey := BoolText(true)] else old(storage.items))
    {
      if isOpen {
        showCloseConfirm := true;
      } else {
        isOpen := true;
        storage.SaveIsOpen(true);
      }
    }

    /** cancelClose, and the Escape key while the dialog shows: the dialog
        closes and nothing else changes. */
    method CancelClose()
      modifies this
      ensures !showCloseConfirm && isOpen == old(isOpen) && messages == old(messages)
      ensures inputMessage == old(inputMessage) && isTyping == old(isTyping) && dynamicKnowledge == old(dynamicKnowledge)
    {
      showCloseConfirm := false;
    }
  }
}
