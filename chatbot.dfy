/** The chat controller (src/hooks/useChatbot.js): the message list, the
    input box, the typing flag and the dynamic knowledge, and the send
    step that answers with a canned reply, a local answer from the
    knowledge index, or the backend's reply. The backend
    (src/services/chatbotAPI.js) is a function from the request to the
    response body, or to nothing when the request fails. */
module Chat {
  import opened Wrappers
  import opened Strs
  import opened Records
  import opened Js
  import opened Text
  import opened Context
  import opened Matcher
  import opened Extractor
  import opened Formatter
  import opened Responses
  import opened Session

  const LocalThreshold: real := 0.3
  const SoftThreshold: real := 0.22
  const DynamicEntryLimit: nat := 6
  const HistoryLimit: nat := 8
  const WelcomeText: string := "Hello! I'm here to help you with questions about City College of Bayawan. How can I assist you today?"
  const BackendFallback: string := "I'm sorry, I couldn't generate a response right now."

  /** One turn of the history sent to the backend. */
  datatype Turn = Turn(role: string, content: string)

  datatype Request = Request(message: string, context: seq<ContextItem>, history: seq<Turn>)

  /** The `reply` and `message` fields of the backend's response body; an
      absent field is the empty string. */
  datatype BackendData = BackendData(reply: string, message: string)

  /** The bot's text, and the request sent to the backend if one was. */
  datatype Answer = Answer(text: string, request: Option<Request>)

  function Welcome(now: nat): Message
  {
    Message(WelcomeText, "bot", now)
  }

  /** `data?.reply || data?.message || fallback` (src/services/chatbotAPI.js). */
  function BackendText(data: BackendData): (r: string)
    ensures data.reply != "" ==> r == data.reply
    ensures data.reply == "" && data.message != "" ==> r == data.message
    ensures data.reply == "" && data.message == "" ==> r == BackendFallback
    ensures r != ""
  {
    if data.reply != "" then data.reply
    else if data.message != "" then data.message
    else BackendFallback
  }

  /** Some static keyword is a substring of the normalised message. */
  predicate HasSiteIntent(statics: seq<Entry>, normalized: string)
  {
    exists i, k :: 0 <= i < |statics| && 0 <= k < |statics[i].keywords| && Contains(normalized, statics[i].keywords[k])
  }

  /** The test for answering from the knowledge index. */
  predicate AnswersLocally(r: MatchResult, statics: seq<Entry>)
  {
    (r.topScore >= LocalThreshold || (HasSiteIntent(statics, r.normalizedMessage) && r.topScore >= SoftThreshold))
    && |r.matches| > 0
  }

  function TurnOf(m: Message): Turn
  {
    Turn(if m.sender == "user" then "user" else "assistant", m.text)
  }

  /** `slice(-8)` then the role mapping. */
  function HistoryPayload(msgs: seq<Message>): (r: seq<Turn>)
    ensures |r| == if |msgs| < HistoryLimit then |msgs| else HistoryLimit
    ensures forall k :: 0 <= k < |r| ==> r[k] == TurnOf(msgs[|msgs| - |r| + k])
  {
    var n := if |msgs| < HistoryLimit then |msgs| else HistoryLimit;
    var kept := msgs[|msgs| - n..];
    seq(n, k requires 0 <= k < n => TurnOf(kept[k]))
  }

  /** The local answer: buildLocalResponse. */
  function LocalText(message: string, matches: seq<Scored<Indexed>>): string
  {
    Render(IntroText(IntroFor(NormalizeText(message), matches)), Lines(matches))
  }

  /** matchQuery over the static and dynamic entries. */
  function Lookup(statics: seq<Entry>, dynamic: seq<Entry>, message: string): MatchResult
  {
    MatchQuery(KnowledgeIndex(statics + dynamic), message)
  }

  /** The request sent when the message is not answered locally. */
  function FallbackFor(statics: seq<Entry>, dynamic: seq<Entry>, prior: seq<Message>, user: Message): Request
  {
    Request(user.text, ContextItems(Lookup(statics, dynamic, user.text).matches), HistoryPayload(prior + [user]))
  }

  /** The backend's text, or the apology when the call fails. */
  function BackendAnswer(request: Request, backend: Request -> Option<BackendData>): string
  {
    match backend(request)
    case Some(data) => BackendText(data)
    case None => FormatErrorResponse("")
  }

  /** What one processed send answers, given the messages before it and
      the user's message. */
  function Respond(statics: seq<Entry>, dynamic: seq<Entry>, prior: seq<Message>, user: Message,
                   backend: Request -> Option<BackendData>): Answer
  {
    var quick := QuickReply(user.text);
    if quick.Some? then Answer(quick.value, None)
    else if AnswersLocally(Lookup(statics, dynamic, user.text), statics) then
      Answer(LocalText(user.text, Lookup(statics, dynamic, user.text).matches), None)
    else
      var request := FallbackFor(statics, dynamic, prior, user);
      Answer(BackendAnswer(request, backend), Some(request))
  }

  /** Each source's outcome: nothing when fetching or extracting fails. */
  function Extractions(sources: seq<Source>, fetched: seq<Option<Value>>): (r: seq<Option<seq<Entry>>>)
    requires |fetched| == |sources|
    ensures |r| == |sources|
    ensures forall i :: 0 <= i < |r| ==> (fetched[i].None? ==> r[i].None?)
    ensures forall i :: 0 <= i < |r| ==> (fetched[i].Some? ==> r[i] == ExtractEntries(sources[i], fetched[i].value, DynamicEntryLimit))
  {
    seq(|sources|, i requires 0 <= i < |sources| =>
      match fetched[i]
      case None => None
      case Some(data) => ExtractEntries(sources[i], data, DynamicEntryLimit))
  }

  /** The entries of the successful outcomes, in source order. */
  function Successful(results: seq<Option<seq<Entry>>>): (r: seq<Entry>)
  {
    if results == [] then []
    else
      var last := results[|results| - 1];
      Successful(results[..|results| - 1]) + (if last.Some? then last.value else [])
  }

  /** An entry is dynamic knowledge iff some successful source yields it;
      failed sources add nothing. */
  lemma {:induction false} SuccessfulEntries(results: seq<Option<seq<Entry>>>)
    ensures forall e :: e in Successful(results) <==>
      exists i :: 0 <= i < |results| && results[i].Some? && e in results[i].value
  {
    if results != [] {
      var init := results[..|results| - 1];
      SuccessfulEntries(init);
      forall e | e in Successful(results)
        ensures exists i :: 0 <= i < |results| && results[i].Some? && e in results[i].value
      {
        if e in Successful(init) {
          var i :| 0 <= i < |init| && init[i].Some? && e in init[i].value;
          assert results[i] == init[i];
        }
      }
      forall e, i | 0 <= i < |results| && results[i].Some? && e in results[i].value
        ensures e in Successful(results)
      {
        if i < |init| {
          assert init[i] == results[i];
        }
      }
    }
  }

  /** The number of dynamic entries is the sum over successful sources. */
  lemma {:induction false} SuccessfulAppend(results: seq<Option<seq<Entry>>>, more: seq<Option<seq<Entry>>>)
    ensures Successful(results + more) == Successful(results) + Successful(more)
  {
    if more == [] {
      assert results + more == results;
    } else {
      SuccessfulAppend(results, more[..|more| - 1]);
      assert (results + more)[..|results + more| - 1] == results + more[..|more| - 1];
    }
  }

  // ----- Properties of one send -----

  /** A canned reply is sent without matching and without the backend. */
  lemma QuickReplyPath(statics: seq<Entry>, dynamic: seq<Entry>, prior: seq<Message>, user: Message,
                       backend: Request -> Option<BackendData>)
    requires QuickReply(user.text).Some?
    ensures Respond(statics, dynamic, prior, user, backend) == Answer(QuickReply(user.text).value, None)
  {
  }

  /** The backend is asked iff there is no canned reply and the local
      test fails, and then with the fallback request. */
  lemma BackendIff(statics: seq<Entry>, dynamic: seq<Entry>, prior: seq<Message>, user: Message,
                   backend: Request -> Option<BackendData>)
    ensures Respond(statics, dynamic, prior, user, backend).request.Some? <==>
      (QuickReply(user.text).None? && !AnswersLocally(Lookup(statics, dynamic, user.text), statics))
    ensures Respond(statics, dynamic, prior, user, backend).request.Some? ==>
      (Respond(statics, dynamic, prior, user, backend).request == Some(FallbackFor(statics, dynamic, prior, user))
       && Respond(statics, dynamic, prior, user, backend).text == BackendAnswer(FallbackFor(statics, dynamic, prior, user), backend))
  {
  }

  /** A top score of at least 0.3 answers locally: the top scorer is then
      among the matches, so the non-empty test always passes. */
  lemma ConfidentIsLocal(statics: seq<Entry>, dynamic: seq<Entry>, prior: seq<Message>, user: Message,
                         backend: Request -> Option<BackendData>)
    requires QuickReply(user.text).None?
    requires Lookup(statics, dynamic, user.text).topScore >= LocalThreshold
    ensures var result := Lookup(statics, dynamic, user.text);
      Respond(statics, dynamic, prior, user, backend) == Answer(LocalText(user.text, result.matches), None)
  {
    TopIncluded(KnowledgeIndex(statics + dynamic), user.text);
  }

  /** A site keyword in the message lowers the bar to 0.22. */
  lemma SiteIntentIsLocal(statics: seq<Entry>, dynamic: seq<Entry>, prior: seq<Message>, user: Message,
                          backend: Request -> Option<BackendData>)
    requires QuickReply(user.text).None?
    requires HasSiteIntent(statics, NormalizeText(user.text))
    requires Lookup(statics, dynamic, user.text).topScore >= SoftThreshold
    ensures var result := Lookup(statics, dynamic, user.text);
      Respond(statics, dynamic, prior, user, backend) == Answer(LocalText(user.text, result.matches), None)
  {
    TopIncluded(KnowledgeIndex(statics + dynamic), user.text);
  }

  /** The fallback request: the user's text, at most three context items
      taken from the matches, and the last at most eight turns ending
      with the user's own message. */
  lemma FallbackRequest(statics: seq<Entry>, dynamic: seq<Entry>, prior: seq<Message>, user: Message)
    requires user.sender == "user"
    ensures var request := FallbackFor(statics, dynamic, prior, user);
      request.message == user.text && request.context == ContextItems(Lookup(statics, dynamic, user.text).matches)
      && |request.context| <= MaxMatches
      && 1 <= |request.history| <= HistoryLimit
      && request.history[|request.history| - 1] == Turn("user", user.text)
  {
    var h := HistoryPayload(prior + [user]);
    assert h[|h| - 1] == TurnOf((prior + [user])[|prior|]);
  }

  /** A failed backend call answers with the apology; a successful one
      never with the empty string. */
  lemma BackendFailure(request: Request, backend: Request -> Option<BackendData>)
    ensures backend(request).None? ==> BackendAnswer(request, backend) == Apology
    ensures BackendAnswer(request, backend) != ""
  {
  }

  /** The state of the chat controller. */
  class Chatbot {
    const staticEntries: seq<Entry>
    const storage: Storage
    var messages: seq<Message>
    var inputMessage: string
    var isTyping: bool
    var dynamicKnowledge: seq<Entry>

    /** useChatbot's initial state: the stored messages, or one welcome
        message; the [messages] effect runs once on mount and writes that
        list back. */
    constructor (statics: seq<Entry>, st: Storage, now: nat)
      modifies st
      ensures staticEntries == statics && storage == st
      ensures messages == StoredMessages(old(st.items), old(st.available), [Welcome(now)])
      ensures inputMessage == "" && !isTyping && dynamicKnowledge == []
      ensures st.available == old(st.available)
      ensures st.items == if st.available then old(st.items)[MessagesKey := Encode(messages)] else old(st.items)
    {
      var loaded := st.LoadMessages([Welcome(now)]);
      staticEntries := statics;
      storage := st;
      messages := loaded;
      inputMessage := "";
      isTyping := false;
      dynamicKnowledge := [];
      new;
      st.SaveMessages(loaded);
    }

    /** The index over static and dynamic entries. */
    function Index(): seq<Indexed>
      reads this
    {
      KnowledgeIndex(staticEntries + dynamicKnowledge)
    }

    /** setInputMessage. */
    method SetInput(text: string)
      modifies this
      ensures inputMessage == text
      ensures messages == old(messages) && isTyping == old(isTyping) && dynamicKnowledge == old(dynamicKnowledge)
    {
      inputMessage := text;
    }

    /** loadDynamicKnowledge, with each source's fetched response given
        (nothing for a failed fetch). */
    method LoadDynamicKnowledge(sources: seq<Source>, fetched: seq<Option<Value>>)
      requires |fetched| == |sources|
      modifies this
      ensures dynamicKnowledge == Successful(Extractions(sources, fetched))
      ensures messages == old(messages) && inputMessage == old(inputMessage) && isTyping == old(isTyping)
    {
      var results := Extractions(sources, fetched);
      var entries: seq<Entry> := [];
      for i := 0 to |results|
        invariant entries == Successful(results[..i])
      {
        assert results[..i + 1][..i] == results[..i];
        if results[i].Some? {
          entries := entries + results[i].value;
        }
      }
      assert results[..|results|] == results;
      dynamicKnowledge := entries;
    }

    /** resetConversation: one welcome message. */
    method ResetConversation(now: nat)
      modifies this, storage
      ensures messages == [Welcome(now)]
      ensures inputMessage == old(inputMessage) && isTyping == old(isTyping) && dynamicKnowledge == old(dynamicKnowledge)
      ensures storage.available == old(storage.available)
      ensures storage.items == if storage.available then old(storage.items)[MessagesKey := Encode(messages)] else old(storage.items)
    {
      messages := [Welcome(now)];
      storage.SaveMessages(messages);
    }

    /** The reply step of sendMessage: a canned reply, a local answer or
        the backend's. */
    method ComputeAnswer(prior: seq<Message>, user: Message, backend: Request -> Option<BackendData>)
      returns (answer: Answer)
      ensures answer == Respond(staticEntries, dynamicKnowledge, prior, user, backend)
    {
      var quick := QuickReply(user.text);
      if quick.Some? {
        return Answer(quick.value, None);
      }
      var result := MatchQuery(Index(), user.text);
      var hasSiteIntent := HasSiteIntent(staticEntries, result.normalizedMessage);
      var shouldAnswerLocally := result.topScore >= LocalThreshold || (hasSiteIntent && result.topScore >= SoftThreshold);
      if shouldAnswerLocally && |result.matches| > 0 {
        var text := BuildLocalResponse(user.text, result.matches);
        answer := Answer(text, None);
      } else {
        var request := Request(user.text, ContextItems(result.matches), HistoryPayload(prior + [user]));
        answer := Answer(BackendAnswer(request, backend), Some(request));
      }
    }

    /** sendMessage: `now` stamps the user's message and `later` the
        bot's; `sent` is the request made to the backend, if any. After
        every change of the message list the list is saved. A backend
        request first asks the session manager for the session id, which
        stores a new one (from `now` and the `random` draw) when none is
        stored. */
    method SendMessage(now: nat, later: nat, random: string, backend: Request -> Option<BackendData>) returns (sent: Option<Request>)
      modifies this, storage
      ensures dynamicKnowledge == old(dynamicKnowledge)
      ensures storage.available == old(storage.available)
      ensures JsTrim(old(inputMessage)) == "" || old(isTyping) ==>
        (messages == old(messages) && inputMessage == old(inputMessage) && isTyping == old(isTyping)
         && sent == None && storage.items == old(storage.items))
      ensures JsTrim(old(inputMessage)) != "" && !old(isTyping) ==>
        (var user := Message(JsTrim(old(inputMessage)), "user", now);
         var answer := Respond(staticEntries, old(dynamicKnowledge), old(messages), user, backend);
         var withId := if sent.Some? then WithSessionId(old(storage.items), now, random) else old(storage.items);
         messages == old(messages) + [user, Message(answer.text, "bot", later)]
         && inputMessage == "" && !isTyping && sent == answer.request
         && storage.items == if storage.available then withId[MessagesKey := Encode(messages)] else old(storage.items))
    {
      var trimmed := JsTrim(inputMessage);
      if trimmed == "" || isTyping {
        return None;
      }
      sent := Accept(Message(trimmed, "user", now), later, random, backend);
    }

    /** An accepted send: the answer is computed, a backend request looks
        up the session id, and the two messages are appended and saved. */
    method Accept(user: Message, later: nat, random: string, backend: Request -> Option<BackendData>) returns (sent: Option<Request>)
      modifies this, storage
      ensures dynamicKnowledge == old(dynamicKnowledge)
      ensures storage.available == old(storage.available)
      ensures var answer := Respond(staticEntries, old(dynamicKnowledge), old(messages), user, backend);
        messages == old(messages) + [user, Message(answer.text, "bot", later)]
        && inputMessage == "" && !isTyping && sent == answer.request
      ensures var withId := if sent.Some? then WithSessionId(old(storage.items), user.timestamp, random) else old(storage.items);
        storage.items == if storage.available then withId[MessagesKey := Encode(messages)] else old(storage.items)
    {
      var answer := ComputeAnswer(messages, user, backend);
      RequestSessionId(answer.request.Some?, user.timestamp, random);
      Exchange(user, Message(answer.text, "bot", later));
      sent := answer.request;
    }

    /** The session manager's lookup that a backend request makes; no
        lookup happens when `ask` is false. */
    method RequestSessionId(ask: bool, now: nat, random: string)
      modifies storage
      ensures storage.available == old(storage.available)
      ensures storage.items == if storage.available && ask then WithSessionId(old(storage.items), now, random) else old(storage.items)
    {
      if ask {
        var sessionId := storage.GetOrCreateSessionId(now, random);
      }
    }

    /** An accepted send: the user's message is appended and saved, the
        input cleared, and the bot's message appended and saved. */
    method Exchange(user: Message, reply: Message)
      modifies this, storage
      ensures dynamicKnowledge == old(dynamicKnowledge)
      ensures storage.available == old(storage.available)
      ensures messages == old(messages) + [user, reply]
      ensures inputMessage == "" && !isTyping
      ensures storage.items == if storage.available then old(storage.items)[MessagesKey := Encode(messages)] else old(storage.items)
    {
      messages := messages + [user];
      storage.SaveMessages(messages);
      inputMessage := "";
      isTyping := true;
      messages := messages + [reply];
      storage.SaveMessages(messages);
      isTyping := false;
    }
  }
}
