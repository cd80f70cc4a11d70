/** Canned replies and the local answer (src/services/responseGenerator.js). */
module Responses {
  import opened Wrappers
  import opened Context
  import opened Text
  import opened Intent
  import opened Formatter

  const GreetingReply: string := "Hi! I\U{2019}m here to help with anything about City College of Bayawan. What would you like to explore?"
  const ThanksReply: string := "You\U{2019}re welcome! If you need anything else, just ask."
  const GoodbyeReply: string := "Goodbye! Take care, and come back anytime if you have more questions."

  /** buildQuickReply: a fixed reply for a greeting, thanks or a goodbye,
      and none for every other intent. */
  function QuickReply(message: string): (r: Option<string>)
    ensures r.Some? <==> RecognizeIntent(message).kind in {Greeting, Thanks, Goodbye}
    ensures RecognizeIntent(message).kind == Greeting ==> r == Some(GreetingReply)
    ensures RecognizeIntent(message).kind == Thanks ==> r == Some(ThanksReply)
    ensures RecognizeIntent(message).kind == Goodbye ==> r == Some(GoodbyeReply)
  {
    match RecognizeIntent(message).kind
    case Greeting => Some(GreetingReply)
    case Thanks => Some(ThanksReply)
    case Goodbye => Some(GoodbyeReply)
    case _ => None
  }

  /** The three canned replies are different, so the reply tells the
      intent apart. */
  lemma RepliesDistinct()
    ensures GreetingReply != ThanksReply && GreetingReply != GoodbyeReply && ThanksReply != GoodbyeReply
  {
    assert |ThanksReply| < |GoodbyeReply| < |GreetingReply|;
  }

  /** A message with "hi" as one of its words gets the greeting reply. */
  lemma HiGetsGreeting(message: string)
    requires "hi" in Strs.Split(NormalizeText(message), ' ')
    ensures QuickReply(message) == Some(GreetingReply)
  {
    HiIsAWord(message);
  }

  /** "history" gets no canned reply and goes on to matching. */
  lemma HistoryGetsNoQuickReply(message: string)
    requires NormalizeText(message) == "history"
    ensures QuickReply(message) == None
  {
    HistoryIsGeneral(message);
  }

  /** buildLocalResponse: the formatted answer. */
  method BuildLocalResponse(message: string, matches: seq<Scored<Indexed>>) returns (r: string)
    ensures r == Render(IntroText(IntroFor(NormalizeText(message), matches)), Lines(matches))
  {
    r := FormatLocalResponse(message, matches);
  }
}
