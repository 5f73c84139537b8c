/** The bot's default handler: which captcha handler, if any, an update is
    given to. */
module Routing {
  import opened Base
  import opened Telegram
  import CaptchaCallback
  import CaptchaJoin

  datatype Route = NoHandler | JoinHandler | AnswerHandler

  /** The handler logs the sender of every message before routing, so a
      message always has one. */
  predicate SenderPresent(u: Update) {
    u.message.Some? ==> u.message.value.from.Some?
  }

  /** A handler is chosen only for a message, which then has a sender; the
      answer handler only gets a non-empty text. */
  function DefaultRoute(u: Update): (r: Route)
    requires SenderPresent(u)
    ensures r != NoHandler ==> u.message.Some? && u.message.value.from.Some?
    ensures r == AnswerHandler ==> u.message.value.text != ""
  {
    if u.message.Some? && u.message.value.newChatMembers.Some? then JoinHandler
    else if u.message.Some? && u.message.value.text != "" && u.message.value.text[0] != '/' then AnswerHandler
    else NoHandler
  }

  /** A message with a member list, even an empty one, goes to the join
      handler and never to the answer handler. */
  lemma MembersGoToJoin(u: Update)
    requires SenderPresent(u)
    ensures DefaultRoute(u) == JoinHandler <==> u.message.Some? && u.message.value.newChatMembers.Some?
  {
  }

  /** A command never reaches the answer handler. */
  lemma CommandsNotAnswers(u: Update)
    requires SenderPresent(u)
    requires u.message.Some? && |u.message.value.text| > 0 && u.message.value.text[0] == '/'
    ensures DefaultRoute(u) != AnswerHandler
  {
  }

  /** The answer handler gets exactly the messages without a member list
      whose text is non-empty and not a command; no message, or an empty
      text without a member list, reaches no handler. */
  lemma AnswerRoute(u: Update)
    requires SenderPresent(u)
    ensures DefaultRoute(u) == AnswerHandler <==>
      u.message.Some? && u.message.value.newChatMembers.None? &&
      u.message.value.text != "" && u.message.value.text[0] != '/'
    ensures u.message.None? ==> DefaultRoute(u) == NoHandler
    ensures u.message.Some? && u.message.value.text == "" && u.message.value.newChatMembers.None? ==>
      DefaultRoute(u) == NoHandler
  {
  }

  /** Routed updates meet the handlers' preconditions: the answer handler's
      message has a sender, and the join handler can build its mention
      whatever the attempts were. */
  lemma RoutedInputsAreValid(u: Update, attempts: seq<CaptchaJoin.Attempt>)
    requires SenderPresent(u)
    ensures DefaultRoute(u) == AnswerHandler ==> CaptchaCallback.SenderKnown(u.message)
    ensures DefaultRoute(u) == JoinHandler && |attempts| == |u.message.value.newChatMembers.value| ==>
      CaptchaJoin.JoinInputs(u.message, attempts)
  {
  }
}
