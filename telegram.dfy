/** The parts of Telegram's update objects the captcha flow reads, and the
    transport calls it makes, recorded as an action log instead of being
    sent. Times are nanoseconds since the Unix epoch, as Go's time.Time
    carries them. */
module Telegram {
  import opened Base
  import opened Registry

  datatype User = User(
    id: int,
    isBot: bool,
    firstName: string,
    lastName: string,
    username: string,
    languageCode: string)

  /** A chat message. `from` is None where Go's pointer is nil;
      `newChatMembers` is None where Go's slice is nil (a present but empty
      list is Some([])). */
  datatype Message = Message(
    id: int,
    chatId: int,
    from: Option<User>,
    text: string,
    newChatMembers: Option<seq<User>>)

  datatype CallbackQuery = CallbackQuery(from: User)

  datatype InlineQuery = InlineQuery(from: User)

  datatype Update = Update(
    message: Option<Message>,
    callbackQuery: Option<CallbackQuery>,
    inlineQuery: Option<InlineQuery>)

  /** One transport call, in the order the handler makes it. */
  datatype Action =
      /** A challenge photo; its caption always goes out as Markdown. */
    | SendPhoto(chatId: int, caption: string)
    | SendText(chatId: int, text: string, markdown: bool)
    | DeleteMessage(chatId: int, messageId: int)
    | Ban(chatId: int, userId: int, untilDate: int)
      /** A goroutine started to delete a message ten seconds later. */
    | DeleteLater(chatId: int, messageId: int)
      /** The timeout goroutine's own `time.Sleep`. */
    | Sleep(seconds: int)
      /** `go scheduleTimeoutCheck(...)` for a freshly registered member. */
    | StartTimeoutCheck(chatId: int, userId: int, mention: string, photoMessageId: int)

  /** The registry after a handler step and the transport calls the step
      made. */
  datatype Outcome = Outcome(states: States, actions: seq<Action>)

  const Second := 1_000_000_000

  /** How long a new member has to answer. */
  const AnswerWindow := 30 * Second

  /** How long a failed or timed-out member stays banned. */
  const BanDuration := 10 * 60 * Second

  /** `int(now.Add(10 * time.Minute).Unix())`: whole seconds, rounded down. */
  function BanUntil(now: int): (until: int)
    ensures until * Second <= now + BanDuration < (until + 1) * Second
  {
    (now + BanDuration) / Second
  }

  /** The localized text for a message key, with the `Username` template
      argument when there is one. */
  type Localizer = (string, Option<string>) -> string

  /** True when `actions` contains a ban of anyone. */
  predicate HasBan(actions: seq<Action>) {
    exists i :: 0 <= i < |actions| && actions[i].Ban?
  }
}
