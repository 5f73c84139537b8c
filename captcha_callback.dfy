/** Handling a text message that may answer a pending captcha: the decision
    over the registry and the ordered transport calls it makes. */
module CaptchaCallback {
  import opened Base
  import opened Registry
  import opened Telegram
  import opened Mention

  /** The handler reads the sender of every non-empty message; a message
      without one would dereference a nil pointer. */
  predicate SenderKnown(msg: Option<Message>) {
    msg.Some? && msg.value.text != "" ==> msg.value.from.Some?
  }

  /** The message is checked against a pending, unexpired record of its
      sender. */
  predicate Answers(states: States, msg: Option<Message>, now: int)
    requires SenderKnown(msg)
  {
    msg.Some? && msg.value.text != "" &&
    msg.value.from.value.id in states && !ExpiredAt(states, msg.value.from.value.id, now)
  }

  /** The deferred deletion of the notice, when sending it succeeded. */
  function DeleteLaterIfSent(chatId: int, sent: Option<int>): (r: seq<Action>)
    ensures forall i :: 0 <= i < |r| ==> r[i].DeleteLater?
  {
    if sent.Some? then [DeleteLater(chatId, sent.value)] else []
  }

  /** What follows the deletion of the answer message: the correct path
      deletes the photo and posts the Markdown success notice; the wrong path
      bans the sender, deletes the photo and posts the plain failure notice.
      A failed send ends the handler before the deferred deletion. */
  function Verdict(m: Message, sender: User, data: CaptchaData, now: int, tr: Localizer, sent: Option<int>): (r: seq<Action>)
    ensures DeleteMessage(m.chatId, data.photoMessageId) in r
    ensures HasBan(r) <==> m.text != data.answer
  {
    if m.text == data.answer then
      var r := [DeleteMessage(m.chatId, data.photoMessageId),
                SendText(m.chatId, tr("captcha_success", Some(GenerateMention(sender))), true)]
               + DeleteLaterIfSent(m.chatId, sent);
      assert forall i :: 0 <= i < |r| ==> !r[i].Ban?;
      r
    else
      var r := [Ban(m.chatId, sender.id, BanUntil(now)),
                DeleteMessage(m.chatId, data.photoMessageId),
                SendText(m.chatId, tr("captcha_failed", None), false)]
               + DeleteLaterIfSent(m.chatId, sent);
      assert r[0].Ban?;
      r
  }

  /** The whole answer handler as a function of the registry and the
      transport's replies: `banOk` is whether the ban call succeeded, `sent`
      the id of the posted notice or None when posting failed. */
  function AnswerStep(states: States, msg: Option<Message>, now: int, tr: Localizer, banOk: bool, sent: Option<int>): (r: Outcome)
    requires SenderKnown(msg)
    ensures r.states.Keys <= states.Keys && forall u :: u in r.states ==> r.states[u] == states[u]
    ensures r.actions != [] <==> Answers(states, msg, now)
  {
    if !Answers(states, msg, now) then Outcome(states, [])
    else
      var m := msg.value;
      var sender := m.from.value;
      Outcome(states - {sender.id},
              [DeleteMessage(m.chatId, m.id)] + Verdict(m, sender, states[sender.id], now, tr, sent))
  }

  /** HandleCaptchaTextAnswer over the registry object; `fsm` is null when
      the context carries no registry. */
  method HandleCaptchaTextAnswer(fsm: CaptchaFSM?, msg: Option<Message>, now: int, tr: Localizer, banOk: bool, sent: Option<int>)
    returns (actions: seq<Action>)
    requires SenderKnown(msg)
    modifies fsm
    ensures fsm == null ==> actions == []
    ensures fsm != null ==>
      fsm.states == AnswerStep(old(fsm.states), msg, now, tr, banOk, sent).states &&
      actions == AnswerStep(old(fsm.states), msg, now, tr, banOk, sent).actions
  {
    actions := [];
    if msg.None? || msg.value.text == "" {
      return;
    }
    var m := msg.value;
    var sender := m.from.value;
    var userId := sender.id;
    var chatId := m.chatId;
    var answer := m.text;
    if fsm == null {
      return;
    }
    var data := fsm.GetState(userId);
    if data.None? {
      return;
    }
    var expired := fsm.IsExpired(userId, now);
    if expired {
      return;
    }
    actions := actions + [DeleteMessage(chatId, m.id)];
    if answer == data.value.answer {
      fsm.DeleteState(userId);
      actions := actions + [DeleteMessage(chatId, data.value.photoMessageId)];
      var successText := tr("captcha_success", Some(GenerateMention(sender)));
      actions := actions + [SendText(chatId, successText, true)];
      if sent.None? {
        return;
      }
      actions := actions + [DeleteLater(chatId, sent.value)];
    } else {
      fsm.DeleteState(userId);
      // The ban's result is only logged.
      actions := actions + [Ban(chatId, userId, BanUntil(now))];
      actions := actions + [DeleteMessage(chatId, data.value.photoMessageId)];
      var failedText := tr("captcha_failed", None);
      actions := actions + [SendText(chatId, failedText, false)];
      if sent.None? {
        return;
      }
      actions := actions + [DeleteLater(chatId, sent.value)];
    }
  }

  // ---------------------------------------------------------------------
  // Properties of the answer step.

  /** An empty or missing message, a sender without a record and an expired
      record all leave the registry as it is and call nothing. */
  lemma IgnoredMessages(states: States, msg: Option<Message>, now: int, tr: Localizer, banOk: bool, sent: Option<int>)
    requires SenderKnown(msg)
    requires msg.None? || msg.value.text == "" || msg.value.from.value.id !in states ||
             now > states[msg.value.from.value.id].expiresAt
    ensures AnswerStep(states, msg, now, tr, banOk, sent) == Outcome(states, [])
  {
  }

  /** A checked answer first deletes the answer message and, right or wrong,
      removes exactly the sender's record. */
  lemma CheckedAnswerConsumesRecord(states: States, msg: Option<Message>, now: int, tr: Localizer, banOk: bool, sent: Option<int>)
    requires SenderKnown(msg) && Answers(states, msg, now)
    ensures var o := AnswerStep(states, msg, now, tr, banOk, sent);
      |o.actions| >= 3 && o.actions[0] == DeleteMessage(msg.value.chatId, msg.value.id) &&
      o.states == states - {msg.value.from.value.id} &&
      Lookup(o.states, msg.value.from.value.id) == None &&
      forall v :: v != msg.value.from.value.id ==> Lookup(o.states, v) == Lookup(states, v)
  {
  }

  /** A ban is issued exactly when a checked answer differs from the stored
      one. */
  lemma {:induction false} BanIffWrongAnswer(states: States, msg: Option<Message>, now: int, tr: Localizer, banOk: bool, sent: Option<int>)
    requires SenderKnown(msg)
    ensures HasBan(AnswerStep(states, msg, now, tr, banOk, sent).actions) <==>
      Answers(states, msg, now) && msg.value.text != states[msg.value.from.value.id].answer
  {
    var o := AnswerStep(states, msg, now, tr, banOk, sent);
    if Answers(states, msg, now) {
      var m := msg.value;
      var data := states[m.from.value.id];
      var later := DeleteLaterIfSent(m.chatId, sent);
      assert forall i :: 0 <= i < |later| ==> !later[i].Ban?;
      if m.text == data.answer {
        var success := tr("captcha_success", Some(GenerateMention(m.from.value)));
        assert o.actions == [DeleteMessage(m.chatId, m.id), DeleteMessage(m.chatId, data.photoMessageId),
          SendText(m.chatId, success, true)] + later;
        assert forall i :: 0 <= i < |o.actions| ==> !o.actions[i].Ban?;
      } else {
        assert o.actions[1] == Ban(m.chatId, m.from.value.id, BanUntil(now));
      }
    }
  }

  /** The ban, when issued, is of the sender in the message's chat, until
      ten minutes after `now`. */
  lemma WrongAnswerBan(states: States, msg: Option<Message>, now: int, tr: Localizer, banOk: bool, sent: Option<int>)
    requires SenderKnown(msg) && Answers(states, msg, now)
    requires msg.value.text != states[msg.value.from.value.id].answer
    ensures var o := AnswerStep(states, msg, now, tr, banOk, sent);
      o.actions[1] == Ban(msg.value.chatId, msg.value.from.value.id, BanUntil(now)) &&
      o.actions[2] == DeleteMessage(msg.value.chatId, states[msg.value.from.value.id].photoMessageId) &&
      o.actions[3] == SendText(msg.value.chatId, tr("captcha_failed", None), false)
  {
  }

  /** On the correct path the photo is deleted, then the Markdown success
      notice carrying the sender's mention is posted and, when posting
      worked, deleted later; nobody is banned. */
  lemma CorrectAnswerNotice(states: States, msg: Option<Message>, now: int, tr: Localizer, banOk: bool, sent: Option<int>)
    requires SenderKnown(msg) && Answers(states, msg, now)
    requires msg.value.text == states[msg.value.from.value.id].answer
    ensures var o := AnswerStep(states, msg, now, tr, banOk, sent);
      var chat := msg.value.chatId;
      o.actions == [DeleteMessage(chat, msg.value.id),
                    DeleteMessage(chat, states[msg.value.from.value.id].photoMessageId),
                    SendText(chat, tr("captcha_success", Some(GenerateMention(msg.value.from.value))), true)]
                   + (if sent.Some? then [DeleteLater(chat, sent.value)] else [])
  {
  }

  /** The handler acts in the chat the answer was sent to and never compares
      it with the chat of the record: an answer sent from another chat, a
      private one say, still consumes the record, and every call goes to
      the chat the answer came from, none to the record's chat. */
  lemma AnswerChatNotChecked(states: States, msg: Option<Message>, now: int, tr: Localizer, banOk: bool, sent: Option<int>)
    requires SenderKnown(msg) && Answers(states, msg, now)
    requires msg.value.chatId != states[msg.value.from.value.id].chatId
    ensures var o := AnswerStep(states, msg, now, tr, banOk, sent);
      o.states == states - {msg.value.from.value.id} &&
      forall i :: 0 <= i < |o.actions| ==>
        !o.actions[i].Sleep? && o.actions[i].chatId == msg.value.chatId &&
        o.actions[i].chatId != states[msg.value.from.value.id].chatId
  {
    var m := msg.value;
    var tail := DeleteLaterIfSent(m.chatId, sent);
    assert forall i :: 0 <= i < |tail| ==> tail[i] == DeleteLater(m.chatId, sent.value);
  }

  /** Whether the ban succeeds changes nothing: the photo is still deleted
      and the failure notice still posted. */
  lemma BanResultIgnored(states: States, msg: Option<Message>, now: int, tr: Localizer, sent: Option<int>)
    requires SenderKnown(msg)
    ensures AnswerStep(states, msg, now, tr, true, sent) == AnswerStep(states, msg, now, tr, false, sent)
  {
  }

  /** Answers are compared exactly, without trimming: a leading space makes
      a right answer wrong. */
  lemma ExactComparison(now: int, tr: Localizer, sent: Option<int>)
    ensures var sender := User(7, false, "Ann", "", "", "en");
      var states := map[7 := CaptchaData(-100, 7, "1234", now, 5)];
      var msg := Some(Message(9, -100, Some(sender), " 1234", None));
      HasBan(AnswerStep(states, msg, now, tr, true, sent).actions) &&
      !HasBan(AnswerStep(states, Some(msg.value.(text := "1234")), now, tr, true, sent).actions)
  {
    var sender := User(7, false, "Ann", "", "", "en");
    var states := map[7 := CaptchaData(-100, 7, "1234", now, 5)];
    var msg := Some(Message(9, -100, Some(sender), " 1234", None));
    BanIffWrongAnswer(states, msg, now, tr, true, sent);
    BanIffWrongAnswer(states, Some(msg.value.(text := "1234")), now, tr, true, sent);
  }
}
