/** The challenge lifecycle across handlers: a record is written when a
    member joins, and removed either by the member's answer or by the
    timeout, whichever comes first; the other then finds nothing to do. */
module Lifecycle {
  import opened Base
  import opened Registry
  import opened Telegram
  import opened CaptchaService
  import opened CaptchaCallback
  import opened CaptchaJoin

  /** Every record is keyed by its own user and holds a four-digit answer. */
  ghost predicate WellFormed(states: States) {
    forall u :: u in states ==> states[u].userId == u && IsAnswer(states[u].answer)
  }

  /** The answers the generator handed to the join loop (the generator only
      produces four-digit answers). */
  ghost predicate GeneratedAnswers(attempts: seq<Attempt>) {
    forall i :: 0 <= i < |attempts| && attempts[i].answer.Some? ==> IsAnswer(attempts[i].answer.value)
  }

  lemma {:induction false} JoinPreservesWellFormed(states: States, chatId: int, mention: string, members: seq<User>, attempts: seq<Attempt>, hasFsm: bool, tr: Localizer)
    requires |attempts| == |members|
    requires WellFormed(states) && GeneratedAnswers(attempts)
    ensures WellFormed(JoinLoop(states, chatId, mention, members, attempts, hasFsm, tr).states)
    decreases |members|
  {
    if members != [] {
      var n := |members| - 1;
      assert GeneratedAnswers(attempts[..n]) by {
        forall i | 0 <= i < n && attempts[..n][i].answer.Some?
          ensures IsAnswer(attempts[..n][i].answer.value)
        {
          assert attempts[..n][i] == attempts[i];
        }
      }
      JoinPreservesWellFormed(states, chatId, mention, members[..n], attempts[..n], hasFsm, tr);
    }
  }

  lemma AnswerPreservesWellFormed(states: States, msg: Option<Message>, now: int, tr: Localizer, banOk: bool, sent: Option<int>)
    requires SenderKnown(msg) && WellFormed(states)
    ensures WellFormed(AnswerStep(states, msg, now, tr, banOk, sent).states)
  {
  }

  lemma TimeoutPreservesWellFormed(states: States, chatId: int, userId: int, mention: string, photoId: int, now: int, banOk: bool, sent: Option<int>)
    requires WellFormed(states)
    ensures WellFormed(TimeoutStep(states, chatId, userId, mention, photoId, now, banOk, sent).states)
  {
  }

  /** A member who answers in time consumes the record, so the timeout that
      fires later finds nothing and calls nothing. */
  lemma AnswerBeatsTimeout(states: States, msg: Option<Message>, now: int, tr: Localizer, banOk: bool, sent: Option<int>,
                           chatId: int, mention: string, photoId: int, later: int, banOk2: bool, sent2: Option<int>)
    requires SenderKnown(msg) && Answers(states, msg, now)
    ensures var after := AnswerStep(states, msg, now, tr, banOk, sent).states;
      TimeoutStep(after, chatId, msg.value.from.value.id, mention, photoId, later, banOk2, sent2) == Outcome(after, [])
  {
  }

  /** A timeout that evicts the record leaves a later answer of the same user
      unchecked: no deletion, no ban, no notice. */
  lemma TimeoutBeatsAnswer(states: States, chatId: int, userId: int, mention: string, photoId: int, now: int, banOk: bool, sent: Option<int>,
                           msg: Option<Message>, later: int, tr: Localizer, banOk2: bool, sent2: Option<int>)
    requires userId in states && now > states[userId].expiresAt
    requires SenderKnown(msg) && msg.Some? && msg.value.from.Some? && msg.value.from.value.id == userId
    ensures var after := TimeoutStep(states, chatId, userId, mention, photoId, now, banOk, sent).states;
      AnswerStep(after, msg, later, tr, banOk2, sent2) == Outcome(after, [])
  {
  }

  /** Once a member is registered at instant `t`, an answer sent at any
      instant up to `t` plus thirty seconds is checked, the timeout does
      nothing up to then, and evicts the record at any later instant. */
  lemma AnswerWindowBounds(states: States, chatId: int, member: User, at: Attempt, tr: Localizer,
                           later: int, msg: Option<Message>, mention: string, photoId: int, banOk: bool, sent: Option<int>)
    requires Registered(member, at, true)
    requires SenderKnown(msg) && msg.Some? && msg.value.text != "" && msg.value.from == Some(member)
    ensures var s := MemberStep(states, chatId, mention, member, at, true, tr).states;
      (later <= at.now + 30 * Second ==> Answers(s, msg, later)) &&
      (later <= at.now + 30 * Second ==>
        TimeoutStep(s, chatId, member.id, mention, photoId, later, banOk, sent) == Outcome(s, [])) &&
      (later > at.now + 30 * Second ==>
        TimeoutStep(s, chatId, member.id, mention, photoId, later, banOk, sent).states == s - {member.id})
  {
  }

  /** Joining and answering correctly, end to end: the record the join step
      writes for a member is consumed by the member's correct answer, and no
      ban is issued. */
  lemma CorrectAnswerScenario(tr: Localizer, sent: Option<int>)
    ensures var bob := User(7, false, "Bob", "", "", "en");
      var join := Message(1, -100, Some(bob), "", Some([bob]));
      var joined := JoinStep(map[], Some(join), [Attempt(Some("0427"), Some(2), 0)], true, tr);
      var reply := Some(Message(3, -100, Some(bob), "0427", None));
      var answered := AnswerStep(joined.states, reply, 10 * Second, tr, true, sent);
      joined.states == map[7 := CaptchaData(-100, 7, "0427", 30 * Second, 2)] &&
      answered.states == map[] && !HasBan(answered.actions)
  {
    var bob := User(7, false, "Bob", "", "", "en");
    var join := Message(1, -100, Some(bob), "", Some([bob]));
    var attempts := [Attempt(Some("0427"), Some(2), 0)];
    assert [bob][..0] == [] && attempts[..0] == [];
    var joined := JoinStep(map[], Some(join), attempts, true, tr);
    var reply := Some(Message(3, -100, Some(bob), "0427", None));
    BanIffWrongAnswer(joined.states, reply, 10 * Second, tr, true, sent);
  }
}
