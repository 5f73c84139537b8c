/** Challenging the members who join a chat, and the guarded eviction that
    runs when a member's answer window has passed. */
module CaptchaJoin {
  import opened Base
  import opened Registry
  import opened Telegram
  import opened Mention

  /** What the generator and the transport answered while handling one
      joining member: the generated answer (None when generation failed), the
      id of the posted photo (None when posting failed), and the instant the
      record is written. */
  datatype Attempt = Attempt(answer: Option<string>, photoId: Option<int>, now: int)

  /** The photo caption: the welcome for the mention, a blank line, the
      prompt. */
  function Caption(tr: Localizer, mention: string): string {
    tr("captcha_welcome", Some(mention)) + "\n\n" + tr("captcha_prompt", None)
  }

  /** The record written for a member whose challenge was posted. */
  function RecordFor(chatId: int, member: User, at: Attempt): CaptchaData
    requires at.answer.Some? && at.photoId.Some?
  {
    CaptchaData(chatId, member.id, at.answer.value, at.now + AnswerWindow, at.photoId.value)
  }

  /** The member gets a challenge photo: not a bot, and generation worked. */
  predicate Challenged(member: User, at: Attempt) {
    !member.isBot && at.answer.Some?
  }

  /** The member also gets a record: the photo was posted and the registry
      is available. */
  predicate Registered(member: User, at: Attempt, hasFsm: bool) {
    Challenged(member, at) && at.photoId.Some? && hasFsm
  }

  /** The mention is built from the message's sender for every challenged
      member; the sender must then be present. */
  predicate MentionAvailable(from: Option<User>, members: seq<User>, attempts: seq<Attempt>)
    requires |attempts| == |members|
  {
    (exists i :: 0 <= i < |members| && Challenged(members[i], attempts[i])) ==> from.Some?
  }

  /** The mention of the message's sender. The handler builds it only for
      a challenged member, and its precondition (MentionAvailable) gives a
      sender then; the empty string for a missing sender is never used. */
  function SenderMention(from: Option<User>): string {
    if from.Some? then GenerateMention(from.value) else ""
  }

  /** One turn of the member loop; `mention` is the sender's mention. */
  function MemberStep(states: States, chatId: int, mention: string, member: User, at: Attempt, hasFsm: bool, tr: Localizer): (r: Outcome)
    ensures r.states == states || (member.id in r.states && r.states == states[member.id := r.states[member.id]])
    ensures r.actions != [] <==> Challenged(member, at)
  {
    if !Challenged(member, at) then Outcome(states, [])
    else
      var photo := [SendPhoto(chatId, Caption(tr, mention))];
      if !Registered(member, at, hasFsm) then Outcome(states, photo)
      else
        Outcome(states[member.id := RecordFor(chatId, member, at)],
                photo + [StartTimeoutCheck(chatId, member.id, mention, at.photoId.value)])
  }

  /** The member loop over `members`, each with its own attempt. */
  function JoinLoop(states: States, chatId: int, mention: string, members: seq<User>, attempts: seq<Attempt>, hasFsm: bool, tr: Localizer): (r: Outcome)
    requires |attempts| == |members|
    ensures states.Keys <= r.states.Keys
    ensures |r.actions| <= 2 * |members|
    decreases |members|
  {
    if members == [] then Outcome(states, [])
    else
      var n := |members| - 1;
      var prev := JoinLoop(states, chatId, mention, members[..n], attempts[..n], hasFsm, tr);
      var last := MemberStep(prev.states, chatId, mention, members[n], attempts[n], hasFsm, tr);
      Outcome(last.states, prev.actions + last.actions)
  }

  /** One more turn of the member loop. */
  lemma JoinLoopSnoc(states: States, chatId: int, mention: string, members: seq<User>, attempts: seq<Attempt>, hasFsm: bool, tr: Localizer, i: int)
    requires |attempts| == |members| && 0 <= i < |members|
    ensures var prev := JoinLoop(states, chatId, mention, members[..i], attempts[..i], hasFsm, tr);
            var last := MemberStep(prev.states, chatId, mention, members[i], attempts[i], hasFsm, tr);
            JoinLoop(states, chatId, mention, members[..i + 1], attempts[..i + 1], hasFsm, tr) == Outcome(last.states, prev.actions + last.actions)
  {
    assert members[..i + 1][..i] == members[..i] && attempts[..i + 1][..i] == attempts[..i];
  }

  /** The handler's precondition: one attempt per member when there are
      members, and a sender whenever a mention is needed. */
  predicate JoinInputs(msg: Option<Message>, attempts: seq<Attempt>) {
    msg.Some? && msg.value.newChatMembers.Some? ==>
      |attempts| == |msg.value.newChatMembers.value| &&
      MentionAvailable(msg.value.from, msg.value.newChatMembers.value, attempts)
  }

  /** HandleNewChatMember as a function of the registry and the replies. */
  function JoinStep(states: States, msg: Option<Message>, attempts: seq<Attempt>, hasFsm: bool, tr: Localizer): (r: Outcome)
    requires JoinInputs(msg, attempts)
    ensures states.Keys <= r.states.Keys
  {
    if msg.None? || msg.value.newChatMembers.None? || |msg.value.newChatMembers.value| == 0 then
      Outcome(states, [])
    else
      JoinLoop(states, msg.value.chatId, SenderMention(msg.value.from), msg.value.newChatMembers.value, attempts, hasFsm, tr)
  }

  /** One turn of HandleNewChatMember's loop, for `member`. `states` is the
      registry's content when there is a registry. */
  method ChallengeMember(fsm: CaptchaFSM?, ghost states: States, chatId: int, from: Option<User>, member: User, at: Attempt, tr: Localizer)
    returns (actions: seq<Action>)
    requires Challenged(member, at) ==> from.Some?
    requires fsm != null ==> fsm.states == states
    modifies fsm
    ensures actions == MemberStep(states, chatId, SenderMention(from), member, at, fsm != null, tr).actions
    ensures fsm != null ==> fsm.states == MemberStep(states, chatId, SenderMention(from), member, at, true, tr).states
  {
    actions := [];
    if member.isBot {
      return;
    }
    if at.answer.None? {
      return;
    }
    var mention := GenerateMention(from.value);
    var welcomeText := tr("captcha_welcome", Some(mention));
    welcomeText := welcomeText + "\n\n" + tr("captcha_prompt", None);
    assert mention == SenderMention(from) && welcomeText == Caption(tr, mention);
    actions := actions + [SendPhoto(chatId, welcomeText)];
    if at.photoId.None? {
      return;
    }
    if fsm == null {
      return;
    }
    fsm.SetState(member.id, CaptchaData(chatId, member.id, at.answer.value, at.now + AnswerWindow, at.photoId.value));
    actions := actions + [StartTimeoutCheck(chatId, member.id, mention, at.photoId.value)];
  }

  /** HandleNewChatMember over the registry object; `fsm` is null when the
      context carries no registry. The registry is looked up only after the
      photo is posted, so without one photos are still posted. */
  method HandleNewChatMember(fsm: CaptchaFSM?, msg: Option<Message>, attempts: seq<Attempt>, tr: Localizer)
    returns (actions: seq<Action>)
    requires JoinInputs(msg, attempts)
    modifies fsm
    ensures fsm == null ==> actions == JoinStep(map[], msg, attempts, false, tr).actions
    ensures fsm != null ==>
      fsm.states == JoinStep(old(fsm.states), msg, attempts, true, tr).states &&
      actions == JoinStep(old(fsm.states), msg, attempts, true, tr).actions
  {
    actions := [];
    if msg.None? || msg.value.newChatMembers.None? || |msg.value.newChatMembers.value| == 0 {
      return;
    }
    actions := ChallengeMembers(fsm, if fsm != null then fsm.states else map[], msg.value.chatId, msg.value.from, msg.value.newChatMembers.value, attempts, tr);
  }

  /** The member loop of HandleNewChatMember over the registry object. */
  method ChallengeMembers(fsm: CaptchaFSM?, ghost start: States, chatId: int, from: Option<User>, members: seq<User>, attempts: seq<Attempt>, tr: Localizer)
    returns (actions: seq<Action>)
    requires |attempts| == |members| && MentionAvailable(from, members, attempts)
    requires fsm != null ==> fsm.states == start
    modifies fsm
    ensures actions == JoinLoop(start, chatId, SenderMention(from), members, attempts, fsm != null, tr).actions
    ensures fsm != null ==> fsm.states == JoinLoop(start, chatId, SenderMention(from), members, attempts, true, tr).states
  {
    actions := [];
    ghost var hasFsm := fsm != null;
    ghost var mention := SenderMention(from);
    ghost var acc := Outcome(start, []);
    for i := 0 to |members|
      invariant acc == JoinLoop(start, chatId, mention, members[..i], attempts[..i], hasFsm, tr)
      invariant actions == acc.actions
      invariant fsm != null ==> fsm.states == acc.states
    {
      JoinLoopSnoc(start, chatId, mention, members, attempts, hasFsm, tr, i);
      assert Challenged(members[i], attempts[i]) ==> from.Some?;
      var turn := ChallengeMember(fsm, acc.states, chatId, from, members[i], attempts[i], tr);
      ghost var last := MemberStep(acc.states, chatId, mention, members[i], attempts[i], hasFsm, tr);
      actions := actions + turn;
      acc := Outcome(last.states, acc.actions + last.actions);
    }
    assert members[..|members|] == members && attempts[..|attempts|] == attempts;
  }

  // ---------------------------------------------------------------------
  // Properties of the join step.

  /** No message, no member list or an empty one: nothing happens. */
  lemma JoinIgnored(states: States, msg: Option<Message>, attempts: seq<Attempt>, hasFsm: bool, tr: Localizer)
    requires JoinInputs(msg, attempts)
    requires msg.None? || msg.value.newChatMembers.None? || msg.value.newChatMembers.value == []
    ensures JoinStep(states, msg, attempts, hasFsm, tr) == Outcome(states, [])
  {
  }

  /** A bot, or a member whose challenge could not be generated, gets no
      record and causes no transport call. */
  lemma UnchallengedSkipped(states: States, chatId: int, mention: string, member: User, at: Attempt, hasFsm: bool, tr: Localizer)
    requires member.isBot || at.answer.None?
    ensures MemberStep(states, chatId, mention, member, at, hasFsm, tr) == Outcome(states, [])
  {
  }

  /** A posted challenge whose record cannot be written (posting failed, or
      no registry) leaves the registry alone; a registered member gets a
      record keyed by its own id, holding the chat, the generated answer, an
      expiry thirty seconds after `now` and the posted photo's id. The caption
      is the same whoever joins: it mentions the message's sender. */
  lemma MemberStepOutcome(states: States, chatId: int, mention: string, member: User, at: Attempt, hasFsm: bool, tr: Localizer)
    requires Challenged(member, at)
    ensures !Registered(member, at, hasFsm) ==>
      MemberStep(states, chatId, mention, member, at, hasFsm, tr) ==
      Outcome(states, [SendPhoto(chatId, Caption(tr, mention))])
    ensures Registered(member, at, hasFsm) ==>
      MemberStep(states, chatId, mention, member, at, hasFsm, tr) ==
      Outcome(states[member.id := CaptchaData(chatId, member.id, at.answer.value, at.now + 30 * Second, at.photoId.value)],
              [SendPhoto(chatId, Caption(tr, mention)), StartTimeoutCheck(chatId, member.id, mention, at.photoId.value)])
  {
  }

  /** After the whole loop, every record is either one that was there before
      or the record of a registered member; a user without a registered
      attempt keeps whatever record they had. */
  lemma {:induction false} JoinLoopRecords(states: States, chatId: int, mention: string, members: seq<User>, attempts: seq<Attempt>, hasFsm: bool, tr: Localizer)
    requires |attempts| == |members|
    ensures var r := JoinLoop(states, chatId, mention, members, attempts, hasFsm, tr).states;
      forall u :: u in r ==>
        (u in states && r[u] == states[u]) ||
        exists i :: 0 <= i < |members| && Registered(members[i], attempts[i], hasFsm) &&
          members[i].id == u && r[u] == RecordFor(chatId, members[i], attempts[i])
    ensures var r := JoinLoop(states, chatId, mention, members, attempts, hasFsm, tr).states;
      forall u :: (forall i :: 0 <= i < |members| && members[i].id == u ==> !Registered(members[i], attempts[i], hasFsm)) ==>
        Lookup(r, u) == Lookup(states, u)
    decreases |members|
  {
    if members != [] {
      var n := |members| - 1;
      JoinLoopRecords(states, chatId, mention, members[..n], attempts[..n], hasFsm, tr);
      var prev := JoinLoop(states, chatId, mention, members[..n], attempts[..n], hasFsm, tr).states;
      var r := JoinLoop(states, chatId, mention, members, attempts, hasFsm, tr).states;
      forall u | u in r
        ensures (u in states && r[u] == states[u]) ||
          exists i :: 0 <= i < |members| && Registered(members[i], attempts[i], hasFsm) &&
            members[i].id == u && r[u] == RecordFor(chatId, members[i], attempts[i])
      {
        if Registered(members[n], attempts[n], hasFsm) && members[n].id == u {
        } else {
          assert u in prev && r[u] == prev[u];
          if !(u in states && prev[u] == states[u]) {
            var i :| 0 <= i < n && Registered(members[..n][i], attempts[..n][i], hasFsm) &&
              members[..n][i].id == u && prev[u] == RecordFor(chatId, members[..n][i], attempts[..n][i]);
            assert members[..n][i] == members[i] && attempts[..n][i] == attempts[i];
          }
        }
      }
      forall u | forall i :: 0 <= i < |members| && members[i].id == u ==> !Registered(members[i], attempts[i], hasFsm)
        ensures Lookup(r, u) == Lookup(states, u)
      {
        assert forall i :: 0 <= i < n && members[..n][i].id == u ==> !Registered(members[..n][i], attempts[..n][i], hasFsm);
      }
    }
  }

  /** A member whose attempt is registered, and who is not registered again
      later in the loop, ends the loop with the record of that attempt. */
  lemma {:induction false} JoinLoopRegisters(states: States, chatId: int, mention: string, members: seq<User>, attempts: seq<Attempt>,
                                             hasFsm: bool, tr: Localizer, i: int)
    requires |attempts| == |members|
    requires 0 <= i < |members| && Registered(members[i], attempts[i], hasFsm)
    requires forall j :: i < j < |members| && members[j].id == members[i].id ==> !Registered(members[j], attempts[j], hasFsm)
    ensures Lookup(JoinLoop(states, chatId, mention, members, attempts, hasFsm, tr).states, members[i].id) ==
      Some(RecordFor(chatId, members[i], attempts[i]))
    decreases |members|
  {
    var n := |members| - 1;
    if i < n {
      assert members[..n][i] == members[i] && attempts[..n][i] == attempts[i];
      forall j | i < j < n && members[..n][j].id == members[..n][i].id
        ensures !Registered(members[..n][j], attempts[..n][j], hasFsm)
      {
        assert members[..n][j] == members[j] && attempts[..n][j] == attempts[j];
      }
      JoinLoopRegisters(states, chatId, mention, members[..n], attempts[..n], hasFsm, tr, i);
    }
  }

  // ---------------------------------------------------------------------
  // The timeout check

  /** The opening of the timeout notice. The leading symbol is kept as the
      three characters the source literal holds. */
  const TimeoutNoticeHead := "\U{201A}\U{00E8}\U{00B1} Verification timeout. "

  /** The timeout notice for a mention: the fixed opening, then the
      mention. */
  function TimeoutNotice(mention: string): (r: string)
    ensures |r| > |TimeoutNoticeHead| + |mention|
    ensures r[..|TimeoutNoticeHead|] == TimeoutNoticeHead
    ensures r[|TimeoutNoticeHead|..|TimeoutNoticeHead| + |mention|] == mention
  {
    TimeoutNoticeHead + mention + " has been removed from the chat and banned for 10 minutes."
  }

  /** scheduleTimeoutCheck once its thirty-second sleep is over, at instant
      `now`: `banOk` is whether the ban call succeeded, `sent` the id of the
      posted notice or None. */
  function TimeoutStep(states: States, chatId: int, userId: int, mention: string, photoId: int, now: int, banOk: bool, sent: Option<int>): (r: Outcome)
    ensures r.states == states || r.states == states - {userId}
    ensures r.states != states ==> userId in states && now > states[userId].expiresAt
    ensures r.actions != [] <==> r.states != states
  {
    if userId !in states || !ExpiredAt(states, userId, now) then Outcome(states, [])
    else
      var ban := [Ban(chatId, userId, BanUntil(now))];
      if !banOk then Outcome(states - {userId}, ban)
      else
        var notice := [DeleteMessage(chatId, photoId), SendText(chatId, TimeoutNotice(mention), true)];
        var cleanup := if sent.Some? then [Sleep(10), DeleteMessage(chatId, sent.value)] else [];
        Outcome(states - {userId}, ban + notice + cleanup)
  }

  method ScheduleTimeoutCheck(fsm: CaptchaFSM, chatId: int, userId: int, mention: string, photoId: int, now: int, banOk: bool, sent: Option<int>)
    returns (actions: seq<Action>)
    modifies fsm
    ensures fsm.states == TimeoutStep(old(fsm.states), chatId, userId, mention, photoId, now, banOk, sent).states
    ensures actions == TimeoutStep(old(fsm.states), chatId, userId, mention, photoId, now, banOk, sent).actions
  {
    actions := [];
    var data := fsm.GetState(userId);
    if data.None? {
      return;
    }
    var expired := fsm.IsExpired(userId, now);
    if !expired {
      return;
    }
    fsm.DeleteState(userId);
    actions := actions + [Ban(chatId, userId, BanUntil(now))];
    if !banOk {
      return;
    }
    actions := actions + [DeleteMessage(chatId, photoId)];
    var timeoutText := TimeoutNotice(mention);
    actions := actions + [SendText(chatId, timeoutText, true)];
    if sent.None? {
      return;
    }
    actions := actions + [Sleep(10), DeleteMessage(chatId, sent.value)];
  }

  /** An absent record, or one whose expiry has not passed, is left alone
      and nothing is called. */
  lemma TimeoutNoChange(states: States, chatId: int, userId: int, mention: string, photoId: int, now: int, banOk: bool, sent: Option<int>)
    requires userId !in states || now <= states[userId].expiresAt
    ensures TimeoutStep(states, chatId, userId, mention, photoId, now, banOk, sent) == Outcome(states, [])
  {
  }

  /** On expiry the record is removed before the ban; when the ban fails
      nothing else is done, otherwise the photo is deleted, the notice posted
      and, ten seconds later, deleted, in that order. */
  lemma TimeoutEviction(states: States, chatId: int, userId: int, mention: string, photoId: int, now: int, banOk: bool, sent: Option<int>)
    requires userId in states && now > states[userId].expiresAt
    ensures TimeoutStep(states, chatId, userId, mention, photoId, now, banOk, sent).states == states - {userId}
    ensures !banOk ==>
      TimeoutStep(states, chatId, userId, mention, photoId, now, banOk, sent).actions ==
      [Ban(chatId, userId, BanUntil(now))]
    ensures banOk && sent.None? ==>
      TimeoutStep(states, chatId, userId, mention, photoId, now, banOk, sent).actions ==
      [Ban(chatId, userId, BanUntil(now)), DeleteMessage(chatId, photoId), SendText(chatId, TimeoutNotice(mention), true)]
    ensures banOk && sent.Some? ==>
      TimeoutStep(states, chatId, userId, mention, photoId, now, banOk, sent).actions ==
      [Ban(chatId, userId, BanUntil(now)), DeleteMessage(chatId, photoId), SendText(chatId, TimeoutNotice(mention), true),
       Sleep(10), DeleteMessage(chatId, sent.value)]
  {
  }
}
