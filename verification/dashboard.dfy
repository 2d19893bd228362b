/**
 * One question submitted on the dashboard, end to end: the chat view's
 * `handleSubmit` calls the page's title hook (`handleQuestionSubmit`) and,
 * once the backend has settled, the page's `onUpdateSession` with the new
 * message list. Both writes replace the whole session list.
 */
module Dashboard {
  import opened Wrappers
  import opened Text
  import opened Sessions
  import opened SessionStore
  import opened TitleDerivation
  import opened Conversation

  /** The store once the title hook has run: renamed when the submit went ahead, untouched otherwise. */
  function AfterTitleHook(st: Store, sub: Submission): Store {
    if sub.titleHook.Some? then OnQuestionSubmit(st, sub.titleHook.value) else st
  }

  /**
   * The submit as the source sequences it: `onUpdateSession` is the closure
   * of the render in which the submit started, so the message append is
   * computed from that render's session list `st`, not from the list the
   * title hook wrote.
   */
  function SubmitAsWritten(st: Store, chat: ChatState, o: Outcome, ids: ReplyIds): (r: Store)
    ensures r.activeId == st.activeId
    ensures |r.sessions| == |st.sessions|
    ensures IsBlank(chat.question) || ActiveSession(st).None? ==> r == st
    ensures forall i :: 0 <= i < |st.sessions| && st.sessions[i].id != st.activeId ==> r.sessions[i] == st.sessions[i]
  {
    var active := ActiveSession(st);
    var sub := Submit(chat, active, o, ids);
    if sub.update.Some? then Update(st, active.value.id, MessagesPatch(sub.update.value))
    else AfterTitleHook(st, sub)
  }

  /**
   * The submit as intended: the message append is applied to the store the
   * title hook produced. Blank questions and a missing session leave the
   * store alone; otherwise the active session (and only sessions sharing its
   * id) gains the question and its reply, and takes the derived title while
   * it still has the placeholder title.
   */
  function SubmitQuestion(st: Store, chat: ChatState, o: Outcome, ids: ReplyIds): (r: Store)
    ensures r.activeId == st.activeId
    ensures |r.sessions| == |st.sessions|
    ensures IsBlank(chat.question) || ActiveSession(st).None? ==> r == st
    ensures forall i :: 0 <= i < |st.sessions| && st.sessions[i].id != st.activeId ==> r.sessions[i] == st.sessions[i]
  {
    var active := ActiveSession(st);
    var sub := Submit(chat, active, o, ids);
    var renamed := AfterTitleHook(st, sub);
    if sub.update.Some? then Update(renamed, active.value.id, MessagesPatch(sub.update.value))
    else renamed
  }

  /** The title the active session ends up with when the title hook applies. */
  function ExpectedTitle(active: Session, question: string): string {
    if active.title == NewDecisionTitle then GenerateTitle(question) else active.title
  }

  /**
   * After a submit, the active session holds its prior messages followed by
   * the question and the reply, and carries the derived title if it had the
   * placeholder title.
   */
  lemma SubmitQuestionEffect(st: Store, chat: ChatState, o: Outcome, ids: ReplyIds)
    requires ActiveSession(st).Some? && !IsBlank(chat.question)
    ensures var active := ActiveSession(st).value;
      ActiveSession(SubmitQuestion(st, chat, o, ids))
        == Some(active.(title := ExpectedTitle(active, chat.question),
                        messages := active.messages
                          + [QuestionMessage(ids.question, chat.question), ReplyMessage(o, ids)]))
  {
    var active := ActiveSession(st).value;
    var sub := Submit(chat, Some(active), o, ids);
    var renamed := AfterTitleHook(st, sub);
    var messages := active.messages + [QuestionMessage(ids.question, chat.question), ReplyMessage(o, ids)];
    assert sub.update == Some(messages);
    if active.title == NewDecisionTitle {
      OnQuestionSubmitRenamesActive(st, chat.question);
    }
    assert ActiveSession(renamed) == Some(active.(title := ExpectedTitle(active, chat.question)));
    FindAfterUpdate(renamed.sessions, active.id, MessagesPatch(messages), st.activeId);
  }

  /**
   * As written, the message append brings back the title the session had
   * before the submit: the title the hook derived is lost.
   */
  lemma SubmitAsWrittenLosesTitle(st: Store, chat: ChatState, o: Outcome, ids: ReplyIds)
    requires ActiveSession(st).Some? && !IsBlank(chat.question)
    ensures var active := ActiveSession(st).value;
      ActiveSession(SubmitAsWritten(st, chat, o, ids))
        == Some(active.(messages := active.messages
                          + [QuestionMessage(ids.question, chat.question), ReplyMessage(o, ids)]))
  {
    var active := ActiveSession(st).value;
    var messages := active.messages + [QuestionMessage(ids.question, chat.question), ReplyMessage(o, ids)];
    assert Submit(chat, Some(active), o, ids).update == Some(messages);
    FindAfterUpdate(st.sessions, active.id, MessagesPatch(messages), st.activeId);
  }

  /**
   * The two differ on the first question of every new session whose derived
   * title is not the placeholder itself: the intended submit shows the
   * derived title, the written one keeps "New Decision".
   */
  lemma FirstQuestionTitleDiscrepancy(st: Store, chat: ChatState, o: Outcome, ids: ReplyIds)
    requires ActiveSession(st).Some? && ActiveSession(st).value.title == NewDecisionTitle
    requires !IsBlank(chat.question) && GenerateTitle(chat.question) != NewDecisionTitle
    ensures ActiveSession(SubmitAsWritten(st, chat, o, ids)).value.title == NewDecisionTitle
    ensures ActiveSession(SubmitQuestion(st, chat, o, ids)).value.title == GenerateTitle(chat.question)
  {
    SubmitAsWrittenLosesTitle(st, chat, o, ids);
    SubmitQuestionEffect(st, chat, o, ids);
  }
}
