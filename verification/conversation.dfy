/**
 * The conversation fold of components/dashboard/chat-interface.tsx: one
 * submit turns the composer's question and the session's messages into a
 * transcript for the backend, and folds the backend's outcome back into the
 * session as a question and a reply. The backend call itself is an input.
 */
module Conversation {
  import opened Wrappers
  import opened Text
  import opened Sessions

  /** The roles of the backend's chat format. */
  datatype Role = User | Assistant | System

  datatype ApiMessage = ApiMessage(role: Role, content: string)

  /** How the awaited backend call settled: an answer field (absent, null or text) or a thrown error. */
  datatype Outcome = Answered(answer: Option<string>) | Failed

  /** The ids the submit stamps from the clock on the question, the reply and the error reply. */
  datatype ReplyIds = ReplyIds(question: string, response: string, error: string)

  /** The composer: the text being typed and the loading flag. */
  datatype ChatState = ChatState(question: string, loading: bool)

  /** Reply shown when the backend answers with an empty or missing answer. */
  const NoAnswerText := "\U{26A0}\U{FE0F} Sorry, I couldn't find an answer."

  /** Reply shown when the backend call throws. */
  const ErrorText := "\U{26A0}\U{FE0F} There was an error processing your request."

  function RoleOf(k: Kind): Role {
    match k
    case Question => User
    case Response => Assistant
  }

  /**
   * `toAPI`: one transcript entry per message, in order, with questions as
   * the user's turns and responses as the assistant's, content unchanged.
   */
  function ToApi(msgs: seq<Message>): (r: seq<ApiMessage>)
    ensures |r| == |msgs|
    ensures forall i :: 0 <= i < |msgs| ==> r[i].content == msgs[i].content
    ensures forall i :: 0 <= i < |msgs| ==> (r[i].role == User <==> msgs[i].kind == Question)
    ensures forall i :: 0 <= i < |msgs| ==> (r[i].role == Assistant <==> msgs[i].kind == Response)
  {
    if msgs == [] then [] else [ApiMessage(RoleOf(msgs[0].kind), msgs[0].content)] + ToApi(msgs[1..])
  }

  /** What the backend can learn of a message: its kind and content. */
  datatype Entry = Entry(kind: Kind, content: string)

  function Entries(msgs: seq<Message>): seq<Entry> {
    if msgs == [] then [] else [Entry(msgs[0].kind, msgs[0].content)] + Entries(msgs[1..])
  }

  function KindOf(role: Role): Option<Kind> {
    match role
    case User => Some(Question)
    case Assistant => Some(Response)
    case System => None
  }

  /** Reads a transcript back as entries; a system turn has no message kind. */
  function FromApi(t: seq<ApiMessage>): Option<seq<Entry>> {
    if t == [] then Some([])
    else
      var rest := FromApi(t[1..]);
      if KindOf(t[0].role).None? || rest.None? then None
      else Some([Entry(KindOf(t[0].role).value, t[0].content)] + rest.value)
  }

  /** The transcript loses nothing the backend should see: reading it back gives each message's kind and content, in order. */
  lemma {:induction false} ToApiRoundTrip(msgs: seq<Message>)
    ensures FromApi(ToApi(msgs)) == Some(Entries(msgs))
  {
    if msgs != [] {
      ToApiRoundTrip(msgs[1..]);
      assert ToApi(msgs)[1..] == ToApi(msgs[1..]);
    }
  }

  lemma {:induction false} FromApiAppend(a: seq<ApiMessage>, b: seq<ApiMessage>)
    requires FromApi(a).Some? && FromApi(b).Some?
    ensures FromApi(a + b) == Some(FromApi(a).value + FromApi(b).value)
  {
    if a != [] {
      FromApiAppend(a[1..], b);
      assert (a + b)[1..] == a[1..] + b;
      assert (a + b)[0] == a[0];
      var e := [Entry(KindOf(a[0].role).value, a[0].content)];
      var x, y := FromApi(a[1..]).value, FromApi(b).value;
      assert FromApi(a) == Some(e + x);
      assert FromApi((a + b)[1..]) == Some(x + y);
      assert FromApi(a + b) == Some(e + (x + y));
      assert e + (x + y) == (e + x) + y;
    } else {
      assert a + b == b;
      assert FromApi(a).value + FromApi(b).value == FromApi(b).value;
    }
  }

  /** A transcript built from messages plus one user turn reads back as their entries plus that question. */
  lemma TranscriptReadsBack(prior: seq<Message>, question: string)
    ensures FromApi(ToApi(prior) + [ApiMessage(User, question)]) == Some(Entries(prior) + [Entry(Question, question)])
  {
    var tail := [ApiMessage(User, question)];
    ToApiRoundTrip(prior);
    assert FromApi(tail) == Some([Entry(Question, question)]) by {
      assert tail[1..] == [];
      assert [Entry(Question, question)] + [] == [Entry(Question, question)];
    }
    FromApiAppend(ToApi(prior), tail);
  }

  /** The reply text: the answer when it is a non-empty string, else the matching fallback. */
  function ReplyText(o: Outcome): (r: string)
    ensures r != []
    ensures o.Failed? ==> r == ErrorText
    ensures o.Answered? && (o.answer.None? || o.answer.value == []) ==> r == NoAnswerText
    ensures o.Answered? && o.answer.Some? && o.answer.value != [] ==> r == o.answer.value
  {
    match o
    case Failed => ErrorText
    case Answered(a) => if a.Some? && a.value != [] then a.value else NoAnswerText
  }

  /** Everything one call of `handleSubmit` does, in the order it does it. */
  datatype Submission = Submission(
    titleHook: Option<string>,              // argument passed to `onQuestionSubmit`
    transcript: Option<seq<ApiMessage>>,    // the body sent to the backend
    update: Option<seq<Message>>,           // the messages passed to `onUpdateSession`
    loadingWrites: seq<bool>,               // the values written to the loading flag, in order
    after: ChatState)                       // the composer once the call has settled

  function QuestionMessage(id: string, question: string): Message {
    Message(id, Question, question, None)
  }

  function ReplyMessage(o: Outcome, ids: ReplyIds): Message {
    Message(if o.Failed? then ids.error else ids.response, Response, ReplyText(o), None)
  }

  /**
   * `handleSubmit`. A blank question or a missing session does nothing at
   * all. Otherwise the loading flag is raised, the title hook sees the
   * untrimmed question, the composer is cleared, the backend receives the
   * prior transcript plus the question as a final user turn, and the session
   * is handed its prior messages followed by exactly two new ones: the
   * question and the reply (answer, fallback or error text). The error is
   * swallowed and the loading flag is lowered on either outcome.
   */
  function Submit(chat: ChatState, session: Option<Session>, o: Outcome, ids: ReplyIds): (r: Submission)
    ensures (IsBlank(chat.question) || session.None?) ==>
      r == Submission(None, None, None, [], chat)
    ensures !IsBlank(chat.question) && session.Some? ==>
      var prior := session.value.messages;
      && r.titleHook == Some(chat.question)
      && r.loadingWrites == [true, false]
      && r.after == ChatState([], false)
      && r.transcript.Some?
      && |r.transcript.value| == |prior| + 1
      && r.transcript.value[..|prior|] == ToApi(prior)
      && r.transcript.value[|prior|] == ApiMessage(User, chat.question)
      && r.update.Some?
      && |r.update.value| == |prior| + 2
      && r.update.value[..|prior|] == prior
      && r.update.value[|prior|] == QuestionMessage(ids.question, chat.question)
      && r.update.value[|prior| + 1].kind == Response
      && r.update.value[|prior| + 1].content == ReplyText(o)
  {
    if IsBlank(chat.question) || session.None? then
      Submission(None, None, None, [], chat)
    else
      var prior := session.value.messages;
      var transcript := ToApi(prior) + [ApiMessage(User, chat.question)];
      var messages := prior + [QuestionMessage(ids.question, chat.question), ReplyMessage(o, ids)];
      assert transcript[..|prior|] == ToApi(prior);
      assert messages[..|prior|] == prior;
      Submission(Some(chat.question), Some(transcript), Some(messages), [true, false], ChatState([], false))
  }

  /** The transcript reads back as the session's messages, in order, followed by the question as a user turn. */
  lemma SubmitTranscriptRoundTrip(chat: ChatState, session: Session, o: Outcome, ids: ReplyIds)
    requires !IsBlank(chat.question)
    ensures var r := Submit(chat, Some(session), o, ids);
      r.transcript.Some? && FromApi(r.transcript.value) == Some(Entries(session.messages) + [Entry(Question, chat.question)])
  {
    var prior := session.messages;
    var r := Submit(chat, Some(session), o, ids);
    assert r.transcript.value == ToApi(prior) + [ApiMessage(User, chat.question)];
    TranscriptReadsBack(prior, chat.question);
  }

  /** The loading flag goes up before the call and is down after it, whatever the backend did. */
  lemma LoadingClearedOnEveryPath(chat: ChatState, session: Option<Session>, o: Outcome, ids: ReplyIds)
    ensures var r := Submit(chat, session, o, ids);
      r.transcript.Some? ==> r.loadingWrites[0] && !r.after.loading && !r.loadingWrites[|r.loadingWrites| - 1]
    ensures var r := Submit(chat, session, o, ids);
      r.transcript.None? ==> r.loadingWrites == [] && r.after.loading == chat.loading
  {
  }

  /** A failed call still appends two messages, the second being the fixed error text. */
  lemma FailureAppendsErrorReply(chat: ChatState, session: Session, ids: ReplyIds)
    requires !IsBlank(chat.question)
    ensures var r := Submit(chat, Some(session), Failed, ids);
      r.update.Some? && r.update.value == session.messages
        + [QuestionMessage(ids.question, chat.question), Message(ids.error, Response, ErrorText, None)]
  {
  }
}
