/** The `DecisionSession` record of app/dashboard/page.tsx and its messages. */
module Sessions {
  import opened Wrappers

  datatype Kind = Question | Response

  /** One chat entry; `context` is the optional supplementary text. */
  datatype Message = Message(id: string, kind: Kind, content: string, context: Option<string>)

  /** A decision session; `timestamp` is its creation time in milliseconds. */
  datatype Session = Session(id: string, title: string, timestamp: int, messages: seq<Message>)

  /** `Partial<DecisionSession>`: each field either given or absent. */
  datatype Patch = Patch(
    id: Option<string>,
    title: Option<string>,
    timestamp: Option<int>,
    messages: Option<seq<Message>>)

  /** The title every new session starts with. */
  const NewDecisionTitle := "New Decision"

  const EmptyPatch := Patch(None, None, None, None)

  function TitlePatch(title: string): Patch {
    EmptyPatch.(title := Some(title))
  }

  function MessagesPatch(messages: seq<Message>): Patch {
    EmptyPatch.(messages := Some(messages))
  }

  /** `{ ...session, ...updates }`: a given field replaces the session's own; an absent one is kept. */
  function Merge(s: Session, p: Patch): (r: Session)
    ensures r.id == if p.id.Some? then p.id.value else s.id
    ensures r.title == if p.title.Some? then p.title.value else s.title
    ensures r.timestamp == if p.timestamp.Some? then p.timestamp.value else s.timestamp
    ensures r.messages == if p.messages.Some? then p.messages.value else s.messages
  {
    Session(p.id.GetOr(s.id), p.title.GetOr(s.title), p.timestamp.GetOr(s.timestamp), p.messages.GetOr(s.messages))
  }

  /** Merging an empty patch leaves the session as it was. */
  lemma MergeEmpty(s: Session)
    ensures Merge(s, EmptyPatch) == s
  {
  }

  /** A title patch changes the title and nothing else. */
  lemma MergeTitle(s: Session, title: string)
    ensures Merge(s, TitlePatch(title)) == s.(title := title)
  {
  }

  /** A messages patch replaces the messages and nothing else. */
  lemma MergeMessages(s: Session, messages: seq<Message>)
    ensures Merge(s, MessagesPatch(messages)) == s.(messages := messages)
  {
  }
}
