/**
 * The session store of app/dashboard/page.tsx: the ordered session list and
 * the active session id, with the operations the dashboard hands to the
 * sidebar and the chat view. Each operation is a pure function from the
 * state it reads to the state it writes.
 */
module SessionStore {
  import opened Wrappers
  import opened Text
  import opened Seqs
  import opened Sessions
  import opened TitleDerivation

  datatype Store = Store(sessions: seq<Session>, activeId: string)

  /** The first render: no sessions, and `sessions[0]?.id || ""` is the empty id. */
  const Initial := Store([], "")

  /** The position of the first session with the given id. */
  function FirstWithId(ss: seq<Session>, id: string): (r: Option<nat>)
    ensures r.Some? ==> r.value < |ss| && ss[r.value].id == id
    ensures r.Some? ==> forall j :: 0 <= j < r.value ==> ss[j].id != id
    ensures r.None? ==> forall j :: 0 <= j < |ss| ==> ss[j].id != id
  {
    if ss == [] then None
    else if ss[0].id == id then Some(0)
    else
      match FirstWithId(ss[1..], id)
      case None => None
      case Some(k) => Some(k + 1)
  }

  /** `sessions.find((s) => s.id === id)`. */
  function Find(ss: seq<Session>, id: string): (r: Option<Session>)
    ensures r.None? <==> forall j :: 0 <= j < |ss| ==> ss[j].id != id
    ensures r.Some? ==> r.value in ss && r.value.id == id
    ensures r.Some? ==> exists k :: 0 <= k < |ss| && ss[k] == r.value && forall j :: 0 <= j < k ==> ss[j].id != id
  {
    match FirstWithId(ss, id)
    case None => None
    case Some(k) => Some(ss[k])
  }

  /** `activeSession`: the first session carrying the active id, if any. */
  function ActiveSession(st: Store): (r: Option<Session>)
    ensures r.Some? <==> HasId(st.sessions, st.activeId)
    ensures r.Some? ==> r.value in st.sessions && r.value.id == st.activeId
    ensures r.Some? ==> exists k :: 0 <= k < |st.sessions| && st.sessions[k] == r.value
                                    && forall j :: 0 <= j < k ==> st.sessions[j].id != st.activeId
  {
    Find(st.sessions, st.activeId)
  }

  predicate HasId(ss: seq<Session>, id: string) {
    exists j :: 0 <= j < |ss| && ss[j].id == id
  }

  /** The first render shows no session; the first new session is then the active one. */
  lemma InitialThenCreate(id: string, now: int)
    ensures ActiveSession(Initial).None?
    ensures ActiveSession(Create(Initial, id, now)) == Some(NewSession(id, now))
  {
  }

  /** The session `createNewSession` builds. */
  function NewSession(id: string, now: int): Session {
    Session(id, NewDecisionTitle, now, [])
  }

  /**
   * `createNewSession`: the new session goes in front, every existing session
   * keeps its place behind it, and the new session is the active one. The id
   * comes from the clock and is not assumed to be unused.
   */
  function Create(st: Store, freshId: string, now: int): (r: Store)
    ensures |r.sessions| == |st.sessions| + 1
    ensures r.sessions[0].id == freshId && r.sessions[0].title == NewDecisionTitle
    ensures r.sessions[0].timestamp == now && r.sessions[0].messages == []
    ensures r.sessions[1..] == st.sessions
    ensures r.activeId == freshId
    ensures ActiveSession(r) == Some(r.sessions[0])
  {
    var r := Store([NewSession(freshId, now)] + st.sessions, freshId);
    assert r.sessions[1..] == st.sessions;
    r
  }

  function UpdateAll(ss: seq<Session>, id: string, p: Patch): (r: seq<Session>)
    ensures |r| == |ss|
    ensures forall i :: 0 <= i < |ss| && ss[i].id == id ==> r[i] == Merge(ss[i], p)
    ensures forall i :: 0 <= i < |ss| && ss[i].id != id ==> r[i] == ss[i]
  {
    if ss == [] then []
    else [if ss[0].id == id then Merge(ss[0], p) else ss[0]] + UpdateAll(ss[1..], id, p)
  }

  /**
   * `updateSession`: the fields of the patch are merged into every session
   * with the id; the list keeps its length and order, every other session is
   * untouched, and the active id does not move.
   */
  function Update(st: Store, id: string, p: Patch): (r: Store)
    ensures r.activeId == st.activeId
    ensures |r.sessions| == |st.sessions|
    ensures forall i :: 0 <= i < |st.sessions| && st.sessions[i].id == id ==> r.sessions[i] == Merge(st.sessions[i], p)
    ensures forall i :: 0 <= i < |st.sessions| && st.sessions[i].id != id ==> r.sessions[i] == st.sessions[i]
  {
    Store(UpdateAll(st.sessions, id, p), st.activeId)
  }

  /** Updating an id no session carries changes nothing. */
  lemma UpdateUnknownId(st: Store, id: string, p: Patch)
    requires !HasId(st.sessions, id)
    ensures Update(st, id, p) == st
  {
    var r := Update(st, id, p);
    assert r.sessions == st.sessions;
  }

  /** Lookups only see ids: two lists with the same ids, position by position, find the same positions. */
  lemma FirstWithIdSameIds(a: seq<Session>, b: seq<Session>, key: string)
    requires |a| == |b| && forall i :: 0 <= i < |a| ==> a[i].id == b[i].id
    ensures FirstWithId(a, key) == FirstWithId(b, key)
  {
  }

  /**
   * Looking up any id after an update that keeps ids finds the same position
   * as before, holding the merged session when the id is the updated one.
   */
  lemma FindAfterUpdate(ss: seq<Session>, id: string, p: Patch, key: string)
    requires p.id.None?
    ensures Find(UpdateAll(ss, id, p), key)
         == match Find(ss, key)
            case None => None
            case Some(s) => Some(if s.id == id then Merge(s, p) else s)
  {
    FirstWithIdSameIds(UpdateAll(ss, id, p), ss, key);
  }

  /** `renameSession`: every session with the id gets the new title and nothing else changes. */
  function Rename(st: Store, id: string, title: string): (r: Store)
    ensures r.activeId == st.activeId
    ensures |r.sessions| == |st.sessions|
    ensures forall i :: 0 <= i < |st.sessions| ==>
      r.sessions[i] == if st.sessions[i].id == id then st.sessions[i].(title := title) else st.sessions[i]
  {
    Update(st, id, TitlePatch(title))
  }

  /** The sidebar's `onSessionSelect` sets the active id as given, known or not. */
  function Select(st: Store, id: string): (r: Store)
    ensures r.sessions == st.sessions
    ensures r.activeId == id
    ensures ActiveSession(r).Some? <==> HasId(st.sessions, id)
    ensures ActiveSession(r).Some? ==> ActiveSession(r).value.id == id
  {
    st.(activeId := id)
  }

  function IdIsNot(id: string): Session -> bool {
    (s: Session) => s.id != id
  }

  /**
   * `deleteSession`: removes exactly the sessions with the id and keeps the
   * rest in order. When the active session was removed and some remain, the
   * first remaining one becomes active; otherwise the active id is kept,
   * even when it no longer names any session.
   */
  function Delete(st: Store, id: string): (r: Store)
    ensures forall s :: s in r.sessions <==> s in st.sessions && s.id != id
    ensures forall s :: multiset(r.sessions)[s] == if s.id == id then 0 else multiset(st.sessions)[s]
    ensures IsSubsequence(r.sessions, st.sessions)
    ensures st.activeId == id && r.sessions != [] ==> r.activeId == r.sessions[0].id
    ensures st.activeId != id || r.sessions == [] ==> r.activeId == st.activeId
  {
    var kept := Filter(st.sessions, IdIsNot(id));
    Store(kept, if st.activeId == id && |kept| > 0 then kept[0].id else st.activeId)
  }

  /** One step of the lookup: the head when it has the id, else the lookup in the tail. */
  lemma FindCons(ss: seq<Session>, key: string)
    requires ss != []
    ensures Find(ss, key) == if ss[0].id == key then Some(ss[0]) else Find(ss[1..], key)
  {
    if ss[0].id != key {
      match FirstWithId(ss[1..], key)
      case None =>
      case Some(k) => assert ss[k + 1] == ss[1..][k];
    }
  }

  /** Removing sessions of another id does not change which session an id finds. */
  lemma {:induction false} FindAfterFilter(ss: seq<Session>, id: string, key: string)
    requires key != id
    ensures Find(Filter(ss, IdIsNot(id)), key) == Find(ss, key)
  {
    if ss != [] {
      FindAfterFilter(ss[1..], id, key);
      FindCons(ss, key);
      var rest := Filter(ss[1..], IdIsNot(id));
      if ss[0].id != id {
        var r := [ss[0]] + rest;
        assert Filter(ss, IdIsNot(id)) == r;
        assert r[1..] == rest;
        FindCons(r, key);
      } else {
        assert Filter(ss, IdIsNot(id)) == rest;
      }
    }
  }

  /**
   * Deleting the active session while others remain leaves an active session
   * that exists: the first remaining one.
   */
  lemma DeleteActiveFallsBack(st: Store, id: string)
    requires st.activeId == id
    requires exists j :: 0 <= j < |st.sessions| && st.sessions[j].id != id
    ensures var r := Delete(st, id);
      ActiveSession(r) == Some(r.sessions[0]) && r.sessions[0] in st.sessions && r.sessions[0].id != id
  {
    var j :| 0 <= j < |st.sessions| && st.sessions[j].id != id;
    var r := Delete(st, id);
    assert st.sessions[j] in r.sessions;
  }

  /** Deleting any other session leaves the active session where it was. */
  lemma DeleteOtherKeepsActive(st: Store, id: string)
    requires st.activeId != id
    ensures ActiveSession(Delete(st, id)) == ActiveSession(st)
  {
    FindAfterFilter(st.sessions, id, st.activeId);
  }

  /** Deleting the last sessions leaves the list empty and no active session, though the stale id stays. */
  lemma DeleteLastLeavesNone(st: Store, id: string)
    requires forall j :: 0 <= j < |st.sessions| ==> st.sessions[j].id == id
    ensures Delete(st, id).sessions == []
    ensures ActiveSession(Delete(st, id)).None?
    ensures Delete(st, id).activeId == st.activeId
  {
    FilterDropsAll(st.sessions, IdIsNot(id));
  }

  /**
   * Deleting an id no session carries keeps every session; the store is
   * unchanged unless the active id was that (stale) id, in which case the
   * first session becomes active.
   */
  lemma DeleteUnknownId(st: Store, id: string)
    requires !HasId(st.sessions, id)
    ensures Delete(st, id).sessions == st.sessions
    ensures st.activeId != id ==> Delete(st, id) == st
  {
    FilterKeepsAll(st.sessions, IdIsNot(id));
  }

  /**
   * `handleQuestionSubmit`: the active session takes its title from the
   * question only while it still has the placeholder title and the question
   * is not blank; in every other case the store is unchanged.
   */
  function OnQuestionSubmit(st: Store, question: string): (r: Store)
    ensures r.activeId == st.activeId
    ensures ActiveSession(st).None? ==> r == st
    ensures ActiveSession(st).Some? && (ActiveSession(st).value.title != NewDecisionTitle || IsBlank(question))
      ==> r == st
    ensures ActiveSession(st).Some? && ActiveSession(st).value.title == NewDecisionTitle && !IsBlank(question)
      ==> r == Rename(st, st.activeId, GenerateTitle(question))
  {
    match ActiveSession(st)
    case None => st
    case Some(active) =>
      if active.title == NewDecisionTitle && !IsBlank(question) then Update(st, active.id, TitlePatch(GenerateTitle(question)))
      else st
  }

  /** After the title hook fires, the active session is the same session under the derived title. */
  lemma OnQuestionSubmitRenamesActive(st: Store, question: string)
    requires ActiveSession(st).Some? && ActiveSession(st).value.title == NewDecisionTitle
    requires !IsBlank(question)
    ensures ActiveSession(OnQuestionSubmit(st, question))
         == Some(ActiveSession(st).value.(title := GenerateTitle(question)))
  {
    FindAfterUpdate(st.sessions, st.activeId, TitlePatch(GenerateTitle(question)), st.activeId);
  }
}
