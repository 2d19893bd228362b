/**
 * The logic of components/dashboard/sidebar.tsx: the session search, the
 * rename dialog's validation, and the relative timestamp labels.
 */
module Sidebar {
  import opened Wrappers
  import opened Text
  import opened Seqs
  import opened Sessions
  import opened SessionStore

  /**
   * A session matches a search when its title, or the content of one of its
   * messages, includes the query, both lower-cased.
   */
  predicate MatchesQuery(s: Session, query: string) {
    || Contains(Lower(s.title), Lower(query))
    || exists i :: 0 <= i < |s.messages| && Contains(Lower(s.messages[i].content), Lower(query))
  }

  function QueryFilter(query: string): Session -> bool {
    (s: Session) => MatchesQuery(s, query)
  }

  /**
   * `filteredSessions`: exactly the matching sessions, each as often as it
   * occurs, in the order of the session list.
   */
  function FilterSessions(ss: seq<Session>, query: string): (r: seq<Session>)
    ensures forall s :: s in r <==> s in ss && MatchesQuery(s, query)
    ensures forall s :: multiset(r)[s] == if MatchesQuery(s, query) then multiset(ss)[s] else 0
    ensures IsSubsequence(r, ss)
  {
    Filter(ss, QueryFilter(query))
  }

  /** An empty search lists every session, since every text includes the empty string. */
  lemma EmptyQueryKeepsAll(ss: seq<Session>)
    ensures FilterSessions(ss, []) == ss
  {
    forall i | 0 <= i < |ss|
      ensures QueryFilter([])(ss[i])
    {
      ContainsEmpty(Lower(ss[i].title));
    }
    FilterKeepsAll(ss, QueryFilter([]));
  }

  /** The search ignores the case of the query. */
  lemma QueryCaseInsensitive(ss: seq<Session>, query: string)
    ensures FilterSessions(ss, Lower(query)) == FilterSessions(ss, query)
  {
    assert Lower(Lower(query)) == Lower(query);
    FilterSamePredicate(ss, QueryFilter(Lower(query)), QueryFilter(query));
  }

  /** The rename dialog: whether it is open, the session it renames, and the text typed. */
  datatype RenameDialog = RenameDialog(open: bool, target: Option<Session>, newTitle: string)

  const ClosedDialog := RenameDialog(false, None, [])

  /** `handleRename`: the dialog opens on the session, pre-filled with its title. */
  function OpenRename(s: Session): (d: RenameDialog)
    ensures d.open && d.target == Some(s) && d.newTitle == s.title
  {
    RenameDialog(true, Some(s), s.title)
  }

  /**
   * `handleRenameSubmit`: with a session chosen and a title that is not
   * blank, the session is renamed to the trimmed title and the dialog is
   * closed and reset; otherwise neither the dialog nor the store changes.
   */
  function SubmitRename(d: RenameDialog, st: Store): (r: (RenameDialog, Store))
    ensures d.target.None? || IsBlank(d.newTitle) ==> r == (d, st)
    ensures d.target.Some? && !IsBlank(d.newTitle) ==>
      r.0 == ClosedDialog && r.1 == Rename(st, d.target.value.id, Trim(d.newTitle))
  {
    if d.target.Some? && !IsBlank(d.newTitle) then
      (ClosedDialog, Rename(st, d.target.value.id, Trim(d.newTitle)))
    else
      (d, st)
  }

  /**
   * Confirming the dialog as it opened renames the session to its own title,
   * trimmed, and closes the dialog; a blank title keeps the dialog open and
   * the store as it was.
   */
  lemma SubmitOpenedRename(s: Session, st: Store)
    ensures !IsBlank(s.title) ==> SubmitRename(OpenRename(s), st) == (ClosedDialog, Rename(st, s.id, Trim(s.title)))
    ensures IsBlank(s.title) ==> SubmitRename(OpenRename(s), st) == (OpenRename(s), st)
  {
  }

  /**
   * A rename that goes through leaves a non-empty title without surrounding
   * whitespace on the renamed sessions, and every other session as it was.
   */
  lemma RenameStoresTrimmedTitle(d: RenameDialog, st: Store)
    requires d.target.Some? && !IsBlank(d.newTitle)
    ensures var st' := SubmitRename(d, st).1;
      && |st'.sessions| == |st.sessions|
      && forall i :: 0 <= i < |st.sessions| ==>
           if st.sessions[i].id == d.target.value.id
           then st'.sessions[i].title == Trim(d.newTitle) && st'.sessions[i].title != [] && IsTrimmed(st'.sessions[i].title)
           else st'.sessions[i] == st.sessions[i]
  {
  }

  const MillisPerHour := 1000 * 60 * 60

  /** `Math.floor((now - date) / 3600000)`: whole hours elapsed, rounded down also for future dates. */
  function HoursSince(nowMs: int, thenMs: int): (h: int)
    ensures h * MillisPerHour <= nowMs - thenMs < (h + 1) * MillisPerHour
  {
    (nowMs - thenMs) / MillisPerHour
  }

  /**
   * `formatTimestamp`: "Just now" under an hour (and for dates in the
   * future), "{h}h ago" under a day, "Yesterday" under two days, and the
   * locale's date string, passed in, beyond that.
   */
  function FormatTimestamp(nowMs: int, thenMs: int, localeDate: string): (r: string)
    ensures r == "Just now" || r == "Yesterday" || r == localeDate
         || (|r| > 5 && r[|r| - 5..] == "h ago" && r[0] != '0' && forall i :: 0 <= i < |r| - 5 ==> '0' <= r[i] <= '9')
  {
    var h := HoursSince(nowMs, thenMs);
    if h < 1 then "Just now"
    else if h < 24 then Decimal(h) + "h ago"
    else if h < 48 then "Yesterday"
    else localeDate
  }

  /** The label in terms of the elapsed milliseconds. */
  lemma FormatTimestampBuckets(nowMs: int, thenMs: int, localeDate: string)
    ensures var d := nowMs - thenMs; var shown := FormatTimestamp(nowMs, thenMs, localeDate);
      && (d < MillisPerHour ==> shown == "Just now")
      && (MillisPerHour <= d < 24 * MillisPerHour ==>
            shown == Decimal(d / MillisPerHour) + "h ago" && 1 <= d / MillisPerHour < 24)
      && (24 * MillisPerHour <= d < 48 * MillisPerHour ==> shown == "Yesterday")
      && (48 * MillisPerHour <= d ==> shown == localeDate)
  {
    var d, h := nowMs - thenMs, HoursSince(nowMs, thenMs);
    assert d < MillisPerHour ==> h < 1;
    assert MillisPerHour <= d ==> 1 <= h;
    assert d < 24 * MillisPerHour ==> h < 24;
    assert 24 * MillisPerHour <= d ==> 24 <= h;
    assert d < 48 * MillisPerHour ==> h < 48;
    assert 48 * MillisPerHour <= d ==> 48 <= h;
  }

  /** The "{h}h ago" shown names the hour count it was built from. */
  lemma HoursAgoReadsBack(nowMs: int, thenMs: int, localeDate: string)
    requires 1 <= HoursSince(nowMs, thenMs) < 24
    ensures var shown := FormatTimestamp(nowMs, thenMs, localeDate);
      |shown| > 5 && shown[|shown| - 5..] == "h ago" && shown[0] != '0'
      && (forall i :: 0 <= i < |shown| - 5 ==> '0' <= shown[i] <= '9')
      && ParseDecimal(shown[..|shown| - 5]) == HoursSince(nowMs, thenMs)
  {
    var h := HoursSince(nowMs, thenMs);
    var shown := FormatTimestamp(nowMs, thenMs, localeDate);
    assert shown[..|shown| - 5] == Decimal(h);
    DecimalRoundTrip(h);
  }
}
