# Decision dashboard: session store and conversation fold

This project models the client-side logic of a decision-assistant dashboard
written in Next.js. That logic has four parts:

- **Session store.** An ordered list of decision sessions plus the id of the
  active one. It supports create, update, rename, select and delete, and a
  title-from-first-question hook.
- **Conversation fold.** `handleSubmit` turns the session's messages and the
  typed question into a role-tagged transcript for the backend. It then folds
  the backend's outcome back into the session as a question and a reply.
- **Sidebar helpers.** The session search, the rename dialog's validation and
  the relative timestamp labels.
- **Profile helpers.** The profile record built from the signed-in account,
  and the avatar initials.

Every operation is a pure function from the state it reads to the state it
writes. The backend's outcome, the clock-derived ids, the current time and
locale strings are parameters.

Modules, one per file:

| module | file | models |
|---|---|---|
| `Wrappers` | wrappers.dfy | `Option` |
| `Text` | text.dfy | the JavaScript string built-ins used: `trim`, ASCII `toLowerCase`/`toUpperCase`, `includes`, `split`/`join`, decimal rendering |
| `Seqs` | seqs.dfy | `Array.prototype.filter` and order-preserving subsequences |
| `Sessions` | sessions.dfy | `DecisionSession`, its messages, `Partial<DecisionSession>` and the object spread |
| `TitleDerivation` | title.dfy | `generateTitleFromQuestion` |
| `SessionStore` | store.dfy | the store operations of the dashboard page |
| `Conversation` | conversation.dfy | `toAPI` and `handleSubmit` of the chat view |
| `Dashboard` | dashboard.dfy | one submit end to end: the title hook followed by the message append |
| `Sidebar` | sidebar.dfy | search filter, rename dialog, `formatTimestamp` |
| `Profile` | profile.dfy | auth user to profile record, initials |

## Model

| member | source | states |
|---|---|---|
| Text.Trim | app/dashboard/page.tsx:39 | The result has no leading or trailing whitespace, is no longer than the input, and is empty exactly when the input is all whitespace. |
| Text.TrimOfPadded | app/dashboard/page.tsx:39 | Trimming whitespace + text + whitespace gives back exactly the text, when the text is itself trimmed. |
| Text.BlankIffAllWhitespace | components/dashboard/chat-interface.tsx:60 | `!s.trim()` holds exactly when every code point of `s` is whitespace. |
| Text.Lower | components/dashboard/sidebar.tsx:50-51 | Lower-casing keeps the length and folds every code point on its own. |
| Text.ContainsIffOccurs | components/dashboard/sidebar.tsx:50-51 | `includes` holds exactly when the needle occurs at some index of the text. |
| Text.ContainsEmpty | components/dashboard/sidebar.tsx:50 | Every text includes the empty string. |
| Text.SplitJoin | components/dashboard/user-profile.tsx:57 | `split(" ")` yields pieces without spaces that join back to the original text. |
| Text.JoinSplit | components/dashboard/user-profile.tsx:57 | Conversely, joining space-free pieces and splitting gives back those pieces. |
| Text.DecimalRoundTrip | components/dashboard/sidebar.tsx:43 | The decimal digits rendered for an hour count read back as that count. |
| Seqs.Filter | components/dashboard/sidebar.tsx:48 | A filter keeps exactly the elements that pass, each as often as it occurs, in their original order. |
| Seqs.FilterKeepsAll | app/dashboard/page.tsx:61 | A filter that every element passes returns the whole list. |
| Seqs.FilterDropsAll | app/dashboard/page.tsx:61 | A filter that no element passes returns the empty list. |
| Seqs.FilterSamePredicate | components/dashboard/sidebar.tsx:48-52 | Two predicates that agree on every element filter a list identically. |
| Sessions.Merge | app/dashboard/page.tsx:57 | Each field given in the partial replaces the session's own; each absent field keeps the session's value. |
| Sessions.MergeEmpty | app/dashboard/page.tsx:57 | Spreading an empty partial over a session leaves it unchanged. |
| Sessions.MergeTitle | app/dashboard/page.tsx:69 | A `{ title }` partial changes the title and nothing else. |
| Sessions.MergeMessages | components/dashboard/chat-interface.tsx:89-91 | A `{ messages }` partial replaces the messages and nothing else. |
| TitleDerivation.StripLeadingPhrase | app/dashboard/page.tsx:37 | Text starting with no phrase is unchanged. Otherwise exactly the matching phrase is cut from index 0, whatever its case. |
| TitleDerivation.MatchIsFirst | app/dashboard/page.tsx:37 | No two alternatives can match the same text, so the one removed is the only one that matches. |
| TitleDerivation.PhrasesPrefixFree | app/dashboard/page.tsx:37 | No phrase of the alternation is a prefix of another. |
| TitleDerivation.StripTrailingQuestionMarks | app/dashboard/page.tsx:38 | The result is a prefix of the input, only `?` was removed, and the result does not end in `?`. |
| TitleDerivation.StripTrailingFrom | app/dashboard/page.tsx:38 | Text not ending in `?`, followed by any run of `?`, strips back to that text. |
| TitleDerivation.GenerateTitle | app/dashboard/page.tsx:35-43 | The title is at most 53 code points and is empty exactly when the cleaned question is. Its first code point is the upper-cased first code point of the cleaned question. The rest is copied unchanged up to 50 code points, and `...` follows when the cleaned question is longer. |
| TitleDerivation.CapitalizeTruncate | app/dashboard/page.tsx:41-42 | Capitalising and truncating a trimmed text keep its length up to 50; beyond that they give 50 code points plus `...`. |
| TitleDerivation.TitleOfPhrasedQuestion | app/dashboard/page.tsx:35-43 | For a question that is a phrase, whitespace, a body of at most 50 code points, whitespace and question marks, the title is the body, capitalised. |
| TitleDerivation.ChangeCareersExample | app/dashboard/page.tsx:35-43 | The question "Should I change careers?" is titled "Change careers". |
| TitleDerivation.EmptyTitleFromPhraseAndMarks | app/dashboard/page.tsx:37-42 | A question that is only a phrase and question marks, such as "Should I?", yields the empty title. |
| TitleDerivation.QuestionMarkBeforeWhitespaceSurvives | app/dashboard/page.tsx:38-39 | Question marks followed by trailing whitespace survive, so the title can end in `?`. |
| TitleDerivation.PhraseRemovedOnlyOnce | app/dashboard/page.tsx:37 | A second phrase after the first is kept, so the title can still start with a phrase. |
| TitleDerivation.CapitalizeKeepsPhrase | app/dashboard/page.tsx:41 | Capitalising never stops a text from starting with a phrase. |
| TitleDerivation.NoWordBoundaryExample | app/dashboard/page.tsx:37 | The pattern has no word boundary: "should items" loses "should i". |
| TitleDerivation.LeadingSpaceBlocksStrip | app/dashboard/page.tsx:37 | The pattern is anchored at index 0: any text starting with a space, such as " should i go", is unchanged. |
| SessionStore.FirstWithId | app/dashboard/page.tsx:33 | The position found holds the id and no earlier position does; no position means no session has the id. |
| SessionStore.Find | app/dashboard/page.tsx:33 | The lookup fails exactly when no session has the id. Otherwise it returns the first listed session with that id: no session before it carries the id. |
| SessionStore.ActiveSession | app/dashboard/page.tsx:33 | The active session exists exactly when some session carries the active id, and then it is the first session that does. |
| SessionStore.InitialThenCreate | app/dashboard/page.tsx:25-54 | The first render, with no sessions and the empty active id, has no active session. The first session created is then the active one. |
| SessionStore.Create | app/dashboard/page.tsx:45-54 | One session titled "New Decision", with no messages, is put in front. The existing sessions follow unchanged and in order. The new id becomes active and the lookup finds the new session. |
| SessionStore.Update | app/dashboard/page.tsx:56-58 | The list keeps its length. Sessions with the id get the partial merged in, every other session is identical, and the active id stays. |
| SessionStore.UpdateUnknownId | app/dashboard/page.tsx:56-58 | Updating an id no session carries is a no-op. |
| SessionStore.FindAfterUpdate | app/dashboard/page.tsx:56-58 | After an update that keeps ids, every lookup finds the same session as before, merged if it was the updated one. |
| SessionStore.Rename | app/dashboard/page.tsx:68-70 | Sessions with the id take the new title and nothing else changes. |
| SessionStore.Select | app/dashboard/page.tsx:103 | Selection keeps the sessions and makes the chosen id the active id, known or not. The active session exists exactly when some session has that id, and then it has that id. |
| SessionStore.Delete | app/dashboard/page.tsx:60-66 | Exactly the sessions with the id are removed and the rest keep their order and multiplicity. Deleting the active session while others remain activates the first remaining one; otherwise the active id is kept. |
| SessionStore.FindAfterFilter | app/dashboard/page.tsx:60-66 | Removing the sessions of one id does not change what any other id finds. |
| SessionStore.DeleteActiveFallsBack | app/dashboard/page.tsx:63-64 | Deleting the active session while another remains leaves an existing, different session active. |
| SessionStore.DeleteOtherKeepsActive | app/dashboard/page.tsx:60-66 | Deleting any other id leaves the active session as it was. |
| SessionStore.DeleteLastLeavesNone | app/dashboard/page.tsx:60-66 | Deleting the last sessions empties the list. The stale active id stays and its lookup yields none. |
| SessionStore.DeleteUnknownId | app/dashboard/page.tsx:60-66 | Deleting an id no session carries keeps the list, and the whole store when that id was not the active one. |
| SessionStore.OnQuestionSubmit | app/dashboard/page.tsx:72-79 | The active session is renamed to the derived title only when it exists, is titled exactly "New Decision" and the question is not blank; otherwise the store is unchanged. |
| SessionStore.OnQuestionSubmitRenamesActive | app/dashboard/page.tsx:72-79 | After the rename, the active session is the same session under the derived title. |
| Conversation.ToApi | components/dashboard/chat-interface.tsx:52-56 | The transcript has one entry per message in order. Questions become user turns, responses become assistant turns, and content is copied. |
| Conversation.ToApiRoundTrip | components/dashboard/chat-interface.tsx:52-56 | Reading the transcript back gives every message's kind and content, in order. |
| Conversation.FromApiAppend | components/dashboard/chat-interface.tsx:75-78 | Reading back a concatenated transcript gives the concatenation of the read-backs. |
| Conversation.TranscriptReadsBack | components/dashboard/chat-interface.tsx:74-78 | Prior messages plus one user turn read back as the prior entries plus the question. |
| Conversation.ReplyText | components/dashboard/chat-interface.tsx:83-101 | The reply is never empty. It is the answer when that is a non-empty string, the no-answer text when the answer is empty or missing, and the error text when the call threw. |
| Conversation.Submit | components/dashboard/chat-interface.tsx:58-106 | A blank question or a missing session does nothing. Otherwise the title hook sees the untrimmed question and the loading flag goes up and then down. The composer is cleared. The transcript is the prior transcript plus the question as a user turn. The session receives its prior messages followed by exactly the question and its reply. |
| Conversation.SubmitTranscriptRoundTrip | components/dashboard/chat-interface.tsx:74-78 | The transcript sent reads back as the session's messages followed by the question. |
| Conversation.LoadingClearedOnEveryPath | components/dashboard/chat-interface.tsx:58-106 | When the call is made, the flag is raised first and is down afterwards, whatever the outcome; otherwise it is never written. |
| Conversation.FailureAppendsErrorReply | components/dashboard/chat-interface.tsx:92-102 | A thrown call is swallowed and still appends the question and the fixed error reply. |
| Dashboard.SubmitQuestion | components/dashboard/chat-interface.tsx:58-106 | One submit keeps the active id and the number of sessions. It is a no-op for blank questions or no active session, and it never touches sessions of another id. |
| Dashboard.SubmitQuestionEffect | app/dashboard/page.tsx:72-79 | After a submit the active session holds its prior messages, the question and the reply. It carries the derived title if it had the placeholder title. |
| Dashboard.SubmitAsWritten | components/dashboard/chat-interface.tsx:58-106 | The submit as the code sequences it, with the message append computed from the pre-submit list. It keeps the active id and the number of sessions, is a no-op for blank questions or no active session, and never touches sessions of another id. |
| Dashboard.SubmitAsWrittenLosesTitle | app/dashboard/page.tsx:56-58 | With the snapshot update, the active session ends with the title it had before the submit. |
| Dashboard.FirstQuestionTitleDiscrepancy | app/dashboard/page.tsx:147 | On a new session's first question the snapshot update shows "New Decision" while the intended one shows the derived title. |
| Sidebar.FilterSessions | components/dashboard/sidebar.tsx:48-52 | The result holds exactly the sessions whose lower-cased title or some lower-cased message includes the lower-cased query, each as often as listed, in list order. |
| Sidebar.EmptyQueryKeepsAll | components/dashboard/sidebar.tsx:48-52 | An empty query lists every session. |
| Sidebar.QueryCaseInsensitive | components/dashboard/sidebar.tsx:50-51 | The result does not depend on the case of the query. |
| Sidebar.OpenRename | components/dashboard/sidebar.tsx:54-58 | The dialog opens on the session, pre-filled with its title. |
| Sidebar.SubmitOpenedRename | components/dashboard/sidebar.tsx:54-67 | Confirming a freshly opened dialog renames the session to its own title, trimmed, and closes the dialog. When that title is blank, the dialog stays open and the store is unchanged. |
| Sidebar.SubmitRename | components/dashboard/sidebar.tsx:60-67 | With no session chosen or a blank title, nothing changes. Otherwise the session is renamed to the trimmed title and the dialog is closed and reset. |
| Sidebar.RenameStoresTrimmedTitle | components/dashboard/sidebar.tsx:60-67 | A rename that goes through stores a non-empty trimmed title on the renamed sessions and leaves the others alone. |
| Sidebar.HoursSince | components/dashboard/sidebar.tsx:40 | The hour count is the floor of the elapsed milliseconds over 3 600 000, negative differences included. |
| Sidebar.FormatTimestamp | components/dashboard/sidebar.tsx:38-46 | The label is one of four forms: "Just now", digits followed by "h ago", "Yesterday", or the locale date. |
| Sidebar.FormatTimestampBuckets | components/dashboard/sidebar.tsx:38-46 | Under one hour (future dates too) the label is "Just now". From 1 to 24 hours it is "{h}h ago" with 1 <= h < 24. From 24 to 48 hours it is "Yesterday"; beyond that it is the locale date. |
| Sidebar.HoursAgoReadsBack | components/dashboard/sidebar.tsx:43 | An "{h}h ago" label is digits followed by "h ago", and the digits read back as the hour count. |
| Profile.ToProfile | components/dashboard/user-profile.tsx:31-42 | No account gives no profile. An account gives its name, or "User" when that is null or empty, and its email, or "No email". It gets an avatar exactly when the photo URL is non-empty. |
| Profile.FirstCharsOfSplit | components/dashboard/user-profile.tsx:56-59 | The first code points of the `split(" ")` pieces are exactly the code points that start a word; empty pieces contribute nothing. |
| Profile.FirstCharsBound | components/dashboard/user-profile.tsx:58-59 | There are at most as many initials as pieces, and an initial is a space only if a piece starts with one. |
| Profile.WordStartsOfOneWord | components/dashboard/user-profile.tsx:56-59 | A name without spaces has its first code point as its only initial. |
| Profile.Initials | components/dashboard/user-profile.tsx:56-59 | Without a user the initials are "U". Otherwise they are the word-starting code points of the name, in order, at most one per piece and never a space. |
| Profile.NamelessUserInitials | components/dashboard/user-profile.tsx:33-59 | A signed-in user without a display name shows the initials "U". |

## Behaviour of the code worth knowing

Each point below is a reading one might expect, followed by what the code does. The model follows the code.

- One might expect every derived title to be non-empty, but "Should I?" gives "" (`TitleDerivation.EmptyTitleFromPhraseAndMarks`).
- One might expect a title never to end in `?`, but "Should I go? " gives "Go?". The trailing run is stripped before trimming (`TitleDerivation.QuestionMarkBeforeWhitespaceSurvives`).
- One might expect no title to start with a question phrase, but only the first occurrence is removed: "Should I should I go" gives "Should I go" (`TitleDerivation.PhraseRemovedOnlyOnce`).
- One might expect selecting an unknown id to be ignored, but the id becomes the active id as given (`SessionStore.Select`).
- One might expect deleting an unknown id to change nothing. But when that stale id is the active id, the first session becomes active (`SessionStore.Delete`).

## Left out

- Rendering, animation, scrolling, key handling and the static pages: presentation only. The settings page holds only local toggle state.
- Firebase sign-in, sign-out and the auth subscription are foreign SDK calls. The callback's argument is a parameter of `Profile.ToProfile`.
- `askBackend` (lib/api.ts) is a single `fetch`. Its settled outcome (`Conversation.Outcome`) is a parameter of the fold.
- `Date.now()` ids and `new Date()` timestamps are parameters. The model does not claim they are unique.
- `toLocaleDateString` and `toLocaleTimeString` depend on the locale. The date string is a parameter of `Sidebar.FormatTimestamp`.
- `console.error` in the failure branch only logs; the model keeps the swallowed error and its reply, not the log line.
- Clipboard sharing, `alert`, `clearSearch` and navigation are browser I/O with no logic to verify.
- Interleavings of independent React renders are not modelled: each write is a function of an explicit state. The one submit is modelled in both forms described under Findings.
- Strings are sequences of code points. JavaScript lengths and `substring(0, 50)` count UTF-16 code units, which differ for characters outside the Basic Multilingual Plane.
- `Text.Lower` and `Text.UpperChar` map ASCII letters only. The phrase pattern is ASCII and has no `u` flag, so its case-insensitive match is exact.
- `Conversation.Outcome` carries only a string answer or none. A non-string `answer` field of the response body is not modelled.
- `Sessions.Merge` treats a field given as `undefined` like an absent field. In JavaScript, the spread copies an explicit `undefined`.
- `SessionStore.DeleteUnknownId` does not claim that the whole store is unchanged when the unknown id is the active id, because then the code activates the first session.

## Findings

| source | as written | input that shows it | evidently intended | confidence | as-written member | corrected member |
|---|---|---|---|---|---|---|
| app/dashboard/page.tsx:56-58, 147; components/dashboard/chat-interface.tsx:63, 89-91 | `updateSession` maps over the `sessions` array of the render in which the submit began. The post-answer `onUpdateSession` is that same render's closure. So the message append rebuilds the list from the pre-submit snapshot and overwrites the title set by `handleQuestionSubmit` moments earlier. | A new session titled "New Decision", and the question "Should I change careers?" with any backend outcome. The session ends with both messages but is still titled "New Decision". | The first question renames the session to "Change careers" and the messages are appended to that renamed session. | high, not executed | Dashboard.SubmitAsWritten, with Dashboard.SubmitAsWrittenLosesTitle and Dashboard.FirstQuestionTitleDiscrepancy | Dashboard.SubmitQuestion, with Dashboard.SubmitQuestionEffect |
