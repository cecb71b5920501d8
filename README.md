# dapmeet-client, modelled in Dafny

Dapmeet is a web client for recorded meetings. It lists a user's meetings, shows a
meeting's transcript with search and speaker filters, offers an assistant chat about the
meeting, and keeps a signed-in session in the browser's local storage. This project
models the logic under that interface and proves properties of it. All the models are
written in Dafny.

- `MeetingUtils.dfy`: the transcript helpers.
  - `calculateDuration`: the `m:ss` span from the earliest to the latest utterance.
  - `getUniqueSpeakers`: the speakers in the order in which they first speak.
  - `getSpeakerColor`: the palette entry for a speaker, by index mod 8.
  - `processSegments`: sorts the utterances by time and groups consecutive
    utterances of one speaker that are less than two minutes apart.
  - `searchInTranscript`: keeps the utterances whose text or speaker contains the query,
    ignoring case.
  - `exportTranscript`: only the lines of the exported file are modelled.

  `processSegments` and `getUniqueSpeakers` are loops. Each is a method proved equal to
  a specification function, and the properties are proved about that function.
- `MeetingDetails.dfy`: the speaker selection of the meeting page. Its toggle removes a
  selected speaker and appends any other. `DetailsState` holds the page state.
- `MeetingControls.dfy`: the controls of a meeting.
  - `clearSearch`.
  - `clearFilters`: a loop that toggles each selected speaker of the meeting.
  - The switch that opens the speaker panel.
  - The conditions for the count badge and the active-filters panel.
- `MeetingsList.dfy`: the meetings list, filtered by title and by date relative to "now"
  in three modes. Also the display names of meeting statuses.
- `Sidebar.dfy`: the sidebar routes and the rule that highlights a route.
- `Header.dfy`: the avatar initials computed from a user's name.
- `AIChat.dfy`: the chat history state machine. It covers the send transition, the
  context string sent with a prompt, and the quick prompts.
- `UseAuth.dfy`: the `useAuth` hook. It keeps an access and a refresh token under
  `auth-token` and `refresh-token`.
- `AuthProvider.dfy`: the authentication context. It keeps a token and a user under
  `auth_token` and `auth_user`.
- `LocalStorage.dfy`: the browser's local storage as both authentication modules use it
  (`getItem`, `setItem`, `removeItem`) and the laws that relate the three.
- `Seqs.dfy`, `Text.dfy` and `Wrappers.dfy` hold helpers for the modules above.
  - `Seqs.dfy`: order-preserving filtering and subsequences.
  - `Text.dfy`: the JavaScript string operations the code uses (`toLowerCase`, `trim`,
    `includes`, `startsWith`, `split`, `join` and number rendering). The `padStart(2, "0")`
    of `calculateDuration` is `MeetingUtils.PadStart2`, next to the duration format.
  - `Wrappers.dfy`: the `Option` and `Result` types.

Conventions:
- Timestamps and dates are integers of milliseconds since the epoch.
- Local storage is a map from strings to strings.
- The outcome of every network request is a parameter.
- Date-based message ids and the clock reading `now` are parameters.
- The locale time format is a parameter `formatTime: int -> string`.

## Model

| member | source | states |
|---|---|---|
| MeetingUtils.SortByTime | lib/meeting-utils.ts:47 | The sorted copy is a permutation of the segments. |
| MeetingUtils.SortByTimeSorted | lib/meeting-utils.ts:47 | The sorted copy is ordered by timestamp. |
| MeetingUtils.SortByTimeStable | lib/meeting-utils.ts:47 | Segments with equal timestamps keep their relative order, as in JavaScript's stable sort. |
| MeetingUtils.CalculateDurationOfAtMostOne | lib/meeting-utils.ts:44-57 | No segments, or a single segment, give "0:00". |
| MeetingUtils.MinTimeIsLeast | lib/meeting-utils.ts:49 | The earliest timestamp is at most every segment's timestamp, and some segment carries it. |
| MeetingUtils.MaxTimeIsGreatest | lib/meeting-utils.ts:50 | The latest timestamp is at least every segment's timestamp, and some segment carries it. |
| MeetingUtils.SortedFirstIsMin | lib/meeting-utils.ts:47-49 | The first sorted segment carries the earliest timestamp. |
| MeetingUtils.SortedLastIsMax | lib/meeting-utils.ts:47-50 | The last sorted segment carries the latest timestamp. |
| MeetingUtils.SpanOfSorted | lib/meeting-utils.ts:47-51 | The last sorted timestamp minus the first is the latest timestamp minus the earliest. |
| MeetingUtils.MinTimeAtMostMaxTime | lib/meeting-utils.ts:49-51 | The earliest timestamp is at most the latest, so the span is never negative. |
| MeetingUtils.CalculateDurationSpan | lib/meeting-utils.ts:44-57 | For a non-empty list the duration renders the latest timestamp minus the earliest, whatever the input order. |
| MeetingUtils.FormatDurationRoundTrip | lib/meeting-utils.ts:53-56 | The result has the form `m:ss`, with two-digit seconds below 60. It reads back as the span rounded down to whole seconds. |
| MeetingUtils.UniqueSpeakersOf | lib/meeting-utils.ts:59-69 | The speaker list has no duplicates. A name is in it exactly when it is non-empty and some segment carries it. |
| MeetingUtils.GetUniqueSpeakers | lib/meeting-utils.ts:59-69 | The `forEach` loop over the segments returns exactly the specified speaker list. |
| MeetingUtils.UniqueSpeakersFirstOccurrenceOrder | lib/meeting-utils.ts:62-68 | Speakers are listed in the order of their first utterance. |
| MeetingUtils.IndexOf | lib/meeting-utils.ts:72 | Gives the first position of the name, or -1 exactly when the name is absent. |
| MeetingUtils.GetSpeakerColor | lib/meeting-utils.ts:71-74 | The speaker at first position i gets palette entry i mod 8. An absent speaker gets no colour. |
| MeetingUtils.PaletteDistinct | lib/meeting-utils.ts:4-13 | The eight palette entries are pairwise different. |
| MeetingUtils.DistinctSpeakersDistinctColors | lib/meeting-utils.ts:71-74 | Distinct speakers whose positions differ mod 8 get different colours, so the first eight all differ. |
| MeetingUtils.ProcessSegments | lib/meeting-utils.ts:76-111 | The loop returns the groups of the time-sorted segments, coloured by the speakers of the sorted list. |
| MeetingUtils.GroupStarts | lib/meeting-utils.ts:90-95 | The positions that open a group are in bounds. There is at least one exactly when there is a segment. |
| MeetingUtils.GroupStartsIncreasing | lib/meeting-utils.ts:85-95 | The positions that open a group are strictly increasing. |
| MeetingUtils.GroupStartsSpec | lib/meeting-utils.ts:90-95 | A segment opens a group exactly when it is the first one, or its speaker differs from the previous segment's, or the gap is at least 120000 ms. |
| MeetingUtils.GroupsFollowStarts | lib/meeting-utils.ts:85-108 | There is one group per group start. Group k carries the speaker, timestamp and text of the segment that opens it, the texts of all segments up to the next start, and that speaker's colour. |
| MeetingUtils.GroupsWellFormed | lib/meeting-utils.ts:98-106 | Every group is marked first in its group and has at least one message. Its first message is its own text. |
| MeetingUtils.RunHasOneSpeaker | lib/meeting-utils.ts:90-98 | Every segment from a group's start up to its end has the speaker of the segment that opened it. |
| MeetingUtils.GroupHasOneSpeaker | lib/meeting-utils.ts:90-98 | Every segment that a group spans has the group's speaker. |
| MeetingUtils.GroupColourMissingIffUnnamed | lib/meeting-utils.ts:82-106 | A group has no colour exactly when its speaker name is empty. |
| MeetingUtils.GroupsPartitionTexts | lib/meeting-utils.ts:85-108 | Concatenating the groups' messages gives the sorted segments' texts exactly: nothing is lost, repeated or reordered. |
| MeetingUtils.GroupsOfTwo | lib/meeting-utils.ts:90-107 | Of two segments, the second joins the first's group, adding its text, exactly when it has the same speaker and comes less than 120000 ms later. Otherwise each opens its own group. |
| MeetingUtils.GroupsOfThreeJoined | lib/meeting-utils.ts:90-99 | Three segments, each grouping with the one before, form a single group holding the three texts in order. |
| MeetingUtils.GapOfExactlyWindowSplits | lib/meeting-utils.ts:93 | Two utterances of one speaker exactly 120000 ms apart fall in two groups. |
| MeetingUtils.ChainedShortGapsJoin | lib/meeting-utils.ts:90-99 | Three utterances 100 s apart form one group spanning 200 s. |
| MeetingUtils.SearchInTranscriptSpec | lib/meeting-utils.ts:113-123 | A blank query returns the input unchanged. Any other query keeps, in order and with every occurrence, exactly the segments whose lowercased text or speaker contains the lowercased untrimmed query. |
| MeetingUtils.SearchInTranscriptIdempotent | lib/meeting-utils.ts:113-123 | Searching the result again with the same query changes nothing. |
| MeetingUtils.ExportLinesPermutation | lib/meeting-utils.ts:128-134 | Sorting before the export only reorders the lines. Each line occurs in the sorted export exactly as often as in the export of the input order. |
| MeetingUtils.ExportContentLines | lib/meeting-utils.ts:128-135 | When no field holds a line break: for a non-empty list of segments, splitting the exported text on newlines gives back exactly one line per segment, in time order; for no segments the text is empty and splits into one empty line. |
| Text.TrimEmptyIffBlank | lib/meeting-utils.ts:115 | `!query.trim()` holds exactly for whitespace-only queries. |
| Text.SplitJoin | lib/meeting-utils.ts:130-135 | For a non-empty list of separator-free pieces, splitting their join gives back the pieces; the join of no pieces splits into one empty piece. |
| MeetingDetails.ToggleMembership | components/meeting-details.tsx:18 | After a toggle the speaker is selected exactly when it was not before. Every other name is selected exactly when it was before. |
| MeetingDetails.ToggleShape | components/meeting-details.tsx:18 | Toggling a present speaker removes all its occurrences and nothing else. Toggling an absent one appends it at the end and keeps the earlier entries. |
| MeetingDetails.ToggleKeepsOthers | components/meeting-details.tsx:18 | The other speakers stay in their original relative order. |
| MeetingDetails.ToggleTwiceRestores | components/meeting-details.tsx:18 | Toggling an absent speaker twice restores the original list. |
| MeetingDetails.ToggleKeepsNoDuplicates | components/meeting-details.tsx:18 | A selection without duplicates stays without duplicates. |
| MeetingDetails.DetailsState.constructor | components/meeting-details.tsx:14-15 | The query and the selection both start empty. |
| MeetingDetails.DetailsState.HandleSpeakerToggle | components/meeting-details.tsx:17-19 | The selection becomes the toggle of the latest selection. The query is unchanged. |
| MeetingDetails.DetailsState.SetSearchQuery | components/meeting-details.tsx:14 | Sets the query and leaves the selection alone. |
| MeetingControls.Controls.constructor | components/meeting-controls.tsx:27-28 | The speaker panel starts closed. |
| MeetingControls.Controls.ToggleShowFilters | components/meeting-controls.tsx:73 | The filters button flips the panel. |
| MeetingControls.Controls.ClearSearch | components/meeting-controls.tsx:34-36 | The query becomes "" and the selection is unchanged. |
| MeetingControls.Controls.ClearFilters | components/meeting-controls.tsx:38-44 | It toggles, in order, exactly the meeting's speakers that the selection seen at the click holds. The selection then loses every speaker of the meeting and keeps every other name. The query is unchanged. |
| MeetingControls.ClearFiltersOutcome | components/meeting-controls.tsx:38-44 | After clearing, no speaker of the meeting is selected. Every other selected name keeps its multiplicity. |
| MeetingControls.ClearFiltersTogglesOnce | components/meeting-controls.tsx:39-43 | Each selected speaker of the meeting is toggled exactly once, and no unselected one is toggled. |
| MeetingControls.BadgeAfterToggle | components/meeting-controls.tsx:76-80 | After toggling an unselected speaker the badge shows one more than before. After toggling a selected one it shows the count less that speaker's occurrences, which is one less in a selection without repeats. It disappears when nobody is left. |
| MeetingControls.ClearingBothHidesPanel | components/meeting-controls.tsx:34-116 | Clearing the search and then the filters makes the panel's condition (line 116) false exactly when every selected name is a non-empty speaker of the meeting. Any other selected name stays and keeps the panel open. |
| MeetingsList.FilteredMeetingsSpec | components/meetings-list.tsx:45-59 | The result is an order-preserving subsequence. It keeps every occurrence of the meetings that pass the title condition and the mode's strict date condition, and nothing else. |
| MeetingsList.RecentAndUpcomingDisjoint | components/meetings-list.tsx:50-56 | No meeting is both recent and upcoming. A meeting dated exactly now is neither. |
| MeetingsList.AllIsTitleSearchOnly | components/meetings-list.tsx:46-58 | The "all" mode applies only the title search. With an empty query it keeps the whole list. |
| MeetingsList.MockMeetingsOnMay19 | components/meetings-list.tsx:13-35 | On the built-in data, seen on 19 May 2023, "recent" lists the first two meetings and "upcoming" the third. |
| MeetingsList.StatusTranslationFixedPoints | components/meetings-list.tsx:62-75 | A status is changed exactly when it is one of the four known ones. It then becomes a display name that is not itself a known status, so translating again changes nothing. |
| MeetingsList.StatusTranslationInjective | components/meetings-list.tsx:62-75 | Distinct statuses that are not themselves display names get distinct names. |
| Sidebar.IsActiveAtBoundary | components/sidebar.tsx:67 | A route is highlighted exactly when the path starts with its href and either ends there or continues with '/'. |
| Sidebar.SubPathActivates | components/sidebar.tsx:67 | Any path below a route highlights it. |
| Sidebar.SiblingPrefixDoesNotActivate | components/sidebar.tsx:67 | A path that extends the route's name with a character other than '/' does not highlight it. |
| Sidebar.MeetingsExamples | components/sidebar.tsx:67 | `/meetings/42` highlights `/meetings`, and `/meetingsX` does not. |
| Sidebar.AtMostOneActive | components/sidebar.tsx:15-41 | With the two listed routes, at most one route is highlighted for any path. |
| Header.InitialsSpec | components/header.tsx:24-29 | A missing or empty name gives "П". Any other name gives its word-initial characters: one per non-empty space-separated piece, and no space. |
| Header.FirstCharsAreWordStarts | components/header.tsx:25-28 | The split/map/join chain equals the independently defined word starts of the name. |
| Header.FirstCharsLength | components/header.tsx:26-28 | Empty pieces contribute nothing, so the length equals the number of non-empty pieces. |
| Header.SingleWordInitial | components/header.tsx:25-28 | A one-word name gives its first character. |
| AIChat.QuickPromptsSend | components/ai-chat.tsx:34-41 | No quick prompt is blank, so `sendMessage(prompt)` on a quick-prompt click always sends. |
| AIChat.ContextDeterminesMeeting | components/ai-chat.tsx:55 | For titles without a line break, the context determines both the title and the transcript. |
| AIChat.Reply | components/ai-chat.tsx:61-78 | The reply is an assistant message with the given id. It carries the body's `text` as it is, possibly absent, and the fixed error text when the request threw. |
| AIChat.ReplyContent | components/ai-chat.tsx:61-78 | The error text shows exactly when the request threw or the server answered with that very text. No content shows exactly when the body had no `text`. |
| AIChat.ChatState.constructor | components/ai-chat.tsx:24-32 | The history is exactly the welcome message, the input is empty and nothing is loading. |
| AIChat.ChatState.SetInput | components/ai-chat.tsx:163 | Sets the input and nothing else. |
| AIChat.ChatState.BeginSend | components/ai-chat.tsx:43-52 | Whitespace-only text changes nothing. Any other text appends the user message with the untrimmed text, clears the input and sets loading. |
| AIChat.ChatState.CompleteSend | components/ai-chat.tsx:61-81 | Appends the body's text, or the fixed error text when the request threw, then clears loading. |
| AIChat.ChatState.SendMessage | components/ai-chat.tsx:43-82 | A completed non-blank send appends exactly the user message and the reply, and keeps the earlier history. The input is then empty and loading is off. |
| LocalStorage.GetItemLaws | hooks/use-auth.ts:14-49 | A key reads back the value last written to it, and nothing once it is removed. Writing or removing one key leaves every other key reading as before. |
| UseAuth.SaveThenCheck | hooks/use-auth.ts:14-43 | After login, the mount check finds both tokens when both are non-empty, and nothing otherwise. |
| UseAuth.ClearThenCheck | hooks/use-auth.ts:14-55 | After logout, the mount check finds no session. |
| UseAuth.OtherKeysUntouched | hooks/use-auth.ts:36-49 | Login and logout leave every other storage key as it was. |
| UseAuth.AuthHook.constructor | hooks/use-auth.ts:6-8 | Starts with no user, not authenticated, and loading. |
| UseAuth.AuthHook.CheckAuthStatus | hooks/use-auth.ts:11-28 | Authenticated exactly when both tokens are stored and non-empty, with the user being both tokens. Loading ends and storage is unchanged. |
| UseAuth.AuthHook.Login | hooks/use-auth.ts:33-43 | Writes both keys and signs in with both tokens, whatever their values. |
| UseAuth.AuthHook.Logout | hooks/use-auth.ts:45-55 | Removes both keys, clears the user and signs out. |
| AuthProvider.SaveThenRestore | components/auth-provider.tsx:31-78 | After a successful login, the next mount restores the token and user when both are non-empty. |
| AuthProvider.ClearThenRestore | components/auth-provider.tsx:31-90 | After logout, the next mount restores nothing. |
| AuthProvider.AuthState.constructor | components/auth-provider.tsx:25-27 | Starts with no user, no token, and loading. |
| AuthProvider.AuthState.Mount | components/auth-provider.tsx:29-39 | Restores the token and user only when both keys are stored and non-empty, and otherwise leaves them. Loading ends. |
| AuthProvider.AuthState.Login | components/auth-provider.tsx:58-83 | An OK response sets and stores the token and user. A non-OK response or a thrown error is returned as an error and changes neither the state nor the storage. |
| AuthProvider.AuthState.Logout | components/auth-provider.tsx:85-90 | Clears the user and the token and removes both keys. |

## Left out

- Null and non-array inputs are not modelled. A Dafny sequence is always present and holds
  only records, so the guards for them are not modelled: `!segments` and
  `Array.isArray`, and the `segment &&` tests in `getUniqueSpeakers` and
  `searchInTranscript`.
- Timestamps are integers of milliseconds. The parsing of ISO strings by `new Date`, and
  invalid dates, are not modelled.
- `formatTimestamp`, `formatDate` and `formatDateTime` call the locale formatter. The
  export takes the time rendering as the parameter `formatTime`.
- Of `exportTranscript`, only the text of the file is modelled. The `Blob`, the download
  link and the file name are not.
- `ProcessedSegment` copies every field of a segment. The model's segment has only the
  three fields the code reads.
- `Text.Lower` maps only ASCII letters and the basic Cyrillic capitals (U+0400 to U+042F)
  to lower case. All other characters are left unchanged.
- Header initials take the first Unicode character of a piece. JavaScript's `n[0]` takes
  the first UTF-16 code unit, which differs for characters outside the Basic Multilingual
  Plane.
- The network is not modelled: `fetch` in the chat and in login, the chat API route
  and the Google sign-in redirect (`loginWithGoogle`). Only the outcomes of requests appear, as
  parameters.
- `highlightText` is not modelled. It is a display helper that builds a regular
  expression from the search text and returns React markup, which has no counterpart here.
- `JSON.parse` and `JSON.stringify` of the stored user are not modelled. The user is
  kept as its JSON text. In the source, a stored user that `JSON.parse` rejects throws
  inside the mount effect (components/auth-provider.tsx:29-39), so `setLoading(false)` is
  never reached and loading never ends. An OK login body without `user` stores the text
  "undefined", which triggers exactly that. `AuthProvider.AuthState.Mount` always ends loading, so the
  model does not capture this case.
- The `typeof window` guards in `useAuth` are not modelled. The model always runs in a
  browser.
- `MeetingControls.Controls.ClearFilters` takes the `onSpeakerToggle` callback of
  `components/meeting-controls.tsx` to be the `handleSpeakerToggle` of
  `components/meeting-details.tsx`. The source never makes that connection: the details
  page imports the controls but does not render them, and passes `handleSpeakerToggle` to
  nothing. Likewise `MeetingControls.Controls.ClearSearch` takes the `onSearchChange` prop
  (components/meeting-controls.tsx:15, 35) to be the details page's `setSearchQuery`
  (`MeetingDetails.DetailsState.SetSearchQuery`), and the `searchQuery` and `selectedSpeakers` props to be
  the fields of `DetailsState`. `MeetingControls.ClearingBothHidesPanel` relies on the same
  wiring. The model assumes the evident wiring.
- `MeetingControls.Controls.ClearFilters` starts the toggles from the selection the click
  saw. React runs the queued updaters on the selection as it stands when they run. The
  two agree when no other update is queued in between.
- `AIChat.ChatState.SendMessage` covers one send with nothing else happening meanwhile.
  Overlapping sends, and input typed while a request is pending, are not modelled.
- The labels and emoji of the quick prompts are not modelled. Only the prompt texts are
  kept.
- Props that `meeting-details.tsx` passes but that its callees do not declare are a
  type-level mismatch. No behaviour follows from them, so they are not modelled.
