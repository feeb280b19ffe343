# StudyBolt core, modelled in Dafny

StudyBolt is a study assistant. It has a small Express backend and a React front end. This project models the logic of the following parts as pure Dafny functions, methods and lemmas:

- **The backend (`ChatServer`).** `/api/chat` and `/api/search`:
  - the web-search adapter and its result normalisation;
  - augmenting a conversation with search results;
  - relaying the streamed completion as Server-Sent Events, ending in `[DONE]` or one error frame;
  - the search-and-summarise pipeline with its one-hour cache.
- **The streak heatmap (`StreakHeatmap`).**
  - `YYYY-MM-DD` date keys;
  - the count-to-intensity levels;
  - the 140-day window;
  - the current and longest streak over the last 365 days;
  - check-in and reset.
- **The notebook page (`NotebookSession`).**
  - the `mm:ss` clock;
  - the 25-minute focus timer and its phase label;
  - the stored difficulty and the slider that sets it;
  - loading messages, with the welcome message as fallback;
  - submitting a question and receiving the simulated reply;
  - rendering bullet lines;
  - the rotating study tip.
- **The sign-up page (`SignUp`).**
  - the form's fields;
  - the four password requirements;
  - the order of the submit checks;
  - the outcome toast and navigation.
- **The create-notebook dialog (`NotebookDialog`).**
  - the form and its reset;
  - the colour and icon pickers;
  - the header icon lookup;
  - when the submit button is enabled.

The JavaScript semantics that the code relies on are modelled in `Text`:

- `trim` with JavaScript's whitespace set;
- `padStart`, `split` and `join`;
- `String(n)` and `Number(s)` for integers;
- the truncating `%`;
- `x || fallback` on optional strings, and the truthiness an `if` tests.

The services are not called. What they returned is an input of each operation:

- **The search provider:** `ProviderReply`.
- **The completion stream:** `Upstream` holds the deltas, plus whether the stream threw.
- **The one-shot completion:** `Completion`.
- **The cache store:** `StoreOutcome`, plus the cache contents as a map.
- **The clock:** `now` and the ISO timestamp string.
- **The database:** `FetchResult`.
- **The authentication service:** `AuthAnswer`.
- **The mocked notebook creation:** `succeeded`.

Calendar days are integer offsets back from today.

Two behaviours of the search code that the model keeps:

- A search result with no title gets the title `No title`. Its `text` field uses the empty string for the missing title.
- If writing the summary to the cache fails, `/api/search` answers 500.

## Model

| member | source | states |
|---|---|---|
| Text.Rem | src/components/notebooks/NotebookInterface.tsx:318 | JavaScript `%` for a positive divisor: the dividend minus the result is a whole multiple of the divisor, and the result is in [0, b) for a non-negative dividend and in (-b, 0] for a negative one |
| Text.RemOdd | src/components/notebooks/NotebookInterface.tsx:318 | unlike a Euclidean remainder, `(-a) % b` is `-(a % b)` |
| Text.TrimSpec | backend/src/index.ts:137 | the trimmed text is a contiguous slice of the input, with only whitespace cut from either side, and it neither starts nor ends with whitespace |
| Text.TrimEmptyIff | src/components/notebooks/NotebookInterface.tsx:279 | `!s.trim()` holds exactly when the text is all whitespace |
| Text.TrimSurrounded | backend/src/index.ts:137 | whitespace added around a trimmed text is removed again by `trim` |
| Text.PadStart | src/components/streak-heatmap.tsx:17-18 | `padStart` gives length max(length, width), ends with the original text and is filled with the fill character before it |
| Text.Split | src/components/notebooks/NotebookInterface.tsx:388 | `split` gives at least one piece, and no piece contains the separator |
| Text.SplitJoin | src/components/notebooks/NotebookInterface.tsx:388 | joining the pieces of a split with the separator gives back the original text |
| Text.JoinSplit | src/components/notebooks/NotebookInterface.tsx:388 | splitting a join of separator-free pieces gives back exactly those pieces |
| Text.JoinSnoc | backend/src/index.ts:56-58 | appending a part to a non-empty list appends the separator and the part to the joined text |
| Text.NatToString | src/components/streak-heatmap.tsx:17 | `String(n)` of a natural number is a non-empty digit string with no leading zero, one digit long exactly when n < 10 |
| Text.IntToString | src/components/notebooks/NotebookInterface.tsx:220 | `String(i)` of a non-negative integer is a digit string with no leading zero (except `0` itself); of a negative one, `-` followed by such a digit string not starting with 0 |
| Text.DecimalRoundTrip | src/components/notebooks/NotebookInterface.tsx:208 | reading the digits of `String(n)` gives back n |
| Text.NatToStringInjective | backend/src/index.ts:137 | different counts give different decimal texts |
| Text.PadZerosValue | src/components/streak-heatmap.tsx:17-18 | zero-padding a numeral keeps it all digits and keeps its value |
| Text.IntRoundTrip | src/components/notebooks/NotebookInterface.tsx:208 | parsing `String(i)` as a signed integer gives back i, for every integer |
| ChatServer.Normalise | backend/src/index.ts:39-47 | the result count is `slice(0, numResults)` (for a negative count, that many are dropped from the end); result k has id `search-result-(k+1)` and the provider's title, snippet and link, with `No title` and empty defaults; its `text` is title, snippet and `Source: ` link on three lines, where a missing title is the empty string, not `No title` |
| ChatServer.NormalisedIdsDistinct | backend/src/index.ts:42 | no two normalised results share an id |
| ChatServer.MissingTitleDefaults | backend/src/index.ts:43-46 | a result without a title is titled `No title`, while its rendered text starts with an empty title line |
| ChatServer.PerformWebSearchAsWritten | backend/src/index.ts:26-53 | an array exactly when the provider replied 2xx; `{}` on an HTTP or network failure; an empty array when `organic_results` is missing |
| ChatServer.PerformWebSearch | backend/src/index.ts:26-53 | corrected adapter: an empty list on failure, otherwise the same array as written, with at most numResults entries |
| ChatServer.Entries | backend/src/index.ts:56-57 | one formatted context entry per result, in input order |
| ChatServer.ContextBlockSnoc | backend/src/index.ts:56-58 | the context block of n+1 results is the block of n, then the `---` separator, then the new entry; a single result is its entry alone |
| ChatServer.ContextBlock | backend/src/index.ts:56-58 | the context block is empty exactly when there are no results; otherwise it starts with the first result's entry, and a single result is its entry alone |
| ChatServer.Augment | backend/src/index.ts:55-76 | one system message is prepended; it is the fixed preamble followed by the context block, and the original conversation follows unchanged |
| ChatServer.DeltaEvents | backend/src/index.ts:111-117 | exactly one content event per delta whose content is non-empty, carrying that content, in arrival order; empty and missing deltas write nothing |
| ChatServer.DeltaEventsSnoc | backend/src/index.ts:111-117 | nothing is relayed before the first chunk; a chunk arriving later appends one event with its content at the end when the content is non-empty, and nothing otherwise |
| ChatServer.Relay | backend/src/index.ts:111-125 | the stream is the content events followed by exactly one terminal event: `[DONE]` on success, or the error frame when the upstream throws |
| ChatServer.RelayPreservesText | backend/src/index.ts:113-115 | the concatenated streamed text equals the concatenation of the upstream deltas |
| ChatServer.StreamedTextAppend | backend/src/index.ts:111-117 | the streamed text of two event runs is their texts concatenated |
| ChatServer.RelayTerminates | backend/src/index.ts:119-125 | every relay carries exactly one terminal frame: one `[DONE]` and no error, or one error and no `[DONE]` |
| ChatServer.HandleChatWith | backend/src/index.ts:78-127 | 400 exactly when `messages` is missing, not an array or empty; without augmentation the conversation is sent unchanged; with it the last user message is the search query, and an array of results is sent as the augmented conversation and relayed, while `{}` sends nothing and streams only the error frame |
| ChatServer.HandleChatAsWritten | backend/src/index.ts:93-103 | as written, a failed search with search enabled produces only the error frame: nothing is sent to the agent; when the provider answers, it behaves exactly as the corrected handler |
| ChatServer.SearchFlagIsTruthiness | backend/src/index.ts:80-99 | search is used exactly when `enableSearch` is truthy (and the last message is the user's): the string `"false"` and the number 1 turn it on; a missing field, `false` and `""` do not |
| ChatServer.HandleChat | backend/src/index.ts:78-127 | corrected handler: every valid request streams the relay, and with augmentation it sends the conversation augmented with the (possibly empty) search results |
| ChatServer.ChatCompletes | backend/src/index.ts:111-120 | a valid request whose upstream does not throw ends with exactly one `[DONE]` and no error; one extra message is sent iff search augments |
| ChatServer.ChatSearchFailureAborts | backend/src/index.ts:97-124 | a concrete request where the search fails: as written it ends in the error frame without `[DONE]`; corrected it streams the answer and `[DONE]` |
| ChatServer.Frame | backend/src/index.ts:115-124 | every frame is `data: `, a payload and a blank line; the payload is `[DONE]` for the end, `{"content":"…"}` holding exactly the content for a delta, and `{"error":"…"}` holding exactly the message for a failure |
| ChatServer.FrameInjective | backend/src/index.ts:115-124 | distinct events are written as distinct frames |
| ChatServer.DoneFrameUnambiguous | backend/src/index.ts:115-119 | no content or error frame equals the `[DONE]` frame |
| ChatServer.Sources | backend/src/index.ts:164-169 | one source per result, carrying its title, snippet, link and id |
| ChatServer.SummaryPrompt | backend/src/index.ts:148-154 | exactly two messages: the fixed research-assistant instruction as system, then a user message that opens with the untrimmed query in quotes and continues with every result's `text`, in order, separated by blank lines |
| ChatServer.FreshSearch | backend/src/index.ts:144-180 | a miss succeeds iff search returned an array, the completion returned and the store write succeeded; the response then echoes the query, sources and timestamp, its summary is the completion's content or `""` when it has none, and the cache holds it until now + 3600. With an array of results the agent is asked with the summary prompt for the query and those results. Any failure is a 500 with the cache unchanged; `{}` from the adapter gives the `.map` TypeError before any completion call. |
| ChatServer.Answer | backend/src/index.ts:138-176 | a live cache entry is returned tagged `cache` without searching; a missing or expired one takes the fresh-search path |
| ChatServer.HandleSearchWith | backend/src/index.ts:133-137 | 400 `Query is required` exactly when `query` is missing, not a string or empty (cache untouched); otherwise it answers under the key built from the trimmed query and the count |
| ChatServer.HandleSearchAsWritten | backend/src/index.ts:144-180 | as written, a failed search on a cache miss is a 500 carrying the `.map` TypeError, and no summary is requested; when the provider answers, it behaves exactly as the corrected handler |
| ChatServer.HandleSearch | backend/src/index.ts:130-182 | a fresh answer lists exactly the sources of the corrected adapter's results, at most numResults of them |
| ChatServer.SearchMissStores | backend/src/index.ts:173-176 | on a miss whose completion and store succeed, the fresh answer is what a lookup of the key finds afterwards |
| ChatServer.SearchRepeatWithinTtl | backend/src/index.ts:138-174 | repeating the same request within 3600 seconds of a fresh answer returns that answer from the cache without searching; from then on it searches again |
| ChatServer.CacheKey | backend/src/index.ts:137 | the key text starts with `search:`, holds the trimmed query up to its last colon, and the text after that colon reads back as the result count |
| ChatServer.CacheKeyInjective | backend/src/index.ts:137 | two requests share a cache key only when their trimmed queries and counts are equal |
| ChatServer.PaddedQueriesShareKey | backend/src/index.ts:137 | queries that differ only in surrounding whitespace share a cache key |
| ChatServer.SearchFailureIsServerError | backend/src/index.ts:145-180 | for every valid query on a cache miss whose provider fails: as written a 500 with the `.map` TypeError; corrected a fresh summary with no sources |
| StreakHeatmap.TwoDigits | src/components/streak-heatmap.tsx:17-18 | a number below 100, padded to two digits, is two characters and reads back as itself |
| StreakHeatmap.FormatDate | src/components/streak-heatmap.tsx:15-20 | for every calendar date (year ≥ 0, month index 0..11, day 1..31) the key parses back to the same year, month index and day |
| StreakHeatmap.FormatDateLength | src/components/streak-heatmap.tsx:15-20 | a date key is the year's numeral followed by exactly six characters |
| StreakHeatmap.FormatDateInjective | src/components/streak-heatmap.tsx:15-20 | different dates give different keys |
| StreakHeatmap.Level | src/components/streak-heatmap.tsx:50-55 | the level is 0 for a count below 1, 1 for 1–2, 2 for 3–5, 3 for 6–9 and 4 for 10 or more, each band an if-and-only-if |
| StreakHeatmap.LevelMonotone | src/components/streak-heatmap.tsx:50-55 | more sessions never give a lower level |
| StreakHeatmap.Window | src/components/streak-heatmap.tsx:41-59 | 140 cells, oldest first, each with the level of its day's count |
| StreakHeatmap.WindowCoversLastDays | src/components/streak-heatmap.tsx:43-49 | the cells cover the last 140 days in strictly decreasing age and end with today |
| StreakHeatmap.RunFrom | src/components/streak-heatmap.tsx:92-98 | the yesterday-first count never exceeds the days it may look at |
| StreakHeatmap.RunFromSpans | src/components/streak-heatmap.tsx:92-98 | every day the count covers is active, and the count stops at an inactive day or at the horizon |
| StreakHeatmap.RunBack | src/components/streak-heatmap.tsx:76-85 | the backward run counter at day i is at most i + 1 |
| StreakHeatmap.RunBackSpans | src/components/streak-heatmap.tsx:76-85 | the counter at day i counts exactly the active days just before i and up to it, stopping at an inactive day |
| StreakHeatmap.MaxRun | src/components/streak-heatmap.tsx:78 | the best streak over n days is at most n |
| StreakHeatmap.MaxRunIsMax | src/components/streak-heatmap.tsx:78 | the best streak bounds every run in the window and is attained by one of them |
| StreakHeatmap.RunFromWithinMax | src/components/streak-heatmap.tsx:99 | a run counted forward from any day is no longer than the best streak, so `Math.max(best, c)` is `best` |
| StreakHeatmap.WalkBack | src/components/streak-heatmap.tsx:63-87 | the 365-day loop leaves the run ending at the oldest day in `cur` and the longest run in `best` |
| StreakHeatmap.CountFromYesterday | src/components/streak-heatmap.tsx:90-98 | the recount gives the run of active days starting yesterday |
| StreakHeatmap.ComputeStreaks | src/components/streak-heatmap.tsx:62-102 | as written: if today is inactive, the current streak is the run starting yesterday; if active, it is the run at the oldest end of the window. The longest streak is the best run, and current ≤ longest ≤ 365. |
| StreakHeatmap.TodayStreakClaimFails | src/components/streak-heatmap.tsx:88 | with only today checked in, the code reports 0 while the run including today is 1 |
| StreakHeatmap.Streaks | src/components/streak-heatmap.tsx:88-101 | corrected: the current streak is the run that includes today (at least 1) when today is active, otherwise the run ending yesterday; every day it counts is active; current ≤ longest ≤ 365; longest is the best run in the 365-day window: no run there is longer and one run attains it |
| StreakHeatmap.StreaksAgreeWhenTodayEmpty | src/components/streak-heatmap.tsx:90-99 | with no session today, code and corrected definition agree |
| StreakHeatmap.MarkToday | src/components/streak-heatmap.tsx:104-107 | checking in adds one to today's count, adds today as a key, and changes no other day |
| StreakHeatmap.ResetActivity | src/components/streak-heatmap.tsx:113-114 | after a reset every day counts zero |
| StreakHeatmap.MarkTodayExtendsStreak | src/components/streak-heatmap.tsx:104-107 | checking in makes today active and the streak one longer than the run ending yesterday |
| StreakHeatmap.ResetClearsStreaks | src/components/streak-heatmap.tsx:113-114 | after a reset both streaks are zero |
| StreakHeatmap.NoRunsWithoutActivity | src/components/streak-heatmap.tsx:76-78 | with no active day the longest streak is zero |
| NotebookSession.FormatTimeShape | src/components/notebooks/NotebookInterface.tsx:316-320 | the clock text is the minutes padded to two digits, a colon, then exactly two digits; the field before the colon reads as the whole minutes and the two after it as the seconds left over, below 60 |
| NotebookSession.FormatTime | src/components/notebooks/NotebookInterface.tsx:316-320 | for a non-negative time the clock text reads back, as minutes and seconds below 60, to the number of seconds shown |
| NotebookSession.ParseClock | src/components/notebooks/NotebookInterface.tsx:316-320 | a clock reading has a colon, and the fields on either side of it read as the whole minutes and the leftover seconds of the total: a seconds field of 60 or more is rejected |
| NotebookSession.Tick | src/components/notebooks/NotebookInterface.tsx:149-165 | a stopped or finished timer does not change; a running one loses a second; at the last second it stops, resets to 25 minutes and counts one more session |
| NotebookSession.ResetTimer | src/components/notebooks/NotebookInterface.tsx:323-326 | reset stops the timer at 25 minutes and keeps the session count |
| NotebookSession.ToggleTimer | src/components/notebooks/NotebookInterface.tsx:322 | toggling flips running and changes nothing else |
| NotebookSession.TimerStaysValid | src/components/notebooks/NotebookInterface.tsx:146-171 | time left stays within 1..1500 and the session count non-negative under tick, reset and toggle |
| NotebookSession.CountdownCompletes | src/components/notebooks/NotebookInterface.tsx:149-165 | k < timeLeft ticks of a running timer subtract k; exactly timeLeft ticks complete one session and reset the timer |
| NotebookSession.StoppedTimerIdle | src/components/notebooks/NotebookInterface.tsx:149 | a stopped timer is unchanged by any number of ticks |
| NotebookSession.PhaseLabel | src/components/notebooks/NotebookInterface.tsx:466 | `Long Break` iff session mod 4 is 3; `Break` iff it is 1; `Focus` iff the session is even |
| NotebookSession.PhaseLabelCycle | src/components/notebooks/NotebookInterface.tsx:466 | the labels repeat every four sessions as Focus, Break, Focus, Long Break |
| NotebookSession.Clamp | src/components/notebooks/NotebookInterface.tsx:210 | the clamped value lies in 1..10, equals the input inside that range and the nearer bound outside it |
| NotebookSession.LoadDifficulty | src/components/notebooks/NotebookInterface.tsx:203-213 | a missing, empty or non-numeric stored value leaves the difficulty alone; a number is clamped into 1..10 |
| NotebookSession.SavedReadsBack | src/components/notebooks/NotebookInterface.tsx:208-220 | `Number(String(d))` is d for every integer |
| NotebookSession.DifficultyReload | src/components/notebooks/NotebookInterface.tsx:203-222 | saving then reloading a difficulty gives it back clamped, unchanged within 1..10 |
| NotebookSession.SliderValue | src/components/notebooks/NotebookInterface.tsx:796-801 | a range input yields a value between 1 and its max, the position itself when in range |
| NotebookSession.SliderDifficultyAsWritten | src/components/notebooks/NotebookInterface.tsx:796-801 | as written the slider can set any difficulty from 1 to 100 |
| NotebookSession.SliderDifficulty | src/components/notebooks/NotebookInterface.tsx:796-803 | corrected slider (max 10): the difficulty set is the clamped position, within 1..10 |
| NotebookSession.SliderValueLostOnReload | src/components/notebooks/NotebookInterface.tsx:798 | position 57 sets difficulty 57, shown as Insane, which reloads as 10 |
| NotebookSession.SliderSurvivesReload | src/components/notebooks/NotebookInterface.tsx:796-803 | with the corrected slider, any value it sets survives a reload unchanged |
| NotebookSession.DifficultyBandOf | src/components/notebooks/NotebookInterface.tsx:812-818 | Chill iff the difficulty is at most 3; Standard iff it is 4..6; Challenging iff it is 7..8; Insane iff it is above 8 |
| NotebookSession.DifficultyBandMonotone | src/components/notebooks/NotebookInterface.tsx:812-818 | a higher difficulty never shows an easier band; 1, 5, 7 and 10 show the four bands in order |
| NotebookSession.ToMessages | src/components/notebooks/NotebookInterface.tsx:235-241 | one message per row, same id and content, from the user exactly when the row's type is `user` |
| NotebookSession.LoadMessages | src/components/notebooks/NotebookInterface.tsx:224-260 | a failed fetch keeps the current messages; no rows give the welcome message alone; otherwise the converted rows |
| NotebookSession.LoadedNeverEmpty | src/components/notebooks/NotebookInterface.tsx:243-253 | after a successful fetch the conversation is never empty |
| NotebookSession.Submit | src/components/notebooks/NotebookInterface.tsx:277-290 | blank input or a pending reply changes nothing; otherwise the trimmed input is appended as a user message, the input cleared and a reply marked pending |
| NotebookSession.SubmitOnce | src/components/notebooks/NotebookInterface.tsx:279 | submitting again before the reply is a no-op |
| NotebookSession.ReceiveReply | src/components/notebooks/NotebookInterface.tsx:295-306 | the reply appends one assistant message answering the question and clears the pending flag |
| NotebookSession.ExchangeAddsTwo | src/components/notebooks/NotebookInterface.tsx:277-306 | a question and its reply add two messages, user then assistant, and the page accepts input again |
| NotebookSession.RenderLine | src/components/notebooks/NotebookInterface.tsx:389-403 | a line is a bullet iff it starts with `•` (its text is the rest, trimmed), a line break iff it is empty, and otherwise shown as is |
| NotebookSession.RenderContent | src/components/notebooks/NotebookInterface.tsx:388-404 | one rendered line per newline-separated piece, in order |
| NotebookSession.RenderLines | src/components/notebooks/NotebookInterface.tsx:388-404 | content built by joining newline-free lines renders back line for line |
| NotebookSession.NextTip | src/components/notebooks/NotebookInterface.tsx:141 | the tip index stays among the three tips, advancing by one and wrapping from the last to the first |
| NotebookSession.TipCycle | src/components/notebooks/NotebookInterface.tsx:141 | three rotations return to the same tip, and every rotation changes it |
| SignUp.SetField | src/pages/auth/SignUp.tsx:26-28 | the edited field takes the typed value and every other field keeps its own |
| SignUp.SetFieldIdempotent | src/pages/auth/SignUp.tsx:26-28 | typing the same value twice equals typing it once |
| SignUp.Utf16Length | src/pages/auth/SignUp.tsx:89 | `.length` is between the number of characters and twice that |
| SignUp.Utf16LengthBmp | src/pages/auth/SignUp.tsx:89 | for text in the Basic Multilingual Plane `.length` is the number of characters |
| SignUp.PasswordRequirements | src/pages/auth/SignUp.tsx:88-93 | four requirements, in order; each is met exactly when its test (length ≥ 8, an A–Z, an a–z, a 0–9) holds |
| SignUp.ShownRequirements | src/pages/auth/SignUp.tsx:173-175 | the checklist is shown exactly when a password has been typed |
| SignUp.ScanPassword | src/pages/auth/SignUp.tsx:88-93 | one pass over the password decides all four requirements, each the same as its definition |
| SignUp.HandleSubmit | src/pages/auth/SignUp.tsx:30-62 | mismatched passwords are refused first, then missing agreement; the request is sent iff both pass, with the form's email, password and name |
| SignUp.MismatchReportedFirst | src/pages/auth/SignUp.tsx:32-47 | with mismatched passwords the terms box does not affect the outcome |
| SignUp.WeakPasswordStillSent | src/pages/auth/SignUp.tsx:40-62 | a password meeting one requirement of four is still sent |
| SignUp.SubmitDisabled | src/pages/auth/SignUp.tsx:241 | the button is disabled exactly when a request is loading or the terms are unticked; while it is enabled `handleSubmit` never gives the terms refusal, and sends the request iff the passwords match |
| SignUp.PressSubmit | src/pages/auth/SignUp.tsx:118-241 | pressing submit reaches `handleSubmit` exactly when the button is enabled and the browser's checks pass (no empty required field, a well-formed email), and then gives its decision |
| SignUp.PageSendsIff | src/pages/auth/SignUp.tsx:30-62 | from the page, a request is sent exactly when not loading, the terms are agreed, no field is empty, the email is well formed and the passwords match; the terms refusal never shows |
| SignUp.FinishSignUp | src/pages/auth/SignUp.tsx:52-85 | only an accepted request navigates, to `/auth/signin`; every other outcome shows a destructive toast, with the service's message when it returned an error |
| NotebookDialog.SetText | src/components/notebooks/CreateNotebookDialog.tsx:49-51 | only the edited text field changes |
| NotebookDialog.SelectColor | src/components/notebooks/CreateNotebookDialog.tsx:53-59 | the colour and the gradient come from the chosen option; nothing else changes |
| NotebookDialog.SelectIcon | src/components/notebooks/CreateNotebookDialog.tsx:61-63 | only the icon name changes |
| NotebookDialog.SelectColorHighlightsOne | src/components/notebooks/CreateNotebookDialog.tsx:234 | after choosing a swatch exactly that swatch is highlighted |
| NotebookDialog.FindIcon | src/components/notebooks/CreateNotebookDialog.tsx:98 | none exactly when no option has the name; otherwise the icon of the first option that does |
| NotebookDialog.SelectedIcon | src/components/notebooks/CreateNotebookDialog.tsx:98 | an unknown icon name falls back to BookOpen |
| NotebookDialog.IconNamesDistinct | src/components/notebooks/CreateNotebookDialog.tsx:22-31 | the eight option names are pairwise distinct and none is `BookOpen` |
| NotebookDialog.InitialIconFallsBack | src/components/notebooks/CreateNotebookDialog.tsx:40-46 | the default icon name matches no option: the header falls back to BookOpen and no icon button is highlighted |
| NotebookDialog.InitialColorIsFirstSwatch | src/components/notebooks/CreateNotebookDialog.tsx:40-46 | the default colour and gradient are the first swatch's, which is highlighted |
| NotebookDialog.SelectIconShowsIt | src/components/notebooks/CreateNotebookDialog.tsx:61-63 | choosing an icon shows it in the header and highlights that button alone |
| NotebookDialog.SubmitEnabled | src/components/notebooks/CreateNotebookDialog.tsx:260 | submit is enabled iff the title has a non-whitespace character and nothing is pending |
| NotebookDialog.BeginSubmit | src/components/notebooks/CreateNotebookDialog.tsx:65-67 | submitting marks the dialog pending, leaves the form and open state alone, and captures the title as it is now |
| NotebookDialog.FinishSubmit | src/components/notebooks/CreateNotebookDialog.tsx:65-96 | success resets the form, closes the dialog and names the title captured at submit in the toast; failure keeps the current form and dialog and shows a destructive toast; loading ends either way |
| NotebookDialog.EditDuringSubmit | src/components/notebooks/CreateNotebookDialog.tsx:65-96 | a title typed while the submit is pending does not change the name in the success toast and is discarded by the reset; after a failure it is kept |
| NotebookDialog.SuccessResetsForm | src/components/notebooks/CreateNotebookDialog.tsx:78-86 | after a successful submit the dialog is closed with the default form, whose submit is disabled again |

## Left out

**Backend:**

- Service calls are inputs, not behaviour: the HTTP calls to the search provider and the completion agent, the Redis client, `console` logging, CORS and JSON body parsing, and environment configuration.
- ChatServer.Frame: `JSON.stringify` escaping of quotes, backslashes and control characters inside content is not modelled. The frame embeds the text verbatim.
- Cache keys: SHA-256 hashing is not modelled. The cache is keyed by the string that is hashed. Hashing is treated as injective.
- A `redis.get` that throws sits outside the handler's `try` and becomes an unhandled rejection. That path is not modelled.
- A `numResults` that is not a number, or is `null`, is not modelled. The request carries an optional integer.
- Non-object elements of `messages`, and a `content` that is not a string, are not modelled.
- JSON numbers in `enableSearch` are integers in the model. Fractions are not represented; their truthiness is that of a non-zero number.
- Cache expiry is modelled as an absolute instant, `now + 3600`. Store-side eviction is not modelled.
- The `/health` and `/` endpoints, server start-up and signal handling are not modelled. They carry no logic beyond I/O.

**Dates and timers:**

- `Date` and calendar arithmetic: the streak and heatmap days are integer offsets from today. `formatDate` is modelled separately over (year, month index, day).
- The `localStorage` reads and writes are modelled as the values read. Their exceptions are not modelled, because the code ignores them.
- The intervals and timeouts (tick every second, tip every 8 s, reply after 1.5 s) are modelled as discrete steps.

**Notebook page:**

- The "Focus Session Complete!" toast text reads `focusSession` from a stale closure. The text is not modelled.
- `saveMessage` is not modelled. Its failures are only logged.
- Message timestamps and the per-message difficulty are not modelled. They are display-only.
- NotebookSession.LoadDifficulty: `Number(...)` is modelled for blank text and signed decimal integers only. Decimals, hex, exponents and `Infinity` are read as not-a-number, whereas JavaScript accepts them.
- NotebookSession.FormatTimeShape: states the shape for non-negative second counts only. The timer never holds a negative count.
- NotebookSession.FormatTime: its round trip is promised for non-negative second counts only, for the same reason.

**Sign-up page:**

- The `type="email"` grammar the browser applies is not modelled. Its verdict is an input of `PressSubmit`.
- The browser strips surrounding whitespace from an email input's value before validating; that is not modelled.

**Dialog and presentation:**

- The dialog's notebook creation is a mocked one-second delay that never fails. It is modelled by the `succeeded` input, so the catch branch is still covered.
- Presentation components, styling, fullscreen and focus-mode layout, scrolling and textarea autosizing are not modelled.

## Findings

| source | as written | input that shows it | evidently intended | confidence | as-written member | corrected member |
|---|---|---|---|---|---|---|
| backend/src/index.ts:49-51 | on failure `performWebSearch` returns `{}`. Its callers call `.map` on the result, so a failed search aborts the chat stream with the error frame, and `/api/search` answers 500 | a chat request with search enabled, last message `user: "mitosis"`, provider unreachable; or `/api/search` for `mitosis` on a cache miss with the provider answering 429 | a failed search reads as "no results": the chat is answered without search context, and the search answers with an empty summary | not executed | ChatServer.ChatSearchFailureAborts | ChatServer.HandleChat |
| src/components/streak-heatmap.tsx:88 | the comment says that, when today is active, `cur` holds the run including today. After the 365-day loop, `cur` is the run that reaches the oldest day of the window | activity `{today: 1}` and nothing else: the current streak is 0, where 1 is intended | the current streak is the run of active days that includes today | not executed | StreakHeatmap.TodayStreakClaimFails | StreakHeatmap.Streaks |
| src/components/notebooks/NotebookInterface.tsx:798 | the slider has `max={100}`, while the difficulty is clamped to 1..10 on load, `aria-valuemax` is 10 and the scale label reads 10 | dragging to position 57 sets difficulty 57 (shown as Insane); a reload turns it into 10 | a slider from 1 to 10 | not executed | NotebookSession.SliderValueLostOnReload | NotebookSession.SliderSurvivesReload |
