# seren-support-connect: analytics and screen state, in Dafny

This project models the logic inside the screens of seren-support-connect, a React app for autistic users and their caregivers, and proves properties of that model. It leaves out the remote store, the browser and the rendering. The parts modelled are:

- the **progress dashboard**: the month's counts, the activity streak, achievements and goals;
- the caregiver's **communication-patterns analytics**:
  - the query window and the user filter;
  - the emotion counts;
  - the daily activity buckets;
  - the five peak hours;
- the **onboarding wizard**: its steps, its buttons, its progress dots and its final save;
- the **sign-up and sign-in** handlers: form validation and the removal of stale auth keys from browser storage;
- the **routine planner** form: task list edits and the insert it sends;
- the **settings** screen: the preference merge, the profile save and the connection code;
- the **sidebar**: initials, navigation lists and the notification badge;
- the **recent-activity card**: icons, colours, relative ages and the newest-ten list;
- the **emotion logger**: the emotion table, its lookup, the newest-twenty list and logging an emotion;
- the **authenticated layout**: spinner, redirects and layout, driven by auth events.

Every module is made of plain datatypes and pure functions; the one exception is `Progress.CalculateStreak`, a method with a loop.

- Time is an integer number of milliseconds. The local zone is a fixed offset with no daylight saving. Calendar days and hours come from `Clock.DayNumber` and `Clock.HourOfDay`.
- Rows read from the store are sequences. A query that fails (`data: null`) is `None`.
- Server-side filters (`eq`, `in`, `gte`, `lte`, `order`, `limit`) are predicates, a stable sort and a prefix.
- Event handlers are functions from a state and an input to the next state and its effects. Those effects are the row written, the activity logged, the toast and the redirect.

Shared pieces:

- `Wrappers`: `Option` and `Result`.
- `Seqs`: filter, prefix (`slice(0, n)` and `substring(0, n)`), occurrence counts, sums.
- `Text`:
  - JavaScript's `split(' ')`;
  - `n[0]` joined (an empty word contributes nothing);
  - `trim` blankness;
  - `toUpperCase`;
  - `includes` and `slice(-n)`.
- `Clock`: day numbers and hours of an instant.
- `Tally`: the "find the entry or push a new one" fold, used by both the emotion counts and the daily buckets.
- `Ranking`: a stable descending insertion sort and its top-k prefix. It backs the peak hours, the recent-activity card and the emotion log list.
- `Records`: the table rows and the store.

Two facts about the queries and folds that the contracts rely on:

- **Daily buckets.** The reduce at `src/pages/CommunicationPatterns.tsx:177-186` keeps the order in which dates first appear in the fetched rows, not date order (`CommunicationPatterns.DailyActivityInArrivalOrder`).
- **Windows.** The communication queries use `gte` and `lte`, so their window is closed at both ends (`src/pages/CommunicationPatterns.tsx:106-107`). The progress queries use `gte` only, so they have no upper bound (`src/pages/Progress.tsx:48`).

## Model

| member | source | states |
|---|---|---|
| Clock.HourOfDay | src/pages/CommunicationPatterns.tsx:190 | the local hour of an instant is in 0..23 and brackets the instant within its local day |
| Clock.DayNumberShift | src/pages/Progress.tsx:99 | stepping back k whole days moves the local day number back by exactly k |
| Text.JoinFirstsSplit | src/components/AppSidebar.tsx:87 | joining the first characters of the `split(' ')` words gives exactly the characters that start a word (the reference definition `WordStarts`) |
| Text.InitialsAreWordStarts | src/pages/Onboarding.tsx:232 | the initials expression equals the upper-cased word starts |
| Text.InitialsOfName | src/pages/Settings.tsx:206 | initials are no longer than the name; a name starting with a non-space has non-empty initials beginning with its upper-cased first letter |
| Text.Contains | src/pages/Auth.tsx:62 | `includes` holds exactly when the substring occurs at some index |
| Text.Suffix | src/pages/Settings.tsx:341 | `slice(-n)` is a suffix of the input of length min(n, length) |
| Tally.TallyOfSpec | src/pages/CommunicationPatterns.tsx:177-186 | the find-or-push fold gives one entry per distinct key, each counting exactly that key's occurrences, every key present, in first-appearance order, counts summing to the input length |
| Ranking.SortDescSpec | src/pages/CommunicationPatterns.tsx:197 | the sort is a permutation of its input and is non-increasing in the key |
| Ranking.SortDescStable | src/pages/CommunicationPatterns.tsx:195-197 | input already strictly ascending in a second key comes out ordered by key descending, ties by that second key ascending (stability) |
| Ranking.TopSpec | src/pages/CommunicationPatterns.tsx:198 | the top-k prefix has min(k, n) elements drawn from the input, is sorted, and every element past it ranks no higher than the last kept |
| Ranking.TopOmitted | src/components/RecentActivity.tsx:64-65 | an element left out of the top k means the top is full and the element ranks no higher than its last entry |
| Seqs.FilterPlaces | src/pages/RoutinePlanner.tsx:69 | `filter` keeps as many elements as there are passing indices, and the element at each passing index sits right after the passing elements before it, so order and repeats are kept |
| Records.Select | src/pages/CommunicationPatterns.tsx:126-131 | a filtered read is null exactly when the table read fails; otherwise it holds exactly the rows meeting the filter, each value as often as the table holds it |
| Seqs.FilterMultiset | src/pages/RoutinePlanner.tsx:69 | `filter` keeps each passing value exactly as often as the input holds it, and no other value |
| Seqs.FilterSplit | src/pages/EmotionLogger.tsx:47 | filtering by a predicate and by its negation splits the input's multiset in two, as the untimed and timed parts of the descending order do |
| Progress.MonthStart | src/pages/Progress.tsx:40-42 | the start of the month is no later than now, falls on day 1 of the local month at hour 0, and the instant before it is the previous day |
| Progress.StreakRun | src/pages/Progress.tsx:91-103 | the backwards walk stops at its budget or at the first inactive day, and every day it passed was active |
| Progress.CalculateStreak | src/pages/Progress.tsx:85-106 | the loop returns at most 31, every day of the streak has activity, the day before it (within 30 days) has none, and it equals the recursive definition |
| Progress.Count | src/pages/Progress.tsx:72-76 | `data?.length or 0` is 0 for a failed read and the row count otherwise |
| Progress.LoadProgress | src/pages/Progress.tsx:34-77 | without a user the stats stay at zero; a failed read gives a zero count; otherwise each of the four counts is the number of the user's rows in that table at or after the month start, with no upper bound; the streak is at most today's day of the month and at most the number of activities |
| Progress.LoadedStreak | src/pages/Progress.tsx:64-75 | the streak shown is `Streak` of the user's activities at or after the month start, whatever their order or repetition |
| Progress.StreakZeroWithoutToday | src/pages/Progress.tsx:97-101 | no activity today means a streak of 0 |
| Progress.StreakIsMaximalRun | src/pages/Progress.tsx:91-103 | the streak is exactly the length of the maximal run of active days ending today (capped by the 30-day lookback) |
| Progress.StreakOfThree | src/pages/Progress.tsx:91-103 | activity today and the two days before, none three days back, gives a streak of 3 |
| Progress.StreakIgnoresOrderAndDuplicates | src/pages/Progress.tsx:92-95 | two activity lists with the same elements (in any order, with repeats) have the same streak |
| Progress.StreakWithinMonth | src/pages/Progress.tsx:69 | fed only activities since the month start, the streak never exceeds today's day of the month |
| Progress.StreakAtMostActivities | src/pages/Progress.tsx:97-98 | each streak day needs its own activity, so the streak is at most the number of activities |
| Progress.Achievements | src/pages/Progress.tsx:108-113 | four achievements, unlocked exactly at routines ≥ 1, emotions ≥ 10, AAC uses ≥ 5, streak ≥ 7 |
| Progress.AchievementsMonotone | src/pages/Progress.tsx:108-113 | raising any count never locks an unlocked achievement |
| Progress.Goals | src/pages/Progress.tsx:115-119 | three goals pairing routines, emotions and AAC uses with targets 30, 20, 15 |
| Progress.Remaining | src/pages/Progress.tsx:231 | the remaining amount is 0 exactly when the goal is reached, and otherwise closes the gap exactly |
| Progress.NothingLogged | src/pages/Progress.tsx:71-77 | with nothing logged every count is zero, every goal has its full target remaining and no achievement is unlocked |
| Progress.ExplorerWithoutWarrior | src/pages/Progress.tsx:110-112 | ten emotions this month unlock Emotion Explorer, while no activity today keeps Week Warrior locked |
| CommunicationPatterns.RangeDays | src/pages/CommunicationPatterns.tsx:88 | '7d' is 7 days, '30d' is 30, any other value 90, each in both directions |
| CommunicationPatterns.QueryWindow | src/pages/CommunicationPatterns.tsx:86-89 | the window ends now and spans exactly the range's number of days |
| CommunicationPatterns.SelectUserIds | src/pages/CommunicationPatterns.tsx:92-94 | one selected user gives just that id; 'all' gives every related user's id, or none when the relationship read failed |
| CommunicationPatterns.FetchCommunicationData | src/pages/CommunicationPatterns.tsx:57-146 | nothing is fetched without a user or for a non-caregiver; fetched rows belong to the selected users and lie in the closed window, and every such row of each of the four logs is fetched; a failed read gives an empty list; a caregiver gets nothing only when the id list is empty |
| CommunicationPatterns.FetchedMultiplicity | src/pages/CommunicationPatterns.tsx:96-146 | each fetched log holds every in-scope row exactly as often as its table does and nothing else, so the lengths shown at lines 279, 291, 303 and 315 are the numbers of in-scope rows |
| CommunicationPatterns.HourCounts | src/pages/CommunicationPatterns.tsx:189-193 | the hour map has exactly the hours that occur, each mapped to its number of occurrences |
| CommunicationPatterns.HourEntries | src/pages/CommunicationPatterns.tsx:195-196 | `Object.entries` on hour keys yields only hours of the map in range with their counts |
| CommunicationPatterns.HourEntriesAscending | src/pages/CommunicationPatterns.tsx:195 | integer keys are enumerated in strictly ascending order |
| CommunicationPatterns.HourEntriesCover | src/pages/CommunicationPatterns.tsx:195 | every key of the map is enumerated |
| CommunicationPatterns.ProcessAnalytics | src/pages/CommunicationPatterns.tsx:155-198 | no more trends than emotion logs, no more buckets than activity logs, at most five peak hours |
| CommunicationPatterns.EmotionTrendsSpec | src/pages/CommunicationPatterns.tsx:165-174 | one trend per distinct emotion, each counting exactly that emotion's logs, every logged emotion listed, in order of first appearance, totals equal to the number of logs |
| CommunicationPatterns.DailyActivitySpec | src/pages/CommunicationPatterns.tsx:177-186 | one bucket per distinct UTC date, each counting exactly that date's logs, every date listed, in order of first appearance, totals equal to the number of logs |
| CommunicationPatterns.PeakHoursSpec | src/pages/CommunicationPatterns.tsx:189-198 | at most five local hours, each with its true count; busiest first, ties by ascending hour; any hour left out is no busier than the fifth |
| CommunicationPatterns.HourEntriesBound | src/pages/CommunicationPatterns.tsx:195 | there are no more distinct hours than logs |
| CommunicationPatterns.NoLogsNoAnalytics | src/pages/CommunicationPatterns.tsx:165-198 | with no logs all three lists are empty |
| CommunicationPatterns.PeakHoursExample | src/pages/CommunicationPatterns.tsx:195-198 | activity at 9, 9, 14, 9, 20 o'clock gives (9, 3), (14, 1), (20, 1) |
| CommunicationPatterns.DailyActivityInArrivalOrder | src/pages/CommunicationPatterns.tsx:179-183 | a later date fetched first gets the first bucket |
| Onboarding.StepIndex | src/pages/Onboarding.tsx:128 | each step sits at its own position in the four-step list |
| Onboarding.Next | src/pages/Onboarding.tsx:79-91 | Next moves exactly one position forward, and the last step has no successor |
| Onboarding.Prev | src/pages/Onboarding.tsx:93-105 | Previous moves exactly one position back, and the first step stays put |
| Onboarding.PrevAfterNext | src/pages/Onboarding.tsx:79-105 | Previous undoes Next below the last step |
| Onboarding.NextAfterPrev | src/pages/Onboarding.tsx:79-105 | Next undoes Previous above the first step |
| Onboarding.Apply | src/pages/Onboarding.tsx:144-307 | the step changes only by an enabled Next or Previous, and an enabled Next (below Complete) or Previous does move it one step; role, name and age group change only on their own step, and each input on its own step sets its field to the chosen value |
| Onboarding.CompleteNeedsProfile | src/pages/Onboarding.tsx:307 | once past the profile step, a name and an age group stay filled whatever the user does |
| Onboarding.FromStartCompleteNeedsProfile | src/pages/Onboarding.tsx:307 | from the first screen, reaching the complete step implies a non-empty name and a chosen age group |
| Onboarding.StraightThrough | src/pages/Onboarding.tsx:79-91 | Next, Next, a name, an age group and Next reach the complete step |
| Onboarding.DotsSpec | src/pages/Onboarding.tsx:128-137 | dots before the current step are done, the current one is current, later ones are pending |
| Onboarding.NextAdvancesDots | src/pages/Onboarding.tsx:128-137 | Next turns the current dot done, the next one current, and changes no other dot |
| Onboarding.AvatarText | src/pages/Onboarding.tsx:232 | an empty name shows '?', any other name its upper-cased word starts |
| Onboarding.BlankNameBlankAvatar | src/pages/Onboarding.tsx:232 | a name of one space shows no '?' and no initials |
| Onboarding.ProfilePayload | src/pages/Onboarding.tsx:36-47 | the update carries the chosen role, name, age group and switches, the light theme, notifications on, and onboarding completed |
| Onboarding.CompleteOnboarding | src/pages/Onboarding.tsx:28-77 | no user fails with 'No user found'; a save error fails with its message; otherwise it succeeds, logs the onboarding activity and goes to /dashboard |
| Auth.ValidateSignUp | src/pages/Auth.tsx:125-141 | each message appears exactly when its check is the first to fail; success exactly when all pass, with the request carrying the form's fields |
| Auth.CaregiverNeedsNoAgeGroup | src/pages/Auth.tsx:137 | a caregiver's sign-up is decided by the password checks alone |
| Auth.ChooseRole | src/pages/Auth.tsx:372-374 | choosing caregiver clears the age group, choosing user keeps it, nothing else changes |
| Auth.RoleRoundTripLosesAgeGroup | src/pages/Auth.tsx:372-374 | going to caregiver and back to user loses the age group, so sign-up then fails for a missing age group |
| Auth.CleanStore | src/pages/Auth.tsx:61-65 | exactly the non-auth keys survive, with their values |
| Auth.CleanupAuthState | src/pages/Auth.tsx:60-72 | both storage areas are cleaned; an absent session storage stays absent |
| Auth.CleanStoreSpec | src/pages/Auth.tsx:60-72 | no auth key survives, other keys keep their values, cleaning twice equals cleaning once |
| Auth.CleanupIdempotent | src/pages/Auth.tsx:60-72 | the cleanup is idempotent |
| Auth.MessageOr | src/pages/Auth.tsx:187 | `error.message or fallback` is the message when it is non-empty and the fallback when it is empty |
| Auth.HandleSignUp | src/pages/Auth.tsx:119-196 | a failed check shows its message and leaves storage alone; otherwise storage is cleaned, and the browser goes to /dashboard exactly for a confirmed user; a service error shows its message or 'Failed to create account'; an unconfirmed user sees the verify-email message; no user shows nothing |
| Auth.HandleLogin | src/pages/Auth.tsx:74-117 | storage is always cleaned; a returned user goes to /dashboard; a service error shows its message or 'Failed to sign in', never an empty one |
| RoutinePlanner.AddTask | src/pages/RoutinePlanner.tsx:99-101 | one empty task is appended and the others are kept |
| RoutinePlanner.UpdateTask | src/pages/RoutinePlanner.tsx:103-108 | an index in range gets the new value, other tasks are kept; an index out of range changes nothing |
| RoutinePlanner.RemoveTaskSpec | src/pages/RoutinePlanner.tsx:110-115 | removing drops exactly the task at the index and keeps the rest in order |
| RoutinePlanner.RemoveUndoesAdd | src/pages/RoutinePlanner.tsx:99-115 | removing the task just added gives the list back |
| RoutinePlanner.UpdateTaskLaws | src/pages/RoutinePlanner.tsx:103-108 | writing the current value is a no-op and the last of two writes wins |
| RoutinePlanner.CreateRoutine | src/pages/RoutinePlanner.tsx:62-83 | a blank title sends nothing; otherwise the insert carries exactly the non-blank tasks, in their original order and with their repeats (each non-blank task lands after the non-blank tasks before it), and only a successful insert logs, closes the form and resets it |
| RoutinePlanner.SavedTasksExamples | src/pages/RoutinePlanner.tsx:69 | tasks with content are saved unchanged; the empty form's single empty task is dropped |
| RoutinePlanner.OfferedEditKeepsATask | src/pages/RoutinePlanner.tsx:171 | Remove is shown only with two or more tasks, so an offered edit keeps at least one task |
| RoutinePlanner.TaskListNeverEmpty | src/pages/RoutinePlanner.tsx:164-171 | any sequence of edits keeps at least one task row |
| Settings.LoadProfile | src/pages/Settings.tsx:61-64 | a fetched profile replaces the local one, and its preferences replace the current ones unless they are null |
| Settings.MergePrefs | src/pages/Settings.tsx:80 | each key takes the patch's value when present and the old one otherwise |
| Settings.MergeLaws | src/pages/Settings.tsx:80 | untouched keys are kept; the empty patch is the identity; a patch applied twice is applied once |
| Settings.MergeCompose | src/pages/Settings.tsx:80 | merging two patches in turn is merging their composition, later keys winning |
| Settings.SwitchChangesOnlyItsKey | src/pages/Settings.tsx:80 | a single switch changes only its own key |
| Settings.UpdatePreferences | src/pages/Settings.tsx:77-105 | without a profile nothing happens; otherwise the merge is shown at once, written for the profile, and the toast reports the save's outcome |
| Settings.UpdatePreferencesAsWritten | src/pages/Settings.tsx:77-105 | the same state and write as the corrected version; a toast appears exactly when the corrected version shows one, and it is always the error toast, so the success path shows 'Error' too |
| Settings.SavedPreferencesReportedAsFailure | src/pages/Settings.tsx:89-91 | with a profile and a successful save, the written code shows 'Error' where 'Settings Updated' is intended |
| Settings.MergeProfile | src/pages/Settings.tsx:119 | the name is the update's when present, and every other field is unchanged |
| Settings.UpdateProfile | src/pages/Settings.tsx:107-131 | without a profile nothing happens; the write is for the loaded profile; only a successful save merges the update; a failed save keeps the state and shows the error toast |
| Settings.UpdateProfileAsWritten | src/pages/Settings.tsx:107-131 | the same state and write as the corrected version; a toast appears exactly when the corrected version shows one, and it is always the error toast |
| Settings.SavedProfileReportedAsFailure | src/pages/Settings.tsx:119-120 | a successful profile save merges the update yet shows the error toast as written |
| Settings.EditName | src/pages/Settings.tsx:226 | typing edits the local profile's name and leaves the preferences alone |
| Settings.FailedSaveKeepsEditedName | src/pages/Settings.tsx:226-246 | a failed save still shows the edited name, since the edit was already local |
| Settings.AvatarInitials | src/pages/Settings.tsx:205-207 | a non-empty name gives its upper-cased word starts; otherwise the first two email characters upper-cased |
| Settings.ConnectionCode | src/pages/Settings.tsx:341 | the code is the last eight characters of the id (all of a shorter id), upper-cased |
| Settings.ShownConnectionCode | src/pages/Settings.tsx:331 | the code is shown exactly to users |
| Settings.ConnectionCodeOfSuffix | src/pages/Settings.tsx:341 | ids agreeing on their last eight characters share a code |
| AppSidebar.UserInitials | src/components/AppSidebar.tsx:85-90 | a non-empty name gives its word starts; else a non-empty email gives its first two characters; else 'U'; all upper-cased |
| AppSidebar.UserInitialsNonEmpty | src/components/AppSidebar.tsx:85-90 | without a name the initials are never empty; a name starting with a non-space gives non-empty initials |
| AppSidebar.SpaceNameBlankInitials | src/components/AppSidebar.tsx:86-87 | a name of one space takes the name branch and yields blank initials |
| AppSidebar.NavFor | src/components/AppSidebar.tsx:46-70 | caregivers get the four-item list, everyone else (including no user) the five-item list, both starting with Dashboard |
| AppSidebar.NavListsSpec | src/components/AppSidebar.tsx:46-72 | urls are distinct, so the declared exact-path `isActive` helper (which the rendered links do not call) holds for at most one item; communication patterns is offered exactly to caregivers |
| AppSidebar.Badge | src/components/AppSidebar.tsx:163 | the badge shows exactly for a positive count, with that count |
| AppSidebar.BadgeShownForPlaceholder | src/components/AppSidebar.tsx:67 | the placeholder count of 3 shows a badge |
| RecentActivity.IconFor | src/components/RecentActivity.tsx:14-27 | each activity type group gets its icon, both directions, and every other type gets Target |
| RecentActivity.ColorFor | src/components/RecentActivity.tsx:29-42 | the same groups get blue, red and green, both directions, and every other type purple |
| RecentActivity.IconAndColorAgree | src/components/RecentActivity.tsx:14-42 | two types share an icon exactly when they share a colour |
| RecentActivity.FormatDate | src/components/RecentActivity.tsx:79-96 | under an hour (or in the future) is 'Just now'; under a day is N hours with N in 1..23 bracketing the age; a day or more is the date itself |
| RecentActivity.AgeNeverDecreases | src/components/RecentActivity.tsx:82-95 | as time passes an entry's displayed age never goes back |
| RecentActivity.OneHoursAgo | src/components/RecentActivity.tsx:87 | one hour exactly reads '1 hours ago' |
| RecentActivity.RecentActivitiesSpec | src/components/RecentActivity.tsx:60-65 | at most ten of the user's own logs, none listed more often than the table holds it, newest first; a log of the user's left out means the list is full and the log is no newer than the tenth |
| EmotionLogger.FindByName | src/pages/EmotionLogger.tsx:73 | `find` returns the first entry with the name, or nothing exactly when no entry has it |
| EmotionLogger.GetEmotionConfig | src/pages/EmotionLogger.tsx:72-74 | the result is a table entry; a known name gets its own entry; an unknown one gets neutral |
| EmotionLogger.EmotionNamesDistinct | src/pages/EmotionLogger.tsx:10-16 | five entries with pairwise distinct names |
| EmotionLogger.GetEmotionConfigIdempotent | src/pages/EmotionLogger.tsx:72-74 | looking up the name of a looked-up entry gives the same entry |
| EmotionLogger.EveryEntryFoundByName | src/pages/EmotionLogger.tsx:10-16 | every entry is found by its own name |
| EmotionLogger.RecentLogsSpec | src/pages/EmotionLogger.tsx:42-48 | at most twenty of the user's own logs, none listed more often than the table holds it, untimed ones first (PostgreSQL's NULLS FIRST for a descending order), then newest first; fewer than twenty means all of them; a log left out of a full list comes after the twentieth in that order |
| EmotionLogger.FetchEmotionLogs | src/pages/EmotionLogger.tsx:42-54 | a failed read keeps the shown list and shows the error; otherwise the list is replaced by the user's newest twenty (`RecentLogs`, specified by `RecentLogsSpec`) |
| EmotionLogger.LogEmotion | src/pages/EmotionLogger.tsx:57-70 | the row is inserted for the user and emotion; only a successful insert logs 'emotion_logged', shows the success toast and fetches again |
| AppLayout.Apply | src/components/AppLayout.tsx:26-58 | an auth change sets user and session and ends loading, clearing the profile without a user; the initial check ends loading only without a session; a fetched profile is stored only when present |
| AppLayout.Render | src/components/AppLayout.tsx:63-86 | a spinner exactly while loading; /auth without user or session; /onboarding for a loaded profile not completed; the layout otherwise, including with no profile yet |
| AppLayout.LoadingNeverResumes | src/components/AppLayout.tsx:47-56 | once loading has ended no event restarts it |
| AppLayout.SpinnerUntilAnswer | src/components/AppLayout.tsx:52-58 | until an auth change or a check finding no session, the spinner stays |
| AppLayout.SignedOutStaysOut | src/components/AppLayout.tsx:44-47 | after signing out the shell redirects to /auth, even if a profile query still in flight lands afterwards |
| AppLayout.SignInThenProfile | src/components/AppLayout.tsx:31-43 | signing in before the profile arrives shows the layout; a profile that has not finished onboarding then redirects to /onboarding |

## Left out

- The remote store. Every query, insert, update and auth call is an input: the rows it returns, or whether it succeeded. Sign-out and `onAuthStateChange` subscriptions are not modelled beyond the events they deliver.
- Daylight saving and real calendars. The local zone is a fixed offset, and the progress screen is given the day of the month instead of deriving it from a calendar.
- Date rendering. `toISOString`, `toDateString` and `toLocaleDateString` are replaced by day numbers and by the instant itself (`RecentActivity.Age.Absolute`).
- The goal progress bar `(current / target) * 100` (`src/pages/Progress.tsx:227`), which is floating point.
- The fixed `mostUsedPhrases` placeholder (`src/pages/CommunicationPatterns.tsx:157-162`), which is a constant.
- Emotion labels that JavaScript treats specially as object keys. Integer-like strings would be enumerated first. `__proto__` is not an own key. Inherited names such as `constructor`, `toString`, `valueOf` and `hasOwnProperty` make `acc[label] || 0` start from a function, so the count becomes a string (`src/pages/CommunicationPatterns.tsx:166`). Labels are taken to be ordinary strings, so counts are numbers listed in insertion order.
- Characters are code points, and upper-casing covers ASCII letters only. JavaScript works on UTF-16 units and upper-cases all of Unicode.
- The `profiles!inner` join on the relationships query (`src/pages/CommunicationPatterns.tsx:78-83`). An inner join also drops every relationship whose profile row is missing or not readable, which shrinks the 'all' id list (lines 92-94). The model reads the relationships table as it is, so its 'all' list keeps those users.
- The age group 'teen' that onboarding offers. The database enum in `src/integrations/supabase/types.ts:219` lacks it, so the store would reject the save. The model treats the save's outcome as an input.
- The `setTimeout` deferral of the profile fetch and any interleaving of callbacks. Events are applied one at a time, in any order.
- Loading and saving flags and the toasts' description texts, except where a contract mentions them.
- Routine completion (`src/pages/RoutinePlanner.tsx:85-97`) and the routine list fetch. These are an insert and a read, with no logic of their own.
- `src/components/ActivityTracker.tsx`, `src/pages/CommunicationTools.tsx`, `src/pages/Dashboard.tsx` and `src/pages/Index.tsx`. They hold an insert wrapper, browser speech, and static content.
- The broken `trackActivity` call on the communication-patterns screen (`src/pages/CommunicationPatterns.tsx:50-54`). The mount effect calls the undefined name directly, outside any try/catch, and no error boundary appears in the app's sources. As written, React most likely unmounts the screen when it opens, so the analytics the model proves are most likely never shown. The model describes the screen with that call removed.
- Settings.UpdatePreferences: models the code with the activity log call succeeding. The as-written member records what the missing function does.
- RecentActivity.RecentActivitiesSpec: a failed read is modelled as an empty list, as on first load. The code keeps whatever was shown before.
- RecentActivity.RecentActivitiesSpec: the fetch is skipped for an empty user id (`src/components/RecentActivity.tsx:53`); this is not modelled.
- RecentActivity.RecentActivitiesSpec: rows with equal timestamps keep table order. PostgreSQL leaves their order unspecified.
- EmotionLogger.RecentLogsSpec: rows with equal timestamps keep table order. PostgreSQL leaves their order unspecified.
- The progress screen's mount effect (`src/pages/Progress.tsx:27-32`). `useActivityTracker()` is called without a user id, so the `progress_view` row is inserted with no `user_id`. The effect depends on `logActivity`, a new function on every render, so it fetches the stats and inserts that row again after every state update. The model computes one load (`Progress.LoadProgress`) and leaves the repeats and the insert out.
- The router link's own highlighting in the sidebar (`src/components/AppSidebar.tsx:132-140`). `NavLink` marks an entry active for sub-paths too (`/dashboard/x`), and the `isActive` helper at line 72 is never called. Only that helper is modelled.
- Progress.CalculateStreak: the walk steps one local calendar day back with `setDate`. The model steps 24 hours and uses the fixed-offset day number, which is the same without daylight saving.

## Findings

| source | as written | input that shows it | evidently intended | confidence | as-written member | corrected member |
|---|---|---|---|---|---|---|
| src/pages/Settings.tsx:41 | the screen destructures `trackActivity` from `useActivityTracker()`, which returns only `logActivity` (src/components/ActivityTracker.tsx:26). The `await trackActivity(...)` after a successful save (lines 91 and 120) therefore throws, and the catch shows the error toast. The mount effect calls `trackActivity(...)` directly at line 45, outside any try/catch, so there the TypeError escapes the effect. No error boundary appears in the app's sources, so React most likely unmounts the tree as soon as the screen opens. | a loaded profile and a preference or profile save that the store accepts, reachable only when something above the screen catches the mount error; otherwise the screen fails on opening, before any save | a successful save logs the activity and shows "Settings Updated" / "Profile Updated" | high, not executed | Settings.UpdatePreferencesAsWritten, Settings.SavedPreferencesReportedAsFailure, Settings.UpdateProfileAsWritten, Settings.SavedProfileReportedAsFailure | Settings.UpdatePreferences, Settings.UpdateProfile |
