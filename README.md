# JEE mistake tracker: a verified model of its page logic

The application is a React single-page app backed by Supabase. Students log the
mistakes they make in JEE practice, with a subject, a chapter, a mistake type,
a difficulty and notes. The app then shows:

- a dashboard with the current daily streak, the most repeated mistake type and
  this week's count;
- analytics, with per-subject and per-type counts, a zero-filled 30-day series
  and the five weakest chapters;
- a study planner with today's tasks, a backlog, three suggested chapters and a
  completion percentage;
- a paged and filtered history;
- a revision queue of unreviewed mistakes;
- a 7-day free trial with an upgrade flow paid by UPI reference (UTR).

This project lifts the logic out of those pages and models it in Dafny:

- Query results are in-memory sequences of rows (`Mistakes.Mistake`,
  `StudyPlanner.StudyTask`, `Profiles.Profile`).
- Timestamps are integer milliseconds. Calendar days are integer day numbers,
  `(ms + offset) / 86400000`.
- Every database write is a sequence update, and its success or failure is a
  parameter, including the sign-up profile insert whose result the page
  ignores.

Each module follows one source file:

- **Mostly pure files** become datatypes, functions and lemmas: `Constants`,
  `TrialBanner`, `Settings` and `AppLayout`.
- **Imperative files** become methods and classes. `Dashboard` and
  `Analytics` have loop methods with invariants. `History`, `LogMistake`,
  `Revision`, `PaymentPage`, `UpgradeModal`, `Signup`, `ResetPassword` and
  `StudyPlanner` have classes whose fields are the component state. Their
  methods are the event handlers, each with a field-level `modifies` frame.
- **Shared modules** hold the JavaScript building blocks the pages use:
  - `Seqs`: `filter` and `[...new Set(xs)]`.
  - `Text`: `trim`, `toLowerCase`, `toUpperCase`, `includes` and `split`/`join`.
  - `Counting`: the `Record<string, number>` tallies built with `forEach`, kept
    in insertion order.
  - `Ranking`: the stable `Array.prototype.sort` with a count comparator, and
    `slice`.
  - `Mistakes`: the row type and the day, review and ranking functions shared by
    several pages.

Where the design description and the code disagree, the model follows the code:

- **Day bucketing.** The dashboard buckets days in local time (`toDateString`),
  but analytics buckets them in UTC (`toISOString`). `Dashboard` therefore takes
  a time-zone offset, while `Analytics` uses offset 0.
- **No-type sentinel.** With no mistakes, the top mistake type is `—`, not
  "none".
- **Ties.** Ties in rankings are not arbitrary. The sort is stable, so tied
  entries keep the order in which they were first seen
  (`Mistakes.RankChaptersTies`, `Ranking.SortStable`).
- **Streak growth.** Logging the missing day just before a streak does not
  always raise it by exactly one. It always raises it, and by exactly one when
  the day before the new day has no activity (`Dashboard.StreakFillsGap`). Any
  older day leaves the streak as it is (`Dashboard.StreakKeepsOlderDay`). The
  new day can join the streak to an older run of days, as
  `Dashboard.FillingGapJoinsRuns` shows.
- **Weekly goals.** Goal progress is described but no code implements it, so it
  is not modelled.

## Model

| member | source | states |
|---|---|---|
| Dashboard.CurrentStreak | src/pages/Dashboard.tsx:47-62 | The streak loop over the newest-first days returns `StreakOf(Distinct(days), today)`: 0 unless the newest distinct day is today or yesterday, otherwise one plus the run of neighbouring days exactly one apart |
| Dashboard.RunLengthMeaning | src/pages/Dashboard.tsx:55-61 | The run counted is the longest prefix of pairs one day apart: every pair before it is one apart, and the next pair, if any, is not |
| Dashboard.StreakBounded | src/pages/Dashboard.tsx:47-61 | The streak never exceeds the number of distinct activity days |
| Dashboard.StreakZero | src/pages/Dashboard.tsx:47-53 | The streak is 0 exactly when there are no days, or the newest day is neither today nor yesterday |
| Dashboard.StreakMeaning | src/pages/Dashboard.tsx:47-61 | For days listed newest first, a non-zero streak `s` means each of the `s` days ending at the newest day has activity, and the day before them has none |
| Dashboard.FillingGapJoinsRuns | src/pages/Dashboard.tsx:54-61 | Adding the day just before a one-day streak can lengthen it to four days, because the new day joins it to an older run |
| Dashboard.StreakFillsGap | src/pages/Dashboard.tsx:47-61 | For days listed newest first with a non-zero streak `s`, adding the day just before the oldest streak day makes the streak longer than `s`, and exactly `s + 1` when the day before the added one has no activity |
| Dashboard.StreakKeepsOlderDay | src/pages/Dashboard.tsx:47-61 | For days listed newest first with a non-zero streak, adding a day two or more days before the oldest streak day leaves the streak unchanged |
| Dashboard.StreakStillLive | src/pages/Dashboard.tsx:47-53 | Adding a day no later than the newest one keeps the newest day first, so a non-zero streak stays non-zero |
| Dashboard.NewestFirstDays | src/pages/Dashboard.tsx:41-49 | Rows ordered newest first give non-increasing days, and their de-duplicated days are strictly decreasing |
| Dashboard.TopType | src/pages/Dashboard.tsx:71-76 | The tally-and-sort loop returns `MostRepeated(types)` |
| Dashboard.MostRepeatedMeaning | src/pages/Dashboard.tsx:71-75 | With no mistakes the top type is `—`; otherwise it occurs in the input, no type occurs more often, and every type first seen before it occurs strictly less often |
| Dashboard.MostRepeatedIsMax | src/pages/Dashboard.tsx:73-75 | No mistake type occurs more often than the top type |
| Dashboard.ThisWeekAtMostTotal | src/pages/Dashboard.tsx:26-38 | The number of rows created in the last seven days is at most the total, and equals it when every row is that recent |
| Dashboard.FetchStats | src/pages/Dashboard.tsx:24-78 | The stats hold the row count, the last-seven-days count, the streak over the local days of the rows newest first, and the most repeated type |
| Analytics.Analyze | src/pages/Analytics.tsx:25-62 | The analytics pass returns `ReportOf(rows, now)`: subject and type tallies, the 30-day series ending on today's UTC day, and the weak areas |
| Analytics.Tallies | src/pages/Analytics.tsx:26-42 | The single `forEach` pass builds the subject and type tallies in first-seen order, a day map holding each UTC day's row count, and the chapter tally of unreviewed rows |
| Analytics.LastDays | src/pages/Analytics.tsx:47-54 | The 30-day loop over the day map yields the same series as `DailySeries`, with absent days read as 0 |
| Analytics.CountsMeaning | src/pages/Analytics.tsx:31-45 | Each subject or type appears once, with its number of occurrences. Only subjects and types that occur appear, and the counts sum to the number of rows |
| Analytics.DailySeriesShape | src/pages/Analytics.tsx:48-54 | The series has 30 entries for consecutive days, oldest first, with the last entry on today. Each entry counts the rows of that day |
| Analytics.DailySeriesTotal | src/pages/Analytics.tsx:35-53 | The counts in the series sum to at most the number of rows |
| Analytics.WeakAreasMeaning | src/pages/Analytics.tsx:38-61 | The weak areas are a ranking of the unreviewed rows limited to 5 (see `Mistakes.RankChaptersMeaning`) |
| Analytics.WeakAreasIgnoreReviewed | src/pages/Analytics.tsx:38-41 | Adding a reviewed row leaves the weak areas unchanged |
| Analytics.WeakAreasAfterReview | src/pages/Analytics.tsx:38-41 | After a mistake is marked reviewed, the weak areas are the ranking of the other unreviewed rows |
| Mistakes.RankChaptersMeaning | src/pages/Analytics.tsx:57-61 | A chapter ranking holds at most `limit` distinct chapters, largest count first. Each count is that chapter's number of rows, and each subject is that of the chapter's first row. A chapter left out has no more rows than any kept, and a short ranking lists every chapter |
| Mistakes.RankChaptersTies | src/pages/Analytics.tsx:57-61 | Chapters of equal count appear in the order of their first row |
| Mistakes.RankChaptersTotal | src/pages/StudyPlanner.tsx:59-68 | The counts in a ranking sum to at most the number of rows |
| Mistakes.DayBefore | src/pages/Dashboard.tsx:51 | One day earlier in milliseconds is exactly the previous day number |
| Mistakes.DaysBefore | src/pages/Analytics.tsx:49-52 | `n` days earlier in milliseconds is exactly `n` day numbers earlier |
| Mistakes.DayOfMonotone | src/pages/Dashboard.tsx:45-49 | A later timestamp never falls on an earlier day |
| Mistakes.MarkReviewedUnreviewed | src/pages/RevisionPage.tsx:41-52 | After marking an id reviewed, the unreviewed rows are the previous unreviewed rows without that id, in the same order |
| Mistakes.MarkReviewedWellFormed | src/pages/HistoryPage.tsx:53 | Marking a row reviewed at a time no earlier than its creation keeps every row well formed: a review time is present exactly when the row is reviewed, and it is not before the creation time |
| StudyPlanner.TaskListsMeaning | src/pages/StudyPlanner.tsx:45-47 | Today's tasks are exactly the stored tasks dated today. The backlog is exactly the tasks dated earlier and not done. The two lists are disjoint, and future or completed past tasks are in neither |
| StudyPlanner.SuggestChapters | src/pages/StudyPlanner.tsx:58-69 | The tally, sort and slice return `Suggestions(mistakes)` |
| StudyPlanner.SuggestionsMeaning | src/pages/StudyPlanner.tsx:59-68 | The suggestions are a ranking of all mistakes, reviewed ones included, limited to 3. Their counts sum to at most the number of mistakes |
| StudyPlanner.SuggestionsAreTopWeakAreas | src/pages/StudyPlanner.tsx:59-68 | When no mistake is reviewed, the suggestions are the first three weak areas |
| StudyPlanner.Progress | src/pages/StudyPlanner.tsx:105-106 | Progress is 0 with no tasks; otherwise it is `100·done/total` rounded half up |
| StudyPlanner.ProgressAtMost100 | src/pages/StudyPlanner.tsx:105-106 | Progress never exceeds 100 |
| StudyPlanner.ProgressNoneDone | src/pages/StudyPlanner.tsx:105-106 | With no task done, progress is 0 |
| StudyPlanner.ProgressAllDone | src/pages/StudyPlanner.tsx:105-106 | With tasks present and all of them done, progress is 100 |
| StudyPlanner.SetDoneMeaning | src/pages/StudyPlanner.tsx:95-96 | Setting the done flag of an id changes that flag on the rows with that id and nothing else |
| StudyPlanner.ToggleTwice | src/pages/StudyPlanner.tsx:95-96 | Toggling a task twice restores the store |
| StudyPlanner.AddedTaskIsToday | src/pages/StudyPlanner.tsx:81-91 | A task added for today is appended to today's list and leaves the backlog unchanged |
| StudyPlanner.DeletedTaskGone | src/pages/StudyPlanner.tsx:100-103 | After a delete no task with that id is listed for today, and today's list is the old one without that id |
| StudyPlanner.Planner.constructor | src/pages/StudyPlanner.tsx:28-35 | The planner starts with empty lists, the first subject, an empty topic and the default duration |
| StudyPlanner.Planner.FetchTasks | src/pages/StudyPlanner.tsx:37-49 | When signed in, the lists become today's tasks and the backlog of the store. Signed out, nothing changes |
| StudyPlanner.Planner.FetchSuggested | src/pages/StudyPlanner.tsx:51-71 | When signed in, the suggestions become `Suggestions(mistakes)` |
| StudyPlanner.Planner.AddTask | src/pages/StudyPlanner.tsx:78-93 | With a blank topic or no user nothing changes. Otherwise an accepted insert stores a task for today with the trimmed topic, clears the topic and refetches the lists |
| StudyPlanner.Planner.ToggleDone | src/pages/StudyPlanner.tsx:95-98 | An accepted update negates the task's done flag in the store, and the lists are refetched |
| StudyPlanner.Planner.DeleteTask | src/pages/StudyPlanner.tsx:100-103 | An accepted delete removes the tasks with that id from the store, and the lists are refetched |
| Constants.SubjectClass | src/lib/constants.ts:1-8 | Each of Physics, Chemistry and Mathematics maps to `subject-` plus its lower-cased name. Any other string maps to the default class |
| Constants.SubjectClassesDistinct | src/lib/constants.ts:2-7 | The three subject classes are pairwise distinct and differ from the default |
| Constants.ChaptersCoverSubjects | src/lib/constants.ts:10-16 | The chapter table has a key for each subject and no other key |
| Constants.TablesDistinct | src/lib/constants.ts:18-27 | There are 6 distinct mistake types and 3 distinct difficulties |
| Constants.ChapterInTwoSubjects | src/lib/constants.ts:13-14 | Thermodynamics is a chapter of both Physics and Chemistry |
| TrialBanner.DaysLeftFacts | src/components/TrialBanner.tsx:11-14 | Days left is never negative. It is 7 in the first 24 hours and 0 once seven full days have passed, and it never increases as time advances |
| TrialBanner.BannerMeaning | src/components/TrialBanner.tsx:9-35 | There is no banner without a profile or on the premium plan. An expired plan gets an open dialog with no close button. Any other plan gets the countdown, with a closable dialog that opens on request |
| TrialBanner.DayWord | src/components/TrialBanner.tsx:27 | The word is "day" exactly when one day is left, and "days" otherwise |
| Settings.TrialDaysLeftAgrees | src/pages/SettingsPage.tsx:42-44 | Days left is 0 without a trial start; otherwise it equals the banner's count. It is never negative |
| Settings.PanelConsistent | src/pages/SettingsPage.tsx:75-91 | The success badge goes with exactly the "Premium" label. The upgrade button shows exactly when the badge is not success. The days-left text shows exactly with the "Free Trial" label. An unknown plan reads "Expired" with the primary badge |
| History.BuildQuery | src/pages/HistoryPage.tsx:32-43 | The conditions added one by one select exactly the rows that match the subject, type, status and search filters |
| History.RangeFacts | src/pages/HistoryPage.tsx:37 | Page `p` asks for rows `20p` through `20p+19`, and consecutive pages' ranges meet without overlap |
| History.PageMeaning | src/pages/HistoryPage.tsx:32-47 | A page is the slice of the filtered, newest-first rows starting at `20p`. It holds 20 rows, or all the rows that remain |
| History.PageMatches | src/pages/HistoryPage.tsx:36-43 | Every row on a page matches the filters, and the rows are newest first |
| History.StatusFilter | src/pages/HistoryPage.tsx:41-42 | The status `reviewed` or `unreviewed` keeps only rows with that review state, and an empty status keeps all rows |
| History.TotalPagesFacts | src/pages/HistoryPage.tsx:57 | The page count is 0 with no rows; otherwise it is the ceiling of rows/20 |
| History.PagerMeaning | src/pages/HistoryPage.tsx:132 | The pager shows exactly when there are more than 20 rows, that is more than one page |
| History.Preview | src/pages/HistoryPage.tsx:115-116 | The notes preview is a prefix of at most 100 characters, and it is all of the notes when they are shorter |
| History.HistoryView.constructor | src/pages/HistoryPage.tsx:21-28 | The view starts on page 0 with no rows and empty filters |
| History.HistoryView.Fetch | src/pages/HistoryPage.tsx:30-48 | When signed in, the rows become the current page of the filtered store, and the total becomes the number of matching rows. A search containing a comma or a parenthesis breaks the `or` filter, so the request is refused and the page is empty with a total of 0 |
| History.HistoryView.SetSearch | src/pages/HistoryPage.tsx:70 | Changing the search text resets the page to 0 |
| History.HistoryView.SetSubject | src/pages/HistoryPage.tsx:74 | Changing the subject filter resets the page to 0 |
| History.HistoryView.SetType | src/pages/HistoryPage.tsx:79 | Changing the type filter resets the page to 0 |
| History.HistoryView.SetStatus | src/pages/HistoryPage.tsx:84 | Changing the status filter resets the page to 0 |
| History.HistoryView.GoToPage | src/pages/HistoryPage.tsx:135 | The pager sets the page and nothing else |
| History.HistoryView.MarkReviewed | src/pages/HistoryPage.tsx:52-55 | The row is marked reviewed in the store, and the page and total are refetched, empty with a total of 0 when the search breaks the query |
| LogMistake.SuggestionsMeaning | src/pages/LogMistake.tsx:21-25 | A chapter is suggested exactly when it belongs to the selected subject and its lower-cased name contains the lower-cased query. There are no suggestions when no subject is selected or it has no table entry |
| LogMistake.SuggestionInSubject | src/pages/LogMistake.tsx:21-24 | Every suggestion is a chapter of the selected subject |
| LogMistake.EmptyQueryOffersAll | src/pages/LogMistake.tsx:22-23 | An empty query offers every chapter of the subject |
| LogMistake.NotesValue | src/pages/LogMistake.tsx:38 | Empty notes are stored as null, and any other notes as given |
| LogMistake.LogForm.constructor | src/pages/LogMistake.tsx:11-19 | The form starts with every field empty and nothing saved |
| LogMistake.LogForm.SelectSubject | src/pages/LogMistake.tsx:85 | Choosing a subject clears the chapter and the chapter query |
| LogMistake.LogForm.TypeChapter | src/pages/LogMistake.tsx:95-96 | Typing sets the query, clears the chosen chapter and opens the suggestions. The field shows the typed text |
| LogMistake.LogForm.Focus | src/pages/LogMistake.tsx:97 | Focusing the chapter field opens the suggestions |
| LogMistake.LogForm.Blur | src/pages/LogMistake.tsx:98 | Leaving the chapter field closes the suggestions |
| LogMistake.LogForm.PickSuggestion | src/pages/LogMistake.tsx:103-106 | Picking a suggestion sets the chapter, clears the query and closes the list. The field shows the chapter |
| LogMistake.LogForm.SetChapter | src/pages/LogMistake.tsx:106 | Setting a chapter of the subject clears the query and closes the list |
| LogMistake.LogForm.SelectType | src/pages/LogMistake.tsx:117 | Choosing a mistake type sets it and keeps the form valid |
| LogMistake.LogForm.SelectDifficulty | src/pages/LogMistake.tsx:126 | Choosing a difficulty sets it and keeps the form valid |
| LogMistake.LogForm.EditNotes | src/pages/LogMistake.tsx:135 | Editing sets the notes |
| LogMistake.LogForm.Save | src/pages/LogMistake.tsx:27-46 | Save does nothing unless subject, chapter, type and difficulty are all set. Otherwise an accepted insert appends the row and marks the form saved, and saving ends either way |
| LogMistake.LogForm.ResetForm | src/pages/LogMistake.tsx:48-56 | Reset empties every field and clears the saved flag |
| Revision.RevisionListMeaning | src/pages/RevisionPage.tsx:26-33 | The queue holds exactly the unreviewed rows, oldest first |
| Revision.RemoveAgreesWithRefetch | src/pages/RevisionPage.tsx:41-52 | Removing an id from the queue gives the same list as refetching after marking it reviewed |
| Revision.RemoveIdMeaning | src/pages/RevisionPage.tsx:52 | Removing an id leaves no row with that id and keeps every other row. The list shrinks by the number of rows with that id |
| Revision.RemoveIdCount | src/pages/RevisionPage.tsx:52 | Removing an id shortens the list by the number of rows with that id |
| Revision.PendingNoun | src/pages/RevisionPage.tsx:62 | The noun is singular exactly when one mistake is pending |
| Revision.RevisionView.constructor | src/pages/RevisionPage.tsx:20-21 | The view starts loading with an empty list |
| Revision.RevisionView.Fetch | src/pages/RevisionPage.tsx:23-35 | When signed in, the list becomes the queue of the store, and loading ends |
| Revision.RevisionView.MarkAsRevised | src/pages/RevisionPage.tsx:41-54 | A failed update changes nothing. A successful one marks the row reviewed in the store and removes its id from the list, so the list stays equal to a refetch |
| PaymentPage.PricesDisagree | src/pages/PaymentPage.tsx:14 | The page charges 49 more for monthly and 349 more for yearly than the upgrade dialog |
| PaymentPage.Page.constructor | src/pages/PaymentPage.tsx:8-12 | The page starts at the plan step with the yearly plan, an empty reference and no requests |
| PaymentPage.Page.SelectPlan | src/pages/PaymentPage.tsx:63 | Choosing a plan sets it |
| PaymentPage.Page.Proceed | src/pages/PaymentPage.tsx:82 | Proceed moves to the payment step |
| PaymentPage.Page.Back | src/pages/PaymentPage.tsx:129 | Back returns to the plan step |
| PaymentPage.Page.EnterUtr | src/pages/PaymentPage.tsx:118 | Typing sets the reference |
| PaymentPage.Page.Submit | src/pages/PaymentPage.tsx:22-40 | A blank reference or no user does nothing. A failed insert stays on the step with submitting off. A successful one records a pending request and moves to success. The request holds the trimmed reference, the plan, its amount and the contact email |
| Billing.ContactEmail | src/pages/PaymentPage.tsx:27 | The request carries the profile email when it is present and not empty, and the account email otherwise |
| Billing.SaveBadgeMatchesBothPrices | src/pages/PaymentPage.tsx:70-73 | The "Save 41%" badge is the floored saving for both price pairs |
| UpgradeModal.Modal.constructor | src/components/UpgradeModal.tsx:12-18 | The dialog starts at the plan step with the yearly plan, an empty reference, no requests and no close calls |
| UpgradeModal.Modal.SelectPlan | src/components/UpgradeModal.tsx:64 | Choosing a plan sets it |
| UpgradeModal.Modal.Proceed | src/components/UpgradeModal.tsx:83 | Proceed moves to the payment step |
| UpgradeModal.Modal.EnterUtr | src/components/UpgradeModal.tsx:119 | Typing sets the reference |
| UpgradeModal.Modal.Submit | src/components/UpgradeModal.tsx:30-43 | A blank reference or no user does nothing. Otherwise the dialog always ends on success, whatever the insert result, and only an accepted insert records a pending request |
| UpgradeModal.Modal.Close | src/components/UpgradeModal.tsx:48-49 | The close button, present only when the dialog is dismissable and has a close handler, calls the handler once |
| UpgradeModal.Modal.BackToDashboard | src/components/UpgradeModal.tsx:152-155 | Back to dashboard returns to the plan step and clears the reference. It keeps the plan, and calls the close handler when there is one |
| Passwords.CheckPasswords | src/pages/Signup.tsx:17-24 | The passwords are accepted exactly when they match and have at least 6 characters. A mismatch is reported before the length, whatever the length |
| Signup.CheckMessage | src/pages/Signup.tsx:17-24 | There is no message exactly when the passwords are accepted. Each failure has its own message |
| Signup.TrialProfile | src/pages/Signup.tsx:40-46 | A new profile is on the trial plan, starting now, with the given name and email |
| Signup.SignupForm.constructor | src/pages/Signup.tsx:7-12 | The form starts empty, with no error and no requests |
| Signup.SignupForm.Edit | src/pages/Signup.tsx:63-78 | Editing sets the four fields |
| Signup.SignupForm.Submit | src/pages/Signup.tsx:14-79 | With a required field empty the browser blocks the submit and nothing changes. A failed check shows its message and sends nothing. Otherwise sign-up is requested: on failure its message is shown. On success with a user id a trial profile is stored if the insert is accepted, and the page navigates either way |
| ResetPassword.RecoveryLinkMeaning | src/pages/ResetPassword.tsx:13-18 | A link is a recovery link exactly when its hash contains `type=recovery` |
| ResetPassword.ResetForm.constructor | src/pages/ResetPassword.tsx:7-11 | The form starts invalid and empty |
| ResetPassword.ResetForm.CheckLink | src/pages/ResetPassword.tsx:13-18 | Checking the link makes the form valid when the hash is a recovery link |
| ResetPassword.ResetForm.ScreenShown | src/pages/ResetPassword.tsx:32-38 | The form is shown exactly when the link is valid; otherwise only the invalid-link message is |
| ResetPassword.ResetForm.Edit | src/pages/ResetPassword.tsx:51-56 | Editing sets both password fields |
| ResetPassword.ResetForm.Submit | src/pages/ResetPassword.tsx:20-56 | With a required field empty the browser blocks the submit and nothing changes. A mismatch, then a short password, is reported without an update. Otherwise the update is requested; on failure its message is shown, and on success the page navigates |
| AppLayout.NavRoutes | src/components/AppLayout.tsx:6-12 | The navigation has five distinct routes, none of them `/revision` |
| AppLayout.ActiveAtMostOne | src/components/AppLayout.tsx:74-75 | At most one navigation item is active, and none is when the path is not a route |
| AppLayout.MobileLabelMeaning | src/components/AppLayout.tsx:85 | The mobile label starts the full label, has no space, and is either all of it or stops at a space |
| AppLayout.FirstLetters | src/components/AppLayout.tsx:19 | The letters are the first characters of the non-empty pieces, in order |
| AppLayout.InitialsMeaning | src/components/AppLayout.tsx:18-20 | With no name or an empty name the initials are `??`. Otherwise they are the upper-cased first letters of the first two words. They are never longer than 2 and contain no lower-case letter |
| AppLayout.BlankNameHasNoInitials | src/components/AppLayout.tsx:18-20 | A name of only spaces has no words, so its initials are empty rather than `??` |
| Seqs.DistinctMeaning | src/pages/Dashboard.tsx:49 | De-duplication keeps only input values, keeps every one of them, and repeats none |
| Seqs.DistinctOfNonIncreasing | src/pages/Dashboard.tsx:45-49 | De-duplicating non-increasing days gives strictly decreasing days |
| Text.TrimMeaning | src/pages/PaymentPage.tsx:23 | Trimming gives a contiguous slice of the input. Only whitespace is removed around it, and the result neither starts nor ends with whitespace |
| Text.TrimEmptyIffBlank | src/pages/StudyPlanner.tsx:79 | The trimmed text is empty exactly when the input is all whitespace |
| Text.TrimIdempotent | src/pages/PaymentPage.tsx:28 | Trimming twice is trimming once |
| Text.ContainsMeaning | src/pages/LogMistake.tsx:23 | `includes` holds exactly when the text occurs at some position |
| Text.SplitFirst | src/components/AppLayout.tsx:85 | The first piece of a split starts the text, has no separator, and ends at the end of the text or at a separator |
| Text.JoinSplit | src/components/AppLayout.tsx:85 | Joining the pieces of a split with the same separator restores the text |
| Counting.TallyCounts | src/pages/Dashboard.tsx:73-74 | The tally lists each distinct key once, in first-seen order, with its number of occurrences |
| Counting.TallyTotal | src/pages/Analytics.tsx:31-33 | The tally's counts sum to the number of keys |
| Counting.TallyPositive | src/pages/Analytics.tsx:44 | Every tally entry counts at least one occurrence |
| Counting.ChapterTallyProjects | src/pages/Analytics.tsx:38-41 | Without the subjects, the chapter tally is the tally of the chapter names |
| Counting.ChapterTallySubjects | src/pages/Analytics.tsx:39 | Each chapter keeps the subject of its first occurrence |
| Ranking.SortDescSorted | src/pages/Analytics.tsx:60 | The count sort gives a non-increasing permutation of its input |
| Ranking.SortStable | src/pages/Dashboard.tsx:75 | Entries of equal count keep their relative order through the sort |
| Ranking.SortCommutesWithFilter | src/pages/RevisionPage.tsx:52 | Filtering then sorting gives the same list as sorting then filtering |
| Ranking.TakeStable | src/pages/Analytics.tsx:57-61 | Among the entries kept by sort-and-slice, those of one count are a prefix of that count's entries in input order |

## Left out

- Supabase: the network, authentication and the row-level security. Each query
  result is a sequence given to the model. Each write is a sequence update,
  and its outcome is a parameter: `accepted`, the sign-up outcome, or the
  update failure.
- History's search uses PostgREST `ilike` on the notes and the chapter. It is
  modelled as a case-insensitive substring test, without `%`/`_` wildcards or
  escapes. A search holding `,`, `(` or `)` is spliced into the `or` filter
  unescaped and breaks it; the model treats that request as refused
  (`History.BreaksQuery`) rather than modelling PostgREST's parser.
- Browser form validation is modelled only as the `required` attribute, which
  blocks a submit with an empty field. The `type="email"` format check is not
  modelled.
- JavaScript dates: parsing, formatting, time zones and daylight saving.
  - Days are integer day numbers, and "seven days ago" (`setDate(-7)`) is
    `now − 7·86400000`.
  - Chart labels (`slice(5)` of the ISO date) are not modelled.
- Floating point. The streak's `Math.abs(diff - 1) < 0.5` becomes an exact
  integer day difference. `Math.round(100·done/total)` becomes integer
  round-half-up.
- Case conversion covers ASCII letters only, and whitespace covers the common
  JavaScript space characters.
- String lengths count characters, not UTF-16 code units. This affects the
  password length, `slice(0, 100)` and the first letter of a word.
- React:
  - asynchronous ordering, hooks and rendering;
  - `useEffect` refetch triggers. In `History.HistoryView` the filter setters
    only set state, and `Fetch` is the separate refetch;
  - `setTimeout`, which delays the suggestion list closing on blur and resets
    the "saved" flag;
  - the clipboard and its "copied" flag, `alert`, toasts, charts and icons.
  - Navigation is only a flag.
- The dashboard's list of the five most recent mistakes is rendering of a query
  result. It is not modelled.
- Pages that only route, show static text or make a single auth call: the
  route table, the landing, privacy and terms pages, login and forgot-password.
  Their prices (50/350 on the landing page) appear only as the upgrade dialog's
  prices.
- Settings' account deletion, name saving and password-reset email, which are
  I/O only.
- Weekly goal progress, which has no code.
- TrialBanner.BannerOf: a profile without a trial start counts from the epoch,
  as `new Date(null)` does. An unparsable date (NaN days) is not modelled.
- Mistakes.NewestFirst: rows with equal `created_at` are taken in store order,
  since the sort is stable. Postgres does not promise any order among them, so
  `Revision.RemoveAgreesWithRefetch`, `Revision.RevisionView.MarkAsRevised` and
  History's pages (`History.PageOf`) hold only for that tie order.
- StudyPlanner.Planner.FetchTasks: the store is taken to be in the order the
  query returns, `created_at` ascending.
- History.HistoryView.MarkReviewed: the update is taken to succeed, because the
  page ignores its error.
- ResetPassword.ResetForm.Submit requires a valid link, because the form is
  rendered only then. The error is not cleared before the checks, so a message
  from an earlier attempt stays after a successful update.
- LogMistake.LogForm: the chapter table is a constant field rather than a
  module-level import.
