# Dayone habit-challenge tracker — Dafny model

Dayone is a personal accountability tracker. A user declares a fixed-length
challenge (30, 55, 66 or 90 days) made of an ordered list of daily habits, a
start date, a trigger time, a written declaration and optional presolutions
(obstacle → backup plan). Each calendar day the user ticks the habits and
submits a check-in. Progress, days left and completion are derived from the
check-in history. A budget of three emergencies lets the user survive a
missed day.

This project models the client-side core of that system:

* the check-in ledger (`src/lib/api/checkins.ts`). It covers the local `YYYY-MM-DD` day
  key, the upsert keyed by challenge and day, the reads of today's row and of
  the whole history, and how the emergency procedure's reply is interpreted.
* the challenge lifecycle (`src/lib/api/challenges.ts`). It covers creation with its computed
  end date, the best-effort presolution insert, and the active-challenge query.
* the dashboard (`src/pages/Dashboard.tsx`). It covers the state held for the active challenge,
  loading, ticking habits, submitting the day and spending an emergency, plus
  the pure calculators for days elapsed, progress, days left and completion.
* the four-step creation form (`src/pages/CreateChallenge.tsx`). It covers the habit
  and presolution editors, step navigation and what the submission drops.
* the sign-up form's validation and error handling (`src/pages/Signup.tsx`).
* the quote of the day (`src/lib/api/quotes.ts`).

The data store is a `Database` object holding the three tables as sequences,
plus the next generated id. Its invariant is the unique constraint on
`(challenge_id, check_in_date)`, which every write is proved to preserve.
The following become parameters of the operations that use them:

* the session;
* the clock (today's local date, or milliseconds since the epoch);
* the store's reports (insert failed, no row returned, presolution insert failed, upsert error);
* the emergency procedure's reply;
* the sign-up call's thrown message.

Modules: `Support` (Option, Result, errors), `Seqs` (JavaScript `filter`),
`Sorting` (the store's `order`), `Text` (whitespace, `trim`, `padStart`,
decimal digits, string order), `Dates` (calendar arithmetic and the day key),
`Entities`, `Store`, `Checkins`, `Challenges`, `Progress`, `Dashboard`,
`ChallengeForm`, `Signup`, `Quotes`.

Where the code does less than its names suggest, the model follows the code:

* `is_complete` compares the number of ticked habits with the number of
  habits. It does not check that the ticked names are habits of the challenge
  (`Checkins.CompleteMeansAllChecked` gives the conditions under which the
  two agree, and `Checkins.RepeatedNameCompletes` shows a count that matches
  with a habit unticked).
* `createChallenge` does not validate the habit list or the duration. The form
  drops blank habits but still submits an empty list when every habit is
  blank. The duration is confined to the four options only by the form's type.
* `updateCheckIn` does not reject an empty tick list.
* The emergency budget is enforced on the client only by disabling the button
  at three uses. The procedure itself is not part of this model.

## Model

| member | source | states |
|---|---|---|
| Dates.DateKeyShape | src/lib/api/checkins.ts:56 | the day key is ten characters, `YYYY-MM-DD`, with dashes at 4 and 7, a two-digit month in 01..12 and a two-digit day |
| Dates.DateKeyRoundTrip | src/lib/api/checkins.ts:21 | parsing the key of a date with a four-digit year gives the date back |
| Dates.ParseDateKeyRoundTrip | src/lib/api/checkins.ts:56 | every key that parses to a four-digit year is exactly the key printed for that date |
| Dates.DateKeyOrder | src/lib/api/checkins.ts:40 | comparing day keys as strings orders them like the calendar days, and equal keys are equal dates |
| Dates.AddDaysIndex | src/lib/api/challenges.ts:46-48 | moving a date n days on (`setDate(getDate() + n)`) lands n days later in the day count |
| Text.PadStart | src/lib/api/checkins.ts:21 | `padStart` keeps the string as the suffix behind as many pad characters as reach the width, and leaves a string already that wide unchanged |
| Text.TrimEmptyIffBlank | src/pages/Dashboard.tsx:104 | `trim()` is empty exactly when every character is JavaScript whitespace |
| Sorting.SortBySortsAndPermutes | src/lib/api/checkins.ts:40 | ordering by a total preorder yields a sorted permutation of the rows |
| Checkins.CompleteMeansAllChecked | src/lib/api/checkins.ts:57 | with no repeated names and only known habits ticked, the length test holds iff every habit is ticked |
| Checkins.RepeatedNameCompletes | src/lib/api/checkins.ts:57 | a repeated tick can satisfy the length test while a habit is unticked |
| Checkins.Lookup | src/lib/api/checkins.ts:23-31 | the row found has the requested challenge and day; none is found iff no row has that key |
| Checkins.LookupUnique | src/lib/api/checkins.ts:23-28 | under the unique constraint any row with the key is the one returned by `maybeSingle` |
| Checkins.UpsertWritesKey | src/lib/api/checkins.ts:69-75 | after the upsert the key holds the merged old row, or a new row when the key was absent; the table grows by one iff the key was new |
| Checkins.UpsertLeavesOtherKeys | src/lib/api/checkins.ts:69-73 | every other day and challenge reads as before |
| Checkins.UpsertKeepsKeysUnique | src/lib/api/checkins.ts:71-73 | the unique constraint on (challenge_id, check_in_date) is preserved |
| Checkins.UpsertIdempotent | src/lib/api/checkins.ts:69-75 | repeating the same write changes nothing more |
| Checkins.UpdateCheckIn | src/lib/api/checkins.ts:47-79 | without a session or on a store error nothing changes; otherwise today's row is upserted with `is_complete` from the length test and `is_emergency` false, and the stored row is returned |
| Checkins.ChallengeCheckInsSpec | src/lib/api/checkins.ts:35-43 | the history is exactly the challenge's rows, as a permutation, ordered by day key |
| Checkins.OfChallengeDistinctDates | src/lib/api/checkins.ts:35-39 | a challenge's rows have pairwise distinct days |
| Checkins.ChallengeCheckInsChronological | src/lib/api/checkins.ts:40 | the history is strictly increasing in calendar day |
| Checkins.UseEmergencyProtocol | src/lib/api/checkins.ts:82-115 | no session is an error; a transport error is a failure carrying the transport's message unchanged; a refused payload is a failure with its own error, or "Emergency protocol failed" when that is missing or empty; success copies the remaining count and message |
| Challenges.EndDateKey | src/lib/api/challenges.ts:45-55 | the end date fails exactly when the start date does not parse |
| Challenges.EndDateIsDurationLater | src/lib/api/challenges.ts:45-55 | in calendar arithmetic, the end date is exactly `duration` days after the start |
| Challenges.TagPresolutions | src/lib/api/challenges.ts:84-88 | each presolution keeps its fields and gets the new challenge's id |
| Challenges.CreateOutcome | src/lib/api/challenges.ts:36-78 | the auth check comes first (not authenticated), then the end date (an unparsable start is an invalid date), then the insert's report (its error, or "no challenge returned"); success returns an active row with the input's fields, zero streak, check-in and emergency counters, created and updated now, and the computed end date |
| Challenges.CreateChallenge | src/lib/api/challenges.ts:36-100 | on failure nothing is stored; on success the challenge is appended with a fresh id and the presolutions are appended unless their insert fails, which does not fail the call |
| Challenges.MostRecentActive | src/lib/api/challenges.ts:111-118 | the result is one of the user's active challenges with the greatest created_at, and none is returned iff the user has none |
| Challenges.GetActiveChallenge | src/lib/api/challenges.ts:102-126 | fails exactly when there is no session; otherwise returns the user's most recent active challenge, or none |
| Challenges.NewestCreatedIsActive | src/lib/api/challenges.ts:114-117 | an active challenge newer than every row is the one selected |
| Progress.TotalCompletedDaysIsTableCount | src/pages/Dashboard.tsx:32-34 | counting complete rows of the ordered history equals counting them in the table |
| Progress.UpsertCompletedCount | src/pages/Dashboard.tsx:33 | an upsert changes the count only by the day it writes: minus the old row's completion, plus the new one |
| Progress.CompleteWriteNeverLowersTotal | src/pages/Dashboard.tsx:84-90 | submitting a complete day never lowers the completed-day total |
| Progress.DaysElapsed | src/pages/Dashboard.tsx:125-133 | at least 1, and the whole-day difference plus one once the start has passed |
| Progress.DaysElapsedAfter | src/pages/Dashboard.tsx:125-133 | n days after the start it is day n + 1 |
| Progress.DaysElapsedFutureStart | src/pages/Dashboard.tsx:132 | a start date in the future shows day 1 |
| Progress.ProgressPercent | src/pages/Dashboard.tsx:135-139 | between 0 and 100, 0 without a challenge, 100 iff the completed days reach the duration, otherwise completed/duration × 100 |
| Progress.DaysLeft | src/pages/Dashboard.tsx:141-144 | never negative; 0 iff the completed days reach the duration; otherwise duration minus completed |
| Progress.CompletionAgrees | src/pages/Dashboard.tsx:135-148 | completion, a full progress bar and zero days left are the same condition, independent of the days elapsed |
| Progress.EmergenciesRemaining | src/pages/Dashboard.tsx:498 | at least one emergency remains iff the button is not disabled (`emergency_uses >= 3`); 0..3 for uses in 0..3 |
| Dashboard.ToggleMembership | src/pages/Dashboard.tsx:65-69 | toggling flips the habit's membership and keeps every other habit's |
| Dashboard.ToggleKeepsNoDuplicates | src/pages/Dashboard.tsx:65-69 | toggling never introduces a repeated habit |
| Dashboard.ToggleTwiceRestores | src/pages/Dashboard.tsx:65-69 | ticking and unticking a habit restores the list |
| Dashboard.DashboardState.constructor | src/pages/Dashboard.tsx:10-19 | the initial page state |
| Dashboard.DashboardState.LoadData | src/pages/Dashboard.tsx:25-54 | loading always ends; with a session the active challenge is the most recent active one, the total is its complete-row count and today's ticks and flags come from today's row or are reset; without one only `loading` changes |
| Dashboard.DashboardState.ToggleHabit | src/pages/Dashboard.tsx:61-70 | ignored once today is checked in, otherwise toggles the habit |
| Dashboard.DashboardState.HandleCompleteCheckIn | src/pages/Dashboard.tsx:72-100 | submits iff there is an active challenge and as many ticks as habits; the row written is complete, the success banner shows, and the page then shows the reloaded challenge, total and today's row, with today checked in; a row id is consumed exactly when today had no row; a failure leaves the store and every page field unchanged except that saving has ended |
| Dashboard.DashboardState.OpenEmergency | src/pages/Dashboard.tsx:408-471 | the modal opens only on an unchecked day of an unfinished challenge with fewer than three uses |
| Dashboard.DashboardState.SetEmergencyReason | src/pages/Dashboard.tsx:222 | the reason follows the text area |
| Dashboard.DashboardState.CancelEmergency | src/pages/Dashboard.tsx:229 | cancel closes the modal |
| Dashboard.DashboardState.HandleEmergency | src/pages/Dashboard.tsx:102-123 | the procedure is called iff there is an active challenge, a non-blank reason and a session; a granted use closes the modal, clears the reason and shows the reloaded challenge, total and today's row; anything else leaves the page unchanged |
| ChallengeForm.PresolutionDraft.constructor | src/pages/CreateChallenge.tsx:30 | a new draft has both fields empty |
| ChallengeForm.RemoveIndex | src/pages/CreateChallenge.tsx:26 | dropping index i keeps the others in order; an index out of range keeps all |
| ChallengeForm.SubmittedHabitsAreNotBlank | src/pages/CreateChallenge.tsx:40 | exactly the habits that are not all whitespace are submitted, untrimmed |
| ChallengeForm.SubmittedPresolutionsAreFilled | src/pages/CreateChallenge.tsx:41-51 | presolutions are omitted iff none has both fields filled, otherwise exactly the filled ones are sent |
| ChallengeForm.StoredPresolutionsAreFilled | src/pages/CreateChallenge.tsx:41-51 | every stored presolution has both fields non-empty and the new challenge's id |
| ChallengeForm.CreateChallengeForm.constructor | src/pages/CreateChallenge.tsx:7-16 | step 1, duration 66, time 05:00, one empty habit and one empty draft |
| ChallengeForm.CreateChallengeForm.SetTitle | src/pages/CreateChallenge.tsx:97 | the title follows the input |
| ChallengeForm.CreateChallengeForm.SetDuration | src/pages/CreateChallenge.tsx:106-110 | the duration can only be one of 30, 55, 66 or 90 |
| ChallengeForm.CreateChallengeForm.SetStartDate | src/pages/CreateChallenge.tsx:128 | the start date follows the input |
| ChallengeForm.CreateChallengeForm.SetScheduledTime | src/pages/CreateChallenge.tsx:144-159 | the time follows the preset buttons and the input |
| ChallengeForm.CreateChallengeForm.SetDeclarationText | src/pages/CreateChallenge.tsx:206 | the declaration follows the text area |
| ChallengeForm.CreateChallengeForm.AddHabit | src/pages/CreateChallenge.tsx:18 | appends an empty habit |
| ChallengeForm.CreateChallengeForm.UpdateHabit | src/pages/CreateChallenge.tsx:19-23 | replaces one habit, the others unchanged |
| ChallengeForm.CreateChallengeForm.RemoveHabit | src/pages/CreateChallenge.tsx:24-28 | removes the habit unless it is the last, so there is always at least one |
| ChallengeForm.CreateChallengeForm.AddPresolution | src/pages/CreateChallenge.tsx:30 | appends a new empty draft, the others unchanged |
| ChallengeForm.CreateChallengeForm.UpdatePresolution | src/pages/CreateChallenge.tsx:31-35 | writes one field of one draft in place; every other draft and field is unchanged |
| ChallengeForm.CreateChallengeForm.Back | src/pages/CreateChallenge.tsx:251-253 | steps back, never below 1 |
| ChallengeForm.CreateChallengeForm.Next | src/pages/CreateChallenge.tsx:259-262 | steps on only before step 4 and once a title and a start date are given |
| ChallengeForm.CreateChallengeForm.HandleSubmit | src/pages/CreateChallenge.tsx:37-64 | creates the challenge from the form with blank habits and half-filled presolutions dropped and no signature; the stored habits are never blank; exactly one challenge id is consumed and the presolution rows follow unless their insert fails; loading ends false |
| Signup.ValidateSignup | src/pages/Signup.tsx:19-29 | the username check comes before the password check; both pass iff username ≥ 3 and password ≥ 6 characters |
| Signup.FailureMessage | src/pages/Signup.tsx:35-39 | the failure shown is never empty, falling back to "Failed to create account" |
| Signup.SignupForm.constructor | src/pages/Signup.tsx:8-12 | empty fields, no error, not loading |
| Signup.SignupForm.SetUsername | src/pages/Signup.tsx:71 | the username follows the input |
| Signup.SignupForm.SetEmail | src/pages/Signup.tsx:83 | the email follows the input |
| Signup.SignupForm.SetPassword | src/pages/Signup.tsx:95 | the password follows the input |
| Signup.SignupForm.HandleSubmit | src/pages/Signup.tsx:14-43 | the error is cleared first; sign-up is called iff validation passes; the error shown is the validation message, else the sign-up failure, else none; loading ends false on every path |
| Quotes.DayNumber | src/lib/api/quotes.ts:14 | the day since the epoch that contains the instant |
| Quotes.JsRem | src/lib/api/quotes.ts:15 | JavaScript `%`: the remainder has the dividend's sign, agrees with the mathematical remainder for a non-negative dividend and differs from a negative one by a multiple of the divisor; it is zero iff the divisor divides the dividend |
| Quotes.SelectQuote | src/lib/api/quotes.ts:11-15 | none for an empty list; otherwise day mod count for a non-negative day; for a negative day the first quote when the count divides the day, none otherwise (the negative index reads `undefined`) |
| Quotes.TodaysQuoteFromTable | src/lib/api/quotes.ts:4-18 | the quote is a row of the table; none for an empty table; one whenever the table has rows and the clock is past the epoch |
| Quotes.SameDaySameQuote | src/lib/api/quotes.ts:13-15 | two instants of the same day show the same quote |
| Quotes.RotationRepeats | src/lib/api/quotes.ts:15 | the rotation repeats after as many days as there are quotes |
| Quotes.NextDayNextQuote | src/lib/api/quotes.ts:15 | each day shows the next quote by id, wrapping around |
| Quotes.EveryQuoteWithinCycle | src/lib/api/quotes.ts:3-15 | every quote appears within any run of count consecutive days |
| Quotes.TodaysQuoteIgnoresStorageOrder | src/lib/api/quotes.ts:5-8 | with unique ids, the quote does not depend on the order the rows are stored in |

## Left out

- Supabase transport is not modelled. The session comes from `auth.getSession` and the store's reports are parameters. Transport errors on the read queries (`getTodayCheckIn`, `getChallengeCheckIns`, `getActiveChallenge`, the quotes query) are not modelled; only the missing-session failure is.
- The server procedure `use_emergency_protocol` is not modelled: its atomic increment, its emergency check-in row and its streak rules. Its reply is a parameter, so the reload after a granted emergency reads the store as it was.
- `current_streak` and `total_checkins` are maintained on the server and never computed by this code, so they are not modelled.
- JavaScript `Date` time zones are not modelled. Today is a calendar date given as a parameter, and days elapsed are counted on calendar days, not on milliseconds at local midnight.
- `new Date(start_date)` accepts formats other than `YYYY-MM-DD`. The model accepts only that format; any other string is the Invalid Date on which `toISOString` throws.
- Progress.DaysElapsed: counts calendar days, not the milliseconds between local midnights. The page differs in two ways. West of UTC, `new Date('YYYY-MM-DD')` is UTC midnight, which `setHours(0, 0, 0, 0)` moves to the previous local day, so the start day shows as day 2. Across a spring daylight-saving change the span is an hour short of whole days, and `Math.floor` counts one day fewer.
- Challenges.EndDateIsDurationLater: states calendar arithmetic. The code moves a UTC-midnight instant on with the local `setDate` and prints it with the UTC `toISOString`. Across a daylight-saving change this can land one day early: a start of 2026-03-01 with 30 days gives 2026-03-30 in Paris or New York, not 2026-03-31.
- Dates.ParseDateKeyRoundTrip, Challenges.EndDateIsDurationLater, Challenges.EndDateKey, Challenges.CreateOutcome: the end date's text is stated for four-digit years only. The key prints the year without padding. `toISOString` zero-pads years below 1000 to four digits ("0999-…" where the model gives "999-…"). From year 10000 on it prints a signed six-digit year ("+010000-…" where the model gives "10000-…").
- Progress.ProgressPercent: a duration of 0 (JavaScript `Infinity` or `NaN`) is excluded; the form only offers 30, 55, 66 and 90. Floating-point rounding and the rendering's `Math.round` are modelled with exact reals.
- Signup.ValidateSignup: JavaScript measures length in UTF-16 code units; the model counts characters.
- Quotes.SelectQuote: the empty table (`null`) and a negative index (`undefined`) are both None.
- Signup's navigation, the form's navigation, alerts, the success confetti and its `setTimeout`, rendering and logging are not modelled.
- Races between concurrent submissions are not modelled, nor are the stale React closures they would involve.
- Login, the daily-quote component and the dark-mode toggle are not part of this model.
- ChallengeForm.CreateChallengeForm.UpdateHabit and UpdatePresolution: they require an index of a rendered row. JavaScript would grow the array, or throw, on any other index, and the page never passes one.
