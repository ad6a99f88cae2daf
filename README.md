# Habit reminder: a Dafny model of its list, matching and quote rules

The app lets a user define habits (a name, an "HH:MM" time and a set of
weekdays), keeps them in the browser's local storage, checks once a minute
whether a habit is due and then shows a desktop notification, and shows a
motivational quote fetched from a quote service with a built-in fallback.
There are two versions: a plain script (`app.js`) and a component version
(`src/Utils/App.tsx`) whose records also carry a description, a completion
flag and a streak.

This project models the rules underneath the browser glue:

- `wrappers.dfy` (`Wrappers`): `Option`, used for a missing storage key and for
  a computation that throws.
- `seqs.dfy` (`Seqs`): `Array.prototype.filter` as `Filter`, with the facts the
  list operations rely on (membership, multiplicity, order, idempotence).
- `habit_store.dfy` (`HabitStore`): the plain script's habit record, the form
  check before an addition, and class `Store`, whose field `saved` is the value
  under the `habits` key. `SaveHabit`, `AddHabit` and `DeleteHabit` rewrite it
  as the script does; `GetHabits` reads it with the empty default.
- `days_text.dfy` (`DaysText`): the "Mon, Wed, Fri" text under each habit, with
  a parser that reads it back.
- `reminders.dfy` (`Reminders`): the "HH:MM" formatting of the current time
  (`toString` and `padStart`), the match rule, and `CheckReminders`, the
  per-minute loop over the stored habits. It returns the notifications it sends.
- `quotes.dfy` (`Quotes`): the filter over the service's answer, the fallback to
  three built-in quotes, and the author clean-up.
- `tracker.dfy` (`Tracker`): the component version's initial list, adding a
  habit, and toggling completion with its streak rule.

The clock, the platform's notification support and permission, the network
answer and `Math.random()` are parameters. `Math.random()` is a real number `r`
with `0 <= r < 1`, and the index is the floor of the exact product `r * n`.
JSON encoding is abstracted away: the stored value is the list itself.

A few things the code does that a reader may not expect:

- Record ids are not checked for uniqueness, so deleting an id removes every
  record carrying it.
- Answer entries without a usable `text` are filtered out rather than causing
  the whole answer to be rejected. A truthy author that is not a string makes
  `replace` throw inside the `try`, so the fallback quote is shown.
- In the component version the streak grows only when a habit goes from not
  completed to completed, not on every toggle.
- `daysMap[d]` for a day outside 0..6 is `undefined`, which `join` writes as an
  empty string.

## Model

| member | source | states |
|---|---|---|
| HabitStore.MakeHabit | app.js:99-109 | a submission is rejected exactly when the name is empty, the time is empty or no day is checked; otherwise the record carries the submitted id, name, time and days verbatim |
| HabitStore.Store.GetHabits | app.js:122-124 | the stored list, and the empty list when nothing has been stored |
| HabitStore.Store.SaveHabit | app.js:116-120 | the stored list becomes the old list plus the record: one longer, every earlier record unchanged and in place, the new record last |
| HabitStore.Store.AddHabit | app.js:92-114 | accepted iff name, time and days are all non-empty; a rejected submission leaves storage untouched; an accepted one appends exactly the submitted record |
| HabitStore.Store.DeleteHabit | app.js:158-160 | the stored list becomes the old list without the records carrying the id, and contains exactly the old records with another id |
| HabitStore.RemoveById | app.js:159 | the filter of the delete handler: never longer than the list, and no remaining record carries the id; RemoveByIdSpec, RemoveAbsentId and RemoveByIdIdempotent state the rest |
| HabitStore.Store.constructor | app.js:122-123 | before the `habits` key is first written nothing is stored, and reading gives the empty list |
| HabitStore.RemoveByIdSpec | app.js:159 | deleting keeps every record with another id with all its copies, in the original order, and no record with the deleted id |
| HabitStore.RemoveAbsentId | app.js:159 | deleting an id no record carries leaves the list unchanged |
| HabitStore.RemoveByIdIdempotent | app.js:159 | deleting the same id twice equals deleting it once |
| HabitStore.RemoveAfterSave | app.js:116-160 | saving a record and then deleting its id gives the list without that id, as if it had never been saved |
| Seqs.Filter | app.js:159 | filtering keeps only passing elements and never lengthens the list |
| DaysText.DayName | app.js:139-140 | a day 0..6 maps to a three-letter name that stands for that day; any other number to the empty text |
| DaysText.Names | app.js:140 | the `map` step: one name per day, the i-th being the name of the i-th day |
| DaysText.Join | app.js:140 | `join`: no parts give the empty text; otherwise the text starts with the first part, followed by the separator when there is more than one part |
| DaysText.DaysLabel | app.js:139-140 | no days give the empty text; otherwise the label starts with the first day's name, followed by ", " when there are more days; DaysLabelLength and DaysLabelRoundTrip state the rest |
| DaysText.DaysLabelLength | app.js:139-140 | the label of n ≥ 1 valid days is 5n - 2 characters long (the label of no days is the empty text, by DaysLabel's own contract) |
| DaysText.DaysLabelRoundTrip | app.js:139-140 | the label of valid days is read back into the same days, in order, by a parser that accepts only three-letter names separated by exactly ", " |
| DaysText.ParseNamesSound | app.js:140 | every text the parser accepts is exactly the label of the valid, non-empty day list it returns, so a text with any other separator or name is refused |
| DaysText.ParseLabelExact | app.js:140 | a text reads back as a day list exactly when it is that list's label and every day is in 0..6 |
| DaysText.MondayWednesdayFriday | app.js:139-140 | days 1, 3, 5 are shown as "Mon, Wed, Fri" |
| Reminders.DecimalString | app.js:174-175 | a one-digit number prints as its single digit |
| Reminders.PadStart | app.js:174-175 | the result has the requested width (or the input's, if longer), ends with the input, and begins with the missing number of pad characters |
| Reminders.RepeatChars | app.js:174-175 | the padding is made of the pad character only |
| Reminders.TwoDigits | app.js:174-175 | for 0..99 the padded text is exactly the tens digit followed by the units digit |
| Reminders.FormatTime | app.js:174-175 | for hours 0..23 and minutes 0..59 the current time is five characters: two hour digits, ':' and two minute digits |
| Reminders.FormatTimeRoundTrip | app.js:174-175 | reading the formatted time back yields the same hour and minute |
| Reminders.FormatTimeInjective | app.js:174-178 | two different minutes of the day never format equal, so a habit's time matches one minute a day at most |
| Reminders.ReminderFor | app.js:179 | the title is "Habit Reminder" and the body is "Time to " followed by the habit's name and "!" |
| Reminders.NoticesFor | app.js:177-181 | one reminder per habit, the i-th for the i-th habit |
| Reminders.Dispatched | app.js:177-181 | at most one notification per stored habit, each titled "Habit Reminder"; the habits are selected by the match test `IsDue` of app.js:178, and DispatchedSplit, DispatchedMembership and NothingDueNothingSent state which ones and in what order |
| Reminders.DispatchedSplit | app.js:177-181 | each habit contributes one reminder, at its place in store order, exactly when its days contain the current day and its time equals the current time |
| Reminders.DispatchedMembership | app.js:177-181 | a notification is sent iff some due habit yields its "Habit Reminder" title and "Time to <name>!" body |
| Reminders.NothingDueNothingSent | app.js:177-181 | when no habit is due nothing is sent |
| Reminders.MeditateOnWednesday | app.js:172-181 | a "Meditate" habit on days 1, 3, 5 at 07:30 checked on day 3 at 07:30 sends exactly one "Time to Meditate!" reminder |
| Reminders.CheckReminders | app.js:169-182 | nothing is sent without notification support or granted permission; otherwise exactly the reminders of the due habits, in store order |
| Quotes.ValidQuotes | app.js:205-207 | every kept entry is valid and the list never grows; ValidQuotesSpec states which entries are kept |
| Quotes.ValidQuotesSpec | app.js:205-207 | the valid entries are exactly those whose text is a non-empty string, with all their copies, in the answer's order |
| Quotes.PickIndex | app.js:212 | `floor(random * n)` is a valid position in a list of n |
| Quotes.FindFrom | app.js:214 | the result is the first occurrence of the pattern at or after the start, or none exists |
| Quotes.ReplaceFirst | app.js:214 | with no occurrence the text is unchanged; otherwise only the first occurrence is replaced |
| Quotes.CleanAuthor | app.js:213-215 | a falsy author becomes "Unknown"; a string loses its first ", type.fit"; a truthy non-string throws |
| Quotes.CleanServiceAuthor | app.js:213-215 | "Lao Tzu, type.fit" is cleaned to "Lao Tzu" |
| Quotes.Chosen | app.js:212 | the randomly chosen entry is one of the valid entries |
| Quotes.ApiQuote | app.js:193-217 | the `try` block yields no quote exactly when the request fails, the status is not ok, the body is not an array, no entry is valid, or the chosen author is a truthy non-string; otherwise it yields the chosen entry's text with its cleaned author |
| Quotes.FetchQuote | app.js:185-226 | the quote shown is a fallback quote or comes from a valid entry of an ok array answer with its cleaned author; it is a fallback quote whenever the request fails, the status is not ok, the body is not an array, no entry is valid or the chosen author is a truthy non-string |
| Quotes.FetchQuoteUsesAnswer | app.js:209-217 | with valid entries and a usable author, the quote shown is the chosen entry's text with its cleaned author |
| Quotes.FetchQuoteAuthorThrows | app.js:213-225 | when the chosen entry's author is a truthy non-string, `replace` throws and a built-in quote is shown |
| Quotes.ThreeFallbacks | app.js:187-191 | there are exactly three distinct fallback quotes |
| Tracker.InitialHabits | src/Utils/App.tsx:12-15 | the initial list is the saved list, and empty when nothing is saved |
| Tracker.AddHabit | src/Utils/App.tsx:47-56 | adding appends exactly one record with the given name, description and time, not completed and with streak 0; earlier records are unchanged |
| Tracker.ToggleOne | src/Utils/App.tsx:63-69 | only a record with the id changes, only in completion and streak; its streak grows by one exactly when it becomes completed |
| Tracker.ToggleHabit | src/Utils/App.tsx:60-71 | toggling keeps length and order and every record with another id; a matching record has its completion negated and its streak raised by one iff it was not completed |
| Tracker.StreakNeverDecreases | src/Utils/App.tsx:63-68 | a toggle never lowers a streak and raises it by at most one |
| Tracker.ToggleAbsentId | src/Utils/App.tsx:62-69 | toggling an id that no record carries returns an equal list |
| Tracker.ToggleTwice | src/Utils/App.tsx:63-68 | toggling twice restores every completion flag and adds exactly one to the streak of each matching record |
| Tracker.CompleteNewHabit | src/Utils/App.tsx:47-71 | completing a freshly added habit with a new id gives it completion and streak 1 and leaves earlier records unchanged |

## Left out

- Rendering, modals and event wiring (`app.js` lines 4-10, 128-155 and 229-244), the validation `alert` (`app.js` line 100), the re-render and form reset after an addition (`app.js` lines 112-113), the re-render after a delete (`app.js` line 161), the `console` logging (`app.js` lines 25, 72 and 220), and the page markup of `src/Utils/App.tsx`: user interface only.
- `showNotification`, the permission prompt, the 15-second auto-close and vibration (`app.js` lines 23-53 and 76-89): platform calls. `CheckReminders` reaches a dispatch only with permission granted, and its result is the list of (title, body) pairs it hands to `showNotification`.
- `playNotificationSound` (`app.js` lines 55-74): audio synthesis with floating-point frequencies and gain ramps.
- `setInterval` polling, the real date, `Date.now()` and `crypto.randomUUID()`: the weekday, hour, minute and ids are parameters. One call of `CheckReminders` is one tick.
- Quotes.PickIndex: multiplies `Math.random() * n` exactly, where the script multiplies in double-precision floating point. For some `r` the rounded product reaches the next integer, so the script's index can be one higher than the model's; it still stays below `n`, so every property proved about the chosen quote still holds.
- The `fetch` call itself: the answer is a `Response` value. The displayed `"text" — author` line is not modelled; `FetchQuote` returns the quote and author it is built from.
- JSON encoding and decoding of the stored list: the stored value is the list itself.
- Storage failures: every `localStorage` read and write, and the `JSON.parse` of the stored value, are assumed to succeed. In the script any of them can throw (storage disabled, quota exceeded, a corrupted `habits` value), and nothing catches it. Then `addHabit` stops inside `saveHabit` (`app.js` lines 111 and 117-119), so nothing is stored or rendered and the form is not reset. `deleteHabit` stops before its write (`app.js` lines 159-160), and a `checkReminders` tick stops at `getHabits()` (`app.js` line 177) without sending anything. `Store.SaveHabit`, `Store.AddHabit`, `Store.DeleteHabit` and `CheckReminders` model only the runs where storage works.
- The component version's store write on every change (`useEffect`), the daily quote refresh, and `scheduleNotification`, `requestNotificationPermission` and `getDailyQuote`: the last three are imported from files that are not part of this model.
- `src/Components/HabitForm.tsx`, `src/Components/HabitList.tsx` and `src/Components/Dailyquote.tsx`: render and input components with no logic beyond resetting fields.
