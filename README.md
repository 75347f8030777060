# VibeLog journal core, in Dafny

VibeLog is a personal coding journal. The home page keeps three record
lists. Sessions are timed blocks of work with a goal. Ideas are notes that
may carry pictures. Blockers are problems met during work.

From these lists the page builds:

- a timeline of days, newest first, with each day's items newest first;
- filters by kind, by month and by "has pictures";
- the list of months the month filter offers;
- a weekly or monthly report, with counts and total time, rendered as
  Markdown.

Its handlers start, end and resume sessions, add ideas and blockers, and
edit records.

This project models that logic and proves what it promises. It has seven
modules:

- `Strings` (`strings.dfy`): the string helpers the page relies on.
  - Decimal rendering and `padStart(2, '0')`.
  - `trim`, with the 25 white-space characters of ECMAScript.
  - Code-point string order. On text within U+0000–U+FFFF it equals the
    UTF-16 code-unit order of `<`, `>=` and `sort()`, and for the ASCII day
    keys it is what `localeCompare` amounts to.
  - An insertion sort, `reverse`.
  - A `Set` kept in insertion order (`Dedup`).
  - `split` and `join`.
- `Types` (`types.dfy`): the records of `src/types.ts`.
  - A timestamp is an `Instant`, the 24-character text that
    `toISOString` produces.
- `Clock` (`clock.dfy`): the timestamp fields and the time formulas.
  - The day and month keys.
  - `getSessionDuration` and the timer formula.
  - `formatTime` and `formatDuration`, each with a reader that proves the
    text gives back the number.
- `Timeline` (`timeline.dfy`): `getGroupedRecords`.
  - A specification: `GroupedRecords` over the filed entries.
  - An imperative version, `GroupRecords`, that fills a map of day buckets
    as the page does and is proved equal to the specification.
- `Filter` (`filter.dfy`): the `groupedRecords` filter chain and
  `availableMonths`.
  - The latter is a method that adds to a set in three loops.
- `Report` (`report.dfy`): `reportData` and `generateReportMarkdown`.
  - The latter is a method that pushes lines and joins them.
- `Journal` (`journal.dfy`): the page state as a class `JournalPage`, with
  one method per handler.
  - The invariant `Valid` has two parts. `Consistent`: the page's running
    session agrees with the list, so at most one session runs. The record
    promises of `src/types.ts`: a session has no end exactly while it runs,
    and a blocker with no solution is open.

What each store call returns is a parameter of the handler: whether the
write succeeded (`ok`), and the id and instant the store hands out.

## Model

| member | source | states |
|---|---|---|
| Strings.NatToString | src/app/page.tsx:137-138 | the decimal text of a number is non-empty and all digits; it is "0" exactly for 0, and otherwise has no leading zero |
| Strings.NatToStringRoundTrip | src/app/page.tsx:137-138 | reading the decimal text back gives the number |
| Strings.IntToString | src/app/page.tsx:137-138 | the template-literal text of an integer; `Clock.IntToStringRoundTrip` reads it back |
| Strings.PadStart2 | src/app/page.tsx:137-138 | `padStart(2, '0')` puts zeros in front up to two characters, and keeps the text as the suffix |
| Strings.PadTwoDigits | src/app/page.tsx:137-138 | a number below 100, padded, is two digits that read back as the number |
| Strings.Trim | src/app/page.tsx:273 | `trim`, specified by `TrimSpec` and `TrimEmpty` below |
| Strings.TrimStartSpec | src/app/page.tsx:273 | the result is a suffix; everything removed is white space; it does not start with white space |
| Strings.TrimEndSpec | src/app/page.tsx:273 | the result is a prefix; everything removed is white space; it does not end with white space |
| Strings.TrimSpec | src/app/page.tsx:273 | `trim` returns a slice of the input with only white space on both sides, and no white space at its ends |
| Strings.TrimEmpty | src/app/page.tsx:273 | the trimmed text is empty exactly when the input is all white space, which is when the page refuses the input |
| Strings.LessIrreflexive | src/app/page.tsx:430 | no string sorts before itself |
| Strings.LessTransitive | src/app/page.tsx:430 | the string order is transitive |
| Strings.LessTotal | src/app/page.tsx:430 | of two different strings, one sorts before the other |
| Strings.LessEqTransitive | src/app/page.tsx:494 | `>=` on strings is transitive |
| Strings.InsertSorted | src/app/page.tsx:453 | inserting into a sorted list keeps it sorted |
| Strings.InsertMultiset | src/app/page.tsx:453 | inserting adds exactly that element |
| Strings.SortAsc | src/app/page.tsx:453 | `sort()` returns a permutation of its input in ascending order |
| Strings.SortedReversedDistinct | src/app/page.tsx:430 | sorting distinct keys and reversing them gives the same keys, strictly descending |
| Strings.DedupSpec | src/app/page.tsx:443-453 | a set built by adding the elements of a list holds each element of the list once, and nothing else |
| Strings.SplitJoin | src/app/page.tsx:535 | splitting a joined text at the separator gives back the parts, when no part holds the separator |
| Strings.JoinAppend | src/app/page.tsx:535 | joining two non-empty lists of lines is joining each and putting one separator between |
| Clock.DateKey | src/app/page.tsx:151-153 | the day key is the 10-character `YYYY-MM-DD` prefix of the ISO text |
| Clock.MonthKey | src/app/page.tsx:445 | the month key is the 7-character prefix, and a prefix of the day key |
| Clock.SameDayWithinADay | src/app/page.tsx:151-153 | two instants with the same day key are less than a day apart |
| Clock.WholeSeconds | src/app/page.tsx:162 | `Math.floor(ms / 1000)` is the whole seconds at or below the milliseconds |
| Clock.SessionDuration | src/app/page.tsx:160-163 | a session with no end lasts 0; otherwise its duration is the floor, in seconds, of end minus start |
| Clock.Elapsed | src/app/page.tsx:121 | the timer reading is the floor, in seconds, of the time since the start |
| Clock.TimerStopsAtDuration | src/app/page.tsx:121 | the timer reading at a session's end instant equals the session's duration |
| Clock.Millis | src/app/page.tsx:162 | `getTime` of an instant lies within the millisecond range of its calendar day counted from 1970-01-01; its order is fixed by `MillisOrder` |
| Clock.MillisOrder | src/app/page.tsx:433 | for two canonical ISO texts, `a < b` as strings exactly when `getTime` of a is smaller, and `a <= b` exactly when it is not larger |
| Clock.JsRem | src/app/page.tsx:136 | `%` is what is left of a after taking away b times the quotient rounded towards zero: it lies in [0, b) for a non-negative dividend and in (-b, 0] for a negative one |
| Clock.IntToStringRoundTrip | src/app/page.tsx:148 | reading the text of any integer, negative ones included, back gives the integer |
| Clock.FormatTime | src/app/page.tsx:134-140 | `formatTime`, specified by `FormatTimeRoundTrip` and `FormatTimeShape` below |
| Clock.FormatTimeRoundTrip | src/app/page.tsx:134-140 | reading a `formatTime` text back gives the seconds it came from; it has three fields from one hour on and two below |
| Clock.FormatTimeShape | src/app/page.tsx:134-140 | the text is numerals joined by colons, three from one hour on and two below, and every field after the first is exactly two digits |
| Clock.FormatDuration | src/app/page.tsx:142-149 | `formatDuration`, specified by `FormatDurationRoundTrip` below |
| Clock.DurationOverMinute | src/app/page.tsx:142-148 | from a minute on, the text reads back as the whole minutes and never ends in "s"; it has two space-separated parts exactly when there are whole hours and a non-zero minute remainder |
| Clock.DurationUnderMinute | src/app/page.tsx:142-149 | under a minute, including negative counts, the text is the count followed by "s", one part, and reads back as the count |
| Clock.FormatDurationRoundTrip | src/app/page.tsx:142-149 | the text reads back as the seconds rounded down to a minute; it ends in "s" exactly when the count is under 60; it is `Xh Ym`, two space-separated parts, exactly when the count is at least an hour and what is left after the whole hours is at least a minute |
| Clock.TwoMinutesFiveSeconds | src/app/page.tsx:134-149 | 125 seconds read "2:05" on the timer and "2m" as a duration |
| Timeline.SessionItem | src/app/page.tsx:393-400 | the item of a session: its goal, its start as a `getTime` value and its duration text, filed under its start day (`SessionEntriesSpec`) |
| Timeline.IdeaItem | src/app/page.tsx:406-413 | the item of an idea: its text, creation time and pictures, filed under its creation day (`IdeaEntriesSpec`) |
| Timeline.BlockerItem | src/app/page.tsx:419-426 | the item of a blocker: its problem, creation time, status, and its solution with an empty one dropped, filed under its creation day (`BlockerEntriesSpec`) |
| Timeline.TimelineEntriesSpec | src/app/page.tsx:390-426 | the filed entries are those of the completed sessions, the ideas and the blockers, and nothing else |
| Timeline.SessionEntriesSpec | src/app/page.tsx:390-401 | only completed sessions are filed |
| Timeline.IdeaEntriesSpec | src/app/page.tsx:403-414 | every idea is filed |
| Timeline.BlockerEntriesSpec | src/app/page.tsx:416-427 | every blocker is filed |
| Timeline.DistinctKeysSpec | src/app/page.tsx:392 | the map holds one key per day that has an entry, each once |
| Timeline.OnDayCount | src/app/page.tsx:392-393 | a day's bucket holds each entry of that day as often as it was filed |
| Timeline.OnDayMembers | src/app/page.tsx:392-393 | an item is in a day's bucket exactly when it was filed under that day |
| Timeline.InsertByTimeSorted | src/app/page.tsx:433 | inserting by time into a newest-first list keeps it newest first |
| Timeline.SortByTimeDesc | src/app/page.tsx:433 | the per-day sort, specified by `SortByTimeDescSpec` |
| Timeline.SortByTimeDescSpec | src/app/page.tsx:433 | sorting a day's items gives a permutation, newest first |
| Timeline.InsertByTimeAtTime | src/app/page.tsx:433 | inserting an item keeps the order of the items with any one time, placing it first among its own time |
| Timeline.SortByTimeDescStable | src/app/page.tsx:433 | the sort is stable: the items with any one time keep their list order |
| Timeline.GroupedRecords | src/app/page.tsx:429-436 | the timeline of filed entries, specified by `TimelineKeySet`, `TimelineKeys`, `TimelineGroups` and `TimelineExactlyOnce` |
| Timeline.TimelineKeySet | src/app/page.tsx:429-434 | there is one group per day that has an entry; the days are distinct and strictly descending |
| Timeline.TimelineKeys | src/app/page.tsx:429-434 | group keys strictly descend; every entry's day has a group, and every group's day has an entry |
| Timeline.TimelineGroups | src/app/page.tsx:429-434 | every group is non-empty, newest first, and holds only items filed under its own day |
| Timeline.GroupInvariant | src/app/page.tsx:429-434 | a day's group holds exactly that day's items, and each item as many times as it was filed for that day |
| Timeline.FlattenCount | src/app/page.tsx:429-434 | the groups for distinct days hold each of those days' entries as often as it was filed |
| Timeline.TimelineExactlyOnce | src/app/page.tsx:379-437 | the groups hold the filed entries, each exactly as often as it was filed: nothing is lost or duplicated |
| Timeline.TimelineShowsRecords | src/app/page.tsx:379-437 | every completed session, idea and blocker is shown in the group of its own day key |
| Timeline.EntryShown | src/app/page.tsx:379-437 | every filed entry is in the group of its day |
| Timeline.TimelineHidesActiveSessions | src/app/page.tsx:390 | no running session appears in the timeline |
| Timeline.FileItem | src/app/page.tsx:392-393 | creating a bucket when it is missing and pushing to it keeps the map equal to the buckets of the entries filed so far |
| Timeline.FileSessions | src/app/page.tsx:390-401 | the completed sessions are filed into an empty map |
| Timeline.FileIdeas | src/app/page.tsx:403-414 | the ideas are filed after what is already in the map |
| Timeline.FileBlockers | src/app/page.tsx:416-427 | the blockers are filed after what is already in the map |
| Timeline.SortedGroups | src/app/page.tsx:429-434 | sorting the map's entries and each bucket gives the specified timeline |
| Timeline.GroupRecords | src/app/page.tsx:379-437 | the imperative `getGroupedRecords` returns exactly the specified timeline of all records |
| Filter.Keeps | src/app/page.tsx:462-467 | the per-item filter, equal to the conjunction of the three conditions by `KeepsMatches` |
| Filter.KeptItems | src/app/page.tsx:462 | the items of a day that the filter keeps, specified by `KeptItemsSpec` and `KeptItemsAppend` |
| Filter.FilterGroups | src/app/page.tsx:459-468 | the filtered timeline with empty days dropped, specified by `FilterGroupsSpec` and `FilterGroupsDescending` |
| Filter.KeepsMatches | src/app/page.tsx:463-466 | the chain of early refusals keeps an item exactly when all three conditions hold |
| Filter.KeptItemsSpec | src/app/page.tsx:462-467 | an item is kept exactly when it is in the group and passes the filters, and as often as it occurs |
| Filter.KeptItemsAppend | src/app/page.tsx:462-467 | filtering splits over concatenation, so kept items keep their relative order |
| Filter.KeptItemsAll | src/app/page.tsx:462-467 | with the filters reset, every item is kept |
| Filter.KeptItemsNewestFirst | src/app/page.tsx:462-467 | a newest-first group stays newest first |
| Filter.FilterGroupsSpec | src/app/page.tsx:460-468 | each result group is an input group with its kept items, and is non-empty; each input group with a kept item is in the result |
| Filter.FilterGroupsAppend | src/app/page.tsx:460-468 | filtering splits over concatenation, so kept groups keep their relative order |
| Filter.FilterGroupsAll | src/app/page.tsx:460-468 | with the filters reset, non-empty groups come back unchanged |
| Filter.FilterGroupsDescending | src/app/page.tsx:460-468 | days newest first stay newest first |
| Filter.FilterTimelineAll | src/app/page.tsx:459-470 | with tab "all", no month and no picture filter, the page shows the whole timeline unchanged |
| Filter.FilterTimeline | src/app/page.tsx:459-470 | the filtered timeline is newest first with no empty day; every shown item was filed under its day and passes the three filters; every filed item that passes them is shown |
| Filter.FilterTimelineSound | src/app/page.tsx:459-470 | every shown group is non-empty and newest first, and every shown item passes the filters |
| Filter.FilterTimelineComplete | src/app/page.tsx:459-470 | every filed item that passes the filters is shown under its day |
| Filter.SessionMonthsSpec | src/app/page.tsx:444-446 | the months added for sessions are those of the completed ones |
| Filter.IdeaMonthsSpec | src/app/page.tsx:447-449 | every idea's month is added |
| Filter.BlockerMonthsSpec | src/app/page.tsx:450-452 | every blocker's month is added |
| Filter.MonthOfEntry | src/app/page.tsx:442-454 | each added month is a prefix of the day key of a filed entry |
| Filter.MonthPrefix | src/app/page.tsx:445 | the month key is a non-empty prefix of the day key |
| Filter.MonthList | src/app/page.tsx:442-454 | the offered months, specified by `MonthListSpec` |
| Filter.MonthListSpec | src/app/page.tsx:442-454 | the months are those of the completed sessions, ideas and blockers, each once and nothing else, strictly descending |
| Filter.OfferedMonthShowsItems | src/app/page.tsx:442-470 | choosing any offered month shows at least one day, and only days of that month |
| Filter.AvailableMonths | src/app/page.tsx:442-454 | the imperative month list equals the specified one |
| Filter.AddSessionMonths | src/app/page.tsx:444-446 | the loop over sessions leaves the set holding the months added so far |
| Filter.AddIdeaMonths | src/app/page.tsx:447-449 | the loop over ideas leaves the set holding the months added so far |
| Filter.AddBlockerMonths | src/app/page.tsx:450-452 | the loop over blockers leaves the set holding the months added so far |
| Filter.Add | src/app/page.tsx:445 | `Set.add` adds the month only if it is missing, so the set gains exactly that month |
| Report.WindowByTime | src/app/page.tsx:493-497 | the window test `t >= startISO` on canonical ISO texts is the test that t is not earlier than the window start by `getTime` |
| Report.WindowSessionsSpec | src/app/page.tsx:493-495 | the report's sessions are the completed ones with `start_time >= startISO`, each as often as listed |
| Report.WindowIdeasSpec | src/app/page.tsx:496 | the report's ideas are those with `created_at >= startISO` |
| Report.WindowBlockersSpec | src/app/page.tsx:497 | the report's blockers are those with `created_at >= startISO` |
| Report.WindowShrinks | src/app/page.tsx:493-495 | a later window start keeps no more sessions than an earlier one, and only sessions of it |
| Report.TotalTime | src/app/page.tsx:499-501 | the `reduce` of session durations, specified by `TotalTimeBounds` and `TotalTimeAppend` |
| Report.BuildReport | src/app/page.tsx:482-516 | `reportData` for a window start, specified by `ReportSpec` |
| Report.StatusSplit | src/app/page.tsx:507-509 | open plus resolved equals the blocker count |
| Report.WithStatusSpec | src/app/page.tsx:508-509 | each status count counts exactly the blockers with that status |
| Report.TotalTimeBounds | src/app/page.tsx:499-501 | the total of the whole-second durations is within 999 ms per session of the exact time |
| Report.TotalTimeAppend | src/app/page.tsx:499-501 | the total of two lists is the sum of their totals |
| Report.SessionLinesSpec | src/app/page.tsx:510-514 | one report line per session, in list order, with its goal, duration text and date |
| Report.ReportSpec | src/app/page.tsx:482-516 | the session count equals the number of listed sessions; open plus resolved equals the blocker count; the total time is within a second per session of the exact time; each listed goal and duration is that of the matching session |
| Report.ReportLines | src/app/page.tsx:518-534 | the lines `generateReportMarkdown` pushes, specified by `OverviewLayout` and `ReportLayout` |
| Report.OverviewLayout | src/app/page.tsx:520-528 | the text starts with the title, then the overview heading and the session, idea and blocker lines in that order; none of them is the session heading |
| Report.ReportLayout | src/app/page.tsx:518-536 | the report has 7 lines, or 9 plus one per session; the session heading appears exactly when there are sessions, followed by a blank line and one `- date \| goal (duration)` line per session, in order |
| Report.SessionTextsSpec | src/app/page.tsx:531-533 | one pushed line per session, in order |
| Report.IntTextNoBreak | src/app/page.tsx:524-526 | a number's text holds no line break |
| Report.DurationNoBreak | src/app/page.tsx:524 | a duration's text holds no line break |
| Report.LinesNoBreak | src/app/page.tsx:518-536 | no report line holds a line break, when no goal, date or duration does |
| Report.ReportTextLines | src/app/page.tsx:535 | when no session's goal, date or duration holds a line break, splitting the report text at line breaks gives back its lines |
| Report.GenerateReportMarkdown | src/app/page.tsx:518-536 | the pushed lines, joined by line breaks, are the specified report lines |
| Journal.AtMostOneRunning | src/types.ts:24 | when the page is consistent, no two sessions run |
| Journal.Resume | src/app/page.tsx:211-213 | the rewrite of `continueSession`, specified by `ResumeComplete` and `ResumeKeeps` |
| Journal.Complete | src/app/page.tsx:297-301 | the rewrite of `endSession`, specified by `ResumeComplete` and `EndKeeps` |
| Journal.ReviseGoal | src/app/page.tsx:339-341 | the session edit, specified by `EditsLocal` and `EditKeeps` |
| Journal.ReviseIdea | src/app/page.tsx:348-350 | the idea edit, specified by `EditsLocal` and `IdeaEditKeepsImages` |
| Journal.ReviseProblem | src/app/page.tsx:355-357 | the blocker edit, specified by `EditsLocal` |
| Journal.FindId | src/app/page.tsx:215 | `find` by id, specified by `FindIdSpec` and `FindIdFirst` |
| Journal.FindActive | src/app/page.tsx:100 | `find` by status, specified by `FindActiveSpec` and `FindActiveFirst` |
| Journal.FindIdSpec | src/app/page.tsx:215 | `find` by id returns a listed session with that id, and nothing exactly when no session has it |
| Journal.FindIdFirst | src/app/page.tsx:215 | the session `find` returns is the first listed with the id: every session before it has another id |
| Journal.FindActiveSpec | src/app/page.tsx:100 | `find` by status returns a listed running session, and nothing exactly when none runs |
| Journal.FindActiveFirst | src/app/page.tsx:100 | the session `find` returns is the first running one: no session before it runs |
| Journal.ResumeComplete | src/app/page.tsx:211-213 | ending and resuming touch only the sessions with the id; ending then resuming is resuming; resuming then ending is ending |
| Journal.EditsLocal | src/app/page.tsx:339-357 | each edit changes only its one field, and only of the record with the id; editing twice is editing once |
| Journal.IdeaEditKeepsImages | src/app/page.tsx:348-350 | an idea edit with no new pictures keeps every idea's pictures |
| Journal.StartKeeps | src/app/page.tsx:281-283 | starting a session with a new id when none runs makes it the only running session |
| Journal.EndKeeps | src/app/page.tsx:296-302 | ending the running session leaves none running |
| Journal.ResumeKeeps | src/app/page.tsx:210-216 | resuming when none runs leaves exactly the resumed session running, and it is the page's one |
| Journal.EditKeeps | src/app/page.tsx:338-341 | a goal edit changes no status, so the page stays consistent |
| Journal.SessionShapesKept | src/types.ts:23-24 | a session has no end exactly while it runs, and this holds after adding a running session with no end, ending, resuming or editing a goal (src/app/page.tsx:206-207, 277-278, 292-293, 339-341) |
| Journal.BlockerShapesKept | src/types.ts:34-35 | a blocker with no solution is open, and this holds after adding an open blocker with no solution or editing a problem (src/app/page.tsx:320-332, 355-357) |
| Journal.LoadKeeps | src/app/page.tsx:98-101 | loading lists in which at most one session runs makes the first running session the page's one, consistently |
| Journal.JournalPage.LoadData | src/app/page.tsx:88-111 | without a user nothing changes; otherwise each returned list replaces the old one, and the running session is the first running one; the page stays valid when nothing is returned; with a user it becomes valid when the returned sessions have distinct ids, at most one runs and each has no end exactly while it runs, and every returned blocker with no solution is open (each list not returned keeps its old property) |
| Journal.JournalPage.StartSession | src/app/page.tsx:272-286 | refused for a blank goal, while a session runs, or without a user; otherwise, once stored, a running session with the trimmed goal heads the list and is the page's one |
| Journal.JournalPage.EndSession | src/app/page.tsx:288-304 | with a running session, once stored, the sessions with its id end now and none runs; the invariant is kept |
| Journal.JournalPage.ContinueSession | src/app/page.tsx:203-218 | refused while a session runs or without a user; otherwise, once stored, the session runs again with no end and becomes the page's one; the invariant is kept |
| Journal.JournalPage.AddIdea | src/app/page.tsx:306-318 | refused when text and pictures are both empty, or without a user; otherwise the new idea heads the list, with its pictures or none |
| Journal.JournalPage.AddBlocker | src/app/page.tsx:320-332 | refused for a blank problem or without a user; otherwise a new open blocker with no solution heads the list |
| Journal.JournalPage.EditSession | src/app/page.tsx:336-342 | once stored, only the session with the id gets the trimmed goal; the invariant is kept |
| Journal.JournalPage.EditIdea | src/app/page.tsx:343-351 | once stored, the idea with the id gets the trimmed text, and the new pictures only if there are any |
| Journal.JournalPage.EditBlocker | src/app/page.tsx:352-358 | once stored, only the blocker with the id gets the trimmed problem |
| Journal.JournalPage.constructor | src/app/page.tsx:19-28 | the page starts with empty lists and no running session, which is consistent |

## Left out

- The store, authentication and routing are left out. Supabase reads and writes, the sign-in check and the redirect to the login page are foreign calls. Each write is the parameter `ok`. The rows the store returns, with their ids, are parameters.
- Clock and time zone are left out. `new Date().toISOString()` is a parameter `now`. The report's window start `startISO` is a parameter, because the page computes it from the local calendar. The timer's `setInterval` is left out; only its formula is modelled (`Clock.Elapsed`).
- Locale texts are opaque. `toLocaleTimeString` and `toLocaleDateString` are not modelled: the item's clock text is dropped, and the report's date is a function parameter. `formatDateHeader` is not modelled.
- `Date.prototype.getTime` is modelled as the calendar arithmetic of the ISO text (`Clock.Millis`). A timeline item holds that number instead of a `Date`.
- Timestamps are assumed to be in the canonical `toISOString` form. The store's own timestamp format (for instance `+00:00` offsets) is not modelled.
- The day key is the UTC day: the first ten characters of the ISO text, as the code computes it. The user's local day is not used.
- The elapsed time and durations are not clamped at 0, as in the code: a negative count renders as "-Ns".
- Strings are sequences of Unicode scalar values, so string order is code-point order. JavaScript's `<`, `>=` and `sort()` compare UTF-16 code units. The two orders differ only between characters above U+FFFF and those in U+E000–U+FFFF. The page compares only ASCII instants, day keys and month keys, where they agree. `localeCompare` on day keys is modelled as the same order.
- JavaScript's stable sort of items is modelled as a stable insertion sort.
- The descending sort of the map's keys is modelled as an ascending sort, then reversed. The keys are distinct, so the result is the same.
- Resolving a blocker is not modelled: the page has no handler that sets a solution or the resolved status.
- Image upload, the 5 MB check, the clipboard, the theme, the templates, the hashtag highlighter and all rendering are left out.
- `Report.ReportTextLines` and `Report.LinesNoBreak` hold only when no session's goal, date or duration text holds a line break. Goals come from a multi-line text box and `trim` keeps inner line breaks, so a multi-line goal makes the report text split into more lines than `Report.ReportLayout` counts.
- `Journal.JournalPage.StartSession` and `Journal.JournalPage.ContinueSession` are modelled as atomic steps. In the code each awaits the store between its guard and its update, and the update uses the session list captured when the handler was called. The buttons stay enabled while a write is pending. A double submit, two quick resumes or two open tabs can all pass the guard, so the store then holds two running sessions and the page's list loses one of the writes. The proved "at most one session runs" holds only when the handlers do not interleave.
- `Journal.JournalPage.StartSession`: the invariant is promised only when the store's new id differs from every listed id, which a store-generated UUID does.
- `Journal.JournalPage.AddIdea` and `Journal.JournalPage.AddBlocker`: the stored row is taken to be what the page sent, with the store's defaults (no solution, no resolution time).
- `Journal.JournalPage.EditSession`: the page's copy of the running session is not updated by an edit, as in the code. The invariant matches the running session by id, not by value.
