# KSPM attendance dashboard — a Dafny model

This project models the logic of the KSPM UMB attendance dashboard, an
in-memory React application. HR staff use it to schedule events and weekly
classes. The duty officer ("Penanggung Jawab Piket") uses it to record who
attended each one.

The model covers these parts:

- **The shared store.** It holds the active role, the event list, the
  weekly-class list, the attendance-record list and the fixed participant
  roster (`AppStore.Store`).
- **The catalogue of attendable occurrences.** These are the
  attendance-enabled events, followed by all weekly classes.
- **The attendance-entry screen** (`FillAttendance`). It loads one working
  row per roster participant and edits those rows: toggle, mark all
  present, change status, change check-in time. It filters the rows by
  name. Saving replaces every record of the occurrence with one record per
  row. The screen is a class over the store; its methods are specified by
  pure functions, and the lemmas are about those functions.
- **The absences report** (`Absences`). It computes per-occurrence
  present/absent counts and a percentage rounded half up, compares that
  percentage with the 75 % threshold, looks up the detail rows, and builds
  the CSV export text.
- **The event and weekly-class pages** (`Events`, `WeeklyClasses`). Their
  dialog forms create an entry with a fresh id or replace the edited entry
  in place.
- **The sidebar's role filter** (`Sidebar`).
- **The dashboard's figures** (`Dashboard`): the total count, the rounded
  mean percentage and the current-month lookup with its fallback.

## Modelling choices

- **Dates.** A JavaScript `Date` is a `Timestamp(day, time)`, the two texts
  the pages format it to (`yyyy-MM-dd`, `HH:mm`). Parsing
  `` `${day}T${time}` `` gives `Timestamp(day, time)`. Parsing a bare day
  gives that day at `"00:00"`.
- **Clock readings.** The current time of day is a parameter of type
  `Clock`, a non-empty text. The `Date.now()` value used in fresh ids is a
  text parameter `stamp`.
- **Rounding.** `Math.round(p / t * 100)` is modelled exactly as
  `(200 p + t) div (2 t)`, which is round-half-up (`Rounding.RoundHalfUp`).
- **The selected id.** It is an `Option<string>`. As in JavaScript, an
  empty id behaves like no selection wherever the source tests it for
  truthiness.
- **Absent rows are unmarked.** The entry screen disables the status
  select and the check-in input of a row that is not ticked present
  (src/pages/FillAttendance.tsx:303, 313), and unticking a row resets it to
  `Not Marked` without check-in. So an absent row, and an absent stored
  record, is always `Not Marked` with no check-in. The model makes the
  disabled inputs a precondition of `SetStatus` and `SetCheckInTime`, keeps
  the rule in the screen's invariant `Valid()`, and proves that every edit
  and every save preserves it.
- **Record fields that cannot be falsy.** A record's status is never the
  empty text, so `existing?.status || 'Not Marked'` is the record's status
  whenever there is a record.

## Model

| member | source | states |
|---|---|---|
| AppStore.Store.constructor | src/contexts/AppContext.tsx:20-24 | the store starts with the HR role and the given seed lists and roster |
| AppStore.Store.SetRole | src/contexts/AppContext.tsx:20 | switching the role changes the role and no other field |
| Types.StatusText | src/pages/Absences.tsx:100 | a status always displays as non-empty text, so the `'Not Marked'` fallback only applies when there is no record |
| Occurrences.AttendableOccurrences | src/pages/FillAttendance.tsx:44-61 | attendance-enabled events in order, then every weekly class in order; an occurrence is an event exactly in the front part; every enabled event appears and no disabled one does |
| Occurrences.FindOccurrence | src/pages/FillAttendance.tsx:64 | finds the first occurrence in catalogue order that has the id; none exactly when no occurrence has it |
| Occurrences.RecordsFor | src/pages/Absences.tsx:59 | the records kept are exactly those of the occurrence, in their stored order |
| Occurrences.FirstRecordOf | src/pages/FillAttendance.tsx:73 | the first record of the participant in list order; none exactly when there is none |
| Occurrences.PresentCount | src/pages/Absences.tsx:60 | the present count is at most the number of records, and 0 exactly when no record is present |
| Occurrences.PresentCountConcat | src/pages/Absences.tsx:60 | the present count of two lists joined is the sum of their counts |
| Occurrences.PresentCountSingle | src/pages/Absences.tsx:60 | one record counts 1 when present and 0 otherwise |
| Rounding.RoundHalfUp | src/pages/Absences.tsx:63-65 | the result is the integer nearest to num/den, with halves rounded up |
| Rounding.RoundHalfUpBounds | src/pages/Absences.tsx:63-65 | rounding a quotient that lies between two integers gives a result between them |
| Absences.Percentage | src/pages/Absences.tsx:63-65 | 0 for an empty roster; otherwise 100·present/total rounded half up; within 0..100 when present ≤ total |
| Absences.Summarize | src/pages/Absences.tsx:58-73 | present + absent = roster size; the present count is exactly the number of present records of the occurrence (0 exactly when none); the percentage is the rounded share; all values are in range when present ≤ roster |
| Absences.EventSummaries | src/pages/Absences.tsx:39-75 | one summary per attendable occurrence, in catalogue order |
| Absences.ThresholdExact | src/pages/Absences.tsx:172 | a rounded percentage reaches 75 exactly when 200·present ≥ 149·total; exactly 75 is not below the threshold |
| Absences.MeetsThreshold | src/pages/Absences.tsx:172 | a summary whose percentage is the rounded share of a non-empty roster meets the threshold exactly when 200·present ≥ 149·total |
| Absences.SummaryMeetsThreshold | src/pages/Absences.tsx:172 | an occurrence's summary on a non-empty roster meets the threshold exactly when 200·(present records) ≥ 149·(roster size) |
| Absences.SummaryExample | src/pages/Absences.tsx:58-73 | a roster of 10 with 3 present records for the occurrence reads 3 present, 7 absent, 30 %, below the threshold |
| Absences.SummaryInRange | src/pages/Absences.tsx:59-65 | with at most one record per roster participant, absences are non-negative and the percentage lies in 0..100 |
| Absences.DuplicatesOverflowSummary | src/pages/Absences.tsx:59-65 | two present records of the same participant on a one-person roster give absent = −1 and 200 % |
| Absences.LineFor | src/pages/Absences.tsx:295-320 | a detail line copies the presence, status and check-in time text of the participant's first record; without a record it is `No`, `Not Marked`, no check-in |
| Absences.SelectedEventRecords | src/pages/Absences.tsx:77-80 | nothing selected (or the empty id) gives no records; otherwise exactly the selected occurrence's records |
| Absences.DetailRows | src/pages/Absences.tsx:295-296 | one detail line per roster participant, in roster order |
| Absences.NothingSelectedShowsUnmarkedRoster | src/pages/Absences.tsx:77-80 | with nothing selected every detail line reads absent and `Not Marked` |
| Absences.CsvFields | src/pages/Absences.tsx:96-101 | four fields: the name, `Yes`/`No`, the status text, the check-in time or `-` |
| Absences.CsvRows | src/pages/Absences.tsx:95-102 | one CSV row per roster participant, in roster order |
| Absences.CsvText | src/pages/Absences.tsx:104-105 | the header line `Name,Present,Status,Check-in Time`, then one line per roster participant joined by newlines; the header alone for an empty roster |
| Absences.Export | src/pages/Absences.tsx:87-105 | nothing for an id without a summary; otherwise the CSV text of that occurrence's records |
| Absences.CsvLayout | src/pages/Absences.tsx:94-105 | when no text contains a comma or line break, splitting the export by lines and commas gives back the header and each participant's four fields |
| Absences.UnquotedCommaSplitsName | src/pages/Absences.tsx:105 | a name containing a comma breaks its CSV row into five fields, because fields are not quoted |
| FillAttendance.RowFor | src/pages/FillAttendance.tsx:72-81 | a row copies presence, status and check-in time from the participant's first record, or is absent, `Not Marked` and empty without one |
| FillAttendance.InitialRows | src/pages/FillAttendance.tsx:66-84 | exactly one row per roster participant, in roster order, each built from that occurrence's records |
| FillAttendance.UnrecordedParticipantStartsUnmarked | src/pages/FillAttendance.tsx:72-81 | a participant without a record for the occurrence starts absent, `Not Marked`, with no check-in |
| FillAttendance.MarkedPresent | src/pages/FillAttendance.tsx:94-99 | a ticked row is present, `On time`, keeps a set check-in and otherwise gets a non-empty one |
| FillAttendance.MarkedAbsent | src/pages/FillAttendance.tsx:103-115 | an unticked row is absent, `Not Marked`, with the check-in cleared |
| FillAttendance.MarkAllPresent | src/pages/FillAttendance.tsx:93-99 | every row becomes present and `On time` (overwriting `Late`); set check-ins stay, empty ones become now; same participants in the same order |
| FillAttendance.TogglePresent | src/pages/FillAttendance.tsx:103-115 | only the matching participant's rows change: on gives `On time` and keeps or fills the check-in, off gives `Not Marked` and clears it |
| FillAttendance.ChangeStatus | src/pages/FillAttendance.tsx:117-124 | only the status of the matching participant's rows changes |
| FillAttendance.ChangeCheckInTime | src/pages/FillAttendance.tsx:126-133 | only the check-in of the matching participant's rows changes |
| FillAttendance.MarkAllPresentIdempotent | src/pages/FillAttendance.tsx:93-99 | marking everyone present twice equals marking once, whatever the second clock reading |
| FillAttendance.MarkAllIsToggleOfEveryRow | src/pages/FillAttendance.tsx:93-115 | mark-all does to each row what ticking that row alone does |
| FillAttendance.ToggleOffThenOn | src/pages/FillAttendance.tsx:103-115 | unticking then ticking a participant replaces a custom check-in with the current time |
| FillAttendance.FilteredRows | src/pages/FillAttendance.tsx:86-91 | an empty query shows all rows; otherwise exactly the rows whose lower-cased name contains the lower-cased query |
| FillAttendance.FilteredRowsIsSubsequence | src/pages/FillAttendance.tsx:86-91 | the filtered rows keep the working order |
| FillAttendance.PresentRows | src/pages/FillAttendance.tsx:158 | the counter is at most the number of rows; it equals it exactly when all rows are present, and is 0 exactly when none is |
| FillAttendance.PresentRowsConcat | src/pages/FillAttendance.tsx:158 | the counter of two row lists joined is the sum of their counters |
| FillAttendance.PresentRowsSingle | src/pages/FillAttendance.tsx:158 | one row counts 1 when ticked and 0 otherwise |
| FillAttendance.MarkAllPresentCountsEveryone | src/pages/FillAttendance.tsx:158 | after mark-all the counter equals the number of rows |
| FillAttendance.NewRecords | src/pages/FillAttendance.tsx:138-147 | one record per row with id `ar-<occurrence>-<participant>` and the occurrence's kind; no check-in exactly when the row's check-in is empty, otherwise that time on the occurrence's day |
| FillAttendance.ReplaceRecordsForEvent | src/pages/FillAttendance.tsx:150-153 | the other occurrences' records in their original order, followed by exactly the new records |
| FillAttendance.ReplaceRecordsForEventEffect | src/pages/FillAttendance.tsx:150-153 | afterwards the occurrence's records are exactly the new ones, and every other occurrence's records are unchanged |
| FillAttendance.ReplaceRecordsForEventIdempotent | src/pages/FillAttendance.tsx:150-153 | replacing with the same records twice equals replacing once |
| FillAttendance.SaveRecords | src/pages/FillAttendance.tsx:135-153 | nothing changes without a selection or when the selected occurrence is not attendable; otherwise its records become the new ones and all others are unchanged |
| FillAttendance.SaveIdempotent | src/pages/FillAttendance.tsx:135-153 | saving twice equals saving once |
| FillAttendance.SaveThenSelectRestoresRows | src/pages/FillAttendance.tsx:66-84 | for a roster without repeated ids, selecting the occurrence again after a save reloads exactly the saved rows |
| FillAttendance.SavedRowReloads | src/pages/FillAttendance.tsx:72-81 | each participant's reloaded row equals the row that was saved |
| FillAttendance.SavedPresentCount | src/pages/FillAttendance.tsx:138-158 | the present count of the saved records equals the counter shown for the rows |
| FillAttendance.InitialRowsUnmarked | src/pages/FillAttendance.tsx:72-81 | rows loaded from records whose absent entries are unmarked have unmarked absent rows |
| FillAttendance.MarkAllPresentUnmarked | src/pages/FillAttendance.tsx:93-99 | after mark-all no row is absent, so the rule holds |
| FillAttendance.TogglePresentUnmarked | src/pages/FillAttendance.tsx:103-115 | unticking a row resets it to `Not Marked` without check-in, so the rule is kept |
| FillAttendance.ChangeStatusUnmarked | src/pages/FillAttendance.tsx:117-124 | a status edit of a participant whose rows are ticked (the select is disabled otherwise, line 313) keeps absent rows unmarked |
| FillAttendance.ChangeCheckInTimeUnmarked | src/pages/FillAttendance.tsx:126-133 | a check-in edit of a participant whose rows are ticked (the input is disabled otherwise, line 303) keeps absent rows unmarked |
| FillAttendance.UngatedStatusEditBreaksRule | src/pages/FillAttendance.tsx:313 | without the disabled gate, setting `Late` on an absent row breaks the rule |
| FillAttendance.NewRecordsUnmarked | src/pages/FillAttendance.tsx:138-147 | records built from rows that keep the rule keep it |
| FillAttendance.ReplaceRecordsUnmarked | src/pages/FillAttendance.tsx:148-151 | replacing an occurrence's records keeps the rule when old and new records keep it |
| FillAttendance.SaveRecordsUnmarked | src/pages/FillAttendance.tsx:135-153 | saving rows that keep the rule keeps it for the stored records |
| FillAttendance.SavedSummaryInRange | src/pages/FillAttendance.tsx:138-152 | right after a save, the occurrence's absences summary is in range (absent ≥ 0, percentage 0..100) |
| FillAttendance.AttendanceEntry.constructor | src/pages/FillAttendance.tsx:39-41 | nothing selected, empty query, no rows; the screen invariant holds given stored records whose absent entries are unmarked (as every absent seed record in src/data/mockData.ts:84-98 is) |
| FillAttendance.AttendanceEntry.SelectEvent | src/pages/FillAttendance.tsx:66-84 | the occurrence becomes selected and the rows are loaded from the store's records; the screen invariant is kept |
| FillAttendance.AttendanceEntry.Back | src/pages/FillAttendance.tsx:229 | the selection is cleared; the screen invariant is kept |
| FillAttendance.AttendanceEntry.SetSearchQuery | src/pages/FillAttendance.tsx:249 | the query is replaced; the screen invariant is kept |
| FillAttendance.AttendanceEntry.MarkAll | src/pages/FillAttendance.tsx:93-99 | the rows become `MarkAllPresent` of the old rows; still one per roster participant, absent rows unmarked |
| FillAttendance.AttendanceEntry.Toggle | src/pages/FillAttendance.tsx:103-115 | the rows become `TogglePresent` of the old rows; still one per roster participant, absent rows unmarked |
| FillAttendance.AttendanceEntry.SetStatus | src/pages/FillAttendance.tsx:117-124 | callable only on a participant whose rows are ticked (the select is disabled otherwise, line 313); the rows become `ChangeStatus` of the old rows; still one per roster participant, absent rows unmarked |
| FillAttendance.AttendanceEntry.SetCheckInTime | src/pages/FillAttendance.tsx:126-133 | callable only on a participant whose rows are ticked (the input is disabled otherwise, line 303); the rows become `ChangeCheckInTime` of the old rows; still one per roster participant, absent rows unmarked |
| FillAttendance.AttendanceEntry.Save | src/pages/FillAttendance.tsx:135-153 | only the store's record list changes, to `SaveRecords` of the old list; the screen invariant is kept, and the saved occurrence's summary has absent ≥ 0 and a percentage in 0..100 |
| Events.PrefillEventForm | src/pages/Events.tsx:62-69 | the form copies name, description, attendance flag and both dates' day and time |
| Events.BuildEvent | src/pages/Events.tsx:80-88 | the edited event's id unless it is empty, otherwise `evt-<stamp>`; every other field from the form |
| Events.SubmitEvents | src/pages/Events.tsx:90-96 | creating appends the event after the unchanged list; editing replaces every event with the edited id and keeps length and order |
| Events.PrefillSubmitRoundTrip | src/pages/Events.tsx:62-88 | opening an event with a non-empty id and submitting the unchanged form gives back the same event |
| Events.SubmitKeepsIds | src/pages/Events.tsx:81-96 | an edit keeps the list of ids; a creation appends the fresh id |
| Events.SubmitEditReplaces | src/pages/Events.tsx:91 | after an edit the new event is present and every other entry is an old entry with a different id |
| Events.EventsPage.constructor | src/pages/Events.tsx:34-44 | the dialog is closed, nothing is being edited, the form is empty with attendance on |
| Events.EventsPage.ResetForm | src/pages/Events.tsx:46-57 | the form is emptied with attendance on, and nothing is being edited |
| Events.EventsPage.OpenDialog | src/pages/Events.tsx:59-75 | the dialog opens, prefilled for an existing event and reset otherwise |
| Events.EventsPage.EditForm | src/pages/Events.tsx:132 | an input replaces the form |
| Events.EventsPage.Submit | src/pages/Events.tsx:77-100 | the store's events become `SubmitEvents` of the old list; the dialog closes and the form resets |
| WeeklyClasses.PrefillClassForm | src/pages/WeeklyClass.tsx:58-66 | the form copies name, topic, description, the date's day and both times |
| WeeklyClasses.BuildClass | src/pages/WeeklyClass.tsx:76-85 | the edited class's id unless it is empty, otherwise `wc-<stamp>`; the date is the form's day at midnight |
| WeeklyClasses.SubmitClasses | src/pages/WeeklyClass.tsx:87-93 | creating appends the class after the unchanged list; editing replaces every class with the edited id and keeps length and order |
| WeeklyClasses.PrefillSubmitRoundTrip | src/pages/WeeklyClass.tsx:58-85 | opening a class and submitting it unchanged keeps id, name, topic, description and times; the class comes back identical exactly when its date was at midnight |
| WeeklyClasses.SubmitKeepsIds | src/pages/WeeklyClass.tsx:77-93 | an edit keeps the list of ids; a creation appends the fresh id |
| WeeklyClasses.SubmitEditReplaces | src/pages/WeeklyClass.tsx:88 | after an edit the new class is present and every other entry is an old entry with a different id |
| WeeklyClasses.WeeklyClassPage.constructor | src/pages/WeeklyClass.tsx:33-42 | the dialog is closed, nothing is being edited, the form is empty |
| WeeklyClasses.WeeklyClassPage.ResetForm | src/pages/WeeklyClass.tsx:44-54 | every field is emptied and nothing is being edited |
| WeeklyClasses.WeeklyClassPage.OpenDialog | src/pages/WeeklyClass.tsx:56-71 | the dialog opens, prefilled for an existing class and reset otherwise |
| WeeklyClasses.WeeklyClassPage.EditForm | src/pages/WeeklyClass.tsx:129 | an input replaces the form |
| WeeklyClasses.WeeklyClassPage.Submit | src/pages/WeeklyClass.tsx:73-97 | the store's classes become `SubmitClasses` of the old list; the dialog closes and the form resets |
| Sidebar.VisibleItems | src/components/layout/Sidebar.tsx:40 | exactly the table entries whose roles include the current role |
| Sidebar.VisibleItemsIsOrderedSelection | src/components/layout/Sidebar.tsx:40 | the visible entries keep table order and contain no duplicates |
| Sidebar.HRSeesEverything | src/components/layout/Sidebar.tsx:29-35 | HR sees all five entries |
| Sidebar.DutyOfficerSeesOnlyFillAttendance | src/components/layout/Sidebar.tsx:29-35 | the duty officer sees only `Fill Attendance` |
| Dashboard.TotalEventsThisMonth | src/pages/Dashboard.tsx:14 | the total is events plus weekly classes, never less than the attendable catalogue |
| Dashboard.TotalCountsAttendableCatalogue | src/pages/Dashboard.tsx:14 | the total equals the attendable catalogue's size exactly when every event has attendance enabled |
| Dashboard.AverageAttendance | src/pages/Dashboard.tsx:15-17 | 0 for no summaries; otherwise the mean percentage rounded half up |
| Dashboard.AverageInRange | src/pages/Dashboard.tsx:15-17 | percentages within 0..100 average to a value within 0..100 |
| Dashboard.CurrentMonthData | src/pages/Dashboard.tsx:12 | an entry for the month when one exists, otherwise the last entry; nothing exactly for an empty series |
| Dashboard.CurrentMonthDataIsFirstMatch | src/pages/Dashboard.tsx:12 | the entry chosen for a month in the series is its first entry |

## Left out

- Rendering, layout, styling, dialog markup and toasts: these are user interface only.
- The file download in the absences export (`Blob`, object URL, anchor click) and the file name: only the CSV text is modelled, and the name depends on date formatting.
- Date formatting and parsing: a date is the pair of its day and time texts. Seconds, time zones and malformed date or time input are not modelled. In particular, `new Date('yyyy-MM-dd')` is taken to be that day at midnight, with no time-zone shift.
- `Date.now()` and the current time are parameters. Nothing in the model shows that two `evt-`/`wc-` ids drawn at different moments differ.
- The locale month name used by the dashboard lookup is a parameter.
- Absences.Percentage: floating-point `Math.round` is modelled exactly as round-half-up on rationals. Float drift at exact halves is not captured.
- Dashboard.AverageAttendance: floating-point `Math.round` is modelled exactly as round-half-up on rationals, and percentages are integers.
- FillAttendance.FilteredRows: `toLowerCase` is modelled on ASCII letters only. Non-ASCII case folding is not modelled.
- The `type` tag of events and weekly classes is fixed by the datatype, so "a submitted event has type `event`" holds by construction.
- The dialog-open flag of the absences report and its view handler are not modelled; they only control visibility.
- The individual attendance report renders a fixed list of seed values, with nothing computed, so it is not modelled. The seed data itself is not modelled; the screen only assumes of the stored records the rule every absent seed record obeys (`Not Marked`, no check-in).
- The React context provider, and the error `useApp` raises outside it, are not modelled. The store is a plain class.
- The chart component and the remaining fixed dashboard cards (the participant count) are not modelled; they only display values.
- Events.EventsPage.EditForm and WeeklyClasses.WeeklyClassPage.EditForm: the per-input change handlers are merged into one replacement of the whole form.
- The `required` attribute on the form inputs is browser-side validation. Submitting with empty fields is allowed in the model.
