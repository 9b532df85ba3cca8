# 8sched in Dafny

8sched is a school timetable site. Students look up the week of one class,
teachers look up the lessons behind one or more teacher codes, and an admin
edits the schedule grid and the teacher list. A few Cloudflare Pages
functions serve the Schedules and Teachers tables of a D1 database, and a
middleware guards them with a session cookie.

This project models the logic at the core of that site and proves what it
promises:

- the day split of the timetable rows and the three ways the views merge
  consecutive rows into blocks: by class (`StudentSchedule`), by teacher code
  (`TeacherSchedule`) and in the legacy viewer (`ScheduleViewer`). All three
  are proved to cut the rows into the same kind of runs (`Runs`, `DaySplit`);
- code classification, code validation and the duration label (`Utils`);
- the card logic: "is now", the time icon, and subject and name formatting
  (`ScheduleItems`);
- the pages' selection state and their keyboard shortcuts (`StudentRoute`,
  `TeacherRoute`, `UserStudentRoute`, `UserTeacherRoute`, `Shortcuts`);
- the admin schedule grid and its editor (`SchedulesTable`, `AdminSchedules`);
- the admin teacher table and its editor (`TeachersTable`, `AdminTeachers`);
- the objects and `Map`s those editors keep, with JavaScript's ordering of
  keys (`JsCollections`);
- the server side: the summary counts (`SummaryApi`), GET and the COALESCE
  batch of PUT on schedules (`SchedulesApi`), the teacher batch endpoint
  (`TeachersBatchApi`) and the access rule of the middleware (`Middleware`).

Loops in the source are methods with loop invariants, proved against
functions that specify them. State the source updates in place is a class
whose methods say what the new state is. The JavaScript built-ins the code
relies on are modelled in `Base`, `Text` and `Sorting`. The schedule and
teacher records are in `Records`.

## Model

| member | source | states |
|---|---|---|
| Utils.LettersDigitsIff | src/lib/utils.ts:29-46 | the scanner for "one or more upper-case letters, then between `lo` and `hi` digits" accepts a string exactly when it splits into such letters and digits, so it matches `/^[A-Z]+[0-9]*$/` and `/^[A-Z]+[0-9]{1,2}$/` |
| Utils.TeacherAndReserved | src/lib/utils.ts:25-57 | "Z0" is the only code that is both a teacher code and reserved; every teacher code is letters followed by digits |
| Utils.LowerCaseNotTeacherCode | src/lib/utils.ts:25-30 | a string containing a lower-case letter is never a teacher code (the check is case-sensitive) |
| Utils.CodeBagSize | src/lib/utils.ts:32-40 | the trimmed, non-blank codes number exactly the teachers with a non-blank code |
| Utils.GetCodeCounts | src/lib/utils.ts:32-40 | the loop's dictionary maps each trimmed, non-blank code to the number of teachers that have it, and holds no other key |
| Utils.ValidateCode | src/lib/utils.ts:42-51 | the result is null exactly when the trimmed code is non-blank, is letters followed by one or two digits, and occurs at most once among the teachers' codes |
| Utils.ValidCodeClassified | src/lib/utils.ts:25-57 | a code that passes validation is a teacher code or a reserved code, and both only when it is "Z0" |
| Utils.HourMinuteOf | src/lib/utils.ts:10-11 | splitting "a:b" at the colon and converting with `Number` gives the two numbers |
| Utils.GetDuration | src/lib/utils.ts:9-23 | the label built step by step is `DurationLabel` of the minutes between the two times |
| Utils.LabelAssembled | src/lib/utils.ts:16-22 | the appended pieces leave "()" only for a NaN span, and otherwise make up the label |
| Utils.DurationLabelRoundTrip | src/lib/utils.ts:9-23 | the label is "" exactly for a NaN or non-positive span, is never "()", and reading the hours and minutes back out of it gives the span |
| DaySplit.CellValue | src/hooks/useStudentSchedule.ts:35 | a column's cell is found exactly when some cell carries that column, and the value is that cell's |
| DaySplit.SplitIntoDays | src/hooks/useStudentSchedule.ts:13-23 | the loop with its pending day returns `SplitDays` of the rows |
| DaySplit.SplitDaysFlatten | src/hooks/useStudentSchedule.ts:13-23 | joining the days back together gives the rows: no row is lost, repeated or reordered |
| DaySplit.SplitDaysShape | src/hooks/useStudentSchedule.ts:16-23 | every day is non-empty, every day after the first begins with a "06:30" row, and no "06:30" row appears later in a day |
| DaySplit.SplitDaysIsDaySplit | src/hooks/useStudentSchedule.ts:13-23 | the split is a lossless cut of the rows into non-empty days that begin exactly at the "06:30" rows |
| DaySplit.DaySplitUnique | src/hooks/useStudentSchedule.ts:13-23 | any lossless cut into non-empty days beginning exactly at the "06:30" rows is the split itself |
| DaySplit.DayRowsEmpty | src/hooks/useStudentSchedule.ts:26 | the selected day has no rows exactly when its name is not a weekday or its index is past the last day in the data |
| StudentSchedule.Items | src/hooks/useStudentSchedule.ts:35-41 | each row is tagged by the class's cell, takes part when that cell is non-empty, and forces a new block when its period is empty |
| StudentSchedule.UseStudentSchedule | src/hooks/useStudentSchedule.ts:10-59 | the hook's split, day lookup and merging loop return `StudentSchedule`: no blocks without data, else the blocks of the unique maximal-run partition of the day's rows |
| StudentSchedule.OpenStep | src/hooks/useStudentSchedule.ts:37-49 | a row that opens a block closes the open one and keeps the loop invariant: closed blocks plus the open one are the blocks of the rows seen |
| StudentSchedule.ExtendStep | src/hooks/useStudentSchedule.ts:50-53 | a row of the open block's code with a non-empty period moves the block's end time and end period and keeps the loop invariant |
| StudentSchedule.SkipStep | src/hooks/useStudentSchedule.ts:35-36 | a row with an empty cell keeps the loop invariant unchanged |
| StudentSchedule.StudentBlocksArePartitionBlocks | src/hooks/useStudentSchedule.ts:32-55 | the blocks are those of any partition of the non-empty rows into maximal runs of one code, cut before each row with an empty period |
| StudentSchedule.BlockCodesNonEmpty | src/hooks/useStudentSchedule.ts:35-36 | no block shows an empty code |
| StudentSchedule.RowInBlock | src/hooks/useStudentSchedule.ts:32-55 | every row with a non-empty cell lies within a block that shows that cell |
| StudentSchedule.SameCodeOnlyAfterBreak | src/hooks/useStudentSchedule.ts:37-41 | two neighbouring blocks with one code occur only when the second starts at a row with an empty period |
| StudentSchedule.BlockEnds | src/hooks/useStudentSchedule.ts:47-51 | a block ends at the next block's start time when the row after it has a cell, and the day's last block ends at "Selesai" with the last row's period when that row has a cell |
| StudentSchedule.NoDayNoBlocks | src/hooks/useStudentSchedule.ts:11-26 | no data, a day name outside the week, or a day past the data gives no blocks |
| StudentSchedule.Example | src/hooks/useStudentSchedule.ts:37-55 | two periods of one subject followed by another subject give two blocks: the first ends when the third row starts, the second ends at "Selesai" |
| Runs.SpansOfPartitions | src/hooks/useStudentSchedule.ts:32-55 | the left-to-right scan yields a partition of the kept slots into ordered, disjoint, maximal unbroken runs |
| Runs.PartitionsUnique | src/hooks/useStudentSchedule.ts:32-55 | any partition meeting that description is the scan's result |
| Runs.PartitionsIff | src/hooks/useStudentSchedule.ts:32-55 | being such a partition and being the scan's result are the same |
| Runs.Tiles | src/hooks/useTeacherSchedule.ts:44-73 | when every slot takes part, the runs tile the slots from first to last and neighbouring runs without a forced break carry different tags |
| Runs.OwnerTag | src/hooks/useStudentSchedule.ts:37-53 | every kept slot lies in a run whose first slot carries its tag |
| Runs.OwnerUnique | src/hooks/useStudentSchedule.ts:32-55 | a slot lies in at most one run |
| Runs.NextSpanStarts | src/hooks/useStudentSchedule.ts:37-49 | when the slot after a run is kept, the next run starts at it |
| Runs.LastSpanEnds | src/hooks/useStudentSchedule.ts:55 | when the last slot is kept, the last run ends at it |
| TeacherSchedule.FindMatch | src/hooks/useTeacherSchedule.ts:30-31 | no match exactly when no class cell holds one of the codes; otherwise the match is the first such cell in column order |
| TeacherSchedule.TagRows | src/hooks/useTeacherSchedule.ts:29-39 | one tagged slot per row, in order, each carrying the class and code of its first matching cell or none for a gap |
| TeacherSchedule.Items | src/hooks/useTeacherSchedule.ts:44-51 | every slot takes part in the grouping, tagged by its class and code, and none forces a break |
| TeacherSchedule.Prune | src/hooks/useTeacherSchedule.ts:75 | the kept blocks are exactly the blocks whose code and class are both non-empty, and there are no more of them than before |
| TeacherSchedule.PruneIsFilter | src/hooks/useTeacherSchedule.ts:75 | the pruned list is `filter` of the lessons: they keep their order and their repeats |
| TeacherSchedule.UseTeacherSchedule | src/hooks/useTeacherSchedule.ts:10-76 | the hook's split, tagging, merging loop and pruning return `TeacherSchedule`: nothing without data or codes, else the lessons among the merged blocks of the day |
| TeacherSchedule.OpenStep | src/hooks/useTeacherSchedule.ts:47-67 | a slot whose class or code differs from the open block's closes it and keeps the loop invariant |
| TeacherSchedule.ExtendStep | src/hooks/useTeacherSchedule.ts:68-71 | a slot with the open block's class and code moves its end time and end period and keeps the loop invariant |
| TeacherSchedule.TeacherBlocksArePartitionBlocks | src/hooks/useTeacherSchedule.ts:44-73 | the merged blocks are those of any partition of the slots into maximal runs of one class and code |
| TeacherSchedule.TeacherBlocksTile | src/hooks/useTeacherSchedule.ts:44-73 | before pruning the blocks tile the day: the first starts at the first slot, each ends when the next starts, the last ends at "15:00" with the last slot's period, and neighbours differ in class or code |
| TeacherSchedule.ShownBlocksAreLessons | src/hooks/useTeacherSchedule.ts:29-75 | every block shown has a non-empty code that is one of the teacher's codes, under a non-empty class column that is neither "time" nor "period" |
| ScheduleViewer.Items | src/ScheduleViewer.tsx:136-141 | every slot takes part, tagged by its `Class_<letter>` field, and a slot with an empty period forces a new block |
| ScheduleViewer.SplitSchedules | src/ScheduleViewer.tsx:106-125 | the `forEach` that closes a non-empty day at each "06:30" slot returns `SplitDays`, the same lossless cut as the hooks' splitter |
| ScheduleViewer.CombineSchedule | src/ScheduleViewer.tsx:128-161 | the merging loop returns the blocks of the unique maximal-run partition of the day's slots |
| ScheduleViewer.MergeSlot | src/ScheduleViewer.tsx:133-153 | one pass of the loop body keeps the invariant that the closed blocks plus the open one are the blocks of the slots seen |
| ScheduleViewer.ComputeCombinedSchedule | src/ScheduleViewer.tsx:105-164 | the memo returns no blocks without data, else the blocks of the selected day, looked up by the day's index in the week |
| ScheduleViewer.CombinedBlocksArePartitionBlocks | src/ScheduleViewer.tsx:128-161 | the blocks are those of any partition of the slots into maximal runs of one class value, cut before each empty period |
| ScheduleViewer.CombinedBlocksTile | src/ScheduleViewer.tsx:132-158 | the blocks tile the day: the first copies the first slot, each ends when the next starts, the last ends at "Selesai" with the last period, and a block with its predecessor's class value starts at an empty period |
| ScheduleViewer.ClassesAreLetters | src/ScheduleViewer.tsx:16 | the class names are exactly the single capital letters A to J |
| ScheduleViewer.DigitKeySelectsDay | src/ScheduleViewer.tsx:35-40 | keys "1" to "5" select Monday to Friday and keep the class |
| ScheduleViewer.LetterKeySelectsClass | src/ScheduleViewer.tsx:42-45 | a letter from a to j in either case selects that class and keeps the day |
| ScheduleViewer.OtherKeyKeepsSelection | src/ScheduleViewer.tsx:33-46 | any other single key changes neither the day nor the class |
| ScheduleItems.ClockMinutes | src/components/student-schedule-item.tsx:157-166 | a time has minutes exactly when both its hour and minute fields are numbers |
| ScheduleItems.MinutesOf | src/components/student-schedule-item.tsx:165-166 | the minutes are `h * 60 + m` when both fields are numbers, and `NaN` otherwise |
| ScheduleItems.SundayMatchesUnknownDay | src/components/student-schedule-item.tsx:161-170 | as written, on a Sunday a card whose day is not one of the weekday tabs counts as running throughout its hours, which the corrected test never does |
| ScheduleItems.SundayExample | src/components/teacher-schedule-item.tsx:190-199 | as written, a card without a day from "HH:00" to the next hour runs at HH:00 on a Sunday |
| ScheduleItems.IsNowMeans | src/components/student-schedule-item.tsx:160-170 | with Sunday mapped to index 6, a card runs exactly on its own weekday, Monday to Friday, from its start time up to but excluding its end time |
| ScheduleItems.BackToBackRows | src/components/teacher-schedule-item.tsx:196-199 | two cards where one ends when the next starts never both run at once |
| ScheduleItems.GetTimeIconOf | src/components/schedule-item.tsx:129-134 | an hour before 10 gets the sunrise, before 15 the sun, and any later hour the moon |
| ScheduleItems.GetTimeIconNaN | src/components/student-schedule-item.tsx:135-142 | a time whose hour is not a number gets the moon |
| ScheduleItems.IsRegularClassOf | src/components/student-schedule-item.tsx:154 | a numbered period is a lesson |
| ScheduleItems.LetterPeriodNotRegular | src/components/teacher-schedule-item.tsx:187 | a period that starts with a letter is not a lesson |
| ScheduleItems.NotRegularClasses | src/components/schedule-item.tsx:145 | "Istirahat", "Selesai" and the empty period are not lessons |
| ScheduleItems.TeacherCard | src/components/teacher-schedule-item.tsx:225-307 | the teacher card shows the period numbers (with the end period only when it differs) exactly for a numbered period that is not the break; its heading is the class exactly for such a row with a non-empty class, and otherwise the class or "-"; the teacher line is shown exactly when the row is not the break |
| ScheduleItems.BreakCardMeans | src/components/teacher-schedule-item.tsx:202 | a card is the break (a coffee cup in the panel, the "Istirahat" heading, no teacher line) exactly when its class is "Istirahat" or its code is "ISTIRAHAT", whatever its period |
| ScheduleItems.LessonCardShowsClass | src/components/teacher-schedule-item.tsx:225-269 | a numbered lesson under a real class shows its period and class, unless its code is "ISTIRAHAT", which turns it into the break |
| ScheduleItems.SubjectStyle | src/components/student-schedule-item.tsx:129-133 | the scheme is always a key of the table: the subject's own in lower case when the table has it, else "default", and "default" for a missing or empty subject |
| ScheduleItems.SubjectStyleIgnoresCase | src/components/schedule-item.tsx:123-127 | a subject in capitals gets the same scheme as the subject itself |
| ScheduleItems.ClassStyle | src/components/teacher-schedule-item.tsx:161-166 | the scheme is always a key of the table: the class's own when the table has it, else "default" |
| ScheduleItems.FormatSubject | src/components/schedule-item.tsx:136-141 | "PPKN", "PJOK" and "PKWU" in any case come out in capitals, every other subject in lower case |
| ScheduleItems.FormatSubjectCanonical | src/components/schedule-item.tsx:136-141 | the result depends only on the letters, not their case, and formatting twice changes nothing |
| ScheduleItems.TeacherNameTextOf | src/components/schedule-item.tsx:218-219 | a name "surname,titles" is shown as the surname in lower case, a comma and the titles as written |
| ScheduleItems.TeacherNameTextDropsRest | src/components/schedule-item.tsx:218-219 | anything after a second comma is not shown |
| ScheduleItems.TeacherNameTextNoComma | src/components/schedule-item.tsx:218-219 | a name without a comma is shown in lower case followed by a bare comma |
| StudentRoute.LocalStorage.GetItem | src/routes/student.lazy.tsx:68 | the stored value is returned exactly when the key is present, and `null` otherwise |
| StudentRoute.LocalStorage.Clear | src/routes/student.lazy.tsx:76-82 | the storage is left empty |
| StudentRoute.LocalStorage.SetItem | src/routes/student.lazy.tsx:77-83 | the key now holds the value and every other key is unchanged |
| StudentRoute.SyncCommitHash | src/routes/student.lazy.tsx:67-87 | the effect leaves the storage as `HashSynced` of the old storage and the current hash |
| StudentRoute.HashSyncedMeans | src/routes/student.lazy.tsx:67-87 | the storage always ends holding the current hash; it is left alone exactly when it already held that non-empty hash, is otherwise cleared down to that one key, and a second run changes nothing |
| StudentRoute.DefaultDay | src/routes/student.lazy.tsx:93-96 | the day starts as today's name from Monday to Friday and as "Senin" on any other day, always a weekday name |
| StudentRoute.DayKeys | src/routes/student.lazy.tsx:114-119 | keys "1" to "5" select Monday to Friday by name, and a key that names something, such as "ArrowUp", leaves the day alone |
| StudentRoute.ClassKeys | src/routes/student.lazy.tsx:121-130 | over a list without repeats ArrowUp selects the next class, wrapping from the last to the first, ArrowDown the previous one; from an unlisted class ArrowUp selects the first class and ArrowDown the one before the last |
| StudentRoute.StudentPage.constructor | src/routes/student.lazy.tsx:32-96 | the page starts with the thirty classes, the stored class or "X-A", and the stored day or today's name |
| StudentRoute.StudentPage.HandleClassChange | src/routes/student.lazy.tsx:102-104 | the class becomes the chosen one and the day is unchanged |
| StudentRoute.StudentPage.HandleDayChange | src/routes/student.lazy.tsx:106-108 | the day becomes the chosen one and the class is unchanged |
| StudentRoute.StudentPage.HandleKeyPress | src/routes/student.lazy.tsx:111-131 | the day and class after a key are `DayAfterKey` and `ClassAfterKey` of the old ones |
| TeacherRoute.Keys | src/routes/teacher.lazy.tsx:36 | the names of the map, one per entry, in order |
| TeacherRoute.CodesOf | src/routes/teacher.lazy.tsx:48 | the codes under a name in the map, and none for a name not in it |
| TeacherRoute.BuildTeacherMap | src/routes/teacher.lazy.tsx:25-33 | the `forEach` over the teachers builds `TeacherMapOf` of the teachers, and the empty map without data |
| TeacherRoute.TeacherMapOfMeans | src/routes/teacher.lazy.tsx:25-36 | the map's names are the teachers' names without repeats in first-seen order, and under each name are exactly the codes of the teachers with that name, in order |
| TeacherRoute.AddTeacherMeans | src/routes/teacher.lazy.tsx:29-30 | one step appends a new name at the end and grows only that name's codes, by the teacher's code |
| TeacherRoute.DefaultTeacherIsFirst | src/routes/teacher.lazy.tsx:37 | the selection starts at the first teacher's name, or empty when there are no teachers |
| UserStudentRoute.ClassKeys | src/routes/_user/student.lazy.tsx:72-82 | from a listed class the class keys land on a listed class, ArrowDown undoes ArrowUp, and other keys keep the class |
| UserStudentRoute.StudentPage.constructor | src/routes/_user/student.lazy.tsx:32-41 | the page starts with the stored class or "X-A", and the stored day index or today's weekday clamped to 0..4 |
| UserStudentRoute.StudentPage.HandleClassChange | src/routes/_user/student.lazy.tsx:45-47 | the class becomes the chosen one and the day is unchanged |
| UserStudentRoute.StudentPage.HandleDayChange | src/routes/_user/student.lazy.tsx:49-52 | the day index becomes `Number` of the tab's value and the class is unchanged |
| UserStudentRoute.StudentPage.HandleKeyPress | src/routes/_user/student.lazy.tsx:56-83 | the day index and class after a key are `DayIndexAfterKey` and `ClassAfterKey` of the old ones |
| UserTeacherRoute.UniqueTeacherNames | src/routes/_user/teacher.lazy.tsx:36-40 | the names are strictly increasing and are exactly the teachers' names, none without data |
| UserTeacherRoute.UniqueTeacherNamesCanonical | src/routes/_user/teacher.lazy.tsx:36-40 | any strictly increasing list of exactly the teachers' names is that list, so row order and repeated names do not change it |
| UserTeacherRoute.DefaultSelection | src/routes/_user/teacher.lazy.tsx:46-50 | with names and an empty or missing selection the first name is selected, otherwise the selection is kept |
| UserTeacherRoute.DefaultSelectionSettles | src/routes/_user/teacher.lazy.tsx:46-50 | a second run of the effect changes nothing, and once names exist the selection is one of them or was chosen before |
| UserTeacherRoute.TeacherKeys | src/routes/_user/teacher.lazy.tsx:105-117 | over the unique names ArrowDown undoes ArrowUp and back, and with no names both select `undefined` |
| UserTeacherRoute.TeacherPage.constructor | src/routes/_user/teacher.lazy.tsx:43-56 | the page starts with no names, the empty selection, and the stored day index or today's weekday clamped to 0..4 |
| UserTeacherRoute.TeacherPage.TeachersLoaded | src/routes/_user/teacher.lazy.tsx:36-50 | new data recomputes the names and runs the default-selection effect; the day is unchanged |
| UserTeacherRoute.TeacherPage.HandleTeacherChange | src/routes/_user/teacher.lazy.tsx:58-60 | the name becomes the chosen one; names and day are unchanged |
| UserTeacherRoute.TeacherPage.HandleDayChange | src/routes/_user/teacher.lazy.tsx:62-64 | the day index becomes `Number` of the value; names and selection are unchanged |
| UserTeacherRoute.TeacherPage.HandleKeyPress | src/routes/_user/teacher.lazy.tsx:88-121 | the day index and name after a key are `DayIndexAfterKey` and `TeacherAfterKey` of the old ones; the names are unchanged |
| Shortcuts.DigitKeyIndex | src/routes/_user/student.lazy.tsx:58-63 | a key picks an index only when it lies between "1" and "5", and the index is in range |
| Shortcuts.DigitKeys | src/routes/_user/teacher.lazy.tsx:91-96 | a digit key from "1" to "5" picks its index when the week has that many days, and a named key such as "ArrowUp" picks none |
| Shortcuts.DigitKeyPicks | src/routes/_user/teacher.lazy.tsx:91-96 | a digit key from "1" to "5" picks its index when the week has that many days |
| Shortcuts.NamedKeyPicksNothing | src/routes/_user/teacher.lazy.tsx:91 | a key that names something sorts after "5" and picks no day |
| Shortcuts.KeyDayIndex | src/routes/_user/teacher.lazy.tsx:91-104 | the day-index steps of the signed-in handlers give `DayIndexAfterKey` of the key and the old index |
| Shortcuts.StepItem | src/routes/_user/teacher.lazy.tsx:106-117 | the arrow-key step through a list gives the next item forwards and the previous item backwards |
| Shortcuts.JsRem | src/routes/_user/student.lazy.tsx:66-69 | JavaScript's `%`: `NaN` for a zero divisor, else a remainder smaller than the divisor with the sign of the dividend, equal to it below the divisor and one divisor less up to twice it |
| Shortcuts.PrevDay | src/routes/_user/student.lazy.tsx:65-67 | `NaN` stays `NaN`; from any index above minus the week's length the result lies in the week |
| Shortcuts.NextDay | src/routes/_user/student.lazy.tsx:68-70 | `NaN` stays `NaN`; from any index from -1 up the result lies in the week |
| Shortcuts.DayArrows | src/routes/_user/student.lazy.tsx:64-71 | ArrowLeft steps to the previous day, wrapping from Monday to Friday, and ArrowRight to the next, wrapping from Friday to Monday |
| Shortcuts.DayArrowsUndo | src/routes/_user/student.lazy.tsx:64-71 | ArrowRight undoes ArrowLeft and back |
| Shortcuts.Position | src/routes/_user/student.lazy.tsx:73 | `indexOf` of the selection: -1 exactly for `undefined` or an unlisted value, else an index holding it |
| Shortcuts.PrevItem | src/routes/_user/student.lazy.tsx:74-77 | with items the previous-item key always selects one of them, and `undefined` for an empty list |
| Shortcuts.NextItem | src/routes/_user/student.lazy.tsx:78-81 | with items the next-item key always selects one of them, and `undefined` for an empty list |
| Shortcuts.ItemArrows | src/routes/_user/student.lazy.tsx:72-82 | over a list without repeats the keys step to the neighbouring item, wrapping at both ends |
| Shortcuts.ItemArrowsUndo | src/routes/_user/teacher.lazy.tsx:105-117 | over a list without repeats the two item keys undo each other |
| Shortcuts.UnlistedItemArrows | src/routes/_user/student.lazy.tsx:73-81 | from an unlisted selection the next-item key selects the first item and the previous-item key the one before the last |
| Shortcuts.DayIndexKeysStayInRange | src/routes/_user/teacher.lazy.tsx:89-104 | no key takes a day index in the week out of the week |
| Shortcuts.DayIndexKeys | src/routes/_user/teacher.lazy.tsx:89-104 | keys "1" to "5" select Monday to Friday, ArrowLeft steps back a day wrapping to Friday, and ArrowRight undoes it |
| Shortcuts.DefaultDayIndex | src/routes/_user/teacher.lazy.tsx:52 | today's weekday as a tab index, clamped to 0..4: Monday to Friday map to 0 to 4, Sunday to 0 and Saturday to 4 |
| TeachersTable.NewFirstSorted | src/components/admin/teachers-table.tsx:26-40 | the sorted copy holds the same rows, each as often; no existing row comes before a new one (id at most zero); and the new rows, and the existing rows, each keep their order, as the stable sort with that comparator does |
| TeachersTable.CodeErrorMeans | src/components/admin/teachers-table.tsx:85-94 | a row's code message is empty exactly when `validateCode` accepts the code and, for a new row, the code is not reserved; a new row with a reserved code is told "This code is reserved" |
| TeachersTable.CodeErrorMessages | src/components/admin/teachers-table.tsx:85-94 | a row's code message is empty or one of the four fixed messages |
| TeachersTable.ValidateCodeMessages | src/lib/utils.ts:42-51 | `validateCode` answers null or one of its three non-empty messages |
| TeachersTable.AllValidIffNoErrors | src/routes/admin/teachers.lazy.tsx:82-87 | saving is allowed exactly when the list is non-empty and every row has a name, a subject and no message under its code |
| TeachersTable.DisabledMeans | src/components/admin/teachers-table.tsx:118-120 | outside a save a new row is always editable, and among existing rows holding a teacher code only the one with "Z0" is locked |
| SchedulesTable.NullNotTeacherCode | src/components/admin/schedules-table.tsx:29-30 | a record with a null code never counts as holding a teacher code |
| SchedulesTable.GroupSchedulesByTimeSlot | src/components/admin/schedules-table.tsx:15-20 | the keys are the records' slots without repeats, in first-seen order; every key has a group and every group a key; each group is exactly that slot's records, in input order |
| SchedulesTable.AddToGroup | src/components/admin/schedules-table.tsx:16-18 | one `reduce` step keeps the accumulator the grouping of the records seen so far |
| SchedulesTable.OfSlotAppend | src/components/admin/schedules-table.tsx:15-20 | grouping distributes over concatenation, so every group keeps the input order |
| SchedulesTable.GroupHoldsEachRecordOnce | src/components/admin/schedules-table.tsx:15-20 | a record is in its own slot's group as often as in the input, and in no other group |
| SchedulesTable.TimeSlotsSorted | src/components/admin/schedules-table.tsx:111 | the grid's rows are the slots that occur, strictly increasing, whatever order the keys were inserted in |
| SchedulesTable.GetPeriodMap | src/components/admin/schedules-table.tsx:22-35 | the loop builds the period map of the given slots |
| SchedulesTable.PeriodMapEntries | src/components/admin/schedules-table.tsx:22-35 | every slot is a key of the period map, and a slot's entry is its running period number when it holds a teacher code, null otherwise |
| SchedulesTable.PeriodsConsecutive | src/components/admin/schedules-table.tsx:22-35 | period numbers increase strictly down the slots, lie between 1 and the number of slots holding a teacher code, and every number in that range is used |
| SchedulesTable.GetTeacherCodeCounts | src/components/admin/schedules-table.tsx:37-45 | each code's count is how many records of the slot hold it as a teacher code; codes held by none are absent |
| SchedulesTable.BagCountsHolders | src/components/admin/schedules-table.tsx:37-45 | a teacher code's count is the number of records holding it |
| SchedulesTable.HoldersShared | src/components/admin/schedules-table.tsx:74 | a code a record holds is counted more than once exactly when another record of the slot holds it too |
| SchedulesTable.HoldersPositive | src/components/admin/schedules-table.tsx:41 | a code is counted at all exactly when some record holds it |
| SchedulesTable.ConflictShared | src/components/admin/schedules-table.tsx:71-75 | a cell is in conflict exactly when it holds a teacher code other than "Z0" that another record of the same slot also holds |
| SchedulesTable.FindByClass | src/components/admin/schedules-table.tsx:152 | `find` by class returns the first record of that class, and returns nothing exactly when none has it |
| SchedulesTable.FindTeacher | src/components/admin/schedules-table.tsx:93 | `find` by code returns the first teacher with that code, so when two teachers share a code the grid shows the earlier one; it returns nothing exactly when none has the code |
| SchedulesTable.GetButtonProps | src/components/admin/schedules-table.tsx:57-98 | no record gives a disabled "-" outline button; otherwise the button is marked changed exactly when the record's id is known and its code differs from the original, is red exactly for a null code or a conflict, and is disabled exactly for a non-null code that is not a teacher code, or while saving |
| SchedulesTable.ButtonLabels | src/components/admin/schedules-table.tsx:83-96 | a null code shows "NULL", "Z0" shows "Empty", a teacher code shows itself, and any other code is disabled and shows the name of the teacher with that code, or the code when there is none |
| AdminSchedules.OfDay | src/routes/admin/schedules.lazy.tsx:81 | the records kept are exactly those of the given day, in their order (it is `Base.Filter` on the day), never more than there were |
| AdminSchedules.BaseOf | src/routes/admin/schedules.lazy.tsx:78-83 | the day's records are exactly the loaded records of that day, and none when nothing was loaded |
| AdminSchedules.FilteredShape | src/routes/admin/schedules.lazy.tsx:85-95 | with no edits the grid shows the day's records as they are; otherwise every record keeps its place and id, an edited one is replaced by its edit, and edits of other ids follow in order |
| AdminSchedules.BuildOriginals | src/routes/admin/schedules.lazy.tsx:98-104 | the `forEach` records `OriginalCodesOf` the day's records |
| AdminSchedules.OriginalCodesKeys | src/routes/admin/schedules.lazy.tsx:99-102 | exactly the ids of the day's records have an original code |
| AdminSchedules.OriginalCodesLast | src/routes/admin/schedules.lazy.tsx:100-102 | the original code under an id is that of the last record with that id |
| AdminSchedules.ChangesOf | src/routes/admin/schedules.lazy.tsx:182-190 | the changes are exactly the edits with a non-zero id, a known original code and a different code |
| AdminSchedules.RechosenIsNoChange | src/routes/admin/schedules.lazy.tsx:185-187 | an edit that chooses the record's original code again is not a change |
| AdminSchedules.SubmittedEditsMeans | src/routes/admin/schedules.lazy.tsx:150-160 | a submit with a record and a non-empty code files that record with that code under its id and leaves every other id alone; without both the edits stay as they were; edits stay filed under their own ids |
| AdminSchedules.SchedulesEditor.constructor | src/routes/admin/schedules.lazy.tsx:36-51 | the page opens on "Senin" with no edits, no selection, both dialogs closed, and the original codes of Monday's records |
| AdminSchedules.SchedulesEditor.SyncOriginals | src/routes/admin/schedules.lazy.tsx:98-104 | the effect records the original codes of the day's records and changes nothing else |
| AdminSchedules.SchedulesEditor.ChangeDay | src/routes/admin/schedules.lazy.tsx:132-134 | with unsaved changes the day cannot change; otherwise the day changes and the new day's original codes are recorded |
| AdminSchedules.SchedulesEditor.HandleCellClick | src/routes/admin/schedules.lazy.tsx:136-140 | the dialog opens on the clicked cell's record, with its code chosen, or with nothing for an empty cell |
| AdminSchedules.SchedulesEditor.ChooseCode | src/routes/admin/schedules.lazy.tsx:42-44 | the chosen code becomes the given one and nothing else changes |
| AdminSchedules.SchedulesEditor.HandleDialogOpenChange | src/routes/admin/schedules.lazy.tsx:142-148 | the dialog takes the new state, and closing it clears the selection |
| AdminSchedules.SchedulesEditor.HandleSubmit | src/routes/admin/schedules.lazy.tsx:150-164 | the edits become `SubmittedEdits` of the old ones, the dialog closes and the selection is cleared |
| AdminSchedules.SchedulesEditor.HandleSave | src/routes/admin/schedules.lazy.tsx:166-174 | without changes the edits are dropped; with changes the confirmation opens and the recap counts them |
| AdminSchedules.SchedulesEditor.HandleConfirmSave | src/routes/admin/schedules.lazy.tsx:176-179 | the confirmation closes and the request body is exactly the changes |
| AdminSchedules.SchedulesEditor.SaveSucceeded | src/routes/admin/schedules.lazy.tsx:120-124 | after a successful save the reloaded records replace the data, the edits are dropped and the day's original codes are recorded again |
| AdminSchedules.SchedulesEditor.Discard | src/routes/admin/schedules.lazy.tsx:319-321 | the edits are dropped and nothing else changes |
| AdminSchedules.EditsById | src/routes/admin/schedules.lazy.tsx:156-159 | the edited records have distinct ids and are exactly the records filed under their own ids |
| AdminSchedules.NoEditsNoChanges | src/routes/admin/schedules.lazy.tsx:192-196 | with no edits there are no unsaved changes |
| AdminTeachers.ShownOf | src/routes/admin/teachers.lazy.tsx:66-80 | the listed teachers never include a removed id |
| AdminTeachers.ShownShape | src/routes/admin/teachers.lazy.tsx:66-80 | the page lists only loaded or edited teachers; every edit whose id is not removed is listed, and so is every loaded teacher that is neither edited nor removed |
| AdminTeachers.MinId | src/routes/admin/teachers.lazy.tsx:92 | `Math.min(0, …ids)` is at most 0 and at most every id, and is 0 or one of the ids |
| AdminTeachers.NewTeacherId | src/routes/admin/teachers.lazy.tsx:92-93 | a new row's id is negative and below the id of every listed teacher |
| AdminTeachers.NewIdUnlisted | src/routes/admin/teachers.lazy.tsx:92-93 | a new row's id is the id of no listed teacher |
| AdminTeachers.FindById | src/routes/admin/teachers.lazy.tsx:172 | `find` by id returns the first loaded teacher with that id, and returns nothing exactly when no loaded teacher has it |
| AdminTeachers.ChangesOf | src/routes/admin/teachers.lazy.tsx:165-181 | the added rows are exactly the edits with a negative id; the edited rows are exactly the edits with a positive id whose loaded teacher differs in code, name or subject; the removed rows are exactly the loaded teachers whose id is marked; no row is both added and edited |
| AdminTeachers.AllValidMeans | src/routes/admin/teachers.lazy.tsx:82-87 | when saving is allowed, every listed teacher's trimmed code occurs exactly once and is capitals followed by one or two digits, and a new row's code does not start with X or Z |
| AdminTeachers.CodeBagHas | src/routes/admin/teachers.lazy.tsx:161 | a listed teacher with a non-blank code is counted in the code counts `validateCode` compares against |
| AdminTeachers.PayloadOf | src/routes/admin/teachers.lazy.tsx:192-202 | the posted body has the added rows without their temporary ids, the edited rows as they are, and the removed rows' ids, in the same order and number |
| AdminTeachers.TeachersEditor.constructor | src/routes/admin/teachers.lazy.tsx:34-47 | the page opens with no edits, nothing removed, both dialogs closed, no pending removal and zero counts |
| AdminTeachers.TeachersEditor.HandleAdd | src/routes/admin/teachers.lazy.tsx:90-98 | a blank row with the new id is appended to the edits; nothing else changes |
| AdminTeachers.TeachersEditor.HandleRemove | src/routes/admin/teachers.lazy.tsx:100-103 | the id is remembered and the removal dialog opens; nothing else changes |
| AdminTeachers.TeachersEditor.ConfirmRemove | src/routes/admin/teachers.lazy.tsx:105-128 | with no pending id nothing but the pending id changes; otherwise the id's edit is dropped and every other edit kept in its place (the new edits are `Remove` of the old), a non-negative id is marked removed, the dialog closes and the pending id is cleared |
| AdminTeachers.TeachersEditor.HandleChange | src/routes/admin/teachers.lazy.tsx:130-135 | the edits become `Put` of the old edits: the edit under the teacher's id becomes the teacher in its place, or is appended when new, and every other edit is kept in its place |
| AdminTeachers.TeachersEditor.HandleDiscard | src/routes/admin/teachers.lazy.tsx:137-140 | the edits and the removals are cleared |
| AdminTeachers.TeachersEditor.HandleSave | src/routes/admin/teachers.lazy.tsx:142-150 | the counts shown are the numbers of added, edited and removed rows, and the confirm dialog opens |
| AdminTeachers.TeachersEditor.ConfirmSave | src/routes/admin/teachers.lazy.tsx:152-155 | the dialog closes and the body posted is the payload of the current changes |
| AdminTeachers.TeachersEditor.SaveSucceeded | src/routes/admin/teachers.lazy.tsx:212-217 | the reloaded teachers replace the data, and the edits and the removals are cleared |
| AdminTeachers.EditKeysShown | src/routes/admin/teachers.lazy.tsx:66-80 | every new row in the edits is listed on the page |
| AdminTeachers.AddFiled | src/routes/admin/teachers.lazy.tsx:90-98 | filing the new row under its id appends it to the edits, and the edits stay keyed by their own ids without repeats |
| AdminTeachers.NothingEditedNoChanges | src/routes/admin/teachers.lazy.tsx:183-187 | with no edits and no removals there is nothing to save |
| JsCollections.Find | src/routes/admin/teachers.lazy.tsx:34-36 | looking a key up in an object or `Map` gives nothing exactly when the key is absent, and otherwise a value stored under it |
| JsCollections.Put | src/routes/admin/teachers.lazy.tsx:94-97 | `{...prev, [k]: v}` and `map.set(k, v)` keep a present key in its place with the new value, append a new key at the end, and leave every other entry alone |
| JsCollections.FindEntry | src/routes/admin/teachers.lazy.tsx:34-36 | in an object without repeated keys every entry is what a lookup of its key gives |
| JsCollections.PutFiled | src/routes/admin/teachers.lazy.tsx:130-135 | filing a record under its own id keeps every entry under its own id |
| JsCollections.PutFind | src/routes/admin/teachers.lazy.tsx:130-135 | after a put the keys stay distinct, the key gives the new value, and every other key gives what it gave before |
| JsCollections.Remove | src/routes/admin/teachers.lazy.tsx:110-114 | `delete obj[k]` keeps exactly the entries under other keys, without repeating keys |
| JsCollections.RemoveIsFilter | src/routes/admin/teachers.lazy.tsx:110-114 | `delete obj[k]` keeps the other entries in their order: it is the `filter` of the entries by key |
| JsCollections.RemoveFind | src/routes/admin/teachers.lazy.tsx:110-114 | after a delete the key gives nothing and every other key gives what it gave before |
| JsCollections.IndexEntries | src/routes/admin/teachers.lazy.tsx:67 | the entries whose key is an array index are exactly those of the object with such a key |
| JsCollections.OtherEntries | src/routes/admin/teachers.lazy.tsx:67 | the remaining entries are exactly those whose key is not an array index |
| JsCollections.IndexEntriesIsFilter | src/routes/admin/teachers.lazy.tsx:67 | the index-keyed entries keep their insertion order: they are a `filter` of the entries |
| JsCollections.OtherEntriesIsFilter | src/routes/admin/teachers.lazy.tsx:67 | the other entries keep their insertion order: they are a `filter` of the entries |
| JsCollections.InsertByKey | src/routes/admin/teachers.lazy.tsx:67 | inserting an entry into entries of ascending keys keeps them ascending and adds exactly that entry |
| JsCollections.SortByKey | src/routes/admin/teachers.lazy.tsx:67 | the entries come out in ascending key order, the same entries as went in |
| JsCollections.ObjectEntries | src/routes/admin/teachers.lazy.tsx:67 | `Object.entries` lists the same entries, no key twice |
| JsCollections.ObjectEntriesOrder | src/routes/admin/teachers.lazy.tsx:67 | `Object.entries` lists first exactly the index-keyed entries in ascending key order, then the other entries in insertion order |
| JsCollections.IndexKeysFirst | src/routes/admin/teachers.lazy.tsx:67 | index keys and other keys never clash, so the listing repeats no key |
| JsCollections.PutAllFind | src/routes/admin/teachers.lazy.tsx:71-75 | after `set` for each edit, a key the edits hold gives the edit and any other key gives what the map gave |
| JsCollections.PutAllShape | src/routes/admin/teachers.lazy.tsx:68-78 | after the `set` calls the keys stay distinct, every earlier entry keeps its place and key and takes the edit's value when edited, and the edits with new keys follow in order |
| JsCollections.FreshBy | src/routes/admin/teachers.lazy.tsx:68-78 | the edits whose id the base lacks are the entries appended by the `set` calls |
| JsCollections.FindBy | src/routes/admin/teachers.lazy.tsx:68 | a key of a list of records finds one of those records, with that key |
| JsCollections.ValuesBy | src/routes/admin/teachers.lazy.tsx:68 | a map built from records lists those records back as its values |
| JsCollections.PutAllOnEmpty | src/routes/admin/teachers.lazy.tsx:68 | `new Map(entries)` with distinct keys keeps every entry, in order |
| JsCollections.OverlaidShape | src/routes/admin/teachers.lazy.tsx:66-78 | the overlaid list has one record per base record in its place and with its id, the edit when that id was edited and the base record otherwise, followed by the edits of ids the base lacks, in order |
| JsCollections.OverlaidFrom | src/routes/admin/teachers.lazy.tsx:66-78 | every overlaid record is a base record or an edit |
| JsCollections.OverlaidHasEdits | src/routes/admin/teachers.lazy.tsx:66-78 | every edit is in the overlaid list |
| JsCollections.OverlaidHasBase | src/routes/admin/teachers.lazy.tsx:66-78 | every base record whose id was not edited is in the overlaid list |
| JsCollections.OverlaidKept | src/routes/admin/schedules.lazy.tsx:85-95 | the base records keep their places and ids, each replaced by its edit when edited |
| JsCollections.OverlaidAppended | src/routes/admin/schedules.lazy.tsx:85-95 | the edits of ids the base lacks follow the base records, in order |
| JsCollections.ObjectValuesBy | src/routes/admin/teachers.lazy.tsx:166 | the values of an object filed by id have distinct ids and are exactly the records filed under their own id |
| Middleware.ValueRun | functions/_middleware.ts:28 | `[^;]+` taken greedily is the longest prefix without `;` |
| Middleware.FindMatch | functions/_middleware.ts:28 | the search finds the first position from which the pattern matches, and nothing when it matches nowhere |
| Middleware.ExtractToken | functions/_middleware.ts:27-28 | a token found is non-empty and holds no `;`, and none is found exactly when the pattern matches nowhere |
| Middleware.ExtractTokenOf | functions/_middleware.ts:28 | a cookie holding `session-token=` followed by a token that ends at `;` or at the end, with no earlier match, yields exactly that token |
| Middleware.FindMatchFirst | functions/_middleware.ts:28 | the search returns the first matching position |
| Middleware.ValueRunOf | functions/_middleware.ts:28 | the value run of a token followed by `;` or nothing is the token |
| Middleware.DecideMeans | functions/_middleware.ts:7-46 | a request needs a token exactly when it goes to the summary, or is not a GET and goes to the schedules or teachers API; it is forwarded exactly when it needs none or its token verifies; it gets "Unauthorized: No token" exactly when it needs one and has none, and "Unauthorized: Invalid token" exactly when it has one that fails |
| Middleware.NoCookieNoToken | functions/_middleware.ts:27 | a missing `Cookie` header holds no token |
| SummaryApi.GroupOf | functions/api/summary.ts:24-32 | a record's group is exactly the records with its day, time slot and teacher code |
| SummaryApi.ConflictCount | functions/api/summary.ts:13-35 | the conflict count never exceeds the number of schedule records |
| SummaryApi.ConflictCountByGroups | functions/api/summary.ts:13-35 | `total_conflicts` is the sum of the sizes of the (day, time slot, code) groups that have more than one record and a non-null code outside the excluded "X"/"Z" codes, counted group by group |
| SummaryApi.GroupShared | functions/api/summary.ts:16-32 | records of one day, slot and code share their group, so either all of them are counted or none |
| SummaryApi.ConflictsComeInGroups | functions/api/summary.ts:16-32 | a counted record brings its whole group, of two or more records, into the count |
| SummaryApi.ConflictCountNeverOne | functions/api/summary.ts:16-32 | no table has exactly one conflicting record |
| SummaryApi.ServerChecksTeacherCodes | functions/api/summary.ts:19-23 | every client teacher code other than "Z0" can be counted; "Z0", "X1", "Z12" and, by the case-blind `LIKE`, "x1" never are; "XA" can be, though the client does not take it for a teacher code |
| SummaryApi.Subjects | functions/api/summary.ts:36-38 | the distinct subjects are exactly the teachers' subjects, no more of them than teachers |
| SummaryApi.SummaryOf | functions/api/summary.ts:52-56 | a query that returns no row counts as 0 |
| SummaryApi.TablesSummary | functions/api/summary.ts:7-56 | for any two tables the summary has no more subjects than teachers, no more conflicts than schedule records, and never exactly one conflict |
| SchedulesApi.RowLeqTotal | functions/api/schedules.ts:7 | any two records are ordered one way or the other by day, time slot and class |
| SchedulesApi.RowLeqTransitive | functions/api/schedules.ts:7 | the `ORDER BY` order is transitive |
| SchedulesApi.InsertRow | functions/api/schedules.ts:7 | inserting a record into ordered records keeps them ordered and adds exactly that record |
| SchedulesApi.Listed | functions/api/schedules.ts:2-12 | GET lists every record exactly once, ordered by day, then time slot, then class |
| SchedulesApi.ApplyPatch | functions/api/schedules.ts:47-55 | one `UPDATE` patches the records with the patch's id, each column taking the supplied value or keeping the stored one, and keeps every other record |
| SchedulesApi.ApplyBatchRows | functions/api/schedules.ts:44-58 | the batch keeps every record in its place and gives each column the last value supplied for the record's id, or the stored value when none is |
| SchedulesApi.ExpectedStep | functions/api/schedules.ts:44-58 | a later patch for a record wins for the columns it supplies |
| SchedulesApi.UnnamedRowKept | functions/api/schedules.ts:53-55 | a record no patch names is unchanged |
| SchedulesApi.NoneSupplied | functions/api/schedules.ts:49-52 | a column no patch supplies keeps its stored value |
| SchedulesApi.LastSuppliedStored | functions/api/schedules.ts:49-52 | a column either takes a supplied value, whatever was stored, or keeps what was stored |
| SchedulesApi.ApplyBatchIdempotent | functions/api/schedules.ts:44-58 | sending the same batch twice leaves the table as sending it once |
| SchedulesApi.ScheduleStore.constructor | functions/api/schedules.ts:3 | the handlers work on the given Schedules table |
| SchedulesApi.ScheduleStore.Get | functions/api/schedules.ts:2-12 | GET returns the records in `ORDER BY` order and changes nothing |
| SchedulesApi.ScheduleStore.Put | functions/api/schedules.ts:34-61 | a body that is not an array of patches, or a batch that throws, ends the handler with the exception and leaves the table unchanged; otherwise the table becomes the patches applied one after another in body order, and the answer is 204 |
| TeachersBatchApi.WithDefaults | functions/api/teachers/batch.ts:14-18 | a missing `added`, `edited` or `removed` list reads as empty; a supplied list is taken as it is |
| TeachersBatchApi.Inserts | functions/api/teachers/batch.ts:23-29 | one `INSERT` per added teacher, in order, binding its code, name and subject |
| TeachersBatchApi.Updates | functions/api/teachers/batch.ts:32-43 | one `UPDATE` per edited teacher, in order, binding code, name, subject and then the id |
| TeachersBatchApi.Deletes | functions/api/teachers/batch.ts:46-49 | one `DELETE` per removed id, in order |
| TeachersBatchApi.BuildStatements | functions/api/teachers/batch.ts:20-49 | the pushed list is all inserts, then all updates, then all deletes, and its length is the sum of the three list lengths |
| TeachersBatchApi.UpdateRows | functions/api/teachers/batch.ts:34 | `UPDATE … WHERE id = ?` replaces every row with that id by the new values and leaves every other row and the row count alone |
| TeachersBatchApi.DeleteRows | functions/api/teachers/batch.ts:47 | `DELETE … WHERE id = ?` keeps exactly the rows whose id differs |
| TeachersBatchApi.DeleteRowsUnique | functions/api/teachers/batch.ts:47 | deleting keeps the table's ids unique |
| TeachersBatchApi.RunAllAppend | functions/api/teachers/batch.ts:52 | running a batch of two parts is running the first part and then the second |
| TeachersBatchApi.ExecValid | functions/api/teachers/batch.ts:25-47 | every insert, update and delete keeps the ids unique and below the next id the table hands out |
| TeachersBatchApi.RunAllValid | functions/api/teachers/batch.ts:52 | a whole batch keeps the ids unique and below the next id |
| TeachersBatchApi.InsertsPhase | functions/api/teachers/batch.ts:23-29 | the inserts append the added teachers in order with consecutive fresh ids, and advance the next id by their number |
| TeachersBatchApi.UpdatesPhase | functions/api/teachers/batch.ts:32-43 | with distinct edited ids, the updates turn each row whose id was edited into the edited teacher, leave every other row, and neither add nor remove rows |
| TeachersBatchApi.DeletesPhase | functions/api/teachers/batch.ts:46-49 | after the deletes, the rows are exactly the earlier rows whose id was not removed |
| TeachersBatchApi.Phases | functions/api/teachers/batch.ts:20-52 | the batch runs as three phases: inserts, then updates, then deletes |
| TeachersBatchApi.BatchEffect | functions/api/teachers/batch.ts:20-52 | after a batch the table stays valid; no removed id is left; an added teacher is present unless its new id was removed or edited; an edit of an existing id that was not removed is present; a row neither edited nor removed is kept |
| TeachersBatchApi.AddedSurvives | functions/api/teachers/batch.ts:23-29 | an added teacher is in the table after the batch unless its fresh id was removed or edited in the same batch |
| TeachersBatchApi.EditSurvives | functions/api/teachers/batch.ts:32-43 | an edit of an existing, not removed id is in the table after the batch |
| TeachersBatchApi.RowSurvives | functions/api/teachers/batch.ts:20-52 | a row that was neither edited nor removed is still in the table after the batch |
| TeachersBatchApi.TeachersStore.constructor | functions/api/teachers/batch.ts:11 | the handler works on the given Teachers table |
| TeachersBatchApi.TeachersStore.HandleBatch | functions/api/teachers/batch.ts:10-74 | a body that is not JSON, or JSON of a shape that makes building the statements throw (a `null` body, a `null` or string in place of a list, a `null` teacher), gives 500 "Batch update failed" with the error's message and no change; otherwise no statements, or a batch that goes through, runs every statement and gives 200 "Batch update successful"; a batch that throws changes nothing and gives 500 with the error's message, or "An unknown error occurred" for a non-`Error` |
| TeachersBatchApi.TeachersStore.RunBatch | functions/api/teachers/batch.ts:52 | `db.batch` leaves the table as the statements run one after another |
| Base.IndexOf | src/hooks/useStudentSchedule.ts:26 | `indexOf` is -1 exactly when the element is absent, and otherwise the position of its first occurrence |
| Base.At | src/hooks/useStudentSchedule.ts:26 | indexing gives a value exactly for a position inside the array, and that value is the element there (`undefined` otherwise) |
| Base.Filter | src/routes/admin/teachers.lazy.tsx:79 | `filter` keeps exactly the elements that pass the test, never more than there were, and gives `[]` exactly when none passes |
| Base.FilterAppend | src/routes/admin/teachers.lazy.tsx:79 | filtering distributes over concatenation |
| Base.FilterComplement | src/components/admin/teachers-table.tsx:26-40 | an array splits into the elements that pass a test and those that fail it, each element on exactly one side |
| Text.TrimStart | src/lib/utils.ts:43 | leading whitespace removal leaves a suffix that starts with no whitespace and drops only whitespace |
| Text.TrimEnd | src/lib/utils.ts:43 | trailing whitespace removal leaves a prefix that ends with no whitespace and drops only whitespace |
| Text.Trim | src/lib/utils.ts:43 | `trim` leaves nothing, or text that starts and ends with non-whitespace, and leaves nothing exactly when the text is all whitespace |
| Text.Upper | src/components/schedule-item.tsx:137-138 | `toUpperCase` on ASCII: each letter a to z becomes its capital, every other character is kept, and the length is kept |
| Text.Lower | src/components/schedule-item.tsx:125 | `toLowerCase` on ASCII: each letter A to Z becomes its small letter, every other character is kept, and the length is kept |
| Text.UpperOfLower | src/components/schedule-item.tsx:137-140 | under the ASCII case mapping, upper-casing after lower-casing is upper-casing, and each case mapping is idempotent |
| Text.LexLessIrreflexive | src/routes/_user/teacher.lazy.tsx:38 | no string sorts before itself |
| Text.LexLessTotal | src/routes/_user/teacher.lazy.tsx:38 | of two different strings one sorts before the other |
| Text.LexLessAsymmetric | src/routes/_user/teacher.lazy.tsx:38 | two strings never each sort before the other |
| Text.LexLessTransitive | src/routes/_user/teacher.lazy.tsx:38 | string order is transitive |
| Text.NatToString | src/lib/utils.ts:17-19 | a number prints as decimal digits with no leading zero except for 0 itself |
| Text.NatToStringRoundTrip | src/lib/utils.ts:17-19 | reading the printed digits back gives the number |
| Text.DigitPrefix | src/components/schedule-item.tsx:130 | the longest prefix of decimal digits: all digits, and followed by a non-digit or nothing |
| Text.HexPrefix | src/components/schedule-item.tsx:130 | the longest prefix of hexadecimal digits: all hexadecimal digits, and followed by a non-hexadecimal character or nothing |
| Text.ToNumber | src/lib/utils.ts:10-11 | `Number` of a run of decimal digits is its value |
| Text.UnsignedValue | src/components/schedule-item.tsx:130 | after the sign, the digits are read in base 16 after a `0x`/`0X` prefix and in base 10 otherwise, and there is a value exactly when a digit of that base comes first |
| Text.ParseIntDefined | src/components/schedule-item.tsx:130 | `parseInt` is a number exactly when, after leading whitespace, one optional sign and any `0x`/`0X` prefix, a digit of the chosen base follows |
| Text.ParseIntHex | src/components/schedule-item.tsx:145 | after "0x", `parseInt` reads hexadecimal digits as their base-16 value, so "0x1A" is 26 |
| Text.ParseIntHexNegative | src/components/schedule-item.tsx:145 | a sign before "0X" negates the hexadecimal value |
| Text.ParseIntHexEmpty | src/components/schedule-item.tsx:145 | "0x" with no digit after it is `NaN`, not 0 |
| Text.ParseIntDecimal | src/components/schedule-item.tsx:145 | a run of decimal digits reads as its decimal value even with leading zeros, so "08" is 8 |
| Text.ParseIntLeadingDigit | src/routes/student.lazy.tsx:115 | a key starting with 1 to 9 parses to a number of at least 1, and a one-character key to its digit |
| Text.Split | src/lib/utils.ts:10 | `split` always gives at least one part, and text without the separator is its only part |
| Text.SplitHead | src/components/schedule-item.tsx:130 | the first part is the text before the first separator, or all of it when there is none |
| Text.SplitAt | src/lib/utils.ts:10 | text before the first separator is the first part, and the parts after it are the split of the rest |
| Sorting.LexLessEqTransitive | src/routes/_user/teacher.lazy.tsx:38 | "sorts no later than" is transitive |
| Sorting.Insert | src/routes/_user/teacher.lazy.tsx:38 | inserting into a sorted list keeps it sorted and adds exactly that element |
| Sorting.Sort | src/routes/_user/teacher.lazy.tsx:38 | `sort()` returns a sorted permutation of its input |
| Sorting.PermutationDistinct | src/routes/_user/teacher.lazy.tsx:38 | a permutation of a list without repeats has none |
| Sorting.StrictlySortedUnique | src/routes/_user/teacher.lazy.tsx:38 | two strictly increasing lists with the same elements are equal |
| Sorting.SortedDistinctStrict | src/routes/_user/teacher.lazy.tsx:38 | a sorted list without repeats is strictly increasing |
| Sorting.Dedupe | src/routes/_user/teacher.lazy.tsx:38 | `[...new Set(xs)]` has no repeats and exactly the elements of `xs` |
| Sorting.DedupeSnoc | src/routes/_user/teacher.lazy.tsx:38 | adding an element to a set appends it exactly when it is new, so the set keeps first-seen order |
| Sorting.DedupeFirst | src/routes/_user/teacher.lazy.tsx:38 | the first element of a non-empty list comes first in its set |
| Sorting.SortDedupe | src/routes/_user/teacher.lazy.tsx:38 | the sorted set of a list is strictly increasing and holds exactly the list's elements |

## Left out

- CSV loading with papaparse and the react-query fetch hooks are not modelled. They are library calls and network I/O. Rows and records are given as sequences, and a missing field is "".
- JWT signing and verification (functions/utils/jwt.ts), and the login, logout and status endpoints, are not part of this model. In the middleware, whether `verifyToken` accepts a token is the parameter `verify`.
- D1 specifics are not modelled: how autoincrement picks ids (a counter `nextId` stands in), `Promise.all`, and the building of `Response` objects and JSON bodies. Only the resulting table, status and message are modelled.
- `db.batch` is assumed to be atomic, as D1 documents it: a batch that throws leaves the table unchanged. TeachersBatchApi.TeachersStore.HandleBatch and SchedulesApi.ScheduleStore.Put state this in their contracts. Whether a batch throws is a parameter.
- The messages of the exceptions a malformed teachers batch body raises (a `TypeError` whose text the JavaScript engine chooses) are not modelled. They are a parameter of the `Malformed` request.
- SchedulesApi.ScheduleStore.Put: the response the Pages runtime sends after the handler throws is not modelled. The model says only that the handler throws.
- JSX, styling, dialogs, toasts, the combo box, metrics cards, layouts, analytics (gtag), `console.log` and the `vite.config.ts` build hook are not modelled. They are presentation or external calls.
- Clocks, `setInterval` and focus listeners are not modelled. The weekday, hours and minutes are parameters.
- React's `useMemo`, `useCallback` and `useEffect` are not modelled. The model computes the value or the state change, not the caching.
- src/lib/consts.ts is not part of this model. The five weekday names of the legacy viewer are used for `days`, the public student page's thirty classes are its own list, and `classes` is a parameter on the signed-in student page.
- `cn`, and the `formatSubject` and `formatTeacherName` that pages import from src/lib/utils.ts but that file does not define, are not part of this model.
- The block builders that the signed-in pages call with four arguments are not part of this model, and neither is their implementation.
- An undefined `VITE_GIT_COMMIT_HASH` is not modelled. The current hash is a string.
- Undefined values bound into D1 statements are not modelled.
- The `id == null` tests of the admin teacher pages are not modelled. A teacher id is an integer, so they never hold.
- A lookup that the source does through an object, and that could hit an inherited property such as "constructor", is not modelled. This affects the style tables and `teacherMap`; a lookup finds only keys the object was given.
- Object keys that JavaScript orders as array indices are modelled only for the number-keyed edit objects (`JsCollections.ObjectEntries`). `teacherMap` is modelled in insertion order, so a teacher named like an index is listed where it was first seen.
- That the thirty classes of the student page are pairwise distinct is not proved. The class-key lemmas take distinctness as a hypothesis.
- Text.Upper: models only the ASCII letters. JavaScript's `toUpperCase` maps all of Unicode and can change the length: "ß" becomes "SS", and "ſ" becomes "S".
- Text.Lower: models only the ASCII letters. JavaScript's `toLowerCase` maps all of Unicode: the Kelvin sign U+212A becomes "k", and "İ" becomes two characters.
- Text.UpperOfLower: holds of the ASCII model only. In JavaScript, "İ" lower-cased and then upper-cased is not "İ" upper-cased.
- ScheduleItems.SubjectStyleIgnoresCase: holds under the ASCII case mapping only. In JavaScript, "fiſika" lower-cases to "fiſika" and gets the default scheme, while "FISIKA" gets the physics scheme.
- ScheduleItems.FormatSubjectCanonical: holds under the ASCII case mapping only. In JavaScript, "PP" + U+212A + "N" is not in the capitals set and formats to "ppkn", and formatting that again gives "PPKN".
- Text.ToNumber: its contract covers only runs of decimal digits. The body reads trimmed, optionally signed decimal integers, and treats decimals, exponents, hexadecimal and "Infinity" as `NaN`.
- Sorting.Sort: JavaScript's default sort compares UTF-16 code units, while the model compares characters. The two orders differ only for characters outside the Basic Multilingual Plane.
- ScheduleViewer.ComputeCombinedSchedule: requires the selected day to have a split day. The source throws when that day is missing.
- AdminTeachers.TeachersEditor.HandleAdd: requires the loaded teachers to have distinct ids, as the table's primary key guarantees.
- TeachersBatchApi.BatchEffect: assumes the edited ids are distinct. The page always sends them that way, because they come from an object keyed by id. The same holds for TeachersBatchApi.UpdatesPhase, AddedSurvives, EditSurvives and RowSurvives.

## Findings

| source | as written | input that shows it | evidently intended | confidence | as-written member | corrected member |
|---|---|---|---|---|---|---|
| src/components/student-schedule-item.tsx:160-170 | the Sunday correction (the teacher card repeats it at src/components/teacher-schedule-item.tsx:190-199) tests `getDay() === -1`, which never holds, so on Sunday the day index stays -1, the same value `days.indexOf` returns for a day that is not one of the tabs | Sunday at 10:00, a row of an unknown day from "10:00" to "11:00": the card shows as running now | Sunday maps to index 6, which matches no weekday, so no card runs on Sunday | not executed | ScheduleItems.SundayMatchesUnknownDay | ScheduleItems.IsNowMeans |
