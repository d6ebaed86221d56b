# Kufah Web — a verified model of the attendance front end's state logic

Kufah Web is the browser front end of a school's attendance and devotional
goal tracker. Teachers see their classes and students with four attendance
counts and a rounded percentage. They reconcile one student's attendance
dates, mark no-school days, manage events, answer student questions and
track daily ibadah goals. This project models the state logic of those
screens in Dafny and proves properties about it. Rendering (JSX) and the
HTTP client are not modelled.

Every backend call is a parameter. A fetch is an `Option` or a
`Remote.Outcome` (it threw, or it returned a possibly-null body). A write is
told whether it succeeded. The requests a handler would send are returned
as values. Each component that keeps React state becomes a `class` whose
fields are that state. Its handlers are methods with `modifies this`, and
their `ensures` state the whole new state. Pure expressions (reducers,
filters, formatters, spreads) are functions with lemmas.

Modules, one per source file plus shared pieces:

- `Optional` (`Option`, with `GetOr` for `??`) and `Remote` (`Outcome`).
- `Text`: whitespace trim, ASCII lower-casing, substring search,
  `split` into the first two pieces, decimal rendering and parsing,
  `padStart`.
- `AttendanceStatus`: the four wire statuses.
- `Aggregation`: the attendance reducer and the rounded percentage. The
  teacher dashboard and the student grid each have their own copy of this
  code; the model keeps one.
- `ViewDates`, `TeacherDashboard`, `StudentTable`, `IbadahGoals`,
  `NoSchool`, `StudentManagement`, `CreateClass`, `Events`, `Logo`: one
  module per component.

Where the code and the behaviour documented for it differ, the model follows
the code:

- A status edit in the attendance panel sets `hasChanges` even when the new
  status equals the old one (`ViewDatesModal.tsx:91`).
- A failed save leaves both the working copy and the baseline as they were.
- The `Saved ✅` message is cleared by a separate timer callback
  (`ClearSavedMessage`), not by the save itself.

## Model

| member | source | states |
|---|---|---|
| AttendanceStatus.Label | src/app/components/ViewDatesModal.tsx:25 | each status has a non-empty wire string |
| AttendanceStatus.Parse | src/app/pages/teacherDashboard/page.tsx:60-73 | a wire string is recognised exactly when it is the label of a status, and then that status |
| AttendanceStatus.StatusOptionsComplete | src/app/components/ViewDatesModal.tsx:25 | the four options list every status once, and distinct statuses have distinct labels |
| Aggregation.Tally | src/app/pages/teacherDashboard/page.tsx:58-77 | one reducer step adds one to the counter named by the status; an unrecognised status changes nothing; a recognised one adds one session |
| Aggregation.CountStatuses | src/app/pages/teacherDashboard/page.tsx:58-77 | the reducer over all records from zero counts (its counters are stated by CountsAreMultiplicities) |
| Aggregation.CountsAreMultiplicities | src/app/pages/teacherDashboard/page.tsx:58-77 | each counter equals the number of records carrying its status string |
| Aggregation.CountsIgnoreOrder | src/app/components/StudentTable.tsx:45-71 | records holding the same statuses in another order give the same counts and percentage |
| Aggregation.SessionsAreRecognisedRecords | src/app/pages/teacherDashboard/page.tsx:58-80 | total sessions never exceed the record count, and equal it when every status is recognised |
| Aggregation.TallyRecords | src/app/pages/teacherDashboard/page.tsx:58-77 | the counting loop computes the reducer's counts |
| Aggregation.Percent | src/app/pages/teacherDashboard/page.tsx:79-82 | the percentage is at most 100, 0 with no sessions or no attendance, 100 with no absences, and otherwise 100·attended/sessions rounded half up |
| Aggregation.RoundedPercentUnique | src/app/pages/teacherDashboard/page.tsx:81-82 | the percentage is the only integer within one half of 100·attended/sessions |
| ViewDates.StatusColor | src/app/components/ViewDatesModal.tsx:27-40 | every status gets a `#rrggbb` colour other than the default blue |
| ViewDates.StatusColorsDistinct | src/app/components/ViewDatesModal.tsx:27-40 | different statuses get different colours |
| ViewDates.FindById | src/app/components/ViewDatesModal.tsx:98 | the row found has the id and is in the list; nothing is found exactly when no row has the id |
| ViewDates.FindByIdFirst | src/app/components/ViewDatesModal.tsx:98 | the row found is the first with the id, whatever rows with the same id follow it |
| ViewDates.FindByIdUnique | src/app/components/ViewDatesModal.tsx:98 | with unique ids, looking up a row's id finds that row |
| ViewDates.IsChanged | src/app/components/ViewDatesModal.tsx:98-99 | a row is changed when the first baseline row with its id has another status |
| ViewDates.UpdateOf | src/app/components/ViewDatesModal.tsx:100 | the PUT carries the row's id and its status and nothing else |
| ViewDates.NumChanged | src/app/components/ViewDatesModal.tsx:124-131 | the changed count never exceeds the number of rows |
| ViewDates.PendingUpdates | src/app/components/ViewDatesModal.tsx:97-103 | a save sends an update for exactly the rows whose baseline row has another status, carrying only id and status |
| ViewDates.ChangedCountIsUpdateCount | src/app/components/ViewDatesModal.tsx:97-131 | the changed count equals the number of updates a save sends |
| ViewDates.NoneChanged | src/app/components/ViewDatesModal.tsx:124-131 | with no changed row there is nothing to count and nothing to send |
| ViewDates.NoChangesAgainstItself | src/app/components/ViewDatesModal.tsx:107-108 | rows with unique ids compared with themselves have no changes and send no updates |
| ViewDates.ReplaceStatus | src/app/components/ViewDatesModal.tsx:89 | the edit keeps length, order and ids, sets the status of the rows with that id and keeps every other row |
| ViewDates.ReplaceWithSameStatus | src/app/components/ViewDatesModal.tsx:88-91 | choosing the status a row already has leaves the list unchanged |
| ViewDates.ExampleEditAndSave | src/app/components/ViewDatesModal.tsx:88-131 | in a two-row example, one edit is counted once, yields one update, and none after the baseline catches up |
| ViewDates.AttendancePanel.constructor | src/app/components/ViewDatesModal.tsx:46-50 | empty working copy and baseline, no flags set |
| ViewDates.AttendancePanel.FetchAttendance | src/app/components/ViewDatesModal.tsx:74-86 | on success the working copy and baseline are the fetched rows and the change flag clears; on failure they are kept |
| ViewDates.AttendancePanel.HandleStatusChange | src/app/components/ViewDatesModal.tsx:88-92 | the working copy gets the status edit, the baseline is kept, and the change flag is set |
| ViewDates.AttendancePanel.HandleSave | src/app/components/ViewDatesModal.tsx:94-117 | the updates sent are the pending ones; on success the baseline becomes the working copy, the flag clears and the parent's `onSave` is called when given; on failure nothing but `saving` changes and the parent is not told |
| ViewDates.AttendancePanel.ChangedCount | src/app/components/ViewDatesModal.tsx:124-131 | the counting loop returns the changed count, which is also the number of pending updates |
| ViewDates.AttendancePanel.HandleClose | src/app/components/ViewDatesModal.tsx:119-122 | the prompt appears exactly when a change is flagged; closing without a prompt loses no edit |
| ViewDates.AttendancePanel.SaveDisabled | src/app/components/ViewDatesModal.tsx:399 | Save is disabled with no flagged change or while saving |
| ViewDates.SuccessfulSaveLeavesNothingPending | src/app/components/ViewDatesModal.tsx:105-108 | after a successful save nothing is pending and the Save button is disabled |
| TeacherDashboard.StudentRowOf | src/app/pages/teacherDashboard/page.tsx:84-92 | a student row carries the student id, "first last", the number of records of each status, and a percentage that is 0 without sessions and otherwise within one half of 100·attended/sessions |
| TeacherDashboard.TransformClasses | src/app/pages/teacherDashboard/page.tsx:45-98 | classes keep their order, id and name, each with one row per enrolled student, in order |
| TeacherDashboard.StudentRowIgnoresRecordOrder | src/app/pages/teacherDashboard/page.tsx:58-92 | a student's row does not depend on the order of their attendance records |
| TeacherDashboard.Dashboard.constructor | src/app/pages/teacherDashboard/page.tsx:18-23 | no classes, loading, first tab, modal closed |
| TeacherDashboard.Dashboard.FetchClassesData | src/app/pages/teacherDashboard/page.tsx:40-106 | the transformed classes on success, the old ones on failure; loading ends |
| TeacherDashboard.Dashboard.HandleTabChange | src/app/pages/teacherDashboard/page.tsx:113-119 | the tab one past the last class opens the create-class modal and keeps the selection; any other tab is selected |
| TeacherDashboard.Dashboard.ShowsTable | src/app/pages/teacherDashboard/page.tsx:176 | the table is shown when the selected tab is a class |
| TeacherDashboard.Dashboard.ShownClass | src/app/pages/teacherDashboard/page.tsx:176-178 | under the table guard the shown class is one of the classes |
| StudentTable.ClassRowOf | src/app/components/StudentTable.tsx:45-82 | an enrolment row carries the enrolment id, class id, class name, the status counts and the rounded percentage |
| StudentTable.Columns | src/app/components/StudentTable.tsx:97-135 | the four base columns always lead; the three counter columns appear exactly on large screens; fields are distinct |
| StudentTable.Render | src/app/components/StudentTable.tsx:137-144 | loading text while loading, the empty text for no classes, otherwise the grid of the rows with the screen's columns |
| StudentTable.StudentClassGrid.constructor | src/app/components/StudentTable.tsx:25-28 | no rows, loading, panel closed, none selected |
| StudentTable.StudentClassGrid.FetchStudentClasses | src/app/components/StudentTable.tsx:34-92 | one row per enrolment on success, the old rows on failure; loading ends |
| StudentTable.StudentClassGrid.OpenDates | src/app/components/StudentTable.tsx:118-121 | the row's class id is selected and the panel opens |
| StudentTable.StudentClassGrid.MountsAttendancePanel | src/app/components/StudentTable.tsx:170-176 | the attendance panel is mounted for a selected, non-zero class id |
| IbadahGoals.DateOnly | src/app/pages/IbadahManagement/page.tsx:31-36 | the year, a dash, the two-digit 1-based month, a dash, the two-digit day; ten characters for a four-digit year |
| IbadahGoals.TwoDigits | src/app/pages/IbadahManagement/page.tsx:33-34 | a number below 100 is printed as two digits that read back as the number |
| IbadahGoals.DashJoin | src/app/pages/IbadahManagement/page.tsx:35 | where year, month and day sit in the joined text |
| IbadahGoals.FourDigits | src/app/pages/IbadahManagement/page.tsx:32 | a year from 1000 to 9999 prints as four digits |
| IbadahGoals.ClampInt | src/app/pages/IbadahManagement/page.tsx:38-42 | 0 for a non-finite or negative number, otherwise its floor |
| IbadahGoals.ClampWhole | src/app/pages/IbadahManagement/page.tsx:38-42 | a whole non-negative number is kept |
| IbadahGoals.Remaining | src/app/pages/IbadahManagement/page.tsx:44 | zero exactly when done reaches the goal, otherwise goal minus done; missing values are 0 |
| IbadahGoals.RemainingExample | src/app/pages/IbadahManagement/page.tsx:44 | over-achieving leaves 0, not a negative number |
| IbadahGoals.RemainingFor | src/app/pages/IbadahManagement/page.tsx:312-314 | a counter's remainder is zero exactly when its goal is met |
| IbadahGoals.AllDone | src/app/pages/IbadahManagement/page.tsx:316 | every done count reaches its goal (stated both ways by AllDoneIffGoalsMet) |
| IbadahGoals.AllDoneIffGoalsMet | src/app/pages/IbadahManagement/page.tsx:316 | a row is all-done exactly when every done count reaches its goal |
| IbadahGoals.NormalizeDaily | src/app/pages/IbadahManagement/page.tsx:130-138 | no row for an empty or failed answer; otherwise each present field is copied and each missing one falls back to the student id, today, or 0 |
| IbadahGoals.ProgressMapKeys | src/app/pages/IbadahManagement/page.tsx:147-150 | the progress map holds exactly the students some entry gave a row for |
| IbadahGoals.ProgressMapLast | src/app/pages/IbadahManagement/page.tsx:147-150 | a student maps to the row of the last entry that gave one |
| IbadahGoals.BuildProgressMap | src/app/pages/IbadahManagement/page.tsx:147-150 | the loop builds that progress map |
| IbadahGoals.ProgressFor | src/app/pages/IbadahManagement/page.tsx:304-310 | the student's row, or a zero row for today |
| IbadahGoals.NoProgressAllDone | src/app/pages/IbadahManagement/page.tsx:304-316 | without progress a student is all-done only when no goal is positive |
| IbadahGoals.ProgressMap | src/app/pages/IbadahManagement/page.tsx:147-150 | entries applied in order, a later row for a student replacing an earlier one (characterised by ProgressMapKeys and ProgressMapLast) |
| IbadahGoals.RowsOf | src/app/pages/IbadahManagement/page.tsx:110 | an array body, else `data`, else `rows`, else none |
| IbadahGoals.NormalizeStudent | src/app/pages/IbadahManagement/page.tsx:111-119 | names fall back camelCase then snake_case then ""; an empty email is dropped; missing goals are 0 |
| IbadahGoals.NormalizeAll | src/app/pages/IbadahManagement/page.tsx:111-119 | one normalised row per raw row, in order |
| IbadahGoals.Matches | src/app/pages/IbadahManagement/page.tsx:92-94 | the query occurs in the lower-cased "first last" or the lower-cased email |
| IbadahGoals.FilterMatching | src/app/pages/IbadahManagement/page.tsx:91-95 | the kept students are exactly the matching ones |
| IbadahGoals.FilterKeepsOrder | src/app/pages/IbadahManagement/page.tsx:91-95 | the filter keeps list order |
| IbadahGoals.Filtered | src/app/pages/IbadahManagement/page.tsx:88-96 | a blank query shows everyone; otherwise the students matching the trimmed, lower-cased query, in order |
| IbadahGoals.FilteredMembership | src/app/pages/IbadahManagement/page.tsx:88-96 | for a non-blank query a student is shown exactly when they match it |
| IbadahGoals.ApplyPatch | src/app/pages/IbadahManagement/page.tsx:99 | every field the patch carries overrides the student's; the id is kept |
| IbadahGoals.PatchById | src/app/pages/IbadahManagement/page.tsx:98-100 | only students with that id are patched; length and other students are kept |
| IbadahGoals.GoalPatch | src/app/pages/IbadahManagement/page.tsx:363 | a goal input's patch sets that goal and no other |
| IbadahGoals.GoalsPage.constructor | src/app/pages/IbadahManagement/page.tsx:78-85 | loading, none saving, no error, no students or progress, empty query |
| IbadahGoals.GoalsPage.LoadStudentsAndProgress | src/app/pages/IbadahManagement/page.tsx:102-158 | students are the normalised rows; progress holds exactly the students whose fetch returned a row, normalised; a thrown load sets the message or the default error |
| IbadahGoals.GoalsPage.UpdateLocal | src/app/pages/IbadahManagement/page.tsx:98-100 | the students become the patched list; nothing else changes |
| IbadahGoals.GoalsPage.EditGoal | src/app/pages/IbadahManagement/page.tsx:360-365 | the edited goal becomes the clamped input, never negative |
| IbadahGoals.GoalsPage.SaveGoals | src/app/pages/IbadahManagement/page.tsx:165-193 | nothing for an unknown id; otherwise the three goals of the first student with the id are posted, a failure sets its message or the default error, and saving ends |
| IbadahGoals.GoalsPage.Shown | src/app/pages/IbadahManagement/page.tsx:88-96 | the listed rows are the filtered students: everyone for a blank query, otherwise the ones matching the trimmed, lower-cased query, a subsequence of the students |
| IbadahGoals.FindStudent | src/app/pages/IbadahManagement/page.tsx:166 | the index of the first student with the id, or none when no student has it |
| NoSchool.Toggled | src/app/components/NoSchoolCalendarModal.tsx:52-68 | the date is removed when blocked, added when free, and no other date changes |
| NoSchool.ToggleTwice | src/app/components/NoSchoolCalendarModal.tsx:52-68 | toggling a date twice restores the set |
| NoSchool.RequestFor | src/app/components/NoSchoolCalendarModal.tsx:52-62 | a delete for a blocked date, otherwise a post with reason "No school" |
| NoSchool.DatesOf | src/app/components/NoSchoolCalendarModal.tsx:38 | exactly the dates of the rows |
| NoSchool.NoSchoolCalendar.constructor | src/app/components/NoSchoolCalendarModal.tsx:26-28 | nothing blocked, not saving |
| NoSchool.NoSchoolCalendar.LoadMonth | src/app/components/NoSchoolCalendarModal.tsx:30-39 | the blocked set becomes exactly the returned dates; a failed call keeps it |
| NoSchool.NoSchoolCalendar.ToggleDate | src/app/components/NoSchoolCalendarModal.tsx:46-74 | a null date does nothing; otherwise the request is sent, the set is toggled only on success, and saving ends |
| NoSchool.NoSchoolCalendar.IsBlocked | src/app/components/NoSchoolCalendarModal.tsx:80 | a date is drawn blocked when it is in the blocked set |
| StudentManagement.WithDraft | src/app/pages/studentManagement/page.tsx:100-106 | the draft answer is the answer or ""; the draft is public unless `isPublic` is false; not saving |
| StudentManagement.LoadedQuestions | src/app/pages/studentManagement/page.tsx:100-106 | one drafted question per loaded question; a null body is none |
| StudentManagement.ApplyQuestionPatch | src/app/pages/studentManagement/page.tsx:133 | every field the patch carries overrides the question's; identity fields are kept |
| StudentManagement.ApplyQuestionPatchTwice | src/app/pages/studentManagement/page.tsx:133 | two successive spreads equal one spread of the combined patch |
| StudentManagement.PatchQuestions | src/app/pages/studentManagement/page.tsx:133 | only questions with that id are patched; length and the others are kept |
| StudentManagement.PatchQuestionsTwice | src/app/pages/studentManagement/page.tsx:148-162 | patching the same question twice equals patching it once with the combined patch |
| StudentManagement.UpdateQuestions | src/app/pages/studentManagement/page.tsx:129-135 | nothing changes for a class that is not loaded; otherwise only that class's list is patched |
| StudentManagement.FindQuestion | src/app/pages/studentManagement/page.tsx:142 | the question found has the id; none is found exactly when no question has it |
| StudentManagement.FindQuestionFirst | src/app/pages/studentManagement/page.tsx:142 | the question found is the first with that id |
| StudentManagement.PublishedAnswer | src/app/pages/studentManagement/page.tsx:149 | the untrimmed draft when it has a non-whitespace character, otherwise null |
| StudentManagement.PublishedPatch | src/app/pages/studentManagement/page.tsx:154-159 | after a successful publish the question is published, not saving, and holds the answer and visibility sent |
| StudentManagement.PublishedMirrorsRequest | src/app/pages/studentManagement/page.tsx:148-159 | after a successful publish the question's answer, visibility and published flag equal what the PUT carried, saving is off, and the drafts are kept |
| StudentManagement.PublishRequest | src/app/pages/studentManagement/page.tsx:148-152 | the request carries the published answer, the draft visibility and `published: true` |
| StudentManagement.DraftOf | src/app/pages/studentManagement/page.tsx:68-75 | a new draft has the class's links, "" for a null link, and no flags or messages |
| StudentManagement.FirstClass | src/app/pages/studentManagement/page.tsx:66-68 | the class found has the id; none exactly when no class has it |
| StudentManagement.FirstClassFirst | src/app/pages/studentManagement/page.tsx:66-68 | the class found is the first with that id |
| StudentManagement.InitDrafts | src/app/pages/studentManagement/page.tsx:65-79 | classes applied in list order, each adding its draft only when it has none yet |
| StudentManagement.InitDraftsContents | src/app/pages/studentManagement/page.tsx:65-79 | every listed class gets a draft, existing drafts are kept, a new draft comes from the first class with the id, and no other class gets one |
| StudentManagement.InitDraftsLoop | src/app/pages/studentManagement/page.tsx:65-79 | the loop computes that initialisation |
| StudentManagement.ApplyLinksPatch | src/app/pages/studentManagement/page.tsx:178-180 | every field the patch carries overrides the draft's |
| StudentManagement.MergeLinks | src/app/pages/studentManagement/page.tsx:168-182 | only the class's draft changes: the patch over its draft, or over a blank draft when it has none |
| StudentManagement.MergeOverBlank | src/app/pages/studentManagement/page.tsx:168-182 | a first link edit leaves every other field of the new draft blank |
| StudentManagement.TrimOrNull | src/app/pages/studentManagement/page.tsx:192-193 | null exactly for blank text, otherwise the trimmed, non-empty text |
| StudentManagement.TrimOrNullIdempotent | src/app/pages/studentManagement/page.tsx:192-193 | normalising a normalised link changes nothing |
| StudentManagement.SyncClass | src/app/pages/studentManagement/page.tsx:201-212 | only classes with that id change; they take the server's links when present, otherwise the sent ones |
| StudentManagement.StudentQuestionsPage.constructor | src/app/pages/studentManagement/page.tsx:38-53 | no classes, loading, no error, Home tab, empty maps |
| StudentManagement.StudentQuestionsPage.LoadClasses | src/app/pages/studentManagement/page.tsx:57-87 | on success the list (a null body is none) and initialised drafts; on failure the error and nothing else; loading ends |
| StudentManagement.StudentQuestionsPage.QuestionsPresentOrLoading | src/app/pages/studentManagement/page.tsx:92 | the load guard: the class's questions are present or being loaded |
| StudentManagement.StudentQuestionsPage.StartQuestionsLoad | src/app/pages/studentManagement/page.tsx:91-95 | no load when the class's questions are present or loading; otherwise the class is marked loading with no error |
| StudentManagement.StudentQuestionsPage.FinishQuestionsLoad | src/app/pages/studentManagement/page.tsx:97-114 | the drafted questions on success, the error on failure; loading ends for that class |
| StudentManagement.StudentQuestionsPage.HandleTabClick | src/app/pages/studentManagement/page.tsx:117-123 | the tab becomes active; a load starts only for class i - 1 of tab i > 0, exactly when that class exists and its questions are neither present nor loading; when no load starts the question state is unchanged |
| StudentManagement.StudentQuestionsPage.UpdateQuestionDraft | src/app/pages/studentManagement/page.tsx:125-136 | the question maps become the patched maps; nothing else changes |
| StudentManagement.StudentQuestionsPage.HandlePublishOrUpdate | src/app/pages/studentManagement/page.tsx:138-165 | nothing for an unloaded class or unknown question; otherwise the first such question's request is sent; on success the question mirrors it, on failure only `saving` clears |
| StudentManagement.StudentQuestionsPage.UpdateLinksDraft | src/app/pages/studentManagement/page.tsx:168-182 | the link drafts become the merged drafts; nothing else changes |
| StudentManagement.StudentQuestionsPage.ClearSavedMessage | src/app/pages/studentManagement/page.tsx:215 | the timer callback clears the class's saved message |
| StudentManagement.StudentQuestionsPage.HandleSaveLinks | src/app/pages/studentManagement/page.tsx:185-223 | nothing without a draft; otherwise trimmed-or-null links are sent; on success the class list syncs and the draft shows the saved message, on failure the error; saving clears and no other draft changes |
| CreateClass.DaysOfWeekDistinct | src/app/components/CreateClassModal.tsx:20 | seven distinct day labels |
| CreateClass.ParseNumber | src/app/components/CreateClassModal.tsx:38 | blank text reads as 0; text whose trimmed form is a run of digits reads as that run's value; any other text is NaN |
| CreateClass.NumText | src/app/components/CreateClassModal.tsx:40-42 | a value prints in decimal, NaN as "NaN" |
| CreateClass.PadPart | src/app/components/CreateClassModal.tsx:40-42 | at least two characters and no ':' |
| CreateClass.PadPartValue | src/app/components/CreateClassModal.tsx:40-42 | a number below 100 pads to exactly two digits that read back as the number |
| CreateClass.PadPartShape | src/app/components/CreateClassModal.tsx:40-42 | the number's text with '0's in front up to two characters |
| CreateClass.ConvertToMilitaryTime | src/app/components/CreateClassModal.tsx:34-43 | the formatter throws exactly when the input has no ':'; otherwise it gives the time text of the numbers read from the first two pieces of the split |
| CreateClass.TimeText | src/app/components/CreateClassModal.tsx:40-42 | as long as the padded hours, one ':' and the padded minutes together, so at least five characters |
| CreateClass.TimeTextParts | src/app/components/CreateClassModal.tsx:40-42 | the padded hours at the front, ':' right after them, the padded minutes after it |
| CreateClass.TimeTextSplits | src/app/components/CreateClassModal.tsx:38-42 | the formatted time splits at its ':' back into the padded hours and minutes |
| CreateClass.TimeTextPadded | src/app/components/CreateClassModal.tsx:40-42 | hours and minutes below 100 give `HH:MM` whose two parts read back as the hours and the minutes |
| CreateClass.ConvertDigits | src/app/components/CreateClassModal.tsx:34-43 | typed digits, ':', digits, each part below 100, give `HH:MM` holding the same hours and minutes |
| CreateClass.PaddedTimeUnchanged | src/app/components/CreateClassModal.tsx:35-42 | an already padded `HH:MM` comes back unchanged |
| CreateClass.PaddedTimeSplit | src/app/components/CreateClassModal.tsx:38 | splitting `HH:MM` at ':' gives the hours and the minutes |
| CreateClass.PaddedPartUnchanged | src/app/components/CreateClassModal.tsx:38-42 | two digits read and padded again are the same two digits |
| CreateClass.ConvertIdempotent | src/app/components/CreateClassModal.tsx:34-43 | formatting twice equals formatting once when hours and minutes are below 100 |
| CreateClass.Incomplete | src/app/components/CreateClassModal.tsx:46 | the form is incomplete with an empty name, an empty time or no day |
| CreateClass.CreateClassForm.constructor | src/app/components/CreateClassModal.tsx:23-25 | empty name, time and days |
| CreateClass.CreateClassForm.HandleDaysChange | src/app/components/CreateClassModal.tsx:27-32 | the days become the new selection |
| CreateClass.CreateClassForm.HandleCreate | src/app/components/CreateClassModal.tsx:45-68 | refused exactly when name, time or days are empty; a time without ':' throws before sending; otherwise the class is posted with the formatted time, and success resets the form and closes the dialog |
| Events.FetchParams | src/app/pages/events/page.tsx:33 | the upcoming parameter exactly when upcoming-only is on |
| Events.CreateForm | src/app/pages/events/page.tsx:58-62 | title and date always; the description exactly when non-empty; the image exactly when chosen |
| Events.WithoutId | src/app/pages/events/page.tsx:83 | exactly the events without that id are kept |
| Events.WithoutIdAppend | src/app/pages/events/page.tsx:83 | the filter distributes over concatenation, so kept events keep their order |
| Events.WithoutAbsentId | src/app/pages/events/page.tsx:83 | deleting an id no event has leaves the list unchanged |
| Events.Featured | src/app/pages/events/page.tsx:108 | the first three events, or all when fewer |
| Events.PrimaryFeatured | src/app/pages/events/page.tsx:109 | the first featured event, or none when there are no events |
| Events.TogglePreview | src/app/pages/events/page.tsx:112 | the toggle always changes the tab |
| Events.TogglePreviewInvolution | src/app/pages/events/page.tsx:111-113 | toggling twice gives back the tab |
| Events.EventsPage.constructor | src/app/pages/events/page.tsx:17-27 | no events, loading, no error, upcoming only, Home preview, empty form |
| Events.EventsPage.FetchEvents | src/app/pages/events/page.tsx:29-42 | the request carries the filter; success gives the events (null is none) and clears the error; failure keeps them and sets the error |
| Events.EventsPage.HandleCreateEvent | src/app/pages/events/page.tsx:48-77 | an empty title or date is refused with an error and nothing sent; otherwise the form is posted; success clears the form and refetches; failure keeps it and sets the error |
| Events.EventsPage.HandleDelete | src/app/pages/events/page.tsx:79-88 | nothing without confirmation; success drops the events with that id; failure sets the error |
| Events.EventsPage.TogglePreviewTab | src/app/pages/events/page.tsx:111-113 | the preview switches tab; nothing else changes |
| Logo.LogoHeight | src/app/components/ResponsiveLogo.tsx:11-13 | 60 below 640, 80 below 1024, 100 otherwise |
| Logo.LogoHeightMonotone | src/app/components/ResponsiveLogo.tsx:11-13 | a wider window never gets a smaller logo, and there are only three heights |
| Logo.ResponsiveLogo.constructor | src/app/components/ResponsiveLogo.tsx:6 | the height starts at 100 |
| Logo.ResponsiveLogo.HandleResize | src/app/components/ResponsiveLogo.tsx:9-14 | the height becomes the breakpoint height of the width |
| Text.Trim | src/app/pages/studentManagement/page.tsx:192-193 | removes exactly the leading and trailing whitespace; empty exactly for blank text |
| Text.TrimUnpadded | src/app/pages/studentManagement/page.tsx:192-193 | text with no whitespace at either end trims to itself |
| Text.ToLower | src/app/pages/IbadahManagement/page.tsx:89-93 | same length; each ASCII capital is lowered and every other character kept |
| Text.ContainsAt | src/app/pages/IbadahManagement/page.tsx:94 | `includes` holds exactly when the needle occurs at some offset |
| Text.SplitTwo | src/app/components/CreateClassModal.tsx:38 | none exactly when the separator is absent; otherwise the first two pieces, neither containing the separator |
| Text.FindFromAt | src/app/components/CreateClassModal.tsx:38 | the separator search stops at the first separator from the start position |
| Text.SplitJoined | src/app/components/CreateClassModal.tsx:38 | two separator-free pieces joined by the separator split back into those pieces |
| Text.NatToString | src/app/components/CreateClassModal.tsx:40-42 | decimal digits with no leading zero, one digit exactly below 10 |
| Text.NatToStringRoundTrip | src/app/components/CreateClassModal.tsx:40-42 | printed digits read back as the number |
| Text.PadStart | src/app/components/CreateClassModal.tsx:40-42 | padded to the width with the fill at the front, the text kept at the end |
| Text.TwoDigitsRoundTrip | src/app/components/CreateClassModal.tsx:38-42 | two digits read and padded back are the same two digits |

## Left out

- The HTTP client and the backend: each call is a parameter (its result, or whether it succeeded).
- Concurrency: `Promise.all`, and handlers interleaving across awaits, are taken as sequential. For example, a draft edited while its publish is in flight is not modelled.
- The fetch of all students on the teacher dashboard feeds only the add-student modal, which is not part of this model.
- Aggregation.Percent: floating-point `Math.round` is modelled exactly over the integers. A quotient that lands on a half only through rounding error is not modelled.
- Dates and times: `new Date()`, `toLocaleDateString`, `dayjs` and the range arithmetic in `loadMonth` are not modelled. `DateOnly` takes the calendar fields, and the no-school dates arrive as ISO strings.
- Browser calls: `window.confirm` is a boolean parameter and `window.innerWidth` an integer. `alert`, `console`, `window.location.reload`, the resize listeners and the `setTimeout` delay are not modelled; the timer's effect on the saved message is `ClearSavedMessage`.
- CreateClass.ParseNumber: follows `Number()` only for blank text and plain decimal digits. Signs, decimals, exponents and hex come out as NaN here.
- CreateClass.ParseNumber and CreateClass.NumText: the numbers are unbounded naturals. JavaScript numbers are exact only below 2^53, and from 1e21 on `toString` prints exponent form ("1e+21"); neither is modelled.
- IbadahGoals.NormalizeStudent: the raw goals are taken to be JSON numbers, on which `Number(...)` is the identity. A goal sent as a numeric string is not converted, and a non-numeric one does not become NaN (which would then propagate into the remaining counts).
- IbadahGoals.NormalizeDaily: the same holds for the three done counts and the student id: `Number(...)` is taken as the identity on JSON numbers.
- ViewDates.SuccessfulSaveLeavesNothingPending and ViewDates.FindByIdUnique: require unique row ids, as the attendance table's primary key gives. With duplicate ids, `.find` compares every duplicate with the first baseline row, so changes can still be reported after a successful save; FindByIdFirst states which row is found in that case.
- Text.Trim: removes ASCII whitespace only, not the other Unicode spaces JavaScript's `trim` removes.
- Text.ToLower: lowers ASCII letters only.
- Text.SplitTwo: returns only the first two pieces of `split`, the only ones the formatter reads.
- IbadahGoals.ClampInt: takes the already-converted number (a finite real or non-finite). The text-to-number conversion of the input is not modelled.
- IbadahGoals.GoalsPage.LoadStudentsAndProgress: student ids are taken as numbers already, so `Number(s.id)` is not modelled. `String(...)` coercion of non-string names is not modelled either.
- TeacherDashboard.Dashboard.HandleTabChange: requires a non-negative tab index.
- Rendering: JSX, styles, and the dialogs' open and close wiring are not modelled.
- Other pages and modals are not part of this model: attendance taking, student dashboard, teacher login, edit/add/create student, edit class.
