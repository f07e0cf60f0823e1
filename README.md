# AI-Proctoring, modelled in Dafny

A model of the proctoring and grading core of the AI-Proctoring exam
application: a React client that watches a student through the webcam while
they answer multiple-choice and coding questions, and an Express/MongoDB
server that stores cheating logs, results, coding questions and integrity
reports.

What the model covers, module by module:

- `CheatingLog` (cheating_log.dfy): the client's cheating log, its merge and
  reset rules, and the provider that holds it.
- `WebCam` (webcam.dfy): per-frame classification of detector labels, the
  3000 ms per-type cooldown, evidence capture, focus-loss counting and the
  data-URL to file conversion.
- `TestPage`, `Mcq`, `QuestionPanel`, `Coder` (test_page.dfy, mcq.dfy,
  question_panel.dfy, coder.dfy): the exam pages. This covers the
  double-submit guard, the order "save the log, then request the report",
  the multiple-choice state machine, the countdown and the code runner routing.
- `ReportUtils`, `ProctoringReport`, `ReportApi`, `ReportView`
  (report_request.dfy, proctoring_report.dfy, report_api.dfy,
  report_view.dfy): the integrity report. This covers the request the client
  builds, the score the server computes, the report store, the client's URLs
  and the text report and table that show a report.
- `CheatingLogStore`, `CheatingTable` (cheating_log_store.dfy,
  cheating_table.dfy): the server's log collection and the teachers' log table.
- `Results`, `ResultPage` (results.dfy, result_page.dfy): marking,
  visibility, the three result listings and the results page.
- `Coding`, `CreateExam` (coding.dfy, create_exam.dfy): the
  one-question-per-exam coding registry and the teacher's exam form.
- `Routes` (routes.dfy): the three routers as the server mounts them, with
  Express's first-match dispatch and the `protect` guard.
- `Common` (common.dfy): shared value types and the JavaScript string and
  number behaviour the code relies on.

State that the source updates in place is kept in classes:

- the log provider and the webcam monitor;
- the exam page, the multiple-choice panel, the countdown, the coding page
  and the exam form;
- the four server collections.

Their methods carry `modifies` frames and state the whole new state.
Effects that leave the page (toasts, navigation, alerts) are recorded as a
trace. The following are method parameters:

- the outcomes of network calls, the detector, the camera and the upload
  service;
- the clock and `atob`.

Collections are sequences in insertion order, and document ids are
positions. Values the source coerces (`x || 0`, `parseInt(x) || 0`,
`a || b`) are written out. JavaScript's truncating `%` and `Math.round` on
integer milliseconds are modelled explicitly.

## Model

| member | source | states |
|---|---|---|
| CheatingLog.CountOf | frontend/src/context/CheatingLogContext.jsx:35-41 | a count reads as its value when truthy and as 0 when absent or zero |
| CheatingLog.InitialLog | frontend/src/context/CheatingLogContext.jsx:8-17 | all five counts are 0, examId is '', username and email come from the user or are ''; no screenshots field; the log invariant holds |
| CheatingLog.WithUser | frontend/src/context/CheatingLogContext.jsx:19-27 | a new user replaces username and email and nothing else |
| CheatingLog.Merge | frontend/src/context/CheatingLogContext.jsx:29-45 | every count is present afterwards; a truthy update count wins, otherwise the previous count (or 0) is kept; every other field takes the update's value when the update has it |
| CheatingLog.MergeKeepsNonZero | frontend/src/context/CheatingLogContext.jsx:35-41 | a zero or missing update count never overwrites a non-zero count |
| CheatingLog.MergeIsNeitherSumNorMax | frontend/src/context/CheatingLogContext.jsx:35-41 | a smaller non-zero update count replaces a larger one: the merge is neither a sum nor a maximum |
| CheatingLog.MergeIdempotent | frontend/src/context/CheatingLogContext.jsx:29-45 | applying the same update twice gives the same log as applying it once |
| CheatingLog.MergeEmpty | frontend/src/context/CheatingLogContext.jsx:32-42 | an update with no fields keeps every field and only coerces the counts |
| CheatingLog.ResetLog | frontend/src/context/CheatingLogContext.jsx:48-61 | all counts 0, the given examId, the user's name and email or '', no screenshots field; the log invariant holds |
| CheatingLog.Provider.constructor | frontend/src/context/CheatingLogContext.jsx:6-17 | the provider starts with the initial log of the signed-in user |
| CheatingLog.Provider.SetUserInfo | frontend/src/context/CheatingLogContext.jsx:19-27 | a signed-in user changes only the log's username and email; signing out leaves the log as it is |
| CheatingLog.Provider.Update | frontend/src/context/CheatingLogContext.jsx:29-46 | the new log is the merge of the old log with the update |
| CheatingLog.Provider.Reset | frontend/src/context/CheatingLogContext.jsx:48-61 | the new log is the reset log for the exam and the current user |
| CheatingLog.UseCheatingLog | frontend/src/context/CheatingLogContext.jsx:70-76 | fails with the provider message exactly when there is no provider, and yields the provider otherwise |
| CheatingLogStore.ToStored | backend/controllers/cheatingLogController.js:32-42 | the four detector counts are stored as received, present or absent; the focus count defaults to 0 and screenshots to []; exam and user fields are copied |
| CheatingLogStore.StoredDefaults | backend/controllers/cheatingLogController.js:37-41 | a body without a focus count and without screenshots is stored with 0 and [] |
| CheatingLogStore.LogsOfExam | backend/controllers/cheatingLogController.js:58-63 | the listing holds exactly the logs whose examId equals the parameter, each as often as stored, and no other |
| CheatingLogStore.LogsOfExamAppend | backend/controllers/cheatingLogController.js:58-63 | after a save the listing is the old listing followed by the new log when it belongs to the exam |
| CheatingLogStore.LogStore.constructor | backend/controllers/cheatingLogController.js:32-44 | the collection starts empty |
| CheatingLogStore.LogStore.Save | backend/controllers/cheatingLogController.js:32-53 | a successful save appends one new document and answers 201 with it; a failed write stores nothing |
| CheatingLogStore.LogStore.ByExam | backend/controllers/cheatingLogController.js:58-63 | answers 200 with exactly the exam's logs, [] when there are none |
| CheatingLogStore.TwoSavesBothListed | backend/controllers/cheatingLogController.js:32-63 | two saves for the same exam are both listed afterwards, after the earlier logs: nothing is merged or overwritten |
| CheatingLogStore.Received | backend/controllers/cheatingLogController.js:32-36 | a count is kept as received: present exactly when sent, with the sent value |
| CheatingTable.LoadRows | frontend/src/views/teacher/components/CheatingTable.jsx:41-60 | once exams load, the rows are those of the first exam's logs as the server lists them by examId, under the filter; nothing is listed when there is no exam or its examId is missing or empty |
| CheatingTable.ShownLogsOfExam | frontend/src/views/teacher/components/CheatingTable.jsx:41-66 | the logs behind the rows are exactly the stored logs of the queried exam that pass the filter, each as often as it is stored |
| CheatingTable.Filtered | frontend/src/views/teacher/components/CheatingTable.jsx:62-66 | every kept log matches the filter on its lower-cased username or email, and every matching log is kept as often as it occurs |
| CheatingTable.FilteredPreservesOrder | frontend/src/views/teacher/components/CheatingTable.jsx:62-66 | filtering a list extended by one log extends the filtered list by that log when it matches: the table's order is kept |
| CheatingTable.FilterIgnoresCase | frontend/src/views/teacher/components/CheatingTable.jsx:64-65 | a filter and its lower-cased form keep the same logs |
| CheatingTable.EmptyFilterKeepsIdentified | frontend/src/views/teacher/components/CheatingTable.jsx:62-66 | with an empty filter a log is shown exactly when it has a username or an email |
| CheatingTable.IconMatchesColor | frontend/src/views/teacher/components/CheatingTable.jsx:78-88 | error exactly above 5, warning exactly from 3 to 5, success otherwise; the icon is absent exactly when the colour is success and otherwise has that colour |
| CheatingTable.Rows | frontend/src/views/teacher/components/CheatingTable.jsx:179-222 | one row per kept log, in order, numbered from 1, each count graded by the violation colour, the screenshot button disabled exactly when the log has no screenshots |
| WebCam.OnLabel | frontend/src/views/student/Components/WebCam.jsx:182-194 | one detected object raises cellPhone for a phone, prohibitedObject for a book or laptop, multipleFace for every person after the first, and counts persons |
| WebCam.Classify | frontend/src/views/student/Components/WebCam.jsx:179-196 | the signals of a frame, in the order `handleDetection` is called, are the frame's signal sequence: the left-to-right scan, then noFace when no person was seen |
| WebCam.ScanCellPhones | frontend/src/views/student/Components/WebCam.jsx:186 | the scan raises cellPhone once per "cell phone" label |
| WebCam.ScanProhibitedObjects | frontend/src/views/student/Components/WebCam.jsx:187-188 | the scan raises prohibitedObject once per "book" or "laptop" label |
| WebCam.ScanMultipleFaces | frontend/src/views/student/Components/WebCam.jsx:189-193 | the scan raises multipleFace once for every person after the first |
| WebCam.ScanNoFace | frontend/src/views/student/Components/WebCam.jsx:182-194 | the scan itself never raises noFace |
| WebCam.FrameSignalCounts | frontend/src/views/student/Components/WebCam.jsx:179-196 | noFace is raised exactly when no person is seen, multipleFace (persons - 1) times, cellPhone once per phone, prohibitedObject once per book or laptop; noFace and multipleFace never come from one frame |
| WebCam.Capture | frontend/src/views/student/Components/WebCam.jsx:67-108 | a screenshot record exists exactly when the video is present, has readyState 4 and non-zero dimensions, and the upload returned a URL; it carries that URL, the type and the time |
| WebCam.DetectionMerge | frontend/src/views/student/Components/WebCam.jsx:120-130 | merging the detection update raises the type's count by one, leaves the other counts, appends the screenshot, and keeps the log invariant |
| WebCam.FocusMerge | frontend/src/views/student/Components/WebCam.jsx:33-41 | merging the focus update raises the focus count by one and changes no other count and no screenshot |
| WebCam.Monitor.constructor | frontend/src/views/student/Components/WebCam.jsx:15-27 | an empty cooldown map, and the focus count taken from the log when truthy |
| WebCam.Monitor.HandleDetection | frontend/src/views/student/Components/WebCam.jsx:110-149 | a signal is acted on exactly when at least 3000 ms passed since the type's last time (0 when never seen); acting sets that type's time alone and shows the type's alert; the count rises by one and the screenshot is appended only when a screenshot was captured, keeping the log's examId, username and email; a suppressed signal changes nothing; the focus count and the signed-in user are untouched |
| WebCam.Monitor.HandleVisibilityChange | frontend/src/views/student/Components/WebCam.jsx:31-44 | a hidden document raises the focus count by exactly one, leaves the other counts, the screenshots, the examId, username and email, and shows the focus alert; becoming visible changes nothing |
| WebCam.Monitor.HandleBlur | frontend/src/views/student/Components/WebCam.jsx:46-56 | every blur raises the focus count by exactly one, with no cooldown and no alert, and leaves the other counts, the screenshots, the examId, username and email |
| WebCam.Monitor.DetectTick | frontend/src/views/student/Components/WebCam.jsx:162-201 | a frame is classified only when the video has readyState 4; then exactly the signalled types whose cooldown had passed act, in the order of their first signals: each takes the tick's time, its alert is appended, and its count rises by one when its first signal's capture produced a screenshot; every other type keeps its time and count, the focus count is kept, the screenshots of those successful captures are appended in order, and examId, username, email and the signed-in user are kept |
| WebCam.Monitor.ActOnSignals | frontend/src/views/student/Components/WebCam.jsx:182-196 | handling a frame's signals one after another leaves the cooldown map, the counts and the alerts as the tick's frame states them: the acting types take the tick's time, gain one count per successful first capture, and show their alerts in order |
| WebCam.CountsStep | frontend/src/views/student/Components/WebCam.jsx:120-130 | after one more detection each type's count is its count at the start of the tick plus its gain, and the focus count is unchanged |
| WebCam.ActedIff | frontend/src/views/student/Components/WebCam.jsx:110-118 | a type is among those acting in a tick exactly when it was signalled and its cooldown had passed when the tick began |
| WebCam.ActedDistinct | frontend/src/views/student/Components/WebCam.jsx:110-118 | no type acts twice in one tick |
| WebCam.ActsStep | frontend/src/views/student/Components/WebCam.jsx:110-118 | a signal acts exactly when its type was not signalled earlier in the tick and its cooldown had passed when the tick began |
| WebCam.GainStep | frontend/src/views/student/Components/WebCam.jsx:120-130 | after one more signal the earlier types keep their gains and the signal's type gains one when it acted with a capture |
| WebCam.EvidenceStep | frontend/src/views/student/Components/WebCam.jsx:117-129 | after one more signal the log's screenshots are those at the start of the tick followed by the acting types' captured screenshots, in order |
| WebCam.AlertsStep | frontend/src/views/student/Components/WebCam.jsx:132-147 | after one more signal the alerts are the tick's acting types' titles, in order |
| WebCam.TickFrameStep | frontend/src/views/student/Components/WebCam.jsx:110-149 | one more `handleDetection` keeps the tick in its frame: a signal acts exactly when its type was not signalled earlier in the tick and its cooldown had passed when the tick began |
| WebCam.LazyToSemicolon | frontend/src/views/student/Components/WebCam.jsx:245 | the lazy `(.*?);` from one position: the text before the next ';', which holds no ';' and no line terminator |
| WebCam.LazyNoneIff | frontend/src/views/student/Components/WebCam.jsx:245 | the lazy scan fails exactly when a line terminator precedes every ';' of the text |
| WebCam.MimeOf | frontend/src/views/student/Components/WebCam.jsx:245 | a media type read by `/:(.*?);/` never holds a ';' or a line terminator |
| WebCam.MimeOfFirstColon | frontend/src/views/student/Components/WebCam.jsx:245 | the match is null exactly when no ':' is followed by a ';' without a line terminator between; otherwise it is taken at the first ':' that is |
| WebCam.MimeOfRetries | frontend/src/views/student/Components/WebCam.jsx:245 | a ':' whose scan fails does not end the search: the match is the one of the text after it |
| WebCam.MimeOfDataHeader | frontend/src/views/student/Components/WebCam.jsx:244-245 | the header of a data URL "data:<mime>;..." yields exactly its media type when that has no ';' and no line terminator (section 3 of RFC 2397) |
| WebCam.LineTerminatorBreaksMime | frontend/src/views/student/Components/WebCam.jsx:244-245 | a media type holding a line terminator, with no later ':' to retry at, gives a null match, so the source throws and no file is made |
| WebCam.FillBytes | frontend/src/views/student/Components/WebCam.jsx:247-249 | a fresh byte array as long as the decoded string, byte i being character code i reduced to 8 bits |
| WebCam.DataUrlToFile | frontend/src/views/student/Components/WebCam.jsx:243-251 | a file exists exactly when the header has a media type and the payload decoded; it has that type, the given name, and one byte per decoded character |
| WebCam.LabelSignalCounts | frontend/src/views/student/Components/WebCam.jsx:182-194 | one label gives one cell-phone signal for "cell phone", one prohibited-object signal for "book" or "laptop", one multiple-face signal for a person after the first, and never a no-face signal |
| TestPage.FindExam | frontend/src/views/student/TestPage.jsx:28-38 | the index of the first exam whose examId equals the route's, or none when no exam has it |
| TestPage.ForSubmission | frontend/src/views/student/TestPage.jsx:69-79 | the submitted log carries the user's name and email and the route's examId, all five counts coerced (a missing count becomes 0), and the screenshots unchanged; it keeps the log invariant |
| TestPage.SubmittedLogComplete | frontend/src/views/student/TestPage.jsx:69-84 | the stored document of a submission holds all five counts as the page counted them and the page's exam |
| TestPage.ExamPage.constructor | frontend/src/views/student/TestPage.jsx:16-26 | no exam selected, duration 0, not submitting, multiple-choice part not done, score 0 |
| TestPage.ExamPage.ExamsLoaded | frontend/src/views/student/TestPage.jsx:28-38 | when the route's exam is listed it becomes the selected exam and its duration is passed on unchanged; otherwise nothing changes |
| TestPage.ExamPage.SaveUserTestScore | frontend/src/views/student/TestPage.jsx:109-111 | the score rises by exactly one |
| TestPage.ExamPage.McqCompletion | frontend/src/views/student/TestPage.jsx:55-60 | marks the multiple-choice part done, resets the log to this exam and navigates to the coding page |
| TestPage.ExamPage.BeginSubmission | frontend/src/views/student/TestPage.jsx:62-79 | a call while submitting does nothing; without a user the error is shown and the flag cleared; otherwise the flag is set and the normalised log is built |
| TestPage.ExamPage.CompleteSubmission | frontend/src/views/student/TestPage.jsx:84-106 | a failed save shows the message and neither navigates nor requests a report; a successful save stores the log once, requests the report only when the exam was found, then shows success and navigates to /Success; the flag is cleared on every path |
| TestPage.ExamPage.SubmitTest | frontend/src/views/student/TestPage.jsx:55-107 | until the multiple-choice part is done the submit action resets the log and opens the coding page; afterwards it is the final submission, which saves the normalised log once |
| TestPage.DoubleClickSavesOnce | frontend/src/views/student/TestPage.jsx:62-66 | a second click while the first submission waits saves nothing more: one stored log, one success |
| Coder.RunnerUrl | frontend/src/views/student/Coder.jsx:76-90 | python, java and javascript go to their own runner endpoint; any other language sends nothing |
| Coder.RunnersAndSchemaAgree | frontend/src/views/student/Coder.jsx:78-90 | every menu language has a runner and passes the server's language enum; of the server's languages only cpp has no runner |
| Coder.SubmissionLog | frontend/src/views/student/Coder.jsx:131-141 | the user and the route's exam are set, the four detector counts are coerced (missing becomes 0), screenshots default to [], and the focus count passes through as it is, present or absent |
| Coder.SameStoredDocument | frontend/src/views/student/Coder.jsx:131-146 | the coding page's log and the exam page's log for the same state become the same stored document |
| Coder.CoderPage.constructor | frontend/src/views/student/Coder.jsx:22-33 | default code, javascript, no output, no question yet, loading |
| Coder.CoderPage.UserEffect | frontend/src/views/student/Coder.jsx:35-43 | the updater function adds no field to the merge: the log's username, email and examId are not changed by the effect |
| Coder.CoderPage.FetchQuestion | frontend/src/views/student/Coder.jsx:45-74 | with an exam id, the exam's question becomes the page's question and id and seeds the editor; without a question the server's message is shown; loading ends either way; without an exam id nothing happens |
| Coder.CoderPage.Edit | frontend/src/views/student/Coder.jsx:23 | the editor holds the typed code |
| Coder.CoderPage.ChooseLanguage | frontend/src/views/student/Coder.jsx:24 | the chosen menu language becomes the page's language |
| Coder.CoderPage.RunCode | frontend/src/views/student/Coder.jsx:76-100 | the request goes to the language's runner, which every menu language has; its reply becomes the output, and a failed run shows "Error running code." |
| Coder.CoderPage.HandleSubmit | frontend/src/views/student/Coder.jsx:102-166 | without a loaded question an error is shown and nothing is sent; the log is saved only after the answer was accepted, and then the page goes to /success whether or not the log save (or reading the user) fails; a rejected answer shows the server's message and saves nothing |
| Coder.CoderPage.SaveLogAndLeave | frontend/src/views/student/Coder.jsx:129-155 | with a user and a successful save the log is stored once and success is shown; otherwise nothing is stored and the monitoring-log failure is shown; both navigate to /success |
| Coder.SubmitAccepted | frontend/src/views/student/Coder.jsx:102-155 | an accepted submission by a signed-in user stores the log once and shows success, and the answer stays acceptable |
| Coder.SubmitTwiceSavesTwice | frontend/src/views/student/Coder.jsx:102-166 | the page has no submission guard: two clicks store the log twice and show success twice |
| ReportUtils.ExamKey | frontend/src/utils/proctoringReportUtils.js:18 | the exam's examId when truthy, else its `_id` |
| ReportUtils.BuildRequest | frontend/src/utils/proctoringReportUtils.js:13-22 | a request exists exactly when a user is signed in; it carries the user's name and email, the exam key, the given start time, the end time, and the log's focus count or 0 |
| ReportUtils.RequestIgnoresDetectorCounts | frontend/src/utils/proctoringReportUtils.js:15-22 | two logs with the same focus count give the same request: none of the four detector counts is sent |
| ReportUtils.SubmissionRequestValid | frontend/src/utils/proctoringReportUtils.js:15-22 | a signed-in user with a name and email and an exam with a key always give a request the server accepts; the stored report carries the focus count, the exam key and the score max(0, 74 - 2 x focus) |
| ReportUtils.GenerateOnSubmission | frontend/src/utils/proctoringReportUtils.js:4-39 | the result is the stored report exactly when a user is signed in, the request passes validation and the write succeeds; any failure yields none, stores nothing and is not raised |
| ProctoringReport.DurationMinutes | backend/controllers/proctoringReportController.js:14 | the duration is the whole number of minutes nearest to end minus start, halves rounding up; a negative span is not rejected |
| ProctoringReport.DurationExamples | backend/controllers/proctoringReportController.js:14 | ninety minutes give 90, half a minute rounds up to 1, just under half a minute gives 0 |
| ProctoringReport.ScoreClosedForm | backend/controllers/proctoringReportController.js:17-34 | with the fixed events 26 points are always deducted: the score is 74 - 2 x focus floored at 0, reaches 0 exactly from 37 focus losses on, and lies in [0, 74] for a non-negative count |
| ProctoringReport.ScoreAntitone | backend/controllers/proctoringReportController.js:25-34 | more focus losses never raise the score |
| ProctoringReport.ValidationErrors | backend/models/proctoringReportModel.js:3-19 | a request fails validation exactly when the name, the email or the exam id is missing or empty, or a time is missing; only required paths are named |
| ProctoringReport.BuildReport | backend/controllers/proctoringReportController.js:11-47 | the report copies name, email, exam, start and end time, names the exam "Exam " + examId, rounds the duration to minutes, records the fixed events whatever the request held, stores a missing focus count as 0, and scores max(0, 74 - 2 x focus) |
| ProctoringReport.GeneratedScoreBelowDefault | backend/models/proctoringReportModel.js:17 | a generated report never reaches the schema's default score of 100: it scores at most 74 |
| ProctoringReport.FirstMatch | backend/controllers/proctoringReportController.js:66 | the first report of the candidate in the exam in insertion order, or none when there is none |
| ProctoringReport.FirstMatchStable | backend/controllers/proctoringReportController.js:50-51 | another report for the same candidate and exam does not change which report the lookup returns |
| ProctoringReport.OfExam | backend/controllers/proctoringReportController.js:83 | exactly the reports whose exam id matches, each as often as stored |
| ProctoringReport.ReportStore.constructor | backend/models/proctoringReportModel.js:3-24 | the collection starts empty |
| ProctoringReport.ReportStore.Generate | backend/controllers/proctoringReportController.js:8-58 | a valid request whose write succeeds appends the built report and answers 201 with it, with no check for an existing (exam, candidate) pair; a validation or write failure answers 500 and stores nothing |
| ProctoringReport.ReportStore.Find | backend/controllers/proctoringReportController.js:63-74 | 200 exactly when a report of the candidate in the exam exists, with the earliest stored such report (`FirstMatch`), otherwise 404 "Report not found" |
| ProctoringReport.ReportStore.ByExam | backend/controllers/proctoringReportController.js:79-89 | always 200: every report of the exam, or [] when the query fails |
| Routes.MatchPattern | backend/routes/codingRoutes.js:16-23 | a pattern matches only a path of its own length whose literal segments agree and whose parameter segments are non-empty |
| Routes.FirstRoute | backend/routes/proctoringReportRoutes.js:11-13 | the route chosen has the request's verb and matches its path, and when none is chosen no route of that verb matches |
| Routes.FirstRouteAt | backend/routes/proctoringReportRoutes.js:11-13 | routes are tried in declaration order: the chosen route is the first of the request's verb that matches |
| Routes.DispatchNeedsAuth | backend/routes/resultRoutes.js:14 | when every router is guarded as a whole or route by route, no unauthenticated request reaches a handler |
| Routes.AppNeedsAuth | backend/server.js:85-87 | no unauthenticated request reaches any handler of the three routers |
| Routes.DispatchApp | backend/server.js:85-87 | the application's answer is the first answer of the result, coding and report routers in mounting order, else 404 |
| Routes.UsersPath | backend/routes/resultRoutes.js:14-32 | in the modelled three-router application, a request under /api/users is answered by the result router alone: 401 without authentication, else its first matching route, else 404 |
| Routes.ReportPath | backend/routes/proctoringReportRoutes.js:11-13 | a request under /api/proctoring-report is answered by the report router alone, each route checking authentication on its own |
| Routes.CodingPath | backend/routes/codingRoutes.js:14-23 | a request under /api/coding is answered by the coding router alone: 401 without authentication, else its first matching route, else 404 |
| Routes.ReportFirstRouteNeverByExam | backend/routes/proctoringReportRoutes.js:12-13 | whatever the by-exam route matches, the two-parameter route declared before it matches first |
| Routes.ReportsByExamShadowed | backend/routes/proctoringReportRoutes.js:12-13 | GET /api/proctoring-report/exam/<id> reaches the single-report lookup with examId "exam" and candidateEmail the id |
| Routes.RouterNeverHandles | backend/server.js:85-87 | a router never hands a request to a handler none of its routes names |
| Routes.OtherRoutersNeverByExam | backend/server.js:85-86 | neither the result router nor the coding router ever answers with the by-exam report handler |
| Routes.ReportRouterNeverByExam | backend/routes/proctoringReportRoutes.js:12-13 | the report router never answers with its by-exam handler |
| Routes.ReportsByExamUnreachable | backend/routes/proctoringReportRoutes.js:13 | no request, authenticated or not, ever reaches `getProctoringReportsByExam` |
| Routes.CodingByExamReachable | backend/routes/codingRoutes.js:18 | GET /api/coding/questions/exam/<id> reaches the by-exam lookup, since `/questions/:id` binds one segment and is declared later |
| Routes.ResultGuardCoversUnknownPaths | backend/routes/resultRoutes.js:14 | in the modelled three-router application, the result router's guard answers 401 to an unauthenticated request for any path under its mount point |
| Routes.ReportUnknownPathNotFound | backend/routes/proctoringReportRoutes.js:11-13 | the report router has no router-wide guard: an unauthenticated request for a path it has no route for ends in 404 |
| Routes.MatchOneLit | backend/routes/resultRoutes.js:17 | a one-literal pattern matches exactly its literal |
| Routes.MatchTwoLits | backend/routes/resultRoutes.js:20 | a two-literal pattern matches exactly those two segments |
| Routes.MatchLitParam | backend/routes/codingRoutes.js:23 | a literal followed by a parameter binds the parameter |
| Routes.MatchLitLitParam | backend/routes/resultRoutes.js:23 | two literals followed by a parameter bind the parameter |
| Routes.SaveResultReached | backend/routes/resultRoutes.js:17 | POST /api/users/results reaches `saveResult` |
| Routes.AllResultsReached | backend/routes/resultRoutes.js:20 | GET /api/users/results/all reaches `getAllResults` |
| Routes.ExamResultsReached | backend/routes/resultRoutes.js:23 | GET /api/users/results/exam/<id> reaches `getResultsByExamId` with that id |
| Routes.UserResultsReached | backend/routes/resultRoutes.js:26 | GET /api/users/results/user reaches `getUserResults`: no one-parameter GET route shadows it |
| Routes.TogglePatternMatches | backend/routes/resultRoutes.js:29-32 | the toggle pattern binds the result id |
| Routes.ToggleReached | backend/routes/resultRoutes.js:29-32 | PUT /api/users/results/<id>/toggle-visibility reaches `toggleResultVisibility` with that id |
| Routes.SubmitCodingReached | backend/routes/codingRoutes.js:17 | POST /api/coding/submit reaches `submitCodingAnswer` |
| Routes.CreateCodingReached | backend/routes/codingRoutes.js:21 | POST /api/coding/question reaches `createCodingQuestion` |
| Routes.CodingListReached | backend/routes/codingRoutes.js:22 | GET /api/coding/questions reaches `getCodingQuestions` for any authenticated user: there is no role check |
| Routes.CodingByIdReached | backend/routes/codingRoutes.js:23 | GET /api/coding/questions/<id> reaches `getCodingQuestion` with that id |
| Routes.SplitJoin | frontend/src/slices/proctoringReportApiSlice.js:14-23 | splitting undoes joining with '/' when no segment contains a '/' |
| Routes.PathOfUrl | frontend/src/slices/proctoringReportApiSlice.js:14-23 | the server reads back the segments the client joined into a URL, when none contains a '/' |
| Routes.ReportUrlOf | frontend/src/slices/proctoringReportApiSlice.js:3-23 | the report base URL and its two-segment extension are exactly "/api/proctoring-report" and ".../a/b" |
| Routes.MatchTwoParams | backend/routes/proctoringReportRoutes.js:12 | a pattern of two parameters matches any two non-empty segments and binds each name to its segment |
| ReportApi.GenerateCall | frontend/src/slices/proctoringReportApiSlice.js:7-13 | generation POSTs to the base URL, whose path is /api/proctoring-report |
| ReportApi.GetReportCall | frontend/src/slices/proctoringReportApiSlice.js:14-18 | the single-report lookup uses the default GET on base/examId/candidateEmail; with neither segment containing a '/', the server reads back exactly those two segments (nothing is encoded) |
| ReportApi.ReportsByExamCall | frontend/src/slices/proctoringReportApiSlice.js:19-23 | the by-exam lookup uses the default GET on base/exam/examId, a path of two segments after the base |
| ReportApi.GenerateReachesHandler | frontend/src/slices/proctoringReportApiSlice.js:7-13 | the generate call reaches `generateProctoringReport` for a signed-in user |
| ReportApi.GetReportReachesHandler | frontend/src/slices/proctoringReportApiSlice.js:14-18 | the single-report call reaches `getProctoringReport` with both parameters bound |
| ReportApi.ReportsByExamCallMisrouted | frontend/src/slices/proctoringReportApiSlice.js:19-23 | the by-exam call is answered by the single-report lookup for exam "exam" and the candidate whose email is the exam id |
| ReportView.FormatDurationShort | frontend/src/utils/pdfGenerator.js:3-7 | under an hour only the minutes are shown; a negative duration shows the truncated remainder, which lies in (-60, 0] |
| ReportView.FormatDurationReadsBack | frontend/src/utils/pdfGenerator.js:3-7 | from an hour on, the printed hours times 60 plus the printed minutes give the duration back, with minutes below 60 and at least one hour |
| ReportView.BandOf | frontend/src/utils/pdfGenerator.js:9-13 | EXCELLENT exactly from 80, GOOD exactly from 60 below 80, NEEDS ATTENTION exactly below 60 |
| ReportView.GradesAgree | frontend/src/views/teacher/components/ProctoringReportTable.jsx:19-23 | the table chip is success, warning or error exactly when the text report says EXCELLENT, GOOD or NEEDS ATTENTION; the recommendations have two lines for EXCELLENT and three otherwise |
| ReportView.GeneratedGrade | frontend/src/utils/pdfGenerator.js:83-94 | a generated report never grades EXCELLENT, and grades GOOD exactly when at most 7 focus losses were counted |
| ReportView.Deductions | frontend/src/utils/pdfGenerator.js:16-22 | five deductions, one per category, with weights 2, 10, 3, 15, 10 |
| ReportView.PdfTotalIsServerTotal | frontend/src/utils/pdfGenerator.js:16-24 | the printed total of deductions is the total the server computed the score from |
| ReportView.SummaryTotalsAgree | frontend/src/utils/pdfGenerator.js:59-64 | for a report whose score follows from its own counts, 100 minus the printed total, at least 0, is the printed (stored, not recomputed) final score |
| ReportView.PdfTotalsAgree | frontend/src/utils/pdfGenerator.js:16-64 | every generated report prints a final score equal to 100 minus its printed total, at least 0 |
| ReportView.Underscore | frontend/src/utils/pdfGenerator.js:108 | the result contains no whitespace and is no longer than the input |
| ReportView.UnderscoreKeepsPlainText | frontend/src/utils/pdfGenerator.js:108 | text without whitespace is kept as it is |
| ReportView.UnderscoreCollapsesRun | frontend/src/utils/pdfGenerator.js:108 | a run of whitespace, however long, becomes one '_' |
| ReportView.FileName | frontend/src/utils/pdfGenerator.js:108 | the download name starts with "Proctoring_Report_", ends in the ISO date and ".txt", and nothing before the date contains whitespace |
| ReportView.FileNameOfPlainNames | frontend/src/utils/pdfGenerator.js:108 | a candidate and an exam name without whitespace appear in the download name as they are, each followed by '_' |
| ReportView.Rows | frontend/src/views/teacher/components/ProctoringReportTable.jsx:48-72 | exactly one row per report, in input order, each showing the report's counts and score as stored |
| ReportView.RowAgreesWithPdf | frontend/src/views/teacher/components/ProctoringReportTable.jsx:25-69 | a row shows the same name, email and duration as the text report, and its chip grades the score as the text report does |
| Results.MarksOf | backend/controllers/resultController.js:29 | a question's mark is its `ansmarks`, or 1 when that is missing or 0 |
| Results.FirstCorrect | backend/controllers/resultController.js:27 | the index of the first option flagged correct, or None exactly when no option is |
| Results.Mark | backend/controllers/resultController.js:20-33 | the marking loop sums the marks of, and counts, exactly the questions answered with the id of their first correct option, never more than there are questions |
| Results.MarksCoverCorrect | backend/controllers/resultController.js:24-33 | with no negative marks, the total mark is at least the number of correct answers |
| Results.UnansweredScoresNothing | backend/controllers/resultController.js:25-26 | missing and empty answers score neither marks nor correct answers |
| Results.AllRightScoresAll | backend/controllers/resultController.js:24-33 | answering every question correctly counts every question |
| Results.Percentage | backend/controllers/resultController.js:36-38 | the percentage lies in [0, 100]; it is 100 exactly when there are questions and all are correct, and 0 exactly when none is correct (including an exam without questions) |
| Results.QuestionsOf | backend/controllers/resultController.js:18 | exactly the bank's questions of the exam, each as often as in the bank |
| Results.NewResult | backend/controllers/resultController.js:40-47 | the created result is hidden from the student, carries the marks and percentage of the exam's questions, and the schema defaults (backend/models/resultModel.js:29-44) |
| Results.Toggled | backend/controllers/resultController.js:148 | only the chosen result changes, and only its visibility, which is negated |
| Results.ToggleTwice | backend/controllers/resultController.js:148 | toggling twice restores the results |
| Results.NoSubmissionAttributed | backend/controllers/resultController.js:73-85 | stored coding answers carry no submitter, so the join attributes no submission to any student |
| Results.CodingOfExam | backend/controllers/resultController.js:67-69 | exactly the coding questions of the exam, each as often as stored |
| Results.VisibleTo | backend/controllers/resultController.js:103-106 | every result of the user marked visible, as often as stored, and nothing else |
| Results.ResultsOfExam | backend/controllers/resultController.js:62 | every result of the exam, as often as stored, and nothing else |
| Results.ResultStore.constructor | backend/models/resultModel.js:3-56 | an empty collection whose ids are positions |
| Results.ResultStore.Save | backend/controllers/resultController.js:9-53 | 400 with "Please provide examId and answers" and nothing stored when either is missing; otherwise the marked, hidden result is appended and returned with 201 |
| Results.ResultStore.Toggle | backend/controllers/resultController.js:139-155 | 404 "Result not found" for an unknown id; otherwise that result's visibility is negated and the updated result returned with 200 |
| Results.ResultStore.UserResults | backend/controllers/resultController.js:102-134 | the student's visible results, newest first, each with its exam's coding submissions attributed to the student; every listed result is the student's, visible, with no submission, the filter on the undeclared submitter path matching no answer |
| Results.ResultStore.ExamResults | backend/controllers/resultController.js:58-97 | the exam's results, newest first, each joined with the exam's coding submissions of its student; every one is of that exam, with no submission |
| Results.ResultStore.AllResults | backend/controllers/resultController.js:160-202 | 403 exactly for a role other than teacher; a teacher gets every result, newest first, joined with all coding submissions of its student |
| Results.HiddenUntilToggled | backend/controllers/resultController.js:40-155 | a result just saved is missing from its student's listing, and after one toggle the listing shows it as visible |
| ResultPage.FetchedOf | frontend/src/views/student/ResultPage.jsx:70-76 | the page keeps the result's exam, percentage, marks, visibility and submissions; the student is populated exactly when the user exists, and is then that user |
| ResultPage.FetchedAll | frontend/src/views/student/ResultPage.jsx:70-76 | one fetched result per listed result, in order |
| ResultPage.ResultsPath | frontend/src/views/student/ResultPage.jsx:65-77 | a teacher loads `/api/users/results/all`, anybody else `/api/users/results/user` |
| ResultPage.ResultsPathReaches | frontend/src/views/student/ResultPage.jsx:65-77 | the requested path reaches the all-results handler for a teacher and the user's-results handler otherwise |
| ResultPage.Filtered | frontend/src/views/student/ResultPage.jsx:129-135 | exactly the results whose student's name or email contains the search term ignoring case, and whose exam is the selected one or any exam under 'all', as often as fetched |
| ResultPage.EmptySearchKeepsNamed | frontend/src/views/student/ResultPage.jsx:130-133 | with an empty term and 'all', a result is kept exactly when its student has a name or an email |
| ResultPage.SearchIgnoresCase | frontend/src/views/student/ResultPage.jsx:131-132 | a term and its lower-case form select the same results |
| ResultPage.SubmissionCount | frontend/src/views/student/ResultPage.jsx:192 | a result's submission count is the length of its list, 0 when it has none |
| ResultPage.TotalSubmissionsZero | frontend/src/views/student/ResultPage.jsx:192 | the "Total Submissions" card shows 0 when no result carries a submission |
| ResultPage.AllResultsShowNoSubmissions | frontend/src/views/student/ResultPage.jsx:192 | for any all-results listing, the card shows 0, since the server attributes no submission |
| ResultPage.PercentSumBounds | frontend/src/views/student/ResultPage.jsx:178 | the sum of n percentages lies between 0 and 100·n |
| ResultPage.AverageScore | frontend/src/views/student/ResultPage.jsx:176-179 | no average (shown as 0%) exactly when there are no results; otherwise a percentage in [0, 100] whose n-fold, for n results, is the sum of their percentages |
| ResultPage.AverageOfEqual | frontend/src/views/student/ResultPage.jsx:176-179 | when every result has the same percentage, the average is that percentage |
| ResultPage.ChipOfMarks | frontend/src/views/student/ResultPage.jsx:219-222 | the chip of a stored result is success exactly when the exam has questions and at least 70% were correct |
| ResultPage.FindExam | frontend/src/views/student/ResultPage.jsx:216 | the first exam whose examId or id is the result's exam, None exactly when there is none |
| ResultPage.ExamName | frontend/src/views/student/ResultPage.jsx:402 | the teacher's column shows the exam's name when it is found and its name is non-empty, and the raw exam id when it is not found or its name is missing or empty |
| ResultPage.StudentExamName | frontend/src/views/student/ResultPage.jsx:216 | the student's column never shows an empty name, and agrees with the teacher's column whenever that is non-empty |
| ResultPage.SelectAllRequestsExamAll | frontend/src/views/student/ResultPage.jsx:114-127 | choosing "All Exams" requests the by-exam listing of an exam whose id is "all" |
| ResultPage.SelectAllListsNothing | frontend/src/views/student/ResultPage.jsx:114-127 | when no result belongs to an exam "all", that listing is empty |
| ResultPage.ExamChangeFixedReaches | frontend/src/views/student/ResultPage.jsx:114-127 | with the correction, "All Exams" reaches the all-results listing and any other exam the by-exam listing for it |
| Coding.LanguageOf | backend/models/codingQuestionModel.js:24-27 | a name the enum accepts reads back as that language's name |
| Coding.LanguageRoundTrip | backend/models/codingQuestionModel.js:24-27 | every language's name passes the enum and reads back as that language; exactly the four names pass |
| Coding.SubmitterOf | backend/models/codingQuestionModel.js:19-33 | a stored answer has no submitter, since the schema has no such path |
| Coding.WithAnswer | backend/controllers/codingController.js:23-31 | the question's answer slot holds the new answer and every other question and field is unchanged |
| Coding.LastSubmissionWins | backend/controllers/codingController.js:23-31 | a second answer to a question replaces the first |
| Coding.FindByExam | backend/controllers/codingController.js:62-64 | the first question of the exam, None exactly when the exam has none |
| Coding.MissingFields | backend/controllers/codingController.js:51-54 | the missing fields, named in the order question, description, examId; empty exactly when none is missing |
| Coding.Listed | backend/controllers/codingController.js:99-100 | a listed question is the stored one without its answer slot |
| Coding.Registry.constructor | backend/models/codingQuestionModel.js:3-46 | an empty collection, ids as positions, at most one question per exam |
| Coding.Registry.Submit | backend/controllers/codingController.js:7-37 | 400 when code, language or question id is missing; 404 for an unknown question; 500 and nothing stored for a language outside the enum; 200 exactly otherwise, with the slot overwritten by the trimmed code, the language and status pending, and nothing else changed |
| Coding.Registry.Create | backend/controllers/codingController.js:42-93 | 400 naming the missing fields; 500 when the exam already has a question (the 400 is replaced in the catch) or a field trims to nothing (backend/models/codingQuestionModel.js:9-18); 201 exactly otherwise, with the trimmed question appended; nothing stored on failure |
| Coding.Registry.List | backend/controllers/codingController.js:98-108 | every question, in order, without its answer slot |
| Coding.Registry.Get | backend/controllers/codingController.js:113-128 | the question with that id with 200, or 404 "Question not found" |
| Coding.Registry.ByExam | backend/controllers/codingController.js:133-165 | 400 for an empty id; 200 exactly when the exam has a question, which is returned; otherwise 500, since the 404 is replaced in the catch |
| Coding.LastOfItsExam | backend/controllers/codingController.js:62-70 | with one question per exam, the question just added is the only one of its exam |
| Coding.CreateThenFetch | backend/controllers/codingController.js:42-165 | after a create, fetching by exam returns the created question; a second create for the exam fails with 500 and the first question stays the one fetched |
| CreateExam.AllFieldsComplete | frontend/src/views/teacher/CreateExamPage.jsx:12-32 | the form's seven validated fields are all listed |
| CreateExam.TotalQuestionsError | frontend/src/views/teacher/CreateExamPage.jsx:14-19 | no error exactly for a positive integer |
| CreateExam.DurationError | frontend/src/views/teacher/CreateExamPage.jsx:20-25 | no error exactly for an integer of at least 1 |
| CreateExam.RequiredText | frontend/src/views/teacher/CreateExamPage.jsx:13-31 | no error exactly for a non-empty text |
| CreateExam.Errors | frontend/src/views/teacher/CreateExamPage.jsx:12-32 | exactly the fields whose rule fails are in error, each with its rule's message |
| CreateExam.EmptyFormShowsRequired | frontend/src/views/teacher/CreateExamPage.jsx:12-47 | the untouched form, every field empty, shows each field's `required` message |
| CreateExam.PassesIff | frontend/src/views/teacher/CreateExamPage.jsx:12-32 | the form passes exactly when every field is filled in, the question count is a positive integer and the duration an integer of at least 1 |
| CreateExam.DatesUnordered | frontend/src/views/teacher/CreateExamPage.jsx:26-27 | a form whose closing time lies before its opening time passes |
| CreateExam.ExamIdOf | frontend/src/views/teacher/CreateExamPage.jsx:58 | the first non-empty of examId, `_id` and id, None exactly when all three are missing or empty |
| CreateExam.ExamForm.constructor | frontend/src/views/teacher/CreateExamPage.jsx:38-48 | the form starts with the empty initial values and no message |
| CreateExam.ExamForm.Edit | frontend/src/views/teacher/CreateExamPage.jsx:103-107 | the form holds the values entered |
| CreateExam.ExamForm.HandleSubmit | frontend/src/views/teacher/CreateExamPage.jsx:50-101 | a failed exam creation shows its message and sends nothing; no exam id shows "Failed to get exam ID"; otherwise the coding question is created for that exam, the form cleared and success shown exactly when the registry accepts it; an exam that already has a question shows the server's "already exists" message, and a question or description that trims to nothing shows the server's validation message naming those paths |
| Mcq.ServerOptions | frontend/src/views/student/Components/MultipleChoiceQuestion.jsx:136-138 | one stored option per option the page shows, keyed by the `_id` the radio buttons carry, with the same flag |
| Mcq.CorrectChoiceNotCounted | frontend/src/views/student/Components/MultipleChoiceQuestion.jsx:44-48 | the radio values are the options' `_id` (line 137); when the options carry no `id` field, choosing the correct option is not counted as written, and is counted by the corrected check |
| Mcq.CountsAgreesWithServer | frontend/src/views/student/Components/MultipleChoiceQuestion.jsx:44-48 | the corrected check counts a choice exactly when the server's marking (backend/controllers/resultController.js:25-31) counts the same answer |
| Mcq.Posted | frontend/src/views/student/Components/MultipleChoiceQuestion.jsx:66-71 | the posted answers are the recorded ones plus the current choice, when it is non-empty, under the question's key; nothing else changes |
| Mcq.McqPanel.constructor | frontend/src/views/student/Components/MultipleChoiceQuestion.jsx:20-34 | the first question, nothing chosen, score 0, no answers, and the last-question flag set exactly for a one-question list |
| Mcq.McqPanel.Choose | frontend/src/views/student/Components/MultipleChoiceQuestion.jsx:36-38 | the choice is one of the question's option keys, and afterwards Next is enabled |
| Mcq.McqPanel.Next | frontend/src/views/student/Components/MultipleChoiceQuestion.jsx:40-98 | the choice is recorded under the question's key; a correct choice raises the panel's and the page's score by one, any other leaves both; on the last question the answers are posted and the coding page opened, or the failure shown; then the choice is cleared and the panel advances or finishes |
| Mcq.McqPanel.PostAnswers | frontend/src/views/student/Components/MultipleChoiceQuestion.jsx:63-90 | a successful post stores one marked result for the exam and opens its coding page; a failure stores nothing and shows "Failed to save results" |
| Mcq.McqPanel.Advance | frontend/src/views/student/Components/MultipleChoiceQuestion.jsx:92-97 | the choice is cleared; the next question is shown, or on the last question the test is marked finished |
| QuestionPanel.Numbers | frontend/src/views/student/Components/NumberOfQuestions.jsx:12 | the numbers 1 to n, in order |
| QuestionPanel.Rows | frontend/src/views/student/Components/NumberOfQuestions.jsx:18-21 | the rows joined give 1 to n back; there are ⌈n/5⌉ rows, each of five numbers except the last, which has one to five |
| QuestionPanel.PadKeepsValue | frontend/src/views/student/Components/NumberOfQuestions.jsx:57 | padding a numeral with zeros keeps its value |
| QuestionPanel.FormatTimeReadsBack | frontend/src/views/student/Components/NumberOfQuestions.jsx:54-58 | for a non-negative count the display is two numerals around ':' reading back as minutes times 60 plus seconds, with two-digit seconds below 60 |
| QuestionPanel.FormatTimeWidth | frontend/src/views/student/Components/NumberOfQuestions.jsx:54-58 | under 100 minutes the display is five characters with ':' in the middle |
| QuestionPanel.Countdown.constructor | frontend/src/views/student/Components/NumberOfQuestions.jsx:14-46 | the count starts at the duration prop times 60, with the interval running and nothing submitted |
| QuestionPanel.Countdown.DurationChanged | frontend/src/views/student/Components/NumberOfQuestions.jsx:28-31 | the count restarts from the new prop times 60 |
| QuestionPanel.Countdown.Tick | frontend/src/views/student/Components/NumberOfQuestions.jsx:34-51 | at one second or less the count becomes 0, the interval stops and the test is submitted once with a warning; otherwise one second is taken off; the count never turns negative |
| QuestionPanel.Countdown.Finish | frontend/src/views/student/Components/NumberOfQuestions.jsx:66 | the Finish Test button submits the test once more |
| QuestionPanel.Countdown.RunOut | frontend/src/views/student/Components/NumberOfQuestions.jsx:33-51 | from t seconds the interval fires max(t, 1) times and submits exactly once, with one warning, ending at 0 |
| Common.OrElse | frontend/src/views/student/Coder.jsx:65 | JavaScript's logical or on strings: the first when non-empty, the fallback otherwise |
| Common.JsRem | frontend/src/views/student/Components/NumberOfQuestions.jsx:56 | JavaScript's `%`: the Euclidean remainder for a non-negative dividend, a remainder in (-b, 0] for a negative one, and in both cases the dividend minus the remainder is a multiple of the divisor |
| Common.TrimEmptyIffAllSpace | backend/models/codingQuestionModel.js:9-23 | the trimmed text is empty exactly when the text is all JavaScript whitespace |
| Common.TrimIsSlice | backend/models/codingQuestionModel.js:9-23 | the trimmed text is the slice of the text after its leading whitespace, with only whitespace outside it, neither starting nor ending with whitespace |
| Common.NatToStringValue | frontend/src/views/student/Components/NumberOfQuestions.jsx:57 | a number's decimal numeral reads back as the number |
| Common.Pad2 | frontend/src/views/student/Components/NumberOfQuestions.jsx:57 | `padStart(2, '0')`: a text of two or more characters is kept, a shorter one is filled on the left with '0' to two characters and ends with the text |

## Left out

- Code execution: backend/server.js runs submitted code in child processes. Only which runner URL the coding page calls for each language is modelled, and the runner's reply is a parameter.
- External services are parameters: the object detector, the webcam, canvas drawing, the upload service, `atob`, sweetalert and toasts. So are the outcome of every network request and the clock.
- React scheduling is not modelled. Each handler is one sequential step over the current state. The first-render closures of the intervals, batched `setState` and the un-awaited detections are left out. One consequence: `HandleDetection` and the focus handlers read the current log, not a stale copy.
- Express and Mongoose machinery is left out. This covers `asyncHandler`, the internals of `protect` (authentication is a boolean), the error middleware, `populate`, `sort` and `CastError`s on malformed ids (ids are natural numbers).
- Failures the error middleware reports are given the status the controller set, or 500. The response body's exact shape and Mongoose's message wording beyond the path names are not modelled.
- The user and exam routers (backend/routes/userRoutes.js and backend/routes/examRoutes.js) are mounted before the result routes. They are not part of this model, so nothing is said about paths they might capture first. Neither are the exam and user models, nor the cheating-log routes.
- `percentage` and the averages are exact fractions. Floating point and `toFixed` rounding are not modelled.
- Dates are integer milliseconds. Local-time formatting and `toLocaleString` are not modelled. In the file name, the date is a parameter.
- The Blob and anchor download of the text report is left out.
- yup's ordering of several errors for one field is reduced to the first failing rule per field.
- The `success: false` branches of the client handlers are not modelled separately. The server never answers a 2xx status with `success: false`, so each collapses into the failure path.
- `parseInt` on counts is modelled on numbers only. The log only ever holds numbers, so a non-numeric string is not modelled.
- Coder.CoderPage.ChooseLanguage: only languages offered by the menu can be chosen.
- Mcq.McqPanel.Next: counts a choice with the corrected check (`Mcq.Counts`), not as written; the as-written check is `Mcq.CountsAsWritten` (see Findings).
- CheatingTable.Filtered: lower-cases ASCII letters only; `toLowerCase` applies the full Unicode case mapping, which the model does not carry.
- ResultPage.Filtered: lower-cases ASCII letters only, as `CheatingTable.Filtered` does, for the same reason.
- WebCam.Monitor.Valid: assumes the log is not reset while a monitor is mounted. The effect at frontend/src/views/student/Components/WebCam.jsx:20-27 copies the log's focus count only when it is truthy, so after a reset to 0 the component's copy would keep its old value.
- WebCam.Monitor.DetectTick: each signal of a tick sees the cooldown map as the earlier signals of that tick left it, so one type acts at most once per tick. In the component the map is React state read through a closure, so a second signal of one type in the same frame acts again (a second alert and capture).
- Coding.Registry.Valid: keeps at most one question per exam. The examId index of backend/models/codingQuestionModel.js:45-46 is not unique, and the controller's `findOne` followed by `create` is not atomic, so two concurrent requests can both store a question. The model handles requests one at a time.
- Coding.Registry.Create: rejects a second question for an exam on the strength of the `findOne` check alone, for the reason given under `Coding.Registry.Valid`.
- Results.ResultStore.UserResults: assumes Mongoose passes the filter on the undeclared path `submittedAnswer.userId` (backend/controllers/resultController.js:113-116) to MongoDB, where it matches no document. Mongoose 7 and later do so by default (`strictQuery: false`). Under Mongoose 6's default (`strictQuery: true`) the path is stripped, and every coding question of the exam would be listed; that case is not modelled. The package versions are not part of this model.
- CheatingTable.LoadRows: the server's answer is always the array of the exam's logs, so the table's fallback for data that is not an array (frontend/src/views/teacher/components/CheatingTable.jsx:58) is not modelled.
- Routes.MatchPattern: compares segments case-sensitively and does not accept a trailing slash. Express matches routes case-insensitively and ignores one trailing slash by default, so GET /api/users/results/ALL and GET /api/coding/questions/ also reach their handlers in the server.
- The client API wrappers whose server routes are outside the core are left out: examApiSlice.js and cheatingLogApiSlice.js. So are the purely presentational components.

## Findings

| source | as written | input that shows it | evidently intended | confidence | as-written member | corrected member |
|---|---|---|---|---|---|---|
| frontend/src/views/student/ResultPage.jsx:114-127 | choosing "All Exams" fetches `/api/users/results/exam/all` | select an exam, then "All Exams": the server lists the results of an exam whose id is "all", i.e. none | "All Exams" reloads every result | not executed; high | ResultPage.SelectAllRequestsExamAll, ResultPage.SelectAllListsNothing | ResultPage.ExamChangeFixedReaches |
| frontend/src/views/student/Components/MultipleChoiceQuestion.jsx:47 | the correct option's `id` is compared with the selection, while the radio values are `_id` | options sent as stored documents, without an `id` field: choosing the correct option is never counted | compare `_id`, as the server's marking does | not executed; medium | Mcq.CorrectChoiceNotCounted | Mcq.CountsAgreesWithServer |
