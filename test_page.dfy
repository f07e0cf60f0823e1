/** The exam page (frontend/src/views/student/TestPage.jsx): it finds the
    exam being taken, counts correct answers, and routes the submit action
    first to the end of the multiple-choice part (reset the log, go to the
    coding page) and afterwards to the final submission (save the log, then
    generate the report, then report success and leave). The final submission
    is split at its first await into Begin and Complete, so that a second
    click in between can be modelled; the outcomes of the two server calls
    are parameters. */
module TestPage {
  import opened Common
  import opened CheatingLog
  import opened CheatingLogStore
  import opened ProctoringReport
  import opened ReportUtils

  const SubmittedMessage := "Test submitted successfully!"
  const SaveFailedMessage := "Failed to save test logs. Please try again."
  const SuccessPath := "/Success"

  /** The message of the TypeError raised by reading a field of a missing
      user, as V8 words it. */
  const NoUserMessage := "Cannot read properties of null (reading 'name')"

  function CodingPath(examId: string): string {
    "/exam/" + examId + "/codedetails"
  }

  /** Index of the exam whose examId is the route's (`find` with `===`). */
  function FindExam(exams: seq<Exam>, examId: string): (r: Option<nat>)
    ensures r.Some? ==> r.value < |exams| && exams[r.value].examId == Some(examId)
    ensures r.Some? ==> forall j :: 0 <= j < r.value ==> exams[j].examId != Some(examId)
    ensures r.None? ==> forall j :: 0 <= j < |exams| ==> exams[j].examId != Some(examId)
  {
    if exams == [] then None
    else if exams[0].examId == Some(examId) then Some(0)
    else
      match FindExam(exams[1..], examId)
      case None => None
      case Some(i) => Some(i + 1)
  }

  /** `updatedLog`: the log with the user, the route's examId and all five
      counts coerced to numbers. */
  function ForSubmission(log: Log, user: UserInfo, examId: string): (r: Log)
    ensures forall c :: c in r.counts && r.counts[c] == CountOf(log, c)
    ensures r.username == Some(user.name) && r.email == Some(user.email) && r.examId == Some(examId)
    ensures r.screenshots == log.screenshots
    ensures LogInvariant(log) ==> LogInvariant(r)
  {
    AllCountersComplete();
    Log(map c | c in AllCounters :: CountOf(log, c), Some(examId), Some(user.name), Some(user.email),
        log.screenshots)
  }

  /** The stored document of a submission always carries all five counts,
      each as the page counted it, and the page's exam. */
  lemma SubmittedLogComplete(log: Log, user: UserInfo, examId: string)
    ensures var s := ToStored(ForSubmission(log, user, examId));
      && s.noFaceCount == Some(CountOf(log, NoFace)) && s.multipleFaceCount == Some(CountOf(log, MultipleFace))
      && s.cellPhoneCount == Some(CountOf(log, CellPhone))
      && s.prohibitedObjectCount == Some(CountOf(log, ProhibitedObject))
      && s.focusLostCount == CountOf(log, FocusLost) && s.examId == Some(examId)
  {
  }

  class ExamPage {
    const examId: string
    const provider: Provider
    /** When the page was opened, in milliseconds. */
    const startTime: int
    var selectedExam: Option<Exam>
    /** The exam's duration as the exam record stores it (minutes). */
    var examDuration: int
    var isSubmitting: bool
    var isMcqCompleted: bool
    var score: int
    var effects: seq<Effect>

    constructor (examId: string, provider: Provider, startTime: int)
      ensures this.examId == examId && this.provider == provider && this.startTime == startTime
      ensures selectedExam.None? && examDuration == 0 && !isSubmitting && !isMcqCompleted
      ensures score == 0 && effects == []
    {
      this.examId := examId;
      this.provider := provider;
      this.startTime := startTime;
      selectedExam := None;
      examDuration := 0;
      isSubmitting := false;
      isMcqCompleted := false;
      score := 0;
      effects := [];
    }

    /** The effect run when the exam list arrives: the exam of the route, if
        listed, becomes the selected exam and gives the duration. */
    method ExamsLoaded(exams: seq<Exam>)
      modifies this
      ensures FindExam(exams, examId).Some? ==>
        selectedExam == Some(exams[FindExam(exams, examId).value])
        && examDuration == exams[FindExam(exams, examId).value].duration
      ensures FindExam(exams, examId).None? ==>
        selectedExam == old(selectedExam) && examDuration == old(examDuration)
      ensures isSubmitting == old(isSubmitting) && isMcqCompleted == old(isMcqCompleted)
      ensures score == old(score) && effects == old(effects)
    {
      var i := FindExam(exams, examId);
      if i.Some? {
        selectedExam := Some(exams[i.value]);
        examDuration := exams[i.value].duration;
      }
    }

    /** `saveUserTestScore`. */
    method SaveUserTestScore()
      modifies this`score
      ensures score == old(score) + 1
    {
      score := score + 1;
    }

    /** `handleMcqCompletion`: marks the multiple-choice part done, resets
        the log to this exam and goes to the coding page. */
    method McqCompletion()
      modifies this`isMcqCompleted, this`effects, provider`log
      ensures isMcqCompleted
      ensures provider.log == ResetLog(examId, provider.userInfo)
      ensures effects == old(effects) + [Navigate(CodingPath(examId))]
    {
      isMcqCompleted := true;
      provider.Reset(examId);
      effects := effects + [Navigate(CodingPath(examId))];
    }

    /** The part of `handleTestSubmission` before its first await. A second
        call while one is under way does nothing. Without a signed-in user
        the log cannot be built: the error is shown and the flag cleared. */
    method BeginSubmission() returns (body: Option<Log>)
      modifies this`isSubmitting, this`effects
      ensures old(isSubmitting) ==> body.None? && isSubmitting && effects == old(effects)
      ensures !old(isSubmitting) && provider.userInfo.None? ==>
        body.None? && !isSubmitting && effects == old(effects) + [ToastError(NoUserMessage)]
      ensures !old(isSubmitting) && provider.userInfo.Some? ==>
        body == Some(ForSubmission(provider.log, provider.userInfo.value, examId))
        && isSubmitting && effects == old(effects)
    {
      if isSubmitting {
        return None;
      }
      isSubmitting := true;
      if provider.userInfo.None? {
        effects := effects + [ToastError(NoUserMessage)];
        isSubmitting := false;
        return None;
      }
      body := Some(ForSubmission(provider.log, provider.userInfo.value, examId));
    }

    /** The rest of `handleTestSubmission`: save the log; if that fails, show
        the server's message and stop. Otherwise, when the exam is known,
        generate the report (which never fails the submission), then show
        success and go to the success page. The flag is cleared either way.
        `now` is the clock when the report is built. */
    method CompleteSubmission(body: Log, logs: LogStore, saveError: Option<string>,
                              reports: ReportStore, now: int, reportError: Option<string>)
      requires isSubmitting && provider.userInfo.Some?
      modifies this`isSubmitting, this`effects, logs, reports
      ensures !isSubmitting
      ensures saveError.Some? ==>
        logs.logs == old(logs.logs) && reports.reports == old(reports.reports)
        && effects == old(effects) + [ToastError(OrElse(saveError.value, SaveFailedMessage))]
      ensures saveError.None? ==>
        logs.logs == old(logs.logs) + [ToStored(body)]
        && effects == old(effects) + [ToastSuccess(SubmittedMessage), Navigate(SuccessPath)]
      ensures saveError.None? && selectedExam.Some? ==>
        var req := BuildRequest(selectedExam.value, provider.userInfo, body, startTime, now).value;
        reports.reports == old(reports.reports)
          + (if ValidationErrors(req) == [] && reportError.None? then [BuildReport(req)] else [])
      ensures saveError.None? && selectedExam.None? ==> reports.reports == old(reports.reports)
    {
      var saved := logs.Save(body, saveError);
      if saved.body.Err? {
        effects := effects + [ToastError(OrElse(saved.body.error, SaveFailedMessage))];
        isSubmitting := false;
        return;
      }
      if selectedExam.Some? {
        var _ := GenerateOnSubmission(reports, selectedExam.value, provider.userInfo, body, startTime, now, reportError);
      }
      effects := effects + [ToastSuccess(SubmittedMessage), Navigate(SuccessPath)];
      isSubmitting := false;
    }

    /** The `submitTest` both the question panel and the timer call: the end
        of the multiple-choice part until it is done, the final submission
        after. */
    method SubmitTest(logs: LogStore, saveError: Option<string>, reports: ReportStore, now: int,
                      reportError: Option<string>)
      modifies this`isSubmitting, this`isMcqCompleted, this`effects, provider`log, logs, reports
      ensures isSubmitting == old(isSubmitting) && isMcqCompleted
      ensures old(isMcqCompleted) && old(isSubmitting) ==>
        logs.logs == old(logs.logs) && reports.reports == old(reports.reports) && effects == old(effects)
      ensures !old(isMcqCompleted) ==>
        provider.log == ResetLog(examId, provider.userInfo) && logs.logs == old(logs.logs)
        && reports.reports == old(reports.reports)
        && effects == old(effects) + [Navigate(CodingPath(examId))]
      ensures old(isMcqCompleted) ==> provider.log == old(provider.log)
      ensures old(isMcqCompleted) && !old(isSubmitting) && provider.userInfo.None? ==>
        logs.logs == old(logs.logs) && reports.reports == old(reports.reports)
        && effects == old(effects) + [ToastError(NoUserMessage)]
      ensures old(isMcqCompleted) && !old(isSubmitting) && provider.userInfo.Some? && saveError.Some? ==>
        logs.logs == old(logs.logs) && reports.reports == old(reports.reports)
        && effects == old(effects) + [ToastError(OrElse(saveError.value, SaveFailedMessage))]
      ensures old(isMcqCompleted) && !old(isSubmitting) && provider.userInfo.Some? && saveError.None? ==>
        logs.logs == old(logs.logs) + [ToStored(ForSubmission(old(provider.log), provider.userInfo.value, examId))]
        && effects == old(effects) + [ToastSuccess(SubmittedMessage), Navigate(SuccessPath)]
      ensures old(isMcqCompleted) && !old(isSubmitting) && provider.userInfo.Some? && saveError.None? ==>
        if selectedExam.Some? then
          var body := ForSubmission(old(provider.log), provider.userInfo.value, examId);
          var req := BuildRequest(selectedExam.value, provider.userInfo, body, startTime, now).value;
          reports.reports == old(reports.reports)
            + (if ValidationErrors(req) == [] && reportError.None? then [BuildReport(req)] else [])
        else reports.reports == old(reports.reports)
    {
      if !isMcqCompleted {
        McqCompletion();
        return;
      }
      var body := BeginSubmission();
      if body.Some? {
        CompleteSubmission(body.value, logs, saveError, reports, now, reportError);
      }
    }
  }

  /** A second click while a submission is waiting for the server saves
      nothing more: the log is stored once and success is shown once. */
  method DoubleClickSavesOnce(page: ExamPage, logs: LogStore, reports: ReportStore, now: int)
    requires !page.isSubmitting && page.isMcqCompleted && page.provider.userInfo.Some?
    modifies page`isSubmitting, page`effects, logs, reports
    ensures logs.logs == old(logs.logs) + [ToStored(ForSubmission(page.provider.log, page.provider.userInfo.value, page.examId))]
    ensures page.effects == old(page.effects) + [ToastSuccess(SubmittedMessage), Navigate(SuccessPath)]
  {
    var first := page.BeginSubmission();
    var second := page.BeginSubmission();
    assert second.None?;
    page.CompleteSubmission(first.value, logs, None, reports, now, None);
  }
}
