/** The client side of report generation
    (frontend/src/utils/proctoringReportUtils.js): the request built at
    submission from the exam, the signed-in user and the cheating log, and
    the call that never lets a failure reach the caller. */
module ReportUtils {
  import opened Common
  import opened CheatingLog
  import opened ProctoringReport

  /** `examData.examId || examData._id`. */
  function ExamKey(exam: Exam): (k: Option<string>)
    ensures exam.examId.Some? && exam.examId.value != "" ==> k == exam.examId
    ensures !(exam.examId.Some? && exam.examId.value != "") ==> k == exam.id
  {
    if exam.examId.Some? && exam.examId.value != "" then exam.examId else exam.id
  }

  /** The request body; None where reading `userInfo.name` throws because
      nobody is signed in. `endTime` is the clock at the call. */
  function BuildRequest(exam: Exam, user: Option<UserInfo>, log: Log, startTime: int, endTime: int)
    : (r: Option<ReportRequest>)
    ensures r.Some? <==> user.Some?
    ensures r.Some? ==>
      && r.value.candidateName == Some(user.value.name)
      && r.value.candidateEmail == Some(user.value.email)
      && r.value.examId == ExamKey(exam)
      && r.value.startTime == Some(startTime) && r.value.endTime == Some(endTime)
      && r.value.focusLostCount == Some(CountOf(log, FocusLost))
  {
    if user.None? then None
    else Some(ReportRequest(Some(user.value.name), Some(user.value.email), ExamKey(exam),
                            Some(startTime), Some(endTime), Some(CountOf(log, FocusLost))))
  }

  /** Only the focus count of the log reaches the server: two logs with the
      same focus count give the same request, whatever the detector counted. */
  lemma RequestIgnoresDetectorCounts(exam: Exam, user: Option<UserInfo>, l1: Log, l2: Log, s: int, e: int)
    requires CountOf(l1, FocusLost) == CountOf(l2, FocusLost)
    ensures BuildRequest(exam, user, l1, s, e) == BuildRequest(exam, user, l2, s, e)
  {
  }

  /** A signed-in user with a name and an email, taking an exam with some
      non-empty key, always yields a valid request, and the stored report
      carries the log's focus count and the score that follows from it. */
  lemma {:induction false} SubmissionRequestValid(exam: Exam, user: UserInfo, log: Log, s: int, e: int)
    requires user.name != "" && user.email != ""
    requires ExamKey(exam).Some? && ExamKey(exam).value != ""
    ensures var req := BuildRequest(exam, Some(user), log, s, e).value;
      && ValidationErrors(req) == []
      && BuildReport(req).focusLostCount == CountOf(log, FocusLost)
      && BuildReport(req).examId == ExamKey(exam).value
      && BuildReport(req).integrityScore
         == if CountOf(log, FocusLost) >= 37 then 0 else 74 - 2 * CountOf(log, FocusLost)
  {
    var req := BuildRequest(exam, Some(user), log, s, e).value;
    assert !MissingString(req.candidateName) && !MissingString(req.candidateEmail);
    assert !MissingString(req.examId);
  }

  /** `generateProctoringReportOnSubmission` against the report store: the
      saved report, or None whenever anything failed (no user, a rejected
      request, a failed write); it never fails itself. */
  method GenerateOnSubmission(store: ReportStore, exam: Exam, user: Option<UserInfo>, log: Log,
                              startTime: int, endTime: int, dbError: Option<string>)
    returns (result: Option<Report>)
    modifies store
    ensures user.None? ==> result.None? && store.reports == old(store.reports)
    ensures user.Some? ==>
      var req := BuildRequest(exam, user, log, startTime, endTime).value;
      && (result.Some? <==> ValidationErrors(req) == [] && dbError.None?)
      && (result.Some? ==> result.value == BuildReport(req)
                           && store.reports == old(store.reports) + [result.value])
      && (result.None? ==> store.reports == old(store.reports))
  {
    var req := BuildRequest(exam, user, log, startTime, endTime);
    if req.None? {
      return None;
    }
    var resp := store.Generate(req.value, dbError);
    if resp.body.Ok? {
      result := Some(resp.body.value);
    } else {
      result := None;
    }
  }
}
