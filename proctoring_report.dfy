/** The proctoring report on the server: the stored record
    (backend/models/proctoringReportModel.js), how a report is computed from a
    request (duration, fixed suspicious events, integrity score) and the
    collection of saved reports with its two lookups
    (backend/controllers/proctoringReportController.js). Times are
    milliseconds since the epoch; the database is a sequence of records in
    insertion order. */
module ProctoringReport {
  import opened Common

  /** The body of a generate request. A field the client did not send is None. */
  datatype ReportRequest = ReportRequest(
    candidateName: Option<string>,
    candidateEmail: Option<string>,
    examId: Option<string>,
    startTime: Option<int>,
    endTime: Option<int>,
    focusLostCount: Option<int>)

  datatype SuspiciousEvents = SuspiciousEvents(
    multipleFaces: int, noFaceDetected: int, phoneDetected: int, notesDetected: int)

  /** A saved report. */
  datatype Report = Report(
    candidateName: string,
    candidateEmail: string,
    examId: string,
    examName: string,
    interviewDuration: int,
    focusLostCount: int,
    suspiciousEvents: SuspiciousEvents,
    integrityScore: int,
    startTime: int,
    endTime: int)

  /** Why a generate request fails: the schema paths whose validation failed,
      or the message of a failed write. */
  datatype ReportError = ValidationFailed(paths: seq<string>) | DbFailed(message: string)

  /** The events every generated report records, whatever the session showed. */
  const DefaultEvents := SuspiciousEvents(1, 2, 0, 1)

  const MillisPerMinute := 60000

  /** Deduction per focus loss and per event of each kind. */
  const FocusLostWeight := 2
  const MultipleFacesWeight := 10
  const NoFaceWeight := 3
  const PhoneWeight := 15
  const NotesWeight := 10

  /** `Math.round(ms / 60000)`: `Math.round` rounds halves up, so this is
      the floor of the quotient plus one half. */
  function DurationMinutes(startTime: int, endTime: int): (m: int)
    ensures MillisPerMinute * m - 30000 <= endTime - startTime < MillisPerMinute * m + 30000
  {
    (endTime - startTime + 30000) / MillisPerMinute
  }

  /** Ninety minutes and a half-minute that rounds up. */
  lemma DurationExamples()
    ensures DurationMinutes(0, 90 * 60000) == 90
    ensures DurationMinutes(0, 30000) == 1
    ensures DurationMinutes(0, 29999) == 0
  {
  }

  /** `focusLostCount || 0`. */
  function FocusOf(req: ReportRequest): int {
    if req.focusLostCount.Some? then req.focusLostCount.value else 0
  }

  function TotalDeductions(focusLost: int, e: SuspiciousEvents): int {
    focusLost * FocusLostWeight + e.multipleFaces * MultipleFacesWeight
    + e.noFaceDetected * NoFaceWeight + e.phoneDetected * PhoneWeight
    + e.notesDetected * NotesWeight
  }

  /** `Math.max(0, 100 - totalDeductions)`. */
  function IntegrityScore(focusLost: int, e: SuspiciousEvents): int {
    if 100 - TotalDeductions(focusLost, e) < 0 then 0 else 100 - TotalDeductions(focusLost, e)
  }

  /** With the fixed events, 26 points are always deducted: the score is
      74 minus two per focus loss, floored at 0, so it reaches 0 from 37 focus
      losses on and never exceeds 74 for a non-negative count. */
  lemma {:induction false} ScoreClosedForm(focusLost: int)
    ensures IntegrityScore(focusLost, DefaultEvents) == if focusLost >= 37 then 0 else 74 - 2 * focusLost
    ensures focusLost >= 0 ==> 0 <= IntegrityScore(focusLost, DefaultEvents) <= 74
    ensures IntegrityScore(focusLost, DefaultEvents) == 0 <==> focusLost >= 37
  {
    assert TotalDeductions(focusLost, DefaultEvents) == 2 * focusLost + 26;
  }

  /** More focus losses never raise the score. */
  lemma ScoreAntitone(f1: int, f2: int, e: SuspiciousEvents)
    requires f1 <= f2
    ensures IntegrityScore(f2, e) <= IntegrityScore(f1, e)
  {
  }

  /** The schema paths that fail validation, in schema order. A missing time
      fails its own path and makes the duration NaN, which fails the number
      cast of `interviewDuration`. `examName` and the defaulted paths never fail. */
  function ValidationErrors(req: ReportRequest): (errs: seq<string>)
    ensures errs == [] <==>
      !MissingString(req.candidateName) && !MissingString(req.candidateEmail)
      && !MissingString(req.examId) && req.startTime.Some? && req.endTime.Some?
    ensures forall p :: p in errs ==>
      p in ["candidateName", "candidateEmail", "examId", "interviewDuration", "startTime", "endTime"]
  {
    (if MissingString(req.candidateName) then ["candidateName"] else [])
    + (if MissingString(req.candidateEmail) then ["candidateEmail"] else [])
    + (if MissingString(req.examId) then ["examId"] else [])
    + (if req.startTime.None? || req.endTime.None? then ["interviewDuration"] else [])
    + (if req.startTime.None? then ["startTime"] else [])
    + (if req.endTime.None? then ["endTime"] else [])
  }

  /** The record a valid request produces. */
  function BuildReport(req: ReportRequest): (r: Report)
    requires ValidationErrors(req) == []
    ensures r.candidateName == req.candidateName.value && r.candidateEmail == req.candidateEmail.value
    ensures r.examId == req.examId.value && r.examName == "Exam " + req.examId.value
    ensures MillisPerMinute * r.interviewDuration - 30000 <= req.endTime.value - req.startTime.value
                                                       < MillisPerMinute * r.interviewDuration + 30000
    ensures r.suspiciousEvents == DefaultEvents
    ensures r.focusLostCount == FocusOf(req)
    ensures r.integrityScore == if FocusOf(req) >= 37 then 0 else 74 - 2 * FocusOf(req)
    ensures r.startTime == req.startTime.value && r.endTime == req.endTime.value
  {
    ScoreClosedForm(FocusOf(req));
    Report(req.candidateName.value, req.candidateEmail.value, req.examId.value,
           "Exam " + req.examId.value,
           DurationMinutes(req.startTime.value, req.endTime.value),
           FocusOf(req), DefaultEvents, IntegrityScore(FocusOf(req), DefaultEvents),
           req.startTime.value, req.endTime.value)
  }

  /** The schema default of `integrityScore`. */
  const DefaultIntegrityScore := 100

  /** A report generated from no focus losses still scores 74, not the schema
      default of 100: the fixed events always deduct 26 points. */
  lemma GeneratedScoreBelowDefault(req: ReportRequest)
    requires ValidationErrors(req) == [] && FocusOf(req) >= 0
    ensures BuildReport(req).integrityScore <= DefaultIntegrityScore - 26
  {
  }

  predicate IsFor(r: Report, examId: string, email: string) {
    r.examId == examId && r.candidateEmail == email
  }

  /** Index of the first report of the candidate in the exam: what `findOne`
      returns over the collection in insertion order. */
  function FirstMatch(rs: seq<Report>, examId: string, email: string): (r: Option<nat>)
    ensures r.Some? ==> r.value < |rs| && IsFor(rs[r.value], examId, email)
    ensures r.Some? ==> forall j :: 0 <= j < r.value ==> !IsFor(rs[j], examId, email)
    ensures r.None? ==> forall j :: 0 <= j < |rs| ==> !IsFor(rs[j], examId, email)
  {
    if rs == [] then None
    else if IsFor(rs[0], examId, email) then Some(0)
    else
      match FirstMatch(rs[1..], examId, email)
      case None => None
      case Some(i) => Some(i + 1)
  }

  /** Generating another report for the same candidate and exam does not
      change which report the lookup returns: the first one stays. */
  lemma {:induction false} FirstMatchStable(rs: seq<Report>, x: Report, examId: string, email: string)
    requires FirstMatch(rs, examId, email).Some?
    ensures FirstMatch(rs + [x], examId, email) == FirstMatch(rs, examId, email)
  {
    var i := FirstMatch(rs, examId, email).value;
    var k := FirstMatch(rs + [x], examId, email);
    assert (rs + [x])[i] == rs[i];
    assert forall j :: 0 <= j < |rs| ==> (rs + [x])[j] == rs[j];
  }

  /** The reports of one exam, in insertion order. */
  function OfExam(rs: seq<Report>, examId: string): (r: seq<Report>)
    ensures forall x :: multiset(r)[x] == if x.examId == examId then multiset(rs)[x] else 0
    ensures |r| <= |rs|
  {
    if rs == [] then []
    else
      var init := rs[..|rs| - 1];
      var last := rs[|rs| - 1];
      assert rs == init + [last];
      OfExam(init, examId) + (if last.examId == examId then [last] else [])
  }

  const NotFoundMessage := "Report not found"

  /** The saved reports. */
  class ReportStore {
    var reports: seq<Report>

    constructor ()
      ensures reports == []
    {
      reports := [];
    }

    /** `generateProctoringReport`: validation failures and write failures
        both answer 500 and store nothing; otherwise the report is appended
        and returned with 201. `dbError` is the outcome of the write. */
    method Generate(req: ReportRequest, dbError: Option<string>)
      returns (resp: Response<Report, ReportError>)
      modifies this
      ensures ValidationErrors(req) != [] ==>
        resp == Response(500, Err(ValidationFailed(ValidationErrors(req)))) && reports == old(reports)
      ensures ValidationErrors(req) == [] && dbError.Some? ==>
        resp == Response(500, Err(DbFailed(dbError.value))) && reports == old(reports)
      ensures ValidationErrors(req) == [] && dbError.None? ==>
        resp == Response(201, Ok(BuildReport(req))) && reports == old(reports) + [BuildReport(req)]
    {
      var errs := ValidationErrors(req);
      if errs != [] {
        return Response(500, Err(ValidationFailed(errs)));
      }
      var report := BuildReport(req);
      if dbError.Some? {
        return Response(500, Err(DbFailed(dbError.value)));
      }
      reports := reports + [report];
      resp := Response(201, Ok(report));
    }

    /** `getProctoringReport`: the first report of the candidate in the exam,
        or 404 when there is none. */
    method Find(examId: string, candidateEmail: string) returns (resp: Response<Report, string>)
      ensures resp.status == 200 <==> exists j :: 0 <= j < |reports| && IsFor(reports[j], examId, candidateEmail)
      ensures resp.status == 200 ==>
        resp.body.Ok? && resp.body.value in reports && IsFor(resp.body.value, examId, candidateEmail)
      ensures resp.status == 200 ==>
        var i := FirstMatch(reports, examId, candidateEmail);
        i.Some? && resp.body.value == reports[i.value]
      ensures resp.status != 200 ==> resp == Response(404, Err(NotFoundMessage))
    {
      var i := FirstMatch(reports, examId, candidateEmail);
      if i.None? {
        return Response(404, Err(NotFoundMessage));
      }
      resp := Response(200, Ok(reports[i.value]));
    }

    /** `getProctoringReportsByExam`: every report of the exam with 200, and
        an empty list with 200 when the query fails (`dbFails`). */
    method ByExam(examId: string, dbFails: bool) returns (resp: Response<seq<Report>, string>)
      ensures resp.status == 200 && resp.body.Ok?
      ensures dbFails ==> resp.body.value == []
      ensures !dbFails ==> forall x :: multiset(resp.body.value)[x]
                                     == if x.examId == examId then multiset(reports)[x] else 0
    {
      if dbFails {
        return Response(200, Ok([]));
      }
      resp := Response(200, Ok(OfExam(reports, examId)));
    }
  }
}
