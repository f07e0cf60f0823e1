/** The client's report endpoints (frontend/src/slices/proctoringReportApiSlice.js):
    the request each builds, and where the server's routing sends it. The
    parameters are interpolated into the path without encoding. */
module ReportApi {
  import opened Common
  import opened Routes

  const ProctoringReportUrl := "/api/proctoring-report"

  /** A request as the client sends it. */
  datatype Call = Call(verb: Verb, url: string)

  /** `generateProctoringReport`: POST to the base URL, the report data as body. */
  function GenerateCall(): (c: Call)
    ensures PathOf(c.url) == ["api", "proctoring-report"] && c.verb == POST
  {
    PathOfUrl(["api", "proctoring-report"]);
    ReportUrlOf("", "");
    Call(POST, ProctoringReportUrl)
  }

  /** `getProctoringReport`: GET base/examId/candidateEmail. */
  function GetReportCall(examId: string, candidateEmail: string): (c: Call)
    ensures '/' !in examId && '/' !in candidateEmail ==>
      PathOf(c.url) == ["api", "proctoring-report", examId, candidateEmail]
    ensures c.verb == GET
  {
    var segs := ["api", "proctoring-report", examId, candidateEmail];
    ReportUrlOf(examId, candidateEmail);
    assert '/' !in examId && '/' !in candidateEmail ==> PathOf(UrlOf(segs)) == segs by {
      if '/' !in examId && '/' !in candidateEmail {
        PathOfUrl(segs);
      }
    }
    Call(GET, ProctoringReportUrl + "/" + examId + "/" + candidateEmail)
  }

  /** `getProctoringReportsByExam`: GET base/exam/examId. */
  function ReportsByExamCall(examId: string): (c: Call)
    ensures '/' !in examId ==> PathOf(c.url) == ["api", "proctoring-report", "exam", examId]
    ensures c.verb == GET
  {
    var segs := ["api", "proctoring-report", "exam", examId];
    ReportUrlOf("exam", examId);
    assert ProctoringReportUrl + "/" + "exam" + "/" + examId == ProctoringReportUrl + "/exam/" + examId;
    assert '/' !in examId ==> PathOf(UrlOf(segs)) == segs by {
      if '/' !in examId {
        PathOfUrl(segs);
      }
    }
    Call(GET, ProctoringReportUrl + "/exam/" + examId)
  }

  /** The generate call reaches the generate handler for a signed-in user. */
  lemma GenerateReachesHandler()
    ensures Dispatch(App, GenerateCall().verb, PathOf(GenerateCall().url), true) == Handled(GenerateReport, map[])
  {
    var path := ["api", "proctoring-report"];
    DispatchApp(POST, path, true);
    assert !HasPrefix(ResultRouter.prefix, path) by { assert path[1] != "users"; }
    assert !HasPrefix(CodingRouter.prefix, path) by { assert path[1] != "coding"; }
    assert path[2..] == [];
  }

  /** The single-report call reaches its handler with both parameters. */
  lemma GetReportReachesHandler(examId: string, candidateEmail: string)
    requires examId != "" && candidateEmail != "" && '/' !in examId && '/' !in candidateEmail
    ensures var c := GetReportCall(examId, candidateEmail);
      Dispatch(App, c.verb, PathOf(c.url), true)
      == Handled(GetReport, map["examId" := examId, "candidateEmail" := candidateEmail])
  {
    var rs := ReportRouter.routes;
    var q := [examId, candidateEmail];
    MatchTwoParams("examId", "candidateEmail", examId, candidateEmail);
    assert map["candidateEmail" := candidateEmail]["examId" := examId]
        == map["examId" := examId, "candidateEmail" := candidateEmail];
    assert rs[0].verb != GET;
    FirstRouteAt(rs, GET, q, 1);
    ReportPath(GET, q, true);
    assert ["api", "proctoring-report"] + q == ["api", "proctoring-report", examId, candidateEmail];
  }

  /** The by-exam call the client makes is answered by the single-report
      lookup for exam "exam" and the candidate whose email is the exam id. */
  lemma ReportsByExamCallMisrouted(examId: string)
    requires examId != "" && '/' !in examId
    ensures var c := ReportsByExamCall(examId);
      Dispatch(App, c.verb, PathOf(c.url), true)
      == Handled(GetReport, map["examId" := "exam", "candidateEmail" := examId])
  {
    ReportsByExamShadowed(examId);
  }
}
