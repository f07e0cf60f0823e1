/** How a saved report is shown: the downloadable text report
    (frontend/src/utils/pdfGenerator.js) and the teachers' report table
    (frontend/src/views/teacher/components/ProctoringReportTable.jsx). Both
    format durations and grade scores the same way, so each is defined once. */
module ReportView {
  import opened Common
  import opened ProctoringReport

  /** `formatDuration(minutes)`: hours by floor division, minutes by the
      truncating `%`; the hours part only when there is at least one hour. */
  function FormatDuration(minutes: int): string {
    var hours := minutes / 60;
    var mins := JsRem(minutes, 60);
    if hours > 0 then IntToString(hours) + "h " + IntToString(mins) + "m" else IntToString(mins) + "m"
  }

  /** A duration under an hour is shown as minutes alone, a negative one as
      the truncated remainder, which lies in (-60, 0]. */
  lemma FormatDurationShort(minutes: int)
    ensures 0 <= minutes < 60 ==> FormatDuration(minutes) == NatToString(minutes) + "m"
    ensures minutes < 0 ==> -60 < JsRem(minutes, 60) <= 0
                            && FormatDuration(minutes) == IntToString(JsRem(minutes, 60)) + "m"
  {
    if 0 <= minutes < 60 {
      assert minutes / 60 == 0 && JsRem(minutes, 60) == minutes;
    } else if minutes < 0 {
      assert minutes / 60 < 0;
    }
  }

  /** From an hour on, the printed hours and minutes read back as the
      duration, with the minutes below 60. */
  lemma {:induction false} FormatDurationReadsBack(minutes: nat)
    requires minutes >= 60
    ensures DigitsValue(NatToString(minutes / 60)) * 60 + DigitsValue(NatToString(minutes % 60)) == minutes
    ensures DigitsValue(NatToString(minutes % 60)) < 60 && DigitsValue(NatToString(minutes / 60)) >= 1
    ensures FormatDuration(minutes) == NatToString(minutes / 60) + "h " + NatToString(minutes % 60) + "m"
  {
    NatToStringValue(minutes / 60);
    NatToStringValue(minutes % 60);
  }

  /** The three grades of an integrity score. */
  datatype Band = Excellent | Good | NeedsAttention

  function BandOf(score: int): (b: Band)
    ensures b == Excellent <==> score >= 80
    ensures b == Good <==> 60 <= score < 80
    ensures b == NeedsAttention <==> score < 60
  {
    if score >= 80 then Excellent else if score >= 60 then Good else NeedsAttention
  }

  /** `getScoreStatus`. */
  function ScoreStatus(score: int): string {
    match BandOf(score)
    case Excellent => "EXCELLENT"
    case Good => "GOOD"
    case NeedsAttention => "NEEDS ATTENTION"
  }

  /** The evaluation paragraph. */
  function Evaluation(score: int): string {
    match BandOf(score)
    case Excellent => "    EXCELLENT: Candidate demonstrated outstanding exam integrity\n      with minimal violations. Highly trustworthy performance."
    case Good => "     GOOD: Candidate showed acceptable exam behavior with some\n      minor concerns. Generally trustworthy with room for improvement."
    case NeedsAttention => "    NEEDS ATTENTION: Multiple violations detected that require\n      investigation. Exam integrity may be compromised."
  }

  /** The recommendations, one line each. */
  function Recommendations(score: int): seq<string> {
    match BandOf(score)
    case Excellent => ["No action required - excellent performance",
                       "Candidate can be trusted for future assessments"]
    case Good => ["Review specific violations with candidate", "Provide guidance on proper exam protocols",
                  "Monitor closely in future assessments"]
    case NeedsAttention => ["Immediate review required", "Consider re-examination under stricter supervision",
                            "Implement additional security measures"]
  }

  /** The table's score chip colour. */
  function ScoreColor(score: int): string {
    match BandOf(score)
    case Excellent => "success"
    case Good => "warning"
    case NeedsAttention => "error"
  }

  /** The table chip and the text report always grade a score alike. */
  lemma GradesAgree(score: int)
    ensures ScoreColor(score) == "success" <==> ScoreStatus(score) == "EXCELLENT"
    ensures ScoreColor(score) == "warning" <==> ScoreStatus(score) == "GOOD"
    ensures ScoreColor(score) == "error" <==> ScoreStatus(score) == "NEEDS ATTENTION"
    ensures |Recommendations(score)| == if score >= 80 then 2 else 3
  {
    match BandOf(score)
    case Excellent =>
      assert "success"[0] != "warning"[0] && "success"[0] != "error"[0];
      assert "EXCELLENT"[0] != "GOOD"[0] && "EXCELLENT"[0] != "NEEDS ATTENTION"[0];
    case Good =>
      assert "warning"[0] != "success"[0] && "warning"[0] != "error"[0];
      assert "GOOD"[0] != "EXCELLENT"[0] && "GOOD"[0] != "NEEDS ATTENTION"[0];
    case NeedsAttention =>
      assert "error"[0] != "success"[0] && "error"[0] != "warning"[0];
      assert "NEEDS ATTENTION"[0] != "EXCELLENT"[0] && "NEEDS ATTENTION"[0] != "GOOD"[0];
  }

  /** A generated report never grades EXCELLENT: its score is at most 74.
      It grades GOOD exactly when at most 7 focus losses were counted. */
  lemma {:induction false} GeneratedGrade(req: ReportRequest)
    requires ValidationErrors(req) == [] && FocusOf(req) >= 0
    ensures ScoreStatus(BuildReport(req).integrityScore) != "EXCELLENT"
    ensures ScoreStatus(BuildReport(req).integrityScore) == "GOOD" <==> FocusOf(req) <= 7
  {
    var s := BuildReport(req).integrityScore;
    assert s == if FocusOf(req) >= 37 then 0 else 74 - 2 * FocusOf(req);
    assert BandOf(s) != Excellent;
  }

  /** The deductions the text report lists, their total and the final score it prints. */
  datatype Tally = Tally(deductions: seq<int>, totalDeductions: int, finalScore: int)

  /** The score section of the text report. */
  datatype Summary = Summary(
    name: string, email: string, exam: string, duration: string,
    tally: Tally, status: string, evaluation: string, recommendations: seq<string>)

  /** The deductions in the order the report lists them. */
  function Deductions(r: Report): (d: seq<int>)
    ensures |d| == 5
  {
    [r.focusLostCount * FocusLostWeight,
     r.suspiciousEvents.multipleFaces * MultipleFacesWeight,
     r.suspiciousEvents.noFaceDetected * NoFaceWeight,
     r.suspiciousEvents.phoneDetected * PhoneWeight,
     r.suspiciousEvents.notesDetected * NotesWeight]
  }

  function Sum(s: seq<int>): int {
    if s == [] then 0 else Sum(s[..|s| - 1]) + s[|s| - 1]
  }

  /** The numbers of the score section: the listed deductions, their sum
      (`reduce` over the five values) and the report's own score. */
  function PdfTally(r: Report): Tally {
    Tally(Deductions(r), Sum(Deductions(r)), r.integrityScore)
  }

  /** The text report's content, without decoration and local-time dates. */
  function PdfSummary(r: Report): Summary {
    Summary(r.candidateName, r.candidateEmail, r.examName, FormatDuration(r.interviewDuration),
            PdfTally(r), ScoreStatus(r.integrityScore),
            Evaluation(r.integrityScore), Recommendations(r.integrityScore))
  }

  lemma Sum5(a: int, b: int, c: int, d: int, e: int)
    ensures Sum([a, b, c, d, e]) == a + b + c + d + e
  {
    assert [a][..0] == [];
    assert Sum([a]) == a;
    assert [a, b][..1] == [a];
    assert Sum([a, b]) == a + b;
    assert [a, b, c][..2] == [a, b];
    assert Sum([a, b, c]) == a + b + c;
    assert [a, b, c, d][..3] == [a, b, c];
    assert Sum([a, b, c, d]) == a + b + c + d;
    assert [a, b, c, d, e][..4] == [a, b, c, d];
  }

  /** The report prints the same deduction total the server computed the score from. */
  lemma PdfTotalIsServerTotal(r: Report)
    ensures PdfTally(r).totalDeductions == TotalDeductions(r.focusLostCount, r.suspiciousEvents)
  {
    var e := r.suspiciousEvents;
    Sum5(r.focusLostCount * FocusLostWeight, e.multipleFaces * MultipleFacesWeight,
         e.noFaceDetected * NoFaceWeight, e.phoneDetected * PhoneWeight, e.notesDetected * NotesWeight);
  }

  /** For a report whose score was computed from its own counts, "100 minus
      the printed total, at least 0" is the printed final score. */
  lemma SummaryTotalsAgree(r: Report)
    requires r.integrityScore == IntegrityScore(r.focusLostCount, r.suspiciousEvents)
    ensures var t := PdfTally(r);
      t.finalScore == (if 100 - t.totalDeductions < 0 then 0 else 100 - t.totalDeductions)
  {
    PdfTotalIsServerTotal(r);
  }

  /** Every generated report is such a report. */
  lemma PdfTotalsAgree(req: ReportRequest)
    requires ValidationErrors(req) == []
    ensures var t := PdfSummary(BuildReport(req)).tally;
      t.finalScore == (if 100 - t.totalDeductions < 0 then 0 else 100 - t.totalDeductions)
  {
    ScoreClosedForm(FocusOf(req));
    SummaryTotalsAgree(BuildReport(req));
  }

  /** `s.replace(/\s+/g, '_')`: each run of whitespace becomes one '_'. */
  function Underscore(s: string): (r: string)
    ensures forall i :: 0 <= i < |r| ==> !IsSpace(r[i])
    ensures |r| <= |s|
    decreases |s|
  {
    if s == [] then []
    else if IsSpace(s[0]) then "_" + Underscore(TrimStart(s[1..]))
    else [s[0]] + Underscore(s[1..])
  }

  /** Text without whitespace is kept as it is. */
  lemma {:induction false} UnderscoreKeepsPlainText(s: string)
    requires forall i :: 0 <= i < |s| ==> !IsSpace(s[i])
    ensures Underscore(s) == s
    decreases |s|
  {
    if s != [] {
      UnderscoreKeepsPlainText(s[1..]);
    }
  }

  /** A run of whitespace, however long, becomes a single '_'. */
  lemma {:induction false} UnderscoreCollapsesRun(spaces: string, b: string)
    requires spaces != [] && forall i :: 0 <= i < |spaces| ==> IsSpace(spaces[i])
    requires b == [] || !IsSpace(b[0])
    ensures Underscore(spaces + b) == "_" + Underscore(b)
  {
    var t := (spaces + b)[1..];
    assert t == spaces[1..] + b;
    DropAllSpaces(spaces[1..], b);
  }

  lemma {:induction false} DropAllSpaces(spaces: string, b: string)
    requires forall i :: 0 <= i < |spaces| ==> IsSpace(spaces[i])
    requires b == [] || !IsSpace(b[0])
    ensures TrimStart(spaces + b) == b
    decreases |spaces|
  {
    if spaces != [] {
      assert (spaces + b)[1..] == spaces[1..] + b;
      DropAllSpaces(spaces[1..], b);
    } else {
      assert spaces + b == b;
    }
  }

  /** Two texts without whitespace join into one. */
  lemma NoSpaceJoin(a: string, b: string)
    requires forall i :: 0 <= i < |a| ==> !IsSpace(a[i])
    requires forall i :: 0 <= i < |b| ==> !IsSpace(b[i])
    ensures forall i :: 0 <= i < |a + b| ==> !IsSpace((a + b)[i])
  {
  }

  /** The download name; `today` is the ISO date of the download. */
  function FileName(r: Report, today: string): (name: string)
    ensures "Proctoring_Report_" <= name
    ensures |name| >= |today| + 4 && name[|name| - |today| - 4..] == today + ".txt"
    ensures forall i :: 0 <= i < |name| - |today| - 4 ==> !IsSpace(name[i])
  {
    var head := "Proctoring_Report_" + Underscore(r.candidateName) + "_" + Underscore(r.examName) + "_";
    NoSpaceJoin("Proctoring_Report_", Underscore(r.candidateName));
    NoSpaceJoin("Proctoring_Report_" + Underscore(r.candidateName), "_");
    NoSpaceJoin("Proctoring_Report_" + Underscore(r.candidateName) + "_", Underscore(r.examName));
    NoSpaceJoin("Proctoring_Report_" + Underscore(r.candidateName) + "_" + Underscore(r.examName), "_");
    assert head + today + ".txt" == head + (today + ".txt");
    head + today + ".txt"
  }

  /** Names without whitespace appear in the download name as they are,
      each followed by '_'. */
  lemma FileNameOfPlainNames(r: Report, today: string)
    requires forall i :: 0 <= i < |r.candidateName| ==> !IsSpace(r.candidateName[i])
    requires forall i :: 0 <= i < |r.examName| ==> !IsSpace(r.examName[i])
    ensures FileName(r, today) == "Proctoring_Report_" + r.candidateName + "_" + r.examName + "_" + today + ".txt"
  {
    UnderscoreKeepsPlainText(r.candidateName);
    UnderscoreKeepsPlainText(r.examName);
  }

  /** One table row. */
  datatype Row = Row(
    name: string, email: string, duration: string, focusLost: int,
    multipleFaces: int, noFace: int, phone: int, notes: int, scoreLabel: string, scoreColor: string)

  function RowOf(r: Report): Row {
    Row(r.candidateName, r.candidateEmail, FormatDuration(r.interviewDuration), r.focusLostCount,
        r.suspiciousEvents.multipleFaces, r.suspiciousEvents.noFaceDetected,
        r.suspiciousEvents.phoneDetected, r.suspiciousEvents.notesDetected,
        IntToString(r.integrityScore) + "%", ScoreColor(r.integrityScore))
  }

  /** The table: one row per report, in the order given. */
  function Rows(reports: seq<Report>): (rows: seq<Row>)
    ensures |rows| == |reports|
    ensures forall i :: 0 <= i < |reports| ==> rows[i] == RowOf(reports[i])
  {
    seq(|reports|, i requires 0 <= i < |reports| => RowOf(reports[i]))
  }

  /** A row shows the same duration and grade the text report prints. */
  lemma RowAgreesWithPdf(reports: seq<Report>, i: nat)
    requires i < |reports|
    ensures var row := Rows(reports)[i]; var s := PdfSummary(reports[i]);
      && row.duration == s.duration && row.name == s.name && row.email == s.email
      && (row.scoreColor == "success" <==> s.status == "EXCELLENT")
      && (row.scoreColor == "error" <==> s.status == "NEEDS ATTENTION")
  {
    GradesAgree(reports[i].integrityScore);
  }
}
