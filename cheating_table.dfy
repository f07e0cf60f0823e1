/** The teachers' cheating-log table
    (frontend/src/views/teacher/components/CheatingTable.jsx): which exam is
    shown, which logs pass the name/email filter, and how counts are graded. */
module CheatingTable {
  import opened Common
  import opened CheatingLog
  import opened CheatingLogStore

  /** The exam whose logs are fetched once the exams have loaded: the first
      exam's examId; nothing is fetched when there are no exams or that
      examId is missing or empty. */
  function QueriedExam(exams: seq<Exam>): Option<string> {
    if |exams| > 0 && exams[0].examId.Some? && exams[0].examId.value != "" then exams[0].examId else None
  }

  /** `x?.toLowerCase().includes(f.toLowerCase())`: false when x is missing. */
  predicate FieldMatches(field: Option<string>, filter: string) {
    field.Some? && Contains(ToLower(field.value), ToLower(filter))
  }

  predicate Matches(log: StoredLog, filter: string) {
    FieldMatches(log.username, filter) || FieldMatches(log.email, filter)
  }

  /** `filteredUsers`. */
  function Filtered(logs: seq<StoredLog>, filter: string): (r: seq<StoredLog>)
    ensures forall i :: 0 <= i < |r| ==> Matches(r[i], filter)
    ensures forall x :: multiset(r)[x] == if Matches(x, filter) then multiset(logs)[x] else 0
  {
    if logs == [] then []
    else
      var init := logs[..|logs| - 1];
      var last := logs[|logs| - 1];
      assert logs == init + [last];
      Filtered(init, filter) + (if Matches(last, filter) then [last] else [])
  }

  /** The filter keeps the table's order: the kept logs are a subsequence. */
  lemma {:induction false} FilteredPreservesOrder(logs: seq<StoredLog>, filter: string, x: StoredLog)
    ensures Filtered(logs + [x], filter) == Filtered(logs, filter) + (if Matches(x, filter) then [x] else [])
  {
    assert (logs + [x])[..|logs|] == logs;
  }

  /** The filter ignores case: an upper-case filter keeps the same logs. */
  lemma {:induction false} FilterIgnoresCase(log: StoredLog, filter: string)
    ensures Matches(log, filter) <==> Matches(log, ToLower(filter))
  {
    ToLowerIdempotent(filter);
  }

  /** With an empty filter a log is shown exactly when it has a username or
      an email; a log with neither is hidden whatever the filter. */
  lemma EmptyFilterKeepsIdentified(log: StoredLog)
    ensures Matches(log, "") <==> log.username.Some? || log.email.Some?
  {
    if log.username.Some? {
      assert IsPrefix("", ToLower(log.username.value));
    }
    if log.email.Some? {
      assert IsPrefix("", ToLower(log.email.value));
    }
  }

  /** `getViolationColor`; a missing count compares false and is success. */
  function ViolationColor(count: Option<int>): string {
    if count.Some? && count.value > 5 then "error"
    else if count.Some? && count.value > 2 then "warning"
    else "success"
  }

  /** `getViolationIcon`: the colour of the warning icon, or no icon. */
  function ViolationIcon(count: Option<int>): Option<string> {
    if count.Some? && count.value > 5 then Some("error")
    else if count.Some? && count.value > 2 then Some("warning")
    else None
  }

  /** The icon is absent exactly when the chip is success, and otherwise has
      the chip's colour. */
  lemma IconMatchesColor(count: Option<int>)
    ensures ViolationIcon(count).None? <==> ViolationColor(count) == "success"
    ensures ViolationIcon(count).Some? ==> ViolationIcon(count).value == ViolationColor(count)
    ensures ViolationColor(count) == "error" <==> count.Some? && count.value > 5
    ensures ViolationColor(count) == "warning" <==> count.Some? && 2 < count.value <= 5
  {
  }

  /** The screenshot button is disabled when the log has no screenshots. */
  predicate ScreenshotsDisabled(log: StoredLog) {
    |log.screenshots| == 0
  }

  /** One table row: its serial number and the grades of the four counts. */
  datatype Row = Row(sno: nat, username: Option<string>, email: Option<string>, colors: seq<string>,
                     screenshotsDisabled: bool)

  function Rows(logs: seq<StoredLog>, filter: string): (rows: seq<Row>)
    ensures var kept := Filtered(logs, filter);
      && |rows| == |kept|
      && forall i :: 0 <= i < |rows| ==>
           && rows[i].sno == i + 1
           && rows[i].username == kept[i].username && rows[i].email == kept[i].email
           && rows[i].colors == [ViolationColor(kept[i].noFaceCount), ViolationColor(kept[i].multipleFaceCount),
                                 ViolationColor(kept[i].cellPhoneCount), ViolationColor(kept[i].prohibitedObjectCount)]
           && (rows[i].screenshotsDisabled <==> |kept[i].screenshots| == 0)
  {
    var kept := Filtered(logs, filter);
    seq(|kept|, i requires 0 <= i < |kept| =>
      Row(i + 1, kept[i].username, kept[i].email,
          [ViolationColor(kept[i].noFaceCount), ViolationColor(kept[i].multipleFaceCount),
           ViolationColor(kept[i].cellPhoneCount), ViolationColor(kept[i].prohibitedObjectCount)],
          ScreenshotsDisabled(kept[i])))
  }

  /** What the table lists once the exams have loaded: nothing when no exam
      is queried, else the rows of the queried exam's logs as the server's
      `getCheatingLogsByExamId` returns them, under the filter. */
  method LoadRows(exams: seq<Exam>, store: LogStore, filter: string) returns (rows: seq<Row>)
    ensures QueriedExam(exams).None? ==> rows == []
    ensures QueriedExam(exams).Some? ==> rows == Rows(LogsOfExam(store.logs, QueriedExam(exams).value), filter)
  {
    rows := [];
    var e := QueriedExam(exams);
    if e.Some? {
      var resp := store.ByExam(e.value);
      rows := Rows(resp.body.value, filter);
    }
  }

  /** The logs behind the rows are exactly the stored logs of the exam that
      pass the filter, each as often as it is stored. */
  lemma ShownLogsOfExam(logs: seq<StoredLog>, examId: string, filter: string)
    ensures forall x :: multiset(Filtered(LogsOfExam(logs, examId), filter))[x]
                        == if x.examId == Some(examId) && Matches(x, filter) then multiset(logs)[x] else 0
  {
    var byExam := LogsOfExam(logs, examId);
    forall x
      ensures multiset(Filtered(byExam, filter))[x]
              == if x.examId == Some(examId) && Matches(x, filter) then multiset(logs)[x] else 0
    {
      assert multiset(Filtered(byExam, filter))[x] == if Matches(x, filter) then multiset(byExam)[x] else 0;
    }
  }
}
