/** Exam results on the server: marking the multiple-choice answers of a
    submission, the stored result record (backend/models/resultModel.js), the
    teacher's visibility switch and the three listings, each joined with
    coding submissions (backend/controllers/resultController.js). The
    question bank and the coding questions are parameters; result ids are
    positions in the collection, and creation times follow insertion order,
    so "newest first" is the reverse of insertion order. */
module Results {
  import opened Common
  import opened Coding

  /** An option of a stored question; `id` is its document id. */
  datatype AnswerOption = AnswerOption(id: string, isCorrect: bool)

  /** A stored multiple-choice question. `ansmarks` is None when absent. */
  datatype Question = Question(id: string, examId: string, options: seq<AnswerOption>, ansmarks: Option<int>)

  /** `question.ansmarks || 1`: a missing or zero mark counts as 1. */
  function MarksOf(q: Question): (m: int)
    ensures q.ansmarks.Some? && q.ansmarks.value != 0 ==> m == q.ansmarks.value
    ensures q.ansmarks.None? || q.ansmarks.value == 0 ==> m == 1
  {
    if q.ansmarks.Some? && q.ansmarks.value != 0 then q.ansmarks.value else 1
  }

  /** `options.find(opt => opt.isCorrect)`. */
  function FirstCorrect(options: seq<AnswerOption>): (r: Option<nat>)
    ensures r.Some? ==> r.value < |options| && options[r.value].isCorrect
    ensures r.Some? ==> forall j :: 0 <= j < r.value ==> !options[j].isCorrect
    ensures r.None? ==> forall j :: 0 <= j < |options| ==> !options[j].isCorrect
  {
    if options == [] then None
    else if options[0].isCorrect then Some(0)
    else
      match FirstCorrect(options[1..])
      case None => None
      case Some(i) => Some(i + 1)
  }

  /** A question counts as correct when its answer is present, non-empty and
      the id of its first option flagged correct. */
  predicate AnsweredCorrectly(q: Question, answers: map<string, string>) {
    && q.id in answers && answers[q.id] != ""
    && FirstCorrect(q.options).Some?
    && q.options[FirstCorrect(q.options).value].id == answers[q.id]
  }

  /** Number of correctly answered questions. */
  function CorrectCount(qs: seq<Question>, answers: map<string, string>): (n: nat)
    ensures n <= |qs|
  {
    if qs == [] then 0
    else CorrectCount(qs[..|qs| - 1], answers) + (if AnsweredCorrectly(qs[|qs| - 1], answers) then 1 else 0)
  }

  /** Sum of the marks of the correctly answered questions. */
  function TotalMarks(qs: seq<Question>, answers: map<string, string>): int {
    if qs == [] then 0
    else TotalMarks(qs[..|qs| - 1], answers) + (if AnsweredCorrectly(qs[|qs| - 1], answers) then MarksOf(qs[|qs| - 1]) else 0)
  }

  /** The marking loop of `saveResult`. */
  method Mark(questions: seq<Question>, answers: map<string, string>) returns (totalMarks: int, correctAnswers: nat)
    ensures totalMarks == TotalMarks(questions, answers)
    ensures correctAnswers == CorrectCount(questions, answers) && correctAnswers <= |questions|
  {
    totalMarks := 0;
    correctAnswers := 0;
    for i := 0 to |questions|
      invariant totalMarks == TotalMarks(questions[..i], answers)
      invariant correctAnswers == CorrectCount(questions[..i], answers)
    {
      assert questions[..i + 1][..i] == questions[..i];
      var q := questions[i];
      if q.id in answers && answers[q.id] != "" {
        var correct := FirstCorrect(q.options);
        if correct.Some? && q.options[correct.value].id == answers[q.id] {
          totalMarks := totalMarks + MarksOf(q);
          correctAnswers := correctAnswers + 1;
        }
      }
    }
    assert questions[..|questions|] == questions;
  }

  /** With no negative marks, every correct answer is worth at least one mark. */
  lemma {:induction false} MarksCoverCorrect(qs: seq<Question>, answers: map<string, string>)
    requires forall i :: 0 <= i < |qs| ==> qs[i].ansmarks.None? || qs[i].ansmarks.value >= 0
    ensures TotalMarks(qs, answers) >= CorrectCount(qs, answers) >= 0
  {
    if qs != [] {
      MarksCoverCorrect(qs[..|qs| - 1], answers);
    }
  }

  /** Unanswered and empty answers score nothing. */
  lemma {:induction false} UnansweredScoresNothing(qs: seq<Question>, answers: map<string, string>)
    requires forall i :: 0 <= i < |qs| ==> qs[i].id !in answers || answers[qs[i].id] == ""
    ensures TotalMarks(qs, answers) == 0 && CorrectCount(qs, answers) == 0
  {
    if qs != [] {
      UnansweredScoresNothing(qs[..|qs| - 1], answers);
    }
  }

  /** Answering every question with its first correct option scores them all. */
  lemma {:induction false} AllRightScoresAll(qs: seq<Question>, answers: map<string, string>)
    requires forall i :: 0 <= i < |qs| ==> AnsweredCorrectly(qs[i], answers)
    ensures CorrectCount(qs, answers) == |qs|
  {
    if qs != [] {
      AllRightScoresAll(qs[..|qs| - 1], answers);
    }
  }

  /** A percentage kept as the exact fraction `num / den`. */
  datatype Fraction = Fraction(num: int, den: int)

  /** `totalQuestions > 0 ? (correct / totalQuestions) * 100 : 0`. */
  function Percentage(correct: nat, total: nat): (p: Fraction)
    requires correct <= total
    ensures p.den > 0 && 0 <= p.num <= 100 * p.den
    ensures p.num == 100 * p.den <==> total > 0 && correct == total
    ensures p.num == 0 <==> correct == 0
  {
    if total > 0 then Fraction(100 * correct, total) else Fraction(0, 1)
  }

  /** A stored result. `percentage` is the fraction above. */
  datatype ExamResult = ExamResult(
    id: nat,
    examId: string,
    userId: string,
    answers: map<string, string>,
    totalMarks: int,
    percentage: Fraction,
    showToStudent: bool,
    codingMarks: int,
    totalScore: int,
    feedback: string)

  /** The questions of one exam, in bank order (`Question.find({examId})`). */
  function QuestionsOf(bank: seq<Question>, examId: string): (qs: seq<Question>)
    ensures forall q :: q in qs <==> q in bank && q.examId == examId
    ensures forall q :: multiset(qs)[q] == if q.examId == examId then multiset(bank)[q] else 0
    ensures |qs| <= |bank|
  {
    if bank == [] then []
    else
      var last := bank[|bank| - 1];
      assert bank == bank[..|bank| - 1] + [last];
      QuestionsOf(bank[..|bank| - 1], examId) + (if last.examId == examId then [last] else [])
  }

  /** The record `saveResult` creates: marks and percentage from the exam's
      questions, hidden from the student, and the schema defaults for the
      fields it does not set. */
  function NewResult(id: nat, examId: string, userId: string, answers: map<string, string>, bank: seq<Question>)
    : (r: ExamResult)
    ensures r.showToStudent == false && r.codingMarks == 0 && r.totalScore == 0 && r.feedback == ""
    ensures r.totalMarks == TotalMarks(QuestionsOf(bank, examId), answers)
    ensures r.percentage.den > 0 && 0 <= r.percentage.num <= 100 * r.percentage.den
    ensures r.percentage == Percentage(CorrectCount(QuestionsOf(bank, examId), answers), |QuestionsOf(bank, examId)|)
  {
    var qs := QuestionsOf(bank, examId);
    ExamResult(id, examId, userId, answers, TotalMarks(qs, answers),
               Percentage(CorrectCount(qs, answers), |qs|), false, 0, 0, "")
  }

  /** The results with one result's visibility negated. */
  function Toggled(rs: seq<ExamResult>, id: nat): (r: seq<ExamResult>)
    requires id < |rs|
    ensures |r| == |rs| && r[id].showToStudent == !rs[id].showToStudent
    ensures r[id].(showToStudent := rs[id].showToStudent) == rs[id]
    ensures forall i :: 0 <= i < |rs| && i != id ==> r[i] == rs[i]
  {
    rs[id := rs[id].(showToStudent := !rs[id].showToStudent)]
  }

  /** Toggling twice restores the results. */
  lemma ToggleTwice(rs: seq<ExamResult>, id: nat)
    requires id < |rs|
    ensures Toggled(Toggled(rs, id), id) == rs
  {
  }

  /** One coding submission as the listings show it. */
  datatype CodingSubmission = CodingSubmission(question: string, code: string, language: Language, status: Status)

  /** The join: the questions whose answer's submitter is `userId`, projected. */
  function SubmissionsOf(qs: seq<CodingQuestion>, userId: string): seq<CodingSubmission> {
    if qs == [] then []
    else
      var q := qs[|qs| - 1];
      SubmissionsOf(qs[..|qs| - 1], userId)
      + (if q.submittedAnswer.Some? && SubmitterOf(q.submittedAnswer.value) == Some(userId)
         then [CodingSubmission(q.question, q.submittedAnswer.value.code,
                                q.submittedAnswer.value.language, q.submittedAnswer.value.status)]
         else [])
  }

  /** Stored answers carry no submitter, so the join never finds anything:
      every listing shows an empty list of coding submissions. */
  lemma {:induction false} NoSubmissionAttributed(qs: seq<CodingQuestion>, userId: string)
    ensures SubmissionsOf(qs, userId) == []
  {
    if qs != [] {
      NoSubmissionAttributed(qs[..|qs| - 1], userId);
    }
  }

  /** The coding questions of one exam (`CodingQuestion.find({examId})`). */
  function CodingOfExam(qs: seq<CodingQuestion>, examId: string): (r: seq<CodingQuestion>)
    ensures forall q :: q in r <==> q in qs && q.examId == examId
    ensures forall q :: multiset(r)[q] == if q.examId == examId then multiset(qs)[q] else 0
  {
    if qs == [] then []
    else
      var last := qs[|qs| - 1];
      assert qs == qs[..|qs| - 1] + [last];
      CodingOfExam(qs[..|qs| - 1], examId) + (if last.examId == examId then [last] else [])
  }

  /** A result as listed, with its coding submissions. */
  datatype ResultView = ResultView(result: ExamResult, codingSubmissions: seq<CodingSubmission>)

  function Reverse<T>(s: seq<T>): (r: seq<T>)
    ensures |r| == |s| && forall i :: 0 <= i < |s| ==> r[i] == s[|s| - 1 - i]
    ensures multiset(r) == multiset(s)
  {
    if s == [] then []
    else
      assert s == s[..|s| - 1] + [s[|s| - 1]];
      [s[|s| - 1]] + Reverse(s[..|s| - 1])
  }

  /** Where an element of a sequence sits in its reverse. */
  lemma ReverseIndex<T>(s: seq<T>, x: T) returns (k: nat)
    requires x in s
    ensures k < |Reverse(s)| && Reverse(s)[k] == x
  {
    var j :| 0 <= j < |s| && s[j] == x;
    k := |s| - 1 - j;
  }

  /** The results a student may see: their own, marked visible. */
  function VisibleTo(rs: seq<ExamResult>, userId: string): (r: seq<ExamResult>)
    ensures forall x :: multiset(r)[x] == if x.userId == userId && x.showToStudent then multiset(rs)[x] else 0
  {
    if rs == [] then []
    else
      var last := rs[|rs| - 1];
      assert rs == rs[..|rs| - 1] + [last];
      VisibleTo(rs[..|rs| - 1], userId) + (if last.userId == userId && last.showToStudent then [last] else [])
  }

  /** The results of one exam. */
  function ResultsOfExam(rs: seq<ExamResult>, examId: string): (r: seq<ExamResult>)
    ensures forall x :: multiset(r)[x] == if x.examId == examId then multiset(rs)[x] else 0
  {
    if rs == [] then []
    else
      var last := rs[|rs| - 1];
      assert rs == rs[..|rs| - 1] + [last];
      ResultsOfExam(rs[..|rs| - 1], examId) + (if last.examId == examId then [last] else [])
  }

  const MissingFieldsMessage := "Please provide examId and answers"
  const ResultNotFound := "Result not found"
  const NotTeacherMessage := "Not authorized to view all results"

  /** The stored results. */
  class ResultStore {
    var results: seq<ExamResult>

    ghost predicate Valid()
      reads this
    {
      forall i :: 0 <= i < |results| ==> results[i].id == i
    }

    constructor ()
      ensures results == [] && Valid()
    {
      results := [];
    }

    /** `saveResult`: without an examId or an answers object, 400 and
        nothing stored; otherwise the marked result is stored, hidden, with 201. */
    method Save(examId: Option<string>, answers: Option<map<string, string>>, userId: string, bank: seq<Question>)
      returns (resp: Response<ExamResult, string>)
      requires Valid()
      modifies this
      ensures Valid()
      ensures MissingString(examId) || answers.None? ==>
        resp == Response(400, Err(MissingFieldsMessage)) && results == old(results)
      ensures !MissingString(examId) && answers.Some? ==>
        var r := NewResult(|old(results)|, examId.value, userId, answers.value, bank);
        resp == Response(201, Ok(r)) && results == old(results) + [r]
    {
      if MissingString(examId) || answers.None? {
        return Response(400, Err(MissingFieldsMessage));
      }
      var qs := QuestionsOf(bank, examId.value);
      var totalMarks, correct := Mark(qs, answers.value);
      var r := ExamResult(|results|, examId.value, userId, answers.value, totalMarks,
                          Percentage(correct, |qs|), false, 0, 0, "");
      results := results + [r];
      resp := Response(201, Ok(r));
    }

    /** `toggleResultVisibility`: negates the result's visibility, or 404. */
    method Toggle(resultId: nat) returns (resp: Response<ExamResult, string>)
      requires Valid()
      modifies this
      ensures Valid()
      ensures resultId >= |old(results)| ==> resp == Response(404, Err(ResultNotFound)) && results == old(results)
      ensures resultId < |old(results)| ==>
        results == Toggled(old(results), resultId) && resp == Response(200, Ok(results[resultId]))
    {
      if resultId >= |results| {
        return Response(404, Err(ResultNotFound));
      }
      results := Toggled(results, resultId);
      resp := Response(200, Ok(results[resultId]));
    }

    /** `getUserResults`: the student's visible results, newest first, each
        with the coding submissions of its exam attributed to the student.
        The filter on `submittedAnswer.userId`, a path the schema lacks, is
        sent to the database as written and matches no stored answer. */
    method UserResults(userId: string, coding: seq<CodingQuestion>) returns (resp: Response<seq<ResultView>, string>)
      ensures resp.status == 200 && resp.body.Ok?
      ensures var shown := Reverse(VisibleTo(results, userId));
        && |resp.body.value| == |shown|
        && forall i :: 0 <= i < |shown| ==>
             resp.body.value[i] == ResultView(shown[i], SubmissionsOf(CodingOfExam(coding, shown[i].examId), userId))
      ensures forall i :: 0 <= i < |resp.body.value| ==>
        var v := resp.body.value[i];
        v.result.userId == userId && v.result.showToStudent && v.codingSubmissions == []
    {
      var visible := VisibleTo(results, userId);
      var shown := Reverse(visible);
      var views := seq(|shown|, i requires 0 <= i < |shown| =>
                         ResultView(shown[i], SubmissionsOf(CodingOfExam(coding, shown[i].examId), userId)));
      forall i | 0 <= i < |views|
        ensures views[i].result.userId == userId && views[i].result.showToStudent && views[i].codingSubmissions == []
      {
        var x := shown[i];
        assert multiset(shown)[x] > 0;
        assert multiset(visible)[x] > 0;
        NoSubmissionAttributed(CodingOfExam(coding, x.examId), userId);
      }
      resp := Response(200, Ok(views));
    }

    /** `getResultsByExamId`: the exam's results, newest first, each joined
        with the exam's coding questions answered by its student. */
    method ExamResults(examId: string, coding: seq<CodingQuestion>) returns (resp: Response<seq<ResultView>, string>)
      ensures resp.status == 200 && resp.body.Ok?
      ensures var shown := Reverse(ResultsOfExam(results, examId));
        && |resp.body.value| == |shown|
        && forall i :: 0 <= i < |shown| ==>
             resp.body.value[i] == ResultView(shown[i], SubmissionsOf(CodingOfExam(coding, examId), shown[i].userId))
      ensures forall i :: 0 <= i < |resp.body.value| ==>
        resp.body.value[i].result.examId == examId && resp.body.value[i].codingSubmissions == []
    {
      var shown := Reverse(ResultsOfExam(results, examId));
      var views := seq(|shown|, i requires 0 <= i < |shown| =>
                         ResultView(shown[i], SubmissionsOf(CodingOfExam(coding, examId), shown[i].userId)));
      forall i | 0 <= i < |views|
        ensures views[i].result.examId == examId && views[i].codingSubmissions == []
      {
        assert shown[i] in multiset(ResultsOfExam(results, examId));
        NoSubmissionAttributed(CodingOfExam(coding, examId), shown[i].userId);
      }
      resp := Response(200, Ok(views));
    }

    /** `getAllResults`: 403 for anyone but a teacher; otherwise every result,
        newest first, joined with all coding questions. */
    method AllResults(role: string, coding: seq<CodingQuestion>) returns (resp: Response<seq<ResultView>, string>)
      ensures role != "teacher" <==> resp == Response(403, Err(NotTeacherMessage))
      ensures role == "teacher" ==>
        resp.status == 200 && resp.body.Ok? && |resp.body.value| == |results|
        && forall i :: 0 <= i < |results| ==>
             resp.body.value[i] == ResultView(results[|results| - 1 - i], SubmissionsOf(coding, results[|results| - 1 - i].userId))
    {
      if role != "teacher" {
        return Response(403, Err(NotTeacherMessage));
      }
      var shown := Reverse(results);
      var views := seq(|shown|, i requires 0 <= i < |shown| => ResultView(shown[i], SubmissionsOf(coding, shown[i].userId)));
      resp := Response(200, Ok(views));
    }
  }

  /** A new result stays hidden from its student until a teacher toggles it:
      the student's listing lacks it after saving and shows it, visible,
      after one toggle. */
  method HiddenUntilToggled(store: ResultStore, examId: string, answers: map<string, string>,
                            userId: string, bank: seq<Question>, coding: seq<CodingQuestion>)
    returns (id: nat, before: seq<ResultView>, after: seq<ResultView>)
    requires store.Valid() && examId != ""
    modifies store
    ensures store.Valid() && id == |old(store.results)|
    ensures forall i :: 0 <= i < |before| ==> before[i].result.id != id
    ensures exists k :: 0 <= k < |after| && after[k].result.id == id && after[k].result.showToStudent
  {
    var saved := store.Save(Some(examId), Some(answers), userId, bank);
    var r := saved.body.value;
    id := r.id;
    var listed := store.UserResults(userId, coding);
    before := listed.body.value;
    forall i | 0 <= i < |before|
      ensures before[i].result.id != id
    {
      var x := before[i].result;
      assert x in multiset(Reverse(VisibleTo(store.results, userId)));
      assert x in store.results;
    }
    var toggled := store.Toggle(r.id);
    listed := store.UserResults(userId, coding);
    after := listed.body.value;
    assert store.results[r.id] == r.(showToStudent := true);
    assert store.results[r.id] in multiset(VisibleTo(store.results, userId));
    var k := ReverseIndex(VisibleTo(store.results, userId), store.results[r.id]);
    assert after[k].result == r.(showToStudent := true);
  }
}
