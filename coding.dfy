/** The coding questions on the server: the stored record with its enums and
    trimmed paths (backend/models/codingQuestionModel.js) and the registry of
    one question per exam whose single answer slot each submission
    overwrites (backend/controllers/codingController.js). Document ids are
    positions in the collection; the requesting teacher is a parameter. */
module Coding {
  import opened Common

  /** The languages the schema accepts for an answer. */
  datatype Language = JavaScript | Python | Java | Cpp

  function LanguageName(l: Language): string {
    match l
    case JavaScript => "javascript"
    case Python => "python"
    case Java => "java"
    case Cpp => "cpp"
  }

  /** The enum check on `submittedAnswer.language`. */
  function LanguageOf(s: string): (l: Option<Language>)
    ensures l.Some? ==> LanguageName(l.value) == s
  {
    if s == "javascript" then Some(JavaScript)
    else if s == "python" then Some(Python)
    else if s == "java" then Some(Java)
    else if s == "cpp" then Some(Cpp)
    else None
  }

  /** Every language name passes the enum check, and exactly these four do. */
  lemma LanguageRoundTrip(l: Language, s: string)
    ensures LanguageOf(LanguageName(l)) == Some(l)
    ensures LanguageOf(s).Some? <==> s in ["javascript", "python", "java", "cpp"]
  {
  }

  datatype Status = Pending | Passed | Failed | Errored

  /** The answer slot. The schema declares code, language and status only:
      the submitter and the execution time a submission sends are dropped. */
  datatype SubmittedAnswer = SubmittedAnswer(code: string, language: Language, status: Status)

  /** `submittedAnswer.userId` read back from a stored answer: the path is not
      in the schema, so it is always undefined. */
  function SubmitterOf(a: SubmittedAnswer): (u: Option<string>)
    ensures u.None?
  {
    None
  }

  datatype CodingQuestion = CodingQuestion(
    id: nat,
    examId: string,
    question: string,
    description: string,
    submittedAnswer: Option<SubmittedAnswer>,
    teacher: string)

  /** Why a request failed: a message, or the schema paths whose validation failed. */
  datatype CodingError = Message(text: string) | Invalid(paths: seq<string>)

  const SubmitFieldsMessage := "Please provide all required fields"
  const QuestionNotFound := "Question not found"
  const ExamIdRequired := "Exam ID is required"

  function AlreadyExists(examId: string): string {
    "A coding question already exists for exam: " + examId
  }

  function NoneForExam(examId: string): string {
    "No coding question found for exam: " + examId
  }

  /** The question list with answer `a` in the slot of question `id` and
      every other question as it was. */
  function WithAnswer(qs: seq<CodingQuestion>, id: nat, a: SubmittedAnswer): (r: seq<CodingQuestion>)
    requires id < |qs|
    ensures |r| == |qs| && r[id].submittedAnswer == Some(a)
    ensures r[id] == qs[id].(submittedAnswer := Some(a))
    ensures forall i :: 0 <= i < |qs| && i != id ==> r[i] == qs[i]
  {
    qs[id := qs[id].(submittedAnswer := Some(a))]
  }

  /** Only the last submission to a question is kept. */
  lemma LastSubmissionWins(qs: seq<CodingQuestion>, id: nat, a: SubmittedAnswer, b: SubmittedAnswer)
    requires id < |qs|
    ensures WithAnswer(WithAnswer(qs, id, a), id, b) == WithAnswer(qs, id, b)
  {
  }

  /** Index of the first question of an exam: what `findOne({examId})` returns. */
  function FindByExam(qs: seq<CodingQuestion>, examId: string): (r: Option<nat>)
    ensures r.Some? ==> r.value < |qs| && qs[r.value].examId == examId
    ensures r.Some? ==> forall j :: 0 <= j < r.value ==> qs[j].examId != examId
    ensures r.None? ==> forall j :: 0 <= j < |qs| ==> qs[j].examId != examId
  {
    if qs == [] then None
    else if qs[0].examId == examId then Some(0)
    else
      match FindByExam(qs[1..], examId)
      case None => None
      case Some(i) => Some(i + 1)
  }

  /** `missingFields.join(", ")`. */
  function JoinComma(fields: seq<string>): string {
    if fields == [] then ""
    else if |fields| == 1 then fields[0]
    else fields[0] + ", " + JoinComma(fields[1..])
  }

  /** The `push`es that name the missing fields of a create request, in the
      order question, description, examId. */
  method MissingFields(question: Option<string>, description: Option<string>, examId: Option<string>)
    returns (fields: seq<string>)
    ensures fields == [] <==> !MissingString(question) && !MissingString(description) && !MissingString(examId)
    ensures fields == (if MissingString(question) then ["question"] else [])
                      + (if MissingString(description) then ["description"] else [])
                      + (if MissingString(examId) then ["examId"] else [])
  {
    fields := [];
    if MissingString(question) {
      fields := fields + ["question"];
    }
    if MissingString(description) {
      fields := fields + ["description"];
    }
    if MissingString(examId) {
      fields := fields + ["examId"];
    }
  }

  /** The listed form of a question: everything but the answer slot. */
  function Listed(q: CodingQuestion): (r: CodingQuestion)
    ensures r.submittedAnswer.None?
    ensures r.(submittedAnswer := q.submittedAnswer) == q
  {
    q.(submittedAnswer := None)
  }

  /** The stored coding questions. */
  class Registry {
    var questions: seq<CodingQuestion>

    /** Ids are positions, and no two questions belong to the same exam. */
    ghost predicate Valid()
      reads this
    {
      && (forall i :: 0 <= i < |questions| ==> questions[i].id == i)
      && (forall i, j :: 0 <= i < j < |questions| ==> questions[i].examId != questions[j].examId)
    }

    constructor ()
      ensures questions == [] && Valid()
    {
      questions := [];
    }

    /** `submitCodingAnswer`: a missing field gives 400, an unknown question
        404; otherwise the question's answer slot is overwritten with the
        trimmed code and status pending. A language outside the enum fails
        validation on save, and nothing is stored. */
    method Submit(questionId: Option<nat>, code: Option<string>, language: Option<string>)
      returns (resp: Response<CodingQuestion, CodingError>)
      requires Valid()
      modifies this
      ensures Valid()
      ensures MissingString(code) || MissingString(language) || questionId.None? ==>
        resp == Response(400, Err(Message(SubmitFieldsMessage))) && questions == old(questions)
      ensures !MissingString(code) && !MissingString(language) && questionId.Some?
              && questionId.value >= |old(questions)| ==>
        resp == Response(404, Err(Message(QuestionNotFound))) && questions == old(questions)
      ensures !MissingString(code) && !MissingString(language) && questionId.Some?
              && questionId.value < |old(questions)| && LanguageOf(language.value).None? ==>
        resp == Response(500, Err(Invalid(["submittedAnswer.language"]))) && questions == old(questions)
      ensures resp.status == 200 <==>
        !MissingString(code) && !MissingString(language) && questionId.Some?
        && questionId.value < |old(questions)| && LanguageOf(language.value).Some?
      ensures resp.status == 200 ==>
        var a := SubmittedAnswer(Trim(code.value), LanguageOf(language.value).value, Pending);
        && questions == WithAnswer(old(questions), questionId.value, a)
        && resp.body == Ok(questions[questionId.value])
    {
      if MissingString(code) || MissingString(language) || questionId.None? {
        return Response(400, Err(Message(SubmitFieldsMessage)));
      }
      var id := questionId.value;
      if id >= |questions| {
        return Response(404, Err(Message(QuestionNotFound)));
      }
      var lang := LanguageOf(language.value);
      if lang.None? {
        return Response(500, Err(Invalid(["submittedAnswer.language"])));
      }
      SetAnswer(id, SubmittedAnswer(Trim(code.value), lang.value, Pending));
      resp := Response(200, Ok(questions[id]));
    }

    /** Overwrites the answer slot of a stored question. */
    method SetAnswer(id: nat, a: SubmittedAnswer)
      requires Valid() && id < |questions|
      modifies this
      ensures Valid() && questions == WithAnswer(old(questions), id, a)
    {
      ghost var before := questions;
      questions := WithAnswer(questions, id, a);
      assert forall i :: 0 <= i < |questions| ==> questions[i].id == before[i].id && questions[i].examId == before[i].examId;
    }

    /** `createCodingQuestion`: missing fields give 400 naming them; a second
        question for an exam, or a question or description that trims to
        nothing, gives 500 and stores nothing; otherwise the trimmed question
        is stored with 201. */
    method Create(question: Option<string>, description: Option<string>, examId: Option<string>, teacher: string)
      returns (resp: Response<CodingQuestion, CodingError>)
      requires Valid()
      modifies this
      ensures Valid()
      ensures resp.status != 201 ==> questions == old(questions)
      ensures MissingString(question) || MissingString(description) || MissingString(examId) ==>
        resp.status == 400 && resp.body.Err? && resp.body.error.Message?
        && resp.body.error.text == "Missing required fields: " + JoinComma(
             (if MissingString(question) then ["question"] else [])
             + (if MissingString(description) then ["description"] else [])
             + (if MissingString(examId) then ["examId"] else []))
      ensures !MissingString(question) && !MissingString(description) && !MissingString(examId)
              && FindByExam(old(questions), examId.value).Some? ==>
        resp == Response(500, Err(Message(AlreadyExists(examId.value))))
      ensures !MissingString(question) && !MissingString(description) && !MissingString(examId)
              && FindByExam(old(questions), examId.value).None?
              && (Trim(question.value) == [] || Trim(description.value) == []) ==>
        resp == Response(500, Err(Invalid((if Trim(question.value) == [] then ["question"] else [])
                                          + (if Trim(description.value) == [] then ["description"] else []))))
      ensures resp.status == 201 <==>
        !MissingString(question) && !MissingString(description) && !MissingString(examId)
        && FindByExam(old(questions), examId.value).None?
        && Trim(question.value) != [] && Trim(description.value) != []
      ensures resp.status == 201 ==>
        var q := CodingQuestion(|old(questions)|, examId.value, Trim(question.value),
                                Trim(description.value), None, teacher);
        questions == old(questions) + [q] && resp.body == Ok(q)
    {
      var missing := MissingFields(question, description, examId);
      if missing != [] {
        return Response(400, Err(Message("Missing required fields: " + JoinComma(missing))));
      }
      var existing := FindByExam(questions, examId.value);
      if existing.Some? {
        return Response(500, Err(Message(AlreadyExists(examId.value))));
      }
      var q := Trim(question.value);
      var d := Trim(description.value);
      if q == [] || d == [] {
        var paths := (if q == [] then ["question"] else []) + (if d == [] then ["description"] else []);
        return Response(500, Err(Invalid(paths)));
      }
      var created := CodingQuestion(|questions|, examId.value, q, d, None, teacher);
      Append(created);
      resp := Response(201, Ok(created));
    }

    /** Stores a new question for an exam that has none yet. */
    method Append(q: CodingQuestion)
      requires Valid() && q.id == |questions| && FindByExam(questions, q.examId).None?
      modifies this
      ensures Valid() && questions == old(questions) + [q]
    {
      questions := questions + [q];
    }

    /** `getCodingQuestions`: every question, without its answer slot. */
    method List() returns (resp: Response<seq<CodingQuestion>, CodingError>)
      ensures resp.status == 200 && resp.body.Ok?
      ensures |resp.body.value| == |questions|
      ensures forall i :: 0 <= i < |questions| ==>
        resp.body.value[i].submittedAnswer.None? && resp.body.value[i] == Listed(questions[i])
    {
      var listed := seq(|questions|, i requires 0 <= i < |questions| reads this => Listed(questions[i]));
      resp := Response(200, Ok(listed));
    }

    /** `getCodingQuestion`: the question with that id, or 404. */
    method Get(id: nat) returns (resp: Response<CodingQuestion, CodingError>)
      requires Valid()
      ensures id < |questions| ==> resp == Response(200, Ok(questions[id])) && resp.body.value.id == id
      ensures id >= |questions| ==> resp == Response(404, Err(Message(QuestionNotFound)))
    {
      if id >= |questions| {
        return Response(404, Err(Message(QuestionNotFound)));
      }
      resp := Response(200, Ok(questions[id]));
    }

    /** `getCodingQuestionsByExamId`: the exam's question with 200; an empty
        id gives 400, and no question gives 500, since the 404 set for it is
        replaced in the catch. */
    method ByExam(examId: string) returns (resp: Response<CodingQuestion, CodingError>)
      requires Valid()
      ensures examId == "" ==> resp == Response(400, Err(Message(ExamIdRequired)))
      ensures examId != "" ==>
        (resp.status == 200 <==> exists i :: 0 <= i < |questions| && questions[i].examId == examId)
      ensures examId != "" && resp.status != 200 ==> resp == Response(500, Err(Message(NoneForExam(examId))))
      ensures resp.status == 200 ==> resp.body.Ok? && resp.body.value in questions
                                     && resp.body.value.examId == examId
    {
      if examId == "" {
        return Response(400, Err(Message(ExamIdRequired)));
      }
      var i := FindByExam(questions, examId);
      if i.None? {
        return Response(500, Err(Message(NoneForExam(examId))));
      }
      resp := Response(200, Ok(questions[i.value]));
    }
  }

  /** In a list whose exams are all different, the last question is the
      only one of its exam. */
  lemma LastOfItsExam(qs: seq<CodingQuestion>, x: CodingQuestion)
    requires forall i, j :: 0 <= i < j < |qs| ==> qs[i].examId != qs[j].examId
    requires |qs| > 0 && x in qs && x.examId == qs[|qs| - 1].examId
    ensures x == qs[|qs| - 1]
  {
  }

  /** Creating a question for an exam and then asking for that exam's
      question returns the one created; a second create for the same exam
      fails with 500 and leaves it in place. */
  method CreateThenFetch(reg: Registry, question: string, description: string, examId: string, teacher: string)
    returns (created: Response<CodingQuestion, CodingError>, fetched: Response<CodingQuestion, CodingError>,
             again: Response<CodingQuestion, CodingError>, fetchedAgain: Response<CodingQuestion, CodingError>)
    requires reg.Valid()
    requires examId != "" && Trim(question) != [] && Trim(description) != []
    requires FindByExam(reg.questions, examId).None?
    modifies reg
    ensures reg.Valid()
    ensures created.status == 201 && created.body.Ok? && created.body.value.examId == examId
    ensures reg.questions == old(reg.questions) + [created.body.value]
    ensures fetched == Response(200, created.body)
    ensures again == Response(500, Err(Message(AlreadyExists(examId))))
    ensures fetchedAgain == Response(200, created.body)
  {
    ghost var before := reg.questions;
    created := reg.Create(Some(question), Some(description), Some(examId), teacher);
    ghost var q := created.body.value;
    assert reg.questions == before + [q] && q.examId == examId;
    assert reg.questions[|before|] == q;
    fetched := reg.ByExam(examId);
    LastOfItsExam(reg.questions, fetched.body.value);
    again := reg.Create(Some(question), Some(description), Some(examId), teacher);
    fetchedAgain := reg.ByExam(examId);
    LastOfItsExam(reg.questions, fetchedAgain.body.value);
  }
}
