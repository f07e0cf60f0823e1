/** The teacher's exam form (frontend/src/views/teacher/CreateExamPage.jsx):
    the validation the form applies before it submits, and the submit
    handler, which creates the exam and only then the exam's coding question.
    The exam service's answer is a parameter; the coding question goes to the
    coding registry. */
module CreateExam {
  import opened Common
  import opened Coding

  /** A numeric text field as the validator reads it: empty, not a number,
      or a number. Formik hands every empty string to the validator as
      `undefined`, which passes yup's type check and fails its `required`
      rule; any other text yup casts to a number, or to NaN, which fails the
      type check. Date fields follow the same rule. */
  datatype NumberInput = Blank | NotANumber | Num(value: real)

  /** The form's values. Date fields hold a time, or None while empty. */
  datatype FormValues = FormValues(
    examName: string,
    totalQuestions: NumberInput,
    duration: NumberInput,
    liveDate: Option<int>,
    deadDate: Option<int>,
    question: string,
    description: string)

  const InitialValues := FormValues("", Blank, Blank, None, None, "", "")

  datatype Field = ExamName | TotalQuestions | Duration | LiveDate | DeadDate | Question | Description

  const AllFields: set<Field> := {ExamName, TotalQuestions, Duration, LiveDate, DeadDate, Question, Description}

  lemma AllFieldsComplete()
    ensures forall f: Field :: f in AllFields
  {
    forall f: Field
      ensures f in AllFields
    {
      match f
      case ExamName =>
      case TotalQuestions =>
      case Duration =>
      case LiveDate =>
      case DeadDate =>
      case Question =>
      case Description =>
    }
  }

  predicate IsInteger(v: real) {
    v.Floor as real == v
  }

  /** The first failing rule of `totalQuestions`: a number, an integer,
      positive, present. */
  function TotalQuestionsError(n: NumberInput): (e: Option<string>)
    ensures e.None? <==> n.Num? && IsInteger(n.value) && n.value > 0.0
  {
    match n
    case Blank => Some("Total Number of Questions is required")
    case NotANumber => Some("Total Number of Questions must be a number")
    case Num(v) =>
      if !IsInteger(v) then Some("Total Number of Questions must be an integer")
      else if v <= 0.0 then Some("Total Number of Questions must be positive")
      else None
  }

  /** The first failing rule of `duration`: a number, an integer, at least 1, present. */
  function DurationError(n: NumberInput): (e: Option<string>)
    ensures e.None? <==> n.Num? && IsInteger(n.value) && n.value >= 1.0
  {
    match n
    case Blank => Some("Exam Duration is required")
    case NotANumber => Some("Exam Duration must be a number")
    case Num(v) =>
      if !IsInteger(v) then Some("Exam Duration must be an integer")
      else if v < 1.0 then Some("Exam Duration must be at least 1 minute")
      else None
  }

  /** A required text field: an empty value is missing. */
  function RequiredText(s: string, message: string): (e: Option<string>)
    ensures e.None? <==> s != ""
  {
    if s == "" then Some(message) else None
  }

  /** The error the form shows for one field, if any. */
  function FieldError(v: FormValues, f: Field): Option<string> {
    match f
    case ExamName => RequiredText(v.examName, "Exam Name is required")
    case TotalQuestions => TotalQuestionsError(v.totalQuestions)
    case Duration => DurationError(v.duration)
    case LiveDate => if v.liveDate.None? then Some("Live Date and Time is required") else None
    case DeadDate => if v.deadDate.None? then Some("Dead Date and Time is required") else None
    case Question => RequiredText(v.question, "Coding Question is required")
    case Description => RequiredText(v.description, "Question Description is required")
  }

  /** `examValidationSchema`: the fields in error, each with its message. */
  function Errors(v: FormValues): (errors: map<Field, string>)
    ensures forall f :: f in errors <==> FieldError(v, f).Some?
    ensures forall f :: f in errors ==> errors[f] == FieldError(v, f).value
  {
    AllFieldsComplete();
    map f | f in AllFields && FieldError(v, f).Some? :: FieldError(v, f).value
  }

  /** The untouched form shows every field's `required` message. */
  lemma EmptyFormShowsRequired()
    ensures Errors(InitialValues) == map[
      ExamName := "Exam Name is required",
      TotalQuestions := "Total Number of Questions is required",
      Duration := "Exam Duration is required",
      LiveDate := "Live Date and Time is required",
      DeadDate := "Dead Date and Time is required",
      Question := "Coding Question is required",
      Description := "Question Description is required"]
  {
  }

  /** The form passes exactly when every field is filled in, the question
      count is a positive integer and the duration an integer of at least 1. */
  lemma {:induction false} PassesIff(v: FormValues)
    ensures Errors(v) == map[] <==>
      && v.examName != "" && v.question != "" && v.description != ""
      && v.totalQuestions.Num? && IsInteger(v.totalQuestions.value) && v.totalQuestions.value > 0.0
      && v.duration.Num? && IsInteger(v.duration.value) && v.duration.value >= 1.0
      && v.liveDate.Some? && v.deadDate.Some?
  {
    if Errors(v) == map[] {
      forall f: Field
        ensures FieldError(v, f).None?
      {
        assert f !in Errors(v);
      }
      assert FieldError(v, ExamName).None? && FieldError(v, TotalQuestions).None?;
      assert FieldError(v, Duration).None? && FieldError(v, LiveDate).None? && FieldError(v, DeadDate).None?;
      assert FieldError(v, Question).None? && FieldError(v, Description).None?;
    } else {
      var f :| f in Errors(v);
      assert FieldError(v, f).Some?;
    }
  }

  /** Nothing orders the two dates: a form whose closing time lies before
      its opening time passes. */
  lemma DatesUnordered()
    ensures var v := FormValues("Quiz", Num(10.0), Num(30.0), Some(200), Some(100), "q", "d");
      Errors(v) == map[] && v.deadDate.value < v.liveDate.value
  {
    var v := FormValues("Quiz", Num(10.0), Num(30.0), Some(200), Some(100), "q", "d");
    PassesIff(v);
  }

  /** What the exam service answers with: the exam's public id, its
      database `_id` and an `id`, any of which may be absent. */
  datatype CreatedExam = CreatedExam(examId: Option<string>, key: Option<string>, id: Option<string>)

  function Truthy(s: Option<string>): bool {
    s.Some? && s.value != ""
  }

  /** `examResponse.examId || examResponse._id || examResponse.id`, None when
      all three are missing or empty. */
  function ExamIdOf(r: CreatedExam): (e: Option<string>)
    ensures e.None? <==> !Truthy(r.examId) && !Truthy(r.key) && !Truthy(r.id)
    ensures e.Some? ==> e.value != ""
    ensures Truthy(r.examId) ==> e == r.examId
    ensures !Truthy(r.examId) && Truthy(r.key) ==> e == r.key
    ensures !Truthy(r.examId) && !Truthy(r.key) && Truthy(r.id) ==> e == r.id
  {
    if Truthy(r.examId) then r.examId else if Truthy(r.key) then r.key else if Truthy(r.id) then r.id else None
  }

  const ExamFailedMessage := "Failed to create exam"
  const NoExamIdMessage := "Failed to get exam ID"
  const CodingFailedMessage := "Failed to create coding question"
  const CreatedMessage := "Exam and coding question created successfully"

  /** The schema's message for a required path. */
  function RequiredMessage(path: string): string {
    if path == "question" then "Question is required"
    else if path == "description" then "Question description is required"
    else "Path `" + path + "` is required."
  }

  function PathErrors(paths: seq<string>): string {
    if paths == [] then ""
    else if |paths| == 1 then paths[0] + ": " + RequiredMessage(paths[0])
    else paths[0] + ": " + RequiredMessage(paths[0]) + ", " + PathErrors(paths[1..])
  }

  /** The `message` of a failed request to the coding service. */
  function ErrorText(e: CodingError): string {
    match e
    case Message(text) => text
    case Invalid(paths) => "CodingQuestion validation failed: " + PathErrors(paths)
  }

  class ExamForm {
    /** The signed-in teacher, whom the server records as the author. */
    const teacher: string
    var values: FormValues
    var effects: seq<Effect>

    constructor (teacher: string)
      ensures this.teacher == teacher && values == InitialValues && effects == []
    {
      this.teacher := teacher;
      values := InitialValues;
      effects := [];
    }

    method Edit(newValues: FormValues)
      modifies this`values
      ensures values == newValues
    {
      values := newValues;
    }

    /** Whether the current values lead to a new coding question, given the
        exam service's answer. */
    ghost predicate Creates(examResponse: Result<Option<CreatedExam>, string>, reg: Registry)
      reads this, reg
    {
      && examResponse.Ok? && examResponse.value.Some? && ExamIdOf(examResponse.value.value).Some?
      && FindByExam(reg.questions, ExamIdOf(examResponse.value.value).value).None?
      && Trim(values.question) != [] && Trim(values.description) != []
    }

    /** `handleSubmit`, which the form calls only once its values pass. The
        exam is created first; a failure shows its message and sends nothing
        more. With an exam id, the coding question is sent for that exam;
        its acceptance clears the form, its rejection shows the server's
        message. Without one, an error is shown and nothing is sent. */
    method HandleSubmit(examResponse: Result<Option<CreatedExam>, string>, reg: Registry)
      requires Errors(values) == map[] && reg.Valid()
      modifies this, reg
      ensures reg.Valid()
      ensures !old(Creates(examResponse, reg)) ==> reg.questions == old(reg.questions) && values == old(values)
      ensures old(Creates(examResponse, reg)) ==>
        var examId := ExamIdOf(examResponse.value.value).value;
        && reg.questions == old(reg.questions)
             + [CodingQuestion(|old(reg.questions)|, examId, Trim(old(values).question),
                               Trim(old(values).description), None, teacher)]
        && values == InitialValues && effects == old(effects) + [ToastSuccess(CreatedMessage)]
      ensures examResponse.Err? ==> effects == old(effects) + [ToastError(OrElse(examResponse.error, ExamFailedMessage))]
      ensures examResponse == Ok(None) ==> effects == old(effects)
      ensures examResponse.Ok? && examResponse.value.Some? && ExamIdOf(examResponse.value.value).None? ==>
        effects == old(effects) + [ToastError(NoExamIdMessage)]
      ensures examResponse.Ok? && examResponse.value.Some? && ExamIdOf(examResponse.value.value).Some?
              && FindByExam(old(reg.questions), ExamIdOf(examResponse.value.value).value).Some? ==>
        effects == old(effects) + [ToastError(AlreadyExists(ExamIdOf(examResponse.value.value).value))]
      ensures examResponse.Ok? && examResponse.value.Some? && ExamIdOf(examResponse.value.value).Some?
              && FindByExam(old(reg.questions), ExamIdOf(examResponse.value.value).value).None?
              && (Trim(old(values).question) == [] || Trim(old(values).description) == []) ==>
        effects == old(effects) + [ToastError(ErrorText(Invalid(
                     (if Trim(old(values).question) == [] then ["question"] else [])
                     + (if Trim(old(values).description) == [] then ["description"] else []))))]
    {
      PassesIff(values);
      if examResponse.Err? {
        effects := effects + [ToastError(OrElse(examResponse.error, ExamFailedMessage))];
        return;
      }
      if examResponse.value.None? {
        return;
      }
      var examId := ExamIdOf(examResponse.value.value);
      if examId.None? {
        effects := effects + [ToastError(NoExamIdMessage)];
        return;
      }
      var resp := reg.Create(Some(values.question), Some(values.description), Some(examId.value), teacher);
      if resp.status == 201 {
        effects := effects + [ToastSuccess(CreatedMessage)];
        values := InitialValues;
      } else {
        effects := effects + [ToastError(OrElse(ErrorText(resp.body.error), CodingFailedMessage))];
      }
    }
  }
}
