/** The multiple-choice panel of the exam page
    (frontend/src/views/student/Components/MultipleChoiceQuestion.jsx): one
    question at a time, a radio choice per option, and a Next button that
    records the choice, counts it, posts all answers after the last question
    and then moves on. The questions are those the server sent; the result
    store is the server-side model the answers are posted to. */
module Mcq {
  import opened Common
  import opened Results
  import TestPage

  const SaveFailedMessage := "Failed to save results"

  /** An option as the page receives it: its document key `_id`, the `id`
      field the page reads (None when the JSON carries none), the flag, the text. */
  datatype ChoiceOption = ChoiceOption(key: string, id: Option<string>, isCorrect: bool, text: string)

  /** A question as the page receives it. */
  datatype McqQuestion = McqQuestion(key: string, question: string, options: seq<ChoiceOption>)

  /** The options as the server stores them, keyed by `_id`. */
  function ServerOptions(options: seq<ChoiceOption>): (r: seq<AnswerOption>)
    ensures |r| == |options|
    ensures forall i :: 0 <= i < |options| ==> r[i] == AnswerOption(options[i].key, options[i].isCorrect)
  {
    seq(|options|, i requires 0 <= i < |options| => AnswerOption(options[i].key, options[i].isCorrect))
  }

  /** The stored question the page's question was sent from. */
  function ServerQuestion(q: McqQuestion, examId: string, ansmarks: Option<int>): Question {
    Question(q.key, examId, ServerOptions(q.options), ansmarks)
  }

  /** `isCorrect` as the page computes it: the first option flagged correct
      is looked up, and its `id` is compared with the selection. */
  predicate CountsAsWritten(q: McqQuestion, selected: Option<string>) {
    var c := FirstCorrect(ServerOptions(q.options));
    c.Some? && selected.Some? && selected.value != "" && q.options[c.value].id == Some(selected.value)
  }

  /** `isCorrect` comparing the key the radio buttons carry, as the server's
      marking does. */
  predicate Counts(q: McqQuestion, selected: Option<string>) {
    var c := FirstCorrect(ServerOptions(q.options));
    c.Some? && selected.Some? && selected.value != "" && q.options[c.value].key == selected.value
  }

  /** The radio buttons carry `_id`, but the page compares `id`: when the
      options arrive without an `id` field, no choice is ever counted, not
      even the correct one. */
  lemma {:induction false} CorrectChoiceNotCounted(q: McqQuestion, c: nat)
    requires c < |q.options| && q.options[c].isCorrect && q.options[c].key != ""
    requires forall j :: 0 <= j < c ==> !q.options[j].isCorrect
    requires forall j :: 0 <= j < |q.options| ==> q.options[j].id.None?
    ensures !CountsAsWritten(q, Some(q.options[c].key))
    ensures Counts(q, Some(q.options[c].key))
  {
    var so := ServerOptions(q.options);
    assert so[c].isCorrect;
    assert FirstCorrect(so) == Some(c);
  }

  /** The corrected check agrees with the server's marking of the same answer. */
  lemma CountsAgreesWithServer(q: McqQuestion, examId: string, ansmarks: Option<int>, s: string)
    ensures Counts(q, Some(s)) <==> AnsweredCorrectly(ServerQuestion(q, examId, ansmarks), map[q.key := s])
  {
  }

  /** The answers object posted after the last question: the recorded
      answers, plus the current choice when it is non-empty. */
  function Posted(answers: map<string, string>, key: string, selected: string): (r: map<string, string>)
    ensures r.Keys == answers.Keys + (if selected != "" then {key} else {})
    ensures selected != "" ==> r[key] == selected
    ensures forall k :: k in answers && (k != key || selected == "") ==> r[k] == answers[k]
  {
    if selected != "" then answers[key := selected] else answers
  }

  class McqPanel {
    const questions: seq<McqQuestion>
    const examId: string
    /** The exam page, whose `saveUserTestScore` the panel calls. */
    const page: TestPage.ExamPage
    var current: nat
    var selected: Option<string>
    var score: int
    /** The `answers` Map: question key to chosen option key. */
    var answers: map<string, string>
    var isLastQuestion: bool
    var isFinishTest: bool
    var effects: seq<Effect>

    /** The current question exists, and the last-question flag tells
        whether it is the last. */
    ghost predicate Valid()
      reads this
    {
      current < |questions| && isLastQuestion == (current == |questions| - 1)
    }

    /** The panel as first shown with a non-empty question list (before that
        it only shows that questions are loading), after its effect has set
        the last-question flag. */
    constructor (questions: seq<McqQuestion>, examId: string, page: TestPage.ExamPage)
      requires |questions| > 0
      ensures this.questions == questions && this.examId == examId && this.page == page
      ensures current == 0 && selected.None? && score == 0 && answers == map[]
      ensures isLastQuestion == (|questions| == 1) && !isFinishTest && effects == []
      ensures Valid()
    {
      this.questions := questions;
      this.examId := examId;
      this.page := page;
      current := 0;
      selected := None;
      score := 0;
      answers := map[];
      isLastQuestion := |questions| == 1;
      isFinishTest := false;
      effects := [];
    }

    /** Whether Next can be clicked: the button is disabled while nothing
        is selected. */
    predicate NextEnabled()
      reads this
    {
      selected.Some?
    }

    /** `handleOptionChange`: the radio buttons offer the keys of the current
        question's options. */
    method Choose(choice: string)
      requires Valid()
      requires exists j :: 0 <= j < |questions[current].options| && questions[current].options[j].key == choice
      modifies this`selected
      ensures selected == Some(choice) && NextEnabled()
    {
      selected := Some(choice);
    }

    /** `handleNextQuestion`. The choice is recorded under the question's
        key; a correct choice raises both scores by one. On the last
        question every answer is posted (`postError` when the request
        fails), then the coding page is opened or the failure shown.
        Finally the choice is cleared and the panel advances, or is
        finished on the last question. */
    method Next(store: ResultStore, userId: string, bank: seq<Question>, postError: bool)
      requires Valid() && NextEnabled() && store.Valid()
      modifies this`current, this`selected, this`score, this`answers, this`isLastQuestion,
               this`isFinishTest, this`effects, page`score, store
      ensures Valid() && selected.None?
      ensures var q := questions[old(current)];
        answers == old(answers)[q.key := old(selected).value]
        && (Counts(q, old(selected)) ==> score == old(score) + 1 && page.score == old(page.score) + 1)
        && (!Counts(q, old(selected)) ==> score == old(score) && page.score == old(page.score))
      ensures old(current) < |questions| - 1 ==> current == old(current) + 1 && isFinishTest == old(isFinishTest)
      ensures old(current) == |questions| - 1 ==> current == old(current) && isFinishTest
      ensures !old(isLastQuestion) ==> store.results == old(store.results) && effects == old(effects)
      ensures old(isLastQuestion) && !postError && examId != "" ==>
        var q := questions[old(current)];
        var posted := Posted(old(answers), q.key, old(selected).value);
        store.results == old(store.results) + [NewResult(|old(store.results)|, examId, userId, posted, bank)]
        && effects == old(effects) + [Navigate(TestPage.CodingPath(examId))]
      ensures old(isLastQuestion) && (postError || examId == "") ==>
        store.results == old(store.results) && effects == old(effects) + [ToastError(SaveFailedMessage)]
    {
      var q := questions[current];
      var isCorrect := Counts(q, selected);
      var posted := Posted(answers, q.key, selected.value);
      answers := answers[q.key := selected.value];
      if isCorrect {
        score := score + 1;
        page.SaveUserTestScore();
      }
      if isLastQuestion {
        PostAnswers(store, userId, bank, posted, postError);
      }
      Advance();
    }

    /** The request made after the last question: all answers to the result
        service, then the coding page, or the failure shown. */
    method PostAnswers(store: ResultStore, userId: string, bank: seq<Question>,
                       posted: map<string, string>, postError: bool)
      requires store.Valid()
      modifies this`effects, store
      ensures store.Valid()
      ensures !postError && examId != "" ==>
        store.results == old(store.results) + [NewResult(|old(store.results)|, examId, userId, posted, bank)]
        && effects == old(effects) + [Navigate(TestPage.CodingPath(examId))]
      ensures postError || examId == "" ==>
        store.results == old(store.results) && effects == old(effects) + [ToastError(SaveFailedMessage)]
    {
      if postError {
        effects := effects + [ToastError(SaveFailedMessage)];
        return;
      }
      var resp := store.Save(Some(examId), Some(posted), userId, bank);
      if resp.status == 201 {
        effects := effects + [Navigate(TestPage.CodingPath(examId))];
      } else {
        effects := effects + [ToastError(SaveFailedMessage)];
      }
    }

    /** The end of `handleNextQuestion`: the choice is cleared, and the panel
        moves to the next question or is finished. */
    method Advance()
      requires Valid()
      modifies this`current, this`selected, this`isLastQuestion, this`isFinishTest
      ensures Valid() && selected.None?
      ensures old(current) < |questions| - 1 ==> current == old(current) + 1 && isFinishTest == old(isFinishTest)
      ensures old(current) == |questions| - 1 ==> current == old(current) && isFinishTest
    {
      selected := None;
      if current < |questions| - 1 {
        current := current + 1;
        isLastQuestion := current == |questions| - 1;
      } else {
        isFinishTest := true;
      }
    }
  }
}
