/** The coding page (frontend/src/views/student/Coder.jsx): it loads the
    exam's coding question, runs code on the runner of the chosen language,
    and on submit sends the answer first and saves the cheating log only once
    the answer was accepted. The runner's reply and the outcome of the log
    save are parameters; the coding registry and the log store are the
    server-side models the page talks to. */
module Coder {
  import opened Common
  import opened CheatingLog
  import opened CheatingLogStore
  import opened Coding
  import TestPage

  const DefaultCode := "// Write your code here..."
  const RunErrorMessage := "Error running code."
  const NotLoadedMessage := "Question not loaded properly. Please try again."
  const LoadFailedMessage := "Failed to load coding question"
  const SubmitFailedMessage := "Failed to submit test"
  const SubmittedMessage := "Test submitted successfully!"
  const LogFailedMessage := "Test submitted but failed to save monitoring logs"
  const SuccessPath := "/success"

  /** The values the language menu offers. */
  const MenuLanguages: set<string> := {"javascript", "python", "java"}

  /** The `switch` in `runCode`: the runner endpoint of a language, none for
      any other value. */
  function RunnerUrl(language: string): (url: Option<string>)
    ensures url.Some? <==> language in MenuLanguages
    ensures url.Some? ==> url.value == "/run-" + language
  {
    if language == "python" then Some("/run-python")
    else if language == "java" then Some("/run-java")
    else if language == "javascript" then Some("/run-javascript")
    else None
  }

  /** Every language the menu offers has a runner and passes the server's
      enum check; of the server's languages, only cpp has no runner. */
  lemma RunnersAndSchemaAgree(l: Language, s: string)
    ensures s in MenuLanguages ==> RunnerUrl(s).Some? && LanguageOf(s).Some?
    ensures RunnerUrl(LanguageName(l)).None? <==> l == Cpp
  {
  }

  /** The editor's content once a question with this description arrives. */
  function StarterCode(description: string, current: string): (code: string)
    ensures description == "" ==> code == current
    ensures description != "" ==>
      code == "// " + description + "\n\n" + DefaultCode && code[|code| - |DefaultCode|..] == DefaultCode
  {
    if description != "" then "// " + description + "\n\n" + DefaultCode else current
  }

  /** `updatedLog` of `handleSubmit`: the user and the route's exam are set,
      the four detector counts become `parseInt(x) || 0`, the screenshots
      `x || []`; the focus count is passed through as it is, present or not. */
  function SubmissionLog(log: Log, user: UserInfo, examId: string): (r: Log)
    ensures forall c :: c != FocusLost ==> c in r.counts && r.counts[c] == CountOf(log, c)
    ensures FocusLost in r.counts <==> FocusLost in log.counts
    ensures FocusLost in r.counts ==> r.counts[FocusLost] == log.counts[FocusLost]
    ensures r.screenshots == Some(ShotsOf(log))
    ensures r.username == Some(user.name) && r.email == Some(user.email) && r.examId == Some(examId)
    ensures LogInvariant(log) ==> LogInvariant(r)
  {
    AllCountersComplete();
    Log(map c | c in AllCounters && (c != FocusLost || c in log.counts) :: CountOf(log, c),
        Some(examId), Some(user.name), Some(user.email), Some(ShotsOf(log)))
  }

  /** The coding page normalises one count fewer than the exam page, but the
      server defaults that count, so both pages store the same document. */
  lemma SameStoredDocument(log: Log, user: UserInfo, examId: string)
    ensures ToStored(SubmissionLog(log, user, examId)) == ToStored(TestPage.ForSubmission(log, user, examId))
  {
  }

  /** The page's state. */
  class CoderPage {
    const examId: string
    const provider: Provider
    var code: string
    var language: string
    var output: string
    var questionId: Option<nat>
    var isLoading: bool
    var question: Option<CodingQuestion>
    var effects: seq<Effect>

    /** The language is always one the menu offers. */
    ghost predicate Valid()
      reads this
    {
      language in MenuLanguages
    }

    constructor (examId: string, provider: Provider)
      ensures this.examId == examId && this.provider == provider
      ensures code == DefaultCode && language == "javascript" && output == ""
      ensures questionId.None? && isLoading && question.None? && effects == []
      ensures Valid()
    {
      this.examId := examId;
      this.provider := provider;
      code := DefaultCode;
      language := "javascript";
      output := "";
      questionId := None;
      isLoading := true;
      question := None;
      effects := [];
    }

    /** The effect run when userInfo changes. It hands the provider an
        updater function, whose spread adds no field: the merge only coerces
        the counts, and the user's name and email are not written. */
    method UserEffect()
      modifies provider`log
      ensures provider.userInfo.Some? ==> provider.log == Merge(old(provider.log), Log(map[], None, None, None, None))
      ensures provider.userInfo.None? ==> provider.log == old(provider.log)
      ensures provider.log.username == old(provider.log.username) && provider.log.email == old(provider.log.email)
      ensures provider.log.examId == old(provider.log.examId)
    {
      if provider.userInfo.Some? {
        provider.Update(Log(map[], None, None, None, None));
      }
    }

    /** The effect run when the route's exam is known: ask the server for the
        exam's question; on success remember it and seed the editor with its
        description, else show the server's message. Loading ends either way. */
    method FetchQuestion(reg: Registry)
      requires reg.Valid()
      modifies this`questionId, this`question, this`code, this`isLoading, this`effects
      ensures examId == "" ==>
        questionId == old(questionId) && question == old(question) && code == old(code)
        && isLoading == old(isLoading) && effects == old(effects)
      ensures examId != "" ==> !isLoading
      ensures examId != "" && FindByExam(reg.questions, examId).Some? ==>
        var q := reg.questions[FindByExam(reg.questions, examId).value];
        question == Some(q) && questionId == Some(q.id) && code == StarterCode(q.description, old(code))
        && effects == old(effects)
      ensures examId != "" && FindByExam(reg.questions, examId).None? ==>
        questionId == old(questionId) && question == old(question) && code == old(code)
        && effects == old(effects) + [ToastError(NoneForExam(examId))]
    {
      if examId == "" {
        return;
      }
      isLoading := true;
      var resp := reg.ByExam(examId);
      if resp.status == 200 {
        var q := resp.body.value;
        ghost var k :| 0 <= k < |reg.questions| && reg.questions[k] == q;
        assert k == FindByExam(reg.questions, examId).value;
        questionId := Some(q.id);
        question := Some(q);
        if q.description != "" {
          code := StarterCode(q.description, code);
        }
      } else {
        assert resp.body.error == Message(NoneForExam(examId));
        effects := effects + [ToastError(OrElse(resp.body.error.text, LoadFailedMessage))];
      }
      isLoading := false;
    }

    method Edit(value: string)
      modifies this`code
      ensures code == value
    {
      code := value;
    }

    /** The language menu: only its three values can be chosen. */
    method ChooseLanguage(choice: string)
      requires choice in MenuLanguages
      modifies this`language
      ensures language == choice && Valid()
    {
      language := choice;
    }

    /** `runCode`: the request goes to the language's runner, if it has one;
        the runner's reply (`None` when the request failed) becomes the output. */
    method RunCode(reply: Option<string>) returns (url: Option<string>)
      modifies this`output
      ensures url == RunnerUrl(language)
      ensures Valid() ==> url.Some?
      ensures url.None? ==> output == old(output)
      ensures url.Some? && reply.Some? ==> output == reply.value
      ensures url.Some? && reply.None? ==> output == RunErrorMessage
    {
      url := RunnerUrl(language);
      if url.None? {
        return;
      }
      output := if reply.Some? then reply.value else RunErrorMessage;
    }

    /** Whether the server takes the answer the page would send now. */
    ghost predicate Accepted(reg: Registry)
      reads this, reg
    {
      questionId.Some? && code != "" && questionId.value < |reg.questions|
    }

    /** `handleSubmit`: without a loaded question nothing is sent. Otherwise
        the answer goes first; only when it is accepted is the log built and
        saved, and the page goes to the success page whether or not that
        save (or reading the user for it) fails. A rejected answer shows the
        server's message and saves nothing. */
    method HandleSubmit(reg: Registry, logs: LogStore, saveError: Option<string>)
      requires Valid() && reg.Valid()
      modifies reg, logs, this`effects
      ensures reg.Valid()
      ensures questionId.None? ==>
        reg.questions == old(reg.questions) && logs.logs == old(logs.logs)
        && effects == old(effects) + [ToastError(NotLoadedMessage)]
      ensures old(Accepted(reg)) ==>
        reg.questions == WithAnswer(old(reg.questions), questionId.value,
                                    SubmittedAnswer(Trim(code), LanguageOf(language).value, Pending))
      ensures !old(Accepted(reg)) ==> reg.questions == old(reg.questions) && logs.logs == old(logs.logs)
      ensures questionId.Some? && code == "" ==>
        effects == old(effects) + [ToastError(SubmitFieldsMessage)]
      ensures questionId.Some? && code != "" && questionId.value >= |old(reg.questions)| ==>
        effects == old(effects) + [ToastError(QuestionNotFound)]
      ensures old(Accepted(reg)) && provider.userInfo.Some? && saveError.None? ==>
        logs.logs == old(logs.logs) + [ToStored(SubmissionLog(provider.log, provider.userInfo.value, examId))]
        && effects == old(effects) + [ToastSuccess(SubmittedMessage), Navigate(SuccessPath)]
      ensures old(Accepted(reg)) && (provider.userInfo.None? || saveError.Some?) ==>
        logs.logs == old(logs.logs) && effects == old(effects) + [ToastError(LogFailedMessage), Navigate(SuccessPath)]
    {
      if questionId.None? {
        effects := effects + [ToastError(NotLoadedMessage)];
        return;
      }
      SendAnswer(reg, logs, saveError);
    }

    /** The part of `handleSubmit` after the loaded-question check. */
    method SendAnswer(reg: Registry, logs: LogStore, saveError: Option<string>)
      requires Valid() && reg.Valid() && questionId.Some?
      modifies reg, logs, this`effects
      ensures reg.Valid()
      ensures old(Accepted(reg)) ==>
        reg.questions == WithAnswer(old(reg.questions), questionId.value,
                                    SubmittedAnswer(Trim(code), LanguageOf(language).value, Pending))
      ensures !old(Accepted(reg)) ==> reg.questions == old(reg.questions) && logs.logs == old(logs.logs)
      ensures code == "" ==> effects == old(effects) + [ToastError(SubmitFieldsMessage)]
      ensures code != "" && questionId.value >= |old(reg.questions)| ==>
        effects == old(effects) + [ToastError(QuestionNotFound)]
      ensures old(Accepted(reg)) && provider.userInfo.Some? && saveError.None? ==>
        logs.logs == old(logs.logs) + [ToStored(SubmissionLog(provider.log, provider.userInfo.value, examId))]
        && effects == old(effects) + [ToastSuccess(SubmittedMessage), Navigate(SuccessPath)]
      ensures old(Accepted(reg)) && (provider.userInfo.None? || saveError.Some?) ==>
        logs.logs == old(logs.logs) && effects == old(effects) + [ToastError(LogFailedMessage), Navigate(SuccessPath)]
    {
      ghost var accepted := Accepted(reg);
      var resp := reg.Submit(questionId, Some(code), Some(language));
      assert accepted <==> resp.status == 200;
      if resp.status != 200 {
        effects := effects + [ToastError(OrElse(resp.body.error.text, SubmitFailedMessage))];
        return;
      }
      SaveLogAndLeave(logs, saveError);
    }

    /** The inner `try` of `handleSubmit`, reached once the answer was
        accepted: build the log (reading the user fails without one), save
        it, and go to the success page in every case. */
    method SaveLogAndLeave(logs: LogStore, saveError: Option<string>)
      modifies logs, this`effects
      ensures provider.userInfo.Some? && saveError.None? ==>
        logs.logs == old(logs.logs) + [ToStored(SubmissionLog(provider.log, provider.userInfo.value, examId))]
        && effects == old(effects) + [ToastSuccess(SubmittedMessage), Navigate(SuccessPath)]
      ensures provider.userInfo.None? || saveError.Some? ==>
        logs.logs == old(logs.logs) && effects == old(effects) + [ToastError(LogFailedMessage), Navigate(SuccessPath)]
    {
      if provider.userInfo.None? {
        effects := effects + [ToastError(LogFailedMessage), Navigate(SuccessPath)];
        return;
      }
      var saved := logs.Save(SubmissionLog(provider.log, provider.userInfo.value, examId), saveError);
      if saved.body.Err? {
        effects := effects + [ToastError(LogFailedMessage), Navigate(SuccessPath)];
      } else {
        effects := effects + [ToastSuccess(SubmittedMessage), Navigate(SuccessPath)];
      }
    }
  }

  /** One accepted submission by a signed-in user whose log is saved: the
      log is stored once, success is shown, and the page still holds an
      answer the server takes. */
  method SubmitAccepted(page: CoderPage, reg: Registry, logs: LogStore)
    requires page.Valid() && reg.Valid() && page.Accepted(reg) && page.provider.userInfo.Some?
    modifies reg, logs, page`effects
    ensures reg.Valid() && page.Accepted(reg)
    ensures logs.logs == old(logs.logs) + [ToStored(SubmissionLog(page.provider.log, page.provider.userInfo.value, page.examId))]
    ensures page.effects == old(page.effects) + [ToastSuccess(SubmittedMessage), Navigate(SuccessPath)]
  {
    page.HandleSubmit(reg, logs, None);
  }

  /** The coding page has no submission guard: clicking submit twice sends
      the answer twice and stores the log twice. */
  method SubmitTwiceSavesTwice(page: CoderPage, reg: Registry, logs: LogStore)
    requires page.Valid() && reg.Valid() && page.Accepted(reg) && page.provider.userInfo.Some?
    modifies reg, logs, page`effects
    ensures var d := ToStored(SubmissionLog(page.provider.log, page.provider.userInfo.value, page.examId));
      logs.logs == old(logs.logs) + [d, d]
    ensures page.effects == old(page.effects) + [ToastSuccess(SubmittedMessage), Navigate(SuccessPath),
                                                 ToastSuccess(SubmittedMessage), Navigate(SuccessPath)]
  {
    ghost var d := ToStored(SubmissionLog(page.provider.log, page.provider.userInfo.value, page.examId));
    ghost var done := [ToastSuccess(SubmittedMessage), Navigate(SuccessPath)];
    SubmitAccepted(page, reg, logs);
    SubmitAccepted(page, reg, logs);
    AppendTwo(old(logs.logs), d, d);
    assert old(page.effects) + done + done == old(page.effects) + (done + done);
  }
}
