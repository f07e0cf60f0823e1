/** The results page (frontend/src/views/student/ResultPage.jsx): which
    listing it fetches for the user's role, the teacher's search and exam
    filter, the summary figures, the exam names shown and the score chip.
    Fetched results are the server's listings; the teacher's listings have
    the student populated as name and email, the student's own listing does
    not. */
module ResultPage {
  import opened Common
  import opened Results
  import opened Routes

  /** The populated student of a result; a field the user lacks is None. */
  datatype Person = Person(name: Option<string>, email: Option<string>)

  /** A result as the page holds it. */
  datatype Fetched = Fetched(
    person: Option<Person>,
    examId: string,
    percentage: Fraction,
    totalMarks: int,
    showToStudent: bool,
    codingSubmissions: Option<seq<CodingSubmission>>)

  /** The page's copy of one listed result; `people` is what `populate`
      finds for each user id in a teacher's listing, and is empty for the
      student's own listing, which is not populated. */
  function FetchedOf(v: ResultView, people: map<string, Person>): (f: Fetched)
    ensures f.examId == v.result.examId && f.percentage == v.result.percentage
    ensures f.codingSubmissions == Some(v.codingSubmissions)
    ensures f.person.Some? <==> v.result.userId in people
    ensures f.person.Some? ==> f.person.value == people[v.result.userId]
    ensures f.totalMarks == v.result.totalMarks && f.showToStudent == v.result.showToStudent
  {
    Fetched(if v.result.userId in people then Some(people[v.result.userId]) else None,
            v.result.examId, v.result.percentage, v.result.totalMarks, v.result.showToStudent,
            Some(v.codingSubmissions))
  }

  function FetchedAll(vs: seq<ResultView>, people: map<string, Person>): (fs: seq<Fetched>)
    ensures |fs| == |vs| && forall i :: 0 <= i < |vs| ==> fs[i] == FetchedOf(vs[i], people)
  {
    seq(|vs|, i requires 0 <= i < |vs| => FetchedOf(vs[i], people))
  }

  /** The listing the page loads: all results for a teacher, the user's own
      visible ones for anybody else. */
  function ResultsPath(role: Option<string>): (path: seq<string>)
    ensures role == Some("teacher") ==> path == ["api", "users", "results", "all"]
    ensures role != Some("teacher") ==> path == ["api", "users", "results", "user"]
  {
    ["api", "users", "results", if role == Some("teacher") then "all" else "user"]
  }

  /** The path the page requests reaches the listing meant for the role. */
  lemma ResultsPathReaches(role: Option<string>)
    ensures Dispatch(App, GET, ResultsPath(role), true)
         == Handled(if role == Some("teacher") then GetAllResults else GetUserResults, map[])
  {
    AllResultsReached(["api", "users", "results", "all"]);
    UserResultsReached(["api", "users", "results", "user"]);
  }

  /** `x?.toLowerCase().includes(term.toLowerCase())` on an optional field. */
  predicate FieldHas(field: Option<string>, term: string) {
    field.Some? && Contains(ToLower(field.value), ToLower(term))
  }

  /** The search: the student's name or email contains the term, ignoring case. */
  predicate MatchesSearch(r: Fetched, term: string) {
    r.person.Some? && (FieldHas(r.person.value.name, term) || FieldHas(r.person.value.email, term))
  }

  /** The exam filter: 'all', or the result's exam. */
  predicate MatchesExam(r: Fetched, selected: string) {
    selected == "all" || r.examId == selected
  }

  /** `filteredResults`. */
  function Filtered(rs: seq<Fetched>, term: string, selected: string): (r: seq<Fetched>)
    ensures forall x :: multiset(r)[x] == if MatchesSearch(x, term) && MatchesExam(x, selected) then multiset(rs)[x] else 0
    ensures forall i :: 0 <= i < |r| ==> MatchesSearch(r[i], term) && MatchesExam(r[i], selected)
  {
    if rs == [] then []
    else
      var last := rs[|rs| - 1];
      assert rs == rs[..|rs| - 1] + [last];
      Filtered(rs[..|rs| - 1], term, selected)
      + (if MatchesSearch(last, term) && MatchesExam(last, selected) then [last] else [])
  }

  /** With no search term and "all" selected, a result is kept exactly when
      its student has a name or an email. */
  lemma {:induction false} EmptySearchKeepsNamed(r: Fetched)
    ensures MatchesSearch(r, "") && MatchesExam(r, "all")
        <==> r.person.Some? && (r.person.value.name.Some? || r.person.value.email.Some?)
  {
    if r.person.Some? && r.person.value.name.Some? {
      assert IsPrefix("", ToLower(r.person.value.name.value));
    }
    if r.person.Some? && r.person.value.email.Some? {
      assert IsPrefix("", ToLower(r.person.value.email.value));
    }
  }

  /** The search ignores the case of the term. */
  lemma {:induction false} SearchIgnoresCase(r: Fetched, term: string)
    ensures MatchesSearch(r, term) <==> MatchesSearch(r, ToLower(term))
  {
    ToLowerIdempotent(term);
  }

  /** `codingSubmissions?.length || 0`. */
  function SubmissionCount(r: Fetched): (n: nat)
    ensures r.codingSubmissions.None? ==> n == 0
    ensures r.codingSubmissions.Some? ==> n == |r.codingSubmissions.value|
  {
    if r.codingSubmissions.Some? then |r.codingSubmissions.value| else 0
  }

  /** The "Total Submissions" card. */
  function TotalSubmissions(rs: seq<Fetched>): nat {
    if rs == [] then 0 else TotalSubmissions(rs[..|rs| - 1]) + SubmissionCount(rs[|rs| - 1])
  }

  /** The card counts no submissions when no result carries any. */
  lemma {:induction false} TotalSubmissionsZero(rs: seq<Fetched>)
    requires forall i :: 0 <= i < |rs| ==> SubmissionCount(rs[i]) == 0
    ensures TotalSubmissions(rs) == 0
  {
    if rs != [] {
      TotalSubmissionsZero(rs[..|rs| - 1]);
    }
  }

  /** Since the server's join never attributes a submission, the card shows
      0 for any listing of the all-results endpoint. */
  lemma AllResultsShowNoSubmissions(results: seq<ExamResult>, coding: seq<Coding.CodingQuestion>,
                                    people: map<string, Person>)
    ensures var views := seq(|results|, i requires 0 <= i < |results| =>
                               ResultView(results[i], SubmissionsOf(coding, results[i].userId)));
      TotalSubmissions(FetchedAll(views, people)) == 0
  {
    var views := seq(|results|, i requires 0 <= i < |results| =>
                       ResultView(results[i], SubmissionsOf(coding, results[i].userId)));
    var fs := FetchedAll(views, people);
    forall i | 0 <= i < |fs|
      ensures SubmissionCount(fs[i]) == 0
    {
      NoSubmissionAttributed(coding, results[i].userId);
    }
    TotalSubmissionsZero(fs);
  }

  /** `a/b + c/d`. */
  function AddFraction(a: Fraction, b: Fraction): Fraction {
    Fraction(a.num * b.den + b.num * a.den, a.den * b.den)
  }

  /** The sum of the percentages. */
  function PercentSum(ps: seq<Fraction>): (s: Fraction)
    requires forall i :: 0 <= i < |ps| ==> ps[i].den > 0
    ensures s.den > 0
  {
    if ps == [] then Fraction(0, 1)
    else
      var s := PercentSum(ps[..|ps| - 1]);
      var p := ps[|ps| - 1];
      assert s.den * p.den > 0;
      AddFraction(s, p)
  }

  predicate InPercentRange(p: Fraction) {
    p.den > 0 && 0 <= p.num <= 100 * p.den
  }

  /** Summing n percentages gives at most 100·n. */
  lemma {:induction false} PercentSumBounds(ps: seq<Fraction>)
    requires forall i :: 0 <= i < |ps| ==> InPercentRange(ps[i])
    ensures forall i :: 0 <= i < |ps| ==> ps[i].den > 0
    ensures var s := PercentSum(ps); 0 <= s.num <= 100 * |ps| * s.den
  {
    assert forall i :: 0 <= i < |ps| ==> ps[i].den > 0;
    if ps != [] {
      var init := ps[..|ps| - 1];
      var s := PercentSum(init);
      var p := ps[|ps| - 1];
      var n := |init|;
      PercentSumBounds(init);
      assert PercentSum(ps) == AddFraction(s, p);
      AddBound(s.num, s.den, p.num, p.den, n);
    }
  }

  /** One more percentage raises the bound by 100. */
  lemma AddBound(sn: int, sd: int, pn: int, pd: int, n: nat)
    requires sd > 0 && pd > 0 && 0 <= sn <= 100 * n * sd && 0 <= pn <= 100 * pd
    ensures 0 <= sn * pd + pn * sd <= 100 * (n + 1) * (sd * pd)
  {
    MulMono(sn, 100 * n * sd, pd);
    MulMono(pn, 100 * pd, sd);
    assert (100 * n * sd) * pd + (100 * pd) * sd == 100 * (n + 1) * (sd * pd);
  }

  lemma MulMono(a: int, b: int, c: int)
    requires 0 <= a <= b && c >= 0
    ensures 0 <= a * c <= b * c
  {
  }

  /** Dividing a sum of n percentages by n gives a percentage. */
  lemma MeanBounds(num: int, den: int, n: nat)
    requires den > 0 && n > 0 && 0 <= num <= 100 * n * den
    ensures InPercentRange(Fraction(num, den * n))
  {
    assert den * n > 0 by {
      MulMono(1, den, n);
    }
    assert 100 * n * den == 100 * (den * n);
  }

  /** The percentages of the listed results, in order. */
  function Percentages(rs: seq<Fetched>): (ps: seq<Fraction>)
    ensures |ps| == |rs| && forall i :: 0 <= i < |rs| ==> ps[i] == rs[i].percentage
    ensures (forall i :: 0 <= i < |rs| ==> InPercentRange(rs[i].percentage)) ==>
            forall i :: 0 <= i < |ps| ==> ps[i].den > 0
  {
    seq(|rs|, i requires 0 <= i < |rs| => rs[i].percentage)
  }

  /** Two fractions with positive denominators denote the same number. */
  predicate SameValue(a: Fraction, b: Fraction) {
    a.num * b.den == b.num * a.den
  }

  /** The "Average Score" card: None shows '0%'; otherwise the mean, the
      percentage whose `|rs|`-fold is the sum of the percentages. */
  function AverageScore(rs: seq<Fetched>): (avg: Option<Fraction>)
    requires forall i :: 0 <= i < |rs| ==> InPercentRange(rs[i].percentage)
    ensures avg.None? <==> rs == []
    ensures avg.Some? ==> InPercentRange(avg.value)
    ensures avg.Some? ==> SameValue(Fraction(avg.value.num * |rs|, avg.value.den), PercentSum(Percentages(rs)))
  {
    if rs == [] then None
    else
      var ps := Percentages(rs);
      PercentSumBounds(ps);
      var s := PercentSum(ps);
      MeanBounds(s.num, s.den, |rs|);
      assert s.num * |rs| * s.den == s.num * (s.den * |rs|);
      Some(Fraction(s.num, s.den * |rs|))
  }

  /** The sum of n copies of one percentage is n times it. */
  lemma {:induction false} PercentSumOfEqual(ps: seq<Fraction>, p: Fraction)
    requires p.den > 0 && forall i :: 0 <= i < |ps| ==> ps[i] == p
    ensures SameValue(PercentSum(ps), Fraction(|ps| * p.num, p.den))
  {
    if ps != [] {
      var init := ps[..|ps| - 1];
      var n := |init|;
      var t := PercentSum(init);
      PercentSumOfEqual(init, p);
      assert t.num * p.den == n * p.num * t.den;
      var s := PercentSum(ps);
      assert s == AddFraction(t, p);
      calc {
        s.num * p.den;
        (t.num * p.den + p.num * t.den) * p.den;
        (t.num * p.den) * p.den + p.num * t.den * p.den;
        (n * p.num * t.den) * p.den + p.num * t.den * p.den;
        (n + 1) * p.num * (t.den * p.den);
      }
    }
  }

  /** When every listed result has the same percentage, the card shows that
      percentage. */
  lemma AverageOfEqual(rs: seq<Fetched>, p: Fraction)
    requires InPercentRange(p) && rs != [] && forall i :: 0 <= i < |rs| ==> rs[i].percentage == p
    ensures AverageScore(rs).Some? && SameValue(AverageScore(rs).value, p)
  {
    var ps := Percentages(rs);
    PercentSumOfEqual(ps, p);
    var s := PercentSum(ps);
    var n := |rs|;
    assert s.num * p.den == n * p.num * s.den;
    assert AverageScore(rs).value == Fraction(s.num, s.den * n);
    assert p.num * (s.den * n) == n * p.num * s.den;
  }

  /** The score chip: success from 70% on. */
  function ScoreChip(p: Fraction): string
    requires p.den > 0
  {
    if p.num >= 70 * p.den then "success" else "warning"
  }

  /** For a stored result the chip is success exactly when at least 70% of
      the exam's questions were answered correctly, and warning for an exam
      without questions. */
  lemma ChipOfMarks(correct: nat, total: nat)
    requires correct <= total
    ensures ScoreChip(Percentage(correct, total)) == "success" <==> total > 0 && 10 * correct >= 7 * total
  {
    if total > 0 {
      assert Percentage(correct, total) == Fraction(100 * correct, total);
    }
  }

  /** Index of the first exam listed under `examId` by its examId or its id. */
  function FindExam(exams: seq<Exam>, examId: string): (r: Option<nat>)
    ensures r.Some? ==> r.value < |exams| && (exams[r.value].examId == Some(examId) || exams[r.value].id == Some(examId))
    ensures r.Some? ==> forall j :: 0 <= j < r.value ==> exams[j].examId != Some(examId) && exams[j].id != Some(examId)
    ensures r.None? ==> forall j :: 0 <= j < |exams| ==> exams[j].examId != Some(examId) && exams[j].id != Some(examId)
  {
    if exams == [] then None
    else if exams[0].examId == Some(examId) || exams[0].id == Some(examId) then Some(0)
    else
      match FindExam(exams[1..], examId)
      case None => None
      case Some(i) => Some(i + 1)
  }

  /** `exams.find(...)?.examName || result.examId`, the teacher's column. */
  function ExamName(exams: seq<Exam>, examId: string): (name: string)
    ensures FindExam(exams, examId).None? ==> name == examId
    ensures FindExam(exams, examId).Some? && exams[FindExam(exams, examId).value].examName.Some?
            && exams[FindExam(exams, examId).value].examName.value != "" ==>
            name == exams[FindExam(exams, examId).value].examName.value
    ensures FindExam(exams, examId).Some?
            && (|| exams[FindExam(exams, examId).value].examName.None?
                || exams[FindExam(exams, examId).value].examName.value == "")
            ==> name == examId
  {
    match FindExam(exams, examId)
    case None => examId
    case Some(i) => if exams[i].examName.Some? then OrElse(exams[i].examName.value, examId) else examId
  }

  /** The student's column adds a last fallback, 'Exam'. */
  function StudentExamName(exams: seq<Exam>, examId: string): (name: string)
    ensures name != ""
    ensures ExamName(exams, examId) != "" ==> name == ExamName(exams, examId)
  {
    OrElse(ExamName(exams, examId), "Exam")
  }

  /** Choosing an exam in the selector, as written: the page fetches
      "/api/users/results/exam/<choice>" whatever the choice, "All Exams"
      included. */
  function ExamChangePath(choice: string): seq<string> {
    ["api", "users", "results", "exam", choice]
  }

  /** Choosing "All Exams" after an exam asks the server for the results of
      an exam whose id is "all" ... */
  lemma SelectAllRequestsExamAll()
    ensures Dispatch(App, GET, ExamChangePath("all"), true) == Handled(GetResultsByExam, map["examId" := "all"])
  {
    ExamResultsReached("all");
  }

  /** ... and with no such exam the page then lists nothing, although the
      filter says all exams. */
  lemma SelectAllListsNothing(store: seq<ExamResult>)
    requires forall i :: 0 <= i < |store| ==> store[i].examId != "all"
    ensures ResultsOfExam(store, "all") == []
  {
    forall x
      ensures multiset(ResultsOfExam(store, "all"))[x] == 0
    {
      if x.examId == "all" {
        assert x !in store;
      }
    }
    assert multiset(ResultsOfExam(store, "all")) == multiset{};
  }

  /** The intended selector: "All Exams" reloads every result. */
  function ExamChangePathFixed(choice: string): seq<string> {
    if choice == "all" then ["api", "users", "results", "all"] else ExamChangePath(choice)
  }

  /** With the correction, "All Exams" reaches the all-results listing and
      any other choice the by-exam listing for that exam. */
  lemma ExamChangeFixedReaches(choice: string)
    requires choice != ""
    ensures Dispatch(App, GET, ExamChangePathFixed(choice), true)
         == if choice == "all" then Handled(GetAllResults, map[])
            else Handled(GetResultsByExam, map["examId" := choice])
  {
    if choice == "all" {
      AllResultsReached(["api", "users", "results", "all"]);
    } else {
      ExamResultsReached(choice);
    }
  }
}
