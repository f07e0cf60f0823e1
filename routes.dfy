/** Request routing on the server: the three routers of the core
    (backend/routes/proctoringReportRoutes.js, backend/routes/resultRoutes.js,
    backend/routes/codingRoutes.js), mounted as backend/server.js mounts them,
    and Express's first-match dispatch with the `protect` guard either per
    route or for a whole router. Paths are split into segments at '/'. */
module Routes {
  import opened Common

  datatype Verb = GET | POST | PUT

  /** A pattern segment: a literal, or a `:name` parameter that matches any
      non-empty segment. */
  datatype Segment = Lit(text: string) | Param(name: string)

  /** The controller functions of the core. */
  datatype Handler =
    | GenerateReport | GetReport | GetReportsByExam
    | SaveResult | GetAllResults | GetResultsByExam | GetUserResults | ToggleVisibility
    | SubmitCoding | GetCodingByExam | CreateCoding | ListCoding | GetCodingById

  datatype Route = Route(verb: Verb, pattern: seq<Segment>, handler: Handler, guarded: bool)

  /** A router mounted at `prefix`; `guardAll` is `router.use(protect)`. */
  datatype Router = Router(prefix: seq<string>, guardAll: bool, routes: seq<Route>)

  /** What a request ends in. */
  datatype Outcome = Handled(handler: Handler, params: map<string, string>) | Unauthorized | NotFound

  /** The proctoring-report router: each route guarded on its own. */
  const ReportRouter := Router(["api", "proctoring-report"], false, [
    Route(POST, [], GenerateReport, true),
    Route(GET, [Param("examId"), Param("candidateEmail")], GetReport, true),
    Route(GET, [Lit("exam"), Param("examId")], GetReportsByExam, true)])

  /** The result router, mounted under /api/users and guarded as a whole. */
  const ResultRouter := Router(["api", "users"], true, [
    Route(POST, [Lit("results")], SaveResult, false),
    Route(GET, [Lit("results"), Lit("all")], GetAllResults, false),
    Route(GET, [Lit("results"), Lit("exam"), Param("examId")], GetResultsByExam, false),
    Route(GET, [Lit("results"), Lit("user")], GetUserResults, false),
    Route(PUT, [Lit("results"), Param("resultId"), Lit("toggle-visibility")], ToggleVisibility, false)])

  /** The coding router, guarded as a whole. */
  const CodingRouter := Router(["api", "coding"], true, [
    Route(POST, [Lit("submit")], SubmitCoding, false),
    Route(GET, [Lit("questions"), Lit("exam"), Param("examId")], GetCodingByExam, false),
    Route(POST, [Lit("question")], CreateCoding, false),
    Route(GET, [Lit("questions")], ListCoding, false),
    Route(GET, [Lit("questions"), Param("id")], GetCodingById, false)])

  /** The routers in mounting order. */
  const App := [ResultRouter, CodingRouter, ReportRouter]

  /** The parameters a pattern binds on a path, or None when it does not match. */
  function MatchPattern(pattern: seq<Segment>, path: seq<string>): (r: Option<map<string, string>>)
    ensures r.Some? ==> |pattern| == |path|
    ensures r.Some? ==> forall i :: 0 <= i < |pattern| && pattern[i].Lit? ==> path[i] == pattern[i].text
    ensures r.Some? ==> forall i :: 0 <= i < |pattern| && pattern[i].Param? ==> path[i] != ""
    decreases |pattern|
  {
    if |pattern| != |path| then None
    else if pattern == [] then Some(map[])
    else
      var rest := MatchPattern(pattern[1..], path[1..]);
      if rest.None? then None
      else match pattern[0]
        case Lit(t) => if path[0] == t then rest else None
        case Param(n) => if path[0] != "" then Some(rest.value[n := path[0]]) else None
  }

  /** The first route of the list that takes the request. */
  function FirstRoute(routes: seq<Route>, verb: Verb, path: seq<string>): (r: Option<(Route, map<string, string>)>)
    ensures r.Some? ==> r.value.0 in routes && r.value.0.verb == verb
                        && MatchPattern(r.value.0.pattern, path) == Some(r.value.1)
    ensures r.None? ==> forall rt :: rt in routes && rt.verb == verb ==> MatchPattern(rt.pattern, path).None?
  {
    if routes == [] then None
    else if routes[0].verb == verb && MatchPattern(routes[0].pattern, path).Some? then
      Some((routes[0], MatchPattern(routes[0].pattern, path).value))
    else FirstRoute(routes[1..], verb, path)
  }

  predicate HasPrefix(prefix: seq<string>, path: seq<string>) {
    |prefix| <= |path| && path[..|prefix|] == prefix
  }

  /** One router's answer, or None when the request passes through it. The
      router-wide guard runs before any route is tried, so it answers even
      for paths none of its routes take. */
  function RouterDispatch(router: Router, verb: Verb, path: seq<string>, authenticated: bool): Option<Outcome> {
    if !HasPrefix(router.prefix, path) then None
    else if router.guardAll && !authenticated then Some(Unauthorized)
    else match FirstRoute(router.routes, verb, path[|router.prefix|..])
      case None => None
      case Some((rt, params)) =>
        if rt.guarded && !authenticated then Some(Unauthorized) else Some(Handled(rt.handler, params))
  }

  /** The application's answer: the first router that answers, else 404. */
  function Dispatch(routers: seq<Router>, verb: Verb, path: seq<string>, authenticated: bool): Outcome {
    if routers == [] then NotFound
    else match RouterDispatch(routers[0], verb, path, authenticated)
      case Some(o) => o
      case None => Dispatch(routers[1..], verb, path, authenticated)
  }

  /** No request reaches a core handler without authentication. */
  lemma {:induction false} DispatchNeedsAuth(routers: seq<Router>, verb: Verb, path: seq<string>)
    requires forall r :: r in routers ==> r.guardAll || forall rt :: rt in r.routes ==> rt.guarded
    ensures !Dispatch(routers, verb, path, false).Handled?
  {
    if routers != [] {
      var r := routers[0];
      if RouterDispatch(r, verb, path, false).None? {
        DispatchNeedsAuth(routers[1..], verb, path);
      }
    }
  }

  lemma AppNeedsAuth(verb: Verb, path: seq<string>)
    ensures !Dispatch(App, verb, path, false).Handled?
  {
    DispatchNeedsAuth(App, verb, path);
  }

  /** The routers after the first and after the second. */
  lemma AppTails()
    ensures App[1..] == [CodingRouter, ReportRouter] && App[1..][1..] == [ReportRouter]
    ensures App[1..][1..][1..] == []
  {
  }

  /** The application's answer router by router. */
  lemma DispatchApp(verb: Verb, path: seq<string>, authenticated: bool)
    ensures var r1 := RouterDispatch(ResultRouter, verb, path, authenticated);
      var r2 := RouterDispatch(CodingRouter, verb, path, authenticated);
      var r3 := RouterDispatch(ReportRouter, verb, path, authenticated);
      Dispatch(App, verb, path, authenticated)
      == if r1.Some? then r1.value else if r2.Some? then r2.value else if r3.Some? then r3.value else NotFound
  {
    AppTails();
    var r2 := RouterDispatch(CodingRouter, verb, path, authenticated);
    var r3 := RouterDispatch(ReportRouter, verb, path, authenticated);
    var none: seq<Router> := [];
    assert Dispatch(none, verb, path, authenticated) == NotFound;
    assert [ReportRouter][1..] == none;
    assert Dispatch([ReportRouter], verb, path, authenticated) == if r3.Some? then r3.value else NotFound;
    assert [CodingRouter, ReportRouter][1..] == [ReportRouter];
    assert Dispatch([CodingRouter, ReportRouter], verb, path, authenticated)
        == if r2.Some? then r2.value else Dispatch([ReportRouter], verb, path, authenticated);
  }

  /** A pattern of two parameters binds both. */
  lemma MatchTwoParams(n1: string, n2: string, s1: string, s2: string)
    requires s1 != "" && s2 != ""
    ensures MatchPattern([Param(n1), Param(n2)], [s1, s2]) == Some(map[n2 := s2][n1 := s1])
  {
    assert [Param(n1), Param(n2)][1..] == [Param(n2)] && [s1, s2][1..] == [s2];
    assert MatchPattern([Param(n2)], [s2]) == Some(map[n2 := s2]) by {
      assert [Param(n2)][1..] == [] && [s2][1..] == [];
    }
  }

  /** The first report route the lookup takes is never the by-exam route:
      whatever that route matches, the two-parameter route matches first. */
  lemma ReportFirstRouteNeverByExam(verb: Verb, rest: seq<string>)
    ensures var f := FirstRoute(ReportRouter.routes, verb, rest);
      f.Some? ==> f.value.0.handler != GetReportsByExam
  {
    var rs := ReportRouter.routes;
    assert rs[1..] == [rs[1], rs[2]] && rs[1..][1..] == [rs[2]] && rs[1..][1..][1..] == [];
    if verb == GET && MatchPattern(rs[2].pattern, rest).Some? {
      assert |rest| == 2 && rest[0] == "exam" && rest[1] != "";
      assert rest == [rest[0], rest[1]];
      MatchTwoParams("examId", "candidateEmail", rest[0], rest[1]);
    }
  }

  /** The two-parameter report route is declared first and takes every
      two-segment GET, so `GET /api/proctoring-report/exam/<id>` reaches the
      single-report lookup with examId "exam" and candidateEmail the id. */
  lemma ReportsByExamShadowed(examId: string)
    requires examId != ""
    ensures Dispatch(App, GET, ["api", "proctoring-report", "exam", examId], true)
         == Handled(GetReport, map["examId" := "exam", "candidateEmail" := examId])
  {
    var rs := ReportRouter.routes;
    var q := ["exam", examId];
    MatchTwoParams("examId", "candidateEmail", "exam", examId);
    assert map["candidateEmail" := examId]["examId" := "exam"]
        == map["examId" := "exam", "candidateEmail" := examId];
    assert rs[0].verb != GET;
    FirstRouteAt(rs, GET, q, 1);
    ReportPath(GET, q, true);
    assert ["api", "proctoring-report"] + q == ["api", "proctoring-report", "exam", examId];
  }

  /** A router never hands a request to a handler none of its routes names. */
  lemma RouterNeverHandles(router: Router, h: Handler, verb: Verb, path: seq<string>, authenticated: bool)
    requires forall rt :: rt in router.routes ==> rt.handler != h
    ensures var o := RouterDispatch(router, verb, path, authenticated);
      !(o.Some? && o.value.Handled? && o.value.handler == h)
  {
  }

  /** Whether a router's answer is the by-exam report handler. */
  predicate AnswersByExam(o: Option<Outcome>) {
    o.Some? && o.value.Handled? && o.value.handler == GetReportsByExam
  }

  /** Neither the result router nor the coding router declares it. */
  lemma OtherRoutersNeverByExam(verb: Verb, path: seq<string>, authenticated: bool)
    ensures !AnswersByExam(RouterDispatch(ResultRouter, verb, path, authenticated))
    ensures !AnswersByExam(RouterDispatch(CodingRouter, verb, path, authenticated))
  {
    RouterNeverHandles(ResultRouter, GetReportsByExam, verb, path, authenticated);
    RouterNeverHandles(CodingRouter, GetReportsByExam, verb, path, authenticated);
  }

  /** The report router declares it, but never reaches it. */
  lemma ReportRouterNeverByExam(verb: Verb, path: seq<string>, authenticated: bool)
    ensures !AnswersByExam(RouterDispatch(ReportRouter, verb, path, authenticated))
  {
    if HasPrefix(ReportRouter.prefix, path) {
      ReportFirstRouteNeverByExam(verb, path[2..]);
    }
  }

  /** Hence no request ever reaches the by-exam report handler. */
  lemma ReportsByExamUnreachable(verb: Verb, path: seq<string>, authenticated: bool)
    ensures var o := Dispatch(App, verb, path, authenticated); !(o.Handled? && o.handler == GetReportsByExam)
  {
    OtherRoutersNeverByExam(verb, path, authenticated);
    ReportRouterNeverByExam(verb, path, authenticated);
    DispatchApp(verb, path, authenticated);
  }

  /** The coding router declares the by-exam route before `/questions/:id`,
      so the by-exam lookup is reachable there. */
  lemma CodingByExamReachable(examId: string)
    requires examId != ""
    ensures Dispatch(App, GET, ["api", "coding", "questions", "exam", examId], true)
         == Handled(GetCodingByExam, map["examId" := examId])
  {
    var rs := CodingRouter.routes;
    var q := ["questions", "exam", examId];
    MatchLitLitParam("questions", "exam", "examId", examId);
    assert rs[0].verb != GET;
    FirstRouteAt(rs, GET, q, 1);
    CodingPath(GET, q, true);
    assert ["api", "coding"] + q == ["api", "coding", "questions", "exam", examId];
  }

  /** The result router's guard answers 401 to an unauthenticated request for
      any path under its mount point, including paths it has no route for. */
  lemma ResultGuardCoversUnknownPaths(verb: Verb, rest: seq<string>)
    ensures RouterDispatch(ResultRouter, verb, ["api", "users"] + rest, false) == Some(Unauthorized)
  {
    assert (["api", "users"] + rest)[..2] == ["api", "users"];
  }

  /** The report router has no router-wide guard: an unauthenticated request
      for a path it has no route for passes on (and ends in 404). */
  lemma ReportUnknownPathNotFound(verb: Verb)
    ensures Dispatch(App, verb, ["api", "proctoring-report", "a", "b", "c"], false) == NotFound
  {
    var path := ["api", "proctoring-report", "a", "b", "c"];
    AppTails();
    assert !HasPrefix(ResultRouter.prefix, path) by { assert path[..2][1] != "users"; }
    assert !HasPrefix(CodingRouter.prefix, path) by { assert path[..2][1] != "coding"; }
    assert HasPrefix(ReportRouter.prefix, path);
    assert path[2..] == ["a", "b", "c"];
    var rs := ReportRouter.routes;
    assert rs[1..] == [rs[1], rs[2]] && rs[1..][1..] == [rs[2]] && rs[1..][1..][1..] == [];
    assert FirstRoute(rs, verb, path[2..]).None?;
    DispatchApp(verb, path, false);
  }

  /** A request under "/api/users" is answered by the result router alone:
      401 without authentication, else its first matching route, else 404. */
  lemma UsersPath(verb: Verb, rest: seq<string>, authenticated: bool)
    ensures Dispatch(App, verb, ["api", "users"] + rest, authenticated)
         == if !authenticated then Unauthorized
            else match FirstRoute(ResultRouter.routes, verb, rest)
              case None => NotFound
              case Some((rt, params)) => Handled(rt.handler, params)
  {
    var path := ["api", "users"] + rest;
    assert path[..2] == ["api", "users"] && path[2..] == rest;
    assert !HasPrefix(CodingRouter.prefix, path) by { assert path[..2][1] != "coding"; }
    assert !HasPrefix(ReportRouter.prefix, path) by { assert path[..2][1] != "proctoring-report"; }
    DispatchApp(verb, path, authenticated);
  }

  /** A request under "/api/proctoring-report" is answered by the report
      router alone, each route checking authentication on its own. */
  lemma ReportPath(verb: Verb, rest: seq<string>, authenticated: bool)
    ensures Dispatch(App, verb, ["api", "proctoring-report"] + rest, authenticated)
         == match FirstRoute(ReportRouter.routes, verb, rest)
              case None => NotFound
              case Some((rt, params)) => if rt.guarded && !authenticated then Unauthorized else Handled(rt.handler, params)
  {
    var path := ["api", "proctoring-report"] + rest;
    assert path[..2] == ["api", "proctoring-report"] && path[2..] == rest;
    assert !HasPrefix(ResultRouter.prefix, path) by { assert path[..2][1] != "users"; }
    assert !HasPrefix(CodingRouter.prefix, path) by { assert path[..2][1] != "coding"; }
    DispatchApp(verb, path, authenticated);
  }

  /** A request under "/api/coding" is answered by the coding router alone. */
  lemma CodingPath(verb: Verb, rest: seq<string>, authenticated: bool)
    ensures Dispatch(App, verb, ["api", "coding"] + rest, authenticated)
         == if !authenticated then Unauthorized
            else match FirstRoute(CodingRouter.routes, verb, rest)
              case None => NotFound
              case Some((rt, params)) => Handled(rt.handler, params)
  {
    var path := ["api", "coding"] + rest;
    assert path[..2] == ["api", "coding"] && path[2..] == rest;
    assert !HasPrefix(ResultRouter.prefix, path) by { assert path[..2][1] != "users"; }
    assert !HasPrefix(ReportRouter.prefix, path) by { assert path[..2][1] != "proctoring-report"; }
    DispatchApp(verb, path, authenticated);
  }

  /** The lookup takes the first route that matches: route k, when it takes
      the request and no earlier route does. */
  lemma {:induction false} FirstRouteAt(routes: seq<Route>, verb: Verb, path: seq<string>, k: nat)
    requires k < |routes| && routes[k].verb == verb && MatchPattern(routes[k].pattern, path).Some?
    requires forall j :: 0 <= j < k ==> routes[j].verb != verb || MatchPattern(routes[j].pattern, path).None?
    ensures FirstRoute(routes, verb, path) == Some((routes[k], MatchPattern(routes[k].pattern, path).value))
    decreases k
  {
    if k > 0 {
      assert routes[0].verb != verb || MatchPattern(routes[0].pattern, path).None?;
      FirstRouteAt(routes[1..], verb, path, k - 1);
    }
  }

  /** A pattern never matches a path of another length. */
  lemma MatchLengths(pattern: seq<Segment>, path: seq<string>)
    requires |pattern| != |path|
    ensures MatchPattern(pattern, path).None?
  {
  }

  /** A one-literal pattern matches exactly its literal. */
  lemma MatchOneLit(t: string, s: string)
    ensures MatchPattern([Lit(t)], [s]) == if s == t then Some(map[]) else None
  {
    assert [Lit(t)][1..] == [] && [s][1..] == [];
  }

  /** A pattern of two literals matches exactly those two segments. */
  lemma MatchTwoLits(t1: string, t2: string, s1: string, s2: string)
    ensures MatchPattern([Lit(t1), Lit(t2)], [s1, s2]) == if s1 == t1 && s2 == t2 then Some(map[]) else None
  {
    assert [Lit(t1), Lit(t2)][1..] == [Lit(t2)] && [s1, s2][1..] == [s2];
    MatchOneLit(t2, s2);
  }

  /** A literal followed by a parameter binds the parameter. */
  lemma MatchLitParam(t: string, n: string, s: string)
    requires s != ""
    ensures MatchPattern([Lit(t), Param(n)], [t, s]) == Some(map[n := s])
  {
    assert [Lit(t), Param(n)][1..] == [Param(n)] && [t, s][1..] == [s];
    assert MatchPattern([Param(n)], [s]) == Some(map[n := s]) by {
      assert [Param(n)][1..] == [] && [s][1..] == [];
    }
  }

  /** Two literals followed by a parameter bind the parameter. */
  lemma MatchLitLitParam(t1: string, t2: string, n: string, s: string)
    requires s != ""
    ensures MatchPattern([Lit(t1), Lit(t2), Param(n)], [t1, t2, s]) == Some(map[n := s])
  {
    assert [Lit(t1), Lit(t2), Param(n)][1..] == [Lit(t2), Param(n)] && [t1, t2, s][1..] == [t2, s];
    MatchLitParam(t2, n, s);
  }

  /** POST /api/users/results reaches `saveResult`. */
  lemma SaveResultReached(path: seq<string>)
    requires path == ["api", "users", "results"]
    ensures Dispatch(App, POST, path, true) == Handled(SaveResult, map[])
  {
    var q := path[2..];
    assert path == ["api", "users"] + q;
    MatchOneLit("results", q[0]);
    assert [q[0]] == q;
    FirstRouteAt(ResultRouter.routes, POST, q, 0);
    UsersPath(POST, q, true);
  }

  /** GET /api/users/results/all reaches `getAllResults`. */
  lemma AllResultsReached(path: seq<string>)
    requires path == ["api", "users", "results", "all"]
    ensures Dispatch(App, GET, path, true) == Handled(GetAllResults, map[])
  {
    var rs := ResultRouter.routes;
    var q := path[2..];
    assert path == ["api", "users"] + q;
    MatchTwoLits("results", "all", q[0], q[1]);
    assert [q[0], q[1]] == q;
    assert rs[0].verb != GET;
    FirstRouteAt(rs, GET, q, 1);
    UsersPath(GET, q, true);
  }

  /** GET /api/users/results/user reaches `getUserResults`: the route for
      "all" does not take it and the by-exam route needs three segments. */
  lemma UserResultsReached(path: seq<string>)
    requires path == ["api", "users", "results", "user"]
    ensures Dispatch(App, GET, path, true) == Handled(GetUserResults, map[])
  {
    var rs := ResultRouter.routes;
    var q := path[2..];
    assert path == ["api", "users"] + q;
    assert [q[0], q[1]] == q;
    MatchTwoLits("results", "all", q[0], q[1]);
    MatchTwoLits("results", "user", q[0], q[1]);
    assert rs[0].verb != GET;
    MatchLengths(rs[2].pattern, q);
    FirstRouteAt(rs, GET, q, 3);
    UsersPath(GET, q, true);
  }

  /** GET /api/users/results/exam/:examId reaches `getResultsByExamId`. */
  lemma ExamResultsReached(examId: string)
    requires examId != ""
    ensures Dispatch(App, GET, ["api", "users", "results", "exam", examId], true)
         == Handled(GetResultsByExam, map["examId" := examId])
  {
    var rs := ResultRouter.routes;
    var q := ["results", "exam", examId];
    MatchLitLitParam("results", "exam", "examId", examId);
    assert rs[0].verb != GET;
    MatchLengths(rs[1].pattern, q);
    FirstRouteAt(rs, GET, q, 2);
    UsersPath(GET, q, true);
    assert ["api", "users"] + q == ["api", "users", "results", "exam", examId];
  }

  /** The toggle route's pattern binds the result id. */
  lemma TogglePatternMatches(resultId: string)
    requires resultId != ""
    ensures MatchPattern([Lit("results"), Param("resultId"), Lit("toggle-visibility")],
                         ["results", resultId, "toggle-visibility"]) == Some(map["resultId" := resultId])
  {
    var p := [Lit("results"), Param("resultId"), Lit("toggle-visibility")];
    var q := ["results", resultId, "toggle-visibility"];
    assert p[1..] == [Param("resultId"), Lit("toggle-visibility")] && q[1..] == [resultId, "toggle-visibility"];
    MatchOneLit("toggle-visibility", "toggle-visibility");
    assert p[1..][1..] == [Lit("toggle-visibility")] && q[1..][1..] == ["toggle-visibility"];
  }

  /** PUT /api/users/results/:resultId/toggle-visibility reaches the toggle:
      it is the only PUT route. */
  lemma ToggleReached(resultId: string)
    requires resultId != ""
    ensures Dispatch(App, PUT, ["api", "users", "results", resultId, "toggle-visibility"], true)
         == Handled(ToggleVisibility, map["resultId" := resultId])
  {
    var rs := ResultRouter.routes;
    var q := ["results", resultId, "toggle-visibility"];
    TogglePatternMatches(resultId);
    forall j | 0 <= j < 4
      ensures rs[j].verb != PUT
    {
    }
    FirstRouteAt(rs, PUT, q, 4);
    UsersPath(PUT, q, true);
    assert ["api", "users"] + q == ["api", "users", "results", resultId, "toggle-visibility"];
  }

  /** POST /api/coding/submit reaches the submission handler. */
  lemma SubmitCodingReached(path: seq<string>)
    requires path == ["api", "coding", "submit"]
    ensures Dispatch(App, POST, path, true) == Handled(SubmitCoding, map[])
  {
    var q := path[2..];
    assert path == ["api", "coding"] + q;
    MatchOneLit("submit", q[0]);
    assert [q[0]] == q;
    FirstRouteAt(CodingRouter.routes, POST, q, 0);
    CodingPath(POST, q, true);
  }

  /** POST /api/coding/question reaches the question-creating handler: the
      submit route before it does not take it. */
  lemma CreateCodingReached(path: seq<string>)
    requires path == ["api", "coding", "question"]
    ensures Dispatch(App, POST, path, true) == Handled(CreateCoding, map[])
  {
    var rs := CodingRouter.routes;
    var q := path[2..];
    assert path == ["api", "coding"] + q;
    assert [q[0]] == q;
    MatchOneLit("submit", q[0]);
    MatchOneLit("question", q[0]);
    assert rs[1].verb != POST;
    FirstRouteAt(rs, POST, q, 2);
    CodingPath(POST, q, true);
  }

  /** GET /api/coding/questions lists the questions, with no role check. */
  lemma CodingListReached(path: seq<string>)
    requires path == ["api", "coding", "questions"]
    ensures Dispatch(App, GET, path, true) == Handled(ListCoding, map[])
  {
    var rs := CodingRouter.routes;
    var q := path[2..];
    assert path == ["api", "coding"] + q;
    MatchOneLit("questions", q[0]);
    assert [q[0]] == q;
    assert rs[0].verb != GET && rs[2].verb != GET;
    MatchLengths(rs[1].pattern, q);
    FirstRouteAt(rs, GET, q, 3);
    CodingPath(GET, q, true);
  }

  /** GET /api/coding/questions/:id reaches the single-question lookup. */
  lemma CodingByIdReached(id: string)
    requires id != ""
    ensures Dispatch(App, GET, ["api", "coding", "questions", id], true) == Handled(GetCodingById, map["id" := id])
  {
    var rs := CodingRouter.routes;
    var q := ["questions", id];
    MatchLitParam("questions", "id", id);
    assert rs[0].verb != GET && rs[2].verb != GET;
    MatchLengths(rs[1].pattern, q);
    MatchLengths(rs[3].pattern, q);
    FirstRouteAt(rs, GET, q, 4);
    CodingPath(GET, q, true);
    assert ["api", "coding"] + q == ["api", "coding", "questions", id];
  }

  // Paths as strings.

  /** The segments of a path string between its '/' separators. */
  function Split(s: string): (r: seq<string>)
    ensures |r| >= 1
    decreases |s|
  {
    if s == [] then [""]
    else
      var init := Split(s[..|s| - 1]);
      var c := s[|s| - 1];
      if c == '/' then init + [""] else init[..|init| - 1] + [init[|init| - 1] + [c]]
  }

  /** Segments joined with '/'. */
  function Join(segs: seq<string>): string
    requires |segs| >= 1
    decreases |segs|
  {
    if |segs| == 1 then segs[0] else Join(segs[..|segs| - 1]) + "/" + segs[|segs| - 1]
  }

  lemma JoinSnoc(segs: seq<string>, x: string)
    requires |segs| >= 1
    ensures Join(segs + [x]) == Join(segs) + "/" + x
  {
    assert (segs + [x])[..|segs|] == segs;
  }

  /** The URL of the base path "/api/proctoring-report" and of two more segments. */
  lemma ReportUrlOf(a: string, b: string)
    ensures UrlOf(["api", "proctoring-report"]) == "/api/proctoring-report"
    ensures UrlOf(["api", "proctoring-report", a, b]) == "/api/proctoring-report" + "/" + a + "/" + b
  {
    assert Join(["api"]) == "api";
    JoinSnoc(["api"], "proctoring-report");
    assert ["api"] + ["proctoring-report"] == ["api", "proctoring-report"];
    JoinSnoc(["api", "proctoring-report"], a);
    assert ["api", "proctoring-report"] + [a] == ["api", "proctoring-report", a];
    JoinSnoc(["api", "proctoring-report", a], b);
    assert ["api", "proctoring-report", a] + [b] == ["api", "proctoring-report", a, b];
  }

  /** A path "/a/b" as segments ["a", "b"]. */
  function PathOf(url: string): seq<string> {
    if url != [] && url[0] == '/' then Split(url[1..]) else Split(url)
  }

  function UrlOf(segs: seq<string>): string
    requires |segs| >= 1
  {
    "/" + Join(segs)
  }

  /** Appending text without a separator extends the last segment. */
  lemma {:induction false} SplitExtend(s: string, w: string)
    requires '/' !in w
    ensures Split(s + w) == Split(s)[..|Split(s)| - 1] + [Split(s)[|Split(s)| - 1] + w]
    decreases |w|
  {
    if w == [] {
      assert s + w == s;
      assert Split(s)[|Split(s)| - 1] + w == Split(s)[|Split(s)| - 1];
    } else {
      var w' := w[..|w| - 1];
      var c := w[|w| - 1];
      assert c in w;
      assert s + w == (s + w') + [c];
      assert (s + w)[..|s + w| - 1] == s + w';
      SplitExtend(s, w');
      var a := Split(s);
      assert (a[|a| - 1] + w') + [c] == a[|a| - 1] + w;
    }
  }

  /** Splitting undoes joining when no segment contains a separator. */
  lemma {:induction false} SplitJoin(segs: seq<string>)
    requires |segs| >= 1
    requires forall i :: 0 <= i < |segs| ==> '/' !in segs[i]
    ensures Split(Join(segs)) == segs
    decreases |segs|
  {
    if |segs| == 1 {
      SplitExtend([], segs[0]);
      assert [] + segs[0] == segs[0];
    } else {
      var init := segs[..|segs| - 1];
      var last := segs[|segs| - 1];
      SplitJoin(init);
      var j := Join(init) + "/";
      SplitSlash(Join(init));
      assert Split(j) == init + [""];
      SplitExtend(j, last);
      assert (init + [""])[..|init|] == init;
      assert "" + last == last;
      assert Split(j + last) == init + [last];
      assert Join(segs) == j + last;
      assert init + [last] == segs;
    }
  }

  lemma SplitSlash(x: string)
    ensures Split(x + "/") == Split(x) + [""]
  {
    var j := x + "/";
    assert j[..|j| - 1] == x;
  }

  lemma PathOfUrl(segs: seq<string>)
    requires |segs| >= 1
    requires forall i :: 0 <= i < |segs| ==> '/' !in segs[i]
    ensures PathOf(UrlOf(segs)) == segs
  {
    SplitJoin(segs);
    assert UrlOf(segs)[1..] == Join(segs);
  }
}
