/**
  How a request reaches a handler: the routes in the order they are
  declared, tried first to last. A route matches when its method is the
  request's and its path pattern matches the request path segment by
  segment; a `{name}` segment matches any non-empty segment and captures it.
  When no route matches fully but one matches the path, the reply is 405;
  when none matches the path, 404.
*/
module Routing {
  import opened Wrappers
  import opened Text
  import opened Chatbot
  import opened Api

  datatype Method = Get | Post

  /** One segment of a path pattern: literal text, or a `{name}` parameter. */
  datatype Segment = Lit(text: string) | Param(name: string)

  /** The handlers of the service. */
  datatype Endpoint = Root | Health | Stats | AllQuestions | QuestionById | RandomQuestion | QuestionDetail | Submit

  /** A route: method, path pattern (its segments after the leading "/"), handler. */
  datatype Route = Route(httpMethod: Method, pattern: seq<Segment>, endpoint: Endpoint)

  /**
    Where a request goes: a handler with the segment its `{question_id}`
    parameter captured (no route has another parameter), 405 or 404.
  */
  datatype Dispatched = Found(endpoint: Endpoint, questionId: Option<string>) | MethodNotAllowed | NoRoute

  predicate SegmentMatches(p: Segment, s: string) {
    match p
    case Lit(text) => s == text
    case Param(_) => s != []
  }

  predicate PathMatches(pattern: seq<Segment>, path: seq<string>) {
    |pattern| == |path| && forall i :: 0 <= i < |path| ==> SegmentMatches(pattern[i], path[i])
  }

  /** A full match: method and path. */
  predicate FullMatch(route: Route, m: Method, path: seq<string>) {
    route.httpMethod == m && PathMatches(route.pattern, path)
  }

  /** The path segment the parameter `name` of a matching pattern captures, if the pattern has it. */
  function ParamValue(pattern: seq<Segment>, path: seq<string>, name: string): Option<string>
    requires |pattern| == |path|
  {
    if pattern == [] then None
    else if pattern[0] == Param(name) then Some(path[0])
    else ParamValue(pattern[1..], path[1..], name)
  }

  /** The parameter captures the segment at its first position in the pattern. */
  lemma {:induction false} ParamValueAt(pattern: seq<Segment>, path: seq<string>, name: string, i: nat)
    requires |pattern| == |path| && i <= |pattern|
    requires forall j :: 0 <= j < i ==> pattern[j] != Param(name)
    requires i < |pattern| ==> pattern[i] == Param(name)
    ensures ParamValue(pattern, path, name) == if i < |pattern| then Some(path[i]) else None
    decreases i
  {
    if i > 0 {
      ParamValueAt(pattern[1..], path[1..], name, i - 1);
    }
  }

  /** The position of the first route that fully matches, if any. */
  function FirstMatch(routes: seq<Route>, m: Method, path: seq<string>): (r: Option<nat>)
    ensures r.Some? ==> r.value < |routes| && FullMatch(routes[r.value], m, path)
    ensures r.Some? ==> forall j :: 0 <= j < r.value ==> !FullMatch(routes[j], m, path)
    ensures r.None? <==> forall j :: 0 <= j < |routes| ==> !FullMatch(routes[j], m, path)
  {
    if routes == [] then None
    else if FullMatch(routes[0], m, path) then Some(0)
    else
      match FirstMatch(routes[1..], m, path)
      case None => assert forall j :: 1 <= j < |routes| ==> routes[j] == routes[1..][j - 1]; None
      case Some(k) => assert forall j :: 1 <= j <= k ==> routes[j] == routes[1..][j - 1]; Some(k + 1)
  }

  /** Routing a request: the first full match wins. */
  function Dispatch(routes: seq<Route>, m: Method, path: seq<string>): (d: Dispatched)
    ensures d.Found? <==> exists i :: 0 <= i < |routes| && FullMatch(routes[i], m, path)
    ensures d.Found? ==> exists i :: 0 <= i < |routes| && FullMatch(routes[i], m, path) && routes[i].endpoint == d.endpoint
    ensures d.NoRoute? <==> forall j :: 0 <= j < |routes| ==> !PathMatches(routes[j].pattern, path)
  {
    match FirstMatch(routes, m, path)
    case Some(i) => Found(routes[i].endpoint, ParamValue(routes[i].pattern, path, "question_id"))
    case None =>
      if exists j :: 0 <= j < |routes| && PathMatches(routes[j].pattern, path) then MethodNotAllowed else NoRoute
  }

  const QuestionIdPattern: seq<Segment> := [Lit("api"), Lit("questions"), Param("question_id")]
  const RandomPattern: seq<Segment> := [Lit("api"), Lit("questions"), Lit("random")]

  /** The routes in the order the service declares them. */
  const DeclaredRoutes: seq<Route> := [
    Route(Get, [], Root),
    Route(Get, [Lit("api"), Lit("health")], Health),
    Route(Get, [Lit("api"), Lit("stats")], Stats),
    Route(Get, [Lit("api"), Lit("questions")], AllQuestions),
    Route(Get, QuestionIdPattern, QuestionById),
    Route(Get, RandomPattern, RandomQuestion),
    Route(Get, [Lit("api"), Lit("questions"), Param("question_id"), Lit("detail")], QuestionDetail),
    Route(Post, [Lit("api"), Lit("quiz"), Lit("submit")], Submit)
  ]

  /**
    The declared table has one route per handler, in the order of the
    decorators, and the lookup by id comes right before the random question.
  */
  lemma DeclaredRoutesOrder()
    ensures |DeclaredRoutes| == 8
    ensures forall i, j :: 0 <= i < j < |DeclaredRoutes| ==> DeclaredRoutes[i].endpoint != DeclaredRoutes[j].endpoint
    ensures DeclaredRoutes[4] == Route(Get, QuestionIdPattern, QuestionById)
    ensures DeclaredRoutes[5] == Route(Get, RandomPattern, RandomQuestion)
    ensures forall i :: 0 <= i < 7 ==> DeclaredRoutes[i].httpMethod == Get
    ensures DeclaredRoutes[7].httpMethod == Post
  {
  }

  /** The same routes with the random question declared before the lookup by id. */
  const IntendedRoutes: seq<Route> := DeclaredRoutes[..4] + [DeclaredRoutes[5], DeclaredRoutes[4]] + DeclaredRoutes[6..]

  /** The request body of a submission; only `POST /api/quiz/submit` reads it. */
  datatype Body = Body(questionId: int, answer: string)

  /** The status of a path-parameter lookup: 422 when the id is not an integer, else the handler's. */
  function LookupStatus<T>(param: string, handler: int -> Result<T, ApiError>): int {
    match ParseInt(param)
    case None => 422
    case Some(id) => if handler(id).Ok? then 200 else StatusCode(handler(id).error)
  }

  /**
    The status a request gets: routing, then the parsing of the id
    parameter as an integer, then the handler. Only the random question
    involves a choice, and whether it fails does not depend on it.
  */
  function Status(bank: seq<Question>, routes: seq<Route>, m: Method, path: seq<string>, body: Body): (code: int)
    ensures code == 200 || code == 404 || code == 405 || code == 422 || code == 500
    ensures code == 405 ==> exists j :: 0 <= j < |routes| && PathMatches(routes[j].pattern, path)
  {
    match Dispatch(routes, m, path)
    case NoRoute => 404
    case MethodNotAllowed => 405
    case Found(endpoint, questionId) =>
      match endpoint
      case QuestionById =>
        if questionId.Some? then LookupStatus(questionId.value, id => GetQuestion(bank, id)) else 500
      case QuestionDetail =>
        if questionId.Some? then LookupStatus(questionId.value, id => GetQuestionDetail(bank, id)) else 500
      // mirrors `GetRandomQuestion`'s contract: it fails, with a 500, exactly on an empty bank
      case RandomQuestion => if bank == [] then 500 else 200
      case Submit =>
        var r := HandleSubmit(bank, body.questionId, body.answer);
        if r.Ok? then 200 else StatusCode(r.error)
      case _ => 200
  }

  const RandomPath: seq<string> := ["api", "questions", "random"]

  /** No request, with any method and path, ever reaches the random-question handler as the routes are declared. */
  lemma RandomUnreachableAsDeclared(m: Method, path: seq<string>)
    ensures !(Dispatch(DeclaredRoutes, m, path).Found? && Dispatch(DeclaredRoutes, m, path).endpoint == RandomQuestion)
  {
    var r := FirstMatch(DeclaredRoutes, m, path);
    if r.Some? && DeclaredRoutes[r.value].endpoint == RandomQuestion {
      assert r.value == 5;
      assert FullMatch(DeclaredRoutes[4], m, path);
      assert false;
    }
  }

  /** `GET /api/questions/random` as the routes are declared: the lookup by id, which cannot parse "random", so 422. */
  lemma RandomPathAsDeclared(bank: seq<Question>, body: Body)
    ensures Dispatch(DeclaredRoutes, Get, RandomPath) == Found(QuestionById, Some("random"))
    ensures Status(bank, DeclaredRoutes, Get, RandomPath, body) == 422
  {
    assert !FullMatch(DeclaredRoutes[0], Get, RandomPath);
    assert !FullMatch(DeclaredRoutes[1], Get, RandomPath);
    assert !FullMatch(DeclaredRoutes[2], Get, RandomPath);
    assert !FullMatch(DeclaredRoutes[3], Get, RandomPath);
    assert FullMatch(DeclaredRoutes[4], Get, RandomPath);
    ParamValueAt(QuestionIdPattern, RandomPath, "question_id", 2);
    assert !IsDigit("random"[0]);
  }

  /** With the random route first, `GET /api/questions/random` reaches its handler and succeeds on a non-empty bank. */
  lemma RandomPathAsIntended(bank: seq<Question>, body: Body)
    ensures Dispatch(IntendedRoutes, Get, RandomPath) == Found(RandomQuestion, None)
    ensures Status(bank, IntendedRoutes, Get, RandomPath, body) == if bank == [] then 500 else 200
  {
    assert !FullMatch(IntendedRoutes[0], Get, RandomPath);
    assert !FullMatch(IntendedRoutes[1], Get, RandomPath);
    assert !FullMatch(IntendedRoutes[2], Get, RandomPath);
    assert !FullMatch(IntendedRoutes[3], Get, RandomPath);
    assert FullMatch(IntendedRoutes[4], Get, RandomPath);
    ParamValueAt(RandomPattern, RandomPath, "question_id", 3);
  }

  /** Swapping neighbours `n` and `n + 1` moves a first full match that is not on both of them only between them. */
  lemma SwapFirstMatch(a: seq<Route>, b: seq<Route>, n: nat, m: Method, path: seq<string>)
    requires |a| == |b| && n + 1 < |a|
    requires forall j :: 0 <= j < |a| && j != n && j != n + 1 ==> a[j] == b[j]
    requires a[n] == b[n + 1] && a[n + 1] == b[n]
    requires !(FullMatch(a[n], m, path) && FullMatch(a[n + 1], m, path))
    ensures FirstMatch(a, m, path).Some? <==> FirstMatch(b, m, path).Some?
    ensures FirstMatch(a, m, path).Some? ==> a[FirstMatch(a, m, path).value] == b[FirstMatch(b, m, path).value]
  {
    var fa, fb := FirstMatch(a, m, path), FirstMatch(b, m, path);
    if fa.Some? {
      var i := fa.value;
      var k := if i == n then n + 1 else if i == n + 1 then n else i;
      assert b[k] == a[i];
      forall j | 0 <= j < k ensures !FullMatch(b[j], m, path) {
        var j' := if j == n then n + 1 else if j == n + 1 then n else j;
        assert b[j] == a[j'];
      }
      assert fb == Some(k);
    } else {
      forall j | 0 <= j < |b| ensures !FullMatch(b[j], m, path) {
        var j' := if j == n then n + 1 else if j == n + 1 then n else j;
        assert b[j] == a[j'];
      }
    }
  }

  /** Two route tables holding the same routes agree on whether some route matches the path. */
  lemma SamePathMatch(a: seq<Route>, b: seq<Route>, path: seq<string>)
    requires forall j :: 0 <= j < |a| ==> a[j] in b
    requires forall j :: 0 <= j < |b| ==> b[j] in a
    ensures (exists j :: 0 <= j < |a| && PathMatches(a[j].pattern, path))
        <==> (exists j :: 0 <= j < |b| && PathMatches(b[j].pattern, path))
  {
    if exists j :: 0 <= j < |a| && PathMatches(a[j].pattern, path) {
      var j :| 0 <= j < |a| && PathMatches(a[j].pattern, path);
      var k :| 0 <= k < |b| && b[k] == a[j];
    }
    if exists j :: 0 <= j < |b| && PathMatches(b[j].pattern, path) {
      var j :| 0 <= j < |b| && PathMatches(b[j].pattern, path);
      var k :| 0 <= k < |a| && a[k] == b[j];
    }
  }

  /**
    Declaring two neighbouring routes the other way round changes where a
    request goes only when the request fully matches both.
  */
  lemma SwapNeighbours(a: seq<Route>, b: seq<Route>, n: nat, m: Method, path: seq<string>)
    requires |a| == |b| && n + 1 < |a|
    requires forall j :: 0 <= j < |a| && j != n && j != n + 1 ==> a[j] == b[j]
    requires a[n] == b[n + 1] && a[n + 1] == b[n]
    requires !(FullMatch(a[n], m, path) && FullMatch(a[n + 1], m, path))
    ensures Dispatch(a, m, path) == Dispatch(b, m, path)
  {
    SwapFirstMatch(a, b, n, m, path);
    forall j | 0 <= j < |a| ensures a[j] in b {
      var k := if j == n then n + 1 else if j == n + 1 then n else j;
      assert b[k] == a[j];
    }
    forall j | 0 <= j < |b| ensures b[j] in a {
      var k := if j == n then n + 1 else if j == n + 1 then n else j;
      assert a[k] == b[j];
    }
    SamePathMatch(a, b, path);
  }

  /** Only `GET /api/questions/random` fully matches the random route. */
  lemma RandomRouteMatches(m: Method, path: seq<string>)
    ensures FullMatch(DeclaredRoutes[5], m, path) ==> m == Get && path == RandomPath
  {
    if FullMatch(DeclaredRoutes[5], m, path) {
      assert path[0] == "api" && path[1] == "questions" && path[2] == "random";
    }
  }

  /**
    Every request other than `GET /api/questions/random` goes to the same
    handler, with the same parameter, under both orders: the reordering
    only makes the random question reachable.
  */
  lemma IntendedChangesOnlyRandom(m: Method, path: seq<string>)
    requires !(m == Get && path == RandomPath)
    ensures Dispatch(IntendedRoutes, m, path) == Dispatch(DeclaredRoutes, m, path)
  {
    RandomRouteMatches(m, path);
    SwapNeighbours(DeclaredRoutes, IntendedRoutes, 4, m, path);
  }

  /** Under the intended order, looking a question up by a decimal id gives 200 inside the bank and 404 past it. */
  lemma LookupByIdAsIntended(bank: seq<Question>, n: nat, body: Body)
    ensures Status(bank, IntendedRoutes, Get, ["api", "questions", NatToString(n)], body) == if n < |bank| then 200 else 404
  {
    var path := ["api", "questions", NatToString(n)];
    assert NatToString(n) != "random" by {
      assert IsDigit(NatToString(n)[0]);
    }
    IntendedChangesOnlyRandom(Get, path);
    LookupByIdAsDeclared(n);
    IntRoundTrip(n);
  }

  /** A decimal id path reaches the lookup by id, which gets the id's digits. */
  lemma LookupByIdAsDeclared(n: nat)
    ensures Dispatch(DeclaredRoutes, Get, ["api", "questions", NatToString(n)]) == Found(QuestionById, Some(NatToString(n)))
  {
    var path := ["api", "questions", NatToString(n)];
    assert !FullMatch(DeclaredRoutes[0], Get, path);
    assert !FullMatch(DeclaredRoutes[1], Get, path);
    assert !FullMatch(DeclaredRoutes[2], Get, path);
    assert !FullMatch(DeclaredRoutes[3], Get, path);
    assert FullMatch(DeclaredRoutes[4], Get, path);
    ParamValueAt(QuestionIdPattern, path, "question_id", 2);
  }
}
