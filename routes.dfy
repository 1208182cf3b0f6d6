/**
 * The route composition of filters.rs (`api`, `hello`, `hello_string`,
 * `hello_json`, `receive_json`, `with_auth_json`), written as an ordered
 * table of routes. A route is a path pattern, the checks run after the path
 * has matched (in order), and the handler reached when all of them pass.
 * Routes are tried in table order and the first one that replies wins.
 */
module Routes {
  import opened Wrappers
  import opened Http
  import opened Auth
  import opened Handlers
  import Json

  /**
   * A request as the routes see it: the method, the path already split into
   * segments, the headers, and the outcome of deserialising the body as a
   * `{"data": ...}` object (None when that fails).
   */
  datatype Request = Request(verb: Method, path: seq<string>, headers: Headers, body: Option<GreetingBody>)

  /**
   * One segment of a `warp::path!` pattern: a fixed word, or a `String`
   * parameter, which takes any segment but the empty one.
   */
  datatype Segment = Literal(text: string) | Param

  /** A check that follows the path match. */
  datatype Guard =
    | MethodIs(verb: Method)  // warp::get(), warp::post()
    | Authenticate            // with_authenticate()
    | JsonBody                // warp::body::json()

  datatype Handler = HandleHello | HandleHelloJson | HandleReceiveJson | HandleWithAuth

  datatype Route = Route(path: seq<Segment>, guards: seq<Guard>, handler: Handler)

  /** `api()`: `hello()` (text before JSON), then `receive_json()`, then `with_auth_json()`. */
  const API: seq<Route> := [
    Route([Literal("hello"), Param], [MethodIs(Get)], HandleHello),
    Route([Literal("hello"), Literal("json"), Param], [MethodIs(Get)], HandleHelloJson),
    Route([Literal("receive"), Literal("json")], [MethodIs(Post), JsonBody], HandleReceiveJson),
    Route([Literal("with_auth"), Literal("json")], [Authenticate, MethodIs(Post), JsonBody], HandleWithAuth)
  ]

  /** Number of parameters a pattern captures. */
  function Arity(pattern: seq<Segment>): nat {
    if pattern == [] then 0 else (if pattern[0].Param? then 1 else 0) + Arity(pattern[1..])
  }

  /** The parameters before position `i` are the first one's, if any, and those of the rest before `i`. */
  lemma ArityPrefix(pattern: seq<Segment>)
    requires |pattern| > 0
    ensures Arity(pattern[..0]) == 0
    ensures forall i :: 0 < i <= |pattern| ==>
      Arity(pattern[..i]) == (if pattern[0].Param? then 1 else 0) + Arity(pattern[1..][..i - 1])
  {
    forall i | 0 < i <= |pattern|
      ensures Arity(pattern[..i]) == (if pattern[0].Param? then 1 else 0) + Arity(pattern[1..][..i - 1])
    {
      assert pattern[..i][1..] == pattern[1..][..i - 1];
    }
  }

  /**
   * `warp::path!`: the path has exactly as many segments as the pattern, every
   * fixed word is matched exactly, and each parameter takes one whole,
   * non-empty segment.
   */
  function MatchPath(pattern: seq<Segment>, path: seq<string>): (r: Option<seq<string>>)
    ensures r.Some? <==>
      |path| == |pattern| &&
      forall i :: 0 <= i < |pattern| ==>
        (pattern[i].Literal? ==> path[i] == pattern[i].text) && (pattern[i].Param? ==> path[i] != "")
    ensures r.Some? ==> |r.value| == Arity(pattern)
    ensures r.Some? ==> forall i :: 0 <= i < |pattern| && pattern[i].Param? ==>
      Arity(pattern[..i]) < |r.value| && r.value[Arity(pattern[..i])] == path[i]
  {
    if pattern == [] then
      if path == [] then Some([]) else None
    else if path == [] then None
    else
      ArityPrefix(pattern);
      match pattern[0]
      case Literal(t) =>
        if path[0] == t then MatchPath(pattern[1..], path[1..]) else None
      case Param =>
        if path[0] == "" then None else
        match MatchPath(pattern[1..], path[1..])
        case Some(rest) => Some([path[0]] + rest)
        case None => None
  }

  /** What the checks extracted so far: path parameters, the user, the body. */
  datatype Extracted = Extracted(params: seq<string>, user: Option<User>, body: Option<GreetingBody>)

  /** Whether a check lets the request through. */
  predicate Passes(g: Guard, req: Request): (b: bool)
    ensures g.Authenticate? ==> (b <==> TokenFromHeader(req.headers) == Success(ACCEPTED_TOKEN))
  {
    match g
    case MethodIs(m) => req.verb == m
    case Authenticate => Authorize(req.headers).Success?
    case JsonBody => req.body.Some?
  }

  /** Every one of the first `n` checks passes. */
  predicate PassesBefore(guards: seq<Guard>, n: nat, req: Request)
    requires n <= |guards|
  {
    forall j :: 0 <= j < n ==> Passes(guards[j], req)
  }

  /** The rejection a failing check produces. */
  function Refusal(g: Guard, req: Request): (r: Rejection<Error>)
    requires !Passes(g, req)
    ensures r != NotFound
    ensures r.Custom? <==> g.Authenticate?
    ensures g.Authenticate? && TokenFromHeader(req.headers).Failure? ==> r == Custom(TokenFromHeader(req.headers).error)
    ensures g.Authenticate? && TokenFromHeader(req.headers).Success? ==> r == Custom(InvalidAuthHeaderError)
  {
    match g
    case MethodIs(_) => MethodNotAllowed
    case Authenticate => Authorize(req.headers).error
    case JsonBody => BodyDeserializeError
  }

  /**
   * Runs the checks in order. The first one that fails decides the
   * rejection and no later check is looked at; when all pass, each has added
   * what it extracts.
   */
  function RunGuards(guards: seq<Guard>, req: Request, ex: Extracted): (r: Result<Extracted, Rejection<Error>>)
    ensures r.Success? <==> forall i :: 0 <= i < |guards| ==> Passes(guards[i], req)
    ensures r.Failure? ==> exists i :: (0 <= i < |guards| && !Passes(guards[i], req) &&
      PassesBefore(guards, i, req) && r.error == Refusal(guards[i], req))
    ensures r.Success? ==> r.value.params == ex.params
    ensures r.Success? && Authenticate in guards ==>
      r.value.user.Some? && Authorize(req.headers) == Success(r.value.user.value)
    ensures r.Success? && Authenticate !in guards ==> r.value.user == ex.user
    ensures r.Success? && JsonBody in guards ==> r.value.body == req.body
    ensures r.Success? && JsonBody !in guards ==> r.value.body == ex.body
    decreases |guards|
  {
    if guards == [] then Success(ex)
    else
      var g := guards[0];
      if !Passes(g, req) then Failure(Refusal(g, req))
      else
        var ex' := match g
          case MethodIs(_) => ex
          case Authenticate => ex.(user := Some(Authorize(req.headers).value))
          case JsonBody => ex.(body := req.body);
        var r := RunGuards(guards[1..], req, ex');
        GuardsTail(guards, req);
        if r.Failure? then
          var i :| 0 <= i < |guards| - 1 && !Passes(guards[1..][i], req) &&
            PassesBefore(guards[1..], i, req) && r.error == Refusal(guards[1..][i], req);
          assert guards[i + 1] == guards[1..][i];
          r
        else
          r
  }

  /** How the checks after a passing first one relate to the whole list. */
  lemma GuardsTail(guards: seq<Guard>, req: Request)
    requires |guards| > 0 && Passes(guards[0], req)
    ensures (forall i :: 0 <= i < |guards| ==> Passes(guards[i], req)) <==>
      (forall i :: 0 <= i < |guards| - 1 ==> Passes(guards[1..][i], req))
    ensures forall i :: 0 <= i < |guards| - 1 ==> PassesBefore(guards[1..], i, req) ==> PassesBefore(guards, i + 1, req)
    ensures forall x :: x in guards <==> x == guards[0] || x in guards[1..]
  {
    assert guards == [guards[0]] + guards[1..];
    forall i | 0 < i < |guards| ensures guards[i] == guards[1..][i - 1] { }
  }

  /** The route can reach its handler with everything that handler takes. */
  predicate WellFormed(route: Route) {
    match route.handler
    case HandleHello => Arity(route.path) == 1
    case HandleHelloJson => Arity(route.path) == 1
    case HandleReceiveJson => JsonBody in route.guards
    case HandleWithAuth => Authenticate in route.guards && JsonBody in route.guards
  }

  predicate Supplies(h: Handler, ex: Extracted) {
    match h
    case HandleHello => |ex.params| == 1
    case HandleHelloJson => |ex.params| == 1
    case HandleReceiveJson => ex.body.Some?
    case HandleWithAuth => ex.user.Some? && ex.body.Some?
  }

  /** `and_then(handler)`: calls the handler and serialises its reply; handlers never fail. */
  function Invoke(h: Handler, ex: Extracted): (r: Reply)
    requires Supplies(h, ex)
    ensures r.Text? <==> h == HandleHello
    ensures h == HandleHello ==> ParseGreeting(r.body) == Some(ex.params[0])
    ensures h == HandleHelloJson ==> Json.Member(r.value, "data") == Some(Json.String(Hello(ex.params[0])))
    ensures h == HandleReceiveJson ==> r == JsonReply(ex.body.value.ToJson())
    ensures h == HandleWithAuth ==> Json.Member(r.value, "user") == Some(ex.user.value.ToJson())
    ensures h == HandleWithAuth ==> Json.Member(r.value, "body") == Some(ex.body.value.ToJson())
  {
    match h
    case HandleHello => HelloRoundTrip(ex.params[0]); Text(Hello(ex.params[0]))
    case HandleHelloJson => JsonReply(HelloJson(ex.params[0]).ToJson())
    case HandleReceiveJson => JsonReply(ReceiveJson(ex.body.value).ToJson())
    case HandleWithAuth => JsonReply(WithAuth(ex.user.value, ex.body.value).ToJson())
  }

  /** One route: the path first, then the checks in order, then the handler. */
  function RunRoute(route: Route, req: Request): (r: Result<Reply, Rejection<Error>>)
    requires WellFormed(route)
    ensures r == Failure(NotFound) <==> MatchPath(route.path, req.path).None?
    ensures r.Success? <==>
      MatchPath(route.path, req.path).Some? &&
      forall i :: 0 <= i < |route.guards| ==> Passes(route.guards[i], req)
  {
    match MatchPath(route.path, req.path)
    case None => Failure(NotFound)
    case Some(params) =>
      match RunGuards(route.guards, req, Extracted(params, None, None))
      case Failure(rejection) => Failure(rejection)
      case Success(ex) => Success(Invoke(route.handler, ex))
  }

  /**
   * What a route answers: past the path, the first failing check's
   * rejection; when every check passes, the handler's reply on the captured
   * parameters, the fixed user (when the route authenticates) and the body
   * (when the route reads one).
   */
  lemma RunRouteResult(route: Route, req: Request)
    requires WellFormed(route)
    ensures var r := RunRoute(route, req);
      r.Failure? && r.error != NotFound ==> exists i :: (0 <= i < |route.guards| &&
        PassesBefore(route.guards, i, req) && !Passes(route.guards[i], req) &&
        r.error == Refusal(route.guards[i], req))
    ensures var r := RunRoute(route, req);
      r.Success? ==> (
        var ex := Extracted(MatchPath(route.path, req.path).value,
          if Authenticate in route.guards then Some(AUTHORIZED_USER) else None,
          if JsonBody in route.guards then req.body else None);
        Supplies(route.handler, ex) && r.value == Invoke(route.handler, ex))
  {
  }

  datatype Outcome =
    | Replied(handler: Handler, reply: Reply)
    | Rejected(reasons: seq<Rejection<Error>>)  // one per route, in table order

  predicate AllWellFormed(routes: seq<Route>) {
    forall i :: 0 <= i < |routes| ==> WellFormed(routes[i])
  }

  /** None of the first `n` routes replies. */
  predicate FailsBefore(routes: seq<Route>, n: nat, req: Request)
    requires AllWellFormed(routes) && n <= |routes|
  {
    forall j :: 0 <= j < n ==> RunRoute(routes[j], req).Failure?
  }

  /** `.or`: tries the routes in order; the first that replies wins. */
  function Dispatch(routes: seq<Route>, req: Request): (o: Outcome)
    requires AllWellFormed(routes)
    ensures o.Rejected? <==> FailsBefore(routes, |routes|, req)
    ensures o.Rejected? ==> (|o.reasons| == |routes| &&
      forall i :: 0 <= i < |routes| ==> Failure(o.reasons[i]) == RunRoute(routes[i], req))
    ensures o.Replied? ==> exists i :: (0 <= i < |routes| && FailsBefore(routes, i, req) &&
      RunRoute(routes[i], req) == Success(o.reply) && o.handler == routes[i].handler)
    decreases |routes|
  {
    if routes == [] then Rejected([])
    else
      match RunRoute(routes[0], req)
      case Success(reply) => Replied(routes[0].handler, reply)
      case Failure(rejection) =>
        DispatchTail(routes, req);
        match Dispatch(routes[1..], req)
        case Replied(h, reply) => Replied(h, reply)
        case Rejected(reasons) => Rejected([rejection] + reasons)
  }

  /** Once the first route has failed, the rest of the table is the table shifted by one. */
  lemma DispatchTail(routes: seq<Route>, req: Request)
    requires AllWellFormed(routes) && |routes| > 0 && RunRoute(routes[0], req).Failure?
    ensures AllWellFormed(routes[1..])
    ensures forall i :: 0 <= i < |routes| - 1 ==> routes[1..][i] == routes[i + 1]
    ensures forall n :: 0 <= n <= |routes| - 1 ==>
      (FailsBefore(routes[1..], n, req) <==> FailsBefore(routes, n + 1, req))
  {
    forall n | 0 <= n <= |routes| - 1
      ensures FailsBefore(routes[1..], n, req) <==> FailsBefore(routes, n + 1, req)
    {
      if FailsBefore(routes[1..], n, req) {
        forall j | 0 <= j < n + 1 ensures RunRoute(routes[j], req).Failure? {
          if j > 0 { assert routes[j] == routes[1..][j - 1]; }
        }
      }
    }
  }

  /** `api()` applied to a request. */
  function Api(req: Request): (o: Outcome)
    ensures AllWellFormed(API)
    ensures o.Rejected? ==> (|o.reasons| == |API| &&
      forall i :: 0 <= i < |API| ==> Failure(o.reasons[i]) == RunRoute(API[i], req))
    ensures o.Replied? ==> exists i :: (0 <= i < |API| && FailsBefore(API, i, req) &&
      RunRoute(API[i], req) == Success(o.reply) && o.handler == API[i].handler)
  {
    ApiWellFormed();
    Dispatch(API, req)
  }

  lemma ApiWellFormed()
    ensures AllWellFormed(API)
  {
    assert Arity(API[0].path) == 1;
    assert Arity(API[1].path) == 1;
  }

  /** `hello_string`: exactly two segments, the first "hello"; then GET; then `hello`. */
  function HelloOutcome(req: Request): Result<Reply, Rejection<Error>> {
    if |req.path| == 2 && req.path[0] == "hello" && req.path[1] != "" then
      if req.verb == Get then Success(Text(Hello(req.path[1]))) else Failure(MethodNotAllowed)
    else Failure(NotFound)
  }

  /** `hello_json`: "hello", "json" and one more segment; then GET; then `hello_json`. */
  function HelloJsonOutcome(req: Request): Result<Reply, Rejection<Error>> {
    if |req.path| == 3 && req.path[0] == "hello" && req.path[1] == "json" && req.path[2] != "" then
      if req.verb == Get then Success(JsonReply(HelloJson(req.path[2]).ToJson())) else Failure(MethodNotAllowed)
    else Failure(NotFound)
  }

  /** `receive_json`: the path "receive/json"; then POST; then the body; then the echo. */
  function ReceiveJsonOutcome(req: Request): Result<Reply, Rejection<Error>> {
    if req.path == ["receive", "json"] then
      if req.verb != Post then Failure(MethodNotAllowed)
      else if req.body.None? then Failure(BodyDeserializeError)
      else Success(JsonReply(req.body.value.ToJson()))
    else Failure(NotFound)
  }

  /**
   * `with_auth_json`: the path "with_auth/json"; then the bearer-token guard,
   * before the method and before the body; then `with_auth`.
   */
  function WithAuthOutcome(req: Request): Result<Reply, Rejection<Error>> {
    if req.path == ["with_auth", "json"] then
      if Authorize(req.headers).Failure? then Failure(Authorize(req.headers).error)
      else if req.verb != Post then Failure(MethodNotAllowed)
      else if req.body.None? then Failure(BodyDeserializeError)
      else Success(JsonReply(WithAuth(User(0, "hoge"), req.body.value).ToJson()))
    else Failure(NotFound)
  }

  lemma HelloRoute(req: Request)
    ensures WellFormed(API[0]) && RunRoute(API[0], req) == HelloOutcome(req)
  {
    ApiWellFormed();
  }

  lemma HelloJsonRoute(req: Request)
    ensures WellFormed(API[1]) && RunRoute(API[1], req) == HelloJsonOutcome(req)
  {
    ApiWellFormed();
    var p := API[1].path;
    if |req.path| == 3 && req.path[0] == "hello" && req.path[1] == "json" && req.path[2] != "" {
      assert p[2..] == [Param];
      assert req.path[2..] == [req.path[2]];
      assert MatchPath([], []) == Some([]);
      assert [req.path[2]] + [] == [req.path[2]];
      assert MatchPath([Param], [req.path[2]]) == Some([req.path[2]]);
      assert MatchPath(p[1..], req.path[1..]) == Some([req.path[2]]);
      assert MatchPath(p, req.path) == Some([req.path[2]]);
    }
  }

  lemma ReceiveJsonRoute(req: Request)
    ensures WellFormed(API[2]) && RunRoute(API[2], req) == ReceiveJsonOutcome(req)
  {
    ApiWellFormed();
  }

  /** The checks of `with_auth_json`: the token, then POST, then the body. */
  lemma WithAuthGuards(req: Request)
    ensures RunGuards([Authenticate, MethodIs(Post), JsonBody], req, Extracted([], None, None)) ==
      if Authorize(req.headers).Failure? then Failure(Authorize(req.headers).error)
      else if req.verb != Post then Failure(MethodNotAllowed)
      else if req.body.None? then Failure(BodyDeserializeError)
      else Success(Extracted([], Some(AUTHORIZED_USER), req.body))
  {
    var guards, ex := [Authenticate, MethodIs(Post), JsonBody], Extracted([], None, None);
    if Authorize(req.headers).Success? {
      var ex' := ex.(user := Some(AUTHORIZED_USER));
      assert guards[1..] == [MethodIs(Post), JsonBody] && guards[1..][1..] == [JsonBody];
      assert RunGuards(guards, req, ex) == RunGuards([MethodIs(Post), JsonBody], req, ex');
      if req.verb == Post {
        assert RunGuards([MethodIs(Post), JsonBody], req, ex') == RunGuards([JsonBody], req, ex');
        if req.body.Some? {
          assert RunGuards([JsonBody], req, ex') == RunGuards([], req, ex'.(body := req.body));
        }
      }
    }
  }

  lemma WithAuthRoute(req: Request)
    ensures WellFormed(API[3]) && RunRoute(API[3], req) == WithAuthOutcome(req)
  {
    ApiWellFormed();
    var route := API[3];
    if req.path == ["with_auth", "json"] {
      assert MatchPath(route.path, req.path) == Some([]);
      WithAuthGuards(req);
    } else {
      assert MatchPath(route.path, req.path).None?;
    }
  }

  /**
   * Which requests get a reply and what it is, stated directly on the
   * request rather than through the table.
   */
  function ExpectedReply(req: Request): Option<(Handler, Reply)> {
    if req.verb == Get && |req.path| == 2 && req.path[0] == "hello" && req.path[1] != "" then
      Some((HandleHello, Text(Hello(req.path[1]))))
    else if req.verb == Get && |req.path| == 3 && req.path[0] == "hello" && req.path[1] == "json" && req.path[2] != "" then
      Some((HandleHelloJson, JsonReply(HelloJson(req.path[2]).ToJson())))
    else if req.verb == Post && req.path == ["receive", "json"] && req.body.Some? then
      Some((HandleReceiveJson, JsonReply(req.body.value.ToJson())))
    else if req.verb == Post && req.path == ["with_auth", "json"] && Authorize(req.headers).Success? && req.body.Some? then
      Some((HandleWithAuth, JsonReply(WithAuth(User(0, "hoge"), req.body.value).ToJson())))
    else
      None
  }

  /** A table of four routes, unrolled: the first that replies wins, else all four rejections. */
  lemma DispatchFour(routes: seq<Route>, req: Request)
    requires |routes| == 4 && AllWellFormed(routes)
    ensures Dispatch(routes, req) ==
      if RunRoute(routes[0], req).Success? then Replied(routes[0].handler, RunRoute(routes[0], req).value)
      else if RunRoute(routes[1], req).Success? then Replied(routes[1].handler, RunRoute(routes[1], req).value)
      else if RunRoute(routes[2], req).Success? then Replied(routes[2].handler, RunRoute(routes[2], req).value)
      else if RunRoute(routes[3], req).Success? then Replied(routes[3].handler, RunRoute(routes[3], req).value)
      else Rejected([RunRoute(routes[0], req).error, RunRoute(routes[1], req).error,
        RunRoute(routes[2], req).error, RunRoute(routes[3], req).error])
  {
    var o := Dispatch(routes, req);
    if o.Replied? {
      var i :| 0 <= i < |routes| && FailsBefore(routes, i, req) &&
        RunRoute(routes[i], req) == Success(o.reply) && o.handler == routes[i].handler;
      assert i == 0 || RunRoute(routes[0], req).Failure?;
      assert i <= 1 || RunRoute(routes[1], req).Failure?;
      assert i <= 2 || RunRoute(routes[2], req).Failure?;
    } else {
      assert FailsBefore(routes, 4, req);
      assert |o.reasons| == 4;
      assert Failure(o.reasons[0]) == RunRoute(routes[0], req);
      assert Failure(o.reasons[1]) == RunRoute(routes[1], req);
      assert Failure(o.reasons[2]) == RunRoute(routes[2], req);
      assert Failure(o.reasons[3]) == RunRoute(routes[3], req);
    }
  }

  /** `api()` as the four routes tried one after the other. */
  lemma ApiFirstMatch(req: Request)
    ensures Api(req) ==
      var hello, helloJson, receive, withAuth :=
        HelloOutcome(req), HelloJsonOutcome(req), ReceiveJsonOutcome(req), WithAuthOutcome(req);
      if hello.Success? then Replied(HandleHello, hello.value)
      else if helloJson.Success? then Replied(HandleHelloJson, helloJson.value)
      else if receive.Success? then Replied(HandleReceiveJson, receive.value)
      else if withAuth.Success? then Replied(HandleWithAuth, withAuth.value)
      else Rejected([hello.error, helloJson.error, receive.error, withAuth.error])
  {
    ApiWellFormed();
    DispatchFour(API, req);
    HelloRoute(req);
    HelloJsonRoute(req);
    ReceiveJsonRoute(req);
    WithAuthRoute(req);
  }

  /** The route table replies exactly when, and exactly as, the direct statement says. */
  lemma ApiMatchesExpected(req: Request)
    ensures Api(req).Replied? <==> ExpectedReply(req).Some?
    ensures Api(req).Replied? ==> (Api(req).handler, Api(req).reply) == ExpectedReply(req).value
  {
    if ExpectedReply(req).Some? {
      ApiRepliesAsExpected(req);
    } else {
      ApiRejectsAsExpected(req);
    }
  }

  lemma ApiRepliesAsExpected(req: Request)
    requires ExpectedReply(req).Some?
    ensures Api(req) == Replied(ExpectedReply(req).value.0, ExpectedReply(req).value.1)
  {
    ApiFirstMatch(req);
    if req.verb == Get && |req.path| == 2 && req.path[0] == "hello" && req.path[1] != "" {
      assert HelloOutcome(req).Success?;
    } else if req.verb == Get && |req.path| == 3 && req.path[0] == "hello" && req.path[1] == "json" && req.path[2] != "" {
      assert HelloOutcome(req).Failure? && HelloJsonOutcome(req).Success?;
    } else if req.path == ["receive", "json"] {
      assert HelloOutcome(req).Failure? && HelloJsonOutcome(req).Failure?;
      assert ReceiveJsonOutcome(req).Success?;
    } else {
      assert HelloOutcome(req).Failure? && HelloJsonOutcome(req).Failure?;
      assert ReceiveJsonOutcome(req).Failure? && WithAuthOutcome(req).Success?;
    }
  }

  lemma ApiRejectsAsExpected(req: Request)
    requires ExpectedReply(req).None?
    ensures Api(req).Rejected?
  {
    ApiFirstMatch(req);
    NoRouteReplies(req);
  }

  lemma NoRouteReplies(req: Request)
    requires ExpectedReply(req).None?
    ensures HelloOutcome(req).Failure? && HelloJsonOutcome(req).Failure?
    ensures ReceiveJsonOutcome(req).Failure? && WithAuthOutcome(req).Failure?
  {
  }

  /**
   * GET /hello/<name> greets the name, for every non-empty name, "json" included:
   * the text route comes before the JSON one.
   */
  lemma ApiHello(req: Request, name: string)
    requires req.verb == Get && req.path == ["hello", name] && name != ""
    ensures Api(req) == Replied(HandleHello, Text("Hello, " + name + "!"))
  {
    ApiRepliesAsExpected(req);
  }

  /** GET /hello/ (an empty name) reaches no handler: the `String` parameter refuses the empty segment. */
  lemma ApiHelloEmptyName(req: Request)
    requires req.path == ["hello", ""]
    ensures Api(req) == Rejected([NotFound, NotFound, NotFound, NotFound])
  {
    ApiFirstMatch(req);
  }

  /** GET /hello/json/<name> replies `{"data": "Hello, <name>!"}`. */
  lemma ApiHelloJson(req: Request, name: string)
    requires req.verb == Get && req.path == ["hello", "json", name] && name != ""
    ensures Api(req) == Replied(HandleHelloJson, JsonReply(Json.Object([("data", Json.String(Hello(name)))])))
  {
    ApiRepliesAsExpected(req);
  }

  /** POST /receive/json replies with the JSON of the very body it was sent. */
  lemma ApiReceiveJson(req: Request, body: GreetingBody)
    requires req.verb == Post && req.path == ["receive", "json"] && req.body == Some(body)
    ensures Api(req) == Replied(HandleReceiveJson, JsonReply(Json.Object([("data", Json.String(body.data))])))
  {
    ApiRepliesAsExpected(req);
  }

  /** POST /receive/json with a body that does not deserialise is refused by the body check. */
  lemma ApiReceiveJsonInvalid(req: Request)
    requires req.verb == Post && req.path == ["receive", "json"] && req.body.None?
    ensures Api(req) == Rejected([NotFound, NotFound, BodyDeserializeError, NotFound])
  {
    ApiFirstMatch(req);
  }

  /** An authorised POST /with_auth/json replies with the fixed user next to the body. */
  lemma ApiWithAuth(req: Request, body: GreetingBody)
    requires req.verb == Post && req.path == ["with_auth", "json"] && req.body == Some(body)
    requires Authorize(req.headers).Success?
    ensures Api(req) == Replied(HandleWithAuth, JsonReply(Json.Object([
      ("user", Json.Object([("id", Json.Number(0)), ("name", Json.String("hoge"))])),
      ("body", Json.Object([("data", Json.String(body.data))]))])))
  {
    assert req.path[0] != "hello" && req.path != ["receive", "json"];
    ApiRepliesAsExpected(req);
  }

  /**
   * On /with_auth/json the token is checked first: when it fails, its error
   * is the outcome whatever the method and the body are, and the handler is
   * not reached. Only then does the method count, and only then the body.
   */
  lemma ApiWithAuthOrder(req: Request)
    requires req.path == ["with_auth", "json"]
    ensures Authorize(req.headers).Failure? ==>
      Api(req) == Rejected([NotFound, NotFound, NotFound, Authorize(req.headers).error])
    ensures Authorize(req.headers).Success? && req.verb != Post ==>
      Api(req) == Rejected([NotFound, NotFound, NotFound, MethodNotAllowed])
    ensures Authorize(req.headers).Success? && req.verb == Post && req.body.None? ==>
      Api(req) == Rejected([NotFound, NotFound, NotFound, BodyDeserializeError])
  {
    ApiFirstMatch(req);
  }

  /** No request outside the four route shapes reaches a handler. */
  lemma ApiOnlyKnownPaths(req: Request)
    requires Api(req).Replied?
    ensures
      || (req.verb == Get && |req.path| == 2 && req.path[0] == "hello" && req.path[1] != "")
      || (req.verb == Get && |req.path| == 3 && req.path[0] == "hello" && req.path[1] == "json" && req.path[2] != "")
      || (req.verb == Post && req.path == ["receive", "json"])
      || (req.verb == Post && req.path == ["with_auth", "json"] && Authorize(req.headers).Success?)
  {
    ApiMatchesExpected(req);
  }

  /** The with-auth test request: "Bearer hogehoge" and `{"data": "foo"}`. */
  lemma ApiWithAuthTestRequest()
    ensures Api(Request(Post, ["with_auth", "json"], map[AUTHORIZATION := BEARER + ACCEPTED_TOKEN], Some(GreetingBody("foo"))))
      == Replied(HandleWithAuth, JsonReply(Json.Object([
        ("user", Json.Object([("id", Json.Number(0)), ("name", Json.String("hoge"))])),
        ("body", Json.Object([("data", Json.String("foo"))]))])))
  {
    AuthorizeExampleAccepted();
    ApiWithAuth(Request(Post, ["with_auth", "json"], map[AUTHORIZATION := BEARER + ACCEPTED_TOKEN], Some(GreetingBody("foo"))),
      GreetingBody("foo"));
  }

  /** Without an Authorization header the protected route is refused as having no auth header. */
  lemma ApiWithAuthNoHeader(req: Request)
    requires req.path == ["with_auth", "json"] && AUTHORIZATION !in req.headers
    ensures Api(req) == Rejected([NotFound, NotFound, NotFound, Custom(NoAuthHeaderError)])
  {
    ApiWithAuthOrder(req);
  }
}
