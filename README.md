# Bearer-token guard and routes of a warp example API, in Dafny

This project models the core of a small warp (Rust) web API:

- the **bearer-token guard** of `src/filters.rs`: `token_from_header` looks up the
  `Authorization` header, requires it to be UTF-8, requires the exact, case-sensitive
  prefix `"Bearer "`, strips it with `trim_start_matches` (which removes *every* leading
  `"Bearer "`), and `authorize` accepts only the token `"hogehoge"`, answering with the
  fixed user `User { id: 0, name: "hoge" }`; the two error classes are
  `NoAuthHeaderError` (missing header, or not UTF-8) and `InvalidAuthHeaderError`
  (wrong scheme, or wrong token);
- the **greeting handlers** of `src/handlers.rs`: `hello` gives `"Hello, " + name + "!"`,
  `hello_json` gives the same string as the `data` field of a JSON object;
- the **route composition** `api` = `hello` (text, then JSON) `.or(receive_json)`
  `.or(with_auth_json)`, as an explicit ordered table of routes. Each route is a
  `warp::path!` pattern, an ordered list of checks (method, bearer-token guard, JSON
  body) and a handler. Routes are tried in order and the first that replies wins.

Modules: `Wrappers` (Option/Result with `:-`, standing in for Rust's `?`), `Str`
(`starts_with`, `trim_start_matches` on the UTF-8 bytes of text), `Utf8`
(`std::str::from_utf8`: well-formedness after Table 3-7 of the Unicode Standard),
`Json` (the JSON value tree of replies), `Http` (method, headers, rejection, reply),
`Auth` (`src/filters.rs:41-91`), `Handlers` (`src/handlers.rs` and the two handlers
that the routes name), `Routes` (`src/filters.rs:5-39`).

Main results:
- `Auth.AuthorizeAccepts`: a request authorises exactly when its `Authorization` value is
  `"Bearer "` written k ≥ 1 times followed by `"hogehoge"`.
- `Routes.ApiMatchesExpected`: the table-driven dispatch replies exactly when, and
  exactly as, a direct case-by-case statement of the four endpoints says.
- `Routes.ApiWithAuthOrder`: on `/with_auth/json` the token is checked before the
  method, and the method before the body.

Everything is pure. Running the same request twice gives the same outcome because
`Api` is a function.

Where a description of the scheme says the `"Bearer "` prefix is stripped (once), the
code strips every leading copy with `trim_start_matches` (`src/filters.rs:90`). The
model follows the code, so `"Bearer Bearer hogehoge"` is accepted
(`Auth.TokenExampleRepeatedScheme`). The scheme is compared case-sensitively, unlike the
case-insensitive auth-scheme rule of section 2.1 of RFC 7235. The model follows the code
here too (`Auth.TokenExampleLowerCaseScheme`).

Byte strings are `seq<byte>`. After the UTF-8 check, the header text is kept as its
bytes. That is how Rust represents `str`, and `starts_with` / `trim_start_matches` with
a string pattern compare bytes. The path name and the user name are `string`.

## Model

| member | source | states |
|---|---|---|
| `Wrappers.Option.OkOr` | src/filters.rs:80-82 | `ok_or_else`: a missing value becomes the given error, a present one is passed on |
| `Http.Lookup` | src/filters.rs:80-81 | `HeaderMap::get` finds a value exactly when the name is present, and returns that value |
| `Str.TrimStartMatches` | src/filters.rs:90 | the result is a suffix of the input; for a non-empty pattern it never starts with the pattern; an empty pattern removes nothing |
| `Str.TrimStartMatchesRepeat` | src/filters.rs:90 | any number of leading copies of the pattern are all removed |
| `Str.TrimStartMatchesDecompose` | src/filters.rs:90 | what is removed is a whole number of copies of the pattern |
| `Str.TrimStartMatchesUnique` | src/filters.rs:90 | reference characterisation: the result is the `r` with `s == p^k + r` that does not start with `p` |
| `Str.StartsWithAppend` | src/filters.rs:86 | `starts_with` (`Str.StartsWith`: the first bytes are the pattern's) holds exactly when the text is the pattern followed by something, and the pattern followed by anything passes it |
| `Str.StartsWithRepeat` | src/filters.rs:86 | one or more copies of `"Bearer "` followed by anything passes the `starts_with` check |
| `Utf8.SequenceLengthBytes` | src/filters.rs:84 | a well-formed code unit sequence is a lead byte (ASCII or C2 to F4) followed only by continuation bytes |
| `Utf8.ValidBytes` | src/filters.rs:84 | text that `from_utf8` accepts (`Utf8.Valid`: well-formed sequences end to end) never starts with a continuation byte and never holds C0, C1 or F5 to FF |
| `Utf8.FromUtf8` | src/filters.rs:84 | `from_utf8` succeeds exactly on well-formed UTF-8 and then returns the same bytes |
| `Utf8.AsciiIsValid` | src/filters.rs:84 | bytes below 0x80 always pass the UTF-8 check |
| `Utf8.DropValidPrefix` | src/filters.rs:84-90 | removing a leading piece of text from text leaves text, so the stripped token is a valid `String` |
| `Auth.User.ToJson` | src/filters.rs:41-45 | the serialised user is an object whose `id` member is the user's id and whose `name` member is the user's name |
| `Auth.Error.Message` | src/filters.rs:47-53 | the display texts are "no auth header" and "invalid auth header", one per error, and they differ |
| `Auth.TokenFromHeader` | src/filters.rs:77-91 | `NoAuthHeaderError` exactly when the header is missing or not UTF-8; `InvalidAuthHeaderError` exactly when it is text without the exact prefix `"Bearer "`; a returned token never starts with `"Bearer "` |
| `Auth.TokenFromHeaderSuccess` | src/filters.rs:86-90 | on success the header value is `"Bearer "` k ≥ 1 times followed by the token, and the token is valid UTF-8 |
| `Auth.Authorize` | src/filters.rs:60-75 | succeeds exactly when the token is `"hogehoge"`, and then gives `User{id: 0, name: "hoge"}`; every failure is a custom rejection; extractor errors propagate unchanged; a wrong token gives `InvalidAuthHeaderError` |
| `Auth.AuthorizeAccepts` | src/filters.rs:60-91 | the accepted header values are exactly `"Bearer "` repeated k ≥ 1 times followed by `"hogehoge"` |
| `Auth.AcceptedValueAuthorizes` | src/filters.rs:84-90 | such a value passes the UTF-8 and prefix checks and yields exactly the token `"hogehoge"` |
| `Auth.AuthorizeExampleAccepted` | src/filters.rs:171-190 | the test's header `Bearer hogehoge` authorises the fixed user |
| `Auth.TokenExampleRepeatedScheme` | src/filters.rs:90 | `Bearer Bearer hogehoge` yields the token `hogehoge` |
| `Auth.TokenExampleLowerCaseScheme` | src/filters.rs:86-88 | `bearer hogehoge` (lower case) is `InvalidAuthHeaderError` |
| `Auth.TokenExampleNotUtf8` | src/filters.rs:84 | the overlong bytes C0 80 are not UTF-8 and count as `NoAuthHeaderError` |
| `Handlers.Hello` | src/handlers.rs:4-6 | the greeting is "Hello, ", then exactly the name, then "!", eight characters longer than the name |
| `Handlers.ParseGreeting` | src/handlers.rs:5 | a name read back from a greeting is 8 characters shorter than it |
| `Handlers.HelloLength` | src/handlers.rs:4-6 | the greeting is the name plus 8 characters |
| `Handlers.HelloRoundTrip` | src/handlers.rs:4-6 | stripping `"Hello, "` and `"!"` from a greeting gives back the name |
| `Handlers.ParseGreetingSound` | src/handlers.rs:4-6 | whatever reads back as a name is exactly that name's greeting |
| `Handlers.HelloInjective` | src/handlers.rs:4-6 | different names never give the same greeting |
| `Handlers.HelloJsonBody.ToJson` | src/handlers.rs:8-11 | the serialised `HelloJson` struct has the `data` member |
| `Handlers.HelloJson` | src/handlers.rs:13-17 | the `data` field of `hello_json(name)` equals `hello(name)`, also in the JSON |
| `Handlers.GreetingBody.ToJson` | src/filters.rs:141-146 | the serialised body has the `data` member it was parsed from |
| `Handlers.ReceiveJson` | src/filters.rs:141-146 | the echoed body serialises to the same JSON as the body received |
| `Handlers.WithAuth` | src/filters.rs:183-190 | the reply's `user` member is the serialised user and its `body` member the serialised body |
| `Handlers.WithAuthBody.ToJson` | src/filters.rs:183-190 | the `with_auth` reply has a `user` member holding the serialised user and a `body` member holding the serialised body |
| `Routes.MatchPath` | src/filters.rs:14-34 | `warp::path!` matches exactly when the segment counts agree, every literal segment is equal and every parameter segment is non-empty; it captures one segment per parameter, the parameter at position i capturing segment i, in order |
| `Routes.Passes` | src/filters.rs:15-37 | the bearer-token check lets a request through exactly when the extracted token is `"hogehoge"`; the method check when the method is the route's; the body check when the body deserialised |
| `Routes.Refusal` | src/filters.rs:15-37 | a failing check never gives `NotFound`; only the token check gives a custom rejection, carrying the extractor's error or, for a wrong token, `InvalidAuthHeaderError` |
| `Routes.Invoke` | src/filters.rs:16-38 | `and_then(handler)`: only `hello` answers with text, and the name can be read back from it; `hello_json` answers `data` = the greeting; `receive_json` echoes the body's JSON; `with_auth` answers the user and the body |
| `Routes.RunGuards` | src/filters.rs:34-38 | all checks pass exactly when the route is passed through; otherwise the first failing check, in order, gives the rejection; what passes adds the user and the body |
| `Routes.RunRoute` | src/filters.rs:13-38 | a route is `NotFound` exactly when its path does not match, and replies exactly when the path matches and every check passes |
| `Routes.RunRouteResult` | src/filters.rs:13-38 | past the path, a route's rejection is that of its first failing check; its reply is the handler's on the captured parameters, the fixed user when the route authenticates, and the body when it reads one |
| `Routes.Dispatch` | src/filters.rs:5-7 | `.or`: rejected exactly when every route fails, then with each route's rejection in order; otherwise the reply of the first route that replies |
| `Routes.DispatchFour` | src/filters.rs:5-11 | a four-route table unrolled: first reply wins, else the four rejections |
| `Routes.HelloRoute` | src/filters.rs:13-17 | `hello_string` is `/hello/<one segment>`, then GET, then `hello` |
| `Routes.HelloJsonRoute` | src/filters.rs:19-23 | `hello_json` is `/hello/json/<one segment>`, then GET, then `hello_json` |
| `Routes.ReceiveJsonRoute` | src/filters.rs:25-30 | `receive_json` is `/receive/json`, then POST, then the body, then the echo |
| `Routes.WithAuthGuards` | src/filters.rs:35-37 | the checks of `with_auth_json` in order: a failing token decides, then a non-POST method, then a missing body; otherwise the fixed user and the body are extracted |
| `Routes.WithAuthRoute` | src/filters.rs:32-39 | `with_auth_json` is `/with_auth/json`, then the token, then POST, then the body, then `with_auth` |
| `Routes.Api` | src/filters.rs:5-39 | `api()` is the table of the four routes dispatched in order: rejected with one rejection per route, or the reply of the first route that replies |
| `Routes.ApiFirstMatch` | src/filters.rs:5-39 | `api` is the four routes tried in order |
| `Routes.ApiMatchesExpected` | src/filters.rs:5-39 | the dispatch replies exactly when the direct statement of the four endpoints does, with the same handler and reply |
| `Routes.ApiRejectsAsExpected` | src/filters.rs:5-39 | no other request gets a reply |
| `Routes.ApiHello` | src/filters.rs:99-110 | GET `/hello/<name>` replies `Hello, <name>!` for every non-empty name, `json` included |
| `Routes.ApiHelloEmptyName` | src/filters.rs:13-23 | `/hello/` with an empty name reaches no route: every route answers `NotFound` |
| `Routes.ApiHelloJson` | src/filters.rs:112-129 | GET `/hello/json/<name>` replies `{"data": "Hello, <name>!"}` |
| `Routes.ApiReceiveJson` | src/filters.rs:131-149 | POST `/receive/json` replies with the JSON of the body it was sent |
| `Routes.ApiReceiveJsonInvalid` | src/filters.rs:151-169 | a body that does not deserialise is refused by the body check and no handler runs |
| `Routes.ApiWithAuth` | src/filters.rs:32-39 | an authorised POST `/with_auth/json` replies `{"user": {"id": 0, "name": "hoge"}, "body": <body>}` |
| `Routes.ApiWithAuthTestRequest` | src/filters.rs:171-193 | the test request (`Bearer hogehoge`, `{"data": "foo"}`) gets exactly the expected JSON |
| `Routes.ApiWithAuthOrder` | src/filters.rs:34-38 | on `/with_auth/json` a failing token decides the outcome whatever the method and body; then the method; then the body |
| `Routes.ApiWithAuthNoHeader` | src/filters.rs:34-38 | without an `Authorization` header the protected route is refused with `NoAuthHeaderError` |
| `Routes.ApiOnlyKnownPaths` | src/filters.rs:5-39 | only GET `/hello/<x>`, GET `/hello/json/<x>`, POST `/receive/json` and an authorised POST `/with_auth/json` reach a handler |

## Left out

- `src/main.rs`: the tokio runtime, `RUST_LOG`, `env_logger`, logging and `warp::serve` on port 3000 are I/O set-up.
- How warp merges the rejections of the `.or` branches into one and maps it to an HTTP status and body: the model reports one rejection per route, in table order.
- Splitting the raw URL into segments (percent-decoding, trailing slashes): requests carry their segments already split. An empty segment is kept, and then a `String` parameter refuses it as warp's path parameter does.
- JSON parsing with serde (`warp::body::json`), including its error text (`src/filters.rs:162-166`): a request carries the parse outcome, `Some(body)` or `None`.
- The `Content-Type` check of `warp::body::json`: a body sent with another content type is refused by warp with its own rejection; the model folds that case into `None`, so it shows as `BodyDeserializeError`.
- The order of members in a JSON object: `Json.Object` is an ordered list, so `Routes.ApiWithAuth` and `Routes.ApiWithAuthTestRequest` state the order `user, body` (and `id, name`). serde writes struct fields in declaration order, but `with_auth` is not in the source and the test compares `serde_json::Value`s, whose equality ignores member order; only the members, not their order, are what the program promises.
- Writing replies as bytes and their content types: replies are a text string or a JSON value tree.
- Header-map details: names are taken as already lower-cased, and a name has one value.
- `handlers::receive_json` and `handlers::with_auth` are not in `src/handlers.rs`. They are modelled as the tests fix them: the echo, and the `{user, body}` pair. Both always succeed.
- `Error.Message` (the `thiserror` display text) is modelled, but no reply carries it, because the rejection body is warp's.
- `async` and the `#[tokio::test]` harness.
