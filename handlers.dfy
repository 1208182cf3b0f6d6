/**
 * The request handlers: the two greetings of handlers.rs, and the two
 * handlers the routes name but handlers.rs does not contain (`receive_json`
 * and `with_auth`), as far as the tests of filters.rs pin them down. All
 * four always succeed, so each is a total function returning its reply.
 */
module Handlers {
  import opened Wrappers
  import Json
  import opened Auth

  /** `hello`: the text reply `format!("Hello, {}!", name)`. */
  function Hello(name: string): (s: string)
    ensures |s| == |name| + 8
    ensures s[..7] == "Hello, " && s[7..|s| - 1] == name && s[|s| - 1] == '!'
  {
    "Hello, " + name + "!"
  }

  /** Reads a greeting back: the name between "Hello, " and the final "!". */
  function ParseGreeting(s: string): (r: Option<string>)
    ensures r.Some? ==> |r.value| + 8 == |s|
  {
    if |s| >= 8 && s[..7] == "Hello, " && s[|s| - 1] == '!' then Some(s[7..|s| - 1]) else None
  }

  /** The greeting is the name plus eight characters. */
  lemma HelloLength(name: string)
    ensures |Hello(name)| == |name| + 8
  {
  }

  /** The name can be read back from its greeting. */
  lemma HelloRoundTrip(name: string)
    ensures ParseGreeting(Hello(name)) == Some(name)
  {
    var s := Hello(name);
    assert s[..7] == "Hello, ";
    assert s[7..|s| - 1] == name;
  }

  /** Whatever reads back as a name is that name's greeting. */
  lemma ParseGreetingSound(s: string)
    requires ParseGreeting(s).Some?
    ensures Hello(ParseGreeting(s).value) == s
  {
    var name := ParseGreeting(s).value;
    assert s == s[..7] + s[7..|s| - 1] + [s[|s| - 1]];
  }

  /** Different names never give the same greeting. */
  lemma HelloInjective(a: string, b: string)
    ensures Hello(a) == Hello(b) ==> a == b
  {
    HelloRoundTrip(a);
    HelloRoundTrip(b);
  }

  /** The `HelloJson` struct of handlers.rs. */
  datatype HelloJsonBody = HelloJsonBody(data: string) {
    function ToJson(): (v: Json.Value)
      ensures Json.Member(v, "data") == Some(Json.String(data))
    {
      Json.Object([("data", Json.String(data))])
    }
  }

  /** `hello_json`: the same greeting as `hello`, as the `data` field of a JSON object. */
  function HelloJson(name: string): (r: HelloJsonBody)
    ensures r.data == Hello(name)
    ensures Json.Member(r.ToJson(), "data") == Some(Json.String(Hello(name)))
  {
    HelloJsonBody(Hello(name))
  }

  /** The request body `{"data": ...}` that `receive_json` and `with_auth` take. */
  datatype GreetingBody = GreetingBody(data: string) {
    function ToJson(): (v: Json.Value)
      ensures Json.Member(v, "data") == Some(Json.String(data))
    {
      Json.Object([("data", Json.String(data))])
    }
  }

  /** `receive_json`: echoes the body it was given. */
  function ReceiveJson(body: GreetingBody): (r: GreetingBody)
    ensures r.ToJson() == body.ToJson()
  {
    body
  }

  /** The reply of `with_auth`: the authenticated user next to the body. */
  datatype WithAuthBody = WithAuthBody(user: User, body: GreetingBody) {
    function ToJson(): (v: Json.Value)
      ensures Json.Member(v, "user") == Some(user.ToJson())
      ensures Json.Member(v, "body") == Some(body.ToJson())
    {
      Json.Object([("user", user.ToJson()), ("body", body.ToJson())])
    }
  }

  /** `with_auth`: pairs the user with the body. */
  function WithAuth(user: User, body: GreetingBody): (r: WithAuthBody)
    ensures Json.Member(r.ToJson(), "user") == Some(user.ToJson())
    ensures Json.Member(r.ToJson(), "body") == Some(body.ToJson())
  {
    WithAuthBody(user, body)
  }
}
