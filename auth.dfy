/**
 * The bearer-token guard of filters.rs: read the `Authorization` header,
 * require text that starts with `Bearer `, strip every leading `Bearer `, and
 * accept only the fixed token, standing in for the one fixed user.
 */
module Auth {
  import opened Wrappers
  import opened Str
  import Utf8
  import Json
  import opened Http

  newtype u64 = x: int | 0 <= x < 0x1_0000_0000_0000_0000

  datatype User = User(id: u64, name: string) {
    /** serde's derived serialisation: an object with the fields in declaration order. */
    function ToJson(): (v: Json.Value)
      ensures Json.Member(v, "id") == Some(Json.Number(id as int))
      ensures Json.Member(v, "name") == Some(Json.String(name))
    {
      Json.Object([("id", Json.Number(id as int)), ("name", Json.String(name))])
    }
  }

  datatype Error = NoAuthHeaderError | InvalidAuthHeaderError {
    /** The text `thiserror` derives for `Display`. */
    function Message(): (m: string)
      ensures this == NoAuthHeaderError <==> m == "no auth header"
      ensures this == InvalidAuthHeaderError <==> m == "invalid auth header"
    {
      match this
      case NoAuthHeaderError => "no auth header"
      case InvalidAuthHeaderError => "invalid auth header"
    }
  }

  /** `header::AUTHORIZATION`, as the header map stores it. */
  const AUTHORIZATION: string := "authorization"

  /** The bytes of "Bearer " (with the space). */
  const BEARER: seq<byte> := [0x42, 0x65, 0x61, 0x72, 0x65, 0x72, 0x20]

  /** The bytes of "hogehoge", the only token accepted. */
  const ACCEPTED_TOKEN: seq<byte> := [0x68, 0x6F, 0x67, 0x65, 0x68, 0x6F, 0x67, 0x65]

  /** The user every accepted request is attributed to. */
  const AUTHORIZED_USER: User := User(0, "hoge")

  /**
   * `token_from_header`. A missing header and a header that is not UTF-8
   * are the same error; a value that does not start with "Bearer " exactly
   * (case and space included) is the other.
   */
  function TokenFromHeader(headers: Headers): (r: Result<seq<byte>, Error>)
    ensures r == Failure(NoAuthHeaderError) <==>
      AUTHORIZATION !in headers || !Utf8.Valid(headers[AUTHORIZATION])
    ensures r == Failure(InvalidAuthHeaderError) <==>
      AUTHORIZATION in headers && Utf8.Valid(headers[AUTHORIZATION]) && !StartsWith(headers[AUTHORIZATION], BEARER)
    ensures r.Success? ==> !StartsWith(r.value, BEARER)
  {
    var header :- Lookup(headers, AUTHORIZATION).OkOr(NoAuthHeaderError);
    var value :- Utf8.FromUtf8(header).OkOr(NoAuthHeaderError);
    if !StartsWith(value, BEARER) then
      Failure(InvalidAuthHeaderError)
    else
      Success(TrimStartMatches(value, BEARER))
  }

  /**
   * A token is what is left of the header value after one or more leading
   * "Bearer " have been removed, and it is itself text.
   */
  lemma TokenFromHeaderSuccess(headers: Headers) returns (k: nat)
    requires TokenFromHeader(headers).Success?
    ensures AUTHORIZATION in headers
    ensures k >= 1 && headers[AUTHORIZATION] == Repeat(BEARER, k) + TokenFromHeader(headers).value
    ensures Utf8.Valid(TokenFromHeader(headers).value)
  {
    var value := headers[AUTHORIZATION];
    var token := TokenFromHeader(headers).value;
    assert token == TrimStartMatches(value, BEARER);
    k := TrimStartMatchesDecompose(value, BEARER);
    if k == 0 {
      assert false;
    }
    BearerRepeatIsAscii(k);
    Utf8.AsciiIsValid(Repeat(BEARER, k));
    Utf8.DropValidPrefix(Repeat(BEARER, k), token);
  }

  lemma {:induction false} BearerRepeatIsAscii(k: nat)
    ensures Utf8.Ascii(Repeat(BEARER, k))
  {
    if k > 0 {
      BearerRepeatIsAscii(k - 1);
      assert Repeat(BEARER, k) == BEARER + Repeat(BEARER, k - 1);
    }
  }

  /**
   * `authorize`: the fixed user when the token is exactly "hogehoge", the
   * invalid-header error for any other token, and the extractor's own error
   * unchanged when there is no token.
   */
  function Authorize(headers: Headers): (r: Result<User, Rejection<Error>>)
    ensures r.Success? <==> TokenFromHeader(headers) == Success(ACCEPTED_TOKEN)
    ensures r.Success? ==> r.value == User(0, "hoge")
    ensures r.Failure? ==> r.error.Custom?
    ensures TokenFromHeader(headers).Failure? ==> r == Failure(Custom(TokenFromHeader(headers).error))
    ensures TokenFromHeader(headers).Success? && TokenFromHeader(headers).value != ACCEPTED_TOKEN ==>
      r == Failure(Custom(InvalidAuthHeaderError))
  {
    match TokenFromHeader(headers)
    case Success(token) =>
      if token != ACCEPTED_TOKEN then Failure(Custom(InvalidAuthHeaderError))
      else Success(AUTHORIZED_USER)
    case Failure(e) => Failure(Custom(e))
  }

  /** The header values that authorise are exactly "Bearer " repeated one or more times, then "hogehoge". */
  lemma AuthorizeAccepts(headers: Headers)
    ensures Authorize(headers).Success? <==>
      AUTHORIZATION in headers &&
      exists k: nat :: k >= 1 && headers[AUTHORIZATION] == Repeat(BEARER, k) + ACCEPTED_TOKEN
  {
    if Authorize(headers).Success? {
      var k := TokenFromHeaderSuccess(headers);
      assert headers[AUTHORIZATION] == Repeat(BEARER, k) + ACCEPTED_TOKEN;
    }
    if AUTHORIZATION in headers && exists k: nat :: k >= 1 && headers[AUTHORIZATION] == Repeat(BEARER, k) + ACCEPTED_TOKEN {
      var k: nat :| k >= 1 && headers[AUTHORIZATION] == Repeat(BEARER, k) + ACCEPTED_TOKEN;
      AcceptedValueAuthorizes(headers, k);
    }
  }

  lemma AcceptedValueAuthorizes(headers: Headers, k: nat)
    requires k >= 1 && AUTHORIZATION in headers && headers[AUTHORIZATION] == Repeat(BEARER, k) + ACCEPTED_TOKEN
    ensures TokenFromHeader(headers) == Success(ACCEPTED_TOKEN)
  {
    var value := headers[AUTHORIZATION];
    AcceptedHeaderValid(k);
    StartsWithRepeat(BEARER, k, ACCEPTED_TOKEN);
    assert ACCEPTED_TOKEN[0] != BEARER[0];
    TrimStartMatchesUnique(value, BEARER, k, ACCEPTED_TOKEN);
  }

  lemma AcceptedHeaderValid(k: nat)
    ensures Utf8.Valid(Repeat(BEARER, k) + ACCEPTED_TOKEN)
  {
    BearerRepeatIsAscii(k);
    var s := Repeat(BEARER, k) + ACCEPTED_TOKEN;
    assert forall i :: 0 <= i < |s| ==> s[i] < 0x80 by {
      forall i | 0 <= i < |s| ensures s[i] < 0x80 {
        if i >= |Repeat(BEARER, k)| { assert s[i] == ACCEPTED_TOKEN[i - |Repeat(BEARER, k)|]; }
      }
    }
    Utf8.AsciiIsValid(s);
  }

  /** The request of the with-auth test: "Bearer hogehoge" authorises the fixed user. */
  lemma AuthorizeExampleAccepted()
    ensures Authorize(map[AUTHORIZATION := BEARER + ACCEPTED_TOKEN]) == Success(User(0, "hoge"))
  {
    var headers := map[AUTHORIZATION := BEARER + ACCEPTED_TOKEN];
    assert BEARER + ACCEPTED_TOKEN == Repeat(BEARER, 1) + ACCEPTED_TOKEN;
    AuthorizeAccepts(headers);
  }

  /** "Bearer Bearer hogehoge" yields the token "hogehoge": every leading "Bearer " goes. */
  lemma TokenExampleRepeatedScheme()
    ensures TokenFromHeader(map[AUTHORIZATION := BEARER + BEARER + ACCEPTED_TOKEN]) == Success(ACCEPTED_TOKEN)
  {
    var headers := map[AUTHORIZATION := BEARER + BEARER + ACCEPTED_TOKEN];
    assert BEARER + BEARER + ACCEPTED_TOKEN == Repeat(BEARER, 2) + ACCEPTED_TOKEN;
    AuthorizeAccepts(headers);
  }

  /** The scheme is compared case-sensitively: "bearer hogehoge" is an invalid header. */
  lemma TokenExampleLowerCaseScheme()
    ensures TokenFromHeader(map[AUTHORIZATION := [0x62, 0x65, 0x61, 0x72, 0x65, 0x72, 0x20] + ACCEPTED_TOKEN])
      == Failure(InvalidAuthHeaderError)
  {
    var value: seq<byte> := [0x62, 0x65, 0x61, 0x72, 0x65, 0x72, 0x20] + ACCEPTED_TOKEN;
    assert value[0] != BEARER[0];
    assert Utf8.Ascii(value);
    Utf8.AsciiIsValid(value);
  }

  /** The overlong encoding C0 80 is not UTF-8, so it counts as no header at all. */
  lemma TokenExampleNotUtf8()
    ensures TokenFromHeader(map[AUTHORIZATION := [0xC0, 0x80]]) == Failure(NoAuthHeaderError)
  {
    assert Utf8.SequenceLength([0xC0, 0x80]) == 0;
  }
}
