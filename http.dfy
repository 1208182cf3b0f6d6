/** The parts of the HTTP framework (warp) that the routes are built from. */
module Http {
  import opened Wrappers
  import opened Str
  import Json

  datatype Method = Get | Post | Put | Delete | Head | Options | Connect | Patch | Trace | Extension(name: string)

  /** A request's headers: one value per (already lower-cased) header name, as raw bytes. */
  type Headers = map<string, seq<byte>>

  /** `HeaderMap::get`. */
  function Lookup(headers: Headers, name: string): (r: Option<seq<byte>>)
    ensures r.Some? <==> name in headers
    ensures r.Some? ==> r.value == headers[name]
  {
    if name in headers then Some(headers[name]) else None
  }

  /**
   * Why a filter declined a request: the path did not match, the method did
   * not match, the body did not deserialise, or an application error raised
   * with `warp::reject::custom`.
   */
  datatype Rejection<+E> = NotFound | MethodNotAllowed | BodyDeserializeError | Custom(cause: E)

  /** A successful (status 200) reply: plain text or JSON. */
  datatype Reply = Text(body: string) | JsonReply(value: Json.Value)
}
