/** The HTTP vocabulary of the worker tasks: requests as they are handed to
    `requests.get/post/head`, responses as abstract values, a server that
    answers every request with the next response it holds, and the reasons
    for which the worker tasks end the process (`bot.exit`). */
module Http {
  import opened Wrappers

  newtype byte = x: int | 0 <= x < 256

  datatype Verb = Get | Post | Head

  /** A request body as the caller passes it. `Other` is any value
      `json.dumps` can serialise; `JsonText(d)` stands for the string
      `json.dumps(d)`; the serialiser itself is not modelled. */
  datatype Data = Dict(fields: map<string, string>) | Other(repr: string) | JsonText(source: Data)

  /** The parsed body of a response: a JSON object, whose values are given
      as the text `"%s" % value` renders them, or any other JSON value. */
  datatype JsonDoc = Object(fields: map<string, string>) | NonObject

  datatype Request = Request(verb: Verb, url: string, headers: Option<map<string, string>>, body: Option<Data>)

  /** A response. `headers` is the store of a case-insensitive dictionary:
      every key is the lower-cased header name. `json` is the outcome of
      `response.json()` (None when it raises `ValueError`); `chunks` is what
      `iter_content` yields. */
  datatype Response = Response(status: int, headers: map<string, string>, json: Option<JsonDoc>, chunks: seq<seq<byte>>)

  /** The server: the responses it will give, in order, and every request
      issued so far. */
  datatype Net = Net(pending: seq<Response>, log: seq<Request>)

  /** The ways the worker tasks end the process (`bot.exit`) or fail with an
      uncaught exception. */
  datatype Error =
    | ServerError(code: int)        // 500, 502 or 404 in `call`
    | CredentialsExpired            // a 401 once the retry is spent
    | MalformedResponse             // a 200 whose body is not JSON
    | AuthChallengeMissing          // `update_token` without a 401 challenge
    | AuthChallengeMalformed        // the challenge does not match the pattern
    | TokenFetchFailed              // no token in the reply, or no headers to update
    | StreamFailed(code: int)       // `stream` got neither 200 nor a retried 401
    | BadContentLength              // `int()` of the Content-Length raises
    | NetworkFailure                // `requests` raises: no response
    | DownloadIncomplete            // `download_task` cannot move the file

  const Unauthorized := 401
  const Ok := 200

  /** Issue one request: it is logged, and the server's next response, if
      any, is consumed. */
  function Send(net: Net, req: Request): (r: (Option<Response>, Net))
    ensures r.1.log == net.log + [req]
    ensures net.pending == [] ==> r.0 == None && r.1.pending == []
    ensures net.pending != [] ==> r.0 == Some(net.pending[0]) && r.1.pending == net.pending[1..]
  {
    if net.pending == [] then (None, Net([], net.log + [req]))
    else (Some(net.pending[0]), Net(net.pending[1..], net.log + [req]))
  }

  /** Lookup of a response header by its lower-cased name, as the
      case-insensitive dictionary does it for any spelling of the name. */
  function Header(resp: Response, key: string): (r: Option<string>)
    ensures r.Some? <==> key in resp.headers
    ensures r.Some? ==> r.value == resp.headers[key]
  {
    if key in resp.headers then Some(resp.headers[key]) else None
  }

  /** Characters Python's `\s` and `str.isspace` accept. */
  predicate IsSpace(c: char) {
    || c == ' ' || c == '\t' || c == '\n' || c == '\r' || c == '\U{0B}' || c == '\U{0C}'
    || ('\U{1C}' <= c <= '\U{1F}') || c == '\U{85}' || c == '\U{A0}' || c == '\U{1680}'
    || ('\U{2000}' <= c <= '\U{200A}') || c == '\U{2028}' || c == '\U{2029}'
    || c == '\U{202F}' || c == '\U{205F}' || c == '\U{3000}'
  }

  /** The body `call` sends for the `data` it is given: a dictionary is
      passed on as is, anything else is replaced by its JSON text. */
  function Coerce(data: Option<Data>): (r: Option<Data>)
    ensures r.None? <==> data.None?
    ensures r.Some? ==> r.value.Dict? || r.value.JsonText?
    ensures r.Some? && data.value.Dict? ==> r.value == data.value
    ensures r.Some? && r.value.JsonText? ==> r.value.source == data.value
    ensures data.Some? && !data.value.Dict? ==> r == Some(JsonText(data.value))
  {
    match data
    case None => None
    case Some(d) => if d.Dict? then Some(d) else Some(JsonText(d))
  }
}
