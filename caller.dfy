/** `call`, its wrappers `get` and `post`, and `update_token` as `call`
    uses it: one request, the dispatch on its status, and the single
    re-authentication a 401 may trigger. */
module Caller {
  import opened Wrappers
  import opened Http
  import opened Challenge

  /** What `call` returns: the parsed body, or the response itself. */
  datatype Reply = Parsed(doc: JsonDoc) | Raw(response: Response)

  /** What a call leaves behind: its outcome, the contents of the caller's
      header dictionary (a retry updates it in place; None when the caller
      passed no dictionary) and the server. */
  datatype Exchange = Exchange(outcome: Result<Reply, Error>, headers: Option<map<string, string>>, net: Net)

  /** What `update_token` leaves behind: the updated headers or the error,
      and the server. */
  datatype Renewal = Renewal(outcome: Result<map<string, string>, Error>, net: Net)

  /** `Www-Authenticate`, as the response header store keys it. */
  const AuthHeader := "www-authenticate"
  const Authorization := "Authorization"
  const BearerPrefix := "Bearer "
  const TokenKey := "token"

  /** The statuses `call` ends the process on without retrying. */
  predicate Fatal(status: int) {
    status == 500 || status == 502 || status == 404
  }

  /** `reply["token"]`, when the reply is a JSON object holding it; every
      other reply makes the lookup raise. */
  function TokenOf(reply: Reply): Option<string> {
    if reply.Parsed? && reply.doc.Object? && TokenKey in reply.doc.fields then
      Some(reply.doc.fields[TokenKey])
    else None
  }

  /** `headers.update({"Authorization": "Bearer " + token})`. */
  function WithToken(headers: map<string, string>, token: string): (m: map<string, string>)
    ensures m.Keys == headers.Keys + {Authorization}
    ensures m[Authorization] == BearerPrefix + token
    ensures forall k :: k in headers && k != Authorization ==> m[k] == headers[k]
  {
    headers[Authorization := BearerPrefix + token]
  }

  /** `call(url, func, data, headers, return_json, retry)`, func issuing
      verb. */
  function Call(verb: Verb, url: string, data: Option<Data>, headers: Option<map<string, string>>,
                returnJson: bool, retry: bool, net: Net): (x: Exchange)
    ensures |x.net.pending| <= |net.pending|
    ensures net.log + [Request(verb, url, headers, Coerce(data))] <= x.net.log
    decreases |net.pending|, 0
  {
    var body := Coerce(data);
    var sent := Send(net, Request(verb, url, headers, body));
    match sent.0
    case None => Exchange(Failure(NetworkFailure), headers, sent.1)
    case Some(resp) =>
      if resp.status == 500 || resp.status == 502 then Exchange(Failure(ServerError(resp.status)), headers, sent.1)
      else if resp.status == 404 then Exchange(Failure(ServerError(404)), headers, sent.1)
      else if resp.status == Unauthorized then
        if retry then
          var u := Renew(resp, headers, sent.1);
          match u.outcome
          case Failure(e) => Exchange(Failure(e), headers, u.net)
          case Success(h) => Call(verb, url, body, Some(h), returnJson, false, u.net)
        else Exchange(Failure(CredentialsExpired), headers, sent.1)
      else if resp.status == Ok && returnJson then
        match resp.json
        case None => Exchange(Failure(MalformedResponse), headers, sent.1)
        case Some(doc) => Exchange(Success(Parsed(doc)), headers, sent.1)
      else Exchange(Success(Raw(resp)), headers, sent.1)
  }

  /** `update_token(response, headers)`: read the challenge of a 401, fetch
      a token from the URL it names, and add it to the headers. */
  function Renew(resp: Response, headers: Option<map<string, string>>, net: Net): (u: Renewal)
    ensures |u.net.pending| <= |net.pending|
    ensures net.log <= u.net.log
    decreases |net.pending|, 2
  {
    if resp.status != Unauthorized || Header(resp, AuthHeader).None? then Renewal(Failure(AuthChallengeMissing), net)
    else
      match Parse(Header(resp, AuthHeader).value)
      case None => Renewal(Failure(AuthChallengeMalformed), net)
      case Some(c) =>
        var fetch := Get(TokenUrl(c), None, None, true, net);
        match fetch.outcome
        case Failure(e) => Renewal(Failure(e), fetch.net)
        case Success(reply) =>
          if TokenOf(reply).Some? && headers.Some? then
            Renewal(Success(WithToken(headers.value, TokenOf(reply).value)), fetch.net)
          else Renewal(Failure(TokenFetchFailed), fetch.net)
  }

  /** `get(url, headers, data=data, return_json=return_json)`. */
  function Get(url: string, headers: Option<map<string, string>>, data: Option<Data>, returnJson: bool, net: Net): (x: Exchange)
    ensures |x.net.pending| <= |net.pending|
    ensures net.log + [Request(Http.Get, url, headers, Coerce(data))] <= x.net.log
    decreases |net.pending|, 1
  {
    Call(Http.Get, url, data, headers, returnJson, true, net)
  }

  /** `post(url, headers, data=data, return_json=return_json)`. */
  function Post(url: string, headers: Option<map<string, string>>, data: Option<Data>, returnJson: bool, net: Net): (x: Exchange)
    ensures net.log + [Request(Http.Post, url, headers, Coerce(data))] <= x.net.log
  {
    Call(Http.Post, url, data, headers, returnJson, true, net)
  }

  // ---------------------------------------------------------------------
  // The status dispatch of `call`.

  /** 500, 502 and 404 end the call after its one request: no token is
      fetched and the headers stay as they were. */
  lemma FatalStatusEndsCall(verb: Verb, url: string, data: Option<Data>, headers: Option<map<string, string>>,
                            returnJson: bool, retry: bool, net: Net)
    requires net.pending != [] && Fatal(net.pending[0].status)
    ensures var x := Call(verb, url, data, headers, returnJson, retry, net);
      && x.outcome == Failure(ServerError(net.pending[0].status))
      && x.net == Net(net.pending[1..], net.log + [Request(verb, url, headers, Coerce(data))])
      && x.headers == headers
  {
  }

  /** A 401 once the retry is spent is the "credentials expired" error,
      after exactly one request. */
  lemma SpentRetryExpires(verb: Verb, url: string, data: Option<Data>, headers: Option<map<string, string>>,
                          returnJson: bool, net: Net)
    requires net.pending != [] && net.pending[0].status == Unauthorized
    ensures var x := Call(verb, url, data, headers, returnJson, false, net);
      && x.outcome == Failure(CredentialsExpired)
      && x.net == Net(net.pending[1..], net.log + [Request(verb, url, headers, Coerce(data))])
  {
  }

  /** A 200 with return_json yields the parsed body, or the "malformed
      response" error when it is not JSON. */
  lemma OkParsesJson(verb: Verb, url: string, data: Option<Data>, headers: Option<map<string, string>>,
                     retry: bool, net: Net)
    requires net.pending != [] && net.pending[0].status == Ok
    ensures var x := Call(verb, url, data, headers, true, retry, net);
      && (net.pending[0].json.Some? ==> x.outcome == Success(Parsed(net.pending[0].json.value)))
      && (net.pending[0].json.None? ==> x.outcome == Failure(MalformedResponse))
      && |x.net.log| == |net.log| + 1
  {
  }

  /** Every other status, and a 200 without return_json, hands back the
      response unchanged. */
  lemma OtherStatusPassesThrough(verb: Verb, url: string, data: Option<Data>, headers: Option<map<string, string>>,
                                 returnJson: bool, retry: bool, net: Net)
    requires net.pending != []
    requires var s := net.pending[0].status; !Fatal(s) && s != Unauthorized && !(s == Ok && returnJson)
    ensures var x := Call(verb, url, data, headers, returnJson, retry, net);
      x.outcome == Success(Raw(net.pending[0])) && x.headers == headers && |x.net.log| == |net.log| + 1
  {
  }

  /** Without a response `requests` raises. */
  lemma NoResponseFails(verb: Verb, url: string, data: Option<Data>, headers: Option<map<string, string>>,
                        returnJson: bool, retry: bool, net: Net)
    requires net.pending == []
    ensures Call(verb, url, data, headers, returnJson, retry, net).outcome == Failure(NetworkFailure)
  {
  }

  /** A response `call` hands back is never one it treats as an error,
      nor a 200 it should have parsed: this holds of the retried call too. */
  lemma RawReplyIsNoError(verb: Verb, url: string, data: Option<Data>, headers: Option<map<string, string>>,
                          returnJson: bool, retry: bool, net: Net)
    ensures var x := Call(verb, url, data, headers, returnJson, retry, net);
      x.outcome.Success? && x.outcome.value.Raw? ==>
        var s := x.outcome.value.response.status;
        !Fatal(s) && s != Unauthorized && !(s == Ok && returnJson)
  {
    if retry && net.pending != [] && net.pending[0].status == Unauthorized {
      var u := Renew(net.pending[0], headers, Send(net, Request(verb, url, headers, Coerce(data))).1);
      if u.outcome.Success? {
        RetryStep(verb, url, data, headers, returnJson, net);
        RawReplyOfOneRequest(verb, url, Coerce(data), Some(u.outcome.value), returnJson, u.net);
      } else {
        FailedRenewalEndsCall(verb, url, data, headers, returnJson, net);
      }
    } else {
      if retry {
        RetryUnused(verb, url, data, headers, returnJson, retry, net);
      }
      RawReplyOfOneRequest(verb, url, data, headers, returnJson, net);
    }
  }

  lemma RawReplyOfOneRequest(verb: Verb, url: string, data: Option<Data>, headers: Option<map<string, string>>,
                             returnJson: bool, net: Net)
    ensures var x := Call(verb, url, data, headers, returnJson, false, net);
      x.outcome.Success? && x.outcome.value.Raw? ==>
        var s := x.outcome.value.response.status;
        !Fatal(s) && s != Unauthorized && !(s == Ok && returnJson)
  {
  }

  /** The retry flag matters only when the first response is a 401. */
  lemma RetryUnused(verb: Verb, url: string, data: Option<Data>, headers: Option<map<string, string>>,
                    returnJson: bool, retry: bool, net: Net)
    requires !(net.pending != [] && net.pending[0].status == Unauthorized)
    ensures Call(verb, url, data, headers, returnJson, retry, net) == Call(verb, url, data, headers, returnJson, false, net)
  {
  }

  // ---------------------------------------------------------------------
  // The one-shot retry.

  /** With the retry spent, `call` issues exactly one request. */
  lemma SpentRetryIssuesOneRequest(verb: Verb, url: string, data: Option<Data>, headers: Option<map<string, string>>,
                                   returnJson: bool, net: Net)
    ensures var x := Call(verb, url, data, headers, returnJson, false, net);
      x.net.log == net.log + [Request(verb, url, headers, Coerce(data))] && x.headers == headers
  {
  }

  /** A 401 with the retry available runs `update_token` once; when it
      fails, that failure ends the call and the headers stay as they were. */
  lemma FailedRenewalEndsCall(verb: Verb, url: string, data: Option<Data>, headers: Option<map<string, string>>,
                              returnJson: bool, net: Net)
    requires net.pending != [] && net.pending[0].status == Unauthorized
    requires Renew(net.pending[0], headers, Send(net, Request(verb, url, headers, Coerce(data))).1).outcome.Failure?
    ensures var u := Renew(net.pending[0], headers, Send(net, Request(verb, url, headers, Coerce(data))).1);
      Call(verb, url, data, headers, returnJson, true, net) == Exchange(Failure(u.outcome.error), headers, u.net)
  {
  }

  /** When it succeeds, the request is repeated exactly once, with the new
      headers and the body coerced a second time, and nothing is issued
      after it; the caller's headers are the new ones. */
  lemma RetryRepeatsOnce(verb: Verb, url: string, data: Option<Data>, headers: Option<map<string, string>>,
                         returnJson: bool, net: Net)
    requires net.pending != [] && net.pending[0].status == Unauthorized
    requires Renew(net.pending[0], headers, Send(net, Request(verb, url, headers, Coerce(data))).1).outcome.Success?
    ensures var u := Renew(net.pending[0], headers, Send(net, Request(verb, url, headers, Coerce(data))).1);
      var x := Call(verb, url, data, headers, returnJson, true, net);
      && x.net.log == u.net.log + [Request(verb, url, Some(u.outcome.value), Coerce(Coerce(data)))]
      && x.headers == Some(u.outcome.value)
  {
    var u := Renew(net.pending[0], headers, Send(net, Request(verb, url, headers, Coerce(data))).1);
    var h := u.outcome.value;
    RetryStep(verb, url, data, headers, returnJson, net);
    SpentRetryIssuesOneRequest(verb, url, Coerce(data), Some(h), returnJson, u.net);
    var y := Call(verb, url, Coerce(data), Some(h), returnJson, false, u.net);
    assert y.net.log == u.net.log + [Request(verb, url, Some(h), Coerce(Coerce(data)))] && y.headers == Some(h);
  }

  lemma RetryStep(verb: Verb, url: string, data: Option<Data>, headers: Option<map<string, string>>,
                  returnJson: bool, net: Net)
    requires net.pending != [] && net.pending[0].status == Unauthorized
    requires Renew(net.pending[0], headers, Send(net, Request(verb, url, headers, Coerce(data))).1).outcome.Success?
    ensures var u := Renew(net.pending[0], headers, Send(net, Request(verb, url, headers, Coerce(data))).1);
      Call(verb, url, data, headers, returnJson, true, net) == Call(verb, url, Coerce(data), Some(u.outcome.value), returnJson, false, u.net)
  {
  }

  /** The body of the repeated request: a dictionary is sent as it was,
      anything else is the JSON text of its JSON text. */
  lemma RetryReencodesBody(data: Option<Data>)
    ensures data.None? ==> Coerce(Coerce(data)) == None
    ensures data.Some? && data.value.Dict? ==> Coerce(Coerce(data)) == data
    ensures data.Some? && !data.value.Dict? ==> Coerce(Coerce(data)) == Some(JsonText(JsonText(data.value)))
  {
  }

  // ---------------------------------------------------------------------
  // `update_token`.

  /** Without a 401 that carries a challenge, `update_token` fails before
      building any token URL: no request is issued. */
  lemma RenewNeedsChallenge(resp: Response, headers: Option<map<string, string>>, net: Net)
    requires resp.status != Unauthorized || AuthHeader !in resp.headers
    ensures Renew(resp, headers, net) == Renewal(Failure(AuthChallengeMissing), net)
  {
  }

  /** A challenge that does not match the pattern fails, again with no
      request. */
  lemma RenewNeedsWellFormedChallenge(resp: Response, headers: Option<map<string, string>>, net: Net)
    requires resp.status == Unauthorized && AuthHeader in resp.headers
    requires Parse(resp.headers[AuthHeader]).None?
    ensures Renew(resp, headers, net) == Renewal(Failure(AuthChallengeMalformed), net)
  {
  }

  /** A well-formed challenge makes `update_token` GET the token URL built
      from it, without headers or body, as its first request. */
  lemma RenewFetchesTokenUrl(resp: Response, headers: Option<map<string, string>>, net: Net)
    requires resp.status == Unauthorized && AuthHeader in resp.headers
    requires Parse(resp.headers[AuthHeader]).Some?
    ensures var c := Parse(resp.headers[AuthHeader]).value;
      net.log + [Request(Http.Get, TokenUrl(c), None, None)] <= Renew(resp, headers, net).net.log
  {
    var c := Parse(resp.headers[AuthHeader]).value;
    var fetch := Get(TokenUrl(c), None, None, true, net);
    assert Renew(resp, headers, net).net == fetch.net;
  }

  /** A renewal succeeds only after a 401 with a well-formed challenge whose
      token URL answered with a JSON object holding "token": the headers
      then hold `Authorization: Bearer <that token>` and every other entry
      unchanged, and the server is as the token fetch left it. */
  lemma RenewMergesToken(resp: Response, headers: Option<map<string, string>>, net: Net)
    requires Renew(resp, headers, net).outcome.Success?
    ensures resp.status == Unauthorized && AuthHeader in resp.headers
    ensures Parse(resp.headers[AuthHeader]).Some?
    ensures var fetch := Get(TokenUrl(Parse(resp.headers[AuthHeader]).value), None, None, true, net);
      && fetch.outcome.Success? && TokenOf(fetch.outcome.value).Some? && headers.Some?
      && var token := TokenOf(fetch.outcome.value).value;
      var m := Renew(resp, headers, net).outcome.value;
      && m.Keys == headers.value.Keys + {Authorization}
      && m[Authorization] == BearerPrefix + token
      && (forall k :: k in headers.value && k != Authorization ==> m[k] == headers.value[k])
      && Renew(resp, headers, net).net == fetch.net
  {
  }

  /** Conversely, a token in the reply to the token URL and headers to put
      it in make the renewal succeed with exactly that token merged. */
  lemma RenewUsesToken(resp: Response, headers: Option<map<string, string>>, net: Net)
    requires resp.status == Unauthorized && AuthHeader in resp.headers
    requires Parse(resp.headers[AuthHeader]).Some?
    requires headers.Some?
    ensures var fetch := Get(TokenUrl(Parse(resp.headers[AuthHeader]).value), None, None, true, net);
      fetch.outcome.Success? && TokenOf(fetch.outcome.value).Some? ==>
        Renew(resp, headers, net)
          == Renewal(Success(WithToken(headers.value, TokenOf(fetch.outcome.value).value)), fetch.net)
  {
  }

  /** A token reply that is not a JSON object holding "token", or a caller
      without headers, is the "error getting token" failure. */
  lemma RenewNeedsToken(resp: Response, headers: Option<map<string, string>>, net: Net)
    requires resp.status == Unauthorized && AuthHeader in resp.headers
    requires Parse(resp.headers[AuthHeader]).Some?
    ensures var c := Parse(resp.headers[AuthHeader]).value;
      var fetch := Get(TokenUrl(c), None, None, true, net);
      fetch.outcome.Success? && (TokenOf(fetch.outcome.value).None? || headers.None?) ==>
        Renew(resp, headers, net) == Renewal(Failure(TokenFetchFailed), fetch.net)
  {
  }
}
