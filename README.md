# sregistry worker tasks, modelled in Dafny

This project models the shared worker tasks of Singularity Registry Client
(`sregistry/main/workers/tasks.py`). These are the functions a worker runs to
fetch image layers from a Docker-style registry:

- `call`, with its thin wrappers `get` and `post`: one HTTP request and its
  status dispatch. A 401 triggers exactly one re-authentication and one repeat.
- `update_token`: Docker Registry HTTP API v2 bearer-token authentication. It
  parses the `Www-Authenticate` challenge with the regular expression
  `^Bearer\s+realm="(.+)",service="(.+)",scope="(.+)",?`, builds the token URL
  by concatenation, GETs it, and writes `Authorization: Bearer <token>` into the
  caller's header dictionary in place.
- `stream`: a GET written to a file chunk by chunk. It has the same one-shot 401
  retry and a progress counter that grows by `1 << 20` per chunk.
- `download`: a HEAD pre-flight. A status of 200 or 401 streams to a temporary
  file and moves it to `file_name`. Any other status leaves the temporary file
  behind. `file_name` is returned either way.
- `download_task`: downloads to `destination.<random>` and moves the result to
  `destination`.

Every `bot.exit` is an `Error` value. The server is a `Net`: the queue of
responses it will give, plus the log of requests sent so far. Each request
takes the next response. An empty queue stands for `requests` raising. The
log is what the properties about "which requests, how many, in what order"
are stated on.

Modules:

- `Wrappers`: `Option` and `Result`.
- `Http`: requests, responses, the server, errors, and the body coercion of
  `call`.
- `Challenge`: the regular expression, modelled with greedy backtracking, and
  the token URL.
- `Caller`: `call`, `get`, `post`, and `update_token` on values.
- `Content`: `int()` of the Content-Length, the bytes written, and the
  progress values.
- `Worker`: the imperative tasks. `HeaderDict` is the caller's header
  dictionary, updated in place. `Disk` holds the files. There are methods for
  `update_token`, `stream`, `download` and `download_task`. Each state-changing
  method is proved against a function on values (`Renew`, `StreamSpec`,
  `DownloadSpec`).

The regular expression lemmas are the deepest part. `Groups` finds the last
quote of the first line, then the last `",scope="` before it, then the last
`",service="` before that (three flat searches). `GroupsSound` proves the
result is a way for the pattern to match. `GroupsGreedy` proves it is the one
greedy backtracking picks: group 1 as long as possible, then group 2, then
group 3.

## Model

| member | source | states |
|---|---|---|
| Challenge.Groups | sregistry/main/workers/tasks.py:260-261 | the three groups of `(.+)",service="(.+)",scope="(.+)"` after the prologue; what they are is stated by Challenge.GroupsSound (a valid split), Challenge.GroupsGreedy (the greedy one, found whenever a split exists) and Challenge.GroupsExactly (the delimited one when no stray quote exists) |
| Challenge.Match | sregistry/main/workers/tasks.py:259-264 | `re.match` of the pattern; Challenge.MatchSound, Challenge.MatchGreedy and Challenge.MatchCanonical state that its groups are a match, the greedy one, and fails only when no match exists |
| Challenge.Parse | sregistry/main/workers/tasks.py:259-268 | realm, service and the scope up to its first comma from the matched groups; Challenge.ParseCanonical states the result for a canonical header and Caller.RenewNeedsWellFormedChallenge what a failed parse does |
| Challenge.TokenUrl | sregistry/main/workers/tasks.py:270 | the concatenation `realm + '?service=' + service + '&expires_in=900&scope=' + scope`; Challenge.TokenUrlRoundTrip and Challenge.TokenUrlAmbiguous state when it can and cannot be read back |
| Challenge.Prologue | sregistry/main/workers/tasks.py:260-261 | when `^Bearer\s+realm="` matches, the header is `Bearer`, a non-empty run of whitespace, `realm="` and the returned rest |
| Challenge.PrologueComplete | sregistry/main/workers/tasks.py:260-261 | every header of that shape is accepted, with exactly the text after `realm="` left over |
| Challenge.GroupsSound | sregistry/main/workers/tasks.py:260-261 | the three groups found are non-empty, hold no newline, and are separated by `",service="`, `",scope="` and a closing quote in the text |
| Challenge.MatchSound | sregistry/main/workers/tasks.py:260-261 | the groups Match returns are a way for the whole pattern to match the header |
| Challenge.GroupsGreedy | sregistry/main/workers/tasks.py:260-261 | whenever any way to match exists, groups are found, and they are lexicographically at least as long as those of every way to match (backtracking of greedy `.+`) |
| Challenge.MatchGreedy | sregistry/main/workers/tasks.py:259-264 | the same greedy maximality for the whole header: `re.match` fails only when no way to match exists |
| Challenge.GroupsLongest | sregistry/main/workers/tasks.py:260-261 | the groups end, in order, at or beyond any positions of the delimiters and quote that fit |
| Challenge.EndsGreatest | sregistry/main/workers/tasks.py:260-261 | the three searches find positions at or beyond any that fit |
| Challenge.LastQuoteMax | sregistry/main/workers/tasks.py:260 | the quote that ends group 3 is the last quote on the first line |
| Challenge.LastScopeMax | sregistry/main/workers/tasks.py:260 | group 2 ends at the last `",scope="` that leaves group 3 non-empty |
| Challenge.LastServiceMax | sregistry/main/workers/tasks.py:260 | group 1 ends at the last `",service="` that leaves groups 1 and 2 non-empty |
| Challenge.EndsExactly | sregistry/main/workers/tasks.py:260-261 | when the only quotes are those of the delimiters and the closing one, the searches stop exactly there |
| Challenge.GroupsExactly | sregistry/main/workers/tasks.py:260-268 | a way to match whose groups and tail hold no quote is the one found |
| Challenge.MatchCanonical | sregistry/main/workers/tasks.py:259-268 | `Bearer realm="R",service="S",scope="X"` plus a quote-free tail matches with groups exactly R, S, X (no quote or newline in them) |
| Challenge.ParseCanonical | sregistry/main/workers/tasks.py:259-268 | such a header parses to realm R, service S and scope = X up to its first comma |
| Challenge.Before | sregistry/main/workers/tasks.py:268 | `x.split(',')[0]`: a prefix of x holding no comma, followed in x by a comma unless it is all of x (with a newline it is the first line, the only text `.` covers) |
| Challenge.BeforeSeparator | sregistry/main/workers/tasks.py:268 | `split(',')[0]` of `a + "," + b` is a when a has no comma |
| Challenge.SplitsFit | sregistry/main/workers/tasks.py:260-261 | a way to match lies on the first line, the only text `.` can cover |
| Challenge.TokenUrlRoundTrip | sregistry/main/workers/tasks.py:270 | the token URL `realm?service=S&expires_in=900&scope=X` splits back into its challenge when the realm has no `?` and the service no `&` |
| Challenge.TokenUrlAmbiguous | sregistry/main/workers/tasks.py:270 | no escaping happens: a service holding `&expires_in=900&scope=` gives the same URL as a different challenge |
| Caller.TokenOf | sregistry/main/workers/tasks.py:275 | `response["token"]` of the token reply; Caller.RenewMergesToken, Caller.RenewUsesToken and Caller.RenewNeedsToken state that renewal succeeds exactly when it gives a token, and merges that token |
| Caller.WithToken | sregistry/main/workers/tasks.py:275-277 | the merged headers have Authorization = `Bearer <token>`, every other key unchanged, and no key removed |
| Caller.Call | sregistry/main/workers/tasks.py:175-241 | `call` issues its request first, with the coerced body, and never consumes more responses than there are |
| Caller.Get | sregistry/main/workers/tasks.py:84-92 | `get` issues a GET of the url with the given headers and coerced body first |
| Caller.Post | sregistry/main/workers/tasks.py:73-81 | `post` issues a POST of the url with the given headers and coerced body first |
| Caller.Renew | sregistry/main/workers/tasks.py:244-282 | `update_token` on values: only appends to the log and never consumes more responses than there are |
| Caller.FatalStatusEndsCall | sregistry/main/workers/tasks.py:207-214 | 500, 502 and 404 are errors after one request, with no token fetched and the headers unchanged |
| Caller.SpentRetryExpires | sregistry/main/workers/tasks.py:217-230 | a 401 with `retry=False` is the "credentials expired" error after one request |
| Caller.OkParsesJson | sregistry/main/workers/tasks.py:232-239 | a 200 with `return_json` gives the parsed body, or the malformed-response error when it is not JSON |
| Caller.OtherStatusPassesThrough | sregistry/main/workers/tasks.py:232-241 | every other status, and a 200 without `return_json`, returns the response unchanged |
| Caller.NoResponseFails | sregistry/main/workers/tasks.py:200-204 | no response is a failure |
| Caller.RawReplyIsNoError | sregistry/main/workers/tasks.py:207-241 | a response handed back, after a retry too, never has a fatal status or a 401, nor is it a 200 that should have been parsed |
| Caller.RawReplyOfOneRequest | sregistry/main/workers/tasks.py:207-241 | the same for a call with the retry spent |
| Caller.RetryUnused | sregistry/main/workers/tasks.py:217-219 | the retry flag matters only when the first response is a 401 |
| Caller.SpentRetryIssuesOneRequest | sregistry/main/workers/tasks.py:217-230 | with the retry spent, exactly one request is issued and the headers are unchanged |
| Caller.FailedRenewalEndsCall | sregistry/main/workers/tasks.py:217-224 | a 401 whose re-authentication fails ends the call with that failure |
| Caller.RetryRepeatsOnce | sregistry/main/workers/tasks.py:217-227 | after a successful re-authentication the request is repeated exactly once, with the new headers and the body coerced again, and nothing follows |
| Caller.RetryStep | sregistry/main/workers/tasks.py:222-227 | the retried `call` is the call with the renewed headers and `retry=False` |
| Caller.RetryReencodesBody | sregistry/main/workers/tasks.py:196-227 | on the repeat a dict is sent as it was, and any other body as the JSON text of its JSON text |
| Caller.RenewNeedsChallenge | sregistry/main/workers/tasks.py:255-257 | without a 401 that carries `Www-Authenticate`, `update_token` fails and issues no request |
| Caller.RenewNeedsWellFormedChallenge | sregistry/main/workers/tasks.py:259-265 | a challenge that does not match is an error, with no request |
| Caller.RenewFetchesTokenUrl | sregistry/main/workers/tasks.py:270-272 | a matching challenge makes the first request a GET of the token URL, with no headers or body |
| Caller.RenewMergesToken | sregistry/main/workers/tasks.py:255-282 | a successful renewal came from a 401 with a matching challenge whose token URL `get` answered with a "token": the headers map Authorization to `Bearer ` plus exactly that token, keep every other entry, and the server is as the token fetch left it |
| Caller.RenewUsesToken | sregistry/main/workers/tasks.py:270-282 | conversely, a token in the reply to the token URL and headers to update make the renewal succeed with that token merged |
| Caller.RenewNeedsToken | sregistry/main/workers/tasks.py:274-280 | a reply without a "token" key, or no headers, is the "error getting token" failure |
| Http.Send | sregistry/main/workers/tasks.py:200-204 | each request is logged and takes the next response, if there is one |
| Http.Header | sregistry/main/workers/tasks.py:255-259 | a header is found exactly when its (lower-cased) name is present |
| Http.Coerce | sregistry/main/workers/tasks.py:196-198 | no data stays none, a dict is kept, and anything else becomes exactly its JSON text |
| Content.StripStart | sregistry/main/workers/tasks.py:154 | `int()` drops leading whitespace (what `str.isspace` accepts, except U+001C to U+001F): the result is a suffix that does not start with such whitespace, and everything dropped is such whitespace |
| Content.StripEnd | sregistry/main/workers/tasks.py:154 | and trailing whitespace of the same kind: the result is a prefix that does not end with it, and everything dropped is such whitespace |
| Content.Strip | sregistry/main/workers/tasks.py:154 | the text `int()` reads between its surrounding whitespace: it neither starts nor ends with whitespace `int()` skips |
| Content.Signed | sregistry/main/workers/tasks.py:154 | an optional `-` or `+` and a numeral, negated after `-`; Content.ParseDigits, Content.NegativeText and Content.NumeralChars state what it reads |
| Content.ParseInt | sregistry/main/workers/tasks.py:154 | `int()` of the header text; Content.ParseNatural, Content.ParseDigits, Content.NegativeText and Content.ParseIntRejects state what it reads and what it rejects |
| Content.Digits | sregistry/main/workers/tasks.py:154 | the decimal writing of a length is a non-empty run of digits |
| Content.DigitsValue | sregistry/main/workers/tasks.py:154 | the value of the decimal writing of n is n |
| Content.ParseNatural | sregistry/main/workers/tasks.py:154 | `int()` reads a Content-Length written in decimal back as its value |
| Content.ParseDigits | sregistry/main/workers/tasks.py:154 | a run of digits is read as its value |
| Content.NegativeText | sregistry/main/workers/tasks.py:154 | a minus sign and a run of digits are read as minus its value |
| Content.ParseIntRejects | sregistry/main/workers/tasks.py:154 | text holding a character that is not a digit, underscore, sign or whitespace `int()` skips is rejected |
| Content.RunIsNumeral | sregistry/main/workers/tasks.py:154 | a run of digits is a valid numeral |
| Content.NumeralChars | sregistry/main/workers/tasks.py:154 | a valid numeral holds only digits and underscores |
| Content.SeparatorRejected | sregistry/main/workers/tasks.py:154 | a character from U+001C to U+001F anywhere in the text makes `int()` raise, although `str.isspace` counts it as whitespace |
| Content.StripKeeps | sregistry/main/workers/tasks.py:154 | stripping keeps every character that is not whitespace `int()` skips |
| Content.Progress | sregistry/main/workers/tasks.py:153-166 | n chunks give n + 1 progress reports |
| Content.ProgressAt | sregistry/main/workers/tasks.py:153-166 | after k chunks the counter is k * 2^20, whatever the chunks' lengths |
| Content.ProgressIncreases | sregistry/main/workers/tasks.py:153-166 | the reports strictly increase |
| Content.ProgressCoversBytes | sregistry/main/workers/tasks.py:157-166 | when no chunk exceeds 2^20 bytes, the final report is at least the number of bytes written |
| Content.ProgressOvershoots | sregistry/main/workers/tasks.py:157-166 | when no chunk exceeds 2^20 bytes and one is shorter, the final report exceeds the number of bytes written |
| Worker.Disk.Create | sregistry/main/workers/tasks.py:158 | opening for writing makes the file empty and changes no other file |
| Worker.Disk.Append | sregistry/main/workers/tasks.py:160 | a write appends the chunk to that file only |
| Worker.Disk.Move | sregistry/main/workers/tasks.py:120 | a move succeeds exactly when the source exists; it then removes the source and puts its bytes at the target; otherwise nothing changes |
| Worker.UpdateToken | sregistry/main/workers/tasks.py:244-282 | on success the dictionary passed in is returned, now holding Renew's merged headers, with Authorization `Bearer ` plus the token the token URL returned; on failure it is unchanged and the error is Renew's |
| Worker.ContentSize | sregistry/main/workers/tasks.py:152-154 | no Content-Length gives no size; a present one gives exactly the value `int()` reads from it, or the Content-Length error exactly when `int()` raises |
| Worker.StreamSpec | sregistry/main/workers/tasks.py:126-173 | `stream` first issues a GET of the url with the caller's headers and no body, and never consumes more responses than there are |
| Worker.WriteChunks | sregistry/main/workers/tasks.py:151-166 | the file holds the concatenated chunks, and the progress values are 0 and then k * 2^20 after each chunk k, when a Content-Length is given |
| Worker.Stream | sregistry/main/workers/tasks.py:126-173 | on success the file holds the response's bytes and the reported progress is as above; on failure no file is touched and nothing is reported; headers and server end as StreamSpec says |
| Worker.StreamOkIsThatResponse | sregistry/main/workers/tasks.py:138-171 | a first response of 200 with a readable Content-Length is exactly the response `stream` writes out, after that one GET, with the headers unchanged |
| Worker.StreamOtherFails | sregistry/main/workers/tasks.py:138-173 | any other status, except a 401 with the retry left, ends `stream` with the error naming that status |
| Worker.StreamedIsOk | sregistry/main/workers/tasks.py:143-171 | what `stream` writes out is a 200 response with a well-formed Content-Length, also after a retry |
| Worker.SpentStreamRetryFails | sregistry/main/workers/tasks.py:144-173 | a 401 with the retry spent is the stream error, after one request and no token fetch |
| Worker.SpentStreamIssuesOneRequest | sregistry/main/workers/tasks.py:138-173 | with the retry spent, `stream` issues exactly one request and keeps the headers |
| Worker.StreamRetriesOnce | sregistry/main/workers/tasks.py:144-146 | a 401 renews the token and streams again once, with the renewed headers and no further retry; a failed renewal ends it |
| Worker.DownloadSpec | sregistry/main/workers/tasks.py:95-123 | `download` first issues a bare HEAD of the url and never consumes more responses than there are; Worker.Download, Worker.RefusedUrlIsNotStreamed, Worker.AdmittedUrlIsStreamed and Worker.DownloadedIsOk state the rest |
| Worker.TempName | sregistry/main/workers/tasks.py:105 | `mkstemp(prefix=file_name + ".tmp.")`'s path: the prefix joined onto the temp directory; Worker.TempNameDiffers and Worker.TempNamePlace state where it lies |
| Worker.Download | sregistry/main/workers/tasks.py:95-123 | the temporary file is created; an admitted URL ends with its bytes at `file_name` and the temporary gone; a refused one leaves the empty temporary; `file_name` is returned unless the HEAD request or the stream fails |
| Worker.AdmittedGivesStreamOutcome | sregistry/main/workers/tasks.py:114-120 | after a HEAD of 200 or 401, `download` ends exactly as `stream` does on the rest of the server: its response or its error, its headers and its server |
| Worker.PathJoin | sregistry/main/workers/tasks.py:105 | `os.path.join(dir, name)`: the result ends with name; an absolute name is the result, a relative one follows dir |
| Worker.Moved | sregistry/main/workers/tasks.py:120 | `shutil.move(src, dst)` on the files: src is gone unless it is dst, dst holds src's bytes, every other file is unchanged |
| Worker.RefusedUrlIsNotStreamed | sregistry/main/workers/tasks.py:114-123 | a HEAD status other than 200 or 401 ends `download` successfully after that one request |
| Worker.AdmittedUrlIsStreamed | sregistry/main/workers/tasks.py:114-115 | a HEAD status of 200 or 401 is followed by the streaming GET with the caller's headers; the HEAD carries none |
| Worker.DownloadedIsOk | sregistry/main/workers/tasks.py:113-120 | what `download` moves into place is a 200 response |
| Worker.MoveTemp | sregistry/main/workers/tasks.py:105-120 | moving the fresh temporary file into place changes only the target file |
| Worker.TempNameDiffers | sregistry/main/workers/tasks.py:105 | the temporary name is longer than the file name, so never the file name itself |
| Worker.TempNamePlace | sregistry/main/workers/tasks.py:105 | an absolute file name gets its temporary file beside it, prefixed by `file_name.tmp.`; a relative one gets it under the temp directory |
| Worker.DownloadTask | sregistry/main/workers/tasks.py:29-59 | the download goes to `destination.<candidate>` and is moved to `destination`, which is returned; a missing file to move is the "problem with download" error |

## Left out

- Networking and TLS: `requests.get`, `post` and `head` are the `Net` oracle. `DISABLE_SSL_CHECK` and the `verify` flag are not modelled.
- Logging, the progress bar's drawing and `sys.stdout.write`. Of the `show_progress` calls only the `iteration` values are kept; the `total` (`content_size`, which may be 0 or negative) and `length` arguments are not recorded.
- JSON parsing and serialisation internals. A response's body is an optional `JsonDoc`, and `json.dumps` is the symbolic `JsonText`.
- File system details. The random names from `mkstemp` and `_get_candidate_names`, and the temp directory `gettempdir()` returns, are parameters. The file `mkstemp` creates is required to be fresh. Directories as move targets, permissions and partial writes are not modelled.
- `bot.exit` ends the process. Here it is an `Error` result, and files written before it stay.
- Concurrency and multiprocessing scheduling of `download_task`.
- `call`'s `stream` keyword is only forwarded to `requests`. `get`'s unused `token` parameter and `download`'s unused `show_progress` parameter are dropped.
- `download` checks `isinstance(response, HTTPError)` after `stream`. That branch cannot be reached, because `stream` returns a path or exits.
- Response header names are compared as lower-cased keys, which is how the case-insensitive dictionary behaves for ASCII names. Non-ASCII case folding is not modelled.
- Content.Signed: `int()` also accepts non-ASCII Unicode digits. The model accepts only `0`–`9`.
- Content.ParseNatural: the round trip is stated for the natural numbers a Content-Length holds. Python's limit on integer string conversion (since 3.11, and in the 3.7–3.10 security releases) makes `int()` raise for more than 4300 digits; that limit is not modelled, so the round trip covers every natural. Negative text is covered by Content.NegativeText, not by a `str()` round trip.
- Caller.Renew: `update_token` fetches the token with `get(token_url)`, which is `call` with `retry=True` and no headers. A token endpoint that itself answers 401 with a challenge starts another `update_token`, and that one's `get` can do the same again. In the source, such a chain is bounded only by Python's recursion limit. In the model each step consumes a response, so the chain ends when `Net.pending` runs out. The one-retry bound holds for each call, and there is no bound on the total number of token requests.
- Http.Coerce: `json.dumps` is taken as total. `Other` stands only for values `json.dumps` can serialise. In the source, a body it cannot serialise (bytes, a set) raises TypeError at tasks.py:197-198 before any request is sent. That error path is not modelled.
- Challenge.Parse: only the regex's behaviour is modelled. The optional trailing `,?` has no effect on `re.match` and is omitted.
