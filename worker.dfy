/** The worker tasks that change state: `update_token` updating the
    caller's header dictionary in place, `stream` writing a response to a
    file chunk by chunk, `download` and `download_task` moving the result
    into place. */
module Worker {
  import opened Wrappers
  import opened Http
  import opened Challenge
  import opened Caller
  import opened Content

  /** A header dictionary that callers hand to the worker tasks and that
      `update_token` updates. */
  class HeaderDict {
    var entries: map<string, string>

    constructor (entries: map<string, string>)
      ensures this.entries == entries
    {
      this.entries := entries;
    }
  }

  /** The contents of a possibly absent dictionary. */
  function Contents(headers: HeaderDict?): Option<map<string, string>>
    reads headers
  {
    if headers == null then None else Some(headers.entries)
  }

  /** `shutil.move(src, dst)` on the files of `files`, when src exists. */
  function Moved(files: map<string, seq<byte>>, src: string, dst: string): (m: map<string, seq<byte>>)
    requires src in files
    ensures m.Keys == files.Keys - {src} + {dst}
    ensures m[dst] == files[src]
    ensures forall k :: k in files && k != src && k != dst ==> m[k] == files[k]
  {
    (files - {src})[dst := files[src]]
  }

  /** The files the worker tasks create, write and move, by path. */
  class Disk {
    var files: map<string, seq<byte>>

    constructor ()
      ensures files == map[]
    {
      files := map[];
    }

    /** `open(name, 'wb')`: create or truncate. */
    method Create(name: string)
      modifies this
      ensures files == old(files)[name := []]
    {
      files := files[name := []];
    }

    /** `filey.write(bytes)` on a file opened for writing. */
    method Append(name: string, bytes: seq<byte>)
      requires name in files
      modifies this
      ensures files == old(files)[name := old(files)[name] + bytes]
    {
      files := files[name := files[name] + bytes];
    }

    /** `shutil.move(src, dst)`: false where it raises, for want of src. */
    method Move(src: string, dst: string) returns (ok: bool)
      modifies this
      ensures ok <==> src in old(files)
      ensures ok ==> files == Moved(old(files), src, dst)
      ensures !ok ==> files == old(files)
    {
      ok := src in files;
      if ok {
        files := Moved(files, src, dst);
      }
    }
  }

  // ---------------------------------------------------------------------
  // `update_token` on the caller's dictionary.

  /** `update_token(response, headers)`: on success the dictionary passed in
      is the one returned, updated as Renew says; on failure it is left as
      it was. */
  method UpdateToken(resp: Response, headers: HeaderDict?, net: Net) returns (r: Result<HeaderDict?, Error>, net': Net)
    modifies headers
    ensures var u := Renew(resp, old(Contents(headers)), net);
      && net' == u.net
      && (u.outcome.Success? ==> r == Success(headers) && Contents(headers) == Some(u.outcome.value))
      && (u.outcome.Failure? ==> r == Failure(u.outcome.error) && Contents(headers) == old(Contents(headers)))
    ensures r.Success? ==>
      && resp.status == Unauthorized && AuthHeader in resp.headers && Parse(resp.headers[AuthHeader]).Some?
      && var fetch := Caller.Get(TokenUrl(Parse(resp.headers[AuthHeader]).value), None, None, true, net);
      && fetch.outcome.Success? && TokenOf(fetch.outcome.value).Some? && headers != null
      && headers.entries[Authorization] == BearerPrefix + TokenOf(fetch.outcome.value).value
  {
    if resp.status != Unauthorized || Header(resp, AuthHeader).None? {
      return Failure(AuthChallengeMissing), net;
    }
    var challenge := Parse(Header(resp, AuthHeader).value);
    if challenge.None? {
      return Failure(AuthChallengeMalformed), net;
    }
    var fetch := Caller.Get(TokenUrl(challenge.value), None, None, true, net);
    net' := fetch.net;
    if fetch.outcome.Failure? {
      return Failure(fetch.outcome.error), net';
    }
    var token := TokenOf(fetch.outcome.value);
    if token.None? || headers == null {
      return Failure(TokenFetchFailed), net';
    }
    headers.entries := WithToken(headers.entries, token.value);
    r := Success(headers);
  }

  // ---------------------------------------------------------------------
  // `stream`.

  /** Content-Length, case-insensitively. */
  const LengthHeader := "content-length"

  /** `int(response.headers['Content-Length'])` when the header is there. */
  function ContentSize(resp: Response): (r: Result<Option<int>, Error>)
    ensures r == Success(None) <==> LengthHeader !in resp.headers
    ensures r.Failure? <==> LengthHeader in resp.headers && ParseInt(resp.headers[LengthHeader]).None?
    ensures r.Failure? ==> r.error == BadContentLength
    ensures LengthHeader in resp.headers && ParseInt(resp.headers[LengthHeader]).Some? ==>
      r == Success(ParseInt(resp.headers[LengthHeader]))
  {
    match Header(resp, LengthHeader)
    case None => Success(None)
    case Some(v) =>
      match ParseInt(v)
      case None => Failure(BadContentLength)
      case Some(n) => Success(Some(n))
  }

  /** The progress values `stream` reports while it writes resp out. */
  function ReportsFor(resp: Response): seq<int> {
    match ContentSize(resp)
    case Success(size) => Reports(size, |resp.chunks|)
    case Failure(_) => []
  }

  /** What `stream` leaves behind besides the file: the response it wrote
      out or the error, the caller's headers, and the server. */
  datatype Streamed = Streamed(outcome: Result<Response, Error>, headers: Option<map<string, string>>, net: Net)

  /** `stream(url, headers, stream_to, retry)` on values. */
  function StreamSpec(url: string, headers: Option<map<string, string>>, retry: bool, net: Net): (s: Streamed)
    ensures |s.net.pending| <= |net.pending|
    ensures net.log + [Request(Http.Get, url, headers, None)] <= s.net.log
    decreases retry
  {
    var sent := Send(net, Request(Http.Get, url, headers, None));
    match sent.0
    case None => Streamed(Failure(NetworkFailure), headers, sent.1)
    case Some(resp) =>
      if resp.status == Unauthorized && retry then
        var u := Renew(resp, headers, sent.1);
        match u.outcome
        case Failure(e) => Streamed(Failure(e), headers, u.net)
        case Success(h) => StreamSpec(url, Some(h), false, u.net)
      else if resp.status == Ok then
        if ContentSize(resp).Failure? then Streamed(Failure(BadContentLength), headers, sent.1)
        else Streamed(Success(resp), headers, sent.1)
      else Streamed(Failure(StreamFailed(resp.status)), headers, sent.1)
  }

  /** The `with open(stream_to, 'wb')` block of `stream`: the file is
      truncated and each chunk appended; a progress value is reported before
      the first chunk and after each, when the size is known. */
  method WriteChunks(chunks: seq<seq<byte>>, size: Option<int>, streamTo: string, disk: Disk) returns (progress: seq<int>)
    modifies disk
    ensures disk.files == old(disk.files)[streamTo := Flatten(chunks)]
    ensures progress == Reports(size, |chunks|)
  {
    var counter := 0;
    progress := if size.Some? then [counter] else [];
    disk.Create(streamTo);
    for i := 0 to |chunks|
      invariant disk.files == old(disk.files)[streamTo := Flatten(chunks[..i])]
      invariant size.Some? ==> counter == i * ChunkSize
      invariant progress == Reports(size, i)
    {
      assert chunks[..i + 1][..i] == chunks[..i];
      disk.Append(streamTo, chunks[i]);
      if size.Some? {
        counter := counter + ChunkSize;
        progress := progress + [counter];
      }
    }
    assert chunks[..|chunks|] == chunks;
  }

  /** `stream`: on success the file holds the bytes of the response and
      the progress values are those it reports; on failure the file system
      is untouched and nothing was reported. */
  method Stream(url: string, headers: HeaderDict?, streamTo: string, retry: bool, net: Net, disk: Disk)
    returns (r: Result<string, Error>, net': Net, progress: seq<int>)
    modifies headers, disk
    ensures var s := StreamSpec(url, old(Contents(headers)), retry, net);
      && net' == s.net && Contents(headers) == s.headers
      && (s.outcome.Success? ==>
            && r == Success(streamTo)
            && disk.files == old(disk.files)[streamTo := Flatten(s.outcome.value.chunks)]
            && progress == ReportsFor(s.outcome.value))
      && (s.outcome.Failure? ==> r == Failure(s.outcome.error) && disk.files == old(disk.files) && progress == [])
    decreases retry
  {
    var sent := Send(net, Request(Http.Get, url, Contents(headers), None));
    net' := sent.1;
    if sent.0.None? {
      return Failure(NetworkFailure), net', [];
    }
    var resp := sent.0.value;
    if resp.status == Unauthorized && retry {
      var renewed;
      renewed, net' := UpdateToken(resp, headers, net');
      if renewed.Failure? {
        return Failure(renewed.error), net', [];
      }
      r, net', progress := Stream(url, renewed.value, streamTo, false, net', disk);
      return;
    }
    if resp.status != Ok {
      return Failure(StreamFailed(resp.status)), net', [];
    }
    var size := ContentSize(resp);
    if size.Failure? {
      return Failure(BadContentLength), net', [];
    }
    progress := WriteChunks(resp.chunks, size.value, streamTo, disk);
    r := Success(streamTo);
  }

  // ---------------------------------------------------------------------
  // `download` and `download_task`.

  /** `os.path.join(dir, name)` for one name: an absolute name replaces
      the directory; otherwise a separator is put between them unless the
      directory is empty or already ends with one. */
  function PathJoin(dir: string, name: string): (p: string)
    ensures |name| <= |p| && p[|p| - |name|..] == name
    ensures name != [] && name[0] == '/' ==> p == name
    ensures !(name != [] && name[0] == '/') ==> dir <= p
  {
    if name != [] && name[0] == '/' then name
    else if dir == [] || dir[|dir| - 1] == '/' then dir + name
    else dir + "/" + name
  }

  /** The name `mkstemp(prefix=file_name + ".tmp.")` creates, for the temp
      directory tempDir (`gettempdir()`) and the random part suffix:
      the prefix is joined onto tempDir, so an absolute file_name gets its
      temporary file beside it and a relative one under tempDir. */
  function TempName(tempDir: string, fileName: string, suffix: string): string {
    PathJoin(tempDir, fileName + ".tmp." + suffix)
  }

  /** What `download` leaves behind besides the files: the response it
      streamed (None when the HEAD request turned it away) or the error,
      the caller's headers, and the server. */
  datatype Fetched = Fetched(outcome: Result<Option<Response>, Error>, headers: Option<map<string, string>>, net: Net)

  /** The statuses of the HEAD request for which `download` streams. */
  predicate Admitted(status: int) {
    status == Ok || status == Unauthorized
  }

  /** `download(url, file_name, headers)` on values. */
  function DownloadSpec(url: string, headers: Option<map<string, string>>, net: Net): (d: Fetched)
    ensures |d.net.pending| <= |net.pending|
    ensures net.log + [Request(Head, url, None, None)] <= d.net.log
  {
    var head := Send(net, Request(Head, url, None, None));
    match head.0
    case None => Fetched(Failure(NetworkFailure), headers, head.1)
    case Some(h) =>
      if Admitted(h.status) then
        var s := StreamSpec(url, headers, true, head.1);
        match s.outcome
        case Failure(e) => Fetched(Failure(e), s.headers, s.net)
        case Success(resp) => Fetched(Success(Some(resp)), s.headers, s.net)
      else Fetched(Success(None), headers, head.1)
  }

  /** Moving a fresh temporary file into place leaves the files as they
      were but for the target, which now holds what the temporary held. */
  lemma MoveTemp(files: map<string, seq<byte>>, tmp: string, dst: string, content: seq<byte>)
    requires tmp !in files && tmp != dst
    ensures Moved(files[tmp := []][tmp := content], tmp, dst) == files[dst := content]
  {
  }

  /** The temporary name is longer than the file name, wherever it is put,
      so it is never the same. */
  lemma TempNameDiffers(tempDir: string, fileName: string, suffix: string)
    ensures |TempName(tempDir, fileName, suffix)| > |fileName|
    ensures TempName(tempDir, fileName, suffix) != fileName
  {
    assert |fileName + ".tmp." + suffix| > |fileName|;
  }

  /** Where the temporary file goes: next to an absolute file name, with
      that name as its prefix; under the temp directory for a relative one. */
  lemma TempNamePlace(tempDir: string, fileName: string, suffix: string)
    ensures fileName != [] && fileName[0] == '/' ==> fileName + ".tmp." <= TempName(tempDir, fileName, suffix)
    ensures !(fileName != [] && fileName[0] == '/') ==> tempDir <= TempName(tempDir, fileName, suffix)
  {
  }

  /** `download`: an empty temporary file is created; when the HEAD request
      admits the URL the response is streamed into it and it is moved to
      fileName; otherwise it stays behind. fileName is returned in every
      case that does not fail. */
  method Download(url: string, fileName: string, headers: HeaderDict?, tempDir: string, suffix: string,
                  net: Net, disk: Disk)
    returns (r: Result<string, Error>, net': Net, progress: seq<int>)
    requires TempName(tempDir, fileName, suffix) !in disk.files
    modifies headers, disk
    ensures var d := DownloadSpec(url, old(Contents(headers)), net); var tmp := TempName(tempDir, fileName, suffix);
      && net' == d.net && Contents(headers) == d.headers
      && (d.outcome.Success? ==> r == Success(fileName))
      && (d.outcome.Success? && d.outcome.value.Some? ==>
            var resp := d.outcome.value.value;
            && disk.files == old(disk.files)[fileName := Flatten(resp.chunks)]
            && progress == ReportsFor(resp))
      && (d.outcome.Success? && d.outcome.value.None? ==> disk.files == old(disk.files)[tmp := []] && progress == [])
      && (d.outcome.Failure? ==> r == Failure(d.outcome.error) && disk.files == old(disk.files)[tmp := []] && progress == [])
  {
    var tmp := TempName(tempDir, fileName, suffix);
    TempNameDiffers(tempDir, fileName, suffix);
    disk.Create(tmp);
    var head := Send(net, Request(Head, url, None, None));
    net' := head.1;
    progress := [];
    if head.0.None? {
      return Failure(NetworkFailure), net', progress;
    }
    if Admitted(head.0.value.status) {
      var streamed;
      streamed, net', progress := Stream(url, headers, tmp, true, net', disk);
      if streamed.Failure? {
        return Failure(streamed.error), net', progress;
      }
      ghost var written := disk.files[tmp];
      var moved := disk.Move(tmp, fileName);
      MoveTemp(old(disk.files), tmp, fileName, written);
    }
    r := Success(fileName);
  }

  /** `download_task(url, headers, destination)`: download to
      `destination + "." + candidate`, then move that file to destination;
      a file that is not there to move is the "problem with download" error. */
  method DownloadTask(url: string, headers: HeaderDict?, destination: string, candidate: string,
                      tempDir: string, suffix: string, net: Net, disk: Disk)
    returns (r: Result<string, Error>, net': Net, progress: seq<int>)
    requires TempName(tempDir, destination + "." + candidate, suffix) !in disk.files
    modifies headers, disk
    ensures var fileName := destination + "." + candidate; var tmp := TempName(tempDir, fileName, suffix);
      var d := DownloadSpec(url, old(Contents(headers)), net);
      && net' == d.net && Contents(headers) == d.headers
      && (d.outcome.Success? && d.outcome.value.Some? ==>
            var resp := d.outcome.value.value;
            && r == Success(destination)
            && disk.files == Moved(old(disk.files)[fileName := Flatten(resp.chunks)], fileName, destination)
            && progress == ReportsFor(resp))
      && (d.outcome.Success? && d.outcome.value.None? ==>
            var left := old(disk.files)[tmp := []];
            && (fileName in left ==> r == Success(destination) && disk.files == Moved(left, fileName, destination))
            && (fileName !in left ==> r == Failure(DownloadIncomplete) && disk.files == left)
            && progress == [])
      && (d.outcome.Failure? ==> r == Failure(d.outcome.error) && disk.files == old(disk.files)[tmp := []] && progress == [])
  {
    var fileName := destination + "." + candidate;
    var downloaded;
    downloaded, net', progress := Download(url, fileName, headers, tempDir, suffix, net, disk);
    if downloaded.Failure? {
      return Failure(downloaded.error), net', progress;
    }
    var moved := disk.Move(downloaded.value, destination);
    if !moved {
      return Failure(DownloadIncomplete), net', progress;
    }
    r := Success(destination);
  }

  // ---------------------------------------------------------------------
  // What `stream` and `download` promise.

  /** Whatever `stream` writes out is a 200 response whose Content-Length,
      when present, is an integer. */
  lemma {:induction false} StreamedIsOk(url: string, headers: Option<map<string, string>>, retry: bool, net: Net)
    ensures var s := StreamSpec(url, headers, retry, net);
      s.outcome.Success? ==> s.outcome.value.status == Ok && ContentSize(s.outcome.value).Success?
    decreases retry
  {
    var sent := Send(net, Request(Http.Get, url, headers, None));
    if sent.0.Some? && sent.0.value.status == Unauthorized && retry {
      var u := Renew(sent.0.value, headers, sent.1);
      if u.outcome.Success? {
        StreamedIsOk(url, Some(u.outcome.value), false, u.net);
      }
    }
  }

  /** A 401 once the retry is spent ends `stream` without a token fetch. */
  lemma SpentStreamRetryFails(url: string, headers: Option<map<string, string>>, net: Net)
    requires net.pending != [] && net.pending[0].status == Unauthorized
    ensures var s := StreamSpec(url, headers, false, net);
      && s.outcome == Failure(StreamFailed(Unauthorized))
      && s.net == Net(net.pending[1..], net.log + [Request(Http.Get, url, headers, None)])
  {
  }

  /** With the retry spent, `stream` issues exactly one request and leaves
      the headers as they were. */
  lemma SpentStreamIssuesOneRequest(url: string, headers: Option<map<string, string>>, net: Net)
    ensures var s := StreamSpec(url, headers, false, net);
      s.net.log == net.log + [Request(Http.Get, url, headers, None)] && s.headers == headers
  {
  }

  /** On a 401 `stream` renews the token and asks once more, with the
      renewed headers and no further retry. */
  lemma StreamRetriesOnce(url: string, headers: Option<map<string, string>>, net: Net)
    requires net.pending != [] && net.pending[0].status == Unauthorized
    ensures var sent := Send(net, Request(Http.Get, url, headers, None));
      var u := Renew(net.pending[0], headers, sent.1);
      && (u.outcome.Success? ==> StreamSpec(url, headers, true, net) == StreamSpec(url, Some(u.outcome.value), false, u.net))
      && (u.outcome.Failure? ==> StreamSpec(url, headers, true, net) == Streamed(Failure(u.outcome.error), headers, u.net))
  {
  }

  /** A HEAD status other than 200 or 401 turns `download` away after that
      one request: nothing is streamed. */
  lemma RefusedUrlIsNotStreamed(url: string, headers: Option<map<string, string>>, net: Net)
    requires net.pending != [] && !Admitted(net.pending[0].status)
    ensures DownloadSpec(url, headers, net)
         == Fetched(Success(None), headers, Net(net.pending[1..], net.log + [Request(Head, url, None, None)]))
  {
  }

  /** A HEAD status of 200 or 401 is followed by the streaming GET, with the
      caller's headers; the HEAD request itself carries none. */
  lemma AdmittedUrlIsStreamed(url: string, headers: Option<map<string, string>>, net: Net)
    requires net.pending != [] && Admitted(net.pending[0].status)
    ensures net.log + [Request(Head, url, None, None), Request(Http.Get, url, headers, None)]
         <= DownloadSpec(url, headers, net).net.log
  {
    var head := Send(net, Request(Head, url, None, None));
    var s := StreamSpec(url, headers, true, head.1);
    assert head.1.log + [Request(Http.Get, url, headers, None)] <= s.net.log;
    assert net.log + [Request(Head, url, None, None)] + [Request(Http.Get, url, headers, None)]
        == net.log + [Request(Head, url, None, None), Request(Http.Get, url, headers, None)];
  }
  /** A 200 with a readable Content-Length is the response `stream` writes
      out, after that one request, with the headers as they were. */
  lemma StreamOkIsThatResponse(url: string, headers: Option<map<string, string>>, retry: bool, net: Net)
    requires net.pending != [] && net.pending[0].status == Ok && ContentSize(net.pending[0]).Success?
    ensures StreamSpec(url, headers, retry, net)
      == Streamed(Success(net.pending[0]), headers, Net(net.pending[1..], net.log + [Request(Http.Get, url, headers, None)]))
  {
  }

  /** Any status but 200, and but a 401 with the retry left, is the stream
      error naming that status. */
  lemma StreamOtherFails(url: string, headers: Option<map<string, string>>, retry: bool, net: Net)
    requires net.pending != [] && net.pending[0].status != Ok
    requires !(net.pending[0].status == Unauthorized && retry)
    ensures StreamSpec(url, headers, retry, net).outcome == Failure(StreamFailed(net.pending[0].status))
  {
  }

  /** After an admitting HEAD, `download` ends as `stream` does: its
      response or its error, its headers and its server. */
  lemma AdmittedGivesStreamOutcome(url: string, headers: Option<map<string, string>>, net: Net)
    requires net.pending != [] && Admitted(net.pending[0].status)
    ensures var s := StreamSpec(url, headers, true, Net(net.pending[1..], net.log + [Request(Head, url, None, None)]));
      DownloadSpec(url, headers, net)
        == Fetched(if s.outcome.Success? then Success(Some(s.outcome.value)) else Failure(s.outcome.error), s.headers, s.net)
  {
  }


  /** What `download` moves into place is a 200 response. */
  lemma DownloadedIsOk(url: string, headers: Option<map<string, string>>, net: Net)
    ensures var d := DownloadSpec(url, headers, net);
      d.outcome.Success? && d.outcome.value.Some? ==> d.outcome.value.value.status == Ok
  {
    var head := Send(net, Request(Head, url, None, None));
    if head.0.Some? && Admitted(head.0.value.status) {
      StreamedIsOk(url, headers, true, head.1);
    }
  }
}
