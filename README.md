# cf-downloader in Dafny

A model of the decision logic of `cf-downloader`, a command-line tool that
downloads one file over HTTP(S) through an HTTP proxy. It presents a
browser-like TLS fingerprint and resumes an interrupted download with a
`Range` request.

The model has three parts.

- **The download client** (`Client`, in `client.dfy`). `setHeaders` copies
  either the per-request headers or the three default headers into a request.
  `Header.Set` canonicalises each key.
- **The retrying, resuming `DownloadFile` loop** (also in `client.dfy`).
  - The network is a script with one `Exchange` per attempt: no response, or
    a status, a content length, the body reads and whether opening the file
    fails.
  - The file on disk is a byte sequence, `None` when absent.
  - The progress bar is the list of `Event`s reported to it.
  - `Stream`, `Attempt`, `Run` and `Download` state what the loop does.
    `Client.Client.DownloadFile` performs it step by step and is proved equal
    to them.
  - `download_facts.dfy` and `header_facts.dfy` prove the loop's promises
    about those functions.
- **The transport's dispatch** (`Transport`, in `transport.dfy`). The
  scheme and proxy checks, the CONNECT destination and request text, the
  reaction to the proxy's answer, and the ALPN protocol choice. The dial, the
  TLS library and the HTTP engines are oracles (`Wire`).
- **The command** (`Cli`, in `cli.dfy`).
  - Defaulting the output directory.
  - Turning the `-H key=value` flags into request options.
  - Deriving the output file name from the URL and joining it to the output
    directory.
  - Handing everything to the client.

`go_strings.dfy`, `go_path.dfy` and `http.dfy` state the Go library
behaviour the model relies on:
- `strings.TrimSpace`, `strings.SplitN(s, "=", 2)` and `%d` formatting;
- `filepath.Base`, `Clean` and `Join` on Unix;
- `textproto.CanonicalMIMEHeaderKey`, and the header map and request fields
  that the client updates in place.

Go's map iteration order is a free choice: `Client.Client.SetEach` picks
any remaining key. The `SetAll` predicate therefore states only what holds
for every order.

## Model

| member | source | states |
|---|---|---|
| `Transport.ConnectTarget` | core/request/client.go:92-95 | The CONNECT destination always names a port. It is the host unchanged when the host has a port, and the host plus ":443" exactly when it has none. |
| `Transport.Port` | core/request/client.go:93 | `URL.Port()` gives the digits after the host's last ':', or "" when the text after it is not all digits. |
| `Transport.ConnectRequestRoundTrip` | core/request/client.go:96 | A proxy reading the CONNECT text gets back exactly the destination and the Host header, for any host without a space. |
| `Transport.RouteAsWritten` | core/request/client.go:69-83 | The scheme and proxy checks as written: plain HTTP goes direct, and the program crashes exactly for an https request when the proxy flag was left empty, because the nil proxy function is called. |
| `Transport.UnsetProxyCrashes` | core/request/client.go:77 | As written, an https request with no proxy configured calls a nil proxy function and crashes. The intended check answers "proxy URL is not configured". |
| `Transport.Route` | core/request/client.go:69-83 | "http" goes to the plain transport. Any scheme but http and https is refused as unsupported. https with no usable proxy is refused as "not configured". Otherwise the tunnel goes to the proxy's host. Each case holds if and only if its condition does. |
| `Transport.RouteMatchesSource` | core/request/client.go:69-83 | Outside the crashing case the intended checks decide exactly as the written ones. |
| `Transport.Negotiate` | core/request/client.go:127-153 | ALPN "h2" selects HTTP/2 and declares HTTP/2.0 (2, 0). "http/1.1" or "" selects HTTP/1.1 (1, 1). Any other value is an "unsupported ALPN" error naming it. The declared name spells the declared numbers. |
| `Transport.RoundTrip` | core/request/client.go:68-154 | Plain and refused requests never dial. A tunnel dials the proxy's host, and the CONNECT text is the one built from the URL host. The TLS session comes up if and only if the dial, the CONNECT write, a 200 from the proxy, the preset and the handshake all succeed. Otherwise the result is the error of the first step that failed (a proxy status other than 200 is named in it), and an opened connection is closed. After the handshake the request's protocol fields and the engine follow the ALPN, and the result is that engine's answer. |
| `Transport.TunnelError` | core/request/client.go:86-119 | The tunnel steps in the order RoundTrip takes them: no error if and only if every step succeeds. |
| `Http.CanonicalKeySameLetters` | core/request/client.go:184 | `Header.Set` changes only the letter case of a key. |
| `Http.CanonicalKeyIdempotent` | core/request/client.go:184 | A canonical key is its own canonical form. |
| `Http.SameKeyIgnoringCase` | core/request/client.go:184 | Two token keys that differ only in case are stored under the same name. |
| `Http.SetAllDistinct` | core/request/client.go:183-185 | When no two source keys share a canonical form, each source value ends up under its key's canonical name, whatever the iteration order. |
| `Http.Request.constructor` | core/request/client.go:236 | A new request has no headers and protocol HTTP/1.1. |
| `Http.Request.SetHeader` | core/request/client.go:184 | `Header.Set` replaces whatever the canonical key held and leaves every other header and the protocol fields unchanged. |
| `Http.Request.SetProto` | core/request/client.go:130-132 | Sets the three protocol fields and leaves the headers unchanged. |
| `GoStrings.TrimSpace` | cmd/root.go:54 | The result neither starts nor ends with white space. It is the input without its leading and trailing white space. |
| `GoStrings.SplitN2` | cmd/root.go:52 | One part, the input itself, when the separator does not occur. Otherwise two parts around the FIRST separator. |
| `GoStrings.SplitN2Unique` | cmd/root.go:52 | The split at the first separator is the only one whose first part is free of the separator. |
| `GoStrings.DecimalRoundTrip` | core/request/client.go:244 | Reading back the digits that `%d` writes gives the number. |
| `GoStrings.DecimalInjective` | core/request/client.go:244 | Different offsets give different `Range` values. |
| `GoPath.Base` | cmd/root.go:65 | `filepath.Base` is never empty. It is "/" or free of slashes, and "." for the empty path. |
| `GoPath.BaseOfElement` | cmd/root.go:65 | A path ending in a plain element has that element as its base. |
| `GoPath.BaseIgnoresTrailingSlashes` | cmd/root.go:65 | Trailing slashes do not change the base. |
| `GoPath.BaseOfLast` | cmd/root.go:65 | The base of a path is its last element, whatever slashes follow it. |
| `GoPath.JoinFileName` | cmd/root.go:69 | Joining a directory and a plain name gives the cleaned directory, a slash and the name, and the result's base is the name. |
| `GoPath.CleanShape` | cmd/root.go:69 | A cleaned path ends in a slash only when it is the root. |
| `Client.HeaderSource` | core/request/client.go:180-193 | The headers copied are the per-request map whenever options carry one (even an empty one), and the defaults otherwise. They are never a mix. |
| `Client.RangeKeyIsCanonical` | core/request/client.go:244 | "Range" is stored under its own name. |
| `Client.WriteAtShape` | core/request/client.go:309 | A write at an offset keeps the bytes before it, puts the data at the offset and keeps any bytes beyond the data's end. |
| `Client.ReadOnce` | core/request/client.go:306-332 | One read either ends the read loop with the file, reports and ending `Stream` gives, or continues it exactly as `Stream` continues. |
| `Client.StreamBody` | core/request/client.go:305-333 | The read loop produces exactly the file, progress events and ending that `Stream` specifies. |
| `Client.Client.constructor` | core/request/client.go:156-178 | The proxy is left unset for an empty proxy flag and is fixed to the parsed URL otherwise. The defaults are the three browser headers. The retry count is kept, and the delay is converted to nanoseconds. |
| `Client.Client.SetHeaders` | core/request/client.go:180-193 | The request's headers become the old ones with every entry of `HeaderSource` set. The protocol fields are untouched. |
| `Client.Client.SetEach` | core/request/client.go:183-185 | Setting every entry of a map, in any order, gives the canonical keys with values from the map, and leaves every other header as it was. |
| `Client.Client.DownloadFile` | core/request/client.go:216-341 | The loop's outcome, final file, progress events, request offsets, attempts and delays are exactly `Download`. Every request sent carries the `setHeaders` headers plus `Range` for its offset. |
| `Client.Client.TryOnce` | core/request/client.go:228-248 | One pass of the attempt loop is exactly `Attempt`. No request is sent when the URL does not make one, and otherwise one request with the right headers. |
| `Client.Client.BuildRequest` | core/request/client.go:236-245 | The request carries the `setHeaders` headers, plus `Range: bytes=N-` when the file already holds N > 0 bytes. |
| `Client.Client.AttemptOnce` | core/request/client.go:248-333 | Handling the response (status switch, length check, open, read loop) is exactly `Attempt`. |
| `DownloadFacts.ReportsAddUp` | core/request/client.go:306-319 | The per-chunk reports add up to the number of bytes delivered. |
| `DownloadFacts.WriteAtEnd` | core/request/client.go:288-291 | Writing at the end of the file appends. |
| `DownloadFacts.WriteNothing` | core/request/client.go:307 | An empty read changes nothing. |
| `DownloadFacts.WriteAtTwice` | core/request/client.go:309 | Two consecutive writes are one write of both. |
| `DownloadFacts.StreamAppends` | core/request/client.go:288-319 | In append mode, without a disk fault, the file is the old file followed by every delivered byte. |
| `DownloadFacts.StreamOverwrites` | core/request/client.go:287-319 | Without `O_APPEND` the delivered bytes overwrite the file from the offset and nothing is truncated. |
| `DownloadFacts.StreamReports` | core/request/client.go:305-332 | Without a disk fault there is one report of exactly n per read of n > 0 bytes, then success at end of body or failure on a read error. |
| `DownloadFacts.StreamEndsOnce` | core/request/client.go:305-332 | Whatever happens, exactly one success or failure is reported, last. Every report before it is positive. Success is reported if and only if the body was read to its end. |
| `DownloadFacts.AttemptShape` | core/request/client.go:228-245 | An attempt sends at most one request, whose offset is the file size. The last attempt always finishes. |
| `DownloadFacts.AttemptRejected` | core/request/client.go:259-283 | An unexpected status, or a 200/206 with a content length <= 0, leaves the file and the bar alone and is retried if and only if attempts remain. |
| `DownloadFacts.AttemptResumes` | core/request/client.go:262-331 | A 206 after a request for the rest of a non-empty file appends every delivered byte after the old ones. The bar starts at the old size and totals old size plus content length. The attempt succeeds if and only if the body is read to its end. A read error is retried if and only if the attempt is not the last, and the last one fails with the read error. |
| `DownloadFacts.AttemptRestarts` | core/request/client.go:260-331 | A 200 restarts at byte 0 whatever was asked for. The bar totals the content length, and the bytes overwrite from the start. Success and read errors are decided as for `AttemptResumes`. |
| `DownloadFacts.StreamFaultAppends` | core/request/client.go:288-317 | In append mode, a write the disk refuses leaves the old file, the bytes of every earlier read, then the part of the refused read that reached the disk. |
| `DownloadFacts.StreamFaultOverwrites` | core/request/client.go:287-317 | Without `O_APPEND`, the same bytes overwrite the file from the offset, and nothing is truncated. |
| `DownloadFacts.StreamFaultReports` | core/request/client.go:305-318 | A refused write ends the read loop with a report for each earlier chunk and then one failure. The refused chunk is not reported. |
| `DownloadFacts.AttemptWriteFault` | core/request/client.go:284-317 | A 200 or 206 whose body meets a refused write keeps the bytes that reached the file, reports the earlier chunks and then one failure, and is retried if and only if it is not the last attempt. The last attempt fails with the write error. |
| `DownloadFacts.StaleTailSurvives` | core/request/client.go:287-291 | A 200 body shorter than the old file leaves the old file's tail in place, because the file is opened without `O_TRUNC`. |
| `DownloadFacts.RunCounts` | core/request/client.go:222-226 | From attempt k there are at most maxRetries - k attempts, a delay before each but the first, and at most one request each. The "failed after N attempts" error occurs exactly when no attempt is left. |
| `DownloadFacts.DownloadCounts` | core/request/client.go:216-341 | At most max(maxRetries, 0) attempts and one delay fewer. With maxRetries <= 0 no attempt is made and the download fails. A directory that cannot be made fails first. |
| `DownloadFacts.RangeNotSatisfiableEnds` | core/request/client.go:264-266 | A 416 ends the download in success at once, whatever attempts remain, and leaves the file untouched. |
| `DownloadFacts.RunOffline` | core/request/client.go:248-255 | When no request gets a response, every remaining attempt is made, each asking for the rest of the unchanged file, and the error names maxRetries. |
| `DownloadFacts.DownloadOffline` | core/request/client.go:248-255 | When no request gets a response, maxRetries requests and maxRetries - 1 delays are made, and the download fails to send. |
| `DownloadFacts.ResumeAfterDrop` | core/request/client.go:228-333 | A 200 that breaks off after some bytes, then a 206 for the rest, gives a file holding both halves in order, with requests at 0 and at the size of the first half. |
| `DownloadFacts.ResumeMatchesSingle` | core/request/client.go:228-333 | The resumed download leaves the same file as one uninterrupted response with the same bytes. |
| `HeaderFacts.DefaultHeadersSet` | core/request/client.go:189-192 | Without per-request headers a request carries exactly the three defaults, each under its canonical name. |
| `HeaderFacts.HeadersReplaceDefaults` | core/request/client.go:180-193 | With a per-request map, the header names are exactly its canonical keys and no default is added. Without one they are exactly the defaults. |
| `HeaderFacts.SingleCustomHeader` | core/request/client.go:181-186 | A single per-request header is the only header sent. |
| `HeaderFacts.RangeStart` | core/request/client.go:244 | Only a value of the form `bytes=N-` reads as an offset, and it reads as N. |
| `HeaderFacts.RangeRoundTrip` | core/request/client.go:244 | The `Range` value built from an offset reads back as that offset. |
| `HeaderFacts.SentRange` | core/request/client.go:240-245 | Unless a custom key is itself "Range", a request carries `Range` if and only if its offset is positive, with that offset as value. Its other header names are those set from the source. |
| `Cli.EffectiveOutputDir` | cmd/root.go:24-27 | The directory used is never empty: the flag when set, and "downloads" otherwise. |
| `Cli.ParseEntry` | cmd/root.go:52-55 | An entry is dropped if and only if it holds no '='. |
| `Cli.ParseEntryShape` | cmd/root.go:52-54 | A kept entry is the trimmed text before its first '=' and the trimmed text after it. |
| `Cli.ValueKeepsEquals` | cmd/root.go:52-54 | Only the first '=' splits, so a value keeps any '=' it contains. |
| `Cli.FoldKeys` | cmd/root.go:50-56 | The map's keys are exactly the keys of the kept entries. |
| `Cli.FoldLastWins` | cmd/root.go:50-56 | Each key holds the value of the last kept entry with that key. |
| `Cli.HeaderMapLastWins` | cmd/root.go:50-56 | The header map of the flags has exactly the trimmed keys of the entries holding '='. A later entry with the same key overwrites an earlier one. |
| `Cli.RequestOptionsGiven` | cmd/root.go:48-61 | Options are passed if and only if some entry holds '=', and then they carry the header map. Otherwise they are nil and the client's defaults apply. |
| `Cli.FileName` | cmd/root.go:65-68 | The file name is never empty or ".". It is "/" or free of slashes. It is "downloaded_file" exactly when the URL's base is ".", and the base otherwise. |
| `Cli.FileNameOfUrl` | cmd/root.go:65 | The file name is the URL's last element, whatever slashes follow it ("https://h/dir/" is saved as "dir"). |
| `Cli.FileNameOfDot` | cmd/root.go:65-68 | A URL whose last element is "." (such as "a/." or "a/./") is saved as "downloaded_file". |
| `Cli.FileNameOfEmptyUrl` | cmd/root.go:66-68 | An empty URL is saved as "downloaded_file". |
| `Cli.OutputPathInDir` | cmd/root.go:69 | A URL ending in a plain name is saved as that name directly inside the cleaned output directory. |
| `Cli.Config.constructor` | cmd/root.go:90-107 | The configuration holds the flag values as given. |
| `Cli.Config.PreRun` | cmd/root.go:22-42 | An empty output directory becomes "downloads" and is then made absolute. The exit status is 1 when that fails or when the directory cannot be created. No other field changes. |
| `Cli.HeaderLoop` | cmd/root.go:51-56 | The `for _, h := range cfg.Headers` loop builds exactly `HeaderMap` of the flags: each entry with an '=' sets its trimmed key, and a later entry overrides an earlier one. |
| `Cli.Config.ParseHeaders` | cmd/root.go:48-61 | The header-flag loop yields exactly `RequestOptions` of the flags. |
| `Cli.Config.Run` | cmd/root.go:43-80 | The file goes to the output directory joined with the file name, and the download is exactly `Download` with the flags' options and retry count. The exit status is 1 if and only if the download fails. |
| `Cli.RefusedUrlFails` | core/request/client.go:69-83 | A URL the transport refuses outright (a scheme other than http and https, or https without a usable proxy) gets no response. Every attempt then fails to send and asks for the rest of the unchanged file, and the download fails naming maxRetries. |

## Left out

- The TLS ClientHello specification (`newSpec`, core/request/client.go:35-66) is a list of constants whose meaning lies in the TLS library. Applying it is the oracle `Wire.presetOk`.
- The TCP dial, `http.ReadResponse` on the proxy's answer, the uTLS handshake and the HTTP/2 and HTTP/1.1 exchanges are oracle answers in `Wire`. Only RoundTrip's decisions on their answers are modelled.
- The "failed to get proxy URL" branch (core/request/client.go:78-80) is not modelled as a separate case: `http.ProxyURL` never returns an error.
- Transport.RoundTrip: after the handshake, an unsupported ALPN, an HTTP/2 connection error or an HTTP/1.1 write error returns without closing the TLS connection. The model records this (`closed` is false) but states no property about leaked connections.
- `GetHTML` (core/request/client.go:195-214) is a read-everything wrapper and is not part of this model.
- core/request/progress.go is not part of this model. The progress bar is the list of events `DownloadFile` reports to it (`Started`, `Progressed`, `Succeeded`, `Failed`). The file name shown on the bar is not modelled.
- `time.Sleep` is counted as a delay (`Trace.delays`) instead of slept. `retryDelay` is kept as a number of nanoseconds.
- Client.Client.constructor: `retryDelay * 1_000_000_000` is an unbounded integer. `time.Duration(retryDelay) * time.Second` (core/request/client.go:176) wraps around in int64 for a delay above about 292 years, and the model does not capture that.
- `os.MkdirAll` and `filepath.Abs` are inputs to the model: `dirOk`, `mkdirOk` and the function `abs`. `os.Stat`'s error is modelled as an absent file. An absent file and an empty one both give offset 0.
- An open failure ends the download without a retry, as the code does. The deferred `resp.Body.Close` and `file.Close` calls, which pile up across retries until `DownloadFile` returns, are not modelled.
- The 32 KB read buffer is abstracted into the list of reads the body returns. A short write is a read whose `writeFault` says how many of its bytes reached the file.
- The `if downloadSuccess { return nil }` condition after the read loop (core/request/client.go:335-337) can never succeed, because the loop only leaves by `break` after setting it to false. The model has no such path.
- Offsets and content lengths are unbounded integers: int64 overflow of `startPos + contentLength` is not modelled.
- Cli.Config.Run: the network script `net` is an input and is not derived from `Transport.RoundTrip`. `Cli.RefusedUrlFails` ties the two for refused URLs only: `FitsRoute` assumes that a route the transport refuses gets no response.
- Cli.Config.Run: with an https URL and an empty proxy flag, the code as written panics inside `client.Do` (core/request/client.go:248) on its first attempt. The process then ends with Go's panic status, not 1. The model follows the corrected `Transport.Route` (see Findings), where every attempt fails with "proxy URL is not configured" and the exit status is 1.
- `fmt.Printf` output, `os.Exit`, cobra flag registration and the unused `Concurrency` setting are not modelled. The exit status is returned instead of exiting.
- The empty-name condition at cmd/root.go:66 can never succeed, because `filepath.Base` never returns "". A URL made only of slashes gives the name "/", which `Join` turns into the directory itself. `Cli.OutputPathInDir` excludes that case and "..".
- HeaderFacts.DefaultHeadersSet: states the default header names as the canonical forms of "accept", "accept-language" and "user-agent" rather than spelling out "Accept", "Accept-Language" and "User-Agent".
- The configuration module core/config/config.go is not part of this model: its defaults (3 retries, 5 seconds, "downloads") are the flag defaults, and `Config` takes the flag values as given.

## Findings

| source | as written | input that shows it | evidently intended | confidence | as-written member | corrected member |
|---|---|---|---|---|---|---|
| core/request/client.go:77 | `NewClient` sets `tr1.Proxy` only for a non-empty proxy flag (lines 162-165), yet `RoundTrip` calls `u.tr1.Proxy(req)` for every https request | an https URL with the proxy flag left empty: calling the nil function value panics | fail with "proxy URL is not configured", as lines 81-83 do | not executed | `Transport.UnsetProxyCrashes` | `Transport.Route` |
