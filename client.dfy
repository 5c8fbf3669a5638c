/** The download client (`Client` in core/request/client.go): the headers it
    puts on a request and `DownloadFile`, the retrying, resuming download
    loop. The network is a script with one `Exchange` per attempt, the disk
    file a byte sequence (absent = `None`), and the progress bar the list of
    `Event`s reported to it. `Stream`, `Attempt` and `Run` state what the loop
    does; the method `Client.DownloadFile` performs it step by step and is
    proved equal to them. */
module Client {
  import opened Wrappers
  import opened GoStrings
  import opened Http
  import Transport

  /** `RequestOption`: absent `headers` is a nil map. */
  datatype RequestOption = RequestOption(headers: Option<map<string, string>>)

  const DefaultHeaders: map<string, string> := map[
    "accept" := "text/html,application/xhtml+xml,application/xml;q=0.9,image/avif,image/webp,image/apng,*/*;q=0.8,application/signed-exchange;v=b3;q=0.7",
    "accept-language" := "en,zh-CN;q=0.9,zh;q=0.8",
    "user-agent" := "Mozilla/5.0 (Macintosh; Intel Mac OS X 10_15_7) AppleWebKit/537.36 (KHTML, like Gecko) Chrome/112.0.0.0 Safari/537.36"
  ]

  /** What `setHeaders` copies into a request: the per-request headers when
      options with a header map are given (even an empty map), the client's
      defaults otherwise; never a mix of the two. */
  function HeaderSource(opts: Option<RequestOption>, defaults: map<string, string>): (src: map<string, string>)
    ensures src == defaults || (opts.Some? && opts.value.headers == Some(src))
    ensures opts.Some? && opts.value.headers.Some? ==> src == opts.value.headers.value
  {
    if opts.Some? && opts.value.headers.Some? then opts.value.headers.value else defaults
  }

  /** The value of the `Range` header asking for everything from `pos` on. */
  function RangeValue(pos: nat): string
  {
    "bytes=" + Decimal(pos) + "-"
  }

  lemma RangeKeyIsCanonical()
    ensures CanonicalKey("Range") == "Range"
  {
    assert IsToken("Range");
    assert CaseFold("e", false) == "e";
    assert CaseFold("ge", false) == "ge";
    assert CaseFold("nge", false) == "nge";
    assert CaseFold("ange", false) == "ange";
  }

  /** The headers of a download request with resume offset `pos`: those of
      `src`, set as `setHeaders` does, then `Range` when `pos` is positive. */
  ghost predicate SentHeaders(h: Header, src: map<string, string>, pos: nat)
  {
    if pos > 0 then exists base :: SetAll(map[], base, src) && h == base["Range" := RangeValue(pos)]
    else SetAll(map[], h, src)
  }

  /** `hs` are the headers of requests sent with resume offsets `ranges`. */
  ghost predicate AllSent(hs: seq<Header>, src: map<string, string>, ranges: seq<nat>)
  {
    |hs| == |ranges| && forall i :: 0 <= i < |hs| ==> SentHeaders(hs[i], src, ranges[i])
  }

  lemma AllSentAppend(hs1: seq<Header>, r1: seq<nat>, hs2: seq<Header>, r2: seq<nat>, src: map<string, string>)
    requires AllSent(hs1, src, r1) && AllSent(hs2, src, r2)
    ensures AllSent(hs1 + hs2, src, r1 + r2)
  {
    forall i | 0 <= i < |hs1 + hs2|
      ensures SentHeaders((hs1 + hs2)[i], src, (r1 + r2)[i])
    {
      if i < |hs1| {
        assert (hs1 + hs2)[i] == hs1[i] && (r1 + r2)[i] == r1[i];
      } else {
        assert (hs1 + hs2)[i] == hs2[i - |hs1|] && (r1 + r2)[i] == r2[i - |hs1|];
      }
    }
  }

  function Restrict(src: map<string, string>, keys: set<string>): map<string, string>
  {
    map k | k in keys && k in src :: src[k]
  }

  lemma RestrictStep(src: map<string, string>, done: set<string>, k: string)
    requires done <= src.Keys && k in src && k !in done
    ensures CanonicalKeys(Restrict(src, done + {k})) == CanonicalKeys(Restrict(src, done)) + {CanonicalKey(k)}
    ensures forall j :: j in Restrict(src, done) ==> j in Restrict(src, done + {k}) && Restrict(src, done + {k})[j] == src[j]
    ensures k in Restrict(src, done + {k}) && Restrict(src, done + {k})[k] == src[k]
  {
    var old_, new_ := Restrict(src, done), Restrict(src, done + {k});
    forall h | h in CanonicalKeys(new_) ensures h in CanonicalKeys(old_) + {CanonicalKey(k)} {
      var j :| j in new_ && CanonicalKey(j) == h;
      if j != k { assert j in old_; }
    }
    forall h | h in CanonicalKeys(old_) ensures h in CanonicalKeys(new_) {
      var j :| j in old_ && CanonicalKey(j) == h;
      assert j in new_;
    }
  }

  lemma SetAllStep(before: Header, mid: Header, src: map<string, string>, done: set<string>, k: string)
    requires done <= src.Keys && k in src && k !in done
    requires SetAll(before, mid, Restrict(src, done))
    ensures SetAll(before, mid[CanonicalKey(k) := src[k]], Restrict(src, done + {k}))
  {
    var old_, new_ := Restrict(src, done), Restrict(src, done + {k});
    var after := mid[CanonicalKey(k) := src[k]];
    RestrictStep(src, done, k);
    SetAllStepKept(before, mid, CanonicalKeys(old_), CanonicalKeys(new_), CanonicalKey(k), src[k]);
    SetAllStepValues(before, mid, src, done, k);
    SetAllIntro(before, after, new_);
  }

  lemma SetAllIntro(before: Header, after: Header, src: map<string, string>)
    requires after.Keys == before.Keys + CanonicalKeys(src)
    requires forall h :: h in after && h !in CanonicalKeys(src) ==> after[h] == before[h]
    requires forall h :: h in CanonicalKeys(src) ==>
      exists k :: k in src && CanonicalKey(k) == h && after[h] == src[k]
    ensures SetAll(before, after, src)
  {
  }

  lemma SetAllStepKept(before: Header, mid: Header, oldKeys: set<string>, newKeys: set<string>, ck: string, v: string)
    requires newKeys == oldKeys + {ck}
    requires mid.Keys == before.Keys + oldKeys
    requires forall h :: h in mid && h !in oldKeys ==> mid[h] == before[h]
    ensures mid[ck := v].Keys == before.Keys + newKeys
    ensures forall h :: h in mid[ck := v] && h !in newKeys ==> mid[ck := v][h] == before[h]
  {
  }

  lemma SetAllStepValues(before: Header, mid: Header, src: map<string, string>, done: set<string>, k: string)
    requires k in src
    requires CanonicalKeys(Restrict(src, done + {k})) == CanonicalKeys(Restrict(src, done)) + {CanonicalKey(k)}
    requires forall j :: j in Restrict(src, done) ==> j in Restrict(src, done + {k}) && Restrict(src, done + {k})[j] == src[j]
    requires k in Restrict(src, done + {k}) && Restrict(src, done + {k})[k] == src[k]
    requires mid.Keys == before.Keys + CanonicalKeys(Restrict(src, done))
    requires forall h :: h in CanonicalKeys(Restrict(src, done)) ==>
      exists j :: j in Restrict(src, done) && CanonicalKey(j) == h && mid[h] == Restrict(src, done)[j]
    ensures forall h :: h in CanonicalKeys(Restrict(src, done + {k})) ==>
      exists j :: j in Restrict(src, done + {k}) && CanonicalKey(j) == h && mid[CanonicalKey(k) := src[k]][h] == Restrict(src, done + {k})[j]
  {
    var ck := CanonicalKey(k);
    var after := mid[ck := src[k]];
    var old_, new_ := Restrict(src, done), Restrict(src, done + {k});
    forall h | h in CanonicalKeys(new_)
      ensures exists j :: j in new_ && CanonicalKey(j) == h && after[h] == new_[j]
    {
      if h == ck {
        assert k in new_ && after[h] == new_[k];
      } else {
        assert h in CanonicalKeys(old_);
        var j :| j in old_ && CanonicalKey(j) == h && mid[h] == old_[j];
        assert j in new_ && after[h] == new_[j];
      }
    }
  }

  /** How `Body.Read` ended a read: more to come, end of body, or an error. */
  datatype ReadEnd = MoreData | EndOfBody | ReadError

  /** One `Body.Read`: the bytes it returned, how it ended and, if the disk
      refuses to write those bytes, how many of them reached the file first. */
  datatype Read = Read(data: seq<bv8>, end: ReadEnd, writeFault: Option<nat>)

  /** What one attempt's request got: no response at all (`client.Do`
      failed), or a status, a content length, the body reads, and whether
      opening the output file fails. After the listed reads a body is at its
      end. */
  datatype Exchange =
    | NoResponse
    | Response(status: int, contentLength: int, body: seq<Read>, openFails: bool)

  /** The script's answer to attempt `k`; beyond the script every request fails. */
  function ExchangeAt(net: seq<Exchange>, k: nat): Exchange
  {
    if k < |net| then net[k] else NoResponse
  }

  /** Progress reports: a bar created with total size and start offset,
      `n` bytes written, success, failure. */
  datatype Event = Started(total: int, start: int) | Progressed(n: nat) | Succeeded | Failed

  datatype DownloadError =
    | DirFailed
    | RequestBuildFailed
    | SendFailed(attempts: int)
    | BadStatus(attempts: int, status: int)
    | BadLength(length: int)
    | OpenFailed
    | WriteFailed
    | ReadFailed
    | Exhausted(attempts: int)

  datatype Outcome = Success | Failure(error: DownloadError)

  /** The size `os.Stat` reports, 0 when the file is absent. */
  function Size(disk: Option<seq<bv8>>): nat
  {
    if disk.Some? then |disk.value| else 0
  }

  function Min(a: nat, b: nat): nat
  {
    if a < b then a else b
  }

  /** A write of `data` at offset `at`: the bytes before `at` stay, `data`
      replaces what was at `at`, and whatever lay beyond its end stays too. */
  function WriteAt(file: seq<bv8>, at: nat, data: seq<bv8>): (r: seq<bv8>)
    requires at <= |file|
    ensures |r| == if at + |data| > |file| then at + |data| else |file|
  {
    file[..at] + data + (if at + |data| < |file| then file[at + |data|..] else [])
  }

  lemma WriteAtShape(file: seq<bv8>, at: nat, data: seq<bv8>)
    requires at <= |file|
    ensures var r := WriteAt(file, at, data);
      && r[..at] == file[..at]
      && r[at..at + |data|] == data
      && (at + |data| < |file| ==> r[at + |data|..] == file[at + |data|..])
  {
  }

  datatype StreamEnd = Complete | WriteBroke | ReadBroke

  /** File, progress events and ending of the read-and-write loop. */
  datatype Streamed = Streamed(file: seq<bv8>, events: seq<Event>, end: StreamEnd)

  /** The read loop of one attempt, on a file opened at offset `off` (or for
      appending): each non-empty read is written, then reported with its
      size; end of body reports success, a read or write error reports
      failure. */
  function Stream(file: seq<bv8>, off: nat, append: bool, body: seq<Read>): Streamed
    requires off <= |file|
    decreases |body|
  {
    var r := if body == [] then Read([], EndOfBody, None) else body[0];
    var n := |r.data|;
    var at := WriteOffset(file, off, append);
    if n > 0 && r.writeFault.Some? then
      Streamed(WriteAt(file, at, r.data[..Min(r.writeFault.value, n)]), [Failed], WriteBroke)
    else
      var file' := if n > 0 then WriteAt(file, at, r.data) else file;
      var off' := if n > 0 then at + n else off;
      var shown := if n > 0 then [Progressed(n)] else [];
      match r.end
      case EndOfBody => Streamed(file', shown + [Succeeded], Complete)
      case ReadError => Streamed(file', shown + [Failed], ReadBroke)
      case MoreData =>
        var s := Stream(file', off', append, body[1..]);
        Streamed(s.file, shown + s.events, s.end)
  }

  /** What an attempt decided: stop with an outcome, or try again. */
  datatype Verdict = Finish(outcome: Outcome) | Retry

  /** The file, the progress events, the resume offset of the request sent
      (none when no request was built) and the verdict of one attempt. */
  datatype AttemptLog = AttemptLog(file: Option<seq<bv8>>, events: seq<Event>, ranges: seq<nat>, verdict: Verdict)

  /** A failed attempt is retried unless it was the last one. */
  function FailOr(last: bool, e: DownloadError): Verdict
  {
    if last then Finish(Failure(e)) else Retry
  }

  /** One pass of the `for attempt` loop. */
  function Attempt(maxRetries: int, urlOk: bool, last: bool, disk: Option<seq<bv8>>, ex: Exchange): AttemptLog
  {
    var startPos := Size(disk);
    if !urlOk then AttemptLog(disk, [], [], Finish(Failure(RequestBuildFailed)))
    else match ex
      case NoResponse => AttemptLog(disk, [], [startPos], FailOr(last, SendFailed(maxRetries)))
      case Response(status, length, body, openFails) =>
        if status == 416 then AttemptLog(disk, [], [startPos], Finish(Success))
        else if status != 200 && status != 206 then
          AttemptLog(disk, [], [startPos], FailOr(last, BadStatus(maxRetries, status)))
        else
          var pos := if status == 200 then 0 else startPos;
          if length <= 0 then AttemptLog(disk, [], [startPos], FailOr(last, BadLength(length)))
          else if openFails then AttemptLog(disk, [], [startPos], Finish(Failure(OpenFailed)))
          else
            var s := Stream(disk.GetOr([]), 0, pos > 0, body);
            var verdict := match s.end
              case Complete => Finish(Success)
              case WriteBroke => FailOr(last, WriteFailed)
              case ReadBroke => FailOr(last, ReadFailed);
            AttemptLog(Some(s.file), [Started(pos + length, pos)] + s.events, [startPos], verdict)
  }

  /** What the download did: outcome, final file, progress events, the
      resume offset of every request sent, attempts made, and the delays
      slept between them. */
  datatype Trace = Trace(outcome: Outcome, file: Option<seq<bv8>>, events: seq<Event>,
                         ranges: seq<nat>, attempts: nat, delays: nat)

  /** `rest` preceded by the events, requests, attempts and delays of earlier
      attempts. */
  function After(events: seq<Event>, ranges: seq<nat>, attempts: nat, delays: nat, rest: Trace): Trace
  {
    Trace(rest.outcome, rest.file, events + rest.events, ranges + rest.ranges,
          attempts + rest.attempts, delays + rest.delays)
  }

  /** The attempts from number `k` on: a delay before each but the first,
      and the next attempt only after a retryable failure. */
  function Run(maxRetries: int, urlOk: bool, k: nat, disk: Option<seq<bv8>>, net: seq<Exchange>): Trace
    decreases maxRetries - k
  {
    if k >= maxRetries then Trace(Failure(Exhausted(maxRetries)), disk, [], [], 0, 0)
    else
      var a := Attempt(maxRetries, urlOk, k == maxRetries - 1, disk, ExchangeAt(net, k));
      var delay := if k > 0 then 1 else 0;
      match a.verdict
      case Finish(o) => Trace(o, a.file, a.events, a.ranges, 1, delay)
      case Retry => After(a.events, a.ranges, 1, delay, Run(maxRetries, urlOk, k + 1, a.file, net))
  }

  /** The whole of `DownloadFile`: the directory is created first. */
  function Download(maxRetries: int, dirOk: bool, urlOk: bool, disk: Option<seq<bv8>>, net: seq<Exchange>): Trace
  {
    if !dirOk then Trace(Failure(DirFailed), disk, [], [], 0, 0)
    else Run(maxRetries, urlOk, 0, disk, net)
  }

  /** `Run` unfolded once, at an attempt below the limit. */
  lemma RunStep(maxRetries: int, urlOk: bool, k: nat, disk: Option<seq<bv8>>, net: seq<Exchange>)
    requires k < maxRetries
    ensures var a := Attempt(maxRetries, urlOk, k == maxRetries - 1, disk, ExchangeAt(net, k));
      var delay := if k > 0 then 1 else 0;
      Run(maxRetries, urlOk, k, disk, net) ==
        if a.verdict.Finish? then Trace(a.verdict.outcome, a.file, a.events, a.ranges, 1, delay)
        else After(a.events, a.ranges, 1, delay, Run(maxRetries, urlOk, k + 1, a.file, net))
  {
  }

  lemma AfterAfter(e1: seq<Event>, r1: seq<nat>, a1: nat, d1: nat, e2: seq<Event>, r2: seq<nat>, a2: nat, d2: nat, rest: Trace)
    ensures After(e1, r1, a1, d1, After(e2, r2, a2, d2, rest)) == After(e1 + e2, r1 + r2, a1 + a2, d1 + d2, rest)
  {
    assert e1 + (e2 + rest.events) == (e1 + e2) + rest.events;
    assert r1 + (r2 + rest.ranges) == (r1 + r2) + rest.ranges;
  }

  /** One pass of the attempt loop, in terms of the trace `goal` still to
      be matched: a finished attempt completes it, a retried one leaves the
      attempts from the next on. */
  lemma LoopStep(maxRetries: int, urlOk: bool, k: nat, file: Option<seq<bv8>>, net: seq<Exchange>,
                 events: seq<Event>, ranges: seq<nat>, delays: nat, goal: Trace)
    requires k < maxRetries
    requires goal == After(events, ranges, k, delays, Run(maxRetries, urlOk, k, file, net))
    ensures var a := Attempt(maxRetries, urlOk, k == maxRetries - 1, file, ExchangeAt(net, k));
      var delay := if k > 0 then 1 else 0;
      && (a.verdict.Finish? ==>
            goal == Trace(a.verdict.outcome, a.file, events + a.events, ranges + a.ranges, k + 1, delays + delay))
      && (a.verdict.Retry? ==>
            goal == After(events + a.events, ranges + a.ranges, k + 1, delays + delay, Run(maxRetries, urlOk, k + 1, a.file, net)))
  {
    var a := Attempt(maxRetries, urlOk, k == maxRetries - 1, file, ExchangeAt(net, k));
    var delay := if k > 0 then 1 else 0;
    RunStep(maxRetries, urlOk, k, file, net);
    AfterAfter(events, ranges, k, delays, a.events, a.ranges, 1, delay, Run(maxRetries, urlOk, k + 1, a.file, net));
  }

  /** The read at position `i` of a body: past the listed reads, end of body. */
  function ReadAt(body: seq<Read>, i: nat): Read
  {
    if i < |body| then body[i] else Read([], EndOfBody, None)
  }

  /** Where a read's bytes go: the end of the file when appending, the
      current offset otherwise. */
  function WriteOffset(file: seq<bv8>, off: nat, append: bool): (at: nat)
    requires off <= |file|
    ensures at <= |file|
  {
    if append then |file| else off
  }

  /** `Stream` from read `i` on, unfolded once, for a read that is written
      whole. */
  lemma StreamFrom(file: seq<bv8>, off: nat, append: bool, body: seq<Read>, i: nat)
    requires off <= |file| && i <= |body|
    requires |ReadAt(body, i).data| == 0 || ReadAt(body, i).writeFault.None?
    ensures var r := ReadAt(body, i);
      var n := |r.data|;
      var file' := if n > 0 then WriteAt(file, WriteOffset(file, off, append), r.data) else file;
      var off' := if n > 0 then WriteOffset(file, off, append) + n else off;
      var shown := if n > 0 then [Progressed(n)] else [];
      var s := Stream(file, off, append, body[i..]);
      if r.end == EndOfBody then s == Streamed(file', shown + [Succeeded], Complete)
      else if r.end == ReadError then s == Streamed(file', shown + [Failed], ReadBroke)
      else
        var s' := Stream(file', off', append, body[i + 1..]);
        i < |body| && s == Streamed(s'.file, shown + s'.events, s'.end)
  {
    if i < |body| {
      assert body[i..][0] == body[i] && body[i..][1..] == body[i + 1..];
    }
  }

  /** `Stream` from read `i` on, for a read the disk refuses. */
  lemma StreamFromFault(file: seq<bv8>, off: nat, append: bool, body: seq<Read>, i: nat)
    requires off <= |file| && i <= |body|
    requires |ReadAt(body, i).data| > 0 && ReadAt(body, i).writeFault.Some?
    ensures var r := ReadAt(body, i);
      var part := r.data[..Min(r.writeFault.value, |r.data|)];
      Stream(file, off, append, body[i..]) == Streamed(WriteAt(file, WriteOffset(file, off, append), part), [Failed], WriteBroke)
  {
    assert body[i..][0] == body[i];
  }

  /** One pass of the read loop: read `i` is written at the file offset
      (or appended) and reported; `stop` is how the loop ends after it, if
      it does. */
  method ReadOnce(file: seq<bv8>, off: nat, append: bool, body: seq<Read>, i: nat)
    returns (file': seq<bv8>, off': nat, shown: seq<Event>, stop: Option<StreamEnd>)
    requires off <= |file| && i <= |body|
    ensures off' <= |file'|
    ensures stop.Some? ==> Stream(file, off, append, body[i..]) == Streamed(file', shown, stop.value)
    ensures stop.None? ==> i < |body|
    ensures stop.None? && i < |body| ==>
      (var rest := Stream(file', off', append, body[i + 1..]);
       Stream(file, off, append, body[i..]) == Streamed(rest.file, shown + rest.events, rest.end))
  {
    var r := ReadAt(body, i);
    var n := |r.data|;
    var at := WriteOffset(file, off, append);
    if n > 0 && r.writeFault.Some? {
      StreamFromFault(file, off, append, body, i);
      return WriteAt(file, at, r.data[..Min(r.writeFault.value, n)]), off, [Failed], Some(WriteBroke);
    }
    StreamFrom(file, off, append, body, i);
    file', off', shown := file, off, [];
    if n > 0 {
      file' := WriteAt(file, at, r.data);
      off' := at + n;
      shown := [Progressed(n)];
    }
    match r.end {
      case EndOfBody => shown, stop := shown + [Succeeded], Some(Complete);
      case ReadError => shown, stop := shown + [Failed], Some(ReadBroke);
      case MoreData => stop := None;
    }
  }

  /** The read loop of `DownloadFile`, on the file as opened for this attempt. */
  method StreamBody(file0: seq<bv8>, append: bool, body: seq<Read>) returns (s: Streamed)
    ensures s == Stream(file0, 0, append, body)
  {
    ghost var goal := Stream(file0, 0, append, body);
    var file := file0;
    var off: nat := 0;
    var events: seq<Event> := [];
    var i := 0;
    while true
      invariant i <= |body|
      invariant off <= |file|
      invariant var rest := Stream(file, off, append, body[i..]);
        goal == Streamed(rest.file, events + rest.events, rest.end)
      decreases |body| - i
    {
      var shown, stop;
      file, off, shown, stop := ReadOnce(file, off, append, body, i);
      if stop.Some? {
        return Streamed(file, events + shown, stop.value);
      }
      ghost var rest := Stream(file, off, append, body[i + 1..]);
      assert events + (shown + rest.events) == events + shown + rest.events;
      events := events + shown;
      i := i + 1;
    }
  }

  /** The proxy setting `NewClient` makes of the proxy flag: unset for an
      empty flag, otherwise fixed to what `url.Parse` made of it. */
  function ProxyOf(proxyURL: string, parsedProxy: Option<Transport.ProxyUrl>): Transport.ProxySetting
  {
    if proxyURL == "" then Transport.Unset else Transport.Fixed(parsedProxy)
  }

  class Client {
    const proxy: Transport.ProxySetting
    const defaultHeaders: map<string, string>
    const maxRetries: int
    /** The delay before every attempt after the first, in nanoseconds. */
    const retryDelay: int

    /** `NewClient`: the proxy function is only set for a non-empty proxy
        flag; `parsedProxy` is what `url.Parse` made of the flag. */
    constructor (proxyURL: string, parsedProxy: Option<Transport.ProxyUrl>, maxRetries: int, retryDelay: int)
      ensures proxy == if proxyURL == "" then Transport.Unset else Transport.Fixed(parsedProxy)
      ensures defaultHeaders == DefaultHeaders
      ensures this.maxRetries == maxRetries && this.retryDelay == retryDelay * 1_000_000_000
    {
      proxy := ProxyOf(proxyURL, parsedProxy);
      defaultHeaders := DefaultHeaders;
      this.maxRetries := maxRetries;
      this.retryDelay := retryDelay * 1_000_000_000;
    }

    /** `setHeaders`: the per-request headers replace the defaults. */
    method SetHeaders(req: Request, opts: Option<RequestOption>)
      modifies req
      ensures SetAll(old(req.header), req.header, HeaderSource(opts, defaultHeaders))
      ensures req.proto == old(req.proto) && req.protoMajor == old(req.protoMajor) && req.protoMinor == old(req.protoMinor)
    {
      if opts.Some? && opts.value.headers.Some? {
        SetEach(req, opts.value.headers.value);
        return;
      }
      SetEach(req, defaultHeaders);
    }

    /** `for k, v := range src { req.Header.Set(k, v) }`, in whatever order
        the map yields its keys. */
    method SetEach(req: Request, src: map<string, string>)
      modifies req
      ensures SetAll(old(req.header), req.header, src)
      ensures req.proto == old(req.proto) && req.protoMajor == old(req.protoMajor) && req.protoMinor == old(req.protoMinor)
    {
      var todo := src.Keys;
      assert Restrict(src, {}) == map[];
      while todo != {}
        invariant todo <= src.Keys
        invariant SetAll(old(req.header), req.header, Restrict(src, src.Keys - todo))
        invariant req.proto == old(req.proto) && req.protoMajor == old(req.protoMajor) && req.protoMinor == old(req.protoMinor)
        decreases todo
      {
        var k :| k in todo;
        SetAllStep(old(req.header), req.header, src, src.Keys - todo, k);
        assert src.Keys - todo + {k} == src.Keys - (todo - {k});
        req.SetHeader(k, src[k]);
        todo := todo - {k};
      }
      assert Restrict(src, src.Keys) == src;
    }

    /** `DownloadFile`: `dirOk` is whether the output directory could be
        created, `urlOk` whether a request can be built from the URL, `disk`
        the file as it is on disk beforehand and `net` the network's answers.
        Returns what the download did and the headers of every request sent. */
    method DownloadFile(url: Url, opts: Option<RequestOption>, dirOk: bool, urlOk: bool,
                        disk: Option<seq<bv8>>, net: seq<Exchange>)
      returns (t: Trace, sent: seq<Header>)
      ensures t == Download(maxRetries, dirOk, urlOk, disk, net)
      ensures AllSent(sent, HeaderSource(opts, defaultHeaders), t.ranges)
    {
      sent := [];
      if !dirOk {
        return Trace(Failure(DirFailed), disk, [], [], 0, 0), sent;
      }
      var src := HeaderSource(opts, defaultHeaders);
      var file := disk;
      var events: seq<Event> := [];
      var ranges: seq<nat> := [];
      var delays: nat := 0;
      var attempt: nat := 0;
      ghost var goal := Download(maxRetries, dirOk, urlOk, disk, net);
      while attempt < maxRetries
        invariant goal == After(events, ranges, attempt, delays, Run(maxRetries, urlOk, attempt, file, net))
        invariant AllSent(sent, src, ranges)
        decreases maxRetries - attempt
      {
        // time.Sleep(c.retryDelay) before every attempt after the first
        var delay := if attempt > 0 then 1 else 0;
        var log, sent' := NextAttempt(url, opts, urlOk, attempt, file, net, events, ranges, delays, goal, sent);
        sent := sent';
        if log.verdict.Finish? {
          return Trace(log.verdict.outcome, log.file, events + log.events, ranges + log.ranges, attempt + 1, delays + delay), sent;
        }
        file := log.file;
        events := events + log.events;
        ranges := ranges + log.ranges;
        delays := delays + delay;
        attempt := attempt + 1;
      }
      t := Trace(Failure(Exhausted(maxRetries)), file, events, ranges, attempt, delays);
    }

    /** Attempt `attempt` as the loop sees it: `TryOnce`, with what it
        leaves of the trace `goal` still to be matched and the headers sent
        so far extended by its request. */
    method NextAttempt(url: Url, opts: Option<RequestOption>, urlOk: bool, attempt: nat,
                       file: Option<seq<bv8>>, net: seq<Exchange>, ghost events: seq<Event>, ghost ranges: seq<nat>,
                       ghost delays: nat, ghost goal: Trace, sent: seq<Header>)
      returns (log: AttemptLog, sent': seq<Header>)
      requires attempt < maxRetries
      requires goal == After(events, ranges, attempt, delays, Run(maxRetries, urlOk, attempt, file, net))
      requires AllSent(sent, HeaderSource(opts, defaultHeaders), ranges)
      ensures AllSent(sent', HeaderSource(opts, defaultHeaders), ranges + log.ranges)
      ensures var delay := if attempt > 0 then 1 else 0;
        && (log.verdict.Finish? ==>
              goal == Trace(log.verdict.outcome, log.file, events + log.events, ranges + log.ranges, attempt + 1, delays + delay))
        && (log.verdict.Retry? ==>
              goal == After(events + log.events, ranges + log.ranges, attempt + 1, delays + delay,
                            Run(maxRetries, urlOk, attempt + 1, log.file, net)))
    {
      var hs;
      log, hs := TryOnce(url, opts, urlOk, attempt == maxRetries - 1, file, ExchangeAt(net, attempt));
      LoopStep(maxRetries, urlOk, attempt, file, net, events, ranges, delays, goal);
      AllSentAppend(sent, ranges, hs, log.ranges, HeaderSource(opts, defaultHeaders));
      sent' := sent + hs;
    }

    /** One pass of the `for attempt` loop, after the delay: build and send
        the request, then handle the response. Returns the attempt's log and
        the headers of the request it sent, if it sent one. */
    method TryOnce(url: Url, opts: Option<RequestOption>, urlOk: bool, last: bool,
                   file: Option<seq<bv8>>, ex: Exchange)
      returns (log: AttemptLog, hs: seq<Header>)
      ensures log == Attempt(maxRetries, urlOk, last, file, ex)
      ensures AllSent(hs, HeaderSource(opts, defaultHeaders), log.ranges)
    {
      if !urlOk {
        return AttemptLog(file, [], [], Finish(Failure(RequestBuildFailed))), [];
      }
      var startPos := Size(file);
      var h := BuildRequest(url, opts, startPos);
      log := AttemptOnce(last, file, startPos, ex);
      hs := [h];
    }

    /** The request of one attempt: `http.NewRequest`, `setHeaders`, then
        `Range` when resuming from a positive offset. Returns its headers. */
    method BuildRequest(url: Url, opts: Option<RequestOption>, startPos: nat) returns (h: Header)
      ensures SentHeaders(h, HeaderSource(opts, defaultHeaders), startPos)
    {
      var req := new Request(url);
      SetHeaders(req, opts);
      if startPos > 0 {
        ghost var base := req.header;
        req.SetHeader("Range", RangeValue(startPos));
        RangeKeyIsCanonical();
        assert SetAll(map[], base, HeaderSource(opts, defaultHeaders)) && req.header == base["Range" := RangeValue(startPos)];
      }
      return req.header;
    }

    /** The status, length and body handling of one attempt whose request
        was sent with resume offset `startPos`. */
    method AttemptOnce(last: bool, file: Option<seq<bv8>>, startPos: nat, ex: Exchange) returns (log: AttemptLog)
      requires startPos == Size(file)
      ensures log == Attempt(maxRetries, true, last, file, ex)
    {
      if ex.NoResponse? {
        return AttemptLog(file, [], [startPos], FailOr(last, SendFailed(maxRetries)));
      }
      var pos := startPos;
      if ex.status == 200 {
        pos := 0;
      } else if ex.status == 206 {
      } else if ex.status == 416 {
        return AttemptLog(file, [], [startPos], Finish(Success));
      } else {
        return AttemptLog(file, [], [startPos], FailOr(last, BadStatus(maxRetries, ex.status)));
      }
      var length := ex.contentLength;
      if length <= 0 {
        return AttemptLog(file, [], [startPos], FailOr(last, BadLength(length)));
      }
      if ex.openFails {
        return AttemptLog(file, [], [startPos], Finish(Failure(OpenFailed)));
      }
      // O_CREATE|O_WRONLY, with O_APPEND only when resuming: no truncation
      var created := file.GetOr([]);
      var s := StreamBody(created, pos > 0, ex.body);
      var verdict := match s.end
        case Complete => Finish(Success)
        case WriteBroke => FailOr(last, WriteFailed)
        case ReadBroke => FailOr(last, ReadFailed);
      log := AttemptLog(Some(s.file), [Started(pos + length, pos)] + s.events, [startPos], verdict);
    }
  }
}
