/** What `DownloadFile` promises, proved about its specification functions
    `Stream`, `Attempt`, `Run` and `Download`: the body bytes that reach
    the file and where they land, the progress reports, the attempt and
    delay counts, the status rules and resuming after a dropped connection. */
module DownloadFacts {
  import opened Wrappers
  import opened Client

  // ---------------------------------------------------------------------
  // The body of one response

  /** The bytes the reads deliver, up to and including the read that ends
      the body. */
  function Delivered(body: seq<Read>): seq<bv8>
    decreases |body|
  {
    if body == [] then []
    else body[0].data + (if body[0].end == MoreData then Delivered(body[1..]) else [])
  }

  /** No read up to the end of the body meets a disk that refuses its bytes. */
  predicate NoFault(body: seq<Read>)
    decreases |body|
  {
    body == [] ||
    ((|body[0].data| == 0 || body[0].writeFault.None?) && (body[0].end == MoreData ==> NoFault(body[1..])))
  }

  /** How the body ends: at its end, or with a read error. */
  function Ending(body: seq<Read>): (e: ReadEnd)
    ensures e != MoreData
    decreases |body|
  {
    if body == [] then EndOfBody
    else if body[0].end == MoreData then Ending(body[1..])
    else body[0].end
  }

  /** One report of exactly `n` for each read of `n > 0` bytes. */
  function ChunkReports(body: seq<Read>): seq<Event>
    decreases |body|
  {
    if body == [] then []
    else
      (if |body[0].data| > 0 then [Progressed(|body[0].data|)] else []) +
      (if body[0].end == MoreData then ChunkReports(body[1..]) else [])
  }

  /** The bytes reported as written. */
  function Progress(events: seq<Event>): nat
  {
    if events == [] then 0
    else (if events[0].Progressed? then events[0].n else 0) + Progress(events[1..])
  }

  predicate Terminal(e: Event)
  {
    e.Succeeded? || e.Failed?
  }

  lemma ProgressAppend(a: seq<Event>, b: seq<Event>)
    ensures Progress(a + b) == Progress(a) + Progress(b)
  {
    if a != [] {
      var c := a + b;
      assert c != [] && c[0] == a[0] && c[1..] == a[1..] + b;
      ProgressAppend(a[1..], b);
    } else {
      assert a + b == b;
    }
  }

  /** The reports add up to the bytes delivered. */
  lemma {:induction false} ReportsAddUp(body: seq<Read>)
    ensures Progress(ChunkReports(body)) == |Delivered(body)|
    decreases |body|
  {
    if body != [] {
      var head: seq<Event> := if |body[0].data| > 0 then [Progressed(|body[0].data|)] else [];
      var tail := if body[0].end == MoreData then ChunkReports(body[1..]) else [];
      ProgressAppend(head, tail);
      if body[0].end == MoreData {
        ReportsAddUp(body[1..]);
      }
    }
  }

  // ---------------------------------------------------------------------
  // Writes

  /** Appending writes after the last byte. */
  lemma WriteAtEnd(file: seq<bv8>, data: seq<bv8>)
    ensures WriteAt(file, |file|, data) == file + data
  {
    assert file[..|file|] == file;
  }

  /** Writing nothing changes nothing. */
  lemma WriteNothing(file: seq<bv8>, at: nat)
    requires at <= |file|
    ensures WriteAt(file, at, []) == file
  {
    if at < |file| {
      assert file[..at] + file[at..] == file;
    } else {
      assert file[..at] == file;
    }
  }

  /** Two consecutive writes are one write of both. */
  lemma WriteAtTwice(file: seq<bv8>, at: nat, a: seq<bv8>, b: seq<bv8>)
    requires at <= |file|
    ensures WriteAt(WriteAt(file, at, a), at + |a|, b) == WriteAt(file, at, a + b)
  {
    var g := WriteAt(file, at, a);
    var tail := if at + |a| < |file| then file[at + |a|..] else [];
    assert g == file[..at] + a + tail;
    assert g[..at + |a|] == file[..at] + a;
    if at + |a| + |b| < |g| {
      assert at + |a| < |file|;
      assert g[at + |a| + |b|..] == file[at + |a| + |b|..];
    }
  }

  // ---------------------------------------------------------------------
  // The read loop

  /** The file after a read that is written whole. */
  function NextFile(file: seq<bv8>, off: nat, append: bool, r: Read): seq<bv8>
    requires off <= |file|
  {
    if |r.data| > 0 then WriteAt(file, WriteOffset(file, off, append), r.data) else file
  }

  /** The write offset after a read that is written whole. */
  function NextOff(file: seq<bv8>, off: nat, append: bool, r: Read): (o: nat)
    requires off <= |file|
    ensures o <= |NextFile(file, off, append, r)|
  {
    if |r.data| > 0 then WriteOffset(file, off, append) + |r.data| else off
  }

  function Shown(r: Read): seq<Event>
  {
    if |r.data| > 0 then [Progressed(|r.data|)] else []
  }

  /** `Stream` after a first read that is written whole and is not the last. */
  lemma StreamMore(file: seq<bv8>, off: nat, append: bool, body: seq<Read>)
    requires off <= |file| && body != [] && body[0].end == MoreData
    requires |body[0].data| == 0 || body[0].writeFault.None?
    ensures var rest := Stream(NextFile(file, off, append, body[0]), NextOff(file, off, append, body[0]), append, body[1..]);
      Stream(file, off, append, body) == Streamed(rest.file, Shown(body[0]) + rest.events, rest.end)
  {
  }

  /** `Stream` when the first read is written whole and ends the body. */
  lemma StreamLast(file: seq<bv8>, off: nat, append: bool, body: seq<Read>)
    requires off <= |file| && body != [] && body[0].end != MoreData
    requires |body[0].data| == 0 || body[0].writeFault.None?
    ensures Stream(file, off, append, body) ==
      Streamed(NextFile(file, off, append, body[0]),
               Shown(body[0]) + [if body[0].end == EndOfBody then Succeeded else Failed],
               if body[0].end == EndOfBody then Complete else ReadBroke)
  {
  }

  /** Resuming: every delivered byte is appended after the bytes already
      in the file, which stay as they are. */
  lemma {:induction false} StreamAppends(file: seq<bv8>, off: nat, body: seq<Read>)
    requires off <= |file| && NoFault(body)
    ensures Stream(file, off, true, body).file == file + Delivered(body)
    decreases |body|
  {
    if body == [] {
      assert file + [] == file;
    } else {
      var r := body[0];
      WriteAtEnd(file, r.data);
      assert NextFile(file, off, true, r) == file + r.data by {
        if |r.data| == 0 { assert file + r.data == file; }
      }
      if r.end == MoreData {
        StreamMore(file, off, true, body);
        StreamAppends(NextFile(file, off, true, r), NextOff(file, off, true, r), body[1..]);
        assert (file + r.data) + Delivered(body[1..]) == file + (r.data + Delivered(body[1..]));
      } else {
        StreamLast(file, off, true, body);
        assert Delivered(body) == r.data + [];
      }
    }
  }

  /** A fresh download writes from its offset without truncating: the
      delivered bytes replace those at the offset, and whatever lay beyond
      them stays. */
  lemma {:induction false} StreamOverwrites(file: seq<bv8>, off: nat, body: seq<Read>)
    requires off <= |file| && NoFault(body)
    ensures Stream(file, off, false, body).file == WriteAt(file, off, Delivered(body))
    decreases |body|
  {
    if body == [] {
      WriteNothing(file, off);
    } else {
      var r := body[0];
      if |r.data| == 0 {
        WriteNothing(file, off);
      }
      assert NextFile(file, off, false, r) == WriteAt(file, off, r.data);
      if r.end == MoreData {
        StreamMore(file, off, false, body);
        StreamOverwrites(NextFile(file, off, false, r), NextOff(file, off, false, r), body[1..]);
        WriteAtTwice(file, off, r.data, Delivered(body[1..]));
      } else {
        StreamLast(file, off, false, body);
        assert Delivered(body) == r.data + [];
      }
    }
  }

  /** Without a disk fault, the reports are one per non-empty read, each
      with that read's size, then success at the end of the body or failure
      on a read error. */
  lemma {:induction false} StreamReports(file: seq<bv8>, off: nat, append: bool, body: seq<Read>)
    requires off <= |file| && NoFault(body)
    ensures var s := Stream(file, off, append, body);
      && s.events == ChunkReports(body) + [if Ending(body) == EndOfBody then Succeeded else Failed]
      && s.end == (if Ending(body) == EndOfBody then Complete else ReadBroke)
    decreases |body|
  {
    if body != [] {
      var r := body[0];
      if r.end == MoreData {
        StreamMore(file, off, append, body);
        StreamReports(NextFile(file, off, append, r), NextOff(file, off, append, r), append, body[1..]);
        var last := if Ending(body) == EndOfBody then Succeeded else Failed;
        assert Shown(r) + (ChunkReports(body[1..]) + [last]) == (Shown(r) + ChunkReports(body[1..])) + [last];
      } else {
        StreamLast(file, off, append, body);
        assert ChunkReports(body) == Shown(r) + [];
      }
    }
  }

  /** Whatever happens, the read loop reports exactly one success or
      failure, last, and only chunk sizes before it; success exactly when
      the body was read to its end. */
  lemma {:induction false} StreamEndsOnce(file: seq<bv8>, off: nat, append: bool, body: seq<Read>)
    requires off <= |file|
    ensures var s := Stream(file, off, append, body);
      && |s.events| >= 1
      && Terminal(s.events[|s.events| - 1])
      && (forall i :: 0 <= i < |s.events| - 1 ==> s.events[i].Progressed? && s.events[i].n > 0)
      && (s.events[|s.events| - 1].Succeeded? <==> s.end == Complete)
    decreases |body|
  {
    if body != [] {
      var r := body[0];
      if !(|r.data| > 0 && r.writeFault.Some?) {
        if r.end == MoreData {
          StreamMore(file, off, append, body);
          StreamEndsOnce(NextFile(file, off, append, r), NextOff(file, off, append, r), append, body[1..]);
        } else {
          StreamLast(file, off, append, body);
        }
      }
    }
  }

  /** Read `i` is the first one the disk refuses: every read before it is
      written whole and leaves more to come. */
  predicate FaultAt(body: seq<Read>, i: nat)
  {
    i < |body| && |body[i].data| > 0 && body[i].writeFault.Some? && WholeBefore(body, i)
  }

  /** The first `i` reads are written whole and leave more to come. */
  predicate WholeBefore(body: seq<Read>, i: nat)
    decreases i
  {
    i == 0 ||
    (body != [] && body[0].end == MoreData && (|body[0].data| == 0 || body[0].writeFault.None?) && WholeBefore(body[1..], i - 1))
  }

  /** The bytes of the refused read that reached the file. */
  function Torn(r: Read): seq<bv8>
    requires r.writeFault.Some?
  {
    r.data[..Min(r.writeFault.value, |r.data|)]
  }

  lemma FaultAtNext(body: seq<Read>, i: nat)
    requires FaultAt(body, i) && i > 0
    ensures FaultAt(body[1..], i - 1)
    ensures body[..i][1..] == body[1..][..i - 1] && body[..i][0] == body[0]
    ensures body[0].end == MoreData && (|body[0].data| == 0 || body[0].writeFault.None?)
    ensures body[1..][i - 1] == body[i]
  {
  }

  /** The reads before `i` split into the first and the rest. */
  lemma PrefixSplit(body: seq<Read>, i: nat)
    requires 0 < i <= |body| && body[0].end == MoreData
    ensures Delivered(body[..i]) == body[0].data + Delivered(body[1..][..i - 1])
    ensures ChunkReports(body[..i]) == Shown(body[0]) + ChunkReports(body[1..][..i - 1])
  {
    assert body[..i][0] == body[0] && body[..i][1..] == body[1..][..i - 1];
  }

  /** `Stream` when the first read is refused by the disk. */
  lemma StreamFault(file: seq<bv8>, off: nat, append: bool, body: seq<Read>)
    requires off <= |file| && FaultAt(body, 0)
    ensures Stream(file, off, append, body) ==
      Streamed(WriteAt(file, WriteOffset(file, off, append), Torn(body[0])), [Failed], WriteBroke)
  {
  }

  /** Resuming, a refused write leaves the bytes written before it, then
      the part of the refused read that reached the file. */
  lemma {:induction false} StreamFaultAppends(file: seq<bv8>, off: nat, body: seq<Read>, i: nat)
    requires off <= |file| && FaultAt(body, i)
    ensures Stream(file, off, true, body).file == file + Delivered(body[..i]) + Torn(body[i])
    decreases i
  {
    if i == 0 {
      StreamFault(file, off, true, body);
      WriteAtEnd(file, Torn(body[0]));
      assert Delivered(body[..0]) == [];
      assert file + [] == file;
    } else {
      var r := body[0];
      FaultAtNext(body, i);
      PrefixSplit(body, i);
      var mid := NextFile(file, off, true, r);
      assert mid == file + r.data by {
        WriteAtEnd(file, r.data);
        if |r.data| == 0 { assert file + r.data == file; }
      }
      StreamMore(file, off, true, body);
      StreamFaultAppends(mid, NextOff(file, off, true, r), body[1..], i - 1);
      AppendStep(file, r.data, Delivered(body[1..][..i - 1]), Torn(body[i]), mid, Stream(file, off, true, body).file);
    }
  }

  lemma AppendStep(file: seq<bv8>, d0: seq<bv8>, rest: seq<bv8>, torn: seq<bv8>, mid: seq<bv8>, after: seq<bv8>)
    requires mid == file + d0 && after == mid + rest + torn
    ensures after == file + (d0 + rest) + torn
  {
  }

  lemma OverwriteStep(file: seq<bv8>, off: nat, d0: seq<bv8>, rest: seq<bv8>, torn: seq<bv8>,
                      mid: seq<bv8>, mo: nat, after: seq<bv8>)
    requires off <= |file| && mid == WriteAt(file, off, d0) && mo == off + |d0|
    requires after == WriteAt(mid, mo, rest + torn)
    ensures after == WriteAt(file, off, d0 + rest + torn)
  {
    WriteAtTwice(file, off, d0, rest + torn);
    assert d0 + (rest + torn) == d0 + rest + torn;
  }

  /** Fresh, a refused write leaves the bytes written before it and the part
      of the refused read that reached the file, from the offset on, without
      truncating. */
  lemma {:induction false} StreamFaultOverwrites(file: seq<bv8>, off: nat, body: seq<Read>, i: nat)
    requires off <= |file| && FaultAt(body, i)
    ensures Stream(file, off, false, body).file == WriteAt(file, off, Delivered(body[..i]) + Torn(body[i]))
    decreases i
  {
    if i == 0 {
      StreamFault(file, off, false, body);
      assert Delivered(body[..0]) == [];
      assert [] + Torn(body[0]) == Torn(body[0]);
    } else {
      var r := body[0];
      FaultAtNext(body, i);
      PrefixSplit(body, i);
      var mid := NextFile(file, off, false, r);
      var mo := NextOff(file, off, false, r);
      assert mid == WriteAt(file, off, r.data) && mo == off + |r.data| by {
        if |r.data| == 0 { WriteNothing(file, off); }
      }
      StreamMore(file, off, false, body);
      StreamFaultOverwrites(mid, mo, body[1..], i - 1);
      OverwriteStep(file, off, r.data, Delivered(body[1..][..i - 1]), Torn(body[i]), mid, mo,
                    Stream(file, off, false, body).file);
    }
  }

  /** A refused write ends the loop with one failure report after the
      reports of the reads written before it, and none for the refused read. */
  lemma {:induction false} StreamFaultReports(file: seq<bv8>, off: nat, append: bool, body: seq<Read>, i: nat)
    requires off <= |file| && FaultAt(body, i)
    ensures var s := Stream(file, off, append, body);
      s.events == ChunkReports(body[..i]) + [Failed] && s.end == WriteBroke
    decreases i
  {
    if i == 0 {
      StreamFault(file, off, append, body);
      assert ChunkReports(body[..0]) == [];
    } else {
      var r := body[0];
      FaultAtNext(body, i);
      PrefixSplit(body, i);
      StreamMore(file, off, append, body);
      StreamFaultReports(NextFile(file, off, append, r), NextOff(file, off, append, r), append, body[1..], i - 1);
      var tail := ChunkReports(body[1..][..i - 1]);
      assert Shown(r) + (tail + [Failed]) == (Shown(r) + tail) + [Failed];
    }
  }

  // ---------------------------------------------------------------------
  // One attempt

  /** An attempt sends at most one request, with the file size as its
      resume offset; the last attempt always finishes; no attempt runs out
      of attempts. */
  lemma AttemptShape(maxRetries: int, urlOk: bool, last: bool, disk: Option<seq<bv8>>, ex: Exchange)
    ensures var a := Attempt(maxRetries, urlOk, last, disk, ex);
      && (urlOk ==> a.ranges == [Size(disk)])
      && (!urlOk ==> a.ranges == [] && a.verdict == Finish(Failure(RequestBuildFailed)))
      && (last ==> a.verdict.Finish?)
      && !(a.verdict.Finish? && a.verdict.outcome.Failure? && a.verdict.outcome.error.Exhausted?)
  {
  }

  /** A status other than 200, 206 and 416, or a 200 or 206 with a content
      length that is not positive, fails the attempt without touching the file; it is retried
      unless this is the last attempt. */
  lemma AttemptRejected(maxRetries: int, last: bool, disk: Option<seq<bv8>>, ex: Exchange)
    requires ex.Response?
    requires ex.status != 416 && (ex.status !in {200, 206} || ex.contentLength <= 0)
    ensures var a := Attempt(maxRetries, true, last, disk, ex);
      && a.file == disk && a.events == []
      && (a.verdict == Retry <==> !last)
      && (last ==> a.verdict.outcome.Failure? && a.verdict.outcome.error.BadStatus? == (ex.status !in {200, 206, 416}))
  {
  }

  /** A 206 answer to a request for the rest of a non-empty file: the bar
      starts at the file size with total size plus content length, every
      delivered byte is appended after the bytes already there, and each
      chunk is reported. */
  lemma AttemptResumes(maxRetries: int, last: bool, f: seq<bv8>, length: int, body: seq<Read>)
    requires |f| > 0 && length > 0 && NoFault(body)
    ensures var a := Attempt(maxRetries, true, last, Some(f), Response(206, length, body, false));
      && a.ranges == [|f|]
      && a.file == Some(f + Delivered(body))
      && a.events == [Started(|f| + length, |f|)] + ChunkReports(body) + [if Ending(body) == EndOfBody then Succeeded else Failed]
      && (a.verdict == Finish(Success) <==> Ending(body) == EndOfBody)
      && (Ending(body) == ReadError ==> (a.verdict == Retry <==> !last) && (last ==> a.verdict == Finish(Failure(ReadFailed))))
  {
    StreamAppends(f, 0, body);
    StreamReports(f, 0, true, body);
  }

  /** A 200 answer restarts from byte 0 whatever was asked for: the bar
      starts at 0 with total size the content length, and the delivered
      bytes overwrite the file from its start without truncating it. */
  lemma AttemptRestarts(maxRetries: int, last: bool, disk: Option<seq<bv8>>, length: int, body: seq<Read>)
    requires length > 0 && NoFault(body)
    ensures var a := Attempt(maxRetries, true, last, disk, Response(200, length, body, false));
      && a.ranges == [Size(disk)]
      && a.file == Some(WriteAt(disk.GetOr([]), 0, Delivered(body)))
      && a.events == [Started(length, 0)] + ChunkReports(body) + [if Ending(body) == EndOfBody then Succeeded else Failed]
      && (a.verdict == Finish(Success) <==> Ending(body) == EndOfBody)
      && (Ending(body) == ReadError ==> (a.verdict == Retry <==> !last) && (last ==> a.verdict == Finish(Failure(ReadFailed))))
  {
    StreamOverwrites(disk.GetOr([]), 0, body);
    StreamReports(disk.GetOr([]), 0, false, body);
  }

  /** The consequence of opening without `O_TRUNC`: a shorter fresh body
      leaves the old file's tail in place. */
  lemma StaleTailSurvives(maxRetries: int, last: bool, f: seq<bv8>, length: int, body: seq<Read>)
    requires length > 0 && NoFault(body) && |Delivered(body)| < |f|
    ensures var a := Attempt(maxRetries, true, last, Some(f), Response(200, length, body, false));
      && a.file.Some? && |a.file.value| == |f|
      && a.file.value == Delivered(body) + f[|Delivered(body)|..]
  {
    AttemptRestarts(maxRetries, last, Some(f), length, body);
    assert f[..0] == [];
  }

  /** A 200 or 206 answer with a positive length, once the file opens:
      the read loop's file and reports, after the bar starts at the resume
      offset, and its ending turned into a verdict. */
  lemma AttemptStreams(maxRetries: int, last: bool, disk: Option<seq<bv8>>, status: int, length: int, body: seq<Read>)
    requires (status == 200 || status == 206) && length > 0
    ensures var pos := if status == 200 then 0 else Size(disk);
      var s := Stream(disk.GetOr([]), 0, pos > 0, body);
      Attempt(maxRetries, true, last, disk, Response(status, length, body, false)) ==
        AttemptLog(Some(s.file), [Started(pos + length, pos)] + s.events, [Size(disk)],
                   match s.end
                   case Complete => Finish(Success)
                   case WriteBroke => FailOr(last, WriteFailed)
                   case ReadBroke => FailOr(last, ReadFailed))
  {
  }

  /** A 200 or 206 answer whose body meets a disk that refuses read `i`:
      the bytes written before it and the part of read `i` that reached the
      file are kept, the bar reports each earlier chunk and then one failure
      (nothing for the refused read), and the attempt is retried unless it
      is the last, which fails with the write error. */
  lemma AttemptWriteFault(maxRetries: int, last: bool, disk: Option<seq<bv8>>, status: int, length: int,
                          body: seq<Read>, i: nat)
    requires status == 200 || status == 206
    requires length > 0 && FaultAt(body, i)
    ensures var a := Attempt(maxRetries, true, last, disk, Response(status, length, body, false));
      var f := disk.GetOr([]);
      var pos := if status == 200 then 0 else Size(disk);
      && a.ranges == [Size(disk)]
      && a.file == Some(if pos > 0 then f + Delivered(body[..i]) + Torn(body[i])
                        else WriteAt(f, 0, Delivered(body[..i]) + Torn(body[i])))
      && a.events == [Started(pos + length, pos)] + ChunkReports(body[..i]) + [Failed]
      && (a.verdict == Retry <==> !last)
      && (last ==> a.verdict == Finish(Failure(WriteFailed)))
  {
    var f := disk.GetOr([]);
    var pos := if status == 200 then 0 else Size(disk);
    AttemptStreams(maxRetries, last, disk, status, length, body);
    StreamFaultReports(f, 0, pos > 0, body, i);
    if pos > 0 {
      StreamFaultAppends(f, 0, body, i);
    } else {
      StreamFaultOverwrites(f, 0, body, i);
    }
  }

  // ---------------------------------------------------------------------
  // The retry loop

  /** Attempts, delays and requests of the attempts from number `k` on. */
  lemma {:induction false} RunCounts(maxRetries: int, urlOk: bool, k: nat, disk: Option<seq<bv8>>, net: seq<Exchange>)
    ensures var t := Run(maxRetries, urlOk, k, disk, net);
      && (k >= maxRetries ==> t == Trace(Failure(Exhausted(maxRetries)), disk, [], [], 0, 0))
      && (k < maxRetries ==> 1 <= t.attempts <= maxRetries - k)
      && t.delays == (if t.attempts == 0 then 0 else if k > 0 then t.attempts else t.attempts - 1)
      && |t.ranges| <= t.attempts
      && (t.outcome.Failure? && t.outcome.error.Exhausted? <==> k >= maxRetries)
    decreases maxRetries - k
  {
    if k < maxRetries {
      var a := Attempt(maxRetries, urlOk, k == maxRetries - 1, disk, ExchangeAt(net, k));
      RunStep(maxRetries, urlOk, k, disk, net);
      AttemptShape(maxRetries, urlOk, k == maxRetries - 1, disk, ExchangeAt(net, k));
      if a.verdict.Retry? {
        RunCounts(maxRetries, urlOk, k + 1, a.file, net);
      }
    }
  }

  /** At most `maxRetries` attempts, a delay before each but the first, at
      most one request per attempt, and "download failed after N attempts"
      exactly when no attempt may be made. */
  lemma DownloadCounts(maxRetries: int, dirOk: bool, urlOk: bool, disk: Option<seq<bv8>>, net: seq<Exchange>)
    ensures var t := Download(maxRetries, dirOk, urlOk, disk, net);
      && t.attempts <= (if maxRetries > 0 then maxRetries else 0)
      && (dirOk && maxRetries > 0 ==> t.attempts >= 1)
      && t.delays == (if t.attempts == 0 then 0 else t.attempts - 1)
      && |t.ranges| <= t.attempts
      && (t.outcome.Failure? && t.outcome.error.Exhausted? <==> dirOk && maxRetries <= 0)
      && (dirOk && maxRetries <= 0 ==> t == Trace(Failure(Exhausted(maxRetries)), disk, [], [], 0, 0))
      && (!dirOk ==> t == Trace(Failure(DirFailed), disk, [], [], 0, 0))
  {
    if dirOk {
      RunCounts(maxRetries, urlOk, 0, disk, net);
    }
  }

  /** A 416 answer ends the download in success at once, whatever attempts
      remain, with the file untouched. */
  lemma RangeNotSatisfiableEnds(maxRetries: int, k: nat, disk: Option<seq<bv8>>, net: seq<Exchange>)
    requires k < maxRetries && k < |net| && net[k].Response? && net[k].status == 416
    ensures Run(maxRetries, true, k, disk, net) ==
      Trace(Success, disk, [], [Size(disk)], 1, if k > 0 then 1 else 0)
  {
    RunStep(maxRetries, true, k, disk, net);
  }

  /** With the network down, every attempt is made and fails: `maxRetries`
      requests, all for the rest of the unchanged file, and one delay fewer. */
  /** Every request of the script gets no response. */
  predicate Unanswered(net: seq<Exchange>)
  {
    forall k :: 0 <= k < |net| ==> net[k].NoResponse?
  }

  lemma {:induction false} RunOffline(maxRetries: int, k: nat, disk: Option<seq<bv8>>, net: seq<Exchange>)
    requires k < maxRetries && Unanswered(net)
    ensures Run(maxRetries, true, k, disk, net) ==
      Trace(Failure(SendFailed(maxRetries)), disk, [], seq(maxRetries - k, _ => Size(disk)),
            maxRetries - k, if k > 0 then maxRetries - k else maxRetries - k - 1)
    decreases maxRetries - k
  {
    RunStep(maxRetries, true, k, disk, net);
    if k < maxRetries - 1 {
      RunOffline(maxRetries, k + 1, disk, net);
      assert [Size(disk)] + seq(maxRetries - k - 1, _ => Size(disk)) == seq(maxRetries - k, _ => Size(disk));
    } else {
      assert [Size(disk)] == seq(1, _ => Size(disk));
    }
  }

  lemma DownloadOffline(maxRetries: int, disk: Option<seq<bv8>>, net: seq<Exchange>)
    requires maxRetries > 0 && Unanswered(net)
    ensures Download(maxRetries, true, true, disk, net) ==
      Trace(Failure(SendFailed(maxRetries)), disk, [], seq(maxRetries, _ => Size(disk)), maxRetries, maxRetries - 1)
  {
    RunOffline(maxRetries, 0, disk, net);
  }

  // ---------------------------------------------------------------------
  // Resuming after a dropped connection

  /** A download whose first response breaks off after some bytes and whose
      second, asked for the rest, delivers the remainder: the file holds the
      bytes of both halves in order, the second request resumed at the end
      of the first half, and one delay separated them. */
  lemma ResumeAfterDrop(maxRetries: int, len1: int, b1: seq<Read>, len2: int, b2: seq<Read>, rest: seq<Exchange>)
    requires maxRetries >= 2 && len1 > 0 && len2 > 0
    requires NoFault(b1) && Ending(b1) == ReadError && Delivered(b1) != []
    requires NoFault(b2) && Ending(b2) == EndOfBody
    ensures var t := Download(maxRetries, true, true, None, [Response(200, len1, b1, false), Response(206, len2, b2, false)] + rest);
      && t.outcome == Success
      && t.file == Some(Delivered(b1) + Delivered(b2))
      && t.ranges == [0, |Delivered(b1)|]
      && t.attempts == 2 && t.delays == 1
  {
    var net := [Response(200, len1, b1, false), Response(206, len2, b2, false)] + rest;
    assert ExchangeAt(net, 0) == Response(200, len1, b1, false);
    assert ExchangeAt(net, 1) == Response(206, len2, b2, false);
    var e0 := DroppedFirst(maxRetries, len1, b1, net);
    CompletedSecond(maxRetries, Delivered(b1), len2, b2, net);
  }

  /** The first attempt of `ResumeAfterDrop`: its partial body is kept and
      the download goes on with attempt 1. */
  lemma DroppedFirst(maxRetries: int, len1: int, b1: seq<Read>, net: seq<Exchange>) returns (events: seq<Event>)
    requires maxRetries >= 2 && len1 > 0
    requires NoFault(b1) && Ending(b1) == ReadError
    requires ExchangeAt(net, 0) == Response(200, len1, b1, false)
    ensures Run(maxRetries, true, 0, None, net) == After(events, [0], 1, 0, Run(maxRetries, true, 1, Some(Delivered(b1)), net))
  {
    var d1 := Delivered(b1);
    AttemptRestarts(maxRetries, false, None, len1, b1);
    var a0 := Attempt(maxRetries, true, false, None, ExchangeAt(net, 0));
    assert WriteAt([], 0, d1) == d1;
    assert a0.verdict == Retry && a0.file == Some(d1) && a0.ranges == [0];
    RunStep(maxRetries, true, 0, None, net);
    events := a0.events;
  }

  /** The second attempt of `ResumeAfterDrop`: the rest is appended and the
      download succeeds. */
  lemma CompletedSecond(maxRetries: int, d1: seq<bv8>, len2: int, b2: seq<Read>, net: seq<Exchange>)
    requires maxRetries >= 2 && len2 > 0 && d1 != []
    requires NoFault(b2) && Ending(b2) == EndOfBody
    requires ExchangeAt(net, 1) == Response(206, len2, b2, false)
    ensures var t := Run(maxRetries, true, 1, Some(d1), net);
      t.outcome == Success && t.file == Some(d1 + Delivered(b2)) && t.ranges == [|d1|] && t.attempts == 1 && t.delays == 1
  {
    var last := 1 == maxRetries - 1;
    AttemptResumes(maxRetries, last, d1, len2, b2);
    RunStep(maxRetries, true, 1, Some(d1), net);
  }

  /** The same bytes in one uninterrupted response give the same file. */
  lemma ResumeMatchesSingle(maxRetries: int, len1: int, b1: seq<Read>, len2: int, b2: seq<Read>, rest: seq<Exchange>,
                            len: int, b: seq<Read>)
    requires maxRetries >= 2 && len1 > 0 && len2 > 0 && len > 0
    requires NoFault(b1) && Ending(b1) == ReadError && Delivered(b1) != []
    requires NoFault(b2) && Ending(b2) == EndOfBody
    requires NoFault(b) && Ending(b) == EndOfBody && Delivered(b) == Delivered(b1) + Delivered(b2)
    ensures var single := Download(maxRetries, true, true, None, [Response(200, len, b, false)]);
      var resumed := Download(maxRetries, true, true, None, [Response(200, len1, b1, false), Response(206, len2, b2, false)] + rest);
      single.outcome == resumed.outcome == Success && single.file == resumed.file
  {
    ResumeAfterDrop(maxRetries, len1, b1, len2, b2, rest);
    AttemptRestarts(maxRetries, 0 == maxRetries - 1, None, len, b);
    assert WriteAt([], 0, Delivered(b)) == Delivered(b);
    RunStep(maxRetries, true, 0, None, [Response(200, len, b, false)]);
  }
}
