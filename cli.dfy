/** The `cf-downloader` command (cmd/root.go): the flag values, the output
    directory fixed up before the run, the `-H key=value` header flags turned
    into request options, the output file name taken from the URL, and the
    run that hands all of it to the download client. */
module Cli {
  import opened Wrappers
  import opened GoStrings
  import opened GoPath
  import Http
  import Transport
  import Client
  import DownloadFacts

  const DefaultOutputDir := "downloads"
  const FallbackFileName := "downloaded_file"

  // ---------------------------------------------------------------------
  // Output directory

  /** The output directory actually used: the flag, or "downloads" when it
      was set to the empty string. */
  function EffectiveOutputDir(dir: string): (r: string)
    ensures r != ""
    ensures dir == "" ==> r == "downloads"
    ensures dir != "" ==> r == dir
  {
    if dir == "" then DefaultOutputDir else dir
  }

  // ---------------------------------------------------------------------
  // Header flags

  /** One `-H` entry split at its first '=' with both sides trimmed, or
      nothing when it has no '='. */
  function ParseEntry(entry: string): (r: Option<(string, string)>)
    ensures r.None? <==> '=' !in entry
  {
    var parts := SplitN2(entry, '=');
    if |parts| == 2 then Some((TrimSpace(parts[0]), TrimSpace(parts[1]))) else None
  }

  /** A parsed entry is the trimmed text before its first '=' and the
      trimmed text after it. */
  lemma ParseEntryShape(entry: string)
    requires '=' in entry
    ensures exists k, v :: entry == k + "=" + v && '=' !in k &&
                          ParseEntry(entry) == Some((TrimSpace(k), TrimSpace(v)))
  {
    var parts := SplitN2(entry, '=');
    assert entry == parts[0] + "=" + parts[1] && '=' !in parts[0];
    assert ParseEntry(entry) == Some((TrimSpace(parts[0]), TrimSpace(parts[1])));
  }

  /** Splitting happens at the first '=' only, so a value keeps any '='
      it contains. */
  lemma ValueKeepsEquals(k: string, v: string)
    requires '=' !in k
    ensures ParseEntry(k + "=" + v) == Some((TrimSpace(k), TrimSpace(v)))
  {
    SplitN2Unique(k + "=" + v, '=', k, v);
    assert k + "=" + v == k + ['='] + v;
  }

  /** Every entry parsed. */
  function Parsed(entries: seq<string>): (ps: seq<Option<(string, string)>>)
    ensures |ps| == |entries|
  {
    seq(|entries|, i requires 0 <= i < |entries| => ParseEntry(entries[i]))
  }

  /** Parsed entry `i` is entry `i` parsed. */
  lemma ParsedAt(entries: seq<string>, i: nat)
    requires i < |entries|
    ensures Parsed(entries)[i] == ParseEntry(entries[i])
  {
  }

  /** The map that setting each parsed entry in turn builds. */
  function Fold(ps: seq<Option<(string, string)>>): map<string, string>
  {
    if ps == [] then map[]
    else
      var m := Fold(ps[..|ps| - 1]);
      var e := ps[|ps| - 1];
      if e.Some? then m[e.value.0 := e.value.1] else m
  }

  lemma TakeOneMore<T>(s: seq<T>, i: nat)
    requires i < |s|
    ensures s[..i + 1] == s[..i] + [s[i]]
  {
  }

  lemma FoldPush(ps: seq<Option<(string, string)>>, e: Option<(string, string)>)
    ensures Fold(ps + [e]) == if e.Some? then Fold(ps)[e.value.0 := e.value.1] else Fold(ps)
  {
    assert (ps + [e])[..|ps|] == ps;
  }

  /** The header map the `-H` entries give. */
  function HeaderMap(entries: seq<string>): map<string, string>
  {
    Fold(Parsed(entries))
  }

  /** The request options the run passes on: none without header flags or
      when none of them holds a '=', so that the client's defaults apply. */
  function RequestOptions(entries: seq<string>): Option<Client.RequestOption>
  {
    if |entries| > 0 && |HeaderMap(entries)| > 0 then Some(Client.RequestOption(Some(HeaderMap(entries))))
    else None
  }

  /** The `for _, h := range cfg.Headers` loop: each entry with an '='
      sets its trimmed key to its trimmed value. */
  method HeaderLoop(hs: seq<string>) returns (m: map<string, string>)
    ensures m == HeaderMap(hs)
  {
    ghost var ps := Parsed(hs);
    m := map[];
    var i := 0;
    while i < |hs|
      invariant 0 <= i <= |hs|
      invariant m == Fold(ps[..i])
    {
      // strings.SplitN(h, "=", 2), then both sides trimmed when there are two
      var entry := ParseEntry(hs[i]);
      assert Fold(ps[..i + 1]) == if entry.Some? then m[entry.value.0 := entry.value.1] else m by {
        ParsedAt(hs, i);
        TakeOneMore(ps, i);
        FoldPush(ps[..i], entry);
      }
      if entry.Some? {
        m := m[entry.value.0 := entry.value.1];
      }
      i := i + 1;
    }
    assert ps[..i] == ps;
  }

  /** Parsed entry `i` is well-formed with key `k`. */
  predicate SetsKey(ps: seq<Option<(string, string)>>, i: int, k: string)
  {
    0 <= i < |ps| && ps[i].Some? && ps[i].value.0 == k
  }

  /** Parsed entry `i` is the last well-formed entry with key `k`. */
  predicate LastToSet(ps: seq<Option<(string, string)>>, i: int, k: string)
  {
    SetsKey(ps, i, k) && forall j :: i < j < |ps| ==> !SetsKey(ps, j, k)
  }

  /** The keys are those of the well-formed entries. */
  lemma {:induction false} FoldKeys(ps: seq<Option<(string, string)>>, k: string)
    ensures k in Fold(ps) <==> exists i :: SetsKey(ps, i, k)
    decreases |ps|
  {
    if ps != [] {
      var n := |ps| - 1;
      var init := ps[..n];
      FoldKeys(init, k);
      if k in Fold(init) {
        var i :| SetsKey(init, i, k);
        assert SetsKey(ps, i, k);
      }
      if i :| SetsKey(ps, i, k) {
        if i < n {
          assert init[i] == ps[i];
          assert SetsKey(init, i, k);
        }
      } else {
        assert !SetsKey(ps, n, k);
        forall i | 0 <= i < n ensures !SetsKey(init, i, k) {
          assert init[i] == ps[i];
        }
      }
    }
  }

  /** Each key holds the value of the last entry with that key. */
  lemma {:induction false} FoldLastWins(ps: seq<Option<(string, string)>>, k: string)
    requires k in Fold(ps)
    ensures exists i :: LastToSet(ps, i, k) && ps[i].value.1 == Fold(ps)[k]
    decreases |ps|
  {
    var init := ps[..|ps| - 1];
    var n := |ps| - 1;
    if SetsKey(ps, n, k) {
      assert LastToSet(ps, n, k);
    } else {
      FoldLastWins(init, k);
      var i :| LastToSet(init, i, k) && init[i].value.1 == Fold(init)[k];
      forall j | i < j < |ps| ensures !SetsKey(ps, j, k) {
        if j < n {
          assert !SetsKey(init, j, k);
        }
      }
      assert LastToSet(ps, i, k);
    }
  }

  /** The header map's keys are the trimmed keys of the entries that hold a
      '=', and each holds the trimmed value of the LAST such entry with that
      key. */
  lemma HeaderMapLastWins(entries: seq<string>, k: string)
    ensures k in HeaderMap(entries) <==> exists i :: SetsKey(Parsed(entries), i, k)
    ensures k in HeaderMap(entries) ==>
      exists i :: LastToSet(Parsed(entries), i, k) && Parsed(entries)[i].value.1 == HeaderMap(entries)[k]
  {
    var ps := Parsed(entries);
    assert HeaderMap(entries) == Fold(ps);
    FoldKeys(ps, k);
    if k in Fold(ps) {
      var i :| SetsKey(ps, i, k);
      assert SetsKey(Parsed(entries), i, k);
      assert exists i :: SetsKey(Parsed(entries), i, k);
      assert k in HeaderMap(entries);
      FoldLastWins(ps, k);
    } else {
      assert forall i :: !SetsKey(Parsed(entries), i, k);
    }
  }

  /** Options are given exactly when some entry holds a '='. */
  lemma RequestOptionsGiven(entries: seq<string>)
    ensures RequestOptions(entries).Some? <==> exists i :: 0 <= i < |entries| && '=' in entries[i]
    ensures RequestOptions(entries).Some? ==> RequestOptions(entries).value.headers == Some(HeaderMap(entries))
  {
    var ps := Parsed(entries);
    if i :| 0 <= i < |entries| && '=' in entries[i] {
      ParsedAt(entries, i);
      var k := ps[i].value.0;
      FoldKeys(ps, k);
      assert SetsKey(ps, i, k);
      assert k in HeaderMap(entries);
    } else {
      forall k | k in HeaderMap(entries) ensures false {
        FoldKeys(ps, k);
        var i :| SetsKey(ps, i, k);
        ParsedAt(entries, i);
      }
      assert HeaderMap(entries) == map[];
    }
  }

  // ---------------------------------------------------------------------
  // Output file

  /** The file name: the last element of the URL, or "downloaded_file" when
      that is "." (an empty URL, or one ending in a "." element). */
  function FileName(url: string): (r: string)
    ensures r != "" && r != "."
    ensures r == "/" || '/' !in r
    ensures Base(url) == "." ==> r == "downloaded_file"
    ensures Base(url) != "." ==> r == Base(url)
  {
    var base := Base(url);
    if base == "" || base == "." then FallbackFileName else base
  }

  /** Where the download goes. */
  function OutputPath(dir: string, url: string): string
  {
    Join(dir, FileName(url))
  }

  /** A URL ending in a plain name is saved under that name in the output
      directory: the cleaned directory, a slash, then the name. */
  lemma OutputPathInDir(dir: string, url: string)
    requires FileName(url) != "/" && FileName(url) != ".."
    ensures OutputPath(dir, url) == DirPrefix(Clean(dir)) + FileName(url)
    ensures Base(OutputPath(dir, url)) == FileName(url)
  {
    JoinFileName(dir, FileName(url));
  }

  /** The name is the last element of the URL, whatever slashes follow it. */
  lemma FileNameOfUrl(prefix: string, name: string, slashes: string)
    requires prefix == [] || prefix[|prefix| - 1] == '/'
    requires name != [] && name != "." && '/' !in name
    requires forall k :: 0 <= k < |slashes| ==> slashes[k] == '/'
    ensures FileName(prefix + name + slashes) == name
  {
    BaseOfLast(prefix, name, slashes);
  }

  /** A URL whose last element is "." is saved as "downloaded_file". */
  lemma FileNameOfDot(prefix: string, slashes: string)
    requires prefix == [] || prefix[|prefix| - 1] == '/'
    requires forall k :: 0 <= k < |slashes| ==> slashes[k] == '/'
    ensures FileName(prefix + "." + slashes) == "downloaded_file"
  {
    BaseOfLast(prefix, ".", slashes);
  }

  lemma FileNameOfEmptyUrl()
    ensures FileName("") == FallbackFileName
  {
  }

  // ---------------------------------------------------------------------
  // The command

  /** A network script that agrees with the transport: a route the
      transport refuses outright gets no response to any request. */
  predicate FitsRoute(route: Transport.Path, net: seq<Client.Exchange>)
  {
    route.Reject? ==> DownloadFacts.Unanswered(net)
  }

  /** A URL the transport refuses outright (a scheme other than http and
      https, or https without a usable proxy) never gets a response: every
      attempt fails to send, each asking for the rest of the unchanged
      file, and the download fails naming maxRetries. */
  lemma RefusedUrlFails(proxyURL: string, parsedProxy: Option<Transport.ProxyUrl>, target: Http.Url,
                        maxRetries: int, disk: Option<seq<bv8>>, net: seq<Client.Exchange>)
    requires maxRetries > 0
    requires target.scheme != "http" && (target.scheme != "https" || proxyURL == "" || parsedProxy.None?)
    requires FitsRoute(Transport.Route(target.scheme, Client.ProxyOf(proxyURL, parsedProxy)), net)
    ensures var t := Client.Download(maxRetries, true, true, disk, net);
      && t.outcome == Client.Failure(Client.SendFailed(maxRetries))
      && t.file == disk && t.events == []
      && t.ranges == seq(maxRetries, _ => Client.Size(disk))
  {
    assert Transport.Route(target.scheme, Client.ProxyOf(proxyURL, parsedProxy)).Reject?;
    DownloadFacts.DownloadOffline(maxRetries, disk, net);
  }

  /** The command's flag values. */
  class Config {
    var url: string
    var proxyURL: string
    var outputDir: string
    var maxRetries: int
    var retryDelay: int
    var headers: seq<string>

    /** The flags as given on the command line. */
    constructor (url: string, proxyURL: string, outputDir: string, maxRetries: int, retryDelay: int, headers: seq<string>)
      ensures this.url == url && this.proxyURL == proxyURL && this.outputDir == outputDir
      ensures this.maxRetries == maxRetries && this.retryDelay == retryDelay && this.headers == headers
    {
      this.url := url;
      this.proxyURL := proxyURL;
      this.outputDir := outputDir;
      this.maxRetries := maxRetries;
      this.retryDelay := retryDelay;
      this.headers := headers;
    }

    /** `PreRun`: default the output directory, make it absolute with
        `abs` (`filepath.Abs`; `None` when it fails) and create it
        (`mkdirOk`). Returns 1, the exit status, when either step fails. */
    method PreRun(abs: string -> Option<string>, mkdirOk: bool) returns (exit: Option<int>)
      modifies this
      ensures var dir := EffectiveOutputDir(old(outputDir));
        && (abs(dir).None? ==> exit == Some(1) && outputDir == dir)
        && (abs(dir).Some? ==> outputDir == abs(dir).value && exit == (if mkdirOk then None else Some(1)))
      ensures url == old(url) && proxyURL == old(proxyURL) && maxRetries == old(maxRetries)
      ensures retryDelay == old(retryDelay) && headers == old(headers)
    {
      if outputDir == "" {
        outputDir := DefaultOutputDir;
      }
      var absPath := abs(outputDir);
      if absPath.None? {
        return Some(1);
      }
      outputDir := absPath.value;
      if !mkdirOk {
        return Some(1);
      }
      return None;
    }

    /** The header-flag loop of `Run`. */
    method ParseHeaders() returns (opts: Option<Client.RequestOption>)
      ensures opts == RequestOptions(headers)
    {
      var hs := headers;
      if |hs| == 0 {
        return None;
      }
      var m := HeaderLoop(hs);
      if |m| > 0 {
        return Some(Client.RequestOption(Some(m)));
      }
      return None;
    }

    /** `Run`: make the client, parse the header flags, derive the output
        path and download to it. `parsedProxy` is what `url.Parse` makes of
        the proxy flag, `target` the parsed URL; `dirOk`, `urlOk`, `disk`
        and `net` are as for `DownloadFile`. Returns the exit status (1 when
        the download fails), the output path, what the download did and the
        headers of every request it sent. */
    method Run(parsedProxy: Option<Transport.ProxyUrl>, target: Http.Url, dirOk: bool, urlOk: bool,
               disk: Option<seq<bv8>>, net: seq<Client.Exchange>)
      returns (exit: int, path: string, t: Client.Trace, sent: seq<Http.Header>)
      ensures path == OutputPath(outputDir, url)
      ensures t == Client.Download(maxRetries, dirOk, urlOk, disk, net)
      ensures Client.AllSent(sent, Client.HeaderSource(RequestOptions(headers), Client.DefaultHeaders), t.ranges)
      ensures exit == (if t.outcome == Client.Success then 0 else 1)
    {
      var client := new Client.Client(proxyURL, parsedProxy, maxRetries, retryDelay);
      var opts := ParseHeaders();
      path := OutputPath(outputDir, url);
      t, sent := client.DownloadFile(target, opts, dirOk, urlOk, disk, net);
      exit := if t.outcome == Client.Success then 0 else 1;
    }
  }
}
