/** `uTransport.RoundTrip`: plain HTTP goes to the standard transport; HTTPS
    goes through a CONNECT tunnel opened on the configured proxy, a TLS
    handshake with the browser-like ClientHello, and then HTTP/2 or HTTP/1.1
    depending on the protocol ALPN negotiated. The TCP dial, the TLS library,
    the HTTP/2 engine and the HTTP/1.1 reader are oracles (`Wire`); what is
    modelled is every decision RoundTrip takes on their answers. */
module Transport {
  import opened Wrappers
  import opened GoStrings
  import opened Http

  datatype TransportError =
    | UnsupportedScheme(scheme: string)
    | ProxyNotConfigured
    | ProxyDialFailed
    | ConnectWriteFailed
    | ProxyReplyUnreadable
    | ConnectRefused(status: string)
    | PresetFailed
    | HandshakeFailed
    | H2ConnFailed
    | H1WriteFailed
    | UnsupportedAlpn(alpn: string)
    | EngineFailed(reason: string)

  /** What the server answered: status code and declared body length. */
  datatype Response = Response(statusCode: int, contentLength: int)

  /** The answer of an HTTP engine the model does not look inside. */
  datatype Reply = Answered(response: Response) | Broken(reason: string)

  function Delivered(r: Reply): Result<Response, TransportError>
  {
    match r
    case Answered(resp) => Ok(resp)
    case Broken(reason) => Err(EngineFailed(reason))
  }

  /** `url.URL.Port()`: the digits after the last ':' of the host, or "" when
      there is no colon or the text after the last one is not all digits (as
      in a bracketed IPv6 address without a port). */
  function Port(host: string): (p: string)
    ensures AllDigits(p)
    ensures p != "" ==> |p| < |host| && host == host[..|host| - |p| - 1] + ":" + p
  {
    var i := LastIndex(host, ':');
    if i >= 0 && AllDigits(host[i + 1..]) then
      assert host == host[..i] + [host[i]] + host[i + 1..];
      host[i + 1..]
    else ""
  }

  /** A host followed by ":" and digits has exactly those digits as its port. */
  lemma PortOfSuffix(host: string, digits: string)
    requires digits != "" && AllDigits(digits)
    ensures Port(host + ":" + digits) == digits
  {
    var s := host + ":" + digits;
    var i := LastIndex(s, ':');
    assert s[|host|] == ':';
    forall k | |host| < k < |s| ensures s[k] != ':' {
      assert s[k] == digits[k - |host| - 1];
    }
    assert i == |host|;
    assert s[i + 1..] == digits;
  }

  /** The CONNECT destination: the URL host, with ":443" added exactly when
      the host carries no port. The destination always names a port. */
  function ConnectTarget(host: string): (dest: string)
    ensures Port(dest) != ""
    ensures Port(host) != "" ==> dest == host
    ensures Port(host) == "" ==> dest == host + ":443"
  {
    if Port(host) == "" then
      assert AllDigits("443") && host + ":443" == host + ":" + "443";
      PortOfSuffix(host, "443");
      host + ":443"
    else host
  }

  /** A request head of the form `<verb><dest> <mid><host><end>`. */
  function Head(verb: string, dest: string, mid: string, host: string, end: string): string
  {
    verb + dest + " " + mid + host + end
  }

  /** The request written to the proxy to open the tunnel. */
  function ConnectRequest(host: string): string
  {
    Head("CONNECT ", ConnectTarget(host), "HTTP/1.1\r\nHost: ", host, "\r\n\r\n")
  }

  function StripPrefix(s: string, prefix: string): Option<string>
  {
    if |prefix| <= |s| && s[..|prefix|] == prefix then Some(s[|prefix|..]) else None
  }

  function StripSuffix(s: string, suffix: string): Option<string>
  {
    if |suffix| <= |s| && s[|s| - |suffix|..] == suffix then Some(s[..|s| - |suffix|]) else None
  }

  lemma StripAround(prefix: string, x: string, suffix: string)
    ensures StripPrefix(prefix + x, prefix) == Some(x)
    ensures StripSuffix(x + suffix, suffix) == Some(x)
  {
    assert (prefix + x)[..|prefix|] == prefix;
    assert (x + suffix)[|x|..] == suffix;
  }

  /** Reads a head of the `Head` shape back: the text between the verb and
      the first space, and the text between `mid` and `end`. */
  function ParseHead(s: string, verb: string, mid: string, end: string): Option<(string, string)>
  {
    match StripPrefix(s, verb)
    case None => None
    case Some(line) =>
      var parts := SplitN2(line, ' ');
      if |parts| != 2 then None
      else match StripPrefix(parts[1], mid)
        case None => None
        case Some(hostLine) =>
          match StripSuffix(hostLine, end)
          case None => None
          case Some(host) => Some((parts[0], host))
  }

  /** How a proxy reads a CONNECT request: the destination on the request
      line and the value of the Host header. */
  function ParseConnect(s: string): Option<(string, string)>
  {
    ParseHead(s, "CONNECT ", "HTTP/1.1\r\nHost: ", "\r\n\r\n")
  }

  lemma HeadRoundTrip(verb: string, dest: string, mid: string, host: string, end: string)
    requires ' ' !in dest
    ensures ParseHead(Head(verb, dest, mid, host, end), verb, mid, end) == Some((dest, host))
  {
    var tail := mid + host + end;
    var line := dest + " " + tail;
    assert Head(verb, dest, mid, host, end) == verb + line;
    StripAround(verb, line, "");
    SplitN2Unique(line, ' ', dest, tail);
    assert tail == mid + (host + end);
    StripAround(mid, host + end, "");
    StripAround("", host, end);
  }

  /** The proxy reads back the destination (with its port) and the Host the
      client meant, for every host without a space in it. */
  lemma ConnectRequestRoundTrip(host: string)
    requires ' ' !in host
    ensures ParseConnect(ConnectRequest(host)) == Some((ConnectTarget(host), host))
  {
    assert ' ' !in ConnectTarget(host);
    HeadRoundTrip("CONNECT ", ConnectTarget(host), "HTTP/1.1\r\nHost: ", host, "\r\n\r\n");
  }

  /** A proxy URL that parsed. */
  datatype ProxyUrl = ProxyUrl(host: string)

  /** How `NewClient` configured `tr1.Proxy`: left unset for an empty proxy
      flag, otherwise a fixed proxy that is absent when the flag did not
      parse as a URL. */
  datatype ProxySetting = Unset | Fixed(url: Option<ProxyUrl>)

  datatype Path = Plain | Reject(error: TransportError) | Tunnel(proxyHost: string) | Crash

  /** The scheme and proxy checks at the top of RoundTrip, as written: the
      proxy function is called even when `NewClient` never set it, and calling
      a nil function value panics. */
  function RouteAsWritten(scheme: string, proxy: ProxySetting): (r: Path)
    ensures r.Crash? <==> scheme == "https" && proxy == Unset
    ensures r.Plain? <==> scheme == "http"
  {
    if scheme == "http" then Plain
    else if scheme != "https" then Reject(UnsupportedScheme(scheme))
    else match proxy
      case Unset => Crash
      case Fixed(None) => Reject(ProxyNotConfigured)
      case Fixed(Some(u)) => Tunnel(u.host)
  }

  /** An HTTPS request, with the proxy flag left empty, crashes the program
      instead of failing with "proxy URL is not configured". */
  lemma UnsetProxyCrashes()
    ensures RouteAsWritten("https", Unset) == Crash
    ensures Route("https", Unset) == Reject(ProxyNotConfigured)
  {
  }

  /** The scheme and proxy checks as intended: plain HTTP goes to the standard
      transport, any scheme but http and https is refused, HTTPS without a
      usable proxy is refused, and otherwise the tunnel goes to the proxy. */
  function Route(scheme: string, proxy: ProxySetting): (r: Path)
    ensures !r.Crash?
    ensures r.Plain? <==> scheme == "http"
    ensures r == Reject(UnsupportedScheme(scheme)) <==> scheme != "http" && scheme != "https"
    ensures r == Reject(ProxyNotConfigured) <==> scheme == "https" && (proxy.Unset? || proxy.url.None?)
    ensures r.Tunnel? <==> scheme == "https" && proxy.Fixed? && proxy.url.Some?
    ensures r.Tunnel? ==> r.proxyHost == proxy.url.value.host
  {
    if scheme == "https" && proxy.Unset? then Reject(ProxyNotConfigured)
    else RouteAsWritten(scheme, proxy)
  }

  /** Outside the crashing case the intended checks are the written ones. */
  lemma RouteMatchesSource(scheme: string, proxy: ProxySetting)
    requires !(scheme == "https" && proxy.Unset?)
    ensures Route(scheme, proxy) == RouteAsWritten(scheme, proxy)
  {
  }

  /** `http.ParseHTTPVersion`. */
  function ParseHttpVersion(v: string): Option<(int, int)>
  {
    if |v| == 8 && v[..5] == "HTTP/" && IsDigit(v[5]) && v[6] == '.' && IsDigit(v[7])
    then Some((v[5] as int - '0' as int, v[7] as int - '0' as int))
    else None
  }

  datatype Engine = H2 | H1

  /** The protocol a request is sent with: engine and declared version. */
  datatype Proto = Proto(engine: Engine, name: string, major: int, minor: int)

  /** The ALPN dispatch: "h2" selects the HTTP/2 engine and declares
      HTTP/2.0, "http/1.1" or no ALPN at all selects HTTP/1.1, and anything
      else is refused. The declared name always spells the declared numbers. */
  function Negotiate(alpn: string): (r: Result<Proto, TransportError>)
    ensures r.Ok? <==> alpn == "h2" || alpn == "http/1.1" || alpn == ""
    ensures r.Ok? ==> (r.value.engine == H2 <==> alpn == "h2")
    ensures r.Ok? ==> ParseHttpVersion(r.value.name) == Some((r.value.major, r.value.minor))
    ensures r.Ok? ==> r.value.major == (if alpn == "h2" then 2 else 1)
    ensures r.Ok? ==> r.value.minor == (if alpn == "h2" then 0 else 1)
    ensures r.Err? ==> r.error == UnsupportedAlpn(alpn)
  {
    if alpn == "h2" then Ok(Proto(H2, "HTTP/2.0", 2, 0))
    else if alpn == "http/1.1" || alpn == "" then Ok(Proto(H1, "HTTP/1.1", 1, 1))
    else Err(UnsupportedAlpn(alpn))
  }

  datatype ProxyReply = ProxyReply(statusCode: int, status: string)

  /** The answers of everything RoundTrip calls but the model does not look
      inside, for one round trip. */
  datatype Wire = Wire(
    plainReply: Reply,                // tr1.RoundTrip (plain HTTP)
    dialOk: bool,                     // net.DialTimeout to the proxy
    connectWriteOk: bool,             // writing the CONNECT request
    proxyReply: Option<ProxyReply>,   // http.ReadResponse on the proxy's answer
    presetOk: bool,                   // UConn.ApplyPreset with the ClientHello spec
    handshakeOk: bool,                // UConn.Handshake
    alpn: string,                     // the negotiated protocol
    h2ConnOk: bool,                   // http2.Transport.NewClientConn
    h2Reply: Reply,                   // the HTTP/2 round trip
    h1WriteOk: bool,                  // Request.Write on the TLS connection
    h1Reply: Reply)                   // http.ReadResponse on the TLS connection

  /** What one round trip did: its result, the proxy address it dialed (if
      it tried), whether that connection opened, the CONNECT text it wrote,
      whether the TLS session came up, and whether it closed the connection
      itself. */
  datatype Transcript = Transcript(
    result: Result<Response, TransportError>,
    dialedHost: Option<string>,
    dialed: bool,
    connectText: Option<string>,
    secured: bool,
    closed: bool)

  /** Every step of the tunnel before the HTTP exchange succeeds: the dial,
      the CONNECT write, a readable 200 answer from the proxy, the ClientHello
      preset and the TLS handshake. */
  predicate TunnelUp(wire: Wire)
  {
    && wire.dialOk && wire.connectWriteOk
    && wire.proxyReply.Some? && wire.proxyReply.value.statusCode == 200
    && wire.presetOk && wire.handshakeOk
  }

  /** The error of the first tunnel step that fails, if one does. */
  function TunnelError(wire: Wire): (e: Option<TransportError>)
    ensures e.None? <==> TunnelUp(wire)
  {
    if !wire.dialOk then Some(ProxyDialFailed)
    else if !wire.connectWriteOk then Some(ConnectWriteFailed)
    else if wire.proxyReply.None? then Some(ProxyReplyUnreadable)
    else if wire.proxyReply.value.statusCode != 200 then Some(ConnectRefused(wire.proxyReply.value.status))
    else if !wire.presetOk then Some(PresetFailed)
    else if !wire.handshakeOk then Some(HandshakeFailed)
    else None
  }

  /** The answer of the engine the negotiated protocol selects. */
  function EngineResult(p: Proto, wire: Wire): Result<Response, TransportError>
  {
    if p.engine == H2
    then (if wire.h2ConnOk then Delivered(wire.h2Reply) else Err(H2ConnFailed))
    else (if wire.h1WriteOk then Delivered(wire.h1Reply) else Err(H1WriteFailed))
  }

  method RoundTrip(req: Request, proxy: ProxySetting, wire: Wire) returns (t: Transcript)
    modifies req
    ensures req.header == old(req.header)
    ensures var route := Route(req.url.scheme, proxy);
      && (route.Plain? ==> t == Transcript(Delivered(wire.plainReply), None, false, None, false, false))
      && (route.Reject? ==> t == Transcript(Err(route.error), None, false, None, false, false))
      && (route.Tunnel? ==>
            && t.dialedHost == Some(route.proxyHost)
            && t.dialed == wire.dialOk
            && (t.secured <==> TunnelUp(wire))
            && (!TunnelUp(wire) ==> t.result == Err(TunnelError(wire).value)))
    ensures t.connectText.Some? ==> t.dialed && t.connectText.value == ConnectRequest(req.url.host)
    ensures t.dialed && wire.connectWriteOk ==> t.connectText.Some?
    ensures t.secured ==> t.connectText.Some? && wire.proxyReply.Some? && wire.proxyReply.value.statusCode == 200
    ensures t.dialed && !t.secured ==> t.closed
    ensures !t.dialed ==> !t.closed
    ensures t.secured ==> !t.closed
    ensures t.secured ==> match Negotiate(wire.alpn)
      case Ok(p) =>
        && req.proto == p.name && req.protoMajor == p.major && req.protoMinor == p.minor
        && t.result == EngineResult(p, wire)
      case Err(e) =>
        && t.result == Err(e)
        && req.proto == old(req.proto) && req.protoMajor == old(req.protoMajor) && req.protoMinor == old(req.protoMinor)
    ensures !t.secured ==> req.proto == old(req.proto) && req.protoMajor == old(req.protoMajor) && req.protoMinor == old(req.protoMinor)
  {
    var route := Route(req.url.scheme, proxy);
    var proxyHost;
    match route {
      case Plain =>
        return Transcript(Delivered(wire.plainReply), None, false, None, false, false);
      case Reject(e) =>
        return Transcript(Err(e), None, false, None, false, false);
      case Tunnel(h) =>
        proxyHost := h;
    }
    var dialed := Some(proxyHost);
    if !wire.dialOk {
      return Transcript(Err(ProxyDialFailed), dialed, false, None, false, false);
    }
    var text := ConnectRequest(req.url.host);
    if !wire.connectWriteOk {
      return Transcript(Err(ConnectWriteFailed), dialed, true, None, false, true);
    }
    if wire.proxyReply.None? {
      return Transcript(Err(ProxyReplyUnreadable), dialed, true, Some(text), false, true);
    }
    if wire.proxyReply.value.statusCode != 200 {
      return Transcript(Err(ConnectRefused(wire.proxyReply.value.status)), dialed, true, Some(text), false, true);
    }
    if !wire.presetOk {
      return Transcript(Err(PresetFailed), dialed, true, Some(text), false, true);
    }
    if !wire.handshakeOk {
      return Transcript(Err(HandshakeFailed), dialed, true, Some(text), false, true);
    }
    match Negotiate(wire.alpn) {
      case Err(e) =>
        t := Transcript(Err(e), dialed, true, Some(text), true, false);
      case Ok(p) =>
        req.SetProto(p.name, p.major, p.minor);
        t := Transcript(EngineResult(p, wire), dialed, true, Some(text), true, false);
    }
  }
}
