/** The parts of Go's `net/http` request that the downloader touches: the
    header map, whose `Set` stores a value under the canonical form of its key
    (`textproto.CanonicalMIMEHeaderKey`), and the request object whose header
    and protocol fields the client and transport update in place. */
module Http {

  type Header = map<string, string>

  /** A parsed request URL: scheme and `host[:port]`. */
  datatype Url = Url(scheme: string, host: string)

  /** The bytes Go accepts in a header field name (RFC 7230 token characters). */
  predicate IsTokenChar(c: char) {
    ('a' <= c <= 'z') || ('A' <= c <= 'Z') || ('0' <= c <= '9') || c in "!#$%&'*+-.^_`|~"
  }

  predicate IsToken(s: string) {
    s == [] || (IsTokenChar(s[0]) && IsToken(s[1..]))
  }

  function Lower(c: char): char {
    if 'A' <= c <= 'Z' then (c as int + 32) as char else c
  }

  function Upper(c: char): char {
    if 'a' <= c <= 'z' then (c as int - 32) as char else c
  }

  /** `s` with every ASCII letter in lower case. */
  function ToLower(s: string): (r: string)
    ensures |r| == |s|
  {
    if s == [] then [] else [Lower(s[0])] + ToLower(s[1..])
  }

  /** Upper case at the start and after each '-', lower case elsewhere. */
  function CaseFold(s: string, upper: bool): (r: string)
    ensures |r| == |s|
  {
    if s == [] then []
    else
      var c := if upper then Upper(s[0]) else Lower(s[0]);
      [c] + CaseFold(s[1..], c == '-')
  }

  /** `textproto.CanonicalMIMEHeaderKey`: a key made only of token characters
      is case-folded ("user-agent" becomes "User-Agent"); any other key is
      kept as it is. */
  function CanonicalKey(k: string): (r: string)
    ensures |r| == |k|
  {
    if IsToken(k) then CaseFold(k, true) else k
  }

  /** Canonicalising changes letter case only. */
  lemma CanonicalKeySameLetters(k: string)
    ensures ToLower(CanonicalKey(k)) == ToLower(k)
  {
    if IsToken(k) {
      CaseFoldIgnoresCase(k, true);
    }
  }

  lemma {:induction false} CaseFoldIgnoresCase(s: string, upper: bool)
    ensures CaseFold(s, upper) == CaseFold(ToLower(s), upper)
    ensures ToLower(CaseFold(s, upper)) == ToLower(s)
    ensures IsToken(s) ==> IsToken(CaseFold(s, upper))
  {
    if s != [] {
      CaseFoldIgnoresCase(s[1..], (if upper then Upper(s[0]) else Lower(s[0])) == '-');
      assert ToLower(s)[1..] == ToLower(s[1..]);
    }
  }

  lemma {:induction false} CaseFoldIdempotent(s: string, upper: bool)
    ensures CaseFold(CaseFold(s, upper), upper) == CaseFold(s, upper)
  {
    if s != [] {
      var c := if upper then Upper(s[0]) else Lower(s[0]);
      CaseFoldIdempotent(s[1..], c == '-');
    }
  }

  /** Two token keys that differ only in letter case name the same header. */
  lemma SameKeyIgnoringCase(k1: string, k2: string)
    requires IsToken(k1) && IsToken(k2) && ToLower(k1) == ToLower(k2)
    ensures CanonicalKey(k1) == CanonicalKey(k2)
  {
    CaseFoldIgnoresCase(k1, true);
    CaseFoldIgnoresCase(k2, true);
  }

  /** A canonical key is its own canonical form. */
  lemma CanonicalKeyIdempotent(k: string)
    ensures CanonicalKey(CanonicalKey(k)) == CanonicalKey(k)
  {
    if IsToken(k) {
      CaseFoldIgnoresCase(k, true);
      CaseFoldIdempotent(k, true);
    }
  }

  /** The header names a map of headers is stored under. */
  function CanonicalKeys(src: map<string, string>): set<string>
  {
    set k | k in src :: CanonicalKey(k)
  }

  /** `after` is `before` with every entry of `src` `Set`, in some order: its
      names are the old ones plus the canonical forms of the source keys, names
      the source does not touch keep their value, and every touched name holds
      the value of a source key that canonicalises to it (which one is up to
      Go's map iteration order when several do). */
  ghost predicate SetAll(before: Header, after: Header, src: map<string, string>)
  {
    && after.Keys == before.Keys + CanonicalKeys(src)
    && (forall h :: h in after && h !in CanonicalKeys(src) ==> after[h] == before[h])
    && (forall h :: h in CanonicalKeys(src) ==>
          exists k :: k in src && CanonicalKey(k) == h && after[h] == src[k])
  }

  /** When no two source keys share a canonical form the outcome does not
      depend on the order: each source value sits under its key's canonical
      form. */
  lemma SetAllDistinct(before: Header, after: Header, src: map<string, string>)
    requires SetAll(before, after, src)
    requires forall k1, k2 :: k1 in src && k2 in src && CanonicalKey(k1) == CanonicalKey(k2) ==> k1 == k2
    ensures forall k :: k in src ==> CanonicalKey(k) in after && after[CanonicalKey(k)] == src[k]
  {
    forall k | k in src
      ensures CanonicalKey(k) in after && after[CanonicalKey(k)] == src[k]
    {
      assert CanonicalKey(k) in CanonicalKeys(src);
    }
  }

  /** The request under construction (`http.Request`): the URL is fixed, the
      header and the protocol version fields are updated in place. */
  class Request {
    const url: Url
    var header: Header
    var proto: string
    var protoMajor: int
    var protoMinor: int

    /** `http.NewRequest`: no headers yet, protocol HTTP/1.1. */
    constructor (url: Url)
      ensures this.url == url && header == map[]
      ensures proto == "HTTP/1.1" && protoMajor == 1 && protoMinor == 1
    {
      this.url := url;
      header := map[];
      proto, protoMajor, protoMinor := "HTTP/1.1", 1, 1;
    }

    /** `Header.Set`: replaces whatever the canonical key held. */
    method SetHeader(k: string, v: string)
      modifies this
      ensures header == old(header)[CanonicalKey(k) := v]
      ensures proto == old(proto) && protoMajor == old(protoMajor) && protoMinor == old(protoMinor)
    {
      header := header[CanonicalKey(k) := v];
    }

    /** Records the protocol version the request is sent with. */
    method SetProto(name: string, major: int, minor: int)
      modifies this
      ensures header == old(header)
      ensures proto == name && protoMajor == major && protoMinor == minor
    {
      proto, protoMajor, protoMinor := name, major, minor;
    }
  }
}
