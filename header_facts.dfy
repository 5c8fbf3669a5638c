/** What the headers of a download request are: exactly the client's three
    defaults or exactly the per-request headers, never a mix, under their
    canonical names, plus `Range: bytes=N-` exactly when resuming from
    `N > 0`. */
module HeaderFacts {
  import opened Wrappers
  import opened GoStrings
  import opened Http
  import opened Client

  lemma KeysOfThree(m: map<string, string>, a: string, b: string, c: string)
    requires m.Keys == {a, b, c}
    ensures CanonicalKeys(m) == {CanonicalKey(a), CanonicalKey(b), CanonicalKey(c)}
  {
    var keys := {CanonicalKey(a), CanonicalKey(b), CanonicalKey(c)};
    forall x | x in CanonicalKeys(m) ensures x in keys {
      var k :| k in m && CanonicalKey(k) == x;
    }
    assert a in m && b in m && c in m;
  }

  /** Canonicalising keeps the length, so names of different lengths stay
      different. */
  lemma DistinctThree(m: map<string, string>, a: string, b: string, c: string)
    requires m.Keys == {a, b, c} && |a| != |b| && |b| != |c| && |a| != |c|
    ensures forall k1, k2 :: k1 in m && k2 in m && CanonicalKey(k1) == CanonicalKey(k2) ==> k1 == k2
  {
    forall k1, k2 | k1 in m && k2 in m && CanonicalKey(k1) == CanonicalKey(k2) ensures k1 == k2 {
      assert |k1| == |CanonicalKey(k1)| && |k2| == |CanonicalKey(k2)|;
    }
  }

  lemma NoKeysBefore(h: Header, empty: Header, keys: set<string>)
    requires empty == map[] && h.Keys == empty.Keys + keys
    ensures h.Keys == keys
  {
  }

  lemma MapOfThree(h: Header, ka: string, kb: string, kc: string)
    requires h.Keys == {ka, kb, kc}
    ensures h == map[ka := h[ka], kb := h[kb], kc := h[kc]]
  {
  }

  /** Three header names of different lengths keep different canonical
      names, and `SetAll` on an empty header stores each value under its
      key's canonical name and nothing else. */
  lemma SetThree(h: Header, m: map<string, string>, a: string, b: string, c: string)
    requires m.Keys == {a, b, c} && |a| != |b| && |b| != |c| && |a| != |c|
    requires SetAll(map[], h, m)
    ensures h == map[CanonicalKey(a) := m[a], CanonicalKey(b) := m[b], CanonicalKey(c) := m[c]]
  {
    KeysOfThree(m, a, b, c);
    DistinctThree(m, a, b, c);
    SetAllDistinct(map[], h, m);
    NoKeysBefore(h, map[], CanonicalKeys(m));
    assert a in m && b in m && c in m;
    MapOfThree(h, CanonicalKey(a), CanonicalKey(b), CanonicalKey(c));
  }

  /** Setting the defaults on an empty header gives exactly the three
      default headers, each under the canonical form of its name. */
  lemma DefaultHeadersSet(h: Header)
    requires SetAll(map[], h, DefaultHeaders)
    ensures h == map[CanonicalKey("accept") := DefaultHeaders["accept"],
                     CanonicalKey("accept-language") := DefaultHeaders["accept-language"],
                     CanonicalKey("user-agent") := DefaultHeaders["user-agent"]]
  {
    SetThree(h, DefaultHeaders, "accept", "accept-language", "user-agent");
  }

  /** Per-request headers, when given (even an empty map), are the only
      ones set: a default is present only if a per-request key names it.
      Without them exactly the defaults are set. */
  lemma HeadersReplaceDefaults(opts: Option<RequestOption>, h: Header)
    requires SetAll(map[], h, HeaderSource(opts, DefaultHeaders))
    ensures opts.Some? && opts.value.headers.Some? ==>
      var m := opts.value.headers.value;
      && h.Keys == CanonicalKeys(m)
    ensures !(opts.Some? && opts.value.headers.Some?) ==>
      h == map[CanonicalKey("accept") := DefaultHeaders["accept"],
               CanonicalKey("accept-language") := DefaultHeaders["accept-language"],
               CanonicalKey("user-agent") := DefaultHeaders["user-agent"]]
  {
    if !(opts.Some? && opts.value.headers.Some?) {
      DefaultHeadersSet(h);
    }
  }

  /** A request given a single header carries that header alone: none of
      the defaults is added. */
  lemma SingleCustomHeader(h: Header, k: string, v: string)
    requires SetAll(map[], h, HeaderSource(Some(RequestOption(Some(map[k := v]))), DefaultHeaders))
    ensures h == map[CanonicalKey(k) := v]
  {
    var m := map[k := v];
    forall x | x in CanonicalKeys(m) ensures x == CanonicalKey(k) {
      var j :| j in m && CanonicalKey(j) == x;
    }
    assert k in m;
    assert CanonicalKeys(m) == {CanonicalKey(k)};
    SetAllDistinct(map[], h, m);
    NoKeysBefore(h, map[], CanonicalKeys(m));
  }

  /** The offset a `Range: bytes=N-` value asks for. */
  function RangeStart(v: string): (r: Option<nat>)
    ensures r.Some? ==> v == RangeValue(r.value)
  {
    if |v| >= 8 && v[..6] == "bytes=" && v[|v| - 1] == '-' && AllDigits(v[6..|v| - 1])
       && (v[6] != '0' || |v| == 8)
    then
      var digits := v[6..|v| - 1];
      DecimalOfValue(digits);
      assert v == v[..6] + digits + [v[|v| - 1]];
      Some(DecimalValue(digits))
    else None
  }

  /** The `Range` value names the offset it was built from. */
  lemma RangeRoundTrip(pos: nat)
    ensures RangeStart(RangeValue(pos)) == Some(pos)
  {
    var v := RangeValue(pos);
    var d := Decimal(pos);
    assert v[..6] == "bytes=" && v[6..|v| - 1] == d && v[|v| - 1] == '-';
    DecimalRoundTrip(pos);
  }

  /** Unless a per-request key names `Range` itself, a download request
      carries `Range` exactly when it resumes from a positive offset, with
      that offset as its value, besides the headers set from `src`. */
  lemma SentRange(h: Header, src: map<string, string>, pos: nat)
    requires SentHeaders(h, src, pos)
    requires forall k :: k in src ==> CanonicalKey(k) != "Range"
    ensures "Range" in h <==> pos > 0
    ensures pos > 0 ==> h["Range"] == RangeValue(pos) && RangeStart(h["Range"]) == Some(pos)
    ensures h.Keys - {"Range"} == CanonicalKeys(src)
  {
    if pos > 0 {
      var base :| SetAll(map[], base, src) && h == base["Range" := RangeValue(pos)];
      RangeRoundTrip(pos);
    }
  }
}
