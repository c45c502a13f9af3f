/** The request/response wrapper (`fiberWrapper` in humafiber.go) the API
    framework works through during one request. Only the logic that belongs to
    the adapter itself is modelled: the status cache, the TLS decision and the
    URL accessor. The engine's request object is a value that records what the
    adapter told it. */
module RequestWrapper {
  import opened Wrappers
  import opened ValueBridge

  /** The framework's operation descriptor, as far as the adapter reads it. */
  datatype Operation = Operation(httpMethod: string, path: string)

  /** The engine's per-request object as the adapter sees it: the locals in
      enumeration order, what `Protocol()` returns, what `Scheme()` returns
      ("http" or "https"), the raw request URI, and every status code set on the
      response during this request so far, oldest first. Codes set before the
      handler ran, by middleware for instance, are part of that trace. */
  datatype NativeCtx<K, V> = NativeCtx(
    locals: seq<(K, Option<V>)>,
    protocol: string,
    scheme: string,
    requestUri: string,
    statusSent: seq<int>)

  /** The wrapper: the operation, the cached status, the engine object and the
      value bridge handed to the framework as its context. */
  datatype FiberWrapper<!K, V> = FiberWrapper(op: Operation, status: int, orig: NativeCtx<K, V>, ctx: Bridge<K, V>)

  /** Runtime faults (Go panics) the adapter can raise. */
  datatype Fault = NilDereference | NotHumaFiberContext

  /** The composite literal built per request: `status` is left at Go's zero value. */
  function NewWrapper<K, V>(op: Operation, orig: NativeCtx<K, V>, ctx: Bridge<K, V>): (w: FiberWrapper<K, V>)
    ensures Status(w) == 0
    ensures w.op == op && w.orig == orig && w.ctx == ctx
  {
    FiberWrapper(op, 0, orig, ctx)
  }

  /** `Status`: the cached code. */
  function Status<K, V>(w: FiberWrapper<K, V>): int
  {
    w.status
  }

  /** The status most recently forwarded to the engine, if any. */
  function LastSent<K, V>(c: NativeCtx<K, V>): Option<int>
  {
    if |c.statusSent| == 0 then None else Some(c.statusSent[|c.statusSent| - 1])
  }

  /** The cache and the engine agree: the engine's most recent status is the
      cached one. */
  predicate CacheAgrees<K, V>(w: FiberWrapper<K, V>)
  {
    LastSent(w.orig) == Some(w.status)
  }

  /** `SetStatus`: record the code, then forward it to the engine. Nothing else
      about the wrapper or the engine object changes. */
  function SetStatus<K, V>(w: FiberWrapper<K, V>, code: int): (r: FiberWrapper<K, V>)
    ensures Status(r) == code
    ensures LastSent(r.orig) == Some(code)
    ensures CacheAgrees(r)
    ensures r.orig.statusSent == w.orig.statusSent + [code]
    ensures r.op == w.op && r.ctx == w.ctx
    ensures r.orig.locals == w.orig.locals && r.orig.protocol == w.orig.protocol
    ensures r.orig.scheme == w.orig.scheme && r.orig.requestUri == w.orig.requestUri
  {
    var orig := w.orig;
    var w' := w.(status := code);
    w'.(orig := orig.(statusSent := orig.statusSent + [code]))
  }

  /** A handler that sets several codes in turn. */
  function SetStatuses<K, V>(w: FiberWrapper<K, V>, codes: seq<int>): FiberWrapper<K, V>
    decreases |codes|
  {
    if |codes| == 0 then w else SetStatuses(SetStatus(w, codes[0]), codes[1..])
  }

  /** After any non-empty run of `SetStatus` calls, `Status` reports the last
      code, the engine was sent every code in call order, and cache and engine
      agree; with no call, the status is untouched. */
  lemma {:induction false} StatusFollowsLastSet<K, V>(w: FiberWrapper<K, V>, codes: seq<int>)
    ensures SetStatuses(w, codes).orig.statusSent == w.orig.statusSent + codes
    ensures |codes| == 0 ==> Status(SetStatuses(w, codes)) == Status(w)
    ensures |codes| > 0 ==> Status(SetStatuses(w, codes)) == codes[|codes| - 1]
    ensures |codes| > 0 ==> CacheAgrees(SetStatuses(w, codes))
    decreases |codes|
  {
    if |codes| > 0 {
      var w1 := SetStatus(w, codes[0]);
      StatusFollowsLastSet(w1, codes[1..]);
      assert w.orig.statusSent + [codes[0]] + codes[1..] == w.orig.statusSent + codes;
      if |codes| == 1 {
        assert SetStatuses(w1, codes[1..]) == w1;
      }
    }
  }

  /** A fresh wrapper reports 0 whatever the engine holds: nothing yet (Fiber
      then answers 200) or a status set by earlier middleware. Before the first
      `SetStatus` the cache follows the engine only if the engine was last sent 0. */
  lemma FreshWrapperIgnoresEngine<K, V>(op: Operation, orig: NativeCtx<K, V>, ctx: Bridge<K, V>)
    requires LastSent(orig) != Some(0)
    ensures !CacheAgrees(NewWrapper(op, orig, ctx))
  {
  }

  /** `tls.ConnectionState{}`: every field at Go's zero value. */
  datatype ConnectionState = ConnectionState(version: int, handshakeComplete: bool, serverName: string)

  const Placeholder: ConnectionState := ConnectionState(0, false, "")

  /** `TLS` as written: a placeholder state when `Protocol()` is exactly
      "https", nil otherwise. No handshake detail is ever filled in. */
  function TLS<K, V>(w: FiberWrapper<K, V>): (r: Option<ConnectionState>)
    ensures r.Some? <==> w.orig.protocol == "https"
    ensures r.Some? ==> r.value == Placeholder
  {
    if w.orig.protocol == "https" then Some(Placeholder) else None
  }

  /** The comparison is exact: any other spelling counts as plain HTTP. */
  lemma TlsIsCaseSensitive<K, V>(w: FiberWrapper<K, V>)
    requires w.orig.protocol == "HTTPS"
    ensures TLS(w).None?
  {
  }

  /** An HTTP version string such as "HTTP/1.1", the kind of value `Version`
      passes on from the same `Protocol()` call. */
  predicate IsVersionString(p: string)
  {
    |p| >= 5 && p[..5] == "HTTP/"
  }

  /** `TLS` keyed on the scheme of the request instead of `Protocol()`. */
  function TlsByScheme<K, V>(w: FiberWrapper<K, V>): (r: Option<ConnectionState>)
    ensures r.Some? <==> w.orig.scheme == "https"
    ensures r.Some? ==> r.value == Placeholder
  {
    if w.orig.scheme == "https" then Some(Placeholder) else None
  }

  /** If `Protocol()` returns a version string, `TLS` as written is nil even on an
      https request, where the scheme-based check yields the placeholder. */
  lemma TlsMissesHttpsOnVersionString<K, V>(w: FiberWrapper<K, V>)
    requires IsVersionString(w.orig.protocol) && w.orig.scheme == "https"
    ensures TLS(w).None?
    ensures TlsByScheme(w) == Some(Placeholder)
  {
    assert w.orig.protocol != "https" by {
      assert w.orig.protocol[0] == 'H';
    }
  }

  /** When `Protocol()` does return the scheme, the two checks agree. */
  lemma TlsAgreesWhenProtocolIsScheme<K, V>(w: FiberWrapper<K, V>)
    requires w.orig.protocol == w.orig.scheme
    ensures TLS(w) == TlsByScheme(w)
  {
  }

  /** A parsed URL (`net/url.URL`), reduced to the parts callers read. */
  datatype Url = Url(scheme: string, host: string, path: string, rawQuery: string)

  /** Go's zero `url.URL`. */
  const ZeroUrl: Url := Url("", "", "", "")

  /** `URL` as written: the parse error is discarded and the result dereferenced,
      so a request URI the parser rejects ends in a nil-dereference panic. `parse`
      stands for `net/url.Parse`, `None` for its error return. */
  function UrlAsWritten<K, V>(w: FiberWrapper<K, V>, parse: string -> Option<Url>): (r: Result<Url, Fault>)
    ensures r.Failure? <==> parse(w.orig.requestUri).None?
    ensures r.Failure? ==> r.error == NilDereference
    ensures r.Success? ==> r.value == parse(w.orig.requestUri).value
  {
    match parse(w.orig.requestUri)
    case Some(u) => Success(u)
    case None => Failure(NilDereference)
  }

  /** A URI the parser rejects makes the accessor as written fault. */
  lemma UrlAsWrittenPanics<K, V>(w: FiberWrapper<K, V>, parse: string -> Option<Url>)
    requires parse(w.orig.requestUri).None?
    ensures UrlAsWritten(w, parse) == Failure(NilDereference)
  {
  }

  /** `URL` degrading softly: the parsed URL, or the zero URL on a parse error. */
  function SafeUrl<K, V>(w: FiberWrapper<K, V>, parse: string -> Option<Url>): (r: Url)
    ensures parse(w.orig.requestUri).Some? ==> r == parse(w.orig.requestUri).value
    ensures parse(w.orig.requestUri).None? ==> r == ZeroUrl
  {
    match parse(w.orig.requestUri)
    case Some(u) => u
    case None => ZeroUrl
  }

  /** The soft accessor never faults and returns what the accessor as written
      returns whenever that one does not fault. */
  lemma SafeUrlAgreesWhenParsed<K, V>(w: FiberWrapper<K, V>, parse: string -> Option<Url>)
    ensures UrlAsWritten(w, parse).Success? ==> SafeUrl(w, parse) == UrlAsWritten(w, parse).value
    ensures UrlAsWritten(w, parse).Failure? ==> SafeUrl(w, parse) == ZeroUrl
  {
  }
}
