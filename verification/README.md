# humafiber in Dafny

A model of the adapter between the Huma API framework and the Fiber v3 web
engine (`humafiber.go`). Most of the adapter hands calls straight to Fiber. This
model covers the logic the adapter owns:

- **Path-template rewrite** (`PathTemplate`). When an operation is registered,
  Huma's `{name}` parameters become Fiber's `:name`. The adapter calls
  `strings.ReplaceAll` twice. `ReplaceAll` is modelled with Go's semantics:
  leftmost, non-overlapping matches, and an empty pattern matching around every
  character. The model proves that the two calls amount to a per-character
  translation. From that it proves no braces remain, the exact output length,
  where each kept character lands, idempotence, and that the rewrite works
  segment by segment.
- **Value bridge** (`ValueBridge`). `contextWrapper.Value` asks the embedded
  standard context first. A Go `nil` answer is a miss. On a miss it scans the
  snapshot of Fiber locals for the first pair with an equal key. The embedded
  context is a lookup function `K -> Option<V>`, where `None` is Go's `nil`. The
  snapshot is a sequence of pairs. The route handler's snapshot loop is a method
  with loop invariants.
- **Wrapper** (`RequestWrapper`). The cached status starts at zero. `SetStatus`
  records a code and forwards it to the engine. The engine object keeps a trace
  of every code it was sent, so the model can state when cache and engine agree.
  `TLS` returns a placeholder only when `Protocol()` is `"https"`. `TLS` and
  `URL` are each modelled as written and corrected; see Findings.
- **Adapter** (`Adapter`). `Unwrap` is a tagged-variant check that fails with a
  fault for foreign contexts and a nil-dereference fault for a nil wrapper. The route registration uses the rewritten
  template. The per-request handler builds the snapshot, the bridge over
  `context.Background()` and the wrapper, and always returns nil to the engine.

Parameters stand in for things outside the adapter:

- Fiber's Locals enumeration is the `locals` sequence of the engine object, in
  visit order.
- `net/url.Parse` is a function argument `string -> Option<Url>`.
- The framework's handler is not modelled. `HandleRequest` returns the wrapper
  the handler would receive.

## Model

| member | source | states |
|---|---|---|
| PathTemplate.ReplaceAll | humafiber.go:193-194 | Go's `strings.ReplaceAll` with a one-character pattern replaces each occurrence of that character on its own; when the replacement equals the pattern the string is unchanged, as Go's shortcut for that case returns it |
| PathTemplate.RewritePath | humafiber.go:192-194 | the rewritten template contains no `{` and no `}`, and is shorter than the input by exactly the number of `}` |
| PathTemplate.RewriteIsPerCharacter | humafiber.go:192-194 | the two `ReplaceAll` calls together map `{` to `:`, drop `}` and keep every other character |
| PathTemplate.RewriteKeepsOrder | humafiber.go:192-194 | each character other than `}` appears, in order, at its index minus the number of earlier `}`; a `{` appears there as `:` |
| PathTemplate.RewriteKeepsOrderEverywhere | humafiber.go:192-194 | the same placement holds for every index of the template at once |
| PathTemplate.RewriteConcat | humafiber.go:193-194 | rewriting two pieces and joining them gives the rewrite of the joined template |
| PathTemplate.RewriteFixesBraceFree | humafiber.go:193-194 | a template already in Fiber's syntax, without braces, passes unchanged |
| PathTemplate.RewriteIdempotent | humafiber.go:193-194 | rewriting an already rewritten template changes nothing |
| PathTemplate.RewriteParameter | humafiber.go:191-194 | a brace-free segment followed by `{name}` becomes the segment followed by `:name` |
| PathTemplate.TwoSegments | humafiber.go:191-194 | two such segment-and-parameter pieces in a row are each rewritten the same way |
| PathTemplate.RewriteSingleParameter | humafiber.go:191-194 | `/items/{id}` becomes `/items/:id` |
| PathTemplate.RewriteTwoParameters | humafiber.go:191-194 | `/users/{id}/posts/{post}` becomes `/users/:id/posts/:post` |
| PathTemplate.RewriteEmptyParameter | humafiber.go:192-194 | parameter names are not checked: a brace-free segment followed by `{}` becomes the segment followed by a bare `:` |
| ValueBridge.Scan | humafiber.go:182-187 | the snapshot scan gives nil when no pair has the key, and otherwise the value of the earliest pair with the key |
| ValueBridge.Value | humafiber.go:177-188 | a non-nil answer of the embedded context is returned whatever the snapshot holds; on a miss the earliest matching pair decides; with no match the answer is nil |
| ValueBridge.ValueIsNilIff | humafiber.go:177-188 | `Value` is nil exactly when the embedded context misses and either no pair has the key or the earliest pair with it holds nil |
| ValueBridge.LaterPairsIgnored | humafiber.go:182-186 | once a pair with the key exists, appending more pairs, duplicates included, does not change the answer: the earliest pair wins |
| ValueBridge.BuildSnapshot | humafiber.go:198-205 | the snapshot has one pair per visited local, in visit order, with key and value copied unchanged |
| ValueBridge.LocalVisibleThroughBridge | humafiber.go:177-188 | with distinct local keys, a local's value is what the bridge returns for its key unless the embedded context supplies a non-nil value |
| ValueBridge.SnapshotAsWritten | humafiber.go:198-205 | if `Locals` treats the callback as a key to look up, the snapshot holds no pair for any local's key |
| ValueBridge.SnapshotAsWrittenHidesLocals | humafiber.go:177-205 | with such an empty snapshot a non-nil local reads as nil through the bridge, while the enumerated snapshot returns its value |
| ValueBridge.BackgroundDefersToSnapshot | humafiber.go:210-213 | over `context.Background()` the bridge answers every key from the snapshot scan alone |
| RequestWrapper.NewWrapper | humafiber.go:207-214 | a freshly built wrapper reports status 0 and carries the given operation, engine object and context |
| RequestWrapper.SetStatus | humafiber.go:120-124 | afterwards `Status` returns the code, the engine has been sent that code last, and nothing else changes |
| RequestWrapper.StatusFollowsLastSet | humafiber.go:120-128 | after a run of `SetStatus` calls the engine has been sent every code in call order, and `Status` returns the last one |
| RequestWrapper.FreshWrapperIgnoresEngine | humafiber.go:207-214 | a fresh wrapper reports 0 whether the engine holds nothing yet or a non-zero status from earlier middleware; until the first `SetStatus` the cache agrees with the engine only if the engine was last sent 0 |
| RequestWrapper.TLS | humafiber.go:141-150 | as written, the connection state is non-nil exactly when `Protocol()` is `"https"`, and it is then the all-zero placeholder |
| RequestWrapper.TlsIsCaseSensitive | humafiber.go:143 | the protocol comparison is exact: `"HTTPS"` yields nil |
| RequestWrapper.TlsMissesHttpsOnVersionString | humafiber.go:143 | if `Protocol()` returns a version string such as `HTTP/1.1`, `TLS` as written is nil even on an https request, where the scheme-based check gives the placeholder |
| RequestWrapper.TlsByScheme | humafiber.go:141-150 | the scheme-based check is non-nil exactly when the request scheme is `"https"`, and it is then the all-zero placeholder |
| RequestWrapper.TlsAgreesWhenProtocolIsScheme | humafiber.go:141-150 | when `Protocol()` returns the scheme, `TLS` as written and the scheme-based check give the same result |
| RequestWrapper.UrlAsWritten | humafiber.go:73-76 | as written, the accessor faults with a nil dereference exactly when the request URI fails to parse, and otherwise returns the parsed URL |
| RequestWrapper.UrlAsWrittenPanics | humafiber.go:73-76 | a request URI the parser rejects makes the accessor as written fault |
| RequestWrapper.SafeUrl | humafiber.go:73-76 | the corrected accessor returns the parsed URL, or the zero URL when parsing fails |
| RequestWrapper.SafeUrlAgreesWhenParsed | humafiber.go:73-76 | the corrected accessor agrees with the one as written whenever that one does not fault, and never faults itself |
| Adapter.Unwrap | humafiber.go:23-28 | succeeds exactly on this adapter's own non-nil contexts and returns the engine object inside; a nil wrapper pointer passes the type check and faults with a nil dereference; any other context fails with the "not a humafiber context" fault |
| Adapter.UnwrapRecoversNative | humafiber.go:45-47 | `Unwrap` on a wrapper built around an engine object returns that object, which also carries any status the framework set through the wrapper |
| Adapter.RegisterRoute | humafiber.go:190-196 | the route is registered for the operation's method only; its template has no braces, the predicted length and the kept characters in place, and it is a fixed point of the rewrite |
| Adapter.HandleRequest | humafiber.go:196-216 | the handler returns nil to the engine; the framework gets a wrapper with status 0 around the engine object, a snapshot of its locals, and an embedded context that holds no values |
| Adapter.RegisterItemsRoute | humafiber.go:192-196 | a GET operation at `/items/{id}` is registered as GET `/items/:id` |

## Left out

- Pure delegations to Fiber: `Method`, `Host`, `RemoteAddr`, `Param`, `Query`, `Header`, `EachHeader`, `AppendHeader`, `SetHeader`, `GetMultipartForm`, `BodyWriter`, `Matched` and `Version`. Their behaviour lives in Fiber, which is not part of this model.
- The trivial getters `Operation`, `Context`, `Status` and the method form of `Unwrap`. They return a field. The value `Status` returns is pinned by `RequestWrapper.NewWrapper`, `RequestWrapper.SetStatus` and `RequestWrapper.StatusFollowsLastSet`; `Unwrap` as a whole is modelled in `Adapter.Unwrap`.
- `BodyReader`. Whether it streams or buffers depends on the Fiber server configuration and on live I/O.
- `SetReadDeadline`. It ignores its argument and always returns nil.
- `ServeHTTP`. It runs a request in process through `fiber.App.Test`, copies headers, streams the body and panics on error. All of this is I/O over Fiber.
- `New`, `NewWithGroup` and the route table. These are calls into Huma and Fiber. `RegisterRoute` models only the arguments that `Handle` passes to `Add`.
- How Fiber's Locals enumeration behaves. Fiber v3 is not part of this model. `ValueBridge.BuildSnapshot` assumes `c.Locals(callback)` visits every local once, in a fixed order; the other reading is a Findings row.
- Go interface details of key comparison. Comparing two interface keys whose dynamic type is not comparable panics in Go. An interface holding a typed nil is itself non-nil. The model compares keys with Dafny equality and treats nil as `None`.
- The engine's own default status. Fiber reports 200 when no code was set. The engine object records every code set on the response during the request, including codes set before the handler ran. It does not model the 200 Fiber reports when that trace is empty.
- Status codes have no range check or width in either the source or the model. The code is stored and forwarded unchanged, so Go's `int` width does not matter.
- Pooling of Fiber contexts and concurrency between requests. These concern memory reuse and goroutines, not sequential behaviour.
- ValueBridge.LocalVisibleThroughBridge: requires the locals' keys to be distinct, as in a per-request key/value store. Without distinct keys, `ValueBridge.Value` and `ValueBridge.LaterPairsIgnored` state which pair wins.

## Findings

| source | as written | input that shows it | evidently intended | confidence | as-written member | corrected member |
|---|---|---|---|---|---|---|
| humafiber.go:73-76 | the error from `url.Parse` is discarded and `*u` is dereferenced, so a request URI the parser rejects makes `u` nil and the accessor panics | a request whose URI is `/%zz`, which `url.Parse` rejects as an invalid escape | return a zero or partial URL on a malformed URI instead of crashing request handling | medium, not executed; depends on Fiber passing such a URI through | RequestWrapper.UrlAsWritten (fault shown by RequestWrapper.UrlAsWrittenPanics) | RequestWrapper.SafeUrl (agreement proved by RequestWrapper.SafeUrlAgreesWhenParsed) |
| humafiber.go:141-150 | `TLS` compares `Protocol()` with `"https"`, while `Version` at line 154 passes the same call on as the HTTP version. In Fiber v3, `Protocol()` returns the version, such as `HTTP/1.1`, and `Scheme()` returns `http` or `https` | an https request to a Fiber v3 server, where `Protocol()` is `HTTP/1.1` and `Scheme()` is `https` | return the placeholder for https requests by checking the scheme | low, not executed; rests on Fiber v3's `Protocol()` behaviour, which is not part of this model | RequestWrapper.TLS (discrepancy shown by RequestWrapper.TlsMissesHttpsOnVersionString) | RequestWrapper.TlsByScheme (agreement when `Protocol()` is the scheme proved by RequestWrapper.TlsAgreesWhenProtocolIsScheme) |
| humafiber.go:198-205 | the handler passes its callback to `c.Locals` as the only argument. In Fiber v3, `Locals(key, value...)` with one argument looks that argument up as a key, so the callback never runs and `values` stays nil | any request whose middleware set a local, for example `user` to a non-nil value, read back through the bridge with the key `user` | enumerate the request's locals into the snapshot, as the comment above the call says | low, not executed; rests on Fiber v3's `Locals` signature, which is not part of this model | ValueBridge.SnapshotAsWritten (lost local shown by ValueBridge.SnapshotAsWrittenHidesLocals) | ValueBridge.BuildSnapshot (visibility proved by ValueBridge.LocalVisibleThroughBridge) |
