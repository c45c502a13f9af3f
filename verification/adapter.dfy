/** The router adapter and the escape hatch (`fiberAdapter.Handle` and `Unwrap`
    in humafiber.go): turning an operation into an engine route, building the
    wrapper and the value bridge for every request, and recovering the engine's
    request object from a framework context. */
module Adapter {
  import opened Wrappers
  import opened PathTemplate
  import opened ValueBridge
  import opened RequestWrapper

  /** A framework context: one this adapter built, a nil pointer of this
      adapter's wrapper type, or a context from another adapter. */
  datatype HumaContext<!K, V> = Fiber(w: FiberWrapper<K, V>) | NilFiber | Foreign(adapter: string)

  /** `Unwrap`: the engine's request object behind one of this adapter's
      contexts. Any other context is a caller error and panics. A nil wrapper
      pointer passes the type assertion and then panics reading its field. */
  function Unwrap<K, V>(ctx: HumaContext<K, V>): (r: Result<NativeCtx<K, V>, Fault>)
    ensures r.Success? <==> ctx.Fiber?
    ensures ctx.Fiber? ==> r.value == ctx.w.orig
    ensures ctx.NilFiber? ==> r.error == NilDereference
    ensures ctx.Foreign? ==> r.error == NotHumaFiberContext
  {
    match ctx
    case Fiber(w) => Success(w.orig)
    case NilFiber => Failure(NilDereference)
    case Foreign(_) => Failure(NotHumaFiberContext)
  }

  /** A registration in the engine's routing table. */
  datatype Route = Route(methods: seq<string>, path: string)

  /** The registration `Handle` makes: one route, for the operation's method
      only, at the rewritten template. */
  function RegisterRoute(op: Operation): (r: Route)
    ensures r.methods == [op.httpMethod]
    ensures '{' !in r.path && '}' !in r.path
    ensures |r.path| == |op.path| - Count(op.path, '}')
    ensures forall i :: 0 <= i < |op.path| && op.path[i] != '}' ==> KeptInPlace(op.path, r.path, i)
    ensures RewritePath(r.path) == r.path
  {
    RewrittenTemplate(op.path);
    Route([op.httpMethod], RewritePath(op.path))
  }

  /** The facts about the rewritten template that `RegisterRoute` passes on. */
  lemma RewrittenTemplate(path: string)
    ensures forall i :: 0 <= i < |path| && path[i] != '}' ==> KeptInPlace(path, RewritePath(path), i)
    ensures RewritePath(RewritePath(path)) == RewritePath(path)
  {
    RewriteKeepsOrderEverywhere(path);
    RewriteIdempotent(path);
  }

  /** The engine-side result of the route handler: an error or nil. */
  datatype HandlerError = HandlerError(message: string)

  /** The route handler for one request: snapshot the locals, build the bridge
      over a background context and the wrapper around the engine object, hand
      the wrapper to the framework, and report nil to the engine whatever the
      framework did. `given` is the wrapper the framework receives. */
  method HandleRequest<K, V>(op: Operation, c: NativeCtx<K, V>) returns (given: FiberWrapper<K, V>, err: Option<HandlerError>)
    ensures err.None?
    ensures given.op == op && given.orig == c
    ensures Status(given) == 0
    ensures SnapshotOf(given.ctx.values, c.locals)
    ensures forall k :: given.ctx.embedded(k).None?
    ensures Unwrap(Fiber(given)) == Success(c)
  {
    var values := BuildSnapshot(c.locals);
    var bridge := Bridge(values, Background());
    given := NewWrapper(op, c, bridge);
    err := None;
  }

  /** Whatever wrapper the route handler builds around an engine object, `Unwrap`
      hands that same object back, also after the framework has set a status. */
  lemma UnwrapRecoversNative<K, V>(op: Operation, c: NativeCtx<K, V>, b: Bridge<K, V>, code: int)
    ensures Unwrap(Fiber(NewWrapper(op, c, b))) == Success(c)
    ensures Unwrap(Fiber(SetStatus(NewWrapper(op, c, b), code))).value.statusSent == c.statusSent + [code]
  {
  }

  /** The template from the end-to-end scenario reaches the engine as
      `/items/:id`, registered for GET only. The operation is pinned by
      `requires` rather than written into the `ensures` for the same resource
      reason as the examples in `PathTemplate`. */
  lemma RegisterItemsRoute(op: Operation)
    requires op == Operation("GET", "/items/{id}")
    ensures RegisterRoute(op) == Route(["GET"], "/items/:id")
  {
    RewriteSingleParameter(op.path);
  }
}
