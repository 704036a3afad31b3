/**
  The per-request entry point `ngx_http_dummy_access_handler` of
  naxsi_skeleton.c: a small state machine over the request context flags
  (`ready`, `wait_for_body`, `over`, `block`) and the location's
  `request_processed` / `request_blocked` counters.

  The collaborators defined elsewhere are inputs: the return code of
  `ngx_http_read_client_request_body` together with the `ready` flag its
  synchronous call of the payload handler leaves behind, the verdict of
  `ngx_http_dummy_data_parse`, and the return code of
  `ngx_http_output_forbidden_page`.
*/
module NaxsiAccess {
  import opened Wrappers
  import opened NaxsiConfig

  /** nginx's `NGX_AGAIN`. */
  const NGX_AGAIN: int := -2
  /** nginx's `NGX_HTTP_SPECIAL_RESPONSE`: body-read codes from here on are returned as they are. */
  const NGX_HTTP_SPECIAL_RESPONSE: int := 300

  datatype HttpMethod = MethodGet | MethodPost | MethodPut | MethodOther

  predicate HasBody(m: HttpMethod)
  {
    m == MethodPost || m == MethodPut
  }

  /** What the handler returns to nginx. */
  datatype Status =
    | Declined            // NGX_DECLINED
    | Done                // NGX_DONE
    | Error               // NGX_ERROR
    | Special(rc: int)    // a body-read code >= NGX_HTTP_SPECIAL_RESPONSE
    | Forbidden(rc: int)  // whatever the forbidden page returned

  /** The module's per-request context (`ngx_http_request_ctx_t`, the flags this handler uses). */
  class RequestCtx {
    var ready: bool
    var waitForBody: bool
    var over: bool
    var block: bool

    /** `ngx_pcalloc`: every flag starts cleared. */
    constructor ()
      ensures !ready && !waitForBody && !over && !block
    {
      ready, waitForBody, over, block := false, false, false, false;
    }
  }

  /** The parts of `ngx_http_request_t` the handler looks at; `ctx` is the module context slot. */
  class Request {
    var ctx: RequestCtx?
    const httpMethod: HttpMethod
    const internal: bool

    constructor (m: HttpMethod, isInternal: bool)
      ensures ctx == null && httpMethod == m && internal == isInternal
    {
      ctx := null;
      httpMethod := m;
      internal := isInternal;
    }
  }

  // ---------------------------------------------------------------------------
  // Value view and the specification of one call
  // ---------------------------------------------------------------------------

  datatype CtxFlags = CtxFlags(ready: bool, waitForBody: bool, over: bool, block: bool)

  const FreshFlags: CtxFlags := CtxFlags(false, false, false, false)

  /** The handler's state: the context (None while none is attached) and the location counters. */
  datatype View = View(ctx: Option<CtxFlags>, processed: nat, blocked: nat)

  /** Everything one call depends on besides the state: configuration, request, collaborators. */
  datatype Call = Call(
    hasConf: bool,
    enabled: bool,
    forceDisabled: bool,
    httpMethod: HttpMethod,
    internal: bool,
    bodyRc: int,        // return code of ngx_http_read_client_request_body
    readyAfterRead: bool, // ctx->ready once that call returns
    verdict: bool,      // whether ngx_http_dummy_data_parse sets ctx->block
    forbiddenRc: int)   // return code of ngx_http_output_forbidden_page

  datatype Outcome = Outcome(view: View, status: Status)

  /** Setting up a fresh context: for POST/PUT the body is read, otherwise the request is ready. */
  function SetUp(c: Call): (CtxFlags, Option<Status>)
  {
    if HasBody(c.httpMethod) then
      var flags := FreshFlags.(ready := c.readyAfterRead);
      if c.bodyRc == NGX_AGAIN then (flags.(waitForBody := true), Some(Done))
      else if c.bodyRc >= NGX_HTTP_SPECIAL_RESPONSE then (flags, Some(Special(c.bodyRc)))
      else (flags, None)
    else (FreshFlags.(ready := true), None)
  }

  /** The evaluation step: runs once the request is ready, unless it is over. */
  function Evaluate(ctx: CtxFlags, processed: nat, blocked: nat, c: Call): Outcome
  {
    if ctx.ready && !ctx.over then
      var ctx' := ctx.(block := ctx.block || c.verdict, over := true);
      if ctx'.block then Outcome(View(Some(ctx'), processed + 1, blocked + 1), Forbidden(c.forbiddenRc))
      else Outcome(View(Some(ctx'), processed + 1, blocked), Declined)
    else Outcome(View(Some(ctx), processed, blocked), Declined)
  }

  /** One call of `ngx_http_dummy_access_handler`. */
  function Handle(v: View, c: Call): Outcome
  {
    if v.ctx.Some? && v.ctx.value.over then Outcome(v, Declined)
    else if v.ctx.Some? && v.ctx.value.waitForBody then Outcome(v, Done)
    else if !c.hasConf then Outcome(v, Error)
    else if !c.enabled || c.forceDisabled then Outcome(v, Declined)
    else if c.internal then Outcome(v, Declined)
    else if v.ctx.None? then
      var (ctx, early) := SetUp(c);
      if early.Some? then Outcome(v.(ctx := Some(ctx)), early.value)
      else Evaluate(ctx, v.processed, v.blocked, c)
    else Evaluate(v.ctx.value, v.processed, v.blocked, c)
  }

  // ---------------------------------------------------------------------------
  // The handler itself
  // ---------------------------------------------------------------------------

  function Flags(ctx: RequestCtx): CtxFlags
    reads ctx
  {
    CtxFlags(ctx.ready, ctx.waitForBody, ctx.over, ctx.block)
  }

  /** The state the handler sees for request `r` in location `cf`. */
  function ViewOf(r: Request, cf: LocConf?): View
    reads r, r.ctx, cf
  {
    View(
      if r.ctx == null then None else Some(Flags(r.ctx)),
      if cf == null then 0 else cf.requestProcessed,
      if cf == null then 0 else cf.requestBlocked)
  }

  function CallOf(r: Request, cf: LocConf?, bodyRc: int, readyAfterRead: bool, verdict: bool, forbiddenRc: int): Call
    reads cf
  {
    Call(cf != null, cf != null && cf.enabled, cf != null && cf.forceDisabled,
      r.httpMethod, r.internal, bodyRc, readyAfterRead, verdict, forbiddenRc)
  }

  /** `ngx_http_dummy_data_parse`, reduced to its effect on `ctx->block`. */
  method DataParse(ctx: RequestCtx, verdict: bool)
    modifies ctx`block
    ensures ctx.block == (old(ctx.block) || verdict)
  {
    if verdict {
      ctx.block := true;
    }
  }

  /**
    `ngx_http_dummy_access_handler`: re-entry checks, configuration checks,
    context set-up with the body read, then at most one evaluation.
  */
  method AccessHandler(r: Request, cf: LocConf?, bodyRc: int, readyAfterRead: bool, verdict: bool,
                       forbiddenRc: int) returns (status: Status)
    modifies r`ctx, r.ctx, cf
    ensures var spec := Handle(old(ViewOf(r, cf)), old(CallOf(r, cf, bodyRc, readyAfterRead, verdict, forbiddenRc)));
      ViewOf(r, cf) == (if cf == null then spec.view.(processed := 0, blocked := 0) else spec.view) &&
      status == spec.status
    ensures old(r.ctx) != null ==> r.ctx == old(r.ctx)
    ensures old(r.ctx) == null && r.ctx != null ==> fresh(r.ctx)
    ensures cf != null ==> cf.State() == old(cf.State())
  {
    var ctx := r.ctx;
    if ctx != null && ctx.over {
      return Declined;
    }
    if ctx != null && ctx.waitForBody {
      return Done;
    }
    if cf == null {
      return Error;
    }
    if !cf.enabled || cf.forceDisabled {
      return Declined;
    }
    if r.internal {
      return Declined;
    }
    if ctx == null {
      ctx := new RequestCtx();
      r.ctx := ctx;
      if HasBody(r.httpMethod) && !ctx.ready {
        // ngx_http_read_client_request_body; its synchronous payload callback may set ready
        ctx.ready := readyAfterRead;
        if bodyRc == NGX_AGAIN {
          ctx.waitForBody := true;
          return Done;
        } else if bodyRc >= NGX_HTTP_SPECIAL_RESPONSE {
          return Special(bodyRc);
        }
      } else {
        ctx.ready := true;
      }
    }
    if ctx.ready && !ctx.over {
      DataParse(ctx, verdict);
      cf.requestProcessed := cf.requestProcessed + 1;
      ctx.over := true;
      if ctx.block {
        cf.requestBlocked := cf.requestBlocked + 1;
        return Forbidden(forbiddenRc);
      }
    }
    return Declined;
  }

  // ---------------------------------------------------------------------------
  // Properties of one call
  // ---------------------------------------------------------------------------

  /**
    Idempotent re-entry: once the request is over, or while it waits for its
    body, a call changes nothing and returns DECLINED, respectively DONE.
  */
  lemma Reentry(v: View, c: Call)
    requires v.ctx.Some? && (v.ctx.value.over || v.ctx.value.waitForBody)
    ensures Handle(v, c).view == v
    ensures Handle(v, c).status == if v.ctx.value.over then Declined else Done
  {
  }

  /**
    A missing configuration, a disabled or force-disabled location, and an
    internal request are turned away without creating a context or counting.
  */
  lemma DeclinesWithoutContext(v: View, c: Call)
    requires v.ctx.None?
    requires !c.hasConf || !c.enabled || c.forceDisabled || c.internal
    ensures Handle(v, c).view == v
    ensures Handle(v, c).status == if c.hasConf then Declined else Error
  {
  }

  /** The conditions under which a call reaches the evaluation step. */
  predicate Evaluates(v: View, c: Call)
  {
    && c.hasConf && c.enabled && !c.forceDisabled && !c.internal
    && match v.ctx
       case Some(f) => f.ready && !f.over && !f.waitForBody
       case None =>
         !HasBody(c.httpMethod) ||
         (c.readyAfterRead && c.bodyRc != NGX_AGAIN && c.bodyRc < NGX_HTTP_SPECIAL_RESPONSE)
  }

  /**
    Exactly the calls that evaluate raise `request_processed`, by one, and
    finish the request; `request_blocked` rises, by one, exactly when such a
    call leaves `block` set, and that call returns the forbidden page's code.
    Every other call leaves the counters alone and does not finish the request.
  */
  lemma EvaluatesExactly(v: View, c: Call)
    ensures var o := Handle(v, c);
      && (Evaluates(v, c) ==>
            && o.view.processed == v.processed + 1
            && o.view.ctx.Some? && o.view.ctx.value.over
            && (o.view.ctx.value.block <==> (v.ctx.Some? && v.ctx.value.block) || c.verdict)
            && (o.view.blocked == v.blocked + 1 <==> o.view.ctx.value.block)
            && (o.view.ctx.value.block ==> o.status == Forbidden(c.forbiddenRc))
            && (!o.view.ctx.value.block ==> o.view.blocked == v.blocked && o.status == Declined))
      && (!Evaluates(v, c) ==>
            && o.view.processed == v.processed && o.view.blocked == v.blocked
            && (v.ctx.Some? ==> o.view.ctx == v.ctx))
  {
  }

  /** A context, once attached, stays attached; `over` and `block` are never cleared. */
  lemma Monotone(v: View, c: Call)
    ensures var o := Handle(v, c);
      && (v.ctx.Some? ==> o.view.ctx.Some?)
      && (v.ctx.Some? && v.ctx.value.over ==> o.view.ctx.value.over)
      && (v.ctx.Some? && v.ctx.value.block ==> o.view.ctx.value.block)
      && o.view.processed >= v.processed && o.view.blocked >= v.blocked
  {
  }

  /**
    A POST or PUT request whose body is still on its way gets
    `wait_for_body` set and DONE back, without being evaluated.
  */
  lemma BodyPending(v: View, c: Call)
    requires v.ctx.None? && c.hasConf && c.enabled && !c.forceDisabled && !c.internal
    requires HasBody(c.httpMethod) && c.bodyRc == NGX_AGAIN
    ensures var o := Handle(v, c);
      o.status == Done && o.view.ctx.Some? && o.view.ctx.value.waitForBody &&
      !o.view.ctx.value.over && o.view.processed == v.processed
  {
  }

  // ---------------------------------------------------------------------------
  // Evaluate at most once, over the whole life of a request
  // ---------------------------------------------------------------------------

  /**
    What can happen to a request: a call of the access handler, or the payload
    handler (defined elsewhere) running once the body has arrived, which may
    change `ready` and `wait_for_body` but not `over` or `block`.
  */
  datatype Event = Invoke(c: Call) | BodyArrived(ready: bool, waitForBody: bool)

  function Apply(v: View, e: Event): View
  {
    match e
    case Invoke(c) => Handle(v, c).view
    case BodyArrived(ready, wait) =>
      if v.ctx.Some? then v.(ctx := Some(v.ctx.value.(ready := ready, waitForBody := wait))) else v
  }

  function Run(v: View, es: seq<Event>): View
    decreases |es|
  {
    if es == [] then v else Run(Apply(v, es[0]), es[1..])
  }

  predicate Over(v: View)
  {
    v.ctx.Some? && v.ctx.value.over
  }

  /**
    However the calls and body callbacks interleave, `request_processed` rises
    by at most one over the life of a request, and not at all once it is over;
    `request_blocked` never rises by more than `request_processed` does.
  */
  lemma {:induction false} EvaluatedAtMostOnce(v: View, es: seq<Event>)
    ensures var w := Run(v, es);
      && v.processed <= w.processed <= v.processed + (if Over(v) then 0 else 1)
      && v.blocked <= w.blocked
      && w.blocked - v.blocked <= w.processed - v.processed
      && (Over(v) ==> Over(w))
      && (w.processed > v.processed ==> Over(w))
    decreases |es|
  {
    if es != [] {
      var u := Apply(v, es[0]);
      if es[0].Invoke? {
        EvaluatesExactly(v, es[0].c);
        Monotone(v, es[0].c);
      }
      EvaluatedAtMostOnce(u, es[1..]);
    }
  }

  /**
    The usual life of a POST whose body arrives late: the first call waits,
    the body callback marks the request ready, the next call evaluates it,
    and any later call declines; the request is counted exactly once.
  */
  lemma TwoPhasePost(processed: nat, blocked: nat, c: Call)
    requires c.hasConf && c.enabled && !c.forceDisabled && !c.internal
    requires c.httpMethod == MethodPost && c.bodyRc == NGX_AGAIN && !c.readyAfterRead && !c.verdict
    // the first call waits for the body and returns DONE, without counting
    ensures var o1 := Handle(View(None, processed, blocked), c);
      o1.status == Done && o1.view == View(Some(CtxFlags(false, true, false, false)), processed, blocked)
    // after the callback, the next call evaluates and declines (no block)
    ensures var v2 := View(Some(CtxFlags(true, false, false, false)), processed, blocked);
      var o3 := Handle(v2, c);
      o3.status == Declined && o3.view.processed == processed + 1 && o3.view.blocked == blocked && Over(o3.view)
    // any later call declines and changes nothing
    ensures var v3 := View(Some(CtxFlags(true, false, true, false)), processed + 1, blocked);
      Handle(v3, c) == Outcome(v3, Declined)
    ensures var v := View(None, processed, blocked);
      var w := Run(v, [Invoke(c), BodyArrived(true, false), Invoke(c), Invoke(c)]);
      w.processed == processed + 1 && w.blocked == blocked && Over(w)
  {
    var v := View(None, processed, blocked);
    var es := [Invoke(c), BodyArrived(true, false), Invoke(c), Invoke(c)];
    var v1 := Apply(v, es[0]);
    assert v1.ctx == Some(CtxFlags(false, true, false, false));
    var v2 := Apply(v1, es[1]);
    assert v2.ctx == Some(CtxFlags(true, false, false, false));
    var v3 := Apply(v2, es[2]);
    assert v3 == View(Some(CtxFlags(true, false, true, false)), processed + 1, blocked);
    assert v3.processed == processed + 1 && Over(v3);
    var v4 := Apply(v3, es[3]);
    assert v4 == v3;
    assert Run(v3, [Invoke(c)]) == v4;
    assert Run(v2, [Invoke(c), Invoke(c)]) == Run(v3, [Invoke(c)]);
    assert Run(v1, es[1..]) == Run(v2, [Invoke(c), Invoke(c)]);
  }
}
