/**
 One request through the dispatcher: every exit of the pipeline, with what it
 answers, what it tells the route's circuit breaker, and how it leaves the
 drainer's in-flight counts. Everything the pipeline asks others for - the
 route, the token, the schema, the transport - is an environment it is run in.
 */
module Dispatch {
  import opened Wrappers
  import opened DrainerLog
  import B = Breaker

  // ---- The drainer ----

  class WaitGroup {
    var count: int

    constructor ()
      ensures count == 0
    {
      count := 0;
    }

    method Add(delta: int)
      modifies this
      ensures count == old(count) + delta
    {
      count := count + delta;
    }
  }

  /** The requests counted for a worker. */
  function InFlight(counts: map<string, int>, w: string): int {
    if w in counts then counts[w] else 0
  }

  /** Acquiring a worker and releasing it again leaves every count as it was. */
  lemma AcquireThenRelease(counts: map<string, int>, w: string)
    ensures var held := counts[w := InFlight(counts, w) + 1];
            && (forall v :: InFlight(held[w := held[w] - 1], v) == InFlight(counts, v))
            && (forall v :: v != w ==> InFlight(held, v) == InFlight(counts, v))
  {
  }

  class WorkerDrainer {
    var inflight: map<string, WaitGroup>
    var draining: set<string>
    ghost var counts: map<string, int>
    ghost var repr: set<object>
    ghost var ops: seq<Op>

    ghost predicate Valid()
      reads this, repr
    {
      && this in repr
      && (forall w :: w in inflight ==> inflight[w] in repr && inflight[w] as object != this)
      && (forall v, w :: v in inflight && w in inflight && v != w ==> inflight[v] != inflight[w])
      && (forall w :: w in inflight <==> w in counts)
      && (forall w :: w in inflight ==> inflight[w].count == counts[w])
    }

    constructor ()
      ensures Valid() && fresh(repr) && counts == map[] && draining == {} && ops == []
    {
      inflight, counts, draining, repr, ops := map[], map[], {}, {this}, [];
    }

    method Acquire(w: string)
      requires Valid()
      modifies repr
      ensures Valid() && fresh(repr - old(repr)) && old(repr) <= repr
      ensures counts == old(counts)[w := InFlight(old(counts), w) + 1]
      ensures draining == old(draining) && ops == old(ops) + [Acquired(w)]
    {
      LoadOrStore(w);
      hide Valid;
      hide InFlight;
      AddTo(w, 1, Acquired(w));
    }

    /** The worker's wait group, created when missing. */
    method LoadOrStore(w: string)
      requires Valid()
      modifies this
      ensures Valid() && fresh(repr - old(repr)) && old(repr) <= repr
      ensures counts == old(counts)[w := InFlight(old(counts), w)]
      ensures draining == old(draining) && ops == old(ops)
    {
      if w !in inflight {
        var created := new WaitGroup();
        inflight := inflight[w := created];
        counts := counts[w := 0];
        repr := repr + {created};
      }
    }

    method AddTo(w: string, delta: int, ghost op: Op)
      requires Valid() && w in counts
      modifies `counts, `ops, repr - {this}
      ensures Valid() && counts == old(counts)[w := old(counts)[w] + delta]
      ensures ops == old(ops) + [op]
    {
      inflight[w].Add(delta);
      ops := ops + [op];
      counts := counts[w := counts[w] + delta];
    }

    method Release(w: string)
      requires Valid()
      modifies repr
      ensures Valid() && repr == old(repr)
      ensures counts == if w in old(counts) then old(counts)[w := old(counts)[w] - 1] else old(counts)
      ensures draining == old(draining)
      ensures ops == old(ops) + if w in old(counts) then [Released(w)] else []
    {
      if w !in inflight {
        return;
      }
      AddTo(w, -1, Released(w));
    }

    method MarkDraining(w: string)
      requires Valid()
      modifies `draining
      ensures draining == old(draining) + {w}
    {
      draining := draining + {w};
    }

    predicate IsDraining(w: string)
      reads this
    {
      w in draining
    }

    method Cleanup(w: string)
      requires Valid()
      modifies `inflight, `counts, `draining
      ensures Valid() && counts == old(counts) - {w} && draining == old(draining) - {w}
    {
      inflight := inflight - {w};
      counts := counts - {w};
      draining := draining - {w};
    }
  }

  // ---- What a request meets on its way ----

  datatype Route = Route(workerId: string, protected: bool, validated: bool)
  datatype Reply = TimedOut | Broken | ErrorMessage | Undecodable | Decoded(status: int)

  datatype Environment = Environment(
    route: Option<Route>,
    allowAt: int,                 // clock reading of the breaker check
    early: Option<(int, bool)>,   // a listener's early response, and whether it aborted with an error
    token: bool, tokenValid: bool, roleHeld: bool,
    schemaHolds: bool,
    hooksAgree: bool,
    selected: string,             // the worker that the pool selects, "" for none
    payloadEncodes: bool,
    sendWorks: bool,
    reply: Reply,
    reportAt: int)                // clock reading of the report to the breaker

  datatype Error = RouteNotFound | BreakerOpen | Aborted | Unauthorized | Forbidden | SchemaInvalid | HookRefused
                 | SendFailed | UpstreamTimeout | ReceiveFailed | WorkerFailed

  /** What Dispatch returns, and the status it records in the metrics. */
  datatype Result = Result(response: Option<int>, err: Option<Error>, metricStatus: int)

  /** How far a request gets. */
  datatype Exit = NoRoute | Refused | Early | Draining | NoToken | BadToken | NoRole | BadSchema | HookError
                | Unencodable | SendError | Answered

  function ExitOf(e: Environment, admitted: bool, draining: set<string>): Exit {
    if e.route.None? then NoRoute
    else
      var route := e.route.value;
      if !admitted then Refused
      else if e.early.Some? then Early
      else if route.workerId in draining then Draining
      else if route.protected && !e.token then NoToken
      else if route.protected && !e.tokenValid then BadToken
      else if route.protected && !e.roleHeld then NoRole
      else if route.validated && !e.schemaHolds then BadSchema
      else if !e.hooksAgree then HookError
      else if !e.payloadEncodes then Unencodable
      else if !e.sendWorks then SendError
      else Answered
  }

  function ResultOf(e: Environment, exit: Exit): Result {
    match exit
    case NoRoute => Result(None, Some(RouteNotFound), 0)
    case Refused => Result(Some(503), Some(BreakerOpen), 503)
    case Early =>
      if e.early.None? then Result(None, None, 0)
      else Result(Some(e.early.value.0), if e.early.value.1 then Some(Aborted) else None, e.early.value.0)
    case Draining => Result(Some(503), None, 503)
    case NoToken => Result(None, Some(Unauthorized), 401)
    case BadToken => Result(None, Some(Unauthorized), 401)
    case NoRole => Result(None, Some(Forbidden), 403)
    case BadSchema => Result(None, Some(SchemaInvalid), 400)
    case HookError => Result(None, Some(HookRefused), 400)
    case Unencodable => Result(None, None, 500)
    case SendError => Result(None, Some(SendFailed), 502)
    case Answered =>
      match e.reply
      case TimedOut => Result(None, Some(UpstreamTimeout), 504)
      case Broken => Result(None, Some(ReceiveFailed), 502)
      case ErrorMessage => Result(Some(502), Some(WorkerFailed), 502)
      case Undecodable => Result(Some(200), None, 0)
      case Decoded(status) => Result(Some(ReplyStatus(status)), None, ReplyStatus(status))
  }

  function ReplyStatus(status: int): int {
    if status == 0 then 200 else status
  }

  /** The worker that a request reaching the transport is sent to. */
  function Target(e: Environment): string
    requires e.route.Some?
  {
    if e.selected == "" then e.route.value.workerId else e.selected
  }

  /** What a request that got this far reports to its route's breaker. */
  function Report(e: Environment, exit: Exit): seq<B.Call> {
    if exit == SendError then [B.Failure(e.reportAt)]
    else if exit != Answered || e.reply == Undecodable then []
    else if e.reply.Decoded? && ReplyStatus(e.reply.status) < 500 then [B.Success(e.reportAt)]
    else [B.Failure(e.reportAt)]
  }

  /** All calls a request makes on its route's breaker. */
  function BreakerCalls(e: Environment, exit: Exit): seq<B.Call> {
    if exit == NoRoute then [] else [B.Allow(e.allowAt)] + Report(e, exit)
  }

  /** What a request does on the drainer: a worker without a name is acquired and never released. */
  function DrainerOps(e: Environment, exit: Exit): seq<Op> {
    if e.route.None? || !(exit == SendError || exit == Answered) then []
    else if Target(e) == "" then [Acquired("")]
    else [Acquired(Target(e)), Released(Target(e))]
  }

  // ---- The pipeline in full ----

  /** The request passes every check before the transport, and its payload encodes. */
  lemma ReachesWorkerExactlyWhen(e: Environment, admitted: bool, draining: set<string>)
    ensures DrainerOps(e, ExitOf(e, admitted, draining)) != [] <==>
              && e.route.Some? && admitted && e.early.None? && e.route.value.workerId !in draining
              && (e.route.value.protected ==> e.token && e.tokenValid && e.roleHeld)
              && (e.route.value.validated ==> e.schemaHolds)
              && e.hooksAgree && e.payloadEncodes
  {
  }

  /** The answer, the error and the recorded status, by the first check that fails. */
  lemma ResultInFull(e: Environment, admitted: bool, draining: set<string>)
    ensures ResultOf(e, ExitOf(e, admitted, draining))
         == if e.route.None? then Result(None, Some(RouteNotFound), 0)
            else if !admitted then Result(Some(503), Some(BreakerOpen), 503)
            else if e.early.Some? then
              Result(Some(e.early.value.0), if e.early.value.1 then Some(Aborted) else None, e.early.value.0)
            else if e.route.value.workerId in draining then Result(Some(503), None, 503)
            else if e.route.value.protected && !(e.token && e.tokenValid) then Result(None, Some(Unauthorized), 401)
            else if e.route.value.protected && !e.roleHeld then Result(None, Some(Forbidden), 403)
            else if e.route.value.validated && !e.schemaHolds then Result(None, Some(SchemaInvalid), 400)
            else if !e.hooksAgree then Result(None, Some(HookRefused), 400)
            else if !e.payloadEncodes then Result(None, None, 500)
            else if !e.sendWorks then Result(None, Some(SendFailed), 502)
            else
              match e.reply
              case TimedOut => Result(None, Some(UpstreamTimeout), 504)
              case Broken => Result(None, Some(ReceiveFailed), 502)
              case ErrorMessage => Result(Some(502), Some(WorkerFailed), 502)
              case Undecodable => Result(Some(200), None, 0)
              case Decoded(code) => if code == 0 then Result(Some(200), None, 200) else Result(Some(code), None, code)
  {
  }

  /** What the breaker is told: always the question, and then the outcome of a request that was sent, if it was understood. */
  lemma BreakerCallsInFull(e: Environment, admitted: bool, draining: set<string>)
    ensures var exit := ExitOf(e, admitted, draining); var calls := BreakerCalls(e, exit);
            if e.route.None? then calls == []
            else if DrainerOps(e, exit) == [] || (e.sendWorks && e.reply == Undecodable) then calls == [B.Allow(e.allowAt)]
            else if e.sendWorks && e.reply.Decoded? && e.reply.status < 500
            then calls == [B.Allow(e.allowAt), B.Success(e.reportAt)]
            else calls == [B.Allow(e.allowAt), B.Failure(e.reportAt)]
  {
  }

  /** Which worker is acquired and released: the selected one, or else the route's; a nameless one is not released. */
  lemma DrainerOpsInFull(e: Environment, admitted: bool, draining: set<string>)
    ensures var ops := DrainerOps(e, ExitOf(e, admitted, draining));
            ops != [] ==>
              var w := if e.selected != "" then e.selected else e.route.value.workerId;
              ops == [Acquired(w)] + if w != "" then [Released(w)] else []
  {
  }

  // ---- The pipeline ----

  /** The part of the lifecycle context that the pipeline reads back. */
  class LifecycleContext {
    var workerId: string
    var err: Option<Error>

    constructor ()
      ensures workerId == "" && err == None
    {
      workerId, err := "", None;
    }
  }

  class Dispatcher {
    const drainer: WorkerDrainer
    const breaker: B.Breaker

    ghost predicate Valid()
      reads this, drainer, drainer.repr, breaker
    {
      drainer.Valid() && breaker.Valid() && breaker !in drainer.repr
    }

    constructor (d: WorkerDrainer, b: B.Breaker)
      requires d.Valid() && b.Valid() && b !in d.repr
      ensures Valid() && drainer == d && breaker == b
    {
      drainer, breaker := d, b;
    }

    /**
     Dispatch: a worker is acquired if and only if the request passes every
     check, and a request that does not is answered by the first check it fails.
     */
    method Dispatch(e: Environment) returns (r: Result)
      requires Valid()
      modifies drainer.repr, breaker
      ensures Valid() && fresh(drainer.repr - old(drainer.repr))
      ensures var admitted := B.Admits(breaker.config, B.Run(breaker.config, old(breaker.history)), e.allowAt);
              var exit := ExitOf(e, admitted, old(drainer.draining));
              && r == ResultOf(e, exit)
              && breaker.history == old(breaker.history) + BreakerCalls(e, exit)
              && drainer.ops == old(drainer.ops) + DrainerOps(e, exit)
      ensures forall w :: w != "" ==> InFlight(drainer.counts, w) == InFlight(old(drainer.counts), w)
      ensures drainer.draining == old(drainer.draining)
      ensures drainer.ops != old(drainer.ops) <==>
                && e.route.Some? && B.Admits(breaker.config, B.Run(breaker.config, old(breaker.history)), e.allowAt)
                && e.early.None? && e.route.value.workerId !in old(drainer.draining)
                && (e.route.value.protected ==> e.token && e.tokenValid && e.roleHeld)
                && (e.route.value.validated ==> e.schemaHolds)
                && e.hooksAgree && e.payloadEncodes
      ensures e.route.None? ==> r == Result(None, Some(RouteNotFound), 0)
      ensures e.route.Some? && !B.Admits(breaker.config, B.Run(breaker.config, old(breaker.history)), e.allowAt) ==>
                r == Result(Some(503), Some(BreakerOpen), 503)
      ensures e.route.Some? && B.Admits(breaker.config, B.Run(breaker.config, old(breaker.history)), e.allowAt)
              && e.early.None? ==>
                if e.route.value.workerId in old(drainer.draining) then r == Result(Some(503), None, 503)
                else if e.route.value.protected && !(e.token && e.tokenValid) then r == Result(None, Some(Unauthorized), 401)
                else if e.route.value.protected && !e.roleHeld then r == Result(None, Some(Forbidden), 403)
                else if e.route.value.validated && !e.schemaHolds then r == Result(None, Some(SchemaInvalid), 400)
                else if !e.hooksAgree then r == Result(None, Some(HookRefused), 400)
                else if !e.payloadEncodes then r == Result(None, None, 500)
                else true
    {
      ghost var admitted := B.Admits(breaker.config, B.Run(breaker.config, breaker.history), e.allowAt);
      ReachesWorkerExactlyWhen(e, admitted, drainer.draining);
      ResultInFull(e, admitted, drainer.draining);
      hide *;
      r := Pipeline(e);
    }

    /** The stages in their order. */
    method Pipeline(e: Environment) returns (r: Result)
      requires Valid()
      modifies drainer.repr, breaker
      ensures Valid() && fresh(drainer.repr - old(drainer.repr))
      ensures var admitted := B.Admits(breaker.config, B.Run(breaker.config, old(breaker.history)), e.allowAt);
              var exit := ExitOf(e, admitted, old(drainer.draining));
              && r == ResultOf(e, exit)
              && breaker.history == old(breaker.history) + BreakerCalls(e, exit)
              && drainer.ops == old(drainer.ops) + DrainerOps(e, exit)
      ensures forall w :: w != "" ==> InFlight(drainer.counts, w) == InFlight(old(drainer.counts), w)
      ensures drainer.draining == old(drainer.draining)
    {
      hide B.Run;
      hide B.Log;
      hide B.Admits;
      hide B.Breaker.Valid;
      hide WorkerDrainer.Valid;
      hide InFlight;
      if e.route.None? {
        return Result(None, Some(RouteNotFound), 0);
      }
      var route := e.route.value;
      var allowed := breaker.AllowRequest(e.allowAt);
      if !allowed {
        return Result(Some(503), Some(BreakerOpen), 503);
      }
      if e.early.Some? {
        return Result(Some(e.early.value.0), if e.early.value.1 then Some(Aborted) else None, e.early.value.0);
      }
      if drainer.IsDraining(route.workerId) {
        return Result(Some(503), None, 503);
      }
      var refused := Validate(e, route);
      if refused.Some? {
        return refused.value;
      }
      r := Forward(e, route);
    }

    /** How a request that passed every check ends. */
    ghost function Passed(e: Environment): Exit {
      if !e.payloadEncodes then Unencodable else if !e.sendWorks then SendError else Answered
    }

    /** sendAndReceive, the response, and the release that every one of its exits runs into. */
    method Forward(e: Environment, route: Route) returns (r: Result)
      requires Valid() && e.route == Some(route)
      modifies drainer.repr, breaker
      ensures Valid() && fresh(drainer.repr - old(drainer.repr))
      ensures r == ResultOf(e, Passed(e))
      ensures breaker.history == old(breaker.history) + Report(e, Passed(e))
      ensures drainer.ops == old(drainer.ops) + DrainerOps(e, Passed(e))
      ensures forall w :: w != "" ==> InFlight(drainer.counts, w) == InFlight(old(drainer.counts), w)
      ensures drainer.draining == old(drainer.draining)
    {
      hide *;
      OpsOf(e);
      AcquireThenRelease(drainer.counts, Target(e));
      var lc := new LifecycleContext();
      var decoded, response, status := SendAndReceive(e, route, lc);
      if decoded.None? {
        r := Result(response, lc.err, status);
      } else {
        DecodedOutcome(e);
        r := Result(Some(decoded.value), None, decoded.value);
        RecordResult(decoded.value, e.reportAt);
      }
      ReleaseInFlight(lc);
    }

    lemma DecodedOutcome(e: Environment)
      requires Passed(e) == Answered && e.reply.Decoded?
      ensures ResultOf(e, Passed(e)) == Result(Some(ReplyStatus(e.reply.status)), None, ReplyStatus(e.reply.status))
      ensures Report(e, Passed(e))
           == [if ReplyStatus(e.reply.status) >= 500 then B.Failure(e.reportAt) else B.Success(e.reportAt)]
    {
    }

    lemma OpsOf(e: Environment)
      requires e.route.Some?
      ensures DrainerOps(e, Passed(e))
           == if Passed(e) == Unencodable then []
              else [Acquired(Target(e))] + if Target(e) != "" then [Released(Target(e))] else []
    {
    }

    /** The token, the role, the schema and the hooks, in order. */
    method Validate(e: Environment, route: Route) returns (refused: Option<Result>)
      requires e.route == Some(route) && e.early.None? && route.workerId !in drainer.draining
      ensures var exit := ExitOf(e, true, drainer.draining);
              refused == if exit in {NoToken, BadToken, NoRole, BadSchema, HookError} then Some(ResultOf(e, exit)) else None
    {
      if route.protected {
        if !e.token {
          return Some(Result(None, Some(Unauthorized), 401));
        }
        if !e.tokenValid {
          return Some(Result(None, Some(Unauthorized), 401));
        }
        if !e.roleHeld {
          return Some(Result(None, Some(Forbidden), 403));
        }
      }
      if route.validated && !e.schemaHolds {
        return Some(Result(None, Some(SchemaInvalid), 400));
      }
      if !e.hooksAgree {
        return Some(Result(None, Some(HookRefused), 400));
      }
      refused := None;
    }

    /** Selects and acquires the worker, then sends and receives. */
    method SendAndReceive(e: Environment, route: Route, lc: LifecycleContext)
      returns (decoded: Option<int>, response: Option<int>, status: int)
      requires Valid() && e.route == Some(route)
      requires lc.workerId == "" && lc.err == None && lc !in drainer.repr
      modifies drainer.repr, breaker, lc
      ensures Valid() && fresh(drainer.repr - old(drainer.repr)) && lc !in drainer.repr
      ensures drainer.draining == old(drainer.draining)
      ensures decoded.Some? <==> Passed(e) == Answered && e.reply.Decoded?
      ensures decoded.Some? ==> decoded.value == ReplyStatus(e.reply.status) && breaker.history == old(breaker.history)
      ensures decoded.None? ==> Result(response, lc.err, status) == ResultOf(e, Passed(e))
      ensures decoded.None? ==> breaker.history == old(breaker.history) + Report(e, Passed(e))
      ensures Passed(e) == Unencodable ==>
                lc.workerId == "" && drainer.ops == old(drainer.ops) && drainer.counts == old(drainer.counts)
      ensures Passed(e) != Unencodable ==>
                lc.workerId == Target(e) && drainer.ops == old(drainer.ops) + [Acquired(Target(e))]
                && drainer.counts == old(drainer.counts)[Target(e) := InFlight(old(drainer.counts), Target(e)) + 1]
    {
      var workerId := e.selected;
      if workerId == "" {
        workerId := route.workerId;
      }
      if !e.payloadEncodes {
        return None, None, 500;
      }
      drainer.Acquire(workerId);
      lc.workerId := workerId;
      decoded, response, status := Exchange(e, lc);
    }

    /** How a request whose payload encodes ends. */
    lemma OutcomeOf(e: Environment)
      requires e.payloadEncodes
      ensures var exit := Passed(e); var result, report := ResultOf(e, exit), Report(e, exit);
              if !e.sendWorks then exit == SendError && result == Result(None, Some(SendFailed), 502) && report == [B.Failure(e.reportAt)]
              else
                exit == Answered
                && match e.reply
                   case TimedOut => result == Result(None, Some(UpstreamTimeout), 504) && report == [B.Failure(e.reportAt)]
                   case Broken => result == Result(None, Some(ReceiveFailed), 502) && report == [B.Failure(e.reportAt)]
                   case ErrorMessage => result == Result(Some(502), Some(WorkerFailed), 502) && report == [B.Failure(e.reportAt)]
                   case Undecodable => result == Result(Some(200), None, 0) && report == []
                   case Decoded(_) => true
    {
    }

    /** Sends and receives; a decoded reply is returned, everything else is handled here. */
    method Exchange(e: Environment, lc: LifecycleContext)
      returns (decoded: Option<int>, response: Option<int>, status: int)
      requires breaker.Valid() && lc.err == None && e.payloadEncodes
      modifies breaker, lc`err
      ensures breaker.Valid()
      ensures decoded.Some? <==> Passed(e) == Answered && e.reply.Decoded?
      ensures decoded.Some? ==> decoded.value == ReplyStatus(e.reply.status) && breaker.history == old(breaker.history)
      ensures decoded.None? ==> Result(response, lc.err, status) == ResultOf(e, Passed(e))
      ensures decoded.None? ==> breaker.history == old(breaker.history) + Report(e, Passed(e))
    {
      hide B.Run;
      hide B.Log;
      hide B.Breaker.Valid;
      hide WorkerDrainer.Valid;
      OutcomeOf(e);
      hide ResultOf;
      hide Report;
      decoded, response, status := None, None, 0;
      if !e.sendWorks {
        lc.err := Some(SendFailed);
        breaker.RecordFailure(e.reportAt);
        return None, None, 502;
      }
      match e.reply {
        case TimedOut =>
          status := 504;
          lc.err := Some(UpstreamTimeout);
          breaker.RecordFailure(e.reportAt);
        case Broken =>
          status := 502;
          lc.err := Some(ReceiveFailed);
          breaker.RecordFailure(e.reportAt);
        case ErrorMessage =>
          status := 502;
          lc.err := Some(WorkerFailed);
          response := Some(502);
          breaker.RecordFailure(e.reportAt);
        case Undecodable =>
          response := Some(200);
        case Decoded(code) =>
          decoded := Some(if code == 0 then 200 else code);
      }
    }

    method ReleaseInFlight(lc: LifecycleContext)
      requires Valid()
      modifies drainer.repr
      ensures Valid() && drainer.repr == old(drainer.repr)
      ensures drainer.draining == old(drainer.draining)
      ensures var w := old(lc.workerId); var held := w != "" && w in old(drainer.counts);
              && drainer.ops == old(drainer.ops) + (if held then [Released(w)] else [])
              && drainer.counts == if held then old(drainer.counts)[w := old(drainer.counts)[w] - 1] else old(drainer.counts)
    {
      if lc.workerId != "" {
        drainer.Release(lc.workerId);
      }
    }

    method RecordResult(status: int, now: int)
      requires Valid()
      modifies breaker
      ensures Valid()
      ensures breaker.history == old(breaker.history) + [if status >= 500 then B.Failure(now) else B.Success(now)]
    {
      if status >= 500 {
        breaker.RecordFailure(now);
      } else {
        breaker.RecordSuccess(now);
      }
    }
  }

  /**
   The metrics see the status that the caller sees, except for an unknown route
   and an undecodable reply, which leave it unset, as does a listener that
   answers with no status.
   */
  lemma MetricStatusMatchesResponse(e: Environment, admitted: bool, draining: set<string>)
    ensures var exit := ExitOf(e, admitted, draining); var r := ResultOf(e, exit);
            && (r.metricStatus == 0 <==>
                  exit == NoRoute || (exit == Answered && e.reply == Undecodable)
                  || (exit == Early && e.early.value.0 == 0))
            && (r.response.Some? && r.metricStatus != 0 ==> r.metricStatus == r.response.value)
            && (r.response.None? && r.err.None? <==> exit == Unencodable)
  {
  }
}
