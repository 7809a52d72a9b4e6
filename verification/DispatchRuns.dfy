/**
 The sequential pipeline and the interleaving model agree: what one request
 does on the drainer, by any exit of the pipeline, is a run of the small steps
 that other requests and drains interleave with.
 */
module DispatchRuns {
  import opened DrainerLog
  import opened Draining
  import opened RequestRuns
  import D = Dispatch

  /** The steps of a request that leaves the pipeline by this exit; g is the wait group it creates if it needs one. */
  function StepsOf(e: D.Environment, exit: D.Exit, r: Request, g: Group): seq<Step> {
    if e.route.None? then []
    else
      [Enter(r, e.route.value.workerId)]
      + match exit
        case Refused => [Abandon(r)]
        case Early => [Abandon(r)]
        case Draining => [CheckDrain(r)]
        case SendError => [CheckDrain(r)] + ServeSteps(r, D.Target(e), g, false)
        case Answered => [CheckDrain(r)] + ServeSteps(r, D.Target(e), g, true)
        case _ => [CheckDrain(r), Abandon(r)]
  }

  /** The request's worker is the route's unless a pool chose another. */
  predicate PoolAgrees(s: State, e: D.Environment) {
    e.route.Some? && !s.pooled ==> D.Target(e) == e.route.value.workerId
  }

  /** The workers that a request leaving by this exit is sent to. */
  function SendsOf(e: D.Environment, exit: D.Exit, r: Request): set<(Request, Worker)> {
    if e.route.Some? && (exit == D.SendError || exit == D.Answered) then {(r, D.Target(e))} else {}
  }

  /**
   One request through the pipeline, by whichever exit, is a run of small steps
   from any state that it has not entered: they do on the drainer exactly what
   the pipeline does, and send exactly when it sends.
   */
  lemma DispatchIsARun(s: State, e: D.Environment, admitted: bool, r: Request, g: Group)
    requires r !in s.phases && g !in s.count && Grouped(s) && PoolAgrees(s, e) && e.route.Some?
    ensures var exit := D.ExitOf(e, admitted, s.draining);
            Completes(s, r, StepsOf(e, exit, r, g), D.DrainerOps(e, exit), SendsOf(e, exit, r))
  {
    hide Completes;
    hide ServeSteps;
    var exit, route, w := D.ExitOf(e, admitted, s.draining), e.route.value.workerId, D.Target(e);
    if exit == D.SendError || exit == D.Answered {
      ServedCompletes(s, r, route, w, g, exit == D.Answered);
      assert D.DrainerOps(e, exit) == [Acquired(w)] + ReleaseOps(w);
    } else if exit == D.Refused || exit == D.Early {
      EarlyCompletes(s, r, route);
    } else {
      CheckedCompletes(s, r, route);
    }
  }
}
