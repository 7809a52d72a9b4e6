/**
 The circuit breaker of a route, as a machine over its calls. A call carries
 the clock reading it makes; readings never go back.
 */
module Breaker {

  datatype Mode = Closed | Open | HalfOpen
  datatype Config = Config(failures: int, cooldown: int, halfOpenMax: int)
  datatype State = State(mode: Mode, failures: int, openedAt: int, lastFailure: int, probes: int)
  datatype Call = Allow(now: int) | Success(now: int) | Failure(now: int)
  datatype Change = Change(from: Mode, to: Mode, reason: string)

  const DEFAULT_COOLDOWN := 30_000_000_000

  function Normalize(cfg: Config): (c: Config)
    ensures c.failures != 0 && c.cooldown != 0 && c.halfOpenMax != 0
    ensures cfg.failures != 0 && cfg.cooldown != 0 && cfg.halfOpenMax != 0 ==> c == cfg
  {
    Config(if cfg.failures == 0 then 5 else cfg.failures,
           if cfg.cooldown == 0 then DEFAULT_COOLDOWN else cfg.cooldown,
           if cfg.halfOpenMax == 0 then 1 else cfg.halfOpenMax)
  }

  const INITIAL := State(Closed, 0, 0, 0, 0)

  // ---- One call ----

  predicate Admits(cfg: Config, s: State, now: int) {
    match s.mode
    case Closed => true
    case Open => now - s.openedAt >= cfg.cooldown
    case HalfOpen => s.probes < cfg.halfOpenMax
  }

  function After(cfg: Config, s: State, c: Call): State {
    match c
    case Allow(now) =>
      if s.mode == Open && Admits(cfg, s, now) then s.(mode := HalfOpen, probes := 0)
      else if s.mode == HalfOpen && Admits(cfg, s, now) then s.(probes := s.probes + 1)
      else s
    case Success(_) =>
      (match s.mode
       case HalfOpen => s.(mode := Closed, failures := 0, probes := 0)
       case Closed => s.(failures := 0)
       case Open => s)
    case Failure(now) =>
      var counted := s.(failures := s.failures + 1, lastFailure := now);
      match s.mode
      case Closed => if counted.failures >= cfg.failures then counted.(mode := Open, openedAt := now) else counted
      case HalfOpen => counted.(mode := Open, probes := 0)
      case Open => counted
  }

  /** Why a call that changes this mode does so. */
  function ReasonFor(c: Call, from: Mode): string {
    if c.Allow? then "cooldown expired"
    else if c.Success? then "probe succeeded"
    else if from == HalfOpen then "half-open probe failed"
    else "consecutive failures"
  }

  /** The change a call announces, if any. */
  function Emitted(cfg: Config, s: State, c: Call): seq<Change> {
    var to := After(cfg, s, c).mode;
    if to == s.mode then [] else [Change(s.mode, to, ReasonFor(c, s.mode))]
  }

  // ---- Whole runs ----

  function Run(cfg: Config, h: seq<Call>): State {
    if h == [] then INITIAL else After(cfg, Run(cfg, h[..|h| - 1]), h[|h| - 1])
  }

  function Log(cfg: Config, h: seq<Call>): seq<Change> {
    if h == [] then [] else Log(cfg, h[..|h| - 1]) + Emitted(cfg, Run(cfg, h[..|h| - 1]), h[|h| - 1])
  }

  predicate Timed(h: seq<Call>) {
    forall i, j :: 0 <= i <= j < |h| ==> h[i].now <= h[j].now
  }

  /** Failures reported since the latest success, whatever the breaker was doing. */
  function FailuresSinceSuccess(h: seq<Call>): nat {
    if h == [] then 0
    else
      match h[|h| - 1]
      case Success(_) => 0
      case Failure(_) => FailuresSinceSuccess(h[..|h| - 1]) + 1
      case Allow(_) => FailuresSinceSuccess(h[..|h| - 1])
  }

  function Threshold(cfg: Config): int {
    if cfg.failures < 1 then 1 else cfg.failures
  }

  /** A closed breaker has counted exactly the failures since the latest success, and they are too few to trip it. */
  lemma {:induction false} ClosedCountsConsecutiveFailures(cfg: Config, h: seq<Call>)
    ensures Run(cfg, h).mode == Closed ==>
              Run(cfg, h).failures == FailuresSinceSuccess(h) < Threshold(cfg)
    ensures Run(cfg, h).failures >= 0
  {
    if h != [] {
      ClosedCountsConsecutiveFailures(cfg, h[..|h| - 1]);
    }
  }

  /** A closed breaker trips exactly at the call that makes the run of failures reach the threshold. */
  lemma TripsExactlyAtThreshold(cfg: Config, h: seq<Call>, c: Call)
    requires Run(cfg, h).mode == Closed
    ensures After(cfg, Run(cfg, h), c).mode == (if c.Failure? && FailuresSinceSuccess(h + [c]) == Threshold(cfg) then Open else Closed)
  {
    ClosedCountsConsecutiveFailures(cfg, h);
    assert (h + [c])[..|h|] == h;
  }

  /** The four edges, each with the one reason that is given for it. */
  predicate Edge(c: Change) {
    || c == Change(Closed, Open, "consecutive failures")
    || c == Change(Open, HalfOpen, "cooldown expired")
    || c == Change(HalfOpen, Closed, "probe succeeded")
    || c == Change(HalfOpen, Open, "half-open probe failed")
  }

  /** The announced changes lead from Closed to the current mode along the four edges. */
  lemma {:induction false} ChangesFormAPath(cfg: Config, h: seq<Call>)
    ensures var log := Log(cfg, h);
            && (forall i :: 0 <= i < |log| ==> Edge(log[i]))
            && (forall i :: 0 <= i < |log| - 1 ==> log[i].to == log[i + 1].from)
            && (log != [] ==> log[0].from == Closed)
            && Run(cfg, h).mode == (if log == [] then Closed else log[|log| - 1].to)
  {
    if h != [] {
      ChangesFormAPath(cfg, h[..|h| - 1]);
    }
  }

  // ---- Half-open episodes ----

  predicate Admitted(cfg: Config, h: seq<Call>, i: nat)
    requires i < |h|
  {
    h[i].Allow? && Admits(cfg, Run(cfg, h[..i]), h[i].now)
  }

  /** The requests admitted from position from on. */
  function AdmittedFrom(cfg: Config, h: seq<Call>, from: nat): nat
    requires from <= |h|
    decreases |h|
  {
    if from == |h| then 0
    else AdmittedFrom(cfg, h[..|h| - 1], from) + if Admitted(cfg, h, |h| - 1) then 1 else 0
  }

  /** The latest call that turned an open breaker half-open. */
  function EpisodeStart(cfg: Config, h: seq<Call>): (i: nat)
    ensures i <= |h|
  {
    if h == [] then 0
    else if Run(cfg, h[..|h| - 1]).mode == Open && Run(cfg, h).mode == HalfOpen then |h| - 1
    else EpisodeStart(cfg, h[..|h| - 1])
  }

  /** A half-open episode has admitted the call that opened it and its probes, at most HalfOpenMax of them. */
  lemma {:induction false} EpisodeAdmitsProbesPlusOne(cfg: Config, h: seq<Call>)
    requires Run(cfg, h).mode == HalfOpen
    ensures EpisodeStart(cfg, h) < |h|
    ensures AdmittedFrom(cfg, h, EpisodeStart(cfg, h)) == Run(cfg, h).probes + 1
    ensures 0 <= Run(cfg, h).probes <= if cfg.halfOpenMax > 0 then cfg.halfOpenMax else 0
  {
    var last := |h| - 1;
    var front := h[..last];
    if Run(cfg, front).mode == HalfOpen {
      EpisodeAdmitsProbesPlusOne(cfg, front);
    } else {
      assert Run(cfg, front).mode == Open && h[last].Allow?;
      assert AdmittedFrom(cfg, front, last) == 0;
    }
  }

  /** A half-open breaker admits a request exactly while its episode has admitted at most HalfOpenMax. */
  lemma HalfOpenAdmitsExactly(cfg: Config, h: seq<Call>, now: int)
    requires Run(cfg, h).mode == HalfOpen
    ensures Admits(cfg, Run(cfg, h), now) <==> AdmittedFrom(cfg, h, EpisodeStart(cfg, h)) <= cfg.halfOpenMax
  {
    EpisodeAdmitsProbesPlusOne(cfg, h);
  }

  /** Only a reported outcome ends an episode: once its probes are used up, requests alone are refused for ever. */
  lemma {:induction false} UnreportedProbesJamTheBreaker(cfg: Config, h: seq<Call>, later: seq<Call>)
    requires Run(cfg, h).mode == HalfOpen && Run(cfg, h).probes >= cfg.halfOpenMax
    requires forall i :: 0 <= i < |later| ==> later[i].Allow?
    ensures Run(cfg, h + later) == Run(cfg, h)
    ensures forall now :: !Admits(cfg, Run(cfg, h + later), now)
    decreases |later|
  {
    if later == [] {
      assert h + later == h;
    } else {
      var front := later[..|later| - 1];
      UnreportedProbesJamTheBreaker(cfg, h, front);
      assert (h + later)[..|h + later| - 1] == h + front;
    }
  }

  // ---- The cooldown ----

  /** The call that last opened the breaker. */
  function OpeningCall(cfg: Config, h: seq<Call>): (i: nat)
    ensures i <= |h|
  {
    if h == [] then 0
    else if Run(cfg, h[..|h| - 1]).mode != Open && Run(cfg, h).mode == Open then |h| - 1
    else OpeningCall(cfg, h[..|h| - 1])
  }

  /** The breaker is open because of a trip from Closed, not because a probe failed. */
  predicate Tripped(cfg: Config, h: seq<Call>) {
    && Run(cfg, h).mode == Open
    && OpeningCall(cfg, h) < |h|
    && Run(cfg, h[..OpeningCall(cfg, h)]).mode == Closed
  }

  /** After a failed probe, and while half-open, the cooldown of the original trip is already over. */
  lemma {:induction false} CooldownIsOver(cfg: Config, h: seq<Call>, now: int)
    requires Timed(h) && forall i :: 0 <= i < |h| ==> h[i].now <= now
    ensures Run(cfg, h).mode == HalfOpen || (Run(cfg, h).mode == Open && !Tripped(cfg, h)) ==>
              now - Run(cfg, h).openedAt >= cfg.cooldown
    ensures Run(cfg, h).mode == Open ==> OpeningCall(cfg, h) < |h|
    ensures Tripped(cfg, h) ==> Run(cfg, h).openedAt == h[OpeningCall(cfg, h)].now
  {
    if h != [] {
      var last := |h| - 1;
      var front := h[..last];
      CooldownIsOver(cfg, front, h[last].now);
      if Run(cfg, h).mode == Open && Run(cfg, front).mode == Open {
        assert front[..OpeningCall(cfg, front)] == h[..OpeningCall(cfg, front)];
      }
    }
  }

  /**
   When an open breaker refuses: exactly within the cooldown after a trip from
   Closed. A failed probe does not start another cooldown, so the next request
   is admitted at once.
   */
  lemma OpenRefusesExactlyWithinCooldownOfTrip(cfg: Config, h: seq<Call>, now: int)
    requires Timed(h + [Allow(now)]) && Run(cfg, h).mode == Open
    ensures OpeningCall(cfg, h) < |h|
    ensures !Admits(cfg, Run(cfg, h), now) <==>
              Tripped(cfg, h) && now - h[OpeningCall(cfg, h)].now < cfg.cooldown
  {
    var all := h + [Allow(now)];
    forall i | 0 <= i < |h|
      ensures h[i].now <= now
    {
      assert all[i] == h[i] && all[|h|] == Allow(now);
    }
    forall i, j | 0 <= i <= j < |h|
      ensures h[i].now <= h[j].now
    {
      assert all[i] == h[i] && all[j] == h[j];
    }
    CooldownIsOver(cfg, h, now);
  }

  // ---- One call in full ----

  lemma Defaults(cfg: Config)
    ensures Normalize(cfg).failures == (if cfg.failures == 0 then 5 else cfg.failures)
    ensures Normalize(cfg).cooldown == (if cfg.cooldown == 0 then 30_000_000_000 else cfg.cooldown)
    ensures Normalize(cfg).halfOpenMax == (if cfg.halfOpenMax == 0 then 1 else cfg.halfOpenMax)
  {
  }

  /** A request is admitted by a closed breaker, by an open one after the cooldown, and by a half-open one with probes left. */
  lemma AllowInFull(cfg: Config, s: State, now: int)
    ensures var n, ok := After(cfg, s, Allow(now)), Admits(cfg, s, now);
            if s.mode == Closed then ok && n == s
            else if s.mode == Open then
              (ok <==> now - s.openedAt >= cfg.cooldown) && n == if ok then s.(mode := HalfOpen, probes := 0) else s
            else
              (ok <==> s.probes < cfg.halfOpenMax) && n == if ok then s.(probes := s.probes + 1) else s
  {
  }

  /** A success closes a half-open breaker and clears the count of a closed one; an open one does not listen. */
  lemma SuccessInFull(cfg: Config, s: State, now: int)
    ensures var n := After(cfg, s, Success(now));
            if s.mode == HalfOpen then n == s.(mode := Closed, failures := 0, probes := 0)
            else if s.mode == Closed then n == s.(failures := 0)
            else n == s
  {
  }

  /** A failure is counted and dated; it opens a half-open breaker, and a closed one at the threshold, which alone starts a cooldown. */
  lemma FailureInFull(cfg: Config, s: State, now: int)
    ensures var n := After(cfg, s, Failure(now));
            && n.failures == s.failures + 1 && n.lastFailure == now
            && (n.mode == Open <==> s.mode != Closed || s.failures + 1 >= cfg.failures)
            && (n.mode == Closed || n.mode == Open)
            && n.openedAt == (if s.mode == Closed && n.mode == Open then now else s.openedAt)
            && n.probes == if s.mode == HalfOpen then 0 else s.probes
  {
  }

  // ---- The breaker and its registry ----

  class Breaker {
    const config: Config
    var mode: Mode
    var failures: int
    var openedAt: int
    var lastFailure: int
    var halfOpenProbes: int
    var announced: seq<Change>
    ghost var history: seq<Call>

    ghost predicate Valid()
      reads this
    {
      && State(mode, failures, openedAt, lastFailure, halfOpenProbes) == Run(config, history)
      && announced == Log(config, history)
    }

    constructor (cfg: Config)
      ensures Valid() && history == [] && config == Normalize(cfg)
    {
      config := Normalize(cfg);
      mode, failures, openedAt, lastFailure, halfOpenProbes := Closed, 0, 0, 0, 0;
      announced, history := [], [];
    }

    method Emit(from: Mode, to: Mode, reason: string)
      modifies `announced
      ensures announced == old(announced) + [Change(from, to, reason)]
    {
      announced := announced + [Change(from, to, reason)];
    }

    method RecordSuccess(now: int)
      requires Valid()
      modifies this
      ensures Valid() && history == old(history) + [Success(now)]
    {
      history := history + [Success(now)];
      assert history[..|history| - 1] == old(history);
      match mode {
        case HalfOpen =>
          mode := Closed;
          failures := 0;
          halfOpenProbes := 0;
          Emit(HalfOpen, Closed, "probe succeeded");
        case Closed =>
          failures := 0;
        case Open =>
      }
    }

    method RecordFailure(now: int)
      requires Valid()
      modifies this
      ensures Valid() && history == old(history) + [Failure(now)]
    {
      history := history + [Failure(now)];
      assert history[..|history| - 1] == old(history);
      ghost var before, call := Run(config, old(history)), Failure(now);
      assert Run(config, history) == After(config, before, call);
      assert Log(config, history) == Log(config, old(history)) + Emitted(config, before, call);
      assert Emitted(config, before, call) == if After(config, before, call).mode == before.mode then []
                                              else [Change(before.mode, Open, ReasonFor(call, before.mode))];
      hide Run;
      hide Log;
      hide Emitted;
      failures := failures + 1;
      lastFailure := now;
      match mode {
        case Closed =>
          if failures >= config.failures {
            mode := Open;
            openedAt := now;
            Emit(Closed, Open, "consecutive failures");
          }
        case HalfOpen =>
          mode := Open;
          halfOpenProbes := 0;
          Emit(HalfOpen, Open, "half-open probe failed");
        case Open =>
      }
    }

    method AllowRequest(now: int) returns (ok: bool)
      requires Valid()
      modifies this
      ensures Valid() && history == old(history) + [Allow(now)]
      ensures ok <==> Admits(config, Run(config, old(history)), now)
    {
      history := history + [Allow(now)];
      assert history[..|history| - 1] == old(history);
      match mode {
        case Closed =>
          ok := true;
        case Open =>
          if now - openedAt >= config.cooldown {
            mode := HalfOpen;
            halfOpenProbes := 0;
            Emit(Open, HalfOpen, "cooldown expired");
            return true;
          }
          ok := false;
        case HalfOpen =>
          if halfOpenProbes < config.halfOpenMax {
            halfOpenProbes := halfOpenProbes + 1;
            return true;
          }
          ok := false;
      }
    }
  }

  /** One breaker per route. */
  class Registry {
    const config: Config
    var breakers: map<string, Breaker>
    ghost var repr: set<object>

    ghost predicate Valid()
      reads this, repr
    {
      && this in repr
      && (forall id :: id in breakers ==>
            breakers[id] in repr && breakers[id] as object != this && breakers[id].Valid()
            && breakers[id].config == Normalize(config))
      && (forall i, j :: i in breakers && j in breakers && i != j ==> breakers[i] != breakers[j])
    }

    constructor (cfg: Config)
      ensures Valid() && fresh(repr) && breakers == map[] && config == cfg
    {
      config, breakers, repr := cfg, map[], {this};
    }

    /** The route's own breaker, with its history; a route seen for the first time starts closed. */
    method Get(routeID: string) returns (b: Breaker)
      requires Valid()
      modifies this
      ensures Valid() && fresh(repr - old(repr))
      ensures breakers == old(breakers)[routeID := b]
      ensures routeID in old(breakers) ==> b == old(breakers)[routeID]
      ensures routeID !in old(breakers) ==> fresh(b) && b.history == []
    {
      if routeID in breakers {
        return breakers[routeID];
      }
      b := new Breaker(config);
      breakers := breakers[routeID := b];
      repr := repr + {b};
    }

    method Remove(routeID: string)
      requires Valid()
      modifies this
      ensures Valid() && breakers == old(breakers) - {routeID}
    {
      breakers := breakers - {routeID};
    }
  }
}
