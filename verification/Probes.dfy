/**
 Many requests on one route, and what they do to its circuit breaker: first one
 after the other, then overlapping, where a request is admitted in one step and
 reports in another. A request that is admitted and ends without a report uses
 up a probe of a half-open breaker.
 */
module Probes {
  import opened Wrappers
  import opened Dispatch
  import B = Breaker

  // ---- One request after the other ----

  /** A request, and the workers draining when it comes. */
  datatype Visit = Visit(e: Environment, draining: set<string>)

  /** How the visit ends when the breaker has this history. */
  function VisitExit(cfg: B.Config, h: seq<B.Call>, v: Visit): Exit {
    ExitOf(v.e, B.Admits(cfg, B.Run(cfg, h), v.e.allowAt), v.draining)
  }

  function AfterVisit(cfg: B.Config, h: seq<B.Call>, v: Visit): seq<B.Call> {
    h + BreakerCalls(v.e, VisitExit(cfg, h, v))
  }

  /** The breaker's history after requests served one after the other. */
  function Served(cfg: B.Config, h: seq<B.Call>, vs: seq<Visit>): seq<B.Call>
    decreases |vs|
  {
    if vs == [] then h else Served(cfg, AfterVisit(cfg, h, vs[0]), vs[1..])
  }

  /** What the visit tells the breaker once it is admitted and ends at time now. */
  function ReportAt(v: Visit, now: int): seq<B.Call> {
    Report(v.e.(reportAt := now), ExitOf(v.e, true, v.draining))
  }

  /** Even when admitted, the request ends without telling the breaker anything. */
  predicate Silent(v: Visit) {
    v.e.route.Some? && ReportAt(v, v.e.reportAt) == []
  }

  /** What a half-open episode has used up: its probes and the request that opened it. */
  function Used(s: B.State): int {
    if s.mode == B.HalfOpen then s.probes + 1 else 0
  }

  predicate Jammed(cfg: B.Config, s: B.State) {
    s.mode == B.HalfOpen && s.probes >= cfg.halfOpenMax
  }

  lemma RunAppend(cfg: B.Config, h: seq<B.Call>, c: B.Call)
    ensures B.Run(cfg, h + [c]) == B.After(cfg, B.Run(cfg, h), c)
  {
    assert (h + [c])[..|h|] == h;
  }

  lemma UsedIsNatural(cfg: B.Config, h: seq<B.Call>)
    ensures Used(B.Run(cfg, h)) >= 0
  {
    if B.Run(cfg, h).mode == B.HalfOpen {
      B.EpisodeAdmitsProbesPlusOne(cfg, h);
    }
  }

  /** The breaker after a visit: an admission, and then its report. */
  function StateAfter(cfg: B.Config, s: B.State, v: Visit): B.State {
    var asked := B.After(cfg, s, B.Allow(v.e.allowAt));
    var report := ReportAt(v, v.e.reportAt);
    if !B.Admits(cfg, s, v.e.allowAt) || report == [] then asked else B.After(cfg, asked, report[0])
  }

  lemma AfterCalls(cfg: B.Config, h: seq<B.Call>, v: Visit)
    requires v.e.route.Some?
    ensures B.Run(cfg, AfterVisit(cfg, h, v)) == StateAfter(cfg, B.Run(cfg, h), v)
  {
    var calls := BreakerCalls(v.e, VisitExit(cfg, h, v));
    var one := h + [B.Allow(v.e.allowAt)];
    RunAppend(cfg, h, B.Allow(v.e.allowAt));
    assert v.e.(reportAt := v.e.reportAt) == v.e;
    if B.Admits(cfg, B.Run(cfg, h), v.e.allowAt) && !Silent(v) {
      var c := ReportAt(v, v.e.reportAt)[0];
      assert calls == [B.Allow(v.e.allowAt)] + [c];
      assert h + calls == one + [c];
      RunAppend(cfg, one, c);
    } else {
      assert calls == [B.Allow(v.e.allowAt)];
    }
  }

  /** A report ends a half-open episode and starts none. */
  lemma ReportsUseNothing(cfg: B.Config, s: B.State, c: B.Call)
    requires !c.Allow?
    ensures Used(B.After(cfg, s, c)) == 0
  {
  }

  /** An admission uses up one of a half-open episode. */
  lemma AdmissionUses(cfg: B.Config, s: B.State, now: int)
    ensures var n := B.After(cfg, s, B.Allow(now));
            && (s.mode == B.HalfOpen ==> n == s.(probes := s.probes + if Jammed(cfg, s) then 0 else 1))
            && (!B.Admits(cfg, s, now) ==> n == s)
            && (Used(s) >= 0 ==> Used(n) <= Used(s) + 1)
  {
  }

  lemma StateUses(cfg: B.Config, s: B.State, v: Visit)
    requires v.e.route.Some? && Used(s) >= 0
    ensures var n := StateAfter(cfg, s, v);
            && (s.mode == B.HalfOpen && Silent(v) ==> n == s.(probes := s.probes + if Jammed(cfg, s) then 0 else 1))
            && (Jammed(cfg, s) ==> n == s)
            && Used(n) <= Used(s) + 1
            && (!Silent(v) && !Jammed(cfg, s) ==> Used(n) <= Used(s))
  {
    SilentAtAnyTime(v, v.e.reportAt);
    AdmissionUses(cfg, s, v.e.allowAt);
    if !Silent(v) {
      ReportsUseNothing(cfg, B.After(cfg, s, B.Allow(v.e.allowAt)), ReportAt(v, v.e.reportAt)[0]);
    }
    hide B.After;
    hide ReportAt;
  }

  /** Only a silent visit uses up something of a half-open episode, and exactly one of it, until the breaker is jammed. */
  lemma VisitUses(cfg: B.Config, h: seq<B.Call>, v: Visit)
    ensures var s, n := B.Run(cfg, h), B.Run(cfg, AfterVisit(cfg, h, v));
            && (s.mode == B.HalfOpen && Silent(v) ==> n == s.(probes := s.probes + if Jammed(cfg, s) then 0 else 1))
            && (Jammed(cfg, s) ==> n == s)
            && Used(n) <= Used(s) + 1
            && (!Silent(v) && !Jammed(cfg, s) ==> Used(n) <= Used(s))
  {
    UsedIsNatural(cfg, h);
    if v.e.route.Some? {
      AfterCalls(cfg, h, v);
      StateUses(cfg, B.Run(cfg, h), v);
      hide *;
    } else {
      assert AfterVisit(cfg, h, v) == h;
    }
  }

  lemma {:induction false} SilentVisitsUseProbes(cfg: B.Config, h: seq<B.Call>, vs: seq<Visit>)
    requires B.Run(cfg, h).mode == B.HalfOpen
    requires forall i :: 0 <= i < |vs| ==> Silent(vs[i])
    ensures var s := B.Run(cfg, Served(cfg, h, vs));
            && s.mode == B.HalfOpen
            && (s.probes >= cfg.halfOpenMax || s.probes >= B.Run(cfg, h).probes + |vs|)
    decreases |vs|
  {
    if vs != [] {
      VisitUses(cfg, h, vs[0]);
      assert Served(cfg, h, vs) == Served(cfg, AfterVisit(cfg, h, vs[0]), vs[1..]);
      hide B.Run;
      hide Silent;
      hide AfterVisit;
      SilentVisitsUseProbes(cfg, AfterVisit(cfg, h, vs[0]), vs[1..]);
    }
  }

  lemma {:induction false} JammedStaysJammed(cfg: B.Config, h: seq<B.Call>, vs: seq<Visit>)
    requires Jammed(cfg, B.Run(cfg, h))
    ensures Jammed(cfg, B.Run(cfg, Served(cfg, h, vs)))
    decreases |vs|
  {
    if vs != [] {
      VisitUses(cfg, h, vs[0]);
      hide B.Run;
      JammedStaysJammed(cfg, AfterVisit(cfg, h, vs[0]), vs[1..]);
    }
  }

  lemma {:induction false} ServedAppend(cfg: B.Config, h: seq<B.Call>, a: seq<Visit>, b: seq<Visit>)
    ensures Served(cfg, h, a + b) == Served(cfg, Served(cfg, h, a), b)
    decreases |a|
  {
    if a == [] {
      assert a + b == b;
    } else {
      assert (a + b)[1..] == a[1..] + b;
      ServedAppend(cfg, AfterVisit(cfg, h, a[0]), a[1..], b);
    }
  }

  /** Visits use up at most one each, and less together when one of them is not silent. */
  lemma {:induction false} VisitsUse(cfg: B.Config, h: seq<B.Call>, vs: seq<Visit>)
    requires Used(B.Run(cfg, h)) + |vs| <= cfg.halfOpenMax + 1
    ensures Used(B.Run(cfg, Served(cfg, h, vs))) <= Used(B.Run(cfg, h)) + |vs|
    ensures (exists i :: 0 <= i < |vs| && !Silent(vs[i])) ==>
              Used(B.Run(cfg, Served(cfg, h, vs))) < Used(B.Run(cfg, h)) + |vs|
    decreases |vs|
  {
    if vs != [] {
      VisitUses(cfg, h, vs[0]);
      hide B.Run;
      hide Silent;
      var next := AfterVisit(cfg, h, vs[0]);
      VisitsUse(cfg, next, vs[1..]);
      assert forall i :: 0 < i < |vs| ==> vs[i] == vs[1..][i - 1];
    }
  }

  /** Every request that comes at or after a time is refused, whatever requests are served before it. */
  ghost predicate RefusesForEver(cfg: B.Config, h: seq<B.Call>, since: int) {
    forall later, v: Visit :: v.e.route.Some? && v.e.allowAt >= since ==>
      VisitExit(cfg, Served(cfg, h, later), v) == Refused
  }

  /** A breaker that is not jammed admits some request at or after any time. */
  lemma AdmitsLater(cfg: B.Config, h: seq<B.Call>, since: int) returns (v: Visit)
    requires !Jammed(cfg, B.Run(cfg, h))
    ensures v.e.route.Some? && v.e.allowAt >= since && VisitExit(cfg, h, v) != Refused
  {
    var over := B.Run(cfg, h).openedAt + cfg.cooldown;
    var now := if over < since then since else over;
    v := Visit(Environment(Some(Route("", false, false)), now, None, true, true, true, true, true, "", true, true,
                           Decoded(200), now), {});
  }

  /**
   When as many requests follow one another as a half-open breaker has probes
   left, the route is refused for ever if and only if every one of them ends
   silently: with a refused token or role, a failed schema or hook, a draining
   worker, a listener's answer, or an undecodable reply.
   */
  lemma RouteClosesForEverExactlyWhenAllSilent(cfg: B.Config, h: seq<B.Call>, visits: seq<Visit>, since: int)
    requires B.Run(cfg, h).mode == B.HalfOpen && B.Run(cfg, h).probes + |visits| == cfg.halfOpenMax
    ensures RefusesForEver(cfg, Served(cfg, h, visits), since) <==> forall i :: 0 <= i < |visits| ==> Silent(visits[i])
  {
    hide B.Run;
    hide Silent;
    var after := Served(cfg, h, visits);
    if forall i :: 0 <= i < |visits| ==> Silent(visits[i]) {
      SilentVisitsUseProbes(cfg, h, visits);
      forall later, v: Visit | v.e.route.Some? && v.e.allowAt >= since
        ensures VisitExit(cfg, Served(cfg, after, later), v) == Refused
      {
        JammedStaysJammed(cfg, after, later);
      }
    } else {
      VisitsUse(cfg, h, visits);
      var v := AdmitsLater(cfg, after, since);
      assert Served(cfg, after, []) == after;
    }
  }

  // ---- Overlapping requests ----

  /** The route's breaker, and the requests it admitted that have not ended. */
  datatype Gateway = Gateway(h: seq<B.Call>, waiting: map<nat, Visit>)

  datatype Event = Arrive(id: nat, v: Visit) | Finish(id: nat, now: int)

  function At(a: Event): int {
    if a.Arrive? then a.v.e.allowAt else a.now
  }

  predicate Enabled(g: Gateway, a: Event) {
    match a
    case Arrive(id, v) => id !in g.waiting && v.e.route.Some?
    case Finish(id, _) => id in g.waiting
  }

  function Next(cfg: B.Config, g: Gateway, a: Event): Gateway
    requires Enabled(g, a)
  {
    match a
    case Arrive(id, v) =>
      Gateway(g.h + [B.Allow(v.e.allowAt)],
              if VisitExit(cfg, g.h, v) == Refused then g.waiting else g.waiting[id := v])
    case Finish(id, now) => Gateway(g.h + ReportAt(g.waiting[id], now), g.waiting - {id})
  }

  predicate Run(cfg: B.Config, g: Gateway, events: seq<Event>)
    decreases |events|
  {
    events == [] || (Enabled(g, events[0]) && Run(cfg, Next(cfg, g, events[0]), events[1..]))
  }

  function End(cfg: B.Config, g: Gateway, events: seq<Event>): Gateway
    requires Run(cfg, g, events)
    decreases |events|
  {
    if events == [] then g else End(cfg, Next(cfg, g, events[0]), events[1..])
  }

  /** The clock of the events starts at since, never goes back, and ends by until. */
  predicate Clocked(events: seq<Event>, since: int, until: int)
    decreases |events|
  {
    if events == [] then since <= until else since <= At(events[0]) && Clocked(events[1..], At(events[0]), until)
  }

  /** A request one after the other is one that arrives and, if admitted, ends before anything else. */
  lemma VisitIsArrivalAndEnd(cfg: B.Config, g: Gateway, id: nat, v: Visit)
    requires id !in g.waiting && v.e.route.Some?
    ensures var arrived := Next(cfg, g, Arrive(id, v));
            if VisitExit(cfg, g.h, v) == Refused then arrived == Gateway(AfterVisit(cfg, g.h, v), g.waiting)
            else id in arrived.waiting
                 && Next(cfg, arrived, Finish(id, v.e.reportAt)) == Gateway(AfterVisit(cfg, g.h, v), g.waiting)
  {
    assert v.e.(reportAt := v.e.reportAt) == v.e;
    if VisitExit(cfg, g.h, v) != Refused {
      assert g.waiting[id := v] - {id} == g.waiting;
      assert g.h + ([B.Allow(v.e.allowAt)] + ReportAt(v, v.e.reportAt))
          == (g.h + [B.Allow(v.e.allowAt)]) + ReportAt(v, v.e.reportAt);
    } else {
      assert BreakerCalls(v.e, Refused) == [B.Allow(v.e.allowAt)];
    }
  }

  /** Whether a visit reports does not depend on when it ends. */
  lemma SilentAtAnyTime(v: Visit, now: int)
    requires v.e.route.Some?
    ensures ReportAt(v, now) == [] <==> Silent(v)
    ensures |ReportAt(v, now)| <= 1 && (ReportAt(v, now) != [] ==> !ReportAt(v, now)[0].Allow?)
  {
  }

  /** Every waiting request has a route, and ends without a report. */
  ghost predicate AllSilent(g: Gateway) {
    forall id :: id in g.waiting ==> Silent(g.waiting[id])
  }

  ghost predicate Routed(g: Gateway) {
    forall id :: id in g.waiting ==> g.waiting[id].e.route.Some?
  }

  lemma {:induction false} JammedWhileAllSilent(cfg: B.Config, g: Gateway, events: seq<Event>)
    requires Run(cfg, g, events) && Jammed(cfg, B.Run(cfg, g.h)) && AllSilent(g)
    ensures Jammed(cfg, B.Run(cfg, End(cfg, g, events).h))
    decreases |events|
  {
    if events != [] {
      var n := Next(cfg, g, events[0]);
      match events[0] {
        case Arrive(id, v) =>
          RunAppend(cfg, g.h, B.Allow(v.e.allowAt));
        case Finish(id, now) =>
          SilentAtAnyTime(g.waiting[id], now);
          assert n.h == g.h;
      }
      hide B.Run;
      hide Silent;
      JammedWhileAllSilent(cfg, n, events[1..]);
    }
  }

  /** Whatever events follow, every request that comes after them is refused. */
  ghost predicate RefusesFromNowOn(cfg: B.Config, g: Gateway, since: int) {
    forall events, v: Visit ::
      Run(cfg, g, events) && v.e.route.Some? && Clocked(events, since, v.e.allowAt) ==>
        VisitExit(cfg, End(cfg, g, events).h, v) == Refused
  }

  lemma ReportUnjams(cfg: B.Config, g: Gateway, id: nat, since: int)
    requires Routed(g) && id in g.waiting && !Silent(g.waiting[id])
    ensures !RefusesFromNowOn(cfg, g, since)
  {
    var v := g.waiting[id];
    var report := Finish(id, since);
    SilentAtAnyTime(v, since);
    var n := Next(cfg, g, report);
    assert ReportAt(v, since) == [ReportAt(v, since)[0]];
    RunAppend(cfg, g.h, ReportAt(v, since)[0]);
    ReportsUseNothing(cfg, B.Run(cfg, g.h), ReportAt(v, since)[0]);
    assert !Jammed(cfg, B.Run(cfg, n.h)) by {
      UsedIsNatural(cfg, n.h);
      if B.Run(cfg, n.h).mode == B.HalfOpen {
        B.EpisodeAdmitsProbesPlusOne(cfg, n.h);
      }
    }
    var w := AdmitsLater(cfg, n.h, since);
    assert [report][1..] == [];
    assert Run(cfg, n, []) && End(cfg, n, []) == n;
    assert Run(cfg, g, [report]) && End(cfg, g, [report]) == n;
    assert Clocked([], since, w.e.allowAt) && Clocked([report], since, w.e.allowAt);
  }

  /**
   Once the probes of a half-open breaker are spent, every request in every
   continuation is refused if and only if no request that was admitted and is
   still under way will report.
   */
  lemma SpentProbesRefuseExactlyWhenNobodyReports(cfg: B.Config, g: Gateway, since: int)
    requires Jammed(cfg, B.Run(cfg, g.h)) && Routed(g)
    ensures RefusesFromNowOn(cfg, g, since) <==> forall id :: id in g.waiting ==> Silent(g.waiting[id])
  {
    hide B.Run;
    hide Silent;
    if AllSilent(g) {
      forall events, v: Visit | Run(cfg, g, events) && v.e.route.Some? && Clocked(events, since, v.e.allowAt)
        ensures VisitExit(cfg, End(cfg, g, events).h, v) == Refused
      {
        JammedWhileAllSilent(cfg, g, events);
      }
    } else {
      var id :| id in g.waiting && !Silent(g.waiting[id]);
      ReportUnjams(cfg, g, id, since);
    }
  }
}
