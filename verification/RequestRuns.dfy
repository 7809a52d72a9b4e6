/**
 The runs of single requests through the small steps of acquiring, sending and
 releasing, with what they do on the drainer.
 */
module RequestRuns {
  import opened DrainerLog
  import opened Draining

  /** The steps of a release: without a name nothing is counted down. */
  function ReleaseSteps(r: Request, w: Worker): seq<Step> {
    [ReleaseLoad(r)] + (if w != "" then [ReleaseDone(r)] else [])
  }

  /** What a request does after its send. */
  function EndSteps(r: Request, w: Worker, sent: bool): seq<Step> {
    (if sent then [Return(r)] else []) + ReleaseSteps(r, w)
  }

  /** The steps of a request from its selection on. */
  function ServeSteps(r: Request, w: Worker, g: Group, sent: bool): seq<Step> {
    [Select(r, w)] + ([AcquireLoad(r, g)] + ([AcquireAdd(r)] + ([Send(r, sent)] + EndSteps(r, w, sent))))
  }

  /** What a step does on the drainer. */
  function OpOf(s: State, a: Step): seq<Op>
    requires Enabled(s, a)
  {
    match a
    case AcquireAdd(r) => [Acquired(s.phases[r].worker)]
    case ReleaseDone(r) => [Released(s.phases[r].worker)]
    case _ => []
  }

  function OpsOf(s: State, steps: seq<Step>): seq<Op>
    requires Run(s, steps)
    decreases |steps|
  {
    if steps == [] then [] else OpOf(s, steps[0]) + OpsOf(Next(s, steps[0]), steps[1..])
  }

  /** The steps are a run that ends here and does this on the drainer. */
  ghost predicate Leads(s: State, steps: seq<Step>, end: State, ops: seq<Op>) {
    Run(s, steps) && End(s, steps) == end && OpsOf(s, steps) == ops
  }

  lemma LeadsNowhere(s: State)
    ensures Leads(s, [], s, [])
  {
  }

  lemma LeadsOn(s: State, a: Step, rest: seq<Step>, end: State, ops: seq<Op>)
    requires Enabled(s, a) && Leads(Next(s, a), rest, end, ops)
    ensures Leads(s, [a] + rest, end, OpOf(s, a) + ops)
    ensures OpOf(s, a) == [] ==> Leads(s, [a] + rest, end, ops)
  {
    assert ([a] + rest)[1..] == rest;
    assert [] + ops == ops;
  }

  // ---- One step ----

  function At(s: State, r: Request, p: Phase): State {
    s.(phases := s.phases[r := p])
  }

  lemma AtTwice(s: State, r: Request, p: Phase, q: Phase)
    ensures At(At(s, r, p), r, q) == At(s, r, q)
  {
    assert s.phases[r := p][r := q] == s.phases[r := q];
  }

  function WithCount(s: State, g: Group, n: int): State {
    s.(count := s.count[g := n])
  }

  /** The steps that only move the request. */
  lemma Moves(s: State, a: Step)
    requires Enabled(s, a) && (a.Abandon? || a.Select? || a.Return? || a.ReleaseLoad?)
    ensures Next(s, a) == At(s, a.r, PhaseAfter(s, a)) && OpOf(s, a) == []
  {
    hide Holders;
    hide PhaseAfter;
  }

  lemma MovesEnter(s: State, r: Request, route: Worker)
    requires r !in s.phases
    ensures Next(s, Enter(r, route)) == At(s, r, Entered(route)).(routes := s.routes[r := route])
  {
    hide Holders;
  }

  lemma MovesCheck(s: State, r: Request)
    requires r in s.phases && s.phases[r].Entered?
    ensures var route := s.phases[r].route;
            Next(s, CheckDrain(r)) == At(s, r, if route in s.draining then Done else Checked(route))
                                      .(drainingWhenChecked := s.drainingWhenChecked[r := s.draining])
  {
    hide Holders;
  }

  lemma MovesAcquireAdd(s: State, r: Request)
    requires r in s.phases && s.phases[r].Loaded?
    ensures var p := s.phases[r];
            && Next(s, AcquireAdd(r)) == WithCount(At(s, r, Holding(p.worker, p.group)), p.group, GroupCount(s, p.group) + 1)
            && OpOf(s, AcquireAdd(r)) == [Acquired(p.worker)]
  {
    hide Holders;
  }

  /** The state once the request's send has worked or failed. */
  function SentIn(s: State, r: Request, w: Worker, g: Group, sent: bool): State {
    At(s, r, if sent then Sent(w, g) else Finishing(w, g)).(sends := s.sends + {(r, w)})
  }

  lemma MovesSend(s: State, r: Request, w: Worker, g: Group, sent: bool)
    requires r in s.phases && s.phases[r] == Holding(w, g)
    ensures Next(s, Send(r, sent)) == SentIn(s, r, w, g, sent) && OpOf(s, Send(r, sent)) == []
  {
    hide Holders;
  }

  lemma MovesReleaseDone(s: State, r: Request)
    requires r in s.phases && s.phases[r].Releasing?
    ensures var p := s.phases[r];
            && Next(s, ReleaseDone(r)) == WithCount(At(s, r, Done), p.group, GroupCount(s, p.group) - 1)
            && OpOf(s, ReleaseDone(r)) == [Released(p.worker)]
  {
    hide Holders;
  }

  lemma MovesAcquireLoad(s: State, r: Request, g: Group)
    requires Enabled(s, AcquireLoad(r, g))
    ensures Next(s, AcquireLoad(r, g)) == LoadedIn(s, r, s.phases[r].worker, g)
  {
    hide Holders;
  }

  // ---- From the release back to the arrival ----

  /** The state once the request has left the pipeline and given back its worker. */
  function ReleasedIn(s: State, r: Request, w: Worker, g: Group): State {
    if w == "" then At(s, r, Done) else WithCount(At(s, r, Done), g, GroupCount(s, g) - 1)
  }

  function ReleaseOps(w: Worker): seq<Op> {
    if w == "" then [] else [Released(w)]
  }

  /** Every worker in the drainer's table has a wait group of its own. */
  ghost predicate Grouped(s: State) {
    && (forall w :: w in s.inflight ==> s.inflight[w] in s.count)
    && (forall v, w :: v in s.inflight && w in s.inflight && v != w ==> s.inflight[v] != s.inflight[w])
  }

  /** A request that has acquired the worker releases it. */
  lemma Releases(s: State, r: Request, w: Worker, g: Group)
    requires r in s.phases && s.phases[r] == Finishing(w, g) && w in s.inflight && s.inflight[w] == g
    ensures Leads(s, ReleaseSteps(r, w), ReleasedIn(s, r, w, g), ReleaseOps(w))
  {
    Moves(s, ReleaseLoad(r));
    var p := PhaseAfter(s, ReleaseLoad(r));
    assert p == if w == "" then Done else Releasing(w, g);
    var s1 := At(s, r, p);
    hide Next;
    hide OpOf;
    hide Leads;
    hide PhaseAfter;
    if w == "" {
      LeadsNowhere(s1);
      LeadsOn(s, ReleaseLoad(r), [], s1, []);
    } else {
      MovesReleaseDone(s1, r);
      AtTwice(s, r, p, Done);
      var s2 := ReleasedIn(s, r, w, g);
      LeadsNowhere(s2);
      LeadsOn(s1, ReleaseDone(r), [], s2, []);
      assert [ReleaseDone(r)] + [] == [ReleaseDone(r)] && [Released(w)] + [] == [Released(w)];
      LeadsOn(s, ReleaseLoad(r), [ReleaseDone(r)], s2, [Released(w)]);
    }
  }

  lemma ReleasedAfterMove(s: State, r: Request, p: Phase, w: Worker, g: Group)
    ensures ReleasedIn(At(s, r, p), r, w, g) == ReleasedIn(s, r, w, g)
  {
    AtTwice(s, r, p, Done);
    assert GroupCount(At(s, r, p), g) == GroupCount(s, g);
    if w == "" {
    } else {
    }
  }

  /** A request that has sent, or failed to, receives and releases. */
  lemma Ends(s: State, r: Request, w: Worker, g: Group, sent: bool)
    requires r in s.phases && s.phases[r] == (if sent then Sent(w, g) else Finishing(w, g))
    requires w in s.inflight && s.inflight[w] == g
    ensures Leads(s, EndSteps(r, w, sent), ReleasedIn(s, r, w, g), ReleaseOps(w))
  {
    hide Leads;
    hide ReleaseSteps;
    if sent {
      Moves(s, Return(r));
      assert PhaseAfter(s, Return(r)) == Finishing(w, g);
      var s1 := At(s, r, Finishing(w, g));
      ReleasedAfterMove(s, r, Finishing(w, g), w, g);
      Releases(s1, r, w, g);
      hide Next;
      hide PhaseAfter;
      hide ReleasedIn;
      LeadsOn(s, Return(r), ReleaseSteps(r, w), ReleasedIn(s, r, w, g), ReleaseOps(w));
    } else {
      Releases(s, r, w, g);
      assert [] + ReleaseSteps(r, w) == ReleaseSteps(r, w);
    }
  }

  /** The send changes nothing of the release. */
  lemma ReleasedAfterSend(s: State, r: Request, w: Worker, g: Group, sent: bool)
    ensures var n := SentIn(s, r, w, g, sent);
            && ReleasedIn(n, r, w, g) == ReleasedIn(s, r, w, g).(sends := s.sends + {(r, w)})
            && r in n.phases && n.phases[r] == (if sent then Sent(w, g) else Finishing(w, g)) && n.inflight == s.inflight
  {
    AtTwice(s, r, if sent then Sent(w, g) else Finishing(w, g), Done);
  }

  /** A request that holds the worker sends, receives and releases. */
  lemma Exchanges(s: State, r: Request, w: Worker, g: Group, sent: bool)
    requires r in s.phases && s.phases[r] == Holding(w, g) && w in s.inflight && s.inflight[w] == g
    ensures Leads(s, [Send(r, sent)] + EndSteps(r, w, sent),
                  ReleasedIn(s, r, w, g).(sends := s.sends + {(r, w)}), ReleaseOps(w))
  {
    MovesSend(s, r, w, g, sent);
    ReleasedAfterSend(s, r, w, g, sent);
    hide *;
    Ends(SentIn(s, r, w, g, sent), r, w, g, sent);
    assert Enabled(s, Send(r, sent)) by { CanSend(s, r, sent); }
    LeadsOn(s, Send(r, sent), EndSteps(r, w, sent), ReleasedIn(SentIn(s, r, w, g, sent), r, w, g), ReleaseOps(w));
  }

  lemma CanSend(s: State, r: Request, sent: bool)
    requires r in s.phases && s.phases[r].Holding?
    ensures Enabled(s, Send(r, sent))
  {
  }

  /** The group that an acquire of w uses. */
  function GroupOf(s: State, w: Worker, g: Group): Group {
    if w in s.inflight then s.inflight[w] else g
  }

  function LoadedIn(s: State, r: Request, w: Worker, g: Group): State {
    At(s, r, Loaded(w, GroupOf(s, w, g)))
    .(inflight := if w in s.inflight then s.inflight else s.inflight[w := g],
      count := if w in s.inflight then s.count else s.count[g := 0])
  }

  /** The state in which a request holds the worker it was sent on to. */
  function HoldingIn(s: State, r: Request, w: Worker, g: Group): State {
    var loaded, used := LoadedIn(s, r, w, g), GroupOf(s, w, g);
    WithCount(At(loaded, r, Holding(w, used)), used, GroupCount(loaded, used) + 1)
  }

  /** The request acquires what it has selected. */
  lemma AcquiresSelected(s: State, r: Request, w: Worker, g: Group, rest: seq<Step>, end: State, ops: seq<Op>)
    requires r in s.phases && s.phases[r] == Selected(w)
    requires (w !in s.inflight ==> g !in s.count) && Leads(HoldingIn(s, r, w, g), rest, end, ops)
    ensures Leads(s, [AcquireLoad(r, g)] + ([AcquireAdd(r)] + rest), end, [Acquired(w)] + ops)
  {
    MovesAcquireLoad(s, r, g);
    assert OpOf(s, AcquireLoad(r, g)) == [];
    var n := LoadedIn(s, r, w, g);
    MovesAcquireAdd(n, r);
    assert Enabled(n, AcquireAdd(r));
    hide *;
    assert Next(n, AcquireAdd(r)) == HoldingIn(s, r, w, g) by { HoldsLoaded(s, r, w, g); }
    LeadsOn(n, AcquireAdd(r), rest, end, ops);
    assert Enabled(s, AcquireLoad(r, g)) by { CanLoad(s, r, g); }
    LeadsOn(s, AcquireLoad(r, g), [AcquireAdd(r)] + rest, end, [Acquired(w)] + ops);
  }

  lemma HoldsLoaded(s: State, r: Request, w: Worker, g: Group)
    ensures var n := LoadedIn(s, r, w, g);
            && r in n.phases && n.phases[r] == Loaded(w, GroupOf(s, w, g))
            && Next(n, AcquireAdd(r)) == HoldingIn(s, r, w, g)
  {
    MovesAcquireAdd(LoadedIn(s, r, w, g), r);
    hide Next;
  }

  lemma CanLoad(s: State, r: Request, g: Group)
    requires r in s.phases && s.phases[r].Selected? && (s.phases[r].worker !in s.inflight ==> g !in s.count)
    ensures Enabled(s, AcquireLoad(r, g))
  {
  }

  /** A checked request selects and acquires, and goes on from there. */
  lemma Acquires(s: State, r: Request, w: Worker, g: Group, rest: seq<Step>, end: State, ops: seq<Op>)
    requires r in s.phases && s.phases[r].Checked? && (!s.pooled ==> w == s.phases[r].route)
    requires (w !in s.inflight ==> g !in s.count) && Leads(HoldingIn(s, r, w, g), rest, end, ops)
    ensures Leads(s, [Select(r, w)] + ([AcquireLoad(r, g)] + ([AcquireAdd(r)] + rest)), end, [Acquired(w)] + ops)
  {
    Moves(s, Select(r, w));
    assert PhaseAfter(s, Select(r, w)) == Selected(w);
    var s1 := At(s, r, Selected(w));
    HoldsSelected(s, r, w, g);
    hide Leads;
    hide Next;
    hide HoldingIn;
    AcquiresSelected(s1, r, w, g, rest, end, ops);
    LeadsOn(s, Select(r, w), [AcquireLoad(r, g)] + ([AcquireAdd(r)] + rest), end, [Acquired(w)] + ops);
  }

  lemma HoldsSelected(s: State, r: Request, w: Worker, g: Group)
    ensures HoldingIn(At(s, r, Selected(w)), r, w, g) == HoldingIn(s, r, w, g)
  {
    AtTwice(s, r, Selected(w), Loaded(w, GroupOf(s, w, g)));
  }

  /** The state once a checked request has been served. */
  function ServedIn(s: State, r: Request, w: Worker, g: Group): State {
    ReleasedIn(HoldingIn(s, r, w, g), r, w, GroupOf(s, w, g)).(sends := s.sends + {(r, w)})
  }

  /** A checked request selects, acquires, exchanges and releases. */
  lemma Serves(s: State, r: Request, w: Worker, g: Group, sent: bool)
    requires r in s.phases && s.phases[r].Checked? && (!s.pooled ==> w == s.phases[r].route)
    requires w !in s.inflight ==> g !in s.count
    ensures Leads(s, ServeSteps(r, w, g, sent), ServedIn(s, r, w, g), [Acquired(w)] + ReleaseOps(w))
  {
    hide Leads;
    hide EndSteps;
    Exchanges(HoldingIn(s, r, w, g), r, w, GroupOf(s, w, g), sent);
    Acquires(s, r, w, g, [Send(r, sent)] + EndSteps(r, w, sent), ServedIn(s, r, w, g), ReleaseOps(w));
  }

  /** A request that arrives and is checked, and goes on from there. */
  lemma Checks(s: State, r: Request, route: Worker, rest: seq<Step>, end: State, ops: seq<Op>)
    requires r !in s.phases && Leads(CheckedIn(s, r, route), rest, end, ops)
    ensures Leads(s, [Enter(r, route)] + ([CheckDrain(r)] + rest), end, ops)
  {
    MovesEnter(s, r, route);
    var s1 := At(s, r, Entered(route)).(routes := s.routes[r := route]);
    MovesCheck(s1, r);
    AtTwice(s, r, Entered(route), if route in s.draining then Done else Checked(route));
    assert OpOf(s, Enter(r, route)) == [] && OpOf(s1, CheckDrain(r)) == [];
    hide Leads;
    hide Next;
    hide OpOf;
    LeadsOn(s1, CheckDrain(r), rest, end, ops);
    LeadsOn(s, Enter(r, route), [CheckDrain(r)] + rest, end, ops);
  }

  function CheckedIn(s: State, r: Request, route: Worker): State {
    At(s, r, if route in s.draining then Done else Checked(route))
    .(routes := s.routes[r := route], drainingWhenChecked := s.drainingWhenChecked[r := s.draining])
  }

  lemma EarlyExit(s: State, r: Request, route: Worker)
    requires r !in s.phases
    ensures Leads(s, [Enter(r, route)] + [Abandon(r)], At(s, r, Done).(routes := s.routes[r := route]), [])
  {
    MovesEnter(s, r, route);
    var s1 := At(s, r, Entered(route)).(routes := s.routes[r := route]);
    Moves(s1, Abandon(r));
    AtTwice(s, r, Entered(route), Done);
    assert OpOf(s, Enter(r, route)) == [];
    hide Leads;
    hide Next;
    hide OpOf;
    LeadsAbandoned(s1, r);
    LeadsOn(s, Enter(r, route), [Abandon(r)], At(s1, r, Done), []);
  }

  lemma LeadsAbandoned(s: State, r: Request)
    requires Enabled(s, Abandon(r))
    ensures Leads(s, [Abandon(r)], At(s, r, Done), [])
  {
    Moves(s, Abandon(r));
    LeadsNowhere(At(s, r, Done));
    LeadsOn(s, Abandon(r), [], At(s, r, Done), []);
    assert [Abandon(r)] + [] == [Abandon(r)];
  }

  lemma CheckedExit(s: State, r: Request, route: Worker)
    requires r !in s.phases
    ensures Leads(s, [Enter(r, route)] + (if route in s.draining then [CheckDrain(r)] else [CheckDrain(r), Abandon(r)]),
                  At(CheckedIn(s, r, route), r, Done), [])
  {
    var c := CheckedIn(s, r, route);
    hide Leads;
    hide Next;
    if route in s.draining {
      LeadsNowhere(c);
      AtTwice(s, r, Done, Done);
      Checks(s, r, route, [], c, []);
      assert [CheckDrain(r)] + [] == [CheckDrain(r)];
    } else {
      LeadsAbandoned(c, r);
      Checks(s, r, route, [Abandon(r)], At(c, r, Done), []);
      assert [CheckDrain(r)] + [Abandon(r)] == [CheckDrain(r), Abandon(r)];
    }
  }

  /** Acquiring counts one more for the worker and nothing for others. */
  lemma HoldingCounts(s: State, r: Request, w: Worker, g: Group)
    requires Grouped(s) && g !in s.count
    ensures var n, used := HoldingIn(s, r, w, g), GroupOf(s, w, g);
            && Grouped(n) && w in n.inflight && n.inflight[w] == used
            && forall v :: InFlight(n, v) == InFlight(s, v) + if v == w then 1 else 0
  {
  }

  /** Releasing a named worker counts one fewer for it. */
  lemma ReleasedCounts(s: State, r: Request, w: Worker, g: Group)
    requires Grouped(s) && w in s.inflight && s.inflight[w] == g
    ensures forall v :: InFlight(ReleasedIn(s, r, w, g), v) == InFlight(s, v) - if v == w != "" then 1 else 0
  {
  }

  /** Once it has acquired and released, no named worker's count has changed. */
  lemma ServedCounts(s: State, r: Request, w: Worker, g: Group)
    requires Grouped(s) && g !in s.count
    ensures forall v :: v != "" ==> InFlight(ServedIn(s, r, w, g), v) == InFlight(s, v)
  {
    var n, used := HoldingIn(s, r, w, g), GroupOf(s, w, g);
    HoldingCounts(s, r, w, g);
    ReleasedCounts(n, r, w, used);
    hide HoldingIn;
    hide Grouped;
    hide ReleasedIn;
    forall v | v != ""
      ensures InFlight(ServedIn(s, r, w, g), v) == InFlight(s, v)
    {
      assert InFlight(ServedIn(s, r, w, g), v) == InFlight(ReleasedIn(n, r, w, used), v);
    }
  }

  lemma HoldingLeaves(s: State, r: Request, w: Worker, g: Group)
    ensures var n := HoldingIn(s, r, w, g);
            n.draining == s.draining && n.sends == s.sends && n.phases == s.phases[r := Holding(w, GroupOf(s, w, g))]
  {
    AtTwice(s, r, Loaded(w, GroupOf(s, w, g)), Holding(w, GroupOf(s, w, g)));
  }

  lemma ReleasedLeaves(s: State, r: Request, w: Worker, g: Group)
    ensures ReleasedIn(s, r, w, g).draining == s.draining
    ensures ReleasedIn(s, r, w, g).sends == s.sends
    ensures ReleasedIn(s, r, w, g).phases == s.phases[r := Done]
  {
    var left := At(s, r, Done);
    if w == "" {
      assert ReleasedIn(s, r, w, g) == left;
    } else {
      assert ReleasedIn(s, r, w, g) == WithCount(left, g, GroupCount(s, g) - 1);
    }
  }

  lemma ServedLeaves(s: State, r: Request, w: Worker, g: Group)
    ensures var n := ServedIn(s, r, w, g);
            n.draining == s.draining && n.sends == s.sends + {(r, w)} && n.phases == s.phases[r := Done]
  {
    var used := GroupOf(s, w, g);
    HoldingLeaves(s, r, w, g);
    ReleasedLeaves(HoldingIn(s, r, w, g), r, w, used);
    assert s.phases[r := Holding(w, used)][r := Done] == s.phases[r := Done];
    hide HoldingIn;
    hide ReleasedIn;
  }

  lemma CheckedCounts(s: State, r: Request, route: Worker)
    ensures var c := CheckedIn(s, r, route);
            && (forall v :: InFlight(c, v) == InFlight(s, v)) && (Grouped(c) <==> Grouped(s))
            && c.phases[r := Done] == s.phases[r := Done] && c.draining == s.draining && c.sends == s.sends
            && c.count == s.count && c.pooled == s.pooled
  {
  }

  lemma ServedExit(s: State, r: Request, route: Worker, w: Worker, g: Group, sent: bool)
    requires r !in s.phases && route !in s.draining && (!s.pooled ==> w == route) && g !in s.count
    ensures Leads(s, [Enter(r, route)] + ([CheckDrain(r)] + ServeSteps(r, w, g, sent)),
                  ServedIn(CheckedIn(s, r, route), r, w, g), [Acquired(w)] + ReleaseOps(w))
  {
    var c := CheckedIn(s, r, route);
    Serves(c, r, w, g, sent);
    hide Leads;
    hide ServedIn;
    hide ServeSteps;
    Checks(s, r, route, ServeSteps(r, w, g, sent), ServedIn(c, r, w, g), [Acquired(w)] + ReleaseOps(w));
  }

  /**
   The steps are a run; they do this on the drainer and send to these workers,
   leave the request done, and leave every named worker's count as it was.
   */
  ghost predicate Completes(s: State, r: Request, steps: seq<Step>, ops: seq<Op>, sends: set<(Request, Worker)>) {
    && Run(s, steps)
    && OpsOf(s, steps) == ops
    && var n := End(s, steps);
       && n.phases == s.phases[r := Done] && n.draining == s.draining && n.sends == s.sends + sends
       && forall w :: w != "" ==> InFlight(n, w) == InFlight(s, w)
  }

  lemma EarlyCompletes(s: State, r: Request, route: Worker)
    requires r !in s.phases
    ensures Completes(s, r, [Enter(r, route)] + [Abandon(r)], [], {})
  {
    EarlyExit(s, r, route);
    hide Run;
    hide End;
    hide OpsOf;
    assert s.sends + {} == s.sends;
  }

  lemma CheckedCompletes(s: State, r: Request, route: Worker)
    requires r !in s.phases
    ensures Completes(s, r, [Enter(r, route)] + (if route in s.draining then [CheckDrain(r)] else [CheckDrain(r), Abandon(r)]), [], {})
  {
    CheckedExit(s, r, route);
    CheckedCounts(s, r, route);
    hide Run;
    hide End;
    hide OpsOf;
    hide CheckedIn;
    assert s.sends + {} == s.sends;
  }

  lemma ServedCompletes(s: State, r: Request, route: Worker, w: Worker, g: Group, sent: bool)
    requires r !in s.phases && route !in s.draining && (!s.pooled ==> w == route) && g !in s.count && Grouped(s)
    ensures Completes(s, r, [Enter(r, route)] + ([CheckDrain(r)] + ServeSteps(r, w, g, sent)),
                      [Acquired(w)] + ReleaseOps(w), {(r, w)})
  {
    var c := CheckedIn(s, r, route);
    ServedExit(s, r, route, w, g, sent);
    CheckedCounts(s, r, route);
    ServedCounts(c, r, w, g);
    ServedLeaves(c, r, w, g);
    hide Run;
    hide End;
    hide OpsOf;
    hide ServeSteps;
    hide InFlight;
    hide ServedIn;
    hide CheckedIn;
    hide Grouped;
  }
}
