/**
 Draining a worker while requests are in flight, as an interleaving of small
 steps. A request is checked for a draining worker, selects its worker, and
 acquires it in two steps (load the worker's wait group, add one); it releases
 in two steps as well. A drain loads the group and waits for it to reach zero.
 */
module Draining {
  import opened Wrappers

  type Request = nat
  type Worker = string
  type Group = nat
  type Phases = map<Request, Phase>
  type Table = map<Worker, Group>
  type Counters = map<Group, int>

  datatype Phase =
    | Entered(route: Worker)
    | Checked(route: Worker)
    | Selected(worker: Worker)
    | Loaded(worker: Worker, group: Group)
    | Holding(worker: Worker, group: Group)
    | Sent(worker: Worker, group: Group)
    | Finishing(worker: Worker, group: Group)
    | Releasing(worker: Worker, group: Group)
    | Done

  datatype Drain = Waiting(worker: Worker, group: Group, earlier: set<Request>)
                 | Drained(earlier: set<Request>)
                 | TimedOut

  datatype State = State(
    pooled: bool,                       // a pool manager may select another worker than the route's
    phases: Phases,
    inflight: Table,
    count: Counters,
    draining: set<Worker>,
    drains: map<nat, Drain>,
    // history
    drainingWhenChecked: map<Request, set<Worker>>,
    routes: map<Request, Worker>,
    sends: set<(Request, Worker)>)

  datatype Step =
    | Enter(r: Request, route: Worker)
    | Abandon(r: Request)
    | CheckDrain(r: Request)
    | Select(r: Request, worker: Worker)
    | AcquireLoad(r: Request, created: Group)
    | AcquireAdd(r: Request)
    | Send(r: Request, ok: bool)
    | Return(r: Request)
    | ReleaseLoad(r: Request)
    | ReleaseDone(r: Request)
    | MarkDraining(worker: Worker)
    | Cleanup(worker: Worker)
    | DrainLoad(d: nat, worker: Worker)
    | DrainZero(d: nat)
    | DrainTimeout(d: nat)

  predicate Enabled(s: State, a: Step) {
    match a
    case Enter(r, _) => r !in s.phases
    case Abandon(r) => r in s.phases && (s.phases[r].Entered? || s.phases[r].Checked?)
    case CheckDrain(r) => r in s.phases && s.phases[r].Entered?
    case Select(r, w) => r in s.phases && s.phases[r].Checked? && (!s.pooled ==> w == s.phases[r].route)
    case AcquireLoad(r, g) => r in s.phases && s.phases[r].Selected? && (s.phases[r].worker !in s.inflight ==> g !in s.count)
    case AcquireAdd(r) => r in s.phases && s.phases[r].Loaded?
    case Send(r, _) => r in s.phases && s.phases[r].Holding?
    case Return(r) => r in s.phases && s.phases[r].Sent?
    case ReleaseLoad(r) => r in s.phases && s.phases[r].Finishing?
    case ReleaseDone(r) => r in s.phases && s.phases[r].Releasing?
    case MarkDraining(_) => true
    case Cleanup(_) => true
    case DrainLoad(d, _) => d !in s.drains
    case DrainZero(d) => d in s.drains && s.drains[d].Waiting? && GroupCount(s, s.drains[d].group) == 0
    case DrainTimeout(d) => d in s.drains && s.drains[d].Waiting?
  }

  function GroupCount(s: State, g: Group): int {
    if g in s.count then s.count[g] else 0
  }

  /** The request that a step moves. */
  function Mover(a: Step): Option<Request> {
    match a
    case Enter(r, _) => Some(r)
    case Abandon(r) => Some(r)
    case CheckDrain(r) => Some(r)
    case Select(r, _) => Some(r)
    case AcquireLoad(r, _) => Some(r)
    case AcquireAdd(r) => Some(r)
    case Send(r, _) => Some(r)
    case Return(r) => Some(r)
    case ReleaseLoad(r) => Some(r)
    case ReleaseDone(r) => Some(r)
    case _ => None
  }

  /** Where a step leaves the request it moves. */
  function PhaseAfter(s: State, a: Step): Phase
    requires Enabled(s, a) && Mover(a).Some?
  {
    match a
    case Enter(r, route) => Entered(route)
    case Abandon(r) => Done
    case CheckDrain(r) => if s.phases[r].route in s.draining then Done else Checked(s.phases[r].route)
    case Select(r, w) => Selected(w)
    case AcquireLoad(r, created) =>
      var w := s.phases[r].worker;
      Loaded(w, if w in s.inflight then s.inflight[w] else created)
    case AcquireAdd(r) => Holding(s.phases[r].worker, s.phases[r].group)
    case Send(r, ok) =>
      if ok then Sent(s.phases[r].worker, s.phases[r].group) else Finishing(s.phases[r].worker, s.phases[r].group)
    case Return(r) => Finishing(s.phases[r].worker, s.phases[r].group)
    case ReleaseLoad(r) =>
      var w := s.phases[r].worker;
      if w != "" && w in s.inflight then Releasing(w, s.inflight[w]) else Done
    case ReleaseDone(r) => Done
  }

  function PhasesAfter(s: State, a: Step): Phases
    requires Enabled(s, a)
  {
    if Mover(a).Some? then s.phases[Mover(a).value := PhaseAfter(s, a)] else s.phases
  }

  /** LoadOrStore adds a group for a worker that has none; Cleanup forgets the worker. */
  function InflightAfter(s: State, a: Step): Table
    requires Enabled(s, a)
  {
    match a
    case AcquireLoad(r, created) =>
      var w := s.phases[r].worker;
      if w in s.inflight then s.inflight else s.inflight[w := created]
    case Cleanup(w) => s.inflight - {w}
    case _ => s.inflight
  }

  function CountAfter(s: State, a: Step): Counters
    requires Enabled(s, a)
  {
    match a
    case AcquireLoad(r, created) => if s.phases[r].worker in s.inflight then s.count else s.count[created := 0]
    case AcquireAdd(r) => s.count[s.phases[r].group := GroupCount(s, s.phases[r].group) + 1]
    case ReleaseDone(r) => s.count[s.phases[r].group := GroupCount(s, s.phases[r].group) - 1]
    case _ => s.count
  }

  function DrainsAfter(s: State, a: Step): map<nat, Drain>
    requires Enabled(s, a)
  {
    match a
    case DrainLoad(d, w) =>
      var earlier := Holders(s.phases, w);
      s.drains[d := if w in s.inflight then Waiting(w, s.inflight[w], earlier) else Drained(earlier)]
    case DrainZero(d) => s.drains[d := Drained(s.drains[d].earlier)]
    case DrainTimeout(d) => s.drains[d := TimedOut]
    case _ => s.drains
  }

  function SendsAfter(s: State, a: Step): set<(Request, Worker)>
    requires Enabled(s, a)
  {
    s.sends + if a.Send? then {(a.r, s.phases[a.r].worker)} else {}
  }

  function Next(s: State, a: Step): State
    requires Enabled(s, a)
  {
    State(s.pooled, PhasesAfter(s, a), InflightAfter(s, a), CountAfter(s, a),
          (match a case MarkDraining(w) => s.draining + {w} case Cleanup(w) => s.draining - {w} case _ => s.draining),
          DrainsAfter(s, a),
          if a.CheckDrain? then s.drainingWhenChecked[a.r := s.draining] else s.drainingWhenChecked,
          if a.Enter? then s.routes[a.r := a.route] else s.routes,
          SendsAfter(s, a))
  }

  /** Between its acquire and its release: the request counts. */
  predicate Counts(p: Phase) {
    p.Holding? || p.Sent? || p.Finishing? || p.Releasing?
  }

  /** The request has a wait group in hand. */
  predicate HasGroup(p: Phase) {
    p.Loaded? || Counts(p)
  }

  /** The requests between their acquire and their release of a worker. */
  function Holders(phases: Phases, w: Worker): set<Request> {
    set r | r in phases && Counts(phases[r]) && phases[r].worker == w
  }

  predicate Initial(s: State) {
    s == State(s.pooled, map[], map[], map[], {}, map[], map[], map[], {})
  }

  predicate Run(s: State, steps: seq<Step>)
    decreases |steps|
  {
    steps == [] || (Enabled(s, steps[0]) && Run(Next(s, steps[0]), steps[1..]))
  }

  function End(s: State, steps: seq<Step>): State
    requires Run(s, steps)
    decreases |steps|
  {
    if steps == [] then s else End(Next(s, steps[0]), steps[1..])
  }

  // ---- The accounting ----

  /** A request that has a worker's wait group in hand has the one in the table. */
  predicate InTable(p: Phase, inflight: Table) {
    HasGroup(p) ==> p.worker in inflight && inflight[p.worker] == p.group
  }

  ghost predicate Linked(phases: Phases, inflight: Table, count: Counters) {
    && (forall r :: r in phases ==> InTable(phases[r], inflight))
    && (forall w :: w in inflight ==> inflight[w] in count)
    && (forall v, w :: v in inflight && w in inflight && v != w ==> inflight[v] != inflight[w])
  }

  /** The in-flight count of a worker is the number of requests between acquire and release. */
  ghost predicate Counted(phases: Phases, inflight: Table, count: Counters) {
    forall w :: w in inflight ==> inflight[w] in count && count[inflight[w]] == |Holders(phases, w)|
  }

  ghost predicate Accounted(s: State) {
    Linked(s.phases, s.inflight, s.count) && Counted(s.phases, s.inflight, s.count)
  }

  /** What the code leaves to its callers: a worker that someone is acquiring or holds is not cleaned up, and has a name. */
  predicate Careful(s: State, a: Step) {
    match a
    case Cleanup(w) => forall r :: r in s.phases && HasGroup(s.phases[r]) ==> s.phases[r].worker != w
    case ReleaseLoad(r) => r in s.phases && s.phases[r].Finishing? ==> s.phases[r].worker != ""
    case _ => true
  }

  predicate CarefulRun(s: State, steps: seq<Step>)
    requires Run(s, steps)
    decreases |steps|
  {
    steps == [] || (Careful(s, steps[0]) && CarefulRun(Next(s, steps[0]), steps[1..]))
  }

  // What one change of the tables does to the accounting

  lemma HoldersAfter(phases: Phases, r: Request, p: Phase, w: Worker)
    ensures Holders(phases[r := p], w)
         == if Counts(p) && p.worker == w then Holders(phases, w) + {r} else Holders(phases, w) - {r}
  {
  }

  lemma SizeAfter(holders: set<Request>, r: Request)
    ensures r !in holders ==> |holders + {r}| == |holders| + 1 && holders - {r} == holders
    ensures r in holders ==> |holders - {r}| == |holders| - 1 && holders + {r} == holders
  {
  }

  lemma CreateGroup(phases: Phases, inflight: Table, count: Counters, w: Worker, g: Group)
    requires Linked(phases, inflight, count) && Counted(phases, inflight, count)
    requires w !in inflight && g !in count
    ensures Linked(phases, inflight[w := g], count[g := 0]) && Counted(phases, inflight[w := g], count[g := 0])
  {
    assert forall r | r in phases :: InTable(phases[r], inflight);
    assert Holders(phases, w) == {};
    hide Holders;
  }

  lemma MoveLinked(phases: Phases, inflight: Table, count: Counters, r: Request, p: Phase)
    requires Linked(phases, inflight, count) && InTable(p, inflight)
    ensures Linked(phases[r := p], inflight, count)
  {
  }

  /** How much one more or one fewer a request counts for worker w in phase p. */
  function Weight(phases: Phases, r: Request, w: Worker): int {
    if r in phases && Counts(phases[r]) && phases[r].worker == w then 1 else 0
  }

  lemma HoldersSize(phases: Phases, r: Request, p: Phase, w: Worker)
    ensures |Holders(phases[r := p], w)|
         == |Holders(phases, w)| - Weight(phases, r, w) + Weight(phases[r := p], r, w)
  {
    HoldersAfter(phases, r, p, w);
    SizeAfter(Holders(phases, w), r);
  }

  /** Moving one request keeps the accounting exactly when its group is corrected by the change of its weight. */
  lemma MoveCounted(phases: Phases, inflight: Table, count: Counters, r: Request, p: Phase, w: Worker, change: int)
    requires Linked(phases, inflight, count) && Counted(phases, inflight, count)
    requires w in inflight
    requires forall v :: v != w ==> Weight(phases, r, v) == Weight(phases[r := p], r, v)
    ensures Counted(phases[r := p], inflight, count[inflight[w] := count[inflight[w]] + change])
       <==> change == Weight(phases[r := p], r, w) - Weight(phases, r, w)
  {
    hide Holders;
    hide Weight;
    forall v | v in inflight
      ensures |Holders(phases[r := p], v)|
           == |Holders(phases, v)| - Weight(phases, r, v) + Weight(phases[r := p], r, v)
    {
      HoldersSize(phases, r, p, v);
    }
  }

  /** A move that changes nobody's weight. */
  lemma MoveAside(phases: Phases, inflight: Table, count: Counters, r: Request, p: Phase)
    requires Linked(phases, inflight, count) && Counted(phases, inflight, count) && InTable(p, inflight)
    requires forall v :: Weight(phases, r, v) == Weight(phases[r := p], r, v)
    ensures Linked(phases[r := p], inflight, count) && Counted(phases[r := p], inflight, count)
  {
    MoveLinked(phases, inflight, count, r, p);
    hide Holders;
    hide Weight;
    forall v | v in inflight
      ensures |Holders(phases[r := p], v)| == |Holders(phases, v)|
    {
      HoldersSize(phases, r, p, v);
    }
  }

  lemma AcquireLoadKeepsAccounts(s: State, r: Request, created: Group)
    requires Enabled(s, AcquireLoad(r, created)) && Accounted(s)
    ensures Accounted(Next(s, AcquireLoad(r, created)))
  {
    hide Holders;
    hide DrainsAfter;
    hide SendsAfter;
    var n := Next(s, AcquireLoad(r, created));
    var w := s.phases[r].worker;
    if w !in s.inflight {
      CreateGroup(s.phases, s.inflight, s.count, w, created);
    }
    MoveAside(s.phases, n.inflight, n.count, r, PhaseAfter(s, AcquireLoad(r, created)));
    hide Linked;
    hide Counted;
  }

  lemma AcquireAddKeepsAccounts(s: State, r: Request)
    requires Enabled(s, AcquireAdd(r)) && Accounted(s)
    ensures Accounted(Next(s, AcquireAdd(r)))
  {
    hide Holders;
    hide DrainsAfter;
    hide SendsAfter;
    var p := s.phases[r];
    assert InTable(p, s.inflight);
    var q := Holding(p.worker, p.group);
    MoveLinked(s.phases, s.inflight, s.count, r, q);
    MoveCounted(s.phases, s.inflight, s.count, r, q, p.worker, 1);
  }

  lemma ReleaseKeepsAccounts(s: State, a: Step)
    requires (a.ReleaseLoad? || a.ReleaseDone?) && Enabled(s, a) && Accounted(s)
    ensures Accounted(Next(s, a)) <==> Careful(s, a)
  {
    var r := a.r;
    var p := s.phases[r];
    hide Holders;
    assert InTable(p, s.inflight);
    var q := Next(s, a).phases[r];
    MoveLinked(s.phases, s.inflight, s.count, r, q);
    if a.ReleaseDone? {
      MoveCounted(s.phases, s.inflight, s.count, r, q, p.worker, -1);
    } else {
      MoveCounted(s.phases, s.inflight, s.count, r, q, p.worker, 0);
      assert s.count[s.inflight[p.worker] := s.count[s.inflight[p.worker]] + 0] == s.count;
    }
  }

  lemma CleanupKeepsAccounts(s: State, w: Worker)
    requires Accounted(s)
    ensures Accounted(Next(s, Cleanup(w))) <==> Careful(s, Cleanup(w))
  {
    hide Holders;
    var after := s.inflight - {w};
    if Careful(s, Cleanup(w)) {
      forall r | r in s.phases
        ensures InTable(s.phases[r], after)
      {
        assert InTable(s.phases[r], s.inflight);
      }
    } else {
      var r :| r in s.phases && !(HasGroup(s.phases[r]) ==> s.phases[r].worker != w);
      assert !InTable(s.phases[r], after);
    }
  }

  lemma OtherStepsKeepAccounts(s: State, a: Step)
    requires Enabled(s, a) && Accounted(s)
    requires !(a.AcquireLoad? || a.AcquireAdd? || a.ReleaseLoad? || a.ReleaseDone? || a.Cleanup?)
    ensures Accounted(Next(s, a))
  {
    hide Holders;
    var n := Next(s, a);
    if a.Enter? || a.Abandon? || a.CheckDrain? || a.Select? || a.Send? || a.Return? {
      var q := n.phases[a.r];
      assert a.r in s.phases ==> InTable(s.phases[a.r], s.inflight);
      MoveAside(s.phases, s.inflight, s.count, a.r, q);
      assert n.phases == s.phases[a.r := q];
    } else {
      assert n.phases == s.phases && n.inflight == s.inflight && n.count == s.count;
    }
  }

  /** A step keeps the accounting exactly when it is a careful one. */
  lemma StepKeepsAccounts(s: State, a: Step)
    requires Enabled(s, a) && Accounted(s)
    ensures Accounted(Next(s, a)) <==> Careful(s, a)
  {
    if a.AcquireLoad? {
      AcquireLoadKeepsAccounts(s, a.r, a.created);
    } else if a.AcquireAdd? {
      AcquireAddKeepsAccounts(s, a.r);
    } else if a.ReleaseLoad? || a.ReleaseDone? {
      ReleaseKeepsAccounts(s, a);
    } else if a.Cleanup? {
      CleanupKeepsAccounts(s, a.worker);
    } else {
      OtherStepsKeepAccounts(s, a);
    }
  }

  /** In every reachable state of a careful run each worker's count is the number of requests between acquire and release. */
  lemma {:induction false} CarefulRunKeepsAccounts(s: State, steps: seq<Step>)
    requires Run(s, steps) && Accounted(s) && CarefulRun(s, steps)
    ensures Accounted(End(s, steps))
    decreases |steps|
  {
    if steps != [] {
      StepKeepsAccounts(s, steps[0]);
      CarefulRunKeepsAccounts(Next(s, steps[0]), steps[1..]);
    }
  }

  // ---- A drain that succeeds ----

  /** A request that a drain waits for is done, or still holds the group the drain waits on. */
  predicate WaitedFor(phases: Phases, r: Request, w: Worker, g: Group) {
    r in phases && (phases[r] == Done || (Counts(phases[r]) && phases[r].worker == w && phases[r].group == g))
  }

  predicate Honest(phases: Phases, d: Drain) {
    match d
    case Waiting(w, g, earlier) => forall r :: r in earlier ==> WaitedFor(phases, r, w, g)
    case Drained(earlier) => forall r :: r in earlier ==> r in phases && phases[r] == Done
    case TimedOut => true
  }

  ghost predicate DrainsHonest(s: State) {
    forall d :: d in s.drains ==> Honest(s.phases, s.drains[d])
  }

  /** No step takes a request away from a drain that waits for it, except by its release. */
  lemma StepKeepsWaitedFor(s: State, a: Step, r: Request, w: Worker, g: Group)
    requires Enabled(s, a) && Accounted(s) && WaitedFor(s.phases, r, w, g)
    ensures WaitedFor(Next(s, a).phases, r, w, g)
    ensures s.phases[r] == Done ==> Next(s, a).phases[r] == Done
  {
    hide InflightAfter;
    hide CountAfter;
    hide DrainsAfter;
    hide SendsAfter;
    hide Holders;
    hide Counted;
    assert InTable(s.phases[r], s.inflight);
    hide Linked;
  }

  lemma DrainLoadIsHonest(s: State, d: nat, w: Worker)
    requires Enabled(s, DrainLoad(d, w)) && Accounted(s)
    ensures Honest(s.phases, Next(s, DrainLoad(d, w)).drains[d])
  {
    assert forall r | r in s.phases :: InTable(s.phases[r], s.inflight);
  }

  lemma DrainZeroIsHonest(s: State, d: nat)
    requires Enabled(s, DrainZero(d)) && Accounted(s) && Honest(s.phases, s.drains[d])
    ensures Honest(s.phases, Next(s, DrainZero(d)).drains[d])
  {
    hide Accounted;
    var w, g := s.drains[d].worker, s.drains[d].group;
    forall r | r in s.drains[d].earlier
      ensures s.phases[r] == Done
    {
      assert WaitedFor(s.phases, r, w, g);
      if s.phases[r] != Done {
        HolderKeepsCountPositive(s, r);
      }
    }
  }

  /** The count of a worker that a request holds is positive. */
  lemma HolderKeepsCountPositive(s: State, r: Request)
    requires Accounted(s) && r in s.phases && Counts(s.phases[r])
    ensures GroupCount(s, s.phases[r].group) > 0
  {
    assert InTable(s.phases[r], s.inflight);
    assert r in Holders(s.phases, s.phases[r].worker);
  }

  lemma StepKeepsDrainsHonest(s: State, a: Step)
    requires Enabled(s, a) && Accounted(s) && DrainsHonest(s)
    ensures DrainsHonest(Next(s, a))
  {
    var n := Next(s, a);
    forall d | d in n.drains
      ensures Honest(n.phases, n.drains[d])
    {
      if a.DrainLoad? && a.d == d {
        DrainLoadIsHonest(s, d, a.worker);
      } else if a.DrainZero? && a.d == d {
        DrainZeroIsHonest(s, d);
      } else if !(a.DrainTimeout? && a.d == d) {
        OtherDrainStaysHonest(s, a, d);
      }
    }
  }

  lemma OtherDrainStaysHonest(s: State, a: Step, d: nat)
    requires Enabled(s, a) && Accounted(s) && d in s.drains && Honest(s.phases, s.drains[d])
    ensures Honest(Next(s, a).phases, s.drains[d])
  {
    hide Next;
    hide Enabled;
    hide Accounted;
    var drain := s.drains[d];
    if !drain.TimedOut? {
      forall r | r in drain.earlier
        ensures r in Next(s, a).phases
        ensures drain.Waiting? ==> WaitedFor(Next(s, a).phases, r, drain.worker, drain.group)
        ensures drain.Drained? ==> Next(s, a).phases[r] == Done
      {
        if drain.Waiting? {
          StepKeepsWaitedFor(s, a, r, drain.worker, drain.group);
        } else {
          StepKeepsWaitedFor(s, a, r, "", 0);
        }
      }
    }
  }

  /** In a careful run, a drain that returned nil has outlasted every request that had acquired the worker before it. */
  lemma {:induction false} DrainedMeansReleased(s: State, steps: seq<Step>)
    requires Run(s, steps) && Accounted(s) && DrainsHonest(s) && CarefulRun(s, steps)
    ensures DrainsHonest(End(s, steps))
    decreases |steps|
  {
    if steps != [] {
      StepKeepsAccounts(s, steps[0]);
      StepKeepsDrainsHonest(s, steps[0]);
      DrainedMeansReleased(Next(s, steps[0]), steps[1..]);
    }
  }

  /** The requests that the drainer counts for a worker. */
  function InFlight(s: State, w: Worker): int {
    if w in s.inflight then GroupCount(s, s.inflight[w]) else 0
  }

  /**
   From the start, while callers are careful: every worker's count is exactly
   the requests between their acquire and their release, and every drain that
   returned nil has outlasted the requests that had acquired before it.
   */
  lemma CarefulCallersAreCountedAndDrained(s: State, steps: seq<Step>)
    requires Initial(s) && Run(s, steps) && CarefulRun(s, steps)
    ensures var e := End(s, steps);
            && (forall w :: InFlight(e, w) == |Holders(e.phases, w)|)
            && (forall d, r :: d in e.drains && e.drains[d].Drained? && r in e.drains[d].earlier ==>
                  r in e.phases && e.phases[r] == Done)
  {
    CarefulRunKeepsAccounts(s, steps);
    DrainedMeansReleased(s, steps);
    var e := End(s, steps);
    forall w | w !in e.inflight
      ensures Holders(e.phases, w) == {}
    {
      assert forall r | r in e.phases :: InTable(e.phases[r], e.inflight);
    }
    assert forall d | d in e.drains :: Honest(e.phases, e.drains[d]);
  }

  // ---- Counts below zero ----

  /** No wait group is below zero, where Go's would panic. */
  predicate NonNegative(count: Counters) {
    forall g :: g in count ==> count[g] >= 0
  }

  lemma StepKeepsNonNegative(s: State, a: Step)
    requires Enabled(s, a) && Accounted(s) && NonNegative(s.count)
    ensures NonNegative(Next(s, a).count)
  {
    if a.ReleaseDone? {
      HolderKeepsCountPositive(s, a.r);
    }
    hide Holders;
    hide Accounted;
    hide PhasesAfter;
    hide DrainsAfter;
    hide SendsAfter;
  }

  /** While callers are careful, no release ever finds its wait group at zero. */
  lemma {:induction false} CarefulRunNeverPanics(s: State, steps: seq<Step>)
    requires Run(s, steps) && Accounted(s) && NonNegative(s.count) && CarefulRun(s, steps)
    ensures NonNegative(End(s, steps).count)
    decreases |steps|
  {
    if steps != [] {
      StepKeepsAccounts(s, steps[0]);
      StepKeepsNonNegative(s, steps[0]);
      hide Accounted;
      hide NonNegative;
      CarefulRunNeverPanics(Next(s, steps[0]), steps[1..]);
    }
  }

  // ---- Who sends to a draining worker ----

  /** The request passed its drain check, and without a pool its worker is the route's. */
  predicate Passed(s: State, r: Request) {
    r in s.drainingWhenChecked && r in s.routes && s.routes[r] !in s.drainingWhenChecked[r]
  }

  predicate OnTrack(s: State, r: Request)
    requires r in s.phases
  {
    match s.phases[r]
    case Entered(route) => r in s.routes && s.routes[r] == route
    case Checked(route) => Passed(s, r) && s.routes[r] == route
    case Done => true
    case p => Passed(s, r) && (!s.pooled ==> p.worker == s.routes[r])
  }

  ghost predicate Vetted(s: State) {
    && (forall r :: r in s.phases ==> OnTrack(s, r))
    && (forall r, w :: (r, w) in s.sends ==> r in s.phases && Passed(s, r) && (!s.pooled ==> w == s.routes[r]))
    && (forall r, w :: (r, w) in s.sends ==> !s.phases[r].Entered? && !s.phases[r].Checked?)
  }

  lemma StepKeepsOnTrack(s: State, a: Step, r: Request)
    requires Enabled(s, a) && r in Next(s, a).phases && (r in s.phases ==> OnTrack(s, r))
    ensures OnTrack(Next(s, a), r)
  {
    hide InflightAfter;
    hide CountAfter;
    hide DrainsAfter;
    hide SendsAfter;
  }

  lemma StepKeepsPassed(s: State, a: Step, r: Request)
    requires Enabled(s, a) && r in s.phases && Passed(s, r) && !s.phases[r].Entered? && !s.phases[r].Checked?
    ensures var n := Next(s, a);
            r in n.phases && Passed(n, r) && !n.phases[r].Entered? && !n.phases[r].Checked?
    ensures Next(s, a).routes[r] == s.routes[r]
  {
    hide InflightAfter;
    hide CountAfter;
    hide DrainsAfter;
    hide SendsAfter;
  }

  lemma StepKeepsVetted(s: State, a: Step)
    requires Enabled(s, a) && Vetted(s)
    ensures Vetted(Next(s, a))
  {
    var n := Next(s, a);
    assert n.sends == SendsAfter(s, a);
    forall r | r in n.phases
      ensures OnTrack(n, r)
    {
      StepKeepsOnTrack(s, a, r);
    }
    assert a.Send? ==> OnTrack(s, a.r);
    hide Next;
    forall r, w | (r, w) in n.sends
      ensures r in n.phases && Passed(n, r) && (!n.pooled ==> w == n.routes[r])
      ensures !n.phases[r].Entered? && !n.phases[r].Checked?
    {
      StepKeepsPassed(s, a, r);
    }
  }

  lemma {:induction false} RunKeepsVetted(s: State, steps: seq<Step>)
    requires Run(s, steps) && Vetted(s)
    ensures Vetted(End(s, steps)) && End(s, steps).pooled == s.pooled
    decreases |steps|
  {
    if steps != [] {
      StepKeepsVetted(s, steps[0]);
      RunKeepsVetted(Next(s, steps[0]), steps[1..]);
    }
  }

  /**
   Without a pool manager no request is sent to a worker that was draining when
   the request was checked; with one, it can only be a worker other than its
   route's.
   */
  lemma CheckedWhileDrainingNeverSends(s: State, steps: seq<Step>, r: Request, w: Worker)
    requires Initial(s) && Run(s, steps) && (r, w) in End(s, steps).sends
    ensures var e := End(s, steps);
            && r in e.drainingWhenChecked && r in e.routes
            && (!s.pooled || w == e.routes[r] ==> w !in e.drainingWhenChecked[r])
  {
    RunKeepsVetted(s, steps);
  }
}
