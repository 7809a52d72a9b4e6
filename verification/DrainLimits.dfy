/**
 What draining a worker does not promise: who can still be sent to it, and which
 cleanups let a drain return too early or a release panic.
 */
module DrainLimits {
  import opened Draining

  // ---- What the check does not promise ----

  ghost predicate Reaches(s: State, t: State) {
    exists steps :: Run(s, steps) && End(s, steps) == t
  }

  lemma {:induction false} RunSnoc(s: State, steps: seq<Step>, a: Step)
    requires Run(s, steps) && Enabled(End(s, steps), a)
    ensures Run(s, steps + [a]) && End(s, steps + [a]) == Next(End(s, steps), a)
    decreases |steps|
  {
    if steps != [] {
      assert (steps + [a])[1..] == steps[1..] + [a];
      RunSnoc(Next(s, steps[0]), steps[1..], a);
    }
  }

  lemma ReachesSelf(s: State)
    ensures Reaches(s, s)
  {
    assert Run(s, []) && End(s, []) == s;
  }

  lemma ReachesNext(s: State, t: State, a: Step)
    requires Reaches(s, t) && Enabled(t, a)
    ensures Reaches(s, Next(t, a))
  {
    var steps :| Run(s, steps) && End(s, steps) == t;
    RunSnoc(s, steps, a);
  }

  function Empty(pooled: bool): State {
    State(pooled, map[], map[], map[], {}, map[], map[], map[], {})
  }

  /** A checked request selects worker w and loads a new group, when nobody has acquired w yet. */
  lemma CheckedRequestLoads(s: State, r: Request, w: Worker, g: Group) returns (e: State)
    requires r in s.phases && s.phases[r].Checked? && (!s.pooled ==> w == s.phases[r].route)
    requires w !in s.inflight && g !in s.count
    ensures Reaches(s, e)
    ensures e == s.(phases := s.phases[r := Loaded(w, g)], inflight := s.inflight[w := g], count := s.count[g := 0])
  {
    hide Run;
    hide End;
    hide Holders;
    hide Reaches;
    ReachesSelf(s);
    var s1 := Next(s, Select(r, w));
    ReachesNext(s, s, Select(r, w));
    e := Next(s1, AcquireLoad(r, g));
    ReachesNext(s, s1, AcquireLoad(r, g));
    assert e.phases == s.phases[r := Loaded(w, g)];
  }

  /** A checked request goes on to send to worker w, when nobody has acquired w yet. */
  lemma CheckedRequestSends(s: State, r: Request, w: Worker, g: Group) returns (e: State)
    requires r in s.phases && s.phases[r].Checked? && (!s.pooled ==> w == s.phases[r].route)
    requires w !in s.inflight && g !in s.count
    ensures Reaches(s, e)
    ensures e == s.(phases := s.phases[r := Sent(w, g)], inflight := s.inflight[w := g], count := s.count[g := 1],
                    sends := s.sends + {(r, w)})
  {
    hide Run;
    hide End;
    hide Holders;
    hide Reaches;
    var loaded := CheckedRequestLoads(s, r, w, g);
    var held := Next(loaded, AcquireAdd(r));
    ReachesNext(s, loaded, AcquireAdd(r));
    e := Next(held, Send(r, true));
    ReachesNext(s, held, Send(r, true));
    assert e.phases == s.phases[r := Sent(w, g)] && e.count == s.count[g := 1];
  }

  lemma {:induction false} ReachesOnward(s: State, t: State, u: State)
    requires Reaches(s, t) && Reaches(t, u)
    ensures Reaches(s, u)
  {
    var first :| Run(s, first) && End(s, first) == t;
    var second :| Run(t, second) && End(t, second) == u;
    RunAppend(s, first, second);
  }

  lemma {:induction false} RunAppend(s: State, first: seq<Step>, second: seq<Step>)
    requires Run(s, first) && Run(End(s, first), second)
    ensures Run(s, first + second) && End(s, first + second) == End(End(s, first), second)
    decreases |first|
  {
    if first == [] {
      assert first + second == second;
    } else {
      assert (first + second)[1..] == first[1..] + second;
      RunAppend(Next(s, first[0]), first[1..], second);
    }
  }

  /** A request enters and is checked. */
  lemma EntersChecked(s: State, r: Request, route: Worker) returns (e: State)
    requires r !in s.phases && route !in s.draining
    ensures Reaches(s, e)
    ensures e == s.(phases := s.phases[r := Checked(route)], routes := s.routes[r := route],
                    drainingWhenChecked := s.drainingWhenChecked[r := s.draining])
  {
    hide Run;
    hide End;
    hide Holders;
    hide Reaches;
    ReachesSelf(s);
    var s1 := Next(s, Enter(r, route));
    ReachesNext(s, s, Enter(r, route));
    e := Next(s1, CheckDrain(r));
    ReachesNext(s, s1, CheckDrain(r));
  }

  lemma Marks(s: State, w: Worker) returns (e: State)
    ensures Reaches(s, e) && e == s.(draining := s.draining + {w})
  {
    ReachesSelf(s);
    e := Next(s, MarkDraining(w));
    ReachesNext(s, s, MarkDraining(w));
  }

  lemma CleansUp(s: State, w: Worker) returns (e: State)
    ensures Reaches(s, e) && e == s.(inflight := s.inflight - {w}, draining := s.draining - {w})
  {
    ReachesSelf(s);
    e := Next(s, Cleanup(w));
    ReachesNext(s, s, Cleanup(w));
  }

  /** A drain of a worker whose count is zero, or that nobody ever acquired, returns nil. */
  lemma Drains(s: State, d: nat, w: Worker) returns (e: State)
    requires d !in s.drains && (w in s.inflight ==> GroupCount(s, s.inflight[w]) == 0)
    ensures Reaches(s, e) && e == s.(drains := s.drains[d := Drained(Holders(s.phases, w))])
  {
    hide Run;
    hide End;
    hide Holders;
    hide Reaches;
    ReachesSelf(s);
    e := Next(s, DrainLoad(d, w));
    ReachesNext(s, s, DrainLoad(d, w));
    if w in s.inflight {
      var loaded := e;
      e := Next(loaded, DrainZero(d));
      ReachesNext(s, loaded, DrainZero(d));
    }
  }

  /** With a pool, a request checked for its route's worker can be sent to one that was already draining. */
  lemma PooledRequestReachesDrainingWorker(route: Worker, w: Worker)
    requires route != w
    ensures exists e :: Reaches(Empty(true), e) && (0, w) in e.sends
                        && 0 in e.drainingWhenChecked && w in e.drainingWhenChecked[0]
  {
    hide Reaches;
    hide Holders;
    var s := Empty(true);
    var s1 := Marks(s, w);
    var s2 := EntersChecked(s1, 0, route);
    ReachesOnward(s, s1, s2);
    var e := CheckedRequestSends(s2, 0, w, 0);
    ReachesOnward(s, s2, e);
  }

  /** Even without a pool, a request checked before the worker was marked can be sent after its drain returned nil. */
  lemma RequestCheckedEarlierOutrunsDrain(w: Worker)
    ensures exists before, after ::
              && Reaches(Empty(false), before) && Reaches(before, after)
              && before.drains == map[0 := Drained({})] && w in before.draining && before.sends == {}
              && (0, w) in after.sends
  {
    hide Reaches;
    var s := Empty(false);
    var s1 := EntersChecked(s, 0, w);
    var s2 := Marks(s1, w);
    ReachesOnward(s, s1, s2);
    var before := Drains(s2, 0, w);
    ReachesOnward(s, s2, before);
    assert Holders(s2.phases, w) == {};
    hide Holders;
    var after := CheckedRequestSends(before, 0, w, 0);
  }

  /**
   Cleaning up a worker that a request still holds, as a stop does after its
   drain timed out: the request then releases the next holder's group, and a
   drain returns nil while that holder is still being served.
   */
  lemma CleanupWhileHeldFoolsDrain(w: Worker)
    requires w != ""
    ensures exists e :: Reaches(Empty(false), e)
                        && Holders(e.phases, w) == {1} && e.drains == map[0 := Drained({1})]
  {
    hide Reaches;
    var s := Empty(false);
    var s1 := EntersChecked(s, 0, w);
    var s2 := CheckedRequestSends(s1, 0, w, 0);
    ReachesOnward(s, s1, s2);
    var s3 := CleansUp(s2, w);
    ReachesOnward(s, s2, s3);
    var s4 := SecondHolder(s3, w);
    ReachesOnward(s, s3, s4);
    assert Holders(s4.phases, w) == {1};
    var e := Drains(s4, 0, w);
    ReachesOnward(s, s4, e);
  }

  /** When the fooled drain's holder then releases, its wait group goes below zero: the release panics. */
  lemma CleanupWhileHeldPanics(w: Worker)
    requires w != ""
    ensures exists e :: Reaches(Empty(false), e) && !NonNegative(e.count)
  {
    hide Reaches;
    hide Holders;
    var s := Empty(false);
    var s1 := EntersChecked(s, 0, w);
    var s2 := CheckedRequestSends(s1, 0, w, 0);
    ReachesOnward(s, s1, s2);
    var s3 := CleansUp(s2, w);
    ReachesOnward(s, s2, s3);
    var s4 := SecondHolder(s3, w);
    ReachesOnward(s, s3, s4);
    var e := ReleasesOtherGroup(s4, 1, w, 1);
    ReachesOnward(s, s4, e);
    assert e.count[1] == -1;
  }

  /** Request 1 acquires the worker anew, and request 0, which held it before, releases. */
  lemma SecondHolder(s: State, w: Worker) returns (e: State)
    requires w != "" && s.inflight == map[] && s.count == map[0 := 1] && s.draining == {} && !s.pooled
    requires s.phases == map[0 := Sent(w, 0)]
    ensures Reaches(s, e)
    ensures e.phases == map[0 := Done, 1 := Sent(w, 1)] && e.inflight == map[w := 1] && GroupCount(e, 1) == 0
    ensures e.drains == s.drains
  {
    hide Reaches;
    hide Holders;
    var s4 := EntersChecked(s, 1, w);
    var s5 := CheckedRequestSends(s4, 1, w, 1);
    ReachesOnward(s, s4, s5);
    e := ReleasesOtherGroup(s5, 0, w, 1);
    ReachesOnward(s, s5, e);
  }

  lemma ReleasesOtherGroup(s: State, r: Request, w: Worker, g: Group) returns (e: State)
    requires r in s.phases && s.phases[r].Sent? && s.phases[r].worker == w != ""
    requires w in s.inflight && s.inflight[w] == g
    ensures Reaches(s, e)
    ensures e == s.(phases := s.phases[r := Done], count := s.count[g := GroupCount(s, g) - 1])
  {
    hide Run;
    hide End;
    hide Holders;
    hide Reaches;
    ReachesSelf(s);
    var s1 := Next(s, Return(r));
    ReachesNext(s, s, Return(r));
    var s2 := Next(s1, ReleaseLoad(r));
    ReachesNext(s, s1, ReleaseLoad(r));
    e := Next(s2, ReleaseDone(r));
    ReachesNext(s, s2, ReleaseDone(r));
  }

  // ---- Which cleanups break the promises ----

  /** A careful run leads from s to t. */
  ghost predicate CarefullyReaches(s: State, t: State) {
    exists steps :: Run(s, steps) && CarefulRun(s, steps) && End(s, steps) == t
  }

  lemma StaysCareful(s: State)
    ensures CarefullyReaches(s, s)
  {
    assert Run(s, []) && CarefulRun(s, []) && End(s, []) == s;
  }

  lemma CarefullyFirst(s: State, a: Step, t: State)
    requires Enabled(s, a) && Careful(s, a) && CarefullyReaches(Next(s, a), t)
    ensures CarefullyReaches(s, t)
  {
    var rest :| Run(Next(s, a), rest) && CarefulRun(Next(s, a), rest) && End(Next(s, a), rest) == t;
    var steps := [a] + rest;
    assert steps[1..] == rest;
    assert Run(s, steps) && CarefulRun(s, steps) && End(s, steps) == t;
  }

  /** A number that is no drain's. */
  lemma {:induction false} UnusedNumber(used: set<nat>) returns (n: nat)
    ensures n !in used && forall m :: m in used ==> m < n
  {
    if used == {} {
      n := 0;
    } else {
      var m :| m in used;
      var rest := UnusedNumber(used - {m});
      n := if m < rest then rest else m + 1;
      forall k | k in used
        ensures k < n
      {
        assert k == m || k in used - {m};
      }
    }
  }

  /** A request that has the worker in hand acquires it, if it has not yet. */
  lemma HoldsAfterAll(s: State, r: Request, w: Worker) returns (t: State)
    requires r in s.phases && HasGroup(s.phases[r]) && s.phases[r].worker == w && w !in s.inflight
    ensures r in t.phases && Counts(t.phases[r]) && t.phases[r].worker == w
    ensures w !in t.inflight && t.drains == s.drains
    ensures forall u :: CarefullyReaches(t, u) ==> CarefullyReaches(s, u)
  {
    t := s;
    if s.phases[r].Loaded? {
      hide Holders;
      t := Next(s, AcquireAdd(r));
      forall u | CarefullyReaches(t, u)
        ensures CarefullyReaches(s, u)
      {
        CarefullyFirst(s, AcquireAdd(r), u);
      }
    }
  }

  /** A drain of a worker that the table has lost returns at once, and forgets who holds it. */
  lemma LostWorkerFoolsDrain(s: State, r: Request, w: Worker)
    requires r in s.phases && Counts(s.phases[r]) && s.phases[r].worker == w && w !in s.inflight
    ensures exists t :: CarefullyReaches(s, t) && !DrainsHonest(t)
  {
    var d := UnusedNumber(s.drains.Keys);
    var t := Next(s, DrainLoad(d, w));
    assert r in Holders(s.phases, w);
    assert t.drains[d] == Drained(Holders(s.phases, w));
    assert t.phases == s.phases && !Honest(t.phases, t.drains[d]);
    StaysCareful(t);
    CarefullyFirst(s, DrainLoad(d, w), t);
  }

  lemma CleanedUp(s: State, w: Worker)
    ensures var n := Next(s, Cleanup(w));
            n == s.(inflight := s.inflight - {w}, draining := s.draining - {w})
  {
    hide Holders;
  }

  /**
   After a cleanup every careful continuation keeps the promise of drains - one
   that returned nil has outlasted every request that had acquired before it -
   if and only if nobody had the worker in hand.
   */
  lemma CleanupKeepsDrainsHonestExactlyWhenCareful(s: State, w: Worker)
    requires Accounted(s) && DrainsHonest(s)
    ensures (forall t :: CarefullyReaches(Next(s, Cleanup(w)), t) ==> DrainsHonest(t)) <==> Careful(s, Cleanup(w))
  {
    var n := Next(s, Cleanup(w));
    CleanedUp(s, w);
    if Careful(s, Cleanup(w)) {
      CleanupKeepsAccounts(s, w);
      StepKeepsDrainsHonest(s, Cleanup(w));
      forall t | CarefullyReaches(n, t)
        ensures DrainsHonest(t)
      {
        var steps :| Run(n, steps) && CarefulRun(n, steps) && End(n, steps) == t;
        DrainedMeansReleased(n, steps);
      }
    } else {
      var r :| r in s.phases && HasGroup(s.phases[r]) && s.phases[r].worker == w;
      hide Next;
      var held := HoldsAfterAll(n, r, w);
      LostWorkerFoolsDrain(held, r, w);
    }
  }

  // ---- Which cleanups lead to a panic ----

  /** The requests that count in a wait group, whatever the table says. */
  function HoldersOf(phases: Phases, g: Group): set<Request> {
    set r | r in phases && Counts(phases[r]) && phases[r].group == g
  }

  /** The request will look its worker's wait group up again when it releases. */
  predicate WillLookUp(p: Phase) {
    p.Loaded? || p.Holding? || p.Sent? || p.Finishing?
  }

  /** A request of a named worker that will look its group up finds the one it has counted in. */
  predicate FindsOwn(p: Phase, inflight: Table) {
    WillLookUp(p) && p.worker != "" ==> p.worker in inflight && inflight[p.worker] == p.group
  }

  /** No wait group is counted down further than it was counted up. */
  ghost predicate Covered(phases: Phases, inflight: Table, count: Counters) {
    && (forall r :: r in phases ==> FindsOwn(phases[r], inflight))
    && (forall r :: r in phases && HasGroup(phases[r]) ==> phases[r].group in count)
    && (forall w :: w in inflight ==> inflight[w] in count)
    && (forall g :: g in count ==> count[g] >= |HoldersOf(phases, g)|)
  }

  ghost predicate Safe(s: State) {
    Covered(s.phases, s.inflight, s.count)
  }

  lemma HoldersOfAfter(phases: Phases, r: Request, p: Phase, g: Group)
    ensures HoldersOf(phases[r := p], g)
         == if Counts(p) && p.group == g then HoldersOf(phases, g) + {r} else HoldersOf(phases, g) - {r}
  {
  }

  /** How much a request counts in a wait group. */
  function Share(phases: Phases, r: Request, g: Group): int {
    if r in phases && Counts(phases[r]) && phases[r].group == g then 1 else 0
  }

  lemma HoldersOfSize(phases: Phases, r: Request, p: Phase, g: Group)
    ensures |HoldersOf(phases[r := p], g)| == |HoldersOf(phases, g)| - Share(phases, r, g) + Share(phases[r := p], r, g)
  {
    HoldersOfAfter(phases, r, p, g);
    SizeAfter(HoldersOf(phases, g), r);
  }

  /** Moving one request keeps the wait groups covered when its group is corrected by the change of its share. */
  lemma MoveCovered(phases: Phases, inflight: Table, count: Counters, r: Request, p: Phase, after: Counters)
    requires Covered(phases, inflight, count)
    requires FindsOwn(p, inflight) && (HasGroup(p) ==> p.group in count)
    requires after.Keys == count.Keys
    requires forall g :: g in count ==> after[g] - count[g] == Share(phases[r := p], r, g) - Share(phases, r, g)
    ensures Covered(phases[r := p], inflight, after)
  {
    hide HoldersOf;
    hide Share;
    forall g | g in after
      ensures after[g] >= |HoldersOf(phases[r := p], g)|
    {
      HoldersOfSize(phases, r, p, g);
    }
  }

  lemma LoadKeepsSafe(s: State, r: Request, created: Group)
    requires Enabled(s, AcquireLoad(r, created)) && Safe(s)
    ensures Safe(Next(s, AcquireLoad(r, created)))
  {
    hide DrainsAfter;
    hide SendsAfter;
    hide HoldersOf;
    var n := Next(s, AcquireLoad(r, created));
    var w := s.phases[r].worker;
    if w !in s.inflight {
      assert HoldersOf(s.phases, created) == {} by { NobodyIn(s.phases, s.count, created); }
      NewGroupCovered(s.phases, s.inflight, s.count, w, created);
    }
    assert s.count.Keys <= n.count.Keys;
    var p := PhaseAfter(s, AcquireLoad(r, created));
    assert p == Loaded(w, n.inflight[w]);
    hide Covered;
    MoveCoveredAside(s.phases, n.inflight, n.count, r, p);
  }

  lemma NobodyIn(phases: Phases, count: Counters, g: Group)
    requires g !in count && forall r :: r in phases && HasGroup(phases[r]) ==> phases[r].group in count
    ensures HoldersOf(phases, g) == {}
  {
  }

  lemma NewGroupCovered(phases: Phases, inflight: Table, count: Counters, w: Worker, g: Group)
    requires Covered(phases, inflight, count) && w !in inflight && g !in count && HoldersOf(phases, g) == {}
    ensures Covered(phases, inflight[w := g], count[g := 0])
  {
    hide HoldersOf;
  }

  /** A move that changes nobody's share. */
  lemma MoveCoveredAside(phases: Phases, inflight: Table, count: Counters, r: Request, p: Phase)
    requires Covered(phases, inflight, count)
    requires FindsOwn(p, inflight) && (HasGroup(p) ==> p.group in count)
    requires forall g :: Share(phases, r, g) == Share(phases[r := p], r, g)
    ensures Covered(phases[r := p], inflight, count)
  {
    hide Share;
    hide Covered;
    MoveCovered(phases, inflight, count, r, p, count);
  }

  lemma CountKeepsSafe(s: State, a: Step)
    requires (a.AcquireAdd? || a.ReleaseDone?) && Enabled(s, a) && Safe(s)
    ensures Safe(Next(s, a))
  {
    hide HoldersOf;
    hide Holders;
    var p, n := s.phases[a.r], Next(s, a);
    assert p.group in s.count && FindsOwn(p, s.inflight);
    assert n.count.Keys == s.count.Keys;
    hide Covered;
    MoveCovered(s.phases, s.inflight, s.count, a.r, n.phases[a.r], n.count);
  }

  lemma CleanupKeepsSafe(s: State, w: Worker)
    requires Safe(s) && !HeldAndNamed(s, w)
    ensures Safe(Next(s, Cleanup(w)))
  {
    hide HoldersOf;
    hide Holders;
    var after := s.inflight - {w};
    forall r | r in s.phases
      ensures FindsOwn(s.phases[r], after)
    {
      assert FindsOwn(s.phases[r], s.inflight);
    }
  }

  /** Somebody who will look the named worker's wait group up again has the worker in hand. */
  ghost predicate HeldAndNamed(s: State, w: Worker) {
    w != "" && exists r :: r in s.phases && WillLookUp(s.phases[r]) && s.phases[r].worker == w
  }

  lemma OtherStepsKeepSafe(s: State, a: Step)
    requires Enabled(s, a) && Safe(s) && Careful(s, a)
    requires !(a.AcquireLoad? || a.AcquireAdd? || a.ReleaseDone? || a.Cleanup?)
    ensures Safe(Next(s, a))
  {
    hide HoldersOf;
    hide Holders;
    var n := Next(s, a);
    if a.Enter? || a.Abandon? || a.CheckDrain? || a.Select? || a.Send? || a.Return? || a.ReleaseLoad? {
      assert a.r in s.phases ==> FindsOwn(s.phases[a.r], s.inflight);
      assert a.r in s.phases && HasGroup(s.phases[a.r]) ==> s.phases[a.r].group in s.count;
      hide Covered;
      MoveCoveredAside(s.phases, s.inflight, s.count, a.r, n.phases[a.r]);
    }
  }

  lemma StepKeepsSafe(s: State, a: Step)
    requires Enabled(s, a) && Safe(s) && Careful(s, a)
    ensures Safe(Next(s, a))
  {
    hide Safe;
    hide Next;
    match a
    case AcquireLoad(r, created) => LoadKeepsSafe(s, r, created);
    case AcquireAdd(_) => CountKeepsSafe(s, a);
    case ReleaseDone(_) => CountKeepsSafe(s, a);
    case Cleanup(w) => CleanupKeepsSafe(s, w);
    case _ => OtherStepsKeepSafe(s, a);
  }

  lemma {:induction false} SafeRunNeverPanics(s: State, steps: seq<Step>)
    requires Run(s, steps) && Safe(s) && CarefulRun(s, steps)
    ensures NonNegative(End(s, steps).count)
    decreases |steps|
  {
    if steps != [] {
      StepKeepsSafe(s, steps[0]);
      hide Safe;
      hide NonNegative;
      SafeRunNeverPanics(Next(s, steps[0]), steps[1..]);
    }
  }

  /** When the accounts are right, a worker's holders are those of its group, and other groups have none. */
  lemma AccountedIsSafe(s: State)
    requires Accounted(s) && NonNegative(s.count)
    ensures Safe(s)
  {
    forall r | r in s.phases
      ensures FindsOwn(s.phases[r], s.inflight) && (HasGroup(s.phases[r]) ==> s.phases[r].group in s.count)
    {
      assert InTable(s.phases[r], s.inflight);
    }
    forall g | g in s.count
      ensures s.count[g] >= |HoldersOf(s.phases, g)|
    {
      if w :| w in s.inflight && s.inflight[w] == g {
        assert forall r | r in s.phases :: InTable(s.phases[r], s.inflight);
        assert HoldersOf(s.phases, g) == Holders(s.phases, w);
      } else {
        assert forall r | r in s.phases :: InTable(s.phases[r], s.inflight);
        assert HoldersOf(s.phases, g) == {};
      }
    }
  }

  // ---- A run to the panic ----

  /** A request that will look its worker's group up goes on until it is about to. */
  lemma {:induction false} GoesOnToFinish(s: State, r: Request, w: Worker, g: Group) returns (t: State)
    requires r in s.phases && WillLookUp(s.phases[r]) && s.phases[r].worker == w && s.phases[r].group == g
    ensures r in t.phases && t.phases[r] == Finishing(w, g)
    ensures t.inflight == s.inflight && t.draining == s.draining && t.pooled == s.pooled
    ensures forall u :: CarefullyReaches(t, u) ==> CarefullyReaches(s, u)
    decreases if s.phases[r].Loaded? then 3 else if s.phases[r].Holding? then 2 else if s.phases[r].Sent? then 1 else 0
  {
    hide Holders;
    hide CarefullyReaches;
    if s.phases[r].Finishing? {
      t := s;
    } else {
      var a := if s.phases[r].Loaded? then AcquireAdd(r) else if s.phases[r].Holding? then Send(r, false) else Return(r);
      var n := Next(s, a);
      t := GoesOnToFinish(n, r, w, g);
      forall u | CarefullyReaches(t, u)
        ensures CarefullyReaches(s, u)
      {
        CarefullyFirst(s, a, u);
      }
    }
  }

  /** A newcomer enters and is checked. */
  lemma NewcomerChecks(s: State, q: Request, w: Worker) returns (t: State)
    requires q !in s.phases && w !in s.draining
    ensures t.phases == s.phases[q := Checked(w)]
    ensures t.inflight == s.inflight && t.count == s.count && t.draining == s.draining
    ensures forall u :: CarefullyReaches(t, u) ==> CarefullyReaches(s, u)
  {
    hide Holders;
    hide CarefullyReaches;
    var s1 := Next(s, Enter(q, w));
    t := Next(s1, CheckDrain(q));
    assert t.phases == s.phases[q := Checked(w)];
    forall u | CarefullyReaches(t, u)
      ensures CarefullyReaches(s, u)
    {
      CarefullyFirst(s1, CheckDrain(q), u);
      CarefullyFirst(s, Enter(q, w), u);
    }
  }

  /** A newcomer loads a group of its own for a worker that the table has lost. */
  lemma NewcomerLoads(s: State, q: Request, w: Worker, g: Group) returns (t: State)
    requires q !in s.phases && w !in s.inflight && g !in s.count && w !in s.draining
    ensures t.phases == s.phases[q := Loaded(w, g)] && t.inflight == s.inflight[w := g] && GroupCount(t, g) == 0
    ensures forall u :: CarefullyReaches(t, u) ==> CarefullyReaches(s, u)
  {
    hide Holders;
    hide CarefullyReaches;
    var s2 := NewcomerChecks(s, q, w);
    var s3 := Next(s2, Select(q, w));
    assert s3.phases == s.phases[q := Selected(w)];
    t := Next(s3, AcquireLoad(q, g));
    assert t.phases == s.phases[q := Loaded(w, g)];
    forall u | CarefullyReaches(t, u)
      ensures CarefullyReaches(s, u)
    {
      CarefullyFirst(s3, AcquireLoad(q, g), u);
      CarefullyFirst(s2, Select(q, w), u);
    }
  }

  /** The release counts down the newcomer's group, which nobody has counted up. */
  lemma ReleasesNewcomers(s: State, r: Request, w: Worker, g: Group)
    requires r in s.phases && s.phases[r].Finishing? && s.phases[r].worker == w != ""
    requires w in s.inflight && s.inflight[w] == g && GroupCount(s, g) == 0
    ensures exists t :: CarefullyReaches(s, t) && !NonNegative(t.count)
  {
    hide Holders;
    var s1 := Next(s, ReleaseLoad(r));
    var t := Next(s1, ReleaseDone(r));
    assert t.count[g] == -1;
    hide CarefullyReaches;
    StaysCareful(t);
    CarefullyFirst(s1, ReleaseDone(r), t);
    CarefullyFirst(s, ReleaseLoad(r), t);
  }

  lemma LostWorkerPanics(s: State, r: Request, w: Worker)
    requires r in s.phases && WillLookUp(s.phases[r]) && s.phases[r].worker == w != ""
    requires w !in s.inflight && w !in s.draining
    ensures exists t :: CarefullyReaches(s, t) && !NonNegative(t.count)
  {
    hide CarefullyReaches;
    hide NonNegative;
    hide Next;
    var s1 := GoesOnToFinish(s, r, w, s.phases[r].group);
    var q := UnusedNumber(s1.phases.Keys);
    var g := UnusedNumber(s1.count.Keys);
    var s2 := NewcomerLoads(s1, q, w, g);
    ReleasesNewcomers(s2, r, w, g);
  }

  /**
   After a cleanup some careful continuation makes a release panic if and only
   if the worker has a name and somebody who will look its wait group up again
   had it in hand. A request that has already looked it up does no harm.
   */
  lemma CleanupPanicsExactlyWhenHeldAndNamed(s: State, w: Worker)
    requires Accounted(s) && NonNegative(s.count)
    ensures (exists t :: CarefullyReaches(Next(s, Cleanup(w)), t) && !NonNegative(t.count)) <==> HeldAndNamed(s, w)
  {
    var n := Next(s, Cleanup(w));
    CleanedUp(s, w);
    if HeldAndNamed(s, w) {
      var r :| r in s.phases && WillLookUp(s.phases[r]) && s.phases[r].worker == w;
      hide Next;
      LostWorkerPanics(n, r, w);
    } else {
      AccountedIsSafe(s);
      CleanupKeepsSafe(s, w);
      hide Safe;
      hide NonNegative;
      forall t | CarefullyReaches(n, t)
        ensures NonNegative(t.count)
      {
        var steps :| Run(n, steps) && CarefulRun(n, steps) && End(n, steps) == t;
        SafeRunNeverPanics(n, steps);
      }
    }
  }

  // ---- Who can still be sent to a worker that is draining ----

  /** The request is past its drain check, and on its way to this worker. */
  predicate Heading(p: Phase, w: Worker) {
    (p.Checked? && p.route == w) || ((p.Selected? || p.Loaded? || p.Holding?) && p.worker == w)
  }

  /** A run that does not clean the worker up leads from s to t. */
  ghost predicate Uncleaned(s: State, w: Worker, t: State) {
    exists steps :: Run(s, steps) && Cleanup(w) !in steps && End(s, steps) == t
  }

  /** Some request can still come to hold the worker and send to it. */
  ghost predicate CanSend(s: State, w: Worker) {
    exists t, r :: Uncleaned(s, w, t) && r in t.phases && t.phases[r].Holding? && t.phases[r].worker == w
  }

  lemma StaysUncleaned(s: State, w: Worker)
    ensures Uncleaned(s, w, s)
  {
    assert Run(s, []) && End(s, []) == s;
  }

  lemma UncleanedFirst(s: State, w: Worker, a: Step, t: State)
    requires Enabled(s, a) && a != Cleanup(w) && Uncleaned(Next(s, a), w, t)
    ensures Uncleaned(s, w, t)
  {
    var rest :| Run(Next(s, a), rest) && Cleanup(w) !in rest && End(Next(s, a), rest) == t;
    var steps := [a] + rest;
    assert steps[1..] == rest;
    assert Run(s, steps) && End(s, steps) == t;
  }

  lemma CanSendFirst(s: State, w: Worker, a: Step)
    requires Enabled(s, a) && a != Cleanup(w) && CanSend(Next(s, a), w)
    ensures CanSend(s, w)
  {
    var t, r :| Uncleaned(Next(s, a), w, t) && r in t.phases && t.phases[r].Holding? && t.phases[r].worker == w;
    UncleanedFirst(s, w, a, t);
  }

  /** A request on its way to the worker gets there. */
  lemma {:induction false} HeadingCanSend(s: State, r: Request, w: Worker)
    requires r in s.phases && Heading(s.phases[r], w)
    ensures CanSend(s, w)
    decreases if s.phases[r].Checked? then 3 else if s.phases[r].Selected? then 2 else if s.phases[r].Loaded? then 1 else 0
  {
    hide Holders;
    hide CanSend;
    hide Uncleaned;
    if s.phases[r].Holding? {
      StaysUncleaned(s, w);
      assert CanSend(s, w) by { HolderCanSend(s, r, w); }
    } else {
      var g := UnusedNumber(s.count.Keys);
      var a := if s.phases[r].Checked? then Select(r, w)
               else if s.phases[r].Selected? then AcquireLoad(r, g) else AcquireAdd(r);
      HeadingCanSend(Next(s, a), r, w);
      CanSendFirst(s, w, a);
    }
  }

  lemma HolderCanSend(s: State, r: Request, w: Worker)
    requires r in s.phases && s.phases[r].Holding? && s.phases[r].worker == w && Uncleaned(s, w, s)
    ensures CanSend(s, w)
  {
  }

  /** Nobody is on the way to the worker. */
  ghost predicate Deserted(s: State, w: Worker) {
    forall r :: r in s.phases ==> !Heading(s.phases[r], w)
  }

  lemma StepKeepsDeserted(s: State, w: Worker, a: Step)
    requires Enabled(s, a) && a != Cleanup(w) && !s.pooled && w in s.draining && Deserted(s, w)
    ensures var n := Next(s, a); !n.pooled && w in n.draining && Deserted(n, w)
  {
    hide Holders;
    hide InflightAfter;
    hide CountAfter;
    hide DrainsAfter;
    hide SendsAfter;
  }

  lemma {:induction false} RunKeepsDeserted(s: State, w: Worker, steps: seq<Step>)
    requires Run(s, steps) && Cleanup(w) !in steps && !s.pooled && w in s.draining && Deserted(s, w)
    ensures Deserted(End(s, steps), w)
    decreases |steps|
  {
    if steps != [] {
      StepKeepsDeserted(s, w, steps[0]);
      hide Deserted;
      RunKeepsDeserted(Next(s, steps[0]), w, steps[1..]);
    }
  }

  /** A name longer than any of these. */
  lemma {:induction false} UnusedName(used: set<Worker>) returns (name: Worker)
    ensures name !in used && forall w :: w in used ==> |w| < |name|
  {
    if used == {} {
      name := "w";
    } else {
      var w :| w in used;
      var rest := UnusedName(used - {w});
      name := if |w| < |rest| then rest else w + "w";
      forall v | v in used
        ensures |v| < |name|
      {
        assert v == w || v in used - {w};
      }
    }
  }

  /** With a pool, a newcomer for a route that is not draining can be sent to the worker. */
  lemma PooledCanSend(s: State, w: Worker)
    requires s.pooled
    ensures CanSend(s, w)
  {
    hide Holders;
    hide CanSend;
    var r := UnusedNumber(s.phases.Keys);
    var route := UnusedName(s.draining);
    var s1 := Next(s, Enter(r, route));
    var s2 := Next(s1, CheckDrain(r));
    var s3 := Next(s2, Select(r, w));
    assert s3.phases[r] == Selected(w);
    HeadingCanSend(s3, r, w);
    CanSendFirst(s2, w, Select(r, w));
    CanSendFirst(s1, w, CheckDrain(r));
    CanSendFirst(s, w, Enter(r, route));
  }

  /**
   A worker that is draining, whether or not its drain has returned, can still
   be sent to before it is cleaned up if and only if a pool may select it or
   some request is past its check, on its way to it, and has not sent.
   */
  lemma DrainingWorkerCanBeSentToExactlyWhen(s: State, w: Worker)
    requires w in s.draining
    ensures CanSend(s, w) <==> s.pooled || exists r :: r in s.phases && Heading(s.phases[r], w)
  {
    if s.pooled {
      PooledCanSend(s, w);
    } else if r :| r in s.phases && Heading(s.phases[r], w) {
      HeadingCanSend(s, r, w);
    } else {
      assert Deserted(s, w);
      if CanSend(s, w) {
        var t, r :| Uncleaned(s, w, t) && r in t.phases && t.phases[r].Holding? && t.phases[r].worker == w;
        var steps :| Run(s, steps) && Cleanup(w) !in steps && End(s, steps) == t;
        RunKeepsDeserted(s, w, steps);
        assert Heading(t.phases[r], w);
      }
    }
  }
}
