/**
 A pool while requests come and go: a selection reads the round-robin counter
 in one step and advances it in another, and a request is counted up and down
 for its worker when the worker's name leads back to the pool.
 */
module PoolRuns {
  import opened Wrappers
  import opened Lists
  import opened Selection
  import opened WorkerIds
  import opened WorkerPool

  // ---- Requests come and go ----

  /**
   The pool registered under a prefix, the requests under way by worker, and the
   selections that have read the counter and not yet advanced it.
   */
  datatype Tracked = Tracked(pool: State, prefix: string, held: multiset<string>, reading: nat)

  datatype Step =
    | Add(id: string, alive: bool)
    | Remove(id: string)
    | Update(id: string, alive: bool)
    | Read
    | Advance
    | Begin(id: string)
    | Finish(id: string)

  /** The gateway finds the pool to count in by cutting the worker's name. */
  ghost predicate Counted(prefix: string, id: string) {
    PrefixOf(id) == prefix
  }

  /** The gateway's count of a request, up or down. */
  ghost function AfterGuardedCount(s: State, prefix: string, id: string, delta: int): State {
    if Counted(prefix, id) then AfterCount(s, id, delta) else s
  }

  /** A round-robin selection goes on to advance the counter. */
  predicate WillAdvance(s: State) {
    HealthyOf(s) != [] && s.strategy == RoundRobin
  }

  predicate Enabled(t: Tracked, a: Step) {
    && (a.Finish? ==> a.id in t.held)
    && (a.Advance? ==> t.reading > 0)
  }

  ghost function Next(t: Tracked, a: Step): Tracked
    requires Enabled(t, a)
  {
    match a
    case Add(id, alive) => t.(pool := AfterAdd(t.pool, id, alive))
    case Remove(id) => t.(pool := AfterRemove(t.pool, id))
    case Update(id, alive) => t.(pool := AfterUpdate(t.pool, id, alive))
    case Read => if WillAdvance(t.pool) then t.(reading := t.reading + 1) else t
    case Advance => t.(pool := AfterAdvance(t.pool), reading := t.reading - 1)
    case Begin(id) => t.(pool := AfterGuardedCount(t.pool, t.prefix, id, 1), held := t.held + multiset{id})
    case Finish(id) => t.(pool := AfterGuardedCount(t.pool, t.prefix, id, -1), held := t.held - multiset{id})
  }

  ghost predicate Run(t: Tracked, steps: seq<Step>)
    decreases |steps|
  {
    steps == [] || (Enabled(t, steps[0]) && Run(Next(t, steps[0]), steps[1..]))
  }

  ghost function End(t: Tracked, steps: seq<Step>): Tracked
    requires Run(t, steps)
    decreases |steps|
  {
    if steps == [] then t else End(Next(t, steps[0]), steps[1..])
  }

  /** The requests under way that the gateway counts for a worker: none, if its name does not lead back to the pool. */
  ghost function Seen(t: Tracked, id: string): nat {
    if Counted(t.prefix, id) then t.held[id] else 0
  }

  ghost predicate Accounted(t: Tracked) {
    forall id :: id in t.pool.workers ==> t.pool.workers[id].active == Seen(t, id)
  }

  /** A counted name is not added while requests under it are still under way. */
  ghost predicate Careful(t: Tracked, a: Step) {
    a.Add? && Counted(t.prefix, a.id) ==> a.id !in t.held
  }

  ghost predicate CarefulRun(t: Tracked, steps: seq<Step>)
    requires Run(t, steps)
    decreases |steps|
  {
    steps != [] ==> Careful(t, steps[0]) && CarefulRun(Next(t, steps[0]), steps[1..])
  }

  /** Only adding a counted name that requests are still under way for spoils the counts. */
  lemma StepKeepsAccountedExactlyWhenCareful(t: Tracked, a: Step)
    requires Enabled(t, a) && Accounted(t)
    ensures Accounted(Next(t, a)) <==> Careful(t, a)
  {
    hide Counted;
    hide Without;
    if a.Add? {
      assert Next(t, a).pool.workers[a.id].active == 0;
    }
  }

  lemma {:induction false} RunKeepsAccounted(t: Tracked, steps: seq<Step>)
    requires Run(t, steps) && Accounted(t) && CarefulRun(t, steps)
    ensures Accounted(End(t, steps))
    decreases |steps|
  {
    if steps != [] {
      StepKeepsAccountedExactlyWhenCareful(t, steps[0]);
      RunKeepsAccounted(Next(t, steps[0]), steps[1..]);
    }
  }

  predicate Initial(t: Tracked) {
    t == Tracked(State([], map[], 0, t.pool.strategy), t.prefix, multiset{}, 0)
  }

  /** The first healthy worker with the fewest counted requests under way. */
  ghost predicate HasFewest(t: Tracked, i: nat) {
    var healthy := HealthyOf(t.pool);
    && i < |healthy|
    && (forall k :: 0 <= k < |healthy| ==> Seen(t, healthy[i]) <= Seen(t, healthy[k]))
    && (forall k :: 0 <= k < i ==> Seen(t, healthy[i]) < Seen(t, healthy[k]))
  }

  lemma FewestIsSelected(t: Tracked)
    requires Accounted(t) && t.pool.strategy == LeastLoaded && HealthyOf(t.pool) != []
    ensures exists i: nat :: HasFewest(t, i) && Selected(t.pool) == Some(HealthyOf(t.pool)[i])
  {
    SelectedIsScanned(t.pool);
    var healthy, loads := HealthyOf(t.pool), LoadsOf(t.pool);
    hide HealthyOf;
    hide Selected;
    assert forall k :: 0 <= k < |healthy| ==> loads[k] == Seen(t, healthy[k]);
    hide LoadsOf;
    hide Seen;
    ScanTakesFirstMinimum(loads);
    var i := ScanLoads(loads).at.value;
    assert HasFewest(t, i);
  }

  /**
   After any careful run of a new pool, least-loaded selection takes a healthy
   worker with the fewest counted requests under way, and the first such in the
   list. If every healthy name leads back to the pool, these are all its requests.
   */
  lemma LeastLoadedHasFewestRequests(t: Tracked, steps: seq<Step>)
    requires Initial(t) && t.pool.strategy == LeastLoaded && Run(t, steps) && CarefulRun(t, steps)
    requires HealthyOf(End(t, steps).pool) != []
    ensures var e := End(t, steps);
            exists i: nat :: HasFewest(e, i) && Selected(e.pool) == Some(HealthyOf(e.pool)[i])
    ensures var e := End(t, steps); var healthy := HealthyOf(e.pool);
            && e.prefix == t.prefix
            && ((forall id :: id in healthy ==> Counted(t.prefix, id)) ==> forall id :: id in healthy ==> Seen(e, id) == e.held[id])
  {
    RunKeepsAccounted(t, steps);
    StrategyStays(t, steps);
    FewestIsSelected(End(t, steps));
  }

  lemma {:induction false} StrategyStays(t: Tracked, steps: seq<Step>)
    requires Run(t, steps)
    ensures End(t, steps).pool.strategy == t.pool.strategy && End(t, steps).prefix == t.prefix
    decreases |steps|
  {
    if steps != [] {
      StrategyStays(Next(t, steps[0]), steps[1..]);
    }
  }

  lemma RunCons(t: Tracked, a: Step, rest: seq<Step>)
    requires Enabled(t, a) && Run(Next(t, a), rest)
    ensures Run(t, [a] + rest) && End(t, [a] + rest) == End(Next(t, a), rest)
  {
    assert ([a] + rest)[1..] == rest;
  }

  /**
   Without that care the mark for "nothing yet" is reached: a worker removed
   and added again while a request is under way counts to -1, and the scan
   passes it over for a worker that is serving one.
   */
  lemma ReaddedWorkerIsPassedOver(t: Tracked, a: string, b: string)
    requires Initial(t) && t.pool.strategy == LeastLoaded && a != b && Counted(t.prefix, a) && Counted(t.prefix, b)
    ensures exists steps ::
              && Run(t, steps)
              && var e := End(t, steps);
                 && e.pool.ids == [a, b] && e.held == multiset{b}
                 && e.pool.workers == map[a := WorkerState(true, -1), b := WorkerState(true, 1)]
                 && Selected(e.pool) == Some(b)
  {
    hide Run;
    hide End;
    hide Selected;
    var one := State([a], map[a := WorkerState(true, 0)], 0, LeastLoaded);
    var two := State([a, b], map[a := WorkerState(true, 0), b := WorkerState(true, 1)], 0, LeastLoaded);
    var e := Tracked(State([a, b], map[a := WorkerState(true, -1), b := WorkerState(true, 1)], 0, LeastLoaded), t.prefix, multiset{b}, 0);
    var t4 := Tracked(one, t.prefix, multiset{a}, 0);
    var t6 := Tracked(two, t.prefix, multiset{a} + multiset{b}, 0);
    RunNothing(e);
    assert Next(t6, Finish(a)) == e;
    RunCons(t6, Finish(a), []);
    var last := [Finish(a)] + [];
    AddAndBegin(t4, b, last, t6);
    SelectsSecond(e.pool, a, b);
    hide Next;
    hide Enabled;
    AddedAgain(t, a, [Add(b, true)] + ([Begin(b)] + last), t4);
  }

  /** A worker is added and a request begins on it. */
  lemma AddAndBegin(t: Tracked, b: string, rest: seq<Step>, n: Tracked)
    requires n == Next(Next(t, Add(b, true)), Begin(b)) && Run(n, rest)
    ensures Run(t, [Add(b, true)] + ([Begin(b)] + rest)) && End(t, [Add(b, true)] + ([Begin(b)] + rest)) == End(n, rest)
  {
    hide Run;
    hide End;
    var added := Next(t, Add(b, true));
    RunCons(added, Begin(b), rest);
    RunCons(t, Add(b, true), [Begin(b)] + rest);
  }

  /** A worker is added, serves a request, is removed and is added again, with the request still under way. */
  lemma AddedAgain(t: Tracked, a: string, rest: seq<Step>, n: Tracked)
    requires Initial(t) && t.pool.strategy == LeastLoaded && Run(n, rest) && Counted(t.prefix, a)
    requires n == Tracked(State([a], map[a := WorkerState(true, 0)], 0, LeastLoaded), t.prefix, multiset{a}, 0)
    ensures exists steps :: Run(t, steps) && End(t, steps) == End(n, rest)
  {
    hide Run;
    hide End;
    var t2 := Tracked(State([a], map[a := WorkerState(true, 1)], 0, LeastLoaded), t.prefix, multiset{a}, 0);
    var t3 := Next(t2, Remove(a));
    assert t3 == Tracked(State([], map[], 0, LeastLoaded), t.prefix, multiset{a}, 0);
    assert Next(t3, Add(a, true)) == n;
    RunCons(t3, Add(a, true), rest);
    RunCons(t2, Remove(a), [Add(a, true)] + rest);
    AddAndBegin(t, a, [Remove(a)] + ([Add(a, true)] + rest), t2);
  }

  lemma RunNothing(t: Tracked)
    ensures Run(t, []) && End(t, []) == t
  {
  }

  lemma SelectsSecond(s: State, a: string, b: string)
    requires a != b && s.ids == [a, b] && s.strategy == LeastLoaded
    requires s.workers == map[a := WorkerState(true, -1), b := WorkerState(true, 1)]
    ensures Selected(s) == Some(b)
  {
    assert s.ids[..1] == [a] && s.ids[..1][..0] == [];
    assert Healthy([a], s.workers) == [a];
    assert Healthy(s.ids, s.workers) == [a, b];
    PresentAll([a, b], s.workers);
    var loads := Loads([a, b], s.workers);
    assert loads == [-1, 1] && loads[..1] == [-1] && loads[..1][..0] == [];
    assert ScanLoads([-1]) == Scan(-1, Some(0));
    assert ScanLoads(loads) == Scan(1, Some(1));
  }

  // ---- Round robin ----

  /** A selection as one call makes it: it reads, and advances at once. */
  lemma SelectIsReadThenAdvance(t: Tracked)
    ensures var read := Next(t, Read);
            if WillAdvance(t.pool) then Next(read, Step.Advance) == t.(pool := AfterSelect(t.pool))
            else read == t.(pool := AfterSelect(t.pool))
  {
  }

  /** The workers that the selections of a run take. */
  ghost function Log(t: Tracked, steps: seq<Step>): seq<string>
    requires Run(t, steps)
    decreases |steps|
  {
    if steps == [] then []
    else (if steps[0].Read? && Selected(t.pool).Some? then [Selected(t.pool).value] else [])
         + Log(Next(t, steps[0]), steps[1..])
  }

  /** What the selections of a run do to the counter. */
  function TurnsOf(steps: seq<Step>): seq<Turn> {
    if steps == [] then []
    else (if steps[0].Read? then [Load] else if steps[0].Advance? then [Turn.Advance] else []) + TurnsOf(steps[1..])
  }

  /** Every selection of the run sees the same healthy workers. */
  ghost predicate AlwaysHealthy(t: Tracked, steps: seq<Step>, healthy: seq<string>)
    requires Run(t, steps)
    decreases |steps|
  {
    steps != [] ==>
      && (steps[0].Read? ==> HealthyOf(t.pool) == healthy)
      && AlwaysHealthy(Next(t, steps[0]), steps[1..], healthy)
  }

  /** Every worker gets its share of every stretch of selections. */
  ghost predicate SharesAlways(log: seq<string>, healthy: seq<string>) {
    forall i, k, id :: 0 <= i <= k <= |log| && id in healthy ==>
      FairShare(multiset(log[i..k])[id], k - i, |healthy|)
  }

  function NamesOf(picks: seq<nat>, healthy: seq<string>): seq<string>
    requires forall i :: 0 <= i < |picks| ==> picks[i] < |healthy|
  {
    seq(|picks|, i requires 0 <= i < |picks| => healthy[picks[i]])
  }

  /** What a step that sees these healthy workers does to the log and to the counter. */
  lemma StepLogs(t: Tracked, steps: seq<Step>, healthy: seq<string>)
    requires Run(t, steps) && steps != [] && AlwaysHealthy(t, steps, healthy) && healthy != [] && t.pool.strategy == RoundRobin
    ensures var n, a, c := Next(t, steps[0]), steps[0], t.pool.counter;
            && AlwaysHealthy(n, steps[1..], healthy) && n.pool.strategy == RoundRobin
            && n.pool.counter == (if a.Advance? then c + 1 else c)
            && (a.Advance? ==> t.reading > 0)
            && n.reading == (if a.Read? then t.reading + 1 else if a.Advance? then t.reading - 1 else t.reading)
            && Log(t, steps) == (if a.Read? then [healthy[c % |healthy|]] else []) + Log(n, steps[1..])
  {
    hide Healthy;
    hide LeastLoadedOf;
    hide Without;
    hide PrefixOf;
  }

  /** The selections of a run take what their turns pick. */
  lemma {:induction false} LogIsPicked(t: Tracked, steps: seq<Step>, healthy: seq<string>)
    requires Run(t, steps) && AlwaysHealthy(t, steps, healthy) && healthy != [] && t.pool.strategy == RoundRobin
    ensures Possible(TurnsOf(steps), t.reading)
    ensures var picks := Picked(t.pool.counter, TurnsOf(steps), |healthy|);
            (forall i :: 0 <= i < |picks| ==> picks[i] < |healthy|) && Log(t, steps) == NamesOf(picks, healthy)
    decreases |steps|
  {
    PickedBelow(t.pool.counter, TurnsOf(steps), |healthy|);
    if steps != [] {
      StepLogs(t, steps, healthy);
      var n, rest := Next(t, steps[0]), TurnsOf(steps[1..]);
      LogIsPicked(n, steps[1..], healthy);
      PickedBelow(n.pool.counter, rest, |healthy|);
      TurnsStep(steps);
      assert [] + Log(n, steps[1..]) == Log(n, steps[1..]);
      if steps[0].Read? {
        NamesCons(t.pool.counter % |healthy|, Picked(n.pool.counter, rest, |healthy|), healthy);
      }
      hide Log;
      hide Next;
      hide AlwaysHealthy;
      hide NamesOf;
      hide TurnsOf;
    } else {
      assert Log(t, steps) == NamesOf([], healthy);
    }
  }

  lemma NamesCons(pick: nat, picks: seq<nat>, healthy: seq<string>)
    requires pick < |healthy| && forall i :: 0 <= i < |picks| ==> picks[i] < |healthy|
    ensures NamesOf([pick] + picks, healthy) == [healthy[pick]] + NamesOf(picks, healthy)
  {
  }

  lemma TurnsStep(steps: seq<Step>)
    requires steps != []
    ensures var turns, rest := TurnsOf(steps), TurnsOf(steps[1..]);
            && (steps[0].Read? ==> turns != [] && turns[0].Load? && turns[1..] == rest)
            && (steps[0].Advance? ==> turns != [] && turns[0].Advance? && turns[1..] == rest)
            && (!steps[0].Read? && !steps[0].Advance? ==> turns == rest)
  {
  }

  /** A worker stands in the log as often as its index among the picks. */
  lemma {:induction false} NamesCount(picks: seq<nat>, healthy: seq<string>, j: nat)
    requires NoDuplicates(healthy) && j < |healthy| && forall i :: 0 <= i < |picks| ==> picks[i] < |healthy|
    ensures multiset(NamesOf(picks, healthy))[healthy[j]] == multiset(picks)[j]
  {
    if picks != [] {
      var front, last := picks[..|picks| - 1], picks[|picks| - 1];
      NamesCount(front, healthy, j);
      assert picks == front + [last];
      assert NamesOf(picks, healthy) == NamesOf(front, healthy) + [healthy[last]];
      assert healthy[last] == healthy[j] <==> last == j;
    }
  }

  lemma WindowCount(picks: seq<nat>, healthy: seq<string>, i: nat, k: nat, j: nat)
    requires NoDuplicates(healthy) && j < |healthy| && forall l :: 0 <= l < |picks| ==> picks[l] < |healthy|
    requires i <= k <= |picks|
    ensures multiset(NamesOf(picks, healthy)[i..k])[healthy[j]] == multiset(picks[i..k])[j]
  {
    assert NamesOf(picks, healthy)[i..k] == NamesOf(picks[i..k], healthy);
    NamesCount(picks[i..k], healthy, j);
  }

  /** Workers get their shares exactly when their indices do. */
  lemma SharesAreFair(picks: seq<nat>, healthy: seq<string>)
    requires NoDuplicates(healthy) && forall i :: 0 <= i < |picks| ==> picks[i] < |healthy|
    ensures SharesAlways(NamesOf(picks, healthy), healthy) <==> AlwaysFair(picks, |healthy|)
  {
    hide FairShare;
    var log, n := NamesOf(picks, healthy), |healthy|;
    if SharesAlways(log, healthy) {
      forall i, k, j: nat | 0 <= i <= k <= |picks| && j < n
        ensures FairShare(multiset(picks[i..k])[j], k - i, n)
      {
        WindowCount(picks, healthy, i, k, j);
        assert healthy[j] in healthy;
        assert FairShare(multiset(log[i..k])[healthy[j]], k - i, n);
      }
    }
    if AlwaysFair(picks, n) {
      forall i, k, id | 0 <= i <= k <= |log| && id in healthy
        ensures FairShare(multiset(log[i..k])[id], k - i, n)
      {
        var j :| 0 <= j < n && healthy[j] == id;
        WindowCount(picks, healthy, i, k, j);
        assert FairShare(multiset(picks[i..k])[j], k - i, n);
      }
    }
  }

  /**
   In any run of a pool whose selections see the same n healthy workers, each
   of them is selected k / n times, rounded down or up, in every stretch of k
   selections, if and only if no selection reads the counter before the one
   before it has advanced it, or there is only one worker.
   */
  lemma RoundRobinIsFairExactlyWhenOneByOne(t: Tracked, steps: seq<Step>, healthy: seq<string>)
    requires Run(t, steps) && t.reading == 0 && t.pool.strategy == RoundRobin
    requires healthy != [] && NoDuplicates(healthy) && AlwaysHealthy(t, steps, healthy)
    ensures SharesAlways(Log(t, steps), healthy) <==> |healthy| == 1 || OneByOne(TurnsOf(steps))
  {
    LogIsPicked(t, steps, healthy);
    SharesAreFair(Picked(t.pool.counter, TurnsOf(steps), |healthy|), healthy);
    FairExactlyWhenOneByOne(t.pool.counter, TurnsOf(steps), |healthy|);
    hide *;
  }

  // ---- Least loaded in the gateway ----

  /** A selection whose request the gateway counts up, if the worker's name leads back to the pool. */
  ghost function AfterServe(s: State, prefix: string): State {
    var chosen := Selected(s);
    if chosen.Some? then AfterGuardedCount(AfterSelect(s), prefix, chosen.value, 1) else s
  }

  ghost function AfterServing(s: State, prefix: string, k: nat): State {
    if k == 0 then s else AfterServe(AfterServing(s, prefix, k - 1), prefix)
  }

  /** The workers that k requests one after the other are sent to. */
  ghost function ServedBy(s: State, prefix: string, k: nat): seq<string> {
    if k == 0 then []
    else
      var chosen := Selected(AfterServing(s, prefix, k - 1));
      ServedBy(s, prefix, k - 1) + if chosen.Some? then [chosen.value] else []
  }

  /** An idle pool that selects the least loaded. */
  ghost predicate Idle(s: State) {
    && s.strategy == LeastLoaded && HealthyOf(s) != [] && NoDuplicates(HealthyOf(s))
    && LoadsOf(s) == Zeros(|HealthyOf(s)|)
  }

  ghost predicate AllCounted(healthy: seq<string>, prefix: string) {
    forall id :: id in healthy ==> Counted(prefix, id)
  }

  /** However many requests come, every worker gets its share of them. */
  ghost predicate ServesFairly(s: State, prefix: string) {
    forall k: nat, id :: id in HealthyOf(s) ==>
      FairShare(multiset(ServedBy(s, prefix, k))[id], k, |HealthyOf(s)|)
  }

  /** Counting a request changes nobody's health, and one load if the worker is counted. */
  lemma ServeCounts(s: State, prefix: string)
    requires s.strategy == LeastLoaded && HealthyOf(s) != [] && NoDuplicates(HealthyOf(s))
    ensures var healthy, at, n := HealthyOf(s), ScanLoads(LoadsOf(s)).at, AfterServe(s, prefix);
            && at.Some? && at.value < |healthy| == |LoadsOf(s)| && Selected(s) == Some(healthy[at.value])
            && HealthyOf(n) == healthy && n.strategy == LeastLoaded
            && (Counted(prefix, healthy[at.value]) ==> LoadsOf(n) == SelectAndCount(LoadsOf(s)))
            && (!Counted(prefix, healthy[at.value]) ==> n == s)
  {
    SelectedIsScanned(s);
    var healthy, i := HealthyOf(s), ScanLoads(LoadsOf(s)).at.value;
    var n := AfterServe(s, prefix);
    if Counted(prefix, healthy[i]) {
      assert n == AfterCount(s, healthy[i], 1);
      hide Selected;
      hide ScanLoads;
      CountedLoads(s, i);
    } else {
      assert n == s;
    }
  }

  /** Counting up the i-th healthy worker. */
  lemma CountedLoads(s: State, i: nat)
    requires NoDuplicates(HealthyOf(s)) && i < |HealthyOf(s)|
    requires forall k :: 0 <= k < |HealthyOf(s)| ==> HealthyOf(s)[k] in s.workers
    ensures var n := AfterCount(s, HealthyOf(s)[i], 1);
            && HealthyOf(n) == HealthyOf(s) && n.strategy == s.strategy
            && LoadsOf(n) == LoadsOf(s)[i := LoadsOf(s)[i] + 1]
  {
    var n := AfterCount(s, HealthyOf(s)[i], 1);
    HealthyIgnoresCounts(s.ids, s.workers, n.workers);
    assert HealthyOf(n) == HealthyOf(s);
    hide HealthyOf;
    hide Healthy;
    assert LoadsOf(n) == LoadsOf(s)[i := LoadsOf(s)[i] + 1];
  }

  /** One more request goes to the worker that the pool then selects. */
  lemma ServedStep(s: State, prefix: string, k: nat, id: string)
    requires k > 0 && Selected(AfterServing(s, prefix, k - 1)) == Some(id)
    ensures ServedBy(s, prefix, k) == ServedBy(s, prefix, k - 1) + [id]
    ensures AfterServing(s, prefix, k) == AfterServe(AfterServing(s, prefix, k - 1), prefix)
  {
    hide Selected;
    hide AfterServe;
  }

  /** The log holds every healthy worker as often as its load says. */
  ghost predicate Tallies(log: seq<string>, healthy: seq<string>, loads: seq<int>) {
    |loads| == |healthy| && forall j :: 0 <= j < |healthy| ==> multiset(log)[healthy[j]] == loads[j]
  }

  lemma TallyStep(log: seq<string>, healthy: seq<string>, loads: seq<int>, i: nat)
    requires Tallies(log, healthy, loads) && NoDuplicates(healthy) && i < |healthy|
    ensures Tallies(log + [healthy[i]], healthy, loads[i := loads[i] + 1])
  {
    forall j | 0 <= j < |healthy|
      ensures multiset(log + [healthy[i]])[healthy[j]] == loads[i := loads[i] + 1][j]
    {
      assert healthy[i] == healthy[j] <==> i == j;
    }
  }

  lemma TallyNone(healthy: seq<string>)
    ensures Tallies([], healthy, Zeros(|healthy|))
  {
  }

  lemma CountedAt(loads: seq<int>, i: nat)
    requires i < |loads| && ScanLoads(loads).at == Some(i)
    ensures SelectAndCount(loads) == loads[i := loads[i] + 1]
  {
  }

  /** One more counted request keeps the log in step with the loads. */
  lemma ServeTallies(s: State, prefix: string, log: seq<string>)
    requires s.strategy == LeastLoaded && HealthyOf(s) != [] && NoDuplicates(HealthyOf(s))
    requires AllCounted(HealthyOf(s), prefix) && Tallies(log, HealthyOf(s), LoadsOf(s))
    ensures var n := AfterServe(s, prefix);
            && HealthyOf(n) == HealthyOf(s) && n.strategy == LeastLoaded && LoadsOf(n) == SelectAndCount(LoadsOf(s))
            && Selected(s).Some? && Tallies(log + [Selected(s).value], HealthyOf(s), LoadsOf(n))
  {
    hide AfterServe;
    hide Selected;
    hide HealthyOf;
    hide LoadsOf;
    hide ScanLoads;
    hide SelectAndCount;
    hide Counted;
    ServeCounts(s, prefix);
    var healthy, loads := HealthyOf(s), LoadsOf(s);
    var i := ScanLoads(loads).at.value;
    assert healthy[i] in healthy;
    CountedAt(loads, i);
    TallyStep(log, healthy, loads, i);
  }

  /** While every selected worker is counted, the loads are the requests served. */
  lemma {:induction false} ServingLevelsLoads(s: State, prefix: string, k: nat)
    requires Idle(s) && AllCounted(HealthyOf(s), prefix)
    ensures var e, healthy := AfterServing(s, prefix, k), HealthyOf(s);
            && HealthyOf(e) == healthy && e.strategy == LeastLoaded
            && LoadsOf(e) == AfterSelections(|healthy|, k)
            && Tallies(ServedBy(s, prefix, k), healthy, LoadsOf(e))
    decreases k
  {
    hide AfterServe;
    hide Selected;
    hide HealthyOf;
    hide LoadsOf;
    hide SelectAndCount;
    hide Tallies;
    if k == 0 {
      TallyNone(HealthyOf(s));
    } else {
      ServingLevelsLoads(s, prefix, k - 1);
      var before := AfterServing(s, prefix, k - 1);
      ServeTallies(before, prefix, ServedBy(s, prefix, k - 1));
      ServedStep(s, prefix, k, Selected(before).value);
      SelectionsStep(|HealthyOf(s)|, k);
    }
  }

  lemma SelectionsStep(n: nat, k: nat)
    requires k > 0
    ensures AfterSelections(n, k) == SelectAndCount(AfterSelections(n, k - 1))
  {
  }

  lemma CountedIsFair(s: State, prefix: string)
    requires Idle(s) && AllCounted(HealthyOf(s), prefix)
    ensures ServesFairly(s, prefix)
  {
    hide FairShare;
    var healthy := HealthyOf(s);
    forall k: nat, id | id in healthy
      ensures FairShare(multiset(ServedBy(s, prefix, k))[id], k, |healthy|)
    {
      var j :| 0 <= j < |healthy| && healthy[j] == id;
      ServingLevelsLoads(s, prefix, k);
      LoadsAreFair(|healthy|, k, j);
    }
  }

  /** Once a worker that is not counted is selected, it is selected for ever. */
  lemma {:induction false} UncountedTakesAll(s: State, prefix: string, id: string, k: nat)
    requires s.strategy == LeastLoaded && Selected(s) == Some(id) && !Counted(prefix, id)
    ensures AfterServing(s, prefix, k) == s
    ensures ServedBy(s, prefix, k) == AllOfOne(k, id)
    decreases k
  {
    if k > 0 {
      hide AfterServe;
      hide Selected;
      hide Counted;
      UncountedTakesAll(s, prefix, id, k - 1);
      ServedStep(s, prefix, k, id);
      UncountedLeaves(s, prefix, id);
      AllOfOneStep(k, id);
      hide ServedBy;
      hide AfterServing;
    }
  }

  function AllOfOne(k: nat, id: string): seq<string> {
    seq(k, i => id)
  }

  lemma AllOfOneStep(k: nat, id: string)
    requires k > 0
    ensures AllOfOne(k - 1, id) + [id] == AllOfOne(k, id)
    ensures AllOfOne(0, id) == []
  {
  }

  lemma UncountedLeaves(s: State, prefix: string, id: string)
    requires s.strategy == LeastLoaded && Selected(s) == Some(id) && !Counted(prefix, id)
    ensures AfterServe(s, prefix) == s
  {
    hide Selected;
    hide Counted;
  }

  // ---- Which pools the gateway serves fairly ----

  /** The first i loads are one and the others none. */
  function Stair(i: nat, n: nat): seq<int> {
    seq(n, m => if m < i then 1 else 0)
  }

  lemma StairScan(i: nat, n: nat)
    requires i < n
    ensures ScanLoads(Stair(i, n)).at == Some(i)
    ensures SelectAndCount(Stair(i, n)) == Stair(i + 1, n)
  {
    ScanTakesFirstMinimum(Stair(i, n));
    assert Stair(i, n)[i] == 0;
    var at := ScanLoads(Stair(i, n)).at.value;
    assert Stair(i, n)[at] <= 0;
    assert at == i;
    assert Stair(i, n)[i := 1] == Stair(i + 1, n);
  }

  lemma StairBottom(n: nat)
    ensures Stair(0, n) == Zeros(n)
  {
  }

  /** The first requests go to the counted workers before the first that is not, one each. */
  lemma {:induction false} ServeStair(s: State, prefix: string, i: nat)
    requires Idle(s) && i < |HealthyOf(s)|
    requires forall m :: 0 <= m < i ==> Counted(prefix, HealthyOf(s)[m])
    ensures var e, healthy := AfterServing(s, prefix, i), HealthyOf(s);
            && HealthyOf(e) == healthy && e.strategy == LeastLoaded
            && LoadsOf(e) == Stair(i, |healthy|) && ServedBy(s, prefix, i) == healthy[..i]
            && Selected(e) == Some(healthy[i])
    decreases i
  {
    hide AfterServe;
    hide Selected;
    hide HealthyOf;
    hide LoadsOf;
    hide ScanLoads;
    hide SelectAndCount;
    hide Counted;
    var healthy := HealthyOf(s);
    var n := |healthy|;
    StairScan(i, n);
    if i == 0 {
      StairBottom(n);
      ServeCounts(s, prefix);
      assert healthy[..0] == [];
    } else {
      ServeStair(s, prefix, i - 1);
      StairScan(i - 1, n);
      hide Stair;
      var before := AfterServing(s, prefix, i - 1);
      ServeCounts(before, prefix);
      ServedStep(s, prefix, i, healthy[i - 1]);
      assert healthy[..i] == healthy[..i - 1] + [healthy[i - 1]];
      hide ServedBy;
      hide AfterServing;
      ServeCounts(AfterServing(s, prefix, i), prefix);
    }
  }

  /** Serving on from where k requests have led. */
  lemma {:induction false} ServingOn(s: State, prefix: string, k: nat, m: nat)
    ensures AfterServing(s, prefix, k + m) == AfterServing(AfterServing(s, prefix, k), prefix, m)
    ensures ServedBy(s, prefix, k + m) == ServedBy(s, prefix, k) + ServedBy(AfterServing(s, prefix, k), prefix, m)
    decreases m
  {
    hide AfterServe;
    hide Selected;
    if m == 0 {
      assert ServedBy(s, prefix, k) + [] == ServedBy(s, prefix, k);
    } else {
      ServingOn(s, prefix, k, m - 1);
      assert k + m - 1 == k + (m - 1);
    }
  }

  lemma TimesOfAll(log: seq<string>, id: string, m: nat)
    ensures multiset(log + AllOfOne(m, id))[id] == multiset(log)[id] + m
    decreases m
  {
    if m == 0 {
      assert log + AllOfOne(m, id) == log;
    } else {
      TimesOfAll(log, id, m - 1);
      AllOfOneStep(m, id);
      assert log + AllOfOne(m, id) == (log + AllOfOne(m - 1, id)) + [id];
      hide AllOfOne;
    }
  }

  lemma {:induction false} RoundsAtLeastTwice(n: nat, p: nat)
    requires n > 1
    ensures Rounds(n, p) >= 2 * p
    decreases p
  {
    OneMoreRound(n, p - 1);
    hide Rounds;
    if p > 0 {
      RoundsAtLeastTwice(n, p - 1);
    }
  }

  /** More than half of the requests, and one more, is more than a share. */
  lemma TooMany(times: int, k: nat, n: nat)
    requires n > 1 && 2 * (times - 1) >= k && times >= 1
    ensures !FairShare(times, k, n)
  {
    assert Rounds(n, times - 1) == n * (times - 1);
    RoundsAtLeastTwice(n, times - 1);
    hide Rounds;
  }

  lemma UncountedIsUnfair(s: State, prefix: string, i: nat)
    requires Idle(s) && i < |HealthyOf(s)| && |HealthyOf(s)| > 1
    requires !Counted(prefix, HealthyOf(s)[i])
    requires forall m :: 0 <= m < i ==> Counted(prefix, HealthyOf(s)[m])
    ensures !ServesFairly(s, prefix)
  {
    var id, m := HealthyOf(s)[i], i + 3;
    ServeStair(s, prefix, i);
    var e := AfterServing(s, prefix, i);
    UncountedTakesAll(e, prefix, id, m);
    ServingOn(s, prefix, i, m);
    TimesOfAll(ServedBy(s, prefix, i), id, m);
    TooMany(multiset(ServedBy(s, prefix, i + m))[id], i + m, |HealthyOf(s)|);
    assert id in HealthyOf(s);
  }

  lemma {:induction false} OneTakesAll(s: State, prefix: string, id: string, k: nat)
    requires s.strategy == LeastLoaded && HealthyOf(s) == [id]
    ensures HealthyOf(AfterServing(s, prefix, k)) == [id] && AfterServing(s, prefix, k).strategy == LeastLoaded
    ensures ServedBy(s, prefix, k) == AllOfOne(k, id)
    decreases k
  {
    hide AfterServe;
    hide Selected;
    hide Counted;
    hide HealthyOf;
    hide LoadsOf;
    hide ScanLoads;
    hide SelectAndCount;
    hide Zeros;
    if k > 0 {
      AllOfOneStep(k, id);
      OneTakesAll(s, prefix, id, k - 1);
      var before := AfterServing(s, prefix, k - 1);
      ServeCounts(before, prefix);
      ServedStep(s, prefix, k, id);
      hide ServedBy;
      hide AfterServing;
      hide AllOfOne;
    }
  }

  lemma OneIsServedFairly(s: State, prefix: string)
    requires Idle(s) && |HealthyOf(s)| == 1
    ensures ServesFairly(s, prefix)
  {
    var healthy := HealthyOf(s);
    forall k: nat, id | id in healthy
      ensures FairShare(multiset(ServedBy(s, prefix, k))[id], k, |healthy|)
    {
      OneTakesAll(s, prefix, id, k);
      TimesOfAll([], id, k);
      assert [] + AllOfOne(k, id) == AllOfOne(k, id);
    }
  }

  /** The first worker that is not counted. */
  lemma {:induction false} FirstUncounted(healthy: seq<string>, prefix: string) returns (i: nat)
    requires !AllCounted(healthy, prefix)
    ensures i < |healthy| && !Counted(prefix, healthy[i]) && forall m :: 0 <= m < i ==> Counted(prefix, healthy[m])
  {
    if !Counted(prefix, healthy[0]) {
      i := 0;
    } else {
      assert healthy == [healthy[0]] + healthy[1..];
      var rest := FirstUncounted(healthy[1..], prefix);
      i := rest + 1;
      assert forall m :: 0 < m < i ==> healthy[m] == healthy[1..][m - 1];
    }
  }

  /**
   From idle workers the gateway gives every healthy worker k / n of any k
   requests, rounded down or up, if and only if there is one healthy worker or
   every healthy worker's name leads back to the pool. The names that a health
   pass or a replacement generates do not.
   */
  lemma LeastLoadedIsFairExactlyWhenCounted(s: State, prefix: string)
    requires Idle(s)
    ensures ServesFairly(s, prefix) <==> |HealthyOf(s)| == 1 || AllCounted(HealthyOf(s), prefix)
  {
    if |HealthyOf(s)| == 1 {
      OneIsServedFairly(s, prefix);
    } else if AllCounted(HealthyOf(s), prefix) {
      CountedIsFair(s, prefix);
    } else {
      var i := FirstUncounted(HealthyOf(s), prefix);
      UncountedIsUnfair(s, prefix, i);
    }
  }

  /** A generated name leads back to no pool but one registered under that very name. */
  lemma GeneratedIsNotCounted(prefix: string, seconds: string, fraction: string)
    requires DASH !in fraction
    ensures !Counted(prefix, Suffixed(prefix, seconds + "." + fraction))
  {
    ReplacementIsItsOwnPrefix(prefix, seconds, fraction);
    assert |Suffixed(prefix, seconds + "." + fraction)| > |prefix|;
  }
}
