/**
 The pool manager: it spawns a pool's workers under numbered names, replaces a
 worker, and in a health pass removes dead workers and spawns the missing ones.
 */
module WorkerManager {
  import opened Wrappers
  import opened Lists
  import opened WorkerIds
  import opened WorkerPool

  datatype ManagerConfig = ManagerConfig(replicas: int, maxPoolSize: int)

  /** RegisterPool's default: at least one replica. */
  function NormalizeConfig(cfg: ManagerConfig): (c: ManagerConfig)
    ensures c.replicas >= 1
  {
    if cfg.replicas <= 0 then cfg.(replicas := 1) else cfg
  }

  /** How many workers SpawnWorkers starts in a pool of this size. */
  function InitialCount(cfg: ManagerConfig, size: nat): int {
    if cfg.maxPoolSize > 0 then
      if size >= cfg.maxPoolSize then 0
      else if cfg.replicas > cfg.maxPoolSize - size then cfg.maxPoolSize - size
      else cfg.replicas
    else cfg.replicas
  }

  /** How many workers a health pass tries to add. */
  function Missing(cfg: ManagerConfig, healthy: nat, size: nat): (n: nat) {
    var wanted := cfg.replicas - healthy;
    var capped := if cfg.maxPoolSize > 0 && wanted > cfg.maxPoolSize - size then cfg.maxPoolSize - size else wanted;
    if capped < 0 then 0 else capped
  }

  /** The names whose spawn succeeded, of the first n. */
  function Spawned(names: seq<string>, succeeds: seq<bool>, n: nat): seq<string>
    requires n <= |names| && n <= |succeeds|
  {
    if n == 0 then [] else Spawned(names, succeeds, n - 1) + if succeeds[n - 1] then [names[n - 1]] else []
  }

  lemma SpawnedSnoc(names: seq<string>, succeeds: seq<bool>, n: nat)
    requires n < |names| && n < |succeeds|
    ensures Spawned(names, succeeds, n + 1)
         == if succeeds[n] then Spawned(names, succeeds, n) + [names[n]] else Spawned(names, succeeds, n)
  {
  }

  /** The names are new to the pool and differ from each other. */
  predicate FreshNames(names: seq<string>, workers: Table) {
    && (forall i :: 0 <= i < |names| ==> names[i] !in workers)
    && (forall i, j :: 0 <= i < j < |names| ==> names[i] != names[j])
  }

  function AddAll(workers: Table, ids: seq<string>, alive: bool): Table {
    if ids == [] then workers
    else AddAll(workers, ids[..|ids| - 1], alive)[ids[|ids| - 1] := WorkerState(alive, 0)]
  }

  lemma AddAllSnoc(workers: Table, ids: seq<string>, id: string, alive: bool)
    ensures AddAll(workers, ids + [id], alive) == AddAll(workers, ids, alive)[id := WorkerState(alive, 0)]
  {
    assert (ids + [id])[..|ids|] == ids;
  }

  lemma {:induction false} AddAllTable(workers: Table, more: seq<string>, alive: bool)
    ensures forall id :: id in AddAll(workers, more, alive) <==> id in workers || id in more
    ensures forall id :: id in more ==> AddAll(workers, more, alive)[id] == WorkerState(alive, 0)
    ensures forall id :: id in workers && id !in more ==> AddAll(workers, more, alive)[id] == workers[id]
  {
    if more != [] {
      var last := |more| - 1;
      assert more == more[..last] + [more[last]];
      AddAllTable(workers, more[..last], alive);
    }
  }

  lemma HealthySnoc(ids: seq<string>, i: nat, workers: Table)
    requires i < |ids|
    ensures Healthy(ids[..i + 1], workers)
         == Healthy(ids[..i], workers) + if ids[i] in workers && workers[ids[i]].alive then [ids[i]] else []
  {
    assert ids[..i + 1] == ids[..i] + [ids[i]];
  }

  /** Adding many workers keeps the index exactly when all their names are new. */
  lemma AddAllKeepsIndexExactlyWhenFresh(ids: seq<string>, workers: Table, more: seq<string>, alive: bool)
    requires Indexed(ids, workers)
    ensures Indexed(ids + more, AddAll(workers, more, alive)) <==> FreshNames(more, workers)
  {
    AddAllTable(workers, more, alive);
    if FreshNames(more, workers) {
      assert forall i :: 0 <= i < |more| ==> more[i] in more;
    } else if i :| 0 <= i < |more| && more[i] in workers {
      var k :| 0 <= k < |ids| && ids[k] == more[i];
      assert (ids + more)[k] == (ids + more)[|ids| + i];
    } else {
      var i, j :| 0 <= i < j < |more| && more[i] == more[j];
      assert (ids + more)[|ids| + i] == (ids + more)[|ids| + j];
    }
  }

  lemma {:induction false} SpawnedIsFresh(names: seq<string>, succeeds: seq<bool>, n: nat, workers: Table)
    requires n <= |names| && n <= |succeeds| && FreshNames(names, workers)
    ensures FreshNames(Spawned(names, succeeds, n), workers)
    ensures forall id :: id in Spawned(names, succeeds, n) ==> id in names[..n]
  {
    if n > 0 {
      SpawnedIsFresh(names, succeeds, n - 1, workers);
      var front := Spawned(names, succeeds, n - 1);
      forall j | 0 <= j < |front|
        ensures front[j] != names[n - 1]
      {
        assert front[j] in front;
      }
    }
  }

  function InstanceIds(prefix: string, n: nat): seq<string> {
    seq(n, i requires 0 <= i < n => InstanceId(prefix, i))
  }

  lemma InstanceIdsAreFresh(prefix: string, n: nat)
    ensures FreshNames(InstanceIds(prefix, n), map[])
  {
    forall i, j | 0 <= i < j < n
      ensures InstanceIds(prefix, n)[i] != InstanceIds(prefix, n)[j]
    {
      InstanceIdsDistinct(prefix, i, j);
    }
  }

  /** How many of the first count spawns succeed before one fails. */
  function Successes(succeeds: seq<bool>, count: int): (n: nat)
    requires count <= |succeeds|
    ensures count > 0 ==> n <= count
    ensures count <= 0 ==> n == 0
    ensures forall i :: 0 <= i < n ==> succeeds[i]
    ensures n < count ==> !succeeds[n]
  {
    if count <= 0 then 0
    else
      var before := Successes(succeeds, count - 1);
      if before == count - 1 && succeeds[count - 1] then count else before
  }

  lemma {:induction false} AllHealthy(ids: seq<string>, workers: Table)
    requires forall id :: id in ids ==> id in workers && workers[id].alive
    ensures Healthy(ids, workers) == ids
  {
    if ids != [] {
      assert ids == ids[..|ids| - 1] + [ids[|ids| - 1]];
      AllHealthy(ids[..|ids| - 1], workers);
    }
  }

  // ---- The manager's calls, as functions of the pool ----

  function AddedTo(s: State, names: seq<string>, alive: bool): State {
    s.(ids := s.ids + names, workers := AddAll(s.workers, names, alive))
  }

  /** SpawnWorkers: instances are started in order until one fails or the count is reached. */
  function StartedNames(s: State, cfg: ManagerConfig, prefix: string, succeeds: seq<bool>): seq<string>
    requires InitialCount(cfg, |s.ids|) <= |succeeds|
  {
    InstanceIds(prefix, Successes(succeeds, InitialCount(cfg, |s.ids|)))
  }

  /** ReplaceWorker: a failed spawn leaves the pool without the old worker and without a new one. */
  function AfterReplace(s: State, workerID: string, newID: string, spawns: bool): State {
    if workerID !in s.workers then s
    else
      var left := AfterRemove(s, workerID);
      if spawns then AfterAdd(left, newID, s.workers[workerID].alive) else left
  }

  function Living(workers: Table): Table {
    map id | id in workers && workers[id].alive :: workers[id]
  }

  /** Only the workers that are alive. */
  function AfterPurge(s: State): State {
    s.(ids := HealthyOf(s), workers := Living(s.workers))
  }

  /** The workers that EnsureReplicas manages to spawn; none without a base configuration. */
  function Replenished(s: State, cfg: ManagerConfig, base: Option<bool>, names: seq<string>, succeeds: seq<bool>): seq<string>
    requires base.Some? ==> Needed(s, cfg) <= |names| && Needed(s, cfg) <= |succeeds|
  {
    if base.None? then [] else Spawned(names, succeeds, Needed(s, cfg))
  }

  function Needed(s: State, cfg: ManagerConfig): nat {
    Missing(cfg, |HealthyOf(s)|, |s.ids|)
  }

  function AfterEnsure(s: State, cfg: ManagerConfig, base: Option<bool>, names: seq<string>, succeeds: seq<bool>): State
    requires base.Some? ==> Needed(s, cfg) <= |names| && Needed(s, cfg) <= |succeeds|
  {
    AddedTo(s, Replenished(s, cfg, base, names, succeeds), base.Some? && base.value)
  }

  // ---- Any sequence of calls ----

  datatype Call =
    | Spawn(prefix: string, alive: bool, succeeds: seq<bool>)
    | Replace(workerID: string, newID: string, spawns: bool)
    | Health(base: Option<bool>, names: seq<string>, succeeds: seq<bool>)
    | Change(id: string, alive: bool)     // a worker comes to life or dies

  predicate Enabled(s: State, cfg: ManagerConfig, c: Call) {
    match c
    case Spawn(_, _, succeeds) => InitialCount(cfg, |s.ids|) <= |succeeds|
    case Health(base, names, succeeds) =>
      var p := AfterPurge(s);
      base.Some? ==> Needed(p, cfg) <= |names| && Needed(p, cfg) <= |succeeds|
    case _ => true
  }

  function After(s: State, cfg: ManagerConfig, c: Call): State
    requires Enabled(s, cfg, c)
  {
    match c
    case Spawn(prefix, alive, succeeds) => AddedTo(s, StartedNames(s, cfg, prefix, succeeds), alive)
    case Replace(workerID, newID, spawns) => AfterReplace(s, workerID, newID, spawns)
    case Health(base, names, succeeds) => AfterEnsure(AfterPurge(s), cfg, base, names, succeeds)
    case Change(id, alive) => AfterUpdate(s, id, alive)
  }

  /** The names under which the call adds workers are new to the pool and differ. */
  predicate Fresh(s: State, cfg: ManagerConfig, c: Call)
    requires Enabled(s, cfg, c)
  {
    match c
    case Spawn(prefix, _, succeeds) => FreshNames(StartedNames(s, cfg, prefix, succeeds), s.workers)
    case Replace(workerID, newID, spawns) =>
      workerID in s.workers && spawns ==> newID == workerID || newID !in s.workers
    case Health(base, names, succeeds) =>
      var p := AfterPurge(s);
      FreshNames(Replenished(p, cfg, base, names, succeeds), p.workers)
    case Change(_, _) => true
  }

  ghost predicate IndexedState(s: State) {
    Indexed(s.ids, s.workers)
  }

  predicate WithinCap(s: State, cfg: ManagerConfig) {
    cfg.maxPoolSize > 0 ==> |s.ids| <= cfg.maxPoolSize
  }

  lemma PurgeKeepsIndex(s: State)
    requires IndexedState(s)
    ensures var p := AfterPurge(s); IndexedState(p) && HealthyOf(p) == p.ids && |p.ids| <= |s.ids|
  {
    HealthyMeans(s.ids, s.workers);
    HealthyIsDistinct(s.ids, s.workers);
    var p := AfterPurge(s);
    AllHealthy(p.ids, p.workers);
  }

  lemma ReplaceKeepsIndex(s: State, workerID: string, newID: string, spawns: bool)
    requires IndexedState(s)
    ensures var n := AfterReplace(s, workerID, newID, spawns);
            && (IndexedState(n) <==> (workerID in s.workers && spawns ==> newID == workerID || newID !in s.workers))
            && |n.ids| == |s.ids| - if workerID in s.workers && !spawns then 1 else 0
  {
    if workerID in s.workers {
      RemoveKeepsIndex(s.ids, s.workers, workerID);
      var left := AfterRemove(s, workerID);
      AddKeepsIndex(left.ids, left.workers, newID, s.workers[workerID].alive);
    }
  }

  /** A call keeps the list an enumeration of the map if and only if its names are fresh. */
  lemma CallKeepsIndexExactlyWhenFresh(s: State, cfg: ManagerConfig, c: Call)
    requires Enabled(s, cfg, c) && IndexedState(s)
    ensures IndexedState(After(s, cfg, c)) <==> Fresh(s, cfg, c)
  {
    match c
    case Spawn(prefix, alive, succeeds) =>
      AddAllKeepsIndexExactlyWhenFresh(s.ids, s.workers, StartedNames(s, cfg, prefix, succeeds), alive);
    case Replace(workerID, newID, spawns) =>
      ReplaceKeepsIndex(s, workerID, newID, spawns);
    case Health(base, names, succeeds) =>
      PurgeKeepsIndex(s);
      var p := AfterPurge(s);
      AddAllKeepsIndexExactlyWhenFresh(p.ids, p.workers, Replenished(p, cfg, base, names, succeeds), base.Some? && base.value);
    case Change(id, alive) =>
  }

  /** Spawning is fresh exactly while the pool has none of the names it starts: a second spawning of a pool is not. */
  lemma SpawnIsFreshExactlyWhenUnused(s: State, cfg: ManagerConfig, prefix: string, alive: bool, succeeds: seq<bool>)
    requires InitialCount(cfg, |s.ids|) <= |succeeds|
    ensures Fresh(s, cfg, Spawn(prefix, alive, succeeds)) <==>
              forall i :: 0 <= i < Successes(succeeds, InitialCount(cfg, |s.ids|)) ==> InstanceId(prefix, i) !in s.workers
  {
    var n := Successes(succeeds, InitialCount(cfg, |s.ids|));
    InstanceIdsAreFresh(prefix, n);
    assert forall i :: 0 <= i < n ==> InstanceIds(prefix, n)[i] == InstanceId(prefix, i);
  }

  /** A health pass that is offered fresh names uses fresh names, whichever spawns fail. */
  lemma HealthIsFreshUnderFreshNames(s: State, cfg: ManagerConfig, base: Option<bool>, names: seq<string>, succeeds: seq<bool>)
    requires Enabled(s, cfg, Health(base, names, succeeds)) && FreshNames(names, AfterPurge(s).workers)
    ensures Fresh(s, cfg, Health(base, names, succeeds))
  {
    if base.Some? {
      SpawnedIsFresh(names, succeeds, Needed(AfterPurge(s), cfg), AfterPurge(s).workers);
    }
  }

  /** A call never takes the pool beyond its cap. */
  lemma CallKeepsCap(s: State, cfg: ManagerConfig, c: Call)
    requires Enabled(s, cfg, c) && IndexedState(s) && WithinCap(s, cfg)
    ensures WithinCap(After(s, cfg, c), cfg)
  {
    match c
    case Spawn(prefix, alive, succeeds) =>
    case Replace(workerID, newID, spawns) =>
      ReplaceKeepsIndex(s, workerID, newID, spawns);
    case Health(base, names, succeeds) =>
      PurgeKeepsIndex(s);
      var p := AfterPurge(s);
      if base.Some? {
        SpawnedIsShort(names, succeeds, Needed(p, cfg));
      }
    case Change(id, alive) =>
  }

  lemma {:induction false} SpawnedIsShort(names: seq<string>, succeeds: seq<bool>, n: nat)
    requires n <= |names| && n <= |succeeds|
    ensures |Spawned(names, succeeds, n)| <= n
    ensures |Spawned(names, succeeds, n)| == n <==> forall i :: 0 <= i < n ==> succeeds[i]
  {
    if n > 0 {
      SpawnedIsShort(names, succeeds, n - 1);
    }
  }

  predicate Run(s: State, cfg: ManagerConfig, calls: seq<Call>)
    decreases |calls|
  {
    calls == [] || (Enabled(s, cfg, calls[0]) && Run(After(s, cfg, calls[0]), cfg, calls[1..]))
  }

  function End(s: State, cfg: ManagerConfig, calls: seq<Call>): State
    requires Run(s, cfg, calls)
    decreases |calls|
  {
    if calls == [] then s else End(After(s, cfg, calls[0]), cfg, calls[1..])
  }

  predicate AlwaysFresh(s: State, cfg: ManagerConfig, calls: seq<Call>)
    requires Run(s, cfg, calls)
    decreases |calls|
  {
    calls != [] ==> Fresh(s, cfg, calls[0]) && AlwaysFresh(After(s, cfg, calls[0]), cfg, calls[1..])
  }

  lemma {:induction false} RunKeepsIndexAndCap(s: State, cfg: ManagerConfig, calls: seq<Call>)
    requires Run(s, cfg, calls) && AlwaysFresh(s, cfg, calls) && IndexedState(s) && WithinCap(s, cfg)
    ensures IndexedState(End(s, cfg, calls)) && WithinCap(End(s, cfg, calls), cfg)
    decreases |calls|
  {
    if calls != [] {
      CallKeepsIndexExactlyWhenFresh(s, cfg, calls[0]);
      CallKeepsCap(s, cfg, calls[0]);
      RunKeepsIndexAndCap(After(s, cfg, calls[0]), cfg, calls[1..]);
    }
  }

  /**
   A registered pool, through any spawns, replacements, health passes and
   deaths of workers: while names are fresh its list names each worker of its
   map once, and a positive cap is never exceeded.
   */
  lemma RegisteredPoolStaysIndexedAndCapped(raw: ManagerConfig, strategy: Strategy, calls: seq<Call>)
    requires Run(Registered(strategy), NormalizeConfig(raw), calls)
    requires AlwaysFresh(Registered(strategy), NormalizeConfig(raw), calls)
    ensures var e := End(Registered(strategy), NormalizeConfig(raw), calls);
            && Indexed(e.ids, e.workers)
            && (raw.maxPoolSize > 0 ==> |e.ids| <= raw.maxPoolSize)
  {
    RunKeepsIndexAndCap(Registered(strategy), NormalizeConfig(raw), calls);
  }

  /** The pool that RegisterPool makes. */
  function Registered(strategy: Strategy): State {
    State([], map[], 0, strategy)
  }

  /** Only living workers are left, the survivors as they were. */
  lemma HealthPassLeavesLiving(s: State, cfg: ManagerConfig, names: seq<string>, succeeds: seq<bool>)
    requires var c := Health(Some(true), names, succeeds); Enabled(s, cfg, c) && Fresh(s, cfg, c)
    ensures var e := After(s, cfg, Health(Some(true), names, succeeds));
            && (forall id :: id in e.workers ==> e.workers[id].alive)
            && (forall id :: id in s.workers && s.workers[id].alive ==> id in e.workers && e.workers[id] == s.workers[id])
  {
    var p := AfterPurge(s);
    var added := Spawned(names, succeeds, Needed(p, cfg));
    AddAllTable(p.workers, added, true);
    assert forall id :: id in added ==> id !in p.workers;
    hide AddAll;
    hide Healthy;
  }

  /**
   A health pass under a running base configuration whose spawns succeed leaves
   only living workers, the survivors as they were, and as many as survived or
   as the replicas within the cap, whichever is more.
   */
  lemma HealthPassRestoresReplicas(s: State, raw: ManagerConfig, names: seq<string>, succeeds: seq<bool>)
    requires var c := Health(Some(true), names, succeeds);
             Enabled(s, NormalizeConfig(raw), c) && Fresh(s, NormalizeConfig(raw), c)
    requires IndexedState(s) && forall i :: 0 <= i < |succeeds| ==> succeeds[i]
    ensures var cfg := NormalizeConfig(raw);
            var e := After(s, cfg, Health(Some(true), names, succeeds));
            var target := if cfg.maxPoolSize > 0 && cfg.maxPoolSize < cfg.replicas then cfg.maxPoolSize else cfg.replicas;
            && (forall id :: id in e.workers ==> e.workers[id].alive)
            && (forall id :: id in s.workers && s.workers[id].alive ==> id in e.workers && e.workers[id] == s.workers[id])
            && |e.ids| == if |HealthyOf(s)| > target then |HealthyOf(s)| else target
  {
    HealthPassLeavesLiving(s, NormalizeConfig(raw), names, succeeds);
    HealthPassSize(s, NormalizeConfig(raw), names, succeeds);
    hide After;
    hide Fresh;
    hide Enabled;
  }

  lemma HealthPassSize(s: State, cfg: ManagerConfig, names: seq<string>, succeeds: seq<bool>)
    requires Enabled(s, cfg, Health(Some(true), names, succeeds))
    requires IndexedState(s) && forall i :: 0 <= i < |succeeds| ==> succeeds[i]
    ensures var e := After(s, cfg, Health(Some(true), names, succeeds));
            var target := if cfg.maxPoolSize > 0 && cfg.maxPoolSize < cfg.replicas then cfg.maxPoolSize else cfg.replicas;
            |e.ids| == if |HealthyOf(s)| > target then |HealthyOf(s)| else target
  {
    PurgeKeepsIndex(s);
    SpawnedIsShort(names, succeeds, Needed(AfterPurge(s), cfg));
    hide Spawned;
    hide Healthy;
    hide AddAll;
    hide Indexed;
  }

  // ---- Calls in full ----

  /** How many workers a spawning starts: the replicas, or what the cap leaves. */
  lemma InitialCountInFull(cfg: ManagerConfig, size: nat)
    ensures NormalizeConfig(cfg).replicas == (if cfg.replicas <= 0 then 1 else cfg.replicas)
    ensures NormalizeConfig(cfg).maxPoolSize == cfg.maxPoolSize
    ensures cfg.maxPoolSize <= 0 ==> InitialCount(cfg, size) == cfg.replicas
    ensures 0 < cfg.maxPoolSize <= size ==> InitialCount(cfg, size) == 0
    ensures size < cfg.maxPoolSize ==>
              InitialCount(cfg, size) == if size + cfg.replicas <= cfg.maxPoolSize then cfg.replicas else cfg.maxPoolSize - size
  {
  }

  lemma NamesAppended(ids: seq<string>, prefix: string, count: nat)
    ensures var all := ids + InstanceIds(prefix, count);
            && |all| == |ids| + count && all[..|ids|] == ids
            && (forall i :: 0 <= i < count ==> all[|ids| + i] == if i == 0 then prefix else prefix + "-" + Decimal(i))
            && (forall i :: |ids| <= i < |all| ==> all[i] in InstanceIds(prefix, count))
  {
    var names := InstanceIds(prefix, count);
    var all := ids + names;
    forall i | |ids| <= i < |all|
      ensures all[i] in names
    {
      assert all[i] == names[i - |ids|];
    }
    forall i | 0 <= i < count
      ensures all[|ids| + i] == if i == 0 then prefix else prefix + "-" + Decimal(i)
    {
      assert all[|ids| + i] == names[i];
      InstancesInLetters(prefix, i);
    }
  }

  /** Adding the first count instances to a pool. */
  lemma InstancesAdded(s: State, prefix: string, count: nat, alive: bool)
    ensures var n := AddedTo(s, InstanceIds(prefix, count), alive);
            && |n.ids| == |s.ids| + count && n.ids[..|s.ids|] == s.ids
            && (forall i :: 0 <= i < count ==> n.ids[|s.ids| + i] == if i == 0 then prefix else prefix + "-" + Decimal(i))
            && (forall i :: |s.ids| <= i < |n.ids| ==> n.ids[i] in n.workers && n.workers[n.ids[i]] == WorkerState(alive, 0))
  {
    AddAllTable(s.workers, InstanceIds(prefix, count), alive);
    NamesAppended(s.ids, prefix, count);
    hide AddAll;
    hide InstanceIds;
    hide Decimal;
  }

  lemma SpawnedAll(s: State, raw: ManagerConfig, prefix: string, alive: bool, succeeds: seq<bool>)
    requires var cfg := NormalizeConfig(raw); Enabled(s, cfg, Spawn(prefix, alive, succeeds))
    requires forall i :: 0 <= i < |succeeds| ==> succeeds[i]
    ensures var cfg := NormalizeConfig(raw); var count := InitialCount(cfg, |s.ids|);
            count >= 0 && After(s, cfg, Spawn(prefix, alive, succeeds)) == AddedTo(s, InstanceIds(prefix, count), alive)
  {
    var count := InitialCount(NormalizeConfig(raw), |s.ids|);
    assert count >= 0 && Successes(succeeds, count) == count;
    hide Successes;
    hide InstanceIds;
    hide AddedTo;
  }

  /** Successful spawns add exactly that many workers, in the state of the configuration and under the numbered names. */
  lemma SpawnInFull(s: State, raw: ManagerConfig, prefix: string, alive: bool, succeeds: seq<bool>)
    requires var cfg := NormalizeConfig(raw); Enabled(s, cfg, Spawn(prefix, alive, succeeds))
    requires forall i :: 0 <= i < |succeeds| ==> succeeds[i]
    ensures var cfg := NormalizeConfig(raw);
            var n, count := After(s, cfg, Spawn(prefix, alive, succeeds)), InitialCount(cfg, |s.ids|);
            && |n.ids| == |s.ids| + count && n.ids[..|s.ids|] == s.ids
            && (forall i :: 0 <= i < count ==> n.ids[|s.ids| + i] == if i == 0 then prefix else prefix + "-" + Decimal(i))
            && (forall i :: |s.ids| <= i < |n.ids| ==> n.ids[i] in n.workers && n.workers[n.ids[i]] == WorkerState(alive, 0))
  {
    SpawnedAll(s, raw, prefix, alive, succeeds);
    hide After;
    hide Enabled;
    hide AddedTo;
    hide InitialCount;
    hide InstanceIds;
    hide Decimal;
    InstancesAdded(s, prefix, InitialCount(NormalizeConfig(raw), |s.ids|), alive);
  }

  /** How many workers a health pass is short of: the replicas less the healthy, within what the cap leaves, and never fewer than none. */
  lemma MissingInFull(cfg: ManagerConfig, healthy: nat, size: nat)
    ensures cfg.replicas <= healthy ==> Missing(cfg, healthy, size) == 0
    ensures cfg.replicas > healthy && (cfg.maxPoolSize <= 0 || size + cfg.replicas - healthy <= cfg.maxPoolSize) ==>
              Missing(cfg, healthy, size) == cfg.replicas - healthy
    ensures cfg.replicas > healthy && 0 < cfg.maxPoolSize < size + cfg.replicas - healthy ==>
              Missing(cfg, healthy, size) == if cfg.maxPoolSize >= size then cfg.maxPoolSize - size else 0
  {
  }

  /** The workers that a health pass adds come last, in the state of the base configuration and without requests. */
  lemma HealthAddsInFull(s: State, cfg: ManagerConfig, alive: bool, names: seq<string>, succeeds: seq<bool>)
    requires Enabled(s, cfg, Health(Some(alive), names, succeeds))
    ensures var n := After(s, cfg, Health(Some(alive), names, succeeds)); var kept := HealthyOf(s);
            var added := Spawned(names, succeeds, Missing(cfg, |HealthyOf(AfterPurge(s))|, |kept|));
            && n.ids == kept + added
            && (forall id :: id in added ==> id in n.workers && n.workers[id] == WorkerState(alive, 0))
            && n.counter == s.counter
  {
    var p := AfterPurge(s);
    AddAllTable(p.workers, Spawned(names, succeeds, Needed(p, cfg)), alive);
    hide AddAll;
    hide Healthy;
    hide Spawned;
  }

  /** A health pass takes out exactly the dead, keeps the living as they were, and adds nothing without a base configuration. */
  lemma HealthKeepsExactlyTheLiving(s: State, cfg: ManagerConfig, base: Option<bool>, names: seq<string>, succeeds: seq<bool>, id: string)
    requires Enabled(s, cfg, Health(base, names, succeeds)) && id !in names
    ensures var n := After(s, cfg, Health(base, names, succeeds));
            && (id in n.workers <==> id in s.workers && s.workers[id].alive)
            && (id in n.workers ==> n.workers[id] == s.workers[id])
            && (base == None ==> n.ids == HealthyOf(s))
  {
    var p := AfterPurge(s);
    hide Healthy;
    hide Missing;
    if base.Some? {
      SpawnedAreOffered(names, succeeds, Needed(p, cfg));
      AddAllTable(p.workers, Spawned(names, succeeds, Needed(p, cfg)), base.value);
    } else {
      assert p.ids + [] == p.ids && AddAll(p.workers, [], false) == p.workers;
    }
    hide AddAll;
    hide Spawned;
  }

  lemma {:induction false} SpawnedAreOffered(names: seq<string>, succeeds: seq<bool>, n: nat)
    requires n <= |names| && n <= |succeeds|
    ensures forall id :: id in Spawned(names, succeeds, n) ==> id in names
  {
    if n > 0 {
      SpawnedAreOffered(names, succeeds, n - 1);
    }
  }

  /** A replacement takes the old worker out and puts a new one last, alive as the old one was and without requests. */
  lemma ReplaceInFull(s: State, workerID: string, newID: string, spawns: bool)
    ensures var n := AfterReplace(s, workerID, newID, spawns);
            if workerID !in s.workers then n == s
            else if !spawns then n == s.(ids := Without(s.ids, workerID), workers := s.workers - {workerID})
            else n == s.(ids := Without(s.ids, workerID) + [newID],
                         workers := (s.workers - {workerID})[newID := WorkerState(s.workers[workerID].alive, 0)])
  {
  }

  // ---- The manager itself ----

  method EnsureReplicas(pool: Pool, cfg: ManagerConfig, base: Option<bool>, names: seq<string>, succeeds: seq<bool>)
    requires base.Some? ==> Needed(pool.View(), cfg) <= |names| && Needed(pool.View(), cfg) <= |succeeds|
    modifies pool
    ensures pool.View() == AfterEnsure(old(pool.View()), cfg, base, names, succeeds)
  {
    if base.None? {
      return;
    }
    var healthy := pool.HealthyWorkers();
    ghost var need := Missing(cfg, |healthy|, |pool.workerIDs|);
    var spawnCount := cfg.replicas - |healthy|;
    if cfg.maxPoolSize > 0 {
      var maxAllowed := cfg.maxPoolSize - |pool.workerIDs|;
      if spawnCount > maxAllowed {
        spawnCount := maxAllowed;
      }
      if spawnCount < 0 {
        spawnCount := 0;
      }
    }
    assert need == if spawnCount < 0 then 0 else spawnCount;
    hide *;
    SpawnReplacements(pool, base.value, names, succeeds, if spawnCount < 0 then 0 else spawnCount);
  }

  /** The loop that starts one worker after another, passing over those that fail. */
  method SpawnReplacements(pool: Pool, alive: bool, names: seq<string>, succeeds: seq<bool>, count: nat)
    requires |names| >= count && |succeeds| >= count
    modifies pool
    ensures pool.View() == AddedTo(old(pool.View()), Spawned(names, succeeds, count), alive)
  {
    ghost var first, table := pool.workerIDs, pool.workers;
    assert first + [] == first && AddAll(table, [], alive) == table && Spawned(names, succeeds, 0) == [];
    hide *;
    for i := 0 to count
      modifies pool`workerIDs, pool`workers
      invariant pool.workerIDs == first + Spawned(names, succeeds, i)
      invariant pool.workers == AddAll(table, Spawned(names, succeeds, i), alive)
    {
      SpawnedSnoc(names, succeeds, i);
      if succeeds[i] {
        AddAllSnoc(table, Spawned(names, succeeds, i), names[i], alive);
        Associative(first, Spawned(names, succeeds, i), [names[i]]);
        pool.AddWorker(names[i], alive);
      }
    }
  }

  /** Taking out the first of what is still to be looked at. */
  lemma WithoutMiddle(front: seq<string>, id: string, rest: seq<string>)
    requires id !in front
    ensures Without(front + ([id] + rest), id) == front + rest
    ensures front + ([id] + rest) == (front + [id]) + rest
  {
    var all := front + ([id] + rest);
    assert all[..|front|] == front && all[|front| + 1..] == rest && all[|front|] == id;
    SpliceIsWithout(all, |front|, id);
  }

  /** Of the workers looked at so far, exactly the dead ones are gone, and nothing else changed. */
  ghost predicate Purged(workers: Table, table: Table, seen: seq<string>) {
    && (forall id :: id in workers <==> id in table && (id in seen ==> table[id].alive))
    && (forall id :: id in workers ==> workers[id] == table[id])
  }

  lemma PurgeStep(workers: Table, table: Table, ids: seq<string>, i: nat)
    requires i < |ids| && Indexed(ids, table) && Purged(workers, table, ids[..i])
    ensures ids[i] in table
    ensures Purged(if table[ids[i]].alive then workers else workers - {ids[i]}, table, ids[..i + 1])
  {
    assert ids[..i + 1] == ids[..i] + [ids[i]];
  }

  /** The list once the first i workers have been looked at. */
  function Remaining(ids: seq<string>, table: Table, i: nat): seq<string>
    requires i <= |ids|
  {
    Healthy(ids[..i], table) + ids[i..]
  }

  lemma RemainingEnds(ids: seq<string>, table: Table)
    ensures Remaining(ids, table, 0) == ids && Remaining(ids, table, |ids|) == Healthy(ids, table)
  {
    assert ids[..0] == [] && ids[0..] == ids && ids[..|ids|] == ids && ids[|ids|..] == [];
  }

  /** Looking at one more worker takes it out of the list if it is dead. */
  lemma RemainingStep(ids: seq<string>, table: Table, i: nat)
    requires Indexed(ids, table) && i < |ids|
    ensures ids[i] in table
    ensures Remaining(ids, table, i + 1)
         == if table[ids[i]].alive then Remaining(ids, table, i) else Without(Remaining(ids, table, i), ids[i])
  {
    var front := Healthy(ids[..i], table);
    assert ids[i] !in front by { HealthyMeans(ids[..i], table); }
    assert ids[i..] == [ids[i]] + ids[i + 1..];
    HealthySnoc(ids, i, table);
    hide Healthy;
    hide Without;
    WithoutMiddle(front, ids[i], ids[i + 1..]);
    assert front + [] == front;
    assert ids[i] in table;
  }

  /** The pool once the first i workers of s have been looked at. */
  ghost predicate PurgedUpTo(now: State, s: State, i: nat) {
    && i <= |s.ids|
    && Purged(now.workers, s.workers, s.ids[..i])
    && now == s.(ids := Remaining(s.ids, s.workers, i), workers := now.workers)
  }

  lemma PurgedNone(s: State)
    ensures PurgedUpTo(s, s, 0)
  {
    RemainingEnds(s.ids, s.workers);
  }

  lemma PurgedTable(workers: Table, table: Table, ids: seq<string>)
    requires Indexed(ids, table) && Purged(workers, table, ids)
    ensures workers == Living(table)
  {
  }

  lemma PurgedAll(now: State, s: State)
    requires Indexed(s.ids, s.workers) && PurgedUpTo(now, s, |s.ids|)
    ensures now == AfterPurge(s)
  {
    RemainingEnds(s.ids, s.workers);
    assert s.ids[..|s.ids|] == s.ids;
    PurgedTable(now.workers, s.workers, s.ids);
    hide Living;
    hide Purged;
    hide Indexed;
    hide Healthy;
  }

  /** Looks at one more worker. */
  method RemoveIfDead(pool: Pool, ghost s: State, ghost i: nat, id: string, alive: bool)
    requires Indexed(s.ids, s.workers) && PurgedUpTo(pool.View(), s, i) && i < |s.ids|
    requires id == s.ids[i] && id in s.workers && alive == s.workers[id].alive
    modifies pool`workerIDs, pool`workers
    ensures PurgedUpTo(pool.View(), s, i + 1)
  {
    PurgeStep(pool.workers, s.workers, s.ids, i);
    RemainingStep(s.ids, s.workers, i);
    hide Indexed;
    hide Without;
    hide Purged;
    hide Remaining;
    if !alive {
      pool.RemoveWorker(id);
    }
  }

  lemma ListedIsKnown(ids: seq<string>, table: Table, i: nat)
    requires Indexed(ids, table) && i < |ids|
    ensures ids[i] in table
  {
    assert ids[i] in ids;
  }

  /** Removes every worker that is not alive. */
  method RemoveDead(pool: Pool)
    requires pool.Valid()
    modifies pool
    ensures pool.View() == AfterPurge(old(pool.View()))
  {
    var ids, table := pool.workerIDs, pool.workers;
    ghost var s := pool.View();
    PurgedNone(s);
    hide Indexed;
    hide Healthy;
    hide HealthyOf;
    hide Remaining;
    hide Purged;
    hide PurgedUpTo;
    hide AfterPurge;
    hide Without;
    for i := 0 to |ids|
      invariant PurgedUpTo(pool.View(), s, i)
    {
      ListedIsKnown(ids, table, i);
      RemoveIfDead(pool, s, i, ids[i], table[ids[i]].alive);
    }
    PurgedAll(pool.View(), s);
  }

  /**
   A health pass over one pool: dead workers are removed and missing ones
   spawned. The list stays an enumeration if and only if the names used are
   fresh, and the pool never grows past its cap.
   */
  method MonitorHealth(pool: Pool, cfg: ManagerConfig, base: Option<bool>, names: seq<string>, succeeds: seq<bool>)
    requires pool.Valid() && Enabled(pool.View(), cfg, Health(base, names, succeeds))
    modifies pool
    ensures pool.View() == After(old(pool.View()), cfg, Health(base, names, succeeds))
    ensures pool.Valid() <==> Fresh(old(pool.View()), cfg, Health(base, names, succeeds))
    ensures cfg.maxPoolSize > 0 && |old(pool.workerIDs)| <= cfg.maxPoolSize ==> |pool.workerIDs| <= cfg.maxPoolSize
  {
    ghost var s, call := pool.View(), Health(base, names, succeeds);
    CallKeepsIndexExactlyWhenFresh(s, cfg, call);
    if WithinCap(s, cfg) {
      CallKeepsCap(s, cfg, call);
    }
    hide AfterPurge;
    hide AfterEnsure;
    hide Fresh;
    hide Indexed;
    RemoveDead(pool);
    EnsureReplicas(pool, cfg, base, names, succeeds);
  }

  datatype SpawnResult = Started | SpawnError | UnknownPool

  /** SpawnWorkers: both the configuration and the pool are looked up under the prefix. */
  method SpawnWorkers(pools: map<string, Pool>, configs: map<string, ManagerConfig>, prefix: string, alive: bool, succeeds: seq<bool>)
    returns (r: SpawnResult)
    requires prefix in configs && prefix in pools ==>
               InitialCount(configs[prefix], |pools[prefix].workerIDs|) <= |succeeds|
    modifies if prefix in configs && prefix in pools then {pools[prefix]} else {}
    ensures r == UnknownPool <==> prefix !in configs || prefix !in pools
    ensures prefix in configs && prefix in pools ==>
              var pool, cfg := pools[prefix], configs[prefix];
              var count := InitialCount(cfg, |old(pool.workerIDs)|);
              && (r == Started <==> Successes(succeeds, count) >= count)
              && pool.View() == After(old(pool.View()), cfg, Spawn(prefix, alive, succeeds))
              && (cfg.maxPoolSize > 0 && |old(pool.workerIDs)| <= cfg.maxPoolSize ==> |pool.workerIDs| <= cfg.maxPoolSize)
              && (old(pool.Valid()) ==> (pool.Valid() <==> Fresh(old(pool.View()), cfg, Spawn(prefix, alive, succeeds))))
  {
    if prefix !in configs || prefix !in pools {
      return UnknownPool;
    }
    hide *;
    var ok := SpawnInto(pools[prefix], prefix, configs[prefix], alive, succeeds);
    r := if ok then Started else SpawnError;
  }

  /** The spawning itself, once the pool and its configuration are known. */
  method SpawnInto(pool: Pool, prefix: string, cfg: ManagerConfig, alive: bool, succeeds: seq<bool>) returns (ok: bool)
    requires var count := InitialCount(cfg, |pool.workerIDs|); |succeeds| >= count
    modifies pool
    ensures var count := InitialCount(cfg, |old(pool.workerIDs)|);
            && (ok <==> Successes(succeeds, count) >= count)
            && pool.View() == After(old(pool.View()), cfg, Spawn(prefix, alive, succeeds))
    ensures cfg.maxPoolSize > 0 && |old(pool.workerIDs)| <= cfg.maxPoolSize ==> |pool.workerIDs| <= cfg.maxPoolSize
    ensures old(pool.Valid()) ==> (pool.Valid() <==> Fresh(old(pool.View()), cfg, Spawn(prefix, alive, succeeds)))
  {
    var count := cfg.replicas;
    var currentSize := |pool.workerIDs|;
    if cfg.maxPoolSize > 0 {
      if currentSize >= cfg.maxPoolSize {
        count := 0;
      } else {
        var maxAllowed := cfg.maxPoolSize - currentSize;
        if count > maxAllowed {
          count := maxAllowed;
        }
      }
    }
    ghost var s, call := pool.View(), Spawn(prefix, alive, succeeds);
    if pool.Valid() {
      CallKeepsIndexExactlyWhenFresh(s, cfg, call);
    }
    if WithinCap(s, cfg) {
      SpawnKeepsCap(s, cfg, prefix, alive, succeeds);
    }
    assert count == InitialCount(cfg, |s.ids|);
    hide InitialCount;
    hide InstanceIds;
    hide Successes;
    hide Fresh;
    hide Indexed;
    hide AddedTo;
    ok := SpawnInstances(pool, prefix, count, alive, succeeds);
  }

  lemma SpawnKeepsCap(s: State, cfg: ManagerConfig, prefix: string, alive: bool, succeeds: seq<bool>)
    requires InitialCount(cfg, |s.ids|) <= |succeeds| && WithinCap(s, cfg)
    ensures WithinCap(After(s, cfg, Spawn(prefix, alive, succeeds)), cfg)
  {
    InstanceIdsLength(prefix, Successes(succeeds, InitialCount(cfg, |s.ids|)));
  }

  lemma InstanceIdsLength(prefix: string, n: nat)
    ensures |InstanceIds(prefix, n)| == n
  {
  }

  lemma InstanceIdsSnoc(prefix: string, n: nat)
    ensures InstanceIds(prefix, n + 1) == InstanceIds(prefix, n) + [InstanceId(prefix, n)]
    ensures InstanceIds(prefix, 0) == []
  {
  }

  method NameInstance(prefix: string, i: nat) returns (instanceID: string)
    ensures instanceID == InstanceId(prefix, i)
  {
    instanceID := prefix;
    if i > 0 {
      var number := Itoa(i);
      instanceID := prefix + "-" + number;
    }
  }

  /** The pool with the first n instances started. */
  function WithInstances(s: State, prefix: string, n: nat, alive: bool): State {
    AddedTo(s, InstanceIds(prefix, n), alive)
  }

  lemma WithInstancesSnoc(s: State, prefix: string, n: nat, alive: bool)
    ensures WithInstances(s, prefix, 0, alive) == s
    ensures WithInstances(s, prefix, n + 1, alive) == AfterAdd(WithInstances(s, prefix, n, alive), InstanceId(prefix, n), alive)
  {
    InstanceIdsSnoc(prefix, n);
    AddAllSnoc(s.workers, InstanceIds(prefix, n), InstanceId(prefix, n), alive);
    Associative(s.ids, InstanceIds(prefix, n), [InstanceId(prefix, n)]);
    assert AddAll(s.workers, [], alive) == s.workers && s.ids + [] == s.ids;
  }

  /** The pool once i of the instances have been started, and no spawn has failed. */
  ghost predicate StartedUpTo(now: State, s: State, prefix: string, alive: bool, succeeds: seq<bool>, i: nat) {
    && now == WithInstances(s, prefix, i, alive)
    && i <= |succeeds| && forall k :: 0 <= k < i ==> succeeds[k]
  }

  lemma StartedNone(s: State, prefix: string, alive: bool, succeeds: seq<bool>)
    ensures StartedUpTo(s, s, prefix, alive, succeeds, 0)
  {
    WithInstancesSnoc(s, prefix, 0, alive);
  }

  lemma StartedOne(now: State, s: State, prefix: string, alive: bool, succeeds: seq<bool>, i: nat)
    requires StartedUpTo(now, s, prefix, alive, succeeds, i) && i < |succeeds| && succeeds[i]
    ensures StartedUpTo(AfterAdd(now, InstanceId(prefix, i), alive), s, prefix, alive, succeeds, i + 1)
  {
    WithInstancesSnoc(s, prefix, i, alive);
    hide WithInstances;
  }

  /** The loop stops at the first failure or at the count. */
  lemma StartedAll(now: State, s: State, prefix: string, alive: bool, succeeds: seq<bool>, i: nat, count: int)
    requires StartedUpTo(now, s, prefix, alive, succeeds, i) && |succeeds| >= count && (i <= count || i == 0)
    requires i < count ==> !succeeds[i]
    ensures now == AddedTo(s, InstanceIds(prefix, Successes(succeeds, count)), alive)
    ensures Successes(succeeds, count) >= count <==> i >= count
  {
    var n := Successes(succeeds, count);
    assert n == i;
  }

  /** The loop that starts count instances. */
  method SpawnInstances(pool: Pool, prefix: string, count: int, alive: bool, succeeds: seq<bool>) returns (ok: bool)
    requires |succeeds| >= count
    modifies pool
    ensures ok <==> Successes(succeeds, count) >= count
    ensures pool.View() == AddedTo(old(pool.View()), InstanceIds(prefix, Successes(succeeds, count)), alive)
  {
    ghost var s := pool.View();
    var i := 0;
    StartedNone(s, prefix, alive, succeeds);
    hide *;
    while i < count
      invariant 0 <= i && (i <= count || i == 0)
      invariant StartedUpTo(pool.View(), s, prefix, alive, succeeds, i)
    {
      if !succeeds[i] {
        StartedAll(pool.View(), s, prefix, alive, succeeds, i, count);
        return false;
      }
      var instanceID := NameInstance(prefix, i);
      StartedOne(pool.View(), s, prefix, alive, succeeds, i);
      pool.AddWorker(instanceID, alive);
      i := i + 1;
    }
    StartedAll(pool.View(), s, prefix, alive, succeeds, i, count);
    ok := true;
  }

  datatype ReplaceResult = Replaced | PoolNotFound | WorkerNotFound | SpawnFailed

  /** ReplaceWorker: the pool is looked up under the prefix cut from the name. */
  method ReplaceWorker(pools: map<string, Pool>, workerID: string, newID: string, spawns: bool) returns (r: ReplaceResult)
    modifies if PrefixOf(workerID) in pools then {pools[PrefixOf(workerID)]} else {}
    ensures r == PoolNotFound <==> PrefixOf(workerID) !in pools
    ensures PrefixOf(workerID) in pools ==>
              var pool := pools[PrefixOf(workerID)];
              && (r == WorkerNotFound <==> workerID !in old(pool.workers))
              && (r == SpawnFailed <==> workerID in old(pool.workers) && !spawns)
              && pool.View() == AfterReplace(old(pool.View()), workerID, newID, spawns)
              && (old(pool.Valid()) ==>
                    && |pool.workerIDs| == |old(pool.workerIDs)| - (if r == SpawnFailed then 1 else 0)
                    && (pool.Valid() <==> (r == Replaced ==> newID == workerID || newID !in old(pool.workers))))
  {
    var prefix := ExtractPrefix(workerID);
    if prefix !in pools {
      return PoolNotFound;
    }
    var pool := pools[prefix];
    if pool.Valid() {
      ReplaceKeepsIndex(pool.View(), workerID, newID, spawns);
    }
    hide Indexed;
    hide Without;
    if workerID !in pool.workers {
      return WorkerNotFound;
    }
    var oldWorker := pool.workers[workerID];
    pool.RemoveWorker(workerID);
    if !spawns {
      return SpawnFailed;
    }
    pool.AddWorker(newID, oldWorker.alive);
    r := Replaced;
  }
}
