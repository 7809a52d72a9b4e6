/**
 A pool of worker instances: an insertion-ordered list of names beside a map of
 states, two ways of choosing among the healthy ones, and the requests that are
 counted for each worker.
 */
module WorkerPool {
  import opened Wrappers
  import opened Lists
  import opened Selection

  datatype WorkerState = WorkerState(alive: bool, active: int)
  type Table = map<string, WorkerState>

  // ---- The list and the map ----

  /** The list names each worker of the map once and nothing else. */
  ghost predicate Indexed(ids: seq<string>, workers: Table) {
    && (forall id :: id in ids <==> id in workers)
    && NoDuplicates(ids)
  }

  /** The workers in the list that are alive, in its order. */
  function Healthy(ids: seq<string>, workers: Table): seq<string> {
    if ids == [] then []
    else
      Healthy(ids[..|ids| - 1], workers)
      + var id := ids[|ids| - 1]; if id in workers && workers[id].alive then [id] else []
  }

  /** Adding a worker keeps the index exactly when its name is new. */
  lemma AddKeepsIndex(ids: seq<string>, workers: Table, id: string, alive: bool)
    requires Indexed(ids, workers)
    ensures Indexed(ids + [id], workers[id := WorkerState(alive, 0)]) <==> id !in workers
  {
    var more := ids + [id];
    if id in workers {
      var i :| 0 <= i < |ids| && ids[i] == id;
      assert more[i] == more[|ids|];
    }
  }

  lemma RemoveKeepsIndex(ids: seq<string>, workers: Table, id: string)
    requires Indexed(ids, workers)
    ensures Indexed(Without(ids, id), workers - {id})
    ensures |Without(ids, id)| == |ids| - if id in workers then 1 else 0
  {
    WithoutMeans(ids, id);
  }

  lemma {:induction false} HealthyMeans(ids: seq<string>, workers: Table)
    ensures forall x :: x in Healthy(ids, workers) <==> x in ids && x in workers && workers[x].alive
    ensures |Healthy(ids, workers)| <= |ids|
  {
    if ids != [] {
      HealthyMeans(ids[..|ids| - 1], workers);
      assert ids == ids[..|ids| - 1] + [ids[|ids| - 1]];
    }
  }

  lemma {:induction false} HealthyIsDistinct(ids: seq<string>, workers: Table)
    requires NoDuplicates(ids)
    ensures NoDuplicates(Healthy(ids, workers))
  {
    if ids != [] {
      var front := ids[..|ids| - 1];
      assert ids == front + [ids[|ids| - 1]];
      HealthyIsDistinct(front, workers);
      HealthyMeans(front, workers);
      assert forall x :: x in Healthy(front, workers) ==> x in front;
    }
  }

  /** Who is healthy depends on the names and on who is alive alone. */
  lemma {:induction false} HealthyIgnoresCounts(ids: seq<string>, before: Table, after: Table)
    requires before.Keys == after.Keys && forall id :: id in before ==> before[id].alive == after[id].alive
    ensures Healthy(ids, before) == Healthy(ids, after)
  {
    if ids != [] {
      HealthyIgnoresCounts(ids[..|ids| - 1], before, after);
    }
  }

  // ---- The pool ----

  datatype Strategy = RoundRobin | LeastLoaded

  datatype State = State(ids: seq<string>, workers: Table, counter: nat, strategy: Strategy)

  /** The candidates that the map still holds. */
  function Present(candidates: seq<string>, workers: Table): seq<string> {
    if candidates == [] then []
    else
      Present(candidates[..|candidates| - 1], workers)
      + var id := candidates[|candidates| - 1]; if id in workers then [id] else []
  }

  function Loads(ids: seq<string>, workers: Table): seq<int> {
    seq(|ids|, i requires 0 <= i < |ids| => if ids[i] in workers then workers[ids[i]].active else 0)
  }

  /** The candidate with the fewest active requests; the first candidate when the map has lost them all. */
  function LeastLoadedOf(candidates: seq<string>, workers: Table): string
    requires candidates != []
  {
    var present := Present(candidates, workers);
    var s := ScanLoads(Loads(present, workers));
    if s.at.Some? && s.at.value < |present| then present[s.at.value] else candidates[0]
  }

  lemma {:induction false} PresentAll(candidates: seq<string>, workers: Table)
    requires forall id :: id in candidates ==> id in workers
    ensures Present(candidates, workers) == candidates
  {
    if candidates != [] {
      assert candidates == candidates[..|candidates| - 1] + [candidates[|candidates| - 1]];
      PresentAll(candidates[..|candidates| - 1], workers);
    }
  }

  // ---- The operations, as functions of the pool ----

  function AfterAdd(s: State, id: string, alive: bool): State {
    s.(ids := s.ids + [id], workers := s.workers[id := WorkerState(alive, 0)])
  }

  function AfterRemove(s: State, id: string): State {
    s.(ids := Without(s.ids, id), workers := s.workers - {id})
  }

  function AfterUpdate(s: State, id: string, alive: bool): State {
    if id in s.workers then s.(workers := s.workers[id := s.workers[id].(alive := alive)]) else s
  }

  /** The requests counted for a known worker change by delta. */
  function AfterCount(s: State, id: string, delta: int): State {
    if id in s.workers
    then s.(workers := s.workers[id := s.workers[id].(active := s.workers[id].active + delta)])
    else s
  }

  function HealthyOf(s: State): seq<string> {
    Healthy(s.ids, s.workers)
  }

  /** None when nobody is healthy, else the cycle's turn or the least loaded. */
  function Selected(s: State): Option<string> {
    var healthy := HealthyOf(s);
    if healthy == [] then None
    else if s.strategy == LeastLoaded then Some(LeastLoadedOf(healthy, s.workers))
    else Some(healthy[s.counter % |healthy|])
  }

  function AfterAdvance(s: State): State {
    s.(counter := s.counter + 1)
  }

  /** A selection that nothing comes between. */
  function AfterSelect(s: State): State {
    if HealthyOf(s) != [] && s.strategy == RoundRobin then AfterAdvance(s) else s
  }

  function LoadsOf(s: State): seq<int> {
    Loads(HealthyOf(s), s.workers)
  }

  lemma LoadsOfKnown(candidates: seq<string>, workers: Table)
    requires forall id :: id in candidates ==> id in workers
    ensures |Loads(candidates, workers)| == |candidates|
    ensures forall k :: 0 <= k < |candidates| ==>
              candidates[k] in workers && Loads(candidates, workers)[k] == workers[candidates[k]].active
  {
    forall k | 0 <= k < |candidates|
      ensures candidates[k] in workers
    {
      assert candidates[k] in candidates;
    }
  }

  /** Of known candidates the scan of their loads stops at the least loaded one. */
  lemma LeastLoadedIsScanned(candidates: seq<string>, workers: Table)
    requires candidates != [] && forall id :: id in candidates ==> id in workers
    ensures var at := ScanLoads(Loads(candidates, workers)).at;
            at.Some? && at.value < |candidates| && LeastLoadedOf(candidates, workers) == candidates[at.value]
  {
    LoadsOfKnown(candidates, workers);
    PresentAll(candidates, workers);
    hide Present;
    hide Loads;
    ScanTakesALoad(Loads(candidates, workers));
    hide ScanLoads;
  }

  /** Least-loaded selection takes the healthy worker at which the scan of the loads stops. */
  lemma SelectedIsScanned(s: State)
    requires s.strategy == LeastLoaded && HealthyOf(s) != []
    ensures var healthy, at := HealthyOf(s), ScanLoads(LoadsOf(s)).at;
            && at.Some? && at.value < |healthy| && Selected(s) == Some(healthy[at.value])
            && (forall k :: 0 <= k < |healthy| ==> healthy[k] in s.workers && LoadsOf(s)[k] == s.workers[healthy[k]].active)
  {
    HealthyMeans(s.ids, s.workers);
    hide Healthy;
    hide ScanLoads;
    hide Loads;
    hide LeastLoadedOf;
    LoadsOfKnown(HealthyOf(s), s.workers);
    LeastLoadedIsScanned(HealthyOf(s), s.workers);
  }

  // ---- Operations in full ----

  /** Who is healthy, one name after the other. */
  lemma HealthyInFull(ids: seq<string>, id: string, workers: Table)
    ensures Healthy([], workers) == []
    ensures Healthy(ids + [id], workers) == Healthy(ids, workers) + if id in workers && workers[id].alive then [id] else []
  {
    assert (ids + [id])[..|ids|] == ids;
  }

  /** What adding, updating and counting do to one worker and to all others; the list changes by an add or a removal alone. */
  lemma ChangesInFull(s: State, id: string, alive: bool, delta: int)
    ensures AfterAdd(s, id, alive) == s.(ids := s.ids + [id], workers := s.workers[id := WorkerState(alive, 0)])
    ensures AfterRemove(s, id).workers == s.workers - {id}
    ensures id !in s.workers ==> AfterUpdate(s, id, alive) == s && AfterCount(s, id, delta) == s
    ensures id in s.workers ==>
              var w := s.workers[id];
              && AfterUpdate(s, id, alive) == s.(workers := s.workers[id := WorkerState(alive, w.active)])
              && AfterCount(s, id, delta) == s.(workers := s.workers[id := WorkerState(w.alive, w.active + delta)])
  {
  }

  /** Round robin takes the healthy worker whose turn the counter says; least loaded leaves the counter alone. */
  lemma SelectionInFull(s: State)
    ensures HealthyOf(s) == [] ==> Selected(s) == None && AfterSelect(s) == s
    ensures HealthyOf(s) != [] && s.strategy == RoundRobin ==>
              Selected(s) == Some(HealthyOf(s)[s.counter % |HealthyOf(s)|]) && AfterSelect(s) == s.(counter := s.counter + 1)
    ensures HealthyOf(s) != [] && s.strategy == LeastLoaded ==> AfterSelect(s) == s
  {
  }

  // ---- The pool itself ----

  class Pool {
    const strategy: Strategy
    var workers: Table
    var workerIDs: seq<string>
    var counter: nat

    ghost predicate Valid()
      reads this
    {
      Indexed(workerIDs, workers)
    }

    function View(): State
      reads this
    {
      State(workerIDs, workers, counter, strategy)
    }

    constructor (s: Strategy)
      ensures Valid() && View() == State([], map[], 0, s)
    {
      strategy, workers, workerIDs, counter := s, map[], [], 0;
    }

    method AddWorker(id: string, alive: bool)
      modifies `workers, `workerIDs
      ensures View() == AfterAdd(old(View()), id, alive)
    {
      workers := workers[id := WorkerState(alive, 0)];
      workerIDs := workerIDs + [id];
    }

    method RemoveWorker(id: string)
      modifies `workers, `workerIDs
      ensures View() == AfterRemove(old(View()), id)
    {
      workers := workers - {id};
      workerIDs := Splice(workerIDs, id);
    }

    method HealthyWorkers() returns (healthy: seq<string>)
      ensures healthy == Healthy(workerIDs, workers)
    {
      healthy := [];
      for i := 0 to |workerIDs|
        invariant healthy == Healthy(workerIDs[..i], workers)
      {
        var id := workerIDs[i];
        assert workerIDs[..i + 1][..i] == workerIDs[..i];
        if id in workers && workers[id].alive {
          healthy := healthy + [id];
        }
      }
      assert workerIDs[..|workerIDs|] == workerIDs;
    }

    method UpdateWorker(id: string, alive: bool)
      modifies `workers
      ensures View() == AfterUpdate(old(View()), id, alive)
    {
      if id in workers {
        workers := workers[id := workers[id].(alive := alive)];
      }
    }

    method SelectWorker() returns (selected: Option<string>)
      modifies `counter
      ensures selected == Selected(old(View())) && View() == AfterSelect(old(View()))
    {
      var healthy := HealthyWorkers();
      if |healthy| == 0 {
        return None;
      }
      match strategy {
        case LeastLoaded =>
          var id := SelectLeastLoaded(healthy);
          selected := Some(id);
        case RoundRobin =>
          selected := Some(healthy[counter % |healthy|]);
          counter := counter + 1;
      }
    }

    method SelectLeastLoaded(candidates: seq<string>) returns (selected: string)
      requires candidates != []
      ensures selected == LeastLoadedOf(candidates, workers)
    {
      var found: Option<string> := None;
      var minReqs := -1;
      ghost var present: seq<string> := [];
      for i := 0 to |candidates|
        invariant present == Present(candidates[..i], workers)
        invariant var s := ScanLoads(Loads(present, workers));
                  && minReqs == s.min
                  && (if found.None? then s.at == None
                      else s.at.Some? && s.at.value < |present| && present[s.at.value] == found.value)
      {
        var id := candidates[i];
        assert candidates[..i + 1][..i] == candidates[..i];
        if id in workers {
          ghost var more := present + [id];
          assert Loads(more, workers)[..|present|] == Loads(present, workers);
          assert Loads(more, workers)[|present|] == workers[id].active;
          var reqs := workers[id].active;
          if minReqs == -1 || reqs < minReqs {
            minReqs := reqs;
            found := Some(id);
          }
          present := more;
        }
      }
      assert candidates[..|candidates|] == candidates;
      selected := if found.None? then candidates[0] else found.value;
    }

    method IncrementActiveReqs(id: string)
      modifies `workers
      ensures View() == AfterCount(old(View()), id, 1)
    {
      if id in workers {
        workers := workers[id := workers[id].(active := workers[id].active + 1)];
      }
    }

    method DecrementActiveReqs(id: string)
      modifies `workers
      ensures View() == AfterCount(old(View()), id, -1)
    {
      if id in workers {
        workers := workers[id := workers[id].(active := workers[id].active - 1)];
      }
    }
  }
}
