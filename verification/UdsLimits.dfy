/**
 How large the connection pool can grow: dials that replenish it add their
 connections without looking at the maximum.
 */
module UdsLimits {
  import opened Wrappers
  import opened Lists
  import opened UdsPool

  // ---- The maximum size ----

  predicate WithinMax(s: State) {
    s.total <= s.cfg.maxSize
  }

  /** A replenished connection arrives when the open pool is already full: dialAndAdd does not look. */
  predicate Overfills(s: State, a: Action) {
    a.Add? && !s.closed && s.total >= s.cfg.maxSize
  }

  predicate StaysWithinMax(s: State, actions: seq<Action>)
    requires Run(s, actions)
    decreases |actions|
  {
    WithinMax(s) && (actions != [] ==> StaysWithinMax(Next(s, actions[0]), actions[1..]))
  }

  predicate NeverOverfills(s: State, actions: seq<Action>)
    requires Run(s, actions)
    decreases |actions|
  {
    actions != [] ==> !Overfills(s, actions[0]) && NeverOverfills(Next(s, actions[0]), actions[1..])
  }

  lemma StepWithinMax(s: State, a: Action)
    requires Enabled(s, a) && Counted(s) && WithinMax(s)
    ensures WithinMax(Next(s, a)) <==> !Overfills(s, a)
  {
  }

  /** A run exceeds the maximum exactly when some replenished connection arrives at a full pool. */
  lemma {:induction false} WithinMaxExactlyWhenNeverOverfilled(s: State, actions: seq<Action>)
    requires Run(s, actions) && Partition(s) && Counted(s) && WithinMax(s)
    ensures StaysWithinMax(s, actions) <==> NeverOverfills(s, actions)
    decreases |actions|
  {
    if actions != [] {
      StepKeepsPartition(s, actions[0]);
      StepKeepsCounts(s, actions[0]);
      StepWithinMax(s, actions[0]);
      if WithinMax(Next(s, actions[0])) {
        WithinMaxExactlyWhenNeverOverfilled(Next(s, actions[0]), actions[1..]);
      }
    }
  }

  /** The dials of one reap, run to their end: each fails or adds its connection. */
  function Replenish(dials: seq<Option<Conn>>): seq<Action> {
    if dials == [] then []
    else
      (match dials[0]
       case None => [ReplenishDialled(None)]
       case Some(c) => [ReplenishDialled(Some(c.id)), Add(c.id, c.lastUsed)])
      + Replenish(dials[1..])
  }

  datatype Macro = Single(a: Action) | WholeReap(now: int, dials: seq<Option<Conn>>)

  function Expand(m: Macro): seq<Action> {
    match m
    case Single(a) => [a]
    case WholeReap(now, dials) => [Reap(now)] + Replenish(dials)
  }

  /** A macro step: any step that does not replenish, or a reap with all its dials. */
  predicate MacroEnabled(s: State, m: Macro) {
    && Run(s, Expand(m))
    && match m
       case Single(a) => !a.Reap? && !a.ReplenishDialled? && !a.Add?
       case WholeReap(now, dials) => |dials| == AfterReap(s, now).replenishing
  }

  predicate MacroRun(s: State, macros: seq<Macro>)
    decreases |macros|
  {
    macros == [] || (MacroEnabled(s, macros[0]) && MacroRun(End(s, Expand(macros[0])), macros[1..]))
  }

  predicate MacroStaysWithinMax(s: State, macros: seq<Macro>)
    requires MacroRun(s, macros)
    decreases |macros|
  {
    && WithinMax(s)
    && (macros != [] ==> StaysWithinMax(s, Expand(macros[0]))
                         && MacroStaysWithinMax(End(s, Expand(macros[0])), macros[1..]))
  }

  lemma {:induction false} ReplenishStaysWithin(s: State, dials: seq<Option<Conn>>)
    requires Run(s, Replenish(dials)) && |dials| == s.replenishing
    requires WithinMax(s) && (!s.closed ==> s.total + s.replenishing <= s.cfg.maxSize)
    ensures StaysWithinMax(s, Replenish(dials))
    ensures End(s, Replenish(dials)).replenishing == 0 && WithinMax(End(s, Replenish(dials)))
    decreases |dials|
  {
    if dials != [] {
      var rest := Replenish(dials[1..]);
      match dials[0]
      case None =>
        assert Replenish(dials) == [ReplenishDialled(None)] + rest;
        assert Replenish(dials)[1..] == rest;
        ReplenishStaysWithin(Next(s, ReplenishDialled(None)), dials[1..]);
      case Some(c) =>
        var dial, add := ReplenishDialled(Some(c.id)), Add(c.id, c.lastUsed);
        assert Replenish(dials) == [dial, add] + rest;
        assert Replenish(dials)[1..] == [add] + rest;
        assert ([add] + rest)[1..] == rest;
        ReplenishStaysWithin(Next(Next(s, dial), add), dials[1..]);
    }
  }

  /** When the dials of every reap complete as one step with it, the pool never exceeds its maximum. */
  lemma {:induction false} AtomicReplenishStaysWithinMax(s: State, macros: seq<Macro>)
    requires MacroRun(s, macros) && Partition(s) && Counted(s) && WithinMax(s) && s.replenishing == 0
    ensures MacroStaysWithinMax(s, macros)
    decreases |macros|
  {
    if macros != [] {
      var m := macros[0];
      RunKeepsAccounts(s, Expand(m));
      match m {
        case Single(a) =>
          StepWithinMax(s, a);
          assert [a][1..] == [];
          assert End(s, [a]) == Next(s, a);
        case WholeReap(now, dials) =>
          StepWithinMax(s, Reap(now));
          assert Expand(m)[1..] == Replenish(dials);
          assert End(s, Expand(m)) == End(Next(s, Reap(now)), Replenish(dials));
          ReplenishStaysWithin(Next(s, Reap(now)), dials);
      }
      AtomicReplenishStaysWithinMax(End(s, Expand(m)), macros[1..]);
    }
  }

  // ---- Reaps that overlap earlier dials ----

  /** Connections that reaps asked for and that are not in the pool yet. */
  function Outstanding(s: State): nat {
    s.replenishing + |s.pending|
  }

  /** The most connections that n reaps can ask for. */
  function Batches(n: nat, minSize: int): int {
    if n == 0 then 0 else Batches(n - 1, minSize) + minSize
  }

  /** The dials of at most k reaps are under way at once: each reap finds those of at most k - 1 others. */
  predicate AtMostOverlapping(s: State, actions: seq<Action>, k: nat)
    requires Run(s, actions)
    decreases |actions|
  {
    actions != [] ==>
      && (actions[0].Reap? && AfterReap(s, actions[0].now).replenishing > s.replenishing ==>
            k > 0 && Outstanding(s) <= Batches(k - 1, s.cfg.minSize))
      && AtMostOverlapping(Next(s, actions[0]), actions[1..], k)
  }

  /** What the maximum allows when connections may still be outstanding. */
  predicate WithinMaxAndBatches(s: State, k: nat) {
    && Outstanding(s) <= Batches(k, s.cfg.minSize)
    && s.total + Outstanding(s) <= s.cfg.maxSize + Batches(k, s.cfg.minSize)
  }

  lemma StepOutstanding(s: State, a: Action)
    requires Enabled(s, a) && Partition(s)
    ensures a.Reap? ==> Outstanding(Next(s, a)) - Outstanding(s) == AfterReap(s, a.now).replenishing - s.replenishing
    ensures a.Add? ==> Outstanding(Next(s, a)) == Outstanding(s) - 1
    ensures !a.Reap? ==> Outstanding(Next(s, a)) <= Outstanding(s)
  {
    if a.ReplenishDialled? && a.dialledTo.Some? {
      var id := a.dialledTo.value;
      assert Places(s, id) == One(id in s.dialled);
      HeldSize(s.pending, id);
    } else if a.Add? {
      HeldSize(s.pending, a.added);
    }
    hide Partition;
    hide Kept;
    hide Ids;
  }

  lemma ReapKeepsMaxAndBatches(s: State, now: int, k: nat)
    requires Partition(s) && Counted(s) && 0 < s.cfg.minSize && WithinMaxAndBatches(s, k)
    requires AfterReap(s, now).replenishing > s.replenishing ==> k > 0 && Outstanding(s) <= Batches(k - 1, s.cfg.minSize)
    ensures WithinMaxAndBatches(AfterReap(s, now), k)
  {
    StepOutstanding(s, Reap(now));
    hide Kept;
    hide Ids;
    hide Partition;
    assert AfterReap(s, now).total <= s.total;
  }

  lemma StepKeepsMaxAndBatches(s: State, a: Action, k: nat)
    requires Enabled(s, a) && Partition(s) && Counted(s) && 0 < s.cfg.minSize && WithinMaxAndBatches(s, k)
    requires a.Reap? && AfterReap(s, a.now).replenishing > s.replenishing ==>
               k > 0 && Outstanding(s) <= Batches(k - 1, s.cfg.minSize)
    ensures WithinMaxAndBatches(Next(s, a), k) && Next(s, a).cfg == s.cfg
  {
    if a.Reap? {
      ReapKeepsMaxAndBatches(s, a.now, k);
    } else {
      StepOutstanding(s, a);
      StepTotalGrows(s, a);
      hide Outstanding;
      hide Batches;
      hide Partition;
      hide Next;
    }
  }

  /** Besides a replenished connection, only an Acquire below the maximum adds to total. */
  lemma StepTotalGrows(s: State, a: Action)
    requires Enabled(s, a) && Counted(s) && !a.Reap?
    ensures Next(s, a).cfg == s.cfg
    ensures a.Add? ==> Next(s, a).total <= s.total + 1
    ensures !a.Add? ==> Next(s, a).total <= s.total || Next(s, a).total <= s.cfg.maxSize
  {
    hide Ids;
    hide Kept;
  }

  /**
   When the dials of at most k reaps are under way at once, the pool never has
   more than MaxSize and k times MinSize connections; when reaps do not overlap
   earlier dials, never more than MaxSize and MinSize.
   */
  lemma {:induction false} MaximumUnderOverlappingReaps(s: State, actions: seq<Action>, k: nat)
    requires Run(s, actions) && Partition(s) && Counted(s) && 0 < s.cfg.minSize
    requires WithinMaxAndBatches(s, k) && AtMostOverlapping(s, actions, k)
    ensures WithinMaxAndBatches(End(s, actions), k)
    ensures End(s, actions).total <= s.cfg.maxSize + Batches(k, s.cfg.minSize)
    decreases |actions|
  {
    if actions != [] {
      StepKeepsPartition(s, actions[0]);
      StepKeepsCounts(s, actions[0]);
      StepKeepsMaxAndBatches(s, actions[0], k);
      hide Partition;
      hide Counted;
      hide WithinMaxAndBatches;
      MaximumUnderOverlappingReaps(Next(s, actions[0]), actions[1..], k);
    }
  }

  /** A new pool keeps within MaxSize and k times MinSize; k is 1 when every dial of a reap ends before the next reap. */
  lemma NewPoolMaximum(s: State, actions: seq<Action>, k: nat)
    requires Initial(s) && Run(s, actions) && AtMostOverlapping(s, actions, k)
    ensures End(s, actions).total <= s.cfg.maxSize + k * s.cfg.minSize
  {
    InitialIsAccounted(s);
    BatchesAreNatural(k, s.cfg.minSize);
    MaximumUnderOverlappingReaps(s, actions, k);
    BatchesAreMultiples(k, s.cfg.minSize);
  }

  lemma {:induction false} BatchesAreMultiples(n: nat, minSize: int)
    ensures Batches(n, minSize) == n * minSize
  {
    if n > 0 {
      BatchesAreMultiples(n - 1, minSize);
    }
  }

  lemma {:induction false} BatchesAreNatural(n: nat, minSize: int)
    requires minSize > 0
    ensures Batches(n, minSize) >= 0 && (n > 0 ==> Batches(n, minSize) > 0)
  {
    if n > 0 {
      BatchesAreNatural(n - 1, minSize);
    }
  }

  /** The times of the reaps in a run. */
  function ReapTimes(actions: seq<Action>): seq<int> {
    if actions == [] then []
    else (if actions[0].Reap? then [actions[0].now] else []) + ReapTimes(actions[1..])
  }

  lemma {:induction false} ReapTimesAppend(first: seq<Action>, second: seq<Action>)
    ensures ReapTimes(first + second) == ReapTimes(first) + ReapTimes(second)
  {
    if first == [] {
      assert first + second == second;
    } else {
      var all := first + second;
      var own := if first[0].Reap? then [first[0].now] else [];
      assert all[0] == first[0] && all[1..] == first[1..] + second;
      assert ReapTimes(all) == own + ReapTimes(all[1..]) && ReapTimes(first) == own + ReapTimes(first[1..]);
      ReapTimesAppend(first[1..], second);
      hide ReapTimes;
      Associative(own, ReapTimes(first[1..]), ReapTimes(second));
    }
  }

  lemma {:induction false} OverlapAppend(s: State, first: seq<Action>, second: seq<Action>, k: nat)
    requires Run(s, first) && Run(End(s, first), second)
    requires AtMostOverlapping(s, first, k) && AtMostOverlapping(End(s, first), second, k)
    ensures Run(s, first + second) && End(s, first + second) == End(End(s, first), second)
    ensures AtMostOverlapping(s, first + second, k)
    decreases |first|
  {
    RunThenRun(s, first, second);
    if first == [] {
      assert first + second == second;
    } else {
      hide Enabled;
      hide Next;
      hide Outstanding;
      hide AfterReap;
      assert (first + second)[1..] == first[1..] + second;
      OverlapAppend(Next(s, first[0]), first[1..], second, k);
    }
  }

  /** Reaps at these times of a pool without idle connections, before any of their dials ends. */
  lemma {:induction false} StackReaps(s: State, times: seq<int>, k: nat)
    requires !s.closed && s.idle == [] && 0 < s.cfg.minSize && s.total + s.cfg.minSize <= s.cfg.maxSize
    requires |times| <= k && Outstanding(s) == Batches(k - |times|, s.cfg.minSize)
    ensures var actions := ReapsAt(times);
            && Run(s, actions) && AtMostOverlapping(s, actions, k) && ReapTimes(actions) == times
            && var e := End(s, actions);
               e == s.(replenishing := e.replenishing) && Outstanding(e) == Batches(k, s.cfg.minSize)
    decreases |times|
  {
    var actions := ReapsAt(times);
    if times != [] {
      var n := Next(s, Reap(times[0]));
      assert n == s.(replenishing := s.replenishing + s.cfg.minSize);
      BatchesGrow(k - |times|, k - 1, s.cfg.minSize);
      StackReaps(n, times[1..], k);
      assert actions[1..] == ReapsAt(times[1..]);
      assert times == [times[0]] + times[1..];
    }
  }

  lemma {:induction false} BatchesGrow(m: nat, n: nat, minSize: int)
    requires m <= n && minSize > 0
    ensures Batches(m, minSize) <= Batches(n, minSize)
    decreases n
  {
    if m < n {
      BatchesGrow(m, n - 1, minSize);
    }
  }

  /** Without idle connections, n Acquires that find room each dial. */
  lemma {:induction false} AcquireAll(s: State, n: nat, k: nat)
    requires !s.closed && s.idle == [] && s.total + n <= s.cfg.maxSize
    ensures var actions := seq(n, i => TryAcquire(true, true));
            && Run(s, actions) && AtMostOverlapping(s, actions, k) && ReapTimes(actions) == []
            && End(s, actions) == s.(total := s.total + n, inUse := s.inUse + n, dialling := s.dialling + n)
    decreases n
  {
    if n > 0 {
      var actions := seq(n, i => TryAcquire(true, true));
      assert actions[1..] == seq(n - 1, i => TryAcquire(true, true));
      AcquireAll(Next(s, actions[0]), n - 1, k);
    }
  }

  /** The outstanding dials all succeed and add their connections, full pool or not. */
  lemma {:induction false} FillUp(s: State, n: nat, bound: Id, k: nat) returns (actions: seq<Action>)
    requires !s.closed && s.replenishing == n && forall id :: id in s.dialled ==> id < bound
    ensures Run(s, actions) && AtMostOverlapping(s, actions, k) && ReapTimes(actions) == []
    ensures End(s, actions).total == s.total + n
    decreases n
  {
    if n == 0 {
      actions := [];
    } else {
      var dial, add := ReplenishDialled(Some(bound)), Add(bound, 0);
      var rest := FillUp(Next(Next(s, dial), add), n - 1, bound + 1, k);
      actions := [dial, add] + rest;
      assert actions[1..] == [add] + rest && ([add] + rest)[1..] == rest;
    }
  }

  lemma {:induction false} Above(ids: set<Id>) returns (bound: Id)
    ensures forall id :: id in ids ==> id < bound
  {
    if ids == {} {
      bound := 0;
    } else {
      var id :| id in ids;
      var rest := Above(ids - {id});
      bound := if id < rest then rest else id + 1;
      forall other | other in ids
        ensures other < bound
      {
        assert other == id || other in ids - {id};
      }
    }
  }

  lemma {:induction false} AllStale(idle: seq<Conn>, cfg: Config) returns (now: int)
    ensures forall c :: c in idle ==> Stale(c, now, cfg)
  {
    if idle == [] {
      now := 0;
    } else {
      var c := idle[|idle| - 1];
      var rest := AllStale(idle[..|idle| - 1], cfg);
      var own := c.lastUsed + cfg.idleTimeout + 1;
      now := if own < rest then rest else own;
      assert idle == idle[..|idle| - 1] + [c];
    }
  }

  lemma {:induction false} KeptNone(idle: seq<Conn>, now: int, cfg: Config)
    requires forall c :: c in idle ==> Stale(c, now, cfg)
    ensures Kept(idle, now, cfg) == []
  {
    if idle != [] {
      assert idle == idle[..|idle| - 1] + [idle[|idle| - 1]];
      KeptNone(idle[..|idle| - 1], now, cfg);
    }
  }

  /** Then Acquires fill the pool up to its maximum, and the dials of the reaps add to that. */
  lemma FillAll(s: State, k: nat) returns (actions: seq<Action>)
    requires !s.closed && s.idle == [] && 0 <= s.total <= s.cfg.maxSize
    ensures Run(s, actions) && AtMostOverlapping(s, actions, k) && ReapTimes(actions) == []
    ensures End(s, actions).total == s.cfg.maxSize + s.replenishing
  {
    var n := s.cfg.maxSize - s.total;
    AcquireAll(s, n, k);
    var acquires := seq(n, i => TryAcquire(true, true));
    var full := End(s, acquires);
    var bound := Above(full.dialled);
    var fill := FillUp(full, full.replenishing, bound, k);
    OverlapAppend(s, acquires, fill, k);
    ReapTimesAppend(acquires, fill);
    actions := acquires + fill;
  }

  /** The first reap, when all connections are stale. */
  lemma ReapAll(s: State, now: int)
    requires Initial(s) && Kept(s.idle, now, s.cfg) == []
    ensures var n := Next(s, Reap(now));
            && !n.closed && n.idle == [] && n.total == 0 && n.pending == {} && n.cfg == s.cfg
            && n.replenishing == Outstanding(n) == s.cfg.minSize == Batches(1, s.cfg.minSize)
  {
    assert Batches(0, s.cfg.minSize) == 0;
  }

  function ReapsAt(times: seq<int>): seq<Action> {
    seq(|times|, i requires 0 <= i < |times| => Reap(times[i]))
  }

  /** After the first reap, the others and the filling reach the maximum under their overlap. */
  lemma ReachOnward(s: State, times: seq<int>, k: nat) returns (actions: seq<Action>)
    requires !s.closed && s.idle == [] && s.total == 0 && s.pending == {} && 0 < s.cfg.minSize <= s.cfg.maxSize
    requires |times| + 1 == k && Outstanding(s) == Batches(1, s.cfg.minSize)
    ensures Run(s, actions) && AtMostOverlapping(s, actions, k) && ReapTimes(actions) == times
    ensures End(s, actions).total == s.cfg.maxSize + Batches(k, s.cfg.minSize)
  {
    hide Batches;
    StackReaps(s, times, k);
    hide Next;
    hide Enabled;
    var reaps := ReapsAt(times);
    var stacked := End(s, reaps);
    assert stacked.pending == {} && stacked.total == 0 && stacked.cfg == s.cfg && stacked.idle == [] && !stacked.closed;
    assert Outstanding(stacked) == stacked.replenishing;
    var fill := FillAll(stacked, k);
    hide Run;
    hide End;
    hide AtMostOverlapping;
    OverlapAppend(s, reaps, fill, k);
    ReapTimesAppend(reaps, fill);
    assert times + [] == times;
    hide ReapTimes;
    actions := reaps + fill;
  }

  /** From a pool whose idle connections are all stale, reaps at these times reach the maximum under their overlap. */
  lemma ReachMaximum(s: State, times: seq<int>) returns (actions: seq<Action>)
    requires Initial(s) && times != [] && Kept(s.idle, times[0], s.cfg) == []
    ensures Run(s, actions) && AtMostOverlapping(s, actions, |times|) && ReapTimes(actions) == times
    ensures End(s, actions).total == s.cfg.maxSize + Batches(|times|, s.cfg.minSize)
  {
    var k, first := |times|, Reap(times[0]);
    ReapAll(s, times[0]);
    var reaped := Next(s, first);
    BatchesAreNatural(k - 1, s.cfg.minSize);
    assert Outstanding(s) == 0;
    assert Enabled(s, first);
    hide Next;
    hide Batches;
    hide Kept;
    hide Ids;
    hide UniqueIds;
    var rest := ReachOnward(reaped, times[1..], k);
    actions := [first] + rest;
    assert actions[1..] == rest && times == [times[0]] + times[1..];
  }

  ghost predicate ReachesMaximum(s: State, times: seq<int>) {
    exists actions ::
      && Run(s, actions) && AtMostOverlapping(s, actions, |times|) && ReapTimes(actions) == times
      && End(s, actions).total == s.cfg.maxSize + Batches(|times|, s.cfg.minSize)
  }

  /**
   The bound is attained: from every new pool and for any reap times, once the
   first of them finds all connections stale, some run with reaps at just those
   times has exactly MaxSize and k times MinSize connections, k being their number.
   */
  lemma OverlappingReapsReachMaximum(s: State) returns (late: int)
    requires Initial(s)
    ensures forall times: seq<int> :: times != [] && times[0] >= late ==> ReachesMaximum(s, times)
  {
    late := AllStale(s.idle, s.cfg);
    forall times: seq<int> | times != [] && times[0] >= late
      ensures ReachesMaximum(s, times)
    {
      KeptNone(s.idle, times[0], s.cfg);
      var actions := ReachMaximum(s, times);
    }
  }
}
