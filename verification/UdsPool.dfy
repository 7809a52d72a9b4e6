/**
 The connection pool of the Unix socket transport.

 Every section of code under the pool's mutex is one step, and dialling and
 closing a dead connection happen between sections. `State` is what such an
 interleaving sees: the pool's own fields, and around them the connections
 that callers hold, that an Acquire has found dead but not yet closed, and
 that a replenishing goroutine has dialled but not yet added.
 */
module UdsPool {
  import opened Wrappers

  type Id = nat

  datatype Config = Config(minSize: int, maxSize: int, idleTimeout: int)
  datatype Conn = Conn(id: Id, lastUsed: int)

  const DEFAULT_MIN_SIZE := 2
  const DEFAULT_MAX_SIZE := 16
  const DEFAULT_IDLE_TIMEOUT := 30_000_000_000

  /** The configuration with its defaults filled in; the maximum is at least the minimum. */
  function Normalize(cfg: Config): (c: Config)
    ensures 0 < c.minSize <= c.maxSize && 0 < c.idleTimeout
    ensures 0 < cfg.minSize <= cfg.maxSize && 0 < cfg.idleTimeout ==> c == cfg
  {
    var minSize := if cfg.minSize <= 0 then DEFAULT_MIN_SIZE else cfg.minSize;
    var maxSize := if cfg.maxSize <= 0 then DEFAULT_MAX_SIZE else cfg.maxSize;
    Config(minSize,
           if maxSize < minSize then minSize else maxSize,
           if cfg.idleTimeout <= 0 then DEFAULT_IDLE_TIMEOUT else cfg.idleTimeout)
  }

  datatype State = State(
    cfg: Config, idle: seq<Conn>, total: int, inUse: int, closed: bool,
    held: set<Id>,       // owned by callers
    dying: set<Id>,      // found dead by an Acquire that has yet to close them
    retrying: nat,       // Acquire calls that closed a dead connection and will lock again
    dialling: nat,       // Acquire calls in their dial
    replenishing: nat,   // dialAndAdd calls in their dial
    pending: set<Id>,    // dialled by dialAndAdd, not yet added
    shut: set<Id>,       // closed connections
    dialled: set<Id>)    // every connection ever dialled

  datatype Outcome = PoolClosed | Got(id: Id) | FoundDead(id: Id) | Exhausted | MustDial

  datatype Action =
    | TryAcquire(first: bool, alive: bool)
    | CloseDead(id: Id)
    | AcquireDialled(dialledTo: Option<Id>)
    | Release(released: Id, now: int)
    | Reap(now: int)
    | ReplenishDialled(dialledTo: Option<Id>)
    | Add(added: Id, now: int)
    | Close

  function Ids(idle: seq<Conn>): set<Id> {
    set c | c in idle :: c.id
  }

  predicate Stale(c: Conn, now: int, cfg: Config) {
    now - c.lastUsed > cfg.idleTimeout
  }

  /** The idle connections a reap at time now keeps, in their order. */
  function Kept(idle: seq<Conn>, now: int, cfg: Config): (keep: seq<Conn>)
    ensures |keep| <= |idle|
  {
    if idle == [] then []
    else
      var front := Kept(idle[..|idle| - 1], now, cfg);
      var c := idle[|idle| - 1];
      if Stale(c, now, cfg) then front else front + [c]
  }

  // ---- The sections under the lock, as functions of the state ----

  function AcquireOutcome(s: State, first: bool, alive: bool): Outcome {
    if first && s.closed then PoolClosed
    else if s.idle != [] then
      var c := s.idle[|s.idle| - 1];
      if alive then Got(c.id) else FoundDead(c.id)
    else if s.total >= s.cfg.maxSize then Exhausted
    else MustDial
  }

  function AfterAcquire(s: State, first: bool, alive: bool): State {
    match AcquireOutcome(s, first, alive)
    case PoolClosed => s
    case Got(id) => s.(idle := s.idle[..|s.idle| - 1], inUse := s.inUse + 1, held := s.held + {id})
    case FoundDead(id) => s.(idle := s.idle[..|s.idle| - 1], total := s.total - 1, dying := s.dying + {id})
    case Exhausted => s
    case MustDial => s.(total := s.total + 1, inUse := s.inUse + 1, dialling := s.dialling + 1)
  }

  function AfterRelease(s: State, id: Id, now: int): State {
    if s.closed || |s.idle| >= s.cfg.maxSize then
      s.(total := s.total - 1, inUse := s.inUse - 1, held := s.held - {id}, shut := s.shut + {id})
    else
      s.(idle := s.idle + [Conn(id, now)], inUse := s.inUse - 1, held := s.held - {id})
  }

  function AfterReap(s: State, now: int): State {
    if s.closed then s
    else
      var keep := Kept(s.idle, now, s.cfg);
      var total := s.total - (|s.idle| - |keep|);
      var need := s.cfg.minSize - |keep|;
      s.(idle := keep, total := total, shut := s.shut + (Ids(s.idle) - Ids(keep)),
         replenishing := s.replenishing + if need > 0 && total + need <= s.cfg.maxSize then need else 0)
  }

  function AfterAdd(s: State, id: Id, now: int): State {
    if s.closed then s.(pending := s.pending - {id}, shut := s.shut + {id})
    else s.(idle := s.idle + [Conn(id, now)], total := s.total + 1, pending := s.pending - {id})
  }

  function AfterClose(s: State): State {
    if s.closed then s
    else s.(closed := true, idle := [], total := s.total - s.inUse, shut := s.shut + Ids(s.idle))
  }

  /** Who may take a step: a caller releases what it holds, and a dial yields a new connection. */
  predicate Enabled(s: State, a: Action) {
    match a
    case TryAcquire(first, _) => first || s.retrying > 0
    case CloseDead(id) => id in s.dying
    case AcquireDialled(to) => s.dialling > 0 && (to.Some? ==> to.value !in s.dialled)
    case Release(id, _) => id in s.held
    case Reap(_) => true
    case ReplenishDialled(to) => s.replenishing > 0 && (to.Some? ==> to.value !in s.dialled)
    case Add(id, _) => id in s.pending
    case Close => true
  }

  function Next(s: State, a: Action): State
    requires Enabled(s, a)
  {
    match a
    case TryAcquire(first, alive) =>
      AfterAcquire(if first then s else s.(retrying := s.retrying - 1), first, alive)
    case CloseDead(id) =>
      s.(dying := s.dying - {id}, shut := s.shut + {id}, retrying := s.retrying + 1)
    case AcquireDialled(None) =>
      s.(dialling := s.dialling - 1, total := s.total - 1, inUse := s.inUse - 1)
    case AcquireDialled(Some(id)) =>
      s.(dialling := s.dialling - 1, held := s.held + {id}, dialled := s.dialled + {id})
    case Release(id, now) => AfterRelease(s, id, now)
    case Reap(now) => AfterReap(s, now)
    case ReplenishDialled(None) => s.(replenishing := s.replenishing - 1)
    case ReplenishDialled(Some(id)) =>
      s.(replenishing := s.replenishing - 1, pending := s.pending + {id}, dialled := s.dialled + {id})
    case Add(id, now) => AfterAdd(s, id, now)
    case Close => AfterClose(s)
  }

  /** A pool as NewPool hands it out: MinSize idle connections and nothing else. */
  predicate Initial(s: State) {
    && s.cfg == Normalize(s.cfg)
    && |s.idle| == s.cfg.minSize && UniqueIds(s.idle)
    && s == State(s.cfg, s.idle, |s.idle|, 0, false, {}, {}, 0, 0, 0, {}, {}, Ids(s.idle))
  }

  predicate Run(s: State, actions: seq<Action>)
    decreases |actions|
  {
    actions == [] || (Enabled(s, actions[0]) && Run(Next(s, actions[0]), actions[1..]))
  }

  function End(s: State, actions: seq<Action>): State
    requires Run(s, actions)
    decreases |actions|
  {
    if actions == [] then s else End(Next(s, actions[0]), actions[1..])
  }

  // ---- What every interleaving keeps ----

  predicate UniqueIds(idle: seq<Conn>) {
    forall i, j :: 0 <= i < j < |idle| ==> idle[i].id != idle[j].id
  }

  function One(b: bool): nat {
    if b then 1 else 0
  }

  /** In how many places the connection is. */
  function Places(s: State, id: Id): nat {
    One(id in Ids(s.idle)) + One(id in s.held) + One(id in s.dying) + One(id in s.pending) + One(id in s.shut)
  }

  /** Every connection ever dialled is in exactly one place, and no other connection is anywhere. */
  ghost predicate Partition(s: State) {
    && UniqueIds(s.idle)
    && forall id :: Places(s, id) == One(id in s.dialled)
  }

  /** The counters agree with the connections; the sum holds until Close. */
  predicate Counted(s: State) {
    && s.inUse == Taken(s)
    && (!s.closed ==> s.total == |s.idle| + s.inUse)
    && (s.closed ==> s.idle == [])
  }

  lemma IdsAppend(idle: seq<Conn>, c: Conn)
    ensures Ids(idle + [c]) == Ids(idle) + {c.id}
  {
    forall id
      ensures id in Ids(idle + [c]) <==> id in Ids(idle) + {c.id}
    {
      if id in Ids(idle) {
        var d :| d in idle && d.id == id;
        assert d in idle + [c];
      }
      if id == c.id {
        assert (idle + [c])[|idle|] == c;
      }
    }
  }

  lemma IdsPop(idle: seq<Conn>)
    requires idle != [] && UniqueIds(idle)
    ensures var front, c := idle[..|idle| - 1], idle[|idle| - 1];
            UniqueIds(front) && Ids(idle) == Ids(front) + {c.id} && c.id !in Ids(front)
  {
    var front, c := idle[..|idle| - 1], idle[|idle| - 1];
    assert idle == front + [c];
    IdsAppend(front, c);
  }

  lemma {:induction false} KeptIds(idle: seq<Conn>, now: int, cfg: Config)
    requires UniqueIds(idle)
    ensures UniqueIds(Kept(idle, now, cfg)) && Ids(Kept(idle, now, cfg)) <= Ids(idle)
    ensures forall c :: c in Kept(idle, now, cfg) <==> c in idle && !Stale(c, now, cfg)
  {
    if idle != [] {
      var front, c := idle[..|idle| - 1], idle[|idle| - 1];
      assert idle == front + [c];
      IdsPop(idle);
      KeptIds(front, now, cfg);
      IdsAppend(Kept(front, now, cfg), c);
    }
  }

  /** How a step changes the list of idle connections. */
  lemma StepIdle(s: State, a: Action)
    requires Enabled(s, a) && UniqueIds(s.idle)
    ensures s.idle != [] ==>
              Ids(s.idle) == Ids(s.idle[..|s.idle| - 1]) + {s.idle[|s.idle| - 1].id}
              && s.idle[|s.idle| - 1].id !in Ids(s.idle[..|s.idle| - 1])
    ensures a.Release? ==> Ids(s.idle + [Conn(a.released, a.now)]) == Ids(s.idle) + {a.released}
    ensures a.Add? ==> Ids(s.idle + [Conn(a.added, a.now)]) == Ids(s.idle) + {a.added}
    ensures a.Reap? ==> Ids(Kept(s.idle, a.now, s.cfg)) <= Ids(s.idle)
    ensures a.Reap? ==> UniqueIds(Kept(s.idle, a.now, s.cfg))
    ensures Ids([]) == {}
  {
    if s.idle != [] {
      IdsPop(s.idle);
    }
    match a
    case Release(id, now) => IdsAppend(s.idle, Conn(id, now));
    case Add(id, now) => IdsAppend(s.idle, Conn(id, now));
    case Reap(now) => KeptIds(s.idle, now, s.cfg);
    case _ =>
  }

  lemma AcquireKeepsPlace(s: State, first: bool, alive: bool, id: Id)
    requires Places(s, id) == One(id in s.dialled)
    requires s.idle != [] ==>
               var front, c := s.idle[..|s.idle| - 1], s.idle[|s.idle| - 1];
               Ids(s.idle) == Ids(front) + {c.id} && c.id !in Ids(front)
    ensures Places(AfterAcquire(s, first, alive), id) == One(id in AfterAcquire(s, first, alive).dialled)
  {
    hide Ids;
  }

  lemma StepKeepsPlace(s: State, a: Action, id: Id)
    requires Enabled(s, a) && Partition(s)
    ensures Places(Next(s, a), id) == One(id in Next(s, a).dialled)
  {
    StepIdle(s, a);
    hide Ids;
    hide Kept;
    hide UniqueIds;
    hide AfterAcquire;
    assert Places(s, id) == One(id in s.dialled);
    if a.TryAcquire? {
      AcquireKeepsPlace(if a.first then s else s.(retrying := s.retrying - 1), a.first, a.alive, id);
    }
  }

  lemma StepKeepsUnique(s: State, a: Action)
    requires Enabled(s, a) && Partition(s)
    ensures UniqueIds(Next(s, a).idle)
  {
    StepIdle(s, a);
    hide Kept;
    if a.Release? || a.Add? {
      var id := if a.Release? then a.released else a.added;
      assert Places(s, id) == One(id in s.dialled);
      assert forall i :: 0 <= i < |s.idle| ==> s.idle[i].id in Ids(s.idle);
    }
  }

  lemma StepKeepsPartition(s: State, a: Action)
    requires Enabled(s, a) && Partition(s)
    ensures Partition(Next(s, a))
  {
    StepKeepsUnique(s, a);
    forall id
      ensures Places(Next(s, a), id) == One(id in Next(s, a).dialled)
    {
      StepKeepsPlace(s, a, id);
    }
  }

  /** A connection that a caller receives was not held by anyone. */
  lemma ReceivedWasNotHeld(s: State, a: Action)
    requires Enabled(s, a) && Partition(s)
    ensures s.idle != [] ==> s.idle[|s.idle| - 1].id !in s.held
    ensures a.AcquireDialled? && a.dialledTo.Some? ==> a.dialledTo.value !in s.held
  {
    if s.idle != [] {
      var c := s.idle[|s.idle| - 1];
      assert c in s.idle && c.id in Ids(s.idle);
      assert Places(s, c.id) == One(c.id in s.dialled);
    }
    if a.AcquireDialled? && a.dialledTo.Some? {
      assert Places(s, a.dialledTo.value) == One(a.dialledTo.value in s.dialled);
    }
  }

  lemma HeldSize(held: set<Id>, id: Id)
    ensures id !in held ==> |held + {id}| == |held| + 1
    ensures id in held ==> |held - {id}| == |held| - 1
  {
  }

  /** Connections held by callers or being dialled for them. */
  function Taken(s: State): nat {
    |s.held| + s.dialling
  }

  lemma AcquireInUse(s: State, first: bool, alive: bool)
    requires s.idle != [] ==> s.idle[|s.idle| - 1].id !in s.held
    ensures AfterAcquire(s, first, alive).inUse - s.inUse == Taken(AfterAcquire(s, first, alive)) - Taken(s)
  {
    if s.idle != [] {
      HeldSize(s.held, s.idle[|s.idle| - 1].id);
    }
  }

  lemma ReleaseInUse(s: State, id: Id, now: int)
    requires id in s.held
    ensures AfterRelease(s, id, now).inUse - s.inUse == Taken(AfterRelease(s, id, now)) - Taken(s)
  {
    HeldSize(s.held, id);
  }

  /** A step changes inUse as it changes the connections held or being dialled by Acquire. */
  lemma StepInUse(s: State, a: Action)
    requires Enabled(s, a) && Partition(s)
    ensures Next(s, a).inUse - s.inUse == Taken(Next(s, a)) - Taken(s)
  {
    ReceivedWasNotHeld(s, a);
    hide Partition;
    hide AfterAcquire;
    hide AfterRelease;
    hide Kept;
    hide Ids;
    match a
    case TryAcquire(first, alive) =>
      AcquireInUse(if first then s else s.(retrying := s.retrying - 1), first, alive);
    case AcquireDialled(to) =>
      if to.Some? {
        HeldSize(s.held, to.value);
      }
    case Release(id, now) => ReleaseInUse(s, id, now);
    case _ =>
  }

  /** While the pool is open, a step changes total as it changes the idle list and inUse. */
  lemma StepTotal(s: State, a: Action)
    requires Enabled(s, a) && (s.closed ==> s.idle == [])
    ensures !Next(s, a).closed ==>
              Next(s, a).total - s.total == (|Next(s, a).idle| - |s.idle|) + (Next(s, a).inUse - s.inUse)
    ensures Next(s, a).closed ==> Next(s, a).idle == []
    ensures s.closed ==> Next(s, a).closed
  {
    hide Kept;
    hide Ids;
  }

  lemma StepKeepsCounts(s: State, a: Action)
    requires Enabled(s, a) && Partition(s) && Counted(s)
    ensures Counted(Next(s, a))
  {
    StepInUse(s, a);
    StepTotal(s, a);
    hide Next;
    hide Partition;
    hide Enabled;
  }

  /**
   Releasing keeps the accounts exactly when somebody holds the connection: one
   released twice is in two places, or is subtracted twice.
   */
  lemma ReleaseKeepsAccountsExactlyWhenHeld(s: State, id: Id, now: int)
    requires Partition(s) && Counted(s)
    ensures var n := AfterRelease(s, id, now); Partition(n) && Counted(n) <==> id in s.held
  {
    if id in s.held {
      StepKeepsPartition(s, Release(id, now));
      StepKeepsCounts(s, Release(id, now));
    }
  }

  /** In every interleaving the counters are right and each connection is in exactly one place. */
  lemma {:induction false} RunKeepsAccounts(s: State, actions: seq<Action>)
    requires Run(s, actions) && Partition(s) && Counted(s)
    ensures Partition(End(s, actions)) && Counted(End(s, actions))
    decreases |actions|
  {
    if actions != [] {
      StepKeepsPartition(s, actions[0]);
      StepKeepsCounts(s, actions[0]);
      RunKeepsAccounts(Next(s, actions[0]), actions[1..]);
    }
  }

  lemma InitialIsAccounted(s: State)
    requires Initial(s)
    ensures Partition(s) && Counted(s)
  {
  }

  lemma {:induction false} RunThenRun(s: State, first: seq<Action>, second: seq<Action>)
    requires Run(s, first) && Run(End(s, first), second)
    ensures Run(s, first + second) && End(s, first + second) == End(End(s, first), second)
    decreases |first|
  {
    if first == [] {
      assert first + second == second;
    } else {
      assert (first + second)[1..] == first[1..] + second;
      RunThenRun(Next(s, first[0]), first[1..], second);
    }
  }

  // ---- After Close ----

  /** A closed pool stays closed and empty, and the gap between the counters never moves again. */
  lemma {:induction false} RunAfterClose(s: State, actions: seq<Action>)
    requires s.closed && s.idle == [] && Run(s, actions)
    ensures var e := End(s, actions); e.closed && e.idle == [] && e.total - e.inUse == s.total - s.inUse
    decreases |actions|
  {
    if actions != [] {
      StepAfterClose(s, actions[0]);
      RunAfterClose(Next(s, actions[0]), actions[1..]);
    }
  }

  lemma StepAfterClose(s: State, a: Action)
    requires s.closed && s.idle == [] && Enabled(s, a)
    ensures var n := Next(s, a); n.closed && n.idle == [] && n.total - n.inUse == s.total - s.inUse
  {
  }

  lemma {:induction false} RunSplit(s: State, first: seq<Action>, second: seq<Action>)
    requires Run(s, first + second)
    ensures Run(s, first) && Run(End(s, first), second)
    ensures End(s, first + second) == End(End(s, first), second)
    decreases |first|
  {
    if first == [] {
      assert first + second == second;
    } else {
      assert (first + second)[1..] == first[1..] + second;
      RunSplit(Next(s, first[0]), first[1..], second);
    }
  }

  /** Nobody holds on to a connection. */
  predicate Quiet(s: State) {
    s.held == {} && s.dying == {} && s.pending == {}
  }

  lemma QuietAndEmptyMeansShut(s: State)
    requires Partition(s) && Quiet(s) && s.idle == []
    ensures s.shut == s.dialled
  {
    assert forall id :: Places(s, id) == One(id in s.dialled);
  }

  /** Whatever happens around it, a pool that is closed and that nobody holds on to has closed every connection it ever dialled. */
  lemma CloseLeavesNothingOpen(s: State, before: seq<Action>, later: seq<Action>)
    requires Initial(s) && Run(s, before + ([Close] + later))
    ensures var e := End(s, before + ([Close] + later));
            && e.closed && e.idle == []
            && (Quiet(e) ==> e.shut == e.dialled)
  {
    hide Places;
    hide Next;
    InitialIsAccounted(s);
    hide Initial;
    RunSplit(s, before, [Close] + later);
    RunKeepsAccounts(s, before);
    var open := End(s, before);
    assert ([Close] + later)[1..] == later;
    StepKeepsPartition(open, Close);
    StepKeepsCounts(open, Close);
    AfterCloseIsClosed(open);
    var shut := Next(open, Close);
    RunAfterClose(shut, later);
    RunKeepsAccounts(shut, later);
    var e := End(shut, later);
    if Quiet(e) {
      QuietAndEmptyMeansShut(e);
    }
  }

  lemma AfterCloseIsClosed(s: State)
    requires Counted(s)
    ensures Next(s, Close).closed && Next(s, Close).idle == []
  {
  }

  /** Close spoils the sum for good, except when as many connections were idle as in use. */
  lemma SumSurvivesCloseExactlyWhenBalanced(s: State, later: seq<Action>)
    requires Partition(s) && Counted(s) && !s.closed && Run(AfterClose(s), later)
    ensures var e := End(AfterClose(s), later);
            e.total == |e.idle| + e.inUse <==> |s.idle| == s.inUse
  {
    RunAfterClose(AfterClose(s), later);
  }

  /** What one more connection changes in what a reap keeps and closes. */
  lemma KeptStep(idle: seq<Conn>, i: nat, now: int, cfg: Config)
    requires i < |idle| && UniqueIds(idle)
    ensures var c, keep := idle[i], Kept(idle[..i], now, cfg);
            var next := if Stale(c, now, cfg) then keep else keep + [c];
            && Kept(idle[..i + 1], now, cfg) == next
            && Ids(idle[..i + 1]) - Ids(next)
               == (Ids(idle[..i]) - Ids(keep)) + if Stale(c, now, cfg) then {c.id} else {}
  {
    var c := idle[i];
    assert idle[..i + 1] == idle[..i] + [c];
    assert idle[..i + 1][..i] == idle[..i];
    IdsPop(idle[..i + 1]);
    KeptIds(idle[..i], now, cfg);
    IdsAppend(Kept(idle[..i], now, cfg), c);
  }

  // ---- The pool itself ----

  /** The answer of one turn of Acquire's loop, and the state it leaves. */
  lemma AcquireCases(s: State, first: bool, alive: bool)
    requires Enabled(s, TryAcquire(first, alive))
    ensures var n, answer := Next(s, TryAcquire(first, alive)), AcquireOutcome(s, first, alive);
            var turn := if first then s else s.(retrying := s.retrying - 1);
            if first && s.closed then answer == PoolClosed && n == s
            else if s.idle != [] then
              var front, c := s.idle[..|s.idle| - 1], s.idle[|s.idle| - 1];
              if alive then answer == Got(c.id) && n == turn.(idle := front, inUse := s.inUse + 1, held := s.held + {c.id})
              else answer == FoundDead(c.id) && n == turn.(idle := front, total := s.total - 1, dying := s.dying + {c.id})
            else if s.total >= s.cfg.maxSize then answer == Exhausted && n == turn
            else answer == MustDial && n == turn.(total := s.total + 1, inUse := s.inUse + 1, dialling := s.dialling + 1)
  {
  }

  class Pool {
    const cfg: Config
    var idle: seq<Conn>
    var total: int
    var inUse: int
    var closed: bool

    // what happens around the pool
    ghost var held: set<Id>
    ghost var dying: set<Id>
    ghost var retrying: nat
    ghost var dialling: nat
    ghost var replenishing: nat
    ghost var pending: set<Id>
    ghost var shut: set<Id>
    ghost var dialled: set<Id>

    ghost function View(): State
      reads this
    {
      State(cfg, idle, total, inUse, closed, held, dying, retrying, dialling, replenishing, pending, shut, dialled)
    }

    /** The pool before its first dial. */
    constructor (config: Config)
      ensures View() == State(Normalize(config), [], 0, 0, false, {}, {}, 0, 0, 0, {}, {}, {})
    {
      cfg := Normalize(config);
      idle, total, inUse, closed := [], 0, 0, false;
      held, dying, retrying, dialling, replenishing, pending, shut, dialled := {}, {}, 0, 0, 0, {}, {}, {};
    }

    /** The locked section of dialAndAdd. */
    method AddDialled(id: Id, now: int)
      requires Enabled(View(), Add(id, now))
      modifies this
      ensures View() == AfterAdd(old(View()), id, now)
    {
      pending := pending - {id};
      if closed {
        shut := shut + {id};
        return;
      }
      idle := idle + [Conn(id, now)];
      total := total + 1;
    }

    /** One turn of Acquire's loop under the lock; first says whether it is the turn that checks for a closed pool. */
    method AcquireSection(first: bool, alive: bool) returns (outcome: Outcome)
      requires Enabled(View(), TryAcquire(first, alive))
      modifies this
      ensures outcome == AcquireOutcome(old(View()), first, alive)
      ensures View() == Next(old(View()), TryAcquire(first, alive))
      ensures outcome.PoolClosed? <==> first && old(closed)
      ensures outcome.Exhausted? <==> !(first && old(closed)) && old(idle) == [] && old(total) >= cfg.maxSize
      ensures outcome.MustDial? <==> !(first && old(closed)) && old(idle) == [] && old(total) < cfg.maxSize
      ensures !(first && old(closed)) && old(idle) != [] ==>
                var id := old(idle[|idle| - 1].id);
                && idle == old(idle)[..|old(idle)| - 1]
                && (alive ==> outcome == Got(id) && held == old(held) + {id} && dying == old(dying) && shut == old(shut))
                && (!alive ==> outcome == FoundDead(id) && held == old(held) && dying == old(dying) + {id} && shut == old(shut))
    {
      AcquireCases(View(), first, alive);
      hide Next;
      hide AcquireOutcome;
      hide Enabled;
      if first {
        if closed {
          return PoolClosed;
        }
      } else {
        retrying := retrying - 1;
      }
      if |idle| > 0 {
        var c := idle[|idle| - 1];
        idle := idle[..|idle| - 1];
        if !alive {
          total := total - 1;
          dying := dying + {c.id};
          return FoundDead(c.id);
        }
        inUse := inUse + 1;
        held := held + {c.id};
        return Got(c.id);
      }
      if total >= cfg.maxSize {
        return Exhausted;
      }
      total, inUse := total + 1, inUse + 1;
      dialling := dialling + 1;
      return MustDial;
    }

    /** The section that Acquire runs when its dial failed. */
    method AcquireDialFailed()
      requires Enabled(View(), AcquireDialled(None))
      modifies this
      ensures View() == Next(old(View()), AcquireDialled(None))
    {
      dialling := dialling - 1;
      total, inUse := total - 1, inUse - 1;
    }

    /** Release: a connection that is not one of a pool's is closed by itself; nobody checks that it is held. */
    method ReleaseConn(pooled: bool, id: Id, now: int)
      modifies this
      ensures View() == if pooled then AfterRelease(old(View()), id, now) else old(View())
    {
      if !pooled {
        return;
      }
      held := held - {id};
      if closed || |idle| >= cfg.maxSize {
        total, inUse := total - 1, inUse - 1;
        shut := shut + {id};
        return;
      }
      idle := idle + [Conn(id, now)];
      inUse := inUse - 1;
    }

    method CloseAll()
      modifies this
      ensures View() == AfterClose(old(View()))
    {
      if closed {
        return; // closeOnce
      }
      closed := true;
      ghost var before := shut;
      for i := 0 to |idle|
        modifies `shut
        invariant shut == before + Ids(idle[..i])
      {
        assert idle[..i + 1] == idle[..i] + [idle[i]];
        IdsAppend(idle[..i], idle[i]);
        shut := shut + {idle[i].id};
      }
      assert idle[..|idle|] == idle;
      idle := [];
      total := total - inUse;
    }

    method ReapIdle(now: int)
      requires UniqueIds(idle)
      modifies this
      ensures View() == AfterReap(old(View()), now)
    {
      if closed {
        return;
      }
      hide Kept;
      hide Ids;
      hide UniqueIds;
      var keep := CloseStale(now);
      var need := cfg.minSize - |keep|;
      if need > 0 && total + need <= cfg.maxSize {
        replenishing := replenishing + need;
      }
      idle := keep;
    }

    /** The loop that closes the stale connections and keeps the others. */
    method CloseStale(now: int) returns (keep: seq<Conn>)
      requires UniqueIds(idle)
      modifies `total, `shut
      ensures keep == Kept(idle, now, cfg)
      ensures total == old(total) - (|idle| - |keep|)
      ensures shut == old(shut) + (Ids(idle) - Ids(keep))
    {
      assert Kept(idle[..0], now, cfg) == [] && Ids(idle[..0]) == {};
      assert idle[..|idle|] == idle;
      hide Kept;
      hide Ids;
      hide UniqueIds;
      keep := [];
      for i := 0 to |idle|
        invariant keep == Kept(idle[..i], now, cfg)
        invariant total == old(total) - (i - |keep|)
        invariant shut == old(shut) + (Ids(idle[..i]) - Ids(keep))
      {
        var c := idle[i];
        KeptStep(idle, i, now, cfg);
        if now - c.lastUsed > cfg.idleTimeout {
          total := total - 1;
          shut := shut + {c.id};
        } else {
          keep := keep + [c];
        }
      }
    }
  }

  /**
   NewPool with the results of its dials: without a socket path there is no
   pool; otherwise it hands out one with MinSize idle connections, or, at the
   first failed dial, closes what it had dialled.
   */
  method NewPool(socketPath: string, config: Config, dials: seq<Option<Conn>>) returns (pool: Pool?, ok: bool)
    requires |dials| == Normalize(config).minSize
    requires forall i, j :: 0 <= i < j < |dials| && dials[i].Some? && dials[j].Some? ==> dials[i].value.id != dials[j].value.id
    ensures ok <==> socketPath != "" && None !in dials
    ensures pool == null <==> socketPath == ""
    ensures pool != null ==> fresh(pool)
    ensures ok ==> Initial(pool.View()) && |pool.idle| == |dials| && forall i :: 0 <= i < |dials| ==> dials[i] == Some(pool.idle[i])
    ensures !ok && pool != null ==> pool.closed && pool.idle == [] && pool.shut == pool.dialled
  {
    if socketPath == "" {
      return null, false;
    }
    pool := new Pool(config);
    for i := 0 to |dials|
      invariant None !in dials[..i]
      invariant |pool.idle| == i && forall j :: 0 <= j < i ==> dials[j] == Some(pool.idle[j])
      invariant UniqueIds(pool.idle)
      invariant pool.View() == State(Normalize(config), pool.idle, i, 0, false, {}, {}, 0, 0, 0, {}, {}, Ids(pool.idle))
    {
      if dials[i].None? {
        pool.CloseAll();
        return pool, false;
      }
      var c := dials[i].value;
      IdsAppend(pool.idle, c);
      pool.pending, pool.dialled := pool.pending + {c.id}, pool.dialled + {c.id};
      pool.AddDialled(c.id, c.lastUsed);
    }
    ok := true;
  }
}
