/**
 What one section of the connection pool does, said of its fields alone, and
 that a connection whose probe failed is never handed out again.
 */
module UdsLaws {
  import opened Wrappers
  import opened UdsPool

  lemma Defaults(cfg: Config)
    ensures var c := Normalize(cfg);
            && c.minSize == (if cfg.minSize <= 0 then 2 else cfg.minSize)
            && (cfg.maxSize <= 0 && c.minSize <= 16 ==> c.maxSize == 16)
            && (cfg.maxSize <= 0 && c.minSize > 16 ==> c.maxSize == c.minSize)
            && (cfg.maxSize > 0 ==> c.maxSize == if cfg.maxSize < c.minSize then c.minSize else cfg.maxSize)
            && c.idleTimeout == (if cfg.idleTimeout <= 0 then 30_000_000_000 else cfg.idleTimeout)
  {
  }

  // ---- Acquiring ----

  /** A live newest idle connection goes to the caller and is not closed. */
  lemma LiveNewestIsHandedOut(s: State, first: bool)
    requires Enabled(s, TryAcquire(first, true)) && !(first && s.closed) && s.idle != []
    ensures var n, id := Next(s, TryAcquire(first, true)), s.idle[|s.idle| - 1].id;
            && n.held == s.held + {id} && n.idle == s.idle[..|s.idle| - 1]
            && n.inUse == s.inUse + 1 && n.total == s.total
            && n.dying == s.dying && n.shut == s.shut && n.dialling == s.dialling
  {
  }

  /** A dead one goes to nobody, no longer counts, and is closed before the acquire locks again. */
  lemma DeadNewestIsClosed(s: State, first: bool)
    requires Enabled(s, TryAcquire(first, false)) && !(first && s.closed) && s.idle != []
    ensures var n, id := Next(s, TryAcquire(first, false)), s.idle[|s.idle| - 1].id;
            && n.held == s.held && n.idle == s.idle[..|s.idle| - 1]
            && n.inUse == s.inUse && n.total == s.total - 1
            && Enabled(n, CloseDead(id))
            && var c := Next(n, CloseDead(id)); c.shut == s.shut + {id} && id !in c.dying && c.held == s.held && c.retrying == n.retrying + 1
  {
  }

  /** Without an idle connection, one is dialled exactly when there is room; a closed pool hands out nothing to a newcomer. */
  lemma DialsExactlyWithRoom(s: State, first: bool, alive: bool)
    requires Enabled(s, TryAcquire(first, alive)) && (s.idle == [] || (first && s.closed))
    ensures var n := Next(s, TryAcquire(first, alive));
            && n.held == s.held && n.idle == s.idle && n.dying == s.dying && n.shut == s.shut
            && (if !(first && s.closed) && s.total < s.cfg.maxSize
                then n.total == s.total + 1 && n.inUse == s.inUse + 1 && n.dialling == s.dialling + 1
                else n.total == s.total && n.inUse == s.inUse && n.dialling == s.dialling)
  {
  }

  /** A connection found dead or closed. */
  predicate Gone(s: State, id: Id) {
    id in s.dying || id in s.shut
  }

  lemma GoneIsNowhereElse(s: State, id: Id)
    requires Partition(s) && Gone(s, id)
    ensures id !in s.held && id !in Ids(s.idle) && id !in s.pending && id in s.dialled
  {
    assert Places(s, id) == One(id in s.dialled);
  }

  lemma StepKeepsGone(s: State, a: Action, id: Id)
    requires Enabled(s, a) && Partition(s) && Gone(s, id)
    ensures Gone(Next(s, a), id)
  {
    hide Partition;
    hide Kept;
    hide Ids;
  }

  lemma {:induction false} RunKeepsGone(s: State, actions: seq<Action>, id: Id)
    requires Run(s, actions) && Partition(s) && Gone(s, id)
    ensures Partition(End(s, actions)) && Gone(End(s, actions), id)
    decreases |actions|
  {
    if actions != [] {
      StepKeepsPartition(s, actions[0]);
      StepKeepsGone(s, actions[0], id);
      hide Partition;
      hide Gone;
      RunKeepsGone(Next(s, actions[0]), actions[1..], id);
    }
  }

  /** Whatever happens afterwards, a connection whose probe failed is never idle or held again. */
  lemma FailedProbeIsNeverHeldAgain(s: State, first: bool, later: seq<Action>)
    requires Enabled(s, TryAcquire(first, false)) && Partition(s) && !(first && s.closed) && s.idle != []
    requires Run(Next(s, TryAcquire(first, false)), later)
    ensures var e, id := End(Next(s, TryAcquire(first, false)), later), s.idle[|s.idle| - 1].id;
            id !in e.held && id !in Ids(e.idle) && (id in e.dying || id in e.shut)
  {
    var n, id := Next(s, TryAcquire(first, false)), s.idle[|s.idle| - 1].id;
    DeadNewestIsClosed(s, first);
    StepKeepsPartition(s, TryAcquire(first, false));
    assert Gone(n, id);
    RunKeepsGone(n, later, id);
    GoneIsNowhereElse(End(n, later), id);
  }

  // ---- Releasing, adding, reaping, closing ----

  /** A released connection becomes the newest idle one, unless the pool is closed or holds MaxSize idle ones already. */
  lemma ReleaseReturnsOrCloses(s: State, id: Id, now: int)
    requires id in s.held
    ensures var n := Next(s, Release(id, now));
            && n.held == s.held - {id} && n.inUse == s.inUse - 1 && n.dying == s.dying
            && (if s.closed || |s.idle| >= s.cfg.maxSize
                then n.idle == s.idle && n.total == s.total - 1 && n.shut == s.shut + {id}
                else n.idle == s.idle + [Conn(id, now)] && n.total == s.total && n.shut == s.shut)
  {
  }

  /** And it is the one that the next acquire gets, if it is alive. */
  lemma ReleasedIsNextAcquired(s: State, id: Id, now: int)
    requires id in s.held && !s.closed && |s.idle| < s.cfg.maxSize
    ensures var n := Next(Next(s, Release(id, now)), TryAcquire(true, true));
            n.held == s.held && n.idle == s.idle && n.inUse == s.inUse && n.total == s.total
  {
    assert (s.idle + [Conn(id, now)])[..|s.idle|] == s.idle;
  }

  /** A replenished connection joins an open pool, full or not, and is closed by a closed one. */
  lemma AddJoinsOrCloses(s: State, id: Id, now: int)
    requires id in s.pending
    ensures var n := Next(s, Add(id, now));
            && n.pending == s.pending - {id} && n.held == s.held && n.inUse == s.inUse
            && (if s.closed then n.shut == s.shut + {id} && n.idle == s.idle && n.total == s.total
                else n.idle == s.idle + [Conn(id, now)] && n.total == s.total + 1 && n.shut == s.shut)
  {
  }

  /** A reap keeps exactly the connections idle for at most the timeout, and asks for what is missing to the minimum if that fits. */
  lemma ReapKeepsFreshAndReplenishes(s: State, now: int)
    requires UniqueIds(s.idle)
    ensures var n := Next(s, Reap(now));
            && (s.closed ==> n == s)
            && (!s.closed ==>
                  && (forall c :: c in n.idle <==> c in s.idle && now - c.lastUsed <= s.cfg.idleTimeout)
                  && n.shut == s.shut + (Ids(s.idle) - Ids(n.idle))
                  && n.total == s.total - (|s.idle| - |n.idle|)
                  && n.held == s.held && n.inUse == s.inUse
                  && n.replenishing - s.replenishing
                     == if |n.idle| < s.cfg.minSize && n.total + (s.cfg.minSize - |n.idle|) <= s.cfg.maxSize
                        then s.cfg.minSize - |n.idle| else 0)
  {
    KeptIds(s.idle, now, s.cfg);
    hide Kept;
    hide Ids;
    hide UniqueIds;
  }

  /** What a reap keeps, it keeps in its order: each connection unless it has been idle for longer than the timeout. */
  lemma ReapKeepsOrder(idle: seq<Conn>, c: Conn, now: int, cfg: Config)
    ensures Kept([], now, cfg) == []
    ensures Kept(idle + [c], now, cfg) == Kept(idle, now, cfg) + if now - c.lastUsed > cfg.idleTimeout then [] else [c]
  {
    assert (idle + [c])[..|idle|] == idle;
  }

  /** Closing closes every idle connection, leaves those in use to their holders, and subtracts them from total. */
  lemma CloseEmptiesIdle(s: State)
    requires !s.closed
    ensures var n := Next(s, Close);
            n.closed && n.idle == [] && n.shut == s.shut + Ids(s.idle) && n.held == s.held && n.inUse == s.inUse
            && n.total == s.total - s.inUse
  {
  }
}
