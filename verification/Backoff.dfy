/**
 The monitor's restart backoff: a bounded table of consecutive restart counts
 with first-in, first-out eviction, and the delay computed from a count.
 */
module Backoff {
  import opened Lists

  datatype Op = Add(id: string) | Remove(id: string)
  datatype Table = Table(order: seq<string>, counts: map<string, nat>)

  const EMPTY := Table([], map[])

  /** The table with room for one more worker: at capacity the oldest is evicted. */
  function WithRoom(t: Table, capacity: int): Table {
    if |t.counts| >= capacity && |t.order| > 0 then Table(t.order[1..], t.counts - {t.order[0]}) else t
  }

  function After(t: Table, capacity: int, op: Op): Table {
    match op
    case Add(id) =>
      if id in t.counts then t.(counts := t.counts[id := t.counts[id] + 1])
      else
        var r := WithRoom(t, capacity);
        Table(r.order + [id], r.counts[id := 1])
    case Remove(id) => Table(Without(t.order, id), t.counts - {id})
  }

  function Run(capacity: int, h: seq<Op>): Table {
    if h == [] then EMPTY else After(Run(capacity, h[..|h| - 1]), capacity, h[|h| - 1])
  }

  // ---- The table ----

  /** The order lists each tracked worker once and nothing else. */
  ghost predicate Ordered(t: Table) {
    && (forall id :: id in t.order <==> id in t.counts)
    && NoDuplicates(t.order)
  }

  lemma {:induction false} SizesAgree(order: seq<string>, counts: map<string, nat>)
    requires Ordered(Table(order, counts))
    ensures |order| == |counts|
  {
    if order == [] {
      assert counts == map[];
    } else {
      var id := order[0];
      assert order == [id] + order[1..];
      var rest := counts - {id};
      assert counts.Keys == rest.Keys + {id};
      SizesAgree(order[1..], rest);
    }
  }

  lemma RoomKeepsOrder(t: Table, capacity: int)
    requires Ordered(t)
    ensures Ordered(WithRoom(t, capacity))
    ensures capacity >= 1 && |t.order| <= capacity ==> |WithRoom(t, capacity).order| < capacity
    ensures capacity < 1 && |t.order| <= 1 ==> |WithRoom(t, capacity).order| < 1
  {
    SizesAgree(t.order, t.counts);
    if t.order != [] {
      var first := t.order[0];
      assert t.order == [first] + t.order[1..];
      assert Without(t.order, first) == t.order[1..];
      WithoutMeans(t.order, first);
    }
  }

  function Bound(capacity: int): nat {
    if capacity >= 1 then capacity else 1
  }

  lemma StepKeepsOrder(t: Table, capacity: int, op: Op)
    requires Ordered(t) && |t.order| <= Bound(capacity)
    ensures Ordered(After(t, capacity, op)) && |After(t, capacity, op).order| <= Bound(capacity)
  {
    match op
    case Add(id) =>
      if id !in t.counts {
        RoomKeepsOrder(t, capacity);
        var r := WithRoom(t, capacity);
        assert forall x :: x in r.order + [id] <==> x in r.order || x == id;
      }
    case Remove(id) =>
      WithoutMeans(t.order, id);
  }

  /** After any adds and removes the order enumerates the table and its size stays within the capacity. */
  lemma {:induction false} RunKeepsOrder(capacity: int, h: seq<Op>)
    ensures Ordered(Run(capacity, h)) && |Run(capacity, h).order| == |Run(capacity, h).counts| <= Bound(capacity)
  {
    if h != [] {
      RunKeepsOrder(capacity, h[..|h| - 1]);
      StepKeepsOrder(Run(capacity, h[..|h| - 1]), capacity, h[|h| - 1]);
    }
    var t := Run(capacity, h);
    SizesAgree(t.order, t.counts);
  }

  // ---- What the counts and the order mean ----

  /** The latest add that started tracking the worker. */
  function StartOf(capacity: int, h: seq<Op>, id: string): (i: nat)
    ensures i <= |h|
  {
    if h == [] then 0
    else
      var last := |h| - 1;
      if h[last] == Add(id) && id !in Run(capacity, h[..last]).counts then last
      else StartOf(capacity, h[..last], id)
  }

  function AddsOf(h: seq<Op>, id: string): nat {
    if h == [] then 0 else AddsOf(h[..|h| - 1], id) + if h[|h| - 1] == Add(id) then 1 else 0
  }

  /** A tracked worker's count is the number of its adds since its tracking began. */
  lemma {:induction false} CountIsAddsSinceStart(capacity: int, h: seq<Op>, id: string)
    requires id in Run(capacity, h).counts
    ensures var s := StartOf(capacity, h, id);
            s < |h| && Run(capacity, h).counts[id] == AddsOf(h[s..], id)
  {
    var last := |h| - 1;
    var front := h[..last];
    var s := StartOf(capacity, h, id);
    if s < last {
      assert h[s..][..last - s] == front[s..];
    }
    if id in Run(capacity, front).counts {
      CountIsAddsSinceStart(capacity, front, id);
    } else {
      assert h[last..] == [h[last]];
      assert AddsOf([h[last]][..0], id) == 0;
    }
  }

  ghost predicate ByStart(capacity: int, h: seq<Op>, order: seq<string>) {
    forall i, j :: 0 <= i < j < |order| ==> StartOf(capacity, h, order[i]) < StartOf(capacity, h, order[j])
  }

  lemma {:induction false} WithoutKeepsByStart(capacity: int, h: seq<Op>, order: seq<string>, id: string)
    requires ByStart(capacity, h, order)
    ensures ByStart(capacity, h, Without(order, id))
    ensures forall x :: x in Without(order, id) ==> x in order
  {
    WithoutIsNoLonger(order, id);
    hide StartOf;
    if order != [] && order[0] != id {
      WithoutKeepsByStart(capacity, h, order[1..], id);
      PrependByStart(capacity, h, order, Without(order[1..], id));
    }
  }

  /** The first of an order may be put before any selection of the others. */
  lemma PrependByStart(capacity: int, h: seq<Op>, order: seq<string>, rest: seq<string>)
    requires order != [] && ByStart(capacity, h, order) && ByStart(capacity, h, rest)
    requires forall x :: x in rest ==> x in order[1..]
    ensures ByStart(capacity, h, [order[0]] + rest)
  {
    hide StartOf;
    forall j | 0 <= j < |rest|
      ensures StartOf(capacity, h, order[0]) < StartOf(capacity, h, rest[j])
    {
      assert rest[j] in order[1..];
    }
  }

  /** One more operation leaves the starts of the workers it does not start as they were. */
  lemma StartsStay(capacity: int, h: seq<Op>, op: Op, order: seq<string>)
    requires ByStart(capacity, h, order)
    requires forall id :: id in order ==> id in Run(capacity, h).counts || op != Add(id)
    ensures ByStart(capacity, h + [op], order)
  {
    assert (h + [op])[..|h|] == h;
    assert forall id :: id in order ==> StartOf(capacity, h + [op], id) == StartOf(capacity, h, id);
  }

  /** The order is the order in which tracking began, so an eviction takes the longest-tracked worker. */
  lemma {:induction false} OrderIsByStart(capacity: int, h: seq<Op>)
    ensures ByStart(capacity, h, Run(capacity, h).order)
  {
    if h != [] {
      var front, op := h[..|h| - 1], h[|h| - 1];
      var t := Run(capacity, front);
      assert h == front + [op];
      OrderIsByStart(capacity, front);
      RunKeepsOrder(capacity, front);
      match op
      case Add(id) =>
        if id in t.counts {
          StartsStay(capacity, front, op, t.order);
        } else {
          StartedLast(capacity, front, id);
        }
      case Remove(id) =>
        WithoutKeepsByStart(capacity, front, t.order, id);
        StartsStay(capacity, front, op, Without(t.order, id));
    }
  }

  /** Making room drops the first of the order, if any, so what is left is still by start. */
  lemma RoomKeepsByStart(capacity: int, h: seq<Op>, t: Table)
    requires t == Run(capacity, h) && Ordered(t) && ByStart(capacity, h, t.order)
    ensures ByStart(capacity, h, WithRoom(t, capacity).order)
    ensures forall x :: x in WithRoom(t, capacity).order ==> x in t.counts
  {
    var order := WithRoom(t, capacity).order;
    assert forall x :: x in order ==> x in t.order;
    hide Run;
    hide StartOf;
  }

  lemma AppendByStart(capacity: int, h: seq<Op>, order: seq<string>, id: string)
    requires ByStart(capacity, h, order)
    requires forall x :: x in order ==> StartOf(capacity, h, x) < StartOf(capacity, h, id)
    ensures ByStart(capacity, h, order + [id])
  {
    hide StartOf;
  }

  lemma StartedLast(capacity: int, h: seq<Op>, id: string)
    requires ByStart(capacity, h, Run(capacity, h).order) && Ordered(Run(capacity, h))
    requires id !in Run(capacity, h).counts
    ensures ByStart(capacity, h + [Add(id)], Run(capacity, h + [Add(id)]).order)
  {
    var t := Run(capacity, h);
    var r := WithRoom(t, capacity);
    var all := h + [Add(id)];
    assert all[..|h|] == h;
    assert Run(capacity, all).order == r.order + [id] && StartOf(capacity, all, id) == |h|;
    RoomKeepsByStart(capacity, h, t);
    hide WithRoom;
    hide ByStart;
    StartsStay(capacity, h, Add(id), r.order);
    forall x | x in r.order
      ensures StartOf(capacity, all, x) < |h|
    {
      CountIsAddsSinceStart(capacity, h, x);
    }
    hide Run;
    hide StartOf;
    AppendByStart(capacity, all, r.order, id);
  }

  // ---- One operation in full ----

  /** A tracked worker is counted again; a new one is counted once and tracked last, in the place of the first only at capacity. */
  lemma AddInFull(t: Table, capacity: int, id: string)
    ensures var n := After(t, capacity, Add(id));
            if id in t.counts then n == Table(t.order, t.counts[id := t.counts[id] + 1])
            else if |t.counts| < capacity || t.order == [] then n == Table(t.order + [id], t.counts[id := 1])
            else n == Table(t.order[1..] + [id], (t.counts - {t.order[0]})[id := 1])
  {
  }

  /** A removed worker is tracked no more, and all others as before. */
  lemma RemoveInFull(t: Table, capacity: int, id: string)
    requires Ordered(t)
    ensures var n := After(t, capacity, Remove(id));
            && n.counts == t.counts - {id}
            && (forall x :: x in n.order <==> x in t.order && x != id)
  {
    WithoutMeans(t.order, id);
  }

  // ---- The delay ----

  const BACKOFF_BASE := 1_000_000_000
  const BACKOFF_MAX := 30_000_000_000

  function Pow2(n: nat): nat {
    if n == 0 then 1 else 2 * Pow2(n - 1)
  }

  /** The base doubled once per attempt, capped. */
  function Delay(attempt: nat): nat {
    if BACKOFF_BASE * Pow2(attempt) > BACKOFF_MAX then BACKOFF_MAX else BACKOFF_BASE * Pow2(attempt)
  }

  lemma {:induction false} Pow2Grows(m: nat, n: nat)
    requires m <= n
    ensures Pow2(m) <= Pow2(n)
    decreases n
  {
    if m < n {
      Pow2Grows(m, n - 1);
    }
  }

  /** The delay never shrinks with the attempts; it doubles from one second and is thirty from the fifth on. */
  lemma DelayIsMonotone(m: nat, n: nat)
    requires m <= n
    ensures BACKOFF_BASE <= Delay(m) <= Delay(n) <= BACKOFF_MAX
    ensures Delay(n) == BACKOFF_MAX <==> n >= 5
    ensures n < 4 ==> Delay(n + 1) == 2 * Delay(n)
  {
    Pow2Grows(0, m);
    Pow2Grows(m, n);
    assert Pow2(5) == 32 && Pow2(4) == 16;
    if n >= 5 {
      Pow2Grows(5, n);
    } else {
      Pow2Grows(n, 4);
    }
  }

  /** The delays in nanoseconds. */
  lemma DelaysInFull(n: nat)
    ensures Delay(0) == 1_000_000_000 && Delay(1) == 2_000_000_000 && Delay(2) == 4_000_000_000
    ensures Delay(3) == 8_000_000_000 && Delay(4) == 16_000_000_000
    ensures n >= 5 ==> Delay(n) == 30_000_000_000
  {
    assert Pow2(4) == 16 && Pow2(5) == 32;
    if n >= 5 {
      Pow2Grows(5, n);
    }
  }

  /** Up to this many attempts the product fits 64 bits; beyond, its conversion is up to the platform. */
  const EXACT_ATTEMPTS := 33

  const MAX_INT64 := 9223372036854775807

  function DelayFor(attempt: nat, beyond: nat -> int): int {
    if attempt <= EXACT_ATTEMPTS then Delay(attempt)
    else if beyond(attempt) > BACKOFF_MAX then BACKOFF_MAX
    else beyond(attempt)
  }

  lemma EightMore(n: nat)
    ensures Pow2(n + 8) == 256 * Pow2(n)
  {
    assert Pow2(n + 2) == 2 * Pow2(n + 1) && Pow2(n + 4) == 2 * Pow2(n + 3);
    assert Pow2(n + 6) == 2 * Pow2(n + 5) && Pow2(n + 8) == 2 * Pow2(n + 7);
  }

  /** The product fits 64 bits exactly up to that many attempts. */
  lemma ProductFitsExactlyUpTo33(n: nat)
    ensures BACKOFF_BASE * Pow2(n) <= MAX_INT64 <==> n <= EXACT_ATTEMPTS
  {
    assert Pow2(0) == 1;
    EightMore(0);
    EightMore(8);
    EightMore(16);
    EightMore(24);
    assert Pow2(33) == 2 * Pow2(32) && Pow2(34) == 2 * Pow2(33);
    hide Pow2;
    if n <= 33 {
      Pow2Grows(n, 33);
    } else {
      Pow2Grows(34, n);
    }
  }

  /** However many attempts, the delay keeps to the cap, and it never shrinks if and only if no conversion falls below the cap. */
  lemma DelayStaysAtCapExactlyWhen(beyond: nat -> int)
    ensures forall n: nat :: DelayFor(n, beyond) <= BACKOFF_MAX
    ensures (forall m: nat, n: nat :: m <= n ==> DelayFor(m, beyond) <= DelayFor(n, beyond))
       <==> forall n: nat :: n > EXACT_ATTEMPTS ==> beyond(n) >= BACKOFF_MAX
  {
    forall n: nat
      ensures DelayFor(n, beyond) <= BACKOFF_MAX
    {
      DelayIsMonotone(n, n);
    }
    if forall n: nat :: n > EXACT_ATTEMPTS ==> beyond(n) >= BACKOFF_MAX {
      forall m: nat, n: nat | m <= n
        ensures DelayFor(m, beyond) <= DelayFor(n, beyond)
      {
        DelayIsMonotone(m, n);
      }
    } else {
      var n: nat :| n > EXACT_ATTEMPTS && beyond(n) < BACKOFF_MAX;
      DelayIsMonotone(33, 33);
      assert DelayFor(33, beyond) > DelayFor(n, beyond);
    }
  }

  // ---- The monitor ----

  class Monitor {
    const capacity: int
    var backoffs: map<string, nat>
    var backoffOrder: seq<string>
    ghost var history: seq<Op>

    ghost predicate Valid()
      reads this
    {
      Table(backoffOrder, backoffs) == Run(capacity, history)
    }

    constructor (limit: int)
      ensures Valid() && history == [] && capacity == limit
    {
      capacity, backoffs, backoffOrder, history := limit, map[], [], [];
    }

    method AddBackoffEntry(id: string)
      requires Valid()
      modifies this
      ensures Valid() && history == old(history) + [Add(id)]
    {
      history := history + [Add(id)];
      assert history[..|history| - 1] == old(history);
      assert Run(capacity, history) == After(Table(backoffOrder, backoffs), capacity, Add(id));
      hide Run;
      hide Without;
      ghost var room := WithRoom(Table(backoffOrder, backoffs), capacity);
      if id !in backoffs {
        if |backoffs| >= capacity && |backoffOrder| > 0 {
          var oldest := backoffOrder[0];
          backoffOrder := backoffOrder[1..];
          backoffs := backoffs - {oldest};
        }
        assert Table(backoffOrder, backoffs) == room;
        hide WithRoom;
        backoffOrder := backoffOrder + [id];
      }
      backoffs := backoffs[id := (if id in backoffs then backoffs[id] else 0) + 1];
    }

    method RemoveBackoffEntry(id: string)
      requires Valid()
      modifies this
      ensures Valid() && history == old(history) + [Remove(id)]
    {
      history := history + [Remove(id)];
      assert history[..|history| - 1] == old(history);
      backoffs := backoffs - {id};
      backoffOrder := Splice(backoffOrder, id);
    }

    /** The delay before the next restart; beyond is what the conversion of a product beyond 64 bits gives. */
    method NextBackoff(id: string, beyond: nat -> int) returns (duration: int)
      ensures duration == DelayFor(if id in backoffs then backoffs[id] else 0, beyond)
    {
      var attempt := if id in backoffs then backoffs[id] else 0;
      duration := if attempt <= EXACT_ATTEMPTS then BACKOFF_BASE * Pow2(attempt) else beyond(attempt);
      if duration > BACKOFF_MAX {
        duration := BACKOFF_MAX;
      }
    }
  }
}
