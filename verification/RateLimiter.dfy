/**
 The gateway's request limiter: one fixed window per client address and per
 token. Time is counted in ticks since the zero time; every clock reading is
 later than that. The random draw that lengthens a window is an input.
 */
module RateLimiter {
  import opened Wrappers

  datatype Window = Window(count: int, end: int)
  datatype Limits = Limits(perIP: int, perToken: int, window: int, jitter: int)
  datatype Request = Request(now: int, draw: int)
  datatype Answer = Answer(ok: bool, retryAfter: int)

  const FRESH := Window(0, 0)

  // ---- One key ----

  /** The window that a request at this time falls into: a new one once the old one has ended. */
  function Current(b: Window, window: int, jitter: int, r: Request): Window {
    if r.now > b.end then Window(0, r.now + window + if jitter > 0 then r.draw else 0) else b
  }

  function Decide(b: Window, limit: int, window: int, jitter: int, r: Request): Answer {
    var c := Current(b, window, jitter, r);
    if c.count >= limit then Answer(false, if c.end - r.now < 0 then 0 else c.end - r.now) else Answer(true, 0)
  }

  function After(b: Window, limit: int, window: int, jitter: int, r: Request): Window {
    var c := Current(b, window, jitter, r);
    if c.count >= limit then c else c.(count := c.count + 1)
  }

  function AfterAll(b: Window, limit: int, window: int, jitter: int, rs: seq<Request>): Window
    decreases |rs|
  {
    if rs == [] then b else AfterAll(After(b, limit, window, jitter, rs[0]), limit, window, jitter, rs[1..])
  }

  predicate Drawn(r: Request, jitter: int) {
    if jitter > 0 then 0 <= r.draw < jitter else r.draw == 0
  }

  /** Clock readings come in order, after the zero time, and draws stay below the jitter. */
  predicate Timed(rs: seq<Request>, jitter: int) {
    && (forall i :: 0 <= i < |rs| ==> rs[i].now > 0 && Drawn(rs[i], jitter))
    && (forall i, j :: 0 <= i <= j < |rs| ==> rs[i].now <= rs[j].now)
  }

  /** How many requests with lo <= time <= hi are accepted. */
  function Accepted(b: Window, limit: int, window: int, jitter: int, rs: seq<Request>, lo: int, hi: int): nat
    decreases |rs|
  {
    if rs == [] then 0
    else
      (if Decide(b, limit, window, jitter, rs[0]).ok && lo <= rs[0].now <= hi then 1 else 0)
      + Accepted(After(b, limit, window, jitter, rs[0]), limit, window, jitter, rs[1..], lo, hi)
  }

  lemma TimedTail(rs: seq<Request>, jitter: int)
    requires rs != [] && Timed(rs, jitter)
    ensures Timed(rs[1..], jitter)
    ensures forall i :: 0 <= i < |rs[1..]| ==> rs[0].now <= rs[1..][i].now
  {
  }

  lemma {:induction false} NothingAfter(b: Window, limit: int, window: int, jitter: int, rs: seq<Request>, lo: int, hi: int)
    requires forall i :: 0 <= i < |rs| ==> rs[i].now > hi
    ensures Accepted(b, limit, window, jitter, rs, lo, hi) == 0
    decreases |rs|
  {
    if rs != [] {
      NothingAfter(After(b, limit, window, jitter, rs[0]), limit, window, jitter, rs[1..], lo, hi);
    }
  }

  /** While one window covers the interval, only what is left of its limit is accepted. */
  lemma {:induction false} WithinOneWindow(b: Window, limit: int, window: int, jitter: int, rs: seq<Request>, lo: int, hi: int)
    requires Timed(rs, jitter) && b.end >= hi && b.count >= 0
    ensures Accepted(b, limit, window, jitter, rs, lo, hi) <= if limit > b.count then limit - b.count else 0
    decreases |rs|
  {
    if rs != [] {
      TimedTail(rs, jitter);
      if rs[0].now > hi {
        NothingAfter(b, limit, window, jitter, rs, lo, hi);
      } else {
        WithinOneWindow(After(b, limit, window, jitter, rs[0]), limit, window, jitter, rs[1..], lo, hi);
      }
    }
  }

  /** From the interval's start on, at most one new window opens inside it. */
  lemma {:induction false} WithinTwoWindows(b: Window, limit: int, window: int, jitter: int, rs: seq<Request>, lo: int)
    requires Timed(rs, jitter) && limit >= 1 && 0 <= b.count <= limit
    requires forall i :: 0 <= i < |rs| ==> rs[i].now >= lo
    ensures Accepted(b, limit, window, jitter, rs, lo, lo + window) <= (limit - b.count) + limit
    ensures b == FRESH ==> Accepted(b, limit, window, jitter, rs, lo, lo + window) <= limit
    decreases |rs|
  {
    if rs != [] {
      TimedTail(rs, jitter);
      var next := After(b, limit, window, jitter, rs[0]);
      if rs[0].now > b.end {
        assert next == Window(1, next.end) && next.end >= lo + window;
        WithinOneWindow(next, limit, window, jitter, rs[1..], lo, lo + window);
      } else {
        WithinTwoWindows(next, limit, window, jitter, rs[1..], lo);
      }
    }
  }

  /** The most that one key is granted in any interval as long as the window. */
  function Cap(limit: int): nat {
    if limit >= 1 then 2 * limit - 1 else 0
  }

  /** In any interval as long as the window a key is granted at most 2 * limit - 1 requests, whatever the jitter. */
  lemma {:induction false} AtMostTwiceTheLimit(b: Window, limit: int, window: int, jitter: int, rs: seq<Request>, lo: int)
    requires Timed(rs, jitter) && (b == FRESH || 1 <= b.count <= limit)
    ensures Accepted(b, limit, window, jitter, rs, lo, lo + window) <= Cap(limit)
    decreases |rs|
  {
    if limit < 1 {
      NothingGranted(b, limit, window, jitter, rs, lo, lo + window);
    } else if rs != [] {
      TimedTail(rs, jitter);
      if rs[0].now < lo {
        AtMostTwiceTheLimit(After(b, limit, window, jitter, rs[0]), limit, window, jitter, rs[1..], lo);
      } else {
        WithinTwoWindows(b, limit, window, jitter, rs, lo);
      }
    }
  }

  lemma {:induction false} NothingGranted(b: Window, limit: int, window: int, jitter: int, rs: seq<Request>, lo: int, hi: int)
    requires limit < 1 && b.count >= 0
    ensures Accepted(b, limit, window, jitter, rs, lo, hi) == 0
    decreases |rs|
  {
    if rs != [] {
      NothingGranted(After(b, limit, window, jitter, rs[0]), limit, window, jitter, rs[1..], lo, hi);
    }
  }

  // ---- The bound is attained: the window does not slide ----

  function Burst(now: int, n: nat): seq<Request> {
    if n == 0 then [] else [Request(now, 0)] + Burst(now, n - 1)
  }

  lemma {:induction false} BurstAt(now: int, n: nat)
    ensures |Burst(now, n)| == n && forall i :: 0 <= i < n ==> Burst(now, n)[i] == Request(now, 0)
  {
    if n > 0 {
      BurstAt(now, n - 1);
    }
  }

  /** A burst within what the current window has left is granted in full. */
  lemma {:induction false} BurstGranted(b: Window, limit: int, window: int, jitter: int, now: int, n: nat,
                                       rest: seq<Request>, lo: int, hi: int)
    requires now <= b.end && 0 <= b.count && b.count + n <= limit
    ensures Accepted(b, limit, window, jitter, Burst(now, n) + rest, lo, hi)
         == (if lo <= now <= hi then n else 0)
            + Accepted(b.(count := b.count + n), limit, window, jitter, rest, lo, hi)
    decreases n
  {
    if n == 0 {
      assert Burst(now, n) + rest == rest;
    } else {
      var next := b.(count := b.count + 1);
      assert (Burst(now, n) + rest)[1..] == Burst(now, n - 1) + rest;
      BurstGranted(next, limit, window, jitter, now, n - 1, rest, lo, hi);
    }
  }

  /** One request, a burst as its window ends, and a burst as the next one begins. */
  function Straddle(limit: int, window: int): seq<Request>
    requires limit >= 1
  {
    [Request(1, 0)] + (Burst(1 + window, limit - 1) + (Burst(2 + window, limit) + []))
  }

  lemma StraddleTimed(limit: int, window: int, jitter: int)
    requires limit >= 1 && window >= 1
    ensures Timed(Straddle(limit, window), jitter)
  {
    BurstAt(1 + window, limit - 1);
    BurstAt(2 + window, limit);
    hide Burst;
  }

  /** Every positive limit and window, and any jitter, has a run that is granted the full 2 * limit - 1 within one window's length. */
  lemma BoundIsAttained(limit: int, window: int, jitter: int)
    requires limit >= 1 && window >= 1
    ensures Timed(Straddle(limit, window), jitter)
    ensures Accepted(FRESH, limit, window, jitter, Straddle(limit, window), 2, 2 + window) == Cap(limit)
  {
    StraddleTimed(limit, window, jitter);
    var second := Burst(2 + window, limit) + [];
    assert Straddle(limit, window)[1..] == Burst(1 + window, limit - 1) + second;
    assert second[0] == Request(2 + window, 0) && second[1..] == Burst(2 + window, limit - 1) + [];
    var entered, full, reopened := Window(1, 1 + window), Window(limit, 1 + window), Window(1, 2 + 2 * window);
    assert After(FRESH, limit, window, jitter, Request(1, 0)) == entered;
    assert After(full, limit, window, jitter, second[0]) == reopened;
    BurstGranted(entered, limit, window, jitter, 1 + window, limit - 1, second, 2, 2 + window);
    BurstGranted(reopened, limit, window, jitter, 2 + window, limit - 1, [], 2, 2 + window);
    hide Burst;
    assert Accepted(full, limit, window, jitter, second, 2, 2 + window)
        == 1 + Accepted(reopened, limit, window, jitter, second[1..], 2, 2 + window);
  }

  /** In every run no interval as long as the window is granted more than the limit. */
  ghost predicate LimitHolds(limit: int, window: int, jitter: int) {
    forall rs, lo :: Timed(rs, jitter) ==> GrantedFrom(limit, window, jitter, rs, lo) <= if limit >= 0 then limit else 0
  }

  /** What a fresh key is granted in the interval as long as the window that starts here. */
  function GrantedFrom(limit: int, window: int, jitter: int, rs: seq<Request>, lo: int): nat {
    Accepted(FRESH, limit, window, jitter, rs, lo, lo + window)
  }

  /** The limit itself holds in every sliding window exactly for limits of at most one. */
  lemma LimitHoldsExactlyWhenAtMostOne(limit: int, window: int, jitter: int)
    requires window >= 1
    ensures LimitHolds(limit, window, jitter) <==> limit <= 1
  {
    if limit <= 1 {
      forall rs, lo | Timed(rs, jitter)
        ensures GrantedFrom(limit, window, jitter, rs, lo) <= if limit >= 0 then limit else 0
      {
        AtMostTwiceTheLimit(FRESH, limit, window, jitter, rs, lo);
      }
    } else {
      BoundIsAttained(limit, window, jitter);
      assert GrantedFrom(limit, window, jitter, Straddle(limit, window), 2) == Cap(limit);
    }
  }

  // ---- Retry-After ----

  /**
   A denied client that waits as told is served, and not before: every request
   up to now + retryAfter is denied, and the first one after it is granted.
   */
  lemma {:induction false} RetryAfterIsExact(b: Window, limit: int, window: int, jitter: int, denied: Request,
                                            early: seq<Request>, late: Request)
    requires limit >= 1 && !Decide(b, limit, window, jitter, denied).ok
    requires b.count >= 0
    requires var until := denied.now + Decide(b, limit, window, jitter, denied).retryAfter;
             (forall i :: 0 <= i < |early| ==> early[i].now <= until) && until < late.now
    ensures var b1 := After(b, limit, window, jitter, denied);
            && Accepted(b1, limit, window, jitter, early, denied.now, late.now) == 0
            && Decide(AfterAll(b1, limit, window, jitter, early), limit, window, jitter, late).ok
    decreases |early|
  {
    var b1 := After(b, limit, window, jitter, denied);
    if early != [] {
      assert !Decide(b1, limit, window, jitter, early[0]).ok;
      assert After(b1, limit, window, jitter, early[0]) == b1;
      RetryAfterIsExact(b, limit, window, jitter, denied, early[1..], late);
    }
  }

  // ---- All keys together ----

  datatype Key = Ip(addr: string) | Token(text: string)
  datatype Event = Event(key: Key, request: Request)
  datatype Table = Table(ip: map<string, Window>, tok: map<string, Window>)

  function WindowAt(m: map<string, Window>, key: string): Window {
    if key in m then m[key] else FRESH
  }

  function WindowOf(t: Table, k: Key): Window {
    match k
    case Ip(addr) => WindowAt(t.ip, addr)
    case Token(text) => WindowAt(t.tok, text)
  }

  function LimitOf(l: Limits, k: Key): int {
    if k.Ip? then l.perIP else l.perToken
  }

  /** A request without a token is not limited by token. */
  predicate Unlimited(k: Key) {
    k == Token("")
  }

  function AnswerTo(t: Table, l: Limits, e: Event): Answer {
    if Unlimited(e.key) then Answer(true, 0)
    else Decide(WindowOf(t, e.key), LimitOf(l, e.key), l.window, l.jitter, e.request)
  }

  function AfterEvent(t: Table, l: Limits, e: Event): Table {
    if Unlimited(e.key) then t
    else
      var w := After(WindowOf(t, e.key), LimitOf(l, e.key), l.window, l.jitter, e.request);
      match e.key
      case Ip(addr) => t.(ip := t.ip[addr := w])
      case Token(text) => t.(tok := t.tok[text := w])
  }

  /** The answers that key k receives in a run of the whole limiter. */
  function AnswersFor(t: Table, l: Limits, es: seq<Event>, k: Key): seq<Answer>
    decreases |es|
  {
    if es == [] then []
    else
      (if es[0].key == k then [AnswerTo(t, l, es[0])] else [])
      + AnswersFor(AfterEvent(t, l, es[0]), l, es[1..], k)
  }

  /** The answers of one window to its own requests. */
  function AnswersAlone(b: Window, limit: int, l: Limits, rs: seq<Request>): seq<Answer>
    decreases |rs|
  {
    if rs == [] then []
    else
      [Decide(b, limit, l.window, l.jitter, rs[0])]
      + AnswersAlone(After(b, limit, l.window, l.jitter, rs[0]), limit, l, rs[1..])
  }

  function Only(es: seq<Event>, k: Key): seq<Request> {
    if es == [] then []
    else (if es[0].key == k then [es[0].request] else []) + Only(es[1..], k)
  }

  function GrantedTo(t: Table, l: Limits, es: seq<Event>, k: Key, lo: int, hi: int): nat
    decreases |es|
  {
    if es == [] then 0
    else
      (if es[0].key == k && AnswerTo(t, l, es[0]).ok && lo <= es[0].request.now <= hi then 1 else 0)
      + GrantedTo(AfterEvent(t, l, es[0]), l, es[1..], k, lo, hi)
  }

  lemma EventTouchesOwnKey(t: Table, l: Limits, e: Event, k: Key)
    ensures k != e.key ==> WindowOf(AfterEvent(t, l, e), k) == WindowOf(t, k)
    ensures k == e.key && !Unlimited(k) ==>
              WindowOf(AfterEvent(t, l, e), k) == After(WindowOf(t, k), LimitOf(l, k), l.window, l.jitter, e.request)
  {
  }

  /** What a key is answered depends on its own requests alone. */
  lemma {:induction false} KeysAreIndependent(t: Table, l: Limits, es: seq<Event>, k: Key, lo: int, hi: int)
    requires !Unlimited(k)
    ensures AnswersFor(t, l, es, k) == AnswersAlone(WindowOf(t, k), LimitOf(l, k), l, Only(es, k))
    ensures GrantedTo(t, l, es, k, lo, hi)
         == Accepted(WindowOf(t, k), LimitOf(l, k), l.window, l.jitter, Only(es, k), lo, hi)
    decreases |es|
  {
    if es != [] {
      var e, next := es[0], AfterEvent(t, l, es[0]);
      EventTouchesOwnKey(t, l, e, k);
      KeysAreIndependent(next, l, es[1..], k, lo, hi);
      hide AfterEvent;
      if e.key == k {
        assert Only(es, k)[1..] == Only(es[1..], k);
      } else {
        assert Only(es, k) == Only(es[1..], k);
        assert AnswersFor(t, l, es, k) == AnswersFor(next, l, es[1..], k);
      }
    }
  }

  predicate TimedEvents(es: seq<Event>, jitter: int) {
    && (forall i :: 0 <= i < |es| ==> es[i].request.now > 0 && Drawn(es[i].request, jitter))
    && (forall i, j :: 0 <= i <= j < |es| ==> es[i].request.now <= es[j].request.now)
  }

  /** Every request of the key is that of some event. */
  lemma {:induction false} OnlyIsFromEvents(es: seq<Event>, k: Key)
    ensures forall r :: r in Only(es, k) ==> exists j :: 0 <= j < |es| && r == es[j].request
  {
    if es != [] {
      OnlyIsFromEvents(es[1..], k);
      forall r | r in Only(es, k)
        ensures exists j :: 0 <= j < |es| && r == es[j].request
      {
        if r in Only(es[1..], k) {
          var j :| 0 <= j < |es[1..]| && r == es[1..][j].request;
          assert es[j + 1] == es[1..][j];
        } else {
          assert r == es[0].request;
        }
      }
    }
  }

  lemma TimedEventsTail(es: seq<Event>, jitter: int)
    requires TimedEvents(es, jitter) && es != []
    ensures TimedEvents(es[1..], jitter)
  {
    assert forall i :: 0 <= i < |es[1..]| ==> es[1..][i] == es[i + 1];
  }

  lemma TimedCons(first: Request, rest: seq<Request>, jitter: int)
    requires Timed(rest, jitter) && first.now > 0 && Drawn(first, jitter)
    requires forall r :: r in rest ==> first.now <= r.now
    ensures Timed([first] + rest, jitter)
  {
    var all := [first] + rest;
    assert forall i :: 0 < i < |all| ==> all[i] == rest[i - 1] && all[i] in rest;
  }

  lemma FirstIsEarliest(es: seq<Event>, k: Key, jitter: int)
    requires TimedEvents(es, jitter) && es != []
    ensures forall r :: r in Only(es[1..], k) ==> es[0].request.now <= r.now
    ensures es[0].request.now > 0 && Drawn(es[0].request, jitter)
  {
    OnlyIsFromEvents(es[1..], k);
    forall r | r in Only(es[1..], k)
      ensures es[0].request.now <= r.now
    {
      var j :| 0 <= j < |es[1..]| && r == es[1..][j].request;
      assert es[j + 1] == es[1..][j];
    }
  }

  lemma {:induction false} OnlyIsTimed(es: seq<Event>, k: Key, jitter: int)
    requires TimedEvents(es, jitter)
    ensures Timed(Only(es, k), jitter)
  {
    if es != [] {
      TimedEventsTail(es, jitter);
      FirstIsEarliest(es, k, jitter);
      hide TimedEvents;
      hide Timed;
      hide Drawn;
      OnlyIsTimed(es[1..], k, jitter);
      var rest := Only(es[1..], k);
      if es[0].key == k {
        TimedCons(es[0].request, rest, jitter);
      } else {
        assert [] + rest == rest;
      }
    }
  }

  /** Over any run of the limiter a key is granted at most 2 * limit - 1 requests in any interval as long as the window. */
  lemma LimiterBound(l: Limits, es: seq<Event>, k: Key, lo: int)
    requires TimedEvents(es, l.jitter) && !Unlimited(k)
    ensures GrantedTo(Table(map[], map[]), l, es, k, lo, lo + l.window) <= Cap(LimitOf(l, k))
  {
    KeysAreIndependent(Table(map[], map[]), l, es, k, lo, lo + l.window);
    OnlyIsTimed(es, k, l.jitter);
    AtMostTwiceTheLimit(FRESH, LimitOf(l, k), l.window, l.jitter, Only(es, k), lo);
  }

  // ---- The limiter's objects ----

  class Bucket {
    var count: int
    var windowEnd: int

    function View(): Window
      reads this
    {
      Window(count, windowEnd)
    }

    constructor ()
      ensures View() == FRESH
    {
      count, windowEnd := 0, 0;
    }

    method Allow(limit: int, window: int, jitter: int, r: Request) returns (answer: Answer)
      modifies this
      ensures answer == Decide(old(View()), limit, window, jitter, r)
      ensures View() == After(old(View()), limit, window, jitter, r)
    {
      if r.now > windowEnd {
        count := 0;
        windowEnd := r.now + window;
        if jitter > 0 {
          windowEnd := windowEnd + r.draw;
        }
      }
      if count >= limit {
        var retryAfter := windowEnd - r.now;
        if retryAfter < 0 {
          retryAfter := 0;
        }
        return Answer(false, retryAfter);
      }
      count := count + 1;
      answer := Answer(true, 0);
    }
  }

  /** A map of buckets and its lock. */
  class BucketMap {
    var buckets: map<string, Bucket>
    ghost var repr: set<object>

    /** Every key has its own bucket. */
    ghost predicate Valid()
      reads this, repr
    {
      && this in repr
      && (forall k :: k in buckets ==> buckets[k] in repr && buckets[k] as object != this)
      && (forall j, k :: j in buckets && k in buckets && j != k ==> buckets[j] != buckets[k])
    }

    ghost function Windows(): map<string, Window>
      requires Valid()
      reads this, repr
    {
      map k | k in buckets :: buckets[k].View()
    }

    constructor ()
      ensures Valid() && fresh(repr) && Windows() == map[]
    {
      buckets, repr := map[], {this};
    }

    /** The section under the write lock: another caller may have inserted the key since it was looked up. */
    method InsertIfAbsent(key: string) returns (b: Bucket)
      requires Valid()
      modifies this
      ensures Valid() && fresh(repr - old(repr)) && old(repr) <= repr
      ensures key in buckets && buckets[key] == b
      ensures forall k :: k in old(buckets) ==> k in buckets && buckets[k] == old(buckets)[k]
      ensures Windows() == if key in old(buckets) then old(Windows()) else old(Windows())[key := FRESH]
    {
      if key in buckets {
        return buckets[key];
      }
      b := new Bucket();
      buckets := buckets[key := b];
      repr := repr + {b};
    }

    method GetBucket(key: string) returns (b: Bucket)
      requires Valid()
      modifies this
      ensures Valid() && fresh(repr - old(repr)) && old(repr) <= repr
      ensures key in buckets && buckets[key] == b
      ensures forall k :: k in old(buckets) ==> k in buckets && buckets[k] == old(buckets)[k]
      ensures Windows() == if key in old(buckets) then old(Windows()) else old(Windows())[key := FRESH]
    {
      if key in buckets {
        return buckets[key];
      }
      b := InsertIfAbsent(key);
    }

    method AllowKnown(key: string, limit: int, window: int, jitter: int, r: Request) returns (answer: Answer)
      requires Valid() && key in buckets
      modifies buckets[key]
      ensures Valid()
      ensures answer == Decide(old(Windows())[key], limit, window, jitter, r)
      ensures Windows() == old(Windows())[key := After(old(Windows())[key], limit, window, jitter, r)]
    {
      hide Decide;
      hide After;
      ghost var before := Windows();
      assert before[key] == buckets[key].View();
      answer := buckets[key].Allow(limit, window, jitter, r);
      assert Windows() == before[key := buckets[key].View()];
    }

    method Allow(key: string, limit: int, window: int, jitter: int, r: Request) returns (answer: Answer)
      requires Valid()
      modifies repr
      ensures Valid() && fresh(repr - old(repr))
      ensures answer == Decide(WindowAt(old(Windows()), key), limit, window, jitter, r)
      ensures Windows() == old(Windows())[key := After(WindowAt(old(Windows()), key), limit, window, jitter, r)]
    {
      hide Decide;
      hide After;
      ghost var before := Windows();
      var b := GetBucket(key);
      assert Windows()[key] == WindowAt(before, key);
      answer := AllowKnown(key, limit, window, jitter, r);
    }
  }

  /** Go's division by two, which truncates toward zero. */
  function Half(d: int): int {
    if d >= 0 then d / 2 else -(-d / 2)
  }

  class RateLimiter {
    const limits: Limits
    const ips: BucketMap
    const toks: BucketMap

    ghost predicate Valid()
      reads this, ips, toks, ips.repr, toks.repr
    {
      ips.Valid() && toks.Valid() && ips.repr !! toks.repr
    }

    ghost function View(): Table
      requires Valid()
      reads this, ips, toks, ips.repr, toks.repr
    {
      Table(ips.Windows(), toks.Windows())
    }

    /** The jitter is capped at half the window, so a window never lasts more than half as long again. */
    constructor (perIP: int, perToken: int, window: int, maxJitter: int)
      ensures Valid() && fresh(ips.repr) && fresh(toks.repr) && View() == Table(map[], map[])
      ensures limits == Limits(perIP, perToken, window, if maxJitter > Half(window) then Half(window) else maxJitter)
      ensures forall r: Request :: window >= 0 && Drawn(r, limits.jitter) ==>
                window <= Current(FRESH, window, limits.jitter, r.(now := 1)).end - 1 <= window + window / 2
    {
      limits := Limits(perIP, perToken, window, if maxJitter > Half(window) then Half(window) else maxJitter);
      ips := new BucketMap();
      toks := new BucketMap();
    }

    /** host is what net.SplitHostPort extracts from the remote address, if it can. */
    method AllowIP(remoteAddr: string, host: Option<string>, r: Request) returns (answer: Answer)
      requires Valid()
      modifies ips.repr
      ensures Valid() && fresh(ips.repr - old(ips.repr))
      ensures var e := Event(Ip(if host.Some? then host.value else remoteAddr), r);
              answer == AnswerTo(old(View()), limits, e) && View() == AfterEvent(old(View()), limits, e)
    {
      var ip := if host.Some? then host.value else remoteAddr;
      answer := ips.Allow(ip, limits.perIP, limits.window, limits.jitter, r);
    }

    method AllowToken(token: string, r: Request) returns (answer: Answer)
      requires Valid()
      modifies toks.repr
      ensures Valid() && fresh(toks.repr - old(toks.repr))
      ensures var e := Event(Token(token), r);
              answer == AnswerTo(old(View()), limits, e) && View() == AfterEvent(old(View()), limits, e)
    {
      if token == "" {
        return Answer(true, 0);
      }
      answer := toks.Allow(token, limits.perToken, limits.window, limits.jitter, r);
    }
  }
}
