/**
 What the limiter promises an address and a token, each with its own limit.
 */
module LimiterLaws {
  import opened RateLimiter

  /** Any interval as long as the window grants an address fewer than twice the address limit. */
  lemma AddressBound(l: Limits, es: seq<Event>, addr: string, lo: int)
    requires TimedEvents(es, l.jitter)
    ensures GrantedTo(Table(map[], map[]), l, es, Ip(addr), lo, lo + l.window) <= if l.perIP >= 1 then 2 * l.perIP - 1 else 0
  {
    LimiterBound(l, es, Ip(addr), lo);
  }

  /** And a token fewer than twice the token limit. */
  lemma TokenBound(l: Limits, es: seq<Event>, text: string, lo: int)
    requires TimedEvents(es, l.jitter) && text != ""
    ensures GrantedTo(Table(map[], map[]), l, es, Token(text), lo, lo + l.window)
         <= if l.perToken >= 1 then 2 * l.perToken - 1 else 0
  {
    LimiterBound(l, es, Token(text), lo);
  }

  /** The requests all come at one time after the start. */
  predicate AtOnce(rs: seq<Request>, now: int, jitter: int) {
    now > 0 && forall i :: 0 <= i < |rs| ==> rs[i].now == now && Drawn(rs[i], jitter)
  }

  /** One window grants what it has left and denies the rest. */
  lemma {:induction false} WindowGrantsTheRest(b: Window, limit: int, l: Limits, rs: seq<Request>, now: int)
    requires AtOnce(rs, now, l.jitter) && b.end >= now && b.count >= 0
    ensures var answers := AnswersAlone(b, limit, l, rs);
            |answers| == |rs| && forall i :: 0 <= i < |rs| ==> (answers[i].ok <==> b.count + i < limit)
    decreases |rs|
  {
    if rs != [] {
      var next := After(b, limit, l.window, l.jitter, rs[0]);
      assert Decide(b, limit, l.window, l.jitter, rs[0]).ok <==> b.count < limit;
      assert next.end == b.end && next.count == if b.count < limit then b.count + 1 else b.count;
      WindowGrantsTheRest(next, limit, l, rs[1..], now);
    }
  }

  /** A fresh window grants the limit and denies the rest. */
  lemma FreshGrantsTheLimit(limit: int, l: Limits, rs: seq<Request>, now: int)
    requires AtOnce(rs, now, l.jitter) && l.window >= 0
    ensures var answers := AnswersAlone(FRESH, limit, l, rs);
            |answers| == |rs| && forall i :: 0 <= i < |rs| ==> (answers[i].ok <==> i < limit)
  {
    if rs != [] {
      var entered := Window(0, now + l.window + if l.jitter > 0 then rs[0].draw else 0);
      assert Current(FRESH, l.window, l.jitter, rs[0]) == entered == Current(entered, l.window, l.jitter, rs[0]);
      assert AnswersAlone(FRESH, limit, l, rs) == AnswersAlone(entered, limit, l, rs);
      WindowGrantsTheRest(entered, limit, l, rs, now);
    }
  }

  /** From an empty limiter, the requests of an address at one time are granted up to the address limit, whatever else comes. */
  lemma AddressIsGrantedItsLimit(l: Limits, es: seq<Event>, addr: string, now: int)
    requires AtOnce(Only(es, Ip(addr)), now, l.jitter) && l.window >= 0
    ensures var answers := AnswersFor(Table(map[], map[]), l, es, Ip(addr));
            |answers| == |Only(es, Ip(addr))| && forall i :: 0 <= i < |answers| ==> (answers[i].ok <==> i < l.perIP)
  {
    KeysAreIndependent(Table(map[], map[]), l, es, Ip(addr), 0, 0);
    FreshGrantsTheLimit(l.perIP, l, Only(es, Ip(addr)), now);
  }

  /** Those of a token up to the token limit. */
  lemma TokenIsGrantedItsLimit(l: Limits, es: seq<Event>, text: string, now: int)
    requires text != "" && AtOnce(Only(es, Token(text)), now, l.jitter) && l.window >= 0
    ensures var answers := AnswersFor(Table(map[], map[]), l, es, Token(text));
            |answers| == |Only(es, Token(text))| && forall i :: 0 <= i < |answers| ==> (answers[i].ok <==> i < l.perToken)
  {
    KeysAreIndependent(Table(map[], map[]), l, es, Token(text), 0, 0);
    FreshGrantsTheLimit(l.perToken, l, Only(es, Token(text)), now);
  }

  /** Requests without a token are never limited by token, and leave nothing behind. */
  lemma {:induction false} WithoutTokenAlwaysGranted(t: Table, l: Limits, es: seq<Event>)
    ensures forall i :: 0 <= i < |AnswersFor(t, l, es, Token(""))| ==> AnswersFor(t, l, es, Token(""))[i] == Answer(true, 0)
    decreases |es|
  {
    if es != [] {
      WithoutTokenAlwaysGranted(AfterEvent(t, l, es[0]), l, es[1..]);
    }
  }

  /** The first request after a window's end opens one that ends a window's length and its draw later, and counts itself. */
  lemma NewWindowEndsAfterWindowAndDraw(b: Window, limit: int, window: int, jitter: int, r: Request)
    requires r.now > b.end && limit >= 1
    ensures After(b, limit, window, jitter, r) == Window(1, r.now + window + if jitter > 0 then r.draw else 0)
    ensures Decide(b, limit, window, jitter, r) == Answer(true, 0)
  {
  }

  /** Until its end a full window denies, and says how long it lasts. */
  lemma FullWindowDenies(b: Window, limit: int, window: int, jitter: int, r: Request)
    requires r.now <= b.end && b.count >= limit
    ensures After(b, limit, window, jitter, r) == b
    ensures Decide(b, limit, window, jitter, r) == Answer(false, b.end - r.now)
  {
  }

  /** The cap on the jitter is half the window, with half a tick dropped toward zero. */
  lemma HalfDropsTowardZero(d: int)
    ensures d >= 0 ==> 0 <= d - 2 * Half(d) <= 1
    ensures d < 0 ==> -1 <= d - 2 * Half(d) <= 0
  {
  }
}
