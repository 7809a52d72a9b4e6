/**
 For which lists of routes a lookup never misses: a condition on the list alone,
 met exactly when every path that some route with the method fits is found.
 */
module RouteCoverage {
  import opened Wrappers
  import opened Paths
  import opened RouteSpec
  import opened RouteIndex

  predicate Carries(routes: seq<Entry>, s: Shape, verb: string) {
    LastEntry(routes, s, verb).Some?
  }

  /** Some path fits both shapes. */
  predicate Compatible(s: Shape, t: Shape) {
    && |s| == |t|
    && forall i :: 0 <= i < |s| ==> s[i] == Param || t[i] == Param || s[i] == t[i]
  }

  /** Every path that fits both s and t fits u. */
  predicate Between(u: Shape, s: Shape, t: Shape) {
    && |u| == |s| == |t|
    && forall i :: 0 <= i < |u| ==> u[i] == Param || u[i] == s[i] || u[i] == t[i]
  }

  /** s is the start of a route, carries no entry, and can be chosen for a path that t fits. */
  ghost predicate Hides(routes: seq<Entry>, verb: string, s: Shape, t: Shape) {
    && Known(routes, s) && !Carries(routes, s, verb)
    && Carries(routes, t, verb) && Compatible(s, t)
    && forall u :: Known(routes, u) && Between(u, s, t) ==> !Before(u, s)
  }

  ghost predicate NothingHidden(routes: seq<Entry>, verb: string) {
    forall s, t :: !Hides(routes, verb, s, t)
  }

  /** Every path that fits a route with the method is found. */
  ghost predicate FindsAllFitting(routes: seq<Entry>, verb: string) {
    forall i, path, r ::
      (&& 0 <= i < |routes| && Upper(routes[i].verb) == Upper(verb)
       && Fits(RouteShape(routes[i]), Segments(path)) && Answers(routes, verb, path, r)) ==> r.Some?
  }

  // ---- Shapes that fit the same path ----

  lemma FittingIsOrdered(s: Shape, t: Shape, segs: seq<string>)
    requires Fits(s, segs) && Fits(t, segs) && s != t
    ensures Before(s, t) || Before(t, s)
  {
    var k := FirstDifference(s, t);
    assert s[..k] == t[..k];
  }

  lemma HiddenIsChosen(routes: seq<Entry>, verb: string, s: Shape, t: Shape, segs: seq<string>)
    requires Hides(routes, verb, s, t) && Fits(s, segs)
    requires forall u :: Known(routes, u) && Fits(u, segs) ==> Between(u, s, t)
    ensures Chosen(routes, segs, s)
  {
    forall u | Candidate(routes, segs, u) && u != s
      ensures Before(s, u)
    {
      FittingIsOrdered(s, u, segs);
    }
  }

  // ---- A path for two shapes ----

  function LongestOf(segs: seq<string>): nat {
    if segs == [] then 0
    else
      var front, last := LongestOf(segs[..|segs| - 1]), |segs[|segs| - 1]|;
      if front < last then last else front
  }

  function Longest(routes: seq<Entry>): nat {
    if routes == [] then 0
    else
      var front, last := Longest(routes[..|routes| - 1]), LongestOf(Segments(routes[|routes| - 1].path));
      if front < last then last else front
  }

  lemma {:induction false} LongestOfBounds(segs: seq<string>, i: nat)
    requires i < |segs|
    ensures |segs[i]| <= LongestOf(segs)
  {
    if i < |segs| - 1 {
      LongestOfBounds(segs[..|segs| - 1], i);
    }
  }

  lemma {:induction false} LongestBounds(routes: seq<Entry>, i: nat)
    requires i < |routes|
    ensures LongestOf(Segments(routes[i].path)) <= Longest(routes)
  {
    if i < |routes| - 1 {
      LongestBounds(routes[..|routes| - 1], i);
    }
  }

  /** The literals of a known shape are segments, and no longer than the longest one. */
  lemma KnownLiterals(routes: seq<Entry>, s: Shape, i: nat)
    requires Known(routes, s) && i < |s| && s[i].Static?
    ensures IsSegment(s[i].text) && |s[i].text| <= Longest(routes)
  {
    var r :| 0 <= r < |routes| && s <= RouteShape(routes[r]);
    var segs := Segments(routes[r].path);
    assert s[i] == RouteShape(routes[r])[i] == KeyOf(segs[i]);
    SegmentsAreSegments(routes[r].path);
    assert segs[i] in segs;
    LongestOfBounds(segs, i);
    LongestBounds(routes, r);
  }

  /** A segment that is no literal of any route. */
  function Unused(routes: seq<Entry>): (seg: string)
    ensures IsSegment(seg) && |seg| > Longest(routes)
  {
    seq(Longest(routes) + 1, i => 'x')
  }

  function SharedSegment(routes: seq<Entry>, a: Key, b: Key): string {
    if a.Static? then a.text else if b.Static? then b.text else Unused(routes)
  }

  /** The segments that s and t fit and that leave everything else open. */
  function SharedPath(routes: seq<Entry>, s: Shape, t: Shape): seq<string>
    requires |s| == |t|
  {
    seq(|s|, i requires 0 <= i < |s| => SharedSegment(routes, s[i], t[i]))
  }

  lemma SharedPathFits(routes: seq<Entry>, s: Shape, t: Shape)
    requires Known(routes, s) && Known(routes, t) && Compatible(s, t)
    ensures var segs := SharedPath(routes, s, t);
            && Segments(Join(segs)) == segs && Fits(s, segs) && Fits(t, segs)
            && forall u :: Known(routes, u) && Fits(u, segs) ==> Between(u, s, t)
  {
    var segs := SharedPath(routes, s, t);
    hide Known;
    forall seg | seg in segs
      ensures IsSegment(seg)
    {
      var i :| 0 <= i < |segs| && segs[i] == seg;
      if s[i].Static? {
        KnownLiterals(routes, s, i);
      } else if t[i].Static? {
        KnownLiterals(routes, t, i);
      }
    }
    SegmentsOfJoin(segs);
    forall u: Shape | Known(routes, u) && Fits(u, segs)
      ensures Between(u, s, t)
    {
      forall i | 0 <= i < |u|
        ensures u[i] == Param || u[i] == s[i] || u[i] == t[i]
      {
        if u[i].Static? {
          KnownLiterals(routes, u, i);
        }
      }
    }
  }

  // ---- The two directions ----

  lemma HiddenRouteIsMissed(routes: seq<Entry>, verb: string, s: Shape, t: Shape)
    requires Hides(routes, Upper(verb), s, t)
    ensures !FindsAllFitting(routes, verb)
  {
    LastEntryListed(routes, t, Upper(verb));
    var i :| 0 <= i < |routes| && RouteShape(routes[i]) == t && Upper(routes[i].verb) == Upper(verb);
    assert t <= RouteShape(routes[i]);
    SharedPathFits(routes, s, t);
    var segs := SharedPath(routes, s, t);
    HiddenIsChosen(routes, Upper(verb), s, t, segs);
    var path := Join(segs);
    assert Answers(routes, verb, path, None) by {
      forall c | Chosen(routes, segs, c)
        ensures LastEntry(routes, c, Upper(verb)) == None
      {
        ChosenUnique(routes, segs, s, c);
      }
    }
    assert Fits(RouteShape(routes[i]), Segments(path));
  }

  lemma FittingRouteIsFound(routes: seq<Entry>, verb: string, i: nat, path: string, r: Option<LookupResult>)
    requires NothingHidden(routes, Upper(verb))
    requires i < |routes| && Upper(routes[i].verb) == Upper(verb) && Fits(RouteShape(routes[i]), Segments(path))
    requires Answers(routes, verb, path, r)
    ensures r.Some?
  {
    var segs, t := Segments(path), RouteShape(routes[i]);
    LastEntryFound(routes, i, t, Upper(verb));
    FittingRouteGivesChoice(routes, i, path);
    var s :| Chosen(routes, segs, s);
    if !Carries(routes, s, Upper(verb)) {
      FittingIsCompatible(s, t, segs);
      assert !Hides(routes, Upper(verb), s, t);
      var u :| Known(routes, u) && Between(u, s, t) && Before(u, s);
      BetweenFits(u, s, t, segs);
      assert Candidate(routes, segs, u);
      BeforeAsymmetric(u, s);
    }
  }

  lemma FittingIsCompatible(s: Shape, t: Shape, segs: seq<string>)
    requires Fits(s, segs) && Fits(t, segs)
    ensures Compatible(s, t)
  {
  }

  lemma BetweenFits(u: Shape, s: Shape, t: Shape, segs: seq<string>)
    requires Between(u, s, t) && Fits(s, segs) && Fits(t, segs)
    ensures Fits(u, segs)
  {
  }

  /**
   A list of routes answers every path that one of its routes with the method
   fits if and only if no start of a route hides one: each start s without an
   entry that shares a path with a route t is preceded by another start that
   fits everything s and t share.
   */
  lemma EveryFittingPathFoundExactlyWhenNothingHidden(routes: seq<Entry>, verb: string)
    ensures FindsAllFitting(routes, verb) <==> NothingHidden(routes, Upper(verb))
  {
    if NothingHidden(routes, Upper(verb)) {
      forall i, path, r | 0 <= i < |routes| && Upper(routes[i].verb) == Upper(verb)
                          && Fits(RouteShape(routes[i]), Segments(path)) && Answers(routes, verb, path, r)
        ensures r.Some?
      {
        FittingRouteIsFound(routes, verb, i, path, r);
      }
    } else {
      var s, t :| Hides(routes, Upper(verb), s, t);
      HiddenRouteIsMissed(routes, verb, s, t);
    }
  }
}
