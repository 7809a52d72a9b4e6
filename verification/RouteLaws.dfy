/**
 What a lookup answers, said of the text of paths and methods alone: letters,
 slashes and colons, and no shape, key or upper-casing.
 */
module RouteLaws {
  import opened Wrappers
  import opened Paths
  import opened RouteSpec
  import opened RouteIndex

  // ---- Methods ----

  /** The letters are the same, or an ASCII letter in its two cases. */
  predicate SameLetter(a: char, b: char) {
    || a == b
    || ('a' <= a <= 'z' && b as int == a as int - 32)
    || ('A' <= a <= 'Z' && b as int == a as int + 32)
  }

  predicate SameUpToCase(s: string, t: string) {
    |s| == |t| && forall i :: 0 <= i < |s| ==> SameLetter(s[i], t[i])
  }

  lemma UpperCharAgrees(a: char, b: char)
    ensures UpperChar(a) == UpperChar(b) <==> SameLetter(a, b)
  {
  }

  /** Upper-casing identifies exactly the methods that are equal up to the case of letters. */
  lemma UpperAgreesExactlyUpToCase(s: string, t: string)
    ensures Upper(s) == Upper(t) <==> SameUpToCase(s, t)
  {
    hide UpperChar;
    hide SameLetter;
    if SameUpToCase(s, t) {
      forall i | 0 <= i < |s|
        ensures Upper(s)[i] == Upper(t)[i]
      {
        UpperCharAgrees(s[i], t[i]);
      }
    }
    if Upper(s) == Upper(t) {
      assert |Upper(s)| == |s| && |Upper(t)| == |t|;
      forall i | 0 <= i < |s|
        ensures SameLetter(s[i], t[i])
      {
        assert Upper(s)[i] == Upper(t)[i];
        UpperCharAgrees(s[i], t[i]);
      }
    }
  }

  // ---- Patterns ----

  /** The segment of a pattern stands for any text. */
  predicate Open(seg: string) {
    |seg| > 0 && seg[0] == ':'
  }

  /** The path has the pattern's segments, with any text where the pattern is open. */
  predicate FitsPattern(pattern: seq<string>, path: seq<string>) {
    |pattern| == |path| && forall p :: 0 <= p < |path| ==> Open(pattern[p]) || pattern[p] == path[p]
  }

  /** The patterns differ at most in the names of what is open. */
  predicate SamePattern(a: seq<string>, b: seq<string>) {
    |a| == |b| && forall p :: 0 <= p < |a| ==> a[p] == b[p] || (Open(a[p]) && Open(b[p]))
  }

  /** The first p + 1 segments of pattern a are also those of b, up to names. */
  predicate Passes(a: seq<string>, b: seq<string>, p: nat) {
    p < |a| && p < |b| && SamePattern(a[..p + 1], b[..p + 1])
  }

  lemma KeysAgree(a: string, b: string)
    ensures KeyOf(a) == KeyOf(b) <==> a == b || (Open(a) && Open(b))
    ensures KeyOf(a) == Param <==> Open(a)
    ensures KeyOf(a) == Static(b) <==> !Open(a) && a == b
  {
  }

  lemma ShapesAgree(a: seq<string>, b: seq<string>)
    ensures ShapeOf(a) == ShapeOf(b) <==> SamePattern(a, b)
  {
    hide KeyOf;
    hide Open;
    forall p | 0 <= p < |a| && p < |b|
      ensures KeyOf(a[p]) == KeyOf(b[p]) <==> a[p] == b[p] || (Open(a[p]) && Open(b[p]))
    {
      KeysAgree(a[p], b[p]);
    }
    if ShapeOf(a) == ShapeOf(b) {
      assert |ShapeOf(a)| == |a| && |ShapeOf(b)| == |b|;
      assert forall p :: 0 <= p < |a| ==> KeyOf(a[p]) == ShapeOf(a)[p] == ShapeOf(b)[p] == KeyOf(b[p]);
    }
    if SamePattern(a, b) {
      assert forall p :: 0 <= p < |a| ==> ShapeOf(a)[p] == ShapeOf(b)[p];
    }
  }

  lemma FitsAgree(pattern: seq<string>, path: seq<string>)
    ensures Fits(ShapeOf(pattern), path) <==> FitsPattern(pattern, path)
  {
    hide KeyOf;
    hide Open;
    forall p | 0 <= p < |pattern| && p < |path|
      ensures KeyOf(pattern[p]) == Param || KeyOf(pattern[p]) == Static(path[p]) <==> Open(pattern[p]) || pattern[p] == path[p]
    {
      KeysAgree(pattern[p], path[p]);
    }
    if Fits(ShapeOf(pattern), path) {
      assert forall p :: 0 <= p < |path| ==> ShapeOf(pattern)[p] == KeyOf(pattern[p]);
    }
  }

  lemma PassesAgree(a: seq<string>, b: seq<string>, p: nat)
    requires p < |a|
    ensures ShapeOf(a)[..p + 1] <= ShapeOf(b) <==> Passes(b, a, p)
  {
    if p < |b| {
      assert ShapeOf(a)[..p + 1] == ShapeOf(a[..p + 1]);
      assert ShapeOf(b)[..p + 1] == ShapeOf(b[..p + 1]);
      ShapesAgree(b[..p + 1], a[..p + 1]);
      hide ShapeOf;
    }
  }

  // ---- What is answered ----

  lemma LastEntryIsListed(routes: seq<Entry>, s: Shape, verb: string)
    requires LastEntry(routes, s, verb).Some?
    ensures exists i :: 0 <= i < |routes| && LastEntry(routes, s, verb) == Some(routes[i])
                        && RouteShape(routes[i]) == s && Upper(routes[i].verb) == verb
                        && forall k :: i < k < |routes| ==> !(RouteShape(routes[k]) == s && Upper(routes[k].verb) == verb)
  {
    LastEntryListed(routes, s, verb);
    var i :| 0 <= i < |routes| && RouteShape(routes[i]) == s && Upper(routes[i].verb) == verb;
    LastEntryFound(routes, i, s, verb);
  }

  /** Entry i answers: its pattern fits the path, its method is the requested one, and no later route has both. */
  ghost predicate Serves(routes: seq<Entry>, i: nat, verb: string, path: string) {
    && i < |routes|
    && FitsPattern(Segments(routes[i].path), Segments(path))
    && SameUpToCase(routes[i].verb, verb)
    && forall k :: i < k < |routes| ==>
         !(SamePattern(Segments(routes[k].path), Segments(routes[i].path)) && SameUpToCase(routes[k].verb, verb))
  }

  /**
   What a lookup answers is a listed route whose pattern fits the path and whose
   method equals the requested one letter by letter up to case, and the last
   such route of its pattern.
   */
  lemma AnswerIsListedRoute(routes: seq<Entry>, verb: string, path: string, found: LookupResult)
    requires Answers(routes, verb, path, Some(found))
    ensures exists i: nat :: Serves(routes, i, verb, path) && found.entry == routes[i]
  {
    var segs := Segments(path);
    var s :| Chosen(routes, segs, s) && LastEntry(routes, s, Upper(verb)) == Some(found.entry)
             && Captures(routes, s, segs, found.params);
    LastEntryIsListed(routes, s, Upper(verb));
    var i: nat :| i < |routes| && LastEntry(routes, s, Upper(verb)) == Some(routes[i])
             && RouteShape(routes[i]) == s && Upper(routes[i].verb) == Upper(verb)
             && forall k :: i < k < |routes| ==> !(RouteShape(routes[k]) == s && Upper(routes[k].verb) == Upper(verb));
    UpperAgreesExactlyUpToCase(routes[i].verb, verb);
    FitsAgree(Segments(routes[i].path), segs);
    forall k | i < k < |routes|
      ensures !(SamePattern(Segments(routes[k].path), Segments(routes[i].path)) && SameUpToCase(routes[k].verb, verb))
    {
      UpperAgreesExactlyUpToCase(routes[k].verb, verb);
      ShapesAgree(Segments(routes[k].path), Segments(routes[i].path));
    }
    assert Fits(s, segs);
    hide *;
    assert Serves(routes, i, verb, path) by { ServesMeans(routes, i, verb, path); }
  }

  lemma ServesMeans(routes: seq<Entry>, i: nat, verb: string, path: string)
    requires i < |routes| && FitsPattern(Segments(routes[i].path), Segments(path)) && SameUpToCase(routes[i].verb, verb)
    requires forall k :: i < k < |routes| ==>
               !(SamePattern(Segments(routes[k].path), Segments(routes[i].path)) && SameUpToCase(routes[k].verb, verb))
    ensures Serves(routes, i, verb, path)
  {
  }

  /** A route whose method differs by more than case, or whose pattern does not fit, is never answered. */
  lemma OtherMethodIsNeverAnswered(routes: seq<Entry>, verb: string, path: string, found: LookupResult)
    requires !SameUpToCase(found.entry.verb, verb) || !FitsPattern(Segments(found.entry.path), Segments(path))
    ensures !Answers(routes, verb, path, Some(found))
  {
    if Answers(routes, verb, path, Some(found)) {
      AnswerIsListedRoute(routes, verb, path, found);
    }
  }

  /** A registered pattern, looked up as a path under its own method in any case, answers the last route of that pattern and method. */
  lemma OwnPatternIsServed(routes: seq<Entry>, i: nat, verb: string, r: Option<LookupResult>)
    requires i < |routes| && SameUpToCase(routes[i].verb, verb) && Answers(routes, verb, routes[i].path, r)
    ensures r.Some?
    ensures exists j :: i <= j < |routes| && r.value.entry == routes[j]
                        && SamePattern(Segments(routes[j].path), Segments(routes[i].path)) && SameUpToCase(routes[j].verb, verb)
                        && forall k :: j < k < |routes| ==>
                             !(SamePattern(Segments(routes[k].path), Segments(routes[i].path)) && SameUpToCase(routes[k].verb, verb))
  {
    UpperAgreesExactlyUpToCase(routes[i].verb, verb);
    OwnPatternAnswers(routes, i, verb, r);
    var j :| i <= j < |routes| && r.value.entry == routes[j]
             && RouteShape(routes[j]) == RouteShape(routes[i]) && Upper(routes[j].verb) == Upper(verb)
             && forall k :: j < k < |routes| ==>
                  !(RouteShape(routes[k]) == RouteShape(routes[i]) && Upper(routes[k].verb) == Upper(verb));
    forall k | j <= k < |routes|
      ensures (SamePattern(Segments(routes[k].path), Segments(routes[i].path)) && SameUpToCase(routes[k].verb, verb))
         <==> (RouteShape(routes[k]) == RouteShape(routes[i]) && Upper(routes[k].verb) == Upper(verb))
    {
      UpperAgreesExactlyUpToCase(routes[k].verb, verb);
      ShapesAgree(Segments(routes[k].path), Segments(routes[i].path));
    }
    hide *;
  }

  // ---- Captured parameters ----

  lemma NameIsAfterColon(name: string)
    ensures NameOf(":" + name) == name
  {
    assert (":" + name)[1..] == name;
  }

  /** Route r is the first whose pattern starts as this one does up to position p. */
  predicate FirstToPass(routes: seq<Entry>, pattern: seq<string>, p: nat, r: nat) {
    && r < |routes|
    && Passes(Segments(routes[r].path), pattern, p)
    && forall q :: 0 <= q < r ==> !Passes(Segments(routes[q].path), pattern, p)
  }

  /** A parameter is named by the text after the colon in the first such route. */
  lemma {:induction false} NameIsThatOfFirst(routes: seq<Entry>, pattern: seq<string>, p: nat, r: nat)
    requires p < |pattern| && Open(pattern[p]) && FirstToPass(routes, pattern, p, r)
    ensures Segments(routes[r].path)[p] == ":" + ParamName(routes, ShapeOf(pattern), p)
  {
    var s := ShapeOf(pattern)[..p + 1];
    PassesAgree(pattern, Segments(routes[0].path), p);
    if r == 0 {
      var seg := Segments(routes[0].path)[p];
      assert Segments(routes[0].path)[..p + 1][p] == seg && pattern[..p + 1][p] == pattern[p];
      assert seg == ":" + seg[1..];
    } else {
      var rest := routes[1..];
      assert forall q :: 0 <= q < |rest| ==> rest[q] == routes[q + 1];
      assert FirstToPass(rest, pattern, p, r - 1);
      NameIsThatOfFirst(rest, pattern, p, r - 1);
    }
  }

  /** Position p of the pattern binds this name. */
  ghost predicate NamedAt(routes: seq<Entry>, pattern: seq<string>, p: nat, name: string) {
    && p < |pattern| && Open(pattern[p])
    && exists r: nat :: FirstToPass(routes, pattern, p, r) && Segments(routes[r].path)[p] == ":" + name
  }

  /** And no later position does. */
  ghost predicate LastNamedAt(routes: seq<Entry>, pattern: seq<string>, p: nat, name: string) {
    NamedAt(routes, pattern, p, name) && forall q: nat :: q > p ==> !NamedAt(routes, pattern, q, name)
  }

  lemma {:induction false} SomeoneIsFirst(routes: seq<Entry>, pattern: seq<string>, p: nat, i: nat) returns (r: nat)
    requires i < |routes| && Passes(Segments(routes[i].path), pattern, p)
    ensures r <= i && FirstToPass(routes, pattern, p, r)
    decreases i
  {
    if q: nat :| q < i && Passes(Segments(routes[q].path), pattern, p) {
      r := SomeoneIsFirst(routes, pattern, p, q);
    } else {
      r := i;
    }
  }

  lemma NamedIsParamName(routes: seq<Entry>, i: nat, p: nat, name: string)
    requires i < |routes|
    requires p < |Segments(routes[i].path)| && Open(Segments(routes[i].path)[p])
    ensures NamedAt(routes, Segments(routes[i].path), p, name)
       <==> ParamName(routes, RouteShape(routes[i]), p) == name
  {
    var pattern := Segments(routes[i].path);
    assert Passes(pattern, pattern, p);
    var r := SomeoneIsFirst(routes, pattern, p, i);
    NameIsThatOfFirst(routes, pattern, p, r);
    hide FirstName;
    var own := ParamName(routes, RouteShape(routes[i]), p);
    hide ParamName;
    hide ShapeOf;
    if NamedAt(routes, pattern, p, name) {
      var l: nat :| FirstToPass(routes, pattern, p, l) && Segments(routes[l].path)[p] == ":" + name;
      assert l == r;
      assert (":" + name)[1..] == name && (":" + own)[1..] == own;
    }
  }

  /** The parameters in the words of the patterns: nothing without any; otherwise each name with the segment of its last position, and nothing else. */
  ghost predicate CapturesByText(routes: seq<Entry>, pattern: seq<string>, path: seq<string>, params: Option<Params>) {
    match params
    case None => forall p :: 0 <= p < |pattern| ==> !Open(pattern[p])
    case Some(m) =>
      && (exists p :: 0 <= p < |pattern| && Open(pattern[p]))
      && (forall p: nat, name :: NamedAt(routes, pattern, p, name) ==> name in m)
      && (forall name :: name in m ==>
            exists p: nat :: LastNamedAt(routes, pattern, p, name) && p < |path| && m[name] == path[p])
  }

  /**
   A lookup captures, for each open position of the answered route's pattern,
   the text after the colon in the first route that passes through it, bound to
   the path's segment there, the later position winning; and nothing else.
   */
  lemma CapturedByPatternText(routes: seq<Entry>, verb: string, path: string, found: LookupResult)
    requires Answers(routes, verb, path, Some(found))
    ensures CapturesByText(routes, Segments(found.entry.path), Segments(path), found.params)
  {
    var segs := Segments(path);
    var s :| Chosen(routes, segs, s) && LastEntry(routes, s, Upper(verb)) == Some(found.entry)
             && Captures(routes, s, segs, found.params);
    LastEntryIsListed(routes, s, Upper(verb));
    var i: nat :| i < |routes| && LastEntry(routes, s, Upper(verb)) == Some(routes[i]) && RouteShape(routes[i]) == s;
    var pattern := Segments(routes[i].path);
    forall p | 0 <= p < |pattern|
      ensures s[p] == KeyOf(pattern[p]) && (s[p] == Param <==> Open(pattern[p]))
    {
      KeysAgree(pattern[p], pattern[p]);
    }
    ParamsByText(routes, i, segs, found.params);
  }

  lemma ParamsByText(routes: seq<Entry>, i: nat, segs: seq<string>, params: Option<Params>)
    requires i < |routes| && |RouteShape(routes[i])| == |segs| && Captures(routes, RouteShape(routes[i]), segs, params)
    ensures CapturesByText(routes, Segments(routes[i].path), segs, params)
  {
    var s, pattern := RouteShape(routes[i]), Segments(routes[i].path);
    forall p: nat | p < |pattern|
      ensures s[p] == Param <==> Open(pattern[p])
    {
      KeysAgree(pattern[p], pattern[p]);
    }
    forall p: nat, name
      ensures NamedAt(routes, pattern, p, name) <==> p < |s| && s[p].Param? && ParamName(routes, s, p) == name
    {
      if p < |pattern| && Open(pattern[p]) {
        NamedIsParamName(routes, i, p, name);
      }
    }
    hide NamedAt;
    hide ShapeOf;
    hide ParamName;
    hide Open;
    if params.Some? {
      forall name | name in params.value
        ensures exists p: nat :: LastNamedAt(routes, pattern, p, name) && p < |segs| && params.value[name] == segs[p]
      {
        var p: nat :| Binds(routes, s, p, name) && params.value[name] == segs[p];
        assert LastNamedAt(routes, pattern, p, name);
      }
    }
  }
}
