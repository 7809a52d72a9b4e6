/**
 What a lookup means, stated on the flat list of routes and without a trie.

 A route's shape forgets parameter names. A lookup considers every prefix of
 a registered shape that fits the whole path, prefers a literal to a parameter
 at the first difference, and only then asks for an entry: a preferred prefix
 that carries no entry hides the routes behind it.
 */
module RouteSpec {
  import opened Wrappers
  import opened Paths

  const COLON: char := ':'

  datatype Entry = Entry(path: string, verb: string, workerId: string,
                         authRoles: seq<string>, validate: string, kind: string)
  datatype Key = Static(text: string) | Param
  type Shape = seq<Key>
  type Params = map<string, string>
  datatype LookupResult = LookupResult(entry: Entry, params: Option<Params>)

  predicate IsParam(seg: string) {
    seg != "" && seg[0] == COLON
  }

  function KeyOf(seg: string): Key {
    if IsParam(seg) then Param else Static(seg)
  }

  function NameOf(seg: string): string {
    if IsParam(seg) then seg[1..] else ""
  }

  function ShapeOf(segs: seq<string>): (s: Shape)
    ensures |s| == |segs|
  {
    seq(|segs|, i requires 0 <= i < |segs| => KeyOf(segs[i]))
  }

  function RouteShape(e: Entry): Shape {
    ShapeOf(Segments(e.path))
  }

  function UpperChar(c: char): char {
    if 'a' <= c <= 'z' then (c as int - 'a' as int + 'A' as int) as char else c
  }

  /** strings.ToUpper on ASCII methods. */
  function Upper(s: string): string {
    seq(|s|, i requires 0 <= i < |s| => UpperChar(s[i]))
  }

  lemma UpperIdempotent(s: string)
    ensures Upper(Upper(s)) == Upper(s)
  {
    assert forall i | 0 <= i < |s| :: UpperChar(UpperChar(s[i])) == UpperChar(s[i]);
  }

  // ---- Which shapes a list of routes knows ----

  /** s is the start of some route's shape; the empty shape is always known. */
  ghost predicate Known(routes: seq<Entry>, s: Shape) {
    s == [] || exists i :: 0 <= i < |routes| && s <= RouteShape(routes[i])
  }

  predicate Fits(s: Shape, segs: seq<string>) {
    && |s| == |segs|
    && forall i :: 0 <= i < |s| ==> s[i] == Param || s[i] == Static(segs[i])
  }

  /** At their first difference a is a literal where b is a parameter. */
  ghost predicate Before(a: Shape, b: Shape) {
    exists k :: 0 <= k < |a| && k < |b| && a[..k] == b[..k] && a[k].Static? && b[k].Param?
  }

  ghost predicate Candidate(routes: seq<Entry>, segs: seq<string>, s: Shape) {
    Known(routes, s) && Fits(s, segs)
  }

  /** s is the candidate that comes before every other candidate. */
  ghost predicate Chosen(routes: seq<Entry>, segs: seq<string>, s: Shape) {
    && Candidate(routes, segs, s)
    && forall t :: Candidate(routes, segs, t) && t != s ==> Before(s, t)
  }

  // ---- What a shape carries ----

  /** The last listed route with exactly this shape and upper-case method. */
  function LastEntry(routes: seq<Entry>, s: Shape, verb: string): Option<Entry> {
    if routes == [] then None
    else
      var e := routes[|routes| - 1];
      if RouteShape(e) == s && Upper(e.verb) == verb then Some(e)
      else LastEntry(routes[..|routes| - 1], s, verb)
  }

  /** The parameter name of the first listed route that passes through s. */
  ghost function FirstName(routes: seq<Entry>, s: Shape): string
    requires s != []
  {
    if routes == [] then ""
    else if s <= RouteShape(routes[0]) then NameOf(Segments(routes[0].path)[|s| - 1])
    else FirstName(routes[1..], s)
  }

  /** The name bound at position i of s. */
  ghost function ParamName(routes: seq<Entry>, s: Shape, i: nat): string
    requires i < |s|
  {
    FirstName(routes, s[..i + 1])
  }

  /** Position i of s is the last one that binds name. */
  ghost predicate Binds(routes: seq<Entry>, s: Shape, i: nat, name: string) {
    && i < |s|
    && s[i].Param?
    && ParamName(routes, s, i) == name
    && forall j :: i < j < |s| && s[j].Param? ==> ParamName(routes, s, j) != name
  }

  /** params holds exactly the parameters of s: nil when s has none. */
  ghost predicate Captures(routes: seq<Entry>, s: Shape, segs: seq<string>, params: Option<Params>)
    requires |s| == |segs|
  {
    match params
    case None => Param !in s
    case Some(m) =>
      && Param in s
      && (forall i :: 0 <= i < |s| && s[i].Param? ==> ParamName(routes, s, i) in m)
      && (forall name :: name in m ==> exists i: nat :: Binds(routes, s, i, name) && m[name] == segs[i])
  }

  /** r is what the routes answer for this method and path. */
  ghost predicate Answers(routes: seq<Entry>, verb: string, path: string, r: Option<LookupResult>) {
    var segs := Segments(path);
    match r
    case None => forall s :: Chosen(routes, segs, s) ==> LastEntry(routes, s, Upper(verb)) == None
    case Some(found) =>
      exists s ::
        && Chosen(routes, segs, s)
        && LastEntry(routes, s, Upper(verb)) == Some(found.entry)
        && Captures(routes, s, segs, found.params)
  }

  // ---- The specification is unambiguous ----

  lemma BeforeAsymmetric(a: Shape, b: Shape)
    requires Before(a, b)
    ensures a != b && !Before(b, a)
  {
    var k :| 0 <= k < |a| && k < |b| && a[..k] == b[..k] && a[k].Static? && b[k].Param?;
    assert forall l :: 0 <= l < k ==> a[l] == a[..k][l] == b[..k][l] == b[l];
  }

  /** At most one shape is chosen. */
  lemma ChosenUnique(routes: seq<Entry>, segs: seq<string>, s: Shape, t: Shape)
    requires Chosen(routes, segs, s) && Chosen(routes, segs, t)
    ensures s == t
  {
    if s != t {
      BeforeAsymmetric(s, t);
    }
  }

  lemma BindsUnique(routes: seq<Entry>, s: Shape, i: nat, j: nat, name: string)
    requires Binds(routes, s, i, name) && Binds(routes, s, j, name)
    ensures i == j
  {
  }

  lemma CapturesUnique(routes: seq<Entry>, s: Shape, segs: seq<string>, p: Option<Params>, q: Option<Params>)
    requires |s| == |segs|
    requires Captures(routes, s, segs, p) && Captures(routes, s, segs, q)
    ensures p == q
  {
    if p.Some? && q.Some? {
      forall name | name in p.value
        ensures name in q.value && q.value[name] == p.value[name]
      {
        var i: nat :| Binds(routes, s, i, name) && p.value[name] == segs[i];
        assert ParamName(routes, s, i) in q.value;
        var j: nat :| Binds(routes, s, j, name) && q.value[name] == segs[j];
        BindsUnique(routes, s, i, j, name);
      }
      forall name | name in q.value
        ensures name in p.value
      {
        var j: nat :| Binds(routes, s, j, name) && q.value[name] == segs[j];
        assert ParamName(routes, s, j) in p.value;
      }
      assert p.value == q.value;
    }
  }

  /** The routes, method and path determine the answer, entry and parameters alike. */
  lemma AnswerUnique(routes: seq<Entry>, verb: string, path: string, a: Option<LookupResult>, b: Option<LookupResult>)
    requires Answers(routes, verb, path, a) && Answers(routes, verb, path, b)
    ensures a == b
  {
    var segs := Segments(path);
    if a.Some? {
      var s :| Chosen(routes, segs, s)
               && LastEntry(routes, s, Upper(verb)) == Some(a.value.entry)
               && Captures(routes, s, segs, a.value.params);
      if b.Some? {
        var t :| Chosen(routes, segs, t)
                 && LastEntry(routes, t, Upper(verb)) == Some(b.value.entry)
                 && Captures(routes, t, segs, b.value.params);
        ChosenUnique(routes, segs, s, t);
        CapturesUnique(routes, s, segs, a.value.params, b.value.params);
      }
    }
  }

  /** A method answers the same in any letter case. */
  lemma AnswersIgnoreCase(routes: seq<Entry>, verb: string, path: string, r: Option<LookupResult>)
    ensures Answers(routes, Upper(verb), path, r) <==> Answers(routes, verb, path, r)
  {
    UpperIdempotent(verb);
  }

  // ---- A registered route finds itself ----

  lemma {:induction false} LastEntryFound(routes: seq<Entry>, i: nat, s: Shape, verb: string)
    requires i < |routes| && RouteShape(routes[i]) == s && Upper(routes[i].verb) == verb
    ensures exists j :: i <= j < |routes| && LastEntry(routes, s, verb) == Some(routes[j])
                        && RouteShape(routes[j]) == s && Upper(routes[j].verb) == verb
                        && forall k :: j < k < |routes| ==> !(RouteShape(routes[k]) == s && Upper(routes[k].verb) == verb)
  {
    var last := |routes| - 1;
    var e := routes[last];
    if RouteShape(e) == s && Upper(e.verb) == verb {
      assert LastEntry(routes, s, verb) == Some(routes[last]);
    } else {
      LastEntryFound(routes[..last], i, s, verb);
    }
  }

  /** Nothing comes before a route's own shape when its pattern is the path. */
  lemma OwnShapeChosen(routes: seq<Entry>, i: nat)
    requires i < |routes|
    ensures Chosen(routes, Segments(routes[i].path), RouteShape(routes[i]))
  {
    var segs := Segments(routes[i].path);
    var own := RouteShape(routes[i]);
    assert Candidate(routes, segs, own);
    forall t: Shape | Candidate(routes, segs, t) && t != own
      ensures Before(own, t)
    {
      var k := FirstDifference(own, t);
      // t is the start of some route's shape, whose literals are never ":x"
      var r :| 0 <= r < |routes| && t <= RouteShape(routes[r]);
      assert t[k] == RouteShape(routes[r])[k];
      assert own[..k] == t[..k];
    }
  }

  function FirstDifference(a: Shape, b: Shape): (k: nat)
    requires |a| == |b| && a != b
    ensures k < |a| && a[..k] == b[..k] && a[k] != b[k]
  {
    if a[0] != b[0] then 0
    else
      assert a == [a[0]] + a[1..] && b == [b[0]] + b[1..];
      var k := FirstDifference(a[1..], b[1..]);
      assert a[..k + 1] == [a[0]] + a[1..][..k] && b[..k + 1] == [b[0]] + b[1..][..k];
      k + 1
  }

  /** Looking up a registered pattern as a path answers the last route listed with its shape and method. */
  lemma OwnPatternAnswers(routes: seq<Entry>, i: nat, verb: string, r: Option<LookupResult>)
    requires i < |routes| && Upper(verb) == Upper(routes[i].verb)
    requires Answers(routes, verb, routes[i].path, r)
    ensures r.Some?
    ensures exists j :: i <= j < |routes| && r.value.entry == routes[j]
                        && RouteShape(routes[j]) == RouteShape(routes[i]) && Upper(routes[j].verb) == Upper(verb)
                        && forall k :: j < k < |routes| ==>
                             !(RouteShape(routes[k]) == RouteShape(routes[i]) && Upper(routes[k].verb) == Upper(verb))
  {
    var segs := Segments(routes[i].path);
    var own := RouteShape(routes[i]);
    OwnShapeChosen(routes, i);
    LastEntryFound(routes, i, own, Upper(verb));
    assert LastEntry(routes, own, Upper(verb)).Some?;
    assert r.Some?;
    var s :| Chosen(routes, segs, s) && LastEntry(routes, s, Upper(verb)) == Some(r.value.entry);
    ChosenUnique(routes, segs, s, own);
  }
}
