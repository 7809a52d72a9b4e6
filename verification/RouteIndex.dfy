/**
 The contents of a trie as a value: which shapes have a node, and what each
 node holds. Inserting routes one by one is followed here, and shown to agree
 with the flat specification.
 */
module RouteIndex {
  import opened Wrappers
  import opened Paths
  import opened RouteSpec

  datatype Cell = Cell(name: string, entries: map<string, Entry>)
  type Index = map<Shape, Cell>

  function Extend(s: Shape, k: Key): Shape {
    s + [k]
  }

  function EmptyIndex(): Index {
    map[[] := Cell("", map[])]
  }

  /** One segment of an insertion: the node is created once and keeps its first name. */
  function Touch(ix: Index, at: Shape, seg: string): Index {
    var s := Extend(at, KeyOf(seg));
    if s in ix then ix else ix[s := Cell(NameOf(seg), map[])]
  }

  function TouchPath(ix: Index, segs: seq<string>): Index {
    if segs == [] then ix
    else
      var last := |segs| - 1;
      Touch(TouchPath(ix, segs[..last]), ShapeOf(segs[..last]), segs[last])
  }

  function Store(ix: Index, s: Shape, verb: string, e: Entry): Index
    requires s in ix
  {
    ix[s := ix[s].(entries := ix[s].entries[verb := e])]
  }

  lemma ShapeOfPrefix(segs: seq<string>, n: nat)
    requires n < |segs|
    ensures ShapeOf(segs[..n + 1]) == Extend(ShapeOf(segs[..n]), KeyOf(segs[n]))
    ensures ShapeOf(segs)[..n] == ShapeOf(segs[..n])
  {
  }

  lemma PrefixOfExtend(s: Shape, base: Shape, k: Key)
    ensures s <= Extend(base, k) <==> s <= base || s == Extend(base, k)
  {
    if s <= Extend(base, k) && |s| <= |base| {
      assert s == Extend(base, k)[..|s|] == base[..|s|];
    }
  }

  /** A path's nodes are the old ones, unchanged, and new empty ones for the starts of its own shape. */
  ghost predicate TouchedBy(ix: Index, segs: seq<string>, after: Index) {
    && (forall s :: s in after <==> s in ix || s <= ShapeOf(segs))
    && (forall s :: s in ix ==> after[s] == ix[s])
    && (forall s :: s in after && s !in ix ==>
          0 < |s| <= |segs| && after[s] == Cell(NameOf(segs[|s| - 1]), map[]))
  }

  lemma {:induction false} TouchPathMeaning(ix: Index, segs: seq<string>)
    requires [] in ix
    ensures TouchedBy(ix, segs, TouchPath(ix, segs))
  {
    if segs != [] {
      var last := |segs| - 1;
      TouchPathMeaning(ix, segs[..last]);
      ShapeOfPrefix(segs, last);
      assert segs[..last + 1] == segs;
      TouchStep(ix, segs, TouchPath(ix, segs[..last]));
    }
  }

  lemma TouchStep(ix: Index, segs: seq<string>, before: Index)
    requires segs != [] && TouchedBy(ix, segs[..|segs| - 1], before)
    requires ShapeOf(segs) == Extend(ShapeOf(segs[..|segs| - 1]), KeyOf(segs[|segs| - 1]))
    ensures TouchedBy(ix, segs, Touch(before, ShapeOf(segs[..|segs| - 1]), segs[|segs| - 1]))
  {
    hide ShapeOf;
    hide KeyOf;
    hide NameOf;
    var last := |segs| - 1;
    var base := ShapeOf(segs[..last]);
    var after := Touch(before, base, segs[last]);
    forall s: Shape
      ensures s in after <==> s in ix || s <= ShapeOf(segs)
    {
      PrefixOfExtend(s, base, KeyOf(segs[last]));
    }
    forall s: Shape | s in after && s !in ix
      ensures 0 < |s| <= |segs| && after[s] == Cell(NameOf(segs[|s| - 1]), map[])
    {
      if s in before {
        assert segs[..last][|s| - 1] == segs[|s| - 1];
      }
    }
  }

  function InsertEntry(ix: Index, e: Entry): Index
    requires [] in ix
  {
    var segs := Segments(e.path);
    TouchPathMeaning(ix, segs);
    Store(TouchPath(ix, segs), ShapeOf(segs), Upper(e.verb), e)
  }

  function BuildIndex(routes: seq<Entry>): (ix: Index)
    ensures [] in ix
  {
    if routes == [] then EmptyIndex()
    else
      var before := BuildIndex(routes[..|routes| - 1]);
      var e := routes[|routes| - 1];
      TouchPathMeaning(before, Segments(e.path));
      InsertEntry(before, e)
  }

  // ---- The index agrees with the list ----

  lemma KnownAppend(routes: seq<Entry>, e: Entry, s: Shape)
    ensures Known(routes + [e], s) <==> Known(routes, s) || s <= RouteShape(e)
  {
    var all := routes + [e];
    if s <= RouteShape(e) {
      assert s <= RouteShape(all[|routes|]);
    }
    if i :| 0 <= i < |routes| && s <= RouteShape(routes[i]) {
      assert s <= RouteShape(all[i]);
    }
  }

  lemma {:induction false} FirstNameAppend(routes: seq<Entry>, e: Entry, s: Shape)
    requires s != []
    ensures Known(routes, s) ==> FirstName(routes + [e], s) == FirstName(routes, s)
    ensures !Known(routes, s) && s <= RouteShape(e) ==>
              FirstName(routes + [e], s) == NameOf(Segments(e.path)[|s| - 1])
  {
    if routes != [] {
      assert (routes + [e])[1..] == routes[1..] + [e];
      FirstNameAppend(routes[1..], e, s);
      if s <= RouteShape(routes[0]) {
        assert Known(routes, s);
      } else {
        if i :| 0 <= i < |routes| && s <= RouteShape(routes[i]) {
          assert routes[1..][i - 1] == routes[i];
        }
        if i :| 0 <= i < |routes[1..]| && s <= RouteShape(routes[1..][i]) {
          assert routes[i + 1] == routes[1..][i];
        }
      }
    }
  }

  /** A node exists exactly for the known shapes, with the first name and the last entries. */
  ghost predicate Faithful(ix: Index, routes: seq<Entry>) {
    && (forall s :: s in ix <==> Known(routes, s))
    && (forall s :: s in ix && s != [] ==> ix[s].name == FirstName(routes, s))
    && (forall s, verb :: s in ix ==> (verb in ix[s].entries <==> LastEntry(routes, s, verb).Some?))
    && (forall s, verb :: s in ix && verb in ix[s].entries ==> LastEntry(routes, s, verb) == Some(ix[s].entries[verb]))
  }

  lemma UnknownHasNoEntry(routes: seq<Entry>, s: Shape, verb: string)
    requires !Known(routes, s)
    ensures LastEntry(routes, s, verb) == None
  {
    if routes != [] {
      assert routes[|routes| - 1] in routes;
      forall i | 0 <= i < |routes| - 1
        ensures routes[..|routes| - 1][i] == routes[i]
      {
      }
      UnknownHasNoEntry(routes[..|routes| - 1], s, verb);
    }
  }

  /** Inserting the routes in order gives an index faithful to the list. */
  lemma {:induction false} BuildIndexFaithful(routes: seq<Entry>)
    ensures Faithful(BuildIndex(routes), routes)
  {
    if routes != [] {
      var before := routes[..|routes| - 1];
      var e := routes[|routes| - 1];
      assert routes == before + [e];
      BuildIndexFaithful(before);
      InsertFaithful(BuildIndex(before), before, e);
    }
  }

  lemma InsertFaithful(ix: Index, routes: seq<Entry>, e: Entry)
    requires [] in ix && Faithful(ix, routes)
    ensures Faithful(InsertEntry(ix, e), routes + [e])
  {
    hide FirstName;
    hide LastEntry;
    hide Segments;
    hide ShapeOf;
    var after := InsertEntry(ix, e);
    forall s: Shape
      ensures s in after <==> Known(routes + [e], s)
      ensures s in after && s != [] ==> after[s].name == FirstName(routes + [e], s)
    {
      InsertedNode(ix, routes, e, s);
    }
    forall s: Shape, verb: string | s in after
      ensures verb in after[s].entries <==> LastEntry(routes + [e], s, verb).Some?
      ensures verb in after[s].entries ==> LastEntry(routes + [e], s, verb) == Some(after[s].entries[verb])
    {
      InsertedEntries(ix, routes, e, s, verb);
    }
  }

  lemma InsertedNode(ix: Index, routes: seq<Entry>, e: Entry, s: Shape)
    requires [] in ix && Faithful(ix, routes)
    ensures s in InsertEntry(ix, e) <==> Known(routes + [e], s)
    ensures s in InsertEntry(ix, e) && s != [] ==> InsertEntry(ix, e)[s].name == FirstName(routes + [e], s)
  {
    hide FirstName;
    hide LastEntry;
    TouchPathMeaning(ix, Segments(e.path));
    KnownAppend(routes, e, s);
    if s != [] {
      FirstNameAppend(routes, e, s);
    }
  }

  lemma InsertedEntries(ix: Index, routes: seq<Entry>, e: Entry, s: Shape, verb: string)
    requires [] in ix && Faithful(ix, routes) && s in InsertEntry(ix, e)
    ensures var entries := InsertEntry(ix, e)[s].entries;
            && (verb in entries <==> LastEntry(routes + [e], s, verb).Some?)
            && (verb in entries ==> LastEntry(routes + [e], s, verb) == Some(entries[verb]))
  {
    hide FirstName;
    TouchPathMeaning(ix, Segments(e.path));
    assert (routes + [e])[..|routes|] == routes;
    if s !in ix {
      UnknownHasNoEntry(routes, s, verb);
    }
  }

  // ---- Walking the index ----

  function Bind(params: Option<Params>, name: string, value: string): Option<Params> {
    var m := if params.Some? then params.value else map[];
    Some(m[name := value])
  }

  datatype Walked = Walked(shape: Shape, params: Option<Params>)

  /** The walk below node at: the literal child first, then the parameter child. */
  function Walk(ix: Index, at: Shape, segs: seq<string>, params: Option<Params>): Option<Walked>
    decreases |segs|
  {
    if segs == [] then Some(Walked(at, params))
    else
      var literal := Extend(at, Static(segs[0]));
      var viaLiteral := if literal in ix then Walk(ix, literal, segs[1..], params) else None;
      if viaLiteral.Some? then viaLiteral
      else
        var param := Extend(at, Param);
        if param in ix then Walk(ix, param, segs[1..], Bind(params, ix[param].name, segs[0])) else None
  }

  /** The parameters bound on the way from the first n keys of s to all of s. */
  function BindFrom(ix: Index, s: Shape, n: nat, segs: seq<string>, params: Option<Params>): Option<Params>
    requires n <= |s| && |segs| == |s| - n
    requires forall i :: n <= i <= |s| ==> s[..i] in ix
    decreases |s| - n
  {
    if n == |s| then params
    else if s[n].Static? then BindFrom(ix, s, n + 1, segs[1..], params)
    else BindFrom(ix, s, n + 1, segs[1..], Bind(params, ix[s[..n + 1]].name, segs[0]))
  }

  ghost predicate PrefixClosed(ix: Index) {
    forall s, i :: s in ix && 0 <= i <= |s| ==> s[..i] in ix
  }

  /** t continues at by keys that fit segs. */
  ghost predicate Below(ix: Index, at: Shape, segs: seq<string>, t: Shape) {
    t in ix && at <= t && Fits(t[|at|..], segs)
  }

  lemma BelowStep(ix: Index, at: Shape, segs: seq<string>, k: Key, t: Shape)
    requires segs != [] && (k == Param || k == Static(segs[0]))
    ensures Below(ix, Extend(at, k), segs[1..], t) <==> Below(ix, at, segs, t) && t[|at|] == k
  {
    if at <= t && |t| > |at| {
      assert t[|at|..] == [t[|at|]] + t[|at| + 1..];
      assert Extend(at, k) <= t <==> t[|at|] == k;
      if Below(ix, Extend(at, k), segs[1..], t) {
        forall i | 0 <= i < |t[|at|..]|
          ensures t[|at|..][i] == Param || t[|at|..][i] == Static(segs[i])
        {
          if i > 0 {
            assert t[|at|..][i] == t[|at| + 1..][i - 1];
            assert segs[i] == segs[1..][i - 1];
          }
        }
      }
      if Below(ix, at, segs, t) && t[|at|] == k {
        forall i | 0 <= i < |t[|at| + 1..]|
          ensures t[|at| + 1..][i] == Param || t[|at| + 1..][i] == Static(segs[1..][i])
        {
          assert t[|at| + 1..][i] == t[|at|..][i + 1];
        }
      }
    }
  }

  /** The walk reaches the first fitting shape below its node, if there is one. */
  lemma {:induction false} WalkFindsFirst(ix: Index, at: Shape, segs: seq<string>, params: Option<Params>)
    requires PrefixClosed(ix) && at in ix
    ensures match Walk(ix, at, segs, params)
            case None => forall t :: !Below(ix, at, segs, t)
            case Some(w) =>
              && Below(ix, at, segs, w.shape)
              && (forall t :: Below(ix, at, segs, t) && t != w.shape ==> Before(w.shape, t))
              && w.params == BindFrom(ix, w.shape, |at|, segs, params)
    decreases |segs|
  {
    if segs == [] {
      forall t | Below(ix, at, segs, t)
        ensures t == at
      {
        assert t == at + t[|at|..];
      }
      assert at[|at|..] == [];
    } else {
      WalkStep(ix, at, segs, params);
    }
  }

  lemma WalkStep(ix: Index, at: Shape, segs: seq<string>, params: Option<Params>)
    requires PrefixClosed(ix) && at in ix && segs != []
    ensures match Walk(ix, at, segs, params)
            case None => forall t :: !Below(ix, at, segs, t)
            case Some(w) =>
              && Below(ix, at, segs, w.shape)
              && (forall t :: Below(ix, at, segs, t) && t != w.shape ==> Before(w.shape, t))
              && w.params == BindFrom(ix, w.shape, |at|, segs, params)
    decreases |segs|, 0
  {
    hide Fits;
    hide Before;
    hide BindFrom;
    hide Extend;
    var literal := Extend(at, Static(segs[0]));
    var param := Extend(at, Param);
    if literal in ix {
      WalkFindsFirst(ix, literal, segs[1..], params);
    }
    if param in ix {
      WalkFindsFirst(ix, param, segs[1..], Bind(params, ix[param].name, segs[0]));
    }
    var r := Walk(ix, at, segs, params);
    if r.Some? {
      var s := r.value.shape;
      var via := if literal in ix && Walk(ix, literal, segs[1..], params).Some? then literal else param;
      BindFromStep(ix, at, segs, s, via, params);
      FirstBelow(ix, at, segs, via, s);
    } else {
      forall t
        ensures !Below(ix, at, segs, t)
      {
        BelowSplit(ix, at, segs, t);
      }
    }
  }

  lemma BindFromStep(ix: Index, at: Shape, segs: seq<string>, s: Shape, via: Shape, params: Option<Params>)
    requires PrefixClosed(ix) && segs != [] && Below(ix, via, segs[1..], s)
    requires via == Extend(at, Static(segs[0])) || via == Extend(at, Param)
    ensures |s| == |at| + |segs|
    ensures via == Extend(at, Static(segs[0])) ==>
              BindFrom(ix, s, |at|, segs, params) == BindFrom(ix, s, |via|, segs[1..], params)
    ensures via == Extend(at, Param) ==>
              && via in ix
              && BindFrom(ix, s, |at|, segs, params) == BindFrom(ix, s, |via|, segs[1..], Bind(params, ix[via].name, segs[0]))
  {
    assert s[..|via|] == via;
  }

  /** The first below the literal child, or below the parameter child when there is no other, is the first of all. */
  lemma FirstBelow(ix: Index, at: Shape, segs: seq<string>, via: Shape, s: Shape)
    requires PrefixClosed(ix) && segs != [] && Below(ix, via, segs[1..], s)
    requires forall t :: Below(ix, via, segs[1..], t) && t != s ==> Before(s, t)
    requires via == Extend(at, Static(segs[0]))
          || (via == Extend(at, Param) && forall t :: !(Extend(at, Static(segs[0])) in ix && Below(ix, Extend(at, Static(segs[0])), segs[1..], t)))
    ensures Below(ix, at, segs, s)
    ensures forall t :: Below(ix, at, segs, t) && t != s ==> Before(s, t)
  {
    hide Fits;
    BelowSplit(ix, at, segs, s);
    forall t | Below(ix, at, segs, t) && t != s
      ensures Before(s, t)
    {
      BelowSplit(ix, at, segs, t);
      if !Below(ix, via, segs[1..], t) {
        BeforeHere(ix, at, segs, s, t);
      }
    }
  }

  lemma BelowSplit(ix: Index, at: Shape, segs: seq<string>, t: Shape)
    requires PrefixClosed(ix) && segs != []
    ensures var literal, param := Extend(at, Static(segs[0])), Extend(at, Param);
            && (Below(ix, at, segs, t) ==>
                  (literal in ix && Below(ix, literal, segs[1..], t)) || (param in ix && Below(ix, param, segs[1..], t)))
            && (Below(ix, literal, segs[1..], t) ==> Below(ix, at, segs, t) && t[|at|].Static?)
            && (Below(ix, param, segs[1..], t) ==> Below(ix, at, segs, t) && t[|at|].Param?)
  {
    BelowStep(ix, at, segs, Static(segs[0]), t);
    BelowStep(ix, at, segs, Param, t);
    if Below(ix, at, segs, t) {
      assert t[|at|] == t[|at|..][0];
      assert t[..|at| + 1] == Extend(at, t[|at|]);
    }
  }

  lemma BeforeHere(ix: Index, at: Shape, segs: seq<string>, s: Shape, t: Shape)
    requires segs != [] && Below(ix, at, segs, s) && Below(ix, at, segs, t)
    requires s[|at|].Static? && t[|at|].Param?
    ensures Before(s, t)
  {
    assert s[..|at|] == at == t[..|at|];
  }

  // ---- The parameters captured on the way ----

  function NameAt(ix: Index, s: Shape, i: nat): string
    requires i < |s| && s[..i + 1] in ix
  {
    ix[s[..i + 1]].name
  }

  ghost predicate BindsWithin(ix: Index, s: Shape, n: nat, i: nat, name: string)
    requires n <= |s| && PrefixClosed(ix) && s in ix
  {
    && i < n
    && s[i].Param?
    && NameAt(ix, s, i) == name
    && forall j :: i < j < n && s[j].Param? ==> NameAt(ix, s, j) != name
  }

  /** params holds exactly what the first n keys of s bind. */
  ghost predicate CapturedSoFar(ix: Index, s: Shape, segs: seq<string>, n: nat, params: Option<Params>)
    requires |s| == |segs| && n <= |s| && PrefixClosed(ix) && s in ix
  {
    match params
    case None => forall i :: 0 <= i < n ==> s[i].Static?
    case Some(m) =>
      && (exists i :: 0 <= i < n && s[i].Param?)
      && (forall i :: 0 <= i < n && s[i].Param? ==> NameAt(ix, s, i) in m)
      && (forall name :: name in m ==> exists i: nat :: BindsWithin(ix, s, n, i, name) && m[name] == segs[i])
  }

  lemma BindsWithinKept(ix: Index, s: Shape, n: nat, i: nat, name: string)
    requires n < |s| && PrefixClosed(ix) && s in ix && BindsWithin(ix, s, n, i, name)
    requires s[n].Static? || NameAt(ix, s, n) != name
    ensures BindsWithin(ix, s, n + 1, i, name)
  {
  }

  lemma CapturedStatic(ix: Index, s: Shape, segs: seq<string>, n: nat, params: Option<Params>)
    requires |s| == |segs| && n < |s| && PrefixClosed(ix) && s in ix
    requires CapturedSoFar(ix, s, segs, n, params) && s[n].Static?
    ensures CapturedSoFar(ix, s, segs, n + 1, params)
  {
    hide NameAt;
    if params.Some? {
      forall name | name in params.value
        ensures exists i: nat :: BindsWithin(ix, s, n + 1, i, name) && params.value[name] == segs[i]
      {
        var i: nat :| BindsWithin(ix, s, n, i, name) && params.value[name] == segs[i];
        BindsWithinKept(ix, s, n, i, name);
      }
    }
  }

  lemma CapturedParam(ix: Index, s: Shape, segs: seq<string>, n: nat, params: Option<Params>)
    requires |s| == |segs| && n < |s| && PrefixClosed(ix) && s in ix
    requires CapturedSoFar(ix, s, segs, n, params) && s[n].Param?
    ensures CapturedSoFar(ix, s, segs, n + 1, Bind(params, NameAt(ix, s, n), segs[n]))
  {
    var bound := NameAt(ix, s, n);
    var after := Bind(params, bound, segs[n]).value;
    forall name | name in after
      ensures exists i: nat :: BindsWithin(ix, s, n + 1, i, name) && after[name] == segs[i]
    {
      if name == bound {
        assert BindsWithin(ix, s, n + 1, n, name);
      } else {
        var i: nat :| BindsWithin(ix, s, n, i, name) && params.value[name] == segs[i];
        BindsWithinKept(ix, s, n, i, name);
      }
    }
  }

  lemma {:induction false} BindFromCaptures(ix: Index, s: Shape, segs: seq<string>, n: nat, params: Option<Params>)
    requires |s| == |segs| && n <= |s| && PrefixClosed(ix) && s in ix
    requires CapturedSoFar(ix, s, segs, n, params)
    ensures CapturedSoFar(ix, s, segs, |s|, BindFrom(ix, s, n, segs[n..], params))
    decreases |s| - n
  {
    hide CapturedSoFar;
    if n < |s| {
      assert segs[n..][1..] == segs[n + 1..];
      if s[n].Static? {
        CapturedStatic(ix, s, segs, n, params);
        BindFromCaptures(ix, s, segs, n + 1, params);
      } else {
        CapturedParam(ix, s, segs, n, params);
        BindFromCaptures(ix, s, segs, n + 1, Bind(params, NameAt(ix, s, n), segs[n]));
      }
    }
  }

  lemma CapturedMeansCaptures(ix: Index, routes: seq<Entry>, s: Shape, segs: seq<string>, params: Option<Params>)
    requires Faithful(ix, routes) && PrefixClosed(ix) && s in ix && |s| == |segs|
    requires CapturedSoFar(ix, s, segs, |s|, params)
    ensures Captures(routes, s, segs, params)
  {
    assert forall i | 0 <= i < |s| :: ParamName(routes, s, i) == NameAt(ix, s, i);
    hide Faithful;
    hide PrefixClosed;
    hide ParamName;
    hide NameAt;
    if params.Some? {
      forall name | name in params.value
        ensures exists i: nat :: Binds(routes, s, i, name) && params.value[name] == segs[i]
      {
        var i: nat :| BindsWithin(ix, s, |s|, i, name) && params.value[name] == segs[i];
        assert Binds(routes, s, i, name);
      }
    }
  }

  lemma FaithfulIsPrefixClosed(ix: Index, routes: seq<Entry>)
    requires Faithful(ix, routes)
    ensures PrefixClosed(ix)
  {
    forall s, i | s in ix && 0 <= i <= |s|
      ensures s[..i] in ix
    {
      if s != [] {
        var r :| 0 <= r < |routes| && s <= RouteShape(routes[r]);
        assert s[..i] <= RouteShape(routes[r]);
      }
      assert Known(routes, s[..i]);
    }
  }

  function LookUp(ix: Index, verb: string, path: string): Option<LookupResult>
    requires [] in ix
  {
    match Walk(ix, [], Segments(path), None)
    case None => None
    case Some(w) =>
      if w.shape in ix && Upper(verb) in ix[w.shape].entries
      then Some(LookupResult(ix[w.shape].entries[Upper(verb)], w.params))
      else None
  }

  lemma BelowRootIsCandidate(ix: Index, routes: seq<Entry>, segs: seq<string>, t: Shape)
    requires Faithful(ix, routes)
    ensures Below(ix, [], segs, t) <==> Candidate(routes, segs, t)
  {
    assert t[0..] == t;
  }

  /** From the root, the walk reaches the chosen shape, and fails only when nothing is chosen. */
  lemma WalkChooses(ix: Index, routes: seq<Entry>, segs: seq<string>)
    requires [] in ix && Faithful(ix, routes)
    ensures match Walk(ix, [], segs, None)
            case None => forall t :: !Chosen(routes, segs, t)
            case Some(w) => w.shape in ix && Chosen(routes, segs, w.shape)
  {
    FaithfulIsPrefixClosed(ix, routes);
    WalkFindsFirst(ix, [], segs, None);
    forall t: Shape
      ensures Below(ix, [], segs, t) <==> Candidate(routes, segs, t)
    {
      BelowRootIsCandidate(ix, routes, segs, t);
    }
  }

  /** The parameters the walk returns are those of the shape it reaches; abandoned branches leave none. */
  lemma WalkCaptures(ix: Index, routes: seq<Entry>, segs: seq<string>)
    requires [] in ix && Faithful(ix, routes)
    ensures match Walk(ix, [], segs, None)
            case None => true
            case Some(w) => |w.shape| == |segs| && Captures(routes, w.shape, segs, w.params)
  {
    FaithfulIsPrefixClosed(ix, routes);
    WalkFindsFirst(ix, [], segs, None);
    var r := Walk(ix, [], segs, None);
    if r.Some? {
      var s := r.value.shape;
      assert s[0..] == s && segs[0..] == segs;
      BindFromCaptures(ix, s, segs, 0, None);
      CapturedMeansCaptures(ix, routes, s, segs, r.value.params);
    }
  }

  /** Looking up in a faithful index gives the answer of the flat specification. */
  lemma LookUpAnswers(ix: Index, routes: seq<Entry>, verb: string, path: string)
    requires [] in ix && Faithful(ix, routes)
    ensures Answers(routes, verb, path, LookUp(ix, verb, path))
  {
    var segs := Segments(path);
    WalkChooses(ix, routes, segs);
    WalkCaptures(ix, routes, segs);
    var r := Walk(ix, [], segs, None);
    if r.Some? {
      forall t | Chosen(routes, segs, t)
        ensures t == r.value.shape
      {
        ChosenUnique(routes, segs, r.value.shape, t);
      }
    }
  }

  // ---- When a fitting route is found ----

  /** Whenever some route fits the path, some shape is chosen. */
  lemma FittingRouteGivesChoice(routes: seq<Entry>, i: nat, path: string)
    requires i < |routes| && Fits(RouteShape(routes[i]), Segments(path))
    ensures exists s :: Chosen(routes, Segments(path), s)
  {
    var ix := BuildIndex(routes);
    BuildIndexFaithful(routes);
    FaithfulIsPrefixClosed(ix, routes);
    WalkFindsFirst(ix, [], Segments(path), None);
    BelowRootIsCandidate(ix, routes, Segments(path), RouteShape(routes[i]));
    WalkChooses(ix, routes, Segments(path));
  }

  /** A lookup succeeds exactly when the chosen shape is that of a route with the method: fitting alone is not enough. */
  lemma FoundExactlyWhenChosenIsRegistered(routes: seq<Entry>, verb: string, path: string, r: Option<LookupResult>)
    requires Answers(routes, verb, path, r)
    ensures r.Some? <==> exists i :: 0 <= i < |routes| && Upper(routes[i].verb) == Upper(verb)
                                     && Chosen(routes, Segments(path), RouteShape(routes[i]))
  {
    var segs := Segments(path);
    if i :| 0 <= i < |routes| && Upper(routes[i].verb) == Upper(verb) && Chosen(routes, segs, RouteShape(routes[i])) {
      LastEntryFound(routes, i, RouteShape(routes[i]), Upper(verb));
    }
    if r.Some? {
      var s :| Chosen(routes, segs, s) && LastEntry(routes, s, Upper(verb)) == Some(r.value.entry);
      LastEntryListed(routes, s, Upper(verb));
    }
  }

  lemma {:induction false} LastEntryListed(routes: seq<Entry>, s: Shape, verb: string)
    requires LastEntry(routes, s, verb).Some?
    ensures exists i :: 0 <= i < |routes| && RouteShape(routes[i]) == s && Upper(routes[i].verb) == verb
                        && LastEntry(routes, s, verb) == Some(routes[i])
  {
    var last := |routes| - 1;
    if !(RouteShape(routes[last]) == s && Upper(routes[last].verb) == verb) {
      LastEntryListed(routes[..last], s, verb);
      var i :| 0 <= i < last && RouteShape(routes[..last][i]) == s && Upper(routes[..last][i].verb) == verb
               && LastEntry(routes[..last], s, verb) == Some(routes[..last][i]);
      assert routes[i] == routes[..last][i];
    }
  }

  /** The shapes of the routes a/b and :x and the segments of the path a. */
  lemma ShapesOfHidden(deeper: Entry, wide: Entry)
    requires deeper.path == Join(["a", "b"]) && wide.path == Join([":x"])
    ensures RouteShape(deeper) == [Static("a"), Static("b")] && RouteShape(wide) == [Param]
    ensures Segments(Join(["a"])) == ["a"]
  {
    SegmentsOfJoin(["a", "b"]);
    SegmentsOfJoin([":x"]);
    SegmentsOfJoin(["a"]);
  }

  /** The node a comes before every other shape that fits the path a. */
  lemma NodeIsChosen(routes: seq<Entry>)
    requires |routes| == 2 && RouteShape(routes[0]) == [Static("a"), Static("b")]
    ensures Chosen(routes, ["a"], [Static("a")])
  {
    var node := [Static("a")];
    assert node <= RouteShape(routes[0]);
    hide Known;
    forall t | Candidate(routes, ["a"], t) && t != node
      ensures Before(node, t)
    {
      assert t == [t[0]] && node[..0] == t[..0];
    }
  }

  /**
   The route /:x fits the path /a and still nothing is found once a route
   /a/b is registered too: the node a on the way to it is preferred and
   carries no entry.
   */
  lemma FittingRouteCanBeHidden(deeper: Entry, wide: Entry, r: Option<LookupResult>)
    requires deeper.path == Join(["a", "b"]) && wide.path == Join([":x"])
    requires Answers([deeper, wide], wide.verb, Join(["a"]), r)
    ensures Fits(RouteShape(wide), Segments(Join(["a"])))
    ensures r == None
  {
    ShapesOfHidden(deeper, wide);
    var routes := [deeper, wide];
    NodeIsChosen(routes);
    FoundExactlyWhenChosenIsRegistered(routes, wide.verb, Join(["a"]), r);
    hide Join;
    hide Segments;
    hide Answers;
    assert Fits([Param], ["a"]);
    forall i | 0 <= i < |routes|
      ensures !Chosen(routes, ["a"], RouteShape(routes[i]))
    {
      NotChosenBeside(routes, i);
    }
  }

  lemma NotChosenBeside(routes: seq<Entry>, i: nat)
    requires i < |routes| && Chosen(routes, ["a"], [Static("a")]) && RouteShape(routes[i]) != [Static("a")]
    ensures !Chosen(routes, ["a"], RouteShape(routes[i]))
  {
    if Chosen(routes, ["a"], RouteShape(routes[i])) {
      ChosenUnique(routes, ["a"], [Static("a")], RouteShape(routes[i]));
    }
  }
}
